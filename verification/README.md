# Shared-memory heap, start-up protocol, handles, list and channels: a model in Dafny

A library for inter-process shared memory puts a heap, reference-counted handles, a doubly linked list and
message channels into one named segment that any number of processes map at different addresses. This
project models the parts where many small stores have to add up to one promise, and proves that promise.

`dafny verify dfyconfig.toml` checks everything.

## What is modelled

- **The heap** (the `Heap` modules). The region is a row of header-sized slots. `HeapModel` is the abstract
  heap: free list in link order, live blocks, rover, and whether the last link leads back to the base.
  `HeapInvariant`, `HeapTheorems` and `HeapCalls` say what one call does, `HeapRuns` what any sequence of
  calls by differently mapped processes does. `HeapSlots` says which slots with offset links a call stores,
  `HeapImpl` is the code that walks and rewrites them in place, proved against both, and `HeapLinks` takes the
  slots down to the stored words.
- **Offset pointers** (`OffsetPtr`). size_t arithmetic, distance 0 for null.
- **Start-up and tear-down** (`StartUp`, `StartUpInvariant`, `StartUpTheorems`, `StartUpProgress`). A
  transition system over the processes' places in the set-up loop and destructor, the lock table with one
  entry per open file description, the name, the segments with generation, status and hint. Each step is one
  system call or one store; any process may crash between two. `StartUpProgress` says who is granted a lock
  and that a process nobody hinders gets in, joins those who share the segment, and gets out.
- **Shared and weak handles** (`SharedPtr`, `SharedPtrProofs`, `SharedPtrCalls`): one control block under
  every interleaving, with locking, loading, storing, deciding, unlocking, destroying and freeing as separate
  steps, and what a whole operation achieves. `SharedHandles` has the handles and blocks as objects, with
  copy, move, assignment and swap.
- **The list** (`OffsetList`): nodes linked both ways, rewritten in place, standing for a sequence.
- **The channels** (`Channels`, `ChannelProofs`, `ChannelCalls`, `MsgChannels`): one mutex and one condition
  variable for all channels, notification after the unlock, spurious wake-ups and time-outs.

## Where the code departs from its intent

The model follows the code. Each departure has a concrete input and, where the promise can be rescued, the
exact condition under which it holds.

1. An exactly fitting free block whose header has to move for alignment
   (libipsm_mem/src/offset_mallloc_impl.cpp:124-136) books the skipped slots on its list predecessor, which
   it never touches, and may lose one slot more. `HeapTheorems.AllocateTilesIff`: an allocation keeps every
   slot owned once if and only if this branch is not taken (`Misfit`). `HeapExamples.MisfitExample` is an
   input; alignments up to the header size never get there.
2. An offset pointer cannot point at itself (libipsm_mem/inc/offset_ptr.hpp:36-38), so the link of a base left
   alone is stored as null and the case written for it (libipsm_mem/src/offset_mallloc_impl.cpp:213-217) is
   not reached. `HeapCalls.RingLostIff`: the ring breaks if and only if the call takes the last free block
   (`TakesLast`, seen before the call). `HeapCalls.NullDereferenceIff`: on a chain, an allocation follows the
   null link if and only if no block from the starting one on qualifies. `HeapCalls.RingAfterDeallocate`: a
   release fails if and only if it starts behind its gap on a chain. `HeapExamples.EmptyingExample` and
   `HeapExamples.ReleaseFailsExample` are inputs.
3. The number of slots is computed in size_t. `HeapCalls.GrantedCapacityIff`: the block has room for the bytes
   asked for if and only if that did not wrap. `HeapExamples.WrapExample` is an input.
4. The header shift is subtracted from the request unchecked
   (libipsm_mem/src/offset_mallloc_impl.cpp:100-101). `Overruns` is the condition under which it is not
   smaller, `HeapTheorems.OverrunLeavesBlock` where the header then lies,
   `HeapTheorems.SensibleNeverOverruns` when that is excluded. `HeapExamples.OverrunExample` is an input.
5. Move assignment returns early when both handles share a block (libipsm_mem/inc/offset_shared_ptr.hpp:398)
   and does not empty the source, as [util.smartptr.shared.assign] of ISO/IEC 14882 would have it;
   `SharedHandles.Handle.MoveAssign` has the exact condition, `SharedHandles.SourceNotEmptied` an input. Copy
   assignment then keeps its old pointer.
6. The swap of two lists with unequal allocators destroys the successor of the node it has moved from
   (libipsm_mem/inc/offset_list.hpp:1038-1042). `OffsetList.OffsetList.Swap`: no bad step is taken if and only
   if this list has at most one node and, where allocators propagate, the other has none; and every old node is
   destroyed if and only if, besides, this list has none. `OffsetList.SwapReadsDestroyed` and
   `OffsetList.SwapGivesBackWrongly` are inputs.

## Model

| member | source | states |
|---|---|---|
| `HeapLayout.PowerOfTwoOnGrid` | libipsm_mem/src/offset_mallloc_impl.hpp:98-127 | Every power-of-two alignment divides the header size or is a multiple of it, which is what the header arithmetic needs |
| `HeapLayout.RoundUpLeast` | libipsm_mem/src/offset_mallloc_impl.hpp:90-96 | The rounding of the body address gives the least multiple of the alignment that is not below it |
| `HeapLayout.HeaderShiftAligns` | libipsm_mem/src/offset_mallloc_impl.hpp:98-127 | Moved by the computed number of slots, the header is followed by an aligned body that the rounding then leaves alone, and it moved no further than the extra bytes asked for |
| `HeapLayout.HeaderRecovered` | libipsm_mem/src/offset_mallloc_impl.cpp:175-176 | The division in the release path leads from the start of a body back to its header |
| `HeapLayout.CapacityIff` | libipsm_mem/src/offset_mallloc_impl.cpp:78-81 | A block of the requested number of slots, shortened by any permitted header shift and possibly one slot longer, holds the bytes asked for exactly when the size arithmetic does not wrap around size_t |
| `HeapLayout.ShiftBelowRequest` | libipsm_mem/src/offset_mallloc_impl.cpp:100-101 | A sensible request always has more slots than the header shift takes from it; alignments up to the header size cause no shift |
| `HeapLayout.ShiftCongruent` | libipsm_mem/src/offset_mallloc_impl.hpp:90-127 | Mappings that agree modulo header size and alignment compute the same shift, and their body pointers differ by the distance of the mappings |
| `HeapModel.Gap` | libipsm_mem/src/offset_mallloc_impl.cpp:183-184 | For every slot behind the base there is a last free block before it |
| `HeapInvariant.InitialValid` | libipsm_mem/src/offset_mallloc_impl.cpp:43-71 | The constructed heap is well formed: ascending free list from the base, nothing handed out, no slot lost |
| `HeapInvariant.CarveValid` | libipsm_mem/src/offset_mallloc_impl.cpp:92-110 | Cutting a tail, with any header shift below the request, keeps the heap well formed: ordered list, blocks disjoint, no slot lost, no touching free blocks |
| `HeapInvariant.UnlinkValid` | libipsm_mem/src/offset_mallloc_impl.cpp:112-123 | Handing out a free block whole keeps the heap well formed |
| `HeapInvariant.DeallocateValid` | libipsm_mem/src/offset_mallloc_impl.cpp:184-208 | Releasing a live block keeps the heap well formed in all four coalescing cases |
| `HeapInvariant.AllocateValid` | libipsm_mem/src/offset_mallloc_impl.cpp:76-147 | Every allocation that meets no misfit keeps the heap well formed |
| `HeapTheorems.BlocksSeparate` | libipsm_mem/src/offset_mallloc_impl.cpp:43-221 | Any two blocks of a well-formed heap, free or handed out, share no slot |
| `HeapTheorems.ValidTiles` | libipsm_mem/src/offset_mallloc_impl.cpp:43-221 | In a well-formed heap every slot of the region belongs to exactly one block |
| `HeapTheorems.MisfitBreaksTiling` | libipsm_mem/src/offset_mallloc_impl.cpp:124-136 | Booking the skipped slots of an exactly fitting block on its list predecessor always leaves a slot with no owner or with two |
| `HeapTheorems.AllocateTilesIff` | libipsm_mem/src/offset_mallloc_impl.cpp:112-139 | For every size and alignment, an allocation that does not overrun keeps every slot owned exactly once if and only if it does not take an exactly fitting block whose header has to move |
| `HeapTheorems.SensibleNeverOverruns` | libipsm_mem/src/offset_mallloc_impl.cpp:100-101 | With an alignment on the slot grid, and no wrap where a header may move, the shift never reaches the request |
| `HeapTheorems.OverrunLeavesBlock` | libipsm_mem/src/offset_mallloc_impl.cpp:100-109 | Where the shift is not below the request, size_t arithmetic puts the header past the end of the block searched or on its last slot, so that no slot of the block is left for the body |
| `HeapTheorems.SmallAlignmentNeverMisfits` | libipsm_mem/src/offset_mallloc_impl.cpp:117-119 | With a power-of-two alignment up to the header size the bad branch is never taken |
| `HeapTheorems.FullCoalescing` | libipsm_mem/src/offset_mallloc_impl.cpp:184-208 | Whenever nothing is handed out the free list is the base and the one initial block of initial size |
| `HeapCalls.FindFrom` | libipsm_mem/src/offset_mallloc_impl.cpp:85-144 | The search finds a block exactly when some reachable block qualifies, and then the first in ring order; it meets a null link only on a chain |
| `HeapCalls.NoMemoryIff` | libipsm_mem/src/offset_mallloc_impl.cpp:92-146 | Null is returned exactly on a ring whose starting block has at most one slot beyond the request and whose other free blocks are all smaller than the request |
| `HeapCalls.NullDereferenceIff` | libipsm_mem/src/offset_mallloc_impl.cpp:89-144 | A null link is followed exactly on a chain whose starting block has at most one slot beyond the request and whose later free blocks are all smaller than the request |
| `HeapCalls.ServesFirstQualifying` | libipsm_mem/src/offset_mallloc_impl.cpp:89-144 | A successful allocation serves from the first block of the walk that qualifies |
| `HeapCalls.GrantedBlock` | libipsm_mem/src/offset_mallloc_impl.cpp:92-138 | Without a misfit and with an alignment on the slot grid, the block handed out was nobody's, lies inside the region, its body is aligned as asked and is the pointer returned, and the release arithmetic finds its header |
| `HeapCalls.GrantedRear` | libipsm_mem/src/offset_mallloc_impl.cpp:92-138 | The block handed out is the rear of one free block, or all of it, its aligned body at the pointer returned, and the rover is left at the last free block before it |
| `HeapCalls.RefusedFor` | libipsm_mem/src/offset_mallloc_impl.cpp:78-81 | With the slots counted from the bytes asked for, alignment included, and no wrap: null and the null link have their exact conditions on the sizes of the free blocks |
| `HeapCalls.BehindRoverIff` | libipsm_mem/src/offset_mallloc_impl.cpp:180-211 | The gap lies before the start of the walk exactly when the block lies before the rover, and it is the last free block before that block |
| `HeapCalls.GrantedCapacityIff` | libipsm_mem/src/offset_mallloc_impl.cpp:78-81 | For every size, wrapping or not, and every alignment on the slot grid: a block handed out has room for the bytes asked for exactly when the size arithmetic did not wrap |
| `HeapCalls.CarveUndone` | libipsm_mem/src/offset_mallloc_impl.cpp:92-110 | Releasing a tail just cut off gives back the old free list and live set |
| `HeapCalls.UnlinkUndone` | libipsm_mem/src/offset_mallloc_impl.cpp:112-124 | Releasing a block just handed out whole gives back the old free list and live set |
| `HeapCalls.DeallocateUndoesAllocate` | libipsm_mem/src/offset_mallloc_impl.cpp:76-221 | Allocate followed by deallocate of the result restores the heap up to the rover and to a ring emptied in between |
| `HeapCalls.MappingIndependent` | libipsm_mem/src/offset_mallloc_impl.cpp:76-147 | Under mappings congruent modulo header size and alignment, allocate gives the same heap and block, and pointers that differ by the distance of the mappings; the stored contents are the subject of `HeapLinks.AllocateImage` |
| `HeapCalls.ForeignRelease` | libipsm_mem/src/offset_mallloc_impl.cpp:175-176 | A pointer obtained under one mapping, translated to another, names the same header there |
| `HeapCalls.RingLostIff` | libipsm_mem/src/offset_mallloc_impl.cpp:112-138 | On a ring allocate never follows a null link, and it breaks the ring exactly when, before the call, one free block besides the base is left, the walk starts at the base, and that block fits with at most one slot to spare |
| `HeapCalls.RingAfterDeallocate` | libipsm_mem/src/offset_mallloc_impl.cpp:180-221 | On a ring every release succeeds; it fails exactly on a chain whose walk starts behind the gap |
| `HeapCalls.EmptiedHeapFaults` | libipsm_mem/src/offset_mallloc_impl.cpp:112-144 | Once the last free block is gone, every further allocation follows a null link |
| `HeapExamples.EmptyingExample` | libipsm_mem/src/offset_mallloc_impl.cpp:112-138 | A three-slot heap, wherever it is mapped, is emptied by one request of one header's worth of bytes, after which every request follows a null link |
| `HeapExamples.ReleaseFailsExample` | libipsm_mem/src/offset_mallloc_impl.cpp:180-211 | Six legal calls on a fresh heap of six slots after which the release of a live pointer follows a null link: the walk starts behind its gap on a chain |
| `HeapExamples.WrapExample` | libipsm_mem/src/offset_mallloc_impl.cpp:81-81 | A request for the largest size_t is granted a block with no body bytes |
| `HeapExamples.OverrunExample` | libipsm_mem/src/offset_mallloc_impl.cpp:100-102 | A wrapping request aligned to two headers whose header shift is as large as the computed request |
| `HeapExamples.MisfitExample` | libipsm_mem/src/offset_mallloc_impl.cpp:124-136 | A concrete request, aligned to twice the header size, that takes the bad branch and leaves some slot with no owner or two |
| `HeapRuns.DeallocateTotal` | libipsm_mem/src/offset_mallloc_impl.cpp:184-208 | A release conserves the sum of all block sizes |
| `HeapRuns.AllocateTotal` | libipsm_mem/src/offset_mallloc_impl.cpp:92-139 | An allocation without misfit conserves the sum of all block sizes |
| `HeapRuns.RunTilesAndCoalesces` | libipsm_mem/src/offset_mallloc_impl.cpp:43-221 | After any legal sequence of calls, by processes with any mappings, the blocks tile the region, their sizes add up to its size, and if nothing is live the free list is the initial one |
| `HeapRuns.RunStaysRing` | libipsm_mem/src/offset_mallloc_impl.cpp:85-144 | A run ends on a ring exactly when no call takes the last free block, as seen before that call, and such a run never follows a null link, so no release fails |
| `HeapImpl.AroundTargetIff` | libipsm_mem/src/offset_mallloc_impl.cpp:184-184 | The pointer comparisons of the release path hold at exactly one place of the list, the gap the block belongs to |
| `HeapImpl.SearchStep` | libipsm_mem/src/offset_mallloc_impl.cpp:89-144 | One turn of the allocation loop over stored links is one step of the abstract search, including its two ways to stop |
| `HeapSlots.CarveRepresents` | libipsm_mem/src/offset_mallloc_impl.cpp:94-109 | The stores of the tail cut, with the trial header, represent the cut heap |
| `HeapSlots.UnlinkRepresents` | libipsm_mem/src/offset_mallloc_impl.cpp:119-124 | The stores of the unlinking represent the heap without the block, a link to the base itself becoming null |
| `HeapSlots.UnlinkShiftedRepresents` | libipsm_mem/src/offset_mallloc_impl.cpp:125-136 | The stores of the misfit branch represent the heap that books the slots on the predecessor |
| `HeapSlots.InsertRepresents` | libipsm_mem/src/offset_mallloc_impl.cpp:201-205 | The stores of the release without neighbours represent the list with the block inserted |
| `HeapSlots.FrontRepresents` | libipsm_mem/src/offset_mallloc_impl.cpp:191-194 | The stores of the front merge represent the merged list |
| `HeapSlots.BackRepresents` | libipsm_mem/src/offset_mallloc_impl.cpp:195-200 | The stores of the back merge represent the merged list |
| `HeapSlots.BothRepresents` | libipsm_mem/src/offset_mallloc_impl.cpp:186-190 | The stores of the two-sided merge represent the merged list |
| `HeapImpl.OffsetMalloc.constructor` | libipsm_mem/src/offset_mallloc_impl.cpp:65-70 | The two headers written represent the initial heap |
| `HeapImpl.OffsetMalloc.PlacementNew` | libipsm_mem/src/offset_mallloc_impl.cpp:260-276 | Null exactly for a null or reversed range, for one that the object fills, and where fewer than two headers fit between the first boundary behind the object, an object's size further on, and the end; otherwise the initial heap whose slots and one more header are all that fit there, laid out from that first boundary to the given end |
| `HeapImpl.OffsetMalloc.CarveTail` | libipsm_mem/src/offset_mallloc_impl.cpp:92-110 | The tail cut, trial header first: new abstract heap, pointer returned and the exact slots stored, or the overrun found after the trial header |
| `HeapImpl.OffsetMalloc.TakeWhole` | libipsm_mem/src/offset_mallloc_impl.cpp:112-138 | Both exact-fit branches: new abstract heap, pointer returned and the exact slots stored, or the overrun |
| `HeapImpl.OffsetMalloc.Search` | libipsm_mem/src/offset_mallloc_impl.cpp:85-144 | The loop over links terminates with the result of the abstract search and the places before and after |
| `HeapImpl.LiveKeepsSlots` | libipsm_mem/src/offset_mallloc_impl.cpp:94-138 | The slots an allocation stores, trial header included, are none of a live block |
| `HeapImpl.OffsetMalloc.Allocate` | libipsm_mem/src/offset_mallloc_impl.cpp:76-147 | The method computes the abstract allocation in state, slots and result, no slot of a live block changed. Without a misfit and on the slot grid, a pointer is the body address of a block that was not live and is, aligned as asked, the rear of one free block, with room up to the block's end for the bytes unless the size wrapped; it passes the range test of the release path, and `op_freep_` is the last free block before it. Unless the size wrapped, null and the null link have their exact conditions on the sizes in the old free list, and a sensible request never overruns |
| `HeapImpl.OffsetMalloc.GrantedBelongs` | libipsm_mem/src/offset_mallloc_impl.cpp:151-176 | A pointer handed out lies in the range the release path accepts and names its header |
| `HeapImpl.OffsetMalloc.FindGap` | libipsm_mem/src/offset_mallloc_impl.cpp:180-211 | The loop stops at the unique gap, or at a null link exactly on a chain started behind the gap; the code after the loop is not reached |
| `HeapSlots.DeallocateRepresents` | libipsm_mem/src/offset_mallloc_impl.cpp:184-208 | The slots stored by a release, in all four cases, represent the heap with the block merged into its gap |
| `HeapImpl.OthersKeepSlots` | libipsm_mem/src/offset_mallloc_impl.cpp:184-206 | The slots a release stores are none of another live block |
| `HeapImpl.OffsetMalloc.LinkIn` | libipsm_mem/src/offset_mallloc_impl.cpp:184-208 | The stores of the four cases leave exactly the specified slots and represent the merged heap |
| `HeapImpl.OffsetMalloc.Deallocate` | libipsm_mem/src/offset_mallloc_impl.cpp:149-221 | A pointer is refused exactly outside the region; otherwise the release fails exactly on a chain whose rover lies behind the block. Neither changes anything. A release done leaves `op_freep_` at the last free block there was before the block, the abstract release in state and slots, and every other live block as it was |
| `HeapImpl.OffsetMalloc.WriteBody` | libipsm_mem/src/offset_mallloc_impl.hpp:134-135 | Whatever a caller writes into the body of a block it holds, the heap stays represented |
| `OffsetPtr.StoreLoadIff` | libipsm_mem/inc/offset_ptr.hpp:302-317 | A stored pointer reads back as stored if and only if it does not point at its own place, in which case it reads as null |
| `OffsetPtr.Relocated` | libipsm_mem/inc/offset_ptr.hpp:302-317 | Pointer and target moved by the same distance: the stored offset is the same and reads as the moved target |
| `OffsetPtr.OffsetPointer.CopyFrom` | libipsm_mem/inc/offset_ptr.hpp:64-81 | Copying yields the same address at another place, the source unchanged, self-assignment a no-op |
| `OffsetPtr.OffsetPointer.MoveFrom` | libipsm_mem/inc/offset_ptr.hpp:69-90 | Moving yields the same address and leaves the source null, self-assignment a no-op |
| `OffsetPtr.OffsetPointer.Swap` | libipsm_mem/inc/offset_ptr.hpp:148-154 | Swapping exchanges the two addresses, except that one which points at its new place reads as null |
| `OffsetPtr.OffsetPointer.Advance` | libipsm_mem/inc/offset_ptr.hpp:216-222 | Pointer arithmetic moves the address by whole elements in size_t arithmetic |
| `HeapLinks.LinkMappingIndependent` | libipsm_mem/inc/offset_ptr.hpp:302-317 | The bytes of a link between two header slots are the same under every mapping and read back under any as the address of the same slot |
| `HeapLinks.NullLinkAgrees` | libipsm_mem/inc/offset_ptr.hpp:36-38 | A stored link reads as null exactly where the slot-level link is null: it was to be null or to point at its own header |
| `HeapLinks.RoverWordIndependent` | libipsm_mem/src/offset_mallloc_impl.hpp:149-150 | The word stored for `op_freep_` does not depend on the mapping and reads back under any as the address of the same slot |
| `HeapLinks.ImageIndependent` | libipsm_mem/inc/offset_ptr.hpp:302-317 | The same slots and the same `op_freep_` are stored as the same words, for the whole region, under every mapping |
| `HeapLinks.WordsLeadOn` | libipsm_mem/src/offset_mallloc_impl.hpp:72-75 | The word stored for a free block's link under one mapping reads under any other as the address there of the next free block, or as null at the end of a chain |
| `HeapLinks.AllocateImage` | libipsm_mem/src/offset_mallloc_impl.cpp:76-147 | The same request made under two mappings congruent modulo header size and alignment leaves identical stored contents, the words of all slots and of `op_freep_` |
| `HeapLinks.DeallocateImage` | libipsm_mem/src/offset_mallloc_impl.cpp:149-206 | The release of one block through two mappings names the same block and leaves identical stored contents, the words of all slots and of `op_freep_` |
| `StartUpInvariant.LockExclusiveKeeps` | libipsm_mem/src/ipsm_mem.cpp:73-91 | An attempt at the exclusive lock, granted or not, keeps the protocol invariant |
| `StartUpInvariant.LockSharedKeeps` | libipsm_mem/src/ipsm_mem.cpp:93-111 | An attempt at the shared lock, granted or not, keeps the protocol invariant |
| `StartUpInvariant.BuildStepKeeps` | libipsm_mem/src/ipsm_mem.cpp:337-350 | Creating the segment, building its header, storing the hint and setting ready each keep the protocol invariant |
| `StartUpInvariant.OpenStepKeeps` | libipsm_mem/src/ipsm_mem.cpp:364-382 | Opening, checking the status, backing out and leaving each keep the protocol invariant |
| `StartUpInvariant.UnlinkKeeps` | libipsm_mem/src/ipsm_mem.cpp:297-303 | Removing the name under the exclusive lock keeps the protocol invariant |
| `StartUpInvariant.AlwaysInvariant` | libipsm_mem/src/ipsm_mem.cpp:292-388 | The lock table, the freshness of generations, the published hints and what each process may rely on hold in every run, with any schedule, time-outs and crashes |
| `StartUpTheorems.Agreement` | libipsm_mem/src/ipsm_mem.cpp:331-384 | In every run all processes in use map one generation of the segment the name leads to, which is ready and carries the hint its creator stored |
| `StartUpTheorems.NoChangeWhileInUse` | libipsm_mem/src/ipsm_mem.cpp:294-303 | While a process uses the segment none holds the exclusive lock, so none truncates or removes it |
| `StartUpTheorems.OpenedIsReady` | libipsm_mem/src/ipsm_mem.cpp:371-379 | Without crashes, whoever opened the segment under the shared lock finds it ready |
| `StartUpTheorems.AlwaysTidy` | libipsm_mem/src/ipsm_mem.cpp:292-384 | Without crashes, the name exists only while some process is responsible for it, and is not ready only while it is being built |
| `StartUpTheorems.NoLeakedSegment` | libipsm_mem/src/ipsm_mem.cpp:292-303 | Without crashes, once all processes have left, including those that timed out, the name is gone |
| `StartUpTheorems.CrashRecovery` | libipsm_mem/src/ipsm_mem.cpp:331-384 | From every reachable state with no lock held, after any crashes, a process alone at the top of the loop is in use after one iteration on a fresh generation with its own hint |
| `StartUpTheorems.StaleMappingNotUsed` | shared_memory_construction.txt:189-221 | In every run, whatever happened in the gap between the two locks: a creator that has opened the segment under the shared lock has the newest generation, its own or a newer one, and once it uses it has let go of the mapping it built through |
| `StartUpTheorems.OvertakingHappens` | shared_memory_construction.txt:206-216 | It does happen: a run from the empty system in which another process builds a newer generation in the gap, which the first creator then opens instead of its own |
| `StartUpTheorems.CrashLeavesName` | libipsm_mem/src/ipsm_mem.cpp:339-342 | The crash-free condition is needed: a run in which a crash leaves the name with nobody in the system |
| `StartUpProgress.SharedGrantIff` | libipsm_mem/src/ipsm_mem.cpp:93-111 | In every run an attempt at the shared lock succeeds exactly when no process is building or removing the segment, however many share it; else the process waits |
| `StartUpProgress.ExclusiveGrantIff` | libipsm_mem/src/ipsm_mem.cpp:73-91 | In every run an attempt at the exclusive lock, to build or to remove the name, succeeds exactly when no process holds any lock |
| `StartUpProgress.OneStepCloser` | libipsm_mem/src/ipsm_mem.cpp:331-385 | Each step of a process that nobody hinders brings it exactly one step closer to using the segment, through every branch of the set-up loop |
| `StartUpProgress.GetsIn` | libipsm_mem/src/ipsm_mem.cpp:331-388 | The set-up loop ends: from every reachable state, after any crashes, in which nobody else holds the exclusive lock and others share only a ready segment, a process anywhere in the set-up that runs alone is in use after at most fifteen steps, and nobody else moves |
| `StartUpProgress.Joins` | libipsm_mem/src/ipsm_mem.cpp:356-384 | While q uses the segment, a process anywhere in the set-up that runs alone joins q on the same mapping within six steps, four from the top of the loop, with q unmoved and the name as it was |
| `StartUpProgress.NewcomerJoins` | libipsm_mem/src/ipsm_mem.cpp:307-388 | A process that enters while q uses the segment is in use on q's mapping after five steps |
| `StartUpProgress.LeavesAlone` | libipsm_mem/src/ipsm_mem.cpp:292-303 | A process that leaves alone is gone in two steps and leaves name and segments to those who share them, or in four removes the name when none does |
| `StartUpProgress.GivesUp` | libipsm_mem/src/ipsm_mem.cpp:356-361 | A process whose wait times out is gone and nothing else changes |
| `StartUpProgress.BuilderCrashRecovered` | libipsm_mem/src/ipsm_mem.cpp:331-350 | A crash anywhere under the exclusive lock hinders nobody: a process alone at the top of the loop afterwards builds a new generation with its own hint and uses it |
| `SharedPtrProofs.StoreKeeps` | libipsm_mem/inc/offset_shared_ptr.hpp:307-316 | Storing a changed counter, when a handle comes to life or goes, keeps the invariant of the control block |
| `SharedPtrProofs.DecideKeeps` | libipsm_mem/src/offset_shared_ptr.cpp:28-40 | The decision between freeing the block, disposing of the resource and doing neither keeps the invariant |
| `SharedPtrProofs.EndKeeps` | libipsm_mem/src/offset_shared_ptr.cpp:33-37 | Running the block's destructor and freeing it after the mutex was let go keeps the invariant |
| `SharedPtrProofs.NextKeeps` | libipsm_mem/inc/offset_shared_ptr.hpp:250-565 | Every step of every operation on handles keeps the invariant |
| `SharedPtrProofs.CountersMatch` | libipsm_mem/inc/offset_shared_ptr.hpp:29-38 | In every state of every interleaving the two counters equal the numbers of live handles |
| `SharedPtrProofs.NoStepTouchesFreed` | libipsm_mem/src/offset_shared_ptr.cpp:28-37 | No operation is under way on a freed block, none but the freeing on a destroyed one, and the block is freed at most once, after the last handle |
| `SharedPtrProofs.DisposedExactlyOnce` | libipsm_mem/src/offset_shared_ptr.cpp:28-40 | The deleter never runs while a strong handle lives and runs at most once; when no operation is under way it has run exactly if no strong handle is left, and the block is freed exactly if none of either kind is |
| `SharedPtrProofs.MutualExclusion` | libipsm_mem/inc/offset_shared_ptr.hpp:73-85 | Two operations are never both between locking and unlocking |
| `SharedPtrProofs.NoDeadlock` | libipsm_mem/src/offset_shared_ptr.cpp:21-43 | While any operation is under way, one of them can step |
| `SharedPtrProofs.NoResurrection` | libipsm_mem/inc/offset_shared_ptr.hpp:655-670 | Once the shared count is zero it is zero in every continuation |
| `SharedPtrProofs.LockRefusedIff` | libipsm_mem/inc/offset_shared_ptr.hpp:655-670 | At its check, `lock()` is refused exactly when no strong handle is left |
| `SharedPtrProofs.LockKeepsResource` | libipsm_mem/inc/offset_shared_ptr.hpp:718-734 | A weak-to-strong construction that passed its check finds the resource still there when it stores the counter |
| `SharedPtrCalls.DropTakesOff` | libipsm_mem/src/offset_shared_ptr.cpp:26-26 | In every interleaving the step at which a drop stores its counter takes exactly its handle off, and it is then of neither kind |
| `SharedPtrCalls.MakeAdds` | libipsm_mem/inc/offset_shared_ptr.hpp:307-316 | In every interleaving the step at which a copy or `lock()` stores its counter brings exactly one new handle of its kind to life |
| `SharedPtrCalls.MoveReplaces` | libipsm_mem/inc/offset_shared_ptr.hpp:337-348 | In every interleaving a move replaces the handle by one new one of the same kind and leaves counters and operations as they are |
| `SharedPtrCalls.DropEndsAlone` | libipsm_mem/src/offset_shared_ptr.cpp:21-43 | From every reachable state with a free mutex a drop that has begun and runs alone ends with exactly its handle gone, the deleter run once exactly if no strong handle is left, and the block freed exactly if none of either kind is |
| `SharedPtrCalls.MakeEndsAlone` | libipsm_mem/inc/offset_shared_ptr.hpp:655-670 | From every reachable state with a free mutex a copy or `lock()` that has begun and runs alone ends with exactly one new handle, or is refused with nothing changed exactly where a strong one was to be made and none is left |
| `SharedPtrCalls.DropCompletes` | libipsm_mem/src/offset_shared_ptr.cpp:21-43 | Every run with a free mutex can be continued by the whole drop of any handle nobody works with, from its beginning to its end, with that effect |
| `SharedPtrCalls.MakeCompletes` | libipsm_mem/inc/offset_shared_ptr.hpp:718-734 | Every run with a free mutex can be continued by the whole copy or `lock()` of any handle nobody drops, from its beginning to its end, with one handle more or refused |
| `SharedHandles.ControlBlock.TryDispose` | libipsm_mem/src/offset_shared_ptr.cpp:21-43 | Taking a handle off: counters, deletions and frees stay those that the remaining handles call for |
| `SharedHandles.Handle.Own` | libipsm_mem/inc/offset_shared_ptr.hpp:275-305 | Construction from a pointer yields a block with one strong handle |
| `SharedHandles.Handle.CopyFrom` | libipsm_mem/inc/offset_shared_ptr.hpp:307-332 | Copy construction adds one handle to the same block; from a weak to a strong handle it goes through exactly while the resource is there |
| `SharedHandles.Handle.MoveFrom` | libipsm_mem/inc/offset_shared_ptr.hpp:337-362 | Move construction replaces the old handle by the new one on the books and empties the old one |
| `SharedHandles.Handle.Drop` | libipsm_mem/inc/offset_shared_ptr.hpp:250-255 | Destruction takes exactly this handle off its block |
| `SharedHandles.Handle.Swap` | libipsm_mem/inc/offset_shared_ptr.hpp:416-429 | Swapping exchanges pointers and blocks; each block has the other handle in place of the one before |
| `SharedHandles.Handle.CopyAssign` | libipsm_mem/inc/offset_shared_ptr.hpp:374-382 | Copy assignment joins the new block and leaves the old one, deleting and freeing what that calls for; between handles of one block nothing happens, not even to the pointer |
| `SharedHandles.Handle.MoveAssign` | libipsm_mem/inc/offset_shared_ptr.hpp:395-403 | Move assignment takes over the other's block; the other handle is empty afterwards if and only if it was or the blocks differed |
| `SharedHandles.SourceNotEmptied` | libipsm_mem/inc/offset_shared_ptr.hpp:395-403 | Two strong handles of one block, of which the second is move-assigned to the first and still holds the block |
| `SharedHandles.Handle.Reset` | libipsm_mem/inc/offset_shared_ptr.hpp:431-434 | Resetting takes exactly this handle off its block |
| `SharedHandles.Handle.UseCount` | libipsm_mem/inc/offset_shared_ptr.hpp:489-493 | The use count is the number of strong handles |
| `SharedHandles.Handle.Lock` | libipsm_mem/inc/offset_shared_ptr.hpp:655-670 | `lock()` yields a new strong handle on the block, or an empty one exactly when the resource is gone |
| `OffsetList.OffsetList.InsertNodeToFront` | libipsm_mem/inc/offset_list.hpp:228-238 | The links stand for the old nodes with the new one in front |
| `OffsetList.OffsetList.InsertNodeToBack` | libipsm_mem/inc/offset_list.hpp:239-249 | The links stand for the old nodes with the new one behind |
| `OffsetList.OffsetList.InsertNodeBefore` | libipsm_mem/inc/offset_list.hpp:250-278 | The links stand for the old nodes with the new one spliced in at the position, end() and begin() included |
| `OffsetList.OffsetList.PushFront` | libipsm_mem/inc/offset_list.hpp:818-826 | The contents gain the value in front, all old nodes staying |
| `OffsetList.OffsetList.PushBack` | libipsm_mem/inc/offset_list.hpp:841-849 | The contents gain the value behind, all old nodes staying |
| `OffsetList.OffsetList.Insert` | libipsm_mem/inc/offset_list.hpp:892-904 | The contents gain the value at the position, and the iterator returned is at it |
| `OffsetList.OffsetList.DestroyRange` | libipsm_mem/inc/offset_list.hpp:966-970 | The loop destroys exactly the nodes of the range, each once, reading each link before its node goes |
| `OffsetList.OffsetList.Close` | libipsm_mem/inc/offset_list.hpp:972-990 | The four ways to close the gap link the nodes before and after it |
| `OffsetList.OffsetList.Erase` | libipsm_mem/inc/offset_list.hpp:956-993 | Range erase removes exactly that stretch, destroys its nodes and returns the place after it |
| `OffsetList.OffsetList.EraseAt` | libipsm_mem/inc/offset_list.hpp:947-954 | Erasing at a place removes that node; at end() nothing happens |
| `OffsetList.OffsetList.PopFront` | libipsm_mem/inc/offset_list.hpp:934-938 | Removes and destroys the first node; on an empty list nothing happens |
| `OffsetList.OffsetList.PopBack` | libipsm_mem/inc/offset_list.hpp:939-945 | Removes and destroys the last node; on an empty list nothing happens |
| `OffsetList.OffsetList.Clear` | libipsm_mem/inc/offset_list.hpp:995-1009 | Every node is destroyed once and the list is empty |
| `OffsetList.OffsetList.StepsMoveByOne` | libipsm_mem/inc/offset_list.hpp:379-405 | A step forward or back leads to the neighbouring place, from end() back to the last |
| `OffsetList.OffsetList.StepsUndoEachOther` | libipsm_mem/inc/offset_list.hpp:379-417 | `--` undoes `++` on every node, and `++` undoes `--` exactly off begin(), end() included |
| `OffsetList.OffsetList.ReverseStepsUndoEachOther` | libipsm_mem/inc/offset_list.hpp:508-546 | The same for reverse iterators, exactly off rbegin() |
| `OffsetList.OffsetList.WalksReadTheList` | libipsm_mem/inc/offset_list.hpp:707-764 | Walking from begin() reads the contents, walking from rbegin() reads them reversed, and neither reads more |
| `OffsetList.OffsetList.Empty` | libipsm_mem/inc/offset_list.hpp:775-779 | The test on the head pointer says whether the contents are empty |
| `OffsetList.OffsetList.Front` | libipsm_mem/inc/offset_list.hpp:791-795 | The first value |
| `OffsetList.OffsetList.Back` | libipsm_mem/inc/offset_list.hpp:802-808 | The last value, read one step back from end() |
| `OffsetList.OffsetList.Size` | libipsm_mem/inc/offset_list.hpp:781-789 | The loop over the iterators counts the contents |
| `OffsetList.OffsetList.Copy` | libipsm_mem/inc/offset_list.hpp:611-630 | A copy has equal contents, its own nodes, and leaves the original as it is |
| `OffsetList.OffsetList.CopyAssign` | libipsm_mem/inc/offset_list.hpp:649-666 | Copy assignment destroys the old nodes with the old allocator and has equal contents; self-assignment is a no-op |
| `OffsetList.OffsetList.Move` | libipsm_mem/inc/offset_list.hpp:617-647 | Moving keeps the very nodes when the allocators are equal and the values otherwise; the source is empty |
| `OffsetList.OffsetList.MoveAssign` | libipsm_mem/inc/offset_list.hpp:668-695 | Move assignment destroys the old nodes, then does the same; self-assignment is a no-op |
| `OffsetList.OffsetList.Swap` | libipsm_mem/inc/offset_list.hpp:1011-1043 | With equal allocators the lists exchange their nodes. With unequal ones the two sizes and whether allocators propagate decide exactly whether the values are exchanged; otherwise the list is left with a node that did not come from the allocator it is about to be given back to, or with a destroyed node that is about to be read. Where values are exchanged, the old node of this list, if it had one, is never destroyed |
| `OffsetList.SwapReadsDestroyed` | libipsm_mem/inc/offset_list.hpp:1038-1042 | Two values in one list and none in one of another allocator: the swap destroys the second node and comes to read it |
| `OffsetList.SwapGivesBackWrongly` | libipsm_mem/inc/offset_list.hpp:1018-1036 | Where allocators propagate, one value in the other list: its node did not come from the allocator it is to be given back to |
| `OffsetList.OffsetList.SwapValues` | libipsm_mem/inc/offset_list.hpp:1027-1043 | The two loops of the swap with unequal allocators, followed up to the first bad step, with the node that makes it bad |
| `OffsetList.ReversedAt` | libipsm_mem/inc/offset_list.hpp:508-546 | Reversal puts each value at the mirrored place |
| `OffsetList.Iterator.Increment` | libipsm_mem/inc/offset_list.hpp:379-394 | `++` leads from each place to the next, and from end() nowhere |
| `OffsetList.Iterator.Decrement` | libipsm_mem/inc/offset_list.hpp:395-417 | `--` leads from each place to the one before, from end() to the last; from begin() it would lead to end() |
| `OffsetList.ReverseIterator.Increment` | libipsm_mem/inc/offset_list.hpp:508-523 | Reverse `++` leads from each place to the one before it in the list, and from rend() nowhere |
| `OffsetList.ReverseIterator.Decrement` | libipsm_mem/inc/offset_list.hpp:524-546 | Reverse `--` leads from each place to the one after it in the list, from rend() to the first; from rbegin() it would lead to rend() |
| `MsgChannels.MsgChannels.constructor` | libipsm_mem/src/ipsm_malloc.cpp:30-39 | Every channel starts with an empty list |
| `MsgChannels.MsgChannels.Send` | libipsm_mem/src/ipsm_malloc.cpp:143-151 | Sending appends to the list of that channel alone; a channel that does not exist is refused and nothing changes |
| `MsgChannels.MsgChannels.TryReceive` | libipsm_mem/src/ipsm_malloc.cpp:176-194 | The front of the channel's list is answered and taken off; the answer is empty exactly for an empty or missing channel; the other channels stay |
| `ChannelProofs.PushKeeps` | libipsm_mem/src/ipsm_malloc.cpp:148-151 | Appending under the mutex keeps order, conservation and the debt of a wake-up |
| `ChannelProofs.PopKeeps` | libipsm_mem/src/ipsm_malloc.cpp:171-173 | Popping under the mutex keeps order and conservation |
| `ChannelProofs.NotifyKeeps` | libipsm_mem/src/ipsm_malloc.cpp:152-153 | Notifying after the unlock keeps the invariant although the debt is paid |
| `ChannelProofs.NextKeeps` | libipsm_mem/inc/ipsm_condition_variable.hpp:46-52 | Every step, spurious wake-ups and time-outs included, keeps the invariant |
| `ChannelProofs.FifoAndConservation` | libipsm_mem/src/ipsm_malloc.cpp:148-194 | In every interleaving, what was sent on a channel is what was received on it followed by what is queued |
| `ChannelProofs.NeverPopsEmpty` | libipsm_mem/src/ipsm_malloc.cpp:167-173 | Whoever is about to read the front or pop finds the queue non-empty, and the call answers exactly the message it took off |
| `ChannelProofs.EmptyAnswer` | libipsm_mem/inc/ipsm_condition_variable.hpp:92-106 | An empty answer is given only while the queue is empty, and never by a blocking receive |
| `ChannelProofs.MutualExclusion` | libipsm_mem/src/ipsm_malloc.cpp:148-217 | Two processes are never both inside the critical section |
| `ChannelProofs.WaiterIsAboutToBeWoken` | libipsm_mem/src/ipsm_malloc.cpp:148-173 | No lost wake-up: whoever waits on a channel that holds a message has a sender of that channel still to notify |
| `ChannelProofs.StuckOnlyWhenNothingToReceive` | libipsm_mem/src/ipsm_malloc.cpp:137-217 | When no call can step by itself, every call waits on an empty queue |
| `ChannelProofs.ServedWhenAlone` | libipsm_mem/src/ipsm_malloc.cpp:196-217 | A receiver about to lock the mutex, on a channel with a message, takes off exactly the front when it runs next, even after its time-out |
| `ChannelCalls.SendsWhenAlone` | libipsm_mem/src/ipsm_malloc.cpp:148-153 | A sender about to lock a free mutex has after two steps put its message behind the queue of its channel and on record, nothing else; after four its call is over and every receiver that waited is about to look again |
| `ChannelCalls.NothingToTry` | libipsm_mem/src/ipsm_malloc.cpp:187-190 | `try_receive` on an empty channel comes to answer nothing and ends with everything as it was |
| `ChannelCalls.WaitsWhenEmpty` | libipsm_mem/inc/ipsm_condition_variable.hpp:46-52 | A blocking receive on an empty channel comes to wait with the mutex free and nothing else changed |
| `ChannelCalls.DeadlinePasses` | libipsm_mem/inc/ipsm_condition_variable.hpp:92-106 | A receive whose deadline passes while the channel is empty ends without an answer and with nothing else changed |
| `ChannelCalls.EverySendOnce` | libipsm_mem/src/ipsm_malloc.cpp:137-154 | In every interleaving what a process has put on the queues is exactly what it asked to send, each message once, on its channel and in order, up to the one it is about to put there |
| `ChannelCalls.SentWhenUnlocking` | libipsm_mem/src/ipsm_malloc.cpp:150-152 | In every interleaving a send that is about to unlock or to notify has its message on record, last of its process, with all its earlier ones |

## Left out

- HeapImpl.OffsetMalloc.Allocate: an overrun is followed up to the trial header; the stores after it go outside the block searched, and possibly outside the region, and what they destroy is not modelled (departure 4).
- HeapCalls.GrantedBlock: says nothing about a misfit, after which blocks overlap or slots are lost (departure 1); which slots are stored there is in `HeapImpl.OffsetMalloc.TakeWhole`. Alignments must be on the slot grid, which every power of two is; for others the pointer need not be the start of the body.
- HeapRuns.RunTilesAndCoalesces: runs stop being legal at a misfit, at an overrun and at a pointer that is not live; mappings lie on multiples of the header size.
- HeapImpl.OffsetMalloc.Deallocate: a pointer inside the region that was not handed out is outside its precondition, as it is outside what the source supports; a refusal stands both for the exception of debug builds and the plain return of release builds.
- HeapLayout.RoundUpLeast: addresses are unbounded, so the wrap of a rounding at the very end of the address space is not modelled; size_t wrap in request sizes and in offset pointers is.
- HeapLinks.AllocateImage: of the heap object only `op_freep_` is part of the stored contents; `op_end_` is written once, by the constructor, and the mutex and the binding count are not modelled.
- HeapImpl.OffsetMalloc.PlacementNew: object sizes are a parameter; binding counts of the heap object are not modelled.
- SharedHandles.Handle.CopyFrom: one process works with the handles at a time; interleavings are the subject of `SharedPtr`. The exception of a failed weak-to-strong construction is the result `made == false`.
- SharedPtrProofs.NextKeeps: assignments, `reset` and `swap` are sequences of the copies, drops and moves modelled there; a resource that itself owns a handle to its own control block, which would lock the mutex again while disposing, is not modelled.
- OffsetList.Node.Destroy: destroying a node and giving back its memory are one ghost mark on it; that callers hold it alive and name its allocator is the precondition.
- OffsetList.OffsetList.SwapValues: after the first bad step nothing more is said (departure 6); the turn of the loop that would come next is not run.
- OffsetList.OffsetList.Front: on an empty list the source reads through a null pointer, so the precondition excludes it; likewise `Back`.
- MsgChannels.MsgChannels.TryReceive: the mutex is not part of this class; who may be between locking and unlocking is the subject of `ChannelProofs`.
- ChannelProofs.EmptyAnswer: a blocking receive on a channel that does not exist returns a null pointer, which a caller cannot tell from a null message; the model has such a call return without entering the state.
- System calls (`open`, `flock`, `shm_open`, `ftruncate`, `mmap`, `shm_unlink`) are their abstract effect; creating the segment is one step, and errors other than a busy lock or a missing name do not occur.
- The log statement at libipsm_mem/src/ipsm_mem.cpp:377, which reads the header after unmapping it, has no effect on the protocol.
- Clocks: a time-out may strike any process that waits for the shared lock, or any receiver that waits with a deadline.
- Mutex and condition variable internals and the recovery of robust mutexes; crashes inside heap, list, counter and channel critical sections.
- Exceptions from constructors and deleters, and running out of memory inside list, handle and channel operations.
- `atomic_offset_ptr`: its atomicity depends on the memory order of single stores, which this model does not have, and its decoding has no case for null (libipsm_mem/inc/offset_ptr.hpp:987-990).
- `offset_string`: the loops that measure a string do not advance (libipsm_mem/inc/offset_string.hpp:80-88), so on any string but the empty one its operations never return.
- `offset_unique_ptr`, the allocators, the memory resource and the `offset_malloc` wrapper pass their calls on to what is modelled; loggers and samples only write output.
