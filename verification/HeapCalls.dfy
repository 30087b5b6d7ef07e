/** What a single call promises its caller. */
module HeapCalls {
  import opened HeapLayout
  import opened HeapModel
  import opened HeapInvariant
  import opened HeapTheorems

  // ---------------------------------------------------------------- when the search succeeds

  /** Step k of the search reaches a block: the walk has not come back to its start nor met the
    * null link at the end of a chain.
    */
  predicate Reaches(a: Arena, k: nat) {
    k < |a.free| && (a.ring || a.rover + k < |a.free|)
  }

  predicate SuitsAt(a: Arena, request: nat, k: nat)
    requires a.rover < |a.free| && k < |a.free|
  {
    Suits(a.free[Visit(a, k)].size, request, k == 0)
  }

  lemma {:induction false} FindFrom(a: Arena, request: nat, k: nat)
    requires a.rover < |a.free| && k <= |a.free|
    requires forall j: nat :: j < k ==> Reaches(a, j) && !SuitsAt(a, request, j)
    ensures var found := Find(a, request, k);
            && (found.Found? <==> exists j: nat :: Reaches(a, j) && SuitsAt(a, request, j))
            && (found.Found? ==>
                  exists j: nat ::
                    && Reaches(a, j) && SuitsAt(a, request, j) && found.at == Visit(a, j)
                    && (forall l: nat :: l < j ==> !SuitsAt(a, request, l)))
            && (found.NullLink? ==> !a.ring) && (found.Exhausted? ==> a.ring)
    decreases |a.free| - k
  {
    if Reaches(a, k) && !SuitsAt(a, request, k) {
      FindFrom(a, request, k + 1);
    } else if Reaches(a, k) {
      assert Find(a, request, k) == Found(Visit(a, k));
    }
  }

  /** The search fails exactly when none of the blocks it reaches qualifies: on a ring all of them, on a
    * chain those from the starting one on.
    */
  lemma NoneFoundIff(a: Arena, request: nat)
    requires a.rover < |a.free|
    ensures !Find(a, request, 0).Found? <==>
            (&& a.free[a.rover].size <= request + 1
             && (forall i :: 0 <= i < |a.free| && i != a.rover && (a.ring || a.rover < i) ==> a.free[i].size < request))
    ensures Find(a, request, 0).NullLink? ==> !a.ring
    ensures Find(a, request, 0).Exhausted? ==> a.ring
  {
    FindFrom(a, request, 0);
    var found := Find(a, request, 0);
    if found.Found? {
      var j: nat :| Reaches(a, j) && SuitsAt(a, request, j) && found.at == Visit(a, j);
      assert j == 0 <==> Visit(a, j) == a.rover;
    } else {
      forall i | 0 <= i < |a.free| && (a.ring || a.rover <= i)
        ensures !Suits(a.free[i].size, request, i == a.rover)
      {
        var k := if i >= a.rover then i - a.rover else i + |a.free| - a.rover;
        assert Visit(a, k) == i && Reaches(a, k);
        assert !SuitsAt(a, request, k);
      }
    }
  }

  /** A ring is searched completely: allocate fails exactly when the block it starts at has no more
    * than one slot beyond the request and every other free block is smaller than the request.
    */
  lemma NoMemoryIff(a: Arena, bytes: nat, alignment: nat, top: nat)
    requires Valid(a)
    ensures var request := RequestSlots(bytes, alignment);
            Allocate(a, bytes, alignment, top).1 == NoMemory <==>
            a.ring && a.free[a.rover].size <= request + 1
            && (forall i :: 0 <= i < |a.free| && i != a.rover ==> a.free[i].size < request)
  {
    NoneFoundIff(a, RequestSlots(bytes, alignment));
  }

  /** A chain is searched to its end: allocate follows the null link there exactly when none of the blocks
    * from the starting one on qualifies.
    */
  lemma NullDereferenceIff(a: Arena, bytes: nat, alignment: nat, top: nat)
    requires Valid(a)
    ensures var request := RequestSlots(bytes, alignment);
            Allocate(a, bytes, alignment, top).1 == NullDereference <==>
            !a.ring && a.free[a.rover].size <= request + 1
            && (forall i :: a.rover < i < |a.free| ==> a.free[i].size < request)
  {
    NoneFoundIff(a, RequestSlots(bytes, alignment));
  }

  /** A call serves from the first block in the order of the walk that qualifies. */
  lemma ServesFirstQualifying(a: Arena, bytes: nat, alignment: nat, top: nat)
    requires Valid(a)
    ensures var request, served := RequestSlots(bytes, alignment), Allocate(a, bytes, alignment, top).1;
            served.Granted? ==>
              exists k: nat :: Reaches(a, k) && SuitsAt(a, request, k)
                && a.free[Visit(a, k)].start <= served.slot < a.free[Visit(a, k)].start + a.free[Visit(a, k)].size
                && forall l: nat :: l < k ==> !SuitsAt(a, request, l)
  {
    var request := RequestSlots(bytes, alignment);
    FindFrom(a, request, 0);
    if Find(a, request, 0).Found? {
      var i := Find(a, request, 0).at;
      var k: nat :| Reaches(a, k) && SuitsAt(a, request, k) && i == Visit(a, k)
                    && forall l: nat :: l < k ==> !SuitsAt(a, request, l);
      FoundPastBase(a, request);
    }
  }

  // ---------------------------------------------------------------- what the caller receives

  /** A block is handed out, and not by the branch that loses slots. */
  ghost predicate WellServed(a: Arena, bytes: nat, alignment: nat, top: nat)
    requires Valid(a)
  {
    Allocate(a, bytes, alignment, top).1.Granted? && !Misfit(a, bytes, alignment, top)
  }

  /** A call that hands out a block serves it from the block the search found. */
  lemma AllocateServes(a: Arena, bytes: nat, alignment: nat, top: nat) returns (i: nat, shift: nat)
    requires Valid(a) && Allocate(a, bytes, alignment, top).1.Granted?
    ensures var request := RequestSlots(bytes, alignment);
            && Find(a, request, 0) == Found(i) && 1 <= i < |a.free|
            && shift == ShiftAt(a, i, request, RealAlignment(alignment), top) < request <= a.free[i].size
            && Allocate(a, bytes, alignment, top) == Serve(a, i, request, shift)
  {
    var request := RequestSlots(bytes, alignment);
    i := Find(a, request, 0).at;
    FoundPastBase(a, request);
    shift := ShiftAt(a, i, request, RealAlignment(alignment), top);
  }

  /** The block handed out is new and ends inside the region. */
  lemma GrantedFresh(a: Arena, bytes: nat, alignment: nat, top: nat)
    requires Valid(a)
    ensures WellServed(a, bytes, alignment, top) ==>
              var (a', served) := Allocate(a, bytes, alignment, top);
              && served.slot !in a.live && served.slot in a'.live && a'.live - {served.slot} == a.live
              && served.slot + a'.live[served.slot] <= a.slots + 1
  {
    if WellServed(a, bytes, alignment, top) {
      var i, shift := AllocateServes(a, bytes, alignment, top);
      ServedFresh(a, i, RequestSlots(bytes, alignment), shift);
    }
  }

  lemma ServedFresh(a: Arena, i: nat, request: nat, shift: nat)
    requires Valid(a) && 1 <= i < |a.free| && shift < request <= a.free[i].size
    requires a.free[i].size > request + 1 || shift == 0
    ensures var (a', served) := Serve(a, i, request, shift);
            && served.slot !in a.live && served.slot in a'.live && a'.live - {served.slot} == a.live
            && served.slot + a'.live[served.slot] <= a.slots + 1
  {
    var b := a.free[i];
    var (a', served) := Serve(a, i, request, shift);
    assert b.start <= served.slot < b.start + b.size;
    if served.slot in a.live {
      FreeLiveSeparate(a, b, served.slot);
    }
    assert a'.live - {served.slot} == a.live;
  }

  /** With an alignment that fits the slot grid, the body of the block handed out is aligned and is the
    * pointer returned, the release path finds its header, and the block is new and ends inside the region.
    */
  lemma GrantedBlock(a: Arena, bytes: nat, alignment: nat, top: nat)
    requires Valid(a) && OnGrid(RealAlignment(alignment)) && top % HEADER == 0
    ensures WellServed(a, bytes, alignment, top) ==>
              var (a', served) := Allocate(a, bytes, alignment, top);
              var slot, unit := served.slot, RealAlignment(alignment);
              && slot !in a.live && slot in a'.live && a'.live - {slot} == a.live
              && slot + a'.live[slot] <= a.slots + 1
              && BodyPointer(slot, unit, top) == BodyAddress(slot, top)
              && BodyAddress(slot, top) % unit == 0
              && HeaderSlot(BodyPointer(slot, unit, top), top) == slot
  {
    GrantedFresh(a, bytes, alignment, top);
    if WellServed(a, bytes, alignment, top) {
      var i, shift := AllocateServes(a, bytes, alignment, top);
      var b, request := a.free[i], RequestSlots(bytes, alignment);
      var start := if b.size > request + 1 then b.start + (b.size - request) else b.start;
      HeaderShiftAligns(start, RealAlignment(alignment), top);
      HeaderRecovered(start + shift, top);
    }
  }

  /** The block handed out has room for the bytes asked for exactly when the size computation did
    * not wrap around.
    */
  lemma GrantedCapacityIff(a: Arena, bytes: nat, alignment: nat, top: nat)
    requires Valid(a) && SizeT(bytes, alignment) && OnGrid(RealAlignment(alignment)) && top % HEADER == 0
    ensures var (a', served) := Allocate(a, bytes, alignment, top);
            served.Granted? ==>
              && served.slot in a'.live
              && ((a'.live[served.slot] - 1) * HEADER >= bytes <==> Fits(bytes, alignment))
  {
    if Allocate(a, bytes, alignment, top).1.Granted? {
      var i, shift := AllocateServes(a, bytes, alignment, top);
      var request := RequestSlots(bytes, alignment);
      ShiftAtWithinExtra(a, i, request, alignment, top);
      ServedSize(a, i, request, shift);
      CapacityIff(bytes, alignment, shift, 0);
      CapacityIff(bytes, alignment, shift, 1);
    }
  }

  lemma ShiftAtWithinExtra(a: Arena, i: nat, request: nat, alignment: nat, top: nat)
    requires i < |a.free| && OnGrid(RealAlignment(alignment)) && top % HEADER == 0
    ensures ShiftAt(a, i, request, RealAlignment(alignment), top) * HEADER <= AdditionalSize(alignment)
    ensures alignment <= HEADER || alignment % HEADER == 0
  {
    var b := a.free[i];
    HeaderShiftBound(if b.size > request + 1 then b.start + (b.size - request) else b.start,
                     RealAlignment(alignment), top);
  }

  lemma ServedSize(a: Arena, i: nat, request: nat, shift: nat)
    requires 1 <= i < |a.free| && a.free[i].size >= request && shift < request
    ensures var (a', served) := Serve(a, i, request, shift);
            && served.Granted? && served.slot in a'.live
            && request - shift <= a'.live[served.slot] <= request - shift + 1
  {
  }

  // ---------------------------------------------------------------- seen from the free list before the call

  /** Slot s starts the last free block before slot t. */
  ghost predicate LastFreeBefore(free: seq<Block>, s: int, t: nat) {
    && s < t
    && (exists i :: 0 <= i < |free| && free[i].start == s)
    && (forall i :: 0 <= i < |free| && free[i].start < t ==> free[i].start <= s)
  }

  /** The slots from t to before `end` are the rear of a free block, or all of it. */
  ghost predicate RearOfFree(free: seq<Block>, t: nat, end: nat) {
    exists i :: 1 <= i < |free| && free[i].start <= t < end == free[i].start + free[i].size
  }

  lemma StartsAscend(free: seq<Block>, g: nat, t: nat)
    requires Spaced(free) && g < |free| && free[g].start < t
    requires g + 1 < |free| ==> t <= free[g + 1].start
    ensures LastFreeBefore(free, free[g].start, t)
  {
    forall i | 0 <= i < |free| && free[i].start < t
      ensures free[i].start <= free[g].start
    {
      assert Before(free, i, g) && Before(free, g + 1, i);
    }
  }

  lemma ServedPlace(a: Arena, i: nat, request: nat, shift: nat)
    requires Valid(a) && 1 <= i < |a.free| && shift < request <= a.free[i].size
    requires a.free[i].size > request + 1 || shift == 0
    ensures var (a', served) := Serve(a, i, request, shift);
            && a'.rover < |a'.free|
            && LastFreeBefore(a.free, a'.free[a'.rover].start, served.slot)
            && served.slot in a'.live
            && RearOfFree(a.free, served.slot, served.slot + a'.live[served.slot])
  {
    var slot := Serve(a, i, request, shift).1.slot;
    assert Before(a.free, i, i + 1) && Before(a.free, i - 1, i);
    StartsAscend(a.free, if a.free[i].size > request + 1 then i else i - 1, slot);
  }

  /** A block is handed out whose body begins at `address`: it is new, the rear of a block that was free, and
    * its body is aligned; the rover is left at the last free block before it.
    */
  ghost predicate HandedOut(was: Arena, now: Arena, from: int, t: nat, address: nat, alignment: nat, top: nat) {
    && t !in was.live && t in now.live && now.live - {t} == was.live
    && address == top + t * HEADER
    && (alignment > 0 ==> address % alignment == 0)
    && RearOfFree(was.free, t, t + now.live[t])
    && LastFreeBefore(was.free, from, t)
  }

  /** What the caller gets, for alignments that fit the slot grid. */
  lemma GrantedRear(a: Arena, bytes: nat, alignment: nat, top: nat)
    requires Valid(a) && OnGrid(RealAlignment(alignment)) && top % HEADER == 0
    ensures WellServed(a, bytes, alignment, top) ==>
              var (a', served) := Allocate(a, bytes, alignment, top);
              && a'.rover < |a'.free|
              && HandedOut(a, a', a'.free[a'.rover].start, served.slot,
                           BodyPointer(served.slot, RealAlignment(alignment), top), alignment, top)
  {
    GrantedBlock(a, bytes, alignment, top);
    if WellServed(a, bytes, alignment, top) {
      var i, shift := AllocateServes(a, bytes, alignment, top);
      ServedPlace(a, i, RequestSlots(bytes, alignment), shift);
    }
  }

  /** None of the free blocks the walk reaches from slot `from` on suits a request for n slots. */
  ghost predicate NoneFits(free: seq<Block>, ring: bool, from: int, n: nat) {
    forall i :: 0 <= i < |free| && (ring || from <= free[i].start) ==>
      free[i].size < n || (free[i].start == from && free[i].size <= n + 1)
  }

  lemma NoneFitsIff(a: Arena, n: nat)
    requires Valid(a)
    ensures NoneFits(a.free, a.ring, a.free[a.rover].start, n) <==>
            (&& a.free[a.rover].size <= n + 1
             && (forall i :: 0 <= i < |a.free| && i != a.rover && (a.ring || a.rover < i) ==> a.free[i].size < n))
  {
    forall i | 0 <= i < |a.free|
      ensures i < a.rover <==> a.free[i].start < a.free[a.rover].start
      ensures i == a.rover <==> a.free[i].start == a.free[a.rover].start
    {
      assert Before(a.free, i, a.rover) && Before(a.free, a.rover, i);
    }
  }

  /** When a request that does not wrap around is not served, in the bytes asked for and the sizes of the free
    * blocks.
    */
  lemma RefusedFor(a: Arena, bytes: nat, alignment: nat, top: nat)
    requires Valid(a)
    ensures SizeT(bytes, alignment) && Fits(bytes, alignment) ==>
              var total := bytes + (if alignment > HEADER then alignment - HEADER else 0);
              var n, served := (total + HEADER - 1) / HEADER + 1, Allocate(a, bytes, alignment, top).1;
              && (served == NoMemory <==> a.ring && NoneFits(a.free, true, a.free[a.rover].start, n))
              && (served == NullDereference <==> !a.ring && NoneFits(a.free, false, a.free[a.rover].start, n))
  {
    if SizeT(bytes, alignment) && Fits(bytes, alignment) {
      RequestComputed(bytes, alignment);
      NoneFoundIff(a, RequestSlots(bytes, alignment));
      NoneFitsIff(a, RequestSlots(bytes, alignment));
    }
  }

  /** The walk for the gap fails on a chain exactly when the block lies before its start. */
  lemma BehindRoverIff(a: Arena, t: nat)
    requires Valid(a) && t in a.live
    ensures Gap(a.free, t) < a.rover <==> t < a.free[a.rover].start
    ensures LastFreeBefore(a.free, a.free[Gap(a.free, t)].start, t)
  {
    var g := Gap(a.free, t);
    StartsAscend(a.free, g, t);
    assert Before(a.free, g + 1, a.rover) && Before(a.free, a.rover, g);
    assert a.rover >= 1 ==> Separate(a.free[a.rover], Block(t, a.live[t]));
  }

  // ---------------------------------------------------------------- what a release undoes

  lemma CarveUndone(a: Arena, i: nat, request: nat, shift: nat)
    requires Valid(a) && 1 <= i < |a.free| && a.free[i].size > request + 1 && shift < request
    requires a.free[i].start + a.free[i].size - (request - shift) !in a.live
    ensures var slot := a.free[i].start + a.free[i].size - (request - shift);
            var c := Carve(a, i, request, shift);
            && Valid(c) && slot in c.live
            && Deallocate(c, slot) == (a.(rover := i), Released)
  {
    var slot := a.free[i].start + a.free[i].size - (request - shift);
    var c := Carve(a, i, request, shift);
    CarveValid(a, i, request, shift);
    assert Before(a.free, i, i + 1);
    GapUnique(c.free, slot, i);
    assert Merge(c.free, i, Block(slot, request - shift)) == a.free;
    assert c.live - {slot} == a.live;
  }

  lemma UnlinkUndone(a: Arena, i: nat)
    requires Valid(a) && 1 <= i < |a.free| && a.free[i].start !in a.live
    ensures var c := Unlink(a, i);
            && Valid(c) && a.free[i].start in c.live
            && Deallocate(c, a.free[i].start) == (a.(rover := i - 1, ring := c.ring), Released)
  {
    var c, b := Unlink(a, i), a.free[i];
    UnlinkValid(a, i);
    UnlinkMergesBack(a.free, i);
    assert c.live - {b.start} == a.live;
  }

  lemma RemoveReinsert<T>(s: seq<T>, i: nat)
    requires i < |s|
    ensures var r := s[..i] + s[i + 1..]; r[..i] + [s[i]] + r[i..] == s
  {
    var r := s[..i] + s[i + 1..];
    assert r[..i] == s[..i] && r[i..] == s[i + 1..];
  }

  lemma UnlinkMergesBack(free: seq<Block>, i: nat)
    requires Spaced(free) && 1 <= i < |free|
    requires Spaced(free[..i] + free[i + 1..])
    ensures var free' := free[..i] + free[i + 1..];
            && free[i].start >= 1
            && Gap(free', free[i].start) == i - 1
            && Merge(free', i - 1, free[i]) == free
  {
    var free' := free[..i] + free[i + 1..];
    var b := free[i];
    assert Before(free, 0, i) && Before(free, i - 1, i) && Before(free, i, i + 1);
    assert free'[i - 1] == free[i - 1] && (i < |free'| ==> free'[i] == free[i + 1]);
    GapUnique(free', b.start, i - 1);
    assert Merge(free', i - 1, b) == free'[..i] + [b] + free'[i..];
    RemoveReinsert(free, i);
  }

  lemma ServeUndone(a: Arena, i: nat, request: nat, shift: nat)
    requires Valid(a) && 1 <= i < |a.free| && shift < request <= a.free[i].size
    requires a.free[i].size > request + 1 || shift == 0
    requires Serve(a, i, request, shift).1.slot !in a.live
    ensures var (a', served) := Serve(a, i, request, shift);
            && Valid(a') && served.slot in a'.live
            && Deallocate(a', served.slot) == (a.(rover := a'.rover, ring := a'.ring), Released)
  {
    if a.free[i].size > request + 1 {
      CarveUndone(a, i, request, shift);
    } else {
      UnlinkUndone(a, i);
    }
  }

  /** Releasing a block right after it was handed out restores the free list and the set of live
    * blocks; only the rover may have moved, and a ring emptied in between stays broken.
    */
  lemma DeallocateUndoesAllocate(a: Arena, bytes: nat, alignment: nat, top: nat)
    requires Valid(a)
    ensures WellServed(a, bytes, alignment, top) ==>
              var (a', served) := Allocate(a, bytes, alignment, top);
              && Valid(a') && served.slot in a'.live
              && Deallocate(a', served.slot) == (a.(rover := a'.rover, ring := a'.ring), Released)
  {
    if WellServed(a, bytes, alignment, top) {
      var i, shift := AllocateServes(a, bytes, alignment, top);
      ServedFresh(a, i, RequestSlots(bytes, alignment), shift);
      ServeUndone(a, i, RequestSlots(bytes, alignment), shift);
    }
  }

  lemma GapUnique(free: seq<Block>, t: nat, g: nat)
    requires Spaced(free) && t >= 1 && g < |free| && free[g].start < t
    requires g + 1 < |free| ==> t < free[g + 1].start
    ensures Gap(free, t) == g
  {
    var h := Gap(free, t);
    assert Before(free, h, g) && Before(free, g + 1, h) && Before(free, h + 1, g);
  }

  // ---------------------------------------------------------------- other mappings of the region

  lemma ShiftAtCongruent(a: Arena, i: nat, request: nat, alignment: nat, top: nat, delta: nat)
    requires i < |a.free| && delta % HEADER == 0 && delta % RealAlignment(alignment) == 0
    ensures ShiftAt(a, i, request, RealAlignment(alignment), top + delta)
              == ShiftAt(a, i, request, RealAlignment(alignment), top)
  {
    var b := a.free[i];
    var start := if b.size > request + 1 then b.start + (b.size - request) else b.start;
    ShiftCongruent(start, RealAlignment(alignment), top, delta);
  }

  /** Running allocate on the same region mapped elsewhere gives the same heap and the same block, when the
    * distance of the mappings is a multiple of header size and alignment.
    */
  lemma SameHeapElsewhere(a: Arena, bytes: nat, alignment: nat, top: nat, delta: nat)
    requires Valid(a) && delta % HEADER == 0 && delta % RealAlignment(alignment) == 0
    ensures Allocate(a, bytes, alignment, top + delta) == Allocate(a, bytes, alignment, top)
  {
    var request := RequestSlots(bytes, alignment);
    var found := Find(a, request, 0);
    if found.Found? {
      ShiftAtCongruent(a, found.at, request, alignment, top, delta);
    }
  }

  /** The pointer returned then differs by the distance of the mappings. */
  lemma MappingIndependent(a: Arena, bytes: nat, alignment: nat, top: nat, delta: nat)
    requires Valid(a) && delta % HEADER == 0 && delta % RealAlignment(alignment) == 0
    ensures Allocate(a, bytes, alignment, top + delta) == Allocate(a, bytes, alignment, top)
    ensures var served := Allocate(a, bytes, alignment, top).1;
            served.Granted? ==>
              BodyPointer(served.slot, RealAlignment(alignment), top + delta)
              == BodyPointer(served.slot, RealAlignment(alignment), top) + delta
  {
    SameHeapElsewhere(a, bytes, alignment, top, delta);
    var served := Allocate(a, bytes, alignment, top).1;
    if served.Granted? {
      ShiftCongruent(served.slot, RealAlignment(alignment), top, delta);
    }
  }

  /** A pointer handed out under one mapping names the same block under every other mapping. */
  lemma ForeignRelease(a: Arena, bytes: nat, alignment: nat, top: nat, top': nat)
    requires Valid(a) && OnGrid(RealAlignment(alignment)) && top % HEADER == 0 && top' % HEADER == 0
    ensures WellServed(a, bytes, alignment, top) ==>
              var slot := Allocate(a, bytes, alignment, top).1.slot;
              var p := BodyPointer(slot, RealAlignment(alignment), top);
              p - top + top' >= 0 && HeaderSlot(p - top + top', top') == slot
  {
    if WellServed(a, bytes, alignment, top) {
      GrantedBlock(a, bytes, alignment, top);
      HeaderRecovered(Allocate(a, bytes, alignment, top).1.slot, top');
    }
  }

  // ---------------------------------------------------------------- ring and chain

  /** The call takes the one free block besides the base whole: the walk starts at the base, and the block
    * has at most one slot beyond the request.
    */
  ghost predicate TakesLast(a: Arena, bytes: nat, alignment: nat, top: nat)
    requires a.rover < |a.free|
  {
    var request := RequestSlots(bytes, alignment);
    && |a.free| == 2 && a.rover == 0 && request <= a.free[1].size <= request + 1
    && ShiftAt(a, 1, request, RealAlignment(alignment), top) < request
  }

  /** On a ring no call follows a null link, and the call breaks the ring exactly when it takes the last free
    * block.
    */
  lemma RingLostIff(a: Arena, bytes: nat, alignment: nat, top: nat)
    requires Valid(a) && a.ring
    ensures Allocate(a, bytes, alignment, top).1 != NullDereference
    ensures !Allocate(a, bytes, alignment, top).0.ring <==> TakesLast(a, bytes, alignment, top)
  {
    var request := RequestSlots(bytes, alignment);
    FindFrom(a, request, 0);
    NoneFoundIff(a, request);
    if Find(a, request, 0).Found? {
      FoundPastBase(a, request);
    }
  }

  lemma MergeHoldsBlock(free: seq<Block>, g: nat, b: Block)
    requires g < |free| && free[0] == Block(0, 0) && free[g].start < b.start
    ensures |Merge(free, g, b)| >= 2
  {
    assert free[g].start + free[g].size == b.start ==> g >= 1;
  }

  lemma ReleaseHoldsBlock(a: Arena, t: nat)
    requires Valid(a) && t in a.live
    ensures |Merge(a.free, Gap(a.free, t), Block(t, a.live[t]))| >= 2
  {
    MergeHoldsBlock(a.free, Gap(a.free, t), Block(t, a.live[t]));
  }

  lemma RingAfterDeallocate(a: Arena, t: nat)
    requires Valid(a) && t in a.live
    ensures var (a', release) := Deallocate(a, t);
            && (a.ring ==> release == Released)
            && a'.ring == a.ring
            && (release == BrokenChain <==> !a.ring && Gap(a.free, t) < a.rover)
            && (release == Released ==> |a'.free| >= 2)
  {
    ReleaseHoldsBlock(a, t);
  }

  /** Once the last free block is gone, every further request follows a null link. */
  lemma EmptiedHeapFaults(a: Arena, bytes: nat, alignment: nat, top: nat)
    requires Valid(a) && |a.free| == 1
    ensures Allocate(a, bytes, alignment, top).1 == NullDereference
  {
    NullDereferenceIff(a, bytes, alignment, top);
  }
}
