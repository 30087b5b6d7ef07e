/** `allocate` and `deallocate` walking and rewriting the slots in place. */
module HeapImpl {
  import opened HeapLayout
  import opened HeapModel
  import opened HeapInvariant
  import opened HeapTheorems
  import opened HeapCalls
  import opened HeapSlots

  /** `Overran`: the header shift was not below the request; the stores that follow reach outside the block.
    */
  datatype Allocation = Pointer(address: nat) | Nothing | AllocationFault | Overran

  /** How the search along the free list ends. */
  datatype Stop = Suitable | CameRound | MetNull

  datatype Deallocation = Freed | OutOfRange | DeallocationFault

  // ---------------------------------------------------------------- what the methods compute

  ghost function AsAllocation(served: Served, alignment: nat, top: nat): Allocation {
    match served
    case Granted(slot) => Pointer(BodyPointer(slot, RealAlignment(alignment), top))
    case NoMemory => Nothing
    case NullDereference => AllocationFault
    case Overrun => Overran
  }

  ghost function AsDeallocation(release: Release): Deallocation {
    match release
    case Released => Freed
    case BrokenChain => DeallocationFault
  }

  /** Visits the walk for gap g makes before it arrives. */
  ghost function StepsTo(a: Arena, g: nat): nat
    requires a.rover < |a.free| && g < |a.free|
  {
    if g >= a.rover then g - a.rover else |a.free| - a.rover + g
  }

  /** The release path's test for having found the gap. */
  predicate AroundTarget(pre: int, target: int, next: int) {
    (pre < target && target < next) || (pre < target && next < pre)
  }

  lemma AroundTargetIff(a: Arena, t: nat, j: nat)
    requires Valid(a) && t in a.live && j < |a.free|
    ensures AroundTarget(a.free[j].start, t, NextStart(a.free, j, a.ring)) <==> j == Gap(a.free, t)
  {
    var g := Gap(a.free, t);
    assert Before(a.free, j, g) && Before(a.free, g + 1, j) && Before(a.free, j + 1, g) && Before(a.free, j, j + 1);
    assert Before(a.free, 0, j);
    LiveApartFromFree(a, j);
    if j + 1 < |a.free| {
      LiveApartFromFree(a, j + 1);
    }
    if g + 1 < |a.free| {
      LiveApartFromFree(a, g + 1);
    }
  }

  /** One step of the walk that looks for a block to serve from. */
  lemma SearchStep(a: Arena, request: nat, k: nat)
    requires HeapModel.Valid(a) && Reaches(a, k)
    ensures SuitsAt(a, request, k) ==> Find(a, request, k) == Found(Visit(a, k))
    ensures !SuitsAt(a, request, k) ==> Find(a, request, k) == Find(a, request, k + 1)
    ensures var next := NextStart(a.free, Visit(a, k), a.ring);
            && (next == NULL ==> Find(a, request, k + 1) == NullLink)
            && (next == a.free[a.rover].start ==> Find(a, request, k + 1) == Exhausted)
            && (next != NULL && next != a.free[a.rover].start ==>
                  Reaches(a, k + 1) && next == a.free[Visit(a, k + 1)].start)
  {
    var i := Visit(a, k);
    assert Before(a.free, a.rover, i + 1) && Before(a.free, i + 1, a.rover) && Before(a.free, 0, a.rover);
  }

  lemma GapStep(a: Arena, g: nat, k: nat)
    requires HeapModel.Valid(a) && g < |a.free| && k <= StepsTo(a, g) && Reaches(a, k) && Visit(a, k) != g
    ensures var next := NextStart(a.free, Visit(a, k), a.ring);
            && (next == NULL ==> !a.ring && g < a.rover)
            && (next != NULL ==> k + 1 <= StepsTo(a, g) && Reaches(a, k + 1) && next == a.free[Visit(a, k + 1)].start)
  {
  }

  lemma StartNotMet(a: Arena, k: nat)
    requires HeapModel.Valid(a) && 1 <= k < |a.free|
    ensures a.free[Visit(a, k)].start != a.free[a.rover].start
  {
    assert Before(a.free, a.rover, Visit(a, k)) && Before(a.free, Visit(a, k), a.rover);
  }

  lemma VisitBefore(a: Arena, k: nat)
    requires a.rover < |a.free| && 1 <= k < |a.free| && Visit(a, k) >= 1
    ensures Visit(a, k - 1) == Visit(a, k) - 1
  {
  }

  /** The slot belongs to a block that is handed out, as header or body. */
  ghost predicate InLive(live: map<nat, nat>, slot: nat) {
    exists t :: t in live && t <= slot < t + live[t]
  }

  lemma LiveAwayFromFree(a: Arena, i: nat, slot: nat)
    requires HeapModel.Valid(a) && i < |a.free| && InLive(a.live, slot)
    ensures slot != a.free[i].start && !(a.free[i].start <= slot < a.free[i].start + a.free[i].size) && slot <= a.slots
  {
    var t :| t in a.live && t <= slot < t + a.live[t];
    assert i >= 1 ==> Separate(a.free[i], Block(t, a.live[t]));
  }

  /** The other live blocks lie away from a live block's header and from the free blocks' headers. */
  lemma OthersAwayFrom(a: Arena, t: nat)
    requires HeapModel.Valid(a) && t in a.live
    ensures forall s: nat :: InLive(a.live - {t}, s) ==>
              s <= a.slots && s != t && s != a.free[Gap(a.free, t)].start
  {
    forall s: nat | InLive(a.live - {t}, s)
      ensures s <= a.slots && s != t && s != a.free[Gap(a.free, t)].start
    {
      var u :| u in a.live - {t} && u <= s < u + a.live[u];
      assert InLive(a.live, s);
      LiveAwayFromFree(a, Gap(a.free, t), s);
    }
  }

  /** The trial header lies inside the block that is searched. */
  lemma TrialHeader(s: seq<Slot>, freep: int, a: Arena, i: nat, request: nat)
    requires HeapModel.Valid(a) && Represents(s, freep, a)
    requires 1 <= i < |a.free| && a.free[i].size > request + 1 && request >= 1
    ensures var ans := a.free[i].start + (a.free[i].size - request);
            ans < |s| && Represents(s[ans := Slot(0, request)], freep, a)
  {
    var ans := a.free[i].start + (a.free[i].size - request);
    FoundInPlace(s, freep, a, i);
    HeadersDiffer(a, i, ans);
    var t := s[ans := Slot(0, request)];
    forall k ensures LinkedAt(t, a.free, a.ring, k) {
      assert LinkedAt(s, a.free, a.ring, k);
    }
  }

  /** The stores of an allocation spare every slot of a live block. */
  lemma LiveKeepsSlots(s: seq<Slot>, freep: int, a: Arena, bytes: nat, alignment: nat, top: nat)
    requires HeapModel.Valid(a) && Represents(s, freep, a)
    ensures var t := AllocateStores(s, freep, a, bytes, alignment, top);
            |t| == |s| && forall x: nat :: InLive(a.live, x) ==> x < |s| && t[x] == s[x]
  {
    var request := RequestSlots(bytes, alignment);
    if Find(a, request, 0).Found? {
      FoundPastBase(a, request);
      FoundInPlace(s, freep, a, Find(a, request, 0).at);
    }
    forall x: nat | InLive(a.live, x)
      ensures x < |s| && AllocateStores(s, freep, a, bytes, alignment, top)[x] == s[x]
    {
      if Find(a, request, 0).Found? {
        LiveAwayFromFree(a, Find(a, request, 0).at, x);
        LiveAwayFromFree(a, Find(a, request, 0).at - 1, x);
      } else {
        LiveAwayFromFree(a, 0, x);
      }
    }
  }

  /** The stores of a release spare every slot of the other live blocks. */
  lemma OthersKeepSlots(s: seq<Slot>, freep: int, a: Arena, t: nat)
    requires HeapModel.Valid(a) && Represents(s, freep, a) && t in a.live
    ensures var s' := DeallocateStores(s, freep, a, t);
            |s'| == |s| && forall x: nat :: InLive(a.live - {t}, x) ==> x < |s| && s'[x] == s[x]
  {
    OthersAwayFrom(a, t);
    Neighbours(s, freep, a, Gap(a.free, t), t);
  }

  /** The pointer leads to the header of a live block. */
  predicate Names(p: nat, top: nat, live: map<nat, nat>) {
    HeaderSlot(p, top) >= 0 && HeaderSlot(p, top) as nat in live
  }

  class OffsetMalloc {
    const blocks: array<Slot>
    const lead: nat   // bytes between the base block's body and slot 1
    const room: nat   // bytes between slot 1 and op_end_
    var freep: nat
    ghost var arena: Arena

    ghost predicate Stored()
      reads this, blocks
    {
      && Represents(blocks[..], freep, arena)
      && (arena.slots + 1) * HEADER <= room
    }

    ghost predicate Valid()
      reads this, blocks
    {
      HeapModel.Valid(arena) && Stored()
    }

    constructor (slots: nat, lead: nat, room: nat)
      requires slots >= 1 && (slots + 1) * HEADER <= room
      ensures Valid() && fresh(blocks) && arena == Initial(slots)
      ensures this.lead == lead && this.room == room
    {
      blocks := new Slot[slots + 1](i => Slot(0, 0));
      this.lead, this.room := lead, room;
      freep := 0;
      arena := Initial(slots);
      new;
      blocks[1] := Linking(Slot(0, slots), 1, 0);
      blocks[0] := Linking(Slot(0, 0), 0, 1);
      InitialValid(slots);
      forall k ensures LinkedAt(blocks[..], arena.free, arena.ring, k) {
      }
    }

    /** Lays the heap out between `begin` and `end`, behind the object itself: slot 1 on the first header boundary.
      * The slots are counted from one object's size further on, so that much at the end is not used.
      */
    static method PlacementNew(begin: nat, end: nat, objectSize: nat) returns (heap: OffsetMalloc?)
      ensures var start := RoundUp(begin + objectSize, HEADER) + objectSize;
              && (heap == null <==>
                    || begin == 0 || end == 0 || begin >= end || begin + objectSize >= end
                    || end < start + 2 * HEADER)
              && (heap != null ==>
                    (heap.arena.slots + 1) * HEADER <= end - start < (heap.arena.slots + 2) * HEADER)
      ensures heap != null ==>
                && fresh(heap) && fresh(heap.blocks) && heap.Valid()
                && heap.arena == Initial(heap.arena.slots)
                && begin + objectSize + heap.lead == RoundUp(begin + objectSize, HEADER)
                && RoundUp(begin + objectSize, HEADER) + heap.room == end
    {
      if begin == 0 || end == 0 || begin >= end || begin + objectSize >= end {
        return null;
      }
      var buff := begin + objectSize;
      var top := RoundUp(buff, HEADER);
      RoundUpLeast(buff, HEADER);
      var start := top + objectSize;
      if end <= start {
        return null;
      }
      var num := (end - start) / HEADER;
      if num < 2 {
        return null;
      }
      heap := new OffsetMalloc(num - 1, top - buff, end - top);
    }

    function Next(b: nat): int
      requires b < blocks.Length
      reads this, blocks
    {
      Target(blocks[..], b)
    }

    predicate IsBelongTo(p: nat, top: nat) {
      top - lead <= p < top + room
    }

    /** State and result are those of serving from free block i of the given heap. */
    ghost predicate Serves(r: Allocation, s: seq<Slot>, from: int, was: Arena, i: nat, request: nat, shift: nat,
                           unit: nat, top: nat)
      requires HeapModel.Valid(was) && Represents(s, from, was) && unit > 0
      requires 1 <= i < |was.free| && was.free[i].size >= request && request >= 1
      reads this, blocks
    {
      var (a, served) := if shift < request then Serve(was, i, request, shift) else (was, Overrun);
      && arena == a
      && r == (if served.Granted? then Pointer(BodyPointer(served.slot, unit, top)) else Overran)
      && blocks[..] == ServeStores(s, from, was, i, request, shift)
    }

    /** Cuts a request off the tail of the block at `cur`: the header is first tried at the place
      * the size alone suggests, then moved forward to where the body is aligned.
      */
    method CarveTail(cur: nat, request: nat, unit: nat, top: nat, ghost i: nat) returns (r: Allocation)
      requires Valid() && unit > 0 && request >= 1
      requires 1 <= i < |arena.free| && cur == arena.free[i].start && arena.free[i].size > request + 1
      modifies this, blocks
      ensures Stored()
      ensures Serves(r, old(blocks[..]), old(freep), old(arena), i, request, ShiftAt(old(arena), i, request, unit, top), unit, top)
    {
      FoundInPlace(blocks[..], freep, arena, i);
      ghost var before := blocks[..];
      var size := blocks[cur].size;
      var ans := cur + (size - request);
      blocks[ans] := Slot(0, request);
      var shift := HeaderShift(ans, unit, top);
      if shift >= request {
        TrialHeader(before, freep, arena, i, request);
        return Overran;
      }
      CutOff(cur, request, shift, before, i);
      r := Pointer(BodyPointer(cur + (size - (request - shift)), unit, top));
    }

    /** What follows the trial header of the tail cut. */
    method CutOff(cur: nat, request: nat, shift: nat, ghost s: seq<Slot>, ghost i: nat)
      requires HeapModel.Valid(arena) && Represents(s, freep, arena) && (arena.slots + 1) * HEADER <= room
      requires 1 <= i < |arena.free| && cur == arena.free[i].start < |s| && cur + s[cur].size <= |s|
      requires s[cur].size == arena.free[i].size > request + 1 && shift < request
      requires blocks[..] == s[cur + (s[cur].size - request) := Slot(0, request)]
      modifies this, blocks
      ensures Stored() && arena == Carve(old(arena), i, request, shift)
      ensures blocks[..] == CarveStores(s, cur, request, shift)
    {
      CarveRepresents(s, freep, arena, i, request, shift);
      var rest := blocks[cur].size - (request - shift);
      var ans := cur + rest;
      blocks[cur] := blocks[cur].(size := rest);
      blocks[ans] := Slot(0, request - shift);
      freep := cur;
      arena := Carve(arena, i, request, shift);
    }

    /** Takes the block at `cur` out of the list, its predecessor lying at `pre`. */
    method TakeWhole(pre: nat, cur: nat, next: int, request: nat, unit: nat, top: nat, ghost i: nat) returns (r: Allocation)
      requires Valid() && unit > 0 && request >= 1
      requires 1 <= i < |arena.free| && cur == arena.free[i].start && pre == arena.free[i - 1].start
      requires next == NextStart(arena.free, i, arena.ring)
      requires request <= arena.free[i].size <= request + 1
      modifies this, blocks
      ensures Stored()
      ensures Serves(r, old(blocks[..]), old(freep), old(arena), i, request, ShiftAt(old(arena), i, request, unit, top), unit, top)
    {
      FoundInPlace(blocks[..], freep, arena, i);
      var shift := HeaderShift(cur, unit, top);
      if shift == 0 {
        TakeAligned(pre, cur, next, request, i);
        r := Pointer(BodyPointer(cur, unit, top));
      } else if shift < request {
        TakeShifted(pre, cur, next, request, shift, i);
        r := Pointer(BodyPointer(cur + shift, unit, top));
      } else {
        r := Overran;
      }
    }

    method TakeAligned(pre: nat, cur: nat, next: int, request: nat, ghost i: nat)
      requires Valid() && 1 <= i < |arena.free| && cur == arena.free[i].start && pre == arena.free[i - 1].start
      requires pre < cur < blocks.Length && next == NextStart(arena.free, i, arena.ring) && request >= 1
      modifies this, blocks
      ensures Stored() && arena == Unlink(old(arena), i)
      ensures blocks[..] == TakeStores(old(blocks[..]), pre, cur, next, request, 0)
    {
      UnlinkRepresents(blocks[..], freep, arena, i, request);
      blocks[pre] := Linking(blocks[pre], pre, next);
      blocks[cur] := Linking(blocks[cur], cur, NULL);
      freep := pre;
      arena := Unlink(arena, i);
    }

    method TakeShifted(pre: nat, cur: nat, next: int, request: nat, shift: nat, ghost i: nat)
      requires Valid() && 1 <= i < |arena.free| && cur == arena.free[i].start && pre == arena.free[i - 1].start
      requires pre < cur && next == NextStart(arena.free, i, arena.ring)
      requires 1 <= shift < request <= arena.free[i].size && cur + request <= blocks.Length
      modifies this, blocks
      ensures Stored() && arena == UnlinkShifted(old(arena), i, request, shift)
      ensures blocks[..] == TakeStores(old(blocks[..]), pre, cur, next, request, shift)
    {
      ghost var before := blocks[..];
      UnlinkShiftedRepresents(before, freep, arena, i, request, shift);
      var ans := cur + shift;
      blocks[ans] := Slot(0, request - shift);
      blocks[pre] := Linking(blocks[pre], pre, next);
      blocks[pre] := blocks[pre].(size := blocks[pre].size + shift);
      assert blocks[..] == TakeStores(before, pre, cur, next, request, shift);
      freep := pre;
      arena := UnlinkShifted(arena, i, request, shift);
    }

    /** The walk along the links from op_freep_ until a block suits, the walk comes round, or it
      * runs into a null link.
      */
    method Search(request: nat) returns (stop: Stop, pre: int, cur: int, next: int, ghost i: nat)
      requires Valid() && request >= 1
      ensures stop.CameRound? <==> Find(arena, request, 0) == Exhausted
      ensures stop.MetNull? <==> Find(arena, request, 0) == NullLink
      ensures stop.Suitable? ==>
                && Find(arena, request, 0) == Found(i)
                && 1 <= i < |arena.free| && cur == arena.free[i].start
                && next == NextStart(arena.free, i, arena.ring)
                && (arena.free[i].size <= request + 1 ==> pre == arena.free[i - 1].start)
    {
      FoundPastBase(arena, request);
      var end: int := freep;
      cur, pre := end, NULL;
      ghost var k: nat := 0;
      while true
        invariant Reaches(arena, k) && Find(arena, request, k) == Find(arena, request, 0)
        invariant cur == arena.free[Visit(arena, k)].start
        invariant pre == if k == 0 then NULL else arena.free[Visit(arena, k - 1)].start
        decreases |arena.free| - k
      {
        i := Visit(arena, k);
        assert LinkedAt(blocks[..], arena.free, arena.ring, i);
        SearchStep(arena, request, k);
        next := Next(cur);
        if blocks[cur].size > request + 1 || (pre != NULL && blocks[cur].size >= request) {
          if k > 0 {
            VisitBefore(arena, k);
          }
          return Suitable, pre, cur, next, i;
        }
        if next == NULL {
          return MetNull, pre, cur, next, i;
        }
        if next == end {
          return CameRound, pre, cur, next, i;
        }
        pre, cur := cur, next;
        k := k + 1;
      }
    }

    /** Searches the list and serves from the block found, the sizes computed. */
    method ServeRequest(request: nat, unit: nat, top: nat, ghost bytes: nat, ghost alignment: nat) returns (r: Allocation)
      requires Valid() && request == RequestSlots(bytes, alignment) && unit == RealAlignment(alignment)
      modifies this, blocks
      ensures Stored()
      ensures arena == HeapModel.Allocate(old(arena), bytes, alignment, top).0
      ensures r == AsAllocation(HeapModel.Allocate(old(arena), bytes, alignment, top).1, alignment, top)
      ensures blocks[..] == AllocateStores(old(blocks[..]), old(freep), old(arena), bytes, alignment, top)
    {
      var stop, pre, cur, next, i := Search(request);
      match stop
      case Suitable =>
        FoundInPlace(blocks[..], freep, arena, i);
        if blocks[cur].size > request + 1 {
          r := CarveTail(cur, request, unit, top, i);
        } else {
          r := TakeWhole(pre, cur, next, request, unit, top, i);
        }
      case CameRound => r := Nothing;
      case MetNull => r := AllocationFault;
    }

    /** A pointer handed out passes the range test of the release path. */
    lemma GrantedBelongs(bytes: nat, alignment: nat, top: nat)
      requires Valid()
      ensures WellServed(arena, bytes, alignment, top) && OnGrid(RealAlignment(alignment)) && top % HEADER == 0 ==>
                var (a, served) := HeapModel.Allocate(arena, bytes, alignment, top);
                var r := AsAllocation(served, alignment, top);
                && r.Pointer? && IsBelongTo(r.address, top) && Names(r.address, top, a.live)
                && a.rover < |a.free|
                && HandedOut(arena, a, a.free[a.rover].start, served.slot, r.address, alignment, top)
                && (SizeT(bytes, alignment) && Fits(bytes, alignment) ==>
                      r.address + bytes <= top + (served.slot + a.live[served.slot] - 1) * HEADER)
    {
      if WellServed(arena, bytes, alignment, top) && OnGrid(RealAlignment(alignment)) && top % HEADER == 0 {
        GrantedBlock(arena, bytes, alignment, top);
        GrantedRear(arena, bytes, alignment, top);
        AllocateValid(arena, bytes, alignment, top);
        if SizeT(bytes, alignment) {
          GrantedCapacityIff(arena, bytes, alignment, top);
        }
      }
    }

    /** Serves a request in the process that sees slot 1 at `top`. No slot of a live block is written. A pointer
      * that is returned is the aligned body of a new block with room for the bytes asked for, passes the range
      * test of the release path and leads to its header there.
      */
    method Allocate(bytes: nat, alignment: nat, top: nat) returns (r: Allocation)
      requires Valid()
      modifies this, blocks
      ensures Stored()
      ensures arena == HeapModel.Allocate(old(arena), bytes, alignment, top).0
      ensures r == AsAllocation(HeapModel.Allocate(old(arena), bytes, alignment, top).1, alignment, top)
      ensures Valid() || Misfit(old(arena), bytes, alignment, top)
      ensures blocks[..] == AllocateStores(old(blocks[..]), old(freep), old(arena), bytes, alignment, top)
      ensures forall s: nat :: InLive(old(arena.live), s) ==> s < blocks.Length && blocks[s] == old(blocks[..])[s]
      ensures r.Pointer? && !Misfit(old(arena), bytes, alignment, top)
              && OnGrid(RealAlignment(alignment)) && top % HEADER == 0 ==>
                && IsBelongTo(r.address, top) && Names(r.address, top, arena.live)
                && exists t: nat :: HandedOut(old(arena), arena, freep, t, r.address, alignment, top)
                     && (SizeT(bytes, alignment) && Fits(bytes, alignment) ==>
                           r.address + bytes <= top + (t + arena.live[t] - 1) * HEADER)
      ensures SizeT(bytes, alignment) && Fits(bytes, alignment) ==>
                var total := bytes + (if alignment > HEADER then alignment - HEADER else 0);
                var n := (total + HEADER - 1) / HEADER + 1;
                && (r.Nothing? <==> old(arena).ring && NoneFits(old(arena).free, true, old(freep), n))
                && (r.AllocationFault? <==> !old(arena).ring && NoneFits(old(arena).free, false, old(freep), n))
      ensures Sensible(bytes, alignment) && top % HEADER == 0 ==> !r.Overran?
    {
      LiveKeepsSlots(blocks[..], freep, arena, bytes, alignment, top);
      AllocateValid(arena, bytes, alignment, top);
      GrantedBelongs(bytes, alignment, top);
      RefusedFor(arena, bytes, alignment, top);
      if Sensible(bytes, alignment) && top % HEADER == 0 {
        SensibleNeverOverruns(arena, bytes, alignment, top);
      }
      r := ServeRequest(RequestSlots(bytes, alignment), RealAlignment(alignment), top, bytes, alignment);
    }

    /** The walk that looks for the gap around `target`. It always arrives on a ring; on a chain it
      * meets the null link when the gap lies before its start. It never comes back to its start, so
      * that the code after the walk (the case of a base linked to itself, and the throw) is not reached.
      */
    method FindGap(target: nat) returns (stop: Stop, pre: nat, next: int)
      requires Valid() && target in arena.live
      ensures stop == if !arena.ring && Gap(arena.free, target) < arena.rover then MetNull else Suitable
      ensures stop.Suitable? ==>
                && pre == arena.free[Gap(arena.free, target)].start
                && next == NextStart(arena.free, Gap(arena.free, target), arena.ring)
    {
      ghost var g := Gap(arena.free, target);
      var end := freep;
      pre := end;
      assert LinkedAt(blocks[..], arena.free, arena.ring, arena.rover);
      next := Next(pre);
      ghost var k: nat := 0;
      while true
        invariant k <= StepsTo(arena, g) && Reaches(arena, k)
        invariant pre == arena.free[Visit(arena, k)].start
        invariant next == NextStart(arena.free, Visit(arena, k), arena.ring)
        decreases |arena.free| - k
      {
        ghost var j := Visit(arena, k);
        AroundTargetIff(arena, target, j);
        if AroundTarget(pre, target, next) {
          return Suitable, pre, next;
        }
        GapStep(arena, g, k);
        if next == NULL {
          return MetNull, pre, next;
        }
        assert LinkedAt(blocks[..], arena.free, arena.ring, Visit(arena, k + 1));
        pre := next;
        next := Next(next);
        k := k + 1;
        StartNotMet(arena, k);
        if pre == end {
          assert false;
        }
      }
    }

    method MergeBoth(pre: nat, target: nat, next: nat)
      requires pre < blocks.Length && target < blocks.Length && next < blocks.Length
      modifies blocks
      ensures blocks[..] == BothStores(old(blocks[..]), pre, target, next, old(Next(next)))
    {
      var size := blocks[pre].size + blocks[target].size + blocks[next].size;
      blocks[pre] := Linking(blocks[pre], pre, Next(next));
      blocks[pre] := blocks[pre].(size := size);
    }

    method MergeBack(pre: nat, target: nat, next: nat)
      requires pre < blocks.Length && target < blocks.Length && next < blocks.Length
      requires pre != target && pre != next && target != next
      modifies blocks
      ensures blocks[..] == BackStores(old(blocks[..]), pre, target, next, old(Next(next)))
    {
      var beyond := Next(next);
      blocks[target] := Linking(blocks[target], target, beyond);
      blocks[pre] := Linking(blocks[pre], pre, target);
      blocks[target] := blocks[target].(size := blocks[target].size + blocks[next].size);
    }

    method Insert(pre: nat, target: nat, next: int)
      requires pre < blocks.Length && target < blocks.Length && pre != target
      modifies blocks
      ensures blocks[..] == InsertStores(old(blocks[..]), pre, target, next)
    {
      blocks[target] := Linking(blocks[target], target, next);
      blocks[pre] := Linking(blocks[pre], pre, target);
    }

    /** Links the block at `target` into the gap behind `pre`, merging it with its neighbours. */
    method LinkIn(pre: nat, target: nat, next: int)
      requires Valid() && target in arena.live && (arena.ring || Gap(arena.free, target) >= arena.rover)
      requires pre == arena.free[Gap(arena.free, target)].start
      requires next == NextStart(arena.free, Gap(arena.free, target), arena.ring)
      modifies this, blocks
      ensures Stored() && freep == pre
      ensures arena == Merged(old(arena), Gap(old(arena).free, target), target)
      ensures blocks[..] == DeallocateStores(old(blocks[..]), old(freep), old(arena), target)
    {
      ghost var s, g := blocks[..], Gap(arena.free, target);
      Neighbours(s, freep, arena, g, target);
      DeallocateRepresents(s, freep, arena, target);
      if pre + blocks[pre].size == target && target + blocks[target].size == next {
        MergeBoth(pre, target, next);
      } else if pre + blocks[pre].size == target {
        blocks[pre] := blocks[pre].(size := blocks[pre].size + blocks[target].size);
      } else if target + blocks[target].size == next {
        MergeBack(pre, target, next);
      } else {
        Insert(pre, target, next);
      }
      freep := pre;
      arena := Merged(arena, g, target);
    }

    /** Finds the gap around the block at `target` and links the block in. */
    method Release(target: nat) returns (r: Deallocation)
      requires Valid() && target in arena.live
      modifies this, blocks
      ensures Valid()
      ensures arena == HeapModel.Deallocate(old(arena), target).0
      ensures r == AsDeallocation(HeapModel.Deallocate(old(arena), target).1)
      ensures blocks[..] == DeallocateStores(old(blocks[..]), old(freep), old(arena), target)
      ensures r.DeallocationFault? ==> freep == old(freep) && blocks[..] == old(blocks[..])
      ensures r.Freed? ==> freep == old(arena).free[Gap(old(arena).free, target)].start
    {
      DeallocateValid(arena, target);
      var stop, pre, next := FindGap(target);
      if stop.MetNull? {
        return DeallocationFault;
      }
      LinkIn(pre, target, next);
      r := Freed;
    }

    /** Takes back the block that `p` points to, as seen by the process that maps slot 1 at `top`. No slot of
      * another live block is written.
      */
    method Deallocate(p: nat, top: nat) returns (r: Deallocation)
      requires Valid()
      requires IsBelongTo(p, top) ==> Names(p, top, arena.live)
      modifies this, blocks
      ensures Valid()
      ensures r.OutOfRange? <==> p < top - lead || top + room <= p
      ensures !r.Freed? ==> arena == old(arena) && freep == old(freep) && blocks[..] == old(blocks[..])
      ensures r.Freed? ==> LastFreeBefore(old(arena).free, freep, HeaderSlot(p, top))
      ensures r.DeallocationFault? <==>
                !r.OutOfRange? && !old(arena).ring && HeaderSlot(p, top) < old(freep)
      ensures !r.OutOfRange? ==>
                var t: nat := HeaderSlot(p, top);
                && arena == HeapModel.Deallocate(old(arena), t).0
                && r == AsDeallocation(HeapModel.Deallocate(old(arena), t).1)
                && blocks[..] == DeallocateStores(old(blocks[..]), old(freep), old(arena), t)
                && (forall s: nat :: InLive(old(arena).live - {t}, s) ==>
                      s < blocks.Length && blocks[s] == old(blocks[..])[s])
    {
      if !IsBelongTo(p, top) {
        return OutOfRange;
      }
      var target: nat := HeaderSlot(p, top);
      OthersKeepSlots(blocks[..], freep, arena, target);
      BehindRoverIff(arena, target);
      r := Release(target);
    }

    /** A caller may overwrite the body of a block it holds; the heap does not notice. */
    method WriteBody(slot: nat, value: Slot)
      requires Valid() && (exists t :: t in arena.live && t < slot < t + arena.live[t])
      modifies blocks
      ensures Valid() && arena == old(arena) && freep == old(freep)
      ensures slot < blocks.Length && blocks[..] == old(blocks[..])[slot := value]
    {
      ghost var t :| t in arena.live && t < slot < t + arena.live[t];
      LiveAwayFromFree(arena, 0, slot);
      ghost var before := blocks[..];
      blocks[slot] := value;
      forall k ensures LinkedAt(blocks[..], arena.free, arena.ring, k) {
        assert LinkedAt(before, arena.free, arena.ring, k);
        if 0 <= k < |arena.free| {
          LiveAwayFromFree(arena, k, slot);
        }
      }
    }
  }
}
