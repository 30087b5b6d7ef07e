/** What holds of the heap after one call: where blocks lie, what a caller receives, when the search
  * fails, and what a release undoes.
  */
module HeapTheorems {
  import opened Basics
  import opened HeapLayout
  import opened HeapModel
  import opened HeapInvariant

  // ---------------------------------------------------------------- the blocks tile the region

  ghost predicate IsBlock(a: Arena, b: Block) {
    b in a.free || (b.start in a.live && a.live[b.start] == b.size)
  }

  ghost predicate Covers(a: Arena, b: Block, slot: nat) {
    IsBlock(a, b) && b.start <= slot < b.start + b.size
  }

  ghost predicate OwnedOnce(a: Arena, slot: nat) {
    && (exists b :: Covers(a, b, slot))
    && (forall b, c :: Covers(a, b, slot) && Covers(a, c, slot) ==> b == c)
  }

  /** Every slot of the region belongs to exactly one block, free or handed out. */
  ghost predicate Tiles(a: Arena) {
    forall s :: 1 <= s <= a.slots ==> OwnedOnce(a, s)
  }

  lemma FreeNeverTouch(free: seq<Block>, i: nat, j: nat)
    requires Spaced(free) && 1 <= i < |free| && j < |free|
    ensures free[i].start + free[i].size != free[j].start
  {
    assert Before(free, i, j) && Before(free, j, i);
  }

  lemma BlocksSeparate(a: Arena, b: Block, c: Block)
    requires Valid(a) && IsBlock(a, b) && IsBlock(a, c) && b != c
    ensures Separate(b, c)
  {
    if b in a.free && c in a.free {
      var i: nat :| i < |a.free| && a.free[i] == b;
      var j: nat :| j < |a.free| && a.free[j] == c;
      assert Before(a.free, i, j) && Before(a.free, j, i);
    } else if b in a.free {
      FreeLiveSeparate(a, b, c.start);
    } else if c in a.free {
      FreeLiveSeparate(a, c, b.start);
    }
  }

  lemma FreeLiveSeparate(a: Arena, b: Block, t: nat)
    requires Valid(a) && b in a.free && t in a.live
    ensures Separate(b, Block(t, a.live[t]))
  {
    var i: nat :| i < |a.free| && a.free[i] == b;
    if i >= 1 {
      assert Separate(a.free[i], Block(t, a.live[t]));
    }
  }

  /** The block starting at a boundary. */
  lemma BlockAtBoundary(a: Arena, slot: nat) returns (b: Block)
    requires Valid(a) && Boundary(a.free, a.live, a.slots, slot) && slot <= a.slots
    ensures IsBlock(a, b) && b.start == slot && b.size >= 1 && b.start + b.size <= a.slots + 1
    ensures Boundary(a.free, a.live, a.slots, b.start + b.size)
  {
    if slot in a.live {
      b := Block(slot, a.live[slot]);
      assert EndsAtBoundary(a.free, a.live, a.slots, b);
    } else {
      var i :| 1 <= i < |a.free| && a.free[i].start == slot;
      b := a.free[i];
      assert EndsAtBoundary(a.free, a.live, a.slots, a.free[i]);
    }
  }

  lemma {:induction false} SlotCovered(a: Arena, from: nat, slot: nat)
    requires Valid(a) && Boundary(a.free, a.live, a.slots, from) && from <= slot <= a.slots
    ensures exists b :: Covers(a, b, slot)
    decreases slot - from
  {
    var b := BlockAtBoundary(a, from);
    if slot < b.start + b.size {
      assert Covers(a, b, slot);
    } else {
      SlotCovered(a, b.start + b.size, slot);
    }
  }

  lemma ValidTiles(a: Arena)
    requires Valid(a)
    ensures Tiles(a)
  {
    forall s | 1 <= s <= a.slots ensures OwnedOnce(a, s) {
      SlotCovered(a, 1, s);
      forall b, c | Covers(a, b, s) && Covers(a, c, s) ensures b == c {
        if b != c {
          BlocksSeparate(a, b, c);
        }
      }
    }
  }

  /** Taking an exactly fitting block off its start books slots on a block they do not follow. */
  lemma MisfitBreaksTiling(a: Arena, i: nat, request: nat, shift: nat)
    requires Valid(a) && 1 <= i < |a.free| && 1 <= shift < request <= a.free[i].size
    ensures !Tiles(UnlinkShifted(a, i, request, shift))
  {
    var c := UnlinkShifted(a, i, request, shift);
    var b, pre := a.free[i], a.free[i - 1];
    assert Before(a.free, i - 1, i);
    if i >= 2 {
      var e := pre.start + pre.size;
      OverlapAt(a, i - 1, b.start);
      assert c.free[i - 1] == Block(pre.start, pre.size + shift);
      assert Covers(c, c.free[i - 1], e);
      assert Covers(c, Block(e, c.live[e]), e);
      assert !OwnedOnce(c, e);
    } else {
      var s := if shift > b.start then shift else b.start;
      assert Before(a.free, 0, 1);
      forall d ensures !Covers(c, d, s) {
        UncoveredAt(a, request, shift, s, d);
      }
      assert !OwnedOnce(c, s);
    }
  }

  /** What follows a free block that is not the last one is a block handed out. */
  lemma OverlapAt(a: Arena, i: nat, limit: nat)
    requires Valid(a) && 1 <= i < |a.free| && a.free[i].start + a.free[i].size < limit <= a.slots
    ensures a.free[i].start + a.free[i].size in a.live
  {
    var e := a.free[i].start + a.free[i].size;
    assert EndsAtBoundary(a.free, a.live, a.slots, a.free[i]);
    if FreeAt(a.free, e) {
      var j :| 1 <= j < |a.free| && a.free[j].start == e;
      FreeNeverTouch(a.free, i, j);
    }
  }

  lemma UncoveredAt(a: Arena, request: nat, shift: nat, s: nat, d: Block)
    requires Valid(a) && 2 <= |a.free| && 1 <= shift < request <= a.free[1].size
    requires s == if shift > a.free[1].start then shift else a.free[1].start
    ensures !Covers(UnlinkShifted(a, 1, request, shift), d, s)
  {
    var c := UnlinkShifted(a, 1, request, shift);
    assert Before(a.free, 0, 1);
    if d in c.free {
      var k: nat :| k < |c.free| && c.free[k] == d;
      assert k >= 1 ==> a.free[k + 1] == d;
      assert Before(a.free, 1, k + 1);
    } else if d.start in a.live {
      FreeLiveSeparate(a, a.free[1], d.start);
    }
  }

  /** A call of allocate that does not overrun keeps the blocks tiling the region exactly when it meets no
    * misfit.
    */
  lemma AllocateTilesIff(a: Arena, bytes: nat, alignment: nat, top: nat)
    requires Valid(a)
    ensures !Overruns(a, bytes, alignment, top) ==>
              (Tiles(Allocate(a, bytes, alignment, top).0) <==> !Misfit(a, bytes, alignment, top))
  {
    if Misfit(a, bytes, alignment, top) && !Overruns(a, bytes, alignment, top) {
      var request := RequestSlots(bytes, alignment);
      var i := Find(a, request, 0).at;
      FoundPastBase(a, request);
      MisfitBreaksTiling(a, i, request, ShiftAt(a, i, request, RealAlignment(alignment), top));
    } else if !Misfit(a, bytes, alignment, top) {
      AllocateValid(a, bytes, alignment, top);
      ValidTiles(Allocate(a, bytes, alignment, top).0);
    }
  }

  /** Alignments up to the header size that fit the slot grid never meet a misfit. */
  lemma SmallAlignmentNeverMisfits(a: Arena, bytes: nat, alignment: nat, top: nat)
    requires Valid(a) && OnGrid(RealAlignment(alignment)) && alignment <= HEADER && top % HEADER == 0
    ensures !Misfit(a, bytes, alignment, top)
  {
    var request := RequestSlots(bytes, alignment);
    var found := Find(a, request, 0);
    if found.Found? {
      HeaderShiftBound(a.free[found.at].start, RealAlignment(alignment), top);
    }
  }

  /** Sensible requests never overrun. */
  lemma SensibleNeverOverruns(a: Arena, bytes: nat, alignment: nat, top: nat)
    requires Valid(a) && Sensible(bytes, alignment) && top % HEADER == 0
    ensures !Overruns(a, bytes, alignment, top)
  {
    var request := RequestSlots(bytes, alignment);
    var found := Find(a, request, 0);
    if found.Found? {
      var b := a.free[found.at];
      ShiftBelowRequest(if b.size > request + 1 then b.start + (b.size - request) else b.start, bytes, alignment, top);
    }
  }

  /** Where size_t arithmetic puts the header after an overrun, counted from the start of a block of that
    * size: past its end, or on its last slot, so that the body handed out lies wholly outside the block.
    */
  predicate HeaderOutside(size: nat, request: nat, shift: nat) {
    if size > request + 1 then (size - (request - shift) % WORD) % WORD >= size else shift + 1 >= size
  }

  lemma OverrunOutside(size: nat, request: nat, shift: nat)
    requires size < WORD / 2 && request <= shift < WORD / 2
    ensures HeaderOutside(size, request, shift)
  {
    if request < shift {
      assert (request - shift) % WORD == request - shift + WORD;
      assert (size - (request - shift) % WORD) % WORD == size + (shift - request);
    }
  }

  lemma OverrunLeavesBlock(a: Arena, bytes: nat, alignment: nat, top: nat)
    requires Valid(a) && SizeT(bytes, alignment) && a.slots < WORD / 2
    ensures var request := RequestSlots(bytes, alignment);
            Overruns(a, bytes, alignment, top) ==>
              var i := Find(a, request, 0).at;
              && Allocate(a, bytes, alignment, top).1 == Overrun
              && HeaderOutside(a.free[i].size, request, ShiftAt(a, i, request, RealAlignment(alignment), top))
  {
    var request := RequestSlots(bytes, alignment);
    if Find(a, request, 0).Found? {
      FoundPastBase(a, request);
      OutsideAt(a, Find(a, request, 0).at, request, alignment, top);
    }
  }

  lemma OutsideAt(a: Arena, i: nat, request: nat, alignment: nat, top: nat)
    requires Valid(a) && 1 <= i < |a.free| && a.slots < WORD / 2 && alignment < WORD
    ensures var shift := ShiftAt(a, i, request, RealAlignment(alignment), top);
            shift >= request ==> HeaderOutside(a.free[i].size, request, shift)
  {
    var shift := ShiftAt(a, i, request, RealAlignment(alignment), top);
    ShiftAtSmall(a, i, request, alignment, top);
    assert Before(a.free, 0, i);
    if shift >= request {
      OverrunOutside(a.free[i].size, request, shift);
    }
  }

  lemma ShiftAtSmall(a: Arena, i: nat, request: nat, alignment: nat, top: nat)
    requires i < |a.free| && alignment < WORD
    ensures ShiftAt(a, i, request, RealAlignment(alignment), top) < WORD / 2
  {
    var b := a.free[i];
    HeaderShiftSmall(if b.size > request + 1 then b.start + (b.size - request) else b.start,
                     RealAlignment(alignment), top);
  }

  /** With nothing handed out the free list is the one the heap started with. */
  lemma FullCoalescing(a: Arena)
    requires Valid(a) && a.live == map[]
    ensures a.free == Initial(a.slots).free
  {
    var i :| 1 <= i < |a.free| && a.free[i].start == 1;
    assert EndsAtBoundary(a.free, a.live, a.slots, a.free[i]);
    if FreeAt(a.free, a.free[i].start + a.free[i].size) {
      var j :| 1 <= j < |a.free| && a.free[j].start == a.free[i].start + a.free[i].size;
      FreeNeverTouch(a.free, i, j);
    } else {
      assert a.free[i] == Block(1, a.slots);
      assert Before(a.free, 0, 1) && Before(a.free, 1, i) && Before(a.free, 1, 2);
    }
  }
}
