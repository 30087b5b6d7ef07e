/** Every call on a well-formed heap leaves it well-formed, misfits excepted. */
module HeapInvariant {
  import opened HeapLayout
  import opened HeapModel

  // ---------------------------------------------------------------- initial heap

  lemma InitialValid(slots: nat)
    requires slots >= 1
    ensures Valid(Initial(slots))
  {
    var a := Initial(slots);
    assert a.free[1].start == 1;
    assert FreeAt(a.free, 1);
  }

  // ---------------------------------------------------------------- cutting off a tail

  lemma CarveKeepsBoundary(a: Arena, i: nat, request: nat, shift: nat, slot: nat)
    requires 1 <= i < |a.free| && a.free[i].size > request + 1 && shift < request
    requires Boundary(a.free, a.live, a.slots, slot)
    ensures var c := Carve(a, i, request, shift); Boundary(c.free, c.live, c.slots, slot)
  {
    var c := Carve(a, i, request, shift);
    if FreeAt(a.free, slot) {
      var k :| 1 <= k < |a.free| && a.free[k].start == slot;
      assert c.free[k].start == slot;
    }
  }

  lemma CarveGapless(a: Arena, i: nat, request: nat, shift: nat)
    requires Spaced(a.free) && Gapless(a.free, a.live, a.slots)
    requires 1 <= i < |a.free| && a.free[i].size > request + 1 && shift < request
    requires forall t :: t in a.live ==> t + a.live[t] <= a.free[i].start || a.free[i].start + a.free[i].size <= t
    ensures var c := Carve(a, i, request, shift); Gapless(c.free, c.live, c.slots)
  {
    var c := Carve(a, i, request, shift);
    var b := a.free[i];
    var slot := b.start + (b.size - (request - shift));
    CarveKeepsBoundary(a, i, request, shift, 1);
    forall k | 1 <= k < |c.free| ensures EndsAtBoundary(c.free, c.live, c.slots, c.free[k]) {
      if k != i {
        assert EndsAtBoundary(a.free, a.live, a.slots, a.free[k]);
        CarveKeepsBoundary(a, i, request, shift, a.free[k].start + a.free[k].size);
      }
    }
    forall t | t in c.live ensures EndsAtBoundary(c.free, c.live, c.slots, Block(t, c.live[t])) {
      if t == slot {
        assert EndsAtBoundary(a.free, a.live, a.slots, b);
        CarveKeepsBoundary(a, i, request, shift, b.start + b.size);
      } else {
        assert EndsAtBoundary(a.free, a.live, a.slots, Block(t, a.live[t]));
        CarveKeepsBoundary(a, i, request, shift, t + a.live[t]);
      }
    }
  }

  lemma CarveApart(a: Arena, i: nat, request: nat, shift: nat)
    requires Spaced(a.free) && Apart(a.free, a.live)
    requires 1 <= i < |a.free| && a.free[i].size > request + 1 && shift < request
    ensures var c := Carve(a, i, request, shift); Spaced(c.free) && Apart(c.free, c.live)
  {
    var c := Carve(a, i, request, shift);
    var b := a.free[i];
    var slot := b.start + (b.size - (request - shift));
    forall k, l ensures Before(c.free, k, l) {
      assert Before(a.free, k, l);
    }
    forall k, t | 1 <= k < |c.free| && t in c.live ensures Separate(c.free[k], Block(t, c.live[t])) {
      if t == slot {
        assert Before(a.free, i, k) && Before(a.free, k, i);
      } else {
        assert Separate(a.free[k], Block(t, a.live[t]));
      }
    }
  }

  lemma CarveValid(a: Arena, i: nat, request: nat, shift: nat)
    requires Valid(a)
    requires 1 <= i < |a.free| && a.free[i].size > request + 1 && shift < request
    ensures Valid(Carve(a, i, request, shift))
  {
    forall t | t in a.live ensures t + a.live[t] <= a.free[i].start || a.free[i].start + a.free[i].size <= t {
      assert Separate(a.free[i], Block(t, a.live[t]));
    }
    CarveApart(a, i, request, shift);
    CarveGapless(a, i, request, shift);
  }

  // ---------------------------------------------------------------- handing out a whole block

  lemma UnlinkKeepsBoundary(a: Arena, i: nat, slot: nat)
    requires 1 <= i < |a.free| && Boundary(a.free, a.live, a.slots, slot)
    ensures var c := Unlink(a, i); Boundary(c.free, c.live, c.slots, slot)
  {
    var c := Unlink(a, i);
    if FreeAt(a.free, slot) {
      var k :| 1 <= k < |a.free| && a.free[k].start == slot;
      if k < i {
        assert c.free[k].start == slot;
      } else if k > i {
        assert c.free[k - 1].start == slot;
      }
    }
  }

  lemma UnlinkGapless(a: Arena, i: nat)
    requires Gapless(a.free, a.live, a.slots) && 1 <= i < |a.free|
    requires a.free[i].start !in a.live
    ensures var c := Unlink(a, i); Gapless(c.free, c.live, c.slots)
  {
    var c := Unlink(a, i);
    UnlinkKeepsBoundary(a, i, 1);
    forall k | 1 <= k < |c.free| ensures EndsAtBoundary(c.free, c.live, c.slots, c.free[k]) {
      var k' := if k < i then k else k + 1;
      assert EndsAtBoundary(a.free, a.live, a.slots, a.free[k']);
      UnlinkKeepsBoundary(a, i, a.free[k'].start + a.free[k'].size);
    }
    forall t | t in c.live ensures EndsAtBoundary(c.free, c.live, c.slots, Block(t, c.live[t])) {
      var b := if t == a.free[i].start then a.free[i] else Block(t, a.live[t]);
      if t == a.free[i].start {
        assert EndsAtBoundary(a.free, a.live, a.slots, a.free[i]);
      } else {
        assert EndsAtBoundary(a.free, a.live, a.slots, Block(t, a.live[t]));
      }
      UnlinkKeepsBoundary(a, i, b.start + b.size);
    }
  }

  lemma UnlinkApart(a: Arena, i: nat)
    requires Spaced(a.free) && Apart(a.free, a.live) && 1 <= i < |a.free|
    ensures var c := Unlink(a, i); Spaced(c.free) && Apart(c.free, c.live)
  {
    var c := Unlink(a, i);
    forall k, l ensures Before(c.free, k, l) {
      var k', l' := if k < i then k else k + 1, if l < i then l else l + 1;
      assert Before(a.free, k', l');
    }
    forall k, t | 1 <= k < |c.free| && t in c.live ensures Separate(c.free[k], Block(t, c.live[t])) {
      var k' := if k < i then k else k + 1;
      if t == a.free[i].start {
        assert Before(a.free, i, k') && Before(a.free, k', i);
      } else {
        assert Separate(a.free[k'], Block(t, a.live[t]));
      }
    }
  }

  lemma UnlinkValid(a: Arena, i: nat)
    requires Valid(a) && 1 <= i < |a.free|
    ensures Valid(Unlink(a, i))
  {
    forall t | t in a.live ensures t + a.live[t] <= a.free[i].start || a.free[i].start + a.free[i].size <= t {
      assert Separate(a.free[i], Block(t, a.live[t]));
    }
    assert Before(a.free, 0, i);
    UnlinkApart(a, i);
    UnlinkGapless(a, i);
  }

  // ---------------------------------------------------------------- giving a block back

  /** A block lying between places g and g + 1 of the free list. */
  ghost predicate Between(free: seq<Block>, g: nat, b: Block) {
    && g < |free| && b.size >= 1 && b.start >= 1
    && free[g].start + free[g].size <= b.start
    && (g + 1 < |free| ==> b.start + b.size <= free[g + 1].start)
  }

  /** Every live block lies in the gap that the release path looks for. */
  lemma LiveBetween(a: Arena, t: nat)
    requires Spaced(a.free) && Inside(a.free, a.live, a.slots) && Apart(a.free, a.live) && t in a.live
    ensures Between(a.free, Gap(a.free, t), Block(t, a.live[t]))
  {
    SeparateBetween(a.free, a.live, Gap(a.free, t), t);
  }

  lemma SeparateBetween(free: seq<Block>, live: map<nat, nat>, g: nat, t: nat)
    requires |free| >= 1 && free[0] == Block(0, 0) && Apart(free, live)
    requires t in live && t >= 1 && live[t] >= 1
    requires g < |free| && free[g].start < t && (g + 1 < |free| ==> t <= free[g + 1].start)
    requires g + 1 < |free| ==> free[g + 1].size >= 1
    ensures Between(free, g, Block(t, live[t]))
  {
    var b := Block(t, live[t]);
    if g >= 1 {
      assert Separate(free[g], b);
    }
    if g + 1 < |free| {
      assert Separate(free[g + 1], b);
    }
  }

  lemma MergeSpaced(free: seq<Block>, g: nat, b: Block)
    requires Spaced(free) && Between(free, g, b)
    ensures Spaced(Merge(free, g, b))
  {
    var free' := Merge(free, g, b);
    forall k, l ensures Before(free', k, l) {
      MergeBefore(free, g, b, k, l);
    }
  }

  lemma MergeBefore(free: seq<Block>, g: nat, b: Block, k: int, l: int)
    requires Spaced(free) && Between(free, g, b)
    ensures Before(Merge(free, g, b), k, l)
  {
    var free' := Merge(free, g, b);
    assert Before(free, k, l) && Before(free, k, g) && Before(free, g, l) && Before(free, g, g + 1);
    assert Before(free, k, g + 1) && Before(free, g + 1, l);
    if |free'| == |free| + 1 {
      assert Before(free, k - 1, l - 1) && Before(free, k, l - 1) && Before(free, g, l - 1) && Before(free, g + 1, l - 1);
    } else if |free'| == |free| - 1 {
      assert Before(free, k + 1, l + 1) && Before(free, k, l + 1) && Before(free, g + 1, l + 1);
    }
  }

  /** Place i of the old free list survives the release of b into gap g unchanged. */
  ghost predicate Untouched(free: seq<Block>, g: nat, b: Block, i: nat) {
    && 1 <= i < |free|
    && (g < |free| && free[g].start + free[g].size == b.start ==> i != g)
    && (g + 1 < |free| && b.start + b.size == free[g + 1].start ==> i != g + 1)
  }

  /** Each place of the merged list is an old free block, or consists of the released block and
    * the free blocks touching it.
    */
  lemma MergePlace(free: seq<Block>, g: nat, b: Block, k: nat)
    requires Spaced(free) && Between(free, g, b) && 1 <= k < |Merge(free, g, b)|
    ensures var c := Merge(free, g, b)[k];
            || (exists i: nat :: Untouched(free, g, b, i) && free[i] == c)
            || (&& c.start == (if free[g].start + free[g].size == b.start then free[g].start else b.start)
                && c.start + c.size == (if g + 1 < |free| && b.start + b.size == free[g + 1].start then free[g + 1].start + free[g + 1].size else b.start + b.size)
                && (free[g].start + free[g].size == b.start ==> g >= 1))
  {
    var free' := Merge(free, g, b);
    var i := if |free'| == |free| + 1 then (if k <= g then k else k - 1)
             else if |free'| == |free| - 1 then (if k < g then k else k + 1)
             else k;
    if 1 <= i < |free| && Untouched(free, g, b, i) && free[i] == free'[k] {
    }
  }

  lemma MergeApart(a: Arena, g: nat, t: nat)
    requires Spaced(a.free) && Inside(a.free, a.live, a.slots) && LiveDisjoint(a.live) && Apart(a.free, a.live)
    requires t in a.live && Between(a.free, g, Block(t, a.live[t]))
    ensures var free := Merge(a.free, g, Block(t, a.live[t]));
            Inside(free, a.live - {t}, a.slots) && Apart(free, a.live - {t})
  {
    var b := Block(t, a.live[t]);
    var free := Merge(a.free, g, b);
    forall k | 1 <= k < |free| ensures free[k].start + free[k].size <= a.slots + 1 {
      MergePlace(a.free, g, b, k);
    }
    forall k, u | 1 <= k < |free| && u in a.live - {t} ensures Separate(free[k], Block(u, a.live[u])) {
      MergePlace(a.free, g, b, k);
      var c := Block(u, a.live[u]);
      if i: nat :| Untouched(a.free, g, b, i) && a.free[i] == free[k] {
        assert Separate(a.free[i], c);
      } else {
        assert Separate(b, c);
        assert g >= 1 ==> Separate(a.free[g], c);
        assert g + 1 < |a.free| ==> Separate(a.free[g + 1], c);
      }
    }
  }

  lemma MergeKeepsBoundary(a: Arena, g: nat, t: nat, slot: nat)
    requires Spaced(a.free) && t in a.live && Between(a.free, g, Block(t, a.live[t]))
    requires Boundary(a.free, a.live, a.slots, slot)
    requires a.free[g].start + a.free[g].size == t ==> slot != t
    requires g + 1 < |a.free| && t + a.live[t] == a.free[g + 1].start ==> slot != a.free[g + 1].start
    ensures var free := Merge(a.free, g, Block(t, a.live[t]));
            Boundary(free, a.live - {t}, a.slots, slot)
  {
    var b := Block(t, a.live[t]);
    var free := Merge(a.free, g, b);
    if slot == t {
      assert free[g + 1].start == t;
    } else if FreeAt(a.free, slot) {
      var i :| 1 <= i < |a.free| && a.free[i].start == slot;
      var k := if |free| == |a.free| + 1 && i > g then i + 1
               else if |free| == |a.free| - 1 && i > g then i - 1
               else i;
      assert free[k].start == slot;
    }
  }

  /** Where a block of the merged list ends, a block of the new heap begins. */
  lemma MergeEndsAtBoundary(a: Arena, g: nat, t: nat, k: nat)
    requires Spaced(a.free) && Inside(a.free, a.live, a.slots) && Apart(a.free, a.live)
    requires Gapless(a.free, a.live, a.slots)
    requires t in a.live && Between(a.free, g, Block(t, a.live[t]))
    requires 1 <= k < |Merge(a.free, g, Block(t, a.live[t]))|
    ensures var free := Merge(a.free, g, Block(t, a.live[t]));
            Boundary(free, a.live - {t}, a.slots, free[k].start + free[k].size)
  {
    var b := Block(t, a.live[t]);
    var c := Merge(a.free, g, b)[k];
    MergePlace(a.free, g, b, k);
    if i: nat :| Untouched(a.free, g, b, i) && a.free[i] == c {
      assert EndsAtBoundary(a.free, a.live, a.slots, a.free[i]);
      assert Separate(a.free[i], b) && Before(a.free, i, g) && Before(a.free, i, g + 1) && Before(a.free, g + 1, i);
    } else {
      var back := g + 1 < |a.free| && b.start + b.size == a.free[g + 1].start;
      assert EndsAtBoundary(a.free, a.live, a.slots, b);
      assert back ==> EndsAtBoundary(a.free, a.live, a.slots, a.free[g + 1]);
    }
    MergeKeepsBoundary(a, g, t, c.start + c.size);
  }

  lemma MergeGapless(a: Arena, g: nat, t: nat)
    requires Spaced(a.free) && Inside(a.free, a.live, a.slots) && LiveDisjoint(a.live) && Apart(a.free, a.live)
    requires Gapless(a.free, a.live, a.slots)
    requires t in a.live && Between(a.free, g, Block(t, a.live[t]))
    ensures var free := Merge(a.free, g, Block(t, a.live[t]));
            Gapless(free, a.live - {t}, a.slots)
  {
    var b := Block(t, a.live[t]);
    var free := Merge(a.free, g, b);
    var live := a.live - {t};
    assert Before(a.free, 0, g) && Before(a.free, g, g + 1);
    MergeKeepsBoundary(a, g, t, 1);
    forall k | 1 <= k < |free| ensures EndsAtBoundary(free, live, a.slots, free[k]) {
      MergeEndsAtBoundary(a, g, t, k);
    }
    forall u | u in live ensures EndsAtBoundary(free, live, a.slots, Block(u, live[u])) {
      assert EndsAtBoundary(a.free, a.live, a.slots, Block(u, a.live[u]));
      assert g >= 1 ==> Separate(a.free[g], Block(u, a.live[u]));
      MergeKeepsBoundary(a, g, t, u + a.live[u]);
    }
  }

  /** Releasing any live block keeps the heap well-formed. */
  lemma DeallocateValid(a: Arena, t: nat)
    requires Valid(a) && t in a.live
    ensures Valid(Deallocate(a, t).0)
  {
    var g, b := Gap(a.free, t), Block(t, a.live[t]);
    LiveBetween(a, t);
    MergeSpaced(a.free, g, b);
    MergeApart(a, g, t);
    MergeGapless(a, g, t);
  }

  /** Serving a request keeps the heap well-formed, unless the chosen block is a misfit. */
  lemma AllocateValid(a: Arena, bytes: nat, alignment: nat, top: nat)
    requires Valid(a)
    ensures !Misfit(a, bytes, alignment, top) ==> Valid(Allocate(a, bytes, alignment, top).0)
  {
    var request := RequestSlots(bytes, alignment);
    var found := Find(a, request, 0);
    if found.Found? && !Misfit(a, bytes, alignment, top) && !Overruns(a, bytes, alignment, top) {
      FoundPastBase(a, request);
      if a.free[found.at].size > request + 1 {
        CarveValid(a, found.at, request, ShiftAt(a, found.at, request, RealAlignment(alignment), top));
      } else {
        UnlinkValid(a, found.at);
      }
    }
  }
}
