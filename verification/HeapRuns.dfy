/** Whole runs: any sequence of calls, made by processes that map the region at any addresses. */
module HeapRuns {
  import opened HeapLayout
  import opened HeapModel
  import opened HeapInvariant
  import opened HeapTheorems
  import opened HeapCalls

  // ---------------------------------------------------------------- slots are conserved

  /** Sizes of the first n places of the free list. */
  ghost function SumTo(free: seq<Block>, n: nat): nat
    requires n <= |free|
  {
    if n == 0 then 0 else SumTo(free, n - 1) + free[n - 1].size
  }

  ghost function FreeTotal(free: seq<Block>): nat {
    SumTo(free, |free|)
  }

  ghost function LiveTotal(live: map<nat, nat>): nat {
    if live == map[] then 0
    else var t :| t in live; live[t] + LiveTotal(live - {t})
  }

  ghost function Total(a: Arena): nat {
    FreeTotal(a.free) + LiveTotal(a.live)
  }

  lemma {:induction false} LiveTotalWithout(live: map<nat, nat>, t: nat)
    requires t in live
    ensures LiveTotal(live) == live[t] + LiveTotal(live - {t})
    decreases |live|
  {
    var u :| u in live && LiveTotal(live) == live[u] + LiveTotal(live - {u});
    if u != t {
      LiveTotalWithout(live - {u}, t);
      LiveTotalWithout(live - {t}, u);
      assert live - {u} - {t} == live - {t} - {u};
    }
  }

  /** Two lists that agree over a stretch have the same sum over that stretch. */
  lemma {:induction false} SumStretch(x: seq<Block>, i: nat, y: seq<Block>, j: nat, n: nat)
    requires i + n <= |x| && j + n <= |y|
    requires forall k {:trigger x[k]} :: i <= k < i + n ==> x[k] == y[k - i + j]
    ensures SumTo(x, i + n) - SumTo(x, i) == SumTo(y, j + n) - SumTo(y, j)
    decreases n
  {
    if n > 0 {
      SumStretch(x, i, y, j, n - 1);
      assert x[i + n - 1] == y[j + n - 1];
    }
  }

  /** A list that differs from another only in that m places at i were replaced by n. */
  lemma ReplacedTotal(x: seq<Block>, y: seq<Block>, i: nat, m: nat, n: nat)
    requires i + m <= |x| && i + n <= |y|
    requires x[..i] == y[..i] && x[i + m..] == y[i + n..]
    ensures FreeTotal(x) - (SumTo(x, i + m) - SumTo(x, i)) == FreeTotal(y) - (SumTo(y, i + n) - SumTo(y, i))
  {
    forall k {:trigger x[k]} | 0 <= k < i ensures x[k] == y[k] {
      assert x[k] == x[..i][k] && y[k] == y[..i][k];
    }
    SumStretch(x, 0, y, 0, i);
    var rest := |x[i + m..]|;
    assert |x| == i + m + rest && |y| == i + n + |y[i + n..]|;
    forall k {:trigger x[k]} | i + m <= k < i + m + rest ensures x[k] == y[k - (i + m) + (i + n)] {
      assert x[k] == x[i + m..][k - (i + m)] && y[k - (i + m) + (i + n)] == y[i + n..][k - (i + m)];
    }
    SumStretch(x, i + m, y, i + n, rest);
  }

  lemma MergeTotal(free: seq<Block>, g: nat, b: Block)
    requires g < |free|
    ensures FreeTotal(Merge(free, g, b)) == FreeTotal(free) + b.size
  {
    var merged := Merge(free, g, b);
    var front := free[g].start + free[g].size == b.start;
    var back := g + 1 < |free| && b.start + b.size == free[g + 1].start;
    var i, m, n := if front then g else g + 1, if front && back then 2 else if front || back then 1 else 0, 1;
    assert merged[..i] == free[..i] && merged[i + n..] == free[i + m..];
    ReplacedTotal(free, merged, i, m, n);
  }

  lemma DeallocateTotal(a: Arena, t: nat)
    requires Valid(a) && t in a.live
    ensures Total(Deallocate(a, t).0) == Total(a)
  {
    var g := Gap(a.free, t);
    MergeTotal(a.free, g, Block(t, a.live[t]));
    LiveTotalWithout(a.live, t);
    if Deallocate(a, t).1 == Released {
      assert Deallocate(a, t).0.free == Merge(a.free, g, Block(t, a.live[t]));
    }
  }

  lemma LiveTotalAdd(live: map<nat, nat>, t: nat, size: nat)
    requires t !in live
    ensures LiveTotal(live[t := size]) == LiveTotal(live) + size
  {
    LiveTotalWithout(live[t := size], t);
    assert live[t := size] - {t} == live;
  }

  lemma UnlinkTotal(a: Arena, i: nat)
    requires 1 <= i < |a.free| && a.free[i].start !in a.live
    ensures Total(Unlink(a, i)) == Total(a)
  {
    var c := Unlink(a, i);
    assert c.free[..i] == a.free[..i] && c.free[i..] == a.free[i + 1..];
    ReplacedTotal(a.free, c.free, i, 1, 0);
    LiveTotalAdd(a.live, a.free[i].start, a.free[i].size);
  }

  lemma CarveTotal(a: Arena, i: nat, request: nat, shift: nat)
    requires i < |a.free| && a.free[i].size > request + 1 && shift < request
    requires a.free[i].start + a.free[i].size - (request - shift) !in a.live
    ensures Total(Carve(a, i, request, shift)) == Total(a)
  {
    var c := Carve(a, i, request, shift);
    ReplacedTotal(a.free, c.free, i, 1, 1);
    LiveTotalAdd(a.live, a.free[i].start + a.free[i].size - (request - shift), request - shift);
  }

  lemma AllocateTotal(a: Arena, bytes: nat, alignment: nat, top: nat)
    requires Valid(a)
    ensures !Misfit(a, bytes, alignment, top) ==> Total(Allocate(a, bytes, alignment, top).0) == Total(a)
  {
    if WellServed(a, bytes, alignment, top) {
      var i, shift := AllocateServes(a, bytes, alignment, top);
      GrantedFresh(a, bytes, alignment, top);
      if a.free[i].size > RequestSlots(bytes, alignment) + 1 {
        CarveTotal(a, i, RequestSlots(bytes, alignment), shift);
      } else {
        UnlinkTotal(a, i);
      }
    }
  }

  // ---------------------------------------------------------------- runs

  /** A call made by a process that sees slot 1 at address `top`. */
  datatype Call =
    | Take(bytes: nat, alignment: nat, top: nat)
    | Give(pointer: nat, top: nat)

  /** What callers owe: a request that meets no misfit and does not overrun, or a pointer to a live block. */
  ghost predicate Legal(a: Arena, call: Call)
    requires a.rover < |a.free|
  {
    call.top % HEADER == 0 &&
    match call
    case Take(bytes, alignment, top) =>
      SizeT(bytes, alignment) && !Misfit(a, bytes, alignment, top) && !Overruns(a, bytes, alignment, top)
    case Give(p, top) => HeaderSlot(p, top) >= 0 && HeaderSlot(p, top) as int in a.live
  }

  ghost function After(a: Arena, call: Call): Arena
    requires Valid(a) && Legal(a, call)
  {
    match call
    case Take(bytes, alignment, top) => Allocate(a, bytes, alignment, top).0
    case Give(p, top) => Deallocate(a, HeaderSlot(p, top)).0
  }

  /** The call followed a null link. */
  ghost predicate Faults(a: Arena, call: Call)
    requires Valid(a) && Legal(a, call)
  {
    match call
    case Take(bytes, alignment, top) => Allocate(a, bytes, alignment, top).1 == NullDereference
    case Give(p, top) => Deallocate(a, HeaderSlot(p, top)).1 == BrokenChain
  }

  /** The call takes the last free block, as can be seen before it. */
  ghost predicate Empties(a: Arena, call: Call)
    requires Valid(a)
  {
    call.Take? && TakesLast(a, call.bytes, call.alignment, call.top)
  }

  lemma AfterValid(a: Arena, call: Call)
    requires Valid(a) && Legal(a, call)
    ensures Valid(After(a, call))
    ensures Total(After(a, call)) == Total(a) && After(a, call).slots == a.slots
  {
    match call
    case Take(bytes, alignment, top) =>
      AllocateValid(a, bytes, alignment, top);
      AllocateTotal(a, bytes, alignment, top);
    case Give(p, top) =>
      DeallocateValid(a, HeaderSlot(p, top));
      DeallocateTotal(a, HeaderSlot(p, top));
  }

  lemma AfterRing(a: Arena, call: Call)
    requires Valid(a) && Legal(a, call)
    ensures a.ring ==> !Faults(a, call)
    ensures After(a, call).ring <==> a.ring && !Empties(a, call)
  {
    match call
    case Take(bytes, alignment, top) =>
      if a.ring {
        RingLostIff(a, bytes, alignment, top);
      }
    case Give(p, top) =>
      RingAfterDeallocate(a, HeaderSlot(p, top));
  }

  /** Every call of the run is legal in the heap the calls before it left. */
  ghost predicate LegalRun(a: Arena, calls: seq<Call>)
    requires Valid(a)
    decreases |calls|
  {
    calls == [] ||
    (Legal(a, calls[0]) && (AfterValid(a, calls[0]); LegalRun(After(a, calls[0]), calls[1..])))
  }

  ghost function Outcome(a: Arena, calls: seq<Call>): (end: Arena)
    requires Valid(a) && LegalRun(a, calls)
    ensures Valid(end) && end.slots == a.slots && Total(end) == Total(a)
    decreases |calls|
  {
    if calls == [] then a
    else
      AfterValid(a, calls[0]);
      Outcome(After(a, calls[0]), calls[1..])
  }

  /** No call of the run takes the last free block. */
  ghost predicate NeverEmptied(a: Arena, calls: seq<Call>)
    requires Valid(a) && LegalRun(a, calls)
    decreases |calls|
  {
    calls == [] ||
    (!Empties(a, calls[0]) && (AfterValid(a, calls[0]); NeverEmptied(After(a, calls[0]), calls[1..])))
  }

  ghost predicate NeverFaults(a: Arena, calls: seq<Call>)
    requires Valid(a) && LegalRun(a, calls)
    decreases |calls|
  {
    calls == [] ||
    (AfterValid(a, calls[0]); !Faults(a, calls[0]) && NeverFaults(After(a, calls[0]), calls[1..]))
  }

  /** After any run from a fresh heap the blocks tile the region, their sizes add up to its size,
    * and if nothing is handed out any more the free list is the initial one again, in whatever
    * order the blocks were released.
    */
  lemma RunTilesAndCoalesces(slots: nat, calls: seq<Call>)
    requires slots >= 1
    ensures Valid(Initial(slots))
    ensures LegalRun(Initial(slots), calls) ==>
              var a := Outcome(Initial(slots), calls);
              && Tiles(a)
              && FreeTotal(a.free) + LiveTotal(a.live) == slots
              && (a.live == map[] ==> a.free == Initial(slots).free)
  {
    InitialValid(slots);
    if LegalRun(Initial(slots), calls) {
      var a := Outcome(Initial(slots), calls);
      ValidTiles(a);
      InitialTotal(slots);
      if a.live == map[] {
        FullCoalescing(a);
      }
    }
  }

  lemma InitialTotal(slots: nat)
    ensures Total(Initial(slots)) == slots
  {
    var free := Initial(slots).free;
    assert SumTo(free, 1) == 0;
  }

  /** A run that starts on a ring ends on a ring exactly when no call takes the last free block, and such a
    * run follows no null link.
    */
  lemma {:induction false} RunStaysRing(a: Arena, calls: seq<Call>)
    requires Valid(a) && LegalRun(a, calls)
    ensures Outcome(a, calls).ring <==> a.ring && NeverEmptied(a, calls)
    ensures a.ring && NeverEmptied(a, calls) ==> NeverFaults(a, calls)
    decreases |calls|
  {
    if calls != [] {
      AfterValid(a, calls[0]);
      AfterRing(a, calls[0]);
      RunStaysRing(After(a, calls[0]), calls[1..]);
    }
  }
}
