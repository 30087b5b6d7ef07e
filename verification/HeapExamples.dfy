/** Inputs for which the heap does not do what it is meant to, on small regions and wherever a process maps
  * them.
  */
module HeapExamples {
  import opened Basics
  import opened HeapLayout
  import opened HeapModel
  import opened HeapInvariant
  import opened HeapTheorems
  import opened HeapCalls
  import opened HeapRuns

  /** A region of three slots, as the constructor leaves it. */
  const SMALL: Arena := Initial(3)

  lemma SmallRegion()
    ensures Valid(SMALL) && SMALL.ring
  {
    InitialValid(3);
  }

  /** One free block of three slots behind the base: the search takes it for two and for three slots, and
    * cuts it for one.
    */
  lemma SmallSearch(request: nat)
    requires 1 <= request <= 3
    ensures Find(SMALL, request, 0) == Found(1)
  {
    assert Find(SMALL, request, 1) == Found(1);
  }

  /** The body of an odd slot lies one header off an alignment of two. */
  lemma OddSlotShifts(k: nat, top: nat)
    requires top % (2 * HEADER) == 0
    ensures HeaderShift(2 * k + 1, 2 * HEADER, top) == 1
  {
    var body, unit := BodyAddress(2 * k + 1, top), 2 * HEADER;
    Divide(top, unit);
    var m := top / unit + k;
    assert body == m * unit + HEADER;
    QuotientUnique(body + unit - 1, unit, m + 1, HEADER - 1);
    assert RoundUp(body, unit) == body + HEADER;
    RoundUpLeast(body + HEADER, HEADER);
  }

  /** A request for one header's worth of bytes takes the only free block whole; every request after it
    * follows a null link.
    */
  lemma EmptyingExample(top: nat, bytes: nat, alignment: nat, top': nat)
    requires top % HEADER == 0
    ensures Valid(SMALL)
    ensures var (a, served) := Allocate(SMALL, HEADER, HEADER, top);
            && served == Granted(1) && a.free == [Block(0, 0)] && a.live == map[1 := 3]
            && Valid(a) && Allocate(a, bytes, alignment, top').1 == NullDereference
  {
    SmallRegion();
    assert RequestSlots(HEADER, HEADER) == 2;
    SmallSearch(2);
    HeaderShiftBound(1, HEADER, top);
    assert ShiftAt(SMALL, 1, 2, HEADER, top) == 0;
    var a := Unlink(SMALL, 1);
    assert Allocate(SMALL, HEADER, HEADER, top) == (a, Granted(1));
    assert a.free == [Block(0, 0)];
    UnlinkValid(SMALL, 1);
    EmptiedHeapFaults(a, bytes, alignment, top');
  }

  /** A request for one header's worth of bytes aligned to two headers: afterwards some slot has no owner or
    * two.
    */
  lemma MisfitExample(top: nat)
    requires top % (2 * HEADER) == 0
    ensures Valid(SMALL) && Misfit(SMALL, HEADER, 2 * HEADER, top)
    ensures Allocate(SMALL, HEADER, 2 * HEADER, top).1.Granted? && !Tiles(Allocate(SMALL, HEADER, 2 * HEADER, top).0)
  {
    SmallRegion();
    assert RequestSlots(HEADER, 2 * HEADER) == 3;
    SmallSearch(3);
    OddSlotShifts(0, top);
    AllocateTilesIff(SMALL, HEADER, 2 * HEADER, top);
  }

  /** A request for the largest size_t: the size wraps around, and a block of one slot is handed out, whose
    * body has no bytes at all.
    */
  lemma WrapExample(top: nat)
    requires top % HEADER == 0
    ensures Valid(SMALL)
    ensures var (a, served) := Allocate(SMALL, WORD - 1, 1, top);
            served == Granted(3) && a.live == map[3 := 1]
  {
    SmallRegion();
    assert RequestSlots(WORD - 1, 1) == 1;
    SmallSearch(1);
    assert HeaderShift(3, 1, top) == 0;
  }

  lemma WrappedRequest()
    ensures RequestSlots(WORD - HEADER, 2 * HEADER) == 1
  {
  }

  /** A wrapping size with an alignment of two headers: the header would have to move by the whole request. */
  lemma OverrunExample(top: nat)
    requires top % (2 * HEADER) == 0
    ensures Valid(SMALL) && SizeT(WORD - HEADER, 2 * HEADER) && OnGrid(2 * HEADER)
    ensures Allocate(SMALL, WORD - HEADER, 2 * HEADER, top).1 == Overrun
  {
    SmallRegion();
    WrappedRequest();
    SmallSearch(1);
    OddSlotShifts(1, top);
  }

  // ---------------------------------------------------------------- a release that fails

  /** The heap after each call of the example: one free block of six slots taken whole, given back to a
    * chain, cut for 32 bytes and for none, the larger piece given back, and cut again behind a live block.
    */
  const TAKEN: Arena := Arena(6, [Block(0, 0)], map[1 := 6], 0, false)
  const GIVEN: Arena := Arena(6, [Block(0, 0), Block(1, 6)], map[], 0, false)
  const CUT: Arena := Arena(6, [Block(0, 0), Block(1, 3)], map[4 := 3], 1, false)
  const CUT_TWICE: Arena := Arena(6, [Block(0, 0), Block(1, 2)], map[4 := 3, 3 := 1], 1, false)
  const SPLIT: Arena := Arena(6, [Block(0, 0), Block(1, 2), Block(4, 3)], map[3 := 1], 1, false)
  const PASSED: Arena := Arena(6, [Block(0, 0), Block(1, 2), Block(4, 2)], map[3 := 1, 6 := 1], 2, false)

  function Body(slot: nat, top: nat): nat {
    BodyAddress(slot, top)
  }

  function FirstCalls(top: nat): seq<Call> {
    [Take(64, 1, top), Give(Body(1, top), top), Take(32, 1, top)]
  }

  function LastCalls(top: nat): seq<Call> {
    [Take(0, 1, top), Give(Body(4, top), top), Take(0, 1, top)]
  }

  /** The calls that lead there. */
  function Calls(top: nat): seq<Call> {
    FirstCalls(top) + LastCalls(top)
  }

  /** A request without alignment served from free block i. */
  lemma TakeStep(a: Arena, bytes: nat, top: nat, i: nat, a': Arena)
    requires Valid(a) && bytes < WORD && top % HEADER == 0
    requires Find(a, RequestSlots(bytes, 1), 0) == Found(i) && 1 <= i < |a.free|
    requires a' == Serve(a, i, RequestSlots(bytes, 1), 0).0
    ensures Legal(a, Take(bytes, 1, top)) && After(a, Take(bytes, 1, top)) == a'
    ensures Valid(a') && !Faults(a, Take(bytes, 1, top))
  {
    var request := RequestSlots(bytes, 1);
    var start := if a.free[i].size > request + 1 then a.free[i].start + (a.free[i].size - request) else a.free[i].start;
    HeaderShiftBound(start, 1, top);
    assert ShiftAt(a, i, request, 1, top) == 0;
    AllocateValid(a, bytes, 1, top);
  }

  /** A release of the block at slot t into the gap behind place g. */
  lemma GiveStep(a: Arena, t: nat, top: nat, g: nat, a': Arena)
    requires Valid(a) && t in a.live && top % HEADER == 0 && a.rover <= g < |a.free|
    requires a.free[g].start < t && (g + 1 < |a.free| ==> t < a.free[g + 1].start)
    requires a' == a.(free := Merge(a.free, g, Block(t, a.live[t])), live := a.live - {t}, rover := g)
    ensures Legal(a, Give(Body(t, top), top)) && After(a, Give(Body(t, top), top)) == a'
    ensures Valid(a') && !Faults(a, Give(Body(t, top), top))
  {
    HeaderRecovered(t, top);
    GapUnique(a.free, t, g);
    DeallocateValid(a, t);
  }

  /** A run from `a` does what the run `rest` does from `b`. */
  ghost predicate LeadsTo(a: Arena, calls: seq<Call>, b: Arena, rest: seq<Call>)
    requires Valid(a) && Valid(b)
  {
    LegalRun(b, rest) ==>
      LegalRun(a, calls) && Outcome(a, calls) == Outcome(b, rest) && (NeverFaults(a, calls) ==> NeverFaults(b, rest))
  }

  lemma StepOfRun(a: Arena, call: Call, b: Arena, rest: seq<Call>)
    requires Valid(a) && Legal(a, call) && After(a, call) == b && Valid(b)
    ensures LeadsTo(a, [call] + rest, b, rest)
  {
    assert ([call] + rest)[1..] == rest;
  }

  lemma LeadsOn(a: Arena, x: seq<Call>, b: Arena, y: seq<Call>, c: Arena, z: seq<Call>)
    requires Valid(a) && Valid(b) && Valid(c) && LeadsTo(a, x, b, y) && LeadsTo(b, y, c, z)
    ensures LeadsTo(a, x, c, z)
  {
  }

  lemma TwoSteps(a: Arena, c: Call, b: Arena, d: Call, e: Arena, rest: seq<Call>)
    requires Valid(a) && Valid(b) && Valid(e)
    requires Legal(a, c) && After(a, c) == b && Legal(b, d) && After(b, d) == e
    ensures LeadsTo(a, [c] + ([d] + rest), e, rest)
  {
    StepOfRun(a, c, b, [d] + rest);
    StepOfRun(b, d, e, rest);
    LeadsOn(a, [c] + ([d] + rest), b, [d] + rest, e, rest);
  }

  lemma ThreeSteps(a: Arena, c: Call, b: Arena, d: Call, e: Arena, f: Call, g: Arena, rest: seq<Call>)
    requires Valid(a) && Valid(b) && Valid(e) && Valid(g)
    requires Legal(a, c) && After(a, c) == b && Legal(b, d) && After(b, d) == e && Legal(e, f) && After(e, f) == g
    ensures LeadsTo(a, [c] + ([d] + ([f] + rest)), g, rest)
  {
    var rest' := [d] + ([f] + rest);
    StepOfRun(a, c, b, rest');
    TwoSteps(b, d, e, f, g, rest);
    LeadsOn(a, [c] + rest', b, rest', g, rest);
  }

  lemma InOrder(c: Call, d: Call, f: Call, rest: seq<Call>)
    ensures [c, d, f] + rest == [c] + ([d] + ([f] + rest))
  {
  }

  lemma TakeAll(top: nat)
    requires top % HEADER == 0
    ensures Valid(Initial(6)) && Valid(TAKEN)
    ensures Legal(Initial(6), Take(64, 1, top)) && After(Initial(6), Take(64, 1, top)) == TAKEN
  {
    InitialValid(6);
    assert RequestSlots(64, 1) == 5 && Find(Initial(6), 5, 1) == Found(1);
    assert Unlink(Initial(6), 1).free == [Block(0, 0)];
    TakeStep(Initial(6), 64, top, 1, TAKEN);
  }

  lemma GiveAll(top: nat)
    requires top % HEADER == 0 && Valid(TAKEN)
    ensures Valid(GIVEN) && Legal(TAKEN, Give(Body(1, top), top)) && After(TAKEN, Give(Body(1, top), top)) == GIVEN
  {
    assert Merge(TAKEN.free, 0, Block(1, 6)) == GIVEN.free && TAKEN.live - {1} == map[];
    GiveStep(TAKEN, 1, top, 0, GIVEN);
  }

  lemma CutThree(top: nat)
    requires top % HEADER == 0 && Valid(GIVEN)
    ensures Valid(CUT) && Legal(GIVEN, Take(32, 1, top)) && After(GIVEN, Take(32, 1, top)) == CUT
  {
    assert RequestSlots(32, 1) == 3 && Find(GIVEN, 3, 1) == Found(1);
    assert Carve(GIVEN, 1, 3, 0).free == CUT.free;
    TakeStep(GIVEN, 32, top, 1, CUT);
  }

  lemma CutOne(top: nat)
    requires top % HEADER == 0 && Valid(CUT)
    ensures Valid(CUT_TWICE) && Legal(CUT, Take(0, 1, top)) && After(CUT, Take(0, 1, top)) == CUT_TWICE
  {
    assert RequestSlots(0, 1) == 1 && Find(CUT, 1, 0) == Found(1);
    assert Carve(CUT, 1, 1, 0).free == CUT_TWICE.free;
    TakeStep(CUT, 0, top, 1, CUT_TWICE);
  }

  lemma GiveThree(top: nat)
    requires top % HEADER == 0 && Valid(CUT_TWICE)
    ensures Valid(SPLIT) && Legal(CUT_TWICE, Give(Body(4, top), top)) && After(CUT_TWICE, Give(Body(4, top), top)) == SPLIT
  {
    assert Merge(CUT_TWICE.free, 1, Block(4, 3)) == SPLIT.free && CUT_TWICE.live - {4} == map[3 := 1];
    GiveStep(CUT_TWICE, 4, top, 1, SPLIT);
  }

  lemma CutBehind(top: nat)
    requires top % HEADER == 0 && Valid(SPLIT)
    ensures Valid(PASSED) && Legal(SPLIT, Take(0, 1, top)) && After(SPLIT, Take(0, 1, top)) == PASSED
  {
    assert RequestSlots(0, 1) == 1 && Find(SPLIT, 1, 1) == Found(2);
    assert Carve(SPLIT, 2, 1, 0).free == PASSED.free;
    TakeStep(SPLIT, 0, top, 2, PASSED);
  }

  /** The chain's walk starts behind the gap of slot 3. */
  lemma LastReleaseFails(top: nat)
    requires top % HEADER == 0 && Valid(PASSED)
    ensures Legal(PASSED, Give(Body(3, top), top)) && Faults(PASSED, Give(Body(3, top), top))
  {
    HeaderRecovered(3, top);
    GapUnique(PASSED.free, 3, 1);
    RingAfterDeallocate(PASSED, 3);
  }

  lemma FirstSteps(top: nat, rest: seq<Call>)
    requires top % HEADER == 0
    ensures Valid(Initial(6)) && Valid(CUT) && LeadsTo(Initial(6), FirstCalls(top) + rest, CUT, rest)
  {
    TakeAll(top);
    GiveAll(top);
    CutThree(top);
    InOrder(Take(64, 1, top), Give(Body(1, top), top), Take(32, 1, top), rest);
    ThreeSteps(Initial(6), Take(64, 1, top), TAKEN, Give(Body(1, top), top), GIVEN, Take(32, 1, top), CUT, rest);
  }

  lemma LastSteps(top: nat, rest: seq<Call>)
    requires top % HEADER == 0 && Valid(CUT)
    ensures Valid(PASSED) && LeadsTo(CUT, LastCalls(top) + rest, PASSED, rest)
  {
    CutOne(top);
    GiveThree(top);
    CutBehind(top);
    InOrder(Take(0, 1, top), Give(Body(4, top), top), Take(0, 1, top), rest);
    ThreeSteps(CUT, Take(0, 1, top), CUT_TWICE, Give(Body(4, top), top), SPLIT, Take(0, 1, top), PASSED, rest);
  }

  lemma StepsInRow(top: nat, rest: seq<Call>)
    requires top % HEADER == 0
    ensures Valid(Initial(6)) && Valid(PASSED) && LeadsTo(Initial(6), Calls(top) + rest, PASSED, rest)
  {
    FirstSteps(top, LastCalls(top) + rest);
    LastSteps(top, rest);
    assert Calls(top) + rest == FirstCalls(top) + (LastCalls(top) + rest);
  }

  /** Six legal calls on a fresh region of six slots, after which the release of a live pointer follows a null
    * link.
    */
  lemma ReleaseFailsExample(top: nat)
    requires top % HEADER == 0
    ensures Valid(Initial(6)) && LegalRun(Initial(6), Calls(top)) && Outcome(Initial(6), Calls(top)) == PASSED
    ensures Valid(PASSED) && 3 in PASSED.live && Deallocate(PASSED, 3).1 == BrokenChain
    ensures var calls := Calls(top) + [Give(Body(3, top), top)];
            LegalRun(Initial(6), calls) && !NeverFaults(Initial(6), calls)
  {
    StepsInRow(top, []);
    assert Calls(top) + [] == Calls(top);
    LastReleaseFails(top);
    var last := [Give(Body(3, top), top)];
    DeallocateValid(PASSED, 3);
    assert last[1..] == [];
    StepsInRow(top, last);
  }
}
