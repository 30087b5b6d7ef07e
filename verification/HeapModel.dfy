/** Abstract heap: what the linked headers of the shared region stand for, and what one call of
  * `allocate` or `deallocate` does to it.
  */
module HeapModel {
  import opened HeapLayout

  /** A run of slots, the first of which is the header. */
  datatype Block = Block(start: nat, size: nat)

  /** `free` is the free list in link order from `base_blk_` (slot 0, size 0); `live` maps the
    * header slot of each block handed out to its size; `rover` is the place of `op_freep_` in
    * `free`. `ring` says that the last free block links back to `base_blk_`; otherwise its link
    * is null. A self link is stored as null, so a free list of `base_blk_` alone is never a ring.
    */
  datatype Arena = Arena(slots: nat, free: seq<Block>, live: map<nat, nat>, rover: nat, ring: bool)

  datatype Search = Found(at: nat) | Exhausted | NullLink

  /** `Overrun`: the header shift is not below the request, which size_t arithmetic does not notice. */
  datatype Served = Granted(slot: nat) | NoMemory | NullDereference | Overrun

  datatype Release = Released | BrokenChain

  // ---------------------------------------------------------------- well-formedness

  /** Free block i ends before free block j begins, with at least one slot between them. */
  ghost predicate Before(free: seq<Block>, i: int, j: int) {
    0 <= i < j < |free| ==> free[i].start + free[i].size < free[j].start
  }

  /** The free list starts at the base, ascends, and no free block ends where another begins. */
  ghost predicate Spaced(free: seq<Block>) {
    && |free| >= 1 && free[0] == Block(0, 0)
    && (forall i :: 1 <= i < |free| ==> free[i].size >= 1)
    && (forall i, j {:trigger Before(free, i, j)} :: Before(free, i, j))
  }

  ghost predicate Inside(free: seq<Block>, live: map<nat, nat>, slots: nat) {
    && (forall i :: 1 <= i < |free| ==> free[i].start + free[i].size <= slots + 1)
    && (forall t :: t in live ==> 1 <= t && 1 <= live[t] && t + live[t] <= slots + 1)
  }

  ghost predicate LiveDisjoint(live: map<nat, nat>) {
    forall t, u :: t in live && u in live && t < u ==> t + live[t] <= u
  }

  ghost predicate Separate(b: Block, c: Block) {
    b.start + b.size <= c.start || c.start + c.size <= b.start
  }

  ghost predicate Apart(free: seq<Block>, live: map<nat, nat>) {
    forall i, t {:trigger Separate(free[i], Block(t, live[t]))} ::
      1 <= i < |free| && t in live ==> Separate(free[i], Block(t, live[t]))
  }

  ghost predicate FreeAt(free: seq<Block>, slot: nat) {
    exists i :: 1 <= i < |free| && free[i].start == slot
  }

  /** A place where a block starts, or the end of the region. */
  ghost predicate Boundary(free: seq<Block>, live: map<nat, nat>, slots: nat, slot: nat) {
    slot == slots + 1 || slot in live || FreeAt(free, slot)
  }

  ghost predicate EndsAtBoundary(free: seq<Block>, live: map<nat, nat>, slots: nat, b: Block) {
    Boundary(free, live, slots, b.start + b.size)
  }

  /** Every block begins where another ended: no slot is lost between blocks. */
  ghost predicate Gapless(free: seq<Block>, live: map<nat, nat>, slots: nat) {
    && Boundary(free, live, slots, 1)
    && (forall i {:trigger EndsAtBoundary(free, live, slots, free[i])} ::
          1 <= i < |free| ==> EndsAtBoundary(free, live, slots, free[i]))
    && (forall t {:trigger EndsAtBoundary(free, live, slots, Block(t, live[t]))} ::
          t in live ==> EndsAtBoundary(free, live, slots, Block(t, live[t])))
  }

  ghost predicate Valid(a: Arena) {
    && a.slots >= 1
    && Spaced(a.free)
    && Inside(a.free, a.live, a.slots)
    && LiveDisjoint(a.live)
    && Apart(a.free, a.live)
    && Gapless(a.free, a.live, a.slots)
    && a.rover < |a.free|
    && (a.ring ==> |a.free| >= 2)
  }

  function Initial(slots: nat): Arena {
    Arena(slots, [Block(0, 0), Block(1, slots)], map[], 0, true)
  }

  // ---------------------------------------------------------------- allocate

  /** The place in the free list that the search visits in step k. */
  function Visit(a: Arena, k: nat): nat
    requires a.rover < |a.free| && k < |a.free|
  {
    if a.rover + k < |a.free| then a.rover + k else a.rover + k - |a.free|
  }

  /** The block the search started from can only be cut; the others may also be taken whole. */
  predicate Suits(size: nat, request: nat, first: bool) {
    size > request + 1 || (!first && size >= request)
  }

  /** The search from step k on. In a chain the step past its last block follows a null link. */
  function Find(a: Arena, request: nat, k: nat): (found: Search)
    requires a.rover < |a.free| && k <= |a.free|
    ensures found.Found? ==> found.at < |a.free| && a.free[found.at].size >= request
    decreases |a.free| - k
  {
    if !a.ring && a.rover + k >= |a.free| then NullLink
    else if k == |a.free| then Exhausted
    else if Suits(a.free[Visit(a, k)].size, request, k == 0) then Found(Visit(a, k))
    else Find(a, request, k + 1)
  }

  /** Cuts the request off the tail of free block i, its header moved forward by `shift`. */
  function Carve(a: Arena, i: nat, request: nat, shift: nat): Arena
    requires i < |a.free| && a.free[i].size > request + 1 && shift < request
  {
    var b := a.free[i];
    var rest := b.size - (request - shift);
    a.(free := a.free[i := Block(b.start, rest)],
       live := a.live[b.start + rest := request - shift],
       rover := i)
  }

  /** Hands out free block i whole. */
  function Unlink(a: Arena, i: nat): Arena
    requires 1 <= i < |a.free|
  {
    a.(free := a.free[..i] + a.free[i + 1..],
       live := a.live[a.free[i].start := a.free[i].size],
       rover := i - 1,
       ring := a.ring && |a.free| > 2)
  }

  /** Hands out free block i from `shift` slots on and books these slots on its predecessor in the
    * list, wherever that lies.
    */
  function UnlinkShifted(a: Arena, i: nat, request: nat, shift: nat): Arena
    requires 1 <= i < |a.free| && shift < request
  {
    var b, pre := a.free[i], a.free[i - 1];
    a.(free := a.free[..i - 1] + [Block(pre.start, pre.size + shift)] + a.free[i + 1..],
       live := a.live[b.start + shift := request - shift],
       rover := i - 1,
       ring := a.ring && |a.free| > 2)
  }

  /** The header shift the code computes for serving from free block i. */
  function ShiftAt(a: Arena, i: nat, request: nat, alignment: nat, top: nat): nat
    requires i < |a.free| && alignment > 0
  {
    var b := a.free[i];
    if b.size > request + 1 then HeaderShift(b.start + (b.size - request), alignment, top)
    else HeaderShift(b.start, alignment, top)
  }

  /** An exactly fitting block is taken although its body is not aligned as requested. */
  predicate Misfit(a: Arena, bytes: nat, alignment: nat, top: nat)
    requires a.rover < |a.free|
  {
    var request := RequestSlots(bytes, alignment);
    var found := Find(a, request, 0);
    && found.Found?
    && a.free[found.at].size <= request + 1
    && ShiftAt(a, found.at, request, RealAlignment(alignment), top) != 0
  }

  /** The header would have to move by no less than what the request is computed to. */
  predicate Overruns(a: Arena, bytes: nat, alignment: nat, top: nat)
    requires a.rover < |a.free|
  {
    var request := RequestSlots(bytes, alignment);
    var found := Find(a, request, 0);
    found.Found? && ShiftAt(a, found.at, request, RealAlignment(alignment), top) >= request
  }

  /** Only blocks past the base can be found: the base has no slots to give. */
  lemma FoundPastBase(a: Arena, request: nat)
    requires Valid(a) && request >= 1
    ensures Find(a, request, 0).Found? ==> Find(a, request, 0).at >= 1
  {
  }

  /** Serving a request from free block i. */
  function Serve(a: Arena, i: nat, request: nat, shift: nat): (Arena, Served)
    requires 1 <= i < |a.free| && a.free[i].size >= request && shift < request
  {
    var b := a.free[i];
    if b.size > request + 1 then
      (Carve(a, i, request, shift), Granted(b.start + (b.size - (request - shift))))
    else if shift == 0 then
      (Unlink(a, i), Granted(b.start))
    else
      (UnlinkShifted(a, i, request, shift), Granted(b.start + shift))
  }

  /** A call of allocate in the process that sees slot 1 at `top`. What the stores after an overrun reach
    * lies outside the block that was searched; the heap is given as it was before them.
    */
  ghost function Allocate(a: Arena, bytes: nat, alignment: nat, top: nat): (Arena, Served)
    requires Valid(a)
  {
    var request := RequestSlots(bytes, alignment);
    match Find(a, request, 0)
    case NullLink => (a, NullDereference)
    case Exhausted => (a, NoMemory)
    case Found(i) =>
      FoundPastBase(a, request);
      var shift := ShiftAt(a, i, request, RealAlignment(alignment), top);
      if shift < request then Serve(a, i, request, shift) else (a, Overrun)
  }

  // ---------------------------------------------------------------- deallocate

  /** Place g is the last one of the free list that lies before slot t. */
  ghost predicate IsGap(free: seq<Block>, t: nat, g: nat) {
    g < |free| && free[g].start < t && (g + 1 < |free| ==> t <= free[g + 1].start)
  }

  lemma {:induction false} GapExists(free: seq<Block>, t: nat, from: nat)
    requires from < |free| && free[from].start < t
    ensures exists g: nat :: IsGap(free, t, g)
    decreases |free| - from
  {
    if from + 1 < |free| && free[from + 1].start < t {
      GapExists(free, t, from + 1);
    } else {
      assert IsGap(free, t, from);
    }
  }

  /** The place behind which a block at slot t belongs. */
  ghost function Gap(free: seq<Block>, t: nat): (g: nat)
    requires |free| >= 1 && free[0].start < t
    ensures IsGap(free, t, g)
  {
    GapExists(free, t, 0);
    var g: nat :| IsGap(free, t, g);
    g
  }

  /** The free list with block b merged into the gap behind place g. */
  function Merge(free: seq<Block>, g: nat, b: Block): seq<Block>
    requires g < |free|
  {
    var pre := free[g];
    var front := pre.start + pre.size == b.start;
    var back := g + 1 < |free| && b.start + b.size == free[g + 1].start;
    if front && back then
      free[..g] + [Block(pre.start, pre.size + b.size + free[g + 1].size)] + free[g + 2..]
    else if front then
      free[g := Block(pre.start, pre.size + b.size)]
    else if back then
      free[g + 1 := Block(b.start, b.size + free[g + 1].size)]
    else
      free[..g + 1] + [b] + free[g + 1..]
  }

  /** In a chain the walk starts at the rover and cannot come round to a gap before it. */
  ghost function Deallocate(a: Arena, t: nat): (Arena, Release)
    requires Valid(a) && t in a.live
  {
    var g := Gap(a.free, t);
    if !a.ring && g < a.rover then (a, BrokenChain)
    else (a.(free := Merge(a.free, g, Block(t, a.live[t])), live := a.live - {t}, rover := g), Released)
  }
}
