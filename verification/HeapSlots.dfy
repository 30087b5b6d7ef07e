/** The heap as it lies in the shared region: header slots with offset links. Which slots each call stores,
  * and that the stores represent what the call does to the abstract heap.
  */
module HeapSlots {
  import opened HeapLayout
  import opened HeapModel
  import opened HeapInvariant

  /** What a null link decodes to; it compares below every block. */
  const NULL: int := -1

  /** A header slot: the distance to the next free block, 0 standing for null, and the size. Slots
    * inside a body hold whatever was last written there.
    */
  datatype Slot = Slot(link: int, size: nat)

  function Target(s: seq<Slot>, b: nat): int
    requires b < |s|
  {
    if s[b].link == 0 then NULL else b + s[b].link
  }

  function Linking(slot: Slot, b: nat, next: int): Slot {
    slot.(link := if next == NULL then 0 else next - b)
  }

  ghost function NextStart(free: seq<Block>, i: nat, ring: bool): int
    requires i < |free|
  {
    if i + 1 < |free| then free[i + 1].start else if ring then 0 else NULL
  }

  ghost predicate LinkedAt(s: seq<Slot>, free: seq<Block>, ring: bool, i: int) {
    0 <= i < |free| ==>
      && free[i].start < |s|
      && s[free[i].start].size == free[i].size
      && Target(s, free[i].start) == NextStart(free, i, ring)
      && (NextStart(free, i, ring) == NULL ==> s[free[i].start].link == 0)
  }

  ghost predicate Linked(s: seq<Slot>, free: seq<Block>, ring: bool) {
    forall i {:trigger LinkedAt(s, free, ring, i)} :: LinkedAt(s, free, ring, i)
  }

  ghost predicate Recorded(s: seq<Slot>, live: map<nat, nat>) {
    forall t :: t in live ==> t < |s| && s[t].size == live[t]
  }

  /** The slots and op_freep_ store the abstract heap. */
  ghost predicate Represents(s: seq<Slot>, freep: int, a: Arena) {
    && |s| == a.slots + 1
    && a.rover < |a.free|
    && freep == a.free[a.rover].start
    && Linked(s, a.free, a.ring)
    && Recorded(s, a.live)
  }

  // ---------------------------------------------------------------- stores that change the heap

  lemma HeadersDiffer(a: Arena, i: nat, slot: nat)
    requires Valid(a) && 1 <= i < |a.free| && a.free[i].start < slot < a.free[i].start + a.free[i].size
    ensures slot !in a.live
    ensures forall k :: 0 <= k < |a.free| ==> a.free[k].start != slot
    ensures a.free[i].start !in a.live
  {
    forall t | t in a.live ensures t != slot && t != a.free[i].start {
      assert Separate(a.free[i], Block(t, a.live[t]));
    }
    forall k | 0 <= k < |a.free| ensures a.free[k].start != slot {
      assert Before(a.free, i, k) && Before(a.free, k, i);
    }
  }

  /** The stores of the tail cut: the trial header, the rest of the block searched, the header handed out. */
  function CarveStores(s: seq<Slot>, cur: nat, request: nat, shift: nat): seq<Slot>
    requires cur < |s| && cur + s[cur].size <= |s| && s[cur].size > request + 1 && shift < request
  {
    var rest := s[cur].size - (request - shift);
    s[cur + (s[cur].size - request) := Slot(0, request)][cur := s[cur].(size := rest)]
      [cur + rest := Slot(0, request - shift)]
  }

  lemma CarveRepresents(s: seq<Slot>, freep: int, a: Arena, i: nat, request: nat, shift: nat)
    requires Valid(a) && Represents(s, freep, a)
    requires 1 <= i < |a.free| && a.free[i].size > request + 1 && shift < request
    ensures var cur := a.free[i].start;
            && cur < |s| && s[cur].size == a.free[i].size && cur + s[cur].size <= |s|
            && Represents(CarveStores(s, cur, request, shift), cur, Carve(a, i, request, shift))
  {
    assert LinkedAt(s, a.free, a.ring, i);
    var b := a.free[i];
    var c := Carve(a, i, request, shift);
    var t := CarveStores(s, b.start, request, shift);
    HeadersDiffer(a, i, b.start + (b.size - request));
    HeadersDiffer(a, i, b.start + (b.size - (request - shift)));
    forall k ensures LinkedAt(t, c.free, c.ring, k) {
      assert LinkedAt(s, a.free, a.ring, k);
      assert Before(a.free, i, k) && Before(a.free, k, i);
    }
  }

  /** A place whose slot was rewritten to lead to `next`. */
  lemma Relinked(t: seq<Slot>, free: seq<Block>, ring: bool, k: nat, was: Slot, next: int)
    requires k < |free| && free[k].start < |t| && t[free[k].start].size == free[k].size
    requires next == NextStart(free, k, ring) != free[k].start
    requires t[free[k].start].link == Linking(was, free[k].start, next).link
    ensures LinkedAt(t, free, ring, k)
  {
  }

  /** A place whose slot and successor are those of another list's place. */
  lemma Kept(s: seq<Slot>, t: seq<Slot>, free: seq<Block>, free': seq<Block>, ring: bool, ring': bool, k: nat, k': nat)
    requires k < |free| && k' < |free'| && LinkedAt(s, free, ring, k)
    requires free[k].start < |s| == |t| && t[free[k].start] == s[free[k].start]
    requires free'[k'] == free[k] && NextStart(free', k', ring') == NextStart(free, k, ring)
    ensures LinkedAt(t, free', ring', k')
  {
  }

  lemma StartsAscend(free: seq<Block>, i: nat, j: nat)
    requires Spaced(free) && i < j < |free|
    ensures free[i].start < free[j].start
  {
    assert Before(free, i, j);
  }

  lemma StartsDiffer(free: seq<Block>, i: nat, j: nat)
    requires Spaced(free) && i < |free| && j < |free| && i != j
    ensures free[i].start != free[j].start
  {
    if i < j {
      StartsAscend(free, i, j);
    } else {
      StartsAscend(free, j, i);
    }
  }

  /** Moving the predecessor's link past free block i relinks the rest; a link that would come to
    * lie on the base itself is null instead.
    */
  lemma BypassLinkedAt(s: seq<Slot>, t: seq<Slot>, free: seq<Block>, ring: bool, i: nat, k: nat)
    requires Spaced(free) && Linked(s, free, ring)
    requires 1 <= i < |free| && k < |free| && k != i
    requires free[k].start < |s| == |t|
    requires k != i - 1 ==> t[free[k].start] == s[free[k].start]
    requires k == i - 1 ==>
               t[free[k].start].link == Linking(s[free[k].start], free[k].start, NextStart(free, i, ring)).link
    ensures k != i - 1 ==> t[free[k].start].size == free[k].size
    ensures k != i - 1 ==> Target(t, free[k].start) == NextStart(free, k, ring)
    ensures k == i - 1 ==>
              Target(t, free[k].start) == (if i == 1 && i + 1 == |free| then NULL else NextStart(free, i, ring))
    ensures Target(t, free[k].start) == NULL ==> t[free[k].start].link == 0
  {
    assert LinkedAt(s, free, ring, k);
    assert Before(free, 0, k) && Before(free, k, k + 1) && Before(free, k, k + 2);
  }

  /** Without place i, what follows a place is what followed it, or what followed place i. */
  lemma NextWithout(free: seq<Block>, ring: bool, i: nat, k: nat)
    requires 1 <= i < |free| && k + 1 < |free| && (ring ==> |free| >= 2)
    ensures var less, ring' := free[..i] + free[i + 1..], ring && |free| > 2;
            && |less| == |free| - 1 && less[k] == free[if k < i then k else k + 1]
            && NextStart(less, k, ring') == if k == i - 1 then (if i == 1 && i + 1 == |free| then NULL else NextStart(free, i, ring))
                                            else if k < i then NextStart(free, k, ring)
                                            else NextStart(free, k + 1, ring)
  {
  }

  lemma UnlinkLinkedAt(s: seq<Slot>, t: seq<Slot>, free: seq<Block>, ring: bool, i: nat, k: nat)
    requires Spaced(free) && Linked(s, free, ring) && (ring ==> |free| >= 2)
    requires 1 <= i < |free| && k + 1 < |free|
    requires var pre, cur := free[i - 1].start, free[i].start;
             && pre < |s| && cur < |s|
             && t == s[pre := Linking(s[pre], pre, NextStart(free, i, ring))][cur := Slot(0, s[cur].size)]
    ensures LinkedAt(t, free[..i] + free[i + 1..], ring && |free| > 2, k)
  {
    var k' := if k < i then k else k + 1;
    assert LinkedAt(s, free, ring, k');
    assert Before(free, k', i) && Before(free, i, k') && Before(free, k', i - 1) && Before(free, i - 1, k');
    assert Before(free, i - 1, i);
    BypassLinkedAt(s, t, free, ring, i, k');
    NextWithout(free, ring, i, k);
  }

  /** The stores of both branches that take a block whole, its predecessor lying at `pre`. */
  function TakeStores(s: seq<Slot>, pre: nat, cur: nat, next: int, request: nat, shift: nat): seq<Slot>
    requires pre < |s| && cur + shift < |s| && shift < request
  {
    if shift == 0 then s[pre := Linking(s[pre], pre, next)][cur := Slot(0, s[cur].size)]
    else s[cur + shift := Slot(0, request - shift)][pre := Linking(s[pre], pre, next).(size := s[pre].size + shift)]
  }

  lemma UnlinkRepresents(s: seq<Slot>, freep: int, a: Arena, i: nat, request: nat)
    requires Valid(a) && Represents(s, freep, a) && 1 <= i < |a.free| && request >= 1
    ensures var pre, cur := a.free[i - 1].start, a.free[i].start;
            && pre < |s| && cur < |s|
            && Represents(TakeStores(s, pre, cur, NextStart(a.free, i, a.ring), request, 0), pre, Unlink(a, i))
  {
    var c := Unlink(a, i);
    assert LinkedAt(s, a.free, a.ring, i) && LinkedAt(s, a.free, a.ring, i - 1);
    var t := TakeStores(s, a.free[i - 1].start, a.free[i].start, NextStart(a.free, i, a.ring), request, 0);
    forall k ensures LinkedAt(t, c.free, c.ring, k) {
      if 0 <= k < |c.free| {
        UnlinkLinkedAt(s, t, a.free, a.ring, i, k);
      }
    }
    assert forall k :: 0 <= k < |s| ==> t[k].size == s[k].size;
    assert Recorded(t, a.live);
  }

  lemma NextWithoutShifted(free: seq<Block>, ring: bool, i: nat, pre: Block, k: nat)
    requires 1 <= i < |free| && k + 1 < |free| && (ring ==> |free| >= 2) && pre.start == free[i - 1].start
    ensures var less, ring' := free[..i - 1] + [pre] + free[i + 1..], ring && |free| > 2;
            && |less| == |free| - 1
            && less[k] == (if k == i - 1 then pre else free[if k < i then k else k + 1])
            && NextStart(less, k, ring') == NextStart(free[..i] + free[i + 1..], k, ring')
  {
  }

  lemma UnlinkShiftedLinkedAt(s: seq<Slot>, t: seq<Slot>, free: seq<Block>, ring: bool, i: nat, shift: nat, k: nat)
    requires Spaced(free) && Linked(s, free, ring) && (ring ==> |free| >= 2)
    requires 1 <= i < |free| && k + 1 < |free| && |s| == |t|
    requires forall j {:trigger t[free[j].start]} :: 0 <= j < |free| && j != i && j != i - 1 ==>
               free[j].start < |s| && t[free[j].start] == s[free[j].start]
    requires var pre := free[i - 1].start;
             pre < |s| && t[pre] == Linking(s[pre], pre, NextStart(free, i, ring)).(size := s[pre].size + shift)
    ensures var pre := Block(free[i - 1].start, free[i - 1].size + shift);
            LinkedAt(t, free[..i - 1] + [pre] + free[i + 1..], ring && |free| > 2, k)
  {
    var k' := if k < i then k else k + 1;
    var pre := Block(free[i - 1].start, free[i - 1].size + shift);
    assert LinkedAt(s, free, ring, k') && k' < |free| && k' != i;
    NextWithout(free, ring, i, k);
    NextWithoutShifted(free, ring, i, pre, k);
    BypassLinkedAt(s, t, free, ring, i, k');
  }

  lemma UnlinkShiftedRepresents(s: seq<Slot>, freep: int, a: Arena, i: nat, request: nat, shift: nat)
    requires Valid(a) && Represents(s, freep, a) && 1 <= i < |a.free|
    requires 1 <= shift < request <= a.free[i].size
    ensures var pre, cur := a.free[i - 1].start, a.free[i].start;
            && pre < |s| && cur + shift < |s|
            && Represents(TakeStores(s, pre, cur, NextStart(a.free, i, a.ring), request, shift), pre,
                          UnlinkShifted(a, i, request, shift))
  {
    var c := UnlinkShifted(a, i, request, shift);
    assert LinkedAt(s, a.free, a.ring, i - 1);
    var t := TakeStores(s, a.free[i - 1].start, a.free[i].start, NextStart(a.free, i, a.ring), request, shift);
    StartsDiffer(a.free, i - 1, i);
    HeadersDiffer(a, i, a.free[i].start + shift);
    forall j {:trigger t[a.free[j].start]} | 0 <= j < |a.free| && j != i && j != i - 1
      ensures a.free[j].start < |s| && t[a.free[j].start] == s[a.free[j].start]
    {
      assert LinkedAt(s, a.free, a.ring, j);
      StartsDiffer(a.free, j, i - 1);
    }
    forall k ensures LinkedAt(t, c.free, c.ring, k) {
      if 0 <= k < |c.free| {
        UnlinkShiftedLinkedAt(s, t, a.free, a.ring, i, shift, k);
      }
    }
    LiveApartFromFree(a, i - 1);
  }

  lemma LiveApartFromFree(a: Arena, i: nat)
    requires Valid(a) && i < |a.free|
    ensures a.free[i].start !in a.live
  {
    forall t | t in a.live ensures t != a.free[i].start {
      assert i >= 1 ==> Separate(a.free[i], Block(t, a.live[t]));
    }
  }

  /** The heap after the release of t into gap g. */
  ghost function Merged(a: Arena, g: nat, t: nat): Arena
    requires g < |a.free| && t in a.live
  {
    a.(free := Merge(a.free, g, Block(t, a.live[t])), live := a.live - {t}, rover := g)
  }

  lemma NextWith(free: seq<Block>, ring: bool, g: nat, b: Block, k: nat)
    requires g < |free| && k <= |free|
    ensures var more := free[..g + 1] + [b] + free[g + 1..];
            && more[k] == (if k == g + 1 then b else free[if k <= g then k else k - 1])
            && NextStart(more, k, ring) == if k == g then b.start
                                           else NextStart(free, if k <= g then k else k - 1, ring)
  {
  }

  lemma InsertLinkedAt(s: seq<Slot>, s': seq<Slot>, free: seq<Block>, ring: bool, g: nat, b: Block, k: nat)
    requires Spaced(free) && Linked(s, free, ring) && Between(free, g, b) && free[g].start + free[g].size < b.start
    requires k <= |free|
    requires var pre, t := free[g].start, b.start;
             && pre < |s| && t < |s| && s[t].size == b.size
             && s' == s[t := Linking(s[t], t, NextStart(free, g, ring))][pre := Linking(s[pre], pre, t)]
    ensures LinkedAt(s', free[..g + 1] + [b] + free[g + 1..], ring, k)
  {
    var more := free[..g + 1] + [b] + free[g + 1..];
    NextWith(free, ring, g, b, k);
    assert LinkedAt(s, free, ring, g);
    if k == g + 1 {
      Relinked(s', more, ring, k, s[b.start], NextStart(free, g, ring));
    } else if k == g {
      Relinked(s', more, ring, k, s[free[g].start], b.start);
    } else {
      var k' := if k <= g then k else k - 1;
      assert LinkedAt(s, free, ring, k');
      StartsDiffer(free, k', g);
      AwayFromGap(free, g, b, k');
      Kept(s, s', free, more, ring, ring, k', k);
    }
  }

  /** A block in the gap behind place g starts where no free block does. */
  lemma AwayFromGap(free: seq<Block>, g: nat, b: Block, k: nat)
    requires Spaced(free) && Between(free, g, b) && k < |free|
    ensures free[k].start != b.start
  {
    if k < g {
      StartsAscend(free, k, g);
    } else if k > g + 1 {
      StartsAscend(free, g + 1, k);
    }
  }

  /** The stores of the release without neighbours. */
  function InsertStores(s: seq<Slot>, pre: nat, t: nat, next: int): seq<Slot>
    requires pre < |s| && t < |s|
  {
    s[t := Linking(s[t], t, next)][pre := Linking(s[pre], pre, t)]
  }

  /** The stores of the merge with the free block before. */
  function FrontStores(s: seq<Slot>, pre: nat, t: nat): seq<Slot>
    requires pre < |s| && t < |s|
  {
    s[pre := s[pre].(size := s[pre].size + s[t].size)]
  }

  /** The stores of the merge with the free block behind, which lies at `next` and leads on to `beyond`. */
  function BackStores(s: seq<Slot>, pre: nat, t: nat, next: nat, beyond: int): seq<Slot>
    requires pre < |s| && t < |s| && next < |s|
  {
    s[t := Linking(s[t], t, beyond).(size := s[t].size + s[next].size)][pre := Linking(s[pre], pre, t)]
  }

  /** The stores of the merge on both sides. */
  function BothStores(s: seq<Slot>, pre: nat, t: nat, next: nat, beyond: int): seq<Slot>
    requires pre < |s| && t < |s| && next < |s|
  {
    s[pre := Linking(s[pre], pre, beyond).(size := s[pre].size + s[t].size + s[next].size)]
  }

  /** What the stored slots say about the neighbourhood of the gap a live block is released into. */
  lemma Neighbours(s: seq<Slot>, freep: int, a: Arena, g: nat, t: nat)
    requires Valid(a) && Represents(s, freep, a) && t in a.live && g == Gap(a.free, t)
    ensures a.free[g].start < t < |s| && s[a.free[g].start].size == a.free[g].size && s[t].size == a.live[t]
    ensures Between(a.free, g, Block(t, a.live[t]))
    ensures g + 1 < |a.free| ==>
              && t < a.free[g + 1].start < |s|
              && s[a.free[g + 1].start].size == a.free[g + 1].size
              && Target(s, a.free[g + 1].start) == NextStart(a.free, g + 1, a.ring)
    ensures g + 1 == |a.free| ==> NextStart(a.free, g, a.ring) < t
  {
    LiveBetween(a, t);
    assert LinkedAt(s, a.free, a.ring, g) && LinkedAt(s, a.free, a.ring, g + 1);
    LiveApartFromFree(a, g);
  }

  lemma InsertRepresents(s: seq<Slot>, freep: int, a: Arena, g: nat, t: nat)
    requires Valid(a) && Represents(s, freep, a) && t in a.live && g == Gap(a.free, t)
    requires a.free[g].start + a.free[g].size != t && NextStart(a.free, g, a.ring) != t + a.live[t]
    ensures a.free[g].start < |s| && t < |s|
    ensures Represents(InsertStores(s, a.free[g].start, t, NextStart(a.free, g, a.ring)), a.free[g].start, Merged(a, g, t))
  {
    var c := Merged(a, g, t);
    Neighbours(s, freep, a, g, t);
    var s' := InsertStores(s, a.free[g].start, t, NextStart(a.free, g, a.ring));
    forall k ensures LinkedAt(s', c.free, c.ring, k) {
      if 0 <= k < |c.free| {
        InsertLinkedAt(s, s', a.free, a.ring, g, Block(t, a.live[t]), k);
      }
    }
    LiveApartFromFree(a, g);
  }

  lemma FrontRepresents(s: seq<Slot>, freep: int, a: Arena, g: nat, t: nat)
    requires Valid(a) && Represents(s, freep, a) && t in a.live && g == Gap(a.free, t)
    requires a.free[g].start + a.free[g].size == t && NextStart(a.free, g, a.ring) != t + a.live[t]
    ensures a.free[g].start < |s| && t < |s|
    ensures Represents(FrontStores(s, a.free[g].start, t), a.free[g].start, Merged(a, g, t))
  {
    var c := Merged(a, g, t);
    Neighbours(s, freep, a, g, t);
    var s' := FrontStores(s, a.free[g].start, t);
    forall k ensures LinkedAt(s', c.free, c.ring, k) {
      assert LinkedAt(s, a.free, a.ring, k);
      assert Before(a.free, k, g) && Before(a.free, g, k);
    }
    LiveApartFromFree(a, g);
  }

  lemma NextReplaced(free: seq<Block>, ring: bool, g: nat, b: Block, k: nat)
    requires g + 1 < |free| && k < |free|
    ensures NextStart(free[g + 1 := b], k, ring) == if k == g then b.start else NextStart(free, k, ring)
  {
  }

  lemma BackLinkedAt(s: seq<Slot>, s': seq<Slot>, free: seq<Block>, ring: bool, g: nat, b: Block, k: nat)
    requires Spaced(free) && Linked(s, free, ring) && Between(free, g, b) && free[g].start + free[g].size < b.start
    requires g + 1 < |free| && b.start + b.size == free[g + 1].start && k < |free|
    requires var pre, t := free[g].start, b.start;
             && pre < |s| && t < |s|
             && s' == s[t := Linking(Slot(0, b.size + free[g + 1].size), t, NextStart(free, g + 1, ring))]
                       [pre := Linking(s[pre], pre, t)]
    ensures LinkedAt(s', free[g + 1 := Block(b.start, b.size + free[g + 1].size)], ring, k)
  {
    var all := Block(b.start, b.size + free[g + 1].size);
    var free' := free[g + 1 := all];
    NextReplaced(free, ring, g, all, k);
    assert LinkedAt(s, free, ring, k) && LinkedAt(s, free, ring, g);
    if k == g + 1 {
      AwayFromGap(free, g, b, if g + 2 < |free| then g + 2 else 0);
      Relinked(s', free', ring, k, Slot(0, all.size), NextStart(free, g + 1, ring));
    } else if k == g {
      Relinked(s', free', ring, k, s[free[g].start], b.start);
    } else {
      StartsDiffer(free, k, g);
      AwayFromGap(free, g, b, k);
      Kept(s, s', free, free', ring, ring, k, k);
    }
  }

  lemma BackRepresents(s: seq<Slot>, freep: int, a: Arena, g: nat, t: nat)
    requires Valid(a) && Represents(s, freep, a) && t in a.live && g == Gap(a.free, t)
    requires g + 1 < |a.free| && a.free[g].start + a.free[g].size != t && a.free[g + 1].start == t + a.live[t]
    ensures a.free[g].start < |s| && t < |s| && a.free[g + 1].start < |s|
    ensures Represents(BackStores(s, a.free[g].start, t, a.free[g + 1].start, NextStart(a.free, g + 1, a.ring)),
                       a.free[g].start, Merged(a, g, t))
  {
    var c := Merged(a, g, t);
    Neighbours(s, freep, a, g, t);
    var s' := BackStores(s, a.free[g].start, t, a.free[g + 1].start, NextStart(a.free, g + 1, a.ring));
    forall k ensures LinkedAt(s', c.free, c.ring, k) {
      if 0 <= k < |c.free| {
        BackLinkedAt(s, s', a.free, a.ring, g, Block(t, a.live[t]), k);
      }
    }
    LiveApartFromFree(a, g);
  }

  lemma BothLinkedAt(s: seq<Slot>, s': seq<Slot>, free: seq<Block>, ring: bool, g: nat, all: Block, k: nat)
    requires Spaced(free) && Linked(s, free, ring) && 1 <= g && g + 1 < |free| && k + 1 < |free|
    requires all.start == free[g].start < |s|
    requires s' == s[all.start := Linking(Slot(0, all.size), all.start, NextStart(free, g + 1, ring))]
    ensures LinkedAt(s', free[..g] + [all] + free[g + 2..], ring, k)
  {
    var joined := free[..g] + [all] + free[g + 2..];
    NextJoined(free, ring, g, all, k);
    if k == g {
      StartsDiffer(free, g, if g + 2 < |free| then g + 2 else 0);
      Relinked(s', joined, ring, k, Slot(0, all.size), NextStart(free, g + 1, ring));
    } else {
      var k' := if k < g then k else k + 1;
      assert LinkedAt(s, free, ring, k');
      StartsDiffer(free, k', g);
      Kept(s, s', free, joined, ring, ring, k', k);
    }
  }

  /** With places g and g + 1 joined, what follows the joined block is what followed place g + 1. */
  lemma NextJoined(free: seq<Block>, ring: bool, g: nat, all: Block, k: nat)
    requires g + 1 < |free| && k + 1 < |free| && all.start == free[g].start
    ensures var joined := free[..g] + [all] + free[g + 2..];
            && |joined| == |free| - 1
            && joined[k] == (if k == g then all else free[if k < g then k else k + 1])
            && NextStart(joined, k, ring) == NextStart(free, if k < g then k else k + 1, ring)
  {
  }

  lemma BothRepresents(s: seq<Slot>, freep: int, a: Arena, g: nat, t: nat)
    requires Valid(a) && Represents(s, freep, a) && t in a.live && g == Gap(a.free, t)
    requires g + 1 < |a.free| && a.free[g].start + a.free[g].size == t && a.free[g + 1].start == t + a.live[t]
    ensures a.free[g].start < |s| && t < |s| && a.free[g + 1].start < |s|
    ensures Represents(BothStores(s, a.free[g].start, t, a.free[g + 1].start, NextStart(a.free, g + 1, a.ring)),
                       a.free[g].start, Merged(a, g, t))
  {
    var c := Merged(a, g, t);
    Neighbours(s, freep, a, g, t);
    var s' := BothStores(s, a.free[g].start, t, a.free[g + 1].start, NextStart(a.free, g + 1, a.ring));
    var all := Block(a.free[g].start, a.free[g].size + a.live[t] + a.free[g + 1].size);
    forall k ensures LinkedAt(s', c.free, c.ring, k) {
      if 0 <= k < |c.free| {
        BothLinkedAt(s, s', a.free, a.ring, g, all, k);
      }
    }
    LiveApartFromFree(a, g);
  }

  // ---------------------------------------------------------------- what whole calls store

  /** The slots after serving from free block i. An overrun is followed up to the trial header. */
  ghost function ServeStores(s: seq<Slot>, freep: int, a: Arena, i: nat, request: nat, shift: nat): (t: seq<Slot>)
    requires Valid(a) && Represents(s, freep, a)
    requires 1 <= i < |a.free| && a.free[i].size >= request && request >= 1
    ensures |t| == |s|
  {
    FoundInPlace(s, freep, a, i);
    var cur, size := a.free[i].start, a.free[i].size;
    if size > request + 1 then
      if shift < request then CarveStores(s, cur, request, shift) else s[cur + (size - request) := Slot(0, request)]
    else
      if shift < request then TakeStores(s, a.free[i - 1].start, cur, NextStart(a.free, i, a.ring), request, shift) else s
  }

  /** The slots after a call of allocate. */
  ghost function AllocateStores(s: seq<Slot>, freep: int, a: Arena, bytes: nat, alignment: nat, top: nat): (t: seq<Slot>)
    requires Valid(a) && Represents(s, freep, a)
    ensures |t| == |s|
  {
    var request := RequestSlots(bytes, alignment);
    var found := Find(a, request, 0);
    if found.Found? then
      FoundPastBase(a, request);
      ServeStores(s, freep, a, found.at, request, ShiftAt(a, found.at, request, RealAlignment(alignment), top))
    else s
  }

  lemma FoundInPlace(s: seq<Slot>, freep: int, a: Arena, i: nat)
    requires Valid(a) && Represents(s, freep, a) && 1 <= i < |a.free|
    ensures a.free[i - 1].start < a.free[i].start < |s| && s[a.free[i].start].size == a.free[i].size
    ensures a.free[i].start + a.free[i].size <= |s|
  {
    assert LinkedAt(s, a.free, a.ring, i);
    StartsAscend(a.free, i - 1, i);
  }

  /** The slots after the release of the block at t. */
  ghost function DeallocateStores(s: seq<Slot>, freep: int, a: Arena, t: nat): seq<Slot>
    requires Valid(a) && Represents(s, freep, a) && t in a.live
  {
    var g := Gap(a.free, t);
    Neighbours(s, freep, a, g, t);
    var pre, next := a.free[g].start, NextStart(a.free, g, a.ring);
    var front, back := pre + a.free[g].size == t, next == t + a.live[t];
    if !a.ring && g < a.rover then s
    else if front && back then BothStores(s, pre, t, next, NextStart(a.free, g + 1, a.ring))
    else if front then FrontStores(s, pre, t)
    else if back then BackStores(s, pre, t, next, NextStart(a.free, g + 1, a.ring))
    else InsertStores(s, pre, t, next)
  }

  /** The stores of a release represent the released heap. */
  lemma DeallocateRepresents(s: seq<Slot>, freep: int, a: Arena, t: nat)
    requires Valid(a) && Represents(s, freep, a) && t in a.live && (a.ring || Gap(a.free, t) >= a.rover)
    ensures var g := Gap(a.free, t);
            Represents(DeallocateStores(s, freep, a, t), a.free[g].start, Merged(a, g, t))
  {
    var g := Gap(a.free, t);
    Neighbours(s, freep, a, g, t);
    var pre, next := a.free[g].start, NextStart(a.free, g, a.ring);
    if pre + a.free[g].size == t {
      if next == t + a.live[t] {
        BothRepresents(s, freep, a, g, t);
      } else {
        FrontRepresents(s, freep, a, g, t);
      }
    } else if next == t + a.live[t] {
      BackRepresents(s, freep, a, g, t);
    } else {
      InsertRepresents(s, freep, a, g, t);
    }
  }
}
