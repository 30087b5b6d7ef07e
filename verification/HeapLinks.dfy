/** The links of the heap in bytes: an offset pointer in a header slot stores the same bytes under
  * every mapping of the region, and stores null exactly when it is to point at its own header.
  */
module HeapLinks {
  import opened HeapLayout
  import opened HeapModel
  import opened HeapInvariant
  import opened HeapCalls
  import opened HeapSlots
  import opened Basics
  import OffsetPtr

  /** Address of a header slot; the base block lies `lead` bytes lower than the slot grid suggests. */
  function SlotAddress(slot: nat, top: nat, lead: nat): int {
    if slot == 0 then top - lead - HEADER else top + (slot - 1) * HEADER
  }

  ghost predicate Mapped(slots: nat, top: nat, lead: nat) {
    lead < HEADER && lead + HEADER < top && top + slots * HEADER < WORD
  }

  /** The bytes stored for a link from slot b to slot next do not depend on the mapping, and read
    * back under any other mapping as the address of the same slot.
    */
  lemma LinkMappingIndependent(b: nat, next: nat, slots: nat, lead: nat, top: nat, top': nat)
    requires b <= slots && next <= slots && b != next
    requires Mapped(slots, top, lead) && Mapped(slots, top', lead)
    ensures OffsetPtr.CalcOffset(SlotAddress(b, top, lead), SlotAddress(next, top, lead))
              == OffsetPtr.CalcOffset(SlotAddress(b, top', lead), SlotAddress(next, top', lead))
    ensures OffsetPtr.CalcAddress(SlotAddress(b, top', lead),
                                  OffsetPtr.CalcOffset(SlotAddress(b, top, lead), SlotAddress(next, top, lead)))
              == SlotAddress(next, top', lead)
  {
    SlotAddressesDiffer(b, next, top, lead);
    OffsetPtr.Relocated(SlotAddress(b, top, lead), SlotAddress(next, top, lead), top' - top);
  }

  lemma SlotAddressesDiffer(b: nat, next: nat, top: nat, lead: nat)
    ensures SlotAddress(b, top, lead) == SlotAddress(next, top, lead) <==> b == next
    ensures b < next ==> SlotAddress(b, top, lead) < SlotAddress(next, top, lead)
  {
  }

  /** A stored link reads as null exactly when the slot-level link does: when it was to be null or
    * was to point at its own header.
    */
  lemma NullLinkAgrees(b: nat, next: int, slot: Slot, slots: nat, top: nat, lead: nat)
    requires b <= slots && -1 <= next <= slots && Mapped(slots, top, lead)
    ensures var stored := OffsetPtr.CalcOffset(
                            SlotAddress(b, top, lead),
                            if next == NULL then OffsetPtr.NULLPTR else SlotAddress(next, top, lead));
            (OffsetPtr.CalcAddress(SlotAddress(b, top, lead), stored) == OffsetPtr.NULLPTR) ==
            (Linking(slot, b, next).link == 0)
  {
    if next >= 0 {
      SlotAddressesDiffer(b, next, top, lead);
      OffsetPtr.StoreLoadIff(SlotAddress(b, top, lead), SlotAddress(next, top, lead));
    }
  }

  // ---------------------------------------------------------------- the whole region

  /** The word stored for the link of slot b. A slot whose link leads out of the region is no header: what
    * it holds is a caller's and is taken as it is.
    */
  function LinkWord(s: seq<Slot>, b: nat, top: nat, lead: nat): OffsetPtr.Address
    requires b < |s| && Mapped(|s| - 1, top, lead)
  {
    var next := b + s[b].link;
    if s[b].link == 0 then OffsetPtr.CalcOffset(SlotAddress(b, top, lead), OffsetPtr.NULLPTR)
    else if 0 <= next < |s| then OffsetPtr.CalcOffset(SlotAddress(b, top, lead), SlotAddress(next, top, lead))
    else s[b].link % WORD
  }

  /** The word stored for op_freep_, which lies in the heap object `ahead` bytes before the base block. */
  function RoverWord(freep: nat, top: nat, lead: nat, ahead: nat): OffsetPtr.Address
    requires ahead >= 1 && freep < WORD && MappedWithObject(freep, top, lead, ahead)
  {
    OffsetPtr.CalcOffset(SlotAddress(0, top, lead) - ahead, SlotAddress(freep, top, lead))
  }

  /** The region with the heap object in front of it has addresses. */
  ghost predicate MappedWithObject(slots: nat, top: nat, lead: nat, ahead: nat) {
    Mapped(slots, top, lead) && lead + HEADER + ahead < top
  }

  /** What a mapping of the region holds: the word of op_freep_, and link word and size of every slot. */
  datatype Stored = Stored(rover: OffsetPtr.Address, slots: seq<(OffsetPtr.Address, nat)>)

  ghost function Image(s: seq<Slot>, freep: nat, top: nat, lead: nat, ahead: nat): Stored
    requires freep < |s| && ahead >= 1 && MappedWithObject(|s| - 1, top, lead, ahead)
  {
    Stored(RoverWord(freep, top, lead, ahead),
           seq(|s|, b requires 0 <= b < |s| => (LinkWord(s, b, top, lead), s[b].size)))
  }

  lemma RoverWordIndependent(freep: nat, top: nat, top': nat, lead: nat, ahead: nat)
    requires ahead >= 1 && MappedWithObject(freep, top, lead, ahead) && MappedWithObject(freep, top', lead, ahead)
    ensures freep < WORD && RoverWord(freep, top, lead, ahead) == RoverWord(freep, top', lead, ahead)
    ensures OffsetPtr.CalcAddress(SlotAddress(0, top', lead) - ahead, RoverWord(freep, top, lead, ahead))
              == SlotAddress(freep, top', lead)
  {
    OffsetPtr.Relocated(SlotAddress(0, top, lead) - ahead, SlotAddress(freep, top, lead), top' - top);
  }

  /** The same slots and the same rover are stored as the same words under every mapping. */
  lemma ImageIndependent(s: seq<Slot>, freep: nat, top: nat, top': nat, lead: nat, ahead: nat)
    requires freep < |s| && ahead >= 1
    requires MappedWithObject(|s| - 1, top, lead, ahead) && MappedWithObject(|s| - 1, top', lead, ahead)
    ensures Image(s, freep, top, lead, ahead) == Image(s, freep, top', lead, ahead)
  {
    RoverWordIndependent(freep, top, top', lead, ahead);
    forall b | 0 <= b < |s| ensures LinkWord(s, b, top, lead) == LinkWord(s, b, top', lead) {
      var next := b + s[b].link;
      if s[b].link != 0 && 0 <= next < |s| {
        LinkMappingIndependent(b, next, |s| - 1, lead, top, top');
      }
    }
  }

  /** Walking the stored words under any mapping leads from each free block to the next. */
  lemma WordsLeadOn(s: seq<Slot>, freep: int, a: Arena, i: nat, top: nat, top': nat, lead: nat)
    requires Valid(a) && Represents(s, freep, a) && i < |a.free|
    requires Mapped(a.slots, top, lead) && Mapped(a.slots, top', lead)
    ensures var b, next := a.free[i].start, NextStart(a.free, i, a.ring);
            && b < |s|
            && OffsetPtr.CalcAddress(SlotAddress(b, top', lead), LinkWord(s, b, top, lead))
                 == if next == NULL then OffsetPtr.NULLPTR else SlotAddress(next, top', lead)
  {
    assert LinkedAt(s, a.free, a.ring, i) && LinkedAt(s, a.free, a.ring, i + 1);
    var b, next := a.free[i].start, NextStart(a.free, i, a.ring);
    if next != NULL {
      LinkMappingIndependent(b, next, a.slots, lead, top, top');
    }
  }

  lemma SameStoresElsewhere(s: seq<Slot>, freep: int, a: Arena, bytes: nat, alignment: nat, top: nat, delta: nat)
    requires Valid(a) && Represents(s, freep, a)
    requires delta % HEADER == 0 && delta % RealAlignment(alignment) == 0
    ensures AllocateStores(s, freep, a, bytes, alignment, top + delta) == AllocateStores(s, freep, a, bytes, alignment, top)
  {
    var request := RequestSlots(bytes, alignment);
    if Find(a, request, 0).Found? {
      FoundPastBase(a, request);
      ShiftAtCongruent(a, Find(a, request, 0).at, request, alignment, top, delta);
    }
  }

  /** Where op_freep_ points. */
  function RoverSlot(a: Arena): nat
    requires a.rover < |a.free|
  {
    a.free[a.rover].start
  }

  lemma RoverInPlace(s: seq<Slot>, freep: int, a: Arena, bytes: nat, alignment: nat, top: nat)
    requires Valid(a) && Represents(s, freep, a)
    ensures var a' := Allocate(a, bytes, alignment, top).0; a'.rover < |a'.free| && RoverSlot(a') < |s|
  {
    assert LinkedAt(s, a.free, a.ring, a.rover);
    var request := RequestSlots(bytes, alignment);
    if Find(a, request, 0).Found? {
      FoundPastBase(a, request);
      FoundInPlace(s, freep, a, Find(a, request, 0).at);
    }
  }

  /** The same request made under two congruent mappings of the same region leaves the same stored contents. */
  lemma AllocateImage(s: seq<Slot>, freep: int, a: Arena, bytes: nat, alignment: nat, top: nat, delta: nat,
                      lead: nat, ahead: nat)
    requires Valid(a) && Represents(s, freep, a)
    requires delta % HEADER == 0 && delta % RealAlignment(alignment) == 0 && ahead >= 1
    requires MappedWithObject(a.slots, top, lead, ahead) && MappedWithObject(a.slots, top + delta, lead, ahead)
    ensures var here, there := Allocate(a, bytes, alignment, top).0, Allocate(a, bytes, alignment, top + delta).0;
            var s', s'' := AllocateStores(s, freep, a, bytes, alignment, top),
                           AllocateStores(s, freep, a, bytes, alignment, top + delta);
            && here.rover < |here.free| && there.rover < |there.free|
            && RoverSlot(here) < |s'| == |s| == |s''| && RoverSlot(there) < |s|
            && Image(s', RoverSlot(here), top, lead, ahead) == Image(s'', RoverSlot(there), top + delta, lead, ahead)
  {
    SameHeapElsewhere(a, bytes, alignment, top, delta);
    SameStoresElsewhere(s, freep, a, bytes, alignment, top, delta);
    RoverInPlace(s, freep, a, bytes, alignment, top);
    ImageIndependent(AllocateStores(s, freep, a, bytes, alignment, top),
                     RoverSlot(Allocate(a, bytes, alignment, top).0), top, top + delta, lead, ahead);
  }

  /** The release of one block through two mappings leaves the same stored contents. */
  lemma DeallocateImage(s: seq<Slot>, freep: int, a: Arena, p: nat, top: nat, delta: nat, lead: nat, ahead: nat)
    requires Valid(a) && Represents(s, freep, a) && top % HEADER == 0 && delta % HEADER == 0 && ahead >= 1
    requires HeaderSlot(p, top) >= 0 && HeaderSlot(p, top) as nat in a.live
    requires MappedWithObject(a.slots, top, lead, ahead) && MappedWithObject(a.slots, top + delta, lead, ahead)
    ensures HeaderSlot(p + delta, top + delta) == HeaderSlot(p, top)
    ensures var t: nat := HeaderSlot(p, top);
            var s', a' := DeallocateStores(s, freep, a, t), Deallocate(a, t).0;
            && a'.rover < |a'.free| && RoverSlot(a') < |s'| == |s|
            && Image(s', RoverSlot(a'), top, lead, ahead) == Image(s', RoverSlot(a'), top + delta, lead, ahead)
  {
    var t: nat := HeaderSlot(p, top);
    HeaderSlotMoves(p, top, delta);
    ReleasedRover(s, freep, a, t);
    ImageIndependent(DeallocateStores(s, freep, a, t), RoverSlot(Deallocate(a, t).0), top, top + delta, lead, ahead);
  }

  lemma HeaderSlotMoves(p: nat, top: nat, delta: nat)
    requires top % HEADER == 0 && delta % HEADER == 0
    ensures HeaderSlot(p + delta, top + delta) == HeaderSlot(p, top)
  {
  }

  lemma ReleasedRover(s: seq<Slot>, freep: int, a: Arena, t: nat)
    requires Valid(a) && Represents(s, freep, a) && t in a.live
    ensures var a' := Deallocate(a, t).0; a'.rover < |a'.free| && RoverSlot(a') < |s|
    ensures |DeallocateStores(s, freep, a, t)| == |s|
  {
    assert LinkedAt(s, a.free, a.ring, a.rover);
    Neighbours(s, freep, a, Gap(a.free, t), t);
    DeallocateValid(a, t);
    if a.ring || Gap(a.free, t) >= a.rover {
      DeallocateRepresents(s, freep, a, t);
      assert LinkedAt(DeallocateStores(s, freep, a, t), Merged(a, Gap(a.free, t), t).free, a.ring, Gap(a.free, t));
    }
  }
}
