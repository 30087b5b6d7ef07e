/** Offset pointers: a pointer stored as its distance from the place it is stored at, in size_t
  * arithmetic, with distance 0 standing for null.
  */
module OffsetPtr {
  import opened Basics

  type Address = a: nat | a < WORD

  const NULLPTR: Address := 0

  function CalcOffset(self: Address, p: Address): Address {
    if p == NULLPTR then 0 else (p - self) % WORD
  }

  function CalcAddress(self: Address, offset: Address): Address {
    if offset == 0 then NULLPTR else (self + offset) % WORD
  }

  /** A stored pointer reads back as what was stored, unless it points at its own place. */
  lemma StoreLoadIff(self: Address, p: Address)
    requires self != NULLPTR
    ensures CalcAddress(self, CalcOffset(self, p)) == p <==> p != self
    ensures p == self ==> CalcAddress(self, CalcOffset(self, p)) == NULLPTR
  {
    if p != NULLPTR && p < self {
      assert (p - self) % WORD == p - self + WORD;
    }
  }

  /** A pointer and its target moved by the same distance: the stored offset stays right. */
  lemma Relocated(self: Address, p: Address, delta: int)
    requires self != NULLPTR && p != NULLPTR && p != self
    requires 0 < self + delta < WORD && 0 < p + delta < WORD
    ensures CalcOffset(self + delta, p + delta) == CalcOffset(self, p)
    ensures CalcAddress(self + delta, CalcOffset(self, p)) == p + delta
  {
    StoreLoadIff(self + delta, p + delta);
  }

  /** What a pointer stored at `self` and meant to be p reads as. */
  function Readback(self: Address, p: Address): Address {
    if p == self then NULLPTR else p
  }

  class OffsetPointer {
    const self: Address
    var offset: Address

    ghost predicate Valid() {
      self != NULLPTR
    }

    constructor (self: Address, p: Address)
      requires self != NULLPTR
      ensures Valid() && this.self == self && Get() == Readback(self, p)
    {
      this.self := self;
      offset := CalcOffset(self, p);
      new;
      StoreLoadIff(self, p);
    }

    function Get(): Address
      reads this
    {
      CalcAddress(self, offset)
    }

    method Assign(p: Address)
      requires Valid()
      modifies this
      ensures Get() == Readback(self, p)
    {
      offset := CalcOffset(self, p);
      StoreLoadIff(self, p);
    }

    method CopyFrom(orig: OffsetPointer)
      requires Valid() && orig.Valid()
      modifies this
      ensures orig == this ==> offset == old(offset)
      ensures orig != this ==> Get() == Readback(self, old(orig.Get())) && orig.Get() == old(orig.Get())
    {
      if this == orig {
        return;
      }
      Assign(orig.Get());
    }

    method MoveFrom(orig: OffsetPointer)
      requires Valid() && orig.Valid()
      modifies this, orig
      ensures orig == this ==> offset == old(offset)
      ensures orig != this ==> Get() == Readback(self, old(orig.Get())) && orig.Get() == NULLPTR
    {
      if this == orig {
        return;
      }
      Assign(orig.Get());
      orig.Assign(NULLPTR);
    }

    method Swap(x: OffsetPointer)
      requires Valid() && x.Valid()
      modifies this, x
      ensures x == this ==> Get() == old(Get())
      ensures x != this ==> Get() == Readback(self, old(x.Get())) && x.Get() == Readback(x.self, old(Get()))
    {
      var mine, other := Get(), x.Get();
      x.offset := CalcOffset(x.self, mine);
      offset := CalcOffset(self, other);
      StoreLoadIff(self, other);
      StoreLoadIff(x.self, mine);
    }

    /** Moves the pointer by a number of elements, as `+=` does. */
    method Advance(elements: int, elementSize: nat)
      requires Valid() && elementSize > 0
      modifies this
      ensures Get() == Readback(self, (old(Get()) + elements * elementSize) % WORD)
    {
      Assign((Get() + elements * elementSize) % WORD);
    }
  }
}
