/** Address arithmetic of the shared heap: blocks are counted in header-sized slots.
  *
  * Slot 0 is `base_blk_`; slots 1..N are the managed region, slot 1 lying at the address `top`
  * at which the running process sees the region. The body of the block whose header is slot `s`
  * starts at slot `s + 1`.
  */
module HeapLayout {
  import opened Basics

  /** sizeof(block_header): an 8-byte offset pointer and an 8-byte size. */
  const HEADER: nat := 16

  /** Alignments that fit the slot grid: divisors and multiples of the header size. */
  predicate OnGrid(alignment: nat) {
    alignment > 0 && (HEADER % alignment == 0 || alignment % HEADER == 0)
  }

  predicate PowerOfTwo(n: nat)
  {
    n == 1 || (n > 0 && n % 2 == 0 && PowerOfTwo(n / 2))
  }

  /** The alignment the rounding works with: a request for 0 means no constraint. */
  function RealAlignment(alignment: nat): nat {
    if alignment == 0 then 1 else alignment
  }

  /** Extra bytes asked for so that a header can be moved forward to an aligned body. */
  function AdditionalSize(alignment: nat): nat {
    if alignment <= HEADER then 0 else alignment - HEADER
  }

  /** Header slots a byte count needs, in size_t arithmetic. */
  function BytesToBlocks(bytes: nat): nat {
    (bytes + HEADER - 1) % WORD / HEADER
  }

  /** Slots a request needs, its header included. */
  function RequestSlots(bytes: nat, alignment: nat): (slots: nat)
    ensures slots >= 1
  {
    BytesToBlocks((bytes + AdditionalSize(alignment)) % WORD) + 1
  }

  /** Whether the request is computed without wrapping around size_t. */
  predicate Fits(bytes: nat, alignment: nat) {
    bytes + AdditionalSize(alignment) + HEADER - 1 < WORD
  }

  function RoundUp(x: nat, unit: nat): nat
    requires unit > 0
  {
    (x + unit - 1) / unit * unit
  }

  /** Address of the body of the block whose header is slot `slot`. */
  function BodyAddress(slot: nat, top: nat): nat {
    top + slot * HEADER
  }

  /** The pointer handed to the caller for the block at `slot`. */
  function BodyPointer(slot: nat, alignment: nat, top: nat): nat
    requires alignment > 0
  {
    RoundUp(BodyAddress(slot, top), alignment)
  }

  /** Slots by which the header must move forward for its body to be aligned. */
  function HeaderShift(slot: nat, alignment: nat, top: nat): nat
    requires alignment > 0
  {
    var body := BodyAddress(slot, top);
    var aligned := RoundUp(RoundUp(body, alignment), HEADER);
    if aligned >= body then (aligned - body) / HEADER else 0
  }

  /** The slot of the header that belongs to pointer `p`, as the release path computes it. */
  function HeaderSlot(p: nat, top: nat): int {
    ((p / HEADER - 1) * HEADER - top) / HEADER + 1
  }

  /** Every power of two fits the slot grid. */
  lemma {:induction false} PowerOfTwoOnGrid(n: nat)
    requires PowerOfTwo(n)
    ensures OnGrid(n)
  {
    if n >= HEADER {
      PowerOfTwoAtLeastHeader(n);
    } else {
      assert n in {1, 2, 4, 8} by { SmallPowerOfTwo(n); }
    }
  }

  lemma SmallPowerOfTwo(n: nat)
    requires PowerOfTwo(n) && n < HEADER
    ensures n == 1 || n == 2 || n == 4 || n == 8
  {
    if n > 1 {
      assert PowerOfTwo(n / 2);
      if n > 2 {
        assert PowerOfTwo(n / 2 / 2);
        if n > 4 {
          assert PowerOfTwo(n / 2 / 2 / 2);
        }
      }
    }
  }

  lemma DoubleMultiple(n: nat)
    requires n % HEADER == 0
    ensures n * 2 % HEADER == 0
  {
  }

  lemma {:induction false} PowerOfTwoAtLeastHeader(n: nat)
    requires PowerOfTwo(n) && n >= HEADER
    ensures n % HEADER == 0
    decreases n
  {
    if n >= 2 * HEADER {
      PowerOfTwoAtLeastHeader(n / 2);
      assert n == n / 2 * 2;
      DoubleMultiple(n / 2);
    } else if n > HEADER {
      assert PowerOfTwo(n / 2);
      SmallPowerOfTwo(n / 2);
    }
  }

  /** Rounding up gives the least multiple of the unit that is not below x. */
  lemma RoundUpLeast(x: nat, unit: nat)
    requires unit > 0
    ensures x <= RoundUp(x, unit) < x + unit
    ensures RoundUp(x, unit) % unit == 0
    ensures x % unit == 0 ==> RoundUp(x, unit) == x
  {
    var q := (x + unit - 1) / unit;
    Divide(x + unit - 1, unit);
    QuotientUnique(q * unit, unit, q, 0);
    if x % unit == 0 {
      Divide(x, unit);
      QuotientUnique(x + unit - 1, unit, x / unit, unit - 1);
    }
  }

  lemma Divide(x: nat, unit: nat)
    requires unit > 0
    ensures x == x / unit * unit + x % unit
  {
  }

  lemma AtLeastUnit(d: int, unit: nat)
    requires d >= 1
    ensures d * unit >= unit
  {
    assert (d - 1) * unit >= 0;
  }

  /** Quotient and remainder are determined by their defining equation. */
  lemma QuotientUnique(x: nat, unit: nat, q: int, r: nat)
    requires 0 <= r < unit && x == q * unit + r
    ensures x / unit == q && x % unit == r
  {
    var q', r' := x / unit, x % unit;
    Divide(x, unit);
    assert (q - q') * unit == q * unit - q' * unit;
    assert (q' - q) * unit == q' * unit - q * unit;
    if q > q' {
      AtLeastUnit(q - q', unit);
      assert false;
    } else if q < q' {
      AtLeastUnit(q' - q, unit);
      assert false;
    }
  }

  lemma MultipleOfMultiple(x: nat, alignment: nat)
    requires alignment > 0 && alignment % HEADER == 0 && x % alignment == 0
    ensures x % HEADER == 0
  {
    Divide(x, alignment);
    var q, k := x / alignment, alignment / HEADER;
    assert x == q * (k * HEADER) == (q * k) * HEADER;
  }

  /** Adding a multiple of the unit moves the rounded value by the same amount. */
  lemma RoundUpShift(x: nat, delta: nat, unit: nat)
    requires unit > 0 && delta % unit == 0
    ensures RoundUp(x + delta, unit) == RoundUp(x, unit) + delta
  {
    var y := x + unit - 1;
    Divide(y, unit);
    Divide(delta, unit);
    assert (y / unit + delta / unit) * unit == y / unit * unit + delta;
    QuotientUnique(y + delta, unit, y / unit + delta / unit, y % unit);
  }

  /** A header moved to where the aligned body begins moves by whole slots. */
  lemma ShiftToAligned(slot: nat, alignment: nat, top: nat, aligned: nat)
    requires top % HEADER == 0 && alignment % HEADER == 0 && aligned % HEADER == 0
    requires BodyAddress(slot, top) <= aligned < BodyAddress(slot, top) + alignment
    ensures var shift := (aligned - BodyAddress(slot, top)) / HEADER;
            && BodyAddress(slot + shift, top) == aligned
            && shift * HEADER <= alignment - HEADER
  {
  }

  lemma LargeAlignmentShift(slot: nat, alignment: nat, top: nat)
    requires alignment > 0 && alignment % HEADER == 0 && top % HEADER == 0
    ensures var shift := HeaderShift(slot, alignment, top);
            && shift * HEADER <= AdditionalSize(alignment)
            && BodyAddress(slot + shift, top) == RoundUp(BodyAddress(slot, top), alignment)
  {
    var body := BodyAddress(slot, top);
    var aligned := RoundUp(body, alignment);
    RoundUpLeast(body, alignment);
    MultipleOfMultiple(aligned, alignment);
    RoundUpLeast(aligned, HEADER);
    ShiftToAligned(slot, alignment, top, aligned);
  }

  lemma SmallAlignmentShift(slot: nat, alignment: nat, top: nat)
    requires OnGrid(alignment) && alignment % HEADER != 0 && top % HEADER == 0
    ensures HeaderShift(slot, alignment, top) == 0 && BodyAddress(slot, top) % alignment == 0
  {
    var body := BodyAddress(slot, top);
    assert body % HEADER == 0;
    SmallAlignment(alignment, body);
    RoundUpLeast(body, alignment);
    RoundUpLeast(body, HEADER);
  }

  lemma HeaderShiftBound(slot: nat, alignment: nat, top: nat)
    requires OnGrid(alignment) && top % HEADER == 0
    ensures HeaderShift(slot, alignment, top) * HEADER <= AdditionalSize(alignment)
    ensures alignment <= HEADER || alignment % HEADER == 0
  {
    if alignment % HEADER == 0 {
      LargeAlignmentShift(slot, alignment, top);
    } else {
      SmallAlignmentShift(slot, alignment, top);
      SmallAlignment(alignment, 0);
    }
  }

  /** Moving the header by the computed shift makes the body aligned, by moving it no further than
    * the extra bytes that were asked for; the pointer handed out is then the body itself.
    */
  lemma HeaderShiftAligns(slot: nat, alignment: nat, top: nat)
    requires OnGrid(alignment) && top % HEADER == 0
    ensures var shift := HeaderShift(slot, alignment, top);
            && shift * HEADER <= AdditionalSize(alignment)
            && BodyAddress(slot + shift, top) % alignment == 0
            && BodyPointer(slot + shift, alignment, top) == BodyAddress(slot + shift, top)
  {
    var at := BodyAddress(slot + HeaderShift(slot, alignment, top), top);
    if alignment % HEADER == 0 {
      LargeAlignmentShift(slot, alignment, top);
      RoundUpLeast(BodyAddress(slot, top), alignment);
    } else {
      SmallAlignmentShift(slot, alignment, top);
    }
    RoundUpLeast(at, alignment);
  }

  lemma SmallAlignment(alignment: nat, x: nat)
    requires alignment > 0 && alignment % HEADER != 0 && HEADER % alignment == 0
    requires x % HEADER == 0
    ensures alignment < HEADER && x % alignment == 0
  {
    if alignment > HEADER {
      assert false;
    }
    Divide(HEADER, alignment);
    var k := HEADER / alignment;
    Divide(x, HEADER);
    var q := x / HEADER;
    assert x == q * (k * alignment) == (q * k) * alignment;
    MultipleMod(q * k, alignment);
  }

  lemma MultipleMod(q: nat, unit: nat)
    requires unit > 0
    ensures q * unit % unit == 0
  {
    QuotientUnique(q * unit, unit, q, 0);
  }

  /** The division in the release path finds the header the pointer was handed out for. */
  lemma HeaderRecovered(slot: nat, top: nat)
    requires top % HEADER == 0
    ensures HeaderSlot(BodyAddress(slot, top), top) == slot
  {
  }

  /** The slots a request is computed to: enough for all bytes, or what is left after one wrap around size_t. */
  lemma RequestComputed(bytes: nat, alignment: nat)
    requires bytes < WORD && alignment < WORD
    ensures var total, slots := bytes + AdditionalSize(alignment), RequestSlots(bytes, alignment) - 1;
            && (Fits(bytes, alignment) ==> total <= slots * HEADER < total + HEADER)
            && (total >= WORD && total - WORD + HEADER - 1 < WORD ==> slots * HEADER < total - WORD + HEADER)
            && (total < WORD && !Fits(bytes, alignment) ==> slots == 0)
  {
    var total := bytes + AdditionalSize(alignment);
    if total >= WORD {
      assert total % WORD == total - WORD;
    } else {
      assert total % WORD == total;
    }
  }

  /** The body of a request's block, shortened by a permitted header shift and possibly one slot longer than
    * asked for, holds the bytes asked for exactly when the size computation does not wrap around.
    */
  lemma CapacityIff(bytes: nat, alignment: nat, shift: nat, spare: nat)
    requires bytes < WORD && alignment < WORD
    requires alignment <= HEADER || alignment % HEADER == 0
    requires shift * HEADER <= AdditionalSize(alignment) && spare <= 1
    ensures Fits(bytes, alignment) ==> shift < RequestSlots(bytes, alignment)
    ensures (RequestSlots(bytes, alignment) + spare - shift - 1) * HEADER >= bytes <==> Fits(bytes, alignment)
  {
    RequestComputed(bytes, alignment);
    assert AdditionalSize(alignment) <= WORD - 2 * HEADER;
  }

  /** Two mappings of the region that agree modulo the alignment need the same header shift, and
    * their pointers differ by the distance between the mappings.
    */
  lemma ShiftCongruent(slot: nat, alignment: nat, top: nat, delta: nat)
    requires alignment > 0 && delta % alignment == 0 && delta % HEADER == 0
    ensures HeaderShift(slot, alignment, top + delta) == HeaderShift(slot, alignment, top)
    ensures BodyPointer(slot, alignment, top + delta) == BodyPointer(slot, alignment, top) + delta
  {
    var body := BodyAddress(slot, top);
    assert BodyAddress(slot, top + delta) == body + delta;
    RoundUpTwiceShift(body, delta, alignment);
  }

  lemma RoundUpTwiceShift(x: nat, delta: nat, alignment: nat)
    requires alignment > 0 && delta % alignment == 0 && delta % HEADER == 0
    ensures RoundUp(x + delta, alignment) == RoundUp(x, alignment) + delta
    ensures RoundUp(RoundUp(x + delta, alignment), HEADER) == RoundUp(RoundUp(x, alignment), HEADER) + delta
  {
    RoundUpShift(x, delta, alignment);
    RoundUpShift(RoundUp(x, alignment), delta, HEADER);
  }

  /** Sizes and alignments a caller can pass. */
  predicate SizeT(bytes: nat, alignment: nat) {
    bytes < WORD && alignment < WORD
  }

  /** Requests the header arithmetic is made for: the alignment fits the slot grid and, where a header may
    * have to move, the size does not wrap around.
    */
  predicate Sensible(bytes: nat, alignment: nat) {
    && SizeT(bytes, alignment)
    && OnGrid(RealAlignment(alignment))
    && (alignment <= HEADER || Fits(bytes, alignment))
  }

  /** Whatever the alignment, a header moves by fewer bytes than alignment and header size together. */
  lemma HeaderShiftSmall(slot: nat, alignment: nat, top: nat)
    requires alignment > 0
    ensures HeaderShift(slot, alignment, top) * HEADER < alignment + HEADER
  {
    var body := BodyAddress(slot, top);
    RoundUpLeast(body, alignment);
    RoundUpLeast(RoundUp(body, alignment), HEADER);
  }

  lemma ShiftWithinExtra(bytes: nat, alignment: nat, shift: nat)
    requires bytes < WORD && alignment < WORD && (alignment <= HEADER || (alignment % HEADER == 0 && Fits(bytes, alignment)))
    requires shift * HEADER <= AdditionalSize(RealAlignment(alignment))
    ensures shift < RequestSlots(bytes, alignment)
    ensures alignment <= HEADER ==> shift == 0
  {
    if alignment > HEADER {
      CapacityIff(bytes, alignment, shift, 0);
    }
  }

  /** A sensible request exceeds every header shift its alignment can cause. */
  lemma ShiftBelowRequest(slot: nat, bytes: nat, alignment: nat, top: nat)
    requires Sensible(bytes, alignment) && top % HEADER == 0
    ensures HeaderShift(slot, RealAlignment(alignment), top) < RequestSlots(bytes, alignment)
    ensures alignment <= HEADER ==> HeaderShift(slot, RealAlignment(alignment), top) == 0
  {
    HeaderShiftBound(slot, RealAlignment(alignment), top);
    ShiftWithinExtra(bytes, alignment, HeaderShift(slot, RealAlignment(alignment), top));
  }
}
