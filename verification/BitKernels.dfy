/** The software bit-reversal and leading-zero loops of the IAR header, on words of 32 bits, with the early exit of
    the one and the eight-bit counters of both. */
module BitKernels {

  import opened Words

  function Reversed(w: Word): (r: Word)
    ensures forall i :: 0 <= i < 32 ==> r[31 - i] == w[i]
  {
    seq(32, i requires 0 <= i < 32 => w[31 - i])
  }

  /** Reversing twice gives the word back. */
  lemma ReversedTwice(w: Word)
    ensures Reversed(Reversed(w)) == w
  {
  }

  /** __RBIT: r collects the bits of v from the bottom up; the loop stops as soon as v runs out and the rest
      is one shift by the counter, which never passes zero. */
  method ReverseBits(value: Word) returns (reversed: Word)
    ensures reversed == Reversed(value)
  {
    var sc: UInt8 := 31;
    var r := value;
    var v := ShiftRight(value);
    while v != ZERO
      invariant sc <= 31
      invariant forall i :: 0 <= i < 32 ==> v[i] == (i + 32 - sc < 32 && value[i + 32 - sc])
      invariant forall i :: 0 <= i <= 31 - sc ==> r[i] == value[31 - sc - i]
      decreases sc
    {
      r := ShiftLeft(r);
      r := Or(r, And(v, OneBit(0)));
      sc := sc - 1;
      v := ShiftRight(v);
    }
    reversed := ShiftLeftBy(r, sc);
    forall i | 0 <= i < 32
      ensures reversed[i] == value[31 - i]
    {
      if i < sc {
        assert v[sc - 1 - i] == value[31 - i];
      }
    }
  }

  /** c zeros above the first one bit; 32 for zero. */
  predicate IsLeadingZeros(w: Word, c: nat) {
    && c <= 32
    && (forall i :: 32 - c <= i < 32 ==> !w[i])
    && (c < 32 ==> w[31 - c])
  }

  predicate IsTrailingZeros(w: Word, c: nat) {
    && c <= 32
    && (forall i :: 0 <= i < c ==> !w[i])
    && (c < 32 ==> w[c])
  }

  /** __CLZ. */
  method CountLeadingZeros(data: Word) returns (count: UInt8)
    ensures IsLeadingZeros(data, count)
  {
    if data == ZERO {
      return 32;
    }
    count := 0;
    var mask := OneBit(31);
    while And(data, mask) == ZERO
      invariant count <= 31
      invariant mask == OneBit(31 - count)
      invariant forall i :: 32 - count <= i < 32 ==> !data[i]
      decreases 32 - count
    {
      assert !And(data, mask)[31 - count];
      count := count + 1;
      mask := ShiftRight(mask);
    }
    assert data[31 - count] by {
      assert exists i :: 0 <= i < 32 && And(data, mask)[i];
    }
  }

  /** The leading zeros of the reversal are the trailing zeros of the word. */
  lemma LeadingOfReversed(w: Word, c: nat)
    ensures IsLeadingZeros(Reversed(w), c) <==> IsTrailingZeros(w, c)
  { }

  /** What the count says of the number: 2^(31-c) <= w < 2^(32-c), unless w is zero. */
  lemma LeadingZerosBracket(w: Word, c: nat)
    requires IsLeadingZeros(w, c)
    ensures Value(w) < Power2(32 - c)
    ensures c < 32 ==> Power2(31 - c) <= Value(w)
    ensures c == 32 <==> Value(w) == 0
  {
    ValueBound(w, 32 - c);
    if c < 32 {
      ValueAtLeast(w, 31 - c);
    }
  }

  /** There is only one such count. */
  lemma LeadingZerosUnique(w: Word, c: nat, d: nat)
    requires IsLeadingZeros(w, c) && IsLeadingZeros(w, d)
    ensures c == d
  {
  }
}
