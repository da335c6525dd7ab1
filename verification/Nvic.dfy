/** NVIC priorities: four to a register, and their split into preemption and subpriority. The registers are arrays of
    words, and the accessors shift and mask as the header does. */
module Nvic {
  import opened Arithmetic
  import opened Words

  // ---------- Grouping ----------

  /** __NVIC_PRIO_BITS. */
  type PrioBits = n: int | 0 <= n <= 8

  /** The field widths both functions compute; only the low three bits of the group count. */
  function PreemptBits(group: nat, n: PrioBits): nat {
    var g := group % 8;
    if 7 - g > n then n else 7 - g
  }

  function SubBits(group: nat, n: PrioBits): nat {
    var g := group % 8;
    if g + n < 7 then 0 else (g - 7) + n
  }

  lemma BitsAddUp(group: nat, n: PrioBits)
    ensures PreemptBits(group, n) + SubBits(group, n) == n
  {
  }

  function EncodePriority(group: nat, preempt: Word, sub: Word, n: PrioBits): Word {
    var pb, sb := PreemptBits(group, n), SubBits(group, n);
    Or(ShiftLeftBy(And(preempt, Ones(pb)), sb), And(sub, Ones(sb)))
  }

  /** NVIC_DecodePriority writes both parts. */
  method DecodePriority(priority: Word, group: nat, n: PrioBits) returns (preempt: Word, sub: Word)
    ensures preempt == DecodePreempt(priority, group, n)
    ensures sub == DecodeSub(priority, group, n)
  {
    var g := group % 8;
    var preemptBits: nat := if 7 - g > n then n else 7 - g;
    var subBits: nat := if g + n < 7 then 0 else (g - 7) + n;
    preempt := And(ShiftRightBy(priority, subBits), Ones(preemptBits));
    sub := And(priority, Ones(subBits));
  }

  function DecodePreempt(priority: Word, group: nat, n: PrioBits): Word {
    And(ShiftRightBy(priority, SubBits(group, n)), Ones(PreemptBits(group, n)))
  }

  function DecodeSub(priority: Word, group: nat, n: PrioBits): Word {
    And(priority, Ones(SubBits(group, n)))
  }

  /** Decoding an encoding reduces each part to its width, and the encoding fits the implemented bits. */
  lemma DecodeEncode(group: nat, preempt: Word, sub: Word, n: PrioBits)
    ensures var e := EncodePriority(group, preempt, sub, n);
            && DecodePreempt(e, group, n) == And(preempt, Ones(PreemptBits(group, n)))
            && DecodeSub(e, group, n) == And(sub, Ones(SubBits(group, n)))
            && And(e, Ones(n)) == e
  {
  }

  /** Encoding the parts of an implemented priority gives it back. */
  lemma EncodeDecode(priority: Word, group: nat, n: PrioBits)
    requires And(priority, Ones(n)) == priority
    ensures EncodePriority(group, DecodePreempt(priority, group, n), DecodeSub(priority, group, n), n) == priority
  { }

  /** Words that are zero from k on stand for their low k bits. */
  lemma ValueOfLow(m: Word, k: nat)
    requires k <= 32 && forall i :: k <= i < 32 ==> !m[i]
    ensures Value(m) == Value(m[..k]) < Power2(k)
  {
    ValueSplit(m, k);
    ValueBound(m[k..], 0);
    assert Value(m[k..]) == 0;
    assert Power2(k) * 0 == 0;
    ValueBound(m, k);
  }

  /** Keeping k low bits is reducing modulo 2^k. */
  lemma LowBitsAreModulo(w: Word, k: nat)
    requires k <= 32
    ensures Value(And(w, Ones(k))) == Value(w) % Power2(k)
  {
    var m := And(w, Ones(k));
    ValueOfLow(m, k);
    assert m[..k] == w[..k];
    ValueSplit(w, k);
    QuotientOf(Value(w), Value(m), Power2(k), Value(w[k..]));
  }

  /** The number an encoding stands for: the preemption part above the subpriority part. */
  lemma EncodingValue(group: nat, preempt: Word, sub: Word, n: PrioBits)
    ensures var pb, sb := PreemptBits(group, n), SubBits(group, n);
            && Value(EncodePriority(group, preempt, sub, n)) ==
               Value(And(sub, Ones(sb))) + Power2(sb) * Value(And(preempt, Ones(pb)))
            && Value(And(sub, Ones(sb))) < Power2(sb)
  {
    BitsAddUp(group, n);
    FieldsValue(And(preempt, Ones(PreemptBits(group, n))), And(sub, Ones(SubBits(group, n))), SubBits(group, n));
  }

  lemma {:induction false} FieldsValue(p: Word, s: Word, sb: nat)
    requires sb <= 8
    requires (forall i :: 8 <= i < 32 ==> !p[i]) && (forall i :: sb <= i < 32 ==> !s[i])
    ensures Value(Or(ShiftLeftBy(p, sb), s)) == Value(s) + Power2(sb) * Value(p)
    ensures Value(s) < Power2(sb)
  {
    var e := Or(ShiftLeftBy(p, sb), s);
    ValueSplit(e, sb);
    ValueOfLow(s, sb);
    assert e[..sb] == s[..sb];
    ValueOfLow(p, 32 - sb);
    assert e[sb..] == p[..32 - sb];
  }

  lemma LexicographicProduct(m: nat, p: nat, s: nat, q: nat, t: nat)
    requires s < m && t < m
    ensures s + m * p < t + m * q <==> p < q || (p == q && s < t)
  {
    if p < q {
      Distribute(m, q, p);
      ProductAtLeast(m, q - p);
    } else if q < p {
      Distribute(m, p, q);
      ProductAtLeast(m, p - q);
    }
  }

  /** The numeric order of encodings is the order by preemption first and subpriority second. */
  lemma EncodingOrder(group: nat, n: PrioBits, p: Word, s: Word, q: Word, t: Word)
    ensures var pb, sb := PreemptBits(group, n), SubBits(group, n);
            var p', s' := Value(And(p, Ones(pb))), Value(And(s, Ones(sb)));
            var q', t' := Value(And(q, Ones(pb))), Value(And(t, Ones(sb)));
            Value(EncodePriority(group, p, s, n)) < Value(EncodePriority(group, q, t, n)) <==>
            p' < q' || (p' == q' && s' < t')
  {
    var pb, sb := PreemptBits(group, n), SubBits(group, n);
    EncodingValue(group, p, s, n);
    EncodingValue(group, q, t, n);
    LexicographicProduct(Power2(sb), Value(And(p, Ones(pb))), Value(And(s, Ones(sb))),
                         Value(And(q, Ones(pb))), Value(And(t, Ones(sb))));
  }

  // ---------- Registers ----------

  /** Interrupt numbers whose priority can be set: devices 0..31 and system handlers -8..-1. */
  type Irq = i: int | -8 <= i < 32

  /** _BIT_SHIFT: the two's complement low two bits, times eight. */
  function BitShift(irq: Irq): (shift: nat)
    ensures shift <= 24 && shift % 8 == 0
  {
    (irq % 4) * 8
  }

  /** _IP_IDX and _SHP_IDX. */
  function IpIndex(irq: Irq): (index: nat)
    requires irq >= 0
    ensures index < 8
  {
    irq / 4
  }

  function ShpIndex(irq: Irq): (index: nat)
    requires irq < 0
    ensures index < 2
  {
    (irq % 16 - 8) / 4
  }

  const FF: Word := Ones(8)

  /** A register with one byte lane replaced. */
  function SetLane(reg: Word, shift: nat, priority: Word, n: PrioBits): Word
    requires shift <= 24
  {
    Or(And(reg, Not(ShiftLeftBy(FF, shift))), ShiftLeftBy(And(ShiftLeftBy(priority, 8 - n), FF), shift))
  }

  function GetLane(reg: Word, shift: nat, n: PrioBits): Word
    requires shift <= 24
  {
    ShiftRightBy(And(ShiftRightBy(reg, shift), FF), 8 - n)
  }

  /** A lane read back is the priority in its implemented bits; the other lanes are as they were. */
  lemma Lanes(reg: Word, shift: nat, priority: Word, n: PrioBits, other: nat)
    requires shift <= 24 && shift % 8 == 0 && other <= 24 && other % 8 == 0
    ensures GetLane(SetLane(reg, shift, priority, n), shift, n) == And(priority, Ones(n))
    ensures other != shift ==> GetLane(SetLane(reg, shift, priority, n), other, n) == GetLane(reg, other, n)
  {
    assert other != shift ==> other + 8 <= shift || shift + 8 <= other;
  }

  class Controller {
    const ip: array<Word>
    const shp: array<Word>
    const prioBits: PrioBits

    ghost predicate Valid() {
      ip.Length == 8 && shp.Length == 2 && ip != shp
    }

    constructor (n: PrioBits)
      ensures Valid() && prioBits == n && fresh(ip) && fresh(shp)
    {
      ip := new Word[8](_ => ZERO);
      shp := new Word[2](_ => ZERO);
      prioBits := n;
    }

    function GetPriority(irq: Irq): Word
      requires Valid()
      reads ip, shp
    {
      if irq >= 0 then GetLane(ip[IpIndex(irq)], BitShift(irq), prioBits)
      else GetLane(shp[ShpIndex(irq)], BitShift(irq), prioBits)
    }

    /** The packed registers behave as independent cells. */
    method SetPriority(irq: Irq, priority: Word)
      requires Valid()
      modifies ip, shp
      ensures GetPriority(irq) == And(priority, Ones(prioBits))
      ensures forall other: Irq :: other != irq ==> GetPriority(other) == old(GetPriority(other))
      ensures irq >= 0 ==> shp[..] == old(shp[..]) && StoredAt(old(ip[..]), ip[..], irq, priority, prioBits)
      ensures irq < 0 ==> ip[..] == old(ip[..]) && StoredAt(old(shp[..]), shp[..], irq + 8, priority, prioBits)
    {
      if irq >= 0 {
        ip[IpIndex(irq)] := SetLane(ip[IpIndex(irq)], BitShift(irq), priority, prioBits);
      } else {
        shp[ShpIndex(irq)] := SetLane(shp[ShpIndex(irq)], BitShift(irq), priority, prioBits);
      }
      forall other: Irq
        ensures other == irq ==> GetPriority(other) == And(priority, Ones(prioBits))
        ensures other != irq ==> GetPriority(other) == old(GetPriority(other))
      {
        var reg := if irq >= 0 then old(ip[IpIndex(irq)]) else old(shp[ShpIndex(irq)]);
        Lanes(reg, BitShift(irq), priority, prioBits, BitShift(other));
        if BitShift(irq) == BitShift(other) {
          CellsApart(irq, other);
        }
      }
      LaneBits(irq, if irq >= 0 then old(ip[IpIndex(irq)]) else old(shp[ShpIndex(irq)]), priority, prioBits);
    }
  }

  /** Interrupts that share a register and a lane are the same interrupt. */
  lemma CellsApart(a: Irq, b: Irq)
    requires BitShift(a) == BitShift(b)
    ensures a >= 0 && b >= 0 && IpIndex(a) == IpIndex(b) ==> a == b
    ensures a < 0 && b < 0 && ShpIndex(a) == ShpIndex(b) ==> a == b
  {
  }

  /** Bit i of the byte that stands for a priority: its n bits are at the top. */
  predicate ByteBit(priority: Word, n: PrioBits, i: nat) {
    8 - n <= i < 8 && priority[i - (8 - n)]
  }

  /** The registers as one row of bytes, the lowest first: byte number k now holds the priority, and no other bit has
      changed. */
  ghost predicate StoredAt(before: seq<Word>, after: seq<Word>, k: nat, priority: Word, n: PrioBits) {
    && |before| == |after|
    && forall r, b :: 0 <= r < |after| && 0 <= b < 32 ==>
         after[r][b] ==
         if r == k / 4 && 8 * (k % 4) <= b < 8 * (k % 4) + 8 then ByteBit(priority, n, b - 8 * (k % 4))
         else before[r][b]
  }

  lemma LaneBits(irq: Irq, reg: Word, priority: Word, n: PrioBits)
    ensures irq >= 0 ==> IpIndex(irq) == irq / 4 && BitShift(irq) == 8 * (irq % 4)
    ensures irq < 0 ==> ShpIndex(irq) == (irq + 8) / 4 && BitShift(irq) == 8 * ((irq + 8) % 4)
    ensures forall b :: 0 <= b < 32 ==>
              SetLane(reg, BitShift(irq), priority, n)[b] ==
              if BitShift(irq) <= b < BitShift(irq) + 8 then ByteBit(priority, n, b - BitShift(irq)) else reg[b]
  {
  }

  /** What a group number means, of which only the low three bits count: in the byte that holds a priority, the bits
      above it are for preemption and the rest for subpriority. */
  lemma GroupSplitsByte(p: Word, q: Word, group: nat, n: PrioBits)
    ensures DecodePreempt(p, group, n) == DecodePreempt(q, group, n) <==>
            forall i :: group % 8 < i < 8 ==> ByteBit(p, n, i) == ByteBit(q, n, i)
    ensures DecodeSub(p, group, n) == DecodeSub(q, group, n) <==>
            forall i :: 0 <= i <= group % 8 ==> ByteBit(p, n, i) == ByteBit(q, n, i)
  {
    PreemptSplits(p, q, group, n);
    SubSplits(p, q, group, n);
  }

  lemma PreemptSplits(p: Word, q: Word, group: nat, n: PrioBits)
    ensures DecodePreempt(p, group, n) == DecodePreempt(q, group, n) <==>
            forall i :: group % 8 < i < 8 ==> ByteBit(p, n, i) == ByteBit(q, n, i)
  {
    var pb, sb := PreemptBits(group, n), SubBits(group, n);
    var a, b := DecodePreempt(p, group, n), DecodePreempt(q, group, n);
    var k := sb + 8 - n;
    assert pb > 0 ==> k == if 7 - group % 8 > n then 8 - n else group % 8 + 1;
    if a == b {
      forall i | group % 8 < i < 8
        ensures ByteBit(p, n, i) == ByteBit(q, n, i)
      {
        if i >= 8 - n {
          assert a[i - k] == b[i - k];
        }
      }
    }
    if forall i :: group % 8 < i < 8 ==> ByteBit(p, n, i) == ByteBit(q, n, i) {
      forall i | 0 <= i < 32
        ensures a[i] == b[i]
      {
        if i < pb {
          assert ByteBit(p, n, i + k) == ByteBit(q, n, i + k);
        }
      }
    }
  }

  lemma SubSplits(p: Word, q: Word, group: nat, n: PrioBits)
    ensures DecodeSub(p, group, n) == DecodeSub(q, group, n) <==>
            forall i :: 0 <= i <= group % 8 ==> ByteBit(p, n, i) == ByteBit(q, n, i)
  {
    var sb := SubBits(group, n);
    var a, b := DecodeSub(p, group, n), DecodeSub(q, group, n);
    assert forall i :: 0 <= i < 32 ==> a[i] == (i < sb && p[i]) && b[i] == (i < sb && q[i]);
    assert forall i :: 0 <= i < sb ==> ByteBit(p, n, i + 8 - n) == p[i] && ByteBit(q, n, i + 8 - n) == q[i];
    assert forall i :: 8 - n <= i <= group % 8 ==>
        ByteBit(p, n, i) == a[i - (8 - n)] && ByteBit(q, n, i) == b[i - (8 - n)];
  }
}
