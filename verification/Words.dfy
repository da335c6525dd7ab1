/** Unsigned machine words as 32 separate bits, with the operators of C: what an operator does to each bit is its
    definition, and the number a word stands for is derived from its bits. */
module Words {
  import opened Arithmetic

  const WIDTH: nat := 32

  /** A uint32_t, least significant bit first. */
  type Word = w: seq<bool> | |w| == 32 witness seq(32, _ => false)

  type UInt8 = n: int | 0 <= n < 256

  const ZERO: Word := seq(32, _ => false)

  function OneBit(k: nat): Word {
    seq(32, i => i == k)
  }

  function And(a: Word, b: Word): Word {
    seq(32, i requires 0 <= i < 32 => a[i] && b[i])
  }

  function Or(a: Word, b: Word): Word {
    seq(32, i requires 0 <= i < 32 => a[i] || b[i])
  }

  function Not(a: Word): Word {
    seq(32, i requires 0 <= i < 32 => !a[i])
  }

  /** (1 << k) - 1: the k low bits. */
  function Ones(k: nat): Word {
    seq(32, i => i < k)
  }

  function ShiftRight(w: Word): Word {
    w[1..] + [false]
  }

  function ShiftLeft(w: Word): Word {
    [false] + w[..31]
  }

  /** Shift by an amount below the width, as C defines it. */
  function ShiftLeftBy(w: Word, n: nat): Word
    requires n < WIDTH
  {
    seq(32, i requires 0 <= i < 32 => i >= n && w[i - n])
  }

  function ShiftRightBy(w: Word, n: nat): Word
    requires n < WIDTH
  {
    seq(32, i requires 0 <= i < 32 => i + n < 32 && w[i + n])
  }

  function Power2(n: nat): nat
    ensures Power2(n) >= 1
  {
    if n == 0 then 1 else 2 * Power2(n - 1)
  }

  /** The number a run of bits stands for. */
  function Value(bits: seq<bool>): nat {
    if bits == [] then 0 else (if bits[0] then 1 else 0) + 2 * Value(bits[1..])
  }

  lemma {:induction false} ValueBound(bits: seq<bool>, n: nat)
    requires n <= |bits| && forall i :: n <= i < |bits| ==> !bits[i]
    ensures Value(bits) < Power2(n)
  {
    if bits != [] {
      if n == 0 {
        ValueBound(bits[1..], 0);
      } else {
        ValueBound(bits[1..], n - 1);
      }
    }
  }

  lemma {:induction false} ValueAtLeast(bits: seq<bool>, n: nat)
    requires n < |bits| && bits[n]
    ensures Value(bits) >= Power2(n)
  {
    if n > 0 {
      ValueAtLeast(bits[1..], n - 1);
    }
  }

  lemma {:induction false} ValueSplit(bits: seq<bool>, k: nat)
    requires k <= |bits|
    ensures Value(bits) == Value(bits[..k]) + Power2(k) * Value(bits[k..])
  {
    if k > 0 {
      ValueSplit(bits[1..], k - 1);
      assert bits[1..][..k - 1] == bits[..k][1..];
      assert bits[1..][k - 1..] == bits[k..];
      assert Power2(k) == 2 * Power2(k - 1);
      Distribute(2, Value(bits[..k][1..]), Power2(k - 1) * Value(bits[k..]));
      Associate(2, Power2(k - 1), Value(bits[k..]));
    } else {
      assert bits[0..] == bits;
      assert Power2(0) * Value(bits) == Value(bits);
    }
  }
}
