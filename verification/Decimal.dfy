/** Decimal numerals as printf writes them and the scanners read them: digits and their value, numerals of fixed and of
    shortest width, the run of digits a scanner stops at, the zeros a fraction loses, and scaling by powers of ten. The
    texts of the price file and of the timestamps are built from these. */
module Decimal {
  import opened Arithmetic

  predicate IsDigit(c: char) {
    '0' <= c <= '9'
  }

  function DigitChar(d: nat): (c: char)
    requires d < 10
    ensures IsDigit(c) && DigitValue(c) == d
  {
    ('0' as int + d) as char
  }

  function DigitValue(c: char): nat
    requires IsDigit(c)
  {
    c as int - '0' as int
  }

  predicate AllDigits(s: string) {
    forall i :: 0 <= i < |s| ==> IsDigit(s[i])
  }

  function ValueOf(s: string): nat
    requires AllDigits(s)
  {
    if s == [] then 0 else 10 * ValueOf(s[..|s| - 1]) + DigitValue(s[|s| - 1])
  }

  /** The shortest numeral of n. */
  function Digits(n: nat): (s: string)
    ensures AllDigits(s) && |s| >= 1
    ensures ValueOf(s) == n
  {
    if n < 10 then [DigitChar(n)]
    else
      var s := Digits(n / 10) + [DigitChar(n % 10)];
      assert s[..|s| - 1] == Digits(n / 10);
      s
  }

  function Power10(k: nat): nat
    ensures Power10(k) >= 1
  {
    if k == 0 then 1 else 10 * Power10(k - 1)
  }

  /** The last w digits of n, zero-padded. */
  function Pad(n: nat, w: nat): (s: string)
    ensures AllDigits(s) && |s| == w
    ensures n < Power10(w) ==> ValueOf(s) == n
  {
    if w == 0 then []
    else
      var s := Pad(n / 10, w - 1) + [DigitChar(n % 10)];
      assert s[..|s| - 1] == Pad(n / 10, w - 1);
      s
  }

  /** How many digits s starts with. */
  function DigitRun(s: string): (k: nat)
    ensures k <= |s| && AllDigits(s[..k])
    ensures k < |s| ==> !IsDigit(s[k])
  {
    if s == [] || !IsDigit(s[0]) then 0
    else
      var k := DigitRun(s[1..]);
      assert forall i :: 1 <= i < k + 1 ==> s[i] == s[1..][..k][i - 1];
      k + 1
  }

  lemma DigitRunOf(d: string, rest: string)
    requires AllDigits(d)
    requires rest == [] || !IsDigit(rest[0])
    ensures DigitRun(d + rest) == |d|
    ensures (d + rest)[..|d|] == d && (d + rest)[|d|..] == rest
  { }

  /** s without the zeros at its end. */
  function TrimZeros(s: string): (t: string)
    ensures |t| <= |s| && t == s[..|t|]
  {
    if s != [] && s[|s| - 1] == '0' then TrimZeros(s[..|s| - 1]) else s
  }

  /** m * 10^k. */
  function Grow(m: real, k: nat): real {
    if k == 0 then m else 10.0 * Grow(m, k - 1)
  }

  /** m / 10^k. */
  function Shift(m: real, k: nat): real {
    if k == 0 then m else Shift(m, k - 1) / 10.0
  }

  lemma ValueOfSnoc(s: string, c: char)
    requires AllDigits(s) && IsDigit(c)
    ensures AllDigits(s + [c]) && ValueOf(s + [c]) == 10 * ValueOf(s) + DigitValue(c)
  { }

  lemma {:induction false} TrimmedValue(d: string, g: string)
    requires AllDigits(d) && AllDigits(g)
    ensures AllDigits(TrimZeros(g)) && AllDigits(d + g) && AllDigits(d + TrimZeros(g))
    ensures Grow(ValueOf(d + TrimZeros(g)) as real, |g| - |TrimZeros(g)|) == ValueOf(d + g) as real
  {
    if g != [] && g[|g| - 1] == '0' {
      var h := g[..|g| - 1];
      TrimmedValue(d, h);
      assert TrimZeros(g) == TrimZeros(h);
      ValueOfSnoc(d + h, '0');
      assert d + h + ['0'] == d + g;
      assert |g| - |TrimZeros(g)| == |h| - |TrimZeros(h)| + 1;
    }
  }

  lemma {:induction false} GrowSum(m: real, j: nat, k: nat)
    ensures Grow(Grow(m, j), k) == Grow(m, j + k)
  {
    if k > 0 {
      GrowSum(m, j, k - 1);
    }
  }

  lemma {:induction false} GrowTenth(m: real, k: nat)
    requires k >= 1
    ensures Grow(m / 10.0, k) == Grow(m, k - 1)
  {
    if k > 1 {
      GrowTenth(m, k - 1);
    }
  }

  lemma {:induction false} GrowUndoesShift(m: real, f: nat, k: nat)
    requires f <= k
    ensures Grow(Shift(m, f), k) == Grow(m, k - f)
  {
    if f > 0 {
      GrowTenth(Shift(m, f - 1), k);
      GrowUndoesShift(m, f - 1, k - 1);
    }
  }

  lemma {:induction false} GrowIsProduct(q: nat, k: nat)
    ensures Grow(q as real, k) == (Power10(k) * q) as real
  {
    if k > 0 {
      GrowIsProduct(q, k - 1);
      Associate(10, Power10(k - 1), q);
    }
  }

  lemma Powers()
    ensures Power10(2) == 100 && Power10(3) == 1_000 && Power10(4) == 10_000 && Power10(6) == 1_000_000
  {
    assert Power10(1) == 10;
    assert Power10(5) == 100_000;
  }

  lemma {:induction false} PadAppends(d: string, n: nat, w: nat)
    requires AllDigits(d) && n < Power10(w)
    ensures AllDigits(d + Pad(n, w)) && ValueOf(d + Pad(n, w)) == Power10(w) * ValueOf(d) + n
  {
    if w == 0 {
      assert d + [] == d;
    } else {
      var p := d + Pad(n / 10, w - 1);
      PadAppends(d, n / 10, w - 1);
      assert d + Pad(n, w) == p + [DigitChar(n % 10)];
      ValueOfSnoc(p, DigitChar(n % 10));
      Associate(10, Power10(w - 1), ValueOf(d));
      assert ValueOf(d + Pad(n, w)) == 10 * ValueOf(p) + n % 10;
    }
  }
}
