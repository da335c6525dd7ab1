/** What a price becomes when a C++ stream prints it: six significant digits, at the default precision. */
module Printing {
  import opened Arithmetic
  import opened Decimal

  /** How many digits of n stand beyond its sixth. */
  function Scale(n: nat): nat {
    if n < 1_000_000 then 0 else 1 + Scale(n / 10)
  }

  /** The weight of the last digit that is printed, in cents. */
  function Unit(n: nat): (u: nat)
    ensures u >= 1
  {
    Power10(Scale(n))
  }

  /** s / d rounded to an integer, halves to even. */
  function HalfEven(s: nat, d: nat): nat
    requires d >= 1
  {
    if 2 * (s % d) > d || (2 * (s % d) == d && (s / d) % 2 == 1) then s / d + 1 else s / d
  }

  const TWO52 := 0x10_0000_0000_0000

  /** n doubled until its hundredth part has 53 bits before the point. */
  function Doubled(n: nat): nat
    requires n >= 1
    decreases 100 * TWO52 - n
  {
    if n >= 100 * TWO52 then n else Doubled(2 * n)
  }

  /** The sign of what binary64 adds to n / 100. */
  function BinaryError(n: nat): int
    requires n >= 1
  {
    100 * HalfEven(Doubled(n), 100) - Doubled(n)
  }

  /** printf rounds the binary value: a decimal tie goes where the binary error points, an exact one to even. */
  predicate TieGoesUp(n: nat, q: nat)
    requires n >= 1
  {
    BinaryError(n) > 0 || (BinaryError(n) == 0 && q % 2 == 1)
  }

  /** The multiple of u that n is printed as. */
  function RoundTo(n: nat, u: nat): int
    requires u >= 1 && n >= 1
  {
    var rest := n % u;
    if 2 * rest > u || (2 * rest == u && TieGoesUp(n, n / u)) then n - rest + u else n - rest
  }

  lemma RoundToIsNearest(n: nat, u: nat)
    requires u >= 1 && n >= 1
    ensures RoundTo(n, u) == n <==> n % u == 0
    ensures 2 * RoundTo(n, u) - u <= 2 * n <= 2 * RoundTo(n, u) + u
  {
    DivMod(n, u);
  }

  /** The cents a reader finds in the text of c cents. */
  function Printed(c: int): int {
    if c == 0 then 0
    else
      var r := RoundTo(Magnitude(c), Unit(Magnitude(c)));
      if c < 0 then 0 - r else r
  }

  function Magnitude(c: int): nat {
    if c < 0 then -c else c
  }

  /** Prices that are printed without loss. */
  predicate SixDigit(c: int) {
    Printed(c) == c
  }

  /** Exactly the whole multiples of their sixth digit's weight survive. */
  lemma SixDigitIff(c: int)
    ensures SixDigit(c) <==> Magnitude(c) % Unit(Magnitude(c)) == 0
  {
    if c != 0 {
      RoundToIsNearest(Magnitude(c), Unit(Magnitude(c)));
    }
  }

  /** Below ten thousand every whole number of cents is printed exactly. */
  lemma SmallIsSixDigit(c: int)
    requires -1_000_000 < c < 1_000_000
    ensures SixDigit(c)
  {
  }

  /** Beyond that, the printed price is off by at most half of its sixth digit. */
  lemma PrintedIsNearest(c: int)
    ensures 0 - Unit(Magnitude(c)) <= 2 * (Printed(c) - c) <= Unit(Magnitude(c))
  {
    if c != 0 {
      RoundToIsNearest(Magnitude(c), Unit(Magnitude(c)));
    }
  }

  lemma {:induction false} ScaleBounds(n: nat)
    ensures Scale(n) > 0 ==> 100_000 * Unit(n) <= n
    ensures n < 1_000_000 * Unit(n)
  {
    if n >= 1_000_000 {
      ScaleBounds(n / 10);
    }
  }

  lemma {:induction false} ScaleOf(q: nat, k: nat)
    requires 100_000 <= q < 1_000_000
    ensures Scale(Power10(k) * q) == k
  {
    if k > 0 {
      Associate(10, Power10(k - 1), q);
      ScaleOf(q, k - 1);
      ProductAtLeast(q, Power10(k - 1));
    }
  }

  /** A printed price has at most six digits, so printing it again changes nothing. */
  lemma PrintedIsSixDigit(c: int)
    ensures SixDigit(Printed(c))
  {
    var n := Magnitude(c);
    if n < 1_000_000 {
      SmallIsSixDigit(c);
    } else {
      RoundedIsProduct(n);
      SixDigitIff(Printed(c));
    }
  }

  lemma RoundedIsProduct(n: nat)
    requires n >= 1_000_000
    ensures RoundTo(n, Unit(n)) >= 0 && RoundTo(n, Unit(n)) % Unit(RoundTo(n, Unit(n))) == 0
  {
    var u := Unit(n);
    ScaleBounds(n);
    QuotientBounds(n, u);
    DivMod(n, u);
    Distribute(u, n / u, 1);
    SixDigitProduct(if RoundTo(n, u) == n - n % u then n / u else n / u + 1, Scale(n));
  }

  lemma SixDigitProduct(q: nat, k: nat)
    requires 100_000 <= q <= 1_000_000
    ensures (Power10(k) * q) % Unit(Power10(k) * q) == 0
  {
    if q < 1_000_000 {
      ScaleOf(q, k);
      QuotientOf(Power10(k) * q, 0, Power10(k), q);
    } else {
      ScaleOf(100_000, k + 1);
      Associate(10, Power10(k), 100_000);
      QuotientOf(Power10(k) * q, 0, Power10(k + 1), 100_000);
    }
  }

  /** Written out, n starts with at most six digits of which it has exactly six if it is long enough. */
  lemma LeadingDigits(n: nat)
    ensures n / Unit(n) < 1_000_000
    ensures Scale(n) > 0 ==> 100_000 <= n / Unit(n)
  {
    ScaleBounds(n);
    if Scale(n) > 0 {
      QuotientBounds(n, Unit(n));
    }
  }

  lemma QuotientBounds(n: nat, u: nat)
    requires u >= 1 && 100_000 * u <= n < 1_000_000 * u
    ensures 100_000 <= n / u < 1_000_000
  {
  }

  // ---------- The rule in numbers ----------

  /** A price of more than six digits, cut after its sixth: the digits beyond decide, less than half goes down, more
      goes up. */
  lemma PrintedIs(c: nat, q: nat, k: nat, r: nat)
    requires 100_000 <= q < 1_000_000 && r < Power10(k) && c == Power10(k) * q + r
    ensures 2 * r < Power10(k) ==> Printed(c) == Power10(k) * q && Printed(0 - c) == 0 - Power10(k) * q
    ensures 2 * r > Power10(k) ==> Printed(c) == Power10(k) * q + Power10(k) && Printed(0 - c) == 0 - Printed(c)
  {
    SixthDigit(c, q, k, r);
    ProductAtLeast(q, Power10(k));
  }

  lemma {:induction false} SixthDigit(c: nat, q: nat, k: nat, r: nat)
    requires 100_000 <= q < 1_000_000 && r < Power10(k) && c == Power10(k) * q + r
    ensures Scale(c) == k && c % Unit(c) == r && c / Unit(c) == q
  {
    ScaleWithRest(c, q, k, r);
    QuotientOf(c, r, Power10(k), q);
  }

  lemma {:induction false} ScaleWithRest(c: nat, q: nat, k: nat, r: nat)
    requires 100_000 <= q < 1_000_000 && r < Power10(k) && c == Power10(k) * q + r
    ensures Scale(c) == k
    decreases k
  {
    if k > 0 {
      Associate(10, Power10(k - 1), q);
      ProductAtLeast(q, Power10(k - 1));
      assert c / 10 == Power10(k - 1) * q + r / 10;
      ScaleWithRest(c / 10, q, k - 1, r / 10);
    }
  }

  /** Exactly half: what counts is the double that stands for the price. If that is more than the price the sixth digit
      goes up, if less it stays, and if it is the price itself the even digit wins. */
  lemma TiePrinted(c: nat, q: nat, k: nat)
    requires 100_000 <= q < 1_000_000 && k >= 1 && 2 * c == Power10(k) * (2 * q + 1)
    ensures Printed(c) == Power10(k) * q +
              if BinaryError(c) > 0 || (BinaryError(c) == 0 && q % 2 == 1) then Power10(k) else 0
  {
    var r := Power10(k - 1) * 5;
    Distribute(Power10(k), 2 * q, 1);
    Associate(2, Power10(k), q);
    assert Power10(k) * (2 * q) == 2 * (Power10(k) * q);
    SixthDigit(c, q, k, r);
    ProductAtLeast(q, Power10(k));
  }

  lemma HalfEvenIs(s: nat, d: nat)
    requires d >= 1
    ensures 0 - d <= 2 * (d * HalfEven(s, d) - s) <= d
    ensures 2 * (d * HalfEven(s, d) - s) == d || 2 * (d * HalfEven(s, d) - s) == 0 - d ==> HalfEven(s, d) % 2 == 0
  {
    DivMod(s, d);
    Distribute(d, s / d, 1);
  }

  lemma {:induction false} DoubledIs(n: nat) returns (j: nat)
    requires n >= 1
    ensures Doubled(n) == Twofold(n, j) && Doubled(n) >= 100 * TWO52
    ensures n < 200 * TWO52 ==> Doubled(n) < 200 * TWO52
    decreases 100 * TWO52 - n
  {
    j := 0;
    if n < 100 * TWO52 {
      var i := DoubledIs(2 * n);
      j := i + 1;
    }
  }

  /** n * 2^j. */
  function Twofold(n: nat, j: nat): nat
    decreases j
  {
    if j == 0 then n else Twofold(2 * n, j - 1)
  }

  /** The double nearest to c cents has 53 bits: at the power of two where c / 100 has as many, it is the nearest whole
      number, an even one if two are as near, and the error is what that adds, in hundredths. */
  lemma BinaryErrorIs(c: nat) returns (j: nat, significand: nat)
    requires 1 <= c < 200 * TWO52
    ensures 0x10_0000_0000_0000 * 100 <= Twofold(c, j) < 0x20_0000_0000_0000 * 100
    ensures BinaryError(c) == 100 * significand - Twofold(c, j) && -50 <= BinaryError(c) <= 50
    ensures BinaryError(c) == 50 || BinaryError(c) == -50 ==> significand % 2 == 0
  {
    j := DoubledIs(c);
    significand := HalfEven(Doubled(c), 100);
    HalfEvenIs(Doubled(c), 100);
  }
}
