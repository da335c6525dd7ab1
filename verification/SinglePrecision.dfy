/** The number four bytes in memory stand for as a float, on a little-endian host. */
module SinglePrecision {
  import opened Rounding
  import opened Octets

  /** m * 2^k. */
  function Double(m: real, k: nat): real {
    if k == 0 then m else 2.0 * Double(m, k - 1)
  }

  /** m / 2^k. */
  function Halve(m: real, k: nat): real {
    if k == 0 then m else Halve(m, k - 1) / 2.0
  }

  predicate Negative(b: seq<Byte>)
    requires |b| == 4
  {
    b[3] >= 128
  }

  function Exponent(b: seq<Byte>): (e: nat)
    requires |b| == 4
    ensures e < 256
  {
    2 * (b[3] as int % 128) + b[2] / 128
  }

  function Fraction(b: seq<Byte>): (m: nat)
    requires |b| == 4
    ensures m < 0x80_0000
  {
    0x1_0000 * (b[2] as int % 128) + 0x100 * (b[1] as int) + b[0]
  }

  /** All exponents but the largest stand for numbers. */
  predicate Finite(b: seq<Byte>)
    requires |b| == 4
  {
    Exponent(b) < 255
  }

  function FloatValue(b: seq<Byte>): real
    requires |b| == 4 && Finite(b)
  {
    if Negative(b) then -Magnitude(b) else Magnitude(b)
  }

  function Magnitude(b: seq<Byte>): real
    requires |b| == 4 && Finite(b)
  {
    var e := Exponent(b);
    var m := if e == 0 then Fraction(b) else 0x80_0000 + Fraction(b);
    var k := if e == 0 then 1 else e;
    if k >= 150 then Double(m as real, k - 150) else Halve(m as real, 150 - k)
  }

  /** The 24-bit significand of a float that is not tiny. */
  function Significand(b: seq<Byte>): nat
    requires |b| == 4
  {
    0x80_0000 + Fraction(b)
  }

  lemma HalveOften(m: real)
    ensures Halve(m, 18) == m / 262144.0 && Halve(m, 19) == m / 524288.0
  {
    assert Halve(m, 1) == m / 2.0;
    assert Halve(m, 2) == m / 4.0;
    assert Halve(m, 4) == m / 16.0;
    assert Halve(m, 6) == m / 64.0;
    assert Halve(m, 8) == m / 256.0;
    assert Halve(m, 10) == m / 1024.0;
    assert Halve(m, 12) == m / 4096.0;
    assert Halve(m, 14) == m / 16384.0;
    assert Halve(m, 16) == m / 65536.0;
  }

  /** Between 16 and 64. */
  lemma MiddleFloats(b: seq<Byte>)
    requires |b| == 4 && !Negative(b)
    ensures Exponent(b) == 131 ==> FloatValue(b) == Significand(b) as real / 524288.0
    ensures Exponent(b) == 132 ==> FloatValue(b) == Significand(b) as real / 262144.0
  {
    HalveOften(Significand(b) as real);
  }

  /** The float nearest to milli thousandths between 16 and 64, in integers. */
  predicate IsNearest(b: seq<Byte>, milli: int)
    requires |b| == 4
  {
    && !Negative(b)
    && if Exponent(b) == 131 then -500 <= 1000 * Significand(b) - 524288 * milli <= 500
       else Exponent(b) == 132 && -500 <= 1000 * Significand(b) - 262144 * milli <= 500
  }

  lemma NearestIsClose(b: seq<Byte>, milli: int)
    requires |b| == 4 && IsNearest(b, milli)
    ensures Finite(b) && Abs(FloatValue(b) - milli as real / 1000.0) * 524288.0 <= 1.0
  {
    MiddleFloats(b);
  }

  lemma {:induction false} HalveShrinks(m: real, j: nat, k: nat)
    requires m >= 0.0 && j <= k
    ensures 0.0 <= Halve(m, k) <= Halve(m, j)
    decreases k
  {
    if j < k {
      HalveShrinks(m, j, k - 1);
    } else if k > 0 {
      HalveShrinks(m, k - 1, k - 1);
    }
  }

  lemma {:induction false} DoubleGrows(m: real, k: nat)
    requires m >= 0.0
    ensures Double(m, k) >= m
  {
    if k > 0 {
      DoubleGrows(m, k - 1);
    }
  }

  lemma HalveMore(m: real)
    ensures Halve(m, 16) == m / 65536.0 && Halve(m, 20) == m / 1048576.0
  {
    HalveOften(m);
    assert Halve(m, 17) == m / 131072.0;
    assert Halve(m, 16) == 2.0 * Halve(m, 17);
  }

  /** A float is of size 16 to 128 exactly by its exponent. */
  lemma SizeByExponent(b: seq<Byte>)
    requires |b| == 4 && Finite(b)
    ensures Exponent(b) < 131 ==> Abs(FloatValue(b)) < 16.0
    ensures Exponent(b) >= 134 ==> Abs(FloatValue(b)) >= 128.0
  {
    var e := Exponent(b);
    var m := if e == 0 then Fraction(b) else Significand(b);
    var k := if e == 0 then 1 else e;
    HalveMore(m as real);
    if k < 131 {
      HalveShrinks(m as real, 20, 150 - k);
    } else if k >= 150 {
      DoubleGrows(m as real, k - 150);
    } else if k >= 134 {
      HalveShrinks(m as real, 150 - k, 16);
    }
  }

  // ---------- The format, bit by bit ----------

  /** The top bit of the last byte in memory is the sign, and nothing but the sign. */
  lemma SignBit(b: seq<Byte>, p: seq<Byte>)
    requires |b| == 4 && Finite(b) && b[3] >= 128 && p == b[3 := b[3] - 128]
    ensures Finite(p) && FloatValue(b) == -FloatValue(p) && FloatValue(p) >= 0.0 >= FloatValue(b)
  {
    SameMagnitude(b, p);
    MagnitudeIsNatural(p);
  }

  lemma NoSignBit(b: seq<Byte>)
    requires |b| == 4 && Finite(b) && b[3] < 128
    ensures FloatValue(b) >= 0.0
  {
    MagnitudeIsNatural(b);
  }

  lemma MagnitudeIsNatural(b: seq<Byte>)
    requires |b| == 4 && Finite(b)
    ensures Magnitude(b) >= 0.0
  {
    var e := Exponent(b);
    var m := if e == 0 then Fraction(b) else Significand(b);
    var k := if e == 0 then 1 else e;
    if k >= 150 {
      DoubleGrows(m as real, k - 150);
    } else {
      HalveShrinks(m as real, 150 - k, 150 - k);
    }
  }

  lemma SameMagnitude(a: seq<Byte>, b: seq<Byte>)
    requires |a| == |b| == 4 && Finite(a) && b == a[3 := b[3]] && a[3] as int % 128 == b[3] as int % 128
    ensures Finite(b) && Magnitude(a) == Magnitude(b)
  {
    assert Exponent(a) == Exponent(b) && Fraction(a) == Fraction(b);
  }

  /** Only the two zeros have no sign. */
  lemma {:induction false} HalvePositive(m: real, k: nat)
    requires m > 0.0
    ensures Halve(m, k) > 0.0
  {
    if k > 0 {
      HalvePositive(m, k - 1);
    }
  }

  lemma SignDecides(b: seq<Byte>)
    requires |b| == 4 && Finite(b) && Exponent(b) > 0
    ensures FloatValue(b) < 0.0 <==> b[3] >= 128
    ensures FloatValue(b) != 0.0
  {
    var e, m := Exponent(b), Significand(b) as real;
    if e >= 150 {
      DoubleGrows(m, e - 150);
    } else {
      HalvePositive(m, 150 - e);
    }
  }

  /** One is one. */
  lemma OneIsOne()
    ensures var b: seq<Byte> := [0x00, 0x00, 0x80, 0x3F]; Exponent(b) == 127 && FloatValue(b) == 1.0
  {
    var b: seq<Byte> := [0x00, 0x00, 0x80, 0x3F];
    assert Exponent(b) == 127 && Fraction(b) == 0;
    HalveOften(8388608.0);
    assert Halve(8388608.0, 19) == 16.0;
    assert Halve(8388608.0, 21) == 4.0;
    assert Halve(8388608.0, 23) == 1.0;
  }

  /** From there on: one more in the exponent doubles the number, as long as it is not tiny. */
  lemma ExponentDoubles(a: seq<Byte>, b: seq<Byte>)
    requires |a| == |b| == 4 && Finite(b) && 0 < Exponent(a) && Exponent(b) == Exponent(a) + 1
    requires Fraction(a) == Fraction(b) && (a[3] >= 128 <==> b[3] >= 128)
    ensures FloatValue(b) == 2.0 * FloatValue(a)
  {
    var e, m := Exponent(a), Significand(a) as real;
    if e >= 150 {
      assert Double(m, e - 149) == 2.0 * Double(m, e - 150);
    } else {
      assert Halve(m, 150 - e) == Halve(m, 149 - e) / 2.0;
    }
  }

  lemma {:induction false} DoubleAdds(m: real, n: real, k: nat)
    ensures Double(m + n, k) == Double(m, k) + Double(n, k)
    ensures Double(8388608.0 * m, k) == 8388608.0 * Double(m, k)
  {
    if k > 0 {
      DoubleAdds(m, n, k - 1);
    }
  }

  lemma {:induction false} HalveAdds(m: real, n: real, k: nat)
    ensures Halve(m + n, k) == Halve(m, k) + Halve(n, k)
    ensures Halve(8388608.0 * m, k) == 8388608.0 * Halve(m, k)
  {
    if k > 0 {
      HalveAdds(m, n, k - 1);
    }
  }

  /** The magnitude of a significand m at exponent k. */
  function Scaled(m: real, k: nat): real {
    if k >= 150 then Double(m, k - 150) else Halve(m, 150 - k)
  }

  lemma ScaledAdds(m: real, n: real, k: nat)
    requires k <= 255
    ensures Scaled(m + n, k) == Scaled(m, k) + Scaled(n, k)
    ensures Scaled(8388608.0 * m, k) == 8388608.0 * Scaled(m, k)
  {
    if k >= 150 {
      DoubleAdds(m, n, k - 150);
    } else {
      HalveAdds(m, n, 150 - k);
    }
  }

  lemma MagnitudeIsScaled(b: seq<Byte>)
    requires |b| == 4 && Finite(b)
    ensures Exponent(b) > 0 ==> Magnitude(b) == Scaled((8388608 + Fraction(b)) as real, Exponent(b))
    ensures Exponent(b) == 0 ==> Magnitude(b) == Scaled(Fraction(b) as real, 1)
  {
  }

  /** Within one exponent the numbers are evenly spaced, by the number with fraction zero over two to the
      twenty-third. */
  lemma FractionsAreEven(a: seq<Byte>, b: seq<Byte>, c: seq<Byte>)
    requires |a| == |b| == |c| == 4 && Finite(a) && Exponent(a) == Exponent(b) == Exponent(c) > 0
    requires a[3] < 128 && b[3] < 128 && c[3] < 128 && Fraction(a) == 0 && Fraction(c) == Fraction(b) + 1
    ensures 8388608.0 * (FloatValue(c) - FloatValue(b)) == FloatValue(a)
  {
    MagnitudeIsScaled(a);
    MagnitudeIsScaled(b);
    MagnitudeIsScaled(c);
    ScaledAdds((8388608 + Fraction(b)) as real, 1.0, Exponent(a));
    ScaledAdds(1.0, 0.0, Exponent(a));
    assert (8388608 + Fraction(c)) as real == (8388608 + Fraction(b)) as real + 1.0;
  }

  /** The tiny numbers continue the spacing of the smallest exponent down to zero. */
  lemma TinyAreEven(a: seq<Byte>, b: seq<Byte>, c: seq<Byte>)
    requires |a| == |b| == |c| == 4 && Exponent(a) == 1 && Exponent(b) == Exponent(c) == 0
    requires a[3] < 128 && b[3] < 128 && c[3] < 128 && Fraction(a) == 0 && Fraction(c) == Fraction(b) + 1
    ensures 8388608.0 * (FloatValue(c) - FloatValue(b)) == FloatValue(a)
    ensures Fraction(b) == 0 ==> FloatValue(b) == 0.0
  {
    MagnitudeIsScaled(a);
    MagnitudeIsScaled(b);
    MagnitudeIsScaled(c);
    ScaledAdds(Fraction(b) as real, 1.0, 1);
    ScaledAdds(1.0, 0.0, 1);
    ScaledAdds(0.0, 0.0, 1);
  }
}
