/** Rounding as the C++ and SQL code does it, on exact numbers. */
module Rounding {

  /** std::round: the nearest integer, halves away from zero. */
  function RoundReal(v: real): (q: int)
    ensures v >= 0.0 ==> q as real - 0.5 <= v < q as real + 0.5
    ensures v < 0.0 ==> q as real - 0.5 < v <= q as real + 0.5
  {
    if v >= 0.0 then (v + 0.5).Floor else -((0.5 - v).Floor)
  }

  /** std::round(n / 60.0): the nearest integer, halves away from zero. */
  function RoundSixtieth(n: int): (q: int)
    ensures n >= 0 ==> 60 * q - 30 <= n < 60 * q + 30
    ensures n < 0 ==> 60 * q - 30 < n <= 60 * q + 30
  {
    if n >= 0 then (n + 30) / 60 else -((30 - n) / 60)
  }

  /** SQL integer division by 60: truncation toward zero. */
  function TruncSixtieth(n: int): (q: int)
    ensures n >= 0 ==> 60 * q <= n < 60 * q + 60
    ensures n < 0 ==> 60 * q - 60 < n <= 60 * q
  {
    if n >= 0 then n / 60 else -((-n) / 60)
  }

  function Abs(v: real): real {
    if v < 0.0 then -v else v
  }

  /** The number of thousandths nearest to v. */
  function Milli(v: real): int {
    RoundReal(v * 1000.0)
  }

  /** round3: v rounded to three decimals. */
  function Round3(v: real): real {
    Milli(v) as real / 1000.0
  }

  /** v is a whole number of thousandths. */
  predicate OnGrid(v: real) {
    v == Milli(v) as real / 1000.0
  }

  /** The tolerance test of every coordinate query. */
  predicate Near(a: real, b: real) {
    Abs(a - b) < 0.0001
  }

  lemma Round3OnGrid(v: real)
    ensures OnGrid(Round3(v)) && Milli(Round3(v)) == Milli(v)
    ensures Abs(Round3(v) - v) <= 0.0005
  { }

  /** Single-precision noise below half a thousandth disappears. */
  lemma RoundAbsorbsNoise(v: real, m: int)
    requires Abs(v - m as real / 1000.0) < 0.0005
    ensures Milli(v) == m
  { }

  /** After round3 the tolerance is exact equality of thousandths. */
  lemma NearOnGridIsEqual(a: real, b: real)
    requires OnGrid(a) && OnGrid(b)
    ensures Near(a, b) <==> Milli(a) == Milli(b)
    ensures Milli(a) == Milli(b) <==> a == b
  { }

  /** Off the grid the tolerance is not transitive, so it is no notion of sameness. */
  lemma NearIsNotTransitive() returns (a: real, b: real, c: real)
    ensures Near(a, b) && Near(b, c) && !Near(a, c)
  {
    a, b, c := 0.0, 0.00006, 0.00012;
  }

  lemma RoundRealIs(w: real, k: int)
    ensures w >= 0.0 ==> (RoundReal(w) == k <==> k as real - 0.5 <= w < k as real + 0.5)
    ensures w < 0.0 ==> (RoundReal(w) == k <==> k as real - 0.5 < w <= k as real + 0.5)
  {
  }

  /** The rounded coordinate is the nearest thousandth, the one away from zero if two are as near. */
  lemma Round3Is(v: real, k: int)
    requires Round3(v) == k as real / 1000.0
    ensures v >= 0.0 ==> k as real - 0.5 <= 1000.0 * v < k as real + 0.5
    ensures v < 0.0 ==> k as real - 0.5 < 1000.0 * v <= k as real + 0.5
  {
    assert Milli(v) == k;
    RoundRealIs(v * 1000.0, k);
  }
}
