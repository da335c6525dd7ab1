/** What rounding can and cannot do to a bill. */
module Money {
  import opened Arithmetic
  import opened Rounding
  import opened Ledger

  lemma RoundIsMonotone(n: int, m: int)
    requires n <= m
    ensures RoundSixtieth(n) <= RoundSixtieth(m)
  {
  }

  lemma ProductIsMonotone(a: int, x: int, y: int)
    requires 0 <= a && x <= y
    ensures a * x <= a * y
  {
  }

  /** Staying longer, or at a higher price, never costs less. */
  lemma FeeIsMonotone(p: int, q: int, m: int, n: int)
    requires 0 <= p <= q && 0 <= m <= n
    ensures FeeCents(p, m) <= FeeCents(q, n)
  {
    ProductIsMonotone(p, m, n);
    ProductIsMonotone(n, p, q);
    RoundIsMonotone(p * m, q * n);
  }

  /** A later end never means fewer minutes. */
  lemma MinutesAreMonotone(created: int, now: int, later: int)
    requires now <= later
    ensures Minutes(now, created) <= Minutes(later, created)
  { }

  /** The minutes counted against the time that passed: never a second too many, never a whole minute too few. */
  lemma MinutesMeasureTime(created: int, now: int)
    requires created <= now
    ensures 60_000 * Minutes(now, created) - 1_000 < now - created < 60_000 * Minutes(now, created) + 60_000
  {
  }

  predicate Increasing(times: seq<int>) {
    forall i :: 0 <= i < |times| - 1 ==> times[i] <= times[i + 1]
  }

  /** The bill for consecutive stays whose ends are the next stay's start. */
  function SplitFees(price: int, times: seq<int>): int {
    if |times| < 2 then 0
    else SplitFees(price, times[..|times| - 1]) + FeeCents(price, Minutes(times[|times| - 1], times[|times| - 2]))
  }

  function SplitMinutes(times: seq<int>): int {
    if |times| < 2 then 0
    else SplitMinutes(times[..|times| - 1]) + Minutes(times[|times| - 1], times[|times| - 2])
  }

  /** Cutting a stay into k pieces loses at most one minute per cut. */
  lemma {:induction false} SplitLosesMinutes(times: seq<int>)
    requires |times| >= 2 && Increasing(times)
    ensures SplitMinutes(times) <= Minutes(times[|times| - 1], times[0]) <= SplitMinutes(times) + (|times| - 2)
    ensures times[0] <= times[|times| - 1]
  {
    var n := |times| - 1;
    if n >= 2 {
      var init := times[..n];
      SplitLosesMinutes(init);
      assert Seconds(times[0]) <= Seconds(times[n - 1]) <= Seconds(times[n]);
    } else {
      assert SplitMinutes(times[..1]) == 0;
    }
  }

  /** A fee is within half a cent of the exact charge. */
  lemma FeeIsNearest(price: int, minutes: int)
    ensures -30 <= 60 * FeeCents(price, minutes) - price * minutes <= 30
  {
  }

  lemma {:induction false} SplitFeesBound(price: int, times: seq<int>)
    ensures |times| >= 1 ==>
              -30 * (|times| - 1) <= 60 * SplitFees(price, times) - price * SplitMinutes(times) <= 30 * (|times| - 1)
  {
    if |times| >= 2 {
      var n := |times| - 1;
      SplitFeesBound(price, times[..n]);
      var last := Minutes(times[n], times[n - 1]);
      FeeIsNearest(price, last);
      Distribute(price, SplitMinutes(times[..n]), last);
    }
  }

  /** Splitting a stay into k consecutive ones: the total falls by at most P(k-1)/60 + (k+1)/2 cents and rises by at
      most (k+1)/2. */
  lemma {:induction false} SplittingAStay(price: int, times: seq<int>)
    requires |times| >= 2 && Increasing(times) && price >= 0
    ensures var k := |times| - 1;
            var whole := FeeCents(price, Minutes(times[k], times[0]));
            -30 * (k + 1) <= 60 * (whole - SplitFees(price, times)) <= price * (k - 1) + 30 * (k + 1)
  {
    var k := |times| - 1;
    var m := Minutes(times[k], times[0]);
    var s := SplitMinutes(times);
    SplitLosesMinutes(times);
    SplitFeesBound(price, times);
    ProductIsMonotone(price, s, m);
    ProductIsMonotone(price, m, s + (k - 1));
    Distribute(price, s, k - 1);
    FeeIsNearest(price, m);
  }
}
