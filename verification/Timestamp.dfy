/** current_local_time: the timestamp text, and why comparing texts compares times. */
module Timestamp {
  import opened Decimal

  datatype Stamp = Stamp(year: nat, month: nat, day: nat, hour: nat, minute: nat, second: nat, ms: nat)

  predicate Leap(y: nat) {
    y % 4 == 0 && (y % 100 != 0 || y % 400 == 0)
  }

  function MonthLength(m: nat, leap: bool): nat
    requires 1 <= m <= 12
  {
    if m == 2 then (if leap then 29 else 28)
    else if m == 4 || m == 6 || m == 9 || m == 11 then 30
    else 31
  }

  predicate Valid(s: Stamp) {
    && s.year < 10000
    && 1 <= s.month <= 12
    && 1 <= s.day <= MonthLength(s.month, Leap(s.year))
    && s.hour < 24 && s.minute < 60 && s.second < 60 && s.ms < 1000
  }

  // ---------- The text ----------

  /** One zero-padded number and the text after it. */
  datatype Field = Field(value: nat, width: nat, sep: string)

  predicate Fits(f: Field) {
    f.value < Power10(f.width)
  }

  predicate AllFit(fs: seq<Field>) {
    fs == [] || (Fits(fs[0]) && AllFit(fs[1..]))
  }

  function FieldsText(fs: seq<Field>): string
    requires AllFit(fs)
  {
    if fs == [] then "" else Pad(fs[0].value, fs[0].width) + fs[0].sep + FieldsText(fs[1..])
  }

  /** "%04d-%02d-%02d %02d:%02d:%02d.%03d". */
  function FieldsOf(s: Stamp): seq<Field> {
    [Field(s.year, 4, "-")] + ([Field(s.month, 2, "-")] + ([Field(s.day, 2, " ")] + ([Field(s.hour, 2, ":")] +
    ([Field(s.minute, 2, ":")] + ([Field(s.second, 2, ".")] + ([Field(s.ms, 3, "")] + []))))))
  }

  lemma ConsFits(f: Field, fs: seq<Field>)
    requires Fits(f) && AllFit(fs)
    ensures AllFit([f] + fs)
  { }

  lemma StampFits(s: Stamp)
    requires Valid(s)
    ensures AllFit(FieldsOf(s))
  {
    Powers();
    var f7 := [Field(s.ms, 3, "")] + [];
    ConsFits(Field(s.ms, 3, ""), []);
    var f6 := [Field(s.second, 2, ".")] + f7;
    ConsFits(Field(s.second, 2, "."), f7);
    var f5 := [Field(s.minute, 2, ":")] + f6;
    ConsFits(Field(s.minute, 2, ":"), f6);
    var f4 := [Field(s.hour, 2, ":")] + f5;
    ConsFits(Field(s.hour, 2, ":"), f5);
    var f3 := [Field(s.day, 2, " ")] + f4;
    ConsFits(Field(s.day, 2, " "), f4);
    var f2 := [Field(s.month, 2, "-")] + f3;
    ConsFits(Field(s.month, 2, "-"), f3);
    ConsFits(Field(s.year, 4, "-"), f2);
  }

  function Text(s: Stamp): string
    requires Valid(s)
  {
    StampFits(s);
    FieldsText(FieldsOf(s))
  }

  // ---------- The order of texts ----------

  /** The database's text comparison: byte by byte from the left, a proper prefix first. */
  predicate LexLess(s: string, t: string) {
    t != [] && (s == [] || s[0] < t[0] || (s[0] == t[0] && LexLess(s[1..], t[1..])))
  }

  lemma {:induction false} ConcatOrder(a: string, b: string, s: string, t: string)
    requires |a| == |b|
    ensures LexLess(a + s, b + t) <==> LexLess(a, b) || (a == b && LexLess(s, t))
    ensures a + s == b + t <==> a == b && s == t
    decreases |a|
  {
    if a == [] {
      assert a + s == s && b + t == t;
    } else {
      assert (a + s)[1..] == a[1..] + s && (b + t)[1..] == b[1..] + t;
      ConcatOrder(a[1..], b[1..], s, t);
      assert a == [a[0]] + a[1..] && b == [b[0]] + b[1..];
      if a + s == b + t {
        assert (a + s)[0] == (b + t)[0];
      }
    }
  }

  lemma DigitOrder(a: nat, b: nat)
    requires a < 10 && b < 10
    ensures DigitChar(a) < DigitChar(b) <==> a < b
    ensures LexLess([DigitChar(a)], [DigitChar(b)]) <==> a < b
    ensures [DigitChar(a)] == [DigitChar(b)] <==> a == b
  { }

  /** Zero-padded numbers of one width compare as numbers. */
  lemma {:induction false} PadOrder(m: nat, n: nat, w: nat)
    requires m < Power10(w) && n < Power10(w)
    ensures LexLess(Pad(m, w), Pad(n, w)) <==> m < n
    ensures Pad(m, w) == Pad(n, w) <==> m == n
    decreases w
  {
    if w > 0 {
      assert m / 10 < Power10(w - 1) && n / 10 < Power10(w - 1);
      assert Pad(m, w) == Pad(m / 10, w - 1) + [DigitChar(m % 10)];
      assert Pad(n, w) == Pad(n / 10, w - 1) + [DigitChar(n % 10)];
      PadOrder(m / 10, n / 10, w - 1);
      DigitOrder(m % 10, n % 10);
      ConcatOrder(Pad(m / 10, w - 1), Pad(n / 10, w - 1), [DigitChar(m % 10)], [DigitChar(n % 10)]);
    }
  }

  predicate SameShape(fs: seq<Field>, gs: seq<Field>) {
    if fs == [] then gs == []
    else gs != [] && fs[0].width == gs[0].width && fs[0].sep == gs[0].sep && SameShape(fs[1..], gs[1..])
  }

  /** Field by field, most significant first. */
  predicate FieldsLess(fs: seq<Field>, gs: seq<Field>)
    requires SameShape(fs, gs)
  {
    fs != [] &&
    (fs[0].value < gs[0].value || (fs[0].value == gs[0].value && FieldsLess(fs[1..], gs[1..])))
  }

  lemma {:induction false} FieldsTextOrder(fs: seq<Field>, gs: seq<Field>)
    requires AllFit(fs) && AllFit(gs) && SameShape(fs, gs)
    ensures LexLess(FieldsText(fs), FieldsText(gs)) <==> FieldsLess(fs, gs)
    ensures FieldsText(fs) == FieldsText(gs) <==> fs == gs
    decreases |fs|
  {
    if fs != [] {
      var f, g := fs[0], gs[0];
      var s, t := FieldsText(fs[1..]), FieldsText(gs[1..]);
      FieldsTextOrder(fs[1..], gs[1..]);
      PadOrder(f.value, g.value, f.width);
      ConcatOrder(Pad(f.value, f.width), Pad(g.value, g.width), f.sep + s, g.sep + t);
      ConcatOrder(f.sep, g.sep, s, t);
      NotLess(f.sep);
      assert Pad(f.value, f.width) + f.sep + s == Pad(f.value, f.width) + (f.sep + s);
      assert Pad(g.value, g.width) + g.sep + t == Pad(g.value, g.width) + (g.sep + t);
      assert fs == [f] + fs[1..] && gs == [g] + gs[1..];
    }
  }

  lemma {:induction false} NotLess(s: string)
    ensures !LexLess(s, s)
  {
    if s != [] {
      NotLess(s[1..]);
    }
  }

  lemma ConsLess(f: Field, g: Field, fs: seq<Field>, gs: seq<Field>)
    requires SameShape(fs, gs) && f.width == g.width && f.sep == g.sep
    ensures SameShape([f] + fs, [g] + gs)
    ensures FieldsLess([f] + fs, [g] + gs) <==> f.value < g.value || (f.value == g.value && FieldsLess(fs, gs))
  { }

  /** The tuple order on date and time fields. */
  predicate Earlier(s: Stamp, t: Stamp) {
    s.year < t.year || (s.year == t.year &&
    (s.month < t.month || (s.month == t.month &&
    (s.day < t.day || (s.day == t.day &&
    (s.hour < t.hour || (s.hour == t.hour &&
    (s.minute < t.minute || (s.minute == t.minute &&
    (s.second < t.second || (s.second == t.second &&
    s.ms < t.ms)))))))))))
  }

  lemma StampFieldsLess(s: Stamp, t: Stamp)
    ensures SameShape(FieldsOf(s), FieldsOf(t))
    ensures FieldsLess(FieldsOf(s), FieldsOf(t)) <==> Earlier(s, t)
  {
    var f7, g7 := [Field(s.ms, 3, "")] + [], [Field(t.ms, 3, "")] + [];
    ConsLess(Field(s.ms, 3, ""), Field(t.ms, 3, ""), [], []);
    var f6, g6 := [Field(s.second, 2, ".")] + f7, [Field(t.second, 2, ".")] + g7;
    ConsLess(Field(s.second, 2, "."), Field(t.second, 2, "."), f7, g7);
    var f5, g5 := [Field(s.minute, 2, ":")] + f6, [Field(t.minute, 2, ":")] + g6;
    ConsLess(Field(s.minute, 2, ":"), Field(t.minute, 2, ":"), f6, g6);
    var f4, g4 := [Field(s.hour, 2, ":")] + f5, [Field(t.hour, 2, ":")] + g5;
    ConsLess(Field(s.hour, 2, ":"), Field(t.hour, 2, ":"), f5, g5);
    var f3, g3 := [Field(s.day, 2, " ")] + f4, [Field(t.day, 2, " ")] + g4;
    ConsLess(Field(s.day, 2, " "), Field(t.day, 2, " "), f4, g4);
    var f2, g2 := [Field(s.month, 2, "-")] + f3, [Field(t.month, 2, "-")] + g3;
    ConsLess(Field(s.month, 2, "-"), Field(t.month, 2, "-"), f3, g3);
    ConsLess(Field(s.year, 4, "-"), Field(t.year, 4, "-"), f2, g2);
  }

  lemma FieldsDetermineStamp(s: Stamp, t: Stamp)
    requires FieldsOf(s) == FieldsOf(t)
    ensures s == t
  {
    var f, g := FieldsOf(s), FieldsOf(t);
    assert f[0] == g[0] && f[1] == g[1] && f[2] == g[2] && f[3] == g[3] && f[4] == g[4] && f[5] == g[5] && f[6] == g[6];
  }

  // ---------- The order of instants ----------

  /** Days from the start of year 0 to the start of year y. */
  function YearStart(y: nat): int {
    365 * y + (y + 3) / 4 - (y + 99) / 100 + (y + 399) / 400
  }

  function MonthStart(m: nat, leap: bool): nat
    requires 1 <= m <= 12
  {
    if m == 1 then 0 else MonthStart(m - 1, leap) + MonthLength(m - 1, leap)
  }

  function DayNumber(s: Stamp): int
    requires Valid(s)
  {
    YearStart(s.year) + MonthStart(s.month, Leap(s.year)) + s.day - 1
  }

  /** Milliseconds from the start of year 0, the scale the ledger's times are on. */
  function Instant(s: Stamp): int
    requires Valid(s)
  {
    (((DayNumber(s) * 24 + s.hour) * 60 + s.minute) * 60 + s.second) * 1000 + s.ms
  }

  lemma NextFourth(y: nat)
    ensures (y + 4) / 4 == (y + 3) / 4 + if y % 4 == 0 then 1 else 0
  {
  }

  lemma NextCentury(y: nat)
    ensures (y + 100) / 100 == (y + 99) / 100 + if y % 100 == 0 then 1 else 0
  {
  }

  lemma NextFourCenturies(y: nat)
    ensures (y + 400) / 400 == (y + 399) / 400 + if y % 400 == 0 then 1 else 0
  {
  }

  lemma YearLength(y: nat)
    ensures YearStart(y + 1) == YearStart(y) + if Leap(y) then 366 else 365
  {
    NextFourth(y);
    NextCentury(y);
    NextFourCenturies(y);
    CenturiesAreFours(y);
  }

  lemma MultipleOfFour(q: nat)
    ensures (4 * q) % 4 == 0
  {
  }

  lemma MultipleOfHundred(q: nat)
    ensures (100 * q) % 100 == 0
  {
  }

  lemma CenturiesAreFours(y: nat)
    ensures y % 100 == 0 ==> y % 4 == 0
    ensures y % 400 == 0 ==> y % 100 == 0
  {
    if y % 100 == 0 {
      MultipleOfFour(25 * (y / 100));
    }
    if y % 400 == 0 {
      MultipleOfHundred(4 * (y / 400));
    }
  }

  lemma {:induction false} YearsAscend(y: nat, z: nat)
    requires y < z
    ensures YearStart(y) + (if Leap(y) then 366 else 365) <= YearStart(z)
    decreases z
  {
    YearLength(z - 1);
    if y < z - 1 {
      YearsAscend(y, z - 1);
    }
  }

  lemma {:induction false} MonthsAscend(m: nat, n: nat, leap: bool)
    requires 1 <= m < n <= 12
    ensures MonthStart(m, leap) + MonthLength(m, leap) <= MonthStart(n, leap)
    decreases n
  {
    if m < n - 1 {
      MonthsAscend(m, n - 1, leap);
    }
  }

  lemma DayInYear(s: Stamp)
    requires Valid(s)
    ensures 0 <= DayNumber(s) - YearStart(s.year) < if Leap(s.year) then 366 else 365
  {
    var leap := Leap(s.year);
    YearEnds(leap);
    if s.month < 12 {
      MonthsAscend(s.month, 12, leap);
    }
  }

  lemma YearEnds(leap: bool)
    ensures MonthStart(12, leap) == if leap then 335 else 334
  {
    var february := if leap then 29 else 28;
    assert MonthStart(2, leap) == MonthStart(1, leap) + 31;
    assert MonthStart(4, leap) == MonthStart(3, leap) + 31 == MonthStart(2, leap) + february + 31;
    assert MonthStart(6, leap) == MonthStart(5, leap) + 31 == MonthStart(4, leap) + 61;
    assert MonthStart(8, leap) == MonthStart(7, leap) + 31 == MonthStart(6, leap) + 61;
    assert MonthStart(10, leap) == MonthStart(9, leap) + 30 == MonthStart(8, leap) + 61;
    assert MonthStart(12, leap) == MonthStart(11, leap) + 30 == MonthStart(10, leap) + 61;
  }

  lemma EarlierDay(s: Stamp, t: Stamp)
    requires Valid(s) && Valid(t)
    requires s.year < t.year || (s.year == t.year && (s.month < t.month || (s.month == t.month && s.day < t.day)))
    ensures DayNumber(s) < DayNumber(t)
  {
    if s.year < t.year {
      DayInYear(s);
      DayInYear(t);
      YearsAscend(s.year, t.year);
    } else if s.month < t.month {
      MonthsAscend(s.month, t.month, Leap(s.year));
    }
  }

  lemma EarlierInstant(s: Stamp, t: Stamp)
    requires Valid(s) && Valid(t) && Earlier(s, t)
    ensures Instant(s) < Instant(t)
  {
    if s.year == t.year && s.month == t.month && s.day == t.day {
      assert DayNumber(s) == DayNumber(t);
    } else {
      EarlierDay(s, t);
    }
  }

  /** Timestamps compare as texts exactly as they compare as instants, and no two share a text. */
  lemma TextOrderIsTimeOrder(s: Stamp, t: Stamp)
    requires Valid(s) && Valid(t)
    ensures LexLess(Text(s), Text(t)) <==> Earlier(s, t)
    ensures LexLess(Text(s), Text(t)) <==> Instant(s) < Instant(t)
    ensures Text(s) == Text(t) <==> s == t
  {
    StampFits(s);
    StampFits(t);
    StampFieldsLess(s, t);
    FieldsTextOrder(FieldsOf(s), FieldsOf(t));
    if FieldsOf(s) == FieldsOf(t) {
      FieldsDetermineStamp(s, t);
    }
    TimeIsTotal(s, t);
  }

  lemma TimeIsTotal(s: Stamp, t: Stamp)
    requires Valid(s) && Valid(t)
    ensures Earlier(s, t) <==> Instant(s) < Instant(t)
  {
    if Earlier(s, t) {
      EarlierInstant(s, t);
    } else if Earlier(t, s) {
      EarlierInstant(t, s);
    } else {
      assert s == t;
    }
  }

  /** ORDER BY created_at DESC: a row that no other follows in text is one that no other follows in time. */
  lemma TextDescendingPicksLatest(stamps: seq<Stamp>, i: nat)
    requires i < |stamps| && forall j :: 0 <= j < |stamps| ==> Valid(stamps[j])
    ensures (forall j :: 0 <= j < |stamps| ==> !LexLess(Text(stamps[i]), Text(stamps[j]))) <==>
            (forall j :: 0 <= j < |stamps| ==> Instant(stamps[j]) <= Instant(stamps[i]))
  {
    forall j | 0 <= j < |stamps|
      ensures !LexLess(Text(stamps[i]), Text(stamps[j])) <==> Instant(stamps[j]) <= Instant(stamps[i])
    {
      TextOrderIsTimeOrder(stamps[i], stamps[j]);
    }
  }

  lemma ConsText(f: Field, fs: seq<Field>)
    requires Fits(f) && AllFit(fs)
    ensures AllFit([f] + fs) && FieldsText([f] + fs) == Pad(f.value, f.width) + f.sep + FieldsText(fs)
  {
    assert ([f] + fs)[1..] == fs;
  }

  /** The text, part by part, as in 2024-01-31 23:59:59.999. */
  lemma {:induction false} TextLayout(s: Stamp)
    requires Valid(s)
    ensures Text(s) == Pad(s.year, 4) + "-" + (Pad(s.month, 2) + "-" + (Pad(s.day, 2) + " " + (Pad(s.hour, 2) + ":" +
                       (Pad(s.minute, 2) + ":" + (Pad(s.second, 2) + "." + (Pad(s.ms, 3) + "" + ""))))))
    ensures |Text(s)| == 23
  {
    Powers();
    StampFits(s);
    var f7 := [Field(s.ms, 3, "")] + [];
    ConsText(Field(s.ms, 3, ""), []);
    var f6 := [Field(s.second, 2, ".")] + f7;
    ConsText(Field(s.second, 2, "."), f7);
    var f5 := [Field(s.minute, 2, ":")] + f6;
    ConsText(Field(s.minute, 2, ":"), f6);
    var f4 := [Field(s.hour, 2, ":")] + f5;
    ConsText(Field(s.hour, 2, ":"), f5);
    var f3 := [Field(s.day, 2, " ")] + f4;
    ConsText(Field(s.day, 2, " "), f4);
    var f2 := [Field(s.month, 2, "-")] + f3;
    ConsText(Field(s.month, 2, "-"), f3);
    ConsText(Field(s.year, 4, "-"), f2);
  }

  /** The days of each month. */
  lemma MonthLengths(leap: bool)
    ensures forall m :: 1 <= m <= 12 ==>
              MonthLength(m, leap) == [31, if leap then 29 else 28, 31, 30, 31, 30, 31, 31, 30, 31, 30, 31][m - 1]
  {
  }

  /** Every fourth year is a leap year but three in four centuries, and then it all repeats. */
  lemma LeapYears(y: nat)
    ensures Leap(y + 400) <==> Leap(y)
    ensures Leap(1996) && Leap(2000) && Leap(2024) && !Leap(1900) && !Leap(2023) && !Leap(2100) && !Leap(2200)
  {
  }

  // ---------- The clock ----------

  /** The next millisecond on the clock and in the calendar. */
  function Next(s: Stamp): Stamp
    requires Valid(s)
  {
    if s.ms < 999 then s.(ms := s.ms + 1)
    else if s.second < 59 then s.(ms := 0, second := s.second + 1)
    else if s.minute < 59 then s.(ms := 0, second := 0, minute := s.minute + 1)
    else if s.hour < 23 then s.(ms := 0, second := 0, minute := 0, hour := s.hour + 1)
    else NextDay(s.(ms := 0, second := 0, minute := 0, hour := 0))
  }

  function NextDay(s: Stamp): Stamp
    requires Valid(s)
  {
    if s.day < [31, if Leap(s.year) then 29 else 28, 31, 30, 31, 30, 31, 31, 30, 31, 30, 31][s.month - 1]
    then s.(day := s.day + 1)
    else if s.month < 12 then s.(day := 1, month := s.month + 1)
    else s.(day := 1, month := 1, year := s.year + 1)
  }

  lemma DaysAreCounted(s: Stamp)
    requires Valid(s) && NextDay(s).year < 10000
    ensures Valid(NextDay(s)) && DayNumber(NextDay(s)) == DayNumber(s) + 1
  {
    MonthLengths(Leap(s.year));
    YearLength(s.year);
    YearEnds(Leap(s.year));
  }

  /** Instants count milliseconds, none left out. */
  lemma EveryMillisecondCounts(s: Stamp)
    requires Valid(s) && Next(s).year < 10000
    ensures Valid(Next(s)) && Instant(Next(s)) == Instant(s) + 1
  {
    if s.hour == 23 && s.minute == 59 && s.second == 59 && s.ms == 999 {
      DaysAreCounted(s.(ms := 0, second := 0, minute := 0, hour := 0));
    }
  }
}
