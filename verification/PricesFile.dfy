/** prices.txt: the text the updater and the server write, and the two parsers that read it back. */
module PricesFile {
  import opened Options
  import opened Arithmetic
  import opened Decimal
  import opened Octets
  import opened Printing
  import opened TextLines
  import opened Prices

  // ---------- Writing ----------

  function IntText(n: int): string {
    if n < 0 then "-" + Digits(-n) else Digits(n)
  }

  /** The default stream format drops the zeros at the end of a fraction, and a point that nothing follows. */
  function FractionText(digits: string): string {
    var g := TrimZeros(digits);
    if g == [] then [] else ['.'] + g
  }

  function FixedText(cents: nat): string {
    Digits(cents / 100) + FractionText(Pad(cents % 100, 2))
  }

  function ExponentText(e: nat): string {
    ['e', '+'] + if e < 10 then ['0'] + Digits(e) else Digits(e)
  }

  /** q with its point after the first of six digits, times 10^e. */
  function ScientificText(q: nat, e: nat): string {
    var d := Pad(q, 6);
    [d[0]] + FractionText(d[1..]) + ExponentText(e)
  }

  /** %g at six digits, for cents that have no more. */
  function UnsignedText(cents: nat): string {
    if cents < 100_000_000 then FixedText(cents)
    else ScientificText(cents / Unit(cents), Scale(cents) + 3)
  }

  function WithSign(negative: bool, u: string): string {
    if negative then "-" + u else u
  }

  function SignedText(r: int): string {
    WithSign(r < 0, UnsignedText(Magnitude(r)))
  }

  function PriceText(cents: int): string {
    SignedText(Printed(cents))
  }

  function LineText(kv: (int, int)): string {
    IntText(kv.0) + [','] + PriceText(kv.1)
  }

  function FileText(kvs: Listing): string {
    Join(Map(LineText, kvs))
  }

  // ---------- Reading ----------

  datatype Scan<+T> = Fail | Got(value: T, rest: string)

  predicate IsSpace(c: char) {
    c == ' ' || '\t' <= c <= '\r'
  }

  function SkipSpace(s: string): string {
    if s != [] && IsSpace(s[0]) then SkipSpace(s[1..]) else s
  }

  datatype Signed = Signed(negative: bool, digits: string)

  /** Blanks, then an optional sign. */
  function ScanSign(text: string): Signed {
    var s := SkipSpace(text);
    if s != [] && s[0] == '-' then Signed(true, s[1..])
    else if s != [] && s[0] == '+' then Signed(false, s[1..])
    else Signed(false, s)
  }

  function IntFrom(s: Signed): Scan<int> {
    var k := DigitRun(s.digits);
    var n: int := ValueOf(s.digits[..k]);
    if k == 0 then Fail
    else
      var v := if s.negative then -n else n;
      if IsInt32(v) then Got(v, s.digits[k..]) else Fail
  }

  /** std::stoi and operator>> for int: blanks, a sign, digits; the rest is left. */
  function ScanInt(text: string): Scan<int> {
    IntFrom(ScanSign(text))
  }

  /** Digits with at most one point among them. */
  function MantissaFrom(s: string): Scan<real> {
    var k := DigitRun(s);
    if k < |s| && s[k] == '.' then
      var f := DigitRun(s[k + 1..]);
      if k + f == 0 then Fail
      else Got(Shift(ValueOf(s[..k] + s[k + 1..][..f]) as real, f), s[k + 1..][f..])
    else if k == 0 then Fail
    else Got(ValueOf(s[..k]) as real, s[k..])
  }

  /** The two ways to read an e that no digits follow: std::stod leaves it, the stream extractor gives up. */
  datatype Reader = Stod | Extractor

  function ExponentFrom(v: real, rest: string, reader: Reader): Scan<real> {
    if rest == [] || (rest[0] != 'e' && rest[0] != 'E') then Got(v, rest)
    else
      var signed := rest[1..] != [] && (rest[1] == '+' || rest[1] == '-');
      var digits := if signed then rest[2..] else rest[1..];
      var k := DigitRun(digits);
      if k == 0 then if reader == Stod then Got(v, rest) else Fail
      else
        var e := ValueOf(digits[..k]);
        Got(if signed && rest[1] == '-' then Shift(v, e) else Grow(v, e), digits[k..])
  }

  function DecimalFrom(s: string, reader: Reader): Scan<real> {
    match MantissaFrom(s)
    case Fail => Fail
    case Got(v, rest) => ExponentFrom(v, rest, reader)
  }

  /** std::stod and operator>> for double, on decimal notation. */
  function ScanDecimal(text: string, reader: Reader): Scan<real> {
    var s := ScanSign(text);
    match DecimalFrom(s.digits, reader)
    case Fail => Fail
    case Got(v, rest) => Got(if s.negative then -v else v, rest)
  }

  /** What a parser makes of one line. */
  datatype Entry = Skip | Pair(code: int, price: real) | Throw

  /** load_prices_file: the line is cut at commas, then each token converted; a bad token throws. */
  function UpdaterEntry(line: string): Entry {
    if line == "" then Skip
    else
      var i := IndexOf(line, ',');
      match ScanInt(line[..i])
      case Fail => Throw
      case Got(code, _) =>
        if i + 1 >= |line| then Skip
        else
          var token := line[i + 1..];
          match ScanDecimal(token[..IndexOf(token, ',')], Stod)
          case Fail => Throw
          case Got(price, _) => Pair(code, price)
  }

  /** The server's stream: an int, any one character, a double; a line that does not fit is skipped. */
  function ServerEntry(line: string): Entry {
    if line == "" then Skip
    else
      match ScanInt(line)
      case Fail => Skip
      case Got(code, rest) =>
        var s := SkipSpace(rest);
        if s == [] then Skip
        else
          match ScanDecimal(s[1..], Extractor)
          case Fail => Skip
          case Got(price, _) => Pair(code, price)
  }

  /** The updater's map of the entries of a file; None when a token threw. */
  function UpdaterMap(entries: seq<Entry>): Option<map<int, real>> {
    if entries == [] then Some(map[])
    else
      match UpdaterMap(entries[..|entries| - 1])
      case None => None
      case Some(m) =>
        match entries[|entries| - 1]
        case Skip => Some(m)
        case Throw => None
        case Pair(code, price) => Some(m[code := price])
  }

  /** The pairs the server applies, in file order. */
  function ServerPairs(entries: seq<Entry>): seq<(int, real)> {
    if entries == [] then []
    else
      ServerPairs(entries[..|entries| - 1]) +
      match entries[|entries| - 1]
      case Pair(code, price) => [(code, price)]
      case _ => []
  }

  // ---------- The programs' loops ----------

  lemma FileGrows(kvs: Listing, i: nat)
    requires i < |kvs|
    ensures FileText(kvs[..i + 1]) == FileText(kvs[..i]) + LineText(kvs[i]) + ['\n']
  {
    MapGrows(LineText, kvs, i);
    JoinSnoc(Map(LineText, kvs[..i]), LineText(kvs[i]));
  }

  method SavePricesFile(kvs: Listing) returns (text: string)
    ensures text == FileText(kvs)
  {
    text := "";
    var i := 0;
    while i < |kvs|
      invariant 0 <= i <= |kvs|
      invariant text == FileText(kvs[..i])
    {
      FileGrows(kvs, i);
      text := text + LineText(kvs[i]) + ['\n'];
      i := i + 1;
    }
    assert kvs[..i] == kvs;
  }

  /** A getline loop that collects what the parser makes of each line. */
  method ReadEntries(text: string, parser: string -> Entry) returns (entries: seq<Entry>)
    ensures entries == Map(parser, Lines(text))
  {
    entries := [];
    var rest := text;
    ghost var done: seq<string> := [];
    while rest != ""
      invariant Lines(text) == done + Lines(rest)
      invariant entries == Map(parser, done)
      decreases |rest|
    {
      LinesUnfold(rest);
      var line := FirstLine(rest);
      rest := AfterFirstLine(rest);
      entries := entries + [parser(line)];
      done := done + [line];
    }
    assert done + [] == done;
  }

  method LoadPricesFile(text: string) returns (prices: Option<map<int, real>>)
    ensures prices == UpdaterMap(Map(UpdaterEntry, Lines(text)))
  {
    var entries := ReadEntries(text, UpdaterEntry);
    var m: map<int, real> := map[];
    var i := 0;
    while i < |entries|
      invariant 0 <= i <= |entries|
      invariant UpdaterMap(entries[..i]) == Some(m)
    {
      UpdaterMapGrows(entries, i);
      match entries[i] {
        case Skip =>
        case Throw =>
          ThrowIsFinal(entries, i + 1);
          return None;
        case Pair(code, price) =>
          m := m[code := price];
      }
      i := i + 1;
    }
    assert entries[..i] == entries;
    prices := Some(m);
  }

  lemma UpdaterMapGrows(entries: seq<Entry>, i: nat)
    requires i < |entries| && UpdaterMap(entries[..i]).Some?
    ensures UpdaterMap(entries[..i + 1]) ==
            match entries[i]
            case Skip => UpdaterMap(entries[..i])
            case Throw => None
            case Pair(code, price) => Some(UpdaterMap(entries[..i]).value[code := price])
  {
    assert entries[..i + 1][..i] == entries[..i];
  }

  lemma {:induction false} ThrowIsFinal(entries: seq<Entry>, i: nat)
    requires i <= |entries| && UpdaterMap(entries[..i]) == None
    ensures UpdaterMap(entries) == None
  {
    if i == |entries| {
      assert entries[..i] == entries;
    } else {
      assert entries[..|entries| - 1][..i] == entries[..i];
      ThrowIsFinal(entries[..|entries| - 1], i);
    }
  }

  lemma ServerPairsGrow(entries: seq<Entry>, i: nat)
    requires i < |entries|
    ensures ServerPairs(entries[..i + 1]) ==
            ServerPairs(entries[..i]) + if entries[i].Pair? then [(entries[i].code, entries[i].price)] else []
  {
    assert entries[..i + 1][..i] == entries[..i];
  }

  method ServerReadFile(text: string) returns (pairs: seq<(int, real)>)
    ensures pairs == ServerPairs(Map(ServerEntry, Lines(text)))
  {
    var entries := ReadEntries(text, ServerEntry);
    pairs := [];
    var i := 0;
    while i < |entries|
      invariant 0 <= i <= |entries|
      invariant pairs == ServerPairs(entries[..i])
    {
      ServerPairsGrow(entries, i);
      match entries[i] {
        case Pair(code, price) => pairs := pairs + [(code, price)];
        case _ =>
      }
      i := i + 1;
    }
    assert entries[..i] == entries;
  }

  // ---------- Round trip ----------

  function Dollars(cents: int): real {
    cents as real / 100.0
  }

  lemma PlainSign(s: string)
    requires s != [] && IsDigit(s[0])
    ensures ScanSign(s) == Signed(false, s)
    ensures ScanSign("-" + s) == Signed(true, s)
  { }

  lemma IntFromDigits(s: Signed, n: int, d: string, rest: string)
    requires AllDigits(d) && d != [] && s.digits == d + rest
    requires rest == [] || !IsDigit(rest[0])
    requires IsInt32(n) && n == if s.negative then -(ValueOf(d) as int) else ValueOf(d)
    ensures IntFrom(s) == Got(n, rest)
  {
    DigitRunOf(d, rest);
  }

  lemma IntRoundTrip(n: int, rest: string)
    requires IsInt32(n)
    requires rest == [] || !IsDigit(rest[0])
    ensures ScanInt(IntText(n) + rest) == Got(n, rest)
  {
    var d := Digits(if n < 0 then -n else n);
    PlainSign(d + rest);
    if n < 0 {
      assert IntText(n) + rest == "-" + (d + rest);
      IntFromDigits(Signed(true, d + rest), n, d, rest);
    } else {
      IntFromDigits(Signed(false, d + rest), n, d, rest);
    }
  }

  predicate EndsMantissa(tail: string) {
    tail == [] || (!IsDigit(tail[0]) && tail[0] != '.')
  }

  lemma WholeReads(d: string, tail: string)
    requires AllDigits(d) && d != [] && EndsMantissa(tail)
    ensures MantissaFrom(d + tail) == Got(ValueOf(d) as real, tail)
  {
    DigitRunOf(d, tail);
  }

  lemma PointedReads(d: string, t: string, tail: string)
    requires AllDigits(d) && AllDigits(t) && d != [] && t != [] && EndsMantissa(tail)
    ensures AllDigits(d + t)
    ensures MantissaFrom(d + (['.'] + (t + tail))) == Got(Shift(ValueOf(d + t) as real, |t|), tail)
  {
    var s := d + (['.'] + (t + tail));
    DigitRunOf(d, ['.'] + (t + tail));
    DigitRunOf(t, tail);
    assert s[|d| + 1..] == t + tail && s[..|d|] == d && s[|d|] == '.';
  }

  /** Digits, what is left of the fraction g, and whatever follows. */
  lemma MantissaReads(d: string, g: string, tail: string)
    requires AllDigits(d) && AllDigits(g) && d != [] && EndsMantissa(tail)
    ensures AllDigits(TrimZeros(g)) && AllDigits(d + TrimZeros(g))
    ensures MantissaFrom(d + FractionText(g) + tail) ==
            Got(Shift(ValueOf(d + TrimZeros(g)) as real, |TrimZeros(g)|), tail)
  {
    var t := TrimZeros(g);
    if t == [] {
      assert d + FractionText(g) + tail == d + tail && d + t == d;
      WholeReads(d, tail);
    } else {
      assert d + FractionText(g) + tail == d + (['.'] + (t + tail));
      PointedReads(d, t, tail);
    }
  }

  /** The fraction's value does not depend on the zeros dropped. */
  lemma FractionValue(d: string, g: string)
    requires AllDigits(d) && AllDigits(g)
    ensures AllDigits(TrimZeros(g)) && AllDigits(d + TrimZeros(g)) && AllDigits(d + g)
    ensures Grow(Shift(ValueOf(d + TrimZeros(g)) as real, |TrimZeros(g)|), |g|) == ValueOf(d + g) as real
  {
    TrimmedValue(d, g);
    GrowUndoesShift(ValueOf(d + TrimZeros(g)) as real, |TrimZeros(g)|, |g|);
  }

  /** The value of a mantissa with its fraction g trimmed. */
  function Trimmed(d: string, g: string): (v: real)
    requires AllDigits(d) && AllDigits(g)
    ensures AllDigits(d + g) && Grow(v, |g|) == ValueOf(d + g) as real
  {
    FractionValue(d, g);
    Shift(ValueOf(d + TrimZeros(g)) as real, |TrimZeros(g)|)
  }

  lemma FixedMantissa(cents: nat) returns (v: real)
    ensures MantissaFrom(FixedText(cents)) == Got(v, [])
    ensures v == Dollars(cents)
  {
    Powers();
    var d, g := Digits(cents / 100), Pad(cents % 100, 2);
    v := Trimmed(d, g);
    MantissaReads(d, g, []);
    assert FixedText(cents) == d + FractionText(g) + [];
    FixedValue(cents);
  }

  lemma FixedValue(cents: nat)
    ensures cents % 100 < Power10(2)
    ensures Trimmed(Digits(cents / 100), Pad(cents % 100, 2)) == Dollars(cents)
  {
    Powers();
    var d, g := Digits(cents / 100), Pad(cents % 100, 2);
    PadAppends(d, cents % 100, 2);
    Hundredfold(Trimmed(d, g));
  }

  lemma FixedRoundTrip(cents: nat, reader: Reader)
    ensures DecimalFrom(FixedText(cents), reader) == Got(Dollars(cents), [])
  {
    var v := FixedMantissa(cents);
    MantissaThenExponent(FixedText(cents), v, [], v, reader);
  }

  lemma Hundredfold(v: real)
    ensures Grow(v, 2) == 100.0 * v
  {
    assert Grow(v, 1) == 10.0 * v;
  }

  lemma ExponentReads(v: real, e: nat, reader: Reader)
    ensures ExponentFrom(v, ExponentText(e), reader) == Got(Grow(v, e), [])
  {
    var n := if e < 10 then ['0'] + Digits(e) else Digits(e);
    if e < 10 {
      PaddedValue(e);
    }
    assert ExponentText(e) == ['e'] + ("+" + (n + ""));
    ExponentScanned(v, 'e', "+", n, "", reader);
  }

  lemma PaddedValue(e: nat)
    requires e < 10
    ensures AllDigits(['0'] + Digits(e)) && ValueOf(['0'] + Digits(e)) == e
  {
    ValueOfSnoc(['0'], DigitChar(e));
    assert ['0'] + [DigitChar(e)] == ['0'] + Digits(e);
  }

  lemma ScientificRoundTrip(q: nat, k: nat, text: string, reader: Reader)
    requires q < 1_000_000 && k >= 2 && text == ScientificText(q, k + 3)
    ensures DecimalFrom(text, reader) == Got(Dollars(Power10(k) * q), [])
  {
    var e := k + 3;
    var v := ScientificMantissa(q, e);
    var w := ScientificTail(v, q, k, e, reader);
    MantissaThenExponent(text, v, ExponentText(e), w, reader);
  }

  lemma ScientificTail(v: real, q: nat, k: nat, e: nat, reader: Reader) returns (w: real)
    requires Grow(v, 5) == q as real && k >= 2 && e == k + 3
    ensures ExponentFrom(v, ExponentText(e), reader) == Got(w, []) && w == Dollars(Power10(k) * q)
  {
    w := Grow(v, e);
    ExponentReads(v, e, reader);
    ScientificValue(v, q, k);
  }

  lemma MantissaThenExponent(text: string, v: real, tail: string, w: real, reader: Reader)
    requires MantissaFrom(text) == Got(v, tail) && ExponentFrom(v, tail, reader) == Got(w, [])
    ensures DecimalFrom(text, reader) == Got(w, [])
  {
  }

  lemma ScientificMantissa(q: nat, e: nat) returns (v: real)
    requires q < 1_000_000
    ensures MantissaFrom(ScientificText(q, e)) == Got(v, ExponentText(e))
    ensures Grow(v, 5) == q as real
  {
    Powers();
    var p := Pad(q, 6);
    var d, g := [p[0]], p[1..];
    v := Trimmed(d, g);
    assert d + g == p;
    MantissaReads(d, g, ExponentText(e));
  }

  lemma ScientificValue(v: real, q: nat, k: nat)
    requires Grow(v, 5) == q as real && k >= 2
    ensures Grow(v, k + 3) == Dollars(Power10(k) * q)
  {
    GrowSum(v, 5, k - 2);
    GrowSum(q as real, k - 2, 2);
    Hundredfold(Grow(q as real, k - 2));
    GrowIsProduct(q, k);
  }

  lemma UnsignedRoundTrip(cents: nat, reader: Reader)
    requires cents % Unit(cents) == 0
    ensures DecimalFrom(UnsignedText(cents), reader) == Got(Dollars(cents), [])
  {
    if cents < 100_000_000 {
      SmallRoundTrip(cents, reader);
    } else {
      LargeRoundTrip(cents, reader);
    }
  }

  lemma SmallRoundTrip(cents: nat, reader: Reader)
    requires cents < 100_000_000
    ensures DecimalFrom(UnsignedText(cents), reader) == Got(Dollars(cents), [])
  {
    var u := FixedText(cents);
    assert UnsignedText(cents) == u;
    FixedRoundTrip(cents, reader);
  }

  lemma LargeRoundTrip(cents: nat, reader: Reader)
    requires cents >= 100_000_000 && cents % Unit(cents) == 0
    ensures DecimalFrom(UnsignedText(cents), reader) == Got(Dollars(cents), [])
  {
    MillionsRoundTrip(cents, UnsignedText(cents), reader);
  }

  lemma MillionsRoundTrip(cents: nat, text: string, reader: Reader)
    requires cents % Unit(cents) == 0 && cents >= 100_000_000
    requires text == ScientificText(cents / Unit(cents), Scale(cents) + 3)
    ensures DecimalFrom(text, reader) == Got(Dollars(cents), [])
  {
    var q, k := LeadingPart(cents);
    ScientificRoundTrip(q, k, text, reader);
  }

  lemma LeadingPart(cents: nat) returns (q: nat, k: nat)
    requires cents % Unit(cents) == 0 && cents >= 100_000_000
    ensures q == cents / Unit(cents) && k == Scale(cents)
    ensures q < 1_000_000 && k >= 2 && Power10(k) * q == cents
  {
    q, k := cents / Unit(cents), Scale(cents);
    LeadingDigits(cents);
    SixDigitProduces(cents);
    ScaleOfMillions(cents);
  }

  lemma SixDigitProduces(cents: nat)
    requires cents % Unit(cents) == 0
    ensures Power10(Scale(cents)) * (cents / Unit(cents)) == cents
  {
    DivMod(cents, Unit(cents));
  }

  lemma ScaleOfMillions(cents: nat)
    requires cents >= 100_000_000
    ensures Scale(cents) >= 2
  {
  }

  lemma DollarsNegate(a: int)
    ensures Dollars(-a) == -Dollars(a)
  {
  }

  lemma SignedScan(u: string, v: real, negative: bool, reader: Reader)
    requires u != [] && IsDigit(u[0]) && DecimalFrom(u, reader) == Got(v, [])
    ensures ScanDecimal(WithSign(negative, u), reader) == Got(if negative then -v else v, [])
  {
    PlainSign(u);
  }

  lemma UnsignedStartsWithDigit(a: nat)
    ensures UnsignedText(a) != [] && IsDigit(UnsignedText(a)[0])
  {
  }

  /** Both readers find in a price's text what six digits leave of it. */
  lemma PriceRoundTrip(cents: int, reader: Reader)
    ensures ScanDecimal(PriceText(cents), reader) == Got(Dollars(Printed(cents)), [])
  {
    PrintedIsSixDigit(cents);
    SixDigitRoundTrip(Printed(cents), reader);
  }

  lemma SixDigitRoundTrip(r: int, reader: Reader)
    requires SixDigit(r)
    ensures ScanDecimal(SignedText(r), reader) == Got(Dollars(r), [])
  {
    var u, v := SignedSpelling(r, reader);
    var text := WithSign(r < 0, u);
    assert SignedText(r) == text;
    SignedReads(text, r < 0, u, v, Dollars(r), reader);
  }

  lemma SignedReads(text: string, negative: bool, u: string, v: real, w: real, reader: Reader)
    requires u != [] && IsDigit(u[0]) && DecimalFrom(u, reader) == Got(v, [])
    requires text == WithSign(negative, u) && w == if negative then -v else v
    ensures ScanDecimal(text, reader) == Got(w, [])
  {
    SignedScan(u, v, negative, reader);
  }

  lemma SignedSpelling(r: int, reader: Reader) returns (u: string, v: real)
    requires SixDigit(r)
    ensures u == UnsignedText(Magnitude(r))
    ensures Dollars(r) == if r < 0 then -v else v
    ensures u != [] && IsDigit(u[0]) && DecimalFrom(u, reader) == Got(v, [])
  {
    SixDigitIff(r);
    u, v := UnsignedSpelling(Magnitude(r), reader);
    DollarsNegate(Magnitude(r));
  }

  lemma UnsignedSpelling(a: nat, reader: Reader) returns (u: string, v: real)
    requires a % Unit(a) == 0
    ensures u == UnsignedText(a) && v == Dollars(a)
    ensures u != [] && IsDigit(u[0]) && DecimalFrom(u, reader) == Got(v, [])
  {
    u, v := UnsignedText(a), Dollars(a);
    UnsignedStartsWithDigit(a);
    UnsignedRoundTrip(a, reader);
  }

  /** None of the separators occurs in a number. */
  predicate Plain(s: string) {
    forall i :: 0 <= i < |s| ==> IsDigit(s[i]) || s[i] in {'-', '+', '.', 'e'}
  }

  lemma NumbersArePlain(n: int)
    ensures Plain(IntText(n)) && Plain(PriceText(n))
  {
    UnsignedIsPlain(Magnitude(Printed(n)));
  }

  lemma UnsignedIsPlain(a: nat)
    ensures Plain(UnsignedText(a))
  {
    LeadingDigits(a);
    if a < 100_000_000 {
      FractionIsPlain(Pad(a % 100, 2));
    } else {
      FractionIsPlain(Pad(a / Unit(a), 6)[1..]);
    }
  }

  lemma FractionIsPlain(g: string)
    requires AllDigits(g)
    ensures Plain(FractionText(g))
  {
  }

  lemma PlainHasNone(s: string, c: char)
    requires Plain(s) && (c == ',' || c == '\n')
    ensures c !in s
  {
  }

  lemma UpdaterReadsLine(c: string, p: string, code: int, price: real)
    requires c != "" && p != "" && ',' !in c && ',' !in p
    requires ScanInt(c) == Got(code, []) && ScanDecimal(p, Stod) == Got(price, [])
    ensures UpdaterEntry(c + [','] + p) == Pair(code, price)
  {
    IndexOfFirst(c, ',', p);
    IndexOfNone(p, ',');
    assert p[..|p|] == p;
  }

  lemma ServerReadsLine(c: string, p: string, code: int, price: real)
    requires c != ""
    requires ScanInt(c + ([','] + p)) == Got(code, [','] + p) && ScanDecimal(p, Extractor) == Got(price, [])
    ensures ServerEntry(c + [','] + p) == Pair(code, price)
  {
    assert c + [','] + p == c + ([','] + p);
    assert SkipSpace([','] + p) == [','] + p;
    assert ([','] + p)[1..] == p;
  }

  /** Both parsers read a written line back as its code and what six digits leave of its price. */
  lemma LineRoundTrip(kv: (int, int))
    requires IsInt32(kv.0)
    ensures '\n' !in LineText(kv)
    ensures UpdaterEntry(LineText(kv)) == Pair(kv.0, Dollars(Printed(kv.1)))
    ensures ServerEntry(LineText(kv)) == Pair(kv.0, Dollars(Printed(kv.1)))
  {
    NumbersArePlain(kv.0);
    NumbersArePlain(kv.1);
    PriceRoundTrip(kv.1, Stod);
    PriceRoundTrip(kv.1, Extractor);
    IntRoundTrip(kv.0, []);
    IntRoundTrip(kv.0, [','] + PriceText(kv.1));
    PlainLine(IntText(kv.0), PriceText(kv.1), kv.0, Dollars(Printed(kv.1)));
  }

  lemma PlainLine(c: string, p: string, code: int, price: real)
    requires c != "" && p != "" && Plain(c) && Plain(p)
    requires ScanInt(c + []) == Got(code, []) && ScanInt(c + ([','] + p)) == Got(code, [','] + p)
    requires ScanDecimal(p, Stod) == Got(price, []) && ScanDecimal(p, Extractor) == Got(price, [])
    ensures '\n' !in c + [','] + p
    ensures UpdaterEntry(c + [','] + p) == Pair(code, price) && ServerEntry(c + [','] + p) == Pair(code, price)
  {
    PlainHasNone(c, ',');
    PlainHasNone(p, ',');
    PlainHasNone(c, '\n');
    PlainHasNone(p, '\n');
    assert c + [] == c;
    UpdaterReadsLine(c, p, code, price);
    ServerReadsLine(c, p, code, price);
  }

  /** The pairs of a listing with their prices converted. */
  function Convert<V>(kvs: Listing, value: int -> V): seq<(int, V)> {
    if kvs == [] then [] else Convert(kvs[..|kvs| - 1], value) + [(kvs[|kvs| - 1].0, value(kvs[|kvs| - 1].1))]
  }

  function ConvertMap<V>(m: map<int, int>, value: int -> V): map<int, V> {
    map c | c in m :: value(m[c])
  }

  ghost predicate Spells(entries: seq<Entry>, kvs: Listing, value: int -> real) {
    |entries| == |kvs| && forall i :: 0 <= i < |kvs| ==> entries[i] == Pair(kvs[i].0, value(kvs[i].1))
  }

  lemma {:induction false} ServerReadsPairs(entries: seq<Entry>, kvs: Listing, value: int -> real)
    requires Spells(entries, kvs, value)
    ensures ServerPairs(entries) == Convert(kvs, value)
  {
    if kvs != [] {
      ServerReadsPairs(entries[..|kvs| - 1], kvs[..|kvs| - 1], value);
    }
  }

  lemma ConvertMapUpdate<V>(m: map<int, int>, c: int, p: int, value: int -> V)
    ensures ConvertMap(m[c := p], value) == ConvertMap(m, value)[c := value(p)]
  {
  }

  lemma {:induction false} UpdaterReadsMap(entries: seq<Entry>, kvs: Listing, value: int -> real)
    requires Spells(entries, kvs, value)
    ensures UpdaterMap(entries) == Some(ConvertMap(MapOf(kvs), value))
  {
    if kvs != [] {
      var n := |kvs| - 1;
      UpdaterReadsMap(entries[..n], kvs[..n], value);
      ConvertMapUpdate(MapOf(kvs[..n]), kvs[n].0, kvs[n].1, value);
    }
  }

  lemma SameDollars(a: int, b: int)
    requires Dollars(a) == Dollars(b)
    ensures a == b
  {
  }

  /** What a price is worth to the programs that read it back. */
  function ReadBack(cents: int): real {
    Dollars(Printed(cents))
  }

  /** For every map of int32 codes to prices and every iteration order, the updater loads back the map with its
      prices as printed, and the server reads the same pairs line by line. */
  lemma PricesFileRoundTrip(m: map<int, int>, kvs: Listing)
    requires Lists(m, kvs)
    requires forall c :: c in m ==> IsInt32(c)
    ensures UpdaterMap(Map(UpdaterEntry, Lines(FileText(kvs)))) == Some(ConvertMap(m, ReadBack))
    ensures ServerPairs(Map(ServerEntry, Lines(FileText(kvs)))) == Convert(kvs, ReadBack)
  {
    FileReadsBack(kvs);
    ListingRebuildsMap(m, kvs);
  }

  lemma FileReadsBack(kvs: Listing)
    requires forall i :: 0 <= i < |kvs| ==> IsInt32(kvs[i].0)
    ensures UpdaterMap(Map(UpdaterEntry, Lines(FileText(kvs)))) == Some(ConvertMap(MapOf(kvs), ReadBack))
    ensures ServerPairs(Map(ServerEntry, Lines(FileText(kvs)))) == Convert(kvs, ReadBack)
  {
    forall i | 0 <= i < |kvs|
      ensures '\n' !in LineText(kvs[i])
      ensures UpdaterEntry(LineText(kvs[i])) == Pair(kvs[i].0, ReadBack(kvs[i].1))
      ensures ServerEntry(LineText(kvs[i])) == Pair(kvs[i].0, ReadBack(kvs[i].1))
    {
      LineRoundTrip(kvs[i]);
    }
    LinesOfJoin(Map(LineText, kvs));
    UpdaterReadsMap(Map(UpdaterEntry, Map(LineText, kvs)), kvs, ReadBack);
    ServerReadsPairs(Map(ServerEntry, Map(LineText, kvs)), kvs, ReadBack);
  }

  /** The file gives the map back unchanged exactly when six digits are enough for every price in it. */
  lemma FileIsLosslessIff(m: map<int, int>)
    ensures ConvertMap(m, ReadBack) == ConvertMap(m, Dollars) <==> forall c :: c in m ==> SixDigit(m[c])
  {
    if ConvertMap(m, ReadBack) == ConvertMap(m, Dollars) {
      forall c | c in m
        ensures SixDigit(m[c])
      {
        assert ConvertMap(m, ReadBack)[c] == ConvertMap(m, Dollars)[c];
        SameDollars(Printed(m[c]), m[c]);
      }
    }
    if forall c :: c in m ==> SixDigit(m[c]) {
      assert ConvertMap(m, ReadBack) == ConvertMap(m, Dollars);
    }
  }

  // ---------- The texts, spelled out ----------

  /** A fraction loses the zeros at its end, and the point with them if nothing is left. */
  lemma {:induction false} FractionIs(digits: string) returns (g: string, zeros: nat)
    ensures digits == g + seq(zeros, i => '0') && (g == "" || g[|g| - 1] != '0')
    ensures FractionText(digits) == if g == "" then "" else "." + g
  {
    g, zeros := digits, 0;
    while g != "" && g[|g| - 1] == '0'
      invariant digits == g + seq(zeros, i => '0') && TrimZeros(digits) == TrimZeros(g)
      decreases |g|
    {
      assert g == g[..|g| - 1] + ['0'];
      assert ['0'] + seq(zeros, i => '0') == seq(zeros + 1, i => '0');
      g, zeros := g[..|g| - 1], zeros + 1;
    }
  }

  lemma TwoDigits(n: nat, tens: nat)
    requires tens == n / 10
    ensures Pad(n, 2) == [DigitChar(tens % 10), DigitChar(n % 10)]
  {
    assert Pad(n, 2) == Pad(tens, 1) + [DigitChar(n % 10)];
    assert Pad(tens, 1) == Pad(tens / 10, 0) + [DigitChar(tens % 10)];
  }

  lemma TrimTwo(a: char, b: char)
    ensures FractionText([a, b]) == if b != '0' then ['.', a, b] else if a != '0' then ['.', a] else ""
  {
    assert [a, b][..1] == [a] && [a][..0] == [];
    assert TrimZeros([a]) == if a == '0' then [] else [a];
  }

  lemma {:induction false} TwoDecimals(n: nat, tens: nat, ones: nat)
    requires n == 10 * tens + ones && tens < 10 && ones < 10
    ensures FractionText(Pad(n, 2)) ==
            if ones != 0 then ['.', DigitChar(tens), DigitChar(ones)]
            else if tens != 0 then ['.', DigitChar(tens)]
            else ""
  {
    assert n / 10 == tens && n % 10 == ones;
    TwoDigits(n, tens);
    TrimTwo(DigitChar(tens), DigitChar(ones));
    ZeroChar(tens);
    ZeroChar(ones);
  }

  lemma ZeroChar(d: nat)
    requires d < 10
    ensures DigitChar(d) == '0' <==> d == 0
  {
    assert DigitValue(DigitChar(d)) == d;
  }

  /** A price below a million: whole dollars stand alone, a whole number of tenths has one decimal. */
  lemma {:induction false} FixedIs(cents: nat, dollars: nat, tens: nat, ones: nat)
    requires tens < 10 && ones < 10 && cents == 100 * dollars + 10 * tens + ones
    ensures FixedText(cents) == Digits(dollars) +
              if ones != 0 then ['.', DigitChar(tens), DigitChar(ones)]
              else if tens != 0 then ['.', DigitChar(tens)]
              else ""
  {
    QuotientOf(cents, 10 * tens + ones, 100, dollars);
    TwoDecimals(cents % 100, tens, ones);
  }

  /** Exponents have two digits, unless they need more. */
  lemma ExponentIs(e: nat)
    ensures e < 10 ==> ExponentText(e) == ['e', '+', '0', DigitChar(e)]
    ensures e >= 10 ==> ExponentText(e) == ['e', '+'] + Digits(e)
  {
  }

  /** From a million dollars on, and no earlier, a price has an exponent. */
  lemma ExponentFromAMillion(cents: nat, text: string)
    requires text == UnsignedText(cents)
    ensures 'e' in text <==> cents >= 100 * 1_000_000
  {
    if cents >= 100_000_000 {
      LargeHasExponent(cents, text);
    } else {
      FixedHasNoExponent(cents, text);
    }
  }

  lemma LargeHasExponent(cents: nat, text: string)
    requires cents >= 100_000_000 && text == UnsignedText(cents)
    ensures 'e' in text
  {
    ScientificHasExponent(cents / Unit(cents), Scale(cents) + 3, text);
  }

  lemma ScientificHasExponent(q: nat, e: nat, text: string)
    requires text == ScientificText(q, e)
    ensures 'e' in text
  {
    assert text[|text| - |ExponentText(e)|] == 'e';
  }

  lemma FixedHasNoExponent(cents: nat, text: string)
    requires text == FixedText(cents)
    ensures 'e' !in text
  {
    NoExponentIn(Pad(cents % 100, 2));
    assert 'e' !in Digits(cents / 100);
  }

  lemma NoExponentIn(digits: string)
    requires AllDigits(digits)
    ensures 'e' !in FractionText(digits)
  {
  }

  /** A large price has one digit before the point, and not a zero. */
  lemma ScientificIs(q: nat, e: nat)
    requires 100_000 <= q < 1_000_000
    ensures var text := ScientificText(q, e);
            && |text| > 1 && IsDigit(text[0]) && text[0] != '0'
            && text == [text[0]] + FractionText(Pad(q, 6)[1..]) + ExponentText(e)
            && (text[1] == '.' || text[1] == 'e')
  {
    Powers();
    assert Power10(5) == 100_000;
    FirstDigit(q, 6);
  }

  lemma {:induction false} FirstDigit(n: nat, w: nat)
    requires w >= 1 && Power10(w - 1) <= n < Power10(w)
    ensures Pad(n, w)[0] != '0'
  {
    if w > 1 {
      FirstDigit(n / 10, w - 1);
    } else {
      ZeroChar(n);
    }
  }

  /** Numerals have no zeros in front. */
  lemma {:induction false} NoLeadingZero(n: nat)
    requires n > 0
    ensures Digits(n)[0] != '0'
  {
    if n >= 10 {
      NoLeadingZero(n / 10);
    } else {
      assert DigitValue(DigitChar(n)) == n;
    }
  }

  // ---------- The scanners on any text ----------

  predicate IsBlank(c: char) {
    c as int == 32 || 9 <= c as int <= 13
  }

  predicate Blank(s: string) {
    forall i :: 0 <= i < |s| ==> IsBlank(s[i])
  }

  lemma {:induction false} BlanksSkipped(blanks: string, s: string)
    requires Blank(blanks) && (s == "" || !IsBlank(s[0]))
    ensures SkipSpace(blanks + s) == s
  {
    if blanks == "" {
      assert blanks + s == s;
      assert SkipSpace(s) == s;
    } else {
      assert (blanks + s)[1..] == blanks[1..] + s && (blanks + s)[0] == blanks[0];
      BlanksSkipped(blanks[1..], s);
    }
  }

  lemma SignScanned(blanks: string, sign: string, s: string)
    requires Blank(blanks) && sign in {"", "+", "-"}
    requires sign == "" ==> s == "" || (!IsBlank(s[0]) && s[0] != '+' && s[0] != '-')
    ensures ScanSign(blanks + (sign + s)) == Signed(sign == "-", s)
  {
    BlanksSkipped(blanks, sign + s);
    assert sign == "" ==> sign + s == s;
    assert sign != "" ==> (sign + s)[0] == sign[0] && (sign + s)[1..] == s;
  }

  lemma DigitsScanned(s: Signed, d: string, rest: string)
    requires AllDigits(d) && (rest == "" || !IsDigit(rest[0])) && s.digits == d + rest
    ensures d == "" ==> IntFrom(s) == Fail
    ensures d != "" ==>
              var v: int := if s.negative then -(ValueOf(d) as int) else ValueOf(d);
              IntFrom(s) == if -0x8000_0000 <= v <= 0x7FFF_FFFF then Got(v, rest) else Fail
  {
    DigitRunOf(d, rest);
  }

  /** An int: blanks, at most one sign, and the digits up to the first character that is none. Without a digit, or
      beyond 32 bits, there is no number. */
  lemma IntScanned(blanks: string, sign: string, d: string, rest: string)
    requires Blank(blanks) && sign in {"", "+", "-"} && AllDigits(d) && (rest == "" || !IsDigit(rest[0]))
    requires sign == "" && d == "" ==> rest == "" || (!IsBlank(rest[0]) && rest[0] != '+' && rest[0] != '-')
    ensures d == "" ==> ScanInt(blanks + (sign + (d + rest))) == Fail
    ensures d != "" ==>
              var v: int := if sign == "-" then -(ValueOf(d) as int) else ValueOf(d);
              ScanInt(blanks + (sign + (d + rest))) ==
              if -0x8000_0000 <= v <= 0x7FFF_FFFF then Got(v, rest) else Fail
  {
    assert d != "" ==> (d + rest)[0] == d[0];
    assert d == "" ==> d + rest == rest;
    SignScanned(blanks, sign, d + rest);
    DigitsScanned(Signed(sign == "-", d + rest), d, rest);
  }

  /** A mantissa: digits, and if a point follows, the digits after it; either part may be missing, but not both. */
  lemma MantissaScanned(d: string, t: string, tail: string)
    requires AllDigits(d) && AllDigits(t) && (tail == "" || !IsDigit(tail[0]))
    ensures d + t == "" ==> MantissaFrom(d + (['.'] + (t + tail))) == Fail
    ensures AllDigits(d + t)
    ensures d + t != "" ==> MantissaFrom(d + (['.'] + (t + tail))) == Got(Shift(ValueOf(d + t) as real, |t|), tail)
    ensures tail == "" || tail[0] != '.' ==>
              MantissaFrom(d + tail) == if d == "" then Fail else Got(ValueOf(d) as real, tail)
  {
    var s := d + (['.'] + (t + tail));
    DigitRunOf(d, ['.'] + (t + tail));
    DigitRunOf(t, tail);
    DigitRunOf(d, tail);
    assert s[|d| + 1..] == t + tail && s[..|d|] == d && s[|d|] == '.';
  }

  /** An exponent scales by powers of ten, either way; an e that no digits follow ends the number for stod, and spoils
      it for the stream. */
  lemma ExponentScanned(v: real, e: char, sign: string, k: string, tail: string, reader: Reader)
    requires e in {'e', 'E'} && sign in {"", "+", "-"} && AllDigits(k) && (tail == "" || !IsDigit(tail[0]))
    requires sign == "" && k == "" ==> tail == "" || (tail[0] != '+' && tail[0] != '-')
    ensures k != "" ==>
              ExponentFrom(v, [e] + (sign + (k + tail)), reader) ==
              Got(if sign == "-" then Shift(v, ValueOf(k)) else Grow(v, ValueOf(k)), tail)
    ensures k == "" ==>
              ExponentFrom(v, [e] + (sign + (k + tail)), reader) ==
              if reader == Stod then Got(v, [e] + (sign + (k + tail))) else Fail
  {
    var rest, digits := [e] + (sign + (k + tail)), k + tail;
    assert sign == "" ==> rest[1..] == digits;
    assert sign != "" ==> rest[1] == sign[0] && rest[2..] == digits && rest[1..] != "";
    assert k == "" ==> digits == tail;
    DigitRunOf(k, tail);
    ExponentDigits(v, rest, digits, sign, k, tail, reader);
  }

  lemma ExponentDigits(v: real, rest: string, digits: string, sign: string, k: string, tail: string, reader: Reader)
    requires rest != "" && rest[0] in {'e', 'E'} && sign in {"", "+", "-"} && AllDigits(k)
    requires sign == "" ==> rest[1..] == digits && (digits == "" || (digits[0] != '+' && digits[0] != '-'))
    requires sign != "" ==> rest[1..] != "" && rest[1] == sign[0] && rest[2..] == digits
    requires DigitRun(digits) == |k| && digits[..|k|] == k && digits[|k|..] == tail
    ensures ExponentFrom(v, rest, reader) ==
            if k != "" then Got(if sign == "-" then Shift(v, ValueOf(k)) else Grow(v, ValueOf(k)), tail)
            else if reader == Stod then Got(v, rest)
            else Fail
  {
  }

  // ---------- Any line ----------

  /** The updater on a line without a comma: no number throws, a number alone is passed over. */
  lemma UpdaterWithoutComma(line: string)
    requires line != "" && ',' !in line
    ensures UpdaterEntry(line) == if ScanInt(line) == Fail then Throw else Skip
  {
    IndexOfNone(line, ',');
    assert line[..|line|] == line;
  }

  /** On a line with commas only the first two tokens count; a missing price is passed over, one that is no number
      throws. */
  lemma UpdaterWithComma(code: string, price: string, more: string)
    requires ',' !in code && ',' !in price && (more == "" || more[0] == ',')
    ensures ScanInt(code) == Fail ==> UpdaterEntry(code + [','] + (price + more)) == Throw
    ensures ScanInt(code).Got? ==>
              UpdaterEntry(code + [','] + (price + more)) ==
              if price + more == "" then Skip
              else if ScanDecimal(price, Stod) == Fail then Throw
              else Pair(ScanInt(code).value, ScanDecimal(price, Stod).value)
  {
    IndexOfFirst(code, ',', price + more);
    if more == "" {
      assert price + more == price;
      IndexOfNone(price, ',');
      assert price[..|price|] == price;
    } else {
      assert price + more == price + [','] + more[1..];
      IndexOfFirst(price, ',', more[1..]);
    }
  }

  /** The server takes the number at the start of the line and the one behind the next character that is not blank,
      whatever that is; a line without both, or with a code beyond 32 bits, is passed over. */
  lemma {:induction false} ServerOnLine(sign: string, d: string, blanks: string, c: char, tail: string)
    requires sign in {"", "+", "-"} && AllDigits(d) && d != "" && Blank(blanks) && !IsBlank(c)
    requires blanks == "" ==> !IsDigit(c)
    ensures var v: int := if sign == "-" then -(ValueOf(d) as int) else ValueOf(d);
            && ServerEntry(sign + (d + blanks)) == Skip
            && ServerEntry(sign + (d + (blanks + ([c] + tail)))) ==
               if !(-0x8000_0000 <= v <= 0x7FFF_FFFF) || ScanDecimal(tail, Extractor) == Fail then Skip
               else Pair(v, ScanDecimal(tail, Extractor).value)
  {
    var rest := blanks + ([c] + tail);
    assert blanks != "" ==> rest[0] == blanks[0] && IsBlank(blanks[0]);
    IntScanned("", sign, d, rest);
    IntScanned("", sign, d, blanks);
    assert "" + (sign + (d + rest)) == sign + (d + rest) && "" + (sign + (d + blanks)) == sign + (d + blanks);
    BlanksSkipped(blanks, [c] + tail);
    BlanksSkipped(blanks, "");
    assert blanks + "" == blanks && ([c] + tail)[1..] == tail;
  }

  /** One bad token and the updater has no map at all. */
  lemma {:induction false} AnyThrowIsFinal(entries: seq<Entry>)
    ensures UpdaterMap(entries) == None <==> Throw in entries
  {
    if entries != [] {
      var n := |entries| - 1;
      assert entries == entries[..n] + [entries[n]];
      AnyThrowIsFinal(entries[..n]);
    }
  }
}
