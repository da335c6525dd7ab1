/** The customer_data table and what one GPS frame does to it, on values. */
module Ledger {
  import opened Options
  import opened Rounding
  import opened Prices
  import opened Octets

  /** A decoded frame with its arrival time in milliseconds of local wall-clock time. */
  datatype Frame = Frame(device: UInt16, status: UInt16, x: real, y: real, now: int)

  const OPEN := 1
  const CLOSED := 0

  /** One row of customer_data. Fees are in cents, times in milliseconds. */
  datatype Row = Row(
    id: int, customer: UInt16, city: int, lat: real, lng: real,
    status: int, minutes: int, fee: int, createdAt: int, endedAt: Option<int>)

  /** The bound parameters of the open-session queries. */
  datatype Query = Query(customer: UInt16, city: int, x: real, y: real)

  /** The WHERE clause of the open-session queries: tolerances, not equality. */
  predicate Matches(r: Row, q: Query) {
    && r.customer == q.customer
    && r.city == q.city
    && Near(r.lat, q.x)
    && Near(r.lng, q.y)
    && r.status == OPEN
  }

  /** SELECT rowid ... LIMIT 1 returns a row. */
  predicate HasMatch(rows: seq<Row>, q: Query) {
    exists i :: 0 <= i < |rows| && Matches(rows[i], q)
  }

  /** SELECT rowid, created_at ... ORDER BY created_at DESC LIMIT 1, as an index. */
  function LatestMatch(rows: seq<Row>, q: Query): (found: Option<nat>)
    ensures found.None? <==> !HasMatch(rows, q)
    ensures found.Some? ==>
              && found.value < |rows|
              && Matches(rows[found.value], q)
              && forall i :: 0 <= i < |rows| && Matches(rows[i], q) ==> rows[i].createdAt <= rows[found.value].createdAt
  {
    if rows == [] then None
    else
      var n := |rows| - 1;
      assert forall i :: 0 <= i < n ==> rows[i] == rows[..n][i];
      var best := LatestMatch(rows[..n], q);
      if Matches(rows[n], q) && (best.None? || rows[best.value].createdAt < rows[n].createdAt)
      then Some(n)
      else best
  }

  /** strftime('%s'): whole seconds. */
  function Seconds(ms: int): int {
    ms / 1000
  }

  /** CAST((now - created) / 60 AS INTEGER). */
  function Minutes(now: int, created: int): int {
    TruncSixtieth(Seconds(now) - Seconds(created))
  }

  /** round(price * minutes / 60 * 100) / 100, in cents. */
  function FeeCents(price: int, minutes: int): int {
    RoundSixtieth(price * minutes)
  }

  function OpenRow(id: int, q: Query, now: int): Row {
    Row(id, q.customer, q.city, q.x, q.y, OPEN, 0, 0, now, None)
  }

  function CloseRow(r: Row, now: int, price: int): Row {
    var minutes := Minutes(now, r.createdAt);
    r.(status := CLOSED, minutes := minutes, fee := FeeCents(price, minutes), endedAt := Some(now))
  }

  /** Everything a frame can read or change. */
  datatype Db = Db(rows: seq<Row>, prices: seq<PriceRow>, cache: map<int, int>)

  /** What the server logs, and answers, for one frame. */
  datatype Outcome =
    | Ignored
    | AlreadyOpen
    | Opened
    | NothingOpen
    | Closed(price: int, minutes: int, fee: int)

  function QueryOf(prices: seq<PriceRow>, f: Frame): Query {
    var x := Round3(f.x);
    var y := Round3(f.y);
    Query(f.device, FindCity(prices, x, y), x, y)
  }

  /** The body of run_loop for one complete frame. */
  function ApplyFrame(db: Db, f: Frame): (Db, Outcome) {
    var q := QueryOf(db.prices, f);
    if f.status == OPEN then
      if HasMatch(db.rows, q) then (db, AlreadyOpen)
      else (db.(rows := db.rows + [OpenRow(|db.rows| + 1, q, f.now)]), Opened)
    else if f.status == CLOSED then
      match LatestMatch(db.rows, q)
      case None => (db, NothingOpen)
      case Some(i) =>
        var price := ChargedPrice(db.cache, db.prices, q.city);
        var after := CloseRow(db.rows[i], f.now, price);
        (db.(rows := db.rows[i := after]), Closed(price, after.minutes, after.fee))
    else (db, Ignored)
  }

  /** Between frames a reload or an updater may replace the prices and the cache. */
  datatype Event = Arrive(frame: Frame) | Reprice(prices: seq<PriceRow>, cache: map<int, int>)

  function Step(db: Db, e: Event): (Db, seq<Outcome>) {
    match e
    case Arrive(f) =>
      var (after, o) := ApplyFrame(db, f);
      (after, [o])
    case Reprice(prices, cache) => (Db(db.rows, prices, cache), [])
  }

  function Run(db: Db, es: seq<Event>): (Db, seq<Outcome>)
    decreases es
  {
    if es == [] then (db, [])
    else
      var (db1, o1) := Step(db, es[0]);
      var (db2, o2) := Run(db1, es[1..]);
      (db2, o1 + o2)
  }

  /** The exact identity of a session: customer, city code and thousandths of a degree. */
  datatype Key = Key(customer: UInt16, city: int, milliLat: int, milliLng: int)

  function KeyOf(r: Row): Key {
    Key(r.customer, r.city, Milli(r.lat), Milli(r.lng))
  }

  function FrameKey(prices: seq<PriceRow>, f: Frame): Key {
    Key(f.device, FindCity(prices, Round3(f.x), Round3(f.y)), Milli(f.x), Milli(f.y))
  }

  predicate IsOpen(r: Row, k: Key) {
    r.status == OPEN && KeyOf(r) == k
  }

  /** The table invariant: ids count up, coordinates are rounded, one open row per key. */
  ghost predicate Valid(rows: seq<Row>) {
    && (forall i :: 0 <= i < |rows| ==> rows[i].id == i + 1)
    && (forall i :: 0 <= i < |rows| ==> OnGrid(rows[i].lat) && OnGrid(rows[i].lng))
    && (forall i :: 0 <= i < |rows| ==> rows[i].status == OPEN || rows[i].status == CLOSED)
    && (forall i, j :: 0 <= i < j < |rows| && rows[i].status == OPEN && rows[j].status == OPEN ==>
          KeyOf(rows[i]) != KeyOf(rows[j]))
  }

  /** On rounded coordinates the tolerance scan asks for one exact key. */
  lemma MatchIsKey(r: Row, prices: seq<PriceRow>, f: Frame)
    requires OnGrid(r.lat) && OnGrid(r.lng)
    ensures Matches(r, QueryOf(prices, f)) <==> IsOpen(r, FrameKey(prices, f))
  { }

  lemma OpenedRowKey(id: int, prices: seq<PriceRow>, f: Frame)
    ensures KeyOf(OpenRow(id, QueryOf(prices, f), f.now)) == FrameKey(prices, f)
    ensures OnGrid(Round3(f.x)) && OnGrid(Round3(f.y))
  { }

  /** Row i is the open row of key k. */
  ghost predicate OpenAt(rows: seq<Row>, k: Key, i: int) {
    0 <= i < |rows| && IsOpen(rows[i], k)
  }

  /** Both scans look for the one open row of the frame's key. */
  lemma ScansByKey(rows: seq<Row>, prices: seq<PriceRow>, f: Frame)
    requires Valid(rows)
    ensures HasMatch(rows, QueryOf(prices, f)) <==> exists i :: OpenAt(rows, FrameKey(prices, f), i)
    ensures forall i :: OpenAt(rows, FrameKey(prices, f), i) ==> LatestMatch(rows, QueryOf(prices, f)) == Some(i)
  {
    var q := QueryOf(prices, f);
    var k := FrameKey(prices, f);
    forall i | 0 <= i < |rows|
      ensures Matches(rows[i], q) <==> OpenAt(rows, k, i)
    {
      MatchIsKey(rows[i], prices, f);
    }
  }

  /** What a frame does, told by keys: every tolerance, LIMIT and ORDER BY is gone. */
  lemma FrameByKey(db: Db, f: Frame)
    requires Valid(db.rows)
    ensures var k := FrameKey(db.prices, f);
            var (after, o) := ApplyFrame(db, f);
            && after.prices == db.prices && after.cache == db.cache
            && (f.status == OPEN ==>
                  if exists i :: OpenAt(db.rows, k, i)
                  then after == db && o == AlreadyOpen
                  else o == Opened && after.rows == db.rows + [OpenRow(|db.rows| + 1, QueryOf(db.prices, f), f.now)])
            && (f.status == CLOSED ==>
                  if exists i :: OpenAt(db.rows, k, i)
                  then
                    var price := ChargedPrice(db.cache, db.prices, k.city);
                    forall i :: OpenAt(db.rows, k, i) ==>
                      && after.rows == db.rows[i := CloseRow(db.rows[i], f.now, price)]
                      && o == Closed(price, after.rows[i].minutes, after.rows[i].fee)
                  else after == db && o == NothingOpen)
            && (f.status != OPEN && f.status != CLOSED ==> after == db && o == Ignored)
  {
    ScansByKey(db.rows, db.prices, f);
  }

  /** A close charges the looked-up price of the frame's city. */
  lemma ClosedCharge(db: Db, f: Frame)
    requires Valid(db.rows)
    ensures var o := ApplyFrame(db, f).1;
            o.Closed? ==>
              && o.fee == FeeCents(o.price, o.minutes)
              && o.price == ChargedPrice(db.cache, db.prices, FrameKey(db.prices, f).city)
  {
  }

  lemma OpeningKeepsValid(rows: seq<Row>, r: Row)
    requires Valid(rows) && r.id == |rows| + 1 && OnGrid(r.lat) && OnGrid(r.lng) && r.status == OPEN
    requires forall i :: !OpenAt(rows, KeyOf(r), i)
    ensures Valid(rows + [r])
  {
    forall i | 0 <= i < |rows| && rows[i].status == OPEN
      ensures KeyOf(rows[i]) != KeyOf(r)
    {
      assert !OpenAt(rows, KeyOf(r), i);
    }
  }

  lemma ClosingKeepsValid(rows: seq<Row>, i: nat, now: int, price: int)
    requires Valid(rows) && i < |rows|
    ensures Valid(rows[i := CloseRow(rows[i], now, price)])
  {
  }

  lemma FrameKeepsValid(db: Db, f: Frame)
    requires Valid(db.rows)
    ensures Valid(ApplyFrame(db, f).0.rows)
  {
    FrameByKey(db, f);
    OpenedRowKey(|db.rows| + 1, db.prices, f);
    var k := FrameKey(db.prices, f);
    if i :| OpenAt(db.rows, k, i) {
      ClosingKeepsValid(db.rows, i, f.now, ChargedPrice(db.cache, db.prices, k.city));
    } else if f.status == OPEN {
      OpeningKeepsValid(db.rows, OpenRow(|db.rows| + 1, QueryOf(db.prices, f), f.now));
    }
  }

  /** The invariant holds after every run. */
  lemma {:induction false} RunKeepsValid(db: Db, es: seq<Event>)
    requires Valid(db.rows)
    ensures Valid(Run(db, es).0.rows)
    decreases es
  {
    if es != [] {
      if es[0].Arrive? {
        FrameKeepsValid(db, es[0].frame);
      }
      RunKeepsValid(Step(db, es[0]).0, es[1..]);
    }
  }

  /** What a run's answers add up to. */
  datatype Tally = Tally(opens: nat, closes: nat, fees: int, priceMinutes: int)

  function One(o: Outcome): Tally {
    match o
    case Opened => Tally(1, 0, 0, 0)
    case Closed(price, minutes, fee) => Tally(0, 1, fee, price * minutes)
    case _ => Tally(0, 0, 0, 0)
  }

  function Plus(s: Tally, t: Tally): Tally {
    Tally(s.opens + t.opens, s.closes + t.closes, s.fees + t.fees, s.priceMinutes + t.priceMinutes)
  }

  function TallyOf(os: seq<Outcome>): Tally {
    if os == [] then Tally(0, 0, 0, 0) else Plus(One(os[0]), TallyOf(os[1..]))
  }

  lemma TallySingle(o: Outcome)
    ensures TallyOf([o]) == One(o)
  { }

  lemma PlusCloses(t: Tally, o: Outcome)
    ensures Plus(t, One(o)).closes == t.closes + if o.Closed? then 1 else 0
  {
  }

  lemma PlusIsAssociative(s: Tally, t: Tally, u: Tally)
    ensures Plus(Plus(s, t), u) == Plus(s, Plus(t, u))
  {
  }

  lemma {:induction false} TallyAppend(a: seq<Outcome>, b: seq<Outcome>)
    ensures TallyOf(a + b) == Plus(TallyOf(a), TallyOf(b))
  {
    if a == [] {
      assert a + b == b;
    } else {
      assert (a + b)[1..] == a[1..] + b;
      TallyAppend(a[1..], b);
      PlusIsAssociative(One(a[0]), TallyOf(a[1..]), TallyOf(b));
    }
  }

  // ---------- A frame in numbers ----------

  /** Each end of a stay is cut to whole seconds on its own; a minute counts once its sixty seconds are over. */
  lemma MinutesInSeconds(now: int, created: int, m: int)
    ensures created <= now ==> (Minutes(now, created) == m <==> 60 * m <= now / 1000 - created / 1000 < 60 * m + 60)
    ensures now < created ==> (Minutes(now, created) == m <==> 60 * m - 60 < now / 1000 - created / 1000 <= 60 * m)
  {
  }

  /** A fee is the nearest cent, and half a cent counts as a whole one. */
  lemma FeeInCents(price: int, minutes: int, c: int)
    ensures price * minutes >= 0 ==> (FeeCents(price, minutes) == c <==> 60 * c - 30 <= price * minutes < 60 * c + 30)
    ensures price * minutes < 0 ==> (FeeCents(price, minutes) == c <==> 60 * c - 30 < price * minutes <= 60 * c + 30)
  {
  }

  /** The frame's customer has an open row at its city, within a ten-thousandth of a degree of (x, y) both ways. */
  predicate Parked(r: Row, customer: UInt16, city: int, x: real, y: real) {
    && r.customer == customer && r.city == city && r.status == 1
    && -0.0001 < r.lat - x < 0.0001 && -0.0001 < r.lng - y < 0.0001
  }

  lemma MatchInNumbers(r: Row, q: Query)
    ensures Matches(r, q) <==> Parked(r, q.customer, q.city, q.x, q.y)
  {
  }

  lemma HasMatchInNumbers(rows: seq<Row>, q: Query)
    ensures HasMatch(rows, q) <==> exists i :: 0 <= i < |rows| && Parked(rows[i], q.customer, q.city, q.x, q.y)
  {
    forall i | 0 <= i < |rows|
      ensures Matches(rows[i], q) <==> Parked(rows[i], q.customer, q.city, q.x, q.y)
    {
      MatchInNumbers(rows[i], q);
    }
  }

  /** What the queries of a frame are bound to: its device, its rounded place and the city found there. */
  lemma QueryInNumbers(prices: seq<PriceRow>, f: Frame, x: real, y: real)
    requires x == Milli(f.x) as real / 1000.0 && y == Milli(f.y) as real / 1000.0
    ensures QueryOf(prices, f) == Query(f.device, FindCity(prices, x, y), x, y)
  {
  }

  /** A START frame, field by field. */
  lemma StartInNumbers(db: Db, f: Frame, q: Query)
    requires f.status == 1 && q == QueryOf(db.prices, f)
    ensures ApplyFrame(db, f) ==
            if exists i :: 0 <= i < |db.rows| && Parked(db.rows[i], q.customer, q.city, q.x, q.y)
            then (db, AlreadyOpen)
            else
              (db.(rows := db.rows + [Row(|db.rows| + 1, q.customer, q.city, q.x, q.y, 1, 0, 0, f.now, None)]), Opened)
  {
    HasMatchInNumbers(db.rows, q);
  }

  /** An END frame, field by field: the row that started last among those it matches is closed. */
  lemma EndInNumbers(db: Db, f: Frame, q: Query, i: nat)
    requires f.status == 0 && q == QueryOf(db.prices, f)
    requires i < |db.rows| && Parked(db.rows[i], q.customer, q.city, q.x, q.y)
    requires forall j :: 0 <= j < |db.rows| && j != i && Parked(db.rows[j], q.customer, q.city, q.x, q.y) ==>
               db.rows[j].createdAt < db.rows[i].createdAt
    ensures var price := ChargedPrice(db.cache, db.prices, q.city);
            var minutes := Minutes(f.now, db.rows[i].createdAt);
            var fee := FeeCents(price, minutes);
            var closed := db.rows[i].(status := 0, minutes := minutes, fee := fee, endedAt := Some(f.now));
            ApplyFrame(db, f) == (db.(rows := db.rows[i := closed]), Closed(price, minutes, fee))
  {
    LatestInNumbers(db.rows, q, i);
  }

  lemma LatestInNumbers(rows: seq<Row>, q: Query, i: nat)
    requires i < |rows| && Parked(rows[i], q.customer, q.city, q.x, q.y)
    requires forall j :: 0 <= j < |rows| && j != i && Parked(rows[j], q.customer, q.city, q.x, q.y) ==>
               rows[j].createdAt < rows[i].createdAt
    ensures LatestMatch(rows, q) == Some(i)
  {
    MatchInNumbers(rows[i], q);
    assert HasMatch(rows, q);
    var found := LatestMatch(rows, q).value;
    MatchInNumbers(rows[found], q);
  }

  /** An END frame that matches no open row changes nothing, and nor does any other status. */
  lemma NothingInNumbers(db: Db, f: Frame, q: Query)
    requires q == QueryOf(db.prices, f)
    ensures f.status == 0 && !(exists i :: 0 <= i < |db.rows| && Parked(db.rows[i], q.customer, q.city, q.x, q.y)) ==>
              ApplyFrame(db, f) == (db, NothingOpen)
    ensures f.status != 0 && f.status != 1 ==> ApplyFrame(db, f) == (db, Ignored)
  {
    HasMatchInNumbers(db.rows, q);
  }
}
