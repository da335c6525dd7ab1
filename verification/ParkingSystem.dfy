/** Cars and price updates together: the ledger's frames interleaved with the price protocol's steps. */
module ParkingSystem {
  import opened Prices
  import opened Ledger
  import opened Printing
  import Protocol = PriceProtocol
  import opened PriceSignals
  import opened PriceSources

  datatype Move = Price(step: Protocol.Event) | Car(frame: Frame)

  datatype World = World(prices: Protocol.State, rows: seq<Row>) {
    /** What a frame sees of the world. */
    function AsDb(): Db {
      Db(rows, prices.db, prices.cache)
    }
  }

  /** A frame is handled between reloads; price steps follow the protocol. */
  ghost predicate Enabled(w: World, m: Move) {
    match m
    case Price(e) => Protocol.Enabled(w.prices, e)
    case Car(_) => w.prices.server.Serving?
  }

  function Do(w: World, m: Move): (World, seq<Outcome>) {
    match m
    case Price(e) => (w.(prices := Protocol.Do(w.prices, e)), [])
    case Car(f) =>
      var (db, o) := ApplyFrame(w.AsDb(), f);
      (w.(rows := db.rows), [o])
  }

  ghost predicate Legal(w: World, ms: seq<Move>)
    decreases ms
  {
    ms == [] || (Enabled(w, ms[0]) && Legal(Do(w, ms[0]).0, ms[1..]))
  }

  function Exec(w: World, ms: seq<Move>): (World, seq<Outcome>)
    decreases ms
  {
    if ms == [] then (w, [])
    else
      var (w1, o1) := Do(w, ms[0]);
      var (w2, o2) := Exec(w1, ms[1..]);
      (w2, o1 + o2)
  }

  /** The price steps of a run. */
  function PriceSteps(ms: seq<Move>): seq<Protocol.Event> {
    if ms == [] then []
    else (match ms[0] case Price(e) => [e] case Car(_) => []) + PriceSteps(ms[1..])
  }

  /** The run as the ledger sees it: every price step may replace the table and the cache. */
  function LedgerEvents(s: Protocol.State, ms: seq<Move>): seq<Ledger.Event>
    decreases ms
  {
    if ms == [] then []
    else
      match ms[0]
      case Price(e) =>
        var t := Protocol.Do(s, e);
        [Reprice(t.db, t.cache)] + LedgerEvents(t, ms[1..])
      case Car(f) => [Arrive(f)] + LedgerEvents(s, ms[1..])
  }

  /** A frame changes nothing but rows. */
  lemma FrameKeepsPrices(db: Db, f: Frame)
    ensures ApplyFrame(db, f).0.prices == db.prices && ApplyFrame(db, f).0.cache == db.cache
  {
  }

  /** Cars do not disturb the protocol: the prices of the world run as if no frame had come. */
  lemma {:induction false} PricesRunAlone(w: World, ms: seq<Move>)
    requires Legal(w, ms)
    ensures Protocol.Legal(w.prices, PriceSteps(ms))
    ensures Exec(w, ms).0.prices == Protocol.Exec(w.prices, PriceSteps(ms))
    decreases ms
  {
    if ms != [] {
      PricesRunAlone(Do(w, ms[0]).0, ms[1..]);
      var rest := PriceSteps(ms[1..]);
      match ms[0]
      case Price(e) => assert ([e] + rest)[0] == e && ([e] + rest)[1..] == rest;
      case Car(f) => assert [] + rest == rest;
    }
  }

  /** And whatever the protocol does, the rows run as a ledger run: every theorem about those holds here. */
  lemma {:induction false} RowsRunAsLedger(w: World, ms: seq<Move>)
    ensures var (w1, os) := Exec(w, ms);
            var (db, los) := Run(w.AsDb(), LedgerEvents(w.prices, ms));
            w1.rows == db.rows && os == los
    decreases ms
  {
    if ms != [] {
      RowsRunAsLedger(Do(w, ms[0]).0, ms[1..]);
      match ms[0]
      case Price(e) =>
        var t := Protocol.Do(w.prices, e);
        var rest := LedgerEvents(t, ms[1..]);
        assert ([Reprice(t.db, t.cache)] + rest)[1..] == rest;
      case Car(f) =>
        var rest := LedgerEvents(w.prices, ms[1..]);
        FrameKeepsPrices(w.AsDb(), f);
        assert ([Arrive(f)] + rest)[1..] == rest;
    }
  }

  /** Whenever a car leaves, in any interleaving: the fee is the rounded price for its minutes, and the price is 0, one
      its city had at the start, one an updater published for that city or a restart seeded, or the six digits of one
      of these. */
  lemma {:induction false} EveryFeeHasASource(w: World, ms: seq<Move>, f: Frame, known: set<(int, int)>)
    requires Valid(w.rows) && AllKnown(w.prices, known) && Legal(w, ms)
    ensures var t := Exec(w, ms).0;
            var o := ApplyFrame(t.AsDb(), f).1;
            o.Closed? ==>
              && o.fee == FeeCents(o.price, o.minutes)
              && (o.price == 0 || (FrameKey(t.prices.db, f).city, o.price) in Ink(known + Published(PriceSteps(ms))))
  {
    var t := Exec(w, ms).0;
    PricesRunAlone(w, ms);
    RowsStayValid(w, ms);
    PricesStayKnown(w.prices, PriceSteps(ms), known);
    KnownCharge(t.prices, FrameKey(t.prices.db, f).city, Ink(known + Published(PriceSteps(ms))));
    ClosedCharge(t.AsDb(), f);
  }

  lemma RowsStayValid(w: World, ms: seq<Move>)
    requires Valid(w.rows)
    ensures Valid(Exec(w, ms).0.rows)
  {
    RowsRunAsLedger(w, ms);
    RunKeepsValid(w.AsDb(), LedgerEvents(w.prices, ms));
  }

  /** If the last updater's SIGHUP found the server serving and all is quiet, the table carries, for the city of any car
      that leaves, the printout of the price charged: the same price if its six digits are enough. */
  lemma {:induction false} QuietFeeIsTablePrice(w: World, ms: seq<Move>, f: Frame,
                                                a: seq<Protocol.Event>, b: seq<Protocol.Event>)
    requires Valid(w.rows) && Protocol.Inv(w.prices) && Legal(w, ms)
    requires PriceSteps(ms) == a + [Protocol.Signal] + b && NoSignal(b) && NoRestart(b)
    requires Protocol.Exec(w.prices, a).server.Serving? && Protocol.Quiescent(Exec(w, ms).0.prices)
    ensures var t := Exec(w, ms).0;
            var o := ApplyFrame(t.AsDb(), f).1;
            var tablePrice := DbPrice(t.prices.db, FrameKey(t.prices.db, f).city);
            o.Closed? ==>
              && o.fee == FeeCents(o.price, o.minutes)
              && tablePrice == Printed(o.price)
              && (SixDigit(o.price) ==> o.fee == FeeCents(tablePrice, o.minutes))
  {
    PricesRunAlone(w, ms);
    RowsStayValid(w, ms);
    LastSignalDecides(w.prices, a, b);
    ClosedCharge(Exec(w, ms).0.AsDb(), f);
  }
}
