/** Where a charged price can come from, across all interleavings. */
module PriceSources {
  import opened Options
  import opened Prices
  import opened PriceDb
  import opened Printing
  import opened PriceProtocol

  ghost predicate Within(m: map<int, int>, known: set<(int, int)>) {
    forall c :: c in m ==> (c, m[c]) in known
  }

  ghost predicate LinesWithin(lines: Listing, known: set<(int, int)>) {
    forall i :: 0 <= i < |lines| ==> lines[i] in known
  }

  ghost predicate RowsWithin(db: seq<PriceRow>, known: set<(int, int)>) {
    forall i :: 0 <= i < |db| ==> (db[i].code, db[i].price) in known
  }

  /** Every price held anywhere is known for its code. */
  ghost predicate AllKnown(s: State, known: set<(int, int)>) {
    && LinesWithin(s.file, known)
    && Within(s.shm, known)
    && RowsWithin(s.db, known)
    && Within(s.cache, known)
    && (s.updater.Resting? || Within(s.updater.m, known))
    && (s.server.HasFile? ==> LinesWithin(s.server.lines, known))
  }

  /** Prices and what is left of them in print. */
  ghost function Ink(known: set<(int, int)>): set<(int, int)> {
    known + set k | k in known :: (k.0, Printed(k.1))
  }

  ghost predicate Closed(known: set<(int, int)>) {
    forall c, p :: (c, p) in known ==> (c, Printed(p)) in known
  }

  lemma InkIsClosed(known: set<(int, int)>)
    ensures Closed(Ink(known))
  {
    forall c, p | (c, p) in Ink(known)
      ensures (c, Printed(p)) in Ink(known)
    {
      InkAgain(known, c, p);
    }
  }

  lemma InkAgain(known: set<(int, int)>, c: int, p: int)
    requires (c, p) in Ink(known)
    ensures (c, Printed(p)) in Ink(known)
  {
    if (c, p) !in known {
      var k :| k in known && (c, p) == (k.0, Printed(k.1));
      PrintedIsSixDigit(k.1);
    }
  }

  lemma InkOfUnion(a: set<(int, int)>, b: set<(int, int)>)
    ensures Ink(a + b) == Ink(a) + Ink(b)
  {
  }

  lemma UnionIsClosed(a: set<(int, int)>, b: set<(int, int)>)
    requires Closed(a) && Closed(b)
    ensures Closed(a + b)
  {
  }

  /** The prices a table holds. */
  function PricesOf(db: seq<PriceRow>): set<(int, int)> {
    set i | 0 <= i < |db| :: (db[i].code, db[i].price)
  }

  /** The prices updater runs publish and restarts seed. */
  function Published(es: seq<Event>): set<(int, int)> {
    if es == [] then {}
    else
      (match es[0]
       case Begin(Add(_, code, _, _, price)) => {(code, price)}
       case Begin(Change(code, price)) => {(code, price)}
       case Restart => PricesOf(CITIES)
       case _ => {}) + Published(es[1..])
  }

  lemma MapWithin(lines: Listing, known: set<(int, int)>)
    requires LinesWithin(lines, known)
    ensures Within(MapOf(lines), known)
  { }

  lemma PutAllWithin(db: seq<PriceRow>, kvs: Listing, name: string, lat: real, lng: real, known: set<(int, int)>)
    requires RowsWithin(db, known) && LinesWithin(kvs, known)
    ensures RowsWithin(PutAll(db, kvs, Some(name), lat, lng), known)
  {
    var after := PutAll(db, kvs, Some(name), lat, lng);
    PutAllKeepsRows(db, kvs, Some(name), lat, lng);
    PutAllAppended(db, kvs, name, lat, lng);
    MapWithin(kvs, known);
    forall i | 0 <= i < |after|
      ensures (after[i].code, after[i].price) in known
    {
      if i < |db| {
        assert SamePlace(after[i], db[i]);
      }
    }
  }

  lemma StoreWithin(s: State, kvs: Listing, known: set<(int, int)>)
    requires AllKnown(s, known) && Enabled(s, Store(kvs))
    ensures AllKnown(Do(s, Store(kvs)), known)
  {
    assert LinesWithin(kvs, known) by {
      forall i | 0 <= i < |kvs|
        ensures kvs[i] in known
      {
        var c := kvs[i].0;
        assert c in s.updater.m && (c, s.updater.m[c]) in known;
      }
    }
    match s.updater.op
    case Add(city, _, lat, lng, _) => PutAllWithin(s.db, kvs, city, lat, lng, known);
    case Change(_, _) => PutAllWithin(s.db, kvs, "", 0.0, 0.0, known);
    case Remove(code) =>
      DeleteTheorem(s.db, code);
      forall i | 0 <= i < |DeleteCode(s.db, code)|
        ensures (DeleteCode(s.db, code)[i].code, DeleteCode(s.db, code)[i].price) in known
      {
        assert DeleteCode(s.db, code)[i] in s.db;
      }
  }

  lemma SaveWithin(s: State, kvs: Listing, known: set<(int, int)>)
    requires AllKnown(s, known) && Closed(known) && Enabled(s, Save(kvs))
    ensures AllKnown(Do(s, Save(kvs)), known)
  {
    forall i | 0 <= i < |kvs|
      ensures Printout(kvs)[i] in known
    {
      var c := kvs[i].0;
      assert c in s.updater.m && (c, s.updater.m[c]) in known;
    }
  }

  lemma SeedWithin(db: seq<PriceRow>, known: set<(int, int)>)
    requires RowsWithin(db, known)
    ensures RowsWithin(SeedAll(db, CITIES), known + PricesOf(CITIES))
  {
    SeedCovers(db, CITIES);
    var after := SeedAll(db, CITIES);
    forall i | 0 <= i < |after|
      ensures (after[i].code, after[i].price) in known + PricesOf(CITIES)
    {
      if i < |db| {
        assert after[i] == db[i];
      } else {
        SeedAddsOnlyNew(db, CITIES, i);
        var j :| 0 <= j < |CITIES| && CITIES[j] == after[i];
      }
    }
  }

  lemma StartWithin(db: seq<PriceRow>, shm: map<int, int>, known: set<(int, int)>)
    requires RowsWithin(db, known) && Within(shm, known) && Closed(known)
    ensures AllKnown(Started(db, shm), known)
  {
    forall i | 0 <= i < |db|
      ensures FileFromDb(db)[i] in known
    {
      assert (db[i].code, db[i].price) in known;
    }
  }

  lemma RowsWithinMore(db: seq<PriceRow>, known: set<(int, int)>, more: set<(int, int)>)
    requires RowsWithin(db, known) && known <= more
    ensures RowsWithin(db, more)
  {
  }

  lemma RestartWithin(s: State, known: set<(int, int)>)
    requires AllKnown(s, known) && Closed(known)
    ensures AllKnown(Do(s, Restart), known + Ink(PricesOf(CITIES)))
  {
    var more := known + Ink(PricesOf(CITIES));
    SeedWithin(s.db, known);
    RowsWithinMore(SeedAll(s.db, CITIES), known + PricesOf(CITIES), more);
    InkIsClosed(PricesOf(CITIES));
    UnionIsClosed(known, Ink(PricesOf(CITIES)));
    StartWithin(SeedAll(s.db, CITIES), s.shm, more);
  }

  lemma StepWithin(s: State, e: Event, known: set<(int, int)>)
    requires AllKnown(s, known) && Closed(known) && Enabled(s, e)
    ensures AllKnown(Do(s, e), known + Ink(Published([e])))
  {
    assert [e][1..] == [];
    match e
    case Begin(op) => MapWithin(s.file, known);
    case Save(kvs) => SaveWithin(s, kvs, known);
    case Store(kvs) => StoreWithin(s, kvs, known);
    case Apply =>
      MergeTheorem(s.db, s.server.lines);
      MapWithin(s.server.lines, known);
    case Restart =>
      assert Published([e]) == PricesOf(CITIES);
      RestartWithin(s, known);
    case _ =>
  }

  lemma {:induction false} RunWithin(s: State, es: seq<Event>, known: set<(int, int)>)
    requires AllKnown(s, known) && Closed(known) && Legal(s, es)
    ensures AllKnown(Exec(s, es), known + Ink(Published(es)))
    decreases es
  {
    if es == [] {
      assert known + Ink({}) == known;
    } else {
      var more := known + Ink(Published([es[0]]));
      StepWithin(s, es[0], known);
      InkIsClosed(Published([es[0]]));
      UnionIsClosed(known, Ink(Published([es[0]])));
      RunWithin(Do(s, es[0]), es[1..], more);
      assert [es[0]][1..] == [];
      assert Published(es) == Published([es[0]]) + Published(es[1..]);
      InkOfUnion(Published([es[0]]), Published(es[1..]));
      assert more + Ink(Published(es[1..])) == known + Ink(Published(es));
    }
  }

  /** Wherever a run leads, every price held anywhere is one known at its start, one it published or
      seeded, or the printout of one. */
  lemma {:induction false} PricesStayKnown(s: State, es: seq<Event>, known: set<(int, int)>)
    requires AllKnown(s, known) && Legal(s, es)
    ensures AllKnown(Exec(s, es), Ink(known + Published(es)))
  {
    InkIsClosed(known);
    RunWithin(s, es, Ink(known));
    InkOfUnion(known, Published(es));
  }

  lemma KnownCharge(s: State, code: int, known: set<(int, int)>)
    requires AllKnown(s, known)
    ensures var price := ChargedPrice(s.cache, s.db, code); price == 0 || (code, price) in known
  {
    if code !in s.cache && HasCode(s.db, code) {
      FirstRowWithCode(s.db, code);
    }
  }

  /** Across all interleavings a close charges 0, a price its code had at the start, one an updater run published for
      it or a restart seeded, or the six digits of one of these. */
  lemma {:induction false} ChargedPriceIsKnown(s: State, es: seq<Event>, code: int, known: set<(int, int)>)
    requires AllKnown(s, known) && Legal(s, es + [Charge(code)])
    ensures var t := Exec(s, es);
            var price := ChargedPrice(t.cache, t.db, code);
            price == 0 || (code, price) in Ink(known + Published(es))
  {
    ExecAppend(s, es, [Charge(code)]);
    PricesStayKnown(s, es, known);
    KnownCharge(Exec(s, es), code, Ink(known + Published(es)));
  }

  lemma FirstRowWithCode(db: seq<PriceRow>, code: int)
    requires HasCode(db, code)
    ensures exists i :: 0 <= i < |db| && db[i].code == code && db[i].price == DbPrice(db, code)
  {
    if db[0].code != code {
      assert HasCode(db[1..], code) by {
        var i :| 0 <= i < |db| && db[i].code == code;
        assert db[1..][i - 1] == db[i];
      }
      FirstRowWithCode(db[1..], code);
      var i :| 0 <= i < |db[1..]| && db[1..][i].code == code && db[1..][i].price == DbPrice(db[1..], code);
      assert db[i + 1] == db[1..][i];
    }
  }

  lemma StartIsKnown(db: seq<PriceRow>)
    ensures AllKnown(Started(db, map[]), Ink(PricesOf(db)))
  {
    InkIsClosed(PricesOf(db));
    StartWithin(db, map[], Ink(PricesOf(db)));
  }

  /** On a fresh installation the only prices ever charged are 0, the seeded ones and the published ones. */
  lemma {:induction false} FreshInstallPrices(es: seq<Event>, code: int)
    requires Legal(Started(SeedAll([], CITIES), map[]), es + [Charge(code)])
    ensures var t := Exec(Started(SeedAll([], CITIES), map[]), es);
            var price := ChargedPrice(t.cache, t.db, code);
            price == 0 || (code, price) in PricesOf(CITIES) + Ink(Published(es))
  {
    FreshSeed();
    StartedPrices(CITIES, es, code);
    InkOfUnion(PricesOf(CITIES), Published(es));
    SeededPricesPrintExactly();
  }

  lemma SeededPricesPrintExactly()
    ensures Ink(PricesOf(CITIES)) == PricesOf(CITIES)
  {
    forall i | 0 <= i < |CITIES|
      ensures SixDigit(CITIES[i].price)
    {
      SmallIsSixDigit(CITIES[i].price);
    }
  }

  lemma StartedPrices(db: seq<PriceRow>, es: seq<Event>, code: int)
    requires Legal(Started(db, map[]), es + [Charge(code)])
    ensures var t := Exec(Started(db, map[]), es);
            var price := ChargedPrice(t.cache, t.db, code);
            price == 0 || (code, price) in Ink(PricesOf(db) + Published(es))
  {
    StartIsKnown(db);
    ChargedPriceIsKnown(Started(db, map[]), es, code, Ink(PricesOf(db)));
    InkIsEnough(PricesOf(db), Published(es));
  }

  lemma InkIsEnough(a: set<(int, int)>, b: set<(int, int)>)
    ensures Ink(Ink(a) + b) == Ink(a + b)
  {
    InkOfUnion(a, b);
    InkOfUnion(Ink(a), b);
    InkTwice(a);
  }

  lemma InkTwice(a: set<(int, int)>)
    ensures Ink(Ink(a)) == Ink(a)
  {
    forall c, p | (c, p) in Ink(Ink(a))
      ensures (c, p) in Ink(a)
    {
      if (c, p) !in Ink(a) {
        var k :| k in Ink(a) && (c, p) == (k.0, Printed(k.1));
        InkAgain(a, k.0, k.1);
      }
    }
  }
}
