/** As written, the board never pays: over every joint run of cars, updaters, reloads and restarts. */
module FreeParking {
  import opened Options
  import opened Prices
  import opened PriceDb
  import opened Ledger
  import Protocol = PriceProtocol
  import opened ParkingSystem
  import opened EndToEnd
  import Generator

  /** No copy of the prices knows the code for nowhere, and every row is a place. */
  ghost predicate Mapped(s: Protocol.State) {
    && OnTheMap(s.db)
    && 0 !in MapOf(s.file) && 0 !in s.shm && 0 !in s.cache
    && (s.server.HasFile? ==> 0 !in MapOf(s.server.lines))
    && (!s.updater.Resting? ==> 0 !in s.updater.m && AddsPlace(s.updater.op))
  }

  /** An operator who adds a city gives it a place. */
  predicate AddsPlace(op: Protocol.Op) {
    op.Add? ==> IsPlace(op.code, op.lat)
  }

  predicate StepAddsPlace(e: Protocol.Event) {
    e.Begin? ==> AddsPlace(e.op)
  }

  lemma MappedCodes(db: seq<PriceRow>)
    requires OnTheMap(db)
    ensures 0 !in Codes(db)
  {
  }

  lemma StartIsMapped(db: seq<PriceRow>, shm: map<int, int>)
    requires OnTheMap(db) && 0 !in shm
    ensures Mapped(Protocol.Started(db, shm))
  {
    FileCodes(db);
    MappedCodes(db);
  }

  lemma SeedStaysMapped(db: seq<PriceRow>)
    requires OnTheMap(db)
    ensures OnTheMap(SeedAll(db, CITIES))
  {
    var after := SeedAll(db, CITIES);
    SeedCovers(db, CITIES);
    CitiesAreOnTheMap();
    forall i | 0 <= i < |after|
      ensures IsPlace(after[i].code, after[i].lat)
    {
      if i < |db| {
        assert after[i] == db[i];
      } else {
        SeedAddsOnlyNew(db, CITIES, i);
        var j :| 0 <= j < |CITIES| && CITIES[j] == after[i];
      }
    }
  }

  lemma UpsertStaysMapped(db: seq<PriceRow>, m: map<int, int>, kvs: Listing, name: string, lat: real, lng: real)
    requires OnTheMap(db) && Lists(m, kvs)
    requires forall c :: c in m && c !in Codes(db) ==> IsPlace(c, lat)
    ensures OnTheMap(PutAll(db, kvs, Some(name), lat, lng))
  {
    var after := PutAll(db, kvs, Some(name), lat, lng);
    UpsertTheorem(db, m, kvs, name, lat, lng);
    PutAllAppended(db, kvs, name, lat, lng);
    ListingRebuildsMap(m, kvs);
    forall i | 0 <= i < |after|
      ensures IsPlace(after[i].code, after[i].lat)
    {
      if i < |db| {
        assert SamePlace(after[i], db[i]);
      } else {
        assert after[i].code in m && after[i].code !in Codes(db);
      }
    }
  }

  lemma StoreStaysMapped(s: Protocol.State, kvs: Listing)
    requires Protocol.Inv(s) && Mapped(s) && Protocol.Enabled(s, Protocol.Store(kvs))
    ensures Mapped(Protocol.Do(s, Protocol.Store(kvs)))
  {
    match s.updater.op
    case Add(city, _, lat, lng, _) => UpsertStaysMapped(s.db, s.updater.m, kvs, city, lat, lng);
    case Change(_, _) => UpsertStaysMapped(s.db, s.updater.m, kvs, "", 0.0, 0.0);
    case Remove(code) =>
      DeleteMembers(s.db, code);
      forall i | 0 <= i < |DeleteCode(s.db, code)|
        ensures IsPlace(DeleteCode(s.db, code)[i].code, DeleteCode(s.db, code)[i].lat)
      {
        assert DeleteCode(s.db, code)[i] in s.db;
      }
  }

  lemma StepStaysMapped(s: Protocol.State, e: Protocol.Event)
    requires Protocol.Inv(s) && Mapped(s) && Protocol.Enabled(s, e) && StepAddsPlace(e)
    ensures Mapped(Protocol.Do(s, e))
  {
    match e
    case Save(kvs) => Protocol.SavedFile(s.updater.m, kvs);
    case Store(kvs) => StoreStaysMapped(s, kvs);
    case Apply => ReloadStaysOnTheMap(s.db, s.server.lines);
    case Restart =>
      SeedStaysMapped(s.db);
      StartIsMapped(SeedAll(s.db, CITIES), s.shm);
    case _ =>
  }

  /** A frame of the board, as the server decodes it. */
  ghost predicate FromBoard(f: Frame) {
    exists i: nat :: Generator.Delivers(f, Generator.SampleAt(0, i), AsWritten)
  }

  ghost predicate BoardMove(m: Move) {
    match m
    case Price(e) => StepAddsPlace(e)
    case Car(f) => FromBoard(f)
  }

  ghost predicate AllFree(os: seq<Outcome>) {
    forall i :: 0 <= i < |os| && os[i].Closed? ==> os[i].price == 0 && os[i].fee == 0
  }

  lemma MoveIsFree(w: World, m: Move)
    requires Valid(w.rows) && Protocol.Inv(w.prices) && Mapped(w.prices) && Enabled(w, m) && BoardMove(m)
    ensures var (after, os) := Do(w, m);
            Valid(after.rows) && Protocol.Inv(after.prices) && Mapped(after.prices) && AllFree(os)
  {
    match m
    case Price(e) =>
      Protocol.StepKeepsInv(w.prices, e);
      StepStaysMapped(w.prices, e);
    case Car(f) =>
      var i: nat :| Generator.Delivers(f, Generator.SampleAt(0, i), AsWritten);
      FrameKeepsValid(w.AsDb(), f);
      BoardPaysNothing(w.AsDb(), 0, i, f);
  }

  /** From any state that is mapped, whatever the cars of the board, the operators, the signals and the restarts do, as
      long as added cities are places: every stay is closed at price and fee 0. */
  lemma {:induction false} BoardNeverPays(w: World, ms: seq<Move>)
    requires Valid(w.rows) && Protocol.Inv(w.prices) && Mapped(w.prices) && Legal(w, ms)
    requires forall i :: 0 <= i < |ms| ==> BoardMove(ms[i])
    ensures AllFree(Exec(w, ms).1)
    decreases ms
  {
    if ms != [] {
      MoveIsFree(w, ms[0]);
      BoardNeverPays(Do(w, ms[0]).0, ms[1..]);
    }
  }

  /** In particular from a server start on any table on the map, a fresh one for instance. */
  lemma {:induction false} EveryStartIsFree(db: seq<PriceRow>, shm: map<int, int>, rows: seq<Row>, ms: seq<Move>)
    requires OnTheMap(db) && 0 !in shm && Valid(rows)
    requires Legal(World(Protocol.Started(db, shm), rows), ms)
    requires forall i :: 0 <= i < |ms| ==> BoardMove(ms[i])
    ensures AllFree(Exec(World(Protocol.Started(db, shm), rows), ms).1)
  {
    StartIsMapped(db, shm);
    Protocol.StartKeepsInv(db, shm);
    BoardNeverPays(World(Protocol.Started(db, shm), rows), ms);
  }

  lemma {:induction false} FreshInstallIsFree(ms: seq<Move>)
    requires Legal(World(Protocol.Started(SeedAll([], CITIES), map[]), []), ms)
    requires forall i :: 0 <= i < |ms| ==> BoardMove(ms[i])
    ensures AllFree(Exec(World(Protocol.Started(SeedAll([], CITIES), map[]), []), ms).1)
  {
    SeedIsOnTheMap();
    EveryStartIsFree(SeedAll([], CITIES), map[], [], ms);
  }
}
