/** Four copies of the prices, one updater at a time, one server at a time: every interleaving of their steps. */
module PriceProtocol {
  import opened Options
  import opened Prices
  import opened PriceDb
  import opened Printing

  /** One menu choice of the updater. */
  datatype Op =
    | Add(city: string, code: int, lat: real, lng: real, price: int)
    | Change(code: int, price: int)
    | Remove(code: int)

  /** Where the updater stands; m is the map it holds. */
  datatype Updater =
    | Resting
    | Edited(op: Op, m: map<int, int>)
    | Saved(op: Op, m: map<int, int>)
    | Shared(op: Op, m: map<int, int>)
    | Stored(op: Op, m: map<int, int>)

  /** Where the server's reload stands. */
  datatype Reload =
    | Serving
    | HasFile(lines: Listing)
    | Applied
    | Loaded

  /** The file is what its readers find in it, line by line. */
  datatype State = State(
    file: Listing,
    shm: map<int, int>,
    db: seq<PriceRow>,
    cache: map<int, int>,
    flag: bool,
    updater: Updater,
    server: Reload)

  datatype Event =
    | Begin(op: Op)              // load_prices_file, then the edit of the map
    | Save(kvs: Listing)         // save_prices_file, in some iteration order: readers find six digits of each price
    | Share                      // write_prices_to_shm
    | Store(kvs: Listing)        // the upsert loop, or the DELETE
    | Signal                     // kill(pid, SIGHUP), end of the run
    | Hangup                     // a SIGHUP from anyone else
    | ReadFile                   // the reload starts: prices.txt is read
    | Apply                      // its lines go into the table and the cache
    | Load                       // shared memory replaces the cache
    | Clear                      // the flag is reset, the reload is over
    | Charge(code: int)          // a close looks its price up
    | Restart                    // the server, gone for whatever reason, starts again between two updater runs

  predicate Accepts(m: map<int, int>, op: Op) {
    op.Add? || op.code in m
  }

  function Edit(m: map<int, int>, op: Op): map<int, int> {
    match op
    case Add(_, code, _, _, price) => m[code := price]
    case Change(code, price) => m[code := price]
    case Remove(code) => m - {code}
  }

  /** Which steps can happen. An updater whose code is unknown gives up, so it has no run. */
  ghost predicate Enabled(s: State, e: Event) {
    match e
    case Begin(op) => s.updater.Resting? && Accepts(MapOf(s.file), op)
    case Save(kvs) => s.updater.Edited? && Lists(s.updater.m, kvs)
    case Share => s.updater.Saved?
    case Store(kvs) => s.updater.Shared? && Lists(s.updater.m, kvs)
    case Signal => s.updater.Stored?
    case Hangup => true
    case ReadFile => s.server.Serving? && s.flag
    case Apply => s.server.HasFile?
    case Load => s.server.Applied?
    case Clear => s.server.Loaded?
    case Charge(_) => s.server.Serving?
    case Restart => s.updater.Resting?
  }

  /** What a server start leaves: the file is written from the table, shared memory is as found. */
  function Started(db: seq<PriceRow>, shm: map<int, int>): State {
    State(FileFromDb(db), shm, db, shm, false, Resting, Serving)
  }

  function StoreDb(db: seq<PriceRow>, op: Op, kvs: Listing): seq<PriceRow> {
    match op
    case Add(city, _, lat, lng, _) => PutAll(db, kvs, Some(city), lat, lng)
    case Change(_, _) => PutAll(db, kvs, Some(""), 0.0, 0.0)
    case Remove(code) => DeleteCode(db, code)
  }

  function Do(s: State, e: Event): State {
    match e
    case Begin(op) => s.(updater := Edited(op, Edit(MapOf(s.file), op)))
    case Save(kvs) =>
      if s.updater.Edited? then s.(file := Printout(kvs), updater := Saved(s.updater.op, s.updater.m)) else s
    case Share =>
      if s.updater.Saved? then s.(shm := s.updater.m, updater := Shared(s.updater.op, s.updater.m)) else s
    case Store(kvs) =>
      if s.updater.Shared?
      then s.(db := StoreDb(s.db, s.updater.op, kvs), updater := Stored(s.updater.op, s.updater.m))
      else s
    case Signal => s.(flag := true, updater := Resting)
    case Hangup => s.(flag := true)
    case ReadFile => s.(server := HasFile(s.file))
    case Apply =>
      if s.server.HasFile?
      then s.(db := PutAll(s.db, s.server.lines, None, 0.0, 0.0),
              cache := MergeCache(s.cache, s.server.lines),
              server := Applied)
      else s
    case Load => s.(cache := s.shm, server := Loaded)
    case Clear => s.(flag := false, server := Serving)
    case Charge(_) => s
    case Restart => RestartOf(s)
  }

  /** The table is seeded again, and the server starts. */
  function RestartOf(s: State): State {
    Started(SeedAll(s.db, CITIES), s.shm)
  }

  ghost predicate Legal(s: State, es: seq<Event>)
    decreases es
  {
    es == [] || (Enabled(s, es[0]) && Legal(Do(s, es[0]), es[1..]))
  }

  function Exec(s: State, es: seq<Event>): State
    decreases es
  {
    if es == [] then s else Exec(Do(s, es[0]), es[1..])
  }

  lemma {:induction false} ExecAppend(s: State, a: seq<Event>, b: seq<Event>)
    ensures Exec(s, a + b) == Exec(Exec(s, a), b)
    ensures Legal(s, a + b) <==> Legal(s, a) && Legal(Exec(s, a), b)
    decreases a
  {
    if a == [] {
      assert a + b == b;
    } else {
      assert (a + b)[1..] == a[1..] + b;
      ExecAppend(Do(s, a[0]), a[1..], b);
    }
  }

  // ---------- The invariant ----------

  /** What an edit leaves: one code carries the operator's price, all others came out of a file. */
  ghost predicate EditedBy(m: map<int, int>, op: Op) {
    match op
    case Add(_, code, _, _, price) =>
      code in m && m[code] == price && forall c :: c in m && c != code ==> SixDigit(m[c])
    case Change(code, price) =>
      code in m && m[code] == price && forall c :: c in m && c != code ==> SixDigit(m[c])
    case Remove(code) => code !in m && AllSixDigit(m)
  }

  /** Six digits are enough for the price an operator enters. */
  predicate PrintsExactly(op: Op) {
    match op
    case Add(_, _, _, _, price) => SixDigit(price)
    case Change(_, price) => SixDigit(price)
    case Remove(_) => true
  }

  lemma EditedExactlyIff(m: map<int, int>, op: Op)
    requires EditedBy(m, op)
    ensures PrintsExactly(op) <==> AllSixDigit(m)
  {
  }

  /** The copies follow the updater's phases; nothing the server does adds or drops a code. */
  ghost predicate CopiesInStep(s: State) {
    match s.updater
    case Resting => Codes(s.db) == MapOf(s.file).Keys
    case Edited(op, m) =>
      Codes(s.db) == MapOf(s.file).Keys && Accepts(MapOf(s.file), op) && m == Edit(MapOf(s.file), op)
    case Saved(op, m) => MapOf(s.file) == PrintMap(m) && BeforeStore(Codes(s.db), op, m.Keys)
    case Shared(op, m) => MapOf(s.file) == PrintMap(m) && s.shm == m && BeforeStore(Codes(s.db), op, m.Keys)
    case Stored(op, m) => MapOf(s.file) == PrintMap(m) && s.shm == m && Codes(s.db) == m.Keys
  }

  ghost predicate BeforeStore(codes: set<int>, op: Op, keys: set<int>) {
    match op
    case Add(_, code, _, _, _) => keys == codes + {code}
    case Change(_, _) => keys == codes
    case Remove(code) => code in codes && keys == codes - {code}
  }

  /** Nothing is asked of what shared memory holds between updater runs, nor that codes be unique in the table. */
  ghost predicate Inv(s: State) {
    && AllSixDigit(MapOf(s.file))
    && (s.updater.Resting? || EditedBy(s.updater.m, s.updater.op))
    && CopiesInStep(s)
  }

  /** Every server start satisfies the invariant, on any table and any shared memory. */
  lemma StartKeepsInv(db: seq<PriceRow>, shm: map<int, int>)
    ensures Inv(Started(db, shm))
  {
    FileCodes(db);
    FileIsSixDigit(db);
  }

  lemma UpsertCodes(db: seq<PriceRow>, m: map<int, int>, kvs: Listing, name: string, lat: real, lng: real)
    requires Lists(m, kvs) && Codes(db) <= m.Keys
    ensures Codes(PutAll(db, kvs, Some(name), lat, lng)) == m.Keys
  {
    UpsertTheorem(db, m, kvs, name, lat, lng);
  }

  lemma StoreKeepsInv(s: State, kvs: Listing)
    requires Inv(s) && Enabled(s, Store(kvs))
    ensures Inv(Do(s, Store(kvs)))
  {
    match s.updater.op
    case Add(city, _, lat, lng, _) => UpsertCodes(s.db, s.updater.m, kvs, city, lat, lng);
    case Change(_, _) => UpsertCodes(s.db, s.updater.m, kvs, "", 0.0, 0.0);
    case Remove(code) => DeleteTheorem(s.db, code);
  }

  lemma BeginKeepsInv(s: State, op: Op)
    requires Inv(s) && Enabled(s, Begin(op))
    ensures Inv(Do(s, Begin(op)))
  {
  }

  lemma SaveKeepsInv(s: State, kvs: Listing)
    requires Inv(s) && Enabled(s, Save(kvs))
    ensures Inv(Do(s, Save(kvs)))
  {
    SavedFile(s.updater.m, kvs);
    EditKeys(MapOf(s.file), s.updater.op);
  }

  lemma SavedFile(m: map<int, int>, kvs: Listing)
    requires Lists(m, kvs)
    ensures MapOf(Printout(kvs)) == PrintMap(m) && AllSixDigit(MapOf(Printout(kvs)))
  {
    ListingRebuildsMap(m, kvs);
    PrintoutIsPrintMap(kvs);
    PrintMapIsSixDigit(m);
  }

  lemma EditKeys(m: map<int, int>, op: Op)
    requires Accepts(m, op)
    ensures BeforeStore(m.Keys, op, Edit(m, op).Keys)
  {
  }

  lemma ApplyKeepsInv(s: State)
    requires Inv(s) && Enabled(s, Apply)
    ensures Inv(Do(s, Apply))
  {
    MergeTheorem(s.db, s.server.lines);
  }

  lemma StepKeepsInv(s: State, e: Event)
    requires Inv(s) && Enabled(s, e)
    ensures Inv(Do(s, e))
  {
    match e
    case Begin(op) => BeginKeepsInv(s, op);
    case Save(kvs) => SaveKeepsInv(s, kvs);
    case Store(kvs) => StoreKeepsInv(s, kvs);
    case Apply => ApplyKeepsInv(s);
    case Restart => StartKeepsInv(SeedAll(s.db, CITIES), s.shm);
    case _ =>
  }

  lemma {:induction false} RunKeepsInv(s: State, es: seq<Event>)
    requires Inv(s) && Legal(s, es)
    ensures Inv(Exec(s, es))
    decreases es
  {
    if es != [] {
      StepKeepsInv(s, es[0]);
      RunKeepsInv(Do(s, es[0]), es[1..]);
    }
  }

  lemma SingleStep(s: State, e: Event)
    ensures Legal(s, [e]) <==> Enabled(s, e)
    ensures Exec(s, [e]) == Do(s, e)
  {
    assert [e][1..] == [];
  }

  lemma TwoSteps(s: State, a: Event, b: Event)
    ensures Legal(s, [a, b]) <==> Enabled(s, a) && Enabled(Do(s, a), b)
    ensures Exec(s, [a, b]) == Do(Do(s, a), b)
  {
    assert [a, b][1..] == [b];
    SingleStep(Do(s, a), b);
  }

  lemma ThreeSteps(s: State, a: Event, b: Event, c: Event)
    ensures Legal(s, [a, b, c]) <==> Enabled(s, a) && Enabled(Do(s, a), b) && Enabled(Do(Do(s, a), b), c)
    ensures Exec(s, [a, b, c]) == Do(Do(Do(s, a), b), c)
  {
    assert [a, b, c][1..] == [b, c];
    TwoSteps(Do(s, a), b, c);
  }

  /** No updater run in progress, no reload running or pending. */
  ghost predicate Quiescent(s: State) {
    s.updater.Resting? && !s.flag && s.server.Serving?
  }

  /** The steps that remain for the server, alone, until its flag is down. */
  function Remaining(server: Reload): seq<Event> {
    match server
    case Serving => [ReadFile, Apply, Load, Clear]
    case HasFile(_) => [Apply, Load, Clear]
    case Applied => [Load, Clear]
    case Loaded => [Clear]
  }

  lemma RunRemaining(s: State)
    requires s.flag && s.updater.Resting?
    ensures Legal(s, Remaining(s.server)) && Quiescent(Exec(s, Remaining(s.server)))
    ensures Exec(s, Remaining(s.server)).shm == s.shm
    ensures var t := Exec(s, Remaining(s.server));
            match s.server
            case Serving => t.cache == s.shm && t.db == PutAll(s.db, s.file, None, 0.0, 0.0)
            case HasFile(lines) => t.cache == s.shm && t.db == PutAll(s.db, lines, None, 0.0, 0.0)
            case Applied => t.cache == s.shm && t.db == s.db
            case Loaded => t.cache == s.cache && t.db == s.db
  {
    var loaded := s.(cache := s.shm, server := Loaded);
    SingleStep(s, Clear);
    match s.server
    case Loaded =>
    case Applied =>
      TwoSteps(s, Load, Clear);
    case HasFile(_) =>
      ThreeSteps(s, Apply, Load, Clear);
    case Serving =>
      ThreeSteps(Do(s, ReadFile), Apply, Load, Clear);
      assert [ReadFile, Apply, Load, Clear][1..] == [Apply, Load, Clear];
  }

  function UpdaterRun(op: Op, kvs: Listing): seq<Event> {
    [Begin(op), Save(kvs)] + [Share, Store(kvs), Signal]
  }

  /** An updater running undisturbed. */
  lemma RunUnfolds(s: State, op: Op, kvs: Listing)
    requires s.updater.Resting? && Accepts(MapOf(s.file), op) && Lists(Edit(MapOf(s.file), op), kvs)
    ensures Legal(s, UpdaterRun(op, kvs))
    ensures Exec(s, UpdaterRun(op, kvs)) ==
            s.(file := Printout(kvs), shm := Edit(MapOf(s.file), op), db := StoreDb(s.db, op, kvs), flag := true)
  {
    var m := Edit(MapOf(s.file), op);
    var saved := s.(file := Printout(kvs), updater := Saved(op, m));
    ExecAppend(s, [Begin(op), Save(kvs)], [Share, Store(kvs), Signal]);
    TwoSteps(s, Begin(op), Save(kvs));
    ThreeSteps(saved, Share, Store(kvs), Signal);
  }

  /** The rows that were there keep name, code and place, and take the map's price if it has one for them. */
  ghost predicate RepricedRows(before: seq<PriceRow>, after: seq<PriceRow>, m: map<int, int>) {
    && |before| <= |after|
    && forall i :: 0 <= i < |before| ==>
         && after[i].city == before[i].city && after[i].code == before[i].code
         && after[i].lat == before[i].lat && after[i].lng == before[i].lng
         && after[i].price == if before[i].code in m then m[before[i].code] else before[i].price
  }

  /** Any further row is for a code of the map that the table did not have. */
  ghost predicate AppendedRows(before: seq<PriceRow>, after: seq<PriceRow>, m: map<int, int>, city: string,
                               lat: real, lng: real)
  {
    forall i :: |before| <= i < |after| ==>
      && after[i].code !in Codes(before) && after[i].code in m
      && after[i] == PriceRow(city, after[i].code, lat, lng, m[after[i].code])
  }

  /** The old rows stay where they are, at the file's prices, and one row is appended, as the operator entered it; a
      lookup at its place finds it unless an older row is within tolerance. */
  ghost predicate CityAdded(before: seq<PriceRow>, after: seq<PriceRow>, file: map<int, int>, city: string, code: int,
                            lat: real, lng: real, price: int)
  {
    && RepricedRows(before, after, file[code := price])
    && AppendedRows(before, after, file[code := price], city, lat, lng)
    && (file.Keys <= Codes(before) ==>
          if code in Codes(before) then |after| == |before|
          else
            && after[|before|..] == [PriceRow(city, code, lat, lng, price)]
            && (NoneWithin(before, lat, lng) ==> FindCity(after, lat, lng) == code))
  }

  /** No row comes, goes or moves, and the code's rows cost what was entered. */
  ghost predicate PriceChanged(before: seq<PriceRow>, after: seq<PriceRow>, file: map<int, int>,
                               code: int, price: int)
  {
    && RepricedRows(before, after, file[code := price])
    && AppendedRows(before, after, file[code := price], "", 0.0, 0.0)
    && (forall i :: 0 <= i < |before| && before[i].code == code ==> after[i].price == price)
    && (file.Keys <= Codes(before) ==> |after| == |before|)
  }

  /** The rows of the other codes stay as they are, as often as they were there. */
  ghost predicate CityRemoved(before: seq<PriceRow>, after: seq<PriceRow>, code: int) {
    && (forall r :: r in after <==> r in before && r.code != code)
    && forall r: PriceRow :: r.code != code ==> multiset(after)[r] == multiset(before)[r]
  }

  /** A city added without interference. */
  lemma {:induction false} AddedCity(s: State, city: string, code: int, lat: real, lng: real, price: int, kvs: Listing)
    requires s.updater.Resting? && Lists(MapOf(s.file)[code := price], kvs)
    ensures var db := Exec(s, UpdaterRun(Add(city, code, lat, lng, price), kvs)).db;
            CityAdded(s.db, db, MapOf(s.file), city, code, lat, lng, price)
  {
    RunUnfolds(s, Add(city, code, lat, lng, price), kvs);
    StoredCity(s.db, MapOf(s.file), city, code, lat, lng, price, kvs);
  }

  lemma {:induction false} StoredCity(before: seq<PriceRow>, file: map<int, int>, city: string, code: int,
                                      lat: real, lng: real, price: int, kvs: Listing)
    requires Lists(file[code := price], kvs)
    ensures CityAdded(before, PutAll(before, kvs, Some(city), lat, lng), file, city, code, lat, lng, price)
  {
    var m := file[code := price];
    var after := PutAll(before, kvs, Some(city), lat, lng);
    StoreKeepsRows(before, m, kvs, city, lat, lng);
    StoreAppends(before, m, kvs, city, lat, lng);
    if file.Keys <= Codes(before) && code !in Codes(before) {
      AddsOneRow(before, m, kvs, city, lat, lng, code);
      if NoneWithin(before, lat, lng) {
        AddedCityIsFound(before, after, PriceRow(city, code, lat, lng, price));
      }
    }
  }

  lemma {:induction false} StoreAppends(before: seq<PriceRow>, m: map<int, int>, kvs: Listing, city: string,
                                        lat: real, lng: real)
    requires Lists(m, kvs)
    ensures AppendedRows(before, PutAll(before, kvs, Some(city), lat, lng), m, city, lat, lng)
  {
    var after := PutAll(before, kvs, Some(city), lat, lng);
    forall i | |before| <= i < |after|
      ensures after[i].code !in Codes(before) && after[i].code in m
      ensures after[i] == PriceRow(city, after[i].code, lat, lng, m[after[i].code])
    {
      AppendedIsNew(before, m, kvs, city, lat, lng, i);
    }
  }

  /** A price changed without interference. */
  lemma {:induction false} ChangedPrice(s: State, code: int, price: int, kvs: Listing)
    requires s.updater.Resting? && code in MapOf(s.file) && Lists(MapOf(s.file)[code := price], kvs)
    ensures PriceChanged(s.db, Exec(s, UpdaterRun(Change(code, price), kvs)).db, MapOf(s.file), code, price)
  {
    RunUnfolds(s, Change(code, price), kvs);
    StoreKeepsRows(s.db, MapOf(s.file)[code := price], kvs, "", 0.0, 0.0);
    StoreAppends(s.db, MapOf(s.file)[code := price], kvs, "", 0.0, 0.0);
  }

  /** A city removed without interference: its code leaves the table, shared memory and the file. */
  lemma {:induction false} RemovedCity(s: State, code: int, kvs: Listing)
    requires s.updater.Resting? && code in MapOf(s.file) && Lists(MapOf(s.file) - {code}, kvs)
    ensures var t := Exec(s, UpdaterRun(Remove(code), kvs));
            && CityRemoved(s.db, t.db, code)
            && code !in t.shm && code !in MapOf(t.file)
            && forall c :: c in MapOf(s.file) && c != code ==> c in t.shm && t.shm[c] == MapOf(s.file)[c]
  {
    RunUnfolds(s, Remove(code), kvs);
    DeleteTheorem(s.db, code);
    DeleteKeepsOthers(s.db, code);
    SavedFile(MapOf(s.file) - {code}, kvs);
  }

  lemma Halfway(s: State)
    requires s.flag && s.server.Serving?
    ensures Legal(s, [ReadFile, Apply])
    ensures Exec(s, [ReadFile, Apply]) ==
            s.(db := PutAll(s.db, s.file, None, 0.0, 0.0), cache := MergeCache(s.cache, s.file), server := Applied)
  {
    TwoSteps(s, ReadFile, Apply);
  }

  /** Half a reload, for one code: the file's last line for it is its cached price and that of all its rows, whatever
      shared memory says; without a line it is as it was. */
  lemma {:induction false} HalfReload(s: State, c: int, t: State)
    requires s.flag && s.server.Serving? && t == Exec(s, [ReadFile, Apply])
    ensures Legal(s, [ReadFile, Apply])
    ensures t.shm == s.shm && t.file == s.file && t.flag && |t.db| == |s.db|
    ensures forall i :: IsLastLine(s.file, i, c) ==> c in t.cache && t.cache[c] == s.file[i].1
    ensures forall i, k :: IsLastLine(s.file, i, c) && 0 <= k < |s.db| && s.db[k].code == c ==>
              t.db[k] == s.db[k].(price := s.file[i].1)
    ensures NoLine(s.file, c) ==> (c in t.cache <==> c in s.cache) && (c in s.cache ==> t.cache[c] == s.cache[c])
    ensures NoLine(s.file, c) ==> forall k :: 0 <= k < |s.db| && s.db[k].code == c ==> t.db[k] == s.db[k]
  {
    Halfway(s);
    MergedRows(s.db, s.file, c);
    MergeCacheOverrides(s.cache, s.file, c);
  }

  /** A reload running undisturbed. */
  lemma ReloadUnfolds(s: State)
    requires s.updater.Resting? && s.flag && s.server.Serving?
    ensures Legal(s, Remaining(Serving))
    ensures Exec(s, Remaining(Serving)) == s.(db := PutAll(s.db, s.file, None, 0.0, 0.0), cache := s.shm, flag := false)
  {
    ThreeSteps(Do(s, ReadFile), Apply, Load, Clear);
    assert [ReadFile, Apply, Load, Clear][1..] == [Apply, Load, Clear];
  }
}
