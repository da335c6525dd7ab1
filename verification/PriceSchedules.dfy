/** What the last updater run leaves in the four copies, told by how the server's steps fell between its own. */
module PriceSchedules {
  import opened Options
  import opened Prices
  import opened Printing
  import opened PriceProtocol

  /** Every row whose code m knows carries the price m gives it. */
  ghost predicate Priced(db: seq<PriceRow>, m: map<int, int>) {
    forall i :: 0 <= i < |db| ==> db[i].code in m ==> db[i].price == m[db[i].code]
  }

  /** Every code that m knows and the table has is looked up at the price m gives it. */
  ghost predicate LooksUp(db: seq<PriceRow>, m: map<int, int>) {
    forall c :: c in m && HasCode(db, c) ==> DbPrice(db, c) == m[c]
  }

  lemma PricedLooksUp(db: seq<PriceRow>, m: map<int, int>)
    requires Priced(db, m)
    ensures LooksUp(db, m)
  {
    forall c | c in m && HasCode(db, c)
      ensures DbPrice(db, c) == m[c]
    {
      RepricedByMap(db, db, m, c);
    }
  }

  /** With one row per code the two are the same. */
  lemma LooksUpIsPriced(db: seq<PriceRow>, m: map<int, int>)
    requires LooksUp(db, m) && UniqueCodes(db)
    ensures Priced(db, m)
  {
    forall i | 0 <= i < |db| && db[i].code in m
      ensures db[i].price == m[db[i].code]
    {
      UniqueRowIsFound(db, i);
    }
  }

  /** What has happened since the last Save. It records the order of the steps and no price. */
  datatype Schedule = Schedule(
    shared: bool,        // Share has happened
    stored: bool,        // Store has happened
    readNew: bool,       // a reload has read the new file
    reapplied: bool,     // a reload has written the table after Store
    loadedNew: bool,     // a reload has taken shared memory over after Share
    loadedOld: bool)     // a reload has taken it over before Share

  const JUST_SAVED := Schedule(false, false, false, false, false, false)

  function Follow(w: Schedule, e: Event): Schedule {
    match e
    case Share => w.(shared := true)
    case Store(_) => w.(stored := true)
    case ReadFile => w.(readNew := true)
    case Apply => w.(reapplied := w.reapplied || w.stored)
    case Load => if w.shared then w.(loadedNew := true) else w.(loadedOld := true)
    case _ => w
  }

  function FollowAll(w: Schedule, es: seq<Event>): Schedule
    decreases es
  {
    if es == [] then w else FollowAll(Follow(w, es[0]), es[1..])
  }

  /** The two steps that write the price file. */
  predicate WritesFile(e: Event) {
    e.Save? || e.Restart?
  }

  ghost predicate FileStands(es: seq<Event>) {
    forall i :: 0 <= i < |es| ==> !WritesFile(es[i])
  }

  /** The map the updater of s holds. */
  function Held(s: State): map<int, int>
    requires s.updater.Edited?
  {
    s.updater.m
  }

  /** The lines of a reload that read the file before the Save. */
  function OldLines(s: State): map<int, int> {
    if s.server.HasFile? then MapOf(s.server.lines) else map[]
  }

  function Over(m: map<int, int>, lines: map<int, int>): map<int, int> {
    map c | c in m :: if c in lines then lines[c] else m[c]
  }

  /** What the cache ends with, s being the state before the Save. */
  function CacheLeft(s: State, w: Schedule): map<int, int>
    requires s.updater.Edited?
  {
    if w.loadedNew then Held(s) else if w.loadedOld then s.shm else s.cache
  }

  /** What an upsert leaves in the table: the new prices, their printout, or the new prices under the lines of a reload
      that had read the old file and wrote it after the Store. */
  function UpsertLeft(s: State, w: Schedule): map<int, int>
    requires s.updater.Edited?
  {
    if !w.reapplied then Held(s)
    else if w.readNew then PrintMap(Held(s))
    else Over(Held(s), OldLines(s))
  }

  /** What a removal leaves: it rewrites no row, so the table is as the last reload made it. */
  function RemovalLeft(s: State, readNew: bool, reloaded: bool): map<int, int>
    requires s.updater.Edited?
  {
    if readNew then Held(s)
    else map c | c in Held(s) ::
           if reloaded && c in OldLines(s) then OldLines(s)[c] else DbPrice(s.db, c)
  }

  // ---------- The invariant of a last run ----------

  ghost predicate PhaseTracks(s0: State, s: State, w: Schedule)
    requires s0.updater.Edited?
  {
    && (w.stored ==> w.shared) && (w.reapplied ==> w.stored) && (w.loadedNew ==> w.shared)
    && s.shm == (if w.shared then Held(s0) else s0.shm)
    && (!w.shared ==> s.updater == Saved(s0.updater.op, Held(s0)))
    && (w.shared && !w.stored ==> s.updater == Shared(s0.updater.op, Held(s0)))
    && (w.stored ==> s.updater == Stored(s0.updater.op, Held(s0)) || s.updater.Resting? || s.updater.Edited?)
  }

  ghost predicate ReloadTracks(s0: State, s: State, w: Schedule)
    requires s0.updater.Edited?
  {
    && MapOf(s.file) == PrintMap(Held(s0))
    && (s.server.HasFile? && w.readNew ==> MapOf(s.server.lines) == PrintMap(Held(s0)))
    && (s.server.HasFile? && !w.readNew ==> s.server == s0.server && !w.reapplied)
    && (w.reapplied && !w.readNew ==> s0.server.HasFile?)
    && (w.reapplied && !s.server.Applied? ==> w.loadedNew)
    && (s0.server.Applied? && !s.server.Applied? ==> w.loadedNew || w.loadedOld)
  }

  ghost predicate CacheTracks(s0: State, s: State, w: Schedule)
    requires s0.updater.Edited?
  {
    s.server.Applied? || s.cache == CacheLeft(s0, w)
  }

  ghost predicate TableTracks(s0: State, s: State, w: Schedule)
    requires s0.updater.Edited?
  {
    if s0.updater.op.Remove?
    then
      (s.server.HasFile? && w.readNew) ||
      (&& LooksUp(s.db, RemovalLeft(s0, w.readNew, s0.server.HasFile? && !s.server.HasFile?))
       && (w.readNew ==> Priced(s.db, Held(s0))))
    else w.stored && (!s.server.HasFile? || !w.reapplied) ==> Priced(s.db, UpsertLeft(s0, w))
  }

  ghost predicate Tracks(s0: State, s: State, w: Schedule)
    requires s0.updater.Edited?
  {
    && Inv(s0) && Inv(s)
    && PhaseTracks(s0, s, w)
    && ReloadTracks(s0, s, w)
    && CacheTracks(s0, s, w)
    && TableTracks(s0, s, w)
  }

  lemma SaveTracks(s0: State, kvs: Listing)
    requires Inv(s0) && s0.updater.Edited? && Enabled(s0, Save(kvs))
    ensures Tracks(s0, Do(s0, Save(kvs)), JUST_SAVED)
  {
    StepKeepsInv(s0, Save(kvs));
    SaveReload(s0, kvs);
    SaveTable(s0, kvs);
  }

  lemma SaveReload(s0: State, kvs: Listing)
    requires s0.updater.Edited? && Enabled(s0, Save(kvs))
    ensures ReloadTracks(s0, Do(s0, Save(kvs)), JUST_SAVED)
  {
    SavedFile(Held(s0), kvs);
  }

  lemma SaveTable(s0: State, kvs: Listing)
    requires s0.updater.Edited?
    ensures TableTracks(s0, Do(s0, Save(kvs)), JUST_SAVED)
  {
  }

  lemma UpsertPrices(db: seq<PriceRow>, m: map<int, int>, kvs: Listing, name: string, lat: real, lng: real)
    requires Lists(m, kvs)
    ensures Priced(PutAll(db, kvs, Some(name), lat, lng), m)
  {
    UpsertTheorem(db, m, kvs, name, lat, lng);
  }

  lemma DeletePrices(db: seq<PriceRow>, code: int, m: map<int, int>)
    requires Priced(db, m)
    ensures Priced(DeleteCode(db, code), m)
  {
    DeleteMembers(db, code);
    var after := DeleteCode(db, code);
    forall i | 0 <= i < |after| && after[i].code in m
      ensures after[i].price == m[after[i].code]
    {
      assert after[i] in db;
    }
  }

  lemma DeleteKeepsLookups(db: seq<PriceRow>, code: int, m: map<int, int>)
    requires LooksUp(db, m) && code !in m
    ensures LooksUp(DeleteCode(db, code), m)
  {
    forall c | c in m && HasCode(DeleteCode(db, code), c)
      ensures DbPrice(DeleteCode(db, code), c) == m[c]
    {
      DeleteLookup(db, code, c);
    }
  }

  lemma StoreTable(s0: State, s: State, w: Schedule, kvs: Listing)
    requires s0.updater.Edited? && PhaseTracks(s0, s, w) && TableTracks(s0, s, w) && Enabled(s, Store(kvs))
    requires s.server.HasFile? && !w.readNew ==> !w.reapplied
    requires !w.stored ==> !w.reapplied
    requires EditedBy(Held(s0), s0.updater.op)
    ensures TableTracks(s0, Do(s, Store(kvs)), Follow(w, Store(kvs)))
  {
    match s.updater.op
    case Add(city, _, lat, lng, _) => UpsertPrices(s.db, s.updater.m, kvs, city, lat, lng);
    case Change(_, _) => UpsertPrices(s.db, s.updater.m, kvs, "", 0.0, 0.0);
    case Remove(code) =>
      if !(s.server.HasFile? && w.readNew) {
        DeleteKeepsLookups(s.db, code, RemovalLeft(s0, w.readNew, s0.server.HasFile? && !s.server.HasFile?));
        if w.readNew {
          DeletePrices(s.db, code, Held(s0));
        }
      }
  }

  lemma MergePrices(db: seq<PriceRow>, lines: Listing)
    ensures Priced(PutAll(db, lines, None, 0.0, 0.0), MapOf(lines))
  {
    MergeTheorem(db, lines);
  }

  lemma MergeLooksOver(db: seq<PriceRow>, lines: Listing, m: map<int, int>)
    requires LooksUp(db, m)
    ensures LooksUp(PutAll(db, lines, None, 0.0, 0.0), Over(m, MapOf(lines)))
  {
    var after := PutAll(db, lines, None, 0.0, 0.0);
    forall c | c in m && HasCode(after, c)
      ensures DbPrice(after, c) == Over(m, MapOf(lines))[c]
    {
      MergeLookup(db, lines, c);
    }
  }

  lemma MergeOver(db: seq<PriceRow>, lines: Listing, m: map<int, int>)
    requires Priced(db, m)
    ensures Priced(PutAll(db, lines, None, 0.0, 0.0), Over(m, MapOf(lines)))
  {
    MergeTheorem(db, lines);
  }

  lemma ApplyTable(s0: State, s: State, w: Schedule)
    requires s0.updater.Edited? && TableTracks(s0, s, w) && Enabled(s, Apply)
    requires if w.readNew then MapOf(s.server.lines) == PrintMap(Held(s0)) else s.server == s0.server && !w.reapplied
    requires s0.updater.op.Remove? ==> AllSixDigit(Held(s0))
    ensures TableTracks(s0, Do(s, Apply), Follow(w, Apply))
  {
    if w.readNew {
      MergePrices(s.db, s.server.lines);
      PrintMapIsSameIff(Held(s0));
      PricedLooksUp(Do(s, Apply).db, PrintMap(Held(s0)));
      if !s0.updater.op.Remove? && w.stored {
        assert UpsertLeft(s0, Follow(w, Apply)) == PrintMap(Held(s0));
      }
    } else if s0.updater.op.Remove? {
      MergeLooksOver(s.db, s.server.lines, RemovalLeft(s0, false, false));
      assert Over(RemovalLeft(s0, false, false), OldLines(s0)) == RemovalLeft(s0, false, true);
    } else if w.stored {
      MergeOver(s.db, s.server.lines, Held(s0));
    }
  }

  lemma StepPhase(s0: State, s: State, w: Schedule, e: Event)
    requires s0.updater.Edited? && PhaseTracks(s0, s, w) && Enabled(s, e) && !WritesFile(e)
    ensures PhaseTracks(s0, Do(s, e), Follow(w, e))
  {
  }

  lemma StepReload(s0: State, s: State, w: Schedule, e: Event)
    requires s0.updater.Edited? && PhaseTracks(s0, s, w) && ReloadTracks(s0, s, w) && Enabled(s, e) && !WritesFile(e)
    ensures ReloadTracks(s0, Do(s, e), Follow(w, e))
  {
  }

  lemma StepCache(s0: State, s: State, w: Schedule, e: Event)
    requires s0.updater.Edited? && PhaseTracks(s0, s, w) && CacheTracks(s0, s, w) && Enabled(s, e) && !WritesFile(e)
    ensures CacheTracks(s0, Do(s, e), Follow(w, e))
  {
  }

  lemma StepTable(s0: State, s: State, w: Schedule, e: Event)
    requires s0.updater.Edited? && Tracks(s0, s, w) && Enabled(s, e) && !WritesFile(e)
    ensures TableTracks(s0, Do(s, e), Follow(w, e))
  {
    match e
    case Store(kvs) => StoreTable(s0, s, w, kvs);
    case Apply => ApplyTable(s0, s, w);
    case _ =>
  }

  lemma StepTracks(s0: State, s: State, w: Schedule, e: Event)
    requires s0.updater.Edited? && Tracks(s0, s, w) && Enabled(s, e) && !WritesFile(e)
    ensures Tracks(s0, Do(s, e), Follow(w, e))
  {
    StepKeepsInv(s, e);
    StepPhase(s0, s, w, e);
    StepReload(s0, s, w, e);
    StepCache(s0, s, w, e);
    StepTable(s0, s, w, e);
  }

  lemma {:induction false} RunTracks(s0: State, s: State, w: Schedule, es: seq<Event>)
    requires s0.updater.Edited? && Tracks(s0, s, w) && Legal(s, es) && FileStands(es)
    ensures Tracks(s0, Exec(s, es), FollowAll(w, es))
    decreases es
  {
    if es != [] {
      StepTracks(s0, s, w, es[0]);
      RunTracks(s0, Do(s, es[0]), Follow(w, es[0]), es[1..]);
    }
  }

  /** A run from a Save on, without another Save. */
  ghost predicate LastRun(s: State, kvs: Listing, es: seq<Event>) {
    s.updater.Edited? && Inv(s) && Legal(s, [Save(kvs)] + es) && FileStands(es)
  }

  function After(s: State, kvs: Listing, es: seq<Event>): State {
    Exec(s, [Save(kvs)] + es)
  }

  function ScheduleOf(es: seq<Event>): Schedule {
    FollowAll(JUST_SAVED, es)
  }

  lemma LastRunTracks(s: State, kvs: Listing, es: seq<Event>)
    requires LastRun(s, kvs, es)
    ensures Tracks(s, After(s, kvs, es), ScheduleOf(es))
  {
    assert ([Save(kvs)] + es)[1..] == es;
    SaveTracks(s, kvs);
    RunTracks(s, Do(s, Save(kvs)), JUST_SAVED, es);
  }

  // ---------- Convergence ----------

  /** All four copies say the same. */
  ghost predicate Converged(s: State) {
    && s.shm == MapOf(s.file)
    && s.cache == MapOf(s.file)
    && Codes(s.db) == MapOf(s.file).Keys
    && Priced(s.db, MapOf(s.file))
  }

  /** All four copies come from one map: its prices, or their printouts. */
  ghost predicate SameSource(s: State, m: map<int, int>) {
    && s.shm == m && s.cache == m
    && MapOf(s.file) == PrintMap(m)
    && Codes(s.db) == m.Keys
    && (Priced(s.db, m) || Priced(s.db, PrintMap(m)))
  }

  lemma SameSourceConvergesIff(s: State, m: map<int, int>)
    requires SameSource(s, m)
    ensures Converged(s) <==> AllSixDigit(m)
  {
    PrintMapIsSameIff(m);
  }

  /** Once some reload has read the file since the last Save and taken shared memory over since its Share, then, outside
      reloads and after the Store, all four copies come from the map the updater saved. They are the same if and only if
      six digits are enough for the price its operator entered. */
  lemma {:induction false} CopiesConverge(s: State, kvs: Listing, es: seq<Event>)
    requires LastRun(s, kvs, es)
    requires After(s, kvs, es).server.Serving?
    requires ScheduleOf(es).stored && ScheduleOf(es).readNew && ScheduleOf(es).loadedNew
    ensures SameSource(After(s, kvs, es), Held(s))
    ensures Converged(After(s, kvs, es)) <==> PrintsExactly(s.updater.op)
  {
    LastRunTracks(s, kvs, es);
    EditedExactlyIff(Held(s), s.updater.op);
    SameSourceConvergesIff(After(s, kvs, es), Held(s));
  }

  lemma {:induction false} FollowAppend(w: Schedule, a: seq<Event>, b: seq<Event>)
    ensures FollowAll(w, a + b) == FollowAll(FollowAll(w, a), b)
    decreases a
  {
    if a == [] {
      assert a + b == b;
    } else {
      assert (a + b)[1..] == a[1..] + b;
      FollowAppend(Follow(w, a[0]), a[1..], b);
    }
  }

  lemma {:induction false} SchedulesGrow(w: Schedule, es: seq<Event>)
    ensures w.shared ==> FollowAll(w, es).shared
    ensures w.stored ==> FollowAll(w, es).stored
    ensures w.readNew ==> FollowAll(w, es).readNew
    ensures w.loadedNew ==> FollowAll(w, es).loadedNew
    decreases es
  {
    if es != [] {
      SchedulesGrow(Follow(w, es[0]), es[1..]);
    }
  }

  /** A reload under way is still under way. */
  ghost predicate NoClear(es: seq<Event>) {
    forall i :: 0 <= i < |es| ==> !es[i].Clear? && !es[i].Restart?
  }

  /** A reload in which shared memory is already shared cannot end without taking it over. */
  lemma {:induction false} ReloadLoads(s: State, w: Schedule, es: seq<Event>)
    requires Legal(s, es) && NoClear(es) && w.shared && !s.server.Serving?
    requires s.server.Loaded? ==> w.loadedNew
    ensures Exec(s, es).server.Loaded? ==> FollowAll(w, es).loadedNew
    decreases es
  {
    if es != [] {
      ReloadLoads(Do(s, es[0]), Follow(w, es[0]), es[1..]);
    }
  }

  lemma LastRunSplits(s: State, kvs: Listing, a: seq<Event>, b: seq<Event>)
    requires LastRun(s, kvs, a + b)
    ensures LastRun(s, kvs, a)
    ensures Legal(After(s, kvs, a), b) && After(s, kvs, a + b) == Exec(After(s, kvs, a), b)
  {
    assert [Save(kvs)] + (a + b) == [Save(kvs)] + a + b;
    ExecAppend(s, [Save(kvs)] + a, b);
    forall i | 0 <= i < |a|
      ensures !WritesFile(a[i])
    {
      assert !WritesFile((a + b)[i]);
    }
  }

  lemma StoreIsSeen(s: State, kvs: Listing, before: seq<Event>, stored: Listing, between: seq<Event>)
    requires LastRun(s, kvs, before + [Store(stored)] + between)
    ensures ScheduleOf(before + [Store(stored)] + between).shared
    ensures ScheduleOf(before + [Store(stored)] + between).stored
  {
    LastRunSplits(s, kvs, before + [Store(stored)], between);
    LastRunTracks(s, kvs, before + [Store(stored)]);
    FollowAppend(JUST_SAVED, before, [Store(stored)]);
    assert FollowAll(ScheduleOf(before), [Store(stored)]) == Follow(ScheduleOf(before), Store(stored));
    FollowAppend(JUST_SAVED, before + [Store(stored)], between);
    SchedulesGrow(ScheduleOf(before + [Store(stored)]), between);
  }

  lemma FullReload(s: State, w: Schedule, during: seq<Event>)
    requires Legal(s, [ReadFile] + during + [Clear]) && NoClear(during) && w.shared && w.stored
    ensures var end := FollowAll(w, [ReadFile] + during + [Clear]);
            Exec(s, [ReadFile] + during + [Clear]).server.Serving? && end.stored && end.readNew && end.loadedNew
  {
    var x, v := Do(s, ReadFile), Follow(w, ReadFile);
    assert [ReadFile] + during + [Clear] == [ReadFile] + (during + [Clear]);
    assert ([ReadFile] + (during + [Clear]))[1..] == during + [Clear];
    ExecAppend(x, during, [Clear]);
    FollowAppend(v, during, [Clear]);
    SingleStep(Exec(x, during), Clear);
    ReloadLoads(x, v, during);
    SchedulesGrow(v, during);
    assert FollowAll(FollowAll(v, during), [Clear]) == FollowAll(v, during);
  }

  /** Convergence: however the steps interleave, once a reload that started after the last updater's Store is over,
      file, shared memory, cache and table agree, and no removed code is anywhere, if and only if six digits are enough
      for the operator's price. */
  lemma {:induction false} PricesConverge(s: State, kvs: Listing, before: seq<Event>, stored: Listing,
                                          between: seq<Event>, during: seq<Event>)
    requires LastRun(s, kvs, before + [Store(stored)] + between + [ReadFile] + during + [Clear])
    requires NoClear(during)
    ensures var t := After(s, kvs, before + [Store(stored)] + between + [ReadFile] + during + [Clear]);
            SameSource(t, Held(s)) && (Converged(t) <==> PrintsExactly(s.updater.op))
  {
    var front := before + [Store(stored)] + between;
    assert before + [Store(stored)] + between + [ReadFile] + during + [Clear] ==
           front + ([ReadFile] + during + [Clear]);
    LastRunSplits(s, kvs, front, [ReadFile] + during + [Clear]);
    assert ScheduleOf(front).shared && ScheduleOf(front).stored by {
      StoreIsSeen(s, kvs, before, stored, between);
    }
    FullReload(After(s, kvs, front), ScheduleOf(front), during);
    FollowAppend(JUST_SAVED, front, [ReadFile] + during + [Clear]);
    CopiesConverge(s, kvs, front + ([ReadFile] + during + [Clear]));
  }

  // ---------- What a close charges ----------

  /** What a table with these prices charges: 0 for a code it does not have. */
  function PriceOf(table: map<int, int>, code: int): int {
    if code in table then table[code] else 0
  }

  /** The cache charges nothing but the table's prices. */
  ghost predicate Fits(cache: map<int, int>, table: map<int, int>) {
    forall c :: c in cache ==> cache[c] == PriceOf(table, c)
  }

  /** Every code, known or not, is charged at the table's price. */
  ghost predicate ChargesTable(s: State) {
    forall c :: ChargedPrice(s.cache, s.db, c) == DbPrice(s.db, c)
  }

  lemma TablePrice(db: seq<PriceRow>, table: map<int, int>, c: int)
    requires Codes(db) == table.Keys && LooksUp(db, table)
    ensures DbPrice(db, c) == PriceOf(table, c)
  {
    CodesAreHad(db, c);
  }

  lemma CodesAreHad(db: seq<PriceRow>, c: int)
    ensures HasCode(db, c) <==> c in Codes(db)
  {
  }

  lemma ChargesTableIff(s: State, table: map<int, int>)
    requires Codes(s.db) == table.Keys && LooksUp(s.db, table)
    ensures ChargesTable(s) <==> Fits(s.cache, table)
  {
    forall c
      ensures DbPrice(s.db, c) == PriceOf(table, c)
    {
      TablePrice(s.db, table, c);
    }
    if ChargesTable(s) {
      forall c | c in s.cache
        ensures s.cache[c] == PriceOf(table, c)
      {
        assert ChargedPrice(s.cache, s.db, c) == DbPrice(s.db, c);
      }
    }
  }

  function TableLeft(s: State, w: Schedule): map<int, int>
    requires s.updater.Edited?
  {
    if s.updater.op.Remove? then RemovalLeft(s, w.readNew, s.server.HasFile?) else UpsertLeft(s, w)
  }

  /** Once all is quiet, the state before the last Save and the order of the steps since decide what cache and table
      hold: every lookup, and every row too unless a removal left a code in two rows. */
  lemma {:induction false} LastRunDecides(s: State, kvs: Listing, es: seq<Event>)
    requires LastRun(s, kvs, es) && Quiescent(After(s, kvs, es))
    ensures var t := After(s, kvs, es);
            var table := TableLeft(s, ScheduleOf(es));
            && t.cache == CacheLeft(s, ScheduleOf(es))
            && Codes(t.db) == table.Keys
            && (forall c :: DbPrice(t.db, c) == PriceOf(table, c))
            && (!s.updater.op.Remove? || ScheduleOf(es).readNew || UniqueCodes(t.db) ==> Priced(t.db, table))
            && (ChargesTable(t) <==> Fits(CacheLeft(s, ScheduleOf(es)), table))
  {
    var t := After(s, kvs, es);
    var table := TableLeft(s, ScheduleOf(es));
    LastRunTracks(s, kvs, es);
    QuietTracks(s, t, ScheduleOf(es));
    ChargesTableIff(t, table);
    forall c
      ensures DbPrice(t.db, c) == PriceOf(table, c)
    {
      TablePrice(t.db, table, c);
    }
    if UniqueCodes(t.db) {
      LooksUpIsPriced(t.db, table);
    }
  }

  lemma QuietTracks(s0: State, s: State, w: Schedule)
    requires s0.updater.Edited? && Tracks(s0, s, w) && Quiescent(s)
    ensures s.cache == CacheLeft(s0, w) && Codes(s.db) == TableLeft(s0, w).Keys
    ensures LooksUp(s.db, TableLeft(s0, w))
    ensures !s0.updater.op.Remove? || w.readNew ==> Priced(s.db, TableLeft(s0, w))
  {
    TableKeys(s0, w);
    QuietCodes(s, Held(s0));
    QuietTable(s0, s, w);
  }

  lemma QuietCodes(s: State, m: map<int, int>)
    requires Inv(s) && s.updater.Resting? && MapOf(s.file) == PrintMap(m)
    ensures Codes(s.db) == m.Keys
  {
    assert PrintMap(m).Keys == m.Keys;
  }

  lemma QuietTable(s0: State, s: State, w: Schedule)
    requires s0.updater.Edited? && PhaseTracks(s0, s, w) && TableTracks(s0, s, w) && Quiescent(s)
    ensures LooksUp(s.db, TableLeft(s0, w))
    ensures !s0.updater.op.Remove? || w.readNew ==> Priced(s.db, TableLeft(s0, w))
  {
    if !s0.updater.op.Remove? {
      PricedLooksUp(s.db, UpsertLeft(s0, w));
    }
  }

  lemma TableKeys(s: State, w: Schedule)
    requires s.updater.Edited?
    ensures TableLeft(s, w).Keys == Held(s).Keys
  {
  }

  /** Exactly when a new price is charged everywhere after all is quiet. If no reload took shared memory over after the
      Share, the old cache must happen to fit. If one did, and none wrote the table after the Store, nothing can be
      wrong. If one did, it must have read the new file, and then six digits must be enough for the new price, or else
      its old lines must happen to say the same. */
  lemma {:induction false} UpsertSignalIff(s: State, kvs: Listing, es: seq<Event>)
    requires LastRun(s, kvs, es) && Quiescent(After(s, kvs, es)) && !s.updater.op.Remove?
    ensures var w := ScheduleOf(es);
            ChargesTable(After(s, kvs, es)) <==>
            if !w.loadedNew then Fits(CacheLeft(s, w), Held(s))
            else if !w.reapplied then true
            else if w.readNew then PrintsExactly(s.updater.op)
            else forall c :: c in OldLines(s) && c in Held(s) ==> OldLines(s)[c] == Held(s)[c]
  {
    var w := ScheduleOf(es);
    var m := Held(s);
    LastRunDecides(s, kvs, es);
    LastRunTracks(s, kvs, es);
    EditedExactlyIff(m, s.updater.op);
    if w.loadedNew && w.reapplied && w.readNew {
      FitsPrintoutIff(m);
    } else if w.loadedNew && w.reapplied {
      FitsOverIff(m, OldLines(s));
    }
  }

  lemma FitsPrintoutIff(m: map<int, int>)
    ensures Fits(m, PrintMap(m)) <==> AllSixDigit(m)
  {
  }

  lemma FitsOverIff(m: map<int, int>, lines: map<int, int>)
    ensures Fits(m, Over(m, lines)) <==> forall c :: c in lines && c in m ==> lines[c] == m[c]
  {
    if Fits(m, Over(m, lines)) {
      forall c | c in lines && c in m
        ensures lines[c] == m[c]
      {
        assert Over(m, lines)[c] == lines[c];
      }
    }
  }

  /** The same for a removal, which leaves the other rows to the reloads: if a reload has read the new file, only the
      cache can be out of date. */
  lemma {:induction false} RemovalSignalIff(s: State, kvs: Listing, es: seq<Event>)
    requires LastRun(s, kvs, es) && Quiescent(After(s, kvs, es)) && s.updater.op.Remove?
    ensures var w := ScheduleOf(es);
            ChargesTable(After(s, kvs, es)) <==>
            if w.readNew && w.loadedNew then true
            else if w.readNew then Fits(CacheLeft(s, w), Held(s))
            else Fits(CacheLeft(s, w), RemovalLeft(s, false, s.server.HasFile?))
  {
    LastRunDecides(s, kvs, es);
  }

  /** A server that has so far kept up: whatever it holds is what the file says. */
  ghost predicate KeptUp(s: State) {
    && s.shm == MapOf(s.file) && s.cache == MapOf(s.file)
    && (s.server.HasFile? ==> MapOf(s.server.lines) == MapOf(s.file))
  }

  /** A price change that changes something, after a server that kept up: the order of the steps alone decides. */
  lemma {:induction false} ScheduleDecidesChange(s: State, kvs: Listing, es: seq<Event>, code: int, price: int)
    requires LastRun(s, kvs, es) && Quiescent(After(s, kvs, es)) && KeptUp(s)
    requires s.updater.op == Change(code, price) && SixDigit(price) && MapOf(s.file)[code] != price
    ensures ChargesTable(After(s, kvs, es)) <==>
            ScheduleOf(es).loadedNew && (ScheduleOf(es).reapplied ==> ScheduleOf(es).readNew)
  {
    var w := ScheduleOf(es);
    UpsertSignalIff(s, kvs, es);
    LastRunTracks(s, kvs, es);
    assert Held(s)[code] == price;
    if !w.loadedNew {
      assert CacheLeft(s, w)[code] != PriceOf(Held(s), code);
    } else if w.reapplied && !w.readNew {
      assert code in OldLines(s) && OldLines(s)[code] != Held(s)[code];
    }
  }
}
