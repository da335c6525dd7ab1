/** SIGHUPs that land while the server serves, and what they guarantee once all is quiet. */
module PriceSignals {
  import opened Prices
  import opened Printing
  import opened PriceProtocol
  import opened PriceSchedules
  import opened PriceDb

  /** In this run no SIGHUP of an updater lands inside a reload. */
  ghost predicate NoneAbsorbed(s: State, es: seq<Event>)
    decreases es
  {
    es == [] || ((es[0].Signal? ==> s.server.Serving?) && NoneAbsorbed(Do(s, es[0]), es[1..]))
  }

  /** One life of the server. */
  ghost predicate NoRestart(es: seq<Event>) {
    forall i :: 0 <= i < |es| ==> !es[i].Restart?
  }

  /** A reload that has so far only seen the current file. */
  ghost predicate Fresh(s: State) {
    match s.server
    case Serving => false
    case HasFile(lines) => MapOf(lines) == MapOf(s.file)
    case Applied => Priced(s.db, MapOf(s.file))
    case Loaded => Priced(s.db, MapOf(s.file)) && s.cache == s.shm
  }

  /** The cache is shared memory, the file is its printout, and the table carries the printed prices. */
  ghost predicate InAgreement(s: State) {
    s.cache == s.shm && MapOf(s.file) == PrintMap(s.cache) && Priced(s.db, PrintMap(s.cache))
  }

  /** Once an updater has signalled: between updater runs the file is the printout of shared memory, an unfinished
      reload is fresh and has its flag up, and with the flag down cache and table agree. */
  ghost predicate Undisturbed(s: State, signalled: bool) {
    && Inv(s)
    && (signalled && !s.server.Serving? ==> s.flag)
    && (signalled && (s.updater.Resting? || s.updater.Edited?) ==>
          && MapOf(s.file) == PrintMap(s.shm)
          && (!s.flag ==> InAgreement(s))
          && (!s.server.Serving? ==> Fresh(s)))
  }

  lemma StepKeepsUndisturbed(s: State, e: Event, signalled: bool)
    requires Undisturbed(s, signalled) && Enabled(s, e) && !e.Restart? && (e.Signal? ==> s.server.Serving?)
    ensures Undisturbed(Do(s, e), signalled || e.Signal?)
  {
    StepKeepsInv(s, e);
    if e.Apply? {
      MergePrices(s.db, s.server.lines);
    }
  }

  lemma {:induction false} RunKeepsUndisturbed(s: State, es: seq<Event>, signalled: bool)
    requires Undisturbed(s, signalled) && Legal(s, es) && NoneAbsorbed(s, es) && NoRestart(es)
    ensures Undisturbed(Exec(s, es), signalled || !NoSignal(es))
    decreases es
  {
    if es != [] {
      StepKeepsUndisturbed(s, es[0], signalled);
      RunKeepsUndisturbed(Do(s, es[0]), es[1..], signalled || es[0].Signal?);
      SignalSplits(es);
    }
  }

  ghost predicate NoSignal(es: seq<Event>) {
    forall i :: 0 <= i < |es| ==> !es[i].Signal?
  }

  lemma SignalSplits(es: seq<Event>)
    requires es != []
    ensures NoSignal(es) <==> !es[0].Signal? && NoSignal(es[1..])
  {
    assert forall i :: 1 <= i < |es| ==> es[i] == es[1..][i - 1];
  }

  // ---------- Quiet moments after a signal ----------

  /** An updater that has begun does not rest before it signals. */
  lemma {:induction false} BusyUntilSignal(s: State, es: seq<Event>)
    requires Legal(s, es) && NoSignal(es) && !s.updater.Resting?
    ensures !Exec(s, es).updater.Resting?
    decreases es
  {
    if es != [] {
      BusyUntilSignal(Do(s, es[0]), es[1..]);
    }
  }

  /** So a run without a signal that ends at rest has no updater in it. */
  lemma {:induction false} NothingShared(s: State, es: seq<Event>)
    requires Legal(s, es) && NoSignal(es) && s.updater.Resting? && Exec(s, es).updater.Resting?
    ensures Exec(s, es).shm == s.shm && NoneAbsorbed(s, es)
    ensures forall i :: 0 <= i < |es| ==> !es[i].Begin?
    decreases es
  {
    if es != [] {
      if es[0].Begin? {
        BusyUntilSignal(Do(s, es[0]), es[1..]);
      }
      NothingShared(Do(s, es[0]), es[1..]);
    }
  }

  lemma PublishedPrices(t: State)
    requires Inv(t) && t.updater.Resting? && InAgreement(t)
    ensures forall c :: DbPrice(t.db, c) == Printed(ChargedPrice(t.cache, t.db, c))
    ensures ChargesTable(t) <==> AllSixDigit(t.cache)
  {
    var table := PrintMap(t.cache);
    PricedLooksUp(t.db, table);
    ChargesTableIff(t, table);
    FitsPrintoutIff(t.cache);
    forall c
      ensures DbPrice(t.db, c) == Printed(ChargedPrice(t.cache, t.db, c))
    {
      TablePrice(t.db, table, c);
    }
  }

  /** Whatever came before, absorbed signals, restarts and foreign shared memory included: if the last updater's SIGHUP
      found the server serving, then once all is quiet in that life of the server the cache is the map it published,
      every code is charged at the price whose printout the table carries, and the two are the same if and only if six
      digits are enough for the price its operator entered. */
  lemma {:induction false} LastSignalDecides(s: State, a: seq<Event>, b: seq<Event>)
    requires Inv(s) && Legal(s, a + [Signal] + b) && NoSignal(b) && NoRestart(b)
    requires Exec(s, a).server.Serving? && Quiescent(Exec(s, a + [Signal] + b))
    ensures Exec(s, a).updater.Stored?
    ensures var t := Exec(s, a + [Signal] + b);
            && t.cache == Exec(s, a).updater.m
            && (forall c :: DbPrice(t.db, c) == Printed(ChargedPrice(t.cache, t.db, c)))
            && (ChargesTable(t) <==> PrintsExactly(Exec(s, a).updater.op))
  {
    var s1 := Exec(s, a);
    var s2 := Do(s1, Signal);
    var t := Exec(s2, b);
    ExecAppend(s, a + [Signal], b);
    ExecAppend(s, a, [Signal]);
    SingleStep(s1, Signal);
    RunKeepsInv(s, a);
    StepKeepsInv(s1, Signal);
    EditedExactlyIff(s1.updater.m, s1.updater.op);
    NothingShared(s2, b);
    RunKeepsUndisturbed(s2, b, true);
    PublishedPrices(t);
  }

  // ---------- Quiet moments of a life no updater has touched ----------

  /** The prices a table is looked up at. */
  ghost function PricesIn(db: seq<PriceRow>): map<int, int> {
    map c | c in Codes(db) :: DbPrice(db, c)
  }

  ghost predicate Reloaded(es: seq<Event>) {
    exists i :: 0 <= i < |es| && es[i].Apply?
  }

  /** What the table of a life that started on db is looked up at: once a reload has applied the file, at the printed
      prices, and then a code in two rows has those of the last. */
  ghost function StartTable(db: seq<PriceRow>, reloaded: bool): map<int, int> {
    if reloaded then MapOf(FileFromDb(db)) else PricesIn(db)
  }

  /** With one row per code the file prints what the table says. */
  lemma UniqueStartTable(db: seq<PriceRow>)
    requires UniqueCodes(db)
    ensures StartTable(db, true) == PrintMap(StartTable(db, false))
  {
    GeneratedFileMatchesDb(db);
  }

  ghost predicate LifeTracks(db: seq<PriceRow>, shm: map<int, int>, s: State, reloaded: bool) {
    && s.updater.Resting?
    && s.file == FileFromDb(db) && s.shm == shm && Codes(s.db) == Codes(db)
    && (s.server.HasFile? ==> s.server.lines == s.file)
    && (if reloaded then Priced(s.db, MapOf(s.file)) else s.db == db)
    && (s.server.Applied? || s.cache == shm)
  }

  ghost predicate Untouched(es: seq<Event>) {
    forall i :: 0 <= i < |es| ==> !es[i].Begin? && !es[i].Restart?
  }

  lemma LifeStep(db: seq<PriceRow>, shm: map<int, int>, s: State, e: Event, reloaded: bool)
    requires LifeTracks(db, shm, s, reloaded) && Enabled(s, e) && !e.Begin? && !e.Restart?
    ensures LifeTracks(db, shm, Do(s, e), reloaded || e.Apply?)
  {
    if e.Apply? {
      MergeTheorem(s.db, s.server.lines);
      MergePrices(s.db, s.server.lines);
    }
  }

  lemma {:induction false} LifeRun(db: seq<PriceRow>, shm: map<int, int>, s: State, es: seq<Event>, reloaded: bool)
    requires LifeTracks(db, shm, s, reloaded) && Legal(s, es) && Untouched(es)
    ensures LifeTracks(db, shm, Exec(s, es), reloaded || Reloaded(es))
    decreases es
  {
    if es != [] {
      LifeStep(db, shm, s, es[0], reloaded);
      LifeRun(db, shm, Do(s, es[0]), es[1..], reloaded || es[0].Apply?);
      ReloadedSplits(es);
    }
  }

  lemma ReloadedSplits(es: seq<Event>)
    requires es != []
    ensures Reloaded(es) <==> es[0].Apply? || Reloaded(es[1..])
  {
    assert forall i :: 1 <= i < |es| ==> es[i] == es[1..][i - 1];
  }

  lemma StartLookups(db: seq<PriceRow>, s: State, reloaded: bool)
    requires LifeTracks(db, s.shm, s, reloaded)
    ensures Codes(s.db) == StartTable(db, reloaded).Keys && LooksUp(s.db, StartTable(db, reloaded))
  {
    FileCodes(db);
    if reloaded {
      PricedLooksUp(s.db, MapOf(s.file));
    }
  }

  /** Exactly when a server that no updater has talked to since its start charges its table's prices: shared memory as
      it was found must fit the table, or the printed table once a reload has applied the file. */
  lemma {:induction false} StartDecides(db: seq<PriceRow>, shm: map<int, int>, es: seq<Event>)
    requires Legal(Started(db, shm), es) && Untouched(es) && Quiescent(Exec(Started(db, shm), es))
    ensures ChargesTable(Exec(Started(db, shm), es)) <==> Fits(shm, StartTable(db, Reloaded(es)))
  {
    var t := Exec(Started(db, shm), es);
    LifeRun(db, shm, Started(db, shm), es, false);
    StartLookups(db, t, Reloaded(es));
    ChargesTableIff(t, StartTable(db, Reloaded(es)));
  }

  /** One life of the server, from any start, no SIGHUP of an updater absorbed: whenever all is quiet, if an updater has
      signalled the table carries the printout of every price charged, and the same price if six digits are enough for
      what is cached; and if none has, it all depends on the shared memory found at the start. */
  lemma {:induction false} QuietChargesDbPrice(db: seq<PriceRow>, shm: map<int, int>, es: seq<Event>)
    requires Legal(Started(db, shm), es) && NoRestart(es) && NoneAbsorbed(Started(db, shm), es)
    requires Quiescent(Exec(Started(db, shm), es))
    ensures var t := Exec(Started(db, shm), es);
            if NoSignal(es)
            then ChargesTable(t) <==> Fits(shm, StartTable(db, Reloaded(es)))
            else
              && (forall c :: DbPrice(t.db, c) == Printed(ChargedPrice(t.cache, t.db, c)))
              && (ChargesTable(t) <==> AllSixDigit(t.cache))
  {
    StartKeepsInv(db, shm);
    if NoSignal(es) {
      NothingShared(Started(db, shm), es);
      StartDecides(db, shm, es);
    } else {
      RunKeepsUndisturbed(Started(db, shm), es, false);
      PublishedPrices(Exec(Started(db, shm), es));
    }
  }

  // ---------- Every quiet moment ----------

  /** Where the file was last written, or -1. */
  lemma {:induction false} LastWrite(es: seq<Event>) returns (k: int)
    ensures -1 <= k < |es| && (k >= 0 ==> WritesFile(es[k])) && FileStands(es[k + 1..])
  {
    if es == [] {
      k := -1;
    } else {
      var later := LastWrite(es[1..]);
      assert es[1..][later + 1..] == es[later + 2..];
      k := if later >= 0 then later + 1 else if WritesFile(es[0]) then 0 else -1;
      if k == -1 {
        assert es[0..] == [es[0]] + es[1..];
      }
    }
  }

  /** No updater that began after the last write has reached its Save. */
  lemma {:induction false} NothingBegins(s: State, es: seq<Event>)
    requires Legal(s, es) && FileStands(es) && s.updater.Resting? && Exec(s, es).updater.Resting?
    ensures Untouched(es)
    decreases es
  {
    if es != [] {
      assert !WritesFile(es[0]);
      assert FileStands(es[1..]) by {
        assert forall i :: 0 <= i < |es| - 1 ==> es[1..][i] == es[i + 1];
      }
      if es[0].Begin? {
        StaysEdited(Do(s, es[0]), es[1..]);
      } else {
        NothingBegins(Do(s, es[0]), es[1..]);
      }
    }
  }

  lemma {:induction false} StaysEdited(s: State, es: seq<Event>)
    requires Legal(s, es) && FileStands(es) && s.updater.Edited?
    ensures Exec(s, es).updater.Edited?
    decreases es
  {
    if es != [] {
      assert !WritesFile(es[0]);
      assert FileStands(es[1..]) by {
        assert forall i :: 0 <= i < |es| - 1 ==> es[1..][i] == es[i + 1];
      }
      StaysEdited(Do(s, es[0]), es[1..]);
    }
  }

  /** The run up to event k, event k, and the rest. */
  lemma SplitAt(s: State, es: seq<Event>, k: nat)
    requires k < |es| && Legal(s, es)
    ensures Legal(s, es[..k]) && Legal(Exec(s, es[..k]), [es[k]] + es[k + 1..])
    ensures Enabled(Exec(s, es[..k]), es[k]) && Legal(Do(Exec(s, es[..k]), es[k]), es[k + 1..])
    ensures Exec(s, es) == Exec(Exec(s, es[..k]), [es[k]] + es[k + 1..])
    ensures Exec(s, es) == Exec(Do(Exec(s, es[..k]), es[k]), es[k + 1..])
  {
    assert es == es[..k] + ([es[k]] + es[k + 1..]);
    ExecAppend(s, es[..k], [es[k]] + es[k + 1..]);
    assert ([es[k]] + es[k + 1..])[1..] == es[k + 1..];
  }

  /** What decides a quiet moment: the cache and the table's lookups that its last write of the file leads to. */
  ghost predicate Decided(t: State, cache: map<int, int>, table: map<int, int>) {
    ChargesTable(t) <==> Fits(cache, table)
  }

  /** Every quiet moment of every legal run over any number of server lives, from any start, is decided by the last
      write of the file: by the updater that saved it and the order of the steps since, or by the table and the shared
      memory that the server found when it last started. */
  lemma {:induction false} EveryQuietMomentIsDecided(db: seq<PriceRow>, shm: map<int, int>, es: seq<Event>)
    returns (k: int)
    requires Legal(Started(db, shm), es) && Quiescent(Exec(Started(db, shm), es))
    ensures -1 <= k < |es| && FileStands(es[k + 1..])
    ensures k == -1 ==> Decided(Exec(Started(db, shm), es), shm, StartTable(db, Reloaded(es)))
    ensures k >= 0 ==>
              var s := Exec(Started(db, shm), es[..k]);
              var rest := es[k + 1..];
              if es[k].Restart?
              then Decided(Exec(Started(db, shm), es), s.shm, StartTable(SeedAll(s.db, CITIES), Reloaded(rest)))
              else
                && es[k].Save? && LastRun(s, es[k].kvs, rest)
                && Decided(Exec(Started(db, shm), es), CacheLeft(s, ScheduleOf(rest)), TableLeft(s, ScheduleOf(rest)))
  {
    k := LastWrite(es);
    if k == -1 {
      assert es[0..] == es;
      NothingBegins(Started(db, shm), es);
      StartDecides(db, shm, es);
    } else {
      StartKeepsInv(db, shm);
      SplitAt(Started(db, shm), es, k);
      RunKeepsInv(Started(db, shm), es[..k]);
      if es[k].Restart? {
        RestartDecides(Exec(Started(db, shm), es[..k]), es[k + 1..]);
      } else {
        LastRunDecides(Exec(Started(db, shm), es[..k]), es[k].kvs, es[k + 1..]);
      }
    }
  }

  /** A restart is a start on the reseeded table and whatever shared memory holds. */
  lemma {:induction false} RestartDecides(s: State, es: seq<Event>)
    requires Enabled(s, Restart) && Legal(Do(s, Restart), es) && FileStands(es) && Quiescent(Exec(Do(s, Restart), es))
    ensures Decided(Exec(Do(s, Restart), es), s.shm, StartTable(SeedAll(s.db, CITIES), Reloaded(es)))
  {
    NothingBegins(Do(s, Restart), es);
    StartDecides(SeedAll(s.db, CITIES), s.shm, es);
  }
}
