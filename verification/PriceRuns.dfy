/** Legal runs and starts after which a quiet server charges what its table does not say. */
module PriceRuns {
  import opened Options
  import opened Prices
  import opened Printing
  import opened PriceDb
  import opened PriceProtocol
  import opened PriceSchedules
  import opened PriceSignals

  const ARAD := PriceRow("Arad", 1, 31.255, 35.166, 100)

  /** A one-city system in agreement. */
  const CALM := State([(1, 100)], map[1 := 100], [ARAD], map[1 := 100], false, Resting, Serving)

  /** Somebody hangs up, and the updater's whole run falls inside the reload that follows. */
  const ABSORBED: seq<Event> := [Hangup, ReadFile] + UpdaterRun(Change(1, 200), [(1, 200)])

  lemma OneLine(price: int)
    ensures MapOf([(1, price)]) == map[1 := price]
    ensures Lists(map[1 := price], [(1, price)])
    ensures PutAll([ARAD], [(1, price)], Some(""), 0.0, 0.0) == [ARAD.(price := price)]
  {
    var kvs := [(1, price)];
    assert kvs[..|kvs| - 1] == [];
    assert [ARAD][0].code == 1;
    assert (1, price) in kvs;
    assert SetPrice([ARAD], 1, price) == [ARAD.(price := price)];
  }

  /** Out of order: after ABSORBED the server falls quiet charging 200 where the table says 100. */
  lemma StaleTableRun()
    ensures Inv(CALM) && Quiescent(CALM) && Converged(CALM) && Legal(CALM, ABSORBED)
    ensures var t := Exec(CALM, ABSORBED);
            var quiet := Exec(t, Remaining(t.server));
            && Legal(t, Remaining(t.server)) && Quiescent(quiet)
            && quiet.db == [ARAD] && quiet.shm == map[1 := 200]
            && ChargedPrice(quiet.cache, quiet.db, 1) == 200 && DbPrice(quiet.db, 1) == 100
  {
    OneLine(100);
    OneLine(200);
    var kvs := [(1, 200)];
    var s := CALM.(flag := true, server := HasFile([(1, 100)]));
    TwoSteps(CALM, Hangup, ReadFile);
    assert Edit(MapOf(s.file), Change(1, 200)) == map[1 := 200];
    RunUnfolds(s, Change(1, 200), kvs);
    ExecAppend(CALM, [Hangup, ReadFile], UpdaterRun(Change(1, 200), kvs));
    var t := Exec(CALM, ABSORBED);
    assert t.db == [ARAD.(price := 200)];
    RunRemaining(t);
    OneMerge(t.db[0], 100);
    CalmIsConverged();
  }

  lemma CalmIsConverged()
    ensures Inv(CALM) && Converged(CALM)
  {
    OneLine(100);
    assert CALM.db[0].code == 1;
    assert Codes(CALM.db) == {1};
    SmallIsSixDigit(100);
  }

  lemma OneRowTable(reloaded: bool)
    ensures StartTable([ARAD], reloaded) == map[1 := 100]
  {
    OneLine(100);
    assert FileFromDb([ARAD]) == [(1, 100)];
    assert [ARAD][0].code == 1;
    assert Codes([ARAD]) == {1};
  }

  /** Out of the past: shared memory outlives the server. A restart on what StaleTableRun leaves is quiet at once, no
      signal has been absorbed in its life, and it charges 200 where the table says 100, until an updater comes. */
  lemma {:induction false} StaleRestart(es: seq<Event>)
    ensures Quiescent(Started([ARAD], map[1 := 200]))
    ensures ChargedPrice(map[1 := 200], [ARAD], 1) == 200 && DbPrice([ARAD], 1) == 100
    ensures var start := Started([ARAD], map[1 := 200]);
            Legal(start, es) && Untouched(es) && Quiescent(Exec(start, es)) ==> !ChargesTable(Exec(start, es))
  {
    var start := Started([ARAD], map[1 := 200]);
    if Legal(start, es) && Untouched(es) && Quiescent(Exec(start, es)) {
      StartDecides([ARAD], map[1 := 200], es);
      OneRowTable(Reloaded(es));
      assert PriceOf(map[1 := 100], 1) != map[1 := 200][1];
    }
  }

  /** Tel Aviv's code, given to another place by an operator who had removed the seeded city. */
  const MOVED := PriceRow("Tel Aviv North", 5000, 32.2, 34.85, 100)

  lemma MovedIsFar()
    ensures FarFrom([MOVED], CITIES)
  {
    forall i, j | 0 <= i < 1 && 0 <= j < |CITIES|
      ensures !NearRow([MOVED][i], CITIES[j].lat, CITIES[j].lng)
    {
    }
  }

  /** Out of the seed: seeding goes by places, so the next start seeds the city again and its code is in two rows. The
      start agrees with shared memory, but the file's last line wins, and the first reload reprices both rows. */
  lemma SeededTwice(db: seq<PriceRow>)
    requires db == SeedAll([MOVED], CITIES)
    ensures !UniqueCodes(db)
    ensures PriceOf(StartTable(db, false), 5000) == 100 && PriceOf(StartTable(db, true), 5000) == 500
    ensures Fits(map[5000 := 100], StartTable(db, false)) && !Fits(map[5000 := 100], StartTable(db, true))
  {
    MovedSeed(db);
    FirstTelAviv(db);
    LastTelAviv(db);
    FitsOne(StartTable(db, false), 5000, 100);
    FitsOne(StartTable(db, true), 5000, 100);
  }

  lemma MovedSeed(db: seq<PriceRow>)
    requires db == SeedAll([MOVED], CITIES)
    ensures db == [MOVED] + CITIES
  {
    MovedIsFar();
    CitiesAreApart();
    ApartSeedIsAll([MOVED], CITIES);
  }

  lemma FitsOne(table: map<int, int>, c: int, p: int)
    ensures Fits(map[c := p], table) <==> PriceOf(table, c) == p
  {
    assert c in map[c := p];
  }

  lemma FirstTelAviv(db: seq<PriceRow>)
    requires db == [MOVED] + CITIES
    ensures !UniqueCodes(db)
    ensures PriceOf(PricesIn(db), 5000) == 100
  {
    assert db[0] == MOVED && db[2] == CITIES[1] && CITIES[1].code == 5000;
    assert 5000 in Codes(db);
    assert DbPrice(db, 5000) == 100;
  }

  lemma LastTelAviv(db: seq<PriceRow>)
    requires db == [MOVED] + CITIES
    ensures PriceOf(MapOf(FileFromDb(db)), 5000) == 500
  {
    CityCodesDiffer();
    SmallIsSixDigit(500);
    assert db[2] == CITIES[1] && CITIES[1].code == 5000 && CITIES[1].price == 500;
    forall j | 2 < j < |db|
      ensures FileFromDb(db)[j].0 != 5000
    {
      assert db[j] == CITIES[j - 1];
    }
    LastLineWins(FileFromDb(db), 2);
  }

  /** Out of digits: after an undisturbed updater run and a full reload the server charges 12345.67 where the table,
      rewritten from the file, says 12345.7. */
  lemma RoundedPriceRun()
    ensures Printed(1234567) == 1234570
    ensures var t := Exec(CALM, UpdaterRun(Change(1, 1234567), [(1, 1234567)]));
            var quiet := Exec(t, Remaining(t.server));
            && Legal(CALM, UpdaterRun(Change(1, 1234567), [(1, 1234567)]))
            && Legal(t, Remaining(t.server)) && Quiescent(quiet)
            && ChargedPrice(quiet.cache, quiet.db, 1) == 1234567 && DbPrice(quiet.db, 1) == 1234570
  {
    OneLine(100);
    OneLine(1234567);
    var kvs := [(1, 1234567)];
    assert Edit(MapOf(CALM.file), Change(1, 1234567)) == map[1 := 1234567];
    RunUnfolds(CALM, Change(1, 1234567), kvs);
    var t := Exec(CALM, UpdaterRun(Change(1, 1234567), kvs));
    assert t.db == [ARAD.(price := 1234567)];
    assert t.file == [(1, 1234570)];
    RunRemaining(t);
    OneMerge(t.db[0], 1234570);
  }

  lemma OneMerge(row: PriceRow, price: int)
    requires row.code == 1
    ensures PutAll([row], [(1, price)], None, 0.0, 0.0) == [row.(price := price)]
  {
    MergeTheorem([row], [(1, price)]);
    OneLine(price);
  }
}
