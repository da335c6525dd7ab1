/** The updater's three commands and the server's reload as programs over the text of the price file, each the run of
    its protocol steps. What the two programs share is in one object: the file's text, the segment, the table and the
    flag, with the server's cache beside them. */
module PricePrograms {
  import opened Options
  import opened Prices
  import opened PriceDb
  import opened Printing
  import opened PricesFile
  import opened PriceSegment
  import opened PriceProtocol

  /** What the two programs share, plus the server's cache and flag. */
  class Machine {
    /** prices.txt, and the pairs it was written from. */
    var text: string
    ghost var written: Listing
    const segment: Segment
    const table: PriceTable
    var cache: map<int, int>
    var flag: bool

    ghost predicate Valid()
      reads this, segment, segment.bytes
    {
      text == FileText(written) && Int32Codes(written) && segment.Valid()
    }

    /** What the two programs' readers make of all this. */
    ghost function Now(): State
      reads this, segment, table
    {
      State(Printout(written), segment.Held(), table.rows, cache, flag, Resting, Serving)
    }

    /** A server start on a database and whatever shared memory holds. */
    constructor (db: PriceTable, shared: Segment)
      requires Int32Codes(PairsOf(db.rows)) && shared.Valid()
      ensures Valid() && table == db && segment == shared && Now() == Started(db.rows, shared.Held())
    {
      table, segment := db, shared;
      flag := false;
      var file := SavePricesFile(PairsOf(db.rows));
      text, written := file, PairsOf(db.rows);
      var prices := shared.Read();
      cache := prices;
    }

    /** The server starts again. */
    method Restart()
      requires Valid() && Int32Codes(PairsOf(SeedAll(table.rows, CITIES)))
      modifies this, table
      ensures Valid()
      ensures Now() == RestartOf(old(Now()))
    {
      StartOver(CITIES);
    }

    /** Seed the table, write the file, load shared memory. */
    method StartOver(cities: seq<PriceRow>)
      requires Valid() && Int32Codes(PairsOf(SeedAll(table.rows, cities)))
      modifies this, table
      ensures Valid()
      ensures Now() == Started(SeedAll(old(table.rows), cities), old(Now()).shm)
    {
      table.Seed(cities);
      WriteFile();
      LoadShared();
      flag := false;
    }

    /** write_prices_file_from_db. */
    method WriteFile()
      requires Valid() && Int32Codes(PairsOf(table.rows))
      modifies this`text, this`written
      ensures Valid()
      ensures Now() == old(Now()).(file := FileFromDb(table.rows))
    {
      var file := SavePricesFile(PairsOf(table.rows));
      text, written := file, PairsOf(table.rows);
    }

    /** load_prices_file, prices in cents. */
    method LoadPrices() returns (prices: map<int, int>)
      requires Valid()
      ensures prices == MapOf(Now().file)
    {
      var read := LoadPricesFile(text);
      FileReadsBack(written);
      ReadBackIsPrintMap(MapOf(written));
      PrintoutIsPrintMap(written);
      prices := map c | c in read.value :: Cents(read.value[c]);
    }

    /** The server's stream over the file, prices in cents. */
    method ReadLines() returns (lines: Listing)
      requires Valid()
      ensures lines == Now().file
    {
      var pairs := ServerReadFile(text);
      FileReadsBack(written);
      ReadBackIsPrintout(written);
      lines := InCents(pairs);
    }

    /** save_prices_file and write_prices_to_shm, in one iteration order. */
    method Publish(prices: map<int, int>, kvs: Listing)
      requires segment.Valid() && Lists(prices, kvs) && Carries(segment.codec, kvs)
      modifies this, segment`kvs, segment.bytes
      ensures Valid()
      ensures Now() == old(Now()).(file := Printout(kvs), shm := prices)
    {
      var file := SavePricesFile(kvs);
      text, written := file, kvs;
      segment.Write(prices, kvs);
    }

    /** Publish the prices, upsert them and signal the server. */
    method Issue(prices: map<int, int>, kvs: Listing, city: string, lat: real, lng: real)
      requires segment.Valid() && Lists(prices, kvs) && Carries(segment.codec, kvs)
      modifies this, table, segment`kvs, segment.bytes
      ensures Valid()
      ensures Now() == old(Now()).(file := Printout(kvs), shm := prices, flag := true,
                                   db := PutAll(old(Now()).db, kvs, Some(city), lat, lng))
    {
      Publish(prices, kvs);
      table.Upsert(prices, kvs, city, lat, lng);
      flag := true;
    }

    /** Publish the prices, delete a code's rows and signal the server. */
    method Withdraw(prices: map<int, int>, kvs: Listing, code: int)
      requires segment.Valid() && Lists(prices, kvs) && Carries(segment.codec, kvs)
      modifies this, table, segment`kvs, segment.bytes
      ensures Valid()
      ensures Now() == old(Now()).(file := Printout(kvs), shm := prices, flag := true,
                                   db := DeleteCode(old(Now()).db, code))
    {
      Publish(prices, kvs);
      table.Delete(code);
      flag := true;
    }

    /** add_new_city. */
    method AddNewCity(city: string, code: int, lat: real, lng: real, price: int, kvs: Listing)
      requires Valid() && Lists(MapOf(Now().file)[code := price], kvs) && Carries(segment.codec, kvs)
      modifies this, table, segment`kvs, segment.bytes
      ensures Valid()
      ensures var op := Add(city, code, lat, lng, price);
              && Legal(old(Now()), UpdaterRun(op, kvs))
              && Now() == Exec(old(Now()), UpdaterRun(op, kvs))
      ensures CityAdded(old(table.rows), table.rows, MapOf(old(Now()).file), city, code, lat, lng, price)
    {
      RunUnfolds(Now(), Add(city, code, lat, lng, price), kvs);
      AddedCity(Now(), city, code, lat, lng, price, kvs);
      var prices := LoadPrices();
      prices := prices[code := price];
      Issue(prices, kvs, city, lat, lng);
    }

    /** update_city_price: an unknown code changes nothing. */
    method UpdateCityPrice(code: int, price: int, kvs: Listing) returns (ok: bool)
      requires Valid()
      requires code in MapOf(Now().file) ==>
                 Lists(MapOf(Now().file)[code := price], kvs) && Carries(segment.codec, kvs)
      modifies this, table, segment`kvs, segment.bytes
      ensures Valid()
      ensures ok <==> code in MapOf(old(Now()).file)
      ensures !ok ==> Now() == old(Now())
      ensures ok ==>
                && Legal(old(Now()), UpdaterRun(Change(code, price), kvs))
                && Now() == Exec(old(Now()), UpdaterRun(Change(code, price), kvs))
      ensures ok ==> PriceChanged(old(table.rows), table.rows, MapOf(old(Now()).file), code, price)
    {
      var prices := LoadPrices();
      ok := code in prices;
      if ok {
        RunUnfolds(Now(), Change(code, price), kvs);
        ChangedPrice(Now(), code, price, kvs);
        prices := prices[code := price];
        Issue(prices, kvs, "", 0.0, 0.0);
      }
    }

    /** remove_city: an unknown code changes nothing. */
    method RemoveCity(code: int, kvs: Listing) returns (ok: bool)
      requires Valid()
      requires code in MapOf(Now().file) ==>
                 Lists(MapOf(Now().file) - {code}, kvs) && Carries(segment.codec, kvs)
      modifies this, table, segment`kvs, segment.bytes
      ensures Valid()
      ensures ok <==> code in MapOf(old(Now()).file)
      ensures !ok ==> Now() == old(Now())
      ensures ok ==>
                && Legal(old(Now()), UpdaterRun(Remove(code), kvs))
                && Now() == Exec(old(Now()), UpdaterRun(Remove(code), kvs))
      ensures ok ==> CityRemoved(old(table.rows), table.rows, code)
      ensures ok ==> code !in segment.Held()
    {
      var prices := LoadPrices();
      ok := code in prices;
      if ok {
        RunUnfolds(Now(), Remove(code), kvs);
        RemovedCity(Now(), code, kvs);
        prices := prices - {code};
        Withdraw(prices, kvs, code);
      }
    }

    /** update_db_from_prices_file of the server. */
    method ApplyFile()
      requires Valid()
      modifies this`cache, table
      ensures Valid()
      ensures Now() == old(Now()).(db := PutAll(old(Now()).db, old(Now()).file, None, 0.0, 0.0),
                                   cache := MergeCache(old(cache), old(Now()).file))
    {
      var lines := ReadLines();
      var merged := table.MergeFile(lines, cache);
      cache := merged;
    }

    /** load_prices_from_shm. */
    method LoadShared()
      requires Valid()
      modifies this`cache
      ensures Valid()
      ensures Now() == old(Now()).(cache := old(Now()).shm)
    {
      var prices := segment.Read();
      cache := prices;
    }

    /** The server's check at the head of its loops. */
    method ReloadIfAsked()
      requires Valid()
      modifies this, table
      ensures Valid()
      ensures !old(flag) ==> Now() == old(Now())
      ensures old(flag) ==>
                && Legal(old(Now()), Remaining(Serving))
                && Now() == Exec(old(Now()), Remaining(Serving))
    {
      if flag {
        ReloadUnfolds(Now());
        ApplyFile();
        LoadShared();
        flag := false;
      }
    }
  }

  /** The columns write_prices_file_from_db selects. */
  function PairsOf(rows: seq<PriceRow>): (kvs: Listing)
    ensures Printout(kvs) == FileFromDb(rows)
  {
    seq(|rows|, i requires 0 <= i < |rows| => (rows[i].code, rows[i].price))
  }

  function Cents(v: real): int {
    (v * 100.0).Floor
  }

  function InCents(pairs: seq<(int, real)>): Listing {
    seq(|pairs|, i requires 0 <= i < |pairs| => (pairs[i].0, Cents(pairs[i].1)))
  }

  lemma CentsOfDollars(n: int)
    ensures Cents(Dollars(n)) == n
  {
  }

  lemma ReadBackIsPrintMap(m: map<int, int>)
    ensures (map c | c in ConvertMap(m, ReadBack) :: Cents(ConvertMap(m, ReadBack)[c])) == PrintMap(m)
  {
    forall c | c in m
      ensures Cents(ReadBack(m[c])) == Printed(m[c])
    {
      CentsOfDollars(Printed(m[c]));
    }
  }

  lemma {:induction false} ReadBackIsPrintout(kvs: Listing)
    ensures InCents(Convert(kvs, ReadBack)) == Printout(kvs)
  {
    if kvs != [] {
      var n := |kvs| - 1;
      ReadBackIsPrintout(kvs[..n]);
      CentsOfDollars(Printed(kvs[n].1));
      var pairs := Convert(kvs, ReadBack);
      assert pairs[..n] == Convert(kvs[..n], ReadBack);
      assert InCents(pairs) == InCents(pairs[..n]) + [(kvs[n].0, Printed(kvs[n].1))];
      assert Printout(kvs) == Printout(kvs[..n]) + [(kvs[n].0, Printed(kvs[n].1))];
    }
  }
}
