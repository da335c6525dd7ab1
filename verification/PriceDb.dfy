/** The prices table as a mutable object: every SQL statement is a scan, every program loop a loop. */
module PriceDb {
  import opened Options
  import opened Prices
  import opened Printing

  class PriceTable {
    var rows: seq<PriceRow>

    constructor (initial: seq<PriceRow>)
      ensures rows == initial
    {
      rows := initial;
    }

    /** UPDATE ... WHERE city_code = code; changes is what sqlite3_changes reports. */
    method Update(code: int, price: int) returns (changes: nat)
      modifies this
      ensures rows == SetPrice(old(rows), code, price)
      ensures changes == 0 <==> !HasCode(old(rows), code)
    {
      changes := 0;
      var i := 0;
      while i < |rows|
        invariant 0 <= i <= |rows| == |old(rows)|
        invariant forall k :: 0 <= k < i ==> rows[k] == SetPrice(old(rows), code, price)[k]
        invariant forall k :: i <= k < |rows| ==> rows[k] == old(rows)[k]
        invariant changes == 0 <==> !HasCode(old(rows)[..i], code)
      {
        assert old(rows)[..i + 1] == old(rows)[..i] + [old(rows)[i]];
        if rows[i].code == code {
          rows := rows[i := rows[i].(price := price)];
          changes := changes + 1;
          assert old(rows)[..i + 1][i].code == code;
        } else {
          assert HasCode(old(rows)[..i + 1], code) ==> HasCode(old(rows)[..i], code);
          assert forall k :: 0 <= k < i ==> old(rows)[..i][k] == old(rows)[..i + 1][k];
        }
        i := i + 1;
      }
      assert old(rows)[..i] == old(rows);
    }

    method TryInsert(city: Option<string>, code: int, lat: real, lng: real, price: int) returns (ok: bool)
      modifies this
      ensures ok == city.Some?
      ensures rows == Insert(old(rows), city, code, lat, lng, price)
    {
      ok := city.Some?;
      if ok {
        rows := rows + [PriceRow(city.value, code, lat, lng, price)];
      }
    }

    method Delete(code: int)
      modifies this
      ensures rows == DeleteCode(old(rows), code)
    {
      var kept: seq<PriceRow> := [];
      var i := 0;
      while i < |rows|
        invariant 0 <= i <= |rows|
        invariant rows == old(rows)
        invariant kept == DeleteCode(rows[..i], code)
      {
        assert rows[..i + 1][..i] == rows[..i];
        if rows[i].code != code {
          kept := kept + [rows[i]];
        }
        i := i + 1;
      }
      assert rows[..i] == rows;
      rows := kept;
    }

    /** The UPDATE-then-INSERT loop of either program. */
    method PutLoop(kvs: Listing, city: Option<string>, lat: real, lng: real)
      modifies this
      ensures rows == PutAll(old(rows), kvs, city, lat, lng)
    {
      var i := 0;
      while i < |kvs|
        invariant 0 <= i <= |kvs|
        invariant rows == PutAll(old(rows), kvs[..i], city, lat, lng)
      {
        assert kvs[..i + 1][..i] == kvs[..i];
        var changes := Update(kvs[i].0, kvs[i].1);
        if changes == 0 {
          ghost var before := PutAll(old(rows), kvs[..i], city, lat, lng);
          assert SetPrice(before, kvs[i].0, kvs[i].1) == before by {
            assert forall k :: 0 <= k < |before| ==> before[k].code != kvs[i].0;
          }
          var _ := TryInsert(city, kvs[i].0, lat, lng, kvs[i].1);
        }
        i := i + 1;
      }
      assert kvs[..i] == kvs;
    }

    /** update_db_from_prices_file of the updater: a full INSERT follows a failed UPDATE. */
    method Upsert(ghost m: map<int, int>, kvs: Listing, name: string, lat: real, lng: real)
      requires Lists(m, kvs)
      modifies this
      ensures rows == PutAll(old(rows), kvs, Some(name), lat, lng)
      ensures forall i :: 0 <= i < |rows| && rows[i].code in m ==> rows[i].price == m[rows[i].code]
      ensures |old(rows)| <= |rows|
      ensures forall i :: 0 <= i < |old(rows)| ==> SamePlace(rows[i], old(rows)[i])
      ensures forall i :: 0 <= i < |old(rows)| && rows[i].code !in m ==> rows[i] == old(rows)[i]
      ensures Codes(rows) == Codes(old(rows)) + m.Keys
    {
      UpsertTheorem(rows, m, kvs, name, lat, lng);
      PutLoop(kvs, Some(name), lat, lng);
    }

    /** update_db_from_prices_file of the server: the table and the cache are updated line by line. */
    method MergeFile(lines: Listing, cache: map<int, int>) returns (merged: map<int, int>)
      modifies this
      ensures rows == PutAll(old(rows), lines, None, 0.0, 0.0)
      ensures merged == MergeCache(cache, lines)
      ensures Codes(rows) == Codes(old(rows))
    {
      PutLoop(lines, None, 0.0, 0.0);
      merged := cache;
      var i := 0;
      while i < |lines|
        invariant 0 <= i <= |lines|
        invariant merged == MergeCache(cache, lines[..i])
        invariant rows == PutAll(old(rows), lines, None, 0.0, 0.0)
      {
        CacheGrows(cache, lines, i);
        merged := merged[lines[i].0 := lines[i].1];
        i := i + 1;
      }
      assert lines[..i] == lines;
      MergeTheorem(old(rows), lines);
    }

    /** SELECT city_code ... LIMIT 1; 0 when no row is near. */
    method SelectCity(x: real, y: real) returns (code: int)
      ensures code == FindCity(rows, x, y)
      ensures NoneWithin(rows, x, y) ==> code == 0
      ensures forall i :: IsFirstWithin(rows, i, x, y) ==> code == rows[i].code
    {
      var i := 0;
      while i < |rows|
        invariant 0 <= i <= |rows|
        invariant forall k :: 0 <= k < i ==> !NearRow(rows[k], x, y)
      {
        if NearRow(rows[i], x, y) {
          assert IsFirstNear(rows, i, x, y);
          return rows[i].code;
        }
        i := i + 1;
      }
      code := 0;
    }

    /** SELECT price_per_hour ... LIMIT 1; 0 when no row has the code. */
    method SelectPrice(code: int) returns (price: int)
      ensures price == DbPrice(rows, code)
    {
      var i := 0;
      while i < |rows|
        invariant 0 <= i <= |rows|
        invariant forall k :: 0 <= k < i ==> rows[k].code != code
      {
        if rows[i].code == code {
          assert IsFirstWithCode(rows, i, code);
          return rows[i].price;
        }
        i := i + 1;
      }
      price := 0;
    }

    /** The seeding loop of init_db_schema_and_seed. */
    method Seed(cities: seq<PriceRow>)
      modifies this
      ensures rows == SeedAll(old(rows), cities)
    {
      var i := 0;
      while i < |cities|
        invariant 0 <= i <= |cities|
        invariant rows == SeedAll(old(rows), cities[..i])
      {
        assert cities[..i + 1][..i] == cities[..i];
        var count := 0;
        var j := 0;
        while j < |rows|
          invariant 0 <= j <= |rows|
          invariant count == 0 <==> !HasNear(rows[..j], cities[i].lat, cities[i].lng)
          invariant count >= 0
        {
          assert rows[..j + 1] == rows[..j] + [rows[j]];
          if NearRow(rows[j], cities[i].lat, cities[i].lng) {
            count := count + 1;
            assert NearRow(rows[..j + 1][j], cities[i].lat, cities[i].lng);
          }
          assert forall k :: 0 <= k < j ==> rows[..j + 1][k] == rows[..j][k];
          j := j + 1;
        }
        assert rows[..j] == rows;
        if count == 0 {
          rows := rows + [cities[i]];
        }
        i := i + 1;
      }
      assert cities[..i] == cities;
    }
  }

  lemma CacheGrows(cache: map<int, int>, lines: Listing, i: nat)
    requires i < |lines|
    ensures MergeCache(cache, lines[..i + 1]) == MergeCache(cache, lines[..i])[lines[i].0 := lines[i].1]
  {
    assert lines[..i + 1][..i] == lines[..i];
  }

  predicate HasNear(rows: seq<PriceRow>, x: real, y: real) {
    exists i :: 0 <= i < |rows| && NearRow(rows[i], x, y)
  }

  function SeedAll(rows: seq<PriceRow>, cities: seq<PriceRow>): seq<PriceRow>
    decreases |cities|, rows
  {
    if cities == [] then rows
    else
      var before := SeedAll(rows, cities[..|cities| - 1]);
      var c := cities[|cities| - 1];
      if HasNear(before, c.lat, c.lng) then before else before + [c]
  }

  /** The ten cities of the schema, prices in cents. */
  const CITIES: seq<PriceRow> := [
    PriceRow("Rishon Lezion", 8300, 31.962, 34.802, 500),
    PriceRow("Tel Aviv", 5000, 32.087, 34.789, 500),
    PriceRow("Jerusalem", 3000, 31.749, 35.170, 700),
    PriceRow("Eilat", 2600, 29.549, 34.954, 1000),
    PriceRow("Dimona", 2200, 31.073, 35.044, 600),
    PriceRow("Nahariyya", 9100, 32.999, 35.091, 900),
    PriceRow("Qiryat Shemona", 2800, 33.174, 35.574, 400),
    PriceRow("Hadera", 6500, 32.422, 34.909, 500),
    PriceRow("Rehovot", 8400, 31.883, 34.794, 800),
    PriceRow("Arad", 2560, 31.255, 35.166, 600)
  ]

  /** Seeding keeps every row that was there and leaves every city with a row near it. */
  lemma {:induction false} SeedCovers(rows: seq<PriceRow>, cities: seq<PriceRow>)
    ensures rows <= SeedAll(rows, cities)
    ensures forall i :: 0 <= i < |cities| ==> HasNear(SeedAll(rows, cities), cities[i].lat, cities[i].lng)
  {
    if cities != [] {
      var init := cities[..|cities| - 1];
      SeedCovers(rows, init);
      var before := SeedAll(rows, init);
      var after := SeedAll(rows, cities);
      forall i | 0 <= i < |cities|
        ensures HasNear(after, cities[i].lat, cities[i].lng)
      {
        if i < |init| {
          var j :| 0 <= j < |before| && NearRow(before[j], init[i].lat, init[i].lng);
          assert after[j] == before[j];
        } else if !HasNear(before, cities[i].lat, cities[i].lng) {
          assert NearRow(after[|before|], cities[i].lat, cities[i].lng);
        }
      }
    }
  }

  /** Seeding adds only cities, each with no row near it before its own. */
  lemma {:induction false} SeedAddsOnlyNew(rows: seq<PriceRow>, cities: seq<PriceRow>, i: nat)
    requires |rows| <= i < |SeedAll(rows, cities)|
    ensures var r := SeedAll(rows, cities)[i];
            r in cities && !HasNear(SeedAll(rows, cities)[..i], r.lat, r.lng)
  {
    var before := SeedAll(rows, cities[..|cities| - 1]);
    if i < |before| {
      SeedAddsOnlyNew(rows, cities[..|cities| - 1], i);
      assert SeedAll(rows, cities)[..i] == before[..i];
    } else {
      assert SeedAll(rows, cities)[..i] == before;
    }
  }

  lemma {:induction false} CoveredSeedIsNoOp(rows: seq<PriceRow>, cities: seq<PriceRow>)
    requires forall i :: 0 <= i < |cities| ==> HasNear(rows, cities[i].lat, cities[i].lng)
    ensures SeedAll(rows, cities) == rows
  {
    if cities != [] {
      CoveredSeedIsNoOp(rows, cities[..|cities| - 1]);
    }
  }

  /** Starting the server again changes nothing that seeding had put in place. */
  lemma SeedIsIdempotent(rows: seq<PriceRow>, cities: seq<PriceRow>)
    ensures SeedAll(SeedAll(rows, cities), cities) == SeedAll(rows, cities)
  {
    SeedCovers(rows, cities);
    CoveredSeedIsNoOp(SeedAll(rows, cities), cities);
  }

  ghost predicate Apart(cities: seq<PriceRow>) {
    forall i, j :: 0 <= i < j < |cities| ==> !NearRow(cities[i], cities[j].lat, cities[j].lng)
  }

  lemma SeedLast(rows: seq<PriceRow>, init: seq<PriceRow>, c: PriceRow)
    requires SeedAll(rows, init) == rows + init && !HasNear(rows + init, c.lat, c.lng)
    ensures SeedAll(rows, init + [c]) == rows + (init + [c])
  {
    assert (init + [c])[..|init|] == init;
    assert rows + init + [c] == rows + (init + [c]);
  }

  ghost predicate FarFrom(rows: seq<PriceRow>, cities: seq<PriceRow>) {
    forall i, j :: 0 <= i < |rows| && 0 <= j < |cities| ==> !NearRow(rows[i], cities[j].lat, cities[j].lng)
  }

  lemma ApartFromEarlier(rows: seq<PriceRow>, cities: seq<PriceRow>, k: nat)
    requires Apart(cities) && FarFrom(rows, cities) && k < |cities|
    ensures !HasNear(rows + cities[..k], cities[k].lat, cities[k].lng)
  {
    var before := rows + cities[..k];
    forall i | 0 <= i < |before|
      ensures !NearRow(before[i], cities[k].lat, cities[k].lng)
    {
      if i < |rows| {
        assert before[i] == rows[i];
      } else {
        assert before[i] == cities[i - |rows|];
      }
    }
  }

  lemma {:induction false} ApartPrefixIsSeeded(rows: seq<PriceRow>, cities: seq<PriceRow>, k: nat)
    requires Apart(cities) && FarFrom(rows, cities) && k <= |cities|
    ensures SeedAll(rows, cities[..k]) == rows + cities[..k]
    decreases k
  {
    if k > 0 {
      ApartPrefixIsSeeded(rows, cities, k - 1);
      ApartFromEarlier(rows, cities, k - 1);
      SeedLast(rows, cities[..k - 1], cities[k - 1]);
      assert cities[..k] == cities[..k - 1] + [cities[k - 1]];
    }
  }

  /** Over rows far from all of them, and from one another, every city is seeded. */
  lemma ApartSeedIsAll(rows: seq<PriceRow>, cities: seq<PriceRow>)
    requires Apart(cities) && FarFrom(rows, cities)
    ensures SeedAll(rows, cities) == rows + cities
  {
    ApartPrefixIsSeeded(rows, cities, |cities|);
    assert cities[..|cities|] == cities;
  }

  lemma CitiesApart(i: nat, j: nat)
    requires i < |CITIES| && j < |CITIES| && i != j
    ensures !NearRow(CITIES[i], CITIES[j].lat, CITIES[j].lng)
  { }

  lemma CitiesAreApart()
    ensures Apart(CITIES)
  {
    forall i, j | 0 <= i < j < |CITIES|
      ensures !NearRow(CITIES[i], CITIES[j].lat, CITIES[j].lng)
    {
      CitiesApart(i, j);
    }
  }

  lemma CityCodesDiffer()
    ensures UniqueCodes(CITIES)
  {
  }

  lemma CityFoundAtItself(i: nat)
    requires i < |CITIES|
    ensures FindCity(CITIES, CITIES[i].lat, CITIES[i].lng) == CITIES[i].code
  {
    forall j | 0 <= j < i
      ensures !NearRow(CITIES[j], CITIES[i].lat, CITIES[i].lng)
    {
      CitiesApart(j, i);
    }
    assert IsFirstNear(CITIES, i, CITIES[i].lat, CITIES[i].lng);
  }

  /** A fresh database holds exactly the ten cities, one row per code, each found at its own coordinates. */
  lemma FreshSeed()
    ensures SeedAll([], CITIES) == CITIES
    ensures UniqueCodes(CITIES)
    ensures forall i :: 0 <= i < |CITIES| ==> FindCity(CITIES, CITIES[i].lat, CITIES[i].lng) == CITIES[i].code
  {
    CitiesAreApart();
    ApartSeedIsAll([], CITIES);
    assert [] + CITIES == CITIES;
    CityCodesDiffer();
    forall i | 0 <= i < |CITIES|
      ensures FindCity(CITIES, CITIES[i].lat, CITIES[i].lng) == CITIES[i].code
    {
      CityFoundAtItself(i);
    }
  }

  /** write_prices_file_from_db: one line per row, in row order, as a reader finds it. */
  function FileFromDb(rows: seq<PriceRow>): (lines: Listing)
    ensures |lines| == |rows|
    ensures forall i :: 0 <= i < |rows| ==> lines[i] == (rows[i].code, Printed(rows[i].price))
  {
    seq(|rows|, i requires 0 <= i < |rows| => (rows[i].code, Printed(rows[i].price)))
  }

  /** With one row per code the generated file says what the table says, up to the sixth digit. */
  lemma {:induction false} GeneratedFileMatchesDb(rows: seq<PriceRow>)
    requires UniqueCodes(rows)
    ensures MapOf(FileFromDb(rows)).Keys == Codes(rows)
    ensures forall c :: c in MapOf(FileFromDb(rows)) ==> MapOf(FileFromDb(rows))[c] == Printed(DbPrice(rows, c))
  {
    FileCodes(rows);
    forall c | c in MapOf(FileFromDb(rows))
      ensures MapOf(FileFromDb(rows))[c] == Printed(DbPrice(rows, c))
    {
      FileLine(rows, c);
    }
  }

  lemma FileCodes(rows: seq<PriceRow>)
    ensures MapOf(FileFromDb(rows)).Keys == Codes(rows)
  {
    var lines := FileFromDb(rows);
    forall c | c in MapOf(lines)
      ensures c in Codes(rows)
    {
      assert (c, MapOf(lines)[c]) in lines;
      var i :| 0 <= i < |lines| && lines[i].0 == c;
    }
    forall c | c in Codes(rows)
      ensures c in MapOf(lines)
    {
      var i :| 0 <= i < |rows| && rows[i].code == c;
      assert lines[i].0 in MapOf(lines);
    }
  }

  lemma FileLine(rows: seq<PriceRow>, c: int)
    requires UniqueCodes(rows) && c in MapOf(FileFromDb(rows))
    ensures c in Codes(rows) && MapOf(FileFromDb(rows))[c] == Printed(DbPrice(rows, c))
  {
    var lines := FileFromDb(rows);
    var v := MapOf(lines)[c];
    assert (c, v) in lines;
    var i :| 0 <= i < |lines| && lines[i] == (c, v);
    UniqueRowIsFound(rows, i);
  }

  lemma FileIsSixDigit(rows: seq<PriceRow>)
    ensures AllSixDigit(MapOf(FileFromDb(rows)))
  {
    var lines := FileFromDb(rows);
    forall c | c in MapOf(lines)
      ensures SixDigit(MapOf(lines)[c])
    {
      assert (c, MapOf(lines)[c]) in lines;
      var i :| 0 <= i < |lines| && lines[i] == (c, MapOf(lines)[c]);
      PrintedIsSixDigit(rows[i].price);
    }
  }
}
