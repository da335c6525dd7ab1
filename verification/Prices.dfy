/** The prices table, the maps that travel beside it, and the SQL the two programs run on it. */
module Prices {
  import opened Options
  import opened Printing
  import opened Rounding

  /** One row of the prices table. Money is in whole cents. */
  datatype PriceRow = PriceRow(city: string, code: int, lat: real, lng: real, price: int)

  /** A price map in some iteration order, or the parsed lines of prices.txt. */
  type Listing = seq<(int, int)>

  /** The map a listing builds when each pair is assigned in turn: the last one wins. */
  function MapOf(kvs: Listing): (m: map<int, int>)
    ensures forall c :: c in m ==> (c, m[c]) in kvs
    ensures forall i :: 0 <= i < |kvs| ==> kvs[i].0 in m
  {
    if kvs == [] then map[]
    else
      var m := MapOf(kvs[..|kvs| - 1]);
      m[kvs[|kvs| - 1].0 := kvs[|kvs| - 1].1]
  }

  lemma {:induction false} LastLineWins(kvs: Listing, i: nat)
    requires i < |kvs| && forall j :: i < j < |kvs| ==> kvs[j].0 != kvs[i].0
    ensures kvs[i].0 in MapOf(kvs) && MapOf(kvs)[kvs[i].0] == kvs[i].1
  {
    if i < |kvs| - 1 {
      LastLineWins(kvs[..|kvs| - 1], i);
    }
  }

  /** kvs runs through m, each key once, in some order. */
  ghost predicate Lists(m: map<int, int>, kvs: Listing) {
    && (forall i :: 0 <= i < |kvs| ==> kvs[i].0 in m && kvs[i].1 == m[kvs[i].0])
    && (forall i, j :: 0 <= i < j < |kvs| ==> kvs[i].0 != kvs[j].0)
    && (forall c :: c in m ==> (c, m[c]) in kvs)
  }

  /** Whatever the iteration order, assigning the pairs in turn rebuilds the map. */
  lemma ListingRebuildsMap(m: map<int, int>, kvs: Listing)
    requires Lists(m, kvs)
    ensures MapOf(kvs) == m
  {
    var b := MapOf(kvs);
    forall c | c in m
      ensures c in b
    {
      var i :| 0 <= i < |kvs| && kvs[i] == (c, m[c]);
    }
    forall c | c in b
      ensures c in m && b[c] == m[c]
    {
      var i :| 0 <= i < |kvs| && kvs[i] == (c, b[c]);
    }
  }

  /** The listing a reader finds in the text of kvs. */
  function Printout(kvs: Listing): (lines: Listing)
    ensures |lines| == |kvs|
    ensures forall i :: 0 <= i < |kvs| ==> lines[i] == (kvs[i].0, Printed(kvs[i].1))
  {
    seq(|kvs|, i requires 0 <= i < |kvs| => (kvs[i].0, Printed(kvs[i].1)))
  }

  function PrintMap(m: map<int, int>): map<int, int> {
    map c | c in m :: Printed(m[c])
  }

  ghost predicate AllSixDigit(m: map<int, int>) {
    forall c :: c in m ==> SixDigit(m[c])
  }

  lemma {:induction false} PrintoutIsPrintMap(kvs: Listing)
    ensures MapOf(Printout(kvs)) == PrintMap(MapOf(kvs))
  {
    if kvs != [] {
      var n := |kvs| - 1;
      assert Printout(kvs)[..n] == Printout(kvs[..n]);
      PrintoutIsPrintMap(kvs[..n]);
    }
  }

  lemma PrintMapIsSixDigit(m: map<int, int>)
    ensures AllSixDigit(PrintMap(m))
  {
    forall c | c in m
      ensures SixDigit(PrintMap(m)[c])
    {
      PrintedIsSixDigit(m[c]);
    }
  }

  lemma PrintMapIsSameIff(m: map<int, int>)
    ensures PrintMap(m) == m <==> AllSixDigit(m)
  {
    if PrintMap(m) == m {
      forall c | c in m
        ensures SixDigit(m[c])
      {
        assert PrintMap(m)[c] == m[c];
      }
    }
    if AllSixDigit(m) {
      assert forall c :: c in m ==> PrintMap(m)[c] == m[c];
      assert PrintMap(m).Keys == m.Keys;
    }
  }

  predicate HasCode(rows: seq<PriceRow>, code: int) {
    exists i :: 0 <= i < |rows| && rows[i].code == code
  }

  ghost function Codes(rows: seq<PriceRow>): set<int> {
    set i | 0 <= i < |rows| :: rows[i].code
  }

  ghost predicate UniqueCodes(rows: seq<PriceRow>) {
    forall i, j :: 0 <= i < j < |rows| ==> rows[i].code != rows[j].code
  }

  /** SELECT city_code ... LIMIT 1: the first row near the point, or 0. */
  function FindCity(rows: seq<PriceRow>, x: real, y: real): (code: int)
    ensures NoneWithin(rows, x, y) ==> code == 0
    ensures forall i :: IsFirstWithin(rows, i, x, y) ==> code == rows[i].code
  {
    var i := FirstNear(rows, x, y, 0);
    if i < |rows| then rows[i].code else 0
  }

  function FirstNear(rows: seq<PriceRow>, x: real, y: real, from: nat): (i: nat)
    requires from <= |rows|
    ensures from <= i <= |rows|
    ensures forall j :: from <= j < i ==> !NearRow(rows[j], x, y)
    ensures i < |rows| ==> NearRow(rows[i], x, y)
    decreases |rows| - from
  {
    if from == |rows| || NearRow(rows[from], x, y) then from else FirstNear(rows, x, y, from + 1)
  }

  /** Both differences are smaller than a ten-thousandth of a degree. */
  predicate Within(dx: real, dy: real) {
    -0.0001 < dx < 0.0001 && -0.0001 < dy < 0.0001
  }

  ghost predicate NoneWithin(rows: seq<PriceRow>, x: real, y: real) {
    forall i :: 0 <= i < |rows| ==> !Within(rows[i].lat - x, rows[i].lng - y)
  }

  ghost predicate IsFirstWithin(rows: seq<PriceRow>, i: int, x: real, y: real) {
    && 0 <= i < |rows| && Within(rows[i].lat - x, rows[i].lng - y)
    && forall j :: 0 <= j < i ==> !Within(rows[j].lat - x, rows[j].lng - y)
  }

  predicate NearRow(r: PriceRow, x: real, y: real) {
    Near(r.lat, x) && Near(r.lng, y)
  }

  ghost predicate IsFirstNear(rows: seq<PriceRow>, i: int, x: real, y: real) {
    && 0 <= i < |rows| && NearRow(rows[i], x, y)
    && forall j :: 0 <= j < i ==> !NearRow(rows[j], x, y)
  }

  ghost predicate IsFirstWithCode(rows: seq<PriceRow>, i: int, code: int) {
    && 0 <= i < |rows| && rows[i].code == code
    && forall j :: 0 <= j < i ==> rows[j].code != code
  }

  /** SELECT price_per_hour ... LIMIT 1: the price of the first row with the code, or 0. */
  function DbPrice(rows: seq<PriceRow>, code: int): (price: int)
    ensures !HasCode(rows, code) ==> price == 0
    ensures forall i :: IsFirstWithCode(rows, i, code) ==> price == rows[i].price
  {
    if rows == [] then 0
    else if rows[0].code == code then rows[0].price
    else
      assert forall i :: IsFirstWithCode(rows, i, code) ==> IsFirstWithCode(rows[1..], i - 1, code);
      DbPrice(rows[1..], code)
  }

  /** The price a close charges: the cache if it knows the code, else the table, else 0. */
  function ChargedPrice(cache: map<int, int>, rows: seq<PriceRow>, code: int): int {
    if code in cache then cache[code] else DbPrice(rows, code)
  }

  /** UPDATE prices SET price_per_hour = price WHERE city_code = code. */
  function SetPrice(rows: seq<PriceRow>, code: int, price: int): (after: seq<PriceRow>)
    ensures |after| == |rows|
    ensures forall i :: 0 <= i < |rows| ==>
              after[i] == if rows[i].code == code then rows[i].(price := price) else rows[i]
  {
    seq(|rows|, i requires 0 <= i < |rows| =>
      if rows[i].code == code then rows[i].(price := price) else rows[i])
  }

  /** The rows stand where they stood, whatever they cost. */
  predicate SamePlaces(a: seq<PriceRow>, b: seq<PriceRow>) {
    |a| == |b| && forall i :: 0 <= i < |a| ==> a[i].code == b[i].code && a[i].lat == b[i].lat && a[i].lng == b[i].lng
  }

  lemma SamePlacesSameCity(a: seq<PriceRow>, b: seq<PriceRow>, x: real, y: real)
    requires SamePlaces(a, b)
    ensures FindCity(a, x, y) == FindCity(b, x, y)
  {
    SamePlacesSameFirst(a, b, x, y, 0);
  }

  lemma {:induction false} SamePlacesSameFirst(a: seq<PriceRow>, b: seq<PriceRow>, x: real, y: real, from: nat)
    requires SamePlaces(a, b) && from <= |a|
    ensures FirstNear(a, x, y, from) == FirstNear(b, x, y, from)
    decreases |a| - from
  {
    if from < |a| {
      SamePlacesSameFirst(a, b, x, y, from + 1);
    }
  }

  /** A new price is found under its own code and nowhere else, and moves no city. */
  lemma RepricingIsLocal(rows: seq<PriceRow>, code: int, price: int, c: int, x: real, y: real)
    ensures var after := SetPrice(rows, code, price);
            && DbPrice(after, c) == (if c == code && HasCode(rows, code) then price else DbPrice(rows, c))
            && FindCity(after, x, y) == FindCity(rows, x, y)
  {
    SamePlacesSameCity(SetPrice(rows, code, price), rows, x, y);
    RepricedLookup(rows, code, price, c);
  }

  lemma {:induction false} RepricedLookup(rows: seq<PriceRow>, code: int, price: int, c: int)
    ensures DbPrice(SetPrice(rows, code, price), c) ==
            if c == code && HasCode(rows, code) then price else DbPrice(rows, c)
  {
    if rows != [] {
      assert SetPrice(rows, code, price)[1..] == SetPrice(rows[1..], code, price);
      RepricedLookup(rows[1..], code, price, c);
      assert HasCode(rows, code) <==> rows[0].code == code || HasCode(rows[1..], code);
    }
  }

  /** INSERT under the schema's NOT NULL constraint on city: a row without a name is rejected. */
  function Insert(rows: seq<PriceRow>, city: Option<string>, code: int, lat: real, lng: real, price: int)
    : seq<PriceRow>
  {
    match city
    case None => rows
    case Some(name) => rows + [PriceRow(name, code, lat, lng, price)]
  }

  /** DELETE FROM prices WHERE city_code = code. */
  function DeleteCode(rows: seq<PriceRow>, code: int): seq<PriceRow> {
    if rows == [] then []
    else
      DeleteCode(rows[..|rows| - 1], code) +
      (if rows[|rows| - 1].code == code then [] else [rows[|rows| - 1]])
  }

  /** One round of either program's UPDATE-then-INSERT loop. */
  function PutPrice(rows: seq<PriceRow>, kv: (int, int), city: Option<string>, lat: real, lng: real): seq<PriceRow> {
    if HasCode(rows, kv.0) then SetPrice(rows, kv.0, kv.1)
    else Insert(rows, city, kv.0, lat, lng, kv.1)
  }

  /** The whole loop. The updater supplies a name; the server's INSERT has none. */
  function PutAll(rows: seq<PriceRow>, kvs: Listing, city: Option<string>, lat: real, lng: real): seq<PriceRow> {
    if kvs == [] then rows
    else PutPrice(PutAll(rows, kvs[..|kvs| - 1], city, lat, lng), kvs[|kvs| - 1], city, lat, lng)
  }

  /** The server's cache update beside its loop. */
  function MergeCache(cache: map<int, int>, kvs: Listing): map<int, int> {
    cache + MapOf(kvs)
  }

  ghost predicate SamePlace(a: PriceRow, b: PriceRow) {
    a.city == b.city && a.code == b.code && a.lat == b.lat && a.lng == b.lng
  }

  /** What the loop leaves of the rows that were there: place kept, price from the listing if it names the code. */
  lemma {:induction false} PutAllKeepsRows(rows: seq<PriceRow>, kvs: Listing, city: Option<string>,
                                           lat: real, lng: real)
    ensures |rows| <= |PutAll(rows, kvs, city, lat, lng)|
    ensures forall i :: 0 <= i < |rows| ==> SamePlace(PutAll(rows, kvs, city, lat, lng)[i], rows[i])
    ensures forall i :: 0 <= i < |rows| ==>
              PutAll(rows, kvs, city, lat, lng)[i].price ==
              if rows[i].code in MapOf(kvs) then MapOf(kvs)[rows[i].code] else rows[i].price
  {
    if kvs != [] {
      PutAllKeepsRows(rows, kvs[..|kvs| - 1], city, lat, lng);
    }
  }

  /** The rows the updater's loop appends: named, placed and priced from its arguments and the listing. */
  lemma {:induction false} PutAllAppended(rows: seq<PriceRow>, kvs: Listing, name: string, lat: real, lng: real)
    ensures |rows| <= |PutAll(rows, kvs, Some(name), lat, lng)|
    ensures var after := PutAll(rows, kvs, Some(name), lat, lng);
            forall i :: |rows| <= i < |after| ==>
              && !HasCode(rows, after[i].code)
              && after[i].code in MapOf(kvs)
              && after[i] == PriceRow(name, after[i].code, lat, lng, MapOf(kvs)[after[i].code])
    ensures UniqueCodes(rows) ==> UniqueCodes(PutAll(rows, kvs, Some(name), lat, lng))
  {
    PutAllKeepsRows(rows, kvs, Some(name), lat, lng);
    if kvs != [] {
      PutAllAppended(rows, kvs[..|kvs| - 1], name, lat, lng);
      PutAllKeepsRows(rows, kvs[..|kvs| - 1], Some(name), lat, lng);
      var before := PutAll(rows, kvs[..|kvs| - 1], Some(name), lat, lng);
      var after := PutAll(rows, kvs, Some(name), lat, lng);
      if HasCode(rows, kvs[|kvs| - 1].0) {
        var j :| 0 <= j < |rows| && rows[j].code == kvs[|kvs| - 1].0;
        assert SamePlace(before[j], rows[j]);
      }
    }
  }

  /** The updater's upsert, for any map and any iteration order. */
  lemma UpsertTheorem(rows: seq<PriceRow>, m: map<int, int>, kvs: Listing, name: string, lat: real, lng: real)
    requires Lists(m, kvs)
    ensures var after := PutAll(rows, kvs, Some(name), lat, lng);
            && |rows| <= |after|
            && (forall i :: 0 <= i < |after| && after[i].code in m ==> after[i].price == m[after[i].code])
            && (forall i :: 0 <= i < |rows| ==> SamePlace(after[i], rows[i]))
            && (forall i :: 0 <= i < |rows| && rows[i].code !in m ==> after[i] == rows[i])
            && (forall i :: |rows| <= i < |after| ==>
                  after[i].city == name && after[i].lat == lat && after[i].lng == lng)
            && Codes(after) == Codes(rows) + m.Keys
  {
    var after := PutAll(rows, kvs, Some(name), lat, lng);
    ListingRebuildsMap(m, kvs);
    PutAllKeepsRows(rows, kvs, Some(name), lat, lng);
    PutAllAppended(rows, kvs, name, lat, lng);
    PutAllCovers(rows, kvs, name, lat, lng);
    forall c | c in m.Keys
      ensures c in Codes(after)
    {
      assert (c, m[c]) in kvs;
    }
    forall c | c in Codes(rows)
      ensures c in Codes(after)
    {
      var i :| 0 <= i < |rows| && rows[i].code == c;
      assert SamePlace(after[i], rows[i]);
    }
    forall c | c in Codes(after)
      ensures c in Codes(rows) + m.Keys
    {
      var i :| 0 <= i < |after| && after[i].code == c;
      if i < |rows| {
        assert SamePlace(after[i], rows[i]);
      }
    }
  }

  lemma {:induction false} PutAllCovers(rows: seq<PriceRow>, kvs: Listing, name: string, lat: real, lng: real)
    ensures forall i :: 0 <= i < |kvs| ==> kvs[i].0 in Codes(PutAll(rows, kvs, Some(name), lat, lng))
  {
    if kvs != [] {
      var before := PutAll(rows, kvs[..|kvs| - 1], Some(name), lat, lng);
      var after := PutAll(rows, kvs, Some(name), lat, lng);
      PutAllCovers(rows, kvs[..|kvs| - 1], name, lat, lng);
      assert forall j :: 0 <= j < |before| ==> after[j].code == before[j].code;
      assert after[|after| - 1].code in Codes(after);
      if HasCode(before, kvs[|kvs| - 1].0) {
        var j :| 0 <= j < |before| && before[j].code == kvs[|kvs| - 1].0;
        assert after[j].code == kvs[|kvs| - 1].0;
      }
    }
  }

  /** The server's loop: its INSERT carries no city and is rejected, so it never adds a row. */
  lemma {:induction false} MergeTheorem(rows: seq<PriceRow>, kvs: Listing)
    ensures |PutAll(rows, kvs, None, 0.0, 0.0)| == |rows|
    ensures forall i :: 0 <= i < |rows| ==>
              PutAll(rows, kvs, None, 0.0, 0.0)[i] ==
              if rows[i].code in MapOf(kvs) then rows[i].(price := MapOf(kvs)[rows[i].code]) else rows[i]
    ensures Codes(PutAll(rows, kvs, None, 0.0, 0.0)) == Codes(rows)
  {
    if kvs != [] {
      MergeTheorem(rows, kvs[..|kvs| - 1]);
    }
    var after := PutAll(rows, kvs, None, 0.0, 0.0);
    assert forall i :: 0 <= i < |rows| ==> after[i].code == rows[i].code;
  }

  lemma {:induction false} DeleteMembers(rows: seq<PriceRow>, code: int)
    ensures forall r :: r in DeleteCode(rows, code) <==> r in rows && r.code != code
  {
    if rows != [] {
      var init := rows[..|rows| - 1];
      assert rows == init + [rows[|rows| - 1]];
      DeleteMembers(init, code);
    }
  }

  lemma {:induction false} DeleteKeepsUnique(rows: seq<PriceRow>, code: int)
    requires UniqueCodes(rows)
    ensures UniqueCodes(DeleteCode(rows, code))
  {
    if rows != [] {
      var init := rows[..|rows| - 1];
      DeleteKeepsUnique(init, code);
      DeleteMembers(init, code);
      forall r | r in DeleteCode(init, code)
        ensures r.code != rows[|rows| - 1].code
      {
        assert r in init;
      }
    }
  }

  /** DELETE drops exactly the rows with the code. */
  lemma {:induction false} DeleteTheorem(rows: seq<PriceRow>, code: int)
    ensures forall r :: r in DeleteCode(rows, code) <==> r in rows && r.code != code
    ensures Codes(DeleteCode(rows, code)) == Codes(rows) - {code}
    ensures UniqueCodes(rows) ==> UniqueCodes(DeleteCode(rows, code))
  {
    var after := DeleteCode(rows, code);
    DeleteMembers(rows, code);
    if UniqueCodes(rows) {
      DeleteKeepsUnique(rows, code);
    }
    forall c | c in Codes(rows) - {code}
      ensures c in Codes(after)
    {
      var i :| 0 <= i < |rows| && rows[i].code == c;
      assert rows[i] in after;
    }
    forall c | c in Codes(after)
      ensures c in Codes(rows) - {code}
    {
      var i :| 0 <= i < |after| && after[i].code == c;
      assert after[i] in rows;
    }
  }

  lemma {:induction false} DeleteLast(rows: seq<PriceRow>, r: PriceRow, code: int)
    ensures DeleteCode(rows + [r], code) == DeleteCode(rows, code) + if r.code == code then [] else [r]
  {
    assert (rows + [r])[..|rows|] == rows;
  }

  lemma {:induction false} SplitGrows(a: seq<PriceRow>, b: seq<PriceRow>, ab: seq<PriceRow>, r: PriceRow, code: int)
    requires DeleteCode(ab, code) == DeleteCode(a, code) + DeleteCode(b, code)
    ensures DeleteCode(ab + [r], code) == DeleteCode(a, code) + DeleteCode(b + [r], code)
  {
    DeleteLast(b, r, code);
    DeleteLast(ab, r, code);
  }

  /** DELETE takes each part of the table on its own, so what stays keeps its order and its number. */
  lemma {:induction false} DeleteSplits(a: seq<PriceRow>, b: seq<PriceRow>, ab: seq<PriceRow>, code: int)
    requires ab == a + b
    ensures DeleteCode(ab, code) == DeleteCode(a, code) + DeleteCode(b, code)
    decreases b
  {
    if b != [] {
      var n, m := |b| - 1, |ab| - 1;
      DeleteSplits(a, b[..n], ab[..m], code);
      SplitGrows(a, b[..n], ab[..m], b[n], code);
      assert b[..n] + [b[n]] == b && ab[..m] + [b[n]] == ab;
    } else {
      assert ab == a;
    }
  }

  lemma {:induction false} DeleteKeepsOthers(rows: seq<PriceRow>, code: int)
    ensures forall r: PriceRow :: multiset(DeleteCode(rows, code))[r] == if r.code == code then 0 else multiset(rows)[r]
  {
    if rows != [] {
      var n := |rows| - 1;
      assert rows == rows[..n] + [rows[n]];
      DeleteKeepsOthers(rows[..n], code);
    }
  }

  /** With one row per code, any row is the one a price lookup finds. */
  lemma UniqueRowIsFound(rows: seq<PriceRow>, i: nat)
    requires UniqueCodes(rows) && i < |rows|
    ensures DbPrice(rows, rows[i].code) == rows[i].price
  { }

  // ---------- What lookups find ----------

  /** A lookup after rows were repriced by m. */
  lemma {:induction false} RepricedByMap(rows: seq<PriceRow>, after: seq<PriceRow>, m: map<int, int>, c: int)
    requires |after| == |rows|
    requires forall i :: 0 <= i < |rows| ==>
               after[i] == if rows[i].code in m then rows[i].(price := m[rows[i].code]) else rows[i]
    ensures HasCode(after, c) <==> HasCode(rows, c)
    ensures DbPrice(after, c) == if HasCode(rows, c) && c in m then m[c] else DbPrice(rows, c)
  {
    if rows != [] {
      RepricedByMap(rows[1..], after[1..], m, c);
      HasCodeCons(rows, c);
      HasCodeCons(after, c);
    }
  }

  lemma HasCodeCons(rows: seq<PriceRow>, c: int)
    requires rows != []
    ensures HasCode(rows, c) <==> rows[0].code == c || HasCode(rows[1..], c)
  {
    assert forall i :: 1 <= i < |rows| ==> rows[i] == rows[1..][i - 1];
  }

  /** The server's loop, for one code. */
  lemma MergeLookup(rows: seq<PriceRow>, kvs: Listing, c: int)
    ensures var after := PutAll(rows, kvs, None, 0.0, 0.0);
            && (HasCode(after, c) <==> HasCode(rows, c))
            && DbPrice(after, c) == if HasCode(rows, c) && c in MapOf(kvs) then MapOf(kvs)[c] else DbPrice(rows, c)
  {
    MergeTheorem(rows, kvs);
    RepricedByMap(rows, PutAll(rows, kvs, None, 0.0, 0.0), MapOf(kvs), c);
  }

  lemma {:induction false} LookupSnoc(rows: seq<PriceRow>, r: PriceRow, c: int)
    ensures HasCode(rows + [r], c) <==> HasCode(rows, c) || r.code == c
    ensures DbPrice(rows + [r], c) ==
            if HasCode(rows, c) then DbPrice(rows, c) else if r.code == c then r.price else 0
  {
    HasCodeCons(rows + [r], c);
    if rows == [] {
      assert (rows + [r])[1..] == [];
    } else {
      assert (rows + [r])[1..] == rows[1..] + [r];
      LookupSnoc(rows[1..], r, c);
      HasCodeCons(rows, c);
    }
  }

  /** Deleting one code leaves the lookups of all others. */
  lemma {:induction false} DeleteLookup(rows: seq<PriceRow>, code: int, c: int)
    requires c != code
    ensures HasCode(DeleteCode(rows, code), c) <==> HasCode(rows, c)
    ensures DbPrice(DeleteCode(rows, code), c) == DbPrice(rows, c)
  {
    if rows != [] {
      var init, r := rows[..|rows| - 1], rows[|rows| - 1];
      DeleteLookup(init, code, c);
      LookupSnoc(init, r, c);
      assert init + [r] == rows;
      if r.code == code {
        assert DeleteCode(rows, code) == DeleteCode(init, code);
      } else {
        LookupSnoc(DeleteCode(init, code), r, c);
      }
    }
  }

  /** What a close charges: the cached price, else that of the code's first row, else nothing. */
  lemma CacheComesFirst(cache: map<int, int>, rows: seq<PriceRow>, code: int)
    ensures code in cache ==> ChargedPrice(cache, rows, code) == cache[code]
    ensures code !in cache ==>
              forall i :: 0 <= i < |rows| && rows[i].code == code
                          && (forall j :: 0 <= j < i ==> rows[j].code != code) ==>
                ChargedPrice(cache, rows, code) == rows[i].price
    ensures code !in cache && (forall i :: 0 <= i < |rows| ==> rows[i].code != code) ==>
              ChargedPrice(cache, rows, code) == 0
  {
    if code !in cache {
      assert forall i :: IsFirstWithCode(rows, i, code) ==> DbPrice(rows, code) == rows[i].price;
    }
  }

  predicate NoLine(kvs: Listing, c: int) {
    forall i :: 0 <= i < |kvs| ==> kvs[i].0 != c
  }

  predicate IsLastLine(kvs: Listing, i: int, c: int) {
    0 <= i < |kvs| && kvs[i].0 == c && forall j :: i < j < |kvs| ==> kvs[j].0 != c
  }

  lemma {:induction false} LinesDecide(kvs: Listing, c: int)
    ensures NoLine(kvs, c) ==> c !in MapOf(kvs)
    ensures forall i :: IsLastLine(kvs, i, c) ==> c in MapOf(kvs) && MapOf(kvs)[c] == kvs[i].1
  {
    forall i | IsLastLine(kvs, i, c)
      ensures c in MapOf(kvs) && MapOf(kvs)[c] == kvs[i].1
    {
      LastLineWins(kvs, i);
    }
    if c in MapOf(kvs) {
      assert (c, MapOf(kvs)[c]) in kvs;
    }
  }

  /** Each line overrides what is cached for its code, a later line an earlier one; other codes keep their price. */
  lemma MergeCacheOverrides(cache: map<int, int>, kvs: Listing, c: int)
    ensures NoLine(kvs, c) ==>
              (c in MergeCache(cache, kvs) <==> c in cache) &&
              (c in cache ==> MergeCache(cache, kvs)[c] == cache[c])
    ensures forall i :: IsLastLine(kvs, i, c) ==> c in MergeCache(cache, kvs) && MergeCache(cache, kvs)[c] == kvs[i].1
  {
    LinesDecide(kvs, c);
  }

  /** And likewise in the table. */
  lemma {:induction false} MergedRows(rows: seq<PriceRow>, kvs: Listing, c: int)
    ensures |PutAll(rows, kvs, None, 0.0, 0.0)| == |rows|
    ensures NoLine(kvs, c) ==>
              forall k :: 0 <= k < |rows| && rows[k].code == c ==> PutAll(rows, kvs, None, 0.0, 0.0)[k] == rows[k]
    ensures forall i, k :: IsLastLine(kvs, i, c) && 0 <= k < |rows| && rows[k].code == c ==>
              PutAll(rows, kvs, None, 0.0, 0.0)[k] == rows[k].(price := kvs[i].1)
  {
    MergeTheorem(rows, kvs);
    LinesDecide(kvs, c);
  }

  /** No two rows the loop appends share a code. */
  lemma {:induction false} AppendedDiffer(rows: seq<PriceRow>, kvs: Listing, name: string, lat: real, lng: real)
    ensures var after := PutAll(rows, kvs, Some(name), lat, lng);
            && |rows| <= |after|
            && forall i, j ::
                 |rows| <= i < |after| && |rows| <= j < |after| && after[i].code == after[j].code ==> i == j
  {
    PutAllKeepsRows(rows, kvs, Some(name), lat, lng);
    if kvs != [] {
      var init := kvs[..|kvs| - 1];
      AppendedDiffer(rows, init, name, lat, lng);
      PutAllKeepsRows(rows, init, Some(name), lat, lng);
    }
  }

  lemma {:induction false} OneRowAppended(rows: seq<PriceRow>, after: seq<PriceRow>, code: int)
    requires |rows| <= |after| && code in Codes(after) && code !in Codes(rows)
    requires forall i :: 0 <= i < |rows| ==> SamePlace(after[i], rows[i])
    requires forall i :: |rows| <= i < |after| ==> after[i].code == code
    requires forall i, j :: |rows| <= i < |after| && |rows| <= j < |after| && after[i].code == after[j].code ==> i == j
    ensures |after| == |rows| + 1
  {
    assert forall i :: 0 <= i < |rows| ==> SamePlace(after[i], rows[i]) && rows[i].code in Codes(rows);
    assert |after| > |rows|;
    assert after[|rows|].code == after[|after| - 1].code;
  }

  /** Every row the loop appends has a code the table did not have. */
  lemma {:induction false} AppendedIsNew(rows: seq<PriceRow>, m: map<int, int>, kvs: Listing, name: string,
                                         lat: real, lng: real, i: nat)
    requires Lists(m, kvs) && |rows| <= i < |PutAll(rows, kvs, Some(name), lat, lng)|
    ensures var r := PutAll(rows, kvs, Some(name), lat, lng)[i];
            r.code !in Codes(rows) && r.code in m && r == PriceRow(name, r.code, lat, lng, m[r.code])
  {
    ListingRebuildsMap(m, kvs);
    PutAllAppended(rows, kvs, name, lat, lng);
  }

  /** An added city: the old rows stay in place, at the map's prices, and one row is appended, as the operator
      gave it. */
  lemma {:induction false} AddsOneRow(rows: seq<PriceRow>, m: map<int, int>, kvs: Listing, name: string,
                                      lat: real, lng: real, code: int)
    requires Lists(m, kvs) && code in m && code !in Codes(rows)
    requires forall c :: c in m && c != code ==> c in Codes(rows)
    ensures var after := PutAll(rows, kvs, Some(name), lat, lng);
            |after| == |rows| + 1 && after[|rows|] == PriceRow(name, code, lat, lng, m[code])
  {
    var after := PutAll(rows, kvs, Some(name), lat, lng);
    UpsertTheorem(rows, m, kvs, name, lat, lng);
    AppendedDiffer(rows, kvs, name, lat, lng);
    forall i | |rows| <= i < |after|
      ensures after[i] == PriceRow(name, code, lat, lng, m[code])
    {
      AppendedIsNew(rows, m, kvs, name, lat, lng, i);
    }
    OneRowAppended(rows, after, code);
  }

  /** Rows that were there keep their place and take the map's price; a code the table has gets no further row. */
  lemma {:induction false} StoreKeepsRows(rows: seq<PriceRow>, m: map<int, int>, kvs: Listing, name: string,
                                          lat: real, lng: real)
    requires Lists(m, kvs)
    ensures var after := PutAll(rows, kvs, Some(name), lat, lng);
            |rows| <= |after| &&
            forall i :: 0 <= i < |rows| ==>
              SamePlace(after[i], rows[i]) &&
              after[i].price == if rows[i].code in m then m[rows[i].code] else rows[i].price
    ensures m.Keys <= Codes(rows) ==> |PutAll(rows, kvs, Some(name), lat, lng)| == |rows|
  {
    ListingRebuildsMap(m, kvs);
    PutAllKeepsRows(rows, kvs, Some(name), lat, lng);
    if |PutAll(rows, kvs, Some(name), lat, lng)| > |rows| {
      AppendedIsNew(rows, m, kvs, name, lat, lng, |rows|);
    }
  }

  /** And if no older row was within tolerance, the new city is found where the operator put it. */
  lemma AddedCityIsFound(rows: seq<PriceRow>, after: seq<PriceRow>, r: PriceRow)
    requires |after| == |rows| + 1 && after[|rows|] == r
    requires forall i :: 0 <= i < |rows| ==> SamePlace(after[i], rows[i])
    requires NoneWithin(rows, r.lat, r.lng)
    ensures FindCity(after, r.lat, r.lng) == r.code
  {
    forall j | 0 <= j < |rows|
      ensures !Within(after[j].lat - r.lat, after[j].lng - r.lng)
    {
      assert SamePlace(after[j], rows[j]);
    }
    assert IsFirstWithin(after, |rows|, r.lat, r.lng);
  }
}
