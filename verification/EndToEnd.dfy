/** From the board's frames to the rows of the ledger: wire, socket, decoder and server. */
module EndToEnd {
  import opened Prices
  import opened Rounding
  import opened Options
  import opened Octets
  import opened Framing
  import opened FramePath
  import opened SinglePrecision
  import opened Ledger
  import opened Sessions
  import opened LedgerRuns
  import opened Server
  import opened PriceDb
  import Generator

  // ---------- From bytes to actions ----------

  /** The coordinates in these twelve bytes are numbers. */
  predicate Readable(bytes: seq<Byte>) {
    |bytes| == FRAME_SIZE && Finite(ServerDecode(bytes).cordX) && Finite(ServerDecode(bytes).cordY)
  }

  /** The frame the server makes of twelve bytes when its clock reads now. */
  function FrameOf(bytes: seq<Byte>, now: int): Frame
    requires Readable(bytes)
  {
    var g := ServerDecode(bytes);
    Frame(g.deviceId, g.status, FloatValue(g.cordX), FloatValue(g.cordY), now)
  }

  /** The rest of the world at each item of a session: the clock, and what a reload finds. */
  datatype Moment = Moment(now: int, lines: Listing, shm: map<int, int>)

  predicate AllReadable(items: seq<Item>) {
    forall i :: 0 <= i < |items| && items[i].Full? ==> Readable(items[i].bytes)
  }

  /** What the server does for each item, as long as no short frame is among them. */
  function ActsOf(items: seq<Item>, moments: seq<Moment>): seq<Action>
    requires |moments| == |items| && AllReadable(items)
  {
    if items == [] then []
    else
      ActOf(items[0], moments[0]) + ActsOf(items[1..], moments[1..])
  }

  function ActOf(item: Item, m: Moment): seq<Action>
    requires item.Full? ==> Readable(item.bytes)
  {
    match item
    case Full(bytes) => [Receive(FrameOf(bytes, m.now))]
    case Reloaded => [ReloadFrom(m.lines, m.shm)]
    case _ => []
  }

  /** The frames among the actions are the consecutive twelves of bytes. */
  predicate CarriesBytes(acts: seq<Action>, bytes: seq<Byte>) {
    if acts == [] then bytes == []
    else
      match acts[0]
      case Receive(f) =>
        && |bytes| >= FRAME_SIZE && Readable(bytes[..FRAME_SIZE])
        && f == FrameOf(bytes[..FRAME_SIZE], f.now)
        && CarriesBytes(acts[1..], bytes[FRAME_SIZE..])
      case ReloadFrom(_, _) => CarriesBytes(acts[1..], bytes)
  }

  lemma {:induction false} ItemsCarryBytes(items: seq<Item>, moments: seq<Moment>)
    requires |moments| == |items| && AllReadable(items) && NothingLost(items)
    ensures CarriesBytes(ActsOf(items, moments), Flat(items))
  {
    if items != [] {
      assert NothingLost(items[1..]);
      ItemsCarryBytes(items[1..], moments[1..]);
      var rest := ActsOf(items[1..], moments[1..]);
      if items[0].Full? {
        FrameCarries(items[0].bytes, moments[0].now, rest, Flat(items[1..]));
      } else {
        assert Flat(items) == Flat(items[1..]);
        if items[0].Reloaded? {
          ReloadCarries(ReloadFrom(moments[0].lines, moments[0].shm), rest, Flat(items));
        } else {
          assert [] + rest == rest;
        }
      }
    }
  }

  lemma FrameCarries(bytes: seq<Byte>, now: int, rest: seq<Action>, tail: seq<Byte>)
    requires Readable(bytes) && CarriesBytes(rest, tail)
    ensures CarriesBytes([Receive(FrameOf(bytes, now))] + rest, bytes + tail)
  {
    assert (bytes + tail)[..FRAME_SIZE] == bytes && (bytes + tail)[FRAME_SIZE..] == tail;
    assert ([Receive(FrameOf(bytes, now))] + rest)[1..] == rest;
  }

  lemma ReloadCarries(act: Action, rest: seq<Action>, bytes: seq<Byte>)
    requires act.ReloadFrom? && CarriesBytes(rest, bytes)
    ensures CarriesBytes([act] + rest, bytes)
  {
    assert ([act] + rest)[1..] == rest;
  }

  /** Any script that loses nothing hands the ledger the consecutive frames of the stream, whatever the chunking. */
  lemma {:induction false} SessionCarriesStream(calls: seq<Call>, stream: seq<Byte>, moments: seq<Moment>)
    requires var items := SessionSpec(calls, stream, 0);
             |moments| == |items| && AllReadable(items) && NothingLost(items)
    ensures var items := SessionSpec(calls, stream, 0);
            && FRAME_SIZE * CountFull(items) <= |stream|
            && CarriesBytes(ActsOf(items, moments), stream[..FRAME_SIZE * CountFull(items)])
  {
    var items := SessionSpec(calls, stream, 0);
    EveryByteAccounted(calls, stream);
    NothingLostIsZero(items);
    ItemsCarryBytes(items, moments);
    assert Flat(items) == stream[..|Flat(items)|];
  }

  // ---------- The board's stream ----------

  /** The board's coordinates in memory, by their thousandths. */
  const LATITUDES: map<int, seq<Byte>> := map[
    31962 := [0x2D, 0xB2, 0xFF, 0x41], 32087 := [0x17, 0x59, 0x00, 0x42],
    31749 := [0xF4, 0xFD, 0xFD, 0x41], 29549 := [0x5A, 0x64, 0xEC, 0x41],
    31073 := [0x81, 0x95, 0xF8, 0x41], 32999 := [0xFA, 0xFE, 0x03, 0x42],
    33174 := [0x2D, 0xB2, 0x04, 0x42], 32422 := [0x21, 0xB0, 0x01, 0x42],
    31883 := [0x62, 0x10, 0xFF, 0x41], 31255 := [0x3D, 0x0A, 0xFA, 0x41]
  ]

  const LONGITUDES: map<int, seq<Byte>> := map[
    34802 := [0x3F, 0x35, 0x0B, 0x42], 34789 := [0xF0, 0x27, 0x0B, 0x42],
    35170 := [0x14, 0xAE, 0x0C, 0x42], 34954 := [0xE5, 0xD0, 0x0B, 0x42],
    35044 := [0x0E, 0x2D, 0x0C, 0x42], 35091 := [0x2F, 0x5D, 0x0C, 0x42],
    35574 := [0xC7, 0x4B, 0x0E, 0x42], 34909 := [0xD1, 0xA2, 0x0B, 0x42],
    34794 := [0x0E, 0x2D, 0x0B, 0x42], 35166 := [0xFC, 0xA9, 0x0C, 0x42]
  ]

  predicate IsCoordinate(milli: int) {
    milli in LATITUDES || milli in LONGITUDES
  }

  function Single(milli: int): seq<Byte>
    requires IsCoordinate(milli)
  {
    if milli in LATITUDES then LATITUDES[milli] else LONGITUDES[milli]
  }

  lemma SouthernLatitudesAreNearest(milli: int)
    requires milli in LATITUDES && milli < 31900
    ensures |LATITUDES[milli]| == 4 && IsNearest(LATITUDES[milli], milli)
  {
  }

  lemma NorthernLatitudesAreNearest(milli: int)
    requires milli in LATITUDES && milli >= 31900
    ensures |LATITUDES[milli]| == 4 && IsNearest(LATITUDES[milli], milli)
  {
  }

  lemma LongitudesAreNearest(milli: int)
    requires milli in LONGITUDES
    ensures |LONGITUDES[milli]| == 4 && IsNearest(LONGITUDES[milli], milli)
  {
  }

  /** Each entry is the float nearest to its coordinate: half a unit in the last place is at most 2^-19 between 16 and
      64. */
  lemma SingleIsNearest(milli: int)
    requires IsCoordinate(milli)
    ensures |Single(milli)| == 4 && Finite(Single(milli))
    ensures Abs(FloatValue(Single(milli)) - milli as real / 1000.0) * 524288.0 <= 1.0
  {
    if milli in LATITUDES {
      if milli < 31900 {
        SouthernLatitudesAreNearest(milli);
      } else {
        NorthernLatitudesAreNearest(milli);
      }
    } else {
      LongitudesAreNearest(milli);
    }
    NearestIsClose(Single(milli), milli);
  }

  lemma ReversedLatitudesAreFinite(milli: int)
    requires milli in LATITUDES
    ensures |Reverse(LATITUDES[milli])| == 4 && Finite(Reverse(LATITUDES[milli]))
  {
  }

  lemma ReversedLongitudesAreFinite(milli: int)
    requires milli in LONGITUDES
    ensures |Reverse(LONGITUDES[milli])| == 4 && Finite(Reverse(LONGITUDES[milli]))
  {
  }

  lemma ReversedIsFinite(milli: int)
    requires IsCoordinate(milli)
    ensures |Reverse(Single(milli))| == 4 && Finite(Reverse(Single(milli)))
  {
    if milli in LATITUDES {
      ReversedLatitudesAreFinite(milli);
    } else {
      ReversedLongitudesAreFinite(milli);
    }
  }

  lemma CoordinatesAreSingle(k: nat)
    ensures IsCoordinate(Generator.CoordinateAt(k).0) && IsCoordinate(Generator.CoordinateAt(k).1)
  {
  }

  /** The frame the board fills for a sample of its own coordinates. */
  function BoardFrame(s: Generator.Sample): (f: GpsFrame)
    requires IsCoordinate(s.milliX) && IsCoordinate(s.milliY)
    ensures WellFormed(f)
  {
    SingleIsNearest(s.milliX);
    SingleIsNearest(s.milliY);
    GpsFrame(s.device, Single(s.milliX), Single(s.milliY), s.status)
  }

  /** Its twelve bytes on the socket: reversed by the board, decoded and re-encoded by the daemon, forwarded by the
      client. */
  function Wire(s: Generator.Sample): (bytes: seq<Byte>)
    requires IsCoordinate(s.milliX) && IsCoordinate(s.milliY)
    ensures |bytes| == FRAME_SIZE
  {
    Pack(DaemonEncode(I2cDecode(Reverse(Pack(BoardFrame(s))))))
  }

  /** The thousandths the server finds in a coordinate: those of the number its four bytes stand for when reversed. */
  function AsWritten(milli: int): int {
    if !IsCoordinate(milli) then 0
    else
      ReversedIsFinite(milli);
      Milli(FloatValue(Reverse(Single(milli))))
  }

  predicate IsBoardSample(s: Generator.Sample) {
    IsCoordinate(s.milliX) && IsCoordinate(s.milliY)
  }

  predicate FromBoard(samples: seq<Generator.Sample>) {
    forall i :: 0 <= i < |samples| ==> IsBoardSample(samples[i])
  }

  function WireStream(samples: seq<Generator.Sample>): seq<Byte>
    requires FromBoard(samples)
  {
    if samples == [] then [] else Wire(samples[0]) + WireStream(samples[1..])
  }

  lemma FrameFields(bytes: seq<Byte>, now: int, id: UInt16, x: seq<Byte>, y: seq<Byte>, status: UInt16)
    requires |bytes| == FRAME_SIZE && |x| == |y| == 4 && Finite(x) && Finite(y)
    requires ServerDecode(bytes) == GpsFrame(id, x, y, status)
    ensures Readable(bytes) && FrameOf(bytes, now) == Frame(id, status, FloatValue(x), FloatValue(y), now)
  {
  }

  lemma WireDecodes(s: Generator.Sample)
    requires IsCoordinate(s.milliX) && IsCoordinate(s.milliY)
    ensures ServerDecode(Wire(s)) ==
            GpsFrame(s.device, Reverse(Single(s.milliX)), Reverse(Single(s.milliY)), s.status)
  {
    PathReversesCoordinates(BoardFrame(s));
  }

  lemma ChannelIsAsWritten(milli: int)
    requires IsCoordinate(milli)
    ensures |Reverse(Single(milli))| == 4 && Finite(Reverse(Single(milli)))
    ensures Milli(FloatValue(Reverse(Single(milli)))) == AsWritten(milli)
  {
    ReversedIsFinite(milli);
  }

  /** What the server reads off the wire. */
  lemma WireArrives(s: Generator.Sample, now: int)
    requires IsBoardSample(s)
    ensures Readable(Wire(s)) && Generator.Delivers(FrameOf(Wire(s), now), s, AsWritten)
  {
    var x, y := Reverse(Single(s.milliX)), Reverse(Single(s.milliY));
    ChannelIsAsWritten(s.milliX);
    ChannelIsAsWritten(s.milliY);
    WireDecodes(s);
    FrameFields(Wire(s), now, s.device, x, y, s.status);
  }

  lemma WireHead(bytes: seq<Byte>, samples: seq<Generator.Sample>)
    requires FromBoard(samples) && bytes <= WireStream(samples) && |bytes| >= FRAME_SIZE
    ensures samples != [] && bytes[..FRAME_SIZE] == Wire(samples[0])
    ensures FromBoard(samples[1..]) && bytes[FRAME_SIZE..] <= WireStream(samples[1..])
  {
    PrefixParts(bytes, Wire(samples[0]), WireStream(samples[1..]));
  }

  lemma PrefixParts(bytes: seq<Byte>, head: seq<Byte>, tail: seq<Byte>)
    requires bytes <= head + tail && |bytes| >= |head|
    ensures bytes[..|head|] == head && bytes[|head|..] <= tail
  {
    var n := |bytes|;
    assert bytes == (head + tail)[..n];
    assert bytes[|head|..] == tail[..n - |head|];
  }

  /** If the actions carry the bytes of the board's samples, they carry the samples, as far as whole frames go. */
  lemma {:induction false} BytesCarrySamples(acts: seq<Action>, bytes: seq<Byte>,
                                             samples: seq<Generator.Sample>, n: nat)
    requires FromBoard(samples) && CarriesBytes(acts, bytes)
    requires |bytes| == FRAME_SIZE * n && bytes <= WireStream(samples)
    ensures n <= |samples| && Generator.Carries(acts, samples[..n], AsWritten)
  {
    if acts != [] {
      if acts[0].Receive? {
        WireHead(bytes, samples);
        WireArrives(samples[0], acts[0].frame.now);
        BytesCarrySamples(acts[1..], bytes[FRAME_SIZE..], samples[1..], n - 1);
        SampleCarried(acts, samples, n);
      } else {
        BytesCarrySamples(acts[1..], bytes, samples, n);
      }
    }
  }

  lemma SampleCarried(acts: seq<Action>, samples: seq<Generator.Sample>, n: nat)
    requires acts != [] && acts[0].Receive? && 1 <= n <= |samples|
    requires Generator.Delivers(acts[0].frame, samples[0], AsWritten)
    requires Generator.Carries(acts[1..], samples[1..][..n - 1], AsWritten)
    ensures Generator.Carries(acts, samples[..n], AsWritten)
  {
    assert samples[..n][1..] == samples[1..][..n - 1];
  }

  lemma StreamIsFromBoard(from: nat, n: nat)
    ensures FromBoard(Generator.Stream(from, n))
  {
    forall i | 0 <= i < n
      ensures IsBoardSample(Generator.SampleAt(from, i))
    {
      CoordinatesAreSingle(from + i / 2);
    }
  }

  /** The socket's bytes for the first n frames of a generator whose index stands at from. */
  function BoardStream(from: nat, n: nat): seq<Byte> {
    StreamIsFromBoard(from, n);
    WireStream(Generator.Stream(from, n))
  }

  /** All coordinates that arrive are numbers, reversed as they are. */
  lemma {:induction false} BoardItemsAreReadable(items: seq<Item>, samples: seq<Generator.Sample>)
    requires WellSized(items) && NothingLost(items) && FromBoard(samples) && Flat(items) <= WireStream(samples)
    ensures AllReadable(items)
  {
    if items != [] {
      assert NothingLost(items[1..]) && WellSized(items[1..]);
      if items[0].Full? {
        WireHead(Flat(items), samples);
        assert Flat(items)[..FRAME_SIZE] == items[0].bytes && Flat(items)[FRAME_SIZE..] == Flat(items[1..]);
        WireArrives(samples[0], 0);
        BoardItemsAreReadable(items[1..], samples[1..]);
      } else {
        assert Flat(items) == Flat(items[1..]);
        BoardItemsAreReadable(items[1..], samples);
      }
    }
  }

  lemma BoardIsReadable(from: nat, n: nat, calls: seq<Call>)
    requires NothingLost(SessionSpec(calls, BoardStream(from, n), 0))
    ensures AllReadable(SessionSpec(calls, BoardStream(from, n), 0))
  {
    var items := SessionSpec(calls, BoardStream(from, n), 0);
    StreamIsFromBoard(from, n);
    SessionCovers(calls, BoardStream(from, n), 0);
    EveryByteAccounted(calls, BoardStream(from, n));
    BoardItemsAreReadable(items, Generator.Stream(from, n));
  }

  lemma BoardIsCarried(from: nat, n: nat, calls: seq<Call>, moments: seq<Moment>)
    requires var items := SessionSpec(calls, BoardStream(from, n), 0);
             NothingLost(items) && AllReadable(items) && |moments| == |items|
    ensures var items := SessionSpec(calls, BoardStream(from, n), 0);
            Generator.Carries(ActsOf(items, moments), Generator.Stream(from, CountFull(items)), AsWritten)
  {
    var stream := BoardStream(from, n);
    var k := CountFull(SessionSpec(calls, stream, 0));
    StreamIsFromBoard(from, n);
    SessionCarriesStream(calls, stream, moments);
    PrefixCarriesSamples(ActsOf(SessionSpec(calls, stream, 0), moments), Generator.Stream(from, n), k);
    StreamPrefix(from, n, k);
  }

  lemma PrefixCarriesSamples(acts: seq<Action>, samples: seq<Generator.Sample>, k: nat)
    requires FromBoard(samples) && FRAME_SIZE * k <= |WireStream(samples)|
    requires CarriesBytes(acts, WireStream(samples)[..FRAME_SIZE * k])
    ensures k <= |samples| && Generator.Carries(acts, samples[..k], AsWritten)
  {
    BytesCarrySamples(acts, WireStream(samples)[..FRAME_SIZE * k], samples, k);
  }

  lemma StreamPrefix(from: nat, n: nat, k: nat)
    requires k <= n
    ensures Generator.Stream(from, n)[..k] == Generator.Stream(from, k)
  {
  }

  /** The system as written, end to end: whatever the chunking and the signals, as long as no byte is lost, at any times
      and with any reloads in between, the board's stream leaves a ledger that had nothing open with one session open
      after an odd number of frames and none after an even one. */
  lemma {:induction false} BoardLeavesAtMostOne(db: Db, from: nat, n: nat, calls: seq<Call>, moments: seq<Moment>)
    requires Valid(db.rows) && CountOpen(SessionsOf(db.rows)) == 0
    requires var items := SessionSpec(calls, BoardStream(from, n), 0);
             NothingLost(items) && |moments| == |items|
    ensures AllReadable(SessionSpec(calls, BoardStream(from, n), 0))
    ensures var items := SessionSpec(calls, BoardStream(from, n), 0);
            CountOpen(SessionsOf(Run(db, EventsOf(db.prices, ActsOf(items, moments))).0.rows)) == CountFull(items) % 2
  {
    var items := SessionSpec(calls, BoardStream(from, n), 0);
    BoardIsReadable(from, n, calls);
    BoardIsCarried(from, n, calls, moments);
    Generator.GeneratorLeavesAtMostOne(db, ActsOf(items, moments), from, CountFull(items), AsWritten);
  }

  // ---------- Where the board's cars park, as written ----------

  /** No latitude of the board survives the reversal at a size between 16 and 128. */
  lemma ReversedLatitudesAreOff(milli: int)
    requires milli in LATITUDES
    ensures var e := Exponent(Reverse(LATITUDES[milli])); e < 131 || e >= 134
  {
  }

  lemma AsWrittenIsOff(milli: int)
    requires milli in LATITUDES
    ensures AsWritten(milli) <= 17000 || AsWritten(milli) >= 120000
  {
    ReversedIsFinite(milli);
    ReversedLatitudesAreOff(milli);
    SizeByExponent(Reverse(Single(milli)));
  }

  /** Every row is such a place, whatever its price. */
  predicate OnTheMap(prices: seq<PriceRow>) {
    forall i :: 0 <= i < |prices| ==> IsPlace(prices[i].code, prices[i].lat)
  }

  /** A code that is not the one for nowhere, and a latitude well away from those that arrive. */
  predicate IsPlace(code: int, lat: real) {
    code != 0 && 17.5 <= lat <= 119.5
  }

  lemma CitiesAreOnTheMap()
    ensures OnTheMap(CITIES)
  {
  }

  /** A fresh installation stands there. */
  lemma SeedIsOnTheMap()
    ensures OnTheMap(SeedAll([], CITIES))
  {
    CitiesAreOnTheMap();
    FreshSeed();
  }

  /** And reloads move nothing. */
  lemma ReloadStaysOnTheMap(prices: seq<PriceRow>, lines: Listing)
    requires OnTheMap(prices)
    ensures OnTheMap(PutAll(prices, lines, None, 0.0, 0.0))
  {
    Generator.ReloadKeepsPlaces(prices, lines);
  }

  lemma NoCityThere(prices: seq<PriceRow>, x: int, y: int)
    requires OnTheMap(prices) && (x <= 17000 || x >= 120000)
    ensures Generator.CityAt(prices, x, y) == 0
  {
    var lat, lng := x as real / 1000.0, y as real / 1000.0;
    assert lat <= 17.0 || lat >= 120.0;
    forall i | 0 <= i < |prices|
      ensures !NearRow(prices[i], lat, lng)
    {
      FarApart(prices[i].lat, lat);
    }
  }

  lemma FarApart(a: real, b: real)
    requires 17.5 <= a <= 119.5 && (b <= 17.0 || b >= 120.0)
    ensures !Near(a, b)
  {
  }

  lemma BoardLatitudes(from: nat, i: nat)
    ensures Generator.SampleAt(from, i).milliX in LATITUDES && IsBoardSample(Generator.SampleAt(from, i))
  {
    CoordinatesAreSingle(from + i / 2);
  }

  /** As written, no frame of the board finds its city. */
  lemma BoardFindsNoCity(prices: seq<PriceRow>, from: nat, i: nat, f: Frame)
    requires OnTheMap(prices) && Generator.Delivers(f, Generator.SampleAt(from, i), AsWritten)
    ensures FrameKey(prices, f).city == 0
  {
    BoardLatitudes(from, i);
    AsWrittenIsOff(Generator.SampleAt(from, i).milliX);
    Generator.FrameCity(prices, f);
    NoCityThere(prices, Milli(f.x), Milli(f.y));
  }

  lemma NoRowIsFree(prices: seq<PriceRow>)
    requires OnTheMap(prices)
    ensures DbPrice(prices, 0) == 0
  {
    assert !HasCode(prices, 0);
  }

  /** So over the seeded cities, at whatever prices, the board's cars park for nothing. */
  lemma BoardPaysNothing(db: Db, from: nat, i: nat, f: Frame)
    requires Valid(db.rows) && OnTheMap(db.prices) && 0 !in db.cache
    requires Generator.Delivers(f, Generator.SampleAt(from, i), AsWritten)
    ensures var o := ApplyFrame(db, f).1;
            o.Closed? ==> o.price == 0 && o.fee == 0
  {
    BoardFindsNoCity(db.prices, from, i, f);
    NoRowIsFree(db.prices);
    FreeOfCharge(db, f);
  }

  lemma FreeOfCharge(db: Db, f: Frame)
    requires Valid(db.rows) && FrameKey(db.prices, f).city == 0
    requires 0 !in db.cache && DbPrice(db.prices, 0) == 0
    ensures var o := ApplyFrame(db, f).1;
            o.Closed? ==> o.price == 0 && o.fee == 0
  {
    ClosedCharge(db, f);
  }

  // ---------- The sign of what arrives ----------

  /** The coordinates whose first byte on the wire has its top bit set. */
  const TURNED: set<int> := {31749, 31073, 32999, 34789, 34954, 35574, 34909, 35166}

  lemma TurnedLatitudes(milli: int)
    requires milli in LATITUDES
    ensures |LATITUDES[milli]| == 4 && (LATITUDES[milli][0] >= 128 <==> milli in {31749, 31073, 32999})
    ensures 1 < LATITUDES[milli][0] && LATITUDES[milli][0] as int != 128
  {
  }

  lemma TurnedLongitudes(milli: int)
    requires milli in LONGITUDES
    ensures |LONGITUDES[milli]| == 4
    ensures LONGITUDES[milli][0] >= 128 <==> milli in {34789, 34954, 35574, 34909, 35166}
    ensures 1 < LONGITUDES[milli][0] && LONGITUDES[milli][0] as int != 128
  {
  }

  lemma NotTiny(b: seq<Byte>)
    requires |b| == 4 && 1 < b[0] && b[0] as int != 128
    ensures Exponent(Reverse(b)) > 0
  {
  }

  lemma TurnedCoordinates(milli: int)
    requires IsCoordinate(milli)
    ensures |Single(milli)| == 4 && Exponent(Reverse(Single(milli))) > 0
    ensures Single(milli)[0] >= 128 <==> milli in TURNED
  {
    if milli in LATITUDES {
      TurnedLatitudes(milli);
    } else {
      TurnedLongitudes(milli);
    }
    NotTiny(Single(milli));
  }

  /** The socket carries the board's fields in their order, words high byte first and floats as the board holds
      them. */
  lemma WireBytes(s: Generator.Sample)
    requires IsBoardSample(s)
    ensures Wire(s) == [s.device / 256, s.device % 256] + Single(s.milliX) + Single(s.milliY) +
                       [s.status / 256, s.status % 256]
  {
    BusRoundTrip(BoardFrame(s));
    PackedInOrder(BoardFrame(s));
  }

  lemma SignArrives(milli: int)
    requires IsCoordinate(milli)
    ensures |Reverse(Single(milli))| == 4 && Finite(Reverse(Single(milli)))
    ensures FloatValue(Reverse(Single(milli))) < 0.0 <==> milli in TURNED
    ensures FloatValue(Reverse(Single(milli))) != 0.0
  {
    ReversedIsFinite(milli);
    TurnedCoordinates(milli);
    SignDecides(Reverse(Single(milli)));
  }

  /** A coordinate arrives negative if and only if the first of its bytes on the wire is 128 or more: three of the
      latitudes and five of the longitudes do. */
  lemma ArrivesNegative(s: Generator.Sample, now: int)
    requires IsBoardSample(s)
    ensures Readable(Wire(s)) && |Wire(s)| == 12
    ensures var f := FrameOf(Wire(s), now);
            && (f.x < 0.0 <==> s.milliX in TURNED) && (f.x < 0.0 <==> Wire(s)[2] >= 128)
            && (f.y < 0.0 <==> s.milliY in TURNED) && (f.y < 0.0 <==> Wire(s)[6] >= 128)
            && f.x != 0.0 && f.y != 0.0
  {
    var x, y := Reverse(Single(s.milliX)), Reverse(Single(s.milliY));
    SignArrives(s.milliX);
    SignArrives(s.milliY);
    TurnedCoordinates(s.milliX);
    TurnedCoordinates(s.milliY);
    WireDecodes(s);
    FrameFields(Wire(s), now, s.device, x, y, s.status);
    WireBytes(s);
  }

  // ---------- What the server does for a session ----------

  /** One item after the other: a full frame is handled as it is decoded, a reload reloads, and the rest is nothing to
      the ledger. */
  lemma {:induction false} ActOfItem(items: seq<Item>, moments: seq<Moment>)
    requires |items| == |moments| > 0 && AllReadable(items)
    ensures AllReadable(items[1..])
    ensures items[0].Full? ==>
              var g := ServerDecode(items[0].bytes);
              var f := Frame(g.deviceId, g.status, FloatValue(g.cordX), FloatValue(g.cordY), moments[0].now);
              ActsOf(items, moments) == [Receive(f)] + ActsOf(items[1..], moments[1..])
    ensures items[0].Reloaded? ==>
              ActsOf(items, moments) ==
              [ReloadFrom(moments[0].lines, moments[0].shm)] + ActsOf(items[1..], moments[1..])
    ensures !items[0].Full? && !items[0].Reloaded? ==> ActsOf(items, moments) == ActsOf(items[1..], moments[1..])
  {
    assert items[0].Full? ==> Readable(items[0].bytes);
    assert [] + ActsOf(items[1..], moments[1..]) == ActsOf(items[1..], moments[1..]);
  }
}
