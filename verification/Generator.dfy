/** The STM32 frame generator and what its stream leaves in the ledger. */
module Generator {
  import opened Options
  import opened Rounding
  import opened Prices
  import PriceDb
  import opened Octets
  import opened Ledger
  import opened Sessions
  import opened LedgerRuns
  import opened Server

  const DEVICE_ID: UInt16 := 1610
  const MAX_COORDINATES := 10

  /** The coordinate table, in thousandths of a degree. */
  const COORDINATES: seq<(int, int)> := [
    (31962, 34802), (32087, 34789), (31749, 35170), (29549, 34954), (31073, 35044),
    (32999, 35091), (33174, 35574), (32422, 34909), (31883, 34794), (31255, 35166)
  ]

  /** A frame as the generator fills it, before it is packed. */
  datatype Sample = Sample(device: UInt16, milliX: int, milliY: int, status: UInt16)

  class CoordinateGenerator {
    var coordinateIndex: nat
    var dataReady: bool
    /** The frames handed to the driver. */
    var sent: seq<Sample>

    ghost predicate Idle()
      reads this
    {
      coordinateIndex <= MAX_COORDINATES && !dataReady
    }

    constructor ()
      ensures Idle() && coordinateIndex == 0 && sent == []
    {
      coordinateIndex, dataReady, sent := 0, false, [];
    }

    method FillDataStruct() returns (data: Sample)
      requires Idle()
      modifies this`coordinateIndex
      ensures Idle()
      ensures data == SampleAt(old(coordinateIndex), 0)
      ensures coordinateIndex == old(coordinateIndex) % MAX_COORDINATES + 1
      ensures old(coordinateIndex) < 10 ==>
                && data == Sample(1610, COORDINATES[old(coordinateIndex)].0, COORDINATES[old(coordinateIndex)].1, 1)
                && coordinateIndex == old(coordinateIndex) + 1
      ensures old(coordinateIndex) == 10 ==>
                data == Sample(1610, COORDINATES[0].0, COORDINATES[0].1, 1) && coordinateIndex == 1
    {
      if coordinateIndex >= MAX_COORDINATES {
        coordinateIndex := 0;
      }
      data := Sample(DEVICE_ID, COORDINATES[coordinateIndex].0, COORDINATES[coordinateIndex].1, OPEN);
      coordinateIndex := coordinateIndex + 1;
    }

    /** Hand a frame to the blocking transmit; ok is the driver's verdict. */
    method SendData(data: Sample, ok: bool)
      requires Idle()
      modifies this`dataReady, this`sent
      ensures Idle()
      ensures sent == old(sent) + [data]
    {
      if dataReady {
        return;
      }
      dataReady := true;
      sent := sent + [data];
      if !ok {
        dataReady := false;
      }
      dataReady := false;
    }

    /** The endless loop, observed for any number of rounds; verdicts are the driver's, one for every frame. */
    method Emit(rounds: nat, verdicts: seq<bool>)
      requires Idle() && |verdicts| == 2 * rounds
      modifies this
      ensures Idle()
      ensures sent == old(sent) + Stream(old(coordinateIndex), 2 * rounds)
      ensures |sent| == |old(sent)| + 2 * rounds && Visits(sent[|old(sent)|..], old(coordinateIndex))
    {
      ghost var from := coordinateIndex;
      var i := 0;
      while i < rounds
        invariant 0 <= i <= rounds
        invariant Idle()
        invariant coordinateIndex % MAX_COORDINATES == (from + i) % MAX_COORDINATES
        invariant sent == old(sent) + Stream(from, 2 * i)
      {
        SampleMoves(coordinateIndex, from, i);
        StreamGrows(from, i);
        IndexMoves(coordinateIndex, from + i);
        var data := FillDataStruct();
        SendData(data, verdicts[2 * i]);
        data := data.(status := CLOSED);
        SendData(data, verdicts[2 * i + 1]);
        i := i + 1;
      }
      assert sent[|old(sent)|..] == Stream(from, 2 * rounds);
      StreamVisits(from, rounds);
    }
  }

  /** The board's frame for entry c of its table. */
  function VisitOf(c: nat, status: UInt16): Sample
    requires c < 10
  {
    Sample(1610, COORDINATES[c].0, COORDINATES[c].1, status)
  }

  /** The frames go round the table from an entry on: a START and an END at each in turn. */
  ghost predicate Visits(frames: seq<Sample>, from: nat) {
    forall i :: 0 <= i && 2 * i + 1 < |frames| ==>
      frames[2 * i] == VisitOf((from + i) % 10, 1) && frames[2 * i + 1] == VisitOf((from + i) % 10, 0)
  }

  lemma StreamVisits(from: nat, rounds: nat)
    ensures Visits(Stream(from, 2 * rounds), from)
  {
    forall i | 0 <= i < rounds
      ensures Stream(from, 2 * rounds)[2 * i] == VisitOf((from + i) % 10, 1)
      ensures Stream(from, 2 * rounds)[2 * i + 1] == VisitOf((from + i) % 10, 0)
    {
      assert (2 * i) / 2 == i && (2 * i + 1) / 2 == i;
    }
  }

  /** From a reset generator, frames 2i and 2i + 1 are the START and the END at city i mod 10 of the server's list. */
  lemma StreamVisitsCities(rounds: nat, i: nat)
    requires i < rounds
    ensures var start, end := Stream(0, 2 * rounds)[2 * i], Stream(0, 2 * rounds)[2 * i + 1];
            var city := PriceDb.CITIES[i % 10];
            && start.device == 1610 && start.status == 1
            && start.milliX as real / 1000.0 == city.lat && start.milliY as real / 1000.0 == city.lng
            && end == start.(status := 0)
  {
    StreamVisits(0, rounds);
    GeneratorCitiesAreSeeded(i % 10);
  }

  function CoordinateAt(k: nat): (int, int) {
    COORDINATES[k % MAX_COORDINATES]
  }

  lemma IndexMoves(now: nat, turns: nat)
    requires now % MAX_COORDINATES == turns % MAX_COORDINATES
    ensures (now % MAX_COORDINATES + 1) % MAX_COORDINATES == (turns + 1) % MAX_COORDINATES
  { }

  lemma SampleMoves(now: nat, from: nat, rounds: nat)
    requires now % MAX_COORDINATES == (from + rounds) % MAX_COORDINATES
    ensures SampleAt(now, 0) == SampleAt(from, 2 * rounds)
    ensures SampleAt(now, 0).(status := CLOSED) == SampleAt(from, 2 * rounds + 1)
  { }

  /** Frame number n of a generator whose index stands at from: START then END at each coordinate in turn. */
  function SampleAt(from: nat, n: nat): Sample {
    var c := CoordinateAt(from + n / 2);
    Sample(DEVICE_ID, c.0, c.1, if n % 2 == 0 then OPEN else CLOSED)
  }

  function Stream(from: nat, n: nat): seq<Sample> {
    seq(n, i requires 0 <= i < n => SampleAt(from, i))
  }

  lemma StreamGrows(from: nat, rounds: nat)
    ensures Stream(from, 2 * (rounds + 1)) ==
            Stream(from, 2 * rounds) + [SampleAt(from, 2 * rounds), SampleAt(from, 2 * rounds + 1)]
  {
  }

  /** What a channel makes of the thousandths of a coordinate. Nothing is asked of it but to treat equal ones alike. */
  type Channel = int -> int

  /** Delivered through a channel that both coordinates share. */
  predicate Delivers(f: Frame, s: Sample, channel: Channel) {
    && f.device == s.device && f.status == s.status
    && Milli(f.x) == channel(s.milliX)
    && Milli(f.y) == channel(s.milliY)
  }

  function Undistorted(milli: int): int {
    milli
  }

  /** Each START is answered by an END for the same key before the next START; prices may change in between. */
  predicate Alternates(es: seq<Event>, env: Env, parked: Option<Key>)
    decreases es
  {
    es == [] ||
    match es[0]
    case Reprice(p, c) => Alternates(es[1..], Env(p, c), parked)
    case Arrive(f) =>
      var k := FrameKey(env.prices, f);
      if parked.None? then f.status == OPEN && Alternates(es[1..], env, Some(k))
      else f.status == CLOSED && k == parked.value && Alternates(es[1..], env, None)
  }

  /** Who is parked after an alternating stream. */
  function ParkedAfter(es: seq<Event>, env: Env, parked: Option<Key>): Option<Key>
    decreases es
  {
    if es == [] then parked
    else
      match es[0]
      case Reprice(p, c) => ParkedAfter(es[1..], Env(p, c), parked)
      case Arrive(f) => ParkedAfter(es[1..], env, if f.status == OPEN then Some(FrameKey(env.prices, f)) else None)
  }

  function AsSet(parked: Option<Key>): set<Key> {
    match parked
    case None => {}
    case Some(k) => {k}
  }

  /** After an alternating stream the only open session is the one parked. */
  lemma {:induction false} AlternatingLeavesParked(ss: seq<Session>, env: Env, es: seq<Event>, parked: Option<Key>)
    requires UniqueOpen(ss) && OpenKeys(ss) == AsSet(parked)
    requires Alternates(es, env, parked)
    ensures UniqueOpen(SessionRun(ss, env, es).0)
    ensures OpenKeys(SessionRun(ss, env, es).0) == AsSet(ParkedAfter(es, env, parked))
    decreases es
  {
    if es != [] {
      match es[0]
      case Reprice(p, c) =>
        AlternatingLeavesParked(ss, Env(p, c), es[1..], parked);
      case Arrive(f) =>
        var k := FrameKey(env.prices, f);
        var s1 := SessionStep(ss, env, f).0;
        SignalKeepsUnique(ss, k, f.status, f.now, PriceIn(env, k));
        SignalOpenKeys(ss, k, f.status, f.now, PriceIn(env, k));
        AlternatingLeavesParked(s1, env, es[1..], if f.status == OPEN then Some(k) else None);
    }
  }

  /** A START adds its key to the open ones, an END removes it. */
  lemma SignalOpenKeys(ss: seq<Session>, k: Key, status: UInt16, now: int, price: int)
    requires UniqueOpen(ss)
    ensures var after := Signal(ss, k, status, now, price).0;
            && (status == OPEN ==> OpenKeys(after) == OpenKeys(ss) + {k})
            && (status == CLOSED ==> OpenKeys(after) == OpenKeys(ss) - {k})
  {
    var after := Signal(ss, k, status, now, price).0;
    if status == OPEN && Find(ss, k).None? {
      assert after == ss + [NewSession(k, now)];
      assert after[|ss|].key in OpenKeys(after);
      forall q | q in OpenKeys(ss)
        ensures q in OpenKeys(after)
      {
        var i :| 0 <= i < |ss| && ss[i].status == OPEN && ss[i].key == q;
        assert after[i] == ss[i];
      }
    } else if status == CLOSED && Find(ss, k).Some? {
      var j := Find(ss, k).value;
      forall q | q in OpenKeys(ss) && q != k
        ensures q in OpenKeys(after)
      {
        var i :| 0 <= i < |ss| && ss[i].status == OPEN && ss[i].key == q;
        assert after[i] == ss[i];
      }
      assert forall i :: 0 <= i < |after| && after[i].status == OPEN ==> ss[i] == after[i] && ss[i].key != k;
    }
  }

  /** The city code at a spot given in thousandths. */
  function CityAt(prices: seq<PriceRow>, x: int, y: int): int {
    FindCity(prices, x as real / 1000.0, y as real / 1000.0)
  }

  /** The key a sample resolves to. */
  function SampleKey(prices: seq<PriceRow>, s: Sample, channel: Channel): Key {
    var x, y := channel(s.milliX), channel(s.milliY);
    Key(s.device, CityAt(prices, x, y), x, y)
  }

  lemma FrameCity(prices: seq<PriceRow>, f: Frame)
    ensures FrameKey(prices, f) == Key(f.device, CityAt(prices, Milli(f.x), Milli(f.y)), Milli(f.x), Milli(f.y))
  {
  }

  lemma DeliveredKey(prices: seq<PriceRow>, f: Frame, s: Sample, channel: Channel)
    requires Delivers(f, s, channel)
    ensures FrameKey(prices, f) == SampleKey(prices, s, channel)
  {
    FrameCity(prices, f);
    SpotKey(prices, f, s, channel);
  }

  lemma SpotKey(prices: seq<PriceRow>, f: Frame, s: Sample, channel: Channel)
    requires Delivers(f, s, channel)
    ensures SampleKey(prices, s, channel) ==
            Key(f.device, CityAt(prices, Milli(f.x), Milli(f.y)), Milli(f.x), Milli(f.y))
  {
  }

  /** START and END alternate, each END repeating the START before it. */
  predicate Paired(samples: seq<Sample>, parked: Option<Sample>) {
    samples == [] ||
    if parked.None? then samples[0].status == OPEN && Paired(samples[1..], Some(samples[0]))
    else samples[0] == parked.value.(status := CLOSED) && Paired(samples[1..], None)
  }

  lemma {:induction false} StreamIsPaired(from: nat, n: nat, k: nat)
    requires k <= n
    ensures Paired(Stream(from, n)[k..], if k % 2 == 1 then Some(SampleAt(from, k - 1)) else None)
    decreases n - k
  {
    if k < n {
      StreamIsPaired(from, n, k + 1);
      assert Stream(from, n)[k..][1..] == Stream(from, n)[k + 1..];
      assert k % 2 == 1 ==> SampleAt(from, k) == SampleAt(from, k - 1).(status := CLOSED);
    }
  }

  /** The frames among a server's actions carry the samples, once each and in order. */
  predicate Carries(acts: seq<Action>, samples: seq<Sample>, channel: Channel) {
    if acts == [] then samples == []
    else
      match acts[0]
      case Receive(f) => samples != [] && Delivers(f, samples[0], channel) && Carries(acts[1..], samples[1..], channel)
      case ReloadFrom(_, _) => Carries(acts[1..], samples, channel)
  }

  /** A reload changes prices only. */
  lemma ReloadKeepsKeys(prices: seq<PriceRow>, lines: Listing, s: Sample, channel: Channel)
    ensures SampleKey(PutAll(prices, lines, None, 0.0, 0.0), s, channel) == SampleKey(prices, s, channel)
  {
    ReloadKeepsCity(prices, lines, channel(s.milliX), channel(s.milliY));
  }

  lemma ReloadKeepsCity(prices: seq<PriceRow>, lines: Listing, x: int, y: int)
    ensures CityAt(PutAll(prices, lines, None, 0.0, 0.0), x, y) == CityAt(prices, x, y)
  {
    ReloadKeepsPlaces(prices, lines);
    SamePlacesSameCity(PutAll(prices, lines, None, 0.0, 0.0), prices, x as real / 1000.0, y as real / 1000.0);
  }

  lemma ReloadKeepsPlaces(prices: seq<PriceRow>, lines: Listing)
    ensures SamePlaces(PutAll(prices, lines, None, 0.0, 0.0), prices)
  {
    MergeTheorem(prices, lines);
  }

  function ParkedKey(prices: seq<PriceRow>, parked: Option<Sample>, channel: Channel): Option<Key> {
    if parked.None? then None else Some(SampleKey(prices, parked.value, channel))
  }

  /** es alternates from parked on and leaves somebody parked, or not. */
  ghost predicate Leaves(es: seq<Event>, env: Env, parked: Option<Key>, somebody: bool) {
    Alternates(es, env, parked) && (ParkedAfter(es, env, parked).Some? <==> somebody)
  }

  lemma FrameLeaves(f: Frame, es: seq<Event>, env: Env, parked: Option<Key>, somebody: bool)
    requires parked.None? ==> f.status == OPEN && Leaves(es, env, Some(FrameKey(env.prices, f)), somebody)
    requires parked.Some? ==>
               f.status == CLOSED && FrameKey(env.prices, f) == parked.value && Leaves(es, env, None, somebody)
    ensures Leaves([Arrive(f)] + es, env, parked, somebody)
  {
    assert ([Arrive(f)] + es)[1..] == es;
  }

  lemma RepriceLeaves(after: Env, es: seq<Event>, env: Env, parked: Option<Key>, somebody: bool)
    requires Leaves(es, after, parked, somebody)
    ensures Leaves([Reprice(after.prices, after.cache)] + es, env, parked, somebody)
  {
    assert ([Reprice(after.prices, after.cache)] + es)[1..] == es;
  }

  /** Through any one channel, a paired stream is an alternating one, reloads in between or not. */
  lemma {:induction false} CarriedAlternates(acts: seq<Action>, samples: seq<Sample>, channel: Channel,
                                             env: Env, parked: Option<Sample>)
    requires Carries(acts, samples, channel) && Paired(samples, parked)
    ensures Leaves(EventsOf(env.prices, acts), env, ParkedKey(env.prices, parked, channel),
                   (|samples| % 2 == 1) != parked.Some?)
    decreases |acts|
  {
    if acts != [] {
      match acts[0]
      case Receive(f) =>
        CarriedAlternates(acts[1..], samples[1..], channel, env, if parked.None? then Some(samples[0]) else None);
        CarriedFrame(f, samples[0], EventsOf(env.prices, acts[1..]), channel, env, parked,
                     (|samples| % 2 == 1) != parked.Some?);
      case ReloadFrom(lines, shm) =>
        var after := Env(PutAll(env.prices, lines, None, 0.0, 0.0), shm);
        ParkedKeyKept(env.prices, lines, parked, channel);
        CarriedAlternates(acts[1..], samples, channel, after, parked);
        RepriceLeaves(after, EventsOf(after.prices, acts[1..]), env, ParkedKey(env.prices, parked, channel),
                      (|samples| % 2 == 1) != parked.Some?);
    }
  }

  /** One more frame in front of an alternating stream. */
  lemma CarriedFrame(f: Frame, s: Sample, es: seq<Event>, channel: Channel,
                     env: Env, parked: Option<Sample>, somebody: bool)
    requires Delivers(f, s, channel)
    requires if parked.None? then s.status == OPEN else s == parked.value.(status := CLOSED)
    requires Leaves(es, env, ParkedKey(env.prices, if parked.None? then Some(s) else None, channel), somebody)
    ensures Leaves([Arrive(f)] + es, env, ParkedKey(env.prices, parked, channel), somebody)
  {
    DeliveredKey(env.prices, f, s, channel);
    if parked.Some? {
      SameSpotSameKey(env.prices, s, parked.value, channel);
    }
    FrameLeaves(f, es, env, ParkedKey(env.prices, parked, channel), somebody);
  }

  lemma SameSpotSameKey(prices: seq<PriceRow>, s: Sample, t: Sample, channel: Channel)
    requires s == t.(status := CLOSED)
    ensures SampleKey(prices, s, channel) == SampleKey(prices, t, channel)
  {
  }

  lemma ParkedKeyKept(prices: seq<PriceRow>, lines: Listing, parked: Option<Sample>, channel: Channel)
    ensures ParkedKey(PutAll(prices, lines, None, 0.0, 0.0), parked, channel) == ParkedKey(prices, parked, channel)
  {
    if parked.Some? {
      ReloadKeepsKeys(prices, lines, parked.value, channel);
    }
  }

  /** The generator's own stream, through any channel, at any times and with any reloads in between: started with
      nothing open, it never leaves more than one session open, and none after an END. */
  lemma {:induction false} GeneratorLeavesAtMostOne(db: Db, acts: seq<Action>, from: nat, n: nat, channel: Channel)
    requires Valid(db.rows) && CountOpen(SessionsOf(db.rows)) == 0
    requires Carries(acts, Stream(from, n), channel)
    ensures CountOpen(SessionsOf(Run(db, EventsOf(db.prices, acts)).0.rows)) == n % 2
  {
    var env := Env(db.prices, db.cache);
    var es := EventsOf(db.prices, acts);
    StreamIsPaired(from, n, 0);
    assert Stream(from, n)[0..] == Stream(from, n);
    CarriedAlternates(acts, Stream(from, n), channel, env, None);
    ValidIsUnique(db.rows);
    RunIsSessionRun(db, es);
    AlternatingCount(SessionsOf(db.rows), env, es);
  }

  /** Delivered up to single-precision noise. */
  predicate NearlyDelivers(f: Frame, s: Sample) {
    && f.device == s.device && f.status == s.status
    && Abs(f.x - s.milliX as real / 1000.0) < 0.0005
    && Abs(f.y - s.milliY as real / 1000.0) < 0.0005
  }

  predicate NearlyCarries(acts: seq<Action>, samples: seq<Sample>) {
    if acts == [] then samples == []
    else
      match acts[0]
      case Receive(f) => samples != [] && NearlyDelivers(f, samples[0]) && NearlyCarries(acts[1..], samples[1..])
      case ReloadFrom(_, _) => NearlyCarries(acts[1..], samples)
  }

  /** A channel that adds no more than noise is no channel at all. */
  lemma {:induction false} NoiseIsUndistorted(acts: seq<Action>, samples: seq<Sample>)
    requires NearlyCarries(acts, samples)
    ensures Carries(acts, samples, Undistorted)
  {
    if acts != [] {
      if acts[0].Receive? {
        RoundAbsorbsNoise(acts[0].frame.x, samples[0].milliX);
        RoundAbsorbsNoise(acts[0].frame.y, samples[0].milliY);
        NoiseIsUndistorted(acts[1..], samples[1..]);
      } else {
        NoiseIsUndistorted(acts[1..], samples);
      }
    }
  }

  /** In particular with coordinates that arrive as they were sent, or nearly. */
  lemma {:induction false} UndistortedLeavesAtMostOne(db: Db, acts: seq<Action>, from: nat, n: nat)
    requires Valid(db.rows) && CountOpen(SessionsOf(db.rows)) == 0
    requires NearlyCarries(acts, Stream(from, n))
    ensures CountOpen(SessionsOf(Run(db, EventsOf(db.prices, acts)).0.rows)) == n % 2
  {
    NoiseIsUndistorted(acts, Stream(from, n));
    GeneratorLeavesAtMostOne(db, acts, from, n, Undistorted);
  }

  lemma AlternatingCount(ss: seq<Session>, env: Env, es: seq<Event>)
    requires UniqueOpen(ss) && CountOpen(ss) == 0 && Alternates(es, env, None)
    ensures CountOpen(SessionRun(ss, env, es).0) == if ParkedAfter(es, env, None).None? then 0 else 1
  {
    OpenCountIsKeyCount(ss);
    AlternatingLeavesParked(ss, env, es, None);
    OpenCountIsKeyCount(SessionRun(ss, env, es).0);
  }

  /** Every coordinate the generator knows is that of a seeded city. */
  lemma GeneratorCitiesAreSeeded(i: nat)
    requires i < MAX_COORDINATES
    ensures |COORDINATES| == |PriceDb.CITIES| == MAX_COORDINATES
    ensures PriceDb.CITIES[i].lat == COORDINATES[i].0 as real / 1000.0
    ensures PriceDb.CITIES[i].lng == COORDINATES[i].1 as real / 1000.0
  { }

  // ---------- Loss and duplication ----------

  /** Frames of one device at the spots of cityOf, each resolving to its spot's city whatever the prices. */
  predicate StaysAt(es: seq<Event>, env: Env, device: UInt16, cityOf: map<(int, int), int>)
    decreases es
  {
    es == [] ||
    match es[0]
    case Reprice(p, c) => StaysAt(es[1..], Env(p, c), device, cityOf)
    case Arrive(f) =>
      var k := FrameKey(env.prices, f);
      && k.customer == device
      && (k.milliLat, k.milliLng) in cityOf
      && cityOf[(k.milliLat, k.milliLng)] == k.city
      && StaysAt(es[1..], env, device, cityOf)
  }

  function SpotKeys(device: UInt16, cityOf: map<(int, int), int>): set<Key> {
    set s | s in cityOf :: Key(device, cityOf[s], s.0, s.1)
  }

  lemma {:induction false} KeysAreSpots(es: seq<Event>, env: Env, device: UInt16, cityOf: map<(int, int), int>)
    requires StaysAt(es, env, device, cityOf)
    ensures FrameKeys(es, env) <= SpotKeys(device, cityOf)
    decreases es
  {
    if es != [] {
      match es[0]
      case Reprice(p, c) => KeysAreSpots(es[1..], Env(p, c), device, cityOf);
      case Arrive(f) =>
        var k := FrameKey(env.prices, f);
        assert k == Key(device, cityOf[(k.milliLat, k.milliLng)], k.milliLat, k.milliLng);
        KeysAreSpots(es[1..], env, device, cityOf);
    }
  }

  lemma {:induction false} AsManyKeysAsSpots(device: UInt16, cityOf: map<(int, int), int>)
    ensures |SpotKeys(device, cityOf)| <= |cityOf|
    decreases |cityOf|
  {
    if cityOf != map[] {
      var s :| s in cityOf.Keys;
      var rest := map t | t in cityOf && t != s :: cityOf[t];
      assert rest.Keys == cityOf.Keys - {s};
      assert |rest| == |cityOf| - 1;
      AsManyKeysAsSpots(device, rest);
      assert SpotKeys(device, cityOf) == SpotKeys(device, rest) + {Key(device, cityOf[s], s.0, s.1)};
    }
  }

  /** Whatever is lost, repeated or reordered, one device over k spots leaves at most k sessions open. */
  lemma {:induction false} AtMostOneSessionPerSpot(db: Db, es: seq<Event>, device: UInt16, cityOf: map<(int, int), int>)
    requires Valid(db.rows) && CountOpen(SessionsOf(db.rows)) == 0
    requires StaysAt(es, Env(db.prices, db.cache), device, cityOf)
    ensures CountOpen(SessionsOf(Run(db, es).0.rows)) <= |cityOf|
  {
    var ss := SessionsOf(db.rows);
    var env := Env(db.prices, db.cache);
    ValidIsUnique(db.rows);
    OpenCountIsKeyCount(ss);
    RunIsSessionRun(db, es);
    OpenKeysComeFromFrames(ss, env, es);
    OpenCountIsKeyCount(SessionRun(ss, env, es).0);
    KeysAreSpots(es, env, device, cityOf);
    AsManyKeysAsSpots(device, cityOf);
    SubsetIsNoLarger(OpenKeys(SessionRun(ss, env, es).0), SpotKeys(device, cityOf));
  }
}
