/** What holds over whole runs of the session table. */
module LedgerRuns {
  import opened Options
  import opened Rounding
  import opened Prices
  import opened Octets
  import opened Ledger
  import opened Sessions
  import opened Money

  // ---------- Conservation ----------

  function CountOpen(ss: seq<Session>): nat {
    if ss == [] then 0 else CountOpen(ss[..|ss| - 1]) + if ss[|ss| - 1].status == OPEN then 1 else 0
  }

  /** The fees of the closed sessions. */
  function Revenue(ss: seq<Session>): int {
    if ss == [] then 0
    else Revenue(ss[..|ss| - 1]) + if ss[|ss| - 1].status == OPEN then 0 else ss[|ss| - 1].fee
  }

  lemma {:induction false} ClosingCounts(ss: seq<Session>, i: nat, s: Session)
    requires i < |ss| && ss[i].status == OPEN && s.status == CLOSED
    ensures CountOpen(ss[i := s]) == CountOpen(ss) - 1
    ensures Revenue(ss[i := s]) == Revenue(ss) + s.fee
  {
    var n := |ss| - 1;
    if i == n {
      assert ss[i := s][..n] == ss[..n];
    } else {
      ClosingCounts(ss[..n], i, s);
      assert ss[i := s][..n] == ss[..n][i := s];
    }
  }

  /** later extends now: closed sessions are untouched, open ones keep their key and start. */
  ghost predicate Extends(later: seq<Session>, now: seq<Session>) {
    && |now| <= |later|
    && forall i :: 0 <= i < |now| ==>
         && later[i].key == now[i].key
         && later[i].createdAt == now[i].createdAt
         && (now[i].status != OPEN ==> later[i] == now[i])
  }

  /** The books balance: rows, open rows and revenue moved by exactly what was answered, rounding within half a cent a
      ticket. */
  ghost predicate Balances(after: seq<Session>, ss: seq<Session>, t: Tally) {
    && |after| == |ss| + t.opens
    && CountOpen(after) == CountOpen(ss) + t.opens - t.closes
    && Revenue(after) == Revenue(ss) + t.fees
    && -30 * t.closes <= 60 * t.fees - t.priceMinutes <= 30 * t.closes
    && Extends(after, ss)
  }

  lemma StartBalances(ss: seq<Session>, k: Key, now: int, price: int)
    ensures var (after, o) := Signal(ss, k, OPEN, now, price);
            Balances(after, ss, One(o))
  { }

  lemma EndBalances(ss: seq<Session>, k: Key, now: int, price: int)
    ensures var (after, o) := Signal(ss, k, CLOSED, now, price);
            Balances(after, ss, One(o))
  {
    if Find(ss, k).Some? {
      var s := EndSession(ss[Find(ss, k).value], now, price);
      ClosingCounts(ss, Find(ss, k).value, s);
      FeeIsNearest(price, s.minutes);
    }
  }

  lemma SignalBalances(ss: seq<Session>, k: Key, status: UInt16, now: int, price: int)
    ensures var (after, o) := Signal(ss, k, status, now, price);
            Balances(after, ss, TallyOf([o]))
  {
    var o := Signal(ss, k, status, now, price).1;
    TallySingle(o);
    if status == OPEN {
      StartBalances(ss, k, now, price);
    } else if status == CLOSED {
      EndBalances(ss, k, now, price);
    }
  }

  lemma BalancesCompose(a: seq<Session>, b: seq<Session>, c: seq<Session>, s: Tally, t: Tally)
    requires Balances(b, a, s) && Balances(c, b, t)
    ensures Balances(c, a, Plus(s, t))
  {
  }

  /** The books balance over every run. */
  lemma {:induction false} SessionsBalance(ss: seq<Session>, env: Env, es: seq<Event>)
    ensures var (after, os) := SessionRun(ss, env, es);
            Balances(after, ss, TallyOf(os))
    decreases es
  {
    if es != [] {
      match es[0]
      case Arrive(f) =>
        var k := FrameKey(env.prices, f);
        SignalBalances(ss, k, f.status, f.now, PriceIn(env, k));
        var (s1, o) := SessionStep(ss, env, f);
        var (s2, os) := SessionRun(s1, env, es[1..]);
        SessionsBalance(s1, env, es[1..]);
        TallyAppend([o], os);
        BalancesCompose(ss, s1, s2, TallyOf([o]), TallyOf(os));
      case Reprice(p, c) =>
        SessionsBalance(ss, Env(p, c), es[1..]);
    }
  }

  lemma {:induction false} RunBalances(db: Db, es: seq<Event>)
    requires Valid(db.rows)
    ensures var (after, os) := Run(db, es);
            Balances(SessionsOf(after.rows), SessionsOf(db.rows), TallyOf(os))
  {
    RunIsSessionRun(db, es);
    SessionsBalance(SessionsOf(db.rows), Env(db.prices, db.cache), es);
  }

  /** A closed row is final: not a field of it changes in any later run. */
  lemma {:induction false} ClosedRowsAreFinal(db: Db, es: seq<Event>, i: nat)
    requires Valid(db.rows) && i < |db.rows| && db.rows[i].status == CLOSED
    ensures i < |Run(db, es).0.rows| && Run(db, es).0.rows[i] == db.rows[i]
  {
    var after := Run(db, es).0.rows;
    RunKeepsValid(db, es);
    RunBalances(db, es);
    assert SessionsOf(db.rows)[i] == SessionOf(db.rows[i]) && SessionsOf(after)[i] == SessionOf(after[i]);
    NearOnGridIsEqual(after[i].lat, db.rows[i].lat);
    NearOnGridIsEqual(after[i].lng, db.rows[i].lng);
  }

  // ---------- Repeated frames ----------

  predicate SameSignal(f: Frame, g: Frame) {
    f.device == g.device && f.status == g.status && f.x == g.x && f.y == g.y
  }

  /** Of consecutive frames that differ only in arrival time, keep the first. */
  function Collapse(es: seq<Event>): seq<Event>
    decreases |es|
  {
    if |es| < 2 then es
    else if es[0].Arrive? && es[1].Arrive? && SameSignal(es[0].frame, es[1].frame) then
      Collapse([es[0]] + es[2..])
    else
      [es[0]] + Collapse(es[1..])
  }

  lemma RepeatedSignalIsNoOp(ss: seq<Session>, k: Key, status: UInt16, now: int, later: int, price: int)
    requires UniqueOpen(ss)
    ensures var once := Signal(ss, k, status, now, price).0;
            Signal(once, k, status, later, price).0 == once
  { }

  lemma {:induction false} CollapseSessions(ss: seq<Session>, env: Env, es: seq<Event>)
    requires UniqueOpen(ss)
    ensures SessionRun(ss, env, Collapse(es)).0 == SessionRun(ss, env, es).0
    decreases |es|
  {
    if |es| >= 2 {
      var e := es[0];
      if e.Arrive? && es[1].Arrive? && SameSignal(e.frame, es[1].frame) {
        var k := FrameKey(env.prices, e.frame);
        var rest := [e] + es[2..];
        RepeatedSignalIsNoOp(ss, k, e.frame.status, e.frame.now, es[1].frame.now, PriceIn(env, k));
        var once := SessionStep(ss, env, e.frame).0;
        assert rest[1..] == es[2..] && es[1..][1..] == es[2..];
        assert SessionStep(once, env, es[1].frame).0 == once;
        assert SessionRun(ss, env, es).0 == SessionRun(once, env, es[1..]).0;
        CollapseSessions(ss, env, rest);
      } else {
        var rest := Collapse(es[1..]);
        assert ([e] + rest)[1..] == rest;
        match e
        case Arrive(f) =>
          var k := FrameKey(env.prices, f);
          SignalKeepsUnique(ss, k, f.status, f.now, PriceIn(env, k));
          CollapseSessions(SessionStep(ss, env, f).0, env, es[1..]);
        case Reprice(p, c) =>
          CollapseSessions(ss, Env(p, c), es[1..]);
      }
    }
  }

  /** A valid table is determined by its sessions: ids and coordinates carry nothing more. */
  lemma SessionsDetermineRows(a: seq<Row>, b: seq<Row>)
    requires Valid(a) && Valid(b) && SessionsOf(a) == SessionsOf(b)
    ensures a == b
  { }

  /** Repeats change nothing: the collapsed stream leaves the very same table. */
  lemma {:induction false} CollapseKeepsTable(db: Db, es: seq<Event>)
    requires Valid(db.rows)
    ensures Run(db, Collapse(es)).0.rows == Run(db, es).0.rows
  {
    RunKeepsValid(db, es);
    RunKeepsValid(db, Collapse(es));
    RunIsSessionRun(db, es);
    RunIsSessionRun(db, Collapse(es));
    ValidIsUnique(db.rows);
    CollapseSessions(SessionsOf(db.rows), Env(db.prices, db.cache), es);
    SessionsDetermineRows(Run(db, es).0.rows, Run(db, Collapse(es)).0.rows);
  }

  // ---------- Independence of keys ----------

  /** The sessions of one key, in table order. */
  function Of(ss: seq<Session>, k: Key): seq<Session> {
    if ss == [] then []
    else Of(ss[..|ss| - 1], k) + if ss[|ss| - 1].key == k then [ss[|ss| - 1]] else []
  }

  /** The run as key k sees it: its own frames and every price change. */
  function EventsFor(es: seq<Event>, env: Env, k: Key): seq<Event>
    decreases es
  {
    if es == [] then []
    else
      match es[0]
      case Arrive(f) => (if FrameKey(env.prices, f) == k then [es[0]] else []) + EventsFor(es[1..], env, k)
      case Reprice(p, c) => [es[0]] + EventsFor(es[1..], Env(p, c), k)
  }

  lemma {:induction false} FindOf(ss: seq<Session>, k: Key)
    ensures Find(ss, k).None? ==> Find(Of(ss, k), k).None?
    ensures Find(ss, k).Some? ==> Find(Of(ss, k), k) == Some(|Of(ss[..Find(ss, k).value], k)|)
  {
    if ss != [] {
      var n := |ss| - 1;
      FindOf(ss[..n], k);
      if !OpenFor(ss[n], k) {
        if Find(ss, k).Some? {
          assert ss[..n][..Find(ss, k).value] == ss[..Find(ss, k).value];
        }
        if ss[n].key == k {
          assert Of(ss, k)[..|Of(ss, k)| - 1] == Of(ss[..n], k);
        } else {
          assert Of(ss, k) == Of(ss[..n], k);
        }
      }
    }
  }

  lemma {:induction false} OfUpdate(ss: seq<Session>, i: nat, s: Session, k: Key)
    requires i < |ss| && ss[i].key == s.key
    ensures s.key != k ==> Of(ss[i := s], k) == Of(ss, k)
    ensures s.key == k ==>
              && |Of(ss[..i], k)| < |Of(ss, k)|
              && Of(ss, k)[|Of(ss[..i], k)|] == ss[i]
              && Of(ss[i := s], k) == Of(ss, k)[|Of(ss[..i], k)| := s]
  {
    var n := |ss| - 1;
    if i == n {
      assert ss[i := s][..n] == ss[..n];
    } else {
      OfUpdate(ss[..n], i, s, k);
      assert ss[i := s][..n] == ss[..n][i := s];
      assert ss[..n][..i] == ss[..i];
    }
  }

  lemma OfAppend(ss: seq<Session>, s: Session, k: Key)
    ensures Of(ss + [s], k) == Of(ss, k) + if s.key == k then [s] else []
  { }

  /** A signal for another key leaves this key's sessions alone; its own acts on them alone. */
  lemma SignalIsLocal(ss: seq<Session>, k: Key, status: UInt16, now: int, price: int, other: Key)
    ensures Of(Signal(ss, k, status, now, price).0, k) == Signal(Of(ss, k), k, status, now, price).0
    ensures other != k ==> Of(Signal(ss, k, status, now, price).0, other) == Of(ss, other)
  {
    FindOf(ss, k);
    if status == OPEN {
      OfAppend(ss, NewSession(k, now), k);
      OfAppend(ss, NewSession(k, now), other);
    } else if status == CLOSED && Find(ss, k).Some? {
      var i := Find(ss, k).value;
      OfUpdate(ss, i, EndSession(ss[i], now, price), k);
      OfUpdate(ss, i, EndSession(ss[i], now, price), other);
    }
  }

  lemma {:induction false} SessionsAreIndependent(ss: seq<Session>, tt: seq<Session>, env: Env, es: seq<Event>, k: Key)
    requires Of(ss, k) == Of(tt, k)
    ensures Of(SessionRun(ss, env, es).0, k) == Of(SessionRun(tt, env, EventsFor(es, env, k)).0, k)
    decreases es
  {
    if es != [] {
      match es[0]
      case Arrive(f) =>
        var k' := FrameKey(env.prices, f);
        var price := PriceIn(env, k');
        SignalIsLocal(ss, k', f.status, f.now, price, k);
        var s1 := SessionStep(ss, env, f).0;
        var rest := EventsFor(es[1..], env, k);
        if k' == k {
          SignalIsLocal(tt, k', f.status, f.now, price, k);
          assert ([es[0]] + rest)[1..] == rest;
          SessionsAreIndependent(s1, SessionStep(tt, env, f).0, env, es[1..], k);
        } else {
          assert [] + rest == rest;
          SessionsAreIndependent(s1, tt, env, es[1..], k);
        }
      case Reprice(p, c) =>
        var rest := EventsFor(es[1..], Env(p, c), k);
        assert ([es[0]] + rest)[1..] == rest;
        SessionsAreIndependent(ss, tt, Env(p, c), es[1..], k);
    }
  }

  /** The rows of a key after any run are the rows from running only the frames that resolve to it. */
  lemma {:induction false} KeysAreIndependent(db: Db, es: seq<Event>, k: Key)
    requires Valid(db.rows)
    ensures var own := EventsFor(es, Env(db.prices, db.cache), k);
            Of(SessionsOf(Run(db, es).0.rows), k) == Of(SessionsOf(Run(db, own).0.rows), k)
  {
    var env := Env(db.prices, db.cache);
    RunIsSessionRun(db, es);
    RunIsSessionRun(db, EventsFor(es, env, k));
    SessionsAreIndependent(SessionsOf(db.rows), SessionsOf(db.rows), env, es, k);
  }

  predicate AtSpot(f: Frame, k: Key) {
    f.device == k.customer && Milli(f.x) == k.milliLat && Milli(f.y) == k.milliLng
  }

  /** Every frame at k's spot finds k's city code when it arrives. */
  predicate StableCity(es: seq<Event>, env: Env, k: Key)
    decreases es
  {
    es == [] ||
    match es[0]
    case Arrive(f) => (AtSpot(f, k) ==> FrameKey(env.prices, f).city == k.city) && StableCity(es[1..], env, k)
    case Reprice(p, c) => StableCity(es[1..], Env(p, c), k)
  }

  /** The frames at k's spot and the price changes, picked without looking at any table. */
  function EventsAtSpot(es: seq<Event>, k: Key): seq<Event> {
    if es == [] then []
    else (if es[0].Arrive? ==> AtSpot(es[0].frame, k) then [es[0]] else []) + EventsAtSpot(es[1..], k)
  }

  lemma {:induction false} StableCityPicksSpot(es: seq<Event>, env: Env, k: Key)
    requires StableCity(es, env, k)
    ensures EventsFor(es, env, k) == EventsAtSpot(es, k)
    decreases es
  {
    if es != [] {
      match es[0]
      case Arrive(f) => StableCityPicksSpot(es[1..], env, k);
      case Reprice(p, c) => StableCityPicksSpot(es[1..], Env(p, c), k);
    }
  }

  /** While the spot keeps its city, device and coordinates alone say which frames matter to a session. */
  lemma {:induction false} SpotsAreIndependent(db: Db, es: seq<Event>, k: Key)
    requires Valid(db.rows) && StableCity(es, Env(db.prices, db.cache), k)
    ensures Of(SessionsOf(Run(db, es).0.rows), k) == Of(SessionsOf(Run(db, EventsAtSpot(es, k)).0.rows), k)
  {
    KeysAreIndependent(db, es, k);
    StableCityPicksSpot(es, Env(db.prices, db.cache), k);
  }

  /** Why the city must be stable: an END finds what its START opened exactly when the spot still has the same code. */
  lemma CityChangeStrandsSession(ss: seq<Session>, before: Env, after: Env, start: Frame, end: Frame)
    requires start.status == OPEN && end.status == CLOSED
    requires start.device == end.device && start.x == end.x && start.y == end.y
    requires Find(ss, FrameKey(before.prices, start)).None? && Find(ss, FrameKey(after.prices, end)).None?
    ensures var parked := SessionStep(ss, before, start).0;
            SessionStep(parked, after, end).1.Closed? <==>
            FindCity(before.prices, Round3(start.x), Round3(start.y)) ==
            FindCity(after.prices, Round3(end.x), Round3(end.y))
  { }

  // ---------- How many sessions can be open ----------

  function OpenKeys(ss: seq<Session>): set<Key> {
    set i | 0 <= i < |ss| && ss[i].status == OPEN :: ss[i].key
  }

  lemma OpenKeysGrow(ss: seq<Session>, s: Session)
    ensures OpenKeys(ss + [s]) == OpenKeys(ss) + if s.status == OPEN then {s.key} else {}
  {
    var all := ss + [s];
    assert all[|ss|] == s;
    forall k | k in OpenKeys(ss)
      ensures k in OpenKeys(all)
    {
      var i :| 0 <= i < |ss| && ss[i].status == OPEN && ss[i].key == k;
      assert all[i] == ss[i];
    }
  }

  lemma {:induction false} OpenCountIsKeyCount(ss: seq<Session>)
    requires UniqueOpen(ss)
    ensures CountOpen(ss) == |OpenKeys(ss)|
  {
    if ss != [] {
      var n := |ss| - 1;
      OpenCountIsKeyCount(ss[..n]);
      assert ss == ss[..n] + [ss[n]];
      OpenKeysGrow(ss[..n], ss[n]);
      if ss[n].status == OPEN {
        assert ss[n].key !in OpenKeys(ss[..n]);
      }
    }
  }

  /** The keys the frames of a run resolve to. */
  function FrameKeys(es: seq<Event>, env: Env): set<Key>
    decreases es
  {
    if es == [] then {}
    else
      match es[0]
      case Arrive(f) => {FrameKey(env.prices, f)} + FrameKeys(es[1..], env)
      case Reprice(p, c) => FrameKeys(es[1..], Env(p, c))
  }

  lemma {:induction false} OpenKeysComeFromFrames(ss: seq<Session>, env: Env, es: seq<Event>)
    requires UniqueOpen(ss)
    ensures UniqueOpen(SessionRun(ss, env, es).0)
    ensures OpenKeys(SessionRun(ss, env, es).0) <= OpenKeys(ss) + FrameKeys(es, env)
    decreases es
  {
    if es != [] {
      match es[0]
      case Arrive(f) =>
        var k := FrameKey(env.prices, f);
        var s1 := SessionStep(ss, env, f).0;
        SignalKeepsUnique(ss, k, f.status, f.now, PriceIn(env, k));
        assert OpenKeys(s1) <= OpenKeys(ss) + {k};
        OpenKeysComeFromFrames(s1, env, es[1..]);
      case Reprice(p, c) =>
        OpenKeysComeFromFrames(ss, Env(p, c), es[1..]);
    }
  }

  lemma SubsetIsNoLarger<T>(a: set<T>, b: set<T>)
    requires a <= b
    ensures |a| <= |b|
  {
    if a != b {
      assert b == a + (b - a);
    }
  }
}
