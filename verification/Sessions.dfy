/** The same table keyed exactly: no tolerance, no LIMIT, no ORDER BY, no row ids. */
module Sessions {
  import opened Options
  import opened Prices
  import opened Octets
  import opened Ledger

  datatype Session = Session(key: Key, status: int, minutes: int, fee: int, createdAt: int, endedAt: Option<int>)

  function SessionOf(r: Row): Session {
    Session(KeyOf(r), r.status, r.minutes, r.fee, r.createdAt, r.endedAt)
  }

  function SessionsOf(rows: seq<Row>): (ss: seq<Session>)
    ensures |ss| == |rows|
    ensures forall i :: 0 <= i < |rows| ==> ss[i] == SessionOf(rows[i])
  {
    seq(|rows|, i requires 0 <= i < |rows| => SessionOf(rows[i]))
  }

  predicate OpenFor(s: Session, k: Key) {
    s.status == OPEN && s.key == k
  }

  ghost predicate UniqueOpen(ss: seq<Session>) {
    forall i, j :: 0 <= i < j < |ss| && ss[i].status == OPEN && ss[j].status == OPEN ==> ss[i].key != ss[j].key
  }

  function Find(ss: seq<Session>, k: Key): (found: Option<nat>)
    ensures found.None? ==> forall i :: 0 <= i < |ss| ==> !OpenFor(ss[i], k)
    ensures found.Some? ==> found.value < |ss| && OpenFor(ss[found.value], k)
  {
    if ss == [] then None
    else if OpenFor(ss[|ss| - 1], k) then Some(|ss| - 1)
    else
      assert forall i :: 0 <= i < |ss| - 1 ==> ss[..|ss| - 1][i] == ss[i];
      Find(ss[..|ss| - 1], k)
  }

  function NewSession(k: Key, now: int): Session {
    Session(k, OPEN, 0, 0, now, None)
  }

  function EndSession(s: Session, now: int, price: int): Session {
    var minutes := Minutes(now, s.createdAt);
    s.(status := CLOSED, minutes := minutes, fee := FeeCents(price, minutes), endedAt := Some(now))
  }

  /** One signal for one key. */
  function Signal(ss: seq<Session>, k: Key, status: UInt16, now: int, price: int): (seq<Session>, Outcome) {
    if status == OPEN then
      if Find(ss, k).Some? then (ss, AlreadyOpen) else (ss + [NewSession(k, now)], Opened)
    else if status == CLOSED then
      match Find(ss, k)
      case None => (ss, NothingOpen)
      case Some(i) =>
        var s := EndSession(ss[i], now, price);
        (ss[i := s], Closed(price, s.minutes, s.fee))
    else (ss, Ignored)
  }

  /** The prices a run sees. */
  datatype Env = Env(prices: seq<PriceRow>, cache: map<int, int>)

  function PriceIn(env: Env, k: Key): int {
    ChargedPrice(env.cache, env.prices, k.city)
  }

  function SessionStep(ss: seq<Session>, env: Env, f: Frame): (seq<Session>, Outcome) {
    var k := FrameKey(env.prices, f);
    Signal(ss, k, f.status, f.now, PriceIn(env, k))
  }

  function SessionRun(ss: seq<Session>, env: Env, es: seq<Event>): (seq<Session>, seq<Outcome>)
    decreases es
  {
    if es == [] then (ss, [])
    else
      match es[0]
      case Arrive(f) =>
        var (s1, o) := SessionStep(ss, env, f);
        var (s2, os) := SessionRun(s1, env, es[1..]);
        (s2, [o] + os)
      case Reprice(p, c) => SessionRun(ss, Env(p, c), es[1..])
  }

  lemma ValidIsUnique(rows: seq<Row>)
    requires Valid(rows)
    ensures UniqueOpen(SessionsOf(rows))
  {
  }

  lemma SignalKeepsUnique(ss: seq<Session>, k: Key, status: UInt16, now: int, price: int)
    requires UniqueOpen(ss)
    ensures UniqueOpen(Signal(ss, k, status, now, price).0)
  {
  }

  lemma OpenRowIsFound(rows: seq<Row>, k: Key, i: nat)
    requires Valid(rows) && OpenAt(rows, k, i)
    ensures Find(SessionsOf(rows), k) == Some(i)
  { }

  lemma NoOpenRowIsNone(rows: seq<Row>, k: Key)
    requires forall i :: !OpenAt(rows, k, i)
    ensures Find(SessionsOf(rows), k) == None
  {
    var ss := SessionsOf(rows);
    if Find(ss, k).Some? {
      assert OpenAt(rows, k, Find(ss, k).value);
    }
  }

  lemma SessionsUpdate(rows: seq<Row>, i: nat, r: Row)
    requires i < |rows|
    ensures SessionsOf(rows[i := r]) == SessionsOf(rows)[i := SessionOf(r)]
  {
  }

  lemma SessionsAppend(rows: seq<Row>, r: Row)
    ensures SessionsOf(rows + [r]) == SessionsOf(rows) + [SessionOf(r)]
  {
  }

  lemma CloseRowSession(r: Row, now: int, price: int)
    ensures SessionOf(CloseRow(r, now, price)) == EndSession(SessionOf(r), now, price)
  {
  }

  lemma OpenRowSession(id: int, prices: seq<PriceRow>, f: Frame)
    ensures SessionOf(OpenRow(id, QueryOf(prices, f), f.now)) == NewSession(FrameKey(prices, f), f.now)
  { }

  /** A frame on the real table is a signal on the exact one, with the same answer. */
  lemma FrameIsSignal(db: Db, f: Frame)
    requires Valid(db.rows)
    ensures var (after, o) := ApplyFrame(db, f);
            (SessionsOf(after.rows), o) == SessionStep(SessionsOf(db.rows), Env(db.prices, db.cache), f)
  {
    var k := FrameKey(db.prices, f);
    FrameByKey(db, f);
    OpenRowSession(|db.rows| + 1, db.prices, f);
    SessionsAppend(db.rows, OpenRow(|db.rows| + 1, QueryOf(db.prices, f), f.now));
    if i :| OpenAt(db.rows, k, i) {
      OpenRowIsFound(db.rows, k, i);
      var price := ChargedPrice(db.cache, db.prices, k.city);
      var r := CloseRow(db.rows[i], f.now, price);
      CloseRowSession(db.rows[i], f.now, price);
      SessionsUpdate(db.rows, i, r);
    } else {
      NoOpenRowIsNone(db.rows, k);
    }
  }

  /** On every run the tolerance-driven table is the exactly keyed table. */
  lemma {:induction false} RunIsSessionRun(db: Db, es: seq<Event>)
    requires Valid(db.rows)
    ensures var (after, os) := Run(db, es);
            (SessionsOf(after.rows), os) == SessionRun(SessionsOf(db.rows), Env(db.prices, db.cache), es)
    decreases es
  {
    if es != [] {
      var db1 := Step(db, es[0]).0;
      var os := Run(db1, es[1..]).1;
      if es[0].Arrive? {
        FrameIsSignal(db, es[0].frame);
        FrameKeepsValid(db, es[0].frame);
        FrameByKey(db, es[0].frame);
      } else {
        assert [] + os == os;
      }
      RunIsSessionRun(db1, es[1..]);
    }
  }
}
