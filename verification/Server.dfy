/** The server object: it mutates the session table frame by frame. */
module Server {
  import opened Options
  import opened Rounding
  import opened Prices
  import opened PriceDb
  import opened Ledger

  class ParkingServer {
    var rows: seq<Row>
    const table: PriceTable
    var cache: map<int, int>
    /** The "OK CLOSED" replies sent so far. */
    var replies: nat

    function State(): Db
      reads this, table
    {
      Db(rows, table.rows, cache)
    }

    constructor (initial: seq<Row>, prices: PriceTable, shm: map<int, int>)
      ensures rows == initial && table == prices && cache == shm && replies == 0
    {
      rows, table, cache, replies := initial, prices, shm, 0;
    }

    /** SELECT rowid ... LIMIT 1, asking only whether a row came back. */
    method CheckOpen(q: Query) returns (found: bool)
      ensures found == HasMatch(rows, q)
    {
      var i := 0;
      while i < |rows|
        invariant 0 <= i <= |rows|
        invariant forall k :: 0 <= k < i ==> !Matches(rows[k], q)
      {
        if Matches(rows[i], q) {
          return true;
        }
        i := i + 1;
      }
      found := false;
    }

    /** SELECT rowid, created_at ... ORDER BY created_at DESC LIMIT 1. */
    method FindOpen(q: Query) returns (found: Option<(int, int)>)
      ensures found == match LatestMatch(rows, q)
                       case None => None
                       case Some(i) => Some((rows[i].id, rows[i].createdAt))
    {
      ghost var best: Option<nat> := None;
      found := None;
      var i := 0;
      while i < |rows|
        invariant 0 <= i <= |rows|
        invariant best == LatestMatch(rows[..i], q)
        invariant found == match best
                           case None => None
                           case Some(b) => Some((rows[b].id, rows[b].createdAt))
      {
        assert rows[..i + 1][..i] == rows[..i];
        if Matches(rows[i], q) && (found.None? || found.value.1 < rows[i].createdAt) {
          found := Some((rows[i].id, rows[i].createdAt));
          best := Some(i);
        }
        i := i + 1;
      }
      assert rows[..i] == rows;
    }

    /** UPDATE customer_data SET status = 0, ... WHERE rowid = id. */
    method UpdateClose(id: int, minutes: int, fee: int, endedAt: int)
      requires Valid(rows) && 1 <= id <= |rows|
      modifies this`rows
      ensures rows == old(rows)[id - 1 := old(rows)[id - 1].(
                status := CLOSED, minutes := minutes, fee := fee, endedAt := Some(endedAt))]
    {
      var i := 0;
      while i < |rows|
        invariant 0 <= i <= |rows| == |old(rows)|
        invariant forall k :: 0 <= k < i && k == id - 1 ==>
                    rows[k] == old(rows)[k].(status := CLOSED, minutes := minutes, fee := fee, endedAt := Some(endedAt))
        invariant forall k :: 0 <= k < |rows| && (i <= k || k != id - 1) ==> rows[k] == old(rows)[k]
      {
        if rows[i].id == id {
          rows := rows[i := rows[i].(status := CLOSED, minutes := minutes, fee := fee, endedAt := Some(endedAt))];
        }
        i := i + 1;
      }
    }

    /** A START frame: insert a row unless the session is already open. */
    method StartParking(q: Query, now: int) returns (o: Outcome)
      modifies this`rows
      ensures o == if HasMatch(old(rows), q) then AlreadyOpen else Opened
      ensures rows == if o.Opened? then old(rows) + [OpenRow(|old(rows)| + 1, q, now)] else old(rows)
    {
      var already := CheckOpen(q);
      if !already {
        rows := rows + [OpenRow(|rows| + 1, q, now)];
        o := Opened;
      } else {
        o := AlreadyOpen;
      }
    }

    /** An END frame: close the latest matching row, charge it and answer the client. */
    method EndParking(q: Query, now: int) returns (o: Outcome)
      requires Valid(rows)
      modifies this`rows, this`replies
      ensures LatestMatch(old(rows), q).None? ==> o == NothingOpen && rows == old(rows) && replies == old(replies)
      ensures LatestMatch(old(rows), q).Some? ==>
                var i := LatestMatch(old(rows), q).value;
                var price := ChargedPrice(cache, table.rows, q.city);
                var closed := CloseRow(old(rows)[i], now, price);
                && rows == old(rows)[i := closed]
                && o == Closed(price, closed.minutes, closed.fee)
                && replies == old(replies) + 1
                && rows[i].(status := OPEN, minutes := old(rows)[i].minutes, fee := old(rows)[i].fee,
                            endedAt := old(rows)[i].endedAt) == old(rows)[i].(status := OPEN)
                && rows[i].status == 0 && rows[i].endedAt == Some(now)
      ensures o.Closed? ==>
                var created := old(rows)[LatestMatch(old(rows), q).value].createdAt;
                && (created <= now ==> 60 * o.minutes <= now / 1000 - created / 1000 < 60 * o.minutes + 60)
                && (o.price * o.minutes >= 0 ==> 60 * o.fee - 30 <= o.price * o.minutes < 60 * o.fee + 30)
    {
      o := NothingOpen;
      var found := FindOpen(q);
      if found.Some? {
        var (id, createdAt) := found.value;
        assert id == LatestMatch(rows, q).value + 1;
        var minutes := Minutes(now, createdAt);
        var price := table.SelectPrice(q.city);
        if q.city in cache {
          price := cache[q.city];
        }
        var fee := FeeCents(price, minutes);
        MinutesInSeconds(now, createdAt, minutes);
        FeeInCents(price, minutes, fee);
        UpdateClose(id, minutes, fee, now);
        replies := replies + 1;
        o := Closed(price, minutes, fee);
      }
    }

    /** One complete frame: the body of run_loop after the read. */
    method HandleFrame(f: Frame) returns (o: Outcome)
      requires Valid(rows)
      modifies this
      ensures (State(), o) == ApplyFrame(old(State()), f)
      ensures Valid(rows)
      ensures replies == old(replies) + if o.Closed? then 1 else 0
    {
      FrameKeepsValid(State(), f);
      var x, y := Round3(f.x), Round3(f.y);
      var city := table.SelectCity(x, y);
      var q := Query(f.device, city, x, y);
      o := Ignored;
      if f.status == OPEN {
        o := StartParking(q, f.now);
      } else if f.status == CLOSED {
        o := EndParking(q, f.now);
      }
    }

    /** A reload as one uninterrupted whole: the file into the table, then shared memory into the cache. */
    method Reload(lines: Listing, shm: map<int, int>)
      modifies this, table
      ensures rows == old(rows) && replies == old(replies)
      ensures table.rows == PutAll(old(table.rows), lines, None, 0.0, 0.0)
      ensures cache == shm
    {
      cache := table.MergeFile(lines, cache);
      cache := shm;
    }

    /** Frames and reloads, one after the other, are the run of the corresponding events. */
    method Serve(acts: seq<Action>) returns (os: seq<Outcome>)
      requires Valid(rows)
      modifies this, table
      ensures Valid(rows)
      ensures (State(), os) == Run(old(State()), EventsOf(old(table.rows), acts))
      ensures replies == old(replies) + TallyOf(os).closes
    {
      os := [];
      var i := 0;
      ghost var start := State();
      assert acts[0..] == acts;
      StartContinues(start, acts);
      while i < |acts|
        invariant 0 <= i <= |acts|
        invariant Valid(rows)
        invariant Continues(start, acts, State(), acts[i..], os)
        invariant replies == old(replies) + TallyOf(os).closes
      {
        ghost var before := State();
        match acts[i] {
          case Receive(f) =>
            var o := HandleFrame(f);
            FrameStep(start, acts, i, before, os);
            CloseCounts(os, o);
            os := os + [o];
          case ReloadFrom(lines, shm) =>
            Reload(lines, shm);
            ReloadStep(start, acts, i, before, os);
        }
        i := i + 1;
      }
      EndContinues(start, acts, State(), os);
    }
  }

  datatype Action = Receive(frame: Frame) | ReloadFrom(lines: Listing, shm: map<int, int>)

  /** The ledger events of a stretch of server work that starts with the given prices table. */
  function EventsOf(prices: seq<PriceRow>, acts: seq<Action>): seq<Event>
    decreases acts
  {
    if acts == [] then []
    else
      match acts[0]
      case Receive(f) => [Arrive(f)] + EventsOf(prices, acts[1..])
      case ReloadFrom(lines, shm) =>
        var after := PutAll(prices, lines, None, 0.0, 0.0);
        [Reprice(after, shm)] + EventsOf(after, acts[1..])
  }

  /** Having done the difference between all and rest, with outcomes os, leads from start to now. */
  ghost predicate Continues(start: Db, all: seq<Action>, now: Db, rest: seq<Action>, os: seq<Outcome>) {
    var whole := Run(start, EventsOf(start.prices, all));
    var left := Run(now, EventsOf(now.prices, rest));
    whole.0 == left.0 && whole.1 == os + left.1
  }

  lemma StartContinues(start: Db, all: seq<Action>)
    ensures Continues(start, all, start, all, [])
  { }

  lemma EndContinues(start: Db, all: seq<Action>, now: Db, os: seq<Outcome>)
    requires Continues(start, all, now, [], os)
    ensures Run(start, EventsOf(start.prices, all)) == (now, os)
  {
    assert os + [] == os;
  }

  lemma FrameContinues(db: Db, f: Frame, rest: seq<Action>)
    ensures var (after, o) := ApplyFrame(db, f);
            Continues(db, [Receive(f)] + rest, after, rest, [o])
  { }

  lemma ReloadContinues(db: Db, lines: Listing, shm: map<int, int>, rest: seq<Action>)
    ensures Continues(db, [ReloadFrom(lines, shm)] + rest,
                      Db(db.rows, PutAll(db.prices, lines, None, 0.0, 0.0), shm), rest, [])
  { }

  lemma ContinuesCompose(a: Db, all: seq<Action>, b: Db, mid: seq<Action>, os1: seq<Outcome>,
                         c: Db, rest: seq<Action>, os2: seq<Outcome>)
    requires Continues(a, all, b, mid, os1) && Continues(b, mid, c, rest, os2)
    ensures Continues(a, all, c, rest, os1 + os2)
  {
    var left := Run(c, EventsOf(c.prices, rest)).1;
    assert os1 + (os2 + left) == (os1 + os2) + left;
  }

  /** The answer to action i, a frame, takes the run one action further. */
  lemma FrameStep(start: Db, acts: seq<Action>, i: nat, before: Db, os: seq<Outcome>)
    requires i < |acts| && acts[i].Receive? && Continues(start, acts, before, acts[i..], os)
    ensures var (after, o) := ApplyFrame(before, acts[i].frame);
            Continues(start, acts, after, acts[i + 1..], os + [o])
  {
    var (after, o) := ApplyFrame(before, acts[i].frame);
    assert acts[i..] == [acts[i]] + acts[i + 1..];
    FrameContinues(before, acts[i].frame, acts[i + 1..]);
    ContinuesCompose(start, acts, before, acts[i..], os, after, acts[i + 1..], [o]);
  }

  /** So does action i, a reload. */
  lemma ReloadStep(start: Db, acts: seq<Action>, i: nat, before: Db, os: seq<Outcome>)
    requires i < |acts| && acts[i].ReloadFrom? && Continues(start, acts, before, acts[i..], os)
    ensures Continues(start, acts, Db(before.rows, PutAll(before.prices, acts[i].lines, None, 0.0, 0.0), acts[i].shm),
                      acts[i + 1..], os)
  {
    var after := Db(before.rows, PutAll(before.prices, acts[i].lines, None, 0.0, 0.0), acts[i].shm);
    assert acts[i..] == [acts[i]] + acts[i + 1..];
    ReloadContinues(before, acts[i].lines, acts[i].shm, acts[i + 1..]);
    ContinuesCompose(start, acts, before, acts[i..], os, after, acts[i + 1..], []);
    assert os + [] == os;
  }

  lemma CloseCounts(os: seq<Outcome>, o: Outcome)
    ensures TallyOf(os + [o]).closes == TallyOf(os).closes + if o.Closed? then 1 else 0
  {
    TallyAppend(os, [o]);
    TallySingle(o);
    PlusCloses(TallyOf(os), o);
  }
}
