/** The exactly keyed table behaves as a map of open sessions and a ticket log. */
module LedgerRefinement {
  import opened Options
  import opened Octets
  import opened Ledger
  import opened Sessions

  datatype Ticket = Ticket(key: Key, createdAt: int, endedAt: Option<int>, minutes: int, fee: int)

  /** The simple system: who is parked since when, and the tickets in the order they were issued. */
  datatype Book = Book(open: map<Key, int>, log: seq<Ticket>)

  function BookStep(b: Book, k: Key, status: UInt16, now: int, price: int): (Book, Outcome) {
    if status == OPEN then
      if k in b.open then (b, AlreadyOpen)
      else (b.(open := b.open[k := now]), Opened)
    else if status == CLOSED then
      if k !in b.open then (b, NothingOpen)
      else
        var minutes := Minutes(now, b.open[k]);
        var fee := FeeCents(price, minutes);
        (Book(b.open - {k}, b.log + [Ticket(k, b.open[k], Some(now), minutes, fee)]), Closed(price, minutes, fee))
    else (b, Ignored)
  }

  function BookRun(b: Book, env: Env, es: seq<Event>): (Book, seq<Outcome>)
    decreases es
  {
    if es == [] then (b, [])
    else
      match es[0]
      case Arrive(f) =>
        var k := FrameKey(env.prices, f);
        var (b1, o) := BookStep(b, k, f.status, f.now, PriceIn(env, k));
        var (b2, os) := BookRun(b1, env, es[1..]);
        (b2, [o] + os)
      case Reprice(p, c) => BookRun(b, Env(p, c), es[1..])
  }

  /** The ticket a closed session amounts to. */
  function TicketOf(s: Session): multiset<Ticket> {
    if s.status == OPEN then multiset{} else multiset{Ticket(s.key, s.createdAt, s.endedAt, s.minutes, s.fee)}
  }

  function TicketsOf(ss: seq<Session>): multiset<Ticket> {
    if ss == [] then multiset{} else TicketsOf(ss[..|ss| - 1]) + TicketOf(ss[|ss| - 1])
  }

  ghost predicate Refines(ss: seq<Session>, b: Book) {
    && (forall i :: 0 <= i < |ss| && ss[i].status == OPEN ==>
          ss[i].key in b.open && b.open[ss[i].key] == ss[i].createdAt)
    && (forall k :: k in b.open ==> Find(ss, k).Some?)
    && TicketsOf(ss) == multiset(b.log)
  }

  lemma Commute<T>(a: multiset<T>, b: multiset<T>, c: multiset<T>)
    ensures (a + b) + c == (a + c) + b
  {
  }

  lemma Exchange<T>(a: multiset<T>, b: multiset<T>, c: multiset<T>, d: multiset<T>, e: multiset<T>)
    requires a + b == c + d
    ensures (a + e) + b == (c + e) + d
  {
    assert (a + e) + b == (a + b) + e;
  }

  lemma {:induction false} TicketsUpdate(ss: seq<Session>, i: nat, s: Session)
    requires i < |ss|
    ensures TicketsOf(ss[i := s]) + TicketOf(ss[i]) == TicketsOf(ss) + TicketOf(s)
  {
    var n := |ss| - 1;
    if i == n {
      assert ss[i := s][..n] == ss[..n];
      Commute(TicketsOf(ss[..n]), TicketOf(s), TicketOf(ss[n]));
    } else {
      TicketsUpdate(ss[..n], i, s);
      LastUnchanged(ss, i, s);
      TicketsBelow(TicketsOf(ss[..n][i := s]), TicketsOf(ss[..n]), ss[i], s, TicketOf(ss[n]));
    }
  }

  lemma LastUnchanged(ss: seq<Session>, i: nat, s: Session)
    requires i < |ss| - 1
    ensures TicketsOf(ss[i := s]) == TicketsOf(ss[..|ss| - 1][i := s]) + TicketOf(ss[|ss| - 1])
  {
    assert ss[i := s][..|ss| - 1] == ss[..|ss| - 1][i := s];
  }

  lemma TicketsBelow(changed: multiset<Ticket>, init: multiset<Ticket>, r: Session, s: Session, last: multiset<Ticket>)
    requires changed + TicketOf(r) == init + TicketOf(s)
    ensures (changed + last) + TicketOf(r) == (init + last) + TicketOf(s)
  {
    Exchange(changed, TicketOf(r), init, TicketOf(s), last);
  }

  /** Closing a session adds its ticket. */
  lemma ClosingAddsTicket(ss: seq<Session>, i: nat, s: Session)
    requires i < |ss| && ss[i].status == OPEN
    ensures TicketsOf(ss[i := s]) == TicketsOf(ss) + TicketOf(s)
  {
    TicketsUpdate(ss, i, s);
    assert TicketsOf(ss[i := s]) + multiset{} == TicketsOf(ss[i := s]);
  }

  lemma StartRefines(ss: seq<Session>, b: Book, k: Key, now: int, price: int)
    requires UniqueOpen(ss) && Refines(ss, b)
    ensures Refines(Signal(ss, k, OPEN, now, price).0, BookStep(b, k, OPEN, now, price).0)
    ensures Signal(ss, k, OPEN, now, price).1 == BookStep(b, k, OPEN, now, price).1
  {
    if k !in b.open {
      var after := ss + [NewSession(k, now)];
      assert after[..|ss|] == ss;
      forall k' | k' in b.open[k := now]
        ensures Find(after, k').Some?
      {
        if k' == k {
          assert OpenFor(after[|ss|], k);
        } else {
          assert OpenFor(after[Find(ss, k').value], k');
        }
      }
    }
  }

  lemma LogGrows(log: seq<Ticket>, t: Ticket)
    ensures multiset(log + [t]) == multiset(log) + multiset{t}
  {
  }

  lemma EndRefines(ss: seq<Session>, b: Book, k: Key, now: int, price: int)
    requires UniqueOpen(ss) && Refines(ss, b)
    ensures Refines(Signal(ss, k, CLOSED, now, price).0, BookStep(b, k, CLOSED, now, price).0)
    ensures Signal(ss, k, CLOSED, now, price).1 == BookStep(b, k, CLOSED, now, price).1
  {
    if k in b.open {
      var i := Find(ss, k).value;
      var s := EndSession(ss[i], now, price);
      var after := ss[i := s];
      ClosingAddsTicket(ss, i, s);
      LogGrows(b.log, Ticket(k, b.open[k], Some(now), s.minutes, s.fee));
      forall k' | k' in b.open && k' != k
        ensures Find(after, k').Some?
      {
        assert OpenFor(after[Find(ss, k').value], k');
      }
    }
  }

  /** Every run of the table is the run of the book: same answers, same open sessions, same tickets, log only
      extended. */
  lemma {:induction false} RunRefines(ss: seq<Session>, env: Env, es: seq<Event>, b: Book)
    requires UniqueOpen(ss) && Refines(ss, b)
    ensures Refines(SessionRun(ss, env, es).0, BookRun(b, env, es).0)
    ensures SessionRun(ss, env, es).1 == BookRun(b, env, es).1
    ensures b.log <= BookRun(b, env, es).0.log
    decreases es
  {
    if es != [] {
      match es[0]
      case Arrive(f) =>
        var k := FrameKey(env.prices, f);
        var price := PriceIn(env, k);
        if f.status == OPEN {
          StartRefines(ss, b, k, f.now, price);
        } else if f.status == CLOSED {
          EndRefines(ss, b, k, f.now, price);
        }
        SignalKeepsUnique(ss, k, f.status, f.now, price);
        RunRefines(SessionStep(ss, env, f).0, env, es[1..], BookStep(b, k, f.status, f.now, price).0);
      case Reprice(p, c) =>
        RunRefines(ss, Env(p, c), es[1..], b);
    }
  }

  /** The book of a table: its open rows as a map, its closed rows as a log in row order. */
  function BookOf(ss: seq<Session>): Book {
    if ss == [] then Book(map[], [])
    else
      var b := BookOf(ss[..|ss| - 1]);
      var s := ss[|ss| - 1];
      if s.status == OPEN then b.(open := b.open[s.key := s.createdAt])
      else b.(log := b.log + [Ticket(s.key, s.createdAt, s.endedAt, s.minutes, s.fee)])
  }

  lemma {:induction false} BookOfOpenIsFound(ss: seq<Session>)
    ensures forall k :: k in BookOf(ss).open ==> Find(ss, k).Some?
  {
    if ss != [] {
      BookOfOpenIsFound(ss[..|ss| - 1]);
    }
  }

  lemma {:induction false} BookOfHasOpen(ss: seq<Session>)
    requires UniqueOpen(ss)
    ensures forall i :: 0 <= i < |ss| && ss[i].status == OPEN ==>
              ss[i].key in BookOf(ss).open && BookOf(ss).open[ss[i].key] == ss[i].createdAt
  {
    if ss != [] {
      var n := |ss| - 1;
      BookOfHasOpen(ss[..n]);
      assert forall i :: 0 <= i < n ==> ss[..n][i] == ss[i];
    }
  }

  lemma {:induction false} BookOfTickets(ss: seq<Session>)
    ensures TicketsOf(ss) == multiset(BookOf(ss).log)
  {
    if ss != [] {
      BookOfTickets(ss[..|ss| - 1]);
    }
  }

  /** Any table with unique open keys has a book that describes it. */
  lemma BookOfRefines(ss: seq<Session>)
    requires UniqueOpen(ss)
    ensures Refines(ss, BookOf(ss))
  {
    BookOfOpenIsFound(ss);
    BookOfHasOpen(ss);
    BookOfTickets(ss);
  }

  /** The server's table, from any valid start and over any run, refines the book. */
  lemma {:induction false} LedgerRefinesBook(db: Db, es: seq<Event>)
    requires Valid(db.rows)
    ensures var (after, os) := Run(db, es);
            var start := BookOf(SessionsOf(db.rows));
            var (b, bos) := BookRun(start, Env(db.prices, db.cache), es);
            && Valid(after.rows)
            && Refines(SessionsOf(after.rows), b)
            && os == bos
            && start.log <= b.log
  {
    RunKeepsValid(db, es);
    ValidIsUnique(db.rows);
    BookOfRefines(SessionsOf(db.rows));
    RunIsSessionRun(db, es);
    RunRefines(SessionsOf(db.rows), Env(db.prices, db.cache), es, BookOf(SessionsOf(db.rows)));
  }
}
