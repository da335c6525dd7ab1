/** Cutting a TCP byte stream into 12-byte frames under arbitrary chunking and signals. */
module Framing {
  import opened Options
  import opened Octets

  /** What one recv does. Data carries how much the kernel is willing to hand over. */
  datatype Recv = Data(size: nat) | Intr | Again(hup: bool) | Eof | Fail

  /** One turn of the read loop: what the two flags show, then the recv. Again also says whether the
      update flag shows during the five short sleeps. */
  datatype Turn = Turn(stop: bool, hup: bool, recv: Recv)

  /** How a read ends. Waiting means the observation ends inside the loop. */
  datatype Result = Count(n: nat) | Error | Update | Waiting

  function Min(a: nat, b: nat): nat {
    if a < b then a else b
  }

  /** Bytes one recv delivers: at least one if any are there, never more than asked for. */
  function Taken(size: nat, wanted: nat, left: nat): (r: nat)
    ensures r <= wanted && r <= left
    ensures size > 0 && wanted > 0 && left > 0 ==> r > 0
  {
    Min(size, Min(wanted, left))
  }

  /** read_n_nonblocking as a function of the script: the bytes consumed and the way it ends. */
  function ReadSpec(turns: seq<Turn>, left: nat, got: nat, n: nat): (nat, Result)
    decreases turns
  {
    if got >= n then (0, Count(got))
    else if turns == [] then (0, Waiting)
    else
      var t := turns[0];
      if t.stop then (0, Error)
      else if t.hup then (0, Update)
      else
        match t.recv
        case Data(size) =>
          var r := Taken(size, n - got, left);
          var (more, result) := ReadSpec(turns[1..], left - r, got + r, n);
          (r + more, result)
        case Eof => (0, Count(got))
        case Intr => ReadSpec(turns[1..], left, got, n)
        case Again(hup) => if hup then (0, Update) else ReadSpec(turns[1..], left, got, n)
        case Fail => (0, Error)
  }

  /** A read never takes more than it asks for, a full count means exactly n bytes,
      and a short count is all that was taken. */
  lemma {:induction false} ReadBounds(turns: seq<Turn>, left: nat, got: nat, n: nat)
    requires got <= n
    ensures var (taken, result) := ReadSpec(turns, left, got, n);
            && got + taken <= n && taken <= left
            && (result.Count? ==> result.n == got + taken)
            && (result == Error || result == Update || result == Waiting ==> got + taken < n)
    decreases turns
  {
    if got < n && turns != [] && !turns[0].stop && !turns[0].hup {
      match turns[0].recv
      case Data(size) =>
        var r := Taken(size, n - got, left);
        ReadBounds(turns[1..], left - r, got + r, n);
      case Intr => ReadBounds(turns[1..], left, got, n);
      case Again(hup) => ReadBounds(turns[1..], left, got, n);
      case _ =>
    }
  }

  /** What a read that already has got bytes consumes in all. */
  function CountedWith(got: nat, read: (nat, Result)): (nat, Result) {
    (got + read.0, read.1)
  }

  /** One turn of the read loop. */
  lemma ReadUnfolds(turns: seq<Turn>, i: nat, left: nat, got: nat, n: nat)
    requires i < |turns| && got < n
    ensures var t := turns[i];
            ReadSpec(turns[i..], left, got, n) ==
            if t.stop then (0, Error)
            else if t.hup then (0, Update)
            else
              match t.recv
              case Data(size) =>
                var r := Taken(size, n - got, left);
                var (more, result) := ReadSpec(turns[i + 1..], left - r, got + r, n);
                (r + more, result)
              case Eof => (0, Count(got))
              case Intr => ReadSpec(turns[i + 1..], left, got, n)
              case Again(hup) => if hup then (0, Update) else ReadSpec(turns[i + 1..], left, got, n)
              case Fail => (0, Error)
  {
    assert turns[i..][0] == turns[i] && turns[i..][1..] == turns[i + 1..];
  }

  class Connection {
    const stream: seq<Byte>
    var pos: nat

    constructor (bytes: seq<Byte>)
      ensures stream == bytes && pos == 0
    {
      stream, pos := bytes, 0;
    }

    /** read_n_nonblocking: fill buf from the stream, advancing got. */
    method ReadN(buf: array<Byte>, turns: seq<Turn>) returns (result: Result)
      requires pos <= |stream|
      modifies this, buf
      ensures old(pos) <= pos <= |stream|
      ensures (pos - old(pos), result) == ReadSpec(turns, |stream| - old(pos), 0, buf.Length)
      ensures pos - old(pos) <= buf.Length
      ensures buf[..pos - old(pos)] == stream[old(pos)..pos]
    {
      var got: nat := 0;
      var i: nat := 0;
      ghost var start, n := pos, buf.Length;
      ghost var whole := ReadSpec(turns, |stream| - pos, 0, n);
      assert turns[0..] == turns;
      while got < buf.Length
        invariant 0 <= i <= |turns|
        invariant got <= buf.Length
        invariant pos == start + got <= |stream|
        invariant buf[..got] == stream[start..pos]
        invariant whole == CountedWith(got, ReadSpec(turns[i..], |stream| - pos, got, n))
        decreases |turns| - i
      {
        if i == |turns| {
          return Waiting;
        }
        var r, done := Step(buf, turns, i, got, start, whole);
        if done.Some? {
          return done.value;
        }
        got := got + r;
        i := i + 1;
      }
      result := Count(got);
    }

    /** One turn of the read loop: the bytes received, and the result if the turn ends the read. */
    method Step(buf: array<Byte>, turns: seq<Turn>, i: nat, got: nat, ghost start: nat, ghost whole: (nat, Result))
      returns (r: nat, done: Option<Result>)
      requires i < |turns| && got < buf.Length && pos == start + got <= |stream| && buf[..got] == stream[start..pos]
      requires whole == CountedWith(got, ReadSpec(turns[i..], |stream| - pos, got, buf.Length))
      modifies this, buf
      ensures pos == start + got + r <= |stream| && got + r <= buf.Length && buf[..got + r] == stream[start..pos]
      ensures done.Some? ==> r == 0 && whole == (got, done.value)
      ensures done.None? ==>
                whole == CountedWith(got + r, ReadSpec(turns[i + 1..], |stream| - pos, got + r, buf.Length))
    {
      r, done := 0, None;
      var t := turns[i];
      ReadUnfolds(turns, i, |stream| - pos, got, buf.Length);
      if t.stop {
        return 0, Some(Error);
      }
      if t.hup {
        return 0, Some(Update);
      }
      match t.recv {
        case Data(size) =>
          r := Taken(size, buf.Length - got, |stream| - pos);
          Advance(buf, start, got, r);
        case Eof =>
          done := Some(Count(got));
        case Intr =>
        case Again(hup) =>
          done := if hup then Some(Update) else None;
        case Fail =>
          done := Some(Error);
      }
    }

    /** The buffer holds what was read from start on, and after a recv still does. */
    method Advance(buf: array<Byte>, ghost start: nat, got: nat, r: nat)
      requires got + r <= buf.Length && pos == start + got && pos + r <= |stream|
      requires buf[..got] == stream[start..pos]
      modifies this, buf
      ensures pos == old(pos) + r
      ensures buf[..got + r] == stream[start..pos]
    {
      Receive(buf, got, r);
      assert stream[start..pos] == stream[start..old(pos)] + stream[old(pos)..pos];
    }

    /** recv: copy r bytes to buf[got..]. */
    method Receive(buf: array<Byte>, got: nat, r: nat)
      requires got + r <= buf.Length && pos + r <= |stream|
      modifies this, buf
      ensures pos == old(pos) + r
      ensures buf[..got + r] == old(buf[..got]) + stream[old(pos)..pos]
    {
      var j := 0;
      while j < r
        invariant 0 <= j <= r
        invariant pos == old(pos)
        invariant forall k :: 0 <= k < got ==> buf[k] == old(buf[k])
        invariant forall k :: got <= k < got + j ==> buf[k] == stream[pos + k - got]
      {
        buf[got + j] := stream[pos + j];
        j := j + 1;
      }
      pos := pos + r;
      assert buf[..got] == old(buf[..got]);
      assert buf[got..got + r] == stream[old(pos)..pos];
      assert buf[..got + r] == buf[..got] + buf[got..got + r];
    }

    /** One turn of the per-client loop: read, and decide what to make of the count. A short count is not an error
        to it: whatever is above zero is taken for a frame. */
    method Judge(call: Call) returns (items: seq<Item>, goesOn: bool)
      requires pos <= |stream| && !call.stop
      modifies this
      ensures old(pos) <= pos
      ensures var (taken, result) := ReadSpec(call.turns, |stream| - old(pos), 0, FRAME_SIZE);
              && pos == old(pos) + taken <= |stream|
              && items == OnceSpec(call, result, stream[old(pos)..pos])
              && goesOn == GoesOn(result)
              && (goesOn <==> result != Error && result != Waiting && result != Count(0))
    {
      items := if call.hup then [Reloaded] else [];
      var raw := new Byte[FRAME_SIZE](_ => 0);
      var before := pos;
      var result := ReadN(raw, call.turns);
      var bytes := raw[..pos - before];
      ReadBounds(call.turns, |stream| - before, 0, FRAME_SIZE);
      goesOn := true;
      match result {
        case Update => items := items + [Dropped(bytes), Reloaded];
        case Error => items, goesOn := items + [Dropped(bytes)], false;
        case Waiting => items, goesOn := items + [Partial(bytes)], false;
        case Count(n) =>
          if n == 0 {
            items, goesOn := items + [], false;
          } else {
            items := items + [if n == FRAME_SIZE then Full(bytes) else Short(bytes)];
          }
      }
    }

    /** Turn i of a session of which items is what came before. */
    method Once(calls: seq<Call>, i: nat, ghost whole: seq<Item>, ghost items: seq<Item>)
      returns (more: seq<Item>, goesOn: bool)
      requires i < |calls| && !calls[i].stop && pos <= |stream| && Ahead(whole, items, true, calls[i..], stream, pos)
      modifies this
      ensures pos <= |stream| && Ahead(whole, items + more, goesOn, calls[i + 1..], stream, pos)
    {
      ghost var before := pos;
      more, goesOn := Judge(calls[i]);
      TailOf(calls, i);
      ghost var read := ReadSpec(calls[i].turns, |stream| - before, 0, FRAME_SIZE);
      SessionGrows(whole, items, calls[i..], stream, before, read.0, read.1, more);
    }

    /** The per-client loop of run_loop, until the client goes, the server stops or the observation ends. */
    method Session(calls: seq<Call>) returns (items: seq<Item>)
      requires pos == 0
      modifies this
      ensures items == SessionSpec(calls, stream, 0)
      ensures pos == Total(items) <= |stream|
      ensures forall k :: MakesCalls(calls, |stream|, k) ==> CallsMade(items, calls, stream, k)
      ensures AllBringTwelve(calls) && 12 * |calls| <= |stream| ==> items == Twelves(stream, |calls|)
    {
      items := [];
      var i := 0;
      var goesOn := true;
      ghost var whole := SessionSpec(calls, stream, 0);
      assert calls[0..] == calls;
      while i < |calls| && goesOn
        invariant 0 <= i <= |calls|
        invariant pos <= |stream|
        invariant Ahead(whole, items, goesOn, calls[i..], stream, pos)
        decreases |calls| - i, goesOn
      {
        if calls[i].stop {
          goesOn := false;
        } else {
          var more;
          more, goesOn := Once(calls, i, whole, items);
          items := items + more;
          i := i + 1;
        }
      }
      assert goesOn ==> calls[i..] == [];
      SessionTold(calls, stream, items);
    }
  }

  /** One turn of the per-client loop: the flags at its head, then the turns of its read. */
  datatype Call = Call(stop: bool, hup: bool, turns: seq<Turn>)

  /** What a session did with the bytes, in order. Partial is a read still under way. */
  datatype Item =
    | Full(bytes: seq<Byte>)
    | Short(bytes: seq<Byte>)
    | Dropped(bytes: seq<Byte>)
    | Partial(bytes: seq<Byte>)
    | Reloaded

  /** What the loop makes of one read. */
  function ItemsOf(result: Result, bytes: seq<Byte>): seq<Item> {
    match result
    case Update => [Dropped(bytes), Reloaded]
    case Error => [Dropped(bytes)]
    case Waiting => [Partial(bytes)]
    case Count(n) =>
      if n == 0 then [] else if n == FRAME_SIZE then [Full(bytes)] else [Short(bytes)]
  }

  /** Whether the client stays connected after a read. */
  predicate GoesOn(result: Result) {
    result == Update || (result.Count? && result.n > 0)
  }

  function OnceSpec(call: Call, result: Result, bytes: seq<Byte>): seq<Item> {
    (if call.hup then [Reloaded] else []) + ItemsOf(result, bytes)
  }

  function SessionSpec(calls: seq<Call>, stream: seq<Byte>, pos: nat): seq<Item>
    requires pos <= |stream|
    decreases calls
  {
    if calls == [] || calls[0].stop then []
    else
      var (taken, result) := ReadSpec(calls[0].turns, |stream| - pos, 0, FRAME_SIZE);
      ReadBounds(calls[0].turns, |stream| - pos, 0, FRAME_SIZE);
      OnceSpec(calls[0], result, stream[pos..pos + taken]) +
      if GoesOn(result) then SessionSpec(calls[1..], stream, pos + taken) else []
  }

  lemma SpecUnfolds(calls: seq<Call>, stream: seq<Byte>, pos: nat)
    requires pos <= |stream| && calls != [] && !calls[0].stop
    ensures var (taken, result) := ReadSpec(calls[0].turns, |stream| - pos, 0, FRAME_SIZE);
            pos + taken <= |stream|
            && SessionSpec(calls, stream, pos) ==
               OnceSpec(calls[0], result, stream[pos..pos + taken]) +
               if GoesOn(result) then SessionSpec(calls[1..], stream, pos + taken) else []
  {
    ReadBounds(calls[0].turns, |stream| - pos, 0, FRAME_SIZE);
  }

  function Bytes(item: Item): seq<Byte> {
    match item
    case Full(b) => b
    case Short(b) => b
    case Dropped(b) => b
    case Partial(b) => b
    case Reloaded => []
  }

  /** The bytes of the items, one after the other. */
  function Flat(items: seq<Item>): seq<Byte> {
    if items == [] then [] else Bytes(items[0]) + Flat(items[1..])
  }

  function Total(items: seq<Item>): nat {
    |Flat(items)|
  }

  lemma {:induction false} FlatAppend(a: seq<Item>, b: seq<Item>)
    ensures Flat(a + b) == Flat(a) + Flat(b)
  {
    if a == [] {
      assert a + b == b;
    } else {
      assert (a + b)[1..] == a[1..] + b;
      FlatAppend(a[1..], b);
    }
  }

  function CountFull(items: seq<Item>): nat {
    if items == [] then 0 else (if items[0].Full? then 1 else 0) + CountFull(items[1..])
  }

  /** The bytes that went into no full frame. */
  function Lost(items: seq<Item>): nat {
    if items == [] then 0 else (if items[0].Full? then 0 else |Bytes(items[0])|) + Lost(items[1..])
  }

  /** Full frames have twelve bytes, everything else fewer. */
  predicate WellSized(items: seq<Item>) {
    forall i :: 0 <= i < |items| ==>
      (items[i].Full? ==> |items[i].bytes| == FRAME_SIZE) && (!items[i].Full? ==> |Bytes(items[i])| < FRAME_SIZE)
  }

  /** One turn, with everything about the read forgotten but where it ended. */
  lemma TurnLeads(calls: seq<Call>, stream: seq<Byte>, pos: nat)
    returns (items: seq<Item>, mid: nat, goesOn: bool)
    requires pos <= |stream| && calls != [] && !calls[0].stop
    ensures pos <= mid <= |stream| && Flat(items) == stream[pos..mid] && WellSized(items)
    ensures SessionSpec(calls, stream, pos) == items + if goesOn then SessionSpec(calls[1..], stream, mid) else []
  {
    SpecUnfolds(calls, stream, pos);
    var taken, result := ReadOf(calls[0], |stream| - pos);
    mid, goesOn := pos + taken, GoesOn(result);
    items := ItemsOfCall(calls[0], |stream| - pos, stream[pos..mid], result);
  }

  lemma ReadOf(call: Call, left: nat) returns (taken: nat, result: Result)
    ensures (taken, result) == ReadSpec(call.turns, left, 0, FRAME_SIZE) && taken <= left
  {
    taken, result := ReadSpec(call.turns, left, 0, FRAME_SIZE).0, ReadSpec(call.turns, left, 0, FRAME_SIZE).1;
    ReadBounds(call.turns, left, 0, FRAME_SIZE);
  }

  lemma ItemsOfCall(call: Call, left: nat, bytes: seq<Byte>, result: Result) returns (items: seq<Item>)
    requires (|bytes|, result) == ReadSpec(call.turns, left, 0, FRAME_SIZE)
    ensures items == OnceSpec(call, result, bytes) && Flat(items) == bytes && WellSized(items)
  {
    items := OnceSpec(call, result, bytes);
    OnceBytes(call, left, bytes);
  }

  /** The session so far and, if it goes on, what is ahead of it make the whole. */
  ghost predicate Ahead(whole: seq<Item>, items: seq<Item>, goesOn: bool, calls: seq<Call>, stream: seq<Byte>, pos: nat)
    requires pos <= |stream|
  {
    && whole == items + (if goesOn then SessionSpec(calls, stream, pos) else [])
    && pos == Total(items)
  }

  /** What Judge makes of the next call takes the session one call further. */
  lemma SessionGrows(whole: seq<Item>, items: seq<Item>, tail: seq<Call>, stream: seq<Byte>, pos: nat,
                     taken: nat, result: Result, more: seq<Item>)
    requires tail != [] && !tail[0].stop && pos + taken <= |stream| && Ahead(whole, items, true, tail, stream, pos)
    requires (taken, result) == ReadSpec(tail[0].turns, |stream| - pos, 0, FRAME_SIZE)
    requires more == OnceSpec(tail[0], result, stream[pos..pos + taken])
    ensures Ahead(whole, items + more, GoesOn(result), tail[1..], stream, pos + taken)
  {
    var head := SessionSpec(tail, stream, pos);
    var rest := if GoesOn(result) then SessionSpec(tail[1..], stream, pos + taken) else [];
    HeadOf(tail, stream, pos, taken, result, more, rest);
    ItemsGrow(whole, items, head, more, rest);
  }

  lemma HeadOf(tail: seq<Call>, stream: seq<Byte>, pos: nat, taken: nat, result: Result,
               more: seq<Item>, rest: seq<Item>)
    requires tail != [] && !tail[0].stop && pos + taken <= |stream|
    requires (taken, result) == ReadSpec(tail[0].turns, |stream| - pos, 0, FRAME_SIZE)
    requires more == OnceSpec(tail[0], result, stream[pos..pos + taken])
    requires rest == if GoesOn(result) then SessionSpec(tail[1..], stream, pos + taken) else []
    ensures SessionSpec(tail, stream, pos) == more + rest && |Flat(more)| == taken
  {
    SpecUnfolds(tail, stream, pos);
    OnceBytes(tail[0], |stream| - pos, stream[pos..pos + taken]);
  }

  lemma TailOf(calls: seq<Call>, i: nat)
    requires i < |calls|
    ensures calls[i..] != [] && calls[i..][0] == calls[i] && calls[i..][1..] == calls[i + 1..]
  {
  }

  lemma ItemsGrow(whole: seq<Item>, items: seq<Item>, head: seq<Item>, more: seq<Item>, rest: seq<Item>)
    requires whole == items + head && head == more + rest
    ensures whole == (items + more) + rest
    ensures Total(items + more) == Total(items) + |Flat(more)|
  {
    FlatAppend(items, more);
  }

  /** items lay out the stream from pos on, with frames of the right size. */
  ghost predicate Covers(items: seq<Item>, stream: seq<Byte>, pos: nat)
    requires pos <= |stream|
  {
    WellSized(items) && Flat(items) <= stream[pos..]
  }

  lemma CoversAppend(a: seq<Item>, b: seq<Item>, stream: seq<Byte>, pos: nat, mid: nat)
    requires pos <= mid <= |stream|
    requires WellSized(a) && Flat(a) == stream[pos..mid] && Covers(b, stream, mid)
    ensures Covers(a + b, stream, pos)
  {
    FlatAppend(a, b);
    WellSizedAppend(a, b);
    assert stream[pos..] == stream[pos..mid] + stream[mid..];
  }

  lemma {:induction false} SessionCovers(calls: seq<Call>, stream: seq<Byte>, pos: nat)
    requires pos <= |stream|
    ensures Covers(SessionSpec(calls, stream, pos), stream, pos)
    decreases calls
  {
    if calls != [] && !calls[0].stop {
      var items, mid, goesOn := TurnLeads(calls, stream, pos);
      if goesOn {
        SessionCovers(calls[1..], stream, mid);
        CoversAppend(items, SessionSpec(calls[1..], stream, mid), stream, pos, mid);
      } else {
        CoversAppend(items, [], stream, pos, mid);
      }
    }
  }

  lemma WellSizedAppend(a: seq<Item>, b: seq<Item>)
    requires WellSized(a) && WellSized(b)
    ensures WellSized(a + b)
  {
  }

  /** The items of one turn hold exactly the bytes its read took. */
  lemma OnceBytes(call: Call, left: nat, bytes: seq<Byte>)
    requires |bytes| == ReadSpec(call.turns, left, 0, FRAME_SIZE).0
    ensures var items := OnceSpec(call, ReadSpec(call.turns, left, 0, FRAME_SIZE).1, bytes);
            Flat(items) == bytes && WellSized(items)
  {
    var result := ReadSpec(call.turns, left, 0, FRAME_SIZE).1;
    ReadBounds(call.turns, left, 0, FRAME_SIZE);
    ItemsBytes(result, bytes);
    FlatAppend(if call.hup then [Reloaded] else [], ItemsOf(result, bytes));
    assert Flat([Reloaded]) == [];
  }

  lemma ItemsBytes(result: Result, bytes: seq<Byte>)
    requires result.Count? ==> result.n == |bytes|
    ensures Flat(ItemsOf(result, bytes)) == bytes
  {
    FlatOne(Full(bytes));
    FlatOne(Short(bytes));
    FlatOne(Dropped(bytes));
    FlatOne(Partial(bytes));
    FlatOne(Reloaded);
    FlatAppend([Dropped(bytes)], [Reloaded]);
    assert [Dropped(bytes)] + [Reloaded] == [Dropped(bytes), Reloaded];
  }

  lemma FlatOne(item: Item)
    ensures Flat([item]) == Bytes(item)
  { }

  lemma {:induction false} Accounting(items: seq<Item>)
    requires WellSized(items)
    ensures Total(items) == FRAME_SIZE * CountFull(items) + Lost(items)
  {
    if items != [] {
      Accounting(items[1..]);
    }
  }

  /** Every byte received is in a full frame, in an abandoned prefix, in a cut-off last frame or in the read under
      way. */
  lemma {:induction false} EveryByteAccounted(calls: seq<Call>, stream: seq<Byte>)
    ensures var items := SessionSpec(calls, stream, 0);
            && Total(items) <= |stream|
            && Flat(items) <= stream
            && Total(items) == FRAME_SIZE * CountFull(items) + Lost(items)
  {
    SessionCovers(calls, stream, 0);
    Accounting(SessionSpec(calls, stream, 0));
    assert stream[0..] == stream;
  }

  lemma FlatSlice(items: seq<Item>, j: nat)
    requires j < |items|
    ensures Total(items[..j]) + |Bytes(items[j])| <= Total(items)
    ensures Flat(items)[Total(items[..j])..Total(items[..j]) + |Bytes(items[j])|] == Bytes(items[j])
  {
    var a, b, c := items[..j], [items[j]], items[j + 1..];
    assert items == a + (b + c);
    FlatAppend(a, b + c);
    FlatAppend(b, c);
    FlatOne(items[j]);
  }

  lemma FramesAlign(items: seq<Item>, stream: seq<Byte>, j: nat)
    requires Covers(items, stream, 0) && j < |items| && items[j].Full?
    ensures var start := FRAME_SIZE * CountFull(items[..j]) + Lost(items[..j]);
            start + FRAME_SIZE <= |stream| && items[j].bytes == stream[start..start + FRAME_SIZE]
  {
    FlatSlice(items, j);
    Accounting(items[..j]);
    assert stream[0..] == stream;
    PrefixSlice(Flat(items), stream, Total(items[..j]), FRAME_SIZE);
  }

  /** A full frame starts at twelve times its number plus whatever was lost before it. */
  lemma {:induction false} FrameAlignment(calls: seq<Call>, stream: seq<Byte>, items: seq<Item>, j: nat)
    requires items == SessionSpec(calls, stream, 0)
    requires j < |items| && items[j].Full?
    ensures var i := CountFull(items[..j]);
            var start := FRAME_SIZE * i + Lost(items[..j]);
            && start + FRAME_SIZE <= |stream|
            && items[j].bytes == stream[start..start + FRAME_SIZE]
  {
    SessionCovers(calls, stream, 0);
    FramesAlign(items, stream, j);
  }

  lemma PrefixSlice(flat: seq<Byte>, stream: seq<Byte>, start: nat, n: nat)
    requires flat <= stream && start + n <= |flat|
    ensures flat[start..start + n] == stream[start..start + n]
  {
  }

  predicate NothingLost(items: seq<Item>) {
    forall i :: 0 <= i < |items| ==> items[i].Full? || Bytes(items[i]) == []
  }

  lemma {:induction false} NothingLostIsZero(items: seq<Item>)
    ensures Lost(items) == 0 <==> NothingLost(items)
  {
    if items != [] {
      NothingLostIsZero(items[1..]);
      assert forall i :: 1 <= i < |items| ==> items[i] == items[1..][i - 1];
    }
  }

  /** While no read is abandoned half way, the frames are the consecutive twelves of the stream whatever the chunking.
      */
  lemma {:induction false} ChunkingDoesNotMatter(calls: seq<Call>, stream: seq<Byte>, items: seq<Item>, j: nat)
    requires items == SessionSpec(calls, stream, 0)
    requires j < |items| && items[j].Full?
    requires NothingLost(items[..j])
    ensures var i := CountFull(items[..j]);
            FRAME_SIZE * (i + 1) <= |stream| && items[j].bytes == stream[FRAME_SIZE * i..FRAME_SIZE * (i + 1)]
  {
    FrameAlignment(calls, stream, items, j);
    NothingLostIsZero(items[..j]);
  }

  // ---------- Who is to blame for a misplaced frame ----------

  /** Two sessions cut their streams at the same places. */
  ghost predicate SameCuts(a: seq<Item>, b: seq<Item>) {
    |a| == |b| && forall i :: 0 <= i < |a| ==> a[i].Full? == b[i].Full? && |Bytes(a[i])| == |Bytes(b[i])|
  }

  /** Where a session cuts does not depend on what the bytes are. */
  lemma {:induction false} CutsIgnoreContent(calls: seq<Call>, s: seq<Byte>, t: seq<Byte>, pos: nat)
    requires pos <= |s| == |t|
    ensures SameCuts(SessionSpec(calls, s, pos), SessionSpec(calls, t, pos))
    decreases calls
  {
    if calls != [] && !calls[0].stop {
      var taken, result := ReadOf(calls[0], |s| - pos);
      SpecUnfolds(calls, s, pos);
      SpecUnfolds(calls, t, pos);
      var goesOn := GoesOn(result);
      if goesOn {
        CutsIgnoreContent(calls[1..], s, t, pos + taken);
      }
      OnceCuts(calls[0], result, s[pos..pos + taken], t[pos..pos + taken]);
      CutsAppend(OnceSpec(calls[0], result, s[pos..pos + taken]), OnceSpec(calls[0], result, t[pos..pos + taken]),
                 if goesOn then SessionSpec(calls[1..], s, pos + taken) else [],
                 if goesOn then SessionSpec(calls[1..], t, pos + taken) else []);
    }
  }

  lemma OnceCuts(call: Call, result: Result, a: seq<Byte>, b: seq<Byte>)
    requires |a| == |b|
    ensures SameCuts(OnceSpec(call, result, a), OnceSpec(call, result, b))
  {
  }

  lemma CutsAppend(a: seq<Item>, b: seq<Item>, c: seq<Item>, d: seq<Item>)
    requires SameCuts(a, b) && SameCuts(c, d)
    ensures SameCuts(a + c, b + d)
  {
  }

  lemma {:induction false} SameCutsSameMeasures(a: seq<Item>, b: seq<Item>)
    requires SameCuts(a, b)
    ensures CountFull(a) == CountFull(b) && Lost(a) == Lost(b)
  {
    if a != [] {
      SameCutsSameMeasures(a[1..], b[1..]);
    }
  }

  /** Item j is a full frame and holds the i-th twelve bytes of the stream. */
  ghost predicate AlignedAt(calls: seq<Call>, stream: seq<Byte>, j: nat, i: nat) {
    var items := SessionSpec(calls, stream, 0);
    && j < |items| && items[j].Full? && FRAME_SIZE * (i + 1) <= |stream|
    && items[j].bytes == stream[FRAME_SIZE * i..FRAME_SIZE * (i + 1)]
  }

  lemma LossMeasures(calls: seq<Call>, s: seq<Byte>, t: seq<Byte>, j: nat)
    requires |s| == |t| && j < |SessionSpec(calls, s, 0)| && SessionSpec(calls, s, 0)[j].Full?
    ensures var a, b := SessionSpec(calls, s, 0), SessionSpec(calls, t, 0);
            j < |b| && b[j].Full? && CountFull(a[..j]) == CountFull(b[..j]) && Lost(a[..j]) == Lost(b[..j])
  {
    CutsIgnoreContent(calls, s, t, 0);
    SameCutsSameMeasures(SessionSpec(calls, s, 0)[..j], SessionSpec(calls, t, 0)[..j]);
  }

  /** One byte set where the frame should start. */
  function Marked(n: nat, p: nat): (s: seq<Byte>)
    ensures |s| == n && forall k :: 0 <= k < n ==> s[k] == if k == p then 1 else 0
  {
    seq(n, k => if k == p then 1 else 0)
  }

  lemma NothingLostAligns(calls: seq<Call>, stream: seq<Byte>, j: nat, s: seq<Byte>)
    requires j < |SessionSpec(calls, stream, 0)| && SessionSpec(calls, stream, 0)[j].Full? && |s| == |stream|
    requires NothingLost(SessionSpec(calls, stream, 0)[..j])
    ensures AlignedAt(calls, s, j, CountFull(SessionSpec(calls, stream, 0)[..j]))
  {
    LossMeasures(calls, stream, s, j);
    NothingLostIsZero(SessionSpec(calls, stream, 0)[..j]);
    NothingLostIsZero(SessionSpec(calls, s, 0)[..j]);
    ChunkingDoesNotMatter(calls, s, SessionSpec(calls, s, 0), j);
  }

  lemma LossMisaligns(calls: seq<Call>, stream: seq<Byte>, j: nat) returns (s: seq<Byte>)
    requires j < |SessionSpec(calls, stream, 0)| && SessionSpec(calls, stream, 0)[j].Full?
    requires Lost(SessionSpec(calls, stream, 0)[..j]) > 0
    ensures |s| == |stream| && !AlignedAt(calls, s, j, CountFull(SessionSpec(calls, stream, 0)[..j]))
  {
    var before := SessionSpec(calls, stream, 0)[..j];
    var p := FRAME_SIZE * CountFull(before);
    s := Marked(|stream|, p);
    LossMeasures(calls, stream, s, j);
    FrameAlignment(calls, s, SessionSpec(calls, s, 0), j);
    var frame := SessionSpec(calls, s, 0)[j].bytes;
    assert frame[0] == s[p + Lost(before)] == 0;
    assert s[p..p + FRAME_SIZE][0] == s[p] == 1;
  }

  /** Full frame number i is the i-th twelve bytes of every stream of its length if and only if no byte was lost
      before it. */
  lemma {:induction false} AlignedIffNothingLost(calls: seq<Call>, stream: seq<Byte>, j: nat)
    requires j < |SessionSpec(calls, stream, 0)| && SessionSpec(calls, stream, 0)[j].Full?
    ensures var before := SessionSpec(calls, stream, 0)[..j];
            NothingLost(before) <==> forall s :: |s| == |stream| ==> AlignedAt(calls, s, j, CountFull(before))
  {
    var before := SessionSpec(calls, stream, 0)[..j];
    NothingLostIsZero(before);
    if NothingLost(before) {
      forall s: seq<Byte> | |s| == |stream|
        ensures AlignedAt(calls, s, j, CountFull(before))
      {
        NothingLostAligns(calls, stream, j, s);
      }
    } else {
      var s := LossMisaligns(calls, stream, j);
    }
  }

  // ---------- What the script alone decides ----------

  /** A turn after which the read goes on: no flag shows, and the recv brings data or asks to try again. */
  predicate Quiet(t: Turn) {
    !t.stop && !t.hup && (t.recv.Data? || t.recv == Intr || t.recv == Again(false))
  }

  /** The bytes the kernel hands out over some turns, if the peer has sent as many. */
  function Offered(turns: seq<Turn>): nat {
    if turns == [] then 0 else (if turns[0].recv.Data? then turns[0].recv.size else 0) + Offered(turns[1..])
  }

  /** How a read of n bytes ends that got b bytes, fewer than n, in k quiet turns. */
  ghost predicate StopsAt(turns: seq<Turn>, k: nat, b: nat, result: Result)
    requires k <= |turns|
  {
    && (k == |turns| ==> result == Waiting)
    && (k < |turns| && turns[k].stop ==> result == Error)
    && (k < |turns| && !turns[k].stop && turns[k].hup ==> result == Update)
    && (k < |turns| && !turns[k].stop && !turns[k].hup ==>
          && (turns[k].recv == Fail ==> result == Error)
          && (turns[k].recv == Again(true) ==> result == Update)
          && (turns[k].recv == Eof ==> result == Count(b)))
  }

  lemma {:induction false} ReadFrom(turns: seq<Turn>, k: nat, left: nat, got: nat, n: nat)
    requires k <= |turns| && got <= n && forall i :: 0 <= i < k ==> Quiet(turns[i])
    ensures var b := Offered(turns[..k]);
            var (taken, result) := ReadSpec(turns, left, got, n);
            && (got + b >= n && got + left >= n ==> taken == n - got && result == Count(n))
            && ((got + b < n || got + left < n) && (k == |turns| || !Quiet(turns[k])) ==>
                  taken == (if b < left then b else left) && StopsAt(turns, k, got + taken, result))
    decreases k
  {
    if got < n && k > 0 {
      assert turns[..k][1..] == turns[1..][..k - 1];
      var r := if turns[0].recv.Data? then Taken(turns[0].recv.size, n - got, left) else 0;
      ReadFrom(turns[1..], k - 1, left - r, got + r, n);
    }
  }

  /** A read, from its script: it takes what its quiet turns offer, as far as the peer has sent it, until it has all it
      asked for; the first turn that is not quiet decides how it ends if that comes too soon. */
  lemma {:induction false} ReadIs(turns: seq<Turn>, k: nat, left: nat, n: nat)
    requires k <= |turns| && forall i :: 0 <= i < k ==> Quiet(turns[i])
    ensures var b := Offered(turns[..k]);
            var (taken, result) := ReadSpec(turns, left, 0, n);
            if b >= n && left >= n then taken == n && result == Count(n)
            else
              k == |turns| || !Quiet(turns[k]) ==>
                taken == (if b < left then b else left) && StopsAt(turns, k, taken, result)
  {
    ReadFrom(turns, k, left, 0, n);
  }

  /** Where the stream stands after the first i calls, if all of them are made. */
  function At(calls: seq<Call>, i: nat, total: nat): (pos: nat)
    requires i <= |calls|
    ensures pos <= total
  {
    if i == 0 then 0
    else
      var before := At(calls, i - 1, total);
      ReadBounds(calls[i - 1].turns, total - before, 0, FRAME_SIZE);
      before + ReadSpec(calls[i - 1].turns, total - before, 0, FRAME_SIZE).0
  }

  /** How the read of call i ends. */
  function EndOf(calls: seq<Call>, i: nat, total: nat): Result
    requires i < |calls|
  {
    ReadSpec(calls[i].turns, total - At(calls, i, total), 0, FRAME_SIZE).1
  }

  /** Exactly the first k calls are made: the loop goes on until a call finds the server stopping, or a read ends in an
      error, in waiting or with no byte at all. */
  ghost predicate MakesCalls(calls: seq<Call>, total: nat, k: nat) {
    && k <= |calls|
    && (k > 0 ==> Stays(calls, total, k - 1) && !calls[k - 1].stop)
    && (k < |calls| && !calls[k].stop ==> k > 0 && IsLast(EndOf(calls, k - 1, total)))
  }

  predicate IsLast(result: Result) {
    result == Error || result == Waiting || result == Count(0)
  }

  /** The client is still there after k calls. */
  ghost predicate Stays(calls: seq<Call>, total: nat, k: nat) {
    k <= |calls| && forall i :: 0 <= i < k ==> GoesPast(calls, i, total)
  }

  predicate GoesPast(calls: seq<Call>, i: nat, total: nat)
    requires i < |calls|
  {
    !calls[i].stop && !IsLast(EndOf(calls, i, total))
  }

  /** The full frames of a session, in order. */
  function Fulls(items: seq<Item>): seq<seq<Byte>> {
    if items == [] then [] else (if items[0].Full? then [items[0].bytes] else []) + Fulls(items[1..])
  }

  function Reloads(items: seq<Item>): nat {
    if items == [] then 0 else (if items[0].Reloaded? then 1 else 0) + Reloads(items[1..])
  }

  /** The twelve bytes of every call among the first k whose read is complete. */
  function FullReads(calls: seq<Call>, stream: seq<Byte>, k: nat): seq<seq<Byte>>
    requires k <= |calls|
  {
    if k == 0 then []
    else
      FullReads(calls, stream, k - 1) +
      var pos, next := At(calls, k - 1, |stream|), At(calls, k, |stream|);
      if next - pos == 12 then [stream[pos..next]] else []
  }

  /** The reloads that flags ask for among the first k calls: at the head of a call, or within its read. */
  function Asked(calls: seq<Call>, total: nat, k: nat): nat
    requires k <= |calls|
  {
    if k == 0 then 0
    else
      Asked(calls, total, k - 1) + (if calls[k - 1].hup then 1 else 0) +
      if EndOf(calls, k - 1, total) == Update then 1 else 0
  }

  lemma {:induction false} FullsAppend(a: seq<Item>, b: seq<Item>)
    ensures Fulls(a + b) == Fulls(a) + Fulls(b)
    ensures Reloads(a + b) == Reloads(a) + Reloads(b)
  {
    if a == [] {
      assert a + b == b;
    } else {
      assert (a + b)[1..] == a[1..] + b;
      FullsAppend(a[1..], b);
    }
  }

  lemma MeasuresOne(item: Item)
    ensures Fulls([item]) == if item.Full? then [item.bytes] else []
    ensures Reloads([item]) == if item.Reloaded? then 1 else 0
  {
  }

  /** What is made of one read: at most one frame, and a reload for each flag seen. */
  lemma ItemsMeasure(call: Call, result: Result, bytes: seq<Byte>)
    requires result.Count? ==> result.n == |bytes|
    requires !result.Count? ==> |bytes| != 12
    ensures var items := OnceSpec(call, result, bytes);
            && Fulls(items) == (if |bytes| == 12 then [bytes] else [])
            && Reloads(items) == (if call.hup then 1 else 0) + if result == Update then 1 else 0
  {
    MeasuresOne(Full(bytes));
    MeasuresOne(Short(bytes));
    MeasuresOne(Dropped(bytes));
    MeasuresOne(Partial(bytes));
    MeasuresOne(Reloaded);
    FullsAppend([Dropped(bytes)], [Reloaded]);
    assert [Dropped(bytes)] + [Reloaded] == [Dropped(bytes), Reloaded];
    FullsAppend(if call.hup then [Reloaded] else [], ItemsOf(result, bytes));
  }

  /** Of k calls: the full frames are their complete reads, the reloads the flags they saw, the bytes those they
      took. */
  ghost predicate CallsMade(items: seq<Item>, calls: seq<Call>, stream: seq<Byte>, k: nat)
    requires k <= |calls|
  {
    && Fulls(items) == FullReads(calls, stream, k)
    && Reloads(items) == Asked(calls, |stream|, k)
    && Total(items) == At(calls, k, |stream|)
  }

  ghost predicate ItemsUpTo(done: seq<Item>, calls: seq<Call>, stream: seq<Byte>, k: nat)
    requires k <= |calls|
  {
    && Fulls(done) == FullReads(calls, stream, k)
    && Reloads(done) == Asked(calls, |stream|, k)
  }

  lemma {:induction false} CallAdds(done: seq<Item>, more: seq<Item>, calls: seq<Call>, stream: seq<Byte>, k: nat)
    requires k < |calls| && ItemsUpTo(done, calls, stream, k)
    requires more == OnceSpec(calls[k], EndOf(calls, k, |stream|),
                              stream[At(calls, k, |stream|)..At(calls, k + 1, |stream|)])
    ensures ItemsUpTo(done + more, calls, stream, k + 1)
  {
    var pos, next := At(calls, k, |stream|), At(calls, k + 1, |stream|);
    AtNext(calls, k, |stream|);
    ReadBounds(calls[k].turns, |stream| - pos, 0, FRAME_SIZE);
    ItemsMeasure(calls[k], EndOf(calls, k, |stream|), stream[pos..next]);
    FullsAppend(done, more);
    ReadsGrow(calls, stream, k);
  }

  lemma ReadsGrow(calls: seq<Call>, stream: seq<Byte>, k: nat)
    requires k < |calls|
    ensures var pos, next := At(calls, k, |stream|), At(calls, k + 1, |stream|);
            && FullReads(calls, stream, k + 1) ==
               FullReads(calls, stream, k) + (if next - pos == 12 then [stream[pos..next]] else [])
            && Asked(calls, |stream|, k + 1) ==
               Asked(calls, |stream|, k) + (if calls[k].hup then 1 else 0) +
               if EndOf(calls, k, |stream|) == Update then 1 else 0
  {
  }

  /** The client is past its first k calls, with these items. */
  lemma {:induction false} Consumes(calls: seq<Call>, stream: seq<Byte>, k: nat, whole: seq<Item>)
    returns (done: seq<Item>)
    requires Stays(calls, |stream|, k) && whole == SessionSpec(calls, stream, 0)
    ensures Ahead(whole, done, true, calls[k..], stream, At(calls, k, |stream|))
    ensures ItemsUpTo(done, calls, stream, k)
  {
    if k == 0 {
      assert calls[0..] == calls;
      done := [];
    } else {
      assert GoesPast(calls, k - 1, |stream|);
      var before := Consumes(calls, stream, k - 1, whole);
      var more := CallLeads(calls, stream, k - 1, whole, before);
      done := before + more;
    }
  }

  /** Call k takes the session one call further. */
  lemma CallLeads(calls: seq<Call>, stream: seq<Byte>, k: nat, whole: seq<Item>, done: seq<Item>)
    returns (more: seq<Item>)
    requires k < |calls| && !calls[k].stop && Ahead(whole, done, true, calls[k..], stream, At(calls, k, |stream|))
    ensures Ahead(whole, done + more, !IsLast(EndOf(calls, k, |stream|)), calls[k + 1..], stream,
                  At(calls, k + 1, |stream|))
    ensures ItemsUpTo(done, calls, stream, k) ==> ItemsUpTo(done + more, calls, stream, k + 1)
    ensures !calls[k].hup && EndOf(calls, k, |stream|) == Count(12) ==>
              more == [Full(stream[At(calls, k, |stream|)..At(calls, k + 1, |stream|)])]
  {
    var pos, next := At(calls, k, |stream|), At(calls, k + 1, |stream|);
    var result := EndOf(calls, k, |stream|);
    more := OnceSpec(calls[k], result, stream[pos..next]);
    AtNext(calls, k, |stream|);
    LastReads(result);
    TailOf(calls, k);
    SessionGrows(whole, done, calls[k..], stream, pos, next - pos, result, more);
    if ItemsUpTo(done, calls, stream, k) {
      CallAdds(done, more, calls, stream, k);
    }
  }

  lemma AtNext(calls: seq<Call>, k: nat, total: nat)
    requires k < |calls|
    ensures var pos := At(calls, k, total);
            ReadSpec(calls[k].turns, total - pos, 0, FRAME_SIZE) ==
            (At(calls, k + 1, total) - pos, EndOf(calls, k, total))
  {
  }

  lemma LastReads(result: Result)
    ensures IsLast(result) <==> !GoesOn(result)
  {
  }

  lemma EndsHere(whole: seq<Item>, items: seq<Item>, goesOn: bool, calls: seq<Call>, stream: seq<Byte>, pos: nat)
    requires pos <= |stream| && Ahead(whole, items, goesOn, calls, stream, pos)
    requires goesOn ==> calls == [] || calls[0].stop
    ensures whole == items && Total(whole) == pos
  {
  }

  /** A session makes every call until one has stop set or one read ends it, and of every read that is complete it
      makes a frame, of every flag a reload. */
  lemma {:induction false} SessionIs(calls: seq<Call>, stream: seq<Byte>, k: nat, items: seq<Item>)
    requires MakesCalls(calls, |stream|, k) && items == SessionSpec(calls, stream, 0)
    ensures CallsMade(items, calls, stream, k)
  {
    if k > 0 && IsLast(EndOf(calls, k - 1, |stream|)) {
      LastCall(calls, stream, k - 1, items);
    } else {
      assert k > 0 ==> GoesPast(calls, k - 1, |stream|);
      NoMoreCalls(calls, stream, k, items);
    }
  }

  lemma LastCall(calls: seq<Call>, stream: seq<Byte>, k: nat, items: seq<Item>)
    requires k < |calls| && Stays(calls, |stream|, k) && !calls[k].stop && IsLast(EndOf(calls, k, |stream|))
    requires items == SessionSpec(calls, stream, 0)
    ensures CallsMade(items, calls, stream, k + 1)
  {
    var done := Consumes(calls, stream, k, items);
    var more := CallLeads(calls, stream, k, items, done);
    EndsHere(items, done + more, false, calls[k + 1..], stream, At(calls, k + 1, |stream|));
  }

  lemma NoMoreCalls(calls: seq<Call>, stream: seq<Byte>, k: nat, items: seq<Item>)
    requires Stays(calls, |stream|, k) && (k < |calls| ==> calls[k].stop) && items == SessionSpec(calls, stream, 0)
    ensures CallsMade(items, calls, stream, k)
  {
    var done := Consumes(calls, stream, k, items);
    EndsHere(items, done, true, calls[k..], stream, At(calls, k, |stream|));
  }

  /** Every session makes some number of calls. */
  lemma {:induction false} CallsAreCounted(calls: seq<Call>, total: nat, from: nat) returns (k: nat)
    requires Stays(calls, total, from)
    ensures MakesCalls(calls, total, k)
    decreases |calls| - from
  {
    assert from > 0 ==> GoesPast(calls, from - 1, total);
    if from == |calls| || calls[from].stop {
      k := from;
    } else if IsLast(EndOf(calls, from, total)) {
      k := from + 1;
    } else {
      assert GoesPast(calls, from, total);
      k := CallsAreCounted(calls, total, from + 1);
    }
  }

  /** A call without flags whose quiet turns bring twelve bytes. */
  ghost predicate BringsTwelve(call: Call) {
    !call.stop && !call.hup &&
    exists m ::
      0 <= m <= |call.turns| && (forall i :: 0 <= i < m ==> Quiet(call.turns[i])) && Offered(call.turns[..m]) >= 12
  }

  ghost predicate AllBringTwelve(calls: seq<Call>) {
    forall i :: 0 <= i < |calls| ==> CallBringsTwelve(calls, i)
  }

  ghost predicate CallBringsTwelve(calls: seq<Call>, i: nat)
    requires i < |calls|
  {
    BringsTwelve(calls[i])
  }

  lemma {:induction false} TwelveAtATime(calls: seq<Call>, stream: seq<Byte>, k: nat)
    requires k <= |calls| && AllBringTwelve(calls) && 12 * |calls| <= |stream|
    ensures At(calls, k, |stream|) == 12 * k
    ensures k < |calls| ==> EndOf(calls, k, |stream|) == Count(12)
  {
    if k > 0 {
      TwelveAtATime(calls, stream, k - 1);
      assert CallBringsTwelve(calls, k - 1);
      TwelveAreRead(calls[k - 1], |stream| - 12 * (k - 1));
    }
    if k < |calls| {
      assert CallBringsTwelve(calls, k);
      TwelveAreRead(calls[k], |stream| - 12 * k);
    }
  }

  lemma TwelveAreRead(call: Call, left: nat)
    requires BringsTwelve(call) && left >= 12
    ensures ReadSpec(call.turns, left, 0, FRAME_SIZE) == (12, Count(12))
  {
    var m :|
      0 <= m <= |call.turns| && (forall i :: 0 <= i < m ==> Quiet(call.turns[i])) && Offered(call.turns[..m]) >= 12;
    ReadIs(call.turns, m, left, FRAME_SIZE);
  }

  /** The first k twelves of the stream, as frames. */
  function Twelves(stream: seq<Byte>, k: nat): (items: seq<Item>)
    requires 12 * k <= |stream|
    ensures |items| == k && forall i :: 0 <= i < k ==> items[i] == Full(stream[12 * i..12 * i + 12])
  {
    if k == 0 then [] else Twelves(stream, k - 1) + [Full(stream[12 * k - 12..12 * k])]
  }

  lemma {:induction false} TwelvesLead(calls: seq<Call>, stream: seq<Byte>, k: nat, pos: nat, whole: seq<Item>)
    requires k <= |calls| && pos == 12 * k <= |stream| && whole == SessionSpec(calls, stream, 0)
    requires forall i :: 0 <= i < k ==> FullAt(calls, i, |stream|)
    ensures Ahead(whole, Twelves(stream, k), true, calls[k..], stream, pos)
  {
    if k == 0 {
      assert calls[0..] == calls;
    } else {
      assert FullAt(calls, k - 1, |stream|);
      TwelvesLead(calls, stream, k - 1, pos - 12, whole);
      FullLeads(calls, stream, k - 1, whole, Twelves(stream, k - 1), pos - 12, pos);
    }
  }

  predicate FullAt(calls: seq<Call>, k: nat, total: nat)
    requires k < |calls|
  {
    && !calls[k].stop && !calls[k].hup && EndOf(calls, k, total) == Count(12)
    && At(calls, k, total) == 12 * k && At(calls, k + 1, total) == 12 * k + 12
  }

  lemma TwelveIsFull(calls: seq<Call>, k: nat, total: nat, stream: seq<Byte>)
    requires k < |calls| && AllBringTwelve(calls) && 12 * |calls| <= |stream| == total
    ensures FullAt(calls, k, total)
  {
    TwelveAtATime(calls, stream, k);
    TwelveAtATime(calls, stream, k + 1);
    assert CallBringsTwelve(calls, k);
  }

  lemma FullLeads(calls: seq<Call>, stream: seq<Byte>, k: nat, whole: seq<Item>, done: seq<Item>, pos: nat, next: nat)
    requires k < |calls| && FullAt(calls, k, |stream|) && pos == 12 * k && next == pos + 12
    requires pos <= |stream| && Ahead(whole, done, true, calls[k..], stream, pos)
    ensures next <= |stream| && Ahead(whole, done + [Full(stream[pos..next])], true, calls[k + 1..], stream, next)
  {
    AtNext(calls, k, |stream|);
    OneFull(calls[k], stream[pos..next]);
    TailOf(calls, k);
    SessionGrows(whole, done, calls[k..], stream, pos, 12, Count(12), [Full(stream[pos..next])]);
  }

  lemma OneFull(call: Call, bytes: seq<Byte>)
    requires !call.hup
    ensures OnceSpec(call, Count(12), bytes) == [Full(bytes)]
  {
  }

  /** With no flag in sight and twelve bytes for every read, each call yields a frame: frame i is the i-th twelve
      bytes. */
  lemma {:induction false} EveryTwelveIsAFrame(calls: seq<Call>, stream: seq<Byte>, items: seq<Item>)
    requires AllBringTwelve(calls) && 12 * |calls| <= |stream| && items == SessionSpec(calls, stream, 0)
    ensures items == Twelves(stream, |calls|)
  {
    forall i | 0 <= i < |calls|
      ensures FullAt(calls, i, |stream|)
    {
      TwelveIsFull(calls, i, |stream|, stream);
    }
    TwelvesLead(calls, stream, |calls|, 12 * |calls|, items);
    EndsHere(items, Twelves(stream, |calls|), true, calls[|calls|..], stream, 12 * |calls|);
  }

  lemma {:induction false} SessionTold(calls: seq<Call>, stream: seq<Byte>, items: seq<Item>)
    requires items == SessionSpec(calls, stream, 0)
    ensures forall k :: MakesCalls(calls, |stream|, k) ==> CallsMade(items, calls, stream, k)
    ensures AllBringTwelve(calls) && 12 * |calls| <= |stream| ==> items == Twelves(stream, |calls|)
  {
    forall k | MakesCalls(calls, |stream|, k)
      ensures CallsMade(items, calls, stream, k)
    {
      SessionIs(calls, stream, k, items);
    }
    if AllBringTwelve(calls) && 12 * |calls| <= |stream| {
      EveryTwelveIsAFrame(calls, stream, items);
    }
  }

  /** What one call makes of its read, case by case: a reload asked for at its head comes first, one that interrupts
      the read after the bytes it abandons. */
  lemma ReloadsInOrder(call: Call, bytes: seq<Byte>, n: nat)
    ensures call.hup ==> OnceSpec(call, Update, bytes) == [Reloaded, Dropped(bytes), Reloaded]
    ensures call.hup ==> OnceSpec(call, Count(12), bytes) == [Reloaded, Full(bytes)]
    ensures !call.hup ==> OnceSpec(call, Update, bytes) == [Dropped(bytes), Reloaded]
    ensures !call.hup ==> OnceSpec(call, Error, bytes) == [Dropped(bytes)]
    ensures !call.hup ==> OnceSpec(call, Waiting, bytes) == [Partial(bytes)]
    ensures !call.hup ==> OnceSpec(call, Count(0), bytes) == []
    ensures !call.hup && 0 < n < 12 ==> OnceSpec(call, Count(n), bytes) == [Short(bytes)]
  {
  }
}
