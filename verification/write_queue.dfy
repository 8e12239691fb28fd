/**
 * Queues of frames waiting to be written. DATA frames are cut to what flow control and the
 * frame size limit allow.
 */
module WriteQueues {
  import opened Options
  import opened Bits
  import opened Ints

  // A DATA write carries bytes; anything else is written whole.
  datatype Write = Data(p: Bytes, endStream: bool) | Other(what: nat)

  // A request to write a frame on a stream, or none for connection-level frames. Its sender
  // waits for a reply if it left a channel.
  datatype Request = Request(stream: Option<nat>, write: Write, done: Option<nat>)

  const NO_LIMIT: int := 0x7fff_ffff

  // ---------------------------------------------------------------- cutting a write

  // How much of a write may go now.
  datatype Portion = Nothing | Whole | Part(n: nat)

  function PortionOf(w: Write, allowed: int): (r: Portion)
    ensures r.Part? ==> w.Data? && 0 < r.n < |w.p|
  {
    if !w.Data? || |w.p| == 0 then Whole
    else if allowed <= 0 then Nothing
    else if |w.p| > allowed then Part(allowed)
    else Whole
  }

  function FirstPart(r: Request, n: nat): Request
    requires r.write.Data? && n <= |r.write.p|
  {
    Request(r.stream, Data(r.write.p[..n], false), None)
  }

  function RestPart(r: Request, n: nat): Request
    requires r.write.Data? && n <= |r.write.p|
  {
    Request(r.stream, Data(r.write.p[n..], r.write.endStream), r.done)
  }

  function DataSize(r: Request): nat {
    if r.write.Data? then |r.write.p| else 0
  }

  // ---------------------------------------------------------------- send windows

  // The send windows of a connection and its streams, and the peer's frame size limit.
  datatype Win = Win(conn: int, stream: map<nat, int>, maxFrame: int)

  // A DATA write belongs to a stream whose window is known.
  predicate Covers(w: Win, r: Request) {
    r.write.Data? ==> r.stream.Some? && r.stream.value in w.stream
  }

  // What may be sent on a stream in one frame, if at most n bytes are wanted.
  function Allowed(w: Win, id: nat, n: int): int
    requires id in w.stream
  {
    Min(Min(Min(w.stream[id], w.conn), n), w.maxFrame)
  }

  function PortionNow(w: Win, r: Request, n: int): Portion {
    if !r.write.Data? then Whole
    else if !Covers(w, r) then Nothing
    else PortionOf(r.write, Allowed(w, r.stream.value, n))
  }

  // The windows after the DATA of r has been sent.
  function Spend(w: Win, r: Request): Win {
    if DataSize(r) == 0 || r.stream.None? || r.stream.value !in w.stream then w
    else w.(conn := w.conn - DataSize(r),
            stream := w.stream[r.stream.value := w.stream[r.stream.value] - DataSize(r)])
  }

  // As much of r as may be written now, and the rest of it.
  function Consumed(w: Win, r: Request, n: int): (Option<Request>, Option<Request>) {
    match PortionNow(w, r, n)
    case Nothing => (None, None)
    case Whole => (Some(r), None)
    case Part(k) => (Some(FirstPart(r, k)), Some(RestPart(r, k)))
  }

  // A DATA frame never exceeds the stream's window, the connection's, or the frame size limit.
  lemma ConsumedFits(w: Win, r: Request, n: int)
    requires Covers(w, r) && Consumed(w, r, n).0.Some? && DataSize(Consumed(w, r, n).0.value) > 0
    ensures var c := Consumed(w, r, n).0.value;
            && c.stream == r.stream && c.stream.Some?
            && DataSize(c) <= w.stream[c.stream.value] && DataSize(c) <= w.conn
            && DataSize(c) <= w.maxFrame && DataSize(c) <= n
            && Spend(w, c).conn == w.conn - DataSize(c)
            && Spend(w, c).stream[c.stream.value] == w.stream[c.stream.value] - DataSize(c)
  {
  }

  // No DATA of r may go: one of the limits is used up.
  predicate Blocked(w: Win, r: Request, n: int) {
    && r.write.Data?
    && (!Covers(w, r) ||
        (r.write.p != [] && (w.stream[r.stream.value] <= 0 || w.conn <= 0 || w.maxFrame <= 0 || n <= 0)))
  }

  // c is all of r, or a first part of it that uses up one of the limits.
  predicate Longest(w: Win, r: Request, n: int, c: Request) {
    c == r ||
    (&& r.write.Data? && Covers(w, r) && DataSize(c) < DataSize(r) && c == FirstPart(r, DataSize(c))
     && DataSize(c) in {w.stream[r.stream.value], w.conn, w.maxFrame, n})
  }

  // As much goes as may.
  lemma ConsumedMost(w: Win, r: Request, n: int)
    ensures var (c, rest) := Consumed(w, r, n);
            && (c.None? <==> Blocked(w, r, n))
            && (c.Some? ==> Longest(w, r, n, c.value) && (rest.None? <==> c.value == r))
            && (rest.Some? ==> c.Some? && rest.value == RestPart(r, DataSize(c.value)))
  {
  }

  class Windows {
    var conn: int
    var stream: map<nat, int>
    var maxFrame: int

    function State(): Win
      reads this
    {
      Win(conn, stream, maxFrame)
    }

    constructor (conn: int, maxFrame: int)
      ensures State() == Win(conn, map[], maxFrame)
    {
      this.conn, stream, this.maxFrame := conn, map[], maxFrame;
    }

    // The source panics if more than the available window is taken.
    method Take(id: nat, n: int)
      requires id in stream && 0 <= n <= Min(stream[id], conn)
      modifies this`conn, this`stream
      ensures conn == old(conn) - n && stream == old(stream)[id := old(stream)[id] - n]
    {
      conn := conn - n;
      stream := stream[id := stream[id] - n];
    }

    // Consume: the part of r that may be written now, whose size is taken from the windows,
    // and the rest.
    method Consume(r: Request, n: int) returns (consumed: Option<Request>, rest: Option<Request>)
      requires Covers(State(), r)
      modifies this`conn, this`stream
      ensures (consumed, rest) == Consumed(old(State()), r, n)
      ensures consumed.None? <==> Blocked(old(State()), r, n)
      ensures consumed.Some? ==> Longest(old(State()), r, n, consumed.value)
      ensures State() == if consumed.None? then old(State()) else Spend(old(State()), consumed.value)
    {
      ConsumedMost(State(), r, n);
      if !r.write.Data? || |r.write.p| == 0 {
        return Some(r), None;
      }
      var id := r.stream.value;
      var allowed := Min(stream[id], conn);
      if n < allowed {
        allowed := n;
      }
      if maxFrame < allowed {
        allowed := maxFrame;
      }
      if allowed <= 0 {
        return None, None;
      }
      if |r.write.p| > allowed {
        Take(id, allowed);
        return Some(FirstPart(r, allowed)), Some(RestPart(r, allowed));
      }
      Take(id, |r.write.p|);
      return Some(r), None;
    }
  }

  // ---------------------------------------------------------------- queues

  // Two stages: currQueue from currPos on, then nextQueue. prev and next are for the
  // schedulers, which link queues into rings.
  class WriteQueue {
    var currQueue: seq<Request>
    var nextQueue: seq<Request>
    var currPos: nat
    var prev: WriteQueue?
    var next: WriteQueue?

    ghost predicate Valid()
      reads this`currQueue, this`currPos
    {
      currPos <= |currQueue|
    }

    function Contents(): seq<Request>
      reads this`currQueue, this`nextQueue, this`currPos
      requires Valid()
    {
      currQueue[currPos..] + nextQueue
    }

    constructor ()
      ensures Valid() && Contents() == []
    {
      currQueue, nextQueue, currPos, prev, next := [], [], 0, null, null;
    }

    method Empty() returns (r: bool)
      requires Valid()
      ensures r == (Contents() == [])
    {
      r := |currQueue| - currPos + |nextQueue| == 0;
    }

    method Push(r: Request)
      requires Valid()
      modifies this`nextQueue
      ensures Valid() && Contents() == old(Contents()) + [r]
    {
      nextQueue := nextQueue + [r];
    }

    method Shift() returns (r: Request)
      requires Valid() && Contents() != []
      modifies this`currQueue, this`nextQueue, this`currPos
      ensures Valid() && r == old(Contents())[0] && Contents() == old(Contents())[1..]
    {
      if currPos >= |currQueue| {
        currQueue, currPos, nextQueue := nextQueue, 0, [];
      }
      r := currQueue[currPos];
      currQueue := currQueue[currPos := Request(None, Other(0), None)];
      currPos := currPos + 1;
    }

    method Peek() returns (r: Request)
      requires Valid() && Contents() != []
      ensures r == Contents()[0]
    {
      r := if currPos < |currQueue| then currQueue[currPos] else nextQueue[0];
    }

    method ReplaceFirst(r: Request)
      requires Valid() && Contents() != []
      modifies this`currQueue, this`nextQueue
      ensures Valid() && Contents() == old(Contents())[0 := r]
    {
      if currPos < |currQueue| {
        currQueue := currQueue[currPos := r];
      } else {
        nextQueue := nextQueue[0 := r];
      }
    }

    method Clear()
      modifies this`currQueue, this`nextQueue, this`currPos
      ensures Valid() && Contents() == []
    {
      currQueue, nextQueue, currPos := [], [], 0;
    }

    // consume: what can be taken from the front, at most n bytes of DATA.
    method Consume(w: Windows, n: int) returns (r: Option<Request>)
      requires Valid() && (Contents() != [] ==> Covers(w.State(), Contents()[0]))
      modifies this`currQueue, this`nextQueue, this`currPos, w`conn, w`stream
      ensures Valid()
      ensures (Contents(), r) == TakeFrom(old(w.State()), old(Contents()), n)
      ensures w.State() == if r.None? then old(w.State()) else Spend(old(w.State()), r.value)
    {
      var e := Empty();
      if e {
        return None;
      }
      var head := Peek();
      var consumed, rest := w.Consume(head, n);
      if consumed.None? {
        return None;
      }
      if rest.None? {
        var _ := Shift();
      } else {
        ReplaceFirst(rest.value);
      }
      return consumed;
    }
  }

  // What is left of a queue after taking from its front, and what was taken.
  function TakeFrom(w: Win, rs: seq<Request>, n: int): (seq<Request>, Option<Request>) {
    if rs == [] then (rs, None)
    else match Consumed(w, rs[0], n)
      case (None, _) => (rs, None)
      case (Some(r), None) => (rs[1..], Some(r))
      case (Some(r), Some(rest)) => (rs[0 := rest], Some(r))
  }
}
