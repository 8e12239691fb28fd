/**
 * Flow control between a sender of DATA frames and the client side that receives them: two
 * windows for every frame, padding, discarded frames, and window updates on their way back.
 */
module FlowProtocol {
  import opened Options
  import opened Flow
  import opened Ints

  datatype Frame = Frame(stream: nat, len: nat, pad: nat)

  datatype Target = Connection | Stream(i: nat)

  datatype Update = Update(target: Target, inc: int)

  // One stream as both ends see it. `known` says that the receiver still looks the stream up
  // for incoming frames, `writable` that its body buffer still takes bytes. `forgone` counts
  // bytes of its window for which the stream gets no credit.
  datatype Strm = Strm(
    window: nat, sendWin: int, recv: In, known: bool, writable: bool, closed: bool, unread: nat, forgone: nat)

  // Frames and updates in flight are in the order sent. `lost` counts bytes that a reader
  // took past the declared length, for which no credit is returned.
  datatype Net = Net(sendWin: int, recv: In, streams: seq<Strm>, data: seq<Frame>, updates: seq<Update>, lost: nat)

  datatype Event =
    | Open(window: nat)
    | Send(i: nat, len: nat, pad: nat)
    | RecvData
    | Read(i: nat, n: nat, more: bool)
    | Overrun(i: nat, n: nat)
    | StreamError(i: nat)
    | CloseBody(i: nat)
    | Forget(i: nat)
    | RecvUpdate

  function Length(f: Frame): nat {
    f.len + f.pad
  }

  // What the environment may do; in particular a sender only uses credit it has.
  predicate Enabled(s: Net, ev: Event) {
    match ev
    case Open(w) => w <= MAX_WINDOW
    case Send(i, len, pad) => i < |s.streams| && len + pad <= Min(s.sendWin, s.streams[i].sendWin)
    case RecvData => s.data != []
    case Read(i, n, _) => i < |s.streams| && 1 <= n <= s.streams[i].unread
    case Overrun(i, n) => i < |s.streams| && 1 <= n <= s.streams[i].unread
    case StreamError(i) => i < |s.streams|
    case CloseBody(i) => i < |s.streams| && !s.streams[i].closed
    case Forget(i) => i < |s.streams|
    case RecvUpdate => s.updates != []
  }

  function Announce(updates: seq<Update>, t: Target, inc: int): seq<Update> {
    if inc > 0 then updates + [Update(t, inc)] else updates
  }

  // inflow.add on the connection; it panics when the window would exceed 2^31-1.
  function CreditConn(s: Net, n: nat): Option<Net> {
    if s.recv.avail + s.recv.unsent + n > MAX_WINDOW then None
    else
      var (f, inc) := Refund(s.recv, n);
      Some(s.(recv := f, updates := Announce(s.updates, Connection, inc)))
  }

  // inflow.add on a stream.
  function CreditStream(s: Net, i: nat, n: nat): Option<Net>
    requires i < |s.streams|
  {
    var st := s.streams[i];
    if st.recv.avail + st.recv.unsent + n > MAX_WINDOW then None
    else
      var (f, inc) := Refund(st.recv, n);
      Some(s.(streams := s.streams[i := st.(recv := f)], updates := Announce(s.updates, Stream(i), inc)))
  }

  // Whether a frame on a known stream ends in its body buffer.
  predicate Keeps(st: Strm, f: Frame) {
    st.writable || f.len == 0
  }

  // A known stream after f came in, before any refund. Nobody reads a stream whose buffer takes
  // no bytes, so it gets no credit either.
  function Taken(st: Strm, f: Frame): Strm {
    var n := Length(f);
    st.(recv := st.recv.(avail := st.recv.avail - n),
        unread := if Keeps(st, f) then st.unread + f.len else st.unread,
        forgone := if Keeps(st, f) then st.forgone else st.forgone + n)
  }

  // A stream after n bytes were taken out of its body buffer.
  function Drained(st: Strm, n: nat, more: bool): Strm
    requires n <= st.unread
  {
    st.(unread := st.unread - n, forgone := if more then st.forgone else st.forgone + n)
  }

  function BodyClosed(st: Strm): Strm {
    st.(writable := false, closed := true, unread := 0, forgone := st.forgone + st.unread)
  }

  // The read loop's processData.
  function Receive(s: Net, f: Frame): Option<Net> {
    var n := Length(f);
    if f.stream >= |s.streams| || !s.streams[f.stream].known then
      if n == 0 then Some(s)
      else if n > s.recv.avail then None
      else CreditConn(s.(recv := s.recv.(avail := s.recv.avail - n)), n)
    else if n == 0 then Some(s)
    else
      var st := s.streams[f.stream];
      if n > s.recv.avail || n > st.recv.avail then None
      else
        var keep := Keeps(st, f);
        var s1 := s.(recv := s.recv.(avail := s.recv.avail - n), streams := s.streams[f.stream := Taken(st, f)]);
        match CreditConn(s1, if keep then f.pad else n)
        case None => None
        case Some(s2) => if keep then CreditStream(s2, f.stream, f.pad) else Some(s2)
  }

  function NewStrm(w: nat): Strm {
    Strm(w, w, In(w, 0), true, true, false, 0, 0)
  }

  // None if a peer reports a flow control error, or panics.
  function Step(s: Net, ev: Event): Option<Net>
    requires Enabled(s, ev)
  {
    match ev
    case Open(w) => Some(s.(streams := s.streams + [NewStrm(w)]))
    case Send(i, len, pad) =>
      var st := s.streams[i];
      Some(s.(sendWin := s.sendWin - (len + pad),
              streams := s.streams[i := st.(sendWin := st.sendWin - (len + pad))],
              data := s.data + [Frame(i, len, pad)]))
    case RecvData => Receive(s.(data := s.data[1..]), s.data[0])
    case Read(i, n, more) =>
      (match CreditConn(s.(streams := s.streams[i := Drained(s.streams[i], n, more)]), n)
       case None => None
       case Some(s') => if more then CreditStream(s', i, n) else Some(s'))
    case Overrun(i, n) =>
      Some(s.(streams := s.streams[i := Drained(s.streams[i], n, false)], lost := s.lost + n))
    case StreamError(i) => Some(s.(streams := s.streams[i := s.streams[i].(writable := false)]))
    case CloseBody(i) =>
      var st := s.streams[i];
      var s' := s.(streams := s.streams[i := BodyClosed(st)]);
      if st.unread > 0 then CreditConn(s', st.unread) else Some(s')
    case Forget(i) => Some(s.(streams := s.streams[i := s.streams[i].(known := false)]))
    case RecvUpdate =>
      var u := s.updates[0];
      var s' := s.(updates := s.updates[1..]);
      match u.target
      case Connection =>
        if Int32(s.sendWin) && Int32(u.inc) && Grow(s.sendWin, u.inc).1
        then Some(s'.(sendWin := Grow(s.sendWin, u.inc).0)) else None
      case Stream(i) =>
        if i >= |s.streams| then Some(s')
        else
          var st := s.streams[i];
          if Int32(st.sendWin) && Int32(u.inc) && Grow(st.sendWin, u.inc).1
          then Some(s'.(streams := s.streams[i := st.(sendWin := Grow(st.sendWin, u.inc).0)])) else None
  }

  // ---------------------------------------------------------------- sums

  function InFlight(data: seq<Frame>): nat {
    if data == [] then 0 else Length(data[0]) + InFlight(data[1..])
  }

  function InFlightOn(data: seq<Frame>, i: nat): nat {
    if data == [] then 0 else (if data[0].stream == i then Length(data[0]) else 0) + InFlightOn(data[1..], i)
  }

  function Credit(updates: seq<Update>, t: Target): int {
    if updates == [] then 0 else (if updates[0].target == t then updates[0].inc else 0) + Credit(updates[1..], t)
  }

  function Unread(streams: seq<Strm>): nat {
    if streams == [] then 0 else streams[0].unread + Unread(streams[1..])
  }

  lemma {:induction false} InFlightSnoc(data: seq<Frame>, f: Frame, i: nat)
    ensures InFlight(data + [f]) == InFlight(data) + Length(f)
    ensures InFlightOn(data + [f], i) == InFlightOn(data, i) + (if f.stream == i then Length(f) else 0)
  {
    if data == [] {
      assert [f][1..] == [];
    } else {
      InFlightSnoc(data[1..], f, i);
      assert (data + [f])[1..] == data[1..] + [f];
    }
  }

  lemma {:induction false} CreditSnoc(updates: seq<Update>, u: Update, t: Target)
    ensures Credit(updates + [u], t) == Credit(updates, t) + (if u.target == t then u.inc else 0)
  {
    if updates == [] {
      assert [u][1..] == [];
    } else {
      CreditSnoc(updates[1..], u, t);
      assert (updates + [u])[1..] == updates[1..] + [u];
    }
  }

  lemma {:induction false} CreditNotNegative(updates: seq<Update>, t: Target)
    requires forall k :: 0 <= k < |updates| ==> updates[k].inc > 0
    ensures Credit(updates, t) >= 0
  {
    if updates != [] {
      CreditNotNegative(updates[1..], t);
    }
  }

  lemma {:induction false} UnreadSet(streams: seq<Strm>, i: nat, st: Strm)
    requires i < |streams|
    ensures Unread(streams[i := st]) == Unread(streams) - streams[i].unread + st.unread
    ensures Unread(streams) >= streams[i].unread
  {
    if i == 0 {
      assert streams[i := st][1..] == streams[1..];
    } else {
      UnreadSet(streams[1..], i - 1, st);
      assert streams[i := st][1..] == streams[1..][i - 1 := st];
    }
  }

  lemma {:induction false} UnreadSnoc(streams: seq<Strm>, st: Strm)
    ensures Unread(streams + [st]) == Unread(streams) + st.unread
  {
    if streams == [] {
      assert [st][1..] == [];
    } else {
      UnreadSnoc(streams[1..], st);
      assert (streams + [st])[1..] == streams[1..] + [st];
    }
  }

  // ---------------------------------------------------------------- the invariant

  // Nothing withheld is as large as what the peer may still send.
  predicate NotStuck(f: In) {
    f.unsent == 0 || (f.unsent < MIN_REFRESH && f.unsent < f.avail)
  }

  // Every byte of the window is granted, withheld, unread, or lost, apart from `owed` bytes
  // about to be refunded; and what is granted is the sender's window, or in flight as data
  // or as credit.
  ghost predicate ConnOwing(s: Net, window: int, owed: int) {
    && ValidIn(s.recv) && window <= MAX_WINDOW
    && 0 <= s.sendWin
    && s.sendWin + InFlight(s.data) + Credit(s.updates, Connection) == s.recv.avail
    && s.recv.avail + s.recv.unsent + Unread(s.streams) + s.lost + owed == window
  }

  // The same for a stream, apart from what is in flight: frames for a stream that the receiver
  // has forgotten do not reach its window.
  ghost predicate StreamOwing(s: Net, i: nat, owed: int)
    requires i < |s.streams|
  {
    var st := s.streams[i];
    var sum := st.sendWin + InFlightOn(s.data, i) + Credit(s.updates, Stream(i));
    && ValidIn(st.recv) && 0 <= st.sendWin && st.window <= MAX_WINDOW
    && sum <= st.recv.avail && (st.known ==> sum == st.recv.avail)
    && st.recv.avail + st.recv.unsent + st.unread + st.forgone + owed == st.window
  }

  ghost predicate StreamInv(s: Net, i: nat)
    requires i < |s.streams|
  {
    StreamOwing(s, i, 0) && (s.streams[i].writable ==> NotStuck(s.streams[i].recv))
  }

  ghost predicate StreamsInv(s: Net) {
    forall i :: 0 <= i < |s.streams| ==> StreamInv(s, i)
  }

  // Stream i is owed some bytes.
  ghost predicate StreamsBut(s: Net, i: nat, owed: int) {
    forall j :: 0 <= j < |s.streams| ==> if j == i then StreamOwing(s, j, owed) else StreamInv(s, j)
  }

  ghost predicate WireInv(s: Net) {
    && (forall k :: 0 <= k < |s.data| ==> s.data[k].stream < |s.streams|)
    && (forall k :: 0 <= k < |s.updates| ==>
          s.updates[k].inc > 0 && (s.updates[k].target.Stream? ==> s.updates[k].target.i < |s.streams|))
  }

  // What holds between any two steps.
  ghost predicate Inv(s: Net, window: int) {
    ConnOwing(s, window, 0) && NotStuck(s.recv) && WireInv(s) && StreamsInv(s)
  }

  // ---------------------------------------------------------------- refunds

  lemma AnnounceAdds(updates: seq<Update>, t: Target, inc: int, t': Target)
    requires inc >= 0
    ensures Credit(Announce(updates, t, inc), t') == Credit(updates, t') + (if t == t' then inc else 0)
  {
    if inc > 0 {
      CreditSnoc(updates, Update(t, inc), t');
    }
  }

  // A refund of what is owed on the connection settles it, and touches nothing else.
  lemma CreditConnSettles(s: Net, window: int, n: nat)
    requires ConnOwing(s, window, n) && WireInv(s)
    ensures CreditConn(s, n).Some?
    ensures var s' := CreditConn(s, n).value;
            && ConnOwing(s', window, 0) && NotStuck(s'.recv) && WireInv(s')
            && s'.streams == s.streams && s'.data == s.data && s'.sendWin == s.sendWin && s'.lost == s.lost
            && forall i: nat :: Credit(s'.updates, Stream(i)) == Credit(s.updates, Stream(i))
  {
    hide InFlight, Credit, Unread, Refund;
    RefundConserves(s.recv, n);
    var (f, inc) := Refund(s.recv, n);
    AnnounceAdds(s.updates, Connection, inc, Connection);
    forall i: nat
      ensures Credit(Announce(s.updates, Connection, inc), Stream(i)) == Credit(s.updates, Stream(i))
    {
      AnnounceAdds(s.updates, Connection, inc, Stream(i));
    }
  }

  lemma CreditStreamSettles(s: Net, window: int, i: nat, n: nat)
    requires i < |s.streams| && StreamsBut(s, i, n) && WireInv(s) && ConnOwing(s, window, 0)
    ensures CreditStream(s, i, n).Some?
    ensures var s' := CreditStream(s, i, n).value;
            && ConnOwing(s', window, 0) && WireInv(s') && StreamsInv(s') && s'.recv == s.recv
  {
    hide InFlight, InFlightOn, Credit, Unread, Refund;
    var st := s.streams[i];
    assert StreamOwing(s, i, n);
    RefundConserves(st.recv, n);
    var (f, inc) := Refund(st.recv, n);
    AnnounceAdds(s.updates, Stream(i), inc, Connection);
    UnreadSet(s.streams, i, st.(recv := f));
    var s' := CreditStream(s, i, n).value;
    forall j | 0 <= j < |s'.streams|
      ensures StreamInv(s', j)
    {
      AnnounceAdds(s.updates, Stream(i), inc, Stream(j));
      assert j != i ==> StreamInv(s, j);
    }
  }

  // ---------------------------------------------------------------- steps

  lemma OpenKeeps(s: Net, window: int, w: nat)
    requires Inv(s, window) && w <= MAX_WINDOW
    ensures Inv(Step(s, Open(w)).value, window)
  {
    hide InFlight, InFlightOn, Credit, Unread;
    var s' := Step(s, Open(w)).value;
    UnreadSnoc(s.streams, NewStrm(w));
    forall j | 0 <= j < |s'.streams|
      ensures StreamInv(s', j)
    {
      if j == |s.streams| {
        NothingFor(s, j);
      } else {
        assert StreamInv(s, j);
      }
    }
  }

  // Nothing is in flight for a stream that does not exist yet.
  lemma NothingFor(s: Net, j: nat)
    requires WireInv(s) && j >= |s.streams|
    ensures InFlightOn(s.data, j) == 0 && Credit(s.updates, Stream(j)) == 0
  {
    NoFrames(s.data, j);
    NoUpdates(s.updates, Stream(j));
  }

  lemma {:induction false} NoFrames(data: seq<Frame>, j: nat)
    requires forall k :: 0 <= k < |data| ==> data[k].stream != j
    ensures InFlightOn(data, j) == 0
  {
    if data != [] {
      NoFrames(data[1..], j);
    }
  }

  lemma {:induction false} NoUpdates(updates: seq<Update>, t: Target)
    requires forall k :: 0 <= k < |updates| ==> updates[k].target != t
    ensures Credit(updates, t) == 0
  {
    if updates != [] {
      NoUpdates(updates[1..], t);
    }
  }

  lemma SendKeeps(s: Net, window: int, i: nat, len: nat, pad: nat)
    requires Inv(s, window) && Enabled(s, Send(i, len, pad))
    ensures Inv(Step(s, Send(i, len, pad)).value, window)
  {
    hide InFlight, InFlightOn, Credit, Unread;
    var st := s.streams[i];
    var f := Frame(i, len, pad);
    var s' := Step(s, Send(i, len, pad)).value;
    InFlightSnoc(s.data, f, i);
    UnreadSet(s.streams, i, st.(sendWin := st.sendWin - (len + pad)));
    forall j | 0 <= j < |s'.streams|
      ensures StreamInv(s', j)
    {
      assert StreamInv(s, j);
      InFlightSnoc(s.data, f, j);
    }
  }

  // Changes to a stream that concern neither its windows nor its unread bytes.
  lemma FlagsKeep(s: Net, window: int, i: nat, known: bool, writable: bool)
    requires Inv(s, window) && i < |s.streams| && (known ==> s.streams[i].known) && (writable ==> s.streams[i].writable)
    ensures Inv(s.(streams := s.streams[i := s.streams[i].(known := known, writable := writable)]), window)
  {
    hide InFlight, InFlightOn, Credit, Unread;
    var s' := s.(streams := s.streams[i := s.streams[i].(known := known, writable := writable)]);
    UnreadSet(s.streams, i, s'.streams[i]);
    forall j | 0 <= j < |s'.streams|
      ensures StreamInv(s', j)
    {
      assert StreamInv(s, j);
    }
  }

  // n bytes leave the body buffer of stream i. The connection is owed all of them, the stream
  // those that it does not forgo.
  lemma TakeUnread(s: Net, window: int, i: nat, st': Strm, n: nat, owed: nat)
    requires Inv(s, window) && i < |s.streams| && n <= s.streams[i].unread
    requires var st := s.streams[i];
             || (st' == Drained(st, n, true) && owed == n)
             || (st' == Drained(st, n, false) && owed == 0)
             || (st' == BodyClosed(st) && n == st.unread && owed == 0)
    ensures var s' := s.(streams := s.streams[i := st']);
            && ConnOwing(s', window, n) && WireInv(s') && StreamsBut(s', i, owed)
            && (st'.writable ==> NotStuck(st'.recv))
  {
    hide InFlight, InFlightOn, Credit, Unread;
    var s' := s.(streams := s.streams[i := st']);
    UnreadSet(s.streams, i, st');
    assert StreamInv(s, i);
    forall j | 0 <= j < |s'.streams|
      ensures if j == i then StreamOwing(s', j, owed) else StreamInv(s', j)
    {
      assert StreamInv(s, j);
    }
  }

  // Nothing is owed to stream i any more.
  lemma Settled(s: Net, i: nat)
    requires i < |s.streams| && StreamsBut(s, i, 0) && (s.streams[i].writable ==> NotStuck(s.streams[i].recv))
    ensures StreamsInv(s)
  {
    hide StreamOwing, NotStuck;
    assert StreamOwing(s, i, 0);
  }

  lemma SameStreams(s: Net, s': Net, i: nat, owed: int)
    requires StreamsBut(s, i, owed) && s'.streams == s.streams && s'.data == s.data
    requires forall i: nat :: Credit(s'.updates, Stream(i)) == Credit(s.updates, Stream(i))
    ensures StreamsBut(s', i, owed)
  {
    hide InFlightOn, Credit, NotStuck;
    forall j | 0 <= j < |s'.streams|
      ensures if j == i then StreamOwing(s', j, owed) else StreamInv(s', j)
    {
      assert if j == i then StreamOwing(s, j, owed) else StreamInv(s, j);
    }
  }

  lemma ReadKeeps(s: Net, window: int, i: nat, n: nat, more: bool)
    requires Inv(s, window) && Enabled(s, Read(i, n, more))
    ensures Step(s, Read(i, n, more)).Some? && Inv(Step(s, Read(i, n, more)).value, window)
  {
    hide ConnOwing, StreamsBut, StreamsInv, WireInv, CreditConn, CreditStream, Credit, NotStuck;
    var st' := Drained(s.streams[i], n, more);
    var s1 := s.(streams := s.streams[i := st']);
    var owed := if more then n else 0;
    TakeUnread(s, window, i, st', n, owed);
    CreditConnSettles(s1, window, n);
    var s2 := CreditConn(s1, n).value;
    SameStreams(s1, s2, i, owed);
    if more {
      CreditStreamSettles(s2, window, i, n);
    } else {
      Settled(s2, i);
    }
  }

  lemma OverrunKeeps(s: Net, window: int, i: nat, n: nat)
    requires Inv(s, window) && Enabled(s, Overrun(i, n))
    ensures Inv(Step(s, Overrun(i, n)).value, window)
  {
    hide InFlight, InFlightOn, Credit, Unread, StreamsBut, StreamsInv;
    var st' := Drained(s.streams[i], n, false);
    TakeUnread(s, window, i, st', n, 0);
    var s1 := s.(streams := s.streams[i := st']);
    var s2 := s1.(lost := s.lost + n);
    SameStreams(s1, s2, i, 0);
    Settled(s2, i);
  }

  lemma CloseKeeps(s: Net, window: int, i: nat)
    requires Inv(s, window) && Enabled(s, CloseBody(i))
    ensures Step(s, CloseBody(i)).Some? && Inv(Step(s, CloseBody(i)).value, window)
  {
    hide ConnOwing, StreamsBut, StreamsInv, WireInv, CreditConn, Credit, NotStuck;
    var n := s.streams[i].unread;
    var st' := BodyClosed(s.streams[i]);
    var s1 := s.(streams := s.streams[i := st']);
    TakeUnread(s, window, i, st', n, 0);
    Settled(s1, i);
    if n > 0 {
      CreditConnSettles(s1, window, n);
      var s2 := CreditConn(s1, n).value;
      SameStreams(s1, s2, i, 0);
      Settled(s2, i);
    }
  }

  lemma UpdateKeeps(s: Net, window: int)
    requires Inv(s, window) && Enabled(s, RecvUpdate)
    ensures Step(s, RecvUpdate).Some? && Inv(Step(s, RecvUpdate).value, window)
  {
    hide InFlight, InFlightOn, Unread, Grow;
    var u := s.updates[0];
    var rest := s.updates[1..];
    CreditNotNegative(rest, u.target);
    match u.target
    case Connection =>
      GrowExact(s.sendWin, u.inc);
      var s' := s.(updates := rest, sendWin := s.sendWin + u.inc);
      forall j | 0 <= j < |s'.streams|
        ensures StreamInv(s', j)
      {
        assert StreamInv(s, j);
      }
    case Stream(i) =>
      var st := s.streams[i];
      assert StreamInv(s, i);
      GrowExact(st.sendWin, u.inc);
      var st' := st.(sendWin := st.sendWin + u.inc);
      var s' := s.(updates := rest, streams := s.streams[i := st']);
      UnreadSet(s.streams, i, st');
      forall j | 0 <= j < |s'.streams|
        ensures StreamInv(s', j)
      {
        assert StreamInv(s, j);
      }
  }

  // ---------------------------------------------------------------- receiving data

  // A frame for a stream the receiver does not look up any more.
  lemma DiscardKeeps(s: Net, window: int, f: Frame)
    requires Inv(s, window) && s.data != [] && f == s.data[0] && !s.streams[f.stream].known
    ensures var s0 := s.(data := s.data[1..]);
            Receive(s0, f).Some? && Inv(Receive(s0, f).value, window)
  {
    hide Credit, Unread, CreditConn;
    var n := Length(f);
    var s0 := s.(data := s.data[1..]);
    forall j | 0 <= j < |s0.streams|
      ensures StreamInv(s0, j)
    {
      assert StreamInv(s, j);
    }
    if n > 0 {
      CreditNotNegative(s.updates, Connection);
      var s1 := s0.(recv := s0.recv.(avail := s0.recv.avail - n));
      assert ConnOwing(s1, window, n);
      CreditConnSettles(s1, window, n);
      var s2 := CreditConn(s1, n).value;
      forall j | 0 <= j < |s2.streams|
        ensures StreamInv(s2, j)
      {
        assert StreamInv(s0, j);
      }
    }
  }

  // The window accounting of a frame on a known stream, before any refund.
  lemma TakeBoth(s: Net, window: int, f: Frame)
    requires Inv(s, window) && s.data != [] && f == s.data[0] && s.streams[f.stream].known
    ensures var n, st := Length(f), s.streams[f.stream];
            && n <= s.recv.avail && n <= st.recv.avail
            && var keep := Keeps(st, f);
               var s1 := s.(data := s.data[1..], recv := s.recv.(avail := s.recv.avail - n),
                            streams := s.streams[f.stream := Taken(st, f)]);
               && ConnOwing(s1, window, if keep then f.pad else n) && WireInv(s1)
               && StreamsBut(s1, f.stream, if keep then f.pad else 0)
  {
    hide Credit, Unread;
    var n, i := Length(f), f.stream;
    var st := s.streams[i];
    assert StreamInv(s, i);
    CreditNotNegative(s.updates, Connection);
    CreditNotNegative(s.updates, Stream(i));
    var st' := Taken(st, f);
    var owed := if Keeps(st, f) then f.pad else 0;
    var s1 := s.(data := s.data[1..], recv := s.recv.(avail := s.recv.avail - n), streams := s.streams[i := st']);
    UnreadSet(s.streams, i, st');
    forall j | 0 <= j < |s1.streams|
      ensures if j == i then StreamOwing(s1, j, owed) else StreamInv(s1, j)
    {
      assert StreamInv(s, j);
    }
  }

  lemma AcceptKeeps(s: Net, window: int, f: Frame)
    requires Inv(s, window) && s.data != [] && f == s.data[0] && s.streams[f.stream].known && Length(f) > 0
    ensures var s0 := s.(data := s.data[1..]);
            Receive(s0, f).Some? && Inv(Receive(s0, f).value, window)
  {
    hide ConnOwing, StreamsBut, StreamsInv, CreditConn, CreditStream, Credit, NotStuck;
    var n, i := Length(f), f.stream;
    var st := s.streams[i];
    var keep := Keeps(st, f);
    var owed := if keep then f.pad else n;
    TakeBoth(s, window, f);
    var s1 := s.(data := s.data[1..], recv := s.recv.(avail := s.recv.avail - n), streams := s.streams[i := Taken(st, f)]);
    CreditConnSettles(s1, window, owed);
    var s2 := CreditConn(s1, owed).value;
    SameStreams(s1, s2, i, if keep then f.pad else 0);
    if keep {
      CreditStreamSettles(s2, window, i, f.pad);
    } else {
      Settled(s2, i);
    }
  }

  lemma ReceiveKeeps(s: Net, window: int)
    requires Inv(s, window) && s.data != []
    ensures Step(s, RecvData).Some? && Inv(Step(s, RecvData).value, window)
  {
    hide ConnOwing, StreamOwing, StreamsInv, Receive, NotStuck;
    var f := s.data[0];
    if !s.streams[f.stream].known {
      DiscardKeeps(s, window, f);
    } else if Length(f) > 0 {
      AcceptKeeps(s, window, f);
    } else {
      EmptyFrame(s, window);
    }
  }

  lemma EmptyFrame(s: Net, window: int)
    requires Inv(s, window) && s.data != [] && Length(s.data[0]) == 0
    ensures var s0 := s.(data := s.data[1..]);
            Receive(s0, s.data[0]) == Some(s0) && Inv(s0, window)
  {
    hide Credit, Unread;
    var s0 := s.(data := s.data[1..]);
    forall j | 0 <= j < |s0.streams|
      ensures StreamInv(s0, j)
    {
      assert StreamInv(s, j);
    }
  }

  // ---------------------------------------------------------------- whole runs

  // No step of a conforming sender is rejected, no window overflows, and all of them keep
  // the invariant.
  lemma StepKeeps(s: Net, window: int, ev: Event)
    requires Inv(s, window) && Enabled(s, ev)
    ensures Step(s, ev).Some? && Inv(Step(s, ev).value, window)
  {
    hide Inv;
    match ev
    case Open(w) => OpenKeeps(s, window, w);
    case Send(i, len, pad) => SendKeeps(s, window, i, len, pad);
    case RecvData => InvData(s, window);
    case Read(i, n, more) => ReadKeeps(s, window, i, n, more);
    case Overrun(i, n) => OverrunKeeps(s, window, i, n);
    case StreamError(i) => FlagsKeep(s, window, i, s.streams[i].known, false);
    case CloseBody(i) => CloseKeeps(s, window, i);
    case Forget(i) => FlagsKeep(s, window, i, false, s.streams[i].writable);
    case RecvUpdate => UpdateKeeps(s, window);
  }

  lemma InvData(s: Net, window: int)
    requires Inv(s, window) && s.data != []
    ensures Step(s, RecvData).Some? && Inv(Step(s, RecvData).value, window)
  {
    ReceiveKeeps(s, window);
  }

  function Initial(window: nat): Net {
    Net(window, In(window, 0), [], [], [], 0)
  }

  // Events that are not enabled do not happen.
  function Run(s: Net, events: seq<Event>): Option<Net>
    decreases |events|
  {
    if events == [] then Some(s)
    else if !Enabled(s, events[0]) then Run(s, events[1..])
    else match Step(s, events[0])
      case None => None
      case Some(s') => Run(s', events[1..])
  }

  lemma {:induction false} RunKeeps(s: Net, window: int, events: seq<Event>)
    requires Inv(s, window)
    ensures Run(s, events).Some? && Inv(Run(s, events).value, window)
    decreases |events|
  {
    hide Inv, Step, Enabled;
    if events == [] {
    } else if Enabled(s, events[0]) {
      StepKeeps(s, window, events[0]);
      RunKeeps(Step(s, events[0]).value, window, events[1..]);
    } else {
      RunKeeps(s, window, events[1..]);
    }
  }

  // In every reachable state: the bytes granted, withheld, unread and lost make up the window;
  // and a sender that has no credit left and nothing in flight is not kept waiting for
  // withheld credit: the whole window is unread (or was lost to an overrun).
  lemma ConnectionFlow(window: nat, events: seq<Event>)
    requires window <= MAX_WINDOW
    ensures var r := Run(Initial(window), events);
            && r.Some?
            && var s := r.value;
               && s.recv.avail + s.recv.unsent + Unread(s.streams) + s.lost == window
               && s.sendWin + InFlight(s.data) + Credit(s.updates, Connection) == s.recv.avail
               && (s.sendWin == 0 && s.data == [] && s.updates == [] ==> Unread(s.streams) + s.lost == window)
               && (!Overruns(events) ==> s.lost == 0)
  {
    hide Run, Unread, Opened, Overruns;
    StartInv(window);
    RunKeeps(Initial(window), window, events);
    RunForgoes(Initial(window), events);
  }

  lemma StartInv(window: nat)
    requires window <= MAX_WINDOW
    ensures Inv(Initial(window), window)
  {
    assert Unread([]) == 0;
  }

  // ---------------------------------------------------------------- what streams get back

  // The bytes of stream i's window that a step gives no credit for: those read past the declared
  // length or with the last of the body, those in a body that is closed, and those that come in
  // when the body buffer takes no more.
  function Forgone(s: Net, ev: Event, i: nat): nat
    requires Enabled(s, ev) && i < |s.streams|
  {
    match ev
    case Overrun(j, n) => if i == j then n else 0
    case Read(j, n, more) => if i == j && !more then n else 0
    case CloseBody(j) => if i == j then s.streams[i].unread else 0
    case RecvData =>
      var st := s.streams[i];
      if s.data[0].stream == i && st.known && !st.writable && s.data[0].len > 0 then Length(s.data[0]) else 0
    case _ => 0
  }

  // Nothing is done to stream i that stops it from getting credit.
  predicate Spares(ev: Event, i: nat) {
    match ev
    case Overrun(j, _) => i != j
    case Read(j, _, more) => i == j ==> more
    case StreamError(j) => i != j
    case CloseBody(j) => i != j
    case Forget(j) => i != j
    case _ => true
  }

  function WindowOf(ev: Event): seq<nat> {
    if ev.Open? && ev.window <= MAX_WINDOW then [ev.window] else []
  }

  function Windows(streams: seq<Strm>): (ws: seq<nat>)
    ensures |ws| == |streams|
  {
    seq(|streams|, i requires 0 <= i < |streams| => streams[i].window)
  }

  // A step changes what a stream and the connection forgo by as much as it must.
  lemma StepForgoes(s: Net, ev: Event, i: nat)
    requires Enabled(s, ev) && Step(s, ev).Some? && i < |s.streams|
    ensures var s' := Step(s, ev).value;
            && s'.lost == s.lost + (if ev.Overrun? then ev.n else 0)
            && i < |s'.streams| && s'.streams[i].window == s.streams[i].window
            && s'.streams[i].forgone == s.streams[i].forgone + Forgone(s, ev, i)
            && (Spares(ev, i) ==>
                  s'.streams[i].known == s.streams[i].known && s'.streams[i].writable == s.streams[i].writable)
  {
    hide Refund, Grow;
  }

  lemma StepOpens(s: Net, ev: Event)
    requires Enabled(s, ev) && Step(s, ev).Some?
    ensures var s' := Step(s, ev).value;
            && Windows(s'.streams) == Windows(s.streams) + WindowOf(ev)
            && s'.lost == s.lost + (if ev.Overrun? then ev.n else 0)
  {
    var s' := Step(s, ev).value;
    assert |s'.streams| == |s.streams| + |WindowOf(ev)| by {
      hide Refund, Grow;
    }
    forall j: nat | j < |s.streams|
      ensures Windows(s'.streams)[j] == Windows(s.streams)[j]
    {
      hide Step, Enabled;
      StepForgoes(s, ev, j);
    }
    if ev.Open? {
      assert Windows(s'.streams)[|s.streams|] == ev.window;
    }
  }

  ghost predicate Served(s: Net, i: nat) {
    i < |s.streams| ==> s.streams[i].known && s.streams[i].writable && s.streams[i].forgone == 0
  }

  lemma SparedStep(s: Net, ev: Event, i: nat)
    requires Enabled(s, ev) && Step(s, ev).Some? && Served(s, i) && Spares(ev, i)
    ensures Served(Step(s, ev).value, i)
  {
    if i < |s.streams| {
      hide Step, Enabled;
      StepForgoes(s, ev, i);
      NothingForgone(s, ev, i);
    } else {
      hide Refund, Grow;
    }
  }

  lemma NothingForgone(s: Net, ev: Event, i: nat)
    requires Enabled(s, ev) && i < |s.streams| && Served(s, i) && Spares(ev, i)
    ensures Forgone(s, ev, i) == 0
  {
  }

  lemma {:induction false} SparedRun(s: Net, events: seq<Event>, i: nat)
    requires Served(s, i) && Run(s, events).Some? && forall ev :: ev in events ==> Spares(ev, i)
    ensures Served(Run(s, events).value, i)
    decreases |events|
  {
    hide Served, Step, Enabled, Spares;
    if events == [] {
    } else if Enabled(s, events[0]) {
      SparedStep(s, events[0], i);
      SparedRun(Step(s, events[0]).value, events[1..], i);
    } else {
      SparedRun(s, events[1..], i);
    }
  }

  // The windows of the streams that a run opens.
  function Opened(events: seq<Event>): seq<nat> {
    if events == [] then [] else WindowOf(events[0]) + Opened(events[1..])
  }

  function Overruns(events: seq<Event>): bool {
    exists ev :: ev in events && ev.Overrun?
  }

  lemma {:induction false} RunForgoes(s: Net, events: seq<Event>)
    requires Run(s, events).Some?
    ensures var t := Run(s, events).value;
            Windows(t.streams) == Windows(s.streams) + Opened(events) && (!Overruns(events) ==> t.lost == s.lost)
    decreases |events|
  {
    hide Step, Enabled, Windows, WindowOf;
    if events == [] {
    } else if Enabled(s, events[0]) {
      assert !Overruns(events) ==> !events[0].Overrun?;
      StepOpens(s, events[0]);
      RunForgoes(Step(s, events[0]).value, events[1..]);
    } else {
      NotOpened(s, events[0]);
      RunForgoes(s, events[1..]);
    }
  }

  lemma NotOpened(s: Net, ev: Event)
    requires !Enabled(s, ev)
    ensures WindowOf(ev) == []
  {
  }

  // In every reachable state, and for every stream: the bytes granted, withheld, unread and
  // forgone make up the window it was opened with. As long as it is known and its buffer takes
  // bytes, a sender that has no window left there, and nothing in flight for it, waits for a
  // reader and for nothing else. A stream that is never overrun, cut short, closed or forgotten
  // forgoes nothing.
  lemma StreamFlow(window: nat, events: seq<Event>, i: nat)
    requires window <= MAX_WINDOW
    ensures var r := Run(Initial(window), events);
            && r.Some? && |r.value.streams| == |Opened(events)|
            && (i < |Opened(events)| ==>
                  var s, st := r.value, r.value.streams[i];
                  var coming := InFlightOn(s.data, i) + Credit(s.updates, Stream(i));
                  && st.window == Opened(events)[i]
                  && st.recv.avail + st.recv.unsent + st.unread + st.forgone == st.window
                  && (st.known ==> st.sendWin + coming == st.recv.avail)
                  && (st.known && st.writable && st.sendWin == 0 && coming == 0 ==> st.unread + st.forgone == st.window)
                  && ((forall ev :: ev in events ==> Spares(ev, i)) ==> st.known && st.writable && st.forgone == 0))
  {
    hide Run, InFlight, InFlightOn, Credit, Unread, Opened, Spares;
    var s0 := Initial(window);
    StartInv(window);
    RunKeeps(s0, window, events);
    RunForgoes(s0, events);
    var s := Run(s0, events).value;
    assert Windows(s.streams) == Opened(events);
    if i < |s.streams| {
      assert StreamInv(s, i);
      assert Windows(s.streams)[i] == s.streams[i].window;
    }
    if forall ev :: ev in events ==> Spares(ev, i) {
      SparedRun(s0, events, i);
    }
  }
}
