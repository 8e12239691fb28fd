/** The life of the streams of a server connection (section 5.1 of RFC 7540). */
module ServerStreams {

  datatype StreamState = Idle | Open | HalfClosedLocal | HalfClosedRemote | Closed

  datatype Stream = Stream(state: StreamState, resetQueued: bool, gotTrailer: bool)

  datatype Server = Server(streams: map<nat, Stream>, maxClientID: nat, maxPushID: nat, curClient: int, curPushed: int)

  // How processing ends: in a connection error, in a stream error, or well.
  datatype Verdict = Fine | BadStream(id: nat) | BadConnection

  // What the serve loop handles in one turn. good tells whether checks of the content of a frame
  // pass that are not part of this model; discarded, that the handler has closed the body.
  datatype Event =
    | Headers(id: nat, ended: bool, good: bool, fatal: bool)
    | Data(id: nat, ended: bool, good: bool, discarded: bool)
    | ResetFrame(id: nat)
    | OtherError(v: Verdict, id: nat)
    | WroteEnd(id: nat)
    | WroteReset(id: nat)
    | WroteHandlerPanic(id: nat)
    | Promise(clientMax: nat)

  // ---------------------------------------------------------------- states

  // Streams that are not known are closed if their number, or a higher one, has been used.
  function StateOf(s: Server, id: nat): StreamState {
    if id in s.streams then s.streams[id].state
    else if id % 2 == 1 then (if id <= s.maxClientID then Closed else Idle)
    else if id <= s.maxPushID then Closed
    else Idle
  }

  function Rank(t: StreamState): nat {
    match t
    case Idle => 0
    case Open => 1
    case HalfClosedLocal => 2
    case HalfClosedRemote => 2
    case Closed => 3
  }

  // Forward or not at all; and not from one half-closed state to the other.
  predicate Forward(a: StreamState, b: StreamState) {
    a == b || Rank(a) < Rank(b)
  }

  ghost function Only(ids: set<nat>, parity: nat): set<nat> {
    set id | id in ids && id % 2 == parity
  }

  ghost function Ids(s: Server, parity: nat): set<nat> {
    Only(s.streams.Keys, parity)
  }

  lemma OnlyMore(ids: set<nat>, id: nat, parity: nat)
    requires id !in ids
    ensures |Only(ids + {id}, parity)| == |Only(ids, parity)| + if id % 2 == parity then 1 else 0
  {
    if id % 2 == parity {
      assert Only(ids + {id}, parity) == Only(ids, parity) + {id};
    } else {
      assert Only(ids + {id}, parity) == Only(ids, parity);
    }
  }

  ghost predicate Counted(s: Server) {
    s.curClient == |Ids(s, 1)| && s.curPushed == |Ids(s, 0)|
  }

  ghost predicate Placed(s: Server) {
    && (forall id :: id in s.streams ==> s.streams[id].state != Idle && s.streams[id].state != Closed)
    && (forall id :: id in s.streams && id % 2 == 1 ==> id <= s.maxClientID)
    && (forall id :: id in s.streams && id % 2 == 0 ==> 0 < id <= s.maxPushID && s.streams[id].state == HalfClosedRemote)
    && (forall id :: id in s.streams && s.streams[id].state == HalfClosedLocal ==> s.streams[id].resetQueued)
    && s.maxPushID % 2 == 0
  }

  ghost predicate Inv(s: Server, advMax: nat) {
    Placed(s) && Counted(s) && s.curClient <= advMax
  }

  // ---------------------------------------------------------------- steps

  function CloseStream(s: Server, id: nat): Server {
    s.(streams := s.streams - {id},
       curClient := s.curClient - (if id % 2 == 1 then 1 else 0),
       curPushed := s.curPushed - (if id % 2 == 0 then 1 else 0))
  }

  function NewStream(s: Server, id: nat, state: StreamState): Server {
    s.(streams := s.streams[id := Stream(state, false, false)],
       curClient := s.curClient + (if id % 2 == 1 then 1 else 0),
       curPushed := s.curPushed + (if id % 2 == 0 then 1 else 0))
  }

  // A reset is queued; the stream goes on until it has been written.
  function QueueReset(s: Server, id: nat): Server {
    if id in s.streams then s.(streams := s.streams[id := s.streams[id].(resetQueued := true)]) else s
  }

  // What the serve loop does about an error in a frame on stream id.
  function Answer(s: Server, v: Verdict, id: nat): Server {
    match v
    case Fine => s
    case BadStream(bad) => QueueReset(s, bad)
    case BadConnection => s.(maxClientID := if id > s.maxClientID then id else s.maxClientID)
  }

  function EndStream(s: Server, id: nat): Server
    requires id in s.streams
  {
    s.(streams := s.streams[id := s.streams[id].(state := HalfClosedRemote)])
  }

  // Trailers come once, and end the stream.
  function ProcessTrailers(s: Server, id: nat, ended: bool, good: bool): (Server, Verdict)
    requires id in s.streams
  {
    var st := s.streams[id];
    var t := s.(streams := s.streams[id := st.(gotTrailer := true)]);
    if st.gotTrailer then (s, BadConnection)
    else if !ended || !good then (t, BadStream(id))
    else (EndStream(t, id), Fine)
  }

  function ProcessHeaders(s: Server, advMax: nat, id: nat, ended: bool, good: bool, fatal: bool): (Server, Verdict) {
    if id % 2 != 1 then (s, BadConnection)
    else if id in s.streams then
      var st := s.streams[id];
      if st.resetQueued then (s, Fine)
      else if st.state == HalfClosedRemote then (s, BadStream(id))
      else ProcessTrailers(s, id, ended, good)
    else if id <= s.maxClientID then (s, BadConnection)
    else
      var t := s.(maxClientID := id);
      if t.curClient + 1 > advMax then (t, BadStream(id))
      else (NewStream(t, id, if ended then HalfClosedRemote else Open),
            if fatal then BadConnection else if good then Fine else BadStream(id))
  }

  function ProcessData(s: Server, id: nat, ended: bool, good: bool, discarded: bool): (Server, Verdict) {
    if id == 0 || StateOf(s, id) == Idle then (s, BadConnection)
    else if id !in s.streams then (s, BadStream(id))
    else
      var st := s.streams[id];
      if st.state != Open || st.gotTrailer || st.resetQueued then (s, if st.resetQueued && good then Fine else BadStream(id))
      else if !good then (s, BadStream(id))
      else if discarded || !ended then (s, Fine)
      else (EndStream(s, id), Fine)
  }

  function ProcessReset(s: Server, id: nat): (Server, Verdict) {
    if StateOf(s, id) == Idle then (s, BadConnection)
    else if id in s.streams then (CloseStream(s, id), Fine)
    else (s, Fine)
  }

  // The last frame of a response has been written. An open stream is reset then.
  function WroteEndStream(s: Server, id: nat): Server {
    if id !in s.streams then s
    else match s.streams[id].state
      case Open =>
        QueueReset(s.(streams := s.streams[id := s.streams[id].(state := HalfClosedLocal)]), id)
      case HalfClosedRemote => CloseStream(s, id)
      case _ => s
  }

  function WroteRst(s: Server, id: nat): Server {
    if id in s.streams then CloseStream(s, id) else s
  }

  function PushPromise(s: Server, clientMax: nat): Server {
    if s.curPushed + 1 > clientMax || s.maxPushID + 2 >= 0x8000_0000 then s
    else
      var t := s.(maxPushID := s.maxPushID + 2);
      NewStream(t, t.maxPushID, HalfClosedRemote)
  }

  // The source panics if a handler's panic is reported for a stream that is closed.
  predicate Legal(s: Server, e: Event) {
    e.WroteHandlerPanic? ==> e.id in s.streams
  }

  function Step(s: Server, advMax: nat, e: Event): Server
    requires Legal(s, e)
  {
    match e
    case Headers(id, ended, good, fatal) =>
      var (t, v) := ProcessHeaders(s, advMax, id, ended, good, fatal);
      Answer(t, v, id)
    case Data(id, ended, good, discarded) =>
      var (t, v) := ProcessData(s, id, ended, good, discarded);
      Answer(t, v, id)
    case ResetFrame(id) =>
      var (t, v) := ProcessReset(s, id);
      Answer(t, v, id)
    case OtherError(v, id) => Answer(s, v, id)
    case WroteEnd(id) => WroteEndStream(s, id)
    case WroteReset(id) => WroteRst(s, id)
    case WroteHandlerPanic(id) => CloseStream(s, id)
    case Promise(clientMax) => PushPromise(s, clientMax)
  }

  // ---------------------------------------------------------------- answers

  // A request body may still come.
  predicate Receiving(s: Server, id: nat) {
    id in s.streams && s.streams[id].state == Open && !s.streams[id].gotTrailer && !s.streams[id].resetQueued
  }

  predicate ResetQueued(s: Server, id: nat) {
    id in s.streams && s.streams[id].resetQueued
  }

  // DATA is taken if and only if it is good, on a stream that may receive it or has a reset
  // queued. It ends the former if it says so and its content was not discarded; DATA for a stream
  // that never was is an error of the connection, and all else one of the stream.
  lemma DataAnswer(s: Server, id: nat, ended: bool, good: bool, discarded: bool)
    ensures var (t, v) := ProcessData(s, id, ended, good, discarded);
            var known := id != 0 && StateOf(s, id) != Idle;
            && v in {Fine, BadStream(id), BadConnection}
            && (v == BadConnection <==> !known)
            && (v == Fine <==> known && good && (Receiving(s, id) || ResetQueued(s, id)))
            && (known && Receiving(s, id) ==>
                  && StateOf(t, id) == (if good && ended && !discarded then HalfClosedRemote else Open)
                  && id in t.streams && !t.streams[id].resetQueued && !t.streams[id].gotTrailer
                  && (forall other :: other != id ==> (other in t.streams <==> other in s.streams))
                  && (forall other :: other != id && other in t.streams ==> t.streams[other] == s.streams[other]))
            && (!(known && Receiving(s, id)) ==> t == s)
  {
  }

  // HEADERS on an idle stream of the client open it, in a state that END_STREAM decides, if one
  // more stream is within the limit, and are refused with an error of the stream otherwise. On
  // one that is open they are its trailers, once, and must end it.
  lemma HeadersAnswer(s: Server, advMax: nat, id: nat, ended: bool, good: bool, fatal: bool)
    requires Inv(s, advMax)
    ensures var (t, v) := ProcessHeaders(s, advMax, id, ended, good, fatal);
            var state := StateOf(s, id);
            && v in {Fine, BadStream(id), BadConnection}
            && (id % 2 == 0 || state == Closed ==> v == BadConnection && t == s)
            && (id % 2 == 1 && state == Idle ==>
                  && t.maxClientID == id
                  && (s.curClient < advMax ==>
                        && StateOf(t, id) == (if ended then HalfClosedRemote else Open)
                        && id in t.streams && !t.streams[id].resetQueued && !t.streams[id].gotTrailer
                        && t.streams == s.streams[id := t.streams[id]] && t.curClient == s.curClient + 1
                        && (v == BadConnection <==> fatal) && (v == Fine <==> good && !fatal))
                  && (s.curClient >= advMax ==> v == BadStream(id) && StateOf(t, id) == Closed && t.streams == s.streams))
            && (id % 2 == 1 && ResetQueued(s, id) ==> v == Fine && t == s)
            && (id % 2 == 1 && state == HalfClosedRemote && !ResetQueued(s, id) ==> v == BadStream(id) && t == s)
            && (id % 2 == 1 && state == Open && !ResetQueued(s, id) ==>
                  && (v == BadConnection <==> !Receiving(s, id))
                  && (v == Fine <==> Receiving(s, id) && ended && good)
                  && StateOf(t, id) == (if v == Fine then HalfClosedRemote else Open)
                  && id in t.streams && t.streams[id].gotTrailer && t.streams == s.streams[id := t.streams[id]])
            && (id % 2 == 1 && state == HalfClosedLocal ==> ResetQueued(s, id))
  {
    hide Counted;
  }

  // A stream is promised if and only if the client takes one more and a number is left; it was
  // idle and has nothing to receive.
  lemma PromiseAnswer(s: Server, advMax: nat, clientMax: nat)
    requires Inv(s, advMax)
    ensures var t := PushPromise(s, clientMax);
            var id := s.maxPushID + 2;
            if s.curPushed < clientMax && id < 0x8000_0000 then
              && StateOf(s, id) == Idle && StateOf(t, id) == HalfClosedRemote
              && t.maxPushID == id && t.curPushed == s.curPushed + 1
              && id in t.streams && !t.streams[id].resetQueued && t.streams - {id} == s.streams
            else t == s
  {
    hide Counted;
  }

  // The end of a response closes a stream whose request has ended, and half-closes and resets
  // one whose request has not.
  lemma WroteAnswer(s: Server, advMax: nat, id: nat)
    requires Inv(s, advMax)
    ensures var t := WroteEndStream(s, id);
            && StateOf(t, id) == (match StateOf(s, id)
                                  case Open => HalfClosedLocal
                                  case HalfClosedRemote => Closed
                                  case other => other)
            && (StateOf(s, id) == Open ==> ResetQueued(t, id))
            && (StateOf(s, id) in {Idle, HalfClosedLocal, Closed} ==> t == s)
            && t.streams - {id} == s.streams - {id}
  {
    hide Counted;
  }

  // ---------------------------------------------------------------- every step

  // Every stream moves forward or not at all, and new streams come from idle ones.
  ghost predicate Moves(s: Server, t: Server) {
    && (forall id :: Forward(StateOf(s, id), StateOf(t, id)))
    && (forall id :: id in t.streams && id !in s.streams ==> StateOf(s, id) == Idle)
    && s.maxClientID <= t.maxClientID && s.maxPushID <= t.maxPushID
  }

  lemma SameIds(s: Server, t: Server)
    requires s.streams.Keys == t.streams.Keys
    ensures Ids(s, 0) == Ids(t, 0) && Ids(s, 1) == Ids(t, 1)
  {
  }

  lemma CloseKeeps(s: Server, advMax: nat, id: nat)
    requires Inv(s, advMax) && id in s.streams
    ensures Inv(CloseStream(s, id), advMax) && Moves(s, CloseStream(s, id))
  {
    hide Counted;
    CloseCounted(s, id);
  }

  lemma CloseCounted(s: Server, id: nat)
    requires Counted(s) && id in s.streams
    ensures Counted(CloseStream(s, id))
  {
    hide Only;
    var rest := s.streams.Keys - {id};
    assert (s.streams - {id}).Keys == rest && rest + {id} == s.streams.Keys;
    OnlyMore(rest, id, 0);
    OnlyMore(rest, id, 1);
  }

  lemma NewCounted(s: Server, id: nat, state: StreamState)
    requires Counted(s) && id !in s.streams
    ensures Counted(NewStream(s, id, state))
  {
    hide Only;
    assert NewStream(s, id, state).streams.Keys == s.streams.Keys + {id};
    OnlyMore(s.streams.Keys, id, 0);
    OnlyMore(s.streams.Keys, id, 1);
  }

  lemma NewKeeps(s: Server, advMax: nat, id: nat, state: StreamState)
    requires Inv(s, advMax) && StateOf(s, id) == Idle
    requires if id % 2 == 1 then state in {Open, HalfClosedRemote} && s.curClient + 1 <= advMax
             else id == s.maxPushID + 2 && state == HalfClosedRemote
    ensures var s' := if id % 2 == 1 then s.(maxClientID := id) else s.(maxPushID := id);
            var t := NewStream(s', id, state);
            Inv(t, advMax) && Moves(s, t)
  {
    hide Counted;
    var s' := if id % 2 == 1 then s.(maxClientID := id) else s.(maxPushID := id);
    SameCounts(s, s');
    NewCounted(s', id, state);
  }

  lemma SameCounts(s: Server, t: Server)
    requires Counted(s) && s.streams.Keys == t.streams.Keys && s.curClient == t.curClient && s.curPushed == t.curPushed
    ensures Counted(t)
  {
    SameIds(s, t);
  }

  // A stream changed in place.
  lemma ChangeKeeps(s: Server, advMax: nat, id: nat, st: Stream)
    requires Inv(s, advMax) && id in s.streams && Forward(s.streams[id].state, st.state)
    requires st.state in {Open, HalfClosedLocal, HalfClosedRemote} && (st.state == HalfClosedLocal ==> st.resetQueued)
    ensures var t := s.(streams := s.streams[id := st]);
            Inv(t, advMax) && Moves(s, t)
  {
    var t := s.(streams := s.streams[id := st]);
    SameIds(s, t);
  }

  lemma QueueResetKeeps(s: Server, advMax: nat, id: nat)
    requires Inv(s, advMax)
    ensures Inv(QueueReset(s, id), advMax) && Moves(s, QueueReset(s, id))
  {
    if id in s.streams {
      ChangeKeeps(s, advMax, id, s.streams[id].(resetQueued := true));
    }
  }

  lemma RaiseKeeps(s: Server, advMax: nat, id: nat)
    requires Inv(s, advMax) && id >= s.maxClientID
    ensures var t := s.(maxClientID := id);
            Inv(t, advMax) && Moves(s, t)
  {
    SameIds(s, s.(maxClientID := id));
  }

  lemma AnswerKeeps(s: Server, advMax: nat, v: Verdict, id: nat)
    requires Inv(s, advMax)
    ensures Inv(Answer(s, v, id), advMax) && Moves(s, Answer(s, v, id))
  {
    hide Inv, Moves, QueueReset;
    match v
    case Fine => Still(s);
    case BadStream(bad) => QueueResetKeeps(s, advMax, bad);
    case BadConnection => RaiseKeeps(s, advMax, if id > s.maxClientID then id else s.maxClientID);
  }

  lemma Still(s: Server)
    ensures Moves(s, s)
  {
  }

  lemma MovesOn(s: Server, t: Server, u: Server)
    requires Moves(s, t) && Moves(t, u)
    ensures Moves(s, u)
  {
    forall id
      ensures Forward(StateOf(s, id), StateOf(u, id))
      ensures id in u.streams && id !in s.streams ==> StateOf(s, id) == Idle
    {
      assert Forward(StateOf(s, id), StateOf(t, id)) && Forward(StateOf(t, id), StateOf(u, id));
    }
  }

  lemma HeadersKeeps(s: Server, advMax: nat, id: nat, ended: bool, good: bool, fatal: bool)
    requires Inv(s, advMax)
    ensures var (t, v) := ProcessHeaders(s, advMax, id, ended, good, fatal);
            Inv(t, advMax) && Moves(s, t)
  {
    hide Moves, Only;
    Still(s);
    if id % 2 == 1 {
      if id in s.streams {
        var st := s.streams[id];
        if !st.resetQueued && st.state != HalfClosedRemote {
          ChangeKeeps(s, advMax, id, st.(gotTrailer := true));
          var ended := st.(gotTrailer := true, state := HalfClosedRemote);
          ChangeKeeps(s, advMax, id, ended);
          assert s.streams[id := st.(gotTrailer := true)][id := ended] == s.streams[id := ended];
        }
      } else if id > s.maxClientID {
        if s.curClient + 1 > advMax {
          RaiseKeeps(s, advMax, id);
        } else {
          NewKeeps(s, advMax, id, if ended then HalfClosedRemote else Open);
        }
      }
    }
  }

  lemma DataKeeps(s: Server, advMax: nat, id: nat, ended: bool, good: bool, discarded: bool)
    requires Inv(s, advMax)
    ensures var (t, v) := ProcessData(s, id, ended, good, discarded);
            Inv(t, advMax) && Moves(s, t)
  {
    hide Moves, Only;
    Still(s);
    if id in s.streams && s.streams[id].state == Open {
      ChangeKeeps(s, advMax, id, s.streams[id].(state := HalfClosedRemote));
    }
  }

  lemma WroteEndKeeps(s: Server, advMax: nat, id: nat)
    requires Inv(s, advMax)
    ensures Inv(WroteEndStream(s, id), advMax) && Moves(s, WroteEndStream(s, id))
  {
    hide Moves, Only;
    Still(s);
    if id in s.streams {
      match s.streams[id].state
      case Open =>
        ChangeKeeps(s, advMax, id, s.streams[id].(state := HalfClosedLocal, resetQueued := true));
        var t := s.(streams := s.streams[id := s.streams[id].(state := HalfClosedLocal)]);
        assert QueueReset(t, id).streams == s.streams[id := s.streams[id].(state := HalfClosedLocal, resetQueued := true)];
      case HalfClosedRemote => CloseKeeps(s, advMax, id);
      case _ =>
    }
  }

  lemma PromiseKeeps(s: Server, advMax: nat, clientMax: nat)
    requires Inv(s, advMax)
    ensures Inv(PushPromise(s, clientMax), advMax) && Moves(s, PushPromise(s, clientMax))
  {
    hide Moves;
    Still(s);
    if !(s.curPushed + 1 > clientMax || s.maxPushID + 2 >= 0x8000_0000) {
      NewKeeps(s, advMax, s.maxPushID + 2, HalfClosedRemote);
    }
  }

  lemma StepKeeps(s: Server, advMax: nat, e: Event)
    requires Inv(s, advMax) && Legal(s, e)
    ensures Inv(Step(s, advMax, e), advMax) && Moves(s, Step(s, advMax, e))
  {
    hide Inv, Moves, ProcessHeaders, ProcessData, Answer, WroteEndStream, PushPromise, CloseStream;
    Still(s);
    match e
    case Headers(id, ended, good, fatal) =>
      var (t, v) := ProcessHeaders(s, advMax, id, ended, good, fatal);
      HeadersKeeps(s, advMax, id, ended, good, fatal);
      AnswerKeeps(t, advMax, v, id);
      MovesOn(s, t, Answer(t, v, id));
    case Data(id, ended, good, discarded) =>
      var (t, v) := ProcessData(s, id, ended, good, discarded);
      DataKeeps(s, advMax, id, ended, good, discarded);
      AnswerKeeps(t, advMax, v, id);
      MovesOn(s, t, Answer(t, v, id));
    case ResetFrame(id) =>
      var (t, v) := ProcessReset(s, id);
      if id in s.streams && StateOf(s, id) != Idle {
        CloseKeeps(s, advMax, id);
      }
      AnswerKeeps(t, advMax, v, id);
      MovesOn(s, t, Answer(t, v, id));
    case OtherError(v, id) => AnswerKeeps(s, advMax, v, id);
    case WroteEnd(id) => WroteEndKeeps(s, advMax, id);
    case WroteReset(id) =>
      if id in s.streams {
        CloseKeeps(s, advMax, id);
      }
    case WroteHandlerPanic(id) => CloseKeeps(s, advMax, id);
    case Promise(clientMax) => PromiseKeeps(s, advMax, clientMax);
  }

  // ---------------------------------------------------------------- whole runs

  const NEW_SERVER: Server := Server(map[], 0, 0, 0, 0)

  predicate LegalRun(s: Server, advMax: nat, es: seq<Event>)
    decreases |es|
  {
    es == [] || (Legal(s, es[0]) && LegalRun(Step(s, advMax, es[0]), advMax, es[1..]))
  }

  function After(s: Server, advMax: nat, es: seq<Event>): Server
    requires LegalRun(s, advMax, es)
    decreases |es|
  {
    if es == [] then s else After(Step(s, advMax, es[0]), advMax, es[1..])
  }

  lemma {:induction false} RunKeeps(s: Server, advMax: nat, es: seq<Event>)
    requires Inv(s, advMax) && LegalRun(s, advMax, es)
    ensures Inv(After(s, advMax, es), advMax) && Moves(s, After(s, advMax, es))
    decreases |es|
  {
    hide Inv, Moves, Step, Legal;
    if es == [] {
      Still(s);
    } else {
      var t := Step(s, advMax, es[0]);
      StepKeeps(s, advMax, es[0]);
      RunKeeps(t, advMax, es[1..]);
      MovesOn(s, t, After(t, advMax, es[1..]));
    }
  }

  // However a run goes on after some events: no stream moves backwards, closed streams stay
  // closed and their numbers are not used again; the counts are right and within the limit,
  // and a half-closed (local) stream is about to be reset and never half-closed (remote).
  lemma Lifecycle(advMax: nat, before: seq<Event>, after: seq<Event>)
    requires LegalRun(NEW_SERVER, advMax, before) && LegalRun(After(NEW_SERVER, advMax, before), advMax, after)
    ensures var s := After(NEW_SERVER, advMax, before);
            var t := After(s, advMax, after);
            && (forall id :: Forward(StateOf(s, id), StateOf(t, id)))
            && (forall id :: StateOf(s, id) == Closed ==> StateOf(t, id) == Closed && id !in t.streams)
            && (forall id :: StateOf(s, id) == HalfClosedLocal ==> StateOf(t, id) in {HalfClosedLocal, Closed})
            && t.curClient == |Ids(t, 1)| <= advMax && t.curPushed == |Ids(t, 0)|
            && (forall id :: id in t.streams && t.streams[id].state == HalfClosedLocal ==> t.streams[id].resetQueued)
  {
    hide Only;
    StartInv(advMax);
    RunKeeps(NEW_SERVER, advMax, before);
    var s := After(NEW_SERVER, advMax, before);
    RunKeeps(s, advMax, after);
    var t := After(s, advMax, after);
    forall id | StateOf(s, id) == Closed
      ensures StateOf(t, id) == Closed && id !in t.streams
    {
      assert Forward(StateOf(s, id), StateOf(t, id));
    }
    forall id | StateOf(s, id) == HalfClosedLocal
      ensures StateOf(t, id) in {HalfClosedLocal, Closed}
    {
      assert Forward(StateOf(s, id), StateOf(t, id));
    }
  }

  // ---------------------------------------------------------------- a request that arrives

  // e says nothing about stream id.
  predicate Elsewhere(e: Event, id: nat) {
    match e
    case Headers(i, _, _, _) => i != id
    case Data(i, _, _, _) => i != id
    case ResetFrame(i) => i != id
    case OtherError(v, i) => v != BadStream(id)
    case WroteEnd(i) => i != id
    case WroteReset(i) => i != id
    case WroteHandlerPanic(i) => i != id
    case Promise(_) => true
  }

  predicate MoreBody(e: Event, id: nat) {
    e.Data? && e.id == id && !e.ended && e.good
  }

  lemma ElsewhereStays(s: Server, advMax: nat, e: Event, id: nat)
    requires Inv(s, advMax) && Legal(s, e) && Elsewhere(e, id) && id % 2 == 1 && id in s.streams
    ensures var t := Step(s, advMax, e);
            id in t.streams && t.streams[id] == s.streams[id]
  {
    hide Counted;
  }

  lemma {:induction false} BodyComes(s: Server, advMax: nat, es: seq<Event>, id: nat)
    requires Inv(s, advMax) && LegalRun(s, advMax, es) && id % 2 == 1 && Receiving(s, id)
    requires forall e :: e in es ==> Elsewhere(e, id) || MoreBody(e, id)
    ensures Receiving(After(s, advMax, es), id)
    decreases |es|
  {
    hide Inv, Legal, Elsewhere, ProcessData, ProcessHeaders;
    if es != [] {
      var e := es[0];
      StepKeeps(s, advMax, e);
      if Elsewhere(e, id) {
        ElsewhereStays(s, advMax, e, id);
      } else {
        DataAnswer(s, id, e.ended, e.good, e.discarded);
      }
      BodyComes(Step(s, advMax, e), advMax, es[1..], id);
    }
  }

  // A request within the limit arrives, whatever happens on other streams meanwhile: good HEADERS,
  // good DATA and good DATA with END_STREAM take a stream from idle to half-closed (remote), with
  // no reset queued.
  lemma RequestArrives(advMax: nat, before: seq<Event>, body: seq<Event>, id: nat)
    requires LegalRun(NEW_SERVER, advMax, before) && id % 2 == 1
    requires var s := After(NEW_SERVER, advMax, before);
             && StateOf(s, id) == Idle && s.curClient < advMax
             && LegalRun(Step(s, advMax, Headers(id, false, true, false)), advMax, body)
    requires forall e :: e in body ==> Elsewhere(e, id) || MoreBody(e, id)
    ensures var s := After(NEW_SERVER, advMax, before);
            var begun := Step(s, advMax, Headers(id, false, true, false));
            var received := After(begun, advMax, body);
            var t := Step(received, advMax, Data(id, true, true, false));
            && StateOf(begun, id) == Open && Receiving(received, id)
            && StateOf(t, id) == HalfClosedRemote && id in t.streams && !t.streams[id].resetQueued
  {
    hide Inv, Elsewhere, MoreBody, ProcessData, ProcessHeaders, After, LegalRun;
    StartInv(advMax);
    RunKeeps(NEW_SERVER, advMax, before);
    var s := After(NEW_SERVER, advMax, before);
    HeadersAnswer(s, advMax, id, false, true, false);
    var begun := Step(s, advMax, Headers(id, false, true, false));
    HeadersKeeps(s, advMax, id, false, true, false);
    BodyComes(begun, advMax, body, id);
    DataAnswer(After(begun, advMax, body), id, true, true, false);
  }

  lemma StartInv(advMax: nat)
    ensures Inv(NEW_SERVER, advMax)
  {
  }
}
