/** The serve loop of a server connection, as far as it changes the state of streams. */
module ServerConns {
  import opened ServerStreams

  class ServerConn {
    const advMaxStreams: nat
    var streams: map<nat, Stream>
    var maxClientStreamID: nat
    var maxPushPromiseID: nat
    var curClientStreams: int
    var curPushedStreams: int

    function View(): Server
      reads this
    {
      Server(streams, maxClientStreamID, maxPushPromiseID, curClientStreams, curPushedStreams)
    }

    ghost predicate Valid()
      reads this
    {
      Inv(View(), advMaxStreams)
    }

    constructor (advMaxStreams: nat)
      ensures View() == NEW_SERVER && this.advMaxStreams == advMaxStreams && Valid()
    {
      this.advMaxStreams := advMaxStreams;
      streams, maxClientStreamID, maxPushPromiseID, curClientStreams, curPushedStreams := map[], 0, 0, 0, 0;
      new;
      StartInv(advMaxStreams);
    }

    // state
    method GetState(id: nat) returns (t: StreamState)
      ensures t == StateOf(View(), id)
    {
      if id in streams {
        return streams[id].state;
      }
      if id % 2 == 1 {
        if id <= maxClientStreamID {
          return Closed;
        }
      } else {
        if id <= maxPushPromiseID {
          return Closed;
        }
      }
      return Idle;
    }

    // Panics if the stream is not open or half-closed.
    method CloseStream(id: nat)
      requires id in streams && streams[id].state != Idle && streams[id].state != Closed
      modifies this
      ensures View() == ServerStreams.CloseStream(old(View()), id)
    {
      if id % 2 == 0 {
        curPushedStreams := curPushedStreams - 1;
      } else {
        curClientStreams := curClientStreams - 1;
      }
      streams := streams - {id};
    }

    // Panics for stream 0.
    method NewStream(id: nat, state: StreamState)
      requires id != 0
      modifies this
      ensures View() == ServerStreams.NewStream(old(View()), id, state)
    {
      streams := streams[id := Stream(state, false, false)];
      if id % 2 == 0 {
        curPushedStreams := curPushedStreams + 1;
      } else {
        curClientStreams := curClientStreams + 1;
      }
    }

    method ResetStream(id: nat)
      modifies this
      ensures View() == QueueReset(old(View()), id)
    {
      if id in streams {
        streams := streams[id := streams[id].(resetQueued := true)];
      }
    }

    method EndStream(id: nat)
      requires id in streams
      modifies this
      ensures View() == ServerStreams.EndStream(old(View()), id)
    {
      streams := streams[id := streams[id].(state := HalfClosedRemote)];
    }

    // A new stream comes from an idle one and within the limit; trailers end an open one; and
    // an error of the connection changes nothing, unless it comes after the stream has opened.
    method ProcessHeaders(id: nat, ended: bool, good: bool, fatal: bool) returns (v: Verdict)
      requires Valid()
      modifies this
      ensures Valid() && Moves(old(View()), View())
      ensures id in streams && id !in old(streams) ==>
                && id % 2 == 1 && id > old(maxClientStreamID) && curClientStreams == old(curClientStreams) + 1 <= advMaxStreams
                && streams[id].state == if ended then HalfClosedRemote else Open
      ensures id % 2 == 1 && old(StateOf(View(), id)) == Idle && old(curClientStreams) < advMaxStreams ==>
                && id in streams && !streams[id].resetQueued && (v == BadConnection <==> fatal) && (v == Fine <==> good && !fatal)
      ensures id % 2 == 1 && old(StateOf(View(), id)) == Idle && old(curClientStreams) >= advMaxStreams ==>
                v == BadStream(id) && streams == old(streams)
      ensures id % 2 == 1 && id in old(streams) ==>
                (v == Fine <==> old(streams)[id].resetQueued || (Receiving(old(View()), id) && ended && good))
      ensures v == Fine && id in old(streams) && !old(streams)[id].resetQueued ==>
                ended && old(streams)[id].state == Open && id in streams && streams[id].state == HalfClosedRemote
      ensures v == BadConnection && !fatal ==> View() == old(View())
      ensures forall other :: other != id ==> (other in streams <==> other in old(streams))
      ensures forall other :: other != id && other in streams ==> streams[other] == old(streams)[other]
      ensures (View(), v) == ServerStreams.ProcessHeaders(old(View()), advMaxStreams, id, ended, good, fatal)
    {
      hide Moves, Only;
      HeadersKeeps(View(), advMaxStreams, id, ended, good, fatal);
      HeadersAnswer(View(), advMaxStreams, id, ended, good, fatal);
      if id % 2 != 1 {
        return BadConnection;
      }
      if id in streams {
        if streams[id].resetQueued {
          return Fine;
        }
        if streams[id].state == HalfClosedRemote {
          return BadStream(id);
        }
        v := ProcessTrailerHeaders(id, ended, good);
        return;
      }
      if id <= maxClientStreamID {
        return BadConnection;
      }
      maxClientStreamID := id;
      if curClientStreams + 1 > advMaxStreams {
        return BadStream(id);
      }
      var initialState := Open;
      if ended {
        initialState := HalfClosedRemote;
      }
      NewStream(id, initialState);
      if fatal {
        return BadConnection;
      }
      return if good then Fine else BadStream(id);
    }

    method ProcessTrailerHeaders(id: nat, ended: bool, good: bool) returns (v: Verdict)
      requires id in streams
      modifies this
      ensures v == BadConnection <==> old(streams)[id].gotTrailer
      ensures v == BadConnection ==> View() == old(View())
      ensures v == Fine ==> ended && good && id in streams && streams[id].state == HalfClosedRemote
      ensures v == Fine || v == BadStream(id) ==> id in streams && streams[id].gotTrailer
      ensures (View(), v) == ProcessTrailers(old(View()), id, ended, good)
    {
      if streams[id].gotTrailer {
        return BadConnection;
      }
      streams := streams[id := streams[id].(gotTrailer := true)];
      if !ended {
        return BadStream(id);
      }
      if !good {
        return BadStream(id);
      }
      EndStream(id);
      return Fine;
    }

    // On an open stream good DATA is taken and ends it if it says so, and all other DATA is an
    // error of the stream.
    method ProcessData(id: nat, ended: bool, good: bool, discarded: bool) returns (v: Verdict)
      requires Valid()
      modifies this
      ensures Valid() && Moves(old(View()), View())
      ensures View() != old(View()) ==>
                && v == Fine && ended && id in old(streams) && old(streams)[id].state == Open && !old(streams)[id].resetQueued
                && streams == old(streams)[id := old(streams)[id].(state := HalfClosedRemote)]
      ensures v == BadConnection <==> id == 0 || old(StateOf(View(), id)) == Idle
      ensures v == Fine <==> id in old(streams) && good && (Receiving(old(View()), id) || old(streams)[id].resetQueued)
      ensures Receiving(old(View()), id) ==>
                id in streams && streams[id].state == if good && ended && !discarded then HalfClosedRemote else Open
      ensures v in {Fine, BadStream(id), BadConnection}
      ensures (View(), v) == ServerStreams.ProcessData(old(View()), id, ended, good, discarded)
    {
      hide Inv, Moves, Only;
      DataKeeps(View(), advMaxStreams, id, ended, good, discarded);
      DataAnswer(View(), id, ended, good, discarded);
      KnownOpen(View(), advMaxStreams);
      var state := GetState(id);
      if id == 0 || state == Idle {
        return BadConnection;
      }
      if id !in streams || state != Open || streams[id].gotTrailer || streams[id].resetQueued {
        if id in streams && streams[id].resetQueued && good {
          return Fine;
        }
        return BadStream(id);
      }
      if !good {
        return BadStream(id);
      }
      if discarded {
        return Fine;
      }
      if ended {
        EndStream(id);
      }
      return Fine;
    }

    method ProcessResetStream(id: nat) returns (v: Verdict)
      requires Valid()
      modifies this
      ensures Valid() && Moves(old(View()), View()) && id !in streams
      ensures v == BadConnection <==> old(StateOf(View(), id)) == Idle
      ensures (View(), v) == ServerStreams.ProcessReset(old(View()), id)
    {
      hide Inv, Moves, Only;
      KnownOpen(View(), advMaxStreams);
      Still(View());
      if id in streams {
        CloseKeeps(View(), advMaxStreams, id);
      }
      var state := GetState(id);
      if state == Idle {
        return BadConnection;
      }
      if id in streams {
        CloseStream(id);
      }
      return Fine;
    }

    // wroteFrame, for the last frame of a response.
    method WroteEnd(id: nat)
      requires Valid()
      modifies this
      ensures Valid() && Moves(old(View()), View())
      ensures id in streams ==> streams[id].state == HalfClosedLocal && streams[id].resetQueued
      ensures id in streams <==> old(id in streams && streams[id].state != HalfClosedRemote)
      ensures View() == WroteEndStream(old(View()), id)
    {
      hide Moves, Only;
      WroteEndKeeps(View(), advMaxStreams, id);
      if id in streams {
        match streams[id].state
        case Open =>
          streams := streams[id := streams[id].(state := HalfClosedLocal)];
          ResetStream(id);
        case HalfClosedRemote =>
          CloseStream(id);
        case _ =>
      }
    }

    method AllocatePromisedID(clientMaxStreams: nat)
      requires Valid()
      modifies this
      ensures Valid() && Moves(old(View()), View())
      ensures View() != old(View()) <==> old(curPushedStreams) < clientMaxStreams && old(maxPushPromiseID) + 2 < 0x8000_0000
      ensures View() != old(View()) ==>
                && maxPushPromiseID == old(maxPushPromiseID) + 2 < 0x8000_0000 && maxPushPromiseID in streams
                && curPushedStreams == old(curPushedStreams) + 1 <= clientMaxStreams
      ensures View() == PushPromise(old(View()), clientMaxStreams)
    {
      hide Moves, Only;
      PromiseKeeps(View(), advMaxStreams, clientMaxStreams);
      if curPushedStreams + 1 > clientMaxStreams {
        return;
      }
      if maxPushPromiseID + 2 >= 0x8000_0000 {
        return;
      }
      maxPushPromiseID := maxPushPromiseID + 2;
      NewStream(maxPushPromiseID, HalfClosedRemote);
    }

    // What processFrameFromReader does about an error in a frame on stream id.
    method Answer(v: Verdict, id: nat)
      requires Valid()
      modifies this
      ensures Valid() && Moves(old(View()), View())
      ensures streams.Keys == old(streams).Keys && maxClientStreamID >= old(maxClientStreamID)
      ensures v.BadStream? && v.id in streams ==> streams[v.id].resetQueued
      ensures View() == ServerStreams.Answer(old(View()), v, id)
    {
      hide Inv, Moves, Only;
      AnswerKeeps(View(), advMaxStreams, v, id);
      match v
      case Fine =>
      case BadStream(bad) => ResetStream(bad);
      case BadConnection =>
        if id > maxClientStreamID {
          maxClientStreamID := id;
        }
    }

    // One turn of the serve loop.
    method Serve(e: Event)
      requires Valid() && Legal(View(), e)
      modifies this
      ensures View() == Step(old(View()), advMaxStreams, e) && Valid() && Moves(old(View()), View())
    {
      hide Inv, Moves;
      StepKeeps(View(), advMaxStreams, e);
      KnownOpen(View(), advMaxStreams);
      match e
      case Headers(id, ended, good, fatal) =>
        var v := ProcessHeaders(id, ended, good, fatal);
        Answer(v, id);
      case Data(id, ended, good, discarded) =>
        var v := ProcessData(id, ended, good, discarded);
        Answer(v, id);
      case ResetFrame(id) =>
        var v := ProcessResetStream(id);
        Answer(v, id);
      case OtherError(v, id) =>
        Answer(v, id);
      case WroteEnd(id) =>
        WroteEnd(id);
      case WroteReset(id) =>
        if id in streams {
          CloseStream(id);
        }
      case WroteHandlerPanic(id) =>
        CloseStream(id);
      case Promise(clientMax) =>
        AllocatePromisedID(clientMax);
    }
  }

  lemma KnownOpen(s: Server, advMax: nat)
    requires Inv(s, advMax)
    ensures 0 !in s.streams
    ensures forall id :: id in s.streams ==> s.streams[id].state != Idle && s.streams[id].state != Closed
  {
  }
}
