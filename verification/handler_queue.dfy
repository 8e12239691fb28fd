/** Which request handlers run, and which wait until others are done. */
module HandlerQueues {
  import opened Sequences


  // ---------------------------------------------------------------- looking through the queue

  // From a queue, with room for so many more handlers: which entries start, which are dropped
  // as their stream is gone, and which go on waiting.
  function Started(q: seq<nat>, live: set<nat>, room: int): seq<nat> {
    if q == [] then []
    else if q[0] !in live then Started(q[1..], live, room)
    else if room <= 0 then []
    else [q[0]] + Started(q[1..], live, room - 1)
  }

  function Dropped(q: seq<nat>, live: set<nat>, room: int): set<nat> {
    if q == [] then {}
    else if q[0] !in live then {q[0]} + Dropped(q[1..], live, room)
    else if room <= 0 then {}
    else Dropped(q[1..], live, room - 1)
  }

  function Waiting(q: seq<nat>, live: set<nat>, room: int): seq<nat> {
    if q == [] then []
    else if q[0] !in live then Waiting(q[1..], live, room)
    else if room <= 0 then q
    else Waiting(q[1..], live, room - 1)
  }

  function Except(q: seq<nat>, gone: set<nat>): seq<nat> {
    if q == [] then [] else (if q[0] in gone then [] else [q[0]]) + Except(q[1..], gone)
  }

  lemma {:induction false} ExceptConcat(a: seq<nat>, b: seq<nat>, gone: set<nat>)
    ensures Except(a + b, gone) == Except(a, gone) + Except(b, gone)
  {
    if a == [] {
      assert a + b == b;
    } else {
      assert (a + b)[1..] == a[1..] + b;
      ExceptConcat(a[1..], b, gone);
    }
  }

  lemma {:induction false} ExceptOthers(q: seq<nat>, gone: set<nat>)
    requires forall x :: x in q ==> x !in gone
    ensures Except(q, gone) == q
  {
    if q != [] {
      ExceptOthers(q[1..], gone);
    }
  }

  lemma {:induction false} ExceptTwice(q: seq<nat>, a: set<nat>, b: set<nat>)
    ensures Except(Except(q, a), b) == Except(q, a + b)
  {
    if q != [] {
      ExceptTwice(q[1..], a, b);
      ExceptConcat(if q[0] in a then [] else [q[0]], Except(q[1..], a), b);
    }
  }

  lemma {:induction false} ExceptMembers(q: seq<nat>, gone: set<nat>)
    ensures forall x :: x in Except(q, gone) ==> x in q && x !in gone
    ensures Distinct(q) ==> Distinct(Except(q, gone))
    ensures |Except(q, gone)| <= |q|
  {
    if q != [] {
      ExceptMembers(q[1..], gone);
      assert forall x :: x in q[1..] ==> x in q;
    }
  }

  // Only live entries start, nothing live is dropped, and what waits must wait.
  lemma {:induction false} SortedMembers(q: seq<nat>, live: set<nat>, room: int)
    ensures forall x :: x in Started(q, live, room) ==> x in q && x in live
    ensures forall x :: x in Dropped(q, live, room) ==> x in q && x !in live
    ensures Waiting(q, live, room) != [] ==> room <= |Started(q, live, room)| && Waiting(q, live, room)[0] in live
    ensures |Waiting(q, live, room)| <= |q| && (room >= 0 ==> |Started(q, live, room)| <= room)
  {
    if q != [] {
      if q[0] !in live {
        SortedMembers(q[1..], live, room);
      } else if room > 0 {
        SortedMembers(q[1..], live, room - 1);
      }
    }
  }

  // Nothing else is lost, and the order stays.
  lemma {:induction false} Sorted(q: seq<nat>, live: set<nat>, room: int)
    requires Distinct(q)
    ensures Except(q, Dropped(q, live, room)) == Started(q, live, room) + Waiting(q, live, room)
  {
    if q != [] {
      var rest := q[1..];
      SortedMembers(q, live, room);
      if q[0] !in live {
        Sorted(rest, live, room);
        ExceptTwice(rest, {q[0]}, Dropped(rest, live, room));
        ExceptOthers(rest, {q[0]});
      } else if room <= 0 {
        ExceptOthers(q, {});
      } else {
        Sorted(rest, live, room - 1);
        StartsFirst(q, live, room);
      }
    }
  }

  lemma StartsFirst(q: seq<nat>, live: set<nat>, room: int)
    requires q != [] && q[0] in live && room > 0
    ensures Started(q, live, room) + Waiting(q, live, room)
            == [q[0]] + (Started(q[1..], live, room - 1) + Waiting(q[1..], live, room - 1))
  {
  }

  // ---------------------------------------------------------------- runs

  // live are the streams of the connection; arrived, started and dropped record what happened.
  datatype State = State(live: set<nat>, cur: int, unstarted: seq<nat>,
                         arrived: seq<nat>, started: seq<nat>, dropped: set<nat>)

  // A request arrives on a new stream; a stream goes; a handler is done; one is started for a
  // pushed stream, whatever the limit.
  datatype Event = Arrive(id: nat) | Gone(id: nat) | Done | Pushed

  // Arrivals that find the queue too long end the connection.
  predicate Legal(s: State, max: nat, e: Event) {
    match e
    case Arrive(id) => id !in s.arrived && id !in s.live && (s.cur < max || |s.unstarted| <= 4 * max)
    case Gone(id) => true
    case Done => s.cur > 0
    case Pushed => true
  }

  function Step(s: State, max: nat, e: Event): State {
    match e
    case Arrive(id) =>
      var t := s.(live := s.live + {id}, arrived := s.arrived + [id]);
      if s.cur < max then t.(cur := s.cur + 1, started := s.started + [id]) else t.(unstarted := s.unstarted + [id])
    case Gone(id) => s.(live := s.live - {id})
    case Done =>
      var room := max - (s.cur - 1);
      var now := Started(s.unstarted, s.live, room);
      s.(cur := s.cur - 1 + |now|,
         unstarted := Waiting(s.unstarted, s.live, room),
         started := s.started + now,
         dropped := s.dropped + Dropped(s.unstarted, s.live, room))
    case Pushed => s.(cur := s.cur + 1)
  }

  ghost predicate Inv(s: State, max: nat) {
    && (s.unstarted != [] ==> s.cur >= max) && |s.unstarted| <= 4 * max + 1
    && Distinct(s.arrived) && Except(s.arrived, s.dropped) == s.started + s.unstarted
    && (forall x :: x in s.dropped ==> x in s.arrived && x !in s.live)
  }

  lemma StepKeeps(s: State, max: nat, e: Event)
    requires Inv(s, max) && Legal(s, max, e)
    ensures Inv(Step(s, max, e), max)
  {
    hide Except, Started, Waiting, Dropped;
    match e
    case Arrive(id) =>
      ExceptConcat(s.arrived, [id], s.dropped);
      ExceptOthers([id], s.dropped);
      if s.cur < max {
        assert s.unstarted == [];
      }
    case Gone(id) =>
    case Done =>
      var room := max - (s.cur - 1);
      var drop := Dropped(s.unstarted, s.live, room);
      ExceptMembers(s.arrived, s.dropped);
      DistinctParts(s.started, s.unstarted);
      Sorted(s.unstarted, s.live, room);
      SortedMembers(s.unstarted, s.live, room);
      ExceptTwice(s.arrived, s.dropped, drop);
      ExceptConcat(s.started, s.unstarted, drop);
      ExceptOthers(s.started, drop);
      assert forall x :: x in s.unstarted ==> x in s.started + s.unstarted;
    case Pushed =>
  }

  lemma DistinctParts(a: seq<nat>, b: seq<nat>)
    requires Distinct(a + b)
    ensures Distinct(b) && forall x :: x in b ==> x !in a
  {
    var c := a + b;
    forall i, j | 0 <= i < j < |b|
      ensures b[i] != b[j]
    {
      assert c[|a| + i] == b[i] && c[|a| + j] == b[j];
    }
    forall i, j | 0 <= i < |a| && 0 <= j < |b|
      ensures a[i] != b[j]
    {
      assert c[i] == a[i] && c[|a| + j] == b[j];
    }
  }

  predicate LegalRun(s: State, max: nat, es: seq<Event>)
    decreases |es|
  {
    es == [] || (Legal(s, max, es[0]) && LegalRun(Step(s, max, es[0]), max, es[1..]))
  }

  function After(s: State, max: nat, es: seq<Event>): State
    decreases |es|
  {
    if es == [] then s else After(Step(s, max, es[0]), max, es[1..])
  }

  lemma {:induction false} RunKeeps(s: State, max: nat, es: seq<Event>)
    requires Inv(s, max) && LegalRun(s, max, es)
    ensures Inv(After(s, max, es), max)
    decreases |es|
  {
    hide Inv, Step, Legal;
    if es != [] {
      StepKeeps(s, max, es[0]);
      RunKeeps(Step(s, max, es[0]), max, es[1..]);
    }
  }

  const NO_HANDLERS: State := State({}, 0, [], [], [], {})

  // Handlers wait only while the limit is reached, and not too many of them. In the order of
  // their arrival all have started that are not waiting, but for some whose stream is gone; and
  // when a handler is done, what starts next is live.
  lemma QueueRun(max: nat, es: seq<Event>)
    requires LegalRun(NO_HANDLERS, max, es)
    ensures var s := After(NO_HANDLERS, max, es);
            && (s.unstarted != [] ==> s.cur >= max) && |s.unstarted| <= 4 * max + 1
            && s.started + s.unstarted == Except(s.arrived, s.dropped)
            && (forall x :: x in s.dropped ==> x !in s.live)
            && (s.cur > 0 ==>
                  var t := Step(s, max, Done);
                  && s.started <= t.started
                  && (forall x :: x in t.started[|s.started|..] ==> x in s.live && x in s.unstarted)
                  && (t.unstarted != [] ==> t.cur >= max && t.unstarted[0] in s.live))
  {
    hide Except, Started, Waiting, Dropped;
    StartInv(max);
    RunKeeps(NO_HANDLERS, max, es);
    var s := After(NO_HANDLERS, max, es);
    SortedMembers(s.unstarted, s.live, max - (s.cur - 1));
    var now := Started(s.unstarted, s.live, max - (s.cur - 1));
    assert (s.started + now)[|s.started|..] == now;
  }

  lemma StartInv(max: nat)
    ensures Inv(NO_HANDLERS, max)
  {
  }

  // ---------------------------------------------------------------- the queue

  class HandlerQueue {
    const advMaxStreams: nat
    var curHandlers: int
    var unstartedHandlers: seq<nat>

    constructor (advMaxStreams: nat)
      ensures this.advMaxStreams == advMaxStreams && curHandlers == 0 && unstartedHandlers == []
    {
      this.advMaxStreams, curHandlers, unstartedHandlers := advMaxStreams, 0, [];
    }

    // started tells whether a handler was started at once; an error ends the connection.
    method ScheduleHandler(id: nat) returns (started: bool, error: bool)
      modifies this
      ensures started == (old(curHandlers) < advMaxStreams)
      ensures error == (!started && |old(unstartedHandlers)| > 4 * advMaxStreams)
      ensures curHandlers == old(curHandlers) + if started then 1 else 0
      ensures unstartedHandlers == if started || error then old(unstartedHandlers) else old(unstartedHandlers) + [id]
    {
      if curHandlers < advMaxStreams {
        curHandlers := curHandlers + 1;
        return true, false;
      }
      if |unstartedHandlers| > 4 * advMaxStreams {
        return false, true;
      }
      unstartedHandlers := unstartedHandlers + [id];
      return false, false;
    }

    method HandlerDone(live: set<nat>) returns (started: seq<nat>)
      modifies this
      ensures var room := advMaxStreams - (old(curHandlers) - 1);
              && started == Started(old(unstartedHandlers), live, room)
              && unstartedHandlers == Waiting(old(unstartedHandlers), live, room)
              && curHandlers == old(curHandlers) - 1 + |started|
      ensures forall x :: x in started ==> x in live && x in old(unstartedHandlers)
      ensures unstartedHandlers != [] ==> curHandlers >= advMaxStreams && unstartedHandlers[0] in live
    {
      SortedMembers(unstartedHandlers, live, advMaxStreams - (curHandlers - 1));
      curHandlers := curHandlers - 1;
      var q := unstartedHandlers;
      var i: nat := 0;
      started := [];
      ghost var room := advMaxStreams - curHandlers;
      while i < |q|
        invariant i <= |q| && curHandlers == old(curHandlers) - 1 + |started|
        invariant Started(q, live, room) == started + Started(q[i..], live, advMaxStreams - curHandlers)
        invariant Waiting(q, live, room) == Waiting(q[i..], live, advMaxStreams - curHandlers)
      {
        assert q[i..][1..] == q[i + 1..];
        if q[i] in live {
          if curHandlers >= advMaxStreams {
            break;
          }
          curHandlers := curHandlers + 1;
          started := started + [q[i]];
        }
        i := i + 1;
      }
      unstartedHandlers := q[i..];
    }
  }
}
