/** What the round-robin write scheduler does, on the sequence its ring stands for. */
module RoundRobinSpec {
  import opened Sequences
  import opened Options
  import opened WriteQueues
  import opened Rings
  import opened ReadyQueues
  import opened Payload

  // ring lists the queues of the open streams from the next one to write on; held gives the
  // contents of every queue.
  datatype View = View(
    ring: seq<WriteQueue>,
    streams: map<nat, WriteQueue>,
    owner: map<WriteQueue, nat>,
    pool: seq<WriteQueue>,
    control: WriteQueue,
    held: map<WriteQueue, seq<Request>>)

  // ---------------------------------------------------------------- invariant

  ghost predicate Consistent(ring: seq<WriteQueue>, streams: map<nat, WriteQueue>, owner: map<WriteQueue, nat>) {
    && Distinct(ring)
    && (forall q :: q in ring ==> q in owner)
    && (forall q :: q in owner ==> q in ring)
    && (forall id :: id in streams ==> streams[id] in owner && owner[streams[id]] == id)
    && (forall q :: q in owner ==> owner[q] in streams && streams[owner[q]] == q)
  }

  ghost predicate PoolOk(g: View) {
    && Distinct(g.pool)
    && (forall q :: q in g.pool ==> q !in g.owner && q != g.control && q in g.held && g.held[q] == [])
    && g.control !in g.owner && g.control in g.held
  }

  ghost predicate ContentsOk(g: View) {
    forall q :: q in g.owner ==>
      q in g.held && forall k :: 0 <= k < |g.held[q]| ==> g.held[q][k].stream == Some(g.owner[q])
  }

  ghost predicate Inv(g: View, w: Win) {
    && Consistent(g.ring, g.streams, g.owner) && PoolOk(g) && ContentsOk(g)
    && forall id :: id in g.streams ==> id in w.stream
  }

  ghost function Start(control: WriteQueue): View {
    View([], map[], map[], [], control, map[control := []])
  }

  lemma StartInv(control: WriteQueue, w: Win)
    ensures Inv(Start(control), w)
  {
  }

  // ---------------------------------------------------------------- operations

  ghost function Opened(g: View, id: nat, q: WriteQueue): View {
    g.(ring := g.ring + [q],
       streams := g.streams[id := q],
       owner := g.owner[q := id],
       pool := if q in g.pool then g.pool[..|g.pool| - 1] else g.pool,
       held := g.held[q := []])
  }

  ghost function Closed(g: View, id: nat): View {
    if id !in g.streams then g
    else
      var q := g.streams[id];
      g.(ring := Without(g.ring, q),
         streams := g.streams - {id},
         owner := g.owner - {q},
         pool := g.pool + [q],
         held := g.held[q := []])
  }

  // The queue a request is added to.
  function QueueFor(g: View, r: Request): WriteQueue {
    if r.stream.Some? && r.stream.value in g.streams then g.streams[r.stream.value] else g.control
  }

  function Pushed(g: View, r: Request): View {
    var q := QueueFor(g, r);
    g.(held := g.held[q := Held(g.held, q) + [r]])
  }

  // Serve position k; the ring goes on after it.
  function Served(g: View, w: Win, k: nat): (View, Win, Option<Request>)
    requires k < |g.ring|
  {
    var q := g.ring[k];
    var (rs, r) := TakeFrom(w, Held(g.held, q), NO_LIMIT);
    if r.None? then (g, w, None)
    else (g.(ring := Rotate(g.ring, Succ(k, |g.ring|)), held := g.held[q := rs]), Spend(w, r.value), r)
  }

  function Popped(g: View, w: Win): (View, Win, Option<Request>) {
    var rs := Held(g.held, g.control);
    var k := FirstReady(g.held, w, g.ring, 0);
    if rs != [] then (g.(held := g.held[g.control := rs[1..]]), w, Some(rs[0]))
    else if k == |g.ring| then (g, w, None)
    else Served(g, w, k)
  }

  // A queue that may be given to a new stream.
  ghost predicate Spare(g: View, q: WriteQueue) {
    if g.pool != [] then q == g.pool[|g.pool| - 1] else q !in g.held
  }

  // ---------------------------------------------------------------- runs

  // Calls of a scheduler; Resize stands for what others do to the windows between calls.
  datatype Call = Open(id: nat, spare: WriteQueue) | Close(id: nat) | Push(r: Request) | Pop | Resize(w: Win)

  ghost predicate Legal(g: View, w: Win, c: Call) {
    match c
    case Open(id, q) => id !in g.streams && id in w.stream && Spare(g, q)
    case Close(id) => true
    case Push(r) => DataSize(r) > 0 && r.stream.Some? ==> r.stream.value in g.streams
    case Pop => true
    case Resize(w') => w.stream.Keys <= w'.stream.Keys
  }

  ghost function Do(g: View, w: Win, c: Call): (View, Win) {
    match c
    case Open(id, q) => (Opened(g, id, q), w)
    case Close(id) => (Closed(g, id), w)
    case Push(r) => (Pushed(g, r), w)
    case Pop => (Popped(g, w).0, Popped(g, w).1)
    case Resize(w') => (g, w')
  }

  ghost predicate LegalRun(g: View, w: Win, calls: seq<Call>)
    decreases |calls|
  {
    calls == [] || (Legal(g, w, calls[0]) && var (g', w') := Do(g, w, calls[0]); LegalRun(g', w', calls[1..]))
  }

  ghost function After(g: View, w: Win, calls: seq<Call>): (View, Win)
    decreases |calls|
  {
    if calls == [] then (g, w)
    else var (g', w') := Do(g, w, calls[0]); After(g', w', calls[1..])
  }

  // ---------------------------------------------------------------- the invariant is kept

  lemma ConsistentOpened(ring: seq<WriteQueue>, streams: map<nat, WriteQueue>, owner: map<WriteQueue, nat>, id: nat, q: WriteQueue)
    requires Consistent(ring, streams, owner) && id !in streams && q !in owner
    ensures Consistent(ring + [q], streams[id := q], owner[q := id])
  {
  }

  lemma OpenedKeeps(g: View, w: Win, id: nat, q: WriteQueue)
    requires Inv(g, w) && id !in g.streams && id in w.stream && Spare(g, q)
    ensures Inv(Opened(g, id, q), w) && q !in g.owner
    ensures if g.pool != [] then q == g.pool[|g.pool| - 1] && q in g.pool && q in g.held && g.held[q] == [] else q !in g.pool && q !in g.held
  {
    hide Consistent;
    ConsistentOpened(g.ring, g.streams, g.owner, id, q);
    var g' := Opened(g, id, q);
    if g.pool != [] {
      assert forall o :: o in g'.pool ==> o in g.pool && o != q;
    }
  }

  lemma ConsistentClosed(ring: seq<WriteQueue>, streams: map<nat, WriteQueue>, owner: map<WriteQueue, nat>, id: nat)
    requires Consistent(ring, streams, owner) && id in streams
    ensures Consistent(Without(ring, streams[id]), streams - {id}, owner - {streams[id]})
    ensures streams[id] in ring && streams[id] in owner
  {
    hide Without, Distinct;
    var q := streams[id];
    assert q in ring;
    WithoutMembers(ring, q);
    ConsistentLess(ring, streams, owner, id, Without(ring, q));
  }

  lemma ConsistentLess(ring: seq<WriteQueue>, streams: map<nat, WriteQueue>, owner: map<WriteQueue, nat>, id: nat,
                       ring': seq<WriteQueue>)
    requires Consistent(ring, streams, owner) && id in streams && Distinct(ring')
    requires forall q :: q in ring' <==> q in ring && q != streams[id]
    ensures Consistent(ring', streams - {id}, owner - {streams[id]})
  {
  }

  lemma ClosedKeeps(g: View, w: Win, id: nat)
    requires Inv(g, w)
    ensures Inv(Closed(g, id), w)
  {
    hide Consistent, Without;
    if id in g.streams {
      ConsistentClosed(g.ring, g.streams, g.owner, id);
      var q := g.streams[id];
      assert q !in g.pool && q != g.control;
      assert Distinct(g.pool + [q]);
    }
  }

  lemma OwnerOf(ring: seq<WriteQueue>, streams: map<nat, WriteQueue>, owner: map<WriteQueue, nat>, id: nat)
    requires Consistent(ring, streams, owner) && id in streams
    ensures var q := streams[id];
            q in owner && owner[q] == id && q in ring
    ensures forall o :: o in owner && o != streams[id] ==> owner[o] != id
  {
  }

  lemma PushedKeeps(g: View, w: Win, r: Request)
    requires Inv(g, w)
    ensures Inv(Pushed(g, r), w) && QueueFor(g, r) in g.held
  {
    hide Consistent;
    if r.stream.Some? && r.stream.value in g.streams {
      OwnerOf(g.ring, g.streams, g.owner, r.stream.value);
    }
  }

  lemma ConsistentTurned(ring: seq<WriteQueue>, streams: map<nat, WriteQueue>, owner: map<WriteQueue, nat>, n: nat)
    requires Consistent(ring, streams, owner) && n <= |ring|
    ensures Consistent(Rotate(ring, n), streams, owner)
  {
    RotateMembers(ring, n);
  }

  // What is left of a queue belongs to the same stream, and only spending differs.
  lemma TakeSame(w: Win, rs: seq<Request>, id: nat)
    requires forall k :: 0 <= k < |rs| ==> rs[k].stream == Some(id)
    ensures var (rs', r) := TakeFrom(w, rs, NO_LIMIT);
            && (forall k :: 0 <= k < |rs'| ==> rs'[k].stream == Some(id))
            && (r.Some? ==> r.value.stream == Some(id) && Spend(w, r.value).stream.Keys == w.stream.Keys)
  {
  }

  lemma ServedKeeps(g: View, w: Win, k: nat)
    requires Inv(g, w) && k < |g.ring| && Ready(g.held, w, g.ring[k])
    ensures Inv(Served(g, w, k).0, Served(g, w, k).1)
    ensures g.ring[k] in g.held && g.ring[k] in g.owner
    ensures Served(g, w, k).2.Some? && Served(g, w, k).2.value.stream == Some(g.owner[g.ring[k]])
  {
    hide Consistent, Spend, TakeFrom, Distinct;
    InRing(g.ring, g.streams, g.owner, k);
    var q := g.ring[k];
    TakeSame(w, g.held[q], g.owner[q]);
    ConsistentTurned(g.ring, g.streams, g.owner, Succ(k, |g.ring|));
  }

  lemma InRing(ring: seq<WriteQueue>, streams: map<nat, WriteQueue>, owner: map<WriteQueue, nat>, k: nat)
    requires Consistent(ring, streams, owner) && k < |ring|
    ensures ring[k] in owner && owner[ring[k]] in streams && streams[owner[ring[k]]] == ring[k]
  {
    assert ring[k] in ring;
  }

  lemma PoppedKeeps(g: View, w: Win)
    requires Inv(g, w)
    ensures Inv(Popped(g, w).0, Popped(g, w).1)
  {
    hide Consistent, Served, Ready, FirstReady;
    var k := FirstReady(g.held, w, g.ring, 0);
    if Held(g.held, g.control) == [] && k < |g.ring| {
      ServedKeeps(g, w, k);
    }
  }

  lemma DoKeeps(g: View, w: Win, c: Call)
    requires Inv(g, w) && Legal(g, w, c)
    ensures var (g', w') := Do(g, w, c); Inv(g', w')
  {
    hide Consistent, PoolOk, ContentsOk, Opened, Closed, Pushed, Popped, Spare;
    match c
    case Open(id, q) => OpenedKeeps(g, w, id, q);
    case Close(id) => ClosedKeeps(g, w, id);
    case Push(r) => PushedKeeps(g, w, r);
    case Pop => PoppedKeeps(g, w);
    case Resize(w') =>
  }

  // After any legal calls, the ring lists exactly the queues of the open streams, once each.
  lemma {:induction false} RunKeeps(g: View, w: Win, calls: seq<Call>)
    requires Inv(g, w) && LegalRun(g, w, calls)
    ensures var (g', w') := After(g, w, calls); Inv(g', w')
    decreases |calls|
  {
    hide Inv, Do, Legal;
    if calls != [] {
      DoKeeps(g, w, calls[0]);
      var (g', w') := Do(g, w, calls[0]);
      RunKeeps(g', w', calls[1..]);
    }
  }

  // ---------------------------------------------------------------- bounded bypass

  ghost predicate StreamPop(g: View, c: Call) {
    c.Pop? && Held(g.held, g.control) == []
  }

  // The stream stays open, and whenever Pop looks for a stream to serve its queue could be
  // served, but another one is.
  ghost predicate Starved(g: View, w: Win, calls: seq<Call>, id: nat)
    decreases |calls|
  {
    calls == [] ||
    (&& id in g.streams && calls[0] != Close(id)
     && (StreamPop(g, calls[0]) ==>
           && Ready(g.held, w, g.streams[id])
           && var k := FirstReady(g.held, w, g.ring, 0); k < |g.ring| ==> g.ring[k] != g.streams[id])
     && var (g', w') := Do(g, w, calls[0]); Starved(g', w', calls[1..], id))
  }

  // How often Pop looks for a stream to serve.
  ghost function StreamPops(g: View, w: Win, calls: seq<Call>): nat
    decreases |calls|
  {
    if calls == [] then 0
    else
      var (g', w') := Do(g, w, calls[0]);
      (if StreamPop(g, calls[0]) then 1 else 0) + StreamPops(g', w', calls[1..])
  }

  // A stream that is always ready is passed over at most as often as there are streams
  // before it in the ring, whatever opens, closes, is pushed, or changes the windows meanwhile.
  lemma {:induction false} BoundedBypass(g: View, w: Win, calls: seq<Call>, id: nat)
    requires Inv(g, w) && LegalRun(g, w, calls) && id in g.streams && Starved(g, w, calls, id)
    ensures g.streams[id] in g.ring
    ensures StreamPops(g, w, calls) <= IndexOf(g.ring, g.streams[id]) < |g.ring|
    decreases |calls|
  {
    hide Consistent, PoolOk, ContentsOk, Do, Legal, Distinct;
    OwnerOf(g.ring, g.streams, g.owner, id);
    if calls != [] {
      DoKeeps(g, w, calls[0]);
      PositionStep(g, w, calls[0], id);
      var (g', w') := Do(g, w, calls[0]);
      BoundedBypass(g', w', calls[1..], id);
    }
  }

  // No call moves the stream back; a Pop that serves another stream moves it forward.
  lemma PositionStep(g: View, w: Win, c: Call, id: nat)
    requires Inv(g, w) && Legal(g, w, c) && id in g.streams && c != Close(id)
    requires StreamPop(g, c) ==> Ready(g.held, w, g.streams[id])
    requires StreamPop(g, c) ==>
               var k := FirstReady(g.held, w, g.ring, 0); k < |g.ring| ==> g.ring[k] != g.streams[id]
    ensures var (g', w') := Do(g, w, c);
            && id in g'.streams && g'.streams[id] == g.streams[id]
            && g.streams[id] in g.ring && g.streams[id] in g'.ring
            && IndexOf(g'.ring, g.streams[id]) + (if StreamPop(g, c) then 1 else 0) <= IndexOf(g.ring, g.streams[id])
  {
    hide Consistent, PoolOk, ContentsOk, Distinct, IndexOf, Ready;
    OwnerOf(g.ring, g.streams, g.owner, id);
    RingDistinct(g.ring, g.streams, g.owner);
    var q := g.streams[id];
    match c
    case Open(other, x) =>
      OpenedKeeps(g, w, other, x);
      assert x !in g.ring by {
        RingOwned(g.ring, g.streams, g.owner);
      }
      IndexAppended(g.ring, q, x);
    case Close(other) =>
      if other in g.streams {
        OwnerOf(g.ring, g.streams, g.owner, other);
        IndexWithout(g.ring, q, g.streams[other]);
      }
    case Push(r) =>
    case Pop =>
      if StreamPop(g, c) {
        var k := FirstReady(g.held, w, g.ring, 0);
        assert Ready(g.held, w, g.ring[IndexOf(g.ring, q)]);
        ServedKeeps(g, w, k);
        IndexTurned(g.ring, q, k);
      }
    case Resize(_) =>
  }

  lemma RingOwned(ring: seq<WriteQueue>, streams: map<nat, WriteQueue>, owner: map<WriteQueue, nat>)
    requires Consistent(ring, streams, owner)
    ensures forall q :: q in ring ==> q in owner
  {
  }

  lemma RingDistinct(ring: seq<WriteQueue>, streams: map<nat, WriteQueue>, owner: map<WriteQueue, nat>)
    requires Consistent(ring, streams, owner)
    ensures Distinct(ring)
  {
  }

  // ---------------------------------------------------------------- what Pop takes

  // A DATA frame that Pop takes for a stream fits its window, that of the connection and the
  // frame size limit, and takes just its length from both windows.
  lemma PoppedFits(g: View, w: Win)
    requires Inv(g, w) && Held(g.held, g.control) == []
    ensures var (g', w', r) := Popped(g, w);
            r.Some? && DataSize(r.value) > 0 ==>
              && r.value.stream.Some? && r.value.stream.value in g.streams && r.value.stream.value in w.stream
              && Fits(w, w', r.value)
  {
    hide Consistent, Spend, TakeFrom, Distinct, PoolOk;
    var k := FirstReady(g.held, w, g.ring, 0);
    if k < |g.ring| {
      ServedKeeps(g, w, k);
      InRing(g.ring, g.streams, g.owner, k);
      TakenFits(w, g.held[g.ring[k]], g.owner[g.ring[k]]);
    }
  }

  // Pop fails if and only if the queue of every open stream is empty or has a limit used up for
  // its first frame; otherwise as much of such a frame goes as may.
  lemma PoppedMost(g: View, w: Win)
    requires Inv(g, w) && Held(g.held, g.control) == []
    ensures var r := Popped(g, w).2;
            && (r.None? <==> forall id :: id in g.streams ==> Stalled(w, Held(g.held, g.streams[id]), NO_LIMIT))
            && (r.Some? ==>
                  && r.value.stream.Some? && r.value.stream.value in g.streams
                  && var rs := Held(g.held, g.streams[r.value.stream.value]);
                     rs != [] && Longest(w, rs[0], NO_LIMIT, r.value))
  {
    hide Consistent, ContentsOk, Spend, TakeFrom, Distinct, PoolOk, Stalled, Longest;
    var k := FirstReady(g.held, w, g.ring, 0);
    if k < |g.ring| {
      ServedKeeps(g, w, k);
      InRing(g.ring, g.streams, g.owner, k);
      TakenMost(w, Held(g.held, g.ring[k]), NO_LIMIT);
      TakenSome(w, Held(g.held, g.ring[k]));
    } else {
      forall id | id in g.streams
        ensures Stalled(w, Held(g.held, g.streams[id]), NO_LIMIT)
      {
        OwnerOf(g.ring, g.streams, g.owner, id);
        var i := IndexOf(g.ring, g.streams[id]);
        assert !Ready(g.held, w, g.ring[i]);
        TakenMost(w, Held(g.held, g.streams[id]), NO_LIMIT);
      }
    }
  }

  lemma TakenSome(w: Win, rs: seq<Request>)
    ensures TakeFrom(w, rs, NO_LIMIT).1.Some? ==> rs != []
  {
  }

  // What one call takes from, or adds to, the queue of an open stream.
  ghost function PoppedNow(g: View, w: Win, c: Call, id: nat): seq<Request> {
    var r := Popped(g, w).2;
    if StreamPop(g, c) && r.Some? && r.value.stream == Some(id) then [r.value] else []
  }

  function PushedNow(c: Call, id: nat): seq<Request> {
    if c.Push? && c.r.stream == Some(id) then [c.r] else []
  }

  ghost function PoppedFrom(g: View, w: Win, calls: seq<Call>, id: nat): seq<Request>
    decreases |calls|
  {
    if calls == [] then []
    else
      var (g', w') := Do(g, w, calls[0]);
      PoppedNow(g, w, calls[0], id) + PoppedFrom(g', w', calls[1..], id)
  }

  function PushedTo(calls: seq<Call>, id: nat): seq<Request> {
    if calls == [] then [] else PushedNow(calls[0], id) + PushedTo(calls[1..], id)
  }

  lemma PopConserves(g: View, w: Win, id: nat)
    requires Inv(g, w) && id in g.streams && Held(g.held, g.control) == []
    ensures var g' := Popped(g, w).0;
            var q := g.streams[id];
            && id in g'.streams && g'.streams[id] == q && q in g.held && q in g'.held
            && Flat(PoppedNow(g, w, Pop, id)) + Flat(g'.held[q]) == Flat(g.held[q])
  {
    hide Consistent, Spend, TakeFrom, Distinct, PoolOk, FirstReady, Flat, Rotate, Ready;
    OwnerOf(g.ring, g.streams, g.owner, id);
    FlatNone();
    var q := g.streams[id];
    var k := FirstReady(g.held, w, g.ring, 0);
    if k < |g.ring| {
      ServedKeeps(g, w, k);
      InRing(g.ring, g.streams, g.owner, k);
      TakeConserved(w, g.held[g.ring[k]]);
    }
    assert [] + Flat(g.held[q]) == Flat(g.held[q]);
  }

  lemma TakeConserved(w: Win, rs: seq<Request>)
    ensures var (rs', r) := TakeFrom(w, rs, NO_LIMIT);
            if r.None? then rs' == rs else Flat([r.value]) + Flat(rs') == Flat(rs)
  {
    hide Flat;
    if rs != [] {
      FlatNone();
      assert [] + Flat(rs) == Flat(rs);
      match PortionNow(w, rs[0], NO_LIMIT)
      case Nothing =>
      case Whole =>
        TakeConserves(rs, [], rs);
        assert [] + [rs[0]] == [rs[0]];
      case Part(k) =>
        TakePartConserves(rs, [], rs, k);
        assert [] + [FirstPart(rs[0], k)] == [FirstPart(rs[0], k)];
    }
  }

  lemma StepConserves(g: View, w: Win, c: Call, id: nat)
    requires Inv(g, w) && Legal(g, w, c) && id in g.streams && c != Close(id)
    ensures var g' := Do(g, w, c).0;
            var q := g.streams[id];
            && id in g'.streams && g'.streams[id] == q && q in g.held && q in g'.held
            && Flat(PoppedNow(g, w, c, id)) + Flat(g'.held[q]) == Flat(g.held[q]) + Flat(PushedNow(c, id))
  {
    hide Consistent, Flat, Popped, Without, Distinct;
    OwnerOf(g.ring, g.streams, g.owner, id);
    FlatNone();
    var q := g.streams[id];
    assert [] + Flat(g.held[q]) == Flat(g.held[q]) == Flat(g.held[q]) + [];
    match c
    case Open(other, x) => OpenedKeeps(g, w, other, x);
    case Close(other) =>
      if other in g.streams {
        OwnerOf(g.ring, g.streams, g.owner, other);
      }
    case Push(r) =>
      if r.stream == Some(id) {
        FlatConcat(g.held[q], [r]);
      } else if r.stream.Some? && r.stream.value in g.streams {
        OwnerOf(g.ring, g.streams, g.owner, r.stream.value);
      }
    case Pop =>
      if StreamPop(g, c) {
        PopConserves(g, w, id);
      } else {
        ControlPopped(g, w, q);
      }
    case Resize(_) =>
  }

  lemma ControlPopped(g: View, w: Win, q: WriteQueue)
    requires Held(g.held, g.control) != [] && q in g.held && q != g.control
    ensures var g' := Popped(g, w).0;
            q in g'.held && g'.held[q] == g.held[q] && g'.streams == g.streams
  {
  }

  ghost predicate NeverCloses(calls: seq<Call>, id: nat) {
    forall k :: 0 <= k < |calls| ==> calls[k] != Close(id)
  }

  // For a stream that stays open: what is popped, followed by what is queued at the end, is
  // what was queued at first and what was pushed, in order.
  lemma {:induction false} RunConserves(g: View, w: Win, calls: seq<Call>, id: nat)
    requires Inv(g, w) && LegalRun(g, w, calls) && id in g.streams && NeverCloses(calls, id)
    ensures var g' := After(g, w, calls).0;
            var q := g.streams[id];
            && id in g'.streams && g'.streams[id] == q && q in g.held && q in g'.held
            && Flat(PoppedFrom(g, w, calls, id)) + Flat(g'.held[q]) == Flat(g.held[q]) + Flat(PushedTo(calls, id))
    decreases |calls|
  {
    hide *;
    RunUnfolds(g, w, calls, id);
    FlatNone();
    if calls == [] {
      Queued(g, w, id);
      var q := g.streams[id];
      assert [] + Flat(g.held[q]) == Flat(g.held[q]) == Flat(g.held[q]) + [];
    } else {
      var c := calls[0];
      var (g', w') := Do(g, w, c);
      var rest := calls[1..];
      DoKeeps(g, w, c);
      StepConserves(g, w, c, id);
      RunConserves(g', w', rest, id);
      FlatConcat(PoppedNow(g, w, c, id), PoppedFrom(g', w', rest, id));
      FlatConcat(PushedNow(c, id), PushedTo(rest, id));
      var q := g.streams[id];
      var end := After(g', w', rest).0;
      Regroup(Flat(PoppedNow(g, w, c, id)), Flat(PoppedFrom(g', w', rest, id)), Flat(end.held[q]));
      Regroup(Flat(PoppedNow(g, w, c, id)), Flat(g'.held[q]), Flat(PushedTo(rest, id)));
      Regroup(Flat(g.held[q]), Flat(PushedNow(c, id)), Flat(PushedTo(rest, id)));
    }
  }

  lemma Queued(g: View, w: Win, id: nat)
    requires Inv(g, w) && id in g.streams
    ensures g.streams[id] in g.held
  {
    hide PoolOk;
    OwnerOf(g.ring, g.streams, g.owner, id);
  }

  lemma RunUnfolds(g: View, w: Win, calls: seq<Call>, id: nat)
    requires LegalRun(g, w, calls)
    ensures calls == [] ==> After(g, w, calls) == (g, w) && PushedTo(calls, id) == [] && PoppedFrom(g, w, calls, id) == []
    ensures calls != [] ==>
              var (g', w') := Do(g, w, calls[0]);
              && Legal(g, w, calls[0]) && LegalRun(g', w', calls[1..]) && After(g, w, calls) == After(g', w', calls[1..])
              && PoppedFrom(g, w, calls, id) == PoppedNow(g, w, calls[0], id) + PoppedFrom(g', w', calls[1..], id)
              && PushedTo(calls, id) == PushedNow(calls[0], id) + PushedTo(calls[1..], id)
    ensures NeverCloses(calls, id) && calls != [] ==> calls[0] != Close(id) && NeverCloses(calls[1..], id)
  {
    hide Legal, Do, PoppedNow, PushedNow;
  }
}
