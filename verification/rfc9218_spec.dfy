/**
 * What the write scheduler for RFC 9218 priorities does, on the sequences its rings stand for:
 * one ring of streams for each of the 8 urgencies and each class, incremental or not.
 */
module Rfc9218Spec {
  import opened Sequences
  import opened Options
  import opened WriteQueues
  import opened Rings
  import opened RingTables
  import opened ReadyQueues
  import opened Payload

  datatype Priority = Priority(urgency: nat, incremental: bool)

  datatype Metadata = Metadata(location: WriteQueue, priority: Priority)

  // The abstract state. held gives the contents of every queue; asked and sent record what
  // was pushed for, and popped from, each open stream.
  datatype View = View(
    rings: seq<seq<WriteQueue>>,
    streams: map<nat, Metadata>,
    owner: map<WriteQueue, nat>,
    pool: seq<WriteQueue>,
    control: WriteQueue,
    held: map<WriteQueue, seq<Request>>,
    incrementalFirst: bool,
    bufferedID: nat,
    bufferedPriority: Priority,
    asked: map<nat, seq<Request>>,
    sent: map<nat, seq<Request>>)

  // The rings are numbered by urgency, and by class within it.
  function ClassOf(p: Priority): (c: nat)
    ensures p.urgency < 8 ==> c < 16
  {
    2 * p.urgency + (if p.incremental then 1 else 0)
  }

  // The n-th ring that Pop looks at.
  function ClassAt(incrementalFirst: bool, n: nat): nat {
    2 * (n / 2) + (if incrementalFirst then (n + 1) % 2 else n % 2)
  }

  // Its inverse: when Pop looks at ring c.
  function TurnOf(incrementalFirst: bool, c: nat): nat {
    2 * (c / 2) + (if incrementalFirst then (c + 1) % 2 else c % 2)
  }

  lemma ClassAtTurn(incrementalFirst: bool, c: nat)
    ensures ClassAt(incrementalFirst, TurnOf(incrementalFirst, c)) == c
    ensures TurnOf(incrementalFirst, ClassAt(incrementalFirst, c)) == c
    ensures TurnOf(incrementalFirst, c) / 2 == c / 2
    ensures c < 16 <==> TurnOf(incrementalFirst, c) < 16
    ensures c < 16 <==> ClassAt(incrementalFirst, c) < 16
  {
  }

  // ---------------------------------------------------------------- invariant

  // Which queue belongs to which stream, in which ring.
  ghost predicate Consistent(rings: seq<seq<WriteQueue>>, streams: map<nat, Metadata>, owner: map<WriteQueue, nat>) {
    && |rings| == 16
    && (forall id :: id in streams ==>
          streams[id].priority.urgency < 8 && streams[id].location in owner && owner[streams[id].location] == id)
    && (forall q :: q in owner ==> owner[q] in streams && streams[owner[q]].location == q)
    && (forall c, q :: 0 <= c < 16 && q in rings[c] ==> q in owner && ClassOf(streams[owner[q]].priority) == c)
    && (forall q :: q in owner ==> q in rings[ClassOf(streams[owner[q]].priority)])
  }

  ghost predicate RingsOk(rings: seq<seq<WriteQueue>>) {
    Apart(rings) && forall c :: 0 <= c < |rings| ==> Distinct(rings[c])
  }

  // The queues kept for reuse are empty and nobody's.
  ghost predicate PoolOk(g: View) {
    && Distinct(g.pool)
    && (forall q :: q in g.pool ==> q !in g.owner && q != g.control && q in g.held && g.held[q] == [])
    && g.control !in g.owner && g.control in g.held
  }

  // Requests are queued where they belong, and nothing is lost, duplicated or reordered.
  ghost predicate ContentsOk(g: View) {
    forall q :: q in g.owner ==>
      && q in g.held && g.owner[q] in g.asked && g.owner[q] in g.sent
      && (forall k :: 0 <= k < |g.held[q]| ==> g.held[q][k].stream == Some(g.owner[q]))
      && Conserved(g.asked[g.owner[q]], g.sent[g.owner[q]], g.held[q])
  }

  ghost predicate Inv(g: View, w: Win) {
    && Consistent(g.rings, g.streams, g.owner) && RingsOk(g.rings)
    && PoolOk(g) && ContentsOk(g)
    && g.bufferedPriority.urgency < 8
    && forall id :: id in g.streams ==> id in w.stream
  }

  // A scheduler without streams.
  ghost function Start(control: WriteQueue): View {
    View(seq(16, i => []), map[], map[], [], control, map[control := []], false, 0, Priority(0, false), map[], map[])
  }

  lemma StartInv(control: WriteQueue, w: Win)
    ensures Inv(Start(control), w)
  {
  }

  // ---------------------------------------------------------------- operations

  function Hold(g: View, q: WriteQueue, rs: seq<Request>): View {
    g.(held := g.held[q := rs])
  }

  function History(h: map<nat, seq<Request>>, id: nat): seq<Request> {
    if id in h then h[id] else []
  }

  ghost function Pushed(g: View, r: Request): View {
    if r.stream.Some? && r.stream.value in g.streams then
      var id := r.stream.value;
      var q := g.streams[id].location;
      Hold(g, q, Held(g.held, q) + [r]).(asked := g.asked[id := History(g.asked, id) + [r]])
    else Hold(g, g.control, Held(g.held, g.control) + [r])
  }

  // The priority a stream is opened with: a buffered update for it wins.
  function OpeningPriority(g: View, id: nat, options: Priority): Priority {
    if id == g.bufferedID then g.bufferedPriority else options
  }

  // A stream opened with queue q, at the end of its ring.
  ghost function Opened(g: View, id: nat, options: Priority, q: WriteQueue): View
    requires |g.rings| == 16 && OpeningPriority(g, id, options).urgency < 8
  {
    var p := OpeningPriority(g, id, options);
    g.(rings := g.rings[ClassOf(p) := g.rings[ClassOf(p)] + [q]],
       streams := g.streams[id := Metadata(q, p)],
       owner := g.owner[q := id],
       pool := if q in g.pool then g.pool[..|g.pool| - 1] else g.pool,
       held := g.held[q := []],
       bufferedID := if id == g.bufferedID then 0 else g.bufferedID,
       asked := g.asked[id := []],
       sent := g.sent[id := []])
  }

  ghost function Closed(g: View, id: nat): View
    requires |g.rings| == 16 && (id in g.streams ==> g.streams[id].priority.urgency < 8)
  {
    if id !in g.streams then g
    else
      var Metadata(q, p) := g.streams[id];
      g.(rings := g.rings[ClassOf(p) := Without(g.rings[ClassOf(p)], q)],
         streams := g.streams - {id},
         owner := g.owner - {q},
         pool := g.pool + [q],
         held := g.held[q := []],
         asked := g.asked - {id},
         sent := g.sent - {id})
  }

  // A new priority: the stream goes to the end of its new ring. For a stream that is not open
  // the update is remembered instead.
  ghost function Adjusted(g: View, id: nat, p: Priority): View
    requires |g.rings| == 16 && p.urgency < 8 && (id in g.streams ==> g.streams[id].priority.urgency < 8)
  {
    if id !in g.streams then g.(bufferedID := id, bufferedPriority := p)
    else
      var Metadata(q, was) := g.streams[id];
      var rings := g.rings[ClassOf(was) := Without(g.rings[ClassOf(was)], q)];
      g.(rings := rings[ClassOf(p) := rings[ClassOf(p)] + [q]], streams := g.streams[id := Metadata(q, p)])
  }

  // ---------------------------------------------------------------- Pop

  datatype Place = Place(ring: nat, at: nat) | Nowhere

  // The first place, from the n-th ring to look at on, that can be served.
  function Find(g: View, w: Win, incrementalFirst: bool, n: nat): (p: Place)
    requires |g.rings| == 16 && n <= 16
    ensures p.Place? ==> p.ring < 16 && p.at < |g.rings[p.ring]|
    decreases 16 - n
  {
    if n == 16 then Nowhere
    else
      ClassAtTurn(incrementalFirst, n);
      var c := ClassAt(incrementalFirst, n);
      var k := FirstReady(g.held, w, g.rings[c], 0);
      if k < |g.rings[c]| then Place(c, k) else Find(g, w, incrementalFirst, n + 1)
  }

  // An incremental ring turns past the stream served; any other stays with it.
  function Turned(ring: seq<WriteQueue>, c: nat, k: nat): seq<WriteQueue>
    requires k < |ring|
  {
    Rotate(ring, if c % 2 == 1 then Succ(k, |ring|) else k)
  }

  ghost function Served(g: View, w: Win, c: nat, k: nat): (View, Win, Option<Request>)
    requires c < |g.rings| && k < |g.rings[c]|
  {
    var q := g.rings[c][k];
    var (rs, r) := TakeFrom(w, Held(g.held, q), NO_LIMIT);
    if r.None? then (g, w, None)
    else
      var id := if q in g.owner then g.owner[q] else 0;
      (Hold(g, q, rs).(rings := g.rings[c := Turned(g.rings[c], c, k)],
                       sent := g.sent[id := History(g.sent, id) + [r.value]]),
       Spend(w, r.value), r)
  }

  ghost function Popped(g: View, w: Win): (View, Win, Option<Request>)
    requires |g.rings| == 16
  {
    var rs := Held(g.held, g.control);
    if rs != [] then (Hold(g, g.control, rs[1..]), w, Some(rs[0]))
    else
      var g' := g.(incrementalFirst := !g.incrementalFirst);
      match Find(g', w, g'.incrementalFirst, 0)
      case Nowhere => (g', w, None)
      case Place(c, k) => Served(g', w, c, k)
  }

  // ---------------------------------------------------------------- what Pop guarantees

  // Ring d has a stream that can be served.
  ghost predicate HasReady(g: View, w: Win, d: nat)
    requires d < |g.rings|
  {
    exists j :: 0 <= j < |g.rings[d]| && Ready(g.held, w, g.rings[d][j])
  }

  lemma {:induction false} FindFirst(g: View, w: Win, incrementalFirst: bool, n: nat)
    requires |g.rings| == 16 && n <= 16
    requires forall d :: 0 <= d < 16 && TurnOf(incrementalFirst, d) < n ==> !HasReady(g, w, d)
    ensures match Find(g, w, incrementalFirst, n)
            case Nowhere => forall d :: 0 <= d < 16 ==> !HasReady(g, w, d)
            case Place(c, k) =>
              && Ready(g.held, w, g.rings[c][k]) && HasReady(g, w, c)
              && (forall j :: 0 <= j < k ==> !Ready(g.held, w, g.rings[c][j]))
              && (forall d :: 0 <= d < 16 && HasReady(g, w, d) ==> TurnOf(incrementalFirst, c) <= TurnOf(incrementalFirst, d))
    decreases 16 - n
  {
    hide Ready, TurnOf, ClassAt;
    if n < 16 {
      ClassAtTurn(incrementalFirst, n);
      var c := ClassAt(incrementalFirst, n);
      var k := FirstReady(g.held, w, g.rings[c], 0);
      if k == |g.rings[c]| {
        forall d | 0 <= d < 16 && TurnOf(incrementalFirst, d) < n + 1
          ensures !HasReady(g, w, d)
        {
          ClassAtTurn(incrementalFirst, d);
        }
        FindFirst(g, w, incrementalFirst, n + 1);
      }
    } else {
      forall d | 0 <= d < 16
        ensures !HasReady(g, w, d)
      {
        ClassAtTurn(incrementalFirst, d);
      }
    }
  }

  // With no control frame waiting, Pop fails exactly if no stream can be served; otherwise
  // it serves the first stream that can be, in a ring of the lowest urgency that has one.
  lemma PopServesMostUrgent(g: View, w: Win)
    requires |g.rings| == 16 && Held(g.held, g.control) == []
    ensures var g' := g.(incrementalFirst := !g.incrementalFirst);
            var p := Find(g', w, g'.incrementalFirst, 0);
            && (Popped(g, w).2.None? <==> forall d :: 0 <= d < 16 ==> !HasReady(g, w, d))
            && (p.Place? ==>
                  && Popped(g, w) == Served(g', w, p.ring, p.at)
                  && Popped(g, w).2 == TakeFrom(w, Held(g.held, g.rings[p.ring][p.at]), NO_LIMIT).1
                  && HasReady(g, w, p.ring)
                  && (forall j :: 0 <= j < p.at ==> !Ready(g.held, w, g.rings[p.ring][j]))
                  && (forall d :: 0 <= d < 16 && HasReady(g, w, d) ==> p.ring / 2 <= d / 2))
  {
    hide TurnOf, Turned;
    var g' := g.(incrementalFirst := !g.incrementalFirst);
    FindFirst(g', w, g'.incrementalFirst, 0);
    var p := Find(g', w, g'.incrementalFirst, 0);
    forall d | 0 <= d < 16
      ensures HasReady(g', w, d) <==> HasReady(g, w, d)
      ensures TurnOf(g'.incrementalFirst, d) / 2 == d / 2
    {
      ClassAtTurn(g'.incrementalFirst, d);
      SameReady(g, g', w, d);
    }
    if p.Place? {
      forall j | 0 <= j < p.at
        ensures !Ready(g.held, w, g.rings[p.ring][j])
      {
        assert !Ready(g'.held, w, g'.rings[p.ring][j]);
      }
    }
  }

  lemma SameReady(g: View, g': View, w: Win, d: nat)
    requires g'.rings == g.rings && g'.held == g.held && d < |g.rings|
    ensures HasReady(g', w, d) <==> HasReady(g, w, d)
  {
    forall j | 0 <= j < |g.rings[d]|
      ensures Ready(g'.held, w, g'.rings[d][j]) == Ready(g.held, w, g.rings[d][j])
    {
    }
  }

  // Where Pop serves, if it does not find a control frame.
  ghost function ServedPlace(g: View, w: Win): Place
    requires |g.rings| == 16
  {
    Find(g.(incrementalFirst := !g.incrementalFirst), w, !g.incrementalFirst, 0)
  }

  // Urgency u is the lowest with a stream that can be served, and has one in either class.
  ghost predicate BothReady(g: View, w: Win, u: nat)
    requires |g.rings| == 16 && u < 8
  {
    && HasReady(g, w, 2 * u) && HasReady(g, w, 2 * u + 1)
    && forall d :: 0 <= d < 2 * u ==> !HasReady(g, w, d)
  }

  // With both classes of the lowest urgency ready, the flag alone decides between them.
  lemma FlagDecides(g1: View, w1: Win, g2: View, w2: Win, u: nat)
    requires |g1.rings| == 16 && |g2.rings| == 16 && u < 8
    requires g2.incrementalFirst == !g1.incrementalFirst
    requires BothReady(g1, w1, u) && BothReady(g2, w2, u)
    ensures var p1, p2 := ServedPlace(g1, w1), ServedPlace(g2, w2);
            && p1.Place? && p1.ring == 2 * u + (if g1.incrementalFirst then 0 else 1)
            && p2.Place? && p2.ring == 2 * u + (if g2.incrementalFirst then 0 else 1)
            && p1.ring != p2.ring
  {
    hide Find, HasReady;
    FindPreferred(g1, w1, u);
    FindPreferred(g2, w2, u);
  }

  lemma FindPreferred(g: View, w: Win, u: nat)
    requires |g.rings| == 16 && u < 8 && BothReady(g, w, u)
    ensures var p := ServedPlace(g, w);
            p.Place? && p.ring == 2 * u + (if g.incrementalFirst then 0 else 1)
  {
    hide HasReady, Find;
    var g' := g.(incrementalFirst := !g.incrementalFirst);
    FindFirst(g', w, g'.incrementalFirst, 0);
    forall d | 0 <= d < 16
      ensures HasReady(g', w, d) <==> HasReady(g, w, d)
    {
      SameReady(g, g', w, d);
    }
    var p := Find(g', w, g'.incrementalFirst, 0);
    var c := 2 * u + (if g.incrementalFirst then 0 else 1);
    ClassAtTurn(g'.incrementalFirst, c);
    assert TurnOf(g'.incrementalFirst, c) == 2 * u;
    if p.Place? {
      ClassAtTurn(g'.incrementalFirst, p.ring);
      assert TurnOf(g'.incrementalFirst, p.ring) <= 2 * u;
    }
  }

  // ---------------------------------------------------------------- the invariant is kept

  lemma ConsistentOpened(rings: seq<seq<WriteQueue>>, streams: map<nat, Metadata>, owner: map<WriteQueue, nat>,
                         id: nat, q: WriteQueue, p: Priority)
    requires Consistent(rings, streams, owner) && id !in streams && q !in owner && p.urgency < 8
    ensures Consistent(rings[ClassOf(p) := rings[ClassOf(p)] + [q]], streams[id := Metadata(q, p)], owner[q := id])
  {
  }

  lemma RingsOkAdded(rings: seq<seq<WriteQueue>>, c: nat, q: WriteQueue)
    requires RingsOk(rings) && c < |rings| && !InSome(rings, q)
    ensures RingsOk(rings[c := rings[c] + [q]])
  {
    hide Apart;
    AddedApart(rings, c, q);
    assert q !in rings[c];
  }

  lemma NotInRings(rings: seq<seq<WriteQueue>>, streams: map<nat, Metadata>, owner: map<WriteQueue, nat>, q: WriteQueue)
    requires Consistent(rings, streams, owner) && q !in owner
    ensures !InSome(rings, q)
  {
  }

  // A queue that may be given to a new stream: the last one of the pool, or an unknown one.
  ghost predicate Spare(g: View, q: WriteQueue) {
    if g.pool != [] then q == g.pool[|g.pool| - 1] else q !in g.held
  }

  lemma SpareIsNew(g: View, w: Win, q: WriteQueue)
    requires Inv(g, w) && Spare(g, q)
    ensures q !in g.owner && q != g.control
  {
    hide Conserved;
  }

  lemma OpenedKeeps(g: View, w: Win, id: nat, options: Priority, q: WriteQueue)
    requires Inv(g, w) && id !in g.streams && id in w.stream && Spare(g, q)
    requires options.urgency < 8
    ensures Inv(Opened(g, id, options, q), w)
  {
    hide Consistent, RingsOk, Conserved, Distinct;
    var p := OpeningPriority(g, id, options);
    RingCount(g.rings, g.streams, g.owner);
    SpareIsNew(g, w, q);
    NotInRings(g.rings, g.streams, g.owner, q);
    ConsistentOpened(g.rings, g.streams, g.owner, id, q, p);
    RingsOkAdded(g.rings, ClassOf(p), q);
    NothingConserved();
    var g' := Opened(g, id, options, q);
    OpenedPool(g, g', q);
    OwnersDiffer(g.rings, g.streams, g.owner, id);
    forall o | o in g'.owner
      ensures o in g'.held && g'.owner[o] in g'.asked && g'.owner[o] in g'.sent
      ensures forall k :: 0 <= k < |g'.held[o]| ==> g'.held[o][k].stream == Some(g'.owner[o])
      ensures Conserved(g'.asked[g'.owner[o]], g'.sent[g'.owner[o]], g'.held[o])
    {
      if o != q {
        assert o in g.owner;
      }
    }
  }

  lemma OwnersDiffer(rings: seq<seq<WriteQueue>>, streams: map<nat, Metadata>, owner: map<WriteQueue, nat>, id: nat)
    requires Consistent(rings, streams, owner)
    ensures id !in streams ==> forall q :: q in owner ==> owner[q] != id
    ensures id in streams ==> forall q :: q in owner && q != streams[id].location ==> owner[q] != id
    ensures id in streams ==> streams[id].location in owner && owner[streams[id].location] == id
  {
  }

  lemma OpenedPool(g: View, g': View, q: WriteQueue)
    requires PoolOk(g) && Spare(g, q) && q !in g.owner && q != g.control
    requires g'.pool == if q in g.pool then g.pool[..|g.pool| - 1] else g.pool
    requires g'.owner.Keys == g.owner.Keys + {q} && g'.control == g.control && g'.held == g.held[q := []]
    ensures PoolOk(g')
  {
    if g.pool == [] {
    } else {
      assert q == g.pool[|g.pool| - 1];
      assert forall o :: o in g'.pool ==> o in g.pool && o != q;
    }
  }

  lemma PushedKeeps(g: View, w: Win, r: Request)
    requires Inv(g, w)
    ensures Inv(Pushed(g, r), w)
  {
    hide Consistent, RingsOk, Conserved, Distinct;
    if r.stream.Some? && r.stream.value in g.streams {
      var id := r.stream.value;
      var q := g.streams[id].location;
      OwnersDiffer(g.rings, g.streams, g.owner, id);
      PushConserves(g.asked[id], g.sent[id], g.held[q], r);
    }
  }

  lemma RingsOkWithout(rings: seq<seq<WriteQueue>>, c: nat, q: WriteQueue)
    requires RingsOk(rings) && c < |rings| && q in rings[c]
    ensures var r := rings[c := Without(rings[c], q)];
            && RingsOk(r) && !InSome(r, q)
            && forall d, o :: 0 <= d < |r| ==> (o in r[d] <==> o in rings[d] && o != q)
  {
    hide Without, Distinct, Remove;
    var r := rings[c := Without(rings[c], q)];
    WithoutMembers(rings[c], q);
    forall d, o | 0 <= d < |r|
      ensures o in r[d] <==> o in rings[d] && o != q
    {
      if d == c {
        assert r[d] == Without(rings[c], q);
      }
    }
  }

  lemma ConsistentClosed(rings: seq<seq<WriteQueue>>, streams: map<nat, Metadata>, owner: map<WriteQueue, nat>, id: nat)
    requires Consistent(rings, streams, owner) && RingsOk(rings) && id in streams
    ensures var Metadata(q, p) := streams[id];
            var rings' := rings[ClassOf(p) := Without(rings[ClassOf(p)], q)];
            && q in rings[ClassOf(p)]
            && Consistent(rings', streams - {id}, owner - {q}) && RingsOk(rings') && !InSome(rings', q)
  {
    hide Without, RingsOk, InSome, Consistent, ClassOf;
    var Metadata(q, p) := streams[id];
    var c := ClassOf(p);
    StreamOwner(rings, streams, owner, id);
    RingsOkWithout(rings, c, q);
    ConsistentLess(rings, streams, owner, id, rings[c := Without(rings[c], q)]);
  }

  lemma StreamOwner(rings: seq<seq<WriteQueue>>, streams: map<nat, Metadata>, owner: map<WriteQueue, nat>, id: nat)
    requires Consistent(rings, streams, owner) && id in streams
    ensures var Metadata(q, p) := streams[id];
            && p.urgency < 8 && |rings| == 16 && ClassOf(p) < 16
            && q in owner && owner[q] == id && q in rings[ClassOf(p)]
  {
  }

  lemma ConsistentLess(rings: seq<seq<WriteQueue>>, streams: map<nat, Metadata>, owner: map<WriteQueue, nat>, id: nat,
                       rings': seq<seq<WriteQueue>>)
    requires Consistent(rings, streams, owner) && id in streams && |rings'| == 16
    requires forall c, o :: 0 <= c < 16 ==> (o in rings'[c] <==> o in rings[c] && o != streams[id].location)
    ensures Consistent(rings', streams - {id}, owner - {streams[id].location})
  {
  }

  lemma ClosedKeeps(g: View, w: Win, id: nat)
    requires Inv(g, w)
    ensures Inv(Closed(g, id), w)
  {
    hide Consistent, RingsOk, Conserved, Without;
    if id in g.streams {
      UrgencyOk(g.rings, g.streams, g.owner, id);
      ConsistentClosed(g.rings, g.streams, g.owner, id);
      OwnersDiffer(g.rings, g.streams, g.owner, id);
      var q := g.streams[id].location;
      var g' := Closed(g, id);
      assert q !in g.pool && q != g.control;
      assert Distinct(g.pool + [q]);
    }
  }

  lemma UrgencyOk(rings: seq<seq<WriteQueue>>, streams: map<nat, Metadata>, owner: map<WriteQueue, nat>, id: nat)
    requires Consistent(rings, streams, owner) && id in streams
    ensures streams[id].priority.urgency < 8 && |rings| == 16
  {
  }

  lemma AdjustedKeeps(g: View, w: Win, id: nat, p: Priority)
    requires Inv(g, w) && p.urgency < 8
    ensures Inv(Adjusted(g, id, p), w)
  {
    hide Consistent, RingsOk, Conserved, Without, Distinct;
    if id in g.streams {
      UrgencyOk(g.rings, g.streams, g.owner, id);
      ConsistentClosed(g.rings, g.streams, g.owner, id);
      OwnersDiffer(g.rings, g.streams, g.owner, id);
      var Metadata(q, was) := g.streams[id];
      var rings := g.rings[ClassOf(was) := Without(g.rings[ClassOf(was)], q)];
      ConsistentOpened(rings, g.streams - {id}, g.owner - {q}, id, q, p);
      RingsOkAdded(rings, ClassOf(p), q);
      assert (g.streams - {id})[id := Metadata(q, p)] == g.streams[id := Metadata(q, p)];
      assert (g.owner - {q})[q := id] == g.owner;
    }
  }

  lemma ConsistentTurned(rings: seq<seq<WriteQueue>>, streams: map<nat, Metadata>, owner: map<WriteQueue, nat>, c: nat, n: nat)
    requires Consistent(rings, streams, owner) && RingsOk(rings) && c < 16 && n <= |rings[c]|
    ensures var r := rings[c := Rotate(rings[c], n)];
            Consistent(r, streams, owner) && RingsOk(r)
  {
    var r := rings[c := Rotate(rings[c], n)];
    RotatedApart(rings, c, n);
    RotateMembers(rings[c], n);
  }

  lemma TakeKeeps(g: View, w: Win, q: WriteQueue)
    requires Inv(g, w) && q in g.owner && Ready(g.held, w, q)
    ensures var (rs, r) := TakeFrom(w, g.held[q], NO_LIMIT);
            var id := g.owner[q];
            && (forall k :: 0 <= k < |rs| ==> rs[k].stream == Some(id))
            && Conserved(g.asked[id], g.sent[id] + [r.value], rs)
            && Spend(w, r.value).stream.Keys == w.stream.Keys
  {
    hide Consistent, RingsOk, PoolOk, Conserved;
    var rs := g.held[q];
    var id := g.owner[q];
    match PortionNow(w, rs[0], NO_LIMIT)
    case Nothing =>
    case Whole => TakeConserves(g.asked[id], g.sent[id], rs);
    case Part(k) => TakePartConserves(g.asked[id], g.sent[id], rs, k);
  }

  // Serving q, for stream id, leaves the other queues as they were.
  lemma ContentsServed(g: View, g': View, q: WriteQueue, id: nat, rs: seq<Request>, r: Request)
    requires ContentsOk(g) && q in g.owner && g.owner[q] == id
    requires forall o :: o in g.owner && o != q ==> g.owner[o] != id
    requires g' == g.(rings := g'.rings, held := g.held[q := rs], sent := g.sent[id := g.sent[id] + [r]])
    requires forall k :: 0 <= k < |rs| ==> rs[k].stream == Some(id)
    requires Conserved(g.asked[id], g.sent[id] + [r], rs)
    ensures ContentsOk(g')
  {
    hide Conserved;
  }

  lemma RingOwner(rings: seq<seq<WriteQueue>>, streams: map<nat, Metadata>, owner: map<WriteQueue, nat>, c: nat, k: nat)
    requires Consistent(rings, streams, owner) && c < 16 && k < |rings[c]|
    ensures var q := rings[c][k];
            && q in owner && owner[q] in streams && streams[owner[q]].location == q
            && ClassOf(streams[owner[q]].priority) == c
  {
    var q := rings[c][k];
    assert q in rings[c];
  }

  lemma ServedKeeps(g: View, w: Win, c: nat, k: nat)
    requires Inv(g, w) && c < |g.rings| == 16 && k < |g.rings[c]| && Ready(g.held, w, g.rings[c][k])
    ensures var (g', w', r) := Served(g, w, c, k);
            r.Some? && Inv(g', w')
  {
    hide Consistent, RingsOk, Conserved, Spend, TakeFrom, ContentsOk, ClassOf;
    var q := g.rings[c][k];
    RingOwner(g.rings, g.streams, g.owner, c, k);
    TakeKeeps(g, w, q);
    var id := g.owner[q];
    OwnersDiffer(g.rings, g.streams, g.owner, id);
    ConsistentTurned(g.rings, g.streams, g.owner, c, if c % 2 == 1 then Succ(k, |g.rings[c]|) else k);
    var (g', w', r) := Served(g, w, c, k);
    ContentsOwner(g, q);
    ContentsServed(g, g', q, id, Held(g'.held, q), r.value);
  }

  lemma ContentsOwner(g: View, q: WriteQueue)
    requires ContentsOk(g) && q in g.owner
    ensures q in g.held && g.owner[q] in g.asked && g.owner[q] in g.sent
  {
    hide Conserved;
  }

  lemma PoppedKeeps(g: View, w: Win)
    requires Inv(g, w)
    ensures var (g', w', r) := Popped(g, w); Inv(g', w')
  {
    hide Consistent, RingsOk, Conserved, Served, Find, Ready;
    RingCount(g.rings, g.streams, g.owner);
    if Held(g.held, g.control) == [] {
      var g' := g.(incrementalFirst := !g.incrementalFirst);
      FindFirst(g', w, g'.incrementalFirst, 0);
      match Find(g', w, g'.incrementalFirst, 0)
      case Nowhere =>
      case Place(c, k) => ServedKeeps(g', w, c, k);
    }
  }

  lemma RingCount(rings: seq<seq<WriteQueue>>, streams: map<nat, Metadata>, owner: map<WriteQueue, nat>)
    requires Consistent(rings, streams, owner)
    ensures |rings| == 16
  {
  }
}
