/** The write scheduler for RFC 9218 priorities, over circular lists of queues. */
module Rfc9218 {
  import opened Sequences
  import opened Options
  import opened WriteQueues
  import opened Rings
  import opened RingTables
  import opened ReadyQueues
  import opened Payload
  import opened Rfc9218Spec

  // Every queue in a ring is a known one.
  lemma AllHeld(g: View, w: Win)
    requires Inv(g, w)
    ensures All(g.rings) <= g.held.Keys && g.control in g.held
    ensures |g.rings| == 16 && g.bufferedPriority.urgency < 8
    ensures forall q :: q in g.pool ==> q in g.held && g.held[q] == []
  {
    hide Conserved, RingsOk, Distinct;
    AllAreSome(g.rings);
    forall q | q in All(g.rings)
      ensures q in g.held
    {
      assert q in g.owner;
    }
  }

  class Scheduler {
    const control: WriteQueue
    const table: RingTable
    const windows: Windows
    var streams: map<nat, Metadata>
    var queuePool: seq<WriteQueue>
    var prioritizeIncremental: bool
    var bufferedID: nat
    var bufferedPriority: Priority

    // What the scheduler stands for.
    ghost var g: View

    ghost predicate Valid()
      reads this, table, table.heads, All(table.rings)`next, All(table.rings)`prev
      reads windows, g.held.Keys`currQueue, g.held.Keys`nextQueue, g.held.Keys`currPos
    {
      && table.Valid() && g.rings == table.rings
      && Agrees(g) && Mirror(g.held.Keys, g.held)
      && Inv(g, windows.State())
    }

    constructor (windows: Windows)
      ensures Valid() && fresh(table) && fresh(table.heads) && fresh(control) && this.windows == windows
      ensures g == Start(control)
    {
      var q := new WriteQueue();
      var t := new RingTable(16);
      control, table, this.windows := q, t, windows;
      streams, queuePool, prioritizeIncremental := map[], [], false;
      bufferedID, bufferedPriority := 0, Priority(0, false);
      g := Start(q);
      new;
      StartInv(q, windows.State());
    }

    // A queue for reuse if there is one, or else a new one.
    method Get() returns (q: WriteQueue)
      requires Valid()
      modifies this`queuePool
      ensures Spare(g, q) && Mirror((g.held[q := []]).Keys, g.held[q := []])
      ensures queuePool == if q in g.pool then g.pool[..|g.pool| - 1] else g.pool
      ensures g.pool == [] ==> fresh(q)
    {
      hide Inv, Mirror;
      ghost var w := windows.State();
      AllHeld(g, w);
      if queuePool == [] {
        q := new WriteQueue();
      } else {
        q := queuePool[|queuePool| - 1];
        queuePool := queuePool[..|queuePool| - 1];
        MirrorAt(g.held.Keys, g.held, q);
      }
      MirrorEmptied(g.held.Keys, g.held, q);
      assert g.held.Keys + {q} == (g.held[q := []]).Keys;
    }

    // The other fields are those of v.
    ghost predicate Agrees(v: View)
      reads this
    {
      && v.streams == streams && v.pool == queuePool && v.control == control
      && v.incrementalFirst == prioritizeIncremental
      && v.bufferedID == bufferedID && v.bufferedPriority == bufferedPriority
    }

    // Insert q in its ring, which makes v the state.
    method Enter(c: nat, q: WriteQueue, ghost v: View)
      requires table.Valid() && c < |table.rings| && !InSome(table.rings, q)
      requires v.rings == table.rings[c := table.rings[c] + [q]]
      requires Agrees(v) && Mirror(v.held.Keys, v.held) && Inv(v, windows.State())
      modifies this`g, table, table.heads, All(table.rings)`next, All(table.rings)`prev, q`next, q`prev
      ensures Valid() && g == v
    {
      hide Mirror, Inv, RingTable.Valid, InSome, Apart, All, Windows.State;
      g := v;
      InsertQueue(table, c, q, v.held.Keys, v.held);
      Whole();
    }

    // Panics if the stream is open already.
    method OpenStream(id: nat, options: Priority) returns (ghost spare: WriteQueue)
      requires Valid() && id !in streams && id in windows.stream && options.urgency < 8
      modifies this, table, table.heads, g.held.Keys`next, g.held.Keys`prev
      ensures Valid() && Spare(old(g), spare) && (old(g.pool) == [] ==> fresh(spare))
      ensures g == Opened(old(g), id, options, spare)
    {
      hide Mirror, Inv, RingTable.Valid, InSome, Apart, All, Opened, Spare, Windows.State;
      ghost var w := windows.State();
      Parts();
      AllHeld(g, w);
      OpenedRings(g, w, id, options);
      var p := if id == bufferedID then bufferedPriority else options;
      var q := Get();
      spare := q;
      SpareUnused(g, w, q);
      OpenedKeeps(g, w, id, options, q);
      OpenedFields(g, id, options, q);
      bufferedID, streams := if id == bufferedID then 0 else bufferedID, streams[id := Metadata(q, p)];
      Enter(ClassOf(p), q, Opened(g, id, options, q));
    }

    // Take q out of its ring; its contents may be dropped.
    method Leave(c: nat, q: WriteQueue)
      requires Valid() && c < |table.rings| && q in table.rings[c]
      modifies table, table.heads, All(table.rings)`next, All(table.rings)`prev
      ensures table.Valid() && table.rings == g.rings[c := Without(g.rings[c], q)]
      ensures All(table.rings) <= old(All(table.rings))
      ensures Mirror(g.held.Keys, g.held)
    {
      hide Mirror, Inv, RingTable.Valid, InSome, Apart, All, IndexOf, Remove, Windows.State;
      DeleteQueue(table, c, IndexOf(table.rings[c], q), q, g.held.Keys, g.held);
    }

    method CloseStream(id: nat)
      requires Valid()
      modifies this, table, table.heads, g.held.Keys
      ensures Valid() && |old(g).rings| == 16 && (id in old(g).streams ==> old(g).streams[id].priority.urgency < 8)
      ensures g == Closed(old(g), id)
    {
      hide Mirror, Inv, RingTable.Valid, InSome, Apart, All, Closed, Without, Windows.State;
      ghost var w := windows.State();
      Parts();
      AllHeld(g, w);
      ClosedFields(g, w, id);
      if id !in streams {
        return;
      }
      ClosedKeeps(g, w, id);
      var Metadata(q, p) := streams[id];
      Leave(ClassOf(p), q);
      streams := streams - {id};
      Put(q);
      g := Closed(g, id);
      Whole();
    }

    // Keep a queue for reuse.
    method Put(q: WriteQueue)
      requires q in g.held && Mirror(g.held.Keys, g.held) && table.Valid()
      modifies this`queuePool, q`currQueue, q`nextQueue, q`currPos
      ensures table.Valid() && Mirror((g.held[q := []]).Keys, g.held[q := []])
      ensures queuePool == old(queuePool) + [q]
    {
      hide RingTable.Valid;
      ghost var linked := All(table.rings);
      q.Clear();
      queuePool := queuePool + [q];
    }

    // The last update for a stream that is not open is kept for when it opens.
    method AdjustStream(id: nat, p: Priority)
      requires Valid() && p.urgency < 8
      modifies this, table, table.heads, g.held.Keys`next, g.held.Keys`prev
      ensures Valid() && |old(g).rings| == 16 && (id in old(g).streams ==> old(g).streams[id].priority.urgency < 8)
      ensures g == Adjusted(old(g), id, p)
    {
      hide Mirror, Inv, RingTable.Valid, InSome, Apart, All, Adjusted, Without, Windows.State;
      ghost var w := windows.State();
      Parts();
      AllHeld(g, w);
      ClosedFields(g, w, id);
      AdjustedFields(g, w, id, p);
      AdjustedKeeps(g, w, id, p);
      if id !in streams {
        bufferedID, bufferedPriority := id, p;
        g := Adjusted(g, id, p);
        Whole();
        return;
      }
      var Metadata(q, was) := streams[id];
      Leave(ClassOf(was), q);
      streams := streams[id := Metadata(q, p)];
      Enter(ClassOf(p), q, Adjusted(g, id, p));
    }

    // Panics if DATA is pushed for a stream that is not open.
    method Push(r: Request)
      requires Valid() && (DataSize(r) > 0 && r.stream.Some? ==> r.stream.value in streams)
      modifies this`g, g.held.Keys`nextQueue
      ensures Valid() && g == Pushed(old(g), r)
    {
      hide Mirror, Inv, RingTable.Valid, InSome, Apart, All, Pushed, Windows.State;
      ghost var w := windows.State();
      Parts();
      PushedKeeps(g, w, r);
      PushedFields(g, w, r);
      var q := if r.stream.None? || r.stream.value !in streams then control else streams[r.stream.value].location;
      PushTo(q, r, table, g.held.Keys, g.held);
      g := Pushed(g, r);
      Whole();
    }

    // Serve the first stream of a ring that can be served, if there is one.
    method TryRing(c: nat) returns (r: Option<Request>)
      requires Valid() && c < |g.rings|
      modifies this`g, table, table.heads, windows`conn, windows`stream
      modifies g.held.Keys`currQueue, g.held.Keys`nextQueue, g.held.Keys`currPos
      ensures Valid()
      ensures var k := FirstReady(old(g).held, old(windows.State()), old(g).rings[c], 0);
              if k == |old(g).rings[c]| then r.None? && g == old(g) && windows.State() == old(windows.State())
              else r.Some? && (g, windows.State(), r) == Served(old(g), old(windows.State()), c, k)
    {
      hide Mirror, Inv, RingTable.Valid, InSome, Apart, All, Windows.State, AllCovered, Ready, Spend, TakeFrom, Served;
      ghost var w := windows.State();
      Parts();
      ghost var k;
      r := None;
      HeadIs(table, c);
      if table.heads[c] == null {
        return;
      }
      AllHeld(g, w);
      RingHeld(g, w, c);
      var q;
      r, q, k := ServeRing(table, c, windows, g.held.Keys, g.held);
      if r.None? {
        Whole();
        return;
      }
      ServedFields(g, w, c, k);
      ghost var (v, w', r') := Served(g, w, c, k);
      ServedKeeps(g, w, c, k);
      var head := if c % 2 == 1 then q.next else q;
      NextOf(g.rings[c], k);
      Advance(c, if c % 2 == 1 then Succ(k, |g.rings[c]|) else k, head, v);
    }

    // Make position k of a ring its head, which makes v the state.
    method Advance(c: nat, ghost k: nat, q: WriteQueue, ghost v: View)
      requires table.Valid() && c < |table.rings| && k < |table.rings[c]| && table.rings[c][k] == q
      requires v.rings == table.rings[c := Rotate(table.rings[c], k)]
      requires Agrees(v) && Mirror(v.held.Keys, v.held) && Inv(v, windows.State())
      modifies this`g, table, table.heads
      ensures Valid() && g == v
    {
      hide Mirror, Inv, RingTable.Valid, Apart, All, Windows.State;
      g := v;
      SetHeadQueue(table, c, k, q, v.held.Keys, v.held);
      Whole();
    }

    method PopControl() returns (r: Request)
      requires Valid() && g.control in g.held && g.held[g.control] != []
      modifies this`g, control`currQueue, control`nextQueue, control`currPos
      ensures Valid() && Held(old(g).held, old(g).control) != []
      ensures (g, windows.State(), Some(r)) == Popped(old(g), windows.State())
    {
      hide Mirror, Inv, RingTable.Valid, InSome, Apart, All, Windows.State;
      Parts();
      PoppedKeeps(g, windows.State());
      r := ShiftFrom(control, table, g.held.Keys, g.held);
      g := Hold(g, control, g.held[control][1..]);
      assert g.held.Keys == old(g).held.Keys;
      Whole();
    }

    // Control frames first, then the streams by urgency.
    method Pop() returns (r: Option<Request>)
      requires Valid()
      modifies this`g, this`prioritizeIncremental, table, table.heads, windows`conn, windows`stream
      modifies g.held.Keys`currQueue, g.held.Keys`nextQueue, g.held.Keys`currPos
      ensures Valid() && |old(g).rings| == 16
      ensures (g, windows.State(), r) == Popped(old(g), old(windows.State()))
    {
      hide Mirror, Inv, RingTable.Valid, InSome, Apart, All, Windows.State, Served, Find;
      ghost var w := windows.State();
      Parts();
      AllHeld(g, w);
      MirrorAt(g.held.Keys, g.held, control);
      var e := control.Empty();
      if !e {
        var c := PopControl();
        return Some(c);
      }
      prioritizeIncremental := !prioritizeIncremental;
      g := g.(incrementalFirst := !g.incrementalFirst);
      InvTurned(old(g), w);
      Whole();
      r := PopStream();
    }

    // Look at the rings in turn.
    method PopStream() returns (r: Option<Request>)
      requires Valid() && |g.rings| == 16 && prioritizeIncremental == g.incrementalFirst
      modifies this`g, table, table.heads, windows`conn, windows`stream
      modifies g.held.Keys`currQueue, g.held.Keys`nextQueue, g.held.Keys`currPos
      ensures Valid()
      ensures match Find(old(g), old(windows.State()), old(g).incrementalFirst, 0)
              case Nowhere => r.None? && g == old(g) && windows.State() == old(windows.State())
              case Place(c, k) => r.Some? && (g, windows.State(), r) == Served(old(g), old(windows.State()), c, k)
    {
      hide Valid, Windows.State, Served, FirstReady, All, Find;
      ghost var w := windows.State();
      FindEnd(g, w);
      for u := 0 to 8
        invariant Valid() && g == old(g) && windows.State() == w
        invariant Find(g, w, g.incrementalFirst, 0) == Find(g, w, g.incrementalFirst, 2 * u)
      {
        for n := 0 to 2
          invariant Valid() && g == old(g) && windows.State() == w
          invariant Find(g, w, g.incrementalFirst, 0) == Find(g, w, g.incrementalFirst, 2 * u + n)
        {
          var i := if prioritizeIncremental then (n + 1) % 2 else n;
          FindStep(g, w, u, n);
          r := TryRing(2 * u + i);
          if r.Some? {
            return;
          }
        }
      }
      r := None;
    }

    lemma Parts()
      requires Valid()
      ensures table.Valid() && g.rings == table.rings
      ensures g.streams == streams && g.pool == queuePool && g.control == control
      ensures g.incrementalFirst == prioritizeIncremental
      ensures g.bufferedID == bufferedID && g.bufferedPriority == bufferedPriority
      ensures Mirror(g.held.Keys, g.held) && Inv(g, windows.State())
      ensures windows.State().stream == windows.stream
    {
      hide Inv, Mirror, RingTable.Valid;
    }

    lemma Whole()
      requires table.Valid() && g.rings == table.rings
      requires Agrees(g)
      requires Mirror(g.held.Keys, g.held) && Inv(g, windows.State())
      ensures Valid()
    {
      hide Inv, Mirror, RingTable.Valid;
    }
  }

  lemma OpenedRings(g: View, w: Win, id: nat, options: Priority)
    requires Inv(g, w) && options.urgency < 8
    ensures OpeningPriority(g, id, options) == if id == g.bufferedID then g.bufferedPriority else options
    ensures OpeningPriority(g, id, options).urgency < 8
    ensures ClassOf(OpeningPriority(g, id, options)) < 16
  {
  }
  lemma ClosedFields(g: View, w: Win, id: nat)
    requires Inv(g, w)
    ensures |g.rings| == 16
    ensures id in g.streams ==>
              var Metadata(q, p) := g.streams[id];
              var g' := Closed(g, id);
              && p.urgency < 8 && ClassOf(p) < 16 && q in g.rings[ClassOf(p)] && q in g.held
              && g'.rings == g.rings[ClassOf(p) := Without(g.rings[ClassOf(p)], q)]
              && g'.streams == g.streams - {id} && g'.held == g.held[q := []] && g'.control == g.control
              && g'.incrementalFirst == g.incrementalFirst && g'.bufferedPriority == g.bufferedPriority
              && g'.bufferedID == g.bufferedID && g'.pool == g.pool + [q]
    ensures id !in g.streams ==> Closed(g, id) == g
  {
    hide RingsOk, PoolOk, Conserved, Without;
  }

  lemma AdjustedFields(g: View, w: Win, id: nat, p: Priority)
    requires Inv(g, w) && p.urgency < 8
    requires id in g.streams ==> g.streams[id].priority.urgency < 8
    ensures |g.rings| == 16
    ensures var g' := Adjusted(g, id, p);
            && g'.held == g.held && g'.control == g.control && g'.incrementalFirst == g.incrementalFirst
            && g'.pool == g.pool
            && (id in g.streams ==>
                  var Metadata(q, was) := g.streams[id];
                  var rings := g.rings[ClassOf(was) := Without(g.rings[ClassOf(was)], q)];
                  && g'.rings == rings[ClassOf(p) := rings[ClassOf(p)] + [q]] && !InSome(rings, q)
                  && g'.streams == g.streams[id := Metadata(q, p)]
                  && g'.bufferedPriority == g.bufferedPriority && g'.bufferedID == g.bufferedID)
            && (id !in g.streams ==> g' == g.(bufferedID := id, bufferedPriority := p))
  {
    hide RingsOk, PoolOk, Conserved, Without, Consistent, InSome;
    RingCount(g.rings, g.streams, g.owner);
    if id in g.streams {
      ConsistentClosed(g.rings, g.streams, g.owner, id);
    }
  }

  lemma PushedFields(g: View, w: Win, r: Request)
    requires Inv(g, w)
    ensures var g' := Pushed(g, r);
            var q := if r.stream.None? || r.stream.value !in g.streams then g.control else g.streams[r.stream.value].location;
            && q in g.held && g'.held == g.held[q := g.held[q] + [r]] && g'.held.Keys == g.held.Keys
            && g'.rings == g.rings && g'.streams == g.streams && g'.pool == g.pool && g'.control == g.control
            && g'.incrementalFirst == g.incrementalFirst
            && g'.bufferedPriority == g.bufferedPriority && g'.bufferedID == g.bufferedID
  {
    hide RingsOk, Conserved;
  }

  lemma RingHeld(g: View, w: Win, c: nat)
    requires Inv(g, w) && c < |g.rings|
    ensures Members(g.rings[c]) <= g.held.Keys
    ensures forall q :: q in g.rings[c] ==> q in g.held && AllCovered(g.held[q], w)
  {
    hide Conserved, RingsOk, PoolOk;
  }

  lemma ServedFields(g: View, w: Win, c: nat, k: nat)
    requires Inv(g, w) && c < |g.rings| && k < |g.rings[c]| && Ready(g.held, w, g.rings[c][k])
    ensures var q := g.rings[c][k];
            q in g.held &&
            var (g', w', r) := Served(g, w, c, k);
            && (g'.held, w', r) == (g.held[q := TakeFrom(w, g.held[q], NO_LIMIT).0], Spend(w, r.value), TakeFrom(w, g.held[q], NO_LIMIT).1)
            && g'.held.Keys == g.held.Keys && r.Some?
            && g'.rings == g.rings[c := Turned(g.rings[c], c, k)] && g'.streams == g.streams && g'.pool == g.pool
            && g'.control == g.control && g'.incrementalFirst == g.incrementalFirst
            && g'.bufferedPriority == g.bufferedPriority && g'.bufferedID == g.bufferedID
  {
    hide Conserved, RingsOk, PoolOk, TakeFrom, Turned, Spend;
    RingHeld(g, w, c);
  }

  lemma InvTurned(g: View, w: Win)
    requires Inv(g, w)
    ensures Inv(g.(incrementalFirst := !g.incrementalFirst), w)
  {
    hide Conserved, Consistent, RingsOk;
  }

  lemma FindEnd(g: View, w: Win)
    requires |g.rings| == 16
    ensures Find(g, w, g.incrementalFirst, 16) == Nowhere
  {
  }

  lemma FindStep(g: View, w: Win, u: nat, n: nat)
    requires |g.rings| == 16 && u < 8 && n < 2
    ensures var c := 2 * u + (if g.incrementalFirst then (n + 1) % 2 else n);
            var k := FirstReady(g.held, w, g.rings[c], 0);
            c < 16 &&
            Find(g, w, g.incrementalFirst, 2 * u + n)
            == if k < |g.rings[c]| then Place(c, k) else Find(g, w, g.incrementalFirst, 2 * u + n + 1)
  {
    hide FirstReady;
    assert ClassAt(g.incrementalFirst, 2 * u + n) == 2 * u + (if g.incrementalFirst then (n + 1) % 2 else n);
  }

  lemma OpenedFields(g: View, id: nat, options: Priority, q: WriteQueue)
    requires |g.rings| == 16 && OpeningPriority(g, id, options).urgency < 8
    ensures var g' := Opened(g, id, options, q);
            var p := OpeningPriority(g, id, options);
            && ClassOf(p) < 16 && g'.rings == g.rings[ClassOf(p) := g.rings[ClassOf(p)] + [q]]
            && g'.streams == g.streams[id := Metadata(q, p)] && g'.held == g.held[q := []] && g'.control == g.control
            && g'.incrementalFirst == g.incrementalFirst && g'.bufferedPriority == g.bufferedPriority
            && g'.bufferedID == (if id == g.bufferedID then 0 else g.bufferedID)
            && (q in g.pool ==> g'.pool == g.pool[..|g.pool| - 1]) && (q !in g.pool ==> g'.pool == g.pool)
  {
  }

  lemma SpareUnused(g: View, w: Win, q: WriteQueue)
    requires Inv(g, w) && Spare(g, q)
    ensures !InSome(g.rings, q)
    ensures if g.pool != [] then q == g.pool[|g.pool| - 1] && q in g.pool && q in g.held && g.held[q] == [] else q !in g.pool && q !in g.held
  {
    hide Conserved, RingsOk;
    SpareIsNew(g, w, q);
    NotInRings(g.rings, g.streams, g.owner, q);
  }
}
