/** The round-robin write scheduler, over a circular list of queues. */
module RoundRobin {
  import opened Sequences
  import opened Options
  import opened WriteQueues
  import opened Rings
  import opened RingTables
  import opened ReadyQueues
  import opened RoundRobinSpec

  class Scheduler {
    const control: WriteQueue
    // One ring: its head is the next queue to write from.
    const table: RingTable
    const windows: Windows
    var streams: map<nat, WriteQueue>
    var queuePool: seq<WriteQueue>

    // What the scheduler stands for.
    ghost var g: View

    ghost predicate Agrees(v: View)
      reads this
    {
      v.streams == streams && v.pool == queuePool && v.control == control
    }

    ghost predicate Valid()
      reads this, table, table.heads, All(table.rings)`next, All(table.rings)`prev
      reads windows, g.held.Keys`currQueue, g.held.Keys`nextQueue, g.held.Keys`currPos
    {
      && table.Valid() && table.rings == [g.ring]
      && Agrees(g) && Mirror(g.held.Keys, g.held)
      && Inv(g, windows.State())
    }

    constructor (windows: Windows)
      ensures Valid() && fresh(table) && fresh(table.heads) && fresh(control) && this.windows == windows
      ensures g == Start(control)
    {
      var q := new WriteQueue();
      var t := new RingTable(1);
      control, table, this.windows := q, t, windows;
      streams, queuePool := map[], [];
      g := Start(q);
      new;
      StartInv(q, windows.State());
    }

    // Panics if the stream is open already.
    method OpenStream(id: nat) returns (ghost spare: WriteQueue)
      requires Valid() && id !in streams && id in windows.stream
      modifies this, table, table.heads, g.held.Keys`next, g.held.Keys`prev
      ensures Valid() && Spare(old(g), spare) && (old(g.pool) == [] ==> fresh(spare))
      ensures g == Opened(old(g), id, spare)
    {
      hide Mirror, Inv, RingTable.Valid, InSome, Apart, All, Opened, Spare, Windows.State;
      ghost var w := windows.State();
      Parts();
      Facts(g, w);
      var q := Get();
      spare := q;
      OpenedKeeps(g, w, id, q);
      OpenedFields(g, w, id, q);
      streams := streams[id := q];
      Enter(q, Opened(g, id, q));
    }

    method CloseStream(id: nat)
      requires Valid()
      modifies this, table, table.heads, g.held.Keys
      ensures Valid() && g == Closed(old(g), id)
    {
      hide Mirror, Inv, RingTable.Valid, InSome, Apart, All, Closed, Without, Windows.State;
      ghost var w := windows.State();
      Parts();
      Facts(g, w);
      ClosedFields(g, w, id);
      if id !in streams {
        return;
      }
      ClosedKeeps(g, w, id);
      var q := streams[id];
      Leave(q);
      streams := streams - {id};
      Put(q);
      g := Closed(g, id);
      Whole();
    }

    // Panics if DATA is pushed for a stream that is not open.
    method Push(r: Request)
      requires Valid() && (DataSize(r) > 0 && r.stream.Some? ==> r.stream.value in streams)
      modifies this`g, g.held.Keys`nextQueue
      ensures Valid() && g == Pushed(old(g), r)
    {
      hide Mirror, Inv, RingTable.Valid, InSome, Apart, All, Windows.State;
      Parts();
      PushedKeeps(g, windows.State(), r);
      var q := if r.stream.None? || r.stream.value !in streams then control else streams[r.stream.value];
      PushTo(q, r, table, g.held.Keys, g.held);
      g := Pushed(g, r);
      assert g.held.Keys == old(g).held.Keys;
      Whole();
    }

    // Control frames first, then the next stream in the ring that can be served.
    method Pop() returns (r: Option<Request>)
      requires Valid()
      modifies this`g, table, table.heads, windows`conn, windows`stream
      modifies g.held.Keys`currQueue, g.held.Keys`nextQueue, g.held.Keys`currPos
      ensures Valid() && (g, windows.State(), r) == Popped(old(g), old(windows.State()))
    {
      hide Mirror, Inv, RingTable.Valid, InSome, Apart, All, Windows.State, Served, FirstReady, Popped;
      Parts();
      Facts(g, windows.State());
      PoppedIs(g, windows.State());
      MirrorAt(g.held.Keys, g.held, control);
      var e := control.Empty();
      if !e {
        var c := PopControl();
        return Some(c);
      }
      r := PopStream();
    }

    // ---------------------------------------------------------------- parts of the above

    // A queue for reuse if there is one, or else a new one.
    method Get() returns (q: WriteQueue)
      requires Valid()
      modifies this`queuePool
      ensures Spare(g, q) && Mirror((g.held[q := []]).Keys, g.held[q := []])
      ensures queuePool == if q in g.pool then g.pool[..|g.pool| - 1] else g.pool
      ensures g.pool == [] ==> fresh(q)
    {
      hide Inv, Mirror;
      Facts(g, windows.State());
      if queuePool == [] {
        q := new WriteQueue();
      } else {
        q := queuePool[|queuePool| - 1];
        queuePool := queuePool[..|queuePool| - 1];
        MirrorAt(g.held.Keys, g.held, q);
      }
      MirrorEmptied(g.held.Keys, g.held, q);
      assert g.held.Keys + {q} == (g.held[q := []]).Keys;
    }

    // Keep a queue for reuse.
    method Put(q: WriteQueue)
      requires q in g.held && Mirror(g.held.Keys, g.held) && table.Valid()
      modifies this`queuePool, q`currQueue, q`nextQueue, q`currPos
      ensures table.Valid() && Mirror((g.held[q := []]).Keys, g.held[q := []])
      ensures queuePool == old(queuePool) + [q]
    {
      hide RingTable.Valid;
      ghost var linked := All(table.rings);
      q.Clear();
      queuePool := queuePool + [q];
    }

    // Insert q in the ring, which makes v the state.
    method Enter(q: WriteQueue, ghost v: View)
      requires table.Valid() && |table.rings| == 1 && !InSome(table.rings, q)
      requires v.ring == table.rings[0] + [q]
      requires Agrees(v) && Mirror(v.held.Keys, v.held) && Inv(v, windows.State())
      modifies this`g, table, table.heads, All(table.rings)`next, All(table.rings)`prev, q`next, q`prev
      ensures Valid() && g == v
    {
      hide Mirror, Inv, RingTable.Valid, InSome, Apart, All, Windows.State;
      g := v;
      InsertQueue(table, 0, q, v.held.Keys, v.held);
      Whole();
    }

    // Take q out of the ring.
    method Leave(q: WriteQueue)
      requires Valid() && q in g.ring
      modifies table, table.heads, All(table.rings)`next, All(table.rings)`prev
      ensures table.Valid() && table.rings == [Without(g.ring, q)]
      ensures Mirror(g.held.Keys, g.held)
    {
      hide Mirror, Inv, RingTable.Valid, InSome, Apart, All, IndexOf, Remove, Windows.State;
      DeleteQueue(table, 0, IndexOf(g.ring, q), q, g.held.Keys, g.held);
    }

    method PopControl() returns (r: Request)
      requires Valid() && g.control in g.held && g.held[g.control] != []
      modifies this`g, control`currQueue, control`nextQueue, control`currPos
      ensures Valid() && (g, windows.State(), Some(r)) == Popped(old(g), windows.State())
    {
      hide Mirror, Inv, RingTable.Valid, InSome, Apart, All, Windows.State, FirstReady, Served;
      Parts();
      PoppedKeeps(g, windows.State());
      r := ShiftFrom(control, table, g.held.Keys, g.held);
      g := g.(held := g.held[control := g.held[control][1..]]);
      assert g.held.Keys == old(g).held.Keys;
      Whole();
    }

    method PopStream() returns (r: Option<Request>)
      requires Valid()
      modifies this`g, table, table.heads, windows`conn, windows`stream
      modifies g.held.Keys`currQueue, g.held.Keys`nextQueue, g.held.Keys`currPos
      ensures Valid()
      ensures var k := FirstReady(old(g).held, old(windows.State()), old(g).ring, 0);
              if k == |old(g).ring| then r.None? && g == old(g) && windows.State() == old(windows.State())
              else r.Some? && (g, windows.State(), r) == Served(old(g), old(windows.State()), k)
    {
      hide Mirror, Inv, RingTable.Valid, InSome, Apart, All, Windows.State, AllCovered, Ready, Spend, TakeFrom, Served;
      ghost var w := windows.State();
      Parts();
      ghost var k;
      r := None;
      HeadIs(table, 0);
      if table.heads[0] == null {
        return;
      }
      RingHeld(g, w);
      var q;
      r, q, k := ServeRing(table, 0, windows, g.held.Keys, g.held);
      if r.None? {
        Whole();
        return;
      }
      ServedFields(g, w, k);
      ServedKeeps(g, w, k);
      ghost var v := Served(g, w, k).0;
      NextOf(g.ring, k);
      Advance(Succ(k, |g.ring|), q.next, v);
    }

    // Make position k of the ring its head, which makes v the state.
    method Advance(ghost k: nat, q: WriteQueue, ghost v: View)
      requires table.Valid() && |table.rings| == 1 && k < |table.rings[0]| && table.rings[0][k] == q
      requires v.ring == Rotate(table.rings[0], k)
      requires Agrees(v) && Mirror(v.held.Keys, v.held) && Inv(v, windows.State())
      modifies this`g, table, table.heads
      ensures Valid() && g == v
    {
      hide Mirror, Inv, RingTable.Valid, Apart, All, Windows.State;
      g := v;
      SetHeadQueue(table, 0, k, q, v.held.Keys, v.held);
      Whole();
    }

    lemma Parts()
      requires Valid()
      ensures table.Valid() && table.rings == [g.ring] && Agrees(g)
      ensures Mirror(g.held.Keys, g.held) && Inv(g, windows.State())
      ensures windows.State().stream == windows.stream
    {
      hide Inv, Mirror, RingTable.Valid;
    }

    lemma Whole()
      requires table.Valid() && table.rings == [g.ring] && Agrees(g)
      requires Mirror(g.held.Keys, g.held) && Inv(g, windows.State())
      ensures Valid()
    {
      hide Inv, Mirror, RingTable.Valid;
    }
  }

  // ---------------------------------------------------------------- facts about the view

  lemma Facts(g: View, w: Win)
    requires Inv(g, w)
    ensures All([g.ring]) <= g.held.Keys && g.control in g.held
    ensures forall q :: q in g.pool ==> q in g.held && g.held[q] == []
  {
    hide Distinct;
    AllAreSome([g.ring]);
    forall q | q in All([g.ring])
      ensures q in g.held
    {
      assert q in g.owner;
    }
  }

  lemma OpenedFields(g: View, w: Win, id: nat, q: WriteQueue)
    requires Inv(g, w) && Spare(g, q) && q !in g.owner
    ensures var g' := Opened(g, id, q);
            && g'.ring == g.ring + [q] && g'.streams == g.streams[id := q]
            && g'.held == g.held[q := []] && g'.control == g.control
            && g'.pool == if q in g.pool then g.pool[..|g.pool| - 1] else g.pool
    ensures !InSome([g.ring], q) && (q in g.held <==> q in g.pool)
  {
    hide Distinct;
    assert q !in g.ring;
  }

  lemma ClosedFields(g: View, w: Win, id: nat)
    requires Inv(g, w)
    ensures id in g.streams ==>
              var q := g.streams[id];
              var g' := Closed(g, id);
              && q in g.ring && q in g.held
              && g'.ring == Without(g.ring, q) && g'.streams == g.streams - {id}
              && g'.held == g.held[q := []] && g'.control == g.control && g'.pool == g.pool + [q]
    ensures id !in g.streams ==> Closed(g, id) == g
  {
    hide Distinct, Without;
  }

  lemma PoppedIs(g: View, w: Win)
    requires Inv(g, w)
    ensures var k := FirstReady(g.held, w, g.ring, 0);
            g.held[g.control] == [] ==> Popped(g, w) == if k == |g.ring| then (g, w, None) else Served(g, w, k)
  {
    hide Inv, FirstReady, Served;
    Facts(g, w);
  }

  lemma RingHeld(g: View, w: Win)
    requires Inv(g, w)
    ensures Members(g.ring) <= g.held.Keys
    ensures forall q :: q in g.ring ==> q in g.held && AllCovered(g.held[q], w)
  {
    hide Distinct, PoolOk;
  }

  lemma ServedFields(g: View, w: Win, k: nat)
    requires Inv(g, w) && k < |g.ring| && Ready(g.held, w, g.ring[k])
    ensures var q := g.ring[k];
            q in g.held &&
            var (g', w', r) := Served(g, w, k);
            && (g'.held, w', r) == (g.held[q := TakeFrom(w, g.held[q], NO_LIMIT).0], Spend(w, r.value), TakeFrom(w, g.held[q], NO_LIMIT).1)
            && g'.held.Keys == g.held.Keys && r.Some?
            && g'.ring == Rotate(g.ring, Succ(k, |g.ring|)) && g'.streams == g.streams && g'.pool == g.pool
            && g'.control == g.control
  {
    hide Distinct, PoolOk, TakeFrom, Spend;
    RingHeld(g, w);
  }
}
