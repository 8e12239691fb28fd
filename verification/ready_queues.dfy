/** Which of the queues in a ring can be served, and what serving one does. */
module ReadyQueues {
  import opened Sequences
  import opened Options
  import opened WriteQueues
  import opened Rings
  import opened RingTables

  // The contents of a queue, if known.
  function Held(held: map<WriteQueue, seq<Request>>, q: WriteQueue): seq<Request> {
    if q in held then held[q] else []
  }

  predicate Ready(held: map<WriteQueue, seq<Request>>, w: Win, q: WriteQueue) {
    TakeFrom(w, Held(held, q), NO_LIMIT).1.Some?
  }

  // The first position from k on whose queue can be served, or the length of the ring.
  function FirstReady(held: map<WriteQueue, seq<Request>>, w: Win, ring: seq<WriteQueue>, k: nat): (r: nat)
    requires k <= |ring|
    ensures k <= r <= |ring|
    ensures r < |ring| ==> Ready(held, w, ring[r])
    ensures forall j :: k <= j < r ==> !Ready(held, w, ring[j])
    decreases |ring| - k
  {
    if k == |ring| || Ready(held, w, ring[k]) then k else FirstReady(held, w, ring, k + 1)
  }

  lemma RotateMembers(s: seq<WriteQueue>, n: nat)
    requires n <= |s| && Distinct(s)
    ensures Distinct(Rotate(s, n)) && forall q :: q in Rotate(s, n) <==> q in s
  {
    var r := Rotate(s, n);
    assert s == s[..n] + s[n..];
    assert forall i :: 0 <= i < |s| - n ==> r[i] == s[i + n];
    assert forall i :: |s| - n <= i < |s| ==> r[i] == s[i + n - |s|];
  }

  // Where a queue is found is its position, as no queue occurs twice.
  lemma IndexIs(ring: seq<WriteQueue>, k: nat)
    requires Distinct(ring) && k < |ring|
    ensures IndexOf(ring, ring[k]) == k
  {
    assert ring[k] in ring;
    var i := IndexOf(ring, ring[k]);
  }

  lemma IndexAppended(ring: seq<WriteQueue>, q: WriteQueue, x: WriteQueue)
    requires Distinct(ring) && q in ring && x !in ring
    ensures q in ring + [x] && IndexOf(ring + [x], q) == IndexOf(ring, q)
  {
    var k := IndexOf(ring, q);
    assert (ring + [x])[k] == q;
    IndexIs(ring + [x], k);
  }

  lemma IndexWithout(ring: seq<WriteQueue>, q: WriteQueue, x: WriteQueue)
    requires Distinct(ring) && q in ring && x in ring && x != q
    ensures q in Without(ring, x) && IndexOf(Without(ring, x), q) <= IndexOf(ring, q)
  {
    hide Distinct, IndexOf;
    var k, j := IndexOf(ring, q), IndexOf(ring, x);
    var r := Remove(ring, j);
    RemoveDistinct(ring, j);
    var i := if k < j then k else k - 1;
    assert r[i] == q;
    IndexIs(r, i);
  }

  // Turning past position k moves everything behind it k + 1 places forward.
  lemma IndexTurned(ring: seq<WriteQueue>, q: WriteQueue, k: nat)
    requires Distinct(ring) && q in ring && k < IndexOf(ring, q)
    ensures var r := Rotate(ring, Succ(k, |ring|));
            q in r && IndexOf(r, q) == IndexOf(ring, q) - k - 1
  {
    hide Distinct, IndexOf;
    var r := Rotate(ring, k + 1);
    RotateMembers(ring, k + 1);
    var i := IndexOf(ring, q) - k - 1;
    assert r[i] == q;
    IndexIs(r, i);
  }

  // The queues are in order, and hold what held says.
  ghost predicate Mirror(qs: set<WriteQueue>, held: map<WriteQueue, seq<Request>>)
    reads qs`currQueue, qs`nextQueue, qs`currPos
  {
    forall q :: q in qs ==> q.Valid() && q in held && q.Contents() == held[q]
  }

  ghost predicate AllCovered(rs: seq<Request>, w: Win) {
    forall k :: 0 <= k < |rs| ==> Covers(w, rs[k])
  }

  // Serve q if it can be served.
  method Serve(q: WriteQueue, w: Windows, ghost qs: set<WriteQueue>, ghost held: map<WriteQueue, seq<Request>>)
    returns (r: Option<Request>)
    requires q in qs && Mirror(qs, held) && AllCovered(held[q], w.State())
    modifies q`currQueue, q`nextQueue, q`currPos, w`conn, w`stream
    ensures r.Some? <==> Ready(held, old(w.State()), q)
    ensures r.None? ==> w.State() == old(w.State()) && Mirror(qs, held)
    ensures r.Some? ==>
              && r == TakeFrom(old(w.State()), held[q], NO_LIMIT).1
              && w.State() == Spend(old(w.State()), r.value)
              && Mirror(qs, held[q := TakeFrom(old(w.State()), held[q], NO_LIMIT).0])
  {
    hide Covers, TakeFrom, Spend;
    NotTaken(w.State(), held[q]);
    r := q.Consume(w, NO_LIMIT);
  }

  lemma NotTaken(w: Win, rs: seq<Request>)
    ensures TakeFrom(w, rs, NO_LIMIT).1.None? ==> TakeFrom(w, rs, NO_LIMIT).0 == rs
  {
  }

  lemma NextOf(ring: seq<WriteQueue>, k: nat)
    requires IsRing(ring) && k < |ring|
    ensures ring[k].next == ring[Succ(k, |ring|)]
    ensures ring[k].next == ring[0] <==> k + 1 == |ring|
  {
    assert ring[k].next == ring[Succ(k, |ring|)];
  }

  // r fits the windows and the frame size limit, and w' is what is left of them.
  predicate Fits(w: Win, w': Win, r: Request)
    requires r.stream.Some? && r.stream.value in w.stream
  {
    var id, n := r.stream.value, DataSize(r);
    && n <= w.stream[id] && n <= w.conn && n <= w.maxFrame
    && w' == w.(conn := w.conn - n, stream := w.stream[id := w.stream[id] - n])
  }

  lemma TakenFits(w: Win, rs: seq<Request>, id: nat)
    requires id in w.stream && forall k :: 0 <= k < |rs| ==> rs[k].stream == Some(id)
    ensures var r := TakeFrom(w, rs, NO_LIMIT).1;
            r.Some? && DataSize(r.value) > 0 ==> r.value.stream == Some(id) && Fits(w, Spend(w, r.value), r.value)
  {
    if rs != [] && TakeFrom(w, rs, NO_LIMIT).1.Some? && DataSize(TakeFrom(w, rs, NO_LIMIT).1.value) > 0 {
      ConsumedFits(w, rs[0], NO_LIMIT);
    }
  }

  // Nothing can be taken from the front of a queue.
  predicate Stalled(w: Win, rs: seq<Request>, n: int) {
    rs == [] || Blocked(w, rs[0], n)
  }

  lemma TakenMost(w: Win, rs: seq<Request>, n: int)
    ensures var r := TakeFrom(w, rs, n).1;
            && (r.None? <==> Stalled(w, rs, n))
            && (r.Some? ==> Longest(w, rs[0], n, r.value))
  {
    hide Consumed, Blocked, Longest;
    if rs != [] {
      ConsumedMost(w, rs[0], n);
    }
  }

  // Go round a ring from its head until a queue can be served, and serve it.
  method ServeFirst(head: WriteQueue, ghost ring: seq<WriteQueue>, w: Windows,
                    ghost qs: set<WriteQueue>, ghost held: map<WriteQueue, seq<Request>>)
    returns (r: Option<Request>, q: WriteQueue, ghost k: nat)
    requires IsRing(ring) && ring != [] && ring[0] == head && Members(ring) <= qs
    requires Mirror(qs, held)
    requires forall x :: x in ring ==> AllCovered(held[x], w.State())
    modifies qs`currQueue, qs`nextQueue, qs`currPos, w`conn, w`stream
    ensures k == FirstReady(held, old(w.State()), ring, 0)
    ensures k == |ring| <==> r.None?
    ensures r.None? ==> w.State() == old(w.State()) && Mirror(qs, held)
    ensures k < |ring| ==>
              && q == ring[k] && r == TakeFrom(old(w.State()), held[q], NO_LIMIT).1
              && w.State() == Spend(old(w.State()), r.value)
              && Mirror(qs, held[q := TakeFrom(old(w.State()), held[q], NO_LIMIT).0])
  {
    hide IsRing, Mirror, AllCovered, Spend, TakeFrom, Ready, Windows.State;
    q, k := head, 0;
    while true
      invariant k < |ring| && q == ring[k]
      invariant w.State() == old(w.State()) && Mirror(qs, held)
      invariant FirstReady(held, old(w.State()), ring, 0) == FirstReady(held, old(w.State()), ring, k)
      decreases |ring| - k
    {
      assert q in Members(ring);
      r := Serve(q, w, qs, held);
      if r.Some? {
        return;
      }
      NextOf(ring, k);
      q := q.next;
      k := k + 1;
      if q == head {
        return;
      }
    }
  }

  // The operations on rings leave the contents of the queues alone.
  method InsertQueue(table: RingTable, c: nat, q: WriteQueue, ghost qs: set<WriteQueue>, ghost held: map<WriteQueue, seq<Request>>)
    requires table.Valid() && c < |table.rings| && !InSome(table.rings, q)
    requires Mirror(qs, held)
    modifies table, table.heads, All(table.rings)`next, All(table.rings)`prev, q`next, q`prev
    ensures table.Valid() && table.rings == old(table.rings)[c := old(table.rings)[c] + [q]]
    ensures Mirror(qs, held)
  {
    hide *;
    table.Insert(c, q);
  }

  method DeleteQueue(table: RingTable, c: nat, ghost k: nat, q: WriteQueue, ghost qs: set<WriteQueue>, ghost held: map<WriteQueue, seq<Request>>)
    requires table.Valid() && c < |table.rings| && k < |table.rings[c]| && table.rings[c][k] == q
    requires Mirror(qs, held)
    modifies table, table.heads, All(table.rings)`next, All(table.rings)`prev
    ensures table.Valid() && table.rings == old(table.rings)[c := Remove(old(table.rings)[c], k)]
    ensures All(table.rings) <= old(All(table.rings))
    ensures Mirror(qs, held)
  {
    hide *;
    table.Delete(c, k, q);
  }

  method SetHeadQueue(table: RingTable, c: nat, ghost k: nat, q: WriteQueue, ghost qs: set<WriteQueue>, ghost held: map<WriteQueue, seq<Request>>)
    requires table.Valid() && c < |table.rings| && k < |table.rings[c]| && table.rings[c][k] == q
    requires Mirror(qs, held)
    modifies table, table.heads
    ensures table.Valid() && table.rings == old(table.rings)[c := Rotate(old(table.rings)[c], k)]
    ensures Mirror(qs, held)
  {
    hide *;
    table.SetHead(c, k, q);
  }

  // The operations on contents leave the rings alone.
  method PushTo(q: WriteQueue, r: Request, ghost table: RingTable, ghost qs: set<WriteQueue>, ghost held: map<WriteQueue, seq<Request>>)
    requires table.Valid() && Mirror(qs, held) && q in qs
    modifies q`nextQueue
    ensures table.Valid() && Mirror(qs, held[q := held[q] + [r]])
  {
    hide RingTable.Valid;
    ghost var linked := All(table.rings);
    q.Push(r);
  }

  method ShiftFrom(q: WriteQueue, ghost table: RingTable, ghost qs: set<WriteQueue>, ghost held: map<WriteQueue, seq<Request>>)
    returns (r: Request)
    requires table.Valid() && Mirror(qs, held) && q in qs && held[q] != []
    modifies q`currQueue, q`nextQueue, q`currPos
    ensures table.Valid() && Mirror(qs, held[q := held[q][1..]]) && r == held[q][0]
  {
    hide RingTable.Valid;
    ghost var linked := All(table.rings);
    r := q.Shift();
  }

  method ServeRing(table: RingTable, c: nat, w: Windows, ghost qs: set<WriteQueue>, ghost held: map<WriteQueue, seq<Request>>)
    returns (r: Option<Request>, q: WriteQueue, ghost k: nat)
    requires table.Valid() && c < |table.rings| && table.rings[c] != [] && Members(table.rings[c]) <= qs
    requires Mirror(qs, held)
    requires forall x :: x in table.rings[c] ==> AllCovered(held[x], w.State())
    modifies qs`currQueue, qs`nextQueue, qs`currPos, w`conn, w`stream
    ensures table.Valid()
    ensures k == FirstReady(held, old(w.State()), table.rings[c], 0)
    ensures k == |table.rings[c]| <==> r.None?
    ensures r.None? ==> w.State() == old(w.State()) && Mirror(qs, held)
    ensures k < |table.rings[c]| ==>
              && q == table.rings[c][k] && r == TakeFrom(old(w.State()), held[q], NO_LIMIT).1
              && w.State() == Spend(old(w.State()), r.value)
              && Mirror(qs, held[q := TakeFrom(old(w.State()), held[q], NO_LIMIT).0])
  {
    hide RingTable.Valid, IsRing, Mirror, AllCovered, Spend, TakeFrom, FirstReady, Windows.State;
    ghost var linked := All(table.rings);
    HeadIs(table, c);
    r, q, k := ServeFirst(table.heads[c], table.rings[c], w, qs, held);
  }

  lemma MirrorAt(qs: set<WriteQueue>, held: map<WriteQueue, seq<Request>>, q: WriteQueue)
    requires Mirror(qs, held) && q in qs
    ensures q.Valid() && q in held && q.Contents() == held[q]
  {
  }

  lemma MirrorEmptied(qs: set<WriteQueue>, held: map<WriteQueue, seq<Request>>, q: WriteQueue)
    requires Mirror(qs, held) && q.Valid() && q.Contents() == []
    ensures Mirror(qs + {q}, held[q := []])
  {
  }

  lemma HeadIs(table: RingTable, c: nat)
    requires table.Valid() && c < |table.rings|
    ensures table.heads.Length == |table.rings|
    ensures table.heads[c] == if table.rings[c] == [] then null else table.rings[c][0]
    ensures IsRing(table.rings[c])
  {
  }
}
