/** A row of rings of write queues, each known by its head. */
module RingTables {
  import opened Sequences
  import opened WriteQueues
  import opened Rings

  // No queue occurs in two rings.
  ghost predicate Apart(rings: seq<seq<WriteQueue>>) {
    forall c, d, q :: 0 <= c < |rings| && 0 <= d < |rings| && q in rings[c] && q in rings[d] ==> c == d
  }

  ghost predicate InSome(rings: seq<seq<WriteQueue>>, q: WriteQueue) {
    exists c :: 0 <= c < |rings| && q in rings[c]
  }

  ghost function All(rings: seq<seq<WriteQueue>>): (s: set<WriteQueue>) {
    set c, j | 0 <= c < |rings| && 0 <= j < |rings[c]| :: rings[c][j]
  }

  lemma AllAreSome(rings: seq<seq<WriteQueue>>)
    ensures forall q :: q in All(rings) <==> InSome(rings, q)
  {
    forall q | InSome(rings, q)
      ensures q in All(rings)
    {
      var c :| 0 <= c < |rings| && q in rings[c];
      var j :| 0 <= j < |rings[c]| && rings[c][j] == q;
    }
  }

  class RingTable {
    // The head of each ring, or null; rings[c] lists ring c from its head on.
    const heads: array<WriteQueue?>
    ghost var rings: seq<seq<WriteQueue>>

    ghost predicate HeadsMatch()
      reads this, heads
    {
      && heads.Length == |rings|
      && forall c :: 0 <= c < |rings| ==> heads[c] == if rings[c] == [] then null else rings[c][0]
    }

    ghost predicate Linked()
      reads this, All(rings)`next, All(rings)`prev
    {
      forall c :: 0 <= c < |rings| ==> Members(rings[c]) <= All(rings) && IsRing(rings[c])
    }

    ghost predicate Valid()
      reads this, heads, All(rings)`next, All(rings)`prev
    {
      HeadsMatch() && Apart(rings) && Linked()
    }

    constructor (n: nat)
      ensures Valid() && fresh(heads) && rings == seq(n, i => [])
    {
      heads := new WriteQueue?[n](i => null);
      rings := seq(n, i => []);
    }

    // Put q at the end of ring c.
    method Insert(c: nat, q: WriteQueue)
      requires Valid() && c < |rings| && !InSome(rings, q)
      modifies this, heads, All(rings)`next, All(rings)`prev, q`next, q`prev
      ensures Valid() && rings == old(rings)[c := old(rings)[c] + [q]]
    {
      hide Apart, All, IsRing, Distinct;
      ghost var ring := rings[c];
      OthersApart(rings, c, q);
      if heads[c] == null {
        LinkAlone(q);
        heads[c] := q;
      } else {
        LinkLast(ring, heads[c], q);
      }
      assert ring == [] ==> ring + [q] == [q];
      rings := rings[c := ring + [q]];
      AddedApart(old(rings), c, q);
    }

    // Take q, at position k, out of ring c. If it was the head, the next one becomes the head.
    method Delete(c: nat, ghost k: nat, q: WriteQueue)
      requires Valid() && c < |rings| && k < |rings[c]| && rings[c][k] == q
      modifies this, heads, All(rings)`next, All(rings)`prev
      ensures Valid() && rings == old(rings)[c := Remove(old(rings)[c], k)]
      ensures All(rings) == old(All(rings)) - {q}
    {
      hide Apart, All, IsRing, Distinct, Remove;
      ghost var ring := rings[c];
      OthersApart(rings, c, q);
      NextIsSelf(ring, k);
      RingDistinct(ring);
      if q.next == q {
        heads[c] := null;
      } else {
        HeadIsFirst(ring, k);
        Unlink(ring, k, q);
        if heads[c] == q {
          heads[c] := q.next;
        }
      }
      rings := rings[c := Remove(ring, k)];
      RemovedApart(old(rings), c, k);
      assert ring[k] == q;
      EmptyRing();
    }

    // Make position k of ring c its head.
    method SetHead(c: nat, ghost k: nat, q: WriteQueue)
      requires Valid() && c < |rings| && k < |rings[c]| && rings[c][k] == q
      modifies this, heads
      ensures Valid() && rings == old(rings)[c := Rotate(old(rings)[c], k)]
      ensures All(rings) == old(All(rings))
    {
      hide Apart, IsRing;
      ghost var ring := rings[c];
      heads[c] := q;
      RotateRing(ring, k);
      rings := rings[c := Rotate(ring, k)];
      RotatedApart(old(rings), c, k);
      SameAll(old(rings), rings, c);
    }
  }

  lemma RingDistinct(ring: seq<WriteQueue>)
    requires IsRing(ring)
    ensures Distinct(ring)
  {
  }

  lemma EmptyRing()
    ensures IsRing([])
  {
  }

  lemma NextIsSelf(ring: seq<WriteQueue>, k: nat)
    requires IsRing(ring) && k < |ring|
    ensures ring[k].next == ring[k] <==> |ring| == 1
  {
    assert ring[k].next == ring[Succ(k, |ring|)];
  }

  lemma HeadIsFirst(ring: seq<WriteQueue>, k: nat)
    requires IsRing(ring) && k < |ring| && |ring| >= 2
    ensures ring[0] == ring[k] <==> k == 0
    ensures Remove(ring, k)[0] == if k == 0 then ring[Succ(k, |ring|)] else ring[0]
  {
  }

  // The rings other than c do not share queues with ring c, or with a queue of it or of none.
  lemma OthersApart(rings: seq<seq<WriteQueue>>, c: nat, q: WriteQueue)
    requires Apart(rings) && c < |rings| && (InSome(rings, q) ==> q in rings[c])
    ensures forall d :: 0 <= d < |rings| && d != c ==> Members(rings[d]) !! Members(rings[c]) + {q}
    ensures q !in rings[c] ==> !InSome(rings, q)
  {
    forall d, x | 0 <= d < |rings| && d != c && x in rings[d]
      ensures x !in rings[c] && x != q
    {
      assert InSome(rings, x);
    }
  }

  lemma AddedApart(rings: seq<seq<WriteQueue>>, c: nat, q: WriteQueue)
    requires Apart(rings) && c < |rings| && !InSome(rings, q)
    ensures var r := rings[c := rings[c] + [q]];
            Apart(r) && All(r) == All(rings) + {q}
            && forall d :: 0 <= d < |r| ==> Members(r[d]) <= All(r)
  {
    var r := rings[c := rings[c] + [q]];
    AllAreSome(rings);
    AllAreSome(r);
    forall x
      ensures InSome(r, x) <==> InSome(rings, x) || x == q
    {
      if InSome(rings, x) {
        var d :| 0 <= d < |rings| && x in rings[d];
        assert x in r[d];
      }
      assert q in r[c];
    }
    forall d, d', x | 0 <= d < |r| && 0 <= d' < |r| && x in r[d] && x in r[d']
      ensures d == d'
    {
      if x == q {
        assert !InSome(rings, x);
      } else {
        assert x in rings[d] && x in rings[d'];
      }
    }
    Covered(r);
  }

  lemma Covered(rings: seq<seq<WriteQueue>>)
    ensures forall d :: 0 <= d < |rings| ==> Members(rings[d]) <= All(rings)
  {
    AllAreSome(rings);
    forall d, x | 0 <= d < |rings| && x in rings[d]
      ensures x in All(rings)
    {
      assert InSome(rings, x);
    }
  }

  lemma RemovedApart(rings: seq<seq<WriteQueue>>, c: nat, k: nat)
    requires Apart(rings) && c < |rings| && k < |rings[c]| && Distinct(rings[c])
    ensures var r := rings[c := Remove(rings[c], k)];
            Apart(r) && All(r) == All(rings) - {rings[c][k]}
            && forall d :: 0 <= d < |r| ==> Members(r[d]) <= All(r)
  {
    var r := rings[c := Remove(rings[c], k)];
    var q := rings[c][k];
    AllAreSome(rings);
    AllAreSome(r);
    RemoveDistinct(rings[c], k);
    assert forall x :: x in r[c] <==> x in Members(r[c]);
    forall x
      ensures InSome(r, x) <==> InSome(rings, x) && x != q
    {
      if InSome(rings, x) && x != q {
        var d :| 0 <= d < |rings| && x in rings[d];
        assert d == c ==> x in Members(rings[c]);
        assert x in r[d];
      }
      if InSome(r, x) {
        var d :| 0 <= d < |r| && x in r[d];
        assert x in rings[d];
        assert q in rings[c];
      }
    }
    forall d, d', x | 0 <= d < |r| && 0 <= d' < |r| && x in r[d] && x in r[d']
      ensures d == d'
    {
      assert x in rings[d] && x in rings[d'];
    }
    Covered(r);
  }

  lemma RotatedApart(rings: seq<seq<WriteQueue>>, c: nat, k: nat)
    requires Apart(rings) && c < |rings| && k <= |rings[c]|
    ensures var r := rings[c := Rotate(rings[c], k)];
            Apart(r) && forall d :: 0 <= d < |r| ==> Members(r[d]) <= All(r)
  {
    var r := rings[c := Rotate(rings[c], k)];
    forall d, d', x | 0 <= d < |r| && 0 <= d' < |r| && x in r[d] && x in r[d']
      ensures d == d'
    {
      assert x in rings[d] && x in rings[d'];
    }
    Covered(r);
  }

  lemma SameAll(rings: seq<seq<WriteQueue>>, rings': seq<seq<WriteQueue>>, c: nat)
    requires c < |rings| == |rings'| && rings' == rings[c := rings'[c]]
    requires Members(rings'[c]) == Members(rings[c])
    ensures All(rings') == All(rings)
  {
    AllAreSome(rings);
    AllAreSome(rings');
    assert forall x :: x in rings'[c] <==> x in Members(rings'[c]);
    assert forall x :: x in rings[c] <==> x in Members(rings[c]);
    forall x
      ensures InSome(rings', x) <==> InSome(rings, x)
    {
      if InSome(rings, x) {
        var d :| 0 <= d < |rings| && x in rings[d];
        assert x in rings'[d];
      }
      if InSome(rings', x) {
        var d :| 0 <= d < |rings'| && x in rings'[d];
        assert x in rings[d];
      }
    }
  }
}
