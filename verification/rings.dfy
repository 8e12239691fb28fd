/** Circular doubly linked lists of write queues, and the sequences they stand for. */
module Rings {
  import opened Sequences
  import opened WriteQueues

  function Succ(k: nat, n: nat): nat
    requires k < n
  {
    if k + 1 == n then 0 else k + 1
  }

  function Pred(k: nat, n: nat): nat
    requires k < n
  {
    if k == 0 then n - 1 else k - 1
  }

  ghost function Members(s: seq<WriteQueue>): set<WriteQueue> {
    set q | q in s
  }

  // Following next from s[0] goes through s and back; prev the other way round.
  ghost predicate IsRing(s: seq<WriteQueue>)
    reads Members(s)`next, Members(s)`prev
  {
    && Distinct(s)
    && (forall k {:trigger s[k].next} :: 0 <= k < |s| ==> s[k].next == s[Succ(k, |s|)])
    && (forall k {:trigger s[k].prev} :: 0 <= k < |s| ==> s[k].prev == s[Pred(k, |s|)])
  }

  function Rotate<T>(s: seq<T>, k: nat): (r: seq<T>)
    requires k <= |s|
    ensures |r| == |s|
  {
    s[k..] + s[..k]
  }

  // The same ring, entered elsewhere.
  lemma RotateRing(s: seq<WriteQueue>, k: nat)
    requires IsRing(s) && k <= |s|
    ensures IsRing(Rotate(s, k)) && Members(Rotate(s, k)) == Members(s)
  {
    var r := Rotate(s, k);
    assert forall i :: 0 <= i < |s| - k ==> r[i] == s[i + k];
    assert forall i :: |s| - k <= i < |s| ==> r[i] == s[i + k - |s|];
    forall q
      ensures q in r <==> q in s
    {
      if q in s {
        var i :| 0 <= i < |s| && s[i] == q;
        assert q == r[if i >= k then i - k else i - k + |s|];
      }
    }
    forall i | 0 <= i < |r|
      ensures r[i].next == r[Succ(i, |r|)] && r[i].prev == r[Pred(i, |r|)]
    {
      var j := if i < |s| - k then i + k else i + k - |s|;
      assert r[i] == s[j];
      assert r[Succ(i, |r|)] == s[Succ(j, |s|)];
      assert r[Pred(i, |r|)] == s[Pred(j, |s|)];
    }
  }

  method LinkAlone(q: WriteQueue)
    modifies q`next, q`prev
    ensures IsRing([q])
  {
    q.next := q;
    q.prev := q;
  }

  // Insert q before the head, at the end of the ring.
  method LinkLast(ghost s: seq<WriteQueue>, head: WriteQueue, q: WriteQueue)
    requires IsRing(s) && s != [] && s[0] == head && q !in s
    modifies Members(s)`next, Members(s)`prev, q`next, q`prev
    ensures IsRing(s + [q])
  {
    ghost var n := |s|;
    assert head.prev == s[n - 1];
    q.prev := head.prev;
    q.next := head;
    q.prev.next := q;
    q.next.prev := q;
    ghost var r := s + [q];
    forall k | 0 <= k < |r|
      ensures r[k].next == r[Succ(k, |r|)] && r[k].prev == r[Pred(k, |r|)]
    {
      if k < n {
        assert old(s[k].next) == s[Succ(k, n)] && old(s[k].prev) == s[Pred(k, n)];
        assert s[k] != q;
        assert k != n - 1 ==> s[k] != s[n - 1];
        assert k != 0 ==> s[k] != s[0];
      }
    }
  }

  // Take q, at position k, out of a ring that has other members.
  method Unlink(ghost s: seq<WriteQueue>, ghost k: nat, q: WriteQueue)
    requires IsRing(s) && k < |s| && s[k] == q && |s| >= 2
    modifies Members(s)`next, Members(s)`prev
    ensures IsRing(Remove(s, k)) && q.next == s[Succ(k, |s|)]
  {
    hide Distinct, Remove;
    ghost var n := |s|;
    ghost var before, after := Pred(k, n), Succ(k, n);
    DistinctAt(s);
    assert q.next == s[after] && q.prev == s[before];
    q.prev.next := q.next;
    q.next.prev := q.prev;
    assert s[before].next == s[after] && s[after].prev == s[before];
    assert forall j {:trigger s[j].next} :: 0 <= j < n && j != before ==> s[j].next == old(s[j].next) == s[Succ(j, n)];
    assert forall j {:trigger s[j].prev} :: 0 <= j < n && j != after ==> s[j].prev == old(s[j].prev) == s[Pred(j, n)];
    Skipped(s, k);
  }

  lemma DistinctAt(s: seq<WriteQueue>)
    requires Distinct(s)
    ensures forall i, j :: 0 <= i < |s| && 0 <= j < |s| && i != j ==> s[i] != s[j]
  {
  }

  // A ring whose links lead past position k.
  lemma Skipped(s: seq<WriteQueue>, k: nat)
    requires Distinct(s) && k < |s| && |s| >= 2
    requires s[Pred(k, |s|)].next == s[Succ(k, |s|)] && s[Succ(k, |s|)].prev == s[Pred(k, |s|)]
    requires forall j {:trigger s[j].next} :: 0 <= j < |s| && j != Pred(k, |s|) ==> s[j].next == s[Succ(j, |s|)]
    requires forall j {:trigger s[j].prev} :: 0 <= j < |s| && j != Succ(k, |s|) ==> s[j].prev == s[Pred(j, |s|)]
    ensures IsRing(Remove(s, k))
  {
    hide Distinct;
    var r := Remove(s, k);
    RemoveDistinct(s, k);
    forall i | 0 <= i < |r|
      ensures r[i].next == r[Succ(i, |r|)] && r[i].prev == r[Pred(i, |r|)]
    {
      var j := if i < k then i else i + 1;
      assert r[i] == s[j];
      if j == Pred(k, |s|) {
        assert s[Succ(k, |s|)] == r[Succ(i, |r|)];
      } else {
        assert s[Succ(j, |s|)] == r[Succ(i, |r|)];
      }
      if j == Succ(k, |s|) {
        assert s[Pred(k, |s|)] == r[Pred(i, |r|)];
      } else {
        assert s[Pred(j, |s|)] == r[Pred(i, |r|)];
      }
    }
  }

  lemma RemoveDistinct(s: seq<WriteQueue>, k: nat)
    requires Distinct(s) && k < |s|
    ensures Distinct(Remove(s, k)) && Members(Remove(s, k)) == Members(s) - {s[k]}
  {
    var r := Remove(s, k);
    assert forall i :: 0 <= i < k ==> r[i] == s[i];
    assert forall i :: k <= i < |r| ==> r[i] == s[i + 1];
    forall q
      ensures q in r <==> q in s && q != s[k]
    {
      if q in s && q != s[k] {
        var i :| 0 <= i < |s| && s[i] == q;
        assert q == r[if i < k then i else i - 1];
      }
    }
  }
}
