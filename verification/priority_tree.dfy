/** The nodes of the priority tree, with links to parents, first children and siblings. */
module PriorityTree {
  import opened Sequences
  import opened TreeShapes

  class Node {
    const id: nat
    var weight: nat
    var state: NodeState
    var bytes: int
    var subtreeBytes: int
    var parent: Node?
    var kids: Node?
    var prev: Node?
    var next: Node?

    constructor (id: nat, weight: nat, state: NodeState)
      ensures this.id == id && this.weight == weight && this.state == state
      ensures parent == null && kids == null && prev == null && next == null
    {
      this.id, this.weight, this.state := id, weight, state;
      bytes, subtreeBytes := 0, 0;
      parent, kids, prev, next := null, null, null, null;
    }
  }

  datatype NodeState = Open | Closed | Idle

  ghost function Members(s: seq<Node>): set<Node> {
    set n | n in s
  }

  // The list of the children of p is ks.
  ghost predicate ListOk(p: Node, ks: seq<Node>)
    reads p`kids, Members(ks)`parent, Members(ks)`prev, Members(ks)`next
  {
    && p.kids == (if ks == [] then null else ks[0])
    && (forall i {:trigger ks[i].parent} :: 0 <= i < |ks| ==> ks[i].parent == p)
    && (forall i {:trigger ks[i].prev} :: 0 <= i < |ks| ==> ks[i].prev == if i == 0 then null else ks[i - 1])
    && (forall i {:trigger ks[i].next} :: 0 <= i < |ks| ==> ks[i].next == if i + 1 == |ks| then null else ks[i + 1])
  }

  ghost predicate Loose(n: Node)
    reads n`parent, n`prev, n`next
  {
    n.parent == null && n.prev == null && n.next == null
  }

  // The links are those of shape s.
  ghost predicate Linked(s: Shape<Node>)
    reads s.kids.Keys`kids, s.kids.Keys`parent, s.kids.Keys`prev, s.kids.Keys`next
  {
    && Ok(s)
    && (forall p :: p in s.kids.Keys ==> Members(s.kids[p]) <= s.kids.Keys && ListOk(p, s.kids[p]))
    && (forall n :: n in s.kids.Keys && n !in s.parent ==> Loose(n))
  }

  // Take n, at position k, out of the list of p, and clear its own links.
  method Unlink(p: Node, ghost ks: seq<Node>, ghost k: nat, n: Node)
    requires ListOk(p, ks) && Distinct(ks) && k < |ks| && ks[k] == n
    modifies p`kids, n`parent, Members(ks)`prev, Members(ks)`next
    ensures ListOk(p, Remove(ks, k)) && Loose(n)
  {
    ghost var r := Remove(ks, k);
    assert n.prev == (if k == 0 then null else ks[k - 1]) && n.next == (if k + 1 == |ks| then null else ks[k + 1]);
    if n.prev == null {
      p.kids := n.next;
    } else {
      n.prev.next := n.next;
    }
    if n.next != null {
      n.next.prev := n.prev;
    }
    n.parent, n.prev, n.next := null, null, null;
    forall i | 0 <= i < |r|
      ensures r[i].parent == p
      ensures r[i].prev == if i == 0 then null else r[i - 1]
      ensures r[i].next == if i + 1 == |r| then null else r[i + 1]
    {
      var j := if i < k then i else i + 1;
      assert r[i] == ks[j];
      assert ks[j].prev == old(ks[j].prev) || j == k + 1;
      assert ks[j].next == old(ks[j].next) || j + 1 == k;
    }
  }

  // Put n in front of the list of p.
  method LinkFirst(p: Node, ghost ks: seq<Node>, n: Node)
    requires ListOk(p, ks) && n !in ks && Distinct(ks)
    modifies p`kids, n`parent, n`prev, n`next, Members(ks)`prev
    ensures ListOk(p, [n] + ks)
  {
    ghost var r := [n] + ks;
    n.parent := p;
    n.next := p.kids;
    n.prev := null;
    if n.next != null {
      n.next.prev := n;
    }
    p.kids := n;
    forall i | 0 <= i < |r|
      ensures r[i].parent == p
      ensures r[i].prev == if i == 0 then null else r[i - 1]
      ensures r[i].next == if i + 1 == |r| then null else r[i + 1]
    {
      if i > 0 {
        assert r[i] == ks[i - 1];
        assert ks[i - 1].parent == old(ks[i - 1].parent);
        assert ks[i - 1].next == old(ks[i - 1].next);
        assert i > 1 ==> ks[i - 1].prev == old(ks[i - 1].prev);
      }
    }
  }

  // setParent, for a parent or none.
  method SetParent(n: Node, parent: Node?, ghost s: Shape<Node>)
    requires Linked(s) && n in s.kids && n != parent && (parent != null ==> parent in s.kids)
    modifies s.kids.Keys`kids, s.kids.Keys`parent, s.kids.Keys`prev, s.kids.Keys`next
    ensures Linked(if parent == null then Detached(s, n) else Moved(s, n, parent))
  {
    if n.parent == parent {
      return;
    }
    Detach(n, s);
    if parent != null {
      Attach(n, parent, Detached(s, n));
    }
  }

  method Detach(n: Node, ghost s: Shape<Node>)
    requires Linked(s) && n in s.kids
    modifies s.kids.Keys`kids, s.kids.Keys`parent, s.kids.Keys`prev, s.kids.Keys`next
    ensures Linked(Detached(s, n))
  {
    hide Linked, ListOk, Loose, Members, Ok, Detached, Without;
    LinksOf(s, n);
    var p := n.parent;
    if p != null {
      OthersApart(s, p, n);
      Unlink(p, s.kids[p], IndexOf(s.kids[p], n), n);
      DetachedLinked(s, p, n);
    }
  }

  lemma LinksOf(s: Shape<Node>, n: Node)
    requires Linked(s) && n in s.kids
    ensures Ok(s) && n.parent == (if n in s.parent then s.parent[n] else null)
    ensures n !in s.parent ==> Loose(n) && Detached(s, n) == s
    ensures n in s.parent ==>
              && s.parent[n] in s.kids && n in s.kids[s.parent[n]] && ListOk(s.parent[n], s.kids[s.parent[n]])
              && Distinct(s.kids[s.parent[n]]) && Members(s.kids[s.parent[n]]) <= s.kids.Keys
  {
    if n in s.parent {
      var p := s.parent[n];
      assert s.kids[p][IndexOf(s.kids[p], n)].parent == p;
    }
  }

  // The other lists are not touched by changes at p, its children and n.
  lemma OthersApart(s: Shape<Node>, p: Node, n: Node)
    requires Linked(s) && p in s.kids && n in s.kids && (n in s.parent ==> s.parent[n] == p)
    ensures forall q :: q in s.kids.Keys && q != p ==>
              Members(s.kids[q]) !! Members(s.kids[p]) + {n} && Members(s.kids[q]) <= s.kids.Keys && ListOk(q, s.kids[q])
    ensures forall x :: x in s.kids.Keys && x !in s.parent && x != n ==> x !in Members(s.kids[p]) && Loose(x)
  {
    hide Ok, ListOk, Loose;
    KidsOf(s, p);
    forall q | q in s.kids.Keys && q != p
      ensures Members(s.kids[q]) !! Members(s.kids[p]) + {n}
    {
      KidsOf(s, q);
    }
  }

  lemma DetachedLinked(s: Shape<Node>, p: Node, n: Node)
    requires Ok(s) && n in s.parent && s.parent[n] == p && p in s.kids && n in s.kids[p]
    requires forall q :: q in s.kids.Keys && q != p ==> Members(s.kids[q]) <= s.kids.Keys && ListOk(q, s.kids[q])
    requires forall x :: x in s.kids.Keys && x !in s.parent && x != n ==> Loose(x)
    requires Members(s.kids[p]) <= s.kids.Keys && Loose(n) && ListOk(p, Remove(s.kids[p], IndexOf(s.kids[p], n)))
    ensures Linked(Detached(s, n))
  {
    hide Ok, ListOk, Loose, Distinct;
    DetachedOk(s, n);
    NoDupOf(s, p);
    WithoutMembers(s.kids[p], n);
    assert forall x :: x in s.kids[p] ==> x in Members(s.kids[p]);
  }

  lemma NoDupOf(s: Shape<Node>, p: Node)
    requires Ok(s) && p in s.kids
    ensures Distinct(s.kids[p])
  {
  }

  method Attach(n: Node, parent: Node, ghost s: Shape<Node>)
    requires Linked(s) && n in s.kids && n !in s.parent && n != parent && parent in s.kids
    modifies s.kids.Keys`kids, s.kids.Keys`parent, s.kids.Keys`prev, s.kids.Keys`next
    ensures Linked(Moved(s, n, parent))
  {
    hide Linked, ListOk, Loose, Members, Ok, Moved;
    ListOf(s, parent);
    KidsOf(s, parent);
    OthersApart(s, parent, n);
    LinkFirst(parent, s.kids[parent], n);
    AttachedLinked(s, parent, n);
  }

  lemma ListOf(s: Shape<Node>, p: Node)
    requires Linked(s) && p in s.kids
    ensures Ok(s) && ListOk(p, s.kids[p]) && Distinct(s.kids[p]) && Members(s.kids[p]) <= s.kids.Keys
  {
  }

  lemma AttachedLinked(s: Shape<Node>, p: Node, n: Node)
    requires Ok(s) && n in s.kids && n !in s.parent && p in s.kids
    requires forall q :: q in s.kids.Keys && q != p ==> Members(s.kids[q]) <= s.kids.Keys && ListOk(q, s.kids[q])
    requires forall x :: x in s.kids.Keys && x !in s.parent && x != n ==> Loose(x)
    requires Members(s.kids[p]) <= s.kids.Keys && ListOk(p, [n] + s.kids[p])
    ensures Linked(Moved(s, n, p))
  {
    hide Ok, ListOk, Loose;
    MovedOk(s, n, p);
    assert Members([n] + s.kids[p]) == Members(s.kids[p]) + {n};
  }
}
