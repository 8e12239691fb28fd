/**
 * The write scheduler for RFC 7540 priorities: what becomes of its tree as streams open, close
 * and are reprioritised, and in which order it is searched.
 */
module Rfc7540 {
  import opened Sequences
  import opened TreeShapes
  import opened PriorityTree

  const DEFAULT_WEIGHT: nat := 15

  // A shape with another node, not yet in the tree.
  function Grown(s: Shape<Node>, n: Node): Shape<Node> {
    Shape(s.kids[n := []], s.parent)
  }

  // n taken out of the tree: its children go to its parent.
  ghost function Spliced(s: Shape<Node>, n: Node): Shape<Node> {
    Detached(if n in s.parent && n in s.kids then Gathered(s, s.kids[n], s.parent[n]) else s, n)
  }

  // The tree contains the root and all known nodes. Nodes out of the tree have no children.
  ghost predicate TreeOk(s: Shape<Node>, root: Node, nodes: map<nat, Node>, maxID: nat) {
    && Ok(s) && root in s.kids && Rooted(s.parent, root)
    && (forall n :: n in s.kids && n != root && n !in s.parent ==> s.kids[n] == [])
    && (forall n :: n in s.kids ==> n.id <= maxID && (n.id == 0 <==> n == root))
    && 0 in nodes && nodes[0] == root
    && forall id :: id in nodes ==> nodes[id].id == id && (nodes[id] == root || nodes[id] in s.parent)
  }

  ghost predicate ListedOk(s: Shape<Node>, root: Node, list: seq<Node>, max: nat) {
    |list| <= max && forall n :: n in list ==> n in s.kids && n != root
  }

  // ---------------------------------------------------------------- the tree is kept

  // The root alone.
  function Start(root: Node): Shape<Node> {
    var kids: map<Node, seq<Node>> := map[root := []];
    Shape<Node>.Shape(kids, map[])
  }

  lemma StartOk(root: Node)
    requires root.id == 0
    ensures TreeOk(Start(root), root, map[0 := root], 0)
  {
  }

  lemma GrownOk(s: Shape<Node>, n: Node)
    requires Ok(s) && n !in s.kids
    ensures Ok(Grown(s, n))
  {
    assert forall p, i :: p in s.kids && 0 <= i < |s.kids[p]| ==> s.kids[p][i] in s.parent;
  }

  // A new node, under q.
  lemma NewNodeOk(s: Shape<Node>, root: Node, nodes: map<nat, Node>, maxID: nat, n: Node, q: Node, maxID': nat)
    requires TreeOk(s, root, nodes, maxID) && n !in s.kids && (q == root || q in s.parent)
    requires n.id != 0 && n.id <= maxID' && maxID <= maxID'
    ensures TreeOk(Moved(Grown(s, n), n, q), root, nodes[n.id := n], maxID')
    ensures Moved(Grown(s, n), n, q).parent == s.parent[n := q]
  {
    hide Ok, Moved, Rooted;
    GrownOk(s, n);
    Outside(s, n);
    var t := Grown(s, n);
    if q in s.parent {
      InKids(s, q);
    }
    MovedOk(t, n, q);
    LeafRooted(s.parent, root, n, q);
    EmptyKids(t, n, q);
  }

  lemma Outside(s: Shape<Node>, n: Node)
    requires Ok(s) && n !in s.kids
    ensures n !in s.parent
    ensures forall x :: x in s.parent ==> s.parent[x] != n
  {
  }

  // Only the lists of the old and the new parent change.
  lemma EmptyKids(s: Shape<Node>, n: Node, q: Node)
    ensures forall x :: x in s.kids && x != q && (n in s.parent ==> x != s.parent[n]) ==>
              x in Moved(s, n, q).kids && Moved(s, n, q).kids[x] == s.kids[x]
  {
    hide Without;
  }

  // A known node moved under the root.
  lemma ToRootOk(s: Shape<Node>, root: Node, nodes: map<nat, Node>, maxID: nat, n: Node)
    requires TreeOk(s, root, nodes, maxID) && n in s.parent
    ensures TreeOk(Moved(s, n, root), root, nodes, maxID)
  {
    hide Ok, Moved, Rooted;
    InKids(s, n);
    MovedOk(s, n, root);
    RaisedRooted(s.parent, root, n, root);
    var r := Moved(s, n, root);
    ParentsInside(r.parent, root);
    StillEmpty(r, root);
  }

  // The parents in a tree are in the tree, so that nodes out of it have no children.
  lemma StillEmpty(r: Shape<Node>, root: Node)
    requires Ok(r) && Rooted(r.parent, root) && root in r.kids
    requires forall x :: x in r.parent ==> r.parent[x] == root || r.parent[x] in r.parent
    ensures forall n :: n in r.kids && n != root && n !in r.parent ==> r.kids[n] == []
  {
    forall n | n in r.kids && n != root && n !in r.parent
      ensures r.kids[n] == []
    {
      KidsOf(r, n);
      if r.kids[n] != [] {
        OneOf(r, n);
      }
    }
  }

  lemma OneOf(r: Shape<Node>, n: Node)
    requires Ok(r) && n in r.kids && r.kids[n] != []
    ensures exists x :: x in r.parent && r.parent[x] == n
  {
    assert r.parent[r.kids[n][0]] == n;
  }

  lemma ParentsInside<T>(p: map<T, T>, root: T)
    requires Rooted(p, root)
    ensures forall x :: x in p ==> p[x] == root || p[x] in p
  {
    forall x | x in p
      ensures p[x] == root || p[x] in p
    {
      var k: nat :| At(p, root, x, k);
      assert At(p, root, p[x], k - 1);
    }
  }

  lemma ReprioritisedOk(s: Shape<Node>, root: Node, nodes: map<nat, Node>, maxID: nat, n: Node, d: Node, exclusive: bool)
    requires TreeOk(s, root, nodes, maxID) && n in s.parent && n != d && (d == root || d in s.parent)
    ensures TreeOk(Reprioritised(s, n, d, exclusive), root, nodes, maxID)
  {
    hide Ok, Reprioritised, Rooted;
    if d in s.parent {
      InKids(s, d);
    }
    ReprioritisedTree(s, root, n, d, exclusive);
    var r := Reprioritised(s, n, d, exclusive);
    ParentsInside(r.parent, root);
    StillEmpty(r, root);
  }

  lemma SplicedOk(s: Shape<Node>, root: Node, nodes: map<nat, Node>, maxID: nat, n: Node)
    requires TreeOk(s, root, nodes, maxID) && n in s.kids && n != root
    ensures TreeOk(Spliced(s, n), root, nodes - {n.id}, maxID)
    ensures Spliced(s, n).kids.Keys == s.kids.Keys && Spliced(s, n).parent.Keys == s.parent.Keys - {n}
    ensures forall x :: x in s.parent && x != n ==>
              Spliced(s, n).parent[x] == if s.parent[x] == n then s.parent[n] else s.parent[x]
  {
    hide Ok, Rooted, Gathered, Detached;
    var r := Spliced(s, n);
    if n in s.parent {
      InKids(s, n);
      KidsOf(s, n);
      var p := s.parent[n];
      GatheredParents(s, s.kids[n], p);
      var g := Gathered(s, s.kids[n], p);
      DetachedOk(g, n);
      NotBothOf(s.parent, root, n);
      RemovedRooted(s.parent, root, n, r.parent);
      ParentsInside(r.parent, root);
      StillEmpty(r, root);
    } else {
      DetachedOk(s, n);
      NotThere(s, n);
      KidsOf(s, n);
    }
  }

  lemma NotThere(s: Shape<Node>, n: Node)
    requires n !in s.parent
    ensures Detached(s, n) == s
  {
  }

  // No node is the child of its own child.
  lemma NotBothOf(p: map<Node, Node>, root: Node, n: Node)
    requires Rooted(p, root) && n in p
    ensures forall x :: x in p && p[x] == n ==> x != p[n] && x != n
  {
    forall x | x in p && p[x] == n
      ensures x != p[n] && x != n
    {
      NotBoth(p, root, x, n);
      AboveStep(p, x, n);
    }
  }
}
