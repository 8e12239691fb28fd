/**
 * Trees as values: which node is whose parent, and each node's children in order. Moving
 * subtrees about, and when the result is still a tree.
 */
module TreeShapes {
  import opened Sequences

  datatype Shape<T> = Shape(kids: map<T, seq<T>>, parent: map<T, T>)

  // The lists of children and the parents say the same.
  ghost predicate Ok<T>(s: Shape<T>) {
    && (forall x :: x in s.parent ==> x in s.kids && s.parent[x] in s.kids && x in s.kids[s.parent[x]])
    && (forall p :: p in s.kids ==> Distinct(s.kids[p]))
    && (forall p, i :: p in s.kids && 0 <= i < |s.kids[p]| ==> s.kids[p][i] in s.parent && s.parent[s.kids[p][i]] == p)
  }

  // ---------------------------------------------------------------- moving a node

  function Detached<T(==)>(s: Shape<T>, n: T): Shape<T> {
    if n !in s.parent then s
    else
      var p := s.parent[n];
      Shape(if p in s.kids then s.kids[p := Without(s.kids[p], n)] else s.kids, s.parent - {n})
  }

  // Nothing changes if p is the parent already; otherwise n becomes its first child.
  function Moved<T(==)>(s: Shape<T>, n: T, p: T): Shape<T> {
    if n in s.parent && s.parent[n] == p then s
    else
      var t := Detached(s, n);
      Shape(t.kids[p := [n] + if p in t.kids then t.kids[p] else []], t.parent[n := p])
  }

  lemma DetachedOk<T>(s: Shape<T>, n: T)
    requires Ok(s)
    ensures Ok(Detached(s, n)) && Detached(s, n).kids.Keys == s.kids.Keys
    ensures Detached(s, n).parent == s.parent - {n}
  {
    hide Distinct, Without;
    if n in s.parent {
      var p := s.parent[n];
      WithoutMembers(s.kids[p], n);
      KidsOf(s, p);
      var t := Detached(s, n);
      forall q, i | q in t.kids && 0 <= i < |t.kids[q]|
        ensures t.kids[q][i] in t.parent && t.parent[t.kids[q][i]] == q
      {
        if q == p {
          assert t.kids[q][i] in Without(s.kids[p], n);
        }
      }
      forall x | x in t.parent
        ensures x in t.kids[t.parent[x]]
      {
        if t.parent[x] == p {
          var i :| 0 <= i < |s.kids[p]| && s.kids[p][i] == x;
        }
      }
    }
  }

  lemma MovedOk<T>(s: Shape<T>, n: T, p: T)
    requires Ok(s) && n in s.kids && p in s.kids
    ensures Ok(Moved(s, n, p)) && Moved(s, n, p).kids.Keys == s.kids.Keys
    ensures Moved(s, n, p).parent == s.parent[n := p]
  {
    hide Detached;
    DetachedOk(s, n);
    var t := Detached(s, n);
    var r := Moved(s, n, p);
    if !(n in s.parent && s.parent[n] == p) {
      assert n !in t.kids[p];
      forall q, i | q in r.kids && 0 <= i < |r.kids[q]|
        ensures r.kids[q][i] in r.parent && r.parent[r.kids[q][i]] == q
      {
        if q == p && i > 0 {
          assert r.kids[q][i] == t.kids[q][i - 1];
        }
      }
      assert r.parent == s.parent[n := p];
    }
  }

  // ---------------------------------------------------------------- trees

  // x is k steps below the root.
  ghost predicate At<T>(p: map<T, T>, root: T, x: T, k: nat) {
    if k == 0 then x == root else x != root && x in p && At(p, root, p[x], k - 1)
  }

  // Every node reaches the root.
  ghost predicate Rooted<T>(p: map<T, T>, root: T) {
    root !in p && forall x :: x in p ==> exists k: nat :: At(p, root, x, k)
  }

  // a is j steps above x.
  ghost predicate AboveBy<T>(p: map<T, T>, a: T, x: T, j: nat) {
    x in p && j > 0 && if j == 1 then p[x] == a else AboveBy(p, a, p[x], j - 1)
  }

  ghost predicate Above<T>(p: map<T, T>, a: T, x: T) {
    exists j: nat :: AboveBy(p, a, x, j)
  }

  lemma {:induction false} AtUnique<T>(p: map<T, T>, root: T, x: T, k: nat, k': nat)
    requires At(p, root, x, k) && At(p, root, x, k')
    ensures k == k'
  {
    if k > 0 && k' > 0 {
      AtUnique(p, root, p[x], k - 1, k' - 1);
    }
  }

  lemma {:induction false} AboveAt<T>(p: map<T, T>, root: T, a: T, x: T, j: nat, k: nat)
    requires At(p, root, x, k) && AboveBy(p, a, x, j) && root !in p
    ensures j <= k && At(p, root, a, k - j)
  {
    if j > 1 {
      AboveAt(p, root, a, p[x], j - 1, k - 1);
    }
  }

  // In a tree nothing is above itself.
  lemma NotAboveItself<T>(p: map<T, T>, root: T, x: T)
    requires Rooted(p, root)
    ensures !Above(p, x, x)
  {
    if Above(p, x, x) {
      var j: nat :| AboveBy(p, x, x, j);
      var k: nat :| At(p, root, x, k);
      AboveAt(p, root, x, x, j, k);
      AtUnique(p, root, x, k, k - j);
    }
  }

  lemma AboveStep<T>(p: map<T, T>, a: T, x: T)
    requires x in p
    ensures Above(p, a, x) <==> p[x] == a || Above(p, a, p[x])
  {
    if p[x] == a {
      assert AboveBy(p, a, x, 1);
    }
    if Above(p, a, p[x]) {
      var j: nat :| AboveBy(p, a, p[x], j);
      assert AboveBy(p, a, x, j + 1);
    }
    if Above(p, a, x) && p[x] != a {
      var j: nat :| AboveBy(p, a, x, j);
      assert AboveBy(p, a, p[x], j - 1);
    }
  }

  // Parents that are nearer to the root by some measure make a tree.
  lemma {:induction false} Descending<T>(p: map<T, T>, root: T, rank: map<T, nat>, x: T)
    requires root !in p && x in p
    requires forall y :: y in p ==> y in rank && (p[y] == root || (p[y] in p && p[y] in rank && rank[p[y]] < rank[y]))
    ensures exists k: nat :: At(p, root, x, k)
    decreases rank[x]
  {
    if p[x] == root {
      assert At(p, root, root, 0);
      assert At(p, root, x, 1);
    } else {
      Descending(p, root, rank, p[x]);
      var k: nat :| At(p, root, p[x], k);
      assert At(p, root, x, k + 1);
    }
  }

  lemma DescendingRooted<T>(p: map<T, T>, root: T, rank: map<T, nat>)
    requires root !in p
    requires forall y :: y in p ==> y in rank && (p[y] == root || (p[y] in p && p[y] in rank && rank[p[y]] < rank[y]))
    ensures Rooted(p, root)
  {
    hide At;
    forall x | x in p
      ensures exists k: nat :: At(p, root, x, k)
    {
      Descending(p, root, rank, x);
    }
  }

  ghost function DepthOf<T>(p: map<T, T>, root: T, x: T): (k: nat)
    requires exists k: nat :: At(p, root, x, k)
    ensures At(p, root, x, k)
  {
    var k: nat :| At(p, root, x, k);
    k
  }

  // How far each node is from the root.
  ghost function Depths<T>(p: map<T, T>, root: T): (r: map<T, nat>)
    requires Rooted(p, root)
    ensures r.Keys == p.Keys
    ensures forall x :: x in p ==> At(p, root, x, r[x]) && r[x] > 0
    ensures forall x :: x in p && p[x] != root ==> p[x] in p && r[p[x]] < r[x]
  {
    hide At;
    DepthsFall(p, root);
    map x | x in p :: DepthOf(p, root, x)
  }

  lemma DepthsFall<T>(p: map<T, T>, root: T)
    requires Rooted(p, root)
    ensures forall x :: x in p ==> DepthOf(p, root, x) > 0
    ensures forall x :: x in p && p[x] != root ==> p[x] in p && DepthOf(p, root, p[x]) < DepthOf(p, root, x)
  {
    hide DepthOf;
    forall x | x in p && p[x] != root
      ensures p[x] in p && DepthOf(p, root, p[x]) < DepthOf(p, root, x)
    {
      var k := DepthOf(p, root, x);
      assert At(p, root, p[x], k - 1);
      AtUnique(p, root, p[x], k - 1, DepthOf(p, root, p[x]));
    }
  }

  // ---------------------------------------------------------------- simple changes to a tree

  lemma LeafRooted<T>(p: map<T, T>, root: T, n: T, q: T)
    requires Rooted(p, root) && n !in p && n != root && (q == root || q in p)
    requires forall x :: x in p ==> p[x] != n
    ensures Rooted(p[n := q], root)
  {
    hide Rooted, At;
    NoRoot(p, root);
    var d := Depths(p, root);
    DescendingRooted(p[n := q], root, d[n := 1 + if q in d then d[q] else 0]);
  }

  lemma NoRoot<T>(p: map<T, T>, root: T)
    requires Rooted(p, root)
    ensures root !in p
  {
  }

  // A node made a child of the root, or of one of the nodes above it.
  lemma RaisedRooted<T>(p: map<T, T>, root: T, n: T, q: T)
    requires Rooted(p, root) && n in p && (q == root || (q in p && Above(p, q, n)))
    ensures Rooted(p[n := q], root)
  {
    var d := Depths(p, root);
    if q != root {
      var j: nat :| AboveBy(p, q, n, j);
      AboveAt(p, root, q, n, j, d[n]);
      AtUnique(p, root, q, d[q], d[n] - j);
    }
    hide At, Rooted;
    DescendingRooted(p[n := q], root, d);
  }

  // A node taken out, its children going to its parent.
  lemma RemovedRooted<T>(p: map<T, T>, root: T, n: T, p': map<T, T>)
    requires Rooted(p, root) && n in p && p'.Keys == p.Keys - {n}
    requires forall x :: x in p' ==> p'[x] == if p[x] == n then p[n] else p[x]
    ensures Rooted(p', root)
  {
    hide At, Rooted;
    NoRoot(p, root);
    DescendingRooted(p', root, Depths(p, root));
  }

  // ---------------------------------------------------------------- a node with all its new siblings

  // The nodes of ks, but not n, made children of n.
  function Gathered<T(==)>(s: Shape<T>, ks: seq<T>, n: T): Shape<T>
    decreases |ks|
  {
    if ks == [] then s
    else Gathered(if ks[0] == n then s else Moved(s, ks[0], n), ks[1..], n)
  }

  lemma {:induction false} GatheredParents<T>(s: Shape<T>, ks: seq<T>, n: T)
    requires Ok(s) && n in s.kids && forall i :: 0 <= i < |ks| ==> ks[i] in s.parent
    ensures var r := Gathered(s, ks, n);
            && Ok(r) && r.kids.Keys == s.kids.Keys && r.parent.Keys == s.parent.Keys
            && forall x :: x in r.parent ==> r.parent[x] == if x in ks && x != n then n else s.parent[x]
    decreases |ks|
  {
    hide Ok, Moved;
    if ks != [] {
      InKids(s, ks[0]);
      MovedOk(s, ks[0], n);
      var t := if ks[0] == n then s else Moved(s, ks[0], n);
      assert t.parent.Keys == s.parent.Keys;
      GatheredParents(t, ks[1..], n);
      assert forall x :: x in ks <==> x == ks[0] || x in ks[1..];
    }
  }

  lemma InKids<T>(s: Shape<T>, x: T)
    requires Ok(s) && x in s.parent
    ensures x in s.kids && s.parent[x] in s.kids && x in s.kids[s.parent[x]]
  {
  }

  // ---------------------------------------------------------------- reprioritisation

  // Section 5.3.3 of RFC 7540: n is made to depend on d. If d is below n it first moves up to
  // the parent of n; if exclusive, the children of d are made children of n.
  ghost function FirstMove<T>(s: Shape<T>, n: T, d: T): Shape<T> {
    if Above(s.parent, n, d) && n in s.parent then Moved(s, d, s.parent[n]) else s
  }

  ghost function Reprioritised<T>(s: Shape<T>, n: T, d: T, exclusive: bool): Shape<T> {
    var t := FirstMove(s, n, d);
    var u := if exclusive && d in t.kids then Gathered(t, t.kids[d], n) else t;
    Moved(u, n, d)
  }

  // After the first move d is not below n.
  lemma FirstMoveRooted<T>(s: Shape<T>, root: T, n: T, d: T)
    requires Ok(s) && Rooted(s.parent, root) && n in s.parent && d in s.kids && n != d
    ensures var t := FirstMove(s, n, d);
            && Ok(t) && t.kids.Keys == s.kids.Keys && t.parent.Keys == s.parent.Keys && Rooted(t.parent, root)
            && !Above(t.parent, n, d)
            && t.parent == if Above(s.parent, n, d) then s.parent[d := s.parent[n]] else s.parent
  {
    hide Ok, Moved, At, Rooted, Above, AboveBy;
    if Above(s.parent, n, d) {
      InKids(s, n);
      AboveIn(s.parent, n, d);
      MovedOk(s, d, s.parent[n]);
      AboveBoth(s.parent, root, n, d);
      RaisedRooted(s.parent, root, d, s.parent[n]);
      RaisedNotBelow(s.parent, root, n, d);
    }
  }

  lemma AboveIn<T>(p: map<T, T>, a: T, x: T)
    requires Above(p, a, x)
    ensures x in p
  {
  }

  lemma {:induction false} AboveTrans<T>(p: map<T, T>, a: T, x: T, j: nat)
    requires AboveBy(p, a, x, j) && a in p
    ensures AboveBy(p, p[a], x, j + 1)
  {
    if j > 1 {
      AboveTrans(p, a, p[x], j - 1);
    }
  }

  lemma AboveBoth<T>(p: map<T, T>, root: T, n: T, d: T)
    requires Rooted(p, root) && n in p && Above(p, n, d)
    ensures Above(p, p[n], d) && (p[n] == root || p[n] in p)
  {
    var j: nat :| AboveBy(p, n, d, j);
    AboveTrans(p, n, d, j);
    var k: nat :| At(p, root, n, k);
    assert At(p, root, p[n], k - 1);
  }

  // d, formerly below n, is now a child of n's parent.
  lemma RaisedNotBelow<T>(p: map<T, T>, root: T, n: T, d: T)
    requires Rooted(p, root) && n in p && d in p && n != d
    requires Rooted(p[d := p[n]], root)
    ensures !Above(p[d := p[n]], n, d)
  {
    var p' := p[d := p[n]];
    NotAboveItself(p', root, n);
    AboveStep(p', n, d);
    AboveStep(p', n, n);
  }

  // The chain from x to the root is untouched.
  lemma {:induction false} SameAbove<T>(p: map<T, T>, p': map<T, T>, root: T, x: T, k: nat)
    requires At(p, root, x, k)
    requires forall y :: y in p && (y == x || Above(p, y, x)) ==> y in p' && p'[y] == p[y]
    ensures At(p', root, x, k)
  {
    hide Above;
    if k > 0 {
      forall y | y in p && (y == p[x] || Above(p, y, p[x]))
        ensures y in p' && p'[y] == p[y]
      {
        AboveStep(p, y, x);
      }
      SameAbove(p, p', root, p[x], k - 1);
    }
  }

  // n made a child of d, and some of the children of d made children of n, where d is not
  // below n. The children may have been above n: there is a cycle until n itself is moved.
  lemma MovedRooted<T>(p: map<T, T>, p': map<T, T>, root: T, n: T, d: T)
    requires Rooted(p, root) && n in p && n != d && (d == root || d in p) && !Above(p, n, d)
    requires p'.Keys == p.Keys && p'[n] == d
    requires forall x :: x in p && x != n ==> p'[x] == p[x] || (p[x] == d && p'[x] == n)
    ensures Rooted(p', root)
  {
    hide Above, At;
    RootAt(p, root, d);
    var k: nat :| At(p, root, d, k);
    forall y | y in p && (y == d || Above(p, y, d))
      ensures y in p' && p'[y] == p[y]
    {
      NotAboveItself(p, root, d);
      if p[y] == d {
        AboveStep(p, d, y);
        NotBoth(p, root, y, d);
      }
    }
    if d == root {
      RootAt(p', root, d);
    } else {
      SameAbove(p, p', root, d, k);
    }
    forall x | x in p'
      ensures exists m: nat :: At(p', root, x, m)
    {
      ReachThrough(p, p', root, n, d, x, Depths(p, root)[x]);
    }
  }

  lemma RootAt<T>(p: map<T, T>, root: T, d: T)
    requires Rooted(p, root) || d == root
    requires d == root || d in p
    ensures exists k: nat :: At(p, root, d, k)
  {
    if d == root {
      assert At(p, root, d, 0);
    }
  }

  // Two nodes are not above each other.
  lemma NotBoth<T>(p: map<T, T>, root: T, x: T, y: T)
    requires Rooted(p, root) && x in p && p[x] == y
    ensures !Above(p, x, y)
    ensures x != y
  {
    NotAboveItself(p, root, x);
    AboveStep(p, x, x);
  }

  lemma {:induction false} ReachThrough<T>(p: map<T, T>, p': map<T, T>, root: T, n: T, d: T, x: T, k: nat)
    requires n in p && p'.Keys == p.Keys && p'[n] == d && root !in p
    requires forall x :: x in p && x != n ==> p'[x] == p[x] || (p[x] == d && p'[x] == n)
    requires exists m: nat :: At(p', root, d, m)
    requires x in p && At(p, root, x, k)
    ensures exists m: nat :: At(p', root, x, m)
  {
    var m: nat :| At(p', root, d, m);
    assert At(p', root, n, m + 1);
    if x != n {
      if p'[x] == n {
        assert At(p', root, x, m + 2);
      } else if p[x] == root {
        assert At(p', root, root, 0);
        assert At(p', root, x, 1);
      } else {
        ReachThrough(p, p', root, n, d, p[x], k - 1);
        var l: nat :| At(p', root, p[x], l);
        assert At(p', root, x, l + 1);
      }
    }
  }

  // Reprioritisation keeps the tree. The parent of n is d then, its only child if exclusive.
  // Every other node keeps its parent, except d if it was below n, and the children of d.
  lemma ReprioritisedTree<T>(s: Shape<T>, root: T, n: T, d: T, exclusive: bool)
    requires Ok(s) && Rooted(s.parent, root) && n in s.parent && n != d && d in s.kids && (d == root || d in s.parent)
    ensures var r := Reprioritised(s, n, d, exclusive);
            && Ok(r) && Rooted(r.parent, root)
            && r.kids.Keys == s.kids.Keys && r.parent.Keys == s.parent.Keys
            && r.parent[n] == d && (exclusive ==> r.kids[d] == [n])
            && (forall x :: x in s.parent && x != n ==>
                  var q := if x == d && Above(s.parent, n, d) then s.parent[n] else s.parent[x];
                  r.parent[x] == if exclusive && q == d then n else q)
  {
    hide Above, At, AboveBy, Rooted, Moved, Gathered, Ok, FirstMove;
    FirstMoveRooted(s, root, n, d);
    var t := FirstMove(s, n, d);
    KidsOf(t, d);
    InKids(s, n);
    if exclusive {
      GatheredParents(t, t.kids[d], n);
    }
    var u := if exclusive then Gathered(t, t.kids[d], n) else t;
    assert Ok(u) && u.kids.Keys == t.kids.Keys && u.parent.Keys == t.parent.Keys;
    MovedOk(u, n, d);
    var r := Moved(u, n, d);
    MovedRooted(t.parent, r.parent, root, n, d);
    if exclusive {
      OnlyKid(r, n, d);
    }
  }

  lemma KidsOf<T>(s: Shape<T>, d: T)
    requires Ok(s) && d in s.kids
    ensures forall x :: x in s.kids[d] ==> x in s.parent && s.parent[x] == d
    ensures forall x :: x in s.parent && s.parent[x] == d ==> x in s.kids[d]
  {
  }

  lemma OnlyKid<T>(s: Shape<T>, n: T, d: T)
    requires Ok(s) && d in s.kids && n in s.parent && s.parent[n] == d
    requires forall x :: x in s.parent && x != n ==> s.parent[x] != d
    ensures s.kids[d] == [n]
  {
    var ks := s.kids[d];
    KidsOf(s, d);
    forall i | 0 <= i < |ks|
      ensures ks[i] == n
    {
      assert ks[i] in ks;
    }
    assert n in ks;
    if |ks| > 1 {
      FirstTwo(ks);
    }
  }
}
