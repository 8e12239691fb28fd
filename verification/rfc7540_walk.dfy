/**
 * The search of the priority tree for a stream to write from. Siblings of different weight are
 * sorted on the way, by some order; parents come before their children.
 */
module Rfc7540Walk {
  import opened Sequences
  import opened TreeShapes
  import opened PriorityTree
  import opened Rfc7540
  import opened Rfc7540Scheduler

  // A node, and whether an open stream is above it.
  datatype Found = Found(node: Node, openParent: bool) | NotFound

  // n is x or above it.
  ghost predicate Under(p: map<Node, Node>, n: Node, x: Node) {
    x == n || Above(p, n, x)
  }

  ghost function Below(p: map<Node, Node>, n: Node): set<Node> {
    set x | x in p && Above(p, n, x)
  }

  // Some open stream is above x. The root does not count.
  ghost predicate OpenAbove(p: map<Node, Node>, x: Node)
    reads p.Keys`state
  {
    exists a :: a in p.Keys && Above(p, a, x) && a.state == Open
  }

  // ---------------------------------------------------------------- sorting siblings

  lemma {:induction false} PermutedNoDup(a: seq<Node>, b: seq<Node>)
    requires Distinct(a) && multiset(a) == multiset(b)
    ensures Distinct(b) && |a| == |b|
    ensures forall x :: x in a ==> x in b
    ensures forall x :: x in b ==> x in a
  {
    forall x
      ensures x in a <==> x in b
    {
      assert x in a <==> x in multiset(a);
      assert x in b <==> x in multiset(b);
    }
    forall i, j | 0 <= i < j < |b|
      ensures b[i] != b[j]
    {
      if b[i] == b[j] {
        Twice(b, i, j);
        Once(a, b[i]);
      }
    }
    assert |multiset(a)| == |a| && |multiset(b)| == |b|;
  }

  lemma Twice(b: seq<Node>, i: nat, j: nat)
    requires i < j < |b| && b[i] == b[j]
    ensures multiset(b)[b[i]] >= 2
  {
    assert b == b[..i + 1] + b[i + 1..];
    assert b[i] in b[..i + 1] by {
      assert b[..i + 1][i] == b[i];
    }
    assert b[j] in b[i + 1..] by {
      assert b[i + 1..][j - i - 1] == b[j];
    }
    assert multiset(b) == multiset(b[..i + 1]) + multiset(b[i + 1..]);
  }

  lemma {:induction false} Once(a: seq<Node>, x: Node)
    requires Distinct(a)
    ensures multiset(a)[x] <= 1
  {
    if a != [] {
      assert a == [a[0]] + a[1..];
      assert multiset(a) == multiset{a[0]} + multiset(a[1..]);
      Once(a[1..], x);
      assert a[0] !in a[1..];
    }
  }

  // Whether a subtree with weight wi that has sent bi bytes goes before one with wk and bk.
  predicate Before(wi: nat, bi: int, wk: nat, bk: int) {
    if bi == 0 && bk == 0 then wi >= wk
    else if bk == 0 then false
    else bi as real / bk as real <= (wi + 1) as real / (wk + 1) as real
  }

  lemma Inserted(r: seq<Node>, j: nat, x: Node)
    requires j <= |r|
    ensures multiset(r[..j] + [x] + r[j..]) == multiset(r) + multiset{x}
  {
    assert r == r[..j] + r[j..];
  }

  // Counts that are not negative are compared by their ratios, without a division.
  lemma BeforeMeans(wi: nat, bi: int, wk: nat, bk: int)
    requires bi >= 0 && bk >= 0
    ensures Before(wi, bi, wk, bk) <==> if bi == 0 && bk == 0 then wi >= wk else bi * (wk + 1) <= bk * (wi + 1)
  {
    if bk > 0 {
      var x, y, u, v := bi as real, bk as real, (wi + 1) as real, (wk + 1) as real;
      assert x / y <= u / v <==> x * v <= u * y by {
        RatioLess(x, y, u, v);
      }
      assert x * v == (bi * (wk + 1)) as real && u * y == (bk * (wi + 1)) as real;
    } else if bi > 0 {
      assert bi * (wk + 1) > 0;
    }
  }

  lemma RatioLess(x: real, y: real, u: real, v: real)
    requires y > 0.0 && v > 0.0
    ensures x / y <= u / v <==> x * v <= u * y
  {
    var p, q := x / y, u / v;
    assert x == p * y && u == q * v;
    if p <= q {
      assert p * (y * v) <= q * (y * v);
    } else {
      assert p * (y * v) > q * (y * v);
    }
    assert x * v == p * (y * v) && u * y == q * (y * v);
  }

  lemma BeforeTotal(wi: nat, bi: int, wk: nat, bk: int)
    requires bi >= 0 && bk >= 0
    ensures Before(wi, bi, wk, bk) || Before(wk, bk, wi, bi)
  {
    BeforeMeans(wi, bi, wk, bk);
    BeforeMeans(wk, bk, wi, bi);
  }

  lemma BeforeTrans(wi: nat, bi: int, wj: nat, bj: int, wk: nat, bk: int)
    requires bi >= 0 && bj >= 0 && bk >= 0
    requires Before(wi, bi, wj, bj) && Before(wj, bj, wk, bk)
    ensures Before(wi, bi, wk, bk)
  {
    hide Before;
    BeforeMeans(wi, bi, wj, bj);
    BeforeMeans(wj, bj, wk, bk);
    BeforeMeans(wi, bi, wk, bk);
    if bj > 0 || (bi > 0 && bk > 0) {
      ProductTrans(bi, wi + 1, bj, wj + 1, bk, wk + 1);
    } else {
      assert bi > 0 ==> bi * (wj + 1) > 0;
    }
  }

  lemma ProductTrans(a: nat, x: nat, b: nat, y: nat, c: nat, z: nat)
    requires x > 0 && y > 0 && z > 0 && a * y <= b * x && b * z <= c * y
    ensures a * z <= c * x
  {
    assert a * y * z <= b * x * z;
    assert b * z * x <= c * y * x;
    assert (a * z) * y <= (c * x) * y;
    if a * z > c * x {
      TimesMore(a * z, c * x, y);
    }
  }

  lemma {:induction false} TimesMore(p: int, q: int, y: nat)
    requires p > q && y > 0
    ensures p * y > q * y
  {
    if y > 1 {
      TimesMore(p, q, y - 1);
      assert p * y == p * (y - 1) + p && q * y == q * (y - 1) + q;
    }
  }

  // Negative counts are another matter. A stream that was moved takes its octets off its new
  // ancestors when it is closed, and not off those that counted them.
  lemma NegativeCounts()
    ensures Before(0, -2, 0, 1) && Before(0, 1, 0, -1) && !Before(0, -2, 0, -1)
  {
    assert (-2) as real / 1 as real == -2.0;
    assert 1 as real / (-1) as real == -1.0;
    assert (-2) as real / (-1) as real == 2.0;
  }

  ghost predicate Ahead(x: Node, y: Node)
    reads x`weight, x`subtreeBytes, y`weight, y`subtreeBytes
  {
    Before(x.weight, x.subtreeBytes, y.weight, y.subtreeBytes)
  }

  ghost predicate Counted(ks: seq<Node>)
    reads ks`subtreeBytes
  {
    forall x :: x in ks ==> x.subtreeBytes >= 0
  }

  // The subtree that has sent the fewest octets for its weight comes first.
  ghost predicate InOrder(ks: seq<Node>)
    reads ks`weight, ks`subtreeBytes
  {
    forall i, j :: 0 <= i < j < |ks| ==> Ahead(ks[i], ks[j])
  }

  // x is put in at j, behind what does not come after it.
  lemma InsertedInOrder(r: seq<Node>, j: nat, x: Node)
    requires j <= |r| && InOrder(r) && Counted(r) && x.subtreeBytes >= 0
    requires forall k :: j <= k < |r| ==> Ahead(x, r[k])
    requires j > 0 ==> !Ahead(x, r[j - 1])
    ensures InOrder(r[..j] + [x] + r[j..]) && Counted(r[..j] + [x] + r[j..])
  {
    hide Before;
    var r' := r[..j] + [x] + r[j..];
    forall k | 0 <= k < j
      ensures Ahead(r[k], x)
    {
      var l := r[j - 1];
      BeforeTotal(x.weight, x.subtreeBytes, l.weight, l.subtreeBytes);
      if k < j - 1 {
        assert Ahead(r[k], l);
        BeforeTrans(r[k].weight, r[k].subtreeBytes, l.weight, l.subtreeBytes, x.weight, x.subtreeBytes);
      }
    }
    forall a, b | 0 <= a < b < |r'|
      ensures Ahead(r'[a], r'[b])
    {
      var a', b' := if a < j then a else a - 1, if b < j then b else b - 1;
      assert a != j && b != j ==> r'[a] == r[a'] && r'[b] == r[b'] && Ahead(r[a'], r[b']);
    }
  }

  // Sort siblings. The order is that of Before if no count is negative.
  method SortSiblings(z: seq<Node>) returns (r: seq<Node>)
    ensures multiset(r) == multiset(z)
    ensures Counted(z) ==> InOrder(r)
  {
    hide Before, InOrder, Counted;
    r := [];
    EmptyInOrder();
    for i := 0 to |z|
      invariant multiset(r) == multiset(z[..i])
      invariant Counted(z) ==> InOrder(r) && Counted(r)
    {
      var j := |r|;
      while j > 0 && Before(z[i].weight, z[i].subtreeBytes, r[j - 1].weight, r[j - 1].subtreeBytes)
        invariant 0 <= j <= |r|
        invariant forall k :: j <= k < |r| ==> Ahead(z[i], r[k])
      {
        j := j - 1;
      }
      Inserted(r, j, z[i]);
      assert z[..i + 1] == z[..i] + [z[i]];
      if Counted(z) {
        CountedAt(z, i);
        InsertedInOrder(r, j, z[i]);
      }
      r := r[..j] + [z[i]] + r[j..];
    }
    assert z[..|z|] == z;
  }

  lemma EmptyInOrder()
    ensures InOrder([]) && Counted([])
  {
  }

  lemma CountedAt(z: seq<Node>, i: nat)
    requires Counted(z) && i < |z|
    ensures z[i].subtreeBytes >= 0
  {
  }

  ghost predicate SameWeight(ks: seq<Node>)
    reads ks`weight
  {
    forall x, y :: x in ks && y in ks ==> x.weight == y.weight
  }

  // Children of the same weight stay as they are; others are sorted.
  ghost predicate Arranged(ks: seq<Node>, ks': seq<Node>)
    reads ks`weight, ks`subtreeBytes, ks'`weight, ks'`subtreeBytes
  {
    && multiset(ks') == multiset(ks)
    && if SameWeight(ks) then ks' == ks else Counted(ks) ==> InOrder(ks')
  }

  // Some of the children of n taken off.
  ghost function Less(s: Shape<Node>, n: Node, left: seq<Node>, off: seq<Node>): Shape<Node> {
    Shape(s.kids[n := left], s.parent - Members(off))
  }

  // The children of n in another order.
  ghost function Reordered(s: Shape<Node>, n: Node, ks: seq<Node>): Shape<Node> {
    Shape(s.kids[n := ks], s.parent)
  }

  lemma TakeOff(s: Shape<Node>, n: Node, off: seq<Node>, left: seq<Node>)
    requires Ok(s) && n in s.kids && s.kids[n] == off + left && left != []
    ensures Detached(Less(s, n, left, off), left[0]) == Less(s, n, left[1..], off + [left[0]])
    ensures left[0] in s.kids && off + left == (off + [left[0]]) + left[1..]
  {
    hide Ok, Distinct, Detached;
    var c := left[0];
    var cur := Less(s, n, left, off);
    assert s.kids[n][|off|] == c;
    assert c in s.kids[n];
    KidsOf(s, n);
    InKids(s, c);
    NoDupOf(s, n);
    NotIn(off, left);
    DropFirst(cur, n);
    DetachedParent(cur, c);
    assert Members(off + [c]) == Members(off) + {c};
  }

  lemma NotIn(off: seq<Node>, left: seq<Node>)
    requires Distinct(off + left) && left != []
    ensures left[0] !in off && off + left == (off + [left[0]]) + left[1..]
  {
    assert (off + left)[|off|] == left[0];
    forall i | 0 <= i < |off|
      ensures off[i] != left[0]
    {
      assert (off + left)[i] == off[i];
    }
  }

  lemma DetachedParent(s: Shape<Node>, c: Node)
    ensures Detached(s, c).parent == s.parent - {c}
  {
    hide Without;
  }

  lemma PutBack(s: Shape<Node>, n: Node, z: seq<Node>, i: nat)
    requires Ok(s) && n in s.kids && Distinct(z) && 0 < i <= |z| && forall x :: x in z ==> x in s.parent && s.parent[x] == n
    ensures Moved(Less(s, n, z[i..], z[..i]), z[i - 1], n) == Less(s, n, z[i - 1..], z[..i - 1])
    ensures z[i - 1] in s.kids
  {
    var c := z[i - 1];
    assert c in z;
    var cur := Less(s, n, z[i..], z[..i]);
    assert z[..i] == z[..i - 1] + [c];
    assert Members(z[..i]) == Members(z[..i - 1]) + {c};
    assert c !in z[..i - 1];
    assert c in Members(z[..i]);
    assert z[i - 1..] == [c] + z[i..];
    assert cur.parent[c := n] == s.parent - Members(z[..i - 1]);
  }

  // Take all children of n off, sort them, and put them back.
  method Resort(n: Node, ghost s: Shape<Node>) returns (ghost t: Shape<Node>)
    requires Linked(s) && n in s.kids && n !in s.kids[n]
    modifies s.kids.Keys`kids, s.kids.Keys`parent, s.kids.Keys`prev, s.kids.Keys`next
    ensures Linked(t) && exists z :: multiset(z) == multiset(s.kids[n]) && (Counted(s.kids[n]) ==> InOrder(z)) && t == Reordered(s, n, z)
  {
    hide *;
    FirstKid(s, n);
    NoDupOf(s, n);
    KidsOf(s, n);
    var tmp := TakeAllOff(n, s);
    ghost var off := Less(s, n, [], tmp);
    WithoutKeys(s, n, [], tmp);
    assert Linked(off);
    var z := SortSiblings(tmp);
    assert Linked(off);
    PermutedNoDup(tmp, z);
    SameMembers(s, n, tmp, z);
    PutAllBack(n, z, s);
    WithoutNone(s, n);
    t := Reordered(s, n, z);
  }

  method TakeAllOff(n: Node, ghost s: Shape<Node>) returns (tmp: seq<Node>)
    requires Linked(s) && n in s.kids
    modifies s.kids.Keys`kids, s.kids.Keys`parent, s.kids.Keys`prev, s.kids.Keys`next
    ensures tmp == s.kids[n] && Linked(Less(s, n, [], tmp))
  {
    hide *;
    FirstKid(s, n);
    WithoutNone(s, n);
    tmp := [];
    ghost var left := s.kids[n];
    while n.kids != null
      invariant s.kids[n] == tmp + left && Linked(Less(s, n, left, tmp))
      invariant n.kids == if left == [] then null else left[0]
      decreases |left|
    {
      TakeOff(s, n, tmp, left);
      WithoutKeys(s, n, left, tmp);
      var c := n.kids;
      SetParent(c, null, Less(s, n, left, tmp));
      tmp := tmp + [c];
      left := left[1..];
      WithoutKeys(s, n, left, tmp);
      FirstKid(Less(s, n, left, tmp), n);
    }
  }

  method PutAllBack(n: Node, z: seq<Node>, ghost s: Shape<Node>)
    requires Ok(s) && n in s.kids && n !in z && Distinct(z) && Linked(Less(s, n, [], z))
    requires forall x :: x in z ==> x in s.parent && s.parent[x] == n
    modifies s.kids.Keys`kids, s.kids.Keys`parent, s.kids.Keys`prev, s.kids.Keys`next
    ensures Linked(Less(s, n, z, []))
  {
    hide *;
    var i: nat := |z|;
    assert z[i..] == [] && z[..i] == z;
    while i > 0
      invariant i <= |z| && Linked(Less(s, n, z[i..], z[..i]))
    {
      PutBack(s, n, z, i);
      WithoutKeys(s, n, z[i..], z[..i]);
      SetParent(z[i - 1], n, Less(s, n, z[i..], z[..i]));
      i := i - 1;
    }
    assert z[0..] == z && z[..0] == [];
  }

  lemma WithoutNone(s: Shape<Node>, n: Node)
    requires n in s.kids
    ensures forall ks :: Less(s, n, ks, []) == Reordered(s, n, ks)
    ensures Less(s, n, s.kids[n], []) == s
  {
    assert s.kids[n := s.kids[n]] == s.kids;
  }

  lemma WithoutKeys(s: Shape<Node>, n: Node, left: seq<Node>, off: seq<Node>)
    requires n in s.kids
    ensures Less(s, n, left, off).kids.Keys == s.kids.Keys && Less(s, n, left, off).kids[n] == left
  {
  }

  lemma SameMembers(s: Shape<Node>, n: Node, tmp: seq<Node>, z: seq<Node>)
    requires n in s.kids && tmp == s.kids[n] && (forall x :: x in tmp ==> x in z) && forall x :: x in z ==> x in tmp
    ensures Less(s, n, [], tmp) == Less(s, n, [], z)
  {
    assert Members(tmp) == Members(z);
  }

  // ---------------------------------------------------------------- the search

  lemma BelowShrinks(p: map<Node, Node>, root: Node, n: Node, c: Node)
    requires Rooted(p, root) && c in p && p[c] == n
    ensures Below(p, c) < Below(p, n)
  {
    NotAboveItself(p, root, c);
    AboveStep(p, n, c);
    forall x | x in Below(p, c)
      ensures x in Below(p, n)
    {
      var j: nat :| AboveBy(p, c, x, j);
      AboveTrans(p, c, x, j);
    }
    assert c in Below(p, n) && c !in Below(p, c);
  }

  // What is below n is one of its children, or below one.
  lemma {:induction false} ThroughChild(p: map<Node, Node>, n: Node, x: Node, j: nat)
    requires AboveBy(p, n, x, j)
    ensures exists c :: c in p && p[c] == n && Under(p, c, x)
    decreases j
  {
    if j > 1 {
      ThroughChild(p, n, p[x], j - 1);
      var c :| c in p && p[c] == n && Under(p, c, p[x]);
      AboveStep(p, c, x);
    } else {
      assert Under(p, x, x);
    }
  }

  // A node between n and x is not above the child of n that leads to x.
  lemma {:induction false} OnTheWay(p: map<Node, Node>, root: Node, n: Node, c: Node, a: Node, x: Node, j: nat)
    requires Rooted(p, root) && c in p && p[c] == n && Under(p, c, x) && AboveBy(p, a, x, j) && Above(p, n, a)
    ensures Under(p, c, a)
    decreases j
  {
    AboveStep(p, c, x);
    if x == c {
      AboveStep(p, a, c);
      NotAboveItself(p, root, n);
      NotTwoWays(p, root, n, a);
    } else if j > 1 {
      OnTheWay(p, root, n, c, a, p[x], j - 1);
    }
  }

  lemma NotTwoWays(p: map<Node, Node>, root: Node, x: Node, y: Node)
    requires Rooted(p, root) && Above(p, x, y)
    ensures x != y && !Above(p, y, x)
  {
    NotAboveItself(p, root, x);
    if Above(p, y, x) {
      var i: nat :| AboveBy(p, x, y, i);
      var j: nat :| AboveBy(p, y, x, j);
      var k: nat :| At(p, root, x, k);
      AboveAt(p, root, y, x, j, k);
      AboveAt(p, root, x, y, i, k - j);
      AtUnique(p, root, x, k, k - j - i);
    }
  }

  lemma OpenStep(p: map<Node, Node>, root: Node, n: Node, c: Node)
    requires Rooted(p, root) && c in p && p[c] == n && (n == root || n in p)
    ensures OpenAbove(p, c) <==> OpenAbove(p, n) || (n != root && n.state == Open)
  {
    forall a
      ensures Above(p, a, c) <==> a == n || Above(p, a, n)
    {
      AboveStep(p, a, c);
    }
  }

  // What the search of the subtree of n finds: a node that can be served, with none above it
  // in the subtree that can; or else no node there can be served.
  ghost predicate Finds(p: map<Node, Node>, n: Node, ready: (Node, bool) -> bool, r: Found)
    reads p.Keys`state
  {
    match r
    case NotFound => forall x :: x in p.Keys + {n} && Under(p, n, x) ==> !ready(x, OpenAbove(p, x))
    case Found(y, open) =>
      && open == OpenAbove(p, y)
      && (y == n || y in p) && Under(p, n, y) && ready(y, OpenAbove(p, y))
      && forall a :: a in p.Keys + {n} && Under(p, n, a) && Above(p, a, y) ==> !ready(a, OpenAbove(p, a))
  }

  // The node found is the first in the order of siblings: below no child before one that leads
  // to it is there a node that can be served.
  ghost predicate First(t: Shape<Node>, n: Node, ready: (Node, bool) -> bool, y: Node)
    reads t.parent.Keys`state
  {
    forall c :: c in t.parent && t.parent[c] in t.kids && Under(t.parent, n, t.parent[c]) && Under(t.parent, c, y) ==>
      FirstOf(t.parent, t.kids[t.parent[c]], c, ready)
  }

  ghost predicate FirstOf(p: map<Node, Node>, ks: seq<Node>, c: Node, ready: (Node, bool) -> bool)
    reads p.Keys`state
  {
    exists i :: 0 <= i < |ks| && ks[i] == c && SearchedKids(p, ks, i, ready)
  }

  // The nodes below n, or n itself, that are above y.
  ghost function PathTo(s: Shape<Node>, n: Node, y: Node): set<Node> {
    set m | m in s.kids && Under(s.parent, n, m) && Above(s.parent, m, y)
  }

  // Nothing but the order of siblings has changed, and that as it should.
  ghost predicate Visited(s: Shape<Node>, t: Shape<Node>)
    reads s.kids.Keys`weight, s.kids.Keys`subtreeBytes, t.parent.Keys`weight, t.parent.Keys`subtreeBytes
    requires t.kids.Keys == s.kids.Keys && Ok(s) && Ok(t)
  {
    forall m :: m in s.kids ==> t.kids[m] == s.kids[m] || Arranged(s.kids[m], t.kids[m])
  }

  // The subtrees of the children of n from position i on are as they were.
  ghost predicate Later(s: Shape<Node>, t: Shape<Node>, n: Node, i: nat)
    requires t.kids.Keys == s.kids.Keys && n in s.kids
  {
    forall j, x :: i <= j < |s.kids[n]| && x in s.kids && Under(s.parent, s.kids[n][j], x) ==> t.kids[x] == s.kids[x]
  }

  lemma OneChild(p: map<Node, Node>, root: Node, n: Node, c: Node, d: Node, y: Node)
    requires Rooted(p, root) && c in p && p[c] == n && d in p && p[d] == n && Under(p, c, y) && Under(p, d, y)
    ensures c == d
  {
    hide Above, Rooted;
    AboveStep(p, n, c);
    AboveStep(p, n, d);
    NotTwoWays(p, root, n, c);
    NotTwoWays(p, root, n, d);
    if y != d {
      Between(p, root, n, c, d, y);
    }
    AboveStep(p, c, d);
  }

  // The i-th child of n has been walked.
  lemma KidWalked(s: Shape<Node>, t: Shape<Node>, u: Shape<Node>, root: Node, n: Node, i: nat)
    requires Ok(s) && Ok(t) && Ok(u) && Rooted(s.parent, root) && n in s.kids && i < |s.kids[n]|
    requires t.kids.Keys == s.kids.Keys && u.kids.Keys == s.kids.Keys
    requires Visited(s, t) && Later(s, t, n, i) && Visited(t, u)
    requires forall x :: x in t.kids && !Under(s.parent, s.kids[n][i], x) ==> u.kids[x] == t.kids[x]
    ensures Visited(s, u) && Later(s, u, n, i + 1)
  {
    hide Above, Rooted, Arranged, Ok;
    var p, ks := s.parent, s.kids[n];
    KidsOf(s, n);
    NoDupOf(s, n);
    forall j, x | i + 1 <= j < |ks| && x in s.kids && Under(p, ks[j], x)
      ensures u.kids[x] == s.kids[x]
    {
      assert ks[i] in ks && ks[j] in ks && ks[i] != ks[j];
      if Under(p, ks[i], x) {
        OneChild(p, root, n, ks[i], ks[j], x);
      }
    }
  }

  // The search ended below the i-th child of n.
  lemma KidFound(s: Shape<Node>, t: Shape<Node>, u: Shape<Node>, root: Node, n: Node, i: nat, ready: (Node, bool) -> bool, y: Node)
    requires Ok(s) && Ok(t) && Ok(u) && Rooted(s.parent, root) && n in s.kids && i < |s.kids[n]|
    requires t.kids.Keys == s.kids.Keys && u.kids.Keys == s.kids.Keys && t.parent == s.parent && u.parent == s.parent
    requires u.kids[n] == s.kids[n] && Later(s, t, n, i) && SearchedKids(s.parent, s.kids[n], i, ready)
    requires Under(s.parent, s.kids[n][i], y) && First(u, s.kids[n][i], ready, y)
    requires AllArranged(t, u, PathTo(t, s.kids[n][i], y))
    ensures First(u, n, ready, y) && AllArranged(s, u, PathTo(s, n, y) - {n})
  {
    hide Above, Rooted, Arranged, SearchedKids, Ok;
    var p, ks := s.parent, s.kids[n];
    var c := ks[i];
    assert c in ks;
    KidsOf(s, n);
    forall d | d in p && p[d] in u.kids && Under(p, n, p[d]) && Under(p, d, y)
      ensures FirstOf(p, u.kids[p[d]], d, ready)
    {
      if p[d] == n {
        OneChild(p, root, n, c, d, y);
      } else {
        ParentAbove(p, root, d, y);
        Between(p, root, n, c, p[d], y);
      }
    }
    forall m | m in PathTo(s, n, y) - {n}
      ensures Arranged(s.kids[m], u.kids[m])
    {
      Between(p, root, n, c, m, y);
      assert t.kids[m] == s.kids[m];
      assert m in PathTo(t, c, y);
    }
  }

  lemma ParentAbove(p: map<Node, Node>, root: Node, d: Node, y: Node)
    requires Rooted(p, root) && d in p && Under(p, d, y)
    ensures Above(p, p[d], y)
  {
    hide Above, Rooted;
    UnderParent(p, p[d], d, y);
    NotBoth(p, root, d, p[d]);
    AboveStep(p, p[d], d);
  }

  // The children of n were sorted, if need be, before they were searched.
  lemma SortedThenWalked(s: Shape<Node>, t: Shape<Node>, u: Shape<Node>, n: Node)
    requires Ok(s) && Ok(t) && Ok(u) && n in s.kids && t.parent == s.parent
    requires t.kids.Keys == s.kids.Keys && u.kids.Keys == s.kids.Keys && u.kids[n] == t.kids[n]
    requires forall x :: x in s.kids && x != n ==> t.kids[x] == s.kids[x]
    requires Arranged(s.kids[n], t.kids[n]) && Visited(t, u)
    ensures Visited(s, u)
    ensures forall y :: AllArranged(t, u, PathTo(t, n, y) - {n}) ==> AllArranged(s, u, PathTo(s, n, y))
  {
    hide Above, Arranged, Ok;
    forall y | AllArranged(t, u, PathTo(t, n, y) - {n})
      ensures AllArranged(s, u, PathTo(s, n, y))
    {
      forall m | m in PathTo(s, n, y)
        ensures Arranged(s.kids[m], u.kids[m])
      {
        if m != n {
          assert m in PathTo(t, n, y) - {n};
        }
      }
    }
  }

  lemma NothingVisited(s: Shape<Node>)
    requires Ok(s)
    ensures Visited(s, s)
    ensures forall n, i: nat :: n in s.kids ==> Later(s, s, n, i)
  {
  }

  // The search ended at once.
  lemma FirstHere(s: Shape<Node>, root: Node, n: Node, ready: (Node, bool) -> bool)
    requires Ok(s) && Rooted(s.parent, root)
    ensures First(s, n, ready, n) && AllArranged(s, s, PathTo(s, n, n))
  {
    hide Above, Rooted, Arranged, SearchedKids, Ok;
    NotAboveItself(s.parent, root, n);
    forall m | Under(s.parent, n, m) && Above(s.parent, m, n)
      ensures false
    {
      NotTwoWays(s.parent, root, m, n);
    }
    forall c | c in s.parent && Under(s.parent, n, s.parent[c]) && Under(s.parent, c, n)
      ensures false
    {
      ParentAbove(s.parent, root, c, n);
    }
  }

  lemma FoundUnder(p: map<Node, Node>, n: Node, ready: (Node, bool) -> bool, r: Found)
    requires Finds(p, n, ready, r) && r.Found?
    ensures Under(p, n, r.node)
  {
    hide OpenAbove, Above;
  }

  // The children of the nodes of ms were looked at in order.
  ghost predicate AllArranged(s: Shape<Node>, t: Shape<Node>, ms: set<Node>)
    reads s.kids.Keys`weight, s.kids.Keys`subtreeBytes, t.parent.Keys`weight, t.parent.Keys`subtreeBytes
    requires ms <= s.kids.Keys && t.kids.Keys == s.kids.Keys && Ok(s) && Ok(t)
  {
    forall m :: m in ms ==> Arranged(s.kids[m], t.kids[m])
  }

  // The children of n before position i have been searched in vain.
  ghost predicate SearchedKids(p: map<Node, Node>, ks: seq<Node>, i: nat, ready: (Node, bool) -> bool)
    reads p.Keys`state
    requires i <= |ks|
  {
    forall j :: 0 <= j < i ==> Finds(p, ks[j], ready, NotFound)
  }

  lemma FindsNone(s: Shape<Node>, n: Node, ready: (Node, bool) -> bool)
    requires Ok(s) && n in s.kids && !ready(n, OpenAbove(s.parent, n))
    requires SearchedKids(s.parent, s.kids[n], |s.kids[n]|, ready)
    ensures Finds(s.parent, n, ready, NotFound)
  {
    hide Ok, OpenAbove, Above;
    var p := s.parent;
    KidsOf(s, n);
    forall x | x in p.Keys + {n} && Under(p, n, x)
      ensures !ready(x, OpenAbove(p, x))
    {
      if x != n {
        ChildTo(p, n, x);
        var c :| c in p && p[c] == n && Under(p, c, x);
        assert c in s.kids[n];
        var j :| 0 <= j < |s.kids[n]| && s.kids[n][j] == c;
        assert Finds(p, c, ready, NotFound);
        AboveKnown(p, n, x);
      }
    }
  }

  lemma ChildTo(p: map<Node, Node>, n: Node, x: Node)
    requires Above(p, n, x)
    ensures exists c :: c in p && p[c] == n && Under(p, c, x)
  {
    var j: nat :| AboveBy(p, n, x, j);
    ThroughChild(p, n, x, j);
  }

  lemma AboveKnown(p: map<Node, Node>, n: Node, x: Node)
    requires Above(p, n, x)
    ensures x in p
  {
  }

  lemma FindsBelow(s: Shape<Node>, root: Node, n: Node, c: Node, ready: (Node, bool) -> bool, r: Found)
    requires Ok(s) && Rooted(s.parent, root) && n in s.kids && !ready(n, OpenAbove(s.parent, n))
    requires c in s.parent && s.parent[c] == n && r.Found? && Finds(s.parent, c, ready, r)
    ensures Finds(s.parent, n, ready, r)
  {
    hide Ok, OpenAbove, Above, Rooted;
    var p := s.parent;
    var y := r.node;
    UnderParent(p, n, c, y);
    forall a | a in p.Keys + {n} && Under(p, n, a) && Above(p, a, y)
      ensures !ready(a, OpenAbove(p, a))
    {
      if a != n {
        Between(p, root, n, c, a, y);
      }
    }
  }

  lemma UnderParent(p: map<Node, Node>, n: Node, c: Node, y: Node)
    requires c in p && p[c] == n && Under(p, c, y)
    ensures Under(p, n, y)
  {
    if y == c {
      AboveStep(p, n, c);
    } else {
      var j: nat :| AboveBy(p, c, y, j);
      AboveTrans(p, c, y, j);
    }
  }

  lemma Between(p: map<Node, Node>, root: Node, n: Node, c: Node, a: Node, x: Node)
    requires Rooted(p, root) && c in p && p[c] == n && Under(p, c, x) && Above(p, a, x) && Above(p, n, a)
    ensures Under(p, c, a) && a in p
  {
    var j: nat :| AboveBy(p, a, x, j);
    OnTheWay(p, root, n, c, a, x, j);
  }

  // walkReadyInOrder. ready tells whether a node has a frame that can be sent, given whether
  // an open stream is above it. order is the order that siblings of different weight are put in.
  method Walk(n: Node, openParent: bool, ready: (Node, bool) -> bool,
              ghost root: Node, ghost s: Shape<Node>)
    returns (r: Found, ghost t: Shape<Node>)
    requires Linked(s) && Rooted(s.parent, root) && n in s.kids && (n == root || n in s.parent)
    requires forall x :: x in s.kids ==> (x.id == 0 <==> x == root)
    requires openParent == OpenAbove(s.parent, n)
    modifies s.kids.Keys`kids, s.kids.Keys`parent, s.kids.Keys`prev, s.kids.Keys`next
    ensures Linked(t) && t.parent == s.parent && t.kids.Keys == s.kids.Keys
    ensures forall x :: x in s.kids && !Under(s.parent, n, x) ==> t.kids[x] == s.kids[x]
    ensures Finds(s.parent, n, ready, r) && Visited(s, t)
    ensures r.Found? ==> First(t, n, ready, r.node) && AllArranged(s, t, PathTo(s, n, r.node))
    decreases Below(s.parent, n), 1
  {
    hide *;
    t := s;
    OkOf(s);
    NothingVisited(s);
    if ready(n, openParent) {
      FoundHere(s.parent, root, n, ready);
      FirstHere(s, root, n, ready);
      return Found(n, openParent), t;
    }
    FirstKid(s, n);
    if n.kids == null {
      NoKids(s, n, ready);
      return NotFound, t;
    }
    var open := openParent || (n.id != 0 && n.state == Open);
    var needSort := DifferentWeights(n, s);
    if needSort {
      KidsOfTree(s, root, n);
      t := Resort(n, s);
    }
    SortedOnly(s, t, n);
    SortedWell(s, t, n, needSort);
    ghost var u := t;
    OkOf(u);
    FirstKid(u, n);
    r, t := WalkKids(n, open, ready, root, u);
    OkOf(t);
    SortedThenWalked(s, u, t, n);
    if r == NotFound {
      FindsNone(u, n, ready);
    } else {
      ghost var c :| c in s.parent && s.parent[c] == n && Finds(s.parent, c, ready, r);
      FindsBelow(u, root, n, c, ready, r);
    }
  }

  // Search the children of n in their order.
  method WalkKids(n: Node, open: bool, ready: (Node, bool) -> bool,
                  ghost root: Node, ghost s: Shape<Node>)
    returns (r: Found, ghost t: Shape<Node>)
    requires Linked(s) && Rooted(s.parent, root) && n in s.kids && (n == root || n in s.parent)
    requires forall x :: x in s.kids ==> (x.id == 0 <==> x == root)
    requires open <==> OpenAbove(s.parent, n) || (n != root && n.state == Open)
    modifies s.kids.Keys`kids, s.kids.Keys`parent, s.kids.Keys`prev, s.kids.Keys`next
    ensures Linked(t) && t.parent == s.parent && t.kids.Keys == s.kids.Keys
    ensures forall x :: x in s.kids && !Under(s.parent, n, x) ==> t.kids[x] == s.kids[x]
    ensures t.kids[n] == s.kids[n] && Visited(s, t)
    ensures r == NotFound ==> SearchedKids(s.parent, s.kids[n], |s.kids[n]|, ready)
    ensures r != NotFound ==> exists c :: c in s.parent && s.parent[c] == n && Finds(s.parent, c, ready, r)
    ensures r.Found? ==> First(t, n, ready, r.node) && AllArranged(s, t, PathTo(s, n, r.node) - {n})
    decreases Below(s.parent, n), 0
  {
    hide *;
    t := s;
    FirstKid(s, n);
    var k := n.kids;
    ghost var ks := s.kids[n];
    ghost var i: nat := 0;
    NoneSearched(s.parent, ks, ready);
    OkOf(s);
    NothingVisited(s);
    while k != null
      invariant Linked(t) && t.parent == s.parent && t.kids.Keys == s.kids.Keys && t.kids[n] == ks
      invariant forall x :: x in s.kids && !Under(s.parent, n, x) ==> t.kids[x] == s.kids[x]
      invariant i <= |ks| && k == (if i == |ks| then null else ks[i])
      invariant SearchedKids(s.parent, ks, i, ready) && Ok(t) && Visited(s, t) && Later(s, t, n, i)
      decreases |ks| - i
    {
      KidBelow(t, root, n, i);
      OpenStep(s.parent, root, n, ks[i]);
      ghost var before := t;
      r, t := Walk(k, open, ready, root, before);
      OkOf(t);
      KidWalked(s, before, t, root, n, i);
      if r != NotFound {
        FoundUnder(s.parent, ks[i], ready, r);
        KidFound(s, before, t, root, n, i, ready, r.node);
        return;
      }
      OneMore(s.parent, ks, i, ready);
      NextSibling(t, n, i);
      k := k.next;
      i := i + 1;
    }
    r := NotFound;
  }

  // Whether the children of n, which has some, differ in weight.
  method DifferentWeights(n: Node, ghost s: Shape<Node>) returns (differ: bool)
    requires Linked(s) && n in s.kids && n.kids != null
    ensures differ <==> !SameWeight(s.kids[n])
  {
    hide Linked, Ok;
    FirstKid(s, n);
    var w := n.kids.weight;
    ghost var i := 1;
    NextSibling(s, n, 0);
    var k := n.kids.next;
    while k != null
      invariant 1 <= i <= |s.kids[n]| && k == (if i == |s.kids[n]| then null else s.kids[n][i])
      invariant forall j :: 0 <= j < i ==> s.kids[n][j].weight == w
      decreases |s.kids[n]| - i
    {
      if k.weight != w {
        assert s.kids[n][0] in s.kids[n] && s.kids[n][i] in s.kids[n];
        return true;
      }
      NextSibling(s, n, i);
      k := k.next;
      i := i + 1;
    }
    return false;
  }

  lemma NextSibling(s: Shape<Node>, n: Node, i: nat)
    requires Linked(s) && n in s.kids && i < |s.kids[n]|
    ensures s.kids[n][i] in s.kids && s.kids[n][i].next == if i + 1 == |s.kids[n]| then null else s.kids[n][i + 1]
  {
    var ks := s.kids[n];
    assert ks == ks[..i] + ks[i..];
    NextKid(s, n, ks[..i], ks[i..]);
  }

  lemma KidBelow(s: Shape<Node>, root: Node, n: Node, i: nat)
    requires Linked(s) && Rooted(s.parent, root) && n in s.kids && i < |s.kids[n]|
    ensures var c := s.kids[n][i];
            && c in s.kids && c in s.parent && s.parent[c] == n && Below(s.parent, c) < Below(s.parent, n)
            && !Under(s.parent, c, n)
            && forall x :: Under(s.parent, c, x) ==> Under(s.parent, n, x)
  {
    hide Above, Rooted, Below, Ok;
    OkOf(s);
    KidsOf(s, n);
    var c := s.kids[n][i];
    assert c in s.kids[n];
    InKids(s, c);
    BelowShrinks(s.parent, root, n, c);
    AboveStep(s.parent, n, c);
    NotTwoWays(s.parent, root, n, c);
    forall x | Under(s.parent, c, x)
      ensures Under(s.parent, n, x)
    {
      UnderParent(s.parent, n, c, x);
    }
  }

  lemma NoneSearched(p: map<Node, Node>, ks: seq<Node>, ready: (Node, bool) -> bool)
    ensures SearchedKids(p, ks, 0, ready)
  {
  }

  lemma OneMore(p: map<Node, Node>, ks: seq<Node>, i: nat, ready: (Node, bool) -> bool)
    requires i < |ks| && SearchedKids(p, ks, i, ready) && Finds(p, ks[i], ready, NotFound)
    ensures SearchedKids(p, ks, i + 1, ready)
  {
    hide Finds;
  }

  lemma FoundHere(p: map<Node, Node>, root: Node, n: Node, ready: (Node, bool) -> bool)
    requires Rooted(p, root) && (n == root || n in p) && ready(n, OpenAbove(p, n))
    ensures Finds(p, n, ready, Found(n, OpenAbove(p, n)))
  {
    hide Above, Rooted, OpenAbove;
    NotAboveItself(p, root, n);
    forall a | Above(p, n, a)
      ensures !Above(p, a, n)
    {
      NotTwoWays(p, root, n, a);
    }
  }

  lemma NoKids(s: Shape<Node>, n: Node, ready: (Node, bool) -> bool)
    requires Ok(s) && n in s.kids && s.kids[n] == [] && !ready(n, OpenAbove(s.parent, n))
    ensures Finds(s.parent, n, ready, NotFound)
  {
    hide Ok, OpenAbove, Finds;
    FindsNone(s, n, ready);
  }

  lemma KidsOfTree(s: Shape<Node>, root: Node, n: Node)
    requires Ok(s) && Rooted(s.parent, root) && n in s.kids
    ensures n !in s.kids[n]
  {
    hide Ok, Rooted;
    KidsOf(s, n);
    if n in s.kids[n] {
      NotBoth(s.parent, root, n, n);
    }
  }

  lemma SortedWell(s: Shape<Node>, t: Shape<Node>, n: Node, sorted: bool)
    requires n in s.kids && sorted == !SameWeight(s.kids[n])
    requires if sorted then exists z :: multiset(z) == multiset(s.kids[n]) && (Counted(s.kids[n]) ==> InOrder(z)) && t == Reordered(s, n, z)
             else t == s
    ensures n in t.kids && Arranged(s.kids[n], t.kids[n])
  {
    hide SameWeight, Counted, InOrder;
  }

  lemma SortedOnly(s: Shape<Node>, t: Shape<Node>, n: Node)
    requires n in s.kids && (t == s || exists ks :: t == Reordered(s, n, ks))
    ensures t.parent == s.parent && t.kids.Keys == s.kids.Keys && Under(s.parent, n, n)
    ensures forall x :: x in s.kids && x != n ==> t.kids[x] == s.kids[x]
  {
  }

  // ---------------------------------------------------------------- the whole tree

  ghost predicate NoneReady(p: map<Node, Node>, nodes: map<nat, Node>, ready: (Node, bool) -> bool)
    reads p.Keys`state
  {
    forall x :: x in nodes.Values + p.Keys ==> !ready(x, OpenAbove(p, x))
  }

  // Search the whole tree. It stays what it was but for the order of siblings.
  method SearchTree(ws: Scheduler, ready: (Node, bool) -> bool) returns (r: Found)
    requires ws.Valid()
    modifies ws`shape, ws.shape.kids.Keys`kids, ws.shape.kids.Keys`parent, ws.shape.kids.Keys`prev, ws.shape.kids.Keys`next
    ensures ws.Valid() && ws.shape.parent == old(ws.shape).parent && ws.shape.kids.Keys == old(ws.shape).kids.Keys
    ensures Finds(ws.shape.parent, ws.root, ready, r)
    ensures r == NotFound <==> NoneReady(ws.shape.parent, ws.nodes, ready)
    ensures Ok(old(ws.shape)) && Ok(ws.shape) && Visited(old(ws.shape), ws.shape)
    ensures r.Found? ==>
              && First(ws.shape, ws.root, ready, r.node)
              && AllArranged(old(ws.shape), ws.shape, PathTo(old(ws.shape), ws.root, r.node))
  {
    hide *;
    ws.Parts();
    ghost var s := ws.shape;
    Known(s, ws.root, ws.nodes, ws.maxID);
    RootNode(s, ws.root, ws.nodes, ws.maxID);
    ghost var t;
    OkOf(s);
    r, t := Walk(ws.root, false, ready, ws.root, s);
    OkOf(t);
    SearchedOk(s, t, ws.root, ws.nodes, ws.maxID);
    FoundInTree(t, ws.root, ws.nodes, ready, r);
    PlacedKept(s, t, ws.root, ws.closedNodes, ws.maxClosed, ws.idleNodes, ws.maxIdle);
    ws.shape := t;
    ws.Whole();
  }

  lemma RootNode(s: Shape<Node>, root: Node, nodes: map<nat, Node>, maxID: nat)
    requires TreeOk(s, root, nodes, maxID)
    ensures forall x :: x in s.kids ==> (x.id == 0 <==> x == root)
    ensures !OpenAbove(s.parent, root)
  {
  }

  lemma SearchedOk(s: Shape<Node>, t: Shape<Node>, root: Node, nodes: map<nat, Node>, maxID: nat)
    requires TreeOk(s, root, nodes, maxID) && Linked(t) && t.parent == s.parent && t.kids.Keys == s.kids.Keys
    ensures TreeOk(t, root, nodes, maxID)
  {
    hide Ok, Rooted;
    OkOf(t);
    assert forall x :: x in t.kids <==> x in t.kids.Keys;
    assert forall x :: x in s.kids <==> x in s.kids.Keys;
    ParentsInside(t.parent, root);
    StillEmpty(t, root);
  }

  lemma {:induction false} UnderRoot(p: map<Node, Node>, root: Node, x: Node, k: nat)
    requires At(p, root, x, k)
    ensures Under(p, root, x)
  {
    if k > 0 {
      UnderRoot(p, root, p[x], k - 1);
      AboveStep(p, root, x);
    }
  }

  lemma FoundInTree(s: Shape<Node>, root: Node, nodes: map<nat, Node>, ready: (Node, bool) -> bool, r: Found)
    requires Rooted(s.parent, root) && Finds(s.parent, root, ready, r) && 0 in nodes && nodes[0] == root
    requires forall id :: id in nodes ==> nodes[id] == root || nodes[id] in s.parent
    ensures r == NotFound <==> NoneReady(s.parent, nodes, ready)
    ensures r.Found? ==> r.node == root || r.node in s.parent
  {
    hide OpenAbove, At, Above;
    forall x | x in s.parent.Keys + {root}
      ensures Under(s.parent, root, x)
    {
      RootAt(s.parent, root, x);
      var k: nat :| At(s.parent, root, x, k);
      UnderRoot(s.parent, root, x, k);
    }
    assert nodes.Values + s.parent.Keys == s.parent.Keys + {root} by {
      assert nodes[0] in nodes.Values;
    }
  }
}
