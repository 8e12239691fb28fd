/** Opening, closing and reprioritising streams in the tree of the RFC 7540 scheduler. */
module Rfc7540Scheduler {
  import opened Sequences
  import opened TreeShapes
  import opened PriorityTree
  import opened Rfc7540

  // Closed and idle nodes stay in the tree only while they are listed.
  ghost predicate KeptOk(s: Shape<Node>, closedNodes: seq<Node>, idleNodes: seq<Node>)
    reads s.parent.Keys`state
  {
    forall n :: n in s.parent.Keys ==>
      (n.state == Closed ==> n in closedNodes) && (n.state == Idle ==> n in idleNodes)
  }

  // The nodes that must leave when n is added to a list of at most max nodes.
  function Gone(list: seq<Node>, max: nat, n: Node): seq<Node> {
    if max == 0 then [n] else if |list| == max then [list[0]] else []
  }

  ghost function ShapeWithout(s: Shape<Node>, gone: seq<Node>): Shape<Node> {
    if gone == [] then s else Spliced(s, gone[0])
  }

  function NodesWithout(nodes: map<nat, Node>, gone: seq<Node>): map<nat, Node> {
    if gone == [] then nodes else nodes - {gone[0].id}
  }

  function ListWith(list: seq<Node>, max: nat, n: Node): seq<Node> {
    if max == 0 then list else (if |list| == max then list[1..] else list) + [n]
  }

  function LastOf(s: seq<Node>, k: nat): (r: seq<Node>)
    ensures |r| == if |s| < k then |s| else k
  {
    if |s| <= k then s else s[|s| - k..]
  }

  // Of the listed nodes and the new one the last stay; the first goes if there are too many.
  lemma OldestGoes(list: seq<Node>, max: nat, n: Node)
    requires |list| <= max
    ensures ListWith(list, max, n) == LastOf(list + [n], max)
    ensures Gone(list, max, n) == if |list| < max then [] else [(list + [n])[0]]
    ensures Gone(list, max, n) + ListWith(list, max, n) == list + [n]
  {
    if |list| == max > 0 {
      assert list == [list[0]] + list[1..];
    }
  }

  lemma OldestOf(s: Shape<Node>, root: Node, list: seq<Node>, max: nat, n: Node)
    requires ListedOk(s, root, list, max)
    ensures ListWith(list, max, n) == LastOf(list + [n], max)
  {
    OldestGoes(list, max, n);
  }

  // The list, and the nodes that have left it, after some more nodes were added in turn.
  function ListAfter(list: seq<Node>, max: nat, ns: seq<Node>): seq<Node>
    decreases |ns|
  {
    if ns == [] then list else ListAfter(ListWith(list, max, ns[0]), max, ns[1..])
  }

  function GoneAfter(list: seq<Node>, max: nat, ns: seq<Node>): seq<Node>
    decreases |ns|
  {
    if ns == [] then [] else Gone(list, max, ns[0]) + GoneAfter(ListWith(list, max, ns[0]), max, ns[1..])
  }

  // The list always holds the most recent nodes in order, and nodes leave it in the order in
  // which they came.
  lemma MostRecentStay(list: seq<Node>, max: nat, ns: seq<Node>)
    requires |list| <= max
    ensures ListAfter(list, max, ns) == LastOf(list + ns, max)
    ensures GoneAfter(list, max, ns) + ListAfter(list, max, ns) == list + ns
  {
    hide *;
    InTurn(list, max, ns);
    LastIs(GoneAfter(list, max, ns), ListAfter(list, max, ns), max);
  }

  lemma LastIs(x: seq<Node>, y: seq<Node>, max: nat)
    requires |y| == if |x + y| < max then |x + y| else max
    ensures LastOf(x + y, max) == y
  {
    assert (x + y)[|x|..] == y;
  }

  lemma {:induction false} InTurn(list: seq<Node>, max: nat, ns: seq<Node>)
    requires |list| <= max
    ensures GoneAfter(list, max, ns) + ListAfter(list, max, ns) == list + ns
    ensures |ListAfter(list, max, ns)| == if |list| + |ns| < max then |list| + |ns| else max
    decreases |ns|
  {
    hide ListWith, Gone, LastOf;
    if ns == [] {
      assert list + [] == list;
    } else {
      OldestGoes(list, max, ns[0]);
      var more := ListWith(list, max, ns[0]);
      InTurn(more, max, ns[1..]);
      Regroup(list, ns, Gone(list, max, ns[0]), more, GoneAfter(more, max, ns[1..]), ListAfter(more, max, ns[1..]));
    }
  }

  lemma Regroup(list: seq<Node>, ns: seq<Node>, g: seq<Node>, more: seq<Node>, gs: seq<Node>, rest: seq<Node>)
    requires ns != [] && g + more == list + [ns[0]] && gs + rest == more + ns[1..]
    ensures g + gs + rest == list + ns
  {
    assert [ns[0]] + ns[1..] == ns;
    calc {
      g + gs + rest;
      g + (gs + rest);
      g + (more + ns[1..]);
      (g + more) + ns[1..];
      (list + [ns[0]]) + ns[1..];
      list + ([ns[0]] + ns[1..]);
    }
  }

  // n made to depend on stream dep if that is known, and on the root otherwise.
  ghost function Placed(s: Shape<Node>, root: Node, nodes: map<nat, Node>, n: Node, dep: nat, exclusive: bool): Shape<Node> {
    if dep !in nodes then Moved(s, n, root)
    else if nodes[dep] == n then s
    else Reprioritised(s, n, nodes[dep], exclusive)
  }

  // x is y or above it.
  ghost predicate OnWay(s: Shape<Node>, x: Node, y: Node) {
    x == y || Above(s.parent, x, y)
  }

  class Scheduler {
    const root: Node
    const maxClosed: nat
    const maxIdle: nat
    var nodes: map<nat, Node>
    var maxID: nat
    var closedNodes: seq<Node>
    var idleNodes: seq<Node>

    // What the links of the nodes stand for.
    ghost var shape: Shape<Node>

    ghost predicate Valid()
      reads this, shape.kids.Keys, shape.parent.Keys
    {
      && Linked(shape) && TreeOk(shape, root, nodes, maxID)
      && ListedOk(shape, root, closedNodes, maxClosed) && ListedOk(shape, root, idleNodes, maxIdle)
      && KeptOk(shape, closedNodes, idleNodes) && root.state == Open
    }

    constructor (maxClosed: nat, maxIdle: nat)
      ensures Valid() && fresh(root) && shape == Start(root) && nodes == map[0 := root] && maxID == 0
    {
      var r := new Node(0, 0, Open);
      root, this.maxClosed, this.maxIdle := r, maxClosed, maxIdle;
      nodes, maxID, closedNodes, idleNodes := map[0 := r], 0, [], [];
      shape := Start(r);
      new;
      StartOk(r);
    }

    // Add a new node under q.
    method Add(id: nat, state: NodeState, q: Node) returns (n: Node)
      requires Linked(shape) && TreeOk(shape, root, nodes, maxID) && id != 0
      requires q == root || q in shape.parent
      modifies this`nodes, this`maxID, this`shape
      modifies shape.kids.Keys`kids, shape.kids.Keys`parent, shape.kids.Keys`prev, shape.kids.Keys`next
      ensures fresh(n) && n.id == id && n.state == state && n.weight == DEFAULT_WEIGHT
      ensures shape == Moved(Grown(old(shape), n), n, q)
      ensures nodes == old(nodes)[id := n] && maxID == if id > old(maxID) then id else old(maxID)
      ensures Linked(shape) && TreeOk(shape, root, nodes, maxID)
    {
      hide Linked, TreeOk, Moved, Grown;
      n := new Node(id, DEFAULT_WEIGHT, state);
      GrownLinked(shape, n);
      NewNodeOk(shape, root, nodes, maxID, n, q, if id > maxID then id else maxID);
      GrownKeys(shape, n);
      InTree(shape, root, nodes, maxID, q);
      SetParent(n, q, Grown(shape, n));
      shape := Moved(Grown(shape, n), n, q);
      nodes := nodes[id := n];
      if id > maxID {
        maxID := id;
      }
    }

    // Take n out of the tree; its children go to its parent.
    method RemoveNode(n: Node)
      requires Linked(shape) && TreeOk(shape, root, nodes, maxID) && n in shape.kids && n != root
      modifies this`nodes, this`shape
      modifies shape.kids.Keys`kids, shape.kids.Keys`parent, shape.kids.Keys`prev, shape.kids.Keys`next
      ensures shape == Spliced(old(shape), n) && nodes == old(nodes) - {n.id}
      ensures Linked(shape) && TreeOk(shape, root, nodes, maxID)
    {
      hide *;
      ghost var s := shape;
      SplicedOk(s, root, nodes, maxID, n);
      RemoveStart(s, root, nodes, maxID, n);
      ghost var p := if n in s.parent then s.parent[n] else root;
      while n.kids != null
        invariant Linked(shape) && shape.kids.Keys == s.kids.Keys && nodes == old(nodes)
        invariant Gathered(shape, shape.kids[n], p) == Gathered(s, s.kids[n], p)
        invariant n in shape.parent <==> n in s.parent
        invariant n in shape.parent ==> shape.parent[n] == p && p !in shape.kids[n] && p != n && p in shape.kids
        invariant n !in shape.parent ==> shape == s && shape.kids[n] == []
        decreases |shape.kids[n]|
      {
        FirstKid(shape, n);
        RemoveStep(shape, n);
        ghost var c := shape.kids[n][0];
        SetParent(n.kids, n.parent, shape);
        shape := Moved(shape, c, p);
      }
      FirstKid(shape, n);
      RemoveEnd(s, shape, n, p);
      SetParent(n, null, shape);
      shape := Detached(shape, n);
      nodes := nodes - {n.id};
    }

    // Keep n in a list of at most max nodes; if it is full the oldest leaves list and tree.
    method AddClosedOrIdleNode(list: seq<Node>, max: nat, n: Node) returns (list': seq<Node>)
      requires Linked(shape) && TreeOk(shape, root, nodes, maxID) && max > 0
      requires ListedOk(shape, root, list, max) && n in shape.kids && n != root
      modifies this`nodes, this`shape
      modifies shape.kids.Keys`kids, shape.kids.Keys`parent, shape.kids.Keys`prev, shape.kids.Keys`next
      ensures Linked(shape) && TreeOk(shape, root, nodes, maxID) && list' == ListWith(list, max, n)
      ensures list' == LastOf(list + [n], max)
      ensures if |list| < max then shape == old(shape) && nodes == old(nodes)
              else shape == Spliced(old(shape), list[0]) && nodes == old(nodes) - {list[0].id}
      ensures shape == ShapeWithout(old(shape), Gone(list, max, n)) && nodes == NodesWithout(old(nodes), Gone(list, max, n))
    {
      hide Linked, TreeOk, Spliced;
      OldestGoes(list, max, n);
      if |list| == max {
        SplicedOk(shape, root, nodes, maxID, list[0]);
        RemoveNode(list[0]);
        return list[1..] + [n];
      }
      list' := list + [n];
    }

    // Panics if the stream is open or closed already.
    method OpenStream(id: nat, pusher: nat)
      requires Valid() && (id in nodes ==> nodes[id].state == Idle)
      modifies this`nodes, this`maxID, this`shape, shape.kids.Keys`kids, shape.kids.Keys`parent, shape.kids.Keys`prev, shape.kids.Keys`next
      modifies shape.parent.Keys`state
      ensures Valid() && id in nodes && nodes[id].state == Open
      ensures old(id in nodes) ==> shape == old(shape) && nodes == old(nodes)
      ensures old(id !in nodes) ==>
                var n := nodes[id];
                && fresh(n) && nodes == old(nodes)[id := n] && n.weight == DEFAULT_WEIGHT
                && shape == Moved(Grown(old(shape), n), n, if pusher in old(nodes) then old(nodes)[pusher] else root)
    {
      hide Linked, Moved, Grown, TreeOk, ListedOk;
      ghost var s := shape;
      Known(s, root, nodes, maxID);
      if id in nodes {
        nodes[id].state := Open;
        return;
      }
      var parent := if pusher in nodes then nodes[pusher] else root;
      var n := Add(id, Open, parent);
      AddedKept(s, root, closedNodes, maxClosed, idleNodes, maxIdle, n, parent);
    }

    // Panics if the stream is not open.
    method CloseStream(id: nat)
      requires Valid() && id != 0 && id in nodes && nodes[id].state == Open
      modifies this, shape.kids.Keys
      ensures Valid() && old(nodes[id]).state == Closed && old(nodes[id]).bytes == 0
      ensures closedNodes == ListWith(old(closedNodes), maxClosed, old(nodes[id]))
      ensures closedNodes == LastOf(old(closedNodes) + [old(nodes[id])], maxClosed)
      ensures var gone := Gone(old(closedNodes), maxClosed, old(nodes[id]));
              shape == ShapeWithout(old(shape), gone) && nodes == NodesWithout(old(nodes), gone)
    {
      hide Linked, TreeOk, ListedOk, Spliced, Gone, ShapeWithout, NodesWithout, ListWith, LastOf, Above;
      Known(shape, root, nodes, maxID);
      var n := nodes[id];
      OldestOf(shape, root, closedNodes, maxClosed, n);
      n.state := Closed;
      AddBytes(n, -n.bytes);
      KeepClosed(n);
      NodesLeft(old(nodes), old(closedNodes), maxClosed, n);
    }

    // n, just closed, stays in the tree as one of at most maxClosed closed nodes.
    method KeepClosed(n: Node)
      requires Linked(shape) && TreeOk(shape, root, nodes, maxID)
      requires ListedOk(shape, root, closedNodes, maxClosed) && ListedOk(shape, root, idleNodes, maxIdle)
      requires n in shape.kids && n != root && n.state == Closed && root.state == Open
      requires KeptBut(shape, closedNodes, idleNodes, n)
      modifies this`nodes, this`shape, this`closedNodes
      modifies shape.kids.Keys`kids, shape.kids.Keys`parent, shape.kids.Keys`prev, shape.kids.Keys`next
      ensures Valid() && closedNodes == ListWith(old(closedNodes), maxClosed, n)
      ensures var gone := Gone(old(closedNodes), maxClosed, n);
              shape == ShapeWithout(old(shape), gone) && nodes == NodesWithout(old(nodes), gone)
    {
      hide Linked, TreeOk, ListedOk, Spliced, Gone, ShapeWithout, NodesWithout, ListWith;
      ghost var s := shape;
      ClosedKept(s, root, nodes, maxID, closedNodes, maxClosed, idleNodes, maxIdle, n);
      if maxClosed > 0 {
        closedNodes := AddClosedOrIdleNode(closedNodes, maxClosed, n);
      } else {
        OneGone(s, nodes, n);
        RemoveNode(n);
      }
    }

    // Count bytes for n and for every node above it.
    method AddBytes(n: Node, b: int)
      requires Linked(shape) && TreeOk(shape, root, nodes, maxID) && (n == root || n in shape.parent)
      modifies shape.kids.Keys`bytes, shape.kids.Keys`subtreeBytes
      ensures n.bytes == old(n.bytes) + b
      ensures forall x :: x in shape.kids.Keys ==>
                x.subtreeBytes == old(x.subtreeBytes) + if OnWay(shape, x, n) then b else 0
    {
      hide Linked, TreeOk, OnWay, At;
      Known(shape, root, nodes, maxID);
      n.bytes := n.bytes + b;
      ghost var k := WayUp(shape, root, n);
      var x: Node? := n;
      while x != null
        invariant n.bytes == old(n.bytes) + b
        invariant x != null ==> x in shape.kids && OnWay(shape, x, n) && UpBy(shape, root, x, k)
        invariant forall y :: y in shape.kids.Keys ==>
                    y.subtreeBytes == old(y.subtreeBytes)
                      + if OnWay(shape, y, n) && !(x != null && OnWay(shape, y, x)) then b else 0
        decreases if x == null then 0 else k + 1
      {
        FirstKid(shape, x);
        ClimbStep(shape, root, n, x, k);
        x.subtreeBytes := x.subtreeBytes + b;
        x := x.parent;
        if x != null {
          k := k - 1;
        }
      }
    }

    // A priority for stream id: to depend on dep.
    method AdjustStream(id: nat, dep: nat, exclusive: bool, weight: nat)
      requires Valid() && id != 0
      modifies this, shape.kids.Keys
      ensures Valid()
      ensures closedNodes == old(closedNodes)
      ensures old(id !in nodes && (id <= maxID || maxIdle == 0)) ==>
                shape == old(shape) && nodes == old(nodes) && idleNodes == old(idleNodes)
      ensures old(id in nodes) ==>
                nodes == old(nodes) && idleNodes == old(idleNodes) && shape == Placed(old(shape), root, nodes, nodes[id], dep, exclusive)
      ensures old(id !in nodes && id > maxID && maxIdle > 0) ==>
                exists n: Node :: fresh(n) && n.id == id && idleNodes == LastOf(old(idleNodes) + [n], maxIdle) &&
                  var gone := Gone(old(idleNodes), maxIdle, n);
                  && nodes == NodesWithout(old(nodes)[id := n], gone) && id in nodes && nodes[id] == n
                  && shape == Placed(ShapeWithout(Moved(Grown(old(shape), n), n, root), gone), root, nodes, n, dep, exclusive)
      ensures id in nodes && dep in nodes && dep != id ==>
                && nodes[id] in shape.parent && shape.parent[nodes[id]] == nodes[dep] && nodes[id].weight == weight
                && nodes[dep] in shape.kids && (exclusive ==> shape.kids[nodes[dep]] == [nodes[id]])
      ensures id in nodes && dep !in nodes ==>
                nodes[id] in shape.parent && shape.parent[nodes[id]] == root && nodes[id].weight == DEFAULT_WEIGHT
    {
      hide *;
      Parts();
      Known(shape, root, nodes, maxID);
      if id !in nodes {
        if id <= maxID || maxIdle == 0 {
          return;
        }
        ghost var n := AddIdle(id);
      }
      Parts();
      Known(shape, root, nodes, maxID);
      Place(nodes[id], dep, exclusive, weight);
      Parts();
      Known(shape, root, nodes, maxID);
    }

    // A new idle node under the root, one of at most maxIdle.
    method AddIdle(id: nat) returns (ghost n: Node)
      requires Valid() && id !in nodes && id > maxID && maxIdle > 0
      modifies this`nodes, this`maxID, this`idleNodes, this`shape
      modifies shape.kids.Keys`kids, shape.kids.Keys`parent, shape.kids.Keys`prev, shape.kids.Keys`next
      ensures Valid() && fresh(n) && n.id == id && id in nodes && nodes[id] == n
      ensures idleNodes == LastOf(old(idleNodes) + [n], maxIdle)
      ensures shape.kids.Keys == old(shape).kids.Keys + {n}
      ensures var gone := Gone(old(idleNodes), maxIdle, n);
              && nodes == NodesWithout(old(nodes)[id := n], gone)
              && shape == ShapeWithout(Moved(Grown(old(shape), n), n, root), gone)
    {
      hide *;
      Parts();
      ghost var s := shape;
      Known(s, root, nodes, maxID);
      var m := Add(id, Idle, root);
      n := m;
      AddedKeys(s, m, root);
      KeepIdle(m, s);
    }

    // n, just added to tree s, stays as one of at most maxIdle idle nodes.
    method KeepIdle(n: Node, ghost s: Shape<Node>)
      requires Linked(shape) && TreeOk(shape, root, nodes, maxID) && root.state == Open && maxIdle > 0
      requires ListedOk(s, root, closedNodes, maxClosed) && ListedOk(s, root, idleNodes, maxIdle)
      requires KeptOk(s, closedNodes, idleNodes)
      requires n.state == Idle && n != root && n.id in nodes && nodes[n.id] == n && n !in s.kids
      requires shape.kids.Keys == s.kids.Keys + {n} && shape.parent.Keys == s.parent.Keys + {n}
      requires forall x :: x in s.kids ==> x.id < n.id
      modifies this`nodes, this`idleNodes, this`shape
      modifies shape.kids.Keys`kids, shape.kids.Keys`parent, shape.kids.Keys`prev, shape.kids.Keys`next
      ensures Valid() && shape.kids.Keys == old(shape).kids.Keys && n.id in nodes && nodes[n.id] == n
      ensures idleNodes == LastOf(old(idleNodes) + [n], maxIdle)
      ensures var gone := Gone(old(idleNodes), maxIdle, n);
              nodes == NodesWithout(old(nodes), gone) && shape == ShapeWithout(old(shape), gone)
    {
      hide *;
      IdleKept(s, shape, root, nodes, maxID, closedNodes, maxClosed, idleNodes, maxIdle, n);
      idleNodes := AddClosedOrIdleNode(idleNodes, maxIdle, n);
      Whole();
    }

    // Make n depend on stream dep, or on the root if that is not known.
    method Place(n: Node, dep: nat, exclusive: bool, weight: nat)
      requires Valid() && n in shape.parent
      modifies this`shape, shape.kids.Keys`kids, shape.kids.Keys`parent, shape.kids.Keys`prev, shape.kids.Keys`next, n`weight
      ensures Valid() && shape == Placed(old(shape), root, nodes, n, dep, exclusive)
      ensures n in shape.parent
      ensures dep !in nodes ==> shape.parent[n] == root && n.weight == DEFAULT_WEIGHT
      ensures dep in nodes && nodes[dep] != n ==>
                && shape.parent[n] == nodes[dep] && n.weight == weight
                && nodes[dep] in shape.kids && (exclusive ==> shape.kids[nodes[dep]] == [n])
    {
      hide *;
      Parts();
      ghost var s := shape;
      PlacedKnown(s, root, nodes, maxID, n, dep, exclusive);
      Relink(n, dep, exclusive, weight);
      PlacedKept(s, shape, root, closedNodes, maxClosed, idleNodes, maxIdle);
      Whole();
    }

    method Relink(n: Node, dep: nat, exclusive: bool, weight: nat)
      requires Linked(shape) && TreeOk(shape, root, nodes, maxID) && n in shape.parent
      modifies this`shape, shape.kids.Keys`kids, shape.kids.Keys`parent, shape.kids.Keys`prev, shape.kids.Keys`next, n`weight
      ensures Linked(shape) && shape == Placed(old(shape), root, nodes, n, dep, exclusive)
      ensures dep !in nodes ==> n.weight == DEFAULT_WEIGHT
      ensures dep in nodes && nodes[dep] != n ==> n.weight == weight
    {
      hide *;
      PlacedKnown(shape, root, nodes, maxID, n, dep, exclusive);
      if dep !in nodes {
        SetParent(n, root, shape);
        n.weight := DEFAULT_WEIGHT;
        shape := Moved(shape, n, root);
        return;
      }
      var parent := nodes[dep];
      if n == parent {
        return;
      }
      Reprioritise(n, parent, exclusive);
      n.weight := weight;
    }

    method Reprioritise(n: Node, d: Node, exclusive: bool)
      requires Linked(shape) && TreeOk(shape, root, nodes, maxID)
      requires n in shape.parent && n != d && (d == root || d in shape.parent)
      modifies this`shape, shape.kids.Keys`kids, shape.kids.Keys`parent, shape.kids.Keys`prev, shape.kids.Keys`next
      ensures Linked(shape) && shape == Reprioritised(old(shape), n, d, exclusive)
    {
      hide Linked, TreeOk, Moved, Gathered, FirstMove, Ok, Rooted, Above;
      Known(shape, root, nodes, maxID);
      FirstMoveRooted(shape, root, n, d);
      LiftAbove(n, d);
      KidsOf(shape, d);
      InKids(shape, n);
      if exclusive {
        GatheredParents(shape, shape.kids[d], n);
        Gather(n, d);
      }
      SetParent(n, d, shape);
      shape := Moved(shape, n, d);
    }

    // If d depends on n, make it depend on n's parent instead.
    method LiftAbove(n: Node, d: Node)
      requires Linked(shape) && TreeOk(shape, root, nodes, maxID)
      requires n in shape.parent && n != d && (d == root || d in shape.parent)
      modifies this`shape, shape.kids.Keys`kids, shape.kids.Keys`parent, shape.kids.Keys`prev, shape.kids.Keys`next
      ensures Linked(shape) && shape == FirstMove(old(shape), n, d)
    {
      hide Linked, TreeOk, Moved, Above, Ok, Rooted;
      Known(shape, root, nodes, maxID);
      var above := IsAbove(n, d);
      if above {
        FirstKid(shape, n);
        InKids(shape, n);
        AboveBoth(shape.parent, root, n, d);
        NotAboveItself(shape.parent, root, d);
        SetParent(d, n.parent, shape);
        shape := Moved(shape, d, shape.parent[n]);
      }
    }

    // Whether d depends on n, directly or not.
    method IsAbove(n: Node, d: Node) returns (above: bool)
      requires Linked(shape) && TreeOk(shape, root, nodes, maxID)
      requires n in shape.kids && n != d && (d == root || d in shape.parent)
      ensures above <==> Above(shape.parent, n, d)
    {
      hide Linked, TreeOk, OnWay, UpBy, Above;
      Known(shape, root, nodes, maxID);
      ghost var k := WayUp(shape, root, d);
      FirstKid(shape, d);
      ClimbStep(shape, root, d, d, k);
      OnWayAbove(shape, n, d);
      var x := d.parent;
      k := if k > 0 then k - 1 else 0;
      while x != null
        invariant x != null ==> x in shape.kids && OnWay(shape, x, d) && UpBy(shape, root, x, k)
        invariant Above(shape.parent, n, d) <==> x != null && OnWay(shape, n, x)
        decreases if x == null then 0 else k + 1
      {
        FirstKid(shape, x);
        ClimbStep(shape, root, d, x, k);
        if x == n {
          return true;
        }
        x := x.parent;
        k := if k > 0 then k - 1 else 0;
      }
      return false;
    }

    // Make the children of d, but not n, children of n.
    method Gather(n: Node, d: Node)
      requires Linked(shape) && n in shape.kids && d in shape.kids && n != d
      modifies this`shape, shape.kids.Keys`kids, shape.kids.Keys`parent, shape.kids.Keys`prev, shape.kids.Keys`next
      ensures Linked(shape) && shape == Gathered(old(shape), old(shape).kids[d], n)
    {
      hide *;
      ghost var s := shape;
      FirstKid(s, d);
      var k := d.kids;
      ghost var done: seq<Node> := [];
      ghost var rest: seq<Node> := s.kids[d];
      while k != null
        invariant Linked(shape) && shape.kids.Keys == s.kids.Keys && shape.kids[d] == done + rest
        invariant k == if rest == [] then null else rest[0]
        invariant Gathered(shape, rest, n) == Gathered(s, s.kids[d], n)
        decreases |rest|
      {
        NextKid(shape, d, done, rest);
        GatherStep(shape, d, n, done, rest);
        var next := k.next;
        if k != n {
          SetParent(k, n, shape);
          shape := Moved(shape, k, n);
        } else {
          done := done + [k];
        }
        rest := rest[1..];
        k := next;
      }
      NoneGathered(shape, n);
    }

    lemma Parts()
      requires Valid()
      ensures Linked(shape) && TreeOk(shape, root, nodes, maxID) && root.state == Open
      ensures ListedOk(shape, root, closedNodes, maxClosed) && ListedOk(shape, root, idleNodes, maxIdle)
      ensures KeptOk(shape, closedNodes, idleNodes)
    {
    }

    lemma Whole()
      requires Linked(shape) && TreeOk(shape, root, nodes, maxID) && root.state == Open
      requires ListedOk(shape, root, closedNodes, maxClosed) && ListedOk(shape, root, idleNodes, maxIdle)
      requires KeptOk(shape, closedNodes, idleNodes)
      ensures Valid()
    {
    }
  }

  // ---------------------------------------------------------------- gathering children

  lemma NoneGathered(s: Shape<Node>, n: Node)
    ensures Gathered(s, [], n) == s
  {
  }

  // rest is what is left of the children of d.
  lemma NextKid(s: Shape<Node>, d: Node, done: seq<Node>, rest: seq<Node>)
    requires Linked(s) && d in s.kids && s.kids[d] == done + rest && rest != []
    ensures Ok(s) && rest[0] in s.kids && rest[0].next == if |rest| == 1 then null else rest[1]
  {
    hide Ok;
    ListOf(s, d);
    var ks := s.kids[d];
    var i := |done|;
    assert ks[i] == rest[0] && (|rest| > 1 ==> ks[i + 1] == rest[1]);
    assert ks[i] in Members(ks);
    assert ks[i].next == if i + 1 == |ks| then null else ks[i + 1];
  }

  lemma DropAt(done: seq<Node>, rest: seq<Node>)
    requires Distinct(done + rest) && rest != []
    ensures rest[0] in done + rest && Without(done + rest, rest[0]) == done + rest[1..]
  {
    var ks := done + rest;
    assert ks[|done|] == rest[0];
    var i := IndexOf(ks, rest[0]);
    assert i == |done|;
  }

  lemma GatherStep(s: Shape<Node>, d: Node, n: Node, done: seq<Node>, rest: seq<Node>)
    requires Ok(s) && d in s.kids && n in s.kids && n != d && s.kids[d] == done + rest && rest != [] && rest[0] in s.kids
    ensures var t := Moved(s, rest[0], n);
            && t.kids.Keys == s.kids.Keys && t.kids[d] == done + rest[1..]
            && Gathered(s, rest, n) == if rest[0] == n then Gathered(s, rest[1..], n) else Gathered(t, rest[1..], n)
    ensures done + rest == (done + [rest[0]]) + rest[1..]
  {
    hide Ok, Distinct, Without, Moved;
    var c := rest[0];
    NoDupOf(s, d);
    DropAt(done, rest);
    KidsOf(s, d);
    MovedOk(s, c, n);
    MovedFrom(s, c, d, n);
  }

  lemma MovedFrom(s: Shape<Node>, c: Node, d: Node, n: Node)
    requires c in s.parent && s.parent[c] == d && d in s.kids && n != d
    ensures d in Moved(s, c, n).kids && Moved(s, c, n).kids[d] == Without(s.kids[d], c)
  {
    hide Without;
  }

  // ---------------------------------------------------------------- climbing

  ghost predicate UpBy(s: Shape<Node>, root: Node, x: Node, k: nat) {
    At(s.parent, root, x, k)
  }

  ghost function WayUp(s: Shape<Node>, root: Node, n: Node): (k: nat)
    requires Rooted(s.parent, root) && (n == root || n in s.parent)
    ensures UpBy(s, root, n, k) && OnWay(s, n, n)
  {
    RootAt(s.parent, root, n);
    var k: nat :| At(s.parent, root, n, k);
    k
  }

  // Going one step up from x, all that is left is x's parent and what is above that.
  lemma ClimbStep(s: Shape<Node>, root: Node, n: Node, x: Node, k: nat)
    requires Ok(s) && Rooted(s.parent, root) && x in s.kids && UpBy(s, root, x, k) && OnWay(s, x, n)
    ensures forall y :: y in s.kids && y != x && x !in s.parent ==> !OnWay(s, y, x)
    ensures OnWay(s, x, x)
    ensures x in s.parent ==>
              && s.parent[x] in s.kids && OnWay(s, s.parent[x], n) && k > 0 && UpBy(s, root, s.parent[x], k - 1)
              && !OnWay(s, x, s.parent[x])
              && forall y :: y in s.kids && y != x ==> (OnWay(s, y, x) <==> OnWay(s, y, s.parent[x]))
  {
    if x in s.parent {
      NotAboveItself(s.parent, root, x);
      InKids(s, x);
      forall y
        ensures Above(s.parent, y, x) <==> y == s.parent[x] || Above(s.parent, y, s.parent[x])
      {
        AboveStep(s.parent, y, x);
      }
      if x != n {
        var j: nat :| AboveBy(s.parent, x, n, j);
        AboveTrans(s.parent, x, n, j);
      }
    }
  }

  // ---------------------------------------------------------------- lists of kept nodes

  lemma Known(s: Shape<Node>, root: Node, nodes: map<nat, Node>, maxID: nat)
    requires TreeOk(s, root, nodes, maxID)
    ensures Ok(s) && root in s.kids && root !in s.parent && Rooted(s.parent, root) && 0 in nodes && nodes[0] == root
    ensures s.parent.Keys <= s.kids.Keys
    ensures forall id :: id in nodes ==>
              nodes[id] in s.kids && nodes[id].id == id && (nodes[id] == root || nodes[id] in s.parent) && (id == 0 <==> nodes[id] == root)
    ensures forall n :: n in s.kids ==> n.id <= maxID
  {
  }

  lemma AddedKept(s: Shape<Node>, root: Node, closed: seq<Node>, maxClosed: nat, idle: seq<Node>, maxIdle: nat, n: Node, q: Node)
    requires Ok(s) && KeptOk(s, closed, idle) && n.state == Open && n !in s.kids && q in s.kids
    requires ListedOk(s, root, closed, maxClosed) && ListedOk(s, root, idle, maxIdle)
    ensures var r := Moved(Grown(s, n), n, q);
            KeptOk(r, closed, idle) && ListedOk(r, root, closed, maxClosed) && ListedOk(r, root, idle, maxIdle)
  {
    hide Ok, Moved;
    AddedKeys(s, n, q);
  }

  // The lists cover the nodes other than n.
  ghost predicate KeptBut(s: Shape<Node>, closed: seq<Node>, idle: seq<Node>, n: Node)
    reads s.parent.Keys`state
  {
    forall x :: x in s.parent.Keys && x != n ==> (x.state == Closed ==> x in closed) && (x.state == Idle ==> x in idle)
  }

  lemma OneGone(s: Shape<Node>, nodes: map<nat, Node>, n: Node)
    ensures ShapeWithout(s, [n]) == Spliced(s, n) && NodesWithout(nodes, [n]) == nodes - {n.id}
  {
  }

  lemma NodesLeft(nodes: map<nat, Node>, closed: seq<Node>, max: nat, n: Node)
    ensures n.id in NodesWithout(nodes, Gone(closed, max, n)) ==> n in ListWith(closed, max, n)
    ensures forall id :: id in NodesWithout(nodes, Gone(closed, max, n)) ==>
              id in nodes && NodesWithout(nodes, Gone(closed, max, n))[id] == nodes[id]
  {
  }

  // n, just closed, is added to the list of closed nodes, and what must go is removed.
  lemma ClosedKept(s: Shape<Node>, root: Node, nodes: map<nat, Node>, maxID: nat, closed: seq<Node>, maxClosed: nat,
                   idle: seq<Node>, maxIdle: nat, n: Node)
    requires TreeOk(s, root, nodes, maxID) && ListedOk(s, root, closed, maxClosed) && ListedOk(s, root, idle, maxIdle)
    requires n in s.kids && n != root && n.state == Closed
    requires KeptBut(s, closed, idle, n)
    ensures var r := ShapeWithout(s, Gone(closed, maxClosed, n));
            var closed' := ListWith(closed, maxClosed, n);
            && r.parent.Keys <= s.parent.Keys && r.kids.Keys == s.kids.Keys
            && KeptOk(r, closed', idle) && ListedOk(r, root, closed', maxClosed) && ListedOk(r, root, idle, maxIdle)
    ensures maxClosed == 0 ==> Gone(closed, maxClosed, n) == [n] && ListWith(closed, maxClosed, n) == closed
  {
    hide TreeOk, Spliced, Gone, ListWith;
    var gone := Gone(closed, maxClosed, n);
    ListKeeps(closed, maxClosed, n);
    if gone != [] {
      SplicedOk(s, root, nodes, maxID, gone[0]);
    }
  }

  // Whatever is in the list, and n, stays in the list unless it must go.
  lemma ListKeeps(list: seq<Node>, max: nat, n: Node)
    requires |list| <= max
    ensures |ListWith(list, max, n)| <= max
    ensures forall x :: x in ListWith(list, max, n) ==> x in list || x == n
    ensures forall x :: (x in list || x == n) && Gone(list, max, n) == [] ==> x in ListWith(list, max, n)
    ensures Gone(list, max, n) != [] ==>
              && (Gone(list, max, n)[0] in list || Gone(list, max, n)[0] == n)
              && forall x :: (x in list || x == n) && x != Gone(list, max, n)[0] ==> x in ListWith(list, max, n)
    ensures max == 0 ==> Gone(list, max, n) == [n] && ListWith(list, max, n) == list
  {
    if |list| == max > 0 {
      assert list == [list[0]] + list[1..];
    }
  }

  lemma OnWayAbove(s: Shape<Node>, x: Node, y: Node)
    ensures OnWay(s, x, y) <==> x == y || Above(s.parent, x, y)
  {
  }

  lemma PlacedOk(s: Shape<Node>, root: Node, nodes: map<nat, Node>, maxID: nat, n: Node, dep: nat, exclusive: bool)
    requires TreeOk(s, root, nodes, maxID) && n in s.parent
    ensures var r := Placed(s, root, nodes, n, dep, exclusive);
            && TreeOk(r, root, nodes, maxID) && r.kids.Keys == s.kids.Keys && r.parent.Keys == s.parent.Keys
            && (dep !in nodes ==> r.parent[n] == root)
            && (dep in nodes && nodes[dep] != n ==>
                  r.parent[n] == nodes[dep] && nodes[dep] in r.kids && (exclusive ==> r.kids[nodes[dep]] == [n]))
  {
    hide TreeOk, Reprioritised, Moved, Ok;
    Known(s, root, nodes, maxID);
    if dep !in nodes {
      ToRootOk(s, root, nodes, maxID, n);
      MovedOk(s, n, root);
    } else if nodes[dep] != n {
      ReprioritisedOk(s, root, nodes, maxID, n, nodes[dep], exclusive);
      ReprioritisedTree(s, root, n, nodes[dep], exclusive);
    }
  }

  lemma PlacedKnown(s: Shape<Node>, root: Node, nodes: map<nat, Node>, maxID: nat, n: Node, dep: nat, exclusive: bool)
    requires TreeOk(s, root, nodes, maxID) && n in s.parent
    ensures root in s.kids && n in s.kids && n != root
    ensures dep in nodes ==> nodes[dep] == root || nodes[dep] in s.parent
    ensures var r := Placed(s, root, nodes, n, dep, exclusive);
            && TreeOk(r, root, nodes, maxID) && r.kids.Keys == s.kids.Keys && r.parent.Keys == s.parent.Keys
            && (dep !in nodes ==> r == Moved(s, n, root) && r.parent[n] == root)
            && (dep in nodes && nodes[dep] == n ==> r == s)
            && (dep in nodes && nodes[dep] != n ==>
                  && r == Reprioritised(s, n, nodes[dep], exclusive)
                  && r.parent[n] == nodes[dep] && nodes[dep] in r.kids && (exclusive ==> r.kids[nodes[dep]] == [n]))
  {
    hide TreeOk, Reprioritised, Moved, Ok;
    Known(s, root, nodes, maxID);
    PlacedOk(s, root, nodes, maxID, n, dep, exclusive);
  }

  lemma PlacedKept(s: Shape<Node>, r: Shape<Node>, root: Node, closed: seq<Node>, maxClosed: nat, idle: seq<Node>, maxIdle: nat)
    requires r.kids.Keys == s.kids.Keys && r.parent.Keys == s.parent.Keys
    requires KeptOk(s, closed, idle) && ListedOk(s, root, closed, maxClosed) && ListedOk(s, root, idle, maxIdle)
    ensures KeptOk(r, closed, idle) && ListedOk(r, root, closed, maxClosed) && ListedOk(r, root, idle, maxIdle)
  {
    assert forall n :: n in s.kids <==> n in s.kids.Keys;
    assert forall n :: n in r.kids <==> n in r.kids.Keys;
  }

  // n, just added to the tree as t, is added to the list of idle nodes.
  lemma IdleKept(s: Shape<Node>, t: Shape<Node>, root: Node, nodes: map<nat, Node>, maxID: nat, closed: seq<Node>, maxClosed: nat,
                 idle: seq<Node>, maxIdle: nat, n: Node)
    requires TreeOk(t, root, nodes, maxID) && ListedOk(s, root, closed, maxClosed) && ListedOk(s, root, idle, maxIdle)
    requires n !in s.kids && t.kids.Keys == s.kids.Keys + {n} && t.parent.Keys == s.parent.Keys + {n} && n.state == Idle
    requires KeptOk(s, closed, idle) && maxIdle > 0 && n != root && n.id in nodes && nodes[n.id] == n
    requires forall x :: x in s.kids ==> x.id < n.id
    ensures ListedOk(t, root, idle, maxIdle)
    ensures n.id in NodesWithout(nodes, Gone(idle, maxIdle, n)) && NodesWithout(nodes, Gone(idle, maxIdle, n))[n.id] == n
    ensures var r := ShapeWithout(t, Gone(idle, maxIdle, n));
            var idle' := ListWith(idle, maxIdle, n);
            && r.parent.Keys <= t.parent.Keys && r.kids.Keys == t.kids.Keys
            && KeptOk(r, closed, idle') && ListedOk(r, root, closed, maxClosed) && ListedOk(r, root, idle', maxIdle)
  {
    hide TreeOk, Spliced, Gone, ListWith;
    assert forall x :: x in s.kids ==> x in t.kids.Keys;
    var gone := Gone(idle, maxIdle, n);
    ListKeeps(idle, maxIdle, n);
    if gone != [] {
      IdleGoes(idle, maxIdle, n);
      SplicedOk(t, root, nodes, maxID, gone[0]);
    }
  }

  lemma IdleGoes(list: seq<Node>, max: nat, n: Node)
    requires max > 0 && Gone(list, max, n) != []
    ensures Gone(list, max, n)[0] in list
  {
  }

  lemma AddedKeys(s: Shape<Node>, n: Node, q: Node)
    requires Ok(s) && n !in s.kids && q in s.kids
    ensures var r := Moved(Grown(s, n), n, q);
            r.kids.Keys == s.kids.Keys + {n} && r.parent == s.parent[n := q]
  {
    hide Ok, Moved;
    GrownOk(s, n);
    MovedOk(Grown(s, n), n, q);
  }

  lemma FirstKid(s: Shape<Node>, n: Node)
    requires Linked(s) && n in s.kids
    ensures Ok(s) && n.kids == (if s.kids[n] == [] then null else s.kids[n][0])
    ensures n.parent == if n in s.parent then s.parent[n] else null
  {
    hide Ok, Loose;
    OkOf(s);
    if n in s.parent {
      LinksOf(s, n);
    } else {
      LooseNode(s, n);
    }
  }

  lemma LooseNode(s: Shape<Node>, n: Node)
    requires Linked(s) && n in s.kids && n !in s.parent
    ensures n.parent == null
  {
  }

  lemma RemoveStart(s: Shape<Node>, root: Node, nodes: map<nat, Node>, maxID: nat, n: Node)
    requires TreeOk(s, root, nodes, maxID) && n in s.kids && n != root
    ensures n !in s.parent ==> s.kids[n] == []
    ensures n in s.parent ==> s.parent[n] !in s.kids[n] && s.parent[n] != n && s.parent[n] in s.kids
  {
    hide Rooted;
    if n in s.parent {
      InKids(s, n);
      KidsOf(s, n);
      NotBothOf(s.parent, root, n);
    }
  }

  // The first child of n becomes a child of n's parent.
  lemma RemoveStep(s: Shape<Node>, n: Node)
    requires Ok(s) && n in s.parent && n in s.kids && s.kids[n] != []
    requires s.parent[n] !in s.kids[n] && s.parent[n] != n && s.parent[n] in s.kids
    ensures var c := s.kids[n][0];
            var p := s.parent[n];
            var t := Moved(s, c, p);
            && c in s.kids && c != p && c != n
            && t.kids.Keys == s.kids.Keys && t.kids[n] == s.kids[n][1..] && n in t.parent && t.parent[n] == p
            && Gathered(s, s.kids[n], p) == Gathered(t, t.kids[n], p)
  {
    hide Ok, Detached;
    var ks := s.kids[n];
    var c := ks[0];
    var p := s.parent[n];
    assert c in ks;
    KidsOf(s, n);
    InKids(s, c);
    MovedOk(s, c, p);
    DropFirst(s, n);
  }

  lemma DropFirst(s: Shape<Node>, n: Node)
    requires n in s.kids && s.kids[n] != [] && s.kids[n][0] in s.parent && s.parent[s.kids[n][0]] == n
    ensures Detached(s, s.kids[n][0]).kids == s.kids[n := s.kids[n][1..]]
  {
    var ks := s.kids[n];
    assert IndexOf(ks, ks[0]) == 0;
    assert Remove(ks, 0) == ks[1..];
  }

  lemma RemoveEnd(s: Shape<Node>, t: Shape<Node>, n: Node, p: Node)
    requires n in s.kids && n in t.kids && t.kids[n] == [] && (n in t.parent <==> n in s.parent)
    requires n in s.parent ==> s.parent[n] == p
    requires n !in s.parent ==> t == s
    requires Gathered(t, t.kids[n], p) == Gathered(s, s.kids[n], p)
    ensures Detached(t, n) == Spliced(s, n)
  {
  }

  lemma GrownKeys(s: Shape<Node>, n: Node)
    ensures Grown(s, n).kids.Keys == s.kids.Keys + {n} && Grown(s, n).parent == s.parent
  {
  }

  lemma GrownLinked(s: Shape<Node>, n: Node)
    requires Linked(s) && n !in s.kids && n.kids == null && Loose(n)
    ensures Linked(Grown(s, n))
  {
    hide Ok, Loose;
    OkOf(s);
    GrownOk(s, n);
  }

  lemma OkOf(s: Shape<Node>)
    requires Linked(s)
    ensures Ok(s)
  {
  }

  lemma InTree(s: Shape<Node>, root: Node, nodes: map<nat, Node>, maxID: nat, n: Node)
    requires TreeOk(s, root, nodes, maxID) && (n == root || n in s.parent)
    ensures n in s.kids && root in s.kids
  {
  }
}
