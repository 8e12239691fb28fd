/** Pop of the RFC 7540 scheduler: the search of the tree, and the queue it ends at. */
module Rfc7540Pop {
  import opened Options
  import opened Ints
  import opened WriteQueues
  import opened ReadyQueues
  import opened TreeShapes
  import opened PriorityTree
  import opened Rfc7540
  import opened Rfc7540Scheduler
  import opened Rfc7540Walk

  const THROTTLE_STEP: int := 1024

  // At most so many octets of DATA may go, if a stream above is open.
  function LimitOf(throttle: int, openParent: bool): int {
    if openParent then throttle else NO_LIMIT
  }

  // Whether something can be taken from the queue of a node.
  function CanServe(held: map<Node, seq<Request>>, w: Win, throttle: int): (Node, bool) -> bool {
    (n: Node, open: bool) => n in held && TakeFrom(w, held[n], LimitOf(throttle, open)).1.Some?
  }

  // The throttle after a node has been served. It opens while a stream below an open one is
  // served, and closes again otherwise.
  function NextThrottle(throttle: int, throttling: bool, openParent: bool): (t: int)
    requires 0 <= throttle <= MAX_INT32
    ensures 0 <= t <= MAX_INT32
  {
    if openParent then (if Wrap(throttle + THROTTLE_STEP) < 0 then MAX_INT32 else Wrap(throttle + THROTTLE_STEP))
    else if throttling then THROTTLE_STEP
    else throttle
  }

  // It opens up to the greatest limit, and no further.
  lemma ThrottleOpens(throttle: int, throttling: bool)
    requires 0 <= throttle <= MAX_INT32
    ensures NextThrottle(throttle, throttling, true) == Min(throttle + THROTTLE_STEP, MAX_INT32)
  {
  }

  ghost predicate Separate(queues: map<Node, WriteQueue>) {
    forall n, m :: n in queues && m in queues && n != m ==> queues[n] != queues[m]
  }

  // The queues hold what held says.
  ghost predicate Holds(queues: map<Node, WriteQueue>, held: map<Node, seq<Request>>)
    reads queues.Values`currQueue, queues.Values`nextQueue, queues.Values`currPos
  {
    queues.Keys == held.Keys && forall n :: n in queues ==> queues[n].Valid() && queues[n].Contents() == held[n]
  }

  ghost predicate CoveredAll(held: map<Node, seq<Request>>, w: Win) {
    forall n :: n in held ==> AllCovered(held[n], w)
  }

  // What Pop makes of the windows, the throttle and the contents of the queues: the queue of
  // the node found gives its first request, or as much of it as may go, and no node above it
  // could be served; or nothing changes as no node can be.
  datatype Outcome = Outcome(r: Option<Request>, found: Found, w: Win, throttle: int, held: map<Node, seq<Request>>)

  ghost predicate Popped(p: map<Node, Node>, root: Node, held: map<Node, seq<Request>>, w: Win, throttle: int, throttling: bool, o: Outcome)
    reads p.Keys`state
    requires 0 <= throttle <= MAX_INT32
  {
    && Finds(p, root, CanServe(held, w, throttle), o.found)
    && match o.found
       case NotFound => o == Outcome(None, NotFound, w, throttle, held)
       case Found(n, open) =>
         n in held &&
         var (rest, r) := TakeFrom(w, held[n], LimitOf(throttle, open));
         r.Some? && o == Outcome(r, o.found, Spend(w, r.value), NextThrottle(throttle, throttling, open), held[n := rest])
  }

  // The request popped is the first of the queue of the node found, or as much of it as the
  // windows, the frame size limit and, below an open stream, the throttle let through. If none is
  // popped, each queue in the tree is empty or has one of these limits used up.
  lemma PoppedMost(p: map<Node, Node>, root: Node, held: map<Node, seq<Request>>, w: Win, throttle: int, throttling: bool, o: Outcome)
    requires 0 <= throttle <= MAX_INT32 && Popped(p, root, held, w, throttle, throttling, o)
    ensures o.r.Some? <==> o.found.Found?
    ensures o.found.Found? ==>
              var n := o.found.node;
              && n in held && held[n] != []
              && Longest(w, held[n][0], LimitOf(throttle, OpenAbove(p, n)), o.r.value)
    ensures o.r.None? ==>
              forall n :: n in p.Keys + {root} && Under(p, root, n) && n in held ==>
                Stalled(w, held[n], LimitOf(throttle, OpenAbove(p, n)))
  {
    hide TakeFrom, Stalled, Longest, OpenAbove, Under, Above;
    match o.found
    case Found(n, open) =>
      TakenMost(w, held[n], LimitOf(throttle, open));
      FromQueue(w, held[n], LimitOf(throttle, open));
    case NotFound =>
      forall n | n in p.Keys + {root} && Under(p, root, n) && n in held
        ensures Stalled(w, held[n], LimitOf(throttle, OpenAbove(p, n)))
      {
        assert !CanServe(held, w, throttle)(n, OpenAbove(p, n));
        TakenMost(w, held[n], LimitOf(throttle, OpenAbove(p, n)));
      }
  }

  lemma FromQueue(w: Win, rs: seq<Request>, n: int)
    ensures TakeFrom(w, rs, n).1.Some? ==> rs != []
  {
  }

  method Pop(ws: Scheduler, queues: map<Node, WriteQueue>, ghost held: map<Node, seq<Request>>, w: Windows, throttle: int, throttling: bool)
    returns (r: Option<Request>, throttle': int, ghost o: Outcome)
    requires ws.Valid() && Separate(queues) && Holds(queues, held) && CoveredAll(held, w.State()) && 0 <= throttle <= MAX_INT32
    modifies ws`shape, ws.shape.kids.Keys`kids, ws.shape.kids.Keys`parent, ws.shape.kids.Keys`prev, ws.shape.kids.Keys`next
    modifies ws.shape.kids.Keys`bytes, ws.shape.kids.Keys`subtreeBytes
    modifies queues.Values`currQueue, queues.Values`nextQueue, queues.Values`currPos, w`conn, w`stream
    ensures ws.Valid() && ws.shape.parent == old(ws.shape).parent
    ensures Popped(ws.shape.parent, ws.root, held, old(w.State()), throttle, throttling, o)
    ensures o.found.Found? ==> First(ws.shape, ws.root, CanServe(held, old(w.State()), throttle), o.found.node)
    ensures o.r == r && o.throttle == throttle' && o.w == w.State() && Holds(queues, o.held)
    ensures r.Some? ==> o.found.Found? && forall x :: x in old(ws.shape).kids.Keys ==>
              x.subtreeBytes == old(x.subtreeBytes) + if OnWay(ws.shape, x, o.found.node) then DataSize(r.value) else 0
  {
    hide *;
    var found;
    r, throttle', found, o := PopFrame(ws, queues, held, w, throttle, throttling);
    if r.Some? {
      FoundNode(ws, held, old(w.State()), throttle, throttling, o);
      Count(ws, queues, held, old(w.State()), throttle, throttling, o, found.node, DataSize(r.value));
    }
  }

  method PopFrame(ws: Scheduler, queues: map<Node, WriteQueue>, ghost held: map<Node, seq<Request>>, w: Windows, throttle: int, throttling: bool)
    returns (r: Option<Request>, throttle': int, found: Found, ghost o: Outcome)
    requires ws.Valid() && Separate(queues) && Holds(queues, held) && CoveredAll(held, w.State()) && 0 <= throttle <= MAX_INT32
    modifies ws`shape, ws.shape.kids.Keys`kids, ws.shape.kids.Keys`parent, ws.shape.kids.Keys`prev, ws.shape.kids.Keys`next
    modifies queues.Values`currQueue, queues.Values`nextQueue, queues.Values`currPos, w`conn, w`stream
    ensures ws.Valid() && ws.shape.parent == old(ws.shape).parent && ws.shape.kids.Keys == old(ws.shape).kids.Keys
    ensures Popped(ws.shape.parent, ws.root, held, old(w.State()), throttle, throttling, o)
    ensures o.found.Found? <==> r.Some?
    ensures o.found.Found? ==> First(ws.shape, ws.root, CanServe(held, old(w.State()), throttle), o.found.node)
    ensures o.found.Found? ==> found == o.found
    ensures o.r == r && o.throttle == throttle' && o.w == w.State() && Holds(queues, o.held)
  {
    hide *;
    var contents := ContentsOf(queues, held);
    var win := w.State();
    found := Search(ws, queues, contents, win, throttle);
    if found == NotFound {
      o := Outcome(None, NotFound, win, throttle, contents);
      NothingPopped(ws.shape.parent, ws.root, contents, win, throttle, throttling);
      return None, throttle, found, o;
    }
    FoundInTree(ws, contents, win, throttle, found);
    r, throttle', o := Serve(ws, queues, held, found, w, throttle, throttling);
  }

  // The search leaves the contents of the queues alone.
  method Search(ws: Scheduler, queues: map<Node, WriteQueue>, held: map<Node, seq<Request>>, w: Win, throttle: int) returns (found: Found)
    requires ws.Valid() && Holds(queues, held)
    modifies ws`shape, ws.shape.kids.Keys`kids, ws.shape.kids.Keys`parent, ws.shape.kids.Keys`prev, ws.shape.kids.Keys`next
    ensures ws.Valid() && ws.shape.parent == old(ws.shape).parent && ws.shape.kids.Keys == old(ws.shape).kids.Keys
    ensures Finds(ws.shape.parent, ws.root, CanServe(held, w, throttle), found)
    ensures found.Found? ==> First(ws.shape, ws.root, CanServe(held, w, throttle), found.node)
    ensures Holds(queues, held)
  {
    hide *;
    found := SearchTree(ws, CanServe(held, w, throttle));
  }

  lemma NothingPopped(p: map<Node, Node>, root: Node, held: map<Node, seq<Request>>, w: Win, throttle: int, throttling: bool)
    requires 0 <= throttle <= MAX_INT32 && Finds(p, root, CanServe(held, w, throttle), NotFound)
    ensures Popped(p, root, held, w, throttle, throttling, Outcome(None, NotFound, w, throttle, held))
  {
    hide Finds;
  }

  // Serving the node found leaves the tree alone.
  method Serve(ws: Scheduler, queues: map<Node, WriteQueue>, ghost held: map<Node, seq<Request>>, found: Found, w: Windows,
               throttle: int, throttling: bool)
    returns (r: Option<Request>, throttle': int, ghost o: Outcome)
    requires ws.Valid() && Separate(queues) && Holds(queues, held) && CoveredAll(held, w.State()) && 0 <= throttle <= MAX_INT32
    requires found.Found? && Finds(ws.shape.parent, ws.root, CanServe(held, w.State(), throttle), found)
    modifies queues.Values`currQueue, queues.Values`nextQueue, queues.Values`currPos, w`conn, w`stream
    ensures ws.Valid() && Popped(ws.shape.parent, ws.root, held, old(w.State()), throttle, throttling, o) && r.Some?
    ensures o.found == found && o.r == r && o.throttle == throttle' && o.w == w.State() && Holds(queues, o.held)
  {
    hide Scheduler.Valid, Finds, TakeFrom, Spend, Wrap, CoveredAll, Separate, Holds, Windows.State;
    FoundInTree(ws, held, w.State(), throttle, found);
    ghost var rest := TakeFrom(w.State(), held[found.node], LimitOf(throttle, found.openParent)).0;
    r := ServeNode(queues, held, found.node, w, LimitOf(throttle, found.openParent));
    throttle' := NextThrottle(throttle, throttling, found.openParent);
    o := Outcome(r, found, w.State(), throttle', held[found.node := rest]);
  }

  method ContentsOf(queues: map<Node, WriteQueue>, ghost held: map<Node, seq<Request>>) returns (contents: map<Node, seq<Request>>)
    requires Holds(queues, held)
    ensures contents == held
  {
    contents := map n | n in queues :: queues[n].Contents();
  }

  method ServeNode(queues: map<Node, WriteQueue>, ghost held: map<Node, seq<Request>>, n: Node, w: Windows, limit: int)
    returns (r: Option<Request>)
    requires Separate(queues) && Holds(queues, held) && CoveredAll(held, w.State()) && n in held
    modifies queues.Values`currQueue, queues.Values`nextQueue, queues.Values`currPos, w`conn, w`stream
    ensures r == TakeFrom(old(w.State()), held[n], limit).1
    ensures Holds(queues, held[n := TakeFrom(old(w.State()), held[n], limit).0])
    ensures w.State() == if r.None? then old(w.State()) else Spend(old(w.State()), r.value)
  {
    hide TakeFrom, Spend, Covers;
    r := queues[n].Consume(w, limit);
  }

  lemma FoundInTree(ws: Scheduler, held: map<Node, seq<Request>>, w: Win, throttle: int, r: Found)
    requires Finds(ws.shape.parent, ws.root, CanServe(held, w, throttle), r) && r.Found?
    ensures r.node == ws.root || r.node in ws.shape.parent
    ensures r.node in held && TakeFrom(w, held[r.node], LimitOf(throttle, r.openParent)).1.Some?
  {
    hide TakeFrom, Above;
  }

  lemma FoundNode(ws: Scheduler, held: map<Node, seq<Request>>, w: Win, throttle: int, throttling: bool, o: Outcome)
    requires 0 <= throttle <= MAX_INT32 && Popped(ws.shape.parent, ws.root, held, w, throttle, throttling, o) && o.found.Found?
    ensures o.found.node == ws.root || o.found.node in ws.shape.parent
  {
    hide TakeFrom, Above;
  }

  // Count the bytes served for n and the nodes above it; the outcome stays what it is.
  method Count(ws: Scheduler, ghost queues: map<Node, WriteQueue>, ghost held: map<Node, seq<Request>>, ghost w: Win,
               ghost throttle: int, ghost throttling: bool, ghost o: Outcome, n: Node, b: nat)
    requires ws.Valid() && (n == ws.root || n in ws.shape.parent) && Holds(queues, o.held)
    requires 0 <= throttle <= MAX_INT32 && Popped(ws.shape.parent, ws.root, held, w, throttle, throttling, o)
    modifies ws.shape.kids.Keys`bytes, ws.shape.kids.Keys`subtreeBytes
    ensures ws.Valid() && Holds(queues, o.held) && Popped(ws.shape.parent, ws.root, held, w, throttle, throttling, o)
    ensures forall x :: x in ws.shape.kids.Keys ==>
              x.subtreeBytes == old(x.subtreeBytes) + if OnWay(ws.shape, x, n) then b else 0
  {
    hide *;
    ws.Parts();
    ws.AddBytes(n, b);
    ws.Whole();
  }
}
