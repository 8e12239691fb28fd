/** What holds over any sequence of calls of the RFC 9218 scheduler. */
module Rfc9218Runs {
  import opened Sequences
  import opened Options
  import opened WriteQueues
  import opened Rings
  import opened RingTables
  import opened ReadyQueues
  import opened Payload
  import opened Rfc9218Spec

  // Resize stands for what others do to the windows between calls.
  datatype Call =
    | Open(id: nat, options: Priority, spare: WriteQueue)
    | Close(id: nat)
    | Adjust(id: nat, p: Priority)
    | Push(r: Request)
    | Pop
    | Resize(w: Win)

  ghost predicate Legal(g: View, w: Win, c: Call) {
    match c
    case Open(id, options, q) => id !in g.streams && id in w.stream && options.urgency < 8 && Spare(g, q)
    case Close(id) => true
    case Adjust(id, p) => p.urgency < 8
    case Push(r) => DataSize(r) > 0 && r.stream.Some? ==> r.stream.value in g.streams
    case Pop => true
    case Resize(w') => w.stream.Keys <= w'.stream.Keys
  }

  lemma Shape(g: View, w: Win)
    requires Inv(g, w)
    ensures |g.rings| == 16 && g.bufferedPriority.urgency < 8
    ensures forall id :: id in g.streams ==>
              && g.streams[id].priority.urgency < 8 && ClassOf(g.streams[id].priority) < 16
              && g.streams[id].location in g.owner && g.owner[g.streams[id].location] == id
              && g.streams[id].location in g.rings[ClassOf(g.streams[id].priority)]
              && g.streams[id].location in g.held && id in g.asked && id in g.sent
              && Conserved(g.asked[id], g.sent[id], g.held[g.streams[id].location])
    ensures forall c :: 0 <= c < 16 ==> Distinct(g.rings[c])
    ensures forall c, q :: 0 <= c < 16 && q in g.rings[c] ==> q in g.owner
  {
    hide Conserved, Distinct, Apart;
  }

  ghost function Do(g: View, w: Win, c: Call): (View, Win)
    requires Inv(g, w) && Legal(g, w, c)
  {
    Shape(g, w);
    match c
    case Open(id, options, q) => (Opened(g, id, options, q), w)
    case Close(id) => (Closed(g, id), w)
    case Adjust(id, p) => (Adjusted(g, id, p), w)
    case Push(r) => (Pushed(g, r), w)
    case Pop => (Popped(g, w).0, Popped(g, w).1)
    case Resize(w') => (g, w')
  }

  lemma DoKeeps(g: View, w: Win, c: Call)
    requires Inv(g, w) && Legal(g, w, c)
    ensures var (g', w') := Do(g, w, c); Inv(g', w')
  {
    hide Consistent, RingsOk, PoolOk, ContentsOk, Opened, Closed, Adjusted, Pushed, Popped, Spare;
    Shape(g, w);
    match c
    case Open(id, options, q) => OpenedKeeps(g, w, id, options, q);
    case Close(id) => ClosedKeeps(g, w, id);
    case Adjust(id, p) => AdjustedKeeps(g, w, id, p);
    case Push(r) => PushedKeeps(g, w, r);
    case Pop => PoppedKeeps(g, w);
    case Resize(w') =>
  }

  ghost predicate LegalRun(g: View, w: Win, calls: seq<Call>)
    requires Inv(g, w)
    decreases |calls|
  {
    calls == [] ||
    (Legal(g, w, calls[0]) &&
     (DoKeeps(g, w, calls[0]);
      var (g', w') := Do(g, w, calls[0]); LegalRun(g', w', calls[1..])))
  }

  ghost function After(g: View, w: Win, calls: seq<Call>): (View, Win)
    requires Inv(g, w) && LegalRun(g, w, calls)
    decreases |calls|
  {
    if calls == [] then (g, w)
    else
      DoKeeps(g, w, calls[0]);
      var (g', w') := Do(g, w, calls[0]); After(g', w', calls[1..])
  }

  // After any legal calls, the rings hold each open stream exactly once, in the ring of its
  // recorded priority, and nothing pushed is lost.
  lemma {:induction false} RunKeeps(g: View, w: Win, calls: seq<Call>)
    requires Inv(g, w) && LegalRun(g, w, calls)
    ensures var (g', w') := After(g, w, calls); Inv(g', w')
    decreases |calls|
  {
    hide Inv, Do, Legal;
    if calls != [] {
      DoKeeps(g, w, calls[0]);
      var (g', w') := Do(g, w, calls[0]);
      RunKeeps(g', w', calls[1..]);
    }
  }

  // ---------------------------------------------------------------- what was pushed is popped, in order

  function PushedTo(calls: seq<Call>, id: nat): seq<Request> {
    if calls == [] then []
    else (if calls[0].Push? && calls[0].r.stream == Some(id) then [calls[0].r] else []) + PushedTo(calls[1..], id)
  }

  // The frames that Pop took from the queue of stream id.
  ghost function PoppedFrom(g: View, w: Win, calls: seq<Call>, id: nat): seq<Request>
    requires Inv(g, w) && LegalRun(g, w, calls)
    decreases |calls|
  {
    if calls == [] then []
    else
      DoKeeps(g, w, calls[0]);
      var (g', w') := Do(g, w, calls[0]);
      PoppedNow(g, w, calls[0], id) + PoppedFrom(g', w', calls[1..], id)
  }

  ghost function PoppedNow(g: View, w: Win, c: Call, id: nat): seq<Request>
    requires Inv(g, w)
  {
    Shape(g, w);
    var r := Popped(g, w).2;
    if StreamPop(g, c) && r.Some? && r.value.stream == Some(id) then [r.value] else []
  }

  // Pop with no control frame waiting.
  ghost predicate StreamPop(g: View, c: Call) {
    c.Pop? && Held(g.held, g.control) == []
  }

  // What one call adds to the history of an open stream.
  lemma HistoryStep(g: View, w: Win, c: Call, id: nat)
    requires Inv(g, w) && Legal(g, w, c) && id in g.streams && c != Close(id)
    ensures var (g', w') := Do(g, w, c);
            && id in g'.streams && g'.streams[id].location == g.streams[id].location
            && id in g.asked && id in g'.asked && g'.asked[id] == g.asked[id] + PushedTo([c], id)
            && id in g.sent && id in g'.sent && g'.sent[id] == g.sent[id] + PoppedNow(g, w, c, id)
  {
    hide Inv, Conserved, Distinct, Opened, Closed, Adjusted, Pushed, Popped, Spare, ClassOf, PushedTo;
    Shape(g, w);
    PushedToOne(c, id);
    match c
    case Open(other, options, q) => OpenHistory(g, other, options, q, id);
    case Close(other) => CloseHistory(g, other, id);
    case Adjust(other, p) => AdjustHistory(g, other, p, id);
    case Push(r) => PushHistory(g, r, id);
    case Pop => PopHistory(g, w, id);
    case Resize(_) =>
  }

  lemma OpenHistory(g: View, other: nat, options: Priority, q: WriteQueue, id: nat)
    requires |g.rings| == 16 && OpeningPriority(g, other, options).urgency < 8 && other != id
    requires id in g.streams && id in g.asked && id in g.sent
    ensures var g' := Opened(g, other, options, q);
            && id in g'.streams && g'.streams[id] == g.streams[id]
            && id in g'.asked && g'.asked[id] == g.asked[id] && id in g'.sent && g'.sent[id] == g.sent[id]
  {
    hide ClassOf;
  }

  lemma CloseHistory(g: View, other: nat, id: nat)
    requires |g.rings| == 16 && (other in g.streams ==> g.streams[other].priority.urgency < 8) && other != id
    requires id in g.streams && id in g.asked && id in g.sent
    ensures var g' := Closed(g, other);
            && id in g'.streams && g'.streams[id] == g.streams[id]
            && id in g'.asked && g'.asked[id] == g.asked[id] && id in g'.sent && g'.sent[id] == g.sent[id]
  {
    hide ClassOf, Without;
  }

  lemma AdjustHistory(g: View, other: nat, p: Priority, id: nat)
    requires |g.rings| == 16 && p.urgency < 8 && (other in g.streams ==> g.streams[other].priority.urgency < 8)
    requires id in g.streams && id in g.asked && id in g.sent
    ensures var g' := Adjusted(g, other, p);
            && id in g'.streams && g'.streams[id].location == g.streams[id].location
            && g'.asked == g.asked && g'.sent == g.sent
  {
    hide ClassOf, Without;
  }

  lemma PushHistory(g: View, r: Request, id: nat)
    requires id in g.streams && id in g.asked && id in g.sent
    ensures var g' := Pushed(g, r);
            && g'.streams == g.streams && g'.sent == g.sent && id in g'.asked
            && g'.asked[id] == g.asked[id] + (if r.stream == Some(id) then [r] else [])
  {
  }

  lemma PushedToOne(c: Call, id: nat)
    ensures PushedTo([c], id) == if c.Push? && c.r.stream == Some(id) then [c.r] else []
  {
    assert [c][1..] == [];
  }

  lemma PopHistory(g: View, w: Win, id: nat)
    requires Inv(g, w) && id in g.streams
    ensures |g.rings| == 16 && id in g.sent
    ensures var g' := Popped(g, w).0;
            && g'.streams == g.streams && g'.asked == g.asked && id in g'.sent
            && g'.sent[id] == g.sent[id] + PoppedNow(g, w, Pop, id)
  {
    hide Inv, FirstReady, Find, Conserved, Distinct, ClassOf, Served;
    Shape(g, w);
    if !StreamPop(g, Pop) {
      return;
    }
    var t := g.(incrementalFirst := !g.incrementalFirst);
    FindFirst(t, w, t.incrementalFirst, 0);
    match Find(t, w, t.incrementalFirst, 0)
    case Nowhere =>
    case Place(c, k) => ServedHistory(g, t, w, c, k, id);
  }

  lemma ServedHistory(g: View, t: View, w: Win, c: nat, k: nat, id: nat)
    requires Inv(g, w) && t == g.(incrementalFirst := !g.incrementalFirst) && id in g.streams
    requires c < |g.rings| == 16 && k < |g.rings[c]| && Ready(g.held, w, g.rings[c][k])
    ensures id in g.sent
    ensures var (g', w', r) := Served(t, w, c, k);
            && g'.streams == g.streams && g'.asked == g.asked && id in g'.sent && r.Some?
            && g'.sent[id] == g.sent[id] + (if r.value.stream == Some(id) then [r.value] else [])
  {
    hide Consistent, RingsOk, PoolOk, Conserved, Distinct, ClassOf, TakeFrom, Spend, Turned;
    RingOwner(g.rings, g.streams, g.owner, c, k);
    Shape(g, w);
    var q := g.rings[c][k];
    SameStream(w, g.held[q], g.owner[q]);
  }

  lemma SameStream(w: Win, rs: seq<Request>, id: nat)
    requires forall k :: 0 <= k < |rs| ==> rs[k].stream == Some(id)
    ensures TakeFrom(w, rs, NO_LIMIT).1.Some? ==> TakeFrom(w, rs, NO_LIMIT).1.value.stream == Some(id)
  {
  }

  // A DATA frame that Pop takes for a stream fits its window, that of the connection and the
  // frame size limit, and takes just its length from both windows.
  lemma PoppedFits(g: View, w: Win)
    requires Inv(g, w) && |g.rings| == 16 && Held(g.held, g.control) == []
    ensures var (g', w', r) := Popped(g, w);
            r.Some? && DataSize(r.value) > 0 ==>
              && r.value.stream.Some? && r.value.stream.value in g.streams && r.value.stream.value in w.stream
              && Fits(w, w', r.value)
  {
    hide Inv, Find, Spend, TakeFrom, Distinct, FirstReady, ClassOf, Fits, Ready;
    Shape(g, w);
    var t := g.(incrementalFirst := !g.incrementalFirst);
    FindFirst(t, w, t.incrementalFirst, 0);
    match Find(t, w, t.incrementalFirst, 0)
    case Nowhere =>
    case Place(c, k) =>
      OfStream(g, w, g.rings[c][k]);
      TakenFits(w, g.held[g.rings[c][k]], g.owner[g.rings[c][k]]);
  }

  // Pop fails if and only if the queue of every open stream is empty or has a limit used up for
  // its first frame; otherwise as much of such a frame goes as may.
  lemma PoppedMost(g: View, w: Win)
    requires Inv(g, w) && |g.rings| == 16 && Held(g.held, g.control) == []
    ensures var r := Popped(g, w).2;
            && (r.None? <==> forall id :: id in g.streams ==> Stalled(w, Held(g.held, g.streams[id].location), NO_LIMIT))
            && (r.Some? ==>
                  && r.value.stream.Some? && r.value.stream.value in g.streams
                  && var rs := Held(g.held, g.streams[r.value.stream.value].location);
                     rs != [] && Longest(w, rs[0], NO_LIMIT, r.value))
  {
    hide Inv, Find, Spend, TakeFrom, Distinct, FirstReady, ClassOf, Stalled, Longest;
    Shape(g, w);
    var t := g.(incrementalFirst := !g.incrementalFirst);
    FindFirst(t, w, t.incrementalFirst, 0);
    match Find(t, w, t.incrementalFirst, 0)
    case Nowhere =>
      forall id | id in g.streams
        ensures Stalled(w, Held(g.held, g.streams[id].location), NO_LIMIT)
      {
        ReadySeen(t, w, id);
        TakenMost(w, Held(g.held, g.streams[id].location), NO_LIMIT);
      }
    case Place(c, k) =>
      var q := g.rings[c][k];
      OfStream(g, w, q);
      OwnerStream(g, w, q);
      TakenMost(w, g.held[q], NO_LIMIT);
      TakenFrom(w, g.held[q], g.owner[q]);
  }

  lemma ReadySeen(g: View, w: Win, id: nat)
    requires |g.rings| == 16 && id in g.streams
    requires ClassOf(g.streams[id].priority) < 16 && g.streams[id].location in g.rings[ClassOf(g.streams[id].priority)]
    ensures Ready(g.held, w, g.streams[id].location) ==> HasReady(g, w, ClassOf(g.streams[id].priority))
  {
    hide ClassOf;
    var ring := g.rings[ClassOf(g.streams[id].priority)];
    var j :| 0 <= j < |ring| && ring[j] == g.streams[id].location;
  }

  lemma OwnerStream(g: View, w: Win, q: WriteQueue)
    requires Inv(g, w) && q in g.owner
    ensures g.owner[q] in g.streams && g.streams[g.owner[q]].location == q
  {
    hide Conserved, RingsOk, PoolOk;
  }

  lemma TakenFrom(w: Win, rs: seq<Request>, id: nat)
    requires forall k :: 0 <= k < |rs| ==> rs[k].stream == Some(id)
    ensures var r := TakeFrom(w, rs, NO_LIMIT).1;
            r.Some? ==> rs != [] && r.value.stream == Some(id)
  {
  }

  lemma OfStream(g: View, w: Win, q: WriteQueue)
    requires Inv(g, w) && q in g.owner
    ensures q in g.held && g.owner[q] in g.streams && g.owner[q] in w.stream
    ensures forall k :: 0 <= k < |g.held[q]| ==> g.held[q][k].stream == Some(g.owner[q])
  {
    hide Conserved, RingsOk, PoolOk;
  }

  ghost predicate NeverCloses(calls: seq<Call>, id: nat) {
    forall k :: 0 <= k < |calls| ==> calls[k] != Close(id)
  }

  // While a stream is open, its history grows by exactly what is pushed and popped.
  lemma {:induction false} RunHistory(g: View, w: Win, calls: seq<Call>, id: nat)
    requires Inv(g, w) && LegalRun(g, w, calls) && id in g.streams && NeverCloses(calls, id)
    ensures var (g', w') := After(g, w, calls);
            && id in g'.streams && g'.streams[id].location == g.streams[id].location
            && id in g.asked && id in g'.asked && g'.asked[id] == g.asked[id] + PushedTo(calls, id)
            && id in g.sent && id in g'.sent && g'.sent[id] == g.sent[id] + PoppedFrom(g, w, calls, id)
    decreases |calls|
  {
    hide *;
    HistoryUnfolds(g, w, calls, id);
    if calls == [] {
      Shape(g, w);
    } else {
      DoKeeps(g, w, calls[0]);
      HistoryStep(g, w, calls[0], id);
      var (g', w') := Do(g, w, calls[0]);
      RunHistory(g', w', calls[1..], id);
    }
  }

  lemma HistoryUnfolds(g: View, w: Win, calls: seq<Call>, id: nat)
    requires Inv(g, w) && LegalRun(g, w, calls)
    ensures calls == [] ==> After(g, w, calls) == (g, w) && PushedTo(calls, id) == [] && PoppedFrom(g, w, calls, id) == []
    ensures calls != [] ==> Legal(g, w, calls[0])
    ensures calls != [] ==>
              var (g', w') := Do(g, w, calls[0]);
              Inv(g', w') && LegalRun(g', w', calls[1..])
    ensures calls != [] ==>
              var (g', w') := Do(g, w, calls[0]);
              && After(g, w, calls) == After(g', w', calls[1..])
              && PoppedFrom(g, w, calls, id) == PoppedNow(g, w, calls[0], id) + PoppedFrom(g', w', calls[1..], id)
              && PushedTo(calls, id) == PushedTo([calls[0]], id) + PushedTo(calls[1..], id)
    ensures NeverCloses(calls, id) && calls != [] ==> calls[0] != Close(id) && NeverCloses(calls[1..], id)
  {
    hide Inv, Do, Legal, PoppedNow;
    if calls != [] {
      DoKeeps(g, w, calls[0]);
      PushedToOne(calls[0], id);
    }
  }

  // Open a stream and make any calls that do not close it. What is popped for it, followed by
  // what is still queued, is what was pushed for it: the same bytes, ends of streams, other
  // frames and replies, in the same order.
  lemma OpenStreamConserves(g: View, w: Win, id: nat, options: Priority, q: WriteQueue, calls: seq<Call>)
    requires Inv(g, w) && LegalRun(g, w, [Open(id, options, q)] + calls) && NeverCloses(calls, id)
    ensures Inv(Do(g, w, Open(id, options, q)).0, w) && LegalRun(Do(g, w, Open(id, options, q)).0, w, calls)
    ensures var start := Do(g, w, Open(id, options, q)).0;
            var end := After(start, w, calls).0;
            var popped := PoppedFrom(start, w, calls, id);
            && q in end.held
            && Flat(popped) + Flat(end.held[q]) == Flat(PushedTo(calls, id))
            && DataOf(popped) + DataOf(end.held[q]) == DataOf(PushedTo(calls, id))
  {
    hide Inv, After, PoppedFrom, PushedTo, Flat, DataOf, Conserved, Spare;
    var open := Open(id, options, q);
    var all := [open] + calls;
    assert all[0] == open && all[1..] == calls;
    DoKeeps(g, w, open);
    Shape(g, w);
    var start := Do(g, w, open).0;
    RunHistory(start, w, calls, id);
    RunKeeps(start, w, calls);
    var (end, w') := After(start, w, calls);
    Shape(end, w');
    assert start.asked[id] == [] && start.sent[id] == [] && start.streams[id].location == q;
    assert end.asked[id] == PushedTo(calls, id) && end.sent[id] == PoppedFrom(start, w, calls, id);
    BytesConserved(end.asked[id], end.sent[id], end.held[q]);
    FlatConserved(end.asked[id], end.sent[id], end.held[q]);
  }

  lemma FlatConserved(asked: seq<Request>, sent: seq<Request>, queued: seq<Request>)
    requires Conserved(asked, sent, queued)
    ensures Flat(sent) + Flat(queued) == Flat(asked)
  {
  }

  // A non-incremental stream that was served is served again by the next Pop that turns to
  // its ring, as long as it can be.
  lemma NonIncrementalGoesOn(g: View, w: Win, w': Win)
    requires Inv(g, w) && |g.rings| == 16 && Held(g.held, g.control) == []
    requires ServedPlace(g, w).Place? && ServedPlace(g, w).ring % 2 == 0
    ensures var c, k := ServedPlace(g, w).ring, ServedPlace(g, w).at;
            var g' := Popped(g, w).0;
            && |g'.rings| == 16 && |g'.rings[c]| > 0 && g'.rings[c][0] == g.rings[c][k]
            && (Ready(g'.held, w', g.rings[c][k]) && ServedPlace(g', w').Place? && ServedPlace(g', w').ring == c ==>
                  ServedPlace(g', w').at == 0)
  {
    hide Inv, Find, TakeFrom, Spend;
    var t := g.(incrementalFirst := !g.incrementalFirst);
    FindFirst(t, w, t.incrementalFirst, 0);
    var g' := Popped(g, w).0;
    var t' := g'.(incrementalFirst := !g'.incrementalFirst);
    FindFirst(t', w', t'.incrementalFirst, 0);
  }

  // ---------------------------------------------------------------- the classes take turns

  // Only a Pop that finds no control frame turns the flag.
  lemma FlagStep(g: View, w: Win, c: Call)
    requires Inv(g, w) && Legal(g, w, c)
    ensures Do(g, w, c).0.incrementalFirst == if StreamPop(g, c) then !g.incrementalFirst else g.incrementalFirst
  {
    hide Inv, Find, FirstReady, TakeFrom, Without, Spare, ClassOf;
    Shape(g, w);
  }

  ghost predicate NoStreamPop(g: View, w: Win, calls: seq<Call>)
    requires Inv(g, w) && LegalRun(g, w, calls)
    decreases |calls|
  {
    calls == [] ||
    (!StreamPop(g, calls[0]) &&
     (DoKeeps(g, w, calls[0]);
      var (g', w') := Do(g, w, calls[0]); NoStreamPop(g', w', calls[1..])))
  }

  lemma {:induction false} FlagStays(g: View, w: Win, calls: seq<Call>)
    requires Inv(g, w) && LegalRun(g, w, calls) && NoStreamPop(g, w, calls)
    ensures After(g, w, calls).0.incrementalFirst == g.incrementalFirst
    decreases |calls|
  {
    hide Inv, Do, Legal, StreamPop;
    if calls != [] {
      DoKeeps(g, w, calls[0]);
      FlagStep(g, w, calls[0]);
      var (g', w') := Do(g, w, calls[0]);
      FlagStays(g', w', calls[1..]);
    }
  }

  // A Pop would serve a stream now: urgency u is the lowest ready, in both classes.
  ghost predicate BothNow(g: View, w: Win, u: nat)
    requires Inv(g, w)
  {
    Shape(g, w);
    u < 8 && StreamPop(g, Pop) && BothReady(g, w, u)
  }

  // What Pop would return.
  ghost function Result(g: View, w: Win): Option<Request>
    requires Inv(g, w)
  {
    Shape(g, w);
    Popped(g, w).2
  }

  // r belongs to an open stream of priority p.
  ghost predicate FromStream(g: View, r: Option<Request>, p: Priority) {
    && r.Some? && r.value.stream.Some? && r.value.stream.value in g.streams
    && g.streams[r.value.stream.value].priority == p
  }

  lemma PopServesClass(g: View, w: Win, u: nat)
    requires Inv(g, w) && BothNow(g, w, u)
    ensures FromStream(g, Result(g, w), Priority(u, !g.incrementalFirst))
  {
    hide Inv, Find, FirstReady, TakeFrom, Spend, BothReady, HasReady, Turned;
    Shape(g, w);
    FindPreferred(g, w, u);
    PopServesMostUrgent(g, w);
    PlaceServes(g, w, ServedPlace(g, w).ring, ServedPlace(g, w).at);
  }

  lemma PlaceServes(g: View, w: Win, c: nat, k: nat)
    requires Inv(g, w) && c < |g.rings| == 16 && k < |g.rings[c]|
    ensures var q := g.rings[c][k];
            && q in g.owner && g.owner[q] in g.streams && ClassOf(g.streams[g.owner[q]].priority) == c
            && var r := TakeFrom(w, Held(g.held, q), NO_LIMIT).1;
               (r.Some? ==> r.value.stream == Some(g.owner[q])) && (r.Some? <==> Ready(g.held, w, q))
  {
    hide PoolOk, RingsOk, Conserved, TakeFrom;
    RingOwner(g.rings, g.streams, g.owner, c, k);
    OfStream(g, w, g.rings[c][k]);
    SameStream(w, g.held[g.rings[c][k]], g.owner[g.rings[c][k]]);
  }

  // The calls start with a Pop, and no later one looks for a stream.
  ghost predicate PopsFirst(g: View, w: Win, calls: seq<Call>)
    requires Inv(g, w) && LegalRun(g, w, calls)
  {
    calls != [] && calls[0] == Pop &&
    (DoKeeps(g, w, Pop);
     var (g', w') := Do(g, w, Pop); NoStreamPop(g', w', calls[1..]))
  }

  ghost predicate BothThen(g: View, w: Win, calls: seq<Call>, u: nat)
    requires Inv(g, w) && LegalRun(g, w, calls)
  {
    RunKeeps(g, w, calls);
    var (g', w') := After(g, w, calls); BothNow(g', w', u)
  }

  // Two successive Pops that serve streams, any other calls in between: if each finds both
  // classes of the lowest urgency ready, one serves an incremental stream of this urgency and
  // the other a non-incremental one.
  lemma PopsAlternate(g: View, w: Win, calls: seq<Call>, u: nat)
    requires Inv(g, w) && LegalRun(g, w, calls) && PopsFirst(g, w, calls)
    requires BothNow(g, w, u) && BothThen(g, w, calls, u)
    ensures var (g', w') := After(g, w, calls);
            && Inv(g', w')
            && FromStream(g, Result(g, w), Priority(u, !g.incrementalFirst))
            && FromStream(g', Result(g', w'), Priority(u, g.incrementalFirst))
  {
    hide Inv, Do, BothNow, NoStreamPop, Result, FromStream, StreamPop;
    DoKeeps(g, w, Pop);
    RunKeeps(g, w, calls);
    var (g1, w1) := Do(g, w, Pop);
    var (g2, w2) := After(g1, w1, calls[1..]);
    Turns(g, w, u);
    FlagStep(g, w, Pop);
    FlagStays(g1, w1, calls[1..]);
    PopServesClass(g, w, u);
    PopServesClass(g2, w2, u);
  }

  lemma Turns(g: View, w: Win, u: nat)
    requires Inv(g, w) && BothNow(g, w, u)
    ensures StreamPop(g, Pop)
  {
  }

  // ---------------------------------------------------------------- bounded bypass

  // The place in ring c that a call serves from, or the length of the ring.
  ghost function ServedIn(g: View, w: Win, c: nat, call: Call): nat
    requires |g.rings| == 16 && c < 16
  {
    if StreamPop(g, call) && ServedPlace(g, w).Place? && ServedPlace(g, w).ring == c then ServedPlace(g, w).at
    else |g.rings[c]|
  }

  // The stream stays in ring c, and whenever a stream of that ring is served, its own queue
  // could be, but another one is.
  ghost predicate Starved(g: View, w: Win, calls: seq<Call>, c: nat, id: nat)
    requires Inv(g, w) && LegalRun(g, w, calls) && c < 16
    decreases |calls|
  {
    calls == [] ||
    (&& id in g.streams && calls[0] != Close(id) && !(calls[0].Adjust? && calls[0].id == id)
     && (DoKeeps(g, w, calls[0]);
         Shape(g, w);
         var k := ServedIn(g, w, c, calls[0]);
         && (k < |g.rings[c]| ==> Ready(g.held, w, g.streams[id].location) && g.rings[c][k] != g.streams[id].location)
         && var (g', w') := Do(g, w, calls[0]); Starved(g', w', calls[1..], c, id)))
  }

  // How often a stream of ring c is served.
  ghost function ServedCount(g: View, w: Win, calls: seq<Call>, c: nat): nat
    requires Inv(g, w) && LegalRun(g, w, calls) && c < 16
    decreases |calls|
  {
    if calls == [] then 0
    else
      DoKeeps(g, w, calls[0]);
      Shape(g, w);
      var (g', w') := Do(g, w, calls[0]);
      (if ServedIn(g, w, c, calls[0]) < |g.rings[c]| then 1 else 0) + ServedCount(g', w', calls[1..], c)
  }

  // Among incremental streams of one urgency, one that is always ready is passed over at most
  // as often as there are streams before it, whatever opens, closes or moves meanwhile.
  lemma {:induction false} BoundedBypass(g: View, w: Win, calls: seq<Call>, id: nat)
    requires Inv(g, w) && LegalRun(g, w, calls) && id in g.streams && g.streams[id].priority.incremental
    requires ClassOf(g.streams[id].priority) < 16
    requires Starved(g, w, calls, ClassOf(g.streams[id].priority), id)
    ensures var c := ClassOf(g.streams[id].priority);
            && |g.rings| == 16 && g.streams[id].location in g.rings[c]
            && ServedCount(g, w, calls, c) <= IndexOf(g.rings[c], g.streams[id].location) < |g.rings[c]|
    decreases |calls|
  {
    hide Inv, Do, Legal, ServedIn, IndexOf, Conserved, Distinct;
    Shape(g, w);
    if calls != [] {
      DoKeeps(g, w, calls[0]);
      PositionStep(g, w, calls[0], id);
      var (g', w') := Do(g, w, calls[0]);
      BoundedBypass(g', w', calls[1..], id);
    }
  }

  // No call moves the stream back; serving another one of its ring moves it forward.
  lemma PositionStep(g: View, w: Win, call: Call, id: nat)
    requires Inv(g, w) && Legal(g, w, call) && id in g.streams && g.streams[id].priority.incremental
    requires call != Close(id) && !(call.Adjust? && call.id == id)
    requires |g.rings| == 16 && ClassOf(g.streams[id].priority) < 16
    requires var c := ClassOf(g.streams[id].priority);
             var k := ServedIn(g, w, c, call);
             k < |g.rings[c]| ==> Ready(g.held, w, g.streams[id].location) && g.rings[c][k] != g.streams[id].location
    ensures var c := ClassOf(g.streams[id].priority);
            var (g', w') := Do(g, w, call);
            && id in g'.streams && g'.streams[id] == g.streams[id] && |g'.rings| == 16
            && g.streams[id].location in g.rings[c] && g.streams[id].location in g'.rings[c]
            && IndexOf(g'.rings[c], g.streams[id].location) + (if ServedIn(g, w, c, call) < |g.rings[c]| then 1 else 0)
               <= IndexOf(g.rings[c], g.streams[id].location)
  {
    hide Inv, IndexOf, Conserved, Distinct, ClassOf, Find, Served, ServedIn, Without, Popped, Spare, Ready;
    Shape(g, w);
    var q := g.streams[id].location;
    var c := ClassOf(g.streams[id].priority);
    match call
    case Open(other, options, x) =>
      SpareIsNew(g, w, x);
      NotServed(g, w, c, call);
      IndexAppended(g.rings[c], q, x);
    case Close(other) =>
      NotServed(g, w, c, call);
      if other in g.streams {
        WithoutKeeps(g.rings[c], q, g.streams[other].location);
      }
    case Adjust(other, p) =>
      NotServed(g, w, c, call);
      if other in g.streams {
        var x := g.streams[other].location;
        WithoutKeeps(g.rings[c], q, x);
        IndexAppended(Without(g.rings[c], x), q, x);
        if ClassOf(g.streams[other].priority) != c {
          NotThere(g, w, x, c);
          IndexAppended(g.rings[c], q, x);
        }
      }
    case Push(r) =>
      NotServed(g, w, c, call);
    case Pop =>
      PopPosition(g, w, id);
    case Resize(_) =>
      NotServed(g, w, c, call);
  }

  lemma NotServed(g: View, w: Win, c: nat, call: Call)
    requires |g.rings| == 16 && c < 16 && !call.Pop?
    ensures ServedIn(g, w, c, call) == |g.rings[c]|
  {
  }

  lemma NotThere(g: View, w: Win, x: WriteQueue, c: nat)
    requires Inv(g, w) && c < |g.rings| == 16 && x in g.owner && g.owner[x] in g.streams
    requires ClassOf(g.streams[g.owner[x]].priority) != c
    ensures x !in g.rings[c]
  {
    hide PoolOk, ContentsOk, RingsOk;
  }

  lemma WithoutKeeps(ring: seq<WriteQueue>, q: WriteQueue, x: WriteQueue)
    requires Distinct(ring) && q in ring && x != q
    ensures q in Without(ring, x) && x !in Without(ring, x) && Distinct(Without(ring, x))
    ensures IndexOf(Without(ring, x), q) <= IndexOf(ring, q)
  {
    hide Distinct, IndexOf;
    WithoutMembers(ring, x);
    if x in ring {
      IndexWithout(ring, q, x);
    }
  }

  lemma PopPosition(g: View, w: Win, id: nat)
    requires Inv(g, w) && id in g.streams && g.streams[id].priority.incremental
    requires |g.rings| == 16 && ClassOf(g.streams[id].priority) < 16
    requires var c := ClassOf(g.streams[id].priority);
             var k := ServedIn(g, w, c, Pop);
             k < |g.rings[c]| ==> Ready(g.held, w, g.streams[id].location) && g.rings[c][k] != g.streams[id].location
    ensures var c := ClassOf(g.streams[id].priority);
            var g' := Popped(g, w).0;
            && id in g'.streams && g'.streams[id] == g.streams[id] && |g'.rings| == 16
            && g.streams[id].location in g.rings[c] && g.streams[id].location in g'.rings[c]
            && IndexOf(g'.rings[c], g.streams[id].location) + (if ServedIn(g, w, c, Pop) < |g.rings[c]| then 1 else 0)
               <= IndexOf(g.rings[c], g.streams[id].location)
  {
    hide Inv, IndexOf, Conserved, Distinct, Find, TakeFrom, Spend, Rotate, Succ;
    Shape(g, w);
    var q := g.streams[id].location;
    var c := ClassOf(g.streams[id].priority);
    if StreamPop(g, Pop) {
      var t := g.(incrementalFirst := !g.incrementalFirst);
      FindFirst(t, w, t.incrementalFirst, 0);
      match Find(t, w, t.incrementalFirst, 0)
      case Nowhere =>
      case Place(d, k) =>
        if d == c {
          assert ServedIn(g, w, c, Pop) == k;
          assert g.rings[c][IndexOf(g.rings[c], q)] == q;
          IndexTurned(g.rings[c], q, k);
        }
    }
  }
}
