/** What a sequence of write requests amounts to on the wire, however DATA is cut up. */
module Payload {
  import opened Options
  import opened Bits
  import opened WriteQueues

  // A byte of DATA, the end of a stream, a whole other frame, or the reply to a waiting sender.
  datatype Item = Octet(b: Byte) | EndStream | Frame(what: nat) | Reply(chan: nat)

  function Octets(p: Bytes): (r: seq<Item>)
    ensures |r| == |p|
  {
    seq(|p|, i requires 0 <= i < |p| => Octet(p[i]))
  }

  // The end of the stream and the reply come after all bytes.
  function Items(r: Request): seq<Item> {
    (match r.write
     case Data(p, endStream) => Octets(p) + (if endStream then [EndStream] else [])
     case Other(what) => [Frame(what)])
    + (match r.done case Some(c) => [Reply(c)] case None => [])
  }

  function Flat(rs: seq<Request>): seq<Item> {
    if rs == [] then [] else Items(rs[0]) + Flat(rs[1..])
  }

  lemma FlatNone()
    ensures Flat([]) == []
  {
  }

  lemma {:induction false} FlatConcat(a: seq<Request>, b: seq<Request>)
    ensures Flat(a + b) == Flat(a) + Flat(b)
  {
    hide Flat, Items;
    if a == [] {
      assert a + b == b;
      FlatNone();
    } else {
      FlatConcat(a[1..], b);
      assert (a + b)[1..] == a[1..] + b;
      FlatCons(a);
      FlatCons(a + b);
      Regroup(Items(a[0]), Flat(a[1..]), Flat(b));
    }
  }

  lemma FlatOne(r: Request)
    ensures Flat([r]) == Items(r)
  {
    assert [r][1..] == [];
  }

  // Cutting a DATA write changes nothing on the wire: the first part is bytes only.
  lemma CutConserves(r: Request, n: nat)
    requires r.write.Data? && n <= |r.write.p|
    ensures Items(FirstPart(r, n)) + Items(RestPart(r, n)) == Items(r)
    ensures Items(FirstPart(r, n)) == Octets(r.write.p[..n])
  {
    var p := r.write.p;
    assert Octets(p[..n]) + Octets(p[n..]) == Octets(p);
  }

  // What was sent, and then what is queued, is what was asked for.
  ghost predicate Conserved(asked: seq<Request>, sent: seq<Request>, queued: seq<Request>) {
    Flat(sent) + Flat(queued) == Flat(asked)
  }

  lemma Regroup(a: seq<Item>, b: seq<Item>, c: seq<Item>)
    ensures a + (b + c) == (a + b) + c
  {
  }

  lemma FlatCons(rs: seq<Request>)
    requires rs != []
    ensures Flat(rs) == Items(rs[0]) + Flat(rs[1..])
  {
    hide Items;
  }

  lemma PushConserves(asked: seq<Request>, sent: seq<Request>, queued: seq<Request>, r: Request)
    requires Conserved(asked, sent, queued)
    ensures Conserved(asked + [r], sent, queued + [r])
  {
    hide Flat;
    FlatConcat(asked, [r]);
    FlatConcat(queued, [r]);
    Regroup(Flat(sent), Flat(queued), Flat([r]));
  }

  // Taking the first request.
  lemma TakeConserves(asked: seq<Request>, sent: seq<Request>, queued: seq<Request>)
    requires Conserved(asked, sent, queued) && queued != []
    ensures Conserved(asked, sent + [queued[0]], queued[1..])
  {
    hide Flat, Items;
    FlatConcat(sent, [queued[0]]);
    FlatOne(queued[0]);
    FlatCons(queued);
    Regroup(Flat(sent), Items(queued[0]), Flat(queued[1..]));
  }

  // Taking the first part of it.
  lemma TakePartConserves(asked: seq<Request>, sent: seq<Request>, queued: seq<Request>, k: nat)
    requires Conserved(asked, sent, queued) && queued != []
    requires queued[0].write.Data? && k <= |queued[0].write.p|
    ensures Conserved(asked, sent + [FirstPart(queued[0], k)], queued[0 := RestPart(queued[0], k)])
  {
    hide Flat, Items, FirstPart, RestPart;
    var first, rest := FirstPart(queued[0], k), RestPart(queued[0], k);
    var queued' := queued[0 := rest];
    CutConserves(queued[0], k);
    FlatConcat(sent, [first]);
    FlatOne(first);
    FlatCons(queued);
    FlatCons(queued');
    assert queued'[1..] == queued[1..];
    Regroup(Items(first), Items(rest), Flat(queued[1..]));
    Regroup(Flat(sent), Items(first), Flat(queued'));
  }

  // Nothing queued or sent yet.
  lemma NothingConserved()
    ensures Conserved([], [], [])
  {
  }

  // The bytes of DATA among the items, in order.
  function BytesOf(items: seq<Item>): Bytes {
    if items == [] then []
    else (if items[0].Octet? then [items[0].b] else []) + BytesOf(items[1..])
  }

  function DataOf(rs: seq<Request>): Bytes {
    if rs == [] then [] else (if rs[0].write.Data? then rs[0].write.p else []) + DataOf(rs[1..])
  }

  lemma {:induction false} BytesOfConcat(a: seq<Item>, b: seq<Item>)
    ensures BytesOf(a + b) == BytesOf(a) + BytesOf(b)
  {
    if a == [] {
      assert a + b == b;
    } else {
      BytesOfConcat(a[1..], b);
      assert (a + b)[1..] == a[1..] + b;
    }
  }

  lemma {:induction false} BytesOfOctets(p: Bytes)
    ensures BytesOf(Octets(p)) == p
  {
    if p != [] {
      BytesOfOctets(p[1..]);
      assert Octets(p)[1..] == Octets(p[1..]);
    }
  }

  lemma {:induction false} BytesOfFlat(rs: seq<Request>)
    ensures BytesOf(Flat(rs)) == DataOf(rs)
  {
    hide Items;
    if rs != [] {
      BytesOfFlat(rs[1..]);
      BytesOfConcat(Items(rs[0]), Flat(rs[1..]));
      BytesOfItems(rs[0]);
    }
  }

  lemma BytesOfItems(r: Request)
    ensures BytesOf(Items(r)) == if r.write.Data? then r.write.p else []
  {
    var tail := match r.done case Some(c) => [Reply(c)] case None => [];
    match r.write
    case Data(p, endStream) =>
      var end := if endStream then [EndStream] else [];
      BytesOfConcat(Octets(p) + end, tail);
      BytesOfConcat(Octets(p), end);
      BytesOfOctets(p);
      assert BytesOf(tail) == [] && BytesOf(end) == [];
    case Other(what) =>
      BytesOfConcat([Frame(what)], tail);
      assert BytesOf(tail) == [] && BytesOf([Frame(what)]) == [];
  }

  // The DATA bytes sent, and then those queued, are those asked for, in order.
  lemma BytesConserved(asked: seq<Request>, sent: seq<Request>, queued: seq<Request>)
    requires Conserved(asked, sent, queued)
    ensures DataOf(sent) + DataOf(queued) == DataOf(asked)
  {
    BytesOfFlat(asked);
    BytesOfFlat(sent);
    BytesOfFlat(queued);
    BytesOfConcat(Flat(sent), Flat(queued));
  }
}
