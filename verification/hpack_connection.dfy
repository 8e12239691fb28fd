/** Whole connections: header blocks, cut into chunks, with table size changes in between. */
module HpackConnection {
  import opened Options
  import opened Bits
  import opened HeaderTable
  import opened DynamicTable
  import opened HpackFormat
  import opened HpackRoundTrip
  import opened HpackChunks
  import opened HpackBlocks
  import Huffman
  import HuffmanTable
  import StaticTable

  // What the owners of the two ends do. The pieces of a block arrive at the decoder with the
  // given lengths; whatever is left over arrives last. Switch turns emission on or off.
  datatype Op =
    | Switch(on: bool)
    | Resize(v: nat)
    | Limit(v: nat)
    | Block(fields: seq<Field>, cut: seq<nat>)

  datatype Conn = Conn(e: EncState, d: DecState)

  function Cut(b: Bytes, cut: seq<nat>): seq<Bytes> {
    if cut == [] then [b]
    else if cut[0] >= |b| then [b]
    else [b[..cut[0]]] + Cut(b[cut[0]..], cut[1..])
  }

  lemma {:induction false} CutJoins(b: Bytes, cut: seq<nat>)
    ensures Joined(Cut(b, cut)) == b
    decreases |cut|
  {
    if cut == [] || cut[0] >= |b| {
      assert Joined([b]) == b + Joined([]);
    } else {
      CutJoins(b[cut[0]..], cut[1..]);
      var c := Cut(b, cut);
      assert c[1..] == Cut(b[cut[0]..], cut[1..]);
    }
  }

  // A block as the decoder's owner handles it: all the chunks, then Close.
  function DecodeBlock(sh: Shared, d: DecState, chunks: seq<Bytes>): (DecState, Option<Error>)
    requires Huffman.Shaped(sh.code)
  {
    var (fd, err) := WriteChunks(sh, Feed(d, []), chunks);
    if err.Some? then (fd.st, err)
    else
      var (fd', err') := Close(fd);
      (fd'.st, err')
  }

  function Perform(sh: Shared, c: Conn, op: Op): (Conn, Option<Error>)
    requires Huffman.Shaped(sh.code)
  {
    match op
    case Switch(on) => (c.(d := c.d.(emitEnabled := on)), None)
    case Resize(v) => (c.(e := SetMaxDynamicTableSize(c.e, v)), None)
    case Limit(v) => (c.(e := SetMaxDynamicTableSizeLimit(c.e, v)), None)
    case Block(fields, cut) =>
      var (e', bytes) := EncodeBlock(sh, c.e, fields);
      var (d', err) := DecodeBlock(sh, c.d, Cut(bytes, cut));
      (Conn(e', d'), err)
  }

  // All of ops, up to the first error.
  function PerformAll(sh: Shared, c: Conn, ops: seq<Op>): (Conn, Option<Error>)
    requires Huffman.Shaped(sh.code)
    decreases |ops|
  {
    if ops == [] then (c, None)
    else
      var (c', err) := Perform(sh, c, ops[0]);
      if err.Some? then (c', err) else PerformAll(sh, c', ops[1..])
  }

  function Sent(ops: seq<Op>): seq<Field> {
    if ops == [] then []
    else (match ops[0] case Block(fields, _) => fields case _ => []) + Sent(ops[1..])
  }

  // The fields sent while emission is on.
  function Heard(ops: seq<Op>, on: bool): seq<Field> {
    if ops == [] then []
    else match ops[0]
      case Switch(on') => Heard(ops[1..], on')
      case Block(fields, _) => (if on then fields else []) + Heard(ops[1..], on)
      case _ => Heard(ops[1..], on)
  }

  // The decoder takes the size updates at the head of this block.
  predicate TakesBlock(c: Conn, fields: seq<Field>) {
    fields != [] ==> Accepts(c.d, c.e)
  }

  // No block of the run starts with a size update the decoder refuses.
  predicate AllTaken(sh: Shared, c: Conn, ops: seq<Op>)
    requires Huffman.Shaped(sh.code)
    decreases |ops|
  {
    ops == [] ||
    ((ops[0].Block? ==> TakesBlock(c, ops[0].fields)) && AllTaken(sh, Perform(sh, c, ops[0]).0, ops[1..]))
  }

  // ---------------------------------------------------------------- one block

  // The same, with the block cut into chunks and closed.
  lemma BlockRoundTrip(sh: Shared, c: Conn, fields: seq<Field>, cut: seq<nat>)
    requires Ready(sh, c.e, c.d, fields) && Huffman.Shaped(sh.code)
    requires c.d.maxStrLen <= MAX_LIMIT || cut == []
    ensures var (c', err) := Perform(sh, c, Block(fields, cut));
            if TakesBlock(c, fields) then
              && err == None
              && c'.d.emitted == Seen(c.d, fields)
              && Linked(c'.e, c'.d.dyn) && SameSettings(c.d, c'.d) && c'.d.firstField
              && (Accord(c.e, c.d.dyn) ==> Accord(c'.e, c'.d.dyn))
              && |c'.e.dyn.ents| <= |c.e.dyn.ents| + |fields|
            else err.Some? && c'.d.emitted == c.d.emitted
  {
    hide EncodeBlock, DecodeAll, Linked, Accord, Accepts, Huffman.Shaped, Huffman.WellFormed, WriteChunks, Cut, Joined;
    var (e', bytes) := EncodeBlock(sh, c.e, fields);
    CutJoins(bytes, cut);
    if cut == [] {
      OneChunk(sh, Feed(c.d, []), bytes);
    } else {
      var chunks := Cut(bytes, cut);
      forall k | 0 < k < |chunks|
        ensures !Refuses(sh, Feed(c.d, []), chunks, k)
      {
        NeverRefused(sh, c.e, c.d, fields, chunks, k);
      }
      ChunkingInvisible(sh, Feed(c.d, []), chunks);
    }
    if fields == [] {
      EmptyBlock(sh, c.e);
      assert Seen(c.d, fields) == c.d.emitted;
    } else {
      BlockDecodes(sh, c.e, c.d, fields);
      assert [] + bytes == bytes;
    }
  }

  lemma OneChunk(sh: Shared, fd: Feed, b: Bytes)
    requires Huffman.Shaped(sh.code)
    ensures WriteChunks(sh, fd, Cut(b, [])) == WriteChunk(sh, fd, b)
  {
    hide WriteChunk, Huffman.Shaped;
    assert [b][1..] == [];
  }

  // ---------------------------------------------------------------- size changes

  lemma SameSizeEvict(d: Table)
    requires d.size <= d.max
    ensures Evict(d) == d
  {
  }

  lemma ResizeLinks(e: EncState, d: Table, v: nat)
    requires Linked(e, d) && v < UINT32
    ensures Linked(SetMaxDynamicTableSize(e, v), d)
    ensures |SetMaxDynamicTableSize(e, v).dyn.ents| <= |e.dyn.ents|
  {
    hide Sized, Evict;
    var v' := if v > e.limit then e.limit else v;
    SetMaxFits(e.dyn, v');
    SuffixTrans(SetMax(e.dyn, v').ents, e.dyn.ents, d.ents);
    if v' >= e.minSize {
      SameSizeEvict(e.dyn.(max := v'));
    }
  }

  lemma LimitLinks(e: EncState, d: Table, v: nat)
    requires Linked(e, d) && v < UINT32
    ensures Linked(SetMaxDynamicTableSizeLimit(e, v), d)
    ensures |SetMaxDynamicTableSizeLimit(e, v).dyn.ents| <= |e.dyn.ents|
  {
    hide Sized, Evict;
    SetMaxFits(e.dyn, v);
    SuffixTrans(SetMax(e.dyn, v).ents, e.dyn.ents, d.ents);
    if v >= e.minSize {
      SameSizeEvict(e.dyn.(max := v));
    }
  }

  // ---------------------------------------------------------------- the whole run

  ghost predicate Legal(d: DecState, op: Op) {
    match op
    case Switch(_) => true
    case Resize(v) => v < UINT32
    case Limit(v) => v < UINT32
    case Block(fields, cut) => AllShort(d.maxStrLen, fields) && (d.maxStrLen <= MAX_LIMIT || cut == [])
  }

  ghost predicate Started(sh: Shared, c: Conn, ops: seq<Op>) {
    && Good(sh) && Linked(c.e, c.d.dyn)
    && (forall k :: 0 <= k < |ops| ==> Legal(c.d, ops[k]))
    && |sh.fixed| + |c.e.dyn.ents| + |Sent(ops)| < MAX_INDEX
  }

  lemma SentFirst(ops: seq<Op>)
    requires ops != []
    ensures ops[0].Block? ==> Sent(ops) == ops[0].fields + Sent(ops[1..])
    ensures !ops[0].Block? ==> Sent(ops) == Sent(ops[1..])
  {
  }

  lemma NothingHeard(on: bool)
    ensures Heard([], on) == []
  {
  }

  lemma HeardFirst(ops: seq<Op>, on: bool)
    requires ops != []
    ensures var on' := if ops[0].Switch? then ops[0].on else on;
            Heard(ops, on) == (if ops[0].Block? && on then ops[0].fields else []) + Heard(ops[1..], on')
  {
  }

  // One operation on linked ends.
  lemma PerformRoundTrip(sh: Shared, c: Conn, ops: seq<Op>)
    requires Started(sh, c, ops) && ops != [] && Huffman.Shaped(sh.code)
    ensures var (c', err) := Perform(sh, c, ops[0]);
            if ops[0].Block? && !TakesBlock(c, ops[0].fields) then err.Some? && c'.d.emitted == c.d.emitted
            else
              && err == None && Started(sh, c', ops[1..])
              && c'.d.maxStrLen == c.d.maxStrLen && c'.d.allowed == c.d.allowed
              && c'.d.emitEnabled == (if ops[0].Switch? then ops[0].on else c.d.emitEnabled)
              && (c.d.firstField ==> c'.d.firstField)
              && c'.d.emitted == c.d.emitted + (if ops[0].Block? && c.d.emitEnabled then ops[0].fields else [])
  {
    hide Linked, AllShort, TakesBlock, EncodeBlock, DecodeBlock, Sent, Huffman.Shaped, Huffman.WellFormed,
         SetMaxDynamicTableSize, SetMaxDynamicTableSizeLimit;
    SentFirst(ops);
    match ops[0]
    case Switch(_) =>
      assert c.d.emitted + [] == c.d.emitted;
    case Resize(v) =>
      ResizeLinks(c.e, c.d.dyn, v);
      assert c.d.emitted + [] == c.d.emitted;
    case Limit(v) =>
      LimitLinks(c.e, c.d.dyn, v);
      assert c.d.emitted + [] == c.d.emitted;
    case Block(fields, cut) =>
      BlockRoundTrip(sh, c, fields, cut);
      assert !c.d.emitEnabled ==> c.d.emitted + [] == c.d.emitted;
  }

  // A run goes through without error exactly if no size update is refused. Then the decoder
  // has emitted all the fields sent while emission was on, and the encoder's table is a suffix of the decoder's; a
  // run that stops has emitted a prefix of the fields.
  lemma {:induction false} ConnectionRoundTrip(sh: Shared, c: Conn, ops: seq<Op>)
    requires Started(sh, c, ops) && Huffman.Shaped(sh.code)
    ensures var (c', err) := PerformAll(sh, c, ops);
            && (err == None <==> AllTaken(sh, c, ops))
            && (err == None ==> c'.d.emitted == c.d.emitted + Heard(ops, c.d.emitEnabled) && Linked(c'.e, c'.d.dyn))
            && c'.d.emitted <= c.d.emitted + Heard(ops, c.d.emitEnabled)
    decreases |ops|
  {
    hide Perform, Linked, Legal, TakesBlock, Sent, Heard, Huffman.Shaped, Huffman.WellFormed;
    if ops == [] {
      NothingHeard(c.d.emitEnabled);
      assert c.d.emitted + [] == c.d.emitted;
    } else {
      PerformRoundTrip(sh, c, ops);
      HeardFirst(ops, c.d.emitEnabled);
      var (c', err) := Perform(sh, c, ops[0]);
      var first := if ops[0].Block? && c.d.emitEnabled then ops[0].fields else [];
      var more := Heard(ops[1..], if ops[0].Switch? then ops[0].on else c.d.emitEnabled);
      assert c.d.emitted + (first + more) == (c.d.emitted + first) + more;
      if err == None {
        ConnectionRoundTrip(sh, c', ops[1..]);
      }
    }
  }

  // ---------------------------------------------------------------- when updates are taken

  // At the start of a block, the decoder refuses the pending updates exactly if the current
  // size is above what it allows, or the smallest size of the gap was below the current one
  // and did not empty the table.
  lemma TakenAtBlockStart(c: Conn, fields: seq<Field>)
    requires c.d.firstField && fields != []
    ensures TakesBlock(c, fields) <==>
            (c.e.update ==>
               && c.e.dyn.max <= c.d.allowed
               && (c.e.minSize < c.e.dyn.max ==> SetMax(c.d.dyn, c.e.minSize).size == 0))
  {
    hide SetMax;
  }

  // Setting the size to 0 in a gap always empties the decoder's table.
  lemma ZeroEmpties(d: Table)
    requires Sized(d)
    ensures SetMax(d, 0).size == 0
  {
    SetMaxFits(d, 0);
  }

  // ---------------------------------------------------------------- when all goes well

  // The sizes an encoder goes through, without its table.
  datatype Sizes = Sizes(limit: nat, max: nat, min: nat, pending: bool)

  function SizesOf(e: EncState): Sizes {
    Sizes(e.limit, e.dyn.max, e.minSize, e.update)
  }

  function Follow(z: Sizes, op: Op): Sizes {
    match op
    case Resize(v) =>
      var v' := if v > z.limit then z.limit else v;
      Sizes(z.limit, v', if v' < z.min then v' else z.min, true)
    case Limit(v) => if z.max > v then Sizes(v, v, z.min, true) else z.(limit := v)
    case Block(fields, _) => if fields != [] && z.pending then z.(min := NO_MIN, pending := false) else z
    case Switch(_) => z
  }

  // In each gap between blocks the last size set is the smallest, or one of them is 0, and the
  // last is allowed.
  predicate Calm(z: Sizes, allowed: nat, ops: seq<Op>)
    decreases |ops|
  {
    ops == [] ||
    ((ops[0].Block? && ops[0].fields != [] && z.pending ==> z.max <= allowed && (z.min >= z.max || z.min == 0))
     && Calm(Follow(z, ops[0]), allowed, ops[1..]))
  }

  lemma {:induction false} BlockSizes(sh: Shared, e: EncState, fields: seq<Field>)
    requires Huffman.Shaped(sh.code) && (!e.update ==> e.minSize == NO_MIN)
    ensures var e' := EncodeBlock(sh, e, fields).0;
            SizesOf(e') == if fields != [] && e.update then SizesOf(e).(min := NO_MIN, pending := false) else SizesOf(e)
    decreases |fields|
  {
    hide Lookup, FieldBytes, UpdateBytes, Evict, Huffman.Shaped, Size;
    if fields != [] {
      SameMax(Table(e.dyn.ents + [fields[0]], (e.dyn.size + Size(fields[0])) % UINT32, e.dyn.max));
      BlockSizes(sh, WriteField(sh, e, fields[0]).0, fields[1..]);
    }
  }

  lemma {:induction false} SameMax(d: Table)
    ensures Evict(d).max == d.max
    decreases |d.ents|
  {
    if d.ents != [] && d.size > d.max {
      SameMax(DropOldest(d));
    }
  }

  lemma FollowPerform(sh: Shared, c: Conn, op: Op)
    requires Huffman.Shaped(sh.code) && Linked(c.e, c.d.dyn)
    ensures SizesOf(Perform(sh, c, op).0.e) == Follow(SizesOf(c.e), op)
  {
    hide EncodeBlock, DecodeBlock, Evict, Huffman.Shaped, Sized;
    match op
    case Resize(v) => SameMax(c.e.dyn.(max := if v > c.e.limit then c.e.limit else v));
    case Limit(v) => SameMax(c.e.dyn.(max := v));
    case Block(fields, _) => BlockSizes(sh, c.e, fields);
    case Switch(_) =>
  }

  // What can be told from the calls alone: if in each gap the last size is the smallest, or
  // one is 0, no update is refused.
  lemma {:induction false} CalmTaken(sh: Shared, c: Conn, ops: seq<Op>)
    requires Started(sh, c, ops) && Huffman.Shaped(sh.code) && c.d.firstField
    requires Calm(SizesOf(c.e), c.d.allowed, ops)
    ensures AllTaken(sh, c, ops)
    decreases |ops|
  {
    hide Perform, Linked, Legal, Accepts, Huffman.Shaped, Huffman.WellFormed, Follow, SetMax;
    if ops != [] {
      PerformRoundTrip(sh, c, ops);
      FollowPerform(sh, c, ops[0]);
      if ops[0].Block? && ops[0].fields != [] {
        TakenAtBlockStart(c, ops[0].fields);
        LinkedBoth(c);
        ZeroEmpties(c.d.dyn);
      }
      CalmTaken(sh, Perform(sh, c, ops[0]).0, ops[1..]);
    }
  }

  lemma LinkedBoth(c: Conn)
    requires Linked(c.e, c.d.dyn)
    ensures Sized(c.d.dyn)
  {
  }

  function NewEncoder(): EncState {
    EncState(Table([], 0, 4096), NO_MIN, 4096, false)
  }

  function NewDecoder(max: nat): DecState {
    DecState(Table([], 0, max), max, true, 0, true, [])
  }

  lemma NewLinked(max: nat)
    requires 4096 <= max
    ensures Linked(NewEncoder(), Table([], 0, max))
  {
  }

  // A new encoder and a new decoder with room for at least the default table, whatever the
  // owner of the encoder does.
  lemma NewConnectionRoundTrip(sh: Shared, max: nat, ops: seq<Op>)
    requires Good(sh) && Huffman.Shaped(sh.code) && 4096 <= max
    requires |sh.fixed| + |Sent(ops)| < MAX_INDEX
    requires forall k :: 0 <= k < |ops| ==> Legal(NewDecoder(max), ops[k])
    ensures var c := Conn(NewEncoder(), NewDecoder(max));
            var (c', err) := PerformAll(sh, c, ops);
            && (err == None <==> AllTaken(sh, c, ops))
            && (err == None ==> c'.d.emitted == Heard(ops, true))
  {
    hide PerformAll, AllTaken, Linked, Legal, Sent, Huffman.Shaped, Huffman.WellFormed;
    var c := Conn(NewEncoder(), NewDecoder(max));
    NewLinked(max);
    ConnectionRoundTrip(sh, c, ops);
    assert [] + Heard(ops, true) == Heard(ops, true);
  }

  // So such a connection goes well.
  lemma CalmConnection(sh: Shared, max: nat, ops: seq<Op>)
    requires Good(sh) && Huffman.Shaped(sh.code) && 4096 <= max
    requires |sh.fixed| + |Sent(ops)| < MAX_INDEX
    requires forall k :: 0 <= k < |ops| ==> Legal(NewDecoder(max), ops[k])
    requires Calm(Sizes(4096, 4096, NO_MIN, false), max, ops)
    ensures var (c', err) := PerformAll(sh, Conn(NewEncoder(), NewDecoder(max)), ops);
            err == None && c'.d.emitted == Heard(ops, true)
  {
    hide PerformAll, AllTaken, Linked, Legal, Sent, Calm, Huffman.Shaped, Huffman.WellFormed;
    NewLinked(max);
    NewConnectionRoundTrip(sh, max, ops);
    CalmTaken(sh, Conn(NewEncoder(), NewDecoder(max)), ops);
  }

  // The tables of RFC 7541.
  function RfcShared(): Shared {
    Shared(HuffmanTable.RfcTable(), StaticTable.StaticEntries())
  }

  lemma RfcGood()
    ensures Good(RfcShared()) && Huffman.Shaped(RfcShared().code) && |RfcShared().fixed| == 61
  {
    hide HuffmanTable.RfcTable;
    HuffmanTable.RfcTableWellFormed();
  }

  // ---------------------------------------------------------------- the same table at both ends

  // A size above the current one is set while a lower limit has not been heard of. The smallest
  // size of the gap is then not announced.
  predicate Raises(z: Sizes, op: Op) {
    op.Resize? && z.pending && z.max < z.min && z.max < op.v && z.max < z.limit
  }

  predicate NeverRaises(z: Sizes, ops: seq<Op>)
    decreases |ops|
  {
    ops == [] || (!Raises(z, ops[0]) && NeverRaises(Follow(z, ops[0]), ops[1..]))
  }

  // Then the ends come to differ, unless the decoder's table happens to fit into the size that
  // it does not hear of.
  lemma ResizeAccord(e: EncState, d: Table, v: nat)
    requires Linked(e, d) && Accord(e, d) && v < UINT32
    ensures var e' := SetMaxDynamicTableSize(e, v);
            Accord(e', d) <==> (Raises(SizesOf(e), Resize(v)) ==> SetMax(d, e'.minSize).size <= e.dyn.max)
  {
    hide SetMax, Sized, Suffix;
    var e' := SetMaxDynamicTableSize(e, v);
    var v', max := e'.dyn.max, e.dyn.max;
    var m := if e.minSize < max then e.minSize else max;
    ResizedTo(e, v);
    SetMaxTwice(d, m, max);
    SetMaxTwice(d, m, v');
    SetMaxTwice(d, e'.minSize, v');
    SetMaxTwice(d, e'.minSize, max);
    SetMaxFits(d, m);
    SetMaxFits(d, e'.minSize);
    OverBound(SetMax(d, m), max, v');
    if e.update && Raises(SizesOf(e), Resize(v)) && SetMax(d, e'.minSize).size <= max {
      SameSizeEvict(SetMax(d, e'.minSize).(max := max));
      SetMaxIsEvict(SetMax(d, e'.minSize), max);
    }
  }

  lemma ResizedTo(e: EncState, v: nat)
    requires Sized(e.dyn)
    ensures var v' := if v > e.limit then e.limit else v;
            var e' := SetMaxDynamicTableSize(e, v);
            && e'.update && e'.limit == e.limit && e'.minSize == (if v' < e.minSize then v' else e.minSize)
            && e'.dyn == SetMax(e.dyn, v') && e'.dyn.max == v'
  {
    hide SetMax;
    SetMaxFits(e.dyn, if v > e.limit then e.limit else v);
  }

  // The bound there was does not matter to a new one.
  lemma OverBound(d: Table, a: nat, v: nat)
    ensures SetMax(d.(max := a), v) == SetMax(d, v)
  {
  }

  lemma SetMaxIsEvict(d: Table, v: nat)
    ensures SetMax(d, v) == Evict(d.(max := v))
  {
  }

  lemma LimitAccord(e: EncState, d: Table, v: nat)
    requires Linked(e, d) && Accord(e, d) && v < UINT32
    ensures Accord(SetMaxDynamicTableSizeLimit(e, v), d)
  {
    hide SetMax, Sized, Suffix;
    if e.dyn.max > v {
      var m := if e.minSize < e.dyn.max then e.minSize else e.dyn.max;
      SetMaxFits(e.dyn, v);
      SetMaxTwice(d, m, e.dyn.max);
      SetMaxTwice(d, m, v);
      SetMaxTwice(d, if e.minSize < v then e.minSize else v, v);
      SetMaxBound(d, v);
      OverBound(SetMax(d, m), e.dyn.max, v);
    }
  }

  lemma AccordKeeps(sh: Shared, c: Conn, ops: seq<Op>)
    requires Started(sh, c, ops) && ops != [] && Huffman.Shaped(sh.code)
    requires Accord(c.e, c.d.dyn) && !Raises(SizesOf(c.e), ops[0]) && Perform(sh, c, ops[0]).1.None?
    ensures var c' := Perform(sh, c, ops[0]).0; Accord(c'.e, c'.d.dyn)
  {
    hide Linked, AllShort, TakesBlock, EncodeBlock, DecodeBlock, Sent, Huffman.Shaped, Huffman.WellFormed, Accord,
         SetMaxDynamicTableSize, SetMaxDynamicTableSizeLimit;
    match ops[0]
    case Switch(_) =>
    case Resize(v) => ResizeAccord(c.e, c.d.dyn, v);
    case Limit(v) => LimitAccord(c.e, c.d.dyn, v);
    case Block(fields, cut) =>
      SentFirst(ops);
      BlockRoundTrip(sh, c, fields, cut);
  }

  // After a run without an error both ends have the same table, entry by entry, or will have as
  // soon as the decoder has heard the updates that are pending.
  lemma {:induction false} TablesAgree(sh: Shared, c: Conn, ops: seq<Op>)
    requires Started(sh, c, ops) && Huffman.Shaped(sh.code)
    requires Accord(c.e, c.d.dyn) && NeverRaises(SizesOf(c.e), ops) && PerformAll(sh, c, ops).1.None?
    ensures var c' := PerformAll(sh, c, ops).0;
            Accord(c'.e, c'.d.dyn) && (!c'.e.update ==> c'.d.dyn == c'.e.dyn)
    decreases |ops|
  {
    hide Perform, Linked, Legal, TakesBlock, Sent, Heard, Huffman.Shaped, Huffman.WellFormed, Follow, Raises;
    if ops != [] {
      PerformRoundTrip(sh, c, ops);
      AccordKeeps(sh, c, ops);
      FollowPerform(sh, c, ops[0]);
      TablesAgree(sh, Perform(sh, c, ops[0]).0, ops[1..]);
    }
  }

  // So calm calls that never raise the size like that leave new ends with the same table.
  lemma CalmTablesAgree(sh: Shared, ops: seq<Op>)
    requires Good(sh) && Huffman.Shaped(sh.code)
    requires |sh.fixed| + |Sent(ops)| < MAX_INDEX
    requires forall k :: 0 <= k < |ops| ==> Legal(NewDecoder(4096), ops[k])
    requires Calm(Sizes(4096, 4096, NO_MIN, false), 4096, ops) && NeverRaises(Sizes(4096, 4096, NO_MIN, false), ops)
    ensures var (c', err) := PerformAll(sh, Conn(NewEncoder(), NewDecoder(4096)), ops);
            err == None && (!c'.e.update ==> c'.d.dyn == c'.e.dyn)
  {
    hide PerformAll, AllTaken, Linked, Legal, Sent, Calm, NeverRaises, Huffman.Shaped, Huffman.WellFormed;
    NewLinked(4096);
    CalmConnection(sh, 4096, ops);
    TablesAgree(sh, Conn(NewEncoder(), NewDecoder(4096)), ops);
  }

  // The limit is lowered below the size of the one entry, and limit and size are raised again:
  // the encoder has dropped the entry, and the decoder keeps it.
  lemma LimitNotHeard(f: Field)
    requires f == Field([97], [98], false)
    ensures var e := NewEncoder().(dyn := Table([f], 34, 4096));
            var d := NewDecoder(4096).(dyn := Table([f], 34, 4096));
            var e' := SetMaxDynamicTableSize(SetMaxDynamicTableSizeLimit(SetMaxDynamicTableSizeLimit(e, 33), 4096), 4096);
            Accord(e, d.dyn) && e'.dyn.ents == [] && Caught(d, e').dyn.ents == [f]
  {
    var e := NewEncoder().(dyn := Table([f], 34, 4096));
    var low := SetMaxDynamicTableSizeLimit(e, 33);
    assert Size(f) == 34 && [f][1..] == [];
    assert DropOldest(Table([f], 34, 33)) == Table([], 0, 33);
    assert Evict(Table([f], 34, 33)) == Evict(Table([], 0, 33)) == Table([], 0, 33);
    assert low == EncState(Table([], 0, 33), NO_MIN, 33, true);
    var e' := SetMaxDynamicTableSize(SetMaxDynamicTableSizeLimit(low, 4096), 4096);
    assert e' == EncState(Table([], 0, 4096), 4096, 4096, true);
  }

  // ---------------------------------------------------------------- a run that fails

  // After one field of 34 octets both tables hold just that field.
  lemma FirstBlock(sh: Shared, f: Field)
    requires Good(sh) && Huffman.Shaped(sh.code) && |sh.fixed| < 100
    requires f == Field([97], [98], false) && !Scan(sh.fixed, true, f).1
    ensures var (c, err) := Perform(sh, Conn(NewEncoder(), NewDecoder(4096)), Block([f], []));
            && err == None
            && c.e == NewEncoder().(dyn := Table([f], 34, 4096))
            && c.d == NewDecoder(4096).(dyn := Table([f], 34, 4096), emitted := [f])
  {
    hide Lookup, FieldBytes, DecodeAll, Huffman.Shaped, Huffman.WellFormed, WriteChunks, Evict, Total, Cut;
    var e, d := NewEncoder(), NewDecoder(4096);
    FirstField(sh, f);
    NewLinked(4096);
    var (e1, b) := WriteField(sh, e, f);
    assert [f][1..] == [];
    EmptyBlock(sh, e1);
    assert b + [] == b && [] + b == b;
    assert EncodeBlock(sh, e, [f]) == (e1, b);
    WriteFieldNotEmpty(sh, e, f);
    WriteFieldRoundTrip(sh, e, d, f, []);
    DecodeNothing(sh, Delivered(sh, e, d, f));
    OneChunk(sh, Feed(d, []), b);
    assert [] + [f] == [f];
  }

  lemma FirstField(sh: Shared, f: Field)
    requires f == Field([97], [98], false) && !Scan(sh.fixed, true, f).1
    ensures Indexed(sh, Table([], 0, 4096), f)
    ensures Add(Table([], 0, 4096), f) == Table([f], 34, 4096)
    ensures FieldTable(sh, Table([], 0, 4096), f) == Table([f], 34, 4096)
  {
    hide LastName, LastPair;
    ScanMeaning([], false, f);
    assert [] + [f] == [f];
  }

  // The size lowered without emptying the tables, and raised again, before another field.
  lemma SecondBlock(sh: Shared, c: Conn, f: Field)
    requires Good(sh) && Huffman.Shaped(sh.code) && |sh.fixed| < 100
    requires f == Field([97], [98], false)
    requires c.e == NewEncoder().(dyn := Table([f], 34, 4096))
    requires c.d == NewDecoder(4096).(dyn := Table([f], 34, 4096), emitted := [f])
    ensures var e' := SetMaxDynamicTableSize(SetMaxDynamicTableSize(c.e, 40), 4096);
            Perform(sh, c.(e := e'), Block([f], [])).1.Some?
  {
    hide Perform, Huffman.Shaped, Huffman.WellFormed;
    var e' := SetMaxDynamicTableSize(SetMaxDynamicTableSize(c.e, 40), 4096);
    assert e' == EncState(Table([f], 34, 4096), 40, 4096, true);
    assert Total([f]) == 34 + Total([]);
    assert Linked(e', c.d.dyn);
    assert SetMax(c.d.dyn, 40).size == 34;
    TakenAtBlockStart(c.(e := e'), [f]);
    BlockRoundTrip(sh, c.(e := e'), [f], []);
  }

  // One indexed field, the size lowered without emptying the table and raised again, and
  // another field: the second size update is refused, although every call was legal.
  lemma LowerAndRaiseFails(sh: Shared, f: Field)
    requires Good(sh) && Huffman.Shaped(sh.code) && |sh.fixed| < 100
    requires f == Field([97], [98], false) && !Scan(sh.fixed, true, f).1
    ensures var c := Conn(NewEncoder(), NewDecoder(4096));
            PerformAll(sh, c, [Block([f], []), Resize(40), Resize(4096), Block([f], [])]).1.Some?
  {
    hide EncodeBlock, DecodeBlock, SetMaxDynamicTableSize, Huffman.Shaped, Huffman.WellFormed;
    var c := Conn(NewEncoder(), NewDecoder(4096));
    var ops := [Block([f], []), Resize(40), Resize(4096), Block([f], [])];
    FirstBlock(sh, f);
    var c1 := Perform(sh, c, ops[0]).0;
    SecondBlock(sh, c1, f);
    assert ops[1..] == [Resize(40), Resize(4096), Block([f], [])];
    assert ops[1..][1..] == [Resize(4096), Block([f], [])];
    assert ops[1..][1..][1..] == [Block([f], [])];
    var c2 := c1.(e := SetMaxDynamicTableSize(c1.e, 40));
    var c3 := c2.(e := SetMaxDynamicTableSize(c2.e, 4096));
    assert PerformAll(sh, c2, ops[1..][1..]) == PerformAll(sh, c3, ops[1..][1..][1..]);
    assert PerformAll(sh, c1, ops[1..]) == PerformAll(sh, c2, ops[1..][1..]);
  }

  // With the tables of RFC 7541 the run exists: the field a: b is not in the static table.
  lemma RfcConnectionFails()
    ensures var c := Conn(NewEncoder(), NewDecoder(4096));
            var f := Field([97], [98], false);
            Huffman.Shaped(RfcShared().code) &&
            PerformAll(RfcShared(), c, [Block([f], []), Resize(40), Resize(4096), Block([f], [])]).1.Some?
  {
    hide HuffmanTable.RfcTable, StaticTable.StaticEntries, PerformAll, Huffman.Shaped, Huffman.WellFormed, Scan;
    var f := Field([97], [98], false);
    RfcGood();
    var fixed := RfcShared().fixed;
    ScanMeaning(fixed, true, f);
    var (i, exact) := Scan(fixed, true, f);
    assert i > 0 ==> EntryAt(fixed, true, i) == fixed[i - 1];
    LowerAndRaiseFails(RfcShared(), f);
  }
}
