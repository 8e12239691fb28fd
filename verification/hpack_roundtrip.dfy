/**
 * Encoder and decoder undo each other over a whole connection, exactly as long as the decoder
 * does not refuse one of the encoder's table size updates.
 */
module HpackRoundTrip {
  import opened Options
  import opened Bits
  import opened HeaderTable
  import opened DynamicTable
  import opened HpackFormat
  import Huffman
  import HuffmanDecode
  import Varint

  const MAX_INDEX: nat := 0x4000_0000_0000_0000

  lemma Pow2Value63()
    ensures Pow2(63) == 0x8000_0000_0000_0000
  {
    Pow2Value64();
  }

  // ---------------------------------------------------------------- one string, one index

  // A string of this many octets is within the decoder's limit.
  predicate Short(maxStrLen: nat, n: nat) {
    n < Huffman.MAX_STRING && (maxStrLen == 0 || n <= maxStrLen)
  }

  lemma Flagged7Reads(i: nat, tail: Bytes)
    requires i < MAX_INDEX
    ensures var p := Flagged7(i) + tail;
            p != [] && p[0] >= 128 && Varint.ReadVarInt(7, p) == Varint.Parsed(i, tail)
  {
    hide Varint.VarInt, Varint.ReadVarInt, Pow2, Flagged7;
    Pow2Values();
    Pow2Value63();
    Flagged7Is(i);
    Varint.FlagsIgnored(0x80, 7, i, tail);
    Varint.VarIntRoundTrip(7, i, tail);
  }

  lemma Flagged7Is(i: nat)
    ensures Pow2(7) == 128 && Flagged7(i) == Varint.Flagged(0x80, 7, i)
  {
  }

  lemma RawString(sh: Shared, maxStrLen: nat, s: Bytes, tail: Bytes)
    requires Short(maxStrLen, |s|)
    ensures ReadString(maxStrLen, Varint.VarInt(7, |s|) + s + tail) == Str(false, s, tail)
  {
    hide Varint.VarInt, Varint.ReadVarInt, Pow2;
    Pow2Values();
    Pow2Value63();
    var v := Varint.VarInt(7, |s|);
    var p := v + s + tail;
    assert p == v + (s + tail);
    Varint.VarIntRoundTrip(7, |s|, s + tail);
    assert p[0] == v[0];
    assert (s + tail)[..|s|] == s && (s + tail)[|s|..] == tail;
  }

  lemma CodedString(maxStrLen: nat, h: Bytes, tail: Bytes)
    requires Short(maxStrLen, |h|)
    ensures ReadString(maxStrLen, Flagged7(|h|) + h + tail) == Str(true, h, tail)
  {
    hide Flagged7, Varint.ReadVarInt, Pow2;
    var p := Flagged7(|h|) + h + tail;
    assert p == Flagged7(|h|) + (h + tail);
    Flagged7Reads(|h|, h + tail);
    assert (h + tail)[..|h|] == h && (h + tail)[|h|..] == tail;
  }

  // What appendHpackString writes, readString and decodeString read.
  lemma StringRoundTrip(sh: Shared, maxStrLen: nat, s: Bytes, tail: Bytes)
    requires Good(sh) && Short(maxStrLen, |s|)
    ensures var r := ReadString(maxStrLen, StringBytes(sh, s) + tail);
            r.Str? && r.rest == tail && DecodeText(sh, maxStrLen, r.isHuff, r.raw) == Text(s)
  {
    hide Huffman.HuffmanString, ReadString, Huffman.WellFormed, Flagged7;
    GoodShape(sh);
    var h := Huffman.HuffmanString(sh.code, s);
    if |h| < |s| {
      CodedString(maxStrLen, h, tail);
      HuffmanDecode.DecodeOfEncode(sh.code, maxStrLen, s);
    } else {
      RawString(sh, maxStrLen, s, tail);
    }
  }

  // The shorter of the two codings is sent, the plain one if they are equally long.
  lemma StringShortest(sh: Shared, s: Bytes)
    requires Huffman.Shaped(sh.code)
    ensures var plain, coded := |s|, |Huffman.HuffmanString(sh.code, s)|;
            var n := if coded < plain then coded else plain;
            && |StringBytes(sh, s)| == |Varint.VarInt(7, n)| + n
            && (StringBytes(sh, s)[0] >= 128 <==> coded < plain)
  {
    hide Huffman.HuffmanString, Huffman.Shaped;
    Pow2Values();
  }

  lemma GoodShape(sh: Shared)
    requires Good(sh)
    ensures Huffman.Shaped(sh.code)
  {
  }

  // ---------------------------------------------------------------- lookups agree

  // The encoder's newest entries are the decoder's, so both give an index the same meaning.
  lemma SameEntry(sh: Shared, e: seq<Field>, d: seq<Field>, i: nat)
    requires Suffix(e, d) && 1 <= i <= |sh.fixed| + |e|
    ensures At(sh, d, i) == At(sh, e, i) && At(sh, e, i).Some?
  {
  }

  lemma LookupMeaning(sh: Shared, ents: seq<Field>, f: Field)
    ensures var (i, exact) := Lookup(sh, ents, f);
            && i <= |sh.fixed| + |ents|
            && (exact ==> i > 0)
            && (i > 0 ==> At(sh, ents, i).Some? && At(sh, ents, i).value.name == f.name)
            && (exact ==> !f.sensitive && At(sh, ents, i).value.value == f.value)
  {
    hide Scan;
    ScanMeaning(sh.fixed, true, f);
    ScanMeaning(ents, false, f);
  }

  // ---------------------------------------------------------------- lookups find

  predicate SameName(g: Field, f: Field) {
    g.name == f.name
  }

  predicate SamePair(g: Field, f: Field) {
    g.name == f.name && g.value == f.value
  }

  // Index i beats every other index e: any of the static table beats any of the dynamic one; in
  // both the newest entry wins, which is the last of the static and the first of the dynamic.
  predicate Beats(sh: Shared, i: nat, e: nat) {
    if i <= |sh.fixed| then e <= i || e > |sh.fixed| else e >= i
  }

  ghost predicate Named(sh: Shared, ents: seq<Field>, f: Field) {
    exists g :: g in sh.fixed + ents && SameName(g, f)
  }

  ghost predicate Present(sh: Shared, ents: seq<Field>, f: Field) {
    exists g :: g in sh.fixed + ents && SamePair(g, f)
  }

  // Whatever the tables hold is found: an exact match of a field that is not sensitive in
  // either table, else an entry of that name; and of several, the one that beats the others.
  lemma LookupFinds(sh: Shared, ents: seq<Field>, f: Field)
    ensures var (i, exact) := Lookup(sh, ents, f);
            && (exact <==> !f.sensitive && Present(sh, ents, f))
            && (i > 0 <==> Named(sh, ents, f))
            && (i > 0 ==> forall e: nat :: 1 <= e <= |sh.fixed| + |ents| ==>
                  var g := At(sh, ents, e).value;
                  (if exact then SamePair(g, f) else SameName(g, f)) ==> Beats(sh, i, e))
  {
    hide Scan;
    ScanMeaning(sh.fixed, true, f);
    ScanMeaning(ents, false, f);
    var (i, exact) := Lookup(sh, ents, f);
    LookupMeaning(sh, ents, f);
    if i > 0 {
      AtMember(sh, ents, i);
    }
    assert Named(sh, ents, f) ==> i > 0 by {
      if g :| g in sh.fixed + ents && SameName(g, f) {
        var e := MemberAt(sh, ents, g);
      }
    }
    assert !f.sensitive && Present(sh, ents, f) ==> exact by {
      if g :| g in sh.fixed + ents && SamePair(g, f) {
        var e := MemberAt(sh, ents, g);
      }
    }
    forall e: nat | 1 <= e <= |sh.fixed| + |ents|
      ensures At(sh, ents, e).value == if e <= |sh.fixed| then EntryAt(sh.fixed, true, e) else EntryAt(ents, false, e - |sh.fixed|)
    {
    }
  }

  lemma AtMember(sh: Shared, ents: seq<Field>, i: nat)
    requires 1 <= i <= |sh.fixed| + |ents|
    ensures At(sh, ents, i).Some? && At(sh, ents, i).value in sh.fixed + ents
  {
  }

  lemma MemberAt(sh: Shared, ents: seq<Field>, g: Field) returns (e: nat)
    requires g in sh.fixed + ents
    ensures 1 <= e <= |sh.fixed| + |ents| && At(sh, ents, e) == Some(g)
    ensures g == if e <= |sh.fixed| then EntryAt(sh.fixed, true, e) else EntryAt(ents, false, e - |sh.fixed|)
  {
    var k :| 0 <= k < |sh.fixed| + |ents| && (sh.fixed + ents)[k] == g;
    e := if k < |sh.fixed| then k + 1 else |sh.fixed| + (|ents| - (k - |sh.fixed|));
  }

  // A field that is in either table goes out as one index.
  lemma IndexedIfPresent(sh: Shared, dyn: Table, f: Field)
    requires Huffman.Shaped(sh.code) && !f.sensitive && Present(sh, dyn.ents, f)
    ensures var i := Lookup(sh, dyn.ents, f).0;
            && FieldBytes(sh, dyn, f) == Flagged7(i) && FieldTable(sh, dyn, f) == dyn
            && At(sh, dyn.ents, i).Some? && SamePair(At(sh, dyn.ents, i).value, f)
  {
    hide Lookup, Huffman.Shaped, Present;
    LookupFinds(sh, dyn.ents, f);
    LookupMeaning(sh, dyn.ents, f);
  }

  // A field that fits into the dynamic table is in one of the tables after it was written, so
  // that it goes out as one index the next time; any other leaves the table alone.
  lemma WrittenTwice(sh: Shared, dyn: Table, f: Field)
    requires Huffman.Shaped(sh.code) && Sized(dyn)
    ensures var d := FieldTable(sh, dyn, f);
            && (!f.sensitive && Size(f) <= dyn.max ==>
                  Present(sh, d.ents, f) && FieldTable(sh, d, f) == d
                  && FieldBytes(sh, d, f) == Flagged7(Lookup(sh, d.ents, f).0))
            && (f.sensitive || Size(f) > dyn.max ==> d == dyn)
  {
    hide Lookup, Huffman.Shaped, Present, Add, FieldBytes;
    var d := FieldTable(sh, dyn, f);
    if !f.sensitive && Size(f) <= dyn.max {
      LookupFinds(sh, dyn.ents, f);
      if !Lookup(sh, dyn.ents, f).1 {
        AddStays(dyn, f);
        IsPresent(sh, d.ents, f);
      }
      IndexedIfPresent(sh, d, f);
    }
  }

  lemma IsPresent(sh: Shared, ents: seq<Field>, f: Field)
    requires f in ents
    ensures Present(sh, ents, f)
  {
    assert f in sh.fixed + ents && SamePair(f, f);
  }

  // ---------------------------------------------------------------- one field

  ghost predicate InStep(e: Table, d: Table) {
    && Sized(e) && Sized(d)
    && Suffix(e.ents, d.ents)
    && e.max <= d.max
  }

  predicate Sendable(sh: Shared, e: Table, d: DecState, f: Field) {
    && Short(d.maxStrLen, |f.name|) && Short(d.maxStrLen, |f.value|)
    && |sh.fixed| + |e.ents| < MAX_INDEX
  }

  function Indexed(sh: Shared, e: Table, f: Field): bool {
    !Lookup(sh, e.ents, f).1 && ShouldIndex(e, f)
  }

  // What has been emitted once the decoder has read fs: nothing more if emission is off.
  function Seen(d: DecState, fs: seq<Field>): seq<Field> {
    if d.emitEnabled then d.emitted + fs else d.emitted
  }

  // The decoder after it has read field f.
  function Received(sh: Shared, e: Table, d: DecState, f: Field): DecState {
    d.(emitted := Seen(d, [f]), dyn := if Indexed(sh, e, f) then Add(d.dyn, f) else d.dyn)
  }

  lemma ExactReads(sh: Shared, e: Table, d: DecState, f: Field, tail: Bytes)
    requires Good(sh) && InStep(e, d.dyn) && Sendable(sh, e, d, f)
    requires Lookup(sh, e.ents, f).1
    ensures var p := FieldBytes(sh, e, f) + tail;
            p != [] && ParseRepr(sh, d, p) == Next(Received(sh, e, d, f), tail)
  {
    hide Lookup, Flagged7, Varint.ReadVarInt, ParseLiteral, ParseSizeUpdate, At, Huffman.WellFormed, StringBytes;
    GoodShape(sh);
    var i := Lookup(sh, e.ents, f).0;
    LookupMeaning(sh, e.ents, f);
    SameEntry(sh, e.ents, d.dyn.ents, i);
    Flagged7Reads(i, tail);
    assert FieldBytes(sh, e, f) == Flagged7(i);
    var g := At(sh, d.dyn.ents, i).value;
    assert Field(g.name, g.value, false) == f;
  }

  // The first octet tells the three kinds of literals apart.
  function KindOf(indexing: bool, sensitive: bool): Kind {
    if sensitive then NeverIndexed else if indexing then Incremental else WithoutIndexing
  }

  function PrefixOf(indexing: bool): nat {
    if indexing then 6 else 4
  }

  lemma LiteralDispatch(sh: Shared, d: DecState, p: Bytes, indexing: bool, sensitive: bool, x: nat)
    requires Huffman.Shaped(sh.code) && p != [] && (indexing ==> !sensitive)
    requires p[0] == TypeByte(indexing, sensitive) + x && x < (if indexing then 64 else 16)
    ensures ParseRepr(sh, d, p) == ParseLiteral(sh, d, PrefixOf(indexing), KindOf(indexing, sensitive), p)
  {
    hide ParseLiteral, ParseIndexed, ParseSizeUpdate;
  }

  // A literal whose name has been read: its value, and what is done with both.
  lemma LiteralTail(sh: Shared, d: DecState, n: nat, kind: Kind, p: Bytes, f: Field, tail: Bytes)
    requires Good(sh) && Short(d.maxStrLen, |f.name|) && Short(d.maxStrLen, |f.value|)
    requires n == 4 || n == 6
    requires f.sensitive <==> kind == NeverIndexed
    requires Huffman.Shaped(sh.code)
    requires var name := ParseName(sh, d, n, p);
             !name.NoName? && name.rest == StringBytes(sh, f.value) + tail && NameText(sh, d, name) == Text(f.name)
    ensures ParseLiteral(sh, d, n, kind, p) ==
            Next(d.(emitted := Seen(d, [f]), dyn := if kind == Incremental then Add(d.dyn, f) else d.dyn), tail)
  {
    hide ParseName, StringBytes, ReadString, DecodeText, NameText, Huffman.WellFormed, Huffman.Shaped, Add;
    StringRoundTrip(sh, d.maxStrLen, f.value, tail);
    KnownText(sh, d, ParseName(sh, d, n, p));
    var r := ReadString(d.maxStrLen, StringBytes(sh, f.value) + tail);
    assert Field(f.name, f.value, kind == NeverIndexed) == f;
    assert kind == Incremental ==> Field(f.name, f.value, false) == f;
  }

  lemma KnownText(sh: Shared, d: DecState, name: Name)
    requires Huffman.Shaped(sh.code)
    ensures name.Known? ==> NameText(sh, d, name) == Text(name.name)
  {
  }

  lemma NewNameReads(sh: Shared, d: DecState, f: Field, indexing: bool, tail: Bytes)
    requires Good(sh) && Short(d.maxStrLen, |f.name|)
    requires indexing ==> !f.sensitive
    ensures var p := NewName(sh, f, indexing) + tail;
            var name := ParseName(sh, d, PrefixOf(indexing), p);
            && p != [] && p[0] == TypeByte(indexing, f.sensitive)
            && !name.NoName? && name.rest == StringBytes(sh, f.value) + tail
            && NameText(sh, d, name) == Text(f.name)
  {
    hide StringBytes, ReadString, DecodeText, Huffman.WellFormed, Huffman.Shaped, Varint.ReadGroups;
    GoodShape(sh);
    var p := NewName(sh, f, indexing) + tail;
    var more := StringBytes(sh, f.value) + tail;
    assert p[1..] == StringBytes(sh, f.name) + more;
    Pow2Values();
    StringRoundTrip(sh, d.maxStrLen, f.name, more);
    assert Varint.ReadVarInt(PrefixOf(indexing), p) == Varint.Parsed(0, p[1..]);
  }

  lemma NameIndexReads(sh: Shared, d: DecState, f: Field, i: nat, indexing: bool, more: Bytes)
    requires (indexing ==> !f.sensitive) && Huffman.Shaped(sh.code)
    requires 0 < i < MAX_INDEX && At(sh, d.dyn.ents, i).Some? && At(sh, d.dyn.ents, i).value.name == f.name
    ensures var p := NameIndex(f, i, indexing) + more;
            var name := ParseName(sh, d, PrefixOf(indexing), p);
            && p != [] && TypeByte(indexing, f.sensitive) <= p[0]
            && p[0] < TypeByte(indexing, f.sensitive) + (if indexing then 64 else 16)
            && name == Known(f.name, more) && NameText(sh, d, name) == Text(f.name)
  {
    hide Varint.ReadVarInt, Varint.VarInt, Pow2, ReadString, At;
    Pow2Values();
    Pow2Value63();
    var n := PrefixOf(indexing);
    var flags := TypeByte(indexing, f.sensitive);
    Varint.FlagsIgnored(flags, n, i, more);
    Varint.VarIntRoundTrip(n, i, more);
  }

  lemma LiteralReads(sh: Shared, e: Table, d: DecState, f: Field, tail: Bytes)
    requires Good(sh) && InStep(e, d.dyn) && Sendable(sh, e, d, f)
    requires !Lookup(sh, e.ents, f).1 && Huffman.Shaped(sh.code)
    ensures var p := FieldBytes(sh, e, f) + tail;
            p != [] && ParseRepr(sh, d, p) == Next(Received(sh, e, d, f), tail)
  {
    hide Lookup, ParseRepr, ParseLiteral, ParseName, NameText, NewName, NameIndex, At, StringBytes,
         Huffman.WellFormed, Huffman.Shaped, Size, Add;
    var i := Lookup(sh, e.ents, f).0;
    var indexing := ShouldIndex(e, f);
    var kind := KindOf(indexing, f.sensitive);
    LookupMeaning(sh, e.ents, f);
    var p := FieldBytes(sh, e, f) + tail;
    if i == 0 {
      NewNameReads(sh, d, f, indexing, tail);
      LiteralDispatch(sh, d, p, indexing, f.sensitive, 0);
    } else {
      SameEntry(sh, e.ents, d.dyn.ents, i);
      NameIndexReads(sh, d, f, i, indexing, StringBytes(sh, f.value) + tail);
      assert p == NameIndex(f, i, indexing) + (StringBytes(sh, f.value) + tail);
      LiteralDispatch(sh, d, p, indexing, f.sensitive, p[0] - TypeByte(indexing, f.sensitive));
    }
    LiteralTail(sh, d, PrefixOf(indexing), kind, p, f, tail);
  }

  // One field, whichever representation the encoder chose.
  lemma FieldRoundTrip(sh: Shared, e: Table, d: DecState, f: Field, tail: Bytes)
    requires Good(sh) && InStep(e, d.dyn) && Sendable(sh, e, d, f) && Huffman.Shaped(sh.code)
    ensures DecodeAll(sh, d, FieldBytes(sh, e, f) + tail) ==
            DecodeAll(sh, Received(sh, e, d, f).(firstField := false), tail)
    ensures InStep(FieldTable(sh, e, f), Received(sh, e, d, f).dyn)
  {
    hide Lookup, ParseRepr, FieldBytes, Huffman.WellFormed, Huffman.Shaped, Sized, Suffix, Add;
    if Lookup(sh, e.ents, f).1 {
      ExactReads(sh, e, d, f, tail);
    } else {
      LiteralReads(sh, e, d, f, tail);
    }
    AddSuffix(e, d.dyn, f);
  }

  // ---------------------------------------------------------------- table size updates

  lemma SizeUpdateReads(d: DecState, v: nat, tail: Bytes)
    requires v < UINT32
    ensures var p := SizeUpdate(v) + tail;
            && p != [] && 32 <= p[0] < 64
            && ParseSizeUpdate(d, p) ==
               if !d.firstField && d.dyn.size > 0 then Fail(UpdateNotFirst, d)
               else if v > d.allowed then Fail(UpdateTooLarge, d)
               else Next(d.(dyn := SetMax(d.dyn, v)), tail)
  {
    hide Varint.VarInt, Varint.ReadVarInt, Pow2, Evict;
    Pow2Values();
    Pow2Value63();
    Varint.FlagsIgnored(0x20, 5, v, tail);
    Varint.VarIntRoundTrip(5, v, tail);
  }

  // The decoder takes an update only at the start of a block, or while its table is empty.
  predicate TakesUpdate(d: DecState, v: nat) {
    (d.firstField || d.dyn.size == 0) && v <= d.allowed
  }

  function RefusedUpdate(d: DecState): Error {
    if !d.firstField && d.dyn.size > 0 then UpdateNotFirst else UpdateTooLarge
  }

  function Resized(d: DecState, v: nat): DecState {
    d.(firstField := false, dyn := SetMax(d.dyn, v))
  }

  lemma UpdateRoundTrip(sh: Shared, d: DecState, v: nat, tail: Bytes)
    requires v < UINT32 && Huffman.Shaped(sh.code)
    ensures DecodeAll(sh, d, SizeUpdate(v) + tail) ==
            if TakesUpdate(d, v) then DecodeAll(sh, Resized(d, v), tail)
            else Outcome(d.(firstField := false), [], Some(RefusedUpdate(d)))
  {
    hide ParseSizeUpdate, SizeUpdate, Evict, SetMax, ParseIndexed, ParseLiteral, Huffman.Shaped;
    SizeUpdateReads(d, v, tail);
  }

  // Both of the encoder's updates are taken.
  predicate Accepts(d: DecState, e: EncState) {
    e.update ==>
      if e.minSize < e.dyn.max then TakesUpdate(d, e.minSize) && TakesUpdate(Resized(d, e.minSize), e.dyn.max)
      else TakesUpdate(d, e.dyn.max)
  }

  // The decoder after the updates.
  function Caught(d: DecState, e: EncState): DecState {
    if !e.update then d
    else if e.minSize < e.dyn.max then Resized(Resized(d, e.minSize), e.dyn.max)
    else Resized(d, e.dyn.max)
  }

  // What holds between any two calls on the encoder, the decoder having read all it wrote.
  ghost predicate Linked(e: EncState, d: Table) {
    && Sized(e.dyn) && Sized(d)
    && Suffix(e.dyn.ents, d.ents)
    && e.dyn.size <= e.dyn.max < UINT32
    && e.limit < UINT32
    && e.dyn.size <= e.minSize < UINT32
    && (if e.update then true else e.dyn.max <= d.max && e.minSize == NO_MIN)
  }

  lemma UpdatesRoundTrip(sh: Shared, e: EncState, d: DecState, tail: Bytes)
    requires Linked(e, d.dyn) && Huffman.Shaped(sh.code)
    ensures Accepts(d, e) ==>
              DecodeAll(sh, d, UpdateBytes(e) + tail) == DecodeAll(sh, Caught(d, e), tail)
    ensures !Accepts(d, e) ==>
              DecodeAll(sh, d, UpdateBytes(e) + tail).error in {Some(UpdateNotFirst), Some(UpdateTooLarge)}
    ensures !Accepts(d, e) ==> DecodeAll(sh, d, UpdateBytes(e) + tail).st.emitted == d.emitted
  {
    hide SizeUpdate, SetMax, Huffman.Shaped, Sized, Suffix, DecodeAll;
    if e.update {
      if e.minSize < e.dyn.max {
        UpdateRoundTrip(sh, d, e.minSize, SizeUpdate(e.dyn.max) + tail);
        UpdateRoundTrip(sh, Resized(d, e.minSize), e.dyn.max, tail);
        assert UpdateBytes(e) + tail == SizeUpdate(e.minSize) + (SizeUpdate(e.dyn.max) + tail);
      } else {
        UpdateRoundTrip(sh, d, e.dyn.max, tail);
        assert UpdateBytes(e) + tail == SizeUpdate(e.dyn.max) + tail;
      }
    } else {
      assert UpdateBytes(e) + tail == tail;
    }
  }

  lemma UpdatesLink(e: EncState, d: DecState)
    requires Linked(e, d.dyn)
    ensures InStep(e.dyn, Caught(d, e).dyn)
  {
    hide Sized, Suffix, SetMax;
    if e.update {
      if e.minSize < e.dyn.max {
        SetMaxSuffix(e.dyn, d.dyn, e.minSize);
        SetMaxSuffix(e.dyn, SetMax(d.dyn, e.minSize), e.dyn.max);
      } else {
        SetMaxSuffix(e.dyn, d.dyn, e.dyn.max);
      }
    }
  }

  // Once the decoder has heard the pending updates, its table is the encoder's.
  ghost predicate Accord(e: EncState, d: Table) {
    if e.update then SetMax(SetMax(d, if e.minSize < e.dyn.max then e.minSize else e.dyn.max), e.dyn.max) == e.dyn
    else d == e.dyn
  }

  lemma CaughtUp(e: EncState, d: DecState)
    requires Sized(d.dyn) && Accord(e, d.dyn)
    ensures Caught(d, e).dyn == e.dyn
  {
    hide Sized, SetMax;
    SetMaxTwice(d.dyn, e.dyn.max, e.dyn.max);
    SetMaxBound(d.dyn, e.dyn.max);
  }

  lemma SetMaxBound(d: Table, v: nat)
    requires Sized(d)
    ensures SetMax(d, v).(max := v) == SetMax(d, v)
  {
    SetMaxFits(d, v);
  }

  // ---------------------------------------------------------------- one call of WriteField

  // The decoder after it has read what WriteField produced for f.
  function Delivered(sh: Shared, e: EncState, d: DecState, f: Field): DecState {
    Received(sh, e.dyn, Caught(d, e), f).(firstField := false)
  }

  // WriteField's bytes decode to f and keep the two ends linked, exactly if the decoder
  // accepts the pending table size updates; otherwise nothing is emitted.
  lemma WriteFieldRoundTrip(sh: Shared, e: EncState, d: DecState, f: Field, tail: Bytes)
    requires Good(sh) && Linked(e, d.dyn) && Sendable(sh, e.dyn, d, f) && Huffman.Shaped(sh.code)
    ensures var (e', bytes) := WriteField(sh, e, f);
            if Accepts(d, e) then
              && DecodeAll(sh, d, bytes + tail) == DecodeAll(sh, Delivered(sh, e, d, f), tail)
              && Linked(e', Delivered(sh, e, d, f).dyn)
            else
              var r := DecodeAll(sh, d, bytes + tail);
              r.error in {Some(UpdateNotFirst), Some(UpdateTooLarge)} && r.st.emitted == d.emitted
  {
    hide DecodeAll, Accepts, Caught, FieldBytes, UpdateBytes, Sized, Suffix, Huffman.WellFormed, Huffman.Shaped,
         Lookup, Add, Size;
    var d' := Caught(d, e);
    var bytes := FieldBytes(sh, e.dyn, f);
    assert UpdateBytes(e) + bytes + tail == UpdateBytes(e) + (bytes + tail);
    UpdatesRoundTrip(sh, e, d, bytes + tail);
    UpdatesLink(e, d);
    CaughtKeeps(d, e);
    FieldRoundTrip(sh, e.dyn, d', f, tail);
    AddSuffix(e.dyn, d'.dyn, f);
    SizeFits(e.dyn);
    SizeFits(FieldTable(sh, e.dyn, f));
  }

  lemma SizeFits(d: Table)
    requires Sized(d)
    ensures d.size <= NO_MIN
  {
  }

  lemma CaughtKeeps(d: DecState, e: EncState)
    ensures var d' := Caught(d, e);
            d'.emitEnabled == d.emitEnabled && d'.maxStrLen == d.maxStrLen && d'.emitted == d.emitted && d'.allowed == d.allowed
  {
  }
}
