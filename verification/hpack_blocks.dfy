/** Header blocks: a list of fields, encoded one after the other and decoded in one go. */
module HpackBlocks {
  import opened Options
  import opened Bits
  import opened HeaderTable
  import opened DynamicTable
  import opened HpackFormat
  import opened HpackRoundTrip
  import opened HpackChunks
  import Huffman
  import Varint

  function EncodeBlock(sh: Shared, e: EncState, fields: seq<Field>): (EncState, Bytes)
    requires Huffman.Shaped(sh.code)
    decreases |fields|
  {
    if fields == [] then (e, [])
    else
      var (e1, b) := WriteField(sh, e, fields[0]);
      var (e2, more) := EncodeBlock(sh, e1, fields[1..]);
      (e2, b + more)
  }

  predicate AllShort(maxStrLen: nat, fields: seq<Field>) {
    forall k :: 0 <= k < |fields| ==> Short(maxStrLen, |fields[k].name|) && Short(maxStrLen, |fields[k].value|)
  }

  ghost predicate Ready(sh: Shared, e: EncState, d: DecState, fields: seq<Field>) {
    && Good(sh) && Linked(e, d.dyn)
    && AllShort(d.maxStrLen, fields)
    && |sh.fixed| + |e.dyn.ents| + |fields| < MAX_INDEX
  }

  ghost predicate SameSettings(d: DecState, d': DecState) {
    d'.emitEnabled == d.emitEnabled && d'.maxStrLen == d.maxStrLen && d'.allowed == d.allowed
  }

  lemma DeliveredKeeps(sh: Shared, e: EncState, d: DecState, f: Field)
    ensures var d' := Delivered(sh, e, d, f);
            SameSettings(d, d') && d'.emitted == Seen(d, [f]) && !d'.firstField
  {
    hide Lookup, Add, SetMax, Size;
  }

  lemma WriteFieldKeeps(sh: Shared, e: EncState, f: Field)
    requires Huffman.Shaped(sh.code) && Sized(e.dyn)
    ensures var e' := WriteField(sh, e, f).0;
            !e'.update && |e'.dyn.ents| <= |e.dyn.ents| + 1
  {
    hide Lookup, FieldBytes, UpdateBytes, Huffman.Shaped, Size, Total;
    SizedMore(e.dyn, f);
    EvictFits(Table(e.dyn.ents + [f], (e.dyn.size + Size(f)) % UINT32, e.dyn.max));
  }

  // A non-empty block decodes to its fields and keeps the ends linked, exactly if the decoder
  // accepts the updates at its head; otherwise it emits nothing.
  lemma {:induction false} BlockDecodes(sh: Shared, e: EncState, d: DecState, fields: seq<Field>)
    requires Ready(sh, e, d, fields) && fields != [] && Huffman.Shaped(sh.code)
    ensures var (e', bytes) := EncodeBlock(sh, e, fields);
            var r := DecodeAll(sh, d, bytes);
            && bytes != []
            && (Accepts(d, e) ==>
                  && r.error == None && r.left == []
                  && r.st.emitted == Seen(d, fields) && SameSettings(d, r.st)
                  && Linked(e', r.st.dyn) && |e'.dyn.ents| <= |e.dyn.ents| + |fields|
                  && (Accord(e, d.dyn) ==> Accord(e', r.st.dyn)))
            && (!Accepts(d, e) ==> r.error.Some? && r.st.emitted == d.emitted)
    decreases |fields|
  {
    hide WriteField, DecodeAll, Linked, Delivered, Huffman.Shaped, Huffman.WellFormed, Accepts, Short, Accord;
    var f := fields[0];
    var (e1, b) := WriteField(sh, e, f);
    var (e2, more) := EncodeBlock(sh, e1, fields[1..]);
    FieldIsSendable(sh, e, d, fields);
    WriteFieldRoundTrip(sh, e, d, f, more);
    WriteFieldNotEmpty(sh, e, f);
    LinkedSized(e, d.dyn);
    WriteFieldKeeps(sh, e, f);
    DeliveredKeeps(sh, e, d, f);
    DeliveredAccord(sh, e, d, f);
    if Accepts(d, e) {
      var d1 := Delivered(sh, e, d, f);
      if |fields| == 1 {
        assert fields[1..] == [];
        DecodeNothing(sh, d1);
        assert fields == [f];
      } else {
        NoUpdateAccepted(d1, e1);
        BlockDecodes(sh, e1, d1, fields[1..]);
        assert d.emitted + [f] + fields[1..] == d.emitted + fields;
      }
    }
  }

  lemma DeliveredAccord(sh: Shared, e: EncState, d: DecState, f: Field)
    requires Huffman.Shaped(sh.code) && Linked(e, d.dyn)
    ensures Accord(e, d.dyn) ==> Accord(WriteField(sh, e, f).0, Delivered(sh, e, d, f).dyn)
  {
    hide Lookup, FieldBytes, UpdateBytes, Huffman.Shaped, Size, Sized, Suffix, Add, SetMax, Caught, Accord;
    if Accord(e, d.dyn) {
      CaughtUp(e, d);
      InAccord(WriteField(sh, e, f).0);
    }
  }

  lemma InAccord(e: EncState)
    requires !e.update
    ensures Accord(e, e.dyn)
  {
  }

  lemma FieldIsSendable(sh: Shared, e: EncState, d: DecState, fields: seq<Field>)
    requires Ready(sh, e, d, fields) && fields != []
    ensures Sendable(sh, e.dyn, d, fields[0])
  {
  }

  lemma LinkedSized(e: EncState, d: Table)
    requires Linked(e, d)
    ensures Sized(e.dyn)
  {
  }

  lemma DecodeNothing(sh: Shared, d: DecState)
    requires Huffman.Shaped(sh.code)
    ensures DecodeAll(sh, d, []) == Outcome(d, [], None)
  {
  }

  lemma NoUpdateAccepted(d: DecState, e: EncState)
    requires !e.update
    ensures Accepts(d, e)
  {
  }

  lemma WriteFieldNotEmpty(sh: Shared, e: EncState, f: Field)
    requires Huffman.Shaped(sh.code)
    ensures WriteField(sh, e, f).1 != []
  {
    hide Lookup, StringBytes, Huffman.Shaped;
  }

  lemma EmptyBlock(sh: Shared, e: EncState)
    requires Huffman.Shaped(sh.code)
    ensures EncodeBlock(sh, e, []) == (e, [])
  {
  }

  // ---------------------------------------------------------------- how long a field can be

  // Limits up to this one leave room for every field within the limit: the length of a string
  // takes at most 8 octets.
  const MAX_LIMIT: nat := 0x2_0000_0000_007e

  lemma {:induction false} GroupsLength(i: nat, k: nat)
    requires i < Pow2(7 * k) && k > 0
    ensures |Varint.Groups(i)| <= k
    decreases k
  {
    if i >= 128 {
      if k == 1 {
        Pow2Values();
      } else {
        Pow2Add(7, 7 * (k - 1));
        assert 7 + 7 * (k - 1) == 7 * k;
        Pow2Values();
        Divided(i, Pow2(7 * (k - 1)));
        GroupsLength(i / 128, k - 1);
      }
    }
  }

  lemma Divided(i: nat, p: nat)
    requires i < 128 * p
    ensures i / 128 < p
  {
  }

  lemma VarIntLength(n: nat, i: nat, k: nat)
    requires 1 <= n <= 8 && i < Pow2(7 * k) + Pow2(n) - 1 && k > 0
    ensures 0 < |Varint.VarInt(n, i)| <= k + 1
  {
    hide Pow2, Varint.Groups;
    if i >= Pow2(n) - 1 {
      GroupsLength(i - (Pow2(n) - 1), k);
    }
  }

  lemma Pow2Of49And63()
    ensures Pow2(49) == 0x2_0000_0000_0000 && Pow2(63) == 0x8000_0000_0000_0000
  {
    Pow2Value64();
    Pow2Value32();
    Pow2Value16();
    Pow2Add(32, 17);
    Pow2Add(16, 1);
    assert Pow2(17) == 2 * Pow2(16);
  }

  // The string is within the limit, and its length takes at most 8 octets.
  lemma StringLength(sh: Shared, limit: nat, s: Bytes)
    requires Huffman.Shaped(sh.code) && |s| <= limit <= MAX_LIMIT
    ensures |StringBytes(sh, s)| <= limit + 8
  {
    hide Pow2, Varint.VarInt, Varint.Groups, Huffman.HuffmanString, Huffman.Shaped;
    Pow2Values();
    Pow2Of49And63();
    var h := Huffman.HuffmanString(sh.code, s);
    var n := if |h| < |s| then |h| else |s|;
    VarIntLength(7, n, 7);
    FlaggedLength(n);
  }

  lemma FlaggedLength(n: nat)
    ensures |Flagged7(n)| == |Varint.VarInt(7, n)|
  {
  }

  lemma IndexLength(f: Field, i: nat, indexing: bool)
    requires (indexing ==> !f.sensitive) && i < MAX_INDEX
    ensures |NameIndex(f, i, indexing)| <= 10 && |Flagged7(i)| <= 10
  {
    hide Pow2, Varint.VarInt, Varint.Groups;
    Pow2Values();
    Pow2Of49And63();
    VarIntLength(if indexing then 6 else 4, i, 9);
    VarIntLength(7, i, 9);
    FlaggedLength(i);
    NameIndexLength(f, i, indexing);
  }

  lemma NameIndexLength(f: Field, i: nat, indexing: bool)
    requires indexing ==> !f.sensitive
    ensures |NameIndex(f, i, indexing)| == |Varint.VarInt(if indexing then 6 else 4, i)|
  {
  }

  // A field without its last octet is not too long.
  lemma FieldLength(sh: Shared, e: Table, d: DecState, f: Field)
    requires Huffman.Shaped(sh.code) && Sendable(sh, e, d, f) && 0 < d.maxStrLen <= MAX_LIMIT
    ensures !TooLong(d.maxStrLen, |FieldBytes(sh, e, f)| - 1) && |FieldBytes(sh, e, f)| > 0
  {
    hide StringBytes, NameIndex, Flagged7, Lookup, Huffman.Shaped;
    LookupMeaning(sh, e.ents, f);
    var i := Lookup(sh, e.ents, f).0;
    IndexLength(f, i, ShouldIndex(e, f));
    StringLength(sh, d.maxStrLen, f.name);
    StringLength(sh, d.maxStrLen, f.value);
    FieldNotEmpty(sh, e, f);
  }

  lemma FieldNotEmpty(sh: Shared, e: Table, f: Field)
    requires Huffman.Shaped(sh.code)
    ensures FieldBytes(sh, e, f) != []
  {
    hide Lookup, StringBytes, Huffman.Shaped;
  }

  lemma UpdatesLength(e: EncState)
    requires e.minSize < UINT32 && e.dyn.max < UINT32
    ensures |UpdateBytes(e)| <= 12
  {
    hide Pow2, Varint.VarInt, Varint.Groups;
    Pow2Values();
    UpdateLength(e.minSize);
    UpdateLength(e.dyn.max);
  }

  lemma UpdateLength(v: nat)
    requires v < UINT32
    ensures |SizeUpdate(v)| <= 6
  {
    hide Pow2, Varint.VarInt, Varint.Groups;
    Pow2Values();
    Pow2Value32();
    Pow2Mono(32, 35);
    VarIntLength(5, v, 5);
    SizeUpdateLength(v);
  }

  lemma SizeUpdateLength(v: nat)
    ensures |SizeUpdate(v)| == |Varint.VarInt(5, v)|
  {
  }

  // ---------------------------------------------------------------- wherever a block is cut

  // Decoding never leaves more than it was given.
  lemma {:induction false} LeftAtMost(sh: Shared, d: DecState, p: Bytes)
    requires Huffman.Shaped(sh.code)
    ensures var r := DecodeAll(sh, d, p);
            |r.left| <= |p| && r.st.maxStrLen == d.maxStrLen
    decreases |p|
  {
    hide ParseRepr, Huffman.Shaped;
    if p != [] {
      ParseReprKeeps(sh, d, p);
      match ParseRepr(sh, d, p)
      case More =>
      case Fail(_, _) =>
      case Next(st', rest) => LeftAtMost(sh, st'.(firstField := false), rest);
    }
  }

  // What comes before and after position n of a prefix of a + b.
  lemma PrefixParts(p: Bytes, a: Bytes, b: Bytes)
    requires p <= a + b
    ensures if |p| <= |a| then p <= a else p[..|a|] == a && p[|a|..] <= b && p == a + p[|a|..]
  {
    assert p == (a + b)[..|p|];
  }

  // The updates and the first field of a block, cut within.
  lemma RestOfFirst(sh: Shared, e: EncState, d: DecState, f: Field, p: Bytes)
    requires Good(sh) && Linked(e, d.dyn) && Sendable(sh, e.dyn, d, f) && Huffman.Shaped(sh.code)
    requires 0 < d.maxStrLen <= MAX_LIMIT && p <= WriteField(sh, e, f).1 && p != WriteField(sh, e, f).1
    ensures var r := DecodeAll(sh, d, p);
            r.error.None? ==> !TooLong(d.maxStrLen, |r.left|)
  {
    hide DecodeAll, Accepts, Caught, FieldBytes, UpdateBytes, Sized, Suffix, Huffman.WellFormed, Huffman.Shaped;
    var u, b := UpdateBytes(e), FieldBytes(sh, e.dyn, f);
    assert WriteField(sh, e, f).1 == u + b;
    PrefixParts(p, u, b);
    LeftAtMost(sh, d, p);
    UpdatesLength(e);
    if |p| > |u| {
      var q := p[|u|..];
      UpdatesRoundTrip(sh, e, d, q);
      CaughtKeeps(d, e);
      LeftAtMost(sh, Caught(d, e), q);
      FieldLength(sh, e.dyn, d, f);
    }
  }

  // Wherever a block is cut, what is left unfinished is not too long for the decoder.
  lemma {:induction false} RestOfPrefix(sh: Shared, e: EncState, d: DecState, fields: seq<Field>, p: Bytes)
    requires Ready(sh, e, d, fields) && Huffman.Shaped(sh.code) && 0 < d.maxStrLen <= MAX_LIMIT
    requires p <= EncodeBlock(sh, e, fields).1
    ensures var r := DecodeAll(sh, d, p);
            r.error.None? ==> !TooLong(d.maxStrLen, |r.left|)
    decreases |fields|
  {
    hide WriteField, DecodeAll, Linked, Delivered, Huffman.Shaped, Huffman.WellFormed, Accepts, Short;
    if fields == [] {
      LeftAtMost(sh, d, p);
    } else {
      var f := fields[0];
      var (e1, b) := WriteField(sh, e, f);
      var (e2, more) := EncodeBlock(sh, e1, fields[1..]);
      PrefixParts(p, b, more);
      FieldIsSendable(sh, e, d, fields);
      if p <= b && p != b {
        RestOfFirst(sh, e, d, f, p);
      } else {
        var q := p[|b|..];
        assert p == b + q;
        WriteFieldRoundTrip(sh, e, d, f, q);
        LinkedSized(e, d.dyn);
        WriteFieldKeeps(sh, e, f);
        DeliveredKeeps(sh, e, d, f);
        if Accepts(d, e) {
          RestOfPrefix(sh, e1, Delivered(sh, e, d, f), fields[1..], q);
        }
      }
    }
  }

  // So no chunk of a block is refused.
  lemma NeverRefused(sh: Shared, e: EncState, d: DecState, fields: seq<Field>, chunks: seq<Bytes>, k: nat)
    requires Ready(sh, e, d, fields) && Huffman.Shaped(sh.code) && d.maxStrLen <= MAX_LIMIT
    requires Joined(chunks) == EncodeBlock(sh, e, fields).1 && k <= |chunks|
    ensures !Refuses(sh, Feed(d, []), chunks, k)
  {
    hide EncodeBlock, DecodeAll, Ready, Huffman.Shaped, Joined;
    var p := Joined(chunks[..k]);
    JoinedSplit(chunks, k);
    assert [] + p == p;
    LeftAtMost(sh, d, p);
    if d.maxStrLen > 0 {
      RestOfPrefix(sh, e, d, fields, p);
    }
  }

  lemma {:induction false} JoinedSplit(chunks: seq<Bytes>, k: nat)
    requires k <= |chunks|
    ensures Joined(chunks) == Joined(chunks[..k]) + Joined(chunks[k..])
  {
    if k == 0 {
      assert chunks[..0] == [] && chunks[0..] == chunks;
    } else {
      JoinedSplit(chunks[1..], k - 1);
      assert chunks[..k][0] == chunks[0] && chunks[..k][1..] == chunks[1..][..k - 1] && chunks[1..][k - 1..] == chunks[k..];
    }
  }
}
