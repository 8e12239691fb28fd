/** What the HPACK decoder guarantees about any input, whoever wrote it. */
module HpackSafety {
  import opened Options
  import opened Bits
  import opened HeaderTable
  import opened DynamicTable
  import opened HpackFormat
  import opened HpackRoundTrip
  import Huffman
  import Varint

  // The size counter is right, and within bounds that the owner of the decoder allows.
  ghost predicate Bounded(st: DecState) {
    Sized(st.dyn) && st.dyn.size <= st.dyn.max <= st.allowed
  }

  predicate WithinLimit(maxStrLen: nat, f: Field) {
    maxStrLen == 0 || (|f.name| <= maxStrLen && |f.value| <= maxStrLen)
  }

  // st' comes from st by reading: the settings are the same, and what was emitted in between,
  // if emission is on, keeps the limit.
  ghost predicate ReadOn(st: DecState, st': DecState) {
    && st'.allowed == st.allowed && st'.maxStrLen == st.maxStrLen && st'.emitEnabled == st.emitEnabled
    && st.emitted <= st'.emitted
    && (forall k :: |st.emitted| <= k < |st'.emitted| ==> WithinLimit(st.maxStrLen, st'.emitted[k]))
    && (!st.emitEnabled ==> st'.emitted == st.emitted)
  }

  lemma AddBounded(d: Table, f: Field)
    requires Sized(d)
    ensures Sized(Add(d, f)) && Add(d, f).max == d.max && Add(d, f).size <= d.max
  {
    hide Add, Sized;
    AddSuffix(d, d, f);
  }

  lemma EmitReadsOn(st: DecState, f: Field, rest: Bytes)
    ensures match Emit(st, f, rest)
            case More => false
            case Fail(_, st') => st' == st
            case Next(st', _) => ReadOn(st, st') && st'.dyn == st.dyn
  {
  }

  // One representation.
  lemma ReprBounded(sh: Shared, st: DecState, p: Bytes)
    requires Huffman.Shaped(sh.code) && p != [] && Bounded(st)
    ensures match ParseRepr(sh, st, p)
            case More => true
            case Fail(_, st') => ReadOn(st, st') && Bounded(st')
            case Next(st', _) => ReadOn(st, st') && Bounded(st')
  {
    hide Huffman.Shaped, ParseIndexed, ParseLiteral, ParseSizeUpdate, Bounded, ReadOn;
    IndexedBounded(sh, st, p);
    LiteralBounded(sh, st, 6, Incremental, p);
    LiteralBounded(sh, st, 4, WithoutIndexing, p);
    LiteralBounded(sh, st, 4, NeverIndexed, p);
    UpdateBounded(st, p);
  }

  lemma IndexedBounded(sh: Shared, st: DecState, p: Bytes)
    requires Bounded(st)
    ensures match ParseIndexed(sh, st, p)
            case More => true
            case Fail(_, st') => ReadOn(st, st') && Bounded(st')
            case Next(st', _) => ReadOn(st, st') && Bounded(st')
  {
    hide Sized, Varint.ReadVarInt, At;
  }

  lemma LiteralBounded(sh: Shared, st: DecState, n: nat, kind: Kind, p: Bytes)
    requires Huffman.Shaped(sh.code) && (n == 4 || n == 6) && Bounded(st)
    ensures match ParseLiteral(sh, st, n, kind, p)
            case More => true
            case Fail(_, st') => ReadOn(st, st') && Bounded(st')
            case Next(st', _) => ReadOn(st, st') && Bounded(st')
  {
    hide Huffman.Shaped, Sized, ParseName, ReadString, FinishLiteral;
    var name := ParseName(sh, st, n, p);
    if !name.NoName? {
      match ReadString(st.maxStrLen, name.rest)
      case StrStopped(_) =>
      case Str(h, raw, q) => FinishBounded(sh, st, kind, name, h, raw, q);
    }
  }

  lemma FinishBounded(sh: Shared, st: DecState, kind: Kind, name: Name, h: bool, raw: Bytes, rest: Bytes)
    requires Huffman.Shaped(sh.code) && !name.NoName? && Bounded(st)
    ensures match FinishLiteral(sh, st, kind, name, h, raw, rest)
            case More => true
            case Fail(_, st') => ReadOn(st, st') && Bounded(st')
            case Next(st', _) => ReadOn(st, st') && Bounded(st')
  {
    hide Huffman.Shaped, Sized, Add, DecodeText, NameText;
    if NameText(sh, st, name).Text? && DecodeText(sh, st.maxStrLen, h, raw).Text? {
      AddBounded(st.dyn, Field(NameText(sh, st, name).value, DecodeText(sh, st.maxStrLen, h, raw).value, false));
    }
  }

  lemma UpdateBounded(st: DecState, p: Bytes)
    requires Bounded(st)
    ensures match ParseSizeUpdate(st, p)
            case More => true
            case Fail(_, st') => ReadOn(st, st') && Bounded(st')
            case Next(st', _) => ReadOn(st, st') && Bounded(st')
  {
    hide Sized, SetMax, Varint.ReadVarInt;
    match Varint.ReadVarInt(5, p)
    case Stopped(_) =>
    case Parsed(v, _) => SetMaxFits(st.dyn, v);
  }

  // Whatever octets arrive, cut as they may be: the dynamic table stays within the size the
  // owner allows, and no string longer than the limit is emitted.
  lemma {:induction false} AnyInput(sh: Shared, st: DecState, p: Bytes)
    requires Huffman.Shaped(sh.code) && Bounded(st)
    ensures Bounded(DecodeAll(sh, st, p).st) && ReadOn(st, DecodeAll(sh, st, p).st)
    decreases |p|
  {
    hide Huffman.Shaped, ParseRepr, Sized;
    if p != [] {
      ReprBounded(sh, st, p);
      match ParseRepr(sh, st, p)
      case More =>
      case Fail(_, _) =>
      case Next(st', rest) => AnyInput(sh, st'.(firstField := false), rest);
    }
  }

  // An index is taken if and only if there is such an entry, whose name and value are emitted
  // if they keep the limit.
  lemma IndexTaken(sh: Shared, st: DecState, i: nat, tail: Bytes)
    requires Huffman.Shaped(sh.code) && i < MAX_INDEX
    ensures var r := ParseRepr(sh, st, Flagged7(i) + tail);
            var n := |sh.fixed| + |st.dyn.ents|;
            && (i == 0 || i > n <==> r == Fail(InvalidIndex(i), st))
            && (1 <= i <= n ==>
                  var g := if i <= |sh.fixed| then EntryAt(sh.fixed, true, i) else EntryAt(st.dyn.ents, false, i - |sh.fixed|);
                  if WithinLimit(st.maxStrLen, g) then r == Next(st.(emitted := Seen(st, [Field(g.name, g.value, false)])), tail)
                  else r == Fail(StringTooLong, st))
  {
    hide Flagged7, Varint.ReadVarInt, ParseLiteral, ParseSizeUpdate, Huffman.Shaped;
    Flagged7Reads(i, tail);
  }
}
