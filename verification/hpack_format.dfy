/**
 * The wire format of HPACK (RFC 7541, section 6) as the encoder writes it and as the decoder
 * reads it, each over its own dynamic table.
 */
module HpackFormat {
  import opened Options
  import opened Bits
  import opened HeaderTable
  import opened DynamicTable
  import Huffman
  import HuffmanDecode
  import Varint

  // What both ends share: the Huffman code and the static table.
  datatype Shared = Shared(code: Huffman.CodeTable, fixed: seq<Field>)

  ghost predicate Good(sh: Shared) {
    Huffman.WellFormed(sh.code)
  }

  // ---------------------------------------------------------------- encoder side

  const NO_MIN: nat := 0xffff_ffff

  datatype EncState = EncState(dyn: Table, minSize: nat, limit: nat, update: bool)

  function StringBytes(sh: Shared, s: Bytes): Bytes
    requires Huffman.Shaped(sh.code)
  {
    var h := Huffman.HuffmanString(sh.code, s);
    if |h| < |s| then Flagged7(|h|) + h else Varint.VarInt(7, |s|) + s
  }

  function Flagged7(i: nat): Bytes {
    Pow2Values();
    Varint.Flagged(0x80, 7, i)
  }

  function SizeUpdate(v: nat): Bytes {
    Pow2Values();
    Varint.Flagged(0x20, 5, v)
  }

  function TypeByte(indexing: bool, sensitive: bool): Byte {
    if sensitive then 0x10 else if indexing then 0x40 else 0
  }

  // The static table first; the dynamic table only if that gives no exact match.
  function Lookup(sh: Shared, ents: seq<Field>, f: Field): (nat, bool) {
    var (i, exact) := Scan(sh.fixed, true, f);
    if exact then (i, true)
    else
      var (j, exact') := Scan(ents, false, f);
      if exact' || (i == 0 && j != 0) then (j + |sh.fixed|, exact') else (i, false)
  }

  predicate ShouldIndex(dyn: Table, f: Field) {
    !f.sensitive && Size(f) <= dyn.max
  }

  function NewName(sh: Shared, f: Field, indexing: bool): Bytes
    requires Huffman.Shaped(sh.code)
  {
    [TypeByte(indexing, f.sensitive)] + (StringBytes(sh, f.name) + StringBytes(sh, f.value))
  }

  function NameIndex(f: Field, i: nat, indexing: bool): Bytes
    requires indexing ==> !f.sensitive
  {
    Pow2Values();
    Varint.Flagged(TypeByte(indexing, f.sensitive), if indexing then 6 else 4, i)
  }

  // The bytes of one field, given the table before it.
  function FieldBytes(sh: Shared, dyn: Table, f: Field): Bytes
    requires Huffman.Shaped(sh.code)
  {
    var (i, exact) := Lookup(sh, dyn.ents, f);
    var indexing := ShouldIndex(dyn, f);
    if exact then Flagged7(i)
    else if i == 0 then NewName(sh, f, indexing)
    else NameIndex(f, i, indexing) + StringBytes(sh, f.value)
  }

  // The encoder's table after it.
  function FieldTable(sh: Shared, dyn: Table, f: Field): Table {
    if !Lookup(sh, dyn.ents, f).1 && ShouldIndex(dyn, f) then Add(dyn, f) else dyn
  }

  // Pending table size updates: the smallest size since the last field, if it matters, and
  // the current one.
  function UpdateBytes(e: EncState): Bytes {
    if !e.update then []
    else (if e.minSize < e.dyn.max then SizeUpdate(e.minSize) else []) + SizeUpdate(e.dyn.max)
  }

  function Updated(e: EncState): EncState {
    if e.update then e.(update := false, minSize := NO_MIN) else e
  }

  function WriteField(sh: Shared, e: EncState, f: Field): (EncState, Bytes)
    requires Huffman.Shaped(sh.code)
  {
    var e' := Updated(e);
    (e'.(dyn := FieldTable(sh, e.dyn, f)), UpdateBytes(e) + FieldBytes(sh, e.dyn, f))
  }

  function SetMaxDynamicTableSize(e: EncState, v: nat): EncState {
    var v' := if v > e.limit then e.limit else v;
    e.(minSize := if v' < e.minSize then v' else e.minSize, update := true, dyn := SetMax(e.dyn, v'))
  }

  function SetMaxDynamicTableSizeLimit(e: EncState, v: nat): EncState {
    var e' := e.(limit := v);
    if e.dyn.max > v then e'.(update := true, dyn := SetMax(e.dyn, v)) else e'
  }

  // ---------------------------------------------------------------- decoder side

  datatype Error =
    | InvalidIndex(i: nat)
    | UpdateNotFirst
    | UpdateTooLarge
    | VarintOverflow
    | StringTooLong
    | InvalidHuffman
    | TruncatedHeaders

  datatype DecState = DecState(
    dyn: Table, allowed: nat, emitEnabled: bool, maxStrLen: nat, firstField: bool, emitted: seq<Field>)

  // Parsing one representation: more input is needed, or it failed (perhaps after changing
  // the table), or it succeeded and `rest` is still to be read.
  datatype Step = More | Fail(error: Error, st: DecState) | Next(st: DecState, rest: Bytes)

  function At(sh: Shared, ents: seq<Field>, i: nat): Option<Field> {
    if i == 0 then None
    else if i <= |sh.fixed| then Some(sh.fixed[i - 1])
    else if i > |ents| + |sh.fixed| then None
    else Some(ents[|ents| - (i - |sh.fixed|)])
  }

  datatype StrStop = NeedMore | Bad(error: Error)

  // An encoded string that has arrived in full but is not yet decoded.
  datatype StrParse = Str(isHuff: bool, raw: Bytes, rest: Bytes) | StrStopped(why: StrStop)

  function Why(w: Varint.Failure): StrStop {
    if w == Varint.NeedMore then NeedMore else Bad(VarintOverflow)
  }

  function ReadString(maxStrLen: nat, p: Bytes): (r: StrParse)
    ensures r.Str? ==> |r.rest| < |p|
  {
    if p == [] then StrStopped(NeedMore)
    else match Varint.ReadVarInt(7, p)
      case Stopped(w) => StrStopped(Why(w))
      case Parsed(n, q) =>
        if maxStrLen != 0 && n > maxStrLen then StrStopped(Bad(StringTooLong))
        else if |q| < n then StrStopped(NeedMore)
        else Str(p[0] >= 128, q[..n], q[n..])
  }

  datatype Text = Text(value: Bytes) | NoText(error: Error)

  function DecodeText(sh: Shared, maxStrLen: nat, isHuff: bool, raw: Bytes): Text
    requires Huffman.Shaped(sh.code)
  {
    if !isHuff then Text(raw)
    else match HuffmanDecode.Decode(sh.code, maxStrLen, raw)
      case Ok(s) => Text(s)
      case Err(e) => NoText(if e == Huffman.StringLength then StringTooLong else InvalidHuffman)
  }

  function Emit(st: DecState, f: Field, rest: Bytes): Step {
    if st.maxStrLen != 0 && (|f.name| > st.maxStrLen || |f.value| > st.maxStrLen) then Fail(StringTooLong, st)
    else if st.emitEnabled then Next(st.(emitted := st.emitted + [f]), rest)
    else Next(st, rest)
  }

  function StopStep(st: DecState, w: StrStop): Step {
    match w
    case NeedMore => More
    case Bad(e) => Fail(e, st)
  }

  function ParseIndexed(sh: Shared, st: DecState, p: Bytes): Step {
    match Varint.ReadVarInt(7, p)
    case Stopped(w) => StopStep(st, Why(w))
    case Parsed(i, q) =>
      match At(sh, st.dyn.ents, i)
      case None => Fail(InvalidIndex(i), st)
      case Some(f) => Emit(st, Field(f.name, f.value, false), q)
  }

  datatype Kind = Incremental | WithoutIndexing | NeverIndexed

  // The name of a literal: an entry's, or a string still to be decoded.
  datatype Name = Known(name: Bytes, rest: Bytes) | Raw(isHuff: bool, raw: Bytes, rest: Bytes) | NoName(step: Step)

  function ParseName(sh: Shared, st: DecState, n: nat, p: Bytes): (r: Name)
    requires n == 4 || n == 6
    ensures !r.NoName? ==> |r.rest| < |p|
    ensures r.NoName? ==> r.step.More? || (r.step.Fail? && r.step.st == st)
  {
    match Varint.ReadVarInt(n, p)
    case Stopped(w) => NoName(StopStep(st, Why(w)))
    case Parsed(i, q) =>
      if i > 0 then
        match At(sh, st.dyn.ents, i)
        case None => NoName(Fail(InvalidIndex(i), st))
        case Some(f) => Known(f.name, q)
      else match ReadString(st.maxStrLen, q)
        case StrStopped(w) => NoName(StopStep(st, w))
        case Str(h, raw, q') => Raw(h, raw, q')
  }

  function NameText(sh: Shared, st: DecState, name: Name): Text
    requires Huffman.Shaped(sh.code) && !name.NoName?
  {
    match name
    case Known(s, _) => Text(s)
    case Raw(h, raw, _) => DecodeText(sh, st.maxStrLen, h, raw)
  }

  // Strings are decoded only if somebody wants them; a field to be indexed is always wanted.
  function FinishLiteral(sh: Shared, st: DecState, kind: Kind, name: Name, h: bool, raw: Bytes, rest: Bytes): Step
    requires Huffman.Shaped(sh.code) && !name.NoName?
  {
    if st.emitEnabled || kind == Incremental then
      match NameText(sh, st, name)
      case NoText(e) => Fail(e, st)
      case Text(s) =>
        match DecodeText(sh, st.maxStrLen, h, raw)
        case NoText(e) => Fail(e, st)
        case Text(v) =>
          var st' := if kind == Incremental then st.(dyn := Add(st.dyn, Field(s, v, false))) else st;
          Emit(st', Field(s, v, kind == NeverIndexed), rest)
    else
      Emit(st, Field(if name.Known? then name.name else [], [], kind == NeverIndexed), rest)
  }

  function ParseLiteral(sh: Shared, st: DecState, n: nat, kind: Kind, p: Bytes): Step
    requires Huffman.Shaped(sh.code) && (n == 4 || n == 6)
  {
    var name := ParseName(sh, st, n, p);
    if name.NoName? then name.step
    else match ReadString(st.maxStrLen, name.rest)
      case StrStopped(w) => StopStep(st, w)
      case Str(h, raw, q) => FinishLiteral(sh, st, kind, name, h, raw, q)
  }

  function ParseSizeUpdate(st: DecState, p: Bytes): Step {
    if !st.firstField && st.dyn.size > 0 then Fail(UpdateNotFirst, st)
    else match Varint.ReadVarInt(5, p)
      case Stopped(w) => StopStep(st, Why(w))
      case Parsed(v, q) =>
        if v > st.allowed then Fail(UpdateTooLarge, st)
        else Next(st.(dyn := SetMax(st.dyn, v)), q)
  }

  function ParseRepr(sh: Shared, st: DecState, p: Bytes): (r: Step)
    requires Huffman.Shaped(sh.code) && p != []
    ensures r.Next? ==> |r.rest| < |p|
  {
    var b := p[0];
    if b >= 128 then ParseIndexed(sh, st, p)
    else if b >= 64 then ParseLiteral(sh, st, 6, Incremental, p)
    else if b < 16 then ParseLiteral(sh, st, 4, WithoutIndexing, p)
    else if b < 32 then ParseLiteral(sh, st, 4, NeverIndexed, p)
    else ParseSizeUpdate(st, p)
  }

  // Everything in p: the state reached, the unfinished rest, and the error, if any.
  datatype Outcome = Outcome(st: DecState, left: Bytes, error: Option<Error>)

  function DecodeAll(sh: Shared, st: DecState, p: Bytes): Outcome
    requires Huffman.Shaped(sh.code)
    decreases |p|
  {
    if p == [] then Outcome(st, [], None)
    else match ParseRepr(sh, st, p)
      case More => Outcome(st, p, None)
      case Fail(e, st') => Outcome(st'.(firstField := false), [], Some(e))
      case Next(st', rest) => DecodeAll(sh, st'.(firstField := false), rest)
  }
}
