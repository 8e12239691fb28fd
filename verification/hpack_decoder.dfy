/** The HPACK decoder: incremental parsing over a mutable dynamic table. */
module HpackDecoder {
  import opened Options
  import opened Bits
  import opened HeaderTable
  import opened DynamicTable
  import opened HpackFormat
  import opened HpackChunks
  import Huffman
  import HuffmanDecode
  import HuffmanTree
  import Varint

  datatype Status = Done | NeedMoreData | Failed(error: Error)

  class Decoder {
    const sh: Shared
    const root: HuffmanTree.Tree
    const dynTab: DynTable
    var emitEnabled: bool
    var maxStrLen: nat
    var buf: Bytes
    var saveBuf: Bytes
    var firstField: bool
    // The calls of the emit function.
    var emitted: seq<Field>

    ghost predicate Valid()
      reads this, dynTab, dynTab.table
    {
      && Huffman.WellFormed(sh.code) && HuffmanTree.IsTree(sh.code, root)
      && dynTab.Valid()
    }

    function State(): DecState
      reads this, dynTab, dynTab.table
    {
      DecState(dynTab.State(), dynTab.allowedMaxSize, emitEnabled, maxStrLen, firstField, emitted)
    }

    ghost function Feeding(): Feed
      reads this, dynTab, dynTab.table
    {
      Feed(State(), saveBuf)
    }

    // What parsing one representation did to the decoder.
    twostate predicate Did(step: Step, r: Status)
      reads this, dynTab, dynTab.table
    {
      && saveBuf == old(saveBuf)
      && match step
         case More => r == NeedMoreData && State() == old(State()) && buf == old(buf)
         case Fail(e, st) => r == Failed(e) && State() == st
         case Next(st, rest) => r == Done && State() == st && buf == rest
    }

    constructor (sh: Shared, root: HuffmanTree.Tree, max: nat)
      requires Huffman.WellFormed(sh.code) && HuffmanTree.IsTree(sh.code, root)
      ensures Valid() && this.sh == sh && this.root == root && saveBuf == []
      ensures State() == DecState(Table([], 0, max), max, true, 0, true, [])
      ensures fresh(dynTab) && fresh(dynTab.table)
    {
      this.sh, this.root := sh, root;
      dynTab := new DynTable();
      emitEnabled, maxStrLen, firstField := true, 0, true;
      buf, saveBuf, emitted := [], [], [];
      new;
      dynTab.allowedMaxSize := max;
      dynTab.SetMaxSize(max);
    }

    // Index i in the static table, or counted from the newest dynamic entry.
    method EntryOf(i: nat) returns (r: Option<Field>)
      ensures r == At(sh, dynTab.table.ents, i)
    {
      if i == 0 {
        return None;
      }
      if i <= |sh.fixed| {
        return Some(sh.fixed[i - 1]);
      }
      if i > |dynTab.table.ents| + |sh.fixed| {
        return None;
      }
      return Some(dynTab.table.ents[|dynTab.table.ents| - (i - |sh.fixed|)]);
    }

    method CallEmit(f: Field) returns (r: Status)
      modifies this`emitted
      ensures match Emit(old(State()), f, [])
              case Fail(e, st) => r == Failed(e) && State() == st
              case Next(st, _) => r == Done && State() == st
              case More => false
    {
      if maxStrLen != 0 && (|f.name| > maxStrLen || |f.value| > maxStrLen) {
        return Failed(StringTooLong);
      }
      if emitEnabled {
        emitted := emitted + [f];
      }
      return Done;
    }

    method ReadStringAt(p: Bytes) returns (r: StrParse)
      ensures r == ReadString(maxStrLen, p)
    {
      hide Varint.ReadVarInt;
      if |p| == 0 {
        return StrStopped(NeedMore);
      }
      var isHuff := p[0] >= 128;
      var n := Varint.ReadVarIntLoop(7, p);
      if n.Stopped? {
        return StrStopped(Why(n.why));
      }
      if maxStrLen != 0 && n.value > maxStrLen {
        return StrStopped(Bad(StringTooLong));
      }
      if |n.rest| < n.value {
        return StrStopped(NeedMore);
      }
      return Str(isHuff, n.rest[..n.value], n.rest[n.value..]);
    }

    method DecodeStringAt(isHuff: bool, raw: Bytes) returns (r: Text)
      requires Valid()
      ensures r == DecodeText(sh, maxStrLen, isHuff, raw)
    {
      hide HuffmanDecode.Decode, Huffman.WellFormed, HuffmanTree.IsTree;
      if !isHuff {
        return Text(raw);
      }
      var d := HuffmanDecode.DecodeString(sh.code, root, maxStrLen, raw);
      match d
      case Ok(s) => return Text(s);
      case Err(e) => return NoText(if e == Huffman.StringLength then StringTooLong else InvalidHuffman);
    }

    method ParseFieldIndexed() returns (r: Status)
      requires Valid()
      modifies this`buf, this`emitted
      ensures Valid() && Did(ParseIndexed(sh, old(State()), old(buf)), r)
    {
      hide Varint.ReadVarInt, At, Huffman.WellFormed, HuffmanTree.IsTree;
      var n := Varint.ReadVarIntLoop(7, buf);
      if n.Stopped? {
        return if n.why == Varint.NeedMore then NeedMoreData else Failed(VarintOverflow);
      }
      var f := EntryOf(n.value);
      if f.None? {
        return Failed(InvalidIndex(n.value));
      }
      buf := n.rest;
      r := CallEmit(Field(f.value.name, f.value.value, false));
    }

    method ReadName(n: nat) returns (r: Name)
      requires Valid() && (n == 4 || n == 6)
      ensures r == ParseName(sh, State(), n, buf)
    {
      hide Varint.ReadVarInt, At, ReadString, Huffman.WellFormed, HuffmanTree.IsTree;
      var v := Varint.ReadVarIntLoop(n, buf);
      if v.Stopped? {
        return NoName(StopStep(State(), Why(v.why)));
      }
      if v.value > 0 {
        var f := EntryOf(v.value);
        if f.None? {
          return NoName(Fail(InvalidIndex(v.value), State()));
        }
        return Known(f.value.name, v.rest);
      }
      var s := ReadStringAt(v.rest);
      match s
      case StrStopped(w) => return NoName(StopStep(State(), w));
      case Str(h, raw, q) => return Raw(h, raw, q);
    }

    // The name of a literal whose value is wanted.
    method DecodeName(name: Name) returns (r: Text)
      requires Valid() && !name.NoName?
      ensures Huffman.Shaped(sh.code) && r == NameText(sh, State(), name)
    {
      hide DecodeText, Huffman.WellFormed, HuffmanTree.IsTree, Huffman.Shaped;
      Shapely();
      match name
      case Known(s, _) => return Text(s);
      case Raw(h, raw, _) => r := DecodeStringAt(h, raw);
    }

    // All octets of a literal have arrived: decode, index and emit it.
    method FinishFieldLiteral(kind: Kind, name: Name, h: bool, raw: Bytes, rest: Bytes) returns (r: Status)
      requires Valid() && !name.NoName?
      modifies this`buf, this`emitted, dynTab, dynTab.table
      ensures Valid() && Huffman.Shaped(sh.code)
      ensures Did(FinishLiteral(sh, old(State()), kind, name, h, raw, rest), r)
    {
      hide NameText, DecodeText, Huffman.WellFormed, HuffmanTree.IsTree, Huffman.Shaped, Add;
      Shapely();
      var f := Field(if name.Known? then name.name else [], [], false);
      if emitEnabled || kind == Incremental {
        var t := DecodeName(name);
        if t.NoText? {
          return Failed(t.error);
        }
        var v := DecodeStringAt(h, raw);
        if v.NoText? {
          return Failed(v.error);
        }
        f := Field(t.value, v.value, false);
      }
      buf := rest;
      if kind == Incremental {
        dynTab.AddField(f);
      }
      r := CallEmit(f.(sensitive := kind == NeverIndexed));
    }

    method ParseFieldLiteral(n: nat, kind: Kind) returns (r: Status)
      requires Valid() && (n == 4 || n == 6)
      modifies this`buf, this`emitted, dynTab, dynTab.table
      ensures Valid() && Huffman.Shaped(sh.code)
      ensures Did(ParseLiteral(sh, old(State()), n, kind, old(buf)), r)
    {
      hide ParseName, ReadString, FinishLiteral, Huffman.WellFormed, HuffmanTree.IsTree, Huffman.Shaped;
      Shapely();
      var name := ReadName(n);
      if name.NoName? {
        return if name.step.More? then NeedMoreData else Failed(name.step.error);
      }
      var v := ReadStringAt(name.rest);
      if v.StrStopped? {
        return if v.why.NeedMore? then NeedMoreData else Failed(v.why.error);
      }
      r := FinishFieldLiteral(kind, name, v.isHuff, v.raw, v.rest);
    }

    method ParseDynamicTableSizeUpdate() returns (r: Status)
      requires Valid()
      modifies this`buf, dynTab, dynTab.table
      ensures Valid() && Did(ParseSizeUpdate(old(State()), old(buf)), r)
    {
      hide Varint.ReadVarInt, Huffman.WellFormed, HuffmanTree.IsTree, SetMax;
      if !firstField && dynTab.size > 0 {
        return Failed(UpdateNotFirst);
      }
      var v := Varint.ReadVarIntLoop(5, buf);
      if v.Stopped? {
        return if v.why == Varint.NeedMore then NeedMoreData else Failed(VarintOverflow);
      }
      if v.value > dynTab.allowedMaxSize {
        return Failed(UpdateTooLarge);
      }
      dynTab.SetMaxSize(v.value);
      buf := v.rest;
      return Done;
    }

    lemma Shapely()
      requires Valid()
      ensures Huffman.Shaped(sh.code)
    {
    }

    // Dispatch on the leading bits of the first octet.
    method ParseHeaderFieldRepr() returns (r: Status)
      requires Valid() && buf != []
      modifies this`buf, this`emitted, dynTab, dynTab.table
      ensures Valid() && Huffman.Shaped(sh.code) && Did(ParseRepr(sh, old(State()), old(buf)), r)
    {
      hide ParseIndexed, ParseLiteral, ParseSizeUpdate, Huffman.WellFormed, HuffmanTree.IsTree, Huffman.Shaped;
      Shapely();
      var b := buf[0];
      if b >= 128 {
        r := ParseFieldIndexed();
      } else if b >= 64 {
        r := ParseFieldLiteral(6, Incremental);
      } else if b < 16 {
        r := ParseFieldLiteral(4, WithoutIndexing);
      } else if b < 32 {
        r := ParseFieldLiteral(4, NeverIndexed);
      } else {
        r := ParseDynamicTableSizeUpdate();
      }
    }

    // Write: parse as much as has arrived, and keep an unfinished representation.
    method Write(p: Bytes) returns (err: Option<Error>)
      requires Valid()
      modifies this`buf, this`saveBuf, this`firstField, this`emitted, dynTab, dynTab.table
      ensures Valid() && Huffman.Shaped(sh.code)
      ensures (Feeding(), err) == WriteChunk(sh, old(Feeding()), p)
    {
      hide ParseRepr, Huffman.WellFormed, HuffmanTree.IsTree, Huffman.Shaped;
      Shapely();
      if |p| == 0 {
        return None;
      }
      buf := saveBuf + p;
      saveBuf := [];
      ghost var goal := DecodeAll(sh, State(), buf);
      err := None;
      while |buf| > 0
        invariant Valid() && saveBuf == [] && err == None
        invariant DecodeAll(sh, State(), buf) == goal && maxStrLen == old(maxStrLen)
        decreases |buf|
      {
        ghost var st, all := State(), buf;
        var r := ParseHeaderFieldRepr();
        match r
        case NeedMoreData =>
          if maxStrLen != 0 && |buf| > 2 * (maxStrLen + VARINT_OVERHEAD) {
            return Some(StringTooLong);
          }
          saveBuf := buf;
          return None;
        case Failed(e) =>
          firstField := false;
          return Some(e);
        case Done =>
          firstField := false;
      }
    }

    // Close: nothing may be left over.
    method CloseBlock() returns (err: Option<Error>)
      requires Valid()
      modifies this`saveBuf, this`firstField
      ensures Valid() && (Feeding(), err) == Close(old(Feeding()))
    {
      if |saveBuf| > 0 {
        saveBuf := [];
        return Some(TruncatedHeaders);
      }
      firstField := true;
      return None;
    }
  }
}
