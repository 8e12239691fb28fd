/** The HPACK encoder, writing header fields over a mutable dynamic table. */
module HpackEncoder {
  import opened Bits
  import opened HeaderTable
  import opened DynamicTable
  import opened HpackFormat
  import opened HpackRoundTrip
  import Huffman
  import Varint

  class Encoder {
    const sh: Shared
    const staticTable: HeaderFieldTable
    const dynTab: DynTable
    var minSize: nat
    var maxSizeLimit: nat
    var tableSizeUpdate: bool
    var buf: Bytes
    // Everything handed to the underlying writer.
    var written: Bytes

    ghost predicate Valid()
      reads this, staticTable, dynTab, dynTab.table
    {
      && Huffman.Shaped(sh.code)
      && dynTab.Valid() && staticTable.Valid()
      && staticTable != dynTab.table
      && staticTable.fixed && staticTable.ents == sh.fixed
    }

    ghost function State(): EncState
      reads this, dynTab, dynTab.table
    {
      EncState(dynTab.State(), minSize, maxSizeLimit, tableSizeUpdate)
    }

    constructor (sh: Shared, staticTable: HeaderFieldTable)
      requires Huffman.Shaped(sh.code)
      requires staticTable.Valid() && staticTable.fixed && staticTable.ents == sh.fixed
      ensures Valid() && this.staticTable == staticTable && this.sh == sh
      ensures State() == EncState(Table([], 0, 4096), NO_MIN, 4096, false)
      ensures written == []
      ensures fresh(dynTab) && fresh(dynTab.table)
    {
      this.sh := sh;
      this.staticTable := staticTable;
      dynTab := new DynTable();
      minSize := NO_MIN;
      maxSizeLimit := 4096;
      tableSizeUpdate := false;
      buf, written := [], [];
      new;
      dynTab.SetMaxSize(4096);
    }

    // The answer is exact if and only if the field may be and is in one of the tables; it is 0 if
    // and only if no entry has the name.
    method SearchTable(f: Field) returns (i: nat, nameValueMatch: bool)
      requires Valid()
      modifies staticTable, dynTab.table
      ensures Valid() && State() == old(State())
      ensures (i, nameValueMatch) == Lookup(sh, dynTab.table.ents, f)
      ensures nameValueMatch <==> !f.sensitive && Present(sh, dynTab.table.ents, f)
      ensures i > 0 <==> Named(sh, dynTab.table.ents, f)
    {
      hide Scan, Huffman.Shaped, Present, Named;
      LookupFinds(sh, dynTab.table.ents, f);
      i, nameValueMatch := staticTable.Search(f);
      if nameValueMatch {
        return i, true;
      }
      var j;
      j, nameValueMatch := dynTab.table.Search(f);
      if nameValueMatch || (i == 0 && j != 0) {
        return j + |staticTable.ents|, nameValueMatch;
      }
      return i, false;
    }

    // The beginning of WriteField: the pending size updates.
    method StartField()
      requires Valid()
      modifies this`buf, this`minSize, this`tableSizeUpdate
      ensures Valid() && State() == Updated(old(State())) && buf == UpdateBytes(old(State()))
    {
      hide SizeUpdate, Huffman.Shaped;
      buf := [];
      if tableSizeUpdate {
        tableSizeUpdate := false;
        if minSize < dynTab.maxSize {
          buf := AppendTableSize(buf, minSize);
        }
        minSize := NO_MIN;
        buf := AppendTableSize(buf, dynTab.maxSize);
      }
    }

    // WriteField: pending size updates, then the field, in one write.
    method Write(f: Field)
      requires Valid() && |f.name| < Huffman.MAX_STRING && |f.value| < Huffman.MAX_STRING
      modifies this, staticTable, dynTab, dynTab.table
      ensures Valid()
      ensures State() == WriteField(sh, old(State()), f).0
      ensures written == old(written) + WriteField(sh, old(State()), f).1
    {
      hide Scan, Huffman.Shaped, Lookup, UpdateBytes, NewName, NameIndex, Flagged7, StringBytes, Size, Add;
      StartField();
      var idx, nameValueMatch := SearchTable(f);
      if nameValueMatch {
        buf := AppendIndexed(buf, idx);
      } else {
        var indexing := !f.sensitive && Size(f) <= dynTab.maxSize;
        if indexing {
          dynTab.AddField(f);
        }
        if idx == 0 {
          buf := AppendNewName(sh, buf, f, indexing);
        } else {
          buf := AppendIndexedName(sh, buf, f, idx, indexing);
        }
      }
      written := written + buf;
    }

    method SetMaxSize(v: nat)
      requires Valid()
      modifies this`minSize, this`tableSizeUpdate, dynTab, dynTab.table
      ensures Valid() && State() == SetMaxDynamicTableSize(old(State()), v)
    {
      hide SetMax, Huffman.Shaped;
      var v' := if v > maxSizeLimit then maxSizeLimit else v;
      if v' < minSize {
        minSize := v';
      }
      tableSizeUpdate := true;
      dynTab.SetMaxSize(v');
    }

    method SetMaxSizeLimit(v: nat)
      requires Valid()
      modifies this`maxSizeLimit, this`tableSizeUpdate, dynTab, dynTab.table
      ensures Valid() && State() == SetMaxDynamicTableSizeLimit(old(State()), v)
    {
      hide SetMax, Huffman.Shaped;
      maxSizeLimit := v;
      if dynTab.maxSize > v {
        tableSizeUpdate := true;
        dynTab.SetMaxSize(v);
      }
    }
  }

  // Or-ing flag bits into the octet at `first`, all of them clear there.
  method OrInto(dst: Bytes, first: nat, flags: nat) returns (r: Bytes)
    requires first < |dst| && dst[first] + flags < 256
    ensures r == dst[first := dst[first] + flags]
  {
    r := dst[first := dst[first] + flags];
  }

  lemma FlaggedAt(dst: Bytes, flags: nat, n: nat, i: nat)
    requires 1 <= n <= 8 && flags + Pow2(n) <= 256
    ensures var d := dst + Varint.VarInt(n, i);
            d[|dst|] + flags < 256 && d[|dst| := d[|dst|] + flags] == dst + Varint.Flagged(flags, n, i)
  {
    hide Varint.VarInt;
  }

  method AppendIndexed(dst: Bytes, i: nat) returns (r: Bytes)
    ensures r == dst + Flagged7(i)
  {
    hide Varint.VarInt, Varint.Flagged;
    r := Varint.AppendVarInt(dst, 7, i);
    Pow2Values();
    FlaggedAt(dst, 0x80, 7, i);
    r := OrInto(r, |dst|, 0x80);
  }

  method AppendTableSize(dst: Bytes, v: nat) returns (r: Bytes)
    ensures r == dst + SizeUpdate(v)
  {
    hide Varint.VarInt, Varint.Flagged;
    r := Varint.AppendVarInt(dst, 5, v);
    Pow2Values();
    FlaggedAt(dst, 0x20, 5, v);
    r := OrInto(r, |dst|, 0x20);
  }

  // A string, Huffman-coded only if that makes it strictly shorter.
  method AppendHpackString(sh: Shared, dst: Bytes, s: Bytes) returns (r: Bytes)
    requires Huffman.Shaped(sh.code) && |s| < Huffman.MAX_STRING
    ensures r == dst + StringBytes(sh, s)
  {
    hide Varint.VarInt, Varint.Flagged, Huffman.HuffmanString;
    var huffmanLength := Huffman.HuffmanEncodeLength(sh.code, s);
    if huffmanLength < |s| {
      var first := |dst|;
      r := Varint.AppendVarInt(dst, 7, huffmanLength);
      Pow2Values();
      FlaggedAt(dst, 0x80, 7, huffmanLength);
      ghost var d := r;
      r := Huffman.AppendHuffmanString(sh.code, r, s);
      r := OrInto(r, first, 0x80);
      assert r == d[first := d[first] + 0x80] + Huffman.HuffmanString(sh.code, s);
    } else {
      r := Varint.AppendVarInt(dst, 7, |s|);
      r := r + s;
    }
  }

  method AppendNewName(sh: Shared, dst: Bytes, f: Field, indexing: bool) returns (r: Bytes)
    requires Huffman.Shaped(sh.code) && |f.name| < Huffman.MAX_STRING && |f.value| < Huffman.MAX_STRING
    ensures r == dst + NewName(sh, f, indexing)
  {
    hide StringBytes;
    r := dst + [TypeByte(indexing, f.sensitive)];
    r := AppendHpackString(sh, r, f.name);
    r := AppendHpackString(sh, r, f.value);
  }

  method AppendIndexedName(sh: Shared, dst: Bytes, f: Field, i: nat, indexing: bool) returns (r: Bytes)
    requires Huffman.Shaped(sh.code) && |f.value| < Huffman.MAX_STRING && (indexing ==> !f.sensitive)
    ensures r == dst + (NameIndex(f, i, indexing) + StringBytes(sh, f.value))
  {
    hide StringBytes, Varint.VarInt, Varint.Flagged;
    var n := if indexing then 6 else 4;
    r := Varint.AppendVarInt(dst, n, i);
    Pow2Values();
    FlaggedAt(dst, TypeByte(indexing, f.sensitive), n, i);
    r := OrInto(r, |dst|, TypeByte(indexing, f.sensitive));
    r := AppendHpackString(sh, r, f.value);
  }
}
