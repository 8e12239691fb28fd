/** Decoding Huffman-coded strings, and the exact set of strings the decoder accepts. */
module HuffmanDecode {
  import opened Bits
  import opened Huffman
  import opened HuffmanTree

  // The least symbol from s on whose code word starts the bits b, or 256.
  function Match(t: CodeTable, b: seq<bool>, s: nat): (r: nat)
    requires Shaped(t) && s <= 256
    ensures s <= r <= 256
    ensures r < 256 ==> Code(t, r) <= b
    ensures forall c: Byte :: s <= c < r ==> !(Code(t, c) <= b)
    decreases 256 - s
  {
    if s == 256 then 256 else if Code(t, s) <= b then s else Match(t, b, s + 1)
  }

  lemma MatchIs(t: CodeTable, b: seq<bool>, s: Byte)
    requires Shaped(t) && PrefixFree(t) && Code(t, s) <= b
    ensures Match(t, b, 0) == s
  {
    var r := Match(t, b, 0);
    if |Code(t, r)| <= |Code(t, s)| {
      PrefixTrans(Code(t, r), Code(t, s), b);
    } else {
      PrefixTrans(Code(t, s), Code(t, r), b);
    }
  }

  lemma NoMatch(t: CodeTable, b: seq<bool>)
    requires Shaped(t) && forall s: Byte :: !(Code(t, s) <= b)
    ensures Match(t, b, 0) == 256
  {
  }

  predicate IsPadding(b: seq<bool>) {
    |b| <= 7 && b == Ones(|b|)
  }

  // Read code words off b until none fits; what is left must be padding. At most maxLen
  // symbols are accepted, unless maxLen is 0.
  function DecodeBits(t: CodeTable, maxLen: nat, out: Bytes, b: seq<bool>): Result
    requires Shaped(t)
    decreases |b|
  {
    var s := Match(t, b, 0);
    if s < 256 then
      if maxLen != 0 && |out| == maxLen then Err(StringLength)
      else DecodeBits(t, maxLen, out + [s], b[|Code(t, s)|..])
    else if IsPadding(b) then Ok(out)
    else Err(InvalidHuffman)
  }

  function Decode(t: CodeTable, maxLen: nat, v: Bytes): Result
    requires Shaped(t)
  {
    DecodeBits(t, maxLen, [], BytesToBits(v))
  }

  // ---------------------------------------------------------------- what is accepted

  // v is the code words of s followed by at most seven one-bits.
  ghost predicate Encodes(t: CodeTable, v: Bytes, s: Bytes)
    requires Shaped(t)
  {
    exists k: nat :: k <= 7 && BytesToBits(v) == Encode(t, s) + Ones(k)
  }

  lemma DecodeStep(t: CodeTable, maxLen: nat, out: Bytes, c: Byte, rest: seq<bool>)
    requires Shaped(t) && Match(t, Code(t, c) + rest, 0) == c
    ensures DecodeBits(t, maxLen, out, Code(t, c) + rest) ==
            if maxLen != 0 && |out| == maxLen then Err(StringLength)
            else DecodeBits(t, maxLen, out + [c], rest)
  {
    assert (Code(t, c) + rest)[|Code(t, c)|..] == rest;
  }

  lemma DecodeStop(t: CodeTable, maxLen: nat, out: Bytes, b: seq<bool>)
    requires Shaped(t) && Match(t, b, 0) == 256
    ensures DecodeBits(t, maxLen, out, b) == if IsPadding(b) then Ok(out) else Err(InvalidHuffman)
  {
  }

  lemma TakeFirst(out: Bytes, s: Bytes)
    requires s != []
    ensures (out + [s[0]]) + s[1..] == out + s
  {
  }

  lemma NothingLeft(t: CodeTable, out: Bytes, pad: seq<bool>)
    requires Shaped(t)
    ensures Encode(t, []) + pad == pad && out + [] == out
  {
  }

  lemma PaddingStops(t: CodeTable, k: nat)
    requires WellFormed(t) && k <= 7
    ensures Match(t, Ones(k), 0) == 256 && IsPadding(Ones(k))
  {
    forall c: Byte
      ensures !(Code(t, c) <= Ones(k))
    {
      var m := |Code(t, c)|;
      if Code(t, c) <= Ones(k) {
        OnesPrefix(Code(t, c), k);
      }
    }
  }

  lemma OnesPrefix(b: seq<bool>, k: nat)
    requires b <= Ones(k)
    ensures b == Ones(|b|) && |b| <= k
  {
  }

  lemma EncodeCons(t: CodeTable, s: Bytes, pad: seq<bool>)
    requires Shaped(t) && s != []
    ensures Encode(t, s) + pad == Code(t, s[0]) + (Encode(t, s[1..]) + pad)
  {
  }

  lemma {:induction false} DecodeAccepts(t: CodeTable, maxLen: nat, out: Bytes, s: Bytes, pad: seq<bool>)
    requires Shaped(t) && PrefixFree(t)
    requires Match(t, pad, 0) == 256 && IsPadding(pad)
    requires maxLen == 0 || |out| + |s| <= maxLen
    ensures DecodeBits(t, maxLen, out, Encode(t, s) + pad) == Ok(out + s)
    decreases |s|
  {
    if s == [] {
      NothingLeft(t, out, pad);
      DecodeStop(t, maxLen, out, pad);
    } else {
      EncodeCons(t, s, pad);
      MatchIs(t, Encode(t, s) + pad, s[0]);
      DecodeStep(t, maxLen, out, s[0], Encode(t, s[1..]) + pad);
      DecodeAccepts(t, maxLen, out + [s[0]], s[1..], pad);
      TakeFirst(out, s);
    }
  }

  // A longer string is refused once the limit is reached.
  lemma {:induction false} DecodeLimits(t: CodeTable, maxLen: nat, out: Bytes, s: Bytes, pad: seq<bool>)
    requires Shaped(t) && PrefixFree(t) && maxLen != 0 && |out| <= maxLen < |out| + |s|
    ensures DecodeBits(t, maxLen, out, Encode(t, s) + pad) == Err(StringLength)
    decreases |s|
  {
    EncodeCons(t, s, pad);
    MatchIs(t, Encode(t, s) + pad, s[0]);
    DecodeStep(t, maxLen, out, s[0], Encode(t, s[1..]) + pad);
    if |out| < maxLen {
      DecodeLimits(t, maxLen, out + [s[0]], s[1..], pad);
    }
  }

  lemma {:induction false} DecodeSound(t: CodeTable, maxLen: nat, out: Bytes, b: seq<bool>)
    returns (s: Bytes, pad: seq<bool>)
    requires Shaped(t) && DecodeBits(t, maxLen, out, b).Ok?
    ensures IsPadding(pad) && b == Encode(t, s) + pad
    ensures DecodeBits(t, maxLen, out, b) == Ok(out + s)
    decreases |b|
  {
    hide Encode, ToBits;
    var c := Match(t, b, 0);
    if c < 256 {
      var rest := b[|Code(t, c)|..];
      assert b == Code(t, c) + rest;
      var u;
      u, pad := DecodeSound(t, maxLen, out + [c], rest);
      s := [c] + u;
      DecodeStep(t, maxLen, out, c, rest);
      assert s[1..] == u && s[0] == c;
      EncodeCons(t, s, pad);
      TakeFirst(out, s);
    } else {
      s, pad := [], b;
      NothingLeft(t, out, pad);
      DecodeStop(t, maxLen, out, b);
    }
  }

  lemma DecodeWords(t: CodeTable, maxLen: nat, out: Bytes, s: Bytes, pad: seq<bool>)
    requires Shaped(t) && PrefixFree(t)
    requires Match(t, pad, 0) == 256 && IsPadding(pad)
    requires maxLen == 0 || |out| <= maxLen
    ensures DecodeBits(t, maxLen, out, Encode(t, s) + pad) ==
            if maxLen == 0 || |out| + |s| <= maxLen then Ok(out + s) else Err(StringLength)
  {
    if maxLen == 0 || |out| + |s| <= maxLen {
      DecodeAccepts(t, maxLen, out, s, pad);
    } else {
      DecodeLimits(t, maxLen, out, s, pad);
    }
  }

  lemma PaddedDecodes(t: CodeTable, maxLen: nat, v: Bytes, s: Bytes, k: nat)
    requires WellFormed(t) && k <= 7
    requires BytesToBits(v) == Encode(t, s) + Ones(k)
    ensures Decode(t, maxLen, v) == if maxLen == 0 || |s| <= maxLen then Ok(s) else Err(StringLength)
  {
    hide DecodeBits, Match, Encode, PrefixFree, WellFormed, BytesToBits;
    Parts(t);
    PaddingStops(t, k);
    DecodeWords(t, maxLen, [], s, Ones(k));
    assert [] + s == s;
  }

  // Without a length limit the decoder returns s exactly on the encodings of s.
  lemma DecodeExact(t: CodeTable, v: Bytes, s: Bytes)
    requires WellFormed(t)
    ensures Decode(t, 0, v) == Ok(s) <==> Encodes(t, v, s)
  {
    if k: nat :| k <= 7 && BytesToBits(v) == Encode(t, s) + Ones(k) {
      PaddedDecodes(t, 0, v, s, k);
    }
    if Decode(t, 0, v) == Ok(s) {
      DecodedEncodes(t, v);
    }
  }

  lemma DecodedEncodes(t: CodeTable, v: Bytes)
    requires Shaped(t) && Decode(t, 0, v).Ok?
    ensures Encodes(t, v, Decode(t, 0, v).value)
  {
    var u, pad := DecodeSound(t, 0, [], BytesToBits(v));
    assert [] + u == u;
    assert BytesToBits(v) == Encode(t, u) + Ones(|pad|);
  }

  // What the encoder writes reads back, unless the string is over the limit.
  lemma DecodeOfEncode(t: CodeTable, maxLen: nat, s: Bytes)
    requires WellFormed(t)
    ensures Decode(t, maxLen, HuffmanString(t, s)) ==
            if maxLen == 0 || |s| <= maxLen then Ok(s) else Err(StringLength)
  {
    var k := PadLength(|Encode(t, s)|);
    PackBits(Encode(t, s) + Ones(k));
    PaddedDecodes(t, maxLen, HuffmanString(t, s), s, k);
  }

  // ---------------------------------------------------------------- the table-driven decoder

  // A code word that starts on the bits of an inner path is longer than the path.
  lemma LongerThanInner(t: CodeTable, tree: Tree, path: Bytes, b: seq<bool>, c: Byte)
    requires Shaped(t) && PrefixFree(t) && IsTree(t, tree)
    requires path in tree && tree[path] == Internal
    requires BytesToBits(path) <= b && Code(t, c) <= b
    ensures 8 * |path| < |Code(t, c)|
  {
    if |Code(t, c)| <= 8 * |path| {
      PrefixTrans(Code(t, c), BytesToBits(path), b);
      assert Placed(t.lens, SlotsOf(t), 256, path, Internal);
      var s: Byte :| (s, path) in SlotsOf(t).inner;
      PrefixChain(Code(t, c), BytesToBits(path), Code(t, s));
    }
  }

  // The only code word that can start on bits beginning with path and octet i is the one the
  // tree shows there, if any.
  lemma LookupMatch(t: CodeTable, tree: Tree, path: Bytes, i: Byte, b: seq<bool>, c: Byte)
    requires Shaped(t) && PrefixFree(t) && IsTree(t, tree)
    requires path in tree && tree[path] == Internal
    requires BytesToBits(path) <= b && Code(t, c) <= b
    requires b <= BytesToBits(path + [i]) || BytesToBits(path + [i]) <= b
    ensures path + [i] in tree
    ensures tree[path + [i]] == Leaf(|Code(t, c)| - 8 * |path|, c) || 8 * |path + [i]| < |Code(t, c)|
  {
    hide Encode, ToBits, PrefixFree;
    var p := path + [i];
    LongerThanInner(t, tree, path, b, c);
    SlotsDisjoint(t);
    var a := BytesToBits(p);
    if |Code(t, c)| <= |a| {
      if a <= b {
        PrefixTrans(Code(t, c), a, b);
      } else {
        PrefixChain(Code(t, c), b, a);
      }
      assert (c, p) in SlotsOf(t).leaf;
      assert Placed(t.lens, SlotsOf(t), 256, p, tree[p]);
    } else {
      assert |a| < |b|;
      PrefixTrans(a, Code(t, c), b);
      assert (c, p) in SlotsOf(t).inner;
    }
  }

  lemma LookupLeaf(t: CodeTable, tree: Tree, path: Bytes, i: Byte)
    requires Shaped(t) && PrefixFree(t) && IsTree(t, tree)
    requires path + [i] in tree && tree[path + [i]].Leaf?
    ensures var Leaf(l, s) := tree[path + [i]];
            1 <= l <= 8 && |Code(t, s)| == 8 * |path| + l && Code(t, s) <= BytesToBits(path + [i])
  {
    assert Placed(t.lens, SlotsOf(t), 256, path + [i], tree[path + [i]]);
  }

  // An octet with no child: the rest cannot be decoded.
  lemma NilChild(t: CodeTable, tree: Tree, path: Bytes, i: Byte, maxLen: nat, out: Bytes, b: seq<bool>)
    requires Shaped(t) && PrefixFree(t) && IsTree(t, tree)
    requires path in tree && tree[path] == Internal && path + [i] !in tree
    requires BytesToBits(path) <= b && BytesToBits(path + [i]) <= b
    ensures DecodeBits(t, maxLen, out, b) == Err(InvalidHuffman)
  {
    forall c: Byte
      ensures !(Code(t, c) <= b)
    {
      if Code(t, c) <= b {
        LookupMatch(t, tree, path, i, b, c);
      }
    }
    NoMatch(t, b);
    DecodeStop(t, maxLen, out, b);
  }

  lemma LeafWord(t: CodeTable, tree: Tree, path: Bytes, i: Byte, b: seq<bool>)
    requires Shaped(t) && PrefixFree(t) && IsTree(t, tree)
    requires path + [i] in tree && tree[path + [i]].Leaf?
    requires 8 * |path| + tree[path + [i]].codeLen <= |b|
    requires b <= BytesToBits(path + [i]) || BytesToBits(path + [i]) <= b
    ensures var Leaf(l, s) := tree[path + [i]];
            Match(t, b, 0) == s && |Code(t, s)| == 8 * |path| + l && 1 <= l <= 8
  {
    LookupLeaf(t, tree, path, i);
    var s := tree[path + [i]].sym;
    var a := BytesToBits(path + [i]);
    if a <= b {
      PrefixChain(Code(t, s), a, b);
    } else {
      PrefixTrans(Code(t, s), b, a);
    }
    MatchIs(t, b, s);
  }

  lemma DecodeAt(t: CodeTable, maxLen: nat, out: Bytes, c: Byte, n: nat, b: seq<bool>)
    requires Shaped(t) && Match(t, b, 0) == c && n == |Code(t, c)|
    ensures DecodeBits(t, maxLen, out, b) ==
            if maxLen != 0 && |out| == maxLen then Err(StringLength)
            else DecodeBits(t, maxLen, out + [c], b[n..])
  {
  }

  // Fewer than eight bits left, looked up with zeros after them: no symbol fits.
  lemma NoSymbolFits(t: CodeTable, tree: Tree, path: Bytes, i: Byte, b: seq<bool>)
    requires Shaped(t) && PrefixFree(t) && IsTree(t, tree)
    requires path in tree && tree[path] == Internal
    requires BytesToBits(path) <= b && b <= BytesToBits(path + [i])
    requires path + [i] in tree && tree[path + [i]].Leaf? ==> tree[path + [i]].codeLen > |b| - 8 * |path|
    ensures Match(t, b, 0) == 256
  {
    forall c: Byte
      ensures !(Code(t, c) <= b)
    {
      if Code(t, c) <= b {
        LookupMatch(t, tree, path, i, b, c);
      }
    }
    NoMatch(t, b);
  }

  // The bits not yet turned into symbols: those of the path, then the low cbits bits of cur.
  function Unread(path: Bytes, cur: nat, cbits: nat): (b: seq<bool>)
    ensures |b| == 8 * |path| + cbits
  {
    BytesToBits(path) + ToBits(cur, cbits)
  }

  lemma PushOctet(path: Bytes, cur: nat, cbits: nat, c: Byte)
    requires cbits < 8
    ensures Unread(path, (Shl(cur, 8) + c) % 0x1_0000_0000_0000_0000, cbits + 8) ==
            Unread(path, cur, cbits) + ToBits(c, 8)
  {
    Pow2Values();
    ToBitsAppend(cur, cbits, c, 8);
    Pow2Value64();
    ToBitsMod(Shl(cur, 8) + c, 64, cbits + 8);
  }

  // Moving an octet from the buffer to the path.
  lemma MoveOctet(path: Bytes, cur: nat, cbits: nat)
    requires cbits >= 8
    ensures Unread(path + [Octet(cur, cbits - 8)], cur, cbits - 8) == Unread(path, cur, cbits)
  {
    hide ToBits, Octet, BytesToBits;
    var i := Octet(cur, cbits - 8);
    OctetBits(cur, cbits - 8);
    BytesToBitsConcat(path, [i]);
    assert cbits - 8 + 8 == cbits;
    var a, b, c := BytesToBits(path), BytesToBits([i]), ToBits(cur, cbits - 8);
    assert a + (b + c) == (a + b) + c;
  }

  // Dropping the path and the first l bits of the buffer.
  lemma DropWord(path: Bytes, cur: nat, cbits: nat, l: nat)
    requires l <= cbits
    ensures Unread(path, cur, cbits)[8 * |path| + l..] == Unread([], cur, cbits - l)
  {
    ToBitsSplit(cur, l, cbits - l);
    assert l + (cbits - l) == cbits;
    assert BytesToBits([]) == [];
  }

  // The buffer's bits with zeros after them, as an octet.
  lemma PeekShort(path: Bytes, cur: nat, cbits: nat)
    requires cbits < 8
    ensures Unread(path, cur, cbits) <= BytesToBits(path + [Shl(cur, 8 - cbits) % 256])
  {
    var i := Shl(cur, 8 - cbits) % 256;
    ToBitsAppend(cur, cbits, 0, 8 - cbits);
    assert cbits + (8 - cbits) == 8;
    Pow2Values();
    ToBitsMod(Shl(cur, 8 - cbits), 8, 8);
    SnocBits(path, i);
  }

  // Nothing fits: the bits left must be padding.
  lemma OnlyPadding(t: CodeTable, maxLen: nat, out: Bytes, cur: nat, cbits: nat)
    requires Shaped(t) && cbits < 8 && Match(t, Unread([], cur, cbits), 0) == 256
    ensures DecodeBits(t, maxLen, out, Unread([], cur, cbits)) ==
            if cur % Pow2(cbits) == Pow2(cbits) - 1 then Ok(out) else Err(InvalidHuffman)
  {
    var b := Unread([], cur, cbits);
    assert b == ToBits(cur, cbits);
    DecodeStop(t, maxLen, out, b);
    var p := Pow2(cbits);
    ToBitsMod(cur, cbits, cbits);
    OnesBits(cbits);
    if b == Ones(cbits) {
      ToBitsInjective(cur % p, p - 1, cbits);
    }
  }

  lemma TooLong(t: CodeTable, maxLen: nat, out: Bytes, b: seq<bool>)
    requires Shaped(t) && Match(t, b, 0) == 256 && |b| > 7
    ensures DecodeBits(t, maxLen, out, b) == Err(InvalidHuffman)
  {
    DecodeStop(t, maxLen, out, b);
  }

  // Padding alone never runs into a dead end.
  lemma PaddingIsInTree(t: CodeTable, tree: Tree, cur: nat, cbits: nat)
    requires WellFormed(t) && IsTree(t, tree) && 0 < cbits < 8
    requires ToBits(cur, cbits) == Ones(cbits)
    ensures [Shl(cur, 8 - cbits) % 256] in tree
  {
    PaddedOctet(cur, cbits);
    var p := [OnesOctet(cbits)];
    assert SlotUsed(t, p);
    var s: Byte :| LeafSlot(t, s, p) || InnerSlot(t, s, p);
    assert (s, p) in SlotsOf(t).leaf || (s, p) in SlotsOf(t).inner;
  }

  // A dead end in the tree while fewer than eight bits are left.
  lemma DeadEnd(t: CodeTable, tree: Tree, maxLen: nat, out: Bytes, path: Bytes, cur: nat, cbits: nat)
    requires WellFormed(t) && IsTree(t, tree) && 0 < cbits < 8
    requires path in tree && tree[path] == Internal
    requires path + [Shl(cur, 8 - cbits) % 256] !in tree
    ensures DecodeBits(t, maxLen, out, Unread(path, cur, cbits)) == Err(InvalidHuffman)
  {
    hide DecodeBits, Match, PrefixFree, IsTree, ToBits;
    var i := Shl(cur, 8 - cbits) % 256;
    var b := Unread(path, cur, cbits);
    PeekShort(path, cur, cbits);
    NoSymbolFits(t, tree, path, i, b);
    DecodeStop(t, maxLen, out, b);
    if path == [] && ToBits(cur, cbits) == Ones(cbits) {
      assert path + [i] == [i];
      PaddingIsInTree(t, tree, cur, cbits);
    }
    assert path == [] ==> b == ToBits(cur, cbits);
  }

  lemma {:induction false} OnesOctetBits(k: nat)
    requires k <= 8
    ensures ToBits(OnesOctet(k), 8) == Ones(k) + ToBits(0, 8 - k)
  {
    if k > 0 {
      OnesOctetBits(k - 1);
      var x := OnesOctet(k - 1);
      HighBit(x);
      ToBitsZeros(8 - (k - 1));
      assert ToBits(x, 8) == ToBits(x / 2, 7) + [x % 2 == 1];
      ShiftOnes(ToBits(x / 2, 7), x % 2 == 1, k, ToBits(0, 8 - k));
    } else {
      assert Ones(0) + ToBits(0, 8) == ToBits(0, 8);
    }
  }

  lemma ShiftOnes(y: seq<bool>, last: bool, k: nat, z: seq<bool>)
    requires k > 0 && y + [last] == Ones(k - 1) + (z + [false])
    ensures [true] + y == Ones(k) + z
  {
    assert y == (y + [last])[..|y|] == Ones(k - 1) + z;
  }

  lemma {:induction false} ToBitsZeros(n: nat)
    ensures forall i :: 0 <= i < n ==> !ToBits(0, n)[i]
    ensures n > 0 ==> ToBits(0, n) == ToBits(0, n - 1) + [false]
  {
    if n > 0 {
      ToBitsZeros(n - 1);
    }
  }

  // Shifting an octet right and setting its high bit.
  lemma HighBit(x: Byte)
    ensures ToBits(128 + x / 2, 8) == [true] + ToBits(x / 2, 7)
  {
    Pow2Values();
    assert ToBits(1, 1) == [true];
    ShlIsProduct(1, 7);
    ToBitsAppend(1, 1, x / 2, 7);
  }

  lemma PaddedOctet(cur: nat, cbits: nat)
    requires 0 < cbits < 8 && ToBits(cur, cbits) == Ones(cbits)
    ensures Shl(cur, 8 - cbits) % 256 == OnesOctet(cbits)
  {
    var i := Shl(cur, 8 - cbits) % 256;
    ToBitsAppend(cur, cbits, 0, 8 - cbits);
    assert cbits + (8 - cbits) == 8;
    Pow2Values();
    ToBitsMod(Shl(cur, 8 - cbits), 8, 8);
    OnesOctetBits(cbits);
    ToBitsInjective(i, OnesOctet(cbits), 8);
  }

  // The symbols found so far, or why decoding failed.
  datatype Progress = Going(path: Bytes, cbits: nat, sbits: nat, out: Bytes) | Failed(error: Error)

  // One octet of the buffer with no child in the tree.
  lemma StepNil(t: CodeTable, tree: Tree, maxLen: nat, cur: nat, n: Bytes, c: nat, o: Bytes, more: seq<bool>)
    requires Shaped(t) && PrefixFree(t) && IsTree(t, tree) && n in tree && tree[n] == Internal && c >= 8
    requires n + [Octet(cur, c - 8)] !in tree
    ensures DecodeBits(t, maxLen, o, Unread(n, cur, c) + more) == Err(InvalidHuffman)
  {
    var i := Octet(cur, c - 8);
    MoveOctet(n, cur, c);
    var b := Unread(n, cur, c) + more;
    assert BytesToBits(n + [i]) <= b && BytesToBits(n) <= b;
    NilChild(t, tree, n, i, maxLen, o, b);
  }

  // One octet of the buffer that ends a code word.
  lemma StepLeaf(t: CodeTable, tree: Tree, maxLen: nat, cur: nat, n: Bytes, c: nat, o: Bytes, more: seq<bool>)
    requires Shaped(t) && PrefixFree(t) && IsTree(t, tree) && c >= 8
    requires n + [Octet(cur, c - 8)] in tree && tree[n + [Octet(cur, c - 8)]].Leaf?
    ensures var Leaf(l, s) := tree[n + [Octet(cur, c - 8)]];
            && 1 <= l <= 8
            && DecodeBits(t, maxLen, o, Unread(n, cur, c) + more) ==
               if maxLen != 0 && |o| == maxLen then Err(StringLength)
               else DecodeBits(t, maxLen, o + [s], Unread([], cur, c - l) + more)
  {
    hide DecodeBits, Match, PrefixFree, IsTree, ToBits;
    var i := Octet(cur, c - 8);
    MoveOctet(n, cur, c);
    var u := Unread(n, cur, c);
    var b := u + more;
    assert BytesToBits(n + [i]) <= b;
    LookupLeaf(t, tree, n, i);
    LeafWord(t, tree, n, i, b);
    var Leaf(l, s) := tree[n + [i]];
    DecodeAt(t, maxLen, o, s, 8 * |n| + l, b);
    DropWord(n, cur, c, l);
    DropFront(u, more, 8 * |n| + l);
  }

  lemma DropFront(u: seq<bool>, more: seq<bool>, k: nat)
    requires k <= |u|
    ensures (u + more)[k..] == u[k..] + more
  {
  }

  // The inner loop of huffmanDecode: follow whole octets of the buffer through the tree.
  method FollowOctets(t: CodeTable, tree: Tree, maxLen: nat, cur: nat, path: Bytes, cbits: nat, sbits: nat,
                      out: Bytes, ghost more: seq<bool>)
    returns (r: Progress)
    requires Shaped(t) && PrefixFree(t) && IsTree(t, tree)
    requires path in tree && tree[path] == Internal && sbits == 8 * |path| + cbits
    ensures match r
            case Failed(e) => DecodeBits(t, maxLen, out, Unread(path, cur, cbits) + more) == Err(e)
            case Going(n, c, s, o) =>
              && c < 8 && s == 8 * |n| + c && n in tree && tree[n] == Internal
              && DecodeBits(t, maxLen, o, Unread(n, cur, c) + more) ==
                 DecodeBits(t, maxLen, out, Unread(path, cur, cbits) + more)
  {
    hide *;
    RootIsInner(t, tree);
    var n: Bytes, c: nat, s: nat, o := path, cbits, sbits, out;
    ghost var goal := DecodeBits(t, maxLen, out, Unread(path, cur, cbits) + more);
    while c >= 8
      invariant n in tree && tree[n] == Internal && s == 8 * |n| + c
      invariant DecodeBits(t, maxLen, o, Unread(n, cur, c) + more) == goal
      decreases c
    {
      var next := n + [Octet(cur, c - 8)];
      if next !in tree {
        StepNil(t, tree, maxLen, cur, n, c, o, more);
        return Failed(InvalidHuffman);
      }
      var child := tree[next];
      if child.Leaf? {
        StepLeaf(t, tree, maxLen, cur, n, c, o, more);
        if maxLen != 0 && |o| == maxLen {
          return Failed(StringLength);
        }
        o := o + [child.sym];
        c := c - child.codeLen;
        n := [];
        s := c;
      } else {
        MoveOctet(n, cur, c);
        n := next;
        c := c - 8;
      }
    }
    return Going(n, c, s, o);
  }

  // A code word that ends within the last few bits.
  lemma LastWord(t: CodeTable, tree: Tree, maxLen: nat, cur: nat, n: Bytes, c: nat, o: Bytes)
    requires Shaped(t) && PrefixFree(t) && IsTree(t, tree) && 0 < c < 8
    requires n + [Shl(cur, 8 - c) % 256] in tree
    requires tree[n + [Shl(cur, 8 - c) % 256]].Leaf? && tree[n + [Shl(cur, 8 - c) % 256]].codeLen <= c
    ensures var Leaf(l, s) := tree[n + [Shl(cur, 8 - c) % 256]];
            && 1 <= l
            && DecodeBits(t, maxLen, o, Unread(n, cur, c)) ==
               if maxLen != 0 && |o| == maxLen then Err(StringLength)
               else DecodeBits(t, maxLen, o + [s], Unread([], cur, c - l))
  {
    hide DecodeBits, Match, PrefixFree, IsTree, ToBits;
    var i := Shl(cur, 8 - c) % 256;
    var b := Unread(n, cur, c);
    PeekShort(n, cur, c);
    LeafWord(t, tree, n, i, b);
    var Leaf(l, s) := tree[n + [i]];
    DecodeAt(t, maxLen, o, s, 8 * |n| + l, b);
    DropWord(n, cur, c, l);
  }

  // The end of huffmanDecode: code words that end within the last few bits, then padding.
  method FinishBits(t: CodeTable, tree: Tree, maxLen: nat, cur: nat, path: Bytes, cbits: nat, sbits: nat, out: Bytes)
    returns (r: Result)
    requires WellFormed(t) && IsTree(t, tree) && cbits < 8
    requires path in tree && tree[path] == Internal && sbits == 8 * |path| + cbits
    ensures r == DecodeBits(t, maxLen, out, Unread(path, cur, cbits))
  {
    hide *;
    Parts(t);
    RootIsInner(t, tree);
    var n: Bytes, c: nat, s: nat, o := path, cbits, sbits, out;
    ghost var goal := DecodeBits(t, maxLen, out, Unread(path, cur, cbits));
    while c > 0
      invariant c < 8 && n in tree && tree[n] == Internal && s == 8 * |n| + c
      invariant DecodeBits(t, maxLen, o, Unread(n, cur, c)) == goal
      decreases c
    {
      var next := n + [Shl(cur, 8 - c) % 256];
      if next !in tree {
        DeadEnd(t, tree, maxLen, o, n, cur, c);
        return Err(InvalidHuffman);
      }
      var child := tree[next];
      if child.Internal? || child.codeLen > c {
        break;
      }
      LastWord(t, tree, maxLen, cur, n, c, o);
      if maxLen != 0 && |o| == maxLen {
        return Err(StringLength);
      }
      o := o + [child.sym];
      c := c - child.codeLen;
      n := [];
      s := c;
    }
    NothingFits(t, tree, n, cur, c);
    if s > 7 {
      TooLong(t, maxLen, o, Unread(n, cur, c));
      return Err(InvalidHuffman);
    }
    OnlyPadding(t, maxLen, o, cur, c);
    if cur % Pow2(c) != Pow2(c) - 1 {
      return Err(InvalidHuffman);
    }
    return Ok(o);
  }

  lemma NothingFits(t: CodeTable, tree: Tree, n: Bytes, cur: nat, c: nat)
    requires Shaped(t) && PrefixFree(t) && IsTree(t, tree) && c < 8 && n in tree && tree[n] == Internal
    requires c > 0 ==>
               var next := n + [Shl(cur, 8 - c) % 256];
               next in tree ==> tree[next].Internal? || tree[next].codeLen > c
    ensures Match(t, Unread(n, cur, c), 0) == 256
  {
    var b := Unread(n, cur, c);
    if c > 0 {
      PeekShort(n, cur, c);
      NoSymbolFits(t, tree, n, Shl(cur, 8 - c) % 256, b);
    } else {
      forall k: Byte
        ensures !(Code(t, k) <= b)
      {
        if Code(t, k) <= b {
          LongerThanInner(t, tree, n, b, k);
        }
      }
      NoMatch(t, b);
    }
  }

  // huffmanDecode, with the decoding tree given.
  method DecodeString(t: CodeTable, tree: Tree, maxLen: nat, v: Bytes) returns (r: Result)
    requires WellFormed(t) && IsTree(t, tree)
    ensures r == Decode(t, maxLen, v)
  {
    hide *;
    Parts(t);
    RootIsInner(t, tree);
    NothingYet(t, maxLen, v);
    var p := Going([], 0, 0, []);
    var cur: nat := 0;
    for j := 0 to |v|
      invariant p.Going? && p.path in tree && tree[p.path] == Internal
      invariant p.cbits < 8 && p.sbits == 8 * |p.path| + p.cbits
      invariant DecodeBits(t, maxLen, p.out, Unread(p.path, cur, p.cbits) + BytesToBits(v[j..])) == Decode(t, maxLen, v)
    {
      NextOctet(p.path, cur, p.cbits, v[j..]);
      assert v[j..][1..] == v[j + 1..];
      cur := (Shl(cur, 8) + v[j]) % 0x1_0000_0000_0000_0000;
      p := FollowOctets(t, tree, maxLen, cur, p.path, p.cbits + 8, p.sbits + 8, p.out, BytesToBits(v[j + 1..]));
      if p.Failed? {
        return Err(p.error);
      }
    }
    NoMore(p.path, cur, p.cbits, v[|v|..]);
    r := FinishBits(t, tree, maxLen, cur, p.path, p.cbits, p.sbits, p.out);
  }

  lemma Parts(t: CodeTable)
    requires WellFormed(t)
    ensures Shaped(t) && PrefixFree(t)
  {
  }

  lemma RootIsInner(t: CodeTable, tree: Tree)
    requires Shaped(t) && IsTree(t, tree)
    ensures [] in tree && tree[[]] == Internal
  {
  }

  lemma NothingYet(t: CodeTable, maxLen: nat, v: Bytes)
    requires Shaped(t)
    ensures DecodeBits(t, maxLen, [], Unread([], 0, 0) + BytesToBits(v[0..])) == Decode(t, maxLen, v)
  {
    assert v[0..] == v;
    assert Unread([], 0, 0) + BytesToBits(v) == BytesToBits(v);
  }

  lemma NextOctet(path: Bytes, cur: nat, cbits: nat, v: Bytes)
    requires cbits < 8 && v != []
    ensures Unread(path, (Shl(cur, 8) + v[0]) % 0x1_0000_0000_0000_0000, cbits + 8) + BytesToBits(v[1..]) ==
            Unread(path, cur, cbits) + BytesToBits(v)
  {
    PushOctet(path, cur, cbits, v[0]);
  }

  lemma NoMore(path: Bytes, cur: nat, cbits: nat, v: Bytes)
    requires v == []
    ensures Unread(path, cur, cbits) + BytesToBits(v) == Unread(path, cur, cbits)
  {
  }
}
