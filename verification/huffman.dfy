/**
 * The Huffman string code of RFC 7541, section 5.2, over any table of code words that
 * is a prefix code with words of 5 to 30 bits.
 */
module Huffman {
  import opened Bits

  // codes[s] holds, right-aligned, the lens[s] bits of the code word of symbol s.
  datatype CodeTable = CodeTable(codes: seq<nat>, lens: seq<nat>)

  datatype Error = InvalidHuffman | StringLength

  datatype Result = Ok(value: Bytes) | Err(error: Error)

  predicate Shaped(t: CodeTable) {
    && |t.codes| == 256 && |t.lens| == 256
    && forall s :: 0 <= s < 256 ==> 5 <= t.lens[s] <= 30 && t.codes[s] < Pow2(t.lens[s])
  }

  function Code(t: CodeTable, s: Byte): (b: seq<bool>)
    requires Shaped(t)
    ensures 5 <= |b| <= 30
  {
    ToBits(t.codes[s], t.lens[s])
  }

  // p is a path of octets through the decoding tree that ends in the last octet of the
  // code word of s.
  ghost predicate LeafSlot(t: CodeTable, s: Byte, p: Bytes)
    requires Shaped(t)
  {
    8 * (|p| - 1) < |Code(t, s)| <= 8 * |p| && Code(t, s) <= BytesToBits(p)
  }

  // The code word of s goes on after path p.
  ghost predicate InnerSlot(t: CodeTable, s: Byte, p: Bytes)
    requires Shaped(t)
  {
    8 * |p| < |Code(t, s)| && BytesToBits(p) <= Code(t, s)
  }

  ghost predicate SlotUsed(t: CodeTable, p: Bytes)
    requires Shaped(t)
  {
    exists s: Byte :: LeafSlot(t, s, p) || InnerSlot(t, s, p)
  }

  // k one-bits and 8-k zero-bits.
  function OnesOctet(k: nat): (b: Byte)
    requires k <= 8
  {
    if k == 0 then 0 else 128 + OnesOctet(k - 1) / 2
  }

  ghost predicate PrefixFree(t: CodeTable)
    requires Shaped(t)
  {
    forall s: Byte, s': Byte :: Code(t, s) <= Code(t, s') ==> s == s'
  }

  ghost predicate WellFormed(t: CodeTable) {
    && Shaped(t)
    && PrefixFree(t)
       // no code word looks like padding
    && (forall s: Byte, k: nat :: k <= 7 ==> Code(t, s) != Ones(k))
       // padding followed by zeros still leads somewhere in the tree
    && (forall k: nat :: 1 <= k <= 7 ==> SlotUsed(t, [OnesOctet(k)]))
  }

  // ---------------------------------------------------------------- encoding

  // The code words of s, one after the other.
  function Encode(t: CodeTable, s: Bytes): seq<bool>
    requires Shaped(t)
  {
    if s == [] then [] else Code(t, s[0]) + Encode(t, s[1..])
  }

  lemma {:induction false} EncodeConcat(t: CodeTable, u: Bytes, v: Bytes)
    requires Shaped(t)
    ensures Encode(t, u + v) == Encode(t, u) + Encode(t, v)
  {
    if u == [] {
      assert u + v == v;
    } else {
      EncodeConcat(t, u[1..], v);
      assert (u + v)[1..] == u[1..] + v;
    }
  }

  lemma EncodeSnoc(t: CodeTable, u: Bytes, c: Byte)
    requires Shaped(t)
    ensures Encode(t, u + [c]) == Encode(t, u) + Code(t, c)
  {
    EncodeConcat(t, u, [c]);
    assert Encode(t, [c]) == Code(t, c) + Encode(t, []);
  }

  function PadLength(n: nat): (k: nat)
    ensures k <= 7 && (n + k) % 8 == 0
  {
    (8 - n % 8) % 8
  }

  // The code words of s, padded with one-bits to whole octets.
  function HuffmanString(t: CodeTable, s: Bytes): (v: Bytes)
    requires Shaped(t)
    ensures |v| == (|Encode(t, s)| + 7) / 8
  {
    Pack(Encode(t, s) + Ones(PadLength(|Encode(t, s)|)))
  }

  // Lengths for which the bit counter of the source cannot wrap around.
  const MAX_STRING: nat := 0x0800_0000_0000_0000

  method HuffmanEncodeLength(t: CodeTable, s: Bytes) returns (n: nat)
    requires Shaped(t) && |s| < MAX_STRING
    ensures n == |HuffmanString(t, s)| < 0x1_0000_0000_0000_0000
  {
    n := 0;
    for i := 0 to |s|
      invariant n == |Encode(t, s[..i])| <= 30 * i
    {
      assert s[..i + 1] == s[..i] + [s[i]];
      EncodeSnoc(t, s[..i], s[i]);
      n := n + t.lens[s[i]];
    }
    assert s[..|s|] == s;
    n := (n + 7) / 8;
  }

  // Four, two or one octets of x, most significant first.
  function Octet(x: nat, shift: nat): Byte {
    Shr(x, shift) % 256
  }

  lemma OctetBits(x: nat, shift: nat)
    ensures ToBits(x, shift + 8) == BytesToBits([Octet(x, shift)]) + ToBits(x, shift)
  {
    Pow2Values();
    ToBitsSplit(x, 8, shift);
    assert 8 + shift == shift + 8;
    ToBitsMod(Shr(x, shift), 8, 8);
    assert BytesToBits([Octet(x, shift)]) == ToBits(Octet(x, shift), 8) + BytesToBits([]);
  }

  function Octets(x: nat, k: nat): (v: Bytes)
    ensures |v| == k
  {
    if k == 0 then [] else [Octet(x, 8 * (k - 1))] + Octets(x, k - 1)
  }

  lemma {:induction false} OctetsBits(x: nat, k: nat)
    ensures BytesToBits(Octets(x, k)) == ToBits(x, 8 * k)
  {
    if k > 0 {
      OctetBits(x, 8 * (k - 1));
      OctetsBits(x, k - 1);
      BytesToBitsConcat([Octet(x, 8 * (k - 1))], Octets(x, k - 1));
    }
  }

  // One symbol shifted into the 64-bit buffer x, whose low n bits are pending.
  lemma ShiftIn(t: CodeTable, x: nat, n: nat, c: Byte)
    requires Shaped(t) && n < 32
    ensures var x' := (Shl(x, t.lens[c]) + t.codes[c]) % 0x1_0000_0000_0000_0000;
            ToBits(x', n + t.lens[c]) == ToBits(x, n) + Code(t, c)
  {
    var len := t.lens[c];
    ToBitsAppend(x, n, t.codes[c], len);
    Pow2Value64();
    ToBitsMod(Shl(x, len) + t.codes[c], 64, n + len);
  }

  // The 32 bits above the low n, as four octets.
  method WordAbove(x: nat, n: nat) returns (w: Bytes)
    ensures |w| == 4
    ensures ToBits(x, n + 32) == BytesToBits(w) + ToBits(x, n)
  {
    var y := Shr(x, n) % 0x1_0000_0000;
    w := Octets(y, 4);
    ToBitsSplit(x, 32, n);
    assert 32 + n == n + 32;
    Pow2Value32();
    ToBitsMod(Shr(x, n), 32, 32);
    OctetsBits(y, 4);
  }

  lemma PadUnique(n: nat, k: nat, m: nat)
    requires k <= 7 && n + k == 8 * m
    ensures k == PadLength(n)
  {
  }

  // Octets whose bits are those of dst, the code words of s and some padding.
  lemma HuffmanStringUnique(t: CodeTable, dst: Bytes, s: Bytes, r: Bytes, e: seq<bool>, k: nat)
    requires Shaped(t) && k <= 7 && e == Encode(t, s)
    requires BytesToBits(r) == BytesToBits(dst) + (e + Ones(k))
    ensures r == dst + HuffmanString(t, s)
  {
    assert 8 * |r| == 8 * |dst| + |e| + k;
    PadUnique(|e|, k, |r| - |dst|);
    PackBits(e + Ones(k));
    BytesToBitsConcat(dst, HuffmanString(t, s));
    BytesToBitsInjective(r, dst + HuffmanString(t, s));
  }

  // The pending bits, padded to whole octets with the leading bits of the end-of-string code.
  lemma PadOut(x: nat, n: nat, over: nat)
    requires over == n % 8 && over > 0 && n < 32
    ensures var x' := (Shl(x, 8 - over) + Shr(255, over)) % 0x1_0000_0000_0000_0000;
            ToBits(x', n + (8 - over)) == ToBits(x, n) + Ones(8 - over)
  {
    hide *;
    ShrOnes(over);
    OnesBits(8 - over);
    ToBitsAppend(x, n, Shr(255, over), 8 - over);
    Pow2Value64();
    ToBitsMod(Shl(x, 8 - over) + Shr(255, over), 64, n + (8 - over));
  }

  // The octets r and then the low n bits of x are the bits of dst followed by e.
  ghost predicate Pending(dst: Bytes, e: seq<bool>, r: Bytes, x: nat, n: nat) {
    BytesToBits(dst) + e == BytesToBits(r) + ToBits(x, n)
  }

  lemma PendingStart(t: CodeTable, dst: Bytes)
    requires Shaped(t)
    ensures Encode(t, []) == [] && Pending(dst, [], dst, 0, 0)
  {
  }

  lemma PendingPush(t: CodeTable, dst: Bytes, e: seq<bool>, r: Bytes, x: nat, n: nat, c: Byte)
    requires Shaped(t) && n < 32 && Pending(dst, e, r, x, n)
    ensures Pending(dst, e + Code(t, c), r,
                    (Shl(x, t.lens[c]) + t.codes[c]) % 0x1_0000_0000_0000_0000, n + t.lens[c])
  {
    hide ToBits, Shl, BytesToBits;
    ShiftIn(t, x, n, c);
    assert BytesToBits(dst) + (e + Code(t, c)) == (BytesToBits(dst) + e) + Code(t, c);
  }

  lemma PendingFlush(dst: Bytes, e: seq<bool>, r: Bytes, x: nat, n: nat, w: Bytes)
    requires Pending(dst, e, r, x, n + 32)
    requires ToBits(x, n + 32) == BytesToBits(w) + ToBits(x, n)
    ensures Pending(dst, e, r + w, x, n)
  {
    BytesToBitsConcat(r, w);
  }

  lemma PendingPad(dst: Bytes, e: seq<bool>, r: Bytes, x: nat, n: nat, over: nat)
    requires n < 32 && over == n % 8 && over > 0 && Pending(dst, e, r, x, n)
    ensures Pending(dst, e + Ones(8 - over), r,
                    (Shl(x, 8 - over) + Shr(255, over)) % 0x1_0000_0000_0000_0000, n + (8 - over))
  {
    PadOut(x, n, over);
    assert BytesToBits(dst) + (e + Ones(8 - over)) == (BytesToBits(dst) + e) + Ones(8 - over);
  }

  lemma PendingDone(t: CodeTable, dst: Bytes, s: Bytes, e: seq<bool>, pad: nat, r: Bytes, x: nat, n: nat)
    requires Shaped(t) && pad <= 7 && e == Encode(t, s)
    requires n % 8 == 0 && Pending(dst, e + Ones(pad), r, x, n)
    ensures r + Octets(x, n / 8) == dst + HuffmanString(t, s)
  {
    OctetsBits(x, n / 8);
    BytesToBitsConcat(r, Octets(x, n / 8));
    HuffmanStringUnique(t, dst, s, r + Octets(x, n / 8), e, pad);
  }

  // The end of AppendHuffmanString: the last pending bits, padded with ones.
  method AppendPadded(t: CodeTable, ghost dst: Bytes, ghost s: Bytes, ghost e: seq<bool>,
                      r: Bytes, x: nat, n: nat)
    returns (r': Bytes)
    requires Shaped(t) && n < 32
    requires e == Encode(t, s) && Pending(dst, e, r, x, n)
    ensures r' == dst + HuffmanString(t, s)
  {
    hide *;
    var over := n % 8;
    if over > 0 {
      PendingPad(dst, e, r, x, n, over);
      var y := (Shl(x, 8 - over) + Shr(255, over)) % 0x1_0000_0000_0000_0000;
      var m := n + (8 - over);
      PendingDone(t, dst, s, e, 8 - over, r, y, m);
      r' := r + Octets(y, m / 8);
    } else {
      assert e + Ones(0) == e;
      PendingDone(t, dst, s, e, 0, r, x, n);
      r' := r + Octets(x, n / 8);
    }
  }

  // AppendHuffmanString: a 64-bit buffer x holding n < 32 pending bits, flushed a word at
  // a time, then padded with ones.
  method AppendHuffmanString(t: CodeTable, dst: Bytes, s: Bytes) returns (r: Bytes)
    requires Shaped(t)
    ensures r == dst + HuffmanString(t, s)
  {
    hide Encode, Shl, Shr, ToBits, Pow2, BytesToBits, Pending;
    r := dst;
    var x: nat, n: nat := 0, 0;
    ghost var e := [];
    PendingStart(t, dst);
    assert s[..0] == [];
    for i := 0 to |s|
      invariant n < 32
      invariant e == Encode(t, s[..i])
      invariant Pending(dst, e, r, x, n)
    {
      var c := s[i];
      assert s[..i + 1] == s[..i] + [c];
      EncodeSnoc(t, s[..i], c);
      PendingPush(t, dst, e, r, x, n, c);
      e := e + Code(t, c);
      n := n + t.lens[c];
      x := (Shl(x, t.lens[c]) + t.codes[c]) % 0x1_0000_0000_0000_0000;
      if n >= 32 {
        n := n % 32;
        var w := WordAbove(x, n);
        PendingFlush(dst, e, r, x, n, w);
        r := r + w;
      }
    }
    assert s[..|s|] == s;
    r := AppendPadded(t, dst, s, e, r, x, n);
  }

  lemma ShrOnes(k: nat)
    requires k <= 8
    ensures Shr(255, k) == Pow2(8 - k) - 1
  {
    Pow2Values();
    assert Shr(255, 1) == 127 && Shr(255, 2) == 63 && Shr(255, 3) == 31;
    assert Shr(127, 3) == Shr(63, 2) == Shr(31, 1) == 15 && Shr(15, 1) == 7 && Shr(15, 2) == 3;
    assert Shr(255, 4) == Shr(127, 3) && Shr(255, 5) == Shr(127, 4) == Shr(63, 3) == Shr(31, 2);
    assert Shr(255, 6) == Shr(127, 5) == Shr(63, 4) == Shr(31, 3) == Shr(15, 2);
    assert Shr(255, 7) == Shr(127, 6) == Shr(63, 5) == Shr(31, 4) == Shr(15, 3) == Shr(7, 2);
    assert Shr(255, 8) == Shr(127, 7) == Shr(63, 6) == Shr(31, 5) == Shr(15, 4) == Shr(7, 3);
  }
}
