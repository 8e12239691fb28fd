/** The code table of RFC 7541, appendix B, and why it is a prefix code. */
module HuffmanTable {
  import opened Bits
  import opened Huffman

  function Row(i: int, a: nat, b: nat, c: nat, d: nat, e: nat, f: nat, g: nat, h: nat): nat {
    if i < 4 then
      if i < 2 then if i < 1 then a else b else if i < 3 then c else d
    else
      if i < 6 then if i < 5 then e else f else if i < 7 then g else h
  }

  // The code words, right-aligned, by symbol.
  function WordOf(s: Byte): nat {
    if s < 128 then
      if s < 64 then
        if s < 32 then
          if s < 16 then
            if s < 8 then
              Row(s - 0, 0x1ff8, 0x7fffd8, 0xfffffe2, 0xfffffe3, 0xfffffe4, 0xfffffe5, 0xfffffe6, 0xfffffe7)
            else
              Row(s - 8, 0xfffffe8, 0xffffea, 0x3ffffffc, 0xfffffe9, 0xfffffea, 0x3ffffffd, 0xfffffeb, 0xfffffec)
          else
            if s < 24 then
              Row(s - 16, 0xfffffed, 0xfffffee, 0xfffffef, 0xffffff0, 0xffffff1, 0xffffff2, 0x3ffffffe, 0xffffff3)
            else
              Row(s - 24, 0xffffff4, 0xffffff5, 0xffffff6, 0xffffff7, 0xffffff8, 0xffffff9, 0xffffffa, 0xffffffb)
        else
          if s < 48 then
            if s < 40 then
              Row(s - 32, 0x14, 0x3f8, 0x3f9, 0xffa, 0x1ff9, 0x15, 0xf8, 0x7fa)
            else
              Row(s - 40, 0x3fa, 0x3fb, 0xf9, 0x7fb, 0xfa, 0x16, 0x17, 0x18)
          else
            if s < 56 then
              Row(s - 48, 0x0, 0x1, 0x2, 0x19, 0x1a, 0x1b, 0x1c, 0x1d)
            else
              Row(s - 56, 0x1e, 0x1f, 0x5c, 0xfb, 0x7ffc, 0x20, 0xffb, 0x3fc)
      else
        if s < 96 then
          if s < 80 then
            if s < 72 then
              Row(s - 64, 0x1ffa, 0x21, 0x5d, 0x5e, 0x5f, 0x60, 0x61, 0x62)
            else
              Row(s - 72, 0x63, 0x64, 0x65, 0x66, 0x67, 0x68, 0x69, 0x6a)
          else
            if s < 88 then
              Row(s - 80, 0x6b, 0x6c, 0x6d, 0x6e, 0x6f, 0x70, 0x71, 0x72)
            else
              Row(s - 88, 0xfc, 0x73, 0xfd, 0x1ffb, 0x7fff0, 0x1ffc, 0x3ffc, 0x22)
        else
          if s < 112 then
            if s < 104 then
              Row(s - 96, 0x7ffd, 0x3, 0x23, 0x4, 0x24, 0x5, 0x25, 0x26)
            else
              Row(s - 104, 0x27, 0x6, 0x74, 0x75, 0x28, 0x29, 0x2a, 0x7)
          else
            if s < 120 then
              Row(s - 112, 0x2b, 0x76, 0x2c, 0x8, 0x9, 0x2d, 0x77, 0x78)
            else
              Row(s - 120, 0x79, 0x7a, 0x7b, 0x7ffe, 0x7fc, 0x3ffd, 0x1ffd, 0xffffffc)
    else
      if s < 192 then
        if s < 160 then
          if s < 144 then
            if s < 136 then
              Row(s - 128, 0xfffe6, 0x3fffd2, 0xfffe7, 0xfffe8, 0x3fffd3, 0x3fffd4, 0x3fffd5, 0x7fffd9)
            else
              Row(s - 136, 0x3fffd6, 0x7fffda, 0x7fffdb, 0x7fffdc, 0x7fffdd, 0x7fffde, 0xffffeb, 0x7fffdf)
          else
            if s < 152 then
              Row(s - 144, 0xffffec, 0xffffed, 0x3fffd7, 0x7fffe0, 0xffffee, 0x7fffe1, 0x7fffe2, 0x7fffe3)
            else
              Row(s - 152, 0x7fffe4, 0x1fffdc, 0x3fffd8, 0x7fffe5, 0x3fffd9, 0x7fffe6, 0x7fffe7, 0xffffef)
        else
          if s < 176 then
            if s < 168 then
              Row(s - 160, 0x3fffda, 0x1fffdd, 0xfffe9, 0x3fffdb, 0x3fffdc, 0x7fffe8, 0x7fffe9, 0x1fffde)
            else
              Row(s - 168, 0x7fffea, 0x3fffdd, 0x3fffde, 0xfffff0, 0x1fffdf, 0x3fffdf, 0x7fffeb, 0x7fffec)
          else
            if s < 184 then
              Row(s - 176, 0x1fffe0, 0x1fffe1, 0x3fffe0, 0x1fffe2, 0x7fffed, 0x3fffe1, 0x7fffee, 0x7fffef)
            else
              Row(s - 184, 0xfffea, 0x3fffe2, 0x3fffe3, 0x3fffe4, 0x7ffff0, 0x3fffe5, 0x3fffe6, 0x7ffff1)
      else
        if s < 224 then
          if s < 208 then
            if s < 200 then
              Row(s - 192, 0x3ffffe0, 0x3ffffe1, 0xfffeb, 0x7fff1, 0x3fffe7, 0x7ffff2, 0x3fffe8, 0x1ffffec)
            else
              Row(s - 200, 0x3ffffe2, 0x3ffffe3, 0x3ffffe4, 0x7ffffde, 0x7ffffdf, 0x3ffffe5, 0xfffff1, 0x1ffffed)
          else
            if s < 216 then
              Row(s - 208, 0x7fff2, 0x1fffe3, 0x3ffffe6, 0x7ffffe0, 0x7ffffe1, 0x3ffffe7, 0x7ffffe2, 0xfffff2)
            else
              Row(s - 216, 0x1fffe4, 0x1fffe5, 0x3ffffe8, 0x3ffffe9, 0xffffffd, 0x7ffffe3, 0x7ffffe4, 0x7ffffe5)
        else
          if s < 240 then
            if s < 232 then
              Row(s - 224, 0xfffec, 0xfffff3, 0xfffed, 0x1fffe6, 0x3fffe9, 0x1fffe7, 0x1fffe8, 0x7ffff3)
            else
              Row(s - 232, 0x3fffea, 0x3fffeb, 0x1ffffee, 0x1ffffef, 0xfffff4, 0xfffff5, 0x3ffffea, 0x7ffff4)
          else
            if s < 248 then
              Row(s - 240, 0x3ffffeb, 0x7ffffe6, 0x3ffffec, 0x3ffffed, 0x7ffffe7, 0x7ffffe8, 0x7ffffe9, 0x7ffffea)
            else
              Row(s - 248, 0x7ffffeb, 0xffffffe, 0x7ffffec, 0x7ffffed, 0x7ffffee, 0x7ffffef, 0x7fffff0, 0x3ffffee)
  }

  // Their lengths in bits.
  function LengthOf(s: Byte): nat {
    if s < 128 then
      if s < 64 then
        if s < 32 then
          if s < 16 then
            if s < 8 then
              Row(s - 0, 13, 23, 28, 28, 28, 28, 28, 28)
            else
              Row(s - 8, 28, 24, 30, 28, 28, 30, 28, 28)
          else
            if s < 24 then
              Row(s - 16, 28, 28, 28, 28, 28, 28, 30, 28)
            else
              Row(s - 24, 28, 28, 28, 28, 28, 28, 28, 28)
        else
          if s < 48 then
            if s < 40 then
              Row(s - 32, 6, 10, 10, 12, 13, 6, 8, 11)
            else
              Row(s - 40, 10, 10, 8, 11, 8, 6, 6, 6)
          else
            if s < 56 then
              Row(s - 48, 5, 5, 5, 6, 6, 6, 6, 6)
            else
              Row(s - 56, 6, 6, 7, 8, 15, 6, 12, 10)
      else
        if s < 96 then
          if s < 80 then
            if s < 72 then
              Row(s - 64, 13, 6, 7, 7, 7, 7, 7, 7)
            else
              Row(s - 72, 7, 7, 7, 7, 7, 7, 7, 7)
          else
            if s < 88 then
              Row(s - 80, 7, 7, 7, 7, 7, 7, 7, 7)
            else
              Row(s - 88, 8, 7, 8, 13, 19, 13, 14, 6)
        else
          if s < 112 then
            if s < 104 then
              Row(s - 96, 15, 5, 6, 5, 6, 5, 6, 6)
            else
              Row(s - 104, 6, 5, 7, 7, 6, 6, 6, 5)
          else
            if s < 120 then
              Row(s - 112, 6, 7, 6, 5, 5, 6, 7, 7)
            else
              Row(s - 120, 7, 7, 7, 15, 11, 14, 13, 28)
    else
      if s < 192 then
        if s < 160 then
          if s < 144 then
            if s < 136 then
              Row(s - 128, 20, 22, 20, 20, 22, 22, 22, 23)
            else
              Row(s - 136, 22, 23, 23, 23, 23, 23, 24, 23)
          else
            if s < 152 then
              Row(s - 144, 24, 24, 22, 23, 24, 23, 23, 23)
            else
              Row(s - 152, 23, 21, 22, 23, 22, 23, 23, 24)
        else
          if s < 176 then
            if s < 168 then
              Row(s - 160, 22, 21, 20, 22, 22, 23, 23, 21)
            else
              Row(s - 168, 23, 22, 22, 24, 21, 22, 23, 23)
          else
            if s < 184 then
              Row(s - 176, 21, 21, 22, 21, 23, 22, 23, 23)
            else
              Row(s - 184, 20, 22, 22, 22, 23, 22, 22, 23)
      else
        if s < 224 then
          if s < 208 then
            if s < 200 then
              Row(s - 192, 26, 26, 20, 19, 22, 23, 22, 25)
            else
              Row(s - 200, 26, 26, 26, 27, 27, 26, 24, 25)
          else
            if s < 216 then
              Row(s - 208, 19, 21, 26, 27, 27, 26, 27, 24)
            else
              Row(s - 216, 21, 21, 26, 26, 28, 27, 27, 27)
        else
          if s < 240 then
            if s < 232 then
              Row(s - 224, 20, 24, 20, 21, 22, 21, 21, 23)
            else
              Row(s - 232, 22, 22, 25, 25, 24, 24, 26, 23)
          else
            if s < 248 then
              Row(s - 240, 26, 27, 26, 26, 27, 27, 27, 27)
            else
              Row(s - 248, 27, 28, 27, 27, 27, 27, 27, 26)
  }

  // The symbols in the order of their code words.
  function SymbolAt(k: Byte): nat {
    if k < 128 then
      if k < 64 then
        if k < 32 then
          if k < 16 then
            if k < 8 then
              Row(k - 0, 48, 49, 50, 97, 99, 101, 105, 111)
            else
              Row(k - 8, 115, 116, 32, 37, 45, 46, 47, 51)
          else
            if k < 24 then
              Row(k - 16, 52, 53, 54, 55, 56, 57, 61, 65)
            else
              Row(k - 24, 95, 98, 100, 102, 103, 104, 108, 109)
        else
          if k < 48 then
            if k < 40 then
              Row(k - 32, 110, 112, 114, 117, 58, 66, 67, 68)
            else
              Row(k - 40, 69, 70, 71, 72, 73, 74, 75, 76)
          else
            if k < 56 then
              Row(k - 48, 77, 78, 79, 80, 81, 82, 83, 84)
            else
              Row(k - 56, 85, 86, 87, 89, 106, 107, 113, 118)
      else
        if k < 96 then
          if k < 80 then
            if k < 72 then
              Row(k - 64, 119, 120, 121, 122, 38, 42, 44, 59)
            else
              Row(k - 72, 88, 90, 33, 34, 40, 41, 63, 39)
          else
            if k < 88 then
              Row(k - 80, 43, 124, 35, 62, 0, 36, 64, 91)
            else
              Row(k - 88, 93, 126, 94, 125, 60, 96, 123, 92)
        else
          if k < 112 then
            if k < 104 then
              Row(k - 96, 195, 208, 128, 130, 131, 162, 184, 194)
            else
              Row(k - 104, 224, 226, 153, 161, 167, 172, 176, 177)
          else
            if k < 120 then
              Row(k - 112, 179, 209, 216, 217, 227, 229, 230, 129)
            else
              Row(k - 120, 132, 133, 134, 136, 146, 154, 156, 160)
    else
      if k < 192 then
        if k < 160 then
          if k < 144 then
            if k < 136 then
              Row(k - 128, 163, 164, 169, 170, 173, 178, 181, 185)
            else
              Row(k - 136, 186, 187, 189, 190, 196, 198, 228, 232)
          else
            if k < 152 then
              Row(k - 144, 233, 1, 135, 137, 138, 139, 140, 141)
            else
              Row(k - 152, 143, 147, 149, 150, 151, 152, 155, 157)
        else
          if k < 176 then
            if k < 168 then
              Row(k - 160, 158, 165, 166, 168, 174, 175, 180, 182)
            else
              Row(k - 168, 183, 188, 191, 197, 231, 239, 9, 142)
          else
            if k < 184 then
              Row(k - 176, 144, 145, 148, 159, 171, 206, 215, 225)
            else
              Row(k - 184, 236, 237, 199, 207, 234, 235, 192, 193)
      else
        if k < 224 then
          if k < 208 then
            if k < 200 then
              Row(k - 192, 200, 201, 202, 205, 210, 213, 218, 219)
            else
              Row(k - 200, 238, 240, 242, 243, 255, 203, 204, 211)
          else
            if k < 216 then
              Row(k - 208, 212, 214, 221, 222, 223, 241, 244, 245)
            else
              Row(k - 216, 246, 247, 248, 250, 251, 252, 253, 254)
        else
          if k < 240 then
            if k < 232 then
              Row(k - 224, 2, 3, 4, 5, 6, 7, 8, 11)
            else
              Row(k - 232, 12, 14, 15, 16, 17, 18, 19, 20)
          else
            if k < 248 then
              Row(k - 240, 21, 23, 24, 25, 26, 27, 28, 29)
            else
              Row(k - 248, 30, 31, 127, 220, 249, 10, 13, 22)
  }

  // The first code word of each length, how many there are, and how many shorter ones.
  function FirstWord(l: nat): nat
    requires l < 32
  {
    if l < 16 then
      if l < 8 then
        Row(l - 0, 0x0, 0x0, 0x0, 0x0, 0x0, 0x0, 0x14, 0x5c)
      else
        Row(l - 8, 0xf8, 0x1fc, 0x3f8, 0x7fa, 0xffa, 0x1ff8, 0x3ffc, 0x7ffc)
    else
      if l < 24 then
        Row(l - 16, 0xfffe, 0x1fffc, 0x3fff8, 0x7fff0, 0xfffe6, 0x1fffdc, 0x3fffd2, 0x7fffd8)
      else
        Row(l - 24, 0xffffea, 0x1ffffec, 0x3ffffe0, 0x7ffffde, 0xfffffe2, 0x1ffffffe, 0x3ffffffc, 0x0)
  }

  function WordsOf(l: nat): nat
    requires l < 32
  {
    if l < 16 then
      if l < 8 then
        Row(l - 0, 0, 0, 0, 0, 0, 10, 26, 32)
      else
        Row(l - 8, 6, 0, 5, 3, 2, 6, 2, 3)
    else
      if l < 24 then
        Row(l - 16, 0, 0, 0, 3, 8, 13, 26, 29)
      else
        Row(l - 24, 12, 4, 15, 19, 29, 0, 3, 0)
  }

  function ShorterThan(l: nat): nat
    requires l < 32
  {
    if l < 16 then
      if l < 8 then
        Row(l - 0, 0, 0, 0, 0, 0, 0, 10, 36)
      else
        Row(l - 8, 68, 74, 74, 79, 82, 84, 90, 92)
    else
      if l < 24 then
        Row(l - 16, 95, 95, 95, 95, 98, 106, 119, 145)
      else
        Row(l - 24, 174, 186, 190, 205, 224, 253, 253, 256)
  }

  function RfcTable(): CodeTable {
    CodeTable(seq(256, s requires 0 <= s < 256 => WordOf(s)), seq(256, s requires 0 <= s < 256 => LengthOf(s)))
  }

  // Symbol s is the one its word leads to: words of one length are numbered consecutively.
  predicate Canonical(s: int, l: nat, w: nat) {
    && 5 <= l <= 30
    && FirstWord(l) <= w < FirstWord(l) + WordsOf(l)
    && NumberedAt(s, ShorterThan(l) + (w - FirstWord(l)))
  }

  predicate NumberedAt(s: int, k: nat) {
    k < 256 && SymbolAt(k) == s
  }

  lemma CanonicalLow(s: Byte)
    requires s < 64
    ensures Canonical(s, LengthOf(s), WordOf(s))
  {
  }

  lemma CanonicalMid(s: Byte)
    requires 64 <= s < 128
    ensures Canonical(s, LengthOf(s), WordOf(s))
  {
  }

  lemma CanonicalHigh(s: Byte)
    requires 128 <= s < 192
    ensures Canonical(s, LengthOf(s), WordOf(s))
  {
  }

  lemma CanonicalTop(s: Byte)
    requires 192 <= s
    ensures Canonical(s, LengthOf(s), WordOf(s))
  {
  }

  lemma CanonicalAll(s: Byte)
    ensures Canonical(s, LengthOf(s), WordOf(s))
  {
    hide *;
    if s < 64 {
      CanonicalLow(s);
    } else if s < 128 {
      CanonicalMid(s);
    } else if s < 192 {
      CanonicalHigh(s);
    } else {
      CanonicalTop(s);
    }
  }

  // Words one bit longer start where doubling the shorter ones ends.
  lemma FirstWordStep(l: nat)
    requires 5 <= l < 30
    ensures FirstWord(l + 1) == 2 * (FirstWord(l) + WordsOf(l))
  {
  }

  // One past the last code word of a length. Code words never reach all ones.
  function EndWord(l: nat): nat
    requires l < 32
  {
    FirstWord(l) + WordsOf(l)
  }

  lemma {:induction false} EndWordBound(l: nat)
    requires 5 <= l <= 30
    ensures EndWord(l) < Pow2(l)
    decreases 30 - l
  {
    if l == 30 {
      Pow2Value32();
    } else {
      EndWordBound(l + 1);
      FirstWordStep(l);
    }
  }

  // A longer code word starts with a number past every word of a shorter length.
  lemma {:induction false} LongerIsPast(x: nat, l: nat, d: nat)
    requires 5 <= l && d >= 1 && l + d <= 30 && x >= FirstWord(l + d)
    ensures Shr(x, d) >= EndWord(l)
    decreases d
  {
    FirstWordStep(l + d - 1);
    assert x / 2 >= EndWord(l + d - 1);
    if d > 1 {
      LongerIsPast(x / 2, l, d - 1);
    }
  }

  lemma {:induction false} ShrBound(x: nat, a: nat, d: nat)
    requires x < Pow2(a + d)
    ensures Shr(x, d) < Pow2(a)
  {
    if d > 0 {
      ShrBound(x / 2, a, d - 1);
    }
  }

  lemma RfcShaped()
    ensures Shaped(RfcTable())
  {
    hide WordOf, LengthOf, FirstWord, WordsOf, ShorterThan, SymbolAt, NumberedAt;
    forall s: Byte
      ensures 5 <= LengthOf(s) <= 30 && WordOf(s) < Pow2(LengthOf(s))
    {
      CanonicalAll(s);
      EndWordBound(LengthOf(s));
    }
  }

  lemma RfcEntry(s: Byte)
    requires Shaped(RfcTable())
    ensures var t := RfcTable();
            t.codes[s] == WordOf(s) && t.lens[s] == LengthOf(s) && |Code(t, s)| == LengthOf(s)
    ensures Code(RfcTable(), s) == ToBits(WordOf(s), LengthOf(s))
  {
    hide WordOf, LengthOf;
  }

  lemma SameLength(s: Byte, s': Byte)
    requires LengthOf(s) == LengthOf(s') && WordOf(s) == WordOf(s')
    ensures s == s'
  {
    hide WordOf, LengthOf, FirstWord, WordsOf, ShorterThan, SymbolAt;
    CanonicalAll(s);
    CanonicalAll(s');
  }

  // The front of a code word, as a number.
  lemma PrefixValue(w: nat, l: nat, w': nat, d: nat)
    requires w < Pow2(l) && w' < Pow2(l + d)
    requires ToBits(w, l) <= ToBits(w', l + d)
    ensures w == Shr(w', d)
  {
    hide Pow2, ToBits;
    ToBitsSplit(w', l, d);
    ShrBound(w', l, d);
    assert ToBits(w', l + d)[..l] == ToBits(Shr(w', d), l);
    ToBitsInjective(w, Shr(w', d), l);
  }

  lemma NotPrefix(s: Byte, s': Byte)
    requires Shaped(RfcTable())
    requires Code(RfcTable(), s) <= Code(RfcTable(), s')
    ensures s == s'
  {
    hide *;
    RfcEntry(s);
    RfcEntry(s');
    WordBound(s);
    WordBound(s');
    var l, d := LengthOf(s), LengthOf(s') - LengthOf(s);
    PrefixValue(WordOf(s), l, WordOf(s'), d);
    if d > 0 {
      LongerIsPast(WordOf(s'), l, d);
    } else {
      ShrZero(WordOf(s'));
      SameLength(s, s');
    }
  }

  lemma ShrZero(x: nat)
    ensures Shr(x, 0) == x
  {
  }

  lemma WordBound(s: Byte)
    ensures 5 <= LengthOf(s) <= 30 && FirstWord(LengthOf(s)) <= WordOf(s) < EndWord(LengthOf(s)) < Pow2(LengthOf(s))
  {
    hide WordOf, LengthOf, FirstWord, WordsOf, ShorterThan, SymbolAt, NumberedAt, Pow2;
    CanonicalAll(s);
    EndWordBound(LengthOf(s));
  }

  lemma NotOnes(s: Byte, k: nat)
    requires Shaped(RfcTable())
    ensures Code(RfcTable(), s) != Ones(k)
  {
    hide *;
    RfcEntry(s);
    WordBound(s);
    OnesBits(k);
    if Code(RfcTable(), s) == Ones(k) {
      ToBitsInjective(WordOf(s), Pow2(k) - 1, k);
    }
  }

  lemma LeafAtOctet(t: CodeTable, s: Byte, b: Byte)
    requires Shaped(t) && t.lens[s] <= 8 && Shr(b, 8 - t.lens[s]) == t.codes[s]
    ensures LeafSlot(t, s, [b])
  {
    var l := t.lens[s];
    ToBitsSplit(b, l, 8 - l);
    assert l + (8 - l) == 8;
    assert BytesToBits([b]) == ToBits(b, 8) + BytesToBits([]);
  }

  lemma InnerAtOctet(t: CodeTable, s: Byte, b: Byte)
    requires Shaped(t) && t.lens[s] == 10 && Shr(t.codes[s], 2) == b
    ensures InnerSlot(t, s, [b])
  {
    ToBitsSplit(t.codes[s], 8, 2);
    assert BytesToBits([b]) == ToBits(b, 8) + BytesToBits([]);
  }

  // Padding followed by zeros starts one of the words of = E U w & X and !.
  lemma PaddingLeads(k: nat)
    requires 1 <= k <= 7 && Shaped(RfcTable())
    ensures SlotUsed(RfcTable(), [OnesOctet(k)])
  {
    hide BytesToBits, ToBits, Pow2, OnesOctet, Shr, LeafSlot, InnerSlot;
    var t := RfcTable();
    OnesOctets();
    if k == 7 {
      ShrSteps(0x3f8);
      InnerAtOctet(t, 33, 254);
      assert InnerSlot(t, 33, [254]);
    } else {
      var s: Byte := if k == 1 then 61 else if k == 2 then 69 else if k == 3 then 85
                     else if k == 4 then 119 else if k == 5 then 38 else 88;
      ShrSteps(OnesOctet(k));
      LeafAtOctet(t, s, OnesOctet(k));
      assert LeafSlot(t, s, [OnesOctet(k)]);
    }
  }

  lemma OnesOctets()
    ensures OnesOctet(1) == 128 && OnesOctet(2) == 192 && OnesOctet(3) == 224 && OnesOctet(4) == 240
    ensures OnesOctet(5) == 248 && OnesOctet(6) == 252 && OnesOctet(7) == 254
  {
  }

  lemma ShrSteps(x: nat)
    ensures Shr(x, 0) == x && Shr(x, 1) == x / 2 && Shr(x, 2) == x / 4
  {
  }

  lemma RfcTableWellFormed()
    ensures WellFormed(RfcTable())
  {
    hide RfcTable, Shaped, SlotUsed, OnesOctet, Code;
    RfcShaped();
    var t := RfcTable();
    forall s: Byte, s': Byte | Code(t, s) <= Code(t, s')
      ensures s == s'
    {
      NotPrefix(s, s');
    }
    forall s: Byte, k: nat | k <= 7
      ensures Code(t, s) != Ones(k)
    {
      NotOnes(s, k);
    }
    forall k: nat | 1 <= k <= 7
      ensures SlotUsed(t, [OnesOctet(k)])
    {
      PaddingLeads(k);
    }
  }
}
