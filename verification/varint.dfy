/** The variable-length integers of RFC 7541, section 5.1. */
module Varint {
  import opened Bits

  datatype Failure = NeedMore | Overflow

  datatype Parse = Parsed(value: nat, rest: Bytes) | Stopped(why: Failure)

  // Groups of seven bits, least significant first, all but the last marked.
  function Groups(i: nat): (b: Bytes)
    ensures b != []
  {
    if i < 128 then [i] else [128 + i % 128] + Groups(i / 128)
  }

  // i in an n-bit prefix, or the prefix filled with ones and the rest of i in groups.
  function VarInt(n: nat, i: nat): (b: Bytes)
    requires 1 <= n <= 8
    ensures b != [] && b[0] < Pow2(n)
  {
    Pow2Mono(n, 8);
    Pow2Values();
    var k := Pow2(n) - 1;
    if i < k then [i] else [k] + Groups(i - k)
  }

  // A varint whose first octet also carries flag bits above its prefix.
  function Flagged(flags: nat, n: nat, i: nat): (b: Bytes)
    requires 1 <= n <= 8 && flags + Pow2(n) <= 256
    ensures b != [] && b[0] == flags + VarInt(n, i)[0] && |b| == |VarInt(n, i)|
  {
    var v := VarInt(n, i);
    [flags + v[0]] + v[1..]
  }

  lemma GroupsStep(r: Bytes, j: nat)
    ensures j < 128 ==> Groups(j) == [j]
    ensures j >= 128 ==> r + Groups(j) == (r + [128 + j % 128]) + Groups(j / 128)
  {
  }

  method AppendVarInt(dst: Bytes, n: nat, i: nat) returns (r: Bytes)
    requires 1 <= n <= 8
    ensures r == dst + VarInt(n, i)
  {
    hide Groups, Pow2;
    Pow2Mono(n, 8);
    Pow2Values();
    var k := Pow2(n) - 1;
    if i < k {
      return dst + [i];
    }
    r := dst + [k];
    var j: nat := i - k;
    while j >= 128
      invariant dst + VarInt(n, i) == r + Groups(j)
    {
      GroupsStep(r, j);
      r := r + [128 + j % 128];
      j := j / 128;
    }
    GroupsStep(r, j);
    r := r + [j];
  }

  // ---------------------------------------------------------------- reading

  // The groups from p on; acc holds what was read so far and m how far the next group shifts.
  function ReadGroups(acc: nat, m: nat, p: Bytes): (r: Parse)
    ensures r.Parsed? ==> |r.rest| < |p|
    decreases |p|
  {
    if p == [] then Stopped(NeedMore)
    else
      var acc' := acc + p[0] % 128 * Pow2(m);
      if p[0] < 128 then Parsed(acc', p[1..])
      else if m + 7 >= 63 then Stopped(Overflow)
      else ReadGroups(acc', m + 7, p[1..])
  }

  function ReadVarInt(n: nat, p: Bytes): (r: Parse)
    requires 1 <= n <= 8
    ensures r.Parsed? ==> |r.rest| < |p|
  {
    if p == [] then Stopped(NeedMore)
    else
      var i := p[0] % Pow2(n);
      if i < Pow2(n) - 1 then Parsed(i, p[1..]) else ReadGroups(i, 0, p[1..])
  }

  lemma GroupFits(i: nat, m: nat, g: nat, group: nat)
    requires i < 255 + Pow2(m) && g < 128 && group == g * Pow2(m)
    ensures i + group < 255 + Pow2(m + 7)
  {
    hide Pow2;
    Pow2Add(m, 7);
    Pow2Values();
    AtMost(g, 127, Pow2(m));
  }

  lemma AtMost(a: nat, b: nat, c: nat)
    requires a <= b
    ensures a * c <= b * c
  {
  }

  lemma Below64(m: nat)
    requires m <= 63
    ensures 255 + Pow2(m) < 0x1_0000_0000_0000_0000
  {
    Pow2Mono(m, 63);
    Pow2Value64();
  }

  lemma ReadGroupsStep(i: nat, m: nat, q: Bytes)
    ensures q == [] ==> ReadGroups(i, m, q) == Stopped(NeedMore)
    ensures q != [] ==>
              var i' := i + q[0] % 128 * Pow2(m);
              ReadGroups(i, m, q) ==
              if q[0] < 128 then Parsed(i', q[1..])
              else if m + 7 >= 63 then Stopped(Overflow)
              else ReadGroups(i', m + 7, q[1..])
  {
  }

  lemma ReadVarIntStart(n: nat, p: Bytes)
    requires 1 <= n <= 8
    ensures p == [] ==> ReadVarInt(n, p) == Stopped(NeedMore)
    ensures p != [] ==>
              var i := p[0] % Pow2(n);
              && i < 256
              && ReadVarInt(n, p) == if i < Pow2(n) - 1 then Parsed(i, p[1..]) else ReadGroups(i, 0, p[1..])
  {
    hide ReadGroups;
    Pow2Mono(n, 8);
    Pow2Values();
  }

  // readVarInt: every value on the way fits in 64 bits.
  method ReadVarIntLoop(n: nat, p: Bytes) returns (r: Parse)
    requires 1 <= n <= 8
    ensures r == ReadVarInt(n, p)
  {
    hide *;
    ReadVarIntStart(n, p);
    if |p| == 0 {
      return Stopped(NeedMore);
    }
    Pow2Mono(n, 8);
    Pow2Values();
    var i: nat := p[0] % Pow2(n);
    if i < Pow2(n) - 1 {
      return Parsed(i, p[1..]);
    }
    var q := p[1..];
    var m: nat := 0;
    Pow2Zero();
    while |q| > 0
      invariant m < 63 && m % 7 == 0 && i < 255 + Pow2(m)
      invariant ReadVarInt(n, p) == ReadGroups(i, m, q)
      decreases |q|
    {
      ReadGroupsStep(i, m, q);
      var b := q[0];
      q := q[1..];
      var group := b % 128 * Pow2(m);
      GroupFits(i, m, b % 128, group);
      Below64(m + 7);
      i := i + group;
      assert i < 0x1_0000_0000_0000_0000;
      if b < 128 {
        return Parsed(i, q);
      }
      m := m + 7;
      if m >= 63 {
        return Stopped(Overflow);
      }
    }
    ReadGroupsStep(i, m, q);
    return Stopped(NeedMore);
  }

  // ---------------------------------------------------------------- round trip

  // The group for the low bits of i, read.
  lemma ReadFirstGroup(acc: nat, m: nat, i: nat, tail: Bytes)
    ensures i < 128 ==> ReadGroups(acc, m, Groups(i) + tail) == Parsed(acc + i * Pow2(m), tail)
    ensures i >= 128 ==>
              ReadGroups(acc, m, Groups(i) + tail) ==
              if m + 7 >= 63 then Stopped(Overflow)
              else ReadGroups(acc + i % 128 * Pow2(m), m + 7, Groups(i / 128) + tail)
  {
    hide ReadGroups, Groups, Pow2;
    if i < 128 {
      GroupsStep([], i);
      assert Groups(i) + tail == [i] + tail;
      ReadGroupsStep(acc, m, [i] + tail);
      assert ([i] + tail)[1..] == tail;
    } else {
      var p := [128 + i % 128] + (Groups(i / 128) + tail);
      GroupsFront(i, tail);
      assert p[1..] == Groups(i / 128) + tail;
      assert p[0] % 128 == i % 128;
      ReadGroupsStep(acc, m, p);
    }
  }

  // i shifted left by m, as the groups from position m on contribute it.
  lemma {:induction false} ReadBackGroups(acc: nat, m: nat, i: nat, tail: Bytes)
    requires m % 7 == 0 && m < 63
    ensures ReadGroups(acc, m, Groups(i) + tail) ==
            if i < Pow2(63 - m) then Parsed(acc + i * Pow2(m), tail) else Stopped(Overflow)
    decreases i
  {
    hide *;
    var high := Pow2(56 - m);
    Pow2Add(7, 56 - m);
    Pow2Values();
    assert 7 + (56 - m) == 63 - m;
    DividedBelow(i, high);
    ReadFirstGroup(acc, m, i, tail);
    if i >= 128 {
      if m < 56 {
        var rest := acc + i % 128 * Pow2(m);
        ReadBackGroups(rest, m + 7, i / 128, tail);
        assert 63 - (m + 7) == 56 - m;
        GroupWeight(i, m);
      } else {
        Pow2Zero();
      }
    }
  }

  lemma GroupsFront(i: nat, tail: Bytes)
    requires i >= 128
    ensures Groups(i) + tail == [128 + i % 128] + (Groups(i / 128) + tail)
  {
  }

  lemma Pow2Zero()
    ensures Pow2(0) == 1
  {
  }

  lemma DividedBelow(i: nat, high: nat)
    requires high >= 1
    ensures i / 128 < high <==> i < 128 * high
    ensures i < 128 ==> i < 128 * high
  {
  }

  lemma GroupWeight(i: nat, m: nat)
    ensures i % 128 * Pow2(m) + i / 128 * Pow2(m + 7) == i * Pow2(m)
  {
    Pow2Add(m, 7);
    Pow2Values();
    var p := Pow2(m);
    assert i == i / 128 * 128 + i % 128;
    assert i * p == (i / 128 * 128 + i % 128) * p == i / 128 * 128 * p + i % 128 * p;
    assert i / 128 * 128 * p == i / 128 * (p * 128);
  }

  lemma FlagMod(flags: nat, d: nat, x: nat)
    requires d in {16, 32, 64, 128} && flags % d == 0 && x < d
    ensures (flags + x) % d == x == x % d
  {
  }

  // Flag bits above the prefix do not disturb reading.
  lemma FlagsIgnored(flags: nat, n: nat, i: nat, tail: Bytes)
    requires 4 <= n <= 7 && flags % Pow2(n) == 0 && flags + Pow2(n) <= 256
    ensures ReadVarInt(n, Flagged(flags, n, i) + tail) == ReadVarInt(n, VarInt(n, i) + tail)
  {
    hide ReadGroups, Groups, Pow2;
    var v, f := VarInt(n, i), Flagged(flags, n, i);
    assert (v + tail)[0] == v[0] && (f + tail)[0] == flags + v[0];
    assert (v + tail)[1..] == v[1..] + tail == (f + tail)[1..];
    Pow2Values();
    FlagMod(flags, Pow2(n), v[0]);
  }

  // An integer reads back exactly when what does not fit in the prefix is below 2^63; the
  // reader gives up on anything larger.
  lemma VarIntRoundTrip(n: nat, i: nat, tail: Bytes)
    requires 1 <= n <= 8
    ensures ReadVarInt(n, VarInt(n, i) + tail) ==
            if i < Pow2(n) - 1 + Pow2(63) then Parsed(i, tail) else Stopped(Overflow)
  {
    hide ReadGroups, Groups, Pow2;
    var k := Pow2(n) - 1;
    var v := VarInt(n, i);
    assert (v + tail)[0] == v[0];
    if i < k {
      assert (v + tail)[1..] == tail;
      SmallMod(i, k + 1);
    } else {
      assert (v + tail)[1..] == Groups(i - k) + tail;
      SmallMod(k, k + 1);
      ReadBackGroups(k, 0, i - k, tail);
      Pow2Zero();
    }
  }

  lemma SmallMod(x: nat, d: nat)
    requires x < d
    ensures x % d == x
  {
  }

  // ---------------------------------------------------------------- more input

  // Once an integer is read, or found too large, more input does not change that.
  lemma {:induction false} ReadGroupsMore(acc: nat, m: nat, p: Bytes, more: Bytes)
    ensures var r := ReadGroups(acc, m, p);
            r.Parsed? ==> ReadGroups(acc, m, p + more) == Parsed(r.value, r.rest + more)
    ensures ReadGroups(acc, m, p) == Stopped(Overflow) ==> ReadGroups(acc, m, p + more) == Stopped(Overflow)
    decreases |p|
  {
    if p != [] {
      assert (p + more)[0] == p[0];
      assert (p + more)[1..] == p[1..] + more;
      ReadGroupsMore(acc + p[0] % 128 * Pow2(m), m + 7, p[1..], more);
    }
  }

  lemma ReadVarIntMore(n: nat, p: Bytes, more: Bytes)
    requires 1 <= n <= 8
    ensures var r := ReadVarInt(n, p);
            r.Parsed? ==> ReadVarInt(n, p + more) == Parsed(r.value, r.rest + more)
    ensures ReadVarInt(n, p) == Stopped(Overflow) ==> ReadVarInt(n, p + more) == Stopped(Overflow)
  {
    hide ReadGroups, Pow2;
    if p != [] {
      assert (p + more)[0] == p[0];
      assert (p + more)[1..] == p[1..] + more;
      ReadGroupsMore(p[0] % Pow2(n), 0, p[1..], more);
    }
  }
}
