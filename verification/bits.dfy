/** Octets, and the bit strings they stand for, most significant bit first. */
module Bits {

  type Byte = x: int | 0 <= x < 256

  type Bytes = seq<Byte>

  function Pow2(n: nat): (p: nat)
    ensures p > 0
  {
    if n == 0 then 1 else 2 * Pow2(n - 1)
  }

  lemma {:induction false} Pow2Add(a: nat, b: nat)
    ensures Pow2(a + b) == Pow2(a) * Pow2(b)
  {
    if b == 0 {
    } else {
      Pow2Add(a, b - 1);
      assert a + b - 1 == a + (b - 1);
    }
  }

  lemma {:induction false} Pow2Mono(a: nat, b: nat)
    requires a <= b
    ensures Pow2(a) <= Pow2(b)
  {
    if a < b {
      Pow2Mono(a, b - 1);
    }
  }

  lemma Pow2Values()
    ensures Pow2(3) == 8 && Pow2(4) == 16 && Pow2(5) == 32 && Pow2(6) == 64 && Pow2(7) == 128 && Pow2(8) == 256
  {
  }

  lemma Pow2Value16()
    ensures Pow2(16) == 0x1_0000
  {
    Pow2Values();
    Pow2Add(8, 8);
  }

  lemma Pow2Value32()
    ensures Pow2(32) == 0x1_0000_0000
  {
    Pow2Value16();
    Pow2Add(16, 16);
  }

  lemma Pow2Value64()
    ensures Pow2(64) == 0x1_0000_0000_0000_0000
  {
    Pow2Value32();
    Pow2Add(32, 32);
  }

  // The low n bits of x.
  function ToBits(x: nat, n: nat): (b: seq<bool>)
    ensures |b| == n
  {
    if n == 0 then [] else ToBits(x / 2, n - 1) + [x % 2 == 1]
  }

  function BytesToBits(v: Bytes): (b: seq<bool>)
    ensures |b| == 8 * |v|
  {
    if v == [] then [] else ToBits(v[0], 8) + BytesToBits(v[1..])
  }

  // A run of k one-bits: a prefix of the end-of-string code.
  function Ones(k: nat): (b: seq<bool>)
    ensures |b| == k
    ensures forall i :: 0 <= i < k ==> b[i]
  {
    seq(k, i => true)
  }

  // x without its low b bits, one bit at a time.
  function Shr(x: nat, b: nat): nat {
    if b == 0 then x else Shr(x / 2, b - 1)
  }

  // x followed by b zero bits.
  function Shl(x: nat, b: nat): nat {
    if b == 0 then x else 2 * Shl(x, b - 1)
  }

  // The low a+b bits are the a bits above the low b bits, then those b bits.
  lemma {:induction false} ToBitsSplit(x: nat, a: nat, b: nat)
    ensures ToBits(x, a + b) == ToBits(Shr(x, b), a) + ToBits(x, b)
  {
    if b > 0 {
      ToBitsSplit(x / 2, a, b - 1);
      assert ToBits(x, a + b) == ToBits(x / 2, a + (b - 1)) + [x % 2 == 1];
    }
  }

  // Bits above the low m never matter.
  lemma {:induction false} ToBitsCongruent(x: nat, y: nat, k: int, m: nat, n: nat)
    requires n <= m && x == y + k * Pow2(m)
    ensures ToBits(x, n) == ToBits(y, n)
  {
    if n > 0 {
      assert k * Pow2(m) == 2 * (k * Pow2(m - 1));
      ToBitsCongruent(x / 2, y / 2, k, m - 1, n - 1);
    }
  }

  lemma ToBitsMod(x: nat, m: nat, n: nat)
    requires n <= m
    ensures ToBits(x % Pow2(m), n) == ToBits(x, n)
  {
    ToBitsCongruent(x, x % Pow2(m), x / Pow2(m), m, n);
  }

  // Shifting x left by b and or-ing in a b-bit number appends its bits.
  lemma {:induction false} ToBitsAppend(x: nat, a: nat, c: nat, b: nat)
    requires c < Pow2(b)
    ensures ToBits(Shl(x, b) + c, a + b) == ToBits(x, a) + ToBits(c, b)
  {
    if b > 0 {
      assert (Shl(x, b) + c) / 2 == Shl(x, b - 1) + c / 2;
      ToBitsAppend(x, a, c / 2, b - 1);
      assert ToBits(Shl(x, b) + c, a + b) == ToBits(Shl(x, b - 1) + c / 2, a + (b - 1)) + [c % 2 == 1];
    }
  }

  lemma {:induction false} ToBitsInjective(x: nat, y: nat, n: nat)
    requires x < Pow2(n) && y < Pow2(n)
    requires ToBits(x, n) == ToBits(y, n)
    ensures x == y
  {
    if n > 0 {
      var a, b := ToBits(x, n), ToBits(y, n);
      assert a[..n - 1] == ToBits(x / 2, n - 1) && a[n - 1] == (x % 2 == 1);
      assert b[..n - 1] == ToBits(y / 2, n - 1) && b[n - 1] == (y % 2 == 1);
      ToBitsInjective(x / 2, y / 2, n - 1);
    }
  }

  lemma {:induction false} OnesBits(k: nat)
    ensures ToBits(Pow2(k) - 1, k) == Ones(k)
  {
    if k > 0 {
      var x := Pow2(k) - 1;
      assert x / 2 == Pow2(k - 1) - 1 && x % 2 == 1;
      OnesBits(k - 1);
      assert Ones(k) == Ones(k - 1) + [true];
    }
  }

  lemma {:induction false} BytesToBitsConcat(u: Bytes, v: Bytes)
    ensures BytesToBits(u + v) == BytesToBits(u) + BytesToBits(v)
  {
    hide ToBits;
    if u == [] {
      assert u + v == v;
    } else {
      BytesToBitsConcat(u[1..], v);
      assert (u + v)[1..] == u[1..] + v;
    }
  }

  lemma {:induction false} BytesToBitsInjective(u: Bytes, v: Bytes)
    requires BytesToBits(u) == BytesToBits(v)
    ensures u == v
  {
    if u == [] || v == [] {
    } else {
      var a, b := BytesToBits(u), BytesToBits(v);
      assert a[..8] == ToBits(u[0], 8) && a[8..] == BytesToBits(u[1..]);
      assert b[..8] == ToBits(v[0], 8) && b[8..] == BytesToBits(v[1..]);
      Pow2Values();
      ToBitsInjective(u[0], v[0], 8);
      BytesToBitsInjective(u[1..], v[1..]);
    }
  }

  // The number a bit string stands for.
  function FromBits(b: seq<bool>): nat {
    if b == [] then 0 else 2 * FromBits(b[..|b| - 1]) + (if b[|b| - 1] then 1 else 0)
  }

  lemma {:induction false} FromBitsBound(b: seq<bool>)
    ensures FromBits(b) < Pow2(|b|)
    ensures ToBits(FromBits(b), |b|) == b
  {
    if b != [] {
      FromBitsBound(b[..|b| - 1]);
      assert b == b[..|b| - 1] + [b[|b| - 1]];
    }
  }

  // The octets whose bits are b.
  function Pack(b: seq<bool>): (v: Bytes)
    requires |b| % 8 == 0
    ensures 8 * |v| == |b|
  {
    if b == [] then []
    else
      FromBitsBound(b[..8]);
      Pow2Values();
      [FromBits(b[..8])] + Pack(b[8..])
  }

  lemma {:induction false} PackBits(b: seq<bool>)
    requires |b| % 8 == 0
    ensures BytesToBits(Pack(b)) == b
  {
    if b != [] {
      FromBitsBound(b[..8]);
      PackBits(b[8..]);
      assert b == b[..8] + b[8..];
      assert Pack(b)[1..] == Pack(b[8..]);
    }
  }

  // ---------------------------------------------------------------- chunks

  function Joined(chunks: seq<Bytes>): Bytes {
    if chunks == [] then [] else chunks[0] + Joined(chunks[1..])
  }

  lemma {:induction false} JoinedLast(chunks: seq<Bytes>, c: Bytes)
    ensures Joined(chunks + [c]) == Joined(chunks) + c
  {
    if chunks == [] {
      assert [c][1..] == [];
    } else {
      assert (chunks + [c])[1..] == chunks[1..] + [c];
      JoinedLast(chunks[1..], c);
    }
  }
}
