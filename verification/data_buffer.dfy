/** The buffer for the body of a stream: a list of chunks, read at one end and written at the other. */
module DataBuffers {
  import opened Bits
  import opened Ints

  const MAX_CHUNK: nat := 16384

  // The size of a chunk to hold at least size bytes, if a chunk can.
  function ChunkSize(size: int): (n: nat)
    ensures 0 < n <= MAX_CHUNK && (size <= n || n == MAX_CHUNK)
  {
    if size <= 1024 then 1024
    else if size <= 2048 then 2048
    else if size <= 4096 then 4096
    else if size <= 8192 then 8192
    else MAX_CHUNK
  }

  // ---------------------------------------------------------------- chunks as values

  // The chunks up to the last.
  lemma Front(d: seq<Bytes>)
    requires d != []
    ensures Joined(d) == Joined(d[..|d| - 1]) + d[|d| - 1]
  {
    JoinedLast(d[..|d| - 1], d[|d| - 1]);
    assert d == d[..|d| - 1] + [d[|d| - 1]];
  }

  // Where the bytes written end.
  function End(d: seq<Bytes>, w: nat): int {
    if d == [] then 0 else |Joined(d[..|d| - 1])| + w
  }

  // Reading goes on at r of the first chunk, writing at w of the last.
  ghost predicate Ok(d: seq<Bytes>, r: nat, w: nat, size: nat) {
    && (forall i :: 0 <= i < |d| ==> 0 < |d[i]| <= MAX_CHUNK)
    && (d == [] ==> r == 0)
    && (d != [] ==> r < |d[0]| && w <= |d[|d| - 1]|)
    && r + size == End(d, w)
  }

  lemma Inside(d: seq<Bytes>, r: nat, w: nat, size: nat)
    requires Ok(d, r, w, size)
    ensures r <= End(d, w) <= |Joined(d)|
  {
    if d != [] {
      Front(d);
    }
  }

  // What is written and not yet read.
  function Unread(d: seq<Bytes>, r: nat, w: nat): (s: Bytes) {
    if r <= End(d, w) <= |Joined(d)| then Joined(d)[r..End(d, w)] else []
  }

  lemma UnreadSize(d: seq<Bytes>, r: nat, w: nat, size: nat)
    requires Ok(d, r, w, size)
    ensures |Unread(d, r, w)| == size
  {
    Inside(d, r, w, size);
  }

  // An empty chunk at the end, once the last one is full.
  lemma Allocated(d: seq<Bytes>, r: nat, w: nat, size: nat, c: Bytes)
    requires Ok(d, r, w, size) && 0 < |c| <= MAX_CHUNK && (d != [] ==> w == |d[|d| - 1]|)
    ensures Ok(d + [c], r, 0, size) && Unread(d + [c], r, 0) == Unread(d, r, w)
  {
    var d' := d + [c];
    assert d'[..|d'| - 1] == d;
    JoinedLast(d, c);
    if d != [] {
      Front(d);
    }
  }

  // q written into the last chunk.
  lemma ChunkWritten(d: seq<Bytes>, r: nat, w: nat, size: nat, q: Bytes, last: Bytes)
    requires Ok(d, r, w, size) && d != [] && w + |q| <= |d[|d| - 1]|
    requires last == d[|d| - 1][..w] + q + d[|d| - 1][w + |q|..]
    ensures var d' := d[|d| - 1 := last];
            Ok(d', r, w + |q|, size + |q|) && Unread(d', r, w + |q|) == Unread(d, r, w) + q
  {
    hide Joined;
    var d' := d[|d| - 1 := last];
    assert d'[..|d| - 1] == d[..|d| - 1];
    Front(d);
    Front(d');
    Inside(d, r, w, size);
    Splice(Joined(d[..|d| - 1]), d[|d| - 1], r, w, q);
  }

  lemma Splice(f: Bytes, c: Bytes, r: nat, w: nat, q: Bytes)
    requires w + |q| <= |c| && r <= |f| + w
    ensures (f + (c[..w] + q + c[w + |q|..]))[r..|f| + w + |q|] == (f + c)[r..|f| + w] + q
  {
    var c' := c[..w] + q + c[w + |q|..];
    var e := |f| + w;
    assert (f + c')[..e + |q|] == (f + c)[..e] + q;
    assert (f + c')[r..e + |q|] == (f + c')[..e + |q|][r..];
    assert (f + c)[r..e] == (f + c)[..e][r..];
  }

  // The part of the first chunk that can be read.
  function Readable(d: seq<Bytes>, r: nat, w: nat): Bytes
    requires d != [] && r <= |d[0]| && (|d| == 1 ==> r <= w <= |d[0]|)
  {
    if |d| == 1 then d[0][r..w] else d[0][r..]
  }

  lemma FirstReadable(d: seq<Bytes>, r: nat, w: nat, size: nat)
    requires Ok(d, r, w, size) && size > 0
    ensures d != [] && (|d| == 1 ==> r <= w)
    ensures 0 < |Readable(d, r, w)| <= size == |Unread(d, r, w)|
    ensures Readable(d, r, w) == Unread(d, r, w)[..|Readable(d, r, w)|]
  {
    Inside(d, r, w, size);
    assert Joined(d) == d[0] + Joined(d[1..]);
    if |d| > 1 {
      Front(d);
      assert d[..|d| - 1][0] == d[0];
      assert |Joined(d[..|d| - 1])| >= |d[0]|;
      Starts(d[0], Joined(d[1..]), r, End(d, w));
      assert Readable(d, r, w) == d[0][r..];
    } else {
      assert d[..0] == [];
      assert Joined(d) == d[0];
      assert Readable(d, r, w) == Unread(d, r, w);
    }
  }

  lemma Starts(a: Bytes, b: Bytes, r: nat, e: nat)
    requires r <= |a| <= e <= |a + b|
    ensures a[r..] == (a + b)[r..e][..|a| - r]
  {
  }

  // n bytes read, short of the end of the first chunk.
  lemma ReadOn(d: seq<Bytes>, r: nat, w: nat, size: nat, n: nat)
    requires Ok(d, r, w, size) && n <= size && d != [] && r + n < |d[0]|
    ensures |Unread(d, r, w)| == size && Ok(d, r + n, w, size - n) && Unread(d, r + n, w) == Unread(d, r, w)[n..]
  {
    Inside(d, r, w, size);
  }

  // The first chunk read to its end.
  lemma ReadOut(d: seq<Bytes>, r: nat, w: nat, size: nat, n: nat)
    requires Ok(d, r, w, size) && n <= size && d != [] && r + n == |d[0]|
    ensures |Unread(d, r, w)| == size && Ok(d[1..], 0, w, size - n) && Unread(d[1..], 0, w) == Unread(d, r, w)[n..]
  {
    Inside(d, r, w, size);
    if |d| == 1 {
      assert d[..0] == [];
      assert Joined(d) == d[0];
    } else {
      assert d[..|d| - 1][0] == d[0] && d[..|d| - 1][1..] == d[1..][..|d| - 2];
    }
  }

  // Less than two chunks' worth of memory is not in use.
  lemma WasteBounded(d: seq<Bytes>, r: nat, w: nat, size: nat)
    requires Ok(d, r, w, size)
    ensures |Joined(d)| < size + 2 * MAX_CHUNK
  {
    if d != [] {
      Front(d);
    }
  }

  // ---------------------------------------------------------------- the buffer

  ghost predicate Mirror(chunks: seq<array<Byte>>, d: seq<Bytes>)
    reads set c | c in chunks
  {
    && |chunks| == |d|
    && (forall i, j :: 0 <= i < j < |chunks| ==> chunks[i] != chunks[j])
    && (forall i :: 0 <= i < |d| ==> chunks[i][..] == d[i])
  }

  class DataBuffer {
    var chunks: seq<array<Byte>>
    var r: nat
    var w: nat
    var size: nat
    var expected: int
    // What the chunks hold.
    ghost var d: seq<Bytes>

    ghost predicate Valid()
      reads this, set c | c in chunks
    {
      Mirror(chunks, d) && Ok(d, r, w, size)
    }

    ghost function Contents(): (s: Bytes)
      reads this
    {
      Unread(d, r, w)
    }

    constructor (expected: int)
      ensures Valid() && Contents() == [] && fresh(set c | c in chunks)
    {
      chunks, r, w, size, this.expected, d := [], 0, 0, 0, expected, [];
    }

    function Len(): (n: nat)
      reads this
    {
      size
    }

    // A chunk with room, the last one or a new one; writing goes on at w of it.
    method LastChunkOrAlloc(want: int) returns (chunk: array<Byte>)
      requires Valid()
      modifies this`chunks, this`w, this`d
      ensures Valid() && Contents() == old(Contents())
      ensures chunks != [] && chunk == chunks[|chunks| - 1] && w < chunk.Length
      ensures chunks == old(chunks) || (chunks == old(chunks) + [chunk] && fresh(chunk))
    {
      hide Ok, Unread;
      OkParts(d, r, w, size);
      if chunks != [] {
        var last := chunks[|chunks| - 1];
        if w < last.Length {
          return last;
        }
      }
      chunk := new Byte[ChunkSize(want)](_ => 0);
      Allocated(d, r, w, size, chunk[..]);
      chunks := chunks + [chunk];
      d := d + [chunk[..]];
      w := 0;
    }

    // Fill the last chunk with as much of p, from t on, as it takes.
    method Fill(chunk: array<Byte>, p: Bytes, t: nat) returns (m: nat)
      requires Valid() && chunks != [] && chunk == chunks[|chunks| - 1] && w < chunk.Length && t < |p|
      modifies this`w, this`size, this`expected, this`d, chunk
      ensures Valid() && 0 < m <= |p| - t && Contents() == old(Contents()) + p[t..t + m]
    {
      hide Ok, Unread;
      m := Min(chunk.Length - w, |p| - t);
      ghost var q := p[t..t + m];
      CopyInto(chunk, w, p, t, m);
      ChunkWritten(d, r, w, size, q, chunk[..]);
      d := d[|d| - 1 := chunk[..]];
      w := w + m;
      size := size + m;
      expected := expected - m;
    }

    static method CopyInto(chunk: array<Byte>, at: nat, p: Bytes, t: nat, m: nat)
      requires at + m <= chunk.Length && t + m <= |p|
      modifies chunk
      ensures chunk[..] == old(chunk[..])[..at] + p[t..t + m] + old(chunk[..])[at + m..]
    {
      forall i | 0 <= i < m {
        chunk[at + i] := p[t + i];
      }
    }

    method Write(p: Bytes) returns (n: nat)
      requires Valid()
      modifies this, set c | c in chunks
      ensures Valid() && n == |p| && Contents() == old(Contents()) + p
      ensures forall c :: c in chunks ==> c in old(chunks) || fresh(c)
    {
      hide Ok, Unread, Mirror;
      var t: nat := 0;
      while t < |p|
        invariant t <= |p| && Valid() && Contents() == old(Contents()) + p[..t]
        invariant forall c :: c in chunks ==> c in old(chunks) || fresh(c)
      {
        var want := |p| - t;
        var chunk := LastChunkOrAlloc(if want > expected then want else expected);
        var m := Fill(chunk, p, t);
        assert p[..t + m] == p[..t] + p[t..t + m];
        t := t + m;
      }
      assert p[..t] == p;
      return |p|;
    }

    // Copy from the first chunk to p, from t on.
    method ReadFirst(p: array<Byte>, t: nat) returns (n: nat)
      requires Valid() && p !in chunks && t < p.Length && size > 0
      modifies this`chunks, this`r, this`size, this`d, p
      ensures Valid() && 0 < n <= old(size) && t + n <= p.Length && size == old(size) - n
      ensures n <= |old(Contents())| && Contents() == old(Contents())[n..]
      ensures p[t..t + n] == old(Contents())[..n] && p[..t] == old(p[..t]) && p[t + n..] == old(p[t + n..])
      ensures forall c :: c in chunks ==> c in old(chunks)
    {
      hide Ok, Unread;
      FirstReadable(d, r, w, size);
      OkParts(d, r, w, size);
      var end := if |chunks| == 1 then w else chunks[0].Length;
      n := Min(end - r, p.Length - t);
      forall i | 0 <= i < n {
        p[t + i] := chunks[0][r + i];
      }
      assert p[t..t + n] == Readable(d, r, w)[..n];
      assert Unread(d, r, w)[..|Readable(d, r, w)|][..n] == Unread(d, r, w)[..n];
      Skip(n);
    }

    // n bytes of the first chunk have been read; it goes if that was all of it.
    method Skip(n: nat)
      requires Valid() && 0 < n <= size && chunks != [] && r + n <= chunks[0].Length
      modifies this`chunks, this`r, this`size, this`d
      ensures Valid() && size == old(size) - n && n <= |old(Contents())| && Contents() == old(Contents())[n..]
      ensures forall c :: c in chunks ==> c in old(chunks)
    {
      hide Ok, Unread;
      if r + n == chunks[0].Length {
        ReadOut(d, r, w, size, n);
        chunks, d := chunks[1..], d[1..];
        r := 0;
      } else {
        ReadOn(d, r, w, size, n);
        r := r + n;
      }
      size := size - n;
    }

    // Fails if there is nothing to read.
    method Read(p: array<Byte>) returns (n: nat, ok: bool)
      requires Valid() && p !in chunks
      modifies this, p
      ensures Valid() && ok == (old(size) > 0) && n == Min(p.Length, old(size)) && size == old(size) - n
      ensures n <= |old(Contents())| && p[..n] == old(Contents())[..n] && p[n..] == old(p[n..])
      ensures Contents() == old(Contents())[n..]
      ensures forall c :: c in chunks ==> c in old(chunks)
    {
      hide Ok, Unread, Mirror;
      UnreadSize(d, r, w, size);
      n := 0;
      if size == 0 {
        return 0, false;
      }
      while n < p.Length && size > 0
        invariant n <= p.Length && Valid() && size == old(size) - n && n <= |old(Contents())| == old(size)
        invariant Contents() == old(Contents())[n..]
        invariant p[..n] == old(Contents())[..n] && p[n..] == old(p[n..])
        invariant forall c :: c in chunks ==> c in old(chunks)
        decreases p.Length - n
      {
        var m := ReadFirst(p, n);
        assert old(Contents())[..n + m] == old(Contents())[..n] + old(Contents())[n..][..m];
        n := n + m;
      }
      ok := true;
    }
  }

  lemma OkParts(d: seq<Bytes>, r: nat, w: nat, size: nat)
    requires Ok(d, r, w, size)
    ensures d != [] ==> w <= |d[|d| - 1]| && r < |d[0]|
  {
  }
}
