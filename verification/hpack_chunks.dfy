/**
 * Incremental decoding: how a header block is cut into chunks does not matter.
 */
module HpackChunks {
  import opened Options
  import opened Bits
  import opened HeaderTable
  import opened DynamicTable
  import opened HpackFormat
  import Huffman
  import Varint

  // The decoder between two calls: its state and the octets it could not yet parse.
  datatype Feed = Feed(st: DecState, saved: Bytes)

  const VARINT_OVERHEAD: nat := 8

  // An unfinished rest of n octets that no field within the limit should need.
  predicate TooLong(maxStrLen: nat, n: nat) {
    maxStrLen != 0 && n > 2 * (maxStrLen + VARINT_OVERHEAD)
  }

  // Write. An unfinished field is kept for later unless it is suspiciously long.
  function WriteChunk(sh: Shared, fd: Feed, p: Bytes): (Feed, Option<Error>)
    requires Huffman.Shaped(sh.code)
  {
    if p == [] then (fd, None)
    else
      var r := DecodeAll(sh, fd.st, fd.saved + p);
      if r.error.Some? then (Feed(r.st, []), r.error)
      else if r.left != [] && TooLong(r.st.maxStrLen, |r.left|) then
        (Feed(r.st, []), Some(StringTooLong))
      else (Feed(r.st, r.left), None)
  }

  // Close. Unfinished input is an error, and is dropped.
  function Close(fd: Feed): (Feed, Option<Error>) {
    if |fd.saved| > 0 then (fd.(saved := []), Some(TruncatedHeaders))
    else (fd.(st := fd.st.(firstField := true)), None)
  }

  // Chunk after chunk, up to the first error.
  function WriteChunks(sh: Shared, fd: Feed, chunks: seq<Bytes>): (Feed, Option<Error>)
    requires Huffman.Shaped(sh.code)
    decreases |chunks|
  {
    if chunks == [] then (fd, None)
    else
      var (fd', err) := WriteChunk(sh, fd, chunks[0]);
      if err.Some? then (fd', err) else WriteChunks(sh, fd', chunks[1..])
  }

  // ---------------------------------------------------------------- more input

  // What one parse result becomes when more input follows.
  ghost predicate Extends(r: Step, r': Step, more: Bytes) {
    match r
    case More => true
    case Fail(_, _) => r' == r
    case Next(st, rest) => r' == Next(st, rest + more)
  }

  lemma ReadStringMore(maxStrLen: nat, p: Bytes, more: Bytes)
    ensures var r, r' := ReadString(maxStrLen, p), ReadString(maxStrLen, p + more);
            match r
            case Str(h, raw, rest) => r' == Str(h, raw, rest + more)
            case StrStopped(Bad(e)) => r' == r
            case StrStopped(NeedMore) => true
  {
    hide Varint.ReadVarInt;
    Varint.ReadVarIntMore(7, p, more);
    match Varint.ReadVarInt(7, p)
    case Stopped(_) =>
    case Parsed(n, q) =>
      if n <= |q| {
        assert (q + more)[..n] == q[..n] && (q + more)[n..] == q[n..] + more;
      }
  }

  lemma ParseNameMore(sh: Shared, st: DecState, n: nat, p: Bytes, more: Bytes)
    requires n == 4 || n == 6
    ensures var r, r' := ParseName(sh, st, n, p), ParseName(sh, st, n, p + more);
            match r
            case Known(s, rest) => r' == Known(s, rest + more)
            case Raw(h, raw, rest) => r' == Raw(h, raw, rest + more)
            case NoName(Fail(_, _)) => r' == r
            case NoName(_) => true
  {
    hide Varint.ReadVarInt, ReadString, At;
    Varint.ReadVarIntMore(n, p, more);
    match Varint.ReadVarInt(n, p)
    case Stopped(_) =>
    case Parsed(i, q) => ReadStringMore(st.maxStrLen, q, more);
  }

  lemma FinishLiteralMore(sh: Shared, st: DecState, kind: Kind, name: Name, name': Name,
                          h: bool, raw: Bytes, rest: Bytes, more: Bytes)
    requires Huffman.Shaped(sh.code)
    requires match name
             case Known(s, r) => name' == Known(s, r + more)
             case Raw(h, raw, r) => name' == Raw(h, raw, r + more)
             case NoName(_) => false
    ensures Extends(FinishLiteral(sh, st, kind, name, h, raw, rest),
                    FinishLiteral(sh, st, kind, name', h, raw, rest + more), more)
  {
    hide DecodeText, Add, Huffman.Shaped;
  }

  lemma ParseLiteralMore(sh: Shared, st: DecState, n: nat, kind: Kind, p: Bytes, more: Bytes)
    requires Huffman.Shaped(sh.code) && (n == 4 || n == 6)
    ensures Extends(ParseLiteral(sh, st, n, kind, p), ParseLiteral(sh, st, n, kind, p + more), more)
  {
    hide ParseName, ReadString, FinishLiteral, Huffman.Shaped;
    ParseNameMore(sh, st, n, p, more);
    var name := ParseName(sh, st, n, p);
    var name' := ParseName(sh, st, n, p + more);
    if !name.NoName? {
      ReadStringMore(st.maxStrLen, name.rest, more);
      match ReadString(st.maxStrLen, name.rest)
      case StrStopped(_) =>
      case Str(h, raw, q) => FinishLiteralMore(sh, st, kind, name, name', h, raw, q, more);
    }
  }

  lemma ParseIndexedMore(sh: Shared, st: DecState, p: Bytes, more: Bytes)
    ensures Extends(ParseIndexed(sh, st, p), ParseIndexed(sh, st, p + more), more)
  {
    hide Varint.ReadVarInt, At;
    Varint.ReadVarIntMore(7, p, more);
  }

  lemma ParseSizeUpdateMore(st: DecState, p: Bytes, more: Bytes)
    ensures Extends(ParseSizeUpdate(st, p), ParseSizeUpdate(st, p + more), more)
  {
    hide Varint.ReadVarInt, SetMax;
    Varint.ReadVarIntMore(5, p, more);
  }

  // A representation that is complete, or wrong, stays so whatever follows.
  lemma ParseReprMore(sh: Shared, st: DecState, p: Bytes, more: Bytes)
    requires Huffman.Shaped(sh.code) && p != []
    ensures Extends(ParseRepr(sh, st, p), ParseRepr(sh, st, p + more), more)
  {
    hide ParseIndexed, ParseLiteral, ParseSizeUpdate, Huffman.Shaped;
    assert (p + more)[0] == p[0];
    ParseIndexedMore(sh, st, p, more);
    ParseLiteralMore(sh, st, 6, Incremental, p, more);
    ParseLiteralMore(sh, st, 4, WithoutIndexing, p, more);
    ParseLiteralMore(sh, st, 4, NeverIndexed, p, more);
    ParseSizeUpdateMore(st, p, more);
  }

  // Decoding p and then the rest is decoding both at once.
  lemma {:induction false} DecodeAllMore(sh: Shared, st: DecState, p: Bytes, more: Bytes)
    requires Huffman.Shaped(sh.code)
    ensures var r := DecodeAll(sh, st, p);
            DecodeAll(sh, st, p + more) == if r.error.Some? then r else DecodeAll(sh, r.st, r.left + more)
    ensures var r := DecodeAll(sh, st, p);
            r.st.maxStrLen == st.maxStrLen && (r.error.Some? ==> r.left == [])
    decreases |p|
  {
    hide ParseRepr, Huffman.Shaped;
    if p == [] {
      assert p + more == more && [] + more == more;
    } else {
      ParseReprMore(sh, st, p, more);
      ParseReprKeeps(sh, st, p);
      match ParseRepr(sh, st, p)
      case More =>
      case Fail(_, _) =>
      case Next(st', rest) => DecodeAllMore(sh, st'.(firstField := false), rest, more);
    }
  }

  lemma ParseReprKeeps(sh: Shared, st: DecState, p: Bytes)
    requires Huffman.Shaped(sh.code) && p != []
    ensures match ParseRepr(sh, st, p)
            case More => true
            case Fail(_, st') => st'.maxStrLen == st.maxStrLen
            case Next(st', _) => st'.maxStrLen == st.maxStrLen
  {
    hide Varint.ReadVarInt, ReadString, DecodeText, At, SetMax, Add, Huffman.Shaped;
  }

  // ---------------------------------------------------------------- chunks

  // The first k chunks are parsed without an error, and leave an unfinished rest that is too
  // long for the decoder's string limit.
  predicate Refuses(sh: Shared, fd: Feed, chunks: seq<Bytes>, k: nat)
    requires Huffman.Shaped(sh.code) && k <= |chunks|
  {
    k > 0 && chunks[k - 1] != [] &&
    var r := DecodeAll(sh, fd.st, fd.saved + Joined(chunks[..k]));
    r.error.None? && TooLong(r.st.maxStrLen, |r.left|)
  }

  lemma WriteTwice(sh: Shared, fd: Feed, p: Bytes, q: Bytes)
    requires Huffman.Shaped(sh.code) && !Refuses(sh, fd, [p], 1)
    ensures var (fd', err) := WriteChunk(sh, fd, p);
            && fd'.st.maxStrLen == fd.st.maxStrLen
            && WriteChunk(sh, fd, p + q) == if err.Some? then (fd', err) else WriteChunk(sh, fd', q)
  {
    hide DecodeAll, Huffman.Shaped;
    assert [p][..1] == [p] && Joined([p]) == p + Joined([]) == p;
    if p == [] {
      assert p + q == q;
    } else {
      DecodeAllMore(sh, fd.st, fd.saved + p, q);
      assert fd.saved + (p + q) == fd.saved + p + q;
      if q == [] {
        assert p + q == p;
      }
    }
  }

  // After the first chunk, what is refused is refused as before.
  lemma RefusesLater(sh: Shared, fd: Feed, chunks: seq<Bytes>, k: nat)
    requires Huffman.Shaped(sh.code) && chunks != [] && k < |chunks| && !Refuses(sh, fd, chunks, 1)
    ensures Refuses(sh, fd, chunks, 1) == Refuses(sh, fd, [chunks[0]], 1)
    ensures var (fd', err) := WriteChunk(sh, fd, chunks[0]);
            && (k > 0 ==> Refuses(sh, fd, chunks, k + 1) == (err.None? && Refuses(sh, fd', chunks[1..], k)))
            && (k > 0 && err.None? ==> Refusal(sh, fd, chunks, k + 1) == Refusal(sh, fd', chunks[1..], k))
  {
    hide DecodeAll, Huffman.Shaped;
    var p, rest := chunks[0], chunks[1..];
    assert chunks[..1] == [p] == [p][..1] && Joined([p]) == p + Joined([]) == p;
    if k > 0 {
      assert chunks[..k + 1][0] == p && chunks[..k + 1][1..] == rest[..k];
      var j := Joined(rest[..k]);
      assert Joined(chunks[..k + 1]) == p + j;
      if p == [] {
        assert p + j == j;
      } else {
        DecodeAllMore(sh, fd.st, fd.saved + p, j);
        assert fd.saved + (p + j) == fd.saved + p + j;
      }
    }
  }

  // What the decoder is left with when it refuses the first k chunks.
  function Refusal(sh: Shared, fd: Feed, chunks: seq<Bytes>, k: nat): (Feed, Option<Error>)
    requires Huffman.Shaped(sh.code) && k <= |chunks|
  {
    (Feed(DecodeAll(sh, fd.st, fd.saved + Joined(chunks[..k])).st, []), Some(StringTooLong))
  }

  // Cutting a block into chunks gives the same fields, the same table, the same unfinished
  // rest and the same error as the whole block, unless a chunk before the last leaves a rest
  // that is too long.
  lemma {:induction false} ChunkingInvisible(sh: Shared, fd: Feed, chunks: seq<Bytes>)
    requires Huffman.Shaped(sh.code)
    requires forall k :: 0 < k < |chunks| ==> !Refuses(sh, fd, chunks, k)
    ensures WriteChunks(sh, fd, chunks) == WriteChunk(sh, fd, Joined(chunks))
    decreases |chunks|
  {
    hide WriteChunk, Refuses, Refusal, Huffman.Shaped;
    if chunks == [] {
      NothingWritten(sh, fd);
    } else if Refuses(sh, fd, chunks, 1) {
      RefusedAtOnce(sh, fd, chunks);
    } else {
      var rest := chunks[1..];
      var (fd', err) := WriteChunk(sh, fd, chunks[0]);
      RefusesLater(sh, fd, chunks, 0);
      WriteTwice(sh, fd, chunks[0], Joined(rest));
      if err.None? {
        forall k | 0 < k < |rest|
          ensures !Refuses(sh, fd', rest, k)
        {
          RefusesLater(sh, fd, chunks, k);
          assert !Refuses(sh, fd, chunks, k + 1);
        }
        ChunkingInvisible(sh, fd', rest);
      }
    }
  }

  // A block that was written without an error is closed with one if and only if it ends within
  // a field, however it was cut.
  lemma ClosedIffWhole(sh: Shared, st: DecState, chunks: seq<Bytes>)
    requires Huffman.Shaped(sh.code)
    requires forall k :: 0 < k < |chunks| ==> !Refuses(sh, Feed(st, []), chunks, k)
    requires WriteChunks(sh, Feed(st, []), chunks).1.None?
    ensures var r := DecodeAll(sh, st, Joined(chunks));
            var (fd, err) := Close(WriteChunks(sh, Feed(st, []), chunks).0);
            && err == (if r.left == [] then None else Some(TruncatedHeaders)) && fd.saved == []
            && fd.st == (if r.left == [] then r.st.(firstField := true) else r.st)
  {
    hide ParseRepr, WriteChunks, Refuses, Joined, Huffman.Shaped;
    ChunkingInvisible(sh, Feed(st, []), chunks);
    assert [] + Joined(chunks) == Joined(chunks);
  }

  // The first chunk that leaves a rest too long is refused, whatever would have followed.
  lemma {:induction false} ChunkRefused(sh: Shared, fd: Feed, chunks: seq<Bytes>, k: nat)
    requires Huffman.Shaped(sh.code) && 0 < k <= |chunks| && Refuses(sh, fd, chunks, k)
    requires forall j :: 0 < j < k ==> !Refuses(sh, fd, chunks, j)
    ensures WriteChunks(sh, fd, chunks) == Refusal(sh, fd, chunks, k)
    decreases k
  {
    hide WriteChunk, Refuses, Refusal, Huffman.Shaped;
    if k == 1 {
      RefusedAtOnce(sh, fd, chunks);
    } else {
      var rest := chunks[1..];
      var (fd', err) := WriteChunk(sh, fd, chunks[0]);
      RefusesLater(sh, fd, chunks, k - 1);
      forall j | 0 < j < k - 1
        ensures !Refuses(sh, fd', rest, j)
      {
        RefusesLater(sh, fd, chunks, j);
        assert !Refuses(sh, fd, chunks, j + 1);
      }
      ChunkRefused(sh, fd', rest, k - 1);
    }
  }

  lemma RefusedAtOnce(sh: Shared, fd: Feed, chunks: seq<Bytes>)
    requires Huffman.Shaped(sh.code) && chunks != [] && Refuses(sh, fd, chunks, 1)
    ensures WriteChunks(sh, fd, chunks) == Refusal(sh, fd, chunks, 1)
    ensures |chunks| == 1 ==> WriteChunks(sh, fd, chunks) == WriteChunk(sh, fd, Joined(chunks))
  {
    hide DecodeAll, Huffman.Shaped;
    var p := chunks[0];
    assert chunks[..1] == [p] && Joined([p]) == p + Joined([]) == p;
    if |chunks| == 1 {
      assert chunks == [p];
    }
  }

  // Without a string limit nothing is refused.
  lemma NoLimitNoRefusal(sh: Shared, fd: Feed, chunks: seq<Bytes>, k: nat)
    requires Huffman.Shaped(sh.code) && fd.st.maxStrLen == 0 && k <= |chunks|
    ensures !Refuses(sh, fd, chunks, k)
  {
    hide DecodeAll, Huffman.Shaped;
    DecodeAllMore(sh, fd.st, fd.saved + Joined(chunks[..k]), []);
  }

  lemma NothingWritten(sh: Shared, fd: Feed)
    requires Huffman.Shaped(sh.code)
    ensures WriteChunk(sh, fd, []) == (fd, None)
  {
  }

  // ---------------------------------------------------------------- a block that depends on the cut

  // The length 127 in ten octets, as no encoder would write it.
  function LongLength(): Bytes {
    [127, 128, 128, 128, 128, 128, 128, 128, 128, 0]
  }

  lemma LongLengthReads(tail: Bytes)
    ensures Varint.ReadVarInt(7, LongLength() + tail) == Varint.Parsed(127, tail)
  {
    hide Pow2, Varint.ReadGroups;
    Pow2Values();
    var p := LongLength() + tail;
    ZeroGroups(p[1..], 8, 0, tail);
  }

  // Groups of zeros add nothing.
  lemma {:induction false} ZeroGroups(p: Bytes, n: nat, m: nat, tail: Bytes)
    requires |p| == n + 1 + |tail| && p[n] == 0 && p[n + 1..] == tail && m + 7 * n < 63
    requires forall k :: 0 <= k < n ==> p[k] == 128
    ensures Varint.ReadGroups(127, m, p) == Varint.Parsed(127, tail)
    decreases n
  {
    hide Pow2;
    if n > 0 {
      ZeroGroups(p[1..], n - 1, m + 7, tail);
    }
  }

  function LongString(s: Bytes): Bytes {
    LongLength() + s
  }

  lemma LongStringReads(s: Bytes, tail: Bytes)
    requires |s| <= 127
    ensures ReadString(127, LongString(s) + tail) ==
            if |s + tail| < 127 then StrStopped(NeedMore) else Str(false, (s + tail)[..127], (s + tail)[127..])
  {
    hide Varint.ReadVarInt;
    LongLengthReads(s + tail);
    assert LongString(s) + tail == LongLength() + (s + tail);
    assert (LongString(s) + tail)[0] == 127;
  }

  lemma LongName(sh: Shared, d: DecState, s: Bytes, tail: Bytes)
    requires d.maxStrLen == 127 && |s| == 127
    ensures ParseName(sh, d, 4, [0] + (LongString(s) + tail)) == Raw(false, s, tail)
  {
    hide LongString, ReadString, Varint.ReadGroups;
    Pow2Values();
    LongStringReads(s, tail);
    var p := [0] + (LongString(s) + tail);
    assert p[1..] == LongString(s) + tail;
    assert (s + tail)[..127] == s && (s + tail)[127..] == tail;
    assert Varint.ReadVarInt(4, p) == Varint.Parsed(0, p[1..]);
  }

  // A literal field of two strings of 127 octets, within the limit of 127, with lengths that
  // take ten octets: parsed as a whole, and refused if the last octet arrives by itself.
  lemma LateOctetRefused(sh: Shared, d: DecState, s: Bytes)
    requires Huffman.Shaped(sh.code) && d.maxStrLen == 127 && d.emitEnabled && |s| == 127
    ensures var p := [0] + (LongString(s) + LongString(s));
            && |p| == 275
            && WriteChunk(sh, Feed(d, []), p)
               == (Feed(d.(emitted := d.emitted + [Field(s, s, false)], firstField := false), []), None)
            && WriteChunks(sh, Feed(d, []), [p[..274], p[274..]]).1 == Some(StringTooLong)
  {
    hide LongString, ReadString, ParseName, Huffman.Shaped;
    var most := s[..126];
    var value := LongString(s);
    var p := [0] + (LongString(s) + value);
    LongSizes(s);
    LongName(sh, d, s, value);
    LongStringReads(s, []);
    assert value + [] == value && s + [] == s && s[..127] == s && s[127..] == [];
    assert ParseRepr(sh, d, p) == ParseLiteral(sh, d, 4, WithoutIndexing, p);
    var d' := d.(emitted := d.emitted + [Field(s, s, false)]);
    assert ParseLiteral(sh, d, 4, WithoutIndexing, p) == Next(d', []);
    assert DecodeAll(sh, d'.(firstField := false), []) == Outcome(d'.(firstField := false), [], None);
    assert [] + p == p;
    var q := [0] + (LongString(s) + LongString(most));
    assert p[..274] == q;
    LongName(sh, d, s, LongString(most));
    LongStringReads(most, []);
    assert LongString(most) + [] == LongString(most) && most + [] == most;
    assert ParseRepr(sh, d, q) == ParseLiteral(sh, d, 4, WithoutIndexing, q);
    assert [] + q == q;
  }

  lemma LongSizes(s: Bytes)
    requires |s| == 127
    ensures |LongString(s)| == 137 && |LongString(s[..126])| == 136 && LongString(s)[..136] == LongString(s[..126])
  {
  }
}
