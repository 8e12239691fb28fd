/** Header blocks cut into a HEADERS frame and CONTINUATION frames, and put together again. */
module HeaderBlocks {
  import opened Options
  import opened Bits
  import opened HeaderTable
  import opened HpackFormat
  import opened HpackChunks
  import opened HpackRoundTrip
  import opened HpackBlocks
  import Huffman

  datatype Kind = HEADERS | CONTINUATION | OTHER

  datatype Frame = Frame(kind: Kind, stream: nat, endStream: bool, endHeaders: bool, payload: Bytes)

  // ---------------------------------------------------------------- writing

  // fs is the block, cut up to frames of at most max octets.
  ghost predicate IsBlock(fs: seq<Frame>, stream: nat, endStream: bool, max: nat, block: Bytes) {
    && Joined(Payloads(fs)) == block && (block == [] ==> fs == [])
    && forall i :: 0 <= i < |fs| ==>
         && fs[i].stream == stream && 0 < |fs[i].payload| <= max
         && fs[i].kind == (if i == 0 then HEADERS else CONTINUATION)
         && fs[i].endStream == (i == 0 && endStream)
         && fs[i].endHeaders == (i == |fs| - 1)
         && (i < |fs| - 1 ==> |fs[i].payload| == max)
  }

  function Payloads(fs: seq<Frame>): (ps: seq<Bytes>)
    ensures |ps| == |fs|
  {
    seq(|fs|, i requires 0 <= i < |fs| => fs[i].payload)
  }

  // writeHeaders and splitHeaderBlock.
  method WriteHeaderBlock(stream: nat, endStream: bool, max: nat, block: Bytes) returns (fs: seq<Frame>)
    requires max > 0
    ensures IsBlock(fs, stream, endStream, max, block)
  {
    fs := [];
    var first := true;
    var rest := block;
    assert Payloads([]) == [];
    while |rest| > 0
      invariant first <==> fs == []
      invariant Joined(Payloads(fs)) + rest == block
      invariant forall i :: 0 <= i < |fs| ==>
                  && fs[i].stream == stream && 0 < |fs[i].payload| <= max
                  && fs[i].kind == (if i == 0 then HEADERS else CONTINUATION)
                  && fs[i].endStream == (i == 0 && endStream)
                  && fs[i].endHeaders == (i == |fs| - 1 && rest == [])
                  && (i < |fs| - 1 || rest != [] ==> |fs[i].payload| == max)
      decreases |rest|
    {
      var chunk := rest;
      if |chunk| > max {
        chunk := chunk[..max];
      }
      rest := rest[|chunk|..];
      var endHeaders := |rest| == 0;
      var f := if first then Frame(HEADERS, stream, endStream, endHeaders, chunk)
               else Frame(CONTINUATION, stream, false, endHeaders, chunk);
      assert Payloads(fs + [f]) == Payloads(fs) + [chunk];
      JoinedLast(Payloads(fs), chunk);
      first := false;
      fs := fs + [f];
    }
  }

  // ---------------------------------------------------------------- the order of frames

  // Whether a frame leaves a block unfinished. On stream 0 that is not noticed.
  predicate Leaves(f: Frame) {
    f.kind != OTHER && !f.endHeaders && f.stream != 0
  }

  class Framer {
    var lastHeaderStream: nat

    constructor ()
      ensures lastHeaderStream == 0
    {
      lastHeaderStream := 0;
    }

    method CheckFrameOrder(f: Frame) returns (ok: bool)
      modifies this
      ensures (lastHeaderStream, ok) == Order(old(lastHeaderStream), f)
    {
      if lastHeaderStream != 0 {
        if f.kind != CONTINUATION {
          return false;
        }
        if f.stream != lastHeaderStream {
          return false;
        }
      } else if f.kind == CONTINUATION {
        return false;
      }
      if f.kind == HEADERS || f.kind == CONTINUATION {
        lastHeaderStream := if f.endHeaders then 0 else f.stream;
      }
      return true;
    }
  }

  function Order(last: nat, f: Frame): (nat, bool) {
    if last != 0 && (f.kind != CONTINUATION || f.stream != last) then (last, false)
    else if last == 0 && f.kind == CONTINUATION then (last, false)
    else (if f.kind == OTHER then last else if f.endHeaders then 0 else f.stream, true)
  }

  function Accepted(last: nat, fs: seq<Frame>): bool
    decreases |fs|
  {
    fs == [] || (Order(last, fs[0]).1 && Accepted(Order(last, fs[0]).0, fs[1..]))
  }

  function LastAfter(last: nat, fs: seq<Frame>): nat
    decreases |fs|
  {
    if fs == [] then last else LastAfter(Order(last, fs[0]).0, fs[1..])
  }

  // If a block of stream last is unfinished, f goes on with it; else f is no CONTINUATION.
  predicate Follows(last: nat, f: Frame) {
    if last != 0 then f.kind == CONTINUATION && f.stream == last else f.kind != CONTINUATION
  }

  // The stream whose block is unfinished before frame i.
  function Unfinished(fs: seq<Frame>, i: nat): nat
    requires i <= |fs|
  {
    if i > 0 && Leaves(fs[i - 1]) then fs[i - 1].stream else 0
  }

  // Between the first and the last frame of a block there is nothing else.
  ghost predicate Contiguous(fs: seq<Frame>) {
    forall i :: 0 <= i < |fs| ==> Follows(Unfinished(fs, i), fs[i])
  }

  lemma {:induction false} AcceptedIffAfter(last: nat, fs: seq<Frame>)
    ensures Accepted(last, fs) <==>
              (fs != [] ==> Follows(last, fs[0])) && forall i :: 1 <= i < |fs| ==> Follows(Unfinished(fs, i), fs[i])
    decreases |fs|
  {
    if fs != [] {
      var rest := fs[1..];
      var (next, ok) := Order(last, fs[0]);
      AcceptedIffAfter(next, rest);
      if ok {
        assert next == if Leaves(fs[0]) then fs[0].stream else 0;
        assert forall i :: 1 <= i < |rest| ==> rest[i] == fs[i + 1] && Unfinished(rest, i) == Unfinished(fs, i + 1);
        assert forall i :: 2 <= i < |fs| ==> fs[i] == rest[i - 1] && Unfinished(rest, i - 1) == Unfinished(fs, i);
        assert rest != [] ==> rest[0] == fs[1] && Unfinished(fs, 1) == next;
      }
    }
  }

  // checkFrameOrder accepts exactly the sequences of frames in which blocks are contiguous.
  lemma AcceptedIffContiguous(fs: seq<Frame>)
    ensures Accepted(0, fs) <==> Contiguous(fs)
  {
    AcceptedIffAfter(0, fs);
    assert fs != [] ==> Unfinished(fs, 0) == 0;
  }

  // A block is accepted, and is finished then.
  lemma {:induction false} BlockAccepted(fs: seq<Frame>, last: nat, stream: nat, k: nat)
    requires stream != 0 && last == (if k == 0 then 0 else stream)
    requires forall i :: 0 <= i < |fs| ==>
               && fs[i].stream == stream
               && fs[i].kind == (if i + k == 0 then HEADERS else CONTINUATION)
               && fs[i].endHeaders == (i == |fs| - 1)
    requires fs != [] || k == 0
    ensures Accepted(last, fs) && LastAfter(last, fs) == 0
    decreases |fs|
  {
    if fs != [] {
      var rest := fs[1..];
      assert forall i :: 0 <= i < |rest| ==> rest[i] == fs[i + 1];
      if rest != [] {
        BlockAccepted(rest, stream, stream, k + 1);
      }
    }
  }

  // ---------------------------------------------------------------- reading

  datatype BlockRead = BlockRead(fd: Feed, error: Option<Error>, rest: seq<Frame>, complete: bool)

  // readMetaFrame, without its limits: fragment after fragment, up to the end of the block.
  function ReadBlock(sh: Shared, fd: Feed, fs: seq<Frame>): BlockRead
    requires Huffman.Shaped(sh.code)
    decreases |fs|
  {
    if fs == [] then BlockRead(fd, None, [], false)
    else
      var (fd', err) := WriteChunk(sh, fd, fs[0].payload);
      if err.Some? then BlockRead(fd', err, fs[1..], false)
      else if fs[0].endHeaders then
        var (fd'', err') := Close(fd');
        BlockRead(fd'', err', fs[1..], true)
      else ReadBlock(sh, fd', fs[1..])
  }

  // The decoder gets the same from the frames of a block as from the whole block, and leaves
  // the frames after it alone.
  lemma {:induction false} ReadWhole(sh: Shared, fd: Feed, fs: seq<Frame>, post: seq<Frame>)
    requires Huffman.Shaped(sh.code) && fs != []
    requires forall i :: 0 <= i < |fs| ==> fs[i].endHeaders == (i == |fs| - 1)
    ensures var (fd', err) := WriteChunks(sh, fd, Payloads(fs));
            var r := ReadBlock(sh, fd, fs + post);
            if err.Some? then r.fd == fd' && r.error == err && !r.complete
            else r == BlockRead(Close(fd').0, Close(fd').1, post, true)
    decreases |fs|
  {
    hide WriteChunk, Close, Huffman.Shaped;
    var all := fs + post;
    assert all[0] == fs[0] && all[1..] == fs[1..] + post;
    assert Payloads(fs)[0] == fs[0].payload && Payloads(fs)[1..] == Payloads(fs[1..]);
    var (fd', err) := WriteChunk(sh, fd, fs[0].payload);
    if |fs| == 1 {
      assert fs[1..] + post == post;
    } else if err.None? {
      ReadWhole(sh, fd', fs[1..], post);
    }
  }

  // Fragmentation is invisible: whatever the frame size, the frames of a header block are
  // accepted in order, and give the decoder what the whole block would give it - unless a
  // fragment before the last leaves a rest that is too long for its string limit.
  lemma FragmentationInvisible(sh: Shared, fd: Feed, fs: seq<Frame>, post: seq<Frame>, stream: nat, endStream: bool, max: nat, block: Bytes)
    requires Huffman.Shaped(sh.code) && stream != 0 && block != []
    requires IsBlock(fs, stream, endStream, max, block)
    requires forall k :: 0 < k < |fs| ==> !Refuses(sh, fd, Payloads(fs), k)
    ensures fs != [] && Accepted(0, fs) && LastAfter(0, fs) == 0
    ensures var (fd', err) := WriteChunk(sh, fd, block);
            var r := ReadBlock(sh, fd, fs + post);
            if err.Some? then r.fd == fd' && r.error == err && !r.complete
            else r == BlockRead(Close(fd').0, Close(fd').1, post, true)
  {
    hide WriteChunk, WriteChunks, Close, Refuses, Huffman.Shaped, Accepted, ReadBlock;
    if fs == [] {
      NothingJoined(fs);
    }
    BlockAccepted(fs, 0, stream, 0);
    ReadWhole(sh, fd, fs, post);
    ChunkingInvisible(sh, fd, Payloads(fs));
  }

  // The first fragment that leaves a rest too long ends the block with an error.
  lemma FragmentRefused(sh: Shared, fd: Feed, fs: seq<Frame>, post: seq<Frame>, stream: nat, endStream: bool, max: nat, block: Bytes, k: nat)
    requires Huffman.Shaped(sh.code) && block != [] && IsBlock(fs, stream, endStream, max, block)
    requires 0 < k <= |fs| && Refuses(sh, fd, Payloads(fs), k)
    requires forall j :: 0 < j < k ==> !Refuses(sh, fd, Payloads(fs), j)
    ensures var r := ReadBlock(sh, fd, fs + post);
            (r.fd, r.error) == Refusal(sh, fd, Payloads(fs), k) && r.error == Some(StringTooLong) && !r.complete
  {
    hide WriteChunk, WriteChunks, Close, Refuses, Huffman.Shaped, Accepted, ReadBlock;
    ReadWhole(sh, fd, fs, post);
    ChunkRefused(sh, fd, Payloads(fs), k);
  }

  // What an encoder wrote is never refused: whatever the frame size, reading the frames of its
  // block emits the fields and leaves the tables in step, exactly if the size updates at the
  // head are taken; and the frames that follow are left alone.
  lemma EncodedBlockRead(sh: Shared, e: EncState, d: DecState, fields: seq<Field>,
                         fs: seq<Frame>, post: seq<Frame>, stream: nat, endStream: bool, max: nat)
    requires Ready(sh, e, d, fields) && fields != [] && Huffman.Shaped(sh.code) && d.maxStrLen <= MAX_LIMIT && stream != 0
    requires IsBlock(fs, stream, endStream, max, EncodeBlock(sh, e, fields).1)
    ensures Accepted(0, fs) && LastAfter(0, fs) == 0
    ensures var r := ReadBlock(sh, Feed(d, []), fs + post);
            && (r.error.None? <==> Accepts(d, e))
            && (Accepts(d, e) ==>
                  && r.complete && r.rest == post && r.fd.saved == []
                  && r.fd.st.emitted == Seen(d, fields) && r.fd.st.firstField && SameSettings(d, r.fd.st)
                  && Linked(EncodeBlock(sh, e, fields).0, r.fd.st.dyn))
            && (!Accepts(d, e) ==> r.fd.st.emitted == d.emitted)
  {
    hide EncodeBlock, DecodeAll, Linked, Ready, Accepts, Refuses, Huffman.Shaped, Accepted, ReadBlock, IsBlock, Seen, SameSettings;
    var block := EncodeBlock(sh, e, fields).1;
    BlockDecodes(sh, e, d, fields);
    assert [] + block == block;
    var chunks := Payloads(fs);
    BlockJoins(fs, stream, endStream, max, block);
    forall k | 0 < k < |fs|
      ensures !Refuses(sh, Feed(d, []), chunks, k)
    {
      NeverRefused(sh, e, d, fields, chunks, k);
    }
    FragmentationInvisible(sh, Feed(d, []), fs, post, stream, endStream, max, block);
    NotTooLong(d.maxStrLen);
    StSettings(d, DecodeAll(sh, d, block).st);
  }

  lemma BlockJoins(fs: seq<Frame>, stream: nat, endStream: bool, max: nat, block: Bytes)
    requires IsBlock(fs, stream, endStream, max, block)
    ensures Joined(Payloads(fs)) == block
  {
  }

  lemma NotTooLong(maxStrLen: nat)
    ensures !TooLong(maxStrLen, 0)
  {
  }

  lemma StSettings(d: DecState, d': DecState)
    ensures SameSettings(d, d') ==> SameSettings(d, d'.(firstField := true))
  {
  }

  lemma NothingJoined(fs: seq<Frame>)
    requires fs == []
    ensures Joined(Payloads(fs)) == []
  {
  }
}
