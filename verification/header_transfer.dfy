/** A list of header fields, all the way from the encoder over frames and octets to the decoder. */
module HeaderTransfer {
  import opened Options
  import opened Bits
  import opened HeaderTable
  import opened HpackFormat
  import opened HpackRoundTrip
  import opened HpackChunks
  import opened HpackBlocks
  import opened Frames
  import HeaderBlocks
  import Huffman

  // A frame of a block as it is written, without padding or priority.
  function ToItem(f: HeaderBlocks.Frame): Item {
    Item(if f.kind == HeaderBlocks.HEADERS then HeadersFrame(f.stream, f.endStream, f.endHeaders, NO_PRIORITY, f.payload)
         else Continuation(f.stream, f.endHeaders, f.payload),
         None)
  }

  function ToItems(fs: seq<HeaderBlocks.Frame>): (items: seq<Item>)
    ensures |items| == |fs|
  {
    seq(|fs|, k requires 0 <= k < |fs| => ToItem(fs[k]))
  }

  // What the reader of header blocks takes from a frame that was read.
  function FromFrame(f: Frame): HeaderBlocks.Frame {
    match f
    case HeadersFrame(id, end, endHeaders, _, fragment) => HeaderBlocks.Frame(HeaderBlocks.HEADERS, id, end, endHeaders, fragment)
    case Continuation(id, endHeaders, fragment) => HeaderBlocks.Frame(HeaderBlocks.CONTINUATION, id, false, endHeaders, fragment)
    case _ => HeaderBlocks.Frame(HeaderBlocks.OTHER, 0, false, false, [])
  }

  function FromFrames(fs: seq<Frame>): (r: seq<HeaderBlocks.Frame>)
    ensures |r| == |fs|
  {
    seq(|fs|, k requires 0 <= k < |fs| => FromFrame(fs[k]))
  }

  // A frame of a block comes back as it was.
  lemma FrameBack(f: HeaderBlocks.Frame, stream: nat, maxSize: nat)
    requires f.kind != HeaderBlocks.OTHER && f.stream == stream && ValidStream(stream)
    requires f.kind == HeaderBlocks.CONTINUATION ==> !f.endStream
    requires |f.payload| <= maxSize <= MAX_FRAME
    ensures WithinLimit(ToItem(f), maxSize) && Acceptable(ToItem(f).f) && FromFrame(ToItem(f).f) == f
    ensures var k := Outline(WireOf(ToItem(f).f, None));
            k.kind == f.kind && k.stream == f.stream && k.endHeaders == f.endHeaders
  {
    HeadersFlags(f.endStream, f.endHeaders, false, false);
    HeadersFlags(false, f.endHeaders, false, false);
    assert PadLength(None, false) == [] && PadBytes(None) == [];
    if f.kind == HeaderBlocks.HEADERS {
      assert [] + [] + f.payload + [] == f.payload;
    }
  }

  // The order of frames depends on their kind, stream and END_HEADERS flag only.
  lemma {:induction false} SameOrder(last: nat, a: seq<HeaderBlocks.Frame>, b: seq<HeaderBlocks.Frame>)
    requires |a| == |b|
    requires forall k :: 0 <= k < |a| ==> a[k].kind == b[k].kind && a[k].stream == b[k].stream && a[k].endHeaders == b[k].endHeaders
    ensures HeaderBlocks.Accepted(last, a) == HeaderBlocks.Accepted(last, b)
    decreases |a|
  {
    if a != [] {
      SameOrder(HeaderBlocks.Order(last, a[0]).0, a[1..], b[1..]);
    }
  }

  lemma {:induction false} KindsOf(items: seq<Item>, k: nat)
    requires k < |items| && forall i :: 0 <= i < |items| ==> Writable(items[i].f, items[i].pad)
    ensures Outlines(items)[k] == Outline(WireOf(items[k].f, items[k].pad))
  {
    hide Writable, WireOf, Outline;
    if k > 0 {
      KindsOf(items[1..], k - 1);
    }
  }

  // The frames of a block, written and read.
  lemma FramesBack(fs: seq<HeaderBlocks.Frame>, stream: nat, endStream: bool, max: nat, maxSize: nat, block: Bytes)
    requires HeaderBlocks.IsBlock(fs, stream, endStream, max, block) && ValidStream(stream) && max <= maxSize <= MAX_FRAME
    ensures forall k :: 0 <= k < |fs| ==> WithinLimit(ToItems(fs)[k], MAX_FRAME)
    ensures var (read, end) := ReadAll(maxSize, 0, WriteAll(ToItems(fs)));
            end == ReadResult.More && FromFrames(read) == fs
  {
    hide WithinLimit, Writable, Acceptable, WireOf, Outline, ReadAll, WriteAll, Outlines, HeaderBlocks.Accepted;
    var items := ToItems(fs);
    forall k | 0 <= k < |fs|
      ensures WithinLimit(items[k], maxSize) && Acceptable(items[k].f) && FromFrame(items[k].f) == fs[k]
    {
      FrameBack(fs[k], stream, maxSize);
    }
    WithinMore(items, maxSize);
    forall k | 0 <= k < |fs|
      ensures Outlines(items)[k].kind == fs[k].kind && Outlines(items)[k].stream == fs[k].stream
      ensures Outlines(items)[k].endHeaders == fs[k].endHeaders
    {
      FrameBack(fs[k], stream, maxSize);
      KindsOf(items, k);
    }
    SameOrder(0, Outlines(items), fs);
    HeaderBlocks.BlockAccepted(fs, 0, stream, 0);
    StreamBack(maxSize, 0, items);
    assert FromFrames(FramesOf(items)) == fs;
  }

  // Whatever the frame size: the fields given to the encoder, written as frames and read back
  // from the octets, come out of the decoder, exactly if it takes the size updates at their
  // head; and the two ends are in step again.
  lemma HeadersArrive(sh: Shared, e: EncState, d: DecState, fields: seq<Field>,
                      fs: seq<HeaderBlocks.Frame>, stream: nat, endStream: bool, max: nat, maxSize: nat)
    requires Ready(sh, e, d, fields) && fields != [] && Huffman.Shaped(sh.code) && d.maxStrLen <= MAX_LIMIT
    requires HeaderBlocks.IsBlock(fs, stream, endStream, max, EncodeBlock(sh, e, fields).1)
    requires ValidStream(stream) && max <= maxSize <= MAX_FRAME
    ensures forall k :: 0 <= k < |fs| ==> WithinLimit(ToItems(fs)[k], MAX_FRAME)
    ensures var (read, end) := ReadAll(maxSize, 0, WriteAll(ToItems(fs)));
            var r := HeaderBlocks.ReadBlock(sh, Feed(d, []), FromFrames(read));
            && end == ReadResult.More
            && (r.error.None? <==> Accepts(d, e))
            && (Accepts(d, e) ==>
                  && r.complete && r.rest == [] && r.fd.st.emitted == Seen(d, fields)
                  && Linked(EncodeBlock(sh, e, fields).0, r.fd.st.dyn))
  {
    hide EncodeBlock, Linked, Ready, Accepts, Huffman.Shaped, HeaderBlocks.ReadBlock, HeaderBlocks.IsBlock, Seen,
         ReadAll, WriteAll, WithinLimit, ToItems, FromFrames, HeaderBlocks.Accepted;
    FramesBack(fs, stream, endStream, max, maxSize, EncodeBlock(sh, e, fields).1);
    HeaderBlocks.EncodedBlockRead(sh, e, d, fields, fs, [], stream, endStream, max);
    assert fs + [] == fs;
  }
}
