# An HTTP/2 stack, verified

A model in Dafny of the protocol core of the repository's HTTP/2 implementation: header
compression (RFC 7541), flow control, the three write schedulers, framing and header blocks,
body buffers, the life of streams on a server, and Punycode (RFC 3492).

`dafny verify dfyconfig.toml` checks all of it.

How the parts fit together:

- Where the source updates objects in place there is a class with the same fields, whose methods
  are proved against functions on values; the theorems are about these functions, and hold for
  every input, every reachable state or every run.
- **Header compression.** `huffman*.dfy` take the code from its literal tables over the decoding
  tree to a decoder that accepts exactly the coded strings. `varint.dfy`, `header_table.dfy` and
  `dynamic_table.dfy` are the pieces of the format, `hpack_format.dfy` is the format itself, and
  `hpack_encoder.dfy` and `hpack_decoder.dfy` implement it. `hpack_roundtrip.dfy`,
  `hpack_chunks.dfy`, `hpack_blocks.dfy` and `hpack_connection.dfy` lead to the main result: over a
  whole connection the decoder emits what the encoder was given, exactly if no table size update is
  refused. `header_transfer.dfy` takes it through frames and octets, and `hpack_safety.dfy` is
  about any other input.
- **Flow control.** `flow.dfy` has the windows with their 32-bit arithmetic, `flow_protocol.dfy`
  both ends with what is in flight between them, and `send_windows.dfy` the changes of the
  initial window size.
- **Write schedulers.** `write_queue.dfy` and `payload.dfy` cut DATA and conserve it;
  `rings.dfy`, `ring_table.dfy` and `ready_queues.dfy` are the linked rings. `round_robin*.dfy`
  and `rfc9218*.dfy` refine sequences, with theorems over all runs. `tree_shape.dfy` and
  `priority_tree.dfy` are the tree of RFC 7540 as a value and as linked nodes; `rfc7540*.dfy`
  keep it a tree through transient cycles.
- **Streams.** `header_blocks.dfy`, `frames.dfy`, `data_buffer.dfy`, `pipe.dfy`,
  `server_streams.dfy` with `server_conn.dfy`, and `handler_queue.dfy`.
- **Punycode.** `punycode.dfy` and `punycode_encode.dfy` show that decoding undoes encoding.
- `options.dfy`, `sequences.dfy`, `bits.dfy` and `ints.dfy` are shared.

Five places where the code does less than one might expect:

- The decoder refuses a second table size update in a block unless the table is empty
  (`internal/xnet/hpack/hpack.go:275` and `internal/xnet/hpack/hpack.go:414`), although the
  encoder writes two when the size was lowered and raised between blocks. Legal calls can
  therefore make a connection fail: `HpackConnection.LowerAndRaiseFails` is such a run, and
  `HpackConnection.TakenAtBlockStart` says exactly when it happens. `HpackConnection.CalmTaken` says
  what the caller can do to be safe.
- An encoder whose limit was lowered does not announce that size if the limit and the size are
  raised again before the next block (`internal/xnet/hpack/encode.go:130-136`), so that the
  decoder keeps entries that the encoder has dropped. Indexes still mean the same to both.
  `HpackConnection.LimitNotHeard` is an example, and `HpackConnection.ResizeAccord` says exactly
  when it happens.
- A decoder with a string limit refuses an unfinished field that looks too long
  (`internal/xnet/hpack/hpack.go:265-271`), so that what it accepts depends on how the input is cut:
  `HpackChunks.LateOctetRefused` is such an input, and `HpackChunks.ChunkingInvisible` and
  `HpackChunks.ChunkRefused` say exactly when. What an encoder writes is not affected
  (`HpackBlocks.NeverRefused`).
- Punycode decoding stops at 1024 code points while encoding does not
  (`internal/xnet/idna/punycode.go:82`); `PunycodeEncode.Encode` says exactly which texts
  survive, and `PunycodeEncode.LongTextLost` is one that does not.
- Bytes that a stream has sent do not move with it in the tree of RFC 7540
  (`internal/http2x/writesched_priority_rfc7540.go:114-119`), but are taken off its new ancestors
  when it closes. Their counts may become negative, and the comparison of siblings is then no
  order (`Rfc7540Walk.NegativeCounts`); for counts that are not negative
  `Rfc7540Walk.SortSiblings` sorts.

## Model

| member | source | states |
|---|---|---|
| `HuffmanTable.RfcTableWellFormed` | internal/xnet/hpack/tables.go:150-426 | the literal tables of 256 code words and lengths (RFC 7541, appendix B) form a prefix code: no word is a prefix of another, none looks like padding, padding leads somewhere in the tree, and all words have 5 to 30 bits |
| `HuffmanTree.BuildTree` | internal/xnet/hpack/huffman.go:138-167 | the tree built symbol by symbol, with its runs of leaf slots, is exactly the one the code words describe: a path leads to a leaf, an inner node or nothing just as the words say |
| `HuffmanTree.AddSymbol` | internal/xnet/hpack/huffman.go:146-166 | adding one symbol descends through shared inner nodes and fills all slots of its last octet, without touching those of other symbols |
| `Huffman.HuffmanEncodeLength` | internal/xnet/hpack/huffman.go:220-226 | the length announced is that of the coded string, and does not overflow |
| `Huffman.AppendHuffmanString` | internal/xnet/hpack/huffman.go:171-216 | the 64-bit shift buffer emits exactly the code words in order, filled up with ones to a whole octet, after what was there |
| `Huffman.HuffmanStringUnique` | internal/xnet/hpack/huffman.go:171-216 | only one octet string carries given code words and at most 7 ones as padding |
| `HuffmanDecode.DecodeExact` | internal/xnet/hpack/huffman.go:49-106 | without a limit, decoding yields s if and only if the bits are the code words of s followed by at most 7 ones (section 5.2 of RFC 7541) |
| `HuffmanDecode.DecodeOfEncode` | internal/xnet/hpack/huffman.go:49-106 | decoding undoes encoding, for every string, and fails exactly if a limit is exceeded |
| `HuffmanDecode.DecodeString` | internal/xnet/hpack/huffman.go:49-106 | the octet-wise decoder over the tree, with its bit counters, computes the bit-wise decoding, errors included |
| `HuffmanDecode.FollowOctets` | internal/xnet/hpack/huffman.go:56-78 | while whole octets are left, each step along the tree keeps what is decoded and what is unread in step with the bit-wise decoding |
| `HuffmanDecode.FinishBits` | internal/xnet/hpack/huffman.go:79-105 | the last bits give the last symbols, or are padding exactly if they are at most 7 ones |
| `Varint.AppendVarInt` | internal/xnet/hpack/encode.go:199-210 | the loop appends the integer representation of section 5.1 of RFC 7541 |
| `Varint.ReadVarIntLoop` | internal/xnet/hpack/hpack.go:441-472 | the loop reads an integer, or stops for more input or on overflow, at the same octet as the recursive definition |
| `Varint.VarIntRoundTrip` | internal/xnet/hpack/hpack.go:441-472 | an integer followed by anything reads back, and the rest is left alone, if and only if the part beyond the prefix is below 2^63; otherwise reading reports overflow |
| `Varint.FlagsIgnored` | internal/xnet/hpack/encode.go:145-150 | flags put into the first octet do not change what is read |
| `Varint.ReadVarIntMore` | internal/xnet/hpack/hpack.go:441-472 | a complete integer, or an overflow, stays what it is when more input follows |
| `HeaderTable.HeaderFieldTable.BuildMaps` | internal/xnet/hpack/tables.go:54-64 | the maps built on first use agree with the list |
| `HeaderTable.HeaderFieldTable.AddEntry` | internal/xnet/hpack/tables.go:72-79 | the newest entry is appended; maps that exist go on agreeing with the list |
| `HeaderTable.HeaderFieldTable.EvictOldest` | internal/xnet/hpack/tables.go:82-107 | the oldest n entries leave; only map entries that pointed at them are deleted |
| `HeaderTable.HeaderFieldTable.Search` | internal/xnet/hpack/tables.go:122-135 | the lookup in the lazily built maps returns what a linear scan of the list returns |
| `HeaderTable.HeaderFieldTable.IdToIndex` | internal/xnet/hpack/tables.go:139-148 | an entry id becomes the HPACK index counted from the newest entry, or from the first one for the static table |
| `HeaderTable.ScanMeaning` | internal/xnet/hpack/tables.go:109-135 | that scan finds the newest exact match of a field that is not sensitive, else the newest match of the name, else nothing |
| `DynamicTable.DynTable.SetMaxSize` | internal/xnet/hpack/hpack.go:167-170 | setMaxSize evicts from the oldest on until the size fits |
| `DynamicTable.DynTable.AddField` | internal/xnet/hpack/hpack.go:172-177 | add appends, counts the size modulo 2^32, and evicts |
| `DynamicTable.EvictIsLongest` | internal/xnet/hpack/hpack.go:179-186 | what eviction leaves is the longest suffix of the table that fits |
| `DynamicTable.AddSuffix` | internal/xnet/hpack/hpack.go:167-186 | if the encoder's table is a suffix of a decoder's table that is at least as large, it is one after both add the same field |
| `DynamicTable.SetMaxSuffix` | internal/xnet/hpack/hpack.go:167-170 | and after the decoder changes its size to one that the encoder's table fits in |
| `HpackEncoder.Encoder.Write` | internal/xnet/hpack/encode.go:49-81 | WriteField writes pending size updates and the field, and updates table and flags, as specified |
| `HpackEncoder.Encoder.SearchTable` | internal/xnet/hpack/encode.go:90-102 | an exact answer if and only if the field is not sensitive and in one of the tables, and 0 if and only if no entry has its name; the static table is searched first, and dynamic indexes come after the static ones |
| `HpackRoundTrip.LookupFinds` | internal/xnet/hpack/encode.go:83-102 | of several entries that match exactly, or by name if none does, the index is that of one in the static table if there is one, and of the newest in its table |
| `HpackRoundTrip.IndexedIfPresent` | internal/xnet/hpack/encode.go:61-64 | a field in either table that is not sensitive is written as that one index, and the table stays |
| `HpackRoundTrip.WrittenTwice` | internal/xnet/hpack/encode.go:61-75 | so is a field that fits into the dynamic table when it is written again; a field that is sensitive or does not fit leaves the table alone |
| `HpackEncoder.Encoder.SetMaxSize` | internal/xnet/hpack/encode.go:107-116 | the size is cut to the limit, the smallest size of the gap kept, and an update left pending |
| `HpackEncoder.Encoder.SetMaxSizeLimit` | internal/xnet/hpack/encode.go:130-136 | lowering the limit below the current size lowers that and leaves an update pending |
| `HpackEncoder.AppendIndexed` | internal/xnet/hpack/encode.go:145-150 | the representation of section 6.1 of RFC 7541, patched in place |
| `HpackEncoder.AppendNewName` | internal/xnet/hpack/encode.go:159-164 | the literal representations of section 6.2 with a new name |
| `HpackEncoder.AppendIndexedName` | internal/xnet/hpack/encode.go:172-183 | the literal representations of section 6.2 with an indexed name |
| `HpackEncoder.AppendHpackString` | internal/xnet/hpack/encode.go:217-229 | a string is Huffman coded exactly if that is shorter |
| `HpackDecoder.Decoder.Write` | internal/xnet/hpack/hpack.go:243-281 | Write parses all complete representations, keeps the unfinished rest, and stops at the first error, as specified |
| `HpackDecoder.Decoder.CloseBlock` | internal/xnet/hpack/hpack.go:234-241 | Close reports an unfinished block, drops the rest, and lets the next block start with size updates |
| `HpackDecoder.Decoder.ParseHeaderFieldRepr` | internal/xnet/hpack/hpack.go:303-334 | the first octet selects the representation, by its prefix |
| `HpackDecoder.Decoder.ParseDynamicTableSizeUpdate` | internal/xnet/hpack/hpack.go:411-429 | a size update is refused after a field, or a second time on a table that is not empty, and beyond the allowed size |
| `HpackRoundTrip.StringRoundTrip` | internal/xnet/hpack/hpack.go:478-522 | a string literal reads back, whichever coding was shorter |
| `HpackRoundTrip.StringShortest` | internal/xnet/hpack/encode.go:217-229 | the shorter of the two codings is sent, and marked |
| `HpackRoundTrip.FieldRoundTrip` | internal/xnet/hpack/encode.go:49-81 | one field decodes to itself - name, value and sensitivity - whichever representation was chosen, and both tables change in step; with emission off nothing is emitted and the tables stay in step all the same |
| `HpackRoundTrip.UpdatesRoundTrip` | internal/xnet/hpack/hpack.go:411-429 | pending size updates are taken exactly if they pass the decoder's guards, and bring it to the encoder's size |
| `HpackRoundTrip.WriteFieldRoundTrip` | internal/xnet/hpack/encode.go:49-81 | what WriteField writes is decoded to the same field exactly if the updates are taken, and else is refused without emitting anything; the encoder's table stays a suffix of the decoder's |
| `HpackChunks.ChunkingInvisible` | internal/xnet/hpack/hpack.go:243-281 | any way of cutting the input gives the same fields, table, rest and error as the whole, unless a chunk before the last leaves an unfinished rest longer than twice the string limit and 16 octets |
| `HpackChunks.NoLimitNoRefusal` | internal/xnet/hpack/hpack.go:265-271 | without a string limit no chunk is ever refused |
| `HpackChunks.ChunkRefused` | internal/xnet/hpack/hpack.go:265-271 | the first chunk that leaves such a rest is refused, with what was parsed up to it, whatever would have followed |
| `HpackChunks.ClosedIffWhole` | internal/xnet/hpack/hpack.go:234-241 | a block written without an error is closed with one if and only if it ends within a field, however it was cut; the rest is dropped |
| `HpackChunks.LateOctetRefused` | internal/xnet/hpack/hpack.go:265-271 | an input that depends on the cut: a field within the limit of 127 whose lengths take ten octets each is parsed whole, and refused if its last octet comes by itself |
| `HpackBlocks.NeverRefused` | internal/xnet/hpack/hpack.go:265-271 | no chunk of what an encoder wrote within the limit is refused, wherever its blocks are cut, for every limit up to 2^49+126 |
| `HpackBlocks.BlockDecodes` | internal/xnet/hpack/encode.go:49-136 | a whole block decodes to its fields, in any mixture of representations, if and only if the updates at its head are taken |
| `HpackChunks.DecodeAllMore` | internal/xnet/hpack/hpack.go:243-281 | what is parsed does not depend on input that follows |
| `HpackConnection.BlockRoundTrip` | internal/xnet/hpack/encode.go:49-136 | a header block, cut up anyhow, is decoded to exactly its fields if and only if the decoder takes the updates at its head |
| `HpackConnection.ConnectionRoundTrip` | internal/xnet/hpack/hpack.go:167-429 | over any run of blocks, size changes, limit changes and switches of emission there is no error if and only if no size update is refused; then the decoder has emitted exactly the fields sent while emission was on, and the encoder's table is a suffix of the decoder's; otherwise a prefix of these fields |
| `HpackConnection.TakenAtBlockStart` | internal/xnet/hpack/hpack.go:411-429 | the updates at the head of a block are taken if and only if none is pending, or the current size is allowed and the smallest size of the gap was the last one or emptied the table |
| `HpackConnection.CalmTaken` | internal/xnet/hpack/encode.go:107-136 | what can be told from the calls alone: if in each gap between blocks the last size set is the smallest, or one of them is 0, and the last is allowed, then no update is refused |
| `HpackConnection.CalmConnection` | internal/xnet/hpack/encode.go:107-136 | so a connection of new ends goes well then: no error, and exactly the fields sent |
| `HpackConnection.TablesAgree` | internal/xnet/hpack/encode.go:49-136 | after a run without an error both ends have the same dynamic table, entry by entry, or will have once the pending updates are heard (section 4.2 of RFC 7541), unless a size above the current one is set while a lowered limit is pending |
| `HpackConnection.ResizeAccord` | internal/xnet/hpack/encode.go:107-136 | at such a resize the ends agree on if and only if the decoder's table fits into the size that it does not hear of |
| `HpackConnection.LimitNotHeard` | internal/xnet/hpack/encode.go:130-136 | three legal calls after which they do not: the limit lowered, the limit raised, the size raised |
| `HpackConnection.CalmTablesAgree` | internal/xnet/hpack/encode.go:49-136 | new ends with the default size keep the same table under calm calls without such a resize |
| `HpackSafety.AnyInput` | internal/xnet/hpack/hpack.go:243-429 | whatever octets arrive, the decoder's table stays within the size its owner allows, no string above the limit is emitted, and what was emitted stays |
| `HpackSafety.IndexTaken` | internal/xnet/hpack/hpack.go:337-350 | an index is refused if and only if there is no such entry, and otherwise gives its name and value |
| `HpackConnection.ZeroEmpties` | internal/xnet/hpack/hpack.go:167-186 | a size of zero empties any table |
| `HpackConnection.NewConnectionRoundTrip` | internal/xnet/hpack/encode.go:35-45 | a new encoder and a decoder with at least the default size start such a run |
| `HpackConnection.LowerAndRaiseFails` | internal/xnet/hpack/hpack.go:411-429 | a run of legal calls that fails: lowering the size without emptying the table and raising it again makes the decoder refuse the next block |
| `HpackConnection.RfcConnectionFails` | internal/xnet/hpack/hpack.go:411-429 | and it does with the tables of RFC 7541 |
| `HpackConnection.RfcGood` | internal/xnet/hpack/static_table.go:6-188 | the static table of 61 entries and the Huffman table of RFC 7541 meet what the theorems ask of their tables |
| `Flow.Inflow.Add` | internal/http2x/flow.go:33-53 | 32-bit arithmetic included, bytes consumed are announced or withheld as specified |
| `Flow.Inflow.Take` | internal/http2x/flow.go:57-63 | a frame is accepted exactly if it fits the window |
| `Flow.TakeInflows` | internal/http2x/flow.go:68-75 | both windows pay, or neither |
| `Flow.RefundConserves` | internal/http2x/flow.go:33-53 | credit is never lost: what comes back is announced or withheld, and it is withheld if and only if it is little and the peer has more than that left |
| `Flow.GrowExact` | internal/http2x/flow.go:113-120 | comparing signs of the wrapped sum succeeds exactly if the true sum fits in 32 bits, and then gives it |
| `Flow.Outflow.Take` | internal/http2x/flow.go:101-110 | taking what is available reduces the window of the stream and of its connection |
| `Flow.Outflow.Add` | internal/http2x/flow.go:113-120 | the window grows exactly if the true sum fits, and else stays |
| `Flow.Outflow.TakeSome` | internal/http2x/transport.go:1650-1685 | one turn of waiting takes the least of the window, the bytes wanted and the frame size, if the window is open |
| `FlowProtocol.StepKeeps` | internal/http2x/transport.go:2287-2395 | no step of a conforming sender is rejected or overflows a window, whatever is discarded, padded, read, overrun, aborted or closed, and every step keeps the exact accounts of the connection and of every stream |
| `FlowProtocol.ConnectionFlow` | internal/http2x/transport.go:2195-2395 | in every reachable state the bytes granted, withheld, unread and lost to overruns make up the initial window; what is granted is the sender's window plus DATA and credit in flight; a sender out of credit with nothing in flight is not waiting for withheld credit (section 6.9 of RFC 7540); and nothing is lost without an overrun |
| `FlowProtocol.StreamFlow` | internal/http2x/transport.go:2195-2395 | the same for every stream and the window it was opened with: a sender with no window left on a stream that is read, and nothing in flight for it, waits for the whole window to be read; and a stream that is never overrun, cut short, closed or forgotten gets all its credit back |
| `FlowProtocol.StepForgoes` | internal/http2x/transport.go:2195-2395 | no credit is given for exactly the bytes read past the declared length or with the end of the body, in a body that is closed, or coming into one that takes no more |
| `FlowProtocol.RunKeeps` | internal/http2x/transport.go:2287-2395 | the same invariant over whole runs, from any state that has it |
| `SendWindows.ServerWindows.SetInitialWindowSize` | internal/http2x/server.go:1673-1699 | a new initial size moves all stream windows by the difference, possibly below zero; it fails if and only if a true sum exceeds 2^31-1 (section 6.9.2 of RFC 7540) |
| `SendWindows.ServerWindows.StreamUpdate` | internal/http2x/server.go:1508-1538 | an increment is refused if and only if the window would exceed 2^31-1; the window stays initial size plus increments minus DATA sent |
| `SendWindows.ServerWindows.ConnUpdate` | internal/http2x/server.go:1531-1535 | the same for the window of the connection, from 65535 |
| `SendWindows.ServerWindows.Send` | internal/http2x/flow.go:101-110 | DATA is charged to the stream and the connection, and all windows stay their balance |
| `SendWindows.ServerWindows.NewStream` | internal/http2x/server.go:2104-2105 | a new stream starts with the current initial size |
| `SendWindows.ChangeFits` | internal/http2x/server.go:1687-1699 | a change of the initial size can overflow a window but never underflow it |
| `WriteQueues.ConsumedFits` | internal/http2x/writesched.go:72-124 | a DATA frame cut off a write fits the stream's window, the connection's, the frame size and the caller's limit, and both windows drop by exactly its length |
| `WriteQueues.ConsumedMost` | internal/http2x/writesched.go:72-124 | as much goes as may: a part that is not all of the data uses up the stream's window, the connection's, the frame size or the caller's limit; nothing goes if and only if one of them is used up already |
| `WriteQueues.Windows.Consume` | internal/http2x/writesched.go:72-124 | Consume returns the longest part that may go now and the rest, and charges the windows for the part |
| `WriteQueues.WriteQueue.Shift` | internal/http2x/writesched.go:182-193 | the two-stage queue gives its first request |
| `WriteQueues.WriteQueue.Consume` | internal/http2x/writesched.go:209-223 | the first request goes whole or in part, or nothing changes |
| `Payload.TakeConserves` | internal/http2x/writesched.go:209-223 | taking the first request keeps what was sent plus what is queued equal to what was asked for, octet by octet |
| `Payload.TakePartConserves` | internal/http2x/writesched.go:92-118 | so does taking a part of it: END_STREAM and the reply stay with the last part |
| `Payload.BytesConserved` | internal/http2x/writesched.go:72-124 | the DATA octets sent, then those queued, are those asked for, in order |
| `Rings.LinkLast` | internal/http2x/writesched_roundrobin.go:51-58 | inserting before the head puts the queue at the end of the ring |
| `Rings.Unlink` | internal/http2x/writesched_roundrobin.go:70-71 | unlinking leaves a ring of the others, in order |
| `RingTables.RingTable.Insert` | internal/http2x/writesched_priority_rfc9218.go:74-86 | one of the rings grows by a queue at its end, the others stay |
| `RingTables.RingTable.Delete` | internal/http2x/writesched_priority_rfc9218.go:95-104 | one of the rings loses a queue; if it was the head the next one is |
| `RingTables.RingTable.SetHead` | internal/http2x/writesched_priority_rfc9218.go:199-214 | the ring is entered elsewhere, its order stays |
| `ReadyQueues.ServeFirst` | internal/http2x/writesched_roundrobin.go:109-120 | going once round the ring serves the first queue that can be, and changes nothing if there is none |
| `Rfc9218.Scheduler.OpenStream` | internal/http2x/writesched_priority_rfc9218.go:60-87 | a stream opens at the end of the ring of its priority, where an update buffered for it wins |
| `Rfc9218.Scheduler.CloseStream` | internal/http2x/writesched_priority_rfc9218.go:89-107 | a stream leaves its ring; its queue is emptied and kept for reuse |
| `Rfc9218.Scheduler.AdjustStream` | internal/http2x/writesched_priority_rfc9218.go:109-150 | a stream moves to the end of its new ring; for one that is not open the update is buffered |
| `Rfc9218.Scheduler.Push` | internal/http2x/writesched_priority_rfc9218.go:152-169 | a request is queued with its stream, or with the control frames |
| `Rfc9218.Scheduler.Pop` | internal/http2x/writesched_priority_rfc9218.go:171-226 | over the linked rings Pop does what it does on the sequences they stand for |
| `Rfc9218Spec.PopServesMostUrgent` | internal/http2x/writesched_priority_rfc9218.go:185-225 | with no control frame waiting, Pop fails if and only if no stream can be served, and otherwise serves the first that can be in a ring of the lowest urgency that has one |
| `Rfc9218Spec.FlagDecides` | internal/http2x/writesched_priority_rfc9218.go:185-192 | in any two states that find both classes of the lowest urgency ready and differ in the preference, different classes are served |
| `Rfc9218Runs.PopsAlternate` | internal/http2x/writesched_priority_rfc9218.go:177-192 | of two successive Pops that serve streams, with any calls but such Pops in between, that each find both classes of the same lowest urgency ready, one returns a request of an incremental stream of that urgency and the other one of a non-incremental stream |
| `Rfc9218Runs.FlagStep` | internal/http2x/writesched_priority_rfc9218.go:172-183 | only a Pop that finds no control frame turns the preference for a class |
| `Rfc9218Runs.RunKeeps` | internal/http2x/writesched_priority_rfc9218.go:60-226 | over any legal calls the 16 rings stay disjoint and hold every open stream exactly once, in the ring of its recorded priority; unused queues are empty; nothing queued is lost |
| `Rfc9218Runs.OpenStreamConserves` | internal/http2x/writesched_priority_rfc9218.go:152-226 | from its opening on, what is popped for a stream followed by what is queued is what was pushed: the same octets, END_STREAM, frames and replies in the same order |
| `Rfc9218Runs.RunHistory` | internal/http2x/writesched_priority_rfc9218.go:152-226 | the history the invariant speaks of is what was pushed and popped |
| `Rfc9218Runs.PoppedFits` | internal/http2x/writesched.go:81-123 | a DATA frame popped for a stream fits both windows and the frame size, and takes just its length from both |
| `Rfc9218Runs.PoppedMost` | internal/http2x/writesched_priority_rfc9218.go:171-226 | with no control frame waiting Pop fails if and only if every open stream has an empty queue or a limit used up; otherwise as much of the first frame of a stream goes as may |
| `Rfc9218Runs.BoundedBypass` | internal/http2x/writesched_priority_rfc9218.go:197-204 | among incremental streams of one urgency, one that stays ready is passed over at most as often as there were streams before it, whatever opens, closes or moves |
| `Rfc9218Runs.NonIncrementalGoesOn` | internal/http2x/writesched_priority_rfc9218.go:204-214 | a non-incremental stream that was served is served again as long as it can be |
| `RoundRobin.Scheduler.OpenStream` | internal/http2x/writesched_roundrobin.go:41-59 | a stream opens at the end of the ring |
| `RoundRobin.Scheduler.CloseStream` | internal/http2x/writesched_roundrobin.go:61-78 | a stream leaves the ring; its queue is emptied and kept for reuse |
| `RoundRobin.Scheduler.Push` | internal/http2x/writesched_roundrobin.go:82-99 | a request is queued with its stream, or with the control frames |
| `RoundRobin.Scheduler.Pop` | internal/http2x/writesched_roundrobin.go:101-121 | over the linked ring Pop does what it does on the rotating sequence it stands for |
| `RoundRobinSpec.RunKeeps` | internal/http2x/writesched_roundrobin.go:41-121 | over any legal calls the ring holds every open stream exactly once |
| `RoundRobinSpec.BoundedBypass` | internal/http2x/writesched_roundrobin.go:41-121 | a stream that stays ready is passed over at most as often as there were streams before it in the ring, under any opens and closes, so it is served within as many Pops as the ring is long |
| `RoundRobinSpec.RunConserves` | internal/http2x/writesched_roundrobin.go:82-121 | while a stream is open, what is popped for it followed by what is queued is what was queued and pushed, in order |
| `RoundRobinSpec.PoppedFits` | internal/http2x/writesched.go:81-123 | a DATA frame popped for a stream fits both windows and the frame size, and takes just its length from both |
| `RoundRobinSpec.PoppedMost` | internal/http2x/writesched_roundrobin.go:101-121 | with no control frame waiting Pop fails if and only if every open stream has an empty queue or a limit used up; otherwise as much of the first frame of a stream goes as may |
| `PriorityTree.SetParent` | internal/http2x/writesched_priority_rfc7540.go:79-112 | the links of parents, first children and siblings change consistently: n leaves one list of children and becomes the first of another, even if that makes a cycle |
| `TreeShapes.ReprioritisedTree` | internal/http2x/writesched_priority_rfc7540.go:321-350 | after a reprioritisation every node still reaches the root; the node's parent is the dependency, its only child if exclusive; every other parent is determined (section 5.3.3 of RFC 7540) |
| `TreeShapes.FirstMoveRooted` | internal/http2x/writesched_priority_rfc7540.go:321-333 | a dependency below the node is first moved to the node's parent; then it is not below the node |
| `TreeShapes.MovedRooted` | internal/http2x/writesched_priority_rfc7540.go:335-349 | taking over siblings that may be above the node makes a cycle that moving the node itself undoes |
| `TreeShapes.GatheredParents` | internal/http2x/writesched_priority_rfc7540.go:338-347 | exactly the other children of the dependency become children of the node |
| `Rfc7540.SplicedOk` | internal/http2x/writesched_priority_rfc7540.go:414-420 | a node taken out leaves its children to its parent, and the rest a tree |
| `Rfc7540Scheduler.Scheduler.OpenStream` | internal/http2x/writesched_priority_rfc7540.go:227-256 | an idle node opens where it is; a new one goes under the pushing stream, or the root; all nodes reach the root |
| `Rfc7540Scheduler.Scheduler.CloseStream` | internal/http2x/writesched_priority_rfc7540.go:258-280 | the closed nodes kept in the tree are the most recently closed, in order, and the oldest leaves list, map and tree if there are too many; the tree and the lists stay consistent |
| `Rfc7540Scheduler.Scheduler.AdjustStream` | internal/http2x/writesched_priority_rfc7540.go:282-351 | unknown streams get an idle node if their number is new; on a known dependency the node ends up below it, alone if exclusive; on an unknown one below the root with the default weight; all nodes reach the root |
| `Rfc7540Scheduler.Scheduler.Reprioritise` | internal/http2x/writesched_priority_rfc7540.go:321-349 | the walk up the parents and the loop over siblings do the moves of section 5.3.3 |
| `Rfc7540Scheduler.Scheduler.IsAbove` | internal/http2x/writesched_priority_rfc7540.go:328-333 | following parents finds the node if and only if it is above the dependency |
| `Rfc7540Scheduler.Scheduler.Gather` | internal/http2x/writesched_priority_rfc7540.go:338-347 | the loop over a list of siblings that it changes moves each of them once |
| `Rfc7540Scheduler.Scheduler.RemoveNode` | internal/http2x/writesched_priority_rfc7540.go:414-420 | the children move up one by one, the node is unlinked, and all links stay consistent |
| `Rfc7540Scheduler.Scheduler.AddClosedOrIdleNode` | internal/http2x/writesched_priority_rfc7540.go:400-412 | the list becomes the last nodes of itself and the new one; if it was full its first node leaves the tree and the map |
| `Rfc7540Scheduler.MostRecentStay` | internal/http2x/writesched_priority_rfc7540.go:400-412 | however many nodes are added in turn, the list holds the most recent ones in order, and nodes leave it in the order in which they came |
| `Rfc7540Scheduler.Scheduler.AddBytes` | internal/http2x/writesched_priority_rfc7540.go:114-119 | bytes are counted for the node and for exactly those above it |
| `Rfc7540Walk.Walk` | internal/http2x/writesched_priority_rfc7540.go:127-178 | for any function that tells which nodes can be served, given whether an open stream is above: the search finds one such that none above it can be, and none below a sibling before it or before a node above it; or none in the subtree can; children of different weight are sorted before they are searched |
| `Rfc7540Walk.Resort` | internal/http2x/writesched_priority_rfc7540.go:161-171 | the same children are put back in sorted order |
| `Rfc7540Walk.SortSiblings` | internal/http2x/writesched_priority_rfc7540.go:178-193 | the subtree that has sent the fewest bytes for its weight comes first, if no count is negative |
| `Rfc7540Walk.BeforeTrans` | internal/http2x/writesched_priority_rfc7540.go:182-193 | the comparison of siblings is then transitive |
| `Rfc7540Walk.NegativeCounts` | internal/http2x/writesched_priority_rfc7540.go:182-193 | and with negative counts it is not |
| `Rfc7540Walk.SearchTree` | internal/http2x/writesched_priority_rfc7540.go:373-397 | the search from the root fails if and only if no node of the tree can be served, finds the first in the order of siblings, and keeps the tree but for that order |
| `Rfc7540Pop.Pop` | internal/http2x/writesched_priority_rfc7540.go:373-397 | over the queues of the nodes: the first request of the node found goes, or as much of it as windows and throttle let, its bytes are counted for it and the nodes above, and the throttle moves; nothing changes if no queue has anything to give |
| `Rfc7540Pop.PoppedMost` | internal/http2x/writesched_priority_rfc7540.go:373-397 | what goes is all of the first request or uses up a window, the frame size or, below an open stream, the throttle; if nothing goes, every queue in the tree is empty or has one of them used up |
| `Rfc7540Pop.ThrottleOpens` | internal/http2x/writesched_priority_rfc7540.go:387-391 | the throttle opens by steps up to the greatest limit, 32-bit overflow included |
| `Punycode.Adapt` | internal/xnet/idna/punycode.go:207-220 | the bias is the one of RFC 3492, section 6.1, and below 216 |
| `Punycode.ScaleBound` | internal/xnet/idna/punycode.go:207-220 | the bound on the bias, for every delta of 32 bits |
| `Punycode.MAdd` | internal/xnet/idna/punycode.go:176-182 | the sum and its overflow flag are right: the result is exact exactly if it fits in 32 bits |
| `Punycode.DecodeLoop` | internal/xnet/idna/punycode.go:34-98 | the loops with their 32-bit arithmetic compute the decoding specified, errors included |
| `PunycodeEncode.ReadDigits` | internal/xnet/idna/punycode.go:54-81 | a variable-length integer with at most 32 bits reads back, whatever the bias below 216, and its weights do not overflow |
| `PunycodeEncode.Pass` | internal/xnet/idna/punycode.go:138-168 | one pass over the text emits the deltas of one code point, each of which the decoder turns into one insertion at the right place |
| `PunycodeEncode.Encode` | internal/xnet/idna/punycode.go:105-173 | texts of up to 1926 code points are encoded without a 32-bit overflow; decoding what was encoded gives the text back if and only if it has at most 1024 code points or is all basic |
| `PunycodeEncode.LongTextLost` | internal/xnet/idna/punycode.go:82-84 | a text that is encoded and does not decode: 1024 times an a, and U+0080 |
| `DataBuffers.DataBuffer.Write` | internal/http2x/databuffer.go:118-133 | Write appends all of p, whatever the chunks |
| `DataBuffers.DataBuffer.Read` | internal/http2x/databuffer.go:80-103 | Read gives the oldest octets, as many as fit, and leaves the others |
| `DataBuffers.DataBuffer.LastChunkOrAlloc` | internal/http2x/databuffer.go:135-146 | there is room in the last chunk, a new one if the old one is full; the contents stay |
| `DataBuffers.WasteBounded` | internal/http2x/databuffer.go:13-21 | less than two of the largest chunks are allocated beyond the octets buffered |
| `Pipes.PipeRun` | internal/http2x/pipe.go:35-145 | a byte FIFO over any calls: what is read is a prefix of what was written, the length is what is missing, the error of Close comes after all octets and that of Break at once, and the hook of the first Close runs with the first failure of the former kind and not again |
| `Pipes.ErrorsStay` | internal/http2x/pipe.go:122-145 | the first error of either kind is the one that stays |
| `Pipes.Pipe.Read` | internal/http2x/pipe.go:55-78 | one turn of Read over the buffer does what is specified |
| `Pipes.Pipe.Write` | internal/http2x/pipe.go:87-104 | Write fails on a closed pipe or one without a buffer, and else appends |
| `Pipes.Pipe.CloseWithError` | internal/http2x/pipe.go:122-145 | closing keeps the first error and its hook |
| `Pipes.Pipe.BreakWithError` | internal/http2x/pipe.go:122-145 | breaking drops the buffer and counts what it held |
| `HeaderBlocks.WriteHeaderBlock` | internal/http2x/transport.go:1432-1455 | the frames of a block concatenate to it; one HEADERS comes first, END_HEADERS is on the last, and each is full but the last |
| `HeaderBlocks.Framer.CheckFrameOrder` | internal/http2x/frame.go:591-624 | the check and its state are as specified |
| `HeaderBlocks.AcceptedIffContiguous` | internal/http2x/frame.go:591-624 | a sequence of frames is accepted if and only if nothing comes between the frames of a block and no CONTINUATION is elsewhere |
| `HeaderBlocks.FragmentationInvisible` | internal/http2x/frame.go:1760-1812 | whatever the frame size, the frames of a header block are accepted in order and give the decoder the same fields, table and error as the whole block, unless a fragment before the last leaves a rest too long for the string limit |
| `HeaderBlocks.FragmentRefused` | internal/http2x/frame.go:1760-1812 | the first fragment that does ends the block with an error |
| `HeaderBlocks.EncodedBlockRead` | internal/http2x/frame.go:1707-1812 | what an encoder wrote is never refused so: at a decoder with any string limit, the frames of its block give exactly the fields, if and only if the size updates are taken |
| `HeaderTransfer.HeadersArrive` | internal/http2x/transport.go:1432-1455 | all the way: fields through the encoder, frames of any size, octets, the frame reader and the decoder come out as they went in, if and only if the size updates at their head are taken |
| `HeaderBlocks.ReadWhole` | internal/http2x/frame.go:1760-1812 | reading the fragments of a block consumes these frames and no others |
| `Frames.ParseBack` | internal/http2x/frame.go:647-1551 | for every type of frame the parser undoes the writer; padding leaves no trace; SETTINGS are refused exactly if their first initial window size is too large |
| `Frames.ParsedIsWritable` | internal/http2x/frame.go:647-1551 | the parser takes only what the writer could write, apart from a promise of stream 0: fixed lengths, stream numbers and increments are checked |
| `Frames.PaddingSent` | internal/http2x/frame.go:714-754 | all of the padding is sent, as zeros, with its length in front |
| `Frames.ReadBack` | internal/http2x/frame.go:249-261 | the header and payload of a frame read back, with whatever follows left alone |
| `Frames.FrameStreamRoundTrip` | internal/http2x/frame.go:511-554 | frames within the size limit read back as the same sequence if and only if header blocks are contiguous, and else up to where they are not |
| `Frames.SettingsBack` | internal/http2x/frame.go:766-888 | the settings of a frame read back in order |
| `Frames.HeadersBack` | internal/http2x/frame.go:1070-1182 | HEADERS read back with any combination of padding and priority |
| `Frames.PushPromiseBack` | internal/http2x/frame.go:1460-1551 | PUSH_PROMISE reads back with or without padding |
| `Frames.Writer.WriteDataPadded` | internal/http2x/frame.go:714-754 | DATA as specified, or nothing if the stream or the padding is not valid or the frame too large |
| `Frames.Writer.WriteHeaders` | internal/http2x/frame.go:1147-1182 | HEADERS as specified, with flags for what is there, or nothing |
| `Frames.Writer.WritePushPromise` | internal/http2x/frame.go:1529-1551 | PUSH_PROMISE as specified, or nothing |
| `Frames.Writer.WriteSettings` | internal/http2x/frame.go:878-885 | SETTINGS as specified, setting by setting |
| `Frames.Writer.Write` | internal/http2x/frame.go:701-1559 | any of the Write methods writes the frame specified, if and only if its checks pass and the frame is not too large, and else nothing |
| `Frames.Writer.EndWrite` | internal/http2x/frame.go:371-391 | the length is filled in, and the frame written if it is not too large |
| `ServerStreams.Lifecycle` | internal/http2x/server.go:553-575 | over whole runs no stream moves backwards, closed streams stay closed and their numbers are not used again, the counts are those of the odd and even streams, clients stay within the limit, and a half-closed (local) stream is about to be reset and never becomes half-closed (remote) |
| `ServerStreams.StepKeeps` | internal/http2x/server.go:1372-1415 | every turn of the serve loop keeps this |
| `ServerStreams.RunKeeps` | internal/http2x/server.go:1372-1415 | and so does every run, from any state that has it |
| `ServerConns.ServerConn.Serve` | internal/http2x/server.go:1372-1415 | the serve loop does, on its fields, the steps the theorems are about |
| `ServerConns.ServerConn.GetState` | internal/http2x/server.go:553-575 | the state of a stream that is not known follows from the highest numbers used |
| `ServerConns.ServerConn.ProcessHeaders` | internal/http2x/server.go:1864-1993 | a new stream comes from an idle one, if and only if it is within the limit; trailers end an open one; an error of the connection before that changes nothing; no stream moves backwards, and others stay as they are |
| `ServerConns.ServerConn.ProcessTrailerHeaders` | internal/http2x/server.go:2019-2047 | trailers are an error of the connection if and only if there were some; if all is well they end the stream |
| `ServerConns.ServerConn.ProcessData` | internal/http2x/server.go:1701-1796 | good DATA on an open stream is accepted and ends it with END_STREAM; DATA for a stream that never was is an error of the connection; all else is an error of the stream, unless one is being sent |
| `ServerStreams.DataAnswer` | internal/http2x/server.go:1701-1796 | the answer to DATA in terms of the stream before it, and what becomes of the stream, in all cases |
| `ServerStreams.HeadersAnswer` | internal/http2x/server.go:1864-1993 | the answer to HEADERS in terms of the state of the stream and the limit, and what becomes of the stream, in all cases |
| `ServerStreams.RequestArrives` | internal/http2x/server.go:1701-1993 | over whole runs: a stream within the limit goes from idle through its body to half-closed (remote) without a reset, whatever happens on other streams meanwhile |
| `ServerStreams.PromiseAnswer` | internal/http2x/server.go:3068-3113 | a stream is promised if and only if the client takes one more and a number is left |
| `ServerStreams.WroteAnswer` | internal/http2x/server.go:1199-1249 | the end of a response closes a stream that has ended on the other side, and resets one that has not |
| `ServerConns.ServerConn.ProcessResetStream` | internal/http2x/server.go:1540-1557 | RST_STREAM leaves no stream of that number, and is an error if and only if it is idle |
| `ServerConns.ServerConn.WroteEnd` | internal/http2x/server.go:1199-1249 | after the end of a response the stream is gone, or half-closed (local) with a reset queued |
| `ServerConns.ServerConn.CloseStream` | internal/http2x/server.go:1559-1575 | a stream leaves the map and the count of its kind |
| `ServerConns.ServerConn.AllocatePromisedID` | internal/http2x/server.go:3068-3113 | a promised stream has the next even number, below 2^31, and stays within the client's limit; nothing changes if and only if there is none |
| `HandlerQueues.QueueRun` | internal/http2x/server.go:2251-2293 | over whole runs handlers wait only while the limit is reached, at most 4 times the limit plus one of them; all others have started in the order of their arrival, but for some whose stream is gone; and what starts when a handler is done is live |
| `HandlerQueues.Sorted` | internal/http2x/server.go:2271-2293 | going through the queue starts and keeps entries in order and drops no others than those without a stream |
| `HandlerQueues.HandlerQueue.ScheduleHandler` | internal/http2x/server.go:2251-2269 | a handler starts, waits, or is one too many |
| `HandlerQueues.HandlerQueue.HandlerDone` | internal/http2x/server.go:2271-2293 | the loop starts and drops what the definition says, and leaves the rest; only live streams start, and what is left must wait |

## Left out

- The application layer, TLS, the connection pool, header name tables, IDNA mapping and structured
  field parsing.
- Goroutines, locks, timers, channels, logging and tracing: each region under a lock, and each turn
  of the serve loop, is one step.
- Errors of the underlying reader and writer. Whatever is written is written completely, and a
  short read means that more input is needed.
- Allocation pools (`sync.Pool`) for buffers: memory is new.
- The generated map literals beside the static table (`internal/xnet/hpack/static_table.go`); its
  61 entries are modelled, and their maps are built like those of the dynamic table.
- The wrap-around of the 64-bit eviction counter of the header table, and lengths from 2^59 on, where
  a bit count overflows 64 bits.
- ConnectionRoundTrip: cuts blocks only for a decoder whose string limit is at most 2^49+126, beyond
  which a length may take more octets than the guard allows for; whole blocks are covered. Emission
  is switched between blocks; within a block WriteFieldRoundTrip covers it field by field.
- NewConnectionRoundTrip: takes a decoder of at least 4096 octets, the size the encoder starts with.
- EncodedBlockRead: does not model the limit on the size of the header list and the checks of
  field names in `readMetaFrame`, which may end a block early.
- Peers that break the protocol on the client's receiving side: DATA for a HEAD request, before the
  headers, or after END_STREAM.
- ConnectionFlow: counts bytes that a reader takes past a declared Content-Length as lost, as the
  source returns no credit for them.
- Exact credit on the server after `closeStream`, which returns credit for bytes that the handler
  can still read, so that it may be returned twice.
- Windows.Consume: keeps all windows of a connection in one object instead of one per stream that
  shares the connection's; Outflow in Flow has that form.
- What pushing, closing and reuse do to the queues of the RFC 7540 scheduler: closing a stream there
  keeps a copy of its queue whose backing array is also given to the pool. Pop in Rfc7540Pop takes
  the contents of the queues as they are.
- Walk: takes whether a node can be served as a function; Pop in Rfc7540Pop gives the one of the source.
- SearchTree: likewise.
- SortSiblings: compares exact quotients instead of floating-point ones, and sorts by
  insertion, whatever the library does; nothing but the permutation is claimed for negative counts.
- Byte counts of subtrees as sums over the tree: moving a node does not move its bytes.
- Nodes of open streams that were idle before may be dropped from the tree with the oldest idle
  nodes, so that not every open stream has a node.
- Calls that the schedulers answer with a panic are preconditions: opening a stream twice, DATA for a
  stream that is not open, closing or adjusting stream 0.
- Encode: works on code points, not on UTF-8 octets, and on texts of fewer than 2^31 code points; it
  does not say which texts of more than 1926 code points overflow.
- The channel of a pipe that is closed when the pipe is, and waiting in Read.
- QueueRun: has no wrap-around of 4 times the limit of streams, which stays below 2^30.
- Lifecycle: takes the checks of header and trailer fields, content length, flow control and priority
  as outcomes given with the event, leaves out the upgrade from HTTP/1.1 and GOAWAY, and takes a
  handler's panic only for a stream that is still known; whether `startFrameWrite` and `closeStream`
  can panic there is not claimed.
- WriteRawFrame for the types of the package: such frames are written by their own methods here.
- FrameStreamRoundTrip: leaves out the RFC 9218 fields of a priority, which are not written but make
  `WriteHeaders` set the priority flag, and the reuse of frame objects.
