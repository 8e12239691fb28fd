/** HTTP/2 frames as octets (sections 4.1 and 6 of RFC 7540), written and read back. */
module Frames {
  import opened Options
  import opened Bits
  import HeaderBlocks

  const MAX_31: nat := 0x7fff_ffff
  const MAX_32: nat := 0xffff_ffff
  const MAX_FRAME: nat := 0xff_ffff
  const INITIAL_WINDOW_SIZE: nat := 4

  datatype Priority = Priority(dep: nat, exclusive: bool, weight: Byte)

  datatype Setting = Setting(id: nat, val: nat)

  datatype Frame =
    | DataFrame(stream: nat, endStream: bool, data: Bytes)
    | HeadersFrame(stream: nat, endStream: bool, endHeaders: bool, priority: Priority, fragment: Bytes)
    | PriorityFrame(stream: nat, priority: Priority)
    | RstStream(stream: nat, code: nat)
    | Settings(settings: seq<Setting>)
    | SettingsAck
    | PushPromise(stream: nat, promise: nat, endHeaders: bool, fragment: Bytes)
    | Ping(ack: bool, opaqueData: Bytes)
    | GoAway(last: nat, code: nat, debug: Bytes)
    | WindowUpdate(stream: nat, increment: nat)
    | Continuation(stream: nat, endHeaders: bool, fragment: Bytes)
    | PriorityUpdate(prioritized: nat, text: Bytes)
    | Unknown(kind: Byte, flags: Byte, stream: nat, payload: Bytes)

  const NO_PRIORITY: Priority := Priority(0, false, 0)

  // ---------------------------------------------------------------- numbers

  function U16(n: nat): (b: Bytes)
    requires n < 0x1_0000
    ensures |b| == 2
  {
    [n / 0x100, n % 0x100]
  }

  function U32(n: nat): (b: Bytes)
    requires n <= MAX_32
    ensures |b| == 4
  {
    [n / 0x100_0000, n / 0x1_0000 % 0x100, n / 0x100 % 0x100, n % 0x100]
  }

  function FromU16(b: Bytes): (n: nat)
    requires |b| >= 2
    ensures n < 0x1_0000
  {
    (b[0] as int) * 0x100 + b[1]
  }

  function FromU32(b: Bytes): (n: nat)
    requires |b| >= 4
    ensures n <= MAX_32
  {
    (b[0] as int) * 0x100_0000 + (b[1] as int) * 0x1_0000 + (b[2] as int) * 0x100 + b[3]
  }

  lemma U32Back(n: nat, rest: Bytes)
    requires n <= MAX_32
    ensures FromU32(U32(n) + rest) == n
  {
    U32Sum(n);
    var b := U32(n) + rest;
    assert b[0] == U32(n)[0] && b[1] == U32(n)[1] && b[2] == U32(n)[2] && b[3] == U32(n)[3];
  }

  lemma U32Sum(n: nat)
    ensures n / 0x100_0000 * 0x100_0000 + n / 0x1_0000 % 0x100 * 0x1_0000 + n / 0x100 % 0x100 * 0x100 + n % 0x100 == n
  {
    assert n / 0x100 * 0x100 + n % 0x100 == n;
    assert n / 0x1_0000 * 0x100 + n / 0x100 % 0x100 == n / 0x100;
    assert n / 0x100_0000 * 0x100 + n / 0x1_0000 % 0x100 == n / 0x1_0000;
  }

  lemma U16Back(n: nat, rest: Bytes)
    requires n < 0x1_0000
    ensures FromU16(U16(n) + rest) == n
  {
  }

  // ---------------------------------------------------------------- flags

  function Bit(b: bool, value: nat): nat {
    if b then value else 0
  }

  predicate Has(flags: Byte, bit: nat)
    requires bit > 0
  {
    flags / bit % 2 == 1
  }

  // A stream number with the reserved bit in front.
  function WithBit(b: bool, n: nat): (v: nat)
    requires n <= MAX_31
    ensures v <= MAX_32
  {
    n + Bit(b, 0x8000_0000)
  }

  function Low31(v: nat): (n: nat)
    ensures n <= MAX_31
  {
    v % 0x8000_0000
  }

  // ---------------------------------------------------------------- writing

  // The type, flags, stream and payload that are written.
  datatype Wire = Wire(kind: Byte, flags: Byte, stream: nat, payload: Bytes)

  function Zeros(n: nat): (z: Bytes)
    ensures |z| == n
  {
    seq(n, _ => 0)
  }

  // padding is nil, or some zeros. PadLength zero of HEADERS means no padding.
  function PadLength(pad: Option<nat>, always: bool): Bytes
    requires pad.Some? ==> pad.value < 256
  {
    if pad.None? || (!always && pad.value == 0) then [] else [pad.value]
  }

  function PadBytes(pad: Option<nat>): Bytes {
    if pad.None? then [] else Zeros(pad.value)
  }

  function PriorityBytes(p: Priority): (b: Bytes)
    requires p.dep <= MAX_31
    ensures |b| == 5
  {
    U32(WithBit(p.exclusive, p.dep)) + [p.weight]
  }

  function SettingsBytes(ss: seq<Setting>): (b: Bytes)
    requires forall i :: 0 <= i < |ss| ==> ss[i].id < 0x1_0000 && ss[i].val <= MAX_32
    ensures |b| == 6 * |ss|
  {
    if ss == [] then [] else U16(ss[0].id) + U32(ss[0].val) + SettingsBytes(ss[1..])
  }

  predicate ValidStream(id: nat) {
    0 < id <= MAX_31
  }

  // What the types of Go and the checks of the writer allow. Whoever writes SETTINGS must see
  // to the range of the window size.
  predicate Writable(f: Frame, pad: Option<nat>) {
    && (pad.Some? ==> pad.value < 256)
    && match f
       case DataFrame(id, _, _) => ValidStream(id)
       case HeadersFrame(id, _, _, p, _) => ValidStream(id) && p.dep <= MAX_31
       case PriorityFrame(id, p) => ValidStream(id) && p.dep <= MAX_31
       case RstStream(id, code) => ValidStream(id) && code <= MAX_32
       case Settings(ss) => forall i :: 0 <= i < |ss| ==> ss[i].id < 0x1_0000 && ss[i].val <= MAX_32
       case SettingsAck => true
       case PushPromise(id, promise, _, _) => ValidStream(id) && ValidStream(promise)
       case Ping(_, data) => |data| == 8
       case GoAway(last, code, _) => last <= MAX_31 && code <= MAX_32
       case WindowUpdate(id, inc) => id <= MAX_31 && 0 < inc <= MAX_31
       case Continuation(id, _, _) => ValidStream(id)
       case PriorityUpdate(id, _) => ValidStream(id)
       case Unknown(kind, _, id, _) => id <= MAX_31 && kind > 9 && kind != 16
  }

  function WireOf(f: Frame, pad: Option<nat>): Wire
    requires Writable(f, pad)
  {
    match f
    case DataFrame(id, end, data) =>
      Wire(0, Bit(end, 1) + Bit(pad.Some?, 8), id, PadLength(pad, true) + data + PadBytes(pad))
    case HeadersFrame(id, end, endHeaders, p, fragment) =>
      var length := PadLength(pad, false);
      Wire(1, Bit(end, 1) + Bit(endHeaders, 4) + Bit(length != [], 8) + Bit(p != NO_PRIORITY, 32), id,
           length + (if p != NO_PRIORITY then PriorityBytes(p) else []) + fragment + PadBytes(pad))
    case PriorityFrame(id, p) => Wire(2, 0, id, PriorityBytes(p))
    case RstStream(id, code) => Wire(3, 0, id, U32(code))
    case Settings(ss) => Wire(4, 0, 0, SettingsBytes(ss))
    case SettingsAck => Wire(4, 1, 0, [])
    case PushPromise(id, promise, endHeaders, fragment) =>
      var length := PadLength(pad, false);
      Wire(5, Bit(endHeaders, 4) + Bit(length != [], 8), id, length + U32(promise) + fragment + PadBytes(pad))
    case Ping(ack, data) => Wire(6, Bit(ack, 1), 0, data)
    case GoAway(last, code, debug) => Wire(7, 0, 0, U32(last) + U32(code) + debug)
    case WindowUpdate(id, inc) => Wire(8, 0, id, U32(inc))
    case Continuation(id, endHeaders, fragment) => Wire(9, Bit(endHeaders, 4), id, fragment)
    case PriorityUpdate(id, text) => Wire(16, 0, 0, U32(id) + text)
    case Unknown(kind, flags, id, payload) => Wire(kind, flags, id, payload)
  }

  // The nine octets of the header, and the payload.
  function Octets(w: Wire): Bytes
    requires |w.payload| <= MAX_FRAME && w.stream <= MAX_32
  {
    var n := |w.payload|;
    [n / 0x1_0000, n / 0x100 % 0x100, n % 0x100, w.kind, w.flags] + U32(w.stream) + w.payload
  }

  // ---------------------------------------------------------------- reading

  datatype Parsed = Good(f: Frame) | BadFrame

  // The payload without what padding says, or nothing if it says too much.
  function Unpadded(length: nat, p: Bytes): Option<Bytes> {
    if length > |p| then None else Some(p[..|p| - length])
  }

  function ParsePriority(p: Bytes): Priority
    requires |p| >= 5
  {
    var v := FromU32(p);
    Priority(Low31(v), v != Low31(v), p[4])
  }

  function ParseData(w: Wire): Parsed {
    if w.stream == 0 then BadFrame
    else if Has(w.flags, 8) && w.payload == [] then BadFrame
    else
      var (length, p) := if Has(w.flags, 8) then (w.payload[0], w.payload[1..]) else (0, w.payload);
      match Unpadded(length, p)
      case None => BadFrame
      case Some(data) => Good(DataFrame(w.stream, Has(w.flags, 1), data))
  }

  function ParseHeaders(w: Wire): Parsed {
    if w.stream == 0 then BadFrame
    else if Has(w.flags, 8) && w.payload == [] then BadFrame
    else
      var (length, p) := if Has(w.flags, 8) then (w.payload[0], w.payload[1..]) else (0, w.payload);
      if Has(w.flags, 32) && |p| < 5 then BadFrame
      else
        var (priority, q) := if Has(w.flags, 32) then (ParsePriority(p), p[5..]) else (NO_PRIORITY, p);
        match Unpadded(length, q)
        case None => BadFrame
        case Some(fragment) => Good(HeadersFrame(w.stream, Has(w.flags, 1), Has(w.flags, 4), priority, fragment))
  }

  function ParsePushPromise(w: Wire): Parsed {
    if w.stream == 0 then BadFrame
    else if Has(w.flags, 8) && w.payload == [] then BadFrame
    else
      var (length, p) := if Has(w.flags, 8) then (w.payload[0], w.payload[1..]) else (0, w.payload);
      if |p| < 4 then BadFrame
      else
        match Unpadded(length, p[4..])
        case None => BadFrame
        case Some(fragment) => Good(PushPromise(w.stream, Low31(FromU32(p)), Has(w.flags, 4), fragment))
  }

  function SettingsOf(p: Bytes): seq<Setting>
    requires |p| % 6 == 0
  {
    if p == [] then [] else [Setting(FromU16(p), FromU32(p[2..]))] + SettingsOf(p[6..])
  }

  // The first value of a setting.
  function ValueOf(ss: seq<Setting>, id: nat): Option<nat> {
    if ss == [] then None else if ss[0].id == id then Some(ss[0].val) else ValueOf(ss[1..], id)
  }

  predicate WindowOk(ss: seq<Setting>) {
    match ValueOf(ss, INITIAL_WINDOW_SIZE) case None => true case Some(v) => v <= MAX_31
  }

  function ParseSettings(w: Wire): Parsed {
    if Has(w.flags, 1) && |w.payload| > 0 then BadFrame
    else if w.stream != 0 then BadFrame
    else if |w.payload| % 6 != 0 then BadFrame
    else if !WindowOk(SettingsOf(w.payload)) then BadFrame
    else if Has(w.flags, 1) then Good(SettingsAck)
    else Good(Settings(SettingsOf(w.payload)))
  }

  function Parse(w: Wire): Parsed {
    var p := w.payload;
    match w.kind
    case 0 => ParseData(w)
    case 1 => ParseHeaders(w)
    case 2 => if w.stream == 0 || |p| != 5 then BadFrame else Good(PriorityFrame(w.stream, ParsePriority(p)))
    case 3 => if |p| != 4 || w.stream == 0 then BadFrame else Good(RstStream(w.stream, FromU32(p)))
    case 4 => ParseSettings(w)
    case 5 => ParsePushPromise(w)
    case 6 => if |p| != 8 || w.stream != 0 then BadFrame else Good(Ping(Has(w.flags, 1), p))
    case 7 =>
      if w.stream != 0 || |p| < 8 then BadFrame
      else Good(GoAway(Low31(FromU32(p)), FromU32(p[4..]), p[8..]))
    case 8 => if |p| != 4 || Low31(FromU32(p)) == 0 then BadFrame else Good(WindowUpdate(w.stream, Low31(FromU32(p))))
    case 9 => if w.stream == 0 then BadFrame else Good(Continuation(w.stream, Has(w.flags, 4), p))
    case 16 =>
      if w.stream != 0 || |p| < 4 || Low31(FromU32(p)) == 0 then BadFrame
      else Good(PriorityUpdate(Low31(FromU32(p)), p[4..]))
    case _ => Good(Unknown(w.kind, w.flags, w.stream, p))
  }

  datatype ReadResult = Got(f: Frame, last: nat, rest: Bytes) | More | TooLarge | BadOrder | Bad

  // What checkFrameOrder sees of a frame.
  function Outline(w: Wire): HeaderBlocks.Frame {
    HeaderBlocks.Frame(if w.kind == 1 then HeaderBlocks.HEADERS else if w.kind == 9 then HeaderBlocks.CONTINUATION else HeaderBlocks.OTHER,
                       w.stream, false, Has(w.flags, 4), [])
  }

  function FrameLength(b: Bytes): nat
    requires |b| >= 3
  {
    (b[0] as int) * 0x1_0000 + (b[1] as int) * 0x100 + b[2]
  }

  // ReadFrame, with limit maxSize, when the block of stream last is unfinished.
  function ReadFrame(maxSize: nat, last: nat, b: Bytes): (r: ReadResult)
    ensures r.Got? ==> |r.rest| < |b|
  {
    if |b| < 9 then More
    else
      var n := FrameLength(b);
      if n > maxSize then TooLarge
      else
        var w := Wire(b[3], b[4], Low31(FromU32(b[5..])), if |b| < 9 + n then [] else b[9..9 + n]);
        var (last', ok) := HeaderBlocks.Order(last, Outline(w));
        if !ok then BadOrder
        else if |b| < 9 + n then More
        else match Parse(w)
          case BadFrame => Bad
          case Good(f) => Got(f, last', b[9 + n..])
  }

  // ---------------------------------------------------------------- one frame

  lemma UnpaddedBack(a: Bytes, n: nat)
    ensures Unpadded(n, a + Zeros(n)) == Some(a)
  {
    assert (a + Zeros(n))[..|a|] == a;
  }

  lemma PriorityBack(p: Priority, rest: Bytes)
    requires p.dep <= MAX_31
    ensures ParsePriority(PriorityBytes(p) + rest) == p && (PriorityBytes(p) + rest)[5..] == rest
  {
    hide U32, FromU32, WithBit, Low31;
    var v := WithBit(p.exclusive, p.dep);
    BitBack(p.exclusive, p.dep);
    U32Back(v, [p.weight] + rest);
    var b := PriorityBytes(p) + rest;
    assert b == U32(v) + ([p.weight] + rest);
    assert b[4] == p.weight && b[5..] == rest;
  }

  lemma BitBack(b: bool, n: nat)
    requires n <= MAX_31
    ensures Low31(WithBit(b, n)) == n && (WithBit(b, n) != n <==> b)
  {
  }

  lemma {:induction false} SettingsBack(ss: seq<Setting>)
    requires forall i :: 0 <= i < |ss| ==> ss[i].id < 0x1_0000 && ss[i].val <= MAX_32
    ensures SettingsOf(SettingsBytes(ss)) == ss
  {
    hide FromU16, FromU32, U16, U32;
    if ss != [] {
      var rest := SettingsBytes(ss[1..]);
      SettingsBack(ss[1..]);
      U16Back(ss[0].id, U32(ss[0].val) + rest);
      U32Back(ss[0].val, rest);
      var b := SettingsBytes(ss);
      assert b == U16(ss[0].id) + (U32(ss[0].val) + rest);
      assert b[2..] == U32(ss[0].val) + rest;
      assert b[6..] == rest;
    }
  }

  lemma DataBack(f: Frame, pad: Option<nat>)
    requires f.DataFrame? && Writable(f, pad)
    ensures Parse(WireOf(f, pad)) == Good(f)
  {
    hide Unpadded, Zeros, Has, Bit;
    var w := WireOf(f, pad);
    var n := if pad.Some? then pad.value else 0;
    HeadersFlags(f.endStream, false, pad.Some?, false);
    NoBits();
    NoneIsNoZeros(f.data);
    var tail := f.data + Zeros(n);
    assert pad.Some? ==> w.payload == [n] + tail && w.payload[1..] == tail;
    assert pad.None? ==> w.payload == tail;
    UnpaddedBack(f.data, n);
  }

  lemma NoBits()
    ensures Bit(false, 1) == 0 && Bit(false, 4) == 0 && Bit(false, 32) == 0
  {
  }

  lemma NoneIsNoZeros(a: Bytes)
    ensures a + Zeros(0) == a
  {
    assert Zeros(0) == [];
  }

  lemma HeadersBack(f: Frame, pad: Option<nat>)
    requires f.HeadersFrame? && Writable(f, pad)
    ensures Parse(WireOf(f, pad)) == Good(f)
  {
    hide PriorityBytes, ParsePriority, Unpadded, Zeros, Has, Bit;
    var w := WireOf(f, pad);
    var padded := PadLength(pad, false) != [];
    var n := if padded then pad.value else 0;
    HeadersFlags(f.endStream, f.endHeaders, padded, f.priority != NO_PRIORITY);
    NoZeros(pad);
    var tail := f.fragment + Zeros(n);
    var prio := if f.priority != NO_PRIORITY then PriorityBytes(f.priority) else [];
    assert w.payload == PadLength(pad, false) + (prio + tail);
    assert padded ==> w.payload[0] == n && w.payload[1..] == prio + tail;
    assert !padded ==> w.payload == prio + tail;
    if f.priority != NO_PRIORITY {
      PriorityBack(f.priority, tail);
    } else {
      assert prio + tail == tail;
    }
    UnpaddedBack(f.fragment, n);
  }

  // The flags that a frame may carry do not get in each other's way.
  lemma HeadersFlags(a: bool, b: bool, c: bool, d: bool)
    ensures var flags := Bit(a, 1) + Bit(b, 4) + Bit(c, 8) + Bit(d, 32);
            && flags < 256 && (Has(flags, 1) <==> a) && (Has(flags, 4) <==> b)
            && (Has(flags, 8) <==> c) && (Has(flags, 32) <==> d)
  {
  }

  lemma NoZeros(pad: Option<nat>)
    requires pad.Some? ==> pad.value < 256
    ensures PadLength(pad, false) == [] ==> PadBytes(pad) == Zeros(0) == []
    ensures PadLength(pad, false) != [] ==> pad.Some? && PadLength(pad, false) == [pad.value] && PadBytes(pad) == Zeros(pad.value)
  {
  }

  lemma PushPromiseBack(f: Frame, pad: Option<nat>)
    requires f.PushPromise? && Writable(f, pad)
    ensures Parse(WireOf(f, pad)) == Good(f)
  {
    hide U32, FromU32, Unpadded, Zeros, Has, Bit;
    NoBits();
    var w := WireOf(f, pad);
    var padded := PadLength(pad, false) != [];
    var n := if padded then pad.value else 0;
    HeadersFlags(false, f.endHeaders, padded, false);
    NoZeros(pad);
    var tail := f.fragment + Zeros(n);
    assert w.payload == PadLength(pad, false) + (U32(f.promise) + tail);
    assert padded ==> w.payload[0] == n && w.payload[1..] == U32(f.promise) + tail;
    assert !padded ==> w.payload == U32(f.promise) + tail;
    U32Back(f.promise, tail);
    assert (U32(f.promise) + tail)[4..] == tail;
    UnpaddedBack(f.fragment, n);
  }

  lemma NumbersBack(f: Frame, pad: Option<nat>)
    requires Writable(f, pad) && (f.RstStream? || f.GoAway? || f.WindowUpdate? || f.PriorityUpdate? || f.PriorityFrame?)
    ensures Parse(WireOf(f, pad)) == Good(f)
  {
    hide U32, FromU32, PriorityBytes, ParsePriority;
    match f
    case RstStream(_, code) =>
      U32Back(code, []);
      assert U32(code) + [] == U32(code);
    case WindowUpdate(_, inc) =>
      U32Back(inc, []);
      assert U32(inc) + [] == U32(inc);
    case PriorityUpdate(id, text) =>
      U32Back(id, text);
      assert (U32(id) + text)[4..] == text;
    case PriorityFrame(_, p) =>
      PriorityBack(p, []);
      assert PriorityBytes(p) + [] == PriorityBytes(p);
    case GoAway(last, code, debug) =>
      var b := U32(last) + (U32(code) + debug);
      U32Back(last, U32(code) + debug);
      U32Back(code, debug);
      assert WireOf(f, pad).payload == b && b[4..] == U32(code) + debug && b[8..] == debug;
  }

  // What the peer would refuse although it can be written.
  predicate Acceptable(f: Frame) {
    f.Settings? ==> WindowOk(f.settings)
  }

  // Parsing undoes writing; padding and a priority of zero leave no trace.
  lemma ParseBack(f: Frame, pad: Option<nat>)
    requires Writable(f, pad)
    ensures Parse(WireOf(f, pad)) == if Acceptable(f) then Good(f) else BadFrame
  {
    match f
    case DataFrame(_, _, _) => DataBack(f, pad);
    case HeadersFrame(_, _, _, _, _) => HeadersBack(f, pad);
    case PushPromise(_, _, _, _) => PushPromiseBack(f, pad);
    case Settings(ss) => SettingsBack(ss);
    case SettingsAck =>
    case Ping(_, _) =>
    case Continuation(_, _, _) =>
    case Unknown(_, _, _, _) =>
    case _ => NumbersBack(f, pad);
  }

  // All of the padding is sent, as zeros behind the content. HEADERS and PUSH_PROMISE are not
  // padded by no octets.
  lemma PaddingSent(f: Frame, pad: Option<nat>)
    requires Writable(f, pad) && (f.DataFrame? || f.HeadersFrame? || f.PushPromise?)
    ensures var padded := pad.Some? && (f.DataFrame? || pad.value > 0);
            var n := if padded then pad.value else 0;
            var p, plain := WireOf(f, pad).payload, WireOf(f, None).payload;
            && |p| == |plain| + n + (if padded then 1 else 0)
            && p == (if padded then [n] else []) + plain + Zeros(n)
  {
    hide Has, PriorityBytes, U32;
    NoZeros(pad);
    NoneIsNoZeros(WireOf(f, None).payload);
  }

  // Only what can be written is read, apart from a promise of stream 0; what the reader took the
  // frame from, and what would be written for it, read alike. Without padding both have the
  // same length.
  lemma ParsedIsWritable(w: Wire)
    requires Parse(w).Good? && w.stream <= MAX_31
    ensures var f := Parse(w).f;
            && (Writable(f, None) <==> !(f.PushPromise? && f.promise == 0))
            && Acceptable(f)
            && (Writable(f, None) ==> Parse(WireOf(f, None)) == Parse(w) && SameShape(w, WireOf(f, None)))
  {
    hide *;
    var f := Parse(w).f;
    if w.kind == 0 || w.kind == 1 || w.kind == 5 {
      PaddedSound(w);
    } else if w.kind == 4 {
      SettingsSound(w);
    } else {
      PlainSound(w);
    }
    if Writable(f, None) {
      ParseBack(f, None);
    }
  }

  // The same kind and stream; and no more payload.
  predicate SameShape(w: Wire, v: Wire) {
    && v.kind == w.kind && v.stream == w.stream && |v.payload| <= |w.payload|
    && (w.kind !in {0, 1, 5} ==> |v.payload| == |w.payload|)
  }

  lemma PaddedSound(w: Wire)
    requires Parse(w).Good? && w.stream <= MAX_31 && (w.kind == 0 || w.kind == 1 || w.kind == 5)
    ensures var f := Parse(w).f;
            && (Writable(f, None) <==> !(f.PushPromise? && f.promise == 0)) && Acceptable(f)
            && (Writable(f, None) ==> SameShape(w, WireOf(f, None)))
  {
    hide Has, FromU32, Zeros, SettingsOf, SettingsBytes, ParseSettings;
  }

  lemma PlainSound(w: Wire)
    requires Parse(w).Good? && w.stream <= MAX_31 && w.kind != 0 && w.kind != 1 && w.kind != 4 && w.kind != 5
    ensures var f := Parse(w).f;
            Writable(f, None) && !f.PushPromise? && Acceptable(f) && SameShape(w, WireOf(f, None))
  {
    hide Has, FromU32, Zeros, SettingsOf, SettingsBytes, ParseSettings;
  }

  lemma SettingsSound(w: Wire)
    requires Parse(w).Good? && w.kind == 4
    ensures var f := Parse(w).f;
            Writable(f, None) && !f.PushPromise? && Acceptable(f) && SameShape(w, WireOf(f, None))
  {
    hide Has, SettingsBytes, SettingsOf, WindowOk;
    SettingsInRange(w.payload);
  }

  lemma {:induction false} SettingsInRange(p: Bytes)
    requires |p| % 6 == 0
    ensures var ss := SettingsOf(p);
            6 * |ss| == |p| && forall i :: 0 <= i < |ss| ==> ss[i].id < 0x1_0000 && ss[i].val <= MAX_32
    decreases |p|
  {
    hide FromU16, FromU32;
    if p != [] {
      SettingsInRange(p[6..]);
    }
  }

  // ---------------------------------------------------------------- sequences of frames

  // A frame to write, and its padding.
  datatype Item = Item(f: Frame, pad: Option<nat>)

  predicate WithinLimit(i: Item, maxSize: nat) {
    Writable(i.f, i.pad) && |WireOf(i.f, i.pad).payload| <= maxSize && maxSize <= MAX_FRAME
  }

  lemma ReadBack(maxSize: nat, last: nat, i: Item, rest: Bytes)
    requires WithinLimit(i, maxSize)
    ensures var w := WireOf(i.f, i.pad);
            var (last', ok) := HeaderBlocks.Order(last, Outline(w));
            && w.stream <= MAX_31
            && ReadFrame(maxSize, last, Octets(w) + rest)
               == if !ok then BadOrder else if Acceptable(i.f) then Got(i.f, last', rest) else Bad
  {
    var w := WireOf(i.f, i.pad);
    ParseBack(i.f, i.pad);
    StreamBound(i.f, i.pad);
    OctetsBack(w, rest);
    hide WireOf, Parse, Octets, Writable, FromU32, FrameLength;
  }

  lemma StreamBound(f: Frame, pad: Option<nat>)
    requires Writable(f, pad)
    ensures WireOf(f, pad).stream <= MAX_31
  {
  }

  lemma OctetsBack(w: Wire, rest: Bytes)
    requires |w.payload| <= MAX_FRAME && w.stream <= MAX_31
    ensures var b := Octets(w) + rest;
            && |b| >= 9 + |w.payload| && FrameLength(b) == |w.payload| && b[3] == w.kind && b[4] == w.flags
            && Low31(FromU32(b[5..])) == w.stream
            && b[9..9 + |w.payload|] == w.payload && b[9 + |w.payload|..] == rest
  {
    hide U32, FromU32;
    var b := Octets(w) + rest;
    U32Back(w.stream, w.payload + rest);
    assert b[5..] == U32(w.stream) + (w.payload + rest);
  }

  function WriteAll(items: seq<Item>): Bytes
    requires forall k :: 0 <= k < |items| ==> WithinLimit(items[k], MAX_FRAME)
  {
    if items == [] then []
    else
      assert WithinLimit(items[0], MAX_FRAME);
      StreamBound(items[0].f, items[0].pad);
      Octets(WireOf(items[0].f, items[0].pad)) + WriteAll(items[1..])
  }

  // Frame after frame, to the end of the input or the first error.
  function ReadAll(maxSize: nat, last: nat, b: Bytes): (seq<Frame>, ReadResult)
    decreases |b|
  {
    match ReadFrame(maxSize, last, b)
    case Got(f, last', rest) =>
      var (fs, end) := ReadAll(maxSize, last', rest);
      ([f] + fs, end)
    case r => ([], r)
  }

  function FramesOf(items: seq<Item>): (fs: seq<Frame>)
    ensures |fs| == |items|
  {
    seq(|items|, k requires 0 <= k < |items| => items[k].f)
  }

  function Outlines(items: seq<Item>): (ks: seq<HeaderBlocks.Frame>)
    requires forall k :: 0 <= k < |items| ==> Writable(items[k].f, items[k].pad)
    ensures |ks| == |items|
  {
    if items == [] then [] else [Outline(WireOf(items[0].f, items[0].pad))] + Outlines(items[1..])
  }

  lemma {:induction false} StreamBack(maxSize: nat, last: nat, items: seq<Item>)
    requires maxSize <= MAX_FRAME
    requires forall k :: 0 <= k < |items| ==> WithinLimit(items[k], maxSize) && Acceptable(items[k].f)
    ensures (forall k :: 0 <= k < |items| ==> WithinLimit(items[k], MAX_FRAME))
    ensures var (fs, end) := ReadAll(maxSize, last, WriteAll(items));
            if HeaderBlocks.Accepted(last, Outlines(items)) then fs == FramesOf(items) && end == ReadResult.More
            else fs < FramesOf(items) && end == BadOrder
    decreases |items|
  {
    hide WithinLimit, Writable, Acceptable, WireOf, Octets, Outline, HeaderBlocks.Order, ReadFrame;
    WithinMore(items, maxSize);
    if items != [] {
      var rest := items[1..];
      var w := WireOf(items[0].f, items[0].pad);
      ReadBack(maxSize, last, items[0], WriteAll(rest));
      var (last', ok) := HeaderBlocks.Order(last, Outline(w));
      assert FramesOf(items) == [items[0].f] + FramesOf(rest);
      if ok {
        StreamBack(maxSize, last', rest);
      }
    } else {
      EmptyInput(maxSize, last);
    }
  }

  lemma EmptyInput(maxSize: nat, last: nat)
    ensures ReadFrame(maxSize, last, []) == More
  {
  }

  lemma WithinMore(items: seq<Item>, maxSize: nat)
    requires maxSize <= MAX_FRAME
    requires forall k :: 0 <= k < |items| ==> WithinLimit(items[k], maxSize)
    ensures forall k :: 0 <= k < |items| ==> WithinLimit(items[k], MAX_FRAME) && Writable(items[k].f, items[k].pad)
  {
  }

  // Frames within the size limit read back as they were written, and the reader is at the end
  // of its input then, exactly if header blocks are contiguous; else it stops where they are not.
  lemma FrameStreamRoundTrip(maxSize: nat, items: seq<Item>)
    requires maxSize <= MAX_FRAME
    requires forall k :: 0 <= k < |items| ==> WithinLimit(items[k], maxSize) && Acceptable(items[k].f)
    ensures (forall k :: 0 <= k < |items| ==> WithinLimit(items[k], MAX_FRAME))
    ensures ReadAll(maxSize, 0, WriteAll(items)) == (FramesOf(items), More) <==> HeaderBlocks.Contiguous(Outlines(items))
    ensures ReadAll(maxSize, 0, WriteAll(items)).0 <= FramesOf(items)
  {
    hide WithinLimit, Writable, Acceptable, ReadAll, WriteAll, HeaderBlocks.Contiguous, HeaderBlocks.Accepted, Outlines;
    WithinMore(items, maxSize);
    StreamBack(maxSize, 0, items);
    HeaderBlocks.AcceptedIffContiguous(Outlines(items));
  }

  // ---------------------------------------------------------------- the writer

  class Writer {
    var wbuf: Bytes
    // What went to the underlying writer.
    var written: Bytes

    constructor ()
      ensures written == []
    {
      wbuf, written := [], [];
    }

    method StartWrite(kind: Byte, flags: Byte, stream: nat)
      requires stream <= MAX_32
      modifies this`wbuf
      ensures wbuf == [0, 0, 0, kind, flags] + U32(stream)
    {
      wbuf := [0, 0, 0, kind, flags,
               stream / 0x100_0000, stream / 0x1_0000 % 0x100, stream / 0x100 % 0x100, stream % 0x100];
    }

    method WriteBytes(b: Bytes)
      modifies this`wbuf
      ensures wbuf == old(wbuf) + b
    {
      wbuf := wbuf + b;
    }

    // Fill in the length, and write. Fails if the frame is too large for its header.
    method EndWrite() returns (ok: bool)
      requires |wbuf| >= 9
      modifies this
      ensures ok == (|old(wbuf)| - 9 <= MAX_FRAME)
      ensures ok ==> var n := |old(wbuf)| - 9;
                written == old(written) + ([n / 0x1_0000, n / 0x100 % 0x100, n % 0x100] + old(wbuf)[3..])
      ensures !ok ==> written == old(written)
    {
      var n := |wbuf| - 9;
      if n >= 0x100_0000 {
        return false;
      }
      wbuf := [n / 0x1_0000, n / 0x100 % 0x100, n % 0x100] + wbuf[3..];
      written := written + wbuf;
      return true;
    }

    // f was written, unless a check failed or it was too large.
    ghost predicate Wrote(was: Bytes, f: Frame, pad: Option<nat>, ok: bool)
      reads this
    {
      && (ok <==> Writable(f, pad) && |WireOf(f, pad).payload| <= MAX_FRAME)
      && (ok ==> WireOf(f, pad).stream <= MAX_32 && written == was + Octets(WireOf(f, pad)))
      && (!ok ==> written == was)
    }

    method EndFrame(ghost f: Frame, ghost pad: Option<nat>) returns (ok: bool)
      requires Writable(f, pad) && wbuf == Unfinished(WireOf(f, pad))
      modifies this
      ensures Wrote(old(written), f, pad, ok)
    {
      hide WireOf, Writable;
      StreamBound(f, pad);
      ghost var w := WireOf(f, pad);
      assert wbuf[3..] == [w.kind, w.flags] + U32(w.stream) + w.payload;
      ok := EndWrite();
    }

    method WriteDataPadded(id: nat, endStream: bool, data: Bytes, pad: Option<nat>) returns (ok: bool)
      requires id <= MAX_32
      modifies this
      ensures Wrote(old(written), DataFrame(id, endStream, data), pad, ok)
    {
      hide U32, Zeros, WithBit, Octets;
      if !ValidStream(id) {
        return false;
      }
      if pad.Some? && pad.value > 255 {
        return false;
      }
      var flags := 0;
      if endStream {
        flags := flags + 1;
      }
      if pad.Some? {
        flags := flags + 8;
      }
      StartWrite(0, flags, id);
      if pad.Some? {
        WriteBytes([pad.value]);
      }
      WriteBytes(data);
      if pad.Some? {
        WriteBytes(Zeros(pad.value));
      }
      assert wbuf == Unfinished(WireOf(DataFrame(id, endStream, data), pad));
      ok := EndFrame(DataFrame(id, endStream, data), pad);
    }

    method WriteHeaders(id: nat, endStream: bool, endHeaders: bool, p: Priority, fragment: Bytes, padLength: Byte) returns (ok: bool)
      requires id <= MAX_32 && p.dep <= MAX_32
      modifies this
      ensures Wrote(old(written), HeadersFrame(id, endStream, endHeaders, p, fragment), Some(padLength), ok)
    {
      hide U32, Zeros, WithBit, Octets, WireOf, PriorityBytes;
      if !ValidStream(id) {
        return false;
      }
      var flags := 0;
      if padLength != 0 {
        flags := flags + 8;
      }
      if endStream {
        flags := flags + 1;
      }
      if endHeaders {
        flags := flags + 4;
      }
      if p != NO_PRIORITY {
        flags := flags + 32;
      }
      StartWrite(1, flags, id);
      if padLength != 0 {
        WriteBytes([padLength]);
      }
      if p != NO_PRIORITY {
        if p.dep > MAX_31 {
          return false;
        }
        WritePriorityOctets(p);
      }
      WriteBytes(fragment);
      WriteBytes(Zeros(padLength));
      HeadersWire(id, endStream, endHeaders, p, fragment, padLength);
      ok := EndFrame(HeadersFrame(id, endStream, endHeaders, p, fragment), Some(padLength));
    }

    method WritePriorityOctets(p: Priority)
      requires p.dep <= MAX_31
      modifies this`wbuf
      ensures wbuf == old(wbuf) + PriorityBytes(p)
    {
      WriteBytes(U32(WithBit(p.exclusive, p.dep)));
      WriteBytes([p.weight]);
    }

    method WritePushPromise(id: nat, promise: nat, endHeaders: bool, fragment: Bytes, padLength: Byte) returns (ok: bool)
      requires id <= MAX_32 && promise <= MAX_32
      modifies this
      ensures Wrote(old(written), PushPromise(id, promise, endHeaders, fragment), Some(padLength), ok)
    {
      hide U32, Zeros, WithBit, Octets;
      if !ValidStream(id) {
        return false;
      }
      var flags := 0;
      if padLength != 0 {
        flags := flags + 8;
      }
      if endHeaders {
        flags := flags + 4;
      }
      StartWrite(5, flags, id);
      if padLength != 0 {
        WriteBytes([padLength]);
      }
      if !ValidStream(promise) {
        return false;
      }
      WriteBytes(U32(promise));
      WriteBytes(fragment);
      WriteBytes(Zeros(padLength));
      assert wbuf == Unfinished(WireOf(PushPromise(id, promise, endHeaders, fragment), Some(padLength)));
      ok := EndFrame(PushPromise(id, promise, endHeaders, fragment), Some(padLength));
    }

    method WriteSettings(ss: seq<Setting>) returns (ok: bool)
      requires forall i :: 0 <= i < |ss| ==> ss[i].id < 0x1_0000 && ss[i].val <= MAX_32
      modifies this
      ensures Wrote(old(written), Settings(ss), None, ok)
    {
      StartWrite(4, 0, 0);
      assert SettingsBytes(ss[..0]) == [];
      for i := 0 to |ss|
        invariant wbuf == [0, 0, 0, 4, 0] + U32(0) + SettingsBytes(ss[..i]) && written == old(written)
      {
        SettingsLast(ss, i);
        WriteBytes(U16(ss[i].id));
        WriteBytes(U32(ss[i].val));
      }
      assert ss[..|ss|] == ss;
      ok := EndFrame(Settings(ss), None);
    }

    // The Write methods that put together a frame of fixed parts.
    method WriteFixed(f: Frame) returns (ok: bool)
      requires f.PriorityFrame? || f.RstStream? || f.SettingsAck? || f.Ping? || f.GoAway? || f.WindowUpdate?
               || f.Continuation? || f.PriorityUpdate? || f.Unknown?
      requires Typed(f)
      modifies this
      ensures Wrote(old(written), f, None, ok)
    {
      match f {
        case PriorityFrame(id, p) =>
          if !ValidStream(id) || p.dep > MAX_31 {
            return false;
          }
          StartWrite(2, 0, id);
          WriteBytes(U32(WithBit(p.exclusive, p.dep)));
          WriteBytes([p.weight]);
        case RstStream(id, code) =>
          if !ValidStream(id) {
            return false;
          }
          StartWrite(3, 0, id);
          WriteBytes(U32(code));
        case SettingsAck =>
          StartWrite(4, 1, 0);
        case Ping(ack, data) =>
          StartWrite(6, if ack then 1 else 0, 0);
          WriteBytes(data);
        case GoAway(last, code, debug) =>
          StartWrite(7, 0, 0);
          WriteBytes(U32(last));
          WriteBytes(U32(code));
          WriteBytes(debug);
        case WindowUpdate(id, inc) =>
          if inc < 1 || inc > MAX_31 {
            return false;
          }
          StartWrite(8, 0, id);
          WriteBytes(U32(inc));
        case Continuation(id, endHeaders, fragment) =>
          if !ValidStream(id) {
            return false;
          }
          StartWrite(9, if endHeaders then 4 else 0, id);
          WriteBytes(fragment);
        case PriorityUpdate(id, text) =>
          if !ValidStream(id) {
            return false;
          }
          StartWrite(16, 0, 0);
          WriteBytes(U32(id));
          WriteBytes(text);
        case Unknown(kind, flags, id, payload) =>
          StartWrite(kind, flags, id);
          WriteBytes(payload);
      }
      assert wbuf == Unfinished(WireOf(f, None));
      ok := EndFrame(f, None);
    }

    // Any of the Write methods. HEADERS and PUSH_PROMISE always have a padding length.
    method Write(f: Frame, pad: Option<nat>) returns (ok: bool)
      requires Typed(f) && (f.HeadersFrame? || f.PushPromise? ==> pad.Some? && pad.value < 256)
      requires f.HeadersFrame? || f.PushPromise? || f.DataFrame? || pad.None?
      modifies this
      ensures Wrote(old(written), f, pad, ok)
    {
      hide WireOf, Octets, Writable;
      match f
      case DataFrame(id, end, data) => ok := WriteDataPadded(id, end, data, pad);
      case HeadersFrame(id, end, endHeaders, p, fragment) => ok := WriteHeaders(id, end, endHeaders, p, fragment, pad.value);
      case PushPromise(id, promise, endHeaders, fragment) => ok := WritePushPromise(id, promise, endHeaders, fragment, pad.value);
      case Settings(ss) => ok := WriteSettings(ss);
      case _ => ok := WriteFixed(f);
    }
  }

  // The buffer before the length is filled in.
  function Unfinished(w: Wire): Bytes
    requires w.stream <= MAX_32
  {
    [0, 0, 0, w.kind, w.flags] + U32(w.stream) + w.payload
  }

  // HEADERS, part by part.
  lemma HeadersWire(id: nat, endStream: bool, endHeaders: bool, p: Priority, fragment: Bytes, padLength: Byte)
    requires ValidStream(id) && p.dep <= MAX_31
    ensures var w := WireOf(HeadersFrame(id, endStream, endHeaders, p, fragment), Some(padLength));
            && w.kind == 1 && w.stream == id
            && w.flags == Bit(endStream, 1) + Bit(endHeaders, 4) + Bit(padLength != 0, 8) + Bit(p != NO_PRIORITY, 32)
            && w.payload == (if padLength != 0 then [padLength] else [])
                            + (if p != NO_PRIORITY then PriorityBytes(p) else []) + fragment + Zeros(padLength)
  {
    hide Zeros, PriorityBytes;
  }

  // What the types of Go allow, and what WriteRawFrame is for.
  predicate Typed(f: Frame) {
    match f
    case DataFrame(id, _, _) => id <= MAX_32
    case HeadersFrame(id, _, _, p, _) => id <= MAX_32 && p.dep <= MAX_32
    case PriorityFrame(id, p) => id <= MAX_32 && p.dep <= MAX_32
    case RstStream(id, code) => id <= MAX_32 && code <= MAX_32
    case Settings(ss) => forall i :: 0 <= i < |ss| ==> ss[i].id < 0x1_0000 && ss[i].val <= MAX_32
    case SettingsAck => true
    case PushPromise(id, promise, _, _) => id <= MAX_32 && promise <= MAX_32
    case Ping(_, data) => |data| == 8
    case GoAway(last, code, _) => last <= MAX_31 && code <= MAX_32
    case WindowUpdate(id, inc) => id <= MAX_31 && inc <= MAX_32
    case Continuation(id, _, _) => id <= MAX_32
    case PriorityUpdate(id, _) => id <= MAX_32
    case Unknown(kind, _, id, _) => id <= MAX_31 && kind > 9 && kind != 16
  }

  lemma SettingsLast(ss: seq<Setting>, i: nat)
    requires i < |ss| && forall k :: 0 <= k < |ss| ==> ss[k].id < 0x1_0000 && ss[k].val <= MAX_32
    ensures SettingsBytes(ss[..i + 1]) == SettingsBytes(ss[..i]) + U16(ss[i].id) + U32(ss[i].val)
    decreases |ss|
  {
    hide U16, U32;
    if i > 0 {
      SettingsLast(ss[1..], i - 1);
      assert ss[..i + 1][1..] == ss[1..][..i] && ss[..i][1..] == ss[1..][..i - 1];
    } else {
      assert ss[..1][1..] == [] && ss[..0] == [];
    }
  }
}
