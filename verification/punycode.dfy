/** Punycode (RFC 3492): decoding, as a function and as the loops that compute it. */
module Punycode {
  import opened Options
  import opened Ints

  const MAX_RUNE: int := 0x10ffff

  type Rune = x: int | 0 <= x <= 0x10ffff

  // A text is the sequence of its code points.
  type Text = seq<Rune>

  datatype Result = Ok(value: Text) | Err | Panic

  const BASE: int := 36
  const TMIN: int := 1
  const TMAX: int := 26
  const SKEW: int := 38
  const DAMP: int := 700
  const INITIAL_BIAS: int := 72
  const INITIAL_N: int := 128
  const DASH: int := 0x2d

  // a + b * c, or nothing if that is too large.
  function MulAdd(a: nat, b: nat, c: nat): (r: Option<nat>)
    ensures r.Some? ==> r.value <= MAX_INT32
  {
    if a + b * c <= MAX_INT32 then Some(a + b * c) else None
  }

  // madd: the product in 64 bits, the sum in 32.
  method MAdd(a: nat, b: nat, c: nat) returns (r: Option<nat>)
    requires a <= MAX_INT32
    ensures r == MulAdd(a, b, c)
  {
    var p := b * c;
    NotNegative(b, c);
    if p > MAX_INT32 - a {
      return None;
    }
    WrapSmall(p);
    WrapSmall(a + p);
    return Some(Wrap(a + Wrap(p)));
  }

  lemma NotNegative(b: nat, c: nat)
    ensures b * c >= 0
  {
  }

  function DecodeDigit(x: Rune): (d: Option<int>)
    ensures d.Some? ==> 0 <= d.value < 36
  {
    if 0x30 <= x <= 0x39 then Some(x - 0x30 + 26)
    else if 0x41 <= x <= 0x5a then Some(x - 0x41)
    else if 0x61 <= x <= 0x7a then Some(x - 0x61)
    else None
  }

  function EncodeDigit(d: int): (x: Rune)
    requires 0 <= d < 36
    ensures DecodeDigit(x) == Some(d) && x != DASH
  {
    if d < 26 then d + 0x61 else d + (0x30 - 26)
  }

  function Threshold(k: int, bias: int): (t: int)
    ensures TMIN <= t <= TMAX
  {
    if k <= bias then TMIN else if k >= bias + TMAX then TMAX else k - bias
  }

  // ---------------------------------------------------------------- bias adaptation

  function Fraction(d: nat): nat {
    36 * d / (d + SKEW)
  }

  function Scale(delta: nat, k: nat): nat {
    if delta > 455 then Scale(delta / 35, k + 36) else k + Fraction(delta)
  }

  function Damped(delta: nat, numPoints: nat, first: bool): nat
    requires numPoints > 0
  {
    var d := if first then delta / DAMP else delta / 2;
    d + d / numPoints
  }

  function Bias(delta: nat, numPoints: nat, first: bool): nat
    requires numPoints > 0
  {
    Scale(Damped(delta, numPoints, first), 0)
  }

  // adapt: nothing overflows, and the bias stays below 216 = 6 * 36.
  method Adapt(delta: nat, numPoints: nat, firstTime: bool) returns (bias: nat)
    requires delta <= MAX_INT32 && numPoints > 0
    ensures bias == Bias(delta, numPoints, firstTime) && bias < 216
  {
    hide Fraction, Scale, Damped, Bias;
    var d: nat := delta;
    if firstTime {
      d := d / DAMP;
    } else {
      d := d / 2;
    }
    DampedFits(d, numPoints);
    DampedIs(delta, numPoints, firstTime, d);
    d := d + d / numPoints;
    ScaleBound(d);
    var k: nat := 0;
    // 455 is half of (base - tmin) * tmax, and 35 is base - tmin.
    while d > 455
      invariant Scale(d, k) == Bias(delta, numPoints, firstTime)
      decreases d
    {
      ScaleStep(d, k);
      d := d / 35;
      k := k + BASE;
    }
    ScaleStep(d, k);
    bias := k + Fraction(d);
  }

  lemma DampedIs(delta: nat, numPoints: nat, first: bool, d: nat)
    requires numPoints > 0 && d == if first then delta / DAMP else delta / 2
    ensures Bias(delta, numPoints, first) == Scale(d + d / numPoints, 0)
  {
    hide Scale;
  }

  lemma ScaleStep(d: nat, k: nat)
    ensures Scale(d, k) == if d > 455 then Scale(d / 35, k + 36) else k + Fraction(d)
  {
  }

  lemma DampedFits(d: nat, numPoints: nat)
    requires 2 * d <= MAX_INT32 && numPoints > 0
    ensures d + d / numPoints <= MAX_INT32
  {
    assert d / numPoints <= d;
  }

  lemma FractionBound(d: nat, x: nat)
    requires 36 * d < (x + 1) * (d + SKEW)
    ensures Fraction(d) <= x
  {
    var q := Fraction(d);
    assert q * (d + SKEW) <= 36 * d;
    MulMono(q, x + 1, d + SKEW);
  }

  lemma MulMono(a: nat, b: nat, y: nat)
    ensures a >= b ==> a * y >= b * y
  {
    if a >= b {
      assert (a - b) * y >= 0;
      assert a * y == b * y + (a - b) * y;
    }
  }

  // At most five divisions by 35 bring a 32-bit number down to 455.
  lemma ScaleBound(d: nat)
    requires d <= MAX_INT32
    ensures Scale(d, 0) < 216
  {
    hide Scale, Fraction;
    ScaleUpTo(d, 0, 5, MAX_INT32);
  }

  // A number that `left` more divisions bring down to 455.
  function Ceiling(left: nat): nat {
    if left == 0 then 455 else if left == 1 then 1431 else if left == 2 then 50087
    else if left == 3 then 1753047 else if left == 4 then 61356675 else 0x7fff_ffff
  }

  lemma {:induction false} ScaleUpTo(d: nat, k: nat, left: nat, top: nat)
    requires left <= 5 && d <= top == Ceiling(left)
    ensures Scale(d, k) <= k + 36 * left + 33
    ensures left > 0 ==> Scale(d, k) < k + 36 * (left + 1)
  {
    hide Fraction, Scale;
    ScaleStep(d, k);
    if d <= 455 {
      FractionBound(d, 33);
    } else {
      ScaleUpTo(d / 35, k + 36, left - 1, Ceiling(left - 1));
    }
  }

  // ---------------------------------------------------------------- decoding

  // One digit d of a variable-length integer whose place is worth w.
  datatype Digit = Bad | Last(i: nat) | More(i: nat, w: nat)

  function TakeDigit(x: Rune, k: int, i: nat, w: nat, bias: int): (r: Digit)
    ensures r.Last? ==> i <= r.i <= MAX_INT32
    ensures r.More? ==> i <= r.i <= MAX_INT32 && r.w <= MAX_INT32
  {
    match DecodeDigit(x)
    case None => Bad
    case Some(d) =>
      NotNegative(d, w);
      match MulAdd(i, d, w)
      case None => Bad
      case Some(i') =>
        var t := Threshold(k, bias);
        if d < t then Last(i')
        else match MulAdd(0, w, BASE - t)
          case None => Bad
          case Some(w') => More(i', w')
  }

  // A variable-length integer added to i: the sum, and the position after it.
  function ReadDelta(e: Text, pos: nat, k: int, i: nat, w: nat, bias: int): (r: Option<(nat, nat)>)
    requires pos <= |e|
    ensures r.Some? ==> pos < r.value.1 <= |e| && i <= r.value.0 <= MAX_INT32
    decreases |e| - pos
  {
    if pos == |e| then None
    else match TakeDigit(e[pos], k, i, w, bias)
      case Bad => None
      case Last(i') => Some((i', pos + 1))
      case More(i', w') => ReadDelta(e, pos + 1, k + BASE, i', w', bias)
  }

  // The insertions described by e from pos on. n is the code point to insert next and i the
  // place, both still to be advanced.
  function Insert(e: Text, pos: nat, i: nat, n: nat, bias: nat, out: Text): Result
    requires pos <= |e| && i <= MAX_INT32
    decreases |e| - pos
  {
    if pos == |e| then Ok(out)
    else
      match ReadDelta(e, pos, BASE, i, 1, bias)
      case None => Err
      case Some((i', pos')) =>
        var (over, at) := Advance(i', |out| + 1);
        if |out| >= 1024 || n + over > MAX_RUNE then Err
        else
          Insert(e, pos', at + 1, n + over, Bias(i' - i, |out| + 1, i == 0), InsertAt(out, at, n + over))
  }

  // How far i moves on to later code points, and the place it stops at.
  function Advance(i: nat, x: nat): (r: (nat, nat))
    requires x > 0
    ensures r.0 <= i && r.1 < x
  {
    QuotientAtMost(i, x);
    (i / x, i % x)
  }

  lemma QuotientAtMost(i: nat, x: nat)
    requires x > 0
    ensures 0 <= i / x <= i
  {
    var q := i / x;
    assert q * x + i % x == i;
    MulMono(x, 1, q);
  }

  function InsertAt(out: Text, at: nat, c: Rune): (r: Text)
    requires at <= |out|
    ensures |r| == |out| + 1
  {
    out[..at] + [c] + out[at..]
  }

  function LastDash(e: Text): (k: int)
    ensures -1 <= k < |e|
    ensures k >= 0 ==> e[k] == DASH
    ensures forall j :: k < j < |e| ==> e[j] != DASH
  {
    if e == [] then -1 else if e[|e| - 1] == DASH then |e| - 1 else LastDash(e[..|e| - 1])
  }

  // Code points that no text contains become replacement characters.
  function ToText(r: Result): Result {
    match r
    case Ok(s) => Ok(seq(|s|, i requires 0 <= i < |s| => if 0xd800 <= s[i] <= 0xdfff then 0xfffd else s[i]))
    case _ => r
  }

  function Decode(e: Text): Result {
    if e == [] then Ok([])
    else
      var pos := 1 + LastDash(e);
      if pos == 1 then Err
      else if pos == |e| then Ok(e[..|e| - 1])
      else ToText(Insert(e, pos, 0, INITIAL_N, INITIAL_BIAS, if pos == 0 then [] else e[..pos - 1]))
  }

  method FindLastDash(e: Text) returns (k: int)
    ensures k == LastDash(e)
  {
    k := |e| - 1;
    while k >= 0 && e[k] != DASH
      invariant -1 <= k < |e|
      invariant LastDash(e[..k + 1]) == LastDash(e)
    {
      assert e[..k + 1][..k] == e[..k];
      k := k - 1;
    }
  }

  // The digits of one integer, as decode reads them.
  method ReadDeltaLoop(e: Text, start: nat, i0: nat, bias: nat) returns (r: Option<(nat, nat)>)
    requires start <= |e| && i0 <= MAX_INT32
    ensures r == ReadDelta(e, start, BASE, i0, 1, bias)
  {
    hide ReadDelta, TakeDigit, MulAdd, DecodeDigit;
    var pos, i: nat, w: nat, k := start, i0, 1, BASE;
    while true
      invariant start <= pos <= |e| && i <= MAX_INT32
      invariant ReadDelta(e, pos, k, i, w, bias) == ReadDelta(e, start, BASE, i0, 1, bias)
      decreases |e| - pos
    {
      ReadDeltaStep(e, pos, k, i, w, bias);
      if pos == |e| {
        return None;
      }
      TakeDigitParts(e[pos], k, i, w, bias);
      var digit := DecodeDigit(e[pos]);
      if digit.None? {
        return None;
      }
      pos := pos + 1;
      var sum := MAdd(i, digit.value, w);
      if sum.None? {
        return None;
      }
      i := sum.value;
      var t := Threshold(k, bias);
      if digit.value < t {
        return Some((i, pos));
      }
      var w' := MAdd(0, w, BASE - t);
      if w'.None? {
        return None;
      }
      w := w'.value;
      k := k + BASE;
    }
  }

  lemma ReadDeltaStep(e: Text, pos: nat, k: int, i: nat, w: nat, bias: int)
    requires pos <= |e|
    ensures ReadDelta(e, pos, k, i, w, bias) ==
            if pos == |e| then None
            else match TakeDigit(e[pos], k, i, w, bias)
              case Bad => None
              case Last(i') => Some((i', pos + 1))
              case More(i', w') => ReadDelta(e, pos + 1, k + BASE, i', w', bias)
  {
    hide TakeDigit;
  }

  lemma TakeDigitParts(x: Rune, k: int, i: nat, w: nat, bias: int)
    ensures DecodeDigit(x).None? ==> TakeDigit(x, k, i, w, bias) == Bad
    ensures DecodeDigit(x).Some? ==>
              var d, t := DecodeDigit(x).value, Threshold(k, bias);
              TakeDigit(x, k, i, w, bias) ==
              if MulAdd(i, d, w).None? then Bad
              else if d < t then Last(MulAdd(i, d, w).value)
              else if MulAdd(0, w, BASE - t).None? then Bad
              else More(MulAdd(i, d, w).value, MulAdd(0, w, BASE - t).value)
  {
    hide DecodeDigit;
  }

  lemma InsertStep(e: Text, pos: nat, i: nat, n: nat, bias: nat, out: Text)
    requires pos < |e| && i <= MAX_INT32
    ensures Insert(e, pos, i, n, bias, out) ==
            match ReadDelta(e, pos, BASE, i, 1, bias)
            case None => Err
            case Some((i', pos')) =>
              var (over, at) := Advance(i', |out| + 1);
              if |out| >= 1024 || n + over > MAX_RUNE then Err
              else Insert(e, pos', at + 1, n + over, Bias(i' - i, |out| + 1, i == 0), InsertAt(out, at, n + over))
  {
    hide ReadDelta, Bias, Advance, InsertAt;
  }

  // int32 addition of a small and a non-negative number goes negative when it overflows.
  lemma WrapCheck(n: nat, d: nat)
    requires n <= MAX_RUNE && d <= MAX_INT32
    ensures var n' := Wrap(n + d);
            (n' < 0 || n' > MAX_RUNE <==> n + d > MAX_RUNE) && (n + d <= MAX_RUNE ==> n' == n + d)
  {
  }

  method DecodeLoop(e: Text) returns (r: Result)
    ensures r == Decode(e)
  {
    hide Insert, ReadDelta, Bias, Wrap, LastDash;
    if e == [] {
      return Ok([]);
    }
    var dash := FindLastDash(e);
    var pos: nat := 1 + dash;
    if pos == 1 {
      return Err;
    }
    if pos == |e| {
      return Ok(e[..|e| - 1]);
    }
    var output: Text := if pos == 0 then [] else e[..pos - 1];
    r := InsertLoop(e, pos, output);
    r := ToText(r);
  }

  method InsertLoop(e: Text, start: nat, basic: Text) returns (r: Result)
    requires start <= |e|
    ensures r == Insert(e, start, 0, INITIAL_N, INITIAL_BIAS, basic)
  {
    hide Insert, ReadDelta, Bias, Wrap, Advance, InsertAt;
    var pos := start;
    var output: Text := basic;
    var i: nat, n: nat, bias: nat := 0, INITIAL_N, INITIAL_BIAS;
    ghost var goal := Insert(e, pos, 0, INITIAL_N, INITIAL_BIAS, output);
    while pos < |e|
      invariant pos <= |e| && i <= MAX_INT32 && n <= MAX_RUNE
      invariant Insert(e, pos, i, n, bias, output) == goal
      decreases |e| - pos
    {
      InsertStep(e, pos, i, n, bias, output);
      var d := ReadDeltaLoop(e, pos, i, bias);
      if d.None? {
        return Err;
      }
      var oldI := i;
      if |output| >= 1024 {
        return Err;
      }
      i, pos := d.value.0, d.value.1;
      var x := |output| + 1;
      bias := Adapt(i - oldI, x, oldI == 0);
      var (over, at) := Advance(i, x);
      WrapCheck(n, over);
      var n' := Wrap(n + over);
      if n' < 0 || n' > MAX_RUNE {
        return Err;
      }
      n := n';
      output := InsertAt(output, at, n);
      i := at + 1;
    }
    InsertDone(e, pos, i, n, bias, output);
    r := Ok(output);
  }

  lemma InsertDone(e: Text, pos: nat, i: nat, n: nat, bias: nat, out: Text)
    requires pos == |e| && i <= MAX_INT32
    ensures Insert(e, pos, i, n, bias, out) == Ok(out)
  {
  }
}
