/** Punycode encoding (RFC 3492, section 6.3), and why decoding undoes it. */
module PunycodeEncode {
  import opened Options
  import opened Ints
  import opened Punycode

  // ---------------------------------------------------------------- one integer

  function FirstDigit(q: nat, t: int): (d: nat)
    requires 1 <= t <= 26 && q >= t
    ensures t <= d < 36
  {
    t + (q - t) % (36 - t)
  }

  function RestOf(q: nat, t: int): (r: nat)
    requires 1 <= t <= 26 && q >= t
    ensures r < q
  {
    RestLess(q, t);
    (q - t) / (36 - t)
  }

  lemma RestLess(q: nat, t: int)
    requires 1 <= t <= 26 && q >= t
    ensures 0 <= (q - t) / (36 - t) < q
  {
    var x, y := q - t, 36 - t;
    var r := x / y;
    assert r * y + x % y == x;
    MulMono(y, 1, r);
  }

  // q as a variable-length integer whose first digit is in place k.
  function Digits(q: nat, k: int, bias: int): (ds: Text)
    ensures ds != []
    decreases q
  {
    var t := Threshold(k, bias);
    if q < t then [EncodeDigit(q)]
    else [EncodeDigit(FirstDigit(q, t))] + Digits(RestOf(q, t), k + BASE, bias)
  }

  predicate AllDigits(ds: Text) {
    forall j :: 0 <= j < |ds| ==> IsDigit(ds[j])
  }

  // The lower-case digits; no dash among them.
  predicate IsDigit(x: Rune) {
    0x30 <= x <= 0x39 || 0x61 <= x <= 0x7a
  }

  lemma EncodedIsDigit(d: nat)
    requires d < 36
    ensures IsDigit(EncodeDigit(d))
  {
  }

  lemma {:induction false} DigitsAreDigits(q: nat, k: int, bias: int)
    ensures AllDigits(Digits(q, k, bias))
    decreases q
  {
    var t := Threshold(k, bias);
    if q < t {
      EncodedIsDigit(q);
    } else {
      EncodedIsDigit(FirstDigit(q, t));
      DigitsAreDigits(RestOf(q, t), k + BASE, bias);
    }
  }

  // The largest weight that place k can have, as long as all places below had threshold 1.
  function Cap(k: int): nat {
    if k == 36 then 1 else if k == 72 then 35 else if k == 108 then 1225 else if k == 144 then 42875
    else if k == 180 then 1500625 else 52521875
  }

  predicate WeightFits(w: nat, k: int) {
    k >= 36 && k % 36 == 0 && (k <= 216 ==> w <= Cap(k))
  }

  // With a bias below 216 the weight of a place that is needed stays within 31 bits.
  lemma NextWeight(w: nat, k: int, q: nat, bias: int)
    requires 0 <= bias < 216 && WeightFits(w, k)
    requires var t := Threshold(k, bias); q >= t && q * w <= MAX_INT32
    ensures var t := Threshold(k, bias);
            w * (36 - t) <= MAX_INT32 && WeightFits(w * (36 - t), k + 36)
  {
    var t := Threshold(k, bias);
    if k <= 216 {
      MulMono(35, 36 - t, w);
      assert w * (36 - t) <= 35 * w <= 35 * Cap(k);
      assert k in {36, 72, 108, 144, 180, 216};
    } else {
      assert k >= 252 && t == 26;
      MulMono(q, 26, w);
      assert 26 * w <= MAX_INT32;
    }
  }

  // q is its first digit plus the rest, one place up.
  lemma DigitValue(q: nat, t: int, w: nat, first: nat, rest: int)
    requires 1 <= t <= 26 && q >= t
    requires first == FirstDigit(q, t) * w && rest == RestOf(q, t) * (w * (36 - t))
    ensures rest >= 0 && first + rest == q * w
  {
    var d, r, y := FirstDigit(q, t), RestOf(q, t), 36 - t;
    assert r * y + (q - t) % y == q - t;
    assert d + r * y == q;
    assert r * (w * y) == r * y * w;
    assert d * w + r * y * w == (d + r * y) * w;
    MulMono(r, 0, y);
    MulMono(r * y, 0, w);
  }

  lemma ReadDigitsLast(e: Text, pos: nat, q: nat, k: int, i: nat, w: nat, bias: int, v: nat)
    requires pos < |e| && q < Threshold(k, bias) && e[pos] == EncodeDigit(q)
    requires v == q * w && i + v <= MAX_INT32
    ensures ReadDelta(e, pos, k, i, w, bias) == Some((i + v, pos + 1))
  {
    hide ReadDelta, TakeDigit, DecodeDigit, Digits;
    ReadDeltaStep(e, pos, k, i, w, bias);
    TakeDigitParts(e[pos], k, i, w, bias);
  }

  lemma ReadDigitsMore(e: Text, pos: nat, d: nat, k: int, i: nat, w: nat, bias: int, v: nat, w': nat)
    requires pos < |e| && d < 36 && e[pos] == EncodeDigit(d) && d >= Threshold(k, bias)
    requires v == d * w && i + v <= MAX_INT32 && w' == w * (36 - Threshold(k, bias)) <= MAX_INT32
    ensures ReadDelta(e, pos, k, i, w, bias) == ReadDelta(e, pos + 1, k + BASE, i + v, w', bias)
  {
    hide ReadDelta, TakeDigit, DecodeDigit, Digits;
    ReadDeltaStep(e, pos, k, i, w, bias);
    TakeDigitParts(e[pos], k, i, w, bias);
  }

  // The decoder reads back the integer the encoder wrote, without overflow.
  lemma {:induction false} ReadDigits(e: Text, pos: nat, q: nat, k: int, i: nat, w: nat, bias: int, v: nat)
    requires 0 <= bias < 216 && WeightFits(w, k)
    requires var ds := Digits(q, k, bias); pos + |ds| <= |e| && e[pos..pos + |ds|] == ds
    requires v == q * w && i + v <= MAX_INT32
    ensures ReadDelta(e, pos, k, i, w, bias) == Some((i + v, pos + |Digits(q, k, bias)|))
    decreases q
  {
    hide *;
    var t := Threshold(k, bias);
    var ds := Digits(q, k, bias);
    DigitsStep(q, k, bias);
    assert e[pos] == ds[0];
    if q < t {
      ReadDigitsLast(e, pos, q, k, i, w, bias, v);
    } else {
      var d, r := FirstDigit(q, t), RestOf(q, t);
      var w', first, rest := w * (36 - t), d * w, r * (w * (36 - t));
      NextWeight(w, k, q, bias);
      DigitValue(q, t, w, first, rest);
      ReadDigitsMore(e, pos, d, k, i, w, bias, first, w');
      assert e[pos + 1..pos + |ds|] == ds[1..];
      ReadDigits(e, pos + 1, r, k + 36, i + first, w', bias, rest);
    }
  }

  lemma DigitsStep(q: nat, k: int, bias: int)
    ensures var t := Threshold(k, bias);
            && 1 <= t <= 26 && BASE == 36
            && (q < t ==> Digits(q, k, bias) == [EncodeDigit(q)])
            && (q >= t ==> Digits(q, k, bias) == [EncodeDigit(FirstDigit(q, t))] + Digits(RestOf(q, t), k + 36, bias))
  {
    hide EncodeDigit, FirstDigit, RestOf;
  }

  // ---------------------------------------------------------------- what is inserted when

  // The code points of s below n, and those equal to n before index j.
  function Kept(s: Text, n: int, j: int): (out: Text)
    ensures |out| <= |s|
  {
    if s == [] then []
    else
      var l := |s| - 1;
      Kept(s[..l], n, j) + (if s[l] < n || (s[l] == n && l < j) then [s[l]] else [])
  }

  // How many of the first j code points are at most n.
  function Rank(s: Text, n: int, j: nat): (r: nat)
    requires j <= |s|
    ensures r <= j
  {
    |Kept(s[..j], n, j)|
  }

  lemma {:induction false} KeptBound(s: Text, n: int, j: int, j': int)
    requires |s| <= j && |s| <= j'
    ensures Kept(s, n, j) == Kept(s, n, j')
  {
    if s != [] {
      KeptBound(s[..|s| - 1], n, j, j');
    }
  }

  lemma KeptLast(s: Text, n: int, j: int)
    requires s != []
    ensures var l := |s| - 1;
            Kept(s, n, j) == Kept(s[..l], n, j) + (if s[l] < n || (s[l] == n && l < j) then [s[l]] else [])
  {
  }

  // Passing index j inserts s[j], if it is n, after the code points before it that are there.
  lemma {:induction false} KeptStep(s: Text, n: int, j: nat)
    requires j < |s|
    ensures Rank(s, n, j) <= |Kept(s, n, j)|
    ensures Kept(s, n, j + 1) ==
            if s[j] == n then InsertAt(Kept(s, n, j), Rank(s, n, j), s[j]) else Kept(s, n, j)
    decreases |s|
  {
    hide Kept;
    var l := |s| - 1;
    var u := s[..l];
    KeptLast(s, n, j);
    KeptLast(s, n, j + 1);
    if j == l {
      assert s[..j] == u;
      KeptBound(u, n, j, j + 1);
    } else {
      assert u[..j] == s[..j];
      KeptStep(u, n, j);
      InsertBefore(Kept(u, n, j), Rank(u, n, j), s[j], if s[l] < n then [s[l]] else []);
    }
  }

  lemma InsertBefore(out: Text, at: nat, c: Rune, more: Text)
    requires at <= |out|
    ensures InsertAt(out, at, c) + more == InsertAt(out + more, at, c)
  {
    assert (out + more)[..at] == out[..at];
    assert (out + more)[at..] == out[at..] + more;
  }

  lemma RankStep(s: Text, n: int, j: nat)
    requires j < |s|
    ensures Rank(s, n, j + 1) == Rank(s, n, j) + (if s[j] <= n then 1 else 0)
  {
    assert s[..j + 1][..j] == s[..j];
    KeptBound(s[..j], n, j, j + 1);
  }

  // No code point of s lies strictly between n and m: the next round starts where this one ended.
  lemma {:induction false} KeptNext(s: Text, n: int, m: int)
    requires n < m && forall k :: 0 <= k < |s| ==> s[k] <= n || s[k] >= m
    ensures Kept(s, n, |s|) == Kept(s, m, 0)
  {
    if s != [] {
      var l := |s| - 1;
      KeptBound(s[..l], n, |s|, l);
      KeptNext(s[..l], n, m);
    }
  }

  lemma {:induction false} KeptSame(s: Text, n: int, m: int)
    requires n <= m && forall k :: 0 <= k < |s| ==> s[k] < n || s[k] >= m
    ensures Kept(s, n, 0) == Kept(s, m, 0)
  {
    if s != [] {
      KeptSame(s[..|s| - 1], n, m);
    }
  }

  lemma {:induction false} KeptAll(s: Text, n: int, j: int)
    requires |Kept(s, n, j)| == |s|
    ensures Kept(s, n, j) == s
  {
    if s != [] {
      KeptAll(s[..|s| - 1], n, j);
    }
  }

  // Something is missing, so something is at least n.
  lemma {:induction false} KeptMissing(s: Text, n: int) returns (k: nat)
    requires |Kept(s, n, 0)| < |s|
    ensures k < |s| && s[k] >= n
  {
    var l := |s| - 1;
    if s[l] >= n {
      k := l;
    } else {
      k := KeptMissing(s[..l], n);
    }
  }

  lemma {:induction false} KeptOfBasic(s: Text)
    ensures forall k :: 0 <= k < |Kept(s, INITIAL_N, 0)| ==> Kept(s, INITIAL_N, 0)[k] < INITIAL_N
  {
    if s != [] {
      KeptOfBasic(s[..|s| - 1]);
    }
  }

  // ---------------------------------------------------------------- following the decoder

  // After the octets of body the decoder stands at place i of code point n, having built out.
  ghost predicate Reaches(body: Text, start: nat, basic: Text, i: nat, n: nat, bias: nat, out: Text) {
    && start <= |body| && i <= MAX_INT32
    && forall tail: Text ::
         Insert(body + tail, start, 0, INITIAL_N, INITIAL_BIAS, basic) == Insert(body + tail, |body|, i, n, bias, out)
  }

  lemma DivUnique(x: nat, q: nat, r: nat, q': nat, r': nat)
    requires r < x && r' < x && q * x + r == q' * x + r'
    ensures q == q' && r == r'
  {
    MulMono(q', q + 1, x);
    MulMono(q, q' + 1, x);
    assert (q + 1) * x == q * x + x && (q' + 1) * x == q' * x + x;
  }

  lemma AdvanceExact(x: nat, over: nat, at: nat, i: nat)
    requires at < x && i == over * x + at
    ensures Advance(i, x) == (over, at)
  {
    DivUnique(x, over, at, i / x, i % x);
  }

  // One more integer: the decoder inserts c at `at`.
  lemma ReachesStep(body: Text, start: nat, basic: Text, i: nat, n: nat, bias: nat, out: Text, delta: nat, c: Rune, at: nat)
    requires Reaches(body, start, basic, i, n, bias, out) && bias < 216
    requires |out| < 1024 && n <= c && at <= |out|
    requires i + delta == (c - n) * (|out| + 1) + at <= MAX_INT32
    ensures Reaches(body + Digits(delta, BASE, bias), start, basic, at + 1, c,
                    Bias(delta, |out| + 1, i == 0), InsertAt(out, at, c))
  {
    hide Insert, ReadDelta, Digits, Bias, InsertAt, Advance;
    var ds := Digits(delta, BASE, bias);
    var body' := body + ds;
    AdvanceExact(|out| + 1, c - n, at, i + delta);
    forall tail: Text
      ensures Insert(body' + tail, start, 0, INITIAL_N, INITIAL_BIAS, basic) ==
              Insert(body' + tail, |body'|, at + 1, c, Bias(delta, |out| + 1, i == 0), InsertAt(out, at, c))
    {
      assert body' + tail == body + (ds + tail);
      var e := body' + tail;
      assert e[|body|..|body| + |ds|] == ds;
      ReadDigits(e, |body|, delta, BASE, i, 1, bias, delta);
      InsertStep(e, |body|, i, n, bias, out);
    }
  }

  // ---------------------------------------------------------------- the encoder

  // Up to so many code points no 32-bit number of the encoder overflows; the decoder takes
  // at most 1024.
  const MAX_SAFE: nat := 1926
  const MAX_GAP: nat := 2146893824
  const MAX_DECODED: nat := 1024

  // The code points passed over between code point nd and code point n, with h + 1 places each.
  function Gap(n: int, nd: int, h: nat): int {
    (n - nd) * (h + 1)
  }

  lemma GapFacts(n: int, m: int, nd: int, h: nat)
    requires nd <= n <= m <= MAX_RUNE + 1
    ensures Gap(n, n, h) == 0 && 0 <= Gap(n, nd, h)
    ensures Gap(m, nd, h) == Gap(n, nd, h) + (m - n) * (h + 1) && (m - n) * (h + 1) >= 0
    ensures Gap(n + 1, nd, h) == Gap(n, nd, h) + h + 1
    ensures h <= MAX_SAFE && nd >= 0 ==> Gap(m, nd, h) <= MAX_GAP
  {
    MulMono(n - nd, 0, h + 1);
    MulMono(m - n, 0, h + 1);
    assert (m - nd) * (h + 1) == (n - nd) * (h + 1) + (m - n) * (h + 1);
    assert (n + 1 - nd) * (h + 1) == (n - nd) * (h + 1) + (h + 1);
    if h <= MAX_SAFE && nd >= 0 {
      MulMono(MAX_RUNE + 1, m - nd, h + 1);
      assert (MAX_RUNE + 1) * (h + 1) == 1114112 * (h + 1);
    }
  }

  // What the encoder has written after any prefix: the basic code points, a dash if there are
  // any, and digits; and where the decoder then stands.
  datatype Trace = Trace(basic: Text, digits: Text, i: nat, nd: nat)

  function Head(basic: Text): Text {
    if basic == [] then [] else basic + [DASH]
  }

  function Body(tr: Trace): Text {
    Head(tr.basic) + tr.digits
  }

  // The encoder, having passed the code points of s before index j at code point n.
  datatype State = State(output: Text, delta: int, bias: nat, h: nat, remaining: nat)

  ghost predicate Shape(prefix: Text, s: Text, e: State, n: nat, j: nat, tr: Trace)
    requires j <= |s|
  {
    && e.output == prefix + Body(tr) && AllDigits(tr.digits)
    && e.h == |Kept(s, n, j)| && e.remaining == |s| - e.h && e.bias < 216 && |tr.basic| <= e.h
    && tr.basic == Kept(s, INITIAL_N, 0)
    && -0x8000_0000 <= e.delta <= MAX_INT32
  }

  // delta counts the steps from where the decoder stands, or would if it took the text.
  ghost predicate Follows(s: Text, e: State, n: nat, j: nat, tr: Trace)
    requires j <= |s|
  {
    && (|s| <= MAX_DECODED ==> Reaches(Body(tr), |Head(tr.basic)|, tr.basic, tr.i, tr.nd, e.bias, Kept(s, n, j)))
    && tr.nd <= n && tr.i <= e.h
    && 0 <= e.delta == Gap(n, tr.nd, e.h) + Rank(s, n, j) - tr.i
    && (tr.i == 0 <==> e.h == |tr.basic|)
  }

  predicate Moderate(s: Text) {
    |s| <= MAX_SAFE
  }

  // The digits of delta; the source panics on a negative one.
  method EmitDelta(output: Text, delta: int, bias: nat) returns (r: Option<Text>)
    requires bias < 216
    ensures delta < 0 ==> r == None
    ensures delta >= 0 ==> r == Some(output + Digits(delta, BASE, bias))
  {
    hide EncodeDigit, FirstDigit, RestOf, Digits, Threshold;
    if delta < 0 {
      return None;
    }
    var q: nat := delta;
    var k := BASE;
    var out := output;
    while q >= Threshold(k, bias)
      invariant output + Digits(delta, BASE, bias) == out + Digits(q, k, bias)
      decreases q
    {
      DigitsStep(q, k, bias);
      var t := Threshold(k, bias);
      AppendOne(out, EncodeDigit(FirstDigit(q, t)), Digits(RestOf(q, t), k + 36, bias));
      out := out + [EncodeDigit(FirstDigit(q, t))];
      q := RestOf(q, t);
      k := k + BASE;
    }
    DigitsStep(q, k, bias);
    r := Some(out + [EncodeDigit(q)]);
  }

  lemma AppendOne(out: Text, x: Rune, more: Text)
    ensures out + ([x] + more) == (out + [x]) + more
  {
  }

  lemma RankBound(s: Text, n: int, j: nat)
    requires j < |s|
    ensures Rank(s, n, j) <= |Kept(s, n, j)|
    ensures s[j] == n ==> |Kept(s, n, j + 1)| == |Kept(s, n, j)| + 1
    ensures s[j] != n ==> Kept(s, n, j + 1) == Kept(s, n, j)
  {
    hide Kept, InsertAt;
    KeptStep(s, n, j);
  }

  // A code point that is not inserted now: delta grows only past those already there.
  lemma PassOver(prefix: Text, s: Text, e: State, n: nat, j: nat, tr: Trace)
    requires j < |s| && s[j] != n && Shape(prefix, s, e, n, j, tr)
    requires s[j] < n ==> e.delta < MAX_INT32
    ensures var e' := if s[j] < n then e.(delta := e.delta + 1) else e;
            && Shape(prefix, s, e', n, j + 1, tr)
            && (Follows(s, e, n, j, tr) ==> Follows(s, e', n, j + 1, tr))
  {
    hide Kept, Gap, Reaches, Body, Rank;
    RankBound(s, n, j);
    RankStep(s, n, j);
  }

  // With few code points, delta stays far below 2^31.
  lemma DeltaFits(s: Text, e: State, n: nat, j: nat, tr: Trace)
    requires j <= |s| && Moderate(s) && n <= MAX_RUNE + 1 && e.h <= |s| && Follows(s, e, n, j, tr)
    ensures e.delta <= MAX_GAP + MAX_SAFE < MAX_INT32
    ensures tr.i + e.delta <= MAX_GAP + MAX_SAFE
  {
    hide Kept, Gap, Reaches, Body, Rank;
    GapFacts(n, n, tr.nd, e.h);
    RankAtMost(s, n, j);
  }

  lemma RankAtMost(s: Text, n: int, j: nat)
    requires j <= |s|
    ensures Rank(s, n, j) <= |s|
  {
  }

  // A code point that is inserted: its delta is written, and the decoder follows.
  lemma InsertHere(prefix: Text, s: Text, e: State, n: Rune, j: nat, tr: Trace)
    requires j < |s| && s[j] == n && Shape(prefix, s, e, n, j, tr) && 0 <= e.delta && e.remaining > 0
    requires Bias(e.delta, e.h + 1, e.h == |tr.basic|) < 216
    ensures var ds := Digits(e.delta, BASE, e.bias);
            var e' := State(e.output + ds, 0, Bias(e.delta, e.h + 1, e.h == |tr.basic|), e.h + 1, e.remaining - 1);
            var tr' := Trace(tr.basic, tr.digits + ds, Rank(s, n, j) + 1, n);
            && Shape(prefix, s, e', n, j + 1, tr')
            && (Moderate(s) && Follows(s, e, n, j, tr) ==> Follows(s, e', n, j + 1, tr'))
  {
    hide Kept, Gap, Reaches, Digits, Bias, Rank, AllDigits, InsertAt;
    var ds := Digits(e.delta, BASE, e.bias);
    DigitsAreDigits(e.delta, BASE, e.bias);
    MoreDigits(tr.digits, ds);
    KeptStep(s, n, j);
    RankStep(s, n, j);
    assert Head(tr.basic) + (tr.digits + ds) == Body(tr) + ds;
    assert prefix + (Body(tr) + ds) == e.output + ds;
    GapFacts(n, n, n, e.h + 1);
    if Moderate(s) && Follows(s, e, n, j, tr) {
      DeltaFits(s, e, n, j, tr);
      GapIs(n, tr.nd, e.h);
      if |s| <= MAX_DECODED {
        ReachesStep(Body(tr), |Head(tr.basic)|, tr.basic, tr.i, tr.nd, e.bias, Kept(s, n, j), e.delta, n, Rank(s, n, j));
      }
    }
  }

  lemma GapIs(n: int, nd: int, h: nat)
    ensures Gap(n, nd, h) == (n - nd) * (h + 1)
  {
  }

  lemma MoreDigits(a: Text, b: Text)
    requires AllDigits(a) && AllDigits(b)
    ensures AllDigits(a + b)
  {
  }

  // One pass over s at code point n: insert its occurrences.
  method Pass(ghost prefix: Text, s: Text, n: Rune, b: nat, e0: State, ghost tr0: Trace)
    returns (r: Result, e: State, ghost tr: Trace)
    requires |s| < MAX_INT32 && b == |tr0.basic|
    requires Shape(prefix, s, e0, n, 0, tr0)
    requires Moderate(s) ==> Follows(s, e0, n, 0, tr0)
    ensures Moderate(s) ==> r.Ok?
    ensures r.Ok? ==>
              && Shape(prefix, s, e, n, |s|, tr) && tr.basic == tr0.basic
              && (Moderate(s) ==> Follows(s, e, n, |s|, tr))
              && (tr == tr0 || tr.digits != [])
              && (n in s ==> tr.digits != [])
  {
    hide Kept, Gap, Reaches, Digits, Bias, Rank, Shape, Follows, Wrap;
    e, tr := e0, tr0;
    r := Ok([]);
    var j := 0;
    while j < |s|
      invariant j <= |s| && Shape(prefix, s, e, n, j, tr) && tr.basic == tr0.basic
      invariant Moderate(s) ==> Follows(s, e, n, j, tr)
      invariant tr == tr0 || tr.digits != []
      invariant n in s[..j] ==> tr.digits != []
      invariant r.Ok?
    {
      ShapeFacts(prefix, s, e, n, j, tr);
      assert s[..j + 1] == s[..j] + [s[j]];
      if Moderate(s) {
        DeltaFits(s, e, n, j, tr);
      }
      if s[j] < n {
        IncrementCheck(e.delta);
        var d := Wrap(e.delta + 1);
        if d < 0 {
          if Moderate(s) {
            FollowsFacts(s, e, n, j, tr);
          }
          return Err, e, tr;
        }
        PassOver(prefix, s, e, n, j, tr);
        e := e.(delta := d);
      } else if s[j] > n {
        PassOver(prefix, s, e, n, j, tr);
      } else {
        var out := EmitDelta(e.output, e.delta, e.bias);
        if out.None? {
          if Moderate(s) {
            FollowsFacts(s, e, n, j, tr);
          }
          return Panic, e, tr;
        }
        var bias := Adapt(e.delta, e.h + 1, e.h == b);
        RemainingHere(prefix, s, e, n, j, tr);
        InsertHere(prefix, s, e, n, j, tr);
        tr := Trace(tr.basic, tr.digits + Digits(e.delta, BASE, e.bias), Rank(s, n, j) + 1, n);
        e := State(out.value, 0, bias, e.h + 1, e.remaining - 1);
      }
      j := j + 1;
    }
    assert s[..j] == s;
  }

  lemma ShapeFacts(prefix: Text, s: Text, e: State, n: nat, j: nat, tr: Trace)
    requires j <= |s| && Shape(prefix, s, e, n, j, tr)
    ensures e.h <= |s| && e.bias < 216 && -0x8000_0000 <= e.delta <= MAX_INT32 && |tr.basic| <= e.h
  {
  }

  lemma FollowsFacts(s: Text, e: State, n: nat, j: nat, tr: Trace)
    requires j <= |s| && Follows(s, e, n, j, tr)
    ensures 0 <= e.delta
  {
  }

  lemma RemainingHere(prefix: Text, s: Text, e: State, n: nat, j: nat, tr: Trace)
    requires j < |s| && s[j] == n && Shape(prefix, s, e, n, j, tr)
    ensures e.remaining > 0 && e.h + 1 <= |s|
  {
    RankBound(s, n, j);
  }

  lemma IncrementCheck(d: int)
    requires -0x8000_0000 <= d <= MAX_INT32
    ensures Wrap(d + 1) == if d < MAX_INT32 then d + 1 else -0x8000_0000
  {
  }

  // The smallest code point of s that is at least n.
  method NextCodePoint(s: Text, n: nat) returns (m: int)
    requires exists k :: 0 <= k < |s| && s[k] >= n
    ensures m in s && m >= n && forall k :: 0 <= k < |s| ==> s[k] < n || s[k] >= m
  {
    m := MAX_INT32;
    for j := 0 to |s|
      invariant forall k :: 0 <= k < j ==> s[k] < n || s[k] >= m
      invariant m == MAX_INT32 || (m in s[..j] && m >= n)
      invariant m == MAX_INT32 ==> forall k :: 0 <= k < j ==> s[k] < n
    {
      if m > s[j] && s[j] >= n {
        m := s[j];
      }
    }
  }

  // madd on 32-bit numbers of any sign.
  method MAddSigned(a: int, b: nat, c: nat) returns (r: Option<int>)
    requires -0x8000_0000 <= a <= MAX_INT32
    ensures r.Some? ==> -0x8000_0000 <= r.value <= MAX_INT32
    ensures a >= 0 ==> r == if a + b * c <= MAX_INT32 then Some(a + b * c) else None
  {
    var p := b * c;
    NotNegative(b, c);
    if p > MAX_INT32 - a {
      return None;
    }
    if a >= 0 {
      WrapSmall(p);
      WrapSmall(a + p);
    }
    return Some(Wrap(a + Wrap(p)));
  }

  // Moving on to code point m: delta grows by all the places in between.
  lemma MoveOn(prefix: Text, s: Text, e: State, n: nat, m: Rune, tr: Trace, delta: int)
    requires n <= m && Shape(prefix, s, e, n, 0, tr) && -0x8000_0000 <= delta <= MAX_INT32
    requires forall k :: 0 <= k < |s| ==> s[k] < n || s[k] >= m
    ensures Shape(prefix, s, e.(delta := delta), m, 0, tr)
    ensures Follows(s, e, n, 0, tr) && delta == e.delta + (m - n) * (e.h + 1) ==>
              Follows(s, e.(delta := delta), m, 0, tr)
  {
    hide Kept, Gap, Reaches, Rank, Body, AllDigits;
    KeptSame(s, n, m);
    RankZero(s, n);
    RankZero(s, m);
    if tr.nd <= n {
      GapFacts(n, m, tr.nd, e.h);
    }
  }

  lemma RankZero(s: Text, n: int)
    ensures Rank(s, n, 0) == 0
  {
  }

  lemma MoveFits(s: Text, e: State, n: nat, m: Rune, tr: Trace)
    requires n <= m && Moderate(s) && e.h <= |s| && Follows(s, e, n, 0, tr)
    ensures 0 <= e.delta + (m - n) * (e.h + 1) <= MAX_INT32
  {
    hide Kept, Gap, Reaches, Rank, Body;
    RankZero(s, n);
    GapFacts(n, m, tr.nd, e.h);
  }

  // The end of a pass: the places left at this code point, and the next one.
  lemma EndPass(prefix: Text, s: Text, e: State, n: Rune, tr: Trace, delta: int)
    requires Shape(prefix, s, e, n, |s|, tr) && -0x8000_0000 <= delta <= MAX_INT32
    ensures Shape(prefix, s, e.(delta := delta), n + 1, 0, tr)
    ensures Follows(s, e, n, |s|, tr) && delta == e.delta + 1 ==> Follows(s, e.(delta := delta), n + 1, 0, tr)
  {
    hide Kept, Gap, Reaches, Body, AllDigits, Rank;
    KeptNext(s, n, n + 1);
    RankZero(s, n + 1);
    RankAll(s, n);
    if tr.nd <= n {
      GapFacts(n, n, tr.nd, e.h);
    }
  }

  lemma RankAll(s: Text, n: int)
    ensures Rank(s, n, |s|) == |Kept(s, n, |s|)|
  {
    assert s[..|s|] == s;
  }

  // Where the encoder and the decoder start.
  lemma Start(prefix: Text, s: Text, b: Text)
    requires b == Kept(s, INITIAL_N, 0)
    ensures var e, tr := State(prefix + Head(b), 0, INITIAL_BIAS, |b|, |s| - |b|), Trace(b, [], 0, INITIAL_N);
            Shape(prefix, s, e, INITIAL_N, 0, tr) && Follows(s, e, INITIAL_N, 0, tr)
  {
    hide Kept, Insert;
    RankZero(s, INITIAL_N);
    assert Head(b) + [] == Head(b);
  }

  // The basic code points of s, in order.
  method CopyBasic(unicode16: bool, prefix: Text, s: Text) returns (output: Option<Text>, b: nat, remaining: nat)
    ensures output.None? <==> unicode16 && 0xfffd in s
    ensures output.Some? ==> output.value == prefix + Kept(s, INITIAL_N, 0)
    ensures output.Some? ==> b == |Kept(s, INITIAL_N, 0)| && remaining == |s| - b
  {
    hide Kept;
    var out := prefix;
    b, remaining := 0, 0;
    KeptNone(INITIAL_N);
    assert s[..0] == [];
    for j := 0 to |s|
      invariant out == prefix + Kept(s[..j], INITIAL_N, 0)
      invariant b == |Kept(s[..j], INITIAL_N, 0)| && remaining == j - b
      invariant !(unicode16 && 0xfffd in s[..j])
    {
      assert s[..j + 1][..j] == s[..j];
      KeptLast(s[..j + 1], INITIAL_N, 0);
      if unicode16 && s[j] == 0xfffd {
        return None, b, remaining;
      }
      if s[j] < 0x80 {
        b := b + 1;
        out := out + [s[j]];
      } else {
        remaining := remaining + 1;
      }
    }
    assert s[..|s|] == s;
    output := Some(out);
  }

  lemma KeptNone(n: int)
    ensures Kept([], n, 0) == []
  {
  }

  // No code point of a text is a surrogate.
  predicate IsText(s: Text) {
    forall k :: 0 <= k < |s| ==> !(0xd800 <= s[k] <= 0xdfff)
  }

  predicate AllBasic(s: Text) {
    forall k :: 0 <= k < |s| ==> s[k] < INITIAL_N
  }

  // ---------------------------------------------------------------- decoding the result

  lemma DigitsHaveNoDash(tr: Trace)
    requires AllDigits(tr.digits) && forall k :: 0 <= k < |tr.basic| ==> tr.basic[k] < INITIAL_N
    ensures LastDash(Body(tr)) == |Head(tr.basic)| - 1
  {
    var body := Body(tr);
    var h := |Head(tr.basic)|;
    assert forall k :: h <= k < |body| ==> body[k] == tr.digits[k - h];
    assert tr.basic != [] ==> body[h - 1] == DASH;
  }

  lemma TextUnchanged(s: Text)
    requires IsText(s)
    ensures ToText(Ok(s)) == Ok(s)
  {
  }

  // A finished body decodes to what the decoder has built.
  lemma DecodesTo(tr: Trace, i: nat, n: nat, bias: nat, out: Text)
    requires AllDigits(tr.digits) && forall k :: 0 <= k < |tr.basic| ==> tr.basic[k] < INITIAL_N
    requires tr.digits != []
    requires Reaches(Body(tr), |Head(tr.basic)|, tr.basic, i, n, bias, out)
    ensures Decode(Body(tr)) == ToText(Ok(out))
  {
    hide Insert, LastDash;
    var body := Body(tr);
    DigitsHaveNoDash(tr);
    assert body + [] == body;
    InsertDone(body, |body|, i, n, bias, out);
    assert tr.basic != [] ==> body[..|Head(tr.basic)| - 1] == tr.basic;
    assert Insert(body + [], |Head(tr.basic)|, 0, INITIAL_N, INITIAL_BIAS, tr.basic) == Ok(out);
  }

  lemma BasicDecodes(tr: Trace)
    requires tr.digits == [] && forall k :: 0 <= k < |tr.basic| ==> tr.basic[k] < INITIAL_N
    ensures Decode(Body(tr)) == Ok(tr.basic)
  {
    hide Insert, LastDash;
    DigitsHaveNoDash(tr);
    var body := Body(tr);
    assert tr.basic != [] ==> body[..|body| - 1] == tr.basic;
  }

  // No more than 1024 code points are ever built from insertions.
  lemma {:induction false} InsertLimit(e: Text, pos: nat, i: nat, n: nat, bias: nat, out: Text)
    requires pos < |e| && i <= MAX_INT32
    ensures var r := Insert(e, pos, i, n, bias, out); r.Ok? ==> |r.value| <= 1024
    decreases |e| - pos
  {
    hide ReadDelta, Bias, Advance, InsertAt;
    if ReadDelta(e, pos, BASE, i, 1, bias).Some? {
      var (i', pos') := ReadDelta(e, pos, BASE, i, 1, bias).value;
      var (over, at) := Advance(i', |out| + 1);
      if |out| < 1024 && n + over <= MAX_RUNE && pos' < |e| {
        InsertLimit(e, pos', at + 1, n + over, Bias(i' - i, |out| + 1, i == 0), InsertAt(out, at, n + over));
      }
    }
  }

  lemma LongNotDecoded(tr: Trace, s: Text)
    requires AllDigits(tr.digits) && forall k :: 0 <= k < |tr.basic| ==> tr.basic[k] < INITIAL_N
    requires tr.digits != [] && |s| > MAX_DECODED
    ensures Decode(Body(tr)) != Ok(s)
  {
    hide Insert, LastDash;
    var body := Body(tr);
    DigitsHaveNoDash(tr);
    InsertLimit(body, |Head(tr.basic)|, 0, INITIAL_N, INITIAL_BIAS, if tr.basic == [] then [] else body[..|Head(tr.basic)| - 1]);
  }

  lemma Finished(prefix: Text, s: Text, e: State, n: nat, tr: Trace)
    requires IsText(s) && Shape(prefix, s, e, n, 0, tr) && e.remaining == 0
    requires Moderate(s) ==> Follows(s, e, n, 0, tr)
    requires tr.digits == [] <==> AllBasic(s)
    ensures e.output == prefix + Body(tr) && Body(tr) == Head(Kept(s, INITIAL_N, 0)) + tr.digits && AllDigits(tr.digits)
    ensures Decode(Body(tr)) == Ok(s) <==> |s| <= MAX_DECODED || AllBasic(s)
  {
    hide Kept, Gap, Reaches, Decode, Rank;
    KeptAll(s, n, 0);
    KeptOfBasic(s);
    if tr.digits == [] {
      BasicDecodes(tr);
      KeptAllBasic(s, n);
    } else if |s| <= MAX_DECODED {
      DecodesTo(tr, tr.i, tr.nd, e.bias, s);
      TextUnchanged(s);
    } else {
      LongNotDecoded(tr, s);
    }
  }

  lemma {:induction false} KeptAllBasic(s: Text, n: nat)
    requires AllBasic(s)
    ensures Kept(s, INITIAL_N, 0) == s
  {
    if s != [] {
      KeptAllBasic(s[..|s| - 1], n);
    }
  }

  lemma NotAllBasic(s: Text)
    requires |Kept(s, INITIAL_N, 0)| < |s|
    ensures !AllBasic(s)
  {
    if AllBasic(s) {
      KeptAllBasic(s, 0);
    }
  }

  // One round of encode: move on to the next code point that occurs, and insert it everywhere.
  method Round(ghost prefix: Text, s: Text, n: nat, b: nat, e0: State, ghost tr0: Trace)
    returns (r: Result, n': nat, e: State, ghost tr: Trace)
    requires |s| < MAX_INT32 && b == |tr0.basic| && n <= MAX_RUNE + 1 && e0.remaining != 0
    requires Shape(prefix, s, e0, n, 0, tr0)
    requires Moderate(s) ==> Follows(s, e0, n, 0, tr0)
    ensures Moderate(s) ==> r.Ok?
    ensures r.Ok? ==>
              && n' <= MAX_RUNE + 1 && Shape(prefix, s, e, n', 0, tr) && tr.basic == tr0.basic
              && (Moderate(s) ==> Follows(s, e, n', 0, tr))
              && tr.digits != [] && e.remaining < e0.remaining
  {
    hide Kept, Gap, Reaches, Shape, Follows, Wrap;
    n', e, tr := n, e0, tr0;
    ShapeMore(prefix, s, e, n, 0, tr);
    var k := KeptMissing(s, n);
    var m := NextCodePoint(s, n);
    if Moderate(s) {
      MoveFits(s, e, n, m, tr);
      FollowsFacts(s, e, n, 0, tr);
    }
    var d := MAddSigned(e.delta, m - n, e.h + 1);
    if d.None? {
      return Err, n', e, tr;
    }
    MoveOn(prefix, s, e, n, m, tr, d.value);
    e := e.(delta := d.value);
    ghost var before := e;
    r, e, tr := Pass(prefix, s, m, b, e, tr);
    if !r.Ok? {
      return r, n', e, tr;
    }
    PassProgress(prefix, s, before, e, m, tr0, tr);
    ShapeMore(prefix, s, e, m, |s|, tr);
    if Moderate(s) {
      DeltaFits(s, e, m, |s|, tr);
      FollowsFacts(s, e, m, |s|, tr);
    }
    IncrementCheck(e.delta);
    EndPass(prefix, s, e, m, tr, Wrap(e.delta + 1));
    e := e.(delta := Wrap(e.delta + 1));
    n' := m + 1;
  }

  // encode: for texts of up to 1926 code points it succeeds. What follows the prefix decodes to
  // the text exactly if that has at most 1024 code points, or is all basic.
  method Encode(unicode16: bool, prefix: Text, s: Text) returns (r: Result)
    requires IsText(s) && |s| < MAX_INT32
    ensures unicode16 && 0xfffd in s ==> r == Err
    ensures !(unicode16 && 0xfffd in s) && |s| <= MAX_SAFE ==> r.Ok?
    ensures r.Ok? ==> prefix <= r.value
    ensures r.Ok? ==> exists ds :: AllDigits(ds) && r.value == prefix + (Head(Kept(s, INITIAL_N, 0)) + ds)
    ensures r.Ok? ==> (Decode(r.value[|prefix|..]) == Ok(s) <==> |s| <= MAX_DECODED || AllBasic(s))
  {
    hide Kept, Gap, Reaches, Shape, Follows, Decode, Wrap, Body;
    var output, b, remaining := CopyBasic(unicode16, prefix, s);
    if output.None? {
      return Err;
    }
    ghost var basic := Kept(s, INITIAL_N, 0);
    var out := if b > 0 then output.value + [DASH] else output.value;
    assert out == prefix + Head(basic);
    var e := State(out, 0, INITIAL_BIAS, b, remaining);
    ghost var tr := Trace(basic, [], 0, INITIAL_N);
    Start(prefix, s, basic);
    var n: nat := INITIAL_N;
    BasicOrNot(s);
    while e.remaining != 0
      invariant n <= MAX_RUNE + 1 && Shape(prefix, s, e, n, 0, tr) && tr.basic == basic
      invariant Moderate(s) ==> Follows(s, e, n, 0, tr)
      invariant AllBasic(s) <==> tr.digits == [] && e.remaining == 0
      decreases e.remaining
    {
      r, n, e, tr := Round(prefix, s, n, b, e, tr);
      if !r.Ok? {
        return r;
      }
    }
    Finished(prefix, s, e, n, tr);
    assert e.output[|prefix|..] == Body(tr);
    r := Ok(e.output);
  }

  // A text that is encoded and does not decode: 1024 times an a, and U+0080.
  method LongTextLost() returns (s: Text, r: Result)
    ensures s == seq(1024, _ => 0x61) + [0x80]
    ensures r.Ok? && Decode(r.value) != Ok(s)
  {
    hide Decode, Kept;
    s := seq(1024, _ => 0x61) + [0x80];
    assert s[1024] == 0x80;
    r := Encode(false, [], s);
    assert r.value[0..] == r.value;
  }

  lemma BasicOrNot(s: Text)
    ensures AllBasic(s) <==> |Kept(s, INITIAL_N, 0)| == |s|
  {
    hide Kept;
    if |Kept(s, INITIAL_N, 0)| == |s| {
      KeptAll(s, INITIAL_N, 0);
      KeptOfBasic(s);
    } else {
      NotAllBasic(s);
    }
  }

  lemma ShapeMore(prefix: Text, s: Text, e: State, n: nat, j: nat, tr: Trace)
    requires j <= |s| && Shape(prefix, s, e, n, j, tr)
    ensures e.h == |Kept(s, n, j)| && e.remaining == |s| - e.h && |tr.basic| <= e.h <= |s|
    ensures -0x8000_0000 <= e.delta <= MAX_INT32
  {
  }

  // A pass over a code point that occurs inserts something.
  lemma PassProgress(prefix: Text, s: Text, e: State, e': State, m: nat, tr: Trace, tr': Trace)
    requires m in s && Shape(prefix, s, e, m, 0, tr) && Shape(prefix, s, e', m, |s|, tr')
    ensures e'.remaining < e.remaining
  {
    hide Kept;
    KeptMore(s, m, 0);
    var k :| 0 <= k < |s| && s[k] == m;
    KeptGrows(s, m, 0, |s|);
    KeptGrowsAt(s, m, k);
  }

  lemma KeptMore(s: Text, n: int, j: nat)
    requires j <= |s|
    ensures |Kept(s, n, j)| <= |s|
  {
  }

  lemma {:induction false} KeptGrows(s: Text, n: int, j: nat, j': nat)
    requires j <= j' <= |s|
    ensures |Kept(s, n, j)| <= |Kept(s, n, j')|
    decreases j' - j
  {
    hide Kept, InsertAt;
    if j < j' {
      KeptStep(s, n, j);
      KeptGrows(s, n, j + 1, j');
    }
  }

  lemma KeptGrowsAt(s: Text, n: int, k: nat)
    requires k < |s| && s[k] == n
    ensures |Kept(s, n, 0)| < |Kept(s, n, |s|)|
  {
    hide Kept, InsertAt;
    KeptGrows(s, n, 0, k);
    KeptStep(s, n, k);
    KeptGrows(s, n, k + 1, |s|);
  }
}
