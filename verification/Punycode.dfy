/**
 Punycode (RFC 3492) as coded by package idna: an encoder and a decoder that compute
 with int32 and adapt their digit thresholds to the deltas seen so far.

 A label is the sequence of code points that ranging over a Go string yields, and an
 encoded label is a sequence of code points too: every non-ASCII byte of an encoded
 string is refused by `decodeDigit`, whatever code point it belongs to.

 The specification (`Encoding`, `Decoding`) computes with unbounded integers.  The
 methods `Encode` and `Decode` compute with explicit int32 wrap-around.
 */
module Punycode {
  import opened Arithmetic
  import opened Basics

  const MAX_RUNE := 0x10_ffff
  const DASH := '-' as int
  /** math.MaxInt32 / base: the decoder gives up when a digit weight reaches it. */
  const WEIGHT_LIMIT := 59652323
  const INITIAL_BIAS := 72
  const INITIAL_N := 128
  const MAX_OUTPUT := 1024

  predicate IsScalar(r: int) {
    0 <= r <= MAX_RUNE && !(0xD800 <= r <= 0xDFFF)
  }

  predicate IsLabel(s: seq<int>) {
    forall j :: 0 <= j < |s| ==> IsScalar(s[j])
  }

  // ----- Digits, thresholds and bias (sections 5 and 6.1) ----------------------------

  function EncodeDigit(d: int): int
    requires 0 <= d < 36
  {
    if d < 26 then d + 'a' as int else d - 26 + '0' as int
  }

  function DecodeDigit(x: int): (d: Option<int>)
    ensures d.Some? ==> 0 <= d.value < 36
  {
    if '0' as int <= x <= '9' as int then Some(x - '0' as int + 26)
    else if 'A' as int <= x <= 'Z' as int then Some(x - 'A' as int)
    else if 'a' as int <= x <= 'z' as int then Some(x - 'a' as int)
    else None
  }

  function Threshold(k: int, bias: int): (t: int)
    ensures 1 <= t <= 26
  {
    if k - bias < 1 then 1 else if k - bias > 26 then 26 else k - bias
  }

  /** Bias adaptation: damp the delta (stage 2), add the per-point share (1), then scale down (0). */
  function AdaptStage(stage: nat, delta: nat, numPoints: nat, firstTime: bool, k: nat): nat
    requires numPoints > 0
    decreases stage, delta
  {
    if stage >= 2 then AdaptStage(1, if firstTime then delta / 700 else delta / 2, numPoints, firstTime, k)
    else if stage == 1 then AdaptStage(0, delta + Quotient(delta, numPoints), numPoints, firstTime, k)
    else if delta > 455 then AdaptStage(0, delta / 35, numPoints, firstTime, k + 36)
    else k + Quotient(36 * delta, delta + 38)
  }

  function Adapt(delta: nat, numPoints: nat, firstTime: bool): nat
    requires numPoints > 0
  {
    AdaptStage(2, delta, numPoints, firstTime, 0)
  }

  /** Bias adaptation in int32: no intermediate value wraps. */
  method AdaptInt32(delta: int, numPoints: int, firstTime: bool) returns (r: int)
    requires 0 <= delta <= MAX_INT32 && 1 <= numPoints <= MAX_INT32
    ensures r == Adapt(delta, numPoints, firstTime)
    ensures 0 <= r <= 252
  {
    var d := if firstTime then delta / 700 else delta / 2;
    assert Adapt(delta, numPoints, firstTime) == AdaptStage(1, d, numPoints, firstTime, 0);
    DivIsQuotient(d, numPoints);
    QuotientSplits(d, numPoints);
    AdaptBound(delta, numPoints, firstTime, 6);
    d := Wrap32(d + d / numPoints);
    var k := 0;
    while d > 455
      invariant 0 <= d <= MAX_INT32
      invariant 0 <= k && k + d <= MAX_INT32 + 1
      invariant AdaptStage(0, d, numPoints, firstTime, k) == Adapt(delta, numPoints, firstTime)
    {
      d := d / 35;
      k := Wrap32(k + 36);
    }
    DivIsQuotient(36 * d, d + 38);
    r := Wrap32(k + Wrap32(36 * d) / (d + 38));
  }

  /** 456 * 35^m */
  function AdaptLimit(m: nat): nat {
    if m == 0 then 456 else 35 * AdaptLimit(m - 1)
  }

  /** At most `m` divisions by 35 bring `delta` down to 455. */
  lemma {:induction false} ScaleBound(delta: nat, numPoints: nat, firstTime: bool, k: nat, m: nat)
    requires numPoints > 0 && delta < AdaptLimit(m)
    ensures AdaptStage(0, delta, numPoints, firstTime, k) <= k + 36 * m + 35
    decreases m
  {
    if delta > 455 {
      ScaleBound(delta / 35, numPoints, firstTime, k + 36, m - 1);
    } else {
      var q := Quotient(36 * delta, delta + 38);
      QuotientSplits(36 * delta, delta + 38);
      if q > 35 { TimesAtLeast(q, delta + 38, 36); }
    }
  }

  lemma AdaptBound(delta: nat, numPoints: nat, firstTime: bool, m: nat)
    requires numPoints > 0 && delta < AdaptLimit(m)
    ensures Adapt(delta, numPoints, firstTime) <= 36 * m + 35
  {
    var d := if firstTime then delta / 700 else delta / 2;
    QuotientSplits(d, numPoints);
    ScaleBound(d + Quotient(d, numPoints), numPoints, firstTime, 0, m);
    assert AdaptStage(1, d, numPoints, firstTime, 0)
        == AdaptStage(0, d + Quotient(d, numPoints), numPoints, firstTime, 0);
  }

  // ----- Generalized variable-length integers (section 3.3) --------------------------

  function VarInt(q: nat, k: nat, bias: nat): seq<int>
    decreases q
  {
    var t := Threshold(k, bias);
    if q < t then [EncodeDigit(q)]
    else
      QuotientSplits(q - t, 36 - t);
      [EncodeDigit(t + Remainder(q - t, 36 - t))] + VarInt(Quotient(q - t, 36 - t), k + 36, bias)
  }

  /** Reads one integer with the decoder's guards: the value so far, then the weight. */
  function ReadVarInt(e: seq<int>, i: nat, w: nat, k: nat, bias: nat): (r: Option<(nat, seq<int>)>)
    ensures r.Some? ==> |r.value.1| < |e| && i <= r.value.0 <= MAX_INT32
  {
    if e == [] then None
    else match DecodeDigit(e[0])
      case None => None
      case Some(digit) =>
        var i' := i + Times(digit, w);
        var t := Threshold(k, bias);
        if i' > MAX_INT32 then None
        else if digit < t then Some((i', e[1..]))
        else if Times(36 - t, w) >= WEIGHT_LIMIT then None
        else ReadVarInt(e[1..], i', Times(36 - t, w), k + 36, bias)
  }

  /** The weight guard lets the integer `q` through. */
  predicate WeightFits(q: nat, w: nat, k: nat, bias: nat)
    decreases q
  {
    var t := Threshold(k, bias);
    if q < t then true
    else
      QuotientSplits(q - t, 36 - t);
      && Times(36 - t, w) < WEIGHT_LIMIT
      && WeightFits(Quotient(q - t, 36 - t), Times(36 - t, w), k + 36, bias)
  }

  lemma SplitProduct(q: nat, w: nat, c: nat, digit: nat, q': nat)
    requires q == digit + Times(q', c)
    ensures Times(q, w) == Times(digit, w) + Times(q', Times(c, w))
  {
    TimesAdds(digit, Times(q', c), w);
    TimesAssociates(q', c, w);
  }

  lemma DigitRoundTrip(d: int)
    requires 0 <= d < 36
    ensures DecodeDigit(EncodeDigit(d)) == Some(d)
  {
  }

  /** Writing `q` writes one digit and goes on with a smaller integer of greater weight. */
  lemma WrittenStep(q: nat, w: nat, k: nat, bias: nat) returns (digit: nat, q': nat, w': nat)
    requires q >= Threshold(k, bias)
    ensures q' < q && Threshold(k, bias) <= digit < 36 && w' == Times(36 - Threshold(k, bias), w)
    ensures Times(q, w) == Times(digit, w) + Times(q', w')
    ensures VarInt(q, k, bias) == [EncodeDigit(digit)] + VarInt(q', k + 36, bias)
    ensures WeightFits(q, w, k, bias) <==> w' < WEIGHT_LIMIT && WeightFits(q', w', k + 36, bias)
  {
    var t := Threshold(k, bias);
    QuotientSplits(q - t, 36 - t);
    digit, q', w' := t + Remainder(q - t, 36 - t), Quotient(q - t, 36 - t), Times(36 - t, w);
    SplitProduct(q, w, 36 - t, digit, q');
  }

  /** Reading what `VarInt` wrote yields the integer exactly when both guards let it pass. */
  lemma {:induction false} ReadWritten(q: nat, i: nat, w: nat, k: nat, bias: nat, rest: seq<int>)
    ensures ReadVarInt(VarInt(q, k, bias) + rest, i, w, k, bias)
         == if WeightFits(q, w, k, bias) && i + Times(q, w) <= MAX_INT32
            then Some((i + Times(q, w), rest)) else None
    decreases q
  {
    var e := VarInt(q, k, bias) + rest;
    if q < Threshold(k, bias) {
      DigitRoundTrip(q);
      assert e[1..] == rest;
    } else {
      var digit, q', w' := WrittenStep(q, w, k, bias);
      DigitRoundTrip(digit);
      ReadWritten(q', i + Times(digit, w), w', k + 36, bias, rest);
      assert e[1..] == VarInt(q', k + 36, bias) + rest;
    }
  }

  // ----- The decoder (section 6.2) --------------------------------------------------

  function LastDash(e: seq<int>): (p: int)
    ensures -1 <= p < |e|
    ensures p >= 0 ==> e[p] == DASH
    ensures forall j :: p < j < |e| ==> e[j] != DASH
  {
    if e == [] then -1 else if e[|e| - 1] == DASH then |e| - 1 else LastDash(e[..|e| - 1])
  }

  /** Go's string(runes): a surrogate becomes the replacement character. */
  function Text(out: seq<int>): seq<int> {
    seq(|out|, j requires 0 <= j < |out| => if IsScalar(out[j]) then out[j] else 0xFFFD)
  }

  function Insert(out: seq<int>, j: int, r: int): seq<int>
    requires 0 <= j <= |out|
  {
    out[..j] + [r] + out[j..]
  }

  function DecodeFrom(e: seq<int>, i: nat, n: int, bias: nat, out: seq<int>): Result<seq<int>>
    decreases |e|
  {
    if e == [] then Ok(Text(out))
    else match ReadVarInt(e, i, 1, 36, bias)
      case None => Err
      case Some((i', rest)) =>
        var x := |out| + 1;
        QuotientSplits(i', x);
        var n', j := n + Quotient(i', x), Remainder(i', x);
        if n' > MAX_RUNE || |out| >= MAX_OUTPUT then Err
        else DecodeFrom(rest, j + 1, n', Adapt(i' - i, x, i == 0), Insert(out, j, n'))
  }

  function Decoding(e: seq<int>): Result<seq<int>> {
    if e == [] then Ok([])
    else
      var pos := 1 + LastDash(e);
      if pos == 1 then Err
      else if pos == |e| then Ok(e[..|e| - 1])
      else DecodeFrom(e[pos..], 0, INITIAL_N, INITIAL_BIAS, if pos == 0 then [] else e[..pos - 1])
  }

  /**
   The int32 decoder computes `Decoding`: every sum and product either has its
   mathematical value or leads to an error, and every insertion index is in range.
   */
  method Decode(e: seq<int>) returns (r: Result<seq<int>>)
    requires |e| < MAX_INT32
    ensures r == Decoding(e)
  {
    if e == [] { return Ok([]); }
    var pos := 1 + LastDash(e);
    if pos == 1 { return Err; }
    if pos == |e| { return Ok(e[..|e| - 1]); }
    var output := if pos == 0 then [] else e[..pos - 1];
    var i, n, bias := 0, INITIAL_N, INITIAL_BIAS;
    while pos < |e|
      invariant 0 <= pos <= |e| && |output| <= pos
      invariant 0 <= i <= |output| && INITIAL_N <= n <= MAX_RUNE && 0 <= bias <= 252
      invariant output == [] ==> n == INITIAL_N
      invariant Decoding(e) == DecodeFrom(e[pos..], i, n, bias, output)
    {
      var ok;
      ok, pos, i, n, bias, output := DecodeRound(e, pos, i, n, bias, output);
      if !ok { return Err; }
    }
    assert e[pos..] == [];
    r := Ok(Text(output));
  }

  /** The body of the decoder's outer loop: read one delta and insert one code point. */
  method DecodeRound(e: seq<int>, pos: nat, i: nat, n: nat, bias: nat, output: seq<int>)
    returns (ok: bool, pos': nat, i': nat, n': nat, bias': nat, output': seq<int>)
    requires pos < |e| < MAX_INT32 && |output| <= pos
    requires i <= |output| && INITIAL_N <= n <= MAX_RUNE && bias <= 252
    requires output == [] ==> n == INITIAL_N
    ensures !ok ==> DecodeFrom(e[pos..], i, n, bias, output) == Err
    ensures ok ==> pos < pos' <= |e| && |output'| == |output| + 1 && 1 <= i' <= |output'|
    ensures ok ==> n <= n' <= MAX_RUNE && bias' <= 252
    ensures ok ==> DecodeFrom(e[pos..], i, n, bias, output) == DecodeFrom(e[pos'..], i', n', bias', output')
  {
    i', n', bias', output' := i, n, bias, output;
    var read;
    ok, read, pos' := DecodeVarInt(e, pos, i, bias);
    if !ok {
      DecodeRefused(e[pos..], i, n, bias, output);
      return;
    }
    var x := Wrap32(|output| + 1);
    bias' := AdaptInt32(Wrap32(read - i), x, i == 0);
    n', i' := Advance(e, pos, pos', i, read, n, bias, output);
    if n' > MAX_RUNE || |output| >= MAX_OUTPUT {
      return false, pos', i', n', bias', output;
    }
    output' := Insert(output, i', n');
    i' := i' + 1;
  }

  lemma DecodeRefused(e: seq<int>, i: nat, n: nat, bias: nat, out: seq<int>)
    requires e != [] && ReadVarInt(e, i, 1, 36, bias) == None
    ensures DecodeFrom(e, i, n, bias, out) == Err
  {
  }

  /** The unguarded sum n + i / x does not wrap. */
  method Advance(ghost e: seq<int>, ghost pos: nat, ghost pos': nat, ghost oldI: nat, i: nat, n: nat,
                 ghost bias: nat, out: seq<int>)
    returns (n': nat, j: nat)
    requires pos < pos' <= |e| && oldI <= i <= MAX_INT32 && n <= MAX_RUNE && |out| < MAX_INT32
    requires out == [] ==> n + i <= MAX_INT32
    requires ReadVarInt(e[pos..], oldI, 1, 36, bias) == Some((i, e[pos'..]))
    ensures n <= n' && j <= |out|
    ensures DecodeFrom(e[pos..], oldI, n, bias, out) ==
      if n' > MAX_RUNE || |out| >= MAX_OUTPUT then Err
      else DecodeFrom(e[pos'..], j + 1, n', Adapt(i - oldI, |out| + 1, oldI == 0), Insert(out, j, n'))
  {
    var x := Wrap32(|out| + 1);
    DivIsQuotient(i, x);
    QuotientSplits(i, x);
    n' := Wrap32(n + i / x);
    j := i % x;
    DecodeStep(e[pos..], e[pos'..], oldI, i, n, bias, out, n', j);
  }

  lemma DecodeStep(e: seq<int>, rest: seq<int>, i: nat, i': nat, n: nat, bias: nat, out: seq<int>, n': nat, j: nat)
    requires i <= i' && j <= |out|
    requires n' == n + Quotient(i', |out| + 1) && j == Remainder(i', |out| + 1)
    requires ReadVarInt(e, i, 1, 36, bias) == Some((i', rest))
    ensures DecodeFrom(e, i, n, bias, out) ==
      if n' > MAX_RUNE || |out| >= MAX_OUTPUT then Err
      else DecodeFrom(rest, j + 1, n', Adapt(i' - i, |out| + 1, i == 0), Insert(out, j, n'))
  {
  }

  /** The digit loop.  A value read from zero stays far enough below 2^31 to be added to n. */
  method DecodeVarInt(e: seq<int>, start: nat, i0: nat, bias: nat) returns (ok: bool, i: int, pos: nat)
    requires start < |e|
    requires i0 <= MAX_INT32 && bias <= 252
    ensures ok <==> ReadVarInt(e[start..], i0, 1, 36, bias).Some?
    ensures start <= pos && (ok ==> start < pos <= |e| && i0 <= i <= MAX_INT32)
    ensures ok ==> ReadVarInt(e[start..], i0, 1, 36, bias) == Some((i, e[pos..]))
    ensures ok && i0 == 0 ==> i <= MAX_INT32 - INITIAL_N
  {
    var w, k := 1, 36;
    i, pos := i0, start;
    assert e[start..] == e[pos..];
    while true
      invariant start <= pos <= |e|
      invariant i0 <= i <= MAX_INT32
      invariant 1 <= w < WEIGHT_LIMIT && 0 < k
      invariant i0 == 0 ==> 9 * i <= 35 * (w - 1)
      invariant ReadVarInt(e[start..], i0, 1, 36, bias) == ReadVarInt(e[pos..], i, w, k, bias)
      decreases |e| - pos
    {
      if pos == |e| { return false, i, pos; }
      var done;
      ok, done, i, w := ReadDigit(e, pos, i, w, k, bias);
      pos := pos + 1;
      if done { return; }
      k := k + 36;
    }
  }

  /** One turn of that loop: the integer is refused, or at its end, or goes on with a greater weight. */
  method ReadDigit(e: seq<int>, pos: nat, i: nat, w: nat, k: nat, bias: nat) returns (ok: bool, done: bool, i': int, w': nat)
    requires pos < |e| && i <= MAX_INT32 && w < WEIGHT_LIMIT
    ensures !ok ==> done && ReadVarInt(e[pos..], i, w, k, bias).None?
    ensures ok ==> i <= i' <= MAX_INT32
    ensures ok && done ==> ReadVarInt(e[pos..], i, w, k, bias) == Some((i', e[pos + 1..])) && i' <= i + 25 * w
    ensures !done ==> 10 * w <= w' < WEIGHT_LIMIT && i' <= i + 35 * w
    ensures !done ==> ReadVarInt(e[pos..], i, w, k, bias) == ReadVarInt(e[pos + 1..], i', w', k + 36, bias)
  {
    var d := DecodeDigit(e[pos]);
    if d.None? { return false, true, i, w; }
    var digit, t := d.value, Threshold(k, bias);
    ReadStep(e, pos, i, w, k, bias, digit);
    i' := Accumulate(i, digit, w);
    if i' < 0 { return false, true, i', w; }
    if digit < t { return true, true, i', w; }
    w' := NextWeight(w, t);
    if w' >= WEIGHT_LIMIT { return false, true, i', w'; }
    return true, false, i', w';
  }

  lemma ReadStep(e: seq<int>, pos: nat, i: nat, w: nat, k: nat, bias: nat, digit: nat)
    requires pos < |e| && DecodeDigit(e[pos]) == Some(digit)
    ensures ReadVarInt(e[pos..], i, w, k, bias) ==
      var t := Threshold(k, bias);
      if i + Times(digit, w) > MAX_INT32 then None
      else if digit < t then Some((i + Times(digit, w), e[pos + 1..]))
      else if Times(36 - t, w) >= WEIGHT_LIMIT then None
      else ReadVarInt(e[pos + 1..], i + Times(digit, w), Times(36 - t, w), k + 36, bias)
  {
    assert e[pos..][0] == e[pos] && e[pos..][1..] == e[pos + 1..];
  }

  /** i += digit * w: the product does not wrap, and a sum that does is negative. */
  method Accumulate(i: nat, digit: nat, w: nat) returns (i': int)
    requires i <= MAX_INT32 && digit < 36 && w < WEIGHT_LIMIT
    ensures i + Times(digit, w) <= MAX_INT32 ==> i' == i + Times(digit, w)
    ensures i + Times(digit, w) > MAX_INT32 ==> i' < 0
    ensures Times(digit, w) <= 35 * w && (digit < 26 ==> Times(digit, w) <= 25 * w)
  {
    TimesIsProduct(digit, w);
    TimesAtMost(digit, w, 35, w);
    if digit < 26 { TimesAtMost(digit, w, 25, w); }
    i' := Wrap32(i + Wrap32(digit * w));
  }

  /** w *= base - t does not wrap. */
  method NextWeight(w: nat, t: nat) returns (w': nat)
    requires w < WEIGHT_LIMIT && 1 <= t <= 26
    ensures w' == Times(36 - t, w) && 10 * w <= w' <= 35 * w
  {
    var c := 36 - t;
    TimesIsProduct(c, w);
    TimesAtMost(c, w, 35, w);
    TimesAtLeast(c, w, 10);
    w' := Wrap32(w * c);
  }

  // ----- The encoder (section 6.3) --------------------------------------------------

  /** What the decoder holds once every (code point, position) pair below (n, p) is in. */
  function Selected(s: seq<int>, n: int, p: int): seq<int> {
    if s == [] then []
    else
      var k := |s| - 1;
      Selected(s[..k], n, p) + if Keep(s[k], k, n, p) then [s[k]] else []
  }

  predicate Keep(r: int, k: int, n: int, p: int) {
    r < n || (r == n && k < p)
  }

  /** The least code point of `s` that is at least `n`; 0x7fffffff when there is none. */
  function LeastFrom(s: seq<int>, n: int): int {
    if s == [] then MAX_INT32
    else
      var m := LeastFrom(s[..|s| - 1], n);
      var r := s[|s| - 1];
      if m > r && r >= n then r else m
  }

  predicate AnyFrom(s: seq<int>, n: int) {
    exists j :: 0 <= j < |s| && s[j] >= n
  }

  lemma {:induction false} LeastFromIsLeast(s: seq<int>, n: int)
    requires IsLabel(s)
    ensures AnyFrom(s, n) ==> LeastFrom(s, n) in s && n <= LeastFrom(s, n) <= MAX_RUNE
    ensures !AnyFrom(s, n) ==> LeastFrom(s, n) == MAX_INT32
    ensures forall j :: 0 <= j < |s| && n <= s[j] ==> LeastFrom(s, n) <= s[j]
  {
    if s != [] {
      var s' := s[..|s| - 1];
      LeastFromIsLeast(s', n);
      assert forall j :: 0 <= j < |s| ==> s[j] == if j < |s'| then s'[j] else s[|s| - 1];
      assert AnyFrom(s, n) <==> AnyFrom(s', n) || s[|s| - 1] >= n;
      assert forall x :: x in s' ==> x in s;
    }
  }

  /** The deltas still to be written, in the middle of the pass for code point `n`. */
  function Deltas(s: seq<int>, n: nat, p: nat, delta: nat, h: nat): seq<nat>
    requires IsLabel(s) && n <= MAX_RUNE && p <= |s|
    decreases MAX_RUNE + 1 - n, |s| - p
  {
    if p == |s| then NextDeltas(s, n + 1, delta + 1, h)
    else if s[p] < n then Deltas(s, n, p + 1, delta + 1, h)
    else if s[p] > n then Deltas(s, n, p + 1, delta, h)
    else [delta] + Deltas(s, n, p + 1, 0, h + 1)
  }

  /** The deltas still to be written, before a pass over the code points from `n` up. */
  function NextDeltas(s: seq<int>, n: nat, delta: nat, h: nat): seq<nat>
    requires IsLabel(s) && n <= MAX_RUNE + 1
    decreases MAX_RUNE + 1 - n, |s| + 1
  {
    if !AnyFrom(s, n) then []
    else
      LeastFromIsLeast(s, n);
      var m := LeastFrom(s, n);
      Deltas(s, m, 0, delta + Times(m - n, h + 1), h)
  }

  function Render(ds: seq<nat>, bias: nat, h: nat, firstTime: bool): seq<int> {
    if ds == [] then []
    else VarInt(ds[0], 36, bias) + Render(ds[1..], Adapt(ds[0], h + 1, firstTime), h + 1, false)
  }

  function Basic(s: seq<int>): seq<int> {
    Selected(s, INITIAL_N, 0)
  }

  function AllDeltas(s: seq<int>): seq<nat>
    requires IsLabel(s)
  {
    NextDeltas(s, INITIAL_N, 0, |Basic(s)|)
  }

  /** The ASCII code points, the delimiter, and deltas for the others. */
  function Written(b: seq<int>, ds: seq<nat>): seq<int> {
    b + (if b != [] then [DASH] else []) + Render(ds, INITIAL_BIAS, |b|, true)
  }

  function Encoding(s: seq<int>): seq<int>
    requires IsLabel(s)
  {
    Written(Basic(s), AllDeltas(s))
  }

  // ----- Facts about the decoder's intermediate labels --------------------------------

  lemma {:induction false} SelectedSame(s: seq<int>, n: int, p: int, n': int, p': int)
    requires forall j :: 0 <= j < |s| ==> (Keep(s[j], j, n, p) <==> Keep(s[j], j, n', p'))
    ensures Selected(s, n, p) == Selected(s, n', p')
  {
    if s != [] {
      SelectedSame(s[..|s| - 1], n, p, n', p');
    }
  }

  lemma {:induction false} SelectedAll(s: seq<int>, n: int, p: int)
    ensures |Selected(s, n, p)| <= |s|
    ensures |Selected(s, n, p)| == |s| <==> forall j :: 0 <= j < |s| ==> Keep(s[j], j, n, p)
    ensures |Selected(s, n, p)| == |s| ==> Selected(s, n, p) == s
  {
    if s != [] {
      var k := |s| - 1;
      SelectedAll(s[..k], n, p);
      assert s == s[..k] + [s[k]];
      assert (forall j :: 0 <= j < |s| ==> Keep(s[j], j, n, p)) <==>
             (forall j :: 0 <= j < k ==> Keep(s[..k][j], j, n, p)) && Keep(s[k], k, n, p);
    }
  }

  /** Where the code point at position `p` goes: after the selected part of what precedes it. */
  function Slot(s: seq<int>, n: int, p: nat): nat
    requires p <= |s|
  {
    |Selected(s[..p], n, p)|
  }

  lemma {:induction false} SlotInRange(s: seq<int>, n: int, p: nat)
    requires p <= |s|
    ensures Slot(s, n, p) <= |Selected(s, n, p)|
  {
    if |s| == p {
      assert s[..p] == s;
    } else {
      SlotInRange(s[..|s| - 1], n, p);
      assert s[..|s| - 1][..p] == s[..p];
    }
  }

  lemma SlotStep(s: seq<int>, n: int, p: nat)
    requires p < |s|
    ensures Slot(s, n, p + 1) == Slot(s, n, p) + if s[p] <= n then 1 else 0
  {
    assert s[..p + 1][..p] == s[..p];
    SelectedSame(s[..p], n, p, n, p + 1);
  }

  /** Passing position `p` adds its code point to the selection exactly when it equals `n`. */
  lemma SelectedInsert(s: seq<int>, n: int, p: nat)
    requires p < |s|
    ensures Slot(s, n, p) <= |Selected(s, n, p)|
    ensures Selected(s, n, p + 1) ==
      if s[p] == n then Insert(Selected(s, n, p), Slot(s, n, p), n) else Selected(s, n, p)
  {
    SlotInRange(s, n, p);
    if s[p] == n {
      SelectedInsertFrom(s, n, p);
    } else {
      SelectedSame(s, n, p, n, p + 1);
    }
  }

  lemma {:induction false} SelectedInsertFrom(s: seq<int>, n: int, p: nat)
    requires p < |s| && s[p] == n
    ensures var before := Selected(s[..p], n, p);
      before <= Selected(s, n, p)
      && Selected(s, n, p + 1) == before + [n] + Selected(s, n, p)[|before|..]
  {
    var k, s' := |s| - 1, s[..|s| - 1];
    var before := Selected(s[..p], n, p);
    if k == p {
      SelectedSame(s', n, p, n, p + 1);
      assert Selected(s, n, p) == before;
    } else {
      SelectedInsertFrom(s', n, p);
      assert s'[..p] == s[..p];
      AppendToParts(before, n, Selected(s', n, p), if Keep(s[k], k, n, p) then [s[k]] else []);
    }
  }

  lemma AppendToParts(before: seq<int>, r: int, all: seq<int>, tail: seq<int>)
    requires before <= all
    ensures before <= all + tail
    ensures before + [r] + (all + tail)[|before|..] == (before + [r] + all[|before|..]) + tail
  {
  }

  /** After the pass for `n`, the selection is the one before the pass for the next code point. */
  lemma SelectedNextPass(s: seq<int>, n: int, m: int)
    requires n < m && forall j :: 0 <= j < |s| && n < s[j] ==> m <= s[j]
    ensures Selected(s, n, |s|) == Selected(s, m, 0)
  {
    SelectedSame(s, n, |s|, m, 0);
  }

  /** The encoder has come to position `p` of the pass for `n`, after `h` code points. */
  ghost predicate At(s: seq<int>, n: nat, p: nat, h: nat) {
    IsLabel(s) && p <= |s| && INITIAL_N <= n <= MAX_RUNE && h == |Selected(s, n, p)|
  }

  lemma AtStep(s: seq<int>, n: nat, p: nat, h: nat)
    requires p < |s| && At(s, n, p, h)
    ensures if s[p] == n then h < |s| && At(s, n, p + 1, h + 1) else At(s, n, p + 1, h)
  {
    SelectedInsert(s, n, p);
    if s[p] == n {
      SelectedAll(s, n, p);
      assert !Keep(s[p], p, n, p);
    }
  }

  lemma AtEnd(s: seq<int>, n: nat, h: nat)
    requires At(s, n, |s|, h)
    ensures h == |Selected(s, n + 1, 0)| && h <= |s|
  {
    SelectedNextPass(s, n, n + 1);
    SelectedAll(s, n, |s|);
  }

  lemma AtNext(s: seq<int>, n: nat, h: nat)
    requires IsLabel(s) && INITIAL_N <= n && AnyFrom(s, n) && h == |Selected(s, n, 0)|
    ensures n <= LeastFrom(s, n) <= MAX_RUNE && h < |s| && At(s, LeastFrom(s, n), 0, h)
  {
    LeastFromIsLeast(s, n);
    SelectedAll(s, n, 0);
    SelectedSame(s, n, 0, LeastFrom(s, n), 0);
  }

  /** One delta for every code point that is still missing. */
  lemma {:induction false} DeltasCount(s: seq<int>, n: nat, p: nat, delta: nat, h: nat)
    requires At(s, n, p, h)
    ensures |Deltas(s, n, p, delta, h)| == |s| - h
    decreases MAX_RUNE + 1 - n, |s| - p
  {
    if p == |s| {
      AtEnd(s, n, h);
      NextDeltasCount(s, n + 1, delta + 1, h);
    } else {
      AtStep(s, n, p, h);
      if s[p] < n {
        DeltasCount(s, n, p + 1, delta + 1, h);
      } else if s[p] > n {
        DeltasCount(s, n, p + 1, delta, h);
      } else {
        DeltasCount(s, n, p + 1, 0, h + 1);
      }
    }
  }

  lemma {:induction false} NextDeltasCount(s: seq<int>, n: nat, delta: nat, h: nat)
    requires IsLabel(s) && INITIAL_N <= n <= MAX_RUNE + 1 && h == |Selected(s, n, 0)|
    ensures |NextDeltas(s, n, delta, h)| == |s| - h
    decreases MAX_RUNE + 1 - n, |s| + 1
  {
    if AnyFrom(s, n) {
      AtNext(s, n, h);
      DeltasCount(s, LeastFrom(s, n), 0, delta + Times(LeastFrom(s, n) - n, h + 1), h);
    } else {
      SelectedAll(s, n, 0);
    }
  }

  // ----- Decoding what was encoded ----------------------------------------------------

  /** The decoder on a sequence of deltas instead of their digits. */
  function Insertions(ds: seq<nat>, i: nat, n: nat, out: seq<int>): Result<seq<int>> {
    if ds == [] then Ok(Text(out))
    else
      var x, i' := |out| + 1, i + ds[0];
      QuotientSplits(i', x);
      var n', j := n + Quotient(i', x), Remainder(i', x);
      if i' > MAX_INT32 || n' > MAX_RUNE || |out| >= MAX_OUTPUT then Err
      else Insertions(ds[1..], j + 1, n', Insert(out, j, n'))
  }

  /** Every delta passes the decoder's weight guard under the bias it meets. */
  predicate Fits(ds: seq<nat>, bias: nat, h: nat, firstTime: bool) {
    ds != [] ==>
      && WeightFits(ds[0], 1, 36, bias)
      && Fits(ds[1..], Adapt(ds[0], h + 1, firstTime), h + 1, false)
  }

  /** Decoding one integer that is read if it fits: refused by a guard, or one insertion. */
  lemma DecodeOne(e: seq<int>, rest: seq<int>, fits: bool, d: nat, i: nat, n: nat, bias: nat, out: seq<int>) returns (n': nat, j: nat)
    requires e != [] && ReadVarInt(e, i, 1, 36, bias) == if fits && i + d <= MAX_INT32 then Some((i + d, rest)) else None
    ensures n' == n + Quotient(i + d, |out| + 1) && j == Remainder(i + d, |out| + 1) && j <= |out|
    ensures DecodeFrom(e, i, n, bias, out) ==
      if !fits || i + d > MAX_INT32 || n' > MAX_RUNE || |out| >= MAX_OUTPUT then Err
      else DecodeFrom(rest, j + 1, n', Adapt(d, |out| + 1, i == 0), Insert(out, j, n'))
  {
    QuotientSplits(i + d, |out| + 1);
    n', j := n + Quotient(i + d, |out| + 1), Remainder(i + d, |out| + 1);
    if fits && i + d <= MAX_INT32 { DecodeStep(e, rest, i, i + d, n, bias, out, n', j); }
  }

  lemma DecodeWritten(d: nat, rest: seq<int>, i: nat, n: nat, bias: nat, out: seq<int>) returns (n': nat, j: nat)
    ensures n' == n + Quotient(i + d, |out| + 1) && j == Remainder(i + d, |out| + 1) && j <= |out|
    ensures DecodeFrom(VarInt(d, 36, bias) + rest, i, n, bias, out) ==
      if !WeightFits(d, 1, 36, bias) || i + d > MAX_INT32 || n' > MAX_RUNE || |out| >= MAX_OUTPUT then Err
      else DecodeFrom(rest, j + 1, n', Adapt(d, |out| + 1, i == 0), Insert(out, j, n'))
  {
    ReadWritten(d, i, 1, 36, bias, rest);
    TimesIsProduct(d, 1);
    n', j := DecodeOne(VarInt(d, 36, bias) + rest, rest, WeightFits(d, 1, 36, bias), d, i, n, bias, out);
  }

  lemma RenderedFirst(ds: seq<nat>, i: nat, n: nat, bias: nat, out: seq<int>) returns (n': nat, j: nat)
    requires ds != []
    ensures n' == n + Quotient(i + ds[0], |out| + 1) && j == Remainder(i + ds[0], |out| + 1) && j <= |out|
    ensures DecodeFrom(Render(ds, bias, |out|, i == 0), i, n, bias, out) ==
      if !WeightFits(ds[0], 1, 36, bias) || i + ds[0] > MAX_INT32 || n' > MAX_RUNE || |out| >= MAX_OUTPUT then Err
      else DecodeFrom(Render(ds[1..], Adapt(ds[0], |out| + 1, i == 0), |out| + 1, false), j + 1, n', Adapt(ds[0], |out| + 1, i == 0), Insert(out, j, n'))
  {
    n', j := DecodeWritten(ds[0], Render(ds[1..], Adapt(ds[0], |out| + 1, i == 0), |out| + 1, false), i, n, bias, out);
  }

  lemma InsertionsFirst(ds: seq<nat>, i: nat, n: nat, out: seq<int>, n': nat, j: nat)
    requires ds != [] && n' == n + Quotient(i + ds[0], |out| + 1) && j == Remainder(i + ds[0], |out| + 1) && j <= |out|
    ensures Insertions(ds, i, n, out) ==
      if i + ds[0] > MAX_INT32 || n' > MAX_RUNE || |out| >= MAX_OUTPUT then Err else Insertions(ds[1..], j + 1, n', Insert(out, j, n'))
  {
  }

  lemma FitsFirst(ds: seq<nat>, bias: nat, h: nat, firstTime: bool)
    requires ds != []
    ensures Fits(ds, bias, h, firstTime) <==>
      WeightFits(ds[0], 1, 36, bias) && Fits(ds[1..], Adapt(ds[0], h + 1, firstTime), h + 1, false)
  {
  }

  /** Decoding rendered deltas replays them, exactly when the weight guard lets them all pass. */
  lemma {:induction false} DecodeRendered(ds: seq<nat>, i: nat, n: nat, bias: nat, out: seq<int>, firstTime: bool)
    requires firstTime == (i == 0)
    ensures DecodeFrom(Render(ds, bias, |out|, firstTime), i, n, bias, out)
         == if Fits(ds, bias, |out|, firstTime) then Insertions(ds, i, n, out) else Err
  {
    if ds != [] {
      var n', j := RenderedFirst(ds, i, n, bias, out);
      var next := Insert(out, j, n');
      InsertionsFirst(ds, i, n, out, n', j);
      FitsFirst(ds, bias, |out|, firstTime);
      DecodeRendered(ds[1..], j + 1, n', Adapt(ds[0], |out| + 1, firstTime), next, false);
      assert |next| == |out| + 1;
    }
  }

  lemma InsertionsCons(d: nat, ds: seq<nat>, i: nat, n: nat, out: seq<int>, n': nat, j: nat)
    requires n <= n' <= MAX_RUNE && j <= |out| && i + d <= MAX_INT32
    requires i + d == Times(n' - n, |out| + 1) + j
    ensures Insertions([d] + ds, i, n, out) ==
      if |out| >= MAX_OUTPUT then Err else Insertions(ds, j + 1, n', Insert(out, j, n'))
  {
    QuotientOfTimes(n' - n, |out| + 1, j);
    assert ([d] + ds)[1..] == ds;
  }

  /** More deltas than the output has room for are refused. */
  lemma {:induction false} TooManyDeltas(ds: seq<nat>, i: nat, n: nat, out: seq<int>)
    requires |ds| > 0 && |out| + |ds| > MAX_OUTPUT
    ensures Insertions(ds, i, n, out) == Err
  {
    var x, i' := |out| + 1, i + ds[0];
    QuotientSplits(i', x);
    if |out| < MAX_OUTPUT {
      TooManyDeltas(ds[1..], Remainder(i', x) + 1, n + Quotient(i', x), Insert(out, Remainder(i', x), n + Quotient(i', x)));
    }
  }

  /** With all deltas read, or more than there is room for, nothing has to be replayed. */
  lemma ReplayLong(s: seq<int>, ds: seq<nat>, i: nat, n: nat, out: seq<int>)
    requires IsLabel(s) && |s| > MAX_OUTPUT && |ds| == |s| - |out| && (|out| == |s| ==> out == s)
    ensures Insertions(ds, i, n, out) == if ds == [] then Ok(s) else Err
  {
    if ds == [] { assert Text(s) == s; } else { TooManyDeltas(ds, i, n, out); }
  }

  /** Up to this many code points, every delta that `encode` counts fits an int32. */
  const MAX_LABEL := 1926

  /** Up to this many, one that does not fit wraps to a negative number. */
  const MAX_CAUGHT := 3855

  lemma StepBound(h: nat, n: nat, from: nat, length: nat)
    requires INITIAL_N <= from <= n <= MAX_RUNE && h < length
    ensures h + Times(n - from, h + 1) < 1113984 * length
  {
    TimesAtMost(n - from, h + 1, 1113983, h + 1);
  }

  /**
   The invariant between encoder and decoder.  The encoder is at position `p` of the pass
   for `n` with `delta` counted; the decoder has the state (nd, i) and the label selected so far.
   */
  ghost predicate InStep(s: seq<int>, n: nat, p: nat, delta: nat, h: nat, i: nat, nd: nat) {
    && IsLabel(s) && p <= |s| && INITIAL_N <= nd <= n <= MAX_RUNE
    && h == |Selected(s, n, p)|
    && i + delta == Slot(s, n, p) + Times(n - nd, h + 1)
  }

  lemma InStepNextPass(s: seq<int>, n: nat, delta: nat, h: nat, i: nat, nd: nat)
    requires InStep(s, n, |s|, delta, h, i, nd)
    ensures i + delta + 1 == Times(n + 1 - nd, h + 1)
    ensures forall j :: 0 <= j < |s| && n < s[j] ==> AnyFrom(s, n + 1)
  {
    assert s[..|s|] == s;
  }

  /** Replaying the remaining deltas on the selected part completes the label. */
  lemma {:induction false} Replay(s: seq<int>, n: nat, p: nat, delta: nat, h: nat, i: nat, nd: nat)
    requires InStep(s, n, p, delta, h, i, nd)
    ensures var ds := Deltas(s, n, p, delta, h);
      Insertions(ds, i, nd, Selected(s, n, p)) == if |s| <= MAX_OUTPUT || ds == [] then Ok(s) else Err
    decreases MAX_RUNE + 1 - n, |s| - p
  {
    if |s| > MAX_OUTPUT {
      DeltasCount(s, n, p, delta, h);
      SelectedAll(s, n, p);
      ReplayLong(s, Deltas(s, n, p, delta, h), i, nd, Selected(s, n, p));
    } else if p == |s| {
      InStepNextPass(s, n, delta, h, i, nd);
      SelectedNextPass(s, n, n + 1);
      ReplayNext(s, n + 1, delta + 1, h, i, nd);
    } else {
      SlotStep(s, n, p);
      SelectedInsert(s, n, p);
      if s[p] < n {
        Replay(s, n, p + 1, delta + 1, h, i, nd);
      } else if s[p] > n {
        Replay(s, n, p + 1, delta, h, i, nd);
      } else {
        ReplayEmit(s, n, p, delta, h, i, nd);
        Replay(s, n, p + 1, 0, h + 1, Slot(s, n, p) + 1, n);
      }
    }
  }

  lemma EmitInStep(s: seq<int>, n: nat, p: nat, delta: nat, h: nat, i: nat, nd: nat)
    requires InStep(s, n, p, delta, h, i, nd) && p < |s| && s[p] == n
    ensures InStep(s, n, p + 1, 0, h + 1, Slot(s, n, p) + 1, n) && h < |s|
  {
    SlotStep(s, n, p);
    SelectedInsert(s, n, p);
    SelectedAll(s, n, p);
    assert !Keep(s[p], p, n, p);
  }

  /** At an occurrence of `n` the decoder inserts it in its slot, and the invariant holds again. */
  lemma ReplayEmit(s: seq<int>, n: nat, p: nat, delta: nat, h: nat, i: nat, nd: nat)
    requires |s| <= MAX_OUTPUT && InStep(s, n, p, delta, h, i, nd) && p < |s| && s[p] == n
    ensures InStep(s, n, p + 1, 0, h + 1, Slot(s, n, p) + 1, n)
    ensures Insertions(Deltas(s, n, p, delta, h), i, nd, Selected(s, n, p)) ==
      if h >= MAX_OUTPUT then Err
      else Insertions(Deltas(s, n, p + 1, 0, h + 1), Slot(s, n, p) + 1, n, Selected(s, n, p + 1))
  {
    EmitInStep(s, n, p, delta, h, i, nd);
    SelectedInsert(s, n, p);
    StepBound(h, n, nd, |s|);
    InsertionsCons(delta, Deltas(s, n, p + 1, 0, h + 1), i, nd, Selected(s, n, p), n, Slot(s, n, p));
  }

  lemma {:induction false} ReplayNext(s: seq<int>, n: nat, delta: nat, h: nat, i: nat, nd: nat)
    requires IsLabel(s) && INITIAL_N <= nd <= n <= MAX_RUNE + 1
    requires h == |Selected(s, n, 0)| && i + delta == Times(n - nd, h + 1)
    ensures var ds := NextDeltas(s, n, delta, h);
      Insertions(ds, i, nd, Selected(s, n, 0)) == if |s| <= MAX_OUTPUT || ds == [] then Ok(s) else Err
    decreases MAX_RUNE + 1 - n, |s| + 1
  {
    if AnyFrom(s, n) {
      LeastFromIsLeast(s, n);
      var m := LeastFrom(s, n);
      SelectedSame(s, n, 0, m, 0);
      TimesAdds(n - nd, m - n, h + 1);
      assert s[..0] == [];
      Replay(s, m, 0, delta + Times(m - n, h + 1), h, i, nd);
    } else {
      SelectedAll(s, n, 0);
      assert Text(s) == s;
    }
  }

  lemma {:induction false} VarIntHasNoDash(q: nat, k: nat, bias: nat)
    ensures DASH !in VarInt(q, k, bias)
    decreases q
  {
    if q >= Threshold(k, bias) {
      var digit, q', w' := WrittenStep(q, 1, k, bias);
      VarIntHasNoDash(q', k + 36, bias);
    }
  }

  lemma {:induction false} RenderHasNoDash(ds: seq<nat>, bias: nat, h: nat, firstTime: bool)
    ensures DASH !in Render(ds, bias, h, firstTime)
    ensures ds != [] ==> Render(ds, bias, h, firstTime) != []
  {
    if ds != [] {
      VarIntHasNoDash(ds[0], 36, bias);
      RenderHasNoDash(ds[1..], Adapt(ds[0], h + 1, firstTime), h + 1, false);
    }
  }

  /** The decoder splits an encoding at the delimiter that the encoder wrote. */
  lemma DecodingSplits(b: seq<int>, digits: seq<int>)
    requires DASH !in digits && b + digits != []
    ensures Decoding(b + (if b != [] then [DASH] else []) + digits) ==
      if digits == [] then Ok(b) else DecodeFrom(digits, 0, INITIAL_N, INITIAL_BIAS, b)
  {
    var e := b + (if b != [] then [DASH] else []) + digits;
    assert e[|e| - |digits|..] == digits;
    var last := LastDash(e);
    if b == [] {
      assert last == -1;
    } else {
      assert e[|b|] == DASH;
      assert forall j :: |b| < j < |e| ==> e[j] in digits;
      assert last == |b|;
      assert e[..|b|] == b;
    }
  }

  lemma DecodingWritten(b: seq<int>, ds: seq<nat>)
    ensures Decoding(Written(b, ds)) ==
      if ds == [] then Ok(b) else if Fits(ds, INITIAL_BIAS, |b|, true) then Insertions(ds, 0, INITIAL_N, b) else Err
  {
    var digits := Render(ds, INITIAL_BIAS, |b|, true);
    RenderHasNoDash(ds, INITIAL_BIAS, |b|, true);
    if b == [] && ds == [] {
      assert Written(b, ds) == [];
    } else {
      assert |b + digits| == |b| + |digits|;
      DecodingSplits(b, digits);
      DecodeRendered(ds, 0, INITIAL_N, INITIAL_BIAS, b, true);
    }
  }

  /** Whatever deltas are written for a label that is too long, `decode` refuses them. */
  lemma LongRefused(b: seq<int>, ds: seq<nat>)
    requires ds != [] && |b| + |ds| > MAX_OUTPUT
    ensures Decoding(Written(b, ds)) == Err
  {
    DecodingWritten(b, ds);
    TooManyDeltas(ds, 0, INITIAL_N, b);
  }

  /**
   The round trip, exactly, for every label: `decode` of the encoding is the label itself if the
   label is pure ASCII, or has at most 1024 code points and only deltas within the weight guard;
   otherwise `decode` refuses it.
   */
  lemma RoundTrip(s: seq<int>)
    requires IsLabel(s)
    ensures Decoding(Encoding(s)) ==
      if !AnyFrom(s, 128)
         || (|s| <= 1024 && Fits(AllDeltas(s), INITIAL_BIAS, |Basic(s)|, true))
      then Ok(s) else Err
  {
    var b, ds := Basic(s), AllDeltas(s);
    SelectedAll(s, INITIAL_N, 0);
    NextDeltasCount(s, INITIAL_N, 0, |b|);
    ReplayNext(s, INITIAL_N, 0, |b|, 0, INITIAL_N);
    DecodingWritten(b, ds);
  }

  /** The same of what `Encode` returns, also where its deltas may have wrapped: the label or a refusal, never another label. */
  lemma WrittenComesBack(s: seq<int>, ds: seq<nat>)
    requires IsLabel(s) && |ds| == |s| - |Basic(s)| && (|s| <= MAX_LABEL ==> ds == AllDeltas(s))
    ensures Decoding(Written(Basic(s), ds)) ==
      if !AnyFrom(s, 128)
         || (|s| <= 1024 && Fits(AllDeltas(s), INITIAL_BIAS, |Basic(s)|, true))
      then Ok(s) else Err
  {
    SelectedAll(s, INITIAL_N, 0);
    if |s| <= MAX_LABEL {
      RoundTrip(s);
    } else if ds == [] {
      DecodingWritten(Basic(s), ds);
    } else {
      LongRefused(Basic(s), ds);
    }
  }

  // ----- Every short label passes the guard -------------------------------------------

  ghost predicate Counted(s: seq<int>, n: nat, p: nat, delta: nat, h: nat) {
    At(s, n, p, h) && delta <= Slot(s, n, p) + Times(n - INITIAL_N, h + 1)
  }

  /** One position of the encoder's inner loop keeps the bound on delta. */
  lemma CountedStep(s: seq<int>, n: nat, p: nat, delta: nat, h: nat)
    requires p < |s| && Counted(s, n, p, delta, h)
    ensures s[p] < n ==> Counted(s, n, p + 1, delta + 1, h)
    ensures s[p] > n ==> Counted(s, n, p + 1, delta, h)
    ensures s[p] == n ==> h < |s| && Counted(s, n, p + 1, 0, h + 1)
    ensures s[p] == n ==> delta < 1113984 * |s|
  {
    SlotStep(s, n, p);
    SelectedInsert(s, n, p);
    if s[p] == n {
      SelectedAll(s, n, p);
      assert !Keep(s[p], p, n, p);
      StepBound(h, n, INITIAL_N, |s|);
    }
  }

  /** Moving on to the next code point `m` keeps the bound too. */
  lemma CountedNext(s: seq<int>, n: nat, delta: nat, h: nat)
    requires IsLabel(s) && INITIAL_N <= n && AnyFrom(s, n)
    requires h == |Selected(s, n, 0)| && delta <= Times(n - INITIAL_N, h + 1)
    ensures var m := LeastFrom(s, n);
      n <= m <= MAX_RUNE && h < |s| && Counted(s, m, 0, delta + Times(m - n, h + 1), h)
  {
    LeastFromIsLeast(s, n);
    var m := LeastFrom(s, n);
    SelectedAll(s, n, 0);
    SelectedSame(s, n, 0, m, 0);
    TimesAdds(n - INITIAL_N, m - n, h + 1);
    assert s[..0] == [];
  }

  lemma CountedEnd(s: seq<int>, n: nat, delta: nat, h: nat)
    requires Counted(s, n, |s|, delta, h)
    ensures h == |Selected(s, n + 1, 0)| && delta + 1 <= Times(n + 1 - INITIAL_N, h + 1)
  {
    assert s[..|s|] == s;
    SelectedNextPass(s, n, n + 1);
  }

  lemma {:induction false} DeltasBounded(s: seq<int>, n: nat, p: nat, delta: nat, h: nat)
    requires Counted(s, n, p, delta, h)
    ensures forall d :: d in Deltas(s, n, p, delta, h) ==> d < 1113984 * |s|
    decreases MAX_RUNE + 1 - n, |s| - p
  {
    if p == |s| {
      CountedEnd(s, n, delta, h);
      NextDeltasBounded(s, n + 1, delta + 1, h);
    } else {
      CountedStep(s, n, p, delta, h);
      if s[p] < n {
        DeltasBounded(s, n, p + 1, delta + 1, h);
      } else if s[p] > n {
        DeltasBounded(s, n, p + 1, delta, h);
      } else {
        DeltasBounded(s, n, p + 1, 0, h + 1);
      }
    }
  }

  lemma {:induction false} NextDeltasBounded(s: seq<int>, n: nat, delta: nat, h: nat)
    requires IsLabel(s) && INITIAL_N <= n <= MAX_RUNE + 1
    requires h == |Selected(s, n, 0)| && delta <= Times(n - INITIAL_N, h + 1)
    ensures forall d :: d in NextDeltas(s, n, delta, h) ==> d < 1113984 * |s|
    decreases MAX_RUNE + 1 - n, |s| + 1
  {
    if AnyFrom(s, n) {
      CountedNext(s, n, delta, h);
      var m := LeastFrom(s, n);
      DeltasBounded(s, m, 0, delta + Times(m - n, h + 1), h);
    }
  }

  function Pow35(j: nat): nat {
    if j == 0 then 1 else 35 * Pow35(j - 1)
  }

  /** 26 * ceil(WEIGHT_LIMIT / 10): no smaller integer meets the weight guard. */
  const SAFE_DELTA := 155096058

  lemma {:induction false} SmallFits(q: nat, w: nat, j: nat, bias: nat)
    requires Times(q, w) < SAFE_DELTA && bias <= 190
    requires j <= 5 ==> w <= Pow35(j)
    ensures WeightFits(q, w, 36 * (j + 1), bias)
    decreases q
  {
    var k := 36 * (j + 1);
    var t := Threshold(k, bias);
    if q >= t {
      var digit, q', w' := WrittenStep(q, w, k, bias);
      TimesAtMost(36 - t, w, 35, w);
      if t < 26 {
        assert j in {0, 1, 2, 3, 4};
        assert Pow35(j + 1) <= Pow35(5) == 52521875;
      } else {
        TimesIsProduct(10, w);
        TimesAtLeast(q, w, 26);
      }
      SmallFits(q', w', j + 1, bias);
    }
  }

  lemma {:induction false} SmallDeltasFit(ds: seq<nat>, bias: nat, h: nat, firstTime: bool)
    requires bias <= 190 && forall d :: d in ds ==> d < SAFE_DELTA
    ensures Fits(ds, bias, h, firstTime)
  {
    if ds != [] {
      assert ds[0] in ds && forall d :: d in ds[1..] ==> d in ds;
      TimesIsProduct(ds[0], 1);
      SmallFits(ds[0], 1, 0, bias);
      AdaptBound(ds[0], h + 1, firstTime, 4);
      SmallDeltasFit(ds[1..], Adapt(ds[0], h + 1, firstTime), h + 1, false);
    }
  }

  /** Every label of at most 139 code points survives the round trip; a DNS label has at most 63. */
  lemma ShortRoundTrip(s: seq<int>)
    requires IsLabel(s) && |s| <= 139
    ensures Decoding(Encoding(s)) == Ok(s)
  {
    NextDeltasBounded(s, INITIAL_N, 0, |Basic(s)|);
    SmallDeltasFit(AllDeltas(s), INITIAL_BIAS, |Basic(s)|, true);
    RoundTrip(s);
  }

  // ----- A family of labels that decode refuses ---------------------------------------

  /** k letters 'a' followed by U+10FFFF. */
  function LongLabel(k: nat): seq<int> {
    seq(k, j => 'a' as int) + [MAX_RUNE]
  }

  lemma {:induction false} LongLabelScan(k: nat, p: nat, delta: nat)
    requires p <= k
    ensures IsLabel(LongLabel(k))
    ensures Deltas(LongLabel(k), MAX_RUNE, p, delta, k) == [delta + (k - p)]
    decreases k - p
  {
    var s := LongLabel(k);
    if p < k {
      LongLabelScan(k, p + 1, delta + 1);
    } else {
      assert Deltas(s, MAX_RUNE, k, delta, k) == [delta] + Deltas(s, MAX_RUNE, k + 1, 0, k + 1);
      assert Deltas(s, MAX_RUNE, k + 1, 0, k + 1) == NextDeltas(s, MAX_RUNE + 1, 1, k + 1);
    }
  }

  lemma {:induction false} BasicOfLongLabel(k: nat, p: nat)
    requires p <= k
    ensures |Selected(LongLabel(k)[..p], INITIAL_N, 0)| == p
  {
    if p > 0 {
      BasicOfLongLabel(k, p - 1);
      assert LongLabel(k)[..p][..p - 1] == LongLabel(k)[..p - 1];
    }
  }

  lemma LongLabelDeltas(k: nat)
    ensures IsLabel(LongLabel(k)) && AnyFrom(LongLabel(k), INITIAL_N) && |Basic(LongLabel(k))| == k
    ensures AllDeltas(LongLabel(k)) == [1113983 * (k + 1) + k]
  {
    var s := LongLabel(k);
    assert s[k] == MAX_RUNE && s[..|s| - 1] == s[..k];
    BasicOfLongLabel(k, k);
    LeastFromIsLeast(s, INITIAL_N);
    TimesIsProduct(1113983, k + 1);
    LongLabelScan(k, 0, Times(1113983, k + 1));
  }

  lemma UnfitStep(q: nat, w: nat, k: nat, w': nat)
    requires q >= Threshold(k, INITIAL_BIAS) && w' == (36 - Threshold(k, INITIAL_BIAS)) * w
    ensures var t := Threshold(k, INITIAL_BIAS);
      0 <= (q - t) / (36 - t) && (WeightFits(q, w, k, INITIAL_BIAS) ==>
        w' < WEIGHT_LIMIT && WeightFits((q - t) / (36 - t), w', k + 36, INITIAL_BIAS))
  {
    var t := Threshold(k, INITIAL_BIAS);
    DivIsQuotient(q - t, 36 - t);
    TimesIsProduct(36 - t, w);
  }

  lemma LargeUnfitTail(q4: nat)
    requires q4 >= 2886
    ensures !WeightFits(q4, 122500, 180, INITIAL_BIAS)
  {
    UnfitStep(q4, 122500, 180, 1225000);
    UnfitStep((q4 - 26) / 10, 1225000, 216, 12250000);
    UnfitStep(((q4 - 26) / 10 - 26) / 10, 12250000, 252, 122500000);
  }

  lemma LargeUnfitMiddle(q2: nat)
    requires q2 >= 288886
    ensures !WeightFits(q2, 1225, 108, INITIAL_BIAS)
  {
    UnfitStep(q2, 1225, 108, 12250);
    UnfitStep((q2 - 26) / 10, 12250, 144, 122500);
    LargeUnfitTail(((q2 - 26) / 10 - 26) / 10);
  }

  /** Under the initial bias the weight guard refuses every delta from 353885386 on. */
  lemma LargeUnfit(q: nat)
    requires q >= 353885386
    ensures !WeightFits(q, 1, 36, INITIAL_BIAS)
  {
    UnfitStep(q, 1, 36, 35);
    UnfitStep((q - 1) / 35, 35, 72, 1225);
    LargeUnfitMiddle(((q - 1) / 35 - 1) / 35);
  }

  /** The round trip is not a theorem for all labels: 317 letters and one rune already fail. */
  lemma LongLabelRefused(k: nat)
    requires 317 <= k
    ensures IsLabel(LongLabel(k)) && Decoding(Encoding(LongLabel(k))) == Err
  {
    var s := LongLabel(k);
    LongLabelDeltas(k);
    LargeUnfit(AllDeltas(s)[0]);
    RoundTrip(s);
  }

  /** One code point more than `MAX_CAUGHT`: a delta that does not fit, and wraps to a number that is not negative. */
  lemma WrapIsMissed()
    ensures var s := LongLabel(MAX_CAUGHT);
      |s| == MAX_CAUGHT + 1 && IsLabel(s) && |AllDeltas(s)| == 1 && AllDeltas(s)[0] > MAX_INT32 && Wrap32(AllDeltas(s)[0]) >= 0
  {
    LongLabelDeltas(MAX_CAUGHT);
  }

  // ----- The encoder's loops ---------------------------------------------------------

  /** The bias after some deltas. */
  function BiasAfter(ds: seq<nat>, bias: nat, h: nat, firstTime: bool): nat {
    if ds == [] then bias else BiasAfter(ds[1..], Adapt(ds[0], h + 1, firstTime), h + 1, false)
  }

  lemma {:induction false} RenderSnoc(ds: seq<nat>, d: nat, bias: nat, h: nat, firstTime: bool)
    ensures Render(ds + [d], bias, h, firstTime) == Render(ds, bias, h, firstTime) + VarInt(d, 36, BiasAfter(ds, bias, h, firstTime))
    ensures BiasAfter(ds + [d], bias, h, firstTime) == Adapt(d, h + |ds| + 1, firstTime && ds == [])
  {
    if ds == [] {
      assert ds + [d] == [d] && [d][1..] == [];
      assert Render([], Adapt(d, h + 1, firstTime), h + 1, false) == [];
    } else {
      assert (ds + [d])[1..] == ds[1..] + [d];
      RenderSnoc(ds[1..], d, Adapt(ds[0], h + 1, firstTime), h + 1, false);
    }
  }

  /** What the encoder has put out: the deltas so far, `h` of the code points. */
  ghost predicate HasWritten(out: seq<int>, b: nat, ds: seq<nat>, output: seq<int>, bias: nat, h: nat) {
    && output == out + Render(ds, INITIAL_BIAS, b, true)
    && bias == BiasAfter(ds, INITIAL_BIAS, b, true) && bias <= 252 && h == b + |ds|
  }

  /** One delta is written, and the bias adapted. */
  method WriteDelta(ghost out: seq<int>, ghost ds: seq<nat>, output: seq<int>, delta: nat, bias: nat, h: nat, b: nat)
    returns (output': seq<int>, bias': nat)
    requires HasWritten(out, b, ds, output, bias, h) && delta <= MAX_INT32 && h < MAX_INT32
    ensures HasWritten(out, b, ds + [delta], output', bias', h + 1)
  {
    RenderSnoc(ds, delta, INITIAL_BIAS, b, true);
    output' := WriteVarInt(output, delta, bias);
    bias' := AdaptInt32(delta, Wrap32(h + 1), h == b);
    assert out + Render(ds, INITIAL_BIAS, b, true) + VarInt(delta, 36, bias) == out + (Render(ds, INITIAL_BIAS, b, true) + VarInt(delta, 36, bias));
  }

  /**
   The int32 encoder.  For every label of at most `MAX_LABEL` code points, and for every pure
   ASCII label, no sum wraps, no error is returned, and the result is `Encoding`.  Up to `MAX_CAUGHT`
   a delta that wraps is seen to be negative, and the result is `Encoding` or an error.  In a longer
   label it may wrap unseen: what is returned then has some delta for each code point.
   */
  method Encode(prefix: seq<int>, s: seq<int>) returns (r: Result<seq<int>>)
    requires IsLabel(s) && |s| < MAX_INT32
    ensures |s| <= MAX_LABEL || !AnyFrom(s, INITIAL_N) ==> r == Ok(prefix + Encoding(s))
    ensures |s| <= MAX_CAUGHT ==> r == Ok(prefix + Encoding(s)) || r == Err
    ensures r.Ok? ==> exists ds: seq<nat> :: |ds| == |s| - |Basic(s)| && r.value == prefix + Written(Basic(s), ds)
  {
    var output, b, remaining := ScanBasic(prefix, s);
    SelectedAll(s, INITIAL_N, 0);
    NextDeltasCount(s, INITIAL_N, 0, b);
    if b > 0 {
      output := output + [DASH];
    }
    ghost var ds;
    r, ds := EncodeDeltas(s, output, b, remaining);
    WrittenParts(prefix, Basic(s), output, ds);
  }

  lemma WrittenParts(prefix: seq<int>, b: seq<int>, output: seq<int>, ds: seq<nat>)
    requires output == prefix + b + if b != [] then [DASH] else []
    ensures output + Render(ds, INITIAL_BIAS, |b|, true) == prefix + Written(b, ds)
  {
  }

  /** The deltas so far are the first of those to be written, and delta is as counted, unless it may have wrapped unseen. */
  ghost predicate OnTrack(s: seq<int>, n: nat, p: nat, delta: nat, h: nat, ds: seq<nat>)
    requires At(s, n, p, h)
  {
    |s| <= MAX_CAUGHT ==>
      AllDeltas(s) == ds + Deltas(s, n, p, delta, h) && (h < |s| || |s| <= MAX_LABEL ==> Counted(s, n, p, delta, h))
  }

  /** The same between two passes, where `due` is what delta would be without wrapping. */
  ghost predicate NextOnTrack(s: seq<int>, n: nat, due: nat, h: nat, ds: seq<nat>)
    requires IsLabel(s) && INITIAL_N <= n <= MAX_RUNE + 1
  {
    |s| <= MAX_CAUGHT ==>
      AllDeltas(s) == ds + NextDeltas(s, n, due, h) && (h < |s| || |s| <= MAX_LABEL ==> due <= Times(n - INITIAL_N, h + 1))
  }

  lemma OnTrackStep(s: seq<int>, n: nat, p: nat, delta: nat, h: nat, ds: seq<nat>)
    requires p < |s| && At(s, n, p, h) && OnTrack(s, n, p, delta, h, ds)
    ensures |s| <= MAX_LABEL ==> delta + 1 < MAX_INT32
    ensures s[p] < n ==> At(s, n, p + 1, h) && OnTrack(s, n, p + 1, delta + 1, h, ds)
    ensures s[p] > n ==> At(s, n, p + 1, h) && OnTrack(s, n, p + 1, delta, h, ds)
    ensures s[p] == n ==> At(s, n, p + 1, h + 1) && OnTrack(s, n, p + 1, 0, h + 1, ds + [delta])
  {
    AtStep(s, n, p, h);
    SelectedAll(s, n, p);
    if |s| <= MAX_CAUGHT {
      if h < |s| || |s| <= MAX_LABEL { CountedStep(s, n, p, delta, h); }
      if |s| <= MAX_LABEL { CountedFits(s, n, p, delta, h); }
      if s[p] == n { Regrouped(ds, delta, Deltas(s, n, p + 1, 0, h + 1)); }
    }
  }

  lemma Regrouped(ds: seq<nat>, d: nat, more: seq<nat>)
    ensures ds + ([d] + more) == ds + [d] + more
  {
  }

  /** The loop over the non-ASCII code points, in increasing order. */
  method EncodeDeltas(s: seq<int>, out: seq<int>, b: nat, left: nat) returns (r: Result<seq<int>>, ghost ds: seq<nat>)
    requires IsLabel(s) && |s| < MAX_INT32 && b == |Basic(s)| && left == |s| - b
    ensures r.Ok? ==> |ds| == left && r.value == out + Render(ds, INITIAL_BIAS, b, true)
    ensures |s| <= MAX_LABEL ==> r.Ok?
    ensures r.Ok? && |s| <= MAX_CAUGHT ==> ds == AllDeltas(s)
    ensures left == 0 ==> r.Ok?
  {
    var output, h, remaining := out, b, left;
    var delta, n := 0, INITIAL_N;
    var bias: nat := INITIAL_BIAS;
    ghost var due := 0;
    ds := [];
    assert [] + AllDeltas(s) == AllDeltas(s) && out + [] == out;
    while remaining != 0
      invariant INITIAL_N <= n <= MAX_RUNE + 1 && remaining == |s| - h && h == |Selected(s, n, 0)| <= |s|
      invariant delta == Wrap32(due) && 0 <= due && NextOnTrack(s, n, due, h, ds)
      invariant HasWritten(out, b, ds, output, bias, h)
      decreases MAX_RUNE + 1 - n
    {
      SelectedAll(s, n, 0);
      assert AnyFrom(s, n);
      n, delta := NextPass(s, n, delta, h, ds, due);
      if delta < 0 { return Err, ds; }
      var ok;
      ok, output, delta, bias, h, remaining, ds := EncodePass(s, n, out, output, delta, bias, h, b, remaining, ds);
      if !ok { return Err, ds; }
      due := delta + 1;
      delta := Wrap32(delta + 1);
      n := Wrap32(n + 1);
    }
    NextDeltasDone(s, n, due, h, ds);
    r := Ok(output);
  }

  lemma NextDeltasDone(s: seq<int>, n: nat, due: nat, h: nat, ds: seq<nat>)
    requires IsLabel(s) && INITIAL_N <= n <= MAX_RUNE + 1 && h == |Selected(s, n, 0)| == |s| && NextOnTrack(s, n, due, h, ds)
    ensures |s| <= MAX_CAUGHT ==> ds == AllDeltas(s)
  {
    if |s| <= MAX_CAUGHT {
      NextDeltasCount(s, n, due, h);
      assert ds + [] == ds;
    }
  }

  /** The start of a pass: find the next code point and count the states skipped. */
  method NextPass(s: seq<int>, n: nat, delta: int, h: nat, ghost ds: seq<nat>, ghost due: nat) returns (m: int, delta': int)
    requires IsLabel(s) && |s| < MAX_INT32 && INITIAL_N <= n <= MAX_RUNE && AnyFrom(s, n) && h == |Selected(s, n, 0)|
    requires delta == Wrap32(due) && NextOnTrack(s, n, due, h, ds)
    ensures n <= m <= MAX_RUNE && delta' <= MAX_INT32 && h < |s| && At(s, m, 0, h)
    ensures |s| <= MAX_LABEL ==> 0 <= delta'
    ensures 0 <= delta' ==> OnTrack(s, m, 0, delta', h, ds)
  {
    m := ScanLeast(s, n);
    AtNext(s, n, h);
    delta' := Increase(delta, m - n, h + 1, due);
    if |s| <= MAX_CAUGHT { NextIsCaught(s, n, m, due, h); }
  }

  /** delta += a * b: the true sum, or negative, as long as that is below 2^32. */
  method Increase(delta: int, a: nat, b: nat, ghost due: nat) returns (sum: int)
    requires delta == Wrap32(due) && a <= MAX_INT32 && b <= MAX_INT32
    ensures sum <= MAX_INT32
    ensures due + Times(a, b) <= 2 * MAX_INT32 ==> if due + Times(a, b) <= MAX_INT32 then sum == due + Times(a, b) else sum < 0
  {
    TimesIsProduct(a, b);
    WrapAdds(due, a * b);
    sum := Wrap32(delta + Wrap32(Wrap32(a) * Wrap32(b)));
  }

  lemma NextIsCaught(s: seq<int>, n: nat, m: nat, due: nat, h: nat)
    requires IsLabel(s) && |s| <= MAX_CAUGHT && INITIAL_N <= n <= MAX_RUNE && AnyFrom(s, n) && m == LeastFrom(s, n) && n <= m <= MAX_RUNE
    requires h == |Selected(s, n, 0)| < |s| && due <= Times(n - INITIAL_N, h + 1)
    ensures Counted(s, m, 0, due + Times(m - n, h + 1), h) && due + Times(m - n, h + 1) <= 2 * MAX_INT32
    ensures |s| <= MAX_LABEL ==> due + Times(m - n, h + 1) <= MAX_INT32
  {
    var sum := due + Times(m - n, h + 1);
    CountedNext(s, n, due, h);
    CountedCaught(s, m, sum, h);
    if |s| <= MAX_LABEL { CountedFits(s, m, 0, sum, h); }
  }

  lemma WrapAdds(a: int, b: int)
    ensures Wrap32(Wrap32(a) + Wrap32(b)) == Wrap32(a + b)
  {
    var i := WrapsBy(a);
    var j := WrapsBy(b);
    WrapSame(a + b, -i - j);
  }

  lemma WrapSame(x: int, k: int)
    ensures Wrap32(x + k * 0x1_0000_0000) == Wrap32(x)
  {
    var y := x + 0x8000_0000;
    DivMod(y, 0x1_0000_0000);
    DivUnique(y + k * 0x1_0000_0000, 0x1_0000_0000, y / 0x1_0000_0000 + k, y % 0x1_0000_0000);
  }

  lemma WrapsBy(x: int) returns (k: int)
    ensures Wrap32(x) == x - k * 0x1_0000_0000
  {
    k := (x + 0x8000_0000) / 0x1_0000_0000;
  }

  lemma CountedCaught(s: seq<int>, n: nat, delta: nat, h: nat)
    requires |s| <= MAX_CAUGHT && Counted(s, n, 0, delta, h) && h < |s|
    ensures delta <= 2 * MAX_INT32
  {
    assert s[..0] == [];
    TimesAtMost(n - INITIAL_N, h + 1, 1113983, MAX_CAUGHT);
  }

  /** The first loop: copy the ASCII code points and count the others. */
  method ScanBasic(prefix: seq<int>, s: seq<int>) returns (output: seq<int>, b: nat, remaining: nat)
    requires |s| < MAX_INT32
    ensures output == prefix + Basic(s) && b == |Basic(s)| && remaining == |s| - b
  {
    output, b, remaining := prefix, 0, 0;
    for p := 0 to |s|
      invariant output == prefix + Selected(s[..p], INITIAL_N, 0)
      invariant b == |Selected(s[..p], INITIAL_N, 0)| && remaining == p - b && 0 <= b <= p
    {
      assert s[..p + 1][..p] == s[..p];
      if s[p] < 0x80 {
        b := Wrap32(b + 1);
        output := output + [s[p]];
      } else {
        remaining := Wrap32(remaining + 1);
      }
    }
    assert s[..|s|] == s;
  }

  method ScanLeast(s: seq<int>, n: int) returns (m: int)
    ensures m == LeastFrom(s, n)
  {
    m := 0x7fffffff;
    for p := 0 to |s|
      invariant m == LeastFrom(s[..p], n)
    {
      assert s[..p + 1][..p] == s[..p];
      if m > s[p] && s[p] >= n {
        m := s[p];
      }
    }
    assert s[..|s|] == s;
  }

  /** One pass over the label: write the delta of every occurrence of `n`. */
  method EncodePass(s: seq<int>, n: nat, ghost out: seq<int>, output0: seq<int>, delta0: nat, bias0: nat, h0: nat, b: nat, left: nat,
                    ghost ds0: seq<nat>)
    returns (ok: bool, output: seq<int>, delta: nat, bias: nat, h: nat, remaining: int, ghost ds: seq<nat>)
    requires |s| < MAX_INT32 && At(s, n, 0, h0) && OnTrack(s, n, 0, delta0, h0, ds0) && left == |s| - h0 && delta0 <= MAX_INT32
    requires HasWritten(out, b, ds0, output0, bias0, h0)
    ensures |s| <= MAX_LABEL ==> ok
    ensures ok ==> h == |Selected(s, n + 1, 0)| <= |s| && remaining == |s| - h && delta <= MAX_INT32
    ensures ok ==> HasWritten(out, b, ds, output, bias, h)
    ensures ok ==> NextOnTrack(s, n + 1, delta + 1, h, ds)
  {
    output, delta, bias, h, remaining, ds := output0, delta0, bias0, h0, left, ds0;
    for p := 0 to |s|
      invariant At(s, n, p, h) && remaining == |s| - h && delta <= MAX_INT32
      invariant OnTrack(s, n, p, delta, h, ds) && HasWritten(out, b, ds, output, bias, h)
    {
      AtStep(s, n, p, h);
      OnTrackStep(s, n, p, delta, h, ds);
      if s[p] < n {
        var next := Wrap32(delta + 1);
        if next < 0 { return false, output, delta, bias, h, remaining, ds; }
        delta := next;
        continue;
      }
      if s[p] > n { continue; }
      output, bias := WriteDelta(out, ds, output, delta, bias, h, b);
      ds := ds + [delta];
      delta := 0;
      h := Wrap32(h + 1);
      remaining := Wrap32(remaining - 1);
    }
    AtEnd(s, n, h);
    PassEnds(s, n, delta, h, ds);
    ok := true;
  }

  lemma PassEnds(s: seq<int>, n: nat, delta: nat, h: nat, ds: seq<nat>)
    requires At(s, n, |s|, h) && OnTrack(s, n, |s|, delta, h, ds)
    ensures NextOnTrack(s, n + 1, delta + 1, h, ds)
  {
    if |s| <= MAX_CAUGHT && (h < |s| || |s| <= MAX_LABEL) { CountedEnd(s, n, delta, h); }
  }

  /** For a label of at most `MAX_LABEL` code points delta can be counted up without wrapping. */
  lemma CountedFits(s: seq<int>, n: nat, p: nat, delta: nat, h: nat)
    requires |s| <= MAX_LABEL && Counted(s, n, p, delta, h)
    ensures h <= |s| && delta + 1 < MAX_INT32
  {
    SelectedAll(s, n, p);
    SlotInRange(s, n, p);
    TimesAtMost(n - INITIAL_N, h + 1, 1113983, MAX_LABEL + 1);
  }

  function Shrunk(j: nat): nat {
    if j == 0 then MAX_INT32 else Shrunk(j - 1) / 10
  }

  lemma ShrunkAway(j: nat)
    requires j <= 10 && Shrunk(j) > 0
    ensures j < 10
  {
    assert Shrunk(10) == 0;
  }

  /** The digit loop of the encoder. */
  method WriteVarInt(out: seq<int>, delta: nat, bias: nat) returns (output: seq<int>)
    requires delta <= MAX_INT32 && bias <= 252
    ensures output == out + VarInt(delta, 36, bias)
  {
    output := out;
    var q, k := delta, 36;
    ghost var j := 0;
    while q >= Threshold(k, bias)
      invariant k == 36 * (j + 1) && j <= 10 && 0 <= q <= Shrunk(j)
      invariant output + VarInt(q, k, bias) == out + VarInt(delta, 36, bias)
      decreases q
    {
      var t := Threshold(k, bias);
      ShrunkAway(j);
      var digit, q' := t + (q - t) % (36 - t), (q - t) / (36 - t);
      WriteStep(q, k, bias, digit, q');
      output := output + [EncodeDigit(digit)];
      q := q';
      k := Wrap32(k + 36);
      j := j + 1;
    }
    output := output + [EncodeDigit(q)];
  }

  lemma WriteStep(q: nat, k: nat, bias: nat, digit: int, q': int)
    requires q >= Threshold(k, bias)
    requires var t := Threshold(k, bias); digit == t + (q - t) % (36 - t) && q' == (q - t) / (36 - t)
    ensures 0 <= digit < 36 && 0 <= q' && 10 * q' <= q && q' < q
    ensures VarInt(q, k, bias) == [EncodeDigit(digit)] + VarInt(q', k + 36, bias)
  {
    var t := Threshold(k, bias);
    QuotientSplits(q - t, 36 - t);
    DivIsQuotient(q - t, 36 - t);
    QuotientAtMost(q - t, 36 - t, 10);
  }
}
