/**
 What the tables, constants and the bias adaptation of Punycode are, apart from how they are
 computed: laws that no other adaptation or alphabet keeps, and the encodings of known labels.
 */
module PunycodeLaws {
  import opened Arithmetic
  import opened Basics
  import opened Punycode

  // ----- The digits ------------------------------------------------------------------

  /** The digits are "a" to "z" and then "0" to "9". */
  lemma DigitsAre(d: int)
    requires 0 <= d < 35
    ensures EncodeDigit(0) == 'a' as int && EncodeDigit(25) == 'z' as int && EncodeDigit(26) == '0' as int && EncodeDigit(35) == '9' as int
    ensures d != 25 ==> EncodeDigit(d + 1) == EncodeDigit(d) + 1
  {
  }

  predicate IsLetterOrDigit(x: int) {
    'a' as int <= x <= 'z' as int || 'A' as int <= x <= 'Z' as int || '0' as int <= x <= '9' as int
  }

  /** Letters and digits are read, capitals like small letters, and what is read is written so. */
  lemma DigitsRead(x: int)
    ensures DecodeDigit(x).Some? <==> IsLetterOrDigit(x)
    ensures 'A' as int <= x <= 'Z' as int ==> DecodeDigit(x) == DecodeDigit(x + 32)
    ensures DecodeDigit(x).Some? && !('A' as int <= x <= 'Z' as int) ==> EncodeDigit(DecodeDigit(x).value) == x
  {
  }

  /** The weight guard lets through what 36 times one more of still is an int32. */
  lemma WeightGuardIs(w: nat)
    ensures w < WEIGHT_LIMIT <==> 36 * (w + 1) <= MAX_INT32
  {
  }

  /** Of decoded code points, surrogates become U+FFFD. */
  lemma SurrogatesAreReplaced(r: nat)
    requires r < 0x110000
    ensures Text([r]) == if 0xD800 <= r < 0xE000 then [0xFFFD] else [r]
  {
  }

  // ----- The bias adaptation ---------------------------------------------------------

  /** A first delta is damped by 700, where a later one is halved. */
  lemma FirstIsDamped(delta: nat, n: nat)
    requires n > 0
    ensures Adapt(delta, n, true) == Adapt(2 * (delta / 700), n, false)
  {
    var d := delta / 700;
    assert 2 * d / 2 == d;
    var e := d + Quotient(d, n);
    assert AdaptStage(1, d, n, true, 0) == AdaptStage(0, e, n, true, 0);
    assert AdaptStage(1, d, n, false, 0) == AdaptStage(0, e, n, false, 0);
    SameScale(e, n, n, true, 0);
  }

  /** The share of each code point so far is added; with more code points than that there is none. */
  lemma ShareIsAdded(delta: nat, n: nat, m: nat)
    requires n > 0 && m > delta / 2 + delta / 2 / n
    ensures Adapt(delta, n, false) == Adapt(2 * (delta / 2 + delta / 2 / n), m, false)
  {
    var d := delta / 2;
    DivIsQuotient(d, n);
    var e := d + d / n;
    assert 2 * e / 2 == e;
    assert Quotient(e, m) == 0;
    assert AdaptStage(1, d, n, false, 0) == AdaptStage(0, e, n, false, 0);
    assert AdaptStage(1, e, m, false, 0) == AdaptStage(0, e, m, false, 0);
    SameScale(e, n, m, false, 0);
  }

  lemma {:induction false} SameScale(e: nat, n: nat, m: nat, firstTime: bool, k: nat)
    requires n > 0 && m > 0
    ensures AdaptStage(0, e, n, firstTime, k) == AdaptStage(0, e, m, false, k)
    decreases e
  {
    if e > 455 { SameScale(e / 35, n, m, firstTime, k + 36); }
  }

  /** Up to 455 the bias is 36 e / (e + 38). */
  lemma SmallBias(e: nat, n: nat)
    requires e <= 455 && e < n
    ensures Adapt(2 * e, n, false) == 36 * e / (e + 38)
  {
    assert 2 * e / 2 == e && Quotient(e, n) == 0;
    assert AdaptStage(1, e, n, false, 0) == AdaptStage(0, e, n, false, 0);
    DivIsQuotient(36 * e, e + 38);
  }

  /** Above, it is one base more than for a 35th. */
  lemma LargeBias(e: nat, n: nat)
    requires 455 < e < n
    ensures Adapt(2 * e, n, false) == 36 + Adapt(2 * (e / 35), n, false)
  {
    assert 2 * e / 2 == e && 2 * (e / 35) / 2 == e / 35;
    assert Quotient(e, n) == 0 && Quotient(e / 35, n) == 0;
    assert AdaptStage(1, e, n, false, 0) == AdaptStage(0, e, n, false, 0) == AdaptStage(0, e / 35, n, false, 36);
    assert AdaptStage(1, e / 35, n, false, 0) == AdaptStage(0, e / 35, n, false, 0);
    Shifted(e / 35, n, 36);
  }

  lemma {:induction false} Shifted(e: nat, n: nat, k: nat)
    requires n > 0
    ensures AdaptStage(0, e, n, false, k) == k + AdaptStage(0, e, n, false, 0)
    decreases e
  {
    if e > 455 {
      Shifted(e / 35, n, k + 36);
      Shifted(e / 35, n, 36);
    }
  }

  // ----- Known labels ----------------------------------------------------------------

  predicate IsAscii(s: seq<int>) {
    forall k :: 0 <= k < |s| ==> 0 <= s[k] < 128
  }

  /** What is selected of two parts is selected of each, when only whole code points are. */
  lemma {:induction false} SelectedParts(a: seq<int>, c: seq<int>, n: int)
    ensures Selected(a + c, n, 0) == Selected(a, n, 0) + Selected(c, n, 0)
  {
    if c == [] {
      assert a + c == a;
    } else {
      var k := |c| - 1;
      SelectedParts(a, c[..k], n);
      assert (a + c)[..|a + c| - 1] == a + c[..k];
      assert !Keep(c[k], |a| + k, n, 0) <==> !Keep(c[k], k, n, 0);
    }
  }

  lemma {:induction false} AsciiIsBasic(a: seq<int>)
    requires IsAscii(a)
    ensures Basic(a) == a
  {
    if a != [] {
      AsciiIsBasic(a[..|a| - 1]);
      assert a == a[..|a| - 1] + [a[|a| - 1]];
    }
  }

  lemma RuneIsNotBasic(r: int)
    requires r >= 128
    ensures Basic([r]) == []
  {
    assert [r][..0] == [] && Selected([], INITIAL_N, 0) == [];
    assert !Keep(r, 0, INITIAL_N, 0);
    assert Selected([r], INITIAL_N, 0) == Selected([r][..0], INITIAL_N, 0) + [];
  }

  /** Smaller code points are counted. */
  lemma {:induction false} CountsSmaller(s: seq<int>, n: nat, p: nat, q: nat, delta: nat, h: nat)
    requires IsLabel(s) && n <= MAX_RUNE && p <= q <= |s| && forall k :: p <= k < q ==> s[k] < n
    ensures Deltas(s, n, p, delta, h) == Deltas(s, n, q, delta + (q - p), h)
    decreases q - p
  {
    if p < q { CountsSmaller(s, n, p + 1, q, delta + 1, h); }
  }

  /** The next pass is for the least code point that is left. */
  lemma NextIs(s: seq<int>, n: nat, delta: nat, h: nat, m: nat, at: nat, turns: nat)
    requires IsLabel(s) && n <= MAX_RUNE && at < |s| && s[at] == m >= n && forall k :: 0 <= k < |s| && s[k] >= n ==> s[k] >= m
    requires turns == Times(m - n, h + 1)
    ensures m <= MAX_RUNE && NextDeltas(s, n, delta, h) == Deltas(s, m, 0, delta + turns, h)
  {
    LeastFromIsLeast(s, n);
  }

  lemma NoneLeft(s: seq<int>, n: nat, p: nat, delta: nat, h: nat)
    requires IsLabel(s) && n <= MAX_RUNE && p <= |s| && forall k :: 0 <= k < |s| ==> s[k] <= n
    requires forall k :: p <= k < |s| ==> s[k] < n
    ensures Deltas(s, n, p, delta, h) == []
  {
    CountsSmaller(s, n, p, |s|, delta, h);
  }

  /** One code point that is not ASCII: its delta counts whole turns and its place. */
  lemma OneRune(a: seq<int>, r: int, c: seq<int>, turns: nat)
    requires IsAscii(a) && IsAscii(c) && 128 <= r && IsScalar(r) && turns == (r - 128) * (|a| + |c| + 1)
    ensures IsLabel(a + [r] + c)
    ensures Encoding(a + [r] + c) == Written(a + c, [turns + |a|])
  {
    TimesIsProduct(r - 128, |a| + |c| + 1);
    OneRuneTurns(a, r, c, turns);
  }

  lemma OneRuneTurns(a: seq<int>, r: int, c: seq<int>, turns: nat)
    requires IsAscii(a) && IsAscii(c) && 128 <= r && IsScalar(r) && turns == Times(r - 128, |a| + |c| + 1)
    ensures IsLabel(a + [r] + c)
    ensures Encoding(a + [r] + c) == Written(a + c, [turns + |a|])
  {
    var s, h := a + [r] + c, |a| + |c|;
    BasicOfOne(a, r, c);
    OneIsLeast(a, r, c);
    NextIs(s, INITIAL_N, 0, h, r, |a|, turns);
    OneDelta(s, |a|, r, turns, h);
  }

  lemma OneIsLeast(a: seq<int>, r: int, c: seq<int>)
    requires IsAscii(a) && IsAscii(c) && 128 <= r && IsScalar(r)
    ensures var s := a + [r] + c;
      IsLabel(s) && s[|a|] == r && forall k :: 0 <= k < |s| && k != |a| ==> s[k] < 128
  {
    var s := a + [r] + c;
    assert forall k :: 0 <= k < |s| ==> s[k] == if k < |a| then a[k] else if k == |a| then r else c[k - |a| - 1];
  }

  lemma OneDelta(s: seq<int>, p: nat, r: nat, delta: nat, h: nat)
    requires IsLabel(s) && r <= MAX_RUNE && p < |s| && s[p] == r && forall k :: 0 <= k < |s| && k != p ==> s[k] < r
    ensures Deltas(s, r, 0, delta, h) == [delta + p]
  {
    CountsSmaller(s, r, 0, p, delta, h);
    NoneLeft(s, r, p + 1, 0, h + 1);
  }

  lemma BasicOfOne(a: seq<int>, r: int, c: seq<int>)
    requires IsAscii(a) && IsAscii(c) && r >= 128
    ensures Basic(a + [r] + c) == a + c
  {
    SelectedParts(a + [r], c, INITIAL_N);
    SelectedParts(a, [r], INITIAL_N);
    AsciiIsBasic(a);
    AsciiIsBasic(c);
    RuneIsNotBasic(r);
  }

  /** Two in a row, in increasing order. */
  lemma TwoRunes(a: seq<int>, q: int, r: int, turns: nat, more: nat)
    requires IsAscii(a) && 128 <= q < r && IsScalar(q) && IsScalar(r)
    requires turns == (q - 128) * (|a| + 1) && more == (r - q - 1) * (|a| + 2)
    ensures IsLabel(a + [q, r])
    ensures Encoding(a + [q, r]) == Written(a, [turns + |a|, more + |a| + 2])
  {
    TimesIsProduct(q - 128, |a| + 1);
    TimesIsProduct(r - q - 1, |a| + 2);
    TwoRunesTurns(a, q, r, turns, more);
  }

  lemma TwoRunesTurns(a: seq<int>, q: int, r: int, turns: nat, more: nat)
    requires IsAscii(a) && 128 <= q < r && IsScalar(q) && IsScalar(r)
    requires turns == Times(q - 128, |a| + 1) && more == Times(r - q - 1, |a| + 2)
    ensures IsLabel(a + [q, r])
    ensures Encoding(a + [q, r]) == Written(a, [turns + |a|, more + |a| + 2])
  {
    var s, h := a + [q, r], |a|;
    BasicOfTwo(a, q, r);
    assert forall k :: 0 <= k < |s| ==> s[k] == if k < h then a[k] else if k == h then q else r;
    NextIs(s, INITIAL_N, 0, h, q, h, turns);
    NextIs(s, q + 1, 1, h + 1, r, h + 1, more);
    TwoDeltas(s, h, q, r, turns, more);
  }

  lemma TwoDeltas(s: seq<int>, h: nat, q: nat, r: nat, turns: nat, more: nat)
    requires IsLabel(s) && |s| == h + 2 && s[h] == q < r == s[h + 1] <= MAX_RUNE && forall k :: 0 <= k < h ==> s[k] < q
    requires NextDeltas(s, q + 1, 1, h + 1) == Deltas(s, r, 0, 1 + more, h + 1)
    ensures Deltas(s, q, 0, turns, h) == [turns + h, more + h + 2]
  {
    CountsSmaller(s, q, 0, h, turns, h);
    assert Deltas(s, q, h + 1, 0, h + 1) == Deltas(s, q, h + 2, 0, h + 1) == NextDeltas(s, q + 1, 1, h + 1);
    OneDelta(s, h + 1, r, 1 + more, h + 1);
  }

  lemma BasicOfTwo(a: seq<int>, q: int, r: int)
    requires IsAscii(a) && q >= 128 && r >= 128
    ensures Basic(a + [q, r]) == a
  {
    assert a + [q, r] == a + [q] + [r];
    SelectedParts(a + [q], [r], INITIAL_N);
    SelectedParts(a, [q], INITIAL_N);
    AsciiIsBasic(a);
    RuneIsNotBasic(q);
    RuneIsNotBasic(r);
  }

  /** `digit` is the last digit of q, and q' is what is left, when the threshold is that of k. */
  predicate Splits(q: nat, k: nat, bias: nat, digit: nat, q': nat) {
    Threshold(k, bias) <= digit < 36 && q == digit + q' * (36 - Threshold(k, bias))
  }

  lemma WritesDigit(q: nat, k: nat, bias: nat, digit: nat, q': nat)
    requires Splits(q, k, bias, digit, q')
    ensures VarInt(q, k, bias) == [EncodeDigit(digit)] + VarInt(q', k + 36, bias)
  {
    var t := Threshold(k, bias);
    TimesIsProduct(q', 36 - t);
    QuotientOfTimes(q', 36 - t, digit - t);
  }

  lemma WritesLast(q: nat, k: nat, bias: nat)
    requires q < Threshold(k, bias)
    ensures VarInt(q, k, bias) == [EncodeDigit(q)]
  {
  }

  lemma FourDigits(q: nat, bias: nat, d0: nat, q1: nat, d1: nat, q2: nat, d2: nat, d3: nat)
    requires Splits(q, 36, bias, d0, q1) && Splits(q1, 72, bias, d1, q2) && Splits(q2, 108, bias, d2, d3) && d3 < Threshold(144, bias)
    ensures VarInt(q, 36, bias) == [EncodeDigit(d0), EncodeDigit(d1), EncodeDigit(d2), EncodeDigit(d3)]
  {
    WritesDigit(q, 36, bias, d0, q1);
    WritesDigit(q1, 72, bias, d1, q2);
    WritesDigit(q2, 108, bias, d2, d3);
    WritesLast(d3, 144, bias);
  }

  function Points(s: string): (r: seq<int>)
    ensures |r| == |s| && forall k :: 0 <= k < |s| ==> r[k] == s[k] as int
  {
    seq(|s|, k requires 0 <= k < |s| => s[k] as int)
  }

  /** q is d / n, rounded down. */
  predicate Rounds(d: nat, n: nat, q: nat) {
    n * q <= d < n * q + n
  }

  lemma RoundsIsDiv(d: nat, n: nat, q: nat)
    requires Rounds(d, n, q)
    ensures d / n == q
  {
    DivUnique(d, n, q, d - n * q);
  }

  /** The bias after a first delta and n code points. */
  lemma FirstBias(delta: nat, n: nat, d: nat, share: nat, bias: nat)
    requires n > 0 && d == delta / 700 && Rounds(d, n, share) && d + share <= 455 && Rounds(36 * (d + share), d + share + 38, bias)
    ensures Adapt(delta, n, true) == bias
  {
    FirstIsDamped(delta, n);
    LaterBias(2 * d, n, d, share, bias);
  }

  /** The bias after a later one. */
  lemma LaterBias(delta: nat, n: nat, d: nat, share: nat, bias: nat)
    requires n > 0 && d == delta / 2 && Rounds(d, n, share) && d + share <= 455 && Rounds(36 * (d + share), d + share + 38, bias)
    ensures Adapt(delta, n, false) == bias
  {
    var e := d + share;
    RoundsIsDiv(d, n, share);
    RoundsIsDiv(36 * e, e + 38, bias);
    ShareIsAdded(delta, n, e + 1);
    SmallBias(e, e + 1);
  }

  lemma WritesOne(d: nat, bias: nat, h: nat, firstTime: bool)
    ensures Render([d], bias, h, firstTime) == VarInt(d, 36, bias)
  {
    assert [d][1..] == [];
    assert Render([], Adapt(d, h + 1, firstTime), h + 1, false) == [];
    assert VarInt(d, 36, bias) + [] == VarInt(d, 36, bias);
  }

  lemma WritesTwo(d: nat, d': nat, bias: nat, h: nat, firstTime: bool, bias': nat)
    requires bias' == Adapt(d, h + 1, firstTime)
    ensures Render([d, d'], bias, h, firstTime) == VarInt(d, 36, bias) + VarInt(d', 36, bias')
  {
    assert [d, d'][1..] == [d'];
    WritesOne(d', bias', h + 1, false);
  }

  /** "b\u{fc}cher" */
  lemma Buecher()
    ensures IsLabel(Points("b") + [0xfc] + Points("cher"))
    ensures Encoding(Points("b") + [0xfc] + Points("cher")) == Points("bcher-kva")
  {
    OneRune(Points("b"), 0xfc, Points("cher"), 744);
    BuecherDelta(745);
    assert Points("b") + Points("cher") + [DASH] + Points("kva") == Points("bcher-kva");
  }

  lemma BuecherDelta(d: nat)
    requires d == 745
    ensures Render([d], INITIAL_BIAS, 5, true) == Points("kva")
  {
    WritesOne(d, INITIAL_BIAS, 5, true);
    WritesDigit(d, 36, INITIAL_BIAS, 10, 21);
    WritesDigit(21, 72, INITIAL_BIAS, 21, 0);
    WritesLast(0, 108, INITIAL_BIAS);
  }

  /** "Hello" and two Chinese characters */
  lemma HelloWorld()
    ensures IsLabel(Points("Hello") + [0x4e16, 0x754c])
    ensures Encoding(Points("Hello") + [0x4e16, 0x754c]) == Points("Hello-ck1hg65u")
  {
    HelloEncoded(Points("Hello"), 0x4e16, 0x754c, 119172, 70259);
    assert Points("Hello") + [DASH] + Points("ck1hg65u") == Points("Hello-ck1hg65u");
  }

  lemma HelloEncoded(a: seq<int>, q: nat, r: nat, turns: nat, more: nat)
    requires IsAscii(a) && |a| == 5 && q == 0x4e16 && r == 0x754c && turns == 119172 && more == 70259
    ensures IsLabel(a + [q, r]) && Encoding(a + [q, r]) == a + [DASH] + Points("ck1hg65u")
  {
    TwoRunes(a, q, r, turns, more);
    HelloDeltas(turns + 5, more + 7);
  }

  lemma HelloDeltas(d: nat, d': nat)
    requires d == 119177 && d' == 70266
    ensures Render([d, d'], INITIAL_BIAS, 5, true) == Points("ck1hg65u")
  {
    HelloFirst(d);
    WritesTwo(d, d', INITIAL_BIAS, 5, true, 30);
    HelloSecond(d');
  }

  lemma HelloFirst(d: nat)
    requires d == 119177
    ensures VarInt(d, 36, INITIAL_BIAS) == Points("ck1h") && Adapt(d, 6, true) == 30
  {
    FirstBias(d, 6, 170, 28, 30);
    FourDigits(d, INITIAL_BIAS, 2, 3405, 10, 97, 27, 7);
  }

  lemma HelloSecond(d: nat)
    requires d == 70266
    ensures VarInt(d, 36, 30) == Points("g65u")
  {
    FourDigits(d, 30, 6, 2342, 32, 231, 31, 20);
  }

  // Example (D) of section 7.1 of RFC 3492, in Czech: "Why can't they simply speak in Czech?"

  /** Where its code points are that are not ASCII. */
  ghost predicate CzechShape(s: seq<int>) {
    && |s| == 22 && s[3] == 0x10D && s[9] == 0x11B && s[16] == 0xED && s[17] == 0x10D
    && forall k :: 0 <= k < 22 && k != 3 && k != 9 && k != 16 && k != 17 ==> 0 <= s[k] < 128
  }

  lemma CzechFirst(s: seq<int>, turns: nat)
    requires CzechShape(s)
    ensures IsLabel(s) && Deltas(s, 0xED, 0, turns, 18) == [turns + 14] + NextDeltas(s, 0xEE, 5, 19)
  {
    CountsSmaller(s, 0xED, 0, 3, turns, 18);
    CountsSmaller(s, 0xED, 4, 9, turns + 3, 18);
    CountsSmaller(s, 0xED, 10, 16, turns + 8, 18);
    CountsSmaller(s, 0xED, 18, 22, 0, 19);
  }

  lemma CzechSecond(s: seq<int>, turns: nat)
    requires CzechShape(s)
    ensures IsLabel(s) && Deltas(s, 0x10D, 0, turns, 19) == [turns + 3, 12] + NextDeltas(s, 0x10E, 5, 21)
  {
    CountsSmaller(s, 0x10D, 0, 3, turns, 19);
    CountsSmaller(s, 0x10D, 4, 9, 0, 20);
    CountsSmaller(s, 0x10D, 10, 17, 5, 20);
    CountsSmaller(s, 0x10D, 18, 22, 0, 21);
  }

  lemma CzechDeltas(s: seq<int>)
    requires CzechShape(s)
    ensures IsLabel(s) && NextDeltas(s, INITIAL_N, 0, 18) == [2085, 628, 12, 300]
  {
    CzechTurns(s);
    CzechFirst(s, 2071);
    CzechSecond(s, 625);
    OneDelta(s, 9, 0x11B, 291, 21);
  }

  lemma CzechTurns(s: seq<int>)
    requires CzechShape(s)
    ensures IsLabel(s) && NextDeltas(s, INITIAL_N, 0, 18) == Deltas(s, 0xED, 0, 2071, 18)
    ensures NextDeltas(s, 0xEE, 5, 19) == Deltas(s, 0x10D, 0, 625, 19)
    ensures NextDeltas(s, 0x10E, 5, 21) == Deltas(s, 0x11B, 0, 291, 21)
  {
    TimesIsProduct(0xED - INITIAL_N, 19);
    NextIs(s, INITIAL_N, 0, 18, 0xED, 16, 2071);
    TimesIsProduct(0x10D - 0xEE, 20);
    NextIs(s, 0xEE, 5, 19, 0x10D, 3, 620);
    TimesIsProduct(0x11B - 0x10E, 22);
    NextIs(s, 0x10E, 5, 21, 0x11B, 9, 286);
  }

  lemma CzechDigits(a: nat, b: nat, c: nat, d: nat)
    requires a == 2085 && b == 628 && c == 12 && d == 300
    ensures VarInt(a, 36, INITIAL_BIAS) == Points("uyb") && VarInt(b, 36, 1) == Points("24d")
    ensures VarInt(c, 36, 32) == Points("ma") && VarInt(d, 36, 4) == Points("41a")
  {
    ThreeDigits(a, INITIAL_BIAS, 20, 59, 24, 1);
    ThreeDigits(b, 1, 28, 60, 30, 3);
    WritesDigit(c, 36, 32, 12, 0);
    WritesLast(0, 72, 32);
    ThreeDigits(d, 4, 30, 27, 27, 0);
  }

  lemma ThreeDigits(q: nat, bias: nat, d0: nat, q1: nat, d1: nat, d2: nat)
    requires Splits(q, 36, bias, d0, q1) && Splits(q1, 72, bias, d1, d2) && d2 < Threshold(108, bias)
    ensures VarInt(q, 36, bias) == [EncodeDigit(d0), EncodeDigit(d1), EncodeDigit(d2)]
  {
    WritesDigit(q, 36, bias, d0, q1);
    WritesDigit(q1, 72, bias, d1, d2);
    WritesLast(d2, 108, bias);
  }

  lemma CzechBiases(a: nat, b: nat, c: nat)
    requires a == 2085 && b == 628 && c == 12
    ensures Adapt(a, 19, true) == 1 && Adapt(b, 20, false) == 32 && Adapt(c, 21, false) == 4
  {
    FirstBias(a, 19, 2, 0, 1);
    LaterBias(b, 20, 314, 15, 32);
    LaterBias(c, 21, 6, 0, 4);
  }

  lemma CzechRendered(a: nat, b: nat, c: nat, d: nat)
    requires a == 2085 && b == 628 && c == 12 && d == 300
    ensures Render([a, b, c, d], INITIAL_BIAS, 18, true) == Points("uyb24dma41a")
  {
    CzechDigits(a, b, c, d);
    CzechBiases(a, b, c);
    WritesFirst(a, [b, c, d], INITIAL_BIAS, 18, true);
    WritesFirst(b, [c, d], 1, 19, false);
    WritesTwo(c, d, 32, 20, false, 4);
  }

  lemma WritesFirst(d: nat, ds: seq<nat>, bias: nat, h: nat, firstTime: bool)
    ensures Render([d] + ds, bias, h, firstTime) == VarInt(d, 36, bias) + Render(ds, Adapt(d, h + 1, firstTime), h + 1, false)
  {
    assert ([d] + ds)[1..] == ds;
  }

  lemma BasicOfFour(a: seq<int>, b: seq<int>, c: seq<int>, d: seq<int>, p: int, q: int, r: int, t: int)
    requires IsAscii(a) && IsAscii(b) && IsAscii(c) && IsAscii(d) && p >= 128 && q >= 128 && r >= 128 && t >= 128
    ensures Basic(a + [p] + b + [q] + (c + [r, t]) + d) == a + b + c + d
  {
    var front, back := a + [p] + b, c + [r, t];
    SelectedParts(front + [q] + back, d, INITIAL_N);
    SelectedParts(front + [q], back, INITIAL_N);
    SelectedParts(front, [q], INITIAL_N);
    BasicOfOne(a, p, b);
    RuneIsNotBasic(q);
    BasicOfTwo(c, r, t);
    AsciiIsBasic(d);
  }

  lemma ShapeOfFour(s: seq<int>, a: seq<int>, b: seq<int>, c: seq<int>, d: seq<int>)
    requires IsAscii(a) && IsAscii(b) && IsAscii(c) && IsAscii(d) && |a| == 3 && |b| == 5 && |c| == 6 && |d| == 4
    requires s == a + [0x10D] + b + [0x11B] + (c + [0xED, 0x10D]) + d
    ensures CzechShape(s)
  {
    assert forall k :: 0 <= k < 3 ==> s[k] == a[k];
    assert forall k :: 4 <= k < 9 ==> s[k] == b[k - 4];
    assert forall k :: 10 <= k < 16 ==> s[k] == c[k - 10];
    assert forall k :: 18 <= k < 22 ==> s[k] == d[k - 18];
  }

  lemma Czech(s: seq<int>)
    requires s == Points("Pro") + [0x10D] + Points("prost") + [0x11B] + (Points("nemluv") + [0xED, 0x10D]) + Points("esky")
    ensures IsLabel(s) && Encoding(s) == Points("Proprostnemluvesky-uyb24dma41a")
  {
    BasicOfFour(Points("Pro"), Points("prost"), Points("nemluv"), Points("esky"), 0x10D, 0x11B, 0xED, 0x10D);
    ShapeOfFour(s, Points("Pro"), Points("prost"), Points("nemluv"), Points("esky"));
    CzechLetters();
    CzechDeltas(s);
    CzechRendered(2085, 628, 12, 300);
  }

  lemma CzechLetters()
    ensures Points("Pro") + Points("prost") + Points("nemluv") + Points("esky") == Points("Proprostnemluvesky")
    ensures Points("Proprostnemluvesky") + [DASH] + Points("uyb24dma41a") == Points("Proprostnemluvesky-uyb24dma41a")
  {
  }
}
