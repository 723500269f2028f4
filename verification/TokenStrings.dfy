/**
 Tokens as values: what `Token` returns for a token that the tokenizer found, what `String` writes
 for one, and which tokens are found again in what is written.

 A raw token has the bytes of a token as they stand in the text.
 */
module TokenStrings {
  import Escape
  import opened HtmlText

  /** A key and a value. */
  type Pair = (Text, Text)

  datatype Raw = Raw(tt: TokenType, data: Text, pairs: seq<Pair>)

  function Part(s: Text, span: Span): Text {
    if 0 <= span.start <= span.end <= |s| then s[span.start..span.end] else []
  }

  function Parts(s: Text, attrs: seq<(Span, Span)>): (r: seq<Pair>)
    ensures |r| == |attrs|
  {
    if attrs == [] then [] else [(Part(s, attrs[0].0), Part(s, attrs[0].1))] + Parts(s, attrs[1..])
  }

  function RawOf(s: Text, token: Token): Raw {
    Raw(token.tt, Part(s, token.data), Parts(s, token.attrs))
  }

  /** All tokens of a text without raw text elements, from p on. */
  function Raws(s: Text, p: nat): seq<Raw>
    requires p <= |s|
    decreases |s| - p
  {
    var token := Parse(AnyToken, s, p, false, []);
    if token.tt == ErrorToken then []
    else if token.scan.AtEnd? then [RawOf(s, token)]
    else
      ParseMovesOn(AnyToken, s, p, false, []);
      [RawOf(s, token)] + Raws(s, token.scan.pos)
  }

  // ----- What is written ---------------------------------------------------------------

  const LESS: byte := '<' as int
  const GREATER: byte := '>' as int
  const SLASH: byte := '/' as int
  const QUOTE: byte := '"' as int
  const SPACE: byte := ' ' as int
  const EQUALS: byte := '=' as int
  const DASH: byte := '-' as int
  const BANG: byte := '!' as int

  function Quoted(e: Text): Text {
    [EQUALS, QUOTE] + (e + [QUOTE])
  }

  function PairString(pair: Pair): Text {
    pair.0 + Quoted(pair.1)
  }

  /** The rest of a tag: attributes, each after a space, and its end. */
  function TagRest(pairs: seq<Pair>, selfClosing: bool): Text {
    if pairs == [] then if selfClosing then [SLASH, GREATER] else [GREATER]
    else [SPACE] + (PairString(pairs[0]) + TagRest(pairs[1..], selfClosing))
  }

  function RawString(raw: Raw): Text {
    match raw.tt
    case ErrorToken => []
    case TextToken => raw.data
    case StartTagToken => [LESS] + (raw.data + TagRest(raw.pairs, false))
    case SelfClosingTagToken => [LESS] + (raw.data + TagRest(raw.pairs, true))
    case EndTagToken => [LESS, SLASH] + (raw.data + TagRest(raw.pairs, false))
    case CommentToken => [LESS, BANG, DASH, DASH] + (raw.data + [DASH, DASH, GREATER])
    case DoctypeToken => [LESS, BANG] + (DOCTYPE_WORD + (raw.data + [GREATER]))
  }

  /** "DOCTYPE " */
  const DOCTYPE_WORD: Text := [68, 79, 67, 84, 89, 80, 69, 32]

  // ----- Which tokens are proper -------------------------------------------------------

  predicate IsUpper(c: byte) {
    'A' as int <= c <= 'Z' as int
  }

  /** A name as the tokenizer reads one. */
  predicate IsName(name: Text) {
    name != [] && IsLetter(name[0]) && forall k :: 0 <= k < |name| ==> !EndsName(name[k]) && !IsUpper(name[k])
  }

  predicate IsKey(key: Text) {
    key != [] && forall k :: 0 <= k < |key| ==> !EndsKey(key[k]) && !IsUpper(key[k])
  }

  ghost predicate IsPair(pair: Pair) {
    IsKey(pair.0) && forall k :: 0 <= k < |pair.1| ==> pair.1[k] != QUOTE
  }

  ghost predicate ArePairs(pairs: seq<Pair>) {
    forall k :: 0 <= k < |pairs| ==> IsPair(pairs[k])
  }

  // ----- Text that holds other text ----------------------------------------------------

  ghost predicate Holds(s: Text, p: nat, text: Text) {
    p + |text| <= |s| && forall k :: 0 <= k < |text| ==> s[p + k] == text[k]
  }

  lemma HoldsBoth(s: Text, p: nat, a: Text, b: Text)
    requires Holds(s, p, a + b)
    ensures Holds(s, p, a) && Holds(s, p + |a|, b)
  {
    forall k | 0 <= k < |a| ensures s[p + k] == a[k] { assert (a + b)[k] == a[k]; }
    forall k | 0 <= k < |b| ensures s[p + |a| + k] == b[k] { assert (a + b)[|a| + k] == b[k]; }
  }

  lemma HoldsAt(s: Text, p: nat, text: Text, k: nat)
    requires Holds(s, p, text) && k < |text|
    ensures p + k < |s| && s[p + k] == text[k]
  {
  }

  // ----- Where scans end -----------------------------------------------------------------

  lemma {:induction false} NameEndIs(s: Text, p: nat, q: nat)
    requires p <= q < |s| && EndsName(s[q]) && forall k :: p <= k < q ==> !EndsName(s[k])
    ensures NameEnd(s, p) == q
    decreases q - p
  {
    if p < q { NameEndIs(s, p + 1, q); }
  }

  lemma {:induction false} KeyEndIs(s: Text, p: nat, q: nat)
    requires p <= q < |s| && EndsKey(s[q]) && forall k :: p <= k < q ==> !EndsKey(s[k])
    ensures KeyEnd(s, p) == q
    decreases q - p
  {
    if p < q { KeyEndIs(s, p + 1, q); }
  }

  lemma {:induction false} FindIs(s: Text, p: nat, c: byte, q: nat)
    requires p <= q < |s| && s[q] == c && forall k :: p <= k < q ==> s[k] != c
    ensures Find(s, p, c) == q
    decreases q - p
  {
    if p < q { FindIs(s, p + 1, c, q); }
  }

  lemma SpaceEnds(s: Text, p: nat)
    requires p < |s| && !IsSpace(s[p])
    ensures SkipSpace(s, p) == p && (p > 0 && IsSpace(s[p - 1]) ==> SkipSpace(s, p - 1) == p)
  {
  }

  // ----- Attributes ------------------------------------------------------------------

  /** A quoted value, from its equals sign on. */
  lemma QuotedReads(s: Text, p: nat, e: Text)
    requires p + 2 + |e| < |s| && s[p] == EQUALS && s[p + 1] == QUOTE && Holds(s, p + 2, e) && s[p + 2 + |e|] == QUOTE
    requires forall k :: 0 <= k < |e| ==> e[k] != QUOTE
    ensures AttrValue(s, p) == Piece(Span(p + 2, p + 2 + |e|), Scan.At(p + 3 + |e|))
  {
    forall k | p + 2 <= k < p + 2 + |e| ensures s[k] != QUOTE { HoldsAt(s, p + 2, e, k - p - 2); }
    FindIs(s, p + 2, QUOTE, p + 2 + |e|);
    SpaceEnds(s, p);
    SpaceEnds(s, p + 1);
  }

  lemma QuotedHolds(s: Text, p: nat, e: Text)
    requires Holds(s, p, Quoted(e))
    ensures p + 2 + |e| < |s| && s[p] == EQUALS && s[p + 1] == QUOTE && Holds(s, p + 2, e) && s[p + 2 + |e|] == QUOTE
  {
    HoldsBoth(s, p, [EQUALS, QUOTE], e + [QUOTE]);
    HoldsBoth(s, p + 2, e, [QUOTE]);
    HoldsAt(s, p, [EQUALS, QUOTE], 0);
    HoldsAt(s, p, [EQUALS, QUOTE], 1);
    HoldsAt(s, p + 2 + |e|, [QUOTE], 0);
  }

  lemma KeyReads(s: Text, p: nat, key: Text)
    requires IsKey(key) && Holds(s, p, key) && p + |key| < |s| && s[p + |key|] == EQUALS
    ensures AttrKey(s, p) == Piece(Span(p, p + |key|), Scan.At(p + |key|))
    ensures s[p] != GREATER && !IsSpace(s[p])
  {
    forall k | p <= k < p + |key| ensures !EndsKey(s[k]) { HoldsAt(s, p, key, k - p); }
    KeyEndIs(s, p, p + |key|);
  }

  lemma LoweredIsSame(name: Text)
    requires IsName(name)
    ensures Lowered(name) == name
  {
  }

  lemma PartHolds(s: Text, p: nat, text: Text)
    requires Holds(s, p, text)
    ensures Part(s, Span(p, p + |text|)) == text
  {
  }

  /** One attribute, and what follows it after at most one space. */
  lemma PairReads(s: Text, p: nat, key: Text, e: Text, next: nat)
    requires IsKey(key) && Holds(s, p, key) && Holds(s, p + |key|, Quoted(e)) && forall k :: 0 <= k < |e| ==> e[k] != QUOTE
    requires var end := p + |key| + 3 + |e|; next == end || (next == end + 1 && end < |s| && s[end] == SPACE)
    requires next < |s| && !IsSpace(s[next])
    ensures p < |s| && s[p] != GREATER && !IsSpace(s[p])
    ensures OneAttr(s, p) == (Span(p, p + |key|), Span(p + |key| + 2, p + |key| + 2 + |e|), Scan.At(next))
  {
    QuotedHolds(s, p + |key|, e);
    KeyReads(s, p, key);
    QuotedReads(s, p + |key|, e);
    SpaceEnds(s, next);
  }

  lemma PairParts(s: Text, p: nat, key: Text, e: Text)
    requires Holds(s, p, key) && Holds(s, p + |key|, Quoted(e))
    ensures Part(s, Span(p, p + |key|)) == key && Part(s, Span(p + |key| + 2, p + |key| + 2 + |e|)) == e
  {
    QuotedHolds(s, p + |key|, e);
    PartHolds(s, p, key);
    PartHolds(s, p + |key| + 2, e);
  }

  // ----- Tags ------------------------------------------------------------------------

  /** An end of a tag at p, with or without a slash, adds no attribute. */
  lemma EndReads(s: Text, p: nat, selfClosing: bool, acc: seq<(Span, Span)>)
    requires Holds(s, p, if selfClosing then [SLASH, GREATER] else [GREATER])
    ensures p < |s| && !IsSpace(s[p])
    ensures AllAttrs(s, p, true, acc) == Attrs(acc, Scan.At(if selfClosing then p + 2 else p + 1))
  {
    HoldsAt(s, p, if selfClosing then [SLASH, GREATER] else [GREATER], 0);
    if selfClosing {
      HoldsAt(s, p, [SLASH, GREATER], 1);
      KeyEndIs(s, p, p);
      SpaceEnds(s, p + 1);
      assert OneAttr(s, p) == (Span(p, p), Span(p + 1, p + 1), Scan.At(p + 1));
    }
  }

  /** The rest of a tag is laid out from p on. */
  ghost predicate Laid(s: Text, p: nat, pairs: seq<Pair>, selfClosing: bool)
    decreases |pairs|
  {
    if pairs == [] then Holds(s, p, if selfClosing then [SLASH, GREATER] else [GREATER])
    else
      && p < |s| && s[p] == SPACE && Holds(s, p + 1, pairs[0].0) && Holds(s, p + 1 + |pairs[0].0|, Quoted(pairs[0].1))
      && Laid(s, After(p, pairs[0]), pairs[1..], selfClosing)
  }

  /** Where an attribute ends whose space is at p. */
  function After(p: nat, pair: Pair): nat {
    p + 4 + |pair.0| + |pair.1|
  }

  function RestEnd(p: nat, pairs: seq<Pair>, selfClosing: bool): nat
    decreases |pairs|
  {
    if pairs == [] then if selfClosing then p + 2 else p + 1 else RestEnd(After(p, pairs[0]), pairs[1..], selfClosing)
  }

  lemma FirstHolds(s: Text, p: nat, a: Text, rest: Text, key: Text, e: Text)
    requires Holds(s, p, [SPACE] + (a + rest)) && a == key + Quoted(e)
    ensures p < |s| && s[p] == SPACE && Holds(s, p + 1, key) && Holds(s, p + 1 + |key|, Quoted(e)) && Holds(s, After(p, (key, e)), rest)
  {
    HoldsBoth(s, p, [SPACE], a + rest);
    HoldsBoth(s, p + 1, a, rest);
    HoldsBoth(s, p + 1, key, Quoted(e));
    HoldsAt(s, p, [SPACE], 0);
  }

  lemma {:induction false} RestIsLaid(s: Text, p: nat, pairs: seq<Pair>, selfClosing: bool)
    requires Holds(s, p, TagRest(pairs, selfClosing))
    ensures Laid(s, p, pairs, selfClosing) && RestEnd(p, pairs, selfClosing) == p + |TagRest(pairs, selfClosing)|
    decreases |pairs|
  {
    if pairs != [] {
      FirstHolds(s, p, PairString(pairs[0]), TagRest(pairs[1..], selfClosing), pairs[0].0, pairs[0].1);
      RestIsLaid(s, After(p, pairs[0]), pairs[1..], selfClosing);
    }
  }

  /** Where the attributes of a tag start whose rest is at p: after a space, if there are any. */
  function RestStart(p: nat, pairs: seq<Pair>): nat {
    if pairs == [] then p else p + 1
  }

  lemma RestStarts(s: Text, p: nat, pairs: seq<Pair>, selfClosing: bool)
    requires ArePairs(pairs) && Laid(s, p, pairs, selfClosing)
    ensures RestStart(p, pairs) < |s| && !IsSpace(s[RestStart(p, pairs)]) && (pairs != [] ==> s[p] == SPACE)
  {
    if pairs == [] {
      EndReads(s, p, selfClosing, []);
    } else {
      assert IsPair(pairs[0]);
      HoldsAt(s, p + 1, pairs[0].0, 0);
    }
  }

  function SpansAt(p: nat, pair: Pair): (Span, Span) {
    (Span(p + 1, p + 1 + |pair.0|), Span(p + 3 + |pair.0|, p + 3 + |pair.0| + |pair.1|))
  }

  function SpansOf(p: nat, pairs: seq<Pair>): seq<(Span, Span)>
    decreases |pairs|
  {
    if pairs == [] then [] else [SpansAt(p, pairs[0])] + SpansOf(After(p, pairs[0]), pairs[1..])
  }

  lemma AttrStep(s: Text, p: nat, key: Span, value: Span, next: nat, acc: seq<(Span, Span)>)
    requires p < |s| && s[p] != GREATER && next <= |s| && OneAttr(s, p) == (key, value, Scan.At(next)) && key.start != key.end
    ensures AllAttrs(s, p, true, acc) == AllAttrs(s, next, true, acc + [(key, value)])
  {
  }

  lemma PairStep(s: Text, p: nat, pair: Pair, next: nat, acc: seq<(Span, Span)>)
    requires IsPair(pair) && p < |s| && Holds(s, p + 1, pair.0) && Holds(s, p + 1 + |pair.0|, Quoted(pair.1))
    requires next < |s| && !IsSpace(s[next]) && (next == After(p, pair) || (next == After(p, pair) + 1 && s[next - 1] == SPACE))
    ensures p + 1 < |s| && AllAttrs(s, p + 1, true, acc) == AllAttrs(s, next, true, acc + [SpansAt(p, pair)])
  {
    PairReads(s, p + 1, pair.0, pair.1, next);
    AttrStep(s, p + 1, SpansAt(p, pair).0, SpansAt(p, pair).1, next, acc);
  }

  lemma {:induction false} PairsRead(s: Text, p: nat, pairs: seq<Pair>, selfClosing: bool, acc: seq<(Span, Span)>)
    requires ArePairs(pairs) && Laid(s, p, pairs, selfClosing)
    ensures RestStart(p, pairs) < |s|
    ensures AllAttrs(s, RestStart(p, pairs), true, acc) == Attrs(acc + SpansOf(p, pairs), Scan.At(RestEnd(p, pairs, selfClosing)))
    decreases |pairs|
  {
    if pairs == [] {
      EndReads(s, p, selfClosing, acc);
      assert acc + [] == acc;
    } else {
      var end, rest := After(p, pairs[0]), pairs[1..];
      assert IsPair(pairs[0]);
      RestStarts(s, end, rest, selfClosing);
      PairStep(s, p, pairs[0], RestStart(end, rest), acc);
      PairsRead(s, end, rest, selfClosing, acc + [SpansAt(p, pairs[0])]);
      assert acc + [SpansAt(p, pairs[0])] + SpansOf(end, rest) == acc + ([SpansAt(p, pairs[0])] + SpansOf(end, rest));
    }
  }

  /** The spans hold what was written. */
  ghost predicate PartsAre(s: Text, spans: seq<(Span, Span)>, pairs: seq<Pair>) {
    |spans| == |pairs| && forall k :: 0 <= k < |pairs| ==> Part(s, spans[k].0) == pairs[k].0 && Part(s, spans[k].1) == pairs[k].1
  }

  lemma {:induction false} SpansHold(s: Text, p: nat, pairs: seq<Pair>, selfClosing: bool)
    requires Laid(s, p, pairs, selfClosing)
    ensures PartsAre(s, SpansOf(p, pairs), pairs)
    decreases |pairs|
  {
    if pairs != [] {
      SpansHold(s, After(p, pairs[0]), pairs[1..], selfClosing);
      PairParts(s, p + 1, pairs[0].0, pairs[0].1);
      PartsCons(s, SpansAt(p, pairs[0]), SpansOf(After(p, pairs[0]), pairs[1..]), pairs);
    }
  }

  lemma PartsCons(s: Text, first: (Span, Span), rest: seq<(Span, Span)>, pairs: seq<Pair>)
    requires pairs != [] && Part(s, first.0) == pairs[0].0 && Part(s, first.1) == pairs[0].1 && PartsAre(s, rest, pairs[1..])
    ensures PartsAre(s, [first] + rest, pairs)
  {
    forall k | 0 < k < |pairs| ensures Part(s, rest[k - 1].0) == pairs[k].0 && Part(s, rest[k - 1].1) == pairs[k].1 {
      assert pairs[k] == pairs[1..][k - 1];
    }
  }

  lemma {:induction false} PartsAreParts(s: Text, spans: seq<(Span, Span)>, pairs: seq<Pair>)
    requires PartsAre(s, spans, pairs)
    ensures Parts(s, spans) == pairs
    decreases |pairs|
  {
    if pairs != [] {
      forall k | 0 <= k < |pairs| - 1 ensures Part(s, spans[1..][k].0) == pairs[1..][k].0 && Part(s, spans[1..][k].1) == pairs[1..][k].1 {
        assert spans[1..][k] == spans[k + 1];
      }
      PartsAreParts(s, spans[1..], pairs[1..]);
      assert pairs == [(pairs[0].0, pairs[0].1)] + pairs[1..];
    }
  }

  // ----- One token -------------------------------------------------------------------

  /** The token at p holds the raw one and ends at q. */
  ghost predicate Reads(s: Text, p: nat, raw: Raw, q: nat) {
    p <= |s| && Holding(s, Parse(AnyToken, s, p, false, []), raw, q)
  }

  ghost predicate Holding(s: Text, token: Token, raw: Raw, q: nat) {
    && token.tt != ErrorToken && token.rawTag == [] && RawOf(s, token) == raw
    && (token.scan == Scan.At(q) || (token.tt == TextToken && token.scan == AtEnd && q == |s|))
  }

  lemma MarkupOpens(s: Text, p: nat)
    requires p + 1 < |s| && s[p] == LESS && OpensToken(s[p + 1])
    ensures Parse(AnyToken, s, p, false, []) == Parse(MarkupAt, s, p, false, [])
  {
    assert Opening(s, p) == Scan.At(p);
  }

  /** A name, and where what follows it starts. */
  lemma NameReads(s: Text, p: nat, name: Text, next: nat)
    requires IsName(name) && Holds(s, p, name)
    requires var end := p + |name|; end < |s| && EndsName(s[end]) && (next == end + if s[end] == SPACE then 1 else 0)
    requires next < |s| && !IsSpace(s[next])
    ensures IsLetter(s[p]) && NameEnd(s, p + 1) == p + |name| && AfterName(s, p + 1) == next
  {
    var end := p + |name|;
    HoldsAt(s, p, name, 0);
    forall k | p <= k < end ensures !EndsName(s[k]) { HoldsAt(s, p, name, k - p); }
    NameEndIs(s, p + 1, end);
    SpaceEnds(s, next);
  }

  /** The byte before the ">" tells whether the tag closes itself. */
  lemma {:induction false} BeforeEnd(s: Text, p: nat, pairs: seq<Pair>, selfClosing: bool)
    requires Laid(s, p, pairs, selfClosing) && 0 < p <= |s| && s[p - 1] != SLASH
    ensures var end := RestEnd(p, pairs, selfClosing); 2 <= end <= |s| && (s[end - 2] == SLASH <==> selfClosing)
    decreases |pairs|
  {
    if pairs == [] {
      HoldsAt(s, p, if selfClosing then [SLASH, GREATER] else [GREATER], 0);
    } else {
      QuotedHolds(s, p + 1 + |pairs[0].0|, pairs[0].1);
      LaidWithin(s, After(p, pairs[0]), pairs[1..], selfClosing);
      BeforeEnd(s, After(p, pairs[0]), pairs[1..], selfClosing);
    }
  }

  lemma LaidWithin(s: Text, p: nat, pairs: seq<Pair>, selfClosing: bool)
    requires Laid(s, p, pairs, selfClosing)
    ensures p < |s| && EndsName(s[p]) && (pairs != [] <==> s[p] == SPACE)
  {
    if pairs == [] { HoldsAt(s, p, if selfClosing then [SLASH, GREATER] else [GREATER], 0); }
  }

  lemma TagScans(s: Text, p: nat, name: Text, pairs: seq<Pair>, selfClosing: bool)
    requires IsName(name) && ArePairs(pairs) && 0 < p && Holds(s, p - 1, name) && Laid(s, p - 1 + |name|, pairs, selfClosing)
    ensures var end := p - 1 + |name|;
      && p <= |s| && NameEnd(s, p) == end && IsLetter(s[p - 1])
      && Tag(s, p, true) == Attrs(SpansOf(end, pairs), Scan.At(RestEnd(end, pairs, selfClosing)))
  {
    var end := p - 1 + |name|;
    LaidWithin(s, end, pairs, selfClosing);
    RestStarts(s, end, pairs, selfClosing);
    NameReads(s, p - 1, name, RestStart(end, pairs));
    PairsRead(s, end, pairs, selfClosing, []);
    assert [] + SpansOf(end, pairs) == SpansOf(end, pairs);
  }

  lemma TagIsToken(s: Text, p: nat, name: Text, end: nat, attrs: seq<(Span, Span)>, pos: nat, selfClosing: bool)
    requires 2 <= p <= |s| && NameEnd(s, p) == end && Tag(s, p, true) == Attrs(attrs, Scan.At(pos))
    requires s[p - 1..end] == name && Lowered(name) == name && !Among(name, RAW_NAMES, 0)
    requires s[pos - 2] == SLASH <==> selfClosing
    ensures StartTag(s, p, []) == Token(if selfClosing then SelfClosingTagToken else StartTagToken, Scan.At(pos), Span(p - 1, end), attrs, [])
  {
  }

  lemma TagCloses(s: Text, p: nat, name: Text, pairs: seq<Pair>, selfClosing: bool)
    requires IsName(name) && 2 <= p && Holds(s, p - 1, name) && Laid(s, p - 1 + |name|, pairs, selfClosing)
    ensures var end := RestEnd(p - 1 + |name|, pairs, selfClosing); 2 <= end <= |s| && (s[end - 2] == SLASH <==> selfClosing)
  {
    HoldsAt(s, p - 1, name, |name| - 1);
    BeforeEnd(s, p - 1 + |name|, pairs, selfClosing);
  }

  lemma NameIs(s: Text, p: nat, name: Text)
    requires IsName(name) && 0 < p && Holds(s, p - 1, name)
    ensures s[p - 1..p - 1 + |name|] == name && Lowered(name) == name
  {
    PartHolds(s, p - 1, name);
    LoweredIsSame(name);
  }

  lemma TagReads(s: Text, p: nat, name: Text, pairs: seq<Pair>, selfClosing: bool)
    requires IsName(name) && ArePairs(pairs) && !Among(name, RAW_NAMES, 0)
    requires 2 <= p && Holds(s, p - 1, name) && Laid(s, p - 1 + |name|, pairs, selfClosing)
    ensures var end := p - 1 + |name|;
      && p <= |s| && IsLetter(s[p - 1])
      && StartTag(s, p, []) == Token(if selfClosing then SelfClosingTagToken else StartTagToken,
                                     Scan.At(RestEnd(end, pairs, selfClosing)), Span(p - 1, end), SpansOf(end, pairs), [])
  {
    var end := p - 1 + |name|;
    TagScans(s, p, name, pairs, selfClosing);
    TagCloses(s, p, name, pairs, selfClosing);
    NameIs(s, p, name);
    TagIsToken(s, p, name, end, SpansOf(end, pairs), RestEnd(end, pairs, selfClosing), selfClosing);
  }

  lemma FrontHolds(s: Text, p: nat, front: Text, name: Text, rest: Text)
    requires Holds(s, p, front + (name + rest))
    ensures Holds(s, p, front) && Holds(s, p + |front|, name) && Holds(s, p + |front| + |name|, rest)
  {
    HoldsBoth(s, p, front, name + rest);
    HoldsBoth(s, p + |front|, name, rest);
  }

  function StartToken(p: nat, name: Text, pairs: seq<Pair>, selfClosing: bool): Token {
    var end := p + 1 + |name|;
    Token(if selfClosing then SelfClosingTagToken else StartTagToken, Scan.At(RestEnd(end, pairs, selfClosing)), Span(p + 1, end), SpansOf(end, pairs), [])
  }

  lemma StartScans(s: Text, p: nat, name: Text, pairs: seq<Pair>, selfClosing: bool)
    requires IsName(name) && ArePairs(pairs) && !Among(name, RAW_NAMES, 0)
    requires p < |s| && s[p] == LESS && Holds(s, p + 1, name) && Laid(s, p + 1 + |name|, pairs, selfClosing)
    ensures Parse(AnyToken, s, p, false, []) == StartToken(p, name, pairs, selfClosing)
  {
    TagReads(s, p + 2, name, pairs, selfClosing);
    MarkupOpens(s, p);
    assert Parse(MarkupAt, s, p, false, []) == StartTag(s, p + 2, []);
  }

  lemma StartHolding(s: Text, p: nat, name: Text, pairs: seq<Pair>, selfClosing: bool)
    requires Holds(s, p + 1, name) && Laid(s, p + 1 + |name|, pairs, selfClosing)
    ensures Holding(s, StartToken(p, name, pairs, selfClosing), Raw(if selfClosing then SelfClosingTagToken else StartTagToken, name, pairs),
                    RestEnd(p + 1 + |name|, pairs, selfClosing))
  {
    var end := p + 1 + |name|;
    SpansHold(s, end, pairs, selfClosing);
    PartsAreParts(s, SpansOf(end, pairs), pairs);
    PartHolds(s, p + 1, name);
  }

  lemma TokenReads(s: Text, p: nat, token: Token, raw: Raw, q: nat)
    requires p <= |s| && Parse(AnyToken, s, p, false, []) == token && Holding(s, token, raw, q)
    ensures Reads(s, p, raw, q)
  {
  }

  lemma LaidReads(s: Text, p: nat, name: Text, pairs: seq<Pair>, selfClosing: bool, q: nat)
    requires IsName(name) && ArePairs(pairs) && !Among(name, RAW_NAMES, 0) && q == RestEnd(p + 1 + |name|, pairs, selfClosing)
    requires p < |s| && s[p] == LESS && Holds(s, p + 1, name) && Laid(s, p + 1 + |name|, pairs, selfClosing)
    ensures Reads(s, p, Raw(if selfClosing then SelfClosingTagToken else StartTagToken, name, pairs), q)
  {
    var raw := Raw(if selfClosing then SelfClosingTagToken else StartTagToken, name, pairs);
    StartHolding(s, p, name, pairs, selfClosing);
    StartScans(s, p, name, pairs, selfClosing);
    TokenReads(s, p, StartToken(p, name, pairs, selfClosing), raw, q);
  }

  lemma EndScans(s: Text, p: nat, name: Text)
    requires IsName(name) && p + 1 < |s| && s[p] == LESS && s[p + 1] == SLASH && Holds(s, p + 2, name) && Holds(s, p + 2 + |name|, [GREATER])
    ensures Parse(AnyToken, s, p, false, []) == Token(EndTagToken, Scan.At(p + 3 + |name|), Span(p + 2, p + 2 + |name|), [], [])
  {
    HoldsAt(s, p + 2 + |name|, [GREATER], 0);
    NameReads(s, p + 2, name, p + 2 + |name|);
    MarkupOpens(s, p);
    assert Tag(s, p + 3, false) == Attrs([], Scan.At(p + 3 + |name|));
  }

  /** An end tag. */
  lemma EndTagReads(s: Text, p: nat, name: Text, q: nat)
    requires IsName(name) && p + 1 < |s| && s[p] == LESS && s[p + 1] == SLASH && Holds(s, p + 2, name) && Holds(s, p + 2 + |name|, [GREATER])
    requires q == p + 3 + |name|
    ensures Reads(s, p, Raw(EndTagToken, name, []), q)
  {
    EndScans(s, p, name);
    PartHolds(s, p + 2, name);
    TokenReads(s, p, Token(EndTagToken, Scan.At(q), Span(p + 2, p + 2 + |name|), [], []), Raw(EndTagToken, name, []), q);
  }

  lemma {:induction false} OpeningIs(s: Text, p: nat, q: nat)
    requires p <= q <= |s| && forall k :: p <= k < q ==> s[k] != LESS
    requires q < |s| ==> q + 1 < |s| && s[q] == LESS && OpensToken(s[q + 1])
    ensures Opening(s, p) == if q < |s| then Scan.At(q) else AtEnd
    decreases q - p
  {
    if p < q { OpeningIs(s, p + 1, q); }
  }

  /** Text up to the next token or the end. */
  lemma TextReads(s: Text, p: nat, e: Text)
    requires e != [] && Holds(s, p, e) && forall k :: 0 <= k < |e| ==> e[k] != LESS
    requires var q := p + |e|; q < |s| ==> q + 1 < |s| && s[q] == LESS && OpensToken(s[q + 1])
    ensures Reads(s, p, Raw(TextToken, e, []), p + |e|)
  {
    var q := p + |e|;
    forall k | p <= k < q ensures s[k] != LESS { HoldsAt(s, p, e, k - p); }
    OpeningIs(s, p, q);
    PartHolds(s, p, e);
  }

  // ----- Comments and declarations ---------------------------------------------------

  /** After `dashes` dashes, a comment does not end within the data, and does with the "-->" after it. */
  predicate Encloses(data: Text, dashes: nat)
    decreases |data|
  {
    if data == [] then true
    else if data[0] == DASH then Encloses(data[1..], dashes + 1)
    else if dashes < 2 then Encloses(data[1..], 0)
    else if data[0] == GREATER then false
    else if data[0] == BANG then |data| > 1 && data[1] != GREATER && Encloses(data[2..], 0)
    else Encloses(data[1..], 0)
  }

  /** The scan stops at the "-->" after the data. */
  ghost predicate StopsAfter(s: Text, p: nat, data: Text, dashes: nat)
    requires p <= |s|
  {
    Comment(s, p, dashes) == Body(p + |data|, Scan.At(p + |data| + 3))
  }

  lemma CommentEnd(s: Text, p: nat, dashes: nat)
    requires Holds(s, p, [DASH, DASH, GREATER])
    ensures StopsAfter(s, p, [], dashes)
  {
    HoldsAt(s, p, [DASH, DASH, GREATER], 0);
    HoldsAt(s, p, [DASH, DASH, GREATER], 1);
    HoldsAt(s, p, [DASH, DASH, GREATER], 2);
    assert Comment(s, p + 1, dashes + 1) == Comment(s, p + 2, dashes + 2);
  }

  lemma {:induction false} CommentScansIff(s: Text, p: nat, data: Text, dashes: nat)
    requires Holds(s, p, data) && Holds(s, p + |data|, [DASH, DASH, GREATER])
    ensures StopsAfter(s, p, data, dashes) <==> Encloses(data, dashes)
    decreases |data|
  {
    if data == [] {
      CommentEnd(s, p, dashes);
    } else {
      HoldsAt(s, p, data, 0);
      HoldsTail(s, p, data);
      HoldsAt(s, p + |data|, [DASH, DASH, GREATER], 0);
      if data[0] == BANG && dashes >= 2 {
        if |data| > 1 {
          HoldsAt(s, p, data, 1);
          HoldsTail(s, p + 1, data[1..]);
          assert data[1..][1..] == data[2..];
          CommentScansIff(s, p + 2, data[2..], 0);
        } else {
          DashEaten(s, p, dashes);
        }
      } else {
        CommentScansIff(s, p + 1, data[1..], if data[0] == DASH then dashes + 1 else 0);
      }
    }
  }

  lemma HoldsTail(s: Text, p: nat, text: Text)
    requires text != [] && Holds(s, p, text)
    ensures Holds(s, p + 1, text[1..])
  {
    assert text == [text[0]] + text[1..];
    HoldsBoth(s, p, [text[0]], text[1..]);
  }

  /** A "!" after two dashes takes the first dash of the end with it. */
  lemma DashEaten(s: Text, p: nat, dashes: nat)
    requires dashes >= 2 && Holds(s, p + 1, [DASH, DASH, GREATER]) && s[p] == BANG
    ensures !StopsAfter(s, p, [BANG], dashes)
  {
    HoldsAt(s, p + 1, [DASH, DASH, GREATER], 0);
    HoldsAt(s, p + 1, [DASH, DASH, GREATER], 1);
    HoldsAt(s, p + 1, [DASH, DASH, GREATER], 2);
    assert Comment(s, p, dashes) == Comment(s, p + 2, 0) == Comment(s, p + 3, 1) == Comment(s, p + 4, 0);
    CommentMovesOn(s, p + 4, 0);
  }

  /** What is parsed at a "<!--". */
  lemma CommentScans(s: Text, p: nat)
    requires p + 4 <= |s| && s[p] == LESS && s[p + 1] == BANG && s[p + 2] == DASH && s[p + 3] == DASH
    ensures var body := Comment(s, p + 4, 2);
      Parse(AnyToken, s, p, false, []) == Plain(CommentToken, p + 4, Body(if body.end < p + 4 then p + 4 else body.end, body.scan), [])
  {
    MarkupOpens(s, p);
    assert Parse(MarkupAt, s, p, false, []) == Declaration(AnyDeclaration, s, p + 2, false, []);
    assert Declaration(AnyDeclaration, s, p + 2, false, []) == Declaration(Declared(true), s, p + 2, false, []);
  }

  /** The opening of a comment, its data and its end. */
  ghost predicate CommentAt(s: Text, p: nat, data: Text) {
    && p + 4 <= |s| && s[p] == LESS && s[p + 1] == BANG && s[p + 2] == DASH && s[p + 3] == DASH
    && Holds(s, p + 4, data) && Holds(s, p + 4 + |data|, [DASH, DASH, GREATER])
  }

  function CommentAs(p: nat, body: Body): Token {
    Plain(CommentToken, p, Body(if body.end < p then p else body.end, body.scan), [])
  }

  lemma CommentHolding(s: Text, p: nat, data: Text, body: Body)
    requires Holds(s, p, data)
    ensures Holding(s, CommentAs(p, body), Raw(CommentToken, data, []), p + |data| + 3) <== body == Body(p + |data|, Scan.At(p + |data| + 3))
  {
    PartHolds(s, p, data);
  }

  lemma CommentReads(s: Text, p: nat, data: Text, q: nat)
    requires CommentAt(s, p, data) && q == p + 7 + |data| && StopsAfter(s, p + 4, data, 2)
    ensures Reads(s, p, Raw(CommentToken, data, []), q)
  {
    CommentScans(s, p);
    CommentHolding(s, p + 4, data, Comment(s, p + 4, 2));
    TokenReads(s, p, CommentAs(p + 4, Comment(s, p + 4, 2)), Raw(CommentToken, data, []), q);
  }

  lemma CommentNeeds(s: Text, p: nat, data: Text, body: Body, q: nat)
    requires data != [] && q == p + |data| + 3 && Holding(s, CommentAs(p, body), Raw(CommentToken, data, []), q)
    ensures body == Body(p + |data|, Scan.At(q))
  {
  }

  /** A comment that is written is the one that is read exactly if its data encloses no end of it. */
  lemma CommentReadsIff(s: Text, p: nat, data: Text, q: nat)
    requires CommentAt(s, p, data) && q == p + 7 + |data|
    ensures Reads(s, p, Raw(CommentToken, data, []), q) <==> StopsAfter(s, p + 4, data, 2)
    ensures StopsAfter(s, p + 4, data, 2) <==> Encloses(data, 2)
  {
    CommentScansIff(s, p + 4, data, 2);
    if StopsAfter(s, p + 4, data, 2) {
      CommentReads(s, p, data, q);
    } else if Reads(s, p, Raw(CommentToken, data, []), q) {
      CommentScans(s, p);
      CommentNeeds(s, p + 4, data, Comment(s, p + 4, 2), q);
    }
  }

  /** Without a ">", data encloses no end, unless it is a "!" right after two dashes at its own end. */
  lemma {:induction false} NoAngleEncloses(data: Text, dashes: nat)
    requires GREATER !in data && (data != [] ==> data[|data| - 1] != BANG)
    ensures Encloses(data, dashes)
    decreases |data|
  {
    if |data| == 1 {
      assert data[1..] == [];
    } else if data != [] {
      assert data[1..][|data| - 2] == data[|data| - 1];
      NoAngleEncloses(data[1..], dashes + 1);
      NoAngleEncloses(data[1..], 0);
      NoAngleEncloses(data[2..], 0);
    }
  }

  // ----- Doctypes ----------------------------------------------------------------------

  /** No ">" and no white space at the start. */
  predicate IsDoctype(data: Text) {
    GREATER !in data && (data != [] ==> !IsSpace(data[0]))
  }

  lemma WordReads(s: Text, p: nat)
    requires Holds(s, p, DOCTYPE_WORD)
    ensures WordLength(s, p, DOCTYPE, 0) == |DOCTYPE| && s[p] != DASH && s[p + 7] == SPACE
  {
    assert forall i :: 0 <= i < 7 ==> s[p + i] == DOCTYPE_WORD[i];
    WordIs(s, p, 7);
    HoldsAt(s, p, DOCTYPE_WORD, 0);
    HoldsAt(s, p, DOCTYPE_WORD, 7);
  }

  lemma SameLetters(i: nat)
    requires i < 7
    ensures SameLetter(DOCTYPE_WORD[i], DOCTYPE[i])
  {
    if i == 0 {} else if i == 1 {} else if i == 2 {} else if i == 3 {} else if i == 4 {} else if i == 5 {} else {}
  }

  lemma {:induction false} WordIs(s: Text, p: nat, n: nat)
    requires n <= 7 && p + 7 <= |s| && forall i :: 0 <= i < 7 ==> s[p + i] == DOCTYPE_WORD[i]
    ensures WordLength(s, p, DOCTYPE, 7 - n) == 7
  {
    if n > 0 {
      WordIs(s, p, n - 1);
      SameLetters(7 - n);
    }
  }

  lemma DoctypeScans(s: Text, p: nat, data: Text)
    requires IsDoctype(data) && p + 1 < |s| && s[p] == LESS && s[p + 1] == BANG
    requires Holds(s, p + 2, DOCTYPE_WORD) && Holds(s, p + 10, data) && Holds(s, p + 10 + |data|, [GREATER])
    ensures Parse(AnyToken, s, p, false, []) == Token(DoctypeToken, Scan.At(p + 11 + |data|), Span(p + 10, p + 10 + |data|), [], [])
  {
    WordReads(s, p + 2);
    HoldsAt(s, p + 10 + |data|, [GREATER], 0);
    if data != [] { HoldsAt(s, p + 10, data, 0); }
    SpaceEnds(s, p + 10);
    forall k | p + 10 <= k < p + 10 + |data| ensures s[k] != GREATER { HoldsAt(s, p + 10, data, k - p - 10); }
    FindIs(s, p + 10, GREATER, p + 10 + |data|);
    MarkupOpens(s, p);
    assert Parse(MarkupAt, s, p, false, []) == Declaration(AnyDeclaration, s, p + 2, false, []);
    assert Declaration(AnyDeclaration, s, p + 2, false, []) == Declaration(Declared(false), s, p + 2, false, []);
    assert Declaration(Declared(false), s, p + 2, false, []) == Declaration(NoComment, s, p + 2, false, []);
  }

  lemma DoctypeReads(s: Text, p: nat, data: Text, q: nat)
    requires IsDoctype(data) && p + 1 < |s| && s[p] == LESS && s[p + 1] == BANG && q == p + 11 + |data|
    requires Holds(s, p + 2, DOCTYPE_WORD) && Holds(s, p + 10, data) && Holds(s, p + 10 + |data|, [GREATER])
    ensures Reads(s, p, Raw(DoctypeToken, data, []), q)
  {
    DoctypeScans(s, p, data);
    PartHolds(s, p + 10, data);
    TokenReads(s, p, Token(DoctypeToken, Scan.At(q), Span(p + 10, p + 10 + |data|), [], []), Raw(DoctypeToken, data, []), q);
  }

  // ----- All tokens ----------------------------------------------------------------------

  /** What is found again when it is written. */
  ghost predicate IsProper(raw: Raw) {
    match raw.tt
    case ErrorToken => false
    case TextToken => raw.data != [] && LESS !in raw.data && raw.pairs == []
    case StartTagToken => IsName(raw.data) && ArePairs(raw.pairs) && !Among(raw.data, RAW_NAMES, 0)
    case SelfClosingTagToken => IsName(raw.data) && ArePairs(raw.pairs) && !Among(raw.data, RAW_NAMES, 0)
    case EndTagToken => IsName(raw.data) && raw.pairs == []
    case CommentToken => Encloses(raw.data, 2) && raw.pairs == []
    case DoctypeToken => IsDoctype(raw.data) && raw.pairs == []
  }

  /** A token is laid out from p on. */
  ghost predicate LaidOut(s: Text, p: nat, raw: Raw) {
    var d := raw.data;
    if raw.tt == TextToken then Holds(s, p, d)
    else
      && p + 1 < |s| && s[p] == LESS
      && match raw.tt
         case StartTagToken => Holds(s, p + 1, d) && Laid(s, p + 1 + |d|, raw.pairs, false)
         case SelfClosingTagToken => Holds(s, p + 1, d) && Laid(s, p + 1 + |d|, raw.pairs, true)
         case EndTagToken => s[p + 1] == SLASH && Holds(s, p + 2, d) && Holds(s, p + 2 + |d|, [GREATER])
         case CommentToken => CommentAt(s, p, d)
         case DoctypeToken => s[p + 1] == BANG && Holds(s, p + 2, DOCTYPE_WORD) && Holds(s, p + 10, d) && Holds(s, p + 10 + |d|, [GREATER])
         case _ => false
  }

  function EndOf(p: nat, raw: Raw): nat {
    var n := |raw.data|;
    match raw.tt
    case ErrorToken => p
    case TextToken => p + n
    case StartTagToken => RestEnd(p + 1 + n, raw.pairs, false)
    case SelfClosingTagToken => RestEnd(p + 1 + n, raw.pairs, true)
    case EndTagToken => p + 3 + n
    case CommentToken => p + 7 + n
    case DoctypeToken => p + 11 + n
  }

  /** Text ends where markup opens, or with the text. */
  ghost predicate TextEnds(s: Text, q: nat) {
    q < |s| ==> q + 1 < |s| && s[q] == LESS && OpensToken(s[q + 1])
  }

  lemma ProperReads(s: Text, p: nat, raw: Raw, q: nat)
    requires IsProper(raw) && LaidOut(s, p, raw) && q == EndOf(p, raw) && (raw.tt == TextToken ==> TextEnds(s, q))
    ensures Reads(s, p, raw, q)
  {
    match raw.tt
    case TextToken => TextReads(s, p, raw.data);
    case StartTagToken => LaidReads(s, p, raw.data, raw.pairs, false, q);
    case SelfClosingTagToken => LaidReads(s, p, raw.data, raw.pairs, true, q);
    case EndTagToken => EndTagReads(s, p, raw.data, q);
    case CommentToken => CommentReadsIff(s, p, raw.data, q);
    case DoctypeToken => DoctypeReads(s, p, raw.data, q);
    case ErrorToken =>
  }

  lemma MarkupStarts(s: Text, p: nat, raw: Raw)
    requires IsProper(raw) && raw.tt != TextToken && LaidOut(s, p, raw)
    ensures TextEnds(s, p)
  {
    if raw.tt == StartTagToken || raw.tt == SelfClosingTagToken { HoldsAt(s, p + 1, raw.data, 0); }
  }

  /** Proper tokens, no text right after text. */
  ghost predicate AreProper(raws: seq<Raw>) {
    raws != [] ==>
      && IsProper(raws[0]) && AreProper(raws[1..])
      && (|raws| > 1 && raws[0].tt == TextToken ==> raws[1].tt != TextToken)
  }

  ghost predicate AllLaid(s: Text, p: nat, raws: seq<Raw>)
    decreases |raws|
  {
    if raws == [] then p == |s| else LaidOut(s, p, raws[0]) && AllLaid(s, EndOf(p, raws[0]), raws[1..])
  }

  lemma RawsStep(s: Text, p: nat, raw: Raw, q: nat)
    requires p < q <= |s| && Reads(s, p, raw, q)
    ensures Raws(s, p) == [raw] + Raws(s, q)
  {
    if q == |s| { NothingLeft(s); }
  }

  lemma NothingLeft(s: Text)
    ensures Raws(s, |s|) == []
  {
    ErrorAtEnd(s);
  }

  lemma ErrorAtEnd(s: Text)
    ensures Parse(AnyToken, s, |s|, false, []) == Token(ErrorToken, AtEnd, Span(|s|, |s|), [], [])
  {
    assert Opening(s, |s|) == AtEnd;
    assert Parse(TextOrMarkup, s, |s|, false, []) == Plain(ErrorToken, |s|, Body(|s|, AtEnd), []);
  }

  lemma TextIsFollowed(s: Text, q: nat, raws: seq<Raw>)
    requires AllLaid(s, q, raws) && AreProper(raws) && (raws != [] ==> raws[0].tt != TextToken)
    ensures TextEnds(s, q)
  {
    if raws != [] { MarkupStarts(s, q, raws[0]); }
  }

  lemma {:induction false} RestMoves(s: Text, p: nat, pairs: seq<Pair>, selfClosing: bool)
    requires Laid(s, p, pairs, selfClosing)
    ensures p < RestEnd(p, pairs, selfClosing) <= |s|
    decreases |pairs|
  {
    if pairs != [] { RestMoves(s, After(p, pairs[0]), pairs[1..], selfClosing); }
  }

  lemma TokenMoves(s: Text, p: nat, raw: Raw)
    requires IsProper(raw) && LaidOut(s, p, raw)
    ensures p < EndOf(p, raw) <= |s|
  {
    if raw.tt == StartTagToken { RestMoves(s, p + 1 + |raw.data|, raw.pairs, false); }
    if raw.tt == SelfClosingTagToken { RestMoves(s, p + 1 + |raw.data|, raw.pairs, true); }
  }

  /** Proper tokens that are laid out are the tokens that are found. */
  lemma {:induction false} LaidTokensRead(s: Text, p: nat, raws: seq<Raw>)
    requires p <= |s| && AreProper(raws) && AllLaid(s, p, raws)
    ensures Raws(s, p) == raws
    decreases |raws|
  {
    if raws == [] {
      NothingLeft(s);
    } else {
      var q := EndOf(p, raws[0]);
      TokenMoves(s, p, raws[0]);
      LaidTokensRead(s, q, raws[1..]);
      FirstReads(s, p, raws, q);
      RawsStep(s, p, raws[0], q);
      assert [raws[0]] + raws[1..] == raws;
    }
  }

  lemma FirstReads(s: Text, p: nat, raws: seq<Raw>, q: nat)
    requires raws != [] && AreProper(raws) && AllLaid(s, p, raws) && q == EndOf(p, raws[0])
    ensures Reads(s, p, raws[0], q)
  {
    if raws[0].tt == TextToken { TextIsFollowed(s, q, raws[1..]); }
    ProperReads(s, p, raws[0], q);
  }

  // ----- Written tokens are laid out -------------------------------------------------------

  function Strings(raws: seq<Raw>): Text {
    if raws == [] then [] else RawString(raws[0]) + Strings(raws[1..])
  }

  lemma StringIsLaid(s: Text, p: nat, raw: Raw)
    requires IsProper(raw) && Holds(s, p, RawString(raw))
    ensures LaidOut(s, p, raw) && EndOf(p, raw) == p + |RawString(raw)|
  {
    if raw.tt == StartTagToken || raw.tt == SelfClosingTagToken { StartStringIsLaid(s, p, raw); } else { OtherStringIsLaid(s, p, raw); }
  }

  lemma StartStringIsLaid(s: Text, p: nat, raw: Raw)
    requires (raw.tt == StartTagToken || raw.tt == SelfClosingTagToken) && Holds(s, p, RawString(raw))
    ensures LaidOut(s, p, raw) && EndOf(p, raw) == p + |RawString(raw)|
  {
    var selfClosing := raw.tt == SelfClosingTagToken;
    StartIsLaid(s, p, raw.data, raw.pairs, selfClosing, TagRest(raw.pairs, selfClosing));
  }

  lemma OtherStringIsLaid(s: Text, p: nat, raw: Raw)
    requires raw.tt != StartTagToken && raw.tt != SelfClosingTagToken && IsProper(raw) && Holds(s, p, RawString(raw))
    ensures LaidOut(s, p, raw) && EndOf(p, raw) == p + |RawString(raw)|
  {
    match raw.tt
    case EndTagToken => EndIsLaid(s, p, raw.data);
    case CommentToken => CommentIsLaid(s, p, raw.data);
    case DoctypeToken => DoctypeIsLaid(s, p, raw.data);
    case _ =>
  }

  lemma StartIsLaid(s: Text, p: nat, name: Text, pairs: seq<Pair>, selfClosing: bool, rest: Text)
    requires rest == TagRest(pairs, selfClosing) && Holds(s, p, [LESS] + (name + rest))
    ensures p + 1 < |s| && s[p] == LESS && Holds(s, p + 1, name) && Laid(s, p + 1 + |name|, pairs, selfClosing)
    ensures RestEnd(p + 1 + |name|, pairs, selfClosing) == p + |[LESS] + (name + rest)|
  {
    Front(s, p, name, rest);
    RestIsLaid(s, p + 1 + |name|, pairs, selfClosing);
    LaidWithin(s, p + 1 + |name|, pairs, selfClosing);
  }

  lemma Front(s: Text, p: nat, name: Text, rest: Text)
    requires Holds(s, p, [LESS] + (name + rest))
    ensures p < |s| && s[p] == LESS && Holds(s, p + 1, name) && Holds(s, p + 1 + |name|, rest)
  {
    FrontHolds(s, p, [LESS], name, rest);
    HoldsAt(s, p, [LESS], 0);
  }

  lemma EndIsLaid(s: Text, p: nat, name: Text)
    requires Holds(s, p, [LESS, SLASH] + (name + [GREATER]))
    ensures p + 1 < |s| && s[p] == LESS && s[p + 1] == SLASH && Holds(s, p + 2, name) && Holds(s, p + 2 + |name|, [GREATER])
  {
    FrontHolds(s, p, [LESS, SLASH], name, [GREATER]);
    HoldsAt(s, p, [LESS, SLASH], 0);
    HoldsAt(s, p, [LESS, SLASH], 1);
  }

  lemma CommentIsLaid(s: Text, p: nat, data: Text)
    requires Holds(s, p, [LESS, BANG, DASH, DASH] + (data + [DASH, DASH, GREATER]))
    ensures CommentAt(s, p, data)
  {
    FrontHolds(s, p, [LESS, BANG, DASH, DASH], data, [DASH, DASH, GREATER]);
    HoldsAt(s, p, [LESS, BANG, DASH, DASH], 0);
    HoldsAt(s, p, [LESS, BANG, DASH, DASH], 1);
    HoldsAt(s, p, [LESS, BANG, DASH, DASH], 2);
    HoldsAt(s, p, [LESS, BANG, DASH, DASH], 3);
  }

  lemma DoctypeIsLaid(s: Text, p: nat, data: Text)
    requires Holds(s, p, [LESS, BANG] + (DOCTYPE_WORD + (data + [GREATER])))
    ensures p + 1 < |s| && s[p] == LESS && s[p + 1] == BANG
    ensures Holds(s, p + 2, DOCTYPE_WORD) && Holds(s, p + 10, data) && Holds(s, p + 10 + |data|, [GREATER])
  {
    FrontHolds(s, p, [LESS, BANG], DOCTYPE_WORD, data + [GREATER]);
    HoldsBoth(s, p + 10, data, [GREATER]);
    HoldsAt(s, p, [LESS, BANG], 0);
    HoldsAt(s, p, [LESS, BANG], 1);
  }

  lemma FirstIsLaid(s: Text, p: nat, raw: Raw, rest: Text)
    requires IsProper(raw) && Holds(s, p, RawString(raw) + rest)
    ensures LaidOut(s, p, raw) && Holds(s, EndOf(p, raw), rest) && EndOf(p, raw) == p + |RawString(raw)|
  {
    HoldsBoth(s, p, RawString(raw), rest);
    StringIsLaid(s, p, raw);
  }

  lemma {:induction false} StringsAreLaid(s: Text, p: nat, raws: seq<Raw>)
    requires AreProper(raws) && Holds(s, p, Strings(raws)) && p + |Strings(raws)| == |s|
    ensures AllLaid(s, p, raws)
    decreases |raws|
  {
    if raws != [] {
      FirstIsLaid(s, p, raws[0], Strings(raws[1..]));
      StringsAreLaid(s, EndOf(p, raws[0]), raws[1..]);
    }
  }

  /** Proper tokens are found again in what is written for them. */
  lemma WrittenTokensRead(raws: seq<Raw>)
    requires AreProper(raws)
    ensures Raws(Strings(raws), 0) == raws
  {
    StringsAreLaid(Strings(raws), 0, raws);
    LaidTokensRead(Strings(raws), 0, raws);
  }
}
