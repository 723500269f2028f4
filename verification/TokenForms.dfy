/**
 The forms of markup that nothing writes: raw text elements, values without quotes or in single
 quotes, CDATA sections, bogus comments, and what is cut short by the end of the text.
 */
module TokenForms {
  import Escape
  import opened HtmlText
  import opened TokenStrings
  import ScriptText

  // ----- The classes of bytes --------------------------------------------------------------

  /** White space is space, tab, line feed, form feed and carriage return; letters are the 26 in either case. */
  lemma ClassesAre(c: byte)
    ensures IsSpace(c) <==> c == ' ' as int || c == '\t' as int || c == '\n' as int || c == '\r' as int || c == 0x0C
    ensures IsLetter(c) <==> 0 <= c as int - 'a' as int < 26 || 0 <= c as int - 'A' as int < 26
    ensures IsUpper(c) <==> Lower(c) != c
    ensures IsUpper(c) ==> IsLetter(c) && Lower(c) as int == c as int + 32
  {
  }

  /** What ends a name, a key and a value without quotes, and what opens markup after a "<". */
  lemma EndsAre(c: byte)
    ensures EndsName(c) <==> IsSpace(c) || c == SLASH || c == GREATER
    ensures EndsKey(c) <==> IsSpace(c) || c == SLASH || c == GREATER || c == EQUALS
    ensures EndsValue(c) <==> IsSpace(c) || c == GREATER
    ensures OpensToken(c) <==> IsLetter(c) || c == SLASH || c == BANG || c == '?' as int
  {
  }

  // ----- Attributes --------------------------------------------------------------------------

  lemma {:induction false} SpacesAre(s: Text, p: nat, q: nat)
    requires p <= q < |s| && !IsSpace(s[q]) && forall k :: p <= k < q ==> IsSpace(s[k])
    ensures SkipSpace(s, p) == q
    decreases q - p
  {
    if p < q { SpacesAre(s, p + 1, q); }
  }

  lemma {:induction false} ValueEndIs(s: Text, p: nat, q: nat)
    requires p <= q < |s| && EndsValue(s[q]) && forall k :: p <= k < q ==> !EndsValue(s[k])
    ensures ValueEnd(s, p) == q
    decreases q - p
  {
    if p < q { ValueEndIs(s, p + 1, q); }
  }

  /** A key ends before an equals sign or the end of the tag, and otherwise takes the byte that ends it along. */
  lemma KeyEnds(s: Text, p: nat, q: nat)
    requires p <= q < |s| && EndsKey(s[q]) && forall k :: p <= k < q ==> !EndsKey(s[k])
    ensures AttrKey(s, p) == Piece(Span(p, q), Scan.At(if s[q] == EQUALS || s[q] == GREATER then q else q + 1))
  {
    KeyEndIs(s, p, q);
  }

  /** Without an equals sign after any white space there is no value, and that byte is what follows. */
  lemma NoValueReads(s: Text, p: nat, q: nat)
    requires p <= q < |s| && !IsSpace(s[q]) && s[q] != EQUALS && forall k :: p <= k < q ==> IsSpace(s[k])
    ensures AttrValue(s, p) == Piece(Span(p, p), Scan.At(q))
  {
    SpacesAre(s, p, q);
  }

  /** An equals sign at q and the first byte r after it that is no white space. */
  ghost predicate ValueAt(s: Text, p: nat, q: nat, r: nat) {
    && p <= q < r < |s| && s[q] == EQUALS && !IsSpace(s[r])
    && (forall k :: p <= k < q ==> IsSpace(s[k])) && (forall k :: q < k < r ==> IsSpace(s[k]))
  }

  lemma FromValue(s: Text, p: nat, q: nat, r: nat)
    requires ValueAt(s, p, q, r)
    ensures AttrValue(s, p) == AfterEquals(s, p, r)
  {
    SpacesAre(s, p, q);
    SpacesAre(s, q + 1, r);
  }

  /** An equals sign and the end of the tag: no value. */
  lemma EmptyValueReads(s: Text, p: nat, q: nat, r: nat)
    requires ValueAt(s, p, q, r) && s[r] == GREATER
    ensures AttrValue(s, p) == Piece(Span(p, p), Scan.At(r))
  {
    FromValue(s, p, q, r);
  }

  /** A value in single or double quotes, up to the same quote. */
  lemma QuotedValueReads(s: Text, p: nat, q: nat, r: nat, e: nat)
    requires ValueAt(s, p, q, r) && (s[r] == QUOTE || s[r] == '\'' as int) && r < e < |s| && s[e] == s[r]
    requires forall k :: r < k < e ==> s[k] != s[r]
    ensures AttrValue(s, p) == Piece(Span(r + 1, e), Scan.At(e + 1))
  {
    FromValue(s, p, q, r);
    FindIs(s, r + 1, s[r], e);
  }

  /** A value without quotes, up to white space, which is skipped, or the end of the tag. */
  lemma UnquotedValueReads(s: Text, p: nat, q: nat, r: nat, e: nat)
    requires ValueAt(s, p, q, r) && s[r] != QUOTE && s[r] != '\'' as int && s[r] != GREATER
    requires r < e < |s| && EndsValue(s[e]) && forall k :: r < k < e ==> !EndsValue(s[k])
    ensures AttrValue(s, p) == Piece(Span(r, e), Scan.At(if s[e] == GREATER then e else e + 1))
  {
    FromValue(s, p, q, r);
    ValueEndIs(s, r + 1, e);
  }

  /** A tag ends right after a ">". */
  lemma {:induction false} TagEndsAtAngle(s: Text, p: nat, save: bool, acc: seq<(Span, Span)>)
    requires p <= |s| && AllAttrs(s, p, save, acc).scan.At?
    ensures s[AllAttrs(s, p, save, acc).scan.pos - 1] == GREATER
    decreases |s| - p
  {
    if s[p] != GREATER {
      var (key, value, scan) := OneAttr(s, p);
      TagEndsAtAngle(s, scan.pos, save, Saved(acc, save, key, value));
    }
  }

  /** So a tag without one is an error. */
  lemma CutTagIsError(s: Text, p: nat)
    requires p + 1 < |s| && s[p] == LESS && IsLetter(s[p + 1]) && forall k :: p < k < |s| ==> s[k] != GREATER
    ensures Parse(AnyToken, s, p, false, []).tt == ErrorToken
  {
    MarkupOpens(s, p);
    if StartTag(s, p + 2, []).scan.At? { TagEndsAtAngle(s, AfterName(s, p + 2), true, []); }
    assert Parse(MarkupAt, s, p, false, []) == StartTag(s, p + 2, []);
  }

  // ----- Comments ----------------------------------------------------------------------------

  lemma BangEnd(s: Text, p: nat, dashes: nat)
    requires Holds(s, p, [DASH, DASH, BANG, GREATER])
    ensures Comment(s, p, dashes) == Body(p, Scan.At(p + 4))
  {
    HoldsAt(s, p, [DASH, DASH, BANG, GREATER], 0);
    HoldsAt(s, p, [DASH, DASH, BANG, GREATER], 1);
    HoldsAt(s, p, [DASH, DASH, BANG, GREATER], 2);
    HoldsAt(s, p, [DASH, DASH, BANG, GREATER], 3);
    assert Comment(s, p, dashes) == Comment(s, p + 1, dashes + 1) == Comment(s, p + 2, dashes + 2);
  }

  /** "--!>" ends a comment as "-->" does. */
  lemma {:induction false} BangEndsComment(s: Text, p: nat, data: Text, dashes: nat)
    requires Holds(s, p, data) && Holds(s, p + |data|, [DASH, DASH, BANG, GREATER]) && GREATER !in data && BANG !in data
    ensures Comment(s, p, dashes) == Body(p + |data|, Scan.At(p + |data| + 4))
    decreases |data|
  {
    if data == [] {
      BangEnd(s, p, dashes);
    } else {
      HoldsAt(s, p, data, 0);
      HoldsTail(s, p, data);
      BangEndsComment(s, p + 1, data[1..], if data[0] == DASH then dashes + 1 else 0);
    }
  }

  /** "<!-->" and "<!--->" are empty comments. */
  lemma ShortCommentReads(s: Text, p: nat)
    requires p + 5 < |s| && s[p] == LESS && s[p + 1] == BANG && s[p + 2] == DASH && s[p + 3] == DASH
    ensures s[p + 4] == GREATER ==> Parse(AnyToken, s, p, false, []) == Token(CommentToken, Scan.At(p + 5), Span(p + 4, p + 4), [], [])
    ensures s[p + 4] == DASH && s[p + 5] == GREATER ==> Parse(AnyToken, s, p, false, []) == Token(CommentToken, Scan.At(p + 6), Span(p + 4, p + 4), [], [])
  {
    CommentScans(s, p);
  }

  // ----- Cut short by the end of the text ----------------------------------------------------

  /** The dashes right before the end of data, and before it if there is nothing else. */
  function TrailingDashes(data: Text, dashes: nat): nat {
    if data == [] then dashes
    else if data[|data| - 1] == DASH then 1 + TrailingDashes(data[..|data| - 1], dashes) else 0
  }

  /** A comment that does not end is data up to the end of the text, but for up to two dashes there. */
  lemma {:induction false} CutCommentScans(s: Text, p: nat, data: Text, dashes: nat)
    requires Holds(s, p, data) && p + |data| == |s| && GREATER !in data && BANG !in data
    ensures Comment(s, p, dashes) == Body(|s| - if TrailingDashes(data, dashes) > 2 then 2 else TrailingDashes(data, dashes), AtEnd)
    decreases |data|
  {
    if data != [] {
      HoldsAt(s, p, data, 0);
      HoldsTail(s, p, data);
      var more := if data[0] == DASH then dashes + 1 else 0;
      CutCommentScans(s, p + 1, data[1..], more);
      DashesOfTail(data, dashes);
    }
  }

  lemma {:induction false} DashesOfTail(data: Text, dashes: nat)
    requires data != []
    ensures TrailingDashes(data, dashes) == TrailingDashes(data[1..], if data[0] == DASH then dashes + 1 else 0)
  {
    var n := |data| - 1;
    if n == 0 {
      assert data[..0] == [] && data[1..] == [];
    } else {
      assert data[1..][n - 1] == data[n] && data[1..][..n - 1] == data[..n][1..];
      if data[n] == DASH { DashesOfTail(data[..n], dashes); }
    }
  }

  /** An opening "<!" that is cut short is an empty comment: after it, within "doctype", or where there is no ">". */
  lemma CutOpeningReads(s: Text, p: nat)
    requires p + 2 <= |s| <= p + 3 && s[p] == LESS && s[p + 1] == BANG
    ensures Parse(AnyToken, s, p, false, []) == Token(CommentToken, AtEnd, Span(p + 2, |s|), [], [])
  {
    MarkupOpens(s, p);
    assert Parse(MarkupAt, s, p, false, []) == Declaration(AnyDeclaration, s, p + 2, false, []);
  }

  lemma CutDoctypeReads(s: Text, p: nat, n: nat)
    requires p + 4 <= |s| == p + 2 + n && n < 7 && s[p] == LESS && s[p + 1] == BANG && WordLength(s, p + 2, DOCTYPE, 0) == n
    ensures Parse(AnyToken, s, p, false, []) == Token(CommentToken, AtEnd, Span(|s|, |s|), [], [])
  {
    MarkupOpens(s, p);
    assert SameLetter(s[p + 2], DOCTYPE[0]);
    assert Parse(MarkupAt, s, p, false, []) == Declaration(AnyDeclaration, s, p + 2, false, []);
    assert Declaration(AnyDeclaration, s, p + 2, false, []) == Declaration(Declared(false), s, p + 2, false, []);
    assert Declaration(Declared(false), s, p + 2, false, []) == Declaration(NoComment, s, p + 2, false, []);
    assert Declaration(NoComment, s, p + 2, false, []) == Declaration(NoDoctype, s, |s|, false, []);
  }

  /** A text that opens nothing is one text token. */
  lemma LooseAngleIsText(s: Text, p: nat)
    requires p < |s| && forall k :: p <= k < |s| - 1 && s[k] == LESS ==> !OpensToken(s[k + 1])
    ensures Parse(AnyToken, s, p, false, []) == Token(TextToken, AtEnd, Span(p, |s|), [], [])
  {
    NothingOpens(s, p);
  }

  lemma {:induction false} NothingOpens(s: Text, p: nat)
    requires p <= |s| && forall k :: p <= k < |s| - 1 && s[k] == LESS ==> !OpensToken(s[k + 1])
    ensures Opening(s, p) == AtEnd
    decreases |s| - p
  {
    if p < |s| { NothingOpens(s, p + 1); }
  }

  // ----- Raw text, CDATA and what is no markup --------------------------------------------

  lemma RawNamesAre()
    ensures IFRAME == Escape.Bytes("iframe") && NOEMBED == Escape.Bytes("noembed") && NOFRAMES == Escape.Bytes("noframes")
    ensures NOSCRIPT == Escape.Bytes("noscript") && PLAINTEXT == Escape.Bytes("plaintext") && SCRIPT == Escape.Bytes("script")
    ensures STYLE == Escape.Bytes("style") && TEXTAREA == Escape.Bytes("textarea") && TITLE == Escape.Bytes("title") && XMP == Escape.Bytes("xmp")
    ensures RAW_NAMES == [IFRAME, NOEMBED, NOFRAMES, NOSCRIPT, PLAINTEXT, SCRIPT, STYLE, TEXTAREA, TITLE, XMP]
  {
  }

  lemma AmongNames(name: Text)
    ensures Among(name, RAW_NAMES, 0) <==> name in RAW_NAMES
  {
    AmongIsIn(name, RAW_NAMES, 0);
    assert RAW_NAMES[0..] == RAW_NAMES;
  }

  /** A start tag of a raw text element, up to its attributes, leaves its name for the next token, in lower case. */
  lemma RawTagIsKept(s: Text, p: nat, name: Text, rawTag: Text)
    requires 2 <= p <= |s| && NameEnd(s, p) == p - 1 + |name| && s[p - 1..p - 1 + |name|] == name && Tag(s, p, true).scan.At?
    ensures StartTag(s, p, rawTag).rawTag == if Lowered(name) in RAW_NAMES then Lowered(name) else rawTag
  {
    AmongNames(Lowered(name));
  }

  /** A raw text element holds text up to where its own end tag stops it, and then no longer has a name. */
  lemma RawTextIsText(s: Text, p: nat, rawTag: Text, q: nat)
    requires p < q <= |s| && rawTag != [] && rawTag != PLAINTEXT && RawScan(s, p, rawTag) == (if q < |s| then Scan.At(q) else AtEnd)
    ensures Parse(AnyToken, s, p, false, rawTag) == Token(TextToken, if q < |s| then Scan.At(q) else AtEnd, Span(p, q), [], [])
  {
  }

  /** The end tag of an element is "</", its name in either case, and a byte that ends a name. */
  lemma EndTagIs(s: Text, q: nat, tag: Text)
    requires Letters(tag)
    ensures EndTagAt(s, q, tag) <==>
      q + 2 + |tag| < |s| && s[q] == LESS && s[q + 1] == SLASH && Lowered(s[q + 2..q + 2 + |tag|]) == tag && EndsName(s[q + 2 + |tag|])
  {
    if q + 2 <= |s| { WordIsName(s, q + 2, tag, 0); }
    if q + 2 + |tag| < |s| {
      var name := s[q + 2..q + 2 + |tag|];
      assert forall k :: 0 <= k < |tag| ==> name[k] == s[q + 2 + k];
      assert Lowered(name) == tag <==> forall k :: 0 <= k < |tag| ==> Lower(s[q + 2 + k]) == tag[k];
    }
  }

  lemma {:induction false} WordIsName(s: Text, p: nat, tag: Text, i: nat)
    requires Letters(tag) && p + i <= |s| && i <= |tag|
    ensures WordLength(s, p, tag, i) == |tag| <==> p + |tag| <= |s| && forall k :: i <= k < |tag| ==> Lower(s[p + k]) == tag[k]
    decreases |tag| - i
  {
    if i < |tag| && p + i < |s| && SameLetter(s[p + i], tag[i]) { WordIsName(s, p, tag, i + 1); }
  }

  /** Elements other than script: the first end tag ends the text, if an even number of "<" stands before it. */
  lemma RawElementReads(s: Text, p: nat, tag: Text, q: nat)
    requires p < q <= |s| && tag != [] && tag != SCRIPT && tag != PLAINTEXT && Letters(tag) && Angles(s, p, q) % 2 == 0
    requires EndTagAt(s, q, tag) && forall k :: p <= k < q ==> !EndTagAt(s, k, tag)
    ensures Parse(AnyToken, s, p, false, tag) == Token(TextToken, Scan.At(q), Span(p, q), [], [])
  {
    FirstTagIsFoundIff(s, p, tag, q);
    RawTextIsText(s, p, tag, q);
  }

  /** A script: the first end tag ends the text, if no "<!--" stands before it. */
  lemma ScriptReads(s: Text, p: nat, q: nat)
    requires p < q <= |s| && ScriptText.ClosesScript(s, q) && forall k :: p <= k < q ==> !ScriptText.ClosesScript(s, k) && !ScriptText.OpensComment(s, k)
    ensures Parse(AnyToken, s, p, false, SCRIPT) == Token(TextToken, Scan.At(q), Span(p, q), [], [])
  {
    ScriptText.FirstEndTagEndsScript(s, p, q);
    RawTextIsText(s, p, SCRIPT, q);
  }

  /** Everything after a plaintext tag is text. */
  lemma PlaintextIsText(s: Text, p: nat)
    requires p < |s|
    ensures Parse(AnyToken, s, p, false, PLAINTEXT) == Token(TextToken, AtEnd, Span(p, |s|), [], PLAINTEXT)
  {
  }

  /** "</>" is an empty comment, "</" before what is no letter and "<?" are comments up to the next ">". */
  lemma BogusReads(s: Text, p: nat, q: nat)
    requires p + 2 < q < |s| && s[p] == LESS && s[q] == GREATER && forall k :: p + 2 <= k < q ==> s[k] != GREATER
    requires s[p + 1] == '?' as int || (s[p + 1] == SLASH && !IsLetter(s[p + 2]))
    ensures Parse(AnyToken, s, p, false, []) == Token(CommentToken, Scan.At(q + 1), Span(if s[p + 1] == SLASH then p + 2 else p + 1, q), [], [])
  {
    MarkupOpens(s, p);
    FindIs(s, p + 1, GREATER, q);
    FindIs(s, p + 2, GREATER, q);
  }

  lemma EmptyEndReads(s: Text, p: nat)
    requires p + 2 < |s| && s[p] == LESS && s[p + 1] == SLASH && s[p + 2] == GREATER
    ensures Parse(AnyToken, s, p, false, []) == Token(CommentToken, Scan.At(p + 3), Span(p, p), [], [])
  {
    MarkupOpens(s, p);
  }

  // ----- CDATA -----------------------------------------------------------------------------

  const BRACKET: byte := ']' as int

  /** After `brackets` closing brackets, a section does not end within the data. */
  predicate Contains(data: Text, brackets: nat)
    decreases |data|
  {
    data == [] || (if data[0] == BRACKET then Contains(data[1..], brackets + 1) else !(data[0] == GREATER && brackets >= 2) && Contains(data[1..], 0))
  }

  lemma CDataEnd(s: Text, p: nat, brackets: nat)
    requires Holds(s, p, [BRACKET, BRACKET, GREATER])
    ensures CData(s, p, brackets) == Body(p, Scan.At(p + 3))
  {
    HoldsAt(s, p, [BRACKET, BRACKET, GREATER], 0);
    HoldsAt(s, p, [BRACKET, BRACKET, GREATER], 1);
    HoldsAt(s, p, [BRACKET, BRACKET, GREATER], 2);
    assert CData(s, p + 1, brackets + 1) == CData(s, p + 2, brackets + 2);
  }

  lemma {:induction false} CDataScansIff(s: Text, p: nat, data: Text, brackets: nat)
    requires Holds(s, p, data) && Holds(s, p + |data|, [BRACKET, BRACKET, GREATER])
    ensures CData(s, p, brackets) == Body(p + |data|, Scan.At(p + |data| + 3)) <==> Contains(data, brackets)
    decreases |data|
  {
    if data == [] {
      CDataEnd(s, p, brackets);
    } else {
      HoldsAt(s, p, data, 0);
      HoldsTail(s, p, data);
      CDataScansIff(s, p + 1, data[1..], if data[0] == BRACKET then brackets + 1 else 0);
    }
  }

  /** Where "[CDATA[" stands, the whole word is found. */
  lemma {:induction false} CDataWord(s: Text, p: nat, n: nat)
    requires n <= 7 && Holds(s, p, Escape.Bytes("[CDATA["))
    ensures p + 7 <= |s| && ExactLength(s, p, CDATA, 7 - n) == 7
  {
    if n > 0 {
      CDataWord(s, p, n - 1);
      HoldsAt(s, p, Escape.Bytes("[CDATA["), 7 - n);
      CDataLetters(7 - n);
    }
  }

  lemma CDataLetters(i: nat)
    requires i < 7
    ensures CDATA[i] == Escape.Bytes("[CDATA[")[i]
  {
    if i == 0 {} else if i == 1 {} else if i == 2 {} else if i == 3 {} else if i == 4 {} else if i == 5 {} else {}
  }

  /** A CDATA section is text where it is allowed: what stands before the end that the scan finds. */
  lemma CDataReads(s: Text, p: nat, body: Body)
    requires p + 7 <= |s| && ExactLength(s, p, CDATA, 0) == 7 && CData(s, p + 7, 0) == body
    ensures Declaration(NoDoctype, s, p, true, []) == Token(TextToken, body.scan, Span(p + 7, body.end), [], [])
  {
  }

  /** Elsewhere, and for any other opening, there is a comment up to the next ">"; one that is cut short by the end of the text is empty. */
  lemma NoCDataReads(s: Text, p: nat, allowed: bool, n: nat)
    requires p <= |s| && n == ExactLength(s, p, CDATA, 0) && (allowed ==> n < 7)
    ensures Declaration(NoDoctype, s, p, allowed, []) ==
      if allowed && |s| - p == n then Token(CommentToken, AtEnd, Span(|s|, |s|), [], []) else Plain(CommentToken, p, Bogus(s, p), [])
  {
  }
}
