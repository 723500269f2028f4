/**
 What the HTML tokenizer finds, as functions of the whole text and an offset in it: no buffer, no
 reader, no chunks.

 A scan ends at an offset, or at the end of the text (`eof`).  Spans are offsets in the text.
 */
module HtmlText {
  import Escape

  type byte = Escape.byte
  type Text = seq<byte>

  datatype Span = Span(start: int, end: int) {
    function Shift(x: int): Span {
      Span(start + x, end + x)
    }
  }

  datatype TokenType =
    | ErrorToken | TextToken | StartTagToken | EndTagToken | SelfClosingTagToken | CommentToken | DoctypeToken

  predicate IsSpace(c: byte) {
    c == 32 || c == 10 || c == 13 || c == 9 || c == 12
  }

  predicate IsLetter(c: byte) {
    'a' as int <= c <= 'z' as int || 'A' as int <= c <= 'Z' as int
  }

  /** `c` is the lower-case letter `lower`, or its upper-case form. */
  predicate SameLetter(c: byte, lower: byte) {
    var d: int := lower;
    c == lower || c == d - 32
  }

  /** The states of script text, named after the labels of the source. */
  datatype ScriptState =
    | ScriptData | LessThanSign | EndTagOpen | EscapeStart | EscapeStartDash
    | Escaped | EscapedDash | EscapedDashDash | EscapedLessThanSign | EscapedEndTagOpen
    | DoubleEscapeStart | DoubleEscaped | DoubleEscapedDash | DoubleEscapedDashDash
    | DoubleEscapedLessThanSign | DoubleEscapeEnd

  predicate LooksAtOneByte(st: ScriptState) {
    st != EndTagOpen && st != EscapedEndTagOpen && st != DoubleEscapeStart && st != DoubleEscapeEnd
  }

  /** The state after byte `c`, and whether the byte is read again there. */
  function ScriptNext(st: ScriptState, c: byte): (ScriptState, bool)
    requires LooksAtOneByte(st)
  {
    var dash, less, slash := c == '-' as int, c == '<' as int, c == '/' as int;
    match st
    case ScriptData => (if less then LessThanSign else ScriptData, false)
    case LessThanSign => if slash then (EndTagOpen, false) else if c == '!' as int then (EscapeStart, false) else (ScriptData, true)
    case EscapeStart => if dash then (EscapeStartDash, false) else (ScriptData, true)
    case EscapeStartDash => if dash then (EscapedDashDash, false) else (ScriptData, true)
    case Escaped => (if dash then EscapedDash else if less then EscapedLessThanSign else Escaped, false)
    case EscapedDash => (if dash then EscapedDashDash else if less then EscapedLessThanSign else Escaped, false)
    case EscapedDashDash =>
      (if dash then EscapedDashDash else if less then EscapedLessThanSign
       else if c == '>' as int then ScriptData else Escaped, false)
    case EscapedLessThanSign =>
      if slash then (EscapedEndTagOpen, false) else if IsLetter(c) then (DoubleEscapeStart, false) else (ScriptData, true)
    case DoubleEscaped => (if dash then DoubleEscapedDash else if less then DoubleEscapedLessThanSign else DoubleEscaped, false)
    case DoubleEscapedDash =>
      (if dash then DoubleEscapedDashDash else if less then DoubleEscapedLessThanSign else DoubleEscaped, false)
    case DoubleEscapedDashDash =>
      (if dash then DoubleEscapedDashDash else if less then DoubleEscapedLessThanSign
       else if c == '>' as int then ScriptData else DoubleEscaped, false)
    case DoubleEscapedLessThanSign => if slash then (DoubleEscapeEnd, false) else (DoubleEscaped, true)
  }

  /** How many bytes are known to have been read on the way to a state. */
  function Room(st: ScriptState): nat {
    match st
    case LessThanSign => 1
    case EscapedLessThanSign => 1
    case DoubleEscapedLessThanSign => 1
    case EndTagOpen => 2
    case EscapedEndTagOpen => 2
    case DoubleEscapeStart => 2
    case DoubleEscapeEnd => 2
    case _ => 0
  }

  /** The double escape start has read one byte too many. */
  function Ahead(st: ScriptState): nat {
    if st == DoubleEscapeStart then 1 else 0
  }

  /** The states from which the reader may go on without having read anything. */
  function Rank(st: ScriptState): nat {
    match st
    case EscapedLessThanSign => 2
    case LessThanSign => 1
    case EndTagOpen => 1
    case EscapeStart => 1
    case EscapeStartDash => 1
    case EscapedEndTagOpen => 1
    case DoubleEscapeStart => 1
    case DoubleEscapedLessThanSign => 1
    case DoubleEscapeEnd => 1
    case _ => 0
  }

  /** A step that moves the cursor by `moved` keeps room to back up and cannot go on for ever. */
  ghost predicate ScriptProgress(st: ScriptState, next: ScriptState, moved: int) {
    && Room(next) <= Room(st) + moved
    && (Ahead(next) - Ahead(st) < moved || (Ahead(next) - Ahead(st) == moved && Rank(next) < Rank(st)))
  }

  lemma ScriptNextProgresses(st: ScriptState, c: byte)
    requires LooksAtOneByte(st)
    ensures ScriptProgress(st, ScriptNext(st, c).0, if ScriptNext(st, c).1 then 0 else 1)
  {
  }

  function Lower(c: byte): byte {
    if 'A' as int <= c <= 'Z' as int then c + 32 else c
  }

  function Lowered(s: seq<byte>): (r: seq<byte>)
    ensures |r| == |s| && forall i :: 0 <= i < |s| ==> r[i] == Lower(s[i])
  {
    seq(|s|, i requires 0 <= i < |s| => Lower(s[i]))
  }

  predicate OpensToken(c: byte) {
    IsLetter(c) || c == '/' as int || c == '!' as int || c == '?' as int
  }

  /** The elements whose content is raw text, by the first letter of the tag name. */
  function RawTextTags(first: byte): seq<seq<byte>> {
    var c := Lower(first);
    if c == 'i' as int then [IFRAME]
    else if c == 'n' as int then [NOEMBED, NOFRAMES, NOSCRIPT]
    else if c == 'p' as int then [PLAINTEXT]
    else if c == 's' as int then [SCRIPT, STYLE]
    else if c == 't' as int then [TEXTAREA, TITLE]
    else if c == 'x' as int then [XMP]
    else []
  }


  // ----- Words, in bytes -------------------------------------------------------------

  const DOCTYPE: seq<byte> := [100, 111, 99, 116, 121, 112, 101] // doctype
  const CDATA: seq<byte> := [91, 67, 68, 65, 84, 65, 91] // [CDATA[
  const SCRIPT: seq<byte> := [115, 99, 114, 105, 112, 116] // script
  const TEXTAREA: seq<byte> := [116, 101, 120, 116, 97, 114, 101, 97] // textarea
  const TITLE: seq<byte> := [116, 105, 116, 108, 101] // title
  const PLAINTEXT: seq<byte> := [112, 108, 97, 105, 110, 116, 101, 120, 116] // plaintext
  const IFRAME: seq<byte> := [105, 102, 114, 97, 109, 101] // iframe
  const NOEMBED: seq<byte> := [110, 111, 101, 109, 98, 101, 100] // noembed
  const NOFRAMES: seq<byte> := [110, 111, 102, 114, 97, 109, 101, 115] // noframes
  const NOSCRIPT: seq<byte> := [110, 111, 115, 99, 114, 105, 112, 116] // noscript
  const STYLE: seq<byte> := [115, 116, 121, 108, 101] // style
  const XMP: seq<byte> := [120, 109, 112] // xmp

  /** The elements whose content is raw text. */
  const RAW_NAMES: seq<Text> := [IFRAME, NOEMBED, NOFRAMES, NOSCRIPT, PLAINTEXT, SCRIPT, STYLE, TEXTAREA, TITLE, XMP]

  /** The word is one of the words from i on. */
  predicate Among(word: Text, words: seq<Text>, i: nat)
    decreases |words| - i
  {
    i < |words| && (words[i] == word || Among(word, words, i + 1))
  }

  // ----- Simple scans ----------------------------------------------------------------

  /** The first offset from p on that is no white space, or the end. */
  function SkipSpace(s: Text, p: nat): (q: nat)
    requires p <= |s|
    ensures p <= q <= |s| && (q < |s| ==> !IsSpace(s[q]))
    decreases |s| - p
  {
    if p < |s| && IsSpace(s[p]) then SkipSpace(s, p + 1) else p
  }

  /** The first offset from p on with that byte, or the end. */
  function Find(s: Text, p: nat, c: byte): (q: nat)
    requires p <= |s|
    ensures p <= q <= |s| && (q < |s| ==> s[q] == c)
    decreases |s| - p
  {
    if p < |s| && s[p] != c then Find(s, p + 1, c) else p
  }

  /** They find the first such offset. */
  lemma {:induction false} ScansFindFirst(s: Text, p: nat, c: byte)
    requires p <= |s|
    ensures forall k :: p <= k < SkipSpace(s, p) ==> IsSpace(s[k])
    ensures forall k :: p <= k < Find(s, p, c) ==> s[k] != c
    ensures forall k :: p <= k < NameEnd(s, p) ==> !EndsName(s[k])
    ensures forall k :: p <= k < KeyEnd(s, p) ==> !EndsKey(s[k])
    ensures forall k :: p <= k < ValueEnd(s, p) ==> !EndsValue(s[k])
    decreases |s| - p
  {
    if p < |s| { ScansFindFirst(s, p + 1, c); }
  }

  predicate EndsName(c: byte) {
    IsSpace(c) || c == '/' as int || c == '>' as int
  }

  predicate EndsKey(c: byte) {
    IsSpace(c) || c == '/' as int || c == '=' as int || c == '>' as int
  }

  predicate EndsValue(c: byte) {
    IsSpace(c) || c == '>' as int
  }

  function NameEnd(s: Text, p: nat): (q: nat)
    requires p <= |s|
    ensures p <= q <= |s| && (q < |s| ==> EndsName(s[q]))
    decreases |s| - p
  {
    if p < |s| && !EndsName(s[p]) then NameEnd(s, p + 1) else p
  }

  function KeyEnd(s: Text, p: nat): (q: nat)
    requires p <= |s|
    ensures p <= q <= |s| && (q < |s| ==> EndsKey(s[q]))
    decreases |s| - p
  {
    if p < |s| && !EndsKey(s[p]) then KeyEnd(s, p + 1) else p
  }

  function ValueEnd(s: Text, p: nat): (q: nat)
    requires p <= |s|
    ensures p <= q <= |s| && (q < |s| ==> EndsValue(s[q]))
    decreases |s| - p
  {
    if p < |s| && !EndsValue(s[p]) then ValueEnd(s, p + 1) else p
  }

  /** How many bytes of a lower-case word stand at p, in either case. */
  function WordLength(s: Text, p: nat, word: Text, i: nat): (k: nat)
    requires p + i <= |s| && i <= |word|
    ensures i <= k <= |word| && p + k <= |s|
    ensures k < |word| && p + k < |s| ==> !SameLetter(s[p + k], word[k])
    decreases |word| - i
  {
    if i < |word| && p + i < |s| && SameLetter(s[p + i], word[i]) then WordLength(s, p, word, i + 1) else i
  }

  /** How many bytes of a word stand at p, exactly. */
  function ExactLength(s: Text, p: nat, word: Text, i: nat): (k: nat)
    requires p + i <= |s| && i <= |word|
    ensures i <= k <= |word| && p + k <= |s|
    decreases |word| - i
  {
    if i < |word| && p + i < |s| && s[p + i] == word[i] then ExactLength(s, p, word, i + 1) else i
  }

  datatype Scan = At(pos: nat) | AtEnd

  // ----- Raw text and script ---------------------------------------------------------

  datatype TagMatch = Found | NotFound(pos: nat) | Cut

  /** Is there a raw end tag at p, after "</"? */
  function RawEndTag(s: Text, p: nat, tag: Text): (r: TagMatch)
    requires p <= |s|
    ensures r.NotFound? ==> p <= r.pos < |s|
    ensures r.Found? ==> p + |tag| < |s|
  {
    var k := WordLength(s, p, tag, 0);
    if p + k == |s| then Cut
    else if k < |tag| then NotFound(p + k)
    else if EndsName(s[p + k]) then Found
    else NotFound(p + k)
  }

  /** The "</" of the end tag, from p on. */
  function RawText(s: Text, p: nat, tag: Text): (r: Scan)
    requires p <= |s|
    ensures r.At? ==> p <= r.pos < |s|
    decreases |s| - p
  {
    if p == |s| then AtEnd
    else if s[p] != '<' as int then RawText(s, p + 1, tag)
    else if p + 1 == |s| then AtEnd
    else if s[p + 1] != '/' as int then RawText(s, p + 2, tag)
    else
      match RawEndTag(s, p + 2, tag)
      case Found => At(p)
      case Cut => AtEnd
      case NotFound(q) => RawText(s, q, tag)
  }

  /** What one step of the script scan does: go on in a state, stop before the end tag, or hit the end. */
  datatype Step = Goes(next: ScriptState, pos: int) | Stops(pos: int) | Ends

  function StepOf(s: Text, p: nat, st: ScriptState): Step
    requires Room(st) <= p <= |s|
  {
    if LooksAtOneByte(st) then
      if p == |s| then Ends
      else Goes(ScriptNext(st, s[p]).0, if ScriptNext(st, s[p]).1 then p else p + 1)
    else if st == DoubleEscapeStart then
      var k := WordLength(s, p - 1, SCRIPT, 0);
      if p - 1 + k == |s| then Ends
      else if k == |SCRIPT| && EndsName(s[p - 1 + k]) then Goes(DoubleEscaped, p + k)
      else Goes(Escaped, p - 1 + k)
    else
      match RawEndTag(s, p, SCRIPT)
      case Cut => Ends
      case Found => if st == DoubleEscapeEnd then Goes(Escaped, p + |SCRIPT| + 1) else Stops(p - 2)
      case NotFound(q) =>
        Goes(if st == EndTagOpen then ScriptData else if st == DoubleEscapeEnd then DoubleEscaped else Escaped, q)
  }

  lemma StepProgresses(s: Text, p: nat, st: ScriptState)
    requires Room(st) <= p <= |s|
    ensures var step := StepOf(s, p, st);
      step.Goes? ==> Room(step.next) <= step.pos <= |s| && ScriptProgress(st, step.next, step.pos - p)
  {
    if LooksAtOneByte(st) && p < |s| { ScriptNextProgresses(st, s[p]); }
  }

  /** The end of script text, in a state with `Room(st)` bytes read since `from`. */
  function Script(s: Text, p: nat, st: ScriptState, from: nat): (r: Scan)
    requires from + Room(st) <= p <= |s|
    ensures r.At? ==> from <= r.pos <= |s|
    decreases |s| - p + Ahead(st), Rank(st), 1
  {
    TakeStep(s, p, st, from)
  }

  function TakeStep(s: Text, p: nat, st: ScriptState, from: nat): (r: Scan)
    requires from + Room(st) <= p <= |s|
    ensures r.At? ==> from <= r.pos <= |s|
    decreases |s| - p + Ahead(st), Rank(st), 0
  {
    StepProgresses(s, p, st);
    match StepOf(s, p, st)
    case Ends => AtEnd
    case Stops(q) => At(q)
    case Goes(next, q) => Script(s, q, next, from)
  }

  // ----- What the scans of raw text find ---------------------------------------------

  /** An end tag for that element stands at q. */
  predicate EndTagAt(s: Text, q: int, tag: Text) {
    0 <= q && q + 2 <= |s| && s[q] == '<' as int && s[q + 1] == '/' as int && RawEndTag(s, q + 2, tag) == Found
  }

  /** Raw text ends at an end tag for its element, or with the text. */
  lemma {:induction false} RawTextEndsAtTag(s: Text, p: nat, tag: Text)
    requires p <= |s| && RawText(s, p, tag).At?
    ensures EndTagAt(s, RawText(s, p, tag).pos, tag)
    decreases |s| - p
  {
    if s[p] != '<' as int {
      RawTextEndsAtTag(s, p + 1, tag);
    } else if s[p + 1] != '/' as int {
      RawTextEndsAtTag(s, p + 2, tag);
    } else {
      match RawEndTag(s, p + 2, tag)
      case Found =>
      case NotFound(q) => RawTextEndsAtTag(s, q, tag);
    }
  }

  /** How many "<" stand directly before q, from p on. */
  function Angles(s: Text, p: nat, q: nat): nat
    requires q <= |s|
    decreases q
  {
    if p < q && s[q - 1] == '<' as int then 1 + Angles(s, p, q - 1) else 0
  }

  /** Counting may start after any byte that is no "<". */
  lemma {:induction false} AnglesSkip(s: Text, p: nat, r: nat, q: nat)
    requires p < r <= q <= |s| && s[r - 1] != '<' as int
    ensures Angles(s, p, q) == Angles(s, r, q)
    decreases q
  {
    if r < q && s[q - 1] == '<' as int { AnglesSkip(s, p, r, q - 1); }
  }

  lemma {:induction false} AnglesPair(s: Text, p: nat, q: nat)
    requires p + 2 <= q <= |s| && s[p] == '<' as int && s[p + 1] == '<' as int
    ensures Angles(s, p, q) % 2 == Angles(s, p + 2, q) % 2
    decreases q
  {
    if p + 2 < q && s[q - 1] == '<' as int {
      AnglesPair(s, p, q - 1);
    } else if p + 2 == q {
      assert Angles(s, p, p) == 0 && Angles(s, p, p + 1) == 1;
    }
  }

  predicate Letters(tag: Text) {
    forall k :: 0 <= k < |tag| ==> 'a' as int <= tag[k] <= 'z' as int
  }

  /** What matches a name is no "<". */
  lemma {:induction false} WordHasNoAngle(s: Text, p: nat, tag: Text, i: nat, k: nat)
    requires p + i <= |s| && i <= |tag| && Letters(tag) && i <= k < WordLength(s, p, tag, i)
    ensures s[p + k] != '<' as int
    decreases |tag| - i
  {
    if i < k { WordHasNoAngle(s, p, tag, i + 1, k); }
  }

  /** What follows a "</" that is no end tag here: the scan goes on before q, and after a byte that is no "<". */
  lemma AfterNoTag(s: Text, p: nat, tag: Text, q: nat)
    requires p + 2 <= q < |s| && Letters(tag) && s[p + 1] == '/' as int && s[q] == '<' as int && RawEndTag(s, p + 2, tag) != Found
    ensures var m := RawEndTag(s, p + 2, tag); m.NotFound? && p + 2 <= m.pos <= q && s[m.pos - 1] != '<' as int
  {
    var k := WordLength(s, p + 2, tag, 0);
    if q < p + 2 + k { WordHasNoAngle(s, p + 2, tag, 0, q - p - 2); }
    if k > 0 { WordHasNoAngle(s, p + 2, tag, 0, k - 1); }
  }

  /** The first end tag ends raw text if and only if an even number of "<" stands directly before it. */
  lemma {:induction false} FirstTagIsFoundIff(s: Text, p: nat, tag: Text, q: nat)
    requires p <= q && Letters(tag) && EndTagAt(s, q, tag) && forall k :: p <= k < q ==> !EndTagAt(s, k, tag)
    ensures RawText(s, p, tag) == At(q) <==> Angles(s, p, q) % 2 == 0
    decreases |s| - p
  {
    if p < q {
      if s[p] != '<' as int {
        AnglesSkip(s, p, p + 1, q);
        FirstTagIsFoundIff(s, p + 1, tag, q);
      } else if p + 1 == q {
        assert Angles(s, p, p) == 0;
      } else if s[p + 1] == '/' as int {
        assert !EndTagAt(s, p, tag);
        AfterNoTag(s, p, tag, q);
        var r := RawEndTag(s, p + 2, tag).pos;
        AnglesSkip(s, p, r, q);
        FirstTagIsFoundIff(s, r, tag, q);
      } else {
        if s[p + 1] == '<' as int { AnglesPair(s, p, q); } else { AnglesSkip(s, p, p + 2, q); }
        FirstTagIsFoundIff(s, p + 2, tag, q);
      }
    }
  }

  lemma {:induction false} NoAngleNoTag(s: Text, p: nat, tag: Text)
    requires p <= |s| && forall k :: p <= k < |s| ==> s[k] != '<' as int
    ensures RawText(s, p, tag) == AtEnd
    decreases |s| - p
  {
    if p < |s| { NoAngleNoTag(s, p + 1, tag); }
  }

  /** A "<" right before the end tag hides it, since the byte after a "<" is not looked at again. */
  lemma DoubledAngleHidesEndTag(rest: Text, tag: Text)
    requires forall k :: 0 <= k < |rest| ==> rest[k] != '<' as int
    ensures var s := ['<' as int, '<' as int] + rest; RawText(s, 0, tag) == AtEnd
  {
    var s := ['<' as int, '<' as int] + rest;
    forall k | 2 <= k < |s| ensures s[k] != '<' as int { assert s[k] == rest[k - 2]; }
    NoAngleNoTag(s, 2, tag);
  }

  /** The bytes that a state has just seen. */
  ghost predicate Seen(s: Text, p: nat, st: ScriptState)
    requires p <= |s|
  {
    && (st == LessThanSign || st == EscapedLessThanSign ==> p >= 1 && s[p - 1] == '<' as int)
    && (st == EndTagOpen || st == EscapedEndTagOpen ==> p >= 2 && s[p - 2] == '<' as int && s[p - 1] == '/' as int)
  }

  lemma StepSees(s: Text, p: nat, st: ScriptState)
    requires Room(st) <= p <= |s| && Seen(s, p, st)
    ensures var step := StepOf(s, p, st);
      && (step.Goes? ==> 0 <= step.pos <= |s| && Seen(s, step.pos, step.next))
      && (step.Stops? ==> EndTagAt(s, step.pos, SCRIPT))
  {
    if LooksAtOneByte(st) {
      if p < |s| { ByteSees(s, p, st); }
    } else {
      StepProgresses(s, p, st);
    }
  }

  lemma ByteSees(s: Text, p: nat, st: ScriptState)
    requires LooksAtOneByte(st) && Room(st) <= p < |s| && Seen(s, p, st)
    ensures Seen(s, if ScriptNext(st, s[p]).1 then p else p + 1, ScriptNext(st, s[p]).0)
  {
  }

  /** Script text ends at a script end tag, however its states got there, or with the text. */
  lemma {:induction false} ScriptEndsAtTag(s: Text, p: nat, st: ScriptState, from: nat)
    requires from + Room(st) <= p <= |s| && Seen(s, p, st) && Script(s, p, st, from).At?
    ensures EndTagAt(s, Script(s, p, st, from).pos, SCRIPT)
    decreases |s| - p + Ahead(st), Rank(st)
  {
    StepSees(s, p, st);
    StepProgresses(s, p, st);
    var step := StepOf(s, p, st);
    if step.Goes? { ScriptEndsAtTag(s, step.pos, step.next, from); }
  }

  // ----- Comments and declarations ---------------------------------------------------

  /** Where the data of a comment or declaration ends, and where the scan does. */
  datatype Body = Body(end: int, scan: Scan)

  function Comment(s: Text, p: nat, dashes: nat): Body
    requires p <= |s|
    decreases |s| - p
  {
    if p == |s| then Body(|s| - (if dashes > 2 then 2 else dashes), AtEnd)
    else if s[p] == '-' as int then Comment(s, p + 1, dashes + 1)
    else if s[p] == '>' as int && dashes >= 2 then Body(p - 2, At(p + 1))
    else if s[p] == '!' as int && dashes >= 2 then
      if p + 1 == |s| then Body(|s|, AtEnd)
      else if s[p + 1] == '>' as int then Body(p - 2, At(p + 2))
      else Comment(s, p + 2, 0)
    else Comment(s, p + 1, 0)
  }

  function CData(s: Text, p: nat, brackets: nat): Body
    requires p <= |s|
    decreases |s| - p
  {
    if p == |s| then Body(|s|, AtEnd)
    else if s[p] == ']' as int then CData(s, p + 1, brackets + 1)
    else if s[p] == '>' as int && brackets >= 2 then Body(p - 2, At(p + 1))
    else CData(s, p + 1, 0)
  }

  /** Up to the next '>'. */
  function Bogus(s: Text, p: nat): Body
    requires p <= |s|
  {
    var q := Find(s, p, '>' as int);
    Body(q, if q == |s| then AtEnd else At(q + 1))
  }

  // ----- Tags ------------------------------------------------------------------------

  /** A span found, and where the scan goes on. */
  datatype Piece = Piece(span: Span, scan: Scan)

  function AttrKey(s: Text, p: nat): (r: Piece)
    requires p <= |s|
    ensures r.scan.At? ==> p <= r.scan.pos <= |s|
    ensures r.scan.At? && r.scan.pos == p < |s| ==> s[p] == '=' as int || s[p] == '>' as int
  {
    var q := KeyEnd(s, p);
    Piece(Span(p, q), if q == |s| then AtEnd else if s[q] == '=' as int || s[q] == '>' as int then At(q) else At(q + 1))
  }

  /** What follows the equals sign, from the first byte that is no space. */
  function AfterEquals(s: Text, p: nat, q: nat): (r: Piece)
    requires p <= q <= |s|
    ensures r.scan.At? ==> q <= r.scan.pos <= |s|
  {
    if q == |s| then Piece(Span(p, p), AtEnd)
    else if s[q] == '>' as int then Piece(Span(p, p), At(q))
    else if s[q] == '\'' as int || s[q] == '"' as int then
      var e := Find(s, q + 1, s[q]);
      Piece(Span(q + 1, e), if e == |s| then AtEnd else At(e + 1))
    else
      var e := ValueEnd(s, q + 1);
      Piece(Span(q, e), if e == |s| then AtEnd else if s[e] == '>' as int then At(e) else At(e + 1))
  }

  function AttrValue(s: Text, p: nat): (r: Piece)
    requires p <= |s|
    ensures r.scan.At? ==> p <= r.scan.pos <= |s|
    ensures r.scan.At? ==> p < |s| && (s[p] == '=' as int ==> p < r.scan.pos)
  {
    var q := SkipSpace(s, p);
    if q == |s| then Piece(Span(p, p), AtEnd) else FromEquals(s, p, q)
  }

  /** The value, if there is an equals sign. */
  function FromEquals(s: Text, p: nat, q: nat): (r: Piece)
    requires p <= q < |s|
    ensures r.scan.At? ==> q <= r.scan.pos <= |s| && (s[q] == '=' as int ==> q < r.scan.pos)
  {
    if s[q] != '=' as int then Piece(Span(p, p), At(q)) else AfterEquals(s, p, SkipSpace(s, q + 1))
  }

  datatype Attrs = Attrs(attrs: seq<(Span, Span)>, scan: Scan)

  /** One attribute at p: key and value, and the first byte after it that is no space. */
  function OneAttr(s: Text, p: nat): (r: (Span, Span, Scan))
    requires p < |s| && s[p] != '>' as int
    ensures r.2.At? ==> p < r.2.pos < |s|
  {
    var key := AttrKey(s, p);
    if key.scan.AtEnd? then (key.span, Span(|s|, |s|), AtEnd)
    else
      var value := AttrValue(s, key.scan.pos);
      if value.scan.AtEnd? then (key.span, value.span, AtEnd)
      else
        var q := SkipSpace(s, value.scan.pos);
        (key.span, value.span, if q == |s| then AtEnd else At(q))
  }

  function Saved(acc: seq<(Span, Span)>, save: bool, key: Span, value: Span): seq<(Span, Span)> {
    if save && key.start != key.end then acc + [(key, value)] else acc
  }

  /** The attributes up to and including the '>'; those with a name are kept, if any are. */
  function AllAttrs(s: Text, p: nat, save: bool, acc: seq<(Span, Span)>): (r: Attrs)
    requires p <= |s|
    ensures r.scan.At? ==> p < r.scan.pos <= |s|
    decreases |s| - p
  {
    if p == |s| then Attrs(acc, AtEnd)
    else if s[p] == '>' as int then Attrs(acc, At(p + 1))
    else
      var (key, value, scan) := OneAttr(s, p);
      var more := Saved(acc, save, key, value);
      if scan.AtEnd? then Attrs(more, AtEnd) else AllAttrs(s, scan.pos, save, more)
  }

  /** Where the attributes start, after a name whose first letter is at p - 1. */
  function AfterName(s: Text, p: nat): (q: nat)
    requires p <= |s|
    ensures p <= q <= |s|
  {
    var e := NameEnd(s, p);
    SkipSpace(s, if e < |s| && IsSpace(s[e]) then e + 1 else e)
  }

  function Tag(s: Text, p: nat, save: bool): (r: Attrs)
    requires p <= |s|
    ensures r.scan.At? ==> p < r.scan.pos <= |s|
  {
    AllAttrs(s, AfterName(s, p), save, [])
  }

  // ----- Tokens ----------------------------------------------------------------------

  /** `attrs` are those of a start tag; `rawTag` is the element whose raw text follows, if any. */
  datatype Token = Token(tt: TokenType, scan: Scan, data: Span, attrs: seq<(Span, Span)>, rawTag: Text)

  function Plain(tt: TokenType, start: int, body: Body, rawTag: Text): Token {
    Token(tt, body.scan, Span(start, body.end), [], rawTag)
  }

  /** The next "<" that opens a token. */
  function Opening(s: Text, p: nat): (r: Scan)
    requires p <= |s|
    ensures r.At? ==> p <= r.pos && r.pos + 2 <= |s| && OpensToken(s[r.pos + 1])
    decreases |s| - p
  {
    if p == |s| then AtEnd
    else if s[p] != '<' as int then Opening(s, p + 1)
    else if p + 1 == |s| then AtEnd
    else if OpensToken(s[p + 1]) then At(p)
    else Opening(s, p + 1)
  }

  /** The raw text that an element has, from p on. */
  function RawScan(s: Text, p: nat, rawTag: Text): (r: Scan)
    requires p <= |s|
    ensures r.At? ==> p <= r.pos <= |s|
  {
    if rawTag == PLAINTEXT then AtEnd
    else if rawTag == SCRIPT then Script(s, p, ScriptData, p)
    else RawText(s, p, rawTag)
  }

  /** The declarations, by what is known of them. */
  datatype DeclarationRule =
    | AnyDeclaration           // after "<!"
    | Declared(dashes: bool)   // after "<!", when it is known whether "--" follows
    | NoComment                // after "<!", not followed by "--"
    | NoDoctype                // after "<!", not followed by "doctype" either

  function Declaration(rule: DeclarationRule, s: Text, p: nat, allowCDATA: bool, rawTag: Text): Token
    requires p <= |s| && (rule.Declared? ==> p + 2 <= |s|)
    decreases |s|, match rule case AnyDeclaration => 3 case Declared(_) => 2 case NoComment => 1 case NoDoctype => 0
  {
    match rule
    case AnyDeclaration =>
      if p + 2 > |s| then Plain(CommentToken, p, Body(|s|, AtEnd), rawTag)
      else Declaration(Declared(s[p] == '-' as int && s[p + 1] == '-' as int), s, p, allowCDATA, rawTag)
    case Declared(dashes) =>
      if !dashes then Declaration(NoComment, s, p, allowCDATA, rawTag)
      else
        var body := Comment(s, p + 2, 2);
        Plain(CommentToken, p + 2, Body(if body.end < p + 2 then p + 2 else body.end, body.scan), rawTag)
    case NoComment =>
      var k := WordLength(s, p, DOCTYPE, 0);
      if k == |DOCTYPE| then
        var q := SkipSpace(s, p + k);
        Plain(DoctypeToken, q, Bogus(s, q), rawTag)
      else Declaration(NoDoctype, s, if p + k == |s| then |s| else p, allowCDATA, rawTag)
    case NoDoctype =>
      // an opening that is cut short by the end of the text leaves an empty comment there
      var j := ExactLength(s, p, CDATA, 0);
      if allowCDATA && j == |CDATA| then Plain(TextToken, p + j, CData(s, p + j, 0), rawTag)
      else
        var q := if allowCDATA && p + j == |s| then |s| else p;
        Plain(CommentToken, q, Bogus(s, q), rawTag)
  }

  /** The tokens, by what is known of them. */
  datatype TokenRule =
    | AnyToken       // raw text of the pending element, or what follows it
    | TextOrMarkup   // from where the token starts
    | MarkupAt       // at its "<"

  function Parse(rule: TokenRule, s: Text, p: nat, allowCDATA: bool, rawTag: Text): Token
    requires p <= |s| && (rule == MarkupAt ==> p + 2 <= |s|)
    decreases |s|, match rule case AnyToken => 2 case TextOrMarkup => 1 case MarkupAt => 0
  {
    match rule
    case AnyToken =>
      if rawTag == [] then Parse(TextOrMarkup, s, p, allowCDATA, [])
      else
        var scan, left := RawScan(s, p, rawTag), if rawTag == PLAINTEXT then PLAINTEXT else [];
        var end := if scan.At? then scan.pos else |s|;
        if end > p then Plain(TextToken, p, Body(end, scan), left) else Parse(TextOrMarkup, s, p, allowCDATA, left)
    case TextOrMarkup =>
      (match Opening(s, p)
       case AtEnd => Plain(if p < |s| then TextToken else ErrorToken, p, Body(|s|, AtEnd), rawTag)
       case At(q) => if p < q then Plain(TextToken, p, Body(q, At(q)), rawTag) else Parse(MarkupAt, s, p, allowCDATA, rawTag))
    case MarkupAt =>
      var c := s[p + 1];
      if IsLetter(c) then StartTag(s, p + 2, rawTag)
      else if c == '/' as int then EndTag(s, p, rawTag)
      else if c == '!' as int then Declaration(AnyDeclaration, s, p + 2, allowCDATA, rawTag)
      else Plain(CommentToken, p + 1, Bogus(s, p + 1), rawTag)
  }

  /** A start tag, after "<" and the first letter. */
  function StartTag(s: Text, p: nat, rawTag: Text): Token
    requires 2 <= p <= |s|
  {
    var tag, data := Tag(s, p, true), Span(p - 1, NameEnd(s, p));
    if tag.scan.AtEnd? then Token(ErrorToken, AtEnd, data, tag.attrs, rawTag)
    else
      Token(if s[tag.scan.pos - 2] == '/' as int then SelfClosingTagToken else StartTagToken,
            tag.scan, data, tag.attrs, RawTagOf(s[p - 1..NameEnd(s, p)], rawTag))
  }

  /** An end tag, at its "</". */
  function EndTag(s: Text, p: nat, rawTag: Text): Token
    requires p + 2 <= |s|
  {
    if p + 2 == |s| then Plain(TextToken, p, Body(|s|, AtEnd), rawTag)
    else if s[p + 2] == '>' as int then Plain(CommentToken, p, Body(p, At(p + 3)), rawTag)
    else NamedEnd(s, p + 3, rawTag)
  }

  /** An end tag, after "</" and the byte before p. */
  function NamedEnd(s: Text, p: nat, rawTag: Text): Token
    requires 1 <= p <= |s|
  {
    if IsLetter(s[p - 1]) then
      var tag := Tag(s, p, false);
      Token(if tag.scan.AtEnd? then ErrorToken else EndTagToken, tag.scan, Span(p - 1, NameEnd(s, p)), [], rawTag)
    else Plain(CommentToken, p - 1, Bogus(s, p - 1), rawTag)
  }

  /** The element whose content is raw text, if the name is one of those. */
  function RawTagOf(name: Text, rawTag: Text): Text {
    if Among(Lowered(name), RAW_NAMES, 0) then Lowered(name) else rawTag
  }

  lemma {:induction false} AmongIsIn(word: Text, words: seq<Text>, i: nat)
    requires i <= |words|
    ensures Among(word, words, i) <==> word in words[i..]
    decreases |words| - i
  {
    if i < |words| {
      AmongIsIn(word, words, i + 1);
      assert words[i..] == [words[i]] + words[i + 1..];
    }
  }

  /** Looking only at the words with the right first letter loses none. */
  lemma FirstLetterDecides(name: Text)
    requires name != []
    ensures Among(Lowered(name), RawTextTags(name[0]), 0) <==> Among(Lowered(name), RAW_NAMES, 0)
  {
    var words := RawTextTags(name[0]);
    AmongIsIn(Lowered(name), words, 0);
    AmongIsIn(Lowered(name), RAW_NAMES, 0);
    assert words[0..] == words && RAW_NAMES[0..] == RAW_NAMES;
    SameNames(Lowered(name), Lower(name[0]), words);
  }

  lemma SameNames(word: Text, first: byte, words: seq<Text>)
    requires word != [] && word[0] == first && words == RawTextTags(first) && Lower(first) == first
    ensures word in words <==> word in RAW_NAMES
  {
  }

  // ----- Every token moves on --------------------------------------------------------

  lemma {:induction false} CommentMovesOn(s: Text, p: nat, dashes: nat)
    requires p <= |s|
    ensures var scan := Comment(s, p, dashes).scan; scan.At? ==> p < scan.pos <= |s|
    decreases |s| - p
  {
    if p < |s| {
      CommentMovesOn(s, p + 1, if s[p] == '-' as int then dashes + 1 else 0);
      if p + 1 < |s| { CommentMovesOn(s, p + 2, 0); }
    }
  }

  lemma {:induction false} CDataMovesOn(s: Text, p: nat, brackets: nat)
    requires p <= |s|
    ensures var scan := CData(s, p, brackets).scan; scan.At? ==> p < scan.pos <= |s|
    decreases |s| - p
  {
    if p < |s| { CDataMovesOn(s, p + 1, if s[p] == ']' as int then brackets + 1 else 0); }
  }

  lemma {:induction false} DeclarationMovesOn(rule: DeclarationRule, s: Text, p: nat, allowCDATA: bool, rawTag: Text)
    requires p <= |s| && (rule.Declared? ==> p + 2 <= |s|)
    ensures var token := Declaration(rule, s, p, allowCDATA, rawTag);
      token.tt != ErrorToken && (token.scan.At? ==> p < token.scan.pos <= |s|)
    decreases match rule case AnyDeclaration => 3 case Declared(_) => 2 case NoComment => 1 case NoDoctype => 0
  {
    match rule
    case AnyDeclaration =>
      if p + 2 <= |s| { DeclarationMovesOn(Declared(s[p] == '-' as int && s[p + 1] == '-' as int), s, p, allowCDATA, rawTag); }
    case Declared(dashes) =>
      if dashes { CommentMovesOn(s, p + 2, 2); } else { DeclarationMovesOn(NoComment, s, p, allowCDATA, rawTag); }
    case NoComment =>
      var k := WordLength(s, p, DOCTYPE, 0);
      if k < |DOCTYPE| { DeclarationMovesOn(NoDoctype, s, if p + k == |s| then |s| else p, allowCDATA, rawTag); }
    case NoDoctype =>
      CDataMovesOn(s, p + ExactLength(s, p, CDATA, 0), 0);
  }

  /** A token that ends before the text does ends after its start, and is no ErrorToken; at the end there is only that. */
  lemma {:induction false} ParseMovesOn(rule: TokenRule, s: Text, p: nat, allowCDATA: bool, rawTag: Text)
    requires p <= |s| && (rule == MarkupAt ==> p + 2 <= |s|)
    ensures var token := Parse(rule, s, p, allowCDATA, rawTag);
      (token.scan.At? ==> p < token.scan.pos <= |s| && token.tt != ErrorToken) && (p == |s| && rule != MarkupAt ==> token.tt == ErrorToken)
    decreases match rule case AnyToken => 2 case TextOrMarkup => 1 case MarkupAt => 0
  {
    match rule
    case AnyToken => ParseMovesOn(TextOrMarkup, s, p, allowCDATA, if rawTag == PLAINTEXT then PLAINTEXT else []);
    case TextOrMarkup =>
      if Opening(s, p) == At(p) { ParseMovesOn(MarkupAt, s, p, allowCDATA, rawTag); }
    case MarkupAt =>
      if s[p + 1] == '!' as int { DeclarationMovesOn(AnyDeclaration, s, p + 2, allowCDATA, rawTag); }
  }

  // ----- All the tokens of a text ----------------------------------------------------

  datatype Slice = Slice(tt: TokenType, raw: Text)

  /** The tokens from p on, each with its text, up to the ErrorToken at the end. */
  function Slices(s: Text, p: nat, rawTag: Text): seq<Slice>
    requires p <= |s|
    decreases |s| - p
  {
    var token := Parse(AnyToken, s, p, false, rawTag);
    if token.tt == ErrorToken then [Slice(ErrorToken, s[p..])]
    else if token.scan.AtEnd? then [Slice(token.tt, s[p..]), Slice(ErrorToken, [])]
    else
      ParseMovesOn(AnyToken, s, p, false, rawTag);
      [Slice(token.tt, s[p..token.scan.pos])] + Slices(s, token.scan.pos, token.rawTag)
  }

  /** The slices are those before p and then those from p on. */
  ghost predicate Continues(all: seq<Slice>, before: seq<Slice>, s: Text, p: nat, rawTag: Text) {
    p <= |s| && all == before + Slices(s, p, rawTag)
  }

  /** One token further. */
  lemma ContinuesNext(all: seq<Slice>, before: seq<Slice>, s: Text, p: nat, rawTag: Text)
    requires Continues(all, before, s, p, rawTag)
    ensures var token := Parse(AnyToken, s, p, false, rawTag);
      && (token.tt == ErrorToken ==> all == before + [Slice(ErrorToken, s[p..])])
      && (token.tt != ErrorToken && token.scan == AtEnd ==> all == before + [Slice(token.tt, s[p..])] + [Slice(ErrorToken, [])])
      && (token.tt != ErrorToken && token.scan.At? ==> p < token.scan.pos <= |s|)
      && (token.tt != ErrorToken && token.scan.At? ==>
            Continues(all, before + [Slice(token.tt, s[p..token.scan.pos])], s, token.scan.pos, token.rawTag))
  {
    ParseMovesOn(AnyToken, s, p, false, rawTag);
  }

  function Texts(slices: seq<Slice>): Text {
    if slices == [] then [] else slices[0].raw + Texts(slices[1..])
  }

  lemma TileStep(s: Text, p: nat, q: nat, tt: TokenType, more: seq<Slice>)
    requires p <= q <= |s| && Texts(more) == s[q..]
    ensures Texts([Slice(tt, s[p..q])] + more) == s[p..]
  {
    TextsCons(Slice(tt, s[p..q]), more);
    assert s[p..q] + s[q..] == s[p..];
  }

  /** The tokens of a text tile it. */
  lemma {:induction false} SlicesTile(s: Text, p: nat, rawTag: Text)
    requires p <= |s|
    ensures Texts(Slices(s, p, rawTag)) == s[p..]
    decreases |s| - p
  {
    var token := Parse(AnyToken, s, p, false, rawTag);
    var all := Slices(s, p, rawTag);
    if token.tt != ErrorToken && token.scan.At? {
      ParseMovesOn(AnyToken, s, p, false, rawTag);
      var q := token.scan.pos;
      SlicesTile(s, q, token.rawTag);
      TileStep(s, p, q, token.tt, Slices(s, q, token.rawTag));
    } else if token.tt != ErrorToken && token.scan.AtEnd? {
      LastTwo(token.tt, s[p..]);
    } else {
      TextsCons(Slice(ErrorToken, s[p..]), []);
      assert all == [Slice(ErrorToken, s[p..])] + [];
    }
  }

  lemma LastTwo(tt: TokenType, text: Text)
    ensures Texts([Slice(tt, text), Slice(ErrorToken, [])]) == text
  {
    TextsCons(Slice(ErrorToken, []), []);
    TextsCons(Slice(tt, text), [Slice(ErrorToken, [])]);
    assert [Slice(tt, text)] + [Slice(ErrorToken, [])] == [Slice(tt, text), Slice(ErrorToken, [])];
    assert [Slice(ErrorToken, [])] + [] == [Slice(ErrorToken, [])];
  }

  lemma TextsCons(first: Slice, rest: seq<Slice>)
    ensures Texts([first] + rest) == first.raw + Texts(rest)
  {
    assert ([first] + rest)[1..] == rest;
  }

  lemma {:induction false} TextsSnoc(slices: seq<Slice>, last: Slice)
    ensures Texts(slices + [last]) == Texts(slices) + last.raw
  {
    if slices == [] {
      TextsCons(last, []);
      assert slices + [last] == [last] + [] && last.raw + [] == last.raw;
    } else {
      TextsSnoc(slices[1..], last);
      TextsCons(slices[0], slices[1..] + [last]);
      assert slices + [last] == [slices[0]] + (slices[1..] + [last]);
      assert slices[0].raw + (Texts(slices[1..]) + last.raw) == slices[0].raw + Texts(slices[1..]) + last.raw;
    }
  }
}
