/**
 Where script text ends, by what stands in it: the sixteen states of the tokenizer against three
 modes and the marks that lead from one to the other.

 Plain text ends at the first end tag, unless a "<!--" comes before it.  In an escaped section an
 end tag still ends it; "-->" leads back to plain text, "<script" into a doubly escaped section, and,
 other than in the HTML standard, so does a "<" that opens nothing lead back to plain text.  In a
 doubly escaped section an end tag only leads back to the escaped one.
 */
module ScriptText {
  import opened HtmlText

  // ----- The marks -------------------------------------------------------------------

  /** The letters of a word from the i-th on stand in their places from q on, in either case. */
  predicate WordAt(s: Text, q: nat, word: string, i: nat)
    decreases |word| - i
  {
    i >= |word| || (q + i < |s| && Lower(s[q + i]) == word[i] as int && WordAt(s, q, word, i + 1))
  }

  /** The name "script" stands at q, in either case, and ends there. */
  predicate NameAt(s: Text, q: nat) {
    WordAt(s, q, "script", 0) && q + 6 < |s| && EndsName(s[q + 6])
  }

  predicate ClosesScript(s: Text, q: nat) {
    q + 2 <= |s| && s[q] == '<' as int && s[q + 1] == '/' as int && NameAt(s, q + 2)
  }

  predicate OpensScript(s: Text, q: nat) {
    q + 1 <= |s| && s[q] == '<' as int && NameAt(s, q + 1)
  }

  predicate OpensComment(s: Text, q: nat) {
    q + 4 <= |s| && s[q] == '<' as int && s[q + 1] == '!' as int && s[q + 2] == '-' as int && s[q + 3] == '-' as int
  }

  predicate ClosesComment(s: Text, q: nat) {
    2 <= q < |s| && s[q - 2] == '-' as int && s[q - 1] == '-' as int && s[q] == '>' as int
  }

  /** A "<" that opens neither a tag nor an end tag. */
  predicate StrayAngle(s: Text, q: nat) {
    q + 2 <= |s| && s[q] == '<' as int && s[q + 1] != '/' as int && !IsLetter(s[q + 1])
  }

  // ----- The modes -------------------------------------------------------------------

  datatype Mode = Plain | InComment | InScript

  /** The end of script text from p on. */
  function ScriptEnd(s: Text, p: nat, mode: Mode): Scan
    decreases |s| - p, 1
  {
    if p >= |s| then AtEnd else FromHere(s, p, mode)
  }

  function FromHere(s: Text, p: nat, mode: Mode): Scan
    requires p < |s|
    decreases |s| - p, 0
  {
    match mode
    case Plain =>
      if ClosesScript(s, p) then At(p)
      else if OpensComment(s, p) then ScriptEnd(s, p + 4, InComment)
      else ScriptEnd(s, p + 1, Plain)
    case InComment =>
      if ClosesScript(s, p) then At(p)
      else if OpensScript(s, p) then ScriptEnd(s, p + 8, InScript)
      else ScriptEnd(s, p + 1, if ClosesComment(s, p) || StrayAngle(s, p) then Plain else InComment)
    case InScript =>
      if ClosesScript(s, p) then ScriptEnd(s, p + 9, InComment)
      else ScriptEnd(s, p + 1, if ClosesComment(s, p) then Plain else InScript)
  }

  /** What ends a mode. */
  predicate MarkAt(s: Text, q: nat, mode: Mode) {
    match mode
    case Plain => ClosesScript(s, q) || OpensComment(s, q)
    case InComment => ClosesScript(s, q) || OpensScript(s, q) || ClosesComment(s, q) || StrayAngle(s, q)
    case InScript => ClosesScript(s, q) || ClosesComment(s, q)
  }

  lemma NoMark(s: Text, r: nat, mode: Mode)
    requires r < |s| && !MarkAt(s, r, mode)
    ensures ScriptEnd(s, r, mode) == ScriptEnd(s, r + 1, mode)
  {
  }

  // ----- The states are the modes ----------------------------------------------------

  function ModeOf(st: ScriptState): Mode {
    match st
    case ScriptData => Plain
    case LessThanSign => Plain
    case EndTagOpen => Plain
    case EscapeStart => Plain
    case EscapeStartDash => Plain
    case DoubleEscaped => InScript
    case DoubleEscapedDash => InScript
    case DoubleEscapedDashDash => InScript
    case DoubleEscapedLessThanSign => InScript
    case DoubleEscapeEnd => InScript
    case _ => InComment
  }

  /** How many bytes a state has read since the mark that it is looking at began. */
  function Behind(st: ScriptState): nat {
    match st
    case EscapeStart => 2
    case EscapeStartDash => 3
    case _ => Room(st)
  }

  predicate AfterSlash(st: ScriptState) {
    st == EndTagOpen || st == EscapedEndTagOpen || st == DoubleEscapeEnd
  }

  /** What a state has read. */
  ghost predicate HasRead(s: Text, p: nat, st: ScriptState) {
    && Behind(st) <= p <= |s|
    && (Behind(st) > 0 ==> s[p - Behind(st)] == '<' as int)
    && (AfterSlash(st) ==> s[p - 1] == '/' as int)
    && (st == EscapeStart ==> s[p - 1] == '!' as int)
    && (st == EscapeStartDash ==> s[p - 2] == '!' as int && s[p - 1] == '-' as int)
    && (st == DoubleEscapeStart ==> IsLetter(s[p - 1]))
    && (st == Escaped || st == DoubleEscaped ==> p > 0 && s[p - 1] != '-' as int)
    && (st == EscapedDash || st == DoubleEscapedDash ==> p > 1 && s[p - 2] != '-' as int && s[p - 1] == '-' as int)
    && (st == EscapedDashDash || st == DoubleEscapedDashDash ==> p > 1 && s[p - 2] == '-' as int && s[p - 1] == '-' as int)
  }

  /** Bytes that are neither "<" nor ">" are no marks. */
  lemma {:induction false} Skipped(s: Text, p: nat, q: nat, mode: Mode)
    requires p <= q <= |s| && forall k :: p <= k < q ==> s[k] != '<' as int && s[k] != '>' as int
    ensures ScriptEnd(s, p, mode) == ScriptEnd(s, q, mode)
    decreases q - p
  {
    if p < q { Skipped(s, p + 1, q, mode); }
  }

  lemma {:induction false} WordIs(s: Text, p: nat, tag: Text, word: string, i: nat)
    requires p + i <= |s| && i <= |word| == |tag| && Letters(tag) && forall k :: 0 <= k < |word| ==> word[k] as int == tag[k]
    ensures WordLength(s, p, tag, i) == |tag| <==> WordAt(s, p, word, i)
    ensures forall k :: p + i <= k < p + WordLength(s, p, tag, i) ==> s[k] != '<' as int && s[k] != '>' as int
    ensures i < WordLength(s, p, tag, i) ==> IsLetter(s[p + i])
    decreases |word| - i
  {
    if i < |word| && p + i < |s| && SameLetter(s[p + i], tag[i]) { WordIs(s, p, tag, word, i + 1); }
  }

  lemma NameIs(s: Text, p: nat)
    requires p <= |s|
    ensures var k := WordLength(s, p, SCRIPT, 0);
      NameAt(s, p) <==> k == |SCRIPT| && p + k < |s| && EndsName(s[p + k])
    ensures forall k :: p <= k < p + WordLength(s, p, SCRIPT, 0) ==> s[k] != '<' as int && s[k] != '>' as int
    ensures WordLength(s, p, SCRIPT, 0) > 0 ==> IsLetter(s[p])
  {
    WordIs(s, p, SCRIPT, "script", 0);
  }

  /** A step of the reader leads from one place to another from which script text ends at the same point. */
  ghost predicate StepIs(s: Text, p: nat, st: ScriptState, step: Step)
    requires Behind(st) <= p
  {
    (step.Goes? ==> step.pos >= 0 && HasRead(s, step.pos, step.next)) && EndIs(s, ScriptEnd(s, p - Behind(st), ModeOf(st)), step)
  }

  ghost predicate EndIs(s: Text, end: Scan, step: Step) {
    match step
    case Ends => end == AtEnd
    case Stops(q) => q >= 0 && end == At(q)
    case Goes(next, q) => q >= Behind(next) && end == ScriptEnd(s, q - Behind(next), ModeOf(next))
  }

  lemma CutShort(s: Text, p: nat, st: ScriptState)
    requires HasRead(s, p, st) && p == |s| && LooksAtOneByte(st)
    ensures ScriptEnd(s, p - Behind(st), ModeOf(st)) == AtEnd
  {
    var r, mode := p - Behind(st), ModeOf(st);
    if r < p {
      NoMark(s, r, mode);
      Skipped(s, r + 1, p, mode);
    }
  }

  /** The bytes since a "<" that opens nothing in plain text are no marks. */
  lemma NothingOpened(s: Text, r: nat, p: nat)
    requires r < p < |s| && s[r] == '<' as int && !ClosesScript(s, r) && !OpensComment(s, r)
    requires forall k :: r < k < p ==> s[k] != '<' as int && s[k] != '>' as int
    ensures ScriptEnd(s, r, Plain) == ScriptEnd(s, p, Plain)
  {
    NoMark(s, r, Plain);
    Skipped(s, r + 1, p, Plain);
  }

  lemma AngleByte(s: Text, p: nat)
    requires HasRead(s, p, LessThanSign) && p < |s|
    ensures StepIs(s, p, LessThanSign, StepOf(s, p, LessThanSign))
  {
    if s[p] != '/' as int && s[p] != '!' as int { NothingOpened(s, p - 1, p); }
  }

  lemma BangByte(s: Text, p: nat)
    requires HasRead(s, p, EscapeStart) && p < |s|
    ensures StepIs(s, p, EscapeStart, StepOf(s, p, EscapeStart))
  {
    if s[p] != '-' as int { NothingOpened(s, p - 2, p); }
  }

  lemma DashByte(s: Text, p: nat)
    requires HasRead(s, p, EscapeStartDash) && p < |s|
    ensures StepIs(s, p, EscapeStartDash, StepOf(s, p, EscapeStartDash))
  {
    if s[p] != '-' as int { NothingOpened(s, p - 3, p); } else { assert OpensComment(s, p - 3) && !ClosesScript(s, p - 3); }
  }

  lemma PlainByte(s: Text, p: nat, st: ScriptState)
    requires HasRead(s, p, st) && p < |s| && LooksAtOneByte(st) && ModeOf(st) == Plain
    ensures StepIs(s, p, st, StepOf(s, p, st))
  {
    if st == LessThanSign {
      AngleByte(s, p);
    } else if st == EscapeStart {
      BangByte(s, p);
    } else if st == EscapeStartDash {
      DashByte(s, p);
    } else if s[p] != '<' as int {
      NoMark(s, p, Plain);
    }
  }

  lemma CommentAngle(s: Text, p: nat)
    requires HasRead(s, p, EscapedLessThanSign) && p < |s|
    ensures StepIs(s, p, EscapedLessThanSign, StepOf(s, p, EscapedLessThanSign))
  {
    if s[p] != '/' as int && !IsLetter(s[p]) {
      assert StrayAngle(s, p - 1) && !ClosesScript(s, p - 1);
      assert !OpensScript(s, p - 1) by { NameIs(s, p); }
    }
  }

  lemma CommentLess(s: Text, p: nat, st: ScriptState)
    requires HasRead(s, p, st) && p < |s| && s[p] == '<' as int && (st == Escaped || st == EscapedDash || st == EscapedDashDash)
    ensures StepIs(s, p, st, StepOf(s, p, st))
  {
  }

  lemma CommentOther(s: Text, p: nat, st: ScriptState)
    requires HasRead(s, p, st) && p < |s| && s[p] != '<' as int && (st == Escaped || st == EscapedDash || st == EscapedDashDash)
    ensures StepIs(s, p, st, StepOf(s, p, st))
  {
    assert !ClosesScript(s, p) && !OpensScript(s, p) && !StrayAngle(s, p);
  }

  lemma CommentByte(s: Text, p: nat, st: ScriptState)
    requires HasRead(s, p, st) && p < |s| && LooksAtOneByte(st) && ModeOf(st) == InComment
    ensures StepIs(s, p, st, StepOf(s, p, st))
  {
    if st == EscapedLessThanSign {
      CommentAngle(s, p);
    } else if s[p] == '<' as int {
      CommentLess(s, p, st);
    } else {
      CommentOther(s, p, st);
    }
  }

  lemma ScriptAngle(s: Text, p: nat)
    requires HasRead(s, p, DoubleEscapedLessThanSign) && p < |s|
    ensures StepIs(s, p, DoubleEscapedLessThanSign, StepOf(s, p, DoubleEscapedLessThanSign))
  {
    if s[p] != '/' as int { assert !ClosesScript(s, p - 1) && !ClosesComment(s, p - 1); }
  }

  lemma ScriptByte(s: Text, p: nat, st: ScriptState)
    requires HasRead(s, p, st) && p < |s| && LooksAtOneByte(st) && ModeOf(st) == InScript
    ensures StepIs(s, p, st, StepOf(s, p, st))
  {
    if st == DoubleEscapedLessThanSign { ScriptAngle(s, p); }
  }

  /** A "</" that is no end tag is no mark, nor is what was compared with the name. */
  lemma NoEndTag(s: Text, p: nat, mode: Mode)
    requires 2 <= p <= |s| && s[p - 2] == '<' as int && s[p - 1] == '/' as int && !NameAt(s, p)
    ensures ScriptEnd(s, p - 2, mode) == ScriptEnd(s, p + WordLength(s, p, SCRIPT, 0), mode)
  {
    NameIs(s, p);
    NameIs(s, p - 1);
    assert WordLength(s, p - 1, SCRIPT, 0) == 0;
    NoMark(s, p - 2, mode);
    Skipped(s, p - 1, p + WordLength(s, p, SCRIPT, 0), mode);
  }

  /** What comes after "</", if k letters match the name, and the name stands there or not. */
  ghost function EndTagResult(s: Text, p: nat, st: ScriptState, found: bool, k: nat): Step {
    if found then (if st == DoubleEscapeEnd then Goes(Escaped, p + 7) else Stops(p - 2))
    else if p + k == |s| then Ends
    else Goes(if st == EndTagOpen then ScriptData else if st == DoubleEscapeEnd then DoubleEscaped else Escaped, p + k)
  }

  lemma EndTagStepOf(s: Text, p: nat, st: ScriptState)
    requires 2 <= p <= |s| && AfterSlash(st)
    ensures StepOf(s, p, st) == EndTagResult(s, p, st, NameAt(s, p), WordLength(s, p, SCRIPT, 0))
  {
    NameIs(s, p);
  }

  lemma LetterBefore(s: Text, p: nat, k: nat)
    requires p <= |s| && k == WordLength(s, p, SCRIPT, 0) && k > 0
    ensures s[p + k - 1] != '-' as int
  {
    WordHasNoDash(s, p, SCRIPT, 0, k - 1);
  }

  lemma {:induction false} WordHasNoDash(s: Text, p: nat, tag: Text, i: nat, k: nat)
    requires p + i <= |s| && i <= |tag| && Letters(tag) && i <= k < WordLength(s, p, tag, i)
    ensures s[p + k] != '-' as int
    decreases |tag| - i
  {
    if i < k { WordHasNoDash(s, p, tag, i + 1, k); }
  }

  lemma EndTagMark(s: Text, p: nat, mode: Mode)
    requires 2 <= p <= |s| && s[p - 2] == '<' as int && s[p - 1] == '/' as int && NameAt(s, p)
    ensures ScriptEnd(s, p - 2, mode) == if mode == InScript then ScriptEnd(s, p + 7, InComment) else At(p - 2)
  {
    assert ClosesScript(s, p - 2);
  }

  /** After "</": an end tag, or not. */
  lemma EndTagStep(s: Text, p: nat, st: ScriptState, found: bool, k: nat)
    requires 2 <= p && p + k <= |s| && AfterSlash(st)
    requires found ==> ScriptEnd(s, p - 2, ModeOf(st)) == if ModeOf(st) == InScript then ScriptEnd(s, p + 7, InComment) else At(p - 2)
    requires !found ==> ScriptEnd(s, p - 2, ModeOf(st)) == ScriptEnd(s, p + k, ModeOf(st))
    ensures EndIs(s, ScriptEnd(s, p - 2, ModeOf(st)), EndTagResult(s, p, st, found, k))
  {
  }

  lemma EndTagReads(s: Text, p: nat, st: ScriptState, found: bool, k: nat)
    requires AfterSlash(st) && p + k <= |s| && 2 <= p
    requires if found then p + 7 <= |s| && s[p + 6] != '-' as int else s[p + k - 1] != '-' as int
    ensures var step := EndTagResult(s, p, st, found, k); step.Goes? ==> step.pos >= 0 && HasRead(s, step.pos, step.next)
  {
    BackInText(s, if found then p + 7 else p + k);
  }

  lemma EndTag(s: Text, p: nat, st: ScriptState)
    requires HasRead(s, p, st) && AfterSlash(st)
    ensures StepIs(s, p, st, StepOf(s, p, st))
  {
    var found, k := NameAt(s, p), WordLength(s, p, SCRIPT, 0);
    EndTagStepOf(s, p, st);
    EndTagEither(s, p, st, found, k);
  }

  lemma EndTagEither(s: Text, p: nat, st: ScriptState, found: bool, k: nat)
    requires HasRead(s, p, st) && AfterSlash(st) && found == NameAt(s, p) && k == WordLength(s, p, SCRIPT, 0)
    ensures StepIs(s, p, st, EndTagResult(s, p, st, found, k))
  {
    NoDashBefore(s, p, k);
    if found { EndTagMark(s, p, ModeOf(st)); } else { NoEndTag(s, p, ModeOf(st)); }
    EndTagStep(s, p, st, found, k);
    EndTagReads(s, p, st, found, k);
  }

  lemma NoDashBefore(s: Text, p: nat, k: nat)
    requires 0 < p <= |s| && k == WordLength(s, p, SCRIPT, 0) && s[p - 1] != '-' as int
    ensures s[p + k - 1] != '-' as int
  {
    if k > 0 { LetterBefore(s, p, k); }
  }

  lemma BackInText(s: Text, q: nat)
    requires 0 < q <= |s| && s[q - 1] != '-' as int
    ensures HasRead(s, q, ScriptData) && HasRead(s, q, Escaped) && HasRead(s, q, DoubleEscaped)
  {
  }

  /** A "<" and a letter that open no script are no mark, nor is what was compared with the name. */
  lemma NoScript(s: Text, p: nat)
    requires 2 <= p <= |s| && s[p - 2] == '<' as int && IsLetter(s[p - 1]) && !NameAt(s, p - 1)
    ensures ScriptEnd(s, p - 2, InComment) == ScriptEnd(s, p - 1 + WordLength(s, p - 1, SCRIPT, 0), InComment)
  {
    NameIs(s, p - 1);
    NoMark(s, p - 2, InComment);
    Skipped(s, p - 1, p - 1 + WordLength(s, p - 1, SCRIPT, 0), InComment);
  }

  ghost function NameResult(s: Text, p: nat): Step
    requires 2 <= p <= |s|
  {
    var k := WordLength(s, p - 1, SCRIPT, 0);
    if NameAt(s, p - 1) then Goes(DoubleEscaped, p + 6) else if p - 1 + k == |s| then Ends else Goes(Escaped, p - 1 + k)
  }

  lemma NameStepOf(s: Text, p: nat)
    requires 2 <= p <= |s|
    ensures StepOf(s, p, DoubleEscapeStart) == NameResult(s, p)
  {
    NameIs(s, p - 1);
  }

  lemma ScriptMark(s: Text, p: nat)
    requires 2 <= p <= |s| && s[p - 2] == '<' as int && IsLetter(s[p - 1]) && NameAt(s, p - 1)
    ensures ScriptEnd(s, p - 2, InComment) == ScriptEnd(s, p + 6, InScript)
  {
    assert OpensScript(s, p - 2) && !ClosesScript(s, p - 2);
  }

  lemma NameMissed(s: Text, p: nat, q: nat)
    requires 2 <= p <= |s| && s[p - 2] == '<' as int && IsLetter(s[p - 1]) && !NameAt(s, p - 1)
    requires q == p - 1 + WordLength(s, p - 1, SCRIPT, 0)
    ensures EndIs(s, ScriptEnd(s, p - 2, InComment), if q == |s| then Ends else Goes(Escaped, q))
  {
    NoScript(s, p);
  }

  /** After "<" and a letter in an escaped section: the name of a script, or not. */
  lemma NameStep(s: Text, p: nat)
    requires HasRead(s, p, DoubleEscapeStart)
    ensures EndIs(s, ScriptEnd(s, p - 2, InComment), NameResult(s, p))
  {
    if NameAt(s, p - 1) { ScriptMark(s, p); } else { NameMissed(s, p, p - 1 + WordLength(s, p - 1, SCRIPT, 0)); }
  }

  lemma NameReads(s: Text, p: nat)
    requires HasRead(s, p, DoubleEscapeStart)
    ensures var step := NameResult(s, p); step.Goes? ==> step.pos >= 0 && HasRead(s, step.pos, step.next)
  {
    if NameAt(s, p - 1) { BackInText(s, p + 6); } else { OtherNameReads(s, p, WordLength(s, p - 1, SCRIPT, 0)); }
  }

  lemma OtherNameReads(s: Text, p: nat, k: nat)
    requires HasRead(s, p, DoubleEscapeStart) && k == WordLength(s, p - 1, SCRIPT, 0) && !NameAt(s, p - 1)
    ensures HasRead(s, p - 1 + k, Escaped)
  {
    NoDashBefore(s, p - 1, k);
    BackInText(s, p - 1 + k);
  }

  lemma EveryStepIs(s: Text, p: nat, st: ScriptState)
    requires Room(st) <= p <= |s| && HasRead(s, p, st)
    ensures StepIs(s, p, st, StepOf(s, p, st))
  {
    if AfterSlash(st) {
      EndTag(s, p, st);
    } else if st == DoubleEscapeStart {
      NameStep(s, p);
      NameReads(s, p);
      NameStepOf(s, p);
    } else if p == |s| {
      CutShort(s, p, st);
    } else if ModeOf(st) == Plain {
      PlainByte(s, p, st);
    } else if ModeOf(st) == InComment {
      CommentByte(s, p, st);
    } else {
      ScriptByte(s, p, st);
    }
  }

  lemma ScriptTakes(s: Text, p: nat, st: ScriptState, from: nat) returns (step: Step)
    requires from + Room(st) <= p <= |s| && HasRead(s, p, st)
    ensures StepIs(s, p, st, step)
    ensures step == Ends ==> Script(s, p, st, from) == AtEnd
    ensures step.Stops? ==> step.pos >= 0 && Script(s, p, st, from) == At(step.pos)
    ensures step.Goes? ==> from + Room(step.next) <= step.pos <= |s| && ScriptProgress(st, step.next, step.pos - p)
    ensures step.Goes? ==> Script(s, p, st, from) == Script(s, step.pos, step.next, from)
  {
    StepProgresses(s, p, st);
    EveryStepIs(s, p, st);
    step := StepOf(s, p, st);
  }

  /** The reader is at p in a state that looks at a mark at r. */
  ghost predicate Follows(s: Text, p: nat, st: ScriptState, r: nat, mode: Mode) {
    HasRead(s, p, st) && r == p - Behind(st) && mode == ModeOf(st)
  }

  /** What a step means for the marks. */
  lemma StepMeans(s: Text, p: nat, st: ScriptState, step: Step) returns (r: nat, mode: Mode)
    requires HasRead(s, p, st) && StepIs(s, p, st, step)
    ensures var end := ScriptEnd(s, p - Behind(st), ModeOf(st));
      match step
      case Goes(next, q) => q >= 0 && Follows(s, q, next, r, mode) && end == ScriptEnd(s, r, mode)
      case Stops(q) => q >= 0 ==> end == At(q)
      case Ends => end == AtEnd
  {
    r, mode := 0, Plain;
    if step.Goes? { r, mode := step.pos - Behind(step.next), ModeOf(step.next); }
  }

  /** One step: both are done, with the same end, or both go on, as before. */
  lemma StepTaken(s: Text, p: nat, st: ScriptState, from: nat) returns (goes: bool, q: nat, next: ScriptState, r: nat, mode: Mode)
    requires from + Room(st) <= p <= |s| && HasRead(s, p, st)
    ensures !goes ==> Script(s, p, st, from) == ScriptEnd(s, p - Behind(st), ModeOf(st))
    ensures goes ==> from + Room(next) <= q <= |s| && ScriptProgress(st, next, q - p)
    ensures goes ==> Script(s, p, st, from) == Script(s, q, next, from)
    ensures goes ==> Follows(s, q, next, r, mode) && ScriptEnd(s, p - Behind(st), ModeOf(st)) == ScriptEnd(s, r, mode)
  {
    var step := ScriptTakes(s, p, st, from);
    r, mode := StepMeans(s, p, st, step);
    goes, q, next := step.Goes?, 0, ScriptData;
    if goes { q, next := step.pos, step.next; }
  }

  /** From every state, script text ends where the marks in it say. */
  lemma {:induction false} ScriptIsModes(s: Text, p: nat, st: ScriptState, from: nat, r: nat, mode: Mode)
    requires from + Room(st) <= p <= |s| && Follows(s, p, st, r, mode)
    ensures Script(s, p, st, from) == ScriptEnd(s, r, mode)
    decreases |s| - p + Ahead(st), Rank(st)
  {
    var goes, q, next, r', mode' := StepTaken(s, p, st, from);
    if goes { ScriptIsModes(s, q, next, from, r', mode'); }
  }

  // ----- The marks in a text ---------------------------------------------------------

  /** The first mark decides. */
  lemma {:induction false} FirstMark(s: Text, p: nat, q: nat, mode: Mode)
    requires p <= q <= |s| && forall k :: p <= k < q ==> !MarkAt(s, k, mode)
    ensures ScriptEnd(s, p, mode) == ScriptEnd(s, q, mode)
    decreases q - p
  {
    if p < q {
      assert !MarkAt(s, p, mode);
      FirstMark(s, p + 1, q, mode);
    }
  }

  /** The whole of script text. */
  lemma ScriptStarts(s: Text, p: nat)
    requires p <= |s|
    ensures Script(s, p, ScriptData, p) == ScriptEnd(s, p, Plain)
  {
    ScriptIsModes(s, p, ScriptData, p, p, Plain);
  }

  /** Without a "<!--" before it, the first end tag ends script text. */
  lemma FirstEndTagEndsScript(s: Text, p: nat, q: nat)
    requires p <= q <= |s| && ClosesScript(s, q)
    requires forall k :: p <= k < q ==> !ClosesScript(s, k) && !OpensComment(s, k)
    ensures ScriptEnd(s, p, Plain) == At(q) && Script(s, p, ScriptData, p) == At(q)
  {
    ScriptStarts(s, p);
    FirstMark(s, p, q, Plain);
    assert FromHere(s, q, Plain) == At(q);
  }

  /** Without an end tag script text runs to the end of the text. */
  lemma {:induction false} NoEndTagNoEnd(s: Text, p: nat, mode: Mode)
    requires forall k :: p <= k < |s| ==> !ClosesScript(s, k)
    ensures ScriptEnd(s, p, mode) == AtEnd
    decreases |s| - p
  {
    if p < |s| {
      NoEndTagNoEnd(s, p + 1, Plain);
      NoEndTagNoEnd(s, p + 1, InComment);
      NoEndTagNoEnd(s, p + 1, InScript);
      NoEndTagNoEnd(s, p + 4, InComment);
      NoEndTagNoEnd(s, p + 8, InScript);
      assert FromHere(s, p, mode) == AtEnd;
    }
  }

  /** A "<!--" before any end tag opens an escaped section. */
  lemma CommentOpens(s: Text, p: nat, c: nat)
    requires p <= c && c + 4 <= |s| && OpensComment(s, c)
    requires forall k :: p <= k < c ==> !ClosesScript(s, k) && !OpensComment(s, k)
    ensures ScriptEnd(s, p, Plain) == ScriptEnd(s, c + 4, InComment)
  {
    FirstMark(s, p, c, Plain);
    assert FromHere(s, c, Plain) == ScriptEnd(s, c + 4, InComment);
  }

  /** In it, the first mark, at q, ends script text, opens a script, or leads back to plain text. */
  lemma CommentGoesOn(s: Text, p: nat, q: nat)
    requires p <= q < |s| && MarkAt(s, q, InComment) && forall k :: p <= k < q ==> !MarkAt(s, k, InComment)
    ensures ScriptEnd(s, p, InComment) ==
      if ClosesScript(s, q) then At(q) else if OpensScript(s, q) then ScriptEnd(s, q + 8, InScript) else ScriptEnd(s, q + 1, Plain)
  {
    FirstMark(s, p, q, InComment);
    assert ScriptEnd(s, q, InComment) == FromHere(s, q, InComment);
  }

  /** In a script in it, the first mark, at q, leads back to the escaped section or to plain text. */
  lemma InnerScriptGoesOn(s: Text, p: nat, q: nat)
    requires p <= q < |s| && MarkAt(s, q, InScript) && forall k :: p <= k < q ==> !MarkAt(s, k, InScript)
    ensures ScriptEnd(s, p, InScript) == if ClosesScript(s, q) then ScriptEnd(s, q + 9, InComment) else ScriptEnd(s, q + 1, Plain)
  {
    FirstMark(s, p, q, InScript);
    assert ScriptEnd(s, q, InScript) == FromHere(s, q, InScript);
  }
}
