/**
 The text of a configuration file, read line by line into the data of a Config, and written from it.
 */
module ConfigText {
  import opened ConfigData
  import opened Basics

  const NEWLINE: char := '\n'

  // ----- Strings ---------------------------------------------------------------------

  function TrimLeft(s: string): string {
    if s != [] && IsSpace(s[0]) then TrimLeft(s[1..]) else s
  }

  function TrimRight(s: string): string {
    if s != [] && IsSpace(s[|s| - 1]) then TrimRight(s[..|s| - 1]) else s
  }

  /** strings.TrimSpace */
  function Trim(s: string): string {
    TrimRight(TrimLeft(s))
  }

  predicate Trimmed(s: string) {
    s != [] ==> !IsSpace(s[0]) && !IsSpace(s[|s| - 1])
  }

  predicate AllSpace(s: string) {
    forall k :: 0 <= k < |s| ==> IsSpace(s[k])
  }

  lemma {:induction false} TrimLeftDrops(z: string, x: string)
    requires AllSpace(z) && (x != [] ==> !IsSpace(x[0]))
    ensures TrimLeft(z + x) == x
  {
    if z == [] { assert z + x == x; } else {
      assert (z + x)[1..] == z[1..] + x;
      TrimLeftDrops(z[1..], x);
    }
  }

  lemma {:induction false} TrimRightDrops(x: string, z: string)
    requires AllSpace(z) && (x != [] ==> !IsSpace(x[|x| - 1]))
    ensures TrimRight(x + z) == x
  {
    if z == [] { assert x + z == x; } else {
      var n := |z| - 1;
      assert (x + z)[..|x + z| - 1] == x + z[..n];
      TrimRightDrops(x, z[..n]);
    }
  }

  lemma TrimDrops(y: string, x: string, z: string)
    requires AllSpace(y) && AllSpace(z) && Trimmed(x) && x != []
    ensures Trim(y + x + z) == x
  {
    assert y + x + z == y + (x + z);
    TrimLeftDrops(y, x + z);
    TrimRightDrops(x, z);
  }

  /** strings.Index of two characters */
  function IndexOf(l: string, a: char, b: char): (i: int)
    ensures -1 <= i < |l|
  {
    if |l| < 2 then -1
    else if l[0] == a && l[1] == b then 0
    else var i := IndexOf(l[1..], a, b); if i == -1 then -1 else i + 1
  }

  function CutAt(l: string, a: char, b: char): string {
    var i := IndexOf(l, a, b);
    if i == -1 then l else l[..i]
  }

  /** stripComments */
  function StripComments(l: string): string {
    CutAt(CutAt(CutAt(CutAt(l, ' ', ';'), '\t', ';'), ' ', '#'), '\t', '#')
  }

  predicate IsSeparator(c: char) {
    c == '=' || c == ':'
  }

  /** strings.IndexAny of the separators; the length if there is none. */
  function SeparatorAt(l: string): (i: nat)
    ensures i <= |l| && (i < |l| ==> IsSeparator(l[i])) && forall k :: 0 <= k < i ==> !IsSeparator(l[k])
  {
    if l == [] || IsSeparator(l[0]) then 0 else 1 + SeparatorAt(l[1..])
  }

  lemma SeparatorIs(a: string, c: char, b: string)
    requires IsSeparator(c) && forall k :: 0 <= k < |a| ==> !IsSeparator(a[k])
    ensures SeparatorAt(a + [c] + b) == |a|
  {
    var l := a + [c] + b;
    assert l[|a|] == c;
    assert forall k :: 0 <= k < |a| ==> l[k] == a[k];
  }

  // ----- Reading ---------------------------------------------------------------------

  /** The state, and the section and option that the last lines were about. */
  datatype Cursor = Cursor(state: State, section: string, option: string)

  function RawString(s: State, section: string, option: string): string {
    if section in s.data && option in s.data[section] then s.data[section][option].text
    else if DEFAULT_SECTION in s.data && option in s.data[DEFAULT_SECTION] then s.data[DEFAULT_SECTION][option].text
    else ""
  }

  predicate IsHeader(l: string) {
    |l| > 0 && l[0] == '[' && l[|l| - 1] == ']'
  }

  /** What a line is: empty or a comment, a section's header, an option with its value, or more of a value. */
  datatype Line = Blank | Header(section: string) | Option(option: string, text: string) | More(text: string)

  function Classify(l: string): Line {
    if l == [] || l[0] == '#' || l[0] == ';' then Blank
    else if IsHeader(l) then Header(Trim(l[1..|l| - 1]))
    else
      var i := SeparatorAt(l);
      if 0 < i < |l| then Option(Trim(l[..i]), Trim(StripComments(l[i + 1..]))) else More(Trim(StripComments(l)))
  }

  function Put(c: Cursor, o: string, t: string): (next: Cursor)
    requires DEFAULT_SECTION in c.state.data
    ensures DEFAULT_SECTION in next.state.data
  {
    Cursor(AddOption(c.state, c.section, o, t), c.section, o)
  }

  /** Where the cursor is after a further line of the value that it is at. */
  function Continued(c: Cursor, u: string): (next: Cursor)
    requires DEFAULT_SECTION in c.state.data
    ensures DEFAULT_SECTION in next.state.data
  {
    Put(c, c.option, RawString(c.state, c.section, c.option) + [NEWLINE] + u)
  }

  function Take(c: Cursor, line: Line): (r: Result<Cursor>)
    requires DEFAULT_SECTION in c.state.data
    ensures r.Ok? ==> DEFAULT_SECTION in r.value.state.data
  {
    match line
    case Blank => Ok(c)
    case Header(section) => Ok(Cursor(AddSection(c.state, section), section, ""))
    case Option(o, t) => Ok(Put(c, o, t))
    case More(u) => if c.section != "" && c.option != "" then Ok(Continued(c, u)) else Err
  }

  function ReadLine(c: Cursor, line: string): (r: Result<Cursor>)
    requires DEFAULT_SECTION in c.state.data
    ensures r.Ok? ==> DEFAULT_SECTION in r.value.state.data
  {
    Take(c, Classify(Trim(line)))
  }

  function NewlineAt(s: string): (i: nat)
    ensures i <= |s| && (i < |s| ==> s[i] == NEWLINE) && forall k :: 0 <= k < i ==> s[k] != NEWLINE
  {
    if s == [] || s[0] == NEWLINE then 0 else 1 + NewlineAt(s[1..])
  }

  /** Line by line; what follows the last newline is not read. */
  function ReadText(c: Cursor, s: string): Result<Cursor>
    requires DEFAULT_SECTION in c.state.data
    decreases |s|
  {
    var i := NewlineAt(s);
    if i == |s| then Ok(c)
    else
      match ReadLine(c, s[..i])
      case Err => Err
      case Ok(next) => ReadText(next, s[i + 1..])
  }

  lemma EmptyLine(c: Cursor, rest: string)
    requires DEFAULT_SECTION in c.state.data
    ensures ReadText(c, [NEWLINE] + rest) == ReadText(c, rest)
  {
    assert [] + [NEWLINE] + rest == [NEWLINE] + rest;
    FirstLine(c, [], rest);
  }

  lemma FirstLine(c: Cursor, line: string, rest: string)
    requires DEFAULT_SECTION in c.state.data && forall k :: 0 <= k < |line| ==> line[k] != NEWLINE
    ensures ReadText(c, line + [NEWLINE] + rest) ==
      match ReadLine(c, line) case Err => Err case Ok(next) => ReadText(next, rest)
  {
    var s := line + [NEWLINE] + rest;
    assert s[|line|] == NEWLINE;
    assert forall k :: 0 <= k < |line| ==> s[k] == line[k];
    assert NewlineAt(s) == |line|;
    assert s[..|line|] == line && s[|line| + 1..] == rest;
  }

  // ----- Lines that are read back ----------------------------------------------------

  /** What New accepts: a separator with an optional space on either side. */
  datatype Separator = Separator(preSpace: bool, sign: char, postSpace: bool)

  function Space(b: bool): string {
    if b then [' '] else []
  }

  function SeparatorText(sep: Separator): string {
    Space(sep.preSpace) + [sep.sign] + Space(sep.postSpace)
  }

  predicate OneLine(s: string) {
    forall k :: 0 <= k < |s| ==> s[k] != NEWLINE
  }

  predicate CleanOption(o: string) {
    o != [] && Trimmed(o) && o[0] != '#' && o[0] != ';' && forall k :: 0 <= k < |o| ==> !IsSeparator(o[k])
  }

  /** Nothing in the value, with the space before it, looks like a comment. */
  predicate CleanText(t: string, sep: Separator) {
    Trimmed(t) && StripComments(Space(sep.postSpace) + t) == Space(sep.postSpace) + t
  }

  /** An option and a value on one line, which does not look like a header. */
  predicate CleanLine(sep: Separator, o: string, t: string) {
    CleanOption(o) && CleanText(t, sep) && !(o[0] == '[' && t != [] && t[|t| - 1] == ']')
  }

  /** A further line of a value: no comment, no header, no option. */
  predicate CleanMore(u: string) {
    && u != [] && Trimmed(u) && u[0] != '#' && u[0] != ';' && !IsHeader(u)
    && (SeparatorAt(u) == 0 || SeparatorAt(u) == |u|) && StripComments(u) == u
  }

  predicate CleanSection(name: string) {
    name != [] && Trimmed(name) && OneLine(name)
  }

  /** After trimming, an option's line is the option, the separator and what is left of the value. */
  lemma OptionLine(o: string, pre: string, sign: char, post: string, t: string)
    requires o != [] && Trimmed(o) && Trimmed(t) && AllSpace(pre) && AllSpace(post) && !IsSpace(sign)
    ensures Trim(o + (pre + [sign] + post) + t) == o + pre + [sign] + if t == [] then [] else post + t
  {
    var whole := o + (pre + [sign] + post) + t;
    if t == [] {
      var x := o + pre + [sign];
      assert whole == [] + x + post;
      assert x[0] == o[0];
      TrimDrops([], x, post);
    } else {
      WholeLine(o, pre + [sign] + post, t);
      assert whole == o + pre + [sign] + (post + t);
    }
  }

  lemma WholeLine(o: string, middle: string, t: string)
    requires o != [] && Trimmed(o) && t != [] && Trimmed(t)
    ensures Trim(o + middle + t) == o + middle + t
  {
    var whole := o + middle + t;
    assert whole[0] == o[0] && whole[|whole| - 1] == t[|t| - 1];
    assert whole == [] + whole + [];
    TrimDrops([], whole, []);
  }

  lemma NoComment()
    ensures StripComments([]) == []
  {
  }

  lemma TextReads(sep: Separator, t: string)
    requires CleanText(t, sep)
    ensures Trim(StripComments(if t == [] then [] else Space(sep.postSpace) + t)) == t
  {
    if t == [] {
      NoComment();
    } else {
      assert Space(sep.postSpace) + t == Space(sep.postSpace) + t + [];
      TrimDrops(Space(sep.postSpace), t, []);
    }
  }

  lemma SplitReads(before: string, sign: char, value: string, o: string)
    requires IsSeparator(sign)
    requires o != [] && |before| >= |o| && before[0] == o[0] && Trim(before) == o
    requires o[0] != '#' && o[0] != ';' && forall k :: 0 <= k < |before| ==> !IsSeparator(before[k])
    requires !(o[0] == '[' && value != [] && value[|value| - 1] == ']')
    ensures Classify(before + [sign] + value) == Option(o, Trim(StripComments(value)))
  {
    var l := before + [sign] + value;
    SeparatorIs(before, sign, value);
    assert l[0] == o[0] && l[..|before|] == before && l[|before| + 1..] == value;
  }

  lemma KeyReads(o: string, pre: string)
    requires o != [] && Trimmed(o) && AllSpace(pre) && forall k :: 0 <= k < |o| ==> !IsSeparator(o[k])
    ensures Trim(o + pre) == o && forall k :: 0 <= k < |o + pre| ==> !IsSeparator((o + pre)[k])
  {
    assert o + pre == [] + o + pre;
    TrimDrops([], o, pre);
  }

  lemma LineIsOption(pre: string, sign: char, post: string, o: string, t: string)
    requires AllSpace(pre) && IsSeparator(sign) && AllSpace(post) && CleanOption(o) && Trimmed(t)
    requires !(o[0] == '[' && t != [] && t[|t| - 1] == ']')
    requires Trim(StripComments(if t == [] then [] else post + t)) == t
    ensures Classify(Trim(o + (pre + [sign] + post) + t)) == Option(o, t)
  {
    var value := if t == [] then [] else post + t;
    OptionLine(o, pre, sign, post, t);
    KeyReads(o, pre);
    assert value != [] ==> value[|value| - 1] == t[|t| - 1];
    SplitReads(o + pre, sign, value, o);
  }

  lemma OptionClassified(sep: Separator, o: string, t: string)
    requires IsSeparator(sep.sign) && CleanLine(sep, o, t)
    ensures Classify(Trim(o + SeparatorText(sep) + t)) == Option(o, t)
  {
    TextReads(sep, t);
    LineIsOption(Space(sep.preSpace), sep.sign, Space(sep.postSpace), o, t);
  }

  /** A clean option and value are read back from their line. */
  lemma OptionReads(c: Cursor, sep: Separator, o: string, t: string)
    requires DEFAULT_SECTION in c.state.data && IsSeparator(sep.sign) && CleanLine(sep, o, t)
    ensures ReadLine(c, o + SeparatorText(sep) + t) == Ok(Put(c, o, t))
  {
    OptionClassified(sep, o, t);
  }

  lemma HeaderReads(c: Cursor, name: string)
    requires DEFAULT_SECTION in c.state.data && CleanSection(name)
    ensures ReadLine(c, ['['] + name + [']']) == Ok(Cursor(AddSection(c.state, name), name, ""))
  {
    var l := ['['] + name + [']'];
    assert l == [] + l + [];
    TrimDrops([], l, []);
    assert l[1..|l| - 1] == name;
    assert name == [] + name + [];
    TrimDrops([], name, []);
  }

  // ----- Exactly which lines are read back -------------------------------------------

  lemma {:induction false} TrimLeftWithin(s: string)
    ensures |TrimLeft(s)| <= |s| && TrimLeft(s) == s[|s| - |TrimLeft(s)|..]
    ensures TrimLeft(s) != [] ==> !IsSpace(TrimLeft(s)[0])
    ensures AllSpace(s[..|s| - |TrimLeft(s)|])
  {
    if s != [] && IsSpace(s[0]) {
      TrimLeftWithin(s[1..]);
      var k := |s| - |TrimLeft(s)|;
      assert s[..k] == [s[0]] + s[1..][..k - 1];
    }
  }

  lemma {:induction false} TrimRightWithin(s: string)
    ensures TrimRight(s) <= s && (TrimRight(s) != [] ==> !IsSpace(TrimRight(s)[|TrimRight(s)| - 1]))
    ensures AllSpace(s[|TrimRight(s)|..])
  {
    if s != [] && IsSpace(s[|s| - 1]) {
      var n := |s| - 1;
      TrimRightWithin(s[..n]);
      assert s[|TrimRight(s)|..] == s[..n][|TrimRight(s)|..] + [s[n]];
    }
  }

  /** What trimming leaves is a trimmed piece of the string, with only white space around it. */
  lemma TrimWithin(s: string) returns (k: nat)
    ensures Trimmed(Trim(s)) && k + |Trim(s)| <= |s| && Trim(s) == s[k..k + |Trim(s)|]
    ensures forall j :: 0 <= j < |s| && !IsSpace(s[j]) ==> k <= j < k + |Trim(s)|
  {
    var left := TrimLeft(s);
    TrimLeftWithin(s);
    TrimRightWithin(left);
    k := |s| - |left|;
    var n := |Trim(s)|;
    assert left == s[k..] && s == s[..k] + left[..n] + left[n..];
  }

  lemma StripIsPrefix(l: string)
    ensures StripComments(l) <= l
  {
  }

  lemma ShortIsKept(l: string)
    requires |l| <= 1
    ensures StripComments(l) == l
  {
  }

  lemma TextIsClean(post: string, t: string)
    requires AllSpace(post) && |post| <= 1 && Trim(StripComments(post + t)) == t
    ensures StripComments(post + t) == post + t
  {
    var whole, x := post + t, StripComments(post + t);
    StripIsPrefix(whole);
    var k := TrimWithin(x);
    if t == [] {
      ShortIsKept(whole);
    } else {
      assert x[k] == t[0] && !IsSpace(t[0]) && (|post| == 1 ==> whole[0] == post[0]);
      assert |x| >= |whole|;
    }
  }

  /** Two options put are the same only if option and text are; and putting one never leaves all as it was. */
  lemma PutTells(c: Cursor, o: string, t: string, o': string, t': string)
    requires DEFAULT_SECTION in c.state.data
    ensures Put(c, o, t) != c
    ensures Put(c, o, t) == Put(c, o', t') ==> o == o' && t == t'
  {
    var s, name := AddSection(c.state, c.section), Named(c.section);
    var a, b := AddOption(c.state, c.section, o, t), AddOption(c.state, c.section, o', t');
    assert Counter(a, name) == Counter(s, name) + 1 && Counter(s, name) == Counter(c.state, name);
    assert a.data[name][o].text == t && b.data[name][o'].text == t';
  }

  lemma TakeTells(c: Cursor, line: Line, o: string, t: string)
    requires DEFAULT_SECTION in c.state.data && OneLine(t) && (line.Header? ==> o != [])
    requires Take(c, line) == Ok(Put(c, o, t))
    ensures line == Option(o, t)
  {
    match line
    case Blank => PutTells(c, o, t, o, t);
    case Header(_) =>
    case Option(o', t') => PutTells(c, o, t, o', t');
    case More(u) =>
      var prev := RawString(c.state, c.section, c.option);
      assert (prev + [NEWLINE] + u)[|prev|] == NEWLINE;
      PutTells(c, o, t, c.option, prev + [NEWLINE] + u);
  }

  lemma OptionIsTrimmed(l: string, i: nat, o: string)
    requires 0 < i <= |l| && !IsSpace(l[0]) && o == Trim(l[..i]) && forall k :: 0 <= k < i ==> !IsSeparator(l[k])
    ensures o != [] && Trimmed(o) && o[0] == l[0] && forall k :: 0 <= k < |o| ==> !IsSeparator(o[k])
  {
    var k := TrimWithin(l[..i]);
    assert l[..i][0] == l[0] && k == 0;
    assert forall j :: 0 <= j < |o| ==> o[j] == l[j];
  }

  /** The line of an option, trimmed: the sign is in it, and it starts with it if there is no option. */
  lemma LineStarts(pre: string, sign: char, post: string, o: string, t: string)
    requires AllSpace(pre) && !IsSpace(sign)
    ensures var l := Trim(o + (pre + [sign] + post) + t);
      l != [] && !IsSpace(l[0]) && (o == [] ==> l[0] == sign)
  {
    var line := o + (pre + [sign] + post) + t;
    var at := |o| + |pre|;
    assert line[at] == sign;
    var k := TrimWithin(line);
    assert o == [] ==> forall j :: 0 <= j < at ==> line[j] == pre[j];
    assert Trim(line)[0] == line[k];
  }

  lemma OptionIsClean(l: string, o: string, t: string)
    requires l != [] && !IsSpace(l[0]) && Classify(l) == Option(o, t)
    ensures CleanOption(o) && o[0] == l[0] && Trimmed(t) && !IsHeader(l)
    ensures SeparatorAt(l) < |l| && t == Trim(StripComments(l[SeparatorAt(l) + 1..]))
  {
    var i := SeparatorAt(l);
    OptionIsTrimmed(l, i, o);
    var k := TrimWithin(StripComments(l[i + 1..]));
  }

  lemma CleanIfClassified(pre: string, sign: char, post: string, o: string, t: string)
    requires AllSpace(pre) && IsSeparator(sign) && AllSpace(post) && |post| <= 1
    requires Classify(Trim(o + (pre + [sign] + post) + t)) == Option(o, t)
    ensures CleanOption(o) && Trimmed(t) && StripComments(post + t) == post + t && !(o[0] == '[' && t != [] && t[|t| - 1] == ']')
  {
    var l := Trim(o + (pre + [sign] + post) + t);
    LineStarts(pre, sign, post, o, t);
    OptionIsClean(l, o, t);
    OptionLine(o, pre, sign, post, t);
    KeyReads(o, pre);
    if t == [] {
      ShortIsKept(post);
      assert post + t == post;
    } else {
      ValueIsClean(l, o + pre, sign, post, t);
    }
  }

  lemma ValueIsClean(l: string, before: string, sign: char, post: string, t: string)
    requires IsSeparator(sign) && AllSpace(post) && |post| <= 1 && forall k :: 0 <= k < |before| ==> !IsSeparator(before[k])
    requires t != [] && l == before + [sign] + (post + t)
    requires !IsHeader(l) && SeparatorAt(l) < |l| && t == Trim(StripComments(l[SeparatorAt(l) + 1..]))
    ensures StripComments(post + t) == post + t && !(l[0] == '[' && t[|t| - 1] == ']')
  {
    ValueIs(l, before, sign, post + t);
    TextIsClean(post, t);
  }

  lemma ValueIs(l: string, before: string, sign: char, value: string)
    requires l == before + [sign] + value && IsSeparator(sign) && forall k :: 0 <= k < |before| ==> !IsSeparator(before[k])
    ensures SeparatorAt(l) == |before| && l[|before| + 1..] == value && l[|l| - 1] == if value == [] then sign else value[|value| - 1]
  {
    SeparatorIs(before, sign, value);
  }

  /** An option and its value are read back from their line if and only if they are clean. */
  lemma OptionReadsIff(c: Cursor, sep: Separator, o: string, t: string)
    requires DEFAULT_SECTION in c.state.data && IsSeparator(sep.sign) && OneLine(o) && OneLine(t)
    ensures ReadLine(c, o + SeparatorText(sep) + t) == Ok(Put(c, o, t)) <==> CleanLine(sep, o, t)
  {
    if CleanLine(sep, o, t) { OptionReads(c, sep, o, t); }
    var l := Trim(o + SeparatorText(sep) + t);
    if Take(c, Classify(l)) == Ok(Put(c, o, t)) {
      LineStarts(Space(sep.preSpace), sep.sign, Space(sep.postSpace), o, t);
      TakeTells(c, Classify(l), o, t);
      CleanIfClassified(Space(sep.preSpace), sep.sign, Space(sep.postSpace), o, t);
    }
  }

  lemma TrimKeeps(u: string)
    requires Trimmed(u)
    ensures Trim(u) == u
  {
    if u != [] {
      assert u == [] + u + [];
      TrimDrops([], u, []);
    }
  }

  lemma MoreReads(c: Cursor, u: string)
    requires DEFAULT_SECTION in c.state.data && c.section != "" && c.option != "" && CleanMore(u)
    ensures ReadLine(c, u) == Ok(Continued(c, u))
  {
    TrimKeeps(u);
  }

  lemma NoNewline(u: string, l: string, t: string)
    requires OneLine(u) && l == Trim(u) && Classify(l).Option? && t == Classify(l).text
    ensures OneLine(t)
  {
    var k := TrimWithin(u);
    assert forall j :: 0 <= j < |l| ==> l[j] == u[k + j];
    var x := l[SeparatorAt(l) + 1..];
    PieceIsOneLine(x);
  }

  lemma PieceIsOneLine(x: string)
    requires OneLine(x)
    ensures OneLine(Trim(StripComments(x)))
  {
    StripIsPrefix(x);
    var y := StripComments(x);
    assert OneLine(y);
    var m := TrimWithin(y);
  }

  lemma TakeTellsMore(c: Cursor, line: Line, u: string)
    requires DEFAULT_SECTION in c.state.data && c.section != "" && c.option != "" && (line.Option? ==> OneLine(line.text))
    requires Take(c, line) == Ok(Continued(c, u))
    ensures line == More(u)
  {
    var prev := RawString(c.state, c.section, c.option);
    var text := prev + [NEWLINE] + u;
    assert text[|prev|] == NEWLINE && text[|prev| + 1..] == u;
    match line
    case Blank => PutTells(c, c.option, text, c.option, text);
    case Header(_) =>
    case Option(o, t) => PutTells(c, c.option, text, o, t);
    case More(u') =>
      var text' := prev + [NEWLINE] + u';
      PutTells(c, c.option, text, c.option, text');
      assert text'[|prev| + 1..] == u';
  }

  /** A further line of a value is read back if and only if it is clean. */
  lemma MoreReadsIff(c: Cursor, u: string)
    requires DEFAULT_SECTION in c.state.data && c.section != "" && c.option != "" && OneLine(u)
    ensures ReadLine(c, u) == Ok(Continued(c, u)) <==> CleanMore(u)
  {
    if CleanMore(u) { MoreReads(c, u); }
    var l := Trim(u);
    if Take(c, Classify(l)) == Ok(Continued(c, u)) {
      if Classify(l).Option? { NoNewline(u, l, Classify(l).text); }
      TakeTellsMore(c, Classify(l), u);
      MoreIsClean(u);
    }
  }

  lemma MoreIsClean(u: string)
    requires Classify(Trim(u)) == More(u)
    ensures CleanMore(u)
  {
    var l := Trim(u);
    var k := TrimWithin(StripComments(l));
    TrimKeeps(u);
    assert [] + u == u;
    TextIsClean([], u);
  }
}
