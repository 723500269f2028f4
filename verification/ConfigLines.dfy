/** What a line of a configuration file is, by its characters: comments, headers, options and values. */
module ConfigLines {
  import opened Basics
  import opened ConfigText

  /** A comment within a line: a space or tab, and then a semicolon or number sign. */
  predicate CommentAt(l: string, k: nat) {
    k + 1 < |l| && (l[k] == ' ' || l[k] == '\t') && (l[k + 1] == ';' || l[k + 1] == '#')
  }

  predicate PairAt(l: string, k: nat, a: char, b: char) {
    k + 1 < |l| && l[k] == a && l[k + 1] == b
  }

  lemma {:induction false} IndexIsFirst(l: string, a: char, b: char)
    ensures var i := IndexOf(l, a, b);
      (if i == -1 then forall k: nat :: !PairAt(l, k, a, b) else PairAt(l, i, a, b) && forall k: nat :: k < i ==> !PairAt(l, k, a, b))
  {
    if |l| >= 2 && !(l[0] == a && l[1] == b) {
      IndexIsFirst(l[1..], a, b);
      forall k: nat | k > 0 ensures PairAt(l, k, a, b) == PairAt(l[1..], k - 1, a, b) { assert k < |l| ==> l[k] == l[1..][k - 1]; }
      assert !PairAt(l, 0, a, b);
    }
  }

  /** What is cut off starts with the pair, and what is left has none. */
  lemma CutIsFirst(l: string, n: nat, a: char, b: char) returns (m: nat)
    requires n <= |l|
    ensures m <= n && CutAt(l[..n], a, b) == l[..m] && (m < n ==> PairAt(l, m, a, b))
    ensures forall k: nat :: k + 1 < m ==> !PairAt(l, k, a, b)
  {
    var i := IndexOf(l[..n], a, b);
    IndexIsFirst(l[..n], a, b);
    m := if i == -1 then n else i;
    assert l[..n][..m] == l[..m];
    forall k: nat | k + 1 < m ensures !PairAt(l, k, a, b) { assert PairAt(l, k, a, b) == PairAt(l[..n], k, a, b); }
  }

  /** Everything from the first comment on is stripped, and nothing else. */
  lemma StripsFirstComment(l: string)
    ensures var r := StripComments(l);
      |r| <= |l| && r == l[..|r|] && (|r| < |l| ==> CommentAt(l, |r|)) && forall k: nat :: k < |r| ==> !CommentAt(l, k)
  {
    assert l[..|l|] == l;
    var m1 := CutIsFirst(l, |l|, ' ', ';');
    var m2 := CutIsFirst(l, m1, '\t', ';');
    var m3 := CutIsFirst(l, m2, ' ', '#');
    var m := CutIsFirst(l, m3, '\t', '#');
    assert m < |l| ==> CommentAt(l, m);
    forall k: nat | k < m ensures !CommentAt(l, k) {
      assert k + 1 < m ==> !PairAt(l, k, ' ', ';') && !PairAt(l, k, '\t', ';') && !PairAt(l, k, ' ', '#') && !PairAt(l, k, '\t', '#');
    }
  }

  /** So a text is kept exactly if it has no comment. */
  lemma StripsNothingIff(l: string)
    ensures StripComments(l) == l <==> forall k: nat :: k < |l| ==> !CommentAt(l, k)
  {
    StripsFirstComment(l);
  }

  /** What is trimmed has no white space at its ends, and lost nothing else. */
  lemma {:induction false} TrimsOnlySpace(s: string) returns (y: string, z: string)
    ensures s == y + Trim(s) + z && AllSpace(y) && AllSpace(z) && Trimmed(Trim(s))
  {
    y := LeftSpace(s);
    z := RightSpace(TrimLeft(s));
    var t := TrimLeft(s);
    assert Trim(s) != [] ==> Trim(s)[0] == t[0];
  }

  lemma {:induction false} LeftSpace(s: string) returns (y: string)
    ensures s == y + TrimLeft(s) && AllSpace(y) && (TrimLeft(s) != [] ==> !IsSpace(TrimLeft(s)[0]))
  {
    y := [];
    if s != [] && IsSpace(s[0]) {
      y := LeftSpace(s[1..]);
      y := [s[0]] + y;
    }
  }

  lemma {:induction false} RightSpace(s: string) returns (z: string)
    ensures s == TrimRight(s) + z && AllSpace(z) && (TrimRight(s) != [] ==> !IsSpace(TrimRight(s)[|TrimRight(s)| - 1]))
  {
    z := [];
    if s != [] && IsSpace(s[|s| - 1]) {
      z := RightSpace(s[..|s| - 1]);
      z := z + [s[|s| - 1]];
    }
  }

  /** The lines that are blank, headers, options and further lines of a value. */
  lemma LinesAre(l: string)
    requires l != []
    ensures Classify(l) == Blank <==> l[0] == '#' || l[0] == ';'
    ensures Classify(l).Header? <==> l[0] == '[' && l[|l| - 1] == ']'
    ensures Classify(l).Option? <==>
      l[0] != '#' && l[0] != ';' && !(l[0] == '[' && l[|l| - 1] == ']') && l[0] != '=' && l[0] != ':' && ('=' in l || ':' in l)
  {
    var i := SeparatorAt(l);
    assert i < |l| <==> '=' in l || ':' in l;
  }

  /** An option ends at the first equals sign or colon, and a header is what stands between its brackets. */
  lemma PartsAre(o: string, sign: char, t: string)
    requires o != [] && o[0] != '#' && o[0] != ';' && '=' !in o && ':' !in o && (sign == '=' || sign == ':')
    requires !(o[0] == '[' && (o + [sign] + t)[|o + [sign] + t| - 1] == ']')
    ensures Classify(o + [sign] + t) == Option(Trim(o), Trim(StripComments(t)))
  {
    var l := o + [sign] + t;
    assert forall k :: 0 <= k < |o| ==> l[k] == o[k] && o[k] in o;
    SeparatorIs(o, sign, t);
    assert l[..|o|] == o && l[|o| + 1..] == t;
  }

  lemma HeaderIs(name: string)
    ensures Classify(['['] + name + [']']) == Header(Trim(name))
  {
    var l := ['['] + name + [']'];
    assert l[1..|l| - 1] == name;
  }

  /** A text is read up to its first line feed, and the rest after it. */
  lemma FirstLineIs(c: Cursor, line: string, rest: string)
    requires "DEFAULT" in c.state.data && '\n' !in line
    ensures ReadText(c, line + ['\n'] + rest) ==
      match ReadLine(c, line) case Err => Err case Ok(next) => ReadText(next, rest)
  {
    FirstLine(c, line, rest);
  }

  /** A separator is its sign, with a space before or after it, or both, if asked for. */
  lemma SeparatorsAre(sign: char)
    ensures SeparatorText(Separator(false, sign, false)) == [sign] && SeparatorText(Separator(true, sign, true)) == [' ', sign, ' ']
    ensures SeparatorText(Separator(true, sign, false)) == [' ', sign] && SeparatorText(Separator(false, sign, true)) == [sign, ' ']
  {
  }
}
