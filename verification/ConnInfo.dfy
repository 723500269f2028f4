/**
 Connection strings in pq: the scanner that reads `key=value` pairs, and the rendering of a URL's
 parts into such a string.
 */
module ConnInfo {
  import opened Basics

  const QUOTE: char := '\''
  const BACKSLASH: char := '\\'

  type Options = map<string, string>

  // ----- Reading, as functions of what is left of the text ---------------------------

  function Trimmed(s: string): string {
    if s != [] && IsSpace(s[0]) then Trimmed(s[1..]) else s
  }

  predicate KeyChar(c: char) {
    !IsSpace(c) && c != '='
  }

  function KeyLength(s: string): (n: nat)
    ensures n <= |s| && (n < |s| ==> !KeyChar(s[n]))
  {
    if s != [] && KeyChar(s[0]) then 1 + KeyLength(s[1..]) else 0
  }

  datatype Piece = Piece(value: string, rest: string)

  function Cons(c: char, r: Result<Piece>): Result<Piece> {
    match r case Ok(p) => Ok(Piece([c] + p.value, p.rest)) case Err => Err
  }

  /** Up to a space, which is consumed, or the end; a backslash takes the next character as it is. */
  function Unquoted(s: string): (r: Result<Piece>)
    ensures r.Ok? ==> |r.value.rest| <= |s| && (s != [] ==> |r.value.rest| < |s|)
    decreases |s|
  {
    if s == [] then Ok(Piece([], []))
    else if IsSpace(s[0]) then Ok(Piece([], s[1..]))
    else if s[0] != BACKSLASH then Cons(s[0], Unquoted(s[1..]))
    else if |s| == 1 then Err
    else Cons(s[1], Unquoted(s[2..]))
  }

  /** Up to the closing quote. */
  function Quoted(s: string): (r: Result<Piece>)
    ensures r.Ok? ==> |r.value.rest| < |s|
    decreases |s|
  {
    if s == [] then Err
    else if s[0] == QUOTE then Ok(Piece([], s[1..]))
    else if s[0] != BACKSLASH then Cons(s[0], Quoted(s[1..]))
    else if |s| == 1 then Err
    else Cons(s[1], Quoted(s[2..]))
  }

  function Value(s: string): (r: Result<Piece>)
    requires s != []
    ensures r.Ok? ==> |r.value.rest| < |s|
  {
    if s[0] == QUOTE then Quoted(s[1..]) else Unquoted(s)
  }

  lemma {:induction false} SkipShrinks(s: string)
    ensures |Trimmed(s)| <= |s|
    ensures Trimmed(s) != [] ==> !IsSpace(Trimmed(s)[0])
  {
    if s != [] && IsSpace(s[0]) { SkipShrinks(s[1..]); }
  }

  /** What stands before the value: the key, and the text after `=` and spaces; no text if none is left. */
  function KeyPart(s: string): Result<Piece> {
    var n := KeyLength(s);
    var equals := Trimmed(s[n..]);
    if equals == [] || equals[0] != '=' then Err else Ok(Piece(s[..n], Trimmed(equals[1..])))
  }

  lemma KeyPartShrinks(s: string)
    ensures KeyPart(s).Ok? ==> |KeyPart(s).value.rest| < |s|
  {
    var equals := Trimmed(s[KeyLength(s)..]);
    SkipShrinks(s[KeyLength(s)..]);
    if equals != [] { SkipShrinks(equals[1..]); }
  }

  /** The options in a text, on top of those given. */
  function Parsed(s: string, o: Options): Result<Options>
    decreases |s|
  {
    SkipShrinks(s);
    var s1 := Trimmed(s);
    if s1 == [] then Ok(o)
    else
      KeyPartShrinks(s1);
      match KeyPart(s1)
      case Err => Err
      case Ok(Piece(key, rest)) =>
        if rest == [] then Ok(o[key := ""])
        else
          match Value(rest)
          case Err => Err
          case Ok(Piece(value, after)) => Parsed(after, o[key := value])
  }

  // ----- The scanner -----------------------------------------------------------------

  class Scanner {
    const s: string
    var i: nat

    constructor (text: string)
      ensures s == text && i == 0 && Left() == text
    {
      s, i := text, 0;
    }

    /** What is left of the text. */
    ghost function Left(): string
      reads this`i
    {
      if i <= |s| then s[i..] else []
    }

    /** The character just read, if there was one, and what is left. */
    ghost function Pending(r: char, ok: bool): string
      reads this`i
    {
      if ok then [r] + Left() else []
    }

    method Next() returns (r: char, ok: bool)
      requires i <= |s|
      modifies this`i
      ensures i <= |s| && Pending(r, ok) == old(Left())
      ensures if ok then Pending(r, ok)[1..] == Left() else r == 0 as char && Left() == []
    {
      if i >= |s| { return 0 as char, false; }
      r := s[i];
      i := i + 1;
      return r, true;
    }

    /** The next character that is no space. */
    method SkipSpaces() returns (r: char, ok: bool)
      requires i <= |s|
      modifies this`i
      ensures i <= |s| && Pending(r, ok) == Trimmed(old(Left())) && (ok ==> !IsSpace(r))
      ensures if ok then Pending(r, ok)[1..] == Left() else r == 0 as char && Left() == []
    {
      ghost var start := Left();
      r, ok := Next();
      while IsSpace(r) && ok
        invariant i <= |s| && Trimmed(start) == Trimmed(Pending(r, ok))
        invariant if ok then Pending(r, ok)[1..] == Left() else r == 0 as char && Left() == []
        decreases |Pending(r, ok)|
      {
        r, ok := Next();
      }
    }

    /** The loop over the characters of a key. */
    method ReadKey(first: char) returns (key: string, r: char, ok: bool)
      requires i <= |s|
      modifies this`i
      ensures i <= |s| && (!ok ==> r == 0 as char && Left() == [])
      ensures var start := old(Pending(first, true));
        key == start[..KeyLength(start)] && Pending(r, ok) == start[KeyLength(start)..]
    {
      ghost var start := Pending(first, true);
      key, r, ok := [], first, true;
      assert start[1..] == Left();
      while ok && KeyChar(r)
        invariant i <= |s| && start == key + Pending(r, ok) && KeyLength(start) == |key| + KeyLength(Pending(r, ok))
        invariant if ok then Pending(r, ok)[1..] == Left() else r == 0 as char && Left() == []
        decreases |Pending(r, ok)|
      {
        Regroup(key, r, Left());
        key := key + [r];
        r, ok := Next();
      }
    }

    /** The loop over a value without quotes. */
    method ReadUnquoted(first: char) returns (good: bool, value: string)
      requires i <= |s|
      modifies this`i
      ensures i <= |s|
      ensures Unquoted(old(Pending(first, true))) == if good then Ok(Piece(value, Left())) else Err
    {
      ghost var start := Pending(first, true);
      var r, ok := first, true;
      value := [];
      PrefixedNothing(Unquoted(start));
      while ok && !IsSpace(r)
        invariant i <= |s|
        invariant !ok ==> Left() == []
        invariant Unquoted(start) == Prefixed(value, Unquoted(Pending(r, ok)))
        decreases |Pending(r, ok)|
      {
        ghost var before := Pending(r, ok);
        if r == BACKSLASH {
          r, ok := Next();
          if !ok { return false, value; }
          assert before[2..] == Left();
        } else {
          assert before[1..] == Left();
        }
        PrefixedNext(value, r, Unquoted(Left()));
        value := value + [r];
        r, ok := Next();
      }
      if ok { assert Pending(r, ok)[1..] == Left(); }
      assert value + [] == value;
      return true, value;
    }

    /** The loop over a value in quotes, after the first. */
    method ReadQuoted() returns (good: bool, value: string)
      requires i <= |s|
      modifies this`i
      ensures i <= |s|
      ensures Quoted(old(Left())) == if good then Ok(Piece(value, Left())) else Err
    {
      ghost var start := Left();
      value := [];
      PrefixedNothing(Quoted(start));
      while true
        invariant i <= |s|
        invariant Quoted(start) == Prefixed(value, Quoted(Left()))
        decreases |Left()|
      {
        ghost var before := Left();
        var r, ok := Next();
        if !ok { return false, value; }
        if r == QUOTE {
          assert value + [] == value;
          return true, value;
        }
        if r == BACKSLASH {
          r, ok := Next();
          if !ok { return false, value; }
          assert before[2..] == Left();
        } else {
          assert before[1..] == Left();
        }
        PrefixedNext(value, r, Quoted(Left()));
        value := value + [r];
      }
    }
  }

  lemma Regroup(a: string, c: char, b: string)
    ensures a + ([c] + b) == a + [c] + b
  {
  }

  function Prefixed(value: string, r: Result<Piece>): Result<Piece> {
    match r case Ok(p) => Ok(Piece(value + p.value, p.rest)) case Err => Err
  }

  lemma PrefixedNothing(r: Result<Piece>)
    ensures Prefixed([], r) == r
  {
    if r.Ok? { assert [] + r.value.value == r.value.value; }
  }

  lemma PrefixedNext(value: string, c: char, r: Result<Piece>)
    ensures Prefixed(value, Cons(c, r)) == Prefixed(value + [c], r)
  {
    if r.Ok? { assert value + ([c] + r.value.value) == value + [c] + r.value.value; }
  }

  /** Skip spaces unless at the equals sign already. */
  method ToEquals(sc: Scanner, first: char, wasOk: bool) returns (r: char, ok: bool)
    requires sc.i <= |sc.s| && (first == '=' || !KeyChar(first) || !wasOk) && (!wasOk ==> first == 0 as char && sc.Left() == [])
    modifies sc`i
    ensures sc.i <= |sc.s|
    ensures sc.Pending(r, ok) == Trimmed(old(sc.Pending(first, wasOk)))
  {
    r, ok := first, wasOk;
    ghost var s2 := sc.Pending(r, ok);
    if ok { assert s2[1..] == sc.Left(); }
    if r != '=' {
      r, ok := sc.SkipSpaces();
    }
  }

  /** From the first character of a key to the first of its value, if there is one. */
  method ReadKeyPart(sc: Scanner, first: char) returns (good: bool, key: string, r: char, ok: bool)
    requires sc.i <= |sc.s|
    modifies sc`i
    ensures sc.i <= |sc.s|
    ensures KeyPart(old(sc.Pending(first, true))) == if good then Ok(Piece(key, sc.Pending(r, ok))) else Err
  {
    ghost var s1 := sc.Pending(first, true);
    key, r, ok := sc.ReadKey(first);
    ghost var s2 := sc.Pending(r, ok);
    assert s2 == s1[KeyLength(s1)..];
    r, ok := ToEquals(sc, r, ok);
    good := r == '=' && ok;
    if good {
      assert Trimmed(s2)[1..] == sc.Left();
      r, ok := sc.SkipSpaces();
    }
  }

  method ReadValue(sc: Scanner, first: char) returns (good: bool, value: string)
    requires sc.i <= |sc.s|
    modifies sc`i
    ensures sc.i <= |sc.s|
    ensures Value(old(sc.Pending(first, true))) == if good then Ok(Piece(value, sc.Left())) else Err
  {
    if first != QUOTE {
      good, value := sc.ReadUnquoted(first);
    } else {
      assert sc.Pending(first, true)[1..] == sc.Left();
      good, value := sc.ReadQuoted();
    }
  }

  /** One turn of the loop in parseOpts; `more` unless the text is at its end. */
  method ParsePair(sc: Scanner, given: Options) returns (good: bool, more: bool, o: Options)
    requires sc.i <= |sc.s|
    modifies sc`i
    ensures sc.i <= |sc.s|
    ensures Parsed(old(sc.Left()), given) == if !good then Err else if more then Parsed(sc.Left(), o) else Ok(o)
    ensures more ==> |sc.Left()| < |old(sc.Left())|
  {
    o := given;
    ghost var start := sc.Left();
    SkipShrinks(start);
    var r, ok := sc.SkipSpaces();
    if !ok { return true, false, o; }
    ghost var s1 := sc.Pending(r, true);
    assert s1 == Trimmed(start);
    KeyPartShrinks(s1);
    var key: string;
    good, key, r, ok := ReadKeyPart(sc, r);
    if !good { return false, false, o; }
    if !ok { return true, false, o[key := ""]; }
    var value: string;
    good, value := ReadValue(sc, r);
    return good, good, if good then o[key := value] else o;
  }

  method ParseOpts(name: string, given: Options) returns (r: Result<Options>)
    ensures r == Parsed(name, given)
  {
    var sc := new Scanner(name);
    var o, more := given, true;
    while more
      invariant sc.i <= |sc.s|
      invariant Parsed(name, given) == if more then Parsed(sc.Left(), o) else Ok(o)
      decreases more, |sc.Left()|
    {
      var good: bool;
      good, more, o := ParsePair(sc, o);
      if !good { return Err; }
    }
    return Ok(o);
  }

  // ----- Rendering -------------------------------------------------------------------

  datatype Pair = Pair(key: string, value: string)

  /** The replacer in ParseURL. */
  function Escaped(v: string): string {
    if v == [] then [] else EscapedFirst(v[0]) + Escaped(v[1..])
  }

  function EscapedFirst(c: char): string {
    if c == ' ' || c == QUOTE || c == BACKSLASH then [BACKSLASH, c] else [c]
  }

  function Rendered(p: Pair): string {
    p.key + ['='] + Escaped(p.value)
  }

  /** Joined by single spaces. */
  function Joined(pairs: seq<Pair>): string {
    if pairs == [] then []
    else if |pairs| == 1 then Rendered(pairs[0])
    else Rendered(pairs[0]) + [' '] + Joined(pairs[1..])
  }

  predicate IsKey(key: string) {
    forall k :: 0 <= k < |key| ==> KeyChar(key[k])
  }

  predicate OnlyPlainSpace(v: string) {
    forall k :: 0 <= k < |v| ==> IsSpace(v[k]) ==> v[k] == ' '
  }

  /** A key that reads as a key, and a value whose only white space is the plain space. */
  predicate Clean(p: Pair) {
    IsKey(p.key) && OnlyPlainSpace(p.value) && |p.value| > 0
  }

  /** The text after one pair: nothing, or a space and more. */
  predicate Separated(rest: string) {
    rest != [] ==> rest[0] == ' '
  }

  function Beyond(rest: string): string {
    if rest == [] then [] else rest[1..]
  }

  lemma {:induction false} ValueReads(v: string, rest: string)
    requires Separated(rest) && OnlyPlainSpace(v)
    ensures Unquoted(Escaped(v) + rest) == Ok(Piece(v, Beyond(rest)))
  {
    var s := Escaped(v) + rest;
    if v == [] {
      assert s == rest;
    } else {
      ValueReads(v[1..], rest);
      var more := Escaped(v[1..]) + rest;
      assert v == [v[0]] + v[1..];
      FirstCharReads(v[0], more);
      assert s == EscapedFirst(v[0]) + more;
    }
  }

  lemma FirstCharReads(c: char, more: string)
    requires IsSpace(c) ==> c == ' '
    ensures Unquoted(EscapedFirst(c) + more) == Cons(c, Unquoted(more))
  {
    var s := EscapedFirst(c) + more;
    assert s[|EscapedFirst(c)|..] == more;
  }

  lemma {:induction false} KeyReads(key: string, rest: string)
    requires IsKey(key)
    ensures KeyLength(key + ['='] + rest) == |key|
  {
    if key != [] {
      KeyReads(key[1..], rest);
      assert (key + ['='] + rest)[1..] == key[1..] + ['='] + rest;
    }
  }

  lemma KeyPartReads(p: Pair, rest: string)
    requires Clean(p)
    ensures var s := Rendered(p) + rest;
      s != [] && Trimmed(s) == s && KeyPart(s) == Ok(Piece(p.key, Escaped(p.value) + rest))
    ensures var s := Escaped(p.value) + rest; s != [] && s[0] != QUOTE
  {
    var s, value := Rendered(p) + rest, Escaped(p.value) + rest;
    assert s == p.key + ['='] + value;
    KeyReads(p.key, value);
    assert s[|p.key|..] == ['='] + value && s[..|p.key|] == p.key && (['='] + value)[1..] == value;
    assert value[0] == (if p.value[0] == ' ' || p.value[0] == QUOTE || p.value[0] == BACKSLASH then BACKSLASH else p.value[0]);
    assert Trimmed(value) == value;
  }

  lemma PairReads(p: Pair, rest: string, o: Options)
    requires Clean(p) && Separated(rest)
    ensures Parsed(Rendered(p) + rest, o) == Parsed(Beyond(rest), o[p.key := p.value])
  {
    KeyPartReads(p, rest);
    ValueReads(p.value, rest);
  }

  function With(pairs: seq<Pair>, o: Options): Options {
    if pairs == [] then o else With(pairs[1..], o[pairs[0].key := pairs[0].value])
  }

  lemma {:induction false} JoinedReads(pairs: seq<Pair>, o: Options)
    requires forall p :: p in pairs ==> Clean(p)
    ensures Parsed(Joined(pairs), o) == Ok(With(pairs, o))
    decreases |pairs|
  {
    if pairs != [] {
      var next := o[pairs[0].key := pairs[0].value];
      JoinedReads(pairs[1..], next);
      if |pairs| == 1 {
        PairReads(pairs[0], [], o);
        assert Rendered(pairs[0]) + [] == Rendered(pairs[0]);
      } else {
        var rest := [' '] + Joined(pairs[1..]);
        PairReads(pairs[0], rest, o);
        Regroup(Rendered(pairs[0]), ' ', Joined(pairs[1..]));
        assert Beyond(rest) == Joined(pairs[1..]);
      }
    }
  }

  /** Every key has the value of its last pair. */
  lemma {:induction false} LastPairWins(pairs: seq<Pair>, o: Options, k: string)
    ensures k in With(pairs, o) <==> k in o || exists i :: 0 <= i < |pairs| && pairs[i].key == k
    ensures k in With(pairs, o) ==>
      || (k in o && With(pairs, o)[k] == o[k] && forall i :: 0 <= i < |pairs| ==> pairs[i].key != k)
      || exists i :: 0 <= i < |pairs| && pairs[i].key == k && With(pairs, o)[k] == pairs[i].value && LastOfKey(pairs, i)
    decreases |pairs|
  {
    if pairs != [] {
      var next := o[pairs[0].key := pairs[0].value];
      LastPairWins(pairs[1..], next, k);
      assert forall i :: 0 < i < |pairs| ==> pairs[i] == pairs[1..][i - 1];
      if i :| 0 <= i < |pairs[1..]| && pairs[1..][i].key == k && With(pairs, o)[k] == pairs[1..][i].value && LastOfKey(pairs[1..], i) {
        assert pairs[i + 1].key == k && LastOfKey(pairs, i + 1);
      } else if pairs[0].key == k {
        assert LastOfKey(pairs, 0);
      }
    }
  }

  ghost predicate LastOfKey(pairs: seq<Pair>, i: nat)
    requires i < |pairs|
  {
    forall j :: i < j < |pairs| ==> pairs[j].key != pairs[i].key
  }

  /** The order of strings. */
  predicate AtMost(a: string, b: string) {
    a == [] || (b != [] && (a[0] < b[0] || (a[0] == b[0] && AtMost(a[1..], b[1..]))))
  }

  lemma {:induction false} AtMostItself(a: string)
    ensures AtMost(a, a)
  {
    if a != [] { AtMostItself(a[1..]); }
  }

  /** The pairs as ParseURL joins them: those with a value, sorted by their texts. */
  ghost predicate IsSorted(parts: seq<Pair>, sorted: seq<Pair>) {
    && (forall p :: p in sorted <==> p in parts && p.value != [])
    && (forall i, j :: 0 <= i < j < |sorted| ==> AtMost(Rendered(sorted[i]), Rendered(sorted[j])))
  }

  /** The part that gives its key a value: of those with the key, the one whose text is the greatest. */
  ghost predicate Decides(parts: seq<Pair>, p: Pair) {
    p in parts && p.value != []
    && forall q :: q in parts && q.key == p.key && q.value != [] ==> AtMost(Rendered(q), Rendered(p))
  }

  /**
   The parts of a URL are read back from the text that ParseURL makes of them: every key of a part
   that is not empty, with the value of the part that decides, and no other key.
   */
  lemma RenderedUrlReads(parts: seq<Pair>, sorted: seq<Pair>)
    requires IsSorted(parts, sorted) && forall p :: p in sorted ==> Clean(p)
    ensures Parsed(Joined(sorted), map[]).Ok?
    ensures var o := Parsed(Joined(sorted), map[]).value;
      && (forall p :: p in parts && p.value != [] ==> p.key in o)
      && (forall k :: k in o ==> Decides(parts, Pair(k, o[k])))
  {
    JoinedReads(sorted, map[]);
    var o := With(sorted, map[]);
    forall p | p in parts && p.value != [] ensures p.key in o {
      assert p in sorted;
      var i :| 0 <= i < |sorted| && sorted[i] == p;
      LastPairWins(sorted, map[], sorted[i].key);
    }
    forall k | k in o ensures Decides(parts, Pair(k, o[k])) {
      LastPairWins(sorted, map[], k);
      var i :| 0 <= i < |sorted| && sorted[i].key == k && o[k] == sorted[i].value && LastOfKey(sorted, i);
      LastDecides(parts, sorted, i);
      assert sorted[i] == Pair(k, o[k]);
    }
  }

  lemma LastDecides(parts: seq<Pair>, sorted: seq<Pair>, i: nat)
    requires IsSorted(parts, sorted) && i < |sorted| && LastOfKey(sorted, i)
    ensures Decides(parts, sorted[i])
  {
    assert sorted[i] in sorted;
    forall q | q in parts && q.key == sorted[i].key && q.value != [] ensures AtMost(Rendered(q), Rendered(sorted[i])) {
      assert q in sorted;
      var j :| 0 <= j < |sorted| && sorted[j] == q;
      AtMostItself(Rendered(q));
    }
  }

  /** With one part for each key, every part is read back exactly. */
  lemma DistinctPartsRead(parts: seq<Pair>, sorted: seq<Pair>)
    requires IsSorted(parts, sorted) && forall p :: p in sorted ==> Clean(p)
    requires forall p, q :: p in parts && q in parts && p.key == q.key ==> p == q
    ensures Parsed(Joined(sorted), map[]).Ok?
    ensures var o := Parsed(Joined(sorted), map[]).value;
      forall p :: p in parts && p.value != [] ==> p.key in o && o[p.key] == p.value
  {
    RenderedUrlReads(parts, sorted);
    var o := Parsed(Joined(sorted), map[]).value;
    forall p | p in parts && p.value != [] ensures o[p.key] == p.value {
      assert Decides(parts, Pair(p.key, o[p.key]));
    }
  }

  /** The order of the texts, as sort.Strings has it, is a total order. */
  lemma {:induction false} AtMostIsOrder(a: string, b: string)
    ensures AtMost(a, b) || AtMost(b, a)
    ensures AtMost(a, b) && AtMost(b, a) ==> a == b
  {
    if a != [] && b != [] {
      AtMostIsOrder(a[1..], b[1..]);
      assert a == [a[0]] + a[1..] && b == [b[0]] + b[1..];
    }
  }

  lemma {:induction false} AtMostIsTransitive(a: string, b: string, c: string)
    requires AtMost(a, b) && AtMost(b, c)
    ensures AtMost(a, c)
  {
    if a != [] && a[0] == b[0] && b[0] == c[0] { AtMostIsTransitive(a[1..], b[1..], c[1..]); }
  }

  /** A prefix comes first, and then the first difference decides. */
  lemma {:induction false} FirstDifferenceDecides(front: string, a: string, b: string)
    ensures AtMost(front, front + a)
    ensures a != [] && b != [] && a[0] < b[0] ==> AtMost(front + a, front + b) && !AtMost(front + b, front + a)
  {
    if front != [] {
      FirstDifferenceDecides(front[1..], a, b);
      assert (front + a)[1..] == front[1..] + a && (front + b)[1..] == front[1..] + b;
    } else {
      assert front + a == a && front + b == b;
    }
  }

  /** The text  a = 'i\'s' b=\ c  has two options: a quote ends a value, and a backslash takes what follows it as it is. */
  lemma KnownText(s: string, value: string, after: string, last: string)
    requires s == "a = " + value && value == "'" + ("i\\'s'" + after) && after == " b=" + last && last == "\\ c"
    ensures Parsed(s, map[]) == Ok(map["a" := "i's", "b" := " c"])
  {
    KnownFirst(s, value);
    KnownQuoted(value[1..], after);
    KnownSecond(after, last);
    KnownUnquoted(last);
    assert Parsed(after, map["a" := "i's"]) == Parsed([], map["a" := "i's"]["b" := " c"]);
    assert Parsed([], map["a" := "i's"]["b" := " c"]) == Ok(map["a" := "i's", "b" := " c"]);
  }

  lemma KnownFirst(s: string, rest: string)
    requires s == "a = " + rest && rest != [] && !IsSpace(rest[0])
    ensures Trimmed(s) == s && KeyPart(s) == Ok(Piece("a", rest))
  {
    assert s[1..] == " = " + rest && s[..1] == "a" && KeyLength(s[1..]) == 0;
    assert s[1..][1..] == "= " + rest && ("= " + rest)[1..] == " " + rest && (" " + rest)[1..] == rest;
    assert Trimmed(rest) == rest && Trimmed(" " + rest) == rest;
    assert Trimmed("= " + rest) == "= " + rest && Trimmed(s[1..]) == "= " + rest;
  }

  lemma KnownQuoted(s: string, rest: string)
    requires s == "i\\'s'" + rest
    ensures Quoted(s) == Ok(Piece("i's", rest))
  {
    assert s[1..] == "\\'s'" + rest && s[1..][2..] == "s'" + rest && ("s'" + rest)[1..] == "'" + rest && ("'" + rest)[1..] == rest;
    assert Quoted("'" + rest) == Ok(Piece([], rest));
    assert ['s'] + [] == ['s'];
    assert Quoted("s'" + rest) == Ok(Piece(['s'], rest));
    assert Quoted(s[1..]) == Ok(Piece(['\''] + ['s'], rest));
    assert ['i'] + (['\''] + ['s']) == "i's";
  }

  lemma KnownSecond(s: string, rest: string)
    requires s == " b=" + rest && rest != [] && !IsSpace(rest[0])
    ensures Trimmed(s) == s[1..] && KeyPart(s[1..]) == Ok(Piece("b", rest))
  {
    assert s[1..] == "b=" + rest && s[1..][1..] == "=" + rest && s[1..][..1] == "b" && ("=" + rest)[1..] == rest;
    assert KeyLength("=" + rest) == 0;
  }

  lemma KnownUnquoted(s: string)
    requires s == "\\ c"
    ensures Unquoted(s) == Ok(Piece(" c", []))
  {
    assert s[2..] == "c" && "c"[1..] == "";
    assert ['c'] + [] == ['c'] && Unquoted([]) == Ok(Piece([], []));
    assert Unquoted("c") == Ok(Piece(['c'], []));
    assert [' '] + ['c'] == " c";
  }
}
