/**
 Exactly which parts of a URL are read back from the connection string that ParseURL makes of it.

 ParseURL escapes values but not keys, and only plain spaces, quotes and backslashes.  White space of
 another kind cuts a value short, and what follows it is read as more pairs, or makes the whole text
 unreadable; a key that starts with a quote may then even open a quoted value that runs over other
 parts.  Still no part that is not clean comes back by accident.
 */
module UrlParts {
  import opened Basics
  import opened ConnInfo

  // ----- Places in the text ----------------------------------------------------------

  /** A place in a value or in a key, by what is left of it, and the parts that follow. */
  datatype Spot = InValue(v: string, rest: seq<Pair>) | InKey(k: string, v: string, rest: seq<Pair>)

  function TextAt(spot: Spot): string
    decreases |spot.rest|, spot.InKey?
  {
    match spot
    case InValue(v, rest) => Escaped(v) + if rest == [] then [] else [' '] + TextAt(Opened(rest))
    case InKey(k, v, rest) => k + ['='] + TextAt(InValue(v, rest))
  }

  /** The start of the first of several parts. */
  function Opened(parts: seq<Pair>): Spot
    requires parts != []
  {
    InKey(parts[0].key, parts[0].value, parts[1..])
  }

  lemma ValueStep(v: string, rest: seq<Pair>)
    requires v != []
    ensures TextAt(InValue(v, rest)) == EscapedFirst(v[0]) + TextAt(InValue(v[1..], rest))
  {
    Associate(EscapedFirst(v[0]), Escaped(v[1..]), if rest == [] then [] else [' '] + TextAt(Opened(rest)));
  }

  lemma KeyStep(k: string, v: string, rest: seq<Pair>)
    requires k != []
    ensures TextAt(InKey(k, v, rest)) == [k[0]] + TextAt(InKey(k[1..], v, rest))
  {
    assert k == [k[0]] + k[1..];
    Associate([k[0]], k[1..], ['=']);
    Associate([k[0]], k[1..] + ['='], TextAt(InValue(v, rest)));
  }

  lemma Associate(a: string, b: string, c: string)
    ensures a + b + c == a + (b + c)
  {
  }

  /** The text of a place without what is left of its key or value. */
  lemma Ended(v: string, rest: seq<Pair>)
    ensures TextAt(InValue([], rest)) == if rest == [] then [] else [' '] + TextAt(Opened(rest))
    ensures TextAt(InKey([], v, rest)) == ['='] + TextAt(InValue(v, rest))
  {
    assert [] + ['='] + TextAt(InValue(v, rest)) == ['='] + TextAt(InValue(v, rest));
  }

  lemma {:induction false} JoinedIs(parts: seq<Pair>)
    requires parts != []
    ensures Joined(parts) == TextAt(Opened(parts))
  {
    var p := parts[0];
    if |parts| == 1 {
      assert Escaped(p.value) + [] == Escaped(p.value);
    } else {
      JoinedIs(parts[1..]);
      Associate(p.key + ['='], Escaped(p.value), [' ']);
      Associate(p.key + ['='], Escaped(p.value) + [' '], Joined(parts[1..]));
      Associate(Escaped(p.value), [' '], Joined(parts[1..]));
    }
  }

  ghost predicate AllKeys(parts: seq<Pair>) {
    forall i :: 0 <= i < |parts| ==> IsKey(parts[i].key)
  }

  ghost predicate KeysAt(spot: Spot) {
    AllKeys(spot.rest) && (spot.InKey? ==> IsKey(spot.k))
  }

  // ----- Quotes in keys --------------------------------------------------------------

  /** A quote that no backslash takes away. */
  predicate HasBare(k: string) {
    if k == [] then false
    else if k[0] == BACKSLASH then |k| >= 2 && HasBare(k[2..])
    else k[0] == QUOTE || HasBare(k[1..])
  }

  function Weight(k: string): nat {
    if HasBare(k) then |k| else 0
  }

  function TotalOf(keys: seq<string>): nat {
    if keys == [] then 0 else Weight(keys[0]) + TotalOf(keys[1..])
  }

  function Total(parts: seq<Pair>): nat {
    if parts == [] then 0 else Weight(parts[0].key) + Total(parts[1..])
  }

  /** The length of the keys with bare quotes that can still be read from here. */
  function Left(spot: Spot): nat {
    Total(spot.rest) + if spot.InKey? then Weight(spot.k) else 0
  }

  // ----- One pair at a time ----------------------------------------------------------

  predicate IsOther(c: char) {
    IsSpace(c) && c != ' '
  }

  function Trim(spot: Spot): Spot
    decreases if spot.InValue? then |spot.v| else 0
  {
    match spot
    case InKey(_, _, _) => spot
    case InValue(v, rest) =>
      if v == [] then (if rest == [] then spot else Opened(rest))
      else if IsOther(v[0]) then Trim(InValue(v[1..], rest))
      else spot
  }

  lemma KeyIsTrimmed(k: string, v: string, rest: seq<Pair>)
    requires IsKey(k)
    ensures Trimmed(TextAt(InKey(k, v, rest))) == TextAt(InKey(k, v, rest))
  {
    if k == [] { Ended(v, rest); } else { KeyStep(k, v, rest); }
  }

  lemma TrimEnd(rest: seq<Pair>)
    requires AllKeys(rest)
    ensures Trimmed(TextAt(InValue([], rest))) == TextAt(Trim(InValue([], rest)))
    ensures |TextAt(Trim(InValue([], rest)))| <= |TextAt(InValue([], rest))|
  {
    Ended([], rest);
    if rest != [] {
      KeyIsTrimmed(rest[0].key, rest[0].value, rest[1..]);
      assert TextAt(InValue([], rest))[1..] == TextAt(Opened(rest));
    }
  }

  lemma {:induction false} TrimIs(spot: Spot)
    requires KeysAt(spot)
    ensures Trimmed(TextAt(spot)) == TextAt(Trim(spot)) && KeysAt(Trim(spot)) && Left(Trim(spot)) == Left(spot)
    ensures |TextAt(Trim(spot))| <= |TextAt(spot)|
    decreases if spot.InValue? then |spot.v| else 0
  {
    match spot
    case InKey(k, v, rest) => KeyIsTrimmed(k, v, rest);
    case InValue(v, rest) =>
      if v == [] {
        TrimEnd(rest);
      } else {
        var next := InValue(v[1..], rest);
        ValueStep(v, rest);
        if IsOther(v[0]) {
          TrimIs(next);
          assert TextAt(spot)[1..] == TextAt(next);
        }
      }
  }

  /** Reading a key inside a value: it has no bare quote, and where it stops. */
  lemma {:induction false} KeyStops(v: string, rest: seq<Pair>) returns (stop: Spot)
    ensures stop.InValue? && stop.rest == rest && |TextAt(stop)| <= |TextAt(InValue(v, rest))|
    ensures var s := TextAt(InValue(v, rest));
      !HasBare(s[..KeyLength(s)]) && Trimmed(s[KeyLength(s)..]) == Trimmed(TextAt(stop))
  {
    stop := InValue(v, rest);
    if v == [] {
      Ended(v, rest);
    } else {
      ValueStep(v, rest);
      var more := TextAt(InValue(v[1..], rest));
      if v[0] == ' ' {
        stop := InValue(v[1..], rest);
        KeyStopsAtSpace(more);
      } else if KeyChar(v[0]) {
        stop := KeyStops(v[1..], rest);
        KeyGoesOn(EscapedFirst(v[0]), more);
      }
    }
  }

  lemma KeyStopsAtSpace(more: string)
    ensures var s := [BACKSLASH, ' '] + more;
      KeyLength(s) == 1 && !HasBare(s[..1]) && Trimmed(s[1..]) == Trimmed(more)
  {
    var s := [BACKSLASH, ' '] + more;
    assert s[1..] == [' '] + more && ([' '] + more)[1..] == more;
    assert KeyLength(s[1..]) == 0 && s[..1] == [BACKSLASH];
  }

  lemma KeyGoesOn(first: string, more: string)
    requires exists c :: KeyChar(c) && first == EscapedFirst(c)
    ensures var s := first + more; var n := KeyLength(more);
      KeyLength(s) == |first| + n && s[KeyLength(s)..] == more[n..] && (HasBare(s[..KeyLength(s)]) <==> HasBare(more[..n]))
  {
    var s, n := first + more, KeyLength(more);
    if |first| == 2 { assert s[1..] == [first[1]] + more && ([first[1]] + more)[1..] == more; } else { assert s[1..] == more; }
    assert KeyLength(s) == |first| + n;
    assert s[..|first| + n][|first|..] == more[..n];
  }

  /** A pair's key and its equals sign: no key with a bare quote is read but what was there. */
  lemma KeyAt(spot: Spot) returns (next: Spot)
    requires KeysAt(spot) && KeyPart(TextAt(spot)).Ok?
    ensures next.InValue? && KeysAt(next) && |TextAt(next)| < |TextAt(spot)|
    ensures KeyPart(TextAt(spot)).value.rest == Trimmed(TextAt(next))
    ensures Weight(KeyPart(TextAt(spot)).value.value) + Left(next) <= Left(spot)
  {
    var s := TextAt(spot);
    match spot
    case InKey(k, v, rest) =>
      next := InValue(v, rest);
      KeyReads(k, TextAt(next));
      assert s[|k|..] == ['='] + TextAt(next) && s[..|k|] == k && (['='] + TextAt(next))[1..] == TextAt(next);
    case InValue(v, rest) =>
      var stop := KeyStops(v, rest);
      TrimIs(stop);
      next := AfterEquals(Trim(stop));
  }

  lemma AfterEquals(spot: Spot) returns (next: Spot)
    requires KeysAt(spot) && TextAt(spot) != [] && TextAt(spot)[0] == '='
    ensures next.InValue? && KeysAt(next) && TextAt(spot)[1..] == TextAt(next) && Left(next) <= Left(spot)
  {
    match spot
    case InKey(k, v, rest) =>
      if k != [] { KeyStep(k, v, rest); }
      Ended(v, rest);
      next := InValue(v, rest);
    case InValue(v, rest) =>
      if v == [] { Ended(v, rest); } else { ValueStep(v, rest); }
      next := InValue(v[1..], rest);
  }

  /** A backslash in a key takes the next character, be it the equals sign. */
  lemma Escapes(k: string, v: string, rest: seq<Pair>) returns (next: Spot)
    requires IsKey(k) && AllKeys(rest) && k != [] && k[0] == BACKSLASH
    ensures KeysAt(next) && Left(next) <= Left(InKey(k, v, rest))
    ensures var s := TextAt(InKey(k, v, rest)); |s| >= 2 && !IsSpace(s[1]) && s[2..] == TextAt(next)
  {
    var s := TextAt(InKey(k, v, rest));
    KeyStep(k, v, rest);
    if |k| == 1 {
      Ended(v, rest);
      next := InValue(v, rest);
    } else {
      KeyStep(k[1..], v, rest);
      assert k[1..][1..] == k[2..];
      next := InKey(k[2..], v, rest);
    }
  }

  /** One character of a value without quotes, or its end. */
  lemma UnquotedStep(spot: Spot) returns (ends: bool, c: char, next: Spot)
    requires KeysAt(spot) && TextAt(spot) != []
    ensures KeysAt(next) && |TextAt(next)| < |TextAt(spot)| && Left(next) <= Left(spot) && !IsOther(c)
    ensures ends ==> Unquoted(TextAt(spot)) == Ok(Piece([], TextAt(next)))
    ensures !ends ==> Unquoted(TextAt(spot)) == Cons(c, Unquoted(TextAt(next)))
  {
    var s := TextAt(spot);
    ends, c := false, ' ';
    match spot
    case InKey(k, v, rest) =>
      if k == [] {
        Ended(v, rest);
        c, next := '=', InValue(v, rest);
        assert s[1..] == TextAt(next);
      } else {
        KeyStep(k, v, rest);
        c, next := k[0], InKey(k[1..], v, rest);
        assert s[1..] == TextAt(next);
        if k[0] == BACKSLASH {
          next := Escapes(k, v, rest);
          c := s[1];
        }
      }
    case InValue(v, rest) =>
      if v == [] {
        Ended(v, rest);
        ends, next := true, Opened(rest);
        assert s[1..] == TextAt(next);
      } else {
        ValueStep(v, rest);
        next := InValue(v[1..], rest);
        assert s[|EscapedFirst(v[0])|..] == TextAt(next);
        if IsOther(v[0]) { ends := true; } else { c := v[0]; }
      }
  }

  /** A value without quotes, over as many parts as it takes: its only white space is the plain space. */
  lemma {:induction false} UnquotedAt(spot: Spot) returns (end: Spot)
    requires KeysAt(spot) && Unquoted(TextAt(spot)).Ok?
    ensures KeysAt(end) && Unquoted(TextAt(spot)).value.rest == TextAt(end) && Left(end) <= Left(spot)
    ensures OnlyPlainSpace(Unquoted(TextAt(spot)).value.value)
    decreases |TextAt(spot)|
  {
    end := spot;
    if TextAt(spot) != [] {
      var ends, c, next := UnquotedStep(spot);
      end := next;
      if !ends { end := UnquotedAt(next); }
    }
  }

  /** A quoted value ends at a bare quote, inside a key: less of that key is left than there was. */
  lemma {:induction false} QuotedAt(spot: Spot) returns (end: Spot)
    requires KeysAt(spot) && Quoted(TextAt(spot)).Ok?
    ensures KeysAt(end) && Quoted(TextAt(spot)).value.rest == TextAt(end) && Left(end) < Left(spot)
    decreases |TextAt(spot)|
  {
    var s := TextAt(spot);
    match spot
    case InKey(k, v, rest) =>
      if k == [] {
        Ended(v, rest);
        assert s[1..] == TextAt(InValue(v, rest));
        end := QuotedAt(InValue(v, rest));
      } else {
        KeyStep(k, v, rest);
        var next := InKey(k[1..], v, rest);
        assert s[1..] == TextAt(next);
        if k[0] == QUOTE {
          end := next;
        } else if k[0] != BACKSLASH {
          end := QuotedAt(next);
        } else {
          var after := Escapes(k, v, rest);
          end := QuotedAt(after);
        }
      }
    case InValue(v, rest) =>
      if v == [] {
        Ended(v, rest);
        assert rest != [] && s[1..] == TextAt(Opened(rest));
        end := QuotedAt(Opened(rest));
      } else {
        ValueStep(v, rest);
        var next := InValue(v[1..], rest);
        assert s[|EscapedFirst(v[0])|..] == TextAt(next);
        end := QuotedAt(next);
      }
  }

  /** A value of either kind; only an unquoted one leaves all keys with bare quotes. */
  lemma ValueAt(spot: Spot) returns (end: Spot)
    requires KeysAt(spot) && TextAt(spot) != [] && Value(TextAt(spot)).Ok?
    ensures KeysAt(end) && Value(TextAt(spot)).value.rest == TextAt(end) && Left(end) <= Left(spot)
    ensures Left(end) == Left(spot) ==> OnlyPlainSpace(Value(TextAt(spot)).value.value)
  {
    var s := TextAt(spot);
    if s[0] == QUOTE {
      var next := StartsKey(spot);
      end := QuotedAt(next);
    } else {
      end := UnquotedAt(spot);
    }
  }

  lemma StartsKey(spot: Spot) returns (next: Spot)
    requires KeysAt(spot) && TextAt(spot) != [] && TextAt(spot)[0] == QUOTE
    ensures KeysAt(next) && TextAt(spot)[1..] == TextAt(next) && Left(next) < Left(spot)
  {
    match spot
    case InKey(k, v, rest) =>
      if k == [] { Ended(v, rest); } else { KeyStep(k, v, rest); }
      next := InKey(k[1..], v, rest);
    case InValue(v, rest) =>
      if v == [] { Ended(v, rest); } else { ValueStep(v, rest); }
      assert false;
  }

  // ----- The whole text --------------------------------------------------------------

  ghost predicate PlainValues(o: Options) {
    forall k :: k in o ==> OnlyPlainSpace(o[k])
  }

  /** A pair's value, and what follows it. */
  function ValueOf(piece: Piece): Result<Piece> {
    if piece.rest == [] then Ok(Piece([], [])) else Value(piece.rest)
  }

  lemma ParsedPair(s: string, o: Options)
    requires s != [] && Trimmed(s) == s && Parsed(s, o).Ok?
    ensures KeyPart(s).Ok? && ValueOf(KeyPart(s).value).Ok?
  {
    KeyPartShrinks(s);
  }

  lemma ParsedGoesOn(s: string, o: Options, key: string, value: string, after: string)
    requires s != [] && Trimmed(s) == s && Parsed(s, o).Ok? && KeyPart(s).Ok? && KeyPart(s).value.value == key
    requires ValueOf(KeyPart(s).value) == Ok(Piece(value, after))
    ensures Parsed(s, o) == Parsed(after, o[key := value])
  {
    KeyPartShrinks(s);
  }

  /** Where a pair ends, given that its value is read. */
  lemma PairEnds(spot: Spot, key: string, value: string, after: string) returns (next: Spot)
    requires KeysAt(spot) && KeyPart(TextAt(spot)).Ok? && KeyPart(TextAt(spot)).value.value == key
    requires ValueOf(KeyPart(TextAt(spot)).value) == Ok(Piece(value, after))
    ensures KeysAt(next) && |TextAt(next)| < |TextAt(spot)| && TextAt(next) == after
    ensures Weight(key) + Left(next) <= Left(spot)
    ensures Weight(key) + Left(next) == Left(spot) ==> OnlyPlainSpace(value)
  {
    var start := KeyAt(spot);
    TrimIs(start);
    if KeyPart(TextAt(spot)).value.rest == [] {
      next := InValue([], []);
    } else {
      next := ValueAt(Trim(start));
    }
  }

  /** One pair of the text, and what is read from where it ends. */
  lemma PairAt(spot: Spot, o: Options) returns (key: string, next: Spot, more: Options)
    requires KeysAt(spot) && TextAt(spot) != [] && Trimmed(TextAt(spot)) == TextAt(spot) && Parsed(TextAt(spot), o).Ok?
    ensures KeysAt(next) && |TextAt(next)| < |TextAt(spot)| && Parsed(TextAt(next), more) == Parsed(TextAt(spot), o)
    ensures Weight(key) + Left(next) <= Left(spot) && more.Keys == o.Keys + {key}
    ensures Weight(key) + Left(next) == Left(spot) && PlainValues(o) ==> PlainValues(more)
  {
    var s := TextAt(spot);
    ParsedPair(s, o);
    key := KeyPart(s).value.value;
    var Piece(value, after) := ValueOf(KeyPart(s).value).value;
    next := PairEnds(spot, key, value, after);
    more := o[key := value];
    ParsedGoesOn(s, o, key, value, after);
  }

  lemma ParsedTrimmed(s: string, o: Options)
    ensures Parsed(Trimmed(s), o) == Parsed(s, o) && Trimmed(Trimmed(s)) == Trimmed(s)
    ensures Trimmed(s) == [] ==> Parsed(s, o) == Ok(o)
  {
    SkipShrinks(s);
    assert Trimmed(Trimmed(s)) == Trimmed(s);
  }

  /**
   The keys that are read have no more bare quotes, by length, than the keys that were written, and
   less if a quoted value was read; without one every value is plain.
   */
  lemma {:induction false} TextReads(spot: Spot, o: Options) returns (keys: seq<string>)
    requires KeysAt(spot) && Parsed(TextAt(spot), o).Ok?
    ensures forall k :: k in Parsed(TextAt(spot), o).value ==> k in o || k in keys
    ensures TotalOf(keys) <= Left(spot)
    ensures TotalOf(keys) == Left(spot) && PlainValues(o) ==> PlainValues(Parsed(TextAt(spot), o).value)
    decreases |TextAt(spot)|
  {
    TrimIs(spot);
    ParsedTrimmed(TextAt(spot), o);
    keys := [];
    if TextAt(Trim(spot)) != [] {
      var key, next, more := PairAt(Trim(spot), o);
      var tail := TextReads(next, more);
      keys := [key] + tail;
      assert keys[1..] == tail && key in keys;
    }
  }

  // ----- Which parts are read back ---------------------------------------------------

  ghost predicate DistinctKeys(parts: seq<Pair>) {
    forall i, j :: 0 <= i < j < |parts| ==> parts[i].key != parts[j].key
  }

  lemma {:induction false} TotalWithout(keys: seq<string>, i: nat)
    requires i < |keys|
    ensures TotalOf(keys) == Weight(keys[i]) + TotalOf(keys[..i] + keys[i + 1..])
  {
    if i == 0 {
      assert [] + keys[1..] == keys[1..];
    } else {
      TotalWithout(keys[1..], i - 1);
      var fewer := keys[..i] + keys[i + 1..];
      assert fewer[0] == keys[0] && fewer[1..] == keys[1..][..i - 1] + keys[1..][i..];
    }
  }

  /** Keys that are all read weigh no more than what is read. */
  lemma {:induction false} TotalAtMost(parts: seq<Pair>, keys: seq<string>)
    requires DistinctKeys(parts) && forall i :: 0 <= i < |parts| ==> parts[i].key in keys
    ensures Total(parts) <= TotalOf(keys)
  {
    if parts != [] {
      var i :| 0 <= i < |keys| && keys[i] == parts[0].key;
      var fewer := keys[..i] + keys[i + 1..];
      TotalWithout(keys, i);
      forall j | 0 <= j < |parts[1..]| ensures parts[1..][j].key in fewer {
        assert parts[1..][j] == parts[j + 1] && parts[j + 1].key in keys;
        var m :| 0 <= m < |keys| && keys[m] == parts[j + 1].key;
        assert fewer[if m < i then m else m - 1] == keys[m];
      }
      TotalAtMost(parts[1..], fewer);
    }
  }

  lemma {:induction false} KeyLengthIsKey(s: string)
    ensures IsKey(s[..KeyLength(s)])
  {
    if s != [] && KeyChar(s[0]) {
      KeyLengthIsKey(s[1..]);
      assert s[..KeyLength(s)] == [s[0]] + s[1..][..KeyLength(s[1..])];
    }
  }

  /** Only keys are read as keys. */
  lemma {:induction false} KeysAreKeys(s: string, o: Options, k: string)
    requires Parsed(s, o).Ok? && k in Parsed(s, o).value && k !in o
    ensures IsKey(k)
    decreases |s|
  {
    SkipShrinks(s);
    var s1 := Trimmed(s);
    KeyPartShrinks(s1);
    KeyLengthIsKey(s1);
    var key, rest := KeyPart(s1).value.value, KeyPart(s1).value.rest;
    if rest != [] && k != key { KeysAreKeys(Value(rest).value.rest, o[key := Value(rest).value.value], k); }
  }

  /** Every part comes back under its key. */
  ghost predicate ReadBack(parts: seq<Pair>) {
    && Parsed(Joined(parts), map[]).Ok?
    && forall i :: 0 <= i < |parts| ==>
      parts[i].key in Parsed(Joined(parts), map[]).value && Parsed(Joined(parts), map[]).value[parts[i].key] == parts[i].value
  }

  lemma CleanIfReadBack(parts: seq<Pair>)
    requires DistinctKeys(parts) && ReadBack(parts) && parts != []
    ensures forall i :: 0 <= i < |parts| ==> IsKey(parts[i].key) && OnlyPlainSpace(parts[i].value)
  {
    var o := Parsed(Joined(parts), map[]).value;
    forall i | 0 <= i < |parts| ensures IsKey(parts[i].key) { KeysAreKeys(Joined(parts), map[], parts[i].key); }
    JoinedIs(parts);
    var keys := TextReads(Opened(parts), map[]);
    TotalAtMost(parts, keys);
    assert PlainValues(o);
  }

  /** With one part for each key: all parts of a URL are read back if and only if all of them are clean. */
  lemma UrlReadsIff(parts: seq<Pair>)
    requires DistinctKeys(parts) && forall i :: 0 <= i < |parts| ==> parts[i].value != []
    ensures ReadBack(parts) <==> forall i :: 0 <= i < |parts| ==> Clean(parts[i])
  {
    if forall i :: 0 <= i < |parts| ==> Clean(parts[i]) {
      JoinedReads(parts, map[]);
      forall i | 0 <= i < |parts| ensures parts[i].key in With(parts, map[]) && With(parts, map[])[parts[i].key] == parts[i].value {
        LastPairWins(parts, map[], parts[i].key);
      }
    }
    if ReadBack(parts) && parts != [] { CleanIfReadBack(parts); }
  }

  /** One part alone. */
  lemma PairReadsIff(p: Pair)
    requires p.value != []
    ensures Parsed(Rendered(p), map[]) == Ok(map[p.key := p.value]) <==> Clean(p)
  {
    UrlReadsIff([p]);
    if Clean(p) { JoinedReads([p], map[]); }
  }

  predicate Ordinary(c: char) {
    KeyChar(c) && c != QUOTE && c != BACKSLASH
  }

  /** A part that is not clean can take a clean one with it: with a value like "x\ty" nothing at all is read. */
  lemma DirtyPartLosesOthers(key: string, x: char, c: char, y: char, other: Pair)
    requires IsKey(key) && Ordinary(x) && IsOther(c) && Ordinary(y) && Clean(other) && other.key != []
    ensures Parsed(Joined([Pair(key, [x, c, y]), other]), map[]) == Err
  {
    var parts, rest := [Pair(key, [x, c, y]), other], [other];
    assert parts[1..] == rest && rest[1..] == [];
    JoinedIs(parts);
    ThreeChars(x, c, y, rest);
    var more := TextAt(Opened(rest));
    CutShort(key, x, c, [y] + ([' '] + more));
    NoEquals(y, other, []);
  }

  lemma ThreeChars(x: char, c: char, y: char, rest: seq<Pair>)
    requires Ordinary(x) && IsOther(c) && Ordinary(y) && rest != []
    ensures TextAt(InValue([x, c, y], rest)) == [x] + ([c] + ([y] + ([' '] + TextAt(Opened(rest)))))
  {
    assert [x, c, y][1..] == [c, y] && [c, y][1..] == [y] && [y][1..] == [];
    ValueStep([x, c, y], rest);
    ValueStep([c, y], rest);
    ValueStep([y], rest);
    Ended([], rest);
  }

  lemma CutShort(key: string, x: char, c: char, rest: string)
    requires IsKey(key) && Ordinary(x) && IsOther(c)
    ensures Parsed(key + ['='] + ([x] + ([c] + rest)), map[]) == Parsed(rest, map[key := [x]])
  {
    var value := [x] + ([c] + rest);
    var s := key + ['='] + value;
    KeyReads(key, value);
    assert s[|key|..] == ['='] + value && s[..|key|] == key && (['='] + value)[1..] == value;
    assert Trimmed(s) == s && Trimmed(value) == value;
    assert value[1..] == [c] + rest && ([c] + rest)[1..] == rest;
    assert Unquoted([c] + rest) == Ok(Piece([], rest)) && [x] + [] == [x];
    assert Unquoted(value) == Ok(Piece([x], rest));
  }

  lemma NoEquals(y: char, other: Pair, rest: seq<Pair>)
    requires Ordinary(y) && IsKey(other.key) && other.key != []
    ensures var s := [y] + ([' '] + TextAt(InKey(other.key, other.value, rest)));
      forall o :: Parsed(s, o) == Err
  {
    var more := TextAt(InKey(other.key, other.value, rest));
    var s := [y] + ([' '] + more);
    KeyStep(other.key, other.value, rest);
    assert s[1..] == [' '] + more && ([' '] + more)[1..] == more;
    assert KeyLength(s) == 1;
    assert Trimmed(more) == more && Trimmed([' '] + more) == more;
    assert KeyPart(s) == Err;
  }
}
