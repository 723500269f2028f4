/**
 Tokens with their decoded contents: what `Token` returns and what `String` writes.  Names and keys
 are lower-cased, line ends converted, and references replaced, but only text and attribute values
 are escaped again, so comments and doctypes come back only if they hold nothing to decode.
 */
module TokenValues {
  import Escape
  import opened HtmlText
  import opened TokenStrings

  /** A token with its type, data and attributes. */
  datatype Value = Value(tt: TokenType, data: Text, attrs: seq<Pair>)

  // ----- Token -----------------------------------------------------------------------

  /** bytes.Replace of NUL by U+FFFD */
  function NulReplaced(s: Text): Text {
    if s == [] then [] else (if s[0] == 0 then [0xEF, 0xBF, 0xBD] else [s[0]]) + NulReplaced(s[1..])
  }

  /** `Text`, of a token that is not raw text. */
  function TextOf(tables: Escape.Tables, s: Text, comment: bool): Text {
    var lines := Escape.Newlines(s);
    Escape.Unescaped(tables, if comment then NulReplaced(lines) else lines, false)
  }

  /** `TagAttr` */
  function AttributeOf(tables: Escape.Tables, pair: Pair): Pair {
    (Lowered(pair.0), Escape.Unescaped(tables, Escape.Newlines(pair.1), true))
  }

  function AttributesOf(tables: Escape.Tables, pairs: seq<Pair>): (r: seq<Pair>)
    ensures |r| == |pairs|
  {
    if pairs == [] then [] else [AttributeOf(tables, pairs[0])] + AttributesOf(tables, pairs[1..])
  }

  predicate IsTag(tt: TokenType) {
    tt == StartTagToken || tt == SelfClosingTagToken || tt == EndTagToken
  }

  /** `Token` */
  function ValueOf(tables: Escape.Tables, raw: Raw): Value {
    if IsTag(raw.tt) then Value(raw.tt, Lowered(raw.data), AttributesOf(tables, raw.pairs))
    else Value(raw.tt, TextOf(tables, raw.data, raw.tt == CommentToken), [])
  }

  function Values(tables: Escape.Tables, raws: seq<Raw>): (r: seq<Value>)
    ensures |r| == |raws|
  {
    if raws == [] then [] else [ValueOf(tables, raws[0])] + Values(tables, raws[1..])
  }

  // ----- String ----------------------------------------------------------------------

  function EscapedPairs(attrs: seq<Pair>): (r: seq<Pair>)
    ensures |r| == |attrs|
  {
    if attrs == [] then [] else [(attrs[0].0, Escape.Escaped(attrs[0].1))] + EscapedPairs(attrs[1..])
  }

  /** What `String` writes of a token. */
  function Written(v: Value): Raw {
    Raw(v.tt, if v.tt == TextToken then Escape.Escaped(v.data) else v.data, if IsTag(v.tt) then EscapedPairs(v.attrs) else [])
  }

  function AllWritten(vs: seq<Value>): (r: seq<Raw>)
    ensures |r| == |vs|
  {
    if vs == [] then [] else [Written(vs[0])] + AllWritten(vs[1..])
  }

  // ----- The round trip ----------------------------------------------------------------

  /** Nothing that `Text` decodes. */
  predicate IsVerbatim(data: Text) {
    Escape.AMP !in data && Escape.CR !in data && 0 !in data
  }

  predicate HasKeys(attrs: seq<Pair>) {
    forall k :: 0 <= k < |attrs| ==> IsKey(attrs[k].0)
  }

  /** What comes back: text of any bytes, attribute values of any bytes, names and keys that are such. */
  predicate ComesBack(v: Value) {
    match v.tt
    case ErrorToken => false
    case TextToken => v.data != [] && v.attrs == []
    case StartTagToken => IsName(v.data) && HasKeys(v.attrs) && !Among(v.data, RAW_NAMES, 0)
    case SelfClosingTagToken => IsName(v.data) && HasKeys(v.attrs) && !Among(v.data, RAW_NAMES, 0)
    case EndTagToken => IsName(v.data) && v.attrs == []
    case CommentToken => Encloses(v.data, 2) && IsVerbatim(v.data) && v.attrs == []
    case DoctypeToken => IsDoctype(v.data) && IsVerbatim(v.data) && v.attrs == []
  }

  /** No text right after text, which would be one text. */
  predicate ComeBack(vs: seq<Value>) {
    vs != [] ==> ComesBack(vs[0]) && ComeBack(vs[1..]) && (|vs| > 1 && vs[0].tt == TextToken ==> vs[1].tt != TextToken)
  }

  lemma {:induction false} EscapedIsPlain(s: Text)
    ensures Escape.Newlines(Escape.Escaped(s)) == Escape.Escaped(s)
    ensures forall k :: 0 <= k < |Escape.Escaped(s)| ==> !Escape.IsMarkup(Escape.Escaped(s)[k])
    ensures s != [] ==> Escape.Escaped(s) != []
  {
    var e := Escape.Escaped(s);
    forall k | 0 <= k < |e| ensures !Escape.IsMarkup(e[k]) { Escape.EscapedIsClean(s, k); }
    Escape.LineIsKept(e, []);
    assert e + [] == e;
    assert Escape.Newlines([]) == [];
  }

  lemma {:induction false} NothingReplaced(s: Text)
    requires 0 !in s
    ensures NulReplaced(s) == s
  {
    if s != [] {
      NothingReplaced(s[1..]);
      assert s == [s[0]] + s[1..];
    }
  }

  lemma VerbatimIsKept(tables: Escape.Tables, data: Text, comment: bool)
    requires IsVerbatim(data)
    ensures TextOf(tables, data, comment) == data
  {
    Escape.LineIsKept(data, []);
    assert data + [] == data && Escape.Newlines([]) == [];
    NothingReplaced(data);
    Escape.NothingToUnescape(tables, data, false);
  }

  lemma TextIsKept(tables: Escape.Tables, data: Text, e: Text)
    requires Escape.KnowsEscapes(tables) && e == Escape.Escaped(data)
    ensures TextOf(tables, e, false) == data
  {
    EscapedIsPlain(data);
    Escape.UnescapeEscape(tables, data, false);
  }

  lemma AttributeIsKept(tables: Escape.Tables, a: Pair, e: Text)
    requires Escape.KnowsEscapes(tables) && IsKey(a.0) && e == Escape.Escaped(a.1)
    ensures AttributeOf(tables, (a.0, e)) == a
  {
    EscapedIsPlain(a.1);
    Escape.UnescapeEscape(tables, a.1, true);
    assert Lowered(a.0) == a.0;
  }

  lemma {:induction false} AttributesAreKept(tables: Escape.Tables, attrs: seq<Pair>)
    requires Escape.KnowsEscapes(tables) && HasKeys(attrs)
    ensures AttributesOf(tables, EscapedPairs(attrs)) == attrs
  {
    if attrs != [] {
      AttributesAreKept(tables, attrs[1..]);
      AttributeIsKept(tables, attrs[0], Escape.Escaped(attrs[0].1));
      assert attrs == [attrs[0]] + attrs[1..];
    }
  }

  lemma ValueIsKept(tables: Escape.Tables, v: Value)
    requires Escape.KnowsEscapes(tables) && ComesBack(v)
    ensures ValueOf(tables, Written(v)) == v
  {
    if v.tt == TextToken {
      TextIsKept(tables, v.data, Escape.Escaped(v.data));
    } else if IsTag(v.tt) {
      AttributesAreKept(tables, v.attrs);
      LoweredIsSame(v.data);
    } else {
      VerbatimIsKept(tables, v.data, v.tt == CommentToken);
    }
  }

  lemma {:induction false} PairsAreProper(attrs: seq<Pair>)
    requires HasKeys(attrs)
    ensures ArePairs(EscapedPairs(attrs))
  {
    if attrs != [] {
      EscapedIsPlain(attrs[0].1);
      PairsAreProper(attrs[1..]);
    }
  }

  lemma ValueIsProper(v: Value)
    requires ComesBack(v)
    ensures IsProper(Written(v))
  {
    if IsTag(v.tt) { PairsAreProper(v.attrs); }
    if v.tt == TextToken { EscapedIsPlain(v.data); }
  }

  lemma {:induction false} ValuesAreProper(tables: Escape.Tables, vs: seq<Value>)
    requires Escape.KnowsEscapes(tables) && ComeBack(vs)
    ensures AreProper(AllWritten(vs)) && Values(tables, AllWritten(vs)) == vs
  {
    if vs != [] {
      ValuesAreProper(tables, vs[1..]);
      ValueIsProper(vs[0]);
      ValueIsKept(tables, vs[0]);
      assert AllWritten(vs)[1..] == AllWritten(vs[1..]);
      assert vs == [vs[0]] + vs[1..];
    }
  }

  /** Tokens that `String` wrote are the tokens that are found, whatever bytes their text and attribute values hold. */
  lemma StringsRead(tables: Escape.Tables, vs: seq<Value>)
    requires Escape.KnowsEscapes(tables) && ComeBack(vs)
    ensures Values(tables, Raws(Strings(AllWritten(vs)), 0)) == vs
  {
    ValuesAreProper(tables, vs);
    WrittenTokensRead(AllWritten(vs));
  }

  /** A comment is not escaped when it is written, but unescaped when it is read. */
  lemma CommentIsUnescaped(tables: Escape.Tables)
    requires Escape.KnowsEscapes(tables)
    ensures ValueOf(tables, Written(Value(CommentToken, Escape.Bytes("&lt;"), []))) == Value(CommentToken, Escape.Bytes("<"), [])
  {
    var data := Escape.Bytes("&lt;");
    NothingReplaced(data);
    Escape.LineIsKept(data, []);
    assert data + [] == data && Escape.Newlines([]) == [];
    Escape.UnescapeEscape(tables, Escape.Bytes("<"), false);
    assert Escape.Bytes("<")[1..] == [] && Escape.Escaped(Escape.Bytes("<")) == Escape.EscapeByte('<' as int) + [];
  }
}
