/**
 Entity escaping and in-place unescaping of package html.

 `unescape` rewrites the buffer that it is still reading, through a write cursor that must
 never pass the read cursor.  The specification `Unescaped` works on a sequence.  The entity
 tables are a parameter; all that is asked of them is that no value is wider in UTF-8 than its
 name and the ampersand, which is what the comment above the two-rune table relies on.
 */
module Escape {
  import opened Basics

  type byte = x: int | 0 <= x < 256

  const AMP: byte := '&' as int
  const SEMI: byte := ';' as int
  const HASH: byte := '#' as int

  /** utf8.EncodeRune: anything that is not a scalar value becomes U+FFFD. */
  function Utf8(r: int): (bytes: seq<byte>)
    ensures 1 <= |bytes| <= 4
    ensures 0 <= r < 128 ==> bytes == [r]
  {
    if r < 0 || r > 0x10FFFF || 0xD800 <= r <= 0xDFFF then [0xEF, 0xBF, 0xBD]
    else if r < 0x80 then [r]
    else if r < 0x800 then [0xC0 + r / 64, 0x80 + r % 64]
    else if r < 0x10000 then [0xE0 + r / 4096, 0x80 + r / 64 % 64, 0x80 + r % 64]
    else [0xF0 + r / 262144, 0x80 + r / 4096 % 64, 0x80 + r / 64 % 64, 0x80 + r % 64]
  }

  /** The named references: one rune each, or two.  A missing name has the value zero. */
  datatype Tables = Tables(one: map<seq<byte>, int>, two: map<seq<byte>, (int, int)>) {
    function One(name: seq<byte>): int {
      if name in one then one[name] else 0
    }

    function Two(name: seq<byte>): (int, int) {
      if name in two then two[name] else (0, 0)
    }

    /** No replacement is wider than the text it replaces. */
    ghost predicate Narrow() {
      && (forall name :: name in one ==> |Utf8(one[name])| <= |name| + 1)
      && (forall name :: name in two ==> |Utf8(two[name].0)| + |Utf8(two[name].1)| <= |name| + 1)
    }
  }

  /** All entities without a semicolon have at most this many bytes. */
  const LONGEST_WITHOUT_SEMICOLON := 6

  /** The runes that 0x80 to 0x9F stand for in Windows-1252. */
  const REPLACEMENTS: seq<int> := [
    0x20AC, 0x0081, 0x201A, 0x0192, 0x201E, 0x2026, 0x2020, 0x2021,
    0x02C6, 0x2030, 0x0160, 0x2039, 0x0152, 0x008D, 0x017D, 0x008F,
    0x0090, 0x2018, 0x2019, 0x201C, 0x201D, 0x2022, 0x2013, 0x2014,
    0x02DC, 0x2122, 0x0161, 0x203A, 0x0153, 0x009D, 0x017E, 0x0178]

  // ----- One entity ------------------------------------------------------------------

  function DigitValue(c: byte, hex: bool): int {
    if '0' as int <= c <= '9' as int then c - '0' as int
    else if hex && 'a' as int <= c <= 'f' as int then c - 'a' as int + 10
    else if hex && 'A' as int <= c <= 'F' as int then c - 'A' as int + 10
    else -1
  }

  /** Where the digits from `i` on end, a semicolon included, and their int32 value. */
  function ScanNumber(s: seq<byte>, i: nat, hex: bool, x: int): (r: (nat, int))
    requires i <= |s|
    ensures i <= r.0 <= |s|
    decreases |s| - i
  {
    if i == |s| then (i, x)
    else if DigitValue(s[i], hex) >= 0 then
      ScanNumber(s, i + 1, hex, Wrap32((if hex then 16 else 10) * x + DigitValue(s[i], hex)))
    else if s[i] == SEMI then (i + 1, x) else (i, x)
  }

  function Corrected(x: int): int {
    if 0x80 <= x <= 0x9F then REPLACEMENTS[x - 0x80]
    else if x == 0 || 0xD800 <= x <= 0xDFFF || x > 0x10FFFF then 0xFFFD
    else x
  }

  predicate IsAlnum(c: byte) {
    'a' as int <= c <= 'z' as int || 'A' as int <= c <= 'Z' as int || '0' as int <= c <= '9' as int
  }

  /** Where the name from `i` on ends, a semicolon included. */
  function ScanName(s: seq<byte>, i: nat): (e: nat)
    requires i <= |s|
    ensures i <= e <= |s|
    decreases |s| - i
  {
    if i == |s| then i
    else if IsAlnum(s[i]) then ScanName(s, i + 1)
    else if s[i] == SEMI then i + 1 else i
  }

  /** The longest proper prefix, of length j down to 2, that is an entity; 0 if there is none. */
  function LongestPrefix(tables: Tables, name: seq<byte>, j: int): (r: nat)
    requires j <= |name|
    ensures r != 0 ==> 2 <= r <= j && tables.One(name[..r]) != 0
    decreases j
  {
    if j <= 1 then 0 else if tables.One(name[..j]) != 0 then j else LongestPrefix(tables, name, j - 1)
  }

  /** The bytes that replace the start of s, which is an ampersand, and how many they replace. */
  function Entity(tables: Tables, s: seq<byte>, attribute: bool): (r: (seq<byte>, nat))
    requires s != []
    ensures 1 <= r.1 <= |s|
  {
    if |s| <= 1 then (s[..1], 1)
    else if s[1] == HASH then NumericEntity(s)
    else NamedEntity(tables, s, attribute)
  }

  function NumericEntity(s: seq<byte>): (r: (seq<byte>, nat))
    requires |s| >= 2
    ensures 1 <= r.1 <= |s|
  {
    if |s| <= 3 then (s[..1], 1)
    else
      var hex := s[2] == 'x' as int || s[2] == 'X' as int;
      var (i, x) := ScanNumber(s, if hex then 3 else 2, hex, 0);
      if i <= 3 then (s[..1], 1) else (Utf8(Corrected(x)), i)
  }

  function NamedEntity(tables: Tables, s: seq<byte>, attribute: bool): (r: (seq<byte>, nat))
    requires |s| >= 2
    ensures 1 <= r.1 <= |s|
  {
    var i := ScanName(s, 1);
    var name := s[1..i];
    if name == [] || (attribute && name[|name| - 1] != SEMI && |s| > i && s[i] == '=' as int) then (s[..i], i)
    else if tables.One(name) != 0 then (Utf8(tables.One(name)), i)
    else if tables.Two(name).0 != 0 then (Utf8(tables.Two(name).0) + Utf8(tables.Two(name).1), i)
    else if attribute then (s[..i], i)
    else
      var j := LongestPrefix(tables, name, Min(|name| - 1, LONGEST_WITHOUT_SEMICOLON));
      if j != 0 then (Utf8(tables.One(name[..j])), j + 1) else (s[..i], i)
  }

  function Min(a: int, b: int): int {
    if a > b then b else a
  }

  /** A replacement is never wider than what it replaces: the write cursor stays behind. */
  lemma EntityShrinks(tables: Tables, s: seq<byte>, attribute: bool)
    requires s != [] && tables.Narrow()
    ensures |Entity(tables, s, attribute).0| <= Entity(tables, s, attribute).1
  {
    if |s| > 1 && s[1] != HASH {
      var name := s[1..ScanName(s, 1)];
      var j := LongestPrefix(tables, name, Min(|name| - 1, LONGEST_WITHOUT_SEMICOLON));
    }
  }

  // ----- The specification -----------------------------------------------------------

  /** Unescaping from left to right. */
  function Unescaped(tables: Tables, s: seq<byte>, attribute: bool): seq<byte>
    decreases |s|
  {
    if s == [] then []
    else if s[0] != AMP then [s[0]] + Unescaped(tables, s[1..], attribute)
    else
      var (out, n) := Entity(tables, s, attribute);
      out + Unescaped(tables, s[n..], attribute)
  }

  function EscapeByte(c: byte): seq<byte> {
    if c == '&' as int then Bytes("&amp;")
    else if c == '\'' as int then Bytes("&#39;")
    else if c == '<' as int then Bytes("&lt;")
    else if c == '>' as int then Bytes("&gt;")
    else if c == '"' as int then Bytes("&#34;")
    else if c == '\r' as int then Bytes("&#13;")
    else [c]
  }

  function Bytes(s: string): (b: seq<byte>)
    requires forall i :: 0 <= i < |s| ==> s[i] < 256 as char
    ensures |b| == |s| && forall i :: 0 <= i < |s| ==> b[i] == s[i] as int
  {
    seq(|s|, i requires 0 <= i < |s| => s[i] as int)
  }

  function Escaped(s: seq<byte>): seq<byte> {
    if s == [] then [] else EscapeByte(s[0]) + Escaped(s[1..])
  }

  /** The three names that `escape` writes. */
  ghost predicate KnowsEscapes(tables: Tables) {
    && tables.One(Bytes("amp;")) == '&' as int
    && tables.One(Bytes("lt;")) == '<' as int
    && tables.One(Bytes("gt;")) == '>' as int
  }

  lemma {:induction false} ScanNameTo(s: seq<byte>, i: nat, e: nat)
    requires i <= e < |s| && s[e] == SEMI && forall k :: i <= k < e ==> IsAlnum(s[k])
    ensures ScanName(s, i) == e + 1
    decreases e - i
  {
    if i < e { ScanNameTo(s, i + 1, e); }
  }

  lemma NamedEscape(tables: Tables, name: seq<byte>, rest: seq<byte>, attribute: bool, r: byte)
    requires |name| >= 2 && name[|name| - 1] == SEMI && forall k :: 0 <= k < |name| - 1 ==> IsAlnum(name[k])
    requires tables.One(name) == r && 0 < r < 128
    ensures Entity(tables, [AMP] + name + rest, attribute) == ([r], |name| + 1)
  {
    var s := [AMP] + name + rest;
    ScanNameTo(s, 1, |name|);
    assert s[1..|name| + 1] == name;
    assert s[1] != HASH by { assert s[1] == name[0]; }
  }

  lemma NumericEscape(tables: Tables, tens: byte, ones: byte, rest: seq<byte>, attribute: bool)
    requires '0' as int <= tens <= '9' as int && '0' as int <= ones <= '9' as int
    requires 0 < 10 * (tens - 48) + (ones - 48) < 128
    ensures Entity(tables, [AMP, HASH, tens, ones, SEMI] + rest, attribute) == ([10 * (tens - 48) + (ones - 48)], 5)
  {
    var s := [AMP, HASH, tens, ones, SEMI] + rest;
    var x1 := tens - 48;
    var x2 := 10 * x1 + (ones - 48);
    assert ScanNumber(s, 4, false, x2) == (5, x2);
    assert ScanNumber(s, 3, false, x1) == (5, x2);
    assert ScanNumber(s, 2, false, 0) == (5, x2);
  }

  lemma UnescapedNamed(tables: Tables, name: seq<byte>, rest: seq<byte>, attribute: bool, r: byte)
    requires |name| >= 2 && name[|name| - 1] == SEMI && forall k :: 0 <= k < |name| - 1 ==> IsAlnum(name[k])
    requires tables.One(name) == r && 0 < r < 128
    ensures Unescaped(tables, [AMP] + name + rest, attribute) == [r] + Unescaped(tables, rest, attribute)
  {
    var s := [AMP] + name + rest;
    NamedEscape(tables, name, rest, attribute, r);
    assert s[|name| + 1..] == rest;
  }

  lemma UnescapedNumeric(tables: Tables, tens: byte, ones: byte, rest: seq<byte>, attribute: bool)
    requires '0' as int <= tens <= '9' as int && '0' as int <= ones <= '9' as int
    requires 0 < 10 * (tens - 48) + (ones - 48) < 128
    ensures Unescaped(tables, [AMP, HASH, tens, ones, SEMI] + rest, attribute)
         == [10 * (tens - 48) + (ones - 48)] + Unescaped(tables, rest, attribute)
  {
    var s := [AMP, HASH, tens, ones, SEMI] + rest;
    NumericEscape(tables, tens, ones, rest, attribute);
    assert s[5..] == rest;
  }

  lemma EscapedByteReads(tables: Tables, c: byte, rest: seq<byte>, attribute: bool)
    requires KnowsEscapes(tables)
    ensures Unescaped(tables, EscapeByte(c) + rest, attribute) == [c] + Unescaped(tables, rest, attribute)
  {
    if c == '&' as int {
      assert Bytes("&amp;") == [AMP] + Bytes("amp;");
      UnescapedNamed(tables, Bytes("amp;"), rest, attribute, c);
    } else if c == '<' as int {
      assert Bytes("&lt;") == [AMP] + Bytes("lt;");
      UnescapedNamed(tables, Bytes("lt;"), rest, attribute, c);
    } else if c == '>' as int {
      assert Bytes("&gt;") == [AMP] + Bytes("gt;");
      UnescapedNamed(tables, Bytes("gt;"), rest, attribute, c);
    } else if c == '\'' as int {
      assert Bytes("&#39;") == [AMP, HASH, 51, 57, SEMI];
      UnescapedNumeric(tables, 51, 57, rest, attribute);
    } else if c == '"' as int {
      assert Bytes("&#34;") == [AMP, HASH, 51, 52, SEMI];
      UnescapedNumeric(tables, 51, 52, rest, attribute);
    } else if c == '\r' as int {
      assert Bytes("&#13;") == [AMP, HASH, 49, 51, SEMI];
      UnescapedNumeric(tables, 49, 51, rest, attribute);
    } else {
      assert ([c] + rest)[1..] == rest;
    }
  }

  /** What is escaped comes back, in text and in attribute values alike. */
  lemma {:induction false} UnescapeEscape(tables: Tables, s: seq<byte>, attribute: bool)
    requires KnowsEscapes(tables)
    ensures Unescaped(tables, Escaped(s), attribute) == s
  {
    if s != [] {
      var c, rest := s[0], Escaped(s[1..]);
      UnescapeEscape(tables, s[1..], attribute);
      EscapedByteReads(tables, c, rest, attribute);
      assert s == [c] + s[1..];
    }
  }

  predicate IsMarkup(c: byte) {
    c == '<' as int || c == '>' as int || c == '"' as int || c == '\'' as int || c == '\r' as int
  }

  /** No byte that has a meaning in HTML is left, and every ampersand starts a reference. */
  lemma {:induction false} EscapedIsClean(s: seq<byte>, k: nat)
    requires k < |Escaped(s)|
    ensures !IsMarkup(Escaped(s)[k])
    ensures Escaped(s)[k] == AMP ==> exists c :: (c == AMP || IsMarkup(c)) && EscapeByte(c) <= Escaped(s)[k..]
  {
    var first, rest := EscapeByte(s[0]), Escaped(s[1..]);
    if k < |first| {
      assert Escaped(s)[k] == first[k];
      assert first[k] == AMP ==> k == 0 && first <= Escaped(s)[0..];
    } else {
      EscapedIsClean(s[1..], k - |first|);
      assert Escaped(s)[k..] == rest[k - |first|..];
    }
  }

  // ----- The in-place code -------------------------------------------------------------

  /** Overwrite part of a buffer with bytes taken before the write. */
  method Put(b: array<byte>, dst: nat, bytes: seq<byte>)
    requires dst + |bytes| <= b.Length
    modifies b
    ensures b[..] == old(b[..dst]) + bytes + old(b[dst + |bytes|..])
  {
    for k := 0 to |bytes|
      invariant forall m :: 0 <= m < b.Length ==>
        b[m] == if dst <= m < dst + k then bytes[m - dst] else old(b[m])
    {
      b[dst + k] := bytes[k];
    }
  }

  /** The digit loop: the value is an int32 and may wrap. */
  method ReadNumeric(s: seq<byte>) returns (out: seq<byte>, n: nat)
    requires |s| >= 2 && s[0] == AMP && s[1] == HASH
    ensures (out, n) == NumericEntity(s)
  {
    if |s| <= 3 { return s[..1], 1; }
    var i := 2;
    var hex := false;
    if s[i] == 'x' as int || s[i] == 'X' as int {
      hex := true;
      i := i + 1;
    }
    var x := 0;
    while i < |s|
      invariant 2 <= i <= |s|
      invariant ScanNumber(s, if hex then 3 else 2, hex, 0) == ScanNumber(s, i, hex, x)
    {
      var d := DigitValue(s[i], hex);
      if d < 0 {
        if s[i] == SEMI { i := i + 1; }
        break;
      }
      x := Wrap32((if hex then 16 else 10) * x + d);
      i := i + 1;
    }
    assert ScanNumber(s, if hex then 3 else 2, hex, 0) == (i, x);
    if i <= 3 { return s[..1], 1; }
    return Utf8(Corrected(x)), i;
  }

  method ReadName(s: seq<byte>) returns (i: nat)
    requires |s| >= 1
    ensures i == ScanName(s, 1)
  {
    i := 1;
    while i < |s|
      invariant 1 <= i <= |s|
      invariant ScanName(s, 1) == ScanName(s, i)
    {
      if !IsAlnum(s[i]) {
        if s[i] == SEMI { i := i + 1; }
        break;
      }
      i := i + 1;
    }
  }

  method ReadNamed(tables: Tables, s: seq<byte>, attribute: bool) returns (out: seq<byte>, n: nat)
    requires |s| >= 2 && s[0] == AMP
    ensures (out, n) == NamedEntity(tables, s, attribute)
  {
    var i := ReadName(s);
    var name := s[1..i];
    if name == [] {
    } else if attribute && name[|name| - 1] != SEMI && |s| > i && s[i] == '=' as int {
    } else if tables.One(name) != 0 {
      return Utf8(tables.One(name)), i;
    } else if tables.Two(name).0 != 0 {
      return Utf8(tables.Two(name).0) + Utf8(tables.Two(name).1), i;
    } else if !attribute {
      var maxLen := |name| - 1;
      if maxLen > LONGEST_WITHOUT_SEMICOLON { maxLen := LONGEST_WITHOUT_SEMICOLON; }
      var j := maxLen;
      while j > 1
        invariant j <= maxLen
        invariant LongestPrefix(tables, name, maxLen) == LongestPrefix(tables, name, j)
      {
        if tables.One(name[..j]) != 0 {
          return Utf8(tables.One(name[..j])), j + 1;
        }
        j := j - 1;
      }
    }
    return s[..i], i;
  }

  /** Replaces the entity at `src` by its value at `dst`, and touches no unread byte. */
  method UnescapeEntity(tables: Tables, b: array<byte>, dst: nat, src: nat, attribute: bool)
    returns (dst1: nat, src1: nat)
    requires dst <= src < b.Length && b[src] == AMP && tables.Narrow()
    modifies b
    ensures var (out, n) := Entity(tables, old(b[src..]), attribute);
      && src1 == src + n && dst1 == dst + |out| && dst1 <= src1 <= b.Length
      && b[..dst1] == old(b[..dst]) + out && b[src1..] == old(b[src1..])
  {
    var s := b[src..];
    var out, n;
    if |s| <= 1 {
      out, n := s[..1], 1;
    } else if s[1] == HASH {
      out, n := ReadNumeric(s);
    } else {
      out, n := ReadNamed(tables, s, attribute);
    }
    assert (out, n) == Entity(tables, s, attribute);
    EntityShrinks(tables, s, attribute);
    ghost var before := b[..];
    Put(b, dst, out);
    dst1, src1 := dst + |out|, src + n;
    AfterPut(before, b[..], dst, out, src1);
    assert b[..dst1] == b[..][..dst1] && b[src1..] == b[..][src1..];
  }

  lemma AfterPut(before: seq<byte>, after: seq<byte>, dst: nat, bytes: seq<byte>, src: nat)
    requires dst + |bytes| <= src <= |before| && after == before[..dst] + bytes + before[dst + |bytes|..]
    ensures |after| == |before| && after[..dst + |bytes|] == before[..dst] + bytes && after[src..] == before[src..]
  {
  }

  /** `unescape` leaves the unescaped text at the start of the buffer. */
  method Unescape(tables: Tables, b: array<byte>, attribute: bool) returns (length: nat)
    requires tables.Narrow()
    modifies b
    ensures length <= b.Length && b[..length] == Unescaped(tables, old(b[..]), attribute)
  {
    var i := 0;
    ghost var original := b[..];
    while i < b.Length && b[i] != AMP
      invariant 0 <= i <= b.Length && b[..] == original
      invariant Unescaped(tables, original, attribute) == original[..i] + Unescaped(tables, original[i..], attribute)
    {
      UnescapedCopies(tables, original, i, attribute);
      i := i + 1;
    }
    if i == b.Length {
      assert original[i..] == [] && original[..i] == original;
      return b.Length;
    }
    var dst, src := i, i;
    while src < b.Length
      invariant 0 <= dst <= src <= b.Length
      invariant b[src..] == original[src..]
      invariant Unescaped(tables, original, attribute) == b[..dst] + Unescaped(tables, original[src..], attribute)
    {
      assert b[src] == b[src..][0] && original[src..] != [];
      if b[src] == AMP {
        dst, src := StepEntity(tables, b, dst, src, attribute, original);
      } else {
        dst, src := StepByte(tables, b, dst, src, attribute, original);
      }
    }
    assert original[src..] == [];
    length := dst;
  }

  lemma UnescapedByte(tables: Tables, s: seq<byte>, i: nat, attribute: bool)
    requires i < |s| && s[i] != AMP
    ensures Unescaped(tables, s[i..], attribute) == [s[i]] + Unescaped(tables, s[i + 1..], attribute)
  {
    var t := s[i..];
    assert t[0] == s[i] && t[1..] == s[i + 1..];
  }

  lemma UnescapedEntity(tables: Tables, s: seq<byte>, i: nat, attribute: bool)
    requires i < |s| && s[i] == AMP
    ensures var (out, n) := Entity(tables, s[i..], attribute);
      Unescaped(tables, s[i..], attribute) == out + Unescaped(tables, s[i + n..], attribute)
  {
    var t := s[i..];
    var (out, n) := Entity(tables, t, attribute);
    assert t[0] == s[i] && t[n..] == s[i + n..];
  }

  lemma UnescapedCopies(tables: Tables, s: seq<byte>, i: nat, attribute: bool)
    requires i < |s| && s[i] != AMP
    requires Unescaped(tables, s, attribute) == s[..i] + Unescaped(tables, s[i..], attribute)
    ensures Unescaped(tables, s, attribute) == s[..i + 1] + Unescaped(tables, s[i + 1..], attribute)
  {
    UnescapedByte(tables, s, i, attribute);
    Regroup(s[..i], [s[i]], Unescaped(tables, s[i + 1..], attribute));
    assert s[..i + 1] == s[..i] + [s[i]];
  }

  lemma Regroup(a: seq<byte>, b: seq<byte>, c: seq<byte>)
    ensures a + (b + c) == (a + b) + c
  {
  }

  method StepEntity(tables: Tables, b: array<byte>, dst: nat, src: nat, attribute: bool, ghost original: seq<byte>)
    returns (dst1: nat, src1: nat)
    requires dst <= src < b.Length == |original| && b[src] == AMP && tables.Narrow()
    requires b[src..] == original[src..]
    modifies b
    ensures src < src1 && dst1 <= src1 <= b.Length && b[src1..] == original[src1..]
    ensures old(b[..dst]) + Unescaped(tables, original[src..], attribute)
         == b[..dst1] + Unescaped(tables, original[src1..], attribute)
  {
    assert b[src] == b[src..][0];
    ghost var (out, n) := Entity(tables, original[src..], attribute);
    UnescapedEntity(tables, original, src, attribute);
    dst1, src1 := UnescapeEntity(tables, b, dst, src, attribute);
    Regroup(old(b[..dst]), out, Unescaped(tables, original[src1..], attribute));
    assert old(b[src1..]) == old(b[src..])[n..];
  }

  method StepByte(tables: Tables, b: array<byte>, dst: nat, src: nat, attribute: bool, ghost original: seq<byte>)
    returns (dst1: nat, src1: nat)
    requires dst <= src < b.Length == |original| && b[src] != AMP
    requires b[src..] == original[src..]
    modifies b
    ensures src < src1 && dst1 <= src1 <= b.Length && b[src1..] == original[src1..]
    ensures old(b[..dst]) + Unescaped(tables, original[src..], attribute)
         == b[..dst1] + Unescaped(tables, original[src1..], attribute)
  {
    ghost var c := b[src];
    assert original[src] == original[src..][0] == b[src..][0] == c;
    UnescapedByte(tables, original, src, attribute);
    b[dst] := b[src];
    dst1, src1 := dst + 1, src + 1;
    Regroup(old(b[..dst]), [c], Unescaped(tables, original[src1..], attribute));
    assert b[..dst1] == old(b[..dst]) + [c];
    assert b[src1..] == original[src1..];
  }

  /** `UnescapeString` works on a copy, and only if there is an ampersand. */
  method UnescapeString(tables: Tables, s: seq<byte>) returns (r: seq<byte>)
    requires tables.Narrow()
    ensures r == Unescaped(tables, s, false)
  {
    if AMP !in s {
      NothingToUnescape(tables, s, false);
      return s;
    }
    var b := new byte[|s|](i requires 0 <= i < |s| => s[i]);
    assert b[..] == s;
    var length := Unescape(tables, b, false);
    r := b[..length];
  }

  lemma {:induction false} NothingToUnescape(tables: Tables, s: seq<byte>, attribute: bool)
    requires AMP !in s
    ensures Unescaped(tables, s, attribute) == s
  {
    if s != [] {
      NothingToUnescape(tables, s[1..], attribute);
      assert s == [s[0]] + s[1..];
    }
  }

  predicate IsSpecial(c: byte) {
    c == 38 || c == 39 || c == 60 || c == 62 || c == 34 || c == 13
  }

  /** strings.IndexAny(s, escapedChars) */
  method IndexSpecial(s: seq<byte>) returns (i: int)
    ensures -1 <= i < |s|
    ensures i >= 0 ==> IsSpecial(s[i]) && forall k :: 0 <= k < i ==> !IsSpecial(s[k])
    ensures i < 0 ==> forall k :: 0 <= k < |s| ==> !IsSpecial(s[k])
  {
    i := 0;
    while i < |s|
      invariant 0 <= i <= |s| && forall k :: 0 <= k < i ==> !IsSpecial(s[k])
    {
      if IsSpecial(s[i]) { return; }
      i := i + 1;
    }
    i := -1;
  }

  lemma {:induction false} EscapedPlain(s: seq<byte>, i: nat)
    requires i <= |s| && forall k :: 0 <= k < i ==> !IsSpecial(s[k])
    ensures Escaped(s) == s[..i] + Escaped(s[i..])
  {
    if i == 0 {
      assert s[0..] == s;
    } else {
      var t := s[1..];
      EscapedPlain(t, i - 1);
      assert s[..i] == [s[0]] + t[..i - 1] && t[i - 1..] == s[i..];
      assert EscapeByte(s[0]) == [s[0]];
      Regroup([s[0]], t[..i - 1], Escaped(s[i..]));
    }
  }

  lemma EscapedAt(s: seq<byte>, i: nat)
    requires i < |s| && forall k :: 0 <= k < i ==> !IsSpecial(s[k])
    ensures Escaped(s) == s[..i] + (EscapeByte(s[i]) + Escaped(s[i + 1..]))
  {
    EscapedPlain(s, i);
    var t := s[i..];
    assert t[0] == s[i] && t[1..] == s[i + 1..];
  }

  lemma EscapedNothing(s: seq<byte>)
    requires forall k :: 0 <= k < |s| ==> !IsSpecial(s[k])
    ensures Escaped(s) == s
  {
    EscapedPlain(s, |s|);
    assert s[..|s|] == s && s[|s|..] == [];
  }

  /** `escape`: copies the runs between special bytes and replaces those. */
  method WriteEscaped(out: seq<byte>, text: seq<byte>) returns (w: seq<byte>)
    ensures w == out + Escaped(text)
  {
    w := out;
    var s := text;
    var i := IndexSpecial(s);
    while i != -1
      invariant -1 <= i < |s|
      invariant i >= 0 ==> IsSpecial(s[i]) && forall k :: 0 <= k < i ==> !IsSpecial(s[k])
      invariant i < 0 ==> forall k :: 0 <= k < |s| ==> !IsSpecial(s[k])
      invariant w + Escaped(s) == out + Escaped(text)
      decreases |s|
    {
      EscapedAt(s, i);
      var esc := EscapeByte(s[i]);
      Regroup(w, s[..i], esc + Escaped(s[i + 1..]));
      Regroup(w + s[..i], esc, Escaped(s[i + 1..]));
      w := w + s[..i];
      w := w + esc;
      s := s[i + 1..];
      i := IndexSpecial(s);
    }
    EscapedNothing(s);
    w := w + s;
  }

  method EscapeString(s: seq<byte>) returns (r: seq<byte>)
    ensures r == Escaped(s)
  {
    var i := IndexSpecial(s);
    if i == -1 {
      EscapedNothing(s);
      return s;
    }
    r := WriteEscaped([], s);
  }

  // ----- Line ends --------------------------------------------------------------------

  const CR: byte := 13
  const LF: byte := 10

  /** "\r\n" and "\r" become "\n". */
  function Newlines(s: seq<byte>): seq<byte> {
    if s == [] then []
    else if s[0] != CR then [s[0]] + Newlines(s[1..])
    else [LF] + Newlines(if |s| > 1 && s[1] == LF then s[2..] else s[1..])
  }

  /** A line without "\r" is kept. */
  lemma {:induction false} LineIsKept(line: seq<byte>, rest: seq<byte>)
    requires CR !in line
    ensures Newlines(line + rest) == line + Newlines(rest)
  {
    if line == [] {
      assert line + rest == rest;
    } else {
      LineIsKept(line[1..], rest);
      assert (line + rest)[1..] == line[1..] + rest;
      assert line == [line[0]] + line[1..];
    }
  }

  /** Each of the three line ends becomes "\n". */
  lemma LineEnds(line: seq<byte>, end: seq<byte>, rest: seq<byte>)
    requires CR !in line && (end == [LF] || end == [CR, LF] || (end == [CR] && (rest != [] ==> rest[0] != LF)))
    ensures Newlines(line + (end + rest)) == line + ([LF] + Newlines(rest))
  {
    LineIsKept(line, end + rest);
    assert (end + rest)[|end|..] == rest;
  }

  lemma NewlinesStep(s: seq<byte>, i: nat)
    requires i < |s|
    ensures Newlines(s[i..]) ==
      if s[i] != CR then [s[i]] + Newlines(s[i + 1..])
      else if i + 1 < |s| && s[i + 1] == LF then Newlines(s[i + 1..])
      else [LF] + Newlines(s[i + 1..])
  {
    var t := s[i..];
    assert t[0] == s[i] && t[1..] == s[i + 1..];
    if i + 1 < |s| {
      var u := s[i + 1..];
      assert t[1] == s[i + 1] == u[0] && t[2..] == s[i + 2..] == u[1..];
    }
  }

  /** `convertNewlines` rewrites the buffer behind its own read cursor. */
  method ConvertNewlines(b: array<byte>) returns (length: nat)
    modifies b
    ensures length <= b.Length && b[..length] == Newlines(old(b[..]))
  {
    ghost var original := b[..];
    assert original[0..] == original;
    for i := 0 to b.Length
      invariant b[i..] == original[i..]
      invariant Newlines(original) == b[..i] + Newlines(original[i..])
    {
      if b[i] == CR && i + 1 < b.Length && b[i + 1] == LF {
        PairStep(b[i..], original, i);
        assert b[i + 1..] == b[i..][1..] == original[i + 1..];
        length := CompactNewlines(b, i, original);
        return;
      }
      ConvertOne(b, i, original);
    }
    assert original[b.Length..] == [] && b[..] == b[..b.Length];
    length := b.Length;
  }

  lemma PairStep(rest: seq<byte>, original: seq<byte>, i: nat)
    requires i < |original| && rest == original[i..] && rest[0] == CR && |rest| > 1 && rest[1] == LF
    ensures rest[1..] == original[i + 1..] && Newlines(original[i..]) == Newlines(original[i + 1..])
  {
    NewlinesStep(original, i);
  }

  /** A byte that is not followed by its other half: a lone "\r" is rewritten. */
  method ConvertOne(b: array<byte>, i: nat, ghost original: seq<byte>)
    requires i < b.Length == |original| && b[i..] == original[i..] && !(b[i] == CR && i + 1 < b.Length && b[i + 1] == LF)
    modifies b
    ensures b[i + 1..] == original[i + 1..]
    ensures old(b[..i]) + Newlines(original[i..]) == b[..i + 1] + Newlines(original[i + 1..])
  {
    ghost var before, rest := b[..i], b[i..];
    assert rest[0] == b[i] && rest[1..] == original[i + 1..] && (|rest| > 1 ==> rest[1] == b[i + 1]);
    NewlinesStep(original, i);
    if b[i] == CR {
      b[i] := LF;
    }
    assert b[..i + 1] == before + [b[i]];
    assert b[i + 1..] == rest[1..];
    Regroup(before, [b[i]], Newlines(original[i + 1..]));
  }

  method CompactNewlines(b: array<byte>, i: nat, ghost original: seq<byte>) returns (dst: nat)
    requires i + 1 < b.Length == |original| && b[i + 1..] == original[i + 1..]
    requires Newlines(original) == b[..i] + Newlines(original[i + 1..])
    modifies b
    ensures dst <= b.Length && b[..dst] == Newlines(original)
  {
    var src := i + 1;
    dst := i;
    while src < b.Length
      invariant dst < src <= b.Length && b[src..] == original[src..]
      invariant Newlines(original) == b[..dst] + Newlines(original[src..])
    {
      dst, src := CompactStep(b, dst, src, original);
    }
    assert original[src..] == [];
  }

  method CompactStep(b: array<byte>, dst: nat, src: nat, ghost original: seq<byte>) returns (dst1: nat, src1: nat)
    requires dst < src < b.Length == |original| && b[src..] == original[src..]
    modifies b
    ensures dst1 < src1 <= b.Length && src < src1 && b[src1..] == original[src1..]
    ensures old(b[..dst]) + Newlines(original[src..]) == b[..dst1] + Newlines(original[src1..])
  {
    var c;
    c, src1 := NextNewline(b, src, original);
    b[dst] := c;
    dst1 := dst + 1;
    assert b[..dst1] == old(b[..dst]) + [c];
    assert b[src1..] == original[src1..] by { assert forall k :: src <= k < b.Length ==> b[k] == original[src..][k - src]; }
    Regroup(old(b[..dst]), [c], Newlines(original[src1..]));
  }

  /** The byte that is written next, and how far it reads. */
  method NextNewline(b: array<byte>, src: nat, ghost original: seq<byte>) returns (c: byte, src1: nat)
    requires src < b.Length == |original| && b[src..] == original[src..]
    ensures src < src1 <= b.Length && Newlines(original[src..]) == [c] + Newlines(original[src1..])
  {
    assert b[src] == b[src..][0] == original[src];
    assert src + 1 < b.Length ==> b[src + 1] == b[src..][1] == original[src + 1];
    NewlinesStep(original, src);
    c, src1 := b[src], src + 1;
    if c == CR {
      if src + 1 < b.Length && b[src + 1] == LF {
        NewlinesStep(original, src1);
        src1 := src1 + 1;
      }
      c := LF;
    }
  }
}
