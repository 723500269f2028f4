/**
 What a character reference means.  A numeric one is the number that its digits write, in base
 10 or 16, taken as an int32, and the rune that this number stands for, in UTF-8.  A named one is
 the longest name that is known.
 */
module CharRefs {
  import opened Basics
  import opened Escape

  // ----- UTF-8 -----------------------------------------------------------------------

  predicate IsScalar(r: int) {
    0 <= r <= 0x10FFFF && !(0xD800 <= r <= 0xDFFF)
  }

  function Tail(s: seq<byte>, k: nat): Option<int> {
    if k < |s| && 0x80 <= s[k] <= 0xBF then Some(s[k] - 0x80) else None
  }

  /** Appends the six bits of each of the n bytes from k on, of which all must be tails. */
  function Tails(s: seq<byte>, k: nat, n: nat, r: int): Option<int>
    decreases n
  {
    if n == 0 then Some(r)
    else match Tail(s, k)
      case None => None
      case Some(bits) => Tails(s, k + 1, n - 1, 64 * r + bits)
  }

  /** Only scalar values, and only in their shortest form. */
  function Checked(r: Option<int>, least: int, width: nat): Option<(int, nat)> {
    if r.Some? && IsScalar(r.value) && r.value >= least then Some((r.value, width)) else None
  }

  /** The rune at the start of s and its width, as section 3 of RFC 3629 has it. */
  function ReadRune(s: seq<byte>): Option<(int, nat)> {
    if s == [] then None
    else if s[0] < 0x80 then Some((s[0], 1))
    else if 0xC0 <= s[0] < 0xE0 then Checked(Tails(s, 1, 1, s[0] - 0xC0), 0x80, 2)
    else if 0xE0 <= s[0] < 0xF0 then Checked(Tails(s, 1, 2, s[0] - 0xE0), 0x800, 3)
    else if 0xF0 <= s[0] < 0xF8 then Checked(Tails(s, 1, 3, s[0] - 0xF0), 0x10000, 4)
    else None
  }

  lemma TailsStep(s: seq<byte>, k: nat, n: nat, r: int, r': int)
    requires n > 0 && k < |s| && s[k] == 0x80 + r' % 64 && r == r' / 64
    ensures Tails(s, k, n, r) == Tails(s, k + 1, n - 1, r')
  {
  }

  lemma TwoTails(s: seq<byte>, k: nat, r: int)
    requires k + 1 < |s| && s[k] == 0x80 + r / 64 % 64 && s[k + 1] == 0x80 + r % 64
    ensures Tails(s, k, 2, r / 4096) == Some(r)
  {
    TailsStep(s, k, 2, r / 4096, r / 64);
    TailsStep(s, k + 1, 1, r / 64, r);
  }

  lemma ThreeTails(s: seq<byte>, r: int)
    requires 3 < |s| && s[1] == 0x80 + r / 4096 % 64 && s[2] == 0x80 + r / 64 % 64 && s[3] == 0x80 + r % 64
    ensures Tails(s, 1, 3, r / 262144) == Some(r)
  {
    TailsStep(s, 1, 3, r / 262144, r / 4096);
    TwoTails(s, 2, r);
  }

  /** What is written in UTF-8 is read from it. */
  lemma RuneReads(r: int, rest: seq<byte>)
    requires IsScalar(r)
    ensures ReadRune(Utf8(r) + rest) == Some((r, |Utf8(r)|))
  {
    var s := Utf8(r) + rest;
    if r < 0x80 {
    } else if r < 0x800 {
      TailsStep(s, 1, 1, r / 64, r);
    } else if r < 0x10000 {
      TwoTails(s, 1, r);
    } else {
      ThreeTails(s, r);
    }
  }

  /** What is no scalar value is written as U+FFFD. */
  lemma OtherRuneReads(r: int, rest: seq<byte>)
    requires !IsScalar(r)
    ensures ReadRune(Utf8(r) + rest) == Some((0xFFFD, 3))
  {
    assert Utf8(r) == Utf8(0xFFFD);
    RuneReads(0xFFFD, rest);
  }

  // ----- Numbers ---------------------------------------------------------------------

  function Base(hex: bool): nat {
    if hex then 16 else 10
  }

  /** The digit d, and from 10 on a letter. */
  function Digit(d: nat, upper: bool): byte
    requires d < 16
  {
    if d < 10 then d + '0' as int else d - 10 + if upper then 'A' as int else 'a' as int
  }

  function Over(v: nat, hex: bool): nat {
    if hex then v / 16 else v / 10
  }

  function Ones(v: nat, hex: bool): (d: nat)
    ensures d < Base(hex) && v == Base(hex) * Over(v, hex) + d
  {
    if hex then v % 16 else v % 10
  }

  /** v, written by division. */
  function Digits(v: nat, hex: bool, upper: bool): (s: seq<byte>)
    ensures s != []
    decreases v, 1
  {
    Front(v, hex, upper) + [Digit(Ones(v, hex), upper)]
  }

  function Front(v: nat, hex: bool, upper: bool): seq<byte>
    decreases v, 0
  {
    if v < Base(hex) then [] else Digits(Over(v, hex), hex, upper)
  }

  ghost predicate AllDigits(s: seq<byte>, hex: bool) {
    forall k :: 0 <= k < |s| ==> DigitValue(s[k], hex) >= 0
  }

  /** The number that digits write. */
  function Number(s: seq<byte>, hex: bool): int {
    if s == [] then 0 else Base(hex) * Number(s[..|s| - 1], hex) + DigitValue(s[|s| - 1], hex)
  }

  lemma DigitReads(d: nat, hex: bool, upper: bool)
    requires d < Base(hex)
    ensures DigitValue(Digit(d, upper), hex) == d
  {
  }

  /** What is written by division is read as that number. */
  lemma {:induction false} DigitsRead(v: nat, hex: bool, upper: bool)
    ensures Number(Digits(v, hex, upper), hex) == v && AllDigits(Digits(v, hex, upper), hex)
    decreases v, 1
  {
    FrontReads(v, hex, upper);
    LastDigit(Front(v, hex, upper), Ones(v, hex), hex, upper);
  }

  lemma {:induction false} FrontReads(v: nat, hex: bool, upper: bool)
    ensures Number(Front(v, hex, upper), hex) == Over(v, hex) && AllDigits(Front(v, hex, upper), hex)
    decreases v, 0
  {
    if v >= Base(hex) { DigitsRead(Over(v, hex), hex, upper); }
  }

  lemma LastDigit(s: seq<byte>, d: nat, hex: bool, upper: bool)
    requires AllDigits(s, hex) && d < Base(hex)
    ensures AllDigits(s + [Digit(d, upper)], hex) && Number(s + [Digit(d, upper)], hex) == Base(hex) * Number(s, hex) + d
  {
    DigitReads(d, hex, upper);
    assert (s + [Digit(d, upper)])[..|s|] == s;
  }

  lemma {:induction false} NumberIsNat(s: seq<byte>, hex: bool)
    requires AllDigits(s, hex)
    ensures Number(s, hex) >= 0
  {
    if s != [] { NumberIsNat(s[..|s| - 1], hex); }
  }

  // ----- References ------------------------------------------------------------------

  lemma WrapStep(x: int, hex: bool, d: int)
    ensures Wrap32(Base(hex) * Wrap32(x) + d) == Wrap32(Base(hex) * x + d)
  {
    var turns := (x + 0x8000_0000) / 0x1_0000_0000;
    assert Wrap32(x) == x - 0x1_0000_0000 * turns;
    WrapTurns(Base(hex) * x + d, Base(hex) * turns);
  }

  lemma WrapTurns(x: int, turns: int)
    ensures Wrap32(x - 0x1_0000_0000 * turns) == Wrap32(x)
  {
  }

  lemma ScanStep(s: seq<byte>, i: nat, hex: bool, x: int)
    requires i < |s| && DigitValue(s[i], hex) >= 0
    ensures ScanNumber(s, i, hex, Wrap32(x)) == ScanNumber(s, i + 1, hex, Wrap32(Base(hex) * x + DigitValue(s[i], hex)))
  {
    WrapStep(x, hex, DigitValue(s[i], hex));
  }

  lemma NumberStep(s: seq<byte>, from: nat, i: nat, hex: bool)
    requires from <= i < |s|
    ensures Number(s[from..i + 1], hex) == Base(hex) * Number(s[from..i], hex) + DigitValue(s[i], hex)
  {
    assert s[from..i + 1][..i - from] == s[from..i];
  }

  /** The digits from i on, of those that start at `from`: the value wraps around once, in effect. */
  lemma {:induction false} ScanDigits(s: seq<byte>, from: nat, i: nat, e: nat, hex: bool)
    requires from <= i <= e <= |s| && (e < |s| ==> DigitValue(s[e], hex) < 0)
    requires forall k :: from <= k < e ==> DigitValue(s[k], hex) >= 0
    ensures ScanNumber(s, i, hex, Wrap32(Number(s[from..i], hex)))
         == (if e < |s| && s[e] == SEMI then e + 1 else e, Wrap32(Number(s[from..e], hex)))
    decreases e - i
  {
    if i < e {
      var x := Number(s[from..i], hex);
      ScanStep(s, i, hex, x);
      NumberStep(s, from, i, hex);
      ScanDigits(s, from, i + 1, e, hex);
    }
  }

  function Prefix(hex: bool, upper: bool): seq<byte> {
    if !hex then [AMP, HASH] else if upper then [AMP, HASH, 'X' as int] else [AMP, HASH, 'x' as int]
  }

  /** The text after the digits does not go on with a digit. */
  ghost predicate Ends(rest: seq<byte>, hex: bool) {
    rest != [] ==> DigitValue(rest[0], hex) < 0
  }

  /** What a number stands for: Windows-1252 from 0x80 to 0x9F, and else itself or U+FFFD. */
  function Meaning(v: nat): int {
    if 0x80 <= v <= 0x9F then REPLACEMENTS[v - 0x80] else if v == 0 || !IsScalar(v) then 0xFFFD else v
  }

  lemma MeaningWraps(v: nat)
    ensures Utf8(Corrected(Wrap32(v))) == Utf8(Meaning(v % 0x1_0000_0000))
  {
    var x := v % 0x1_0000_0000;
    WrapTurns(v, v / 0x1_0000_0000);
    assert Wrap32(x) == Wrap32(v);
  }

  /** Where a reference ends whose digits are followed by `rest`. */
  function End(width: nat, rest: seq<byte>): nat {
    if rest != [] && rest[0] == SEMI then width + 1 else width
  }

  /** The digits stand at n, and the rest follows them. */
  ghost predicate DigitsAt(s: seq<byte>, n: nat, digits: seq<byte>, rest: seq<byte>) {
    |s| == n + |digits| + |rest| && s[n..n + |digits|] == digits && (rest != [] ==> s[n + |digits|] == rest[0])
  }

  lemma ScanReference(s: seq<byte>, n: nat, digits: seq<byte>, hex: bool, rest: seq<byte>)
    requires AllDigits(digits, hex) && Ends(rest, hex) && DigitsAt(s, n, digits, rest)
    ensures ScanNumber(s, n, hex, 0) == (End(n + |digits|, rest), Wrap32(Number(digits, hex)))
  {
    ScanParts(s, n, n + |digits|, digits, hex);
  }

  lemma ScanParts(s: seq<byte>, p: nat, e: nat, digits: seq<byte>, hex: bool)
    requires p <= e <= |s| && s[p..e] == digits && AllDigits(digits, hex) && (e < |s| ==> DigitValue(s[e], hex) < 0)
    ensures ScanNumber(s, p, hex, 0) == (if e < |s| && s[e] == SEMI then e + 1 else e, Wrap32(Number(digits, hex)))
  {
    assert s[p..p] == [];
    assert forall k :: p <= k < e ==> s[k] == digits[k - p];
    ScanDigits(s, p, p, e, hex);
  }

  lemma Parts(p: seq<byte>, digits: seq<byte>, rest: seq<byte>)
    ensures DigitsAt(p + digits + rest, |p|, digits, rest)
  {
  }

  lemma FromScan(tables: Tables, s: seq<byte>, hex: bool, i: nat, x: int, attribute: bool)
    requires |s| >= 2 && s[0] == AMP && s[1] == HASH && i <= |s| && (|s| > 2 ==> hex == (s[2] == 'x' as int || s[2] == 'X' as int))
    requires |s| > 3 ==> ScanNumber(s, if hex then 3 else 2, hex, 0) == (i, x)
    ensures Entity(tables, s, attribute) == if i <= 3 then ([AMP], 1) else (Utf8(Corrected(x)), i)
  {
    assert s[..1] == [AMP];
  }

  /** The digits cannot be taken for another kind of reference. */
  ghost predicate Decimal(digits: seq<byte>, rest: seq<byte>) {
    digits == [] && rest != [] ==> rest[0] != 'x' as int && rest[0] != 'X' as int
  }

  /**
   Any digits, with or without a semicolon.  Those of one decimal digit and no semicolon are
   left as they are, and so are those without digits, unless they are hexadecimal with a
   semicolon.
   */
  lemma ReferenceReads(tables: Tables, digits: seq<byte>, hex: bool, upper: bool, rest: seq<byte>, attribute: bool)
    requires AllDigits(digits, hex) && Ends(rest, hex) && (hex || Decimal(digits, rest))
    ensures Number(digits, hex) >= 0
    ensures var width := End(|Prefix(hex, upper)| + |digits|, rest);
      Entity(tables, Prefix(hex, upper) + digits + rest, attribute) ==
        if width <= 3 then ([AMP], 1) else (Utf8(Meaning(Number(digits, hex) % 0x1_0000_0000)), width)
  {
    var p, v := Prefix(hex, upper), Number(digits, hex);
    var s := p + digits + rest;
    NumberIsNat(digits, hex);
    Parts(p, digits, rest);
    ScanReference(s, |p|, digits, hex, rest);
    MeaningWraps(v);
    StartsLike(digits, hex, upper, rest);
    FromScan(tables, s, hex, End(|p| + |digits|, rest), Wrap32(v), attribute);
  }

  lemma StartsLike(digits: seq<byte>, hex: bool, upper: bool, rest: seq<byte>)
    requires AllDigits(digits, hex) && (hex || Decimal(digits, rest))
    ensures var s := Prefix(hex, upper) + digits + rest;
      |s| >= 2 && s[0] == AMP && s[1] == HASH && (|s| > 2 ==> hex == (s[2] == 'x' as int || s[2] == 'X' as int))
  {
    var s := Prefix(hex, upper) + digits + rest;
    if !hex && |s| > 2 {
      assert s[2] == if digits == [] then rest[0] else digits[0];
      assert digits != [] ==> DigitValue(digits[0], hex) >= 0;
    }
  }

  // ----- Numbers that are written out ---------------------------------------------------

  function Reference(v: nat, hex: bool, upper: bool): seq<byte> {
    Prefix(hex, upper) + Digits(v, hex, upper) + [SEMI]
  }

  /** Wherever `ref` stands, it is replaced by `out`. */
  ghost predicate StandsFor(tables: Tables, ref: seq<byte>, out: seq<byte>) {
    forall rest, attribute :: Unescaped(tables, ref + rest, attribute) == out + Unescaped(tables, rest, attribute)
  }

  /** Every number that is written out stands for the meaning of its low 32 bits. */
  lemma NumberReads(tables: Tables, v: nat, hex: bool, upper: bool)
    ensures StandsFor(tables, Reference(v, hex, upper), Utf8(Meaning(v % 0x1_0000_0000)))
  {
    var ref, out := Reference(v, hex, upper), Utf8(Meaning(v % 0x1_0000_0000));
    forall rest, attribute ensures Unescaped(tables, ref + rest, attribute) == out + Unescaped(tables, rest, attribute) {
      ReferenceEntity(tables, v, hex, upper, rest, attribute);
      EntityFirst(tables, ref, out, rest, attribute);
    }
  }

  lemma ReferenceEntity(tables: Tables, v: nat, hex: bool, upper: bool, rest: seq<byte>, attribute: bool)
    ensures var ref := Reference(v, hex, upper);
      ref != [] && ref[0] == AMP && Entity(tables, ref + rest, attribute) == (Utf8(Meaning(v % 0x1_0000_0000)), |ref|)
  {
    DigitsRead(v, hex, upper);
    WithSemicolon(tables, v, Digits(v, hex, upper), hex, upper, rest, attribute);
  }

  lemma WithSemicolon(tables: Tables, v: nat, digits: seq<byte>, hex: bool, upper: bool, rest: seq<byte>, attribute: bool)
    requires AllDigits(digits, hex) && Number(digits, hex) == v && digits != []
    ensures var ref := Prefix(hex, upper) + digits + [SEMI];
      ref[0] == AMP && Entity(tables, ref + rest, attribute) == (Utf8(Meaning(v % 0x1_0000_0000)), |ref|)
  {
    var p := Prefix(hex, upper);
    ReferenceReads(tables, digits, hex, upper, [SEMI] + rest, attribute);
    assert p + digits + ([SEMI] + rest) == p + digits + [SEMI] + rest;
  }

  lemma EntityFirst(tables: Tables, ref: seq<byte>, out: seq<byte>, rest: seq<byte>, attribute: bool)
    requires ref != [] && ref[0] == AMP && Entity(tables, ref + rest, attribute) == (out, |ref|)
    ensures Unescaped(tables, ref + rest, attribute) == out + Unescaped(tables, rest, attribute)
  {
    assert (ref + rest)[|ref|..] == rest;
  }

  /** A rune that is not a control character of 0x80 to 0x9F is what its number says. */
  lemma ScalarReads(tables: Tables, r: nat, hex: bool, upper: bool)
    requires IsScalar(r) && r != 0 && !(0x80 <= r <= 0x9F)
    ensures StandsFor(tables, Reference(r, hex, upper), Utf8(r))
  {
    SmallMeaning(r);
    NumberReads(tables, r, hex, upper);
  }

  lemma SmallMeaning(v: nat)
    requires v <= 0x10FFFF
    ensures Meaning(v % 0x1_0000_0000) == Meaning(v)
  {
    assert v % 0x1_0000_0000 == v;
  }

  /** The characters of Windows-1252 from 0x80 to 0x9F; five of them are none there and stand for themselves. */
  const WINDOWS_1252 := "€\U{81}‚ƒ„…†‡ˆ‰Š‹Œ\U{8d}Ž\U{8f}\U{90}‘’“”•–—˜™š›œ\U{9d}žŸ"

  lemma WindowsReads(tables: Tables, k: nat, hex: bool, upper: bool)
    requires k < |WINDOWS_1252| == 32
    ensures StandsFor(tables, Reference(0x80 + k, hex, upper), Utf8(WINDOWS_1252[k] as int))
  {
    WindowsMeaning(k);
    NumberReads(tables, 0x80 + k, hex, upper);
  }

  lemma WindowsMeaning(k: nat)
    requires k < |WINDOWS_1252|
    ensures Meaning((0x80 + k) % 0x1_0000_0000) == WINDOWS_1252[k] as int
  {
    SmallMeaning(0x80 + k);
    SameTable(k);
  }

  lemma SameTable(k: nat)
    requires k < |WINDOWS_1252|
    ensures |WINDOWS_1252| == 32 && REPLACEMENTS[k] == WINDOWS_1252[k] as int
  {
  }

  /** What a number above 0x10FFFF, or another that is no scalar value, gives: U+FFFD exactly if its low bits are no rune either. */
  lemma NoRuneReads(tables: Tables, v: nat, hex: bool, upper: bool)
    requires v == 0 || !IsScalar(v)
    ensures StandsFor(tables, Reference(v, hex, upper), [0xEF, 0xBF, 0xBD])
       <==> (var low := v % 0x1_0000_0000; low == 0 || low == 0xFFFD || !IsScalar(low))
  {
    var ref, low := Reference(v, hex, upper), v % 0x1_0000_0000;
    NumberReads(tables, v, hex, upper);
    OnlyItself(low);
    OneMeaning(tables, ref, Utf8(Meaning(low)), [0xEF, 0xBF, 0xBD]);
  }

  lemma OnlyItself(low: nat)
    ensures Utf8(Meaning(low)) == [0xEF, 0xBF, 0xBD] <==> low == 0 || low == 0xFFFD || !IsScalar(low)
  {
    RuneReads(Meaning(low), []);
    RuneReads(0xFFFD, []);
  }

  lemma OneMeaning(tables: Tables, ref: seq<byte>, out: seq<byte>, out': seq<byte>)
    requires StandsFor(tables, ref, out)
    ensures StandsFor(tables, ref, out') <==> out == out'
  {
    if StandsFor(tables, ref, out') {
      var none := Unescaped(tables, [], false);
      assert none == [];
      assert Unescaped(tables, ref + [], false) == out + none == out' + none;
      assert out + none == out && out' + none == out';
    }
  }

  /** "&#4294967361;" is "A". */
  lemma LargeNumberIsRune(tables: Tables)
    ensures StandsFor(tables, Reference(0x1_0000_0041, false, false), Bytes("A"))
  {
    assert Meaning(0x1_0000_0041 % 0x1_0000_0000) == 'A' as int;
    assert Utf8('A' as int) == Bytes("A");
    NumberReads(tables, 0x1_0000_0041, false, false);
  }

  /** "&#x;" is U+FFFD, where "&#;" is left as it is. */
  lemma NoDigits(tables: Tables, upper: bool, rest: seq<byte>, attribute: bool)
    ensures Entity(tables, Prefix(true, upper) + [SEMI] + rest, attribute) == ([0xEF, 0xBF, 0xBD], 4)
    ensures Entity(tables, Prefix(false, upper) + [SEMI] + rest, attribute) == ([AMP], 1)
  {
    ReferenceReads(tables, [], true, upper, [SEMI] + rest, attribute);
    ReferenceReads(tables, [], false, upper, [SEMI] + rest, attribute);
    assert Prefix(true, upper) + [] + ([SEMI] + rest) == Prefix(true, upper) + [SEMI] + rest;
    assert Prefix(false, upper) + [] + ([SEMI] + rest) == Prefix(false, upper) + [SEMI] + rest;
  }

  // ----- Names ------------------------------------------------------------------------

  /** Letters and digits, and perhaps a semicolon at the end. */
  ghost predicate IsName(name: seq<byte>) {
    name != [] && forall k :: 0 <= k < |name| ==> IsAlnum(name[k]) || (k == |name| - 1 && name[k] == SEMI)
  }

  /** What follows is not part of the name. */
  ghost predicate NameEnds(name: seq<byte>, rest: seq<byte>) {
    name != [] && name[|name| - 1] != SEMI && rest != [] ==> !IsAlnum(rest[0]) && rest[0] != SEMI
  }

  lemma {:induction false} ScanNameEnds(s: seq<byte>, i: nat, e: nat)
    requires 1 <= i <= e <= |s| && IsName(s[1..e]) && NameEnds(s[1..e], s[e..])
    requires i < e || s[e - 1] != SEMI
    ensures ScanName(s, i) == e
    decreases e - i
  {
    if i < e {
      assert s[i] == s[1..e][i - 1];
      if IsAlnum(s[i]) { ScanNameEnds(s, i + 1, e); }
    } else if e < |s| {
      assert s[e..][0] == s[e] && s[1..e][e - 2] == s[e - 1];
    }
  }

  lemma NameScanned(name: seq<byte>, rest: seq<byte>)
    requires IsName(name) && NameEnds(name, rest)
    ensures var s := [AMP] + name + rest;
      ScanName(s, 1) == |name| + 1 && s[1..|name| + 1] == name && s[..|name| + 1] == [AMP] + name && s[1] != HASH
  {
    var s := [AMP] + name + rest;
    assert s[1..|name| + 1] == name && s[|name| + 1..] == rest && s[1] == name[0];
    ScanNameEnds(s, 1, |name| + 1);
  }

  /** A known name is replaced, unless it is part of a query in an attribute value. */
  lemma KnownNameReads(tables: Tables, name: seq<byte>, rest: seq<byte>, attribute: bool)
    requires IsName(name) && NameEnds(name, rest) && tables.One(name) != 0
    ensures Entity(tables, [AMP] + name + rest, attribute) ==
      if attribute && name[|name| - 1] != SEMI && rest != [] && rest[0] == '=' as int then ([AMP] + name, |name| + 1)
      else (Utf8(tables.One(name)), |name| + 1)
  {
    NameScanned(name, rest);
  }

  lemma {:induction false} LongestIsLongest(tables: Tables, name: seq<byte>, j: int)
    requires j <= |name|
    ensures var r := LongestPrefix(tables, name, j);
      forall k :: 2 <= k <= j && r < k ==> tables.One(name[..k]) == 0
    decreases j
  {
    if j > 1 && tables.One(name[..j]) == 0 { LongestIsLongest(tables, name, j - 1); }
  }

  /** In text, of a name that is not known, the longest known start of up to six bytes is replaced. */
  lemma KnownStartReads(tables: Tables, name: seq<byte>, n: nat, rest: seq<byte>)
    requires IsName(name) && NameEnds(name, rest) && tables.One(name) == 0 && tables.Two(name).0 == 0
    requires 2 <= n <= 6 && n < |name| && tables.One(name[..n]) != 0 && forall k :: n < k <= 6 && k < |name| ==> tables.One(name[..k]) == 0
    ensures Entity(tables, [AMP] + name + rest, false) == (Utf8(tables.One(name[..n])), n + 1)
  {
    NameScanned(name, rest);
    LongestIsLongest(tables, name, Min(|name| - 1, 6));
  }

  /** What has no known start, and in an attribute value what is not known itself, is left as it is. */
  lemma UnknownIsLeft(tables: Tables, name: seq<byte>, rest: seq<byte>, attribute: bool)
    requires IsName(name) && NameEnds(name, rest) && tables.One(name) == 0 && tables.Two(name).0 == 0
    requires attribute || forall k :: 2 <= k <= 6 && k < |name| ==> tables.One(name[..k]) == 0
    ensures Entity(tables, [AMP] + name + rest, attribute) == ([AMP] + name, |name| + 1)
  {
    NameScanned(name, rest);
  }

  /** A name with a value of two runes. */
  lemma TwoRunesRead(tables: Tables, name: seq<byte>, rest: seq<byte>, attribute: bool)
    requires IsName(name) && name[|name| - 1] == SEMI && tables.One(name) == 0 && tables.Two(name).0 != 0
    ensures Entity(tables, [AMP] + name + rest, attribute) == (Utf8(tables.Two(name).0) + Utf8(tables.Two(name).1), |name| + 1)
  {
    NameScanned(name, rest);
  }
}
