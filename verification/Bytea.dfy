/**
 The text formats of bytea values: hex, and the older escape format.

 The writer picks one by the server's version; the reader tells them apart by the first two bytes.
 */
module Bytea {
  import opened Basics

  type Byte = b: int | 0 <= b < 256

  const BACKSLASH: Byte := 92
  const X: Byte := 120
  const HEX_SINCE := 90000

  // ----- Digits ----------------------------------------------------------------------

  function HexDigit(d: int): Byte
    requires 0 <= d < 16
  {
    if d < 10 then 48 + d else 87 + d
  }

  function FromHex(c: Byte): Result<int> {
    if 48 <= c <= 57 then Ok(c - 48)
    else if 97 <= c <= 102 then Ok(c - 87)
    else if 65 <= c <= 70 then Ok(c - 55)
    else Err
  }

  predicate IsOctal(c: Byte) {
    48 <= c <= 55
  }

  /** strconv.ParseInt of three bytes, base 8, in nine bits; then the conversion to a byte. */
  function OctalByte(a: Byte, b: Byte, c: Byte): Result<Byte> {
    if !IsOctal(b) || !IsOctal(c) then Err
    else if a == 43 then Ok(8 * (b - 48) + (c - 48))
    else if a == 45 then Ok(if b == 48 && c == 48 then 0 else 256 - (8 * (b - 48) + (c - 48)))
    else if !IsOctal(a) || a > 51 then Err
    else Ok(64 * (a - 48) + 8 * (b - 48) + (c - 48))
  }

  // ----- Writing ---------------------------------------------------------------------

  function Hex(v: seq<Byte>): seq<Byte> {
    if v == [] then [] else [HexDigit(v[0] / 16), HexDigit(v[0] % 16)] + Hex(v[1..])
  }

  function EscapedByte(b: Byte): seq<Byte> {
    if b == BACKSLASH then [BACKSLASH, BACKSLASH]
    else if b < 32 || b > 126 then [BACKSLASH, 48 + b / 64, 48 + b / 8 % 8, 48 + b % 8]
    else [b]
  }

  function EscapedFrom(v: seq<Byte>): seq<Byte> {
    if v == [] then [] else EscapedByte(v[0]) + EscapedFrom(v[1..])
  }

  function Encoded(serverVersion: int, v: seq<Byte>): seq<Byte> {
    if serverVersion >= HEX_SINCE then [BACKSLASH, X] + Hex(v) else EscapedFrom(v)
  }

  lemma {:induction false} EscapedSnoc(v: seq<Byte>, b: Byte)
    ensures EscapedFrom(v + [b]) == EscapedFrom(v) + EscapedByte(b)
  {
    if v == [] {
      assert EscapedFrom([b]) == EscapedByte(b) + EscapedFrom([b][1..]);
    } else {
      assert (v + [b])[1..] == v[1..] + [b];
      EscapedSnoc(v[1..], b);
    }
  }

  method EncodeBytea(serverVersion: int, v: seq<Byte>) returns (result: seq<Byte>)
    ensures result == Encoded(serverVersion, v)
  {
    if serverVersion >= HEX_SINCE {
      result := [BACKSLASH, X] + Hex(v);
    } else {
      result := [];
      for i := 0 to |v|
        invariant result == EscapedFrom(v[..i])
      {
        var b := v[i];
        assert v[..i + 1] == v[..i] + [b];
        EscapedSnoc(v[..i], b);
        if b == BACKSLASH {
          result := result + [BACKSLASH, BACKSLASH];
        } else if b < 0x20 || b > 0x7e {
          result := result + [BACKSLASH, 48 + b / 64, 48 + b / 8 % 8, 48 + b % 8];
        } else {
          result := result + [b];
        }
      }
      assert v[..|v|] == v;
    }
  }

  // ----- Reading ---------------------------------------------------------------------

  function Joined(done: seq<Byte>, r: Result<seq<Byte>>): Result<seq<Byte>> {
    match r case Ok(v) => Ok(done + v) case Err => Err
  }

  function ReadHex(s: seq<Byte>): Result<seq<Byte>> {
    if s == [] then Ok([])
    else if |s| == 1 || FromHex(s[0]).Err? || FromHex(s[1]).Err? then Err
    else Joined([16 * FromHex(s[0]).value + FromHex(s[1]).value], ReadHex(s[2..]))
  }

  /** One byte or one escape at a time. */
  function ReadEscaped(s: seq<Byte>): Result<seq<Byte>>
    decreases |s|
  {
    if s == [] then Ok([])
    else if s[0] != BACKSLASH then Joined([s[0]], ReadEscaped(s[1..]))
    else if |s| >= 2 && s[1] == BACKSLASH then Joined([BACKSLASH], ReadEscaped(s[2..]))
    else if |s| < 4 || OctalByte(s[1], s[2], s[3]).Err? then Err
    else Joined([OctalByte(s[1], s[2], s[3]).value], ReadEscaped(s[4..]))
  }

  predicate LooksHex(s: seq<Byte>) {
    |s| >= 2 && s[0] == BACKSLASH && s[1] == X
  }

  function Parsed(s: seq<Byte>): Result<seq<Byte>> {
    if LooksHex(s) then ReadHex(s[2..]) else ReadEscaped(s)
  }

  /** A run of raw bytes is read in one go. */
  lemma {:induction false} RawRun(s: seq<Byte>, i: nat)
    requires i <= |s| && forall k :: 0 <= k < i ==> s[k] != BACKSLASH
    ensures ReadEscaped(s) == Joined(s[..i], ReadEscaped(s[i..]))
  {
    if i == 0 {
      assert s[..0] == [] && s[0..] == s;
      JoinedNothing(ReadEscaped(s));
    } else {
      RawRun(s[1..], i - 1);
      assert s[1..][i - 1..] == s[i..];
      assert s[..i] == [s[0]] + s[1..][..i - 1];
      JoinedTwice([s[0]], s[1..][..i - 1], ReadEscaped(s[i..]));
    }
  }

  lemma JoinedNothing(r: Result<seq<Byte>>)
    ensures Joined([], r) == r
  {
    if r.Ok? { assert [] + r.value == r.value; }
  }

  lemma JoinedTwice(a: seq<Byte>, b: seq<Byte>, r: Result<seq<Byte>>)
    ensures Joined(a, Joined(b, r)) == Joined(a + b, r)
  {
    if r.Ok? { assert a + (b + r.value) == a + b + r.value; }
  }

  method IndexBackslash(s: seq<Byte>) returns (i: int)
    ensures i == -1 ==> forall k :: 0 <= k < |s| ==> s[k] != BACKSLASH
    ensures i != -1 ==> 0 <= i < |s| && s[i] == BACKSLASH && forall k :: 0 <= k < i ==> s[k] != BACKSLASH
  {
    i := 0;
    while i < |s|
      invariant 0 <= i <= |s| && forall k :: 0 <= k < i ==> s[k] != BACKSLASH
    {
      if s[i] == BACKSLASH { return; }
      i := i + 1;
    }
    i := -1;
  }

  /** One turn of the escape reader's loop: what it appends, and what it leaves. */
  method ReadPiece(s: seq<Byte>) returns (ok: bool, piece: seq<Byte>, rest: seq<Byte>)
    requires s != []
    ensures ReadEscaped(s) == if ok then Joined(piece, ReadEscaped(rest)) else Err
    ensures ok ==> |rest| < |s|
  {
    ok, piece, rest := true, [], s;
    if s[0] == BACKSLASH {
      if |s| >= 2 && s[1] == BACKSLASH {
        return true, [BACKSLASH], s[2..];
      }
      if |s| < 4 { return false, [], s; }
      var r := OctalByte(s[1], s[2], s[3]);
      if r.Err? { return false, [], s; }
      return true, [r.value], s[4..];
    } else {
      var i := IndexBackslash(s);
      if i == -1 {
        RawRun(s, |s|);
        assert s[..|s|] == s && s[|s|..] == [];
        return true, s, [];
      }
      RawRun(s, i);
      return true, s[..i], s[i..];
    }
  }

  method ParseBytea(input: seq<Byte>) returns (r: Result<seq<Byte>>)
    ensures r == Parsed(input)
  {
    if |input| >= 2 && input[0] == BACKSLASH && input[1] == X {
      return ReadHex(input[2..]);
    }
    var s, result := input, [];
    JoinedNothing(ReadEscaped(input));
    while |s| > 0
      invariant ReadEscaped(input) == Joined(result, ReadEscaped(s))
      decreases |s|
    {
      var ok, piece, rest := ReadPiece(s);
      if !ok { return Err; }
      JoinedTwice(result, piece, ReadEscaped(rest));
      result, s := result + piece, rest;
    }
    assert result + [] == result;
    return Ok(result);
  }

  // ----- The round trip --------------------------------------------------------------

  lemma {:induction false} HexReads(v: seq<Byte>)
    ensures ReadHex(Hex(v)) == Ok(v)
  {
    if v != [] {
      HexReads(v[1..]);
      assert Hex(v)[2..] == Hex(v[1..]);
      assert v == [v[0]] + v[1..];
    }
  }

  lemma OctalEscapeReads(b: Byte, rest: seq<Byte>)
    ensures ReadEscaped([BACKSLASH, 48 + b / 64, 48 + b / 8 % 8, 48 + b % 8] + rest) == Joined([b], ReadEscaped(rest))
  {
    var s := [BACKSLASH, 48 + b / 64, 48 + b / 8 % 8, 48 + b % 8] + rest;
    assert OctalByte(s[1], s[2], s[3]) == Ok(b);
    assert s[4..] == rest;
  }

  lemma EscapeReads(b: Byte, rest: seq<Byte>)
    ensures ReadEscaped(EscapedByte(b) + rest) == Joined([b], ReadEscaped(rest))
  {
    if b != BACKSLASH && (b < 32 || b > 126) {
      OctalEscapeReads(b, rest);
    } else {
      var s := EscapedByte(b) + rest;
      assert s[|EscapedByte(b)|..] == rest;
    }
  }

  lemma {:induction false} EscapedReads(v: seq<Byte>)
    ensures ReadEscaped(EscapedFrom(v)) == Ok(v)
  {
    if v != [] {
      EscapedReads(v[1..]);
      EscapeReads(v[0], EscapedFrom(v[1..]));
      assert v == [v[0]] + v[1..];
    }
  }

  lemma EscapedNeverLooksHex(v: seq<Byte>)
    ensures !LooksHex(EscapedFrom(v))
  {
  }

  /** Whatever the server's version, the reader gives back every byte string that was written. */
  lemma ByteaRoundTrip(serverVersion: int, v: seq<Byte>)
    ensures Parsed(Encoded(serverVersion, v)) == Ok(v)
  {
    HexReads(v);
    EscapedReads(v);
    EscapedNeverLooksHex(v);
    assert ([BACKSLASH, X] + Hex(v))[2..] == Hex(v);
  }

  // ----- Which format ------------------------------------------------------------------

  /** `\\x` */
  predicate StartsHex(s: seq<Byte>) {
    |s| >= 2 && s[0] == '\\' as int && s[1] == 'x' as int
  }

  /** Servers from 9.0 on are given hex, and earlier ones never what looks like it. */
  lemma HexIff(serverVersion: int, v: seq<Byte>)
    ensures StartsHex(Encoded(serverVersion, v)) <==> serverVersion >= 90000
  {
    EscapedNeverLooksHex(v);
  }

  predicate IsLowerHex(c: Byte) {
    '0' as int <= c <= '9' as int || 'a' as int <= c <= 'f' as int
  }

  predicate IsPrintable(c: Byte) {
    ' ' as int <= c <= '~' as int
  }

  lemma {:induction false} HexIsLower(v: seq<Byte>, k: nat)
    requires k < |Hex(v)|
    ensures |Hex(v)| == 2 * |v| && IsLowerHex(Hex(v)[k])
  {
    if k >= 2 { HexIsLower(v[1..], k - 2); } else if |v| > 1 { HexIsLower(v[1..], 0); }
  }

  /** The older format is printable ASCII, and leaves that as it is but for the backslash. */
  lemma {:induction false} EscapedIsPrintable(v: seq<Byte>)
    ensures forall k :: 0 <= k < |EscapedFrom(v)| ==> IsPrintable(EscapedFrom(v)[k])
    ensures EscapedFrom(v) == v <==> forall k :: 0 <= k < |v| ==> IsPrintable(v[k]) && v[k] != '\\' as int
    ensures |EscapedFrom(v)| >= |v|
  {
    if v != [] {
      EscapedIsPrintable(v[1..]);
      var first, rest := EscapedByte(v[0]), EscapedFrom(v[1..]);
      assert forall k :: 0 < k < |v| ==> v[k] == v[1..][k - 1];
      if first == [v[0]] {
        assert EscapedFrom(v)[1..] == rest && v == [v[0]] + v[1..];
      } else {
        assert |EscapedFrom(v)| > |v|;
      }
    }
  }

  lemma BackslashIsDoubled()
    ensures EscapedFrom(['\\' as int]) == ['\\' as int, '\\' as int]
  {
    assert ['\\' as int][1..] == [];
  }

  /** Hexadecimal digits are read in either case, and nothing else is. */
  lemma HexDigitsRead(c: Byte)
    ensures FromHex(c).Ok? <==> '0' as int <= c <= '9' as int || 'a' as int <= c <= 'f' as int || 'A' as int <= c <= 'F' as int
    ensures FromHex(c).Ok? ==> 0 <= FromHex(c).value < 16 && (HexDigit(FromHex(c).value) == c || HexDigit(FromHex(c).value) == c + 32)
  {
  }

  /** An octal escape has up to 255; a sign for its first digit is read too, and a minus sign takes the value from 256. */
  lemma OctalReads(a: Byte, b: Byte, c: Byte)
    ensures OctalByte('+' as int, b, c) == OctalByte('0' as int, b, c)
    ensures OctalByte('-' as int, b, c).Ok? <==> OctalByte('0' as int, b, c).Ok?
    ensures OctalByte('-' as int, b, c).Ok? ==> (OctalByte('-' as int, b, c).value + OctalByte('0' as int, b, c).value) % 256 == 0
    ensures OctalByte(a, b, c).Ok? <==> '0' as int <= b <= '7' as int && '0' as int <= c <= '7' as int && (a == '+' as int || a == '-' as int || '0' as int <= a <= '3' as int)
  {
  }
}
