/**
 Version 1 UUIDs of simpleuuid: the time fields of section 4.1.2 of RFC 4122 filled from an instant,
 read back, compared, printed and parsed.
 */
module Uuid {
  import opened Basics
  import opened Bytea
  import Arithmetic

  /** 15 October 1582 to 1 January 1970, in units of 100 ns. */
  const GREGORIAN_EPOCH := 0x01B21DD213814000
  const SIZE := 16
  const DASH: Byte := 45

  type Int64 = n: int | -0x8000_0000_0000_0000 <= n < 0x8000_0000_0000_0000

  /** What a product in int64 leaves. */
  function Wrap64(x: int): Int64 {
    (x + 0x8000_0000_0000_0000) % 0x1_0000_0000_0000_0000 - 0x8000_0000_0000_0000
  }

  /** Go's division, toward zero. */
  function Hundreds(ns: Int64): int {
    var n: int := ns;
    if n >= 0 then n / 100 else -((-n) / 100)
  }

  /** The instant, cut toward zero to 100 ns. */
  function Truncated(ns: Int64): int {
    Hundreds(ns) * 100
  }

  function FromUnixNano(ns: Int64): int {
    Hundreds(ns) + GREGORIAN_EPOCH
  }

  /** The 60-bit field holds every time: none is negative and no high bit is lost. */
  lemma TimeFits(ns: Int64)
    ensures 0 < FromUnixNano(ns) < 0x1000_0000_0000_0000
    ensures -0x8000_0000_0000_0000 <= Truncated(ns) < 0x8000_0000_0000_0000
  {
  }

  // ----- Bytes of a time -------------------------------------------------------------

  /** The k-th byte from the right. */
  function ByteAt(t: nat, k: nat): Byte {
    if k == 0 then t % 256 else ByteAt(t / 256, k - 1)
  }

  /** The last 8 bytes: the tail, aligned to the right, with the variant in the first. */
  function TailOf(tail: seq<Byte>): seq<Byte>
    requires |tail| <= 8
  {
    var padded := Zeros(8 - |tail|) + tail;
    [padded[0] % 16 + 128] + padded[1..]
  }

  function Zeros(n: nat): (z: seq<Byte>)
    ensures |z| == n && forall k :: 0 <= k < n ==> z[k] == 0
  {
    if n == 0 then [] else [0] + Zeros(n - 1)
  }

  /** The bytes 0 to 7: time_low, time_mid, time_hi with the version. */
  function TimeOf(t: nat): seq<Byte> {
    [ByteAt(t, 3), ByteAt(t, 2), ByteAt(t, 1), ByteAt(t, 0),
     ByteAt(t, 5), ByteAt(t, 4), ByteAt(t, 7) % 16 + 16, ByteAt(t, 6)]
  }

  /** binary.BigEndian, of any number of bytes. */
  function Uint(bytes: seq<Byte>): nat {
    if bytes == [] then 0 else Uint(bytes[..|bytes| - 1]) * 256 + bytes[|bytes| - 1]
  }

  lemma UintOfTwo(a: Byte, b: Byte)
    ensures Uint([a, b]) == a as int * 256 + b
  {
    assert [a, b][..1] == [a] && [a][..0] == [];
    assert Uint([a]) == a;
  }

  lemma UintOfFour(a: Byte, b: Byte, c: Byte, d: Byte)
    ensures Uint([a, b, c, d]) == ((a as int * 256 + b) * 256 + c) * 256 + d
  {
    assert [a, b, c, d][..3] == [a, b, c] && [a, b, c][..2] == [a, b];
    UintOfTwo(a, b);
  }

  /** The time of a UUID, in units of 100 ns since 1582. */
  function Time(u: seq<Byte>): nat
    requires |u| == SIZE
  {
    var timeLow := Uint(u[0..4]);
    var timeMid := Uint(u[4..6]);
    var timeHi := Uint([u[6] % 16, u[7]]);
    timeLow + timeMid * 0x1_0000_0000 + timeHi * 0x1_0000_0000_0000
  }

  /** The same in nanoseconds since 1970, in int64. */
  function Nanoseconds(u: seq<Byte>): Int64
    requires |u| == SIZE
  {
    Wrap64((Time(u) - GREGORIAN_EPOCH) * 100)
  }

  lemma FourBytes(t: nat) returns (rest: nat)
    ensures rest == t / 256 / 256 / 256 / 256
    ensures t == ByteAt(t, 0) + 256 * (ByteAt(t, 1) + 256 * (ByteAt(t, 2) + 256 * (ByteAt(t, 3) + 256 * rest)))
    ensures ByteAt(t, 4) == ByteAt(rest, 0) && ByteAt(t, 5) == ByteAt(rest, 1)
    ensures ByteAt(t, 6) == ByteAt(rest, 2) && ByteAt(t, 7) == ByteAt(rest, 3)
  {
    var t1 := t / 256;
    var t2 := t1 / 256;
    var t3 := t2 / 256;
    rest := t3 / 256;
    FourOn(t, 0);
    FourOn(t, 1);
    FourOn(t, 2);
    FourOn(t, 3);
    assert ByteAt(t, 1) == t1 % 256 && ByteAt(t, 2) == ByteAt(t1, 1) == t2 % 256;
    assert ByteAt(t, 3) == ByteAt(t1, 2) == ByteAt(t2, 1) == t3 % 256;
  }

  lemma FourOn(t: nat, k: nat)
    ensures ByteAt(t, k + 4) == ByteAt(t / 256 / 256 / 256 / 256, k)
  {
    assert ByteAt(t, k + 4) == ByteAt(t / 256, k + 3) == ByteAt(t / 256 / 256, k + 2);
    assert ByteAt(t / 256 / 256, k + 2) == ByteAt(t / 256 / 256 / 256, k + 1) == ByteAt(t / 256 / 256 / 256 / 256, k);
  }

  /** Eight bytes, the last first. */
  function Join(low: nat, b4: Byte, b5: Byte, b6: Byte, b7: Byte): nat {
    low + 0x1_0000_0000 * (b4 as int + 256 * (b5 as int + 256 * (b6 as int + 256 * b7 as int)))
  }

  function JoinLow(b0: Byte, b1: Byte, b2: Byte, b3: Byte): nat {
    b0 as int + 256 * (b1 as int + 256 * (b2 as int + 256 * b3 as int))
  }

  /** The time by its bytes. */
  lemma TimeBytes(u: seq<Byte>)
    requires |u| == SIZE
    ensures Time(u) == Join(JoinLow(u[3], u[2], u[1], u[0]), u[5], u[4], u[7], u[6] % 16)
    ensures Time(u) < 0x1000_0000_0000_0000
  {
    assert u[0..4] == [u[0], u[1], u[2], u[3]] && u[4..6] == [u[4], u[5]];
    UintOfFour(u[0], u[1], u[2], u[3]);
    UintOfTwo(u[4], u[5]);
    UintOfTwo(u[6] % 16, u[7]);
  }

  lemma Joined(t: nat)
    requires t < 0x1000_0000_0000_0000
    ensures t == Join(JoinLow(ByteAt(t, 0), ByteAt(t, 1), ByteAt(t, 2), ByteAt(t, 3)), ByteAt(t, 4), ByteAt(t, 5), ByteAt(t, 6), ByteAt(t, 7))
    ensures ByteAt(t, 7) < 16
  {
    var high := FourBytes(t);
    HighBytes(high);
  }

  lemma Nibble(b: Byte)
    requires b < 16
    ensures (b % 16 + 16) as int % 16 == b
  {
  }

  /** A built time is read back: the fields hold all of its bits. */
  lemma TimeReads(t: nat, tail: seq<Byte>)
    requires t < 0x1000_0000_0000_0000 && |tail| == 8
    ensures Time(TimeOf(t) + tail) == t
  {
    Joined(t);
    Nibble(ByteAt(t, 7));
    TimeBytes(TimeOf(t) + tail);
  }

  lemma HighBytes(h: nat)
    requires h < 0x1000_0000
    ensures ByteAt(h, 3) < 16
    ensures h == ByteAt(h, 0) + 256 * (ByteAt(h, 1) + 256 * (ByteAt(h, 2) + 256 * ByteAt(h, 3)))
  {
    var none := FourBytes(h);
    assert h / 256 / 256 / 256 < 16;
    assert none == 0;
  }

  /** Nanoseconds of a built UUID is the instant cut toward zero to 100 ns. */
  lemma TimeRoundTrip(ns: Int64, tail: seq<Byte>)
    requires |tail| <= 8
    ensures Nanoseconds(Built(ns, tail)) == Truncated(ns)
  {
    TimeFits(ns);
    BuiltParts(ns, tail);
    TimeReads(FromUnixNano(ns), TailOf(tail));
  }

  /** The time and zeros, the end of which the tail takes, and the variant. */
  function Built(ns: Int64, tail: seq<Byte>): (u: seq<Byte>)
    requires |tail| <= SIZE
    ensures |u| == SIZE
  {
    TimeFits(ns);
    var filled := (TimeOf(FromUnixNano(ns)) + Zeros(8))[..SIZE - |tail|] + tail;
    filled[8 := filled[8] % 16 + 128]
  }

  /** Up to 8 bytes of tail leave the time alone. */
  lemma BuiltParts(ns: Int64, tail: seq<Byte>)
    requires |tail| <= 8
    ensures FromUnixNano(ns) > 0 && Built(ns, tail) == TimeOf(FromUnixNano(ns)) + TailOf(tail)
  {
    TimeFits(ns);
    var time := TimeOf(FromUnixNano(ns));
    assert (time + Zeros(8))[..SIZE - |tail|] == time + Zeros(8 - |tail|);
  }

  // ----- Filling the buffer ----------------------------------------------------------

  method PutUint16(a: array<Byte>, at: nat, v: nat)
    requires at + 2 <= a.Length
    modifies a
    ensures a[at] == v / 256 % 256 && a[at + 1] == v % 256
    ensures forall k :: 0 <= k < a.Length && !(at <= k < at + 2) ==> a[k] == old(a[k])
  {
    a[at], a[at + 1] := v / 256 % 256, v % 256;
  }

  /** copy(a[at:], bytes) */
  method CopyTo(a: array<Byte>, at: nat, bytes: seq<Byte>)
    requires at + |bytes| <= a.Length
    modifies a
    ensures forall k :: 0 <= k < a.Length ==> a[k] == if at <= k < at + |bytes| then bytes[k - at] else old(a[k])
  {
    var i := 0;
    while i < |bytes|
      invariant 0 <= i <= |bytes|
      invariant forall k :: 0 <= k < a.Length ==> a[k] == if at <= k < at + i then bytes[k - at] else old(a[k])
    {
      a[at + i] := bytes[i];
      i := i + 1;
    }
  }

  lemma LastTwo(t: nat)
    ensures t % 256 == ByteAt(t, 0) && t / 256 % 256 == ByteAt(t, 1)
  {
  }

  lemma TwoOn(t: nat, k: nat)
    ensures ByteAt(t / 0x1_0000, k) == ByteAt(t, k + 2)
  {
    assert t / 0x1_0000 == t / 256 / 256;
    assert ByteAt(t, k + 2) == ByteAt(t / 256, k + 1);
  }

  lemma Quotients(t: nat)
    ensures t / 0x1_0000 / 0x1_0000 == t / 0x1_0000_0000
    ensures t / 0x1_0000_0000 / 0x1_0000 == t / 0x1_0000_0000_0000
  {
  }

  /** The shifts of the source, in bytes. */
  lemma Shifts(t: nat)
    ensures var v := t / 0x1_0000; v % 256 == ByteAt(t, 2) && v / 256 % 256 == ByteAt(t, 3)
    ensures var v := t / 0x1_0000_0000; v % 256 == ByteAt(t, 4) && v / 256 % 256 == ByteAt(t, 5)
    ensures var v := t / 0x1_0000_0000_0000; v % 256 == ByteAt(t, 6) && v / 256 % 256 == ByteAt(t, 7)
  {
    var t1, t2, t3 := t / 0x1_0000, t / 0x1_0000_0000, t / 0x1_0000_0000_0000;
    Quotients(t);
    LastTwo(t1);
    LastTwo(t2);
    LastTwo(t3);
    TwoOn(t, 0);
    TwoOn(t, 1);
    TwoOn(t, 2);
    TwoOn(t, 3);
    TwoOn(t, 4);
    TwoOn(t, 5);
    TwoOn(t1, 0);
    TwoOn(t1, 1);
    TwoOn(t1, 2);
    TwoOn(t1, 3);
    TwoOn(t2, 0);
    TwoOn(t2, 1);
  }

  lemma Masked(x: nat)
    ensures var v := x % 0x1000 + 0x1000; v % 256 == x % 256 && v / 256 % 256 == x / 256 % 256 % 16 + 16
  {
    var q := x / 0x1000;
    var y := x % 0x1000;
    var a := y / 256;
    var b := y % 256;
    Split256(x, 16 * q + a, b);
    Split256(y + 0x1000, a + 16, b);
    LastNibble(16 * q + a, q, a);
  }

  lemma Split256(n: nat, q: nat, r: nat)
    requires n == 256 * q + r && r < 256
    ensures n / 256 == q && n % 256 == r
  {
  }

  lemma LastNibble(n: nat, q: nat, a: nat)
    requires n == 16 * q + a && a < 16
    ensures n % 256 % 16 == a
  {
    var m := n / 256;
    assert n % 256 == 16 * (q - 16 * m) + a;
  }

  /** PutUint32 as two halves; the masks and shifts of the source cut the time into 16-bit groups. */
  method PutTime(a: array<Byte>, ts: nat)
    requires a.Length == SIZE
    modifies a
    ensures a[..8] == TimeOf(ts)
    ensures forall k :: 8 <= k < SIZE ==> a[k] == old(a[k])
  {
    LastTwo(ts);
    Shifts(ts);
    Masked(ts / 0x1_0000_0000_0000);
    PutUint16(a, 0, ts / 0x1_0000);
    PutUint16(a, 2, ts);
    PutUint16(a, 4, ts / 0x1_0000_0000);
    PutUint16(a, 6, ts / 0x1_0000_0000_0000 % 0x1000 + 0x1000);
  }

  /** Up to 16 bytes of tail are taken; more than 8 run over the time. */
  method NewTimeBytes(ns: Int64, bytes: seq<Byte>) returns (r: Result<seq<Byte>>)
    ensures r.Err? <==> |bytes| > SIZE
    ensures |bytes| <= SIZE ==> r == Ok(Built(ns, bytes))
  {
    if |bytes| > SIZE { return Err; }
    TimeFits(ns);
    var me := new Byte[SIZE](_ => 0);
    PutTime(me, FromUnixNano(ns));
    assert me[..] == me[..8] + Zeros(8);
    ghost var before := me[..];
    CopyTo(me, SIZE - |bytes|, bytes);
    assert me[..] == before[..SIZE - |bytes|] + bytes;
    me[8] := me[8] % 16 + 128;
    return Ok(me[..]);
  }

  // ----- Comparing -------------------------------------------------------------------

  /** bytes.Compare */
  function LexCompare(a: seq<Byte>, b: seq<Byte>): int {
    if a == [] && b == [] then 0
    else if a == [] then -1
    else if b == [] then 1
    else if a[0] != b[0] then (if a[0] > b[0] then 1 else -1)
    else LexCompare(a[1..], b[1..])
  }

  function Compare(a: seq<Byte>, b: seq<Byte>): int
    requires |a| == SIZE && |b| == SIZE
  {
    if Nanoseconds(a) > Nanoseconds(b) then 1
    else if Nanoseconds(a) < Nanoseconds(b) then -1
    else LexCompare(a[8..], b[8..])
  }

  lemma {:induction false} LexZero(a: seq<Byte>, b: seq<Byte>)
    ensures LexCompare(a, b) == 0 <==> a == b
    ensures LexCompare(b, a) == -LexCompare(a, b)
  {
    if a != [] && b != [] && a[0] == b[0] {
      LexZero(a[1..], b[1..]);
      assert a == [a[0]] + a[1..] && b == [b[0]] + b[1..];
    }
  }

  lemma {:induction false} LexTransitive(a: seq<Byte>, b: seq<Byte>, c: seq<Byte>)
    requires LexCompare(a, b) <= 0 && LexCompare(b, c) <= 0
    ensures LexCompare(a, c) <= 0
  {
    if a != [] && b != [] && c != [] && a[0] == b[0] == c[0] { LexTransitive(a[1..], b[1..], c[1..]); }
  }

  /** Compare is a total preorder on all UUIDs. */
  lemma CompareIsOrder(a: seq<Byte>, b: seq<Byte>, c: seq<Byte>)
    requires |a| == SIZE && |b| == SIZE && |c| == SIZE
    ensures Compare(b, a) == -Compare(a, b)
    ensures Compare(a, b) <= 0 && Compare(b, c) <= 0 ==> Compare(a, c) <= 0
  {
    LexZero(a[8..], b[8..]);
    if LexCompare(a[8..], b[8..]) <= 0 && LexCompare(b[8..], c[8..]) <= 0 { LexTransitive(a[8..], b[8..], c[8..]); }
  }

  /** Built UUIDs compare by their instants, then by their tails, and as equal only if they are. */
  lemma CompareByTimeThenTail(ns: Int64, tail: seq<Byte>, ms: Int64, other: seq<Byte>)
    requires |tail| <= 8 && |other| <= 8
    ensures Compare(Built(ns, tail), Built(ms, other)) ==
      if Truncated(ns) > Truncated(ms) then 1 else if Truncated(ns) < Truncated(ms) then -1 else LexCompare(TailOf(tail), TailOf(other))
    ensures Compare(Built(ns, tail), Built(ms, other)) == 0 <==> Built(ns, tail) == Built(ms, other)
  {
    TimeRoundTrip(ns, tail);
    TimeRoundTrip(ms, other);
    BuiltParts(ns, tail);
    BuiltParts(ms, other);
    assert Built(ns, tail)[8..] == TailOf(tail) && Built(ms, other)[8..] == TailOf(other);
    LexZero(TailOf(tail), TailOf(other));
  }

  // ----- Times that do not fit -------------------------------------------------------

  /** The times, from September 1677 to April 2262, whose nanoseconds fit int64. */
  const NEAR := 92233720368547758

  predicate Fits(t: nat) {
    -NEAR <= t - GREGORIAN_EPOCH <= NEAR
  }

  lemma ExactIff(u: seq<Byte>)
    requires |u| == SIZE
    ensures Nanoseconds(u) == (Time(u) - GREGORIAN_EPOCH) * 100 <==> Fits(Time(u))
  {
  }

  /** Every other time wraps to the wrong side of the last, or the first, that fits. */
  lemma OthersWrap(t: nat)
    requires t < 0x1000_0000_0000_0000 && !Fits(t)
    ensures t > GREGORIAN_EPOCH ==> Wrap64((t - GREGORIAN_EPOCH) * 100) < NEAR * 100
    ensures t <= GREGORIAN_EPOCH ==> Wrap64((t - GREGORIAN_EPOCH) * 100) > -NEAR * 100
  {
    var d := t - GREGORIAN_EPOCH;
    var k := WrapsBy(d * 100);
    assert k == -1 || k == 0 || k == 1 || k == 2 || k == 3 || k == 4 || k == 5 || k == 6;
  }

  lemma WrapsBy(x: int) returns (k: int)
    ensures Wrap64(x) == x - k * 0x1_0000_0000_0000_0000
  {
    k := (x + 0x8000_0000_0000_0000) / 0x1_0000_0000_0000_0000;
  }

  predicate ByTime(a: seq<Byte>, b: seq<Byte>)
    requires |a| == SIZE && |b| == SIZE
  {
    Compare(a, b) == if Time(a) > Time(b) then 1 else if Time(a) < Time(b) then -1 else LexCompare(a[8..], b[8..])
  }

  function Zero(t: nat): (u: seq<Byte>)
    requires Fits(t)
    ensures |u| == SIZE && Time(u) == t
  {
    TimeReads(t, Zeros(8));
    TimeOf(t) + Zeros(8)
  }

  /** A UUID is ordered by its time among those whose times fit if and only if its own does. */
  lemma OrderedByTimeIff(u: seq<Byte>)
    requires |u| == SIZE
    ensures Fits(Time(u)) <==> forall v: seq<Byte> :: |v| == SIZE && Fits(Time(v)) ==> ByTime(u, v)
  {
    if Fits(Time(u)) {
      forall v: seq<Byte> | |v| == SIZE && Fits(Time(v)) ensures ByTime(u, v) {
        ExactIff(u);
        ExactIff(v);
      }
    } else {
      TimeBytes(u);
      OthersWrap(Time(u));
      var v := Zero(if Time(u) > GREGORIAN_EPOCH then GREGORIAN_EPOCH + NEAR else GREGORIAN_EPOCH - NEAR);
      ExactIff(v);
      assert !ByTime(u, v);
    }
  }

  // ----- Text ------------------------------------------------------------------------

  function Text(u: seq<Byte>): seq<Byte>
    requires |u| == SIZE
  {
    Hex(u[0..4]) + [DASH] + (Hex(u[4..6]) + [DASH] + (Hex(u[6..8]) + [DASH] + (Hex(u[8..10]) + [DASH] + Hex(u[10..16]))))
  }

  function WithoutDashes(s: seq<Byte>): seq<Byte> {
    if s == [] then [] else (if s[0] == DASH then [] else [s[0]]) + WithoutDashes(s[1..])
  }

  function NewString(s: seq<Byte>): Result<seq<Byte>> {
    var normalized := WithoutDashes(s);
    if |normalized| / 2 != SIZE then Err else ReadHex(normalized)
  }

  lemma {:induction false} HexSplits(a: seq<Byte>, b: seq<Byte>)
    ensures Hex(a + b) == Hex(a) + Hex(b) && |Hex(a)| == 2 * |a|
  {
    if a == [] {
      assert a + b == b;
    } else {
      HexSplits(a[1..], b);
      assert (a + b)[1..] == a[1..] + b;
    }
  }

  predicate NoDash(s: seq<Byte>) {
    forall k :: 0 <= k < |s| ==> s[k] != DASH
  }

  lemma {:induction false} HexHasNoDash(a: seq<Byte>)
    ensures NoDash(Hex(a))
  {
    if a != [] { HexHasNoDash(a[1..]); }
  }

  lemma {:induction false} DashesDropped(h: seq<Byte>, rest: seq<Byte>)
    requires NoDash(h)
    ensures WithoutDashes(h + rest) == h + WithoutDashes(rest)
  {
    if h == [] {
      assert h + rest == rest;
    } else {
      DashesDropped(h[1..], rest);
      assert (h + rest)[1..] == h[1..] + rest;
    }
  }

  lemma DashDropped(h: seq<Byte>, rest: seq<Byte>)
    requires NoDash(h)
    ensures WithoutDashes(h + [DASH] + rest) == h + WithoutDashes(rest)
  {
    DashesDropped(h, [DASH] + rest);
    assert h + [DASH] + rest == h + ([DASH] + rest);
    assert ([DASH] + rest)[1..] == rest;
    assert [] + WithoutDashes(rest) == WithoutDashes(rest);
  }

  lemma NextGroup(a: seq<Byte>, b: seq<Byte>, rest: seq<Byte>)
    requires WithoutDashes(rest) == Hex(b)
    ensures WithoutDashes(Hex(a) + [DASH] + rest) == Hex(a + b)
  {
    HexHasNoDash(a);
    DashDropped(Hex(a), rest);
    HexSplits(a, b);
  }

  lemma FiveGroups(a: seq<Byte>, b: seq<Byte>, c: seq<Byte>, d: seq<Byte>, e: seq<Byte>)
    ensures WithoutDashes(Hex(a) + [DASH] + (Hex(b) + [DASH] + (Hex(c) + [DASH] + (Hex(d) + [DASH] + Hex(e)))))
         == Hex(a + (b + (c + (d + e))))
  {
    HexHasNoDash(e);
    DashesDropped(Hex(e), []);
    assert Hex(e) + [] == Hex(e);
    var g3 := Hex(d) + [DASH] + Hex(e);
    NextGroup(d, e, Hex(e));
    var g2 := Hex(c) + [DASH] + g3;
    NextGroup(c, d + e, g3);
    NextGroup(b, c + (d + e), g2);
    NextGroup(a, b + (c + (d + e)), Hex(b) + [DASH] + g2);
  }

  lemma Groups(u: seq<Byte>)
    requires |u| == SIZE
    ensures u[0..4] + (u[4..6] + (u[6..8] + (u[8..10] + u[10..16]))) == u
  {
  }

  /** Every UUID, of any version, is read back from its text. */
  lemma TextRoundTrip(u: seq<Byte>)
    requires |u| == SIZE
    ensures NewString(Text(u)) == Ok(u)
  {
    FiveGroups(u[0..4], u[4..6], u[6..8], u[8..10], u[10..16]);
    Groups(u);
    HexSplits(u, []);
    HexReads(u);
  }

  // ----- The epoch -----------------------------------------------------------------------

  predicate IsLeap(year: nat) {
    year % 4 == 0 && (year % 100 != 0 || year % 400 == 0)
  }

  /** The days of the years from one on, up to another. */
  function DaysOfYears(year: nat, end: nat): nat
    requires year <= end
    decreases end - year
  {
    if year == end then 0 else (if IsLeap(year) then 366 else 365) + DaysOfYears(year + 1, end)
  }

  /** The leap years up to and including one. */
  function LeapYears(year: nat): int {
    year / 4 - year / 100 + year / 400
  }

  lemma NextMultiple(y: nat, n: nat)
    requires y > 0 && (n == 4 || n == 100 || n == 400)
    ensures y / n == (y - 1) / n + if y % n == 0 then 1 else 0
  {
    if n == 4 {} else if n == 100 {} else {}
  }

  lemma LeapStep(year: nat)
    requires year > 0
    ensures LeapYears(year) == LeapYears(year - 1) + if IsLeap(year) then 1 else 0
  {
    NextMultiple(year, 4);
    NextMultiple(year, 100);
    NextMultiple(year, 400);
    MultiplesNest(year);
  }

  lemma MultiplesNest(y: nat)
    ensures y % 400 == 0 ==> y % 100 == 0
    ensures y % 100 == 0 ==> y % 4 == 0
  {
    var q, r := y / 400, y / 100;
    assert y % 400 == 0 ==> y == 100 * (4 * q);
    assert y % 100 == 0 ==> y == 4 * (25 * r);
  }

  lemma {:induction false} DaysAreCounted(year: nat, end: nat)
    requires 0 < year <= end
    ensures DaysOfYears(year, end) == 365 * (end - year) + LeapYears(end - 1) - LeapYears(year - 1)
    decreases end - year
  {
    if year < end {
      LeapStep(year);
      DaysAreCounted(year + 1, end);
    }
  }

  /** The epoch: from 15 October 1582, 17 days to November, that and December, and then the years up to 1970. */
  lemma EpochIsDays(first: nat, end: nat)
    requires first == 1583 && end == 1970
    ensures GREGORIAN_EPOCH == (17 + 30 + 31 + DaysOfYears(first, end)) * 24 * 60 * 60 * 10_000_000
  {
    DaysTo1970(first, end);
  }

  lemma DaysTo1970(first: nat, end: nat)
    requires first == 1583 && end == 1970
    ensures DaysOfYears(first, end) == 387 * 365 + 94
  {
    DaysAreCounted(first, end);
    assert LeapYears(1969) == 492 - 19 + 4 && LeapYears(1582) == 395 - 15 + 3;
  }

  /** The bytes of the first instant of 1970. */
  lemma EpochBytes()
    ensures Built(0, []) == [0x13, 0x81, 0x40, 0x00, 0x1D, 0xD2, 0x11, 0xB2, 0x80, 0, 0, 0, 0, 0, 0, 0]
  {
    BuiltParts(0, []);
    EpochTime();
    assert Zeros(8) + [] == [0, 0, 0, 0, 0, 0, 0, 0];
  }

  lemma EpochTime()
    ensures TimeOf(GREGORIAN_EPOCH) == [0x13, 0x81, 0x40, 0x00, 0x1D, 0xD2, 0x11, 0xB2]
  {
    var t0 := GREGORIAN_EPOCH;
    ByteStep(t0, 0x01B21DD2138140, 0x00, 7);
    ByteStep(0x01B21DD2138140, 0x01B21DD21381, 0x40, 6);
    ByteStep(0x01B21DD21381, 0x01B21DD213, 0x81, 5);
    ByteStep(0x01B21DD213, 0x01B21DD2, 0x13, 4);
    ByteStep(0x01B21DD2, 0x01B21D, 0xD2, 3);
    ByteStep(0x01B21D, 0x01B2, 0x1D, 2);
    ByteStep(0x01B2, 0x01, 0xB2, 1);
  }

  lemma ByteStep(t: nat, q: nat, r: Byte, n: nat)
    requires t == 256 * q + r
    ensures ByteAt(t, 0) == r && forall k: nat :: ByteAt(t, k + 1) == ByteAt(q, k)
  {
    Split256(t, q, r);
  }

  // ----- Rounding, order and text, by themselves ------------------------------------------------

  /** An instant is cut to a multiple of 100 ns, toward 1970 and by less than that. */
  lemma CutTowardZero(ns: Int64)
    ensures Truncated(ns) % 100 == 0
    ensures ns >= 0 ==> 0 <= Truncated(ns) <= ns < Truncated(ns) + 100
    ensures ns <= 0 ==> Truncated(ns) - 100 < ns <= Truncated(ns) <= 0
  {
  }

  /** What is stored of an int64 is the number modulo 2^64. */
  lemma WrapIs(x: int)
    ensures -0x8000_0000_0000_0000 <= x < 0x8000_0000_0000_0000 ==> Wrap64(x) == x
    ensures (x - Wrap64(x)) % 0x1_0000_0000_0000_0000 == 0
  {
  }

  lemma {:induction false} UintBound(a: seq<Byte>)
    ensures Uint(a) < Power(|a|)
  {
    if a != [] { UintBound(a[..|a| - 1]); }
  }

  /** 256^n */
  function Power(n: nat): nat {
    if n == 0 then 1 else 256 * Power(n - 1)
  }

  lemma {:induction false} UintCons(a: seq<Byte>)
    requires a != []
    ensures Uint(a) == Power(|a| - 1) * a[0] as int + Uint(a[1..])
  {
    var n := |a| - 1;
    if n == 0 {
      assert a[..0] == [] && a[1..] == [];
    } else {
      UintCons(a[..n]);
      assert a[..n][1..] == a[1..][..n - 1] && a[1..][n - 1] == a[n];
      Distribute256(a[0], Power(n - 1), Uint(a[..n][1..]));
    }
  }

  lemma Distribute256(x: int, p: int, y: int)
    ensures (p * x + y) * 256 == (256 * p) * x + y * 256
  {
  }

  /** Byte strings of the same length are in the order of the numbers that they are, the first byte first. */
  lemma {:induction false} LexIsOrder(a: seq<Byte>, b: seq<Byte>)
    requires |a| == |b|
    ensures LexCompare(a, b) < 0 <==> Uint(a) < Uint(b)
    ensures LexCompare(a, b) > 0 <==> Uint(a) > Uint(b)
  {
    if a != [] {
      UintCons(a);
      UintCons(b);
      UintBound(a[1..]);
      UintBound(b[1..]);
      FirstDecides(a[0], b[0], Power(|a| - 1), Uint(a[1..]), Uint(b[1..]), Uint(a), Uint(b));
      if a[0] == b[0] { LexIsOrder(a[1..], b[1..]); }
    }
  }

  lemma FirstDecides(x: int, y: int, p: nat, u: nat, v: nat, m: nat, n: nat)
    requires u < p && v < p && m == p * x + u && n == p * y + v
    ensures if x == y then (m < n <==> u < v) && (m > n <==> u > v) else m != n && (x < y <==> m < n)
  {
    if x < y { OneMore(x, y, p, u); }
    if y < x { OneMore(y, x, p, v); }
  }

  lemma OneMore(x: int, y: int, p: nat, u: nat)
    requires x < y && u < p
    ensures p * x + u < p * y
  {
    Arithmetic.MulMono(p, x + 1, y);
    Arithmetic.Distribute(p, x, 1);
  }

  /** The text has dashes in the places of section 3 of RFC 4122, and hexadecimal digits in all others. */
  lemma DashesAre(u: seq<Byte>, k: nat)
    requires |u| == SIZE && k < |Text(u)|
    ensures |Text(u)| == 36
    ensures if k == 8 || k == 13 || k == 18 || k == 23 then Text(u)[k] == '-' as int else IsLowerHex(Text(u)[k])
  {
    DigitsOnly(u[0..4]);
    DigitsOnly(u[4..6]);
    DigitsOnly(u[6..8]);
    DigitsOnly(u[8..10]);
    DigitsOnly(u[10..16]);
  }

  lemma DigitsOnly(v: seq<Byte>)
    ensures |Hex(v)| == 2 * |v| && forall k :: 0 <= k < |Hex(v)| ==> IsLowerHex(Hex(v)[k])
  {
    forall k | 0 <= k < |Hex(v)| ensures IsLowerHex(Hex(v)[k]) { HexIsLower(v, k); }
    if v != [] { HexIsLower(v, 0); }
  }
}
