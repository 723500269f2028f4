/**
 COPY FROM STDIN in pq: rows are encoded into a buffer that is sent as CopyData messages whenever
 it has grown past a limit, and once more at the end.

 `sent` holds the messages written to the connection, each with its five bytes of header.  A write
 may fail, and the server may report an error at any time.
 */
module CopyIn {
  import opened Basics
  import opened Bytea

  const TAB: Byte := 9
  const NEWLINE: Byte := 10
  const RETURN: Byte := 13
  const LETTER_N: Byte := 110
  const LETTER_R: Byte := 114
  const LETTER_T: Byte := 116
  const CAPITAL_N: Byte := 78
  const COPY_DATA: Byte := 100
  const COPY_DONE: Byte := 99
  const FLUSH_SIZE := 64512
  const HEADER := 5

  type Text = seq<Byte>

  predicate Special(b: Byte) {
    b == BACKSLASH || b == NEWLINE || b == RETURN || b == TAB
  }

  /** What the standard formats of numbers, booleans and times consist of: nothing to escape. */
  type Plain = text: Text | forall k :: 0 <= k < |text| ==> !Special(text[k])

  /** A driver.Value: nil, a string, a byte slice, a number, boolean or time by its text, or a type that cannot be encoded. */
  datatype Value = Null | Text(text: Text) | Bytes(bytes: seq<Byte>) | Formatted(plain: Plain) | Unsupported

  // ----- The text format -------------------------------------------------------------

  function EscapedChar(b: Byte): Text {
    if b == BACKSLASH then [BACKSLASH, BACKSLASH]
    else if b == NEWLINE then [BACKSLASH, LETTER_N]
    else if b == RETURN then [BACKSLASH, LETTER_R]
    else if b == TAB then [BACKSLASH, LETTER_T]
    else [b]
  }

  function EscapedText(text: Text): Text {
    if text == [] then [] else EscapedText(text[..|text| - 1]) + EscapedChar(text[|text| - 1])
  }

  lemma {:induction false} PlainText(text: Text)
    requires forall k :: 0 <= k < |text| ==> !Special(text[k])
    ensures EscapedText(text) == text
  {
    if text != [] {
      PlainText(text[..|text| - 1]);
      assert text == text[..|text| - 1] + [text[|text| - 1]];
    }
  }

  /** The scan for the first byte to escape; the length if there is none. */
  method FirstSpecial(text: Text) returns (i: nat)
    ensures i <= |text| && (i < |text| ==> Special(text[i]))
    ensures forall k :: 0 <= k < i ==> !Special(text[k])
  {
    i := 0;
    while i < |text| && !Special(text[i])
      invariant 0 <= i <= |text| && forall k :: 0 <= k < i ==> !Special(text[k])
    {
      i := i + 1;
    }
  }

  method AppendChar(buf: Text, c: Byte) returns (result: Text)
    ensures result == buf + EscapedChar(c)
  {
    if c == BACKSLASH { result := buf + [BACKSLASH, BACKSLASH]; }
    else if c == NEWLINE { result := buf + [BACKSLASH, LETTER_N]; }
    else if c == RETURN { result := buf + [BACKSLASH, LETTER_R]; }
    else if c == TAB { result := buf + [BACKSLASH, LETTER_T]; }
    else { result := buf + [c]; }
  }

  lemma EscapedNext(buf: Text, text: Text, i: nat)
    requires i < |text|
    ensures buf + EscapedText(text[..i]) + EscapedChar(text[i]) == buf + EscapedText(text[..i + 1])
  {
    assert text[..i + 1][..i] == text[..i];
  }

  method AppendEscapedText(buf: Text, text: Text) returns (result: Text)
    ensures result == buf + EscapedText(text)
  {
    var startPos := FirstSpecial(text);
    if startPos == |text| {
      PlainText(text);
      return buf + text;
    }
    PlainText(text[..startPos]);
    result := buf + text[..startPos];
    var i := startPos;
    while i < |text|
      invariant startPos <= i <= |text|
      invariant result == buf + EscapedText(text[..i])
    {
      EscapedNext(buf, text, i);
      result := AppendChar(result, text[i]);
      i := i + 1;
    }
    assert text[..|text|] == text;
  }

  /** The text that a value stands for; none for NULL. */
  function TextOf(serverVersion: int, v: Value): Text {
    match v
    case Text(text) => text
    case Bytes(bytes) => Encoded(serverVersion, bytes)
    case Formatted(plain) => plain
    case _ => []
  }

  function EncodedValue(serverVersion: int, v: Value): Text {
    if v == Null then [BACKSLASH, CAPITAL_N] else EscapedText(TextOf(serverVersion, v))
  }

  method AppendEncodedText(serverVersion: int, buf: Text, v: Value) returns (ok: bool, result: Text)
    ensures ok == (v != Unsupported)
    ensures result == if ok then buf + EncodedValue(serverVersion, v) else buf
  {
    match v {
      case Null => return true, buf + [BACKSLASH, CAPITAL_N];
      case Text(text) =>
        result := AppendEscapedText(buf, text);
        return true, result;
      case Bytes(bytes) =>
        var encoded := EncodeBytea(serverVersion, bytes);
        result := AppendEscapedText(buf, encoded);
        return true, result;
      case Formatted(plain) =>
        PlainText(plain);
        return true, buf + plain;
      case Unsupported => return false, buf;
    }
  }

  /** The values of a row, each encoded. */
  function FieldsOf(serverVersion: int, row: seq<Value>): (fields: seq<Text>)
    ensures |fields| == |row| && forall k :: 0 <= k < |row| ==> fields[k] == EncodedValue(serverVersion, row[k])
  {
    seq(|row|, k requires 0 <= k < |row| => EncodedValue(serverVersion, row[k]))
  }

  /** The first n fields, each followed by its separator. */
  function Ended(fields: seq<Text>, n: nat): Text
    requires n <= |fields|
  {
    if n == 0 then [] else Ended(fields, n - 1) + fields[n - 1] + [if n == |fields| then NEWLINE else TAB]
  }

  function EncodedCells(serverVersion: int, row: seq<Value>, n: nat): Text
    requires n <= |row|
  {
    Ended(FieldsOf(serverVersion, row), n)
  }

  function EncodedRow(serverVersion: int, row: seq<Value>): Text {
    EncodedCells(serverVersion, row, |row|)
  }

  /** The first n of several texts, one after the other. */
  function UpTo(texts: seq<Text>, n: nat): Text
    requires n <= |texts|
  {
    if n == 0 then [] else UpTo(texts, n - 1) + texts[n - 1]
  }

  ghost predicate IsRow(serverVersion: int, rows: seq<seq<Value>>, texts: seq<Text>, k: nat)
    requires k < |rows| && k < |texts|
  {
    texts[k] == EncodedRow(serverVersion, rows[k])
  }

  /** The texts are those of the rows. */
  ghost predicate AreRows(serverVersion: int, rows: seq<seq<Value>>, texts: seq<Text>) {
    |texts| == |rows| && forall k {:trigger IsRow(serverVersion, rows, texts, k)} :: 0 <= k < |rows| ==> IsRow(serverVersion, rows, texts, k)
  }

  /** The number of values before the first that cannot be encoded. */
  function Supported(row: seq<Value>): (n: nat)
    ensures n <= |row| && (n < |row| ==> row[n] == Unsupported)
    ensures forall k :: 0 <= k < n ==> row[k] != Unsupported
  {
    if row == [] || row[0] == Unsupported then 0 else 1 + Supported(row[1..])
  }

  // ----- Messages --------------------------------------------------------------------

  /** binary.BigEndian.PutUint32 of the length, cut to 32 bits. */
  function LengthField(n: nat): seq<Byte> {
    [n / 256 / 256 / 256 % 256, n / 256 / 256 % 256, n / 256 % 256, n % 256]
  }

  function ReadLength(a: int, b: int, c: int, d: int): int {
    ((a * 256 + b) * 256 + c) * 256 + d
  }

  /** A length is read back exactly when it fits the field. */
  lemma LengthReads(n: nat)
    ensures var f := LengthField(n); ReadLength(f[0], f[1], f[2], f[3]) == n <==> n < 0x1_0000_0000
  {
    var p := n / 256;
    var q := p / 256;
    var r := q / 256;
    assert n == 256 * p + n % 256 && p == 256 * q + p % 256 && q == 256 * r + q % 256;
  }

  function Message(payload: Text): Text {
    [COPY_DATA] + LengthField(|payload| + 4) + payload
  }

  ghost predicate Framed(m: Text) {
    |m| >= HEADER && m == Message(m[HEADER..])
  }

  ghost predicate AllFramed(sent: seq<Text>) {
    forall k :: 0 <= k < |sent| ==> Framed(sent[k])
  }

  ghost function Payloads(sent: seq<Text>): Text
    requires AllFramed(sent)
  {
    if sent == [] then [] else sent[0][HEADER..] + Payloads(sent[1..])
  }

  /** Every message's length fits its field. */
  ghost predicate AllFit(sent: seq<Text>) {
    forall k :: 0 <= k < |sent| ==> |sent[k]| - 1 < 0x1_0000_0000
  }

  lemma {:induction false} PayloadsSnoc(sent: seq<Text>, m: Text)
    requires AllFramed(sent) && Framed(m)
    ensures AllFramed(sent + [m]) && Payloads(sent + [m]) == Payloads(sent) + m[HEADER..]
  {
    if sent == [] {
      assert ([m] + [])[1..] == [] && sent + [m] == [m];
    } else {
      PayloadsSnoc(sent[1..], m);
      assert (sent + [m])[1..] == sent[1..] + [m];
    }
  }

  // ----- Buffering -------------------------------------------------------------------

  datatype Outcome = Done | Closed | ServerError | EncodeError | WriteError
    /** waits for the end of a COPY that has ended before, and so for ever */
    | Stuck

  class CopyIn {
    const serverVersion: int
    var buffer: Text
    var closed: bool
    var errorSet: bool
    var sent: seq<Text>
    /** CopyDone has been sent */
    var ended: bool
    /** a write failed: the connection cannot be used any more */
    var broken: bool
    /** all the text that was encoded so far */
    ghost var text: Text

    /** Until the end, what was sent and what is in the buffer is the text, nothing twice and nothing left out. */
    ghost predicate Valid()
      reads this
    {
      && |buffer| >= HEADER && buffer[0] == COPY_DATA && AllFramed(sent)
      && (!broken && !ended ==> text == Payloads(sent) + buffer[HEADER..])
    }

    constructor (version: int)
      ensures Valid() && serverVersion == version && sent == [] && text == [] && |buffer| <= FLUSH_SIZE
      ensures !closed && !errorSet && !ended && !broken
    {
      serverVersion := version;
      buffer := [COPY_DATA, 0, 0, 0, 0];
      closed, errorSet, ended, broken := false, false, false, false;
      sent, text := [], [];
    }

    /** The length goes into the buffer itself; then the write, which may fail. */
    method Flush() returns (ok: bool)
      requires |buffer| >= HEADER && buffer[0] == COPY_DATA && AllFramed(sent)
      modifies this`buffer, this`sent, this`broken
      ensures buffer == Message(old(buffer)[HEADER..]) && buffer[HEADER..] == old(buffer)[HEADER..]
      ensures broken == (old(broken) || !ok)
      ensures sent == if ok then old(sent) + [buffer] else old(sent)
      ensures AllFramed(sent) && (ok ==> Payloads(sent) == Payloads(old(sent)) + old(buffer)[HEADER..])
      ensures AllFit(old(sent)) && old(|buffer|) <= 0x1_0000_0000 ==> AllFit(sent)
    {
      buffer := [buffer[0]] + LengthField(|buffer| - 1) + buffer[HEADER..];
      assert buffer[HEADER..] == old(buffer)[HEADER..];
      ok := *;
      if !ok {
        broken := true;
      } else {
        PayloadsSnoc(sent, buffer);
        sent := sent + [buffer];
      }
    }

    /** One turn of the loop over a row: the value, and a tab unless it is the last. */
    method AppendCell(v: Value, more: bool) returns (ok: bool)
      modifies this`buffer
      ensures ok == (v != Unsupported)
      ensures ok ==> buffer == old(buffer) + EncodedValue(serverVersion, v) + if more then [TAB] else []
      ensures !ok ==> buffer == old(buffer)
    {
      ok, buffer := AppendEncodedText(serverVersion, buffer, v);
      if ok && more { buffer := buffer + [TAB]; }
    }

    /** The loop over the values of a row. */
    method AppendRow(v: seq<Value>) returns (ok: bool)
      requires v != []
      modifies this`buffer
      ensures ok == (Supported(v) == |v|)
      ensures buffer == old(buffer) + EncodedCells(serverVersion, v, Supported(v))
    {
      ghost var fields := FieldsOf(serverVersion, v);
      var i := 0;
      while i < |v|
        invariant 0 <= i <= |v| && i <= Supported(v)
        invariant buffer == SoFar(old(buffer), fields, i)
      {
        SupportedAt(v, i);
        SoFarCells(old(buffer), fields, i);
        ok := AppendCell(v[i], i < |v| - 1);
        if !ok { return false; }
        i := i + 1;
      }
      SoFarEnd(old(buffer), fields);
      buffer := buffer + [NEWLINE];
      return true;
    }

    /** The row goes into the buffer, up to the first value that cannot be encoded. */
    method AddRow(v: seq<Value>) returns (ok: bool)
      requires Valid() && v != []
      modifies this`buffer, this`text
      ensures Valid() && ok == (Supported(v) == |v|)
      ensures text == old(text) + EncodedCells(serverVersion, v, Supported(v))
      ensures |buffer| == |old(buffer)| + |EncodedCells(serverVersion, v, Supported(v))|
    {
      ok := AppendRow(v);
      ghost var cells := EncodedCells(serverVersion, v, Supported(v));
      Kept(old(buffer), cells, Payloads(sent));
      text := text + cells;
    }

    /** Flush when the buffer has grown past the limit; keep the bytes of the header. */
    method FlushIfFull() returns (ok: bool)
      requires Valid()
      modifies this`buffer, this`sent, this`broken
      ensures Valid() && (ok ==> broken == old(broken) && |buffer| <= FLUSH_SIZE)
      ensures AllFit(old(sent)) && old(|buffer|) <= 0x1_0000_0000 ==> AllFit(sent)
    {
      if |buffer| > FLUSH_SIZE {
        ok := Flush();
        if ok { buffer := buffer[..HEADER]; }
      } else {
        ok := true;
      }
    }

    /** One row, or with no values the end; `serverError` is an error that the server has reported by now. */
    method Exec(v: seq<Value>, serverError: bool) returns (outcome: Outcome)
      requires Valid()
      modifies this
      ensures Valid() && (outcome == Closed <==> old(closed))
      ensures outcome == Closed || (outcome == ServerError && v != []) ==> sent == old(sent) && text == old(text)
      ensures v == [] ==> text == old(text)
      ensures v == [] && outcome == Done ==> !old(ended) && ended && closed && (!broken ==> Payloads(sent) == text)
      ensures v != [] ==> closed == old(closed) && ended == old(ended)
      ensures !old(closed) && !old(errorSet) && !serverError && Supported(v) < |v| ==> outcome == EncodeError
      ensures outcome == EncodeError ==>
        Supported(v) < |v| && sent == old(sent) && text == old(text) + EncodedCells(serverVersion, v, Supported(v))
      ensures outcome == Done ==> broken == old(broken)
      ensures v != [] && outcome == Done ==>
        Supported(v) == |v| && text == old(text) + EncodedRow(serverVersion, v) && |buffer| <= FLUSH_SIZE
      ensures AllFit(old(sent)) && old(|buffer|) + |EncodedCells(serverVersion, v, Supported(v))| <= 0x1_0000_0000 ==> AllFit(sent)
    {
      if closed { return Closed; }
      if serverError { errorSet := true; }
      if errorSet { return ServerError; }
      if v == [] {
        outcome := Close(serverError);
        if outcome != Stuck { closed := true; }
        return;
      }
      var encoded := AddRow(v);
      if !encoded { return EncodeError; }
      var written := FlushIfFull();
      return if written then Done else WriteError;
    }

    /** The rest of the buffer, CopyDone, and the wait for the server, whose error it returns. */
    method Close(serverError: bool) returns (outcome: Outcome)
      requires Valid()
      modifies this
      ensures Valid() && closed == old(closed) && text == old(text) && buffer[HEADER..] == old(buffer[HEADER..])
      ensures outcome == Closed <==> old(closed)
      ensures outcome == Closed ==> sent == old(sent)
      ensures outcome == Stuck ==> old(ended)
      ensures outcome == Done || outcome == ServerError ==> !old(ended) && (!broken ==> Payloads(sent) == text)
      ensures outcome == Done || outcome == ServerError || outcome == Stuck ==>
        ended && broken == old(broken) && Payloads(sent) == Payloads(old(sent)) + old(buffer[HEADER..])
      ensures outcome != EncodeError
      ensures AllFit(old(sent)) && old(|buffer|) <= 0x1_0000_0000 ==> AllFit(sent)
    {
      if closed { return Closed; }
      if |buffer| > 0 {
        var written := Flush();
        if !written { return WriteError; }
      }
      var written: bool := *;
      if !written {
        broken := true;
        return WriteError;
      }
      if ended { return Stuck; }
      ended := true;
      if serverError { errorSet := true; }
      if errorSet { return ServerError; }
      return Done;
    }
  }

  /** The rows from i on, one Exec each, and the Exec without values that ends the statement. */
  method CopyRows(ci: CopyIn, rows: seq<seq<Value>>, ghost texts: seq<Text>, i: nat) returns (ok: bool)
    requires ci.Valid() && !ci.closed && !ci.ended && !ci.broken && |ci.buffer| <= FLUSH_SIZE
    requires AreRows(ci.serverVersion, rows, texts) && i <= |rows| && ci.text == UpTo(texts, i)
    requires forall k :: 0 <= k < |rows| ==> |rows[k]| > 0
    modifies ci
    ensures ci.Valid()
    ensures ok ==> Payloads(ci.sent) == UpTo(texts, |texts|)
    ensures ok ==> forall k :: i <= k < |rows| ==> Supported(rows[k]) == |rows[k]|
    ensures ok && AllFit(old(ci.sent)) && (forall k :: 0 <= k < |texts| ==> |texts[k]| <= 0x1_0000_0000 - FLUSH_SIZE)
      ==> AllFit(ci.sent)
    decreases |rows| - i
  {
    if i == |rows| {
      ok := EndRows(ci);
    } else {
      ok := CopyRow(ci, rows, texts, i);
      if ok { ok := CopyRows(ci, rows, texts, i + 1); }
    }
  }

  method CopyRow(ci: CopyIn, rows: seq<seq<Value>>, ghost texts: seq<Text>, i: nat) returns (ok: bool)
    requires ci.Valid() && !ci.closed && !ci.ended && !ci.broken && |ci.buffer| <= FLUSH_SIZE
    requires AreRows(ci.serverVersion, rows, texts) && i < |rows| && |rows[i]| > 0
    modifies ci
    ensures ci.Valid()
    ensures ok ==> !ci.closed && !ci.ended && !ci.broken && |ci.buffer| <= FLUSH_SIZE
    ensures ok ==> Supported(rows[i]) == |rows[i]| && ci.text == old(ci.text) + texts[i]
    ensures ok && |texts[i]| <= 0x1_0000_0000 - FLUSH_SIZE && AllFit(old(ci.sent)) ==> AllFit(ci.sent)
  {
    assert IsRow(ci.serverVersion, rows, texts, i);
    var serverError: bool := *;
    var outcome := ci.Exec(rows[i], serverError);
    ok := outcome == Done;
  }

  method EndRows(ci: CopyIn) returns (ok: bool)
    requires ci.Valid() && !ci.closed && !ci.ended && !ci.broken && |ci.buffer| <= FLUSH_SIZE
    modifies ci
    ensures ci.Valid()
    ensures ok ==> Payloads(ci.sent) == old(ci.text)
    ensures AllFit(old(ci.sent)) ==> AllFit(ci.sent)
  {
    var serverError: bool := *;
    var outcome := ci.Exec([], serverError);
    ok := outcome == Done;
  }

  /** A Close that Exec did not make leaves the statement open: the next Close sends the rest of the buffer again. */
  method CloseTwice(ci: CopyIn) returns (first: Outcome, second: Outcome)
    requires ci.Valid() && !ci.closed && !ci.ended && !ci.broken
    modifies ci
    ensures ci.Valid() && second != Done && second != Closed
    ensures second == Stuck ==> Payloads(ci.sent) == old(ci.text) + old(ci.buffer[HEADER..])
  {
    var serverError: bool := *;
    first := ci.Close(serverError);
    second := first;
    if first == Done || first == ServerError {
      second := ci.Close(serverError);
    }
  }

  /** The buffer after i turns of that loop; the newline comes after it. */
  ghost function SoFar(base: Text, fields: seq<Text>, i: nat): Text
    requires i <= |fields|
    decreases i
  {
    if i == 0 then base
    else SoFar(base, fields, i - 1) + fields[i - 1] + if i < |fields| then [TAB] else []
  }

  lemma Kept(buffer: Text, cells: Text, front: Text)
    requires |buffer| >= HEADER
    ensures front + (buffer + cells)[HEADER..] == front + buffer[HEADER..] + cells
  {
  }

  lemma Regroup(a: Text, b: Text, c: Text, d: Text, e: Text)
    ensures a + b + c + d + e == a + (b + c + (d + e))
    ensures a + b + c + d == a + (b + c + d)
  {
  }

  lemma {:induction false} SoFarCells(base: Text, fields: seq<Text>, i: nat)
    requires i < |fields|
    ensures SoFar(base, fields, i) == base + Ended(fields, i)
  {
    if i > 0 {
      SoFarCells(base, fields, i - 1);
      Regroup(base, Ended(fields, i - 1), fields[i - 1], [TAB], [TAB]);
    }
  }

  lemma SoFarEnd(base: Text, fields: seq<Text>)
    requires fields != []
    ensures SoFar(base, fields, |fields|) + [NEWLINE] == base + Ended(fields, |fields|)
  {
    var n := |fields|;
    SoFarCells(base, fields, n - 1);
    Regroup(base, Ended(fields, n - 1), fields[n - 1], [], [NEWLINE]);
  }

  lemma {:induction false} SupportedAt(v: seq<Value>, i: nat)
    requires i < |v| && i <= Supported(v)
    ensures v[i] == Unsupported <==> Supported(v) == i
  {
    if i > 0 { SupportedAt(v[1..], i - 1); }
  }

  // ----- What the server reads: the messages -----------------------------------------

  /** Everything written, as one stream of bytes, with CopyDone at the end. */
  ghost function Stream(sent: seq<Text>): Text {
    if sent == [] then [COPY_DONE, 0, 0, 0, 4] else sent[0] + Stream(sent[1..])
  }

  /** Message by message, by the length fields; the payloads of the CopyData messages up to CopyDone. */
  function Deframed(s: Text): Option<Text>
    decreases |s|
  {
    if |s| < HEADER then None
    else
      var n := ReadLength(s[1], s[2], s[3], s[4]);
      if n < 4 || n + 1 > |s| then None
      else if s[0] == COPY_DONE then Some([])
      else match Deframed(s[n + 1..]) case None => None case Some(rest) => Some(s[HEADER..n + 1] + rest)
  }

  lemma FirstMessage(m: Text, rest: Text)
    requires Framed(m) && |m| - 1 < 0x1_0000_0000
    ensures Deframed(m + rest) == match Deframed(rest) case None => None case Some(more) => Some(m[HEADER..] + more)
  {
    var s := m + rest;
    var f := LengthField(|m| - 1);
    LengthReads(|m| - 1);
    assert m == [COPY_DATA] + f + m[HEADER..];
    assert s[0] == COPY_DATA && s[1] == f[0] && s[2] == f[1] && s[3] == f[2] && s[4] == f[3];
    assert s[|m|..] == rest && s[HEADER..|m|] == m[HEADER..];
  }

  /** Messages whose lengths fit are read back one by one, and their payloads in order. */
  lemma {:induction false} StreamReads(sent: seq<Text>)
    requires AllFramed(sent) && AllFit(sent)
    ensures Deframed(Stream(sent)) == Some(Payloads(sent))
  {
    if sent != [] {
      StreamReads(sent[1..]);
      FirstMessage(sent[0], Stream(sent[1..]));
    }
  }

  // ----- What the server reads: the rows ---------------------------------------------

  datatype Cell = NullCell | TextCell(text: Text)

  function Unescaped(s: Text): Text {
    if s == [] then []
    else if s[0] == BACKSLASH && |s| >= 2 then
      [if s[1] == LETTER_N then NEWLINE else if s[1] == LETTER_R then RETURN else if s[1] == LETTER_T then TAB else s[1]]
      + Unescaped(s[2..])
    else [s[0]] + Unescaped(s[1..])
  }

  function ReadCell(s: Text): Cell {
    if s == [BACKSLASH, CAPITAL_N] then NullCell else TextCell(Unescaped(s))
  }

  function Split(s: Text, separator: Byte): (r: seq<Text>)
    ensures |r| > 0
  {
    if s == [] then [[]]
    else
      var r := Split(s[1..], separator);
      if s[0] == separator then [[]] + r else [[s[0]] + r[0]] + r[1..]
  }

  function ReadCells(fields: seq<Text>): seq<Cell> {
    if fields == [] then [] else [ReadCell(fields[0])] + ReadCells(fields[1..])
  }

  /** The lines, each ended by a newline; nothing may follow the last. */
  function ReadLines(lines: seq<Text>): seq<seq<Cell>> {
    if |lines| <= 1 then [] else [ReadCells(Split(lines[0], TAB))] + ReadLines(lines[1..])
  }

  function ReadRows(text: Text): seq<seq<Cell>> {
    ReadLines(Split(text, NEWLINE))
  }

  function CellOf(serverVersion: int, v: Value): Cell {
    if v == Null then NullCell else TextCell(TextOf(serverVersion, v))
  }

  lemma {:induction false} EscapedCons(text: Text)
    requires text != []
    ensures EscapedText(text) == EscapedChar(text[0]) + EscapedText(text[1..])
  {
    var n := |text| - 1;
    if n > 0 {
      EscapedCons(text[..n]);
      assert text[..n][1..] == text[1..][..n - 1];
      assert text[1..][n - 1] == text[n];
    }
  }

  lemma {:induction false} UnescapeReads(text: Text)
    ensures Unescaped(EscapedText(text)) == text
  {
    if text != [] {
      EscapedCons(text);
      UnescapeReads(text[1..]);
      UnescapeFirst(text[0], EscapedText(text[1..]));
      assert text == [text[0]] + text[1..];
    }
  }

  lemma UnescapeFirst(b: Byte, rest: Text)
    ensures Unescaped(EscapedChar(b) + rest) == [b] + Unescaped(rest)
  {
    var s := EscapedChar(b) + rest;
    assert s[|EscapedChar(b)|..] == rest;
  }

  /** NULL is distinct from every string. */
  lemma EscapedIsNotNull(text: Text)
    ensures EscapedText(text) != [BACKSLASH, CAPITAL_N]
  {
    if text != [] {
      EscapedCons(text);
      var s := EscapedChar(text[0]) + EscapedText(text[1..]);
      assert s[0] == BACKSLASH ==> s[1] == EscapedChar(text[0])[1];
    }
  }

  predicate Without(s: Text, b: Byte) {
    forall k :: 0 <= k < |s| ==> s[k] != b
  }

  lemma {:induction false} EscapedHasNoSeparator(text: Text)
    ensures Without(EscapedText(text), TAB) && Without(EscapedText(text), NEWLINE)
  {
    if text != [] { EscapedHasNoSeparator(text[..|text| - 1]); }
  }

  lemma CellReads(serverVersion: int, v: Value)
    ensures var e := EncodedValue(serverVersion, v);
      Without(e, TAB) && Without(e, NEWLINE) && ReadCell(e) == CellOf(serverVersion, v)
  {
    var text := TextOf(serverVersion, v);
    EscapedHasNoSeparator(text);
    EscapedIsNotNull(text);
    UnescapeReads(text);
  }

  lemma {:induction false} SplitFirst(field: Text, separator: Byte, rest: Text)
    requires Without(field, separator)
    ensures Split(field + [separator] + rest, separator) == [field] + Split(rest, separator)
  {
    var s := field + [separator] + rest;
    if field == [] {
      assert s[1..] == rest;
    } else {
      SplitFirst(field[1..], separator, rest);
      assert s[1..] == field[1..] + [separator] + rest;
      assert field == [field[0]] + field[1..];
    }
  }

  lemma {:induction false} SplitLast(field: Text, separator: Byte)
    requires Without(field, separator)
    ensures Split(field, separator) == [field]
  {
    if field != [] {
      SplitLast(field[1..], separator);
      assert field == [field[0]] + field[1..];
    }
  }

  // Fields and rows by position, for texts of any kind: from the front and from the back.

  ghost function Line(fields: seq<Text>, i: nat): Text
    requires i < |fields|
    decreases |fields| - i
  {
    if i == |fields| - 1 then fields[i] else fields[i] + [TAB] + Line(fields, i + 1)
  }

  lemma {:induction false} LineEnds(fields: seq<Text>, i: nat)
    requires i < |fields|
    ensures Ended(fields, i) + Line(fields, i) + [NEWLINE] == Ended(fields, |fields|)
    decreases |fields| - i
  {
    if i < |fields| - 1 {
      LineEnds(fields, i + 1);
      Regroup2(Ended(fields, i), fields[i], [TAB], Line(fields, i + 1), [NEWLINE]);
    }
  }

  lemma Regroup2(a: Text, b: Text, c: Text, d: Text, e: Text)
    ensures a + (b + c + d) + e == a + b + c + d + e
  {
  }

  ghost function FromOn(texts: seq<Text>, i: nat): Text
    requires i <= |texts|
    decreases |texts| - i
  {
    if i == |texts| then [] else texts[i] + FromOn(texts, i + 1)
  }

  lemma {:induction false} FrontAndBack(texts: seq<Text>, i: nat)
    requires i <= |texts|
    ensures UpTo(texts, i) + FromOn(texts, i) == UpTo(texts, |texts|)
    decreases |texts| - i
  {
    if i == |texts| {
      assert UpTo(texts, i) + [] == UpTo(texts, i);
    } else {
      FrontAndBack(texts, i + 1);
      Associate(UpTo(texts, i), texts[i], FromOn(texts, i + 1));
    }
  }

  lemma Associate(a: Text, b: Text, c: Text)
    ensures a + b + c == a + (b + c)
  {
  }

  /** Fields without separators are split again, and each is read as a cell. */
  lemma {:induction false} LineReads(fields: seq<Text>, cells: seq<Cell>, i: nat)
    requires i < |fields| == |cells|
    requires forall k :: 0 <= k < |fields| ==> Without(fields[k], TAB) && Without(fields[k], NEWLINE) && ReadCell(fields[k]) == cells[k]
    ensures Without(Line(fields, i), NEWLINE)
    ensures ReadCells(Split(Line(fields, i), TAB)) == cells[i..]
    decreases |fields| - i
  {
    assert cells[i..] == [cells[i]] + cells[i + 1..];
    if i == |fields| - 1 {
      SplitLast(fields[i], TAB);
      FirstCell(fields[i], []);
    } else {
      LineReads(fields, cells, i + 1);
      SplitFirst(fields[i], TAB, Line(fields, i + 1));
      FirstCell(fields[i], Split(Line(fields, i + 1), TAB));
    }
  }

  lemma FirstCell(e: Text, fields: seq<Text>)
    ensures ReadCells([e] + fields) == [ReadCell(e)] + ReadCells(fields)
  {
    assert ([e] + fields)[1..] == fields;
  }

  ghost function CellsOf(serverVersion: int, row: seq<Value>): (cells: seq<Cell>)
    ensures |cells| == |row| && forall k :: 0 <= k < |row| ==> cells[k] == CellOf(serverVersion, row[k])
  {
    if row == [] then [] else [CellOf(serverVersion, row[0])] + CellsOf(serverVersion, row[1..])
  }

  /** A row is one line, read back as its cells. */
  lemma RowReads(serverVersion: int, row: seq<Value>) returns (line: Text)
    requires |row| > 0
    ensures EncodedRow(serverVersion, row) == line + [NEWLINE] && Without(line, NEWLINE)
    ensures ReadCells(Split(line, TAB)) == CellsOf(serverVersion, row)
  {
    var fields := FieldsOf(serverVersion, row);
    var cells := CellsOf(serverVersion, row);
    forall k | 0 <= k < |fields|
      ensures Without(fields[k], TAB) && Without(fields[k], NEWLINE) && ReadCell(fields[k]) == cells[k]
    {
      CellReads(serverVersion, row[k]);
    }
    line := Line(fields, 0);
    LineReads(fields, cells, 0);
    LineEnds(fields, 0);
    assert [] + line == line && cells[0..] == cells;
  }

  ghost function RowsOfCells(serverVersion: int, rows: seq<seq<Value>>): seq<seq<Cell>> {
    if rows == [] then [] else [CellsOf(serverVersion, rows[0])] + RowsOfCells(serverVersion, rows[1..])
  }

  lemma FirstLine(line: Text, lines: seq<Text>)
    requires lines != []
    ensures ReadLines([line] + lines) == [ReadCells(Split(line, TAB))] + ReadLines(lines)
  {
    assert ([line] + lines)[1..] == lines;
  }

  lemma {:induction false} RowsFromRead(serverVersion: int, rows: seq<seq<Value>>, texts: seq<Text>, i: nat)
    requires AreRows(serverVersion, rows, texts) && i <= |rows| && forall k :: 0 <= k < |rows| ==> |rows[k]| > 0
    ensures ReadRows(FromOn(texts, i)) == RowsOfCells(serverVersion, rows[i..])
    decreases |rows| - i
  {
    if i < |rows| {
      RowsFromRead(serverVersion, rows, texts, i + 1);
      var rest := FromOn(texts, i + 1);
      var line := RowReads(serverVersion, rows[i]);
      assert IsRow(serverVersion, rows, texts, i);
      SplitFirst(line, NEWLINE, rest);
      FirstLine(line, Split(rest, NEWLINE));
      assert rows[i..][1..] == rows[i + 1..];
    }
  }

  /** From the encoded rows the server recovers every value of every row, NULL as NULL and strings exactly. */
  lemma RowsRead(serverVersion: int, rows: seq<seq<Value>>, texts: seq<Text>)
    requires AreRows(serverVersion, rows, texts) && forall k :: 0 <= k < |rows| ==> |rows[k]| > 0
    ensures ReadRows(UpTo(texts, |texts|)) == RowsOfCells(serverVersion, rows)
  {
    RowsFromRead(serverVersion, rows, texts, 0);
    FrontAndBack(texts, 0);
    assert [] + FromOn(texts, 0) == FromOn(texts, 0) && rows[0..] == rows;
  }

  // ----- A row that could not be encoded ---------------------------------------------

  lemma {:induction false} EndedSame(f: seq<Text>, h: seq<Text>, n: nat)
    requires n < |f| && n < |h| && f[..n] == h[..n]
    ensures Ended(f, n) == Ended(h, n)
  {
    if n > 0 {
      assert f[..n][n - 1] == h[..n][n - 1];
      assert f[..n - 1] == f[..n][..n - 1] && h[..n - 1] == h[..n][..n - 1];
      EndedSame(f, h, n - 1);
    }
  }

  lemma {:induction false} EndedAppend(g: seq<Text>, h: seq<Text>, n: nat, j: nat)
    requires j <= |g| && |h| == n + |g| && h[n..] == g
    ensures Ended(h, n + j) == Ended(h, n) + Ended(g, j)
  {
    if j == 0 {
      assert Ended(h, n) + [] == Ended(h, n);
    } else {
      EndedAppend(g, h, n, j - 1);
      assert h[n + j - 1] == h[n..][j - 1];
      Regroup(Ended(h, n), Ended(g, j - 1), g[j - 1], [if j == |g| then NEWLINE else TAB], []);
    }
  }

  lemma EndedBoth(f: seq<Text>, n: nat, g: seq<Text>)
    requires n < |f| && |g| > 0
    ensures Ended(f, n) + Ended(g, |g|) == Ended(f[..n] + g, n + |g|)
  {
    var h := f[..n] + g;
    assert h[..n] == f[..n] && h[n..] == g;
    EndedSame(f, h, n);
    EndedAppend(g, h, n, |g|);
  }

  lemma FieldsOfBoth(serverVersion: int, row: seq<Value>, n: nat, next: seq<Value>)
    requires n < |row|
    ensures FieldsOf(serverVersion, row[..n] + next) == FieldsOf(serverVersion, row)[..n] + FieldsOf(serverVersion, next)
  {
    var h, both := FieldsOf(serverVersion, row[..n] + next), FieldsOf(serverVersion, row)[..n] + FieldsOf(serverVersion, next);
    forall k | 0 <= k < |h| ensures h[k] == both[k] {
      if k < n { assert (row[..n] + next)[k] == row[k]; } else { assert (row[..n] + next)[k] == next[k - n]; }
    }
  }

  /**
   What a row that fails at its n-th value leaves in the buffer is not taken back: the next row is
   sent as one row together with it.
   */
  lemma TornRowJoinsNext(serverVersion: int, row: seq<Value>, n: nat, next: seq<Value>)
    requires n < |row| && |next| > 0
    ensures EncodedCells(serverVersion, row, n) + EncodedRow(serverVersion, next) == EncodedRow(serverVersion, row[..n] + next)
  {
    FieldsOfBoth(serverVersion, row, n, next);
    EndedBoth(FieldsOf(serverVersion, row), n, FieldsOf(serverVersion, next));
  }

  /** A row that fails leaves the text as it was if and only if its first value is the one that cannot be encoded. */
  lemma TornIffNotFirst(serverVersion: int, text: Text, row: seq<Value>)
    requires Supported(row) < |row|
    ensures text + EncodedCells(serverVersion, row, Supported(row)) == text <==> row[0] == Unsupported
  {
    var cells := EncodedCells(serverVersion, row, Supported(row));
    assert |text + cells| == |text| + |cells|;
  }

  method ExecFails(ci: CopyIn, v: seq<Value>) returns (outcome: Outcome)
    requires ci.Valid() && !ci.closed && !ci.errorSet && v != []
    modifies ci
    ensures outcome == EncodeError <==> Supported(v) < |v|
    ensures outcome == EncodeError ==> ci.sent == old(ci.sent) && (ci.text == old(ci.text) <==> v[0] == Unsupported)
  {
    outcome := ci.Exec(v, false);
    if outcome == EncodeError { TornIffNotFirst(ci.serverVersion, old(ci.text), v); }
  }
}
