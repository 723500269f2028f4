/**
 The HTML tokenizer of package html over its sliding buffer.

 `ReadByte` refills the buffer from a reader that may deliver any number of bytes at a time,
 and before that moves the bytes of the current token to the front, or to a larger buffer,
 shifting every span with them.  Seen from outside this is a cursor over a fixed text: the
 ghost field `base` is the offset in the text of the first buffered byte, and every contract
 below speaks about offsets in the text, which relocation does not change.  Each reader is
 proved to find what the functions of HtmlText find in that text.
 */
module Tokenizer {
  import Escape
  import opened HtmlText

  datatype Error = NoError | Eof | NoProgress | BufferExceeded | OtherError

  function ShiftAll(attrs: seq<(Span, Span)>, x: int): (r: seq<(Span, Span)>)
    ensures |r| == |attrs|
    ensures forall i :: 0 <= i < |attrs| ==> r[i] == (attrs[i].0.Shift(x), attrs[i].1.Shift(x))
  {
    seq(|attrs|, i requires 0 <= i < |attrs| => (attrs[i].0.Shift(x), attrs[i].1.Shift(x)))
  }

  /** The spans of a tokenizer, as offsets in the text. */
  datatype Marks = Marks(data: Span, key: Span, value: Span, attrs: seq<(Span, Span)>)

  method SameWord(name: seq<byte>, word: seq<byte>) returns (same: bool)
    ensures same <==> Lowered(name) == word
  {
    if |name| != |word| { return false; }
    for i := 0 to |word|
      invariant forall j :: 0 <= j < i ==> Lower(name[j]) == word[j]
    {
      if Lower(name[i]) != word[i] {
        assert Lowered(name)[i] != word[i];
        return false;
      }
    }
    return true;
  }

  /** Is the tag name, in either case, one of the words? */
  method StartTagIn(name: seq<byte>, words: seq<seq<byte>>) returns (found: bool)
    ensures found <==> Among(Lowered(name), words, 0)
  {
    for k := 0 to |words|
      invariant Among(Lowered(name), words, 0) <==> Among(Lowered(name), words, k)
    {
      var same := SameWord(name, words[k]);
      if same { return true; }
    }
    return false;
  }

  /** Only words with the right first letter are looked at. */
  method IsRawName(name: seq<byte>) returns (isRaw: bool)
    requires name != []
    ensures isRaw <==> Among(Lowered(name), RAW_NAMES, 0)
  {
    isRaw := StartTagIn(name, RawTextTags(name[0]));
    FirstLetterDecides(name);
  }

  class Tokenizer {
    /** All that the reader will ever deliver, and how much of it has been delivered. */
    const input: seq<byte>
    var taken: nat

    var tt: TokenType
    var err: Error
    var readErr: Error
    var raw: Span
    var store: array<byte>
    var len: nat
    var maxBuf: nat
    var data: Span
    var pendingAttr: (Span, Span)
    var attr: seq<(Span, Span)>
    var rawTag: seq<byte>
    var textIsRaw: bool
    var convertNUL: bool
    var allowCDATA: bool

    ghost var base: nat

    /** The i-th byte of the buffer is the text's. */
    ghost predicate Delivered(i: int)
      reads this`store, this`base, store
    {
      0 <= i < store.Length && 0 <= base + i < |input| && store[i] == input[base + i]
    }

    /** The buffer from index `from` on holds text that the reader delivered. */
    ghost predicate Holds(from: int)
      reads this`raw, this`store, this`len, this`taken, this`base, this`readErr, this`err, this`maxBuf, store
    {
      && 0 < store.Length
      && 0 <= raw.start <= raw.end <= len <= store.Length
      && taken == base + len <= |input|
      && 0 <= from <= len && (forall i {:trigger Delivered(i)} :: from <= i < len ==> Delivered(i))
      && (readErr == Eof ==> taken == |input|)
      && (err != NoError ==> err == BufferExceeded || (err == readErr && raw.end == len))
      && (err == BufferExceeded ==> maxBuf > 0) && readErr != BufferExceeded
    }

    /** Between readers: the current token and all that follows it is intact. */
    ghost predicate Valid()
      reads this`raw, this`store, this`len, this`taken, this`base, this`readErr, this`err, this`maxBuf, store
    {
      Holds(raw.start)
    }

    /** Between calls of Next: the client may have rewritten the bytes of the current token. */
    ghost predicate Ready()
      reads this`raw, this`store, this`len, this`taken, this`base, this`readErr, this`err, this`maxBuf, store
    {
      Holds(raw.end)
    }

    /** Offsets in the text: where the current token starts and where the cursor is. */
    ghost function Start(): int
      reads this`raw, this`base
    {
      base + raw.start
    }

    ghost function Cursor(): int
      reads this`raw, this`base
    {
      base + raw.end
    }

    constructor (input: seq<byte>, rawTag: seq<byte>)
      ensures Ready() && fresh(store) && this.input == input && this.rawTag == rawTag
      ensures Start() == 0 && Cursor() == 0 && err == NoError && maxBuf == 0 && !allowCDATA
    {
      this.input, this.rawTag, taken, base, len := input, rawTag, 0, 0, 0;
      store := new byte[4096];
      tt, err, readErr, raw, maxBuf := ErrorToken, NoError, NoError, Span(0, 0), 0;
      data, pendingAttr, attr := Span(0, 0), (Span(0, 0), Span(0, 0)), [];
      textIsRaw, convertNUL, allowCDATA := false, false, false;
    }

    /** The reader: any number of bytes that fit, with or without an error; Eof only at the end. */
    method Read(at: nat) returns (n: nat, e: Error)
      requires at < store.Length && taken <= |input|
      modifies this`taken, store
      ensures at + n <= store.Length && taken == old(taken) + n <= |input|
      ensures store[..at + n] == old(store[..at]) + input[old(taken)..taken]
      ensures e in {NoError, Eof, OtherError} && (e == Eof ==> taken == |input|)
    {
      n :| 0 <= n <= store.Length - at && n <= |input| - taken;
      e :| e in {NoError, Eof, OtherError} && (e == Eof ==> taken + n == |input|);
      Escape.Put(store, at, input[taken..taken + n]);
      assert store[..at + n] == store[..][..at + n];
      taken := taken + n;
    }

    method ReadAtLeastOneByte(at: nat) returns (n: nat, e: Error)
      requires at < store.Length && taken <= |input|
      modifies this`taken, store
      ensures at + n <= store.Length && taken == old(taken) + n <= |input|
      ensures store[..at + n] == old(store[..at]) + input[old(taken)..taken]
      ensures (n == 0 ==> e != NoError) && e != BufferExceeded && (e == Eof ==> taken == |input|)
    {
      var i := 0;
      n, e := 0, NoProgress;
      while i < 100
        invariant taken == old(taken) && store[..at] == old(store[..at])
        modifies this`taken, store
      {
        n, e := Read(at);
        if n != 0 || e != NoError { return; }
        assert store[..at] == store[..at + 0];
        i := i + 1;
      }
      n, e := 0, NoProgress;
      assert store[..at + 0] == old(store[..at]) + input[old(taken)..taken];
    }

    ghost function Marked(): Marks
      reads this`data, this`pendingAttr, this`attr, this`base
    {
      Marks(data.Shift(base), pendingAttr.0.Shift(base), pendingAttr.1.Shift(base), ShiftAll(attr, base))
    }

    method ShiftSpans(x: int)
      modifies this`data, this`pendingAttr, this`attr
      ensures data == old(data.Shift(-x)) && attr == old(ShiftAll(attr, -x))
      ensures pendingAttr == old((pendingAttr.0.Shift(-x), pendingAttr.1.Shift(-x)))
    {
      if x != 0 {
        data := data.Shift(-x);
        pendingAttr := (pendingAttr.0.Shift(-x), pendingAttr.1.Shift(-x));
        attr := ShiftAll(attr, -x);
      } else {
        assert attr == ShiftAll(attr, 0);
      }
    }

    /** Moves the token to the front of the buffer, or of a larger one, and makes room to read. */
    method Relocate()
      requires Valid() && raw.end == len
      modifies this`raw, this`store, this`len, this`base, this`data, this`pendingAttr, this`attr, store
      ensures Valid() && raw.start == 0 && raw.end == len < store.Length
      ensures Start() == old(Start()) && Cursor() == old(Cursor()) && Marked() == old(Marked())
      ensures store == old(store) || fresh(store)
    {
      var d, x := raw.end - raw.start, raw.start;
      MoveToFront(x, d);
      Rebase(x, d);
      forall i | 0 <= i < len ensures Delivered(i) { assert old(Delivered(x + i)); }
    }

    /** The buffer now starts `x` bytes further on in the text. */
    method Rebase(x: nat, d: nat)
      modifies this`raw, this`len, this`base, this`data, this`pendingAttr, this`attr
      ensures raw == Span(0, d) && len == d && base == old(base) + x && Marked() == old(Marked())
    {
      ShiftSpans(x);
      raw, len := Span(0, d), d;
      base := base + x;
      assert ShiftAll(attr, base) == old(ShiftAll(attr, base));
    }

    /** Copies `d` bytes from index `x` to the front, after doubling the buffer if they fill half of it. */
    method MoveToFront(x: nat, d: nat)
      requires x + d <= store.Length && 0 < store.Length
      modifies this`store, store
      ensures store == old(store) || fresh(store)
      ensures d < store.Length
      ensures forall i :: 0 <= i < d ==> store[i] == old(store[x + i])
    {
      var live := store[x..x + d];
      if 2 * d > store.Length {
        store := new byte[2 * store.Length];
      }
      Escape.Put(store, 0, live);
      forall i | 0 <= i < d ensures store[i] == live[i] {
        assert store[i] == store[..][i];
      }
    }

    /** Without a limit, and with no error but the end of the input. */
    ghost predicate Fine()
      reads this`maxBuf, this`err
    {
      maxBuf == 0 && (err == NoError || err == Eof)
    }

    /** Where a scan of the text ended. */
    ghost predicate Reached(scan: Scan)
      reads this`raw, this`base, this`err, this`maxBuf
    {
      (err == NoError ==> scan.At? && scan.pos == Cursor()) && (Fine() && err == Eof ==> scan == AtEnd && Cursor() == |input|)
    }

    /** The cursor moves on within the same token; errors stay. */
    twostate predicate Steps()
      reads this`raw, this`base, this`maxBuf, this`allowCDATA, this`rawTag, this`store, this`err
    {
      && Start() == old(Start()) && Cursor() >= old(Cursor())
      && maxBuf == old(maxBuf) && allowCDATA == old(allowCDATA) && rawTag == old(rawTag)
      && (store == old(store) || fresh(store))
      && (old(err) != NoError ==> err != NoError) && (Fine() ==> old(Fine()))
    }

    /** The next byte of the text, however the reader delivers it. */
    method ReadByte() returns (c: byte)
      requires Valid()
      modifies this`taken, this`err, this`readErr, this`raw, this`store, this`len, this`base,
               this`data, this`pendingAttr, this`attr, store
      ensures Valid() && Steps() && Marked() == old(Marked())
      ensures err == NoError ==> Cursor() == old(Cursor()) + 1 <= |input| && c == input[old(Cursor())]
      ensures maxBuf == 0 && err != NoError ==> Cursor() == old(Cursor())
    {
      var ok := Available();
      if !ok {
        err := readErr;
        return 0;
      }
      c := Take();
      if maxBuf > 0 && raw.end - raw.start >= maxBuf {
        err := BufferExceeded;
        return 0;
      }
    }

    method Take() returns (c: byte)
      requires Valid() && raw.end < len
      modifies this`raw
      ensures Valid() && raw == old(raw).(end := old(raw.end) + 1)
      ensures old(Cursor()) < |input| && c == input[old(Cursor())]
    {
      assert Delivered(raw.end);
      c := store[raw.end];
      raw := raw.(end := raw.end + 1);
    }

    /** Is there a byte to read?  Refills the buffer if it is used up. */
    method Available() returns (ok: bool)
      requires Valid()
      modifies this`taken, this`readErr, this`raw, this`store, this`len, this`base,
               this`data, this`pendingAttr, this`attr, store
      ensures Valid() && Start() == old(Start()) && Cursor() == old(Cursor()) && Marked() == old(Marked())
      ensures store == old(store) || fresh(store)
      ensures if ok then raw.end < len else raw.end == len && readErr != NoError
    {
      if raw.end < len { return true; }
      if readErr != NoError { return false; }
      var n := Refill();
      ok := n != 0;
    }

    method Refill() returns (n: nat)
      requires Valid() && raw.end == len && readErr == NoError
      modifies this`taken, this`readErr, this`raw, this`store, this`len, this`base,
               this`data, this`pendingAttr, this`attr, store
      ensures Valid() && Start() == old(Start()) && Cursor() == old(Cursor()) && Marked() == old(Marked())
      ensures store == old(store) || fresh(store)
      ensures len == raw.end + n && (n == 0 ==> readErr != NoError) && readErr != BufferExceeded
    {
      Relocate();
      n := Fill();
    }

    /** Reads into the free part of the buffer. */
    method Fill() returns (n: nat)
      requires Valid() && raw.start == 0 && raw.end == len < store.Length && readErr == NoError
      modifies this`taken, this`readErr, this`len, store
      ensures Valid() && len == raw.end + n && (n == 0 ==> readErr != NoError) && readErr != BufferExceeded
    {
      var at := len;
      ghost var before, from := store[..at], taken;
      forall i | 0 <= i < at ensures before[i] == input[base + i] { assert Delivered(i); }
      n, readErr := ReadAtLeastOneByte(at);
      len := at + n;
      forall i | 0 <= i < len ensures Delivered(i) {
        assert store[i] == store[..at + n][i];
        assert i < at ==> store[i] == before[i];
        assert i >= at ==> store[i] == input[from..taken][i - at];
      }
    }

    /** Give the last `n` bytes back. */
    method Rewind(n: nat)
      requires Valid() && err == NoError && raw.start + n <= raw.end
      modifies this`raw
      ensures Valid() && raw == old(raw).(end := old(raw.end) - n)
    {
      raw := raw.(end := raw.end - n);
    }

    // ----- Readers that stay within a token ------------------------------------------

    method SkipWhiteSpace()
      requires Valid()
      modifies this, store
      ensures Valid() && Steps() && Marked() == old(Marked())
      ensures err == NoError ==> Cursor() == SkipSpace(input, old(Cursor())) < |input|
      ensures Fine() && err == Eof ==> SkipSpace(input, old(Cursor())) == |input|
    {
      if err != NoError { return; }
      while true
        invariant Valid() && Steps() && Marked() == old(Marked()) && err == NoError
        invariant SkipSpace(input, old(Cursor())) == SkipSpace(input, Cursor())
        decreases |input| - Cursor()
      {
        var c := ReadByte();
        if err != NoError { return; }
        if !IsSpace(c) {
          Rewind(1);
          return;
        }
      }
    }

    /** Up to and including the next byte of that kind. */
    method PastByte(stop: byte) returns (c: byte)
      requires Valid()
      modifies this, store
      ensures Valid() && Steps() && Marked() == old(Marked())
      ensures err == NoError ==> Cursor() == Find(input, old(Cursor()), stop) + 1 <= |input| && c == input[Cursor() - 1]
      ensures Fine() && err == Eof ==> Find(input, old(Cursor()), stop) == |input|
    {
      c := 0;
      while true
        invariant Valid() && Steps() && Marked() == old(Marked())
        invariant Fine() ==> Find(input, old(Cursor()), stop) == Find(input, Cursor(), stop)
        invariant err == NoError ==> Find(input, old(Cursor()), stop) == Find(input, Cursor(), stop)
        decreases |input| - Cursor()
      {
        c := ReadByte();
        if err != NoError || c == stop { return; }
      }
    }

    /** Up to and including the byte that ends a tag name. */
    method PastName() returns (c: byte)
      requires Valid()
      modifies this, store
      ensures Valid() && Steps() && Marked() == old(Marked())
      ensures err == NoError ==> Cursor() == NameEnd(input, old(Cursor())) + 1 <= |input| && c == input[Cursor() - 1]
      ensures Fine() && err == Eof ==> NameEnd(input, old(Cursor())) == |input|
    {
      c := 0;
      while true
        invariant Valid() && Steps() && Marked() == old(Marked())
        invariant Fine() ==> NameEnd(input, old(Cursor())) == NameEnd(input, Cursor())
        invariant err == NoError ==> NameEnd(input, old(Cursor())) == NameEnd(input, Cursor())
        decreases |input| - Cursor()
      {
        c := ReadByte();
        if err != NoError || EndsName(c) { return; }
      }
    }

    /** Up to and including the byte that ends an attribute's key. */
    method PastKey() returns (c: byte)
      requires Valid()
      modifies this, store
      ensures Valid() && Steps() && Marked() == old(Marked())
      ensures err == NoError ==> Cursor() == KeyEnd(input, old(Cursor())) + 1 <= |input| && c == input[Cursor() - 1]
      ensures Fine() && err == Eof ==> KeyEnd(input, old(Cursor())) == |input|
    {
      c := 0;
      while true
        invariant Valid() && Steps() && Marked() == old(Marked())
        invariant Fine() ==> KeyEnd(input, old(Cursor())) == KeyEnd(input, Cursor())
        invariant err == NoError ==> KeyEnd(input, old(Cursor())) == KeyEnd(input, Cursor())
        decreases |input| - Cursor()
      {
        c := ReadByte();
        if err != NoError || EndsKey(c) { return; }
      }
    }

    /** Up to and including the byte that ends a value without quotes. */
    method PastValue() returns (c: byte)
      requires Valid()
      modifies this, store
      ensures Valid() && Steps() && Marked() == old(Marked())
      ensures err == NoError ==> Cursor() == ValueEnd(input, old(Cursor())) + 1 <= |input| && c == input[Cursor() - 1]
      ensures Fine() && err == Eof ==> ValueEnd(input, old(Cursor())) == |input|
    {
      c := 0;
      while true
        invariant Valid() && Steps() && Marked() == old(Marked())
        invariant Fine() ==> ValueEnd(input, old(Cursor())) == ValueEnd(input, Cursor())
        invariant err == NoError ==> ValueEnd(input, old(Cursor())) == ValueEnd(input, Cursor())
        decreases |input| - Cursor()
      {
        c := ReadByte();
        if err != NoError || EndsValue(c) { return; }
      }
    }

    method ReadUntilCloseAngle()
      requires Valid()
      modifies this, store
      ensures Valid() && Steps()
      ensures Fine() ==> Reached(Bogus(input, old(Cursor())).scan)
      ensures Fine() ==> Marked() == old(Marked()).(data := Span(old(Cursor()), Bogus(input, old(Cursor())).end))
    {
      data := data.(start := raw.end);
      var c := PastByte('>' as int);
      data := data.(end := if err != NoError then raw.end else raw.end - 1);
    }

    /** Reads a word in either case; the first byte that differs is left unread. */
    method ReadWord(word: seq<byte>) returns (all: bool)
      requires Valid() && err == NoError
      modifies this, store
      ensures Valid() && Steps() && Marked() == old(Marked())
      ensures all ==> err == NoError
      ensures err == NoError ==> Cursor() == old(Cursor()) + WordLength(input, old(Cursor()), word, 0)
      ensures err == NoError ==> (all <==> WordLength(input, old(Cursor()), word, 0) == |word|)
      ensures err == NoError && !all ==> Cursor() < |input|
      ensures Fine() && err == Eof ==> WordLength(input, old(Cursor()), word, 0) < |word| && old(Cursor()) + WordLength(input, old(Cursor()), word, 0) == |input|
    {
      for i := 0 to |word|
        invariant Valid() && Steps() && Marked() == old(Marked()) && err == NoError && Cursor() == old(Cursor()) + i
        invariant WordLength(input, old(Cursor()), word, 0) == WordLength(input, old(Cursor()), word, i)
      {
        var same := ReadLetter(word[i]);
        if !same { return false; }
      }
      return true;
    }

    /** Reads a letter in either case; another byte is left unread. */
    method ReadLetter(letter: byte) returns (same: bool)
      requires Valid() && err == NoError
      modifies this, store
      ensures Valid() && Steps() && Marked() == old(Marked())
      ensures same ==> err == NoError && Cursor() == old(Cursor()) + 1 && SameLetter(input[old(Cursor())], letter)
      ensures !same && err == NoError ==> Cursor() == old(Cursor()) < |input| && !SameLetter(input[old(Cursor())], letter)
      ensures Fine() && err == Eof ==> Cursor() == old(Cursor()) == |input|
    {
      var c := ReadByte();
      if err != NoError { return false; }
      if !SameLetter(c, letter) {
        Rewind(1);
        return false;
      }
      return true;
    }

    /** Reads "foo>" after "</", where "foo" is rawTag; on success backs up to before the "</". */
    method ReadRawEndTag() returns (found: bool)
      requires Valid() && err == NoError && Start() + 2 <= Cursor()
      modifies this, store
      ensures Valid() && Start() == old(Start()) && rawTag == old(rawTag) && Marked() == old(Marked())
      ensures maxBuf == old(maxBuf) && allowCDATA == old(allowCDATA) && (store == old(store) || fresh(store))
      ensures found ==> err == NoError && Cursor() == old(Cursor()) - 2 && raw.end + 3 + |rawTag| <= len
      ensures !found ==> Cursor() >= old(Cursor())
      ensures err == NoError && found ==> RawEndTag(input, old(Cursor()), rawTag) == Found
      ensures err == NoError && !found ==> RawEndTag(input, old(Cursor()), rawTag) == NotFound(Cursor())
      ensures Fine() && err == Eof ==> RawEndTag(input, old(Cursor()), rawTag) == Cut && Cursor() == |input|
    {
      found := ReadTerminated(rawTag);
      if found { Rewind(3 + |rawTag|); }
    }

    /** Reads a word in either case and a byte that ends a name; the first byte that does not fit is left unread. */
    method ReadTerminated(word: seq<byte>) returns (found: bool)
      requires Valid() && err == NoError
      modifies this, store
      ensures Valid() && Steps() && Marked() == old(Marked()) && (found ==> err == NoError)
      ensures found ==> WordLength(input, old(Cursor()), word, 0) == |word| && Cursor() == old(Cursor()) + |word| + 1
      ensures found ==> EndsName(input[Cursor() - 1])
      ensures err == NoError && !found ==> Cursor() == old(Cursor()) + WordLength(input, old(Cursor()), word, 0) < |input|
      ensures err == NoError && !found && WordLength(input, old(Cursor()), word, 0) == |word| ==> !EndsName(input[Cursor()])
      ensures Fine() && err == Eof ==> Cursor() == |input| == old(Cursor()) + WordLength(input, old(Cursor()), word, 0)
    {
      var all := ReadWord(word);
      if !all { return false; }
      var c := ReadByte();
      if err != NoError { return false; }
      if EndsName(c) { return true; }
      Rewind(1);
      return false;
    }

    /** Reads until the next "</foo>", where "foo" is rawTag, and stops before it. */
    method ReadRawOrRCDATA()
      requires Valid() && err == NoError && data == Span(raw.end, raw.end) && rawTag != PLAINTEXT
      modifies this, store
      ensures Valid() && Start() == old(Start()) && Cursor() >= old(Cursor()) && data.end == raw.end
      ensures maxBuf == old(maxBuf) && allowCDATA == old(allowCDATA) && (store == old(store) || fresh(store))
      ensures base + data.start == old(base + data.start)
      ensures rawTag == []
      ensures Fine() ==> Reached(RawScan(input, old(Cursor()), old(rawTag)))
    {
      if rawTag == SCRIPT {
        ReadScript();
        textIsRaw := true;
      } else {
        ReadRawText();
        data := data.(end := raw.end);
        SetTextIsRaw();
      }
      rawTag := [];
    }

    method SetTextIsRaw()
      modifies this`textIsRaw
      ensures textIsRaw == (rawTag != TEXTAREA && rawTag != TITLE)
    {
      textIsRaw := rawTag != TEXTAREA && rawTag != TITLE;
    }

    method ReadRawText()
      requires Valid() && err == NoError
      modifies this, store
      ensures Valid() && Steps() && Marked() == old(Marked())
      ensures Fine() ==> Reached(RawText(input, old(Cursor()), rawTag))
    {
      while true
        invariant Valid() && Steps() && Marked() == old(Marked()) && err == NoError
        invariant RawText(input, old(Cursor()), rawTag) == RawText(input, Cursor(), rawTag)
        decreases |input| - Cursor()
      {
        var done := RawTextStep();
        if done { return; }
      }
    }

    /** One turn of that loop. */
    method RawTextStep() returns (done: bool)
      requires Valid() && err == NoError
      modifies this, store
      ensures Valid() && Steps() && Marked() == old(Marked())
      ensures !done ==> err == NoError && Cursor() > old(Cursor())
      ensures !done ==> RawText(input, old(Cursor()), rawTag) == RawText(input, Cursor(), rawTag)
      ensures done && Fine() ==> Reached(RawText(input, old(Cursor()), rawTag))
    {
      var closes := ReadCloser();
      if err != NoError { return true; }
      if !closes { return false; }
      var found := ReadRawEndTag();
      return found || err != NoError;
    }

    /** One byte, and if it is "<" one more: are they "</"? */
    method ReadCloser() returns (closes: bool)
      requires Valid() && err == NoError
      modifies this, store
      ensures Valid() && Steps() && Marked() == old(Marked())
      ensures err == NoError && closes ==>
        Cursor() == old(Cursor()) + 2 && input[old(Cursor())] == '<' as int && input[old(Cursor()) + 1] == '/' as int
      ensures err == NoError && !closes ==> old(Cursor()) < |input|
      ensures err == NoError && !closes && input[old(Cursor())] != '<' as int ==> Cursor() == old(Cursor()) + 1
      ensures err == NoError && !closes && input[old(Cursor())] == '<' as int ==>
        Cursor() == old(Cursor()) + 2 <= |input| && input[old(Cursor()) + 1] != '/' as int
      ensures Fine() && err == Eof ==> Cursor() == |input| && (old(Cursor()) == |input| || (old(Cursor()) + 1 == |input| && input[old(Cursor())] == '<' as int))
    {
      var c := ReadByte();
      if err != NoError || c != '<' as int { return false; }
      c := ReadByte();
      return c == '/' as int;
    }

    // ----- Script text ----------------------------------------------------------------

    /** A step of the script reader does what a step of the scan does. */
    ghost predicate Took(step: Step, next: ScriptState, stop: bool)
      reads this`raw, this`base, this`err, this`maxBuf
    {
      && (!stop ==> err == NoError && step == Goes(next, Cursor()))
      && (stop && err == NoError ==> step == Stops(Cursor()))
      && (stop && Fine() && err == Eof ==> step == Ends && Cursor() == |input|)
    }

    /** One byte of script text, in a state that looks at one byte only. */
    method ScriptByte(st: ScriptState) returns (next: ScriptState, stop: bool)
      requires Valid() && err == NoError && LooksAtOneByte(st) && Start() + Room(st) <= Cursor()
      modifies this, store
      ensures Valid() && Steps() && Marked() == old(Marked())
      ensures Took(StepOf(input, old(Cursor()), st), next, stop)
    {
      next := st;
      var c := ReadByte();
      stop := err != NoError;
      if stop { return; }
      next := ScriptNext(st, c).0;
      if ScriptNext(st, c).1 { Rewind(1); }
    }

    /** "<script" inside an escaped section: the letter already read is read again. */
    method ScriptDoubleEscapeStart() returns (next: ScriptState, stop: bool)
      requires Valid() && err == NoError && Start() + 2 <= Cursor()
      modifies this, store
      ensures Valid() && Start() == old(Start()) && rawTag == old(rawTag) && Marked() == old(Marked())
      ensures maxBuf == old(maxBuf) && allowCDATA == old(allowCDATA) && (store == old(store) || fresh(store))
      ensures Cursor() >= old(Cursor()) - 1
      ensures Took(StepOf(input, old(Cursor()), DoubleEscapeStart), next, stop)
    {
      var found := ReadTerminatedFrom(SCRIPT, Cursor() - 1);
      return if found then DoubleEscaped else Escaped, err != NoError;
    }

    /** ReadTerminated, from the byte that was read last. */
    method ReadTerminatedFrom(word: seq<byte>, ghost q: nat) returns (found: bool)
      requires Valid() && err == NoError && Start() + 1 <= Cursor() == q + 1
      modifies this, store
      ensures Valid() && Start() == old(Start()) && Cursor() >= q && rawTag == old(rawTag) && Marked() == old(Marked())
      ensures maxBuf == old(maxBuf) && allowCDATA == old(allowCDATA) && (store == old(store) || fresh(store))
      ensures found ==> err == NoError && WordLength(input, q, word, 0) == |word| && Cursor() == q + |word| + 1
      ensures found ==> EndsName(input[Cursor() - 1])
      ensures err == NoError && !found ==> Cursor() == q + WordLength(input, q, word, 0) < |input|
      ensures err == NoError && !found && WordLength(input, q, word, 0) == |word| ==> !EndsName(input[Cursor()])
      ensures Fine() && err == Eof ==> Cursor() == |input| == q + WordLength(input, q, word, 0)
    {
      Rewind(1);
      found := ReadTerminated(word);
    }

    /** At the end tag that ends script text, or a doubly escaped section. */
    method ScriptEndTag(st: ScriptState) returns (next: ScriptState, stop: bool)
      requires Valid() && err == NoError && rawTag == SCRIPT && Start() + 2 <= Cursor()
      requires st == EndTagOpen || st == EscapedEndTagOpen || st == DoubleEscapeEnd
      modifies this, store
      ensures Valid() && Start() == old(Start()) && rawTag == old(rawTag) && Marked() == old(Marked())
      ensures maxBuf == old(maxBuf) && allowCDATA == old(allowCDATA) && (store == old(store) || fresh(store))
      ensures Cursor() >= old(Cursor()) - 2
      ensures Took(StepOf(input, old(Cursor()), st), next, stop)
    {
      var found := ReadRawEndTag();
      if st == DoubleEscapeEnd {
        if found {
          raw := raw.(end := raw.end + 9);
          return Escaped, false;
        }
        return DoubleEscaped, err != NoError;
      }
      stop := found || err != NoError;
      next := if st == EndTagOpen then ScriptData else Escaped;
    }

    /** One step in any state of script text. */
    method ScriptStep(st: ScriptState) returns (next: ScriptState, stop: bool)
      requires Valid() && err == NoError && rawTag == SCRIPT && Start() + Room(st) <= Cursor()
      modifies this, store
      ensures Valid() && Start() == old(Start()) && rawTag == old(rawTag) && Marked() == old(Marked())
      ensures maxBuf == old(maxBuf) && allowCDATA == old(allowCDATA) && (store == old(store) || fresh(store))
      ensures Cursor() >= old(Cursor()) - Room(st)
      ensures Took(StepOf(input, old(Cursor()), st), next, stop)
    {
      if LooksAtOneByte(st) {
        next, stop := ScriptByte(st);
      } else if st == DoubleEscapeStart {
        next, stop := ScriptDoubleEscapeStart();
      } else {
        next, stop := ScriptEndTag(st);
      }
    }

    method ReadScript()
      requires Valid() && err == NoError && rawTag == SCRIPT
      modifies this, store
      ensures Valid() && Steps() && data.end == raw.end && base + data.start == old(base + data.start)
      ensures Fine() ==> Reached(Script(input, old(Cursor()), ScriptData, old(Cursor())))
    {
      ReadScriptText();
      data := data.(end := raw.end);
    }

    /** The states of the script reader, one after the other. */
    method ReadScriptText()
      requires Valid() && err == NoError && rawTag == SCRIPT
      modifies this, store
      ensures Valid() && Steps() && Marked() == old(Marked())
      ensures Fine() ==> Reached(Script(input, old(Cursor()), ScriptData, old(Cursor())))
    {
      var st := ScriptData;
      ghost var from: nat := Cursor();
      while true
        invariant Valid() && Steps() && Marked() == old(Marked()) && err == NoError && from + Room(st) <= Cursor()
        invariant Script(input, from, ScriptData, from) == Script(input, Cursor(), st, from)
        decreases |input| - Cursor() + Ahead(st), Rank(st)
      {
        StepProgresses(input, Cursor(), st);
        var stop;
        st, stop := ScriptStep(st);
        if stop { break; }
      }
    }

    // ----- Comments, doctypes and CDATA -----------------------------------------------

    /** Where the data ends is set; all other spans are as they were. */
    twostate predicate DataEnds(end: int)
      reads this`data, this`pendingAttr, this`attr, this`base
    {
      Marked() == old(Marked()).(data := Span(old(Marked()).data.start, end))
    }

    method ReadComment()
      requires Valid()
      modifies this, store
      ensures Valid() && Steps()
      ensures Fine() ==>
        var body := Comment(input, old(Cursor()), 2);
        && Reached(body.scan)
        && Marked() == old(Marked()).(data := Span(old(Cursor()), if body.end < old(Cursor()) then old(Cursor()) else body.end))
    {
      data := data.(start := raw.end);
      ReadCommentText();
      if data.end < data.start {
        data := data.(end := data.start);
      }
    }

    method ReadCommentText()
      requires Valid()
      modifies this, store
      ensures Valid() && Steps()
      ensures Fine() ==> Reached(Comment(input, old(Cursor()), 2).scan) && DataEnds(Comment(input, old(Cursor()), 2).end)
    {
      var dashCount := 2;
      while true
        invariant Valid() && Steps() && Marked() == old(Marked()) && 0 <= dashCount
        invariant Fine() ==> Comment(input, old(Cursor()), 2) == Comment(input, Cursor(), dashCount)
        decreases |input| - Cursor()
      {
        var done;
        dashCount, done := CommentStep(dashCount);
        if done { return; }
      }
    }

    /** One turn of that loop; the new number of dashes. */
    method CommentStep(dashCount: nat) returns (dashes: nat, done: bool)
      requires Valid()
      modifies this, store
      ensures Valid() && Steps()
      ensures !done ==> err == NoError && Cursor() > old(Cursor()) && Marked() == old(Marked())
      ensures !done && Fine() ==> Comment(input, old(Cursor()), dashCount) == Comment(input, Cursor(), dashes)
      ensures done && Fine() ==>
        Reached(Comment(input, old(Cursor()), dashCount).scan) && DataEnds(Comment(input, old(Cursor()), dashCount).end)
    {
      dashes, done := 0, false;
      var c := ReadByte();
      if err != NoError {
        data := data.(end := raw.end - if dashCount > 2 then 2 else dashCount);
        return 0, true;
      }
      dashes, done := CommentByte(c, dashCount);
    }

    /** What a byte of a comment does. */
    method CommentByte(c: byte, dashCount: nat) returns (dashes: nat, done: bool)
      requires Valid() && err == NoError && 0 < Cursor() <= |input| && c == input[Cursor() - 1]
      modifies this, store
      ensures Valid() && Steps()
      ensures !done ==> err == NoError && Marked() == old(Marked())
      ensures !done && Fine() ==> Comment(input, old(Cursor()) - 1, dashCount) == Comment(input, Cursor(), dashes)
      ensures done && Fine() ==>
        Reached(Comment(input, old(Cursor()) - 1, dashCount).scan) && DataEnds(Comment(input, old(Cursor()) - 1, dashCount).end)
    {
      dashes, done := 0, false;
      if c == '-' as int {
        return dashCount + 1, false;
      }
      if c == '>' as int && dashCount >= 2 {
        data := data.(end := raw.end - 3);
        return 0, true;
      }
      if c == '!' as int && dashCount >= 2 {
        done := ReadCommentBang();
      }
    }

    /** After "--!": a '>' ends the comment. */
    method ReadCommentBang() returns (done: bool)
      requires Valid() && err == NoError
      modifies this, store
      ensures Valid() && Steps()
      ensures !done ==> err == NoError && Cursor() == old(Cursor()) + 1 && input[old(Cursor())] != '>' as int && Marked() == old(Marked())
      ensures done && err == NoError ==>
        Cursor() == old(Cursor()) + 1 && input[old(Cursor())] == '>' as int && DataEnds(Cursor() - 4)
      ensures done && Fine() && err == Eof ==> Cursor() == old(Cursor()) == |input| && DataEnds(|input|)
    {
      var c := ReadByte();
      if err != NoError {
        data := data.(end := raw.end);
        return true;
      }
      if c == '>' as int {
        data := data.(end := raw.end - 4);
        return true;
      }
      return false;
    }

    /** Tries to read a word in either case; if it is not there, backs up to where the data starts. */
    method ReadOpening(word: seq<byte>) returns (found: bool)
      requires Valid() && err == NoError && data.start == raw.end
      modifies this, store
      ensures Valid() && Steps() && (found ==> err == NoError)
      ensures err == NoError ==> Marked() == old(Marked())
      ensures found ==> WordLength(input, old(Cursor()), word, 0) == |word| && Cursor() == old(Cursor()) + |word|
      ensures !found && err == NoError ==> Cursor() == old(Cursor())
      ensures !found && err == NoError ==>
        WordLength(input, old(Cursor()), word, 0) < |word| && old(Cursor()) + WordLength(input, old(Cursor()), word, 0) < |input|
      ensures Fine() && err == Eof ==>
        WordLength(input, old(Cursor()), word, 0) < |word| && old(Cursor()) + WordLength(input, old(Cursor()), word, 0) == |input|
      ensures Marked() == old(Marked()).(data := Marked().data)
    {
      found := ReadWord(word);
      if err != NoError {
        data := data.(end := raw.end);
      } else if !found {
        raw := raw.(end := data.start);
      }
    }

    method ReadDoctype() returns (found: bool)
      requires Valid() && err == NoError && data.start == raw.end
      modifies this, store
      ensures Valid() && Steps()
      ensures !found && err == NoError ==> Cursor() == old(Cursor()) && Marked() == old(Marked())
      ensures !found && err == NoError ==>
        var k := WordLength(input, old(Cursor()), DOCTYPE, 0); k < |DOCTYPE| && old(Cursor()) + k < |input|
      ensures !found && Fine() && err == Eof ==>
        var k := WordLength(input, old(Cursor()), DOCTYPE, 0); k < |DOCTYPE| && old(Cursor()) + k == |input|
      ensures found && Fine() ==> WordLength(input, old(Cursor()), DOCTYPE, 0) == |DOCTYPE|
      ensures found && Fine() ==>
        var q := SkipSpace(input, old(Cursor()) + |DOCTYPE|);
        Reached(Bogus(input, q).scan) && Marked() == old(Marked()).(data := Span(q, Bogus(input, q).end))
      ensures !found ==> Marked() == old(Marked()).(data := Marked().data)
    {
      found := ReadOpening(DOCTYPE);
      if found { ReadDoctypeText(); }
    }

    /** After the word "doctype". */
    method ReadDoctypeText()
      requires Valid() && err == NoError
      modifies this, store
      ensures Valid() && Steps()
      ensures Fine() ==>
        var q := SkipSpace(input, old(Cursor()));
        Reached(Bogus(input, q).scan) && Marked() == old(Marked()).(data := Span(q, Bogus(input, q).end))
    {
      SkipWhiteSpace();
      if err != NoError {
        data := Span(raw.end, raw.end);
        return;
      }
      ReadUntilCloseAngle();
    }

    method ReadCDATA() returns (found: bool)
      requires Valid() && (err == NoError ==> data.start == raw.end)
      modifies this, store
      ensures Valid() && Steps()
      ensures !found && err == NoError ==> Cursor() == old(Cursor()) && Marked() == old(Marked())
      ensures !found && err == NoError ==>
        var k := ExactLength(input, old(Cursor()), CDATA, 0); k < |CDATA| && old(Cursor()) + k < |input|
      ensures !found && Fine() && err == Eof ==>
        var k := ExactLength(input, old(Cursor()), CDATA, 0); k < |CDATA| && old(Cursor()) + k == |input|
      ensures found && Fine() ==> ExactLength(input, old(Cursor()), CDATA, 0) == |CDATA|
      ensures found && Fine() ==>
        var q := old(Cursor()) + |CDATA|;
        Reached(CData(input, q, 0).scan) && Marked() == old(Marked()).(data := Span(q, CData(input, q, 0).end))
      ensures !found ==> Marked() == old(Marked()).(data := Marked().data)
    {
      found := ReadExactly(CDATA);
      if !found { return; }
      data := data.(start := raw.end);
      ReadCDataText();
    }

    method ReadCDataText()
      requires Valid() && err == NoError
      modifies this, store
      ensures Valid() && Steps()
      ensures Fine() ==> Reached(CData(input, old(Cursor()), 0).scan) && DataEnds(CData(input, old(Cursor()), 0).end)
    {
      var brackets := 0;
      while true
        invariant Valid() && Steps() && Marked() == old(Marked()) && err == NoError && 0 <= brackets
        invariant CData(input, old(Cursor()), 0) == CData(input, Cursor(), brackets)
        decreases |input| - Cursor()
      {
        var done;
        brackets, done := CDataStep(brackets);
        if done { return; }
      }
    }

    /** One turn of that loop; the new number of brackets. */
    method CDataStep(brackets: nat) returns (next: nat, done: bool)
      requires Valid() && err == NoError
      modifies this, store
      ensures Valid() && Steps()
      ensures !done ==> err == NoError && Cursor() > old(Cursor()) && Marked() == old(Marked())
      ensures !done ==> CData(input, old(Cursor()), brackets) == CData(input, Cursor(), next)
      ensures done && Fine() ==>
        Reached(CData(input, old(Cursor()), brackets).scan) && DataEnds(CData(input, old(Cursor()), brackets).end)
    {
      var c := ReadByte();
      if err != NoError {
        data := data.(end := raw.end);
        return 0, true;
      }
      if c == ']' as int {
        return brackets + 1, false;
      }
      if c == '>' as int && brackets >= 2 {
        data := data.(end := raw.end - 3);
        return 0, true;
      }
      return 0, false;
    }

    /** As `ReadOpening`, but in this case only; nothing is found after the end of the input. */
    method ReadExactly(word: seq<byte>) returns (found: bool)
      requires Valid() && (err == NoError ==> data.start == raw.end) && word != []
      modifies this, store
      ensures Valid() && Steps() && (found ==> err == NoError)
      ensures err == NoError ==> Marked() == old(Marked())
      ensures found ==> ExactLength(input, old(Cursor()), word, 0) == |word| && Cursor() == old(Cursor()) + |word|
      ensures !found && err == NoError ==> Cursor() == old(Cursor())
      ensures !found && err == NoError ==>
        ExactLength(input, old(Cursor()), word, 0) < |word| && old(Cursor()) + ExactLength(input, old(Cursor()), word, 0) < |input|
      ensures !found && Fine() && err == Eof ==>
        ExactLength(input, old(Cursor()), word, 0) < |word| && old(Cursor()) + ExactLength(input, old(Cursor()), word, 0) == |input|
      ensures Marked() == old(Marked()).(data := Marked().data)
    {
      found := MatchExactly(word);
      if err != NoError {
        data := data.(end := raw.end);
      } else if !found {
        raw := raw.(end := data.start);
      }
    }

    method MatchExactly(word: seq<byte>) returns (all: bool)
      requires Valid() && word != []
      modifies this, store
      ensures Valid() && Steps() && Marked() == old(Marked()) && (all ==> err == NoError)
      ensures all ==> Cursor() == old(Cursor()) + |word| && ExactLength(input, old(Cursor()), word, 0) == |word|
      ensures err == NoError && !all ==> Cursor() >= old(Cursor()) && ExactLength(input, old(Cursor()), word, 0) < |word|
      ensures err == NoError && !all ==> old(Cursor()) + ExactLength(input, old(Cursor()), word, 0) < |input|
      ensures Fine() && err == Eof ==>
        ExactLength(input, old(Cursor()), word, 0) < |word| && old(Cursor()) + ExactLength(input, old(Cursor()), word, 0) == |input|
    {
      for i := 0 to |word|
        invariant Valid() && Steps() && Marked() == old(Marked()) && (i > 0 ==> err == NoError) && Cursor() == old(Cursor()) + i
        invariant ExactLength(input, old(Cursor()), word, 0) == ExactLength(input, old(Cursor()), word, i)
      {
        var c := ReadByte();
        if err != NoError || c != word[i] { return false; }
      }
      return true;
    }

    /** The current token, as far as it has been read, is this one. */
    ghost predicate Is(t: TokenType, token: Token)
      reads this`raw, this`base, this`err, this`maxBuf, this`rawTag, this`data, this`pendingAttr, this`attr
    {
      && t == token.tt && Reached(token.scan) && rawTag == token.rawTag
      && (t != ErrorToken ==> Marked().data == token.data)
      && (t == StartTagToken || t == SelfClosingTagToken ==> Marked().attrs == token.attrs)
    }

    /** After "<!". */
    method ReadMarkupDeclaration() returns (t: TokenType)
      requires Valid() && err == NoError
      modifies this, store
      ensures Valid() && Steps() && t != ErrorToken
      ensures Fine() ==> Is(t, Declaration(AnyDeclaration, input, old(Cursor()), allowCDATA, rawTag))
    {
      var dashes := ReadDashes();
      if err != NoError { return CommentToken; }
      t := ReadDeclared(dashes);
    }

    /** Two bytes, where the data starts; are they dashes? */
    method ReadDashes() returns (dashes: bool)
      requires Valid() && err == NoError
      modifies this, store
      ensures Valid() && Steps()
      ensures err == NoError ==> Cursor() == old(Cursor()) + 2 <= |input| && data.start == raw.end - 2
      ensures err == NoError ==> dashes == (input[old(Cursor())] == '-' as int && input[old(Cursor()) + 1] == '-' as int)
      ensures Fine() && err == Eof ==> Cursor() == |input| < old(Cursor()) + 2 && Marked().data == Span(old(Cursor()), |input|)
    {
      data := data.(start := raw.end);
      var c0, c1 := ReadTwo();
      if err != NoError { data := data.(end := raw.end); }
      dashes := c0 == '-' as int && c1 == '-' as int;
    }

    method ReadDeclared(dashes: bool) returns (t: TokenType)
      requires Valid() && err == NoError && data.start == raw.end - 2 && Start() + 2 <= Cursor()
      modifies this, store
      ensures Valid() && Start() == old(Start()) && Cursor() >= old(Cursor()) - 2 && t != ErrorToken
      ensures maxBuf == old(maxBuf) && allowCDATA == old(allowCDATA) && (store == old(store) || fresh(store))
      ensures rawTag == old(rawTag)
      ensures Fine() ==> Is(t, Declaration(Declared(dashes), input, old(Cursor()) - 2, allowCDATA, rawTag))
    {
      if dashes {
        ReadComment();
        t := CommentToken;
      } else {
        t := ReadUndashed(Cursor() - 2);
      }
    }

    method ReadUndashed(ghost q: nat) returns (t: TokenType)
      requires Valid() && err == NoError && data.start == raw.end - 2 && Start() + 2 <= Cursor() == q + 2
      modifies this, store
      ensures Valid() && Start() == old(Start()) && Cursor() >= q && t != ErrorToken
      ensures maxBuf == old(maxBuf) && allowCDATA == old(allowCDATA) && (store == old(store) || fresh(store))
      ensures rawTag == old(rawTag)
      ensures Fine() ==> Is(t, Declaration(NoComment, input, q, allowCDATA, rawTag))
    {
      Rewind(2);
      assert Cursor() == q;
      t := ReadOtherDeclaration();
    }

    method ReadTwo() returns (c0: byte, c1: byte)
      requires Valid() && err == NoError
      modifies this, store
      ensures Valid() && Steps() && Marked() == old(Marked())
      ensures err == NoError ==> Cursor() == old(Cursor()) + 2 <= |input| && c0 == input[old(Cursor())] && c1 == input[old(Cursor()) + 1]
      ensures Fine() && err == Eof ==> Cursor() == |input| < old(Cursor()) + 2
    {
      c1 := 0;
      c0 := ReadByte();
      if err != NoError { return; }
      c1 := ReadByte();
    }

    /** After "<!" and no "--". */
    method ReadOtherDeclaration() returns (t: TokenType)
      requires Valid() && err == NoError && data.start == raw.end
      modifies this, store
      ensures Valid() && Steps() && t != ErrorToken
      ensures Fine() ==> Is(t, Declaration(NoComment, input, old(Cursor()), allowCDATA, rawTag))
    {
      var found := ReadDoctype();
      if found { return DoctypeToken; }
      t := ReadNoDoctype();
    }

    method ReadNoDoctype() returns (t: TokenType)
      requires Valid() && (err == NoError ==> data.start == raw.end)
      modifies this, store
      ensures Valid() && Steps() && t != ErrorToken
      ensures Fine() ==> Is(t, Declaration(NoDoctype, input, old(Cursor()), allowCDATA, rawTag))
    {
      if allowCDATA {
        t := ReadCDATAOrBogus();
      } else {
        ReadUntilCloseAngle();
        t := CommentToken;
      }
    }

    method ReadCDATAOrBogus() returns (t: TokenType)
      requires Valid() && (err == NoError ==> data.start == raw.end) && allowCDATA
      modifies this, store
      ensures Valid() && Steps() && t != ErrorToken
      ensures Fine() ==> Is(t, Declaration(NoDoctype, input, old(Cursor()), true, rawTag))
    {
      var found := ReadCDATAToken();
      if found { return TextToken; }
      ReadUntilCloseAngle();
      return CommentToken;
    }

    method ReadCDATAToken() returns (found: bool)
      requires Valid() && (err == NoError ==> data.start == raw.end) && allowCDATA
      modifies this, store
      ensures Valid() && Steps()
      ensures found && Fine() ==> Is(TextToken, Declaration(NoDoctype, input, old(Cursor()), true, rawTag))
      ensures !found && Fine() ==>
        Declaration(NoDoctype, input, old(Cursor()), true, rawTag) == Plain(CommentToken, Cursor(), Bogus(input, Cursor()), rawTag)
    {
      found := ReadCDATA();
      if found { convertNUL := true; }
    }

    // ----- Tags ------------------------------------------------------------------------

    /** A tag name up to its end, and white space after it; returns the index of its end. */
    method ScanName() returns (end: int)
      requires Valid() && err == NoError
      modifies this, store
      ensures Valid() && Steps() && Marked() == old(Marked())
      ensures err == NoError || Fine() ==> base + end == NameEnd(input, old(Cursor()))
      ensures err == NoError ==> base + end < |input| && Cursor() == base + end + if !IsSpace(input[base + end]) then 0 else 1
      ensures Fine() && err == Eof ==> Cursor() == |input| == base + end
    {
      var c := PastName();
      end := raw.end;
      if err != NoError { return; }
      end := raw.end - 1;
      if !IsSpace(c) { Rewind(1); }
    }

    /** A key up to its end, and white space or a slash after it; returns the index of its end. */
    method ScanKey() returns (end: int)
      requires Valid() && err == NoError
      modifies this, store
      ensures Valid() && Steps() && Marked() == old(Marked())
      ensures err == NoError || Fine() ==> base + end == KeyEnd(input, old(Cursor()))
      ensures err == NoError ==> base + end < |input| && Cursor() == base + end + if input[base + end] == '=' as int || input[base + end] == '>' as int then 0 else 1
      ensures Fine() && err == Eof ==> Cursor() == |input| == base + end
    {
      var c := PastKey();
      end := raw.end;
      if err != NoError { return; }
      end := raw.end - 1;
      if c == '=' as int || c == '>' as int { Rewind(1); }
    }

    /** A value up to its end, and white space after it; returns the index of its end. */
    method ScanValue() returns (end: int)
      requires Valid() && err == NoError
      modifies this, store
      ensures Valid() && Steps() && Marked() == old(Marked())
      ensures err == NoError || Fine() ==> base + end == ValueEnd(input, old(Cursor()))
      ensures err == NoError ==> base + end < |input| && Cursor() == base + end + if input[base + end] == '>' as int then 0 else 1
      ensures Fine() && err == Eof ==> Cursor() == |input| == base + end
    {
      var c := PastValue();
      end := raw.end;
      if err != NoError { return; }
      end := raw.end - 1;
      if c == '>' as int { Rewind(1); }
    }

    /** The tag name, whose first byte has been read. */
    method ReadTagName()
      requires Valid() && Start() < Cursor() && err == NoError
      modifies this, store
      ensures Valid() && Steps()
      ensures Marked() == old(Marked()).(data := Marked().data)
      ensures err == NoError || Fine() ==> Marked().data == Span(old(Cursor()) - 1, NameEnd(input, old(Cursor())))
      ensures err == NoError ==> NameEnd(input, old(Cursor())) < |input|
      ensures err == NoError ==>
        Cursor() == NameEnd(input, old(Cursor())) + if IsSpace(input[NameEnd(input, old(Cursor()))]) then 1 else 0
      ensures Fine() && err == Eof ==> NameEnd(input, old(Cursor())) == |input|
    {
      data := data.(start := raw.end - 1);
      var end := ScanName();
      data := data.(end := end);
    }

    /** An attribute key; it is empty only before '=' or '>'. */
    method ReadTagAttrKey()
      requires Valid() && err == NoError
      modifies this, store
      ensures Valid() && Steps()
      ensures Reached(AttrKey(input, old(Cursor())).scan)
      ensures err == NoError || Fine() ==> Marked() == old(Marked()).(key := AttrKey(input, old(Cursor())).span)
      ensures Marked().data == old(Marked()).data && Marked().attrs == old(Marked()).attrs
    {
      pendingAttr := (pendingAttr.0.(start := raw.end), pendingAttr.1);
      var end := ScanKey();
      pendingAttr := (pendingAttr.0.(end := end), pendingAttr.1);
    }

    /** An attribute value; an equals sign at the cursor is always consumed. */
    method ReadTagAttrVal()
      requires Valid()
      modifies this, store
      ensures Valid() && Steps()
      ensures Reached(AttrValue(input, old(Cursor())).scan)
      ensures err == NoError || Fine() ==> Marked() == old(Marked()).(value := AttrValue(input, old(Cursor())).span)
      ensures Marked().data == old(Marked()).data && Marked().attrs == old(Marked()).attrs
    {
      pendingAttr := (pendingAttr.0, Span(raw.end, raw.end));
      ghost var p := Cursor();
      SkipWhiteSpace();
      if err != NoError { return; }
      ReadFromEquals(p);
    }

    method ReadFromEquals(ghost p: nat)
      requires Valid() && err == NoError && p <= Cursor() < |input| && Marked().value == Span(p, p)
      modifies this, store
      ensures Valid() && Steps()
      ensures Reached(FromEquals(input, p, old(Cursor())).scan)
      ensures err == NoError || Fine() ==> Marked() == old(Marked()).(value := FromEquals(input, p, old(Cursor())).span)
      ensures Marked().data == old(Marked()).data && Marked().attrs == old(Marked()).attrs
    {
      var found := ReadEquals();
      if found { ReadAfterEquals(p); }
    }

    /** Reads an equals sign; another byte is left unread. */
    method ReadEquals() returns (found: bool)
      requires Valid() && err == NoError
      modifies this, store
      ensures Valid() && Steps() && Marked() == old(Marked())
      ensures found ==> err == NoError && Cursor() == old(Cursor()) + 1 <= |input| && input[old(Cursor())] == '=' as int
      ensures !found && err == NoError ==> Cursor() == old(Cursor()) < |input| && input[old(Cursor())] != '=' as int
      ensures Fine() && err == Eof ==> old(Cursor()) == |input|
    {
      var c := ReadByte();
      if err != NoError { return false; }
      if c != '=' as int {
        Rewind(1);
        return false;
      }
      return true;
    }

    method ReadAfterEquals(ghost p: nat)
      requires Valid() && err == NoError && p <= Cursor() && Marked().value == Span(p, p)
      modifies this, store
      ensures Valid() && Steps()
      ensures Reached(AfterEquals(input, p, SkipSpace(input, old(Cursor()))).scan)
      ensures err == NoError || Fine() ==> Marked() == old(Marked()).(value := AfterEquals(input, p, SkipSpace(input, old(Cursor()))).span)
      ensures Marked().data == old(Marked()).data && Marked().attrs == old(Marked()).attrs
    {
      SkipWhiteSpace();
      if err != NoError { return; }
      ReadValue(p);
    }

    method ReadValue(ghost p: nat)
      requires Valid() && err == NoError && p <= Cursor() < |input| && Marked().value == Span(p, p)
      modifies this, store
      ensures Valid() && Steps()
      ensures Reached(AfterEquals(input, p, old(Cursor())).scan)
      ensures err == NoError || Fine() ==> Marked() == old(Marked()).(value := AfterEquals(input, p, old(Cursor())).span)
      ensures Marked().data == old(Marked()).data && Marked().attrs == old(Marked()).attrs
    {
      var quote := ReadByte();
      if err != NoError { return; }
      if quote == '>' as int {
        Rewind(1);
      } else {
        ReadValueFrom(quote, p);
      }
    }

    method ReadValueFrom(quote: byte, ghost p: nat)
      requires Valid() && err == NoError && p < Cursor() <= |input| && Start() < Cursor() && quote == input[Cursor() - 1] != '>' as int
      modifies this, store
      ensures Valid() && Steps()
      ensures Reached(AfterEquals(input, p, old(Cursor()) - 1).scan)
      ensures err == NoError || Fine() ==> Marked() == old(Marked()).(value := AfterEquals(input, p, old(Cursor()) - 1).span)
      ensures Marked().data == old(Marked()).data && Marked().attrs == old(Marked()).attrs
    {
      if quote == '\'' as int || quote == '"' as int {
        ReadQuoted(quote);
      } else {
        ReadUnquoted();
      }
    }

    method ReadQuoted(quote: byte)
      requires Valid() && err == NoError
      modifies this, store
      ensures Valid() && Steps()
      ensures err == NoError ==> Cursor() == Find(input, old(Cursor()), quote) + 1 <= |input|
      ensures Fine() && err == Eof ==> Cursor() == |input| == Find(input, old(Cursor()), quote)
      ensures err == NoError || Fine() ==> Marked() == old(Marked()).(value := Span(old(Cursor()), Find(input, old(Cursor()), quote)))
      ensures Marked().data == old(Marked()).data && Marked().attrs == old(Marked()).attrs
    {
      pendingAttr := (pendingAttr.0, pendingAttr.1.(start := raw.end));
      var c := PastByte(quote);
      pendingAttr := (pendingAttr.0, pendingAttr.1.(end := if err != NoError then raw.end else raw.end - 1));
    }

    method ReadUnquoted()
      requires Valid() && err == NoError && Start() < Cursor()
      modifies this, store
      ensures Valid() && Steps()
      ensures err == NoError ==> ValueEnd(input, old(Cursor())) < |input|
      ensures err == NoError ==>
        Cursor() == ValueEnd(input, old(Cursor())) + if input[ValueEnd(input, old(Cursor()))] == '>' as int then 0 else 1
      ensures Fine() && err == Eof ==> Cursor() == |input| == ValueEnd(input, old(Cursor()))
      ensures err == NoError || Fine() ==> Marked() == old(Marked()).(value := Span(old(Cursor()) - 1, ValueEnd(input, old(Cursor()))))
      ensures Marked().data == old(Marked()).data && Marked().attrs == old(Marked()).attrs
    {
      pendingAttr := (pendingAttr.0, pendingAttr.1.(start := raw.end - 1));
      var end := ScanValue();
      pendingAttr := (pendingAttr.0, pendingAttr.1.(end := end));
    }

    /** One attribute: at least one byte is consumed, so the loop over attributes ends. */
    method ReadAttr(saveAttr: bool)
      requires Valid() && err == NoError && Cursor() < |input| && input[Cursor()] != '>' as int
      modifies this, store
      ensures Valid() && Steps() && Marked().data == old(Marked()).data
      ensures Reached(OneAttr(input, old(Cursor())).2)
      ensures err == NoError ==>
        var (key, value, scan) := OneAttr(input, old(Cursor()));
        Marked().attrs == Saved(old(Marked()).attrs, saveAttr, key, value)
    {
      ReadTagAttrKey();
      ReadTagAttrVal();
      SaveAttr(saveAttr);
      SkipWhiteSpace();
    }

    method SaveAttr(saveAttr: bool)
      modifies this`attr
      ensures Marked() == old(Marked()).(attrs := Saved(old(Marked()).attrs, saveAttr, Marked().key, Marked().value))
    {
      if saveAttr && pendingAttr.0.start != pendingAttr.0.end {
        assert ShiftAll(attr + [pendingAttr], base) == ShiftAll(attr, base) + [(pendingAttr.0.Shift(base), pendingAttr.1.Shift(base))];
        attr := attr + [pendingAttr];
      }
    }

    method ReadAttrs(saveAttr: bool)
      requires Valid() && err == NoError
      modifies this, store
      ensures Valid() && Steps() && Marked().data == old(Marked()).data
      ensures Reached(AllAttrs(input, old(Cursor()), saveAttr, old(Marked()).attrs).scan)
      ensures err == NoError ==> AllAttrs(input, old(Cursor()), saveAttr, old(Marked()).attrs).attrs == Marked().attrs
    {
      while true
        invariant Valid() && Steps() && Marked().data == old(Marked()).data && err == NoError
        invariant AllAttrs(input, old(Cursor()), saveAttr, old(Marked()).attrs) == AllAttrs(input, Cursor(), saveAttr, Marked().attrs)
        decreases |input| - Cursor()
      {
        var done := AttrsStep(saveAttr);
        if done { break; }
      }
    }

    /** One turn of that loop. */
    method AttrsStep(saveAttr: bool) returns (done: bool)
      requires Valid() && err == NoError
      modifies this, store
      ensures Valid() && Steps() && Marked().data == old(Marked()).data
      ensures !done ==> err == NoError && Cursor() > old(Cursor())
      ensures !done ==>
        AllAttrs(input, old(Cursor()), saveAttr, old(Marked()).attrs) == AllAttrs(input, Cursor(), saveAttr, Marked().attrs)
      ensures done ==> Reached(AllAttrs(input, old(Cursor()), saveAttr, old(Marked()).attrs).scan)
      ensures done && err == NoError ==> AllAttrs(input, old(Cursor()), saveAttr, old(Marked()).attrs).attrs == Marked().attrs
    {
      var c := ReadByte();
      if err != NoError || c == '>' as int { return true; }
      Rewind(1);
      ReadAttr(saveAttr);
      return err != NoError;
    }

    /** A tag name and attributes up to and including the '>'. */
    method ReadTag(saveAttr: bool)
      requires Valid() && Start() < Cursor() && err == NoError
      modifies this, store
      ensures Valid() && Steps()
      ensures Reached(Tag(input, old(Cursor()), saveAttr).scan)
      ensures err == NoError ==> Tag(input, old(Cursor()), saveAttr).attrs == Marked().attrs
      ensures err == NoError ==> Marked().data == Span(old(Cursor()) - 1, NameEnd(input, old(Cursor())))
      ensures err == NoError ==> data.start < data.end < raw.end
    {
      attr := [];
      assert ShiftAll(attr, base) == [];
      ReadNameAndSpace();
      if err != NoError { return; }
      ReadAttrs(saveAttr);
    }

    method ReadNameAndSpace()
      requires Valid() && Start() < Cursor() && err == NoError
      modifies this, store
      ensures Valid() && Steps() && Marked().attrs == old(Marked()).attrs
      ensures err == NoError ==> Cursor() == AfterName(input, old(Cursor()))
      ensures Fine() && err == Eof ==> Cursor() == |input| == AfterName(input, old(Cursor()))
      ensures err == NoError ==> Marked().data == Span(old(Cursor()) - 1, NameEnd(input, old(Cursor()))) && data.end <= raw.end
    {
      ReadTagName();
      SkipWhiteSpace();
    }

    /** After "<" and a letter. */
    method ReadStartTag() returns (t: TokenType)
      requires Valid() && err == NoError && Start() + 2 <= Cursor()
      modifies this, store
      ensures Valid() && Start() == old(Start()) && Cursor() >= old(Cursor())
      ensures maxBuf == old(maxBuf) && allowCDATA == old(allowCDATA) && (store == old(store) || fresh(store))
      ensures t == ErrorToken <==> err != NoError
      ensures Fine() ==> old(Fine()) && Is(t, StartTag(input, old(Cursor()), old(rawTag)))
    {
      ReadTag(true);
      if err != NoError { return ErrorToken; }
      t := FinishStartTag(old(Cursor()));
    }

    /** The tag that has been read from `p` on is self-closing or not, and may be followed by raw text. */
    method FinishStartTag(ghost p: nat) returns (t: TokenType)
      requires Valid() && err == NoError && 2 <= p <= |input| && raw.start <= data.start < data.end < raw.end && raw.start + 2 <= raw.end
      requires Tag(input, p, true).scan == HtmlText.At(Cursor()) && Tag(input, p, true).attrs == Marked().attrs
      requires Marked().data == Span(p - 1, NameEnd(input, p))
      modifies this`rawTag
      ensures t != ErrorToken && Is(t, StartTag(input, p, old(rawTag)))
    {
      t := StartTagKind(p - 1, NameEnd(input, p));
    }

    method StartTagKind(ghost from: nat, ghost to: nat) returns (t: TokenType)
      requires Valid() && raw.start <= data.start < data.end < raw.end && raw.start + 2 <= raw.end
      requires base + data.start == from && base + data.end == to
      modifies this`rawTag
      ensures rawTag == RawTagOf(input[from..to], old(rawTag))
      ensures t == if input[Cursor() - 2] == '/' as int then SelfClosingTagToken else StartTagToken
    {
      SetRawTag();
      assert Delivered(raw.end - 2);
      t := if store[raw.end - 2] == '/' as int then SelfClosingTagToken else StartTagToken;
    }

    method TagName() returns (name: seq<byte>)
      requires Valid() && raw.start <= data.start < data.end <= raw.end
      ensures name == input[base + data.start..base + data.end] && name != []
    {
      name := store[data.start..data.end];
      forall i | 0 <= i < |name| ensures name[i] == input[base + data.start..base + data.end][i] {
        assert Delivered(data.start + i);
      }
    }

    /** Several tags flag the next token as raw text. */
    method SetRawTag()
      requires Valid() && raw.start <= data.start < data.end <= raw.end
      modifies this`rawTag
      ensures rawTag == RawTagOf(input[base + data.start..base + data.end], old(rawTag))
    {
      var name := TagName();
      var isRaw := IsRawName(name);
      if isRaw {
        rawTag := Lowered(name);
      }
    }

    // ----- Tokens ------------------------------------------------------------------------

    /** Everything up to the end of the input. */
    method ReadPlaintext()
      requires Valid()
      modifies this, store
      ensures Valid() && Steps() && Marked() == old(Marked()) && err != NoError
    {
      while err == NoError
        invariant Valid() && Steps() && Marked() == old(Marked())
        decreases |input| - Cursor(), err == NoError
      {
        var c := ReadByte();
      }
    }

    method ReadRaw()
      requires Valid() && err == NoError && data == Span(raw.end, raw.end) && rawTag != []
      modifies this, store
      ensures Valid() && Start() == old(Start()) && Cursor() >= old(Cursor()) && data.end == raw.end
      ensures maxBuf == old(maxBuf) && allowCDATA == old(allowCDATA) && (store == old(store) || fresh(store))
      ensures base + data.start == old(base + data.start)
      ensures rawTag == if old(rawTag) == PLAINTEXT then PLAINTEXT else []
      ensures Fine() ==> Reached(RawScan(input, old(Cursor()), old(rawTag)))
    {
      if rawTag == PLAINTEXT {
        ReadPlaintext();
        data := data.(end := raw.end);
        textIsRaw := true;
      } else {
        ReadRawOrRCDATA();
      }
    }

    /** Raw text for the pending raw tag; `found` if there is any. */
    method NextRawText() returns (found: bool)
      requires Valid() && err == NoError && data == Span(raw.end, raw.end) && rawTag != []
      modifies this, store
      ensures Valid() && Start() == old(Start()) && Cursor() >= old(Cursor())
      ensures maxBuf == old(maxBuf) && allowCDATA == old(allowCDATA) && (store == old(store) || fresh(store))
      ensures found ==> Cursor() > old(Cursor()) && tt == TextToken
      ensures !found ==> Cursor() == old(Cursor()) && data == Span(raw.end, raw.end)
      ensures found ==> Marked().data == Span(old(Cursor()), Cursor())
      ensures found && Fine() ==> Is(TextToken, Parse(AnyToken, input, old(Cursor()), allowCDATA, old(rawTag)))
      ensures !found && Fine() ==>
        Parse(AnyToken, input, old(Cursor()), allowCDATA, old(rawTag)) == Parse(TextOrMarkup, input, Cursor(), allowCDATA, rawTag)
    {
      ReadRaw();
      found := data.end > data.start;
      if found {
        tt := TextToken;
        convertNUL := true;
      }
    }

    /** After "</": the bytes from "<" on are the token; `found` unless the input ends here. */
    method NextEndTag() returns (found: bool)
      requires Valid() && err == NoError && Start() + 2 == Cursor() && Marked().data == Span(Start(), Start())
      modifies this, store
      ensures Valid() && Start() == old(Start()) && Cursor() >= old(Cursor()) && rawTag == old(rawTag)
      ensures maxBuf == old(maxBuf) && allowCDATA == old(allowCDATA) && (store == old(store) || fresh(store))
      ensures Fine() ==> old(Fine())
      ensures found ==> (tt == ErrorToken ==> err != NoError)
      ensures found && Fine() ==> Is(tt, EndTag(input, Start(), rawTag))
      ensures !found ==> err != NoError && Marked() == old(Marked())
      ensures !found && Fine() ==> Cursor() == old(Cursor()) == |input|
    {
      var c := ReadByte();
      if err != NoError { return false; }
      tt := ReadClosing(c);
      return true;
    }

    /** "</>" is an empty comment; everything else is read. */
    method ReadClosing(c: byte) returns (t: TokenType)
      requires Valid() && err == NoError && Start() + 3 == Cursor() && c == input[Cursor() - 1] && Marked().data == Span(Start(), Start())
      modifies this, store
      ensures Valid() && Start() == old(Start()) && Cursor() >= old(Cursor()) - 1
      ensures maxBuf == old(maxBuf) && allowCDATA == old(allowCDATA) && (store == old(store) || fresh(store))
      ensures rawTag == old(rawTag) && (t == ErrorToken ==> err != NoError)
      ensures Fine() ==> old(Fine()) && Is(t, EndTag(input, Start(), rawTag))
    {
      if c == '>' as int {
        t := CommentToken;
      } else {
        t := ReadEndTag(c);
      }
    }

    method ReadEndTag(c: byte) returns (t: TokenType)
      requires Valid() && err == NoError && Start() + 3 == Cursor() && c == input[Cursor() - 1]
      modifies this, store
      ensures Valid() && Start() == old(Start()) && Cursor() >= old(Cursor()) - 1
      ensures maxBuf == old(maxBuf) && allowCDATA == old(allowCDATA) && (store == old(store) || fresh(store))
      ensures rawTag == old(rawTag) && (t == ErrorToken ==> err != NoError)
      ensures Fine() ==> old(Fine()) && Is(t, NamedEnd(input, old(Cursor()), rawTag))
    {
      if IsLetter(c) {
        ReadTag(false);
        return if err != NoError then ErrorToken else EndTagToken;
      }
      Rewind(1);
      ReadUntilCloseAngle();
      return CommentToken;
    }

    /** At "<" and a byte that opens a token, which starts here. */
    method NextMarkup(c: byte) returns (found: bool)
      requires Valid() && err == NoError && Start() + 2 == Cursor() && OpensToken(c) && c == input[Cursor() - 1]
      requires Marked().data == Span(Start(), Start())
      modifies this, store
      ensures Valid() && Start() == old(Start()) && Cursor() > Start()
      ensures maxBuf == old(maxBuf) && allowCDATA == old(allowCDATA) && (store == old(store) || fresh(store))
      ensures found ==> (tt == ErrorToken ==> err != NoError)
      ensures !found ==> err != NoError && base + data.start == Start() && rawTag == old(rawTag)
      ensures Fine() ==> old(Fine())
      ensures found && Fine() ==> Is(tt, Parse(MarkupAt, input, Start(), allowCDATA, old(rawTag)))
      ensures !found && Fine() ==>
        Cursor() == |input| && Parse(MarkupAt, input, Start(), allowCDATA, rawTag) == Plain(TextToken, Start(), Body(|input|, AtEnd), rawTag)
    {
      if c == '/' as int {
        assert Parse(MarkupAt, input, Start(), allowCDATA, rawTag) == EndTag(input, Start(), rawTag);
        found := NextEndTag();
      } else {
        tt := ReadMarkup(c);
        found := true;
      }
    }

    /** Markup that is no end tag. */
    method ReadMarkup(c: byte) returns (t: TokenType)
      requires Valid() && err == NoError && Start() + 2 == Cursor() && c == input[Cursor() - 1] && c != '/' as int
      modifies this, store
      ensures Valid() && Start() == old(Start()) && Cursor() > Start()
      ensures maxBuf == old(maxBuf) && allowCDATA == old(allowCDATA) && (store == old(store) || fresh(store))
      ensures t == ErrorToken ==> err != NoError
      ensures Fine() ==> old(Fine()) && Is(t, Parse(MarkupAt, input, Start(), allowCDATA, old(rawTag)))
    {
      if IsLetter(c) {
        t := ReadStartTag();
      } else {
        t := ReadCommentLike(c);
      }
    }

    /** After "<" and a byte that is no letter: a declaration, or a bogus comment. */
    method ReadCommentLike(c: byte) returns (t: TokenType)
      requires Valid() && err == NoError && Start() + 2 == Cursor()
      modifies this, store
      ensures Valid() && Start() == old(Start()) && Cursor() > Start() && t != ErrorToken
      ensures maxBuf == old(maxBuf) && allowCDATA == old(allowCDATA) && (store == old(store) || fresh(store))
      ensures Fine() ==> old(Fine()) && Is(t,
        if c == '!' as int then Declaration(AnyDeclaration, input, old(Cursor()), allowCDATA, old(rawTag))
        else Plain(CommentToken, old(Cursor()) - 1, Bogus(input, old(Cursor()) - 1), old(rawTag)))
    {
      if c == '!' as int {
        t := ReadMarkupDeclaration();
      } else {
        Rewind(1);
        ReadUntilCloseAngle();
        t := CommentToken;
      }
    }

    /** The loop of Next: text up to the next markup, or the markup. */
    method NextToken()
      requires Valid() && raw.start == raw.end && data == Span(raw.end, raw.end)
      modifies this, store
      ensures Valid() && Start() == old(Start())
      ensures maxBuf == old(maxBuf) && allowCDATA == old(allowCDATA) && (store == old(store) || fresh(store))
      ensures tt == ErrorToken ==> err != NoError
      ensures Cursor() > Start() || tt == ErrorToken
      ensures Fine() ==> old(Fine()) && Is(tt, Parse(TextOrMarkup, input, Start(), allowCDATA, old(rawTag)))
    {
      var found := NextBeforeEnd();
      if !found { NextAtEnd(); }
    }

    /** A token that does not end with the input. */
    method NextBeforeEnd() returns (found: bool)
      requires Valid() && raw.start == raw.end && data == Span(raw.end, raw.end)
      modifies this, store
      ensures Valid() && Start() == old(Start())
      ensures maxBuf == old(maxBuf) && allowCDATA == old(allowCDATA) && (store == old(store) || fresh(store))
      ensures found ==> Cursor() > Start() && (tt == ErrorToken ==> err != NoError)
      ensures !found ==> err != NoError && base + data.start == Start() && rawTag == old(rawTag)
      ensures Fine() ==> old(Fine())
      ensures found && Fine() ==> Is(tt, Parse(TextOrMarkup, input, Start(), allowCDATA, old(rawTag)))
      ensures !found && Fine() ==> err == Eof && Cursor() == |input|
      ensures !found && Fine() ==>
        Parse(TextOrMarkup, input, Start(), allowCDATA, rawTag) == Plain(if Start() < |input| then TextToken else ErrorToken, Start(), Body(|input|, AtEnd), rawTag)
    {
      var c := ReadText();
      found := false;
      if err == NoError { found := NextOpened(c); }
    }

    /** At "<" and a byte that opens a token: the text before it, or the token. */
    method NextOpened(c: byte) returns (found: bool)
      requires Valid() && err == NoError && Start() + 2 <= Cursor() && OpensToken(c) && c == input[Cursor() - 1]
      requires Marked().data == Span(Start(), Start()) && Opening(input, Start()) == At(Cursor() - 2)
      modifies this, store
      ensures Valid() && Start() == old(Start()) && Cursor() > Start()
      ensures maxBuf == old(maxBuf) && allowCDATA == old(allowCDATA) && (store == old(store) || fresh(store))
      ensures found ==> (tt == ErrorToken ==> err != NoError)
      ensures !found ==> err != NoError && base + data.start == Start() && rawTag == old(rawTag)
      ensures Fine() ==> old(Fine())
      ensures found && Fine() ==> Is(tt, Parse(TextOrMarkup, input, Start(), allowCDATA, old(rawTag)))
      ensures !found && Fine() ==> err == Eof
      ensures !found && Fine() ==>
        Cursor() == |input| && Parse(TextOrMarkup, input, Start(), allowCDATA, rawTag) == Plain(TextToken, Start(), Body(|input|, AtEnd), rawTag)
    {
      if raw.start < raw.end - 2 {
        Rewind(2);
        data := data.(end := raw.end);
        tt := TextToken;
        return true;
      }
      found := NextMarkup(c);
    }

    /** The input has ended: what is left is text. */
    method NextAtEnd()
      requires Valid() && err != NoError && data.start == raw.start
      modifies this`data, this`tt
      ensures Valid() && (Cursor() > Start() || tt == ErrorToken)
      ensures tt == if Start() < Cursor() then TextToken else ErrorToken
      ensures tt == TextToken ==> Marked().data == Span(Start(), Cursor())
    {
      if raw.start < raw.end {
        data := data.(end := raw.end);
        tt := TextToken;
      } else {
        tt := ErrorToken;
      }
    }

    /** Text up to and including "<" and a byte that opens a token. */
    method ReadText() returns (c: byte)
      requires Valid()
      modifies this, store
      ensures Valid() && Steps() && Marked() == old(Marked())
      ensures err == NoError ==> OpensToken(c) && Start() + 2 <= Cursor() && c == input[Cursor() - 1]
      ensures err == NoError ==> old(Cursor()) <= Cursor() - 2 && Opening(input, old(Cursor())) == At(Cursor() - 2)
      ensures Fine() && err == Eof ==> Opening(input, old(Cursor())) == AtEnd && Cursor() == |input|
    {
      c := 0;
      while true
        invariant Valid() && Steps() && Marked() == old(Marked())
        invariant err == NoError || Fine() ==> Opening(input, old(Cursor())) == Opening(input, Cursor())
        decreases |input| - Cursor()
      {
        var done;
        c, done := TextStep();
        if done { return; }
      }
    }

    /** One turn of that loop. */
    method TextStep() returns (c: byte, done: bool)
      requires Valid()
      modifies this, store
      ensures Valid() && Steps() && Marked() == old(Marked())
      ensures !done ==> err == NoError && Cursor() == old(Cursor()) + 1 && Opening(input, old(Cursor())) == Opening(input, Cursor())
      ensures done && err == NoError ==> Cursor() == old(Cursor()) + 2 && OpensToken(c) && c == input[Cursor() - 1]
      ensures done && err == NoError ==> Opening(input, old(Cursor())) == At(old(Cursor()))
      ensures done && Fine() && err == Eof ==> Opening(input, old(Cursor())) == AtEnd && Cursor() == |input|
    {
      c := ReadByte();
      if err != NoError { return c, true; }
      if c != '<' as int { return c, false; }
      c, done := TextAngle(Cursor() - 1);
    }

    /** After the "<" at offset `p`. */
    method TextAngle(ghost p: nat) returns (c: byte, done: bool)
      requires Valid() && err == NoError && p < |input| && Cursor() == p + 1 && input[p] == '<' as int
      modifies this, store
      ensures Valid() && Steps() && Marked() == old(Marked())
      ensures !done ==> err == NoError && Cursor() == p + 1 && Opening(input, p) == Opening(input, p + 1)
      ensures done && err == NoError ==> Cursor() == p + 2 <= |input| && OpensToken(c) && c == input[p + 1] && Opening(input, p) == At(p)
      ensures done && Fine() && err == Eof ==> Opening(input, p) == AtEnd && Cursor() == |input|
    {
      c := ReadByte();
      if err != NoError || OpensToken(c) { return c, true; }
      Rewind(1);
      return c, false;
    }

    /**
     The next token.  It starts where the last one ended, whatever the client did to the bytes
     of that one; it consumes a byte or is an ErrorToken, and after an error it is empty.  However
     the reader delivers the input, it is the token that the text has there.
     */
    method Next()
      requires Ready()
      modifies this, store
      ensures Valid() && Start() == old(Cursor()) <= Cursor()
      ensures Cursor() > Start() || tt == ErrorToken
      ensures tt == ErrorToken ==> err != NoError
      ensures old(err) != NoError ==> tt == ErrorToken && Cursor() == Start() && err == old(err) && taken == old(taken)
      ensures maxBuf == old(maxBuf) && allowCDATA == old(allowCDATA) && (store == old(store) || fresh(store))
      ensures old(err) == NoError && Fine() ==> Is(tt, Parse(AnyToken, input, old(Cursor()), allowCDATA, old(rawTag)))
    {
      raw := raw.(start := raw.end);
      data := Span(raw.end, raw.end);
      if err != NoError {
        tt := ErrorToken;
        return;
      }
      Scan();
    }

    method Scan()
      requires Valid() && err == NoError && raw.start == raw.end && data == Span(raw.end, raw.end)
      modifies this, store
      ensures Valid() && Start() == old(Start()) && Cursor() >= Start()
      ensures Cursor() > Start() || tt == ErrorToken
      ensures tt == ErrorToken ==> err != NoError
      ensures maxBuf == old(maxBuf) && allowCDATA == old(allowCDATA) && (store == old(store) || fresh(store))
      ensures Fine() ==> Is(tt, Parse(AnyToken, input, old(Cursor()), allowCDATA, old(rawTag)))
    {
      if rawTag == [] {
        NextPlain();
      } else {
        ScanRaw();
      }
    }

    method NextPlain()
      requires Valid() && raw.start == raw.end && data == Span(raw.end, raw.end)
      modifies this, store
      ensures Valid() && Start() == old(Start())
      ensures maxBuf == old(maxBuf) && allowCDATA == old(allowCDATA) && (store == old(store) || fresh(store))
      ensures tt == ErrorToken ==> err != NoError
      ensures Cursor() > Start() || tt == ErrorToken
      ensures Fine() ==> old(Fine()) && Is(tt, Parse(TextOrMarkup, input, old(Cursor()), allowCDATA, old(rawTag)))
    {
      ClearFlags();
      NextToken();
    }

    method ClearFlags()
      modifies this`textIsRaw, this`convertNUL
      ensures !textIsRaw && !convertNUL
    {
      textIsRaw, convertNUL := false, false;
    }

    method ScanRaw()
      requires Valid() && err == NoError && raw.start == raw.end && data == Span(raw.end, raw.end) && rawTag != []
      modifies this, store
      ensures Valid() && Start() == old(Start()) && Cursor() >= Start()
      ensures Cursor() > Start() || tt == ErrorToken
      ensures tt == ErrorToken ==> err != NoError
      ensures maxBuf == old(maxBuf) && allowCDATA == old(allowCDATA) && (store == old(store) || fresh(store))
      ensures Fine() ==> Is(tt, Parse(AnyToken, input, old(Cursor()), allowCDATA, old(rawTag)))
    {
      var found := NextRawText();
      if !found { NextPlain(); }
    }

    /** The text of the current token. */
    method Raw() returns (text: seq<byte>)
      requires Valid()
      ensures 0 <= Start() <= Cursor() <= |input| && text == input[Start()..Cursor()]
    {
      text := store[raw.start..raw.end];
      forall i | 0 <= i < |text| ensures text[i] == input[Start()..Cursor()][i] {
        assert Delivered(raw.start + i);
      }
    }
  }

  /** What is still to come, given the token that the tokenizer is at. */
  ghost predicate OnTrack(z: Tokenizer, done: seq<Slice>, all: seq<Slice>, tag: seq<byte>)
    requires 0 <= z.Start() <= |z.input|
    reads z
  {
    if z.tt == ErrorToken then all == done + [Slice(ErrorToken, z.input[z.Start()..])]
    else Continues(all, done, z.input, z.Start(), tag) && z.Is(z.tt, Parse(AnyToken, z.input, z.Start(), false, tag))
  }

  /** One more token: the slice of the current one, and the next. */
  method Advance(z: Tokenizer, ghost done: seq<Slice>, ghost all: seq<Slice>, ghost tag: seq<byte>) returns (slice: Slice, ghost next: seq<byte>)
    requires z.Valid() && z.maxBuf == 0 && !z.allowCDATA && 0 <= z.Start() < z.Cursor() <= |z.input| && z.tt != ErrorToken
    requires z.Fine() ==> OnTrack(z, done, all, tag)
    modifies z, z.store
    ensures z.Valid() && z.maxBuf == 0 && !z.allowCDATA && (z.store == old(z.store) || fresh(z.store))
    ensures z.Start() == old(z.Cursor()) <= z.Cursor() <= |z.input|
    ensures (z.Cursor() > z.Start() || z.tt == ErrorToken) && (z.tt == ErrorToken ==> z.err != NoError)
    ensures slice == Slice(old(z.tt), z.input[old(z.Start())..old(z.Cursor())])
    ensures z.Fine() ==> OnTrack(z, done + [slice], all, next)
  {
    var text := z.Raw();
    slice := Slice(z.tt, text);
    next := z.rawTag;
    ghost var p, q, tt, wasFine, err := z.Start(), z.Cursor(), z.tt, z.Fine(), z.err;
    if wasFine {
      ContinuesNext(all, done, z.input, p, tag);
      assert err == Eof ==> q == |z.input| && z.input[p..] == text;
    }
    z.Next();
    if z.Fine() {
      assert wasFine;
      if err == NoError {
        assert Continues(all, done + [slice], z.input, q, next);
        ContinuesNext(all, done + [slice], z.input, q, next);
      } else {
        assert z.input[q..] == [];
      }
    }
  }

  lemma Extended(slices: seq<Slice>, input: seq<byte>, from: nat, to: nat, tt: TokenType)
    requires from <= to <= |input| && Texts(slices) == input[..from]
    ensures Texts(slices + [Slice(tt, input[from..to])]) == input[..to]
  {
    TextsSnoc(slices, Slice(tt, input[from..to]));
    assert input[..to] == input[..from] + input[from..to];
  }

  /** The ErrorToken at the end. */
  method Finish(z: Tokenizer, slices: seq<Slice>, ghost all: seq<Slice>, ghost tag: seq<byte>) returns (out: seq<Slice>, e: Error)
    requires z.Valid() && z.maxBuf == 0 && z.tt == ErrorToken && z.err != NoError && Texts(slices) == z.input[..z.Start()]
    requires 0 <= z.Start() <= |z.input|
    requires z.Fine() ==> OnTrack(z, slices, all, tag)
    ensures e != NoError && Texts(out) <= z.input
    ensures e == Eof ==> out == all && Texts(out) == z.input
  {
    var text := z.Raw();
    Extended(slices, z.input, z.Start(), z.Cursor(), ErrorToken);
    out, e := slices + [Slice(ErrorToken, text)], z.err;
    if e == Eof {
      assert z.input[..|z.input|] == z.input && z.input[z.Start()..] == text;
    }
  }

  /**
   Tokenizing to the end.  However the reader cuts up the input, the raw texts of the tokens, the
   last ErrorToken's included, are the input from its beginning; and if the tokenizer ended because
   the reader said Eof, they are all of it, and type by type and text by text the tokens of the text.
   */
  method TokenizeAll(input: seq<byte>, rawTag: seq<byte>) returns (slices: seq<Slice>, e: Error)
    ensures e != NoError
    ensures Texts(slices) <= input
    ensures e == Eof ==> slices == Slices(input, 0, rawTag) && Texts(slices) == input
  {
    var z := new Tokenizer(input, rawTag);
    slices := [];
    ghost var tag := rawTag;
    ghost var all := Slices(input, 0, rawTag);
    assert [] + all == all;
    assert Continues(all, [], input, 0, rawTag);
    ContinuesNext(all, [], input, 0, rawTag);
    z.Next();
    while z.tt != ErrorToken
      invariant z.Valid() && z.input == input && fresh(z) && fresh(z.store) && z.maxBuf == 0 && !z.allowCDATA
      invariant 0 <= z.Start() <= z.Cursor() <= |input| && Texts(slices) == input[..z.Start()]
      invariant (z.Cursor() > z.Start() || z.tt == ErrorToken) && (z.tt == ErrorToken ==> z.err != NoError)
      invariant z.Fine() ==> OnTrack(z, slices, all, tag)
      decreases |input| - z.Cursor(), z.tt != ErrorToken
    {
      Extended(slices, input, z.Start(), z.Cursor(), z.tt);
      var slice;
      slice, tag := Advance(z, slices, all, tag);
      slices := slices + [slice];
    }
    slices, e := Finish(z, slices, all, tag);
  }
}
