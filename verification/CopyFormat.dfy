/** Rows and messages of COPY as the protocol has them, byte by byte. */
module CopyFormat {
  import opened Bytea
  import opened CopyIn

  function Chars(s: string): (r: Text)
    requires forall k :: 0 <= k < |s| ==> s[k] < 256 as char
    ensures |r| == |s| && forall k :: 0 <= k < |s| ==> r[k] == s[k] as int
  {
    seq(|s|, k requires 0 <= k < |s| => s[k] as int)
  }

  /** The escapes of the text format: backslash, "\n", "\r" and "\t"; every other byte is itself. */
  lemma EscapesAre(b: Byte)
    ensures EscapedChar('\\' as int) == Chars("\\\\") && EscapedChar('\n' as int) == Chars("\\n")
    ensures EscapedChar('\r' as int) == Chars("\\r") && EscapedChar('\t' as int) == Chars("\\t")
    ensures b != '\\' as int && b != '\n' as int && b != '\r' as int && b != '\t' as int ==> EscapedChar(b) == [b]
  {
  }

  /** NULL, a text with a tab in it, and a backslash: "\\N", tab, "a\\tb", tab, "\\\\", newline. */
  lemma KnownRow(serverVersion: int, row: seq<Value>)
    requires row == [Null, Value.Text(Chars("a\tb")), Value.Text(Chars("\\"))]
    ensures EncodedRow(serverVersion, row) == Chars("\\N\ta\\tb\t\\\\\n")
  {
    KnownTexts();
    KnownFields(FieldsOf(serverVersion, row));
  }

  lemma KnownFields(f: seq<Text>)
    requires |f| == 3 && f[0] == Chars("\\N") && f[1] == Chars("a\\tb") && f[2] == Chars("\\\\")
    ensures Ended(f, 3) == Chars("\\N\ta\\tb\t\\\\\n")
  {
    assert Ended(f, 1) == f[0] + Chars("\t");
    assert Ended(f, 2) == f[0] + Chars("\t") + f[1] + Chars("\t");
    assert Ended(f, 3) == f[0] + Chars("\t") + f[1] + Chars("\t") + f[2] + Chars("\n");
  }

  lemma KnownTexts()
    ensures EscapedText(Chars("a\tb")) == Chars("a\\tb") && EscapedText(Chars("\\")) == Chars("\\\\")
  {
    EscapedCons(Chars("a\tb"));
    EscapedCons(Chars("\tb"));
    EscapedCons(Chars("b"));
    EscapedCons(Chars("\\"));
    assert Chars("a\tb")[1..] == Chars("\tb") && Chars("\tb")[1..] == Chars("b") && Chars("b")[1..] == [] && Chars("\\")[1..] == [];
    assert EscapedText([]) == [];
  }

  /** A message starts with "d", and its length counts itself; the buffer is sent when it has more than 63 KB. */
  lemma KnownMessage(payload: Text)
    requires |payload| < 252
    ensures Message(payload) == Chars("d") + [0, 0, 0, |payload| + 4] + payload
    ensures FLUSH_SIZE == 63 * 1024
  {
  }
}
