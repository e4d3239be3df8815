/**
 * The error env.abort produces (abortError, runtime.go:16-25) and the text
 * it renders as: "wasm execution aborted at <file>:<line>:<col>: <message>",
 * the numbers in decimal as fmt's %d writes them. The rendering is proved
 * to lose nothing when the filename holds no colon: the four fields can be
 * read back from the text.
 */
module Abort {
  import opened Base

  const Prefix: string := "wasm execution aborted at "

  predicate IsDigit(c: char)
  {
    '0' <= c <= '9'
  }

  predicate AllDigits(s: string)
  {
    forall i :: 0 <= i < |s| ==> IsDigit(s[i])
  }

  function Digit(d: nat): (c: char)
    requires d < 10
    ensures IsDigit(c) && c as int - '0' as int == d
  {
    ('0' as int + d) as char
  }

  /** %d of a natural number: its decimal digits, most significant first, without leading zeros. */
  function FormatNat(n: nat): (s: string)
    ensures |s| >= 1 && AllDigits(s)
    ensures |s| > 1 ==> s[0] != '0'
  {
    if n < 10 then [Digit(n)] else FormatNat(n / 10) + [Digit(n % 10)]
  }

  /** %d of an integer: a minus sign before a negative number's magnitude. */
  function FormatInt(n: int): (s: string)
    ensures |s| >= 1 && ':' !in s
    ensures n < 0 <==> s[0] == '-'
  {
    if n < 0 then "-" + FormatNat(-n) else FormatNat(n)
  }

  /** The number a string of decimal digits denotes. */
  function ParseNat(s: string): nat
    requires AllDigits(s)
  {
    if s == [] then 0 else ParseNat(s[..|s| - 1]) * 10 + (s[|s| - 1] as int - '0' as int)
  }

  function ParseInt(s: string): Option<int>
  {
    if |s| > 1 && s[0] == '-' && AllDigits(s[1..]) then
      var magnitude: int := ParseNat(s[1..]);
      Some(-magnitude)
    else if |s| > 0 && AllDigits(s) then Some(ParseNat(s))
    else None
  }

  lemma {:induction false} ParseFormatNat(n: nat)
    ensures ParseNat(FormatNat(n)) == n
  {
    if n >= 10 {
      var s := FormatNat(n);
      assert s[..|s| - 1] == FormatNat(n / 10);
      ParseFormatNat(n / 10);
    }
  }

  /** Reading back a formatted integer gives the integer. */
  lemma ParseFormatInt(n: int)
    ensures ParseInt(FormatInt(n)) == Some(n)
  {
    var s := FormatInt(n);
    if n < 0 {
      assert s == "-" + FormatNat(-n);
      assert s[1..] == FormatNat(-n);
      ParseFormatNat(-n);
    } else {
      assert s == FormatNat(n);
      assert IsDigit(s[0]);
      ParseFormatNat(n);
    }
  }

  /** The index of the first `c` in `s`, or |s| when there is none. */
  function Find(s: string, c: char): (i: nat)
    ensures i <= |s|
    ensures i < |s| ==> s[i] == c
    ensures forall j :: 0 <= j < i ==> s[j] != c
  {
    if s == [] then 0 else if s[0] == c then 0 else 1 + Find(s[1..], c)
  }

  /** abortError.Error() (runtime.go:23-25). */
  function AbortMessage(e: Error): (text: string)
    requires e.Aborted?
    ensures |text| > |Prefix| && text[..|Prefix|] == Prefix
    ensures |text| >= |e.message| && text[|text| - |e.message|..] == e.message
  {
    Prefix + (e.filename + ":" + (FormatInt(e.lineNumber) + ":" + (FormatInt(e.columnNumber) + ":" + (" " + e.message))))
  }

  /**
   * Reads the four fields back from a rendered abort: the filename up to
   * the first colon, the line and the column up to the next ones, then the
   * message after ": ".
   */
  function ParseAbortMessage(text: string): Option<Error>
  {
    if |text| < |Prefix| || text[..|Prefix|] != Prefix then None
    else
      var rest := text[|Prefix|..];
      var i := Find(rest, ':');
      if i == |rest| then None else ParseLine(rest[..i], rest[i + 1..])
  }

  /** The line number up to the next colon, once the filename is known. */
  function ParseLine(filename: string, afterFile: string): Option<Error>
  {
    var j := Find(afterFile, ':');
    if j == |afterFile| then None
    else
      match ParseInt(afterFile[..j])
      case None => None
      case Some(line) => ParseColumn(filename, line, afterFile[j + 1..])
  }

  /** The column number up to the next colon, then ": " and the message. */
  function ParseColumn(filename: string, line: int, afterLine: string): Option<Error>
  {
    var k := Find(afterLine, ':');
    if k + 1 >= |afterLine| || afterLine[k + 1] != ' ' then None
    else
      match ParseInt(afterLine[..k])
      case None => None
      case Some(column) => Some(Aborted(afterLine[k + 2..], filename, line, column))
  }

  /** In a + ":" + b with no colon in a, the first colon is the one after a. */
  lemma FindAfter(a: string, b: string)
    requires ':' !in a
    ensures Find(a + ":" + b, ':') == |a|
    ensures (a + ":" + b)[..|a|] == a && (a + ":" + b)[|a| + 1..] == b
  {
    var s := a + ":" + b;
    assert s[|a|] == ':';
    assert forall j :: 0 <= j < |a| ==> s[j] == a[j];
  }

  lemma ParseColumnRendered(filename: string, line: int, column: int, message: string)
    ensures ParseColumn(filename, line, FormatInt(column) + ":" + (" " + message)) ==
      Some(Aborted(message, filename, line, column))
  {
    var c := FormatInt(column);
    var afterLine := c + ":" + (" " + message);
    FindAfter(c, " " + message);
    assert afterLine[|c| + 1] == ' ';
    assert afterLine[|c| + 2..] == message;
    ParseFormatInt(column);
  }

  lemma ParseLineRendered(filename: string, line: int, afterLine: string)
    ensures ParseLine(filename, FormatInt(line) + ":" + afterLine) == ParseColumn(filename, line, afterLine)
  {
    FindAfter(FormatInt(line), afterLine);
    ParseFormatInt(line);
  }

  /**
   * The rendered text determines the abort it came from whenever the
   * filename holds no colon; message, line and column may be anything.
   */
  lemma AbortMessageRoundTrip(e: Error)
    requires e.Aborted? && ':' !in e.filename
    ensures ParseAbortMessage(AbortMessage(e)) == Some(e)
  {
    var afterLine := FormatInt(e.columnNumber) + ":" + (" " + e.message);
    var afterFile := FormatInt(e.lineNumber) + ":" + afterLine;
    ParseRendered(e.filename, afterFile);
    ParseLineRendered(e.filename, e.lineNumber, afterLine);
    ParseColumnRendered(e.filename, e.lineNumber, e.columnNumber, e.message);
  }

  /** After the prefix, the filename runs up to the first colon. */
  lemma ParseRendered(filename: string, afterFile: string)
    requires ':' !in filename
    ensures ParseAbortMessage(Prefix + (filename + ":" + afterFile)) == ParseLine(filename, afterFile)
  {
    var rest := filename + ":" + afterFile;
    var text := Prefix + rest;
    assert text[..|Prefix|] == Prefix && text[|Prefix|..] == rest;
    FindAfter(filename, afterFile);
  }

  /** Two aborts with colon-free filenames that render the same are the same abort. */
  lemma AbortMessageInjective(e1: Error, e2: Error)
    requires e1.Aborted? && ':' !in e1.filename
    requires e2.Aborted? && ':' !in e2.filename
    requires AbortMessage(e1) == AbortMessage(e2)
    ensures e1 == e2
  {
    AbortMessageRoundTrip(e1);
    AbortMessageRoundTrip(e2);
  }
}
