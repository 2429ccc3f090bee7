/**
 * The pure helpers of the output formatter (src/application/formatter.rs): parsing the
 * output format named on the command line, and truncating a text to a byte budget.
 */
module Formatter {
  import opened Base
  import opened Text
  import Errors

  /** `OutputFormat`; Markdown is the default. */
  datatype OutputFormat = Markdown | Json | Table

  const DEFAULT_FORMAT := Markdown

  /** The result of `OutputFormat::from_str`, whose error is a message. */
  datatype Parsed = Parsed(format: OutputFormat) | Unknown(message: string)

  /** The names the error message advertises. */
  function FormatName(f: OutputFormat): string {
    match f
    case Markdown => "markdown"
    case Json => "json"
    case Table => "table"
  }

  /**
   * `OutputFormat::from_str`: the lower-cased text names a format ("md" being short for
   * Markdown); anything else is refused with a message quoting the text as given.
   */
  function FromStr(s: string): (r: Parsed)
    ensures r.Parsed? <==> ToLower(s) in {"markdown", "md", "json", "table"}
    ensures r.Parsed? ==> ToLower(s) == FormatName(r.format) || (ToLower(s) == "md" && r.format == Markdown)
    ensures r.Unknown? ==> r.message == "Unknown format: " + s + ". Use: markdown, json, table"
  {
    var l := ToLower(s);
    if l == "markdown" || l == "md" then Parsed(Markdown)
    else if l == "json" then Parsed(Json)
    else if l == "table" then Parsed(Table)
    else Unknown("Unknown format: " + s + ". Use: markdown, json, table")
  }

  lemma {:induction false} ToLowerIdempotent(s: string)
    ensures ToLower(ToLower(s)) == ToLower(s)
  {
    forall i | 0 <= i < |s|
      ensures ToLower(ToLower(s))[i] == ToLower(s)[i]
    {
      var c := s[i];
      var l := ToLowerChar(c);
      assert l as int != 0x212A && l as int != 0x212B by {
        if l != c {
          assert IsUpper(c) || c as int == 0x212A || c as int == 0x212B;
        }
      }
    }
  }

  /** Parsing ignores case: the text and its lower case parse to the same format, or both fail. */
  lemma FromStrIgnoresCase(s: string)
    ensures FromStr(ToLower(s)).Parsed? <==> FromStr(s).Parsed?
    ensures FromStr(s).Parsed? ==> FromStr(ToLower(s)) == FromStr(s)
  {
    ToLowerIdempotent(s);
  }

  /** Every format parses back from the name the error message gives for it. */
  lemma FromStrName(f: OutputFormat)
    ensures FromStr(FormatName(f)) == Parsed(f)
  {
    var n := FormatName(f);
    assert ToLower(n) == n;
  }

  lemma FromStrExamples()
    ensures FromStr("markdown") == Parsed(Markdown) && FromStr("md") == Parsed(Markdown)
    ensures FromStr("json") == Parsed(Json) && FromStr("table") == Parsed(Table)
    ensures FromStr("JSON") == Parsed(Json)
    ensures FromStr("invalid").Unknown?
  {
    FromStrName(Markdown);
    FromStrName(Json);
    FromStrName(Table);
    assert ToLower("md") == "md";
    assert ToLower("JSON") == "json";
    assert ToLower("invalid") == "invalid";
  }

  // ------------------------------------------------------------- truncation

  /**
   * `s.lines().next().unwrap_or(s)`: the text up to the first line feed, without the carriage
   * return of a "\r\n" ending; a text without a line feed is its own first line.
   */
  function FirstLine(s: string): (r: string)
    ensures |r| <= |s| && r == s[..|r|]
    ensures '\n' !in r
    ensures '\n' !in s ==> r == s
  {
    match IndexOf(s, '\n')
    case None => s
    case Some(i) => if i > 0 && s[i - 1] == '\r' then s[..i - 1] else s[..i]
  }

  /** A first line is its own first line. */
  lemma FirstLineIdempotent(s: string)
    ensures FirstLine(FirstLine(s)) == FirstLine(s)
  {
  }

  /** `max_len - 3` on a `usize` below 3 overflows, and the program panics. */
  const SUBTRACT_PANIC := Errors.Panic("attempt to subtract with overflow")

  /**
   * `truncate`: the first line when it fits in `maxLen` bytes; otherwise its first
   * `maxLen - 3` bytes followed by "...", exactly `maxLen` bytes. The program panics when
   * `maxLen` is below 3 or the cut falls inside a character.
   */
  function Truncate(s: string, maxLen: nat): (r: Errors.Result<string>)
    ensures ByteLen(FirstLine(s)) <= maxLen ==> r == Errors.Ok(FirstLine(s))
    ensures r.Ok? ==> ByteLen(r.value) <= maxLen && '\n' !in r.value
    ensures r.Ok? && ByteLen(FirstLine(s)) > maxLen ==>
      && ByteLen(r.value) == maxLen
      && EndsWith(r.value, "...")
      && StartsWith(FirstLine(s), r.value[..|r.value| - 3])
    ensures r.Err? <==>
      ByteLen(FirstLine(s)) > maxLen && (maxLen < 3 || BytePrefix(FirstLine(s), maxLen - 3).None?)
  {
    var line := FirstLine(s);
    if ByteLen(line) <= maxLen then Errors.Ok(line)
    else if maxLen < 3 then Errors.Err(SUBTRACT_PANIC)
    else match BytePrefix(line, maxLen - 3)
      case None => Errors.Err(Errors.SLICE_PANIC)
      case Some(p) =>
        var r := p + "...";
        assert ByteLen(r) == ByteLen(p) + 3 && '\n' !in r by { ByteLenAppend(p, "..."); }
        assert r[..|r| - 3] == p && r[|r| - 3..] == "...";
        Errors.Ok(r)
  }

  lemma {:induction false} ByteLenAppend(a: string, b: string)
    ensures ByteLen(a + b) == ByteLen(a) + ByteLen(b)
    decreases |a|
  {
    if a == [] {
      assert a + b == b;
    } else {
      assert (a + b)[0] == a[0] && (a + b)[1..] == a[1..] + b;
      ByteLenAppend(a[1..], b);
    }
  }

  /** Only the first line counts: truncating a text and truncating its first line agree. */
  lemma TruncateFirstLine(s: string, maxLen: nat)
    ensures Truncate(s, maxLen) == Truncate(FirstLine(s), maxLen)
  {
    FirstLineIdempotent(s);
  }

  /** On ASCII text with a budget of at least 3, truncation never panics and keeps `maxLen - 3` characters. */
  lemma TruncateAscii(s: string, maxLen: nat)
    requires IsAscii(FirstLine(s)) && 3 <= maxLen < |FirstLine(s)|
    ensures Truncate(s, maxLen) == Errors.Ok(FirstLine(s)[..maxLen - 3] + "...")
  {
    AsciiByteLen(FirstLine(s));
    AsciiBytePrefix(FirstLine(s), maxLen - 3);
  }

  lemma TruncateShortExample()
    ensures Truncate("hello", 10) == Errors.Ok("hello")
  {
    assert IsAscii("hello");
    AsciiByteLen("hello");
  }

  /** "hello world!" cut to 8 bytes is "hello...". */
  lemma TruncateLongExample(t: string)
    requires t == "hello world!"
    ensures Truncate(t, 8) == Errors.Ok("hello...")
  {
    assert '\n' !in t;
    assert IsAscii(t);
    assert FirstLine(t) == t;
    TruncateAscii(t, 8);
    assert t[..5] + "..." == "hello...";
  }

  /** A "\r\n" ending is not part of the first line. */
  lemma TruncateCrLfExample(t: string)
    requires t == "first\r\nsecond"
    ensures Truncate(t, 10) == Errors.Ok("first")
  {
    assert t[5] == '\r' && t[6] == '\n' && '\n' !in t[..6];
    assert t[..5] == "first";
    assert FirstLine(t) == "first";
    assert IsAscii("first");
    AsciiByteLen("first");
  }
}
