/**
 * The string operations of Rust's standard library and of SQLite that the source relies on:
 * Unicode character classes, UTF-8 byte offsets and slicing, prefixes and substrings,
 * splitting and joining, integer parsing, and the SQL LIKE operator.
 */
module Text {
  import opened Base

  /** `char::is_whitespace`: the Unicode White_Space property. */
  predicate IsWhitespace(c: char) {
    var n := c as int;
    (0x09 <= n <= 0x0D) || n == 0x20 || n == 0x85 || n == 0xA0 || n == 0x1680
    || (0x2000 <= n <= 0x200A) || n == 0x2028 || n == 0x2029 || n == 0x202F
    || n == 0x205F || n == 0x3000
  }

  /**
   * `char::is_alphanumeric` (alphabetic or numeric), exact for U+0000 to U+00FF;
   * characters above U+00FF are classified as not alphanumeric.
   */
  predicate IsAlphanumeric(c: char) {
    var n := c as int;
    ('0' <= c <= '9') || ('A' <= c <= 'Z') || ('a' <= c <= 'z')
    || n == 0xAA || n == 0xB2 || n == 0xB3 || n == 0xB5 || n == 0xB9 || n == 0xBA
    || (0xBC <= n <= 0xBE) || (0xC0 <= n <= 0xD6) || (0xD8 <= n <= 0xF6) || (0xF8 <= n <= 0xFF)
  }

  predicate IsUpper(c: char) {
    var n := c as int;
    ('A' <= c <= 'Z') || (0xC0 <= n <= 0xDE && n != 0xD7)
  }

  /**
   * `char::to_lowercase` for characters that lower-case to a single character: exact up to
   * U+00FF and for the two letter-like symbols (KELVIN SIGN, ANGSTROM SIGN) whose lower case
   * lies in that range; other characters above U+00FF are left as they are.
   */
  function ToLowerChar(c: char): (r: char)
    ensures !IsUpper(r)
    ensures IsAlphanumeric(c) ==> IsAlphanumeric(r)
    ensures r == c || IsUpper(c) || c as int == 0x212A || c as int == 0x212B
  {
    var n := c as int;
    if IsUpper(c) then (n + 32) as char
    else if n == 0x212A then 'k'
    else if n == 0x212B then 0xE5 as char
    else c
  }

  /** `str::to_lowercase`, character by character. */
  function ToLower(s: string): (r: string)
    ensures |r| == |s|
    ensures forall i :: 0 <= i < |s| ==> r[i] == ToLowerChar(s[i])
  {
    seq(|s|, i requires 0 <= i < |s| => ToLowerChar(s[i]))
  }

  /** SQLite's built-in case folding for LIKE: ASCII letters only. */
  function AsciiFold(c: char): char {
    if 'A' <= c <= 'Z' then (c as int + 32) as char else c
  }

  /** Number of bytes of a character in UTF-8. */
  function Utf8Len(c: char): nat {
    var n := c as int;
    if n < 0x80 then 1 else if n < 0x800 then 2 else if n < 0x1_0000 then 3 else 4
  }

  /** `str::len`: the length in UTF-8 bytes. */
  function ByteLen(s: string): nat
    decreases |s|
  {
    if s == [] then 0 else Utf8Len(s[0]) + ByteLen(s[1..])
  }

  predicate IsAscii(s: string) {
    forall i :: 0 <= i < |s| ==> s[i] as int < 0x80
  }

  /**
   * `&s[..k]` with `k` a byte offset: `None` where Rust panics, that is when `k` is past
   * the end or falls inside the encoding of a character.
   */
  function BytePrefix(s: string, k: nat): (r: Option<string>)
    ensures r.Some? ==> |r.value| <= |s| && r.value == s[..|r.value|] && ByteLen(r.value) == k
    decreases |s|
  {
    if k == 0 then Some([])
    else if s == [] || k < Utf8Len(s[0]) then None
    else match BytePrefix(s[1..], k - Utf8Len(s[0]))
      case None => None
      case Some(p) => Some([s[0]] + p)
  }

  lemma {:induction false} AsciiByteLen(s: string)
    requires IsAscii(s)
    ensures ByteLen(s) == |s|
    decreases |s|
  {
    if s != [] {
      AsciiByteLen(s[1..]);
    }
  }

  /** On ASCII text byte offsets are character offsets, so slicing never panics. */
  lemma {:induction false} AsciiBytePrefix(s: string, k: nat)
    requires IsAscii(s) && k <= |s|
    ensures BytePrefix(s, k) == Some(s[..k])
    decreases |s|
  {
    if k != 0 {
      AsciiBytePrefix(s[1..], k - 1);
      assert [s[0]] + s[1..][..k - 1] == s[..k];
    }
  }

  /** Slicing the whole string never panics. */
  lemma {:induction false} BytePrefixAll(s: string)
    ensures BytePrefix(s, ByteLen(s)) == Some(s)
    decreases |s|
  {
    if s != [] {
      BytePrefixAll(s[1..]);
      assert [s[0]] + s[1..] == s;
    }
  }

  predicate StartsWith(s: string, p: string) {
    |p| <= |s| && s[..|p|] == p
  }

  predicate EndsWith(s: string, p: string) {
    |p| <= |s| && s[|s| - |p|..] == p
  }

  /** `str::contains` with a string pattern. */
  predicate Contains(s: string, p: string)
    decreases |s|
  {
    StartsWith(s, p) || (s != [] && Contains(s[1..], p))
  }

  predicate OccursAt(s: string, p: string, i: int) {
    0 <= i <= |s| - |p| && s[i..i + |p|] == p
  }

  lemma {:induction false} ContainsIff(s: string, p: string)
    ensures Contains(s, p) <==> exists i :: OccursAt(s, p, i)
    decreases |s|
  {
    if s != [] {
      ContainsIff(s[1..], p);
      if Contains(s[1..], p) {
        var i :| OccursAt(s[1..], p, i);
        assert s[1..][i..i + |p|] == s[i + 1..i + 1 + |p|];
        assert OccursAt(s, p, i + 1);
      }
      if exists i :: OccursAt(s, p, i) {
        var i :| OccursAt(s, p, i);
        if i > 0 {
          assert s[1..][i - 1..i - 1 + |p|] == s[i..i + |p|];
          assert OccursAt(s[1..], p, i - 1);
        }
      }
    }
    if StartsWith(s, p) {
      assert s[0..|p|] == s[..|p|];
      assert OccursAt(s, p, 0);
    }
  }

  lemma {:induction false} StartsWithContains(s: string, p: string)
    requires StartsWith(s, p)
    ensures Contains(s, p)
  {
  }

  /** `str::strip_prefix`. */
  function StripPrefix(s: string, p: string): (r: Option<string>)
    ensures r.Some? <==> StartsWith(s, p)
    ensures r.Some? ==> s == p + r.value
  {
    if StartsWith(s, p) then Some(s[|p|..]) else None
  }

  /** `str::trim().is_empty()`: the text is whitespace only. */
  predicate IsBlank(s: string) {
    forall i :: 0 <= i < |s| ==> IsWhitespace(s[i])
  }

  function CountChar(s: string, c: char): nat
    decreases |s|
  {
    if s == [] then 0 else (if s[0] == c then 1 else 0) + CountChar(s[1..], c)
  }

  /** Index of the first occurrence of `c`, if any. */
  function IndexOf(s: string, c: char): (r: Option<nat>)
    ensures r.Some? ==> r.value < |s| && s[r.value] == c && c !in s[..r.value]
    ensures r.None? ==> c !in s
    decreases |s|
  {
    if s == [] then None
    else if s[0] == c then Some(0)
    else match IndexOf(s[1..], c)
      case None => None
      case Some(i) => Some(i + 1)
  }

  /** Index of the last occurrence of `c` (`str::rfind` with a char). */
  function RFind(s: string, c: char): (r: Option<nat>)
    ensures r.Some? ==> r.value < |s| && s[r.value] == c && c !in s[r.value + 1..]
    ensures r.None? ==> c !in s
    decreases |s|
  {
    if s == [] then None
    else if s[|s| - 1] == c then Some(|s| - 1)
    else match RFind(s[..|s| - 1], c)
      case None => None
      case Some(i) => (assert s[i + 1..] == s[..|s| - 1][i + 1..] + [s[|s| - 1]]; Some(i))
  }

  /** `str::split` with a char separator: there is always at least one part. */
  function Split(s: string, sep: char): (parts: seq<string>)
    ensures |parts| == CountChar(s, sep) + 1
    ensures forall i :: 0 <= i < |parts| ==> sep !in parts[i]
    decreases |s|
  {
    if s == [] then [[]]
    else
      var rest := Split(s[1..], sep);
      if s[0] == sep then [[]] + rest else [[s[0]] + rest[0]] + rest[1..]
  }

  /** The first part of a split is the text before the first separator. */
  lemma {:induction false} SplitFirst(s: string, sep: char)
    ensures IndexOf(s, sep).None? ==> Split(s, sep)[0] == s
    ensures IndexOf(s, sep).Some? ==> Split(s, sep)[0] == s[..IndexOf(s, sep).value]
    decreases |s|
  {
    if s != [] {
      SplitFirst(s[1..], sep);
      if s[0] != sep {
        if IndexOf(s[1..], sep).Some? {
          assert [s[0]] + s[1..][..IndexOf(s[1..], sep).value] == s[..IndexOf(s, sep).value];
        } else {
          assert [s[0]] + s[1..] == s;
        }
      }
    }
  }

  /** With exactly one separator, the split has the two sides of it. */
  lemma {:induction false} SplitOnce(s: string, sep: char, i: nat)
    requires i < |s| && s[i] == sep && sep !in s[..i] && sep !in s[i + 1..]
    ensures Split(s, sep) == [s[..i], s[i + 1..]]
    decreases |s|
  {
    if i == 0 {
      SplitNone(s[1..], sep);
    } else {
      assert s[1..][..i - 1] == s[1..i];
      assert s[1..][i..] == s[i + 1..];
      SplitOnce(s[1..], sep, i - 1);
      assert [s[0]] + s[1..i] == s[..i];
    }
  }

  lemma {:induction false} SplitNone(s: string, sep: char)
    requires sep !in s
    ensures Split(s, sep) == [s]
    decreases |s|
  {
    if s != [] {
      SplitNone(s[1..], sep);
      assert [s[0]] + s[1..] == s;
    }
  }

  lemma {:induction false} CountCharZero(s: string, c: char)
    ensures CountChar(s, c) == 0 <==> c !in s
    decreases |s|
  {
    if s != [] {
      CountCharZero(s[1..], c);
      assert c in s <==> s[0] == c || c in s[1..];
    }
  }

  /** Exactly one occurrence of `c` sits at the first index and nowhere after it. */
  lemma {:induction false} CountCharOne(s: string, c: char)
    requires CountChar(s, c) == 1
    ensures IndexOf(s, c).Some?
    ensures c !in s[IndexOf(s, c).value + 1..]
    decreases |s|
  {
    assert s != [];
    if s[0] == c {
      CountCharZero(s[1..], c);
    } else {
      CountCharOne(s[1..], c);
      assert s[IndexOf(s, c).value + 1..] == s[1..][IndexOf(s[1..], c).value + 1..];
    }
  }

  predicate NoWhitespace(w: string) {
    forall i :: 0 <= i < |w| ==> !IsWhitespace(w[i])
  }

  /**
   * `str::split_whitespace`: the maximal runs of non-whitespace characters, built from the
   * back: a non-whitespace character joins the word that starts right after it, if any.
   */
  function SplitWhitespace(s: string): (words: seq<string>)
    ensures forall k :: 0 <= k < |words| ==> words[k] != [] && NoWhitespace(words[k])
    ensures s != [] && !IsWhitespace(s[0]) ==> words != [] && words[0][0] == s[0]
    decreases |s|
  {
    if s == [] then []
    else
      var rest := SplitWhitespace(s[1..]);
      if IsWhitespace(s[0]) then rest
      else if |s| > 1 && !IsWhitespace(s[1]) then [[s[0]] + rest[0]] + rest[1..]
      else [[s[0]]] + rest
  }

  /** Every character of a word occurs in the text. */
  lemma {:induction false} SplitWhitespaceChars(s: string, k: nat, c: char)
    requires k < |SplitWhitespace(s)| && c in SplitWhitespace(s)[k]
    ensures c in s
    decreases |s|
  {
    var rest := SplitWhitespace(s[1..]);
    if IsWhitespace(s[0]) {
      SplitWhitespaceChars(s[1..], k, c);
    } else if |s| > 1 && !IsWhitespace(s[1]) {
      if k == 0 && c != s[0] {
        assert c in rest[0];
        SplitWhitespaceChars(s[1..], 0, c);
      } else if k > 0 {
        SplitWhitespaceChars(s[1..], k, c);
      }
    } else if k > 0 {
      SplitWhitespaceChars(s[1..], k - 1, c);
    }
  }

  /** `slice::join` of strings with a separator. */
  function Join(words: seq<string>, sep: string): string
    decreases |words|
  {
    if words == [] then []
    else if |words| == 1 then words[0]
    else words[0] + sep + Join(words[1..], sep)
  }

  /** Every character of a join comes from a word or from the separator. */
  lemma {:induction false} JoinChars(words: seq<string>, sep: string, c: char)
    requires c in Join(words, sep)
    ensures c in sep || exists k :: 0 <= k < |words| && c in words[k]
    decreases |words|
  {
    if |words| > 1 {
      var rest := Join(words[1..], sep);
      assert Join(words, sep) == words[0] + sep + rest;
      if c !in words[0] && c !in sep {
        assert c in rest;
        JoinChars(words[1..], sep, c);
        if c !in sep {
          var k :| 0 <= k < |words[1..]| && c in words[1..][k];
          assert c in words[k + 1];
        }
      }
    } else if |words| == 1 {
      assert c in words[0];
    }
  }

  /** `Iterator::take`. */
  function Take<T>(s: seq<T>, n: nat): (r: seq<T>)
    ensures |r| <= n && |r| <= |s|
    ensures r == s[..|r|]
  {
    if |s| <= n then s else s[..n]
  }

  /** The value of a non-empty run of ASCII decimal digits. */
  function DigitsValue(s: string): Option<nat>
    decreases |s|
  {
    if s == [] || !('0' <= s[|s| - 1] <= '9') then None
    else if |s| == 1 then Some(s[0] as int - '0' as int)
    else match DigitsValue(s[..|s| - 1])
      case None => None
      case Some(v) => Some(v * 10 + (s[|s| - 1] as int - '0' as int))
  }

  /**
   * `str::parse::<i64>`: an optional `+` or `-`, then one or more ASCII digits, whose value
   * must lie in the i64 range.
   */
  function ParseI64(s: string): (r: Option<int>)
    ensures r.Some? ==> I64_MIN <= r.value <= I64_MAX
    ensures s == [] ==> r.None?
  {
    if s == [] then None
    else if s[0] == '-' then
      match DigitsValue(s[1..])
      case None => None
      case Some(v) => if -(v as int) >= I64_MIN then Some(-(v as int)) else None
    else
      var digits := if s[0] == '+' then s[1..] else s;
      match DigitsValue(digits)
      case None => None
      case Some(v) => if v <= I64_MAX then Some(v) else None
  }

  /**
   * SQLite's `LIKE` with its default settings: `%` matches any run of characters, `_` any
   * single character, and letters compare equal up to ASCII case.
   */
  predicate Like(s: string, pattern: string)
    decreases |s| + |pattern|
  {
    if pattern == [] then s == []
    else if pattern[0] == '%' then
      Like(s, pattern[1..]) || (s != [] && Like(s[1..], pattern))
    else
      s != [] && (pattern[0] == '_' || AsciiFold(s[0]) == AsciiFold(pattern[0]))
      && Like(s[1..], pattern[1..])
  }

  /** `p` starts `s` up to ASCII case. */
  predicate StartsWithIgnoringAsciiCase(s: string, p: string) {
    |p| <= |s| && forall i :: 0 <= i < |p| ==> AsciiFold(s[i]) == AsciiFold(p[i])
  }

  lemma {:induction false} LikeAnything(s: string)
    ensures Like(s, "%")
    decreases |s|
  {
    if s != [] {
      LikeAnything(s[1..]);
    }
  }

  /** `key LIKE 'prefix%'` for a prefix free of wildcards is a case-insensitive prefix test. */
  lemma {:induction false} LikePrefixIff(s: string, p: string)
    requires '%' !in p && '_' !in p
    ensures Like(s, p + "%") <==> StartsWithIgnoringAsciiCase(s, p)
    decreases |p|
  {
    if p == [] {
      assert p + "%" == "%";
      LikeAnything(s);
    } else {
      assert (p + "%")[1..] == p[1..] + "%";
      assert (p + "%")[0] == p[0];
      if s != [] {
        LikePrefixIff(s[1..], p[1..]);
        if StartsWithIgnoringAsciiCase(s, p) {
          assert StartsWithIgnoringAsciiCase(s[1..], p[1..]) by {
            forall i | 0 <= i < |p[1..]| ensures AsciiFold(s[1..][i]) == AsciiFold(p[1..][i]) {
              assert AsciiFold(s[i + 1]) == AsciiFold(p[i + 1]);
            }
          }
        }
      }
    }
  }

  /** An exact prefix is in particular a prefix up to ASCII case. */
  lemma StartsWithIgnoringCase(s: string, p: string)
    requires StartsWith(s, p)
    ensures StartsWithIgnoringAsciiCase(s, p)
  {
    forall i | 0 <= i < |p| ensures AsciiFold(s[i]) == AsciiFold(p[i]) {
      assert s[..|p|][i] == s[i];
    }
  }
}
