/**
 * String helpers that the Java code gets from its standard library: ASCII case
 * mapping (the model of toLowerCase/toUpperCase with Locale.ENGLISH), decimal
 * rendering of integers (string concatenation of an int or long), UTF-8
 * encoding (String.getBytes and the UTF-8 writers) and the splitting rules of
 * String.split.
 */
module Text {

  // ---------------------------------------------------------------------------
  // ASCII case mapping

  predicate IsUpperAscii(c: char) { 'A' <= c <= 'Z' }
  predicate IsLowerAscii(c: char) { 'a' <= c <= 'z' }

  function LowerChar(c: char): char {
    if IsUpperAscii(c) then (c as int + 32) as char else c
  }

  function UpperChar(c: char): char {
    if IsLowerAscii(c) then (c as int - 32) as char else c
  }

  /** toLowerCase(Locale.ENGLISH), restricted to the ASCII letters. */
  function Lower(s: string): string {
    seq(|s|, i requires 0 <= i < |s| => LowerChar(s[i]))
  }

  /** toUpperCase(Locale.ENGLISH), restricted to the ASCII letters. */
  function Upper(s: string): string {
    seq(|s|, i requires 0 <= i < |s| => UpperChar(s[i]))
  }

  /** A string that lower-casing leaves unchanged contains no upper-case letter. */
  predicate IsLowerCased(s: string) { forall i :: 0 <= i < |s| ==> !IsUpperAscii(s[i]) }
  predicate IsUpperCased(s: string) { forall i :: 0 <= i < |s| ==> !IsLowerAscii(s[i]) }

  lemma LowerFacts(s: string)
    ensures |Lower(s)| == |s| && IsLowerCased(Lower(s))
    ensures Lower(Lower(s)) == Lower(s)
    ensures Lower(Upper(s)) == Lower(s)
    ensures forall i :: 0 <= i < |s| ==> (Lower(s)[i] == '-' <==> s[i] == '-')
  {
    assert Lower(Lower(s)) == Lower(s);
    assert Lower(Upper(s)) == Lower(s);
  }

  lemma UpperFacts(s: string)
    ensures |Upper(s)| == |s| && IsUpperCased(Upper(s))
    ensures Upper(Upper(s)) == Upper(s)
    ensures Upper(Lower(s)) == Upper(s)
    ensures forall i :: 0 <= i < |s| ==> (Upper(s)[i] == '-' <==> s[i] == '-')
  {
    assert Upper(Upper(s)) == Upper(s);
    assert Upper(Lower(s)) == Upper(s);
  }

  lemma LowerAppend(a: string, b: string)
    ensures Lower(a + b) == Lower(a) + Lower(b)
  {
    assert Lower(a + b) == Lower(a) + Lower(b);
  }

  lemma UpperAppend(a: string, b: string)
    ensures Upper(a + b) == Upper(a) + Upper(b)
  {
    assert Upper(a + b) == Upper(a) + Upper(b);
  }

  // ---------------------------------------------------------------------------
  // Decimal rendering

  predicate IsDigit(c: char) { '0' <= c <= '9' }
  predicate IsDigits(s: string) { forall i :: 0 <= i < |s| ==> IsDigit(s[i]) }

  function DigitChar(d: nat): char
    requires d < 10
  {
    ('0' as int + d) as char
  }

  /** The decimal digits of a natural number, as Java prints it. */
  function NatToString(n: nat): (r: string)
    ensures |r| > 0 && IsDigits(r)
    ensures n >= 10 ==> r[0] != '0'
    decreases n
  {
    if n < 10 then [DigitChar(n)] else NatToString(n / 10) + [DigitChar(n % 10)]
  }

  /** The number a string of decimal digits denotes. */
  function DigitsValue(s: string): nat
    requires IsDigits(s)
  {
    if s == [] then 0 else DigitsValue(s[..|s| - 1]) * 10 + (s[|s| - 1] as int - '0' as int)
  }

  /** Reading back the digits gives the number: the rendering is injective. */
  lemma {:induction false} NatToStringRoundTrip(n: nat)
    ensures DigitsValue(NatToString(n)) == n
    decreases n
  {
    if n >= 10 {
      NatToStringRoundTrip(n / 10);
      var r := NatToString(n);
      assert r[..|r| - 1] == NatToString(n / 10);
    }
  }

  /** Java's decimal rendering of an int or long (a leading '-' when negative). */
  function IntToString(i: int): string {
    if i < 0 then "-" + NatToString(-i) else NatToString(i)
  }

  // ---------------------------------------------------------------------------
  // Joining and affixes

  /** String.join(sep, parts). */
  function Join(parts: seq<string>, sep: string): string {
    if |parts| == 0 then ""
    else if |parts| == 1 then parts[0]
    else Join(parts[..|parts| - 1], sep) + sep + parts[|parts| - 1]
  }

  predicate StartsWith(s: string, prefix: string) {
    |prefix| <= |s| && s[..|prefix|] == prefix
  }

  predicate EndsWith(s: string, suffix: string) {
    |suffix| <= |s| && s[|s| - |suffix|..] == suffix
  }

  // ---------------------------------------------------------------------------
  // UTF-8

  type byte = b: int | 0 <= b < 256

  /** The UTF-8 encoding of one Unicode scalar value. */
  function Utf8Char(c: char): seq<byte> {
    var n := c as int;
    if n < 0x80 then [n]
    else if n < 0x800 then [0xC0 + n / 64, 0x80 + n % 64]
    else if n < 0x1_0000 then [0xE0 + n / 4096, 0x80 + (n / 64) % 64, 0x80 + n % 64]
    else [0xF0 + n / 262144, 0x80 + (n / 4096) % 64, 0x80 + (n / 64) % 64, 0x80 + n % 64]
  }

  /** String.getBytes(UTF_8), and what a UTF-8 writer emits for a string. */
  function Utf8(s: string): seq<byte> {
    if s == [] then [] else Utf8(s[..|s| - 1]) + Utf8Char(s[|s| - 1])
  }

  lemma {:induction false} Utf8Append(a: string, b: string)
    ensures Utf8(a + b) == Utf8(a) + Utf8(b)
    decreases |b|
  {
    if b != [] {
      var b' := b[..|b| - 1];
      assert (a + b)[..|a + b| - 1] == a + b';
      Utf8Append(a, b');
    } else {
      assert a + b == a;
    }
  }

  // ---------------------------------------------------------------------------
  // String.split

  /** The pieces of `s` between occurrences of `sep` (all of them, empty ones included). */
  function SplitOn(s: string, sep: char): (r: seq<string>)
    ensures |r| >= 1
    decreases |s|
  {
    if |s| == 0 then [""]
    else if s[0] == sep then [""] + SplitOn(s[1..], sep)
    else
      var rest := SplitOn(s[1..], sep);
      [[s[0]] + rest[0]] + rest[1..]
  }

  /** Every line break, "\r\n", "\n" or "\r" (tried in that order), written as a single "\n". */
  function NormalizeBreaks(s: string): (r: string)
    decreases |s|
  {
    if |s| == 0 then ""
    else if s[0] == '\r' && |s| >= 2 && s[1] == '\n' then "\n" + NormalizeBreaks(s[2..])
    else if s[0] == '\r' then "\n" + NormalizeBreaks(s[1..])
    else [s[0]] + NormalizeBreaks(s[1..])
  }

  /** The pieces of `s` between the line breaks "\r\n", "\n" and "\r", tried in that order. */
  function SplitLines(s: string): (r: seq<string>)
    ensures |r| >= 1
  {
    SplitOn(NormalizeBreaks(s), '\n')
  }

  function DropTrailingEmpty(pieces: seq<string>): (r: seq<string>)
    ensures |r| <= |pieces| && r == pieces[..|r|]
    ensures |r| == 0 || r[|r| - 1] != ""
    ensures forall i :: |r| <= i < |pieces| ==> pieces[i] == ""
  {
    if |pieces| > 0 && pieces[|pieces| - 1] == "" then DropTrailingEmpty(pieces[..|pieces| - 1])
    else pieces
  }

  /**
   * What String.split(regex) (limit 0) returns given the pieces between the
   * matches: the input itself when nothing matched, otherwise the pieces with
   * trailing empty strings removed.
   */
  function JavaSplit(pieces: seq<string>): seq<string> {
    if |pieces| == 1 then pieces else DropTrailingEmpty(pieces)
  }

  predicate HasLineBreak(s: string) { '\n' in s || '\r' in s }

  lemma {:induction false} SplitOnNoSep(s: string, sep: char)
    requires sep !in s
    ensures SplitOn(s, sep) == [s]
    decreases |s|
  {
    if |s| > 0 {
      SplitOnNoSep(s[1..], sep);
      assert [s[0]] + s[1..] == s;
    }
  }

  lemma {:induction false} SplitOnAppend(x: string, y: string, sep: char)
    ensures SplitOn(x + [sep] + y, sep) == SplitOn(x, sep) + SplitOn(y, sep)
    decreases |x|
  {
    if |x| == 0 {
      assert x + [sep] + y == [sep] + y;
      assert ([sep] + y)[1..] == y;
    } else {
      assert (x + [sep] + y)[1..] == x[1..] + [sep] + y;
      SplitOnAppend(x[1..], y, sep);
    }
  }

  /** Without a carriage return there is nothing to rewrite. */
  lemma {:induction false} NormalizeWithoutCr(s: string)
    requires '\r' !in s
    ensures NormalizeBreaks(s) == s
    decreases |s|
  {
    if |s| > 0 {
      NormalizeWithoutCr(s[1..]);
      assert [s[0]] + s[1..] == s;
    }
  }

  lemma SplitLinesNoBreak(s: string)
    requires !HasLineBreak(s)
    ensures SplitLines(s) == [s]
  {
    NormalizeWithoutCr(s);
    SplitOnNoSep(s, '\n');
  }

  /** How many times `c` occurs in `s`. */
  function Count(s: string, c: char): nat {
    multiset(s)[c]
  }

  /** There is one more piece than there are separators. */
  lemma {:induction false} SplitOnCount(s: string, sep: char)
    ensures |SplitOn(s, sep)| == 1 + Count(s, sep)
    decreases |s|
  {
    if |s| > 0 {
      SplitOnCount(s[1..], sep);
      assert s == [s[0]] + s[1..];
      assert multiset(s) == multiset([s[0]]) + multiset(s[1..]);
    }
  }

  /** When `s` does not end with the separator, its last piece is not empty. */
  lemma {:induction false} SplitOnLastNonEmpty(s: string, sep: char)
    requires |s| > 0 && s[|s| - 1] != sep
    ensures SplitOn(s, sep)[|SplitOn(s, sep)| - 1] != ""
    decreases |s|
  {
    if |s| > 1 {
      SplitOnLastNonEmpty(s[1..], sep);
    }
  }

  /** Splitting "x<sep>y" with no separator in x or y gives exactly [x, y]. */
  lemma SplitOnPair(x: string, y: string, sep: char)
    requires sep !in x && sep !in y
    ensures SplitOn(x + [sep] + y, sep) == [x, y]
  {
    SplitOnAppend(x, y, sep);
    SplitOnNoSep(x, sep);
    SplitOnNoSep(y, sep);
  }

  lemma JoinAppend(parts: seq<string>, p: string, sep: string)
    requires |parts| > 0
    ensures Join(parts + [p], sep) == Join(parts, sep) + sep + p
  {
    assert (parts + [p])[..|parts|] == parts;
  }

  /** A character that occurs neither in a part nor in the separator does not occur in the join. */
  lemma {:induction false} JoinExcludes(parts: seq<string>, sep: string, c: char)
    requires c !in sep
    requires forall i :: 0 <= i < |parts| ==> c !in parts[i]
    ensures c !in Join(parts, sep)
    decreases |parts|
  {
    if |parts| > 1 {
      JoinExcludes(parts[..|parts| - 1], sep, c);
    }
  }

  /** Joining break-free lines with "\n" and splitting the result into lines gives the lines back. */
  lemma SplitLinesJoin(lines: seq<string>)
    requires |lines| > 0
    requires forall i :: 0 <= i < |lines| ==> !HasLineBreak(lines[i])
    ensures SplitLines(Join(lines, "\n")) == lines
  {
    JoinExcludes(lines, "\n", '\r');
    NormalizeWithoutCr(Join(lines, "\n"));
    SplitOnJoin(lines, '\n');
  }

  /** Trailing-empty removal leaves pieces alone whose last one is not empty. */
  lemma JavaSplitKeeps(pieces: seq<string>)
    requires |pieces| > 0 && (|pieces| == 1 || pieces[|pieces| - 1] != "")
    ensures JavaSplit(pieces) == pieces
  {
  }

  /** Joining separator-free parts with a one-character separator and splitting there gives the parts back. */
  lemma {:induction false} SplitOnJoin(parts: seq<string>, sep: char)
    requires |parts| > 0
    requires forall i :: 0 <= i < |parts| ==> sep !in parts[i]
    ensures SplitOn(Join(parts, [sep]), sep) == parts
    decreases |parts|
  {
    if |parts| == 1 {
      SplitOnNoSep(parts[0], sep);
    } else {
      var init, last := parts[..|parts| - 1], parts[|parts| - 1];
      assert parts == init + [last];
      JoinAppend(init, last, [sep]);
      SplitOnAppend(Join(init, [sep]), last, sep);
      SplitOnJoin(init, sep);
      SplitOnNoSep(last, sep);
    }
  }
}
