/** Character classes and small string operations shared by the C# and JavaScript parts of the model. */
module Text {

  /** JavaScript's `\s` class, which `String.prototype.trim` also strips: WhiteSpace and LineTerminator. */
  predicate IsJsSpace(c: char) {
    c == '\t' || c == '\n' || c == '\U{000B}' || c == '\U{000C}' || c == '\r' || c == ' '
    || c == '\U{00A0}' || c == '\U{1680}' || ('\U{2000}' <= c <= '\U{200A}')
    || c == '\U{2028}' || c == '\U{2029}' || c == '\U{202F}' || c == '\U{205F}'
    || c == '\U{3000}' || c == '\U{FEFF}'
  }

  /** JavaScript's LineTerminator characters: the ones a regular expression's `.` does not match. */
  predicate IsJsLineTerminator(c: char) {
    c == '\n' || c == '\r' || c == '\U{2028}' || c == '\U{2029}'
  }

  /** JavaScript's `\w` class. */
  predicate IsWordChar(c: char) {
    ('a' <= c <= 'z') || ('A' <= c <= 'Z') || ('0' <= c <= '9') || c == '_'
  }

  /** JavaScript's `\d` class. */
  predicate IsDigit(c: char) {
    '0' <= c <= '9'
  }

  /** .NET's `char.IsWhiteSpace` (used by `string.IsNullOrWhiteSpace`); note U+0085 is in and U+FEFF is not. */
  predicate IsDotNetWhiteSpace(c: char) {
    ('\t' <= c <= '\r') || c == ' ' || c == '\U{0085}' || c == '\U{00A0}' || c == '\U{1680}'
    || ('\U{2000}' <= c <= '\U{200A}') || c == '\U{2028}' || c == '\U{2029}'
    || c == '\U{202F}' || c == '\U{205F}' || c == '\U{3000}'
  }

  /** `string.IsNullOrWhiteSpace` on a non-null string: every character is .NET white space. */
  predicate IsWhiteSpaceOnly(s: string) {
    forall k :: 0 <= k < |s| ==> IsDotNetWhiteSpace(s[k])
  }

  predicate StartsWith(s: string, prefix: string) {
    |prefix| <= |s| && s[..|prefix|] == prefix
  }

  predicate EndsWith(s: string, suffix: string) {
    |suffix| <= |s| && s[|s| - |suffix|..] == suffix
  }

  /** `s.includes(p)` / `s.Contains(p)`: `p` occurs at some position of `s`. */
  predicate Contains(s: string, p: string) {
    exists i :: 0 <= i <= |s| - |p| && OccursAt(s, p, i)
  }

  /** `p` occurs in `s` starting at position `i`. */
  predicate OccursAt(s: string, p: string, i: int) {
    0 <= i && i + |p| <= |s| && s[i..i + |p|] == p
  }

  /** Length of the run of JavaScript white space at the start of `s`. */
  function LeadingSpace(s: string): (n: nat)
    ensures n <= |s|
    ensures n < |s| ==> !IsJsSpace(s[n])
  {
    if |s| == 0 || !IsJsSpace(s[0]) then 0 else 1 + LeadingSpace(s[1..])
  }

  /** Length of the run of JavaScript white space at the end of `s`. */
  function TrailingSpace(s: string): (n: nat)
    ensures n <= |s|
    ensures n < |s| ==> !IsJsSpace(s[|s| - n - 1])
  {
    if |s| == 0 || !IsJsSpace(s[|s| - 1]) then 0 else 1 + TrailingSpace(s[..|s| - 1])
  }

  /** `String.prototype.trim`: the longest infix of `s` that neither starts nor ends with white space. */
  function Trim(s: string): (r: string)
    ensures |r| <= |s|
    ensures r == [] || (!IsJsSpace(r[0]) && !IsJsSpace(r[|r| - 1]))
  {
    var a := LeadingSpace(s);
    var t := s[a..];
    var b := TrailingSpace(t);
    t[..|t| - b]
  }

  /** A trimmed string is unchanged by trimming again. */
  lemma TrimIdempotent(s: string)
    ensures Trim(Trim(s)) == Trim(s)
  {
    var r := Trim(s);
    assert LeadingSpace(r) == 0;
    assert TrailingSpace(r) == 0;
    assert r[0..] == r;
  }

  /** A string of white space only trims to the empty string. */
  lemma TrimAllSpace(s: string)
    requires forall k :: 0 <= k < |s| ==> IsJsSpace(s[k])
    ensures Trim(s) == []
  {
    var a := LeadingSpace(s);
    assert a == |s|;
  }

  /** `s` has no white space at either end: what `trim` returns. */
  predicate IsTrimmed(s: string) {
    s == [] || (!IsJsSpace(s[0]) && !IsJsSpace(s[|s| - 1]))
  }

  /** Trimming a trimmed string changes nothing. */
  lemma TrimTrimmed(s: string)
    requires IsTrimmed(s)
    ensures Trim(s) == s
  {
    assert LeadingSpace(s) == 0;
    assert TrailingSpace(s) == 0;
    assert s[0..] == s;
  }

  /** One trailing blank is trimmed off a trimmed non-empty string. */
  lemma TrimDropsTrailingBlank(s: string)
    requires s != [] && IsTrimmed(s)
    ensures Trim(s + " ") == s
  {
    var t := s + " ";
    assert LeadingSpace(t) == 0;
    assert t[0..] == t;
    assert t[..|t| - 1] == s;
    assert TrailingSpace(t[..|t| - 1]) == 0;
    assert TrailingSpace(t) == 1;
  }

  function AsciiLower(c: char): (r: char)
    ensures ('A' <= c <= 'Z') ==> r as int == c as int + 32
    ensures !('A' <= c <= 'Z') ==> r == c
  {
    if 'A' <= c <= 'Z' then (c as int + 32) as char else c
  }

  function AsciiUpper(c: char): (r: char)
    ensures ('a' <= c <= 'z') ==> r as int == c as int - 32
    ensures !('a' <= c <= 'z') ==> r == c
  {
    if 'a' <= c <= 'z' then (c as int - 32) as char else c
  }

  /** `toLowerCase` restricted to ASCII letters. */
  function LowerAscii(s: string): (r: string)
    ensures |r| == |s|
    ensures forall k :: 0 <= k < |s| ==> r[k] == AsciiLower(s[k])
  {
    if s == [] then [] else [AsciiLower(s[0])] + LowerAscii(s[1..])
  }

  /** Ordinal comparison ignoring the case of ASCII letters (.NET `StringComparison.OrdinalIgnoreCase`). */
  predicate EqualsIgnoreCase(a: string, b: string) {
    |a| == |b| && forall k :: 0 <= k < |a| ==> AsciiUpper(a[k]) == AsciiUpper(b[k])
  }

  function DigitChar(d: nat): (c: char)
    requires d < 10
    ensures IsDigit(c)
  {
    "0123456789"[d]
  }

  /** The decimal digits of `n`, with no leading zero (C# `int.ToString()`, JavaScript template interpolation). */
  function NatToString(n: nat): (r: string)
    ensures |r| >= 1
    ensures forall k :: 0 <= k < |r| ==> IsDigit(r[k])
    ensures n >= 10 ==> r[0] != '0'
    decreases n
  {
    if n < 10 then [DigitChar(n)] else NatToString(n / 10) + [DigitChar(n % 10)]
  }

  function IntToString(i: int): (r: string)
    ensures |r| >= 1
    ensures i < 0 <==> r[0] == '-'
  {
    if i < 0 then "-" + NatToString(-i) else NatToString(i)
  }

  /** The number of bytes `Encoding.UTF8` writes for one character (a Unicode scalar value). */
  function Utf8Width(c: char): (n: nat)
    ensures 1 <= n <= 4
    ensures n == 1 <==> c as int < 0x80
  {
    if c as int < 0x80 then 1 else if c as int < 0x800 then 2 else if c as int < 0x1_0000 then 3 else 4
  }

  /** `Encoding.UTF8.GetBytes(s).Length`. */
  function Utf8Length(s: string): (n: nat)
    ensures |s| <= n <= 4 * |s|
  {
    if s == [] then 0 else Utf8Width(s[0]) + Utf8Length(s[1..])
  }

  /** The number of UTF-16 code units .NET and JavaScript store for one character. */
  function Utf16Width(c: char): (n: nat)
    ensures n == 1 <==> c as int < 0x1_0000
    ensures n == 2 <==> c as int >= 0x1_0000
  {
    if c as int < 0x1_0000 then 1 else 2
  }

  /** A string's `Length` in .NET (and `length` in JavaScript): its UTF-16 code units. */
  function Utf16Length(s: string): (n: nat)
    ensures |s| <= n <= 2 * |s|
  {
    if s == [] then 0 else Utf16Width(s[0]) + Utf16Length(s[1..])
  }

  /** `n` copies of one character take `n` times its width in code units. */
  lemma {:induction false} Utf16LengthRepeat(c: char, n: nat)
    ensures Utf16Length(seq(n, _ => c)) == n * Utf16Width(c)
  {
    if n > 0 {
      assert seq(n, _ => c)[1..] == seq(n - 1, _ => c);
      Utf16LengthRepeat(c, n - 1);
    }
  }

  /** An ASCII string takes one byte per character. */
  lemma {:induction false} Utf8LengthAscii(s: string)
    requires forall k :: 0 <= k < |s| ==> s[k] as int < 0x80
    ensures Utf8Length(s) == |s|
  {
    if s != [] {
      assert s[0] as int < 0x80;
      Utf8LengthAscii(s[1..]);
    }
  }

  /** The value of a string of decimal digits: the inverse of NatToString. */
  function DecimalValue(s: string): nat
    requires forall k :: 0 <= k < |s| ==> IsDigit(s[k])
  {
    if s == [] then 0
    else
      assert IsDigit(s[|s| - 1]);
      10 * DecimalValue(s[..|s| - 1]) + (s[|s| - 1] as int - '0' as int)
  }

  lemma {:induction false} NatToStringRoundTrip(n: nat)
    ensures DecimalValue(NatToString(n)) == n
    decreases n
  {
    if n >= 10 {
      NatToStringRoundTrip(n / 10);
      var r := NatToString(n);
      assert r[..|r| - 1] == NatToString(n / 10);
    }
  }

  /** Distinct numbers print differently, so a printed id identifies its number. */
  lemma NatToStringInjective(m: nat, n: nat)
    requires NatToString(m) == NatToString(n)
    ensures m == n
  {
    NatToStringRoundTrip(m);
    NatToStringRoundTrip(n);
  }

  /** The first position at or after `from` holding `c`, or |s| when there is none. */
  function IndexOf(s: string, c: char, from: nat): (k: nat)
    requires from <= |s|
    ensures from <= k <= |s|
    ensures forall m :: from <= m < k ==> s[m] != c
    ensures k < |s| ==> s[k] == c
    decreases |s| - from
  {
    if from == |s| || s[from] == c then from else IndexOf(s, c, from + 1)
  }

  /** The first `c` at or after `from` is at `k` when positions from..k-1 hold other characters. */
  lemma {:induction false} IndexOfAt(s: string, c: char, from: nat, k: nat)
    requires from <= k <= |s|
    requires forall m :: from <= m < k ==> s[m] != c
    requires k < |s| ==> s[k] == c
    ensures IndexOf(s, c, from) == k
    decreases k - from
  {
    if from < k {
      IndexOfAt(s, c, from + 1, k);
    }
  }

  /** The character classes that regular-expression runs are made of: `\s`, `\S`, `\w`. */
  datatype CharClass = Space | NonSpace | Word

  predicate InClass(c: char, cls: CharClass) {
    match cls
    case Space => IsJsSpace(c)
    case NonSpace => !IsJsSpace(c)
    case Word => IsWordChar(c)
  }

  /** The end of the run of `cls` characters that starts at `i` (a greedy `\s*`, `\S*` or `\w*`). */
  function RunEnd(s: string, i: nat, cls: CharClass): (j: nat)
    requires i <= |s|
    ensures i <= j <= |s|
    ensures forall k :: i <= k < j ==> InClass(s[k], cls)
    ensures j < |s| ==> !InClass(s[j], cls)
    decreases |s| - i
  {
    if i < |s| && InClass(s[i], cls) then RunEnd(s, i + 1, cls) else i
  }

  /** The run from `i` ends at `j` when exactly positions i..j-1 are in it. */
  lemma {:induction false} RunEndAt(s: string, i: nat, j: nat, cls: CharClass)
    requires i <= j <= |s|
    requires forall k :: i <= k < j ==> InClass(s[k], cls)
    requires j < |s| ==> !InClass(s[j], cls)
    ensures RunEnd(s, i, cls) == j
    decreases j - i
  {
    if i < j {
      RunEndAt(s, i + 1, j, cls);
    }
  }

  /** The first line terminator at or after `from`, or |s|: where a regular expression's `.+` must stop. */
  function LineEnd(s: string, from: nat): (e: nat)
    requires from <= |s|
    ensures from <= e <= |s|
    ensures forall m :: from <= m < e ==> !IsJsLineTerminator(s[m])
    ensures e < |s| ==> IsJsLineTerminator(s[e])
    decreases |s| - from
  {
    if from == |s| || IsJsLineTerminator(s[from]) then from else LineEnd(s, from + 1)
  }

  /** The line of `s` from `from` has no line terminator up to `e`, which ends it. */
  lemma {:induction false} LineEndAt(s: string, from: nat, e: nat)
    requires from <= e <= |s|
    requires forall m :: from <= m < e ==> !IsJsLineTerminator(s[m])
    requires e < |s| ==> IsJsLineTerminator(s[e])
    ensures LineEnd(s, from) == e
    decreases e - from
  {
    if from < e {
      LineEndAt(s, from + 1, e);
    }
  }


  /** The length of the run of `cls` characters at the start of `s`. */
  function Span(s: string, cls: CharClass): (n: nat)
    ensures n <= |s|
    ensures forall k :: 0 <= k < n ==> InClass(s[k], cls)
    ensures n < |s| ==> !InClass(s[n], cls)
  {
    if s == [] || !InClass(s[0], cls) then 0 else 1 + Span(s[1..], cls)
  }

  /** The run at the start of `x + y` is `x` when every character of `x` is in it and `y` does not continue it. */
  lemma {:induction false} SpanAppend(x: string, y: string, cls: CharClass)
    requires forall k :: 0 <= k < |x| ==> InClass(x[k], cls)
    requires y != [] ==> !InClass(y[0], cls)
    ensures Span(x + y, cls) == |x|
  {
    if x != [] {
      assert (x + y)[1..] == x[1..] + y;
      SpanAppend(x[1..], y, cls);
    }
  }

  /** `r` with its leading white space removed (what a `\s*` consumes). */
  function SkipSpace(r: string): (rest: string)
    ensures |rest| <= |r|
  {
    if r != [] && IsJsSpace(r[0]) then SkipSpace(r[1..]) else r
  }

  /** The number of leading white-space characters of `r`. */
  function SpaceLen(r: string): (n: nat)
    ensures n <= |r|
  {
    |r| - |SkipSpace(r)|
  }

  /** The number of leading characters of `r` before its first line terminator (how far a `.+` can reach). */
  function LineLen(r: string): (n: nat)
    ensures n <= |r|
  {
    if r != [] && !IsJsLineTerminator(r[0]) then 1 + LineLen(r[1..]) else 0
  }

  /** What `\s*` leaves is the suffix after the blank run, and it does not start with a blank. */
  lemma {:induction false} SkipSpaceSuffix(r: string)
    ensures SkipSpace(r) == r[SpaceLen(r)..]
    ensures SkipSpace(r) != [] ==> !IsJsSpace(SkipSpace(r)[0])
  {
    if r != [] && IsJsSpace(r[0]) {
      SkipSpaceSuffix(r[1..]);
      assert r[1..][SpaceLen(r[1..])..] == r[1 + SpaceLen(r[1..])..];
    }
  }

  /** A `.+` reaches the end of a string that holds no line terminator. */
  lemma {:induction false} LineLenAll(x: string)
    requires forall k :: 0 <= k < |x| ==> !IsJsLineTerminator(x[k])
    ensures LineLen(x) == |x|
  {
    if x != [] {
      LineLenAll(x[1..]);
    }
  }

  /** An occurrence in a suffix is an occurrence in the whole string. */
  lemma ContainsInSuffix(s: string, i: nat, w: string)
    requires i <= |s| && Contains(s[i..], w)
    ensures Contains(s, w)
  {
    var j :| 0 <= j <= |s[i..]| - |w| && OccursAt(s[i..], w, j);
    assert s[i + j..i + j + |w|] == s[i..][j..j + |w|];
    assert OccursAt(s, w, i + j);
  }

  /** A string starts with `w` only when it contains it. */
  lemma StartsWithContains(s: string, w: string)
    requires StartsWith(s, w)
    ensures Contains(s, w)
  {
    assert OccursAt(s, w, 0);
  }

  /** One mismatching character rules out an occurrence. */
  lemma NotOccursAt(s: string, p: string, i: nat, j: nat)
    requires i + |p| <= |s| && j < |p| && s[i + j] != p[j]
    ensures !OccursAt(s, p, i)
  {
    assert s[i..i + |p|][j] == s[i + j];
  }
}
