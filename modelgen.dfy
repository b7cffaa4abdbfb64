/**
 * The model generator of ClientApp/gulpfile.js: it reads a C# model file as lines, recognises an
 * enum (`parseEnum`, `generateEnum`) or a class (`generateInterface`), and emits the TypeScript
 * text of the matching `.model.ts` file; `generateIndexFile` emits the index that re-exports them.
 * Reading and writing files is not modelled: every operation here goes from strings to strings.
 */
module ModelGen {
  import opened Wrappers
  import opened Text
  import opened TypeMapping
  import opened DocComments

  // ----- Lines -----

  /** `content.split('\n')`: the pieces between newlines; the empty text is one empty line. */
  function SplitLines(s: string): (lines: seq<string>)
    ensures |lines| >= 1
    decreases |s|
  {
    var i := IndexOf(s, '\n', 0);
    if i == |s| then [s] else [s[..i]] + SplitLines(s[i + 1..])
  }

  /** `lines.join('\n')`. */
  function JoinLines(lines: seq<string>): string
    requires |lines| >= 1
  {
    if |lines| == 1 then lines[0] else lines[0] + "\n" + JoinLines(lines[1..])
  }

  /** Splitting loses nothing: joining the lines again gives back the text. */
  lemma {:induction false} JoinSplitLines(s: string)
    ensures JoinLines(SplitLines(s)) == s
    decreases |s|
  {
    var i := IndexOf(s, '\n', 0);
    if i < |s| {
      JoinSplitLines(s[i + 1..]);
      assert SplitLines(s)[1..] == SplitLines(s[i + 1..]);
      assert s == s[..i] + "\n" + s[i + 1..];
    }
  }

  /** Lines without newlines are what splitting their join gives. */
  lemma {:induction false} SplitJoinLines(lines: seq<string>)
    requires |lines| >= 1
    requires forall k :: 0 <= k < |lines| ==> '\n' !in lines[k]
    ensures SplitLines(JoinLines(lines)) == lines
    decreases |lines|
  {
    if |lines| == 1 {
      IndexOfAt(lines[0], '\n', 0, |lines[0]|);
    } else {
      SplitAfterLine(lines[0], JoinLines(lines[1..]));
      SplitJoinLines(lines[1..]);
    }
  }

  /** Helper: a line without newlines, a newline and a rest split into that line and the rest's lines. */
  lemma SplitAfterLine(first: string, rest: string)
    requires '\n' !in first
    ensures SplitLines(first + "\n" + rest) == [first] + SplitLines(rest)
  {
    var s := first + "\n" + rest;
    assert forall m :: 0 <= m < |first| ==> s[m] == first[m];
    IndexOfAt(s, '\n', 0, |first|);
    assert s[..|first|] == first;
    assert s[|first| + 1..] == rest;
  }

  // ----- Per-line contributions -----

  /** The concatenation of parts lo..hi-1, in order: what a scan that appends part by part collects. */
  function Concat<T>(parts: seq<seq<T>>, lo: nat, hi: nat): seq<T>
    requires lo <= hi <= |parts|
    decreases hi - lo
  {
    if lo == hi then [] else Concat(parts, lo, hi - 1) + parts[hi - 1]
  }

  /** Concatenations agree when the parts in their range agree. */
  lemma {:induction false} ConcatSame<T>(p: seq<seq<T>>, q: seq<seq<T>>, lo: nat, hi: nat)
    requires lo <= hi <= |p| && hi <= |q|
    requires forall j :: lo <= j < hi ==> p[j] == q[j]
    ensures Concat(p, lo, hi) == Concat(q, lo, hi)
    decreases hi - lo
  {
    if lo < hi {
      ConcatSame(p, q, lo, hi - 1);
    }
  }

  /** Every element of a concatenation comes from some part in its range. */
  lemma {:induction false} ConcatElements<T>(parts: seq<seq<T>>, lo: nat, hi: nat, x: T)
    requires lo <= hi <= |parts| && x in Concat(parts, lo, hi)
    ensures exists j :: lo <= j < hi && x in parts[j]
    decreases hi - lo
  {
    if x !in parts[hi - 1] {
      ConcatElements(parts, lo, hi - 1, x);
    }
  }

  /** Parts of at most one element each concatenate to at most one element per part. */
  lemma {:induction false} ConcatShort<T>(parts: seq<seq<T>>, lo: nat, hi: nat)
    requires lo <= hi <= |parts|
    requires forall j :: lo <= j < hi ==> |parts[j]| <= 1
    ensures |Concat(parts, lo, hi)| <= hi - lo
    decreases hi - lo
  {
    if lo < hi {
      ConcatShort(parts, lo, hi - 1);
    }
  }

  // ----- parseEnum -----

  /** One enum member: its name, the string the TypeScript enum gives it, and its documentation. */
  datatype EnumValue = EnumValue(name: string, value: string, comment: string)

  /** The text that marks the start of the enum named `className`. */
  function EnumMarker(className: string): string {
    "enum " + className
  }

  /** The line starts with a decimal digit (what `\d+` needs to begin). */
  predicate StartsWithDigit(r: string) {
    r != [] && IsDigit(r[0])
  }

  /**
   * `/(\w+)\s*=\s*(\d+)/` tried at the start of `r`. The word run is greedy and backtracking into it
   * or into the blank runs cannot help (the next character would be a word character or a blank,
   * never `=` or a digit), so the name group is the whole word run.
   */
  function EnumMemberAt(r: string): (name: Option<string>)
    ensures name.Some? ==> name.value != [] && forall k :: 0 <= k < |name.value| ==> IsWordChar(name.value[k])
  {
    var n := Span(r, Word);
    if n > 0 && Token(r[n..], "=") && StartsWithDigit(SkipSpace(After(r[n..], "="))) then Some(r[..n]) else None
  }

  /** The leftmost match at or after `p`. */
  function EnumMemberFrom(s: string, p: nat): (name: Option<string>)
    requires p <= |s|
    ensures name.Some? ==> name.value != [] && forall k :: 0 <= k < |name.value| ==> IsWordChar(name.value[k])
    decreases |s| - p
  {
    var m := EnumMemberAt(s[p..]);
    if m.Some? then m else if p == |s| then None else EnumMemberFrom(s, p + 1)
  }

  /** `match[1]` of `line.match(/(\w+)\s*=\s*(\d+)/)`, or None when the line does not match. */
  function EnumMember(line: string): Option<string> {
    EnumMemberFrom(line, 0)
  }

  /** A member line `N = d…` (blanks around `=` as C# writes them) yields the name N. */
  lemma EnumMemberParsed(n: string, d: char, tail: string)
    requires n != [] && forall k :: 0 <= k < |n| ==> IsWordChar(n[k])
    requires IsDigit(d)
    ensures EnumMember(n + (" = " + ([d] + tail))) == Some(n)
  {
    var r := " = " + ([d] + tail);
    var s := n + r;
    assert s[0..] == s;
    assert r[0] == ' ';
    SpanAppend(n, r, Word);
    assert s[|n|..] == r;
    assert s[..|n|] == n;
    assert r[1..] == "= " + ([d] + tail);
    assert SkipSpace(r) == r[1..];
    var r2 := r[1..][1..];
    assert r2 == " " + ([d] + tail);
    assert SkipSpace(r2) == r2[1..];
    assert r2[1..] == [d] + tail;
  }

  /** The first line at or after `from` that, trimmed, contains `marker`. */
  function FirstMarker(lines: seq<string>, marker: string, from: nat): (r: Option<nat>)
    requires from <= |lines|
    ensures r.Some? ==> from <= r.value < |lines| && Contains(Trim(lines[r.value]), marker)
    decreases |lines| - from
  {
    if from == |lines| then None
    else if Contains(Trim(lines[from]), marker) then Some(from)
    else FirstMarker(lines, marker, from + 1)
  }

  /** The first line at or after `from` that is, trimmed, exactly `}`; the line count when there is none. */
  function CloseLine(lines: seq<string>, from: nat): (e: nat)
    requires from <= |lines|
    ensures from <= e <= |lines|
    ensures e < |lines| ==> Trim(lines[e]) == "}"
    decreases |lines| - from
  {
    if from == |lines| then from
    else if Trim(lines[from]) == "}" then from
    else CloseLine(lines, from + 1)
  }

  /** The value a member line contributes when its documentation is `comment`: none unless the line matches. */
  function EnumFound(line: string, comment: string): seq<EnumValue> {
    match EnumMember(line)
    case Some(name) => [EnumValue(name, name, comment)]
    case None => []
  }

  /** What line `j` inside the enum adds: one value when it is a member line (other than a marker line). */
  function EnumEntry(lines: seq<string>, marker: string, j: nat): (values: seq<EnumValue>)
    requires j < |lines|
    ensures |values| <= 1
  {
    var line := Trim(lines[j]);
    if Contains(line, marker) then [] else EnumFound(line, DocComment(lines, j))
  }

  /** What each line would add inside the enum. */
  function EnumParts(lines: seq<string>, marker: string): (parts: seq<seq<EnumValue>>)
    ensures |parts| == |lines|
  {
    seq(|lines|, j requires 0 <= j < |lines| => EnumEntry(lines, marker, j))
  }

  /**
   * The values of the enum `className`: the member lines strictly between the first line that
   * mentions `enum className` and the first line after it that is `}`; none without such a line.
   */
  function EnumSpec(lines: seq<string>, className: string): (values: seq<EnumValue>)
    ensures |values| <= |lines|
  {
    var marker := EnumMarker(className);
    match FirstMarker(lines, marker, 0)
    case None => []
    case Some(s) =>
      ConcatShort(EnumParts(lines, marker), s + 1, CloseLine(lines, s + 1));
      Concat(EnumParts(lines, marker), s + 1, CloseLine(lines, s + 1))
  }


  /**
   * Where the scan of `parseEnum` stands before line `i`. With `inEnum` off no line so far mentions
   * the enum and nothing was collected; with it on, line `s` is the first that mentions it, no line
   * between it and `i` closes it, and `values` holds what lines s+1..i-1 added.
   */
  ghost predicate EnumScanned(lines: seq<string>, className: string, i: nat, inEnum: bool, s: nat, values: seq<EnumValue>)
    requires i <= |lines|
  {
    var marker := EnumMarker(className);
    if !inEnum then values == [] && FirstMarker(lines, marker, 0) == FirstMarker(lines, marker, i)
    else && FirstMarker(lines, marker, 0) == Some(s) && s < i
         && CloseLine(lines, s + 1) == CloseLine(lines, i)
         && values == Concat(EnumParts(lines, marker), s + 1, i)
  }

  /** A line that mentions the enum is not its closing line. */
  lemma MarkerLineNotClose(line: string, className: string)
    requires Contains(line, EnumMarker(className))
    ensures line != "}"
  {
    var o :| 0 <= o <= |line| - |EnumMarker(className)| && OccursAt(line, EnumMarker(className), o);
  }

  /** A line that mentions the enum adds no value. */
  lemma EnumEntryMarker(lines: seq<string>, marker: string, j: nat)
    requires j < |lines| && Contains(Trim(lines[j]), marker)
    ensures EnumParts(lines, marker)[j] == []
  {
    assert EnumParts(lines, marker)[j] == EnumEntry(lines, marker, j);
  }

  /** The first line mentioning the enum turns `inEnum` on and records where the enum starts. */
  lemma EnumScanFirstMarker(lines: seq<string>, className: string, i: nat, s: nat)
    requires i < |lines| && EnumScanned(lines, className, i, false, s, [])
    requires Contains(Trim(lines[i]), EnumMarker(className))
    ensures EnumScanned(lines, className, i + 1, true, i, [])
  {
  }

  /** A later line mentioning the enum keeps `inEnum` on and adds nothing. */
  lemma EnumScanLaterMarker(lines: seq<string>, className: string, i: nat, s: nat, values: seq<EnumValue>)
    requires i < |lines| && EnumScanned(lines, className, i, true, s, values)
    requires Contains(Trim(lines[i]), EnumMarker(className))
    ensures EnumScanned(lines, className, i + 1, true, s, values)
  {
    MarkerLineNotClose(Trim(lines[i]), className);
    EnumEntryMarker(lines, EnumMarker(className), i);
  }

  /** Before the enum starts, a line that does not mention it changes nothing. */
  lemma EnumScanOutside(lines: seq<string>, className: string, i: nat, s: nat)
    requires i < |lines| && EnumScanned(lines, className, i, false, s, [])
    requires !Contains(Trim(lines[i]), EnumMarker(className))
    ensures EnumScanned(lines, className, i + 1, false, s, [])
  {
  }

  /** Inside the enum, a line other than `}` adds what EnumFound gives for it. */
  lemma EnumScanMember(lines: seq<string>, className: string, i: nat, s: nat, before: seq<EnumValue>, after: seq<EnumValue>)
    requires i < |lines| && EnumScanned(lines, className, i, true, s, before)
    requires !Contains(Trim(lines[i]), EnumMarker(className)) && Trim(lines[i]) != "}"
    requires after == before + EnumFound(Trim(lines[i]), DocComment(lines, i))
    ensures EnumScanned(lines, className, i + 1, true, s, after)
  {
    assert EnumParts(lines, EnumMarker(className))[i] == EnumEntry(lines, EnumMarker(className), i);
  }

  /** The member-line branch of `parseEnum`: match the line and, when it matches, record the member. */
  method AddEnumMember(lines: seq<string>, i: nat, values: seq<EnumValue>) returns (values': seq<EnumValue>)
    requires i < |lines|
    ensures values' == values + EnumFound(Trim(lines[i]), DocComment(lines, i))
  {
    values' := values;
    var line := Trim(lines[i]);
    var name := EnumMember(line);
    if name.Some? {
      var comment := ParseComment(lines, i);
      values' := values + [EnumValue(name.value, name.value, comment)];
    }
  }

  /** Inside the enum, the first `}` line ends the scan with exactly the enum's values. */
  lemma EnumScanClose(lines: seq<string>, className: string, i: nat, s: nat, values: seq<EnumValue>)
    requires i < |lines| && EnumScanned(lines, className, i, true, s, values)
    requires Trim(lines[i]) == "}"
    ensures values == EnumSpec(lines, className)
  {
  }

  /** A scan that reaches the last line has the enum's values (none when it never started). */
  lemma EnumScanEnd(lines: seq<string>, className: string, inEnum: bool, s: nat, values: seq<EnumValue>)
    requires EnumScanned(lines, className, |lines|, inEnum, s, values)
    ensures values == EnumSpec(lines, className)
  {
  }

  /**
   * One pass of the loop of `parseEnum`, on line `i`: a line mentioning the enum turns `inEnum` on;
   * inside the enum the first `}` ends the scan (`closed`, the `break`) and any other line may add a
   * member.
   */
  method ScanEnumLine(lines: seq<string>, className: string, i: nat, inEnum: bool, ghost s: nat, values: seq<EnumValue>)
    returns (inEnum': bool, ghost s': nat, values': seq<EnumValue>, closed: bool)
    requires i < |lines| && EnumScanned(lines, className, i, inEnum, s, values)
    ensures closed ==> values' == EnumSpec(lines, className)
    ensures !closed ==> EnumScanned(lines, className, i + 1, inEnum', s', values')
  {
    inEnum', s', values', closed := inEnum, s, values, false;
    var line := Trim(lines[i]);
    if Contains(line, EnumMarker(className)) {
      if inEnum {
        EnumScanLaterMarker(lines, className, i, s, values);
      } else {
        EnumScanFirstMarker(lines, className, i, s);
        s' := i;
      }
      inEnum' := true;
      return;
    }
    if inEnum {
      if line == "}" {
        EnumScanClose(lines, className, i, s, values);
        closed := true;
        return;
      }
      values' := AddEnumMember(lines, i, values);
      EnumScanMember(lines, className, i, s, values, values');
    } else {
      EnumScanOutside(lines, className, i, s);
    }
  }

  /** `parseEnum(content, className)`: the scan with its `inEnum` flag, proved to compute EnumSpec. */
  method ParseEnum(content: string, className: string) returns (values: seq<EnumValue>)
    ensures values == EnumSpec(SplitLines(content), className)
  {
    var lines := SplitLines(content);
    values := [];
    var inEnum := false;
    ghost var s: nat := 0;
    var i := 0;
    while i < |lines|
      invariant 0 <= i <= |lines|
      invariant EnumScanned(lines, className, i, inEnum, s, values)
    {
      var closed;
      inEnum, s, values, closed := ScanEnumLine(lines, className, i, inEnum, s, values);
      if closed {
        return;
      }
      i := i + 1;
    }
    EnumScanEnd(lines, className, inEnum, s, values);
  }

  /** Every value the enum yields is named by a word and carries its own name as its value. */
  lemma EnumValuesEqualNames(lines: seq<string>, className: string)
    ensures forall v :: v in EnumSpec(lines, className) ==> WordValued(v)
  {
    var marker := EnumMarker(className);
    match FirstMarker(lines, marker, 0)
    case None =>
    case Some(s) =>
      var parts, hi := EnumParts(lines, marker), CloseLine(lines, s + 1);
      assert EnumSpec(lines, className) == Concat(parts, s + 1, hi);
      forall v: EnumValue | v in Concat(parts, s + 1, hi)
        ensures WordValued(v)
      {
        ConcatElements(parts, s + 1, hi, v);
        var j :| s + 1 <= j < hi && v in parts[j];
        EnumEntryNamed(lines, marker, j, v);
      }
  }

  /** The value is the member's name, a non-empty run of word characters. */
  predicate WordValued(v: EnumValue) {
    v.value == v.name && v.name != [] && forall k :: 0 <= k < |v.name| ==> IsWordChar(v.name[k])
  }

  /** A value contributed by a single line is named by a word and carries that word as its value. */
  lemma EnumEntryNamed(lines: seq<string>, marker: string, j: nat, v: EnumValue)
    requires j < |lines| && v in EnumParts(lines, marker)[j]
    ensures WordValued(v)
  {
    assert EnumParts(lines, marker)[j] == EnumEntry(lines, marker, j);
  }

  /** A file in which no line mentions `enum className` yields no values. */
  lemma NoMarkerNoValues(lines: seq<string>, className: string)
    requires forall j :: 0 <= j < |lines| ==> !Contains(Trim(lines[j]), EnumMarker(className))
    ensures EnumSpec(lines, className) == []
  {
    FirstMarkerNone(lines, EnumMarker(className), 0);
  }

  lemma {:induction false} FirstMarkerNone(lines: seq<string>, marker: string, from: nat)
    requires from <= |lines|
    requires forall j :: from <= j < |lines| ==> !Contains(Trim(lines[j]), marker)
    ensures FirstMarker(lines, marker, from) == None
    decreases |lines| - from
  {
    if from < |lines| {
      FirstMarkerNone(lines, marker, from + 1);
    }
  }

  /** Helper: the values of an enum whose marker line is found, as the concatenation EnumSpec takes. */
  lemma EnumSpecIs(lines: seq<string>, className: string)
    requires FirstMarker(lines, EnumMarker(className), 0).Some?
    ensures var s := FirstMarker(lines, EnumMarker(className), 0).value;
      EnumSpec(lines, className) == Concat(EnumParts(lines, EnumMarker(className)), s + 1, CloseLine(lines, s + 1))
  {
  }

  /** Lines after the enum's closing `}` change nothing about its values. */
  lemma EnumAfterCloseIgnored(lines: seq<string>, more: seq<string>, className: string)
    requires FirstMarker(lines, EnumMarker(className), 0).Some?
    requires CloseLine(lines, FirstMarker(lines, EnumMarker(className), 0).value + 1) < |lines|
    ensures EnumSpec(lines + more, className) == EnumSpec(lines, className)
  {
    var marker := EnumMarker(className);
    var s := FirstMarker(lines, marker, 0).value;
    FirstMarkerPrefix(lines, more, marker, 0);
    CloseLinePrefix(lines, more, s + 1);
    EnumPartsPrefix(lines, more, marker);
    ConcatSame(EnumParts(lines + more, marker), EnumParts(lines, marker), s + 1, CloseLine(lines, s + 1));
    EnumSpecIs(lines, className);
    EnumSpecIs(lines + more, className);
  }

  lemma {:induction false} FirstMarkerPrefix(lines: seq<string>, more: seq<string>, marker: string, from: nat)
    requires from <= |lines| && FirstMarker(lines, marker, from).Some?
    ensures FirstMarker(lines + more, marker, from) == FirstMarker(lines, marker, from)
    decreases |lines| - from
  {
    assert (lines + more)[from] == lines[from];
    if !Contains(Trim(lines[from]), marker) {
      FirstMarkerPrefix(lines, more, marker, from + 1);
    }
  }

  lemma {:induction false} CloseLinePrefix(lines: seq<string>, more: seq<string>, from: nat)
    requires from <= |lines| && CloseLine(lines, from) < |lines|
    ensures CloseLine(lines + more, from) == CloseLine(lines, from)
    decreases |lines| - from
  {
    assert (lines + more)[from] == lines[from];
    if Trim(lines[from]) != "}" {
      CloseLinePrefix(lines, more, from + 1);
    }
  }

  /** A line's contribution depends only on the lines up to it. */
  lemma EnumEntryPrefix(lines: seq<string>, more: seq<string>, marker: string, j: nat)
    requires j < |lines|
    ensures EnumEntry(lines + more, marker, j) == EnumEntry(lines, marker, j)
  {
    assert (lines + more)[j] == lines[j];
    DocCommentIgnoresBelow(lines, more, j);
  }

  lemma EnumPartsPrefix(lines: seq<string>, more: seq<string>, marker: string)
    ensures forall j :: 0 <= j < |lines| ==> EnumParts(lines + more, marker)[j] == EnumParts(lines, marker)[j]
  {
    forall j | 0 <= j < |lines|
      ensures EnumParts(lines + more, marker)[j] == EnumParts(lines, marker)[j]
    {
      EnumEntryPrefix(lines, more, marker, j);
    }
  }

  // ----- The emitted TypeScript -----

  /** Helper for the emission steps: regrouping one more appended piece of output. */
  lemma AppendAssoc(a: string, b: string, c: string)
    ensures (a + b) + c == a + (b + c)
  {
  }

  /** The block comment that opens every generated model file. */
  function Header(text: string): string {
    "/**\n * " + text + "\n * Auto-generated - do not modify manually\n */\n"
  }

  /** The header text when no documentation is available. */
  function GeneratedFrom(className: string): string {
    "Generated from " + className + ".cs"
  }

  /** The documentation line written above a property or an enum member. */
  function CommentLine(comment: string): string {
    "  /** " + comment + " */\n"
  }

  /** The documentation line when there is documentation, nothing otherwise. */
  function CommentPart(comment: string): string {
    if comment != "" then CommentLine(comment) else ""
  }

  // ----- generateEnum -----

  function EnumOpen(className: string): string {
    "export enum " + className + " {\n"
  }

  /** A member as emitted, before its separator: the value is quoted, making a string enum. */
  function MemberLine(v: EnumValue): string {
    "  " + v.name + " = '" + v.value + "'"
  }

  function Separator(last: bool): string {
    if last then "\n" else ",\n"
  }

  /** One member of the emitted enum: its documentation, the member, and `,` unless it is the last. */
  function EntryText(v: EnumValue, last: bool): string {
    CommentPart(v.comment) + MemberLine(v) + Separator(last)
  }

  /** The first `k` members of the emitted enum. */
  function EntriesUpTo(values: seq<EnumValue>, k: nat): string
    requires k <= |values|
  {
    if k == 0 then "" else EntriesUpTo(values, k - 1) + EntryText(values[k - 1], k == |values|)
  }

  function EnumText(className: string, values: seq<EnumValue>): string {
    Header(GeneratedFrom(className)) + EnumOpen(className) + EntriesUpTo(values, |values|) + "}\n"
  }

  /** One pass of the emission loop of `generateEnum` appends the next member's text. */
  lemma EntryEmitted(opening: string, values: seq<EnumValue>, index: nat, before: string, after: string)
    requires index < |values|
    requires before == opening + EntriesUpTo(values, index)
    requires after == ((if values[index].comment != "" then before + CommentLine(values[index].comment) else before)
                       + MemberLine(values[index])) + (if index < |values| - 1 then ",\n" else "\n")
    ensures after == opening + EntriesUpTo(values, index + 1)
  {
    var v := values[index];
    var cp, ml, sep := CommentPart(v.comment), MemberLine(v), Separator(index + 1 == |values|);
    assert after == ((before + cp) + ml) + sep;
    AppendAssoc(before, cp, ml);
    AppendAssoc(before, cp + ml, sep);
    AppendAssoc(opening, EntriesUpTo(values, index), EntryText(v, index + 1 == |values|));
  }

  /** `generateEnum(content, className)`: null when the enum has no values, else its TypeScript text. */
  method GenerateEnum(content: string, className: string) returns (ts: Option<string>)
    ensures var values := EnumSpec(SplitLines(content), className);
      ts == if values == [] then None else Some(EnumText(className, values))
  {
    var values := ParseEnum(content, className);
    if |values| == 0 {
      return None;
    }
    var text := EmitEnum(className, values);
    return Some(text);
  }

  /** The text-building half of `generateEnum`, once the values are known to be nonempty. */
  method EmitEnum(className: string, values: seq<EnumValue>) returns (text: string)
    requires values != []
    ensures text == EnumText(className, values)
  {
    text := Header(GeneratedFrom(className));
    text := text + EnumOpen(className);
    var opening := text;
    for index := 0 to |values|
      invariant text == opening + EntriesUpTo(values, index)
    {
      var value := values[index];
      ghost var before := text;
      if value.comment != "" {
        text := text + CommentLine(value.comment);
      }
      text := text + MemberLine(value);
      if index < |values| - 1 {
        text := text + ",\n";
      } else {
        text := text + "\n";
      }
      EntryEmitted(opening, values, index, before, text);
    }
    text := text + "}\n";
  }

  /** Every member except the last is followed by a comma, and the last is not. */
  lemma EntryComma(v: EnumValue, last: bool)
    ensures EndsWith(EntryText(v, last), ",\n") <==> !last
    ensures EndsWith(EntryText(v, last), "'\n") <==> last
  {
    var body := CommentPart(v.comment) + MemberLine(v);
    var t := body + Separator(last);
    assert body[|body| - 1] == '\'';
    if last {
      assert t[|t| - 2..] == [body[|body| - 1], '\n'];
    } else {
      assert t[|t| - 2..] == ",\n";
    }
  }

  /** The emitted member list is the members' texts in order, and only the final one lacks the comma. */
  lemma EntriesInOrder(values: seq<EnumValue>, k: nat)
    requires k < |values|
    ensures EntriesUpTo(values, k + 1) == EntriesUpTo(values, k) + EntryText(values[k], k == |values| - 1)
    ensures EndsWith(EntriesUpTo(values, k + 1), ",\n") <==> k < |values| - 1
  {
    EntryComma(values[k], k == |values| - 1);
    var a, b := EntriesUpTo(values, k), EntryText(values[k], k == |values| - 1);
    assert (a + b)[|a + b| - 2..] == b[|b| - 2..];
  }

  // ----- generateInterface -----

  /** One property of the emitted interface. */
  datatype PropEntry = PropEntry(name: string, tsType: string, comment: string)

  /** The text that marks the declaration of the class named `className`. */
  function ClassMarker(className: string): string {
    "class " + className
  }

  /** `line.startsWith('public') && line.includes('{ get; set; }')`. */
  predicate IsPropertyCandidate(line: string) {
    StartsWith(line, "public") && Contains(line, "{ get; set; }")
  }

  /** The property a line outside the class declaration contributes when its documentation is `comment`. */
  function PropFound(line: string, comment: string): seq<PropEntry> {
    if !IsPropertyCandidate(line) then []
    else match ParseProperty(line)
      case None => []
      case Some(p) => [PropEntry(p.name, p.tsType, comment)]
  }

  /** What line `j` adds to the interface: one property when it is a candidate that parses. */
  function PropAt(lines: seq<string>, className: string, j: nat): seq<PropEntry>
    requires j < |lines|
  {
    var line := Trim(lines[j]);
    if Contains(line, ClassMarker(className)) then [] else PropFound(line, DocComment(lines, j))
  }

  /** What each line adds to the interface. */
  function PropParts(lines: seq<string>, className: string): (parts: seq<seq<PropEntry>>)
    ensures |parts| == |lines|
  {
    seq(|lines|, j requires 0 <= j < |lines| => PropAt(lines, className, j))
  }

  /** The properties that lines 0..hi-1 add, in order. */
  function PropsUpTo(lines: seq<string>, className: string, hi: nat): seq<PropEntry>
    requires hi <= |lines|
  {
    Concat(PropParts(lines, className), 0, hi)
  }

  /** The last line before `hi` that, trimmed, contains `marker`. */
  function LastMarker(lines: seq<string>, marker: string, hi: nat): (r: Option<nat>)
    requires hi <= |lines|
    ensures r.Some? ==> r.value < hi && Contains(Trim(lines[r.value]), marker)
  {
    if hi == 0 then None
    else if Contains(Trim(lines[hi - 1]), marker) then Some(hi - 1)
    else LastMarker(lines, marker, hi - 1)
  }

  /** The documentation of the class: that of its last declaration line, or nothing. */
  function ClassCommentUpTo(lines: seq<string>, className: string, hi: nat): string
    requires hi <= |lines|
  {
    match LastMarker(lines, ClassMarker(className), hi)
    case Some(j) => DocComment(lines, j)
    case None => ""
  }

  /** A property's declaration: `  name: type;`. */
  function PropLine(p: PropEntry): string {
    "  " + p.name + ": " + p.tsType + ";\n"
  }

  /** A property's text: its documentation, then its declaration. */
  function PropText(p: PropEntry): string {
    CommentPart(p.comment) + PropLine(p)
  }

  function PropsText(props: seq<PropEntry>): string {
    if props == [] then "" else PropsText(props[..|props| - 1]) + PropText(props[|props| - 1])
  }

  /** The class's documentation, or the fallback when it has none (`comment || ...`). */
  function HeaderText(comment: string, className: string): string {
    if comment != "" then comment else GeneratedFrom(className)
  }

  function InterfaceOpen(className: string): string {
    "export interface " + className + " {\n"
  }

  function InterfaceText(className: string, comment: string, props: seq<PropEntry>): string {
    Header(HeaderText(comment, className)) + InterfaceOpen(className) + PropsText(props) + "}\n"
  }

  /** The interface the whole file produces. */
  function InterfaceSpec(lines: seq<string>, className: string): (text: string)
    ensures StartsWith(text, "/**\n * ") && EndsWith(text, "}\n")
  {
    InterfaceText(className, ClassCommentUpTo(lines, className, |lines|), PropsUpTo(lines, className, |lines|))
  }

  /** Each line appends what it adds, and a line declaring the class replaces the documentation with its own. */
  lemma ClassScanStep(lines: seq<string>, className: string, i: nat)
    requires i < |lines|
    ensures PropsUpTo(lines, className, i + 1) == PropsUpTo(lines, className, i) + PropAt(lines, className, i)
    ensures ClassCommentUpTo(lines, className, i + 1) ==
      if Contains(Trim(lines[i]), ClassMarker(className)) then DocComment(lines, i) else ClassCommentUpTo(lines, className, i)
  {
  }

  lemma PropsTextStep(props: seq<PropEntry>, k: nat)
    requires k < |props|
    ensures PropsText(props[..k + 1]) == PropsText(props[..k]) + PropText(props[k])
  {
    assert props[..k + 1][..k] == props[..k];
  }

  /** One pass of the emission loop of `generateInterface` appends the next property's text. */
  lemma PropEmitted(opening: string, props: seq<PropEntry>, k: nat, before: string, after: string)
    requires k < |props|
    requires before == opening + PropsText(props[..k])
    requires after == (if props[k].comment != "" then before + CommentLine(props[k].comment) else before) + PropLine(props[k])
    ensures after == opening + PropsText(props[..k + 1])
  {
    PropsTextStep(props, k);
    var p := props[k];
    var done, cp, pl := PropsText(props[..k]), CommentPart(p.comment), PropLine(p);
    assert after == (before + cp) + pl;
    AppendAssoc(before, cp, pl);
    AppendAssoc(opening, done, cp + pl);
  }

  /** One pass of the scanning loop of `generateInterface`, on line `i`. */
  method ScanClassLine(lines: seq<string>, className: string, i: nat, properties: seq<PropEntry>, comment: string)
    returns (properties': seq<PropEntry>, comment': string)
    requires i < |lines|
    ensures properties' == properties + PropAt(lines, className, i)
    ensures comment' == if Contains(Trim(lines[i]), ClassMarker(className)) then DocComment(lines, i) else comment
  {
    properties', comment' := properties, comment;
    var line := Trim(lines[i]);
    if Contains(line, ClassMarker(className)) {
      comment' := ParseComment(lines, i);
      return;
    }
    if StartsWith(line, "public") && Contains(line, "{ get; set; }") {
      var prop := ParseProperty(line);
      if prop.Some? {
        var propComment := ParseComment(lines, i);
        properties' := properties + [PropEntry(prop.value.name, prop.value.tsType, propComment)];
      }
    }
  }

  /** The scanning loop of `generateInterface`: the properties in order and the class's documentation. */
  method ScanClass(lines: seq<string>, className: string) returns (properties: seq<PropEntry>, comment: string)
    ensures properties == PropsUpTo(lines, className, |lines|)
    ensures comment == ClassCommentUpTo(lines, className, |lines|)
  {
    properties := [];
    comment := "";
    for i := 0 to |lines|
      invariant properties == PropsUpTo(lines, className, i)
      invariant comment == ClassCommentUpTo(lines, className, i)
    {
      properties, comment := ScanClassLine(lines, className, i, properties, comment);
      ClassScanStep(lines, className, i);
    }
  }

  /** The emitting part of `generateInterface`. */
  method EmitInterface(className: string, comment: string, properties: seq<PropEntry>) returns (ts: string)
    ensures ts == InterfaceText(className, comment, properties)
  {
    ts := Header(HeaderText(comment, className));
    ts := ts + InterfaceOpen(className);
    var opening := ts;
    for k := 0 to |properties|
      invariant ts == opening + PropsText(properties[..k])
    {
      var prop := properties[k];
      ghost var before := ts;
      if prop.comment != "" {
        ts := ts + CommentLine(prop.comment);
      }
      ts := ts + PropLine(prop);
      PropEmitted(opening, properties, k, before, ts);
    }
    assert properties[..|properties|] == properties;
    ts := ts + "}\n";
  }

  /** `generateInterface(content, className)`: the scan for the class line and the properties, then the emission. */
  method GenerateInterface(content: string, className: string) returns (ts: string)
    ensures ts == InterfaceSpec(SplitLines(content), className)
  {
    var lines := SplitLines(content);
    var properties, comment := ScanClass(lines, className);
    ts := EmitInterface(className, comment, properties);
  }

  /** The emitted property list is the properties' texts in order: emitting distributes over concatenation. */
  lemma {:induction false} PropsTextAppend(a: seq<PropEntry>, b: seq<PropEntry>)
    ensures PropsText(a + b) == PropsText(a) + PropsText(b)
    decreases |b|
  {
    if b == [] {
      assert a + b == a;
    } else {
      var b' := b[..|b| - 1];
      assert (a + b)[..|a + b| - 1] == a + b';
      PropsTextAppend(a, b');
      AppendAssoc(PropsText(a), PropsText(b'), PropText(b[|b| - 1]));
    }
  }

  /** A property gets a documentation line exactly when it has documentation, and always its declaration line. */
  lemma PropTextShape(p: PropEntry)
    ensures EndsWith(PropText(p), PropLine(p))
    ensures p.comment == "" <==> PropText(p) == PropLine(p)
    ensures p.comment != "" ==> StartsWith(PropText(p), CommentLine(p.comment))
  {
    var c, d := CommentPart(p.comment), PropLine(p);
    assert (c + d)[|c + d| - |d|..] == d;
    assert (c + d)[..|c|] == c;
  }

  /** The class's documentation is that of the last line declaring it. */
  lemma ClassCommentIsLast(lines: seq<string>, className: string, j: nat)
    requires j < |lines|
    requires Contains(Trim(lines[j]), ClassMarker(className))
    requires forall m :: j < m < |lines| ==> !Contains(Trim(lines[m]), ClassMarker(className))
    ensures ClassCommentUpTo(lines, className, |lines|) == DocComment(lines, j)
  {
    LastMarkerAt(lines, ClassMarker(className), |lines|, j);
  }

  lemma {:induction false} LastMarkerAt(lines: seq<string>, marker: string, hi: nat, j: nat)
    requires j < hi <= |lines|
    requires Contains(Trim(lines[j]), marker)
    requires forall m :: j < m < hi ==> !Contains(Trim(lines[m]), marker)
    ensures LastMarker(lines, marker, hi) == Some(j)
    decreases hi
  {
    if hi - 1 > j {
      LastMarkerAt(lines, marker, hi - 1, j);
    }
  }

  /**
   * A line adds at most one property, and only when it is a candidate outside the class
   * declaration that parses; the property carries the parsed name and type and the line's own
   * documentation.
   */
  lemma PropAtShape(lines: seq<string>, className: string, j: nat)
    requires j < |lines|
    ensures |PropAt(lines, className, j)| <= 1
    ensures var line := Trim(lines[j]);
      PropAt(lines, className, j) != [] <==>
        !Contains(line, ClassMarker(className)) && IsPropertyCandidate(line) && ParseProperty(line).Some?
    ensures var line := Trim(lines[j]);
      PropAt(lines, className, j) != [] ==>
        PropAt(lines, className, j)[0] ==
          PropEntry(ParseProperty(line).value.name, ParseProperty(line).value.tsType, DocComment(lines, j))
  {
  }

  /** The interface has at most one property per line of the file. */
  lemma PropsAtMostLines(lines: seq<string>, className: string)
    ensures |PropsUpTo(lines, className, |lines|)| <= |lines|
  {
    var parts := PropParts(lines, className);
    forall j | 0 <= j < |lines|
      ensures |parts[j]| <= 1
    {
      PropAtShape(lines, className, j);
    }
    ConcatShort(parts, 0, |lines|);
  }

  // ----- generateModels and generateIndexFile -----

  /** `path.basename(file, '.cs')` for a name from the directory listing: the name without `.cs`. */
  function ClassNameOf(file: string): string {
    if EndsWith(file, ".cs") then file[..|file| - 3] else file
  }

  lemma ClassNameOfCs(name: string)
    ensures ClassNameOf(name + ".cs") == name
  {
    var file := name + ".cs";
    assert file[|file| - 3..] == ".cs";
    assert file[..|file| - 3] == name;
  }

  /** `${className.toLowerCase()}.model`: the module a generated file holds. */
  function ModuleName(className: string): string {
    LowerAscii(className) + ".model"
  }

  function OutputFileName(className: string): string {
    ModuleName(className) + ".ts"
  }

  /** One generated file: its name and its text. */
  datatype Output = Output(fileName: string, text: string)

  /**
   * What `generateModels` writes for one file: an enum when the text mentions `enum C` (even if it
   * also mentions `class C`), else an interface when it mentions `class C`, else nothing; an enum
   * with no values writes nothing either.
   */
  function ModelOutput(file: string, content: string): (out: Option<Output>)
    ensures out.Some? ==> out.value.fileName == OutputFileName(ClassNameOf(file))
    ensures Contains(content, EnumMarker(ClassNameOf(file))) && EnumSpec(SplitLines(content), ClassNameOf(file)) == []
      ==> out.None?
    ensures !Contains(content, EnumMarker(ClassNameOf(file))) && Contains(content, ClassMarker(ClassNameOf(file)))
      ==> out.Some?
  {
    var className := ClassNameOf(file);
    var lines := SplitLines(content);
    if Contains(content, EnumMarker(className)) then
      var values := EnumSpec(lines, className);
      if values == [] then None else Some(Output(OutputFileName(className), EnumText(className, values)))
    else if Contains(content, ClassMarker(className)) then
      Some(Output(OutputFileName(className), InterfaceSpec(lines, className)))
    else None
  }

  /** The per-file step of `generateModels`, with the file's name and text given instead of read. */
  method GenerateModel(file: string, content: string) returns (out: Option<Output>)
    ensures out == ModelOutput(file, content)
  {
    var className := ClassNameOf(file);
    var tsContent: Option<string> := Some("");
    if Contains(content, EnumMarker(className)) {
      tsContent := GenerateEnum(content, className);
    } else if Contains(content, ClassMarker(className)) {
      var ts := GenerateInterface(content, className);
      tsContent := Some(ts);
    }
    if tsContent.Some? && tsContent.value != "" {
      return Some(Output(OutputFileName(className), tsContent.value));
    }
    return None;
  }


  /** The `.filter(file => file.endsWith('.cs'))` of the directory listing. */
  function CsFiles(listing: seq<string>): (files: seq<string>)
    ensures |files| <= |listing|
    ensures forall f :: f in files <==> f in listing && EndsWith(f, ".cs")
  {
    if listing == [] then []
    else
      var rest := CsFiles(listing[1..]);
      assert forall f :: f in listing <==> f == listing[0] || f in listing[1..];
      if EndsWith(listing[0], ".cs") then [listing[0]] + rest else rest
  }

  const IndexHeader: string := "/**\n * Auto-generated index file\n * Exports all generated models\n */\n\n"

  /** `export * from './${className.toLowerCase()}.model';`. */
  function ExportLine(file: string): string {
    "export * from './" + ModuleName(ClassNameOf(file)) + "';\n"
  }

  function ExportLines(files: seq<string>): string {
    if files == [] then "" else ExportLines(files[..|files| - 1]) + ExportLine(files[|files| - 1])
  }

  function IndexContent(files: seq<string>): string {
    IndexHeader + ExportLines(files)
  }

  /** One pass of the loop of `generateIndexFile` appends the next export line. */
  lemma ExportEmitted(files: seq<string>, k: nat, before: string)
    requires k < |files|
    requires before == IndexHeader + ExportLines(files[..k])
    ensures before + ExportLine(files[k]) == IndexHeader + ExportLines(files[..k + 1])
  {
    assert files[..k + 1][..k] == files[..k];
    AppendAssoc(IndexHeader, ExportLines(files[..k]), ExportLine(files[k]));
  }

  /** The text `generateIndexFile(files)` writes. */
  method GenerateIndexFile(files: seq<string>) returns (indexContent: string)
    ensures indexContent == IndexContent(files)
  {
    indexContent := IndexHeader;
    for k := 0 to |files|
      invariant indexContent == IndexHeader + ExportLines(files[..k])
    {
      ExportEmitted(files, k, indexContent);
      indexContent := indexContent + ExportLine(files[k]);
    }
    assert files[..|files|] == files;
  }

  /** Emitting export lines distributes over concatenation of the file list. */
  lemma {:induction false} ExportLinesAppend(a: seq<string>, b: seq<string>)
    ensures ExportLines(a + b) == ExportLines(a) + ExportLines(b)
    decreases |b|
  {
    if b == [] {
      assert a + b == a;
    } else {
      var b' := b[..|b| - 1];
      assert (a + b)[..|a + b| - 1] == a + b';
      ExportLinesAppend(a, b');
      AppendAssoc(ExportLines(a), ExportLines(b'), ExportLine(b[|b| - 1]));
    }
  }

  /**
   * The index exports every listed file's module, in the listing's order, whether or not anything
   * was generated for it.
   */
  lemma IndexExportsEveryFile(files: seq<string>, k: nat)
    requires k < |files|
    ensures Contains(IndexContent(files), ExportLine(files[k]))
  {
    var a, b := files[..k], files[k + 1..];
    assert files == a + [files[k]] + b;
    ExportLinesAppend(a + [files[k]], b);
    ExportLinesAppend(a, [files[k]]);
    assert ExportLines([files[k]]) == ExportLines([]) + ExportLine(files[k]);
    var pre, line, post := IndexHeader + ExportLines(a), ExportLine(files[k]), ExportLines(b);
    AppendAssoc(IndexHeader, ExportLines(a), line);
    AppendAssoc(IndexHeader, ExportLines(a) + line, post);
    assert IndexContent(files) == pre + line + post;
    assert (pre + line + post)[|pre|..|pre| + |line|] == line;
    assert OccursAt(IndexContent(files), line, |pre|);
  }

  /** A file that declares neither an enum nor a class of its name writes nothing but is still exported. */
  lemma IndexListsFileWithoutOutput(name: string)
    ensures ModelOutput(name + ".cs", "").None?
    ensures IndexContent([name + ".cs"]) == IndexHeader + "export * from './" + ModuleName(name) + "';\n"
  {
    ClassNameOfCs(name);
    assert !Contains("", EnumMarker(name)) && !Contains("", ClassMarker(name));
    assert ExportLines([name + ".cs"]) == ExportLines([]) + ExportLine(name + ".cs");
  }

  /** What `generateModels` produces from a listing: the outputs of its `.cs` files, in order, and the index. */
  function ModelsOutputs(files: seq<string>, contents: map<string, string>): seq<Output>
    requires forall f :: f in files ==> f in contents
  {
    if files == [] then []
    else
      var init := files[..|files| - 1];
      assert forall f :: f in init ==> f in files;
      var last := files[|files| - 1];
      var out := ModelOutput(last, contents[last]);
      ModelsOutputs(init, contents) + (if out.Some? then [out.value] else [])
  }

  /** One pass of the loop of `generateModels` adds the next file's output, if any. */
  lemma ModelsStep(files: seq<string>, contents: map<string, string>, k: nat)
    requires k < |files| && forall f :: f in files ==> f in contents
    ensures forall f :: f in files[..k] ==> f in contents
    ensures forall f :: f in files[..k + 1] ==> f in contents
    ensures var out := ModelOutput(files[k], contents[files[k]]);
      ModelsOutputs(files[..k + 1], contents) == ModelsOutputs(files[..k], contents) + (if out.Some? then [out.value] else [])
  {
    assert files[..k + 1][..k] == files[..k];
    assert forall f :: f in files[..k + 1] ==> f in files;
  }

  /**
   * `generateModels` without the file system: the listing and the files' texts are given, and the
   * outputs it writes and the index text are returned.
   */
  method GenerateModels(listing: seq<string>, contents: map<string, string>) returns (outputs: seq<Output>, index: string)
    requires forall f :: f in listing && EndsWith(f, ".cs") ==> f in contents
    ensures outputs == ModelsOutputs(CsFiles(listing), contents)
    ensures index == IndexContent(CsFiles(listing))
  {
    var files := CsFiles(listing);
    outputs := [];
    for k := 0 to |files|
      invariant forall f :: f in files[..k] ==> f in contents
      invariant outputs == ModelsOutputs(files[..k], contents)
    {
      ModelsStep(files, contents, k);
      var file := files[k];
      var out := GenerateModel(file, contents[file]);
      if out.Some? {
        outputs := outputs + [out.value];
      }
    }
    assert files[..|files|] == files;
    index := GenerateIndexFile(files);
  }
}
