/**
 * The XML documentation scanner of ClientApp/gulpfile.js (`parseComment`): it walks up from a
 * declaration over the `///` lines directly above it and builds the text the generated TypeScript
 * carries as its doc comment.
 */
module DocComments {
  import opened Wrappers
  import opened Text

  /**
   * `/\/\/\/\s*<summary>\s*(.+)\s*<\/summary>/` tried at the start of `r`. The `\s*` before
   * `<summary>` cannot backtrack usefully ('<' is not blank); the one after it can, so every
   * start of the group from the end of the blank run back to its beginning is tried in turn.
   */
  function SummaryAt(r: string): Option<string> {
    if !StartsWith(r, "///") then None
    else
      var r1 := SkipSpace(r[3..]);
      if !StartsWith(r1, "<summary>") then None
      else
        var r2 := r1[9..];
        SummaryGroup(r2, SpaceLen(r2))
  }

  /** The group starting `q` characters into `r2`, or failing that one character earlier, down to 0. */
  function SummaryGroup(r2: string, q: nat): Option<string>
    requires q <= |r2|
    decreases q
  {
    var x := r2[q..];
    match GroupEnd(x, LineLen(x))
    case Some(e) => Some(x[..e])
    case None => if q == 0 then None else SummaryGroup(r2, q - 1)
  }

  /** The greedy `(.+)`: the longest prefix of at most `hi` characters that the closing tag can follow (after blanks). */
  function GroupEnd(x: string, hi: nat): (e: Option<nat>)
    requires hi <= |x|
    ensures e.Some? ==> 0 < e.value <= hi
    decreases hi
  {
    if hi == 0 then None
    else if StartsWith(SkipSpace(x[hi..]), "</summary>") then Some(hi)
    else GroupEnd(x, hi - 1)
  }

  /** `line.match(summary)`: the leftmost match at or after `p`, and its group. */
  function SummaryFrom(s: string, p: nat): Option<string>
    requires p <= |s|
    decreases |s| - p
  {
    var m := SummaryAt(s[p..]);
    if m.Some? then m else if p == |s| then None else SummaryFrom(s, p + 1)
  }

  function SummaryMatch(s: string): Option<string> {
    SummaryFrom(s, 0)
  }

  /** `/\/\/\/\s+(.+)/` tried at the start of `r`: the blank run backtracks until the group can start. */
  function TextAt(r: string): Option<string> {
    if !StartsWith(r, "///") then None
    else
      var r1 := r[3..];
      var m := SpaceLen(r1);
      if m == 0 then None else TextGroup(r1, m)
  }

  function TextGroup(r1: string, q: nat): Option<string>
    requires 1 <= q <= |r1|
    decreases q
  {
    var x := r1[q..];
    var e := LineLen(x);
    if e > 0 then Some(x[..e]) else if q == 1 then None else TextGroup(r1, q - 1)
  }

  function TextFrom(s: string, p: nat): Option<string>
    requires p <= |s|
    decreases |s| - p
  {
    var m := TextAt(s[p..]);
    if m.Some? then m else if p == |s| then None else TextFrom(s, p + 1)
  }

  function TextMatch(s: string): Option<string> {
    TextFrom(s, 0)
  }

  /** What one trimmed `///` line contributes: a one-line summary, a line of text, or nothing. */
  datatype DocLine = Summary(text: string) | Text(text: string) | Skip

  function Classify(line: string): (k: DocLine)
    ensures k.Summary? <==> SummaryMatch(line).Some?
    ensures k.Text? ==> TextMatch(line).Some? && !Contains(line, "<summary>") && !Contains(line, "</summary>")
    ensures !k.Skip? ==> IsTrimmed(k.text)
  {
    var summary := SummaryMatch(line);
    var text := TextMatch(line);
    if summary.Some? then Summary(Trim(summary.value))
    else if text.Some? && !Contains(line, "<summary>") && !Contains(line, "</summary>") then Text(Trim(text.value))
    else Skip
  }

  /** The line, trimmed, starts with `///`. */
  predicate InBlock(line: string) {
    StartsWith(Trim(line), "///")
  }

  /** The classification of every line (each trimmed first). */
  function Kinds(lines: seq<string>): (kinds: seq<DocLine>)
    ensures |kinds| == |lines|
  {
    if lines == [] then [] else [Classify(Trim(lines[0]))] + Kinds(lines[1..])
  }

  lemma {:induction false} KindAt(lines: seq<string>, k: nat)
    requires k < |lines|
    ensures Kinds(lines)[k] == Classify(Trim(lines[k]))
  {
    if k > 0 {
      KindAt(lines[1..], k - 1);
    }
  }

  /** Which lines are `///` lines. */
  function Blocks(lines: seq<string>): (block: seq<bool>)
    ensures |block| == |lines|
  {
    seq(|lines|, k requires 0 <= k < |lines| => InBlock(lines[k]))
  }

  /** The first line of the unbroken run of `///` lines that ends just above line `index`. */
  function BlockStart(block: seq<bool>, index: nat): (lo: nat)
    requires index <= |block|
    ensures lo <= index
    decreases index
  {
    if index > 0 && block[index - 1] then BlockStart(block, index - 1) else index
  }

  /** The one-line summary closest to `hi` among lines lo..hi-1. */
  function LastSummary(kinds: seq<DocLine>, lo: nat, hi: nat): (r: Option<nat>)
    requires hi <= |kinds|
    ensures r.Some? ==> lo <= r.value < hi && kinds[r.value].Summary?
    decreases hi
  {
    if hi <= lo then None
    else if kinds[hi - 1].Summary? then Some(hi - 1)
    else LastSummary(kinds, lo, hi - 1)
  }

  /** A text line contributes its text and one blank; other lines contribute nothing. */
  function Piece(kind: DocLine): string {
    match kind
    case Text(t) => t + " "
    case _ => ""
  }

  /** The pieces of lines lo..hi-1 in reading order. */
  function JoinTexts(kinds: seq<DocLine>, lo: nat, hi: nat): string
    requires lo <= hi <= |kinds|
    decreases hi - lo
  {
    if lo == hi then "" else Piece(kinds[lo]) + JoinTexts(kinds, lo + 1, hi)
  }

  /**
   * The documentation of the declaration on line `index`, given each line's classification and
   * whether it is a `///` line: within the unbroken `///` block above it, the one-line summary
   * nearest to the declaration if there is one, and otherwise the text lines of the whole block
   * joined by blanks; trimmed either way.
   */
  function CommentOf(kinds: seq<DocLine>, block: seq<bool>, index: nat): string
    requires |kinds| == |block| && index <= |block|
  {
    Trim(RawComment(kinds, block, index))
  }

  /** The comment before the final trim. */
  function RawComment(kinds: seq<DocLine>, block: seq<bool>, index: nat): string
    requires |kinds| == |block| && index <= |block|
  {
    var lo := BlockStart(block, index);
    match LastSummary(kinds, lo, index)
    case Some(k) => kinds[k].text
    case None => JoinTexts(kinds, lo, index)
  }

  function DocComment(lines: seq<string>, index: nat): (comment: string)
    requires index <= |lines|
    ensures IsTrimmed(comment)
  {
    CommentOf(Kinds(lines), Blocks(lines), index)
  }

  /** `parseComment(lines, index)`: the backward scan, proved to compute DocComment. */
  method ParseComment(lines: seq<string>, index: nat) returns (comment: string)
    requires index <= |lines|
    ensures comment == DocComment(lines, index)
  {
    ghost var kinds := Kinds(lines);
    ghost var block := Blocks(lines);
    ghost var lo := BlockStart(block, index);
    comment := "";
    var i: int := index - 1;
    while i >= 0 && StartsWith(Trim(lines[i]), "///")
      invariant -1 <= i < index
      invariant lo == BlockStart(block, i + 1)
      invariant LastSummary(kinds, lo, index) == LastSummary(kinds, lo, i + 1)
      invariant comment == JoinTexts(kinds, i + 1, index)
      decreases i
    {
      var line := Trim(lines[i]);
      var kind := Classify(line);
      KindAt(lines, i);
      assert block[i];
      if kind.Summary? {
        comment := kind.text;
        break;
      } else if kind.Text? {
        comment := kind.text + " " + comment;
      }
      i := i - 1;
    }
    assert i >= 0 ==> block[i] == InBlock(lines[i]);
    comment := Trim(comment);
  }

  /** BlockStart is where the block starts: every line from it up to `index` is a `///` line, and the one above it is not. */
  lemma {:induction false} BlockStartIsBlock(block: seq<bool>, index: nat)
    requires index <= |block|
    ensures forall k :: BlockStart(block, index) <= k < index ==> block[k]
    ensures BlockStart(block, index) > 0 ==> !block[BlockStart(block, index) - 1]
    decreases index
  {
    if index > 0 && block[index - 1] {
      BlockStartIsBlock(block, index - 1);
    }
  }

  /** Conversely, a start with those two properties is BlockStart. */
  lemma {:induction false} BlockStartAt(block: seq<bool>, index: nat, lo: nat)
    requires lo <= index <= |block|
    requires forall k :: lo <= k < index ==> block[k]
    requires lo > 0 ==> !block[lo - 1]
    ensures BlockStart(block, index) == lo
    decreases index
  {
    if index > lo {
      BlockStartAt(block, index - 1, lo);
    }
  }

  /** LastSummary finds the summary line nearest to `hi`, and finds none only when there is none. */
  lemma {:induction false} LastSummaryIsClosest(kinds: seq<DocLine>, lo: nat, hi: nat)
    requires hi <= |kinds|
    ensures LastSummary(kinds, lo, hi).Some? ==>
      forall k :: LastSummary(kinds, lo, hi).value < k < hi ==> !kinds[k].Summary?
    ensures LastSummary(kinds, lo, hi).None? ==> forall k :: lo <= k < hi ==> !kinds[k].Summary?
    decreases hi
  {
    if hi > lo && !kinds[hi - 1].Summary? {
      LastSummaryIsClosest(kinds, lo, hi - 1);
    }
  }

  /** A summary line with no summary line below it within the range is the one LastSummary picks. */
  lemma {:induction false} LastSummaryAt(kinds: seq<DocLine>, lo: nat, hi: nat, k: nat)
    requires lo <= k < hi <= |kinds|
    requires kinds[k].Summary?
    requires forall m :: k < m < hi ==> !kinds[m].Summary?
    ensures LastSummary(kinds, lo, hi) == Some(k)
    decreases hi
  {
    if hi - 1 > k {
      LastSummaryAt(kinds, lo, hi - 1, k);
    }
  }

  /** With no `///` line directly above it, a declaration has no documentation. */
  lemma NoBlockNoComment(lines: seq<string>, index: nat)
    requires index <= |lines|
    requires index == 0 || !InBlock(lines[index - 1])
    ensures DocComment(lines, index) == ""
  {
    var kinds, block := Kinds(lines), Blocks(lines);
    if index > 0 {
      assert !block[index - 1];
    }
    assert BlockStart(block, index) == index;
    assert JoinTexts(kinds, index, index) == "";
    RawTexts(kinds, block, index);
    assert Trim("") == "";
  }

  /** Classifying two pieces of a file and joining the results is classifying the whole file. */
  lemma {:induction false} KindsAppend(lines: seq<string>, more: seq<string>)
    ensures Kinds(lines + more) == Kinds(lines) + Kinds(more)
    ensures Blocks(lines + more) == Blocks(lines) + Blocks(more)
  {
    var all := lines + more;
    if lines == [] {
      assert all == more;
    } else {
      assert all[0] == lines[0];
      assert all[1..] == lines[1..] + more;
      KindsAppend(lines[1..], more);
    }
    forall k | 0 <= k < |all|
      ensures Blocks(all)[k] == (Blocks(lines) + Blocks(more))[k]
    {
      if k < |lines| {
        assert all[k] == lines[k];
      } else {
        assert all[k] == more[k - |lines|];
      }
    }
  }

  /** Lines below the declaration do not affect its documentation. */
  lemma DocCommentIgnoresBelow(lines: seq<string>, below: seq<string>, index: nat)
    requires index <= |lines|
    ensures DocComment(lines + below, index) == DocComment(lines, index)
  {
    KindsAppend(lines, below);
    var kinds, block := Kinds(lines), Blocks(lines);
    var kb, bb := Kinds(below), Blocks(below);
    BlockStartPrefix(block, bb, index);
    var lo := BlockStart(block, index);
    LastSummaryPrefix(kinds, kb, lo, index);
    JoinTextsPrefix(kinds, kb, lo, index);
    match LastSummary(kinds, lo, index)
    case Some(k) => assert (kinds + kb)[k] == kinds[k];
    case None =>
  }

  lemma {:induction false} BlockStartPrefix(block: seq<bool>, below: seq<bool>, index: nat)
    requires index <= |block|
    ensures BlockStart(block + below, index) == BlockStart(block, index)
    decreases index
  {
    if index > 0 {
      assert (block + below)[index - 1] == block[index - 1];
      BlockStartPrefix(block, below, index - 1);
    }
  }

  lemma {:induction false} LastSummaryPrefix(kinds: seq<DocLine>, below: seq<DocLine>, lo: nat, hi: nat)
    requires hi <= |kinds|
    ensures LastSummary(kinds + below, lo, hi) == LastSummary(kinds, lo, hi)
    decreases hi
  {
    if hi > lo {
      assert (kinds + below)[hi - 1] == kinds[hi - 1];
      LastSummaryPrefix(kinds, below, lo, hi - 1);
    }
  }

  lemma {:induction false} JoinTextsPrefix(kinds: seq<DocLine>, below: seq<DocLine>, lo: nat, hi: nat)
    requires lo <= hi <= |kinds|
    ensures JoinTexts(kinds + below, lo, hi) == JoinTexts(kinds, lo, hi)
    decreases hi - lo
  {
    var all := kinds + below;
    if lo < hi {
      assert all[lo] == kinds[lo];
      JoinTextsPrefix(kinds, below, lo + 1, hi);
      var rest := JoinTexts(all, lo + 1, hi);
      assert rest == JoinTexts(kinds, lo + 1, hi);
      assert JoinTexts(all, lo, hi) == Piece(kinds[lo]) + rest;
    } else {
      assert JoinTexts(all, lo, hi) == "";
    }
  }

  /**
   * Lines above the nearest non-`///` line do not affect the documentation either: prefixing the
   * file with more lines (whose classifications KindsAppend relates) shifts the declaration's
   * position and leaves the comment, before and so also after CommentOf trims it, as it was.
   */
  lemma RawCommentIgnoresAbove(ka: seq<DocLine>, ba: seq<bool>, kinds: seq<DocLine>, block: seq<bool>, index: nat)
    requires |ka| == |ba| && |kinds| == |block| && index <= |block|
    requires BlockStart(block, index) > 0
    ensures RawComment(ka + kinds, ba + block, |ka| + index) == RawComment(kinds, block, index)
  {
    if LastSummary(kinds, BlockStart(block, index), index).Some? {
      SummaryShift(ka, ba, kinds, block, index);
    } else {
      TextsShift(ka, ba, kinds, block, index);
    }
  }

  lemma SummaryShift(ka: seq<DocLine>, ba: seq<bool>, kinds: seq<DocLine>, block: seq<bool>, index: nat)
    requires |ka| == |ba| && |kinds| == |block| && index <= |block|
    requires BlockStart(block, index) > 0
    requires LastSummary(kinds, BlockStart(block, index), index).Some?
    ensures RawComment(ka + kinds, ba + block, |ka| + index) == RawComment(kinds, block, index)
  {
    BlockStartShift(ba, block, index);
    var lo := BlockStart(block, index);
    LastSummaryShift(ka, kinds, lo, index);
    var k := LastSummary(kinds, lo, index).value;
    assert (ka + kinds)[|ka| + k] == kinds[k];
  }

  lemma TextsShift(ka: seq<DocLine>, ba: seq<bool>, kinds: seq<DocLine>, block: seq<bool>, index: nat)
    requires |ka| == |ba| && |kinds| == |block| && index <= |block|
    requires BlockStart(block, index) > 0
    requires LastSummary(kinds, BlockStart(block, index), index).None?
    ensures RawComment(ka + kinds, ba + block, |ka| + index) == RawComment(kinds, block, index)
  {
    BlockStartShift(ba, block, index);
    var lo := BlockStart(block, index);
    LastSummaryShift(ka, kinds, lo, index);
    JoinTextsShift(ka, kinds, lo, index);
    RawTexts(kinds, block, index);
    RawTexts(ka + kinds, ba + block, |ka| + index);
  }

  /** Without a one-line summary the raw comment is the joined text lines of the block. */
  lemma RawTexts(kinds: seq<DocLine>, block: seq<bool>, index: nat)
    requires |kinds| == |block| && index <= |block|
    requires LastSummary(kinds, BlockStart(block, index), index).None?
    ensures RawComment(kinds, block, index) == JoinTexts(kinds, BlockStart(block, index), index)
  {
  }

  lemma {:induction false} BlockStartShift(above: seq<bool>, block: seq<bool>, index: nat)
    requires index <= |block|
    requires BlockStart(block, index) > 0
    ensures BlockStart(above + block, |above| + index) == |above| + BlockStart(block, index)
    decreases index
  {
    assert (above + block)[|above| + index - 1] == block[index - 1];
    if block[index - 1] {
      BlockStartShift(above, block, index - 1);
    }
  }

  lemma {:induction false} LastSummaryShift(above: seq<DocLine>, kinds: seq<DocLine>, lo: nat, hi: nat)
    requires hi <= |kinds|
    ensures LastSummary(kinds, lo, hi).None? ==> LastSummary(above + kinds, |above| + lo, |above| + hi).None?
    ensures LastSummary(kinds, lo, hi).Some? ==>
      LastSummary(above + kinds, |above| + lo, |above| + hi) == Some(|above| + LastSummary(kinds, lo, hi).value)
    decreases hi
  {
    if hi > lo {
      assert (above + kinds)[|above| + hi - 1] == kinds[hi - 1];
      LastSummaryShift(above, kinds, lo, hi - 1);
    }
  }

  lemma {:induction false} JoinTextsShift(above: seq<DocLine>, kinds: seq<DocLine>, lo: nat, hi: nat)
    requires lo <= hi <= |kinds|
    ensures JoinTexts(above + kinds, |above| + lo, |above| + hi) == JoinTexts(kinds, lo, hi)
    decreases hi - lo
  {
    var all, n := above + kinds, |above|;
    if lo < hi {
      assert all[n + lo] == kinds[lo];
      JoinTextsShift(above, kinds, lo + 1, hi);
      var rest := JoinTexts(all, n + (lo + 1), n + hi);
      assert rest == JoinTexts(kinds, lo + 1, hi);
      assert JoinTexts(all, n + lo, n + hi) == Piece(kinds[lo]) + rest;
    } else {
      assert JoinTexts(all, n + lo, n + hi) == "";
    }
  }

  /** No line terminator occurs in `t`: a `.` matches each of its characters. */
  predicate SingleLine(t: string) {
    forall k :: 0 <= k < |t| ==> !IsJsLineTerminator(t[k])
  }

  /** The greedy group ends at `e` when the closing tag follows there and no later end leaves room for it. */
  lemma {:induction false} GroupEndAt(x: string, hi: nat, e: nat)
    requires 0 < e <= hi <= |x| && |x| <= e + 10
    requires StartsWith(SkipSpace(x[e..]), "</summary>")
    ensures GroupEnd(x, hi) == Some(e)
    decreases hi
  {
    if hi > e {
      assert |SkipSpace(x[hi..])| < 10;
      GroupEndAt(x, hi - 1, e);
    }
  }

  /** A one-line summary `/// <summary>t</summary>` yields `t`, however `t` continues after its first non-blank. */
  lemma SummaryLineMatch(t: string)
    requires t != [] && !IsJsSpace(t[0]) && SingleLine(t)
    ensures SummaryMatch("/// <summary>" + t + "</summary>") == Some(t)
    ensures Classify("/// <summary>" + t + "</summary>") == Summary(Trim(t))
  {
    var s := "/// <summary>" + t + "</summary>";
    assert s[0..] == s;
    assert StartsWith(s, "///");
    var r3 := s[3..];
    assert r3[1..] == s[4..];
    assert SkipSpace(r3) == s[4..];
    var r1 := s[4..];
    assert r1[..9] == "<summary>";
    var r2 := r1[9..];
    assert r2 == t + "</summary>";
    SummaryGroupOf(t);
    assert SummaryAt(s) == Some(t);
  }

  /** After `<summary>`, the group of `t</summary>` is `t`: the closing tag at the very end is the greedy group's end. */
  lemma SummaryGroupOf(t: string)
    requires t != [] && !IsJsSpace(t[0]) && SingleLine(t)
    ensures SummaryGroup(t + "</summary>", SpaceLen(t + "</summary>")) == Some(t)
  {
    var r2 := t + "</summary>";
    assert SkipSpace(r2) == r2;
    assert r2[0..] == r2;
    assert forall k :: 0 <= k < |r2| ==> !IsJsLineTerminator(r2[k]) by {
      forall k | 0 <= k < |r2| ensures !IsJsLineTerminator(r2[k]) {
        if k < |t| { assert r2[k] == t[k]; }
      }
    }
    LineLenAll(r2);
    assert r2[|t|..] == "</summary>";
    assert SkipSpace(r2[|t|..]) == "</summary>";
    GroupEndAt(r2, |r2|, |t|);
    assert r2[..|t|] == t;
  }

  /** A text line `/// t` yields `t` when `t` starts with a non-blank. */
  lemma TextLineMatch(t: string)
    requires t != [] && !IsJsSpace(t[0]) && SingleLine(t)
    ensures TextMatch("/// " + t) == Some(t)
  {
    var s := "/// " + t;
    assert s[0..] == s;
    assert StartsWith(s, "///");
    var r1 := s[3..];
    assert r1[1..] == t;
    assert SkipSpace(t) == t;
    assert SpaceLen(r1) == 1;
    LineLenAll(t);
    assert t[..|t|] == t;
  }

  /** The greedy group's end is followed, after blanks, by the closing tag. */
  lemma {:induction false} GroupEndTag(x: string, hi: nat)
    requires hi <= |x| && GroupEnd(x, hi).Some?
    ensures Contains(x, "</summary>")
    decreases hi
  {
    if StartsWith(SkipSpace(x[hi..]), "</summary>") {
      var y := x[hi..];
      SkipSpaceSuffix(y);
      StartsWithContains(y[SpaceLen(y)..], "</summary>");
      ContainsInSuffix(y, SpaceLen(y), "</summary>");
      ContainsInSuffix(x, hi, "</summary>");
    } else {
      GroupEndTag(x, hi - 1);
    }
  }

  lemma {:induction false} SummaryGroupTag(r2: string, q: nat)
    requires q <= |r2| && SummaryGroup(r2, q).Some?
    ensures Contains(r2, "</summary>")
    decreases q
  {
    var x := r2[q..];
    if GroupEnd(x, LineLen(x)).Some? {
      GroupEndTag(x, LineLen(x));
      ContainsInSuffix(r2, q, "</summary>");
    } else {
      SummaryGroupTag(r2, q - 1);
    }
  }

  lemma SummaryAtTags(r: string)
    requires SummaryAt(r).Some?
    ensures Contains(r, "<summary>") && Contains(r, "</summary>")
  {
    var r3 := r[3..];
    SkipSpaceSuffix(r3);
    var m := SpaceLen(r3);
    var r1 := r3[m..];
    StartsWithContains(r1, "<summary>");
    SummaryGroupTag(r1[9..], SpaceLen(r1[9..]));
    ContainsInSuffix(r1, 9, "</summary>");
    ContainsInSuffix(r3, m, "<summary>");
    ContainsInSuffix(r3, m, "</summary>");
    ContainsInSuffix(r, 3, "<summary>");
    ContainsInSuffix(r, 3, "</summary>");
  }

  lemma {:induction false} SummaryFromTags(s: string, p: nat)
    requires p <= |s| && SummaryFrom(s, p).Some?
    ensures Contains(s, "<summary>") && Contains(s, "</summary>")
    decreases |s| - p
  {
    if SummaryAt(s[p..]).Some? {
      SummaryAtTags(s[p..]);
      ContainsInSuffix(s, p, "<summary>");
      ContainsInSuffix(s, p, "</summary>");
    } else {
      SummaryFromTags(s, p + 1);
    }
  }

  /** A line is a one-line summary only if it holds both the opening and the closing tag. */
  lemma SummaryNeedsTags(s: string)
    requires SummaryMatch(s).Some?
    ensures Contains(s, "<summary>") && Contains(s, "</summary>")
  {
    SummaryFromTags(s, 0);
  }

  /** A text line without tags is a text line, and contributes `t` trimmed. */
  lemma TextLineClassified(t: string)
    requires t != [] && !IsJsSpace(t[0]) && SingleLine(t)
    requires !Contains("/// " + t, "<summary>") && !Contains("/// " + t, "</summary>")
    ensures Classify("/// " + t) == Text(Trim(t))
  {
    TextLineMatch(t);
    if SummaryMatch("/// " + t).Some? {
      SummaryNeedsTags("/// " + t);
    }
  }

  /** The lines that only open or close a multi-line summary contribute nothing. */
  lemma OpeningTagSkipped()
    ensures Classify("/// <summary>") == Skip
  {
    var line, tag := "/// <summary>", "</summary>";
    assert OccursAt(line, "<summary>", 4);
    forall i | 0 <= i <= |line| - |tag|
      ensures !OccursAt(line, tag, i)
    {
      NotOccursAt(line, tag, i, 0);
    }
    if SummaryMatch(line).Some? {
      SummaryNeedsTags(line);
    }
  }

  lemma ClosingTagSkipped()
    ensures Classify("/// </summary>") == Skip
  {
    var line, tag := "/// </summary>", "<summary>";
    assert OccursAt(line, "</summary>", 4);
    forall i | 0 <= i <= |line| - |tag|
      ensures !OccursAt(line, tag, i)
    {
      NotOccursAt(line, tag, i, if i == 4 then 1 else 0);
    }
    if SummaryMatch(line).Some? {
      SummaryNeedsTags(line);
    }
  }

  /** The three lines of a multi-line summary with one line of text `t`. */
  function SummaryBlock(t: string): seq<string> {
    ["/// <summary>", "/// " + t, "/// </summary>"]
  }

  /** What each of the three lines contributes. */
  lemma SummaryBlockLines(t: string)
    requires t != [] && IsTrimmed(t) && SingleLine(t)
    requires !Contains("/// " + t, "<summary>") && !Contains("/// " + t, "</summary>")
    ensures Classify(Trim("/// <summary>")) == Skip
    ensures Classify(Trim("/// " + t)) == Text(t)
    ensures Classify(Trim("/// </summary>")) == Skip
  {
    TrimTrimmed("/// <summary>");
    TrimTrimmed("/// " + t);
    TrimTrimmed("/// </summary>");
    TrimTrimmed(t);
    OpeningTagSkipped();
    ClosingTagSkipped();
    TextLineClassified(t);
  }

  lemma SummaryBlockKinds(t: string)
    requires t != [] && IsTrimmed(t) && SingleLine(t)
    requires !Contains("/// " + t, "<summary>") && !Contains("/// " + t, "</summary>")
    ensures Kinds(SummaryBlock(t)) == [Skip, Text(t), Skip]
  {
    SummaryBlockLines(t);
    KindsOfThree("/// <summary>", "/// " + t, "/// </summary>");
  }

  lemma KindsOfThree(a: string, b: string, c: string)
    ensures Kinds([a, b, c]) == [Classify(Trim(a)), Classify(Trim(b)), Classify(Trim(c))]
  {
    assert [c][1..] == [];
    assert Kinds([c]) == [Classify(Trim(c))];
    assert [b, c][1..] == [c];
    assert Kinds([b, c]) == [Classify(Trim(b)), Classify(Trim(c))];
    assert [a, b, c][1..] == [b, c];
  }

  lemma SummaryBlockBlocks(t: string)
    requires t != [] && IsTrimmed(t)
    ensures Blocks(SummaryBlock(t)) == [true, true, true]
  {
    assert ("/// " + t)[|"/// " + t| - 1] == t[|t| - 1];
    TrimTrimmed("/// <summary>");
    TrimTrimmed("/// " + t);
    TrimTrimmed("/// </summary>");
    assert StartsWith("/// " + t, "///");
  }

  lemma SummaryBlockComment(t: string)
    requires t != [] && IsTrimmed(t)
    ensures CommentOf([Skip, Text(t), Skip], [true, true, true], 3) == t
  {
    var kinds: seq<DocLine> := [Skip, Text(t), Skip];
    BlockStartAt([true, true, true], 3, 0);
    assert LastSummary(kinds, 0, 1) == None;
    assert LastSummary(kinds, 0, 3) == None;
    assert JoinTexts(kinds, 2, 3) == "";
    assert JoinTexts(kinds, 0, 3) == t + " ";
    TrimDropsTrailingBlank(t);
  }

  /**
   * The layout the domain models use: an opening-tag line, one line of text and a closing-tag line
   * directly above a declaration document it with that text, whatever follows.
   */
  lemma SummaryBlockDocuments(t: string, rest: seq<string>)
    requires t != [] && IsTrimmed(t) && SingleLine(t)
    requires !Contains("/// " + t, "<summary>") && !Contains("/// " + t, "</summary>")
    ensures DocComment(SummaryBlock(t) + rest, 3) == t
  {
    DocCommentIgnoresBelow(SummaryBlock(t), rest, 3);
    SummaryBlockKinds(t);
    SummaryBlockBlocks(t);
    SummaryBlockComment(t);
  }
}
