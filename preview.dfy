/**
 * The preview helpers of the client: `BlogComponent.getPreviewText`
 * (ClientApp/src/app/blog/blog.component.ts) and `DraftsComponent.getPreviewText`
 * (ClientApp/src/app/drafts/drafts.component.ts). Each of their four global regular-expression
 * replacements is written out as the left-to-right scan the regular-expression engine performs.
 */
module Preview {
  import opened Text

  /** The end of the run of '#' that starts at `i`. */
  function HashRunEnd(s: string, i: nat): (j: nat)
    requires i <= |s|
    ensures i <= j <= |s|
    ensures forall k :: i <= k < j ==> s[k] == '#'
    ensures j < |s| ==> s[j] != '#'
    decreases |s| - i
  {
    if i < |s| && s[i] == '#' then HashRunEnd(s, i + 1) else i
  }

  /**
   * `replace(/#+\s/g, '')`: a maximal run of '#' followed by one white-space character is removed
   * together with that character; a run followed by anything else is kept.
   */
  function StripHeaders(s: string): (r: string)
    ensures |r| <= |s|
    ensures forall c :: c in r ==> c in s
    decreases |s|
  {
    if s == [] then []
    else if s[0] == '#' then
      var j := HashRunEnd(s, 0);
      if j < |s| && IsJsSpace(s[j]) then
        var r := StripHeaders(s[j + 1..]);
        assert forall c :: c in s[j + 1..] ==> c in s;
        r
      else
        var r := s[..j] + StripHeaders(s[j..]);
        assert forall c :: c in s[j..] ==> c in s;
        r
    else
      var r := [s[0]] + StripHeaders(s[1..]);
      assert forall c :: c in s[1..] ==> c in s;
      r
  }

  // `replace(/\*\*/g, '')`: each non-overlapping "**", taken left to right, is removed.
  function RemoveDoubleStars(s: string): (r: string)
    ensures |r| <= |s|
    ensures forall c :: c in r ==> c in s
    decreases |s|
  {
    if s == [] then []
    else if |s| >= 2 && s[0] == '*' && s[1] == '*' then
      var r := RemoveDoubleStars(s[2..]);
      assert forall c :: c in s[2..] ==> c in s;
      r
    else
      var r := [s[0]] + RemoveDoubleStars(s[1..]);
      assert forall c :: c in s[1..] ==> c in s;
      r
  }

  // `replace(/\*/g, '')`: every '*' is removed and every other character kept in order.
  function RemoveStars(s: string): (r: string)
    ensures |r| <= |s|
    ensures '*' !in r
    ensures forall c :: c in r ==> c in s
    ensures '*' !in s ==> r == s
    decreases |s|
  {
    if s == [] then []
    else if s[0] == '*' then
      var r := RemoveStars(s[1..]);
      assert forall c :: c in s[1..] ==> c in s;
      r
    else
      var r := [s[0]] + RemoveStars(s[1..]);
      assert forall c :: c in s[1..] ==> c in s;
      assert s == [s[0]] + s[1..];
      r
  }

  /** Removing the pairs first changes nothing once every '*' is removed after them. */
  lemma {:induction false} StarPassesCompose(s: string)
    ensures RemoveStars(RemoveDoubleStars(s)) == RemoveStars(s)
    decreases |s|
  {
    if s == [] {
    } else if |s| >= 2 && s[0] == '*' && s[1] == '*' {
      StarPassesCompose(s[2..]);
      assert s[1..][1..] == s[2..];
    } else {
      StarPassesCompose(s[1..]);
      assert ([s[0]] + RemoveDoubleStars(s[1..]))[1..] == RemoveDoubleStars(s[1..]);
    }
  }

  /**
   * `replace(/\[([^\]]+)\]\([^\)]+\)/g, '$1')`: at a '[', the link text runs to the first ']' and
   * must be non-empty; a '(' must follow, and the target runs to the first ')' and must be non-empty.
   * Such a link is replaced by its text; otherwise the '[' is kept and the scan moves on.
   */
  function StripLinks(s: string): (r: string)
    ensures |r| <= |s|
    ensures forall c :: c in r ==> c in s
    decreases |s|
  {
    if s == [] then []
    else if s[0] == '[' && LinkAt(s) then
      var j := IndexOf(s, ']', 1);
      var k := IndexOf(s, ')', j + 2);
      var r := s[1..j] + StripLinks(s[k + 1..]);
      assert forall c :: c in s[1..j] ==> c in s;
      assert forall c :: c in s[k + 1..] ==> c in s;
      r
    else
      var r := [s[0]] + StripLinks(s[1..]);
      assert forall c :: c in s[1..] ==> c in s;
      r
  }

  /** A link starts at the head of `s`. */
  predicate LinkAt(s: string)
    requires s != [] && s[0] == '['
  {
    var j := IndexOf(s, ']', 1);
    && j >= 2 && j + 1 < |s| && s[j + 1] == '('
    && var k := IndexOf(s, ')', j + 2);
       k >= j + 3 && k < |s|
  }

  /** The four replacements in the order both components apply them. */
  function StripMarkdown(content: string): (text: string)
    ensures '*' !in text
    ensures |text| <= |content|
  {
    StripLinks(RemoveStars(RemoveDoubleStars(StripHeaders(content))))
  }

  /** `String.prototype.substring(0, end)`: `end` is clamped to [0, |s|]. */
  function Prefix(s: string, end: int): (r: string)
    ensures |r| == if end < 0 then 0 else if end > |s| then |s| else end
    ensures r == s[..|r|]
  {
    if end < 0 then [] else if end > |s| then s else s[..end]
  }

  const DefaultMaxLength: int := 300
  const DraftsPreviewLength: int := 200
  const Ellipsis: string := "..."

  /** `BlogComponent.getPreviewText(content, maxLength)`; the default `maxLength` is DefaultMaxLength. */
  function BlogPreview(content: string, maxLength: int): string {
    var text := StripMarkdown(content);
    if |text| > maxLength then Prefix(text, maxLength) + Ellipsis else text
  }

  /** `DraftsComponent.getPreviewText(content)`. */
  function DraftsPreview(content: string): string {
    Prefix(StripMarkdown(content), DraftsPreviewLength)
  }

  /**
   * A stripped text longer than `maxLength` (not negative) is cut to its first `maxLength` characters
   * and "..." is appended; a shorter one is returned whole. No preview contains '*'.
   */
  lemma BlogPreviewShape(content: string, maxLength: int)
    requires maxLength >= 0
    ensures var text := StripMarkdown(content);
      var r := BlogPreview(content, maxLength);
      && (|text| > maxLength ==> |r| == maxLength + 3 && r == text[..maxLength] + Ellipsis)
      && (|text| <= maxLength ==> r == text)
      && '*' !in r[..if |text| > maxLength then maxLength else |r|]
  {
    var text := StripMarkdown(content);
    if |text| > maxLength {
      assert forall c :: c in text[..maxLength] ==> c in text;
      assert BlogPreview(content, maxLength)[..maxLength] == text[..maxLength];
    }
  }

  /** The drafts preview is the first min(200, n) characters of the n-character stripped text, with no ellipsis and no '*'. */
  lemma DraftsPreviewShape(content: string)
    ensures var text := StripMarkdown(content);
      var r := DraftsPreview(content);
      && |r| == (if |text| < 200 then |text| else 200) && r == text[..|r|] && '*' !in r
  {
    var text := StripMarkdown(content);
    var r := DraftsPreview(content);
    assert forall c :: c in r ==> c in text;
  }

  /** With a limit of 200, the blog preview is the drafts preview plus "..." exactly when the text is cut. */
  lemma BlogAndDraftsAgree(content: string)
    ensures |StripMarkdown(content)| > 200 ==> BlogPreview(content, 200) == DraftsPreview(content) + Ellipsis
    ensures |StripMarkdown(content)| <= 200 ==> BlogPreview(content, 200) == DraftsPreview(content)
  {
  }

  /** A negative limit leaves only the ellipsis. */
  lemma NegativeLimit(content: string, maxLength: int)
    requires maxLength < 0
    ensures BlogPreview(content, maxLength) == Ellipsis
  {
  }

  /** `#`, `##`, ... followed by a space or other white space vanish with that character. */
  lemma {:induction false} HeaderMarkerRemoved(n: nat, ws: char, rest: string)
    requires n >= 1 && IsJsSpace(ws)
    ensures StripHeaders(seq(n, _ => '#') + [ws] + rest) == StripHeaders(rest)
  {
    var s := seq(n, _ => '#') + [ws] + rest;
    assert HashRunEnd(s, 0) == n by {
      HashRunEndAt(s, 0, n);
    }
    assert s[n + 1..] == rest;
  }

  /** The run of '#' from `i` ends at `n` when exactly positions i..n-1 hold '#'. */
  lemma {:induction false} HashRunEndAt(s: string, i: nat, n: nat)
    requires i <= n < |s|
    requires forall k :: i <= k < n ==> s[k] == '#'
    requires s[n] != '#'
    ensures HashRunEnd(s, i) == n
    decreases n - i
  {
    if i < n {
      HashRunEndAt(s, i + 1, n);
    }
  }

  /** A run of '#' not followed by white space (a hashtag) is kept. */
  lemma HashtagKept(n: nat, c: char, rest: string)
    requires n >= 1 && !IsJsSpace(c) && c != '#'
    ensures StripHeaders(seq(n, _ => '#') + [c] + rest) == seq(n, _ => '#') + StripHeaders([c] + rest)
  {
    var s := seq(n, _ => '#') + [c] + rest;
    HashRunEndAt(s, 0, n);
    assert s[..n] == seq(n, _ => '#');
    assert s[n..] == [c] + rest;
  }

  /** Text without '#' passes the header pass unchanged. */
  lemma {:induction false} NoHeadersUnchanged(s: string)
    requires '#' !in s
    ensures StripHeaders(s) == s
    decreases |s|
  {
    if s != [] {
      assert '#' !in s[1..];
      NoHeadersUnchanged(s[1..]);
      assert s == [s[0]] + s[1..];
    }
  }

  /** `[text](url)` becomes `text`, however the rest of the string continues. */
  lemma LinkReplacedByText(t: string, u: string, rest: string)
    requires |t| >= 1 && ']' !in t
    requires |u| >= 1 && ')' !in u
    ensures StripLinks("[" + t + "](" + u + ")" + rest) == t + StripLinks(rest)
  {
    var s := "[" + t + "](" + u + ")" + rest;
    var j := |t| + 1;
    IndexOfAt(s, ']', 1, j);
    var k := j + 2 + |u|;
    IndexOfAt(s, ')', j + 2, k);
    assert LinkAt(s);
    assert s[1..j] == t;
    assert s[k + 1..] == rest;
  }

  /** A '[' directly followed by ']' (empty link text) is kept, and the scan goes on after it. */
  lemma EmptyLinkTextKept(rest: string)
    ensures StripLinks("[]" + rest) == "[" + StripLinks("]" + rest)
  {
    var s := "[]" + rest;
    IndexOfAt(s, ']', 1, 1);
    assert !LinkAt(s);
    assert s[1..] == "]" + rest;
  }

  /** Text without '[' passes the link pass unchanged. */
  lemma {:induction false} NoLinkUnchanged(s: string)
    requires '[' !in s
    ensures StripLinks(s) == s
    decreases |s|
  {
    if s != [] {
      assert '[' !in s[1..];
      NoLinkUnchanged(s[1..]);
      assert s == [s[0]] + s[1..];
    }
  }
}
