/**
 * What PostgreSQL does with a string assigned to a `character varying(n)` column, the type every
 * `MaxLength` string column is created with, or to a `text` column.
 */
module Postgres {
  import opened Wrappers
  import opened Text

  /** Every character is U+0020, the only character varchar(n) lets fall off the end. */
  predicate AllSpaces(s: string) {
    forall k :: 0 <= k < |s| ==> s[k] == ' '
  }

  /**
   * The value stored for `s` in a varchar(n) column: `s` itself when it has at most `n` characters;
   * otherwise its first `n` characters when everything after them is spaces, the excess being cut
   * without an error; otherwise None, the statement failing with "value too long".
   */
  function Varchar(s: string, n: nat): (r: Option<string>)
    ensures |s| <= n ==> r == Some(s)
    ensures r.Some? ==> |r.value| <= n && StartsWith(s, r.value) && AllSpaces(s[|r.value|..])
    ensures r.None? <==> exists k :: n <= k < |s| && s[k] != ' '
  {
    if |s| <= n then Some(s)
    else if AllSpaces(s[n..]) then Some(s[..n])
    else
      assert s[n..][0] == s[n];
      assert exists k :: 0 <= k < |s[n..]| && s[n..][k] != ' ';
      var k :| 0 <= k < |s[n..]| && s[n..][k] != ' ';
      assert s[n + k] != ' ';
      None
  }

  /** No character is U+0000, which no PostgreSQL text value can hold. */
  predicate NulFree(s: string) {
    forall k :: 0 <= k < |s| ==> s[k] != '\0'
  }

  /**
   * A string bound as a parameter for a `text` column: refused when it holds U+0000, the server's
   * check of the parameter's UTF-8 encoding rejecting the byte 0x00; otherwise stored as it is.
   * The refusal comes before the statement is planned or executed.
   */
  function TextColumn(s: string): (r: Option<string>)
    ensures r.Some? <==> NulFree(s)
    ensures r.Some? ==> r.value == s
  {
    if NulFree(s) then Some(s) else None
  }

  /**
   * A string bound as a parameter for a varchar(n) column: refused when it holds U+0000, otherwise
   * stored by the varchar(n) rule. Both refusals come before the statement is executed: the first
   * when the parameter is received, the second when the planner applies the length coercion to
   * the parameter's value.
   */
  function VarcharColumn(s: string, n: nat): (r: Option<string>)
    ensures r.Some? <==> NulFree(s) && Varchar(s, n).Some?
    ensures r.Some? ==> r == Varchar(s, n) && NulFree(r.value)
    ensures NulFree(s) && |s| <= n ==> r == Some(s)
  {
    if !NulFree(s) then None
    else
      var v := Varchar(s, n);
      if v.None? then None
      else
        assert forall k :: 0 <= k < |v.value| ==> v.value[k] == s[k];
        v
  }

  /** A stored value is stored again unchanged, and the value given is the stored one padded with spaces. */
  lemma VarcharStored(s: string, n: nat)
    requires Varchar(s, n).Some?
    ensures Varchar(Varchar(s, n).value, n) == Varchar(s, n)
    ensures s == Varchar(s, n).value + seq(|s| - |Varchar(s, n).value|, _ => ' ')
  {
    var v := Varchar(s, n).value;
    assert s == s[..|v|] + s[|v|..];
  }

  /** A value of exactly `n` characters followed by spaces is stored as those `n` characters. */
  lemma VarcharCutsPadding(s: string, n: nat, k: nat)
    requires |s| == n
    ensures Varchar(s + seq(k, _ => ' '), n) == Some(s)
  {
    var t := s + seq(k, _ => ' ');
    assert t[n..] == seq(k, _ => ' ');
    assert t[..n] == s;
  }
}
