/**
 * The C#-to-TypeScript type mapper and property-line parser of ClientApp/gulpfile.js
 * (`convertType`, `parseProperty`). The regular expressions are modelled as the scans that the
 * JavaScript engine's leftmost, greedy, backtracking matcher performs on these particular patterns.
 */
module TypeMapping {
  import opened Wrappers
  import opened Text

  /** `TYPE_MAPPINGS`: C# simple type names and generic prefixes to their TypeScript names. */
  const TypeMappings: map<string, string> := map[
    "int" := "number", "long" := "number", "float" := "number", "double" := "number",
    "decimal" := "number", "bool" := "boolean", "string" := "string", "DateTime" := "string",
    "Guid" := "string", "List<" := "Array<", "ICollection<" := "Array<", "IEnumerable<" := "Array<"]

  const NullSuffix: string := " | null"

  /** `s.replace('?', '')`: a string pattern replaces its first occurrence only. */
  function RemoveFirst(s: string, c: char): (r: string)
    ensures |r| <= |s|
    ensures c !in s ==> r == s
  {
    var i := IndexOf(s, c, 0);
    if i == |s| then s else s[..i] + s[i + 1..]
  }

  /** The C# collection types that become TypeScript arrays. */
  predicate IsCollectionType(t: string) {
    Contains(t, "List<") || Contains(t, "ICollection<") || Contains(t, "IEnumerable<")
  }

  /** The last position in lo..hi-1 holding `c`. */
  function LastIndexIn(s: string, c: char, lo: nat, hi: nat): (r: Option<nat>)
    requires hi <= |s|
    ensures r.Some? ==> lo <= r.value < hi && s[r.value] == c && forall m :: r.value < m < hi ==> s[m] != c
    ensures r.None? ==> forall m :: lo <= m < hi ==> s[m] != c
    decreases hi
  {
    if hi <= lo then None else if s[hi - 1] == c then Some(hi - 1) else LastIndexIn(s, c, lo, hi - 1)
  }

  /**
   * The group of `/<(.+)>/` when the match starts at `p` or later: from the leftmost '<' that has a
   * '>' at least two places further on the same line, up to the last such '>'.
   */
  function GenericArgumentFrom(s: string, p: nat): (r: Option<string>)
    requires p <= |s|
    ensures r.Some? ==> |r.value| + 2 <= |s| - p && |r.value| >= 1
    decreases |s| - p
  {
    if p == |s| then None
    else if s[p] == '<' then
      match LastIndexIn(s, '>', p + 2, LineEnd(s, p + 1))
      case Some(q) => Some(s[p + 1..q])
      case None => GenericArgumentFrom(s, p + 1)
    else GenericArgumentFrom(s, p + 1)
  }

  function GenericArgument(s: string): (r: Option<string>)
    ensures r.Some? ==> |r.value| + 2 <= |s|
  {
    GenericArgumentFrom(s, 0)
  }

  /** `convertType(csharpType)`: whether the type is nullable is decided before the first '?' is removed. */
  function ConvertType(csType: string): (ts: string)
    decreases |csType|, 1
  {
    ConvertBase(Trim(RemoveFirst(csType, '?')), '?' in csType)
  }

  /** The conversion of the trimmed type once its nullability is known. */
  function ConvertBase(base: string, nullable: bool): (ts: string)
    decreases |base|, 0
  {
    var suffix := if nullable then NullSuffix else "";
    var arg := GenericArgument(base);
    if IsCollectionType(base) && arg.Some? then ConvertType(arg.value) + "[]" + suffix
    else (if base in TypeMappings then TypeMappings[base] else base) + suffix
  }

  /** Helper for NullableAppendsNull: at the base level nullability only adds the suffix. */
  lemma NullableBase(base: string)
    ensures ConvertBase(base, true) == ConvertBase(base, false) + NullSuffix
  {
  }

  /** A trimmed type name without '?' that is a key of the mapping, and no collection, becomes its mapped name. */
  lemma ConvertMapped(t: string)
    requires '?' !in t && IsTrimmed(t) && t in TypeMappings && !IsCollectionType(t)
    ensures ConvertType(t) == TypeMappings[t]
  {
    TrimTrimmed(t);
  }

  /** A trimmed type name without '?' that is neither mapped nor a collection passes through unchanged. */
  lemma ConvertPassesThrough(t: string)
    requires '?' !in t && IsTrimmed(t) && t !in TypeMappings && !IsCollectionType(t)
    ensures ConvertType(t) == t
  {
    TrimTrimmed(t);
  }

  /** Marking any type without a '?' nullable appends " | null" to its conversion and changes nothing else. */
  lemma NullableAppendsNull(t: string)
    requires '?' !in t
    ensures ConvertType(t + "?") == ConvertType(t) + NullSuffix
  {
    var s := t + "?";
    IndexOfAt(s, '?', 0, |t|);
    assert s[..|t|] == t && s[|t| + 1..] == [];
    assert RemoveFirst(s, '?') == t;
    assert s[|t|] == '?';
    NullableBase(Trim(t));
  }

  /** Every type containing a '?' converts to a nullable TypeScript type. */
  lemma NullableEndsWithNull(t: string)
    requires '?' in t
    ensures EndsWith(ConvertType(t), NullSuffix)
  {
  }

  /** The generic argument of `Prefix<T>` is `T`, when the prefix has no '<' and `T` stays on one line. */
  lemma GenericArgumentOf(prefix: string, t: string)
    requires '<' !in prefix && t != []
    requires forall k :: 0 <= k < |t| ==> !IsJsLineTerminator(t[k])
    ensures GenericArgument(prefix + "<" + t + ">") == Some(t)
  {
    var s := prefix + "<" + t + ">";
    var p := |prefix|;
    assert forall k :: 0 <= k < p ==> s[k] == prefix[k];
    assert forall k :: 0 <= k < p ==> s[k] != '<';
    assert forall k :: p + 1 <= k < |s| - 1 ==> s[k] == t[k - p - 1];
    LineEndAt(s, p + 1, |s|);
    assert s[p + 1..|s| - 1] == t;
    GenericScanSkips(s, 0, p);
  }

  /** Positions without '<' contribute nothing to the scan for the generic argument. */
  lemma {:induction false} GenericScanSkips(s: string, p: nat, q: nat)
    requires p <= q <= |s|
    requires forall k :: p <= k < q ==> s[k] != '<'
    ensures GenericArgumentFrom(s, p) == GenericArgumentFrom(s, q)
    decreases q - p
  {
    if p < q {
      GenericScanSkips(s, p + 1, q);
    }
  }

  /** A collection type, trimmed and without '?', becomes an array of its converted argument. */
  lemma ConvertCollection(s: string, t: string)
    requires IsCollectionType(s) && '?' !in s && IsTrimmed(s) && GenericArgument(s) == Some(t)
    ensures ConvertType(s) == ConvertType(t) + "[]"
  {
    TrimTrimmed(s);
  }

  /**
   * `List<T>`, `ICollection<T>` and `IEnumerable<T>` become the conversion of `T` followed by "[]",
   * and a trailing '?' adds " | null".
   */
  lemma CollectionBecomesArray(prefix: string, t: string)
    requires prefix == "List" || prefix == "ICollection" || prefix == "IEnumerable"
    requires t != [] && '?' !in t
    requires forall k :: 0 <= k < |t| ==> !IsJsLineTerminator(t[k])
    ensures ConvertType(prefix + "<" + t + ">") == ConvertType(t) + "[]"
    ensures ConvertType(prefix + "<" + t + ">" + "?") == ConvertType(t) + "[]" + NullSuffix
  {
    var s := prefix + "<" + t + ">";
    CollectionShape(prefix, t);
    GenericArgumentOf(prefix, t);
    ConvertCollection(s, t);
    NullableCollection(s, t);
  }

  lemma NullableCollection(s: string, t: string)
    requires IsCollectionType(s) && '?' !in s && IsTrimmed(s) && GenericArgument(s) == Some(t)
    ensures ConvertType(s + "?") == ConvertType(t) + "[]" + NullSuffix
  {
    ConvertCollection(s, t);
    NullableAppendsNull(s);
  }

  lemma CollectionShape(prefix: string, t: string)
    requires prefix == "List" || prefix == "ICollection" || prefix == "IEnumerable"
    requires '?' !in t
    ensures var s := prefix + "<" + t + ">"; IsCollectionType(s) && '?' !in s && IsTrimmed(s)
    ensures '<' !in prefix
  {
    var w := prefix + "<";
    var s := w + t + ">";
    assert s[..|w|] == w;
    assert OccursAt(s, w, 0);
    CollectionWord(prefix);
    assert s[0] == w[0] && s[|s| - 1] == '>';
  }

  /** The three collection prefixes, with their '<', are the words the mapper looks for. */
  lemma CollectionWord(prefix: string)
    requires prefix == "List" || prefix == "ICollection" || prefix == "IEnumerable"
    ensures var w := prefix + "<"; w == "List<" || w == "ICollection<" || w == "IEnumerable<"
    ensures '<' !in prefix && '?' !in prefix + "<" && !IsJsSpace((prefix + "<")[0])
  {
  }

  /** Every key of the mapping that is not a generic prefix converts to its TypeScript name, alone and nullable. */
  lemma MappedTypes(t: string)
    requires t in TypeMappings && '<' !in t
    ensures ConvertType(t) == TypeMappings[t]
    ensures ConvertType(t + "?") == TypeMappings[t] + NullSuffix
  {
    MappedKeyPlain(t);
    ConvertMapped(t);
    NullableAppendsNull(t);
  }

  /** The simple keys of the mapping carry no '?', no surrounding blanks and no collection prefix. */
  lemma MappedKeyPlain(t: string)
    requires t in TypeMappings && '<' !in t
    ensures '?' !in t && IsTrimmed(t) && !IsCollectionType(t)
  {
    assert '?' !in t && t != [] && t[0] != ' ' by {
      assert t in ["int", "long", "float", "double", "decimal", "bool", "string", "DateTime", "Guid"];
    }
    assert IsTrimmed(t);
    NotCollection(t);
  }

  /** A C# array type is not in the mapping and passes through as written (`imageData: byte[]`). */
  lemma ByteArrayPassesThrough()
    ensures ConvertType("byte[]") == "byte[]"
  {
    assert "byte[]" !in TypeMappings;
    NotCollection("byte[]");
    assert IsTrimmed("byte[]");
    ConvertPassesThrough("byte[]");
  }

  /** A name with no '<' contains none of the collection prefixes. */
  lemma NotCollection(t: string)
    requires '<' !in t
    ensures !IsCollectionType(t)
  {
    if Contains(t, "List<") {
      ContainsLastChar(t, "List<");
    }
    if Contains(t, "ICollection<") {
      ContainsLastChar(t, "ICollection<");
    }
    if Contains(t, "IEnumerable<") {
      ContainsLastChar(t, "IEnumerable<");
    }
  }

  lemma ContainsLastChar(t: string, p: string)
    requires Contains(t, p) && p != []
    ensures p[|p| - 1] in t
  {
    var i :| 0 <= i <= |t| - |p| && OccursAt(t, p, i);
    assert t[i + |p| - 1] == p[|p| - 1];
  }

  /** Only the first '?' is removed: a doubly marked type is not found in the mapping. */
  lemma OnlyFirstMarkRemoved()
    ensures ConvertType("int??") == "int?" + NullSuffix
  {
    var s := "int??";
    IndexOfAt(s, '?', 0, 3);
    assert RemoveFirst(s, '?') == "int?";
    assert IsTrimmed("int?");
    TrimTrimmed("int?");
    NotCollection("int?");
  }

  /** A property as the generator emits it: the camel-cased name and the TypeScript type. */
  datatype Property = Property(name: string, tsType: string)

  /** The two groups of the property pattern: the declared type and the name. */
  datatype PropertyMatch = PropertyMatch(csType: string, name: string)

  /**
   * `/public\s+(\S+\??)\s+(\w+)\s*{\s*get;\s*set;\s*}/` tried at the start of `r` (the rest of the
   * line from some position). Each run is greedy, and backtracking into it cannot help: the character
   * after every run is outside its class and is what the next element needs, so the match, if any, is
   * this one. The type group `\S+\??` is therefore the whole run of non-blank characters.
   */
  function PropertyMatchAt(r: string): (m: Option<PropertyMatch>)
    ensures m.Some? ==> StartsWith(r, "public")
    ensures m.Some? ==> m.value.csType != [] && m.value.name != []
    ensures m.Some? ==> forall k :: 0 <= k < |m.value.name| ==> IsWordChar(m.value.name[k])
  {
    if StartsWith(r, "public") then AfterPublic(r[6..]) else None
  }

  /** `\s+` then the type group. */
  function AfterPublic(r: string): (m: Option<PropertyMatch>)
    ensures m.Some? ==> m.value.csType != [] && m.value.name != []
    ensures m.Some? ==> forall k :: 0 <= k < |m.value.name| ==> IsWordChar(m.value.name[k])
  {
    if r != [] && IsJsSpace(r[0]) then TypeGroup(SkipSpace(r)) else None
  }

  /** `(\S+\??)`, then `\s+` and the name group. */
  function TypeGroup(r: string): (m: Option<PropertyMatch>)
    ensures m.Some? ==> m.value.csType != [] && m.value.name != []
    ensures m.Some? ==> forall k :: 0 <= k < |m.value.name| ==> IsWordChar(m.value.name[k])
  {
    var n := Span(r, NonSpace);
    var rest := r[n..];
    if n == 0 || rest == [] || !IsJsSpace(rest[0]) then None
    else match NameGroup(SkipSpace(rest))
      case None => None
      case Some(name) => Some(PropertyMatch(r[..n], name))
  }

  /** `(\w+)`, then the accessor list. */
  function NameGroup(r: string): (name: Option<string>)
    ensures name.Some? ==> name.value != [] && forall k :: 0 <= k < |name.value| ==> IsWordChar(name.value[k])
  {
    var n := Span(r, Word);
    if n > 0 && Accessors(r[n..]) then Some(r[..n]) else None
  }

  /** `\s*` followed by the literal `w`. */
  predicate Token(r: string, w: string) {
    StartsWith(SkipSpace(r), w)
  }

  /** What is left after `\s*` and the literal `w`. */
  function After(r: string, w: string): string
    requires Token(r, w)
  {
    SkipSpace(r)[|w|..]
  }

  /** `\s*{\s*get;\s*set;\s*}`. */
  predicate Accessors(r: string) {
    Token(r, "{") && AccessorsGet(After(r, "{"))
  }

  predicate AccessorsGet(r: string) {
    Token(r, "get;") && AccessorsSet(After(r, "get;"))
  }

  predicate AccessorsSet(r: string) {
    Token(r, "set;") && Token(After(r, "set;"), "}")
  }

  /** The leftmost match at or after `p`. */
  function PropertyMatchFrom(s: string, p: nat): (m: Option<PropertyMatch>)
    requires p <= |s|
    ensures m.Some? ==> Contains(s, "public")
    ensures m.Some? ==> m.value.csType != [] && m.value.name != []
    ensures m.Some? ==> forall k :: 0 <= k < |m.value.name| ==> IsWordChar(m.value.name[k])
    decreases |s| - p
  {
    var m := PropertyMatchAt(s[p..]);
    if m.Some? then
      assert s[p..][..6] == s[p..p + 6];
      assert OccursAt(s, "public", p);
      m
    else if p == |s| then None
    else PropertyMatchFrom(s, p + 1)
  }

  /** `name.charAt(0).toLowerCase() + name.slice(1)`; the name is made of `\w` characters, which are ASCII. */
  function LowerFirst(name: string): (r: string)
    ensures |r| == |name|
    ensures name != [] ==> r[0] == AsciiLower(name[0]) && r[1..] == name[1..]
  {
    if name == [] then [] else [AsciiLower(name[0])] + name[1..]
  }

  /** `parseProperty(line)`. */
  function ParseProperty(line: string): Option<Property> {
    match PropertyMatchFrom(line, 0)
    case None => None
    case Some(m) => Some(Property(LowerFirst(m.name), ConvertType(m.csType)))
  }

  /** A line in which "public" does not occur declares no property. */
  lemma NoPublicNoProperty(line: string)
    requires !Contains(line, "public")
    ensures ParseProperty(line) == None
  {
  }

  /** A parsed property's name is a non-empty run of word characters that starts with no upper-case letter. */
  lemma PropertyNameShape(line: string)
    requires ParseProperty(line).Some?
    ensures var n := ParseProperty(line).value.name;
      n != [] && !('A' <= n[0] <= 'Z') && forall k :: 0 <= k < |n| ==> IsWordChar(n[k])
  {
  }

  /**
   * The canonical auto-property line `public T N { get; set; }`, followed by anything (an initialiser),
   * yields the property named N with its first letter lower-cased, typed by the conversion of T.
   */
  lemma AutoPropertyParsed(t: string, n: string, tail: string)
    requires t != [] && forall k :: 0 <= k < |t| ==> !IsJsSpace(t[k])
    requires n != [] && forall k :: 0 <= k < |n| ==> IsWordChar(n[k])
    ensures ParseProperty("public" + (" " + (t + (" " + (n + (" { get; set; }" + tail))))))
      == Some(Property(LowerFirst(n), ConvertType(t)))
  {
    var r5 := " { get; set; }" + tail;
    var r1 := " " + (t + (" " + (n + r5)));
    var s := "public" + r1;
    assert s[..6] == "public" && s[6..] == r1;
    assert s[0..] == s;
    AfterPublicMatches(t, n, r5);
  }

  lemma AfterPublicMatches(t: string, n: string, r5: string)
    requires t != [] && forall k :: 0 <= k < |t| ==> !IsJsSpace(t[k])
    requires n != [] && forall k :: 0 <= k < |n| ==> IsWordChar(n[k])
    requires StartsWith(r5, " { get; set; }")
    ensures AfterPublic(" " + (t + (" " + (n + r5)))) == Some(PropertyMatch(t, n))
  {
    var r3 := " " + (n + r5);
    var r1 := " " + (t + r3);
    assert r1[1..] == t + r3;
    assert SkipSpace(r1) == t + r3;
    SpanAppend(t, r3, NonSpace);
    assert (t + r3)[..|t|] == t && (t + r3)[|t|..] == r3;
    assert r3[1..] == n + r5;
    assert SkipSpace(r3) == n + r5;
    NameGroupMatches(n, r5);
  }

  lemma NameGroupMatches(n: string, r5: string)
    requires n != [] && forall k :: 0 <= k < |n| ==> IsWordChar(n[k])
    requires StartsWith(r5, " { get; set; }")
    ensures NameGroup(n + r5) == Some(n)
  {
    SpanAppend(n, r5, Word);
    assert (n + r5)[..|n|] == n && (n + r5)[|n|..] == r5;
    AccessorsMatch(r5);
  }

  /** The accessor list ` { get; set; }` is matched by the end of the pattern. */
  lemma AccessorsMatch(r: string)
    requires StartsWith(r, " { get; set; }")
    ensures Accessors(r)
  {
    assert r[..2] == " {";
    SpaceThenWord(r, "{");
    assert r[2..][..12] == r[2..14];
    AccessorsGetMatch(r[2..]);
  }

  lemma AccessorsGetMatch(r: string)
    requires StartsWith(r, " get; set; }")
    ensures AccessorsGet(r)
  {
    assert r[..5] == " get;";
    SpaceThenWord(r, "get;");
    assert r[5..][..7] == r[5..12];
    AccessorsSetMatch(r[5..]);
  }

  lemma AccessorsSetMatch(r: string)
    requires StartsWith(r, " set; }")
    ensures AccessorsSet(r)
  {
    assert r[..5] == " set;";
    SpaceThenWord(r, "set;");
    assert r[5..][..2] == r[5..7] == " }";
    SpaceThenWord(r[5..], "}");
  }

  /** One blank and then the literal `w` (which starts with a non-blank) is the token `w`. */
  lemma SpaceThenWord(r: string, w: string)
    requires w != [] && !IsJsSpace(w[0]) && |w| < |r|
    requires r[..|w| + 1] == [' '] + w
    ensures Token(r, w) && After(r, w) == r[|w| + 1..]
  {
    assert r[0] == ' ' && r[1] == w[0];
    assert SkipSpace(r) == SkipSpace(r[1..]) == r[1..];
    assert r[1..][..|w|] == w;
  }
}
