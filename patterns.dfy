/**
 * Hand-written matchers for the five compiled patterns of each converter
 * (`p_entering_service_block`, `p_exiting_service_block`, `p_service_next`,
 * `p_service_name`, `p_service_setting`), as `re.search` with `re.IGNORECASE`
 * applies them to a stripped line. `^` anchors at the start; `$` is taken as the
 * end of the string (Python also lets it match before a final newline, which a
 * stripped line never has); `.` is any character but a newline; `\s` and `\S`
 * are Text.IsSpace and its negation; case folding is ASCII only.
 *
 * The two extractors come with a declarative description of the strings their
 * pattern accepts (an `Is...Shape` predicate, with the greedy choices written
 * out), a soundness lemma and a completeness lemma.
 */
module Patterns {
  import opened Text
  import opened Wrappers

  /** `^\s*<keyword>$`, case-insensitive: the block-entry patterns. */
  predicate MatchesBlockEntry(keyword: string, t: string) {
    EqualsIgnoreCase(t[LeadingSpaces(t)..], keyword)
  }

  /** `^end$`, case-insensitive: the block-exit pattern. */
  predicate IsEnd(t: string) {
    EqualsIgnoreCase(t, "end")
  }

  /** `^next$`, case-insensitive: the record-commit pattern. */
  predicate IsNext(t: string) {
    EqualsIgnoreCase(t, "next")
  }

  // ---------------------------------------------------------------- the edit pattern

  /**
   * The strings `^\s*edit\s+"(.*)"$` accepts, with `n` the captured group:
   * `a` whitespace, the keyword in any case, at least one whitespace `b`, a
   * quote, a newline-free `n`, a quote at the very end. Because `.*` is greedy,
   * `n` runs from the first quote to the last one and may itself hold quotes.
   */
  predicate IsEditShape(t: string, a: string, e: string, b: string, n: string) {
    && t == a + e + b + "\"" + n + "\""
    && AllSpace(a) && EqualsIgnoreCase(e, "edit")
    && |b| >= 1 && AllSpace(b)
    && '\n' !in n
  }

  /** `^\s*<keyword>`, case-insensitive: the text after the keyword, or None. */
  function AfterKeyword(keyword: string, t: string): Option<string> {
    var j := LeadingSpaces(t);
    if j + |keyword| <= |t| && EqualsIgnoreCase(t[j..j + |keyword|], keyword) then Some(t[j + |keyword|..])
    else None
  }

  /** `\s+"(.*)"$`: the quoted text, or None. */
  function QuotedName(s: string): Option<string> {
    var m := LeadingSpaces(s);
    if 0 < m && m + 2 <= |s| && s[m] == '"' && s[|s| - 1] == '"' && '\n' !in s[m + 1..|s| - 1] then
      Some(s[m + 1..|s| - 1])
    else None
  }

  /** `p_service_name.search(t).group(...)`, or None when the pattern does not match. */
  function EditName(t: string): Option<string> {
    match AfterKeyword("edit", t)
    case None => None
    case Some(rest) => QuotedName(rest)
  }

  lemma AfterKeywordOf(keyword: string, a: string, e: string, rest: string)
    requires keyword != [] && !IsSpace(keyword[0])
    requires AllSpace(a) && EqualsIgnoreCase(e, keyword)
    ensures AfterKeyword(keyword, a + e + rest) == Some(rest)
  {
    var t := a + e + rest;
    LowerKeepsSpace(e[0]);
    LowerKeepsSpace(keyword[0]);
    assert t[|a|] == e[0];
    LeadingSpacesIs(t, |a|);
    assert t[|a|..|a| + |e|] == e;
    assert t[|a| + |e|..] == rest;
  }

  lemma AfterKeywordSound(keyword: string, t: string) returns (a: string, e: string)
    requires AfterKeyword(keyword, t).Some?
    ensures t == a + e + AfterKeyword(keyword, t).value
    ensures AllSpace(a) && EqualsIgnoreCase(e, keyword)
  {
    var j := LeadingSpaces(t);
    SpacesPrefix(t);
    a, e := t[..j], t[j..j + |keyword|];
    assert t == t[..j] + t[j..j + |keyword|] + t[j + |keyword|..];
  }

  lemma QuotedNameOf(b: string, n: string)
    requires |b| >= 1 && AllSpace(b) && '\n' !in n
    ensures QuotedName(b + "\"" + n + "\"") == Some(n)
  {
    var s := b + "\"" + n + "\"";
    LeadingSpacesIs(s, |b|);
    assert s[|b| + 1..|s| - 1] == n;
  }

  lemma QuotedNameSound(s: string) returns (b: string)
    requires QuotedName(s).Some?
    ensures |b| >= 1 && AllSpace(b) && '\n' !in QuotedName(s).value
    ensures s == b + "\"" + QuotedName(s).value + "\""
  {
    var m := LeadingSpaces(s);
    SpacesPrefix(s);
    b := s[..m];
    var q1, n, q2 := s[m..m + 1], s[m + 1..|s| - 1], s[|s| - 1..];
    assert s == b + q1 + n + q2;
    assert q1 == "\"" && q2 == "\"";
  }

  /** Whatever EditName captures comes from a line of the edit shape. */
  lemma EditNameSound(t: string)
    requires EditName(t).Some?
    ensures exists a, e, b :: IsEditShape(t, a, e, b, EditName(t).value)
  {
    var a, e := AfterKeywordSound("edit", t);
    var rest := AfterKeyword("edit", t).value;
    var b := QuotedNameSound(rest);
    var n := EditName(t).value;
    assert t == a + e + b + "\"" + n + "\"";
    assert IsEditShape(t, a, e, b, n);
  }

  /** Every line of the edit shape is matched, and the captured name is the shape's `n`. */
  lemma EditNameComplete(t: string, a: string, e: string, b: string, n: string)
    requires IsEditShape(t, a, e, b, n)
    ensures EditName(t) == Some(n)
  {
    var rest := b + "\"" + n + "\"";
    assert t == a + e + rest;
    AfterKeywordOf("edit", a, e, rest);
    QuotedNameOf(b, n);
  }

  // ---------------------------------------------------------------- the set pattern

  /**
   * The strings `^\s*set\s+(\S+)\s+(.*)$` accepts, with `key` and `value` the two
   * groups. The first character condition on `value` is the greedy choice of the
   * second `\s+`: it takes all the whitespace after the key.
   */
  predicate IsSetShape(t: string, a: string, e: string, b: string, key: string, c: string, value: string) {
    && t == a + e + (b + (key + (c + value)))
    && AllSpace(a) && EqualsIgnoreCase(e, "set")
    && |b| >= 1 && AllSpace(b)
    && |key| >= 1 && NoSpace(key)
    && |c| >= 1 && AllSpace(c)
    && '\n' !in value && (value == [] || !IsSpace(value[0]))
  }

  /** `\s+(.*)$` after the key. */
  function ValueAfterKey(key: string, s: string): Option<(string, string)> {
    var q := LeadingSpaces(s);
    if q == 0 || '\n' in s[q..] then None else Some((key, s[q..]))
  }

  /** `(\S+)\s+(.*)$` */
  function KeyThenValue(s: string): Option<(string, string)> {
    var p := LeadingNonSpaces(s);
    if p == 0 then None else ValueAfterKey(s[..p], s[p..])
  }

  /** `\s+(\S+)\s+(.*)$` */
  function KeyAndValue(s: string): Option<(string, string)> {
    var m := LeadingSpaces(s);
    if m == 0 then None else KeyThenValue(s[m..])
  }

  /** `p_service_setting.search(t)`'s key and value groups, or None when the pattern does not match. */
  function SetFields(t: string): Option<(string, string)> {
    match AfterKeyword("set", t)
    case None => None
    case Some(rest) => KeyAndValue(rest)
  }

  lemma ValueAfterKeyOf(key: string, c: string, value: string)
    requires |c| >= 1 && AllSpace(c) && '\n' !in value && (value == [] || !IsSpace(value[0]))
    ensures ValueAfterKey(key, c + value) == Some((key, value))
  {
    LeadingSpacesIs(c + value, |c|);
    assert (c + value)[|c|..] == value;
  }

  lemma KeyThenValueOf(key: string, rest: string)
    requires |key| >= 1 && NoSpace(key) && (rest == [] || IsSpace(rest[0]))
    ensures KeyThenValue(key + rest) == ValueAfterKey(key, rest)
  {
    LeadingNonSpacesIs(key + rest, |key|);
    assert (key + rest)[..|key|] == key && (key + rest)[|key|..] == rest;
  }

  lemma KeyAndValueOf(b: string, rest: string)
    requires |b| >= 1 && AllSpace(b) && (rest == [] || !IsSpace(rest[0]))
    ensures KeyAndValue(b + rest) == KeyThenValue(rest)
  {
    LeadingSpacesIs(b + rest, |b|);
    assert (b + rest)[|b|..] == rest;
  }

  /** Every line of the set shape is matched, with the shape's key and value as the groups. */
  lemma SetFieldsComplete(t: string, a: string, e: string, b: string, key: string, c: string, value: string)
    requires IsSetShape(t, a, e, b, key, c, value)
    ensures SetFields(t) == Some((key, value))
  {
    var rest := b + (key + (c + value));
    AfterKeywordOf("set", a, e, rest);
    KeyAndValueOf(b, key + (c + value));
    KeyThenValueOf(key, c + value);
    ValueAfterKeyOf(key, c, value);
  }

  lemma KeyAndValueSound(s: string) returns (b: string, c: string)
    requires KeyAndValue(s).Some?
    ensures var (key, value) := KeyAndValue(s).value;
      && s == b + (key + (c + value))
      && |b| >= 1 && AllSpace(b) && |key| >= 1 && NoSpace(key) && |c| >= 1 && AllSpace(c)
      && '\n' !in value && (value == [] || !IsSpace(value[0]))
  {
    var m := LeadingSpaces(s);
    SpacesPrefix(s);
    b := s[..m];
    var s1 := s[m..];
    var p := LeadingNonSpaces(s1);
    NonSpacesPrefix(s1);
    var key := s1[..p];
    var s2 := s1[p..];
    var q := LeadingSpaces(s2);
    SpacesPrefix(s2);
    c := s2[..q];
    var value := s2[q..];
    assert KeyAndValue(s).value == (key, value);
    assert s2 == c + value;
    assert s1 == key + s2;
    assert s == b + s1;
  }

  /** Whatever SetFields captures comes from a line of the set shape. */
  lemma SetFieldsSound(t: string)
    requires SetFields(t).Some?
    ensures exists a, e, b, c :: IsSetShape(t, a, e, b, SetFields(t).value.0, c, SetFields(t).value.1)
  {
    var a, e := AfterKeywordSound("set", t);
    var rest := AfterKeyword("set", t).value;
    var b, c := KeyAndValueSound(rest);
    var (key, value) := SetFields(t).value;
    assert IsSetShape(t, a, e, b, key, c, value);
  }

  // ---------------------------------------------------------------- keywords

  /** Block entry accepts the keyword in any case after any whitespace. */
  lemma BlockEntryComplete(keyword: string, a: string, e: string)
    requires keyword != [] && !IsSpace(keyword[0])
    requires AllSpace(a) && EqualsIgnoreCase(e, keyword)
    ensures MatchesBlockEntry(keyword, a + e)
  {
    LowerKeepsSpace(e[0]);
    LowerKeepsSpace(keyword[0]);
    LeadingSpacesIs(a + e, |a|);
    assert (a + e)[|a|..] == e;
  }

  /** Keyword matching ignores case: lines equal up to ASCII case are classified alike. */
  lemma ClassificationIgnoresCase(keyword: string, t: string, u: string)
    requires EqualsIgnoreCase(t, u)
    ensures IsEnd(t) <==> IsEnd(u)
    ensures IsNext(t) <==> IsNext(u)
    ensures MatchesBlockEntry(keyword, t) <==> MatchesBlockEntry(keyword, u)
  {
    var j := LeadingSpaces(t);
    forall i | 0 <= i < |t| ensures IsSpace(t[i]) == IsSpace(u[i]) {
      LowerKeepsSpace(t[i]);
      LowerKeepsSpace(u[i]);
    }
    LeadingSpacesIs(u, j);
  }

  // ---------------------------------------------------------------- line kinds exclude one another

  lemma AfterKeywordFirst(keyword: string, t: string)
    requires keyword != [] && AfterKeyword(keyword, t).Some?
    ensures LeadingSpaces(t) + |keyword| <= |t|
    ensures Lower(t[LeadingSpaces(t)]) == Lower(keyword[0])
    ensures |AfterKeyword(keyword, t).value| == |t| - LeadingSpaces(t) - |keyword|
  {
  }

  /** The shortest edit line is `edit ""`. */
  lemma EditLineLength(t: string)
    requires EditName(t).Some?
    ensures |t| >= 7
  {
    AfterKeywordFirst("edit", t);
  }

  /** The shortest set line is `set k ` plus an empty value, six characters. */
  lemma SetLineLength(t: string)
    requires SetFields(t).Some?
    ensures |t| >= 6
  {
    AfterKeywordFirst("set", t);
    var rest := AfterKeyword("set", t).value;
    var b, c := KeyAndValueSound(rest);
  }

  /** No line is both an edit line and a set line: their keywords differ in the first letter. */
  lemma EditExcludesSet(t: string)
    requires EditName(t).Some?
    ensures SetFields(t).None?
  {
    AfterKeywordFirst("edit", t);
    if SetFields(t).Some? {
      AfterKeywordFirst("set", t);
    }
  }

  /** A `next` line is nothing else. */
  lemma NextExcludesOthers(t: string)
    requires IsNext(t)
    ensures EditName(t).None? && SetFields(t).None? && !IsEnd(t)
  {
    if EditName(t).Some? {
      EditLineLength(t);
    }
    if SetFields(t).Some? {
      SetLineLength(t);
    }
  }

  /** An `end` line is nothing else. */
  lemma EndExcludesOthers(t: string)
    requires IsEnd(t)
    ensures EditName(t).None? && SetFields(t).None? && !IsNext(t)
  {
    if EditName(t).Some? {
      EditLineLength(t);
    }
    if SetFields(t).Some? {
      SetLineLength(t);
    }
  }

  /** A block-entry line whose keyword starts with `c` and is longer than `next` is nothing else. */
  lemma EntryExcludesOthers(keyword: string, t: string)
    requires |keyword| > 4 && keyword[0] == 'c'
    requires MatchesBlockEntry(keyword, t)
    ensures EditName(t).None? && SetFields(t).None? && !IsNext(t) && !IsEnd(t)
  {
    var j := LeadingSpaces(t);
    assert Lower(t[j]) == 'c';
    if EditName(t).Some? {
      AfterKeywordFirst("edit", t);
    }
    if SetFields(t).Some? {
      AfterKeywordFirst("set", t);
    }
  }
}
