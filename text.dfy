/**
 * The string primitives the two converters rely on, on Python 2 byte strings:
 * the `\s` / `\S` character classes, `str.strip()`, ASCII case folding for
 * `re.IGNORECASE`, `re.sub('["]', '', s)` and `str.split(' ')`.
 */
module Text {

  /** Python 2 `\s` on a byte string, and also what `str.strip()` removes. */
  predicate IsSpace(c: char) {
    c == ' ' || c == '\t' || c == '\n' || c == '\r' || c == '\U{000B}' || c == '\U{000C}'
  }

  predicate AllSpace(s: string) {
    forall i :: 0 <= i < |s| ==> IsSpace(s[i])
  }

  predicate NoSpace(s: string) {
    forall i :: 0 <= i < |s| ==> !IsSpace(s[i])
  }

  /** A string that `str.strip()` leaves unchanged. */
  predicate NoOuterSpace(s: string) {
    s == [] || (!IsSpace(s[0]) && !IsSpace(s[|s| - 1]))
  }

  /** Length of the longest whitespace prefix: what a greedy `\s*` consumes. */
  function LeadingSpaces(s: string): (n: nat)
    ensures n <= |s|
    ensures forall i :: 0 <= i < n ==> IsSpace(s[i])
    ensures n < |s| ==> !IsSpace(s[n])
  {
    if |s| == 0 || !IsSpace(s[0]) then 0 else 1 + LeadingSpaces(s[1..])
  }

  /** Length of the longest non-whitespace prefix: what a greedy `\S+` consumes. */
  function LeadingNonSpaces(s: string): (n: nat)
    ensures n <= |s|
    ensures forall i :: 0 <= i < n ==> !IsSpace(s[i])
    ensures n < |s| ==> IsSpace(s[n])
  {
    if |s| == 0 || IsSpace(s[0]) then 0 else 1 + LeadingNonSpaces(s[1..])
  }

  /** Length of the longest whitespace suffix. */
  function TrailingSpaces(s: string): (n: nat)
    ensures n <= |s|
    ensures forall i :: |s| - n <= i < |s| ==> IsSpace(s[i])
    ensures n < |s| ==> !IsSpace(s[|s| - 1 - n])
  {
    if |s| == 0 || !IsSpace(s[|s| - 1]) then 0 else 1 + TrailingSpaces(s[..|s| - 1])
  }

  lemma SpacesPrefix(s: string)
    ensures AllSpace(s[..LeadingSpaces(s)])
  {
  }

  lemma NonSpacesPrefix(s: string)
    ensures NoSpace(s[..LeadingNonSpaces(s)])
  {
  }

  lemma LeadingSpacesIs(s: string, n: nat)
    requires n <= |s| && (forall i :: 0 <= i < n ==> IsSpace(s[i]))
    requires n < |s| ==> !IsSpace(s[n])
    ensures LeadingSpaces(s) == n
  {
  }

  lemma LeadingNonSpacesIs(s: string, n: nat)
    requires n <= |s| && (forall i :: 0 <= i < n ==> !IsSpace(s[i]))
    requires n < |s| ==> IsSpace(s[n])
    ensures LeadingNonSpaces(s) == n
  {
  }

  lemma TrailingSpacesIs(s: string, n: nat)
    requires n <= |s| && (forall i :: |s| - n <= i < |s| ==> IsSpace(s[i]))
    requires n < |s| ==> !IsSpace(s[|s| - 1 - n])
    ensures TrailingSpaces(s) == n
  {
  }

  /**
   * `str.strip()` with no argument: the result is the part of `s` left after
   * removing every leading and every trailing whitespace character.
   */
  function Strip(s: string): string {
    var rest := s[LeadingSpaces(s)..];
    rest[..|rest| - TrailingSpaces(rest)]
  }

  /** The stripped text is an unpadded middle part of `s` with only whitespace around it. */
  lemma StripSpec(s: string)
    ensures NoOuterSpace(Strip(s))
    ensures LeadingSpaces(s) + |Strip(s)| <= |s|
    ensures AllSpace(s[..LeadingSpaces(s)])
    ensures Strip(s) == s[LeadingSpaces(s)..LeadingSpaces(s) + |Strip(s)|]
    ensures AllSpace(s[LeadingSpaces(s) + |Strip(s)|..])
  {
    var n := LeadingSpaces(s);
    var rest := s[n..];
    var m := TrailingSpaces(rest);
    var r := rest[..|rest| - m];
    assert r == s[n..n + |r|];
    assert s[n + |r|..] == rest[|rest| - m..];
    if r != [] {
      assert r[0] == s[n];
      assert r[|r| - 1] == rest[|rest| - 1 - m];
    }
  }

  /** Strip is determined by its contract: whitespace around an unpadded core is removed, and nothing else. */
  lemma StripOf(a: string, r: string, b: string)
    requires AllSpace(a) && AllSpace(b) && NoOuterSpace(r)
    ensures Strip(a + r + b) == r
  {
    var s := a + r + b;
    if r == [] {
      assert s == a + b;
      LeadingSpacesIs(s, |s|);
      assert s[|s|..] == [];
    } else {
      LeadingSpacesIs(s, |a|);
      assert s[|a|..] == r + b;
      TrailingSpacesIs(r + b, |b|);
      assert (r + b)[..|r|] == r;
    }
  }

  lemma StripIdempotent(s: string)
    ensures Strip(Strip(s)) == Strip(s)
  {
    StripSpec(s);
    StripOf([], Strip(s), []);
    assert [] + Strip(s) + [] == Strip(s);
  }

  /** A stripped line never ends with a newline, so a regex `$` can only match at its very end. */
  lemma StrippedHasNoFinalNewline(s: string)
    ensures Strip(s) == [] || Strip(s)[|Strip(s)| - 1] != '\n'
  {
    StripSpec(s);
  }

  /** ASCII lower-casing, which is all `re.IGNORECASE` does on a Python 2 byte string. */
  function Lower(c: char): char {
    if 'A' <= c <= 'Z' then (c as int + 32) as char else c
  }

  predicate EqualsIgnoreCase(a: string, b: string) {
    |a| == |b| && forall i :: 0 <= i < |a| ==> Lower(a[i]) == Lower(b[i])
  }

  lemma LowerKeepsSpace(c: char)
    ensures IsSpace(Lower(c)) == IsSpace(c)
  {
  }

  /** `re.sub('["]', '', s)`: every double-quote character removed, everything else kept in order. */
  function RemoveQuotes(s: string): (r: string)
    ensures '"' !in r
    ensures '"' !in s ==> r == s
    ensures |r| <= |s|
  {
    if s == [] then []
    else (if s[0] == '"' then [] else [s[0]]) + RemoveQuotes(s[1..])
  }

  lemma {:induction false} RemoveQuotesAppend(a: string, b: string)
    ensures RemoveQuotes(a + b) == RemoveQuotes(a) + RemoveQuotes(b)
  {
    if a != [] {
      var head := if a[0] == '"' then [] else [a[0]];
      assert (a + b)[0] == a[0] && (a + b)[1..] == a[1..] + b;
      assert RemoveQuotes(a + b) == head + RemoveQuotes(a[1..] + b);
      RemoveQuotesAppend(a[1..], b);
      assert RemoveQuotes(a) == head + RemoveQuotes(a[1..]);
    } else {
      assert a + b == b;
    }
  }

  /**
   * Quote removal deletes the quotes rather than replacing them: the length
   * drops by the number of quotes, and every other character is kept as many
   * times as it occurs.
   */
  lemma {:induction false} RemoveQuotesKeepsOthers(s: string)
    ensures |RemoveQuotes(s)| == |s| - multiset(s)['"']
    ensures multiset(RemoveQuotes(s)) == multiset(s)['"' := 0]
  {
    if s != [] {
      RemoveQuotesKeepsOthers(s[1..]);
      assert s == [s[0]] + s[1..];
    }
  }

  lemma RemoveQuotesIdempotent(s: string)
    ensures RemoveQuotes(RemoveQuotes(s)) == RemoveQuotes(s)
  {
  }

  /** `str.split(sep)` with an explicit one-character separator: consecutive separators give empty pieces. */
  function SplitOn(s: string, sep: char): (pieces: seq<string>)
    ensures |pieces| >= 1
  {
    if |s| == 0 then [""]
    else
      var rest := SplitOn(s[1..], sep);
      assert s == [s[0]] + s[1..];
      if s[0] == sep then [""] + rest else [[s[0]] + rest[0]] + rest[1..]
  }

  /** There is one piece more than there are separators, and no piece holds a separator. */
  lemma {:induction false} SplitOnSpec(s: string, sep: char)
    ensures |SplitOn(s, sep)| == multiset(s)[sep] + 1
    ensures forall i :: 0 <= i < |SplitOn(s, sep)| ==> sep !in SplitOn(s, sep)[i]
  {
    if |s| > 0 {
      SplitOnSpec(s[1..], sep);
      assert s == [s[0]] + s[1..];
    }
  }

  /** `sep.join(pieces)`, the inverse of SplitOn. */
  function Join(pieces: seq<string>, sep: char): string {
    if |pieces| == 0 then ""
    else if |pieces| == 1 then pieces[0]
    else pieces[0] + [sep] + Join(pieces[1..], sep)
  }

  lemma {:induction false} JoinSplitOn(s: string, sep: char)
    ensures Join(SplitOn(s, sep), sep) == s
  {
    if |s| > 0 {
      JoinSplitOn(s[1..], sep);
      var rest := SplitOn(s[1..], sep);
      if s[0] == sep {
        assert ([""] + rest)[1..] == rest;
      } else {
        var ps := [[s[0]] + rest[0]] + rest[1..];
        if |rest| > 1 {
          assert ps[1..] == rest[1..];
        }
      }
    }
  }

  lemma {:induction false} SplitOnPiece(p: string, sep: char)
    requires sep !in p
    ensures SplitOn(p, sep) == [p]
  {
    if |p| > 0 {
      SplitOnPiece(p[1..], sep);
      assert [p[0]] + p[1..] == p;
    }
  }

  lemma {:induction false} SplitOnAfterPiece(p: string, sep: char, rest: string)
    requires sep !in p
    ensures SplitOn(p + [sep] + rest, sep) == [p] + SplitOn(rest, sep)
  {
    var s := p + [sep] + rest;
    if |p| == 0 {
      assert s[1..] == rest;
    } else {
      assert s[1..] == p[1..] + [sep] + rest;
      SplitOnAfterPiece(p[1..], sep, rest);
      assert [p[0]] + p[1..] == p;
    }
  }

  lemma {:induction false} SplitOnJoin(pieces: seq<string>, sep: char)
    requires |pieces| >= 1
    requires forall i :: 0 <= i < |pieces| ==> sep !in pieces[i]
    ensures SplitOn(Join(pieces, sep), sep) == pieces
  {
    if |pieces| == 1 {
      SplitOnPiece(pieces[0], sep);
    } else {
      SplitOnJoin(pieces[1..], sep);
      SplitOnAfterPiece(pieces[0], sep, Join(pieces[1..], sep));
      assert [pieces[0]] + pieces[1..] == pieces;
    }
  }

  /** The first piece of a split is the text before the first separator, and the rest is the split of what follows it. */
  lemma {:induction false} SplitOnHead(s: string, sep: char)
    ensures |SplitOn(s, sep)[0]| <= |s|
    ensures s[..|SplitOn(s, sep)[0]|] == SplitOn(s, sep)[0]
    ensures |SplitOn(s, sep)| == 1 ==> SplitOn(s, sep)[0] == s
    ensures |SplitOn(s, sep)| > 1 ==>
      |SplitOn(s, sep)[0]| < |s| && s[|SplitOn(s, sep)[0]|] == sep
      && SplitOn(s[|SplitOn(s, sep)[0]| + 1..], sep) == SplitOn(s, sep)[1..]
  {
    var ps := SplitOn(s, sep);
    if |s| > 0 {
      JoinSplitOn(s, sep);
      if |ps| > 1 {
        SplitOnSpec(s, sep);
        var p := ps[0];
        var tail := Join(ps[1..], sep);
        assert s == p + [sep] + tail;
        assert s[|p| + 1..] == tail;
        SplitOnJoin(ps[1..], sep);
      } else {
        assert s == ps[0];
      }
    }
  }
}
