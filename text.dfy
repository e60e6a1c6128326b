/** The Python string operations the scripts rely on, over strings of code points. */
module Text {
  import opened Sequences

  /** Python's `str.isspace()` for one character: the characters `str.strip()` removes. */
  predicate IsSpace(c: char)
  {
    ('\t' <= c <= '\r') || ('\U{1C}' <= c <= ' ') || c == '\U{85}' || c == '\U{A0}' ||
    c == '\U{1680}' || ('\U{2000}' <= c <= '\U{200A}') || c == '\U{2028}' || c == '\U{2029}' ||
    c == '\U{202F}' || c == '\U{205F}' || c == '\U{3000}'
  }

  predicate AllSpace(s: string)
  {
    forall k | 0 <= k < |s| :: IsSpace(s[k])
  }

  predicate NoSpace(s: string)
  {
    forall k | 0 <= k < |s| :: !IsSpace(s[k])
  }

  /** Number of whitespace characters at the start of `s`. */
  function LeadingSpaces(s: string): (n: nat)
    ensures n <= |s|
  {
    if s != [] && IsSpace(s[0]) then 1 + LeadingSpaces(s[1..]) else 0
  }

  /** Number of whitespace characters at the end of `s`. */
  function TrailingSpaces(s: string): (n: nat)
    ensures n <= |s|
  {
    if s != [] && IsSpace(s[|s| - 1]) then 1 + TrailingSpaces(s[..|s| - 1]) else 0
  }

  /** The leading run is all whitespace and stops at the first other character. */
  lemma {:induction false} LeadingSpacesShape(s: string)
    ensures AllSpace(s[..LeadingSpaces(s)])
    ensures LeadingSpaces(s) < |s| ==> !IsSpace(s[LeadingSpaces(s)])
  {
    if s != [] && IsSpace(s[0]) {
      LeadingSpacesShape(s[1..]);
      var n := LeadingSpaces(s[1..]);
      assert s[..n + 1] == [s[0]] + s[1..][..n];
    }
  }

  /** The trailing run is all whitespace and stops at the last other character. */
  lemma {:induction false} TrailingSpacesShape(s: string)
    ensures AllSpace(s[|s| - TrailingSpaces(s)..])
    ensures TrailingSpaces(s) < |s| ==> !IsSpace(s[|s| - 1 - TrailingSpaces(s)])
  {
    if s != [] && IsSpace(s[|s| - 1]) {
      var init := s[..|s| - 1];
      TrailingSpacesShape(init);
      var n := TrailingSpaces(init);
      assert s[|s| - (n + 1)..] == init[|init| - n..] + [s[|s| - 1]];
    }
  }

  /** Python's `s.strip()`: whitespace removed from both ends. */
  function Strip(s: string): string
  {
    var i := LeadingSpaces(s);
    s[i..|s| - TrailingSpaces(s[i..])]
  }

  /** The stripped string is the part of `s` between the leading and the trailing run. */
  lemma StripSlice(s: string)
    ensures var i := LeadingSpaces(s);
            i + |Strip(s)| <= |s| && Strip(s) == s[i..i + |Strip(s)|]
  {
  }

  /** What `strip()` removes before and after the result is all whitespace. */
  lemma StripSurroundings(s: string)
    ensures var i := LeadingSpaces(s);
            i + |Strip(s)| <= |s| && AllSpace(s[..i]) && AllSpace(s[i + |Strip(s)|..])
  {
    LeadingSpacesShape(s);
    StripAfter(s);
  }

  lemma StripAfter(s: string)
    ensures var i := LeadingSpaces(s);
            i + |Strip(s)| <= |s| && AllSpace(s[i + |Strip(s)|..])
  {
    var i := LeadingSpaces(s);
    var rest := s[i..];
    var j := |s| - TrailingSpaces(rest);
    assert |Strip(s)| == j - i;
    TrailingSpacesShape(rest);
    SuffixOfSuffix(s, i, j);
  }

  lemma SuffixOfSuffix(s: string, i: nat, j: nat)
    requires i <= j <= |s|
    ensures s[j..] == s[i..][j - i..]
  {
  }

  /** The stripped string neither starts nor ends with whitespace. */
  lemma StripEnds(s: string)
    ensures var r := Strip(s); r == [] || (!IsSpace(r[0]) && !IsSpace(r[|r| - 1]))
  {
    var i := LeadingSpaces(s);
    var rest := s[i..];
    var n := TrailingSpaces(rest);
    LeadingSpacesShape(s);
    TrailingSpacesShape(rest);
    var r := Strip(s);
    assert r == rest[..|rest| - n];
    assert r != [] ==> r[0] == s[i];
    assert r != [] ==> r[|r| - 1] == rest[|rest| - 1 - n];
  }

  /**
   * The stripped string has no whitespace at either end, and it is `s` with
   * only whitespace removed before and after it.
   */
  lemma StripShape(s: string)
    ensures var r := Strip(s);
            var i := LeadingSpaces(s);
            (r == [] || (!IsSpace(r[0]) && !IsSpace(r[|r| - 1]))) &&
            i + |r| <= |s| && s[i..i + |r|] == r &&
            AllSpace(s[..i]) && AllSpace(s[i + |r|..])
  {
    StripSlice(s);
    StripSurroundings(s);
    StripEnds(s);
  }

  /** Stripping twice is stripping once. */
  lemma StripIdempotent(s: string)
    ensures Strip(Strip(s)) == Strip(s)
  {
    var r := Strip(s);
    StripEnds(s);
    assert LeadingSpaces(r) == 0;
    assert TrailingSpaces(r) == 0;
  }

  /** `t` sits in `s` at index `i`. */
  predicate OccursAt(s: string, t: string, i: int)
  {
    0 <= i && i + |t| <= |s| && s[i..i + |t|] == t
  }

  /** Python's `t in s` for strings. */
  predicate Contains(s: string, t: string)
  {
    exists i | 0 <= i <= |s| - |t| :: OccursAt(s, t, i)
  }

  lemma ContainsLeft(s: string, t: string, u: string)
    requires Contains(s, t)
    ensures Contains(s + u, t)
  {
    var i :| 0 <= i <= |s| - |t| && OccursAt(s, t, i);
    assert (s + u)[i..i + |t|] == s[i..i + |t|];
    assert OccursAt(s + u, t, i);
  }

  lemma ContainsRight(s: string, t: string, u: string)
    requires Contains(s, t)
    ensures Contains(u + s, t)
  {
    var i :| 0 <= i <= |s| - |t| && OccursAt(s, t, i);
    assert (u + s)[|u| + i..|u| + i + |t|] == s[i..i + |t|];
    assert OccursAt(u + s, t, |u| + i);
  }

  lemma ContainsSelf(t: string)
    ensures Contains(t, t)
  {
    assert OccursAt(t, t, 0);
  }

  /** A string none of whose characters is the first character of `t` cannot contain `t`. */
  lemma MissingFirstChar(s: string, t: string)
    requires t != []
    requires forall k | 0 <= k < |s| :: s[k] != t[0]
    ensures !Contains(s, t)
  {
    forall i | 0 <= i <= |s| - |t|
      ensures !OccursAt(s, t, i)
    {
      assert s[i] != t[0];
    }
  }

  /**
   * Stripping keeps every non-empty token without whitespace: such a token
   * cannot overlap the whitespace that `strip()` removes.
   */
  lemma {:induction false} StripKeepsToken(s: string, t: string)
    requires t != [] && NoSpace(t)
    requires Contains(s, t)
    ensures Contains(Strip(s), t)
  {
    var i :| 0 <= i <= |s| - |t| && OccursAt(s, t, i);
    var lead := LeadingSpaces(s);
    var r := Strip(s);
    StripSlice(s);
    StripSurroundings(s);
    TokenBetweenRuns(s, t, lead, lead + |r|, i);
    assert OccursAt(r, t, i - lead);
  }

  /** A token without whitespace found in `s` lies inside `s[a..b]` when everything outside is whitespace. */
  lemma TokenBetweenRuns(s: string, t: string, a: nat, b: nat, i: int)
    requires t != [] && NoSpace(t) && OccursAt(s, t, i)
    requires a <= b <= |s| && AllSpace(s[..a]) && AllSpace(s[b..])
    ensures a <= i && i + |t| <= b && OccursAt(s[a..b], t, i - a)
  {
    TokenEnds(s, t, i);
    NotInLeadingRun(s, a, i);
    NotInTrailingRun(s, b, i + |t| - 1);
    SliceOfSlice(s, a, b, i - a, i - a + |t|);
  }

  /** A character that is not whitespace lies after an all-whitespace prefix. */
  lemma NotInLeadingRun(s: string, n: nat, k: nat)
    requires n <= |s| && AllSpace(s[..n])
    requires k < |s| && !IsSpace(s[k])
    ensures n <= k
  {
    forall j | 0 <= j < n
      ensures IsSpace(s[j])
    {
      assert s[..n][j] == s[j];
    }
  }

  /** A character that is not whitespace lies before an all-whitespace suffix. */
  lemma NotInTrailingRun(s: string, m: nat, k: nat)
    requires m <= |s| && AllSpace(s[m..])
    requires k < |s| && !IsSpace(s[k])
    ensures k < m
  {
    forall j | m <= j < |s|
      ensures IsSpace(s[j])
    {
      assert s[m..][j - m] == s[j];
    }
  }

  lemma SliceOfSlice<T>(s: seq<T>, a: nat, b: nat, c: nat, d: nat)
    requires a <= b <= |s| && c <= d <= b - a
    ensures s[a..b][c..d] == s[a + c..a + d]
  {
    var u := s[a..b][c..d];
    var v := s[a + c..a + d];
    assert |u| == |v|;
    forall k | 0 <= k < |u|
      ensures u[k] == v[k]
    {
      assert u[k] == s[a..b][c + k] == s[a + c + k];
    }
  }

  /** The first and last characters of an occurrence of a token without whitespace are not whitespace. */
  lemma TokenEnds(s: string, t: string, i: int)
    requires t != [] && NoSpace(t) && OccursAt(s, t, i)
    ensures !IsSpace(s[i]) && !IsSpace(s[i + |t| - 1])
  {
    assert s[i..i + |t|][0] == s[i];
    assert s[i..i + |t|][|t| - 1] == s[i + |t| - 1];
  }

  /** Python's `s.split(sep)` for a one-character separator: always at least one piece. */
  function Split(s: string, sep: char): (r: seq<string>)
    ensures |r| >= 1
    ensures forall k | 0 <= k < |r| :: sep !in r[k]
    decreases |s|
  {
    if s == [] then [""]
    else
      var rest := Split(s[1..], sep);
      if s[0] == sep then [""] + rest
      else [[s[0]] + rest[0]] + rest[1..]
  }

  /** Python's `sep.join(parts)`. */
  function Join(parts: seq<string>, sep: char): string
  {
    if |parts| == 0 then ""
    else if |parts| == 1 then parts[0]
    else parts[0] + [sep] + Join(parts[1..], sep)
  }

  /** Joining the pieces of a split with the same separator gives back the text. */
  lemma {:induction false} JoinSplit(s: string, sep: char)
    ensures Join(Split(s, sep), sep) == s
    decreases |s|
  {
    if s != [] {
      var rest := Split(s[1..], sep);
      JoinSplit(s[1..], sep);
      if s[0] == sep {
        assert ([""] + rest)[1..] == rest;
      } else {
        var parts := [[s[0]] + rest[0]] + rest[1..];
        if |rest| == 1 {
          assert Join(parts, sep) == [s[0]] + rest[0];
        } else {
          assert parts[1..] == rest[1..];
          assert Join(rest, sep) == rest[0] + [sep] + Join(rest[1..], sep);
        }
      }
    }
  }

  function LowerChar(c: char): char
  {
    if 'A' <= c <= 'Z' then (c as int + 32) as char else c
  }

  function UpperChar(c: char): char
  {
    if 'a' <= c <= 'z' then (c as int - 32) as char else c
  }

  predicate IsLowerLetter(c: char)
  {
    'a' <= c <= 'z'
  }

  predicate IsUpperLetter(c: char)
  {
    'A' <= c <= 'Z'
  }

  /** Python's `s.lower()` on ASCII letters. */
  function Lower(s: string): string
  {
    seq(|s|, k requires 0 <= k < |s| => LowerChar(s[k]))
  }

  /** Python's `s.capitalize()` on ASCII letters: first character upper case, the rest lower case. */
  function Capitalize(s: string): string
  {
    if s == [] then "" else [UpperChar(s[0])] + Lower(s[1..])
  }

  /** Python's `s.replace(a, b)` for single characters. */
  function ReplaceChar(s: string, a: char, b: char): string
  {
    seq(|s|, k requires 0 <= k < |s| => if s[k] == a then b else s[k])
  }
}
