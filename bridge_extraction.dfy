/**
 * `fetch_bridges()` of scripts/fetch_bridges.py: for each of the four bridge
 * listing pages, in a fixed order, the bridge lines it shows.
 *
 * The HTTP request and the HTML parser are not modelled: what one request
 * yields is an input, either a failure (a `requests.RequestException`) or the
 * page, given as the texts of its `pre.bridge-line` elements in document order
 * and the page's whole text.
 */
module BridgeExtraction {
  import opened Wrappers
  import opened Sequences
  import opened Text

  /** At most this many bridges are kept per transport. */
  const MaxBridges: nat := 5

  /** The transports queried, in the order of the `urls` dictionary. */
  const Keys: seq<string> := ["obfs4", "obfs4_ipv6", "webtunnel", "webtunnel_ipv6"]

  /** What one request for a transport's page yields. */
  datatype FetchOutcome =
    | RequestFailed
    | Page(elements: seq<string>, text: string)

  /** One item of the `all_bridges` dictionary, which keeps insertion order. */
  datatype Entry = Entry(key: string, bridges: seq<string>)

  function StripAll(xs: seq<string>): seq<string>
  {
    seq(|xs|, k requires 0 <= k < |xs| => Strip(xs[k]))
  }

  /** The primary path: the first five bridge-line elements, their text stripped. */
  function Primary(elements: seq<string>): seq<string>
  {
    StripAll(Take(elements, MaxBridges))
  }

  /**
   * The pair of words a fallback line must contain, chosen by a substring test
   * on the transport key; `None` for a key that names neither transport.
   */
  function FallbackTokens(key: string): Option<(string, string)>
  {
    if Contains(key, "obfs4") then Some(("obfs4", "cert="))
    else if Contains(key, "webtunnel") then Some(("webtunnel", "http"))
    else None
  }

  /** `[line.strip() for line in lines if a in line and b in line]` */
  function Matching(lines: seq<string>, a: string, b: string): seq<string>
  {
    if lines == [] then []
    else
      (if Contains(lines[0], a) && Contains(lines[0], b) then [Strip(lines[0])] else [])
      + Matching(lines[1..], a, b)
  }

  /** The fallback path: matching lines of the page text, at most five. */
  function Fallback(key: string, text: string): seq<string>
  {
    match FallbackTokens(key)
    case None => []
    case Some((a, b)) => Take(Matching(Split(text, '\n'), a, b), MaxBridges)
  }

  /** The bridges of one fetched page: the primary list, or the fallback when it is empty. */
  function Extract(key: string, elements: seq<string>, text: string): (r: seq<string>)
    ensures |r| <= MaxBridges
  {
    var primary := Primary(elements);
    if primary == [] then Fallback(key, text) else primary
  }

  /** The dictionary after the loop has handled the first `n` transports. */
  function Collect(outcomes: seq<FetchOutcome>, n: nat): seq<Entry>
    requires n <= |outcomes| && n <= |Keys|
  {
    if n == 0 then []
    else
      Collect(outcomes, n - 1) +
      match outcomes[n - 1]
      case RequestFailed => []
      case Page(elements, text) => [Entry(Keys[n - 1], Extract(Keys[n - 1], elements, text))]
  }

  lemma CollectStep(outcomes: seq<FetchOutcome>, i: nat)
    requires i < |outcomes| && i < |Keys|
    ensures Collect(outcomes, i + 1) ==
            match outcomes[i]
            case RequestFailed => Collect(outcomes, i)
            case Page(elements, text) =>
              var primary := StripAll(Take(elements, MaxBridges));
              Collect(outcomes, i) + [Entry(Keys[i], if primary == [] then Fallback(Keys[i], text) else primary)]
  {
  }

  /** The dictionary `fetch_bridges()` returns, given what each of the four requests yields. */
  function Fetched(outcomes: seq<FetchOutcome>): seq<Entry>
    requires |outcomes| == |Keys|
  {
    Collect(outcomes, |Keys|)
  }

  /** `d.get(key)` on a dictionary kept as its items in insertion order. */
  function Lookup(entries: seq<Entry>, key: string): Option<seq<string>>
  {
    if entries == [] then None
    else if entries[|entries| - 1].key == key then Some(entries[|entries| - 1].bridges)
    else Lookup(entries[..|entries| - 1], key)
  }

  function KeysOf(entries: seq<Entry>): seq<string>
  {
    seq(|entries|, k requires 0 <= k < |entries| => entries[k].key)
  }

  /**
   * The loop of `fetch_bridges()`: one request per transport, a failed request
   * logged and skipped, otherwise the primary list or, when it is empty, the
   * fallback list stored under the transport's key.
   */
  method FetchAll(outcomes: seq<FetchOutcome>) returns (all: seq<Entry>)
    requires |outcomes| == |Keys|
    ensures all == Fetched(outcomes)
    ensures forall k | 0 <= k < |all| :: |all[k].bridges| <= MaxBridges
  {
    all := [];
    var i := 0;
    while i < |Keys|
      invariant 0 <= i <= |Keys|
      invariant all == Collect(outcomes, i)
    {
      var name := Keys[i];
      CollectStep(outcomes, i);
      match outcomes[i] {
        case RequestFailed =>
          // logged; the key stays absent
        case Page(elements, text) =>
          var bridges := StripAll(Take(elements, MaxBridges));
          if bridges == [] {
            bridges := Fallback(name, text);
          }
          all := all + [Entry(name, bridges)];
      }
      i := i + 1;
    }
    CollectBounded(outcomes, |Keys|);
  }

  /** The fallback runs exactly when there is no bridge-line element; a primary line that strips to "" is kept. */
  lemma ExtractPaths(key: string, elements: seq<string>, text: string)
    ensures var r := Extract(key, elements, text);
            (elements == [] ==> r == Fallback(key, text)) &&
            (elements != [] ==> |r| == Min(MaxBridges, |elements|) &&
                                forall k | 0 <= k < |r| :: r[k] == Strip(elements[k]))
  {
  }

  /** Which pair of words each of the four transport keys filters fallback lines on. */
  lemma FallbackTokensOfKeys()
    ensures FallbackTokens(Keys[0]) == Some(("obfs4", "cert="))
    ensures FallbackTokens(Keys[1]) == Some(("obfs4", "cert="))
    ensures FallbackTokens(Keys[2]) == Some(("webtunnel", "http"))
    ensures FallbackTokens(Keys[3]) == Some(("webtunnel", "http"))
  {
    ContainsSelf("obfs4");
    assert OccursAt("obfs4_ipv6", "obfs4", 0);
    MissingFirstChar("webtunnel", "obfs4");
    MissingFirstChar("webtunnel_ipv6", "obfs4");
    ContainsSelf("webtunnel");
    assert OccursAt("webtunnel_ipv6", "webtunnel", 0);
  }

  /** A kept line is stripped and carries both words: stripping cannot cut a word without whitespace. */
  predicate CarriesTokens(line: string, a: string, b: string)
  {
    Contains(line, a) && Contains(line, b) && Strip(line) == line
  }

  lemma {:induction false} MatchingCarriesTokens(lines: seq<string>, a: string, b: string)
    requires a != [] && NoSpace(a) && b != [] && NoSpace(b)
    ensures forall k | 0 <= k < |Matching(lines, a, b)| :: CarriesTokens(Matching(lines, a, b)[k], a, b)
  {
    if lines != [] {
      MatchingCarriesTokens(lines[1..], a, b);
      if Contains(lines[0], a) && Contains(lines[0], b) {
        KeptLineCarriesTokens(lines[0], Matching(lines[1..], a, b), a, b);
      } else {
        assert Matching(lines, a, b) == Matching(lines[1..], a, b);
      }
    }
  }

  /** The step of `MatchingCarriesTokens` for a line that is kept in front of the others. */
  lemma KeptLineCarriesTokens(line: string, rest: seq<string>, a: string, b: string)
    requires a != [] && NoSpace(a) && b != [] && NoSpace(b)
    requires Contains(line, a) && Contains(line, b)
    requires forall k | 0 <= k < |rest| :: CarriesTokens(rest[k], a, b)
    ensures forall k | 0 <= k < |rest| + 1 :: CarriesTokens(([Strip(line)] + rest)[k], a, b)
  {
    StripKeepsToken(line, a);
    StripKeepsToken(line, b);
    StripIdempotent(line);
    var r := [Strip(line)] + rest;
    forall k | 0 <= k < |r|
      ensures CarriesTokens(r[k], a, b)
    {
      if k > 0 {
        assert r[k] == rest[k - 1];
      }
    }
  }

  /** Every line holding both words is kept, stripped: the filter drops no match. */
  lemma {:induction false} MatchingKeepsMatch(lines: seq<string>, a: string, b: string, j: nat)
    requires j < |lines| && Contains(lines[j], a) && Contains(lines[j], b)
    ensures Strip(lines[j]) in Matching(lines, a, b)
  {
    var rest := Matching(lines[1..], a, b);
    if j == 0 {
      assert Matching(lines, a, b) == [Strip(lines[0])] + rest;
    } else {
      assert lines[1..][j - 1] == lines[j];
      MatchingKeepsMatch(lines[1..], a, b, j - 1);
      var m := Matching(lines, a, b);
      assert m == (if Contains(lines[0], a) && Contains(lines[0], b) then [Strip(lines[0])] else []) + rest;
      assert m[|m| - |rest|..] == rest;
    }
  }

  /** With no line holding both words, nothing is kept. */
  lemma {:induction false} MatchingNoneKept(lines: seq<string>, a: string, b: string)
    requires forall j | 0 <= j < |lines| :: !(Contains(lines[j], a) && Contains(lines[j], b))
    ensures Matching(lines, a, b) == []
  {
    if lines != [] {
      assert !(Contains(lines[0], a) && Contains(lines[0], b));
      forall j | 0 <= j < |lines| - 1
        ensures !(Contains(lines[1..][j], a) && Contains(lines[1..][j], b))
      {
        assert lines[1..][j] == lines[j + 1];
      }
      MatchingNoneKept(lines[1..], a, b);
    }
  }

  /** The positions of the lines holding both words. */
  function MatchingIndices(lines: seq<string>, a: string, b: string): set<int>
  {
    set j | 0 <= j < |lines| && Contains(lines[j], a) && Contains(lines[j], b)
  }

  function Shift(s: set<int>): set<int>
  {
    set j | j in s :: j + 1
  }

  /** Shifting a set of positions below `n` by one keeps its size. */
  lemma {:induction false} ShiftKeepsSize(s: set<int>, n: nat)
    requires forall j | j in s :: 0 <= j < n
    ensures |Shift(s)| == |s|
  {
    if n == 0 {
      assert forall j :: j !in s;
      assert s == {};
      assert forall j :: j !in Shift(s);
      assert Shift(s) == {};
    } else if n - 1 in s {
      var smaller := s - {n - 1};
      ShiftKeepsSize(smaller, n - 1);
      forall j | j in Shift(s)
        ensures j in Shift(smaller) + {n}
      {
        var i :| i in s && j == i + 1;
        assert i == n - 1 || i in smaller;
      }
      assert Shift(s) == Shift(smaller) + {n};
      assert n !in Shift(smaller);
    } else {
      ShiftKeepsSize(s, n - 1);
    }
  }

  /** The matches after the first line are those of the remaining lines, one position further. */
  lemma MatchingIndicesStep(lines: seq<string>, a: string, b: string)
    requires lines != []
    ensures MatchingIndices(lines, a, b) - {0} == Shift(MatchingIndices(lines[1..], a, b))
  {
    var idx := MatchingIndices(lines, a, b);
    var rest := MatchingIndices(lines[1..], a, b);
    forall j | j in idx - {0}
      ensures j in Shift(rest)
    {
      assert lines[1..][j - 1] == lines[j];
      assert j - 1 in rest;
    }
    forall i | i in rest
      ensures i + 1 in idx - {0}
    {
      assert lines[1..][i] == lines[i + 1];
    }
  }

  /** The comprehension keeps one entry per matching line, repeated lines included. */
  lemma {:induction false} MatchingCount(lines: seq<string>, a: string, b: string)
    ensures |Matching(lines, a, b)| == |MatchingIndices(lines, a, b)|
  {
    var idx := MatchingIndices(lines, a, b);
    if lines == [] {
      assert idx == {};
    } else {
      MatchingCount(lines[1..], a, b);
      MatchingIndicesStep(lines, a, b);
      ShiftKeepsSize(MatchingIndices(lines[1..], a, b), |lines| - 1);
      if Contains(lines[0], a) && Contains(lines[0], b) {
        assert Matching(lines, a, b) == [Strip(lines[0])] + Matching(lines[1..], a, b);
        assert idx == (idx - {0}) + {0};
      } else {
        assert Matching(lines, a, b) == Matching(lines[1..], a, b);
        assert 0 !in idx;
        assert idx == idx - {0};
      }
    }
  }

  /** A line of `lines` holding both words. */
  predicate SomeLineHolds(lines: seq<string>, a: string, b: string)
  {
    exists j | 0 <= j < |lines| :: Contains(lines[j], a) && Contains(lines[j], b)
  }

  /**
   * The fallback finds something exactly when some page line holds both
   * words, and it keeps every such line when there are at most five.
   */
  lemma FallbackFindsMatches(key: string, text: string, a: string, b: string)
    requires FallbackTokens(key) == Some((a, b))
    ensures var lines := Split(text, '\n');
            var r := Fallback(key, text);
            (r == [] <==> !SomeLineHolds(lines, a, b)) &&
            |r| == Min(MaxBridges, |MatchingIndices(lines, a, b)|) &&
            (|MatchingIndices(lines, a, b)| <= MaxBridges ==>
               forall j | 0 <= j < |lines| && Contains(lines[j], a) && Contains(lines[j], b) :: Strip(lines[j]) in r)
  {
    var lines := Split(text, '\n');
    var m := Matching(lines, a, b);
    MatchingCount(lines, a, b);
    if SomeLineHolds(lines, a, b) {
      var j :| 0 <= j < |lines| && Contains(lines[j], a) && Contains(lines[j], b);
      MatchingKeepsMatch(lines, a, b, j);
    } else {
      MatchingNoneKept(lines, a, b);
    }
    if |m| <= MaxBridges {
      assert Take(m, MaxBridges) == m;
      forall j | 0 <= j < |lines| && Contains(lines[j], a) && Contains(lines[j], b)
        ensures Strip(lines[j]) in m
      {
        MatchingKeepsMatch(lines, a, b, j);
      }
    }
  }

  /** The kept lines come in page order: they are a subsequence of the stripped lines. */
  lemma {:induction false} MatchingInOrder(lines: seq<string>, a: string, b: string)
    ensures IsSubsequence(Matching(lines, a, b), StripAll(lines))
  {
    if lines != [] {
      MatchingInOrder(lines[1..], a, b);
      var rest := Matching(lines[1..], a, b);
      var all := StripAll(lines);
      assert all[1..] == StripAll(lines[1..]);
      if Contains(lines[0], a) && Contains(lines[0], b) {
        assert Matching(lines, a, b) == [all[0]] + rest;
        assert ([all[0]] + rest)[1..] == rest;
      } else {
        assert Matching(lines, a, b) == rest;
      }
    }
  }

  /** The four filter words hold no whitespace. */
  lemma FilterWordsHaveNoSpace()
    ensures NoSpace("obfs4") && NoSpace("cert=") && NoSpace("webtunnel") && NoSpace("http")
  {
  }

  /** The fallback output of a key whose filter words are `a` and `b`. */
  lemma FallbackShape(key: string, text: string, a: string, b: string)
    requires FallbackTokens(key) == Some((a, b))
    requires a != [] && NoSpace(a) && b != [] && NoSpace(b)
    ensures var r := Fallback(key, text);
            |r| <= MaxBridges &&
            (forall k | 0 <= k < |r| :: CarriesTokens(r[k], a, b)) &&
            IsSubsequence(r, StripAll(Split(text, '\n'))) &&
            (r == [] <==> !SomeLineHolds(Split(text, '\n'), a, b))
  {
    var lines := Split(text, '\n');
    FallbackFindsMatches(key, text, a, b);
    MatchingCarriesTokens(lines, a, b);
    MatchingInOrder(lines, a, b);
    SubsequencePrefix(Matching(lines, a, b), StripAll(lines), MaxBridges);
  }

  /**
   * The fallback output for every one of the four transports: at most five
   * stripped lines of the page, in page order, each containing `obfs4` and
   * `cert=` (obfs4 keys) or `webtunnel` and `http` (webtunnel keys); empty
   * exactly when no line of the page holds both words.
   */
  lemma FallbackLines(i: nat, text: string)
    requires i < |Keys|
    ensures var r := Fallback(Keys[i], text);
            var (a, b) := if i < 2 then ("obfs4", "cert=") else ("webtunnel", "http");
            |r| <= MaxBridges &&
            (forall k | 0 <= k < |r| :: CarriesTokens(r[k], a, b)) &&
            IsSubsequence(r, StripAll(Split(text, '\n'))) &&
            (r == [] <==> !SomeLineHolds(Split(text, '\n'), a, b))
  {
    FallbackTokensOfKeys();
    FilterWordsHaveNoSpace();
    if i < 2 {
      FallbackShape(Keys[i], text, "obfs4", "cert=");
    } else {
      FallbackShape(Keys[i], text, "webtunnel", "http");
    }
  }

  /** Every list in the dictionary has at most five bridges, whichever path produced it. */
  lemma {:induction false} CollectBounded(outcomes: seq<FetchOutcome>, n: nat)
    requires n <= |outcomes| && n <= |Keys|
    ensures forall k | 0 <= k < |Collect(outcomes, n)| :: |Collect(outcomes, n)[k].bridges| <= MaxBridges
  {
    if n > 0 {
      CollectBounded(outcomes, n - 1);
    }
  }

  /** The keys present are some of the four transport keys, in the fixed order. */
  lemma {:induction false} CollectKeysInOrder(outcomes: seq<FetchOutcome>, n: nat)
    requires n <= |outcomes| && n <= |Keys|
    ensures IsSubsequence(KeysOf(Collect(outcomes, n)), Keys[..n])
  {
    if n > 0 {
      CollectKeysInOrder(outcomes, n - 1);
      var prev := Collect(outcomes, n - 1);
      assert Keys[..n] == Keys[..n - 1] + [Keys[n - 1]];
      match outcomes[n - 1]
      case RequestFailed =>
        assert Collect(outcomes, n) == prev;
        SubsequenceExtend(KeysOf(prev), Keys[..n - 1], Keys[n - 1]);
      case Page(elements, text) =>
        SubsequenceAppend(KeysOf(prev), Keys[..n - 1], Keys[n - 1]);
        assert KeysOf(Collect(outcomes, n)) == KeysOf(prev) + [Keys[n - 1]];
    }
  }

  /** No two transport keys are equal. */
  lemma KeysDistinct()
    ensures forall i, j | 0 <= i < j < |Keys| :: Keys[i] != Keys[j]
  {
    assert |Keys[0]| == 5 && |Keys[1]| == 10 && |Keys[2]| == 9 && |Keys[3]| == 14;
  }

  /** Looking a key up after `n` transports: absent if not yet reached or if its request failed. */
  lemma {:induction false} CollectLookup(outcomes: seq<FetchOutcome>, n: nat, i: nat)
    requires n <= |outcomes| && n <= |Keys| && i < |Keys|
    ensures Lookup(Collect(outcomes, n), Keys[i]) ==
            if i >= n || outcomes[i].RequestFailed? then None
            else Some(Extract(Keys[i], outcomes[i].elements, outcomes[i].text))
  {
    if n > 0 {
      KeysDistinct();
      CollectLookup(outcomes, n - 1, i);
      var prev := Collect(outcomes, n - 1);
      match outcomes[n - 1]
      case RequestFailed =>
        assert Collect(outcomes, n) == prev;
      case Page(elements, text) =>
        var all := Collect(outcomes, n);
        assert all[..|all| - 1] == prev;
    }
  }

  /**
   * A failed request leaves its key absent (not empty), and each present key
   * holds exactly what its own page yields, whatever happened to the others.
   */
  lemma FetchedLookup(outcomes: seq<FetchOutcome>, i: nat)
    requires |outcomes| == |Keys| && i < |Keys|
    ensures Lookup(Fetched(outcomes), Keys[i]) ==
            match outcomes[i]
            case RequestFailed => None
            case Page(elements, text) => Some(Extract(Keys[i], elements, text))
  {
    CollectLookup(outcomes, |Keys|, i);
  }

  /** The result's keys are among the four, in order, and no list is longer than five. */
  lemma FetchedShape(outcomes: seq<FetchOutcome>)
    requires |outcomes| == |Keys|
    ensures IsSubsequence(KeysOf(Fetched(outcomes)), Keys)
    ensures forall k | 0 <= k < |Fetched(outcomes)| :: |Fetched(outcomes)[k].bridges| <= MaxBridges
  {
    CollectKeysInOrder(outcomes, |Keys|);
    assert Keys[..|Keys|] == Keys;
    CollectBounded(outcomes, |Keys|);
  }
}
