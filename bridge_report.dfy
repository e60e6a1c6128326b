/**
 * `main()` and `send_telegram_message()` of scripts/fetch_bridges.py: the
 * HTML report built from the fetched dictionary, its cut into messages of at
 * most 4096 characters, and the obfs4 bridges written to `config/bridges.json`.
 *
 * The Telegram calls and the file write are not modelled: the model yields
 * the list of message texts and the JSON document that would be written.
 */
module BridgeReport {
  import opened Wrappers
  import opened Sequences
  import opened Text
  import opened Json
  import opened BridgeExtraction
  import UpdateBridgeList

  /** Telegram's limit on the length of one message. */
  const ChunkSize: nat := 4096

  /** How many obfs4 bridges are persisted. */
  const PersistedCount: nat := 2

  const Header: string := "\U{1F680} <b>Latest Tor Bridges:</b>\n\n"
  const NoneLine: string := "<i>\U{274C} No bridges found</i>\n\n"
  const Trailer: string := "\U{274C} <b>No bridges found.</b>\nPlease check manually."

  /** A transport's heading: `key.replace('_', ' ').capitalize()`. */
  function Heading(key: string): string
  {
    Capitalize(ReplaceChar(key, '_', ' '))
  }

  /**
   * Letters of the heading keep their identity up to case, the first is upper
   * case, the rest lower case, and every underscore becomes a space.
   */
  lemma HeadingShape(key: string)
    ensures var r := Heading(key);
            |r| == |key| && '_' !in r &&
            (forall k | 0 <= k < |key| :: LowerChar(r[k]) == LowerChar(if key[k] == '_' then ' ' else key[k])) &&
            (r != [] ==> !IsLowerLetter(r[0])) &&
            (forall k | 1 <= k < |r| :: !IsUpperLetter(r[k]))
  {
  }

  /** The heading's character at `k`. */
  function HeadingChar(key: string, k: nat): char
    requires k < |key|
  {
    var c := if key[k] == '_' then ' ' else key[k];
    if k == 0 then UpperChar(c) else LowerChar(c)
  }

  lemma HeadingIs(key: string, expected: string)
    requires |expected| == |key|
    requires forall k | 0 <= k < |key| :: expected[k] == HeadingChar(key, k)
    ensures Heading(key) == expected
  {
  }

  /** The headings of the four transports. */
  lemma HeadingsOfKeys()
    ensures Heading(Keys[0]) == "Obfs4"
    ensures Heading(Keys[1]) == "Obfs4 ipv6"
    ensures Heading(Keys[2]) == "Webtunnel"
    ensures Heading(Keys[3]) == "Webtunnel ipv6"
  {
    HeadingIs("obfs4", "Obfs4");
    HeadingIs("obfs4_ipv6", "Obfs4 ipv6");
    HeadingIs("webtunnel", "Webtunnel");
    HeadingIs("webtunnel_ipv6", "Webtunnel ipv6");
  }

  function HeadingLine(key: string): string
  {
    "<b>" + Heading(key) + ":</b>\n"
  }

  function CodeLine(bridge: string): string
  {
    "<code>" + bridge + "</code>\n\n"
  }

  /** The lines for a list of bridges, one after the other. */
  function Codes(bridges: seq<string>): string
  {
    if bridges == [] then "" else Codes(bridges[..|bridges| - 1]) + CodeLine(bridges[|bridges| - 1])
  }

  /** One transport's part of the report: its heading, then its bridges or the "none" line. */
  function Section(e: Entry): string
  {
    HeadingLine(e.key) + (if e.bridges == [] then NoneLine else Codes(e.bridges))
  }

  function Sections(entries: seq<Entry>): string
  {
    if entries == [] then "" else Sections(entries[..|entries| - 1]) + Section(entries[|entries| - 1])
  }

  /** `found_any`: some present transport has at least one bridge. */
  predicate AnyFound(entries: seq<Entry>)
  {
    exists k | 0 <= k < |entries| :: entries[k].bridges != []
  }

  /** The message `main()` sends. */
  function Report(entries: seq<Entry>): string
  {
    Header + Sections(entries) + (if AnyFound(entries) then "" else Trailer)
  }

  predicate EndsWith(s: string, suffix: string)
  {
    |suffix| <= |s| && s[|s| - |suffix|..] == suffix
  }

  /** The inner loop of `main()`: one `<code>` line per bridge. */
  method AppendCodes(message: string, bridges: seq<string>) returns (m: string)
    ensures m == message + Codes(bridges)
  {
    m := message;
    var j := 0;
    while j < |bridges|
      invariant 0 <= j <= |bridges|
      invariant m == message + Codes(bridges[..j])
    {
      assert bridges[..j + 1][..j] == bridges[..j];
      m := m + CodeLine(bridges[j]);
      j := j + 1;
    }
    assert bridges[..j] == bridges;
  }

  /** The body of the message loop of `main()` for one transport. */
  method AppendSection(message: string, e: Entry) returns (m: string)
    ensures m == message + Section(e)
  {
    m := message + HeadingLine(e.key);
    if e.bridges != [] {
      m := AppendCodes(m, e.bridges);
    } else {
      m := m + NoneLine;
    }
  }

  /** The message loop of `main()`, appending to the message as it goes. */
  method BuildReport(entries: seq<Entry>) returns (message: string)
    ensures message == Report(entries)
  {
    message := Header;
    var foundAny := false;
    var i := 0;
    while i < |entries|
      invariant 0 <= i <= |entries|
      invariant message == Header + Sections(entries[..i])
      invariant foundAny == AnyFound(entries[..i])
    {
      var e := entries[i];
      message := AppendSection(message, e);
      if e.bridges != [] {
        foundAny := true;
      }
      SectionsStep(Header, entries, i);
      AnyFoundStep(entries, i);
      i := i + 1;
    }
    assert entries[..i] == entries;
    if !foundAny {
      message := message + Trailer;
    }
  }

  /** One more transport appends its section to a message that ends with the sections so far. */
  lemma SectionsStep(head: string, entries: seq<Entry>, i: nat)
    requires i < |entries|
    ensures head + Sections(entries[..i + 1]) == (head + Sections(entries[..i])) + Section(entries[i])
  {
    assert entries[..i + 1][..i] == entries[..i];
  }

  lemma AnyFoundStep(entries: seq<Entry>, i: nat)
    requires i < |entries|
    ensures AnyFound(entries[..i + 1]) == (AnyFound(entries[..i]) || entries[i].bridges != [])
  {
    assert entries[..i + 1][i] == entries[i];
    if AnyFound(entries[..i]) {
      var k :| 0 <= k < i && entries[..i][k].bridges != [];
      assert entries[..i + 1][k] == entries[..i][k];
    }
  }

  /** Every section ends in a line break. */
  lemma {:induction false} SectionsEndWithNewline(entries: seq<Entry>)
    requires entries != []
    ensures var s := Sections(entries); s != [] && s[|s| - 1] == '\n'
  {
    var e := entries[|entries| - 1];
    var tail := if e.bridges == [] then NoneLine else Codes(e.bridges);
    if e.bridges != [] {
      var last := CodeLine(e.bridges[|e.bridges| - 1]);
      assert Codes(e.bridges) == Codes(e.bridges[..|e.bridges| - 1]) + last;
      assert tail[|tail| - 1] == last[|last| - 1] == '\n';
    }
    assert Section(e) == HeadingLine(e.key) + tail;
    assert Sections(entries) == Sections(entries[..|entries| - 1]) + Section(e);
  }

  /** The closing "No bridges found." note is there exactly when no present transport has a bridge. */
  lemma TrailerIffNothingFound(entries: seq<Entry>)
    ensures EndsWith(Report(entries), Trailer) <==> !AnyFound(entries)
  {
    var body := Header + Sections(entries);
    if AnyFound(entries) {
      assert Report(entries) == body;
      SectionsEndWithNewline(entries);
      assert body[|body| - 1] == '\n';
      assert Trailer[|Trailer| - 1] == '.';
    } else {
      assert Report(entries) == body + Trailer;
      assert (body + Trailer)[|body|..] == Trailer;
    }
  }

  /** Every bridge of a list shows up in that list's lines. */
  lemma {:induction false} CodesShowBridges(bridges: seq<string>, k: nat)
    requires k < |bridges|
    ensures Contains(Codes(bridges), CodeLine(bridges[k]))
  {
    var init := bridges[..|bridges| - 1];
    var last := CodeLine(bridges[|bridges| - 1]);
    if k == |bridges| - 1 {
      ContainsSelf(last);
      ContainsRight(last, last, Codes(init));
    } else {
      CodesShowBridges(init, k);
      ContainsLeft(Codes(init), CodeLine(bridges[k]), last);
    }
  }

  /** A piece of one section is a piece of the whole list of sections. */
  lemma {:induction false} SectionsShowSection(entries: seq<Entry>, i: nat, t: string)
    requires i < |entries|
    requires Contains(Section(entries[i]), t)
    ensures Contains(Sections(entries), t)
  {
    var init := entries[..|entries| - 1];
    var last := Section(entries[|entries| - 1]);
    if i == |entries| - 1 {
      ContainsRight(last, t, Sections(init));
    } else {
      assert init[i] == entries[i];
      SectionsShowSection(init, i, t);
      ContainsLeft(Sections(init), t, last);
    }
  }

  /** A piece of the sections is a piece of the report. */
  lemma ReportShowsSections(entries: seq<Entry>, t: string)
    requires Contains(Sections(entries), t)
    ensures Contains(Report(entries), t)
  {
    ContainsRight(Sections(entries), t, Header);
    ContainsLeft(Header + Sections(entries), t, if AnyFound(entries) then "" else Trailer);
  }

  /** Every bridge of every present transport is in the report, inside `<code>` tags. */
  lemma ReportShowsEveryBridge(entries: seq<Entry>, i: nat, k: nat)
    requires i < |entries| && k < |entries[i].bridges|
    ensures Contains(Report(entries), CodeLine(entries[i].bridges[k]))
  {
    var e := entries[i];
    var t := CodeLine(e.bridges[k]);
    CodesShowBridges(e.bridges, k);
    ContainsRight(Codes(e.bridges), t, HeadingLine(e.key));
    SectionsShowSection(entries, i, t);
    ReportShowsSections(entries, t);
  }

  /** A transport's bridges follow directly after its own heading, in list order. */
  lemma ReportShowsSection(entries: seq<Entry>, i: nat)
    requires i < |entries| && entries[i].bridges != []
    ensures Contains(Report(entries), HeadingLine(entries[i].key) + Codes(entries[i].bridges))
  {
    var t := Section(entries[i]);
    ContainsSelf(t);
    SectionsShowSection(entries, i, t);
    ReportShowsSections(entries, t);
  }

  /** A present transport with no bridges gets its heading followed by the "No bridges found" line. */
  lemma ReportShowsNoneLine(entries: seq<Entry>, i: nat)
    requires i < |entries| && entries[i].bridges == []
    ensures Contains(Report(entries), HeadingLine(entries[i].key) + NoneLine)
  {
    var t := HeadingLine(entries[i].key) + NoneLine;
    ContainsSelf(t);
    SectionsShowSection(entries, i, t);
    ReportShowsSections(entries, t);
  }

  /**
   * The loop of `send_telegram_message()`: `message[i:i+4096]` for every
   * `i` in `range(0, len(message), 4096)`. The pieces put back together are
   * the message; all are full except possibly the last; none is empty.
   */
  method ChunkMessage(message: string) returns (chunks: seq<string>)
    ensures Concat(chunks) == message
    ensures forall k | 0 <= k < |chunks| :: 0 < |chunks[k]| <= ChunkSize
    ensures forall k | 0 <= k < |chunks| - 1 :: |chunks[k]| == ChunkSize
    ensures |chunks| == (|message| + ChunkSize - 1) / ChunkSize
  {
    chunks := [];
    var i := 0;
    while i < |message|
      invariant i == |chunks| * ChunkSize
      invariant chunks != [] ==> (|chunks| - 1) * ChunkSize < |message|
      invariant Concat(chunks) == message[..Min(i, |message|)]
      invariant forall k | 0 <= k < |chunks| :: 0 < |chunks[k]| <= ChunkSize
      invariant forall k | 0 <= k < |chunks| - 1 :: |chunks[k]| == ChunkSize
      invariant i <= |message| ==> forall k | 0 <= k < |chunks| :: |chunks[k]| == ChunkSize
      decreases |message| - i
    {
      var piece := message[i..Min(i + ChunkSize, |message|)];
      assert Concat(chunks + [piece]) == Concat(chunks) + piece;
      chunks := chunks + [piece];
      i := i + ChunkSize;
    }
    assert message[..Min(i, |message|)] == message;
    CeilingCount(|chunks|, |message|);
  }

  /** `c` pieces of a fixed size cover `n` characters with the last one not empty exactly when `c` is the rounded-up quotient. */
  lemma CeilingCount(c: nat, n: nat)
    requires c * ChunkSize >= n
    requires c > 0 ==> (c - 1) * ChunkSize < n
    ensures c == (n + ChunkSize - 1) / ChunkSize
  {
  }

  /** `bridges.get("obfs4", [])[:2]`: what `main()` writes to `config/bridges.json`. */
  function PersistedBridges(entries: seq<Entry>): seq<string>
  {
    match Lookup(entries, "obfs4")
    case None => []
    case Some(list) => Take(list, PersistedCount)
  }

  function PersistedDocument(entries: seq<Entry>): Json
  {
    BridgesDocument(StringArray(PersistedBridges(entries)))
  }

  /** The first two of an obfs4 list, by the path that produced it. */
  lemma PersistedOfPage(elements: seq<string>, text: string)
    ensures var list := Extract("obfs4", elements, text);
            var r := Take(list, PersistedCount);
            forall k | 0 <= k < |r| ::
              (elements != [] && r[k] == Strip(elements[k])) ||
              (elements == [] && CarriesTokens(r[k], "obfs4", "cert="))
  {
    ExtractPaths("obfs4", elements, text);
    FallbackLines(0, text);
  }

  /** Without bridge-line elements, the first two obfs4 bridges are lines of the page, in page order. */
  lemma PersistedFallbackInOrder(text: string)
    ensures IsSubsequence(Take(Extract("obfs4", [], text), PersistedCount), StripAll(Split(text, '\n')))
  {
    ExtractPaths("obfs4", [], text);
    FallbackLines(0, text);
    SubsequencePrefix(Extract("obfs4", [], text), StripAll(Split(text, '\n')), PersistedCount);
  }

  /**
   * The persisted bridges are the first `min(2, n)` obfs4 bridges of the
   * fetched dictionary, nothing when the obfs4 request failed; each is either
   * the stripped text of a bridge-line element or, in page order, a stripped
   * line of the obfs4 page that holds `obfs4` and `cert=`.
   */
  lemma PersistedAreObfs4Prefix(outcomes: seq<FetchOutcome>)
    requires |outcomes| == |Keys|
    ensures var r := PersistedBridges(Fetched(outcomes));
            match outcomes[0]
            case RequestFailed => r == []
            case Page(elements, text) =>
              var list := Extract("obfs4", elements, text);
              r <= list && |r| == Min(PersistedCount, |list|) &&
              (elements == [] ==> IsSubsequence(r, StripAll(Split(text, '\n')))) &&
              forall k | 0 <= k < |r| ::
                (elements != [] && r[k] == Strip(elements[k])) ||
                (elements == [] && CarriesTokens(r[k], "obfs4", "cert="))
  {
    FetchedLookup(outcomes, 0);
    assert Keys[0] == "obfs4";
    match outcomes[0]
    case RequestFailed =>
    case Page(elements, text) =>
      PersistedOfPage(elements, text);
      PersistedFallbackInOrder(text);
  }

  /**
   * One run of `main()`: fetch, build the report, cut it into messages, and
   * the document written to `config/bridges.json`.
   */
  method RunMain(outcomes: seq<FetchOutcome>) returns (messages: seq<string>, persisted: Json)
    requires |outcomes| == |Keys|
    ensures Concat(messages) == Report(Fetched(outcomes))
    ensures forall k | 0 <= k < |messages| :: 0 < |messages[k]| <= ChunkSize
    ensures persisted == PersistedDocument(Fetched(outcomes))
  {
    var bridges := FetchAll(outcomes);
    var message := BuildReport(bridges);
    messages := ChunkMessage(message);
    persisted := BridgesDocument(StringArray(PersistedBridges(bridges)));
  }

  /**
   * `update_bridges()` run on the file `main()` has just written changes
   * nothing: the list there already has at most two bridges.
   */
  lemma UpdateKeepsPersistedDocument(entries: seq<Entry>)
    ensures var file := UpdateBridgeList.Stored(PersistedDocument(entries));
            UpdateBridgeList.AfterUpdate(file) == file
  {
    var list := StringArray(PersistedBridges(entries));
    assert Take(list.items, UpdateBridgeList.KeepCount) == list.items;
  }
}
