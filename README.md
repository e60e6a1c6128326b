# Tor bridge fetcher — Dafny model

This project models the two scripts that do the work of the Telegram bridge bot:

- `scripts/fetch_bridges.py` requests the bridge listing page of each of four
  transports (`obfs4`, `obfs4_ipv6`, `webtunnel`, `webtunnel_ipv6`) through a
  local Tor SOCKS proxy. It extracts up to five bridge lines per transport
  from the `pre.bridge-line` elements, or from matching lines of the page text
  when there are none. It builds an HTML report and sends it to Telegram in
  pieces of at most 4096 characters. It then writes the first two obfs4 bridges
  to `config/bridges.json`.
- `scripts/update_bridge_list.py` re-reads `config/bridges.json`, keeps the
  first two entries of its `bridges` value and writes them back. It never
  raises.

Modules, one per concern:

- `Sequences` (sequences.dfy): Python slicing (`Take`), subsequences, concatenation of pieces.
- `Text` (text.dfy): the Python string operations the scripts use. These are
  `strip()` over Python's exact whitespace set, `split('\n')` with its
  inverse `join`, substring `in`, and `capitalize()` / `replace()` on ASCII.
- `Json` (json.dfy): the JSON values `json.load` returns and the shape of `config/bridges.json`.
- `BridgeExtraction` (bridge_extraction.dfy): the loop of `fetch_bridges()`.
  `FetchAll` is imperative and is proved equal to the specification function
  `Fetched`. The lemmas state what `Fetched` promises.
- `BridgeReport` (bridge_report.dfy): `main()`'s message loop (`BuildReport`,
  proved equal to `Report`) and the 4096-character cut (`ChunkMessage`). It
  also holds the persisted obfs4 prefix and the whole run (`RunMain`).
- `UpdateBridgeList` (update_bridge_list.dfy): `update_bridges()`. It is a
  method of a `BridgeStore` object whose `file` field is what is on disk, and
  it is proved against `AfterUpdate` / `OutcomeOf`.

The network, the HTML parser and Telegram are inputs or are left out. What
one HTTP request yields is a `FetchOutcome`: either `RequestFailed` (a
`requests.RequestException`) or a `Page` with the texts of its
`pre.bridge-line` elements and the page's text.

The two scripts have no proxy supervisor, no bridge selector or blacklist, no
retry and no deduplication against earlier runs. There is one request per URL.
A failed transport is absent from the dictionary, not present with an empty
list.

## Model

| member | source | states |
|---|---|---|
| `Sequences.Take` | scripts/fetch_bridges.py:37 | Python's `xs[:n]`: a prefix of `xs` of length `min(n, len(xs))`, never an error |
| `Text.StripShape` | scripts/fetch_bridges.py:38 | `str.strip()`: the result has no whitespace at either end and is `s` with only whitespace removed before and after it |
| `Text.StripIdempotent` | scripts/fetch_bridges.py:43 | stripping a stripped line changes nothing, so every fallback line is already stripped |
| `Text.StripKeepsToken` | scripts/fetch_bridges.py:43 | a line that contains a word without whitespace still contains it after `strip()` |
| `Text.Split` | scripts/fetch_bridges.py:43 | `text.split('\n')` yields at least one piece and no piece contains a line break |
| `Text.JoinSplit` | scripts/fetch_bridges.py:43 | joining the pieces of `split('\n')` with `'\n'` gives the page text back, so no character is lost or reordered |
| `BridgeExtraction.Extract` | scripts/fetch_bridges.py:37-45 | the bridges of one page number at most five, whether they come from the primary or the fallback path |
| `BridgeExtraction.ExtractPaths` | scripts/fetch_bridges.py:37-40 | the fallback runs exactly when the page has no bridge-line element; otherwise the result is the first `min(5, n)` element texts stripped, an element that strips to `""` included |
| `BridgeExtraction.FallbackTokensOfKeys` | scripts/fetch_bridges.py:42-45 | the substring tests on the key pick `obfs4`+`cert=` for both obfs4 keys and `webtunnel`+`http` for both webtunnel keys |
| `BridgeExtraction.MatchingCarriesTokens` | scripts/fetch_bridges.py:43 | every line the comprehension keeps is stripped and contains both filter words |
| `BridgeExtraction.MatchingInOrder` | scripts/fetch_bridges.py:43 | the kept lines are a subsequence of the page's stripped lines, in page order |
| `BridgeExtraction.MatchingKeepsMatch` | scripts/fetch_bridges.py:43 | every page line holding both filter words is kept, stripped: the comprehension drops no match |
| `BridgeExtraction.MatchingCount` | scripts/fetch_bridges.py:43 | the comprehension keeps exactly as many lines as there are positions of lines holding both words, so a repeated matching line is kept once per occurrence |
| `BridgeExtraction.MatchingNoneKept` | scripts/fetch_bridges.py:43 | when no line holds both words the comprehension keeps nothing |
| `BridgeExtraction.FallbackFindsMatches` | scripts/fetch_bridges.py:43-45 | the fallback is empty exactly when no page line holds both words, has `min(5, m)` lines where `m` is the number of matching line positions (repeated lines counted each time), and keeps every matching line when there are at most five |
| `BridgeExtraction.FallbackShape` | scripts/fetch_bridges.py:41-45 | a fallback list is at most five stripped lines carrying the key's two words, in page order, and it is empty exactly when no page line holds both words |
| `BridgeExtraction.FallbackLines` | scripts/fetch_bridges.py:42-45 | the same for each of the four transports, naming its two words: empty exactly when no line of the page holds both |
| `BridgeExtraction.FetchAll` | scripts/fetch_bridges.py:29-51 | the dictionary loop: the result is `Fetched(outcomes)` and every list has at most five entries |
| `BridgeExtraction.CollectBounded` | scripts/fetch_bridges.py:47 | every list stored while the loop runs has at most five bridges |
| `BridgeExtraction.CollectKeysInOrder` | scripts/fetch_bridges.py:30 | the keys stored so far are some of the first transport keys, in dictionary order |
| `BridgeExtraction.KeysDistinct` | scripts/fetch_bridges.py:12-17 | the four transport keys are pairwise different |
| `BridgeExtraction.CollectLookup` | scripts/fetch_bridges.py:47-49 | a key is absent until its turn or when its request failed, and otherwise holds its own page's extraction |
| `BridgeExtraction.FetchedLookup` | scripts/fetch_bridges.py:30-49 | after the loop, a `RequestException` leaves that key absent (not empty) and every other key holds its own page's result regardless |
| `BridgeExtraction.FetchedShape` | scripts/fetch_bridges.py:30-51 | the result's keys are a subsequence of `obfs4, obfs4_ipv6, webtunnel, webtunnel_ipv6` and no list has more than five bridges |
| `BridgeReport.HeadingShape` | scripts/fetch_bridges.py:65 | `key.replace('_', ' ').capitalize()`: same length, no underscore, each character equal to the key's up to case with `_` read as a space, first not lower case, rest not upper case |
| `BridgeReport.HeadingsOfKeys` | scripts/fetch_bridges.py:65 | the four headings are `Obfs4`, `Obfs4 ipv6`, `Webtunnel`, `Webtunnel ipv6` |
| `BridgeReport.AppendCodes` | scripts/fetch_bridges.py:68-69 | the inner loop appends one `<code>` line per bridge, in list order |
| `BridgeReport.AppendSection` | scripts/fetch_bridges.py:65-71 | one transport adds its heading and then its bridges, or the "No bridges found" line when its list is empty |
| `BridgeReport.BuildReport` | scripts/fetch_bridges.py:61-74 | the message loop with its `found_any` flag builds exactly `Report(entries)` |
| `BridgeReport.TrailerIffNothingFound` | scripts/fetch_bridges.py:73-74 | the message ends with the "No bridges found. Please check manually." note if and only if no present transport has a bridge, which includes an empty dictionary |
| `BridgeReport.ReportShowsEveryBridge` | scripts/fetch_bridges.py:64-69 | every bridge of every present transport appears in the message inside `<code>` tags |
| `BridgeReport.ReportShowsSection` | scripts/fetch_bridges.py:64-69 | a present transport with bridges appears as its own heading followed directly by its bridges' `<code>` lines, in list order |
| `BridgeReport.ReportShowsNoneLine` | scripts/fetch_bridges.py:64-71 | a present transport with an empty list appears as its heading followed by the "No bridges found" line |
| `BridgeReport.ChunkMessage` | scripts/fetch_bridges.py:56-57 | the pieces sent concatenate back to the message, none is empty, each has at most 4096 characters, all but the last exactly 4096, and there are `ceil(len/4096)` of them |
| `BridgeReport.PersistedAreObfs4Prefix` | scripts/fetch_bridges.py:79 | the persisted list is the first `min(2, n)` obfs4 bridges, empty when the obfs4 request failed; each is a stripped bridge-line element, or, when the page has none, they are lines of the obfs4 page in page order, stripped and holding `obfs4` and `cert=` |
| `BridgeReport.PersistedFallbackInOrder` | scripts/fetch_bridges.py:41-45 | without bridge-line elements the persisted obfs4 bridges are stripped lines of the page, in page order |
| `BridgeReport.RunMain` | scripts/fetch_bridges.py:59-79 | a whole run: the messages sent concatenate to the report of the fetched dictionary, each fits in 4096 characters, and the document written holds the persisted obfs4 prefix |
| `BridgeReport.UpdateKeepsPersistedDocument` | scripts/update_bridge_list.py:11-17 | running the update on the file `main()` writes leaves it unchanged |
| `UpdateBridgeList.BridgeStore.UpdateBridges` | scripts/update_bridge_list.py:6-22 | one run: the file becomes `AfterUpdate` of the old file and the log outcome is `OutcomeOf` it; no path raises |
| `UpdateBridgeList.BridgeStore.UpdateTwice` | scripts/update_bridge_list.py:11-17 | two runs leave the file as one run does, and the second run logs the same outcome as the first |
| `UpdateBridgeList.UpdateWritesShortPrefix` | scripts/update_bridge_list.py:11-17 | after a write the document holds only `bridges`, whose value is the first one or two entries of the old value |
| `UpdateBridgeList.NoWriteWhenEmpty` | scripts/update_bridge_list.py:11-14 | a document without `bridges`, or with an empty list or string there, is left as it is and the run reports nothing to update |
| `UpdateBridgeList.FailureLeavesFile` | scripts/update_bridge_list.py:7-22 | the run fails exactly when the file is missing or unparsable, is not an object, or has a `bridges` value that cannot be sliced; any run that does not write leaves the file unchanged |
| `UpdateBridgeList.UpdateIdempotent` | scripts/update_bridge_list.py:11-17 | updating the result of an update gives the same file and logs the same outcome |

## Left out

- HTTP retrieval (headers, SOCKS proxy at port 9050, 20 s timeout, `raise_for_status`). Each request's result is an input. Only the two cases that matter are kept: a `RequestException` or a page.
- HTML parsing with BeautifulSoup is a foreign library. The `pre.bridge-line` element texts and `soup.get_text()` are inputs, taken as given.
- An exception other than `RequestException` inside the fetch loop (for example from the parser) would end the whole script. It is not modelled.
- The Telegram bot, the bot token and chat id from the environment, and `asyncio` scheduling are left out. Only the list of message texts is modelled, not the sends. A send that raises would also stop `main()` before the file is written; that is not modelled.
- File reading and writing, JSON text encoding, and `logging` are left out. The file is a value (`FileState`), and the log line of `update_bridges` is the returned `Outcome`.
- JSON numbers are integers only. A number as the `bridges` value makes slicing raise; numbers inside the list are only copied, never inspected, so the fraction is never looked at.
- `capitalize()` and `lower()` are modelled on ASCII letters only. The transport keys are ASCII.
- Lengths are counts of code points, as Python's `len`. Telegram's own limit counts UTF-16 units of the text after its HTML entities are parsed. That difference, and a 4096 cut that falls inside an HTML tag, are not modelled.
- `scripts/notify_failure.py` only sends a fixed Telegram message. It is not part of this model.
- BridgeReport.ReportShowsNoneLine: states only that each empty present transport gets the "No bridges found" line. The converse, that the line appears nowhere else, is not stated. A bridge string is arbitrary text and could itself contain that line.
