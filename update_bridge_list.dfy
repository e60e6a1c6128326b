/**
 * `update_bridges()` of scripts/update_bridge_list.py: re-read
 * `config/bridges.json`, keep the first two entries of its `bridges` value,
 * and write them back as the whole document. Every exception is caught and
 * logged; the function never raises.
 *
 * The file is a field of a store object; reading and writing JSON text is
 * not modelled, only the value `json.load` returns and the one `json.dump`
 * writes.
 */
module UpdateBridgeList {
  import opened Wrappers
  import opened Sequences
  import opened Json

  /** What is on disk at `config/bridges.json`. */
  datatype FileState =
    | Missing                // `open` raises FileNotFoundError
    | Unparsable             // `json.load` raises JSONDecodeError
    | Stored(doc: Json)

  /** Which log line a run ends with. */
  datatype Outcome =
    | Updated                // "Bridges updated successfully."
    | NothingToUpdate        // "No new bridges to update."
    | Failed                 // "Error updating bridges: ..."

  /** How many entries are kept. */
  const KeepCount: nat := 2

  /**
   * `value[:2]`: slicing works on lists and on strings; on any other JSON
   * value it raises TypeError (`None` then).
   */
  function SliceFirstTwo(value: Json): Option<Json>
  {
    match value
    case JArr(items) => Some(JArr(Take(items, KeepCount)))
    case JStr(s) => Some(JStr(Take(s, KeepCount)))
    case _ => None
  }

  /**
   * `new_bridges = data.get("bridges", [])[:2]`, or `None` when this raises:
   * the file is missing or not JSON, the document is not an object (no
   * `.get`), or the value cannot be sliced.
   */
  function NewBridges(file: FileState): Option<Json>
  {
    match file
    case Stored(JObj(fields)) =>
      SliceFirstTwo(if "bridges" in fields then fields["bridges"] else JArr([]))
    case _ => None
  }

  function OutcomeOf(file: FileState): Outcome
  {
    match NewBridges(file)
    case None => Failed
    case Some(v) => if Truthy(v) then Updated else NothingToUpdate
  }

  /** The file after a run: rewritten with only `bridges` when there is something to write, else untouched. */
  function AfterUpdate(file: FileState): FileState
  {
    match NewBridges(file)
    case Some(v) => if Truthy(v) then Stored(BridgesDocument(v)) else file
    case None => file
  }

  class BridgeStore {
    var file: FileState

    constructor (initial: FileState)
      ensures file == initial
    {
      file := initial;
    }

    /** One run of `update_bridges()`. */
    method UpdateBridges() returns (outcome: Outcome)
      modifies this
      ensures file == AfterUpdate(old(file))
      ensures outcome == OutcomeOf(old(file))
    {
      if !file.Stored? {
        return Failed;
      }
      var data := file.doc;
      if !data.JObj? {
        return Failed;
      }
      var value := if "bridges" in data.fields then data.fields["bridges"] else JArr([]);
      var sliced := SliceFirstTwo(value);
      if sliced.None? {
        return Failed;
      }
      var newBridges := sliced.value;
      if !Truthy(newBridges) {
        return NothingToUpdate;
      }
      file := Stored(BridgesDocument(newBridges));
      return Updated;
    }

    /** Two runs in a row leave the file as one run does and log the same outcome twice. */
    method UpdateTwice() returns (first: Outcome, second: Outcome)
      modifies this
      ensures file == AfterUpdate(old(file))
      ensures second == first
    {
      first := UpdateBridges();
      second := UpdateBridges();
      UpdateIdempotent(old(file));
    }
  }

  /** `kept` holds the first `min(2, n)` items of `prev`, and is not empty. */
  predicate ShortPrefix(kept: Json, prev: Json)
  {
    match (kept, prev)
    case (JArr(a), JArr(b)) => a <= b && |a| == Min(KeepCount, |b|) && a != []
    case (JStr(a), JStr(b)) => a <= b && |a| == Min(KeepCount, |b|) && a != []
    case _ => false
  }

  /**
   * After a write the document holds only `bridges`, and its value is the
   * first one or two items of the old `bridges` value, which was present.
   */
  lemma UpdateWritesShortPrefix(file: FileState)
    requires OutcomeOf(file) == Updated
    ensures file.Stored? && file.doc.JObj? && "bridges" in file.doc.fields
    ensures var after := AfterUpdate(file);
            after.Stored? && after.doc.JObj? && after.doc.fields.Keys == {"bridges"} &&
            ShortPrefix(after.doc.fields["bridges"], file.doc.fields["bridges"])
  {
  }

  /** A document whose `bridges` is missing or empty is left as it is. */
  lemma NoWriteWhenEmpty(fields: map<string, Json>)
    requires "bridges" !in fields || fields["bridges"] == JArr([]) || fields["bridges"] == JStr("")
    ensures OutcomeOf(Stored(JObj(fields))) == NothingToUpdate
    ensures AfterUpdate(Stored(JObj(fields))) == Stored(JObj(fields))
  {
  }

  /**
   * The run fails exactly when reading raises: no file, no JSON, no object,
   * or a `bridges` value that is neither a list nor a string. The file is
   * then untouched.
   */
  lemma FailureLeavesFile(file: FileState)
    ensures OutcomeOf(file) == Failed <==>
            !file.Stored? || !file.doc.JObj? ||
            ("bridges" in file.doc.fields &&
             !file.doc.fields["bridges"].JArr? && !file.doc.fields["bridges"].JStr?)
    ensures OutcomeOf(file) != Updated ==> AfterUpdate(file) == file
  {
  }

  /** A second run finds a list of at most two and rewrites the same document. */
  lemma UpdateIdempotent(file: FileState)
    ensures AfterUpdate(AfterUpdate(file)) == AfterUpdate(file)
    ensures OutcomeOf(AfterUpdate(file)) == OutcomeOf(file)
  {
    if OutcomeOf(file) == Updated {
      var v := NewBridges(file).value;
      var after := AfterUpdate(file);
      assert after.doc.fields["bridges"] == v;
      match v
      case JArr(items) => assert Take(items, KeepCount) == items;
      case JStr(s) => assert Take(s, KeepCount) == s;
    }
  }
}
