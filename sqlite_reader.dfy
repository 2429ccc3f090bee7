/**
 * The reader of Cursor's `cursorDiskKV` key/value table (src/infrastructure/sqlite_reader.rs).
 * The table is a sequence of rows in storage order; the reader never changes it.
 */
module SqliteReader {
  import opened Base
  import opened Errors
  import opened Json
  import opened Text

  /** The key column: text, or a value of another storage class, which cannot be read as a `String`. */
  datatype KeyCell = TextKey(text: string) | NonTextKey

  /** The value column, by storage class. */
  datatype ValueCell = BlobValue(blob: Bytes) | TextValue(text: Bytes) | IntegerValue(i: int) | RealValue | NullValue

  datatype Row = Row(key: KeyCell, value: ValueCell)

  /** A state database file: absent, or present with or without the key/value table. */
  datatype DbFile = Missing | Present(kvTable: Option<seq<Row>>)

  datatype RawKvEntry = RawKvEntry(key: string, value: Bytes)

  const BUBBLE_PREFIX := "bubbleId:"
  const COMPOSER_PREFIX := "composerData:"

  const NO_KV_TABLE := Database("no such table: cursorDiskKV")

  /** The bytes of a value: text and blobs as they are, anything else as the empty vector. */
  function ValueBytes(v: ValueCell): (b: Bytes)
    ensures v.BlobValue? ==> b == v.blob
    ensures v.TextValue? ==> b == v.text
    ensures !v.BlobValue? && !v.TextValue? ==> b == Malformed
  {
    match v
    case BlobValue(b) => b
    case TextValue(t) => t
    case _ => Malformed
  }

  /** The row read as an entry when its key matches `prefix%`; rows that fail to read are skipped. */
  function RowEntry(row: Row, prefix: string): Option<RawKvEntry> {
    match row.key
    case NonTextKey => None
    case TextKey(k) => if Like(k, prefix + "%") then Some(RawKvEntry(k, ValueBytes(row.value))) else None
  }

  /** The entries `SELECT key, value FROM cursorDiskKV WHERE key LIKE 'prefix%'` yields, in table order. */
  function Select(rows: seq<Row>, prefix: string): seq<RawKvEntry>
    decreases |rows|
  {
    if rows == [] then []
    else
      var e := RowEntry(rows[|rows| - 1], prefix);
      Select(rows[..|rows| - 1], prefix) + (if e.Some? then [e.value] else [])
  }

  /** The row has the entry's text key, matching the pattern, and the entry's value bytes. */
  predicate SelectsAs(row: Row, prefix: string, e: RawKvEntry) {
    row.key == TextKey(e.key) && Like(e.key, prefix + "%") && e.value == ValueBytes(row.value)
  }

  /**
   * An entry is selected exactly when a row with that text key matching `prefix%` exists, and
   * it carries that row's value bytes; rows with unreadable keys are left out.
   */
  lemma {:induction false} SelectMembers(rows: seq<Row>, prefix: string, e: RawKvEntry)
    ensures e in Select(rows, prefix) <==> exists i :: 0 <= i < |rows| && SelectsAs(rows[i], prefix, e)
    decreases |rows|
  {
    if rows != [] {
      var init := rows[..|rows| - 1];
      SelectMembers(init, prefix, e);
      if exists i :: 0 <= i < |init| && SelectsAs(init[i], prefix, e) {
        var i :| 0 <= i < |init| && SelectsAs(init[i], prefix, e);
        assert rows[i] == init[i];
      }
    }
  }

  /** Every selected key matches the pattern, and no more entries than rows come back. */
  lemma {:induction false} SelectMatches(rows: seq<Row>, prefix: string)
    ensures |Select(rows, prefix)| <= |rows|
    ensures forall i :: 0 <= i < |Select(rows, prefix)| ==> Like(Select(rows, prefix)[i].key, prefix + "%")
    decreases |rows|
  {
    if rows != [] {
      SelectMatches(rows[..|rows| - 1], prefix);
    }
  }

  /** For the two prefixes of the source, LIKE selects keys that start with the prefix up to ASCII case. */
  lemma PrefixSelection(key: string)
    ensures Like(key, COMPOSER_PREFIX + "%") <==> StartsWithIgnoringAsciiCase(key, COMPOSER_PREFIX)
    ensures Like(key, BUBBLE_PREFIX + "%") <==> StartsWithIgnoringAsciiCase(key, BUBBLE_PREFIX)
  {
    LikePrefixIff(key, COMPOSER_PREFIX);
    LikePrefixIff(key, BUBBLE_PREFIX);
  }

  /** A read-only connection to a state database: it has no state that changes. */
  class StateDbReader {
    /** The key/value table, if the database has one. */
    const kvTable: Option<seq<Row>>

    constructor FromTable(kvTable: Option<seq<Row>>)
      ensures this.kvTable == kvTable
    {
      this.kvTable := kvTable;
    }

    /** `fetch_by_prefix`: the selected entries, or an error when the table is missing. */
    method FetchByPrefix(prefix: string) returns (r: Result<seq<RawKvEntry>>)
      ensures kvTable.None? ==> r == Err(NO_KV_TABLE)
      ensures kvTable.Some? ==> r == Ok(Select(kvTable.value, prefix))
    {
      if kvTable.None? {
        return Err(NO_KV_TABLE);
      }
      var rows := kvTable.value;
      var entries: seq<RawKvEntry> := [];
      var i := 0;
      while i < |rows|
        invariant 0 <= i <= |rows|
        invariant entries == Select(rows[..i], prefix)
      {
        assert rows[..i + 1][..i] == rows[..i];
        match rows[i].key {
          case NonTextKey =>
          case TextKey(k) =>
            if Like(k, prefix + "%") {
              entries := entries + [RawKvEntry(k, ValueBytes(rows[i].value))];
            }
        }
        i := i + 1;
      }
      assert rows[..|rows|] == rows;
      return Ok(entries);
    }

    /** `fetch_bubbles`. */
    method FetchBubbles() returns (r: Result<seq<RawKvEntry>>)
      ensures kvTable.None? ==> r == Err(NO_KV_TABLE)
      ensures kvTable.Some? ==> r == Ok(Select(kvTable.value, BUBBLE_PREFIX))
    {
      r := FetchByPrefix(BUBBLE_PREFIX);
    }

    /** `fetch_composers`. */
    method FetchComposers() returns (r: Result<seq<RawKvEntry>>)
      ensures kvTable.None? ==> r == Err(NO_KV_TABLE)
      ensures kvTable.Some? ==> r == Ok(Select(kvTable.value, COMPOSER_PREFIX))
    {
      r := FetchByPrefix(COMPOSER_PREFIX);
    }
  }

  /** `StateDbReader::open`: read-only, so an absent file is an error rather than created. */
  method Open(file: DbFile) returns (r: Result<StateDbReader>)
    ensures r.Ok? <==> file.Present?
    ensures r.Ok? ==> r.value.kvTable == file.kvTable
    ensures r.Err? ==> r == Err(OPEN_FAILED)
  {
    if file.Missing? {
      return Err(OPEN_FAILED);
    }
    var reader := new StateDbReader.FromTable(file.kvTable);
    return Ok(reader);
  }
}
