/**
 * The local SQLite store (src/infrastructure/local_storage.rs) as in-memory tables. Each table
 * is a sequence of rows in rowid order; `AUTOINCREMENT` ids come from a counter per table.
 * Every SQL statement is a function from the tables to a `Step`: its result and the new
 * tables. `LocalStorage` holds the tables in fields and its methods are proved to perform
 * exactly these steps.
 *
 * Storage failures are modelled by a write budget: `writesLeft == Some(0)` makes the next
 * write statement fail with a database error and change nothing; `None` never fails.
 */
module LocalStore {
  import opened Base
  import opened Errors
  import opened Models
  import opened Chrono
  import opened Sorting
  import opened SyncDomain
  import opened ContentHash

  /** SQLite `INTEGER`. */
  type I64 = x: int | I64_MIN <= x <= I64_MAX

  datatype WorkspaceRow = WorkspaceRow(id: int, name: string, path: Option<string>, cursorPath: Option<string>)

  /** A `conversations` row; `createdAt` is RFC 3339 text, `updatedAt` the clock reading of the last write. */
  datatype ConversationRow = ConversationRow(
    id: int,
    composerId: string,
    workspaceId: Option<int>,
    title: string,
    modelName: string,
    maxMode: bool,
    unifiedMode: string,
    createdAt: Option<string>,
    updatedAt: int,
    contentHash: Option<Fingerprint>)

  datatype BubbleRow = BubbleRow(
    id: int,
    bubbleId: string,
    conversationId: int,
    bubbleType: U8,
    text: string,
    createdAt: Option<string>,
    thinkingText: Option<string>,
    thinkingSignature: Option<string>,
    thinkingDurationMs: Option<I64>,
    inputTokens: I64,
    outputTokens: I64,
    isAgentic: bool)

  /** The single `sync_state` row. */
  datatype SyncRow = SyncRow(
    lastSync: Option<string>,
    lastHash: Option<string>,
    conversationCount: nat,
    messageCount: nat,
    storageBytes: I64,
    isSyncing: bool,
    lastError: Option<string>)

  datatype Tables = Tables(
    workspaces: seq<WorkspaceRow>,
    conversations: seq<ConversationRow>,
    bubbles: seq<BubbleRow>,
    syncRow: SyncRow,
    nextWorkspaceId: int,
    nextConversationId: int,
    nextBubbleId: int,
    writesLeft: Option<nat>)

  /** The outcome of one statement: its result and the tables after it. */
  datatype Step<T> = Step(result: Result<T>, db: Tables)

  /** The row `INSERT OR IGNORE INTO sync_state (id) VALUES (1)` creates. */
  const DEFAULT_SYNC_ROW := SyncRow(None, None, 0, 0, 0, false, None)

  /** The tables right after the schema is created. */
  function EmptyTables(writesLeft: Option<nat>): Tables {
    Tables([], [], [], DEFAULT_SYNC_ROW, 1, 1, 1, writesLeft)
  }

  const FOREIGN_KEY_FAILED := Database("FOREIGN KEY constraint failed")

  predicate WriteFails(db: Tables) {
    db.writesLeft == Some(0)
  }

  /** The budget after one successful write. */
  function Spent(db: Tables): Option<nat>
    requires !WriteFails(db)
  {
    if db.writesLeft.None? then None else Some(db.writesLeft.value - 1)
  }

  // ---------------------------------------------------------------- lookups

  /** The position of the last row whose key is `k` (a lookup by a `UNIQUE` column), or none. */
  function FindBy<T, K(==)>(rows: seq<T>, key: T -> K, k: K): (r: Option<nat>)
    ensures r.Some? ==> r.value < |rows| && key(rows[r.value]) == k
    ensures r.None? <==> forall i :: 0 <= i < |rows| ==> key(rows[i]) != k
    decreases |rows|
  {
    if rows == [] then None
    else if key(rows[|rows| - 1]) == k then Some(|rows| - 1)
    else FindBy(rows[..|rows| - 1], key, k)
  }

  /** `SELECT id FROM conversations WHERE composer_id = ?1`. */
  function FindConversation(rows: seq<ConversationRow>, composerId: string): Option<nat> {
    FindBy(rows, (c: ConversationRow) => c.composerId, composerId)
  }

  /** The bubble row with that `bubble_id`, the conflict target of the bubble upsert. */
  function FindBubble(rows: seq<BubbleRow>, bubbleId: string): Option<nat> {
    FindBy(rows, (b: BubbleRow) => b.bubbleId, bubbleId)
  }

  /** `SELECT id FROM workspaces WHERE path = ?1`. */
  function FindWorkspaceByPath(rows: seq<WorkspaceRow>, path: string): Option<nat> {
    FindBy(rows, (w: WorkspaceRow) => w.path, Some(path))
  }

  predicate HasWorkspace(rows: seq<WorkspaceRow>, id: int) {
    exists i :: 0 <= i < |rows| && rows[i].id == id
  }

  predicate HasConversation(rows: seq<ConversationRow>, id: int) {
    exists i :: 0 <= i < |rows| && rows[i].id == id
  }

  // ------------------------------------------------------------- invariant

  /**
   * The workspace rows: ids increase in rowid order from 1 and stay below the next id, and
   * a path that is not null is `UNIQUE`.
   */
  predicate ValidWorkspaces(rows: seq<WorkspaceRow>, next: int) {
    1 <= next
    && (forall i, j :: 0 <= i < j < |rows| ==> rows[i].id < rows[j].id)
    && (forall i :: 0 <= i < |rows| ==> 1 <= rows[i].id < next)
    && (forall i, j :: 0 <= i < j < |rows| && rows[i].path.Some? ==> rows[i].path != rows[j].path)
  }

  /** The conversation rows: ordered ids, and `composer_id` is `UNIQUE`. */
  predicate ValidConversations(rows: seq<ConversationRow>, next: int) {
    1 <= next
    && (forall i, j :: 0 <= i < j < |rows| ==> rows[i].id < rows[j].id)
    && (forall i :: 0 <= i < |rows| ==> 1 <= rows[i].id < next)
    && (forall i, j :: 0 <= i < j < |rows| ==> rows[i].composerId != rows[j].composerId)
  }

  /** The bubble rows: ordered ids, and `bubble_id` is `UNIQUE`. */
  predicate ValidBubbles(rows: seq<BubbleRow>, next: int) {
    1 <= next
    && (forall i, j :: 0 <= i < j < |rows| ==> rows[i].id < rows[j].id)
    && (forall i :: 0 <= i < |rows| ==> 1 <= rows[i].id < next)
    && (forall i, j :: 0 <= i < j < |rows| ==> rows[i].bubbleId != rows[j].bubbleId)
  }

  /** The `REFERENCES` clauses, enforced with `PRAGMA foreign_keys = ON`. */
  predicate ForeignKeys(db: Tables) {
    (forall i :: 0 <= i < |db.bubbles| ==> HasConversation(db.conversations, db.bubbles[i].conversationId))
    && (forall i :: 0 <= i < |db.conversations| && db.conversations[i].workspaceId.Some? ==>
          HasWorkspace(db.workspaces, db.conversations[i].workspaceId.value))
  }

  predicate ValidTables(db: Tables) {
    ValidWorkspaces(db.workspaces, db.nextWorkspaceId)
    && ValidConversations(db.conversations, db.nextConversationId)
    && ValidBubbles(db.bubbles, db.nextBubbleId)
    && ForeignKeys(db)
  }

  lemma EmptyTablesValid(writesLeft: Option<nat>)
    ensures ValidTables(EmptyTables(writesLeft))
    ensures EmptyTables(writesLeft).syncRow == DEFAULT_SYNC_ROW
  {
  }

  /** Rows that keep their ids, with possibly more after them, keep every referenced id. */
  predicate KeepsConversationIds(before: seq<ConversationRow>, after: seq<ConversationRow>) {
    |before| <= |after| && forall i :: 0 <= i < |before| ==> after[i].id == before[i].id
  }

  lemma KeptConversationIds(before: seq<ConversationRow>, after: seq<ConversationRow>, id: int)
    requires KeepsConversationIds(before, after) && HasConversation(before, id)
    ensures HasConversation(after, id)
  {
    var i :| 0 <= i < |before| && before[i].id == id;
    assert after[i].id == id;
  }

  lemma KeptWorkspaceIds(before: seq<WorkspaceRow>, row: WorkspaceRow, id: int)
    requires HasWorkspace(before, id)
    ensures HasWorkspace(before + [row], id)
  {
    var i :| 0 <= i < |before| && before[i].id == id;
    assert (before + [row])[i].id == id;
  }

  // ----------------------------------------------------------- workspaces

  /** `get_or_create_workspace`: the row with this path, or a new row (always one when there is no path). */
  function GetOrCreateWorkspaceStep(db: Tables, info: WorkspaceInfo): Step<int> {
    if info.path.Some? && FindWorkspaceByPath(db.workspaces, info.path.value).Some? then
      Step(Ok(db.workspaces[FindWorkspaceByPath(db.workspaces, info.path.value).value].id), db)
    else if WriteFails(db) then
      Step(Err(WRITE_FAILED), db)
    else
      var row := WorkspaceRow(db.nextWorkspaceId, info.name, info.path, info.cursorPath);
      Step(Ok(db.nextWorkspaceId),
           db.(workspaces := db.workspaces + [row], nextWorkspaceId := db.nextWorkspaceId + 1, writesLeft := Spent(db)))
  }

  lemma WorkspaceAppendValid(rows: seq<WorkspaceRow>, next: int, row: WorkspaceRow)
    requires ValidWorkspaces(rows, next) && row.id == next
    requires row.path.Some? ==> FindWorkspaceByPath(rows, row.path.value).None?
    ensures ValidWorkspaces(rows + [row], next + 1)
  {
    var after := rows + [row];
    forall i, j | 0 <= i < j < |after| && after[i].path.Some?
      ensures after[i].path != after[j].path
    {
      if j == |rows| && row.path.Some? {
        assert rows[i].path != Some(row.path.value);
      }
    }
  }

  /**
   * An existing path returns its row's id and writes nothing; otherwise, a path or none,
   * exactly one row is added and its id returned. Other tables never change and the
   * invariant is kept.
   */
  lemma GetOrCreateWorkspaceProperties(db: Tables, info: WorkspaceInfo)
    requires ValidTables(db)
    ensures var s := GetOrCreateWorkspaceStep(db, info);
      && ValidTables(s.db)
      && s.db.conversations == db.conversations && s.db.bubbles == db.bubbles && s.db.syncRow == db.syncRow
      && (info.path.Some? && FindWorkspaceByPath(db.workspaces, info.path.value).Some? ==>
            s.db == db && s.result.Ok?
            && s.result.value == db.workspaces[FindWorkspaceByPath(db.workspaces, info.path.value).value].id)
      && (s.result.Ok? && s.db != db ==>
            s.db.workspaces == db.workspaces + [WorkspaceRow(s.result.value, info.name, info.path, info.cursorPath)]
            && !HasWorkspace(db.workspaces, s.result.value))
      && (s.result.Ok? ==> HasWorkspace(s.db.workspaces, s.result.value))
      && (s.result.Err? <==> WriteFails(db) && (info.path.Some? ==> FindWorkspaceByPath(db.workspaces, info.path.value).None?))
      && (s.result.Err? ==> s.db == db)
  {
    var s := GetOrCreateWorkspaceStep(db, info);
    if s.result.Ok? && s.db != db {
      var row := WorkspaceRow(db.nextWorkspaceId, info.name, info.path, info.cursorPath);
      WorkspaceAppendValid(db.workspaces, db.nextWorkspaceId, row);
      assert s.db.workspaces[|db.workspaces|] == row;
      forall i | 0 <= i < |db.conversations| && db.conversations[i].workspaceId.Some?
        ensures HasWorkspace(s.db.workspaces, db.conversations[i].workspaceId.value)
      {
        KeptWorkspaceIds(db.workspaces, row, db.conversations[i].workspaceId.value);
      }
    } else if s.result.Ok? {
      var k := FindWorkspaceByPath(db.workspaces, info.path.value).value;
      assert db.workspaces[k].id == s.result.value;
    }
  }

  // -------------------------------------------------------- conversations

  /** The columns an insert writes; `max_mode` goes through `as i32` and comes back as `!= 0`. */
  function NewConversationRow(id: int, conv: Conversation, workspaceId: Option<int>,
                              hash: Option<Fingerprint>, now: int, chrono: Chrono): ConversationRow {
    ConversationRow(id, conv.composerId, workspaceId, conv.title, conv.modelConfig.modelName,
                    conv.modelConfig.maxMode, conv.unifiedMode,
                    if conv.createdAt.Some? then Some(chrono.toRfc3339(conv.createdAt.value)) else None,
                    now, hash)
  }

  /** The `ON CONFLICT(composer_id) DO UPDATE SET` clause. */
  function ConflictConversationRow(row: ConversationRow, conv: Conversation, workspaceId: Option<int>,
                                   hash: Option<Fingerprint>, now: int): ConversationRow {
    row.(workspaceId := if workspaceId.Some? then workspaceId else row.workspaceId,
         title := conv.title,
         modelName := conv.modelConfig.modelName,
         maxMode := conv.modelConfig.maxMode,
         unifiedMode := conv.unifiedMode,
         updatedAt := now,
         contentHash := hash)
  }

  /** `upsert_conversation`: the insert-or-update, then the row id of the composer. */
  function UpsertConversationStep(db: Tables, conv: Conversation, workspaceId: Option<int>,
                              hash: Option<Fingerprint>, now: int, chrono: Chrono): Step<int> {
    if WriteFails(db) then Step(Err(WRITE_FAILED), db)
    else if workspaceId.Some? && !HasWorkspace(db.workspaces, workspaceId.value) then Step(Err(FOREIGN_KEY_FAILED), db)
    else match FindConversation(db.conversations, conv.composerId)
      case None =>
        var row := NewConversationRow(db.nextConversationId, conv, workspaceId, hash, now, chrono);
        Step(Ok(db.nextConversationId),
             db.(conversations := db.conversations + [row],
                 nextConversationId := db.nextConversationId + 1, writesLeft := Spent(db)))
      case Some(i) =>
        var row := ConflictConversationRow(db.conversations[i], conv, workspaceId, hash, now);
        Step(Ok(db.conversations[i].id),
             db.(conversations := db.conversations[i := row], writesLeft := Spent(db)))
  }

  /** The stored row of a composer, if any. */
  function ConversationRowOf(db: Tables, composerId: string): Option<ConversationRow> {
    var i := FindConversation(db.conversations, composerId);
    if i.Some? then Some(db.conversations[i.value]) else None
  }

  /** With unique composer ids, a composer id is found at the only row that has it. */
  lemma FindConversationUnique(rows: seq<ConversationRow>, next: int, composerId: string, i: nat)
    requires ValidConversations(rows, next) && i < |rows| && rows[i].composerId == composerId
    ensures FindConversation(rows, composerId) == Some(i)
  {
  }

  lemma ConversationUpdateValid(rows: seq<ConversationRow>, next: int, k: nat, row: ConversationRow)
    requires ValidConversations(rows, next) && k < |rows|
    requires row.id == rows[k].id && row.composerId == rows[k].composerId
    ensures ValidConversations(rows[k := row], next)
    ensures KeepsConversationIds(rows, rows[k := row])
  {
  }

  lemma ConversationAppendValid(rows: seq<ConversationRow>, next: int, row: ConversationRow)
    requires ValidConversations(rows, next) && row.id == next
    requires FindConversation(rows, row.composerId).None?
    ensures ValidConversations(rows + [row], next + 1)
    ensures KeepsConversationIds(rows, rows + [row])
  {
    var after := rows + [row];
    forall i, j | 0 <= i < j < |after| ensures after[i].composerId != after[j].composerId {
      if j == |rows| {
        assert rows[i].composerId != row.composerId;
      }
    }
  }

  /** The index the composer's row has after a successful upsert. */
  function UpsertedIndex(db: Tables, composerId: string): nat {
    var f := FindConversation(db.conversations, composerId);
    if f.Some? then f.value else |db.conversations|
  }

  /**
   * A conversation upsert fails exactly on a spent budget or a missing workspace, and then
   * changes nothing; otherwise it changes only the conversations table, where the composer's
   * row is at `UpsertedIndex` and has the returned id.
   */
  lemma UpsertConversationOutcome(db: Tables, conv: Conversation, workspaceId: Option<int>,
                                  hash: Option<Fingerprint>, now: int, chrono: Chrono)
    ensures var s := UpsertConversationStep(db, conv, workspaceId, hash, now, chrono);
      && (s.result.Ok? <==> !WriteFails(db) && (workspaceId.Some? ==> HasWorkspace(db.workspaces, workspaceId.value)))
      && (s.result.Err? ==> s.db == db)
      && s.db.bubbles == db.bubbles && s.db.workspaces == db.workspaces && s.db.syncRow == db.syncRow
      && (s.result.Ok? ==>
            var k := UpsertedIndex(db, conv.composerId);
            k < |s.db.conversations| && s.db.conversations[k].composerId == conv.composerId
            && s.db.conversations[k].id == s.result.value)
  {
  }

  /** Conversation rows that are valid, keep every id and reference stored workspaces keep the tables valid. */
  lemma ConversationRowsReplaced(db: Tables, rows: seq<ConversationRow>, next: int, writesLeft: Option<nat>)
    requires ValidTables(db) && ValidConversations(rows, next) && KeepsConversationIds(db.conversations, rows)
    requires forall i :: 0 <= i < |rows| && rows[i].workspaceId.Some? ==> HasWorkspace(db.workspaces, rows[i].workspaceId.value)
    ensures ValidTables(db.(conversations := rows, nextConversationId := next, writesLeft := writesLeft))
  {
    forall i | 0 <= i < |db.bubbles| ensures HasConversation(rows, db.bubbles[i].conversationId) {
      KeptConversationIds(db.conversations, rows, db.bubbles[i].conversationId);
    }
  }

  /** Overwriting a row in place, with its id, composer and a stored workspace, keeps the tables valid. */
  lemma ConversationUpdatedValid(db: Tables, k: nat, row: ConversationRow, writesLeft: Option<nat>)
    requires ValidTables(db) && k < |db.conversations|
    requires row.id == db.conversations[k].id && row.composerId == db.conversations[k].composerId
    requires row.workspaceId.Some? ==> HasWorkspace(db.workspaces, row.workspaceId.value)
    ensures ValidTables(db.(conversations := db.conversations[k := row], writesLeft := writesLeft))
  {
    ConversationUpdateValid(db.conversations, db.nextConversationId, k, row);
    ConversationRowsReplaced(db, db.conversations[k := row], db.nextConversationId, writesLeft);
  }

  /** Appending a row with the next id, a new composer and a stored workspace keeps the tables valid. */
  lemma ConversationAppendedValid(db: Tables, row: ConversationRow, writesLeft: Option<nat>)
    requires ValidTables(db) && row.id == db.nextConversationId
    requires FindConversation(db.conversations, row.composerId).None?
    requires row.workspaceId.Some? ==> HasWorkspace(db.workspaces, row.workspaceId.value)
    ensures ValidTables(db.(conversations := db.conversations + [row], nextConversationId := db.nextConversationId + 1,
                            writesLeft := writesLeft))
  {
    ConversationAppendValid(db.conversations, db.nextConversationId, row);
    ConversationRowsReplaced(db, db.conversations + [row], db.nextConversationId + 1, writesLeft);
  }

  /** A conversation upsert keeps the invariant. */
  lemma UpsertConversationValid(db: Tables, conv: Conversation, workspaceId: Option<int>,
                                hash: Option<Fingerprint>, now: int, chrono: Chrono)
    requires ValidTables(db)
    ensures ValidTables(UpsertConversationStep(db, conv, workspaceId, hash, now, chrono).db)
  {
    if WriteFails(db) {
    } else if workspaceId.Some? && !HasWorkspace(db.workspaces, workspaceId.value) {
    } else {
      var f := FindConversation(db.conversations, conv.composerId);
      if f.Some? {
        ConversationUpdatedValid(db, f.value, ConflictConversationRow(db.conversations[f.value], conv, workspaceId, hash, now), Spent(db));
      } else {
        ConversationAppendedValid(db, NewConversationRow(db.nextConversationId, conv, workspaceId, hash, now, chrono), Spent(db));
      }
    }
  }

  /**
   * After a successful upsert the composer has a row at the returned id holding the given
   * title, model, mode and hash. On conflict the row id and the creation time are kept and
   * the workspace becomes the given one only when one is given.
   */
  lemma UpsertConversationRow(db: Tables, conv: Conversation, workspaceId: Option<int>,
                              hash: Option<Fingerprint>, now: int, chrono: Chrono)
    requires ValidTables(db)
    ensures var s := UpsertConversationStep(db, conv, workspaceId, hash, now, chrono);
      s.result.Ok? ==>
        var row := ConversationRowOf(s.db, conv.composerId);
        && row.Some? && row.value.id == s.result.value
        && row.value.title == conv.title && row.value.contentHash == hash
        && row.value.modelName == conv.modelConfig.modelName && row.value.maxMode == conv.modelConfig.maxMode
        && row.value.unifiedMode == conv.unifiedMode && row.value.updatedAt == now
        && (ConversationRowOf(db, conv.composerId).Some? ==>
              var before := ConversationRowOf(db, conv.composerId).value;
              && row.value.id == before.id && row.value.createdAt == before.createdAt
              && row.value.workspaceId == (if workspaceId.Some? then workspaceId else before.workspaceId))
        && (ConversationRowOf(db, conv.composerId).None? ==>
              row.value.workspaceId == workspaceId && !HasConversation(db.conversations, row.value.id))
  {
    var s := UpsertConversationStep(db, conv, workspaceId, hash, now, chrono);
    if s.result.Ok? {
      UpsertedRowFound(db, conv, workspaceId, hash, now, chrono);
      var f := FindConversation(db.conversations, conv.composerId);
      if f.Some? {
        assert s.db.conversations[f.value] == ConflictConversationRow(db.conversations[f.value], conv, workspaceId, hash, now);
      } else {
        assert s.db.conversations[|db.conversations|] == NewConversationRow(db.nextConversationId, conv, workspaceId, hash, now, chrono);
      }
    }
  }

  /** After a successful upsert the composer's row is found where the upsert put it. */
  lemma UpsertedRowFound(db: Tables, conv: Conversation, workspaceId: Option<int>,
                         hash: Option<Fingerprint>, now: int, chrono: Chrono)
    requires ValidTables(db)
    ensures var s := UpsertConversationStep(db, conv, workspaceId, hash, now, chrono);
      s.result.Ok? ==> ConversationRowOf(s.db, conv.composerId) == Some(s.db.conversations[UpsertedIndex(db, conv.composerId)])
  {
    var s := UpsertConversationStep(db, conv, workspaceId, hash, now, chrono);
    UpsertConversationValid(db, conv, workspaceId, hash, now, chrono);
    UpsertConversationOutcome(db, conv, workspaceId, hash, now, chrono);
    if s.result.Ok? {
      FindConversationUnique(s.db.conversations, s.db.nextConversationId, conv.composerId, UpsertedIndex(db, conv.composerId));
    }
  }

  /** An upsert leaves every other composer's row as it was. */
  lemma UpsertConversationOthers(db: Tables, conv: Conversation, workspaceId: Option<int>,
                                 hash: Option<Fingerprint>, now: int, chrono: Chrono, other: string)
    requires ValidTables(db) && other != conv.composerId
    ensures var s := UpsertConversationStep(db, conv, workspaceId, hash, now, chrono);
      ConversationRowOf(s.db, other) == ConversationRowOf(db, other)
  {
    var s := UpsertConversationStep(db, conv, workspaceId, hash, now, chrono);
    UpsertConversationValid(db, conv, workspaceId, hash, now, chrono);
    UpsertConversationOutcome(db, conv, workspaceId, hash, now, chrono);
    if s.result.Ok? {
      var g := FindConversation(db.conversations, other);
      if g.Some? {
        assert s.db.conversations[g.value] == db.conversations[g.value];
        FindConversationUnique(s.db.conversations, s.db.nextConversationId, other, g.value);
      } else {
        forall i | 0 <= i < |s.db.conversations| ensures s.db.conversations[i].composerId != other {
          if i < |db.conversations| {
            assert s.db.conversations[i].composerId == db.conversations[i].composerId;
          }
        }
      }
    }
  }

  /** Upserting the same composer again returns the same row id. */
  lemma UpsertConversationStableId(db: Tables, conv: Conversation, conv2: Conversation,
                                   ws: Option<int>, ws2: Option<int>, hash: Option<Fingerprint>,
                                   hash2: Option<Fingerprint>, now: int, now2: int, chrono: Chrono)
    requires ValidTables(db) && conv2.composerId == conv.composerId
    ensures var s := UpsertConversationStep(db, conv, ws, hash, now, chrono);
      var t := UpsertConversationStep(s.db, conv2, ws2, hash2, now2, chrono);
      s.result.Ok? && t.result.Ok? ==> t.result.value == s.result.value
  {
    var s := UpsertConversationStep(db, conv, ws, hash, now, chrono);
    UpsertConversationValid(db, conv, ws, hash, now, chrono);
    UpsertConversationRow(db, conv, ws, hash, now, chrono);
    UpsertConversationRow(s.db, conv2, ws2, hash2, now2, chrono);
  }

  // -------------------------------------------------------------- bubbles

  /**
   * The columns an insert writes. Token counts go through `as i64`; the thinking duration is
   * bound as `u64`, which the caller has checked fits an `i64`.
   */
  function NewBubbleRow(id: int, b: Bubble, conversationId: int, chrono: Chrono): BubbleRow
    requires b.thinkingDurationMs.Some? ==> b.thinkingDurationMs.value <= I64_MAX
  {
    BubbleRow(id, b.bubbleId, conversationId, TypeCode(b.bubbleType), b.text,
              if b.createdAt.Some? then Some(chrono.toRfc3339(b.createdAt.value)) else None,
              if b.thinking.Some? then Some(b.thinking.value.text) else None,
              if b.thinking.Some? then b.thinking.value.signature else None,
              if b.thinkingDurationMs.Some? then Some(b.thinkingDurationMs.value as I64) else None,
              AsI64(b.tokenCount.inputTokens), AsI64(b.tokenCount.outputTokens), b.isAgentic)
  }

  /** The `ON CONFLICT(bubble_id) DO UPDATE SET` clause: type, time and conversation are kept. */
  function ConflictBubbleRow(row: BubbleRow, b: Bubble, chrono: Chrono): BubbleRow
    requires b.thinkingDurationMs.Some? ==> b.thinkingDurationMs.value <= I64_MAX
  {
    var w := NewBubbleRow(row.id, b, row.conversationId, chrono);
    row.(text := w.text, thinkingText := w.thinkingText, thinkingSignature := w.thinkingSignature,
         thinkingDurationMs := w.thinkingDurationMs, inputTokens := w.inputTokens,
         outputTokens := w.outputTokens, isAgentic := w.isAgentic)
  }

  const OUT_OF_RANGE := Database("integer out of range for i64")

  /** `upsert_bubble`. A duration beyond `i64::MAX` cannot be bound as a parameter. */
  function UpsertBubbleStep(db: Tables, b: Bubble, conversationId: int, chrono: Chrono): Step<()> {
    if b.thinkingDurationMs.Some? && b.thinkingDurationMs.value > I64_MAX then Step(Err(OUT_OF_RANGE), db)
    else if WriteFails(db) then Step(Err(WRITE_FAILED), db)
    else match FindBubble(db.bubbles, b.bubbleId)
      case None =>
        if !HasConversation(db.conversations, conversationId) then Step(Err(FOREIGN_KEY_FAILED), db)
        else
          var row := NewBubbleRow(db.nextBubbleId, b, conversationId, chrono);
          Step(Ok(()), db.(bubbles := db.bubbles + [row], nextBubbleId := db.nextBubbleId + 1, writesLeft := Spent(db)))
      case Some(i) =>
        Step(Ok(()), db.(bubbles := db.bubbles[i := ConflictBubbleRow(db.bubbles[i], b, chrono)], writesLeft := Spent(db)))
  }

  lemma BubbleAppendValid(rows: seq<BubbleRow>, next: int, row: BubbleRow)
    requires ValidBubbles(rows, next) && row.id == next
    requires FindBubble(rows, row.bubbleId).None?
    ensures ValidBubbles(rows + [row], next + 1)
  {
    var after := rows + [row];
    forall i, j | 0 <= i < j < |after| ensures after[i].bubbleId != after[j].bubbleId {
      if j == |rows| {
        assert rows[i].bubbleId != row.bubbleId;
      }
    }
  }

  /** Overwriting a bubble row in place, with its id, bubble id and conversation, keeps the tables valid. */
  lemma BubbleUpdatedValid(db: Tables, k: nat, row: BubbleRow, writesLeft: Option<nat>)
    requires ValidTables(db) && k < |db.bubbles|
    requires row.id == db.bubbles[k].id && row.bubbleId == db.bubbles[k].bubbleId
    requires row.conversationId == db.bubbles[k].conversationId
    ensures ValidTables(db.(bubbles := db.bubbles[k := row], writesLeft := writesLeft))
  {
  }

  /** Appending a bubble row with the next id, a new bubble id and a stored conversation keeps the tables valid. */
  lemma BubbleAppendedValid(db: Tables, row: BubbleRow, writesLeft: Option<nat>)
    requires ValidTables(db) && row.id == db.nextBubbleId
    requires FindBubble(db.bubbles, row.bubbleId).None? && HasConversation(db.conversations, row.conversationId)
    ensures ValidTables(db.(bubbles := db.bubbles + [row], nextBubbleId := db.nextBubbleId + 1, writesLeft := writesLeft))
  {
    BubbleAppendValid(db.bubbles, db.nextBubbleId, row);
  }

  /**
   * A bubble upsert fails exactly for an unbindable duration, a spent budget, or a new
   * bubble of a missing conversation, and then changes nothing; it never changes another table.
   */
  lemma UpsertBubbleOutcome(db: Tables, b: Bubble, conversationId: int, chrono: Chrono)
    ensures var s := UpsertBubbleStep(db, b, conversationId, chrono);
      && (s.result.Err? ==> s.db == db)
      && (s.result.Ok? <==>
            (b.thinkingDurationMs.Some? ==> b.thinkingDurationMs.value <= I64_MAX) && !WriteFails(db)
            && (FindBubble(db.bubbles, b.bubbleId).None? ==> HasConversation(db.conversations, conversationId)))
      && s.db.conversations == db.conversations && s.db.workspaces == db.workspaces && s.db.syncRow == db.syncRow
  {
  }

  /** A bubble upsert keeps the invariant. */
  lemma UpsertBubbleValid(db: Tables, b: Bubble, conversationId: int, chrono: Chrono)
    requires ValidTables(db)
    ensures ValidTables(UpsertBubbleStep(db, b, conversationId, chrono).db)
  {
    if b.thinkingDurationMs.Some? && b.thinkingDurationMs.value > I64_MAX {
    } else if WriteFails(db) {
    } else {
      var f := FindBubble(db.bubbles, b.bubbleId);
      if f.None? {
        if HasConversation(db.conversations, conversationId) {
          BubbleAppendedValid(db, NewBubbleRow(db.nextBubbleId, b, conversationId, chrono), Spent(db));
        }
      } else {
        BubbleUpdatedValid(db, f.value, ConflictBubbleRow(db.bubbles[f.value], b, chrono), Spent(db));
      }
    }
  }



  /**
   * An upsert of a known bubble overwrites its text, thinking, tokens and agentic flag and
   * keeps its type, creation time and conversation, touching no other row; a new bubble is
   * appended as a new row of the given conversation.
   */
  lemma UpsertBubbleRow(db: Tables, b: Bubble, conversationId: int, chrono: Chrono)
    requires ValidTables(db)
    ensures var s := UpsertBubbleStep(db, b, conversationId, chrono);
      && (s.result.Ok? && FindBubble(db.bubbles, b.bubbleId).Some? ==>
            var i := FindBubble(db.bubbles, b.bubbleId).value;
            var before, after := db.bubbles[i], s.db.bubbles[i];
            && |s.db.bubbles| == |db.bubbles|
            && after.bubbleType == before.bubbleType && after.createdAt == before.createdAt
            && after.conversationId == before.conversationId && after.id == before.id
            && after.text == b.text && after.isAgentic == b.isAgentic
            && after.inputTokens == AsI64(b.tokenCount.inputTokens)
            && after.outputTokens == AsI64(b.tokenCount.outputTokens)
            && (forall k :: 0 <= k < |db.bubbles| && k != i ==> s.db.bubbles[k] == db.bubbles[k]))
      && (s.result.Ok? && FindBubble(db.bubbles, b.bubbleId).None? ==>
            s.db.bubbles == db.bubbles + [NewBubbleRow(db.nextBubbleId, b, conversationId, chrono)])
  {
  }

  /** `get_conversation_hash`: no row gives `None`; a row whose hash is null cannot be read as text. */
  function ConversationHash(db: Tables, composerId: string): (r: Result<Option<Fingerprint>>)
    ensures ConversationRowOf(db, composerId).None? ==> r == Ok(None)
    ensures ConversationRowOf(db, composerId).Some? ==>
      (r.Ok? <==> ConversationRowOf(db, composerId).value.contentHash.Some?)
      && (r.Ok? ==> r == Ok(ConversationRowOf(db, composerId).value.contentHash))
  {
    match ConversationRowOf(db, composerId)
    case None => Ok(None)
    case Some(row) => if row.contentHash.None? then Err(Database("Invalid column type Null")) else Ok(row.contentHash)
  }

  // ------------------------------------------------------------ reading

  /** `BubbleType::try_from(u8).unwrap_or(Unknown)` and the other column conversions of `get_bubbles`. */
  function DecodeBubble(row: BubbleRow, chrono: Chrono): Option<Bubble> {
    if row.thinkingDurationMs.Some? && row.thinkingDurationMs.value < 0 then None
    else
      Some(Bubble(
        row.bubbleId,
        TypeFromCode(row.bubbleType),
        row.text,
        if row.createdAt.Some? then chrono.parseRfc3339(row.createdAt.value) else None,
        if row.thinkingText.Some? then Some(ThinkingBlock(row.thinkingText.value, row.thinkingSignature)) else None,
        if row.thinkingDurationMs.Some? then Some(row.thinkingDurationMs.value as U64) else None,
        TokenCount(AsU64(row.inputTokens), AsU64(row.outputTokens)),
        row.isAgentic))
  }

  /** A bubble stored and read back is the same bubble, when its time is representable. */
  lemma BubbleRoundTrip(b: Bubble, id: int, conversationId: int, chrono: Chrono)
    requires chrono.Valid()
    requires b.createdAt.Some? ==> chrono.InRange(b.createdAt.value)
    requires b.thinkingDurationMs.Some? ==> b.thinkingDurationMs.value <= I64_MAX
    ensures DecodeBubble(NewBubbleRow(id, b, conversationId, chrono), chrono) == Some(b)
  {
    TypeCodeRoundTrip(b.bubbleType);
    AsI64RoundTrip(b.tokenCount.inputTokens);
    AsI64RoundTrip(b.tokenCount.outputTokens);
  }

  /** The decodable rows of conversation row `conversationId`, in rowid order. */
  function RowsOfConversation(rows: seq<BubbleRow>, conversationId: int, chrono: Chrono): seq<Bubble>
    decreases |rows|
  {
    if rows == [] then []
    else
      var last := rows[|rows| - 1];
      var b := DecodeBubble(last, chrono);
      RowsOfConversation(rows[..|rows| - 1], conversationId, chrono)
      + (if last.conversationId == conversationId && b.Some? then [b.value] else [])
  }

  /** The bubbles of a composer, in rowid order (the `JOIN` on the conversation's row id). */
  function StoredBubbles(db: Tables, composerId: string, chrono: Chrono): seq<Bubble> {
    match ConversationRowOf(db, composerId)
    case None => []
    case Some(row) => RowsOfConversation(db.bubbles, row.id, chrono)
  }

  /** `get_bubbles`: `ORDER BY b.created_at ASC`, with equal times in rowid order. */
  function ListBubbles(db: Tables, composerId: string, chrono: Chrono): seq<Bubble> {
    SortBy(StoredBubbles(db, composerId, chrono), BubbleTime, false)
  }

  lemma {:induction false} RowsOfConversationFrom(rows: seq<BubbleRow>, conversationId: int, chrono: Chrono, b: Bubble)
    ensures b in RowsOfConversation(rows, conversationId, chrono) <==>
      exists i :: 0 <= i < |rows| && rows[i].conversationId == conversationId && DecodeBubble(rows[i], chrono) == Some(b)
    decreases |rows|
  {
    if rows != [] {
      var init := rows[..|rows| - 1];
      RowsOfConversationFrom(init, conversationId, chrono, b);
      if exists i :: 0 <= i < |init| && init[i].conversationId == conversationId && DecodeBubble(init[i], chrono) == Some(b) {
        var i :| 0 <= i < |init| && init[i].conversationId == conversationId && DecodeBubble(init[i], chrono) == Some(b);
        assert rows[i] == init[i];
      }
      if exists i :: 0 <= i < |rows| && rows[i].conversationId == conversationId && DecodeBubble(rows[i], chrono) == Some(b) {
        var i :| 0 <= i < |rows| && rows[i].conversationId == conversationId && DecodeBubble(rows[i], chrono) == Some(b);
        if i < |init| {
          assert init[i] == rows[i];
        }
      }
    }
  }

  /** Some row of the composer's conversation decodes to `b`. */
  predicate StoredFor(db: Tables, composerId: string, b: Bubble, chrono: Chrono) {
    var row := ConversationRowOf(db, composerId);
    row.Some? && exists i :: 0 <= i < |db.bubbles| && db.bubbles[i].conversationId == row.value.id
                            && DecodeBubble(db.bubbles[i], chrono) == Some(b)
  }

  /**
   * `get_bubbles` returns exactly the decodable rows that belong to the composer's
   * conversation row, each once, ordered by creation time ascending.
   */
  lemma ListBubblesProperties(db: Tables, composerId: string, chrono: Chrono)
    ensures Sorted(ListBubbles(db, composerId, chrono), BubbleTime, false)
    ensures multiset(ListBubbles(db, composerId, chrono)) == multiset(StoredBubbles(db, composerId, chrono))
    ensures forall b :: b in ListBubbles(db, composerId, chrono) <==> StoredFor(db, composerId, b, chrono)
  {
    var stored := StoredBubbles(db, composerId, chrono);
    SortBySorted(stored, BubbleTime, false);
    SortByPermutes(stored, BubbleTime, false);
    forall b ensures b in ListBubbles(db, composerId, chrono) <==> b in stored {
      assert b in ListBubbles(db, composerId, chrono) <==> b in multiset(ListBubbles(db, composerId, chrono));
    }
    var row := ConversationRowOf(db, composerId);
    if row.Some? {
      forall b ensures b in stored <==> exists i :: 0 <= i < |db.bubbles| && db.bubbles[i].conversationId == row.value.id && DecodeBubble(db.bubbles[i], chrono) == Some(b) {
        RowsOfConversationFrom(db.bubbles, row.value.id, chrono, b);
      }
    }
  }

  /** `row_to_conversation`: the stored columns, with no bubbles yet. */
  function DecodeConversation(row: ConversationRow, chrono: Chrono): Conversation {
    Conversation(row.composerId, row.title,
                 if row.createdAt.Some? then chrono.parseRfc3339(row.createdAt.value) else None,
                 ModelConfig(row.modelName, row.maxMode), row.unifiedMode, [])
  }

  /** The `JOIN workspaces w ON c.workspace_id = w.id WHERE w.name = ?1` condition. */
  predicate InWorkspaceNamed(db: Tables, row: ConversationRow, name: string) {
    row.workspaceId.Some?
    && exists k :: 0 <= k < |db.workspaces| && db.workspaces[k].id == row.workspaceId.value && db.workspaces[k].name == name
  }

  /** The selected conversation rows, decoded, in rowid order. */
  function SelectedConversations(db: Tables, rows: seq<ConversationRow>, workspaceName: Option<string>, chrono: Chrono): seq<Conversation>
    decreases |rows|
  {
    if rows == [] then []
    else
      var last := rows[|rows| - 1];
      SelectedConversations(db, rows[..|rows| - 1], workspaceName, chrono)
      + (if workspaceName.None? || InWorkspaceNamed(db, last, workspaceName.value) then [DecodeConversation(last, chrono)] else [])
  }

  /** The rows `get_conversations` visits: `ORDER BY created_at DESC`, equal times in rowid order. */
  function ListedConversations(db: Tables, workspaceName: Option<string>, chrono: Chrono): seq<Conversation> {
    SortBy(SelectedConversations(db, db.conversations, workspaceName, chrono), ConversationTime, true)
  }

  /** `get_sync_state`: the stored row, times parsed back and the byte count read as `u64`. */
  function ReadSyncState(db: Tables, chrono: Chrono): SyncState {
    var row := db.syncRow;
    SyncState(if row.lastSync.Some? then chrono.parseRfc3339(row.lastSync.value) else None,
              row.lastHash, row.conversationCount, row.messageCount, AsU64(row.storageBytes),
              row.isSyncing, row.lastError)
  }

  /** `update_sync_state`: overwrites every column of the single row. */
  function WriteSyncStateStep(db: Tables, state: SyncState, chrono: Chrono): Step<()> {
    if WriteFails(db) then Step(Err(WRITE_FAILED), db)
    else
      var row := SyncRow(if state.lastSync.Some? then Some(chrono.toRfc3339(state.lastSync.value)) else None,
                         state.lastHash, state.conversationCount, state.messageCount,
                         AsI64(state.storageBytes), state.isSyncing, state.lastError);
      Step(Ok(()), db.(syncRow := row, writesLeft := Spent(db)))
  }

  /** A freshly opened store reads back the default state. */
  lemma DefaultSyncStateRead(writesLeft: Option<nat>, chrono: Chrono)
    ensures ReadSyncState(EmptyTables(writesLeft), chrono) == DEFAULT_SYNC_STATE
  {
  }

  /**
   * Writing a state and reading it back gives the same state, when its time is
   * representable; nothing but the sync row changes.
   */
  lemma SyncStateRoundTrip(db: Tables, state: SyncState, chrono: Chrono)
    requires chrono.Valid()
    requires state.lastSync.Some? ==> chrono.InRange(state.lastSync.value)
    ensures var s := WriteSyncStateStep(db, state, chrono);
      (s.result.Ok? <==> !WriteFails(db))
      && (s.result.Ok? ==> ReadSyncState(s.db, chrono) == state)
      && s.db.conversations == db.conversations && s.db.bubbles == db.bubbles && s.db.workspaces == db.workspaces
  {
    AsI64RoundTrip(state.storageBytes);
  }

  lemma WriteSyncStateValid(db: Tables, state: SyncState, chrono: Chrono)
    requires ValidTables(db)
    ensures ValidTables(WriteSyncStateStep(db, state, chrono).db)
  {
  }

  lemma {:induction false} SelectedMembers(db: Tables, rows: seq<ConversationRow>, workspaceName: Option<string>,
                                           chrono: Chrono, c: Conversation)
    ensures c in SelectedConversations(db, rows, workspaceName, chrono) <==>
      exists i :: 0 <= i < |rows| && (workspaceName.None? || InWorkspaceNamed(db, rows[i], workspaceName.value))
                  && c == DecodeConversation(rows[i], chrono)
    decreases |rows|
  {
    if rows != [] {
      var init := rows[..|rows| - 1];
      SelectedMembers(db, init, workspaceName, chrono, c);
      if exists i :: 0 <= i < |init| && (workspaceName.None? || InWorkspaceNamed(db, init[i], workspaceName.value))
                     && c == DecodeConversation(init[i], chrono) {
        var i :| 0 <= i < |init| && (workspaceName.None? || InWorkspaceNamed(db, init[i], workspaceName.value))
                 && c == DecodeConversation(init[i], chrono);
        assert rows[i] == init[i];
      }
      if exists i :: 0 <= i < |rows| && (workspaceName.None? || InWorkspaceNamed(db, rows[i], workspaceName.value))
                     && c == DecodeConversation(rows[i], chrono) {
        var i :| 0 <= i < |rows| && (workspaceName.None? || InWorkspaceNamed(db, rows[i], workspaceName.value))
                 && c == DecodeConversation(rows[i], chrono);
        if i < |init| {
          assert init[i] == rows[i];
        }
      }
    }
  }

  /** Each listed conversation with the bubbles `get_bubbles` returns for it. */
  function WithBubbles(db: Tables, cs: seq<Conversation>, chrono: Chrono): seq<Conversation>
    decreases |cs|
  {
    if cs == [] then []
    else
      var last := cs[|cs| - 1];
      WithBubbles(db, cs[..|cs| - 1], chrono) + [last.(bubbles := ListBubbles(db, last.composerId, chrono))]
  }

  lemma {:induction false} WithBubblesAt(db: Tables, cs: seq<Conversation>, chrono: Chrono)
    ensures |WithBubbles(db, cs, chrono)| == |cs|
    ensures forall i :: 0 <= i < |cs| ==>
      WithBubbles(db, cs, chrono)[i] == cs[i].(bubbles := ListBubbles(db, cs[i].composerId, chrono))
    decreases |cs|
  {
    if cs != [] {
      WithBubblesAt(db, cs[..|cs| - 1], chrono);
    }
  }

  lemma WithBubblesSnoc(db: Tables, cs: seq<Conversation>, c: Conversation, chrono: Chrono)
    ensures WithBubbles(db, cs + [c], chrono) == WithBubbles(db, cs, chrono) + [c.(bubbles := ListBubbles(db, c.composerId, chrono))]
  {
    assert (cs + [c])[..|cs|] == cs;
  }

  /** `get_conversations`: the listed rows, newest first, each with its bubbles. */
  function ListConversations(db: Tables, workspaceName: Option<string>, chrono: Chrono): seq<Conversation> {
    WithBubbles(db, ListedConversations(db, workspaceName, chrono), chrono)
  }

  /** The listing with the bubbles left out, to compare with the stored rows. */
  function Headers(cs: seq<Conversation>): (r: seq<Conversation>)
    ensures |r| == |cs| && forall i :: 0 <= i < |cs| ==> r[i] == cs[i].(bubbles := [])
  {
    seq(|cs|, i requires 0 <= i < |cs| => cs[i].(bubbles := []))
  }

  lemma HeadersOfDecoded(db: Tables, rows: seq<ConversationRow>, workspaceName: Option<string>, chrono: Chrono, cs: seq<Conversation>)
    requires multiset(cs) == multiset(SelectedConversations(db, rows, workspaceName, chrono))
    ensures Headers(cs) == cs
  {
    forall i | 0 <= i < |cs| ensures cs[i].bubbles == [] {
      assert cs[i] in multiset(cs);
      SelectedMembers(db, rows, workspaceName, chrono, cs[i]);
    }
  }

  /**
   * `get_conversations` lists each selected row once (with a workspace name, only rows in a
   * workspace of that name), newest first, each carrying exactly its `get_bubbles` result.
   */
  lemma ListConversationsProperties(db: Tables, workspaceName: Option<string>, chrono: Chrono)
    ensures var list := ListConversations(db, workspaceName, chrono);
      && Sorted(list, ConversationTime, true)
      && multiset(Headers(list)) == multiset(SelectedConversations(db, db.conversations, workspaceName, chrono))
      && forall i :: 0 <= i < |list| ==> list[i].bubbles == ListBubbles(db, list[i].composerId, chrono)
  {
    var selected := SelectedConversations(db, db.conversations, workspaceName, chrono);
    var listed := ListedConversations(db, workspaceName, chrono);
    var list := ListConversations(db, workspaceName, chrono);
    SortBySorted(selected, ConversationTime, true);
    SortByPermutes(selected, ConversationTime, true);
    WithBubblesAt(db, listed, chrono);
    HeadersOfDecoded(db, db.conversations, workspaceName, chrono, listed);
    assert Headers(list) == listed;
    forall i, j | 0 <= i < j < |list| ensures Before(ConversationTime(list[i]), ConversationTime(list[j]), true) {
      assert ConversationTime(list[i]) == ConversationTime(listed[i]);
      assert ConversationTime(list[j]) == ConversationTime(listed[j]);
    }
  }

  /** Every listed conversation belongs to a stored row, in the named workspace when one is given. */
  lemma ListedConversationOrigin(db: Tables, workspaceName: Option<string>, chrono: Chrono, c: Conversation)
    requires c in Headers(ListConversations(db, workspaceName, chrono))
    ensures exists i :: (0 <= i < |db.conversations| && c == DecodeConversation(db.conversations[i], chrono)
      && (workspaceName.Some? ==> InWorkspaceNamed(db, db.conversations[i], workspaceName.value)))
  {
    ListConversationsProperties(db, workspaceName, chrono);
    var list := Headers(ListConversations(db, workspaceName, chrono));
    assert c in multiset(list);
    SelectedMembers(db, db.conversations, workspaceName, chrono, c);
  }

  // ------------------------------------------------------------- the store

  /** `LocalStorage`: the connection's tables, changed in place by each statement. */
  class LocalStorage {
    const chrono: Chrono
    var workspaces: seq<WorkspaceRow>
    var conversations: seq<ConversationRow>
    var bubbles: seq<BubbleRow>
    var syncRow: SyncRow
    var nextWorkspaceId: int
    var nextConversationId: int
    var nextBubbleId: int
    var writesLeft: Option<nat>

    function Snapshot(): Tables
      reads this
    {
      Tables(workspaces, conversations, bubbles, syncRow, nextWorkspaceId, nextConversationId, nextBubbleId, writesLeft)
    }

    predicate Valid()
      reads this
    {
      ValidTables(Snapshot())
    }

    /** `open` followed by `init_schema` on a new file: empty tables and the default sync row. */
    constructor Open(chrono: Chrono, writesLeft: Option<nat>)
      ensures Snapshot() == EmptyTables(writesLeft) && this.chrono == chrono
      ensures Valid()
    {
      this.chrono := chrono;
      workspaces, conversations, bubbles := [], [], [];
      syncRow := DEFAULT_SYNC_ROW;
      nextWorkspaceId, nextConversationId, nextBubbleId := 1, 1, 1;
      this.writesLeft := writesLeft;
      EmptyTablesValid(writesLeft);
    }

    /** `get_or_create_workspace`. */
    method GetOrCreateWorkspace(info: WorkspaceInfo) returns (r: Result<int>)
      requires Valid()
      modifies this
      ensures Valid()
      ensures Step(r, Snapshot()) == GetOrCreateWorkspaceStep(old(Snapshot()), info)
    {
      var db := Snapshot();
      if info.path.Some? {
        var found := FindWorkspaceByPath(workspaces, info.path.value);
        if found.Some? {
          return Ok(workspaces[found.value].id);
        }
      }
      if writesLeft == Some(0) {
        return Err(WRITE_FAILED);
      }
      var id := nextWorkspaceId;
      workspaces := workspaces + [WorkspaceRow(id, info.name, info.path, info.cursorPath)];
      nextWorkspaceId := id + 1;
      writesLeft := Spent(db);
      r := Ok(id);
      assert Snapshot() == GetOrCreateWorkspaceStep(db, info).db;
      GetOrCreateWorkspaceProperties(db, info);
    }

    /** `upsert_conversation`. */
    method UpsertConversation(conv: Conversation, workspaceId: Option<int>, hash: Option<Fingerprint>, now: int)
      returns (r: Result<int>)
      requires Valid()
      modifies this
      ensures Valid()
      ensures Step(r, Snapshot()) == UpsertConversationStep(old(Snapshot()), conv, workspaceId, hash, now, chrono)
    {
      var db := Snapshot();
      if writesLeft == Some(0) {
        return Err(WRITE_FAILED);
      }
      if workspaceId.Some? && !HasWorkspace(workspaces, workspaceId.value) {
        return Err(FOREIGN_KEY_FAILED);
      }
      var found := FindConversation(conversations, conv.composerId);
      if found.None? {
        var id := nextConversationId;
        var row := NewConversationRow(id, conv, workspaceId, hash, now, chrono);
        conversations := conversations + [row];
        nextConversationId := id + 1;
        writesLeft := Spent(db);
        r := Ok(id);
        assert Snapshot() == db.(conversations := db.conversations + [row], nextConversationId := id + 1, writesLeft := Spent(db));
      } else {
        var i := found.value;
        var id := conversations[i].id;
        var row := ConflictConversationRow(conversations[i], conv, workspaceId, hash, now);
        conversations := conversations[i := row];
        writesLeft := Spent(db);
        r := Ok(id);
        assert Snapshot() == db.(conversations := db.conversations[i := row], writesLeft := Spent(db));
      }
      UpsertConversationValid(db, conv, workspaceId, hash, now, chrono);
    }

    /** `upsert_bubble`. */
    method UpsertBubble(b: Bubble, conversationId: int) returns (r: Result<()>)
      requires Valid()
      modifies this
      ensures Valid()
      ensures Step(r, Snapshot()) == UpsertBubbleStep(old(Snapshot()), b, conversationId, chrono)
    {
      var db := Snapshot();
      if b.thinkingDurationMs.Some? && b.thinkingDurationMs.value > I64_MAX {
        return Err(OUT_OF_RANGE);
      }
      if writesLeft == Some(0) {
        return Err(WRITE_FAILED);
      }
      var found := FindBubble(bubbles, b.bubbleId);
      if found.None? {
        if !HasConversation(conversations, conversationId) {
          return Err(FOREIGN_KEY_FAILED);
        }
        var id := nextBubbleId;
        bubbles := bubbles + [NewBubbleRow(id, b, conversationId, chrono)];
        nextBubbleId := id + 1;
      } else {
        var i := found.value;
        bubbles := bubbles[i := ConflictBubbleRow(bubbles[i], b, chrono)];
      }
      writesLeft := Spent(db);
      r := Ok(());
      assert Snapshot() == UpsertBubbleStep(db, b, conversationId, chrono).db;
      UpsertBubbleValid(db, b, conversationId, chrono);
    }

    /** `get_conversation_hash`. */
    method GetConversationHash(composerId: string) returns (r: Result<Option<Fingerprint>>)
      ensures r == ConversationHash(Snapshot(), composerId)
    {
      var found := FindConversation(conversations, composerId);
      if found.None? {
        return Ok(None);
      }
      var hash := conversations[found.value].contentHash;
      if hash.None? {
        return Err(Database("Invalid column type Null"));
      }
      return Ok(hash);
    }

    /** `get_bubbles`: the query's rows that decode, in its order. */
    method GetBubbles(composerId: string) returns (r: Result<seq<Bubble>>)
      ensures r == Ok(ListBubbles(Snapshot(), composerId, chrono))
    {
      return Ok(ListBubbles(Snapshot(), composerId, chrono));
    }

    /** `get_conversations`: the listed rows, then the bubbles of each. */
    method GetConversations(workspaceName: Option<string>) returns (r: Result<seq<Conversation>>)
      ensures r == Ok(ListConversations(Snapshot(), workspaceName, chrono))
    {
      var rows := ListedConversations(Snapshot(), workspaceName, chrono);
      var out := AttachBubbles(rows);
      return Ok(out);
    }

    /** The loop of `get_conversations`: one `get_bubbles` query per listed row. */
    method AttachBubbles(rows: seq<Conversation>) returns (out: seq<Conversation>)
      ensures out == WithBubbles(Snapshot(), rows, chrono)
    {
      out := [];
      var i := 0;
      while i < |rows|
        invariant 0 <= i <= |rows|
        invariant out == WithBubbles(Snapshot(), rows[..i], chrono)
      {
        var bs := GetBubbles(rows[i].composerId);
        assert rows[..i + 1] == rows[..i] + [rows[i]];
        WithBubblesSnoc(Snapshot(), rows[..i], rows[i], chrono);
        out := out + [rows[i].(bubbles := bs.value)];
        i := i + 1;
      }
      assert rows[..|rows|] == rows;
    }

    /** `get_sync_state`. */
    method GetSyncState() returns (r: Result<SyncState>)
      ensures r == Ok(ReadSyncState(Snapshot(), chrono))
    {
      return Ok(ReadSyncState(Snapshot(), chrono));
    }

    /** `update_sync_state`. */
    method UpdateSyncState(state: SyncState) returns (r: Result<()>)
      requires Valid()
      modifies this
      ensures Valid()
      ensures Step(r, Snapshot()) == WriteSyncStateStep(old(Snapshot()), state, chrono)
    {
      var db := Snapshot();
      if writesLeft == Some(0) {
        return Err(WRITE_FAILED);
      }
      syncRow := SyncRow(if state.lastSync.Some? then Some(chrono.toRfc3339(state.lastSync.value)) else None,
                         state.lastHash, state.conversationCount, state.messageCount,
                         AsI64(state.storageBytes), state.isSyncing, state.lastError);
      writesLeft := Spent(db);
      r := Ok(());
    }

    /** `get_conversation_count`: `SELECT COUNT(*) FROM conversations`. */
    method GetConversationCount() returns (r: Result<nat>)
      ensures r == Ok(|conversations|)
    {
      return Ok(|conversations|);
    }

    /** `get_message_count`: `SELECT COUNT(*) FROM bubbles`. */
    method GetMessageCount() returns (r: Result<nat>)
      ensures r == Ok(|bubbles|)
    {
      return Ok(|bubbles|);
    }
  }
}
