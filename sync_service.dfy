/**
 * The incremental sync (src/application/sync_service.rs): mark the stored state as syncing,
 * extract the conversations of Cursor's global database, write every conversation whose
 * fingerprint changed together with its workspace and bubbles, then store the final counts.
 *
 * Each stage is a function from the local tables to a `Step`, as in `LocalStore`;
 * `SyncService` performs the stages on a `LocalStorage` and is proved to match them.
 */
module SyncService {
  import opened Base
  import opened Errors
  import opened Json
  import opened Text
  import opened Models
  import opened Chrono
  import opened Parser
  import opened Sorting
  import opened SqliteReader
  import opened Extractor
  import opened SyncDomain
  import opened ContentHash
  import opened LocalStore

  // ------------------------------------------------------------ extraction

  /** What `extract_conversations` keeps: every id, no blank bubble, no conversation without bubbles. */
  const SYNC_OPTIONS := ExtractOptions(false, None, 1, false)

  function SyncRules(chrono: Chrono): EntryRules {
    RulesOf(SYNC_OPTIONS, chrono)
  }

  /** `json.get(key).and_then(as_str)`. */
  function StrField(j: Json, key: string): (r: Option<string>)
    ensures r.Some? <==> Get(j, key).Some? && Get(j, key).value.JStr?
  {
    match Get(j, key)
    case Some(JStr(s)) => Some(s)
    case _ => None
  }

  /** The first element of the payload's `workspaceUris` array, when it is a string. */
  function FirstWorkspaceUri(j: Json): (r: Option<string>)
    ensures r.Some? <==> (Get(j, "workspaceUris").Some? && Get(j, "workspaceUris").value.JArr?
      && |Get(j, "workspaceUris").value.items| > 0 && Get(j, "workspaceUris").value.items[0].JStr?)
  {
    match Get(j, "workspaceUris")
    case Some(JArr(items)) => if items != [] && items[0].JStr? then Some(items[0].s) else None
    case _ => None
  }

  /** The workspace a bubble payload names: its first URI, with `workspaceProjectDir` as the Cursor path. */
  function WorkspaceHint(value: Bytes): (r: Option<WorkspaceInfo>)
    ensures r.Some? <==> value.Doc? && FirstWorkspaceUri(value.json).Some?
  {
    if value.Malformed? then None
    else match FirstWorkspaceUri(value.json)
      case None => None
      case Some(uri) => Some(FromUri(uri).(cursorPath := StrField(value.json, "workspaceProjectDir")))
  }

  /** A payload listing two workspaces names the first, with the project directory as its Cursor path. */
  lemma WorkspaceHintExample()
    ensures var payload := Doc(JObj(map[
              "workspaceUris" := JArr([JStr("file:///home/user/projects/my-app"), JStr("file:///tmp/other")]),
              "workspaceProjectDir" := JStr("/home/user/.cursor/my-app")]));
      WorkspaceHint(payload)
      == Some(WorkspaceInfo("my-app", Some("/home/user/projects/my-app"), Some("/home/user/.cursor/my-app")))
  {
    var uris := "workspaceUris";
    var dir := "workspaceProjectDir";
    assert uris != dir by { assert uris[9] != dir[9]; }
    var j := JObj(map[uris := JArr([JStr("file:///home/user/projects/my-app"), JStr("file:///tmp/other")]),
                      dir := JStr("/home/user/.cursor/my-app")]);
    assert Get(j, uris) == Some(JArr([JStr("file:///home/user/projects/my-app"), JStr("file:///tmp/other")]));
    assert FirstWorkspaceUri(j) == Some("file:///home/user/projects/my-app");
    assert StrField(j, dir) == Some("/home/user/.cursor/my-app");
    FromUriExample("file:///home/user/projects/my-app");
  }

  /** The conversation and workspace a bubble entry records: only an included bubble with a hint does. */
  function HintOf(e: RawKvEntry, chrono: Chrono): (r: Option<(string, WorkspaceInfo)>)
    ensures r.Some? ==> IncludedBubble(e, SyncRules(chrono)).Some? && WorkspaceHint(e.value) == Some(r.value.1)
                        && ExtractConversationId(e.key) == Some(r.value.0)
  {
    match IncludedBubble(e, SyncRules(chrono))
    case None => None
    case Some(p) =>
      match WorkspaceHint(e.value)
      case None => None
      case Some(ws) => Some((p.0, ws))
  }

  /** What each entry records, in entry order. */
  function Hints(es: seq<RawKvEntry>, chrono: Chrono): (hs: seq<Option<(string, WorkspaceInfo)>>)
    ensures |hs| == |es| && forall i :: 0 <= i < |es| ==> hs[i] == HintOf(es[i], chrono)
  {
    seq(|es|, i requires 0 <= i < |es| => HintOf(es[i], chrono))
  }

  /** The map recorded hints build: a later hint for a conversation replaces an earlier one. */
  function HintMap(hs: seq<Option<(string, WorkspaceInfo)>>): map<string, WorkspaceInfo>
    decreases |hs|
  {
    if hs == [] then map[]
    else
      var h := hs[|hs| - 1];
      var m := HintMap(hs[..|hs| - 1]);
      if h.Some? then m[h.value.0 := h.value.1] else m
  }

  /** The workspace map after the bubble loop over `es`. */
  function WorkspaceMap(es: seq<RawKvEntry>, chrono: Chrono): map<string, WorkspaceInfo> {
    HintMap(Hints(es, chrono))
  }

  /** Position `i` holds the last hint for conversation `cid`. */
  predicate LastHint(hs: seq<Option<(string, WorkspaceInfo)>>, cid: string, i: int) {
    0 <= i < |hs| && hs[i].Some? && hs[i].value.0 == cid
    && forall j :: i < j < |hs| ==> hs[j].None? || hs[j].value.0 != cid
  }

  lemma {:induction false} HintMapLast(hs: seq<Option<(string, WorkspaceInfo)>>, cid: string)
    ensures cid in HintMap(hs) <==> exists i :: LastHint(hs, cid, i)
    ensures forall i :: LastHint(hs, cid, i) ==> cid in HintMap(hs) && HintMap(hs)[cid] == hs[i].value.1
    decreases |hs|
  {
    if hs != [] {
      var n := |hs| - 1;
      var init := hs[..n];
      HintMapLast(init, cid);
      if hs[n].Some? && hs[n].value.0 == cid {
        assert LastHint(hs, cid, n);
        forall i | LastHint(hs, cid, i) ensures i == n {
        }
      } else {
        forall i ensures LastHint(hs, cid, i) <==> LastHint(init, cid, i) {
          if LastHint(hs, cid, i) {
            assert forall j :: i < j < |init| ==> init[j] == hs[j];
          }
          if LastHint(init, cid, i) {
            assert forall j :: i < j < |init| ==> init[j] == hs[j];
          }
        }
      }
    }
  }

  /**
   * A conversation has a workspace exactly when some included bubble of it names one, and it
   * is the workspace the last such bubble names.
   */
  lemma WorkspaceMapLast(es: seq<RawKvEntry>, chrono: Chrono, cid: string)
    ensures cid in WorkspaceMap(es, chrono) <==> exists i :: LastHint(Hints(es, chrono), cid, i)
    ensures forall i :: LastHint(Hints(es, chrono), cid, i) ==>
      cid in WorkspaceMap(es, chrono) && WorkspaceMap(es, chrono)[cid] == HintOf(es[i], chrono).value.1
  {
    HintMapLast(Hints(es, chrono), cid);
  }

  /** One more bubble entry: its bubble, if included, is attached, and its hint, if any, recorded. */
  lemma SyncBubbleStep(conversations: map<string, Conversation>, es: seq<RawKvEntry>, j: nat, chrono: Chrono)
    requires j < |es|
    ensures var inc := IncludedBubble(es[j], SyncRules(chrono));
      var m := AddBubbles(conversations, Included(es[..j], SyncRules(chrono)));
      var w := WorkspaceMap(es[..j], chrono);
      && AddBubbles(conversations, Included(es[..j + 1], SyncRules(chrono)))
         == (if inc.Some? then AddBubble(m, inc.value.0, inc.value.1) else m)
      && WorkspaceMap(es[..j + 1], chrono)
         == (if inc.Some? && WorkspaceHint(es[j].value).Some? then w[inc.value.0 := WorkspaceHint(es[j].value).value] else w)
  {
    MergeStep(conversations, es, j, SyncRules(chrono));
    WorkspaceMapSnoc(es, j, chrono);
  }

  /** One more entry adds its hint, if any, to the map. */
  lemma WorkspaceMapSnoc(es: seq<RawKvEntry>, j: nat, chrono: Chrono)
    requires j < |es|
    ensures var h := HintOf(es[j], chrono);
      WorkspaceMap(es[..j + 1], chrono)
      == if h.Some? then WorkspaceMap(es[..j], chrono)[h.value.0 := h.value.1] else WorkspaceMap(es[..j], chrono)
  {
    var hs := Hints(es[..j + 1], chrono);
    assert hs[..j] == Hints(es[..j], chrono);
  }

  /** What `extract_conversations` returns for a database file; `order` is the hash map's iteration order. */
  ghost function ExtractionOutcome(file: DbFile, chrono: Chrono, order: seq<string>)
    : Result<(seq<Conversation>, map<string, WorkspaceInfo>)>
  {
    if file.Missing? then Err(OPEN_FAILED)
    else if file.kvTable.None? then Err(NO_KV_TABLE)
    else
      var rows := file.kvTable.value;
      var m := Merged(rows, SyncRules(chrono));
      if TitlePanics(m, 1) || !FinalizesIn(m, order, 1) then Err(SLICE_PANIC)
      else Ok((Extracted(m, order, 1), WorkspaceMap(Select(rows, SqliteReader.BUBBLE_PREFIX), chrono)))
  }

  /** `order` is an iteration order of the merged conversations, whenever the extraction gets that far. */
  ghost predicate IterationOrder(file: DbFile, chrono: Chrono, order: seq<string>) {
    file.Present? && file.kvTable.Some? && !TitlePanics(Merged(file.kvTable.value, SyncRules(chrono)), 1)
    ==> Enumerates(order, Merged(file.kvTable.value, SyncRules(chrono)).Keys)
  }

  /**
   * The conversations `sync` writes are the extractor's with blank bubbles dropped and at least
   * one bubble each: newest first, bubbles in ascending time order, every non-empty one listed.
   */
  lemma SyncExtraction(file: DbFile, chrono: Chrono, order: seq<string>)
    requires IterationOrder(file, chrono, order) && ExtractionOutcome(file, chrono, order).Ok?
    ensures var cs := ExtractionOutcome(file, chrono, order).value.0;
      var m := Merged(file.kvTable.value, SyncRules(chrono));
      && Sorted(cs, ConversationTime, true)
      && (forall c :: c in cs ==> |c.bubbles| >= 1 && Sorted(c.bubbles, BubbleTime, false)
                                  && (forall b :: b in c.bubbles ==> !IsBlank(b.text)))
      && (forall k :: Kept(m, k, 1) ==> exists c :: c in cs && c.composerId == k)
  {
    var rows := file.kvTable.value;
    var m := Merged(rows, SyncRules(chrono));
    MergedConversation(rows, SyncRules(chrono), "");
    ExtractedProperties(m, order, 1);
    forall c | c in Extracted(m, order, 1) ensures forall b :: b in c.bubbles ==> !IsBlank(b.text) {
      ExtractedNotBlank(rows, chrono, order, c);
    }
  }

  /** No extracted conversation holds a blank bubble: the sync's rules drop them. */
  lemma ExtractedNotBlank(rows: seq<Row>, chrono: Chrono, order: seq<string>, c: Conversation)
    requires var m := Merged(rows, SyncRules(chrono));
      Enumerates(order, m.Keys) && !TitlePanics(m, 1)
    requires KeyedById(Merged(rows, SyncRules(chrono)))
    requires FinalizesIn(Merged(rows, SyncRules(chrono)), order, 1)
    requires c in Extracted(Merged(rows, SyncRules(chrono)), order, 1)
    ensures forall b :: b in c.bubbles ==> !IsBlank(b.text)
  {
    var rules := SyncRules(chrono);
    var m := Merged(rows, rules);
    var ps := Included(Select(rows, SqliteReader.BUBBLE_PREFIX), rules);
    ExtractedProperties(m, order, 1);
    IncludedShape(Select(rows, SqliteReader.BUBBLE_PREFIX), rules);
    var k := c.composerId;
    MergedConversation(rows, rules, k);
    FinalizeBubbles(m[k]);
    forall b | b in c.bubbles ensures !IsBlank(b.text) {
      assert b in multiset(m[k].bubbles);
      BubblesForFrom(ps, k, b);
    }
  }

  /** A bubble attached to `cid` came from an included entry. */
  lemma {:induction false} BubblesForFrom(ps: seq<(string, Bubble)>, cid: string, b: Bubble)
    requires b in BubblesFor(ps, cid)
    ensures exists i :: 0 <= i < |ps| && ps[i] == (cid, b)
    decreases |ps|
  {
    var init := ps[..|ps| - 1];
    if b in BubblesFor(init, cid) {
      BubblesForFrom(init, cid, b);
      var i :| 0 <= i < |init| && init[i] == (cid, b);
      assert ps[i] == init[i];
    } else {
      assert ps[|ps| - 1] == (cid, b);
    }
  }

  // ------------------------------------------------------- one conversation

  /** The stored fingerprint of the conversation's row is the conversation's own. */
  predicate HashStored(db: Tables, c: Conversation) {
    ConversationHash(db, c.composerId) == Ok(Some(CalculateHash(c)))
  }

  /** The workspace row id: none without an entry in the map, else `get_or_create_workspace`. */
  function WorkspaceIdStep(db: Tables, hint: Option<WorkspaceInfo>): Step<Option<int>> {
    if hint.None? then Step(Ok(None), db)
    else
      var s := GetOrCreateWorkspaceStep(db, hint.value);
      Step(if s.result.Ok? then Ok(Some(s.result.value)) else Err(s.result.error), s.db)
  }

  /** The bubble loop: each bubble in order, stopping at the first failure. */
  function UpsertBubblesStep(db: Tables, bs: seq<Bubble>, conversationId: int, chrono: Chrono): Step<()>
    decreases |bs|
  {
    if bs == [] then Step(Ok(()), db)
    else
      var s := UpsertBubbleStep(db, bs[0], conversationId, chrono);
      if s.result.Err? then s else UpsertBubblesStep(s.db, bs[1..], conversationId, chrono)
  }

  function HintFor(workspaces: map<string, WorkspaceInfo>, id: string): Option<WorkspaceInfo> {
    if id in workspaces then Some(workspaces[id]) else None
  }

  /** The bubbles of a conversation whose row was just upserted, then `Ok(true)`. */
  function BubbleStage(u: Step<int>, c: Conversation, chrono: Chrono): Step<bool> {
    if u.result.Err? then Step(Err(u.result.error), u.db)
    else
      var b := UpsertBubblesStep(u.db, c.bubbles, u.result.value, chrono);
      Step(if b.result.Err? then Err(b.result.error) else Ok(true), b.db)
  }

  /** Once the workspace id is known: the row with the new hash, then the bubbles. */
  function WriteStage(w: Step<Option<int>>, c: Conversation, now: int, chrono: Chrono): Step<bool> {
    if w.result.Err? then Step(Err(w.result.error), w.db)
    else BubbleStage(UpsertConversationStep(w.db, c, w.result.value, Some(CalculateHash(c)), now, chrono), c, chrono)
  }

  /**
   * One iteration of the loop of `sync`: `Ok(false)` when the conversation is skipped as
   * unchanged, `Ok(true)` when its workspace, row (with the new hash) and bubbles were written.
   * The debug line of a skip prints `&composer_id[..8]`.
   */
  function SyncConversationStep(db: Tables, c: Conversation, hint: Option<WorkspaceInfo>, now: int,
                                chrono: Chrono, logging: Logging): Step<bool> {
    match ConversationHash(db, c.composerId)
    case Err(e) => Step(Err(e), db)
    case Ok(existing) =>
      if existing == Some(CalculateHash(c)) then
        Step(if logging.debug && ShortIdPanics(c.composerId) then Err(SLICE_PANIC) else Ok(false), db)
      else WriteStage(WorkspaceIdStep(db, hint), c, now, chrono)
  }

  /** The workspace step keeps the invariant and touches only the workspaces. */
  lemma WorkspaceIdStepProperties(db: Tables, hint: Option<WorkspaceInfo>)
    requires ValidTables(db)
    ensures var s := WorkspaceIdStep(db, hint);
      && ValidTables(s.db)
      && s.db.conversations == db.conversations && s.db.bubbles == db.bubbles && s.db.syncRow == db.syncRow
      && (hint.None? ==> s == Step(Ok(None), db))
      && (s.result.Ok? && s.result.value.Some? ==> HasWorkspace(s.db.workspaces, s.result.value.value))
  {
    if hint.Some? {
      GetOrCreateWorkspaceProperties(db, hint.value);
    }
  }

  /** The bubble loop keeps the invariant and touches only the bubbles. */
  lemma {:induction false} UpsertBubblesFrame(db: Tables, bs: seq<Bubble>, conversationId: int, chrono: Chrono)
    requires ValidTables(db)
    ensures var s := UpsertBubblesStep(db, bs, conversationId, chrono);
      ValidTables(s.db) && s.db.conversations == db.conversations && s.db.workspaces == db.workspaces
      && s.db.syncRow == db.syncRow
    decreases |bs|
  {
    if bs != [] {
      var s := UpsertBubbleStep(db, bs[0], conversationId, chrono);
      UpsertBubbleOutcome(db, bs[0], conversationId, chrono);
      UpsertBubbleValid(db, bs[0], conversationId, chrono);
      if s.result.Ok? {
        UpsertBubblesFrame(s.db, bs[1..], conversationId, chrono);
      }
    }
  }

  /** Rows may be added at the end, but every row keeps its bubble id. */
  predicate BubbleIdsKept(before: seq<BubbleRow>, after: seq<BubbleRow>) {
    |before| <= |after| && forall i :: 0 <= i < |before| ==> after[i].bubbleId == before[i].bubbleId
  }

  lemma KeptBubbleFound(before: seq<BubbleRow>, after: seq<BubbleRow>, bubbleId: string)
    requires BubbleIdsKept(before, after) && FindBubble(before, bubbleId).Some?
    ensures FindBubble(after, bubbleId).Some?
  {
    var i := FindBubble(before, bubbleId).value;
    assert after[i].bubbleId == bubbleId;
  }

  /** A successful bubble upsert leaves a row with the bubble's id. */
  lemma UpsertBubbleKeepsIds(db: Tables, b: Bubble, conversationId: int, chrono: Chrono)
    ensures var s := UpsertBubbleStep(db, b, conversationId, chrono);
      BubbleIdsKept(db.bubbles, s.db.bubbles) && (s.result.Ok? ==> FindBubble(s.db.bubbles, b.bubbleId).Some?)
  {
    var s := UpsertBubbleStep(db, b, conversationId, chrono);
    if s.result.Ok? {
      var f := FindBubble(db.bubbles, b.bubbleId);
      if f.Some? {
        assert s.db.bubbles[f.value].bubbleId == b.bubbleId;
      } else {
        assert s.db.bubbles[|db.bubbles|].bubbleId == b.bubbleId;
      }
    }
  }

  /** After the bubble loop succeeds, every bubble has a row with its id. */
  lemma {:induction false} UpsertBubblesStored(db: Tables, bs: seq<Bubble>, conversationId: int, chrono: Chrono)
    ensures var s := UpsertBubblesStep(db, bs, conversationId, chrono);
      && BubbleIdsKept(db.bubbles, s.db.bubbles)
      && (s.result.Ok? ==> forall k :: 0 <= k < |bs| ==> FindBubble(s.db.bubbles, bs[k].bubbleId).Some?)
    decreases |bs|
  {
    if bs != [] {
      var s1 := UpsertBubbleStep(db, bs[0], conversationId, chrono);
      UpsertBubbleKeepsIds(db, bs[0], conversationId, chrono);
      if s1.result.Ok? {
        var s := UpsertBubblesStep(s1.db, bs[1..], conversationId, chrono);
        UpsertBubblesStored(s1.db, bs[1..], conversationId, chrono);
        if s.result.Ok? {
          forall k | 0 <= k < |bs| ensures FindBubble(s.db.bubbles, bs[k].bubbleId).Some? {
            if k == 0 {
              KeptBubbleFound(s1.db.bubbles, s.db.bubbles, bs[0].bubbleId);
            } else {
              assert bs[k] == bs[1..][k - 1];
            }
          }
        }
      }
    }
  }

  /** The bubble stage keeps the invariant, touches only the bubbles, and on success stored every bubble. */
  lemma BubbleStageProperties(u: Step<int>, c: Conversation, chrono: Chrono)
    requires ValidTables(u.db)
    ensures var s := BubbleStage(u, c, chrono);
      && ValidTables(s.db)
      && s.db.conversations == u.db.conversations && s.db.workspaces == u.db.workspaces && s.db.syncRow == u.db.syncRow
      && (s.result.Ok? ==> forall k :: 0 <= k < |c.bubbles| ==> FindBubble(s.db.bubbles, c.bubbles[k].bubbleId).Some?)
  {
    if u.result.Ok? {
      UpsertBubblesFrame(u.db, c.bubbles, u.result.value, chrono);
      UpsertBubblesStored(u.db, c.bubbles, u.result.value, chrono);
    }
  }

  /** The write stage keeps the invariant, the workspaces it is given and the sync row. */
  lemma WriteStageFrame(w: Step<Option<int>>, c: Conversation, now: int, chrono: Chrono)
    requires ValidTables(w.db)
    ensures var s := WriteStage(w, c, now, chrono);
      ValidTables(s.db) && s.db.syncRow == w.db.syncRow && s.db.workspaces == w.db.workspaces
  {
    if w.result.Ok? {
      var hash := CalculateHash(c);
      var u := UpsertConversationStep(w.db, c, w.result.value, Some(hash), now, chrono);
      UpsertConversationValid(w.db, c, w.result.value, Some(hash), now, chrono);
      UpsertConversationOutcome(w.db, c, w.result.value, Some(hash), now, chrono);
      BubbleStageProperties(u, c, chrono);
    }
  }

  /**
   * The write stage succeeds only with `Ok(true)`, having stored the new hash and every
   * bubble; a failure has either left the conversation's row as it was, or already stored
   * the new hash.
   */
  lemma WriteStageProperties(w: Step<Option<int>>, c: Conversation, now: int, chrono: Chrono)
    requires ValidTables(w.db)
    ensures var s := WriteStage(w, c, now, chrono);
      && (s.result.Ok? ==> s.result.value && HashStored(s.db, c)
                           && forall k :: 0 <= k < |c.bubbles| ==> FindBubble(s.db.bubbles, c.bubbles[k].bubbleId).Some?)
      && (s.result.Err? ==> ConversationRowOf(s.db, c.composerId) == ConversationRowOf(w.db, c.composerId) || HashStored(s.db, c))
  {
    if w.result.Ok? {
      var u := UpsertConversationStep(w.db, c, w.result.value, Some(CalculateHash(c)), now, chrono);
      assert WriteStage(w, c, now, chrono) == BubbleStage(u, c, chrono);
      RowStageStores(w.db, c, w.result.value, now, chrono);
      if u.result.Ok? {
        var s := BubbleStage(u, c, chrono);
        BubbleStageProperties(u, c, chrono);
        assert ConversationRowOf(s.db, c.composerId) == ConversationRowOf(u.db, c.composerId);
        HashStoredFrame(u.db, s.db, c);
      }
    }
  }

  /** Upserting the row with the conversation's fingerprint stores it, or fails without a change. */
  lemma RowStageStores(db: Tables, c: Conversation, workspaceId: Option<int>, now: int, chrono: Chrono)
    requires ValidTables(db)
    ensures var u := UpsertConversationStep(db, c, workspaceId, Some(CalculateHash(c)), now, chrono);
      && (u.result.Ok? ==> ValidTables(u.db) && HashStored(u.db, c))
      && (u.result.Err? ==> u.db == db)
  {
    var hash := CalculateHash(c);
    UpsertConversationValid(db, c, workspaceId, Some(hash), now, chrono);
    UpsertConversationOutcome(db, c, workspaceId, Some(hash), now, chrono);
    UpsertConversationRow(db, c, workspaceId, Some(hash), now, chrono);
  }

  /** The write stage leaves every other composer's row as it was. */
  lemma WriteStageOthers(w: Step<Option<int>>, c: Conversation, now: int, chrono: Chrono, other: string)
    requires ValidTables(w.db) && other != c.composerId
    ensures ConversationRowOf(WriteStage(w, c, now, chrono).db, other) == ConversationRowOf(w.db, other)
  {
    if w.result.Ok? {
      var hash := CalculateHash(c);
      var u := UpsertConversationStep(w.db, c, w.result.value, Some(hash), now, chrono);
      UpsertConversationValid(w.db, c, w.result.value, Some(hash), now, chrono);
      UpsertConversationOthers(w.db, c, w.result.value, Some(hash), now, chrono, other);
      BubbleStageProperties(u, c, chrono);
      assert ConversationRowOf(BubbleStage(u, c, chrono).db, other) == ConversationRowOf(u.db, other);
    }
  }

  /** A conversation step keeps the invariant and never touches the sync row. */
  lemma SyncConversationFrame(db: Tables, c: Conversation, hint: Option<WorkspaceInfo>, now: int,
                              chrono: Chrono, logging: Logging)
    requires ValidTables(db)
    ensures var s := SyncConversationStep(db, c, hint, now, chrono, logging);
      ValidTables(s.db) && s.db.syncRow == db.syncRow
  {
    WorkspaceIdStepProperties(db, hint);
    WriteStageFrame(WorkspaceIdStep(db, hint), c, now, chrono);
  }

  /**
   * Skip-if-unchanged: with the debug slice not panicking, the conversation is skipped, with
   * no writes, exactly when its stored hash equals its fingerprint. With debug logging on, a
   * skipped conversation whose id is shorter than 8 bytes panics.
   */
  lemma SyncConversationSkip(db: Tables, c: Conversation, hint: Option<WorkspaceInfo>, now: int,
                             chrono: Chrono, logging: Logging)
    ensures var s := SyncConversationStep(db, c, hint, now, chrono, logging);
      && (s.result == Ok(false) ==> s.db == db && HashStored(db, c))
      && (!(logging.debug && ShortIdPanics(c.composerId)) ==> (s == Step(Ok(false), db) <==> HashStored(db, c)))
      && (HashStored(db, c) && logging.debug && ShortIdPanics(c.composerId) ==> s == Step(Err(SLICE_PANIC), db))
  {
  }

  /**
   * A changed conversation that is written ends with its row holding the new hash and a row
   * for each of its bubbles; a workspace is written only when the map has one for it.
   */
  lemma SyncConversationWritten(db: Tables, c: Conversation, hint: Option<WorkspaceInfo>, now: int,
                                chrono: Chrono, logging: Logging)
    requires ValidTables(db)
    ensures var s := SyncConversationStep(db, c, hint, now, chrono, logging);
      && (s.result == Ok(true) ==>
            HashStored(s.db, c) && forall k :: 0 <= k < |c.bubbles| ==> FindBubble(s.db.bubbles, c.bubbles[k].bubbleId).Some?)
      && (hint.None? ==> s.db.workspaces == db.workspaces)
  {
    WorkspaceIdStepProperties(db, hint);
    WriteStageFrame(WorkspaceIdStep(db, hint), c, now, chrono);
    WriteStageProperties(WorkspaceIdStep(db, hint), c, now, chrono);
  }

  /**
   * A conversation step leaves every other composer's row as it was, so it keeps their hashes.
   */
  lemma SyncConversationOtherRows(db: Tables, c: Conversation, hint: Option<WorkspaceInfo>, now: int,
                                  chrono: Chrono, logging: Logging, other: string)
    requires ValidTables(db) && other != c.composerId
    ensures ConversationRowOf(SyncConversationStep(db, c, hint, now, chrono, logging).db, other)
         == ConversationRowOf(db, other)
  {
    var w := WorkspaceIdStep(db, hint);
    WorkspaceIdStepProperties(db, hint);
    assert ConversationRowOf(w.db, other) == ConversationRowOf(db, other);
    WriteStageOthers(w, c, now, chrono, other);
  }

  /**
   * The hash is written before the bubbles: a failed step has either left the conversation's
   * row as it was, or already stored the new hash, in which case the next sync skips the
   * conversation even though some of its bubbles were never written.
   */
  lemma InterruptedSyncKeepsHash(db: Tables, c: Conversation, hint: Option<WorkspaceInfo>, now: int,
                                 chrono: Chrono, logging: Logging)
    requires ValidTables(db)
    ensures var s := SyncConversationStep(db, c, hint, now, chrono, logging);
      s.result.Err? ==> ConversationRowOf(s.db, c.composerId) == ConversationRowOf(db, c.composerId) || HashStored(s.db, c)
  {
    var w := WorkspaceIdStep(db, hint);
    WorkspaceIdStepProperties(db, hint);
    assert ConversationRowOf(w.db, c.composerId) == ConversationRowOf(db, c.composerId);
    WriteStageProperties(w, c, now, chrono);
  }

  /**
   * The case the source leaves open: a store with room for one write syncs a one-bubble
   * conversation, the bubble write fails after the row and hash are stored, and the next
   * sync, with the disk working again, skips the conversation, whose bubble stays missing.
   */
  lemma InterruptedSyncExample(chrono: Chrono)
    ensures var b := Bubble("bubble-1", User, "hello", None, None, None, TokenCount(0, 0), false);
      var c := Conversation("composer-1", "hello", None, DEFAULT_MODEL_CONFIG, "", [b]);
      var first := SyncConversationStep(EmptyTables(Some(1)), c, None, 0, chrono, Logging(false, false));
      var healed := first.db.(writesLeft := None);
      && first.result == Err(WRITE_FAILED)
      && StoredBubbles(healed, c.composerId, chrono) == []
      && SyncConversationStep(healed, c, None, 1, chrono, Logging(false, false)) == Step(Ok(false), healed)
  {
    var b := Bubble("bubble-1", User, "hello", None, None, None, TokenCount(0, 0), false);
    var c := Conversation("composer-1", "hello", None, DEFAULT_MODEL_CONFIG, "", [b]);
    var db := EmptyTables(Some(1));
    var u := UpsertConversationStep(db, c, None, Some(CalculateHash(c)), 0, chrono);
    assert u.result == Ok(1);
    assert u.db.conversations == [NewConversationRow(1, c, None, Some(CalculateHash(c)), 0, chrono)];
    assert UpsertBubblesStep(u.db, c.bubbles, 1, chrono) == Step(Err(WRITE_FAILED), u.db);
    var first := SyncConversationStep(db, c, None, 0, chrono, Logging(false, false));
    assert first.db == u.db;
    var healed := first.db.(writesLeft := None);
    assert FindConversation(healed.conversations, c.composerId) == Some(0);
  }

  // ------------------------------------------------------- the whole loop

  /** The loop of `sync` over the extracted conversations, stopping at the first failure. */
  function SyncAllStep(db: Tables, cs: seq<Conversation>, workspaces: map<string, WorkspaceInfo>, now: int,
                       chrono: Chrono, logging: Logging): Step<()>
    decreases |cs|
  {
    if cs == [] then Step(Ok(()), db)
    else
      var s := SyncConversationStep(db, cs[0], HintFor(workspaces, cs[0].composerId), now, chrono, logging);
      if s.result.Err? then Step(Err(s.result.error), s.db)
      else SyncAllStep(s.db, cs[1..], workspaces, now, chrono, logging)
  }

  /** Conversations listed under the same id are the same conversation. */
  predicate IdsDetermine(cs: seq<Conversation>) {
    forall i, j :: 0 <= i < |cs| && 0 <= j < |cs| && cs[i].composerId == cs[j].composerId ==> cs[i] == cs[j]
  }

  /** Logging never slices a short id among `cs`. */
  predicate SafeLogging(logging: Logging, cs: seq<Conversation>) {
    logging.debug ==> forall i :: 0 <= i < |cs| ==> !ShortIdPanics(cs[i].composerId)
  }

  lemma HashStoredFrame(db: Tables, db': Tables, c: Conversation)
    requires ConversationRowOf(db', c.composerId) == ConversationRowOf(db, c.composerId)
    ensures HashStored(db', c) <==> HashStored(db, c)
  {
  }

  /** The loop keeps the invariant and never touches the sync row. */
  lemma {:induction false} SyncAllFrame(db: Tables, cs: seq<Conversation>, workspaces: map<string, WorkspaceInfo>,
                                        now: int, chrono: Chrono, logging: Logging)
    requires ValidTables(db)
    ensures var s := SyncAllStep(db, cs, workspaces, now, chrono, logging);
      ValidTables(s.db) && s.db.syncRow == db.syncRow
    decreases |cs|
  {
    if cs != [] {
      var s := SyncConversationStep(db, cs[0], HintFor(workspaces, cs[0].composerId), now, chrono, logging);
      SyncConversationFrame(db, cs[0], HintFor(workspaces, cs[0].composerId), now, chrono, logging);
      if s.result.Ok? {
        SyncAllFrame(s.db, cs[1..], workspaces, now, chrono, logging);
      }
    }
  }

  /** A stored hash survives the loop over conversations that, under its id, are the same conversation. */
  lemma {:induction false} SyncAllKeepsHash(db: Tables, cs: seq<Conversation>, workspaces: map<string, WorkspaceInfo>,
                                            now: int, chrono: Chrono, logging: Logging, c: Conversation)
    requires ValidTables(db) && HashStored(db, c)
    requires forall i :: 0 <= i < |cs| && cs[i].composerId == c.composerId ==> cs[i] == c
    ensures HashStored(SyncAllStep(db, cs, workspaces, now, chrono, logging).db, c)
    decreases |cs|
  {
    if cs != [] {
      var d := cs[0];
      var hint := HintFor(workspaces, d.composerId);
      var s := SyncConversationStep(db, d, hint, now, chrono, logging);
      SyncConversationFrame(db, d, hint, now, chrono, logging);
      if d.composerId != c.composerId {
        SyncConversationOtherRows(db, d, hint, now, chrono, logging, c.composerId);
        HashStoredFrame(db, s.db, c);
      } else {
        SyncConversationSkip(db, d, hint, now, chrono, logging);
        SyncConversationWritten(db, d, hint, now, chrono, logging);
        InterruptedSyncKeepsHash(db, d, hint, now, chrono, logging);
        if ConversationRowOf(s.db, c.composerId) == ConversationRowOf(db, c.composerId) {
          HashStoredFrame(db, s.db, c);
        }
      }
      if s.result.Ok? {
        forall i | 0 <= i < |cs[1..]| && cs[1..][i].composerId == c.composerId ensures cs[1..][i] == c {
          assert cs[1..][i] == cs[i + 1];
        }
        SyncAllKeepsHash(s.db, cs[1..], workspaces, now, chrono, logging, c);
      }
    }
  }

  /** The rest of a list whose ids determine its conversations: the same holds, and agrees with the head. */
  lemma IdsDetermineTail(cs: seq<Conversation>)
    requires cs != [] && IdsDetermine(cs)
    ensures IdsDetermine(cs[1..])
    ensures forall i :: 0 <= i < |cs[1..]| && cs[1..][i].composerId == cs[0].composerId ==> cs[1..][i] == cs[0]
  {
    var rest := cs[1..];
    forall i, j | 0 <= i < |rest| && 0 <= j < |rest| && rest[i].composerId == rest[j].composerId
      ensures rest[i] == rest[j]
    {
      assert rest[i] == cs[i + 1] && rest[j] == cs[j + 1];
    }
    forall i | 0 <= i < |rest| && rest[i].composerId == cs[0].composerId ensures rest[i] == cs[0] {
      assert rest[i] == cs[i + 1];
    }
  }

  /** The first conversation a successful step visits has its hash stored afterwards. */
  lemma SyncConversationStores(db: Tables, c: Conversation, hint: Option<WorkspaceInfo>, now: int,
                               chrono: Chrono, logging: Logging)
    requires ValidTables(db)
    ensures var s := SyncConversationStep(db, c, hint, now, chrono, logging);
      s.result.Ok? ==> HashStored(s.db, c)
  {
    SyncConversationSkip(db, c, hint, now, chrono, logging);
    SyncConversationWritten(db, c, hint, now, chrono, logging);
  }

  /** After the loop succeeds, every conversation it visited has its hash stored. */
  lemma {:induction false} SyncAllStores(db: Tables, cs: seq<Conversation>, workspaces: map<string, WorkspaceInfo>,
                                         now: int, chrono: Chrono, logging: Logging)
    requires ValidTables(db) && IdsDetermine(cs)
    ensures var s := SyncAllStep(db, cs, workspaces, now, chrono, logging);
      s.result.Ok? ==> forall i :: 0 <= i < |cs| ==> HashStored(s.db, cs[i])
    decreases |cs|
  {
    if cs != [] {
      var hint := HintFor(workspaces, cs[0].composerId);
      var s1 := SyncConversationStep(db, cs[0], hint, now, chrono, logging);
      if s1.result.Ok? {
        SyncConversationFrame(db, cs[0], hint, now, chrono, logging);
        SyncConversationStores(db, cs[0], hint, now, chrono, logging);
        var rest := cs[1..];
        IdsDetermineTail(cs);
        SyncAllStores(s1.db, rest, workspaces, now, chrono, logging);
        SyncAllKeepsHash(s1.db, rest, workspaces, now, chrono, logging, cs[0]);
        var s := SyncAllStep(s1.db, rest, workspaces, now, chrono, logging);
        assert SyncAllStep(db, cs, workspaces, now, chrono, logging) == s;
        if s.result.Ok? {
          StoredCons(s.db, cs);
        }
      }
    }
  }

  lemma StoredCons(db: Tables, cs: seq<Conversation>)
    requires cs != [] && HashStored(db, cs[0]) && forall i :: 0 <= i < |cs[1..]| ==> HashStored(db, cs[1..][i])
    ensures forall i :: 0 <= i < |cs| ==> HashStored(db, cs[i])
  {
    forall i | 0 < i < |cs| ensures HashStored(db, cs[i]) {
      assert cs[i] == cs[1..][i - 1];
    }
  }

  /** With every hash stored, the loop skips every conversation and writes nothing. */
  lemma {:induction false} SyncAllSkips(db: Tables, cs: seq<Conversation>, workspaces: map<string, WorkspaceInfo>,
                                        now: int, chrono: Chrono, logging: Logging)
    requires SafeLogging(logging, cs)
    requires forall i :: 0 <= i < |cs| ==> HashStored(db, cs[i])
    ensures SyncAllStep(db, cs, workspaces, now, chrono, logging) == Step(Ok(()), db)
    decreases |cs|
  {
    if cs != [] {
      SyncConversationSkip(db, cs[0], HintFor(workspaces, cs[0].composerId), now, chrono, logging);
      assert forall i :: 0 <= i < |cs[1..]| ==> cs[1..][i] == cs[i + 1];
      SyncAllSkips(db, cs[1..], workspaces, now, chrono, logging);
    }
  }

  /**
   * Idempotence of the loop: after it succeeds, running it again over any of the same
   * conversations, in any order and with any workspaces, writes nothing.
   */
  lemma SyncAllIdempotent(db: Tables, cs: seq<Conversation>, cs2: seq<Conversation>,
                          workspaces: map<string, WorkspaceInfo>, workspaces2: map<string, WorkspaceInfo>,
                          now: int, now2: int, chrono: Chrono, logging: Logging)
    requires ValidTables(db) && IdsDetermine(cs) && SafeLogging(logging, cs2)
    requires forall c :: c in cs2 ==> c in cs
    ensures var s := SyncAllStep(db, cs, workspaces, now, chrono, logging);
      s.result.Ok? ==> SyncAllStep(s.db, cs2, workspaces2, now2, chrono, logging) == Step(Ok(()), s.db)
  {
    var s := SyncAllStep(db, cs, workspaces, now, chrono, logging);
    SyncAllStores(db, cs, workspaces, now, chrono, logging);
    if s.result.Ok? {
      forall i | 0 <= i < |cs2| ensures HashStored(s.db, cs2[i]) {
        assert cs2[i] in cs;
      }
      SyncAllSkips(s.db, cs2, workspaces2, now2, chrono, logging);
    }
  }

  // ------------------------------------------------------------- the sync

  /** The state `sync` stores at the end: the time, the table sizes and the file size; idle and without error. */
  function FinalState(db: Tables, now: int, storageBytes: U64): SyncState {
    SyncState(Some(now), None, |db.conversations|, |db.bubbles|, storageBytes, false, None)
  }

  /** The counts, the storage size, then `update_sync_state`. */
  function FinishStep(db: Tables, storageSize: Result<U64>, now: int, chrono: Chrono): Step<SyncState> {
    if storageSize.Err? then Step(Err(storageSize.error), db)
    else
      var state := FinalState(db, now, storageSize.value);
      var w := WriteSyncStateStep(db, state, chrono);
      Step(if w.result.Err? then Err(w.result.error) else Ok(state), w.db)
  }

  /** The state stored before anything else: the current one, marked as syncing. */
  function MarkStep(db: Tables, chrono: Chrono): Step<()> {
    WriteSyncStateStep(db, Syncing(ReadSyncState(db, chrono)), chrono)
  }

  /**
   * `sync`: `databases` is what locating Cursor's databases produced, `files` the database
   * files by path, `storageSize` what reading the store's file size produced, `now` the clock.
   */
  ghost function SyncOutcome(db: Tables, databases: Result<seq<string>>, files: map<string, DbFile>,
                             storageSize: Result<U64>, now: int, chrono: Chrono, logging: Logging,
                             order: seq<string>): Step<SyncState>
  {
    var marked := MarkStep(db, chrono);
    if marked.result.Err? then Step(Err(marked.result.error), marked.db)
    else if databases.Err? then Step(Err(databases.error), marked.db)
    else if FindGlobalDb(databases.value).None? then Step(Err(GLOBAL_NOT_FOUND), marked.db)
    else
      var extracted := ExtractionOutcome(FileAt(files, FindGlobalDb(databases.value).value), chrono, order);
      if extracted.Err? then Step(Err(extracted.error), marked.db)
      else
        SyncAndFinishStep(marked.db, extracted.value.0, extracted.value.1, storageSize, now, chrono, logging)
  }

  /** The loop over the extracted conversations, then the final state. */
  function SyncAndFinishStep(db: Tables, cs: seq<Conversation>, workspaces: map<string, WorkspaceInfo>,
                             storageSize: Result<U64>, now: int, chrono: Chrono, logging: Logging): Step<SyncState> {
    var synced := SyncAllStep(db, cs, workspaces, now, chrono, logging);
    if synced.result.Err? then Step(Err(synced.result.error), synced.db)
    else FinishStep(synced.db, storageSize, now, chrono)
  }

  /** The database file the sync reads, when the mark succeeds and a global database is listed. */
  ghost predicate ReadsFile(db: Tables, databases: Result<seq<string>>, files: map<string, DbFile>, file: DbFile) {
    !WriteFails(db) && databases.Ok? && FindGlobalDb(databases.value).Some?
    && file == FileAt(files, FindGlobalDb(databases.value).value)
  }

  /**
   * The syncing flag is stored first: a failed mark changes nothing, and any later failure
   * propagates without clearing the flag, so the stored state still says a sync is running.
   */
  lemma SyncErrorLeavesSyncing(db: Tables, databases: Result<seq<string>>, files: map<string, DbFile>,
                               storageSize: Result<U64>, now: int, chrono: Chrono, logging: Logging,
                               order: seq<string>)
    requires ValidTables(db)
    ensures var s := SyncOutcome(db, databases, files, storageSize, now, chrono, logging, order);
      && (WriteFails(db) ==> s == Step(Err(WRITE_FAILED), db))
      && (!WriteFails(db) ==> ReadSyncState(MarkStep(db, chrono).db, chrono).isSyncing)
      && (!WriteFails(db) && s.result.Err? ==> ReadSyncState(s.db, chrono).isSyncing)
  {
    if !WriteFails(db) {
      SyncErrorKeepsMark(db, databases, files, storageSize, now, chrono, logging, order);
    }
  }

  /** After a successful mark, a failed sync leaves the sync row the mark wrote. */
  lemma SyncErrorKeepsMark(db: Tables, databases: Result<seq<string>>, files: map<string, DbFile>,
                           storageSize: Result<U64>, now: int, chrono: Chrono, logging: Logging,
                           order: seq<string>)
    requires ValidTables(db) && !WriteFails(db)
    ensures var s := SyncOutcome(db, databases, files, storageSize, now, chrono, logging, order);
      s.result.Err? ==> s.db.syncRow == MarkStep(db, chrono).db.syncRow
  {
    var marked := MarkStep(db, chrono);
    WriteSyncStateValid(db, Syncing(ReadSyncState(db, chrono)), chrono);
    if databases.Ok? && FindGlobalDb(databases.value).Some? {
      var extracted := ExtractionOutcome(FileAt(files, FindGlobalDb(databases.value).value), chrono, order);
      if extracted.Ok? {
        SyncAndFinishFailure(marked.db, extracted.value.0, extracted.value.1, storageSize, now, chrono, logging);
      }
    }
  }

  /** A failure in the loop or the final write leaves the sync row as it was. */
  lemma SyncAndFinishFailure(db: Tables, cs: seq<Conversation>, workspaces: map<string, WorkspaceInfo>,
                             storageSize: Result<U64>, now: int, chrono: Chrono, logging: Logging)
    requires ValidTables(db)
    ensures var s := SyncAndFinishStep(db, cs, workspaces, storageSize, now, chrono, logging);
      s.result.Err? ==> s.db.syncRow == db.syncRow
  {
    SyncAllFrame(db, cs, workspaces, now, chrono, logging);
  }

  /**
   * A successful sync returns the state it stored: not syncing, no error, the time of the
   * sync, the file size, and counts equal to the sizes of the stored tables. With a valid date
   * library and a representable time, reading the state back gives the same state.
   */
  lemma SyncSuccessState(db: Tables, databases: Result<seq<string>>, files: map<string, DbFile>,
                         storageSize: Result<U64>, now: int, chrono: Chrono, logging: Logging,
                         order: seq<string>)
    requires ValidTables(db)
    ensures var s := SyncOutcome(db, databases, files, storageSize, now, chrono, logging, order);
      s.result.Ok? ==>
        && storageSize.Ok?
        && s.result.value == SyncState(Some(now), None, |s.db.conversations|, |s.db.bubbles|, storageSize.value, false, None)
        && (chrono.Valid() && chrono.InRange(now) ==> ReadSyncState(s.db, chrono) == s.result.value)
  {
    var s := SyncOutcome(db, databases, files, storageSize, now, chrono, logging, order);
    if s.result.Ok? {
      var marked := MarkStep(db, chrono);
      var extracted := ExtractionOutcome(FileAt(files, FindGlobalDb(databases.value).value), chrono, order);
      var synced := SyncAllStep(marked.db, extracted.value.0, extracted.value.1, now, chrono, logging);
      var state := FinalState(synced.db, now, storageSize.value);
      assert s.result.value == state;
      if chrono.Valid() && chrono.InRange(now) {
        SyncStateRoundTrip(synced.db, state, chrono);
      }
    }
  }

  /**
   * Whatever the hash map's order, the extraction lists each conversation under its id once,
   * and two orders list the same conversations.
   */
  lemma ExtractionStable(file: DbFile, chrono: Chrono, order: seq<string>, order2: seq<string>)
    requires IterationOrder(file, chrono, order) && IterationOrder(file, chrono, order2)
    requires ExtractionOutcome(file, chrono, order).Ok?
    ensures IdsDetermine(ExtractionOutcome(file, chrono, order).value.0)
    ensures ExtractionOutcome(file, chrono, order2).Ok?
    ensures forall c :: c in ExtractionOutcome(file, chrono, order2).value.0 ==> c in ExtractionOutcome(file, chrono, order).value.0
  {
    var m := Merged(file.kvTable.value, SyncRules(chrono));
    MergedConversation(file.kvTable.value, SyncRules(chrono), "");
    ExtractedProperties(m, order, 1);
    ExtractedProperties(m, order2, 1);
    var cs := Extracted(m, order, 1);
    forall c | c in Extracted(m, order2, 1) ensures c in cs {
      var c' :| c' in cs && c'.composerId == c.composerId;
    }
  }

  /**
   * After a successful sync, every conversation the extraction listed has its fingerprint
   * stored in its row.
   */
  lemma SyncStoresHashes(db: Tables, databases: Result<seq<string>>, files: map<string, DbFile>,
                         storageSize: Result<U64>, now: int, chrono: Chrono, logging: Logging,
                         order: seq<string>, file: DbFile)
    requires ValidTables(db) && ReadsFile(db, databases, files, file) && IterationOrder(file, chrono, order)
    ensures var s := SyncOutcome(db, databases, files, storageSize, now, chrono, logging, order);
      s.result.Ok? ==>
        && ExtractionOutcome(file, chrono, order).Ok? && ValidTables(s.db)
        && forall c :: c in ExtractionOutcome(file, chrono, order).value.0 ==> HashStored(s.db, c)
  {
    var s := SyncOutcome(db, databases, files, storageSize, now, chrono, logging, order);
    var extracted := ExtractionOutcome(file, chrono, order);
    if s.result.Ok? {
      var marked := MarkStep(db, chrono);
      WriteSyncStateValid(db, Syncing(ReadSyncState(db, chrono)), chrono);
      ExtractionStable(file, chrono, order, order);
      SyncAndFinishStores(marked.db, extracted.value.0, extracted.value.1, storageSize, now, chrono, logging);
    }
  }

  /** A successful loop and final write leave every visited conversation's fingerprint stored. */
  lemma SyncAndFinishStores(db: Tables, cs: seq<Conversation>, workspaces: map<string, WorkspaceInfo>,
                            storageSize: Result<U64>, now: int, chrono: Chrono, logging: Logging)
    requires ValidTables(db) && IdsDetermine(cs)
    ensures var s := SyncAndFinishStep(db, cs, workspaces, storageSize, now, chrono, logging);
      s.result.Ok? ==> ValidTables(s.db) && forall c :: c in cs ==> HashStored(s.db, c)
  {
    var s := SyncAndFinishStep(db, cs, workspaces, storageSize, now, chrono, logging);
    if s.result.Ok? {
      var synced := SyncAllStep(db, cs, workspaces, now, chrono, logging);
      SyncAllFrame(db, cs, workspaces, now, chrono, logging);
      SyncAllStores(db, cs, workspaces, now, chrono, logging);
      WriteSyncStateValid(synced.db, FinalState(synced.db, now, storageSize.value), chrono);
      forall c | c in cs ensures HashStored(s.db, c) {
        HashStoredFrame(synced.db, s.db, c);
      }
    }
  }

  /**
   * A sync whose extracted conversations all have their fingerprints stored writes no
   * conversation, bubble or workspace, when the debug line does not panic.
   */
  lemma SyncOfStoredWritesNothing(db: Tables, databases: Result<seq<string>>, files: map<string, DbFile>,
                                  storageSize: Result<U64>, now: int, chrono: Chrono, logging: Logging,
                                  order: seq<string>, file: DbFile)
    requires databases.Ok? && FindGlobalDb(databases.value).Some?
    requires file == FileAt(files, FindGlobalDb(databases.value).value)
    requires ExtractionOutcome(file, chrono, order).Ok? ==>
      SafeLogging(logging, ExtractionOutcome(file, chrono, order).value.0)
      && forall c :: c in ExtractionOutcome(file, chrono, order).value.0 ==> HashStored(db, c)
    ensures var t := SyncOutcome(db, databases, files, storageSize, now, chrono, logging, order);
      t.db.conversations == db.conversations && t.db.bubbles == db.bubbles && t.db.workspaces == db.workspaces
  {
    var marked := MarkStep(db, chrono);
    var extracted := ExtractionOutcome(file, chrono, order);
    if !WriteFails(db) && extracted.Ok? {
      var cs := extracted.value.0;
      forall i | 0 <= i < |cs| ensures HashStored(marked.db, cs[i]) {
        assert cs[i] in cs;
        HashStoredFrame(db, marked.db, cs[i]);
      }
      SyncAllSkips(marked.db, cs, extracted.value.1, now, chrono, logging);
    }
  }

  /**
   * Idempotence of `sync`: a second sync of an unchanged database, whatever the hash map's
   * order this time, writes no conversation, bubble or workspace, when debug logging is off.
   */
  lemma SyncIdempotent(db: Tables, databases: Result<seq<string>>, files: map<string, DbFile>,
                       storageSize: Result<U64>, storageSize2: Result<U64>, now: int, now2: int,
                       chrono: Chrono, order: seq<string>, order2: seq<string>, file: DbFile)
    requires ValidTables(db) && ReadsFile(db, databases, files, file)
    requires IterationOrder(file, chrono, order) && IterationOrder(file, chrono, order2)
    ensures var s := SyncOutcome(db, databases, files, storageSize, now, chrono, Logging(false, false), order);
      var t := SyncOutcome(s.db, databases, files, storageSize2, now2, chrono, Logging(false, false), order2);
      s.result.Ok? ==>
        t.db.conversations == s.db.conversations && t.db.bubbles == s.db.bubbles && t.db.workspaces == s.db.workspaces
  {
    var logging := Logging(false, false);
    var s := SyncOutcome(db, databases, files, storageSize, now, chrono, logging, order);
    SyncStoresHashes(db, databases, files, storageSize, now, chrono, logging, order, file);
    if s.result.Ok? {
      ExtractionStable(file, chrono, order, order2);
      SyncOfStoredWritesNothing(s.db, databases, files, storageSize2, now2, chrono, logging, order2, file);
    }
  }

  // -------------------------------------------------------------- service

  /** `SyncService`: the configuration and the local store the sync writes to. */
  class SyncService {
    const config: AppConfig
    const storage: LocalStorage

    /** `SyncService::with_storage`. */
    constructor WithStorage(config: AppConfig, storage: LocalStorage)
      ensures this.config == config && this.storage == storage
    {
      this.config := config;
      this.storage := storage;
    }

    /** `extract_conversations`: the composer pass, the bubble pass with workspace hints, then the finish. */
    static method ExtractConversations(file: DbFile, chrono: Chrono)
      returns (r: Result<(seq<Conversation>, map<string, WorkspaceInfo>)>, ghost order: seq<string>)
      ensures r == ExtractionOutcome(file, chrono, order)
      ensures IterationOrder(file, chrono, order)
    {
      order := [];
      var readerOrError := Open(file);
      if readerOrError.Err? {
        return Err(readerOrError.error), order;
      }
      var reader := readerOrError.value;
      var composers := reader.FetchComposers();
      if composers.Err? {
        return Err(composers.error), order;
      }
      var conversations := CollectComposers(composers.value, SYNC_OPTIONS, chrono);
      var bubbles := reader.FetchBubbles();
      match bubbles {
        case Err(e) =>
          r := Err(e);
        case Ok(entries) =>
          var merged, workspaces := CollectSyncBubbles(conversations, entries, chrono);
          var finished;
          finished, order := FinishConversations(merged, 1);
          if finished.Err? {
            return Err(finished.error), order;
          }
          r := Ok((finished.value, workspaces));
      }
    }

    /** The bubble loop of `extract_conversations`: bubbles attached as the extractor does, hints recorded. */
    static method CollectSyncBubbles(conversations: map<string, Conversation>, entries: seq<RawKvEntry>, chrono: Chrono)
      returns (merged: map<string, Conversation>, workspaces: map<string, WorkspaceInfo>)
      ensures merged == AddBubbles(conversations, Included(entries, SyncRules(chrono)))
      ensures workspaces == WorkspaceMap(entries, chrono)
    {
      ghost var rules := SyncRules(chrono);
      merged, workspaces := conversations, map[];
      for j := 0 to |entries|
        invariant merged == AddBubbles(conversations, Included(entries[..j], rules))
        invariant workspaces == WorkspaceMap(entries[..j], chrono)
      {
        var included := ExamineBubble(entries[j], SYNC_OPTIONS, chrono);
        SyncBubbleStep(conversations, entries, j, chrono);
        if included.None? {
          continue;
        }
        var (cid, bubble) := included.value;
        var hint := WorkspaceHint(entries[j].value);
        if hint.Some? {
          workspaces := workspaces[cid := hint.value];
        }
        var conversation := if cid in merged then merged[cid] else Orphan(cid, bubble);
        merged := merged[cid := conversation.(bubbles := conversation.bubbles + [bubble])];
      }
      assert entries[..|entries|] == entries;
    }

    /** The inner loop of `sync`: `upsert_bubble` for each bubble, stopping at the first failure. */
    method UpsertBubbles(bs: seq<Bubble>, conversationId: int) returns (r: Result<()>)
      requires storage.Valid()
      modifies storage
      ensures storage.Valid()
      ensures Step(r, storage.Snapshot()) == UpsertBubblesStep(old(storage.Snapshot()), bs, conversationId, storage.chrono)
    {
      ghost var goal := UpsertBubblesStep(storage.Snapshot(), bs, conversationId, storage.chrono);
      var i := 0;
      while i < |bs|
        invariant 0 <= i <= |bs| && storage.Valid()
        invariant UpsertBubblesStep(storage.Snapshot(), bs[i..], conversationId, storage.chrono) == goal
      {
        assert bs[i..][1..] == bs[i + 1..];
        var res := storage.UpsertBubble(bs[i], conversationId);
        if res.Err? {
          return res;
        }
        i := i + 1;
      }
      return Ok(());
    }

    /** One iteration of the loop of `sync`. */
    method SyncConversation(c: Conversation, hint: Option<WorkspaceInfo>, now: int, logging: Logging)
      returns (r: Result<bool>)
      requires storage.Valid()
      modifies storage
      ensures storage.Valid()
      ensures Step(r, storage.Snapshot()) == SyncConversationStep(old(storage.Snapshot()), c, hint, now, storage.chrono, logging)
    {
      ghost var db := storage.Snapshot();
      var contentHash := CalculateHash(c);
      var existing := storage.GetConversationHash(c.composerId);
      if existing.Err? {
        return Err(existing.error);
      }
      if existing.value == Some(contentHash) {
        if logging.debug {
          var shortId := BytePrefix(c.composerId, 8);
          if shortId.None? {
            return Err(SLICE_PANIC);
          }
        }
        return Ok(false);
      }
      var workspaceId: Option<int> := None;
      if hint.Some? {
        var created := storage.GetOrCreateWorkspace(hint.value);
        if created.Err? {
          return Err(created.error);
        }
        workspaceId := Some(created.value);
      }
      ghost var w := WorkspaceIdStep(db, hint);
      assert storage.Snapshot() == w.db && w.result == Ok(workspaceId);
      var conversationId := storage.UpsertConversation(c, workspaceId, Some(contentHash), now);
      if conversationId.Err? {
        return Err(conversationId.error);
      }
      var upserted := UpsertBubbles(c.bubbles, conversationId.value);
      if upserted.Err? {
        return Err(upserted.error);
      }
      return Ok(true);
    }

    /** The loop of `sync` over the extracted conversations. */
    method SyncAll(cs: seq<Conversation>, workspaces: map<string, WorkspaceInfo>, now: int, logging: Logging)
      returns (r: Result<()>)
      requires storage.Valid()
      modifies storage
      ensures storage.Valid()
      ensures Step(r, storage.Snapshot()) == SyncAllStep(old(storage.Snapshot()), cs, workspaces, now, storage.chrono, logging)
    {
      ghost var goal := SyncAllStep(storage.Snapshot(), cs, workspaces, now, storage.chrono, logging);
      var i := 0;
      while i < |cs|
        invariant 0 <= i <= |cs| && storage.Valid()
        invariant SyncAllStep(storage.Snapshot(), cs[i..], workspaces, now, storage.chrono, logging) == goal
      {
        assert cs[i..][1..] == cs[i + 1..];
        ghost var before := storage.Snapshot();
        var conv := cs[i];
        var hint := HintFor(workspaces, conv.composerId);
        var synced := SyncConversation(conv, hint, now, logging);
        ghost var s := SyncConversationStep(before, conv, hint, now, storage.chrono, logging);
        assert s == Step(synced, storage.Snapshot());
        if synced.Err? {
          assert SyncAllStep(before, cs[i..], workspaces, now, storage.chrono, logging) == Step(Err(synced.error), s.db);
          return Err(synced.error);
        }
        assert SyncAllStep(before, cs[i..], workspaces, now, storage.chrono, logging)
            == SyncAllStep(s.db, cs[i + 1..], workspaces, now, storage.chrono, logging);
        i := i + 1;
      }
      return Ok(());
    }

    /** `sync`. */
    method Sync(databases: Result<seq<string>>, files: map<string, DbFile>, storageSize: Result<U64>,
                now: int, logging: Logging)
      returns (r: Result<SyncState>, ghost order: seq<string>)
      requires storage.Valid()
      modifies storage
      ensures storage.Valid()
      ensures Step(r, storage.Snapshot())
           == SyncOutcome(old(storage.Snapshot()), databases, files, storageSize, now, storage.chrono, logging, order)
      ensures forall file :: ReadsFile(old(storage.Snapshot()), databases, files, file) ==>
           IterationOrder(file, storage.chrono, order)
    {
      order := [];
      ghost var db := storage.Snapshot();
      var current := storage.GetSyncState();
      var marked := storage.UpdateSyncState(Syncing(current.value));
      if marked.Err? {
        return Err(marked.error), order;
      }
      ghost var markedDb := storage.Snapshot();
      assert markedDb == MarkStep(db, storage.chrono).db;
      if databases.Err? {
        return Err(databases.error), order;
      }
      var global := FindGlobalDb(databases.value);
      if global.None? {
        return Err(GLOBAL_NOT_FOUND), order;
      }
      var extracted;
      extracted, order := ExtractConversations(FileAt(files, global.value), storage.chrono);
      if extracted.Err? {
        return Err(extracted.error), order;
      }
      var synced := SyncAll(extracted.value.0, extracted.value.1, now, logging);
      if synced.Err? {
        return Err(synced.error), order;
      }
      var conversationCount := storage.GetConversationCount();
      var messageCount := storage.GetMessageCount();
      if storageSize.Err? {
        return Err(storageSize.error), order;
      }
      var state := SyncState(Some(now), None, conversationCount.value, messageCount.value, storageSize.value, false, None);
      var written := storage.UpdateSyncState(state);
      if written.Err? {
        return Err(written.error), order;
      }
      return Ok(state), order;
    }

    /** `check_storage_limits`: whether the store is below the configured maximum. */
    method CheckStorageLimits(storageSize: Result<U64>) returns (r: Result<bool>)
      ensures storageSize.Err? ==> r == Err(storageSize.error)
      ensures storageSize.Ok? ==> r.Ok? && (r.value <==> storageSize.value < MaxStorageBytes(config))
    {
      if storageSize.Err? {
        return Err(storageSize.error);
      }
      return Ok(storageSize.value < MaxStorageBytes(config));
    }
  }

  /** Under the default configuration the store is within limits exactly below 10 GiB. */
  lemma DefaultStorageLimit(size: U64)
    ensures size < MaxStorageBytes(DEFAULT_CONFIG) <==> size < 10 * GIB
  {
    DefaultConfigValues();
  }
}
