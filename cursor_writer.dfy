/**
 * The writer of Cursor's state database (src/infrastructure/cursor_writer.rs). Restoring a
 * conversation writes its composer record under `composerData:{id}` and one record per bubble
 * under `bubbleId:{id}:{bubble id}`, each value a JSON document in the shape the reader decodes.
 *
 * The database file is a `StateDb` value: whether the file exists, whether it has the
 * `cursorDiskKV` table, the table's entries and a budget of writes that still succeed. Every
 * statement is a function from the database to a `DbStep`; `CursorWriter`'s methods perform
 * those steps on a `StateDbFile` in place.
 */
module CursorWriter {
  import opened Base
  import opened Errors
  import opened Json
  import opened Text
  import opened Models
  import opened Chrono
  import opened Parser
  import SqliteReader
  import Extractor

  // ------------------------------------------------------------- the database

  datatype StateDb = StateDb(
    present: bool,
    hasTable: bool,
    entries: map<string, Bytes>,
    writesLeft: Option<nat>)

  datatype DbStep<T> = DbStep(result: Result<T>, db: StateDb)

  /** A database without the table has no entries. */
  predicate WellFormed(db: StateDb) {
    !db.hasTable ==> db.entries == map[]
  }

  predicate WriteFails(db: StateDb) {
    db.writesLeft == Some(0)
  }

  /** At least `n` more writes succeed. */
  predicate Affords(db: StateDb, n: nat) {
    db.writesLeft.None? || db.writesLeft.value >= n
  }

  /** The budget after `n` successful writes. */
  function Spend(db: StateDb, n: nat): (w: Option<nat>)
    requires Affords(db, n)
    ensures w.Some? <==> db.writesLeft.Some?
    ensures w.Some? ==> w.value + n == db.writesLeft.value
  {
    if db.writesLeft.Some? then Some(db.writesLeft.value - n) else None
  }

  /**
   * `open`: the file is opened read-write without create, so an absent file is an error; then
   * `CREATE TABLE IF NOT EXISTS cursorDiskKV`, a write only when the table is missing.
   */
  function OpenStep(db: StateDb): (s: DbStep<()>)
    ensures s.result.Ok? ==> s.db.present && s.db.hasTable
    ensures !db.present ==> s == DbStep(Err(OPEN_FAILED), db)
    ensures db.present && db.hasTable ==> s == DbStep(Ok(()), db)
    ensures s.result.Ok? && !db.hasTable ==> s.db.entries == map[]
  {
    if !db.present then DbStep(Err(OPEN_FAILED), db)
    else if db.hasTable then DbStep(Ok(()), db)
    else if WriteFails(db) then DbStep(Err(WRITE_FAILED), db)
    else DbStep(Ok(()), db.(hasTable := true, entries := map[], writesLeft := Spend(db, 1)))
  }

  /**
   * `open` with the create flag added, as the unit test of `open` expects: an absent file is
   * created empty, then the table is created as by `open`.
   */
  function OpenCreatingStep(db: StateDb): (s: DbStep<()>)
    ensures s.result.Ok? ==> s.db.present && s.db.hasTable
    ensures db.present ==> s == OpenStep(db)
    ensures !db.present && !WriteFails(db) ==>
      s == DbStep(Ok(()), db.(present := true, hasTable := true, entries := map[], writesLeft := Spend(db, 1)))
    ensures !db.present && WriteFails(db) ==> s.result == Err(WRITE_FAILED) && !s.db.hasTable
  {
    OpenStep(if db.present then db else db.(present := true, hasTable := false, entries := map[]))
  }

  /** `INSERT OR REPLACE INTO cursorDiskKV (key, value) VALUES (?1, ?2)`. */
  function PutStep(db: StateDb, key: string, value: Bytes): DbStep<()> {
    if !db.hasTable then DbStep(Err(SqliteReader.NO_KV_TABLE), db)
    else if WriteFails(db) then DbStep(Err(WRITE_FAILED), db)
    else DbStep(Ok(()), db.(entries := db.entries[key := value], writesLeft := Spend(db, 1)))
  }

  // ------------------------------------------------------------- keys

  function ComposerKey(id: string): (k: string)
    ensures ExtractComposerId(k) == Some(id)
  {
    ComposerKeyRoundTrip(id);
    COMPOSER_PREFIX + id
  }

  function BubbleKey(cid: string, bid: string): (k: string)
    ensures StartsWith(k, BUBBLE_PREFIX)
    ensures ':' !in cid ==> ExtractConversationId(k) == Some(cid)
  {
    var k := BUBBLE_PREFIX + cid + ":" + bid;
    assert k[..|BUBBLE_PREFIX|] == BUBBLE_PREFIX;
    assert ':' !in cid ==> ExtractConversationId(k) == Some(cid) by {
      if ':' !in cid {
        BubbleKeyConversationId(cid, bid);
      }
    }
    k
  }

  /** Within one conversation, distinct bubble ids give distinct keys. */
  lemma BubbleKeyInjective(cid: string, x: string, y: string)
    ensures BubbleKey(cid, x) == BubbleKey(cid, y) <==> x == y
  {
    var n := |BUBBLE_PREFIX + cid + ":"|;
    if BubbleKey(cid, x) == BubbleKey(cid, y) {
      assert BubbleKey(cid, x)[n..] == x;
      assert BubbleKey(cid, y)[n..] == y;
    }
  }

  /** A bubble key is never a composer key: the two prefixes differ in their first letter. */
  lemma BubbleKeyNotComposer(k: string)
    requires StartsWith(k, BUBBLE_PREFIX)
    ensures !Like(k, COMPOSER_PREFIX + "%")
  {
    LikePrefixIff(k, COMPOSER_PREFIX);
    assert k[0] == BUBBLE_PREFIX[..|BUBBLE_PREFIX|][0] == 'b';
    assert AsciiFold(k[0]) != AsciiFold(COMPOSER_PREFIX[0]);
  }

  /** A composer key is counted by `LIKE 'composerData:%'`. */
  lemma ComposerKeyCounted(id: string)
    ensures Like(ComposerKey(id), COMPOSER_PREFIX + "%")
  {
    LikePrefixIff(ComposerKey(id), COMPOSER_PREFIX);
    assert ComposerKey(id)[..|COMPOSER_PREFIX|] == COMPOSER_PREFIX;
    StartsWithIgnoringCase(ComposerKey(id), COMPOSER_PREFIX);
  }

  // ------------------------------------------------------------- serialization

  const FORMAT_VERSION := 10

  /** The lists of the `context` object an empty composer carries. */
  const CONTEXT_LISTS := [
    "composers", "quotes", "selectedCommits", "selectedPullRequests", "selectedImages",
    "folderSelections", "fileSelections", "selections", "terminalSelections", "selectedDocs",
    "externalLinks", "cursorRules", "cursorCommands", "uiElementSelections", "consoleLogs"]

  function EmptyContext(): (j: Json)
    ensures j.JObj? && forall k :: k in j.fields <==> k in CONTEXT_LISTS
    ensures forall k :: k in j.fields ==> j.fields[k] == JArr([])
  {
    JObj(map k | k in CONTEXT_LISTS :: JArr([]))
  }

  function OptInt(v: Option<int>): Json {
    if v.Some? then JInt(v.value) else JNull
  }

  function OptStr(v: Option<string>): Json {
    if v.Some? then JStr(v.value) else JNull
  }

  /**
   * `serialize_composer`: version 10, the id, the creation time as integer milliseconds or
   * null, the model configuration, the mode, and empty text, status and context.
   */
  function SerializeComposer(c: Conversation): (j: Json)
    ensures j.JObj? && Get(j, "composerId") == Some(JStr(c.composerId))
  {
    JObj(map[
      "_v" := JInt(FORMAT_VERSION),
      "composerId" := JStr(c.composerId),
      "createdAt" := OptInt(c.createdAt),
      "modelConfig" := JObj(map[
        "modelName" := JStr(c.modelConfig.modelName),
        "maxMode" := JBool(c.modelConfig.maxMode)]),
      "unifiedMode" := JStr(c.unifiedMode),
      "richText" := JStr(""),
      "text" := JStr(""),
      "hasLoaded" := JBool(true),
      "status" := JStr("none"),
      "context" := EmptyContext()])
  }

  /**
   * `serialize_bubble`: version 10, id, type code, text, the creation time printed in RFC 3339
   * or null, the agentic flag and the token counts; thinking and its duration only when the
   * bubble has thinking.
   */
  function SerializeBubble(b: Bubble, chrono: Chrono): (j: Json)
    ensures j.JObj? && Get(j, "bubbleId") == Some(JStr(b.bubbleId))
    ensures "thinking" in j.fields <==> b.thinking.Some?
  {
    var base := map[
      "_v" := JInt(FORMAT_VERSION),
      "bubbleId" := JStr(b.bubbleId),
      "type" := JInt(TypeCode(b.bubbleType)),
      "text" := JStr(b.text),
      "createdAt" := if b.createdAt.Some? then JStr(chrono.toRfc3339(b.createdAt.value)) else JNull,
      "isAgentic" := JBool(b.isAgentic),
      "tokenCount" := JObj(map[
        "inputTokens" := JInt(b.tokenCount.inputTokens),
        "outputTokens" := JInt(b.tokenCount.outputTokens)])];
    if b.thinking.None? then JObj(base)
    else
      var t := b.thinking.value;
      JObj(base["thinking" := JObj(map["text" := JStr(t.text), "signature" := OptStr(t.signature)])]
               ["thinkingDurationMs" := OptInt(b.thinkingDurationMs)])
  }

  /** The bubble a reader gets back: a thinking duration without thinking is not written. */
  function Restorable(b: Bubble): Bubble {
    if b.thinking.Some? then b else b.(thinkingDurationMs := None)
  }

  /** The flat fields of a written bubble decode to the bubble's own values. */
  lemma BubbleScalarsDecode(b: Bubble, chrono: Chrono)
    ensures var j := SerializeBubble(b, chrono);
      && DecodeOptU8(Get(j, "_v")) == Ok(Some(FORMAT_VERSION))
      && DecodeU8OrZero(Get(j, "type")) == Ok(TypeCode(b.bubbleType))
      && DecodeString(Get(j, "bubbleId")) == Ok(b.bubbleId)
      && DecodeStringOrEmpty(Get(j, "text")) == Ok(b.text)
      && DecodeBoolOrFalse(Get(j, "isAgentic")) == Ok(b.isAgentic)
  {
  }

  /** The time and token fields of a written bubble decode as written. */
  lemma BubbleTimeTokensDecode(b: Bubble, chrono: Chrono)
    ensures var j := SerializeBubble(b, chrono);
      && DecodeOptString(Get(j, "createdAt"))
           == Ok(if b.createdAt.Some? then Some(chrono.toRfc3339(b.createdAt.value)) else None)
      && DecodeOptTokenCount(Get(j, "tokenCount")) == Ok(Some(b.tokenCount))
  {
  }

  /** The thinking fields of a written bubble decode as written, the duration only with thinking. */
  lemma BubbleThinkingDecode(b: Bubble, chrono: Chrono)
    ensures var j := SerializeBubble(b, chrono);
      && DecodeOptThinking(Get(j, "thinking")) == Ok(b.thinking)
      && DecodeOptU64(Get(j, "thinkingDurationMs")) == Ok(Restorable(b).thinkingDurationMs)
  {
  }

  /**
   * Parsing a written bubble gives the bubble back, apart from a duration without thinking,
   * for a creation time the date library can represent.
   */
  lemma BubbleRoundTrip(b: Bubble, chrono: Chrono)
    requires chrono.Valid()
    requires b.createdAt.Some? ==> chrono.InRange(b.createdAt.value)
    ensures ParseBubble(Doc(SerializeBubble(b, chrono)), chrono) == Ok(Restorable(b))
  {
    TypeCodeRoundTrip(b.bubbleType);
    BubbleScalarsDecode(b, chrono);
    BubbleTimeTokensDecode(b, chrono);
    BubbleThinkingDecode(b, chrono);
    var createdAt := if b.createdAt.Some? then Some(chrono.toRfc3339(b.createdAt.value)) else None;
    if b.createdAt.Some? {
      ParseDatetimeProperties(None, chrono, b.createdAt.value);
    }
    assert ParseDatetime(createdAt, chrono) == b.createdAt;
  }

  /** What `parse_composer` reads from a written composer, when it reads anything. */
  function ComposerFields(c: Conversation): RawComposer
    requires c.createdAt.Some? ==> 0 <= c.createdAt.value < U64_LIMIT
  {
    RawComposer(
      Some(FORMAT_VERSION),
      if c.createdAt.Some? then Some(c.createdAt.value) else None,
      Some(RawModelConfig(c.modelConfig.modelName, c.modelConfig.maxMode)),
      Some(c.unifiedMode))
  }

  /**
   * A written composer parses exactly when its creation time is absent or a valid `u64`: a
   * time before 1970 is written as a negative number, which the reader rejects.
   */
  lemma ComposerRoundTrip(c: Conversation)
    ensures var r := ParseComposer(Doc(SerializeComposer(c)));
      && (r.Ok? <==> c.createdAt.None? || 0 <= c.createdAt.value < U64_LIMIT)
      && (r.Ok? ==> r.value == ComposerFields(c))
  {
    ComposerVersionTimeDecode(c);
    ComposerModelDecode(c);
  }

  /** The version and time fields of a written composer. */
  lemma ComposerVersionTimeDecode(c: Conversation)
    ensures var j := SerializeComposer(c);
      && DecodeOptU8(Get(j, "_v")) == Ok(Some(FORMAT_VERSION))
      && Get(j, "createdAt") == Some(OptInt(c.createdAt))
  {
  }

  /** The model and mode fields of a written composer decode as written. */
  lemma ComposerModelDecode(c: Conversation)
    ensures var j := SerializeComposer(c);
      && DecodeOptModelConfig(Get(j, "modelConfig"))
           == Ok(Some(RawModelConfig(c.modelConfig.modelName, c.modelConfig.maxMode)))
      && DecodeOptString(Get(j, "unifiedMode")) == Ok(Some(c.unifiedMode))
  {
  }

  /**
   * A later extraction accepts the written composer as the conversation it came from, without
   * title and bubbles, for a creation time from 1970 on that the date library represents.
   */
  lemma ComposerReadBack(c: Conversation, chrono: Chrono, includeEmpty: bool)
    requires c.createdAt.Some? ==> 0 <= c.createdAt.value <= I64_MAX && chrono.InRange(c.createdAt.value)
    ensures Extractor.AcceptedComposer(
              SqliteReader.RawKvEntry(ComposerKey(c.composerId), Doc(SerializeComposer(c))),
              Extractor.EntryRules(None, includeEmpty, chrono))
         == Some(c.(title := "", bubbles := []))
  {
    ComposerRoundTrip(c);
  }

  /**
   * A later extraction accepts the written bubble under its conversation, for a conversation
   * id without ':' and a text that is not blank (or with empty bubbles included).
   */
  lemma BubbleReadBack(cid: string, b: Bubble, chrono: Chrono, includeEmpty: bool)
    requires ':' !in cid
    requires chrono.Valid()
    requires b.createdAt.Some? ==> chrono.InRange(b.createdAt.value)
    requires includeEmpty || !IsBlank(b.text)
    ensures Extractor.IncludedBubble(
              SqliteReader.RawKvEntry(BubbleKey(cid, b.bubbleId), Doc(SerializeBubble(b, chrono))),
              Extractor.EntryRules(None, includeEmpty, chrono))
         == Some((cid, Restorable(b)))
  {
    BubbleRoundTrip(b, chrono);
  }

  // ------------------------------------------------------------- restoring a conversation

  function BubbleValue(b: Bubble, chrono: Chrono): Bytes {
    Doc(SerializeBubble(b, chrono))
  }

  /** The bubble writes of `restore_conversation`, first to last, stopping at the first error. */
  function PutBubblesStep(db: StateDb, cid: string, bs: seq<Bubble>, chrono: Chrono): DbStep<()>
    decreases |bs|
  {
    if bs == [] then DbStep(Ok(()), db)
    else
      var s := PutStep(db, BubbleKey(cid, bs[0].bubbleId), BubbleValue(bs[0], chrono));
      if s.result.Err? then s else PutBubblesStep(s.db, cid, bs[1..], chrono)
  }

  /**
   * `restore_conversation`: the composer write, the bubble writes, then the debug line whose
   * short id `&id[..8]` panics, after the writes, on an id shorter than 8 bytes.
   */
  function RestoreStep(db: StateDb, c: Conversation, chrono: Chrono, logging: Logging): DbStep<()> {
    var s := PutStep(db, ComposerKey(c.composerId), Doc(SerializeComposer(c)));
    if s.result.Err? then s
    else
      var t := PutBubblesStep(s.db, c.composerId, c.bubbles, chrono);
      if t.result.Err? then t
      else if logging.debug && ShortIdPanics(c.composerId) then DbStep(Err(SLICE_PANIC), t.db)
      else t
  }

  /** The bubble entries a sequence of writes leaves, a later bubble replacing an earlier one with its id. */
  function BubbleEntries(cid: string, bs: seq<Bubble>, chrono: Chrono): map<string, Bytes>
    decreases |bs|
  {
    if bs == [] then map[]
    else map[BubbleKey(cid, bs[0].bubbleId) := BubbleValue(bs[0], chrono)] + BubbleEntries(cid, bs[1..], chrono)
  }

  /** The entries a complete restore of the conversation leaves. */
  function RestoredEntries(c: Conversation, chrono: Chrono): map<string, Bytes> {
    map[ComposerKey(c.composerId) := Doc(SerializeComposer(c))] + BubbleEntries(c.composerId, c.bubbles, chrono)
  }

  /** The keys a restore of the conversation may write. */
  function RestoreKeys(c: Conversation): set<string> {
    {ComposerKey(c.composerId)} + set b | b in c.bubbles :: BubbleKey(c.composerId, b.bubbleId)
  }

  /** The bubble entries are keyed by exactly the bubbles' keys. */
  lemma {:induction false} BubbleEntriesKeys(cid: string, bs: seq<Bubble>, chrono: Chrono)
    ensures BubbleEntries(cid, bs, chrono).Keys == set b | b in bs :: BubbleKey(cid, b.bubbleId)
    decreases |bs|
  {
    if bs != [] {
      BubbleEntriesKeys(cid, bs[1..], chrono);
      assert forall b :: b in bs <==> b == bs[0] || b in bs[1..];
    }
  }

  /** A bubble that no later bubble of the conversation shares its id with is stored as written. */
  lemma {:induction false} BubbleEntriesLast(cid: string, bs: seq<Bubble>, chrono: Chrono, i: nat)
    requires i < |bs|
    requires forall j :: i < j < |bs| ==> bs[j].bubbleId != bs[i].bubbleId
    ensures BubbleKey(cid, bs[i].bubbleId) in BubbleEntries(cid, bs, chrono)
    ensures BubbleEntries(cid, bs, chrono)[BubbleKey(cid, bs[i].bubbleId)] == BubbleValue(bs[i], chrono)
    decreases |bs|
  {
    var rest := BubbleEntries(cid, bs[1..], chrono);
    if i == 0 {
      BubbleEntriesKeys(cid, bs[1..], chrono);
      if BubbleKey(cid, bs[0].bubbleId) in rest {
        var b :| b in bs[1..] && BubbleKey(cid, b.bubbleId) == BubbleKey(cid, bs[0].bubbleId);
        BubbleKeyInjective(cid, b.bubbleId, bs[0].bubbleId);
        assert false;
      }
    } else {
      BubbleEntriesLast(cid, bs[1..], chrono, i - 1);
    }
  }

  /** One write ahead of the others: the later entries still win. */
  lemma PutThenUnion(m: map<string, Bytes>, k: string, v: Bytes, rest: map<string, Bytes>)
    ensures m[k := v] + rest == m + (map[k := v] + rest)
  {
  }

  /** With enough budget every bubble is stored, the budget spent by one write per bubble. */
  lemma {:induction false} PutBubblesComplete(db: StateDb, cid: string, bs: seq<Bubble>, chrono: Chrono)
    requires db.hasTable && Affords(db, |bs|)
    ensures PutBubblesStep(db, cid, bs, chrono)
         == DbStep(Ok(()), db.(entries := db.entries + BubbleEntries(cid, bs, chrono), writesLeft := Spend(db, |bs|)))
    decreases |bs|
  {
    if bs == [] {
      assert db.entries + map[] == db.entries;
    } else {
      var k, v := BubbleKey(cid, bs[0].bubbleId), BubbleValue(bs[0], chrono);
      var next := db.(entries := db.entries[k := v], writesLeft := Spend(db, 1));
      assert PutStep(db, k, v) == DbStep(Ok(()), next);
      PutBubblesComplete(next, cid, bs[1..], chrono);
      PutThenUnion(db.entries, k, v, BubbleEntries(cid, bs[1..], chrono));
      assert Spend(next, |bs| - 1) == Spend(db, |bs|);
    }
  }

  /** A budget of `n` writes below the number of bubbles stores the first `n` and then fails. */
  lemma {:induction false} PutBubblesShort(db: StateDb, cid: string, bs: seq<Bubble>, chrono: Chrono)
    requires db.hasTable && !Affords(db, |bs|)
    ensures PutBubblesStep(db, cid, bs, chrono)
         == DbStep(Err(WRITE_FAILED),
                   db.(entries := db.entries + BubbleEntries(cid, bs[..db.writesLeft.value], chrono), writesLeft := Some(0)))
    decreases |bs|
  {
    var n := db.writesLeft.value;
    if n == 0 {
      assert bs[..0] == [];
      assert db.entries + map[] == db.entries;
    } else {
      var k, v := BubbleKey(cid, bs[0].bubbleId), BubbleValue(bs[0], chrono);
      var next := db.(entries := db.entries[k := v], writesLeft := Spend(db, 1));
      assert PutStep(db, k, v) == DbStep(Ok(()), next);
      PutBubblesShort(next, cid, bs[1..], chrono);
      assert bs[..n][0] == bs[0] && bs[..n][1..] == bs[1..][..n - 1];
      PutThenUnion(db.entries, k, v, BubbleEntries(cid, bs[1..][..n - 1], chrono));
    }
  }

  /**
   * With a budget for the composer and every bubble, a restore stores every entry and spends
   * one write each; it then succeeds unless the debug line's short id panics.
   */
  lemma RestoreComplete(db: StateDb, c: Conversation, chrono: Chrono, logging: Logging)
    requires db.hasTable && Affords(db, 1 + |c.bubbles|)
    ensures RestoreStep(db, c, chrono, logging)
      == DbStep(if logging.debug && ShortIdPanics(c.composerId) then Err(SLICE_PANIC) else Ok(()),
                db.(entries := db.entries + RestoredEntries(c, chrono), writesLeft := Spend(db, 1 + |c.bubbles|)))
  {
    var ck, cv := ComposerKey(c.composerId), Doc(SerializeComposer(c));
    var next := db.(entries := db.entries[ck := cv], writesLeft := Spend(db, 1));
    assert PutStep(db, ck, cv) == DbStep(Ok(()), next);
    PutBubblesComplete(next, c.composerId, c.bubbles, chrono);
    PutThenUnion(db.entries, ck, cv, BubbleEntries(c.composerId, c.bubbles, chrono));
    assert Spend(next, |c.bubbles|) == Spend(db, 1 + |c.bubbles|);
  }

  /**
   * Without that budget a restore fails with the write error and keeps the writes made before
   * it: nothing when no write succeeds, else the composer and the bubbles the budget covered.
   */
  lemma RestoreShort(db: StateDb, c: Conversation, chrono: Chrono, logging: Logging)
    requires db.hasTable && !Affords(db, 1 + |c.bubbles|)
    ensures var s := RestoreStep(db, c, chrono, logging);
      && s.result == Err(WRITE_FAILED)
      && s.db.writesLeft == Some(0)
      && (WriteFails(db) ==> s.db == db)
      && (!WriteFails(db) ==>
            s.db == db.(entries := db.entries + (map[ComposerKey(c.composerId) := Doc(SerializeComposer(c))]
                          + BubbleEntries(c.composerId, c.bubbles[..db.writesLeft.value - 1], chrono)),
                        writesLeft := Some(0)))
  {
    if !WriteFails(db) {
      var ck, cv := ComposerKey(c.composerId), Doc(SerializeComposer(c));
      var next := db.(entries := db.entries[ck := cv], writesLeft := Spend(db, 1));
      assert PutStep(db, ck, cv) == DbStep(Ok(()), next);
      PutBubblesShort(next, c.composerId, c.bubbles, chrono);
      PutThenUnion(db.entries, ck, cv, BubbleEntries(c.composerId, c.bubbles[..db.writesLeft.value - 1], chrono));
    }
  }

  /** Every restored entry is under a key of the conversation, the composer's among them. */
  lemma RestoredEntriesKeys(c: Conversation, chrono: Chrono)
    ensures RestoredEntries(c, chrono).Keys == RestoreKeys(c)
    ensures ComposerKey(c.composerId) in RestoredEntries(c, chrono)
    ensures RestoredEntries(c, chrono)[ComposerKey(c.composerId)] == Doc(SerializeComposer(c))
  {
    BubbleEntriesKeys(c.composerId, c.bubbles, chrono);
    var k := ComposerKey(c.composerId);
    if k in BubbleEntries(c.composerId, c.bubbles, chrono) {
      var b :| b in c.bubbles && BubbleKey(c.composerId, b.bubbleId) == k;
      BubbleKeyNotComposer(k);
      ComposerKeyCounted(c.composerId);
      assert false;
    }
  }

  /** A restore touches no key outside the conversation's, whatever its outcome, and removes none. */
  lemma RestoreFrame(db: StateDb, c: Conversation, chrono: Chrono, logging: Logging, k: string)
    requires db.hasTable
    requires k !in RestoreKeys(c)
    ensures var s := RestoreStep(db, c, chrono, logging);
      && (k in s.db.entries <==> k in db.entries)
      && (k in db.entries ==> s.db.entries[k] == db.entries[k])
      && db.entries.Keys <= s.db.entries.Keys
  {
    RestoredEntriesKeys(c, chrono);
    if Affords(db, 1 + |c.bubbles|) {
      RestoreComplete(db, c, chrono, logging);
    } else {
      RestoreShort(db, c, chrono, logging);
      if !WriteFails(db) {
        var n := db.writesLeft.value - 1;
        BubbleEntriesKeys(c.composerId, c.bubbles[..n], chrono);
        BubbleEntriesKeys(c.composerId, c.bubbles, chrono);
        assert forall b :: b in c.bubbles[..n] ==> b in c.bubbles;
      }
    }
  }

  /** A completed restore leaves each bubble the last one with its id stored under its key. */
  lemma RestoredBubble(db: StateDb, c: Conversation, chrono: Chrono, logging: Logging, i: nat)
    requires db.hasTable && Affords(db, 1 + |c.bubbles|)
    requires i < |c.bubbles|
    requires forall j :: i < j < |c.bubbles| ==> c.bubbles[j].bubbleId != c.bubbles[i].bubbleId
    ensures var s := RestoreStep(db, c, chrono, logging);
      var k := BubbleKey(c.composerId, c.bubbles[i].bubbleId);
      k in s.db.entries && s.db.entries[k] == Doc(SerializeBubble(c.bubbles[i], chrono))
  {
    RestoreComplete(db, c, chrono, logging);
    BubbleEntriesLast(c.composerId, c.bubbles, chrono, i);
  }

  /** Restoring a conversation a second time changes no entry. */
  lemma RestoreIdempotent(db: StateDb, c: Conversation, chrono: Chrono, logging: Logging)
    requires db.hasTable && Affords(db, 2 * (1 + |c.bubbles|))
    ensures var s := RestoreStep(db, c, chrono, logging);
      RestoreStep(s.db, c, chrono, logging).db.entries == s.db.entries
  {
    var s := RestoreStep(db, c, chrono, logging);
    RestoreComplete(db, c, chrono, logging);
    RestoreComplete(s.db, c, chrono, logging);
    UnionTwice(db.entries, RestoredEntries(c, chrono));
  }

  lemma UnionTwice(m: map<string, Bytes>, r: map<string, Bytes>)
    ensures (m + r) + r == m + r
  {
  }

  // ------------------------------------------------------------- counting conversations

  /** The keys `SELECT COUNT(*) FROM cursorDiskKV WHERE key LIKE 'composerData:%'` counts. */
  function ComposerKeys(db: StateDb): set<string> {
    set k | k in db.entries && Like(k, COMPOSER_PREFIX + "%")
  }

  /** `conversation_count`: the count query, which fails without the table. */
  function ConversationCountOf(db: StateDb): (r: Result<nat>)
    ensures r.Ok? <==> db.hasTable
    ensures r.Ok? ==> (r.value == 0 <==> forall k :: k in db.entries ==> !Like(k, COMPOSER_PREFIX + "%"))
  {
    if !db.hasTable then Err(SqliteReader.NO_KV_TABLE)
    else
      var keys := ComposerKeys(db);
      assert keys == {} <==> forall k :: k in db.entries ==> !Like(k, COMPOSER_PREFIX + "%") by {
        if keys == {} {
          forall k | k in db.entries ensures !Like(k, COMPOSER_PREFIX + "%") {
            assert k !in keys;
          }
        } else {
          var k :| k in keys;
          assert k in db.entries && Like(k, COMPOSER_PREFIX + "%");
        }
      }
      Ok(|keys|)
  }

  /** `is_empty`: no composer key. */
  function IsEmptyOf(db: StateDb): (r: Result<bool>)
    ensures r.Ok? <==> db.hasTable
    ensures r.Ok? ==> (r.value <==> ConversationCountOf(db) == Ok(0))
  {
    if !db.hasTable then Err(SqliteReader.NO_KV_TABLE) else Ok(|ComposerKeys(db)| == 0)
  }

  /**
   * A completed restore adds its composer key to the counted keys and no other: the count
   * grows by one for a new conversation and stays for a known one, and is never zero after.
   */
  lemma RestoreCount(db: StateDb, c: Conversation, chrono: Chrono, logging: Logging)
    requires db.hasTable && Affords(db, 1 + |c.bubbles|)
    ensures var s := RestoreStep(db, c, chrono, logging);
      && ComposerKeys(s.db) == ComposerKeys(db) + {ComposerKey(c.composerId)}
      && ConversationCountOf(s.db)
           == Ok(ConversationCountOf(db).value + (if ComposerKey(c.composerId) in db.entries then 0 else 1))
      && IsEmptyOf(s.db) == Ok(false)
  {
    RestoreComplete(db, c, chrono, logging);
    RestoredCount(db, RestoreStep(db, c, chrono, logging).db, c, chrono);
  }

  /** The counts after adding a conversation's entries. */
  lemma RestoredCount(db: StateDb, after: StateDb, c: Conversation, chrono: Chrono)
    requires db.hasTable && after.hasTable
    requires after.entries == db.entries + RestoredEntries(c, chrono)
    ensures ComposerKeys(after) == ComposerKeys(db) + {ComposerKey(c.composerId)}
    ensures ConversationCountOf(after)
         == Ok(ConversationCountOf(db).value + (if ComposerKey(c.composerId) in db.entries then 0 else 1))
    ensures IsEmptyOf(after) == Ok(false)
  {
    RestoredComposerKeys(db, after, c, chrono);
    CountWithKey(db, after, ComposerKey(c.composerId));
  }

  /** Adding a conversation's entries adds its composer key to the counted keys and no other. */
  lemma RestoredComposerKeys(db: StateDb, after: StateDb, c: Conversation, chrono: Chrono)
    requires after.entries == db.entries + RestoredEntries(c, chrono)
    ensures ComposerKeys(after) == ComposerKeys(db) + {ComposerKey(c.composerId)}
  {
    var added := RestoredEntries(c, chrono);
    RestoredEntriesKeys(c, chrono);
    forall k | k in added && k != ComposerKey(c.composerId) ensures !Like(k, COMPOSER_PREFIX + "%") {
      var b :| b in c.bubbles && BubbleKey(c.composerId, b.bubbleId) == k;
      BubbleKeyNotComposer(k);
    }
    ComposerKeyCounted(c.composerId);
    AddedComposerKeys(db, after, added, ComposerKey(c.composerId));
  }

  /** Entries whose only counted key is `ck` add `ck` to the counted keys and no other. */
  lemma AddedComposerKeys(db: StateDb, after: StateDb, added: map<string, Bytes>, ck: string)
    requires after.entries == db.entries + added
    requires ck in added && Like(ck, COMPOSER_PREFIX + "%")
    requires forall k :: k in added && k != ck ==> !Like(k, COMPOSER_PREFIX + "%")
    ensures ComposerKeys(after) == ComposerKeys(db) + {ck}
  {
  }

  /** One more counted key, new or not, moves the count by one or nothing and leaves it non-zero. */
  lemma CountWithKey(db: StateDb, after: StateDb, ck: string)
    requires db.hasTable && after.hasTable
    requires ComposerKeys(after) == ComposerKeys(db) + {ck}
    ensures ConversationCountOf(after) == Ok(ConversationCountOf(db).value + (if ck in db.entries then 0 else 1))
    ensures IsEmptyOf(after) == Ok(false)
  {
    assert ck in ComposerKeys(after);
    if ck in db.entries {
      assert ck in ComposerKeys(db);
    }
  }

  // ------------------------------------------------------------- the connection

  /** The state database file, changed in place by the writer's statements. */
  class StateDbFile {
    var present: bool
    var hasTable: bool
    var entries: map<string, Bytes>
    var writesLeft: Option<nat>

    function Snapshot(): StateDb
      reads this
    {
      StateDb(present, hasTable, entries, writesLeft)
    }

    constructor Of(db: StateDb)
      ensures Snapshot() == db
    {
      present, hasTable, entries, writesLeft := db.present, db.hasTable, db.entries, db.writesLeft;
    }
  }

  /** `CursorWriter`: a read-write connection to the state database. */
  class CursorWriter {
    const file: StateDbFile

    constructor Connected(file: StateDbFile)
      ensures this.file == file
    {
      this.file := file;
    }

    /** `open`. */
    static method Open(file: StateDbFile) returns (r: Result<CursorWriter>)
      modifies file
      ensures var s := OpenStep(old(file.Snapshot()));
        && file.Snapshot() == s.db
        && (r.Ok? <==> s.result.Ok?)
        && (r.Err? ==> r.error == s.result.error)
      ensures r.Ok? ==> fresh(r.value) && r.value.file == file && file.hasTable
    {
      if !file.present {
        return Err(OPEN_FAILED);
      }
      if !file.hasTable {
        if file.writesLeft == Some(0) {
          return Err(WRITE_FAILED);
        }
        var db := file.Snapshot();
        file.hasTable, file.entries, file.writesLeft := true, map[], Spend(db, 1);
      }
      var w := new CursorWriter.Connected(file);
      return Ok(w);
    }

    /** One `INSERT OR REPLACE`. */
    method Put(key: string, value: Bytes) returns (r: Result<()>)
      modifies file
      ensures DbStep(r, file.Snapshot()) == PutStep(old(file.Snapshot()), key, value)
    {
      if !file.hasTable {
        return Err(SqliteReader.NO_KV_TABLE);
      }
      if file.writesLeft == Some(0) {
        return Err(WRITE_FAILED);
      }
      var db := file.Snapshot();
      file.entries, file.writesLeft := file.entries[key := value], Spend(db, 1);
      return Ok(());
    }

    /** `restore_conversation`. */
    method RestoreConversation(c: Conversation, chrono: Chrono, logging: Logging) returns (r: Result<()>)
      modifies file
      ensures DbStep(r, file.Snapshot()) == RestoreStep(old(file.Snapshot()), c, chrono, logging)
    {
      r := Put(ComposerKey(c.composerId), Doc(SerializeComposer(c)));
      if r.Err? {
        return;
      }
      ghost var afterComposer := file.Snapshot();
      var bs := c.bubbles;
      var i := 0;
      while i < |bs|
        invariant 0 <= i <= |bs|
        invariant PutBubblesStep(file.Snapshot(), c.composerId, bs[i..], chrono)
               == PutBubblesStep(afterComposer, c.composerId, bs, chrono)
      {
        ghost var before := file.Snapshot();
        r := Put(BubbleKey(c.composerId, bs[i].bubbleId), Doc(SerializeBubble(bs[i], chrono)));
        assert bs[i..][0] == bs[i] && bs[i..][1..] == bs[i + 1..];
        if r.Err? {
          return;
        }
        i := i + 1;
      }
      if logging.debug && BytePrefix(c.composerId, 8).None? {
        return Err(SLICE_PANIC);
      }
      return Ok(());
    }

    /** `is_empty`. */
    method IsEmpty() returns (r: Result<bool>)
      ensures r == IsEmptyOf(file.Snapshot())
    {
      if !file.hasTable {
        return Err(SqliteReader.NO_KV_TABLE);
      }
      var keys := set k | k in file.entries && Like(k, COMPOSER_PREFIX + "%");
      return Ok(|keys| == 0);
    }

    /** `conversation_count`. */
    method ConversationCount() returns (r: Result<nat>)
      ensures r == ConversationCountOf(file.Snapshot())
    {
      if !file.hasTable {
        return Err(SqliteReader.NO_KV_TABLE);
      }
      var keys := set k | k in file.entries && Like(k, COMPOSER_PREFIX + "%");
      return Ok(|keys|);
    }
  }
}
