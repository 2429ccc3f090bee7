/**
 * The restore service (src/application/restore_service.rs): it decides whether Cursor's state
 * database looks reset, and writes the conversations of the local store back into it.
 *
 * The local store is a `LocalStorage`, or absent; Cursor's database is a `StateDbFile`, or an
 * error when Cursor's configuration directory cannot be found. Each operation is proved to
 * perform a step function on the database value.
 */
module RestoreService {
  import opened Base
  import opened Errors
  import opened Text
  import opened Models
  import opened Chrono
  import Extractor
  import opened LocalStore
  import opened CursorWriter
  import Json

  const NO_STORAGE := Config("No local storage found. Run 'cursor-chat sync now' first.")
  const NO_STORAGE_BY_IDS := Config("No local storage found.")

  /** What a restore reports; the database path it also carries is not modelled. */
  datatype RestoreResult = RestoreResult(restoredConversations: nat, restoredMessages: nat)

  // ------------------------------------------------------------- the decision

  /**
   * `needs_restore`'s test: the local store holds conversations and Cursor fewer than half as
   * many, by integer division; that is, at least two more than twice Cursor's count.
   */
  function NeedsRestoreDecision(localCount: nat, cursorCount: nat): (r: bool)
    ensures r <==> 2 * cursorCount + 2 <= localCount
    ensures localCount <= 1 ==> !r
  {
    localCount > 0 && cursorCount < localCount / 2
  }

  lemma NeedsRestoreExamples()
    ensures NeedsRestoreDecision(100, 40)
    ensures !NeedsRestoreDecision(100, 60)
    ensures !NeedsRestoreDecision(100, 50) && NeedsRestoreDecision(100, 49)
    ensures !NeedsRestoreDecision(1, 0) && NeedsRestoreDecision(2, 0)
  {
  }

  /**
   * `needs_restore` once the local store is known to exist: an absent database needs a
   * restore; otherwise it is opened (creating the table if missing) and counted.
   */
  function NeedsRestoreStep(local: Tables, db: StateDb): DbStep<bool> {
    if !db.present then DbStep(Ok(true), db)
    else
      var o := OpenStep(db);
      if o.result.Err? then DbStep(Err(o.result.error), o.db)
      else
        var n := ConversationCountOf(o.db);
        if n.Err? then DbStep(Err(n.error), o.db)
        else DbStep(Ok(NeedsRestoreDecision(|local.conversations|, n.value)), o.db)
  }

  /** `cursor_is_empty`: an absent database counts as empty. */
  function CursorIsEmptyStep(db: StateDb): DbStep<bool> {
    if !db.present then DbStep(Ok(true), db)
    else
      var o := OpenStep(db);
      if o.result.Err? then DbStep(Err(o.result.error), o.db)
      else DbStep(IsEmptyOf(o.db), o.db)
  }

  // ------------------------------------------------------------- the restore loop

  /** The total number of messages of the conversations. */
  function TotalMessages(cs: seq<Conversation>): nat
    decreases |cs|
  {
    if cs == [] then 0 else TotalMessages(cs[..|cs| - 1]) + MessageCount(cs[|cs| - 1])
  }

  function Tally(done: seq<Conversation>): RestoreResult {
    RestoreResult(|done|, TotalMessages(done))
  }

  /** `restore_by_ids` attempts a conversation whose id contains one of the ids; `restore_all` (`None`) every one. */
  predicate Selected(c: Conversation, ids: Option<seq<string>>) {
    Extractor.PassesFilter(c.composerId, ids)
  }

  /** The conversations a restore attempts, in order. */
  function SelectedOf(cs: seq<Conversation>, ids: Option<seq<string>>): seq<Conversation>
    decreases |cs|
  {
    if cs == [] then []
    else (if Selected(cs[0], ids) then [cs[0]] else []) + SelectedOf(cs[1..], ids)
  }

  /** How one conversation is restored: its effect on the database. */
  type Restorer = (StateDb, Conversation) -> DbStep<()>

  /** `CursorWriter::restore_conversation` as a `Restorer`. */
  function Restoring(chrono: Chrono, logging: Logging): Restorer {
    (db: StateDb, c: Conversation) => RestoreStep(db, c, chrono, logging)
  }

  /**
   * The loop of `restore_all` and `restore_by_ids` from the conversation at hand, `done`
   * holding those restored so far. A failed restore is logged and skipped, but a panic inside
   * the restore unwinds, and so does the warning's short id `&id[..8]` on a short id.
   */
  function RestoreFrom(db: StateDb, cs: seq<Conversation>, ids: Option<seq<string>>, restore: Restorer,
                       logging: Logging, done: seq<Conversation>): DbStep<seq<Conversation>>
    decreases |cs|
  {
    if cs == [] then DbStep(Ok(done), db)
    else if !Selected(cs[0], ids) then RestoreFrom(db, cs[1..], ids, restore, logging, done)
    else
      var s := restore(db, cs[0]);
      if s.result.Ok? then RestoreFrom(s.db, cs[1..], ids, restore, logging, done + [cs[0]])
      else if s.result.error.Panic? then DbStep(Err(s.result.error), s.db)
      else if logging.warn && ShortIdPanics(cs[0].composerId) then DbStep(Err(SLICE_PANIC), s.db)
      else RestoreFrom(s.db, cs[1..], ids, restore, logging, done)
  }

  /**
   * `restore_all` (`ids` = `None`) and `restore_by_ids` once the local store is known to
   * exist: open the database, list the local conversations, restore each selected one.
   */
  function RestoreAllStep(local: Tables, db: StateDb, ids: Option<seq<string>>, chrono: Chrono,
                          logging: Logging): DbStep<RestoreResult> {
    RestoreListed(db, ListConversations(local, None, chrono), ids, chrono, logging)
  }

  /** The same, given the conversations the local store lists. */
  function RestoreListed(db: StateDb, listed: seq<Conversation>, ids: Option<seq<string>>, chrono: Chrono,
                         logging: Logging): DbStep<RestoreResult> {
    var o := OpenStep(db);
    if o.result.Err? then DbStep(Err(o.result.error), o.db)
    else Tallied(RestoreFrom(o.db, listed, ids, Restoring(chrono, logging), logging, []))
  }

  /** The counts a finished loop reports. */
  function Tallied(s: DbStep<seq<Conversation>>): (t: DbStep<RestoreResult>)
    ensures t.db == s.db
    ensures t.result.Ok? <==> s.result.Ok?
    ensures s.result.Ok? ==> t.result.value.restoredConversations == |s.result.value|
  {
    if s.result.Err? then DbStep(Err(s.result.error), s.db) else DbStep(Ok(Tally(s.result.value)), s.db)
  }

  /** `auto_restore_if_needed` once the local store is known to exist. */
  function AutoRestoreStep(local: Tables, db: StateDb, chrono: Chrono, logging: Logging): DbStep<bool> {
    var n := NeedsRestoreStep(local, db);
    if n.result.Err? then n
    else if !n.result.value then DbStep(Ok(false), n.db)
    else
      var a := RestoreAllStep(local, n.db, None, chrono, logging);
      if a.result.Err? then DbStep(Err(a.result.error), a.db) else DbStep(Ok(true), a.db)
  }

  // ------------------------------------------------------------- properties of the loop

  lemma TotalMessagesSnoc(cs: seq<Conversation>, c: Conversation)
    ensures TotalMessages(cs + [c]) == TotalMessages(cs) + MessageCount(c)
  {
    assert (cs + [c])[..|cs|] == cs;
  }

  /** The loop only adds to the conversations restored before it, at most one per selected one. */
  lemma {:induction false} RestoreFromExtends(db: StateDb, cs: seq<Conversation>, ids: Option<seq<string>>,
                                              restore: Restorer, logging: Logging, done: seq<Conversation>)
    ensures var r := RestoreFrom(db, cs, ids, restore, logging, done);
      r.result.Ok? ==>
        && |done| <= |r.result.value| <= |done| + |SelectedOf(cs, ids)|
        && r.result.value[..|done|] == done
    decreases |cs|
  {
    if cs != [] {
      var rest := cs[1..];
      if !Selected(cs[0], ids) {
        RestoreFromExtends(db, rest, ids, restore, logging, done);
      } else {
        var s := restore(db, cs[0]);
        if s.result.Ok? {
          var done' := done + [cs[0]];
          RestoreFromExtends(s.db, rest, ids, restore, logging, done');
          var out := RestoreFrom(s.db, rest, ids, restore, logging, done').result;
          if out.Ok? {
            assert out.value[..|done'|][..|done|] == out.value[..|done|];
          }
        } else {
          RestoreFromExtends(s.db, rest, ids, restore, logging, done);
        }
      }
    }
  }

  /** What the loop adds are selected conversations of those it was given. */
  lemma {:induction false} RestoreFromMembers(db: StateDb, cs: seq<Conversation>, ids: Option<seq<string>>,
                                              restore: Restorer, logging: Logging, done: seq<Conversation>)
    ensures var r := RestoreFrom(db, cs, ids, restore, logging, done);
      r.result.Ok? && |done| <= |r.result.value| ==>
        forall x :: x in r.result.value[|done|..] ==> x in cs && Selected(x, ids)
    decreases |cs|
  {
    if cs != [] {
      var rest := cs[1..];
      if !Selected(cs[0], ids) {
        RestoreFromMembers(db, rest, ids, restore, logging, done);
      } else {
        var s := restore(db, cs[0]);
        if s.result.Ok? {
          var done' := done + [cs[0]];
          RestoreFromMembers(s.db, rest, ids, restore, logging, done');
          RestoreFromExtends(s.db, rest, ids, restore, logging, done');
          var out := RestoreFrom(s.db, rest, ids, restore, logging, done').result;
          if out.Ok? {
            assert out.value[|done|..] == [out.value[|done|]] + out.value[|done'|..];
          }
        } else {
          RestoreFromMembers(s.db, rest, ids, restore, logging, done);
        }
      }
    }
  }

  /** Started with nothing restored, the loop reports some of the selected conversations it was given. */
  lemma RestoreFromFresh(db: StateDb, cs: seq<Conversation>, ids: Option<seq<string>>, restore: Restorer, logging: Logging)
    ensures var r := RestoreFrom(db, cs, ids, restore, logging, []);
      r.result.Ok? ==>
        |r.result.value| <= |SelectedOf(cs, ids)| && forall x :: x in r.result.value ==> x in cs && Selected(x, ids)
  {
    RestoreFromExtends(db, cs, ids, restore, logging, []);
    RestoreFromMembers(db, cs, ids, restore, logging, []);
    var r := RestoreFrom(db, cs, ids, restore, logging, []);
    if r.result.Ok? {
      assert r.result.value[0..] == r.result.value;
    }
  }

  /** A database with the table and no write limit. */
  predicate Unlimited(db: StateDb) {
    db.hasTable && db.writesLeft.None?
  }

  /**
   * When every restore on an unlimited database succeeds and leaves it unlimited, every
   * selected conversation is restored, in order, and none is skipped.
   */
  lemma {:induction false} RestoreFromUnlimited(db: StateDb, cs: seq<Conversation>, ids: Option<seq<string>>,
                                                restore: Restorer, logging: Logging, done: seq<Conversation>)
    requires Unlimited(db)
    requires forall d: StateDb, c: Conversation :: Unlimited(d) ==> restore(d, c).result.Ok? && Unlimited(restore(d, c).db)
    ensures RestoreFrom(db, cs, ids, restore, logging, done).result == Ok(done + SelectedOf(cs, ids))
    decreases |cs|
  {
    if cs == [] {
      assert done + [] == done;
    } else {
      var rest := cs[1..];
      if !Selected(cs[0], ids) {
        RestoreFromUnlimited(db, rest, ids, restore, logging, done);
        assert SelectedOf(cs, ids) == [] + SelectedOf(rest, ids) == SelectedOf(rest, ids);
      } else {
        var s := restore(db, cs[0]);
        RestoreFromUnlimited(s.db, rest, ids, restore, logging, done + [cs[0]]);
        assert done + [cs[0]] + SelectedOf(rest, ids) == done + SelectedOf(cs, ids);
      }
    }
  }

  /**
   * Once every restore fails with a write error and changes nothing, each attempted restore is
   * skipped: the loop runs to the end, restores nothing and changes nothing, unless a
   * warning's short id panics.
   */
  lemma {:induction false} RestoreFromExhausted(db: StateDb, cs: seq<Conversation>, ids: Option<seq<string>>,
                                                restore: Restorer, logging: Logging, done: seq<Conversation>)
    requires !logging.warn
    requires forall c: Conversation :: restore(db, c) == DbStep(Err(WRITE_FAILED), db)
    ensures RestoreFrom(db, cs, ids, restore, logging, done) == DbStep(Ok(done), db)
    decreases |cs|
  {
    if cs != [] {
      RestoreFromExhausted(db, cs[1..], ids, restore, logging, done);
    }
  }

  /** A database entry that no restore changes. */
  ghost predicate Untouched(restore: Restorer, k: string, cs: seq<Conversation>) {
    forall d: StateDb, c: Conversation :: d.hasTable && c in cs ==>
      && restore(d, c).db.hasTable
      && (k in restore(d, c).db.entries <==> k in d.entries)
      && (k in d.entries ==> restore(d, c).db.entries[k] == d.entries[k])
  }

  /** An entry that no restore of the given conversations changes, the loop does not change either. */
  lemma {:induction false} RestoreFromFrame(db: StateDb, cs: seq<Conversation>, ids: Option<seq<string>>,
                                            restore: Restorer, logging: Logging, done: seq<Conversation>, k: string)
    requires db.hasTable && Untouched(restore, k, cs)
    ensures var r := RestoreFrom(db, cs, ids, restore, logging, done);
      && r.db.hasTable
      && (k in r.db.entries <==> k in db.entries)
      && (k in db.entries ==> r.db.entries[k] == db.entries[k])
    decreases |cs|
  {
    if cs != [] {
      var rest := cs[1..];
      assert Untouched(restore, k, rest) by {
        assert forall x :: x in rest ==> x in cs;
      }
      if !Selected(cs[0], ids) {
        RestoreFromFrame(db, rest, ids, restore, logging, done, k);
      } else {
        var s := restore(db, cs[0]);
        if s.result.Ok? {
          RestoreFromFrame(s.db, rest, ids, restore, logging, done + [cs[0]], k);
        } else {
          RestoreFromFrame(s.db, rest, ids, restore, logging, done, k);
        }
      }
    }
  }

  lemma {:induction false} AllSelected(cs: seq<Conversation>)
    ensures SelectedOf(cs, None) == cs
    decreases |cs|
  {
    if cs != [] {
      AllSelected(cs[1..]);
    }
  }

  // ------------------------------------------------------------- properties of the service

  /**
   * An absent database needs a restore, but the restore cannot open it: the file is opened
   * without create, so `auto_restore_if_needed` then fails with the open error and writes nothing.
   */
  lemma AutoRestoreMissingDb(local: Tables, db: StateDb, chrono: Chrono, logging: Logging)
    requires !db.present
    ensures NeedsRestoreStep(local, db) == DbStep(Ok(true), db)
    ensures AutoRestoreStep(local, db, chrono, logging) == DbStep(Err(OPEN_FAILED), db)
  {
  }

  /**
   * When no restore is needed, `auto_restore_if_needed` reports false and changes no entry
   * (it may only have created the missing, empty, table).
   */
  lemma AutoRestoreNotNeeded(local: Tables, db: StateDb, chrono: Chrono, logging: Logging)
    requires WellFormed(db)
    ensures var r := AutoRestoreStep(local, db, chrono, logging);
      r.result == Ok(false) ==> r.db.entries == db.entries && r.db.present == db.present
  {
  }

  /**
   * A restore reports only conversations the local store lists, at most as many as it
   * selects, and the messages it reports are exactly those of the restored conversations.
   */
  lemma RestoreListedReports(db: StateDb, listed: seq<Conversation>, ids: Option<seq<string>>,
                             chrono: Chrono, logging: Logging)
    ensures var r := RestoreListed(db, listed, ids, chrono, logging);
      r.result.Ok? ==>
        exists done: seq<Conversation> ::
          && r.result.value == RestoreResult(|done|, TotalMessages(done))
          && |done| <= |SelectedOf(listed, ids)|
          && (forall x :: x in done ==> x in listed && Selected(x, ids))
  {
    var o := OpenStep(db);
    if o.result.Ok? {
      var restore := Restoring(chrono, logging);
      assert RestoreListed(db, listed, ids, chrono, logging) == Tallied(RestoreFrom(o.db, listed, ids, restore, logging, []));
      TalliedReports(o.db, listed, ids, restore, logging);
    }
  }

  lemma TalliedReports(db: StateDb, listed: seq<Conversation>, ids: Option<seq<string>>, restore: Restorer, logging: Logging)
    ensures var t := Tallied(RestoreFrom(db, listed, ids, restore, logging, []));
      t.result.Ok? ==>
        exists done: seq<Conversation> ::
          && t.result.value == RestoreResult(|done|, TotalMessages(done))
          && |done| <= |SelectedOf(listed, ids)|
          && (forall x :: x in done ==> x in listed && Selected(x, ids))
  {
    var s := RestoreFrom(db, listed, ids, restore, logging, []);
    RestoreFromFresh(db, listed, ids, restore, logging);
    if s.result.Ok? {
      var done := s.result.value;
      assert Tallied(s).result.value == RestoreResult(|done|, TotalMessages(done));
    }
  }

  /** With no write limit and the debug level off, restoring a conversation succeeds and keeps the limit off. */
  lemma RestoringUnlimited(chrono: Chrono, logging: Logging)
    requires !logging.debug
    ensures forall d: StateDb, c: Conversation :: Unlimited(d) ==>
      Restoring(chrono, logging)(d, c).result.Ok? && Unlimited(Restoring(chrono, logging)(d, c).db)
  {
    forall d: StateDb, c: Conversation | Unlimited(d)
      ensures Restoring(chrono, logging)(d, c).result.Ok? && Unlimited(Restoring(chrono, logging)(d, c).db)
    {
      RestoreComplete(d, c, chrono, logging);
    }
  }

  /** The entries that complete restores of the conversations, one after the other, leave on top of `entries`. */
  function RestoredAll(entries: map<string, Json.Bytes>, cs: seq<Conversation>, chrono: Chrono): map<string, Json.Bytes>
    decreases |cs|
  {
    if cs == [] then entries else RestoredAll(entries + RestoredEntries(cs[0], chrono), cs[1..], chrono)
  }

  /** On an unlimited database, with the debug level off, the loop leaves the entries of complete restores of the selected conversations. */
  lemma {:induction false} RestoreFromEntries(db: StateDb, cs: seq<Conversation>, ids: Option<seq<string>>,
                                              chrono: Chrono, logging: Logging, done: seq<Conversation>)
    requires Unlimited(db) && !logging.debug
    ensures RestoreFrom(db, cs, ids, Restoring(chrono, logging), logging, done).db.entries
         == RestoredAll(db.entries, SelectedOf(cs, ids), chrono)
    decreases |cs|
  {
    if cs != [] {
      var rest := cs[1..];
      if !Selected(cs[0], ids) {
        RestoreFromEntries(db, rest, ids, chrono, logging, done);
        assert SelectedOf(cs, ids) == [] + SelectedOf(rest, ids) == SelectedOf(rest, ids);
      } else {
        var s := Restoring(chrono, logging)(db, cs[0]);
        RestoreComplete(db, cs[0], chrono, logging);
        assert s.db == db.(entries := db.entries + RestoredEntries(cs[0], chrono));
        RestoreFromEntries(s.db, rest, ids, chrono, logging, done + [cs[0]]);
        var sel := SelectedOf(cs, ids);
        assert sel == [cs[0]] + SelectedOf(rest, ids);
        assert sel[0] == cs[0] && sel[1..] == SelectedOf(rest, ids);
      }
    }
  }

  /**
   * On a database with the table and no write limit, with the debug level off, a restore
   * restores every selected conversation: it reports each of them with its messages, and the
   * database then holds the entries of their restores, in order, over the old entries.
   */
  lemma RestoreListedEverything(db: StateDb, listed: seq<Conversation>, ids: Option<seq<string>>,
                                chrono: Chrono, logging: Logging)
    requires db.present && Unlimited(db) && !logging.debug
    ensures var done := SelectedOf(listed, ids);
      RestoreListed(db, listed, ids, chrono, logging).result == Ok(RestoreResult(|done|, TotalMessages(done)))
    ensures RestoreListed(db, listed, ids, chrono, logging).db.entries
         == RestoredAll(db.entries, SelectedOf(listed, ids), chrono)
  {
    RestoringUnlimited(chrono, logging);
    RestoreFromUnlimited(db, listed, ids, Restoring(chrono, logging), logging, []);
    RestoreFromEntries(db, listed, ids, chrono, logging, []);
    assert [] + SelectedOf(listed, ids) == SelectedOf(listed, ids);
  }

  /** In particular `restore_all` then restores every conversation of the local store. */
  lemma RestoreAllRestoresEverything(local: Tables, db: StateDb, chrono: Chrono, logging: Logging)
    requires db.present && Unlimited(db) && !logging.debug
    ensures var listed := ListConversations(local, None, chrono);
      RestoreAllStep(local, db, None, chrono, logging).result
        == Ok(RestoreResult(|listed|, TotalMessages(listed)))
    ensures RestoreAllStep(local, db, None, chrono, logging).db.entries
         == RestoredAll(db.entries, ListConversations(local, None, chrono), chrono)
  {
    var listed := ListConversations(local, None, chrono);
    RestoreListedEverything(db, listed, None, chrono, logging);
    AllSelected(listed);
  }

  /** A key no restore of the conversations writes keeps its entry, or its absence. */
  lemma {:induction false} RestoredAllUntouched(m: map<string, Json.Bytes>, cs: seq<Conversation>, chrono: Chrono, k: string)
    requires forall c :: c in cs ==> k !in RestoreKeys(c)
    ensures k in RestoredAll(m, cs, chrono) <==> k in m
    ensures k in m ==> RestoredAll(m, cs, chrono)[k] == m[k]
    decreases |cs|
  {
    if cs != [] {
      RestoredEntriesKeys(cs[0], chrono);
      assert forall c :: c in cs[1..] ==> c in cs;
      RestoredAllUntouched(m + RestoredEntries(cs[0], chrono), cs[1..], chrono, k);
    }
  }

  /** A key the first restore writes and no later one does holds the first restore's value. */
  lemma RestoredAllFirst(m: map<string, Json.Bytes>, cs: seq<Conversation>, chrono: Chrono, k: string)
    requires cs != [] && k in RestoredEntries(cs[0], chrono)
    requires forall c :: c in cs[1..] ==> k !in RestoreKeys(c)
    ensures k in RestoredAll(m, cs, chrono)
    ensures RestoredAll(m, cs, chrono)[k] == RestoredEntries(cs[0], chrono)[k]
  {
    var next := m + RestoredEntries(cs[0], chrono);
    assert RestoredAll(m, cs, chrono) == RestoredAll(next, cs[1..], chrono);
    RestoredAllUntouched(next, cs[1..], chrono, k);
  }

  /** A key holds the value the last restore that writes it gave it. */
  lemma {:induction false} RestoredAllLast(m: map<string, Json.Bytes>, cs: seq<Conversation>, chrono: Chrono, i: nat, k: string)
    requires i < |cs| && k in RestoredEntries(cs[i], chrono)
    requires forall c :: c in cs[i + 1..] ==> k !in RestoreKeys(c)
    ensures k in RestoredAll(m, cs, chrono)
    ensures RestoredAll(m, cs, chrono)[k] == RestoredEntries(cs[i], chrono)[k]
    decreases |cs|
  {
    if i == 0 {
      RestoredAllFirst(m, cs, chrono, k);
    } else {
      var next := m + RestoredEntries(cs[0], chrono);
      var rest := cs[1..];
      assert rest[i - 1] == cs[i] && rest[i..] == cs[i + 1..];
      assert RestoredAll(m, cs, chrono) == RestoredAll(next, rest, chrono);
      RestoredAllLast(next, rest, chrono, i - 1, k);
    }
  }

  /** A composer key is written only by the restore of a conversation with that id. */
  lemma ComposerKeyOf(c: Conversation, id: string)
    requires c.composerId != id
    ensures ComposerKey(id) !in RestoreKeys(c)
  {
    var k := ComposerKey(id);
    assert k[..|Parser.COMPOSER_PREFIX|] == Parser.COMPOSER_PREFIX && k[|Parser.COMPOSER_PREFIX|..] == id;
    assert k[0] == 'c';
    forall b | b in c.bubbles
      ensures BubbleKey(c.composerId, b.bubbleId) != k
    {
      var bk := BubbleKey(c.composerId, b.bubbleId);
      assert bk[..|Parser.BUBBLE_PREFIX|] == Parser.BUBBLE_PREFIX;
      assert bk[0] == 'b';
    }
  }

  /**
   * After an unlimited `restore_all` without the debug level, every entry the restore of a
   * stored conversation writes, composer or bubble, holds that restore's value unless a later
   * listed conversation writes the same key.
   */
  lemma RestoreAllEntry(local: Tables, db: StateDb, chrono: Chrono, logging: Logging, i: nat, k: string)
    requires db.present && Unlimited(db) && !logging.debug
    requires i < |ListConversations(local, None, chrono)|
    requires k in RestoredEntries(ListConversations(local, None, chrono)[i], chrono)
    requires forall j :: i < j < |ListConversations(local, None, chrono)| ==>
      k !in RestoreKeys(ListConversations(local, None, chrono)[j])
    ensures var entries := RestoreAllStep(local, db, None, chrono, logging).db.entries;
      k in entries && entries[k] == RestoredEntries(ListConversations(local, None, chrono)[i], chrono)[k]
  {
    var listed := ListConversations(local, None, chrono);
    RestoreAllRestoresEverything(local, db, chrono, logging);
    forall c | c in listed[i + 1..]
      ensures k !in RestoreKeys(c)
    {
      var j :| 0 <= j < |listed[i + 1..]| && listed[i + 1..][j] == c;
      assert c == listed[i + 1 + j];
    }
    RestoredAllLast(db.entries, listed, chrono, i, k);
  }

  /**
   * After an unlimited `restore_all` without the debug level, Cursor's database holds the
   * composer record of every stored conversation that no later listed conversation shares an
   * id with.
   */
  lemma RestoreAllComposer(local: Tables, db: StateDb, chrono: Chrono, logging: Logging, i: nat)
    requires db.present && Unlimited(db) && !logging.debug
    requires i < |ListConversations(local, None, chrono)|
    requires forall j :: i < j < |ListConversations(local, None, chrono)| ==>
      ListConversations(local, None, chrono)[j].composerId != ListConversations(local, None, chrono)[i].composerId
    ensures var c := ListConversations(local, None, chrono)[i];
      var entries := RestoreAllStep(local, db, None, chrono, logging).db.entries;
      ComposerKey(c.composerId) in entries && entries[ComposerKey(c.composerId)] == Json.Doc(SerializeComposer(c))
  {
    var listed := ListConversations(local, None, chrono);
    var c := listed[i];
    forall j | i < j < |listed|
      ensures ComposerKey(c.composerId) !in RestoreKeys(listed[j])
    {
      ComposerKeyOf(listed[j], c.composerId);
    }
    RestoredEntriesKeys(c, chrono);
    RestoreAllEntry(local, db, chrono, logging, i, ComposerKey(c.composerId));
  }

  /**
   * Once no write succeeds, with warnings off, a restore reports nothing restored and leaves
   * the database as it was: each failure is logged and skipped.
   */
  lemma RestoreListedExhausted(db: StateDb, listed: seq<Conversation>, ids: Option<seq<string>>,
                               chrono: Chrono, logging: Logging)
    requires db.present && db.hasTable && db.writesLeft == Some(0) && !logging.warn
    ensures RestoreListed(db, listed, ids, chrono, logging) == DbStep(Ok(RestoreResult(0, 0)), db)
  {
    forall c: Conversation
      ensures Restoring(chrono, logging)(db, c) == DbStep(Err(WRITE_FAILED), db)
    {
      RestoreShort(db, c, chrono, logging);
    }
    RestoreFromExhausted(db, listed, ids, Restoring(chrono, logging), logging, []);
  }

  /** A restore changes no entry outside the keys of the conversations it lists. */
  lemma RestoreListedFrame(db: StateDb, listed: seq<Conversation>, ids: Option<seq<string>>,
                           chrono: Chrono, logging: Logging, k: string)
    requires WellFormed(db)
    requires forall c :: c in listed ==> k !in RestoreKeys(c)
    ensures var r := RestoreListed(db, listed, ids, chrono, logging);
      && (k in r.db.entries ==> k in db.entries)
      && (k in db.entries ==> k in r.db.entries && r.db.entries[k] == db.entries[k])
  {
    var o := OpenStep(db);
    if o.result.Ok? {
      var restore := Restoring(chrono, logging);
      forall d: StateDb, c: Conversation | d.hasTable && c in listed
        ensures && restore(d, c).db.hasTable
                && (k in restore(d, c).db.entries <==> k in d.entries)
                && (k in d.entries ==> restore(d, c).db.entries[k] == d.entries[k])
      {
        RestoreFrame(d, c, chrono, logging, k);
        RestoreKeepsTable(d, c, chrono, logging);
      }
      RestoreFromFrame(o.db, listed, ids, restore, logging, [], k);
    }
  }

  lemma RestoreKeepsTable(db: StateDb, c: Conversation, chrono: Chrono, logging: Logging)
    requires db.hasTable
    ensures RestoreStep(db, c, chrono, logging).db.hasTable
  {
    if Affords(db, 1 + |c.bubbles|) {
      RestoreComplete(db, c, chrono, logging);
    } else {
      RestoreShort(db, c, chrono, logging);
    }
  }

  // ------------------------------------------------------------- opening with create

  /** `restore_all` with the database opened by `OpenCreatingStep` instead of `open`. */
  function RestoreAllCreatingStep(local: Tables, db: StateDb, chrono: Chrono, logging: Logging): DbStep<RestoreResult> {
    var o := OpenCreatingStep(db);
    if o.result.Err? then DbStep(Err(o.result.error), o.db)
    else RestoreAllStep(local, o.db, None, chrono, logging)
  }

  /** `auto_restore_if_needed` with the database opened by `OpenCreatingStep`. */
  function AutoRestoreCreatingStep(local: Tables, db: StateDb, chrono: Chrono, logging: Logging): DbStep<bool> {
    var n := NeedsRestoreStep(local, db);
    if n.result.Err? then n
    else if !n.result.value then DbStep(Ok(false), n.db)
    else
      var a := RestoreAllCreatingStep(local, n.db, chrono, logging);
      if a.result.Err? then DbStep(Err(a.result.error), a.db) else DbStep(Ok(true), a.db)
  }

  /**
   * With the create flag, a missing database is created and every conversation of the local
   * store is restored into it: the outcome the restore of a missing database is meant to have.
   */
  lemma AutoRestoreCreatesMissingDb(local: Tables, db: StateDb, chrono: Chrono, logging: Logging)
    requires !db.present && db.writesLeft.None? && !logging.debug
    ensures var r := AutoRestoreCreatingStep(local, db, chrono, logging);
      && r.result == Ok(true)
      && r.db.entries == RestoredAll(map[], ListConversations(local, None, chrono), chrono)
  {
    var o := OpenCreatingStep(db);
    assert o.result.Ok? && o.db.present && Unlimited(o.db) && o.db.entries == map[];
    RestoreAllRestoresEverything(local, o.db, chrono, logging);
  }

  // ------------------------------------------------------------- the service

  class RestoreService {
    /** The local backup store; `None` when its file does not exist. */
    const storage: Option<LocalStorage>
    /** Cursor's global state database; an error when Cursor's configuration directory is not found. */
    const cursorDb: Result<StateDbFile>

    constructor (storage: Option<LocalStorage>, cursorDb: Result<StateDbFile>)
      ensures this.storage == storage && this.cursorDb == cursorDb
    {
      this.storage := storage;
      this.cursorDb := cursorDb;
    }

    /** The objects the service may change: Cursor's database file. */
    function Files(): set<object> {
      if cursorDb.Ok? then {cursorDb.value} else {}
    }

    /** `needs_restore`. */
    method NeedsRestore() returns (r: Result<bool>)
      modifies Files()
      ensures storage.None? ==> r == Ok(false) && unchanged(Files())
      ensures storage.Some? && cursorDb.Err? ==> r == Err(cursorDb.error)
      ensures storage.Some? && cursorDb.Ok? ==>
        DbStep(r, cursorDb.value.Snapshot()) == NeedsRestoreStep(storage.value.Snapshot(), old(cursorDb.value.Snapshot()))
    {
      if storage.None? {
        return Ok(false);
      }
      if cursorDb.Err? {
        return Err(cursorDb.error);
      }
      var file := cursorDb.value;
      if !file.present {
        return Ok(true);
      }
      var localCount := storage.value.GetConversationCount();
      var conn := CursorWriter.Open(file);
      if conn.Err? {
        return Err(conn.error);
      }
      var cursorCount := conn.value.ConversationCount();
      return Ok(NeedsRestoreDecision(localCount.value, cursorCount.value));
    }

    /** `cursor_is_empty`. */
    method CursorIsEmpty() returns (r: Result<bool>)
      modifies Files()
      ensures cursorDb.Err? ==> r == Err(cursorDb.error)
      ensures cursorDb.Ok? ==> DbStep(r, cursorDb.value.Snapshot()) == CursorIsEmptyStep(old(cursorDb.value.Snapshot()))
    {
      if cursorDb.Err? {
        return Err(cursorDb.error);
      }
      var file := cursorDb.value;
      if !file.present {
        return Ok(true);
      }
      var conn := CursorWriter.Open(file);
      if conn.Err? {
        return Err(conn.error);
      }
      r := conn.value.IsEmpty();
    }

    /** The body shared by `restore_all` and `restore_by_ids`. */
    method RestoreSelected(ids: Option<seq<string>>, missing: AppError, logging: Logging)
      returns (r: Result<RestoreResult>)
      modifies Files()
      ensures storage.None? ==> r == Err(missing) && unchanged(Files())
      ensures storage.Some? && cursorDb.Err? ==> r == Err(cursorDb.error)
      ensures storage.Some? && cursorDb.Ok? ==>
        DbStep(r, cursorDb.value.Snapshot())
          == RestoreAllStep(storage.value.Snapshot(), old(cursorDb.value.Snapshot()), ids, storage.value.chrono, logging)
    {
      if storage.None? {
        return Err(missing);
      }
      if cursorDb.Err? {
        return Err(cursorDb.error);
      }
      var file := cursorDb.value;
      var local := storage.value;
      var chrono := local.chrono;
      ghost var initial := file.Snapshot();
      var conn := CursorWriter.Open(file);
      if conn.Err? {
        return Err(conn.error);
      }
      assert OpenStep(initial).db == file.Snapshot();
      var listed := local.GetConversations(None);
      r := RestoreEach(conn.value, listed.value, ids, chrono, logging);
    }

    /** The loop of `restore_all` and `restore_by_ids` over the listed conversations. */
    static method RestoreEach(writer: CursorWriter, cs: seq<Conversation>, ids: Option<seq<string>>,
                              chrono: Chrono, logging: Logging)
      returns (r: Result<RestoreResult>)
      modifies writer.file
      ensures DbStep(r, writer.file.Snapshot())
           == Tallied(RestoreFrom(old(writer.file.Snapshot()), cs, ids, Restoring(chrono, logging), logging, []))
    {
      var file := writer.file;
      ghost var start := file.Snapshot();
      var restored, messages := 0, 0;
      ghost var done: seq<Conversation> := [];
      var i := 0;
      while i < |cs|
        invariant 0 <= i <= |cs|
        invariant restored == |done| && messages == TotalMessages(done)
        invariant RestoreFrom(file.Snapshot(), cs[i..], ids, Restoring(chrono, logging), logging, done)
               == RestoreFrom(start, cs, ids, Restoring(chrono, logging), logging, [])
      {
        var c := cs[i];
        assert cs[i..][0] == c && cs[i..][1..] == cs[i + 1..];
        if ids.None? || Extractor.MatchesAnyFilter(c.composerId, ids.value) {
          var res := writer.RestoreConversation(c, chrono, logging);
          if res.Ok? {
            TotalMessagesSnoc(done, c);
            restored, messages := restored + 1, messages + |c.bubbles|;
            done := done + [c];
          } else if res.error.Panic? {
            return Err(res.error);
          } else if logging.warn && BytePrefix(c.composerId, 8).None? {
            return Err(SLICE_PANIC);
          }
        }
        i := i + 1;
      }
      return Ok(RestoreResult(restored, messages));
    }

    /** `restore_all`. */
    method RestoreAll(logging: Logging) returns (r: Result<RestoreResult>)
      modifies Files()
      ensures storage.None? ==> r == Err(NO_STORAGE) && unchanged(Files())
      ensures storage.Some? && cursorDb.Err? ==> r == Err(cursorDb.error)
      ensures storage.Some? && cursorDb.Ok? ==>
        DbStep(r, cursorDb.value.Snapshot())
          == RestoreAllStep(storage.value.Snapshot(), old(cursorDb.value.Snapshot()), None, storage.value.chrono, logging)
    {
      r := RestoreSelected(None, NO_STORAGE, logging);
    }

    /** `restore_by_ids`. */
    method RestoreByIds(ids: seq<string>, logging: Logging) returns (r: Result<RestoreResult>)
      modifies Files()
      ensures storage.None? ==> r == Err(NO_STORAGE_BY_IDS) && unchanged(Files())
      ensures storage.Some? && cursorDb.Err? ==> r == Err(cursorDb.error)
      ensures storage.Some? && cursorDb.Ok? ==>
        DbStep(r, cursorDb.value.Snapshot())
          == RestoreAllStep(storage.value.Snapshot(), old(cursorDb.value.Snapshot()), Some(ids), storage.value.chrono, logging)
    {
      r := RestoreSelected(Some(ids), NO_STORAGE_BY_IDS, logging);
    }

    /** `auto_restore_if_needed`. */
    method AutoRestoreIfNeeded(logging: Logging) returns (r: Result<bool>)
      modifies Files()
      ensures storage.None? ==> r == Ok(false) && unchanged(Files())
      ensures storage.Some? && cursorDb.Err? ==> r == Err(cursorDb.error)
      ensures storage.Some? && cursorDb.Ok? ==>
        DbStep(r, cursorDb.value.Snapshot())
          == AutoRestoreStep(storage.value.Snapshot(), old(cursorDb.value.Snapshot()), storage.value.chrono, logging)
    {
      var needs := NeedsRestore();
      if needs.Err? {
        return Err(needs.error);
      }
      if !needs.value {
        return Ok(false);
      }
      var result := RestoreAll(logging);
      if result.Err? {
        return Err(result.error);
      }
      return Ok(true);
    }
  }
}
