/**
 * Extraction of conversations from a Cursor state database (src/application/extractor.rs):
 * a fold of the composer entries into a map keyed by conversation id, a fold of the bubble
 * entries into it, then the size filter, bubble sorting, titles and newest-first order.
 */
module Extractor {
  import opened Base
  import opened Errors
  import opened Json
  import opened Text
  import opened Models
  import opened Chrono
  import opened Parser
  import opened Sorting
  import opened SqliteReader

  datatype ExtractOptions = ExtractOptions(
    globalOnly: bool,
    conversationIds: Option<seq<string>>,
    minMessages: nat,
    includeEmpty: bool)

  /** What decides whether an entry contributes: the id filter, the empty-text rule, the date parser. */
  datatype EntryRules = EntryRules(filter: Option<seq<string>>, includeEmpty: bool, chrono: Chrono)

  function RulesOf(options: ExtractOptions, chrono: Chrono): EntryRules {
    EntryRules(options.conversationIds, options.includeEmpty, chrono)
  }

  /** `matches_any_filter`: some filter occurs in the id; no filters match nothing. */
  function MatchesAnyFilter(id: string, filters: seq<string>): (r: bool)
    ensures r <==> exists k :: 0 <= k < |filters| && Contains(id, filters[k])
    ensures filters == [] ==> !r
    decreases |filters|
  {
    if filters == [] then false
    else
      var rest := MatchesAnyFilter(id, filters[1..]);
      assert forall k :: 1 <= k < |filters| ==> filters[1..][k - 1] == filters[k];
      StartsWith(id, filters[0]) || Contains(id, filters[0]) || rest
  }

  predicate PassesFilter(id: string, filter: Option<seq<string>>) {
    filter.None? || MatchesAnyFilter(id, filter.value)
  }

  /** The conversation record a composer yields, before any bubble is attached. */
  function ConversationOf(id: string, raw: RawComposer, chrono: Chrono): Conversation {
    Conversation(
      id, "",
      if raw.createdAt.Some? then chrono.FromTimestampMillis(AsI64(raw.createdAt.value)) else None,
      if raw.modelConfig.Some? then ModelConfig(raw.modelConfig.value.modelName, raw.modelConfig.value.maxMode)
      else DEFAULT_MODEL_CONFIG,
      if raw.unifiedMode.Some? then raw.unifiedMode.value else "",
      [])
  }

  /** The conversation a composer entry contributes: `None` for a foreign key, a filtered id or a bad payload. */
  function AcceptedComposer(e: RawKvEntry, rules: EntryRules): (r: Option<Conversation>)
    ensures r.Some? ==> (ExtractComposerId(e.key) == Some(r.value.composerId)
      && PassesFilter(r.value.composerId, rules.filter) && r.value.bubbles == [])
  {
    match ExtractComposerId(e.key)
    case None => None
    case Some(id) =>
      if !PassesFilter(id, rules.filter) then None
      else match ParseComposer(e.value)
        case Err(_) => None
        case Ok(raw) => Some(ConversationOf(id, raw, rules.chrono))
  }

  /** The conversations the composer entries contribute, in entry order. */
  function Accepted(es: seq<RawKvEntry>, rules: EntryRules): seq<Conversation>
    decreases |es|
  {
    if es == [] then []
    else
      var c := AcceptedComposer(es[|es| - 1], rules);
      Accepted(es[..|es| - 1], rules) + (if c.Some? then [c.value] else [])
  }

  /** Inserts each conversation under its id; a later one replaces an earlier one. */
  function InsertAll(m: map<string, Conversation>, cs: seq<Conversation>): map<string, Conversation>
    decreases |cs|
  {
    if cs == [] then m
    else InsertAll(m, cs[..|cs| - 1])[cs[|cs| - 1].composerId := cs[|cs| - 1]]
  }

  /** The conversation id and bubble an entry contributes, if it is included. */
  function IncludedBubble(e: RawKvEntry, rules: EntryRules): (r: Option<(string, Bubble)>)
    ensures r.Some? ==> ExtractConversationId(e.key) == Some(r.value.0) && PassesFilter(r.value.0, rules.filter)
    ensures r.Some? && !rules.includeEmpty ==> !IsBlank(r.value.1.text)
  {
    match ExtractConversationId(e.key)
    case None => None
    case Some(cid) =>
      if !PassesFilter(cid, rules.filter) then None
      else match ParseBubble(e.value, rules.chrono)
        case Err(_) => None
        case Ok(b) => if !rules.includeEmpty && IsBlank(b.text) then None else Some((cid, b))
  }

  /** The included bubbles with their conversation ids, in entry order. */
  function Included(es: seq<RawKvEntry>, rules: EntryRules): seq<(string, Bubble)>
    decreases |es|
  {
    if es == [] then []
    else
      var inc := IncludedBubble(es[|es| - 1], rules);
      Included(es[..|es| - 1], rules) + (if inc.Some? then [inc.value] else [])
  }

  function BubblesOf(ps: seq<(string, Bubble)>): (bs: seq<Bubble>)
    ensures |bs| == |ps| && forall i :: 0 <= i < |ps| ==> bs[i] == ps[i].1
  {
    seq(|ps|, i requires 0 <= i < |ps| => ps[i].1)
  }

  /** The bubbles among `ps` that belong to conversation `cid`, in order. */
  function BubblesFor(ps: seq<(string, Bubble)>, cid: string): seq<Bubble>
    decreases |ps|
  {
    if ps == [] then []
    else
      var p := ps[|ps| - 1];
      BubblesFor(ps[..|ps| - 1], cid) + (if p.0 == cid then [p.1] else [])
  }

  /** The placeholder conversation an orphan bubble creates. */
  function Orphan(cid: string, b: Bubble): Conversation {
    Conversation(cid, "", b.createdAt, DEFAULT_MODEL_CONFIG, "", [])
  }

  /** Appends a bubble to its conversation, creating a placeholder for an orphan. */
  function AddBubble(m: map<string, Conversation>, cid: string, b: Bubble): map<string, Conversation> {
    var c := if cid in m then m[cid] else Orphan(cid, b);
    m[cid := c.(bubbles := c.bubbles + [b])]
  }

  /** Adds the bubbles `ps` in order. */
  function AddBubbles(m: map<string, Conversation>, ps: seq<(string, Bubble)>): map<string, Conversation>
    decreases |ps|
  {
    if ps == [] then m
    else AddBubble(AddBubbles(m, ps[..|ps| - 1]), ps[|ps| - 1].0, ps[|ps| - 1].1)
  }

  /** The map's keys are the ids of its conversations. */
  predicate KeyedById(m: map<string, Conversation>) {
    forall k :: k in m ==> m[k].composerId == k
  }

  /** The conversations of the composer pass over the whole table. */
  function Composers(rows: seq<Row>, rules: EntryRules): map<string, Conversation> {
    InsertAll(map[], Accepted(Select(rows, SqliteReader.COMPOSER_PREFIX), rules))
  }

  /** The conversations of both passes over the whole table. */
  function Merged(rows: seq<Row>, rules: EntryRules): map<string, Conversation> {
    AddBubbles(Composers(rows, rules), Included(Select(rows, SqliteReader.BUBBLE_PREFIX), rules))
  }

  /** Position `i` of `cs` holds the conversation with id `k`, and no later position does. */
  predicate LastWithId(cs: seq<Conversation>, k: string, i: int) {
    0 <= i < |cs| && cs[i].composerId == k && forall j :: i < j < |cs| ==> cs[j].composerId != k
  }

  /** Inserting conversations under their own ids keeps the map keyed by id. */
  lemma {:induction false} InsertAllKeyed(m: map<string, Conversation>, cs: seq<Conversation>)
    requires KeyedById(m)
    ensures KeyedById(InsertAll(m, cs))
    decreases |cs|
  {
    if cs != [] {
      InsertAllKeyed(m, cs[..|cs| - 1]);
    }
  }

  /** The composer pass: an id is present exactly when it was already or some accepted composer has it. */
  lemma {:induction false} InsertAllMembers(m: map<string, Conversation>, cs: seq<Conversation>, k: string)
    ensures k in InsertAll(m, cs) <==> k in m || exists i :: 0 <= i < |cs| && cs[i].composerId == k
    decreases |cs|
  {
    if cs != [] {
      var init := cs[..|cs| - 1];
      InsertAllMembers(m, init, k);
      if exists i :: 0 <= i < |init| && init[i].composerId == k {
        var i :| 0 <= i < |init| && init[i].composerId == k;
        assert cs[i].composerId == k;
      }
      if exists i :: 0 <= i < |cs| && cs[i].composerId == k {
        var i :| 0 <= i < |cs| && cs[i].composerId == k;
        if i < |init| {
          assert init[i].composerId == k;
        }
      }
    }
  }

  /** A later composer with the same id replaces an earlier one: the id holds the last one's conversation. */
  lemma {:induction false} InsertAllLast(m: map<string, Conversation>, cs: seq<Conversation>, k: string, i: nat)
    requires LastWithId(cs, k, i)
    ensures k in InsertAll(m, cs) && InsertAll(m, cs)[k] == cs[i]
    decreases |cs|
  {
    var init := cs[..|cs| - 1];
    if i < |init| {
      assert LastWithId(init, k, i);
      InsertAllLast(m, init, k, i);
    }
  }

  /** Adding bubbles keeps the map keyed by id. */
  lemma {:induction false} AddBubblesKeyed(m: map<string, Conversation>, ps: seq<(string, Bubble)>)
    requires KeyedById(m)
    ensures KeyedById(AddBubbles(m, ps))
    decreases |ps|
  {
    if ps != [] {
      AddBubblesKeyed(m, ps[..|ps| - 1]);
    }
  }

  /** Whether an id is a key of the bubble pass's result, and the conversation it holds. */
  lemma {:induction false} AddBubblesContents(m: map<string, Conversation>, ps: seq<(string, Bubble)>, cid: string)
    ensures cid in AddBubbles(m, ps) <==> cid in m || BubblesFor(ps, cid) != []
    ensures cid in AddBubbles(m, ps) ==>
      var base := if cid in m then m[cid] else Orphan(cid, BubblesFor(ps, cid)[0]);
      AddBubbles(m, ps)[cid] == base.(bubbles := base.bubbles + BubblesFor(ps, cid))
    decreases |ps|
  {
    if ps != [] {
      var init := ps[..|ps| - 1];
      var p := ps[|ps| - 1];
      AddBubblesContents(m, init, cid);
      var prevFor := BubblesFor(init, cid);
      if p.0 == cid && prevFor != [] {
        assert BubblesFor(ps, cid)[0] == prevFor[0];
      }
    }
  }

  /**
   * Each included bubble lands in the conversation its key names: a conversation holds its
   * composer's bubbles (none) followed by exactly the included bubbles naming it, in entry
   * order. An id without a composer gets a placeholder with an empty title and mode, the
   * default model configuration and the time of its first bubble.
   */
  lemma MergedConversation(rows: seq<Row>, rules: EntryRules, cid: string)
    ensures KeyedById(Merged(rows, rules))
    ensures var composers := Composers(rows, rules);
      var bubbles := BubblesFor(Included(Select(rows, SqliteReader.BUBBLE_PREFIX), rules), cid);
      && (cid in Merged(rows, rules) <==> cid in composers || bubbles != [])
      && (cid in composers ==> Merged(rows, rules)[cid] == composers[cid].(bubbles := bubbles))
      && (cid !in composers && bubbles != [] ==>
            Merged(rows, rules)[cid] == Orphan(cid, bubbles[0]).(bubbles := bubbles))
  {
    var cs := Accepted(Select(rows, SqliteReader.COMPOSER_PREFIX), rules);
    InsertAllKeyed(map[], cs);
    AddBubblesKeyed(Composers(rows, rules), Included(Select(rows, SqliteReader.BUBBLE_PREFIX), rules));
    InsertAllMembers(map[], cs, cid);
    AcceptedShape(Select(rows, SqliteReader.COMPOSER_PREFIX), rules);
    if cid in Composers(rows, rules) {
      var i :| 0 <= i < |cs| && cs[i].composerId == cid;
      var last := LastIndex(cs, cid, i);
      InsertAllLast(map[], cs, cid, last);
    }
    AddBubblesContents(Composers(rows, rules), Included(Select(rows, SqliteReader.BUBBLE_PREFIX), rules), cid);
  }

  /** Some position holds the id, so a last one does. */
  lemma {:induction false} LastIndex(cs: seq<Conversation>, k: string, i: nat) returns (last: nat)
    requires i < |cs| && cs[i].composerId == k
    ensures LastWithId(cs, k, last)
    decreases |cs| - i
  {
    if forall j :: i < j < |cs| ==> cs[j].composerId != k {
      last := i;
    } else {
      var j :| i < j < |cs| && cs[j].composerId == k;
      last := LastIndex(cs, k, j);
    }
  }

  /** Accepted composers have no bubbles yet and ids that pass the filter. */
  lemma {:induction false} AcceptedShape(es: seq<RawKvEntry>, rules: EntryRules)
    ensures forall i :: 0 <= i < |Accepted(es, rules)| ==>
      Accepted(es, rules)[i].bubbles == [] && PassesFilter(Accepted(es, rules)[i].composerId, rules.filter)
    decreases |es|
  {
    if es != [] {
      AcceptedShape(es[..|es| - 1], rules);
    }
  }

  /** Included bubbles name conversations whose ids pass the filter, and are not blank unless requested. */
  lemma {:induction false} IncludedShape(es: seq<RawKvEntry>, rules: EntryRules)
    ensures forall i :: 0 <= i < |Included(es, rules)| ==>
      PassesFilter(Included(es, rules)[i].0, rules.filter)
      && (!rules.includeEmpty ==> !IsBlank(Included(es, rules)[i].1.text))
    decreases |es|
  {
    if es != [] {
      IncludedShape(es[..|es| - 1], rules);
    }
  }

  lemma {:induction false} BubblesForNonEmpty(ps: seq<(string, Bubble)>, cid: string)
    requires BubblesFor(ps, cid) != []
    ensures exists i :: 0 <= i < |ps| && ps[i].0 == cid
    decreases |ps|
  {
    var init := ps[..|ps| - 1];
    if BubblesFor(init, cid) != [] {
      BubblesForNonEmpty(init, cid);
      var i :| 0 <= i < |init| && init[i].0 == cid;
      assert ps[i].0 == cid;
    } else {
      assert ps[|ps| - 1].0 == cid;
    }
  }

  /** With an id filter, every extracted conversation's id passes it. */
  lemma FilteredIds(rows: seq<Row>, rules: EntryRules, cid: string)
    requires cid in Merged(rows, rules)
    ensures PassesFilter(cid, rules.filter)
  {
    var cs := Accepted(Select(rows, SqliteReader.COMPOSER_PREFIX), rules);
    var ps := Included(Select(rows, SqliteReader.BUBBLE_PREFIX), rules);
    MergedConversation(rows, rules, cid);
    InsertAllMembers(map[], cs, cid);
    AcceptedShape(Select(rows, SqliteReader.COMPOSER_PREFIX), rules);
    IncludedShape(Select(rows, SqliteReader.BUBBLE_PREFIX), rules);
    if BubblesFor(ps, cid) != [] {
      BubblesForNonEmpty(ps, cid);
    }
  }

  lemma {:induction false} AcceptedAppend(a: seq<RawKvEntry>, b: seq<RawKvEntry>, rules: EntryRules)
    ensures Accepted(a + b, rules) == Accepted(a, rules) + Accepted(b, rules)
    decreases |b|
  {
    if b == [] {
      assert a + b == a;
    } else {
      AcceptedAppend(a, b[..|b| - 1], rules);
      assert (a + b)[..|a + b| - 1] == a + b[..|b| - 1];
    }
  }

  lemma {:induction false} IncludedAppend(a: seq<RawKvEntry>, b: seq<RawKvEntry>, rules: EntryRules)
    ensures Included(a + b, rules) == Included(a, rules) + Included(b, rules)
    decreases |b|
  {
    if b == [] {
      assert a + b == a;
    } else {
      IncludedAppend(a, b[..|b| - 1], rules);
      assert (a + b)[..|a + b| - 1] == a + b[..|b| - 1];
    }
  }

  /** A composer entry that is not accepted (bad payload, filtered id) is as if it were absent. */
  lemma SkippedComposer(es: seq<RawKvEntry>, i: nat, rules: EntryRules)
    requires i < |es| && AcceptedComposer(es[i], rules).None?
    ensures Accepted(es[..i] + es[i + 1..], rules) == Accepted(es, rules)
  {
    assert es == es[..i] + [es[i]] + es[i + 1..];
    AcceptedAppend(es[..i] + [es[i]], es[i + 1..], rules);
    AcceptedAppend(es[..i], [es[i]], rules);
    AcceptedAppend(es[..i], es[i + 1..], rules);
    assert [es[i]][..0] == [];
  }

  /** A bubble entry that is not included (bad payload, filtered id, empty text) is as if it were absent. */
  lemma SkippedBubble(es: seq<RawKvEntry>, i: nat, rules: EntryRules)
    requires i < |es| && IncludedBubble(es[i], rules).None?
    ensures Included(es[..i] + es[i + 1..], rules) == Included(es, rules)
  {
    assert es == es[..i] + [es[i]] + es[i + 1..];
    IncludedAppend(es[..i] + [es[i]], es[i + 1..], rules);
    IncludedAppend(es[..i], [es[i]], rules);
    IncludedAppend(es[..i], es[i + 1..], rules);
    assert [es[i]][..0] == [];
  }

  /** Sorts the bubbles by time and sets the title; `None` where computing the title panics. */
  function Finalize(c: Conversation): (r: Option<Conversation>)
    ensures r.Some? ==> r.value.composerId == c.composerId && r.value.createdAt == c.createdAt
  {
    var sorted := c.(bubbles := SortBy(c.bubbles, BubbleTime, false));
    match GenerateTitle(sorted)
    case None => None
    case Some(t) => Some(sorted.(title := t))
  }

  predicate Kept(m: map<string, Conversation>, k: string, minMessages: nat) {
    k in m && |m[k].bubbles| >= minMessages
  }

  /** Some conversation that passes the size filter panics while getting its title. */
  ghost predicate TitlePanics(m: map<string, Conversation>, minMessages: nat) {
    exists k :: Kept(m, k, minMessages) && Finalize(m[k]).None?
  }

  /** `order` lists each key of `keys` once: an iteration order of a hash map. */
  ghost predicate Enumerates(order: seq<string>, keys: set<string>) {
    (forall i, j :: 0 <= i < j < |order| ==> order[i] != order[j])
    && (forall k :: k in order <==> k in keys)
  }

  /** Every key `order` visits is in `m`, and each one large enough finalises without panicking. */
  predicate FinishesIn(m: map<string, Conversation>, order: seq<string>, minMessages: nat,
                       finish: Conversation -> Option<Conversation>) {
    forall i :: 0 <= i < |order| ==>
      order[i] in m && (|m[order[i]].bubbles| >= minMessages ==> finish(m[order[i]]).Some?)
  }

  predicate FinalizesIn(m: map<string, Conversation>, order: seq<string>, minMessages: nat) {
    FinishesIn(m, order, minMessages, Finalize)
  }

  /** The finished conversations that pass the size filter, in the order `order` visits them. */
  function Collect(m: map<string, Conversation>, order: seq<string>, minMessages: nat,
                   finish: Conversation -> Option<Conversation>): seq<Conversation>
    requires FinishesIn(m, order, minMessages, finish)
    decreases |order|
  {
    if order == [] then []
    else
      var k := order[|order| - 1];
      Collect(m, order[..|order| - 1], minMessages, finish)
      + (if |m[k].bubbles| >= minMessages then [finish(m[k]).value] else [])
  }

  /** The extracted list: the finalised conversations that pass the size filter, newest first. */
  function Extracted(m: map<string, Conversation>, order: seq<string>, minMessages: nat): seq<Conversation>
    requires FinalizesIn(m, order, minMessages)
  {
    SortBy(Collect(m, order, minMessages, Finalize), ConversationTime, true)
  }

  /** Position `i` of `order` contributes `c` to the collected list. */
  predicate CollectedAt(m: map<string, Conversation>, order: seq<string>, minMessages: nat,
                        finish: Conversation -> Option<Conversation>, i: int, c: Conversation)
    requires FinishesIn(m, order, minMessages, finish)
  {
    0 <= i < |order| && |m[order[i]].bubbles| >= minMessages && finish(m[order[i]]) == Some(c)
  }

  /** A conversation is collected exactly when some visited, large enough key finishes as it. */
  lemma {:induction false} CollectMembers(m: map<string, Conversation>, order: seq<string>, minMessages: nat,
                                          finish: Conversation -> Option<Conversation>, c: Conversation)
    requires FinishesIn(m, order, minMessages, finish)
    ensures c in Collect(m, order, minMessages, finish) <==> exists i :: CollectedAt(m, order, minMessages, finish, i, c)
    decreases |order|
  {
    if order != [] {
      var init := order[..|order| - 1];
      assert FinishesIn(m, init, minMessages, finish);
      CollectMembers(m, init, minMessages, finish, c);
      if exists i :: CollectedAt(m, init, minMessages, finish, i, c) {
        var i :| CollectedAt(m, init, minMessages, finish, i, c);
        assert CollectedAt(m, order, minMessages, finish, i, c);
      }
      var k := order[|init|];
      if |m[k].bubbles| >= minMessages && c == finish(m[k]).value {
        assert CollectedAt(m, order, minMessages, finish, |init|, c);
      }
      if exists i :: CollectedAt(m, order, minMessages, finish, i, c) {
        var i :| CollectedAt(m, order, minMessages, finish, i, c);
        if i < |init| {
          assert CollectedAt(m, init, minMessages, finish, i, c);
        } else {
          assert c == finish(m[order[i]]).value;
        }
      }
    }
  }

  /** A finalised conversation has the same bubbles, now in ascending time order. */
  lemma FinalizeBubbles(c: Conversation)
    requires Finalize(c).Some?
    ensures multiset(Finalize(c).value.bubbles) == multiset(c.bubbles)
    ensures |Finalize(c).value.bubbles| == |c.bubbles|
    ensures Sorted(Finalize(c).value.bubbles, BubbleTime, false)
  {
    SortByPermutes(c.bubbles, BubbleTime, false);
    SortBySorted(c.bubbles, BubbleTime, false);
  }

  /**
   * Whatever the hash map's iteration order: the list is newest first; each listed
   * conversation is the finalised form of the conversation with its id, so it has at least
   * `minMessages` bubbles, in ascending time order; and every conversation with enough
   * bubbles is listed.
   */
  lemma ExtractedProperties(m: map<string, Conversation>, order: seq<string>, minMessages: nat)
    requires KeyedById(m) && Enumerates(order, m.Keys) && !TitlePanics(m, minMessages)
    ensures FinalizesIn(m, order, minMessages)
    ensures Sorted(Extracted(m, order, minMessages), ConversationTime, true)
    ensures forall c :: c in Extracted(m, order, minMessages) ==>
      Kept(m, c.composerId, minMessages) && Finalize(m[c.composerId]) == Some(c)
      && |c.bubbles| >= minMessages && Sorted(c.bubbles, BubbleTime, false)
    ensures forall k :: Kept(m, k, minMessages) ==>
      exists c :: c in Extracted(m, order, minMessages) && c.composerId == k
  {
    var col := Collect(m, order, minMessages, Finalize);
    SortBySorted(col, ConversationTime, true);
    SortByPermutes(col, ConversationTime, true);
    var ex := Extracted(m, order, minMessages);
    forall c | c in ex
      ensures Kept(m, c.composerId, minMessages) && Finalize(m[c.composerId]) == Some(c)
      ensures |c.bubbles| >= minMessages && Sorted(c.bubbles, BubbleTime, false)
    {
      assert c in multiset(ex);
      CollectMembers(m, order, minMessages, Finalize, c);
      var i :| CollectedAt(m, order, minMessages, Finalize, i, c);
      FinalizeBubbles(m[order[i]]);
    }
    forall k | Kept(m, k, minMessages)
      ensures exists c :: c in ex && c.composerId == k
    {
      var i :| 0 <= i < |order| && order[i] == k;
      var c := Finalize(m[k]).value;
      CollectMembers(m, order, minMessages, Finalize, c);
      assert CollectedAt(m, order, minMessages, Finalize, i, c);
      assert c in multiset(col);
    }
  }

  /** The extraction statistics after counting the included bubbles `inc`. */
  function CountBubbles(stats: ExtractionStats, inc: seq<Bubble>): ExtractionStats {
    stats.(totalBubbles := stats.totalBubbles + |inc|,
           userMessages := stats.userMessages + CountType(inc, User),
           assistantMessages := stats.assistantMessages + CountType(inc, Assistant))
  }

  /** The counters grow by the included bubbles; the user and assistant counts stay within the total. */
  lemma CountBubblesBounds(stats: ExtractionStats, inc: seq<Bubble>)
    requires stats.userMessages + stats.assistantMessages <= stats.totalBubbles
    ensures var s := CountBubbles(stats, inc);
      s.totalBubbles == stats.totalBubbles + |inc|
      && s.userMessages + s.assistantMessages <= s.totalBubbles
  {
    CountTypesPartition(inc);
  }

  /** The id filter and parse steps the composer loop applies to one entry. */
  method ExamineComposer(entry: RawKvEntry, options: ExtractOptions, chrono: Chrono)
    returns (accepted: Option<Conversation>)
    ensures accepted == AcceptedComposer(entry, RulesOf(options, chrono))
  {
    var id := ExtractComposerId(entry.key);
    if id.None? {
      return None;
    }
    if options.conversationIds.Some? && !MatchesAnyFilter(id.value, options.conversationIds.value) {
      return None;
    }
    var parsed := ParseComposer(entry.value);
    if parsed.Err? {
      return None;
    }
    return Some(ConversationOf(id.value, parsed.value, chrono));
  }

  /** The composer loop of `extract_from_database`: parsed composers by id, later entries replacing earlier ones. */
  method CollectComposers(composers: seq<RawKvEntry>, options: ExtractOptions, chrono: Chrono)
    returns (conversations: map<string, Conversation>)
    ensures conversations == InsertAll(map[], Accepted(composers, RulesOf(options, chrono)))
  {
    ghost var rules := RulesOf(options, chrono);
    conversations := map[];
    for i := 0 to |composers|
      invariant conversations == InsertAll(map[], Accepted(composers[..i], rules))
    {
      assert composers[..i + 1][..i] == composers[..i];
      var accepted := ExamineComposer(composers[i], options, chrono);
      ghost var cs := Accepted(composers[..i], rules);
      AcceptedSnoc(composers, i, rules);
      if accepted.Some? {
        var conversation := accepted.value;
        assert (cs + [conversation])[..|cs|] == cs;
        conversations := conversations[conversation.composerId := conversation];
      } else {
        assert cs + [] == cs;
      }
    }
    assert composers[..|composers|] == composers;
  }

  lemma AcceptedSnoc(es: seq<RawKvEntry>, i: nat, rules: EntryRules)
    requires i < |es|
    ensures var c := AcceptedComposer(es[i], rules);
      Accepted(es[..i + 1], rules) == Accepted(es[..i], rules) + (if c.Some? then [c.value] else [])
  {
    assert es[..i + 1][..i] == es[..i];
  }

  lemma IncludedSnoc(es: seq<RawKvEntry>, i: nat, rules: EntryRules)
    requires i < |es|
    ensures var inc := IncludedBubble(es[i], rules);
      Included(es[..i + 1], rules) == Included(es[..i], rules) + (if inc.Some? then [inc.value] else [])
  {
    assert es[..i + 1][..i] == es[..i];
  }

  /** One more bubble entry: its bubble, if included, is attached to its conversation. */
  lemma MergeStep(conversations: map<string, Conversation>, es: seq<RawKvEntry>, j: nat, rules: EntryRules)
    requires j < |es|
    ensures var inc := IncludedBubble(es[j], rules);
      var m := AddBubbles(conversations, Included(es[..j], rules));
      AddBubbles(conversations, Included(es[..j + 1], rules)) == (if inc.Some? then AddBubble(m, inc.value.0, inc.value.1) else m)
  {
    var ps := Included(es[..j], rules);
    IncludedSnoc(es, j, rules);
    if IncludedBubble(es[j], rules).Some? {
      assert (ps + [IncludedBubble(es[j], rules).value])[..|ps|] == ps;
    } else {
      assert ps + [] == ps;
    }
  }

  lemma CountStep(stats: ExtractionStats, ps: seq<(string, Bubble)>, cid: string, bubble: Bubble)
    ensures var before := CountBubbles(stats, BubblesOf(ps));
      CountBubbles(stats, BubblesOf(ps + [(cid, bubble)]))
      == before.(totalBubbles := before.totalBubbles + 1,
                 userMessages := before.userMessages + (if bubble.bubbleType == User then 1 else 0),
                 assistantMessages := before.assistantMessages + (if bubble.bubbleType == Assistant then 1 else 0))
  {
    assert BubblesOf(ps + [(cid, bubble)]) == BubblesOf(ps) + [bubble];
    CountTypeAppend(BubblesOf(ps), [bubble], User);
    CountTypeAppend(BubblesOf(ps), [bubble], Assistant);
    assert [bubble][1..] == [];
  }

  /** The filter, parse and empty-text steps the bubble loop applies to one entry. */
  method ExamineBubble(entry: RawKvEntry, options: ExtractOptions, chrono: Chrono)
    returns (included: Option<(string, Bubble)>)
    ensures included == IncludedBubble(entry, RulesOf(options, chrono))
  {
    var cid := ExtractConversationId(entry.key);
    if cid.None? {
      return None;
    }
    if options.conversationIds.Some? && !MatchesAnyFilter(cid.value, options.conversationIds.value) {
      return None;
    }
    var parsed := ParseBubble(entry.value, chrono);
    if parsed.Err? {
      return None;
    }
    if !options.includeEmpty && IsBlank(parsed.value.text) {
      return None;
    }
    return Some((cid.value, parsed.value));
  }

  /** The body of the bubble loop for an included bubble: it is counted and appended to its conversation. */
  method AbsorbBubble(conversations: map<string, Conversation>, stats: ExtractionStats, cid: string, bubble: Bubble)
    returns (merged: map<string, Conversation>, statsOut: ExtractionStats)
    ensures merged == AddBubble(conversations, cid, bubble)
    ensures statsOut == stats.(totalBubbles := stats.totalBubbles + 1,
                               userMessages := stats.userMessages + (if bubble.bubbleType == User then 1 else 0),
                               assistantMessages := stats.assistantMessages + (if bubble.bubbleType == Assistant then 1 else 0))
  {
    statsOut := stats.(totalBubbles := stats.totalBubbles + 1);
    match bubble.bubbleType {
      case User => statsOut := statsOut.(userMessages := statsOut.userMessages + 1);
      case Assistant => statsOut := statsOut.(assistantMessages := statsOut.assistantMessages + 1);
      case Unknown =>
    }
    var conversation := if cid in conversations then conversations[cid] else Orphan(cid, bubble);
    merged := conversations[cid := conversation.(bubbles := conversation.bubbles + [bubble])];
  }

  /**
   * The bubble loop of `extract_from_database`: each included bubble is counted and appended
   * to its conversation, an orphan one creating a placeholder.
   */
  method CollectBubbles(conversations: map<string, Conversation>, entries: seq<RawKvEntry>,
                        options: ExtractOptions, chrono: Chrono, stats: ExtractionStats)
    returns (merged: map<string, Conversation>, statsOut: ExtractionStats)
    ensures merged == AddBubbles(conversations, Included(entries, RulesOf(options, chrono)))
    ensures statsOut == CountBubbles(stats, BubblesOf(Included(entries, RulesOf(options, chrono))))
  {
    ghost var rules := RulesOf(options, chrono);
    merged, statsOut := conversations, stats;
    for j := 0 to |entries|
      invariant merged == AddBubbles(conversations, Included(entries[..j], rules))
      invariant statsOut == CountBubbles(stats, BubblesOf(Included(entries[..j], rules)))
    {
      var included := ExamineBubble(entries[j], options, chrono);
      ghost var ps := Included(entries[..j], rules);
      IncludedSnoc(entries, j, rules);
      MergeStep(conversations, entries, j, rules);
      if included.None? {
        assert ps + [] == ps;
        continue;
      }
      var (cid, bubble) := included.value;
      assert Included(entries[..j + 1], rules) == ps + [(cid, bubble)];
      CountStep(stats, ps, cid, bubble);
      merged, statsOut := AbsorbBubble(merged, statsOut, cid, bubble);
    }
    assert entries[..|entries|] == entries;
  }

  lemma CollectSnoc(m: map<string, Conversation>, order: seq<string>, k: string, minMessages: nat,
                    finish: Conversation -> Option<Conversation>)
    requires FinishesIn(m, order, minMessages, finish)
    requires k in m && (|m[k].bubbles| >= minMessages ==> finish(m[k]).Some?)
    ensures FinishesIn(m, order + [k], minMessages, finish)
    ensures Collect(m, order + [k], minMessages, finish)
      == Collect(m, order, minMessages, finish) + (if |m[k].bubbles| >= minMessages then [finish(m[k]).value] else [])
  {
    assert (order + [k])[..|order|] == order;
  }

  /** `keys` are the keys of `m` still to visit and `order` those visited, each once. */
  ghost predicate Visited(m: map<string, Conversation>, keys: set<string>, order: seq<string>) {
    && keys <= m.Keys
    && (forall k :: k in m ==> (k in keys <==> k !in order))
    && (forall k :: k in order ==> k in m)
    && (forall i, j :: 0 <= i < j < |order| ==> order[i] != order[j])
  }

  lemma VisitStep(m: map<string, Conversation>, keys: set<string>, order: seq<string>, k: string)
    requires Visited(m, keys, order) && k in keys
    ensures Visited(m, keys - {k}, order + [k])
  {
  }

  /** A finished visit enumerates the map, and no kept conversation panics. */
  lemma VisitedAll(m: map<string, Conversation>, order: seq<string>, minMessages: nat)
    requires Visited(m, {}, order) && FinalizesIn(m, order, minMessages)
    ensures Enumerates(order, m.Keys) && !TitlePanics(m, minMessages)
  {
    forall k | Kept(m, k, minMessages) ensures Finalize(m[k]).Some? {
      var i :| 0 <= i < |order| && order[i] == k;
    }
  }

  /**
   * The final loop and sort of `extract_from_database`: conversations with enough bubbles get
   * sorted bubbles and a title, then the list is sorted newest first. Visiting a hash map
   * follows an order the model does not fix; it is returned as the ghost `order`.
   */
  method FinishConversations(m: map<string, Conversation>, minMessages: nat)
    returns (r: Result<seq<Conversation>>, ghost order: seq<string>)
    ensures r.Ok? <==> !TitlePanics(m, minMessages)
    ensures r.Err? ==> r == Err(SLICE_PANIC)
    ensures r.Ok? ==> Enumerates(order, m.Keys) && FinalizesIn(m, order, minMessages)
                      && r.value == Extracted(m, order, minMessages)
  {
    order := [];
    var keys := m.Keys;
    var kept: seq<Conversation> := [];
    while keys != {}
      invariant Visited(m, keys, order)
      invariant FinalizesIn(m, order, minMessages)
      invariant kept == Collect(m, order, minMessages, Finalize)
      decreases |keys|
    {
      var k :| k in keys;
      if |m[k].bubbles| >= minMessages {
        var finished := Finalize(m[k]);
        if finished.None? {
          assert Kept(m, k, minMessages);
          return Err(SLICE_PANIC), order;
        }
        kept := kept + [finished.value];
      }
      CollectSnoc(m, order, k, minMessages, Finalize);
      VisitStep(m, keys, order, k);
      order := order + [k];
      keys := keys - {k};
    }
    VisitedAll(m, order, minMessages);
    var conversations := SortBy(kept, ConversationTime, true);
    return Ok(conversations), order;
  }

  /** `extract_from_database`. */
  method ExtractFromDatabase(file: DbFile, options: ExtractOptions, chrono: Chrono, stats: ExtractionStats)
    returns (r: Result<seq<Conversation>>, statsOut: ExtractionStats, ghost order: seq<string>)
    ensures file.Missing? ==> r == Err(OPEN_FAILED) && statsOut == stats
    ensures file.Present? && file.kvTable.None? ==> r == Err(NO_KV_TABLE) && statsOut == stats
    ensures file.Present? && file.kvTable.Some? ==>
      var rows := file.kvTable.value;
      var m := Merged(rows, RulesOf(options, chrono));
      && (r.Ok? <==> !TitlePanics(m, options.minMessages))
      && (r.Err? ==> r == Err(SLICE_PANIC))
      && (r.Ok? ==>
            Enumerates(order, m.Keys) && FinalizesIn(m, order, options.minMessages)
            && r.value == Extracted(m, order, options.minMessages)
            && statsOut == CountBubbles(stats, BubblesOf(Included(Select(rows, SqliteReader.BUBBLE_PREFIX), RulesOf(options, chrono))))
                             .(conversationCount := |r.value|))
  {
    statsOut := stats;
    order := [];
    var readerOrError := Open(file);
    if readerOrError.Err? {
      return Err(readerOrError.error), statsOut, order;
    }
    var reader := readerOrError.value;
    var composers := reader.FetchComposers();
    if composers.Err? {
      return Err(composers.error), statsOut, order;
    }
    var conversations := CollectComposers(composers.value, options, chrono);
    var bubbles := reader.FetchBubbles();
    match bubbles {
      case Err(e) =>
        r := Err(e);
      case Ok(entries) =>
        conversations, statsOut := CollectBubbles(conversations, entries, options, chrono, statsOut);
        r, order := FinishConversations(conversations, options.minMessages);
        if r.Ok? {
          statsOut := statsOut.(conversationCount := |r.value|);
        }
    }
  }

  /** The first database whose path mentions the global storage directory. */
  function FindGlobalDb(paths: seq<string>): (r: Option<string>)
    ensures r.Some? ==> (Contains(r.value, "globalStorage")
      && exists i :: 0 <= i < |paths| && paths[i] == r.value
                     && forall j :: 0 <= j < i ==> !Contains(paths[j], "globalStorage"))
    ensures r.None? <==> forall i :: 0 <= i < |paths| ==> !Contains(paths[i], "globalStorage")
    decreases |paths|
  {
    if paths == [] then None
    else if Contains(paths[0], "globalStorage") then Some(paths[0])
    else
      var r := FindGlobalDb(paths[1..]);
      assert forall i :: 1 <= i < |paths| ==> paths[1..][i - 1] == paths[i];
      r
  }

  const GLOBAL_NOT_FOUND := Config("Global storage database not found")

  /** The file at a path; a path with no file is a missing database. */
  function FileAt(files: map<string, DbFile>, path: string): DbFile {
    if path in files then files[path] else Missing
  }

  /**
   * `extract_all_conversations`: `databases` is what locating Cursor's databases produced and
   * `files` the database files by path.
   */
  method ExtractAllConversations(databases: Result<seq<string>>, files: map<string, DbFile>,
                                 options: ExtractOptions, chrono: Chrono)
    returns (r: Result<(seq<Conversation>, ExtractionStats)>, ghost order: seq<string>)
    ensures databases.Err? ==> r == Err(databases.error)
    ensures databases.Ok? && FindGlobalDb(databases.value).None? ==> r == Err(GLOBAL_NOT_FOUND)
    ensures r.Ok? ==> databases.Ok? && FindGlobalDb(databases.value).Some?
    ensures databases.Ok? && FindGlobalDb(databases.value).Some? ==>
      var file := FileAt(files, FindGlobalDb(databases.value).value);
      && (file.Missing? ==> r == Err(OPEN_FAILED))
      && (file.Present? && file.kvTable.None? ==> r == Err(NO_KV_TABLE))
      && (file.Present? && file.kvTable.Some? ==>
            var m := Merged(file.kvTable.value, RulesOf(options, chrono));
            && (r.Ok? <==> !TitlePanics(m, options.minMessages))
            && (r.Err? ==> r == Err(SLICE_PANIC)))
    ensures r.Ok? ==>
      var file := FileAt(files, FindGlobalDb(databases.value).value);
      file.Present? && file.kvTable.Some? &&
      var rows := file.kvTable.value;
      var m := Merged(rows, RulesOf(options, chrono));
      Enumerates(order, m.Keys) && FinalizesIn(m, order, options.minMessages)
      && r.value.0 == Extracted(m, order, options.minMessages)
      && r.value.1 == CountBubbles(EMPTY_STATS, BubblesOf(Included(Select(rows, SqliteReader.BUBBLE_PREFIX), RulesOf(options, chrono))))
                        .(conversationCount := |r.value.0|,
                          databasesScanned := if options.globalOnly then 1 else |databases.value|)
  {
    order := [];
    if databases.Err? {
      return Err(databases.error), order;
    }
    var global := FindGlobalDb(databases.value);
    if global.None? {
      return Err(GLOBAL_NOT_FOUND), order;
    }
    var conversations, stats;
    conversations, stats, order := ExtractFromDatabase(FileAt(files, global.value), options, chrono, EMPTY_STATS);
    if conversations.Err? {
      return Err(conversations.error), order;
    }
    stats := stats.(databasesScanned := if options.globalOnly then 1 else |databases.value|);
    return Ok((conversations.value, stats)), order;
  }
}
