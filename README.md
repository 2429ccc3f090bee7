# cursor-chat-handler in Dafny

cursor-chat-handler keeps a local copy of the chat history of the Cursor editor. Cursor stores
its chats in a SQLite key/value table (`cursorDiskKV`): one `composerData:{id}` record per
conversation and one `bubbleId:{conversation id}:{bubble id}` record per message ("bubble"),
each a JSON document. The program runs a pipeline of four stages:

- **extract**: read the two kinds of records, decode them tolerantly, and fold them into
  conversations;
- **change-detect**: fingerprint every conversation and compare the fingerprint with the one
  stored last time;
- **persist**: upsert the changed conversations, their workspace and their bubbles into its own
  SQLite store, and keep a singleton sync-state row;
- **restore**: when Cursor's database looks reset, write the stored conversations back into it
  in the shape Cursor reads.

Around the pipeline there are small helpers: the sync configuration and state builders, workspace
descriptions, the cleanup statistics and file-name patterns of the Cursor reset, and the output
format parser and text truncation of the formatter.

This project models that core. Each source file is one module:

| module | source |
|---|---|
| `Parser` | `src/application/parser.rs` |
| `Models` | `src/domain/models.rs` |
| `SyncDomain` | `src/domain/sync.rs` |
| `SqliteReader` | `src/infrastructure/sqlite_reader.rs` |
| `Extractor` | `src/application/extractor.rs` |
| `LocalStore` | `src/infrastructure/local_storage.rs` |
| `SyncService`, `ContentHash` | `src/application/sync_service.rs` |
| `CursorWriter` | `src/infrastructure/cursor_writer.rs` |
| `RestoreService` | `src/application/restore_service.rs` |
| `CursorReset` | `src/infrastructure/cursor_reset.rs` |
| `Formatter` | `src/application/formatter.rs` |

Shared modules support them:

- `Base`: an option type and the integer widths.
- `Errors`: the closed error type of `src/domain/error.rs` and its `Result`.
- `Json`: JSON documents, and stored bytes that may not parse.
- `Text`: the Unicode classes, UTF-8 byte offsets, splitting and SQL `LIKE` of the standard
  library and SQLite.
- `Sorting`: the stable sort by an optional timestamp.
- `Chrono`: the date library.

How the model treats what cannot be stated directly:

- **Panics.** A Rust panic is an error value `Panic(..)` that no handler of the model catches.
  The panics are:
  - byte slices that end past the string or inside a character, such as `&id[..8]` on a short id
    or a title cut;
  - the `usize` underflow of `max_len - 3` in `truncate`.

  A slice that only builds a log message runs only when that log level is enabled. The
  `Logging` record says which levels are on.
- **Storage failures.** `LocalStorage` and Cursor's database carry a write budget. Each write
  uses one unit, and a write with none left fails with a database error and changes nothing.
  `None` means writes never fail. This is what lets the model state what a failure in the
  middle of a loop leaves behind.
- **Stateful code in the source is stateful in the model.**
  - `LocalStorage`, the `SyncService`, the `CursorWriter` and the `RestoreService` are classes
    whose methods update their fields.
  - Every SQL statement is also a step function from tables to a result and new tables, and
    each method is proved to perform exactly its step.
  - The properties are lemmas about the step functions.
- **Dates.** The date library is a parameter record (`Chrono`): its RFC 3339 parser and
  printer, and its millisecond range. `Chrono.Valid` ties them together. Clock reads
  (`Utc::now`, SQL `datetime('now')`) are parameters.
- **The content hash** is the tuple `calculate_hash` feeds to the hasher: id, title, bubble
  count, and the (id, text) of the last five bubbles, newest first. Equal fingerprints stand for
  equal digests.
- **Iteration order.** The `HashMap` of the extractor has an iteration order that the model
  does not fix. Extraction returns a ghost enumeration of its keys, and the properties hold for
  every enumeration.
- **Opening Cursor's database.** `CursorWriter::open` opens the file read-write without the
  create flag, so a missing database gives an open error. `auto_restore_if_needed` on a missing
  database therefore decides that a restore is needed and then fails
  (`RestoreService.AutoRestoreMissingDb`). The model follows the code here. A unit test of
  `open` in `src/infrastructure/cursor_writer.rs` expects the file to be created; with that
  open (`CursorWriter.OpenCreatingStep`) the restore succeeds (see Findings).
- **File-name patterns.** `matches_pattern` is modelled as written (`CursorReset.MatchesPattern`),
  and so is `clean_by_patterns`, which calls it (`CursorReset.CleanByPatterns`). The pattern
  cleanup is specified for any matcher. It is also stated for `CursorReset.Glob`, the glob
  matcher the code evidently intends (see Findings). The two matchers agree on every pattern
  with at most one `*` whose two sides do not overlap in the name.
- **`split_whitespace`** is modelled by an equivalent recursive definition.
- **Output format.** The default `OutputFormat` is Markdown (`Formatter.DEFAULT_FORMAT`).

## Model

| member | source | states |
|---|---|---|
| Parser.ExtractComposerId | src/application/parser.rs:144-146 | an id is found exactly when the key starts with "composerData:", and the key is then that prefix followed by the id |
| Parser.ComposerKeyRoundTrip | src/application/parser.rs:144-146 | the id of the composer key built from any id is that id (the test at lines 159-162 is one instance) |
| Parser.ExtractConversationId | src/application/parser.rs:136-139 | no id exactly when the key lacks "bubbleId:"; otherwise the id follows the prefix, holds no ':', and is followed in the key by ':' or by the end of the key |
| Parser.BubbleKeyConversationId | src/application/parser.rs:136-139 | for a conversation id without ':', the key "bubbleId:" + cid + ":" + bid gives cid back, as the test at lines 152-156 expects for "abc-123" |
| Parser.ParseDatetime | src/application/parser.rs:117-131 | no value gives no time; the date parser's result is taken when it succeeds; otherwise the text is read as i64 milliseconds and converted, and any failure gives no time rather than an error |
| Parser.ParseDatetimeProperties | src/application/parser.rs:117-131 | every parsed time is in the representable range, and a time printed in RFC 3339 form parses back to itself (the tests at lines 164-174 exercise the two formats) |
| Parser.ParseBubble | src/application/parser.rs:78-106 | malformed bytes are an error; a parsed bubble comes from a JSON object whose "bubbleId" is the bubble's id |
| Parser.ParseBubbleFields | src/application/parser.rs:13-32 | each field of the parsed bubble is the object's field unchanged (text, agentic flag, thinking text and signature, duration), the type goes through the 0/1/2 table, and an absent field takes serde's default (empty text, type 0, no thinking, zero tokens, not agentic, no time) |
| Parser.MinimalBubble | src/application/parser.rs:13-32 | only "bubbleId" is required: an object holding nothing else parses to a bubble with every default |
| Parser.BubbleIdRequired | src/application/parser.rs:18-19 | an object without "bubbleId" is rejected |
| Parser.ParseComposer | src/application/parser.rs:112-114 | malformed bytes are an error, and only a JSON object parses |
| Parser.ComposerFieldsOptional | src/application/parser.rs:52-63 | an object with none of "_v", "createdAt", "modelConfig" and "unifiedMode" parses with every field absent |
| Models.TypeCode | src/domain/models.rs:11-24 | the code of a bubble type is 0, 1 or 2 |
| Models.TypeFromCode | src/domain/models.rs:26-36 | code 1 decodes to User, 2 to Assistant, and every other byte to Unknown, each in both directions |
| Models.TypeCodeRoundTrip | src/domain/models.rs:11-36 | decoding a type's code gives the type back |
| Models.Preview | src/domain/models.rs:131-135 | the first bubble's text, or "[Empty conversation]" when there are no bubbles |
| Models.CountTypesPartition | src/domain/models.rs:187-201 | the User, Assistant and Unknown counts add up to the number of bubbles |
| Models.CountTypeAppend | src/domain/models.rs:187-201 | counting a type over two bubble lists joined is the sum of the two counts |
| Models.MessageCounts | src/domain/models.rs:181-201 | the message count is the number of bubbles; user plus assistant counts are at most that, with equality exactly when no bubble is Unknown |
| Models.FirstUserText | src/domain/models.rs:141-146 | the text of the first User bubble, or "conversa" when there is none |
| Models.Clean | src/domain/models.rs:149-152 | keeps only alphanumerics, whitespace, '-' and '_', each one a character of the input, and keeps ASCII text ASCII |
| Models.CutTitle | src/domain/models.rs:155-160 | the cut text, where the byte cut does not panic, is a prefix of the cleaned text |
| Models.TitleWords | src/domain/models.rs:163-166 | at most eight words, each non-empty and free of whitespace |
| Models.CutTitleAscii | src/domain/models.rs:155-160 | on ASCII text: at most 50 characters are kept whole; longer text is cut to 50 characters and then back to the last space when there is one |
| Models.JoinedTitleChar | src/domain/models.rs:163-167 | every character of the joined words is '_' or a non-whitespace character of the cut text |
| Models.TitleCharsOfCut | src/domain/models.rs:163-168 | the lower-cased join of the words of cleaned text holds only lower-case alphanumerics, '-' and '_', and no whitespace |
| Models.GenerateTitleShape | src/domain/models.rs:139-169 | the title never panics on ASCII text; a title holds no whitespace, only lower-case alphanumerics, '-' and '_', and is the lower-cased '_'-join of at most eight non-empty whitespace-free words |
| Models.ShortIdPanicsAscii | src/application/sync_service.rs:75 | on an ASCII id, the short id `&id[..8]` panics exactly when the id has fewer than 8 characters |
| Models.Filename | src/domain/models.rs:173-177 | defined exactly when the title and the byte cut of the id's first min(8, len) bytes do not panic; on an ASCII id it is those characters, '_', and the title |
| Models.AsciiFilenamePrefix | src/domain/models.rs:175 | on an ASCII id the byte length is the character count and the cut at min(8, len) bytes is the first min(8, len) characters |
| Base.AsI64 | src/infrastructure/local_storage.rs:233-234 | a `u64` token count cast to `i64` lands in the `i64` range, keeps its bits (equal modulo 2^64) and is unchanged when it fits |
| Base.AsU64 | src/infrastructure/local_storage.rs:341-342 | an `i64` column read back as `u64` keeps its bits and is unchanged when non-negative |
| Base.AsI64RoundTrip | src/infrastructure/local_storage.rs:233-234 | storing a `u64` as `i64` and reading it back as `u64` gives the original value, for every `u64` |
| Chrono.Chrono.FromTimestampMillis | src/application/sync_service.rs:138-140 | a millisecond timestamp becomes an instant exactly when it is in the representable range, and is then that same instant |
| SyncDomain.MaxStorageBytes | src/domain/sync.rs:156-160 | the configured gigabytes times 2^30 when that fits in a `u64`; otherwise the product wraps around and is smaller than the true byte count |
| SyncDomain.DefaultConfigValues | src/domain/sync.rs:23-38 | the default configuration syncs every 120 seconds, is enabled, allows 10 GB (10737418240 bytes), keeps backups 30 days, compresses and has no data directory |
| SyncDomain.WithSyncTime | src/domain/sync.rs:205-208 | the last sync time becomes the given instant and nothing else changes |
| SyncDomain.Syncing | src/domain/sync.rs:212-215 | the state is marked in progress and nothing else changes |
| SyncDomain.Completed | src/domain/sync.rs:219-222 | the state is marked not in progress and nothing else changes |
| SyncDomain.WithError | src/domain/sync.rs:226-230 | the error is recorded, the sync is no longer in progress, and nothing else changes |
| SyncDomain.ClearError | src/domain/sync.rs:234-237 | the error is cleared and nothing else changes |
| SyncDomain.TransitionLaws | src/domain/sync.rs:205-237 | marking in progress is idempotent; completing undoes it on an idle state; an error ends the sync like completion does; clearing a fresh error equals completing; setting the sync time commutes with marking in progress |
| SyncDomain.CompletedSyncChain | src/domain/sync.rs:366-374 | the default state marked in progress, stamped and completed is idle, has a last sync time, no error and zero counts |
| SyncDomain.IsExpiredIff | src/domain/sync.rs:295-298 | a backup is expired exactly when its age is at least one more whole day than the retention period; a backup not older than now is never expired |
| SyncDomain.FileName | src/domain/sync.rs:324-325 | a path's file name, when present, is a non-empty component without '/' that is not "." or ".." |
| SyncDomain.NamedSegments | src/domain/sync.rs:324 | the path components kept for the file name are non-empty, not "." and contain no '/' |
| SyncDomain.FromUri | src/domain/sync.rs:317-334 | a path is present exactly when the URI starts with "file://", and is then the rest of the URI with the name taken from its last component; otherwise the name is "unknown"; the Cursor path is always absent |
| SyncDomain.NewWorkspace | src/domain/sync.rs:338-350 | the workspace has the given path and Cursor path and the name of the path's last component |
| SyncDomain.FromUriIsNew | src/domain/sync.rs:317-350 | reading a "file://" URI gives the same workspace as creating one from its path without a Cursor path |
| SyncDomain.NameOfLastComponent | src/domain/sync.rs:322-327 | the name of "dir/name" is `name` whenever `name` is a proper file name |
| SyncDomain.FromUriNamed | src/domain/sync.rs:317-334 | "file://dir/name" gives the workspace named `name` with path "dir/name" |
| SyncDomain.FromUriExample | src/domain/sync.rs:377-384 | "file:///home/user/projects/my-app" gives the workspace "my-app" at "/home/user/projects/my-app" |
| ContentHash.Tail | src/application/sync_service.rs:235-238 | the hashed tail has one entry for each of the last five bubbles, or for every bubble when there are fewer |
| ContentHash.HashEqualIff | src/application/sync_service.rs:227-241 | two conversations get the same fingerprint exactly when their ids, titles, bubble counts and the ids and texts of their last five bubbles agree |
| ContentHash.OlderEditUndetected | src/application/sync_service.rs:234-238 | replacing a bubble older than the last five leaves the fingerprint unchanged, so such an edit is not synced |
| ContentHash.RecentEditDetected | src/application/sync_service.rs:234-238 | changing the text of one of the last five bubbles changes the fingerprint |
| Text.ToLowerChar | src/application/formatter.rs:26 | the lower case of a character is never an upper-case letter, keeps letters and digits alphanumeric, and changes only upper-case letters and the Kelvin and Angstrom signs |
| Text.ToLower | src/domain/models.rs:168 | `str::to_lowercase` maps each character to its lower case and keeps the length |
| Text.BytePrefix | src/application/sync_service.rs:75 | a byte slice `&s[..k]`, when it does not panic, is a prefix of `s` exactly `k` UTF-8 bytes long |
| Text.AsciiByteLen | src/application/sync_service.rs:75 | an ASCII text is as many bytes long as it has characters |
| Text.AsciiBytePrefix | src/application/sync_service.rs:75 | on ASCII text a byte slice of `k` bytes never panics and keeps `k` characters |
| Text.BytePrefixAll | src/application/formatter.rs:174-175 | slicing a text at its own byte length gives the whole text |
| Text.ContainsIff | src/application/extractor.rs:186 | `str::contains` holds exactly when the pattern occurs at some position |
| Text.StartsWithContains | src/application/extractor.rs:186 | a text contains every prefix of itself, so `starts_with(f) \|\| contains(f)` is `contains(f)` |
| Text.StripPrefix | src/application/parser.rs:145 | `str::strip_prefix` succeeds exactly when the text starts with the prefix, and the prefix followed by the rest is the text |
| Text.IndexOf | src/application/formatter.rs:173 | the index found holds the first occurrence of the character; no index means the character does not occur |
| Text.RFind | src/domain/models.rs:157 | `str::rfind` gives the index of the last occurrence of the character; no index means it does not occur |
| Text.Split | src/application/parser.rs:138 | `str::split` gives one more part than there are separators, none of which contains the separator |
| Text.SplitFirst | src/application/parser.rs:138 | the first part of a split is the text up to the first separator, or the whole text without one |
| Text.SplitOnce | src/infrastructure/cursor_reset.rs:300 | a text with exactly one separator splits into the parts before and after it |
| Text.SplitNone | src/infrastructure/cursor_reset.rs:300 | a text without the separator splits into itself alone |
| Text.CountCharZero | src/infrastructure/cursor_reset.rs:299-300 | a character occurs zero times exactly when it is not in the text |
| Text.CountCharOne | src/infrastructure/cursor_reset.rs:300-301 | a character that occurs once has a first occurrence with no other after it |
| Text.SplitWhitespace | src/domain/models.rs:164 | `str::split_whitespace` yields non-empty words free of whitespace, the first of which starts with the text's first character when that is not whitespace |
| Text.SplitWhitespaceChars | src/domain/models.rs:164 | every character of every word comes from the text |
| Text.JoinChars | src/domain/models.rs:166 | every character of a joined text comes from the separator or from one of the words |
| Text.Take | src/domain/models.rs:165 | `take(n)` keeps a prefix of at most `n` elements |
| Text.ParseI64 | src/application/parser.rs:126 | `str::parse::<i64>` refuses the empty text and yields only values in the `i64` range |
| Text.LikeAnything | src/infrastructure/sqlite_reader.rs:68 | every key matches the pattern "%" |
| Text.LikePrefixIff | src/infrastructure/sqlite_reader.rs:68 | `key LIKE 'prefix%'` with a wildcard-free prefix holds exactly when the key starts with the prefix up to ASCII case |
| Text.StartsWithIgnoringCase | src/infrastructure/sqlite_reader.rs:68 | a key that starts with the prefix exactly also matches it up to ASCII case |
| Sorting.InsertPermutes | src/application/extractor.rs:164 | inserting an element adds exactly that element to the multiset |
| Sorting.InsertSorted | src/application/extractor.rs:164 | inserting into a sorted sequence keeps it sorted |
| Sorting.InsertWithKey | src/application/extractor.rs:164 | inserting places the element after every element with the same key |
| Sorting.SortBySorted | src/application/extractor.rs:164 | `sort_by` on `Option<DateTime>` yields a sorted sequence, `None` first, ascending or descending |
| Sorting.SortByPermutes | src/application/extractor.rs:171 | `sort_by` yields a permutation of its input |
| Sorting.SortByStable | src/application/extractor.rs:171 | `sort_by` is stable: the elements with any one key keep their relative order |
| Extractor.MatchesAnyFilter | src/application/extractor.rs:185-187 | an id matches the filters exactly when one of them occurs in it; an empty filter list matches nothing |
| Extractor.AcceptedComposer | src/application/extractor.rs:71-103 | a composer entry contributes a conversation only under a composer key, with the id the key names, when the id passes the filter, and with no bubbles yet |
| Extractor.IncludedBubble | src/application/extractor.rs:114-129 | a bubble entry contributes only under a bubble key, for the conversation id the key names, when that id passes the filter, and never with blank text unless empty bubbles are requested |
| Extractor.BubblesOf | src/application/extractor.rs:130-150 | the bubbles of the included entries, one for each entry, in order |
| Extractor.InsertAllKeyed | src/application/extractor.rs:92-102 | inserting conversations under their own ids keeps every map entry keyed by its conversation's id |
| Extractor.InsertAllMembers | src/application/extractor.rs:92-102 | after the inserts an id is a key exactly when it was one before or some inserted conversation has it |
| Extractor.InsertAllLast | src/application/extractor.rs:92-102 | under a repeated id the map holds the conversation inserted last |
| Extractor.AddBubblesKeyed | src/application/extractor.rs:137-150 | attaching bubbles keeps every map entry keyed by its conversation's id |
| Extractor.AddBubblesContents | src/application/extractor.rs:137-150 | a conversation is present after the bubbles are attached exactly when it was before or some bubble names it; it then holds its earlier bubbles followed by its new ones in entry order, an orphan being created from its first bubble |
| Extractor.MergedConversation | src/application/extractor.rs:65-157 | after both passes each conversation is the composer's record with exactly the included bubbles that name it, or, without a composer, an orphan built from its first bubble holding them |
| Extractor.LastIndex | src/application/extractor.rs:92-102 | an id inserted at some position has a last position where it is inserted |
| Extractor.AcceptedShape | src/application/extractor.rs:71-103 | every accepted conversation has no bubbles and passes the id filter |
| Extractor.IncludedShape | src/application/extractor.rs:114-129 | every included bubble names an id that passes the filter and is not blank unless empty bubbles are requested |
| Extractor.BubblesForNonEmpty | src/application/extractor.rs:137-150 | a conversation with included bubbles is named by some included entry |
| Extractor.FilteredIds | src/application/extractor.rs:73-77 | every extracted conversation id passes the id filter, whether it comes from a composer or from orphan bubbles |
| Extractor.AcceptedAppend | src/application/extractor.rs:71-109 | the composer pass over two runs of entries is the pass over each, one after the other |
| Extractor.IncludedAppend | src/application/extractor.rs:114-157 | the bubble pass over two runs of entries is the pass over each, one after the other |
| Extractor.SkippedComposer | src/application/extractor.rs:104-106 | an entry whose composer fails to parse, or is filtered out, contributes nothing: removing it changes nothing |
| Extractor.SkippedBubble | src/application/extractor.rs:126-128 | a bubble entry that fails to parse, is filtered out or is blank contributes nothing: removing it changes nothing |
| Extractor.Finalize | src/application/extractor.rs:163-167 | finishing a conversation keeps its id and creation time |
| Extractor.CollectMembers | src/application/extractor.rs:160-168 | a conversation is collected exactly when some visited key large enough finishes as it |
| Extractor.FinalizeBubbles | src/application/extractor.rs:164 | a finished conversation holds the same bubbles, sorted oldest first |
| Extractor.ExtractedProperties | src/application/extractor.rs:160-171 | the extracted list is newest first; each element is the finished form of a map entry with at least the minimum number of bubbles, sorted oldest first; and every such entry appears |
| Extractor.CountBubblesBounds | src/application/extractor.rs:130-135 | counting adds one total per included bubble and keeps user plus assistant messages within the total |
| Extractor.ExamineComposer | src/application/extractor.rs:72-103 | one composer entry yields the conversation the composer pass specifies for it |
| Extractor.CollectComposers | src/application/extractor.rs:65-109 | the composer loop builds the map of the accepted conversations inserted in entry order |
| Extractor.AcceptedSnoc | src/application/extractor.rs:71-108 | one more composer entry appends its contribution, if any |
| Extractor.IncludedSnoc | src/application/extractor.rs:114-156 | one more bubble entry appends its contribution, if any |
| Extractor.MergeStep | src/application/extractor.rs:137-150 | one more included bubble is attached to its conversation |
| Extractor.CountStep | src/application/extractor.rs:130-135 | one more included bubble adds one to the total and one to the user or assistant count by its type |
| Extractor.ExamineBubble | src/application/extractor.rs:115-129 | one bubble entry yields the contribution the bubble pass specifies for it |
| Extractor.AbsorbBubble | src/application/extractor.rs:130-150 | the statistics count the bubble by type and the bubble is appended to its conversation, created as an orphan when missing |
| Extractor.CollectBubbles | src/application/extractor.rs:112-157 | the bubble loop attaches exactly the included bubbles and counts exactly them |
| Extractor.CollectSnoc | src/application/extractor.rs:160-168 | visiting one more key appends its finished conversation when it is large enough |
| Extractor.VisitStep | src/application/extractor.rs:160-161 | visiting one more unvisited key of the map keeps the visit order duplicate-free and within the map |
| Extractor.VisitedAll | src/application/extractor.rs:160-168 | once every key is visited, the visit order enumerates the map and no title computation panicked |
| Extractor.FinishConversations | src/application/extractor.rs:159-171 | the conversations are finished and sorted newest first in some enumeration of the map, failing with the slicing panic exactly when a kept conversation's title panics |
| Extractor.ExtractFromDatabase | src/application/extractor.rs:58-182 | a missing database or one without the key-value table fails; otherwise the result is the extracted list of the merged passes, or the title panic, with the bubble counts and the conversation count added to the statistics |
| Extractor.FindGlobalDb | src/application/extractor.rs:39-41 | the first database path containing "globalStorage", and none exactly when no path contains it |
| Extractor.ExtractAllConversations | src/application/extractor.rs:32-55 | discovery errors are passed on; no global database is a configuration error; otherwise the outcome of extracting the global database is passed on: a missing file is the open error, a missing table its error, and it succeeds exactly when no title panics; on success the conversations are the extraction's, the statistics count its included bubbles by type and its conversations, and one or all databases count as scanned |
| SqliteReader.ValueBytes | src/infrastructure/sqlite_reader.rs:76-80 | a BLOB value yields its bytes, a TEXT value its UTF-8 bytes, and any other value no bytes |
| SqliteReader.SelectMembers | src/infrastructure/sqlite_reader.rs:68-93 | an entry is fetched exactly when some row of the table yields it: a row whose key matches the prefix pattern and which reads without error |
| SqliteReader.SelectMatches | src/infrastructure/sqlite_reader.rs:68-93 | at most one entry per row is fetched, and every fetched key matches `prefix%` |
| SqliteReader.PrefixSelection | src/infrastructure/sqlite_reader.rs:13-14 | the composer and bubble queries select exactly the keys starting with "composerData:" or "bubbleId:" up to ASCII case |
| SqliteReader.StateDbReader.FromTable | src/infrastructure/sqlite_reader.rs:45 | the reader sees the database's key/value table |
| SqliteReader.StateDbReader.FetchByPrefix | src/infrastructure/sqlite_reader.rs:65-98 | without the key/value table the query fails; otherwise the result is the selection of the rows matching the prefix, unreadable rows skipped |
| SqliteReader.StateDbReader.FetchBubbles | src/infrastructure/sqlite_reader.rs:52-54 | the entries whose key matches "bubbleId:%" |
| SqliteReader.StateDbReader.FetchComposers | src/infrastructure/sqlite_reader.rs:60-62 | the entries whose key matches "composerData:%" |
| SqliteReader.Open | src/infrastructure/sqlite_reader.rs:33-46 | opening succeeds exactly when the database file exists, and the reader then sees its table; otherwise the open error |
| LocalStore.FindBy | src/infrastructure/local_storage.rs:198 | the position of a row whose key column holds the value, and none exactly when no row holds it; the conversation lookup by composer id here, the bubble conflict target `bubble_id` (line 215) and the workspace lookup by path (lines 133-134) are all this search |
| LocalStore.EmptyTablesValid | src/infrastructure/local_storage.rs:49-124 | a freshly created store satisfies every table constraint and holds the single default sync-state row |
| LocalStore.KeptConversationIds | src/infrastructure/local_storage.rs:167-193 | a conversation id that existed before an upsert still exists after it |
| LocalStore.KeptWorkspaceIds | src/infrastructure/local_storage.rs:146-157 | inserting a workspace keeps every existing workspace id |
| LocalStore.WorkspaceAppendValid | src/infrastructure/local_storage.rs:54-61 | appending a workspace with the next id and a path not yet present keeps ids increasing and paths unique |
| LocalStore.GetOrCreateWorkspaceProperties | src/infrastructure/local_storage.rs:127-158 | a workspace with a known path is found without any write; otherwise one row with a fresh id is appended; only the workspace table changes; the id returned names a workspace; the call fails, changing nothing, exactly when it needs to write and the write fails |
| LocalStore.FindConversationUnique | src/infrastructure/local_storage.rs:70 | composer ids are unique, so the search finds the one row with that id |
| LocalStore.ConversationUpdateValid | src/infrastructure/local_storage.rs:173-180 | updating a row in place, same id and composer id, keeps the table valid and every id |
| LocalStore.ConversationAppendValid | src/infrastructure/local_storage.rs:170-172 | appending a row with the next id and a new composer id keeps the table valid and every id |
| LocalStore.UpsertConversationOutcome | src/infrastructure/local_storage.rs:161-203 | the upsert succeeds exactly when the write goes through and any workspace id names a workspace (the foreign key); a failure changes nothing; only the conversation table changes; the id returned is that of the row holding the composer id |
| LocalStore.ConversationRowsReplaced | src/infrastructure/local_storage.rs:64-75 | replacing the conversation rows by valid ones that keep every id and name only existing workspaces keeps the store valid |
| LocalStore.ConversationUpdatedValid | src/infrastructure/local_storage.rs:173-180 | an in-place conversation update that names only an existing workspace keeps the store valid |
| LocalStore.ConversationAppendedValid | src/infrastructure/local_storage.rs:170-172 | inserting a new conversation with the next id keeps the store valid |
| LocalStore.UpsertConversationValid | src/infrastructure/local_storage.rs:161-203 | an upsert, successful or not, keeps the store valid |
| LocalStore.UpsertConversationRow | src/infrastructure/local_storage.rs:167-192 | after a successful upsert the row holds the new title, hash, model, mode and update time; an existing row keeps its id and creation time and keeps its workspace unless a new one is given (COALESCE); a new row gets a fresh id and the given workspace |
| LocalStore.UpsertedRowFound | src/infrastructure/local_storage.rs:196-202 | looking the composer id up after the upsert finds the upserted row |
| LocalStore.UpsertConversationOthers | src/infrastructure/local_storage.rs:173 | an upsert leaves the rows of every other composer id unchanged |
| LocalStore.UpsertConversationStableId | src/infrastructure/local_storage.rs:173 | upserting the same composer id twice returns the same row id |
| LocalStore.BubbleAppendValid | src/infrastructure/local_storage.rs:76-94 | appending a bubble row with the next id and a new bubble id keeps the bubble table valid |
| LocalStore.BubbleUpdatedValid | src/infrastructure/local_storage.rs:215-222 | an in-place bubble update that keeps ids and conversation keeps the store valid |
| LocalStore.BubbleAppendedValid | src/infrastructure/local_storage.rs:210-214 | inserting a new bubble for an existing conversation keeps the store valid |
| LocalStore.UpsertBubbleOutcome | src/infrastructure/local_storage.rs:206-241 | the upsert succeeds exactly when the thinking duration fits an `i64`, the write goes through and, for a new bubble, the conversation exists; a failure changes nothing; only the bubble table changes |
| LocalStore.UpsertBubbleValid | src/infrastructure/local_storage.rs:206-241 | a bubble upsert, successful or not, keeps the store valid |
| LocalStore.UpsertBubbleRow | src/infrastructure/local_storage.rs:210-236 | a known bubble gets the new text, thinking, tokens and agentic flag but keeps its type, time, conversation and id, and no other row changes; a new bubble is appended as a row with the next id |
| LocalStore.ConversationHash | src/infrastructure/local_storage.rs:451-460 | no row gives no hash; a row yields its stored hash, and a row without one fails to read |
| LocalStore.BubbleRoundTrip | src/infrastructure/local_storage.rs:224-236 | a bubble written as a new row and read back by `get_bubbles` is the same bubble, when its time is representable and its duration fits |
| LocalStore.RowsOfConversationFrom | src/infrastructure/local_storage.rs:310-354 | a bubble is read for a conversation exactly when some row of that conversation decodes to it; undecodable rows are skipped |
| LocalStore.ListBubblesProperties | src/infrastructure/local_storage.rs:302-357 | `get_bubbles` returns the decodable bubbles of the conversation, all of them and only them, oldest first |
| LocalStore.DefaultSyncStateRead | src/infrastructure/local_storage.rs:107-108 | a new store reads back the default sync state |
| LocalStore.SyncStateRoundTrip | src/infrastructure/local_storage.rs:360-417 | writing a sync state succeeds exactly when the write goes through, and reading it back gives the same state; no other table changes |
| LocalStore.WriteSyncStateValid | src/infrastructure/local_storage.rs:390-417 | writing the sync state keeps the store valid |
| LocalStore.SelectedMembers | src/infrastructure/local_storage.rs:245-268 | a conversation is selected exactly when it decodes from a row in the named workspace, or from any row without a workspace name |
| LocalStore.WithBubblesAt | src/infrastructure/local_storage.rs:271-277 | each listed conversation gets exactly the bubbles `get_bubbles` returns for it |
| LocalStore.WithBubblesSnoc | src/infrastructure/local_storage.rs:271-277 | attaching bubbles to one more conversation appends it with its bubbles |
| LocalStore.Headers | src/infrastructure/local_storage.rs:297 | the conversations with their bubbles removed, one for one |
| LocalStore.HeadersOfDecoded | src/infrastructure/local_storage.rs:297 | decoded conversation rows carry no bubbles yet |
| LocalStore.ListConversationsProperties | src/infrastructure/local_storage.rs:244-280 | `get_conversations` returns the selected conversations newest first, a permutation of the selection, each with its stored bubbles |
| LocalStore.ListedConversationOrigin | src/infrastructure/local_storage.rs:244-268 | every listed conversation comes from a row, in the named workspace when one is given |
| LocalStore.LocalStorage.Open | src/infrastructure/local_storage.rs:25-46 | a newly opened store has the empty schema with the default sync-state row, and is valid |
| LocalStore.LocalStorage.GetOrCreateWorkspace | src/infrastructure/local_storage.rs:127-158 | the store changes as the workspace step specifies and stays valid |
| LocalStore.LocalStorage.UpsertConversation | src/infrastructure/local_storage.rs:161-203 | the store changes as the conversation upsert step specifies and stays valid |
| LocalStore.LocalStorage.UpsertBubble | src/infrastructure/local_storage.rs:206-241 | the store changes as the bubble upsert step specifies and stays valid |
| LocalStore.LocalStorage.GetConversationHash | src/infrastructure/local_storage.rs:451-460 | the stored hash of the composer id, as `ConversationHash` specifies |
| LocalStore.LocalStorage.GetBubbles | src/infrastructure/local_storage.rs:302-357 | the bubbles `ListBubbles` specifies |
| LocalStore.LocalStorage.GetConversations | src/infrastructure/local_storage.rs:244-280 | the conversations `ListConversations` specifies |
| LocalStore.LocalStorage.AttachBubbles | src/infrastructure/local_storage.rs:270-277 | the loop gives each conversation its stored bubbles |
| LocalStore.LocalStorage.GetSyncState | src/infrastructure/local_storage.rs:360-387 | the sync state decoded from its row |
| LocalStore.LocalStorage.UpdateSyncState | src/infrastructure/local_storage.rs:390-417 | the store changes as the sync-state write specifies and stays valid |
| LocalStore.LocalStorage.GetConversationCount | src/infrastructure/local_storage.rs:431-438 | the number of conversation rows |
| LocalStore.LocalStorage.GetMessageCount | src/infrastructure/local_storage.rs:441-448 | the number of bubble rows |
| SyncService.StrField | src/application/sync_service.rs:180 | a field read as text exists exactly when the object has that key holding a string |
| SyncService.FirstWorkspaceUri | src/application/sync_service.rs:176-180 | the workspace URI exists exactly when "workspaceUris" is an array whose first element is a string |
| SyncService.WorkspaceHint | src/application/sync_service.rs:175-189 | a bubble payload yields workspace information exactly when it is a JSON document with a first workspace URI |
| SyncService.WorkspaceHintExample | src/application/sync_service.rs:175-189 | a payload naming "file:///home/user/projects/my-app" and a project directory yields the workspace "my-app" with that path and Cursor path |
| SyncService.HintOf | src/application/sync_service.rs:166-189 | a workspace hint is recorded only for an included bubble, under the conversation id its key names |
| SyncService.Hints | src/application/sync_service.rs:166-189 | one optional hint per bubble entry, in entry order |
| SyncService.HintMapLast | src/application/sync_service.rs:188 | a conversation is in the workspace map exactly when some entry hints at it, and it then holds the last such hint |
| SyncService.WorkspaceMapLast | src/application/sync_service.rs:166-207 | the workspace map holds, for each conversation, the hint of the last included bubble that carries one |
| SyncService.SyncBubbleStep | src/application/sync_service.rs:166-205 | one more bubble entry attaches its bubble and records its workspace hint, if any |
| SyncService.WorkspaceMapSnoc | src/application/sync_service.rs:188 | one more entry adds its hint to the workspace map, replacing an earlier one |
| SyncService.SyncExtraction | src/application/sync_service.rs:209-223 | the conversations sync writes are newest first, each non-empty and sorted oldest first with no blank bubble, and every non-empty merged conversation is among them |
| SyncService.ExtractedNotBlank | src/application/sync_service.rs:170-172 | no bubble of an extracted conversation is blank |
| SyncService.BubblesForFrom | src/application/sync_service.rs:204 | every bubble attached to a conversation comes from an entry naming that conversation |
| SyncService.WorkspaceIdStepProperties | src/application/sync_service.rs:80-83 | without a workspace hint no workspace is looked up; otherwise only the workspace table may change and an id returned names a workspace |
| SyncService.UpsertBubblesFrame | src/application/sync_service.rs:91-93 | upserting the bubbles changes only the bubble table and keeps the store valid |
| SyncService.KeptBubbleFound | src/application/sync_service.rs:91-93 | a bubble id stored before the loop is still stored after it |
| SyncService.UpsertBubbleKeepsIds | src/infrastructure/local_storage.rs:206-241 | a bubble upsert keeps every stored bubble id, and a successful one stores its own |
| SyncService.UpsertBubblesStored | src/application/sync_service.rs:91-93 | the bubble loop keeps every stored bubble id and, when it succeeds, stores every bubble of the conversation |
| SyncService.BubbleStageProperties | src/application/sync_service.rs:86-93 | after the conversation row is written, the bubble loop keeps the store valid, changes only bubbles, and on success stores each bubble |
| SyncService.WriteStageFrame | src/application/sync_service.rs:80-93 | writing one conversation keeps the store valid and the sync-state row unchanged |
| SyncService.WriteStageProperties | src/application/sync_service.rs:80-93 | a written conversation has its hash stored and all its bubbles; after a failure its row is unchanged or already holds the new hash |
| SyncService.RowStageStores | src/application/sync_service.rs:86-88 | a successful conversation upsert stores the conversation's hash; a failed one changes nothing |
| SyncService.WriteStageOthers | src/application/sync_service.rs:80-93 | writing one conversation leaves every other conversation row unchanged |
| SyncService.SyncConversationFrame | src/application/sync_service.rs:68-97 | syncing one conversation keeps the store valid and the sync-state row unchanged |
| SyncService.SyncConversationSkip | src/application/sync_service.rs:70-77 | a conversation is skipped, writing nothing, exactly when its stored hash equals the new one, unless debug logging slices a short id, in which case the skip panics |
| SyncService.SyncConversationWritten | src/application/sync_service.rs:79-96 | a conversation that is written has its hash and all its bubbles stored; without a workspace hint the workspace table is untouched |
| SyncService.SyncConversationOtherRows | src/application/sync_service.rs:68-97 | syncing one conversation leaves every other conversation row unchanged |
| SyncService.InterruptedSyncKeepsHash | src/application/sync_service.rs:86-93 | after a failure the conversation row is unchanged or already holds the new hash |
| SyncService.InterruptedSyncExample | src/application/sync_service.rs:86-93 | when the conversation row is written but its bubble write fails, the next sync sees the stored hash and skips the conversation, so its bubbles are never written |
| SyncService.HashStoredFrame | src/application/sync_service.rs:73-74 | whether a conversation's hash is stored depends only on its row |
| SyncService.SyncAllFrame | src/application/sync_service.rs:68-97 | the sync loop keeps the store valid and the sync-state row unchanged |
| SyncService.SyncAllKeepsHash | src/application/sync_service.rs:68-97 | a conversation whose hash is stored keeps it through the loop when every conversation with its id is the same |
| SyncService.IdsDetermineTail | src/application/sync_service.rs:68 | ids that determine conversations still do so without the first conversation |
| SyncService.SyncConversationStores | src/application/sync_service.rs:68-97 | a successful sync of one conversation leaves its hash stored |
| SyncService.SyncAllStores | src/application/sync_service.rs:68-97 | a successful loop leaves the hash of every conversation stored |
| SyncService.StoredCons | src/application/sync_service.rs:68 | the first conversation stored and the rest stored means all are stored |
| SyncService.SyncAllSkips | src/application/sync_service.rs:70-77 | when every hash is already stored and logging cannot panic, the loop writes nothing and succeeds |
| SyncService.SyncAllIdempotent | src/application/sync_service.rs:68-97 | after a successful loop, running it again on any of the same conversations writes nothing |
| SyncService.SyncErrorLeavesSyncing | src/application/sync_service.rs:48-50 | a failure to store the syncing mark changes nothing; otherwise the store says a sync is in progress, and still says so after any later failure |
| SyncService.SyncErrorKeepsMark | src/application/sync_service.rs:45-121 | after a failure past the mark the stored sync state is still the marked one |
| SyncService.SyncAndFinishFailure | src/application/sync_service.rs:68-118 | a failure in the loop or the final write leaves the sync-state row unchanged |
| SyncService.SyncSuccessState | src/application/sync_service.rs:107-120 | a successful sync returns the state with the sync time, no hash, the stored row counts, the storage size, not syncing and no error, and that state is stored |
| SyncService.ExtractionStable | src/application/sync_service.rs:210-221 | the extraction succeeds for every map iteration order once it does for one, and yields the same conversations, each determined by its id |
| SyncService.SyncStoresHashes | src/application/sync_service.rs:45-121 | after a successful sync the hash of every extracted conversation is stored |
| SyncService.SyncAndFinishStores | src/application/sync_service.rs:68-118 | after a successful loop and final write the hash of every conversation is stored |
| SyncService.SyncOfStoredWritesNothing | src/application/sync_service.rs:68-77 | when every extracted conversation's hash is stored and logging cannot panic, a sync changes no conversation, bubble or workspace row |
| SyncService.SyncIdempotent | src/application/sync_service.rs:45-121 | a second sync of the same Cursor database right after a successful one changes no conversation, bubble or workspace row |
| SyncService.SyncService.WithStorage | src/application/sync_service.rs:37-39 | the service holds the given configuration and store |
| SyncService.SyncService.ExtractConversations | src/application/sync_service.rs:124-224 | the extraction result the specification function gives for some iteration order of the conversation map |
| SyncService.SyncService.CollectSyncBubbles | src/application/sync_service.rs:166-207 | the bubble loop attaches exactly the included bubbles and builds exactly the workspace map of their hints |
| SyncService.SyncService.UpsertBubbles | src/application/sync_service.rs:91-93 | the store changes as the bubble loop step specifies and stays valid |
| SyncService.SyncService.SyncConversation | src/application/sync_service.rs:68-97 | the store changes as the one-conversation step specifies and stays valid |
| SyncService.SyncService.SyncAll | src/application/sync_service.rs:68-97 | the store changes as the loop step specifies and stays valid |
| SyncService.SyncService.Sync | src/application/sync_service.rs:45-121 | the store changes as the sync outcome specifies for an iteration order of the conversation map, and stays valid |
| SyncService.SyncService.CheckStorageLimits | src/application/sync_service.rs:259-263 | the store is within limits exactly when its size is below the configured maximum; a size error is passed on |
| SyncService.DefaultStorageLimit | src/application/sync_service.rs:259-263 | under the default configuration the limit is 10 GiB |
| CursorWriter.OpenCreatingStep | src/infrastructure/cursor_writer.rs:182-188 | with the create flag, an existing file opens as before, and an absent file is created with an empty table, unless that first write fails |
| CursorWriter.OpenStep | src/infrastructure/cursor_writer.rs:22-37 | opening fails, changing nothing, when the database file does not exist; otherwise the key/value table exists afterwards, created empty when it was missing and left as it was when present |
| CursorWriter.ComposerKey | src/infrastructure/cursor_writer.rs:45 | the composer key of an id is one the reader maps back to that id |
| CursorWriter.BubbleKey | src/infrastructure/cursor_writer.rs:57 | a bubble key starts with "bubbleId:" and, for an id without ':', the reader maps it back to the conversation id |
| CursorWriter.BubbleKeyInjective | src/infrastructure/cursor_writer.rs:57 | within one conversation, bubble keys are equal exactly when the bubble ids are |
| CursorWriter.BubbleKeyNotComposer | src/infrastructure/cursor_writer.rs:57 | no bubble key is counted as a conversation by the `composerData:%` query |
| CursorWriter.ComposerKeyCounted | src/infrastructure/cursor_writer.rs:45 | every composer key is counted by the `composerData:%` query |
| CursorWriter.EmptyContext | src/infrastructure/cursor_writer.rs:92-108 | the context object holds exactly the fifteen selection lists, each empty |
| CursorWriter.SerializeComposer | src/infrastructure/cursor_writer.rs:78-112 | the composer document is an object carrying the conversation's id |
| CursorWriter.SerializeBubble | src/infrastructure/cursor_writer.rs:115-145 | the bubble document is an object carrying the bubble id, with a "thinking" field exactly when the bubble has thinking |
| CursorWriter.BubbleScalarsDecode | src/infrastructure/cursor_writer.rs:122-128 | the version, type code, id, text and agentic flag written decode to the bubble's own values |
| CursorWriter.BubbleTimeTokensDecode | src/infrastructure/cursor_writer.rs:127-132 | the time is written as RFC 3339 text and the token counts decode to the bubble's own |
| CursorWriter.BubbleThinkingDecode | src/infrastructure/cursor_writer.rs:136-142 | the thinking decodes to the bubble's own, and the duration is present only alongside thinking |
| CursorWriter.BubbleRoundTrip | src/infrastructure/cursor_writer.rs:115-145 | a written bubble parses back to the same bubble, except that a duration without thinking is lost |
| CursorWriter.ComposerRoundTrip | src/infrastructure/cursor_writer.rs:78-112 | a written composer parses back exactly when its time is absent or fits a `u64`, and then gives the conversation's time, model and mode |
| CursorWriter.ComposerVersionTimeDecode | src/infrastructure/cursor_writer.rs:80-82 | the composer document has version 10 and the creation time in milliseconds, or null |
| CursorWriter.ComposerModelDecode | src/infrastructure/cursor_writer.rs:83-87 | the model configuration and mode written decode to the conversation's own |
| CursorWriter.ComposerReadBack | src/infrastructure/cursor_writer.rs:45-53 | an extractor reading a restored composer entry gets the conversation back without title and bubbles |
| CursorWriter.BubbleReadBack | src/infrastructure/cursor_writer.rs:56-65 | an extractor reading a restored bubble entry gets the bubble back under its conversation id |
| CursorWriter.BubbleEntriesKeys | src/infrastructure/cursor_writer.rs:56-66 | the bubble loop writes exactly one key per bubble id |
| CursorWriter.BubbleEntriesLast | src/infrastructure/cursor_writer.rs:56-66 | under a repeated bubble id the entry written last wins |
| CursorWriter.PutBubblesComplete | src/infrastructure/cursor_writer.rs:56-66 | with enough write budget the loop writes every bubble entry and succeeds |
| CursorWriter.PutBubblesShort | src/infrastructure/cursor_writer.rs:56-66 | when the budget runs out the loop stops with the write error, keeping the entries written before it |
| CursorWriter.RestoreComplete | src/infrastructure/cursor_writer.rs:43-75 | with enough budget restoring writes the composer entry and every bubble entry, then panics only when debug logging slices a short id |
| CursorWriter.RestoreShort | src/infrastructure/cursor_writer.rs:48-65 | when the budget runs out restoring stops with the write error after the composer entry and the bubbles that fit |
| CursorWriter.RestoredEntriesKeys | src/infrastructure/cursor_writer.rs:45-66 | restoring writes exactly the composer key and the bubble keys, the composer key holding the composer document |
| CursorWriter.RestoreFrame | src/infrastructure/cursor_writer.rs:43-75 | restoring keeps every other key unchanged and removes no key |
| CursorWriter.RestoredBubble | src/infrastructure/cursor_writer.rs:56-65 | after a complete restore every bubble's key holds its document |
| CursorWriter.PutThenUnion | src/infrastructure/cursor_writer.rs:50-62 | a write followed by later writes equals the old entries overlaid with all the writes |
| CursorWriter.UnionTwice | src/infrastructure/cursor_writer.rs:50-62 | writing the same entries twice equals writing them once |
| CursorWriter.RestoreIdempotent | src/infrastructure/cursor_writer.rs:50 | restoring the same conversation twice leaves the same entries as once (INSERT OR REPLACE) |
| CursorWriter.ConversationCountOf | src/infrastructure/cursor_writer.rs:162-173 | the count succeeds exactly when the table exists, and is zero exactly when no key matches `composerData:%` |
| CursorWriter.IsEmptyOf | src/infrastructure/cursor_writer.rs:148-159 | the emptiness check succeeds exactly when the table exists, and is true exactly when the count is zero |
| CursorWriter.RestoreCount | src/infrastructure/cursor_writer.rs:43-75 | a complete restore adds exactly the conversation's composer key to the counted keys, raising the count by one unless it was there, and leaves the database non-empty |
| CursorWriter.RestoredCount | src/infrastructure/cursor_writer.rs:148-173 | adding the restored entries adds one counted key, raising the count by one unless it was there, and the database is no longer empty |
| CursorWriter.RestoredComposerKeys | src/infrastructure/cursor_writer.rs:45-66 | the restored entries add exactly the composer key to the counted keys |
| CursorWriter.AddedComposerKeys | src/infrastructure/cursor_writer.rs:152 | adding entries among which only one key matches `composerData:%` adds exactly that key to the counted keys |
| CursorWriter.CountWithKey | src/infrastructure/cursor_writer.rs:148-173 | one more counted key raises the count by one unless it was already present, and makes the database non-empty |
| CursorWriter.StateDbFile.Of | src/infrastructure/cursor_writer.rs:13-15 | the database file holds the given state |
| CursorWriter.CursorWriter.Connected | src/infrastructure/cursor_writer.rs:36 | the writer is connected to the given database file |
| CursorWriter.CursorWriter.Open | src/infrastructure/cursor_writer.rs:22-37 | the file changes as the open step specifies, and a writer is returned exactly when it succeeds, with the table present |
| CursorWriter.CursorWriter.Put | src/infrastructure/cursor_writer.rs:48-53 | the file changes as one INSERT OR REPLACE specifies |
| CursorWriter.CursorWriter.RestoreConversation | src/infrastructure/cursor_writer.rs:43-75 | the file changes as the restore step specifies |
| CursorWriter.CursorWriter.IsEmpty | src/infrastructure/cursor_writer.rs:148-159 | the emptiness of the file, as `IsEmptyOf` specifies |
| CursorWriter.CursorWriter.ConversationCount | src/infrastructure/cursor_writer.rs:162-173 | the count of the file, as `ConversationCountOf` specifies |
| RestoreService.NeedsRestoreDecision | src/application/restore_service.rs:51 | a restore is needed exactly when local holds at least two more than twice Cursor's count (local count positive and Cursor's below half of it, by integer division); one local conversation never suffices |
| RestoreService.NeedsRestoreExamples | src/application/restore_service.rs:51 | 100 local against 40 needs a restore, against 50 or 60 does not, against 49 does; 1 against 0 does not, 2 against 0 does |
| RestoreService.Tallied | src/application/restore_service.rs:125-129 | the report keeps the database, fails exactly when the loop fails, and counts one conversation per restored one |
| RestoreService.TotalMessagesSnoc | src/application/restore_service.rs:107 | one more restored conversation adds its bubble count to the message total |
| RestoreService.RestoreFromExtends | src/application/restore_service.rs:103-117 | the loop only appends to what was already restored, at most one per selected conversation |
| RestoreService.RestoreFromMembers | src/application/restore_service.rs:150-170 | every conversation the loop restores is one of the listed conversations and matches the ids |
| RestoreService.RestoreFromFresh | src/application/restore_service.rs:103-117 | from scratch the loop restores at most the selected conversations, and only those |
| RestoreService.RestoreFromUnlimited | src/application/restore_service.rs:103-117 | when no write can fail, every selected conversation is restored, in order |
| RestoreService.RestoreFromExhausted | src/application/restore_service.rs:109-115 | when every restore fails the loop skips all of them and reports nothing restored, without touching the database |
| RestoreService.RestoreFromFrame | src/application/restore_service.rs:103-117 | a key no listed conversation writes keeps its value, and the table stays present |
| RestoreService.AllSelected | src/application/restore_service.rs:103 | without an id filter every conversation is selected |
| RestoreService.AutoRestoreMissingDb | src/application/restore_service.rs:39-41 | a missing Cursor database needs a restore, and restoring then fails to open it without creating it |
| RestoreService.AutoRestoreCreatesMissingDb | src/application/restore_service.rs:39-41 | with the create flag added to the open, a missing Cursor database with no write failures and the debug level off is created and `auto_restore_if_needed` reports true, leaving exactly the complete restores of every stored conversation |
| RestoreService.AutoRestoreNotNeeded | src/application/restore_service.rs:183-186 | when no restore is needed the Cursor database's entries are unchanged |
| RestoreService.RestoreListedReports | src/application/restore_service.rs:125-129 | a restore reports the number and the total bubble count of some selection of the listed conversations, no more than are selected |
| RestoreService.TalliedReports | src/application/restore_service.rs:125-129 | the tallied report counts exactly the conversations the loop restored and their bubbles |
| RestoreService.RestoringUnlimited | src/application/restore_service.rs:104 | restoring a conversation with an unlimited write budget and no debug logging always succeeds and keeps the budget unlimited |
| RestoreService.RestoreFromEntries | src/application/restore_service.rs:103-117 | with no write failure and no debug logging, the loop leaves the entries of complete restores of the selected conversations, in order, over the old entries |
| RestoreService.RestoreListedEverything | src/application/restore_service.rs:94-129 | with no write failure and no debug logging, every selected conversation is counted with all its bubbles, and the database holds the entries of their restores, in order, over the old entries |
| RestoreService.RestoreAllRestoresEverything | src/application/restore_service.rs:79-130 | with no write failure and no debug logging, `restore_all` reports every stored conversation and its bubbles, and Cursor's database holds the entries of all their restores |
| RestoreService.RestoredAllUntouched | src/application/restore_service.rs:103-117 | a key no restore of the conversations writes keeps its entry, or stays absent |
| RestoreService.RestoredAllFirst | src/application/restore_service.rs:103-117 | a key the first restore writes and no later restore writes holds the first restore's value |
| RestoreService.RestoredAllLast | src/application/restore_service.rs:103-117 | a written key holds the value of the last restore that writes it |
| RestoreService.ComposerKeyOf | src/infrastructure/cursor_writer.rs:50-51 | a conversation's restore writes another id's composer key neither as its composer key nor as a bubble key |
| RestoreService.RestoreAllEntry | src/application/restore_service.rs:79-130 | after an unlimited `restore_all`, every composer or bubble entry of a stored conversation holds its restored value unless a later conversation writes the same key |
| RestoreService.RestoreAllComposer | src/application/restore_service.rs:79-130 | after an unlimited `restore_all`, every stored conversation whose id no later one shares has its composer record in Cursor's database |
| RestoreService.RestoreListedExhausted | src/application/restore_service.rs:109-115 | when no write succeeds, nothing is restored and the report is zero conversations and zero messages |
| RestoreService.RestoreListedFrame | src/application/restore_service.rs:94-129 | a key no listed conversation writes is neither added, removed nor changed |
| RestoreService.RestoreKeepsTable | src/infrastructure/cursor_writer.rs:43-75 | restoring one conversation keeps the key/value table present |
| RestoreService.RestoreService.constructor | src/application/restore_service.rs:19-21 | the service holds the given local store and Cursor database |
| RestoreService.RestoreService.NeedsRestore | src/application/restore_service.rs:32-62 | no local store needs no restore; an unlocatable Cursor database is an error; otherwise the result is the decision step on both databases |
| RestoreService.RestoreService.CursorIsEmpty | src/application/restore_service.rs:65-73 | a missing Cursor database is empty; otherwise its emptiness, as the count query gives it |
| RestoreService.RestoreService.RestoreSelected | src/application/restore_service.rs:79-178 | the shared body of both restores: the missing-store error, the location error, or the restore step |
| RestoreService.RestoreService.RestoreEach | src/application/restore_service.rs:103-117 | the loop's effect and report are those of the restore loop function, tallied |
| RestoreService.RestoreService.RestoreAll | src/application/restore_service.rs:79-130 | no local store is the "run sync first" error; otherwise the restore step over every stored conversation |
| RestoreService.RestoreService.RestoreByIds | src/application/restore_service.rs:133-178 | no local store is an error; otherwise the restore step over the stored conversations matching the ids |
| RestoreService.RestoreService.AutoRestoreIfNeeded | src/application/restore_service.rs:183-199 | no restore when none is needed; otherwise a full restore, reporting true when it succeeds |
| CursorReset.MatchesPattern | src/infrastructure/cursor_reset.rs:298-310 | as written: a pattern without exactly one '*' matches only the identical name |
| CursorReset.MatchesPatternOneStar | src/infrastructure/cursor_reset.rs:299-306 | as written: a pattern with one '*' matches exactly the names that start with the part before it and end with the part after it |
| CursorReset.Glob | src/infrastructure/cursor_reset.rs:297 | a pattern without '*' matches only the identical name |
| CursorReset.GlobLiteralPrefix | src/infrastructure/cursor_reset.rs:297 | a literal prefix of a pattern must start the name, and the rest of the pattern must match the rest of the name |
| CursorReset.GlobStarSuffix | src/infrastructure/cursor_reset.rs:297 | "*" followed by a literal matches exactly the names ending with it |
| CursorReset.GlobOneStar | src/infrastructure/cursor_reset.rs:303-305 | a one-star pattern matches the names that start with its prefix and end with its suffix without the two overlapping |
| CursorReset.MatchersAgree | src/infrastructure/cursor_reset.rs:298-310 | on patterns with no star or one star the glob and the source's matcher agree, except that the glob refuses a prefix and suffix that overlap |
| CursorReset.CountCharAppend | src/infrastructure/cursor_reset.rs:300 | the stars in a concatenation are the stars of its parts |
| CursorReset.IconPatternAsWritten | src/infrastructure/cursor_reset.rs:374 | as written, "cursor*.*" matches only itself: "cursor.png" and "cursor-icon.svg" are not matched |
| CursorReset.GlobContains | src/infrastructure/cursor_reset.rs:297 | "*c*" matches exactly the names containing `c` |
| CursorReset.IconPatternGlob | src/infrastructure/cursor_reset.rs:27-30 | as a glob, "cursor*.*" matches exactly the names starting with "cursor" with a '.' after it |
| CursorReset.IconPatternGlobExamples | src/infrastructure/cursor_reset.rs:374-375 | as a glob, "cursor*.*" matches "cursor.png" and "cursor-icon.svg" |
| CursorReset.IconPatternGlobRejects | src/infrastructure/cursor_reset.rs:27-30 | as a glob, "cursor*.*" does not match "other.png" |
| CursorReset.GlobStarAll | src/infrastructure/cursor_reset.rs:297 | "*" matches every name |
| CursorReset.DesktopPattern | src/infrastructure/cursor_reset.rs:21-24 | "cursor*.desktop" matches exactly the names starting with "cursor" and ending with ".desktop" |
| CursorReset.Affixes | src/infrastructure/cursor_reset.rs:370-371 | a name built as prefix, middle, suffix starts with the prefix and ends with the suffix |
| CursorReset.DesktopPatternExamples | src/infrastructure/cursor_reset.rs:370-372 | "cursor" + anything + ".desktop" matches "cursor*.desktop"; a name not starting with 'c', such as "other.desktop", does not |
| CursorReset.MergeIdentity | src/infrastructure/cursor_reset.rs:341-346 | merging with empty statistics changes nothing, on either side |
| CursorReset.MergeAssociative | src/infrastructure/cursor_reset.rs:341-346 | merging is associative |
| CursorReset.MergeExample | src/infrastructure/cursor_reset.rs:379-399 | merging (2, 5, [a], []) with (1, 3, [b], [c]) gives 3 directories, 8 files, two cleaned paths and the skipped path c |
| CursorReset.CleanupStats.Default | src/infrastructure/cursor_reset.rs:327-337 | new statistics are all zero and empty |
| CursorReset.CleanupStats.Merge | src/infrastructure/cursor_reset.rs:341-346 | the statistics become the merge of the old ones with the other |
| CursorReset.CleanupStats.RecordFile | src/infrastructure/cursor_reset.rs:196-197 | one more file removed and its path appended to the cleaned paths, nothing else changed |
| CursorReset.CleanupStats.RecordDir | src/infrastructure/cursor_reset.rs:271-272 | one more directory removed and its path appended to the cleaned paths, nothing else changed |
| CursorReset.PatternCleaned | src/infrastructure/cursor_reset.rs:186-203 | for any matcher, every cleaned path is that of a removable entry whose name the matcher accepts for some pattern, at most one per entry |
| CursorReset.PatternCleanedComplete | src/infrastructure/cursor_reset.rs:193-200 | for any matcher, every removable entry whose name it accepts for some pattern is cleaned |
| CursorReset.PatternCleanedSnoc | src/infrastructure/cursor_reset.rs:190-202 | one more directory entry appends its path exactly when it is removable and some pattern matches it |
| CursorReset.MatchesSome | src/infrastructure/cursor_reset.rs:193-200 | the loop over the patterns reports a match exactly when `matches_pattern` accepts the name for some pattern |
| CursorReset.PatternCleanedSingle | src/infrastructure/cursor_reset.rs:193-200 | a single entry is cleaned exactly when it is removable and some pattern matches it |
| CursorReset.DesktopCleanupExample | src/infrastructure/cursor_reset.rs:162-163 | as written, the desktop cleanup removes a removable "cursor….desktop" entry |
| CursorReset.SecondIconPatternAsWritten | src/infrastructure/cursor_reset.rs:298-310 | as written, "co.anysphere.cursor*.*" (two '*') matches only its own text |
| CursorReset.AnyMatchOfTwo | src/infrastructure/cursor_reset.rs:193-194 | with two patterns, some pattern matches iff the first or the second does |
| CursorReset.IconPatternsAsWritten | src/infrastructure/cursor_reset.rs:193-194 | as written, the icon patterns together accept only their own two texts |
| CursorReset.IconCleanupAsWritten | src/infrastructure/cursor_reset.rs:166-167 | as written, the icon cleanup leaves a removable "cursor.png" in place and the statistics unchanged |
| CursorReset.IconCleanupCorrected | src/infrastructure/cursor_reset.rs:374 | with the glob matcher the test expects, the icon cleanup removes "cursor.png" and counts one file |
| CursorReset.CleanByPatterns | src/infrastructure/cursor_reset.rs:181-204 | the statistics grow by the removable entries that `matches_pattern` accepts for some pattern, in listing order, and not at all when the directory is missing or unreadable |
| CursorReset.AppImagesCleaned | src/infrastructure/cursor_reset.rs:248-264 | every cleaned path is that of a removable entry named "Cursor-*.AppImage", at most one per entry |
| CursorReset.AppImageStats | src/infrastructure/cursor_reset.rs:235-277 | disabled or without a downloads directory nothing is cleaned; at most one directory is removed; nothing is skipped; one path per removal |
| CursorReset.AppImageOnlyTargets | src/infrastructure/cursor_reset.rs:256-274 | only AppImage files of the downloads directory and the squashfs-root directory are ever cleaned |
| CursorReset.AppImageExamples | src/infrastructure/cursor_reset.rs:256 | "Cursor-0.42.3-x86_64.AppImage" is an AppImage to clean; "cursor-0.42.3.AppImage" and "Cursor-0.42.3.tar.gz" are not |
| CursorReset.CleanAppImages | src/infrastructure/cursor_reset.rs:235-277 | new statistics holding exactly what the AppImage cleanup specifies |
| Formatter.FromStr | src/application/formatter.rs:25-32 | a format is recognised exactly when the lower-cased text is "markdown", "md", "json" or "table", "md" meaning Markdown; anything else is refused with a message quoting the text |
| Formatter.ToLowerIdempotent | src/application/formatter.rs:26 | lower-casing twice is lower-casing once |
| Formatter.FromStrIgnoresCase | src/application/formatter.rs:26 | a text and its lower case parse to the same format, or both fail |
| Formatter.FromStrName | src/application/formatter.rs:27-29 | every format parses back from its name |
| Formatter.FromStrExamples | src/application/formatter.rs:25-32 | "markdown", "md", "json", "table" and "JSON" are recognised; "invalid" is not |
| Formatter.FirstLine | src/application/formatter.rs:173 | the first line is a prefix of the text without a line feed, and the whole text when there is none |
| Formatter.FirstLineIdempotent | src/application/formatter.rs:173 | the first line of a first line is itself |
| Formatter.Truncate | src/application/formatter.rs:172-179 | a first line that fits is returned whole; a longer one is cut to exactly the budget, ending in "..." after a prefix of the line; it panics exactly when a cut is needed and the budget is below 3 or the cut falls inside a character |
| Formatter.ByteLenAppend | src/application/formatter.rs:176-178 | the UTF-8 length of a concatenation is the sum of the lengths |
| Formatter.TruncateFirstLine | src/application/formatter.rs:173 | truncating a text is truncating its first line |
| Formatter.TruncateAscii | src/application/formatter.rs:176-178 | on ASCII text with a budget of at least 3 truncation keeps the first budget-minus-3 characters and adds "..." |
| Formatter.TruncateShortExample | src/application/formatter.rs:174-175 | "hello" with budget 10 is unchanged |
| Formatter.TruncateLongExample | src/application/formatter.rs:176-178 | "hello world!" with budget 8 becomes "hello..." |
| Formatter.TruncateCrLfExample | src/application/formatter.rs:173 | "first\r\nsecond" with budget 10 becomes "first" |

## Left out

- The process and file-system side of `src/infrastructure/cursor_reset.rs` is outside the model: killing Cursor's processes, resetting the machine id, `run_full_reset`, `clean_system_files` and its `sh` globs, and `update-desktop-database`.
- `clean_config_dirs` is not modelled. It removes the fixed configuration directories with `remove_dir_all` and records the absent ones as skipped. This is file-system work with no selection logic.
- `clean_desktop_entries` is modelled only through the two `clean_by_patterns` calls it makes, as `CursorReset.CleanByPatterns` with the desktop and icon patterns. `clean_appimages` is modelled as `CursorReset.CleanAppImages`. A directory listing is a parameter, and each entry says whether removing it succeeds.
- The Markdown, table and JSON rendering of `src/application/formatter.rs` is presentation only, so it is left out.
- `src/application/storage_manager.rs` is not part of this model. Neither are the floating-point helpers `format_bytes` and `usage_percent`, nor `get_storage_info` in `src/application/sync_service.rs`. They are directory walks and `f64` arithmetic.
- `LocalStorage::get_workspaces` and `get_storage_size` are left out. `sync` and `check_storage_limits` take the file size (or its error) as a parameter.
- `SyncService::new` opens the store at the configured path, which is not modelled; `with_storage` is. `get_state`, `get_conversations` and `get_workspaces` of `SyncService` only delegate to `LocalStorage` and have no members of their own.
- `find_state_databases` and the file-system probing of `src/infrastructure/cursor_paths.rs` are left out. The sync takes the list of found databases as a parameter.
- Counters (`usize`, `i64` and SQLite `COUNT(*)`) are unbounded integers. Their overflow is not modelled: it needs more records than memory holds. Token counts and the stored byte count are the exception: they cross `as i64` and `as u64` casts, and those casts are modelled explicitly.
- The `synced_count` and `message_count` counters of `sync` only feed a log line, so they are left out. The final stored counts come from the tables and are modelled.
- `Text.ToLowerChar` is exact up to U+00FF and for KELVIN SIGN and ANGSTROM SIGN. It leaves other characters above U+00FF unchanged. `Text.IsAlphanumeric` treats characters above U+00FF as not alphanumeric. The titles and the format names depend on these two. Both are exact on ASCII, where the title properties are stated.
- SQLite orders `created_at` as text, and it leaves the order of equal keys unspecified. The model orders by the parsed time and keeps equal times in rowid order.
- The RFC 3339 grammar and `DateTime` arithmetic are parameters of `Chrono`. So are the wall clock (`Utc::now`, `datetime('now')`) and the `now` of `BackupMetadata::is_expired`. Each of these is one value per operation.
- The SipHash digest and its hex text are left out. Distinct fingerprints are taken to give distinct hashes, so a hash collision is not modelled.
- Serialising to JSON bytes (`serde_json::to_vec`, which cannot fail for these values) and the byte-level JSON grammar are left out. Stored values are `Json` documents, or `Malformed` when serde_json would reject them.
- Parser.ParseBubble: serde's derived decoder also accepts a JSON array that holds the fields of `RawBubble` (and of the nested `RawThinking` and `RawTokenCount`) in declaration order. The model rejects every payload that is not an object. Cursor and the restore both write objects.
- Parser.ParseComposer: likewise, the positional array form of `RawComposer` and `RawModelConfig` is not modelled. A payload that is not an object is rejected.
- Opening and initialising the local store (`LocalStorage::open` with its schema) is modelled only for a new file. The services receive an already opened store. Open failures and schema errors of the local store are not modelled.
- In `RestoreService`, the database path that `RestoreResult` carries is left out.
- `BackupMetadata::new` and its compression flag are left out. They are constructors used only by the storage manager.
- Data-directory path resolution (`data_dir`, `default_data_dir`) is left out: it is file-system probing.
- `tracing` output is left out. Only whether a log level is enabled matters, because it decides whether a log argument's slice runs.
- Concurrency (`SQLITE_OPEN_NO_MUTEX`), the daemon loop and the systemd unit are left out.
- Cascading deletes of the real SQLite engine are left out, since the code never deletes. Foreign keys are enforced, as `PRAGMA foreign_keys = ON` asks: an upsert naming a missing workspace or conversation fails with a constraint error. `LocalStore.ValidTables` keeps the references valid as an invariant.

## Findings

| source | as written | input that shows it | evidently intended | confidence | as-written member | corrected member |
|---|---|---|---|---|---|---|
| src/infrastructure/cursor_reset.rs:298-310 | `matches_pattern` splits the pattern at '*' and handles only two parts. "cursor*.*" has three, so it falls back to string equality, and the unit test at line 374 expects the opposite. `clean_desktop_entries` therefore never removes an icon such as "cursor.png" | name "cursor.png", pattern "cursor*.*" | a glob match, under which "cursor.png" and "cursor-icon.svg" match "cursor*.*" | not executed | CursorReset.IconCleanupAsWritten | CursorReset.IconCleanupCorrected |
| src/infrastructure/cursor_writer.rs:22-25 | `open` passes `SQLITE_OPEN_READ_WRITE` without `SQLITE_OPEN_CREATE`, so an absent database file cannot be opened. `needs_restore` (src/application/restore_service.rs:39-41) reports that a missing database needs a restore, and the restore then fails on the open | an absent Cursor database file | `open` creates the file, as the unit test at line 182 expects, and the restore then fills it | not executed | RestoreService.AutoRestoreMissingDb | RestoreService.AutoRestoreCreatesMissingDb |
