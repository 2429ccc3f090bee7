/** The domain records of a Cursor chat (src/domain/models.rs) and what is derived from them. */
module Models {
  import opened Base
  import opened Text

  datatype BubbleType = User | Assistant | Unknown

  /** The numeric code Cursor stores for a bubble type. */
  function TypeCode(t: BubbleType): (code: U8)
    ensures code <= 2
  {
    match t
    case User => 1
    case Assistant => 2
    case Unknown => 0
  }

  /** `BubbleType::from(u8)`: total, with every unrecognised code read as `Unknown`. */
  function TypeFromCode(code: U8): (t: BubbleType)
    ensures t == User <==> code == 1
    ensures t == Assistant <==> code == 2
    ensures t == Unknown <==> code != 1 && code != 2
  {
    if code == 1 then User else if code == 2 then Assistant else Unknown
  }

  /** Decoding a type's code gives the type back. */
  lemma TypeCodeRoundTrip(t: BubbleType)
    ensures TypeFromCode(TypeCode(t)) == t
  {
  }

  datatype ThinkingBlock = ThinkingBlock(text: string, signature: Option<string>)

  datatype TokenCount = TokenCount(inputTokens: U64, outputTokens: U64)

  /** One message of a conversation. `createdAt` is in milliseconds since the epoch. */
  datatype Bubble = Bubble(
    bubbleId: string,
    bubbleType: BubbleType,
    text: string,
    createdAt: Option<int>,
    thinking: Option<ThinkingBlock>,
    thinkingDurationMs: Option<U64>,
    tokenCount: TokenCount,
    isAgentic: bool)

  datatype ModelConfig = ModelConfig(modelName: string, maxMode: bool)

  const DEFAULT_MODEL_CONFIG := ModelConfig("", false)

  /** A conversation (a Cursor "composer") with its bubbles. */
  datatype Conversation = Conversation(
    composerId: string,
    title: string,
    createdAt: Option<int>,
    modelConfig: ModelConfig,
    unifiedMode: string,
    bubbles: seq<Bubble>)

  /** The sort keys of bubbles and conversations: their creation times. */
  function BubbleTime(b: Bubble): Option<int> {
    b.createdAt
  }

  function ConversationTime(c: Conversation): Option<int> {
    c.createdAt
  }

  datatype ExtractionStats = ExtractionStats(
    conversationCount: nat,
    totalBubbles: nat,
    userMessages: nat,
    assistantMessages: nat,
    databasesScanned: nat)

  const EMPTY_STATS := ExtractionStats(0, 0, 0, 0, 0)

  const EMPTY_PREVIEW := "[Empty conversation]"

  /** `Conversation::preview`. */
  function Preview(c: Conversation): (r: string)
    ensures c.bubbles != [] ==> r == c.bubbles[0].text
    ensures c.bubbles == [] ==> r == EMPTY_PREVIEW
  {
    if c.bubbles == [] then EMPTY_PREVIEW else c.bubbles[0].text
  }

  function MessageCount(c: Conversation): nat {
    |c.bubbles|
  }

  /** The number of bubbles of type `t`. */
  function CountType(bs: seq<Bubble>, t: BubbleType): nat
    decreases |bs|
  {
    if bs == [] then 0 else (if bs[0].bubbleType == t then 1 else 0) + CountType(bs[1..], t)
  }

  function UserMessageCount(c: Conversation): nat {
    CountType(c.bubbles, User)
  }

  function AssistantMessageCount(c: Conversation): nat {
    CountType(c.bubbles, Assistant)
  }

  /** The three type counts partition the bubbles. */
  lemma {:induction false} CountTypesPartition(bs: seq<Bubble>)
    ensures CountType(bs, User) + CountType(bs, Assistant) + CountType(bs, Unknown) == |bs|
    decreases |bs|
  {
    if bs != [] {
      CountTypesPartition(bs[1..]);
    }
  }

  lemma {:induction false} CountTypeAppend(a: seq<Bubble>, b: seq<Bubble>, t: BubbleType)
    ensures CountType(a + b, t) == CountType(a, t) + CountType(b, t)
    decreases |a|
  {
    if a == [] {
      assert a + b == b;
    } else {
      CountTypeAppend(a[1..], b, t);
      assert (a + b)[1..] == a[1..] + b;
    }
  }

  /** The message count is the number of bubbles; user and assistant messages are among them. */
  lemma MessageCounts(c: Conversation)
    ensures MessageCount(c) == |c.bubbles|
    ensures UserMessageCount(c) + AssistantMessageCount(c) <= MessageCount(c)
    ensures UserMessageCount(c) + AssistantMessageCount(c) == MessageCount(c)
      <==> CountType(c.bubbles, Unknown) == 0
  {
    CountTypesPartition(c.bubbles);
  }

  const TITLE_FALLBACK := "conversa"

  /** The text of the first user bubble, or the fallback word when there is none. */
  function FirstUserText(bs: seq<Bubble>): (r: string)
    ensures (forall i :: 0 <= i < |bs| ==> bs[i].bubbleType != User) ==> r == TITLE_FALLBACK
    ensures forall i :: (0 <= i < |bs| && bs[i].bubbleType == User
      && (forall j :: 0 <= j < i ==> bs[j].bubbleType != User)) ==> r == bs[i].text
    decreases |bs|
  {
    if bs == [] then TITLE_FALLBACK
    else if bs[0].bubbleType == User then bs[0].text
    else
      var r := FirstUserText(bs[1..]);
      assert forall i :: 1 <= i < |bs| ==> bs[1..][i - 1] == bs[i];
      r
  }

  /** Characters that survive title cleaning. */
  predicate KeptInTitle(c: char) {
    IsAlphanumeric(c) || IsWhitespace(c) || c == '-' || c == '_'
  }

  /** Keeps alphanumerics, whitespace, '-' and '_'. */
  function Clean(s: string): (r: string)
    ensures forall i :: 0 <= i < |r| ==> KeptInTitle(r[i])
    ensures IsAscii(s) ==> IsAscii(r)
    ensures forall c :: c in r ==> c in s
    decreases |s|
  {
    if s == [] then []
    else (if KeptInTitle(s[0]) then [s[0]] else []) + Clean(s[1..])
  }

  const TITLE_MAX_BYTES := 50
  const TITLE_MAX_WORDS := 8

  /**
   * The length limit on the cleaned text: over 50 bytes it is cut at byte 50 and then back to
   * the last space. `None` where the byte cut falls inside a character, which panics.
   */
  function CutTitle(cleaned: string): (r: Option<string>)
    ensures r.Some? ==> |r.value| <= |cleaned| && r.value == cleaned[..|r.value|]
  {
    if ByteLen(cleaned) > TITLE_MAX_BYTES then
      match BytePrefix(cleaned, TITLE_MAX_BYTES)
      case None => None
      case Some(cut) =>
        match RFind(cut, ' ')
        case None => Some(cut)
        case Some(i) => Some(cut[..i])
    else Some(cleaned)
  }

  /** The title words: at most eight whitespace-separated words of the cut text. */
  function TitleWords(cut: string): (ws: seq<string>)
    ensures |ws| <= TITLE_MAX_WORDS
    ensures forall k :: 0 <= k < |ws| ==> ws[k] != [] && NoWhitespace(ws[k])
  {
    Take(SplitWhitespace(cut), TITLE_MAX_WORDS)
  }

  /** `Conversation::generate_title`; `None` where the byte cut panics. */
  function GenerateTitle(c: Conversation): Option<string> {
    match CutTitle(Clean(FirstUserText(c.bubbles)))
    case None => None
    case Some(cut) => Some(ToLower(Join(TitleWords(cut), "_")))
  }

  /** Characters a title may contain. */
  predicate TitleChar(c: char) {
    (IsAlphanumeric(c) && !IsUpper(c)) || c == '-' || c == '_'
  }

  /** Over-long cleaned ASCII text is cut to 50 characters and then back to the last space. */
  lemma CutTitleAscii(cleaned: string)
    requires IsAscii(cleaned)
    ensures |cleaned| <= TITLE_MAX_BYTES ==> CutTitle(cleaned) == Some(cleaned)
    ensures |cleaned| > TITLE_MAX_BYTES && RFind(cleaned[..TITLE_MAX_BYTES], ' ').None? ==>
      CutTitle(cleaned) == Some(cleaned[..TITLE_MAX_BYTES])
    ensures |cleaned| > TITLE_MAX_BYTES && RFind(cleaned[..TITLE_MAX_BYTES], ' ').Some? ==>
      CutTitle(cleaned) == Some(cleaned[..RFind(cleaned[..TITLE_MAX_BYTES], ' ').value])
  {
    AsciiByteLen(cleaned);
    if |cleaned| > TITLE_MAX_BYTES {
      AsciiBytePrefix(cleaned, TITLE_MAX_BYTES);
    }
  }

  /** A character of the joined title words is '_' or a non-whitespace character of the text. */
  lemma JoinedTitleChar(cut: string, ch: char)
    requires ch in Join(TitleWords(cut), "_")
    ensures ch == '_' || (ch in cut && !IsWhitespace(ch))
  {
    var ws := TitleWords(cut);
    JoinChars(ws, "_", ch);
    if ch != '_' {
      var k :| 0 <= k < |ws| && ch in ws[k];
      assert ws[k] == SplitWhitespace(cut)[k];
      SplitWhitespaceChars(cut, k, ch);
      var j :| 0 <= j < |ws[k]| && ws[k][j] == ch;
    }
  }

  /** Lower-casing the joined words of cleaned text leaves only title characters. */
  lemma TitleCharsOfCut(cut: string)
    requires forall i :: 0 <= i < |cut| ==> KeptInTitle(cut[i])
    ensures var t := ToLower(Join(TitleWords(cut), "_"));
      forall i :: 0 <= i < |t| ==> TitleChar(t[i]) && !IsWhitespace(t[i])
  {
    var joined := Join(TitleWords(cut), "_");
    var t := ToLower(joined);
    forall i | 0 <= i < |t| ensures TitleChar(t[i]) && !IsWhitespace(t[i]) {
      var ch := joined[i];
      JoinedTitleChar(cut, ch);
      assert t[i] == ToLowerChar(ch);
    }
  }

  /**
   * The title is drawn from the first user bubble (or the fallback word); it never panics on
   * ASCII text; it is at most eight non-empty words joined by '_', and it holds only
   * lower-case alphanumerics, '-' and '_', so no whitespace.
   */
  lemma GenerateTitleShape(c: Conversation)
    ensures IsAscii(FirstUserText(c.bubbles)) ==> GenerateTitle(c).Some?
    ensures GenerateTitle(c).Some? ==>
      var t := GenerateTitle(c).value;
      (forall i :: 0 <= i < |t| ==> TitleChar(t[i]) && !IsWhitespace(t[i]))
      && exists ws: seq<string> :: |ws| <= TITLE_MAX_WORDS
           && (forall k :: 0 <= k < |ws| ==> ws[k] != [] && NoWhitespace(ws[k]))
           && t == ToLower(Join(ws, "_"))
  {
    var cleaned := Clean(FirstUserText(c.bubbles));
    if IsAscii(FirstUserText(c.bubbles)) {
      CutTitleAscii(cleaned);
    }
    if CutTitle(cleaned).Some? {
      var cut := CutTitle(cleaned).value;
      assert forall i :: 0 <= i < |cut| ==> cut[i] == cleaned[i];
      TitleCharsOfCut(cut);
      var ws := TitleWords(cut);
      assert GenerateTitle(c) == Some(ToLower(Join(ws, "_")));
    }
  }

  /**
   * Which `tracing` levels are enabled. A disabled macro does not evaluate its arguments, so
   * a slice inside one only panics when its level is on.
   */
  datatype Logging = Logging(debug: bool, warn: bool)

  /** `&id[..8]`, the short id the log lines print, panics. */
  predicate ShortIdPanics(id: string) {
    BytePrefix(id, 8).None?
  }

  /** A short id panics exactly when the id has fewer than 8 bytes, for ASCII ids. */
  lemma ShortIdPanicsAscii(id: string)
    requires IsAscii(id)
    ensures ShortIdPanics(id) <==> |id| < 8
  {
    if 8 <= |id| {
      AsciiBytePrefix(id, 8);
    } else if BytePrefix(id, 8).Some? {
      var p := BytePrefix(id, 8).value;
      assert forall i :: 0 <= i < |p| ==> p[i] == id[i];
      AsciiByteLen(p);
    }
  }

  /** `Conversation::filename`: an id prefix of at most 8 bytes, '_', the title. */
  function Filename(c: Conversation): (r: Option<string>)
    ensures r.Some? <==> (GenerateTitle(c).Some?
      && BytePrefix(c.composerId, if ByteLen(c.composerId) < 8 then ByteLen(c.composerId) else 8).Some?)
    ensures IsAscii(c.composerId) && GenerateTitle(c).Some? ==>
      r == Some(c.composerId[..if |c.composerId| < 8 then |c.composerId| else 8] + "_" + GenerateTitle(c).value)
  {
    AsciiFilenamePrefix(c.composerId);
    var title :- GenerateTitle(c);
    var n := if ByteLen(c.composerId) < 8 then ByteLen(c.composerId) else 8;
    var shortId :- BytePrefix(c.composerId, n);
    Some(shortId + "_" + title)
  }

  lemma AsciiFilenamePrefix(id: string)
    ensures IsAscii(id) ==>
      var n := if |id| < 8 then |id| else 8;
      ByteLen(id) == |id| && BytePrefix(id, n) == Some(id[..n])
  {
    if IsAscii(id) {
      AsciiByteLen(id);
      AsciiBytePrefix(id, if |id| < 8 then |id| else 8);
    }
  }
}
