/**
 * Decoding of Cursor's stored payloads (src/application/parser.rs): the keys of the key/value
 * table, bubble and composer JSON with serde's defaulting rules, and timestamps.
 */
module Parser {
  import opened Base
  import opened Errors
  import opened Json
  import opened Text
  import opened Models
  import opened Chrono

  const COMPOSER_PREFIX := "composerData:"
  const BUBBLE_PREFIX := "bubbleId:"

  datatype RawModelConfig = RawModelConfig(modelName: string, maxMode: bool)

  /** The composer fields the source reads; unknown fields are ignored. */
  datatype RawComposer = RawComposer(
    version: Option<U8>,
    createdAt: Option<U64>,
    modelConfig: Option<RawModelConfig>,
    unifiedMode: Option<string>)

  /** `composerData:{id}` gives `id`. */
  function ExtractComposerId(key: string): (r: Option<string>)
    ensures r.Some? <==> StartsWith(key, COMPOSER_PREFIX)
    ensures r.Some? ==> key == COMPOSER_PREFIX + r.value
  {
    StripPrefix(key, COMPOSER_PREFIX)
  }

  /** The id in a composer key is read back unchanged. */
  lemma ComposerKeyRoundTrip(id: string)
    ensures ExtractComposerId(COMPOSER_PREFIX + id) == Some(id)
  {
    assert (COMPOSER_PREFIX + id)[..|COMPOSER_PREFIX|] == COMPOSER_PREFIX;
    assert (COMPOSER_PREFIX + id)[|COMPOSER_PREFIX|..] == id;
  }

  /**
   * `bubbleId:{cid}:{bid}` gives `cid`: the text after the prefix up to the first ':', or the
   * whole remainder when it has no ':'.
   */
  function ExtractConversationId(key: string): (r: Option<string>)
    ensures r.None? <==> !StartsWith(key, BUBBLE_PREFIX)
    ensures r.Some? ==> ':' !in r.value && StartsWith(key, BUBBLE_PREFIX + r.value)
    ensures r.Some? ==> var n := |BUBBLE_PREFIX| + |r.value|;
      n == |key| || key[n] == ':'
  {
    match StripPrefix(key, BUBBLE_PREFIX)
    case None => None
    case Some(rest) =>
      SplitFirst(rest, ':');
      var cid := Split(rest, ':')[0];
      assert key[..|BUBBLE_PREFIX| + |cid|] == BUBBLE_PREFIX + cid;
      Some(cid)
  }

  /** A bubble key built from a conversation id without ':' gives that id back. */
  lemma BubbleKeyConversationId(cid: string, bid: string)
    requires ':' !in cid
    ensures ExtractConversationId(BUBBLE_PREFIX + cid + ":" + bid) == Some(cid)
  {
    var key := BUBBLE_PREFIX + cid + ":" + bid;
    var rest := cid + ":" + bid;
    assert key[..|BUBBLE_PREFIX|] == BUBBLE_PREFIX;
    assert key[|BUBBLE_PREFIX|..] == rest;
    assert rest[|cid|] == ':' && rest[..|cid|] == cid;
    var i := IndexOf(rest, ':');
    assert i.Some? && i.value <= |cid|;
    SplitFirst(rest, ':');
  }

  /** `Option<String>` with `#[serde(default)]`, or a timestamp string for `parse_datetime`. */
  function DecodeOptString(f: Option<Json>): Result<Option<string>> {
    match f
    case None => Ok(None)
    case Some(JNull) => Ok(None)
    case Some(JStr(s)) => Ok(Some(s))
    case Some(_) => Err(JsonParse("invalid type: expected a string"))
  }

  /** A required `String`. */
  function DecodeString(f: Option<Json>): Result<string> {
    match f
    case None => Err(JsonParse("missing field"))
    case Some(JStr(s)) => Ok(s)
    case Some(_) => Err(JsonParse("invalid type: expected a string"))
  }

  /** A `String` with `#[serde(default)]`. */
  function DecodeStringOrEmpty(f: Option<Json>): Result<string> {
    match f
    case None => Ok("")
    case Some(JStr(s)) => Ok(s)
    case Some(_) => Err(JsonParse("invalid type: expected a string"))
  }

  /** A `bool` with `#[serde(default)]`. */
  function DecodeBoolOrFalse(f: Option<Json>): Result<bool> {
    match f
    case None => Ok(false)
    case Some(JBool(b)) => Ok(b)
    case Some(_) => Err(JsonParse("invalid type: expected a boolean"))
  }

  /** An `Option<u8>`. */
  function DecodeOptU8(f: Option<Json>): Result<Option<U8>> {
    match f
    case None => Ok(None)
    case Some(JNull) => Ok(None)
    case Some(JInt(n)) => if 0 <= n < 0x100 then Ok(Some(n)) else Err(JsonParse("invalid value: expected u8"))
    case Some(_) => Err(JsonParse("invalid type: expected u8"))
  }

  /** A `u8` with `#[serde(default)]`. */
  function DecodeU8OrZero(f: Option<Json>): Result<U8> {
    match f
    case None => Ok(0)
    case Some(JInt(n)) => if 0 <= n < 0x100 then Ok(n) else Err(JsonParse("invalid value: expected u8"))
    case Some(_) => Err(JsonParse("invalid type: expected u8"))
  }

  /** An `Option<u64>`. */
  function DecodeOptU64(f: Option<Json>): Result<Option<U64>> {
    match f
    case None => Ok(None)
    case Some(JNull) => Ok(None)
    case Some(JInt(n)) => if 0 <= n < U64_LIMIT then Ok(Some(n)) else Err(JsonParse("invalid value: expected u64"))
    case Some(_) => Err(JsonParse("invalid type: expected u64"))
  }

  /** A `u64` with `#[serde(default)]`. */
  function DecodeU64OrZero(f: Option<Json>): Result<U64> {
    match f
    case None => Ok(0)
    case Some(JInt(n)) => if 0 <= n < U64_LIMIT then Ok(n) else Err(JsonParse("invalid value: expected u64"))
    case Some(_) => Err(JsonParse("invalid type: expected u64"))
  }

  /** `Option<RawThinking>`: an object with a defaulted `text` and an optional `signature`. */
  function DecodeOptThinking(f: Option<Json>): Result<Option<ThinkingBlock>> {
    match f
    case None => Ok(None)
    case Some(JNull) => Ok(None)
    case Some(JObj(m)) =>
      var text :- DecodeStringOrEmpty(Get(JObj(m), "text"));
      var signature :- DecodeOptString(Get(JObj(m), "signature"));
      Ok(Some(ThinkingBlock(text, signature)))
    case Some(_) => Err(JsonParse("invalid type: expected struct RawThinking"))
  }

  /** `Option<RawTokenCount>`: an object whose two counters default to 0. */
  function DecodeOptTokenCount(f: Option<Json>): Result<Option<TokenCount>> {
    match f
    case None => Ok(None)
    case Some(JNull) => Ok(None)
    case Some(JObj(m)) =>
      var input :- DecodeU64OrZero(Get(JObj(m), "inputTokens"));
      var output :- DecodeU64OrZero(Get(JObj(m), "outputTokens"));
      Ok(Some(TokenCount(input, output)))
    case Some(_) => Err(JsonParse("invalid type: expected struct RawTokenCount"))
  }

  /** `Option<RawModelConfig>`: an object with a defaulted name and flag. */
  function DecodeOptModelConfig(f: Option<Json>): Result<Option<RawModelConfig>> {
    match f
    case None => Ok(None)
    case Some(JNull) => Ok(None)
    case Some(JObj(m)) =>
      var name :- DecodeStringOrEmpty(Get(JObj(m), "modelName"));
      var maxMode :- DecodeBoolOrFalse(Get(JObj(m), "maxMode"));
      Ok(Some(RawModelConfig(name, maxMode)))
    case Some(_) => Err(JsonParse("invalid type: expected struct RawModelConfig"))
  }

  /**
   * `parse_datetime`: no value gives no time; otherwise the date library's parser is tried
   * first and integer milliseconds second, and a failure of both, or milliseconds outside the
   * representable range, gives no time rather than an error.
   */
  function ParseDatetime(value: Option<string>, chrono: Chrono): (r: Option<int>)
    ensures value.None? ==> r.None?
    ensures value.Some? && chrono.parseDateTime(value.value).Some? ==>
      r == chrono.parseDateTime(value.value)
    ensures value.Some? && chrono.parseDateTime(value.value).None? ==>
      r == (match ParseI64(value.value)
            case None => None
            case Some(ms) => chrono.FromTimestampMillis(ms))
  {
    match value
    case None => None
    case Some(s) =>
      match chrono.parseDateTime(s)
      case Some(t) => Some(t)
      case None =>
        match ParseI64(s)
        case None => None
        case Some(ms) => chrono.FromTimestampMillis(ms)
  }

  /** Parsed times are representable, and a printed time parses back to itself. */
  lemma ParseDatetimeProperties(value: Option<string>, chrono: Chrono, ms: int)
    requires chrono.Valid()
    ensures ParseDatetime(value, chrono).Some? ==> chrono.InRange(ParseDatetime(value, chrono).value)
    ensures chrono.InRange(ms) ==> ParseDatetime(Some(chrono.toRfc3339(ms)), chrono) == Some(ms)
  {
  }

  /** `parse_bubble`: the fields of a bubble object, with serde's defaults for absent ones. */
  function ParseBubble(data: Bytes, chrono: Chrono): (r: Result<Bubble>)
    ensures data.Malformed? ==> r.Err?
    ensures r.Ok? ==>
      data.Doc? && data.json.JObj? && Get(data.json, "bubbleId") == Some(JStr(r.value.bubbleId))
  {
    match data
    case Malformed => Err(JsonParse("malformed JSON"))
    case Doc(j) =>
      if !j.JObj? then Err(JsonParse("invalid type: expected struct RawBubble"))
      else
        var version :- DecodeOptU8(Get(j, "_v"));
        var code :- DecodeU8OrZero(Get(j, "type"));
        var id :- DecodeString(Get(j, "bubbleId"));
        var text :- DecodeStringOrEmpty(Get(j, "text"));
        var createdAt :- DecodeOptString(Get(j, "createdAt"));
        var thinking :- DecodeOptThinking(Get(j, "thinking"));
        var duration :- DecodeOptU64(Get(j, "thinkingDurationMs"));
        var tokens :- DecodeOptTokenCount(Get(j, "tokenCount"));
        var agentic :- DecodeBoolOrFalse(Get(j, "isAgentic"));
        Ok(Bubble(
          id, TypeFromCode(code), text, ParseDatetime(createdAt, chrono), thinking, duration,
          if tokens.Some? then tokens.value else TokenCount(0, 0), agentic))
  }

  /** Absent or null. */
  predicate Missing(j: Json, key: string) {
    Get(j, key).None? || Get(j, key) == Some(JNull)
  }

  /**
   * A parsed bubble copies its fields from the object: id, text, thinking text and signature,
   * duration and flags unchanged, the type through the 0/1/2 table, and serde's default
   * (empty text, type 0, no thinking, zero tokens, not agentic) for each field that is absent.
   */
  lemma ParseBubbleFields(j: Json, chrono: Chrono)
    requires ParseBubble(Doc(j), chrono).Ok?
    ensures var b := ParseBubble(Doc(j), chrono).value;
      && (Get(j, "text").None? ==> b.text == "")
      && (Get(j, "text").Some? ==> Get(j, "text") == Some(JStr(b.text)))
      && (Get(j, "type").None? ==> b.bubbleType == Unknown)
      && (forall n: U8 :: Get(j, "type") == Some(JInt(n)) ==> b.bubbleType == TypeFromCode(n))
      && (Get(j, "isAgentic").None? ==> !b.isAgentic)
      && (Get(j, "isAgentic").Some? ==> Get(j, "isAgentic") == Some(JBool(b.isAgentic)))
      && (Missing(j, "thinking") <==> b.thinking.None?)
      && (b.thinking.Some? ==>
            var t := Get(j, "thinking").value;
            (Get(t, "text").None? ==> b.thinking.value.text == "")
            && (Get(t, "text").Some? ==> Get(t, "text") == Some(JStr(b.thinking.value.text)))
            && (Missing(t, "signature") <==> b.thinking.value.signature.None?)
            && (b.thinking.value.signature.Some? ==>
                  Get(t, "signature") == Some(JStr(b.thinking.value.signature.value))))
      && (Missing(j, "thinkingDurationMs") <==> b.thinkingDurationMs.None?)
      && (b.thinkingDurationMs.Some? ==> Get(j, "thinkingDurationMs") == Some(JInt(b.thinkingDurationMs.value)))
      && (Missing(j, "tokenCount") ==> b.tokenCount == TokenCount(0, 0))
      && (Missing(j, "createdAt") ==> b.createdAt.None?)
  {
  }

  /** Only `bubbleId` is required: an object with nothing else parses to all defaults. */
  lemma MinimalBubble(id: string, chrono: Chrono)
    ensures ParseBubble(Doc(JObj(map["bubbleId" := JStr(id)])), chrono)
         == Ok(Bubble(id, Unknown, "", None, None, None, TokenCount(0, 0), false))
  {
  }

  /** A bubble object without `bubbleId` is rejected. */
  lemma BubbleIdRequired(j: Json, chrono: Chrono)
    requires Get(j, "bubbleId").None?
    ensures ParseBubble(Doc(j), chrono).Err?
  {
  }

  /** `parse_composer`: serde's decoding of the composer fields the source reads. */
  function ParseComposer(data: Bytes): (r: Result<RawComposer>)
    ensures data.Malformed? ==> r.Err?
    ensures r.Ok? ==> data.Doc? && data.json.JObj?
  {
    match data
    case Malformed => Err(JsonParse("malformed JSON"))
    case Doc(j) =>
      if !j.JObj? then Err(JsonParse("invalid type: expected struct RawComposer"))
      else
        var version :- DecodeOptU8(Get(j, "_v"));
        var createdAt :- DecodeOptU64(Get(j, "createdAt"));
        var modelConfig :- DecodeOptModelConfig(Get(j, "modelConfig"));
        var unifiedMode :- DecodeOptString(Get(j, "unifiedMode"));
        Ok(RawComposer(version, createdAt, modelConfig, unifiedMode))
  }

  /** Every composer field is optional: an object with none of them parses to all `None`. */
  lemma ComposerFieldsOptional(fields: map<string, Json>)
    requires "_v" !in fields && "createdAt" !in fields
    requires "modelConfig" !in fields && "unifiedMode" !in fields
    ensures ParseComposer(Doc(JObj(fields))) == Ok(RawComposer(None, None, None, None))
  {
  }
}
