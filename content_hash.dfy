/**
 * Change detection for the sync (`calculate_hash` in src/application/sync_service.rs). The
 * source feeds a fixed tuple of conversation data to a hasher and stores the hex digest; the
 * model keeps the tuple itself, so two conversations get the same fingerprint exactly when
 * the hashed data agree.
 */
module ContentHash {
  import opened Models

  /** How many of the newest bubbles the hash covers. */
  const HASHED_TAIL := 5

  /** The data `calculate_hash` feeds to the hasher, in order. */
  datatype Fingerprint = Fingerprint(
    composerId: string,
    title: string,
    bubbleCount: nat,
    /** (bubble id, text) of the last bubbles, newest first. */
    tail: seq<(string, string)>)

  function Min(a: nat, b: nat): nat {
    if a <= b then a else b
  }

  /** The `i`-th bubble counting back from the newest. */
  function Newest(bs: seq<Bubble>, i: nat): Bubble
    requires i < |bs|
  {
    bs[|bs| - 1 - i]
  }

  /** `bubbles.iter().rev().take(5)`, keeping the id and text of each. */
  function Tail(bs: seq<Bubble>): (t: seq<(string, string)>)
    ensures |t| == Min(HASHED_TAIL, |bs|)
  {
    seq(Min(HASHED_TAIL, |bs|), i requires 0 <= i < Min(HASHED_TAIL, |bs|) =>
      (Newest(bs, i).bubbleId, Newest(bs, i).text))
  }

  function CalculateHash(c: Conversation): (fp: Fingerprint) {
    Fingerprint(c.composerId, c.title, |c.bubbles|, Tail(c.bubbles))
  }

  /** The two bubble lists agree on the id and text of their last `n` bubbles. */
  predicate SameTail(a: seq<Bubble>, b: seq<Bubble>, n: nat)
    requires n <= |a| && n <= |b|
  {
    forall i :: 0 <= i < n ==>
      Newest(a, i).bubbleId == Newest(b, i).bubbleId && Newest(a, i).text == Newest(b, i).text
  }

  /**
   * The hash is equal exactly when the id, the title, the number of bubbles and the id and
   * text of the last five bubbles are equal.
   */
  lemma HashEqualIff(c: Conversation, d: Conversation)
    ensures CalculateHash(c) == CalculateHash(d) <==>
      c.composerId == d.composerId && c.title == d.title && |c.bubbles| == |d.bubbles|
      && SameTail(c.bubbles, d.bubbles, Min(HASHED_TAIL, |c.bubbles|))
  {
    var n := Min(HASHED_TAIL, |c.bubbles|);
    if c.composerId == d.composerId && c.title == d.title && |c.bubbles| == |d.bubbles|
       && SameTail(c.bubbles, d.bubbles, n)
    {
      var tc, td := Tail(c.bubbles), Tail(d.bubbles);
      assert |tc| == |td|;
      forall i | 0 <= i < n ensures tc[i] == td[i] {
      }
    }
    if CalculateHash(c) == CalculateHash(d) {
      var tc, td := Tail(c.bubbles), Tail(d.bubbles);
      forall i | 0 <= i < n
        ensures Newest(c.bubbles, i).bubbleId == Newest(d.bubbles, i).bubbleId
        ensures Newest(c.bubbles, i).text == Newest(d.bubbles, i).text
      {
        assert tc[i] == td[i];
      }
    }
  }

  /**
   * Replacing a bubble older than the last five, whatever the replacement, leaves the hash
   * unchanged: such an edit is not detected.
   */
  lemma OlderEditUndetected(c: Conversation, i: nat, b: Bubble)
    requires i + HASHED_TAIL < |c.bubbles|
    ensures CalculateHash(c.(bubbles := c.bubbles[i := b])) == CalculateHash(c)
  {
    var d := c.(bubbles := c.bubbles[i := b]);
    HashEqualIff(d, c);
    assert SameTail(d.bubbles, c.bubbles, HASHED_TAIL);
  }

  /** Changing the text of one of the last five bubbles changes the hash. */
  lemma RecentEditDetected(c: Conversation, i: nat, text: string)
    requires i < |c.bubbles| && |c.bubbles| <= i + HASHED_TAIL && text != c.bubbles[i].text
    ensures CalculateHash(c.(bubbles := c.bubbles[i := c.bubbles[i].(text := text)])) != CalculateHash(c)
  {
    var d := c.(bubbles := c.bubbles[i := c.bubbles[i].(text := text)]);
    HashEqualIff(d, c);
    var k := |c.bubbles| - 1 - i;
    assert k < Min(HASHED_TAIL, |c.bubbles|);
    assert Newest(d.bubbles, k).text != Newest(c.bubbles, k).text;
  }
}
