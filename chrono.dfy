/**
 * The date library as the source uses it, with instants as milliseconds since the Unix epoch.
 * The RFC 3339 grammar is not modelled: the string parser and printer are parameters, tied
 * together by `Valid`.
 */
module Chrono {
  import opened Base

  datatype Chrono = Chrono(
    /** `str::parse::<DateTime<Utc>>`. */
    parseDateTime: string -> Option<int>,
    /** `DateTime::parse_from_rfc3339`, converted to UTC. */
    parseRfc3339: string -> Option<int>,
    /** `DateTime::to_rfc3339`. */
    toRfc3339: int -> string,
    /** The range of `DateTime<Utc>`, in milliseconds. */
    minMillis: int,
    maxMillis: int)
  {
    predicate InRange(ms: int) {
      minMillis <= ms <= maxMillis
    }

    /** `DateTime::from_timestamp_millis`: `None` outside the representable range. */
    function FromTimestampMillis(ms: int): (r: Option<int>)
      ensures r.Some? <==> InRange(ms)
      ensures r.Some? ==> r.value == ms
    {
      if InRange(ms) then Some(ms) else None
    }

    /** The parser reads back what the printer writes, and only yields representable instants. */
    ghost predicate Valid() {
      minMillis <= 0 <= maxMillis
      && (forall ms :: InRange(ms) ==> parseDateTime(toRfc3339(ms)) == Some(ms))
      && (forall ms :: InRange(ms) ==> parseRfc3339(toRfc3339(ms)) == Some(ms))
      && (forall s :: parseDateTime(s).Some? ==> InRange(parseDateTime(s).value))
      && (forall s :: parseRfc3339(s).Some? ==> InRange(parseRfc3339(s).value))
    }
  }
}
