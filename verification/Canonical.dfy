/** The canonical event, the one record type that every component reads. */
module Canonical {
  import opened Wrappers

  /** Instants are nanoseconds since Go's zero time, so the zero instant means "not set". */
  const ZERO_TIME: int := 0
  const MAX_DURATION: int := 0x7FFF_FFFF_FFFF_FFFF

  datatype Metadata = Metadata(schemaVersion: string, tenantID: string)

  const SEVERITIES := {"info", "warn", "error", "critical"}

  datatype Event = Event(eventID: string, sourceID: string, sourceType: string, eventType: string,
                         severity: string, timestamp: int, payload: string, metadata: Metadata)
  {
    /** The first missing or malformed required field, if any. */
    function Validate(): Option<string> {
      if eventID == "" then Some("canonical: event_id required")
      else if sourceID == "" then Some("canonical: source_id required")
      else if sourceType == "" then Some("canonical: source_type required")
      else if eventType == "" then Some("canonical: event_type required")
      else if severity == "" then Some("canonical: severity required")
      else if severity !in ["info", "warn", "error", "critical"] then Some("canonical: unknown severity")
      else if timestamp == ZERO_TIME then Some("canonical: timestamp required")
      else if metadata.schemaVersion == "" then Some("canonical: metadata.schema_version required")
      else None
    }

    /** An event is valid exactly when every required field is present and its severity is one of the four. */
    lemma ValidExactly()
      ensures Validate().None? <==>
        && |eventID| > 0 && |sourceID| > 0 && |sourceType| > 0 && |eventType| > 0
        && severity in SEVERITIES && timestamp != ZERO_TIME && |metadata.schemaVersion| > 0
    {
    }

    /** Elapsed time up to `ref`: future events have age 0, and `time.Time.Sub` saturates at the widest Duration. */
    function AgeAt(ref: int): (age: nat)
      ensures age <= MAX_DURATION
    {
      var d := ref - timestamp;
      if d < 0 then 0 else if d > MAX_DURATION then MAX_DURATION else d
    }

    /** The age is the elapsed time wherever a Duration can hold it, and goes no further at either end. */
    lemma AgeExactly(ref: int)
      ensures 0 <= ref - timestamp <= MAX_DURATION ==> AgeAt(ref) == ref - timestamp
      ensures AgeAt(ref) == 0 <==> timestamp >= ref
      ensures AgeAt(ref) == MAX_DURATION <==> ref - timestamp >= MAX_DURATION
    {
    }
  }
}
