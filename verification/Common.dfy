/** Datatypes shared by the models of the BridgeSAT components. */
module Common {

  datatype Option<+T> = None | Some(value: T)

  datatype Result<+T, +E> = Ok(value: T) | Err(error: E)

  /** Python's truth value of an optional string: None and "" are both false. */
  predicate Truthy(s: Option<string>) {
    s.Some? && s.value != ""
  }

  /** The part of an event envelope that the sync protocol looks at. */
  datatype Envelope = Envelope(eventId: string, deviceSequence: Option<int>)

  function EventId(e: Envelope): string {
    e.eventId
  }
}
