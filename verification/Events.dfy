/** Generic failure-carrying values used by every component. */
module Outcomes {
  datatype Option<+T> = None | Some(value: T)

  datatype Result<+T, +E> = Success(value: T) | Failure(error: E)
}

/** The `activity.event/v1` record, as the server types it and as the agent's spool sees it. */
module ActivityEvents {
  import opened Outcomes

  const SCHEMA_VERSION := "activity.event/v1"
  const U64_MAX: nat := 0xFFFF_FFFF_FFFF_FFFF
  const I64_MAX: nat := 0x7FFF_FFFF_FFFF_FFFF

  /** The source hierarchy one collector reports under (the authenticated ingest scope). */
  datatype Scope = Scope(tenant: string, host: string, instance: string, agent: string, collector: string)

  /** The optional correlation identifiers a timeline query can filter on. */
  datatype CorrelationKey = SessionId | MissionId | TaskId | ToolCallId | CommandId | ProcessId | TraceId

  /** Payload keys some component reads; everything else is kept as text. */
  datatype Payload = Payload(
    lostObservations: Option<nat>,
    droppedEvents: Option<nat>,
    unsupportedClass: Option<string>,
    other: string)

  /** Every field of an event other than its schema version, identifier and sequence. */
  datatype Body = Body(
    scope: Scope,
    name: string,
    plane: string,
    trust: string,
    outcome: Option<string>,
    correlation: map<CorrelationKey, string>,
    occurredAt: int,
    observedAt: int,
    payload: Payload)

  /** A server-side event: every field present and typed. */
  datatype Event = Event(schemaVersion: string, id: string, sequence: nat, body: Body)

  /** The part of a JSON object outside the three fields the spool reads. */
  datatype JsonRest = Typed(body: Body) | Untyped(text: string)

  /** An agent-side JSON value: any of the fields the spool reads may be missing. */
  datatype Json = Json(
    schemaVersion: Option<string>,
    eventId: Option<string>,
    collectorSequence: Option<nat>,
    rest: JsonRest)

  function Encode(e: Event): Json {
    Json(Some(e.schemaVersion), Some(e.id), Some(e.sequence), Typed(e.body))
  }

  /** Server-side deserialisation: all or nothing, and without loss. */
  function Decode(v: Json): (r: Option<Event>)
    ensures forall e :: r == Some(e) <==> v == Encode(e) && e.sequence <= U64_MAX
  {
    match v
    case Json(Some(schema), Some(id), Some(n), Typed(body)) =>
      if n <= U64_MAX then Some(Event(schema, id, n, body)) else None
    case _ => None
  }
}
