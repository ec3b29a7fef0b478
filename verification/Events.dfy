/** Audit events and how a stream payload becomes one (audit/models.py, consumers/processor.py). */
module Events {
  import opened Wrappers
  import opened Json
  import opened Timestamps

  datatype AuditEvent = AuditEvent(
    eventId: string, timestamp: Datetime, service: string, eventType: string,
    userId: Option<string>, organizationId: Option<string>, tenantScope: string,
    action: string, resource: Option<string>, decision: Option<string>,
    reason: Option<string>, traceId: Option<string>, context: Json)

  /** What the schema guarantees of an event: a real datetime, and a dict as context. */
  predicate IsEvent(e: AuditEvent) { IsDatetime(e.timestamp) && e.context.Obj? && WellFormed(e.context) }

  /** Fields that passed the schema; a missing event id or timestamp is filled in at every parse. */
  datatype Draft = Draft(eventId: Option<string>, timestamp: Option<Datetime>, rest: AuditEvent)

  /** What `json.loads` makes of the raw text: it raises, or yields a non-object, or an object with
      its `service` if that is a string and its schema-valid fields if it has them. */
  datatype Payload = Raises(kind: string) | NotAnObject | Object(service: Option<string>, draft: Option<Draft>)

  predicate IsDraft(d: Draft) {
    && (d.timestamp.Some? ==> IsDatetime(d.timestamp.value))
    && d.rest.context.Obj? && WellFormed(d.rest.context)
    && d.rest.tenantScope in {"organization", "global", "unknown"}
  }

  predicate TenantConsistent(e: AuditEvent) { e.tenantScope == "organization" <==> e.organizationId.Some? }

  /** The outcome of `validate_tenant_scope`: an organization id makes the scope "organization", and
      what is then inconsistent is refused. */
  function Validated(e: AuditEvent): (r: Option<AuditEvent>)
    ensures r.Some? ==> TenantConsistent(r.value)
    ensures r.Some? <==> TenantConsistent(e) || (e.organizationId.Some? && e.tenantScope == "unknown")
    ensures r.Some? ==> r.value.(tenantScope := e.tenantScope) == e
  {
    var f := if e.organizationId.Some? && e.tenantScope == "unknown" then e.(tenantScope := "organization") else e;
    if TenantConsistent(f) then Some(f) else None
  }

  /** `validate_tenant_scope`, assignment by assignment. */
  method ValidateTenantScope(e: AuditEvent) returns (r: Option<AuditEvent>)
    ensures r == Validated(e)
  {
    var tenantScope := e.tenantScope;
    if e.organizationId.Some? && tenantScope == "unknown" {
      tenantScope := "organization";
    }
    if tenantScope == "organization" && e.organizationId.None? {
      return None;
    }
    if tenantScope != "organization" && e.organizationId.Some? {
      return None;
    }
    return Some(e.(tenantScope := tenantScope));
  }

  type Loader = string -> Payload

  function Load(loads: Loader, raw: Option<string>): Payload {
    if raw.None? then Raises("TypeError") else loads(raw.value)
  }

  /** `parse_audit_event`; None when it raises. `freshId` and `utcNow` stand for the two defaults. */
  function ParseEvent(loads: Loader, raw: Option<string>, freshId: string, utcNow: Datetime): Option<AuditEvent> {
    match Load(loads, raw)
    case Object(_, Some(d)) =>
      Validated(d.rest.(
        eventId := if d.eventId.Some? then d.eventId.value else freshId,
        timestamp := if d.timestamp.Some? then d.timestamp.value else utcNow))
    case _ => None
  }

  /** What parses keeps what the payload says: its own event id and timestamp where it has them, the two defaults
      only where it does not, every other field, and the scope unless it was unknown beside an organization id. */
  lemma ParsedKeepsPayload(loads: Loader, raw: Option<string>, freshId: string, utcNow: Datetime, e: AuditEvent)
    requires ParseEvent(loads, raw, freshId, utcNow) == Some(e)
    ensures raw.Some? && loads(raw.value).Object? && loads(raw.value).draft.Some?
    ensures var d := loads(raw.value).draft.value;
      && (if d.eventId.Some? then e.eventId == d.eventId.value else e.eventId == freshId)
      && (if d.timestamp.Some? then e.timestamp == d.timestamp.value else e.timestamp == utcNow)
      && e.(eventId := d.rest.eventId, timestamp := d.rest.timestamp, tenantScope := d.rest.tenantScope) == d.rest
      && e.tenantScope == (if d.rest.tenantScope == "unknown" && d.rest.organizationId.Some? then "organization" else d.rest.tenantScope)
  {
  }

  /** The event id the payload itself carries. */
  function CarriedId(loads: Loader, raw: Option<string>): Option<string> {
    match Load(loads, raw)
    case Object(_, Some(d)) => d.eventId
    case _ => None
  }

  predicate Parses(loads: Loader, raw: Option<string>) {
    ParseEvent(loads, raw, "", Datetime(0, None)).Some?
  }

  /** `classify_poison_reason`: category, service, detail. */
  function PoisonReason(loads: Loader, raw: Option<string>): (r: (string, Option<string>, Option<string>))
    ensures r.0 != ""
  {
    if raw.None? then ("malformed", None, Some("MissingDataField"))
    else
      match loads(raw.value)
      case Raises(kind) => ("malformed", None, Some(kind))
      case NotAnObject => ("malformed", None, Some("NotAJsonObject"))
      case Object(service, _) => ("persistence_exhausted", service, None)
  }

  /** An event the tenant rule refuses. */
  predicate TenantRefused(e: AuditEvent) {
    if e.organizationId.Some? then e.tenantScope != "organization" && e.tenantScope != "unknown" else e.tenantScope == "organization"
  }

  /** Which payloads are filed under "persistence_exhausted" although no attempt could ever have persisted
      them: exactly the objects without schema-valid fields and those the tenant rule refuses. */
  lemma ExhaustedNeverParsesIff(loads: Loader, raw: Option<string>)
    ensures PoisonReason(loads, raw).0 == "persistence_exhausted" && !Parses(loads, raw) <==>
      raw.Some? && loads(raw.value).Object?
      && (loads(raw.value).draft.None? || TenantRefused(loads(raw.value).draft.value.rest))
  {
  }

  /** For every parser: an object with an organization id and the scope "global" is filed so, and no parse of it
      ever succeeds. */
  lemma GlobalScopeMisfiled(loads: Loader, raw: string)
    requires loads(raw).Object? && loads(raw).draft.Some?
    requires loads(raw).draft.value.rest.tenantScope == "global" && loads(raw).draft.value.rest.organizationId.Some?
    ensures PoisonReason(loads, Some(raw)) == ("persistence_exhausted", loads(raw).service, None)
    ensures forall freshId, utcNow :: ParseEvent(loads, Some(raw), freshId, utcNow).None?
  {
    ExhaustedNeverParsesIff(loads, Some(raw));
  }

  /** What is malformed never parses, whatever the defaults. */
  lemma MalformedNeverParses(loads: Loader, raw: Option<string>, freshId: string, utcNow: Datetime)
    ensures ParseEvent(loads, raw, freshId, utcNow).Some? <==> Parses(loads, raw)
    ensures PoisonReason(loads, raw).0 == "malformed" <==> !Load(loads, raw).Object?
    ensures PoisonReason(loads, raw).0 == "malformed" ==> !Parses(loads, raw)
    ensures CarriedId(loads, raw).Some? && ParseEvent(loads, raw, freshId, utcNow).Some? ==>
      ParseEvent(loads, raw, freshId, utcNow).value.eventId == CarriedId(loads, raw).value
  {
  }
}
