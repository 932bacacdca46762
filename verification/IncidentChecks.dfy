/** The pure part of the incident response service: authorization, validation
    and the records built before anything is written. */
module IncidentChecks {
  import opened IncidentModels
  import opened CategoryCodec
  import opened IncidentStore

  // ----- codes and authorization -----

  const PROCESSOR_NOTICE_CODE: string := "PROCESSOR_NOTICE_EVIDENCE_PRESENT"

  lemma ProcessorNoticeCodeIsValid()
    ensures ValidCode(PROCESSOR_NOTICE_CODE)
  {
    assert forall k :: 0 <= k < |PROCESSOR_NOTICE_CODE| ==> CodeCharacter(PROCESSOR_NOTICE_CODE[k]);
  }

  function DenialReason(context: Option<ActorContext>, roles: set<string>, policyVersion: string, now: int): (r: Option<string>)
    ensures r.None? ==> context.Some?
  {
    match context
    case None => Some("UNTRUSTED_CONTEXT")
    case Some(c) =>
      if !c.trusted then Some("UNTRUSTED_CONTEXT")
      else if c.issuedAt > now then Some("CONTEXT_NOT_YET_VALID")
      else if c.expiresAt <= now then Some("CONTEXT_EXPIRED")
      else if c.policyVersion != policyVersion then Some("POLICY_VERSION_MISMATCH")
      else if c.actorType != User then Some("ACTOR_TYPE_NOT_ALLOWED")
      else if c.privileged then Some("PRIVILEGED_CONTEXT_NOT_ALLOWED")
      else if c.roles * roles == {} then Some("INCIDENT_ROLE_REQUIRED")
      else None
  }

  /** An unexpired, unprivileged USER context of the right policy version with a required role. */
  ghost predicate Authorized(c: ActorContext, roles: set<string>, policyVersion: string, now: int) {
    && c.trusted
    && c.issuedAt <= now < c.expiresAt
    && c.policyVersion == policyVersion
    && c.actorType == User
    && !c.privileged
    && exists role :: role in c.roles && role in roles
  }

  lemma AuthorizationIsExact(c: ActorContext, roles: set<string>, policyVersion: string, now: int)
    ensures DenialReason(Some(c), roles, policyVersion, now) == None <==> Authorized(c, roles, policyVersion, now)
  {
    if role :| role in c.roles && role in roles {
      assert role in c.roles * roles;
    } else {
      assert c.roles * roles == {};
    }
  }

  predicate ScopeAllowed(c: ActorContext, scopeType: IncidentScopeType, scopeId: Option<string>) {
    match scopeType
    case EnterpriseScope => c.canViewEnterprise
    case SourceScope => scopeId.Some? && scopeId.value in c.permittedSourceIds
    case DatasetScope => scopeId.Some? && scopeId.value in c.permittedDatasetIds
  }

  // ----- draft validation -----

  datatype Finding = Valid | Invalid(message: string) | OutOfScope(reason: string)

  function ValidateIncidentDraft(draft: SecurityIncidentDraft, isUuid: string -> bool, c: ActorContext, now: int): Finding {
    if draft.source.Foreign? then Invalid("Incident source is invalid.")
    else if draft.severity.Foreign? then Invalid("Incident severity is invalid.")
    else if draft.scopeType.Foreign? then Invalid("Incident scope type is invalid.")
    else if !isUuid(draft.sourceEventReferenceId) then Invalid("Incident source event reference must be a UUID.")
    else if !isUuid(draft.evidenceReferenceId) then Invalid("Incident evidence reference must be a UUID.")
    else if draft.detectedAt.Naive? || draft.detectedAt.instant > now then Invalid("Incident detection time is invalid.")
    else if !ValidCode(draft.eventCode) then Invalid("Incident event code is invalid.")
    else if draft.scopeType.value == EnterpriseScope then
      if draft.scopeId.Some? || !c.canViewEnterprise then OutOfScope("ENTERPRISE_SCOPE_DENIED") else Valid
    else if draft.scopeId.None? || draft.scopeId.value == "" || |draft.scopeId.value| > 200 then
      Invalid("Incident scope is invalid.")
    else if draft.scopeType.value == SourceScope then
      if draft.scopeId.value !in c.permittedSourceIds then OutOfScope("SOURCE_SCOPE_DENIED") else Valid
    else
      if draft.scopeId.value !in c.permittedDatasetIds then OutOfScope("DATASET_SCOPE_DENIED") else Valid
  }

  function ValidateBreachDraft(draft: BreachSuspicionDraft, isUuid: string -> bool, now: int): Finding {
    if draft.origin.Foreign? then Invalid("Breach origin is invalid.")
    else if Foreign in draft.dataCategories then Invalid("Personal data category is invalid.")
    else if !isUuid(draft.incidentId) then Invalid("Incident incident must be a UUID.")
    else if !isUuid(draft.evidenceReferenceId) then Invalid("Incident evidence reference must be a UUID.")
    else if draft.learnedAt.Naive? || draft.learnedAt.instant > now then Invalid("Breach learned time is invalid.")
    else if draft.dataCategories == {} then Invalid("At least one personal data category is required.")
    else if !ValidCode(draft.affectedScopeCode) then Invalid("Affected scope code is invalid.")
    else if !ValidCode(draft.containmentActionCode) then Invalid("Containment action code is invalid.")
    else if draft.origin.value == DataProcessor then
      if draft.processorNotificationEvidenceId.None? then
        Invalid("Processor-origin suspicion requires notification evidence.")
      else if !isUuid(draft.processorNotificationEvidenceId.value) then
        Invalid("Incident processor notification evidence must be a UUID.")
      else Valid
    else if draft.processorNotificationEvidenceId.Some? then
      Invalid("Processor notification evidence is only valid for processor origin.")
    else Valid
  }

  function ValidateDecisionDraft(draft: BreachDecisionDraft, isUuid: string -> bool, now: int): Finding {
    if draft.decision.Foreign? then Invalid("Breach notification decision is invalid.")
    else if !isUuid(draft.breachId) then Invalid("Incident breach must be a UUID.")
    else if !isUuid(draft.evidenceReferenceId) then Invalid("Incident evidence reference must be a UUID.")
    else if draft.decidedAt.Naive? || draft.decidedAt.instant > now then Invalid("Breach decision time is invalid.")
    else if !ValidCode(draft.reasonCode) then Invalid("Breach decision reason code is invalid.")
    else Valid
  }

  // ----- timeline entries -----

  function IncidentEntry(timelineId: string, i: SecurityIncident): TimelineEntry {
    TimelineEntry(timelineId, i.incidentId, None, SecurityIncidentRecorded, i.detectedAt, i.recordedBy,
                  i.eventCode, i.evidenceReferenceId)
  }

  function SuspicionEntry(timelineId: string, b: BreachRow): TimelineEntry {
    TimelineEntry(timelineId, b.incidentId, Some(b.breachId), BreachSuspicionRecorded, b.learnedAt,
                  b.recordedBy, b.affectedScopeCode, b.evidenceReferenceId)
  }

  function ContainmentEntry(timelineId: string, b: BreachRow): TimelineEntry {
    TimelineEntry(timelineId, b.incidentId, Some(b.breachId), ContainmentRecorded, b.recordedAt,
                  b.recordedBy, b.containmentActionCode, b.evidenceReferenceId)
  }

  function ProcessorEntry(timelineId: string, b: BreachRow): TimelineEntry
    requires b.processorNotificationEvidenceId.Some?
  {
    TimelineEntry(timelineId, b.incidentId, Some(b.breachId), ProcessorNoticeEvidenceRecorded, b.recordedAt,
                  b.recordedBy, PROCESSOR_NOTICE_CODE, b.processorNotificationEvidenceId.value)
  }

  function BreachEntries(suspicionId: string, containmentId: string, processorId: string, b: BreachRow): seq<TimelineEntry> {
    [SuspicionEntry(suspicionId, b), ContainmentEntry(containmentId, b)]
    + if b.processorNotificationEvidenceId.Some? then [ProcessorEntry(processorId, b)] else []
  }

  function DecisionEntry(timelineId: string, incidentId: string, d: BreachDecision): TimelineEntry {
    TimelineEntry(timelineId, incidentId, Some(d.breachId), NotificationDecisionRecorded, d.decidedAt,
                  d.decidedBy, d.reasonCode, d.evidenceReferenceId)
  }

  // ----- audit events -----

  function SuccessAudit(c: ActorContext, eventId: string, action: AuditAction, objectId: string,
                        reasonCode: string, values: AuditValues, at: int): AuditEvent {
    AuditEvent(eventId, c.actorId, Some(c.actorType), c.correlationId, action, Some(objectId), Success,
               reasonCode, values, at, Some(c.sessionId))
  }

  function CorrelationOf(context: Option<ActorContext>): string {
    if context.Some? then context.value.correlationId else "incident-access-denied"
  }

  function DenialAudit(policy: AccessPolicy, context: Option<ActorContext>, reason: string, at: int, eventId: string): AuditEvent {
    AuditEvent(
      eventId,
      if context.Some? then context.value.actorId else "UNKNOWN",
      if context.Some? then Some(context.value.actorType) else None,
      CorrelationOf(context), AuthorizationAction, None, Denied, reason,
      DenialValues(policy.version, reason), at,
      if context.Some? then Some(context.value.sessionId) else None)
  }

  // ----- the check phase of the three writing operations -----

  /** The random identifiers one call draws. */
  datatype Ids = Ids(recordId: string, first: string, second: string, third: string, eventId: string)

  /** What a call is about to write, with what it was checked against. */
  datatype Op =
    | IncidentOp(context: ActorContext, at: int, incident: SecurityIncident, entry: TimelineEntry, event: AuditEvent)
    | BreachOp(context: ActorContext, at: int, read: SecurityIncident, breach: BreachSuspicion,
               row: BreachRow, entries: seq<TimelineEntry>, event: AuditEvent)
    | DecisionOp(context: ActorContext, at: int, read: SecurityIncident, readBreach: BreachSuspicion,
                 decision: BreachDecision, entry: TimelineEntry, event: AuditEvent)
    | NoteOp(event: AuditEvent)

  datatype Verdict =
    | Refuse(error: Error)
    | Deny(context: Option<ActorContext>, reason: string, at: int)
    | Proceed(op: Op)

  function TimelineRows(entries: seq<TimelineEntry>): (rows: seq<Row>)
    ensures |rows| == |entries|
    ensures forall k :: 0 <= k < |rows| ==> rows[k] == TimelineRow(entries[k])
  {
    if entries == [] then [] else [TimelineRow(entries[0])] + TimelineRows(entries[1..])
  }

  /** The statements of the transaction that stores a checked operation. */
  function Rows(op: Op): seq<Row> {
    match op
    case IncidentOp(_, _, i, e, a) => [IncidentRow(i), TimelineRow(e), AuditRow(a)]
    case BreachOp(_, _, _, _, row, es, a) => [BreachInsert(row)] + TimelineRows(es) + [AuditRow(a)]
    case DecisionOp(_, _, _, _, d, e, a) => [DecisionRow(d), TimelineRow(e), AuditRow(a)]
    case NoteOp(a) => [AuditRow(a)]
  }

  function Trusted(context: Option<ActorContext>): Option<ActorContext> {
    if context.Some? && context.value.trusted then context else None
  }

  const NAIVE_CLOCK: Error := Validation("Incident response clock must be timezone-aware.")

  function BuildIncident(draft: SecurityIncidentDraft, c: ActorContext, now: int, id: string): SecurityIncident
    requires draft.source.Member? && draft.severity.Member? && draft.scopeType.Member? && draft.detectedAt.Aware?
  {
    SecurityIncident(id, draft.sourceEventReferenceId, draft.detectedAt.instant, draft.source.value,
                     draft.severity.value, draft.eventCode, draft.scopeType.value, draft.scopeId,
                     draft.evidenceReferenceId, c.actorId, now)
  }

  function IncidentAudit(policy: AccessPolicy, c: ActorContext, i: SecurityIncident, eventId: string, now: int): AuditEvent {
    SuccessAudit(c, eventId, IncidentRecordedAction, i.incidentId, i.eventCode,
                 IncidentValues(policy.version, i.source, i.severity, i.eventCode, i.scopeType), now)
  }

  function CheckIncident(policy: AccessPolicy, isUuid: string -> bool, draft: SecurityIncidentDraft,
                         context: Option<ActorContext>, clock: Timestamp, ids: Ids): (v: Verdict)
    ensures v.Refuse? ==> v.error.Validation? || v.error.NotFound? || v.error.Technical?
    ensures v.Proceed? ==> v.op.IncidentOp?
  {
    match clock
    case Naive(_) => Refuse(NAIVE_CLOCK)
    case Aware(now) =>
      var denial := DenialReason(context, policy.incidentRoles, policy.actorPolicyVersion, now);
      if denial.Some? then Deny(Trusted(context), denial.value, now)
      else
        var c := context.value;
        match ValidateIncidentDraft(draft, isUuid, c, now)
        case Invalid(message) => Refuse(Validation(message))
        case OutOfScope(reason) => Deny(context, reason, now)
        case Valid =>
          var i := BuildIncident(draft, c, now, ids.recordId);
          Proceed(IncidentOp(c, now, i, IncidentEntry(ids.first, i), IncidentAudit(policy, c, i, ids.eventId, now)))
  }

  function Members(categories: set<Arg<PersonalDataCategory>>): set<PersonalDataCategory> {
    set c | c in {PersonalData, SpecialCategoryPersonalData} && Member(c) in categories
  }

  function BuildBreach(draft: BreachSuspicionDraft, c: ActorContext, now: int, id: string, incidentId: string): BreachSuspicion
    requires draft.origin.Member? && draft.learnedAt.Aware?
  {
    BreachSuspicion(id, incidentId, draft.learnedAt.instant, draft.learnedAt.instant + ASSESSMENT_WINDOW,
                    draft.origin.value, Members(draft.dataCategories), draft.affectedScopeCode,
                    draft.containmentActionCode, draft.evidenceReferenceId,
                    draft.processorNotificationEvidenceId, AssessmentPending, c.actorId, now)
  }

  function BreachAudit(policy: AccessPolicy, c: ActorContext, b: BreachSuspicion, eventId: string, now: int): AuditEvent {
    SuccessAudit(c, eventId, BreachRecordedAction, b.breachId, "ASSESSMENT_PENDING",
                 BreachValues(policy.version, b.origin, |b.dataCategories|, b.status, b.evaluationDeadlineAt,
                              b.processorNotificationEvidenceId.Some?, b.containmentActionCode), now)
  }

  function CheckBreach(policy: AccessPolicy, isUuid: string -> bool, draft: BreachSuspicionDraft,
                       context: Option<ActorContext>, clock: Timestamp, ids: Ids,
                       read: Lookup<SecurityIncident>): (v: Verdict)
    ensures v.Refuse? ==> v.error.Validation? || v.error.NotFound? || v.error.Technical?
    ensures v.Proceed? ==> v.op.BreachOp?
  {
    match clock
    case Naive(_) => Refuse(NAIVE_CLOCK)
    case Aware(now) =>
      var denial := DenialReason(context, policy.privacyRoles, policy.actorPolicyVersion, now);
      if denial.Some? then Deny(Trusted(context), denial.value, now)
      else
        var c := context.value;
        match ValidateBreachDraft(draft, isUuid, now)
        case Invalid(message) => Refuse(Validation(message))
        case OutOfScope(reason) => Deny(context, reason, now)
        case Valid =>
          match read
          case Missing => Refuse(NotFound)
          case Broken => Refuse(Technical(c.correlationId))
          case Found(i) =>
            if !ScopeAllowed(c, i.scopeType, i.scopeId) then Deny(context, "INCIDENT_SCOPE_DENIED", now)
            else if draft.learnedAt.instant < i.detectedAt then
              Refuse(Validation("Breach learned time cannot precede incident detection."))
            else
              var b := BuildBreach(draft, c, now, ids.recordId, i.incidentId);
              var row := EncodeBreach(b);
              Proceed(BreachOp(c, now, i, b, row, BreachEntries(ids.first, ids.second, ids.third, row),
                               BreachAudit(policy, c, b, ids.eventId, now)))
  }

  function BuildDecision(draft: BreachDecisionDraft, c: ActorContext, now: int, id: string, breachId: string): BreachDecision
    requires draft.decision.Member? && draft.decidedAt.Aware?
  {
    BreachDecision(id, breachId, draft.decision.value, draft.decidedAt.instant, draft.reasonCode,
                   draft.evidenceReferenceId, c.actorId, now, false)
  }

  function DecisionAudit(policy: AccessPolicy, c: ActorContext, b: BreachSuspicion, d: BreachDecision,
                         eventId: string, now: int): AuditEvent {
    SuccessAudit(c, eventId, DecisionRecordedAction, d.decisionId, d.reasonCode,
                 DecisionValues(policy.version, d.decision, d.reasonCode, d.decidedAt <= b.evaluationDeadlineAt), now)
  }

  function CheckDecision(policy: AccessPolicy, isUuid: string -> bool, draft: BreachDecisionDraft,
                         context: Option<ActorContext>, clock: Timestamp, ids: Ids,
                         readBreach: Lookup<BreachSuspicion>, read: Lookup<SecurityIncident>): (v: Verdict)
    ensures v.Refuse? ==> v.error.Validation? || v.error.NotFound? || v.error.Technical?
    ensures v.Proceed? ==> v.op.DecisionOp?
  {
    match clock
    case Naive(_) => Refuse(NAIVE_CLOCK)
    case Aware(now) =>
      var denial := DenialReason(context, policy.privacyRoles, policy.actorPolicyVersion, now);
      if denial.Some? then Deny(Trusted(context), denial.value, now)
      else
        var c := context.value;
        match ValidateDecisionDraft(draft, isUuid, now)
        case Invalid(message) => Refuse(Validation(message))
        case OutOfScope(reason) => Deny(context, reason, now)
        case Valid =>
          if readBreach.Missing? then Refuse(NotFound)
          else if readBreach.Broken? then Refuse(Technical(c.correlationId))
          else if read.Missing? then Refuse(NotFound)
          else if read.Broken? then Refuse(Technical(c.correlationId))
          else
            var b, i := readBreach.row, read.row;
            if !ScopeAllowed(c, i.scopeType, i.scopeId) then Deny(context, "INCIDENT_SCOPE_DENIED", now)
            else if b.recordedBy == c.actorId then Deny(context, "MAKER_CHECKER_REQUIRED", now)
            else if draft.decidedAt.instant < b.learnedAt then
              Refuse(Validation("Breach decision time cannot precede learned time."))
            else
              var d := BuildDecision(draft, c, now, ids.recordId, b.breachId);
              Proceed(DecisionOp(c, now, i, b, d, DecisionEntry(ids.first, i.incidentId, d),
                                 DecisionAudit(policy, c, b, d, ids.eventId, now)))
  }

  // ----- what passing the check phase establishes -----

  ghost predicate AuditMatches(event: AuditEvent, c: ActorContext, action: AuditAction, objectId: string, at: int) {
    && event.action == action
    && event.objectId == Some(objectId)
    && event.result == Success
    && event.actorId == c.actorId
    && event.occurredAt == at
  }

  ghost predicate CheckedIncident(policy: AccessPolicy, c: ActorContext, at: int, i: SecurityIncident,
                                  e: TimelineEntry, a: AuditEvent) {
    && Authorized(c, policy.incidentRoles, policy.actorPolicyVersion, at)
    && ScopeAllowed(c, i.scopeType, i.scopeId)
    && i.detectedAt <= at
    && i.recordedAt == at
    && i.recordedBy == c.actorId
    && PresentableRow(IncidentRow(i))
    && e == IncidentEntry(e.timelineId, i)
    && AuditMatches(a, c, IncidentRecordedAction, i.incidentId, at)
  }

  ghost predicate EntriesOfBreach(row: BreachRow, es: seq<TimelineEntry>) {
    exists x, y, z :: es == BreachEntries(x, y, z, row)
  }

  ghost predicate CheckedBreach(policy: AccessPolicy, c: ActorContext, at: int, i: SecurityIncident,
                                b: BreachSuspicion, row: BreachRow, es: seq<TimelineEntry>, a: AuditEvent) {
    && Authorized(c, policy.privacyRoles, policy.actorPolicyVersion, at)
    && ScopeAllowed(c, i.scopeType, i.scopeId)
    && row == EncodeBreach(b)
    && BreachFits(row, i)
    && PresentableRow(BreachInsert(row))
    && row.recordedAt == at
    && row.recordedBy == c.actorId
    && EntriesOfBreach(row, es)
    && AuditMatches(a, c, BreachRecordedAction, row.breachId, at)
  }

  ghost predicate CheckedDecision(policy: AccessPolicy, c: ActorContext, at: int, i: SecurityIncident,
                                  b: BreachSuspicion, d: BreachDecision, e: TimelineEntry, a: AuditEvent) {
    && Authorized(c, policy.privacyRoles, policy.actorPolicyVersion, at)
    && ScopeAllowed(c, i.scopeType, i.scopeId)
    && i.incidentId == b.incidentId
    && d.breachId == b.breachId
    && b.learnedAt <= d.decidedAt <= d.recordedAt
    && d.decidedBy != b.recordedBy
    && !d.externalNotificationDispatched
    && d.recordedAt == at
    && d.decidedBy == c.actorId
    && PresentableRow(DecisionRow(d))
    && e == DecisionEntry(e.timelineId, i.incidentId, d)
    && AuditMatches(a, c, DecisionRecordedAction, d.decisionId, at)
    && a.newValues.DecisionValues?
    && a.newValues.onTime == (d.decidedAt <= b.evaluationDeadlineAt)
  }

  ghost predicate Checked(policy: AccessPolicy, op: Op) {
    match op
    case IncidentOp(c, at, i, e, a) => CheckedIncident(policy, c, at, i, e, a)
    case BreachOp(c, at, i, b, row, es, a) => CheckedBreach(policy, c, at, i, b, row, es, a)
    case DecisionOp(c, at, i, b, d, e, a) => CheckedDecision(policy, c, at, i, b, d, e, a)
    case NoteOp(a) => a.action == AuthorizationAction || a.action == TimelineViewedAction
  }

  /** Only authorized, in-scope, well-formed incidents leave the check phase. */
  lemma IncidentCheckEstablishes(policy: AccessPolicy, isUuid: string -> bool, draft: SecurityIncidentDraft,
                                 context: Option<ActorContext>, clock: Timestamp, ids: Ids)
    requires CheckIncident(policy, isUuid, draft, context, clock, ids).Proceed?
    ensures var op := CheckIncident(policy, isUuid, draft, context, clock, ids).op;
            op.IncidentOp? && Checked(policy, op) && op.incident.incidentId == ids.recordId && Aware(op.at) == clock
  {
    AuthorizationIsExact(context.value, policy.incidentRoles, policy.actorPolicyVersion, clock.instant);
  }

  lemma MembersNonEmpty(categories: set<Arg<PersonalDataCategory>>)
    requires categories != {} && Foreign !in categories
    ensures Members(categories) != {}
  {
    var arg :| arg in categories;
    assert arg == Member(arg.value);
    assert arg.value == PersonalData || arg.value == SpecialCategoryPersonalData;
    assert arg.value in Members(categories);
  }

  /** A validated draft that passed the incident comparison builds a fitting breach. */
  lemma BuiltBreachFits(draft: BreachSuspicionDraft, isUuid: string -> bool, c: ActorContext, now: int,
                        id: string, i: SecurityIncident)
    requires ValidateBreachDraft(draft, isUuid, now) == Valid
    requires i.detectedAt <= draft.learnedAt.instant
    ensures var row := EncodeBreach(BuildBreach(draft, c, now, id, i.incidentId));
            BreachFits(row, i) && PresentableRow(BreachInsert(row))
  {
    MembersNonEmpty(draft.dataCategories);
    CategoriesRoundTrip(Members(draft.dataCategories));
  }

  lemma BreachCheckFacts(policy: AccessPolicy, c: ActorContext, at: int, i: SecurityIncident, b: BreachSuspicion, ids: Ids)
    requires Authorized(c, policy.privacyRoles, policy.actorPolicyVersion, at)
    requires ScopeAllowed(c, i.scopeType, i.scopeId)
    requires BreachFits(EncodeBreach(b), i) && PresentableRow(BreachInsert(EncodeBreach(b)))
    requires b.recordedAt == at && b.recordedBy == c.actorId
    ensures CheckedBreach(policy, c, at, i, b, EncodeBreach(b), BreachEntries(ids.first, ids.second, ids.third, EncodeBreach(b)),
                          BreachAudit(policy, c, b, ids.eventId, at))
  {
  }

  lemma BreachCheckEstablishes(policy: AccessPolicy, isUuid: string -> bool, draft: BreachSuspicionDraft,
                               context: Option<ActorContext>, clock: Timestamp, ids: Ids, read: Lookup<SecurityIncident>)
    requires CheckBreach(policy, isUuid, draft, context, clock, ids, read).Proceed?
    ensures var op := CheckBreach(policy, isUuid, draft, context, clock, ids, read).op;
            op.BreachOp? && Checked(policy, op) && op.breach.breachId == ids.recordId
            && read == Found(op.read) && Aware(op.at) == clock
  {
    var now, c, i := clock.instant, context.value, read.row;
    AuthorizationIsExact(c, policy.privacyRoles, policy.actorPolicyVersion, now);
    BuiltBreachFits(draft, isUuid, c, now, ids.recordId, i);
    var b := BuildBreach(draft, c, now, ids.recordId, i.incidentId);
    BreachCheckFacts(policy, c, now, i, b, ids);
  }

  lemma DecisionCheckEstablishes(policy: AccessPolicy, isUuid: string -> bool, draft: BreachDecisionDraft,
                                 context: Option<ActorContext>, clock: Timestamp, ids: Ids,
                                 readBreach: Lookup<BreachSuspicion>, read: Lookup<SecurityIncident>)
    requires readBreach.Found? && read.Found? ==> read.row.incidentId == readBreach.row.incidentId
    requires CheckDecision(policy, isUuid, draft, context, clock, ids, readBreach, read).Proceed?
    ensures var op := CheckDecision(policy, isUuid, draft, context, clock, ids, readBreach, read).op;
            op.DecisionOp? && Checked(policy, op) && op.decision.decisionId == ids.recordId
            && readBreach == Found(op.readBreach) && read == Found(op.read) && Aware(op.at) == clock
  {
    AuthorizationIsExact(context.value, policy.privacyRoles, policy.actorPolicyVersion, clock.instant);
  }
}
