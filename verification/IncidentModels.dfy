/** Frozen records and enumerations of the incident response module.  Instants
    are integers counting microseconds; a `Timestamp` is what a caller hands
    over, which may lack a time zone. */
module IncidentModels {

  datatype Option<+T> = None | Some(value: T)

  /** A caller-supplied enumeration argument, which at run time need not be a member. */
  datatype Arg<+E> = Member(value: E) | Foreign

  datatype Timestamp = Aware(instant: int) | Naive(wall: int)

  datatype IncidentSource = Application | Worker | Scheduler | Integration | Identity | AuditSource
  datatype IncidentSeverity = Low | Medium | High | Critical
  datatype IncidentScopeType = SourceScope | DatasetScope | EnterpriseScope
  datatype BreachOrigin = DataController | DataProcessor
  datatype PersonalDataCategory = PersonalData | SpecialCategoryPersonalData
  datatype BreachAssessmentStatus = AssessmentPending | NotificationDecided
  datatype NotificationDecision = NotificationRequired | NotificationNotRequired
  datatype TimelineEventType =
    | SecurityIncidentRecorded
    | BreachSuspicionRecorded
    | ContainmentRecorded
    | ProcessorNoticeEvidenceRecorded
    | NotificationDecisionRecorded
  datatype DeadlineStatus = StillPending | PendingOverdue | DecidedOnTime | DecidedOverdue
  datatype ActorType = User | Service | BreakGlass

  const ASSESSMENT_WINDOW: int := 72 * 3600 * 1000000

  datatype AccessPolicy = AccessPolicy(
    version: string, actorPolicyVersion: string, incidentRoles: set<string>, privacyRoles: set<string>)

  datatype ActorContext = ActorContext(
    actorId: string, actorType: ActorType, sessionId: string, roles: set<string>,
    permittedSourceIds: set<string>, permittedDatasetIds: set<string>, canViewEnterprise: bool,
    privileged: bool, issuedAt: int, expiresAt: int, policyVersion: string, correlationId: string,
    trusted: bool)

  datatype SecurityIncidentDraft = SecurityIncidentDraft(
    sourceEventReferenceId: string, detectedAt: Timestamp, source: Arg<IncidentSource>,
    severity: Arg<IncidentSeverity>, eventCode: string, scopeType: Arg<IncidentScopeType>,
    scopeId: Option<string>, evidenceReferenceId: string)

  datatype SecurityIncident = SecurityIncident(
    incidentId: string, sourceEventReferenceId: string, detectedAt: int, source: IncidentSource,
    severity: IncidentSeverity, eventCode: string, scopeType: IncidentScopeType,
    scopeId: Option<string>, evidenceReferenceId: string, recordedBy: string, recordedAt: int)

  datatype BreachSuspicionDraft = BreachSuspicionDraft(
    incidentId: string, learnedAt: Timestamp, origin: Arg<BreachOrigin>,
    dataCategories: set<Arg<PersonalDataCategory>>, affectedScopeCode: string,
    containmentActionCode: string, evidenceReferenceId: string,
    processorNotificationEvidenceId: Option<string>)

  datatype BreachSuspicion = BreachSuspicion(
    breachId: string, incidentId: string, learnedAt: int, evaluationDeadlineAt: int,
    origin: BreachOrigin, dataCategories: set<PersonalDataCategory>, affectedScopeCode: string,
    containmentActionCode: string, evidenceReferenceId: string,
    processorNotificationEvidenceId: Option<string>, status: BreachAssessmentStatus,
    recordedBy: string, recordedAt: int)

  datatype BreachDecisionDraft = BreachDecisionDraft(
    breachId: string, decision: Arg<NotificationDecision>, decidedAt: Timestamp,
    reasonCode: string, evidenceReferenceId: string)

  datatype BreachDecision = BreachDecision(
    decisionId: string, breachId: string, decision: NotificationDecision, decidedAt: int,
    reasonCode: string, evidenceReferenceId: string, decidedBy: string, recordedAt: int,
    externalNotificationDispatched: bool)

  datatype TimelineEntry = TimelineEntry(
    timelineId: string, incidentId: string, breachId: Option<string>, eventType: TimelineEventType,
    eventAt: int, actorId: string, reasonCode: string, evidenceReferenceId: string)

  datatype TimelineQuery = TimelineQuery(breachId: string, reasonCode: string)

  datatype EventView = EventView(eventType: TimelineEventType, eventAt: int, reasonCode: string)

  datatype TimelineView = TimelineView(
    breachId: string, learnedAt: int, evaluationDeadlineAt: int, status: BreachAssessmentStatus,
    deadlineStatus: DeadlineStatus, origin: BreachOrigin, dataCategoryCount: nat,
    affectedScopeCode: string, containmentActionCode: string, processorEvidencePresent: bool,
    decision: Option<NotificationDecision>, decidedAt: Option<int>, decisionReasonCode: Option<string>,
    externalNotificationDispatched: bool, timeline: seq<EventView>, createdAt: int, policyVersion: string)

  datatype AuditAction =
    | IncidentRecordedAction
    | BreachRecordedAction
    | DecisionRecordedAction
    | TimelineViewedAction
    | AuthorizationAction

  datatype AuditResult = Success | Denied

  /** The `new_values` of each kind of audit event, one constructor per action. */
  datatype AuditValues =
    | IncidentValues(policyVersion: string, source: IncidentSource, severity: IncidentSeverity,
                     eventCode: string, scopeType: IncidentScopeType)
    | BreachValues(policyVersion: string, origin: BreachOrigin, dataCategoryCount: nat,
                   status: BreachAssessmentStatus, evaluationDeadlineAt: int,
                   processorEvidencePresent: bool, containmentActionCode: string)
    | DecisionValues(policyVersion: string, decision: NotificationDecision, reasonCode: string, onTime: bool)
    | ViewValues(policyVersion: string, queryReasonCode: string, status: BreachAssessmentStatus,
                 deadlineStatus: DeadlineStatus, timelineEventCount: nat, dataCategoryCount: nat,
                 processorEvidencePresent: bool)
    | DenialValues(policyVersion: string, reasonCode: string)

  datatype AuditEvent = AuditEvent(
    eventId: string, actorId: string, actorType: Option<ActorType>, correlationId: string,
    action: AuditAction, objectId: Option<string>, result: AuditResult, reasonCode: string,
    newValues: AuditValues, occurredAt: int, sessionId: Option<string>)

  datatype Error =
    | Validation(message: string)
    | Authorization(reasonCode: string, correlationId: string)
    | NotFound
    | Conflict
    | Technical(correlationId: string)
    | PublishRaised  // publish_pending raised after the commit, outside any handler

  datatype Outcome<+T> = Done(value: T) | Failed(error: Error)

  /** The result of a repository read; `Broken` is a database or decoding error. */
  datatype Lookup<+T> = Found(row: T) | Missing | Broken

  // ----- codes -----

  predicate CodeCharacter(c: char) {
    'A' <= c <= 'Z' || '0' <= c <= '9' || c == '_' || c == '.' || c == '-'
  }

  predicate ValidCode(value: string) {
    1 <= |value| <= 120 && forall c :: c in value ==> CodeCharacter(c)
  }
}
