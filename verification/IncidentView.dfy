/** The read side: the validator that re-checks everything the writers built,
    the deadline status and the sorted, data-minimum view. */
module IncidentView {
  import opened IncidentModels
  import opened CategoryCodec
  import opened IncidentStore
  import opened IncidentChecks
  import opened IncidentHistory
  import Sorting

  predicate HasType(timeline: seq<TimelineEntry>, t: TimelineEventType) {
    exists e :: e in timeline && e.eventType == t
  }

  predicate DistinctTypes(timeline: seq<TimelineEntry>) {
    forall j, k :: 0 <= j < k < |timeline| ==> timeline[j].eventType != timeline[k].eventType
  }

  predicate EntryIsValid(e: TimelineEntry, incidentId: string, breachId: string, now: int) {
    && e.incidentId == incidentId
    && e.breachId == (if e.eventType == SecurityIncidentRecorded then None else Some(breachId))
    && e.eventAt <= now
    && ValidCode(e.reasonCode)
  }

  predicate TimelineIsValid(timeline: seq<TimelineEntry>, incident: SecurityIncident, breach: BreachSuspicion,
                            decision: Option<BreachDecision>, now: int) {
    && 3 <= |timeline| <= 5
    && HasType(timeline, SecurityIncidentRecorded)
    && HasType(timeline, BreachSuspicionRecorded)
    && HasType(timeline, ContainmentRecorded)
    && DistinctTypes(timeline)
    && HasType(timeline, NotificationDecisionRecorded) == decision.Some?
    && HasType(timeline, ProcessorNoticeEvidenceRecorded) == breach.processorNotificationEvidenceId.Some?
    && forall e :: e in timeline ==> EntryIsValid(e, incident.incidentId, breach.breachId, now)
  }

  function DeadlineStatusOf(deadline: int, decision: Option<BreachDecision>, now: int): DeadlineStatus {
    match decision
    case None => if now > deadline then PendingOverdue else StillPending
    case Some(d) => if d.decidedAt > deadline then DecidedOverdue else DecidedOnTime
  }

  // ----- the validator accepts what the writers build -----

  lemma HasTypeIgnoresIds(es: seq<TimelineEntry>, t: TimelineEventType)
    ensures HasType(es, t) == HasType(Blanks(es), t)
  {
    if HasType(es, t) {
      var k :| 0 <= k < |es| && es[k].eventType == t;
      assert Blanks(es)[k] in Blanks(es);
    }
    if HasType(Blanks(es), t) {
      var k :| 0 <= k < |es| && Blanks(es)[k].eventType == t;
      assert es[k] in es;
    }
  }

  lemma ValidityIgnoresIds(es: seq<TimelineEntry>, i: SecurityIncident, b: BreachSuspicion, d: Option<BreachDecision>, now: int)
    ensures TimelineIsValid(es, i, b, d, now) == TimelineIsValid(Blanks(es), i, b, d, now)
  {
    var blanks := Blanks(es);
    forall t ensures HasType(es, t) == HasType(blanks, t) { HasTypeIgnoresIds(es, t); }
    forall k | 0 <= k < |es|
      ensures EntryIsValid(es[k], i.incidentId, b.breachId, now) == EntryIsValid(blanks[k], i.incidentId, b.breachId, now)
    {
    }
    assert forall k :: 0 <= k < |es| ==> es[k].eventType == blanks[k].eventType;
  }

  /** Everything the validator asks of the entries of a breach, given one by one. */
  lemma ListedIsValidExactly(es: seq<TimelineEntry>, i: SecurityIncident, row: BreachRow, b: BreachSuspicion,
                             d: Option<BreachDecision>, now: int)
    requires BreachFits(row, i) && PresentableRow(IncidentRow(i)) && PresentableRow(BreachInsert(row))
    requires b.breachId == row.breachId && b.processorNotificationEvidenceId == row.processorNotificationEvidenceId
    requires d.Some? ==> d.value.breachId == row.breachId && PresentableRow(DecisionRow(d.value))
    requires |es| == 3 + (if b.processorNotificationEvidenceId.Some? then 1 else 0) + (if d.Some? then 1 else 0)
    requires es[0] == IncidentEntry("", i) && es[1] == SuspicionEntry("", row) && es[2] == ContainmentEntry("", row)
    requires b.processorNotificationEvidenceId.Some? ==> es[3] == ProcessorEntry("", row)
    requires d.Some? ==> es[|es| - 1] == DecisionEntry("", row.incidentId, d.value)
    ensures TimelineIsValid(es, i, b, d, now) <==> row.recordedAt <= now && (d.Some? ==> d.value.decidedAt <= now)
  {
    ProcessorNoticeCodeIsValid();
    assert es[0] in es && es[1] in es && es[2] in es && es[|es| - 1] in es;
    if b.processorNotificationEvidenceId.Some? {
      assert es[3] in es;
    }
  }

  /** The validity of the timeline a breach and its decision call for. */
  lemma ExpectedIsValidExactly(i: SecurityIncident, row: BreachRow, b: BreachSuspicion, d: Option<BreachDecision>, now: int)
    requires BreachFits(row, i) && PresentableRow(IncidentRow(i)) && PresentableRow(BreachInsert(row))
    requires b.breachId == row.breachId && b.processorNotificationEvidenceId == row.processorNotificationEvidenceId
    requires d.Some? ==> d.value.breachId == row.breachId && PresentableRow(DecisionRow(d.value))
    ensures TimelineIsValid(
              [IncidentEntry("", i)] + (BreachEntries("", "", "", row)
                + if d.Some? then [DecisionEntry("", row.incidentId, d.value)] else []), i, b, d, now)
            <==> row.recordedAt <= now && (d.Some? ==> d.value.decidedAt <= now)
  {
    ListedIsValidExactly([IncidentEntry("", i)] + (BreachEntries("", "", "", row)
                           + if d.Some? then [DecisionEntry("", row.incidentId, d.value)] else []), i, row, b, d, now);
  }

  /** Where an incident's timeline is the one its tables call for, the validator
      rejects it only for a clock read before its latest recorded event. */
  lemma StoredTimelineIsValidExactly(s: Store, row: BreachRow, i: SecurityIncident, b: BreachSuspicion, now: int)
    requires SoundAndPresentable(s) && OnSchedule(s, i)
    requires row in s.breaches && FindIncident(s.incidents, row.incidentId) == Some(i)
    requires Denotes(row, b)
    ensures var d := FindDecision(s.decisions, row.breachId);
            TimelineIsValid(EntriesOf(s.timeline, i.incidentId), i, b, d, now)
            <==> row.recordedAt <= now && (d.Some? ==> d.value.decidedAt <= now)
  {
    var d := FindDecision(s.decisions, row.breachId);
    var es := EntriesOf(s.timeline, i.incidentId);
    TheBreachOfItsIncident(s, row);
    ValidityIgnoresIds(es, i, b, d, now);
    ExpectedIsValidExactly(i, row, b, d, now);
  }

  lemma TheBreachOfItsIncident(s: Store, row: BreachRow)
    requires UniqueRows(s) && row in s.breaches
    ensures BreachOfIncident(s.breaches, row.incidentId) == Some(row)
    ensures FindBreach(s.breaches, row.breachId) == Some(row)
  {
  }

  // ----- the sorted view -----

  /** The event types by the alphabetical order of their stored names. */
  function Rank(t: TimelineEventType): nat {
    match t
    case BreachSuspicionRecorded => 0
    case ContainmentRecorded => 1
    case NotificationDecisionRecorded => 2
    case ProcessorNoticeEvidenceRecorded => 3
    case SecurityIncidentRecorded => 4
  }

  predicate Before(x: TimelineEntry, y: TimelineEntry) {
    x.eventAt < y.eventAt || (x.eventAt == y.eventAt && Rank(x.eventType) <= Rank(y.eventType))
  }

  function SortEntries(timeline: seq<TimelineEntry>): seq<TimelineEntry> {
    Sorting.Sort(Before, timeline)
  }

  function ViewOf(e: TimelineEntry): EventView {
    EventView(e.eventType, e.eventAt, e.reasonCode)
  }

  function ViewsOf(es: seq<TimelineEntry>): seq<EventView> {
    seq(|es|, k requires 0 <= k < |es| => ViewOf(es[k]))
  }

  lemma SortEntriesSorts(timeline: seq<TimelineEntry>)
    ensures Sorting.Ordered(Before, SortEntries(timeline))
    ensures multiset(SortEntries(timeline)) == multiset(timeline)
  {
    Sorting.SortOrders(Before, timeline);
    Sorting.SortPermutes(Before, timeline);
  }

  lemma {:induction false} SameTypeSameEntry(timeline: seq<TimelineEntry>, x: TimelineEntry, y: TimelineEntry)
    requires DistinctTypes(timeline) && x in timeline && y in timeline && x.eventType == y.eventType
    ensures x == y
  {
    var j :| 0 <= j < |timeline| && timeline[j] == x;
    var k :| 0 <= k < |timeline| && timeline[k] == y;
    assert j == k;
  }

  /** The view is the same sorted permutation whatever order the entries of a
      valid timeline come back in. */
  lemma ViewIgnoresStorageOrder(timeline: seq<TimelineEntry>, other: seq<TimelineEntry>)
    requires DistinctTypes(timeline) && multiset(timeline) == multiset(other)
    ensures SortEntries(other) == SortEntries(timeline)
    ensures Sorting.Ordered(Before, SortEntries(timeline)) && multiset(SortEntries(timeline)) == multiset(timeline)
  {
    SortEntriesSorts(timeline);
    SortEntriesSorts(other);
    var a, b := SortEntries(timeline), SortEntries(other);
    forall x, y | x in a && y in a && Before(x, y) && Before(y, x) ensures x == y {
      assert x in multiset(timeline) && y in multiset(timeline);
      SameTypeSameEntry(timeline, x, y);
    }
    Sorting.OrderedIsUnique(Before, a, b);
  }

  // ----- the view operation -----

  datatype ViewVerdict =
    | ViewRefuse(error: Error)
    | ViewDeny(context: Option<ActorContext>, reason: string, at: int)
    | Show(view: TimelineView, event: AuditEvent)

  function BuildView(policy: AccessPolicy, b: BreachSuspicion, d: Option<BreachDecision>,
                     timeline: seq<TimelineEntry>, now: int): TimelineView {
    TimelineView(
      b.breachId, b.learnedAt, b.evaluationDeadlineAt, b.status,
      DeadlineStatusOf(b.evaluationDeadlineAt, d, now), b.origin, |b.dataCategories|,
      b.affectedScopeCode, b.containmentActionCode, b.processorNotificationEvidenceId.Some?,
      if d.Some? then Some(d.value.decision) else None,
      if d.Some? then Some(d.value.decidedAt) else None,
      if d.Some? then Some(d.value.reasonCode) else None,
      false, ViewsOf(SortEntries(timeline)), now, policy.version)
  }

  function ViewAudit(policy: AccessPolicy, c: ActorContext, query: TimelineQuery, view: TimelineView, eventId: string): AuditEvent {
    SuccessAudit(c, eventId, TimelineViewedAction, view.breachId, "QUERY_COMPLETED",
                 ViewValues(policy.version, query.reasonCode, view.status, view.deadlineStatus, |view.timeline|,
                            view.dataCategoryCount, view.processorEvidencePresent), view.createdAt)
  }

  function ValidateQuery(query: TimelineQuery, isUuid: string -> bool): Finding {
    if !isUuid(query.breachId) then Invalid("Incident breach must be a UUID.")
    else if !ValidCode(query.reasonCode) then Invalid("Breach timeline query reason code is invalid.")
    else Valid
  }

  /** The join of a breach with its incident. */
  function ReadScope(s: Store, breachId: string): Lookup<SecurityIncident> {
    match FindBreach(s.breaches, breachId)
    case None => Missing
    case Some(row) =>
      match FindIncident(s.incidents, row.incidentId)
      case None => Missing
      case Some(i) => Found(i)
  }

  function ReadIncident(s: Store, id: string): Lookup<SecurityIncident> {
    match FindIncident(s.incidents, id)
    case None => Missing
    case Some(i) => Found(i)
  }

  function ReadBreach(s: Store, id: string): Lookup<BreachSuspicion> {
    match FindBreach(s.breaches, id)
    case None => Missing
    case Some(row) => DecodeBreach(row, FindDecision(s.decisions, id).Some?)
  }

  /** The incident of the breach that was read. */
  function ReadIncidentOf(s: Store, breach: Lookup<BreachSuspicion>): Lookup<SecurityIncident> {
    match breach
    case Found(b) => ReadIncident(s, b.incidentId)
    case Missing => Missing
    case Broken => Broken
  }

  function ReadDecisionOf(s: Store, breach: Lookup<BreachSuspicion>): Lookup<Option<BreachDecision>> {
    match breach
    case Found(b) => Found(FindDecision(s.decisions, b.breachId))
    case Missing => Missing
    case Broken => Broken
  }

  function ReadTimelineOf(s: Store, incident: Lookup<SecurityIncident>): Lookup<seq<TimelineEntry>> {
    match incident
    case Found(i) => Found(EntriesOf(s.timeline, i.incidentId))
    case Missing => Missing
    case Broken => Broken
  }

  /** The k-th read of a call, when the read at position `failing` is the one that fails. */
  function Attempt<T>(failing: Option<nat>, k: nat, lookup: Lookup<T>): Lookup<T> {
    if failing == Some(k) then Broken else lookup
  }

  /** What the five reads of a view lead to, in the order in which they are made. */
  function JudgeView(policy: AccessPolicy, query: TimelineQuery, c: ActorContext, now: int, eventId: string,
                     scope: Lookup<SecurityIncident>, breach: Lookup<BreachSuspicion>, incident: Lookup<SecurityIncident>,
                     decision: Lookup<Option<BreachDecision>>, timeline: Lookup<seq<TimelineEntry>>): (v: ViewVerdict)
    ensures v.Show? ==> v.event.action == TimelineViewedAction
    ensures v.ViewRefuse? ==> !v.error.Authorization?
  {
    if scope.Missing? then ViewRefuse(NotFound)
    else if scope.Broken? then ViewRefuse(Technical(c.correlationId))
    else if !ScopeAllowed(c, scope.row.scopeType, scope.row.scopeId) then ViewDeny(Some(c), "INCIDENT_SCOPE_DENIED", now)
    else if breach.Missing? then ViewRefuse(NotFound)
    else if breach.Broken? then ViewRefuse(Technical(c.correlationId))
    else if incident.Missing? then ViewRefuse(NotFound)
    else if incident.Broken? then ViewRefuse(Technical(c.correlationId))
    else if incident.row.incidentId != scope.row.incidentId then ViewRefuse(Technical(c.correlationId))
    else if !decision.Found? || !timeline.Found? then ViewRefuse(Technical(c.correlationId))
    else if !TimelineIsValid(timeline.row, incident.row, breach.row, decision.row, now) then
      ViewRefuse(Technical(c.correlationId))
    else
      var view := BuildView(policy, breach.row, decision.row, timeline.row, now);
      Show(view, ViewAudit(policy, c, query, view, eventId))
  }

  lemma DenialIsExact(context: Option<ActorContext>, roles: set<string>, policyVersion: string, now: int)
    ensures DenialReason(context, roles, policyVersion, now) == None <==>
      context.Some? && Authorized(context.value, roles, policyVersion, now)
  {
    if context.Some? {
      AuthorizationIsExact(context.value, roles, policyVersion, now);
    }
  }

  /** What a view decides before it reads anything. */
  function AdmitView(policy: AccessPolicy, isUuid: string -> bool, query: TimelineQuery,
                     context: Option<ActorContext>, clock: Timestamp): (early: Option<ViewVerdict>)
    ensures early.None? <==>
      && clock.Aware? && context.Some?
      && Authorized(context.value, policy.privacyRoles, policy.actorPolicyVersion, clock.instant)
      && isUuid(query.breachId) && ValidCode(query.reasonCode)
    ensures early.Some? ==> !early.value.Show? && (early.value.ViewRefuse? ==> early.value.error.Validation?)
  {
    match clock
    case Naive(_) => Some(ViewRefuse(NAIVE_CLOCK))
    case Aware(now) =>
      var denial := DenialReason(context, policy.privacyRoles, policy.actorPolicyVersion, now);
      DenialIsExact(context, policy.privacyRoles, policy.actorPolicyVersion, now);
      if denial.Some? then Some(ViewDeny(Trusted(context), denial.value, now))
      else
        match ValidateQuery(query, isUuid)
        case Invalid(message) => Some(ViewRefuse(Validation(message)))
        case OutOfScope(reason) => Some(ViewDeny(context, reason, now))
        case Valid => None
  }

  /** A view whose reads all see the tables `s`. */
  function ViewBreach(policy: AccessPolicy, isUuid: string -> bool, query: TimelineQuery,
                      context: Option<ActorContext>, clock: Timestamp, eventId: string, s: Store,
                      failing: Option<nat>): (v: ViewVerdict)
    ensures v.Show? ==> v.event.action == TimelineViewedAction
    ensures v.ViewRefuse? ==> !v.error.Authorization?
  {
    match AdmitView(policy, isUuid, query, context, clock)
    case Some(early) => early
    case None =>
      var breach := Attempt(failing, 1, ReadBreach(s, query.breachId));
      var incident := Attempt(failing, 2, ReadIncidentOf(s, breach));
      JudgeView(policy, query, context.value, clock.instant, eventId,
                Attempt(failing, 0, ReadScope(s, query.breachId)), breach, incident,
                Attempt(failing, 3, ReadDecisionOf(s, breach)), Attempt(failing, 4, ReadTimelineOf(s, incident)))
  }

  lemma StoredBreachIsReadable(s: Store, row: BreachRow)
    requires SoundAndPresentable(s) && row in s.breaches
    ensures var b := ReadBreach(s, row.breachId);
            && b.Found? && Denotes(row, b.row) && b.row.breachId == row.breachId && b.row.incidentId == row.incidentId
            && (b.row.status == NotificationDecided <==> FindDecision(s.decisions, row.breachId).Some?)
    ensures ReadScope(s, row.breachId) == ReadIncident(s, row.incidentId)
    ensures ReadIncident(s, row.incidentId).Found?
  {
    TheBreachOfItsIncident(s, row);
    assert PresentableRow(BreachInsert(row));
  }

  lemma AuthorizedIsAdmitted(policy: AccessPolicy, isUuid: string -> bool, query: TimelineQuery, c: ActorContext, now: int)
    requires Authorized(c, policy.privacyRoles, policy.actorPolicyVersion, now)
    requires isUuid(query.breachId) && ValidCode(query.reasonCode)
    ensures AdmitView(policy, isUuid, query, Some(c), Aware(now)) == None
  {
    AuthorizationIsExact(c, policy.privacyRoles, policy.actorPolicyVersion, now);
  }

  /** A query for a stored breach in the caller's scope is answered exactly when the
      validator accepts the stored timeline; otherwise it fails as a technical error. */
  lemma ViewFollowsValidator(policy: AccessPolicy, isUuid: string -> bool, query: TimelineQuery, c: ActorContext,
                             now: int, eventId: string, s: Store, row: BreachRow, i: SecurityIncident)
    requires SoundAndPresentable(s) && row in s.breaches && row.breachId == query.breachId
    requires AdmitView(policy, isUuid, query, Some(c), Aware(now)) == None
    requires FindIncident(s.incidents, row.incidentId) == Some(i) && ScopeAllowed(c, i.scopeType, i.scopeId)
    ensures var verdict := ViewBreach(policy, isUuid, query, Some(c), Aware(now), eventId, s, None);
            var b := ReadBreach(s, row.breachId);
            && b.Found? && Denotes(row, b.row)
            && (verdict.Show? <==>
                  TimelineIsValid(EntriesOf(s.timeline, i.incidentId), i, b.row, FindDecision(s.decisions, row.breachId), now))
            && (!verdict.Show? ==> verdict == ViewRefuse(Technical(c.correlationId)))
  {
    StoredBreachIsReadable(s, row);
    ViewIsJudged(policy, isUuid, query, c, now, eventId, s, row, i);
    var d, es := FindDecision(s.decisions, row.breachId), EntriesOf(s.timeline, i.incidentId);
    JudgedByValidator(policy, query, c, now, eventId, i, ReadBreach(s, row.breachId).row, d, es);
  }

  lemma ViewIsJudged(policy: AccessPolicy, isUuid: string -> bool, query: TimelineQuery, c: ActorContext,
                     now: int, eventId: string, s: Store, row: BreachRow, i: SecurityIncident)
    requires SoundAndPresentable(s) && row in s.breaches && row.breachId == query.breachId
    requires AdmitView(policy, isUuid, query, Some(c), Aware(now)) == None
    requires FindIncident(s.incidents, row.incidentId) == Some(i)
    ensures ReadBreach(s, row.breachId).Found?
    ensures ViewBreach(policy, isUuid, query, Some(c), Aware(now), eventId, s, None)
      == JudgeView(policy, query, c, now, eventId, Found(i), Found(ReadBreach(s, row.breachId).row), Found(i),
                   Found(FindDecision(s.decisions, row.breachId)), Found(EntriesOf(s.timeline, i.incidentId)))
  {
    StoredReads(s, row, i);
  }

  lemma StoredReads(s: Store, row: BreachRow, i: SecurityIncident)
    requires SoundAndPresentable(s) && row in s.breaches && FindIncident(s.incidents, row.incidentId) == Some(i)
    ensures var breach := ReadBreach(s, row.breachId);
            && ReadScope(s, row.breachId) == Found(i)
            && breach.Found? && ReadIncidentOf(s, breach) == Found(i)
            && ReadDecisionOf(s, breach) == Found(FindDecision(s.decisions, row.breachId))
            && ReadTimelineOf(s, Found(i)) == Found(EntriesOf(s.timeline, i.incidentId))
  {
    StoredBreachIsReadable(s, row);
  }

  lemma JudgedByValidator(policy: AccessPolicy, query: TimelineQuery, c: ActorContext, now: int, eventId: string,
                          i: SecurityIncident, b: BreachSuspicion, d: Option<BreachDecision>, es: seq<TimelineEntry>)
    requires ScopeAllowed(c, i.scopeType, i.scopeId)
    ensures var verdict := JudgeView(policy, query, c, now, eventId, Found(i), Found(b), Found(i), Found(d), Found(es));
            && (verdict.Show? <==> TimelineIsValid(es, i, b, d, now))
            && (!verdict.Show? ==> verdict == ViewRefuse(Technical(c.correlationId)))
  {
  }

  /** An authorized, well-formed query for a stored breach in the caller's scope,
      whose timeline is the one its tables call for, is answered exactly when the
      caller's clock is not behind the latest recorded event; otherwise it fails as a
      technical error, and never in another way. */
  lemma ViewIsShownExactly(policy: AccessPolicy, isUuid: string -> bool, query: TimelineQuery, c: ActorContext,
                           now: int, eventId: string, s: Store, row: BreachRow)
    requires SoundAndPresentable(s)
    requires row in s.breaches && row.breachId == query.breachId
    requires var i := FindIncident(s.incidents, row.incidentId);
             i.Some? ==> OnSchedule(s, i.value) && ScopeAllowed(c, i.value.scopeType, i.value.scopeId)
    requires Authorized(c, policy.privacyRoles, policy.actorPolicyVersion, now)
    requires isUuid(query.breachId) && ValidCode(query.reasonCode)
    ensures var d := FindDecision(s.decisions, row.breachId);
            var verdict := ViewBreach(policy, isUuid, query, Some(c), Aware(now), eventId, s, None);
            && (verdict.Show? <==> row.recordedAt <= now && (d.Some? ==> d.value.decidedAt <= now))
            && (!verdict.Show? ==> verdict == ViewRefuse(Technical(c.correlationId)))
  {
    AuthorizedIsAdmitted(policy, isUuid, query, c, now);
    StoredBreachIsReadable(s, row);
    var i := FindIncident(s.incidents, row.incidentId).value;
    ViewFollowsValidator(policy, isUuid, query, c, now, eventId, s, row, i);
    StoredTimelineIsValidExactly(s, row, i, ReadBreach(s, row.breachId).row, now);
  }

  /** A shown view is built from what one reading of the tables found. */
  lemma ShownIsBuilt(policy: AccessPolicy, isUuid: string -> bool, query: TimelineQuery,
                     context: Option<ActorContext>, clock: Timestamp, eventId: string, s: Store, failing: Option<nat>)
    requires ViewBreach(policy, isUuid, query, context, clock, eventId, s, failing).Show?
    ensures var b := ReadBreach(s, query.breachId);
            && clock.Aware? && b.Found?
            && 3 <= |EntriesOf(s.timeline, b.row.incidentId)| <= 5
            && ViewBreach(policy, isUuid, query, context, clock, eventId, s, failing).view
                 == BuildView(policy, b.row, FindDecision(s.decisions, b.row.breachId),
                              EntriesOf(s.timeline, b.row.incidentId), clock.instant)
  {
  }

  /** The views of the stored entries, each once, in order of time and event name. */
  ghost predicate IsSortedView(views: seq<EventView>, stored: seq<TimelineEntry>) {
    exists es :: multiset(es) == multiset(stored) && Sorting.Ordered(Before, es) && views == ViewsOf(es)
  }

  /** What a shown view tells about the stored rows. */
  lemma ShownViewIsFaithful(policy: AccessPolicy, isUuid: string -> bool, query: TimelineQuery,
                            context: Option<ActorContext>, clock: Timestamp, eventId: string, s: Store, row: BreachRow)
    requires SoundAndPresentable(s) && row in s.breaches && row.breachId == query.breachId
    requires ViewBreach(policy, isUuid, query, context, clock, eventId, s, None).Show?
    ensures var view := ViewBreach(policy, isUuid, query, context, clock, eventId, s, None).view;
            var d := FindDecision(s.decisions, row.breachId);
            var stored := EntriesOf(s.timeline, row.incidentId);
            && view.breachId == row.breachId && view.learnedAt == row.learnedAt
            && view.evaluationDeadlineAt == row.learnedAt + ASSESSMENT_WINDOW
            && (view.status == NotificationDecided <==> d.Some?)
            && (view.decision.Some? <==> d.Some?)
            && (view.deadlineStatus == DecidedOnTime || view.deadlineStatus == DecidedOverdue <==> d.Some?)
            && IsSortedView(view.timeline, stored)
            && 3 <= |stored| <= 5
  {
    ShownIsBuilt(policy, isUuid, query, context, clock, eventId, s, None);
    StoredBreachIsReadable(s, row);
    var es := SortEntries(EntriesOf(s.timeline, row.incidentId));
    SortEntriesSorts(EntriesOf(s.timeline, row.incidentId));
    assert IsSortedView(ViewsOf(es), EntriesOf(s.timeline, row.incidentId));
  }

  /** The rest of what a shown view tells: the breach's own columns, the decision
      if there is one, and the deadline as of the moment of the view. */
  lemma ShownViewTellsTheRow(policy: AccessPolicy, isUuid: string -> bool, query: TimelineQuery,
                             context: Option<ActorContext>, clock: Timestamp, eventId: string, s: Store, row: BreachRow)
    requires UniqueRows(s) && row in s.breaches && row.breachId == query.breachId
    requires ViewBreach(policy, isUuid, query, context, clock, eventId, s, None).Show?
    ensures var view := ViewBreach(policy, isUuid, query, context, clock, eventId, s, None).view;
            ViewTellsRow(view, row) && ViewTellsDecision(view, row, FindDecision(s.decisions, row.breachId))
            && Aware(view.createdAt) == clock
  {
    ShownIsBuilt(policy, isUuid, query, context, clock, eventId, s, None);
    TheBreachOfItsIncident(s, row);
  }

  ghost predicate ViewTellsRow(view: TimelineView, row: BreachRow) {
    && view.evaluationDeadlineAt == row.evaluationDeadlineAt
    && view.origin == row.origin
    && (var categories := DecodeCategories(row.dataCategories);
        categories.Some? && view.dataCategoryCount == |categories.value|)
    && view.affectedScopeCode == row.affectedScopeCode
    && view.containmentActionCode == row.containmentActionCode
    && (view.processorEvidencePresent <==> row.processorNotificationEvidenceId.Some?)
  }

  ghost predicate ViewTellsDecision(view: TimelineView, row: BreachRow, d: Option<BreachDecision>) {
    && !view.externalNotificationDispatched
    && match d
       case None =>
         && view.decision == None && view.decidedAt == None && view.decisionReasonCode == None
         && (view.deadlineStatus == PendingOverdue <==> row.evaluationDeadlineAt < view.createdAt)
         && (view.deadlineStatus == StillPending <==> view.createdAt <= row.evaluationDeadlineAt)
       case Some(decision) =>
         && view.decision == Some(decision.decision) && view.decidedAt == Some(decision.decidedAt)
         && view.decisionReasonCode == Some(decision.reasonCode)
         && (view.deadlineStatus == DecidedOverdue <==> row.evaluationDeadlineAt < decision.decidedAt)
         && (view.deadlineStatus == DecidedOnTime <==> decision.decidedAt <= row.evaluationDeadlineAt)
  }
}
