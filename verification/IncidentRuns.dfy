/** What holds over every run of the protocol, however callers and publishers
    interleave. */
module IncidentRuns {
  import opened IncidentModels
  import opened IncidentStore
  import opened IncidentChecks
  import opened IncidentView
  import opened IncidentProtocol

  // ----- where an operation comes from -----

  predicate IsCheck(a: Action) {
    a.CheckIncidentDraft? || a.CheckBreachDraft? || a.CheckDecisionDraft?
  }

  /** What the check phase of a call comes to. */
  function VerdictOf(env: Env, a: Action): Verdict
    requires IsCheck(a)
  {
    match a
    case CheckIncidentDraft(draft, context, at, ids) => CheckIncident(env.policy, env.isUuid, draft, context, Aware(at), ids)
    case CheckBreachDraft(draft, context, at, ids, read) =>
      CheckBreach(env.policy, env.isUuid, draft, context, Aware(at), ids, Found(read))
    case CheckDecisionDraft(draft, context, at, ids, row, decided, read) =>
      CheckDecision(env.policy, env.isUuid, draft, context, Aware(at), ids, DecodeBreach(row, decided), Found(read))
  }

  /** The call at position `k` of the run built the operation, under its own context. */
  ghost predicate BuiltBy(env: Env, acts: seq<Action>, k: int, op: Op) {
    && 0 <= k < |acts| && IsCheck(acts[k])
    && VerdictOf(env, acts[k]) == Proceed(op)
    && !op.NoteOp? && acts[k].context == Some(op.context) && acts[k].at == op.at && acts[k].ids.recordId == RecordId(op)
  }

  lemma IncidentVerdict(env: Env, a: Action, op: Op)
    requires a.CheckIncidentDraft? && VerdictOf(env, a) == Proceed(op)
    ensures op.IncidentOp? && a.context == Some(op.context) && a.at == op.at && a.ids.recordId == RecordId(op)
  {
  }

  lemma BreachVerdict(env: Env, a: Action, op: Op)
    requires a.CheckBreachDraft? && VerdictOf(env, a) == Proceed(op)
    ensures op.BreachOp? && a.context == Some(op.context) && a.at == op.at && a.ids.recordId == RecordId(op)
  {
  }

  lemma DecisionVerdict(env: Env, a: Action, op: Op)
    requires a.CheckDecisionDraft? && VerdictOf(env, a) == Proceed(op)
    ensures op.DecisionOp? && a.context == Some(op.context) && a.at == op.at && a.ids.recordId == RecordId(op)
  {
  }

  lemma VerdictNamesItsCall(env: Env, acts: seq<Action>, k: int, op: Op)
    requires 0 <= k < |acts| && IsCheck(acts[k]) && VerdictOf(env, acts[k]) == Proceed(op)
    ensures BuiltBy(env, acts, k, op)
  {
    match acts[k] {
      case CheckIncidentDraft(_, _, _, _) => IncidentVerdict(env, acts[k], op);
      case CheckBreachDraft(_, _, _, _, _) => BreachVerdict(env, acts[k], op);
      case CheckDecisionDraft(_, _, _, _, _, _, _) => DecisionVerdict(env, acts[k], op);
    }
  }

  lemma NextIssues(env: Env, m: Machine, a: Action, id: string)
    requires Next(env, m, a).Some? && id in Next(env, m, a).value.issued
    ensures (id in m.issued && Next(env, m, a).value.issued[id] == m.issued[id])
            || (IsCheck(a) && VerdictOf(env, a) == Proceed(Next(env, m, a).value.issued[id]))
  {
  }

  /** Every operation whose identifier was drawn was built by a call of the run. */
  lemma {:induction false} IssuedByACall(env: Env, start: int, acts: seq<Action>, id: string)
    requires Execute(env, start, acts).Some? && id in Execute(env, start, acts).value.issued
    ensures exists k :: BuiltBy(env, acts, k, Execute(env, start, acts).value.issued[id])
  {
    if acts != [] {
      var front := acts[..|acts| - 1];
      var m, op := Execute(env, start, front).value, Execute(env, start, acts).value.issued[id];
      NextIssues(env, m, acts[|acts| - 1], id);
      if id in m.issued && m.issued[id] == op {
        IssuedByACall(env, start, front, id);
        var k :| BuiltBy(env, front, k, op);
        assert BuiltBy(env, acts, k, op);
      } else {
        VerdictNamesItsCall(env, acts, |acts| - 1, op);
      }
    }
  }

  /** Whatever the connection shows has been seen. */
  ghost predicate VisibleIsSeen(m: Machine) {
    && (forall i :: i in m.conn.incidents ==> i in m.seenIncidents)
    && (forall b :: b in m.conn.breaches ==> b in m.seenBreaches)
  }

  lemma NextKeepsVisibleSeen(env: Env, m: Machine, a: Action)
    requires VisibleIsSeen(m) && Extends(m.committed, m.conn) && Next(env, m, a).Some?
    ensures VisibleIsSeen(Next(env, m, a).value)
  {
  }

  lemma {:induction false} EveryVisibleRowIsSeen(env: Env, start: int, acts: seq<Action>)
    requires Execute(env, start, acts).Some?
    ensures VisibleIsSeen(Execute(env, start, acts).value)
  {
    if acts != [] {
      var front := acts[..|acts| - 1];
      EveryVisibleRowIsSeen(env, start, front);
      EveryRunIsSafe(env, start, front);
      NextKeepsVisibleSeen(env, Execute(env, start, front).value, acts[|acts| - 1]);
    }
  }

  // ----- authorization of every stored row -----

  /** The call that built the operation was authorized for the incident. */
  ghost predicate Entitled(env: Env, op: Op, roles: set<string>, i: SecurityIncident) {
    && !op.NoteOp?
    && Authorized(op.context, roles, env.policy.actorPolicyVersion, op.at)
    && ScopeAllowed(op.context, i.scopeType, i.scopeId)
  }

  ghost predicate IncidentWritten(env: Env, acts: seq<Action>, k: int, op: Op, i: SecurityIncident) {
    && BuiltBy(env, acts, k, op) && op.IncidentOp? && op.incident == i
    && Entitled(env, op, env.policy.incidentRoles, i)
    && i.recordedBy == op.context.actorId && i.recordedAt == op.at
  }

  ghost predicate BreachWritten(env: Env, acts: seq<Action>, k: int, op: Op, b: BreachRow, i: SecurityIncident) {
    && BuiltBy(env, acts, k, op) && op.BreachOp? && op.row == b
    && Entitled(env, op, env.policy.privacyRoles, i)
    && b.recordedBy == op.context.actorId && b.recordedAt == op.at
  }

  ghost predicate DecisionWritten(env: Env, acts: seq<Action>, k: int, op: Op, d: BreachDecision, i: SecurityIncident) {
    && BuiltBy(env, acts, k, op) && op.DecisionOp? && op.decision == d
    && Entitled(env, op, env.policy.privacyRoles, i)
    && d.decidedBy == op.context.actorId && d.recordedAt == op.at
  }

  lemma IncidentWasAuthorized(env: Env, start: int, acts: seq<Action>, i: SecurityIncident)
    requires Execute(env, start, acts).Some? && i in Execute(env, start, acts).value.conn.incidents
    ensures exists k, op :: IncidentWritten(env, acts, k, op, i)
    ensures i.recordedAt <= Execute(env, start, acts).value.now
  {
    EveryRunIsSafe(env, start, acts);
    var m := Execute(env, start, acts).value;
    assert IncidentIssued(m.issued, i);
    var op := m.issued[i.incidentId];
    IssuedByACall(env, start, acts, i.incidentId);
    var k :| BuiltBy(env, acts, k, op);
    assert IncidentWritten(env, acts, k, op, i);
  }

  lemma BreachWasAuthorized(env: Env, start: int, acts: seq<Action>, b: BreachRow, i: SecurityIncident)
    requires Execute(env, start, acts).Some? && b in Execute(env, start, acts).value.conn.breaches
    requires i in Execute(env, start, acts).value.conn.incidents && i.incidentId == b.incidentId
    ensures exists k, op :: BreachWritten(env, acts, k, op, b, i)
    ensures b.recordedAt <= Execute(env, start, acts).value.now
  {
    EveryRunIsSafe(env, start, acts);
    var m := Execute(env, start, acts).value;
    assert BreachIssued(m.issued, b) && IncidentIssued(m.issued, i);
    var op := m.issued[b.breachId];
    assert i == op.read;
    IssuedByACall(env, start, acts, b.breachId);
    var k :| BuiltBy(env, acts, k, op);
    assert BreachWritten(env, acts, k, op, b, i);
  }

  lemma DecisionWasAuthorized(env: Env, start: int, acts: seq<Action>, d: BreachDecision, b: BreachRow, i: SecurityIncident)
    requires Execute(env, start, acts).Some? && d in Execute(env, start, acts).value.conn.decisions
    requires b in Execute(env, start, acts).value.conn.breaches && b.breachId == d.breachId
    requires i in Execute(env, start, acts).value.conn.incidents && i.incidentId == b.incidentId
    ensures exists k, op :: DecisionWritten(env, acts, k, op, d, i)
    ensures d.recordedAt <= Execute(env, start, acts).value.now
  {
    EveryRunIsSafe(env, start, acts);
    var m := Execute(env, start, acts).value;
    assert DecisionIssued(m.issued, d) && BreachIssued(m.issued, b) && IncidentIssued(m.issued, i);
    var op := m.issued[d.decisionId];
    assert i == op.read;
    IssuedByACall(env, start, acts, d.decisionId);
    var k :| BuiltBy(env, acts, k, op);
    assert DecisionWritten(env, acts, k, op, d, i);
  }

  /** In every reachable state every row was built by a call of the run whose own
      context was unexpired, unprivileged, a USER of the right policy version with a
      required role, and whose scope covers the incident the row belongs to.  The row
      names that call's actor and time. */
  lemma EveryRowWasAuthorized(env: Env, start: int, acts: seq<Action>)
    requires Execute(env, start, acts).Some?
    ensures var s := Execute(env, start, acts).value.conn;
      && (forall i :: i in s.incidents ==> exists k, op :: IncidentWritten(env, acts, k, op, i))
      && (forall b, i :: b in s.breaches && i in s.incidents && i.incidentId == b.incidentId ==>
            exists k, op :: BreachWritten(env, acts, k, op, b, i))
      && (forall d, b, i :: d in s.decisions && b in s.breaches && i in s.incidents
                            && b.breachId == d.breachId && i.incidentId == b.incidentId ==>
            exists k, op :: DecisionWritten(env, acts, k, op, d, i))
  {
    var s := Execute(env, start, acts).value.conn;
    forall i | i in s.incidents ensures exists k, op :: IncidentWritten(env, acts, k, op, i) {
      IncidentWasAuthorized(env, start, acts, i);
    }
    forall b, i | b in s.breaches && i in s.incidents && i.incidentId == b.incidentId
      ensures exists k, op :: BreachWritten(env, acts, k, op, b, i)
    {
      BreachWasAuthorized(env, start, acts, b, i);
    }
    forall d, b, i | d in s.decisions && b in s.breaches && i in s.incidents
                     && b.breachId == d.breachId && i.incidentId == b.incidentId
      ensures exists k, op :: DecisionWritten(env, acts, k, op, d, i)
    {
      DecisionWasAuthorized(env, start, acts, d, b, i);
    }
  }

  // ----- what the staged audits say -----

  /** The event an operation stages carries the actor, the object and the values of
      the row the operation stores. */
  ghost predicate AuditTells(policy: AccessPolicy, op: Op) {
    match op
    case IncidentOp(c, at, i, _, a) =>
      && a.correlationId == c.correlationId && a.sessionId == Some(c.sessionId) && a.reasonCode == i.eventCode
      && a.newValues == IncidentValues(policy.version, i.source, i.severity, i.eventCode, i.scopeType)
    case BreachOp(c, at, _, b, row, _, a) =>
      && a.correlationId == c.correlationId && a.sessionId == Some(c.sessionId)
      && a.newValues == BreachValues(policy.version, row.origin, |b.dataCategories|, row.status, row.evaluationDeadlineAt,
                                     row.processorNotificationEvidenceId.Some?, row.containmentActionCode)
    case DecisionOp(c, at, _, b, d, _, a) =>
      && a.correlationId == c.correlationId && a.sessionId == Some(c.sessionId) && a.reasonCode == d.reasonCode
      && a.newValues == DecisionValues(policy.version, d.decision, d.reasonCode, d.decidedAt <= b.evaluationDeadlineAt)
    case NoteOp(_) => true
  }

  ghost predicate AuditsTell(policy: AccessPolicy, issued: map<string, Op>) {
    forall id :: id in issued ==> AuditTells(policy, issued[id])
  }

  lemma IncidentCheckTells(policy: AccessPolicy, isUuid: string -> bool, draft: SecurityIncidentDraft,
                           context: Option<ActorContext>, clock: Timestamp, ids: Ids)
    ensures var v := CheckIncident(policy, isUuid, draft, context, clock, ids); v.Proceed? ==> AuditTells(policy, v.op)
  {
  }

  lemma BreachCheckTells(policy: AccessPolicy, isUuid: string -> bool, draft: BreachSuspicionDraft,
                         context: Option<ActorContext>, clock: Timestamp, ids: Ids, read: Lookup<SecurityIncident>)
    ensures var v := CheckBreach(policy, isUuid, draft, context, clock, ids, read); v.Proceed? ==> AuditTells(policy, v.op)
  {
  }

  lemma DecisionCheckTells(policy: AccessPolicy, isUuid: string -> bool, draft: BreachDecisionDraft,
                           context: Option<ActorContext>, clock: Timestamp, ids: Ids,
                           readBreach: Lookup<BreachSuspicion>, read: Lookup<SecurityIncident>)
    ensures var v := CheckDecision(policy, isUuid, draft, context, clock, ids, readBreach, read);
            v.Proceed? ==> AuditTells(policy, v.op)
  {
  }

  lemma EnterKeepsAuditsTelling(policy: AccessPolicy, m: Machine, at: int, ids: Ids, verdict: Verdict)
    requires AuditsTell(policy, m.issued) && (verdict.Proceed? ==> AuditTells(policy, verdict.op))
    requires Enter(m, at, ids, verdict).Some?
    ensures AuditsTell(policy, Enter(m, at, ids, verdict).value.issued)
  {
  }

  lemma NextKeepsAuditsTelling(env: Env, m: Machine, a: Action)
    requires AuditsTell(env.policy, m.issued) && Next(env, m, a).Some?
    ensures AuditsTell(env.policy, Next(env, m, a).value.issued)
  {
    match a {
      case CheckIncidentDraft(draft, context, at, ids) =>
        IncidentCheckTells(env.policy, env.isUuid, draft, context, Aware(at), ids);
        EnterKeepsAuditsTelling(env.policy, m, at, ids, CheckIncident(env.policy, env.isUuid, draft, context, Aware(at), ids));
      case CheckBreachDraft(draft, context, at, ids, read) =>
        BreachCheckTells(env.policy, env.isUuid, draft, context, Aware(at), ids, Found(read));
        EnterKeepsAuditsTelling(env.policy, m, at, ids,
                                CheckBreach(env.policy, env.isUuid, draft, context, Aware(at), ids, Found(read)));
      case CheckDecisionDraft(draft, context, at, ids, row, decided, read) =>
        var readBreach := DecodeBreach(row, decided);
        DecisionCheckTells(env.policy, env.isUuid, draft, context, Aware(at), ids, readBreach, Found(read));
        EnterKeepsAuditsTelling(env.policy, m, at, ids,
                                CheckDecision(env.policy, env.isUuid, draft, context, Aware(at), ids, readBreach, Found(read)));
      case Tick(_) =>
      case Note(_) =>
      case Begin(_) =>
      case Exec =>
      case Commit =>
      case Abort =>
      case SelectPending(_) =>
      case PublishRow(_, _) =>
      case PublishFails(_) =>
    }
  }

  lemma {:induction false} IssuedAuditsTell(env: Env, start: int, acts: seq<Action>)
    requires Execute(env, start, acts).Some?
    ensures AuditsTell(env.policy, Execute(env, start, acts).value.issued)
  {
    if acts != [] {
      IssuedAuditsTell(env, start, acts[..|acts| - 1]);
      NextKeepsAuditsTelling(env, Execute(env, start, acts[..|acts| - 1]).value, acts[|acts| - 1]);
    }
  }

  /** In every reachable state the SUCCESS event of a stored incident says who
      recorded it, when, and with which values; it never describes another row. */
  lemma IncidentAuditTellsItsRow(env: Env, start: int, acts: seq<Action>, a: AuditEvent, i: SecurityIncident)
    requires Execute(env, start, acts).Some?
    requires var s := Execute(env, start, acts).value.committed; a in s.outbox && i in s.incidents
    requires a.action == IncidentRecordedAction && a.objectId == Some(i.incidentId)
    ensures a.actorId == i.recordedBy && a.occurredAt == i.recordedAt && a.reasonCode == i.eventCode
    ensures a.newValues == IncidentValues(env.policy.version, i.source, i.severity, i.eventCode, i.scopeType)
  {
    EveryRunIsSafe(env, start, acts);
    IssuedAuditsTell(env, start, acts);
    var m := Execute(env, start, acts).value;
    assert AuditIssued(m.issued, a) && IncidentIssued(m.issued, i);
  }

  /** The same for a breach: the audited deadline, origin, evidence flag and
      containment code are those of the stored row. */
  lemma BreachAuditTellsItsRow(env: Env, start: int, acts: seq<Action>, a: AuditEvent, b: BreachRow)
    requires Execute(env, start, acts).Some?
    requires var s := Execute(env, start, acts).value.committed; a in s.outbox && b in s.breaches
    requires a.action == BreachRecordedAction && a.objectId == Some(b.breachId)
    ensures a.actorId == b.recordedBy && a.occurredAt == b.recordedAt && a.newValues.BreachValues?
    ensures a.newValues.evaluationDeadlineAt == b.evaluationDeadlineAt && a.newValues.origin == b.origin
    ensures a.newValues.containmentActionCode == b.containmentActionCode && a.newValues.status == AssessmentPending
    ensures a.newValues.processorEvidencePresent <==> b.processorNotificationEvidenceId.Some?
  {
    EveryRunIsSafe(env, start, acts);
    IssuedAuditsTell(env, start, acts);
    var m := Execute(env, start, acts).value;
    assert AuditIssued(m.issued, a) && BreachIssued(m.issued, b);
  }

  /** The same for a decision. */
  lemma DecisionAuditTellsItsRow(env: Env, start: int, acts: seq<Action>, a: AuditEvent, d: BreachDecision)
    requires Execute(env, start, acts).Some?
    requires var s := Execute(env, start, acts).value.committed; a in s.outbox && d in s.decisions
    requires a.action == DecisionRecordedAction && a.objectId == Some(d.decisionId)
    ensures a.actorId == d.decidedBy && a.occurredAt == d.recordedAt && a.newValues.DecisionValues?
    ensures a.newValues.decision == d.decision && a.newValues.reasonCode == d.reasonCode
  {
    EveryRunIsSafe(env, start, acts);
    IssuedAuditsTell(env, start, acts);
    var m := Execute(env, start, acts).value;
    assert AuditIssued(m.issued, a) && DecisionIssued(m.issued, d);
  }

  // ----- append-only -----

  lemma NextGrows(env: Env, m: Machine, a: Action)
    requires Next(env, m, a).Some? && Extends(m.committed, m.conn)
    ensures Extends(m.committed, Next(env, m, a).value.committed) && m.now <= Next(env, m, a).value.now
  {
  }

  /** Nothing committed is ever changed, reordered or removed, and time does not go back. */
  lemma {:induction false} CommittedOnlyGrows(env: Env, start: int, acts: seq<Action>, more: seq<Action>)
    requires Execute(env, start, acts).Some? && Execute(env, start, acts + more).Some?
    ensures var m, m' := Execute(env, start, acts).value, Execute(env, start, acts + more).value;
            Extends(m.committed, m'.committed) && m.now <= m'.now
  {
    if more == [] {
      assert acts + more == acts;
    } else {
      var front := more[..|more| - 1];
      assert (acts + more)[..|acts + more| - 1] == acts + front;
      CommittedOnlyGrows(env, start, acts, front);
      EveryRunIsSafe(env, start, acts + front);
      NextGrows(env, Execute(env, start, acts + front).value, more[|more| - 1]);
    }
  }

  // ----- deadlines over runs -----

  /** The ON_TIME or OVERDUE value audited with a decision is what every view will say. */
  lemma AuditedDeadlineAgrees(env: Env, start: int, acts: seq<Action>, a: AuditEvent, d: BreachDecision, later: int)
    requires Execute(env, start, acts).Some?
    requires var s := Execute(env, start, acts).value.committed; a in s.outbox && d in s.decisions
    requires a.action == DecisionRecordedAction && a.objectId == Some(d.decisionId)
    ensures var s := Execute(env, start, acts).value.committed;
            var b := FindBreach(s.breaches, d.breachId);
            && b.Some? && a.newValues.DecisionValues?
            && (a.newValues.onTime <==>
                  DeadlineStatusOf(b.value.evaluationDeadlineAt, FindDecision(s.decisions, d.breachId), later) == DecidedOnTime)
            && (!a.newValues.onTime <==>
                  DeadlineStatusOf(b.value.evaluationDeadlineAt, FindDecision(s.decisions, d.breachId), later) == DecidedOverdue)
  {
    EveryRunIsSafe(env, start, acts);
    var m := Execute(env, start, acts).value;
    AuditedDecision(env.policy, m, m.committed, a, d);
    TheDecisionOfItsBreach(m.committed, d);
  }

  lemma AuditedDecision(policy: AccessPolicy, m: Machine, s: Store, a: AuditEvent, d: BreachDecision)
    requires WellIssued(policy, m.now, m.issued) && RowsIssued(m.issued, s) && DecisionsFit(s)
    requires a in s.outbox && d in s.decisions && a.action == DecisionRecordedAction && a.objectId == Some(d.decisionId)
    ensures var b := FindBreach(s.breaches, d.breachId);
            b.Some? && a.newValues.DecisionValues? && a.newValues.onTime == (d.decidedAt <= b.value.evaluationDeadlineAt)
  {
    assert AuditIssued(m.issued, a) && DecisionIssued(m.issued, d);
    var b := FindBreach(s.breaches, d.breachId).value;
    assert BreachIssued(m.issued, b);
  }

  lemma TheDecisionOfItsBreach(s: Store, d: BreachDecision)
    requires UniqueRows(s) && d in s.decisions
    ensures FindDecision(s.decisions, d.breachId) == Some(d)
  {
  }

  lemma DecisionStays(s: Store, s': Store, breachId: string)
    requires Extends(s, s') && UniqueRows(s')
    ensures FindDecision(s.decisions, breachId).Some? ==>
              FindDecision(s'.decisions, breachId) == FindDecision(s.decisions, breachId)
  {
    var d := FindDecision(s.decisions, breachId);
    if d.Some? {
      var j :| 0 <= j < |s.decisions| && s.decisions[j] == d.value;
      assert s'.decisions[j] == d.value && d.value in s'.decisions;
    }
  }

  ghost predicate Advances(before: DeadlineStatus, after: DeadlineStatus) {
    && (before == DecidedOnTime || before == DecidedOverdue ==> after == before)
    && (before == PendingOverdue ==> after != StillPending)
  }

  lemma StatusAdvances(s: Store, s': Store, b: BreachRow, now: int, later: int)
    requires Extends(s, s') && UniqueRows(s') && b in s.breaches && now <= later
    ensures b in s'.breaches
    ensures Advances(DeadlineStatusOf(b.evaluationDeadlineAt, FindDecision(s.decisions, b.breachId), now),
                     DeadlineStatusOf(b.evaluationDeadlineAt, FindDecision(s'.decisions, b.breachId), later))
  {
    DecisionStays(s, s', b.breachId);
    var j :| 0 <= j < |s.breaches| && s.breaches[j] == b;
    assert s'.breaches[j] == b;
  }

  /** As a run goes on, a decided status never changes, and an undecided breach
      leaves "pending" for "overdue" but never returns. */
  lemma DeadlineOnlyAdvances(env: Env, start: int, acts: seq<Action>, more: seq<Action>, b: BreachRow, now: int, later: int)
    requires Execute(env, start, acts).Some? && Execute(env, start, acts + more).Some?
    requires b in Execute(env, start, acts).value.committed.breaches && now <= later
    ensures var s, s' := Execute(env, start, acts).value.committed, Execute(env, start, acts + more).value.committed;
            && b in s'.breaches
            && Advances(DeadlineStatusOf(b.evaluationDeadlineAt, FindDecision(s.decisions, b.breachId), now),
                        DeadlineStatusOf(b.evaluationDeadlineAt, FindDecision(s'.decisions, b.breachId), later))
  {
    CommittedOnlyGrows(env, start, acts, more);
    EveryRunIsSafe(env, start, acts + more);
    StatusAdvances(Execute(env, start, acts).value.committed, Execute(env, start, acts + more).value.committed, b, now, later);
  }
}
