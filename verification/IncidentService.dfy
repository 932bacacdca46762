/** The incident response service: authorize, validate, read, build, write,
    publish.  `Settle` says what a call does to the tables and what it returns;
    the methods do it step by step. */
module IncidentService {
  import opened IncidentModels
  import opened IncidentStore
  import opened IncidentChecks
  import opened IncidentHistory
  import opened IncidentView
  import opened IncidentProtocol
  import opened IncidentRuns
  import opened IncidentConservation
  import opened IncidentReads
  import opened IncidentRepository

  /** What the environment does to one call: a failing read, a failing audit
      preparation, a database error at some statement of the transaction, and
      a publish that raises. */
  datatype Faults = Faults(read: Option<nat>, prepare: bool, write: Option<nat>, publish: bool)

  // ----- specification of one call -----

  function SettleDenial(policy: AccessPolicy, s: Store, context: Option<ActorContext>, reason: string, at: int,
                        eventId: string, faults: Faults): (Store, Error) {
    var technical := Technical(CorrelationOf(context));
    if faults.prepare then (s, technical)
    else
      var (result, s') := Transact(s, [AuditRow(DenialAudit(policy, context, reason, at, eventId))], faults.write);
      (s', if result != Written || faults.publish then technical else Authorization(reason, CorrelationOf(context)))
  }

  function OpCorrelation(op: Op): string {
    if op.NoteOp? then op.event.correlationId else op.context.correlationId
  }

  function Settle(policy: AccessPolicy, s: Store, verdict: Verdict, eventId: string, faults: Faults): (Store, Outcome<Op>) {
    match verdict
    case Refuse(error) => (s, Failed(error))
    case Deny(context, reason, at) =>
      var (s', error) := SettleDenial(policy, s, context, reason, at, eventId, faults);
      (s', Failed(error))
    case Proceed(op) =>
      if faults.prepare then (s, Failed(Technical(OpCorrelation(op))))
      else
        var (result, s') := Transact(s, Rows(op), faults.write);
        match result
        case Written => (s', if faults.publish then Failed(PublishRaised) else Done(op))
        case IntegrityFailure => (s', Failed(Conflict))
        case DatabaseFailure => (s', Failed(Technical(OpCorrelation(op))))
  }

  function SettleView(policy: AccessPolicy, s: Store, verdict: ViewVerdict, correlationId: string, eventId: string,
                      faults: Faults): (Store, Outcome<TimelineView>) {
    match verdict
    case ViewRefuse(error) => (s, Failed(error))
    case ViewDeny(context, reason, at) =>
      var (s', error) := SettleDenial(policy, s, context, reason, at, eventId, faults);
      (s', Failed(error))
    case Show(view, event) =>
      if faults.prepare then (s, Failed(Technical(correlationId)))
      else
        var (result, s') := Transact(s, [AuditRow(event)], faults.write);
        (s', if result != Written || faults.publish then Failed(Technical(correlationId)) else Done(view))
  }

  // ----- what a settled call guarantees -----

  /** The tables grew by one DENIED event naming the reason and the actor, and by nothing else. */
  ghost predicate DenialStaged(s: Store, s': Store, context: Option<ActorContext>, reason: string, at: int) {
    exists a :: s' == s.(outbox := s.outbox + [a]) && a.result == Denied && a.action == AuthorizationAction
                && a.reasonCode == reason && a.objectId == None && a.occurredAt == at
                && a.actorId == (if context.Some? then context.value.actorId else "UNKNOWN")
  }

  /** The errors a check phase refuses a call with. */
  ghost predicate PlainRefusal(verdict: Verdict) {
    verdict.Refuse? ==> verdict.error.Validation? || verdict.error.NotFound? || verdict.error.Technical?
  }

  /** An authorization error means that nothing changed but one staged DENIED
      audit carrying its reason; a returned record means that exactly its rows
      were stored; any other error but a raising publish leaves every table and
      the outbox as they were, or has staged the denial it could not publish. */
  lemma SettledCall(policy: AccessPolicy, s: Store, verdict: Verdict, eventId: string, faults: Faults)
    requires PlainRefusal(verdict)
    requires verdict.Proceed? ==> !verdict.op.NoteOp? && Checked(policy, verdict.op)
    ensures var (s', out) := Settle(policy, s, verdict, eventId, faults);
            match out
            case Done(op) => verdict == Proceed(op) && s' == Apply(s, op)
            case Failed(Authorization(reason, _)) => verdict.Deny? && verdict.reason == reason && DenialStaged(s, s', verdict.context, reason, verdict.at)
            case Failed(PublishRaised) => verdict.Proceed? && faults.publish && s' == Apply(s, verdict.op)
            case Failed(Conflict) => verdict.Proceed? && s' == s && !Admissible(s, verdict.op)
            case Failed(_) => s' == s || (verdict.Deny? && faults.publish && DenialStaged(s, s', verdict.context, verdict.reason, verdict.at))
  {
    match verdict {
      case Refuse(_) =>
      case Deny(context, reason, at) =>
        TransactionIsAtomic(s, NoteOp(DenialAudit(policy, context, reason, at, eventId)), faults.write);
      case Proceed(op) =>
        CheckedIsShaped(policy, op);
        TransactionIsAtomic(s, op, faults.write);
    }
  }

  /** A view is handed out only when its own audit has been staged and published;
      an authorization error has staged exactly one denial; any other error has
      changed nothing, or has staged the event that it could not publish. */
  lemma SettledView(policy: AccessPolicy, s: Store, verdict: ViewVerdict, correlationId: string, eventId: string, faults: Faults)
    requires verdict.ViewRefuse? ==> !verdict.error.Authorization?
    ensures var (s', out) := SettleView(policy, s, verdict, correlationId, eventId, faults);
            match out
            case Done(view) => verdict.Show? && view == verdict.view && s' == s.(outbox := s.outbox + [verdict.event])
            case Failed(Authorization(reason, _)) =>
              verdict.ViewDeny? && verdict.reason == reason && DenialStaged(s, s', verdict.context, reason, verdict.at)
            case Failed(_) =>
              || s' == s
              || (faults.publish && verdict.Show? && s' == s.(outbox := s.outbox + [verdict.event]))
              || (faults.publish && verdict.ViewDeny? && DenialStaged(s, s', verdict.context, verdict.reason, verdict.at))
  {
    match verdict {
      case ViewRefuse(_) =>
      case ViewDeny(context, reason, at) =>
        TransactionIsAtomic(s, NoteOp(DenialAudit(policy, context, reason, at, eventId)), faults.write);
      case Show(_, event) => TransactionIsAtomic(s, NoteOp(event), faults.write);
    }
  }

  /** A checked call is stored exactly when the constraints admit its rows and
      nothing fails on the way. */
  lemma CallSucceedsExactly(policy: AccessPolicy, s: Store, op: Op, eventId: string, faults: Faults)
    requires !op.NoteOp? && Checked(policy, op)
    ensures Settle(policy, s, Proceed(op), eventId, faults).1 == Done(op)
            <==> !faults.prepare && !faults.publish
                 && (faults.write.None? || faults.write.value > |Rows(op)|) && Admissible(s, op)
  {
    CheckedIsShaped(policy, op);
    TransactionIsAtomic(s, op, faults.write);
  }

  /** The statements of the operation end at one that the constraints turn down. */
  ghost predicate Conflicts(s: Store, op: Op, fault: Option<nat>) {
    exists k :: 0 <= k < |Rows(op)| && (fault.None? || k < fault.value) && TurnsDown(s, Rows(op), k)
  }

  /** The fault hits before a statement is turned down, the commit counting as the last. */
  ghost predicate Breaks(s: Store, op: Op, fault: Option<nat>) {
    fault.Some? && fault.value <= |Rows(op)| && RunsThrough(s, Rows(op), fault.value)
  }

  /** What a checked call returns and leaves, for every fault: a conflict and a technical
      error are told apart by what ends its statements first, and both undo them all. */
  lemma CheckedCallAnswered(policy: AccessPolicy, s: Store, op: Op, eventId: string, faults: Faults)
    requires !op.NoteOp? && Checked(policy, op)
    ensures var (s', out) := Settle(policy, s, Proceed(op), eventId, faults);
      if faults.prepare || Breaks(s, op, faults.write) then s' == s && out == Failed(Technical(op.context.correlationId))
      else if Conflicts(s, op, faults.write) then s' == s && out == Failed(Conflict)
      else s' == Apply(s, op) && out == if faults.publish then Failed(PublishRaised) else Done(op)
  {
    CheckedIsShaped(policy, op);
    TransactionIsAtomic(s, op, faults.write);
    StatementsEnd(s, Rows(op), faults.write);
  }

  /** A refused call changes nothing.  A denied one stages its event and raises the
      reason, unless staging or publishing fails: then the error is a technical one. */
  lemma TurnedAwayAnswered(policy: AccessPolicy, s: Store, verdict: Verdict, eventId: string, faults: Faults)
    requires !verdict.Proceed?
    ensures var (s', out) := Settle(policy, s, verdict, eventId, faults);
      match verdict
      case Refuse(error) => s' == s && out == Failed(error)
      case Deny(context, reason, at) =>
        var correlationId := if context.Some? then context.value.correlationId else "incident-access-denied";
        var event := DenialAudit(policy, context, reason, at, eventId);
        var staged := !faults.prepare && (faults.write.None? || faults.write.value > 1) && forall x :: x in s.outbox ==> x.eventId != eventId;
        && s' == (if staged then s.(outbox := s.outbox + [event]) else s)
        && out == Failed(if staged && !faults.publish then Authorization(reason, correlationId) else Technical(correlationId))
  {
    if verdict.Deny? {
      OneStatement(s, AuditRow(DenialAudit(policy, verdict.context, verdict.reason, verdict.at, eventId)), faults.write);
    }
  }

  lemma OneStatement(s: Store, row: Row, fault: Option<nat>)
    ensures var (result, s') := Transact(s, [row], fault);
      var written := (fault.None? || fault.value > 1) && CanInsert(s, row);
      (result == Written <==> written) && s' == if written then Insert(s, row) else s
  {
    assert [row] == [row] + [];
    RunFirst(s, row, [], fault);
  }

  /** A view is returned exactly when its event was staged and published. */
  lemma ViewCallAnswered(policy: AccessPolicy, s: Store, view: TimelineView, event: AuditEvent, correlationId: string,
                         eventId: string, faults: Faults)
    ensures var (s', out) := SettleView(policy, s, Show(view, event), correlationId, eventId, faults);
      var staged := !faults.prepare && (faults.write.None? || faults.write.value > 1) && forall x :: x in s.outbox ==> x.eventId != event.eventId;
      && s' == (if staged then s.(outbox := s.outbox + [event]) else s)
      && out == if staged && !faults.publish then Done(view) else Failed(Technical(correlationId))
  {
    OneStatement(s, AuditRow(event), faults.write);
  }

  /** A view that is turned away ends as a recording call that is. */
  lemma TurnedAwayViewAnswered(policy: AccessPolicy, s: Store, verdict: ViewVerdict, correlationId: string, eventId: string,
                               faults: Faults)
    requires !verdict.Show?
    ensures var (s', out) := SettleView(policy, s, verdict, correlationId, eventId, faults);
      var (t, other) := Settle(policy, s, if verdict.ViewRefuse? then Refuse(verdict.error)
                                          else Deny(verdict.context, verdict.reason, verdict.at), eventId, faults);
      s' == t && out.Failed? && other == Failed(out.error)
  {
  }

  lemma NoteKeepsAll(policy: AccessPolicy, s: Store, a: AuditEvent, fault: Option<nat>)
    requires SoundAndPresentable(s) && Complete(s)
    requires a.action == AuthorizationAction || a.action == TimelineViewedAction
    ensures var s' := Transact(s, [AuditRow(a)], fault).1; SoundAndPresentable(s') && Complete(s')
  {
    TransactionKeepsAll(policy, s, NoteOp(a), fault);
  }

  /** Whatever happens to a call, the tables stay sound, presentable and complete. */
  lemma SettleKeepsAll(policy: AccessPolicy, s: Store, verdict: Verdict, eventId: string, faults: Faults)
    requires SoundAndPresentable(s) && Complete(s)
    requires verdict.Proceed? ==> !verdict.op.NoteOp? && Checked(policy, verdict.op) && Supported(s, verdict.op)
    ensures var s' := Settle(policy, s, verdict, eventId, faults).0; SoundAndPresentable(s') && Complete(s')
  {
    SettledTables(policy, s, verdict, eventId, faults);
    match verdict {
      case Refuse(_) =>
      case Deny(context, reason, at) =>
        NoteKeepsAll(policy, s, DenialAudit(policy, context, reason, at, eventId), faults.write);
      case Proceed(op) => TransactionKeepsAll(policy, s, op, faults.write);
    }
  }

  /** A call touches the tables by at most one transaction. */
  lemma SettledTables(policy: AccessPolicy, s: Store, verdict: Verdict, eventId: string, faults: Faults)
    ensures Settle(policy, s, verdict, eventId, faults).0
      == if faults.prepare then s
         else match verdict
              case Refuse(_) => s
              case Deny(context, reason, at) =>
                Transact(s, [AuditRow(DenialAudit(policy, context, reason, at, eventId))], faults.write).1
              case Proceed(op) => Transact(s, Rows(op), faults.write).1
  {
  }

  // ----- one call as a run of the protocol -----

  function Repeat(n: nat): seq<Action> {
    if n == 0 then [] else [Exec] + Repeat(n - 1)
  }

  ghost predicate InTransaction(m: Machine, op: Op, k: nat, committed: Store) {
    m.open.Some? && m.open.value.op == op && m.open.value.done == k && m.committed == committed
  }

  /** `m'` is what one more statement makes of `m`. */
  ghost predicate Executes(env: Env, m: Machine, op: Op, k: nat, m': Machine)
    requires k < |Rows(op)|
  {
    && (forall rest :: Continue(env, m, [Exec] + rest) == Continue(env, m', rest))
    && InTransaction(m', op, k + 1, m.committed) && m'.conn == Insert(m.conn, Rows(op)[k])
  }

  lemma ExecRuns(env: Env, m: Machine, op: Op, k: nat) returns (m': Machine)
    requires InTransaction(m, op, k, m.committed) && k < |Rows(op)| && CanInsert(m.conn, Rows(op)[k])
    ensures Executes(env, m, op, k, m')
  {
    m' := Next(env, m, Exec).value;
    forall rest ensures Continue(env, m, [Exec] + rest) == Continue(env, m', rest) {
      ContinueFirst(env, m, Exec, rest);
    }
  }

  /** `n` more statements run, and if none of the rest fails they are all. */
  ghost predicate Gets(env: Env, m: Machine, op: Op, k: nat, n: nat, fault: Option<nat>)
    requires k <= |Rows(op)|
  {
    var end := Continue(env, m, Repeat(n));
    var (result, s) := InsertAll(m.conn, Rows(op)[k..], fault);
    && end.Some? && InTransaction(end.value, op, k + n, m.committed) && k + n <= |Rows(op)|
    && (result == Written ==> k + n == |Rows(op)| && end.value.conn == s)
  }

  lemma GetsNoFurther(env: Env, m: Machine, op: Op, k: nat, fault: Option<nat>)
    requires InTransaction(m, op, k, m.committed) && k <= |Rows(op)|
    requires k == |Rows(op)| || fault == Some(0) || !CanInsert(m.conn, Rows(op)[k])
    ensures Gets(env, m, op, k, 0, fault)
  {
    if k < |Rows(op)| {
      RemainingRows(m.conn, op, k, fault);
    }
  }

  lemma GetsOneFurther(env: Env, m: Machine, op: Op, k: nat, m': Machine, n: nat, fault: Option<nat>)
    requires k < |Rows(op)| && fault != Some(0) && CanInsert(m.conn, Rows(op)[k])
    requires Executes(env, m, op, k, m') && Gets(env, m', op, k + 1, n, NextFault(fault))
    ensures Gets(env, m, op, k, n + 1, fault)
  {
    RemainingRows(m.conn, op, k, fault);
  }

  /** The open transaction runs until its statements are through or one fails. */
  lemma {:induction false} StatementsRun(env: Env, m: Machine, op: Op, k: nat, fault: Option<nat>)
    requires InTransaction(m, op, k, m.committed) && k <= |Rows(op)|
    ensures exists n: nat :: Gets(env, m, op, k, n, fault)
    decreases |Rows(op)| - k
  {
    if k < |Rows(op)| && fault != Some(0) && CanInsert(m.conn, Rows(op)[k]) {
      var m' := ExecRuns(env, m, op, k);
      StatementsRun(env, m', op, k + 1, NextFault(fault));
      var n: nat :| Gets(env, m', op, k + 1, n, NextFault(fault));
      GetsOneFurther(env, m, op, k, m', n, fault);
    } else {
      GetsNoFurther(env, m, op, k, fault);
    }
  }

  lemma RemainingRows(s: Store, op: Op, k: nat, fault: Option<nat>)
    requires k < |Rows(op)|
    ensures InsertAll(s, Rows(op)[k..], fault)
              == if fault == Some(0) then (DatabaseFailure, s)
                 else if !CanInsert(s, Rows(op)[k]) then (IntegrityFailure, s)
                 else InsertAll(Insert(s, Rows(op)[k]), Rows(op)[k + 1..], NextFault(fault))
  {
    var rows := Rows(op);
    assert rows[k..] == [rows[k]] + rows[k + 1..];
    RunFirst(s, rows[k], rows[k + 1..], fault);
  }

  /** Where a call has left the machine, with nothing open. */
  ghost predicate EndsWith(end: Option<Machine>, s: Store) {
    end.Some? && end.value.open.None? && end.value.committed == end.value.conn == s
  }

  /** A transaction that waits is taken up, runs as far as it gets, and ends. */
  lemma TransactionRuns(env: Env, m: Machine, op: Op, fault: Option<nat>) returns (acts: seq<Action>)
    requires op in m.waiting && m.open.None? && m.conn == m.committed
    ensures EndsWith(Continue(env, m, acts), Transact(m.conn, Rows(op), fault).1)
  {
    BeginRuns(env, m, op);
    var m1 := Next(env, m, Begin(op)).value;
    assert Rows(op)[0..] == Rows(op);
    StatementsRun(env, m1, op, 0, fault);
    var n: nat :| Gets(env, m1, op, 0, n, fault);
    var m2 := Continue(env, m1, Repeat(n)).value;
    var last := if InsertAll(m.conn, Rows(op), fault).0 == Written then Commit else Abort;
    EndRuns(env, m2, op, n, last);
    ContinueConcat(env, m1, Repeat(n), [last]);
    ContinueFirst(env, m, Begin(op), Repeat(n) + [last]);
    acts := [Begin(op)] + (Repeat(n) + [last]);
  }

  lemma BeginRuns(env: Env, m: Machine, op: Op)
    requires op in m.waiting && m.open.None? && m.conn == m.committed
    ensures var next := Next(env, m, Begin(op));
            next.Some? && InTransaction(next.value, op, 0, m.committed) && next.value.conn == m.conn
  {
  }

  lemma EndRuns(env: Env, m: Machine, op: Op, n: nat, last: Action)
    requires InTransaction(m, op, n, m.committed) && (last == Abort || (last == Commit && n == |Rows(op)|))
    ensures EndsWith(Continue(env, m, [last]), if last == Commit then m.conn else m.committed)
  {
    assert [last] == [last] + [];
    ContinueFirst(env, m, last, []);
  }

  lemma NoteRuns(env: Env, m: Machine, event: AuditEvent, fault: Option<nat>) returns (acts: seq<Action>)
    requires event.action == AuthorizationAction || event.action == TimelineViewedAction
    requires m.open.None? && m.conn == m.committed
    ensures EndsWith(Continue(env, m, acts), Transact(m.conn, [AuditRow(event)], fault).1)
  {
    var more := TransactionRuns(env, Next(env, m, Note(event)).value, NoteOp(event), fault);
    ContinueFirst(env, m, Note(event), more);
    acts := [Note(event)] + more;
  }

  /** A recording call. */
  datatype Call =
    | IncidentCall(incidentDraft: SecurityIncidentDraft)
    | BreachCall(breachDraft: BreachSuspicionDraft)
    | DecisionCall(decisionDraft: BreachDecisionDraft)

  /** The check phase of a call whose reads see the tables `s`, if they do not fail. */
  function JudgeCall(env: Env, s: Store, call: Call, context: Option<ActorContext>, clock: Timestamp, ids: Ids,
                     failing: Option<nat>): Verdict
  {
    match call
    case IncidentCall(draft) => CheckIncident(env.policy, env.isUuid, draft, context, clock, ids)
    case BreachCall(draft) =>
      CheckBreach(env.policy, env.isUuid, draft, context, clock, ids, Attempt(failing, 0, ReadIncident(s, draft.incidentId)))
    case DecisionCall(draft) =>
      var readBreach := Attempt(failing, 0, ReadBreach(s, draft.breachId));
      CheckDecision(env.policy, env.isUuid, draft, context, clock, ids, readBreach,
                    Attempt(failing, 1, ReadIncidentOf(s, readBreach)))
  }

  /** What the check phase of a call goes by: the incident stored under the draft's
      identifier, or the breach stored under it and the incident that the breach's row
      names; nothing found where there is none, and a broken read where one fails. */
  lemma CallGoesByTheTables(env: Env, s: Store, call: Call, context: Option<ActorContext>, clock: Timestamp, ids: Ids,
                            failing: Option<nat>, i: SecurityIncident, row: BreachRow, b: BreachSuspicion)
    requires UniqueRows(s) && i in s.incidents
    requires call.DecisionCall? ==>
      row in s.breaches && row.incidentId == i.incidentId
      && DecodeBreach(row, exists d :: d in s.decisions && d.breachId == row.breachId) == Found(b)
    ensures var verdict := JudgeCall(env, s, call, context, clock, ids, failing);
      match call
      case IncidentCall(draft) => verdict == CheckIncident(env.policy, env.isUuid, draft, context, clock, ids)
      case BreachCall(draft) =>
        && (failing == Some(0) ==> verdict == CheckBreach(env.policy, env.isUuid, draft, context, clock, ids, Broken))
        && (failing != Some(0) && draft.incidentId == i.incidentId ==>
              verdict == CheckBreach(env.policy, env.isUuid, draft, context, clock, ids, Found(i)))
        && (failing != Some(0) && (forall x :: x in s.incidents ==> x.incidentId != draft.incidentId) ==>
              verdict == CheckBreach(env.policy, env.isUuid, draft, context, clock, ids, Missing))
      case DecisionCall(draft) =>
        && (failing == Some(0) ==> verdict == CheckDecision(env.policy, env.isUuid, draft, context, clock, ids, Broken, Broken))
        && (failing == Some(1) && draft.breachId == row.breachId ==>
              verdict == CheckDecision(env.policy, env.isUuid, draft, context, clock, ids, Found(b), Broken))
        && (failing.None? && draft.breachId == row.breachId ==>
              verdict == CheckDecision(env.policy, env.isUuid, draft, context, clock, ids, Found(b), Found(i)))
        && (failing.None? && (forall x :: x in s.breaches ==> x.breachId != draft.breachId) ==>
              verdict == CheckDecision(env.policy, env.isUuid, draft, context, clock, ids, Missing, Missing))
  {
    assert FindIncident(s.incidents, i.incidentId) == Some(i);
    if call.DecisionCall? {
      TheBreachOfItsIncident(s, row);
      DecidedExactly(s, row.breachId);
    }
  }

  lemma DecidedExactly(s: Store, breachId: string)
    ensures FindDecision(s.decisions, breachId).Some? <==> exists d :: d in s.decisions && d.breachId == breachId
  {
  }

  /** The check step is enabled and comes to the call's verdict. */
  ghost predicate Performs(env: Env, m: Machine, check: Action, verdict: Verdict) {
    IsCheck(check) && VerdictOf(env, check) == verdict && Next(env, m, check).Some?
  }

  lemma IncidentCallEnters(env: Env, m: Machine, draft: SecurityIncidentDraft, context: Option<ActorContext>, clock: Timestamp,
                           ids: Ids)
    returns (check: Action)
    requires CheckIncident(env.policy, env.isUuid, draft, context, clock, ids).Proceed?
    requires clock.Aware? ==> clock.instant <= m.now
    requires ids.recordId !in m.issued
    ensures Performs(env, m, check, CheckIncident(env.policy, env.isUuid, draft, context, clock, ids))
  {
    check := CheckIncidentDraft(draft, context, clock.instant, ids);
  }

  lemma BreachCallEnters(env: Env, m: Machine, draft: BreachSuspicionDraft, context: Option<ActorContext>, clock: Timestamp,
                         ids: Ids, read: Lookup<SecurityIncident>)
    returns (check: Action)
    requires CheckBreach(env.policy, env.isUuid, draft, context, clock, ids, read).Proceed?
    requires clock.Aware? ==> clock.instant <= m.now
    requires ids.recordId !in m.issued
    requires read.Found? ==> read.row in m.seenIncidents && read.row.incidentId == draft.incidentId
    ensures Performs(env, m, check, CheckBreach(env.policy, env.isUuid, draft, context, clock, ids, read))
  {
    check := CheckBreachDraft(draft, context, clock.instant, ids, read.row);
  }

  lemma DecisionCallEnters(env: Env, m: Machine, draft: BreachDecisionDraft, context: Option<ActorContext>, clock: Timestamp,
                           ids: Ids, row: BreachRow, decided: bool, read: Lookup<SecurityIncident>)
    returns (check: Action)
    requires CheckDecision(env.policy, env.isUuid, draft, context, clock, ids, DecodeBreach(row, decided), read).Proceed?
    requires clock.Aware? ==> clock.instant <= m.now
    requires ids.recordId !in m.issued
    requires row in m.seenBreaches && row.breachId == draft.breachId
    requires read.Found? ==> read.row in m.seenIncidents && read.row.incidentId == row.incidentId
    ensures Performs(env, m, check, CheckDecision(env.policy, env.isUuid, draft, context, clock, ids, DecodeBreach(row, decided), read))
  {
    check := CheckDecisionDraft(draft, context, clock.instant, ids, row, decided, read.row);
  }

  /** A decision that passes its checks has read a stored breach and its incident. */
  lemma PassedDecision(env: Env, s: Store, draft: BreachDecisionDraft, context: Option<ActorContext>, clock: Timestamp, ids: Ids,
                       failing: Option<nat>)
    requires JudgeCall(env, s, DecisionCall(draft), context, clock, ids, failing).Proceed?
    ensures var row := FindBreach(s.breaches, draft.breachId);
      && row.Some?
      && JudgeCall(env, s, DecisionCall(draft), context, clock, ids, failing)
           == CheckDecision(env.policy, env.isUuid, draft, context, clock, ids,
                            DecodeBreach(row.value, FindDecision(s.decisions, draft.breachId).Some?),
                            ReadIncident(s, row.value.incidentId))
  {
  }

  /** The check of a call that passes is a step of the protocol: the rows it reads have
      been seen. */
  lemma CallEnters(env: Env, m: Machine, call: Call, context: Option<ActorContext>, clock: Timestamp, ids: Ids,
                   failing: Option<nat>)
    returns (check: Action)
    requires VisibleIsSeen(m) && JudgeCall(env, m.conn, call, context, clock, ids, failing).Proceed?
    requires clock.Aware? ==> clock.instant <= m.now
    requires ids.recordId !in m.issued
    ensures Performs(env, m, check, JudgeCall(env, m.conn, call, context, clock, ids, failing))
  {
    match call {
      case IncidentCall(draft) => check := IncidentCallEnters(env, m, draft, context, clock, ids);
      case BreachCall(draft) =>
        check := BreachCallEnters(env, m, draft, context, clock, ids, Attempt(failing, 0, ReadIncident(m.conn, draft.incidentId)));
      case DecisionCall(draft) =>
        PassedDecision(env, m.conn, draft, context, clock, ids, failing);
        var row := FindBreach(m.conn.breaches, draft.breachId).value;
        check := DecisionCallEnters(env, m, draft, context, clock, ids, row,
                                    FindDecision(m.conn.decisions, draft.breachId).Some?, ReadIncident(m.conn, row.incidentId));
    }
  }

  /** Every recording call that runs undisturbed in a reachable state, on a clock that is
      not ahead and with a new identifier, is a run of the protocol from there: refused
      for any reason, a missing or failing read among them, denied, conflicting, failing
      at any statement, or stored.  A call that passes its checks begins with that check. */
  lemma EveryCallIsARun(env: Env, start: int, acts: seq<Action>, call: Call, context: Option<ActorContext>, clock: Timestamp,
                        ids: Ids, faults: Faults)
    returns (more: seq<Action>)
    requires Execute(env, start, acts).Some? && Execute(env, start, acts).value.open.None?
    requires clock.Aware? ==> clock.instant <= Execute(env, start, acts).value.now
    requires ids.recordId !in Execute(env, start, acts).value.issued
    ensures var s := Execute(env, start, acts).value.conn;
      var verdict := JudgeCall(env, s, call, context, clock, ids, faults.read);
      && EndsWith(Execute(env, start, acts + more), Settle(env.policy, s, verdict, ids.eventId, faults).0)
      && (verdict.Proceed? ==> more != [] && IsCheck(more[0]) && VerdictOf(env, more[0]) == verdict)
  {
    var m := Execute(env, start, acts).value;
    var verdict := JudgeCall(env, m.conn, call, context, clock, ids, faults.read);
    NothingOpen(env, start, acts);
    more := [];
    match verdict {
      case Refuse(_) =>
      case Deny(denied, reason, at) =>
        if !faults.prepare {
          more := NoteRuns(env, m, DenialAudit(env.policy, denied, reason, at, ids.eventId), faults.write);
        }
      case Proceed(op) =>
        EveryVisibleRowIsSeen(env, start, acts);
        var check := CallEnters(env, m, call, context, clock, ids, faults.read);
        more := CheckedCallRuns(env, m, check, op, faults);
    }
    SettledTables(env.policy, m.conn, verdict, ids.eventId, faults);
    ExecuteThenContinue(env, start, acts, more);
  }

  lemma NothingOpen(env: Env, start: int, acts: seq<Action>)
    requires Execute(env, start, acts).Some? && Execute(env, start, acts).value.open.None?
    ensures Execute(env, start, acts).value.conn == Execute(env, start, acts).value.committed
  {
    EveryRunIsTracked(env, start, acts);
  }

  lemma CheckedCallRuns(env: Env, m: Machine, check: Action, op: Op, faults: Faults) returns (more: seq<Action>)
    requires m.open.None? && m.conn == m.committed && Performs(env, m, check, Proceed(op))
    ensures EndsWith(Continue(env, m, more), if faults.prepare then m.conn else Transact(m.conn, Rows(op), faults.write).1)
    ensures more != [] && more[0] == check
  {
    CheckEnters(env, m, check, op);
    var entered := Next(env, m, check).value;
    var rest := [];
    if !faults.prepare {
      rest := TransactionRuns(env, entered, op, faults.write);
    }
    ContinueFirst(env, m, check, rest);
    more := [check] + rest;
  }

  lemma NextEnters(env: Env, m: Machine, check: Action)
    requires IsCheck(check) && Next(env, m, check).Some?
    ensures Next(env, m, check) == Enter(m, check.at, check.ids, VerdictOf(env, check))
  {
  }

  lemma CheckEnters(env: Env, m: Machine, check: Action, op: Op)
    requires IsCheck(check) && VerdictOf(env, check) == Proceed(op) && Next(env, m, check).Some?
    ensures var next := Next(env, m, check).value;
            op in next.waiting && next.open == m.open && next.conn == m.conn && next.committed == m.committed
  {
    NextEnters(env, m, check);
    EnteredWaits(m, check.at, check.ids, op);
  }

  lemma EnteredWaits(m: Machine, at: int, ids: Ids, op: Op)
    requires Enter(m, at, ids, Proceed(op)).Some?
    ensures var next := Enter(m, at, ids, Proceed(op)).value;
            op in next.waiting && next.open == m.open && next.conn == m.conn && next.committed == m.committed
  {
  }

  /** The same for a view. */
  lemma EveryViewIsARun(env: Env, start: int, acts: seq<Action>, query: TimelineQuery, context: Option<ActorContext>,
                        clock: Timestamp, eventId: string, faults: Faults)
    returns (more: seq<Action>)
    requires Execute(env, start, acts).Some? && Execute(env, start, acts).value.open.None?
    ensures var s := Execute(env, start, acts).value.conn;
      var verdict := ViewBreach(env.policy, env.isUuid, query, context, clock, eventId, s, faults.read);
      EndsWith(Execute(env, start, acts + more),
               SettleView(env.policy, s, verdict, CorrelationOf(context), eventId, faults).0)
  {
    var m := Execute(env, start, acts).value;
    var verdict := ViewBreach(env.policy, env.isUuid, query, context, clock, eventId, m.conn, faults.read);
    NothingOpen(env, start, acts);
    more := SettledViewRuns(env, m, verdict, CorrelationOf(context), eventId, faults);
    ExecuteThenContinue(env, start, acts, more);
  }

  lemma SettledViewRuns(env: Env, m: Machine, verdict: ViewVerdict, correlationId: string, eventId: string, faults: Faults)
    returns (acts: seq<Action>)
    requires m.open.None? && m.conn == m.committed && (verdict.Show? ==> verdict.event.action == TimelineViewedAction)
    ensures EndsWith(Continue(env, m, acts), SettleView(env.policy, m.conn, verdict, correlationId, eventId, faults).0)
  {
    acts := [];
    if !faults.prepare {
      match verdict {
        case ViewRefuse(_) =>
        case ViewDeny(context, reason, at) =>
          acts := NoteRuns(env, m, DenialAudit(env.policy, context, reason, at, eventId), faults.write);
        case Show(_, event) => acts := NoteRuns(env, m, event, faults.write);
      }
    }
  }

  // ----- from the draft to the view -----

  lemma MembersCount(categories: set<Arg<PersonalDataCategory>>)
    requires Foreign !in categories
    ensures |Members(categories)| == |categories|
  {
    var p, q := Member(PersonalData), Member(SpecialCategoryPersonalData);
    forall c | c in categories ensures c == p || c == q {
      assert c == Member(c.value);
      assert c.value == PersonalData || c.value == SpecialCategoryPersonalData;
    }
    var members := Members(categories);
    if p in categories && q in categories {
      assert categories == {p, q} && members == {PersonalData, SpecialCategoryPersonalData};
    } else if p in categories {
      assert categories == {p} && members == {PersonalData};
    } else if q in categories {
      assert categories == {q} && members == {SpecialCategoryPersonalData};
    } else {
      assert categories == {} && members == {};
    }
  }

  /** What a draft says, seen through a view of the breach. */
  ghost predicate ViewShowsDraft(view: TimelineView, draft: BreachSuspicionDraft, breachId: string) {
    && view.breachId == breachId
    && Aware(view.learnedAt) == draft.learnedAt
    && Aware(view.evaluationDeadlineAt - ASSESSMENT_WINDOW) == draft.learnedAt
    && Member(view.origin) == draft.origin
    && view.dataCategoryCount == |draft.dataCategories|
    && view.affectedScopeCode == draft.affectedScopeCode
    && view.containmentActionCode == draft.containmentActionCode
    && view.processorEvidencePresent == draft.processorNotificationEvidenceId.Some?
    && view.status == AssessmentPending && view.decision == None
  }

  lemma BuiltBreachShowsDraft(policy: AccessPolicy, draft: BreachSuspicionDraft, isUuid: string -> bool, c: ActorContext,
                              at: int, id: string, incidentId: string, timeline: seq<TimelineEntry>, now: int)
    requires ValidateBreachDraft(draft, isUuid, at) == Valid
    ensures ViewShowsDraft(BuildView(policy, BuildBreach(draft, c, at, id, incidentId), None, timeline, now), draft, id)
  {
    MembersCount(draft.dataCategories);
  }

  /** A recorded breach, viewed by anyone authorized for it before a decision is
      made, shows what its draft said. */
  lemma RecordedBreachIsSeen(policy: AccessPolicy, isUuid: string -> bool, draft: BreachSuspicionDraft,
                             context: Option<ActorContext>, at: int, ids: Ids, s: Store,
                             query: TimelineQuery, viewer: ActorContext, now: int, eventId: string)
    requires SoundAndPresentable(s) && Complete(s)
    requires var v := CheckBreach(policy, isUuid, draft, context, Aware(at), ids, ReadIncident(s, draft.incidentId));
             v.Proceed? && Admissible(s, v.op)
             && ScopeAllowed(viewer, v.op.read.scopeType, v.op.read.scopeId)
    requires query.breachId == ids.recordId && isUuid(query.breachId) && ValidCode(query.reasonCode) && at <= now
    requires Authorized(viewer, policy.privacyRoles, policy.actorPolicyVersion, now)
    ensures var op := CheckBreach(policy, isUuid, draft, context, Aware(at), ids, ReadIncident(s, draft.incidentId)).op;
            var shown := ViewBreach(policy, isUuid, query, Some(viewer), Aware(now), eventId, Apply(s, op), None);
            shown.Show? && ViewShowsDraft(shown.view, draft, ids.recordId)
  {
    var read := ReadIncident(s, draft.incidentId);
    var op := CheckBreach(policy, isUuid, draft, context, Aware(at), ids, read).op;
    BreachCheckEstablishes(policy, isUuid, draft, context, Aware(at), ids, read);
    AppliedIsStored(policy, s, op);
    TablesRefineMutableStatus(policy, s, op, ids.recordId);
    PassedDraft(policy, isUuid, draft, context, at, ids, read);
    var s' := Apply(s, op);
    ViewIsShownExactly(policy, isUuid, query, viewer, now, eventId, s', op.row);
    ShownIsBuilt(policy, isUuid, query, Some(viewer), Aware(now), eventId, s', None);
    var timeline := EntriesOf(s'.timeline, op.breach.incidentId);
    BuiltBreachShowsDraft(policy, draft, isUuid, context.value, at, ids.recordId, op.breach.incidentId, timeline, now);
  }

  lemma PassedDraft(policy: AccessPolicy, isUuid: string -> bool, draft: BreachSuspicionDraft,
                    context: Option<ActorContext>, at: int, ids: Ids, read: Lookup<SecurityIncident>)
    requires CheckBreach(policy, isUuid, draft, context, Aware(at), ids, read).Proceed?
    ensures var op := CheckBreach(policy, isUuid, draft, context, Aware(at), ids, read).op;
            ValidateBreachDraft(draft, isUuid, at) == Valid && context.Some?
            && op.breach == BuildBreach(draft, context.value, at, ids.recordId, op.breach.incidentId)
  {
  }

  lemma AppliedIsStored(policy: AccessPolicy, s: Store, op: Op)
    requires op.BreachOp? && Checked(policy, op) && Supported(s, op) && Admissible(s, op)
    requires SoundAndPresentable(s) && Complete(s)
    ensures var s' := Apply(s, op);
            && SoundAndPresentable(s') && Complete(s') && op.row in s'.breaches
            && FindDecision(s'.decisions, op.row.breachId) == None
            && ReadIncident(s', op.row.incidentId) == Found(op.read)
  {
    CheckedIsShaped(policy, op);
    TransactionIsAtomic(s, op, None);
    TransactionKeepsAll(policy, s, op, None);
  }

  /** A recorded incident reads back with what its draft said. */
  lemma RecordedIncidentIsRead(policy: AccessPolicy, isUuid: string -> bool, draft: SecurityIncidentDraft,
                               context: Option<ActorContext>, clock: Timestamp, ids: Ids, s: Store)
    requires CheckIncident(policy, isUuid, draft, context, clock, ids).Proceed?
    ensures var i := ReadIncident(Apply(s, CheckIncident(policy, isUuid, draft, context, clock, ids).op), ids.recordId);
            && i.Found? && Aware(i.row.detectedAt) == draft.detectedAt && Aware(i.row.recordedAt) == clock
            && i.row.sourceEventReferenceId == draft.sourceEventReferenceId
            && i.row.evidenceReferenceId == draft.evidenceReferenceId && i.row.eventCode == draft.eventCode
            && Member(i.row.source) == draft.source && Member(i.row.severity) == draft.severity
            && Member(i.row.scopeType) == draft.scopeType && i.row.scopeId == draft.scopeId
  {
    var op := CheckIncident(policy, isUuid, draft, context, clock, ids).op;
    IncidentCheckEstablishes(policy, isUuid, draft, context, clock, ids);
    FindIncidentAppend(s.incidents, op.incident, ids.recordId);
  }

  /** A recorded decision reads back with what its draft said, never as dispatched. */
  lemma RecordedDecisionIsRead(policy: AccessPolicy, isUuid: string -> bool, draft: BreachDecisionDraft,
                               context: Option<ActorContext>, clock: Timestamp, ids: Ids, s: Store)
    requires ReadBreach(s, draft.breachId).Found?
    requires CheckDecision(policy, isUuid, draft, context, clock, ids, ReadBreach(s, draft.breachId),
                           ReadIncidentOf(s, ReadBreach(s, draft.breachId))).Proceed?
    ensures var op := CheckDecision(policy, isUuid, draft, context, clock, ids, ReadBreach(s, draft.breachId),
                                    ReadIncidentOf(s, ReadBreach(s, draft.breachId))).op;
            var d := FindDecision(Apply(s, op).decisions, draft.breachId);
            && d.Some? && Member(d.value.decision) == draft.decision && Aware(d.value.decidedAt) == draft.decidedAt
            && Aware(d.value.recordedAt) == clock && d.value.reasonCode == draft.reasonCode
            && d.value.evidenceReferenceId == draft.evidenceReferenceId && !d.value.externalNotificationDispatched
  {
    var readBreach := ReadBreach(s, draft.breachId);
    var op := CheckDecision(policy, isUuid, draft, context, clock, ids, readBreach, ReadIncidentOf(s, readBreach)).op;
    assert readBreach.row.breachId == draft.breachId;
    FindDecisionAppend(s.decisions, op.decision.(externalNotificationDispatched := false), draft.breachId);
  }

  // ----- the service -----

  function RecordedIncident(settled: Outcome<Op>): Outcome<SecurityIncident> {
    match settled
    case Done(op) => if op.IncidentOp? then Done(op.incident) else Failed(NotFound)
    case Failed(error) => Failed(error)
  }

  function RecordedBreach(settled: Outcome<Op>): Outcome<BreachSuspicion> {
    match settled
    case Done(op) => if op.BreachOp? then Done(op.breach) else Failed(NotFound)
    case Failed(error) => Failed(error)
  }

  function RecordedDecision(settled: Outcome<Op>): Outcome<BreachDecision> {
    match settled
    case Done(op) => if op.DecisionOp? then Done(op.decision) else Failed(NotFound)
    case Failed(error) => Failed(error)
  }

  /** What each recording method hands out is the record of its operation, or the error. */
  lemma RecordedIsReturned(policy: AccessPolicy, s: Store, verdict: Verdict, eventId: string, faults: Faults)
    ensures var out := Settle(policy, s, verdict, eventId, faults).1;
      && (out.Failed? ==> RecordedIncident(out) == Failed(out.error) && RecordedBreach(out) == Failed(out.error)
                          && RecordedDecision(out) == Failed(out.error))
      && (out.Done? ==>
            && verdict == Proceed(out.value)
            && (verdict.op.IncidentOp? ==> RecordedIncident(out) == Done(verdict.op.incident))
            && (verdict.op.BreachOp? ==> RecordedBreach(out) == Done(verdict.op.breach))
            && (verdict.op.DecisionOp? ==> RecordedDecision(out) == Done(verdict.op.decision)))
  {
  }

  /** A breach just read from the tables is the one they still hold. */
  lemma ReadIsSupported(s: Store, breachId: string, op: Op)
    requires op.DecisionOp? && ReadBreach(s, breachId) == Found(op.readBreach)
    requires ReadIncident(s, op.readBreach.incidentId) == Found(op.read)
    ensures Supported(s, op)
  {
  }

  /** A call that passes its checks builds a checked operation on the rows it read. */
  lemma CallIsChecked(env: Env, s: Store, call: Call, context: Option<ActorContext>, clock: Timestamp, ids: Ids,
                      failing: Option<nat>)
    ensures var verdict := JudgeCall(env, s, call, context, clock, ids, failing);
      verdict.Proceed? ==> !verdict.op.NoteOp? && Checked(env.policy, verdict.op) && Supported(s, verdict.op)
  {
    if JudgeCall(env, s, call, context, clock, ids, failing).Proceed? {
      match call {
        case IncidentCall(draft) => IncidentCheckEstablishes(env.policy, env.isUuid, draft, context, clock, ids);
        case BreachCall(draft) =>
          BreachCheckEstablishes(env.policy, env.isUuid, draft, context, clock, ids,
                                 Attempt(failing, 0, ReadIncident(s, draft.incidentId)));
        case DecisionCall(draft) =>
          PassedDecision(env, s, draft, context, clock, ids, failing);
          DecisionIsChecked(env, s, draft, context, clock, ids);
      }
    }
  }

  lemma DecisionIsChecked(env: Env, s: Store, draft: BreachDecisionDraft, context: Option<ActorContext>, clock: Timestamp, ids: Ids)
    requires FindBreach(s.breaches, draft.breachId).Some?
    requires var row := FindBreach(s.breaches, draft.breachId).value;
      CheckDecision(env.policy, env.isUuid, draft, context, clock, ids,
                    DecodeBreach(row, FindDecision(s.decisions, draft.breachId).Some?), ReadIncident(s, row.incidentId)).Proceed?
    ensures var row := FindBreach(s.breaches, draft.breachId).value;
      var op := CheckDecision(env.policy, env.isUuid, draft, context, clock, ids,
                              DecodeBreach(row, FindDecision(s.decisions, draft.breachId).Some?), ReadIncident(s, row.incidentId)).op;
      !op.NoteOp? && Checked(env.policy, op) && Supported(s, op)
  {
    var row := FindBreach(s.breaches, draft.breachId).value;
    var readBreach := DecodeBreach(row, FindDecision(s.decisions, draft.breachId).Some?);
    var op := CheckDecision(env.policy, env.isUuid, draft, context, clock, ids, readBreach, ReadIncident(s, row.incidentId)).op;
    DecisionCheckEstablishes(env.policy, env.isUuid, draft, context, clock, ids, readBreach, ReadIncident(s, row.incidentId));
    ReadIsSupported(s, draft.breachId, op);
  }

  /** What is wrong with an access policy, if anything. */
  function PolicyProblem(policy: AccessPolicy): (problem: Option<string>)
    ensures problem.None? <==>
      && ValidCode(policy.version) && ValidCode(policy.actorPolicyVersion)
      && policy.incidentRoles != {} && policy.privacyRoles != {}
      && forall role :: role in policy.incidentRoles || role in policy.privacyRoles ==> ValidCode(role)
  {
    if !ValidCode(policy.version) || !ValidCode(policy.actorPolicyVersion) then Some("Incident access policy version is invalid.")
    else if policy.incidentRoles == {} || policy.privacyRoles == {} then Some("Incident access policy roles are required.")
    else if exists role :: role in policy.incidentRoles + policy.privacyRoles && !ValidCode(role) then
      Some("Incident access policy roles are invalid.")
    else None
  }

  class Service {
    const repository: Repository
    const policy: AccessPolicy
    const isUuid: string -> bool

    constructor (repository: Repository, policy: AccessPolicy, isUuid: string -> bool)
      ensures this.repository == repository && this.policy == policy && this.isUuid == isUuid
    {
      this.repository, this.policy, this.isUuid := repository, policy, isUuid;
    }

    /** Sets a service up, or says why not; `shared` tells whether the audit outbox
        uses the repository's connection. */
    static method Open(repository: Repository, policy: AccessPolicy, isUuid: string -> bool, shared: bool)
      returns (out: Outcome<Service>)
      ensures out.Done? <==> PolicyProblem(policy).None? && shared
      ensures out.Done? ==> out.value.repository == repository && out.value.policy == policy && out.value.isUuid == isUuid
      ensures out.Failed? ==> out.error.Validation?
    {
      var problem := PolicyProblem(policy);
      if problem.Some? {
        return Failed(Validation(problem.value));
      }
      if !shared {
        return Failed(Validation("Incident repository and audit outbox must share a connection."));
      }
      var service := new Service(repository, policy, isUuid);
      out := Done(service);
    }

    /** Stages and publishes a DENIED event; returns the error to raise. */
    method RecordDenial(context: Option<ActorContext>, reason: string, at: int, eventId: string, faults: Faults)
      returns (error: Error)
      requires repository.Valid()
      modifies repository
      ensures (repository.Contents(), error)
                == SettleDenial(policy, old(repository.Contents()), context, reason, at, eventId, faults)
      ensures repository.Valid()
    {
      if faults.prepare {
        return Technical(CorrelationOf(context));
      }
      var event := DenialAudit(policy, context, reason, at, eventId);
      NoteKeepsAll(policy, repository.Contents(), event, faults.write);
      var result := repository.RecordAudit(event, faults.write);
      if result != Written || faults.publish {
        return Technical(CorrelationOf(context));
      }
      error := Authorization(reason, CorrelationOf(context));
    }

    /** Ends a call whose check phase is over: raise, deny, or write and publish. */
    method Conclude(verdict: Verdict, eventId: string, faults: Faults) returns (out: Outcome<Op>)
      requires repository.Valid()
      requires verdict.Proceed? ==> !verdict.op.NoteOp? && Checked(policy, verdict.op)
                                    && Supported(repository.Contents(), verdict.op)
      modifies repository
      ensures (repository.Contents(), out) == Settle(policy, old(repository.Contents()), verdict, eventId, faults)
      ensures repository.Valid()
    {
      SettleKeepsAll(policy, repository.Contents(), verdict, eventId, faults);
      match verdict {
        case Refuse(error) => return Failed(error);
        case Deny(context, reason, at) =>
          var error := RecordDenial(context, reason, at, eventId, faults);
          return Failed(error);
        case Proceed(op) =>
          if faults.prepare {
            return Failed(Technical(OpCorrelation(op)));
          }
          var result := Write(op, faults.write);
          match result {
            case IntegrityFailure => return Failed(Conflict);
            case DatabaseFailure => return Failed(Technical(OpCorrelation(op)));
            case Written =>
          }
          if faults.publish {
            return Failed(PublishRaised);
          }
          out := Done(op);
      }
    }

    /** Hands the built records to the repository. */
    method Write(op: Op, fault: Option<nat>) returns (result: WriteResult)
      requires !op.NoteOp? && (op.BreachOp? ==> op.row == EncodeBreach(op.breach))
      modifies repository
      ensures (result, repository.Contents()) == Transact(old(repository.Contents()), Rows(op), fault)
    {
      match op {
        case IncidentOp(_, _, incident, entry, event) =>
          result := repository.CreateIncident(incident, entry, event, fault);
        case BreachOp(_, _, _, breach, _, entries, event) =>
          RowsOfRecord(op);
          result := repository.CreateBreachSuspicion(breach, entries, event, fault);
        case DecisionOp(_, _, _, _, decision, entry, event) =>
          result := repository.AddBreachDecision(decision, entry, event, fault);
      }
    }

    method RecordSecurityIncident(draft: SecurityIncidentDraft, context: Option<ActorContext>, clock: Timestamp,
                                  ids: Ids, faults: Faults)
      returns (out: Outcome<SecurityIncident>)
      requires repository.Valid()
      modifies repository
      ensures repository.Valid()
      ensures var before := old(repository.Contents());
              var (s, settled) := Settle(policy, before,
                                         JudgeCall(Env(policy, isUuid), before, IncidentCall(draft), context, clock, ids, faults.read),
                                         ids.eventId, faults);
              repository.Contents() == s && out == RecordedIncident(settled)
    {
      var verdict := CheckIncident(policy, isUuid, draft, context, clock, ids);
      CallIsChecked(Env(policy, isUuid), repository.Contents(), IncidentCall(draft), context, clock, ids, faults.read);
      var settled := Conclude(verdict, ids.eventId, faults);
      out := RecordedIncident(settled);
    }

    method RecordBreachSuspicion(draft: BreachSuspicionDraft, context: Option<ActorContext>, clock: Timestamp,
                                 ids: Ids, faults: Faults)
      returns (out: Outcome<BreachSuspicion>)
      requires repository.Valid()
      modifies repository
      ensures repository.Valid()
      ensures var before := old(repository.Contents());
              var (s, settled) := Settle(policy, before,
                                         JudgeCall(Env(policy, isUuid), before, BreachCall(draft), context, clock, ids, faults.read),
                                         ids.eventId, faults);
              repository.Contents() == s && out == RecordedBreach(settled)
    {
      var read := Attempt(faults.read, 0, repository.GetIncident(draft.incidentId));
      var verdict := CheckBreach(policy, isUuid, draft, context, clock, ids, read);
      CallIsChecked(Env(policy, isUuid), repository.Contents(), BreachCall(draft), context, clock, ids, faults.read);
      var settled := Conclude(verdict, ids.eventId, faults);
      out := RecordedBreach(settled);
    }

    method RecordNotificationDecision(draft: BreachDecisionDraft, context: Option<ActorContext>, clock: Timestamp,
                                      ids: Ids, faults: Faults)
      returns (out: Outcome<BreachDecision>)
      requires repository.Valid()
      modifies repository
      ensures repository.Valid()
      ensures var before := old(repository.Contents());
              var (s, settled) := Settle(policy, before,
                                         JudgeCall(Env(policy, isUuid), before, DecisionCall(draft), context, clock, ids, faults.read),
                                         ids.eventId, faults);
              repository.Contents() == s && out == RecordedDecision(settled)
    {
      var verdict := CheckNotificationDecision(draft, context, clock, ids, faults);
      CallIsChecked(Env(policy, isUuid), repository.Contents(), DecisionCall(draft), context, clock, ids, faults.read);
      var settled := Conclude(verdict, ids.eventId, faults);
      out := RecordedDecision(settled);
    }

    /** The check phase of a decision: it reads the breach, and its incident if the breach was read. */
    method CheckNotificationDecision(draft: BreachDecisionDraft, context: Option<ActorContext>, clock: Timestamp,
                                     ids: Ids, faults: Faults)
      returns (verdict: Verdict)
      ensures verdict == JudgeCall(Env(policy, isUuid), repository.Contents(), DecisionCall(draft), context, clock, ids, faults.read)
    {
      var readBreach := Attempt(faults.read, 0, repository.GetBreachSuspicion(draft.breachId));
      var read := Broken;
      if readBreach.Found? {
        read := Attempt(faults.read, 1, repository.GetIncident(readBreach.row.incidentId));
      } else if readBreach.Missing? {
        read := Attempt(faults.read, 1, Missing);
      }
      verdict := CheckDecision(policy, isUuid, draft, context, clock, ids, readBreach, read);
    }

    /** Ends a view: raise, deny, or audit the view and publish before it is handed out. */
    method ConcludeView(verdict: ViewVerdict, correlationId: string, eventId: string, faults: Faults)
      returns (out: Outcome<TimelineView>)
      requires repository.Valid() && (verdict.Show? ==> verdict.event.action == TimelineViewedAction)
      modifies repository
      ensures repository.Valid()
      ensures (repository.Contents(), out)
                == SettleView(policy, old(repository.Contents()), verdict, correlationId, eventId, faults)
    {
      match verdict {
        case ViewRefuse(error) => return Failed(error);
        case ViewDeny(context, reason, at) =>
          var error := RecordDenial(context, reason, at, eventId, faults);
          return Failed(error);
        case Show(view, event) =>
          if faults.prepare {
            return Failed(Technical(correlationId));
          }
          NoteKeepsAll(policy, repository.Contents(), event, faults.write);
          var result := repository.RecordAudit(event, faults.write);
          if result != Written || faults.publish {
            return Failed(Technical(correlationId));
          }
          out := Done(view);
      }
    }

    method ViewBreachTimeline(query: TimelineQuery, context: Option<ActorContext>, clock: Timestamp, eventId: string,
                              faults: Faults)
      returns (out: Outcome<TimelineView>)
      requires repository.Valid()
      modifies repository
      ensures repository.Valid()
      ensures var before := old(repository.Contents());
              (repository.Contents(), out)
                == SettleView(policy, before, ViewBreach(policy, isUuid, query, context, clock, eventId, before, faults.read),
                              CorrelationOf(context), eventId, faults)
    {
      var verdict: ViewVerdict;
      var early := AdmitView(policy, isUuid, query, context, clock);
      if early.Some? {
        verdict := early.value;
      } else {
        verdict := ReadForView(query, context.value, clock.instant, eventId, faults);
      }
      out := ConcludeView(verdict, CorrelationOf(context), eventId, faults);
    }

    /** The five reads of a view, one after the other, as far as they are needed. */
    method ReadForView(query: TimelineQuery, c: ActorContext, now: int, eventId: string, faults: Faults)
      returns (verdict: ViewVerdict)
      ensures var s := repository.Contents();
              var breach := Attempt(faults.read, 1, ReadBreach(s, query.breachId));
              var incident := Attempt(faults.read, 2, ReadIncidentOf(s, breach));
              verdict == JudgeView(policy, query, c, now, eventId,
                                   Attempt(faults.read, 0, ReadScope(s, query.breachId)), breach, incident,
                                   Attempt(faults.read, 3, ReadDecisionOf(s, breach)),
                                   Attempt(faults.read, 4, ReadTimelineOf(s, incident)))
    {
      var technical := ViewRefuse(Technical(c.correlationId));
      var scope := Attempt(faults.read, 0, repository.GetBreachIncidentScope(query.breachId));
      if !scope.Found? {
        return if scope.Missing? then ViewRefuse(NotFound) else technical;
      }
      if !ScopeAllowed(c, scope.row.scopeType, scope.row.scopeId) {
        return ViewDeny(Some(c), "INCIDENT_SCOPE_DENIED", now);
      }
      var breach := Attempt(faults.read, 1, repository.GetBreachSuspicion(query.breachId));
      if !breach.Found? {
        return if breach.Missing? then ViewRefuse(NotFound) else technical;
      }
      var incident := Attempt(faults.read, 2, repository.GetIncident(breach.row.incidentId));
      if !incident.Found? {
        return if incident.Missing? then ViewRefuse(NotFound) else technical;
      }
      if incident.row.incidentId != scope.row.incidentId {
        return technical;
      }
      var decision := Attempt(faults.read, 3, Found(repository.GetBreachDecision(breach.row.breachId)));
      if !decision.Found? {
        return technical;
      }
      var timeline := Attempt(faults.read, 4, Found(repository.ListTimeline(incident.row.incidentId)));
      if !timeline.Found? || !TimelineIsValid(timeline.row, incident.row, breach.row, decision.row, now) {
        return technical;
      }
      var view := BuildView(policy, breach.row, decision.row, timeline.row, now);
      verdict := Show(view, ViewAudit(policy, c, query, view, eventId));
    }
  }
}
