/** Reading over whole runs: when a view is answered in the middle of other
    callers' transactions, and what reading a breach back amounts to. */
module IncidentReads {
  import opened IncidentModels
  import opened IncidentStore
  import opened IncidentChecks
  import opened IncidentHistory
  import opened IncidentView
  import opened IncidentProtocol
  import opened IncidentRuns
  import opened IncidentConservation
  import opened IncidentTimelines

  // ----- the validator accepts a timeline without gaps, and no other -----

  /** A valid timeline has an entry for everything that must be in it. */
  lemma ValidHasEnough(es: seq<TimelineEntry>, i: SecurityIncident, b: BreachSuspicion, d: Option<BreachDecision>, now: int)
    requires TimelineIsValid(es, i, b, d, now)
    ensures |es| >= 3 + (if b.processorNotificationEvidenceId.Some? then 1 else 0) + (if d.Some? then 1 else 0)
  {
    var first := EntryOfType(es, SecurityIncidentRecorded);
    var second := EntryOfType(es, BreachSuspicionRecorded);
    var third := EntryOfType(es, ContainmentRecorded);
    if d.Some? {
      var decided := EntryOfType(es, NotificationDecisionRecorded);
    }
    if b.processorNotificationEvidenceId.Some? {
      var notice := EntryOfType(es, ProcessorNoticeEvidenceRecorded);
    }
  }

  lemma EntryOfType(es: seq<TimelineEntry>, t: TimelineEventType) returns (k: nat)
    requires HasType(es, t)
    ensures k < |es| && es[k].eventType == t
  {
    k :| 0 <= k < |es| && es[k].eventType == t;
  }

  lemma DueForBreach(s: Store, row: BreachRow, i: SecurityIncident)
    requires UniqueRows(s) && row in s.breaches && FindIncident(s.incidents, row.incidentId) == Some(i)
    ensures |Due(s, row.incidentId)| == 3 + (if row.processorNotificationEvidenceId.Some? then 1 else 0)
                                          + (if FindDecision(s.decisions, row.breachId).Some? then 1 else 0)
    ensures UpToDate(s, row.incidentId) <==> OnSchedule(s, i)
  {
    TheBreachOfItsIncident(s, row);
  }

  /** Where no entries are there that the tables do not call for, the validator accepts
      a stored breach if and only if none are missing and the clock is not behind. */
  lemma ValidExactlyWhenUpToDate(s: Store, row: BreachRow, i: SecurityIncident, b: BreachSuspicion, now: int)
    requires SoundAndPresentable(s) && NotAhead(s, i.incidentId)
    requires row in s.breaches && FindIncident(s.incidents, row.incidentId) == Some(i) && Denotes(row, b)
    ensures var d := FindDecision(s.decisions, row.breachId);
      TimelineIsValid(EntriesOf(s.timeline, i.incidentId), i, b, d, now)
      <==> UpToDate(s, i.incidentId) && row.recordedAt <= now && (d.Some? ==> d.value.decidedAt <= now)
  {
    var es, d := EntriesOf(s.timeline, i.incidentId), FindDecision(s.decisions, row.breachId);
    DueForBreach(s, row, i);
    if UpToDate(s, i.incidentId) {
      StoredTimelineIsValidExactly(s, row, i, b, now);
    } else if TimelineIsValid(es, i, b, d, now) {
      ValidHasEnough(es, i, b, d, now);
      assert |Told(s, i.incidentId)| == |es|;
    }
  }

  // ----- the validator on whatever entries are there -----

  /** An entry has a valid code and names the breach of its own incident, unless it is the incident's. */
  ghost predicate EntryFits(s: Store, e: TimelineEntry) {
    && ValidCode(e.reasonCode)
    && match e.breachId
       case None => e.eventType == SecurityIncidentRecorded
       case Some(id) =>
         var b := FindBreach(s.breaches, id);
         e.eventType != SecurityIncidentRecorded && b.Some? && b.value.incidentId == e.incidentId
  }

  ghost predicate EntriesFit(s: Store) {
    forall e :: e in s.timeline ==> EntryFits(s, e)
  }

  /** What a checked operation's own entries say. */
  ghost predicate OwnEntryFits(op: Op, e: TimelineEntry) {
    && ValidCode(e.reasonCode)
    && match op
       case IncidentOp(_, _, _, _, _) => e.breachId == None && e.eventType == SecurityIncidentRecorded
       case BreachOp(_, _, _, _, row, _, _) =>
         e.breachId == Some(row.breachId) && e.eventType != SecurityIncidentRecorded && e.incidentId == row.incidentId
       case DecisionOp(_, _, _, b, _, _, _) =>
         e.breachId == Some(b.breachId) && e.eventType != SecurityIncidentRecorded && e.incidentId == b.incidentId
       case NoteOp(_) => false
  }

  lemma OwnEntriesFit(policy: AccessPolicy, op: Op, e: TimelineEntry)
    requires Checked(policy, op) && e in OwnEntries(op)
    ensures OwnEntryFits(op, e)
  {
    if op.BreachOp? {
      BreachEntriesFit(op, e);
    }
  }

  lemma BreachEntriesFit(op: Op, e: TimelineEntry)
    requires op.BreachOp? && EntriesOfBreach(op.row, op.entries) && PresentableRow(BreachInsert(op.row)) && e in op.entries
    ensures OwnEntryFits(op, e)
  {
    var x, y, z :| op.entries == BreachEntries(x, y, z, op.row);
    ProcessorNoticeCodeIsValid();
  }

  /** A breach stored under the operation's identifiers is the one it means. */
  ghost predicate MeansItsBreach(s: Store, op: Op) {
    match op
    case IncidentOp(_, _, _, _, _) => true
    case BreachOp(_, _, _, _, row, _, _) =>
      var b := FindBreach(s.breaches, row.breachId); b.Some? ==> b.value.incidentId == row.incidentId
    case DecisionOp(_, _, _, read, _, _, _) =>
      var b := FindBreach(s.breaches, read.breachId); b.Some? ==> b.value.incidentId == read.incidentId
    case NoteOp(_) => true
  }

  lemma OpenMeansItsBreach(policy: AccessPolicy, m: Machine)
    requires Safe(policy, m) && m.open.Some?
    ensures MeansItsBreach(m.conn, m.open.value.op) && Checked(policy, m.open.value.op)
  {
    var op := m.open.value.op;
    IssuedIsSupported(policy, m, m.conn, op);
    if op.BreachOp? {
      DrawnBreachIsIts(m.issued, m.conn, op);
    }
  }

  lemma DrawnBreachIsIts(issued: map<string, Op>, s: Store, op: Op)
    requires RowsIssued(issued, s) && Drawn(issued, op) && op.BreachOp?
    ensures MeansItsBreach(s, op)
  {
    if FindBreach(s.breaches, op.row.breachId).Some? {
      assert BreachIssued(issued, FindBreach(s.breaches, op.row.breachId).value);
    }
  }

  lemma StatementKeepsFit(policy: AccessPolicy, s: Store, op: Op, k: nat)
    requires Checked(policy, op) && MeansItsBreach(s, op) && EntriesFit(s) && k < |Rows(op)| && CanInsert(s, Rows(op)[k])
    ensures EntriesFit(Insert(s, Rows(op)[k]))
  {
    var row := Rows(op)[k];
    if row.TimelineRow? {
      EntryRow(op, k);
      OwnEntriesFit(policy, op, row.entry);
      EntryKeepsFit(s, op, row.entry);
    } else {
      RecordKeepsFit(s, row);
    }
  }

  lemma EntryRow(op: Op, k: nat)
    requires k < |Rows(op)| && Rows(op)[k].TimelineRow?
    ensures Rows(op)[k].entry in OwnEntries(op)
  {
    StatementKinds(op, k);
    if 0 < k < |Rows(op)| - 1 {
      EntryStatement(op, k);
    }
  }

  lemma EntryKeepsFit(s: Store, op: Op, e: TimelineEntry)
    requires MeansItsBreach(s, op) && EntriesFit(s) && OwnEntryFits(op, e) && CanInsert(s, TimelineRow(e))
    ensures EntriesFit(Insert(s, TimelineRow(e)))
  {
    assert EntryFits(s, e);
  }

  lemma RecordKeepsFit(s: Store, row: Row)
    requires EntriesFit(s) && CanInsert(s, row) && !row.TimelineRow?
    ensures EntriesFit(Insert(s, row))
  {
    forall e | e in s.timeline ensures EntryFits(Insert(s, row), e) {
      FoundStaysFound(s, row, "", if e.breachId.Some? then e.breachId.value else "");
    }
  }

  lemma NextKeepsFit(env: Env, m: Machine, a: Action)
    requires Safe(env.policy, m) && EntriesFit(m.conn) && EntriesFit(m.committed) && Next(env, m, a).Some?
    ensures EntriesFit(Next(env, m, a).value.conn) && EntriesFit(Next(env, m, a).value.committed)
  {
    if StandsBy(a) {
      StandingBy(env, m, a);
    } else if a.Exec? {
      OpenMeansItsBreach(env.policy, m);
      StatementKeepsFit(env.policy, m.conn, m.open.value.op, m.open.value.done);
    }
  }

  lemma {:induction false} EveryEntryFits(env: Env, start: int, acts: seq<Action>)
    requires Execute(env, start, acts).Some?
    ensures EntriesFit(Execute(env, start, acts).value.conn) && EntriesFit(Execute(env, start, acts).value.committed)
  {
    if acts != [] {
      var front := acts[..|acts| - 1];
      EveryEntryFits(env, start, front);
      EveryRunIsSafe(env, start, front);
      NextKeepsFit(env, Execute(env, start, front).value, acts[|acts| - 1]);
    }
  }

  /** The types of the entries that a breach and its decision, if there is one, call for. */
  predicate Called(t: TimelineEventType, row: BreachRow, d: Option<BreachDecision>) {
    match t
    case ProcessorNoticeEvidenceRecorded => row.processorNotificationEvidenceId.Some?
    case NotificationDecisionRecorded => d.Some?
    case _ => true
  }

  /** One entry of each type that is called for, and no other. */
  ghost predicate OneOfEach(es: seq<TimelineEntry>, row: BreachRow, d: Option<BreachDecision>) {
    DistinctTypes(es) && forall t :: HasType(es, t) <==> Called(t, row, d)
  }

  predicate NoneLater(es: seq<TimelineEntry>, now: int) {
    forall e :: e in es ==> e.eventAt <= now
  }

  lemma {:induction false} EntriesOfIncident(rows: seq<TimelineEntry>, id: string, e: TimelineEntry)
    requires e in EntriesOf(rows, id)
    ensures e in rows && e.incidentId == id
  {
    if rows != [] && e in EntriesOf(rows[..|rows| - 1], id) {
      EntriesOfIncident(rows[..|rows| - 1], id, e);
    }
  }

  lemma DistinctTypesAreFew(es: seq<TimelineEntry>)
    requires DistinctTypes(es)
    ensures |es| <= 5
  {
    if |es| > 5 {
      FiveTypes(es[0].eventType, es[1].eventType, es[2].eventType, es[3].eventType, es[4].eventType, es[5].eventType);
    }
  }

  lemma FiveTypes(a: TimelineEventType, b: TimelineEventType, c: TimelineEventType, d: TimelineEventType,
                  e: TimelineEventType, f: TimelineEventType)
    ensures a == b || a == c || a == d || a == e || a == f || b == c || b == d || b == e || b == f
         || c == d || c == e || c == f || d == e || d == f || e == f
  {
  }

  /** On fitting entries the validator asks for one entry of each type that the breach
      and the decision it is given call for, and for a clock that is not behind any of
      the entries that are there. */
  lemma ValidExactlyWhenOneEach(s: Store, row: BreachRow, i: SecurityIncident, b: BreachSuspicion, d: Option<BreachDecision>,
                                now: int)
    requires SoundAndPresentable(s) && EntriesFit(s)
    requires row in s.breaches && FindIncident(s.incidents, row.incidentId) == Some(i) && Denotes(row, b)
    ensures var es := EntriesOf(s.timeline, i.incidentId);
      TimelineIsValid(es, i, b, d, now) <==> OneOfEach(es, row, d) && NoneLater(es, now)
  {
    var es := EntriesOf(s.timeline, i.incidentId);
    forall e | e in es ensures EntryIsValid(e, i.incidentId, b.breachId, now) <==> e.eventAt <= now {
      EntriesOfIncident(s.timeline, i.incidentId, e);
      OwnBreachOfEntry(s, row, e);
    }
    TypesDecide(es, i, b, row, d, now);
  }

  lemma OwnBreachOfEntry(s: Store, row: BreachRow, e: TimelineEntry)
    requires UniqueRows(s) && row in s.breaches && EntryFits(s, e) && e.incidentId == row.incidentId
    ensures e.breachId == if e.eventType == SecurityIncidentRecorded then None else Some(row.breachId)
  {
    if e.breachId.Some? {
      DistinctBreaches(s, row, FindBreach(s.breaches, e.breachId.value).value);
    }
  }

  lemma TypesDecide(es: seq<TimelineEntry>, i: SecurityIncident, b: BreachSuspicion, row: BreachRow, d: Option<BreachDecision>,
                    now: int)
    requires b.processorNotificationEvidenceId == row.processorNotificationEvidenceId
    requires forall e :: e in es ==> (EntryIsValid(e, i.incidentId, b.breachId, now) <==> e.eventAt <= now)
    ensures TimelineIsValid(es, i, b, d, now) <==> OneOfEach(es, row, d) && NoneLater(es, now)
  {
    if OneOfEach(es, row, d) {
      DistinctTypesAreFew(es);
      assert forall t :: Called(t, row, d) ==> HasType(es, t);
      assert Called(SecurityIncidentRecorded, row, d) && Called(BreachSuspicionRecorded, row, d) && Called(ContainmentRecorded, row, d);
      var first := EntryOfType(es, SecurityIncidentRecorded);
      var second := EntryOfType(es, BreachSuspicionRecorded);
      var third := EntryOfType(es, ContainmentRecorded);
      assert HasType(es, ProcessorNoticeEvidenceRecorded) <==> b.processorNotificationEvidenceId.Some?;
      assert HasType(es, NotificationDecisionRecorded) <==> d.Some?;
    }
    if TimelineIsValid(es, i, b, d, now) {
      forall t ensures HasType(es, t) <==> Called(t, row, d) {
      }
    }
  }

  // ----- views in the middle of transactions -----

  ghost predicate StoredWith(s: Store, row: BreachRow, i: SecurityIncident) {
    SoundAndPresentable(s) && row in s.breaches && FindIncident(s.incidents, row.incidentId) == Some(i)
  }

  lemma DistinctBreaches(s: Store, a: BreachRow, b: BreachRow)
    requires UniqueRows(s) && a in s.breaches && b in s.breaches
    ensures a.breachId == b.breachId || a.incidentId == b.incidentId ==> a == b
  {
    TheBreachOfItsIncident(s, a);
    TheBreachOfItsIncident(s, b);
  }

  /** In any state of any run, whatever publishers do, an authorized, well-formed, in-scope
      query for a visible breach, committed or not, is answered if and only if the stored
      timeline has one entry of each type that the breach and its decision call for and no
      other, and the clock is not behind any of them; otherwise it fails as a technical error. */
  lemma ViewInEveryStateExactly(env: Env, start: int, acts: seq<Action>, row: BreachRow, i: SecurityIncident,
                                query: TimelineQuery, c: ActorContext, now: int, eventId: string)
    requires Execute(env, start, acts).Some? && StoredWith(Execute(env, start, acts).value.conn, row, i)
    requires row.breachId == query.breachId && env.isUuid(query.breachId) && ValidCode(query.reasonCode)
    requires Authorized(c, env.policy.privacyRoles, env.policy.actorPolicyVersion, now) && ScopeAllowed(c, i.scopeType, i.scopeId)
    ensures var s := Execute(env, start, acts).value.conn;
      var es := EntriesOf(s.timeline, i.incidentId);
      var verdict := ViewBreach(env.policy, env.isUuid, query, Some(c), Aware(now), eventId, s, None);
      && (verdict.Show? <==> OneOfEach(es, row, FindDecision(s.decisions, row.breachId)) && NoneLater(es, now))
      && (!verdict.Show? ==> verdict == ViewRefuse(Technical(c.correlationId)))
  {
    var s := Execute(env, start, acts).value.conn;
    EveryEntryFits(env, start, acts);
    AuthorizedIsAdmitted(env.policy, env.isUuid, query, c, now);
    ViewFollowsValidator(env.policy, env.isUuid, query, c, now, eventId, s, row, i);
    ValidExactlyWhenOneEach(s, row, i, ReadBreach(s, row.breachId).row, FindDecision(s.decisions, row.breachId), now);
  }

  /** In any state of any run in which no publisher fails inside a transaction of the
      incident, an authorized, well-formed, in-scope query for a visible breach,
      committed or not, is answered if and only if no transaction of the incident was
      ever cut between its record and its last entry, none is in the middle of its
      entries, and the clock is not behind the recorded events; otherwise it fails as a
      technical error.  What happens to other incidents does not matter. */
  lemma ViewOverRunsExactly(env: Env, start: int, acts: seq<Action>, row: BreachRow, i: SecurityIncident, query: TimelineQuery,
                            c: ActorContext, now: int, eventId: string)
    requires Execute(env, start, acts).Some? && Throughout(LosesNothingOf(i.incidentId), env, start, acts)
    requires StoredWith(Execute(env, start, acts).value.conn, row, i)
    requires row.breachId == query.breachId && env.isUuid(query.breachId) && ValidCode(query.reasonCode)
    requires Authorized(c, env.policy.privacyRoles, env.policy.actorPolicyVersion, now) && ScopeAllowed(c, i.scopeType, i.scopeId)
    ensures var m := Execute(env, start, acts).value;
      var d := FindDecision(m.conn.decisions, row.breachId);
      var verdict := ViewBreach(env.policy, env.isUuid, query, Some(c), Aware(now), eventId, m.conn, None);
      && (verdict.Show? <==>
            && Throughout(UncutOf(i.incidentId), env, start, acts) && !Midway(m, i.incidentId)
            && row.recordedAt <= now && (d.Some? ==> d.value.decidedAt <= now))
      && (!verdict.Show? ==> verdict == ViewRefuse(Technical(c.correlationId)))
  {
    var m := Execute(env, start, acts).value;
    VisibleTimelineIsUpToDateExactly(env, start, acts, i.incidentId);
    AuthorizedIsAdmitted(env.policy, env.isUuid, query, c, now);
    ViewFollowsValidator(env.policy, env.isUuid, query, c, now, eventId, m.conn, row, i);
    ValidExactlyWhenUpToDate(m.conn, row, i, ReadBreach(m.conn, row.breachId).row, now);
  }

  /** The open transaction has inserted a decision on the breach and not yet its entry. */
  predicate Deciding(m: Machine, breachId: string) {
    && m.open.Some? && m.open.value.op.DecisionOp? && m.open.value.done == 1
    && m.open.value.op.decision.breachId == breachId
  }

  /** With a clock that is not behind the system's, a breach that was stored before the
      open transaction began is shown if and only if no transaction of its incident was
      ever cut, and the open one has not inserted a decision on it without its entry. */
  lemma CommittedBreachIsViewedExactly(env: Env, start: int, acts: seq<Action>, row: BreachRow, i: SecurityIncident,
                                       query: TimelineQuery, c: ActorContext, now: int, eventId: string)
    requires Execute(env, start, acts).Some? && Throughout(LosesNothingOf(i.incidentId), env, start, acts)
    requires var m := Execute(env, start, acts).value;
      StoredWith(m.conn, row, i) && m.now <= now && row in Resting(m).breaches
    requires row.breachId == query.breachId && env.isUuid(query.breachId) && ValidCode(query.reasonCode)
    requires Authorized(c, env.policy.privacyRoles, env.policy.actorPolicyVersion, now) && ScopeAllowed(c, i.scopeType, i.scopeId)
    ensures var m := Execute(env, start, acts).value;
      ViewBreach(env.policy, env.isUuid, query, Some(c), Aware(now), eventId, m.conn, None).Show?
      <==> Throughout(UncutOf(i.incidentId), env, start, acts) && !Deciding(m, row.breachId)
  {
    ViewOverRunsExactly(env, start, acts, row, i, query, c, now, eventId);
    RecordedInThePast(env, start, acts, row, i);
    MidwayIsDeciding(env, start, acts, row, i);
  }

  /** Only a decision can be in the middle of the timeline of a breach stored before. */
  lemma MidwayIsDeciding(env: Env, start: int, acts: seq<Action>, row: BreachRow, i: SecurityIncident)
    requires Execute(env, start, acts).Some? && Throughout(LosesNothingOf(i.incidentId), env, start, acts)
    requires var m := Execute(env, start, acts).value; StoredWith(m.conn, row, i) && row in Resting(m).breaches
    ensures var m := Execute(env, start, acts).value; Midway(m, i.incidentId) <==> Deciding(m, row.breachId)
  {
    var m := Execute(env, start, acts).value;
    if m.open.Some? && m.open.value.done > 0 {
      var tx := m.open.value;
      OpenHoldsParts(env, start, acts);
      OpenIsReady(env, start, acts);
      OwnerOfDecision(env.policy, m.conn, tx.op, row);
      if Concerns(tx.op, i.incidentId) {
        CarefulRunsLoseNothingOf(env, start, acts, i.incidentId);
        RecordIsThere(tx, m.conn);
        NoSecondBreach(tx, m.conn, row);
      }
    }
  }

  lemma OpenIsReady(env: Env, start: int, acts: seq<Action>)
    requires Execute(env, start, acts).Some? && Execute(env, start, acts).value.open.Some?
    ensures var m := Execute(env, start, acts).value;
      var tx := m.open.value;
      && Checked(env.policy, tx.op) && SoundAndPresentable(tx.base) && SoundAndPresentable(m.conn) && Supported(m.conn, tx.op)
      && Tracked(m)
  {
    var m := Execute(env, start, acts).value;
    EveryRunIsTracked(env, start, acts);
    EveryBaseIsSafe(env, start, acts);
    EveryRunIsSafe(env, start, acts);
    IssuedIsSupported(env.policy, m, m.conn, m.open.value.op);
  }

  lemma OwnerOfDecision(policy: AccessPolicy, s: Store, op: Op, row: BreachRow)
    requires SoundAndPresentable(s) && Supported(s, op) && Checked(policy, op) && row in s.breaches
    ensures op.DecisionOp? ==> |OwnEntries(op)| == 1 && (op.decision.breachId == row.breachId ==> Owner(op) == row.incidentId)
  {
    TheBreachOfItsIncident(s, row);
  }

  lemma RecordIsThere(tx: Tx, s: Store)
    requires tx.kept == Span(0, tx.start) && tx.done > 0 && HoldsPart(s, tx, Running(tx)) && !tx.op.NoteOp?
    ensures s.breaches == tx.base.breaches + (if tx.op.BreachOp? then [tx.op.row] else [])
    ensures tx.op.DecisionOp? ==> s.decisions != [] && s.decisions[|s.decisions| - 1].breachId == tx.op.decision.breachId
  {
    assert 0 in Running(tx);
  }

  /** The incident of a stored breach is not being recorded, nor another breach of it,
      and a decision on a breach of it is one on this breach. */
  lemma NoSecondBreach(tx: Tx, s: Store, row: BreachRow)
    requires Sound(s) && Sound(tx.base) && row in tx.base.breaches && Unseen(tx.base, tx.op)
    requires s.breaches == tx.base.breaches + (if tx.op.BreachOp? then [tx.op.row] else [])
    requires tx.op.DecisionOp? ==> s.decisions != [] && s.decisions[|s.decisions| - 1].breachId == tx.op.decision.breachId
    requires Concerns(tx.op, row.incidentId) && Supported(s, tx.op)
    requires tx.op.DecisionOp? ==> tx.op.read.incidentId == tx.op.readBreach.incidentId
                                   && tx.op.decision.breachId == tx.op.readBreach.breachId
    ensures tx.op.DecisionOp? && tx.op.decision.breachId == row.breachId
  {
    if tx.op.BreachOp? {
      AppendedIsOther(tx.base.breaches, tx.op.row, s, row);
    } else if tx.op.DecisionOp? {
      assert s.decisions[|s.decisions| - 1] in s.decisions;
      var decided := FindBreach(s.breaches, tx.op.decision.breachId).value;
      DistinctBreaches(s, row, decided);
    }
  }

  lemma AppendedIsOther(rows: seq<BreachRow>, other: BreachRow, s: Store, row: BreachRow)
    requires UniqueRows(s) && s.breaches == rows + [other] && row in rows
    ensures row.incidentId != other.incidentId
  {
    var k :| 0 <= k < |rows| && rows[k] == row;
    assert s.breaches[k] == row && s.breaches[|rows|] == other;
  }

  lemma RecordedInThePast(env: Env, start: int, acts: seq<Action>, row: BreachRow, i: SecurityIncident)
    requires Execute(env, start, acts).Some? && StoredWith(Execute(env, start, acts).value.conn, row, i)
    ensures var m := Execute(env, start, acts).value;
      var d := FindDecision(m.conn.decisions, row.breachId);
      row.recordedAt <= m.now && (d.Some? ==> d.value.decidedAt <= m.now)
  {
    var m := Execute(env, start, acts).value;
    BreachWasAuthorized(env, start, acts, row, i);
    var d := FindDecision(m.conn.decisions, row.breachId);
    if d.Some? {
      DecisionWasAuthorized(env, start, acts, d.value, row, i);
    }
  }

  // ----- views whose reads are made at different moments -----

  /** A view whose five reads see the tables as they are one after the other. */
  function ViewAtMoments(policy: AccessPolicy, isUuid: string -> bool, query: TimelineQuery, context: Option<ActorContext>,
                         clock: Timestamp, eventId: string, seen: seq<Store>): ViewVerdict
    requires |seen| == 5
  {
    match AdmitView(policy, isUuid, query, context, clock)
    case Some(early) => early
    case None =>
      var breach := ReadBreach(seen[1], query.breachId);
      var incident := ReadIncidentOf(seen[2], breach);
      JudgeView(policy, query, context.value, clock.instant, eventId, ReadScope(seen[0], query.breachId), breach, incident,
                ReadDecisionOf(seen[3], breach), ReadTimelineOf(seen[4], incident))
  }

  ghost predicate AllStoredWith(seen: seq<Store>, row: BreachRow, i: SecurityIncident) {
    forall k :: 0 <= k < |seen| ==> StoredWith(seen[k], row, i)
  }

  /** What such a view shows of the breach and of its decision. */
  ghost predicate ShowsMoments(view: TimelineView, seen: seq<Store>, breachId: string)
    requires |seen| == 5
  {
    && (view.status == NotificationDecided <==> FindDecision(seen[1].decisions, breachId).Some?)
    && (view.decision.Some? <==> FindDecision(seen[3].decisions, breachId).Some?)
  }

  lemma MomentsAreJudged(policy: AccessPolicy, isUuid: string -> bool, query: TimelineQuery, c: ActorContext, now: int,
                         eventId: string, seen: seq<Store>, row: BreachRow, i: SecurityIncident)
    requires |seen| == 5 && AllStoredWith(seen, row, i)
    requires row.breachId == query.breachId && AdmitView(policy, isUuid, query, Some(c), Aware(now)) == None
    ensures ReadBreach(seen[1], row.breachId).Found? && Denotes(row, ReadBreach(seen[1], row.breachId).row)
    ensures (ReadBreach(seen[1], row.breachId).row.status == NotificationDecided)
              <==> FindDecision(seen[1].decisions, row.breachId).Some?
    ensures ViewAtMoments(policy, isUuid, query, Some(c), Aware(now), eventId, seen)
      == JudgeView(policy, query, c, now, eventId, Found(i), Found(ReadBreach(seen[1], row.breachId).row), Found(i),
                   Found(FindDecision(seen[3].decisions, row.breachId)), Found(EntriesOf(seen[4].timeline, i.incidentId)))
  {
    StoredReads(seen[0], row, i);
    StoredReads(seen[1], row, i);
    StoredBreachIsReadable(seen[1], row);
    assert StoredWith(seen[2], row, i);
  }

  lemma JudgedShows(policy: AccessPolicy, query: TimelineQuery, c: ActorContext, now: int, eventId: string,
                    i: SecurityIncident, b: BreachSuspicion, d: Option<BreachDecision>, es: seq<TimelineEntry>)
    ensures var verdict := JudgeView(policy, query, c, now, eventId, Found(i), Found(b), Found(i), Found(d), Found(es));
      verdict.Show? ==>
        verdict.view.status == b.status && verdict.view.decision == (if d.Some? then Some(d.value.decision) else None)
  {
  }

  lemma ViewAtMomentsExactly(policy: AccessPolicy, isUuid: string -> bool, query: TimelineQuery, c: ActorContext, now: int,
                             eventId: string, seen: seq<Store>, row: BreachRow, i: SecurityIncident)
    requires |seen| == 5 && EntriesFit(seen[4]) && AllStoredWith(seen, row, i)
    requires row.breachId == query.breachId && AdmitView(policy, isUuid, query, Some(c), Aware(now)) == None
    requires ScopeAllowed(c, i.scopeType, i.scopeId)
    ensures var verdict := ViewAtMoments(policy, isUuid, query, Some(c), Aware(now), eventId, seen);
      var es := EntriesOf(seen[4].timeline, i.incidentId);
      && (verdict.Show? <==> OneOfEach(es, row, FindDecision(seen[3].decisions, row.breachId)) && NoneLater(es, now))
      && (verdict.Show? ==> ShowsMoments(verdict.view, seen, row.breachId))
      && (!verdict.Show? ==> verdict == ViewRefuse(Technical(c.correlationId)))
  {
    MomentsAreJudged(policy, isUuid, query, c, now, eventId, seen, row, i);
    var b, d := ReadBreach(seen[1], row.breachId).row, FindDecision(seen[3].decisions, row.breachId);
    var es := EntriesOf(seen[4].timeline, i.incidentId);
    JudgedByValidator(policy, query, c, now, eventId, i, b, d, es);
    JudgedShows(policy, query, c, now, eventId, i, b, d, es);
    ValidExactlyWhenOneEach(seen[4], row, i, b, d, now);
  }

  lemma {:induction false} PrefixRuns(env: Env, start: int, acts: seq<Action>, n: nat)
    requires Execute(env, start, acts).Some? && n <= |acts|
    ensures Execute(env, start, acts[..n]).Some?
  {
    if n == |acts| {
      assert acts[..n] == acts;
    } else {
      assert acts[..|acts| - 1][..n] == acts[..n];
      PrefixRuns(env, start, acts[..|acts| - 1], n);
    }
  }

  /** What the connection shows after the first `n` steps of a run. */
  function SeenAfter(env: Env, start: int, acts: seq<Action>, n: nat): Store
    requires Execute(env, start, acts).Some? && n <= |acts|
  {
    PrefixRuns(env, start, acts, n);
    Execute(env, start, acts[..n]).value.conn
  }

  ghost predicate CommittedWith(s: Store, row: BreachRow, i: SecurityIncident) {
    row in s.breaches && FindIncident(s.incidents, row.incidentId) == Some(i)
  }

  /** A committed breach is there in all later states, and entries always fit. */
  lemma CommittedIsSeen(env: Env, start: int, acts: seq<Action>, more: seq<Action>, row: BreachRow, i: SecurityIncident)
    requires Execute(env, start, acts).Some? && Execute(env, start, acts + more).Some?
    requires CommittedWith(Execute(env, start, acts).value.committed, row, i)
    ensures StoredWith(Execute(env, start, acts + more).value.conn, row, i)
    ensures EntriesFit(Execute(env, start, acts + more).value.conn)
  {
    var m, m' := Execute(env, start, acts).value, Execute(env, start, acts + more).value;
    CommittedOnlyGrows(env, start, acts, more);
    EveryRunIsSafe(env, start, acts + more);
    EveryEntryFits(env, start, acts + more);
    StoredStays(m.committed, m'.committed, row, i);
    StoredStays(m'.committed, m'.conn, row, i);
  }

  lemma StoredStays(s: Store, t: Store, row: BreachRow, i: SecurityIncident)
    requires CommittedWith(s, row, i) && Extends(s, t) && UniqueRows(t)
    ensures CommittedWith(t, row, i)
  {
    assert i in s.incidents && i in t.incidents;
  }

  lemma SeenCommitted(env: Env, start: int, acts: seq<Action>, n: nat, k: nat, row: BreachRow, i: SecurityIncident)
    requires Execute(env, start, acts).Some? && n <= k <= |acts| && Execute(env, start, acts[..n]).Some?
    requires CommittedWith(Execute(env, start, acts[..n]).value.committed, row, i)
    ensures StoredWith(SeenAfter(env, start, acts, k), row, i) && EntriesFit(SeenAfter(env, start, acts, k))
  {
    PrefixRuns(env, start, acts, k);
    Between(acts, n, k);
    CommittedIsSeen(env, start, acts[..n], acts[n..k], row, i);
  }

  lemma Between<T>(s: seq<T>, n: nat, k: nat)
    requires n <= k <= |s|
    ensures s[..n] + s[n..k] == s[..k]
  {
  }

  /** The moments of a view's five reads, none before the first. */
  ghost predicate Moments(acts: seq<Action>, at: seq<nat>) {
    |at| == 5 && forall k :: 0 <= k < 5 ==> at[0] <= at[k] <= |acts|
  }

  function SeenAt(env: Env, start: int, acts: seq<Action>, at: seq<nat>): (seen: seq<Store>)
    requires Execute(env, start, acts).Some? && Moments(acts, at)
    ensures |seen| == 5
  {
    seq(5, k requires 0 <= k < 5 => SeenAfter(env, start, acts, at[k]))
  }

  /** A view of a breach that was committed when its first read was made, with other
      callers' and publishers' steps between any of its reads, is shown if and only if the
      timeline it reads has one entry of each type that the breach and the decision it
      reads call for, and its clock is not behind them.  Its status tells of the moment of
      the second read, its decision of the fourth. */
  lemma StraddlingViewExactly(env: Env, start: int, acts: seq<Action>, at: seq<nat>, row: BreachRow, i: SecurityIncident,
                              query: TimelineQuery, c: ActorContext, now: int, eventId: string)
    requires Execute(env, start, acts).Some? && Moments(acts, at)
    requires Execute(env, start, acts[..at[0]]).Some?
             && CommittedWith(Execute(env, start, acts[..at[0]]).value.committed, row, i)
    requires row.breachId == query.breachId && env.isUuid(query.breachId) && ValidCode(query.reasonCode)
    requires Authorized(c, env.policy.privacyRoles, env.policy.actorPolicyVersion, now) && ScopeAllowed(c, i.scopeType, i.scopeId)
    ensures var seen := SeenAt(env, start, acts, at);
      var verdict := ViewAtMoments(env.policy, env.isUuid, query, Some(c), Aware(now), eventId, seen);
      var es := EntriesOf(seen[4].timeline, i.incidentId);
      && (verdict.Show? <==> OneOfEach(es, row, FindDecision(seen[3].decisions, row.breachId)) && NoneLater(es, now))
      && (verdict.Show? ==> ShowsMoments(verdict.view, seen, row.breachId))
      && (!verdict.Show? ==> verdict == ViewRefuse(Technical(c.correlationId)))
  {
    var seen := SeenAt(env, start, acts, at);
    forall k | 0 <= k < 5 ensures StoredWith(seen[k], row, i) && EntriesFit(seen[k]) {
      SeenCommitted(env, start, acts, at[0], at[k], row, i);
    }
    AuthorizedIsAdmitted(env.policy, env.isUuid, query, c, now);
    ViewAtMomentsExactly(env.policy, env.isUuid, query, c, now, eventId, seen, row, i);
  }

  /** Entries that are up to date are one of each type that the tables call for. */
  lemma UpToDateIsOneOfEach(s: Store, row: BreachRow, i: SecurityIncident, now: int)
    requires StoredWith(s, row, i) && EntriesFit(s) && UpToDate(s, i.incidentId)
    ensures var es, d := EntriesOf(s.timeline, i.incidentId), FindDecision(s.decisions, row.breachId);
      && OneOfEach(es, row, d)
      && (NoneLater(es, now) <==> row.recordedAt <= now && (d.Some? ==> d.value.decidedAt <= now))
  {
    var d := FindDecision(s.decisions, row.breachId);
    StoredBreachIsReadable(s, row);
    var b := ReadBreach(s, row.breachId).row;
    var late := if d.Some? && d.value.decidedAt > row.recordedAt then d.value.decidedAt else row.recordedAt;
    ValidExactlyWhenUpToDate(s, row, i, b, late);
    ValidExactlyWhenOneEach(s, row, i, b, d, late);
    ValidExactlyWhenUpToDate(s, row, i, b, now);
    ValidExactlyWhenOneEach(s, row, i, b, d, now);
  }

  /** If the incident's transactions left nothing out and none is in the middle of its
      entries at the last read, such a view is shown if and only if no decision came, or
      went, between its last two reads, and its clock is not behind. */
  lemma StraddlingViewOverRunsExactly(env: Env, start: int, acts: seq<Action>, at: seq<nat>, row: BreachRow, i: SecurityIncident,
                                      query: TimelineQuery, c: ActorContext, now: int, eventId: string)
    requires Execute(env, start, acts).Some? && Moments(acts, at)
    requires Execute(env, start, acts[..at[0]]).Some?
             && CommittedWith(Execute(env, start, acts[..at[0]]).value.committed, row, i)
    requires row.breachId == query.breachId && env.isUuid(query.breachId) && ValidCode(query.reasonCode)
    requires Authorized(c, env.policy.privacyRoles, env.policy.actorPolicyVersion, now) && ScopeAllowed(c, i.scopeType, i.scopeId)
    requires Execute(env, start, acts[..at[4]]).Some? && !Midway(Execute(env, start, acts[..at[4]]).value, i.incidentId)
    requires Throughout(LosesNothingOf(i.incidentId), env, start, acts[..at[4]])
    requires Throughout(UncutOf(i.incidentId), env, start, acts[..at[4]])
    ensures var seen := SeenAt(env, start, acts, at);
      var d := FindDecision(seen[4].decisions, row.breachId);
      ViewAtMoments(env.policy, env.isUuid, query, Some(c), Aware(now), eventId, seen).Show?
      <==> && (FindDecision(seen[3].decisions, row.breachId).Some? <==> d.Some?)
           && row.recordedAt <= now && (d.Some? ==> d.value.decidedAt <= now)
  {
    var seen := SeenAt(env, start, acts, at);
    var d, before := FindDecision(seen[4].decisions, row.breachId), FindDecision(seen[3].decisions, row.breachId);
    var es := EntriesOf(seen[4].timeline, i.incidentId);
    StraddlingViewExactly(env, start, acts, at, row, i, query, c, now, eventId);
    SeenCommitted(env, start, acts, at[0], at[4], row, i);
    VisibleTimelineIsUpToDateExactly(env, start, acts[..at[4]], i.incidentId);
    UpToDateIsOneOfEach(seen[4], row, i, now);
    OneOfEachTells(es, row, before, d);
  }

  lemma OneOfEachTells(es: seq<TimelineEntry>, row: BreachRow, x: Option<BreachDecision>, y: Option<BreachDecision>)
    requires OneOfEach(es, row, y)
    ensures OneOfEach(es, row, x) <==> (x.Some? <==> y.Some?)
  {
    assert Called(NotificationDecisionRecorded, row, x) <==> x.Some?;
    assert Called(NotificationDecisionRecorded, row, y) <==> y.Some?;
    if x.Some? <==> y.Some? {
      forall t ensures Called(t, row, x) <==> Called(t, row, y) {
      }
    }
  }

  /** `t` holds a decision on the breach, with its entry, that `s` does not hold. */
  ghost predicate JustDecided(s: Store, t: Store, row: BreachRow, i: SecurityIncident, d: BreachDecision) {
    && StoredWith(s, row, i) && StoredWith(t, row, i) && OnSchedule(t, i)
    && FindDecision(s.decisions, row.breachId) == None && FindDecision(t.decisions, row.breachId) == Some(d)
  }

  /** A view that makes three reads before a decision and two after it shows the decision
      together with the status of an undecided breach. */
  lemma ViewCanDisagree(policy: AccessPolicy, isUuid: string -> bool, query: TimelineQuery, c: ActorContext, now: int,
                        eventId: string, seen: seq<Store>, row: BreachRow, i: SecurityIncident, d: BreachDecision)
    requires |seen| == 5 && seen[0] == seen[1] == seen[2] && seen[3] == seen[4]
    requires JustDecided(seen[0], seen[4], row, i, d)
    requires row.breachId == query.breachId && AdmitView(policy, isUuid, query, Some(c), Aware(now)) == None
    requires ScopeAllowed(c, i.scopeType, i.scopeId) && row.recordedAt <= now && d.decidedAt <= now
    ensures var verdict := ViewAtMoments(policy, isUuid, query, Some(c), Aware(now), eventId, seen);
      verdict.Show? && verdict.view.status != NotificationDecided && verdict.view.decision == Some(d.decision)
  {
    EachStoredWith(seen, row, i);
    DecidedInBetween(policy, isUuid, query, c, now, eventId, seen, row, i, d);
  }

  lemma DecidedInBetween(policy: AccessPolicy, isUuid: string -> bool, query: TimelineQuery, c: ActorContext, now: int,
                         eventId: string, seen: seq<Store>, row: BreachRow, i: SecurityIncident, d: BreachDecision)
    requires |seen| == 5 && AllStoredWith(seen, row, i) && OnSchedule(seen[4], i)
    requires FindDecision(seen[1].decisions, row.breachId) == None
    requires FindDecision(seen[3].decisions, row.breachId) == FindDecision(seen[4].decisions, row.breachId) == Some(d)
    requires row.breachId == query.breachId && AdmitView(policy, isUuid, query, Some(c), Aware(now)) == None
    requires ScopeAllowed(c, i.scopeType, i.scopeId) && row.recordedAt <= now && d.decidedAt <= now
    ensures var verdict := ViewAtMoments(policy, isUuid, query, Some(c), Aware(now), eventId, seen);
      verdict.Show? && verdict.view.status != NotificationDecided && verdict.view.decision == Some(d.decision)
  {
    MomentsAreJudged(policy, isUuid, query, c, now, eventId, seen, row, i);
    var b, es := ReadBreach(seen[1], row.breachId).row, EntriesOf(seen[4].timeline, i.incidentId);
    StoredTimelineIsValidExactly(seen[4], row, i, b, now);
    ValidIsShown(policy, query, c, now, eventId, i, b, d, es);
  }

  lemma ValidIsShown(policy: AccessPolicy, query: TimelineQuery, c: ActorContext, now: int, eventId: string,
                     i: SecurityIncident, b: BreachSuspicion, d: BreachDecision, es: seq<TimelineEntry>)
    requires ScopeAllowed(c, i.scopeType, i.scopeId) && TimelineIsValid(es, i, b, Some(d), now)
    ensures var verdict := JudgeView(policy, query, c, now, eventId, Found(i), Found(b), Found(i), Found(Some(d)), Found(es));
      verdict.Show? && verdict.view.status == b.status && verdict.view.decision == Some(d.decision)
  {
  }

  lemma EachStoredWith(seen: seq<Store>, row: BreachRow, i: SecurityIncident)
    requires |seen| == 5 && StoredWith(seen[0], row, i) && StoredWith(seen[1], row, i) && StoredWith(seen[2], row, i)
    requires StoredWith(seen[3], row, i) && StoredWith(seen[4], row, i)
    ensures AllStoredWith(seen, row, i)
  {
  }

  /** Every decision transaction on complete tables is such a decision. */
  lemma EveryDecisionCanBeStraddled(policy: AccessPolicy, s: Store, op: Op, row: BreachRow, i: SecurityIncident)
    requires StoredWith(s, row, i) && Complete(s) && op.DecisionOp? && op.decision.breachId == row.breachId
    requires Checked(policy, op) && Supported(s, op) && Admissible(s, op)
    ensures JustDecided(s, Apply(s, op), row, i, op.decision) && op.decision.decidedAt <= op.at
  {
    DecisionIsApplied(policy, s, op, i);
    DecisionIsFound(s, op.decision);
  }

  lemma DecisionIsApplied(policy: AccessPolicy, s: Store, op: Op, i: SecurityIncident)
    requires SoundAndPresentable(s) && Complete(s) && op.DecisionOp? && i in s.incidents
    requires Checked(policy, op) && Supported(s, op) && Admissible(s, op)
    ensures SoundAndPresentable(Apply(s, op)) && OnSchedule(Apply(s, op), i)
    ensures Apply(s, op).decisions == s.decisions + [op.decision] && op.decision.decidedAt <= op.at
  {
    CheckedIsShaped(policy, op);
    TransactionIsAtomic(s, op, None);
    TransactionKeepsAll(policy, s, op, None);
    assert op.decision.(externalNotificationDispatched := false) == op.decision;
  }

  lemma DecisionIsFound(s: Store, d: BreachDecision)
    requires CanInsert(s, DecisionRow(d))
    ensures FindDecision(s.decisions, d.breachId) == None && FindDecision(s.decisions + [d], d.breachId) == Some(d)
  {
    FindDecisionAppend(s.decisions, d, d.breachId);
  }

  // ----- the append-only tables as a mutable-status store -----

  lemma BreachIsPosted(policy: AccessPolicy, s: Store, op: Op, id: string)
    requires SoundAndPresentable(s) && Checked(policy, op) && op.BreachOp? && CanInsert(s, FirstRow(op))
    ensures ReadBreach(Insert(s, FirstRow(op)), id) == if id == op.breach.breachId then Found(op.breach) else ReadBreach(s, id)
  {
    FindBreachAppend(s.breaches, op.row, id);
    NewBreachReadsBack(s, op.breach, op.row);
  }

  lemma DecisionIsPosted(s: Store, op: Op, id: string)
    requires op.DecisionOp?
    ensures ReadBreach(Insert(s, FirstRow(op)), id)
              == if id == op.decision.breachId && ReadBreach(s, id).Found? then
                   Found(ReadBreach(s, id).row.(status := NotificationDecided))
                 else ReadBreach(s, id)
  {
    FindDecisionAppend(s.decisions, op.decision.(externalNotificationDispatched := false), id);
  }

  lemma ReadsFollowTables(s: Store, t: Store, id: string)
    requires s.breaches == t.breaches && s.decisions == t.decisions
    ensures ReadBreach(s, id) == ReadBreach(t, id)
  {
  }

  /** Reading a breach back behaves as if the decision operation had changed a
      status field in place, although no row is ever updated. */
  lemma TablesRefineMutableStatus(policy: AccessPolicy, s: Store, op: Op, id: string)
    requires SoundAndPresentable(s) && Checked(policy, op) && CanInsert(s, FirstRow(op))
    ensures ReadBreach(Insert(s, FirstRow(op)), id)
              == if op.BreachOp? && id == op.breach.breachId then Found(op.breach)
                 else if op.DecisionOp? && id == op.decision.breachId && ReadBreach(s, id).Found? then
                   Found(ReadBreach(s, id).row.(status := NotificationDecided))
                 else ReadBreach(s, id)
  {
    if op.BreachOp? {
      BreachIsPosted(policy, s, op, id);
    } else if op.DecisionOp? {
      DecisionIsPosted(s, op, id);
    } else {
      ReadsFollowTables(s, Insert(s, FirstRow(op)), id);
    }
  }

  lemma NewBreachReadsBack(s: Store, b: BreachSuspicion, row: BreachRow)
    requires row == EncodeBreach(b) && row.status == AssessmentPending && PresentableRow(BreachInsert(row))
    requires DecisionsFit(s) && CanInsert(s, BreachInsert(row))
    ensures DecodeBreach(row, FindDecision(s.decisions, row.breachId).Some?) == Found(b)
  {
    assert FindDecision(s.decisions, row.breachId) == None;
    StoredBreachReadsBack(b, false);
  }

  /** The operations whose record was left when their transactions ended, in order. */
  ghost function StoredOps(env: Env, start: int, acts: seq<Action>): seq<Op> {
    if acts == [] then []
    else
      var front, a := acts[..|acts| - 1], acts[|acts| - 1];
      StoredOps(env, start, front)
      + match Execute(env, start, front)
        case None => []
        case Some(m) => if Ends(m, a) && 0 in Surviving(m, a) then [m.open.value.op] else []
  }

  /** And the open one, once its record can be seen. */
  ghost function VisibleOps(env: Env, start: int, acts: seq<Action>): seq<Op>
    requires Execute(env, start, acts).Some?
  {
    var m := Execute(env, start, acts).value;
    StoredOps(env, start, acts) + if m.open.Some? && 0 in Running(m.open.value) then [m.open.value.op] else []
  }

  /** A store of breaches by identifier whose status a decision sets in place. */
  type Ledger = map<string, BreachSuspicion>

  function Post(ledger: Ledger, op: Op): Ledger {
    match op
    case IncidentOp(_, _, _, _, _) => ledger
    case BreachOp(_, _, _, b, _, _, _) => ledger[b.breachId := b]
    case DecisionOp(_, _, _, _, d, _, _) =>
      if d.breachId in ledger then ledger[d.breachId := ledger[d.breachId].(status := NotificationDecided)] else ledger
    case NoteOp(_) => ledger
  }

  function Replay(ops: seq<Op>): Ledger {
    if ops == [] then map[] else Post(Replay(ops[..|ops| - 1]), ops[|ops| - 1])
  }

  function ReadLedger(ledger: Ledger, id: string): Lookup<BreachSuspicion> {
    if id in ledger then Found(ledger[id]) else Missing
  }

  ghost predicate ReadsAs(s: Store, ledger: Ledger) {
    forall id :: ReadBreach(s, id) == ReadLedger(ledger, id)
  }

  lemma PostIsReadAt(policy: AccessPolicy, s: Store, op: Op, ledger: Ledger, id: string)
    requires SoundAndPresentable(s) && Checked(policy, op) && CanInsert(s, FirstRow(op))
    requires ReadBreach(s, id) == ReadLedger(ledger, id)
    ensures ReadBreach(Insert(s, FirstRow(op)), id) == ReadLedger(Post(ledger, op), id)
  {
    TablesRefineMutableStatus(policy, s, op, id);
  }

  lemma PostIsRead(policy: AccessPolicy, s: Store, op: Op, ledger: Ledger)
    requires SoundAndPresentable(s) && Checked(policy, op) && CanInsert(s, FirstRow(op)) && ReadsAs(s, ledger)
    ensures ReadsAs(Insert(s, FirstRow(op)), Post(ledger, op))
  {
    var s' := Insert(s, FirstRow(op));
    forall id ensures ReadBreach(s', id) == ReadLedger(Post(ledger, op), id) {
      PostIsReadAt(policy, s, op, ledger, id);
    }
  }

  lemma SameReads(s: Store, t: Store, ledger: Ledger)
    requires s.breaches == t.breaches && s.decisions == t.decisions && ReadsAs(s, ledger)
    ensures ReadsAs(t, ledger)
  {
    forall id ensures ReadBreach(t, id) == ReadLedger(ledger, id) {
      ReadsFollowTables(s, t, id);
    }
  }

  /** A record that has been inserted was admitted by the tables the transaction began on. */
  ghost predicate Admitted(m: Machine) {
    m.open.Some? && m.open.value.done > 0 ==> CanInsert(m.open.value.base, FirstRow(m.open.value.op))
  }

  lemma NextKeepsAdmitted(env: Env, m: Machine, a: Action)
    requires Tracked(m) && Admitted(m) && Next(env, m, a).Some?
    ensures Admitted(Next(env, m, a).value)
  {
    if a.Exec? && m.open.value.done == 0 {
      FirstIsAdmitted(m);
    }
  }

  lemma FirstIsAdmitted(m: Machine)
    requires Tracked(m) && m.open.Some? && m.open.value.done == 0
    ensures m.conn == m.open.value.base
    ensures Rows(m.open.value.op) != [] && Rows(m.open.value.op)[0] == FirstRow(m.open.value.op)
  {
    SettledSpans(m.open.value.kept, m.open.value.start, 0);
  }

  lemma {:induction false} EveryRecordIsAdmitted(env: Env, start: int, acts: seq<Action>)
    requires Execute(env, start, acts).Some?
    ensures Admitted(Execute(env, start, acts).value)
  {
    if acts != [] {
      var front := acts[..|acts| - 1];
      EveryRecordIsAdmitted(env, start, front);
      EveryRunIsTracked(env, start, front);
      NextKeepsAdmitted(env, Execute(env, start, front).value, acts[|acts| - 1]);
    }
  }

  /** What tables with a part of a transaction read like. */
  lemma PartIsRead(policy: AccessPolicy, s: Store, tx: Tx, positions: set<int>, ledger: Ledger)
    requires HoldsPart(s, tx, positions) && SoundAndPresentable(tx.base) && Checked(policy, tx.op)
    requires 0 in positions ==> CanInsert(tx.base, FirstRow(tx.op))
    requires ReadsAs(tx.base, ledger)
    ensures ReadsAs(s, if 0 in positions then Post(ledger, tx.op) else ledger)
  {
    if 0 in positions {
      PostIsRead(policy, tx.base, tx.op, ledger);
      SameReads(Insert(tx.base, FirstRow(tx.op)), s, Post(ledger, tx.op));
    } else {
      SameReads(tx.base, s, ledger);
    }
  }

  lemma OpenIsRead(env: Env, start: int, acts: seq<Action>, s: Store, positions: set<int>, ledger: Ledger)
    requires Execute(env, start, acts).Some? && Execute(env, start, acts).value.open.Some?
    requires var m := Execute(env, start, acts).value;
      && HoldsPart(s, m.open.value, positions) && positions <= Running(m.open.value)
      && ReadsAs(m.open.value.base, ledger)
    ensures ReadsAs(s, if 0 in positions then Post(ledger, Execute(env, start, acts).value.open.value.op) else ledger)
  {
    var m := Execute(env, start, acts).value;
    OpenIsReady(env, start, acts);
    EveryRecordIsAdmitted(env, start, acts);
    PartIsRead(env.policy, s, m.open.value, positions, ledger);
  }

  lemma ReplayOneMore(ops: seq<Op>, op: Op)
    ensures Replay(ops + [op]) == Post(Replay(ops), op)
    ensures ops + [] == ops
  {
    assert (ops + [op])[..|ops|] == ops;
  }

  /** In every run, whatever publishers do, the append-only tables between transactions
      read like a store in which the operations whose record was left changed the
      status in place. */
  lemma {:induction false} RunsRefineMutableStatus(env: Env, start: int, acts: seq<Action>)
    requires Execute(env, start, acts).Some?
    ensures ReadsAs(Resting(Execute(env, start, acts).value), Replay(StoredOps(env, start, acts)))
  {
    if acts != [] {
      var front, a := acts[..|acts| - 1], acts[|acts| - 1];
      var m, ops := Execute(env, start, front).value, StoredOps(env, start, front);
      RunsRefineMutableStatus(env, start, front);
      EveryRunIsTracked(env, start, front);
      if Ends(m, a) {
        ReplayOneMore(ops, m.open.value.op);
        EveryRunTracksRecords(env, start, front);
        OpenIsRead(env, start, front, Next(env, m, a).value.committed, Surviving(m, a), Replay(ops));
      } else {
        RestingStays(env, m, a);
        assert ops + [] == ops;
      }
    }
  }

  /** In the middle of a transaction the unlocked reads see the open operation in place
      as soon as its record is inserted. */
  lemma VisibleRefinesMutableStatus(env: Env, start: int, acts: seq<Action>)
    requires Execute(env, start, acts).Some?
    ensures ReadsAs(Execute(env, start, acts).value.conn, Replay(VisibleOps(env, start, acts)))
  {
    var m, ops := Execute(env, start, acts).value, StoredOps(env, start, acts);
    RunsRefineMutableStatus(env, start, acts);
    EveryRunIsTracked(env, start, acts);
    if m.open.Some? {
      ReplayOneMore(ops, m.open.value.op);
      EveryRunTracksRecords(env, start, acts);
      OpenIsRead(env, start, acts, m.conn, Running(m.open.value), Replay(ops));
    } else {
      assert ops + [] == ops;
    }
  }
}
