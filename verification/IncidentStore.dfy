/** The tables behind the incident repository as one value, their constraints,
    and what a transaction does to them.  Rows are kept in insertion order. */
module IncidentStore {
  import opened IncidentModels
  import opened CategoryCodec

  datatype BreachRow = BreachRow(
    breachId: string, incidentId: string, learnedAt: int, evaluationDeadlineAt: int,
    origin: BreachOrigin, dataCategories: string, affectedScopeCode: string,
    containmentActionCode: string, evidenceReferenceId: string,
    processorNotificationEvidenceId: Option<string>, status: BreachAssessmentStatus,
    recordedBy: string, recordedAt: int)

  datatype Store = Store(
    incidents: seq<SecurityIncident>, breaches: seq<BreachRow>, decisions: seq<BreachDecision>,
    timeline: seq<TimelineEntry>, outbox: seq<AuditEvent>)

  const EMPTY_STORE := Store([], [], [], [], [])

  /** One INSERT statement. */
  datatype Row =
    | IncidentRow(incident: SecurityIncident)
    | BreachInsert(breach: BreachRow)
    | DecisionRow(decision: BreachDecision)
    | TimelineRow(entry: TimelineEntry)
    | AuditRow(event: AuditEvent)

  // ----- lookups -----

  function FindIncident(rows: seq<SecurityIncident>, id: string): (r: Option<SecurityIncident>)
    ensures r.Some? ==> r.value in rows && r.value.incidentId == id
    ensures r.None? ==> forall i :: i in rows ==> i.incidentId != id
  {
    if rows == [] then None
    else if rows[|rows| - 1].incidentId == id then Some(rows[|rows| - 1])
    else FindIncident(rows[..|rows| - 1], id)
  }

  function FindBreach(rows: seq<BreachRow>, id: string): (r: Option<BreachRow>)
    ensures r.Some? ==> r.value in rows && r.value.breachId == id
    ensures r.None? ==> forall b :: b in rows ==> b.breachId != id
  {
    if rows == [] then None
    else if rows[|rows| - 1].breachId == id then Some(rows[|rows| - 1])
    else FindBreach(rows[..|rows| - 1], id)
  }

  function BreachOfIncident(rows: seq<BreachRow>, incidentId: string): (r: Option<BreachRow>)
    ensures r.Some? ==> r.value in rows && r.value.incidentId == incidentId
    ensures r.None? ==> forall b :: b in rows ==> b.incidentId != incidentId
  {
    if rows == [] then None
    else if rows[|rows| - 1].incidentId == incidentId then Some(rows[|rows| - 1])
    else BreachOfIncident(rows[..|rows| - 1], incidentId)
  }

  function FindDecision(rows: seq<BreachDecision>, breachId: string): (r: Option<BreachDecision>)
    ensures r.Some? ==> r.value in rows && r.value.breachId == breachId
    ensures r.None? ==> forall d :: d in rows ==> d.breachId != breachId
  {
    if rows == [] then None
    else if rows[|rows| - 1].breachId == breachId then Some(rows[|rows| - 1])
    else FindDecision(rows[..|rows| - 1], breachId)
  }

  /** The timeline rows of one incident in sequence order. */
  function EntriesOf(rows: seq<TimelineEntry>, incidentId: string): seq<TimelineEntry> {
    if rows == [] then []
    else
      EntriesOf(rows[..|rows| - 1], incidentId)
      + if rows[|rows| - 1].incidentId == incidentId then [rows[|rows| - 1]] else []
  }

  // ----- reading and writing breach rows -----

  function EncodeBreach(breach: BreachSuspicion): BreachRow {
    BreachRow(
      breach.breachId, breach.incidentId, breach.learnedAt, breach.evaluationDeadlineAt, breach.origin,
      EncodeCategories(breach.dataCategories), breach.affectedScopeCode, breach.containmentActionCode,
      breach.evidenceReferenceId, breach.processorNotificationEvidenceId, breach.status,
      breach.recordedBy, breach.recordedAt)
  }

  /** The record a row denotes; the status is derived from the decision table. */
  function DecodeBreach(row: BreachRow, decisionExists: bool): Lookup<BreachSuspicion> {
    match DecodeCategories(row.dataCategories)
    case None => Broken
    case Some(categories) =>
      Found(BreachSuspicion(
        row.breachId, row.incidentId, row.learnedAt, row.evaluationDeadlineAt, row.origin, categories,
        row.affectedScopeCode, row.containmentActionCode, row.evidenceReferenceId,
        row.processorNotificationEvidenceId,
        if decisionExists then NotificationDecided else row.status,
        row.recordedBy, row.recordedAt))
  }

  // ----- constraints -----

  /** Primary key, UNIQUE and foreign key constraints of the table a row goes to. */
  predicate CanInsert(s: Store, row: Row) {
    match row
    case IncidentRow(i) =>
      forall x :: x in s.incidents ==>
        x.incidentId != i.incidentId && x.sourceEventReferenceId != i.sourceEventReferenceId
    case BreachInsert(b) =>
      && (forall x :: x in s.breaches ==> x.breachId != b.breachId && x.incidentId != b.incidentId)
      && FindIncident(s.incidents, b.incidentId).Some?
    case DecisionRow(d) =>
      && (forall x :: x in s.decisions ==> x.decisionId != d.decisionId && x.breachId != d.breachId)
      && FindBreach(s.breaches, d.breachId).Some?
    case TimelineRow(e) =>
      && (forall x :: x in s.timeline ==> x.timelineId != e.timelineId)
      && FindIncident(s.incidents, e.incidentId).Some?
      && (e.breachId.Some? ==> FindBreach(s.breaches, e.breachId.value).Some?)
    case AuditRow(a) =>
      forall x :: x in s.outbox ==> x.eventId != a.eventId
  }

  /** The table contents after an INSERT; the dispatch flag is written as false. */
  function Insert(s: Store, row: Row): Store {
    match row
    case IncidentRow(i) => s.(incidents := s.incidents + [i])
    case BreachInsert(b) => s.(breaches := s.breaches + [b])
    case DecisionRow(d) => s.(decisions := s.decisions + [d.(externalNotificationDispatched := false)])
    case TimelineRow(e) => s.(timeline := s.timeline + [e])
    case AuditRow(a) => s.(outbox := s.outbox + [a])
  }

  // ----- transactions -----

  datatype WriteResult = Written | IntegrityFailure | DatabaseFailure

  /** The statements of a transaction in order.  `fault` is the position of the
      statement (or, past the last one, of the commit) that a database error hits. */
  function InsertAll(s: Store, rows: seq<Row>, fault: Option<nat>): (WriteResult, Store)
    decreases |rows|
  {
    if fault == Some(0) then (DatabaseFailure, s)
    else if rows == [] then (Written, s)
    else if !CanInsert(s, rows[0]) then (IntegrityFailure, s)
    else InsertAll(Insert(s, rows[0]), rows[1..], if fault.Some? then Some(fault.value - 1) else None)
  }

  /** A transaction: all statements, or a rollback to the state before it. */
  function Transact(s: Store, rows: seq<Row>, fault: Option<nat>): (WriteResult, Store) {
    var (result, s') := InsertAll(s, rows, fault);
    (result, if result == Written then s' else s)
  }

  /** The first `k` statements run through. */
  predicate RunsThrough(s: Store, rows: seq<Row>, k: nat)
    requires k <= |rows|
  {
    InsertAll(s, rows[..k], None).0 == Written
  }

  /** The statement at `k` is reached and the constraints turn it down. */
  predicate TurnsDown(s: Store, rows: seq<Row>, k: nat)
    requires k < |rows|
  {
    RunsThrough(s, rows, k) && !CanInsert(InsertAll(s, rows[..k], None).1, rows[k])
  }

  lemma FirstThenRest(s: Store, rows: seq<Row>, k: nat)
    requires 0 < k <= |rows| && CanInsert(s, rows[0])
    ensures InsertAll(s, rows[..k], None) == InsertAll(Insert(s, rows[0]), rows[1..][..k - 1], None)
  {
    assert rows[..k][1..] == rows[1..][..k - 1];
  }

  lemma LaterTurnsDown(s: Store, rows: seq<Row>, k: nat)
    requires 0 < k < |rows| && CanInsert(s, rows[0])
    ensures TurnsDown(s, rows, k) <==> TurnsDown(Insert(s, rows[0]), rows[1..], k - 1)
  {
    FirstThenRest(s, rows, k);
  }

  /** How a list of statements ends: whichever comes first, the statement that the
      constraints turn down or the one that the fault hits, decides. */
  lemma {:induction false} StatementsEnd(s: Store, rows: seq<Row>, fault: Option<nat>)
    ensures var result := InsertAll(s, rows, fault).0;
      && (result == Written <==> (fault.None? || fault.value > |rows|) && RunsThrough(s, rows, |rows|))
      && (result == DatabaseFailure <==> fault.Some? && fault.value <= |rows| && RunsThrough(s, rows, fault.value))
      && (result == IntegrityFailure <==>
            exists k :: 0 <= k < |rows| && (fault.None? || k < fault.value) && TurnsDown(s, rows, k))
    decreases |rows|
  {
    assert rows[..|rows|] == rows && rows[..0] == [];
    if fault == Some(0) || rows == [] {
    } else if !CanInsert(s, rows[0]) {
      FirstTurnsDown(s, rows);
    } else {
      var next := if fault.Some? then Some(fault.value - 1) else None;
      StatementsEnd(Insert(s, rows[0]), rows[1..], next);
      EndsAlike(s, rows, fault, next);
    }
  }

  lemma FirstTurnsDown(s: Store, rows: seq<Row>)
    requires rows != [] && !CanInsert(s, rows[0])
    ensures TurnsDown(s, rows, 0) && forall k :: 0 < k <= |rows| ==> !RunsThrough(s, rows, k)
  {
    assert rows[..0] == [];
    forall k | 0 < k <= |rows| ensures !RunsThrough(s, rows, k) {
      assert rows[..k][0] == rows[0];
    }
  }

  lemma EndsAlike(s: Store, rows: seq<Row>, fault: Option<nat>, next: Option<nat>)
    requires rows != [] && CanInsert(s, rows[0]) && fault != Some(0)
    requires next == if fault.Some? then Some(fault.value - 1) else None
    ensures RunsThrough(s, rows, |rows|) <==> RunsThrough(Insert(s, rows[0]), rows[1..], |rows| - 1)
    ensures fault.Some? && fault.value <= |rows| ==>
      (RunsThrough(s, rows, fault.value) <==> RunsThrough(Insert(s, rows[0]), rows[1..], next.value))
    ensures (exists k :: 0 <= k < |rows| && (fault.None? || k < fault.value) && TurnsDown(s, rows, k))
      <==> (exists k :: 0 <= k < |rows| - 1 && (next.None? || k < next.value) && TurnsDown(Insert(s, rows[0]), rows[1..], k))
  {
    FirstThenRest(s, rows, |rows|);
    if fault.Some? && fault.value <= |rows| {
      FirstThenRest(s, rows, fault.value);
    }
    if k :| 0 <= k < |rows| && (fault.None? || k < fault.value) && TurnsDown(s, rows, k) {
      assert k != 0 by { assert rows[..0] == []; }
      LaterTurnsDown(s, rows, k);
    }
    if k :| 0 <= k < |rows| - 1 && (next.None? || k < next.value) && TurnsDown(Insert(s, rows[0]), rows[1..], k) {
      LaterTurnsDown(s, rows, k + 1);
    }
  }

  ghost predicate Extends(s: Store, s': Store) {
    && s.incidents <= s'.incidents
    && s.breaches <= s'.breaches
    && s.decisions <= s'.decisions
    && s.timeline <= s'.timeline
    && s.outbox <= s'.outbox
  }

  lemma {:induction false} InsertAllExtends(s: Store, rows: seq<Row>, fault: Option<nat>)
    ensures Extends(s, InsertAll(s, rows, fault).1)
    decreases |rows|
  {
    if fault == Some(0) || rows == [] || !CanInsert(s, rows[0]) {
    } else {
      InsertAllExtends(Insert(s, rows[0]), rows[1..], if fault.Some? then Some(fault.value - 1) else None);
    }
  }

  // ----- what holds of the tables after every single statement -----

  ghost predicate UniqueRows(s: Store) {
    && (forall j, k :: 0 <= j < k < |s.incidents| ==>
          s.incidents[j].incidentId != s.incidents[k].incidentId
          && s.incidents[j].sourceEventReferenceId != s.incidents[k].sourceEventReferenceId)
    && (forall j, k :: 0 <= j < k < |s.breaches| ==>
          s.breaches[j].breachId != s.breaches[k].breachId
          && s.breaches[j].incidentId != s.breaches[k].incidentId)
    && (forall j, k :: 0 <= j < k < |s.decisions| ==>
          s.decisions[j].decisionId != s.decisions[k].decisionId
          && s.decisions[j].breachId != s.decisions[k].breachId)
    && (forall j, k :: 0 <= j < k < |s.timeline| ==> s.timeline[j].timelineId != s.timeline[k].timelineId)
    && (forall j, k :: 0 <= j < k < |s.outbox| ==> s.outbox[j].eventId != s.outbox[k].eventId)
  }

  /** A breach row against the incident it belongs to. */
  ghost predicate BreachFits(b: BreachRow, i: SecurityIncident) {
    && b.incidentId == i.incidentId
    && i.detectedAt <= b.learnedAt <= b.recordedAt
    && b.evaluationDeadlineAt == b.learnedAt + ASSESSMENT_WINDOW
    && (b.processorNotificationEvidenceId.Some? <==> b.origin == DataProcessor)
    && b.status == AssessmentPending
  }

  /** A decision row against the breach it decides. */
  ghost predicate DecisionFits(d: BreachDecision, b: BreachRow) {
    && d.breachId == b.breachId
    && b.learnedAt <= d.decidedAt <= d.recordedAt
    && d.decidedBy != b.recordedBy
    && !d.externalNotificationDispatched
  }

  ghost predicate BreachesFit(s: Store) {
    forall b :: b in s.breaches ==>
      var i := FindIncident(s.incidents, b.incidentId); i.Some? && BreachFits(b, i.value)
  }

  ghost predicate DecisionsFit(s: Store) {
    forall d :: d in s.decisions ==>
      var b := FindBreach(s.breaches, d.breachId); b.Some? && DecisionFits(d, b.value)
  }

  ghost predicate TimelineRefers(s: Store) {
    forall e :: e in s.timeline ==>
      && FindIncident(s.incidents, e.incidentId).Some?
      && (e.breachId.Some? ==> FindBreach(s.breaches, e.breachId.value).Some?)
  }

  /** At most one breach per incident and one decision per breach, no dangling
      reference, detected <= learned <= decided <= recorded, the 72 hour deadline
      and a decider other than the breach recorder. */
  ghost predicate Sound(s: Store) {
    && UniqueRows(s)
    && (forall i :: i in s.incidents ==> i.detectedAt <= i.recordedAt)
    && BreachesFit(s)
    && DecisionsFit(s)
    && TimelineRefers(s)
  }

  /** Stored text that the read side will accept again. */
  ghost predicate PresentableRow(row: Row) {
    match row
    case IncidentRow(i) => ValidCode(i.eventCode)
    case BreachInsert(b) =>
      ValidCode(b.affectedScopeCode) && ValidCode(b.containmentActionCode) && DecodeCategories(b.dataCategories).Some?
    case DecisionRow(d) => ValidCode(d.reasonCode)
    case TimelineRow(_) => true
    case AuditRow(_) => true
  }

  ghost predicate Presentable(s: Store) {
    && (forall i :: i in s.incidents ==> PresentableRow(IncidentRow(i)))
    && (forall b :: b in s.breaches ==> PresentableRow(BreachInsert(b)))
    && (forall d :: d in s.decisions ==> PresentableRow(DecisionRow(d)))
  }

  /** The referenced row, when it is there at all, is the one the row was checked against. */
  ghost predicate RowFits(s: Store, row: Row) {
    match row
    case IncidentRow(i) => i.detectedAt <= i.recordedAt
    case BreachInsert(b) =>
      var i := FindIncident(s.incidents, b.incidentId); i.Some? ==> BreachFits(b, i.value)
    case DecisionRow(d) =>
      var b := FindBreach(s.breaches, d.breachId);
      b.Some? ==> DecisionFits(d.(externalNotificationDispatched := false), b.value)
    case TimelineRow(_) => true
    case AuditRow(_) => true
  }

  lemma FindIncidentAppend(rows: seq<SecurityIncident>, x: SecurityIncident, id: string)
    ensures FindIncident(rows + [x], id) == if x.incidentId == id then Some(x) else FindIncident(rows, id)
  {
    assert (rows + [x])[..|rows|] == rows;
  }

  lemma FindBreachAppend(rows: seq<BreachRow>, x: BreachRow, id: string)
    ensures FindBreach(rows + [x], id) == if x.breachId == id then Some(x) else FindBreach(rows, id)
    ensures BreachOfIncident(rows + [x], id) == if x.incidentId == id then Some(x) else BreachOfIncident(rows, id)
  {
    assert (rows + [x])[..|rows|] == rows;
  }

  lemma FindDecisionAppend(rows: seq<BreachDecision>, x: BreachDecision, id: string)
    ensures FindDecision(rows + [x], id) == if x.breachId == id then Some(x) else FindDecision(rows, id)
  {
    assert (rows + [x])[..|rows|] == rows;
  }

  lemma EntriesOfAppend(rows: seq<TimelineEntry>, x: TimelineEntry, id: string)
    ensures EntriesOf(rows + [x], id) == EntriesOf(rows, id) + if x.incidentId == id then [x] else []
  {
    assert (rows + [x])[..|rows|] == rows;
  }

  /** The row a lookup finds is still found after any further INSERT. */
  lemma FoundStaysFound(s: Store, row: Row, incidentId: string, breachId: string)
    requires CanInsert(s, row)
    ensures FindIncident(s.incidents, incidentId).Some? ==>
              FindIncident(Insert(s, row).incidents, incidentId) == FindIncident(s.incidents, incidentId)
    ensures FindBreach(s.breaches, breachId).Some? ==>
              FindBreach(Insert(s, row).breaches, breachId) == FindBreach(s.breaches, breachId)
  {
    match row {
      case IncidentRow(i) => FindIncidentAppend(s.incidents, i, incidentId);
      case BreachInsert(b) => FindBreachAppend(s.breaches, b, breachId);
      case DecisionRow(_) =>
      case TimelineRow(_) =>
      case AuditRow(_) =>
    }
  }

  lemma InsertKeepsUnique(s: Store, row: Row)
    requires UniqueRows(s) && CanInsert(s, row)
    ensures UniqueRows(Insert(s, row))
  {
  }

  /** No row refers to one that is not there. */
  ghost predicate Refers(s: Store) {
    && (forall b :: b in s.breaches ==> exists i :: i in s.incidents && i.incidentId == b.incidentId)
    && (forall d :: d in s.decisions ==> exists b :: b in s.breaches && b.breachId == d.breachId)
    && (forall e :: e in s.timeline ==>
          && (exists i :: i in s.incidents && i.incidentId == e.incidentId)
          && (e.breachId.Some? ==> exists b :: b in s.breaches && b.breachId == e.breachId.value))
  }

  /** The constraints admit a row exactly when the tables with it still have unique keys
      and no dangling reference: they turn nothing else down. */
  lemma AdmittedExactly(s: Store, row: Row)
    requires UniqueRows(s) && Refers(s)
    ensures CanInsert(s, row) <==> UniqueRows(Insert(s, row)) && Refers(Insert(s, row))
  {
    if CanInsert(s, row) {
      InsertKeepsUnique(s, row);
      AdmittedRefers(s, row);
    }
    if UniqueRows(Insert(s, row)) && Refers(Insert(s, row)) {
      KeptIsAdmitted(s, row);
    }
  }

  lemma SoundRefers(s: Store)
    requires BreachesFit(s) && DecisionsFit(s) && TimelineRefers(s)
    ensures Refers(s)
  {
  }

  lemma KeptIsAdmitted(s: Store, row: Row)
    requires UniqueRows(Insert(s, row)) && Refers(Insert(s, row))
    ensures CanInsert(s, row)
  {
    AddedIsNew(s, row);
    AddedRefers(s, row);
  }

  /** The keys of a row that leaves the keys unique are new. */
  lemma AddedIsNew(s: Store, row: Row)
    requires UniqueRows(Insert(s, row))
    ensures match row
            case IncidentRow(i) =>
              forall x :: x in s.incidents ==>
                x.incidentId != i.incidentId && x.sourceEventReferenceId != i.sourceEventReferenceId
            case BreachInsert(b) => forall x :: x in s.breaches ==> x.breachId != b.breachId && x.incidentId != b.incidentId
            case DecisionRow(d) => forall x :: x in s.decisions ==> x.decisionId != d.decisionId && x.breachId != d.breachId
            case TimelineRow(e) => forall x :: x in s.timeline ==> x.timelineId != e.timelineId
            case AuditRow(a) => forall x :: x in s.outbox ==> x.eventId != a.eventId
  {
    var s' := Insert(s, row);
    match row {
      case IncidentRow(i) =>
        assert s'.incidents[|s.incidents|] == i && forall j :: 0 <= j < |s.incidents| ==> s'.incidents[j] == s.incidents[j];
      case BreachInsert(b) =>
        assert s'.breaches[|s.breaches|] == b && forall j :: 0 <= j < |s.breaches| ==> s'.breaches[j] == s.breaches[j];
      case DecisionRow(d) =>
        assert s'.decisions[|s.decisions|] == d.(externalNotificationDispatched := false);
        assert forall j :: 0 <= j < |s.decisions| ==> s'.decisions[j] == s.decisions[j];
      case TimelineRow(e) =>
        assert s'.timeline[|s.timeline|] == e && forall j :: 0 <= j < |s.timeline| ==> s'.timeline[j] == s.timeline[j];
      case AuditRow(a) =>
        assert s'.outbox[|s.outbox|] == a && forall j :: 0 <= j < |s.outbox| ==> s'.outbox[j] == s.outbox[j];
    }
  }

  lemma AddedRefers(s: Store, row: Row)
    requires Refers(Insert(s, row))
    ensures row.BreachInsert? ==> FindIncident(s.incidents, row.breach.incidentId).Some?
    ensures row.DecisionRow? ==> FindBreach(s.breaches, row.decision.breachId).Some?
    ensures row.TimelineRow? ==>
      && FindIncident(s.incidents, row.entry.incidentId).Some?
      && (row.entry.breachId.Some? ==> FindBreach(s.breaches, row.entry.breachId.value).Some?)
  {
    var s' := Insert(s, row);
    match row {
      case IncidentRow(_) =>
      case BreachInsert(b) => assert b in s'.breaches;
      case DecisionRow(d) => assert d.(externalNotificationDispatched := false) in s'.decisions;
      case TimelineRow(e) => assert e in s'.timeline;
      case AuditRow(_) =>
    }
  }

  lemma AdmittedRefers(s: Store, row: Row)
    requires Refers(s) && CanInsert(s, row)
    ensures Refers(Insert(s, row))
  {
    var s' := Insert(s, row);
    forall i | i in s.incidents ensures i in s'.incidents {
    }
    forall b | b in s.breaches ensures b in s'.breaches {
    }
  }

  lemma InsertKeepsBreachesFit(s: Store, row: Row)
    requires BreachesFit(s) && CanInsert(s, row) && RowFits(s, row)
    ensures BreachesFit(Insert(s, row))
  {
    var s' := Insert(s, row);
    forall b | b in s'.breaches
      ensures var i := FindIncident(s'.incidents, b.incidentId); i.Some? && BreachFits(b, i.value)
    {
      FoundStaysFound(s, row, b.incidentId, "");
    }
  }

  lemma InsertKeepsDecisionsFit(s: Store, row: Row)
    requires DecisionsFit(s) && CanInsert(s, row) && RowFits(s, row)
    ensures DecisionsFit(Insert(s, row))
  {
    var s' := Insert(s, row);
    forall d | d in s'.decisions
      ensures var b := FindBreach(s'.breaches, d.breachId); b.Some? && DecisionFits(d, b.value)
    {
      FoundStaysFound(s, row, "", d.breachId);
    }
  }

  lemma InsertKeepsTimelineRefers(s: Store, row: Row)
    requires TimelineRefers(s) && CanInsert(s, row)
    ensures TimelineRefers(Insert(s, row))
  {
    var s' := Insert(s, row);
    forall e | e in s'.timeline
      ensures FindIncident(s'.incidents, e.incidentId).Some?
      ensures e.breachId.Some? ==> FindBreach(s'.breaches, e.breachId.value).Some?
    {
      FoundStaysFound(s, row, e.incidentId, if e.breachId.Some? then e.breachId.value else "");
    }
  }

  /** Every single statement the constraints admit keeps the tables sound,
      provided the row was checked against the row it refers to. */
  lemma InsertKeepsSound(s: Store, row: Row)
    requires Sound(s) && CanInsert(s, row) && RowFits(s, row)
    ensures Sound(Insert(s, row))
  {
    InsertKeepsUnique(s, row);
    InsertKeepsBreachesFit(s, row);
    InsertKeepsDecisionsFit(s, row);
    InsertKeepsTimelineRefers(s, row);
  }

  lemma InsertKeepsPresentable(s: Store, row: Row)
    requires Presentable(s) && PresentableRow(row)
    ensures Presentable(Insert(s, row))
  {
    if row.DecisionRow? {
      assert PresentableRow(DecisionRow(row.decision.(externalNotificationDispatched := false)));
    }
  }

  /** A stored breach reads back as the record that was written, with the status
      taken from the decision table, exactly when its category set is not empty. */
  lemma StoredBreachReadsBack(breach: BreachSuspicion, decided: bool)
    ensures DecodeBreach(EncodeBreach(breach), decided)
              == Found(breach.(status := if decided then NotificationDecided else breach.status))
            <==> breach.dataCategories != {}
    ensures breach.dataCategories == {} ==> DecodeBreach(EncodeBreach(breach), decided) == Broken
  {
    CategoriesRoundTrip(breach.dataCategories);
  }
}
