/** What complete transactions leave behind: the timeline and the audit outbox
    are determined, row for row, by the three record tables. */
module IncidentHistory {
  import opened IncidentModels
  import opened IncidentStore
  import opened IncidentChecks

  // ----- the effect of one whole transaction -----

  function Apply(s: Store, op: Op): Store {
    match op
    case IncidentOp(_, _, i, e, a) =>
      s.(incidents := s.incidents + [i], timeline := s.timeline + [e], outbox := s.outbox + [a])
    case BreachOp(_, _, _, _, row, es, a) =>
      s.(breaches := s.breaches + [row], timeline := s.timeline + es, outbox := s.outbox + [a])
    case DecisionOp(_, _, _, _, d, e, a) =>
      s.(decisions := s.decisions + [d.(externalNotificationDispatched := false)],
         timeline := s.timeline + [e], outbox := s.outbox + [a])
    case NoteOp(a) => s.(outbox := s.outbox + [a])
  }

  /** The entries an operation adds all belong to one incident. */
  function OwnEntries(op: Op): seq<TimelineEntry> {
    match op
    case IncidentOp(_, _, _, e, _) => [e]
    case BreachOp(_, _, _, _, _, es, _) => es
    case DecisionOp(_, _, _, _, _, e, _) => [e]
    case NoteOp(_) => []
  }

  ghost predicate FreshEntries(s: Store, es: seq<TimelineEntry>) {
    && (forall e, x :: e in es && x in s.timeline ==> e.timelineId != x.timelineId)
    && (forall j, k :: 0 <= j < k < |es| ==> es[j].timelineId != es[k].timelineId)
  }

  /** The first statement of an operation and the rows after it. */
  function FirstRow(op: Op): Row {
    match op
    case IncidentOp(_, _, i, _, _) => IncidentRow(i)
    case BreachOp(_, _, _, _, row, _, _) => BreachInsert(row)
    case DecisionOp(_, _, _, _, d, _, _) => DecisionRow(d)
    case NoteOp(a) => AuditRow(a)
  }

  /** When the whole transaction is admitted, said of the tables before it. */
  ghost predicate Admissible(s: Store, op: Op) {
    && CanInsert(s, FirstRow(op))
    && FreshEntries(s, OwnEntries(op))
    && CanInsert(s, AuditRow(op.event))
    && (op.DecisionOp? ==> FindIncident(s.incidents, op.entry.incidentId).Some?)
  }

  function NextFault(fault: Option<nat>): Option<nat>
    requires fault != Some(0)
  {
    if fault.Some? then Some(fault.value - 1) else None
  }

  lemma RunFirst(s: Store, row: Row, rest: seq<Row>, fault: Option<nat>)
    ensures InsertAll(s, [row] + rest, fault)
              == if fault == Some(0) then (DatabaseFailure, s)
                 else if !CanInsert(s, row) then (IntegrityFailure, s)
                 else InsertAll(Insert(s, row), rest, NextFault(fault))
  {
    assert ([row] + rest)[1..] == rest;
  }

  /** The rows the entries refer to are stored. */
  ghost predicate Anchored(s: Store, es: seq<TimelineEntry>) {
    forall e :: e in es ==>
      && FindIncident(s.incidents, e.incidentId).Some?
      && (e.breachId.Some? ==> FindBreach(s.breaches, e.breachId.value).Some?)
  }

  function TimelineAndAudit(es: seq<TimelineEntry>, a: AuditEvent): seq<Row> {
    TimelineRows(es) + [AuditRow(a)]
  }

  predicate FreshOneByOne(s: Store, es: seq<TimelineEntry>)
    decreases |es|
  {
    es != [] ==>
      && (forall x :: x in s.timeline ==> x.timelineId != es[0].timelineId)
      && FreshOneByOne(Insert(s, TimelineRow(es[0])), es[1..])
  }

  lemma AnchoredTail(s: Store, es: seq<TimelineEntry>)
    requires Anchored(s, es) && es != []
    ensures Anchored(Insert(s, TimelineRow(es[0])), es[1..])
    ensures FindIncident(s.incidents, es[0].incidentId).Some?
    ensures es[0].breachId.Some? ==> FindBreach(s.breaches, es[0].breachId.value).Some?
    ensures Insert(s, TimelineRow(es[0])).timeline + es[1..] == s.timeline + es
  {
    assert es[0] in es;
    assert forall e :: e in es[1..] ==> e in es;
    assert es == [es[0]] + es[1..];
  }

  /** What appending entries and staging an audit event amounts to. */
  ghost predicate AppendsEntries(s: Store, es: seq<TimelineEntry>, a: AuditEvent, fault: Option<nat>, result: WriteResult, s': Store) {
    && (result == Written ==> s' == s.(timeline := s.timeline + es, outbox := s.outbox + [a]))
    && (result == Written <==>
          (fault.None? || fault.value > |es| + 1) && FreshOneByOne(s, es) && CanInsert(s, AuditRow(a)))
    && (result == DatabaseFailure ==> fault.Some?)
    && (result == IntegrityFailure ==> !(FreshOneByOne(s, es) && CanInsert(s, AuditRow(a))))
  }

  lemma {:induction false} EntriesThenAudit(s: Store, es: seq<TimelineEntry>, a: AuditEvent, fault: Option<nat>)
    requires Anchored(s, es)
    ensures var r := InsertAll(s, TimelineAndAudit(es, a), fault); AppendsEntries(s, es, a, fault, r.0, r.1)
    decreases |es|
  {
    if es == [] {
      assert TimelineAndAudit(es, a) == [AuditRow(a)] + [];
      RunFirst(s, AuditRow(a), [], fault);
      assert s.timeline + es == s.timeline;
    } else {
      var rest := TimelineAndAudit(es[1..], a);
      assert TimelineAndAudit(es, a) == [TimelineRow(es[0])] + rest;
      RunFirst(s, TimelineRow(es[0]), rest, fault);
      AnchoredTail(s, es);
      if fault != Some(0) && CanInsert(s, TimelineRow(es[0])) {
        EntriesThenAudit(Insert(s, TimelineRow(es[0])), es[1..], a, NextFault(fault));
      }
    }
  }

  lemma FreshTail(s: Store, es: seq<TimelineEntry>)
    requires es != [] && forall x :: x in s.timeline ==> x.timelineId != es[0].timelineId
    ensures FreshEntries(s, es) <==> FreshEntries(Insert(s, TimelineRow(es[0])), es[1..])
  {
    var s1 := Insert(s, TimelineRow(es[0]));
    assert es == [es[0]] + es[1..];
    if FreshEntries(s1, es[1..]) {
      forall j, k | 0 <= j < k < |es| ensures es[j].timelineId != es[k].timelineId {
        if j == 0 {
          assert es[k] == es[1..][k - 1];
          assert es[0] in s1.timeline;
        } else {
          assert es[j] == es[1..][j - 1] && es[k] == es[1..][k - 1];
        }
      }
      forall e, x | e in es && x in s.timeline ensures e.timelineId != x.timelineId {
        assert x in s1.timeline;
      }
    }
    if FreshEntries(s, es) {
      forall e, x | e in es[1..] && x in s1.timeline ensures e.timelineId != x.timelineId {
        var k :| 0 <= k < |es[1..]| && es[1..][k] == e;
        assert e == es[k + 1];
      }
    }
  }

  ghost predicate EntriesBelong(op: Op) {
    match op
    case IncidentOp(_, _, i, e, _) => e.incidentId == i.incidentId && e.breachId == None
    case BreachOp(_, _, _, _, row, es, _) =>
      forall e :: e in es ==> e.incidentId == row.incidentId && e.breachId == Some(row.breachId)
    case DecisionOp(_, _, _, _, d, e, _) => e.breachId == Some(d.breachId)
    case NoteOp(_) => true
  }

  lemma RowsOfRecord(op: Op)
    requires !op.NoteOp?
    ensures Rows(op) == [FirstRow(op)] + TimelineAndAudit(OwnEntries(op), op.event)
    ensures |Rows(op)| == |OwnEntries(op)| + 2
  {
    if !op.BreachOp? {
      assert TimelineRows([op.entry]) == [TimelineRow(op.entry)];
    }
  }

  lemma FirstRowAnchors(s: Store, op: Op)
    requires EntriesBelong(op) && !op.NoteOp? && CanInsert(s, FirstRow(op))
    requires op.DecisionOp? ==> FindIncident(s.incidents, op.entry.incidentId).Some?
    ensures Anchored(Insert(s, FirstRow(op)), OwnEntries(op))
  {
    match op {
      case IncidentOp(_, _, i, _, _) => FindIncidentAppend(s.incidents, i, i.incidentId);
      case BreachOp(_, _, _, _, row, _, _) => FindBreachAppend(s.breaches, row, row.breachId);
      case DecisionOp(_, _, _, _, _, _, _) =>
      case NoteOp(_) =>
    }
  }

  lemma UnanchoredDecisionFails(s: Store, op: Op, fault: Option<nat>)
    requires op.DecisionOp? && fault != Some(0)
    requires CanInsert(s, FirstRow(op)) && FindIncident(s.incidents, op.entry.incidentId).None?
    ensures InsertAll(s, Rows(op), fault).0 != Written
    ensures InsertAll(s, Rows(op), fault).0 == DatabaseFailure ==> fault.Some?
  {
    var tail := [TimelineRow(op.entry), AuditRow(op.event)];
    assert Rows(op) == [FirstRow(op)] + tail;
    RunFirst(s, FirstRow(op), tail, fault);
    assert tail == [TimelineRow(op.entry)] + [AuditRow(op.event)];
    RunFirst(Insert(s, FirstRow(op)), TimelineRow(op.entry), [AuditRow(op.event)], NextFault(fault));
  }

  lemma {:induction false} FreshOneByOneMeans(s: Store, es: seq<TimelineEntry>)
    ensures FreshOneByOne(s, es) <==> FreshEntries(s, es)
    decreases |es|
  {
    if es != [] {
      assert es[0] in es;
      FreshOneByOneMeans(Insert(s, TimelineRow(es[0])), es[1..]);
      if forall x :: x in s.timeline ==> x.timelineId != es[0].timelineId {
        FreshTail(s, es);
      }
    }
  }

  lemma AfterFirstRow(s: Store, op: Op, fault: Option<nat>)
    requires EntriesBelong(op) && !op.NoteOp? && CanInsert(s, FirstRow(op))
    requires op.DecisionOp? ==> FindIncident(s.incidents, op.entry.incidentId).Some?
    ensures var r := InsertAll(Insert(s, FirstRow(op)), TimelineAndAudit(OwnEntries(op), op.event), fault);
            && (r.0 == Written ==> r.1 == Apply(s, op))
            && (r.0 == Written <==> (fault.None? || fault.value > |OwnEntries(op)| + 1) && Admissible(s, op))
            && (r.0 == DatabaseFailure ==> fault.Some?)
            && (r.0 == IntegrityFailure ==> !Admissible(s, op))
  {
    var s1, es := Insert(s, FirstRow(op)), OwnEntries(op);
    FirstRowAnchors(s, op);
    EntriesThenAudit(s1, es, op.event, fault);
    FreshOneByOneMeans(s1, es);
    assert FreshEntries(s1, es) <==> FreshEntries(s, es);
    assert Apply(s, op) == s1.(timeline := s1.timeline + es, outbox := s1.outbox + [op.event]);
  }

  /** A transaction is all or nothing: it stores exactly the operation's rows
      when every constraint admits them and no statement fails, and that can be
      told beforehand from the tables alone. */
  lemma TransactionIsAtomic(s: Store, op: Op, fault: Option<nat>)
    requires EntriesBelong(op)
    ensures var (result, s') := Transact(s, Rows(op), fault);
            && (result == Written ==> s' == Apply(s, op))
            && (result != Written ==> s' == s)
            && (result == Written <==> (fault.None? || fault.value > |Rows(op)|) && Admissible(s, op))
            && (result == DatabaseFailure ==> fault.Some?)
            && (result == IntegrityFailure ==> !Admissible(s, op))
  {
    if op.NoteOp? {
      assert Rows(op) == [AuditRow(op.event)] + [];
      RunFirst(s, AuditRow(op.event), [], fault);
    } else {
      RowsOfRecord(op);
      RunFirst(s, FirstRow(op), TimelineAndAudit(OwnEntries(op), op.event), fault);
      if fault != Some(0) && CanInsert(s, FirstRow(op)) {
        if op.DecisionOp? && FindIncident(s.incidents, op.entry.incidentId).None? {
          UnanchoredDecisionFails(s, op, fault);
        } else {
          AfterFirstRow(s, op, NextFault(fault));
        }
      }
    }
  }

  /** The check phase never looked at a row other than the one now stored. */
  ghost predicate Denotes(row: BreachRow, breach: BreachSuspicion) {
    exists decided :: DecodeBreach(row, decided) == Found(breach)
  }

  ghost predicate Supported(s: Store, op: Op) {
    match op
    case IncidentOp(_, _, _, _, _) => true
    case BreachOp(_, _, read, _, _, _, _) =>
      var i := FindIncident(s.incidents, read.incidentId); i.Some? ==> i.value == read
    case DecisionOp(_, _, read, readBreach, _, _, _) =>
      && (var i := FindIncident(s.incidents, read.incidentId); i.Some? ==> i.value == read)
      && (var b := FindBreach(s.breaches, readBreach.breachId); b.Some? ==> Denotes(b.value, readBreach))
    case NoteOp(_) => true
  }

  lemma CheckedRowFits(policy: AccessPolicy, s: Store, op: Op, k: nat)
    requires Checked(policy, op) && Supported(s, op) && k < |Rows(op)|
    ensures RowFits(s, Rows(op)[k])
  {
    if op.BreachOp? {
      assert Rows(op)[k] == BreachInsert(op.row) || Rows(op)[k].TimelineRow? || Rows(op)[k].AuditRow?;
    }
  }

  // ----- the timeline and the outbox as functions of the record tables -----

  function Blank(e: TimelineEntry): TimelineEntry {
    e.(timelineId := "")
  }

  /** Entries without their random identifiers. */
  function Blanks(es: seq<TimelineEntry>): seq<TimelineEntry> {
    seq(|es|, k requires 0 <= k < |es| => Blank(es[k]))
  }

  /** What a decision adds to the timeline of an incident's breach, if it is there. */
  function DecisionPart(decisions: seq<BreachDecision>, b: BreachRow): seq<TimelineEntry> {
    match FindDecision(decisions, b.breachId)
    case None => []
    case Some(d) => [DecisionEntry("", b.incidentId, d)]
  }

  function BreachPart(breaches: seq<BreachRow>, decisions: seq<BreachDecision>, incidentId: string): seq<TimelineEntry> {
    match BreachOfIncident(breaches, incidentId)
    case None => []
    case Some(b) => BreachEntries("", "", "", b) + DecisionPart(decisions, b)
  }

  function ExpectedTimeline(s: Store, i: SecurityIncident): seq<TimelineEntry> {
    [IncidentEntry("", i)] + BreachPart(s.breaches, s.decisions, i.incidentId)
  }

  /** The objects of the SUCCESS events of one action, in outbox order. */
  function AuditedObjects(outbox: seq<AuditEvent>, action: AuditAction): seq<Option<string>> {
    if outbox == [] then []
    else
      var last := outbox[|outbox| - 1];
      AuditedObjects(outbox[..|outbox| - 1], action)
      + if last.action == action && last.result == Success then [last.objectId] else []
  }

  function IncidentIds(rows: seq<SecurityIncident>): seq<Option<string>> {
    if rows == [] then [] else IncidentIds(rows[..|rows| - 1]) + [Some(rows[|rows| - 1].incidentId)]
  }

  function BreachIds(rows: seq<BreachRow>): seq<Option<string>> {
    if rows == [] then [] else BreachIds(rows[..|rows| - 1]) + [Some(rows[|rows| - 1].breachId)]
  }

  function DecisionIds(rows: seq<BreachDecision>): seq<Option<string>> {
    if rows == [] then [] else DecisionIds(rows[..|rows| - 1]) + [Some(rows[|rows| - 1].decisionId)]
  }

  function ProcessorBreaches(rows: seq<BreachRow>): nat {
    if rows == [] then 0
    else ProcessorBreaches(rows[..|rows| - 1]) + if rows[|rows| - 1].origin == DataProcessor then 1 else 0
  }

  /** An incident's timeline is the one its tables call for. */
  ghost predicate OnSchedule(s: Store, i: SecurityIncident) {
    Blanks(EntriesOf(s.timeline, i.incidentId)) == ExpectedTimeline(s, i)
  }

  ghost predicate TimelineComplete(s: Store) {
    forall i :: i in s.incidents ==> OnSchedule(s, i)
  }

  /** One timeline row per incident, two or three per breach, one per decision. */
  ghost predicate TimelineBalanced(s: Store) {
    |s.timeline| == |s.incidents| + 2 * |s.breaches| + ProcessorBreaches(s.breaches) + |s.decisions|
  }

  /** Exactly one SUCCESS audit of the matching action per stored row, in the same order. */
  ghost predicate AuditComplete(s: Store) {
    && AuditedObjects(s.outbox, IncidentRecordedAction) == IncidentIds(s.incidents)
    && AuditedObjects(s.outbox, BreachRecordedAction) == BreachIds(s.breaches)
    && AuditedObjects(s.outbox, DecisionRecordedAction) == DecisionIds(s.decisions)
  }

  ghost predicate Complete(s: Store) {
    TimelineComplete(s) && TimelineBalanced(s) && AuditComplete(s)
  }

  // ----- complete transactions keep the tables complete -----

  lemma AuditedObjectsAppend(outbox: seq<AuditEvent>, a: AuditEvent, action: AuditAction)
    ensures AuditedObjects(outbox + [a], action)
              == AuditedObjects(outbox, action) + if a.action == action && a.result == Success then [a.objectId] else []
  {
    assert (outbox + [a])[..|outbox|] == outbox;
  }

  lemma ProcessorBreachesAppend(rows: seq<BreachRow>, b: BreachRow)
    ensures ProcessorBreaches(rows + [b]) == ProcessorBreaches(rows) + if b.origin == DataProcessor then 1 else 0
  {
    assert (rows + [b])[..|rows|] == rows;
  }

  /** Entries of one incident, appended as a block: all of them or none. */
  lemma {:induction false} EntriesOfBlock(rows: seq<TimelineEntry>, es: seq<TimelineEntry>, owner: string, id: string)
    requires forall e :: e in es ==> e.incidentId == owner
    ensures EntriesOf(rows + es, id) == EntriesOf(rows, id) + if id == owner then es else []
  {
    if es == [] {
      assert rows + es == rows;
    } else {
      var front, last := es[..|es| - 1], es[|es| - 1];
      assert last in es;
      assert es == front + [last];
      assert rows + es == (rows + front) + [last];
      calc {
        EntriesOf(rows + es, id);
        { EntriesOfAppend(rows + front, last, id); }
        EntriesOf(rows + front, id) + if owner == id then [last] else [];
        { EntriesOfBlock(rows, front, owner, id); }
        (EntriesOf(rows, id) + if id == owner then front else []) + if owner == id then [last] else [];
      }
    }
  }

  lemma BlanksConcat(a: seq<TimelineEntry>, b: seq<TimelineEntry>)
    ensures Blanks(a + b) == Blanks(a) + Blanks(b)
  {
  }

  /** The audit event an operation stages names the row the operation stores. */
  ghost predicate Tagged(op: Op) {
    match op
    case IncidentOp(_, _, i, _, a) =>
      a.action == IncidentRecordedAction && a.result == Success && a.objectId == Some(i.incidentId)
    case BreachOp(_, _, _, _, row, _, a) =>
      a.action == BreachRecordedAction && a.result == Success && a.objectId == Some(row.breachId)
    case DecisionOp(_, _, _, _, d, _, a) =>
      a.action == DecisionRecordedAction && a.result == Success && a.objectId == Some(d.decisionId)
    case NoteOp(a) => a.action == AuthorizationAction || a.action == TimelineViewedAction
  }

  lemma ApplyKeepsAudit(s: Store, op: Op)
    requires Tagged(op) && AuditComplete(s)
    ensures AuditComplete(Apply(s, op))
  {
    AuditedObjectsAppend(s.outbox, op.event, IncidentRecordedAction);
    AuditedObjectsAppend(s.outbox, op.event, BreachRecordedAction);
    AuditedObjectsAppend(s.outbox, op.event, DecisionRecordedAction);
    match op {
      case IncidentOp(_, _, i, _, _) => assert (s.incidents + [i])[..|s.incidents|] == s.incidents;
      case BreachOp(_, _, _, _, row, _, _) => assert (s.breaches + [row])[..|s.breaches|] == s.breaches;
      case DecisionOp(_, _, _, _, d, _, _) =>
        assert (s.decisions + [d.(externalNotificationDispatched := false)])[..|s.decisions|] == s.decisions;
      case NoteOp(_) =>
    }
  }

  lemma ApplyKeepsBalance(policy: AccessPolicy, s: Store, op: Op)
    requires Checked(policy, op) && TimelineBalanced(s)
    ensures TimelineBalanced(Apply(s, op))
  {
    if op.BreachOp? {
      ProcessorBreachesAppend(s.breaches, op.row);
    }
  }

  function Owner(op: Op): string {
    match op
    case IncidentOp(_, _, i, _, _) => i.incidentId
    case BreachOp(_, _, _, _, row, _, _) => row.incidentId
    case DecisionOp(_, _, i, _, _, _, _) => i.incidentId
    case NoteOp(_) => ""
  }

  /** The entries of an operation are those the record tables call for. */
  ghost predicate Shaped(op: Op) {
    match op
    case IncidentOp(_, _, i, e, _) => Blanks([e]) == [IncidentEntry("", i)]
    case BreachOp(_, _, _, _, row, es, _) => Blanks(es) == BreachEntries("", "", "", row)
    case DecisionOp(_, _, i, _, d, e, _) => Blanks([e]) == [DecisionEntry("", i.incidentId, d)]
    case NoteOp(_) => true
  }

  lemma BlankBreachEntries(x: string, y: string, z: string, row: BreachRow)
    ensures Blanks(BreachEntries(x, y, z, row)) == BreachEntries("", "", "", row)
  {
  }

  lemma BreachEntriesAreShaped(row: BreachRow, es: seq<TimelineEntry>)
    requires EntriesOfBreach(row, es)
    ensures Blanks(es) == BreachEntries("", "", "", row)
    ensures forall e :: e in es ==> e.incidentId == row.incidentId && e.breachId == Some(row.breachId)
  {
    var x, y, z :| es == BreachEntries(x, y, z, row);
    BlankBreachEntries(x, y, z, row);
  }

  lemma CheckedIsShaped(policy: AccessPolicy, op: Op)
    requires Checked(policy, op)
    ensures Shaped(op) && Tagged(op) && EntriesBelong(op)
  {
    match op {
      case IncidentOp(_, _, i, e, _) => assert Blank(e) == IncidentEntry("", i);
      case BreachOp(_, _, _, _, row, es, _) => BreachEntriesAreShaped(row, es);
      case DecisionOp(_, _, i, _, d, e, _) => assert Blank(e) == DecisionEntry("", i.incidentId, d);
      case NoteOp(_) =>
    }
  }

  /** Before its own insert a breach has no part in any timeline; afterwards it has exactly its entries. */
  lemma BreachPartAfterBreach(s: Store, row: BreachRow, id: string)
    requires DecisionsFit(s) && CanInsert(s, BreachInsert(row))
    ensures BreachPart(s.breaches + [row], s.decisions, id)
              == BreachPart(s.breaches, s.decisions, id) + if id == row.incidentId then BreachEntries("", "", "", row) else []
  {
    FindBreachAppend(s.breaches, row, id);
    assert FindDecision(s.decisions, row.breachId) == None;
  }

  lemma DecisionPartAfterDecision(decisions: seq<BreachDecision>, d: BreachDecision, b: BreachRow)
    requires forall x :: x in decisions ==> x.breachId != d.breachId
    ensures DecisionPart(decisions + [d], b)
              == DecisionPart(decisions, b) + if b.breachId == d.breachId then [DecisionEntry("", b.incidentId, d)] else []
  {
    FindDecisionAppend(decisions, d, b.breachId);
  }

  lemma BreachPartAfterDecision(s: Store, d: BreachDecision, owner: string, id: string)
    requires UniqueRows(s) && CanInsert(s, DecisionRow(d))
    requires FindBreach(s.breaches, d.breachId).value.incidentId == owner
    ensures BreachPart(s.breaches, s.decisions + [d], id)
              == BreachPart(s.breaches, s.decisions, id) + if id == owner then [DecisionEntry("", owner, d)] else []
  {
    var stored := FindBreach(s.breaches, d.breachId).value;
    match BreachOfIncident(s.breaches, id) {
      case None =>
        assert stored in s.breaches && stored.incidentId != id;
      case Some(b) =>
        DecisionPartAfterDecision(s.decisions, d, b);
        assert b == stored <==> id == owner;
        assert b == stored <==> b.breachId == d.breachId;
    }
  }

  /** A new incident has no rows and no breach yet. */
  lemma {:induction false} NoEntriesYet(rows: seq<TimelineEntry>, id: string)
    requires forall e :: e in rows ==> e.incidentId != id
    ensures EntriesOf(rows, id) == []
  {
    if rows != [] {
      NoEntriesYet(rows[..|rows| - 1], id);
    }
  }

  lemma NewIncidentIsUnknown(s: Store, i: SecurityIncident)
    requires BreachesFit(s) && TimelineRefers(s) && CanInsert(s, IncidentRow(i))
    ensures EntriesOf(s.timeline, i.incidentId) == []
    ensures BreachPart(s.breaches, s.decisions, i.incidentId) == []
  {
    assert FindIncident(s.incidents, i.incidentId) == None;
    NoEntriesYet(s.timeline, i.incidentId);
  }

  lemma DecisionOwner(s: Store, op: Op)
    requires op.DecisionOp? && Supported(s, op) && CanInsert(s, DecisionRow(op.decision))
    requires op.read.incidentId == op.readBreach.incidentId && op.decision.breachId == op.readBreach.breachId
    ensures FindBreach(s.breaches, op.decision.breachId).value.incidentId == op.read.incidentId
  {
  }

  /** An incident's expected timeline grows by the operation's own entries when
      it is the operation's incident, and stays as it is otherwise. */
  lemma ExpectedAfter(s: Store, op: Op, id: string)
    requires Shaped(op) && !op.IncidentOp? && CanInsert(s, FirstRow(op)) && Sound(s)
    requires op.DecisionOp? ==> FindBreach(s.breaches, op.decision.breachId).value.incidentId == op.read.incidentId
    requires op.DecisionOp? ==> !op.decision.externalNotificationDispatched
    ensures var s' := Apply(s, op);
            BreachPart(s'.breaches, s'.decisions, id)
              == BreachPart(s.breaches, s.decisions, id) + if id == Owner(op) && !op.NoteOp? then Blanks(OwnEntries(op)) else []
  {
    match op {
      case BreachOp(_, _, _, _, row, es, _) => BreachPartAfterBreach(s, row, id);
      case DecisionOp(_, _, read, _, d, e, _) =>
        assert d.(externalNotificationDispatched := false) == d;
        BreachPartAfterDecision(s, d, read.incidentId, id);
      case NoteOp(_) =>
    }
  }

  lemma OwnTimelineGrows(s: Store, op: Op, id: string)
    requires EntriesBelong(op) && Shaped(op)
    ensures Blanks(EntriesOf(Apply(s, op).timeline, id))
              == Blanks(EntriesOf(s.timeline, id)) + if id == Owner(op) && !op.NoteOp? then Blanks(OwnEntries(op)) else []
  {
    var es := OwnEntries(op);
    assert Apply(s, op).timeline == s.timeline + es;
    if op.DecisionOp? {
      assert Blanks([op.entry])[0] == Blank(op.entry);
    }
    EntriesOfBlock(s.timeline, es, Owner(op), id);
    BlanksConcat(EntriesOf(s.timeline, id), es);
  }

  lemma Reassociate<T>(a: seq<T>, b: seq<T>, c: seq<T>)
    ensures (a + b) + c == a + (b + c)
  {
  }

  lemma KnownIncidentTimeline(s: Store, op: Op, i: SecurityIncident)
    requires Shaped(op) && EntriesBelong(op) && CanInsert(s, FirstRow(op)) && Sound(s) && TimelineComplete(s)
    requires op.DecisionOp? ==> FindBreach(s.breaches, op.decision.breachId).value.incidentId == op.read.incidentId
    requires op.DecisionOp? ==> !op.decision.externalNotificationDispatched
    requires i in s.incidents
    ensures Blanks(EntriesOf(Apply(s, op).timeline, i.incidentId)) == ExpectedTimeline(Apply(s, op), i)
  {
    var s', id := Apply(s, op), i.incidentId;
    OwnTimelineGrows(s, op, id);
    if op.IncidentOp? {
      assert id != Owner(op);
    } else {
      var more := if id == Owner(op) && !op.NoteOp? then Blanks(OwnEntries(op)) else [];
      ExpectedAfter(s, op, id);
      Reassociate([IncidentEntry("", i)], BreachPart(s.breaches, s.decisions, id), more);
    }
  }

  lemma NewIncidentTimeline(s: Store, op: Op)
    requires op.IncidentOp? && Shaped(op) && EntriesBelong(op) && CanInsert(s, FirstRow(op)) && Sound(s)
    ensures var s' := Apply(s, op);
            Blanks(EntriesOf(s'.timeline, op.incident.incidentId)) == ExpectedTimeline(s', op.incident)
  {
    OwnTimelineGrows(s, op, op.incident.incidentId);
    NewIncidentIsUnknown(s, op.incident);
  }

  lemma ApplyKeepsTimeline(s: Store, op: Op)
    requires Shaped(op) && EntriesBelong(op) && CanInsert(s, FirstRow(op)) && Sound(s) && TimelineComplete(s)
    requires op.DecisionOp? ==> FindBreach(s.breaches, op.decision.breachId).value.incidentId == op.read.incidentId
    requires op.DecisionOp? ==> !op.decision.externalNotificationDispatched
    ensures TimelineComplete(Apply(s, op))
  {
    forall i | i in Apply(s, op).incidents
      ensures Blanks(EntriesOf(Apply(s, op).timeline, i.incidentId)) == ExpectedTimeline(Apply(s, op), i)
    {
      if i in s.incidents {
        KnownIncidentTimeline(s, op, i);
      } else {
        NewIncidentTimeline(s, op);
      }
    }
  }

  /** Whole transactions of checked operations keep timeline and audit complete. */
  lemma ApplyKeepsComplete(policy: AccessPolicy, s: Store, op: Op)
    requires Checked(policy, op) && Supported(s, op) && Admissible(s, op) && Sound(s) && Complete(s)
    ensures Complete(Apply(s, op))
  {
    CheckedIsShaped(policy, op);
    if op.DecisionOp? {
      DecisionOwner(s, op);
    }
    ApplyKeepsTimeline(s, op);
    ApplyKeepsBalance(policy, s, op);
    ApplyKeepsAudit(s, op);
  }

  ghost predicate SoundAndPresentable(s: Store) {
    Sound(s) && Presentable(s)
  }

  lemma InsertKeepsSupported(s: Store, row: Row, op: Op)
    requires Supported(s, op) && CanInsert(s, row) && row in Rows(op)
    ensures Supported(Insert(s, row), op)
  {
    match row {
      case IncidentRow(i) => assert op.IncidentOp?;
      case BreachInsert(b) => assert op.BreachOp?;
      case DecisionRow(_) =>
      case TimelineRow(_) =>
      case AuditRow(_) =>
    }
  }

  lemma CheckedRowIsPresentable(policy: AccessPolicy, op: Op, k: nat)
    requires Checked(policy, op) && k < |Rows(op)|
    ensures PresentableRow(Rows(op)[k])
  {
    if op.BreachOp? {
      assert Rows(op)[k] == BreachInsert(op.row) || Rows(op)[k].TimelineRow? || Rows(op)[k].AuditRow?;
    }
  }

  /** Every single statement of a checked operation keeps the tables sound and
      the operation supported, wherever it lands among other callers' statements. */
  lemma StatementKeepsSound(policy: AccessPolicy, s: Store, op: Op, k: nat)
    requires Checked(policy, op) && Supported(s, op) && SoundAndPresentable(s)
    requires k < |Rows(op)| && CanInsert(s, Rows(op)[k])
    ensures SoundAndPresentable(Insert(s, Rows(op)[k])) && Supported(Insert(s, Rows(op)[k]), op)
  {
    var row := Rows(op)[k];
    CheckedRowFits(policy, s, op, k);
    CheckedRowIsPresentable(policy, op, k);
    InsertKeepsSound(s, row);
    InsertKeepsPresentable(s, row);
    InsertKeepsSupported(s, row, op);
  }

  /** What every statement of a list keeps, running the list keeps. */
  lemma {:induction false} RunKeeps(inv: Store -> bool, s: Store, rows: seq<Row>, fault: Option<nat>)
    requires inv(s)
    requires forall t, row :: inv(t) && row in rows && CanInsert(t, row) ==> inv(Insert(t, row))
    ensures inv(InsertAll(s, rows, fault).1)
    decreases |rows|
  {
    if rows != [] {
      assert rows == [rows[0]] + rows[1..];
      RunFirst(s, rows[0], rows[1..], fault);
      if fault != Some(0) && CanInsert(s, rows[0]) {
        RunKeeps(inv, Insert(s, rows[0]), rows[1..], NextFault(fault));
      }
    }
  }

  lemma StatementsKeepSound(policy: AccessPolicy, s: Store, op: Op, fault: Option<nat>)
    requires Checked(policy, op) && Supported(s, op) && SoundAndPresentable(s)
    ensures SoundAndPresentable(InsertAll(s, Rows(op), fault).1)
  {
    var inv := t => SoundAndPresentable(t) && Supported(t, op);
    forall t, row | inv(t) && row in Rows(op) && CanInsert(t, row) ensures inv(Insert(t, row)) {
      var k :| 0 <= k < |Rows(op)| && Rows(op)[k] == row;
      StatementKeepsSound(policy, t, op, k);
    }
    RunKeeps(inv, s, Rows(op), fault);
  }

  /** A transaction of a checked operation, whatever becomes of it, keeps the
      tables sound, presentable and complete. */
  lemma TransactionKeepsAll(policy: AccessPolicy, s: Store, op: Op, fault: Option<nat>)
    requires Checked(policy, op) && Supported(s, op) && SoundAndPresentable(s) && Complete(s)
    ensures var s' := Transact(s, Rows(op), fault).1; SoundAndPresentable(s') && Complete(s')
  {
    CheckedIsShaped(policy, op);
    TransactionIsAtomic(s, op, fault);
    if Transact(s, Rows(op), fault).0 == Written {
      StatementsKeepSound(policy, s, op, fault);
      ApplyKeepsComplete(policy, s, op);
    }
  }
}
