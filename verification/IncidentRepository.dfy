/** The incident repository: tables changed in place, one transaction per call. */
module IncidentRepository {
  import opened IncidentModels
  import opened IncidentStore
  import opened IncidentHistory
  import opened IncidentView

  lemma FirstOfRemaining(entries: seq<TimelineEntry>, k: nat, event: AuditEvent)
    requires k < |entries|
    ensures TimelineAndAudit(entries[k..], event)
              == [TimelineRow(entries[k])] + TimelineAndAudit(entries[k + 1..], event)
  {
    assert entries[k..][1..] == entries[k + 1..];
  }

  class Repository {
    var incidents: seq<SecurityIncident>
    var breaches: seq<BreachRow>
    var decisions: seq<BreachDecision>
    var timeline: seq<TimelineEntry>
    var outbox: seq<AuditEvent>

    function Contents(): Store
      reads this
    {
      Store(incidents, breaches, decisions, timeline, outbox)
    }

    /** What every call keeps when the service is the only writer. */
    ghost predicate Valid()
      reads this
    {
      SoundAndPresentable(Contents()) && Complete(Contents())
    }

    constructor ()
      ensures Valid() && Contents() == EMPTY_STORE
    {
      incidents, breaches, decisions, timeline, outbox := [], [], [], [], [];
    }

    /** One INSERT; `fault` counts the statements left before a database error strikes. */
    method Statement(row: Row, fault: Option<nat>) returns (result: WriteResult, left: Option<nat>)
      modifies this
      ensures result == (if fault == Some(0) then DatabaseFailure
                         else if !CanInsert(old(Contents()), row) then IntegrityFailure else Written)
      ensures Contents() == if result == Written then Insert(old(Contents()), row) else old(Contents())
      ensures fault != Some(0) ==> left == NextFault(fault)
    {
      left := if fault.Some? && fault.value > 0 then Some(fault.value - 1) else fault;
      if fault == Some(0) {
        return DatabaseFailure, left;
      }
      if !CanInsert(Contents(), row) {
        return IntegrityFailure, left;
      }
      match row {
        case IncidentRow(i) => incidents := incidents + [i];
        case BreachInsert(b) => breaches := breaches + [b];
        case DecisionRow(d) => decisions := decisions + [d.(externalNotificationDispatched := false)];
        case TimelineRow(e) => timeline := timeline + [e];
        case AuditRow(a) => outbox := outbox + [a];
      }
      result := Written;
    }

    /** Leaves the transaction: commits, or restores the tables it started from. */
    method Finish(before: Store, result: WriteResult, fault: Option<nat>) returns (final: WriteResult)
      modifies this
      ensures final == if result == Written && fault == Some(0) then DatabaseFailure else result
      ensures Contents() == if final == Written then old(Contents()) else before
    {
      final := if result == Written && fault == Some(0) then DatabaseFailure else result;
      if final != Written {
        incidents, breaches, decisions := before.incidents, before.breaches, before.decisions;
        timeline, outbox := before.timeline, before.outbox;
      }
    }

    method CreateIncident(incident: SecurityIncident, entry: TimelineEntry, event: AuditEvent, fault: Option<nat>)
      returns (result: WriteResult)
      modifies this
      ensures (result, Contents())
                == Transact(old(Contents()), [IncidentRow(incident), TimelineRow(entry), AuditRow(event)], fault)
    {
      result := RecordWithEntries(IncidentRow(incident), [entry], event, fault);
      assert [IncidentRow(incident)] + TimelineAndAudit([entry], event)
             == [IncidentRow(incident), TimelineRow(entry), AuditRow(event)];
    }

    method CreateBreachSuspicion(breach: BreachSuspicion, entries: seq<TimelineEntry>, event: AuditEvent, fault: Option<nat>)
      returns (result: WriteResult)
      modifies this
      ensures (result, Contents())
                == Transact(old(Contents()), [BreachInsert(EncodeBreach(breach))] + TimelineAndAudit(entries, event), fault)
    {
      result := RecordWithEntries(BreachInsert(EncodeBreach(breach)), entries, event, fault);
    }

    method AddBreachDecision(decision: BreachDecision, entry: TimelineEntry, event: AuditEvent, fault: Option<nat>)
      returns (result: WriteResult)
      modifies this
      ensures (result, Contents())
                == Transact(old(Contents()), [DecisionRow(decision), TimelineRow(entry), AuditRow(event)], fault)
    {
      result := RecordWithEntries(DecisionRow(decision), [entry], event, fault);
      assert [DecisionRow(decision)] + TimelineAndAudit([entry], event)
             == [DecisionRow(decision), TimelineRow(entry), AuditRow(event)];
    }

    method RecordAudit(event: AuditEvent, fault: Option<nat>) returns (result: WriteResult)
      modifies this
      ensures (result, Contents()) == Transact(old(Contents()), [AuditRow(event)], fault)
    {
      var before := Contents();
      var left;
      RunFirst(before, AuditRow(event), [], fault);
      assert [AuditRow(event)] + [] == [AuditRow(event)];
      result, left := Statement(AuditRow(event), fault);
      result := Finish(before, result, left);
    }

    /** The shape the three inserts share: the record, its timeline rows one by
        one, the staged audit event, then the commit. */
    method RecordWithEntries(record: Row, entries: seq<TimelineEntry>, event: AuditEvent, fault: Option<nat>)
      returns (result: WriteResult)
      modifies this
      ensures (result, Contents()) == Transact(old(Contents()), [record] + TimelineAndAudit(entries, event), fault)
    {
      var before := Contents();
      ghost var target := InsertAll(before, [record] + TimelineAndAudit(entries, event), fault);
      var left;
      RunFirst(before, record, TimelineAndAudit(entries, event), fault);
      result, left := Statement(record, fault);
      var k := 0;
      while k < |entries| && result == Written
        invariant 0 <= k <= |entries|
        invariant result == Written ==> InsertAll(Contents(), TimelineAndAudit(entries[k..], event), left) == target
        invariant result != Written ==> target.0 == result
      {
        FirstOfRemaining(entries, k, event);
        RunFirst(Contents(), TimelineRow(entries[k]), TimelineAndAudit(entries[k + 1..], event), left);
        result, left := Statement(TimelineRow(entries[k]), left);
        k := k + 1;
      }
      if result == Written {
        assert TimelineAndAudit(entries[k..], event) == [AuditRow(event)] + [];
        RunFirst(Contents(), AuditRow(event), [], left);
        result, left := Statement(AuditRow(event), left);
      }
      result := Finish(before, result, left);
    }

    function GetIncident(incidentId: string): Lookup<SecurityIncident>
      reads this
    {
      ReadIncident(Contents(), incidentId)
    }

    function GetBreachSuspicion(breachId: string): Lookup<BreachSuspicion>
      reads this
    {
      ReadBreach(Contents(), breachId)
    }

    function GetBreachIncidentScope(breachId: string): Lookup<SecurityIncident>
      reads this
    {
      ReadScope(Contents(), breachId)
    }

    function GetBreachDecision(breachId: string): Option<BreachDecision>
      reads this
    {
      FindDecision(decisions, breachId)
    }

    function ListTimeline(incidentId: string): seq<TimelineEntry>
      reads this
    {
      EntriesOf(timeline, incidentId)
    }
  }
}
