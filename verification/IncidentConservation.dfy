/** What the committed tables hold between transactions, and what publishers, who
    commit and roll back other callers' statements, can do to it. */
module IncidentConservation {
  import opened IncidentModels
  import opened IncidentStore
  import opened IncidentChecks
  import opened IncidentHistory
  import opened IncidentProtocol
  import opened IncidentRuns

  // ----- how transactions end -----

  /** Every step of the run is a good one in the state it is taken in. */
  ghost predicate Throughout(good: (Machine, Action) -> bool, env: Env, start: int, acts: seq<Action>) {
    acts == [] ||
    (&& Throughout(good, env, start, acts[..|acts| - 1])
     && (Execute(env, start, acts[..|acts| - 1]).Some? ==>
           good(Execute(env, start, acts[..|acts| - 1]).value, acts[|acts| - 1])))
  }

  function Length(tx: Tx): int {
    |Rows(tx.op)|
  }

  /** The statements whose rows the connection holds. */
  function Running(tx: Tx): set<int> {
    tx.kept + Span(tx.start, tx.done)
  }

  ghost predicate Ends(m: Machine, a: Action) {
    m.open.Some? && (a.Commit? || a.Abort?)
  }

  /** The statements whose rows are in the tables for good when the transaction ends. */
  ghost function Surviving(m: Machine, a: Action): set<int>
    requires Ends(m, a)
  {
    if a.Commit? then Running(m.open.value) else m.open.value.kept
  }

  /** A transaction that ends here leaves all of its rows or none. */
  ghost predicate EndsWhole(m: Machine, a: Action) {
    Ends(m, a) ==> Surviving(m, a) == {} || Surviving(m, a) == Span(0, Length(m.open.value))
  }

  /** A transaction that ends here leaves both its record and its audit, or neither. */
  ghost predicate EndsPaired(m: Machine, a: Action) {
    Ends(m, a) ==> (0 in Surviving(m, a) <==> Length(m.open.value) - 1 in Surviving(m, a))
  }

  /** No publisher fails while the open transaction has uncommitted statements. */
  ghost predicate LosesNothing(m: Machine, a: Action) {
    a.PublishFails? && m.open.Some? ==> m.open.value.start == m.open.value.done
  }

  /** No transaction is rolled back after a publisher committed some, but not all,
      of its statements. */
  ghost predicate NotCut(m: Machine, a: Action) {
    a.Abort? && m.open.Some? ==> m.open.value.start == 0 || m.open.value.start == Length(m.open.value)
  }

  // ----- where an open transaction stands -----

  ghost predicate Standing(tx: Tx, committed: Store, conn: Store) {
    && 0 <= tx.start <= tx.done <= Length(tx)
    && tx.kept <= Span(0, tx.start)
    && (tx.start == tx.done ==> conn == committed)
    && (tx.kept == {} ==> committed == tx.base)
  }

  /** As long as nothing was lost, both states are runs of the statements so far. */
  ghost predicate Undisturbed(tx: Tx, committed: Store, conn: Store)
    requires Standing(tx, committed, conn)
  {
    tx.kept == Span(0, tx.start) ==>
      && InsertAll(tx.base, Rows(tx.op)[..tx.start], None) == (Written, committed)
      && InsertAll(tx.base, Rows(tx.op)[..tx.done], None) == (Written, conn)
  }

  ghost predicate Tracked(m: Machine) {
    match m.open
    case None => m.conn == m.committed
    case Some(tx) => Standing(tx, m.committed, m.conn) && Undisturbed(tx, m.committed, m.conn)
  }

  lemma {:induction false} InsertOneMore(s: Store, rows: seq<Row>, row: Row)
    requires InsertAll(s, rows, None).0 == Written && CanInsert(InsertAll(s, rows, None).1, row)
    ensures InsertAll(s, rows + [row], None) == (Written, Insert(InsertAll(s, rows, None).1, row))
    decreases |rows|
  {
    if rows == [] {
      assert [row] == [row] + [];
      assert rows + [row] == [row];
      RunFirst(s, row, [], None);
    } else {
      assert rows + [row] == [rows[0]] + (rows[1..] + [row]);
      assert rows == [rows[0]] + rows[1..];
      RunFirst(s, rows[0], rows[1..] + [row], None);
      RunFirst(s, rows[0], rows[1..], None);
      InsertOneMore(Insert(s, rows[0]), rows[1..], row);
    }
  }

  lemma OneMoreStatement(s: Store, rows: seq<Row>, k: nat, conn: Store)
    requires k < |rows| && InsertAll(s, rows[..k], None) == (Written, conn) && CanInsert(conn, rows[k])
    ensures InsertAll(s, rows[..k + 1], None) == (Written, Insert(conn, rows[k]))
  {
    InsertOneMore(s, rows[..k], rows[k]);
    assert rows[..k + 1] == rows[..k] + [rows[k]];
  }

  lemma ExecKeepsTracked(env: Env, m: Machine)
    requires Tracked(m) && Next(env, m, Exec).Some?
    ensures Tracked(Next(env, m, Exec).value)
  {
    var tx := m.open.value;
    if tx.kept == Span(0, tx.start) {
      OneMoreStatement(tx.base, Rows(tx.op), tx.done, m.conn);
    }
  }

  lemma PublishKeepsTracked(m: Machine)
    requires Tracked(m)
    ensures Tracked(Keep(m)) && Tracked(Lose(m))
  {
    if m.open.Some? {
      var tx := m.open.value;
      SettledSpans(tx.kept, tx.start, tx.done);
    }
  }

  lemma SettledSpans(kept: set<int>, start: int, done: int)
    requires 0 <= start <= done && kept <= Span(0, start)
    ensures kept + Span(start, done) == {} ==> start == done
    ensures kept + Span(start, done) == Span(0, done) <==> kept == Span(0, start)
    ensures kept == Span(0, done) ==> start == done
  {
    var more := kept + Span(start, done);
    assert start < done ==> start in more && start !in kept && start in Span(0, done);
    if more == Span(0, done) {
      forall k | k in Span(0, start) ensures k in kept {
        assert k in Span(0, done);
      }
    }
    if kept == Span(0, start) {
      assert more == Span(0, done);
    }
  }

  lemma NextKeepsTracked(env: Env, m: Machine, a: Action)
    requires Tracked(m) && Next(env, m, a).Some?
    ensures Tracked(Next(env, m, a).value)
  {
    match a {
      case Exec => ExecKeepsTracked(env, m);
      case PublishRow(_, _) => PublishKeepsTracked(m);
      case PublishFails(_) => PublishKeepsTracked(m);
      case Begin(op) => assert Rows(op)[..0] == [];
      case Tick(_) =>
      case CheckIncidentDraft(_, _, _, _) =>
      case CheckBreachDraft(_, _, _, _, _) =>
      case CheckDecisionDraft(_, _, _, _, _, _, _) =>
      case Note(_) =>
      case Commit =>
      case Abort =>
      case SelectPending(_) =>
    }
  }

  lemma {:induction false} EveryRunIsTracked(env: Env, start: int, acts: seq<Action>)
    requires Execute(env, start, acts).Some?
    ensures Tracked(Execute(env, start, acts).value)
  {
    if acts != [] {
      EveryRunIsTracked(env, start, acts[..|acts| - 1]);
      NextKeepsTracked(env, Execute(env, start, acts[..|acts| - 1]).value, acts[|acts| - 1]);
    }
  }

  // ----- the tables a transaction started from -----

  ghost predicate BaseIsSafe(policy: AccessPolicy, m: Machine) {
    m.open.Some? ==> SoundAndPresentable(m.open.value.base) && RowsIssued(m.issued, m.open.value.base)
  }

  lemma NextKeepsBase(env: Env, m: Machine, a: Action)
    requires Safe(env.policy, m) && BaseIsSafe(env.policy, m) && Next(env, m, a).Some?
    ensures BaseIsSafe(env.policy, Next(env, m, a).value)
  {
    match a {
      case CheckIncidentDraft(_, _, at, ids) => EnterKeepsBase(env.policy, m, at, ids, VerdictOf(env, a));
      case CheckBreachDraft(_, _, at, ids, _) => EnterKeepsBase(env.policy, m, at, ids, VerdictOf(env, a));
      case CheckDecisionDraft(_, _, at, ids, _, _, _) => EnterKeepsBase(env.policy, m, at, ids, VerdictOf(env, a));
      case Begin(_) =>
      case Exec =>
      case Tick(_) =>
      case Note(_) =>
      case Commit =>
      case Abort =>
      case SelectPending(_) =>
      case PublishRow(_, _) =>
      case PublishFails(_) =>
    }
  }

  lemma EnterKeepsBase(policy: AccessPolicy, m: Machine, at: int, ids: Ids, verdict: Verdict)
    requires BaseIsSafe(policy, m) && Enter(m, at, ids, verdict).Some?
    ensures BaseIsSafe(policy, Enter(m, at, ids, verdict).value)
  {
    if m.open.Some? {
      RowsStayIssued(m.issued, ids.recordId, verdict.op, m.open.value.base);
    }
  }

  lemma {:induction false} EveryBaseIsSafe(env: Env, start: int, acts: seq<Action>)
    requires Execute(env, start, acts).Some?
    ensures BaseIsSafe(env.policy, Execute(env, start, acts).value)
  {
    if acts != [] {
      var front := acts[..|acts| - 1];
      EveryBaseIsSafe(env, start, front);
      EveryRunIsSafe(env, start, front);
      NextKeepsBase(env, Execute(env, start, front).value, acts[|acts| - 1]);
    }
  }

  // ----- whole ends keep the tables complete -----

  /** The tables as of the last moment without an open transaction. */
  function Resting(m: Machine): Store {
    if m.open.Some? then m.open.value.base else m.committed
  }

  lemma RestingStays(env: Env, m: Machine, a: Action)
    requires Tracked(m) && !Ends(m, a) && Next(env, m, a).Some?
    ensures Resting(Next(env, m, a).value) == Resting(m)
  {
    match a {
      case Begin(_) =>
      case Exec =>
      case Tick(_) =>
      case CheckIncidentDraft(_, _, _, _) =>
      case CheckBreachDraft(_, _, _, _, _) =>
      case CheckDecisionDraft(_, _, _, _, _, _, _) =>
      case Note(_) =>
      case Commit =>
      case Abort =>
      case SelectPending(_) =>
      case PublishRow(_, _) =>
      case PublishFails(_) =>
    }
  }

  lemma FinishedIsComplete(policy: AccessPolicy, s: Store, conn: Store, op: Op)
    requires Checked(policy, op) && Supported(s, op) && SoundAndPresentable(s) && Complete(s)
    requires InsertAll(s, Rows(op), None) == (Written, conn)
    ensures Complete(conn)
  {
    TransactionKeepsAll(policy, s, op, None);
  }

  lemma AllStatements(op: Op)
    ensures Rows(op)[..|Rows(op)|] == Rows(op)
  {
  }

  /** What all of the statements, or none, leave behind. */
  lemma WholeEnd(tx: Tx, committed: Store, conn: Store, a: Action)
    requires Standing(tx, committed, conn) && Undisturbed(tx, committed, conn)
    requires (a.Commit? && tx.done == Length(tx)) || a.Abort?
    ensures var left := if a.Commit? then conn else committed;
            var surviving := if a.Commit? then Running(tx) else tx.kept;
            && (surviving == {} ==> left == tx.base)
            && (surviving == Span(0, Length(tx)) ==>
                  InsertAll(tx.base, Rows(tx.op)[..Length(tx)], None) == (Written, left))
  {
    SettledSpans(tx.kept, tx.start, tx.done);
    if a.Abort? && tx.kept == Span(0, Length(tx)) {
      assert Length(tx) > 0 ==> Length(tx) - 1 in tx.kept;
    }
  }

  lemma WholeEndKeepsComplete(env: Env, m: Machine, a: Action)
    requires Safe(env.policy, m) && Tracked(m) && BaseIsSafe(env.policy, m) && Complete(Resting(m))
    requires Ends(m, a) && EndsWhole(m, a) && Next(env, m, a).Some?
    ensures Complete(Next(env, m, a).value.committed)
  {
    var tx := m.open.value;
    WholeEnd(tx, m.committed, m.conn, a);
    if Surviving(m, a) != {} {
      IssuedIsSupported(env.policy, m, tx.base, tx.op);
      AllStatements(tx.op);
      FinishedIsComplete(env.policy, tx.base, Next(env, m, a).value.committed, tx.op);
    }
  }

  lemma EndRests(env: Env, m: Machine, a: Action)
    requires Ends(m, a) && Next(env, m, a).Some?
    ensures Resting(Next(env, m, a).value) == Next(env, m, a).value.committed
  {
  }

  lemma StepKeepsComplete(env: Env, m: Machine, a: Action)
    requires Safe(env.policy, m) && Tracked(m) && BaseIsSafe(env.policy, m) && Complete(Resting(m))
    requires EndsWhole(m, a) && Next(env, m, a).Some?
    ensures Complete(Resting(Next(env, m, a).value))
  {
    if Ends(m, a) {
      WholeEndKeepsComplete(env, m, a);
      EndRests(env, m, a);
    } else {
      RestingStays(env, m, a);
    }
  }

  lemma EmptyIsComplete()
    ensures Complete(EMPTY_STORE)
  {
  }

  /** Conservation over all runs: as long as every transaction that has ended left
      all of its rows or none, the tables between transactions are complete.  Each
      incident's timeline is exactly the one its tables call for, timeline rows =
      incidents + 2 breaches + processor breaches + decisions, and there is one
      SUCCESS audit of the matching action per stored row. */
  lemma {:induction false} WholeRunsAreComplete(env: Env, start: int, acts: seq<Action>)
    requires Execute(env, start, acts).Some? && Throughout(EndsWhole, env, start, acts)
    ensures Complete(Resting(Execute(env, start, acts).value))
  {
    if acts == [] {
      EmptyIsComplete();
    } else {
      var front, a := acts[..|acts| - 1], acts[|acts| - 1];
      var m := Execute(env, start, front).value;
      WholeRunsAreComplete(env, start, front);
      EveryRunIsSafe(env, start, front);
      EveryRunIsTracked(env, start, front);
      EveryBaseIsSafe(env, start, front);
      StepKeepsComplete(env, m, a);
    }
  }

  // ----- records and audits of an open transaction -----

  /** The same record tables and outbox; the timelines may differ. */
  ghost predicate SameRecords(s: Store, t: Store) {
    s.incidents == t.incidents && s.breaches == t.breaches && s.decisions == t.decisions && s.outbox == t.outbox
  }

  /** The tables with an operation's record, its audit event, both or neither. */
  function Partly(s: Store, op: Op, record: bool, audit: bool): Store {
    var s1 := if record && !op.NoteOp? then Insert(s, FirstRow(op)) else s;
    if audit then Insert(s1, AuditRow(op.event)) else s1
  }

  ghost predicate HoldsPart(s: Store, tx: Tx, positions: set<int>) {
    SameRecords(s, Partly(tx.base, tx.op, 0 in positions, Length(tx) - 1 in positions))
  }

  ghost predicate RecordsTracked(m: Machine) {
    m.open.Some? ==>
      HoldsPart(m.committed, m.open.value, m.open.value.kept) && HoldsPart(m.conn, m.open.value, Running(m.open.value))
  }

  lemma StatementKinds(op: Op, k: nat)
    requires k < |Rows(op)|
    ensures k == |Rows(op)| - 1 ==> Rows(op)[k] == AuditRow(op.event)
    ensures k == 0 && !op.NoteOp? ==> |Rows(op)| >= 2 && Rows(op)[k] == FirstRow(op)
    ensures 0 < k < |Rows(op)| - 1 ==> Rows(op)[k].TimelineRow?
  {
    if !op.NoteOp? {
      RowsOfRecord(op);
    }
  }

  lemma OneMorePart(s: Store, tx: Tx, positions: set<int>, k: nat)
    requires HoldsPart(s, tx, positions) && k < Length(tx) && k !in positions
    ensures HoldsPart(Insert(s, Rows(tx.op)[k]), tx, positions + {k})
  {
    StatementKinds(tx.op, k);
  }

  lemma ExecKeepsRecords(env: Env, m: Machine)
    requires Tracked(m) && RecordsTracked(m) && Next(env, m, Exec).Some?
    ensures RecordsTracked(Next(env, m, Exec).value)
  {
    var tx := m.open.value;
    OneMorePart(m.conn, tx, Running(tx), tx.done);
    assert Running(tx.(done := tx.done + 1)) == Running(tx) + {tx.done};
  }

  lemma NextKeepsRecords(env: Env, m: Machine, a: Action)
    requires Tracked(m) && RecordsTracked(m) && Next(env, m, a).Some?
    ensures RecordsTracked(Next(env, m, a).value)
  {
    match a {
      case Exec => ExecKeepsRecords(env, m);
      case PublishRow(_, _) =>
        if m.open.Some? {
          var tx := Keep(m).open.value;
          assert Running(tx) == tx.kept == Running(m.open.value);
        }
      case PublishFails(_) =>
        if m.open.Some? {
          var tx := Lose(m).open.value;
          assert Running(tx) == tx.kept == m.open.value.kept;
        }
      case Begin(op) => assert Running(Tx(op, m.committed, 0, 0, {})) == {};
      case Tick(_) =>
      case CheckIncidentDraft(_, _, _, _) =>
      case CheckBreachDraft(_, _, _, _, _) =>
      case CheckDecisionDraft(_, _, _, _, _, _, _) =>
      case Note(_) =>
      case Commit =>
      case Abort =>
      case SelectPending(_) =>
    }
  }

  lemma {:induction false} EveryRunTracksRecords(env: Env, start: int, acts: seq<Action>)
    requires Execute(env, start, acts).Some?
    ensures RecordsTracked(Execute(env, start, acts).value)
  {
    if acts != [] {
      var front := acts[..|acts| - 1];
      EveryRunTracksRecords(env, start, front);
      EveryRunIsTracked(env, start, front);
      NextKeepsRecords(env, Execute(env, start, front).value, acts[|acts| - 1]);
    }
  }

  // ----- an operation is executed once -----

  /** Neither the operation's record nor an audit of it is in the tables. */
  ghost predicate Unseen(s: Store, op: Op) {
    op.NoteOp? ||
    (&& (forall i :: i in s.incidents ==> i.incidentId != RecordId(op))
     && (forall b :: b in s.breaches ==> b.breachId != RecordId(op))
     && (forall d :: d in s.decisions ==> d.decisionId != RecordId(op))
     && (forall a :: a in s.outbox && a.objectId == Some(RecordId(op)) ==>
           a.action == AuthorizationAction || a.action == TimelineViewedAction))
  }

  ghost predicate WaitingUnseen(m: Machine) {
    && (forall op :: op in m.waiting ==> Unseen(m.conn, op))
    && (m.open.Some? && !m.open.value.op.NoteOp? ==>
          m.open.value.op !in m.waiting && Unseen(m.open.value.base, m.open.value.op))
  }

  lemma UnseenEarlier(s: Store, t: Store, op: Op)
    requires Extends(s, t) && Unseen(t, op)
    ensures Unseen(s, op)
  {
  }

  lemma UndrawnIsUnseen(issued: map<string, Op>, s: Store, op: Op)
    requires RowsIssued(issued, s) && !op.NoteOp? && RecordId(op) !in issued
    ensures Unseen(s, op)
  {
    forall i | i in s.incidents ensures i.incidentId != RecordId(op) { assert IncidentIssued(issued, i); }
    forall b | b in s.breaches ensures b.breachId != RecordId(op) { assert BreachIssued(issued, b); }
    forall d | d in s.decisions ensures d.decisionId != RecordId(op) { assert DecisionIssued(issued, d); }
    forall a | a in s.outbox && a.objectId == Some(RecordId(op))
      ensures a.action == AuthorizationAction || a.action == TimelineViewedAction
    {
      assert AuditIssued(issued, a);
    }
  }

  lemma StatementLeavesOthersUnseen(s: Store, op: Op, k: nat, other: Op)
    requires Tagged(op) && k < |Rows(op)| && Unseen(s, other)
    requires !op.NoteOp? && !other.NoteOp? ==> RecordId(op) != RecordId(other)
    ensures Unseen(Insert(s, Rows(op)[k]), other)
  {
    StatementKinds(op, k);
  }

  lemma ExecKeepsUnseen(env: Env, m: Machine)
    requires Safe(env.policy, m) && WaitingUnseen(m) && Next(env, m, Exec).Some?
    ensures WaitingUnseen(Next(env, m, Exec).value)
  {
    var op, k := m.open.value.op, m.open.value.done;
    assert Checked(env.policy, op) && Drawn(m.issued, op);
    CheckedIsShaped(env.policy, op);
    forall other | other in m.waiting ensures Unseen(Insert(m.conn, Rows(op)[k]), other) {
      assert Drawn(m.issued, other) && Unseen(m.conn, other);
      StatementLeavesOthersUnseen(m.conn, op, k, other);
    }
  }

  lemma EnterKeepsUnseen(policy: AccessPolicy, m: Machine, at: int, ids: Ids, verdict: Verdict)
    requires Safe(policy, m) && WaitingUnseen(m) && Enter(m, at, ids, verdict).Some?
    requires !verdict.op.NoteOp? && RecordId(verdict.op) == ids.recordId
    ensures WaitingUnseen(Enter(m, at, ids, verdict).value)
  {
    UndrawnIsUnseen(m.issued, m.conn, verdict.op);
    if m.open.Some? {
      assert Drawn(m.issued, m.open.value.op);
    }
  }

  lemma RollbackKeepsUnseen(m: Machine, m': Machine)
    requires WaitingUnseen(m) && Extends(m.committed, m.conn)
    requires m'.waiting == m.waiting && m'.conn == m.committed
    requires m'.open.Some? ==> m.open.Some? && m'.open.value.op == m.open.value.op && m'.open.value.base == m.open.value.base
    ensures WaitingUnseen(m')
  {
    forall op | op in m'.waiting ensures Unseen(m'.conn, op) {
      UnseenEarlier(m.committed, m.conn, op);
    }
  }

  lemma BeginKeepsUnseen(env: Env, m: Machine, op: Op)
    requires WaitingUnseen(m) && Extends(m.committed, m.conn) && Next(env, m, Begin(op)).Some?
    ensures WaitingUnseen(Next(env, m, Begin(op)).value)
  {
    UnseenEarlier(m.committed, m.conn, op);
  }

  lemma CheckKeepsUnseen(env: Env, m: Machine, a: Action)
    requires Safe(env.policy, m) && WaitingUnseen(m) && Next(env, m, a).Some? && IsCheck(a)
    ensures WaitingUnseen(Next(env, m, a).value)
  {
    var op := VerdictOf(env, a).op;
    match a {
      case CheckIncidentDraft(_, _, at, ids) =>
        IncidentVerdict(env, a, op);
        EnterKeepsUnseen(env.policy, m, at, ids, VerdictOf(env, a));
      case CheckBreachDraft(_, _, at, ids, _) =>
        BreachVerdict(env, a, op);
        EnterKeepsUnseen(env.policy, m, at, ids, VerdictOf(env, a));
      case CheckDecisionDraft(_, _, at, ids, _, _, _) =>
        DecisionVerdict(env, a, op);
        EnterKeepsUnseen(env.policy, m, at, ids, VerdictOf(env, a));
    }
  }

  lemma NextKeepsUnseen(env: Env, m: Machine, a: Action)
    requires Safe(env.policy, m) && WaitingUnseen(m) && Next(env, m, a).Some?
    ensures WaitingUnseen(Next(env, m, a).value)
  {
    match a {
      case CheckIncidentDraft(_, _, _, _) => CheckKeepsUnseen(env, m, a);
      case CheckBreachDraft(_, _, _, _, _) => CheckKeepsUnseen(env, m, a);
      case CheckDecisionDraft(_, _, _, _, _, _, _) => CheckKeepsUnseen(env, m, a);
      case Begin(op) => BeginKeepsUnseen(env, m, op);
      case Exec => ExecKeepsUnseen(env, m);
      case Abort => RollbackKeepsUnseen(m, Next(env, m, a).value);
      case PublishFails(_) => RollbackKeepsUnseen(m, Next(env, m, a).value);
      case Tick(_) =>
      case Note(_) =>
      case Commit =>
      case SelectPending(_) =>
      case PublishRow(_, _) =>
    }
  }

  lemma {:induction false} EveryWaitingIsUnseen(env: Env, start: int, acts: seq<Action>)
    requires Execute(env, start, acts).Some?
    ensures WaitingUnseen(Execute(env, start, acts).value)
  {
    if acts != [] {
      var front := acts[..|acts| - 1];
      EveryWaitingIsUnseen(env, start, front);
      EveryRunIsSafe(env, start, front);
      NextKeepsUnseen(env, Execute(env, start, front).value, acts[|acts| - 1]);
    }
  }

  // ----- one audit per row, exactly -----

  lemma {:induction false} AuditedAreStaged(outbox: seq<AuditEvent>, action: AuditAction, x: Option<string>)
    ensures x in AuditedObjects(outbox, action) ==> exists a :: a in outbox && a.action == action && a.objectId == x
  {
    if outbox != [] {
      AuditedAreStaged(outbox[..|outbox| - 1], action, x);
    }
  }

  lemma {:induction false} IdsAreStored(s: Store, x: Option<string>)
    ensures x in IncidentIds(s.incidents) ==> exists i :: i in s.incidents && Some(i.incidentId) == x
    ensures x in BreachIds(s.breaches) ==> exists b :: b in s.breaches && Some(b.breachId) == x
    ensures x in DecisionIds(s.decisions) ==> exists d :: d in s.decisions && Some(d.decisionId) == x
    decreases |s.incidents| + |s.breaches| + |s.decisions|
  {
    if s.incidents != [] {
      IdsAreStored(s.(incidents := s.incidents[..|s.incidents| - 1]), x);
    } else if s.breaches != [] {
      IdsAreStored(s.(breaches := s.breaches[..|s.breaches| - 1]), x);
    } else if s.decisions != [] {
      IdsAreStored(s.(decisions := s.decisions[..|s.decisions| - 1]), x);
    }
  }

  /** Two lists stay equal exactly when both get a new element or neither does. */
  lemma EqualAfterAppend<T>(a: seq<T>, b: seq<T>, x: T, inA: bool, inB: bool)
    requires x !in a && x !in b
    ensures a + (if inA then [x] else []) == b + (if inB then [x] else []) <==> a == b && inA == inB
  {
    var a', b' := a + (if inA then [x] else []), b + (if inB then [x] else []);
    assert inA <==> x in a';
    assert inB <==> x in b';
    if a' == b' {
      assert a'[..|a|] == a && b'[..|b|] == b;
    }
  }

  predicate IsRecording(action: AuditAction) {
    action == IncidentRecordedAction || action == BreachRecordedAction || action == DecisionRecordedAction
  }

  /** The identifiers of the table that an action writes to. */
  function IdsOf(s: Store, action: AuditAction): seq<Option<string>> {
    match action
    case IncidentRecordedAction => IncidentIds(s.incidents)
    case BreachRecordedAction => BreachIds(s.breaches)
    case _ => DecisionIds(s.decisions)
  }

  ghost predicate ListsAgree(s: Store, action: AuditAction) {
    AuditedObjects(s.outbox, action) == IdsOf(s, action)
  }

  lemma UnseenIsUnlisted(s: Store, op: Op, action: AuditAction)
    requires Unseen(s, op) && !op.NoteOp? && IsRecording(action)
    ensures Some(RecordId(op)) !in IdsOf(s, action)
    ensures Some(RecordId(op)) !in AuditedObjects(s.outbox, action)
  {
    IdsAreStored(s, Some(RecordId(op)));
    AuditedAreStaged(s.outbox, action, Some(RecordId(op)));
  }

  lemma PartlyIds(s: Store, op: Op, record: bool, audit: bool, action: AuditAction)
    requires Tagged(op) && IsRecording(action)
    ensures IdsOf(Partly(s, op, record, audit), action)
      == IdsOf(s, action) + if record && op.event.action == action then [op.event.objectId] else []
  {
    match op {
      case IncidentOp(_, _, i, _, _) => assert (s.incidents + [i])[..|s.incidents|] == s.incidents;
      case BreachOp(_, _, _, _, row, _, _) => assert (s.breaches + [row])[..|s.breaches|] == s.breaches;
      case DecisionOp(_, _, _, _, d, _, _) =>
        assert (s.decisions + [d.(externalNotificationDispatched := false)])[..|s.decisions|] == s.decisions;
      case NoteOp(_) =>
    }
  }

  lemma PartlyAudits(s: Store, op: Op, record: bool, audit: bool, action: AuditAction)
    requires Tagged(op) && IsRecording(action)
    ensures AuditedObjects(Partly(s, op, record, audit).outbox, action)
      == AuditedObjects(s.outbox, action) + if audit && op.event.action == action then [op.event.objectId] else []
  {
    AuditedObjectsAppend(s.outbox, op.event, action);
  }

  lemma OneListAgrees(s: Store, op: Op, record: bool, audit: bool, action: AuditAction)
    requires Tagged(op) && Unseen(s, op) && IsRecording(action)
    ensures ListsAgree(Partly(s, op, record, audit), action)
      <==> ListsAgree(s, action) && (op.event.action == action ==> record == audit)
  {
    PartlyIds(s, op, record, audit, action);
    PartlyAudits(s, op, record, audit, action);
    if op.event.action == action {
      UnseenIsUnlisted(s, op, action);
      EqualAfterAppend(AuditedObjects(s.outbox, action), IdsOf(s, action), Some(RecordId(op)), audit, record);
    }
  }

  lemma CompleteByLists(s: Store)
    ensures AuditComplete(s) <==>
      ListsAgree(s, IncidentRecordedAction) && ListsAgree(s, BreachRecordedAction) && ListsAgree(s, DecisionRecordedAction)
  {
  }

  /** Adding a record, its audit, both or neither keeps one audit per row exactly
      when they come together. */
  lemma PartlyIsAudited(s: Store, op: Op, record: bool, audit: bool)
    requires Tagged(op) && Unseen(s, op)
    ensures AuditComplete(Partly(s, op, record, audit)) <==> AuditComplete(s) && (op.NoteOp? || record == audit)
  {
    OneListAgrees(s, op, record, audit, IncidentRecordedAction);
    OneListAgrees(s, op, record, audit, BreachRecordedAction);
    OneListAgrees(s, op, record, audit, DecisionRecordedAction);
    CompleteByLists(s);
    CompleteByLists(Partly(s, op, record, audit));
    assert op.NoteOp? || IsRecording(op.event.action);
  }

  /** What a state that holds a part of the open transaction says about its audits. */
  lemma PartIsAudited(s: Store, tx: Tx, positions: set<int>)
    requires HoldsPart(s, tx, positions) && Tagged(tx.op) && Unseen(tx.base, tx.op)
    ensures AuditComplete(s) <==>
      AuditComplete(tx.base) && (0 in positions <==> Length(tx) - 1 in positions)
  {
    var record, audit := 0 in positions, Length(tx) - 1 in positions;
    PartlyIsAudited(tx.base, tx.op, record, audit);
    SameRecordsSameAudits(s, Partly(tx.base, tx.op, record, audit));
  }

  lemma SameRecordsSameAudits(s: Store, t: Store)
    requires SameRecords(s, t)
    ensures AuditComplete(s) <==> AuditComplete(t)
  {
  }

  // ----- the audits over runs -----

  lemma OpenIsTagged(policy: AccessPolicy, m: Machine)
    requires Safe(policy, m) && m.open.Some?
    ensures Tagged(m.open.value.op)
  {
    assert Checked(policy, m.open.value.op);
    CheckedIsShaped(policy, m.open.value.op);
  }

  lemma EndIsAudited(env: Env, m: Machine, a: Action)
    requires Safe(env.policy, m) && WaitingUnseen(m) && RecordsTracked(m) && Tracked(m)
    requires Ends(m, a) && Next(env, m, a).Some?
    ensures AuditComplete(Resting(Next(env, m, a).value)) <==> AuditComplete(Resting(m)) && EndsPaired(m, a)
  {
    OpenIsTagged(env.policy, m);
    PartIsAudited(Next(env, m, a).value.committed, m.open.value, Surviving(m, a));
  }

  lemma EmptyIsAudited()
    ensures AuditComplete(EMPTY_STORE)
  {
  }

  /** In every run, whatever publishers do, the tables between transactions hold
      exactly one SUCCESS audit of the matching action per stored row if and only if
      every transaction that has ended left both its record and its audit, or neither. */
  lemma {:induction false} AuditsMatchExactly(env: Env, start: int, acts: seq<Action>)
    requires Execute(env, start, acts).Some?
    ensures AuditComplete(Resting(Execute(env, start, acts).value)) <==> Throughout(EndsPaired, env, start, acts)
  {
    if acts == [] {
      EmptyIsAudited();
    } else {
      var front, a := acts[..|acts| - 1], acts[|acts| - 1];
      var m := Execute(env, start, front).value;
      AuditsMatchExactly(env, start, front);
      RunFacts(env, start, front);
      if Ends(m, a) {
        EndIsAudited(env, m, a);
      } else {
        RestingStays(env, m, a);
      }
    }
  }

  /** The invariants of all runs. */
  lemma RunFacts(env: Env, start: int, acts: seq<Action>)
    requires Execute(env, start, acts).Some?
    ensures var m := Execute(env, start, acts).value;
      && Safe(env.policy, m) && Tracked(m) && BaseIsSafe(env.policy, m) && RecordsTracked(m) && WaitingUnseen(m)
  {
    EveryRunIsSafe(env, start, acts);
    EveryRunIsTracked(env, start, acts);
    EveryBaseIsSafe(env, start, acts);
    EveryRunTracksRecords(env, start, acts);
    EveryWaitingIsUnseen(env, start, acts);
  }

  // ----- runs in which no publisher fails inside an open transaction -----

  ghost predicate NothingLost(m: Machine) {
    m.open.Some? ==> m.open.value.kept == Span(0, m.open.value.start)
  }

  lemma NextLosesNothing(env: Env, m: Machine, a: Action)
    requires Tracked(m) && NothingLost(m) && LosesNothing(m, a) && Next(env, m, a).Some?
    ensures NothingLost(Next(env, m, a).value)
  {
    if m.open.Some? {
      SettledSpans(m.open.value.kept, m.open.value.start, m.open.value.done);
    }
  }

  lemma {:induction false} CarefulRunsLoseNothing(env: Env, start: int, acts: seq<Action>)
    requires Execute(env, start, acts).Some? && Throughout(LosesNothing, env, start, acts)
    ensures NothingLost(Execute(env, start, acts).value)
  {
    if acts != [] {
      var front := acts[..|acts| - 1];
      CarefulRunsLoseNothing(env, start, front);
      EveryRunIsTracked(env, start, front);
      NextLosesNothing(env, Execute(env, start, front).value, acts[|acts| - 1]);
    }
  }

  /** Where nothing was lost, the three ways of saying that an end is clean agree. */
  lemma CleanEnds(env: Env, m: Machine, a: Action)
    requires Tracked(m) && NothingLost(m) && Next(env, m, a).Some?
    ensures EndsWhole(m, a) <==> NotCut(m, a)
    ensures EndsPaired(m, a) <==> NotCut(m, a)
  {
    if m.open.Some? {
      var tx := m.open.value;
      SettledSpans(tx.kept, tx.start, tx.done);
      StatementKinds(tx.op, 0);
      assert 0 in Span(0, tx.start) <==> 0 < tx.start;
      assert Length(tx) - 1 in Span(0, tx.start) <==> tx.start == Length(tx);
    }
  }

  lemma {:induction false} CleanRuns(env: Env, start: int, acts: seq<Action>)
    requires Execute(env, start, acts).Some? && Throughout(LosesNothing, env, start, acts)
    ensures Throughout(EndsWhole, env, start, acts) <==> Throughout(NotCut, env, start, acts)
    ensures Throughout(EndsPaired, env, start, acts) <==> Throughout(NotCut, env, start, acts)
  {
    if acts != [] {
      var front := acts[..|acts| - 1];
      CleanRuns(env, start, front);
      EveryRunIsTracked(env, start, front);
      CarefulRunsLoseNothing(env, start, front);
      CleanEnds(env, Execute(env, start, front).value, acts[|acts| - 1]);
    }
  }

  lemma CompleteIsAudited(s: Store)
    requires Complete(s)
    ensures AuditComplete(s)
  {
  }

  /** In a run in which no publisher fails inside an open transaction, the tables
      between transactions are complete (timelines, row count and audits) if and only
      if no transaction was rolled back after a publisher had committed some, but not
      all, of its statements. */
  lemma RestIsCompleteExactly(env: Env, start: int, acts: seq<Action>)
    requires Execute(env, start, acts).Some? && Throughout(LosesNothing, env, start, acts)
    ensures Complete(Resting(Execute(env, start, acts).value)) <==> Throughout(NotCut, env, start, acts)
    ensures AuditComplete(Resting(Execute(env, start, acts).value)) <==> Throughout(NotCut, env, start, acts)
  {
    var m := Execute(env, start, acts).value;
    CleanRuns(env, start, acts);
    AuditsMatchExactly(env, start, acts);
    if Throughout(NotCut, env, start, acts) {
      WholeRunsAreComplete(env, start, acts);
    }
    if Complete(Resting(m)) {
      CompleteIsAudited(Resting(m));
    }
  }

  // ----- audits in the middle of transactions -----

  /** The record and the audit of an operation are both at these positions, or neither. */
  ghost predicate Paired(tx: Tx, positions: set<int>) {
    0 in positions <==> Length(tx) - 1 in positions
  }

  /** In any state of any run the committed rows are audited one by one if and only if
      every ended transaction left both its record and its audit, or neither, and so
      far the publishers' commits have done so with the open one; and the rows the
      connection sees if and only if the same holds of what is running. */
  lemma RowsAreAuditedExactly(env: Env, start: int, acts: seq<Action>)
    requires Execute(env, start, acts).Some?
    ensures var m := Execute(env, start, acts).value;
      && (AuditComplete(m.committed) <==>
            Throughout(EndsPaired, env, start, acts) && (m.open.Some? ==> Paired(m.open.value, m.open.value.kept)))
      && (AuditComplete(m.conn) <==>
            Throughout(EndsPaired, env, start, acts) && (m.open.Some? ==> Paired(m.open.value, Running(m.open.value))))
  {
    var m := Execute(env, start, acts).value;
    AuditsMatchExactly(env, start, acts);
    if m.open.Some? {
      OpenIsAudited(env, start, acts);
    } else {
      EveryRunIsTracked(env, start, acts);
    }
  }

  lemma OpenIsAudited(env: Env, start: int, acts: seq<Action>)
    requires Execute(env, start, acts).Some? && Execute(env, start, acts).value.open.Some?
    ensures var m := Execute(env, start, acts).value;
      var tx := m.open.value;
      && (AuditComplete(m.committed) <==> AuditComplete(tx.base) && Paired(tx, tx.kept))
      && (AuditComplete(m.conn) <==> AuditComplete(tx.base) && Paired(tx, Running(tx)))
  {
    var m := Execute(env, start, acts).value;
    OpenHoldsParts(env, start, acts);
    PartsAreAudited(m.committed, m.conn, m.open.value);
  }

  lemma PartsAreAudited(committed: Store, conn: Store, tx: Tx)
    requires Tagged(tx.op) && Unseen(tx.base, tx.op)
    requires HoldsPart(committed, tx, tx.kept) && HoldsPart(conn, tx, Running(tx))
    ensures AuditComplete(committed) <==> AuditComplete(tx.base) && Paired(tx, tx.kept)
    ensures AuditComplete(conn) <==> AuditComplete(tx.base) && Paired(tx, Running(tx))
  {
    PartIsAudited(committed, tx, tx.kept);
    PartIsAudited(conn, tx, Running(tx));
  }

  lemma OpenHoldsParts(env: Env, start: int, acts: seq<Action>)
    requires Execute(env, start, acts).Some? && Execute(env, start, acts).value.open.Some?
    ensures var m := Execute(env, start, acts).value;
      var tx := m.open.value;
      && Tagged(tx.op) && Unseen(tx.base, tx.op)
      && HoldsPart(m.committed, tx, tx.kept) && HoldsPart(m.conn, tx, Running(tx))
  {
    EveryRunIsSafe(env, start, acts);
    OpenIsTagged(env.policy, Execute(env, start, acts).value);
    EveryRunTracksRecords(env, start, acts);
    EveryWaitingIsUnseen(env, start, acts);
  }

  /** In a run in which no publisher fails inside an open transaction and none was cut,
      the connection is audited exactly while the open transaction has run none or all
      of its statements, and the committed tables exactly while publishers have
      committed none or all of them, however often other callers step in between. */
  lemma ConnectionIsAuditedExactly(env: Env, start: int, acts: seq<Action>)
    requires Execute(env, start, acts).Some?
    requires Throughout(LosesNothing, env, start, acts) && Throughout(NotCut, env, start, acts)
    ensures var m := Execute(env, start, acts).value;
      && (AuditComplete(m.conn) <==>
            (m.open.Some? ==> m.open.value.done == 0 || m.open.value.done == Length(m.open.value)))
      && (AuditComplete(m.committed) <==>
            (m.open.Some? ==> m.open.value.start == 0 || m.open.value.start == Length(m.open.value)))
  {
    var m := Execute(env, start, acts).value;
    RowsAreAuditedExactly(env, start, acts);
    CleanRuns(env, start, acts);
    EveryRunIsTracked(env, start, acts);
    if m.open.Some? {
      var tx := m.open.value;
      CarefulRunsLoseNothing(env, start, acts);
      SettledSpans(tx.kept, tx.start, tx.done);
      StatementKinds(tx.op, 0);
    }
  }

  // ----- one publisher -----

  /** The steps of a publisher that gets through its batch undisturbed; an event may be
      delivered or not. */
  function Deliveries(batch: seq<string>, delivered: seq<bool>): seq<Action>
    requires |batch| == |delivered|
  {
    if batch == [] then [] else [PublishRow(batch, delivered[0])] + Deliveries(batch[1..], delivered[1..])
  }

  predicate AllPublish(acts: seq<Action>) {
    forall a :: a in acts ==> a.PublishRow?
  }

  lemma {:induction false} DeliveriesPublish(batch: seq<string>, delivered: seq<bool>)
    requires |batch| == |delivered|
    ensures AllPublish(Deliveries(batch, delivered)) && (Deliveries(batch, delivered) == [] <==> batch == [])
  {
    if batch != [] {
      DeliveriesPublish(batch[1..], delivered[1..]);
    }
  }

  lemma {:induction false} DeliveriesRun(env: Env, m: Machine, batch: seq<string>, delivered: seq<bool>)
    requires batch in m.publishers && |batch| == |delivered|
    ensures Continue(env, m, Deliveries(batch, delivered)).Some?
    decreases |batch|
  {
    if batch != [] {
      var a := PublishRow(batch, delivered[0]);
      DeliveriesRun(env, Next(env, m, a).value, batch[1..], delivered[1..]);
      ContinueFirst(env, m, a, Deliveries(batch[1..], delivered[1..]));
    }
  }

  /** Any sequence of publishers' steps commits the connection, unless it is empty. */
  lemma {:induction false} PublishersCommit(env: Env, m: Machine, acts: seq<Action>)
    requires AllPublish(acts) && Continue(env, m, acts).Some?
    ensures var m' := Continue(env, m, acts).value;
      m'.conn == m.conn && m'.committed == if acts == [] then m.committed else m.conn
    decreases |acts|
  {
    if acts != [] {
      assert acts[0].PublishRow?;
      PublishersCommit(env, Next(env, m, acts[0]).value, acts[1..]);
    }
  }

  /** A call of `publish_pending`, whichever events are delivered, commits the connection,
      unless nothing was pending. */
  lemma PublishPendingCommits(env: Env, m: Machine, batch: seq<string>, delivered: seq<bool>)
    requires Selects(m, batch) && |batch| == |delivered|
    ensures batch == [] <==> forall a :: a in m.conn.outbox ==> a.eventId in m.published
    ensures var m' := Continue(env, m, [SelectPending(batch)] + Deliveries(batch, delivered));
      m'.Some? && m'.value.conn == m.conn && m'.value.committed == if batch == [] then m.committed else m.conn
  {
    if batch != [] {
      assert IsPending(m, batch[0]);
    }
    var m1 := Next(env, m, SelectPending(batch)).value;
    ContinueFirst(env, m, SelectPending(batch), Deliveries(batch, delivered));
    DeliveriesRun(env, m1, batch, delivered);
    DeliveriesPublish(batch, delivered);
    PublishersCommit(env, m1, Deliveries(batch, delivered));
  }

  /** Publishers' steps that are taken while every committed row is audited, any number of
      them, in any order and of any selections, keep it so if and only if there are none,
      or no transaction is open, or the open one has run none or all of its statements. */
  lemma PublishKeepsAuditExactly(env: Env, start: int, acts: seq<Action>, more: seq<Action>)
    requires Execute(env, start, acts).Some?
    requires Throughout(LosesNothing, env, start, acts) && Throughout(NotCut, env, start, acts)
    requires AuditComplete(Execute(env, start, acts).value.committed)
    requires AllPublish(more) && Continue(env, Execute(env, start, acts).value, more).Some?
    ensures var m := Execute(env, start, acts).value;
      AuditComplete(Continue(env, m, more).value.committed)
      <==> more == [] || m.open.None? || m.open.value.done == 0 || m.open.value.done == Length(m.open.value)
  {
    PublishersCommit(env, Execute(env, start, acts).value, more);
    ConnectionIsAuditedExactly(env, start, acts);
  }

  // ----- runs that lose an audit or a record -----

  /** A run that leaves one event staged, committed and selected by a publisher. */
  function OnePending(event: AuditEvent): seq<Action> {
    [Note(event)] + ([Begin(NoteOp(event))] + ([Exec] + ([Commit] + ([SelectPending([event.eventId])] + []))))
  }

  ghost predicate HasOnePending(m: Machine, start: int, event: AuditEvent) {
    && m.now == start && m.open.None? && m.waiting == {} && m.issued == map[]
    && m.conn == m.committed == EMPTY_STORE.(outbox := [event])
    && [event.eventId] in m.publishers
  }

  lemma OnePendingRuns(env: Env, start: int, event: AuditEvent)
    requires event.action == AuthorizationAction
    ensures exists m :: Continue(env, Start(start), OnePending(event)) == Some(m) && HasOnePending(m, start, event)
  {
    var op, select := NoteOp(event), [SelectPending([event.eventId])] + [];
    var m0 := Start(start);
    var m1 := Next(env, m0, Note(event)).value;
    var m2 := Next(env, m1, Begin(op)).value;
    var m3 := Next(env, m2, Exec).value;
    var m4 := Next(env, m3, Commit).value;
    ContinueFirst(env, m0, Note(event), [Begin(op)] + ([Exec] + ([Commit] + select)));
    ContinueFirst(env, m1, Begin(op), [Exec] + ([Commit] + select));
    ContinueFirst(env, m2, Exec, [Commit] + select);
    ContinueFirst(env, m3, Commit, select);
    SelectsTheOne(env, m4, start, event);
  }

  lemma SelectsTheOne(env: Env, m: Machine, start: int, event: AuditEvent)
    requires m.now == start && m.open.None? && m.waiting == {} && m.issued == map[] && m.published == {}
    requires m.conn == m.committed == EMPTY_STORE.(outbox := [event])
    ensures exists m' :: Continue(env, m, [SelectPending([event.eventId])] + []) == Some(m') && HasOnePending(m', start, event)
  {
    assert event in m.conn.outbox;
    assert Selects(m, [event.eventId]);
    ContinueFirst(env, m, SelectPending([event.eventId]), []);
  }

  /** An incident whose transaction a publisher commits after the first statement
      and whose caller then rolls back. */
  function CutShort(op: Op, batch: seq<string>): seq<Action> {
    [Begin(op)] + ([Exec] + ([PublishRow(batch, true)] + ([Abort] + [])))
  }

  lemma CutShortRuns(env: Env, m: Machine, op: Op, batch: seq<string>)
    requires op.IncidentOp? && op in m.waiting && m.open.None? && m.conn == m.committed
    requires CanInsert(m.conn, IncidentRow(op.incident)) && batch in m.publishers && batch != []
    ensures var m' := Continue(env, m, CutShort(op, batch));
      m'.Some? && m'.value.open.None? && m'.value.committed == Insert(m.committed, IncidentRow(op.incident))
  {
    var rest := [PublishRow(batch, true)] + ([Abort] + []);
    assert Rows(op)[0] == IncidentRow(op.incident);
    var m1 := Next(env, m, Begin(op)).value;
    var m2 := Next(env, m1, Exec).value;
    ContinueFirst(env, m, Begin(op), [Exec] + rest);
    ContinueFirst(env, m1, Exec, rest);
    PublishedThenAborted(env, m2, batch);
  }

  /** What a publisher has committed, a rollback no longer undoes. */
  lemma PublishedThenAborted(env: Env, m: Machine, batch: seq<string>)
    requires m.open.Some? && batch in m.publishers && batch != []
    ensures var m' := Continue(env, m, [PublishRow(batch, true)] + ([Abort] + []));
      m'.Some? && m'.value.open.None? && m'.value.committed == m.conn
  {
    var m1 := Next(env, m, PublishRow(batch, true)).value;
    ContinueFirst(env, m, PublishRow(batch, true), [Abort] + []);
    ContinueFirst(env, m1, Abort, []);
  }

  /** An incident whose first two statements a failing publisher rolls back, and
      whose caller goes on and commits. */
  function RolledBack(op: Op, batch: seq<string>): seq<Action> {
    [Begin(op)] + ([Exec] + ([Exec] + ([PublishFails(batch)] + ([Exec] + ([Commit] + [])))))
  }

  lemma RolledBackRuns(env: Env, m: Machine, op: Op, batch: seq<string>)
    requires op.IncidentOp? && op in m.waiting && m.open.None? && m.conn == m.committed
    requires InsertAll(m.conn, Rows(op), None).0 == Written && op.entry.incidentId == op.incident.incidentId
    requires op.entry.breachId == None && batch in m.publishers && batch != []
    ensures var m' := Continue(env, m, RolledBack(op, batch));
      m'.Some? && m'.value.open.None? && m'.value.committed == Insert(m.committed, AuditRow(op.event))
  {
    var first, second, third := IncidentRow(op.incident), TimelineRow(op.entry), AuditRow(op.event);
    assert Rows(op) == [first] + [second, third];
    RunFirst(m.conn, first, [second, third], None);
    assert [second, third] == [second] + [third];
    RunFirst(Insert(m.conn, first), second, [third], None);
    assert [third] == [third] + [];
    RunFirst(Insert(Insert(m.conn, first), second), third, [], None);
    var rest := [PublishFails(batch)] + ([Exec] + ([Commit] + []));
    var m1 := Next(env, m, Begin(op)).value;
    var m2 := Next(env, m1, Exec).value;
    var m3 := Next(env, m2, Exec).value;
    ContinueFirst(env, m, Begin(op), [Exec] + ([Exec] + rest));
    ContinueFirst(env, m1, Exec, [Exec] + rest);
    ContinueFirst(env, m2, Exec, rest);
    LastStatementAlone(env, m3, op, batch);
  }

  /** After the rollback only the last statement is left to run and commit. */
  lemma LastStatementAlone(env: Env, m: Machine, op: Op, batch: seq<string>)
    requires m.open.Some? && m.open.value.op == op && m.open.value.done == |Rows(op)| - 1
    requires CanInsert(m.committed, AuditRow(op.event)) && batch in m.publishers && batch != []
    ensures var m' := Continue(env, m, [PublishFails(batch)] + ([Exec] + ([Commit] + [])));
      m'.Some? && m'.value.open.None? && m'.value.committed == Insert(m.committed, AuditRow(op.event))
  {
    StatementKinds(op, |Rows(op)| - 1);
    var m1 := Next(env, m, PublishFails(batch)).value;
    var m2 := Next(env, m1, Exec).value;
    ContinueFirst(env, m, PublishFails(batch), [Exec] + ([Commit] + []));
    ContinueFirst(env, m1, Exec, [Commit] + []);
    ContinueFirst(env, m2, Commit, []);
  }

  /** After such a publish in the middle of a transaction its rollback leaves the
      record without its audit. */
  lemma PublishThenRollbackLosesAudit(env: Env, start: int, acts: seq<Action>, batch: seq<string>)
    requires Execute(env, start, acts).Some?
    requires Throughout(LosesNothing, env, start, acts) && Throughout(NotCut, env, start, acts)
    requires var m := Execute(env, start, acts).value;
      m.open.Some? && 0 < m.open.value.done < Length(m.open.value) && batch in m.publishers && batch != []
    ensures var m' := Execute(env, start, acts + ([PublishRow(batch, true)] + ([Abort] + [])));
      m'.Some? && m'.value.open.None? && !AuditComplete(m'.value.committed)
  {
    ConnectionIsAuditedExactly(env, start, acts);
    PublishedThenAborted(env, Execute(env, start, acts).value, batch);
    ExecuteThenContinue(env, start, acts, [PublishRow(batch, true)] + ([Abort] + []));
  }

  lemma RunsFromStart(env: Env, start: int, acts: seq<Action>)
    ensures Execute(env, start, acts) == Continue(env, Start(start), acts)
  {
    assert [] + acts == acts;
    ExecuteThenContinue(env, start, [], acts);
  }

  /** The state in which an incident has passed its checks while another caller's
      denial waits in a publisher's selection. */
  lemma CheckedBesidePending(env: Env, start: int, draft: SecurityIncidentDraft, context: Option<ActorContext>, ids: Ids,
                             event: AuditEvent)
    requires CheckIncident(env.policy, env.isUuid, draft, context, Aware(start), ids).Proceed?
    requires event.action == AuthorizationAction
    ensures var op := CheckIncident(env.policy, env.isUuid, draft, context, Aware(start), ids).op;
      var m := Continue(env, Start(start), OnePending(event) + [CheckIncidentDraft(draft, context, start, ids)]);
      && m.Some? && m.value.open.None? && op in m.value.waiting && [event.eventId] in m.value.publishers
      && m.value.conn == m.value.committed == EMPTY_STORE.(outbox := [event])
  {
    OnePendingRuns(env, start, event);
    var m := Continue(env, Start(start), OnePending(event)).value;
    var check := CheckIncidentDraft(draft, context, start, ids);
    ContinueConcat(env, Start(start), OnePending(event), [check]);
    assert [check] == [check] + [];
    ContinueFirst(env, m, check, []);
  }

  /** Every incident draft that passes its checks can lose its audit: while another
      caller's denial is being published, the transaction runs its first statement,
      the publisher commits it, and the transaction is rolled back. */
  lemma AnyIncidentCanLoseItsAudit(env: Env, start: int, draft: SecurityIncidentDraft, context: Option<ActorContext>, ids: Ids,
                                   event: AuditEvent)
    returns (acts: seq<Action>)
    requires CheckIncident(env.policy, env.isUuid, draft, context, Aware(start), ids).Proceed?
    requires event.action == AuthorizationAction
    ensures var op := CheckIncident(env.policy, env.isUuid, draft, context, Aware(start), ids).op;
      var m := Execute(env, start, acts);
      m.Some? && m.value.open.None? && m.value.committed == EMPTY_STORE.(incidents := [op.incident], outbox := [event])
  {
    var op := CheckIncident(env.policy, env.isUuid, draft, context, Aware(start), ids).op;
    var ready := OnePending(event) + [CheckIncidentDraft(draft, context, start, ids)];
    CheckedBesidePending(env, start, draft, context, ids, event);
    CutShortRuns(env, Continue(env, Start(start), ready).value, op, [event.eventId]);
    acts := ready + CutShort(op, [event.eventId]);
    ContinueConcat(env, Start(start), ready, CutShort(op, [event.eventId]));
    RunsFromStart(env, start, acts);
  }

  /** It can also lose its record and keep its audit: the publisher's update fails
      after the second statement, and the transaction goes on and commits. */
  lemma AnyIncidentCanLoseItsRecord(env: Env, start: int, draft: SecurityIncidentDraft, context: Option<ActorContext>, ids: Ids,
                                    event: AuditEvent)
    returns (acts: seq<Action>)
    requires CheckIncident(env.policy, env.isUuid, draft, context, Aware(start), ids).Proceed?
    requires event.action == AuthorizationAction && event.eventId != ids.eventId
    ensures var op := CheckIncident(env.policy, env.isUuid, draft, context, Aware(start), ids).op;
      var m := Execute(env, start, acts);
      m.Some? && m.value.open.None? && m.value.committed == EMPTY_STORE.(outbox := [event, op.event])
  {
    var op := CheckIncident(env.policy, env.isUuid, draft, context, Aware(start), ids).op;
    var ready := OnePending(event) + [CheckIncidentDraft(draft, context, start, ids)];
    CheckedBesidePending(env, start, draft, context, ids, event);
    var m := Continue(env, Start(start), ready).value;
    IncidentIsAdmitted(m.conn, env, draft, context, Aware(start), ids);
    RolledBackRuns(env, m, op, [event.eventId]);
    acts := ready + RolledBack(op, [event.eventId]);
    ContinueConcat(env, Start(start), ready, RolledBack(op, [event.eventId]));
    RunsFromStart(env, start, acts);
    assert [event] + [op.event] == [event, op.event];
  }

  lemma IncidentIsAdmitted(s: Store, env: Env, draft: SecurityIncidentDraft, context: Option<ActorContext>, clock: Timestamp, ids: Ids)
    requires CheckIncident(env.policy, env.isUuid, draft, context, clock, ids).Proceed?
    requires s.incidents == [] && s.timeline == [] && forall a :: a in s.outbox ==> a.eventId != ids.eventId
    ensures var op := CheckIncident(env.policy, env.isUuid, draft, context, clock, ids).op;
      && InsertAll(s, Rows(op), None).0 == Written
      && op.entry.incidentId == op.incident.incidentId && op.entry.breachId == None
  {
    var op := CheckIncident(env.policy, env.isUuid, draft, context, clock, ids).op;
    TransactionIsAtomic(s, op, None);
  }

  /** A policy, a denial, a context and a draft for which both happen. */
  lemma AnIncidentLosesItsAudit()
    ensures exists env, start, acts :: Execute(env, start, acts).Some?
              && var m := Execute(env, start, acts).value;
                 m.open.None? && m.committed.incidents != [] && m.committed.timeline == []
                 && forall a :: a in m.committed.outbox ==> a.result == Denied
    ensures exists env, start, acts :: Execute(env, start, acts).Some?
              && var m := Execute(env, start, acts).value;
                 m.open.None? && m.committed.incidents == []
                 && exists a :: a in m.committed.outbox && a.action == IncidentRecordedAction && a.result == Success
  {
    var env := Env(AccessPolicy("V", "A", {"R"}, {"P"}), (s: string) => true);
    var c := ActorContext("u", User, "s", {"R"}, {"x"}, {}, false, false, 0, 10, "A", "k", true);
    var draft := SecurityIncidentDraft("r", Aware(1), Member(Application), Member(Low), "E", Member(SourceScope), Some("x"), "v");
    var event := DenialAudit(env.policy, None, "UNTRUSTED_CONTEXT", 2, "d");
    assert "R" in c.roles * env.policy.incidentRoles;
    var audit := AnyIncidentCanLoseItsAudit(env, 2, draft, Some(c), Ids("i", "t", "", "", "e"), event);
    var record := AnyIncidentCanLoseItsRecord(env, 2, draft, Some(c), Ids("i", "t", "", "", "e"), event);
    var op := CheckIncident(env.policy, env.isUuid, draft, Some(c), Aware(2), Ids("i", "t", "", "", "e")).op;
    assert op.event in Execute(env, 2, record).value.committed.outbox;
  }
}
