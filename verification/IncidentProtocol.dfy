/** Many callers on one shared connection, as a state machine.  Callers check
    first and write later; a transaction runs statement by statement; reads are
    not locked and see uncommitted rows; and a publisher of the outbox, which does
    not take the repository lock, commits or rolls back the shared connection once
    for each pending event it has selected. */
module IncidentProtocol {
  import opened IncidentModels
  import opened IncidentStore
  import opened IncidentChecks
  import opened IncidentHistory

  /** The service configuration and the library's UUID parser. */
  datatype Env = Env(policy: AccessPolicy, isUuid: string -> bool)

  /** The transaction that holds the lock, the committed tables when it took it, and
      how many of its statements have run.  A publisher ends what the connection has
      open: the statements before `start` are settled, the ones in `kept` committed
      and the others lost. */
  datatype Tx = Tx(op: Op, base: Store, done: nat, start: nat, kept: set<int>)

  /** `conn` is what the connection sees, `committed` what a rollback returns to.
      `issued` remembers every record identifier drawn, `seenIncidents` and
      `seenBreaches` every row that was ever visible, committed or not.
      `published` are the events no longer pending, `publishers` the events that
      each running publisher has selected and not yet gone through. */
  datatype Machine = Machine(
    now: int, committed: Store, conn: Store, open: Option<Tx>, waiting: set<Op>, issued: map<string, Op>,
    seenIncidents: set<SecurityIncident>, seenBreaches: set<BreachRow>,
    published: set<string>, publishers: multiset<seq<string>>)

  datatype Action =
    | Tick(to: int)
    | CheckIncidentDraft(incidentDraft: SecurityIncidentDraft, context: Option<ActorContext>, at: int, ids: Ids)
    | CheckBreachDraft(breachDraft: BreachSuspicionDraft, context: Option<ActorContext>, at: int, ids: Ids, read: SecurityIncident)
    | CheckDecisionDraft(decisionDraft: BreachDecisionDraft, context: Option<ActorContext>, at: int, ids: Ids,
                         row: BreachRow, decided: bool, read: SecurityIncident)
    | Note(event: AuditEvent)  // a denial or a view to be audited
    | Begin(op: Op)
    | Exec
    | Commit
    | Abort
    | SelectPending(batch: seq<string>)                 // a publisher reads the pending events
    | PublishRow(batch: seq<string>, delivered: bool)   // its UPDATE for the first of them, and the commit
    | PublishFails(batch: seq<string>)                  // its UPDATE fails: rollback, and the publisher raises

  function Start(now: int): Machine {
    Machine(now, EMPTY_STORE, EMPTY_STORE, None, {}, map[], {}, {}, {}, multiset{})
  }

  function RecordId(op: Op): string
    requires !op.NoteOp?
  {
    match op
    case IncidentOp(_, _, i, _, _) => i.incidentId
    case BreachOp(_, _, _, _, row, _, _) => row.breachId
    case DecisionOp(_, _, _, _, d, _, _) => d.decisionId
  }

  /** A call passes its check phase: its clock reading is not in the future and
      its record identifier has never been drawn before. */
  function Enter(m: Machine, at: int, ids: Ids, verdict: Verdict): Option<Machine> {
    if at > m.now || ids.recordId in m.issued || !verdict.Proceed? then None
    else Some(m.(waiting := m.waiting + {verdict.op}, issued := m.issued[ids.recordId := verdict.op]))
  }

  function Visible(m: Machine, s: Store): Machine {
    m.(conn := s,
       seenIncidents := m.seenIncidents + (set i | i in s.incidents),
       seenBreaches := m.seenBreaches + (set b | b in s.breaches))
  }

  /** The positions from `low` up to, but not including, `high`. */
  function Span(low: int, high: int): (span: set<int>)
    ensures forall k :: k in span <==> low <= k < high
    decreases high - low
  {
    if low >= high then {} else Span(low, high - 1) + {high - 1}
  }

  /** The connection is committed; what the open transaction has run so far is kept. */
  function Keep(m: Machine): Machine {
    m.(committed := m.conn,
       open := if m.open.None? then None
               else Some(m.open.value.(start := m.open.value.done,
                                       kept := m.open.value.kept + Span(m.open.value.start, m.open.value.done))))
  }

  /** The connection is rolled back; what the open transaction has run since the
      last commit is lost, but its caller does not notice and goes on. */
  function Lose(m: Machine): Machine {
    m.(conn := m.committed,
       open := if m.open.None? then None else Some(m.open.value.(start := m.open.value.done)))
  }

  const PUBLISH_LIMIT := 100

  predicate IsPending(m: Machine, id: string) {
    id !in m.published && exists a :: a in m.conn.outbox && a.eventId == id
  }

  /** A selection lists pending events, each once, and all of them unless it hits the limit. */
  predicate Selects(m: Machine, batch: seq<string>) {
    && |batch| <= PUBLISH_LIMIT
    && (forall j, k :: 0 <= j < k < |batch| ==> batch[j] != batch[k])
    && (forall id :: id in batch ==> IsPending(m, id))
    && (|batch| < PUBLISH_LIMIT ==> forall a :: a in m.conn.outbox && a.eventId !in m.published ==> a.eventId in batch)
  }

  function PendingIds(m: Machine): set<string> {
    set a | a in m.conn.outbox && a.eventId !in m.published :: a.eventId
  }

  function SetOf(batch: seq<string>): set<string> {
    set id | id in batch
  }

  lemma {:induction false} DistinctAreAsMany(batch: seq<string>)
    ensures |SetOf(batch)| <= |batch|
    ensures |SetOf(batch)| == |batch| <==> forall j, k :: 0 <= j < k < |batch| ==> batch[j] != batch[k]
  {
    if batch != [] {
      var front, last := batch[..|batch| - 1], batch[|batch| - 1];
      DistinctAreAsMany(front);
      assert batch == front + [last];
      assert SetOf(batch) == SetOf(front) + {last};
      if last in front {
        assert SetOf(batch) == SetOf(front);
        var j :| 0 <= j < |front| && front[j] == last;
        assert batch[j] == batch[|batch| - 1];
      } else {
        assert forall j, k :: 0 <= j < k < |front| ==> front[j] == batch[j] && front[k] == batch[k];
      }
    }
  }

  lemma SubsetIsSmaller(a: set<string>, b: set<string>)
    requires a <= b
    ensures |a| <= |b| && (|a| == |b| <==> a == b)
  {
    assert b == a + (b - a);
  }

  /** A selection lists as many different pending events as there are, but at most 100. */
  lemma SelectionExactly(m: Machine, batch: seq<string>)
    ensures Selects(m, batch) <==>
      && SetOf(batch) <= PendingIds(m) && |SetOf(batch)| == |batch|
      && |batch| == if |PendingIds(m)| < 100 then |PendingIds(m)| else 100
  {
    DistinctAreAsMany(batch);
    var pending := PendingIds(m);
    assert (forall id :: id in batch ==> IsPending(m, id)) <==> SetOf(batch) <= pending by {
      if SetOf(batch) <= pending {
        forall id | id in batch ensures IsPending(m, id) {
          assert id in SetOf(batch);
        }
      }
    }
    assert (forall a :: a in m.conn.outbox && a.eventId !in m.published ==> a.eventId in batch) <==> pending <= SetOf(batch) by {
      if pending <= SetOf(batch) {
        forall a | a in m.conn.outbox && a.eventId !in m.published ensures a.eventId in batch {
          assert a.eventId in pending;
        }
      }
    }
    if SetOf(batch) <= pending {
      SubsetIsSmaller(SetOf(batch), pending);
    }
  }

  /** One step, or nothing when the action is not enabled. */
  function Next(env: Env, m: Machine, a: Action): Option<Machine> {
    match a
    case Tick(to) => if to < m.now then None else Some(m.(now := to))
    case CheckIncidentDraft(draft, context, at, ids) =>
      Enter(m, at, ids, CheckIncident(env.policy, env.isUuid, draft, context, Aware(at), ids))
    case CheckBreachDraft(draft, context, at, ids, read) =>
      if read !in m.seenIncidents || read.incidentId != draft.incidentId then None
      else Enter(m, at, ids, CheckBreach(env.policy, env.isUuid, draft, context, Aware(at), ids, Found(read)))
    case CheckDecisionDraft(draft, context, at, ids, row, decided, read) =>
      if row !in m.seenBreaches || row.breachId != draft.breachId then None
      else if read !in m.seenIncidents || read.incidentId != row.incidentId then None
      else Enter(m, at, ids, CheckDecision(env.policy, env.isUuid, draft, context, Aware(at), ids,
                                           DecodeBreach(row, decided), Found(read)))
    case Note(event) =>
      if event.action == AuthorizationAction || event.action == TimelineViewedAction
      then Some(m.(waiting := m.waiting + {NoteOp(event)})) else None
    case Begin(op) =>
      if op in m.waiting && m.open.None? then Some(m.(waiting := m.waiting - {op}, open := Some(Tx(op, m.committed, 0, 0, {})))) else None
    case Exec =>
      if m.open.None? then None
      else
        var op, k := m.open.value.op, m.open.value.done;
        if k < |Rows(op)| && CanInsert(m.conn, Rows(op)[k])
        then Some(Visible(m, Insert(m.conn, Rows(op)[k])).(open := Some(m.open.value.(done := k + 1)))) else None
    case Commit =>
      if m.open.Some? && m.open.value.done == |Rows(m.open.value.op)|
      then Some(m.(committed := m.conn, open := None)) else None
    case Abort =>
      if m.open.Some? then Some(m.(conn := m.committed, open := None)) else None
    case SelectPending(batch) =>
      if Selects(m, batch) then Some(m.(publishers := m.publishers + multiset{batch})) else None
    case PublishRow(batch, delivered) =>
      if batch in m.publishers && batch != []
      then Some(Keep(m).(publishers := m.publishers - multiset{batch} + multiset{batch[1..]},
                         published := m.published + if delivered then {batch[0]} else {}))
      else None
    case PublishFails(batch) =>
      if batch in m.publishers && batch != []
      then Some(Lose(m).(publishers := m.publishers - multiset{batch})) else None
  }

  /** Where a run of actions leads from the empty database. */
  function Execute(env: Env, start: int, acts: seq<Action>): Option<Machine> {
    if acts == [] then Some(Start(start))
    else
      match Execute(env, start, acts[..|acts| - 1])
      case None => None
      case Some(m) => Next(env, m, acts[|acts| - 1])
  }

  // ----- what every reachable state satisfies -----

  /** What an operation read was itself issued. */
  ghost predicate ReadsIssued(issued: map<string, Op>, op: Op) {
    match op
    case IncidentOp(_, _, _, _, _) => true
    case BreachOp(_, _, read, _, _, _, _) => IncidentIssued(issued, read)
    case DecisionOp(_, _, read, readBreach, _, _, _) =>
      && IncidentIssued(issued, read)
      && readBreach.breachId in issued && issued[readBreach.breachId].BreachOp?
      && Denotes(issued[readBreach.breachId].row, readBreach)
    case NoteOp(_) => true
  }

  ghost predicate IncidentIssued(issued: map<string, Op>, i: SecurityIncident) {
    i.incidentId in issued && issued[i.incidentId].IncidentOp? && issued[i.incidentId].incident == i
  }

  ghost predicate BreachIssued(issued: map<string, Op>, b: BreachRow) {
    b.breachId in issued && issued[b.breachId].BreachOp? && issued[b.breachId].row == b
  }

  ghost predicate DecisionIssued(issued: map<string, Op>, d: BreachDecision) {
    d.decisionId in issued && issued[d.decisionId].DecisionOp? && issued[d.decisionId].decision == d
  }

  /** A SUCCESS event of a writing action is the one its record was issued with. */
  ghost predicate AuditIssued(issued: map<string, Op>, a: AuditEvent) {
    a.action == AuthorizationAction || a.action == TimelineViewedAction ||
    (a.objectId.Some? && a.objectId.value in issued && issued[a.objectId.value].event == a)
  }

  ghost predicate RowsIssued(issued: map<string, Op>, s: Store) {
    && (forall i :: i in s.incidents ==> IncidentIssued(issued, i))
    && (forall b :: b in s.breaches ==> BreachIssued(issued, b))
    && (forall d :: d in s.decisions ==> DecisionIssued(issued, d))
    && (forall a :: a in s.outbox ==> AuditIssued(issued, a))
  }

  ghost predicate Drawn(issued: map<string, Op>, op: Op) {
    op.NoteOp? || (RecordId(op) in issued && issued[RecordId(op)] == op)
  }

  /** Every issued operation was checked, at a time not in the future, against issued records. */
  ghost predicate WellIssued(policy: AccessPolicy, now: int, issued: map<string, Op>) {
    forall id :: id in issued ==>
      && !issued[id].NoteOp? && RecordId(issued[id]) == id
      && Checked(policy, issued[id]) && issued[id].at <= now && ReadsIssued(issued, issued[id])
  }

  ghost predicate CallersDrawn(policy: AccessPolicy, m: Machine) {
    && (forall op :: op in m.waiting ==> Drawn(m.issued, op) && Checked(policy, op))
    && (m.open.Some? ==> Drawn(m.issued, m.open.value.op) && Checked(policy, m.open.value.op))
  }

  ghost predicate SightingsIssued(m: Machine) {
    && (forall i :: i in m.seenIncidents ==> IncidentIssued(m.issued, i))
    && (forall b :: b in m.seenBreaches ==> BreachIssued(m.issued, b))
  }

  ghost predicate History(policy: AccessPolicy, m: Machine) {
    && WellIssued(policy, m.now, m.issued)
    && CallersDrawn(policy, m)
    && SightingsIssued(m)
    && RowsIssued(m.issued, m.conn)
    && RowsIssued(m.issued, m.committed)
  }

  ghost predicate Tables(m: Machine) {
    && SoundAndPresentable(m.conn)
    && SoundAndPresentable(m.committed)
    && Extends(m.committed, m.conn)
  }

  ghost predicate Safe(policy: AccessPolicy, m: Machine) {
    History(policy, m) && Tables(m)
  }

  /** Identifiers are drawn once, so whatever row now carries an identifier is the
      row every caller that read it has seen, even if it was rolled back in between. */
  lemma IssuedIsSupported(policy: AccessPolicy, m: Machine, s: Store, op: Op)
    requires WellIssued(policy, m.now, m.issued) && RowsIssued(m.issued, s) && Drawn(m.issued, op)
    ensures Supported(s, op)
  {
  }

  lemma {:induction false} IssuedGrows(issued: map<string, Op>, id: string, op: Op, other: Op)
    requires id !in issued && ReadsIssued(issued, other)
    ensures ReadsIssued(issued[id := op], other)
  {
  }

  lemma RowsStayIssued(issued: map<string, Op>, id: string, op: Op, s: Store)
    requires id !in issued && RowsIssued(issued, s)
    ensures RowsIssued(issued[id := op], s)
  {
    var more := issued[id := op];
    forall i | i in s.incidents ensures IncidentIssued(more, i) { assert IncidentIssued(issued, i); }
    forall b | b in s.breaches ensures BreachIssued(more, b) { assert BreachIssued(issued, b); }
    forall d | d in s.decisions ensures DecisionIssued(more, d) { assert DecisionIssued(issued, d); }
    forall a | a in s.outbox ensures AuditIssued(more, a) { assert AuditIssued(issued, a); }
  }

  lemma IssuedStaysWell(policy: AccessPolicy, now: int, issued: map<string, Op>, id: string, op: Op)
    requires WellIssued(policy, now, issued) && id !in issued
    requires !op.NoteOp? && RecordId(op) == id && op.at <= now && Checked(policy, op) && ReadsIssued(issued, op)
    ensures WellIssued(policy, now, issued[id := op])
  {
    var more := issued[id := op];
    forall x | x in more ensures ReadsIssued(more, more[x]) {
      IssuedGrows(issued, id, op, more[x]);
    }
  }

  lemma EnterKeepsHistory(policy: AccessPolicy, m: Machine, at: int, ids: Ids, verdict: Verdict)
    requires History(policy, m) && Enter(m, at, ids, verdict).Some?
    requires !verdict.op.NoteOp? && RecordId(verdict.op) == ids.recordId && verdict.op.at == at
    requires Checked(policy, verdict.op) && ReadsIssued(m.issued, verdict.op)
    ensures History(policy, Enter(m, at, ids, verdict).value)
  {
    var id, op := ids.recordId, verdict.op;
    var m' := Enter(m, at, ids, verdict).value;
    RowsStayIssued(m.issued, id, op, m.conn);
    RowsStayIssued(m.issued, id, op, m.committed);
    IssuedStaysWell(policy, m.now, m.issued, id, op);
    SightingsStayIssued(m, m', id, op);
    CallersStayDrawn(policy, m, m', id, op);
  }

  lemma SightingsStayIssued(m: Machine, m': Machine, id: string, op: Op)
    requires SightingsIssued(m) && id !in m.issued && m'.issued == m.issued[id := op]
    requires m'.seenIncidents == m.seenIncidents && m'.seenBreaches == m.seenBreaches
    ensures SightingsIssued(m')
  {
    forall i | i in m'.seenIncidents ensures IncidentIssued(m'.issued, i) { assert IncidentIssued(m.issued, i); }
    forall b | b in m'.seenBreaches ensures BreachIssued(m'.issued, b) { assert BreachIssued(m.issued, b); }
  }

  lemma CallersStayDrawn(policy: AccessPolicy, m: Machine, m': Machine, id: string, op: Op)
    requires CallersDrawn(policy, m) && id !in m.issued && m'.issued == m.issued[id := op]
    requires m'.waiting == m.waiting + {op} && m'.open == m.open
    requires !op.NoteOp? && RecordId(op) == id && Checked(policy, op)
    ensures CallersDrawn(policy, m')
  {
  }

  ghost predicate RowIssued(issued: map<string, Op>, row: Row) {
    match row
    case IncidentRow(i) => IncidentIssued(issued, i)
    case BreachInsert(b) => BreachIssued(issued, b)
    case DecisionRow(d) => DecisionIssued(issued, d.(externalNotificationDispatched := false))
    case TimelineRow(_) => true
    case AuditRow(a) => AuditIssued(issued, a)
  }

  lemma InsertKeepsRowsIssued(issued: map<string, Op>, s: Store, row: Row)
    requires RowsIssued(issued, s) && RowIssued(issued, row)
    ensures RowsIssued(issued, Insert(s, row))
  {
  }

  lemma OwnRowsIssued(policy: AccessPolicy, issued: map<string, Op>, op: Op, k: nat)
    requires Drawn(issued, op) && Checked(policy, op) && k < |Rows(op)|
    ensures RowIssued(issued, Rows(op)[k])
  {
    if !op.NoteOp? {
      KindsOfRows(op, k);
      FirstRowIssued(policy, issued, op);
    }
  }

  lemma KindsOfRows(op: Op, k: nat)
    requires !op.NoteOp? && k < |Rows(op)|
    ensures Rows(op)[k] == FirstRow(op) || Rows(op)[k].TimelineRow? || Rows(op)[k] == AuditRow(op.event)
  {
    RowsOfRecord(op);
  }

  lemma FirstRowIssued(policy: AccessPolicy, issued: map<string, Op>, op: Op)
    requires Drawn(issued, op) && Checked(policy, op) && !op.NoteOp?
    ensures RowIssued(issued, FirstRow(op)) && RowIssued(issued, AuditRow(op.event))
  {
  }

  lemma ExecKeepsSafe(env: Env, m: Machine)
    requires Safe(env.policy, m) && Next(env, m, Exec).Some?
    ensures Safe(env.policy, Next(env, m, Exec).value)
  {
    var op, k := m.open.value.op, m.open.value.done;
    IssuedIsSupported(env.policy, m, m.conn, op);
    StatementKeepsSound(env.policy, m.conn, op, k);
    OwnRowsIssued(env.policy, m.issued, op, k);
    InsertKeepsRowsIssued(m.issued, m.conn, Rows(op)[k]);
  }

  lemma CheckKeepsSafe(env: Env, m: Machine, a: Action)
    requires Safe(env.policy, m) && Next(env, m, a).Some?
    requires a.CheckIncidentDraft? || a.CheckBreachDraft? || a.CheckDecisionDraft?
    ensures Safe(env.policy, Next(env, m, a).value)
  {
    match a {
      case CheckIncidentDraft(draft, context, at, ids) =>
        IncidentCheckEstablishes(env.policy, env.isUuid, draft, context, Aware(at), ids);
        EnterKeepsHistory(env.policy, m, at, ids, CheckIncident(env.policy, env.isUuid, draft, context, Aware(at), ids));
      case CheckBreachDraft(draft, context, at, ids, read) =>
        BreachCheckEstablishes(env.policy, env.isUuid, draft, context, Aware(at), ids, Found(read));
        EnterKeepsHistory(env.policy, m, at, ids, CheckBreach(env.policy, env.isUuid, draft, context, Aware(at), ids, Found(read)));
      case CheckDecisionDraft(draft, context, at, ids, row, decided, read) =>
        var readBreach := DecodeBreach(row, decided);
        var verdict := CheckDecision(env.policy, env.isUuid, draft, context, Aware(at), ids, readBreach, Found(read));
        DecisionCheckEstablishes(env.policy, env.isUuid, draft, context, Aware(at), ids, readBreach, Found(read));
        assert BreachIssued(m.issued, row) && Denotes(row, readBreach.row);
        EnterKeepsHistory(env.policy, m, at, ids, verdict);
    }
  }

  lemma NextKeepsSafe(env: Env, m: Machine, a: Action)
    requires Safe(env.policy, m) && Next(env, m, a).Some?
    ensures Safe(env.policy, Next(env, m, a).value)
  {
    match a {
      case CheckIncidentDraft(_, _, _, _) => CheckKeepsSafe(env, m, a);
      case CheckBreachDraft(_, _, _, _, _) => CheckKeepsSafe(env, m, a);
      case CheckDecisionDraft(_, _, _, _, _, _, _) => CheckKeepsSafe(env, m, a);
      case Exec => ExecKeepsSafe(env, m);
      case Tick(_) =>
      case Note(_) =>
      case Begin(_) =>
      case Commit =>
      case Abort =>
      case SelectPending(_) =>
      case PublishRow(_, _) =>
      case PublishFails(_) =>
    }
  }

  /** Whatever the interleaving of checks, statements, commits, rollbacks and
      publishing, the tables are sound in every reachable state. */
  lemma {:induction false} EveryRunIsSafe(env: Env, start: int, acts: seq<Action>)
    requires Execute(env, start, acts).Some?
    ensures Safe(env.policy, Execute(env, start, acts).value)
  {
    if acts != [] {
      EveryRunIsSafe(env, start, acts[..|acts| - 1]);
      NextKeepsSafe(env, Execute(env, start, acts[..|acts| - 1]).value, acts[|acts| - 1]);
    }
  }

  // ----- runs from a state on -----

  /** A run from any state on. */
  function Continue(env: Env, m: Machine, acts: seq<Action>): Option<Machine>
    decreases |acts|
  {
    if acts == [] then Some(m)
    else
      match Next(env, m, acts[0])
      case None => None
      case Some(m') => Continue(env, m', acts[1..])
  }

  lemma {:induction false} ExecuteThenContinue(env: Env, start: int, acts: seq<Action>, more: seq<Action>)
    requires Execute(env, start, acts).Some?
    ensures Execute(env, start, acts + more) == Continue(env, Execute(env, start, acts).value, more)
    decreases |more|
  {
    if more == [] {
      assert acts + more == acts;
    } else {
      var a, rest := more[0], more[1..];
      var longer := acts + [a];
      assert more == [a] + rest && acts + more == longer + rest;
      ExecuteOneMore(env, start, acts, a);
      if Execute(env, start, longer).Some? {
        ExecuteThenContinue(env, start, longer, rest);
      } else {
        StuckStaysStuck(env, start, longer, rest);
      }
    }
  }

  lemma ExecuteOneMore(env: Env, start: int, acts: seq<Action>, a: Action)
    requires Execute(env, start, acts).Some?
    ensures Execute(env, start, acts + [a]) == Next(env, Execute(env, start, acts).value, a)
  {
    assert (acts + [a])[..|acts|] == acts;
  }

  lemma {:induction false} StuckStaysStuck(env: Env, start: int, acts: seq<Action>, more: seq<Action>)
    requires Execute(env, start, acts).None?
    ensures Execute(env, start, acts + more).None?
    decreases |more|
  {
    if more == [] {
      assert acts + more == acts;
    } else {
      assert (acts + more)[..|acts + more| - 1] == acts + more[..|more| - 1];
      StuckStaysStuck(env, start, acts, more[..|more| - 1]);
    }
  }

  lemma ContinueFirst(env: Env, m: Machine, a: Action, rest: seq<Action>)
    requires Next(env, m, a).Some?
    ensures Continue(env, m, [a] + rest) == Continue(env, Next(env, m, a).value, rest)
  {
    assert ([a] + rest)[1..] == rest;
  }

  lemma {:induction false} ContinueConcat(env: Env, m: Machine, a: seq<Action>, b: seq<Action>)
    requires Continue(env, m, a).Some?
    ensures Continue(env, m, a + b) == Continue(env, Continue(env, m, a).value, b)
    decreases |a|
  {
    if a == [] {
      assert a + b == b;
    } else {
      assert (a + b)[0] == a[0] && (a + b)[1..] == a[1..] + b;
      ContinueConcat(env, Next(env, m, a[0]).value, a[1..], b);
    }
  }
}
