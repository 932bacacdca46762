/** The timelines over whole runs: which entries an incident has, which ones its
    tables call for, and exactly when the two agree. */
module IncidentTimelines {
  import opened IncidentModels
  import opened IncidentStore
  import opened IncidentChecks
  import opened IncidentHistory
  import opened IncidentProtocol
  import opened IncidentConservation

  /** The entries an incident has, and the ones its tables call for. */
  function Told(s: Store, id: string): seq<TimelineEntry> {
    Blanks(EntriesOf(s.timeline, id))
  }

  function Due(s: Store, id: string): seq<TimelineEntry> {
    match FindIncident(s.incidents, id)
    case None => []
    case Some(i) => ExpectedTimeline(s, i)
  }

  /** How many timeline rows there are beyond incidents + 2 breaches + processor
      breaches + decisions. */
  function Surplus(s: Store): int {
    |s.timeline| - (|s.incidents| + 2 * |s.breaches| + ProcessorBreaches(s.breaches) + |s.decisions|)
  }

  /** The operation writes to the timeline of this incident. */
  predicate Concerns(op: Op, id: string) {
    !op.NoteOp? && Owner(op) == id
  }

  ghost predicate SameTables(s: Store, t: Store) {
    s.incidents == t.incidents && s.breaches == t.breaches && s.decisions == t.decisions
  }

  // ----- one statement -----

  lemma OwnEntriesAreOwned(op: Op)
    requires EntriesBelong(op) && Shaped(op) && !op.NoteOp?
    ensures forall e :: e in OwnEntries(op) ==> e.incidentId == Owner(op)
  {
    if op.DecisionOp? {
      assert Blanks([op.entry])[0] == Blank(op.entry);
    }
  }

  lemma EntryStatement(op: Op, k: nat)
    requires 0 < k < |Rows(op)| - 1
    ensures k <= |OwnEntries(op)| && Rows(op)[k] == TimelineRow(OwnEntries(op)[k - 1])
  {
    RowsOfRecord(op);
  }

  lemma EntryIsTold(policy: AccessPolicy, s: Store, op: Op, k: nat, id: string)
    requires Checked(policy, op) && 0 < k < |Rows(op)| - 1
    ensures k <= |OwnEntries(op)|
    ensures var s' := Insert(s, Rows(op)[k]);
      && Told(s', id) == Told(s, id) + (if Concerns(op, id) then [Blank(OwnEntries(op)[k - 1])] else [])
      && Due(s', id) == Due(s, id) && Surplus(s') == Surplus(s) + 1
  {
    EntryStatement(op, k);
    CheckedIsShaped(policy, op);
    OwnEntriesAreOwned(op);
    var e := OwnEntries(op)[k - 1];
    assert e.incidentId == Owner(op) && !op.NoteOp?;
    EntryAppends(s, e, id);
  }

  lemma EntryAppends(s: Store, e: TimelineEntry, id: string)
    ensures var s' := Insert(s, TimelineRow(e));
      && Told(s', id) == Told(s, id) + (if e.incidentId == id then [Blank(e)] else [])
      && Due(s', id) == Due(s, id) && Surplus(s') == Surplus(s) + 1
  {
    EntriesOfAppend(s.timeline, e, id);
  }

  lemma RecordIsDue(policy: AccessPolicy, s: Store, op: Op, id: string)
    requires Checked(policy, op) && Supported(s, op) && Sound(s) && !op.NoteOp? && CanInsert(s, FirstRow(op))
    ensures var s' := Insert(s, FirstRow(op));
      Due(s', id) == Due(s, id) + if Concerns(op, id) then Blanks(OwnEntries(op)) else []
  {
    CheckedIsShaped(policy, op);
    if op.IncidentOp? {
      FindIncidentAppend(s.incidents, op.incident, id);
      NewIncidentIsUnknown(s, op.incident);
    } else {
      if op.DecisionOp? {
        DecisionOwner(s, op);
      }
      ExpectedAfter(s, op, id);
      if FindIncident(s.incidents, id).Some? {
        var more := if Concerns(op, id) then Blanks(OwnEntries(op)) else [];
        Reassociate([IncidentEntry("", FindIncident(s.incidents, id).value)], BreachPart(s.breaches, s.decisions, id), more);
      }
    }
  }

  lemma RecordIsCounted(policy: AccessPolicy, s: Store, op: Op)
    requires Checked(policy, op) && !op.NoteOp?
    ensures Surplus(Insert(s, FirstRow(op))) == Surplus(s) - |OwnEntries(op)|
  {
    if op.BreachOp? {
      ProcessorBreachesAppend(s.breaches, op.row);
    }
  }

  // ----- the statements of one transaction -----

  /** The entries among the first `n` whose statements are at the given positions. */
  function Picked(op: Op, positions: set<int>, n: nat): seq<TimelineEntry>
    requires n <= |OwnEntries(op)|
  {
    if n == 0 then []
    else Picked(op, positions, n - 1) + if n in positions then [OwnEntries(op)[n - 1]] else []
  }

  function EntriesAt(op: Op, positions: set<int>): seq<TimelineEntry> {
    Picked(op, positions, |OwnEntries(op)|)
  }

  /** The entries that the statements at the given positions call for. */
  function DueAt(op: Op, positions: set<int>): seq<TimelineEntry> {
    if 0 in positions then OwnEntries(op) else []
  }

  lemma {:induction false} PickedOneMore(op: Op, positions: set<int>, k: nat, n: nat)
    requires n <= |OwnEntries(op)| && forall p :: p in positions ==> p < k
    ensures Picked(op, positions + {k}, n)
      == Picked(op, positions, n) + if 1 <= k <= n then [OwnEntries(op)[k - 1]] else []
  {
    if n > 0 {
      PickedOneMore(op, positions, k, n - 1);
    }
  }

  /** How many entries the statements before position `done` include. */
  function Entered(op: Op, done: int): (n: nat)
    ensures n <= |OwnEntries(op)|
  {
    if done < 1 then 0 else if done - 1 < |OwnEntries(op)| then done - 1 else |OwnEntries(op)|
  }

  lemma {:induction false} PickedSpan(op: Op, done: int, n: nat)
    requires n <= |OwnEntries(op)|
    ensures Picked(op, Span(0, done), n) == OwnEntries(op)[..if n <= Entered(op, done) then n else Entered(op, done)]
  {
    if n > 0 {
      PickedSpan(op, done, n - 1);
    }
  }

  /** What the tables have and lack when they hold, of the open transaction, the
      statements at the given positions. */
  ghost predicate Tells(s: Store, tx: Tx, positions: set<int>, id: string) {
    && Told(s, id) == Told(tx.base, id) + (if Concerns(tx.op, id) then Blanks(EntriesAt(tx.op, positions)) else [])
    && Due(s, id) == Due(tx.base, id) + (if Concerns(tx.op, id) then Blanks(DueAt(tx.op, positions)) else [])
    && Surplus(s) == Surplus(tx.base) + |EntriesAt(tx.op, positions)| - |DueAt(tx.op, positions)|
  }

  ghost predicate TimelineTracked(m: Machine, id: string) {
    m.open.Some? ==>
      Tells(m.committed, m.open.value, m.open.value.kept, id) && Tells(m.conn, m.open.value, Running(m.open.value), id)
  }

  lemma NothingTold(tx: Tx, id: string)
    ensures Tells(tx.base, tx, {}, id)
  {
    PickedSpan(tx.op, 0, |OwnEntries(tx.op)|);
    assert Span(0, 0) == {};
  }

  lemma BlanksOneMore(es: seq<TimelineEntry>, e: TimelineEntry)
    ensures Blanks(es + [e]) == Blanks(es) + [Blank(e)]
  {
  }

  lemma OneMoreEntry(base: seq<TimelineEntry>, es: seq<TimelineEntry>, e: TimelineEntry)
    ensures base + Blanks(es + [e]) == (base + Blanks(es)) + [Blank(e)]
  {
    BlanksOneMore(es, e);
  }

  lemma AuditTells(s: Store, s': Store, tx: Tx, positions: set<int>, k: int, id: string)
    requires Tells(s, tx, positions, id) && s'.timeline == s.timeline && SameTables(s, s')
    requires EntriesAt(tx.op, positions + {k}) == EntriesAt(tx.op, positions) && k != 0
    ensures Tells(s', tx, positions + {k}, id)
  {
  }

  lemma EntryTells(s: Store, s': Store, tx: Tx, positions: set<int>, k: int, e: TimelineEntry, id: string)
    requires Tells(s, tx, positions, id) && k != 0
    requires EntriesAt(tx.op, positions + {k}) == EntriesAt(tx.op, positions) + [e]
    requires Told(s', id) == Told(s, id) + (if Concerns(tx.op, id) then [Blank(e)] else [])
    requires Due(s', id) == Due(s, id) && Surplus(s') == Surplus(s) + 1
    ensures Tells(s', tx, positions + {k}, id)
  {
    OneMoreEntry(Told(tx.base, id), EntriesAt(tx.op, positions), e);
  }

  lemma RecordTells(s: Store, s': Store, tx: Tx, id: string)
    requires Tells(s, tx, {}, id) && Told(s', id) == Told(s, id)
    requires EntriesAt(tx.op, {0}) == EntriesAt(tx.op, {})
    requires Surplus(s') == Surplus(s) - |OwnEntries(tx.op)|
    requires Due(s', id) == Due(s, id) + if Concerns(tx.op, id) then Blanks(OwnEntries(tx.op)) else []
    ensures Tells(s', tx, {0}, id)
  {
    assert Due(s, id) == Due(tx.base, id);
  }

  lemma RecordStatementTells(policy: AccessPolicy, s: Store, tx: Tx, id: string)
    requires Tells(s, tx, {}, id) && !tx.op.NoteOp?
    requires Checked(policy, tx.op) && Supported(s, tx.op) && Sound(s) && CanInsert(s, FirstRow(tx.op))
    ensures Tells(Insert(s, FirstRow(tx.op)), tx, {0}, id)
  {
    PickedOneMore(tx.op, {}, 0, |OwnEntries(tx.op)|);
    assert {} + {0} == {0};
    RecordIsDue(policy, s, tx.op, id);
    RecordIsCounted(policy, s, tx.op);
    RecordTells(s, Insert(s, FirstRow(tx.op)), tx, id);
  }

  lemma EntryStatementTells(policy: AccessPolicy, s: Store, tx: Tx, positions: set<int>, k: nat, id: string)
    requires Tells(s, tx, positions, id) && 0 < k < Length(tx) - 1 && forall p :: p in positions ==> p < k
    requires Checked(policy, tx.op)
    ensures Tells(Insert(s, Rows(tx.op)[k]), tx, positions + {k}, id)
  {
    PickedOneMore(tx.op, positions, k, |OwnEntries(tx.op)|);
    EntryIsTold(policy, s, tx.op, k, id);
    EntryTells(s, Insert(s, Rows(tx.op)[k]), tx, positions, k, OwnEntries(tx.op)[k - 1], id);
  }

  lemma AuditStatementTells(s: Store, tx: Tx, positions: set<int>, k: nat, id: string)
    requires Tells(s, tx, positions, id) && k == Length(tx) - 1 && forall p :: p in positions ==> p < k
    ensures Tells(Insert(s, AuditRow(tx.op.event)), tx, positions + {k}, id)
  {
    EntryCount(tx.op);
    PickedOneMore(tx.op, positions, k, |OwnEntries(tx.op)|);
    if tx.op.NoteOp? {
      NoteTells(s, tx, positions, id);
    } else {
      AuditTells(s, Insert(s, AuditRow(tx.op.event)), tx, positions, k, id);
    }
  }

  lemma StatementTells(policy: AccessPolicy, s: Store, tx: Tx, positions: set<int>, k: nat, id: string)
    requires Tells(s, tx, positions, id) && k < Length(tx) && forall p :: p in positions ==> 0 <= p < k
    requires Checked(policy, tx.op) && Supported(s, tx.op) && Sound(s) && CanInsert(s, Rows(tx.op)[k])
    ensures Tells(Insert(s, Rows(tx.op)[k]), tx, positions + {k}, id)
  {
    StatementKinds(tx.op, k);
    if k == Length(tx) - 1 {
      AuditStatementTells(s, tx, positions, k, id);
    } else if k == 0 {
      NothingBefore(positions);
      RecordStatementTells(policy, s, tx, id);
    } else {
      EntryStatementTells(policy, s, tx, positions, k, id);
    }
  }

  lemma NothingBefore(positions: set<int>)
    requires forall p :: p in positions ==> 0 <= p < 0
    ensures positions == {} && positions + {0} == {0}
  {
    assert forall p :: p !in positions;
  }

  lemma EntryCount(op: Op)
    ensures |Rows(op)| == |OwnEntries(op)| + if op.NoteOp? then 1 else 2
  {
    if !op.NoteOp? {
      RowsOfRecord(op);
    }
  }

  lemma NoteTells(s: Store, tx: Tx, positions: set<int>, id: string)
    requires tx.op.NoteOp? && Tells(s, tx, positions, id)
    ensures Tells(Insert(s, AuditRow(tx.op.event)), tx, positions + {0}, id)
  {
  }

  // ----- every run -----

  /** The next statement is one of a checked operation on sound tables. */
  ghost predicate RunsChecked(policy: AccessPolicy, m: Machine) {
    m.open.Some? ==> Checked(policy, m.open.value.op) && Supported(m.conn, m.open.value.op) && Sound(m.conn)
  }

  lemma SafeRunsChecked(policy: AccessPolicy, m: Machine)
    requires Safe(policy, m)
    ensures RunsChecked(policy, m)
  {
    if m.open.Some? {
      IssuedIsSupported(policy, m, m.conn, m.open.value.op);
    }
  }

  /** What executing a statement makes of the machine. */
  lemma ExecAdvances(env: Env, m: Machine)
    requires Tracked(m) && Next(env, m, Exec).Some?
    ensures var tx, m' := m.open.value, Next(env, m, Exec).value;
      && 0 <= tx.done < Length(tx) && CanInsert(m.conn, Rows(tx.op)[tx.done])
      && (forall p :: p in Running(tx) ==> 0 <= p < tx.done)
      && m'.conn == Insert(m.conn, Rows(tx.op)[tx.done]) && m'.committed == m.committed
      && m'.open == Some(tx.(done := tx.done + 1)) && Running(m'.open.value) == Running(tx) + {tx.done}
  {
  }

  lemma TellsOfSame(s: Store, tx: Tx, tx': Tx, positions: set<int>, id: string)
    requires Tells(s, tx, positions, id) && tx'.op == tx.op && tx'.base == tx.base
    ensures Tells(s, tx', positions, id)
  {
  }

  lemma ExecKeepsTimelineTracked(env: Env, m: Machine, id: string)
    requires RunsChecked(env.policy, m) && Tracked(m) && TimelineTracked(m, id) && Next(env, m, Exec).Some?
    ensures TimelineTracked(Next(env, m, Exec).value, id)
  {
    var tx, m' := m.open.value, Next(env, m, Exec).value;
    ExecAdvances(env, m);
    StatementTells(env.policy, m.conn, tx, Running(tx), tx.done, id);
    TellsOfSame(m'.conn, tx, m'.open.value, Running(m'.open.value), id);
    TellsOfSame(m.committed, tx, m'.open.value, tx.kept, id);
  }

  lemma PublishKeepsTimelineTracked(m: Machine, id: string)
    requires TimelineTracked(m, id)
    ensures TimelineTracked(Keep(m), id) && TimelineTracked(Lose(m), id)
  {
    if m.open.Some? {
      var tx := m.open.value;
      var kept, lost := Keep(m).open.value, Lose(m).open.value;
      assert Running(kept) == kept.kept == Running(tx);
      assert Running(lost) == lost.kept == tx.kept;
    }
  }

  lemma BeginKeepsTimelineTracked(m: Machine, op: Op, id: string)
    requires m.conn == m.committed
    ensures TimelineTracked(m.(open := Some(Tx(op, m.committed, 0, 0, {}))), id)
  {
    var tx := Tx(op, m.committed, 0, 0, {});
    assert Running(tx) == {};
    NothingTold(tx, id);
  }

  /** The steps that touch neither the connection nor the open transaction. */
  predicate StandsBy(a: Action) {
    !a.Exec? && !a.PublishRow? && !a.PublishFails? && !a.Begin? && !a.Commit? && !a.Abort?
  }

  lemma StandingBy(env: Env, m: Machine, a: Action)
    requires StandsBy(a) && Next(env, m, a).Some?
    ensures SameTransaction(m, Next(env, m, a).value)
  {
  }

  ghost predicate SameTransaction(m: Machine, m': Machine) {
    m'.open == m.open && m'.conn == m.conn && m'.committed == m.committed
  }

  lemma SameIsTracked(m: Machine, m': Machine, id: string)
    requires TimelineTracked(m, id) && SameTransaction(m, m')
    ensures TimelineTracked(m', id)
  {
  }

  lemma PublisherMoves(env: Env, m: Machine, a: Action)
    requires (a.PublishRow? || a.PublishFails?) && Next(env, m, a).Some?
    ensures SameTransaction(if a.PublishRow? then Keep(m) else Lose(m), Next(env, m, a).value)
  {
  }

  lemma NextKeepsTimelineTracked(env: Env, m: Machine, a: Action, id: string)
    requires RunsChecked(env.policy, m) && Tracked(m) && TimelineTracked(m, id) && Next(env, m, a).Some?
    ensures TimelineTracked(Next(env, m, a).value, id)
  {
    if StandsBy(a) {
      StandingBy(env, m, a);
      SameIsTracked(m, Next(env, m, a).value, id);
    } else if a.Exec? {
      ExecKeepsTimelineTracked(env, m, id);
    } else if a.PublishRow? || a.PublishFails? {
      PublishKeepsTimelineTracked(m, id);
      PublisherMoves(env, m, a);
      SameIsTracked(if a.PublishRow? then Keep(m) else Lose(m), Next(env, m, a).value, id);
    } else if a.Begin? {
      BeginKeepsTimelineTracked(m, a.op, id);
      SameIsTracked(m.(open := Some(Tx(a.op, m.committed, 0, 0, {}))), Next(env, m, a).value, id);
    }
  }

  lemma {:induction false} EveryTimelineIsTracked(env: Env, start: int, acts: seq<Action>, id: string)
    requires Execute(env, start, acts).Some?
    ensures TimelineTracked(Execute(env, start, acts).value, id)
  {
    if acts != [] {
      var front := acts[..|acts| - 1];
      EveryTimelineIsTracked(env, start, front, id);
      EveryRunIsTracked(env, start, front);
      EveryRunIsSafe(env, start, front);
      SafeRunsChecked(env.policy, Execute(env, start, front).value);
      NextKeepsTimelineTracked(env, Execute(env, start, front).value, acts[|acts| - 1], id);
    }
  }

  /** The entries of the incident whose statements survived the end of their
      transactions, in the order in which these ended. */
  ghost function EntriesLeft(env: Env, start: int, acts: seq<Action>, id: string): seq<TimelineEntry> {
    if acts == [] then []
    else
      var front, a := acts[..|acts| - 1], acts[|acts| - 1];
      EntriesLeft(env, start, front, id)
      + match Execute(env, start, front)
        case None => []
        case Some(m) =>
          if Ends(m, a) && Concerns(m.open.value.op, id) then Blanks(EntriesAt(m.open.value.op, Surviving(m, a))) else []
  }

  /** The entries called for by the records that survived. */
  ghost function EntriesOwed(env: Env, start: int, acts: seq<Action>, id: string): seq<TimelineEntry> {
    if acts == [] then []
    else
      var front, a := acts[..|acts| - 1], acts[|acts| - 1];
      EntriesOwed(env, start, front, id)
      + match Execute(env, start, front)
        case None => []
        case Some(m) =>
          if Ends(m, a) && Concerns(m.open.value.op, id) then Blanks(DueAt(m.open.value.op, Surviving(m, a))) else []
  }

  /** How many more entries than called for the ended transactions have left. */
  ghost function Drift(env: Env, start: int, acts: seq<Action>): int {
    if acts == [] then 0
    else
      var front, a := acts[..|acts| - 1], acts[|acts| - 1];
      Drift(env, start, front)
      + match Execute(env, start, front)
        case None => 0
        case Some(m) =>
          if Ends(m, a) then |EntriesAt(m.open.value.op, Surviving(m, a))| - |DueAt(m.open.value.op, Surviving(m, a))| else 0
  }

  lemma EndTells(env: Env, m: Machine, a: Action, id: string)
    requires TimelineTracked(m, id) && Ends(m, a) && Next(env, m, a).Some?
    ensures Tells(Resting(Next(env, m, a).value), m.open.value, Surviving(m, a), id)
  {
  }

  /** In every run, whatever publishers do, an incident's timeline between transactions
      is what the surviving entry statements left, what its tables call for is what the
      surviving records owe, and the row count is off by what the ended transactions
      left too much or too little. */
  lemma {:induction false} EveryTimelineIsLeft(env: Env, start: int, acts: seq<Action>, id: string)
    requires Execute(env, start, acts).Some?
    ensures var s := Resting(Execute(env, start, acts).value);
      && Told(s, id) == EntriesLeft(env, start, acts, id)
      && Due(s, id) == EntriesOwed(env, start, acts, id)
      && Surplus(s) == Drift(env, start, acts)
  {
    if acts != [] {
      var front, a := acts[..|acts| - 1], acts[|acts| - 1];
      var m := Execute(env, start, front).value;
      EveryTimelineIsLeft(env, start, front, id);
      EveryRunIsTracked(env, start, front);
      if Ends(m, a) {
        EveryTimelineIsTracked(env, start, front, id);
        EndTells(env, m, a, id);
      } else {
        RestingStays(env, m, a);
      }
    }
  }

  // ----- one incident, exactly -----

  /** No publisher fails while a transaction of the incident has uncommitted statements. */
  ghost function LosesNothingOf(id: string): (Machine, Action) -> bool {
    (m: Machine, a: Action) =>
      a.PublishFails? && m.open.Some? && Concerns(m.open.value.op, id) ==> m.open.value.start == m.open.value.done
  }

  /** No transaction of the incident is rolled back after a publisher committed its
      record, but not all of its entries. */
  ghost function UncutOf(id: string): (Machine, Action) -> bool {
    (m: Machine, a: Action) =>
      a.Abort? && m.open.Some? && Concerns(m.open.value.op, id) ==>
        m.open.value.start == 0 || m.open.value.start > |OwnEntries(m.open.value.op)|
  }

  /** The open transaction has run the incident's record, but not all of its entries. */
  predicate Midway(m: Machine, id: string) {
    && m.open.Some? && Concerns(m.open.value.op, id)
    && 1 <= m.open.value.done <= |OwnEntries(m.open.value.op)|
  }

  ghost predicate NothingLostOf(m: Machine, id: string) {
    m.open.Some? && Concerns(m.open.value.op, id) ==> m.open.value.kept == Span(0, m.open.value.start)
  }

  lemma NextLosesNothingOf(env: Env, m: Machine, a: Action, id: string)
    requires Tracked(m) && NothingLostOf(m, id) && LosesNothingOf(id)(m, a) && Next(env, m, a).Some?
    ensures NothingLostOf(Next(env, m, a).value, id)
  {
    if m.open.Some? {
      SettledSpans(m.open.value.kept, m.open.value.start, m.open.value.done);
    }
  }

  lemma {:induction false} CarefulRunsLoseNothingOf(env: Env, start: int, acts: seq<Action>, id: string)
    requires Execute(env, start, acts).Some? && Throughout(LosesNothingOf(id), env, start, acts)
    ensures NothingLostOf(Execute(env, start, acts).value, id)
  {
    if acts != [] {
      var front := acts[..|acts| - 1];
      CarefulRunsLoseNothingOf(env, start, front, id);
      EveryRunIsTracked(env, start, front);
      NextLosesNothingOf(env, Execute(env, start, front).value, acts[|acts| - 1], id);
    }
  }

  /** There are no more entries than called for, and if there are as many they are the right ones. */
  ghost predicate NotAhead(s: Store, id: string) {
    |Told(s, id)| <= |Due(s, id)| && (|Told(s, id)| == |Due(s, id)| ==> Told(s, id) == Due(s, id))
  }

  ghost predicate UpToDate(s: Store, id: string) {
    Told(s, id) == Due(s, id)
  }

  /** Statements run from the first to `done` of the incident's transaction keep the
      timeline up to date exactly when they are none or include all entries. */
  lemma SpanTells(tx: Tx, s: Store, done: int, id: string)
    requires NotAhead(tx.base, id) && Concerns(tx.op, id) && Tells(s, tx, Span(0, done), id)
    ensures NotAhead(s, id)
    ensures UpToDate(s, id) <==> UpToDate(tx.base, id) && (done < 1 || done > |OwnEntries(tx.op)|)
  {
    var own, n := OwnEntries(tx.op), Entered(tx.op, done);
    PickedSpan(tx.op, done, |own|);
    assert Blanks(own[..n]) == Blanks(own)[..n];
    Grown(Told(tx.base, id), Due(tx.base, id), Blanks(own), n, 0 in Span(0, done));
  }

  lemma Grown<T>(told: seq<T>, due: seq<T>, own: seq<T>, n: nat, begun: bool)
    requires |told| <= |due| && (|told| == |due| ==> told == due) && n <= |own| && (!begun ==> n == 0)
    ensures var told', due' := told + own[..n], due + if begun then own else [];
      && |told'| <= |due'| && (|told'| == |due'| ==> told' == due')
      && (told' == due' <==> told == due && (begun ==> n == |own|))
  {
  }

  lemma EndIsUpToDate(env: Env, m: Machine, a: Action, id: string)
    requires Tracked(m) && TimelineTracked(m, id) && NothingLostOf(m, id) && NotAhead(Resting(m), id)
    requires Ends(m, a) && Next(env, m, a).Some?
    ensures var s := Resting(Next(env, m, a).value);
      NotAhead(s, id) && (UpToDate(s, id) <==> UpToDate(Resting(m), id) && UncutOf(id)(m, a))
  {
    var tx := m.open.value;
    var s := Resting(Next(env, m, a).value);
    EndTells(env, m, a, id);
    if Concerns(tx.op, id) {
      SettledSpans(tx.kept, tx.start, tx.done);
      RowsOfRecord(tx.op);
      SpanTells(tx, s, if a.Commit? then tx.done else tx.start, id);
    }
  }

  /** In a run in which no publisher fails inside a transaction of the incident, its
      timeline between transactions is the one its tables call for if and only if none
      of its transactions was rolled back after its record and before its last entry
      had been published.  Otherwise entries are missing. */
  lemma {:induction false} TimelineIsUpToDateExactly(env: Env, start: int, acts: seq<Action>, id: string)
    requires Execute(env, start, acts).Some? && Throughout(LosesNothingOf(id), env, start, acts)
    ensures var s := Resting(Execute(env, start, acts).value);
      NotAhead(s, id) && (UpToDate(s, id) <==> Throughout(UncutOf(id), env, start, acts))
  {
    if acts != [] {
      var front, a := acts[..|acts| - 1], acts[|acts| - 1];
      var m := Execute(env, start, front).value;
      TimelineIsUpToDateExactly(env, start, front, id);
      RunFacts(env, start, front);
      if Ends(m, a) {
        EveryTimelineIsTracked(env, start, front, id);
        CarefulRunsLoseNothingOf(env, start, front, id);
        EndIsUpToDate(env, m, a, id);
      } else {
        RestingStays(env, m, a);
      }
    }
  }

  /** The same in the middle of transactions, committed or not. */
  lemma VisibleTimelineIsUpToDateExactly(env: Env, start: int, acts: seq<Action>, id: string)
    requires Execute(env, start, acts).Some? && Throughout(LosesNothingOf(id), env, start, acts)
    ensures var m := Execute(env, start, acts).value;
      NotAhead(m.conn, id) && (UpToDate(m.conn, id) <==> Throughout(UncutOf(id), env, start, acts) && !Midway(m, id))
  {
    var m := Execute(env, start, acts).value;
    TimelineIsUpToDateExactly(env, start, acts, id);
    RunFacts(env, start, acts);
    if m.open.Some? {
      var tx := m.open.value;
      EveryTimelineIsTracked(env, start, acts, id);
      if Concerns(tx.op, id) {
        CarefulRunsLoseNothingOf(env, start, acts, id);
        SettledSpans(tx.kept, tx.start, tx.done);
        SpanTells(tx, m.conn, tx.done, id);
      }
    }
  }

  // ----- all incidents, exactly -----

  /** No recording transaction is rolled back after a publisher committed its record,
      but not all of its entries. */
  ghost predicate EntriesNotCut(m: Machine, a: Action) {
    a.Abort? && m.open.Some? && !m.open.value.op.NoteOp? ==>
      m.open.value.start == 0 || m.open.value.start > |OwnEntries(m.open.value.op)|
  }

  lemma {:induction false} EachThroughout(p: (Machine, Action) -> bool, q: (Machine, Action) -> bool,
                                          env: Env, start: int, acts: seq<Action>)
    requires Throughout(p, env, start, acts) && forall m, a :: p(m, a) ==> q(m, a)
    ensures Throughout(q, env, start, acts)
  {
    if acts != [] {
      EachThroughout(p, q, env, start, acts[..|acts| - 1]);
    }
  }

  lemma {:induction false} UncutOfEach(env: Env, start: int, acts: seq<Action>)
    ensures Throughout(EntriesNotCut, env, start, acts) <==> forall id :: Throughout(UncutOf(id), env, start, acts)
  {
    if acts != [] {
      var front, a := acts[..|acts| - 1], acts[|acts| - 1];
      UncutOfEach(env, start, front);
      if (forall id :: Throughout(UncutOf(id), env, start, acts)) {
        forall id ensures Throughout(UncutOf(id), env, start, front) {
          assert Throughout(UncutOf(id), env, start, acts);
        }
        if Execute(env, start, front).Some? && Execute(env, start, front).value.open.Some? {
          assert Throughout(UncutOf(Owner(Execute(env, start, front).value.open.value.op)), env, start, acts);
        }
      }
    }
  }

  lemma CompleteTimelines(s: Store)
    requires Sound(s)
    ensures TimelineComplete(s) <==> forall id :: UpToDate(s, id)
  {
    forall id ensures FindIncident(s.incidents, id) == None ==> UpToDate(s, id) {
      if FindIncident(s.incidents, id) == None {
        NoEntriesYet(s.timeline, id);
      }
    }
    forall i | i in s.incidents ensures FindIncident(s.incidents, i.incidentId) == Some(i) {
    }
    if TimelineComplete(s) {
      forall id ensures UpToDate(s, id) {
        if FindIncident(s.incidents, id).Some? {
          assert OnSchedule(s, FindIncident(s.incidents, id).value);
        }
      }
    }
    if forall id :: UpToDate(s, id) {
      forall i | i in s.incidents ensures OnSchedule(s, i) {
        assert UpToDate(s, i.incidentId);
      }
    }
  }

  /** In a run in which no publisher fails inside an open transaction, every timeline
      between transactions is the one its tables call for if and only if no recording
      transaction was rolled back after its record and before its last entry had been
      published. */
  lemma TimelinesAreCompleteExactly(env: Env, start: int, acts: seq<Action>)
    requires Execute(env, start, acts).Some? && Throughout(LosesNothing, env, start, acts)
    ensures TimelineComplete(Resting(Execute(env, start, acts).value)) <==> Throughout(EntriesNotCut, env, start, acts)
  {
    var s := Resting(Execute(env, start, acts).value);
    RestIsSound(env, start, acts);
    CompleteTimelines(s);
    UncutOfEach(env, start, acts);
    forall id ensures UpToDate(s, id) <==> Throughout(UncutOf(id), env, start, acts) {
      EachThroughout(LosesNothing, LosesNothingOf(id), env, start, acts);
      TimelineIsUpToDateExactly(env, start, acts, id);
    }
  }

  lemma RestIsSound(env: Env, start: int, acts: seq<Action>)
    requires Execute(env, start, acts).Some?
    ensures Sound(Resting(Execute(env, start, acts).value))
  {
    EveryRunIsSafe(env, start, acts);
    EveryBaseIsSafe(env, start, acts);
  }

  /** What an end leaves too much: nothing, and too little exactly when it cuts entries off. */
  lemma EndDrifts(env: Env, m: Machine, a: Action)
    requires Tracked(m) && NothingLost(m) && Ends(m, a) && Next(env, m, a).Some?
    ensures var op, left := m.open.value.op, Surviving(m, a);
      && |EntriesAt(op, left)| <= |DueAt(op, left)|
      && (|EntriesAt(op, left)| == |DueAt(op, left)| <==> EntriesNotCut(m, a))
  {
    var tx := m.open.value;
    SettledSpans(tx.kept, tx.start, tx.done);
    PickedSpan(tx.op, if a.Commit? then tx.done else tx.start, |OwnEntries(tx.op)|);
    if !tx.op.NoteOp? {
      RowsOfRecord(tx.op);
    }
  }

  lemma {:induction false} DriftExactly(env: Env, start: int, acts: seq<Action>)
    requires Execute(env, start, acts).Some? && Throughout(LosesNothing, env, start, acts)
    ensures Drift(env, start, acts) <= 0
    ensures Drift(env, start, acts) == 0 <==> Throughout(EntriesNotCut, env, start, acts)
  {
    if acts != [] {
      var front, a := acts[..|acts| - 1], acts[|acts| - 1];
      var m := Execute(env, start, front).value;
      DriftExactly(env, start, front);
      RunFacts(env, start, front);
      CarefulRunsLoseNothing(env, start, front);
      if Ends(m, a) {
        EndDrifts(env, m, a);
      }
    }
  }

  /** In such a run there are never more timeline rows than incidents + 2 breaches +
      processor breaches + decisions, and as many if and only if no recording
      transaction was cut before its last entry. */
  lemma RowCountIsExact(env: Env, start: int, acts: seq<Action>)
    requires Execute(env, start, acts).Some? && Throughout(LosesNothing, env, start, acts)
    ensures var s := Resting(Execute(env, start, acts).value);
      Surplus(s) <= 0 && (TimelineBalanced(s) <==> Throughout(EntriesNotCut, env, start, acts))
  {
    DriftExactly(env, start, acts);
    EveryTimelineIsLeft(env, start, acts, "");
  }
}
