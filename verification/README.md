# Verification model of the incident protocol and the repository's core algorithms

This project models, in Dafny, the parts of the repository whose correctness is
hardest to see by reading, and proves what they promise for all inputs, all runs
and all interleavings.

**The incident and breach protocol** (`archive/modules/incident_response`). Three
append-only tables, a timeline and an audit outbox on one shared database
connection; three recording operations that check first and write later in one
transaction; and a view that re-validates everything the writers built.

- `IncidentModels`, `IncidentChecks`: the records, and the pure check phase of each
  operation, with every error branch.
- `IncidentAdmission`: exactly when a call or a view is let in, what it is answered
  otherwise, and every field of what is written down and shown.
- `IncidentStore`, `CategoryCodec`, `IncidentHistory`: the tables with their
  constraints, statements and transactions, and what whole transactions leave behind.
- `IncidentView`: the read validator, the deadline status and the sorted view.
- `IncidentProtocol`, `IncidentRuns`: many callers as a state machine. Checks use any
  row that was ever visible, transactions run statement by statement, and publishers
  select pending events and then commit or roll back the shared connection once for each.
  The theorems are about every run.
- `IncidentConservation`, `IncidentTimelines`: what is left between transactions, and exactly
  when audits, timelines and row count are complete.
- `IncidentReads`: exactly when a view is answered, in the middle of other callers'
  transactions and with its reads at different moments; and what reading a breach amounts to.
- `IncidentRepository`, `IncidentService`: the classes that change the tables in place,
  proved against the specification functions the theorems speak of.

**Graph merge and extraction** (`scripts/extract_code_graph.py`): `GraphMerge` (index and
key set against an ordered upsert), `AstWalk` (the visitor and its counting theorem) and
`AstPaths` (the same nodes and edges, told by paths in the tree).
**Import reachability** (`scripts/measure_runtime_reachability.py`): `Reachability`.
**Segment compaction** (`scripts/compact_segment.py`): `Compaction`, `CompactionLines`.
**Dashboard trend and audit timeline** (`frontend/src`): `Trend`, `AuditGroups`, with
`Grouping` for the insertion-ordered map and `Sorting` for the stable sort.
**Evidence validation** (`src/veri_kalitesi/data_minimum_evidence.py`): `ReferenceGrammar`
(the regular expressions and their languages) and `Evidence`.
`Splitting`, `Characters` and `Prefixes` hold shared text and sequence facts.

Instants are integers (microseconds); the clock, the random identifiers, the UUID parser
and the failures of the environment are parameters.

## Findings

- `publish_pending` (`src/veri_kalitesi/audit/outbox.py:82-121`) commits the connection it
  shares with the incident repository, once for each pending event, without taking the
  repository's lock. A commit that falls inside another caller's transaction stores that
  transaction's rows so far; if the transaction is then rolled back, the record stays without
  its timeline and audit. If the publisher's own UPDATE fails instead, it rolls the shared
  connection back, the other caller goes on unaware, and its audit can be committed without
  its record. The safety theorem (`EveryRunIsSafe`) holds regardless. "One audit per row"
  holds between transactions exactly when every ended transaction left both its record and
  its audit or neither (`AuditsMatchExactly`, all runs). Timelines and row count have a
  condition of their own (`TimelinesAreCompleteExactly`, `RowCountIsExact`): where no publisher
  fails inside a transaction they are complete exactly when no recording transaction was rolled
  back after its record and before its last entry had been published. A rollback after the last
  entry costs the audit only, so all three together hold exactly when no transaction was rolled
  back after a partial publish (`RestIsCompleteExactly`). `AnIncidentLosesItsAudit` gives
  concrete runs of both kinds.
- A view of a stored breach is refused in these cases and no other (`ViewOverRunsExactly`, for
  incidents in whose own transactions no publisher failed): its clock is behind an event it
  shows, which can also happen to a view that read its clock before a later writer committed; it
  reads, unlocked, while a transaction has inserted a decision (or a new breach) without its
  timeline entries; or a transaction of the same incident was once cut between its record and
  its last entry, and then the breach is refused for good, even if it was itself recorded whole.
  For all incidents and runs `ViewInEveryStateExactly` gives the condition on the entries.
- The five reads of a view are separate statements. A decision that is stored between the last
  two makes the view fail (`StraddlingViewOverRunsExactly`). One that is stored between the
  second and the fourth is shown together with the status of an undecided breach
  (`ViewCanDisagree`), since status and decision are read apart (`StraddlingViewExactly`).
- An empty category set would not read back (`CategoriesRoundTrip`); the check phase excludes
  it, so no stored breach is affected.
- A publish that raises after the commit leaves the record stored although the call raises
  (`SettledCall`, the raising-publish case).
- The compaction script calls its cut head-biased, but from a quota of two lines on the head
  gets half of the quota rounded down and the tail the rest, so the tail is never the shorter
  part (`HeadOutweighsTailOnlyAlone`). The model follows the code.

## Model

| member | source | states |
|---|---|---|
| `IncidentChecks.AuthorizationIsExact` | archive/modules/incident_response/service.py:672-693 | A context is admitted if and only if it is a trusted, unexpired, unprivileged USER context of the right policy version that shares a role with the required ones |
| `IncidentChecks.ProcessorNoticeCodeIsValid` | archive/modules/incident_response/service.py:192-204 | The fixed reason code of the processor entry passes the code pattern the read side applies |
| `IncidentChecks.BuiltBreachFits` | archive/modules/incident_response/service.py:152-169 | A validated draft that is not earlier than the incident builds a row with the 72 hour deadline, ordered times, processor evidence iff processor origin, and categories that decode again |
| `IncidentChecks.IncidentCheckEstablishes` | archive/modules/incident_response/service.py:505-529 | Only authorized, in-scope, well-formed incidents with their own entry and SUCCESS audit leave the check phase |
| `IncidentChecks.BreachCheckEstablishes` | archive/modules/incident_response/service.py:133-223 | Only a breach that fits the incident it was checked against, written under a context allowed for that incident, with exactly its entries and audit, leaves the check phase |
| `IncidentChecks.DecisionCheckEstablishes` | archive/modules/incident_response/service.py:235-298 | Only a decision by someone other than the breach recorder, not before the learned time, with the audited deadline value taken from the breach, leaves the check phase |
| `IncidentAdmission.ValidCodeExactly` | archive/modules/incident_response/service.py:696-697 | A code is valid if and only if it has 1 to 120 characters, each an upper-case letter, a digit, `_`, `.` or `-` |
| `IncidentAdmission.DenialReasonExactly` | archive/modules/incident_response/service.py:672-693 | Which of the seven reasons a context is turned away for: the first that applies, and none exactly for a context that meets every clause |
| `IncidentAdmission.IncidentDraftExactly` | archive/modules/incident_response/service.py:505-529 | A draft is invalid, out of scope (with its reason) or valid exactly by its fields, the clock and the permitted ids |
| `IncidentAdmission.BreachDraftExactly` | archive/modules/incident_response/service.py:532-559 | A draft is valid if and only if its members, references, time, categories, codes and processor evidence are |
| `IncidentAdmission.DecisionDraftExactly` | archive/modules/incident_response/service.py:562-570 | A draft is valid if and only if its member, references, time and code are |
| `IncidentAdmission.IncidentDraftMessages` | archive/modules/incident_response/service.py:505-521 | Which message a faulty incident draft gets: that of its first fault |
| `IncidentAdmission.BreachDraftMessages` | archive/modules/incident_response/service.py:532-544 | Which message a faulty breach draft gets: that of its first fault |
| `IncidentAdmission.BreachDraftLaterMessages` | archive/modules/incident_response/service.py:545-559 | The same for the faults checked last |
| `IncidentAdmission.DecisionDraftMessages` | archive/modules/incident_response/service.py:562-570 | Which message a faulty decision draft gets: that of its first fault |
| `IncidentAdmission.IncidentCallAnswered` | archive/modules/incident_response/service.py:73-97 | An incident is recorded if and only if the clock is aware, the context authorized, the draft sound and its scope in reach; otherwise the first that fails decides the refusal or denial |
| `IncidentAdmission.BreachCallAnswered` | archive/modules/incident_response/service.py:133-169 | A breach is recorded if and only if the clock is aware, the context authorized, the draft sound, the incident found, in reach, and detected no later than the breach was learned of; otherwise the first that fails decides the refusal or denial |
| `IncidentAdmission.DecisionCallAnswered` | archive/modules/incident_response/service.py:235-262 | A decision is recorded if and only if the clock is aware, the context authorized, the draft sound, breach and incident found, the incident in reach, the caller not the recorder of the breach, and the decision not before the breach was learned of; otherwise the first that fails decides |
| `IncidentAdmission.IncidentIsWrittenAsDrafted` | archive/modules/incident_response/service.py:79-123 | Every field of the recorded incident, of its entry and of its audit, from the draft, the caller, the clock and the drawn identifiers |
| `IncidentAdmission.BreachIsWrittenAsDrafted` | archive/modules/incident_response/service.py:155-169 | Every field of the recorded breach and of its row, the deadline 72 hours after the learned time |
| `IncidentAdmission.BreachCategoriesAreTheDrafts` | archive/modules/incident_response/service.py:155-169 | The recorded categories are those of the draft, and the row's text reads back as them |
| `IncidentAdmission.BreachEntriesTellTheDraft` | archive/modules/incident_response/service.py:170-204 | The entries of a recorded breach: the suspicion at the learned time, the containment and, for a processor, its notice at the time of recording, with their codes and evidence |
| `IncidentAdmission.BreachAuditTellsTheDraft` | archive/modules/incident_response/service.py:205-223 | Every field of the audit of a recorded breach |
| `IncidentAdmission.DecisionIsWrittenAsDrafted` | archive/modules/incident_response/service.py:263-298 | Every field of the recorded decision, of its entry and of its audit, with whether it came in time |
| `IncidentAdmission.DenialSays` | archive/modules/incident_response/service.py:428-452 | Every field of a staged denial, with and without a trusted context |
| `CategoryCodec.SplitUndoesJoin` | archive/modules/incident_response/repository.py:185 | Splitting at commas undoes joining for every non-empty list of comma-free pieces |
| `CategoryCodec.CategoriesRoundTrip` | archive/modules/incident_response/repository.py:368-377 | The stored category text reads back as the written set if and only if the set is not empty; the empty set does not decode at all |
| `IncidentStore.StoredBreachReadsBack` | archive/modules/incident_response/repository.py:270-285 | A stored breach reads back as written, with the status derived from the decision table, if and only if its category set is not empty |
| `IncidentAdmission.CategoryTexts` | archive/modules/incident_response/repository.py:185 | The texts of the sets of categories, the empty one included |
| `IncidentStore.InsertAllExtends` | archive/modules/incident_response/repository.py:54-119 | Statements only append: every table keeps what it held, in place |
| `IncidentStore.InsertKeepsUnique` | archive/modules/incident_response/repository.py:56-115 | The PRIMARY KEY and UNIQUE constraints keep at most one breach per incident, one decision per breach and all identifiers distinct |
| `IncidentStore.InsertKeepsSound` | archive/modules/incident_response/repository.py:70-101 | Every single admitted statement keeps uniqueness, references, time order, deadline and the different decider, if the row fits the row it refers to |
| `IncidentStore.AdmittedExactly` | archive/modules/incident_response/repository.py:53-119 | On tables with unique keys and no dangling reference the constraints admit a row if and only if the tables with it are so again: they turn nothing else down |
| `IncidentStore.StatementsEnd` | archive/modules/incident_response/repository.py:132-156 | A list of statements ends as written, as a conflict or as a database error according to which comes first: the statement that the constraints turn down or the one the fault hits |
| `IncidentStore.FoundStaysFound` | archive/modules/incident_response/repository.py:244-250 | A row that a lookup finds is still the one found after any further statement |
| `IncidentHistory.TransactionIsAtomic` | archive/modules/incident_response/repository.py:123-233 | A transaction stores exactly the operation's rows or nothing, and which of the two can be told from the tables before it and the failing statement alone |
| `IncidentHistory.StatementKeepsSound` | archive/modules/incident_response/repository.py:132-156 | A single statement of a checked operation keeps the tables sound wherever it lands among other callers' statements |
| `IncidentHistory.ApplyKeepsTimeline` | archive/modules/incident_response/service.py:98-107 | A whole operation leaves every incident's timeline equal to the one its tables call for |
| `IncidentHistory.ApplyKeepsBalance` | archive/modules/incident_response/service.py:170-204 | timeline rows = incidents + 2 * breaches + processor-origin breaches + decisions is kept |
| `IncidentHistory.ApplyKeepsAudit` | archive/modules/incident_response/service.py:459-487 | Exactly one SUCCESS audit of the matching action per stored row, in the same order, is kept |
| `IncidentHistory.ExpectedAfter` | archive/modules/incident_response/service.py:270-279 | An incident's expected timeline grows by the operation's own entries when it is that operation's incident and is unchanged otherwise |
| `IncidentHistory.TransactionKeepsAll` | archive/modules/incident_response/repository.py:160-199 | A transaction of a checked operation, whatever becomes of it, keeps the tables sound, presentable and complete |
| `IncidentView.StoredTimelineIsValidExactly` | archive/modules/incident_response/service.py:579-617 | Where an incident's timeline is the one its tables call for, the validator accepts a stored breach's timeline if and only if the clock is not behind the breach's and the decision's recorded events |
| `IncidentView.ExpectedIsValidExactly` | archive/modules/incident_response/service.py:586-617 | The timeline that a breach and its decision call for passes every clause of the validator under the same condition |
| `IncidentView.ValidityIgnoresIds` | archive/modules/incident_response/service.py:579-617 | The verdict does not depend on the random entry identifiers |
| `IncidentView.ViewIgnoresStorageOrder` | archive/modules/incident_response/service.py:361-371 | The view's order is the same sorted permutation whatever order a timeline of distinct types comes back in |
| `IncidentView.StoredBreachIsReadable` | archive/modules/incident_response/repository.py:252-285 | Every stored breach decodes, its incident is found, and its status is decided iff it has a decision row |
| `IncidentView.AdmitView` | archive/modules/incident_response/service.py:313-315 | A view goes on to its reads if and only if the clock is aware, the context is authorized for the privacy roles, and the query has a UUID and a valid reason code; otherwise it is refused as invalid or denied |
| `IncidentView.ViewFollowsValidator` | archive/modules/incident_response/service.py:316-345 | An admitted, in-scope query for a stored breach is answered if and only if the validator accepts the stored timeline, and otherwise fails only as a technical error |
| `IncidentView.ViewIsShownExactly` | archive/modules/incident_response/service.py:308-345 | An authorized, well-formed, in-scope query for a stored breach whose timeline is on schedule is answered if and only if the clock is not behind its recorded events |
| `IncidentView.ShownViewIsFaithful` | archive/modules/incident_response/service.py:346-374 | A shown view tells the stored breach's times, 72 hour deadline, decision and status, and a sorted permutation of its three to five entries |
| `IncidentView.ShownViewTellsTheRow` | archive/modules/incident_response/service.py:346-374 | A shown view tells the breach's own columns, the decision's columns if there is one and none otherwise, and the deadline status as of the moment of the view |
| `IncidentAdmission.ShownOnlyInReach` | archive/modules/incident_response/service.py:316-330 | A view is handed out only at an aware clock to an authorized context whose permitted ids, or enterprise right, cover the breach's incident, whichever reads fail |
| `IncidentAdmission.ViewAnswered` | archive/modules/incident_response/service.py:308-338 | The answer to a view for every clock, context and query: an unauthorized one is denied with its reason, an ill-formed one refused, an unknown breach not found, and one outside the context's reach denied as INCIDENT_SCOPE_DENIED; every other is shown or fails as a technical error |
| `IncidentAdmission.FailedReadAnswered` | archive/modules/incident_response/service.py:316-343 | A failing read is a technical error, unless the scope that was read before already denied the view |
| `IncidentAdmission.ShownViewIsAudited` | archive/modules/incident_response/service.py:376-402 | Every field of the event staged for a view, from the caller, the query and the view |
| `IncidentAdmission.ValidatorCounts` | archive/modules/incident_response/service.py:579-617 | The validator accepts a timeline if and only if it has exactly one entry of each type called for and no other, all of this incident and breach, none later than the clock, all with valid codes |
| `IncidentAdmission.RankIsAlphabetical` | archive/modules/incident_response/service.py:365-368 | Events of the same time are ordered by the stored names of their types |
| `IncidentAdmission.ShownEventsAreListedInOrder` | archive/modules/incident_response/service.py:357-369 | A view lists type, time and code of every stored entry once, by time and then by the names of the types |
| `IncidentProtocol.SelectionExactly` | src/veri_kalitesi/audit/outbox.py:82-95 | A publisher selects as many different pending events as there are, but at most 100 |
| `IncidentProtocol.IssuedIsSupported` | archive/modules/incident_response/service.py:133-233 | Because record identifiers are drawn once, the row now stored under an identifier is the one every caller read, even after a rollback in between |
| `IncidentProtocol.CheckKeepsSafe` | archive/modules/incident_response/service.py:139-153 | A call that passes its checks against any row ever visible, committed or not, keeps the invariant |
| `IncidentProtocol.ExecKeepsSafe` | archive/modules/incident_response/repository.py:169-199 | A statement executed among interleaved callers keeps the invariant |
| `IncidentProtocol.NextKeepsSafe` | archive/modules/incident_response/repository.py:123-242 | Every step (clock, check, note, begin, statement, commit, rollback, and a publisher's selection, commit and rollback) keeps the invariant |
| `IncidentProtocol.EveryRunIsSafe` | archive/modules/incident_response/service.py:73-306 | For every interleaving, also with publishers that commit or roll back other callers' statements: at most one breach per incident and one decision per breach, no dangling reference, detected <= learned <= decided <= recorded, deadline = learned + 72 h, decider other than the breach recorder |
| `IncidentRuns.IssuedByACall` | archive/modules/incident_response/service.py:73-97 | Every operation of a run was built by one of its calls, under that call's own context, time and identifiers |
| `IncidentRuns.EveryVisibleRowIsSeen` | archive/modules/incident_response/repository.py:244-285 | Whatever the connection shows is among the rows that checks may have read |
| `IncidentRuns.EveryRowWasAuthorized` | archive/modules/incident_response/service.py:411-426 | In every reachable state every row was built by a call of the run whose own context was authorized at the row's time, names the row's actor, and covers the row's incident |
| `IncidentRuns.IncidentAuditTellsItsRow` | archive/modules/incident_response/service.py:108-123 | In every reachable state the SUCCESS event of a stored incident carries that row's actor, time, code, source, severity and scope type |
| `IncidentRuns.BreachAuditTellsItsRow` | archive/modules/incident_response/service.py:205-223 | The event of a stored breach carries that row's actor, time, origin, deadline, evidence flag and containment code |
| `IncidentRuns.DecisionAuditTellsItsRow` | archive/modules/incident_response/service.py:283-298 | The event of a stored decision carries that row's actor, time, decision and reason |
| `IncidentRuns.CommittedOnlyGrows` | archive/modules/incident_response/repository.py:53-119 | Over any run nothing committed is changed, reordered or removed, and time does not go back |
| `IncidentRuns.AuditedDeadlineAgrees` | archive/modules/incident_response/service.py:280-298 | The on-time or overdue value audited with a decision is what every later view says |
| `IncidentRuns.DeadlineOnlyAdvances` | archive/modules/incident_response/service.py:620-635 | Along a run a decided status never changes and an undecided breach moves only from pending to overdue |
| `IncidentConservation.EveryRunIsTracked` | archive/modules/incident_response/repository.py:132-156 | In every run the tables are those of the open transaction's surviving statements on the tables it started from, as long as none was lost |
| `IncidentConservation.WholeRunsAreComplete` | archive/modules/incident_response/repository.py:123-233 | Over every run whose ended transactions left all of their rows or none, the tables between transactions are complete: every timeline is the one its tables call for, timeline rows = incidents + 2 * breaches + processor breaches + decisions, one SUCCESS audit per row |
| `IncidentConservation.AuditsMatchExactly` | archive/modules/incident_response/repository.py:123-233 | Over every run there is one SUCCESS audit per stored row between transactions if and only if every ended transaction left both its record and its audit, or neither |
| `IncidentConservation.RestIsCompleteExactly` | src/veri_kalitesi/audit/outbox.py:95-121 | Over every run in which no publisher fails inside an open transaction, timelines, row count and audits are all complete between transactions if and only if no transaction was rolled back after a publisher had committed some but not all of its statements |
| `IncidentConservation.PublishPendingCommits` | src/veri_kalitesi/audit/outbox.py:82-121 | A publisher's pass, whichever of its events are delivered, commits the connection unless nothing was pending, in which case it changes nothing |
| `IncidentConservation.RowsAreAuditedExactly` | src/veri_kalitesi/audit/outbox.py:82-121 | In any state of any run the committed rows have one SUCCESS audit each if and only if every ended transaction left both its record and its audit or neither, and the publishers' commits have so far done the same with the open one; likewise for the rows a commit would store now |
| `IncidentConservation.ConnectionIsAuditedExactly` | src/veri_kalitesi/audit/outbox.py:82-121 | Without failing publishers and cut transactions: what a commit at this moment would store is audited row by row if and only if the open transaction has run none or all of its statements, and what is committed if and only if publishers have committed none or all of them, however others step in between |
| `IncidentConservation.PublishKeepsAuditExactly` | src/veri_kalitesi/audit/outbox.py:95-121 | Any number of publishers' steps, of any selections, delivered or not, that are taken while every committed row is audited keep it so if and only if there are none, no transaction is open, or the open one has run none or all of its statements |
| `IncidentConservation.PublishThenRollbackLosesAudit` | src/veri_kalitesi/audit/outbox.py:111-120 | After a publisher's commit in the middle of a transaction the rollback leaves the record without its audit |
| `IncidentConservation.AnyIncidentCanLoseItsAudit` | src/veri_kalitesi/audit/outbox.py:95-121 | Every incident draft that passes its checks has a run, beside the publishing of another caller's denial, that ends with the incident stored and neither timeline nor audit of it |
| `IncidentConservation.AnyIncidentCanLoseItsRecord` | src/veri_kalitesi/audit/outbox.py:95-121 | And a run, beside a publisher whose update fails, that commits its SUCCESS audit without the incident |
| `IncidentConservation.AnIncidentLosesItsAudit` | src/veri_kalitesi/audit/outbox.py:82-121 | A concrete policy, denial, context and draft for which both happen |
| `IncidentTimelines.EveryTimelineIsLeft` | archive/modules/incident_response/repository.py:123-233 | Over every run, whatever publishers do, an incident's timeline between transactions consists of the entries whose statements survived, in order; the entries its tables call for are those the surviving records owe; and the row count is off by exactly what the ended transactions left too much or too little |
| `IncidentTimelines.TimelineIsUpToDateExactly` | archive/modules/incident_response/repository.py:123-233 | In a run in which no publisher fails inside a transaction of the incident, its timeline between transactions is the one its tables call for if and only if none of its transactions was rolled back after its record and before its last entry was published; otherwise entries are missing. Other incidents do not matter |
| `IncidentTimelines.VisibleTimelineIsUpToDateExactly` | archive/modules/incident_response/repository.py:169-199 | The same of what unlocked reads see: in addition the open transaction must not be between the incident's record and its last entry |
| `IncidentTimelines.TimelinesAreCompleteExactly` | src/veri_kalitesi/audit/outbox.py:95-121 | Where no publisher fails inside an open transaction all timelines are complete if and only if no recording transaction was cut between its record and its last entry |
| `IncidentTimelines.RowCountIsExact` | src/veri_kalitesi/audit/outbox.py:95-121 | In such runs there are never more timeline rows than incidents + 2 * breaches + processor breaches + decisions, and as many if and only if no recording transaction was cut between its record and its last entry |
| `IncidentReads.ValidExactlyWhenUpToDate` | archive/modules/incident_response/service.py:579-617 | On a timeline with no entries too many the validator accepts a stored breach if and only if no entry is missing and the clock is not behind the recorded events |
| `IncidentReads.ValidExactlyWhenOneEach` | archive/modules/incident_response/service.py:579-617 | On whatever entries the writers can leave, the validator accepts if and only if there is one entry of each type that the breach and the decision call for, no other, and none later than the clock |
| `IncidentReads.EveryEntryFits` | archive/modules/incident_response/service.py:586-604 | In any state of any run each entry has a valid code and names the breach of its own incident, unless it is the incident's own entry |
| `IncidentReads.ViewInEveryStateExactly` | archive/modules/incident_response/service.py:308-374 | In any state of any run an authorized, in-scope view of a visible breach is answered if and only if its stored timeline has one entry of each type called for, no other, and none later than the clock; otherwise it fails as a technical error |
| `IncidentReads.ViewOverRunsExactly` | archive/modules/incident_response/service.py:308-374 | In any state of a run in which no publisher fails inside a transaction of the incident, such a view is answered if and only if no transaction of that incident was ever cut between its record and its last entry, the open one is not there now, and the clock is not behind the recorded events; what happened to other incidents does not matter |
| `IncidentReads.CommittedBreachIsViewedExactly` | archive/modules/incident_response/service.py:308-374 | With a clock not behind the system's, a breach stored before the open transaction is shown if and only if no transaction of its incident was ever cut and the open one has not inserted a decision on it without its entry |
| `IncidentReads.StraddlingViewExactly` | archive/modules/incident_response/service.py:316-345 | A view whose five reads are made at different moments of any run is shown if and only if the timeline it reads has one entry of each type that the breach and the decision it reads call for, and none later than the clock; its status tells of the second read, its decision of the fourth |
| `IncidentReads.StraddlingViewOverRunsExactly` | archive/modules/incident_response/service.py:340-345 | Where the incident's transactions left nothing out, such a view is shown if and only if no decision came or went between its last two reads and the clock is not behind |
| `IncidentReads.ViewCanDisagree` | archive/modules/incident_response/service.py:328-355 | A view that makes three reads before a decision is stored and two after it shows the decision together with the status of an undecided breach |
| `IncidentReads.EveryDecisionCanBeStraddled` | archive/modules/incident_response/service.py:235-306 | Every admitted decision transaction on complete tables is one that a view can straddle so |
| `IncidentReads.TablesRefineMutableStatus` | archive/modules/incident_response/repository.py:382-386 | After the record of one operation is inserted reading breaches back behaves as if a decision had set a status field in place |
| `IncidentReads.RunsRefineMutableStatus` | archive/modules/incident_response/repository.py:270-285 | Over every run, whatever publishers do, the append-only tables between transactions read like a store in which the operations whose record was left changed the status in place |
| `IncidentReads.VisibleRefinesMutableStatus` | archive/modules/incident_response/repository.py:270-285 | The same of what unlocked reads see in the middle of a transaction, with the open operation in place once its record is inserted |
| `IncidentRepository.Repository.constructor` | archive/modules/incident_response/repository.py:46-121 | A new repository is empty and valid |
| `IncidentRepository.Repository.Statement` | archive/modules/incident_response/repository.py:327-345 | One statement appends its row when the constraints admit it and nothing fails, and otherwise changes nothing |
| `IncidentRepository.Repository.Finish` | archive/modules/incident_response/repository.py:132 | Leaving the block commits or restores every table and the outbox |
| `IncidentRepository.Repository.RecordWithEntries` | archive/modules/incident_response/repository.py:160-199 | The record, its entries one by one, the staged audit and the commit amount to one transaction |
| `IncidentRepository.Repository.CreateIncident` | archive/modules/incident_response/repository.py:123-158 | The call is the transaction of its three statements on the tables it found |
| `IncidentRepository.Repository.CreateBreachSuspicion` | archive/modules/incident_response/repository.py:160-199 | The call is the transaction of the encoded breach, its entries and its audit |
| `IncidentRepository.Repository.AddBreachDecision` | archive/modules/incident_response/repository.py:201-233 | The call is the transaction of the decision, its entry and its audit |
| `IncidentRepository.Repository.RecordAudit` | archive/modules/incident_response/repository.py:235-242 | The call is the transaction of one staged event |
| `IncidentService.SettledCall` | archive/modules/incident_response/service.py:428-457 | An authorization error means nothing changed but one staged DENIED audit with its reason; a returned record means exactly its rows were stored; a conflict means the constraints refused them and nothing changed |
| `IncidentService.SettledView` | archive/modules/incident_response/service.py:376-409 | A view is handed out only when its own audit was staged and published; any other end has changed nothing or staged one event |
| `IncidentService.CallSucceedsExactly` | archive/modules/incident_response/service.py:124-131 | A checked call returns its record if and only if the constraints admit its rows and nothing fails on the way |
| `IncidentService.CheckedCallAnswered` | archive/modules/incident_response/service.py:124-131 | What a checked call returns and leaves for every fault: a technical error or a conflict, by what ends its statements first, with nothing changed; otherwise its rows, and the record or the error of the raising publish |
| `IncidentService.TurnedAwayAnswered` | archive/modules/incident_response/service.py:428-457 | A refused call changes nothing and raises its error; a denied one stages its event and raises the reason, unless staging or publishing fails, which is a technical error |
| `IncidentService.ViewCallAnswered` | archive/modules/incident_response/service.py:376-409 | A view is returned if and only if its event was staged and published |
| `IncidentService.RecordedIsReturned` | archive/modules/incident_response/service.py:124-131 | A recording method hands out the record of its operation, or the error |
| `IncidentService.SettleKeepsAll` | archive/modules/incident_response/service.py:224-233 | Whatever happens to a call, the tables stay sound, presentable and complete |
| `IncidentService.CallGoesByTheTables` | archive/modules/incident_response/service.py:140-149 | The check phase of a call goes by the incident stored under the draft's identifier, or the breach stored under it with its derived status and the incident its row names, by nothing where there is none, and by a broken read where one fails |
| `IncidentService.EveryCallIsARun` | archive/modules/incident_response/service.py:73-306 | Every recording call that runs undisturbed in a reachable state, reading the tables it finds, whether refused for any reason including a missing or failing read, denied, conflicting, failing at some statement or stored, continues the run with the same tables as the call leaves; a passed check is a step of the protocol |
| `IncidentService.CallIsChecked` | archive/modules/incident_response/service.py:133-298 | A call that passes its checks against the tables builds a checked operation on the rows it read |
| `IncidentService.EveryViewIsARun` | archive/modules/incident_response/service.py:308-409 | The same for a view |
| `IncidentService.RecordedBreachIsSeen` | archive/modules/incident_response/service.py:155-169 | A recorded breach, viewed by anyone authorized before a decision, shows what its draft said |
| `IncidentService.RecordedIncidentIsRead` | archive/modules/incident_response/repository.py:352-365 | A recorded incident reads back with what its draft said |
| `IncidentService.RecordedDecisionIsRead` | archive/modules/incident_response/repository.py:287-303 | A recorded decision reads back with what its draft said, never as dispatched |
| `IncidentService.PolicyProblem` | archive/modules/incident_response/service.py:496-502 | A policy has no problem if and only if its versions and roles are valid codes and both role sets are non-empty |
| `IncidentService.Service.Open` | archive/modules/incident_response/service.py:55-71 | A service is set up if and only if the policy has no problem and the outbox shares the connection |
| `IncidentService.Service.RecordDenial` | archive/modules/incident_response/service.py:428-457 | The denial's effect on the tables and the error raised are those of the specification, for every fault |
| `IncidentService.Service.Conclude` | archive/modules/incident_response/service.py:299-306 | A finished check phase is refused, denied, or prepared, written and published as specified |
| `IncidentService.Service.Write` | archive/modules/incident_response/service.py:224-231 | The built records reach the repository as the operation's transaction |
| `IncidentService.Service.RecordSecurityIncident` | archive/modules/incident_response/service.py:73-131 | The new tables and the result are those the check phase and the settled call determine, and the repository stays valid |
| `IncidentService.Service.RecordBreachSuspicion` | archive/modules/incident_response/service.py:133-233 | The same for a suspicion, reading the incident first |
| `IncidentService.Service.RecordNotificationDecision` | archive/modules/incident_response/service.py:235-306 | The same for a decision, reading the breach and its incident first |
| `IncidentService.Service.CheckNotificationDecision` | archive/modules/incident_response/service.py:235-262 | The two reads, the second made only if the first succeeds, with a failure at either, come to the specified verdict |
| `IncidentService.Service.ConcludeView` | archive/modules/incident_response/service.py:376-409 | A view is handed out only after its audit was staged and published; every other end changes nothing or stages a denial |
| `IncidentService.Service.ReadForView` | archive/modules/incident_response/service.py:316-345 | The five reads through the repository, made one after the other as far as needed, with a failure at any of them, come to the specified verdict |
| `IncidentService.Service.ViewBreachTimeline` | archive/modules/incident_response/service.py:308-374 | The result and the outbox are those of the view specification on the tables found, for a failure at any read |
| `Sorting.SortPermutes` | archive/modules/incident_response/service.py:367-370 | Sorting keeps every element and its multiplicity |
| `Sorting.SortOrders` | archive/modules/incident_response/service.py:367-370 | Sorting by a total preorder gives an ordered list |
| `Sorting.SortIsStable` | frontend/src/dashboard/DashboardPage.tsx:733-735 | Elements that compare equal keep their relative order |
| `Sorting.OrderedIsUnique` | archive/modules/incident_response/service.py:367-370 | Two ordered arrangements of the same elements are equal when no two different elements compare equal |
| `GraphMerge.MergingNodesIsAHomomorphism` | scripts/extract_code_graph.py:209-218 | Merging two node batches one after the other is merging their concatenation |
| `GraphMerge.MergingLinksIsAHomomorphism` | scripts/extract_code_graph.py:227-242 | Merging two edge batches one after the other is merging their concatenation |
| `GraphMerge.LastWithIdExactly` | scripts/extract_code_graph.py:204-207 | The node an update goes to is the last one whose id field has the text |
| `GraphMerge.FirstWithKeyExactly` | scripts/extract_code_graph.py:222-242 | The link an update goes to is the first one of AST origin with the same source, target and relation fields |
| `GraphMerge.UpsertNodeExactly` | scripts/extract_code_graph.py:209-218 | A new node replaces the last one with its id if that is of AST origin, is dropped if that is of another, and is appended if there is none |
| `GraphMerge.UpsertLinkExactly` | scripts/extract_code_graph.py:227-242 | A new edge's fields go over those of the first AST link of its source, target and relation, or it is appended |
| `GraphMerge.LastNewNodeStands` | scripts/extract_code_graph.py:209-218 | Under every id, new or existing, stands the last new node of the id unless the graph has a node from elsewhere there; an id occurs iff one side has it |
| `GraphMerge.AddedNodesAreNew` | scripts/extract_code_graph.py:216-218 | A node behind the existing ones has a new id and is the one its id stands for |
| `GraphMerge.LinksAreOverlaid` | scripts/extract_code_graph.py:227-242 | Under every key, new or existing, stands the overlay of all the batch's edges of the key, on the existing AST link or on nothing; a key occurs iff one side has it |
| `GraphMerge.AddedLinksAreNew` | scripts/extract_code_graph.py:240-242 | A link behind the existing ones has a new key and is the one its key stands for |
| `GraphMerge.FieldsAreOverridden` | scripts/extract_code_graph.py:238 | Each field of an overlay comes from the last edge of its key that has the field, and is kept when none has |
| `GraphMerge.MergedNodes` | scripts/extract_code_graph.py:204-218 | Every existing node keeps its position and is replaced only in the slot its id points to |
| `GraphMerge.MergedLinks` | scripts/extract_code_graph.py:227-242 | Every existing link keeps its position; only the first AST link of a key is updated |
| `GraphMerge.ForeignNodesStay` | scripts/extract_code_graph.py:213-215 | A node that did not come from the AST is never changed |
| `GraphMerge.MergingNodesTwiceIsMergingOnce` | scripts/extract_code_graph.py:195-218 | Merging the same node batch again changes nothing |
| `GraphMerge.MergingLinksTwiceIsMergingOnce` | scripts/extract_code_graph.py:220-242 | Merging the same edge batch again changes nothing |
| `GraphMerge.MergingKeepsIdsUnique` | scripts/extract_code_graph.py:209-218 | Unique node ids stay unique |
| `GraphMerge.MergingKeepsKeysUnique` | scripts/extract_code_graph.py:227-242 | Unique AST link keys stay unique |
| `GraphMerge.CodeGraph.BuildIndex` | scripts/extract_code_graph.py:204-207 | The index maps each id to the last node that has it, and holds no other id |
| `GraphMerge.CodeGraph.UpsertIndexed` | scripts/extract_code_graph.py:209-218 | One turn of the loop is one ordered upsert and leaves the index in agreement with the list |
| `GraphMerge.CodeGraph.MergeNodeBatch` | scripts/extract_code_graph.py:204-218 | The indexed loop is the fold of ordered upserts |
| `GraphMerge.CodeGraph.UpdateFirst` | scripts/extract_code_graph.py:231-239 | The scan updates the first AST link of the key |
| `GraphMerge.CodeGraph.MergeLinkBatch` | scripts/extract_code_graph.py:220-242 | The loop with its key set is the fold of ordered upserts |
| `GraphMerge.CodeGraph.Merge` | scripts/extract_code_graph.py:195-245 | Both lists become what the folds say |
| `GraphMerge.CodeGraph.MergeInTurn` | scripts/extract_code_graph.py:278-286 | Two calls, each with its own index and key set, leave what one call on the concatenated batches leaves |
| `AstWalk.WalkCountsCalls` | scripts/extract_code_graph.py:104-109 | The breadth-first walk meets every named call of the tree once |
| `AstWalk.CallEdgesCountEnclosures` | scripts/extract_code_graph.py:97-111 | A file has as many "calls" edges as there are pairs of a named call and a function definition around it |
| `AstPaths.WalkReaches` | scripts/extract_code_graph.py:105-110 | The breadth-first walk yields exactly the nodes below the queued ones |
| `AstPaths.NodesAreDefinitions` | scripts/extract_code_graph.py:63-79 | Every node of a file is that of a definition reached on some path, with the id and caption made of its classes and its own name joined by dots, its line and its kind, or is the module's |
| `AstPaths.DefinitionsHaveNodes` | scripts/extract_code_graph.py:97-129 | Every definition's id, made of the file and its dotted name with other characters replaced, is among those of the file's nodes, and if no other goes by it the node carries its full name, line and kind |
| `AstPaths.EdgesAreExactly` | scripts/extract_code_graph.py:97-146 | The edges of a file are exactly those from a function's id to the id of a name called below it, from a class's id to the id of a named base, and from the module's id to an imported module's |
| `AstPaths.ExtractFile` | scripts/extract_code_graph.py:168-178 | Extracting a file yields the nodes and edges of its tree, with distinct ids and every edge starting at one of them |
| `AstWalk.GraphBuilder.constructor` | scripts/extract_code_graph.py:53-58 | A new builder is empty and valid |
| `AstWalk.GraphBuilder.AddNode` | scripts/extract_code_graph.py:63-79 | A node is added unless its id was emitted before; the seen ids are exactly the emitted ones |
| `AstWalk.GraphBuilder.AddEdge` | scripts/extract_code_graph.py:81-93 | An edge starts at an emitted node |
| `AstWalk.GraphBuilder.AddCallEdges` | scripts/extract_code_graph.py:104-109 | The queue loop adds one edge for each named call of the walk, in its order |
| `AstWalk.GraphBuilder.AddBaseEdges` | scripts/extract_code_graph.py:121-125 | One edge for each base class that has a name |
| `AstWalk.GraphBuilder.AddImportEdges` | scripts/extract_code_graph.py:135-137 | One edge for each imported name |
| `AstWalk.GraphBuilder.VisitFunction` | scripts/extract_code_graph.py:97-111 | A function definition adds its node, its calls and what its parts add, and restores the scope stack |
| `AstWalk.GraphBuilder.VisitClass` | scripts/extract_code_graph.py:115-129 | A class definition adds its node and bases and visits its parts one scope deeper, and restores the scope stack |
| `AstWalk.GraphBuilder.Visit` | scripts/extract_code_graph.py:97-146 | A visit adds exactly the tree's nodes, edges and ids and restores the scope stack |
| `AstWalk.GraphBuilder.VisitAll` | scripts/extract_code_graph.py:111 | Visiting children one by one adds what each of them adds, in order |
| `Reachability.BeforeLastDot` | scripts/measure_runtime_reachability.py:66 | The text before the last dot, or nothing when there is none |
| `Reachability.ResolutionIsUnique` | scripts/measure_runtime_reachability.py:64-67 | A name has at most one longest known dotted prefix |
| `Reachability.LongestKnownPrefix` | scripts/measure_runtime_reachability.py:64-67 | The loop ends with the longest known non-empty dotted prefix, or with nothing if and only if there is none |
| `Reachability.ReachableModules` | scripts/measure_runtime_reachability.py:56-68 | The worklist ends with the least set of known modules that holds the known entrypoints and is closed under resolved imports; it terminates by (unreached modules, queue length) |
| `Reachability.Follow` | scripts/measure_runtime_reachability.py:63-68 | Whatever order the import set is walked in, every resolved import is reached or queued, and nothing else is queued |
| `Reachability.ReachedExactlyByChains` | scripts/measure_runtime_reachability.py:56-68 | A module is in the least set if and only if a chain of resolved imports leads to it from a known entrypoint |
| `Reachability.CountLines` | scripts/measure_runtime_reachability.py:70-81 | The loop's totals are the line sums over all and over the reached modules, and the group table is the tally of its modules |
| `Reachability.TopLevelIsTheSecondPart` | scripts/measure_runtime_reachability.py:75 | A group is what stands between the first and the second dot of a module name, or the whole name without a dot |
| `Reachability.LinesAddUp` | scripts/measure_runtime_reachability.py:76-80 | Every source adds its lines to the total, and to the reached ones if and only if it is reachable |
| `Reachability.GroupsAddUp` | scripts/measure_runtime_reachability.py:88-95 | The group counts, listed once each in any order, add up to the overall total and reached lines |
| `Reachability.GroupHoldsItsSources` | scripts/measure_runtime_reachability.py:75-80 | Each group counts exactly the modules whose top-level name it is, and is listed iff there is one |
| `Compaction.ParseBlocks` | scripts/compact_segment.py:47-100 | The index loops yield a parse: consecutive non-empty blocks, code from fence to fence or to the end, maximal table and text runs, single blank lines |
| `Compaction.ReadCode` | scripts/compact_segment.py:58-68 | A fenced block, closed by the next fence or by the end of the text |
| `Compaction.ReadTable` | scripts/compact_segment.py:71-78 | A maximal run of table rows |
| `Compaction.ReadProse` | scripts/compact_segment.py:81-94 | A maximal run of text lines |
| `Compaction.ParseIsLossless` | scripts/compact_segment.py:47-100 | Concatenating the blocks of a parse gives the lines |
| `Compaction.ParseIsUnique` | scripts/compact_segment.py:47-100 | A text has one parse |
| `Compaction.CompactProseLines` | scripts/compact_segment.py:103-132 | The slices and the inserted marker are the cut that the quota calls for |
| `Compaction.ShortenedExpands` | scripts/compact_segment.py:124-132 | A shortened block reads back as the block: the marker stands for exactly the lines left out |
| `Compaction.ShortenedFillsTheQuota` | scripts/compact_segment.py:114-130 | Below ratio 1 the first line stays, max(1, int(n * ratio)) lines are printed when fewer than n, and the marker counts the rest |
| `Compaction.QuotaIsTheWholePart` | scripts/compact_segment.py:114-118 | Below ratio 1 the number of printed lines is the whole part of lines times ratio, but at least one |
| `Compaction.PrintedFromBothEnds` | scripts/compact_segment.py:120-130 | Half of the printed lines, rounded down but at least one, come from the start, then one marker counts all that are missing, and the rest come from the end |
| `Compaction.HeadOutweighsTailOnlyAlone` | scripts/compact_segment.py:106-122 | Contrary to the documented head bias, more lines are kept before the marker than after it if and only if a single line is kept |
| `Compaction.EffectiveRatioIsProper` | scripts/compact_segment.py:148-160 | Below ratio 1 the effective ratio of the prose lies in [0, 1), whatever the blocks |
| `Compaction.ProseGetsWhatIsLeft` | scripts/compact_segment.py:148-162 | The effective ratio gives the prose as many characters as the whole part of the text's share leaves beside code and tables, and none if they fill it |
| `Compaction.NothingLeftForProse` | scripts/compact_segment.py:149-157 | A text of code and tables only has no prose to cut, and a text without characters no share to give |
| `CompactionLines.LineKindsExactly` | scripts/compact_segment.py:58-91 | A fence starts with three back quotes, a row with a bar, and a blank line holds white space only |
| `Compaction.CompactBlocks` | scripts/compact_segment.py:162-170 | The loop prints code and table blocks as they are and prose blocks shortened, in order |
| `Compaction.CompactSegment` | scripts/compact_segment.py:135-170 | The output of each mode, over the one parse of the text |
| `Compaction.NothingUnaccounted` | scripts/compact_segment.py:103-132 | In any output that reads back, printed lines plus marker counts make up the input, in order, and every line outside prose is printed |
| `Compaction.StructuredOutputIsFaithful` | scripts/compact_segment.py:146-170 | The structured output reads back as the text with markers over prose only; code and table lines are all there, in order |
| `Compaction.EveryLongProseBlockIsCut` | scripts/compact_segment.py:151-168 | In the structured mode below ratio 1 a prose block is cut if and only if it has two lines or more, and keeps its first |
| `Grouping.GroupByIsWellFormed` | frontend/src/audit/AuditTimeline.tsx:63-68 | The grouping map lists each key once and no empty group |
| `Grouping.GroupsAreFiltered` | frontend/src/audit/AuditTimeline.tsx:63-68 | Each group is the items with its key, in arrival order, and exists iff there is such an item |
| `Grouping.GroupsPartition` | frontend/src/audit/AuditTimeline.tsx:63-68 | Going through the groups meets every item exactly once |
| `AuditGroups.ColorForCorrelation` | frontend/src/audit/AuditTimeline.tsx:46-52 | The loop's colour index is the magnitude of the base-31 polynomial of the text, reduced to a signed 32-bit word, modulo 10, and in range |
| `AuditGroups.HashRound` | frontend/src/audit/AuditTimeline.tsx:49 | A shift-and-subtract round on a reduced value is 31 times the unreduced value plus the unit, reduced |
| `AuditGroups.PolynomialAppend` | frontend/src/audit/AuditTimeline.tsx:48-50 | One more character multiplies the polynomial by 31 and adds its unit |
| `AuditGroups.FirstUnitExactly` | frontend/src/audit/AuditTimeline.tsx:49 | The first UTF-16 unit of a character is the character itself or the high surrogate of its block |
| `AuditGroups.GroupEvents` | frontend/src/audit/AuditTimeline.tsx:63-68 | The loop computes the grouping of the items by correlation id |
| `AuditGroups.BuildTimeline` | frontend/src/audit/AuditTimeline.tsx:61-82 | The rows are those of the timeline specification |
| `AuditGroups.RowIsExact` | frontend/src/audit/AuditTimeline.tsx:73-76 | A row holds exactly its correlation id's events, ordered by time and sequence number, so that it starts with the earliest |
| `AuditGroups.TimelineIsExact` | frontend/src/audit/AuditTimeline.tsx:69-81 | One row for each correlation id that occurs, no other, none twice, in the order of their earliest events |
| `AuditGroups.RowAscends` | frontend/src/audit/AuditTimeline.tsx:73-76 | Within a row events ascend by time and, at the same time, by sequence number |
| `AuditGroups.RowsAscend` | frontend/src/audit/AuditTimeline.tsx:78-81 | The rows ascend by the time of their first events |
| `AuditGroups.RowIsColored` | frontend/src/audit/AuditTimeline.tsx:46-52 | The colour of a row is the last digit of the hash of its id, whatever the sign |
| `AuditGroups.TimelineIgnoresArrival` | frontend/src/audit/AuditTimeline.tsx:61-82 | Without ties the timeline does not depend on the order in which events arrive |
| `Trend.GroupScores` | frontend/src/dashboard/DashboardPage.tsx:724-731 | The loop groups the scores that have a scope by scope, in arrival order |
| `Trend.SortHistories` | frontend/src/dashboard/DashboardPage.tsx:732-741 | Every history is its group sorted by time and not empty, and the latest score is its last entry |
| `Trend.BuildHistory` | frontend/src/dashboard/DashboardPage.tsx:724-741 | History and latest score of every dataset that has a score |
| `Trend.HistoryIsExact` | frontend/src/dashboard/DashboardPage.tsx:725-735 | A history is a stable ascending arrangement of exactly the dataset's scores |
| `Trend.LastWriteIsLatest` | frontend/src/dashboard/DashboardPage.tsx:815-819 | On an ascending history the last write for a day is a latest recent score of that day, and exists iff there is one |
| `Trend.DayScoreIsLatest` | frontend/src/dashboard/DashboardPage.tsx:814-819 | A dataset's score for a day is the latest among all its recent scores of that day |
| `Trend.LatestByDay` | frontend/src/dashboard/DashboardPage.tsx:815-819 | The loop leaves, for each day, the score written last |
| `Trend.AddHistory` | frontend/src/dashboard/DashboardPage.tsx:814-826 | A history adds its non-null day values to the collected ones, one per day |
| `Trend.AverageTrend` | frontend/src/dashboard/DashboardPage.tsx:811-833 | One point for each day with a value, days strictly ascending, each the mean over the datasets of their latest score of that day |
| `Trend.PointsOf` | frontend/src/dashboard/DashboardPage.tsx:828-833 | The sorted, averaged points of the collected values |
| `Trend.AverageStaysInRange` | frontend/src/dashboard/DashboardPage.tsx:830-832 | Every average lies between any bounds of the day's values |
| `Trend.MeanIsTheAverage` | frontend/src/dashboard/DashboardPage.tsx:831 | The average of one value is the value, and one more value moves it in proportion |
| `Trend.PointIsAverageOfLatest` | frontend/src/dashboard/DashboardPage.tsx:811-832 | A point is the sum of the latest recent numbers of its day, one for each dataset whose latest is a number, divided by how many there are |
| `Trend.TrendIsUnique` | frontend/src/dashboard/DashboardPage.tsx:811-833 | The description of the trend determines it |
| `Trend.DayIsShownExactly` | frontend/src/dashboard/DashboardPage.tsx:820-825 | A day has a point if and only if some dataset's latest recent score of that day is a number |
| `ReferenceGrammar.SegmentGrammar` | src/veri_kalitesi/data_minimum_evidence.py:15 | The segment expression accepts exactly 1 to 64 allowed characters that begin and end alphanumeric |
| `ReferenceGrammar.ClassesAreListed` | src/veri_kalitesi/data_minimum_evidence.py:15-18 | The character classes of the expressions, by their members |
| `ReferenceGrammar.SeparatedGrammar` | src/veri_kalitesi/data_minimum_evidence.py:16 | A separated list of an expression accepts exactly the texts whose pieces it accepts |
| `ReferenceGrammar.PathGrammar` | src/veri_kalitesi/data_minimum_evidence.py:15-16 | The path expression accepts exactly the texts whose /-separated pieces are segments |
| `ReferenceGrammar.HmacGrammar` | src/veri_kalitesi/data_minimum_evidence.py:17 | The keyed expression accepts exactly scheme, one segment, slash and 64 lower-case hexadecimal digits |
| `ReferenceGrammar.Sha256Grammar` | src/veri_kalitesi/data_minimum_evidence.py:18 | The digest expression accepts exactly the prefix and 64 lower-case hexadecimal digits |
| `Evidence.PiecesAreRuns` | src/veri_kalitesi/data_minimum_evidence.py:110 | Splitting at joiner runs yields exactly the maximal joiner-free runs |
| `Evidence.LowerExactly` | src/veri_kalitesi/data_minimum_evidence.py:101-112 | Lower-casing maps each upper-case letter to the one at its place of the alphabet and nothing else |
| `Evidence.ForbiddenTermsAreWholeWords` | src/veri_kalitesi/data_minimum_evidence.py:110-112 | A path is refused if and only if, in lower case, a forbidden word stands alone between joiners, slashes or ends |
| `Evidence.PatternsDescribe` | src/veri_kalitesi/data_minimum_evidence.py:15-18 | The three compiled expressions have the directly described languages |
| `Evidence.ReferenceAcceptedExactly` | src/veri_kalitesi/data_minimum_evidence.py:100-113 | A reference is returned if and only if it is a short enough text with the scheme, a path in the grammar and no forbidden word; otherwise it is an error |
| `Evidence.FingerprintAcceptedExactly` | src/veri_kalitesi/data_minimum_evidence.py:116-121 | A fingerprint is returned if and only if it is a plain or keyed digest |
| `Evidence.SamplesAcceptedExactly` | src/veri_kalitesi/data_minimum_evidence.py:124-134 | Samples are accepted if and only if they are a list or tuple of at most ten keyed digests |
| `Evidence.SummaryAcceptedExactly` | src/veri_kalitesi/data_minimum_evidence.py:137-152 | A summary is accepted if and only if it is a non-empty mapping of known counters to integers (not booleans) within the limit |
| `Evidence.EvidenceAcceptedExactly` | src/veri_kalitesi/data_minimum_evidence.py:70-97 | Evidence is accepted if and only if it is an empty mapping that may be missing, or has exactly the six fields and each is accepted |
| `Evidence.EvidenceIsReturned` | src/veri_kalitesi/data_minimum_evidence.py:90-97 | Accepted evidence comes back unchanged, except that a tuple of samples becomes a list |
| `Evidence.ValidationIsIdempotent` | src/veri_kalitesi/data_minimum_evidence.py:70-97 | Validating what validation returned gives the same result |

## Left out

- scripts/compute_pagerank.py: the ranking itself belongs to a library; the weight sum and the prefix cut around it would only add easy members.
- SQLite, JSON and ISO-timestamp text: rows are values and instants integers, so overflow of a date by the 72 hour window and text round trips other than the category list are not modelled.
- Locking detail: at most one transaction is open at a time (the repository lock); publishers are the writers that ignore it.
- IncidentTimelines.TimelineIsUpToDateExactly: the condition on the run is stated for incidents in whose own transactions no publisher failed. With such failures entries can be lost by a transaction that then commits, and a decision that loses its record but keeps its entry can make up for another one on the same breach that keeps its record but loses a like entry. For those runs the condition is that the two lists of `EveryTimelineIsLeft` are equal, and `AuditsMatchExactly` and `ViewInEveryStateExactly` are still equivalences.
- IncidentTimelines.RowCountIsExact: likewise; for runs with such failures `EveryTimelineIsLeft` gives the difference.
- Repository and service classes: they run one call at a time on one object; interleaving is in `IncidentProtocol`, and `EveryCallIsARun` and `EveryViewIsARun` tie the two together for undisturbed calls.
- Identifiers: that a newly drawn record identifier was never drawn before is a rule of the step relation, not proved of the random generator; timeline and event identifiers may repeat and then hit the UNIQUE constraint.
- Audit outbox: the redactor, the attempt counters and error codes, and the audit repository behind `publish_pending` are left out; a staged event is the event handed in, a selection is any of the allowed size instead of the oldest, and a publisher's UPDATE and commit are one step.
- Exceptions raised by malformed Python values other than a foreign enumeration member, a naive timestamp or a text that is no UUID.
- Merge: a graph file without its two lists, a new node without an id, and an AST link without its three key fields raise in the original and are preconditions here; new edges are AST edges, as the visitor builds them. JSON values are text.
- AstWalk: the directory and stem part of a node id is a parameter; class names are taken to be non-empty, as identifiers are; a syntax tree is given, parsing and file walking are not modelled; the fixed confidence and weight fields of an edge are dropped.
- Reachability: the collection of imported names from syntax trees, including relative imports, and the rounded percentages (which divide by zero for an empty package) are not modelled.
- Compaction: a text is its list of lines, so line splitting is not modelled; ratios are real numbers, so rounding of floating-point products is not; the marker's wording is a count.
- Trend: scores are real numbers; the day of a score is the date written in its text and is kept apart from its instant; days compare as numbers. Trend rows, sparklines, source scores and rendering are not modelled.
- AuditGroups: an unparsable time is not modelled; times are integers.
- Evidence: mapping keys are text; subclasses of int and str are not distinguished; `lower` is the ASCII one, which is all a path that passed the grammar can contain.
- Database migrations, operational logging, seed data, fetch wrappers, mappers and stories: schema statements, fixtures and rendering without a promise of their own.
