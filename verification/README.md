# Verified model of the agentic fabric

A Dafny model of the durable execution protocol behind agentic missions, and of
the Agent Run Ledger's out-of-order ingest, with proofs about every run of them.

| file | what it models |
|---|---|
| `Prelude.dfy` | options, results, string order |
| `WorkerClaims.dfy` | several process-local record stores over one claim table, with crashes and stale holders |
| `AgentRunLedger.dfy`, `AgentRunLedgerTheorems.dfy`, `AgentRunLedgerAnswers.dfy` | ingest in any order, held receipts, the drain, convergence, and what each call answers |
| `PlanJournal.dfy` | the plan and node state machines, the event log, and parallelism measured from it |
| `MissionSteps.dfy` | every savepoint of the mission service as one atomic step; what holds of all runs of steps |
| `MissionService.dfy` | the service's methods as sequences of those savepoints: scheduling, batches, failure convergence, approval, stopping |
| `ExceptionContract.dfy` | state delta, write payload, acceptance oracle |
| `SimulatedConnector.dfy` | replay by key and compare-and-swap on the exact pre-state |
| `NodeRecovery.dfy` | reconcile and resume of any node, in every reconciliation mode, among other processes |
| `ExceptionRecovery.dfy` | the apply node's claim, worker, connector, commit and recovery together, under arbitrary interleaving |
| `FirestoreDocument.dfy` | create-if-absent and delete-if-version against a server with other writers and lost responses |
| `PlanCompiler.dfy` | Kahn's check, deadline offsets, edges |
| `EvidenceVerifier.dfy` | the pairwise contradiction verifier |

How to read it. Objects the source updates in place are classes. Each of their
methods is proved equal to a specification function of the old state, and the
theorems are lemmas about those functions over sequences of calls. A savepoint or
transaction is one atomic step; whatever the governor, a human, a clock or a
worker answers is an argument a step may take freely, so a theorem about all runs
covers every answer. `AgenticMissionService` carries its step history as a ghost
field: its durable state is always the run of the savepoints committed so far, so
whatever holds of every run holds between any two savepoints of any method, a
crash between them included.

Digests are modelled as injective constructors over what they hash, and claim
tokens are assumed never to repeat where a lemma says `FreshTokens`.

Places where the code does less than a reader may expect, each with the exact
condition under which it does deliver:

- Ledger ingest converges for a run exactly when its entries are lawful
  transitions (`ConvergesExactlyWhenLawful`): an inadmissible entry that is held
  also rolls back the entry whose arrival would have released it
  (`InadmissibleHeldRollsBackItsRelease`).
- Deadline offsets are longest paths exactly when no dependency path outlasts
  those that go down the list (`OffsetsAreLongestPaths`). The shipped blueprints
  all satisfy that (`ShippedPlansAreWellFormed`); the structural check does
  not ask for it, so an edited blueprint could miss it (`LateDependencyIsMissed`).
- The verifier keys claims by `node::claim` text. Nodes are judged apart exactly
  when no node's `node::` prefix starts with another's
  (`JudgedApartExactlyWhenSeparable`). The service sends claims of N2 and N3
  only, which are (`ServiceNodesJudgedApart`).
- Every missing reference is reported, whatever the claims cite, exactly when the
  claims' key texts are pairwise distinct (`AllMissingReportedExactlyWhen`,
  `RepeatedKeyHidesMissing`).
- A repeated Firestore create reports the original outcome, as the comment at
  apps/backend/src/agentic/agenticFirestoreDocumentConnector.ts:552 says, exactly
  while nobody has changed the document (`ReplayReportsOriginalIffUntouched`,
  `TouchedReplayReportsLater`).

`dafny verify dfyconfig.toml` checks the whole project.

## Model

| member | source | states |
|---|---|---|
| `WorkerClaims.WorkerRecordStore.Claim` | apps/backend/src/agentic/agenticPlanJournal.ts:1381-1432 | the claim ladder: granted, already recorded, in flight, bound to another execution, or not acquired; the row and the local map after it |
| `WorkerClaims.WorkerRecordStore.RecordWorkerOutcome` | apps/backend/src/agentic/agenticPlanJournal.ts:1433-1479 | records only under the exact locally held token, clears the claim and the local entry with it, and otherwise changes nothing |
| `WorkerClaims.WorkerRecordStore.Read` | apps/backend/src/agentic/agenticPlanJournal.ts:1480-1501 | an outcome is returned exactly for a recorded row with a status, and is that row's; on a row without blank columns none means none recorded |
| `WorkerClaims.WorkerRecordStore.ReleaseClaim` | apps/backend/src/agentic/agenticPlanJournal.ts:1502-1521 | clears a claim only under the exact held token; the local entry goes either way |
| `WorkerClaims.WorkerRecordStore.InspectActiveClaim` | apps/backend/src/agentic/agenticPlanJournal.ts:1522-1531 | a claim returned is the key's live one; on a row without blank columns none means none is active |
| `WorkerClaims.WorkerRecordStore.RetireOrphanClaim` | apps/backend/src/agentic/agenticPlanJournal.ts:1532-1555 | clears exactly the claim named, and only while it is the row's current one; returns the row as it leaves it |
| `WorkerClaims.NotAcquiredOnlyOnBlankColumns` | apps/backend/src/agentic/agenticPlanJournal.ts:1381-1432 | the fall-through answer of `claim` happens exactly on rows whose text columns are present but empty |
| `WorkerClaims.MatchesOneRow` | apps/backend/src/agentic/agenticPlanJournal.ts:1444-1465 | the guard of every compare-and-swap holds of exactly one row: the live, unrecorded row of that identity |
| `WorkerClaims.ClaimAnswers` | apps/backend/src/agentic/agenticPlanJournal.ts:1362-1432 | which answer a claim gets from the row alone, both ways; only a grant changes anything, and it changes one row |
| `WorkerClaims.RecordAnswers` | apps/backend/src/agentic/agenticPlanJournal.ts:1433-1479 | which answer a recording gets, both ways; one that takes effect stores the given outcome in its row and touches no other |
| `WorkerClaims.GrantedClaimRecords` | apps/backend/src/agentic/agenticPlanJournal.ts:1381-1501 | round trip: a granted claim can be recorded, and what is then read back is what was recorded |
| `WorkerClaims.GrantedClaimEnds` | apps/backend/src/agentic/agenticPlanJournal.ts:1381-1555 | a granted claim can be released by its store or retired by any, and its key can then be claimed again |
| `WorkerClaims.OnlyTheLiveClaimEnds` | apps/backend/src/agentic/agenticPlanJournal.ts:1502-1555 | a release or retirement clears exactly the live claim it names, and otherwise leaves the table alone |
| `WorkerClaims.RecordedIsWhatWasGiven` | apps/backend/src/agentic/agenticPlanJournal.ts:1433-1479 | in every run a recorded outcome is the very one given by the recording that took effect |
| `WorkerClaims.ClaimConservation` | apps/backend/src/agentic/agenticPlanJournal.ts:1381-1555 | over any actions of any stores with crashes: claims granted for a key = releases that took effect + retirements that took effect + outcomes recorded + one if a claim is active; at most one outcome is ever recorded |
| `WorkerClaims.BindingAndOutcomeAreFinal` | apps/backend/src/agentic/agenticPlanJournal.ts:1381-1479 | a key's execution hash and its recorded outcome never change again |
| `WorkerClaims.AtMostOneAuthority` | apps/backend/src/agentic/agenticPlanJournal.ts:1381-1479 | with tokens never repeated, at most one store holds the token the table currently names for a key |
| `WorkerClaims.EndsOnlyItsOwnClaim` | apps/backend/src/agentic/agenticPlanJournal.ts:1433-1521 | a record or release that takes effect ends a claim that very store was granted earlier |
| `WorkerClaims.EndedTokenIsPowerless` | apps/backend/src/agentic/agenticPlanJournal.ts:1433-1555 | once a claim has ended by record, release or retirement, no later call made under its token has any effect |
| `AgentRunLedger.AgentRunLedgerService.AppendEntry` | apps/backend/src/agentRunLedger/agentRunLedgerService.ts:619-667 | the ordered application path: scope, replay, binding, sequence, predecessor and law checks in their order; a refusal leaves the tables as they were |
| `AgentRunLedger.AgentRunLedgerService.DrainRun` | apps/backend/src/agentRunLedger/agentRunLedgerService.ts:467-477 | applies held successors until the next one is missing; terminates because the unapplied rows shrink |
| `AgentRunLedger.AgentRunLedgerService.IngestEntry` | apps/backend/src/agentRunLedger/agentRunLedgerService.ts:352-383 | conflict evidence is kept, a failed application is rolled back, and otherwise the entry is applied or held |
| `AgentRunLedger.AgentRunLedgerService.GetIngestProjection` | apps/backend/src/agentRunLedger/agentRunLedgerService.ts:385-422 | last applied, last received, gap and conflict flags, run status and latest accepted entry of a run, or not found |
| `AgentRunLedgerTheorems.IngestKeepsInv` | apps/backend/src/agentRunLedger/agentRunLedgerService.ts:352-477 | one call, accepted, refused or rolled back, keeps: applied rows and transitions are exactly sequences 1..current, the summary is the last of them, nothing accepted waits right after it, and accepted rows are unique per event and per slot |
| `AgentRunLedgerTheorems.EveryDeliveryKeepsInv` | apps/backend/src/agentRunLedger/agentRunLedgerService.ts:352-477 | the same over every delivery sequence from the empty ledger |
| `AgentRunLedgerTheorems.IngestIsReceiveThenDrain` | apps/backend/src/agentRunLedger/agentRunLedgerService.ts:449-477 | an ingest that reaches the tables is: receive the row, then drain; or nothing when the drain is refused |
| `AgentRunLedgerTheorems.IngestAgain` | apps/backend/src/agentRunLedger/agentRunLedgerService.ts:352-465 | a repeated delivery changes nothing: applied entries answer as a replay, held ones as pending |
| `AgentRunLedgerTheorems.DrainSettles` | apps/backend/src/agentRunLedger/agentRunLedgerService.ts:467-477 | a drain that succeeds keeps the invariant, leaves nothing waiting at the next position, and touches no other run |
| `AgentRunLedgerTheorems.ApplyingHeld` | apps/backend/src/agentRunLedger/agentRunLedgerService.ts:467-477 | the next held entry is applied exactly when its scope fits the summary and the transition law admits it |
| `AgentRunLedgerTheorems.GapOpenIffSomethingWaits` | apps/backend/src/agentRunLedger/agentRunLedgerService.ts:385-422 | the gap flag is open exactly when some accepted entry lies beyond the applied prefix |
| `AgentRunLedgerTheorems.CleanIngest` | apps/backend/src/agentRunLedger/agentRunLedgerService.ts:352-477 | a delivery from lawful scripts is never refused and receives exactly that entry |
| `AgentRunLedgerTheorems.DeliveryConverges` | apps/backend/src/agentRunLedger/agentRunLedgerService.ts:352-477 | for any delivery of lawful runs (any order, repeats, missing entries): the transitions are the longest fully delivered prefix, the summary is its last entry, and the pending entries are the delivered ones beyond it |
| `AgentRunLedgerTheorems.OrderDoesNotMatter` | apps/backend/src/agentRunLedger/agentRunLedgerService.ts:352-477 | two deliveries of the same entries give the same transitions, summary and pending set |
| `AgentRunLedgerTheorems.InadmissibleIsRolledBack` | apps/backend/src/agentRunLedger/agentRunLedgerService.ts:377-382 | a successor that scope or law does not admit is refused and leaves no trace |
| `AgentRunLedger.LatestIsGreatest` | apps/backend/src/agentRunLedger/agentRunLedgerService.ts:385-422 | the latest accepted entry of a run has its greatest accepted sequence, which is the last received |
| `AgentRunLedgerTheorems.InadmissibleHeldRollsBackItsRelease` | apps/backend/src/agentRunLedger/agentRunLedgerService.ts:377-382 | a held entry that is inadmissible after its predecessor also keeps that predecessor, admissible itself, out when it arrives |
| `AgentRunLedgerTheorems.ConvergesExactlyWhenLawful` | apps/backend/src/agentRunLedger/agentRunLedgerService.ts:352-477 | every delivery of a run converges if and only if each of its entries is a lawful transition, in one scope, from the one before it |
| `AgentRunLedgerAnswers.IngestAnswers` | apps/backend/src/agentRunLedger/agentRunLedgerService.ts:352-491 | the reply says what became of the entry: applied exactly when it is bound afterwards (a replay exactly when it was before), pending with the run's positions exactly when it is held, refused otherwise with nothing left but conflict evidence |
| `AgentRunLedgerAnswers.ConflictNames` | apps/backend/src/agentRunLedger/agentRunLedgerService.ts:424-447 | an event conflict is another entry under an accepted event id, a sequence conflict a new event in a taken slot, and there is no third |
| `AgentRunLedgerAnswers.ConflictAnswers` | apps/backend/src/agentRunLedger/agentRunLedgerService.ts:352-383 | a conflicting delivery is refused by name and leaves exactly one more, unaccepted, receipt |
| `AgentRunLedgerAnswers.ReceiptNamesPredecessor` | apps/backend/src/agentRunLedger/agentRunLedgerService.ts:449-456 | a receipt names as its cause the accepted event of the slot before it, if there is one |
| `AgentRunLedgerAnswers.AppendReplays` | apps/backend/src/agentRunLedger/agentRunLedgerService.ts:619-640 | an entry already bound is replayed, and nothing else is |
| `AgentRunLedgerAnswers.AppendBinds` | apps/backend/src/agentRunLedger/agentRunLedgerService.ts:619-667 | a new entry is bound exactly when event and slot are free, it is the run's next, and scope and law admit it |
| `AgentRunLedgerAnswers.AppendRefusals` | apps/backend/src/agentRunLedger/agentRunLedgerService.ts:619-667 | which refusal: scope first, then what is already bound, then order, then the law |
| `AgentRunLedgerAnswers.ScopeIsEveryColumn` | apps/backend/src/agentRunLedger/agentRunLedgerService.ts:262-310 | one scope means run, scope columns, parent and trace all equal |
| `AgentRunLedgerAnswers.NextRefusal` | apps/backend/src/agentRunLedger/agentRunLedgerService.ts:377-382 | an inadmissible successor is refused by scope, or else by law |
| `AgentRunLedgerAnswers.ReleaseRefusal` | apps/backend/src/agentRunLedger/agentRunLedgerService.ts:377-382 | a held one draws its own refusal on the entry that would release it |
| `AgentRunLedgerAnswers.ProjectionTells` | apps/backend/src/agentRunLedger/agentRunLedgerService.ts:385-422 | a projection's position, status and conflict flag are those of the run's last transition and receipts; it is missing exactly when nothing was accepted |
| `PlanJournal.AgenticPlanJournal.constructor` | apps/backend/src/agentic/agenticPlanJournal.ts:736-830 | a new mission: its nodes ready or blocked by whether they have dependencies, and its first two events |
| `PlanJournal.AgenticPlanJournal.AppendEvent` | apps/backend/src/agentic/agenticPlanJournal.ts:1561-1603 | the next event takes one more than the greatest sequence so far |
| `PlanJournal.AgenticPlanJournal.TransitionMission` | apps/backend/src/agentic/agenticPlanJournal.ts:839-905 | moves the plan and its columns and logs the move, or refuses a transition outside the table with nothing changed |
| `PlanJournal.AgenticPlanJournal.UpdateMission` | apps/backend/src/agentic/agenticPlanJournal.ts:854-874 | sets columns and logs a mission fact at the unchanged status |
| `PlanJournal.AgenticPlanJournal.TransitionNode` | apps/backend/src/agentic/agenticPlanJournal.ts:969-1040 | moves a node and logs the move, or refuses with nothing changed |
| `PlanJournal.AgenticPlanJournal.AppendNodeAuditEvent` | apps/backend/src/agentic/agenticPlanJournal.ts:1045-1097 | sets audit columns and logs a self-loop at the unchanged state |
| `PlanJournal.NodeTransitionsAllowed` | apps/backend/src/agentic/agenticPlanJournal.ts:229-248 | where each node state can come from, and that a finished node goes nowhere |
| `PlanJournal.PlanTransitionsAllowed` | apps/backend/src/agentic/agenticPlanJournal.ts:197-217 | the same for plan states |
| `PlanJournal.InsertedNodesStand` | apps/backend/src/agentic/agenticPlanJournal.ts:736-830 | a new mission waits for approval with no candidate; a node is ready exactly when it depends on nothing |
| `PlanJournal.NodeSavepointsTouchOneRow` | apps/backend/src/agentic/agenticPlanJournal.ts:969-1097 | a transition is refused exactly outside the table or for an unknown node; else one row moves or is audited, given columns are set, others stay, and that one fact is logged |
| `PlanJournal.MissionSavepointsTouchTheMission` | apps/backend/src/agentic/agenticPlanJournal.ts:839-905 | the same for the mission row |
| `PlanJournal.InsertedLogIsState` | apps/backend/src/agentic/agenticPlanJournal.ts:736-830 | the log of a new mission replays to its stored state |
| `PlanJournal.MissionSavepointsKeepLog` | apps/backend/src/agentic/agenticPlanJournal.ts:839-905 | a mission savepoint keeps: the log has sequences 1..n, is a path in the transition tables, and replays to the stored plan status and node states |
| `PlanJournal.NodeSavepointsKeepLog` | apps/backend/src/agentic/agenticPlanJournal.ts:969-1097 | a node savepoint, transition or audit, keeps the same |
| `PlanJournal.ReplayableIsGapless` | apps/backend/src/agentic/agenticPlanJournal.ts:1561-1603 | a log that replays has exactly the sequences 1..n |
| `PlanJournal.TerminalStatesAreFinal` | apps/backend/src/agentic/agenticPlanJournal.ts:197-248 | in any log that replays, a terminal plan status or node state reached at some event is the one at the end |
| `PlanJournal.ObservedParallelism` | apps/backend/src/agentic/agenticMissionService.ts:271-288 | on a log that replays and audits no running node, the counting loop returns the maximum over all prefixes of the number of running nodes, and never needs its clamp at zero |
| `PlanJournal.RunningAtMoves` | apps/backend/src/agentic/agenticMissionService.ts:271-288 | one event moves the number of running nodes by exactly what the loop adds |
| `MissionSteps.LogIsStateAlways` | apps/backend/src/agentic/agenticPlanJournal.ts:736-1097 | in every state reachable by any savepoints in any order, the log replays to the stored plan status and node states |
| `MissionSteps.RunningIsNeverAudited` | apps/backend/src/agentic/agenticMissionService.ts:1517-1554 | audit facts are never recorded on a running node |
| `MissionSteps.MeasureParallelism` | apps/backend/src/agentic/agenticMissionService.ts:271-288 | so, for every log the service can produce, the measured parallelism is the true peak |
| `MissionSteps.ClosedAlways` | apps/backend/src/agentic/agenticMissionService.ts:2287-2302 | in every reachable state, a node that was opened has its direct dependencies completed |
| `MissionSteps.OpenedImpliesDependenciesCompleted` | apps/backend/src/agentic/agenticMissionService.ts:2287-2302 | a node that is ready, running, completed, failed recoverable or in reconciliation has all transitive dependencies completed, whatever the governor answers |
| `MissionSteps.TerminalForever` | apps/backend/src/agentic/agenticPlanJournal.ts:229-248 | a terminal node keeps its state in every continuation |
| `MissionSteps.DeadNodeBlocksDependents` | apps/backend/src/agentic/agenticMissionService.ts:2178-2250 | once a node is failed for good or cancelled, no transitive dependent is opened in any continuation |
| `MissionSteps.AuthorityAlways` | apps/backend/src/agentic/agenticMissionService.ts:533-672 | the authority invariant in every reachable state, for every governor: the approved hash is the durable candidate's, the candidate is written once and hashes its own bytes, and the checkpoint is traversed only after approval |
| `MissionSteps.CandidateIsFinal` | apps/backend/src/agentic/agenticMissionService.ts:1060-1179 | a stored candidate and its approval are the same in every continuation |
| `MissionSteps.ApprovalAnswers` | apps/backend/src/agentic/agenticMissionService.ts:533-562 | an approval takes effect exactly when it names the durable candidate of a plan awaiting authority; otherwise nothing changes |
| `MissionSteps.ApprovalNamedTheCandidate` | apps/backend/src/agentic/agenticMissionService.ts:533-590 | in every run an approved hash was supplied by a human, naming that very candidate while it was durable and the plan awaited authority |
| `MissionSteps.ExecutionApprovalAnswers` | apps/backend/src/agentic/agenticMissionService.ts:498-531 | execution is approved exactly from the state that asks for it |
| `MissionSteps.RecordedResultAnswers` | apps/backend/src/agentic/agenticMissionService.ts:2094-2129 | a node is completed by its recorded result exactly where reconcile found one that is durable |
| `MissionSteps.ConnectorActionAnswers` | apps/backend/src/agentic/agenticMissionService.ts:2055-2093 | a connector node is completed exactly where reconcile found the action |
| `MissionSteps.OwedAttemptAnswers` | apps/backend/src/agentic/agenticMissionService.ts:2130-2138 | an attempt is owed exactly where reconcile found nothing |
| `MissionSteps.AmbiguityAnswers` | apps/backend/src/agentic/agenticMissionService.ts:1519-1554 | exactly a running node, or a failed one with a side effect, is called ambiguous |
| `MissionSteps.FindingAnswers` | apps/backend/src/agentic/agenticMissionService.ts:1604-1612 | a finding is recorded exactly on an ambiguous node, and changes nothing else of it |
| `MissionSteps.FinishedAlways` | apps/backend/src/agentic/agenticMissionService.ts:1181-1183 | a plan is completed only with its terminal node completed |
| `MissionSteps.CompletedPlanIsApproved` | apps/backend/src/agentic/agenticMissionService.ts:1228-1260 | a completed plan has its terminal node and all that node depends on completed; a checkpoint among them was approved for exactly the durable bytes |
| `MissionSteps.AuthorityHolds` | apps/backend/src/agentic/agenticMissionService.ts:533-672 | a completed checkpoint means approved hash = durable hash = digest of the durable bytes; before that, everything behind the checkpoint is blocked, cancelled or failed for good |
| `MissionService.ConvergenceIsLegalAndMonotone` | apps/backend/src/agentic/agenticMissionService.ts:1032-1049 | from a live plan, a converging failure requests only legal transitions, exactly when severity rises |
| `MissionService.ConvergeAllIsWorst` | apps/backend/src/agentic/agenticMissionService.ts:951-1049 | any order of failed and unknown results ends in reconciliation iff some outcome is (or was) unknown, otherwise in recoverable failure, and severity never falls on the way |
| `MissionService.RunningResultIsCommitted` | apps/backend/src/agentic/agenticMissionService.ts:951-1179 | no result of a running node on a running plan is refused; where each leaves node and plan, and that only the terminal node's own verdict completes the plan |
| `MissionService.OrdinaryBatchIsCommitted` | apps/backend/src/agentic/agenticMissionService.ts:951-1049 | a batch without verifier and terminal node is never refused, and the plan converges over its failures alone |
| `MissionService.FailAllHits` | apps/backend/src/agentic/agenticMissionService.ts:951-1000 | each failed node of a batch ends in the state its own outcome names |
| `MissionService.FailAllSpares` | apps/backend/src/agentic/agenticMissionService.ts:951-1000 | nodes outside the batch keep their rows |
| `MissionService.AgenticMissionService.OpenReadyNodes` | apps/backend/src/agentic/agenticMissionService.ts:2287-2302 | opens exactly the blocked nodes whose dependencies were all completed |
| `MissionService.AgenticMissionService.ConvergePlanFailure` | apps/backend/src/agentic/agenticMissionService.ts:1032-1049 | asks only for what is left to change, and throws exactly when the journal's table does not allow it |
| `MissionService.AgenticMissionService.CommitFailures` | apps/backend/src/agentic/agenticMissionService.ts:951-1049 | commits any list of failed and unknown results: plan status and nodes as the two specification functions say, no request refused |
| `MissionService.AgenticMissionService.CommitNodeResult` | apps/backend/src/agentic/agenticMissionService.ts:951-1000 | one result, refused exactly when a table forbids its node or plan transition (never for a running node of a running plan): only its own node changes, landing where its result says, and plan status and candidate columns follow |
| `MissionService.AgenticMissionService.AfterNodeSuccess` | apps/backend/src/agentic/agenticMissionService.ts:1060-1179 | a failed verification ends node and plan, a producer's candidate is stored with its hash, the terminal oracle finishes the mission |
| `MissionService.AgenticMissionService.LeaseBatch` | apps/backend/src/agentic/agenticMissionService.ts:682-711 | leases the whole batch before any of it runs, or throws exactly when a node is named twice or may not run; never the checkpoint, never off a running plan |
| `MissionService.AgenticMissionService.CommitResults` | apps/backend/src/agentic/agenticMissionService.ts:719-728 | commits a leased batch in order, refused exactly when the journal refuses one result, after which the plan stands where the results put it |
| `MissionService.AgenticMissionService.ExecuteBatch` | apps/backend/src/agentic/agenticMissionService.ts:682-728 | throws exactly when the batch cannot be leased or a result is refused; otherwise every admitted node leaves `running` as its result says, once more attempted, and no other node changes |
| `MissionService.AgenticMissionService.SettleTerminalState` | apps/backend/src/agentic/agenticMissionService.ts:2335-2356 | with nothing admitted, a running plan fails only if unreachable work is left; any other plan is left alone |
| `MissionService.AgenticMissionService.AdvanceOnce` | apps/backend/src/agentic/agenticMissionService.ts:628-672 | one tick: approved starts running; otherwise what can open opens, and the tick settles, stops at the checkpoint with nothing leased, throws exactly when the batch is refused, or leases and commits it whole |
| `MissionService.AgenticMissionService.Advance` | apps/backend/src/agentic/agenticMissionService.ts:628-672 | at most 32 ticks under any governor; why it ends is what the ticks in order say; a plan neither approved nor running is left alone; every lease is taken on a running plan and none on the checkpoint |
| `MissionService.AgenticMissionService.ApproveCandidate` | apps/backend/src/agentic/agenticMissionService.ts:533-623 | succeeds exactly for the hash of the durable candidate at an undecided checkpoint, which it completes; any other hash or status changes nothing, and a refused traversal leaves only the approved hash written |
| `MissionService.AgenticMissionService.Stop` | apps/backend/src/agentic/agenticMissionService.ts:2222-2248 | cancels every unfinished node of a live mission and the mission; a finished mission is left alone |
| `MissionService.AgenticMissionService.StopNode` | apps/backend/src/agentic/agenticMissionService.ts:2178-2220 | whatever dependents the governor names, the stopped node included, only unfinished nodes are cancelled, and a live mission ends failed |
| `ExceptionContract.ComputeStateDelta` | apps/backend/src/agentic/agenticExceptionContract.ts:226-248 | the loop computes the changes of the sorted desired fields against the observed map, absent counting as null |
| `ExceptionContract.DeltaTells` | apps/backend/src/agentic/agenticExceptionContract.ts:226-248 | a change is in the delta exactly for a desired field not held, with what was observed of it (absent as null); the delta lists fields by name |
| `ExceptionContract.AsMapTells` | apps/backend/src/agentic/agenticExceptionContract.ts:227 | uniquely named fields are a map of exactly their names and values |
| `Prelude.LessIsLexicographic` | apps/backend/src/agentic/agenticExceptionContract.ts:538-543 | the order fields sort by is the lexicographic one |
| `ExceptionContract.SortedFormIgnoresOrder` | apps/backend/src/agentic/agenticExceptionContract.ts:538-543 | two orders of the same uniquely named fields have one sorted form |
| `ExceptionContract.PayloadMembers` | apps/backend/src/agentic/agenticExceptionContract.ts:226-248 | a field is in the payload exactly when it is desired and not yet held |
| `ExceptionContract.PayloadResolvesDelta` | apps/backend/src/agentic/agenticExceptionContract.ts:317-349 | merging the compiled payload sets every desired field and leaves every other field as observed |
| `ExceptionContract.WriteClosesDelta` | apps/backend/src/agentic/agenticExceptionContract.ts:226-248 | after the write the desired state holds and a recomputed delta is empty |
| `ExceptionContract.EmptyDeltaIffDesiredHolds` | apps/backend/src/agentic/agenticExceptionContract.ts:226-248 | the delta is empty exactly when the desired state already held |
| `ExceptionContract.OracleAgreesWithDesire` | apps/backend/src/agentic/agenticExceptionContract.ts:563-578 | after the write the unsatisfied constraints are exactly those whose value differs from what was wanted of their field |
| `SimulatedConnector.Connector.Seed` | apps/backend/src/agentic/agenticSimulatedConnector.ts:350-355 | adds or replaces the seeded records |
| `SimulatedConnector.Connector.ApplyRequest` | apps/backend/src/agentic/agenticSimulatedConnector.ts:367-449 | refusals in their order with the store unchanged; a replay answers without a write, and is counted even where its record is gone; a write survives an interrupt |
| `SimulatedConnector.ApplyAnswers` | apps/backend/src/agentic/agenticSimulatedConnector.ts:368-420 | what each request is answered, both ways: each refusal from its one cause, a replay for a key on the books, and a write for every admissible request |
| `SimulatedConnector.WriteTells` | apps/backend/src/agentic/agenticSimulatedConnector.ts:420-445 | a write moves its record one revision on, sets what its payload names and spares the rest |
| `SimulatedConnector.SeedingStores` | apps/backend/src/agentic/agenticSimulatedConnector.ts:350-355 | under each target the last record seeded for it stands |
| `SimulatedConnector.SeedingSpares` | apps/backend/src/agentic/agenticSimulatedConnector.ts:350-355 | every other record and every action stays |
| `SimulatedConnector.StoreMoves` | apps/backend/src/agentic/agenticSimulatedConnector.ts:367-449 | a request changes the store only by the one record and one action it performs, over exactly the approved pre-state |
| `SimulatedConnector.ActionsFormChain` | apps/backend/src/agentic/agenticSimulatedConnector.ts:305-449 | on every target the writes are linked: each starts in the state the last left, and revision = seeded revision + number of writes |
| `SimulatedConnector.BooksAreTheLog` | apps/backend/src/agentic/agenticSimulatedConnector.ts:367-449 | the books hold exactly the performed writes, each under its own key, no key twice |
| `SimulatedConnector.NoSharedPreState` | apps/backend/src/agentic/agenticSimulatedConnector.ts:367-449 | two actions approved against one observation cannot both write |
| `SimulatedConnector.ReplayReturnsOriginal` | apps/backend/src/agentic/agenticSimulatedConnector.ts:367-449 | a key on the books answers its original action and changes nothing |
| `SimulatedConnector.AtMostOneWritePerKey` | apps/backend/src/agentic/agenticSimulatedConnector.ts:367-449 | in any run each key writes at most once, and once exactly when it is on the books |
| `NodeRecovery.NodeRecoveryService.InvestigateNode` | apps/backend/src/agentic/agenticMissionService.ts:1955-2003 | by mode: an action on the books or an artifact row is a found result, and a recorded outcome without it a conflict; by record lookup the recorded outcome itself is the result |
| `NodeRecovery.NodeRecoveryService.ReconcileNode` | apps/backend/src/agentic/agenticMissionService.ts:1501-1612 | the state named (a failed pure node keeps its own), the finding, and the retirement with every way of losing it, whatever other processes made of the table in between |
| `NodeRecovery.NodeRecoveryService.RetireClaim` | apps/backend/src/agentic/agenticMissionService.ts:1580-1598 | a lost retirement is classified by what took the claim's place: a result, a newer authority, or nothing |
| `NodeRecovery.NodeRecoveryService.ResumeNode` | apps/backend/src/agentic/agenticMissionService.ts:2011-2150 | refuses before a finding and on a conflict, completes on connector evidence or on the recorded result, owes an attempt, and sets a halted plan running |
| `NodeRecovery.ReadingAnswers` | apps/backend/src/agentic/agenticMissionService.ts:1546-1607 | both ways, in every mode: a result is found exactly where the mode's own evidence stands, nothing exactly without evidence, outcome and claim, a conflict exactly for a recorded outcome without evidence or a claim that may not be retired, and a retirement otherwise |
| `NodeRecovery.AmbiguityNamed` | apps/backend/src/agentic/agenticMissionService.ts:1519-1554 | a failed node without a side effect keeps its state; every other ambiguous node is called so |
| `NodeRecovery.ResumeAnswers` | apps/backend/src/agentic/agenticMissionService.ts:2011-2138 | what resume answers, both ways, and where it leaves the node |
| `NodeRecovery.ResumeRestartsHaltedPlans` | apps/backend/src/agentic/agenticMissionService.ts:2141-2147 | only a resume that goes through, of a plan halted on recoverable trouble, sets it running |
| `NodeRecovery.ReadingTellsTheTruth` | apps/backend/src/agentic/agenticMissionService.ts:1556-1607 | deciding on reading alone: no worker result means no claim, no outcome, and no connector action or artifact row by mode; a found result is there to be read |
| `NodeRecovery.RetiresExactlyUnderGuard` | apps/backend/src/agentic/agenticMissionService.ts:1558-1578 | a claim goes up for retirement exactly when one is active, nothing was found, its window has lapsed, no provider call is on record, and the node is pure and no model worker or a readable connector disproved the action |
| `NodeRecovery.FinishTellsTheTruth` | apps/backend/src/agentic/agenticMissionService.ts:1579-1598 | a retirement clears the claim it names or nothing, and its finding is exactly what the table it leaves shows |
| `NodeRecovery.ResumeNeedsEvidence` | apps/backend/src/agentic/agenticMissionService.ts:2011-2150 | a node completes only on its mode's evidence, read again; it is owed an attempt exactly when reconcile found no result; anything else leaves its state |
| `NodeRecovery.InvAlways` | apps/backend/src/agentic/agenticMissionService.ts:1501-1612 | over any calls of any stores, crashes, and changes of node, plan and downstream: table shape, and a pending retirement was read while the effect had not happened |
| `NodeRecovery.ReconcileTellsTheTruth` | apps/backend/src/agentic/agenticMissionService.ts:1501-1612 | in every mode, at any point of any run: a result is found exactly where the mode's evidence stands, nothing exactly without evidence, outcome and claim (so the next claim with the same execution hash is granted), otherwise a conflict; reading clears no claim |
| `NodeRecovery.RetirementTellsTheTruth` | apps/backend/src/agentic/agenticMissionService.ts:1579-1598 | the same for a retirement, with other processes acting between its reading and its update: it clears the very claim it read or nothing |
| `NodeRecovery.RetirementIsGuarded` | apps/backend/src/agentic/agenticMissionService.ts:1558-1578 | in any run a claim is read for retirement exactly under the guard, and is then the key's live claim |
| `ExceptionRecovery.ConnectorApplyWorker.Execute` | apps/backend/src/agentic/agenticWorkers.ts:1072-1204 | nothing reaches the connector unless the durable bytes hash to the approved hash and store the contract hash asked for (compared as text, not computed again); then it asks for the key first and applies only when it is absent; success means the action is on the books |
| `ExceptionRecovery.InvAlways` | apps/backend/src/agentic/agenticMissionService.ts:1955-2150 | over every interleaving, executions that start late included: whoever believes the action succeeded can point at it on the books, and the landed action is the approved one |
| `ExceptionRecovery.NoResultMeansNotWritten` | apps/backend/src/agentic/agenticMissionService.ts:1955-2003 | a reconcile that finds nothing, or goes on to retire, has read books on which nothing was ever written under the key; one that finds a result has read the one write |
| `ExceptionRecovery.UninterruptedRunCompletes` | apps/backend/src/agentic/agenticMissionService.ts:682-1179 | an execution of a performable action that nothing interrupts completes the node with its one write, a recorded success, and every desired field set |
| `ExceptionRecovery.CrashAfterWriteRecovers` | apps/backend/src/agentic/agenticMissionService.ts:1955-2150 | a process that dies right after the durable change loses nothing: reconcile finds the action, resume completes the node, and there is no second write |
| `ExceptionRecovery.LandedIsFoundAndResumed` | apps/backend/src/agentic/agenticMissionService.ts:1955-2150 | the same wherever a node stands running with its action on the books |
| `ExceptionRecovery.ExecutionStarts` | apps/backend/src/agentic/agenticMissionService.ts:789-838 | what a starting execution is told, from the row of its key alone |
| `ExceptionRecovery.WorkerAsksOrRefuses` | apps/backend/src/agentic/agenticWorkers.ts:1094-1166 | a worker that has claimed asks before it acts, or refuses without asking; neither touches the connector |
| `ExceptionRecovery.ExecutionCommits` | apps/backend/src/agentic/agenticMissionService.ts:951-1000 | what a returned execution makes of a running node |
| `ExceptionRecovery.ExactlyOneExternalAction` | apps/backend/src/agentic/agenticMissionService.ts:1955-2150 | over every interleaving of leases, executions (started late or several to a process), crashes, interrupted applies, releases, reconciles and resumes, at most one write happens under the compiled key; once the node is completed exactly one has, over the observed state, setting every desired field and no other |
| `PlanCompiler.RemoveReady` | apps/backend/src/agentic/agenticPlanCompiler.ts:594-611 | Kahn's loop: what it cannot remove is the largest set of nodes waiting for each other; it removes everything exactly when a schedule exists, exactly when there is no dependency cycle; its removal order is a schedule |
| `PlanCompiler.FirstReady` | apps/backend/src/agentic/agenticPlanCompiler.ts:600-607 | a round takes the first ready id in string order, or reports that none is ready |
| `PlanCompiler.StuckHoldsCycle` | apps/backend/src/agentic/agenticPlanCompiler.ts:594-611 | nodes that all wait for each other contain a closed dependency walk |
| `PlanCompiler.SchedulesAvoidStuck` | apps/backend/src/agentic/agenticPlanCompiler.ts:594-611 | nothing that can be scheduled waits, directly or not, on a stuck set |
| `PlanCompiler.AssertPlanIsWellFormed` | apps/backend/src/agentic/agenticPlanCompiler.ts:564-618 | accepts exactly the plans with distinct ids, known references, a schedule and distinct edge texts; each error comes exactly from its own cause, the earliest that applies; the cycle error lists the largest stuck set in order |
| `PlanCompiler.EdgeKeysTell` | apps/backend/src/agentic/agenticPlanCompiler.ts:612-617 | where ids hold no hyphen the text edges are compared by tells them apart |
| `PlanCompiler.WeightTells` | apps/backend/src/agentic/agenticPlanCompiler.ts:459-503 | only a node with a capability takes time, exactly its budget's |
| `PlanCompiler.DependenciesFirstIsSchedulable` | apps/backend/src/agentic/agenticPlanCompiler.ts:594-611 | a list that puts known dependencies first is its own schedule |
| `PlanCompiler.EachDependencyOnce` | apps/backend/src/agentic/agenticPlanCompiler.ts:497-527 | each dependency is one edge, where no node names one twice |
| `PlanCompiler.UnknownReference` | apps/backend/src/agentic/agenticPlanCompiler.ts:574-592 | every reference is looked up, and the error names the first unknown one: node by node, dependencies before inputs |
| `PlanCompiler.EdgesAreDependencies` | apps/backend/src/agentic/agenticPlanCompiler.ts:446-528 | the emitted edges are exactly the dependency relation |
| `PlanCompiler.OffsetIsLongestForwardPath` | apps/backend/src/agentic/agenticPlanCompiler.ts:446-503 | on any list with distinct ids a deadline offset is the longest dependency path ending at its node that only goes down the list |
| `PlanCompiler.OffsetsAreLongestPaths` | apps/backend/src/agentic/agenticPlanCompiler.ts:446-503 | every offset is the longest of all dependency paths if and only if no path outlasts those that go down the list, which holds of every dependencies-first list |
| `PlanCompiler.ShippedPlansAreWellFormed` | apps/backend/src/agentic/agenticPlanCompiler.ts:93-361 | every shipped blueprint passes the structural check, and its offsets are longest paths whatever durations routing gives |
| `PlanCompiler.LateDependencyIsMissed` | apps/backend/src/agentic/agenticPlanCompiler.ts:446-618 | a blueprint edited to list a node before its dependency would still pass the structural check, and give that node less than its dependency alone takes |
| `PlanCompiler.CompileAgenticPlan` | apps/backend/src/agentic/agenticPlanCompiler.ts:442-558 | fails exactly when the compiled plan is not well formed; otherwise the offsets and edges above |
| `EvidenceVerifier.Verify` | apps/backend/src/agentic/agenticWorkers.ts:461-560 | partition, contradiction list (each cross-node contradicting pair once, in scan order, critical when a side is high confidence), verdict and missing references |
| `EvidenceVerifier.ContradictionIsOneNegation` | apps/backend/src/agentic/agenticWorkers.ts:445-449 | two claims contradict exactly when different nodes made them and one is the other with one negation added to a statement that has none |
| `EvidenceVerifier.EntryTells` | apps/backend/src/agentic/agenticWorkers.ts:493-503 | an entry names both sides, left before right, and is critical exactly when one of them is of high confidence |
| `EvidenceVerifier.VerdictTells` | apps/backend/src/agentic/agenticWorkers.ts:504-539 | the verdict is failed exactly for a contradicting pair with a high-confidence side, accepted only if everything was, and with rejections only if something was rejected |
| `EvidenceVerifier.AcceptedKeepOrder` | apps/backend/src/agentic/agenticWorkers.ts:506-534 | accepted claims keep the order they came in |
| `EvidenceVerifier.RejectedKeepOrder` | apps/backend/src/agentic/agenticWorkers.ts:506-534 | and so do rejected ones |
| `EvidenceVerifier.EveryClaimOnce` | apps/backend/src/agentic/agenticWorkers.ts:506-534 | accepted and rejected together contain each incoming claim once |
| `EvidenceVerifier.AcceptedAreSound` | apps/backend/src/agentic/agenticWorkers.ts:461-538 | accepted claims cite admitted references only, and no two of them contradict |
| `EvidenceVerifier.OrderDoesNotMatter` | apps/backend/src/agentic/agenticWorkers.ts:461-538 | the accepted claims and the verdict do not depend on arrival order |
| `EvidenceVerifier.JudgedOnItsOwn` | apps/backend/src/agentic/agenticWorkers.ts:468-534 | with unique keys a claim is rejected exactly for its own missing references, or else its own opponents |
| `EvidenceVerifier.KeysNeverMeet` | apps/backend/src/agentic/agenticWorkers.ts:476 | keys of two nodes can never be equal if and only if neither node's prefix (its id and the separator) starts with the other's |
| `EvidenceVerifier.JudgedApartExactlyWhenSeparable` | apps/backend/src/agentic/agenticWorkers.ts:470-534 | for all claim lists from a set of node ids, a claim is rejected exactly for a claim its own node made under its id, if and only if those ids' prefixes are pairwise so separated |
| `EvidenceVerifier.ColonFreeIsSeparable` | apps/backend/src/agentic/agenticWorkers.ts:470-476 | node ids without a colon are |
| `EvidenceVerifier.ClashRejects` | apps/backend/src/agentic/agenticWorkers.ts:470-515 | two nodes whose keys meet: one node's citation rejects the other node's claim |
| `EvidenceVerifier.ServiceNodesJudgedApart` | apps/backend/src/agentic/agenticMissionService.ts:881-891 | the two nodes whose claims the service sends, N2 and N3, are always judged apart |
| `EvidenceVerifier.MapReports` | apps/backend/src/agentic/agenticWorkers.ts:478-482 | the missing references reported are those of the last unsupported claim under each key |
| `EvidenceVerifier.MissingIsReported` | apps/backend/src/agentic/agenticWorkers.ts:478-547 | with unique keys every unadmitted reference that is cited is reported, and nothing else |
| `EvidenceVerifier.AllMissingReportedExactlyWhen` | apps/backend/src/agentic/agenticWorkers.ts:478-547 | for a list of node and claim ids: whatever claims come under them, every unadmitted reference they cite is reported, if and only if the key texts are pairwise distinct |
| `EvidenceVerifier.RepeatedKeyHidesMissing` | apps/backend/src/agentic/agenticWorkers.ts:478-547 | wherever two keys have one text, the later claim can hide what the earlier one misses |
| `FirestoreDocument.FirestoreDocumentConnector.Apply` | apps/backend/src/agentic/agenticFirestoreDocumentConnector.ts:520-640 | the refusals in order, the read, the replay or conflict, then the conditional create and its answers; counters move with it |
| `FirestoreDocument.FirestoreDocumentConnector.Compensate` | apps/backend/src/agentic/agenticFirestoreDocumentConnector.ts:647-713 | a revision is required; the conditional delete and its answers; counters move with it |
| `FirestoreDocument.FirestoreDocumentConnector.ReadAction` | apps/backend/src/agentic/agenticFirestoreDocumentConnector.ts:483-518 | the exact document decides: absent, this action, or another action's document |
| `FirestoreDocument.FirestoreDocumentConnector.Read` | apps/backend/src/agentic/agenticFirestoreDocumentConnector.ts:424-458 | absence is only ever a real 404; refusals and lost answers are errors |
| `FirestoreDocument.ApplyAnswers` | apps/backend/src/agentic/agenticFirestoreDocumentConnector.ts:520-643 | everything an apply can answer, each from the one situation it stands for; an admissible create that is heard is performed |
| `FirestoreDocument.RefusalAnswers` | apps/backend/src/agentic/agenticFirestoreDocumentConnector.ts:521-550 | the refusals before any request, in order, with the writable fields by name |
| `FirestoreDocument.CompensationAnswers` | apps/backend/src/agentic/agenticFirestoreDocumentConnector.ts:647-713 | everything a compensation can answer; the named version is deleted |
| `FirestoreDocument.ActionReadAnswers` | apps/backend/src/agentic/agenticFirestoreDocumentConnector.ts:483-518 | everything reading an action can answer, and what it reports |
| `FirestoreDocument.KeyCarriesTarget` | apps/backend/src/agentic/agenticFirestoreDocumentConnector.ts:487-491 | the first '@' of a key starts the target it carries |
| `FirestoreDocument.TextTells` | apps/backend/src/agentic/agenticFirestoreDocumentConnector.ts:501-502 | a missing or null provenance field reads as the empty text |
| `FirestoreDocument.StoredTells` | apps/backend/src/agentic/agenticFirestoreDocumentConnector.ts:581-587 | a create stores its payload and its provenance, and nothing else |
| `FirestoreDocument.TargetIdText` | apps/backend/src/agentic/agenticFirestoreDocumentConnector.ts:171-174 | the text of a target identity, segment by segment |
| `FirestoreDocument.ReachAnswers` | apps/backend/src/agentic/agenticFirestoreDocumentConnector.ts:394-422 | a document can be reached exactly when its identity names the pinned project, database and collection; each refusal from its cause |
| `FirestoreDocument.StaysInsidePin` | apps/backend/src/agentic/agenticFirestoreDocumentConnector.ts:394-713 | in every run the connector creates and deletes nothing outside the pinned collection |
| `FirestoreDocument.AnswerTellsEffect` | apps/backend/src/agentic/agenticFirestoreDocumentConnector.ts:520-640 | a performed write is this call's own create, a replay and every refusal wrote nothing, and only an interrupt or an unknown outcome leaves a create that may have landed |
| `FirestoreDocument.ConsistentAlways` | apps/backend/src/agentic/agenticFirestoreDocumentConnector.ts:520-713 | over any run with any writers and lost responses the change log stays sound |
| `FirestoreDocument.CreatesStartFromAbsence` | apps/backend/src/agentic/agenticFirestoreDocumentConnector.ts:590-604 | every create that took effect found nothing at its target |
| `FirestoreDocument.SecondCreateNeedsDelete` | apps/backend/src/agentic/agenticFirestoreDocumentConnector.ts:520-640 | between two effective creates of one target, under one key or two, the target was deleted |
| `FirestoreDocument.DeleteRemovesNamedVersion` | apps/backend/src/agentic/agenticFirestoreDocumentConnector.ts:652-671 | an effective delete removes exactly the version it names: the document written at that time and untouched since |
| `FirestoreDocument.CompensationNamesVersion` | apps/backend/src/agentic/agenticFirestoreDocumentConnector.ts:647-713 | the server changes only by deleting the version asked for; success of either kind leaves the target absent; every refusal but the unknown outcome changed nothing |
| `FirestoreDocument.LostCreateIsFound` | apps/backend/src/agentic/agenticFirestoreDocumentConnector.ts:483-518 | while the document stands, reading it reports a create whose answer was lost as the very action that answer would have reported |
| `FirestoreDocument.ReplayReportsOriginalIffUntouched` | apps/backend/src/agentic/agenticFirestoreDocumentConnector.ts:552-581 | applying a landed request again reports the original create if and only if nobody has changed the document since |
| `FirestoreDocument.TouchedReplayReportsLater` | apps/backend/src/agentic/agenticFirestoreDocumentConnector.ts:552-581 | a landed create, updated by another writer, is reported by its replay at the later version |
| `FirestoreDocument.TargetRoundTrip` | apps/backend/src/agentic/agenticFirestoreDocumentConnector.ts:171-191 | a parsed target prints back to its text, and printing then parsing is the identity exactly for non-empty segments without a slash |

## Left out

General

- HTTP, Express routing, configuration, SQL text and migrations, file and process I/O, audit files, the frontend: plumbing around the modelled steps.
- Provider adapters, billing reconciliation, usage accounting, token minting for the document store: foreign calls and bookkeeping.
- The governor kernel is not part of this model; its answers are arbitrary, so concurrency, capacity and attempt limits are not stated.
- Capability and provider registries, readiness lists, the mock runtime, value and view projections: finite tables and projections.
- JavaScript compares and sorts strings by UTF-16 code units; the model compares characters. Numbers are reals, so NaN and rounding are absent.

Claims

- Timestamps, payload columns and the text of errors, beyond what a branch reads.
- `claim` re-reads its row inside one transaction, so a row changed by another process between its own two statements does not arise.

Ledger

- Entry validation, the protected-value scan and the transition contract are in a package that is not part of this model: entries are taken as validated, sequences start at 1, and the transition rule is an arbitrary function.
- DeliveryConverges: causation ids are derived at receipt and do depend on the order of arrival; they are recorded but not part of what converges.
- `appendEntry` called directly, outside ingest, is specified but not part of the runs the ingest invariant covers.

Journal and mission service

- One mission's rows only; the guarded UPDATE of a savepoint cannot miss, because its guard is re-read in the same savepoint.
- Columns no branch of the model reads: leases and deadlines, cost, latency, typed errors, approval expiry (stored, never read back), evidence, artifact rows.
- The package that executes a node is not part of this model: it is taken to claim, call the worker, record, and return, with a crash possible between any two of these.
- AgenticMissionService.Advance: the governor's answer and the results of the nodes it admits are given per tick; a crash inside a tick is a prefix of the step history, covered by the theorems of `MissionSteps`.
- AgenticMissionService.AfterNodeSuccess: the artifact-write row and event of N7, and the recompiled contract check of X2, which can only throw, are left out.
- AgenticMissionService.ApproveCandidate: the approval's expiry and the identity of the approver are taken as valid; the scheduling that follows is `Advance`.
- RunningIsNeverAudited: a reconcile's reading of its node's state and its audit event are taken as one step, as they are in one process, where reconcile is synchronous. A second process leasing the node between the two could have it audited while running; `NodeRecovery` lets that happen, the log of `MissionSteps` does not.
- MeasureParallelism: rests on the same one step.
- AuthorityAlways: assumes a plan has one checkpoint and at most one candidate producer, as the shipped blueprints do.
- A recovered run is not equal to an uninterrupted one: a recovered N5 prepares its candidate, a recovered X2 does not, and a recovered N4 is completed without re-reading its verdict. The steps model this as the code has it.

Connectors and recovery

- ActionsFormChain: a revision is modelled as a number, for the connector's own `r<n>` form; records seeded with another revision text are left out.
- ExactlyOneExternalAction: for the `live` mode over the simulated connector, with the compile node's key present; no request other than the compiled one is made under that key.
- ReconcileTellsTheTruth: tokens and clock readings are assumed non-empty; on an empty text column the claim ladder falls through (`NotAcquiredOnlyOnBlankColumns`). With no connector bound that can be asked, or no compiled key, a connector node is decided from the record store alone, as in the code.
- NodeRecoveryService.ResumeNode: what the completed node makes true (the candidate of a recovered N5) is a step of `MissionSteps`, and the scheduling that follows is `Advance`.
- AgentRunLedgerService.GetIngestProjection: the update time and the check of the run id's own text are left out.
- Recovery through the document connector: the mission service names no target when it asks for an action, so the connector's own recovery is stated alone.
- FirestoreDocumentConnector.Apply: a transport that throws is not told apart from a lost answer; the record of calls is left out; a number stored in the provenance field is taken to match no key; values are stored and read back unchanged; a target identity stands for its document, without URL encoding.
- Remote: the server answers 409 or 400 only for a failed precondition and 404 only for absence, stamps every write with a new update time, and may lose any answer before or after its effect.
- The shadow and compensated missions' own oracles, and the compensation worker above `compensate`: each is a few comparisons over what is proved here.

Compiler and verifier

- Routing decides a node's capability and budget before the model sees it; node payload hashes, plan hash and plan id are left out.
- `terminalVerificationNodeId` and `soleNodeOfType` are lookups over fixed blueprints.
- Reading claim sets from JSON, and the confidence list and evidence item that repeat the verifier's result.
