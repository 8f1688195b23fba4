/**
 The mission service over its journal. Each method is a sequence of savepoints;
 the ghost history records them as steps, so what holds of every run holds
 between any two savepoints of any method.
 */
module MissionService {
  import opened Prelude
  import opened PlanJournal
  import opened MissionSteps

  lemma RunOfAppend(p: Plan, steps: seq<Step>, s: Step)
    ensures Run(p, steps + [s]) == Next(p, Run(p, steps), s)
  {
    assert (steps + [s])[..|steps + [s]| - 1] == steps;
  }

  /** A step that is no worker outcome, success or candidate only applies its change. */
  predicate Plain(s: Step) {
    s.OpenReady? || s.Lease? || s.CommitFailedVerdict? || s.CommitFailure? || s.PlanFailure?
    || s.ApproveCandidateStep? || s.StartCheckpoint? || s.FinishCheckpoint? || s.ResumePlan? || s.AwaitAuthorityStep?
    || s.StopNodeStep? || s.CancelNode? || s.FailMission? || s.FinishMission? || s.CancelMission?
  }

  lemma PlainStep(p: Plan, steps: seq<Step>, s: Step, m: Mission, c: Change)
    requires Plain(s) && m == Run(p, steps) && Requested(p, m, s) == c
    ensures Run(p, steps + [s]) == m.(journal := Apply(m.journal, c))
  {
  }

  lemma SuccessStep(p: Plan, steps: seq<Step>, m: Mission, id: string, candidate: string)
    requires m == Run(p, steps) && id in m.journal.nodes && id != p.checkpoint
    ensures var legal := Completed in NodeSuccessors(m.journal.nodes[id].state);
      Run(p, steps + [CommitSuccess(id, candidate)])
      == Mission(Apply(m.journal, NodeTo(id, Completed, NO_CHANGES)), m.recorded,
                 if legal && ProducesCandidate(id) then m.owed[id := candidate] else m.owed)
  {
    RunOfAppend(p, steps, CommitSuccess(id, candidate));
  }

  /** A submitted mission is always past its compiled status. */
  lemma {:induction false} NeverLeftCompiled(p: Plan, steps: seq<Step>)
    ensures Run(p, steps).journal.mission.status != Compiled
  {
    if steps != [] {
      NeverLeftCompiled(p, steps[..|steps| - 1]);
    }
  }

  predicate IsPrefix<T(==)>(a: seq<T>, b: seq<T>) {
    |a| <= |b| && b[..|a|] == a
  }

  /** How bad a plan status is: decided failure, then unresolved outcome, then the end. */
  function Severity(s: PlanState): nat {
    if TerminalPlan(s) then 3
    else if s == PlanReconciliationRequired then 2
    else if s == PlanFailedRecoverable then 1
    else 0
  }

  /** Converging a failure is always a legal request from a live plan and never lowers severity. */
  lemma ConvergenceIsLegalAndMonotone(status: PlanState, unknown: bool)
    requires status in {PlanRunning, AwaitingAuthority, PlanFailedRecoverable, PlanReconciliationRequired}
    ensures
      var c := FailureChange(status, unknown);
      && (c.MissionTo? ==> c.status in PlanSuccessors(status) && Severity(c.status) > Severity(status))
      && (c.MissionTo? <==> Severity(status) < (if unknown then 2 else 1))
  {
  }

  function Converge(status: PlanState, unknown: bool): PlanState {
    var c := FailureChange(status, unknown);
    if c.MissionTo? then c.status else status
  }

  /** The results of one batch that did not succeed: each node, and whether its outcome is unknown. */
  type Failures = seq<(string, bool)>

  function ConvergeAll(status: PlanState, results: Failures): PlanState {
    if results == [] then status
    else Converge(ConvergeAll(status, results[..|results| - 1]), results[|results| - 1].1)
  }

  function FailAll(nodes: map<string, NodeRow>, results: Failures): map<string, NodeRow> {
    if results == [] then nodes
    else
      var before := FailAll(nodes, results[..|results| - 1]);
      var (id, unknown) := results[|results| - 1];
      if id !in before then before
      else before[id := before[id].(state := if unknown then ReconciliationRequired else FailedRecoverable)]
  }

  predicate Failable(status: PlanState) {
    status in {PlanRunning, AwaitingAuthority, PlanFailedRecoverable, PlanReconciliationRequired}
  }

  /** From any order of failures the plan ends at the worst of them, and never on the way below. */
  lemma {:induction false} ConvergeAllIsWorst(status: PlanState, results: Failures)
    requires Failable(status)
    ensures ConvergeAll(status, results) ==
              if results == [] then status
              else if status == PlanReconciliationRequired || exists i :: 0 <= i < |results| && results[i].1
              then PlanReconciliationRequired else PlanFailedRecoverable
    ensures forall k | 0 <= k <= |results| ::
              Severity(status) <= Severity(ConvergeAll(status, results[..k])) <= Severity(ConvergeAll(status, results))
  {
    if results != [] {
      var front := results[..|results| - 1];
      ConvergeAllIsWorst(status, front);
      ConvergenceIsLegalAndMonotone(ConvergeAll(status, front), results[|results| - 1].1);
      forall k | 0 <= k <= |results|
        ensures Severity(status) <= Severity(ConvergeAll(status, results[..k]))
                <= Severity(ConvergeAll(status, results))
      {
        assert k <= |front| ==> results[..k] == front[..k];
        assert k == |results| ==> results[..k] == results;
        assert front[..|front|] == front;
      }
    }
  }

  /** A node that is not among the failures keeps its row. */
  lemma {:induction false} FailAllSpares(nodes: map<string, NodeRow>, results: Failures, id: string)
    requires forall i | 0 <= i < |results| :: results[i].0 != id
    ensures FailAll(nodes, results).Keys == nodes.Keys
    ensures id in nodes ==> FailAll(nodes, results)[id] == nodes[id]
  {
    if results != [] {
      FailAllSpares(nodes, results[..|results| - 1], id);
    }
  }

  /** A node among distinct failures ends in the state its own outcome names. */
  lemma {:induction false} FailAllHits(nodes: map<string, NodeRow>, results: Failures, i: nat)
    requires i < |results| && results[i].0 in nodes
    requires forall k | 0 <= k < |results| && k != i :: results[k].0 != results[i].0
    ensures results[i].0 in FailAll(nodes, results)
    ensures FailAll(nodes, results)[results[i].0] ==
              nodes[results[i].0].(state := if results[i].1 then ReconciliationRequired else FailedRecoverable)
  {
    var front := results[..|results| - 1];
    if i < |front| {
      FailAllHits(nodes, front, i);
    } else {
      FailAllSpares(nodes, front, results[i].0);
    }
  }

  // ---------------------------------------------------------------------
  // Scheduling
  // ---------------------------------------------------------------------

  ghost predicate NoLease(steps: seq<Step>, start: nat) {
    forall k | start <= k < |steps| :: !steps[k].Lease?
  }

  /** Every lease from `start` on was taken on a running plan, and none on the checkpoint. */
  ghost predicate LeasesGated(p: Plan, steps: seq<Step>, start: nat) {
    forall k | start <= k < |steps| && steps[k].Lease? ::
      steps[k].node != p.checkpoint && Run(p, steps[..k]).journal.mission.status == PlanRunning
  }

  lemma GateLease(p: Plan, steps: seq<Step>, start: nat, id: string)
    requires LeasesGated(p, steps, start) && id != p.checkpoint
    requires Run(p, steps).journal.mission.status == PlanRunning
    ensures LeasesGated(p, steps + [Lease(id)], start)
  {
    var longer := steps + [Lease(id)];
    forall k | start <= k < |longer| && longer[k].Lease?
      ensures longer[k].node != p.checkpoint && Run(p, longer[..k]).journal.mission.status == PlanRunning
    {
      assert longer[..k] == if k < |steps| then steps[..k] else steps;
    }
  }

  lemma GateOthers(p: Plan, steps: seq<Step>, longer: seq<Step>, start: nat)
    requires LeasesGated(p, steps, start) && IsPrefix(steps, longer) && NoLease(longer, |steps|)
    ensures LeasesGated(p, longer, start)
  {
    forall k | start <= k < |longer| && longer[k].Lease?
      ensures longer[k].node != p.checkpoint && Run(p, longer[..k]).journal.mission.status == PlanRunning
    {
      assert k < |steps|;
      assert longer[k] == longer[..|steps|][k];
      assert longer[..k] == longer[..|steps|][..k];
    }
  }

  lemma GateAppended(p: Plan, steps: seq<Step>, longer: seq<Step>, start: nat)
    requires LeasesGated(p, steps, start) && IsPrefix(steps, longer) && LeasesGated(p, longer, |steps|)
    ensures LeasesGated(p, longer, start)
  {
    forall k | start <= k < |longer| && longer[k].Lease?
      ensures longer[k].node != p.checkpoint && Run(p, longer[..k]).journal.mission.status == PlanRunning
    {
      if k < |steps| {
        assert longer[k] == longer[..|steps|][k];
        assert longer[..k] == longer[..|steps|][..k];
      }
    }
  }

  /** What a worker's success carries that the service branches on. */
  datatype Output = Output(verdictFailed: bool, candidate: string, verified: bool)

  datatype NodeResult = Succeeded(output: Output) | FailedAttempt | Unavailable

  /** Where a committed result leaves its node. */
  function Landing(id: string, r: NodeResult): NodeState {
    match r
    case FailedAttempt => FailedRecoverable
    case Unavailable => ReconciliationRequired
    case Succeeded(output) => if id == VERIFIER && output.verdictFailed then FailedTerminal else Completed
  }

  function Stepped(status: PlanState, next: PlanState): Option<PlanState> {
    if next in PlanSuccessors(status) then Some(next) else None
  }

  /** What committing one result makes of the plan's status; None when the journal refuses it. */
  function CommitStatus(status: PlanState, id: string, r: NodeResult, terminalNode: string): Option<PlanState> {
    match r
    case Succeeded(output) =>
      if id == VERIFIER && output.verdictFailed then Stepped(status, PlanFailedTerminal)
      else if id == terminalNode then Stepped(status, if output.verified then PlanCompleted else PlanFailedTerminal)
      else Some(status)
    case _ =>
      var c := FailureChange(status, r.Unavailable?);
      if c.MissionTo? then Stepped(status, c.status) else Some(status)
  }

  /**
   No result of a running node on a running plan is ever refused. Only the
   terminal node's own verdict completes the plan, and only that verdict or a
   failed verification fails it for good.
   */
  lemma RunningResultIsCommitted(id: string, r: NodeResult, terminalNode: string)
    ensures Landing(id, r) in NodeSuccessors(Running)
    ensures Landing(id, r) == FailedRecoverable <==> r.FailedAttempt?
    ensures Landing(id, r) == ReconciliationRequired <==> r.Unavailable?
    ensures Landing(id, r) == FailedTerminal <==> r.Succeeded? && id == "N4" && r.output.verdictFailed
    ensures var status := CommitStatus(PlanRunning, id, r, terminalNode);
      var ended := r.Succeeded? && id == "N4" && r.output.verdictFailed;
      && (status == Some(PlanFailedRecoverable) <==> r.FailedAttempt?)
      && (status == Some(PlanReconciliationRequired) <==> r.Unavailable?)
      && (status == Some(PlanCompleted) <==> r.Succeeded? && !ended && id == terminalNode && r.output.verified)
      && (status == Some(PlanFailedTerminal) <==>
            ended || (r.Succeeded? && id == terminalNode && !r.output.verified))
      && (status == Some(PlanRunning) <==> r.Succeeded? && !ended && id != terminalNode)
  {
  }

  /** The plan's status after a whole batch of running nodes; None when some result is refused. */
  function BatchStatus(status: PlanState, ids: seq<string>, results: map<string, NodeResult>, terminalNode: string)
    : Option<PlanState>
    requires forall id | id in ids :: id in results
  {
    if ids == [] then Some(status)
    else
      var before, last := BatchStatus(status, ids[..|ids| - 1], results, terminalNode), ids[|ids| - 1];
      if before.None? then None else CommitStatus(before.value, last, results[last], terminalNode)
  }

  lemma {:induction false} RefusedStaysRefused(
    status: PlanState, ids: seq<string>, k: nat, results: map<string, NodeResult>, terminalNode: string)
    requires k <= |ids| && forall id | id in ids :: id in results
    requires BatchStatus(status, ids[..k], results, terminalNode).None?
    ensures BatchStatus(status, ids, results, terminalNode).None?
  {
    if k < |ids| {
      assert ids[..|ids| - 1][..k] == ids[..k];
      RefusedStaysRefused(status, ids[..|ids| - 1], k, results, terminalNode);
    } else {
      assert ids[..k] == ids;
    }
  }

  /** The failures of a batch, in order, as (node, unknown). */
  function FailuresOf(ids: seq<string>, results: map<string, NodeResult>): Failures
    requires forall id | id in ids :: id in results
  {
    if ids == [] then []
    else
      var before, last := FailuresOf(ids[..|ids| - 1], results), ids[|ids| - 1];
      if results[last].Succeeded? then before else before + [(last, results[last].Unavailable?)]
  }

  lemma OrdinaryResultIsCommitted(status: PlanState, id: string, r: NodeResult, terminalNode: string)
    requires Failable(status) && id != "N4" && id != terminalNode
    ensures CommitStatus(status, id, r, terminalNode)
         == Some(if r.Succeeded? then status else Converge(status, r.Unavailable?))
    ensures Failable(Converge(status, r.Unavailable?))
  {
    ConvergenceIsLegalAndMonotone(status, r.Unavailable?);
  }

  lemma ConvergeOneMore(status: PlanState, results: Failures, id: string, unknown: bool)
    ensures ConvergeAll(status, results + [(id, unknown)]) == Converge(ConvergeAll(status, results), unknown)
  {
    assert (results + [(id, unknown)])[..|results|] == results;
  }

  /**
   A batch without the verifier and the terminal node is never refused: the
   plan converges over its failures alone, whatever succeeds beside them.
   */
  lemma {:induction false} OrdinaryBatchIsCommitted(
    status: PlanState, ids: seq<string>, results: map<string, NodeResult>, terminalNode: string)
    requires Failable(status) && forall id | id in ids :: id in results
    requires "N4" !in ids && terminalNode !in ids
    ensures BatchStatus(status, ids, results, terminalNode) == Some(ConvergeAll(status, FailuresOf(ids, results)))
    ensures Failable(ConvergeAll(status, FailuresOf(ids, results)))
  {
    if ids != [] {
      var front, last := ids[..|ids| - 1], ids[|ids| - 1];
      OrdinaryBatchIsCommitted(status, front, results, terminalNode);
      assert last in ids;
      OrdinaryResultIsCommitted(ConvergeAll(status, FailuresOf(front, results)), last, results[last], terminalNode);
      if !results[last].Succeeded? {
        ConvergeOneMore(status, FailuresOf(front, results), last, results[last].Unavailable?);
      }
    }
  }

  /** A producer that completes leaves its candidate and that candidate's hash; no other result touches them. */
  predicate CandidateStored(before: MissionRow, after: MissionRow, id: string, committed: bool, r: NodeResult) {
    && after.approvedCandidateHash == before.approvedCandidateHash
    && (committed && ProducesCandidate(id) && r.Succeeded? && Landing(id, r) == Completed ==>
          after.candidateHash == Some(CandidateDigest(r.output.candidate))
          && after.candidateMarkdown == Some(r.output.candidate))
    && (!ProducesCandidate(id) || !r.Succeeded? ==>
          after.candidateHash == before.candidateHash && after.candidateMarkdown == before.candidateMarkdown)
  }

  predicate OthersKept(before: map<string, NodeRow>, after: map<string, NodeRow>, id: string) {
    after.Keys == before.Keys && forall other | other in before && other != id :: after[other] == before[other]
  }

  /** One governor answer, and what the workers of the nodes it admits will return. */
  datatype Tick = Tick(admitted: seq<string>, unreachable: bool, results: map<string, NodeResult>)

  /** Why advancing ended; Threw is a transition the journal refused. */
  datatype Stopped = NotRunnable | NothingAdmitted | AtCheckpoint | TickLimit | Threw

  const MAX_SCHEDULING_TICKS := 32

  /** A batch that can be leased: each node once, and each one that may run. */
  predicate Leasable(nodes: map<string, NodeRow>, ids: seq<string>) {
    && DistinctNodes(ids)
    && forall id | id in ids :: id in nodes && nodes[id].state in {Ready, FailedRecoverable, ReconciliationRequired}
  }

  predicate AllRunning(nodes: map<string, NodeRow>, ids: seq<string>) {
    forall id | id in ids :: id in nodes && nodes[id].state == Running
  }

  /** Every node blocked on completed dependencies alone becomes ready. */
  function AfterOpening(nodes: map<string, NodeRow>): map<string, NodeRow> {
    map id | id in nodes ::
      if nodes[id].state == Blocked
         && forall d | d in nodes[id].dependsOn :: d in nodes && nodes[d].state == Completed
      then nodes[id].(state := Ready) else nodes[id]
  }

  /** Every node of the batch has been leased once more and left running as its result says. */
  function AfterBatch(nodes: map<string, NodeRow>, ids: seq<string>, results: map<string, NodeResult>)
    : map<string, NodeRow>
    requires forall id | id in ids :: id in results
  {
    map id | id in nodes ::
      if id in ids then LeasedRow(nodes[id]).(state := Landing(id, results[id])) else nodes[id]
  }

  predicate DistinctNodes(ids: seq<string>) {
    forall i, j | 0 <= i < j < |ids| :: ids[i] != ids[j]
  }

  function LeasedRow(row: NodeRow): NodeRow {
    row.(state := Running, attempts := row.attempts + 1)
  }

  /** Exactly the nodes of `ids` have been leased, once more each. */
  predicate Leased(before: map<string, NodeRow>, after: map<string, NodeRow>, ids: seq<string>) {
    && after.Keys == before.Keys
    && forall id | id in before :: after[id] == if id in ids then LeasedRow(before[id]) else before[id]
  }

  /** The next node can be leased exactly when the batch so far can be leased with it. */
  lemma LeasedOneMore(before: map<string, NodeRow>, now: map<string, NodeRow>, ids: seq<string>, i: nat)
    requires i < |ids| && Leasable(before, ids[..i]) && Leased(before, now, ids[..i]) && ids[i] in before
    ensures Running in NodeSuccessors(now[ids[i]].state) <==> Leasable(before, ids[..i + 1])
    ensures Leasable(before, ids[..i + 1]) ==> Leased(before, now[ids[i] := LeasedRow(now[ids[i]])], ids[..i + 1])
    ensures !Leasable(before, ids[..i + 1]) ==> !Leasable(before, ids)
  {
    var longer := ids[..i + 1];
    assert longer == ids[..i] + [ids[i]];
    NodeTransitionsAllowed(now[ids[i]].state);
    if Leasable(before, ids) {
      forall k | 0 <= k < i ensures ids[k] != ids[i] {
      }
    }
  }

  predicate KeptOutside(before: map<string, NodeRow>, after: map<string, NodeRow>, ids: seq<string>) {
    after.Keys == before.Keys && forall id | id in before && id !in ids :: after[id] == before[id]
  }

  /** Exactly the nodes of `ids` have left running, each as its result says. */
  predicate Landed(
    before: map<string, NodeRow>, after: map<string, NodeRow>, ids: seq<string>, results: map<string, NodeResult>)
    requires forall id | id in ids :: id in results
  {
    && after.Keys == before.Keys
    && forall id | id in before ::
         after[id] == if id in ids then before[id].(state := Landing(id, results[id])) else before[id]
  }

  lemma LandedOneMore(
    before: map<string, NodeRow>, now: map<string, NodeRow>, ids: seq<string>, i: nat, results: map<string, NodeResult>)
    requires i < |ids| && DistinctNodes(ids) && ids[i] in before && forall id | id in ids :: id in results
    requires Landed(before, now, ids[..i], results)
    ensures now[ids[i]] == before[ids[i]]
    ensures Landed(before, now[ids[i] := now[ids[i]].(state := Landing(ids[i], results[ids[i]]))],
                   ids[..i + 1], results)
  {
    assert ids[..i + 1] == ids[..i] + [ids[i]];
  }

  lemma BatchStep(
    status: PlanState, ids: seq<string>, i: nat, results: map<string, NodeResult>, terminalNode: string)
    requires i < |ids| && forall id | id in ids :: id in results
    requires BatchStatus(status, ids[..i], results, terminalNode).Some?
    ensures var before := BatchStatus(status, ids[..i], results, terminalNode).value;
      BatchStatus(status, ids[..i + 1], results, terminalNode)
      == CommitStatus(before, ids[i], results[ids[i]], terminalNode)
  {
    assert ids[..i + 1][..i] == ids[..i] && ids[..i + 1][i] == ids[i];
  }

  /** The first `i` nodes of the batch have landed, and the plan stands where their results put it. */
  predicate CommittedUpTo(
    before: map<string, NodeRow>, status: PlanState, nodes: map<string, NodeRow>, now: PlanState,
    ids: seq<string>, i: nat, results: map<string, NodeResult>, terminalNode: string)
    requires i <= |ids| && forall id | id in ids :: id in results
  {
    && Landed(before, nodes, ids[..i], results)
    && Some(now) == BatchStatus(status, ids[..i], results, terminalNode)
  }

  /** The next node is still running, and its result is refused or takes the batch one further. */
  lemma CommittedOneMore(
    before: map<string, NodeRow>, status: PlanState, nodes: map<string, NodeRow>, now: PlanState,
    ids: seq<string>, i: nat, results: map<string, NodeResult>, terminalNode: string)
    requires i < |ids| && DistinctNodes(ids) && AllRunning(before, ids) && forall id | id in ids :: id in results
    requires CommittedUpTo(before, status, nodes, now, ids, i, results, terminalNode)
    ensures var id := ids[i];
      var next := CommitStatus(now, id, results[id], terminalNode);
      && nodes[id].state == Running && Landing(id, results[id]) in NodeSuccessors(Running)
      && (next.None? ==> BatchStatus(status, ids, results, terminalNode).None?)
      && (next.Some? ==>
            CommittedUpTo(before, status, nodes[id := nodes[id].(state := Landing(id, results[id]))], next.value,
                          ids, i + 1, results, terminalNode))
  {
    LandedOneMore(before, nodes, ids, i, results);
    BatchStep(status, ids, i, results, terminalNode);
    RunningResultIsCommitted(ids[i], results[ids[i]], terminalNode);
    if CommitStatus(now, ids[i], results[ids[i]], terminalNode).None? {
      RefusedStaysRefused(status, ids, i + 1, results, terminalNode);
    }
  }

  lemma OneMoreKeptOutside(
    before: map<string, NodeRow>, nodes: map<string, NodeRow>, after: map<string, NodeRow>,
    ids: seq<string>, i: nat, results: map<string, NodeResult>)
    requires i < |ids| && forall id | id in ids :: id in results
    requires Landed(before, nodes, ids[..i], results) && OthersKept(nodes, after, ids[i])
    ensures KeptOutside(before, after, ids)
  {
  }

  lemma WholeBatchCommitted(
    before: map<string, NodeRow>, status: PlanState, nodes: map<string, NodeRow>, now: PlanState,
    ids: seq<string>, results: map<string, NodeResult>, terminalNode: string)
    requires forall id | id in ids :: id in results
    requires CommittedUpTo(before, status, nodes, now, ids, |ids|, results, terminalNode)
    ensures Landed(before, nodes, ids, results) && Some(now) == BatchStatus(status, ids, results, terminalNode)
    ensures KeptOutside(before, nodes, ids)
  {
    assert ids[..|ids|] == ids;
  }

  lemma LeasedThenLanded(
    before: map<string, NodeRow>, leased: map<string, NodeRow>, after: map<string, NodeRow>, ids: seq<string>,
    results: map<string, NodeResult>)
    requires forall id | id in ids :: id in results
    requires Leased(before, leased, ids) && Landed(leased, after, ids, results)
    ensures after == AfterBatch(before, ids, results)
  {
  }

  /** The admitted nodes the plan knows. */
  function Known(admitted: seq<string>, nodes: map<string, NodeRow>): (ids: seq<string>)
    ensures forall id :: id in ids <==> id in admitted && id in nodes
  {
    if admitted == [] then []
    else if admitted[0] in nodes then [admitted[0]] + Known(admitted[1..], nodes)
    else Known(admitted[1..], nodes)
  }

  /**
   One tick of a running plan: blocked nodes that can open have opened; then
   nothing was admitted, or the checkpoint stopped it, or the batch threw
   exactly when it could not be leased or the journal refused a result, or it
   was leased and committed whole.
   */
  predicate TickTells(
    plan: Plan, before: map<string, NodeRow>, tick: Tick, stopped: Option<Stopped>,
    after: map<string, NodeRow>, status: PlanState)
    requires forall id | id in tick.admitted && id in before :: id in tick.results
  {
    var ready, admitted := AfterOpening(before), Known(tick.admitted, AfterOpening(before));
    var batch := BatchStatus(PlanRunning, admitted, tick.results, plan.terminalNode);
    if admitted == [] then
      && stopped == Some(NothingAdmitted) && after == ready
      && status == (if tick.unreachable && exists id | id in ready :: !TerminalNode(ready[id].state)
                    then PlanFailedTerminal else PlanRunning)
    else if plan.checkpoint in admitted then
      stopped == Some(AtCheckpoint) && after == ready && status == AwaitingAuthority
    else if !Leasable(ready, admitted) || batch.None? then
      stopped == Some(Threw)
    else
      stopped == None && after == AfterBatch(ready, admitted, tick.results) && Some(status) == batch
  }

  ghost predicate Answered(ticks: seq<Tick>, nodes: map<string, NodeRow>) {
    forall t, id | t in ticks && id in t.admitted && id in nodes :: id in t.results
  }

  /** Why advancing from here ends. */
  ghost function StopOf(plan: Plan, nodes: map<string, NodeRow>, status: PlanState, ticks: seq<Tick>): Stopped
    requires Answered(ticks, nodes)
    decreases |ticks|
  {
    if ticks == [] then TickLimit
    else if status !in {Approved, PlanRunning} then NotRunnable
    else if status == Approved then StopOf(plan, nodes, PlanRunning, ticks[1..])
    else
      var ready, admitted := AfterOpening(nodes), Known(ticks[0].admitted, AfterOpening(nodes));
      var batch := BatchStatus(PlanRunning, admitted, ticks[0].results, plan.terminalNode);
      if admitted == [] then NothingAdmitted
      else if plan.checkpoint in admitted then AtCheckpoint
      else if !Leasable(ready, admitted) || batch.None? then Threw
      else StopOf(plan, AfterBatch(ready, admitted, ticks[0].results), batch.value, ticks[1..])
  }

  /** A tick that stops is the answer; one that does not leaves it to the ticks that remain. */
  lemma StopAfterTick(
    plan: Plan, nodes: map<string, NodeRow>, ticks: seq<Tick>, stopped: Option<Stopped>,
    after: map<string, NodeRow>, status: PlanState)
    requires ticks != [] && Answered(ticks, nodes) && after.Keys == nodes.Keys
    requires TickTells(plan, nodes, ticks[0], stopped, after, status)
    ensures stopped.Some? ==> StopOf(plan, nodes, PlanRunning, ticks) == stopped.value
    ensures stopped.None? ==>
      Answered(ticks[1..], after) && StopOf(plan, nodes, PlanRunning, ticks) == StopOf(plan, after, status, ticks[1..])
  {
    assert ticks[0] in ticks;
  }

  class AgenticMissionService {
    const plan: Plan
    const journal: AgenticPlanJournal
    ghost var recorded: set<string>
    ghost var owed: map<string, string>
    ghost var history: seq<Step>

    constructor (plan: Plan)
      ensures Valid() && history == [] && fresh(journal) && this.plan == plan
    {
      this.plan := plan;
      journal := new AgenticPlanJournal(plan.dependencies);
      recorded, owed, history := {}, map[], [];
    }

    ghost function State(): Mission
      reads this, journal
    {
      Mission(journal.State(), recorded, owed)
    }

    /** The durable state is the run of the savepoints committed so far; quantified so that it unfolds on demand. */
    ghost predicate Valid()
      reads this, journal
    {
      forall steps | steps == history :: State() == Run(plan, steps)
    }

    /** Commits one node transition as the savepoint of `s`; a refused one leaves no trace. */
    method CommitNode(id: string, next: NodeState, changes: NodeFields, ghost s: Step)
      returns (error: Option<JournalError>)
      requires Valid() && Requested(plan, State(), s) == NodeTo(id, next, changes)
      requires Plain(s)
      modifies journal, this`history
      ensures Valid() && history == old(history) + [s]
      ensures error.None? <==> id in old(journal.nodes) && next in NodeSuccessors(old(journal.nodes)[id].state)
      ensures journal.mission == old(journal.mission)
      ensures error.None? ==>
                journal.nodes == old(journal.nodes)[id := NodeRow(
                  old(journal.nodes)[id].dependsOn, next, Or(changes.attempts, old(journal.nodes)[id].attempts),
                  OrKeep(changes.finding, old(journal.nodes)[id].finding))]
      ensures error.Some? ==> journal.nodes == old(journal.nodes)
    {
      PlainStep(plan, history, s, State(), NodeTo(id, next, changes));
      error := journal.TransitionNode(id, next, changes);
      history := history + [s];
    }

    /** Commits one plan transition as the savepoint of `s`. */
    method CommitPlan(next: PlanState, ghost s: Step) returns (error: Option<JournalError>)
      requires Valid() && Requested(plan, State(), s) == MissionTo(next, NO_FIELDS)
      requires Plain(s)
      modifies journal, this`history
      ensures Valid() && history == old(history) + [s]
      ensures error.None? <==> next in PlanSuccessors(old(journal.mission.status))
      ensures journal.nodes == old(journal.nodes)
      ensures journal.mission == (if error.None? then old(journal.mission).(status := next) else old(journal.mission))
    {
      PlainStep(plan, history, s, State(), MissionTo(next, NO_FIELDS));
      error := journal.TransitionMission(next, NO_FIELDS);
      history := history + [s];
    }

    /** Commits candidate columns as the savepoint of `s`. */
    method CommitColumns(f: MissionFields, ghost s: Step)
      requires Valid() && Requested(plan, State(), s) == MissionSet(f) && s.ApproveCandidateStep?
      modifies journal, this`history
      ensures Valid() && history == old(history) + [s]
      ensures journal.nodes == old(journal.nodes) && journal.mission == WithFields(old(journal.mission), f)
    {
      PlainStep(plan, history, s, State(), MissionSet(f));
      journal.UpdateMission(f);
      history := history + [s];
    }

    // -- Scheduling -------------------------------------------------------

    method OpenNode(id: string)
      requires Valid() && StateIs(journal.State(), id, Blocked) && DependenciesCompleted(journal.State(), id)
      modifies journal, this`history
      ensures Valid() && history == old(history) + [OpenReady(id)]
      ensures journal.mission == old(journal.mission)
      ensures journal.nodes == old(journal.nodes)[id := old(journal.nodes)[id].(state := Ready)]
    {
      var error := CommitNode(id, Ready, NO_CHANGES, OpenReady(id));
    }

    /** Opens exactly the blocked nodes whose dependencies were all completed. */
    method OpenReadyNodes(listed: seq<string>)
      requires Valid() && forall id :: id in listed <==> id in journal.nodes
      modifies journal, this`history
      ensures Valid() && IsPrefix(old(history), history) && NoLease(history, |old(history)|)
      ensures journal.mission == old(journal.mission)
      ensures journal.nodes.Keys == old(journal.nodes).Keys
      ensures forall id | id in old(journal.nodes) ::
                journal.nodes[id] ==
                  if old(journal.nodes)[id].state == Blocked && old(DependenciesCompleted(journal.State(), id))
                  then old(journal.nodes)[id].(state := Ready) else old(journal.nodes)[id]
    {
      ghost var before := journal.State();
      var snapshot := journal.nodes;
      for i := 0 to |listed|
        invariant Valid() && IsPrefix(old(history), history) && NoLease(history, |old(history)|)
        invariant journal.mission == before.mission && journal.nodes.Keys == snapshot.Keys
        invariant forall id | id in snapshot ::
                    journal.nodes[id] ==
                      if id in listed[..i] && snapshot[id].state == Blocked && DependenciesCompleted(before, id)
                      then snapshot[id].(state := Ready) else snapshot[id]
      {
        var id := listed[i];
        assert id in snapshot && listed[..i + 1] == listed[..i] + [id];
        var satisfied := forall d | d in snapshot[id].dependsOn :: d in snapshot && snapshot[d].state == Completed;
        assert satisfied == DependenciesCompleted(before, id);
        if snapshot[id].state == Blocked && satisfied && journal.nodes[id].state == Blocked {
          OpenNode(id);
        }
      }
      assert listed[..|listed|] == listed;
    }

    // -- Result commitment ------------------------------------------------

    /** Asks the journal only for what is left to change; throws exactly when that is illegal. */
    method ConvergePlanFailure(unknown: bool) returns (threw: bool)
      requires Valid()
      modifies journal, this`history
      ensures Valid() && IsPrefix(old(history), history) && NoLease(history, |old(history)|)
      ensures journal.nodes == old(journal.nodes)
      ensures threw <==>
                var c := FailureChange(old(journal.mission.status), unknown);
                c.MissionTo? && c.status !in PlanSuccessors(old(journal.mission.status))
      ensures journal.mission == old(journal.mission).(status :=
                if threw then old(journal.mission.status) else Converge(old(journal.mission.status), unknown))
    {
      var current := journal.mission.status;
      var target := if unknown then PlanReconciliationRequired else PlanFailedRecoverable;
      if current == target || (current == PlanReconciliationRequired && !unknown) {
        return false;
      }
      var error := CommitPlan(target, PlanFailure(unknown));
      threw := error.Some?;
    }

    /** One result that did not succeed: its node first, then the plan. */
    method CommitNodeFailure(id: string, unknown: bool)
      requires Valid() && Failable(journal.mission.status) && StateIs(journal.State(), id, Running)
      modifies journal, this`history
      ensures Valid() && IsPrefix(old(history), history)
      ensures journal.mission == old(journal.mission).(status := Converge(old(journal.mission.status), unknown))
      ensures journal.nodes == old(journal.nodes)[id := old(journal.nodes)[id].(
                state := if unknown then ReconciliationRequired else FailedRecoverable)]
    {
      var error := CommitNode(id, if unknown then ReconciliationRequired else FailedRecoverable, NO_CHANGES,
                              CommitFailure(id, unknown));
      ConvergenceIsLegalAndMonotone(journal.mission.status, unknown);
      var threw := ConvergePlanFailure(unknown);
    }

    /**
     Commits the failed and unknown results of one batch, in any order. Every
     transition it requests is legal, and the plan ends in reconciliation exactly
     when some outcome is unknown or already was.
     */
    method CommitFailures(results: Failures)
      requires Valid() && Failable(journal.mission.status)
      requires forall i | 0 <= i < |results| :: StateIs(journal.State(), results[i].0, Running)
      requires forall i, k | 0 <= i < k < |results| :: results[i].0 != results[k].0
      modifies journal, this`history
      ensures Valid() && IsPrefix(old(history), history)
      ensures journal.mission == old(journal.mission).(status := ConvergeAll(old(journal.mission.status), results))
      ensures journal.nodes == FailAll(old(journal.nodes), results)
    {
      for i := 0 to |results|
        invariant Valid() && IsPrefix(old(history), history)
        invariant journal.mission == old(journal.mission).(
                    status := ConvergeAll(old(journal.mission.status), results[..i]))
        invariant journal.nodes == FailAll(old(journal.nodes), results[..i])
      {
        var id, unknown := results[i].0, results[i].1;
        assert results[..i + 1][..i] == results[..i] && results[..i + 1][i] == (id, unknown);
        FailAllSpares(old(journal.nodes), results[..i], id);
        ConvergeAllIsWorst(old(journal.mission.status), results[..i]);
        assert StateIs(journal.State(), id, Running);
        CommitNodeFailure(id, unknown);
      }
      assert results[..|results|] == results;
    }

    // -- Batches ----------------------------------------------------------

    /** The worker's outcome becomes durable in the record store. */
    ghost method NoteRecorded(id: string)
      requires Valid() && id in journal.nodes && id != plan.checkpoint
      modifies this`history, this`recorded
      ensures Valid() && history == old(history) + [RecordOutcome(id)]
    {
      history, recorded := history + [RecordOutcome(id)], recorded + {id};
      RunOfAppend(plan, old(history), RecordOutcome(id));
    }

    /** The node completes; a producer now owes its candidate. */
    method CompleteNode(id: string, candidate: string) returns (threw: bool)
      requires Valid() && id in journal.nodes && id != plan.checkpoint
      modifies journal, this`history, this`owed
      ensures Valid() && history == old(history) + [CommitSuccess(id, candidate)]
      ensures journal.mission == old(journal.mission)
      ensures threw <==> Completed !in NodeSuccessors(old(journal.nodes)[id].state)
      ensures journal.nodes == if threw then old(journal.nodes)
                               else old(journal.nodes)[id := old(journal.nodes)[id].(state := Completed)]
      ensures !threw && ProducesCandidate(id) ==> id in owed && owed[id] == candidate
    {
      SuccessStep(plan, history, State(), id, candidate);
      var error := journal.TransitionNode(id, Completed, NO_CHANGES);
      if error.None? && ProducesCandidate(id) {
        owed := owed[id := candidate];
      }
      history := history + [CommitSuccess(id, candidate)];
      threw := error.Some?;
    }

    method StoreCandidate(id: string, candidate: string)
      requires Valid() && id in owed && owed[id] == candidate
      modifies journal, this`history, this`owed
      ensures Valid() && history == old(history) + [PrepareCandidate(id)]
      ensures journal.nodes == old(journal.nodes)
      ensures journal.mission == old(journal.mission).(
                candidateHash := Some(CandidateDigest(candidate)), candidateMarkdown := Some(candidate))
    {
      journal.UpdateMission(MissionFields(Some(CandidateDigest(candidate)), Some(candidate), None));
      owed := owed - {id};
      history := history + [PrepareCandidate(id)];
      RunOfAppend(plan, old(history), PrepareCandidate(id));
    }

    /** The worker has recorded its outcome; the node completes, and a producer's candidate is stored. */
    method CommitCompleted(id: string, candidate: string) returns (threw: bool)
      requires Valid() && id in journal.nodes && id != plan.checkpoint
      modifies journal, this
      ensures Valid() && IsPrefix(old(history), history) && NoLease(history, |old(history)|)
      ensures threw <==> Completed !in NodeSuccessors(old(journal.nodes)[id].state)
      ensures journal.nodes == if threw then old(journal.nodes)
                               else old(journal.nodes)[id := old(journal.nodes)[id].(state := Completed)]
      ensures journal.mission == if threw || !ProducesCandidate(id) then old(journal.mission)
                                 else old(journal.mission).(candidateHash := Some(CandidateDigest(candidate)),
                                                            candidateMarkdown := Some(candidate))
    {
      NoteRecorded(id);
      threw := CompleteNode(id, candidate);
      if !threw && ProducesCandidate(id) {
        StoreCandidate(id, candidate);
      }
    }

    /** Only the terminal oracle's verdict completes the mission. */
    method FinishMissionBy(verified: bool) returns (threw: bool)
      requires Valid() && StateIs(journal.State(), plan.terminalNode, Completed)
      modifies journal, this`history
      ensures Valid() && IsPrefix(old(history), history) && NoLease(history, |old(history)|)
      ensures journal.nodes == old(journal.nodes)
      ensures journal.mission == old(journal.mission).(status :=
                if threw then old(journal.mission.status)
                else if verified then PlanCompleted else PlanFailedTerminal)
      ensures threw <==>
                (if verified then PlanCompleted else PlanFailedTerminal) !in PlanSuccessors(old(journal.mission.status))
    {
      var error := CommitPlan(if verified then PlanCompleted else PlanFailedTerminal, FinishMission(verified));
      threw := error.Some?;
    }

    /** A failed verdict ends its node and the plan. */
    method CommitFailedVerification() returns (threw: bool)
      requires Valid() && VERIFIER in journal.nodes
      modifies journal, this`history
      ensures Valid() && IsPrefix(old(history), history) && NoLease(history, |old(history)|)
      ensures OthersKept(old(journal.nodes), journal.nodes, VERIFIER)
      ensures !threw ==> journal.nodes == old(journal.nodes)[VERIFIER :=
                                            old(journal.nodes)[VERIFIER].(state := FailedTerminal)]
      ensures threw <==>
                || FailedTerminal !in NodeSuccessors(old(journal.nodes)[VERIFIER].state)
                || PlanFailedTerminal !in PlanSuccessors(old(journal.mission.status))
      ensures journal.mission == old(journal.mission).(status :=
                if threw then old(journal.mission.status) else PlanFailedTerminal)
    {
      var error := CommitNode(VERIFIER, FailedTerminal, NO_CHANGES, CommitFailedVerdict(VERIFIER));
      if error.Some? {
        return true;
      }
      error := CommitPlan(PlanFailedTerminal, FailMission);
      threw := error.Some?;
    }

    method CommitUnsuccessful(id: string, unknown: bool) returns (threw: bool)
      requires Valid() && id in journal.nodes
      modifies journal, this`history
      ensures Valid() && IsPrefix(old(history), history) && NoLease(history, |old(history)|)
      ensures OthersKept(old(journal.nodes), journal.nodes, id)
      ensures !threw ==> journal.nodes == old(journal.nodes)[id := old(journal.nodes)[id].(
                                            state := if unknown then ReconciliationRequired else FailedRecoverable)]
      ensures threw <==>
                || (if unknown then ReconciliationRequired else FailedRecoverable)
                   !in NodeSuccessors(old(journal.nodes)[id].state)
                || (var c := FailureChange(old(journal.mission.status), unknown);
                    c.MissionTo? && c.status !in PlanSuccessors(old(journal.mission.status)))
      ensures journal.mission == old(journal.mission).(status :=
                if threw then old(journal.mission.status) else Converge(old(journal.mission.status), unknown))
    {
      var error := CommitNode(id, if unknown then ReconciliationRequired else FailedRecoverable,
                              NO_CHANGES, CommitFailure(id, unknown));
      if error.Some? {
        return true;
      }
      threw := ConvergePlanFailure(unknown);
    }

    /** What a success makes true: a failed verdict ends the plan, the terminal oracle finishes it. */
    method AfterNodeSuccess(id: string, output: Output) returns (threw: bool)
      requires Valid() && id in journal.nodes && id != plan.checkpoint
      modifies journal, this
      ensures Valid() && IsPrefix(old(history), history) && NoLease(history, |old(history)|)
      ensures OthersKept(old(journal.nodes), journal.nodes, id)
      ensures !threw ==> journal.nodes == old(journal.nodes)[id := old(journal.nodes)[id].(
                                            state := Landing(id, Succeeded(output)))]
      ensures threw <==>
                || Landing(id, Succeeded(output)) !in NodeSuccessors(old(journal.nodes)[id].state)
                || CommitStatus(old(journal.mission.status), id, Succeeded(output), plan.terminalNode).None?
      ensures Some(journal.mission.status) ==
                if threw then Some(old(journal.mission.status))
                else CommitStatus(old(journal.mission.status), id, Succeeded(output), plan.terminalNode)
      ensures CandidateStored(old(journal.mission), journal.mission, id, !threw, Succeeded(output))
    {
      if id == VERIFIER && output.verdictFailed {
        threw := CommitFailedVerification();
        return;
      }
      threw := CommitCompleted(id, output.candidate);
      if !threw && id == plan.terminalNode {
        threw := FinishMissionBy(output.verified);
      }
    }

    /** Commits one result of a batch; only its own node changes. */
    method CommitNodeResult(id: string, r: NodeResult) returns (threw: bool)
      requires Valid() && id in journal.nodes && id != plan.checkpoint
      modifies journal, this
      ensures Valid() && IsPrefix(old(history), history) && NoLease(history, |old(history)|)
      ensures OthersKept(old(journal.nodes), journal.nodes, id)
      ensures !threw ==> journal.nodes == old(journal.nodes)[id := old(journal.nodes)[id].(state := Landing(id, r))]
      ensures threw <==>
                || Landing(id, r) !in NodeSuccessors(old(journal.nodes)[id].state)
                || CommitStatus(old(journal.mission.status), id, r, plan.terminalNode).None?
      ensures Some(journal.mission.status) ==
                if threw then Some(old(journal.mission.status))
                else CommitStatus(old(journal.mission.status), id, r, plan.terminalNode)
      ensures old(journal.nodes)[id].state == Running && old(journal.mission.status) == PlanRunning ==> !threw
      ensures CandidateStored(old(journal.mission), journal.mission, id, !threw, r)
    {
      RunningResultIsCommitted(id, r, plan.terminalNode);
      if r.Succeeded? {
        threw := AfterNodeSuccess(id, r.output);
      } else {
        threw := CommitUnsuccessful(id, r.Unavailable?);
      }
    }

    method LeaseNode(id: string, ghost start: nat) returns (threw: bool)
      requires Valid() && id in journal.nodes && id != plan.checkpoint && journal.mission.status == PlanRunning
      requires LeasesGated(plan, history, start)
      modifies journal, this`history
      ensures Valid() && history == old(history) + [Lease(id)] && LeasesGated(plan, history, start)
      ensures journal.mission == old(journal.mission)
      ensures threw <==> Running !in NodeSuccessors(old(journal.nodes)[id].state)
      ensures journal.nodes == if threw then old(journal.nodes)
                               else old(journal.nodes)[id := old(journal.nodes)[id].(
                                 state := Running, attempts := old(journal.nodes)[id].attempts + 1)]
    {
      GateLease(plan, history, start, id);
      var error := CommitNode(id, Running, NodeFields(Some(journal.nodes[id].attempts + 1), None), Lease(id));
      threw := error.Some?;
    }

    /** The i-th node of a batch, the ones before it having been leased. */
    method LeaseNext(admitted: seq<string>, i: nat, ghost before: map<string, NodeRow>, ghost start: nat)
      returns (threw: bool)
      requires Valid() && journal.mission.status == PlanRunning && plan.checkpoint !in admitted
      requires i < |admitted| && admitted[i] in before
      requires Leasable(before, admitted[..i]) && Leased(before, journal.nodes, admitted[..i])
      requires LeasesGated(plan, history, start)
      modifies journal, this`history
      ensures Valid() && history == old(history) + [Lease(admitted[i])] && LeasesGated(plan, history, start)
      ensures journal.mission == old(journal.mission) && journal.nodes.Keys == before.Keys
      ensures threw <==> !Leasable(before, admitted[..i + 1])
      ensures threw ==> !Leasable(before, admitted)
      ensures !threw ==> Leased(before, journal.nodes, admitted[..i + 1])
    {
      LeasedOneMore(before, journal.nodes, admitted, i);
      threw := LeaseNode(admitted[i], start);
    }

    /** Leases the whole batch before any of it runs: all nodes are running at once. */
    method LeaseBatch(admitted: seq<string>) returns (threw: bool)
      requires Valid() && journal.mission.status == PlanRunning && plan.checkpoint !in admitted
      requires forall id | id in admitted :: id in journal.nodes
      modifies journal, this`history
      ensures Valid() && IsPrefix(old(history), history)
      ensures LeasesGated(plan, history, |old(history)|)
      ensures forall k | |old(history)| <= k < |history| :: history[k].Lease?
      ensures journal.mission == old(journal.mission) && journal.nodes.Keys == old(journal.nodes).Keys
      ensures threw <==> !Leasable(old(journal.nodes), admitted)
      ensures !threw ==> Leased(old(journal.nodes), journal.nodes, admitted)
    {
      for i := 0 to |admitted|
        invariant Valid() && IsPrefix(old(history), history)
        invariant LeasesGated(plan, history, |old(history)|)
        invariant forall k | |old(history)| <= k < |history| :: history[k].Lease?
        invariant journal.mission == old(journal.mission) && journal.nodes.Keys == old(journal.nodes).Keys
        invariant Leasable(old(journal.nodes), admitted[..i])
        invariant Leased(old(journal.nodes), journal.nodes, admitted[..i])
      {
        threw := LeaseNext(admitted, i, old(journal.nodes), |old(history)|);
        if threw {
          return;
        }
      }
      assert admitted[..|admitted|] == admitted;
      threw := false;
    }

    /** The i-th result of a batch, the ones before it having landed. */
    method CommitNext(
      leased: seq<string>, i: nat, results: map<string, NodeResult>,
      ghost before: map<string, NodeRow>, ghost status: PlanState, ghost start: seq<Step>)
      returns (threw: bool)
      requires Valid() && plan.checkpoint !in leased && DistinctNodes(leased) && i < |leased|
      requires AllRunning(before, leased) && forall id | id in leased :: id in results
      requires CommittedUpTo(
                 before, status, journal.nodes, journal.mission.status, leased, i, results, plan.terminalNode)
      requires IsPrefix(start, history) && NoLease(history, |start|)
      modifies journal, this
      ensures Valid() && IsPrefix(start, history) && NoLease(history, |start|)
      ensures threw ==> BatchStatus(status, leased, results, plan.terminalNode).None?
      ensures !threw ==>
                CommittedUpTo(
                  before, status, journal.nodes, journal.mission.status, leased, i + 1, results, plan.terminalNode)
      ensures KeptOutside(before, journal.nodes, leased)
    {
      CommittedOneMore(before, status, journal.nodes, journal.mission.status, leased, i, results, plan.terminalNode);
      threw := CommitNodeResult(leased[i], results[leased[i]]);
      OneMoreKeptOutside(before, old(journal.nodes), journal.nodes, leased, i, results);
    }

    /** Commits the results of a leased batch in order, refused exactly when the journal refuses one of them. */
    method CommitResults(leased: seq<string>, results: map<string, NodeResult>) returns (threw: bool)
      requires Valid() && plan.checkpoint !in leased && DistinctNodes(leased)
      requires AllRunning(journal.nodes, leased) && forall id | id in leased :: id in results
      modifies journal, this
      ensures Valid() && IsPrefix(old(history), history) && NoLease(history, |old(history)|)
      ensures threw <==> BatchStatus(old(journal.mission.status), leased, results, plan.terminalNode).None?
      ensures !threw ==>
                Some(journal.mission.status)
                == BatchStatus(old(journal.mission.status), leased, results, plan.terminalNode)
      ensures !threw ==> Landed(old(journal.nodes), journal.nodes, leased, results)
      ensures KeptOutside(old(journal.nodes), journal.nodes, leased)
    {
      ghost var before, status, start := journal.nodes, journal.mission.status, history;
      for i := 0 to |leased|
        invariant Valid() && IsPrefix(start, history) && NoLease(history, |start|)
        invariant CommittedUpTo(
                    before, status, journal.nodes, journal.mission.status, leased, i, results, plan.terminalNode)
      {
        threw := CommitNext(leased, i, results, before, status, start);
        if threw {
          return;
        }
      }
      WholeBatchCommitted(before, status, journal.nodes, journal.mission.status, leased, results, plan.terminalNode);
      threw := false;
    }

    /** One admitted batch: leased whole, run, then committed result by result. */
    method ExecuteBatch(admitted: seq<string>, results: map<string, NodeResult>) returns (threw: bool)
      requires Valid() && journal.mission.status == PlanRunning && plan.checkpoint !in admitted
      requires forall id | id in admitted :: id in journal.nodes && id in results
      modifies journal, this
      ensures Valid() && IsPrefix(old(history), history)
      ensures LeasesGated(plan, history, |old(history)|)
      ensures journal.nodes.Keys == old(journal.nodes).Keys
      ensures threw <==>
                || !Leasable(old(journal.nodes), admitted)
                || BatchStatus(PlanRunning, admitted, results, plan.terminalNode).None?
      ensures !threw ==>
                && journal.nodes == AfterBatch(old(journal.nodes), admitted, results)
                && Some(journal.mission.status) == BatchStatus(PlanRunning, admitted, results, plan.terminalNode)
    {
      threw := LeaseBatch(admitted);
      if threw {
        return;
      }
      ghost var leased, rows := history, journal.nodes;
      threw := CommitResults(admitted, results);
      GateOthers(plan, leased, history, |old(history)|);
      if !threw {
        LeasedThenLanded(old(journal.nodes), rows, journal.nodes, admitted, results);
      }
    }

    /** With nothing admitted, a running plan fails only if work is left that can never be reached. */
    method SettleTerminalState(unreachable: bool)
      requires Valid()
      modifies journal, this`history
      ensures Valid() && IsPrefix(old(history), history) && NoLease(history, |old(history)|)
      ensures journal.nodes == old(journal.nodes)
      ensures journal.mission == old(journal.mission).(status :=
                if old(journal.mission.status) == PlanRunning && unreachable
                   && exists id | id in journal.nodes :: !TerminalNode(journal.nodes[id].state)
                then PlanFailedTerminal else old(journal.mission.status))
    {
      if journal.mission.status != PlanRunning {
        return;
      }
      if forall id | id in journal.nodes :: TerminalNode(journal.nodes[id].state) {
        return;
      }
      if !unreachable {
        return;
      }
      var error := CommitPlan(PlanFailedTerminal, FailMission);
    }

    /** A tick of a running plan. */
    method RunTick(tick: Tick, listed: seq<string>) returns (stopped: Option<Stopped>)
      requires Valid() && journal.mission.status == PlanRunning && forall id :: id in listed <==> id in journal.nodes
      requires forall id | id in tick.admitted && id in journal.nodes :: id in tick.results
      modifies journal, this
      ensures Valid() && IsPrefix(old(history), history) && LeasesGated(plan, history, |old(history)|)
      ensures journal.nodes.Keys == old(journal.nodes).Keys
      ensures stopped in {Some(NothingAdmitted), Some(AtCheckpoint)} ==> NoLease(history, |old(history)|)
      ensures TickTells(plan, old(journal.nodes), tick, stopped, journal.nodes, journal.mission.status)
    {
      OpenReadyNodes(listed);
      assert journal.nodes == AfterOpening(old(journal.nodes));
      ghost var scanned := history;
      var admitted := Known(tick.admitted, journal.nodes);
      if |admitted| == 0 {
        SettleTerminalState(tick.unreachable);
        return Some(NothingAdmitted);
      }
      if plan.checkpoint in admitted {
        var error := CommitPlan(AwaitingAuthority, AwaitAuthorityStep);
        return Some(AtCheckpoint);
      }
      var threw := ExecuteBatch(admitted, tick.results);
      GateAppended(plan, scanned, history, |old(history)|);
      stopped := if threw then Some(Threw) else None;
    }

    /** One tick; None means another may follow. */
    method AdvanceOnce(tick: Tick, listed: seq<string>) returns (stopped: Option<Stopped>)
      requires Valid() && forall id :: id in listed <==> id in journal.nodes
      requires forall id | id in tick.admitted && id in journal.nodes :: id in tick.results
      modifies journal, this
      ensures Valid() && IsPrefix(old(history), history)
      ensures LeasesGated(plan, history, |old(history)|)
      ensures journal.nodes.Keys == old(journal.nodes).Keys
      ensures stopped == Some(NotRunnable) <==> old(journal.mission.status) !in {Approved, PlanRunning}
      ensures stopped == Some(NotRunnable) ==> journal.State() == old(journal.State())
      ensures stopped == Some(AtCheckpoint) ==>
                journal.mission.status == AwaitingAuthority && NoLease(history, |old(history)|)
      ensures stopped == Some(NothingAdmitted) ==> NoLease(history, |old(history)|)
      ensures old(journal.mission.status) == Approved ==>
                stopped.None? && journal.nodes == old(journal.nodes) && journal.mission.status == PlanRunning
      ensures old(journal.mission.status) == PlanRunning ==>
                TickTells(plan, old(journal.nodes), tick, stopped, journal.nodes, journal.mission.status)
    {
      var status := journal.mission.status;
      if status != Approved && status != PlanRunning {
        return Some(NotRunnable);
      }
      if status == Approved {
        var error := CommitPlan(PlanRunning, ResumePlan);
        return None;
      }
      stopped := RunTick(tick, listed);
    }

    /**
     Runs scheduling ticks, at most 32, whatever the governor and the workers
     answer. A plan that is neither approved nor running is left alone; nodes
     are leased only on a running plan, and the checkpoint never is.
     */
    method Advance(ticks: seq<Tick>, listed: seq<string>) returns (stopped: Stopped)
      requires |ticks| == 32
      requires Valid() && forall id :: id in listed <==> id in journal.nodes
      requires Answered(ticks, journal.nodes)
      modifies journal, this
      ensures Valid() && IsPrefix(old(history), history)
      ensures LeasesGated(plan, history, |old(history)|)
      ensures old(journal.mission.status) !in {Approved, PlanRunning} ==>
                stopped == NotRunnable && journal.State() == old(journal.State())
      ensures stopped == AtCheckpoint ==> journal.mission.status == AwaitingAuthority
      ensures stopped == NotRunnable ==> journal.mission.status !in {Approved, PlanRunning}
      ensures stopped == StopOf(plan, old(journal.nodes), old(journal.mission.status), ticks)
    {
      assert ticks[0..] == ticks;
      for tick := 0 to MAX_SCHEDULING_TICKS
        invariant Valid() && IsPrefix(old(history), history)
        invariant LeasesGated(plan, history, |old(history)|)
        invariant journal.nodes.Keys == old(journal.nodes).Keys
        invariant old(journal.mission.status) !in {Approved, PlanRunning} ==>
                    tick == 0 && journal.State() == old(journal.State())
        invariant Answered(ticks[tick..], journal.nodes)
        invariant StopOf(plan, journal.nodes, journal.mission.status, ticks[tick..])
               == StopOf(plan, old(journal.nodes), old(journal.mission.status), ticks)
      {
        ghost var before, nodes, status := history, journal.nodes, journal.mission.status;
        assert ticks[tick..][0] == ticks[tick] && ticks[tick..][1..] == ticks[tick + 1..];
        var outcome := AdvanceOnce(ticks[tick], listed);
        GateAppended(plan, before, history, |old(history)|);
        if status == PlanRunning {
          StopAfterTick(plan, nodes, ticks[tick..], outcome, journal.nodes, journal.mission.status);
        }
        if outcome.Some? {
          return outcome.value;
        }
      }
      stopped := TickLimit;
    }

    // -- Authority --------------------------------------------------------

    /** Takes an approved checkpoint through running to completed, as any other node. */
    method TraverseCheckpoint() returns (done: bool)
      requires Valid() && journal.mission.approvedCandidateHash.Some?
      modifies journal, this`history
      ensures Valid() && IsPrefix(old(history), history)
      ensures journal.mission == old(journal.mission)
      ensures done <==> plan.checkpoint in old(journal.nodes)
                        && Running in NodeSuccessors(old(journal.nodes)[plan.checkpoint].state)
      ensures done ==> StateIs(journal.State(), plan.checkpoint, Completed)
      ensures !done ==> journal.nodes == old(journal.nodes)
    {
      var error := CommitNode(plan.checkpoint, Running, NO_CHANGES, StartCheckpoint);
      if error.Some? {
        return false;
      }
      error := CommitNode(plan.checkpoint, Completed, NO_CHANGES, FinishCheckpoint);
      done := true;
    }

    /** Succeeds exactly for the durable candidate at an undecided checkpoint. */
    method ApproveCandidate(supplied: Digest) returns (approved: bool)
      requires Valid()
      modifies journal, this`history
      ensures Valid() && IsPrefix(old(history), history)
      ensures approved <==>
                old(MayApproveCandidate(journal.mission, supplied))
                && plan.checkpoint in old(journal.nodes)
                && old(journal.nodes)[plan.checkpoint].state in {Ready, FailedRecoverable, ReconciliationRequired}
      ensures approved ==>
                old(journal.mission.candidateHash) == Some(supplied) && old(journal.mission.status) == AwaitingAuthority
      ensures (old(journal.mission.candidateHash) != Some(supplied)
               || old(journal.mission.status) != AwaitingAuthority) ==>
                !approved && journal.State() == old(journal.State())
      ensures approved ==>
                && StateIs(journal.State(), plan.checkpoint, Completed)
                && journal.mission == old(journal.mission).(
                     status := PlanRunning, approvedCandidateHash := old(journal.mission.candidateHash))
      ensures !approved ==>
                && journal.nodes == old(journal.nodes)
                && journal.mission ==
                     if old(MayApproveCandidate(journal.mission, supplied))
                     then old(journal.mission).(approvedCandidateHash := old(journal.mission.candidateHash))
                     else old(journal.mission)
    {
      if !MayApproveCandidate(journal.mission, supplied) {
        return false;
      }
      CommitColumns(MissionFields(None, None, journal.mission.candidateHash), ApproveCandidateStep(supplied));
      approved := TraverseCheckpoint();
      if approved {
        var error := CommitPlan(PlanRunning, ResumePlan);
      }
    }

    // -- Stopping ---------------------------------------------------------

    method CancelIfUnfinished(id: string)
      requires Valid() && id in journal.nodes
      modifies journal, this`history
      ensures Valid() && IsPrefix(old(history), history)
      ensures journal.mission == old(journal.mission)
      ensures journal.nodes ==
                if TerminalNode(old(journal.nodes)[id].state) then old(journal.nodes)
                else old(journal.nodes)[id := old(journal.nodes)[id].(state := Cancelled)]
    {
      if !TerminalNode(journal.nodes[id].state) {
        var error := CommitNode(id, Cancelled, NO_CHANGES, CancelNode(id));
      }
    }

    /** Cancels every listed node that is not finished. */
    method CancelUnfinished(listed: seq<string>)
      requires Valid() && forall id | id in listed :: id in journal.nodes
      modifies journal, this`history
      ensures Valid() && IsPrefix(old(history), history)
      ensures journal.mission == old(journal.mission) && journal.nodes.Keys == old(journal.nodes).Keys
      ensures forall id | id in journal.nodes ::
                journal.nodes[id] == if id in listed && !TerminalNode(old(journal.nodes)[id].state)
                                     then old(journal.nodes)[id].(state := Cancelled) else old(journal.nodes)[id]
    {
      var snapshot := journal.nodes;
      for i := 0 to |listed|
        invariant Valid() && IsPrefix(old(history), history)
        invariant journal.mission == old(journal.mission) && journal.nodes.Keys == snapshot.Keys
        invariant forall id | id in snapshot ::
                    journal.nodes[id] == if id in listed[..i] && !TerminalNode(snapshot[id].state)
                                         then snapshot[id].(state := Cancelled) else snapshot[id]
      {
        var id := listed[i];
        assert id in listed && listed[..i + 1] == listed[..i] + [id];
        CancelIfUnfinished(id);
      }
      assert listed[..|listed|] == listed;
    }

    /** Cancels every unfinished node of a live mission, then the mission. */
    method Stop(listed: seq<string>)
      requires Valid() && forall id :: id in listed <==> id in journal.nodes
      modifies journal, this`history
      ensures Valid() && IsPrefix(old(history), history)
      ensures TerminalPlan(old(journal.mission.status)) ==> journal.State() == old(journal.State())
      ensures !TerminalPlan(old(journal.mission.status)) ==>
                && journal.mission == old(journal.mission).(status := PlanCancelled)
                && journal.nodes.Keys == old(journal.nodes).Keys
                && forall id | id in journal.nodes ::
                     journal.nodes[id] == if TerminalNode(old(journal.nodes)[id].state) then old(journal.nodes)[id]
                                          else old(journal.nodes)[id].(state := Cancelled)
    {
      if TerminalPlan(journal.mission.status) {
        return;
      }
      CancelUnfinished(listed);
      var error := CommitPlan(PlanCancelled, CancelMission);
    }

    /** Fails one node for good unless it is already finished. */
    method FailUnfinished(node: string)
      requires Valid() && node in journal.nodes
      modifies journal, this`history
      ensures Valid() && IsPrefix(old(history), history)
      ensures journal.mission == old(journal.mission)
      ensures journal.nodes ==
                if TerminalNode(old(journal.nodes)[node].state) then old(journal.nodes)
                else old(journal.nodes)[node := old(journal.nodes)[node].(state := FailedTerminal)]
    {
      if !TerminalNode(journal.nodes[node].state) {
        var error := CommitNode(node, FailedTerminal, NO_CHANGES, StopNodeStep(node));
      }
    }

    method FailUnfinishedMission()
      requires Valid()
      modifies journal, this`history
      ensures Valid() && IsPrefix(old(history), history)
      ensures journal.nodes == old(journal.nodes)
      ensures journal.mission == old(journal.mission).(status :=
                if TerminalPlan(old(journal.mission.status)) then old(journal.mission.status) else PlanFailedTerminal)
    {
      if !TerminalPlan(journal.mission.status) {
        NeverLeftCompiled(plan, history);
        var error := CommitPlan(PlanFailedTerminal, FailMission);
      }
    }

    /**
     Stops one node. The governor names the dependents; whatever it names, the
     stopped node included, only unfinished nodes are cancelled and a live
     mission ends failed.
     */
    method StopNode(node: string, dependents: seq<string>)
      requires Valid() && node in journal.nodes
      requires forall id | id in dependents :: id in journal.nodes
      modifies journal, this`history
      ensures Valid() && IsPrefix(old(history), history)
      ensures journal.mission == old(journal.mission).(status :=
                if TerminalPlan(old(journal.mission.status)) then old(journal.mission.status) else PlanFailedTerminal)
      ensures journal.nodes.Keys == old(journal.nodes).Keys
      ensures forall id | id in journal.nodes ::
                journal.nodes[id] ==
                  if TerminalNode(old(journal.nodes)[id].state) || (id != node && id !in dependents)
                  then old(journal.nodes)[id]
                  else old(journal.nodes)[id].(state := if id == node then FailedTerminal else Cancelled)
    {
      FailUnfinished(node);
      CancelUnfinished(dependents);
      FailUnfinishedMission();
    }
  }
}
