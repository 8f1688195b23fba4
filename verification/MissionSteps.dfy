/**
 Every savepoint the mission service can commit, as one atomic step. Callers,
 retries and crashes interleave steps freely; the governor and the workers may
 answer anything.
 */
module MissionSteps {
  import opened Prelude
  import opened PlanJournal

  /** The nodes whose completion yields the candidate a human approves. */
  const SYNTHESIS := "N5"
  const ACTION_COMPILE := "X2"
  const VERIFIER := "N4"

  /** A compiled plan: its dependency lists and what each node may touch. */
  datatype Plan = Plan(
    dependencies: Dependencies, checkpoint: string, terminalNode: string,
    sideEffects: set<string>, connectorNodes: set<string>)

  predicate ProducesCandidate(id: string) {
    id == SYNTHESIS || id == ACTION_COMPILE
  }

  /** One checkpoint that runs no worker, at most one producer, and known dependencies only. */
  ghost predicate PlanOk(p: Plan) {
    && p.checkpoint in p.dependencies && !ProducesCandidate(p.checkpoint)
    && p.checkpoint !in p.connectorNodes
    && !(SYNTHESIS in p.dependencies && ACTION_COMPILE in p.dependencies)
    && forall id, d | id in p.dependencies && d in p.dependencies[id] :: d in p.dependencies
  }

  /**
   Durable truth of one mission. `recorded` are the nodes with a durable worker
   outcome; `owed` are candidates rendered by a caller that has not yet stored
   them, and is lost when that caller crashes.
   */
  datatype Mission = Mission(journal: Journal, recorded: set<string>, owed: map<string, string>)

  datatype Step =
    | ApproveExecution
    | ResumePlan
    | OpenReady(node: string)
    | AwaitAuthorityStep
    | Lease(node: string)
    | RecordOutcome(node: string)
    | CommitSuccess(node: string, candidate: string)
    | CommitFailedVerdict(node: string)
    | CommitFailure(node: string, unknown: bool)
    | PlanFailure(unknown: bool)
    | PrepareCandidate(node: string)
    | ApproveCandidateStep(supplied: Digest)
    | StartCheckpoint
    | FinishCheckpoint
    | MarkAmbiguous(node: string)
    | RecordFinding(node: string, finding: Finding)
    | CommitRecorded(node: string, candidate: string)
    | CommitConnectorAction(node: string)
    | OweAttempt(node: string)
    | StopNodeStep(node: string)
    | CancelNode(node: string)
    | FailMission
    | FinishMission(verified: bool)
    | CancelMission
    | CrashStep

  /** What a step asks the journal to do. */
  datatype Change =
    | Nothing
    | MissionTo(status: PlanState, fields: MissionFields)
    | MissionSet(fields: MissionFields)
    | NodeTo(node: string, state: NodeState, changes: NodeFields)
    | NodeAudit(node: string, changes: NodeFields)

  predicate Accepted(j: Journal, c: Change) {
    match c
    case Nothing => false
    case MissionTo(next, f) => AfterTransitionMission(j, next, f).Ok?
    case MissionSet(f) => true
    case NodeTo(id, next, f) => AfterTransitionNode(j, id, next, f).Ok?
    case NodeAudit(id, f) => AfterAuditNode(j, id, f).Ok?
  }

  /** A refused change throws inside its savepoint, so nothing of it remains. */
  function Apply(j: Journal, c: Change): Journal {
    if !Accepted(j, c) then j
    else
      match c
      case MissionTo(next, f) => AfterTransitionMission(j, next, f).value
      case MissionSet(f) => AfterUpdateMission(j, f)
      case NodeTo(id, next, f) => AfterTransitionNode(j, id, next, f).value
      case NodeAudit(id, f) => AfterAuditNode(j, id, f).value
  }

  predicate StateIs(j: Journal, id: string, s: NodeState) {
    id in j.nodes && j.nodes[id].state == s
  }

  predicate DependenciesCompleted(j: Journal, id: string)
    requires id in j.nodes
  {
    forall d | d in j.nodes[id].dependsOn :: StateIs(j, d, Completed)
  }

  /** Plan failure converges: it is applied once and its severity is never lowered. */
  function FailureChange(status: PlanState, unknown: bool): Change {
    var target := if unknown then PlanReconciliationRequired else PlanFailedRecoverable;
    if status == target then Nothing
    else if status == PlanReconciliationRequired && !unknown then Nothing
    else MissionTo(target, NO_FIELDS)
  }

  predicate MayApproveCandidate(m: MissionRow, supplied: Digest) {
    && m.status == AwaitingAuthority
    && m.candidateHash.Some? && Truthy(m.candidateMarkdown)
    && supplied == m.candidateHash.value
  }

  function Requested(p: Plan, m: Mission, s: Step): Change {
    var j := m.journal;
    match s
    case ApproveExecution =>
      if j.mission.status == ApprovalRequired then MissionTo(Approved, NO_FIELDS) else Nothing
    case ResumePlan => MissionTo(PlanRunning, NO_FIELDS)
    case OpenReady(id) =>
      if StateIs(j, id, Blocked) && DependenciesCompleted(j, id) then NodeTo(id, Ready, NO_CHANGES) else Nothing
    case AwaitAuthorityStep => MissionTo(AwaitingAuthority, NO_FIELDS)
    case Lease(id) =>
      if id == p.checkpoint || id !in j.nodes then Nothing
      else NodeTo(id, Running, NodeFields(Some(j.nodes[id].attempts + 1), None))
    case RecordOutcome(_) => Nothing
    case CommitSuccess(id, _) => if id == p.checkpoint then Nothing else NodeTo(id, Completed, NO_CHANGES)
    case CommitFailedVerdict(id) => if id == VERIFIER then NodeTo(id, FailedTerminal, NO_CHANGES) else Nothing
    case CommitFailure(id, unknown) =>
      NodeTo(id, if unknown then ReconciliationRequired else FailedRecoverable, NO_CHANGES)
    case PlanFailure(unknown) => FailureChange(j.mission.status, unknown)
    case PrepareCandidate(id) =>
      if id in m.owed then MissionSet(MissionFields(Some(CandidateDigest(m.owed[id])), Some(m.owed[id]), None))
      else Nothing
    case ApproveCandidateStep(supplied) =>
      if MayApproveCandidate(j.mission, supplied) then MissionSet(MissionFields(None, None, j.mission.candidateHash))
      else Nothing
    case StartCheckpoint =>
      if j.mission.approvedCandidateHash.Some? then NodeTo(p.checkpoint, Running, NO_CHANGES) else Nothing
    case FinishCheckpoint =>
      if j.mission.approvedCandidateHash.Some? then NodeTo(p.checkpoint, Completed, NO_CHANGES) else Nothing
    case MarkAmbiguous(id) =>
      if StateIs(j, id, Running) || (StateIs(j, id, FailedRecoverable) && id in p.sideEffects)
      then NodeTo(id, ReconciliationRequired, NO_CHANGES) else Nothing
    case RecordFinding(id, finding) =>
      if StateIs(j, id, ReconciliationRequired) || StateIs(j, id, FailedRecoverable)
      then NodeAudit(id, NodeFields(None, Some(finding))) else Nothing
    case CommitRecorded(id, _) =>
      if StateIs(j, id, ReconciliationRequired) && j.nodes[id].finding == Some(WorkerResultFound)
         && id in m.recorded && id !in p.connectorNodes
      then NodeTo(id, Completed, NO_CHANGES) else Nothing
    case CommitConnectorAction(id) =>
      if id in j.nodes && id in p.connectorNodes && j.nodes[id].finding == Some(WorkerResultFound)
         && j.nodes[id].state != Running
      then NodeTo(id, Completed, NO_CHANGES) else Nothing
    case OweAttempt(id) =>
      if StateIs(j, id, ReconciliationRequired) && j.nodes[id].finding == Some(NoWorkerResult)
      then NodeTo(id, FailedRecoverable, NO_CHANGES) else Nothing
    case StopNodeStep(id) => NodeTo(id, FailedTerminal, NO_CHANGES)
    case CancelNode(id) => NodeTo(id, Cancelled, NO_CHANGES)
    case FailMission => MissionTo(PlanFailedTerminal, NO_FIELDS)
    case FinishMission(verified) =>
      if StateIs(j, p.terminalNode, Completed)
      then MissionTo(if verified then PlanCompleted else PlanFailedTerminal, NO_FIELDS) else Nothing
    case CancelMission => MissionTo(PlanCancelled, NO_FIELDS)
    case CrashStep => Nothing
  }

  /** The candidates owed after a step: a completed producer owes one, a recovered one only if it is N5. */
  function OwedAfter(m: Mission, s: Step, accepted: bool): map<string, string> {
    match s
    case CommitSuccess(id, candidate) =>
      if accepted && ProducesCandidate(id) then m.owed[id := candidate] else m.owed
    case CommitRecorded(id, candidate) =>
      if accepted && id == SYNTHESIS then m.owed[id := candidate] else m.owed
    case PrepareCandidate(id) => m.owed - {id}
    case CrashStep => map[]
    case _ => m.owed
  }

  function Next(p: Plan, m: Mission, s: Step): Mission {
    var change := Requested(p, m, s);
    Mission(Apply(m.journal, change),
            if s.RecordOutcome? && s.node in m.journal.nodes && s.node != p.checkpoint
            then m.recorded + {s.node} else m.recorded,
            OwedAfter(m, s, Accepted(m.journal, change)))
  }

  function Submitted(p: Plan): Mission {
    Mission(Inserted(p.dependencies), {}, map[])
  }

  function Run(p: Plan, steps: seq<Step>): Mission {
    if steps == [] then Submitted(p)
    else Next(p, Run(p, steps[..|steps| - 1]), steps[|steps| - 1])
  }

  // ---------------------------------------------------------------------
  // The log is the state, in every reachable state
  // ---------------------------------------------------------------------

  lemma ApplyKeepsLog(plan: Dependencies, j: Journal, c: Change)
    requires LogIsState(plan, j)
    ensures LogIsState(plan, Apply(j, c))
  {
    if c.MissionTo? {
      MissionSavepointsKeepLog(plan, j, c.status, c.fields);
    } else if c.MissionSet? {
      MissionSavepointsKeepLog(plan, j, Compiled, c.fields);
    } else if c.NodeTo? {
      NodeSavepointsKeepLog(plan, j, c.node, c.state, c.changes);
    } else if c.NodeAudit? {
      NodeSavepointsKeepLog(plan, j, c.node, Blocked, c.changes);
    }
  }

  lemma {:induction false} LogIsStateAlways(p: Plan, steps: seq<Step>)
    ensures LogIsState(p.dependencies, Run(p, steps).journal)
  {
    if steps == [] {
      InsertedLogIsState(p.dependencies);
    } else {
      var m := Run(p, steps[..|steps| - 1]);
      LogIsStateAlways(p, steps[..|steps| - 1]);
      ApplyKeepsLog(p.dependencies, m.journal, Requested(p, m, steps[|steps| - 1]));
    }
  }

  /** Audit facts are only ever recorded on a node that is not running. */
  lemma {:induction false} RunningIsNeverAudited(p: Plan, steps: seq<Step>)
    ensures NoRunningAudit(Run(p, steps).journal.events)
  {
    if steps != [] {
      var front := steps[..|steps| - 1];
      RunningIsNeverAudited(p, front);
      ApplyKeepsNoRunningAudit(p, Run(p, front), steps[|steps| - 1]);
    }
  }

  lemma ApplyKeepsNoRunningAudit(p: Plan, m: Mission, s: Step)
    requires NoRunningAudit(m.journal.events)
    ensures NoRunningAudit(Next(p, m, s).journal.events)
  {
  }

  /** So the parallelism measured from any reachable log is the true peak. */
  method MeasureParallelism(ghost p: Plan, ghost steps: seq<Step>, events: seq<Event>) returns (peak: nat)
    requires events == Run(p, steps).journal.events
    ensures Replay(InitialView(p.dependencies), events).Some?
    ensures forall k | 0 <= k <= |events| :: |RunningAt(InitialView(p.dependencies), events, k)| <= peak
    ensures exists k :: 0 <= k <= |events| && peak == |RunningAt(InitialView(p.dependencies), events, k)|
  {
    LogIsStateAlways(p, steps);
    RunningIsNeverAudited(p, steps);
    peak := ObservedParallelism(p.dependencies, events);
  }

  // ---------------------------------------------------------------------
  // Dependency closure, for every governor
  // ---------------------------------------------------------------------

  /** States a node reaches only after it was opened. */
  predicate Opened(s: NodeState) {
    s.Ready? || s.Running? || s.Completed? || s.FailedRecoverable? || s.ReconciliationRequired?
  }

  ghost predicate SameShape(p: Plan, j: Journal) {
    j.nodes.Keys == p.dependencies.Keys
    && forall id | id in j.nodes :: j.nodes[id].dependsOn == p.dependencies[id]
  }

  ghost predicate Closed(j: Journal) {
    forall id | id in j.nodes && Opened(j.nodes[id].state) :: DependenciesCompleted(j, id)
  }

  lemma ApplyKeepsClosed(p: Plan, j: Journal, c: Change)
    requires SameShape(p, j) && Closed(j)
    requires c.NodeTo? && c.state == Ready ==> c.node in j.nodes && DependenciesCompleted(j, c.node)
    ensures SameShape(p, Apply(j, c)) && Closed(Apply(j, c))
  {
    var after := Apply(j, c);
    forall id | id in after.nodes && Opened(after.nodes[id].state) ensures DependenciesCompleted(after, id) {
      assert DependenciesCompleted(j, id);
      forall d | d in after.nodes[id].dependsOn ensures StateIs(after, d, Completed) {
        assert StateIs(j, d, Completed);
      }
    }
  }

  lemma {:induction false} ClosedAlways(p: Plan, steps: seq<Step>)
    ensures SameShape(p, Run(p, steps).journal) && Closed(Run(p, steps).journal)
  {
    if steps != [] {
      var m, s := Run(p, steps[..|steps| - 1]), steps[|steps| - 1];
      ClosedAlways(p, steps[..|steps| - 1]);
      ApplyKeepsClosed(p, m.journal, Requested(p, m, s));
    }
  }

  /** `path` leads from a node to one of its transitive dependencies. */
  ghost predicate DependencyPath(p: Plan, path: seq<string>) {
    && |path| >= 2
    && forall i | 0 <= i < |path| - 1 :: path[i] in p.dependencies && path[i + 1] in p.dependencies[path[i]]
  }

  lemma {:induction false} ClosedAlongPath(p: Plan, j: Journal, path: seq<string>)
    requires SameShape(p, j) && Closed(j) && DependencyPath(p, path)
    requires path[0] in j.nodes && Opened(j.nodes[path[0]].state)
    ensures StateIs(j, path[|path| - 1], Completed)
  {
    assert DependenciesCompleted(j, path[0]);
    assert path[1] in j.nodes[path[0]].dependsOn;
    if |path| > 2 {
      ClosedAlongPath(p, j, path[1..]);
    }
  }

  /**
   Dependency closure: whatever the governor admits and the workers answer, a
   node that was ever opened has all of its transitive dependencies completed.
   */
  lemma OpenedImpliesDependenciesCompleted(p: Plan, steps: seq<Step>, path: seq<string>)
    requires DependencyPath(p, path) && path[0] in Run(p, steps).journal.nodes
    requires Opened(Run(p, steps).journal.nodes[path[0]].state)
    ensures StateIs(Run(p, steps).journal, path[|path| - 1], Completed)
  {
    ClosedAlways(p, steps);
    ClosedAlongPath(p, Run(p, steps).journal, path);
  }

  lemma ApplyKeepsTerminal(j: Journal, c: Change, id: string)
    requires id in j.nodes && TerminalNode(j.nodes[id].state)
    ensures id in Apply(j, c).nodes && Apply(j, c).nodes[id].state == j.nodes[id].state
  {
  }

  lemma TerminalNodeStays(p: Plan, m: Mission, s: Step, id: string)
    requires id in m.journal.nodes && TerminalNode(m.journal.nodes[id].state)
    ensures id in Next(p, m, s).journal.nodes
    ensures Next(p, m, s).journal.nodes[id].state == m.journal.nodes[id].state
  {
    ApplyKeepsTerminal(m.journal, Requested(p, m, s), id);
  }

  lemma {:induction false} TerminalForever(p: Plan, steps: seq<Step>, k: nat, id: string)
    requires k <= |steps| && id in Run(p, steps[..k]).journal.nodes
    requires TerminalNode(Run(p, steps[..k]).journal.nodes[id].state)
    ensures id in Run(p, steps).journal.nodes
    ensures Run(p, steps).journal.nodes[id].state == Run(p, steps[..k]).journal.nodes[id].state
  {
    if k < |steps| {
      var front := steps[..|steps| - 1];
      assert front[..k] == steps[..k];
      TerminalForever(p, front, k, id);
      TerminalNodeStays(p, Run(p, front), steps[|steps| - 1], id);
    } else {
      assert steps[..k] == steps;
    }
  }

  /** Once a node is cancelled or failed for good, nothing that depends on it is ever opened. */
  lemma DeadNodeBlocksDependents(p: Plan, steps: seq<Step>, k: nat, path: seq<string>)
    requires k <= |steps| && DependencyPath(p, path)
    requires
      var dead := path[|path| - 1];
      StateIs(Run(p, steps[..k]).journal, dead, Cancelled) || StateIs(Run(p, steps[..k]).journal, dead, FailedTerminal)
    ensures path[0] in Run(p, steps).journal.nodes
    ensures !Opened(Run(p, steps).journal.nodes[path[0]].state)
  {
    ClosedAlways(p, steps);
    TerminalForever(p, steps, k, path[|path| - 1]);
    if Opened(Run(p, steps).journal.nodes[path[0]].state) {
      ClosedAlongPath(p, Run(p, steps).journal, path);
    }
  }

  // ---------------------------------------------------------------------
  // Authority, for every governor
  // ---------------------------------------------------------------------

  /** The candidate columns agree, and the approval is for exactly those bytes. */
  ghost predicate CandidateBound(m: MissionRow) {
    && (m.candidateHash.Some? <==> m.candidateMarkdown.Some?)
    && (m.candidateHash.Some? ==> m.candidateHash.value == CandidateDigest(m.candidateMarkdown.value))
    && (m.approvedCandidateHash.Some? ==> m.approvedCandidateHash == m.candidateHash)
  }

  /** A candidate is owed or stored only by a completed producer, and never both. */
  ghost predicate CandidateOnce(m: Mission) {
    && (forall id | id in m.owed :: ProducesCandidate(id) && StateIs(m.journal, id, Completed))
    && (m.journal.mission.candidateHash.Some? ==>
          m.owed == map[] && exists id :: ProducesCandidate(id) && StateIs(m.journal, id, Completed))
  }

  ghost predicate CheckpointHeld(p: Plan, m: Mission) {
    && p.checkpoint !in m.recorded
    && (StateIs(m.journal, p.checkpoint, Completed) ==> m.journal.mission.approvedCandidateHash.Some?)
  }

  ghost predicate Authority(p: Plan, m: Mission) {
    CandidateBound(m.journal.mission) && CandidateOnce(m) && CheckpointHeld(p, m)
  }

  lemma OneProducer(p: Plan, j: Journal, a: string, b: string)
    requires PlanOk(p) && SameShape(p, j)
    requires ProducesCandidate(a) && ProducesCandidate(b) && a in j.nodes && b in j.nodes
    ensures a == b
  {
  }

  /** Which candidate columns each step writes. */
  function ColumnsWritten(m: Mission, s: Step): MissionFields {
    match s
    case PrepareCandidate(id) =>
      if id in m.owed then MissionFields(Some(CandidateDigest(m.owed[id])), Some(m.owed[id]), None) else NO_FIELDS
    case ApproveCandidateStep(supplied) =>
      if MayApproveCandidate(m.journal.mission, supplied)
      then MissionFields(None, None, m.journal.mission.candidateHash) else NO_FIELDS
    case _ => NO_FIELDS
  }

  lemma RequestedColumns(p: Plan, m: Mission, s: Step)
    ensures Requested(p, m, s).MissionTo? ==> Requested(p, m, s).fields == NO_FIELDS == ColumnsWritten(m, s)
    ensures Requested(p, m, s).MissionSet? ==> Requested(p, m, s).fields == ColumnsWritten(m, s)
    ensures Requested(p, m, s).Nothing? || Requested(p, m, s).NodeTo? || Requested(p, m, s).NodeAudit? ==>
              ColumnsWritten(m, s) == NO_FIELDS
  {
  }

  lemma ColumnsMove(p: Plan, m: Mission, s: Step)
    ensures
      var b := Next(p, m, s).journal.mission;
      b == WithFields(m.journal.mission, ColumnsWritten(m, s)).(status := b.status)
  {
    RequestedColumns(p, m, s);
    var c := Requested(p, m, s);
    if c.MissionTo? {
    } else if c.MissionSet? {
    } else {
      assert Apply(m.journal, c).mission == m.journal.mission;
    }
  }

  lemma StepKeepsBound(p: Plan, m: Mission, s: Step)
    requires CandidateBound(m.journal.mission) && CandidateOnce(m)
    ensures CandidateBound(Next(p, m, s).journal.mission)
  {
    ColumnsMove(p, m, s);
  }

  lemma StepKeepsOnce(p: Plan, m: Mission, s: Step)
    requires PlanOk(p) && SameShape(p, m.journal) && Authority(p, m)
    ensures CandidateOnce(Next(p, m, s))
  {
    var n := Next(p, m, s);
    forall id | id in n.owed ensures ProducesCandidate(id) && StateIs(n.journal, id, Completed) {
      if id in m.owed {
        TerminalNodeStays(p, m, s, id);
      }
    }
    if n.journal.mission.candidateHash.Some? {
      OnceStored(p, m, s);
    }
  }

  lemma OnceStored(p: Plan, m: Mission, s: Step)
    requires PlanOk(p) && SameShape(p, m.journal) && CandidateOnce(m)
    requires Next(p, m, s).journal.mission.candidateHash.Some?
    ensures Next(p, m, s).owed == map[]
    ensures exists id :: ProducesCandidate(id) && StateIs(Next(p, m, s).journal, id, Completed)
  {
    ColumnsMove(p, m, s);
    var n := Next(p, m, s);
    var id: string;
    if m.journal.mission.candidateHash.Some? {
      id :| ProducesCandidate(id) && StateIs(m.journal, id, Completed);
      if other :| other in n.owed {
        OneProducer(p, m.journal, id, other);
        NoSecondCompletion(p, m, s, other);
      }
    } else {
      id := s.node;
      if other :| other in n.owed {
        OneProducer(p, m.journal, id, other);
      }
    }
    TerminalNodeStays(p, m, s, id);
    assert n.owed.Keys == {};
  }

  /** A completed node is not completed again, so it owes nothing new. */
  lemma NoSecondCompletion(p: Plan, m: Mission, s: Step, id: string)
    requires StateIs(m.journal, id, Completed)
    ensures id in Next(p, m, s).owed ==> id in m.owed
  {
  }

  lemma StepKeepsCheckpoint(p: Plan, m: Mission, s: Step)
    requires PlanOk(p) && CheckpointHeld(p, m)
    ensures CheckpointHeld(p, Next(p, m, s))
  {
  }

  lemma {:induction false} AuthorityAlways(p: Plan, steps: seq<Step>)
    requires PlanOk(p)
    ensures Authority(p, Run(p, steps))
  {
    if steps != [] {
      var m, s := Run(p, steps[..|steps| - 1]), steps[|steps| - 1];
      AuthorityAlways(p, steps[..|steps| - 1]);
      ClosedAlways(p, steps[..|steps| - 1]);
      StepKeepsBound(p, m, s);
      StepKeepsOnce(p, m, s);
      StepKeepsCheckpoint(p, m, s);
    }
  }

  lemma CandidateStays(p: Plan, m: Mission, s: Step)
    requires CandidateBound(m.journal.mission) && CandidateOnce(m)
    requires m.journal.mission.candidateHash.Some?
    ensures
      var a, b := m.journal.mission, Next(p, m, s).journal.mission;
      && b.candidateHash == a.candidateHash && b.candidateMarkdown == a.candidateMarkdown
      && (a.approvedCandidateHash.Some? ==> b.approvedCandidateHash == a.approvedCandidateHash)
  {
    ColumnsMove(p, m, s);
  }

  /** A stored candidate and its approval are the same in every continuation. */
  lemma {:induction false} CandidateIsFinal(p: Plan, steps: seq<Step>, k: nat)
    requires PlanOk(p) && k <= |steps| && Run(p, steps[..k]).journal.mission.candidateHash.Some?
    ensures
      var a, b := Run(p, steps[..k]).journal.mission, Run(p, steps).journal.mission;
      && b.candidateHash == a.candidateHash && b.candidateMarkdown == a.candidateMarkdown
      && (a.approvedCandidateHash.Some? ==> b.approvedCandidateHash == a.approvedCandidateHash)
  {
    if k < |steps| {
      var front := steps[..|steps| - 1];
      assert front[..k] == steps[..k];
      CandidateIsFinal(p, front, k);
      AuthorityAlways(p, front);
      ClosedAlways(p, front);
      CandidateStays(p, Run(p, front), steps[|steps| - 1]);
    } else {
      assert steps[..k] == steps;
    }
  }

  /**
   Authority: whatever the governor answers, a completed checkpoint means a human
   approved exactly the durable candidate bytes, and until then no node behind
   the checkpoint is anything but blocked, cancelled or failed for good.
   */
  lemma AuthorityHolds(p: Plan, steps: seq<Step>, path: seq<string>)
    requires PlanOk(p) && DependencyPath(p, path) && path[|path| - 1] == p.checkpoint
    ensures
      var m := Run(p, steps).journal;
      && (StateIs(m, p.checkpoint, Completed) ==>
            m.mission.candidateMarkdown.Some?
            && m.mission.approvedCandidateHash == m.mission.candidateHash
                 == Some(CandidateDigest(m.mission.candidateMarkdown.value)))
      && (!StateIs(m, p.checkpoint, Completed) ==>
            path[0] in m.nodes
            && (m.nodes[path[0]].state.Blocked? || m.nodes[path[0]].state.Cancelled?
                || m.nodes[path[0]].state.FailedTerminal?))
  {
    AuthorityAlways(p, steps);
    ClosedAlways(p, steps);
    if Opened(Run(p, steps).journal.nodes[path[0]].state) {
      ClosedAlongPath(p, Run(p, steps).journal, path);
    }
  }

  // ---------------------------------------------------------------------
  // What a completed plan means
  // ---------------------------------------------------------------------

  predicate CompletedIsFinished(p: Plan, m: Mission) {
    m.journal.mission.status == PlanCompleted ==> StateIs(m.journal, p.terminalNode, Completed)
  }

  lemma StepKeepsFinished(p: Plan, m: Mission, s: Step)
    requires CompletedIsFinished(p, m)
    ensures CompletedIsFinished(p, Next(p, m, s))
  {
    if StateIs(m.journal, p.terminalNode, Completed) {
      TerminalNodeStays(p, m, s, p.terminalNode);
    }
  }

  lemma {:induction false} FinishedAlways(p: Plan, steps: seq<Step>)
    ensures CompletedIsFinished(p, Run(p, steps))
  {
    if steps != [] {
      FinishedAlways(p, steps[..|steps| - 1]);
      StepKeepsFinished(p, Run(p, steps[..|steps| - 1]), steps[|steps| - 1]);
    }
  }

  /**
   A completed plan has completed its terminal node and everything that node
   depends on; where that includes the checkpoint, a human approved exactly
   the durable candidate bytes.
   */
  lemma CompletedPlanIsApproved(p: Plan, steps: seq<Step>, path: seq<string>)
    requires PlanOk(p) && DependencyPath(p, path) && path[0] == p.terminalNode
    requires Run(p, steps).journal.mission.status == PlanCompleted
    ensures
      var m := Run(p, steps).journal;
      && StateIs(m, p.terminalNode, Completed) && StateIs(m, path[|path| - 1], Completed)
      && (path[|path| - 1] == p.checkpoint ==>
            m.mission.candidateMarkdown.Some?
            && m.mission.approvedCandidateHash == m.mission.candidateHash
                 == Some(CandidateDigest(m.mission.candidateMarkdown.value)))
  {
    FinishedAlways(p, steps);
    OpenedImpliesDependenciesCompleted(p, steps, path);
    if path[|path| - 1] == p.checkpoint {
      AuthorityHolds(p, steps, path);
    }
  }

  // ---------------------------------------------------------------------
  // What a human approved, and what recovery may complete
  // ---------------------------------------------------------------------

  /** An approval takes effect exactly when it names the durable candidate of a plan awaiting authority. */
  lemma ApprovalAnswers(p: Plan, m: Mission, supplied: Digest)
    ensures var before, after := m.journal.mission, Next(p, m, ApproveCandidateStep(supplied)).journal.mission;
      && (Requested(p, m, ApproveCandidateStep(supplied)) != Nothing <==>
            && before.status == AwaitingAuthority && before.candidateHash == Some(supplied)
            && before.candidateMarkdown != None && before.candidateMarkdown != Some(""))
      && (Requested(p, m, ApproveCandidateStep(supplied)) != Nothing ==> after.approvedCandidateHash == Some(supplied))
      && (Requested(p, m, ApproveCandidateStep(supplied)) == Nothing ==>
            Next(p, m, ApproveCandidateStep(supplied)).journal == m.journal)
  {
  }

  /** Nothing but an approval sets the approved hash. */
  lemma OnlyApprovalApproves(p: Plan, m: Mission, s: Step)
    requires Next(p, m, s).journal.mission.approvedCandidateHash != m.journal.mission.approvedCandidateHash
    ensures s.ApproveCandidateStep? && Requested(p, m, s) != Nothing
  {
    ColumnsMove(p, m, s);
  }

  /**
   In every run an approved hash was supplied by a human, naming that very
   candidate while it was durable and the plan awaited authority.
   */
  lemma {:induction false} ApprovalNamedTheCandidate(p: Plan, steps: seq<Step>) returns (k: nat)
    requires Run(p, steps).journal.mission.approvedCandidateHash.Some?
    ensures k < |steps| && steps[k].ApproveCandidateStep?
    ensures Run(p, steps).journal.mission.approvedCandidateHash == Some(steps[k].supplied)
    ensures Run(p, steps[..k]).journal.mission.candidateHash == Some(steps[k].supplied)
    ensures Run(p, steps[..k]).journal.mission.status == AwaitingAuthority
  {
    var n := |steps| - 1;
    var front := steps[..n];
    if Run(p, front).journal.mission.approvedCandidateHash == Run(p, steps).journal.mission.approvedCandidateHash {
      k := ApprovalNamedTheCandidate(p, front);
      assert front[..k] == steps[..k];
    } else {
      k := n;
      OnlyApprovalApproves(p, Run(p, front), steps[n]);
      ApprovalAnswers(p, Run(p, front), steps[n].supplied);
    }
  }

  /** Execution is approved exactly from the state that asks for it. */
  lemma ExecutionApprovalAnswers(p: Plan, m: Mission)
    ensures var after := Next(p, m, ApproveExecution);
      && after.journal.nodes == m.journal.nodes
      && after.journal.mission == m.journal.mission.(status :=
           if m.journal.mission.status == ApprovalRequired then Approved else m.journal.mission.status)
  {
  }

  /** Whether a step left the node in this state, having found it in another. */
  predicate Became(p: Plan, m: Mission, s: Step, id: string, state: NodeState) {
    && id in m.journal.nodes && id in Next(p, m, s).journal.nodes
    && m.journal.nodes[id].state != state && Next(p, m, s).journal.nodes[id].state == state
  }

  /** Recovery completes a node by its recorded result exactly where reconcile found one that is durable. */
  lemma RecordedResultAnswers(p: Plan, m: Mission, id: string, candidate: string)
    requires id in m.journal.nodes
    ensures var row := m.journal.nodes[id];
      Became(p, m, CommitRecorded(id, candidate), id, Completed) <==>
        && row.state == ReconciliationRequired && row.finding == Some(WorkerResultFound)
        && id in m.recorded && id !in p.connectorNodes
  {
  }

  /** It completes a connector node exactly where reconcile found the action. */
  lemma ConnectorActionAnswers(p: Plan, m: Mission, id: string)
    requires id in m.journal.nodes
    ensures var row := m.journal.nodes[id];
      Became(p, m, CommitConnectorAction(id), id, Completed) <==>
        && row.state == ReconciliationRequired && row.finding == Some(WorkerResultFound)
        && id in p.connectorNodes
  {
  }

  /** It owes an attempt exactly where reconcile found nothing. */
  lemma OwedAttemptAnswers(p: Plan, m: Mission, id: string)
    requires id in m.journal.nodes
    ensures Became(p, m, OweAttempt(id), id, FailedRecoverable) <==>
      m.journal.nodes[id].state == ReconciliationRequired && m.journal.nodes[id].finding == Some(NoWorkerResult)
  {
  }

  /** It calls ambiguous exactly a running node, or a failed one with a side effect. */
  lemma AmbiguityAnswers(p: Plan, m: Mission, id: string)
    requires id in m.journal.nodes
    ensures Became(p, m, MarkAmbiguous(id), id, ReconciliationRequired) <==>
      m.journal.nodes[id].state == Running || (m.journal.nodes[id].state == FailedRecoverable && id in p.sideEffects)
  {
  }

  /** A finding is recorded exactly on a node that is ambiguous, and changes nothing else of it. */
  lemma FindingAnswers(p: Plan, m: Mission, id: string, finding: Finding)
    requires id in m.journal.nodes
    ensures var before, after := m.journal.nodes, Next(p, m, RecordFinding(id, finding)).journal.nodes;
      after == if before[id].state in {ReconciliationRequired, FailedRecoverable}
               then before[id := before[id].(finding := Some(finding))] else before
  {
  }
}
