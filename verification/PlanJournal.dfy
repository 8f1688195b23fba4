/**
 The durable plan journal of one mission: closed state machines, transitions
 checked against the state being left, and an append-only event log.
 */
module PlanJournal {
  import opened Prelude

  datatype PlanState =
    | Compiled | ApprovalRequired | Approved | PlanRunning | AwaitingAuthority
    | PlanCompleted | PlanFailedRecoverable | PlanReconciliationRequired
    | PlanFailedTerminal | PlanCancelled

  datatype NodeState =
    | Blocked | Ready | Running | Completed | FailedRecoverable
    | ReconciliationRequired | FailedTerminal | Cancelled

  function PlanSuccessors(s: PlanState): set<PlanState> {
    match s
    case Compiled => {ApprovalRequired, PlanCancelled}
    case ApprovalRequired => {Approved, PlanCancelled, PlanFailedTerminal}
    case Approved => {PlanRunning, PlanCancelled, PlanFailedTerminal}
    case PlanRunning => {AwaitingAuthority, PlanCompleted, PlanFailedRecoverable,
                         PlanReconciliationRequired, PlanFailedTerminal, PlanCancelled}
    case AwaitingAuthority => {PlanRunning, PlanFailedRecoverable, PlanReconciliationRequired,
                               PlanFailedTerminal, PlanCancelled}
    case PlanFailedRecoverable => {PlanRunning, PlanReconciliationRequired, PlanFailedTerminal, PlanCancelled}
    case PlanReconciliationRequired => {PlanRunning, PlanFailedRecoverable, PlanFailedTerminal, PlanCancelled}
    case PlanCompleted => {}
    case PlanFailedTerminal => {}
    case PlanCancelled => {}
  }

  function NodeSuccessors(s: NodeState): set<NodeState> {
    match s
    case Blocked => {Ready, Cancelled, FailedTerminal}
    case Ready => {Running, Cancelled, FailedTerminal}
    case Running => {Completed, FailedRecoverable, ReconciliationRequired, FailedTerminal, Cancelled}
    case FailedRecoverable => {Ready, Running, ReconciliationRequired, FailedTerminal, Cancelled}
    case ReconciliationRequired => {Running, Completed, FailedRecoverable, FailedTerminal, Cancelled}
    case Completed => {}
    case FailedTerminal => {}
    case Cancelled => {}
  }

  predicate TerminalNode(s: NodeState) {
    s.Completed? || s.FailedTerminal? || s.Cancelled?
  }

  predicate TerminalPlan(s: PlanState) {
    s.PlanCompleted? || s.PlanFailedTerminal? || s.PlanCancelled?
  }

  /** The candidate hash, as an injective digest of the candidate bytes. */
  datatype Digest = CandidateDigest(bytes: string)

  datatype Finding = WorkerResultFound | NoWorkerResult | FindingConflict

  datatype MissionRow = MissionRow(
    status: PlanState,
    candidateHash: Option<Digest>,
    candidateMarkdown: Option<string>,
    approvedCandidateHash: Option<Digest>)

  datatype NodeRow = NodeRow(
    dependsOn: seq<string>, state: NodeState, attempts: nat, finding: Option<Finding>)

  /** One journaled fact, by scope. A node fact with equal states is an audit event. */
  datatype Fact =
    | MissionFact(previousStatus: Option<PlanState>, status: PlanState)
    | PlanFact(previous: PlanState, next: PlanState)
    | NodeFact(node: string, from: NodeState, to: NodeState)

  datatype Event = Event(sequence: nat, fact: Fact)

  datatype Journal = Journal(mission: MissionRow, nodes: map<string, NodeRow>, events: seq<Event>)

  /** Mission columns to set; None leaves the column as it is. */
  datatype MissionFields = MissionFields(
    candidateHash: Option<Digest>, candidateMarkdown: Option<string>, approvedCandidateHash: Option<Digest>)

  const NO_FIELDS := MissionFields(None, None, None)

  /** Node columns to set; None leaves the column as it is. */
  datatype NodeFields = NodeFields(attempts: Option<nat>, finding: Option<Finding>)

  const NO_CHANGES := NodeFields(None, None)

  datatype JournalError = InvalidPlanTransition | InvalidNodeTransition | NodeNotFound

  // ---------------------------------------------------------------------
  // The specification of each savepoint
  // ---------------------------------------------------------------------

  function Or<T>(change: Option<T>, current: T): T {
    if change.Some? then change.value else current
  }

  function OrKeep<T>(change: Option<T>, current: Option<T>): Option<T> {
    if change.Some? then change else current
  }

  function MaxSequence(events: seq<Event>): nat {
    if events == [] then 0
    else
      var front := MaxSequence(events[..|events| - 1]);
      var last := events[|events| - 1].sequence;
      if front < last then last else front
  }

  function Appended(events: seq<Event>, fact: Fact): seq<Event> {
    events + [Event(MaxSequence(events) + 1, fact)]
  }

  function WithFields(m: MissionRow, f: MissionFields): MissionRow {
    MissionRow(m.status, OrKeep(f.candidateHash, m.candidateHash),
               OrKeep(f.candidateMarkdown, m.candidateMarkdown),
               OrKeep(f.approvedCandidateHash, m.approvedCandidateHash))
  }

  function AfterTransitionMission(j: Journal, next: PlanState, f: MissionFields): Result<Journal, JournalError> {
    if next !in PlanSuccessors(j.mission.status) then Err(InvalidPlanTransition)
    else Ok(Journal(WithFields(j.mission, f).(status := next), j.nodes,
                    Appended(j.events, PlanFact(j.mission.status, next))))
  }

  function AfterUpdateMission(j: Journal, f: MissionFields): Journal {
    Journal(WithFields(j.mission, f), j.nodes,
            Appended(j.events, MissionFact(Some(j.mission.status), j.mission.status)))
  }

  function AfterTransitionNode(j: Journal, id: string, next: NodeState, f: NodeFields): Result<Journal, JournalError> {
    if id !in j.nodes then Err(NodeNotFound)
    else if next !in NodeSuccessors(j.nodes[id].state) then Err(InvalidNodeTransition)
    else
      var row := j.nodes[id];
      Ok(Journal(j.mission,
                 j.nodes[id := NodeRow(row.dependsOn, next,
                                       Or(f.attempts, row.attempts), OrKeep(f.finding, row.finding))],
                 Appended(j.events, NodeFact(id, row.state, next))))
  }

  function AfterAuditNode(j: Journal, id: string, f: NodeFields): Result<Journal, JournalError> {
    if id !in j.nodes then Err(NodeNotFound)
    else
      var row := j.nodes[id];
      Ok(Journal(j.mission,
                 j.nodes[id := row.(attempts := Or(f.attempts, row.attempts),
                                    finding := OrKeep(f.finding, row.finding))],
                 Appended(j.events, NodeFact(id, row.state, row.state))))
  }

  function InitialState(dependsOn: seq<string>): NodeState {
    if dependsOn == [] then Ready else Blocked
  }

  /** The dependency lists of the compiled plan. */
  type Dependencies = map<string, seq<string>>

  function Inserted(plan: Dependencies): Journal {
    Journal(MissionRow(ApprovalRequired, None, None, None),
            map id | id in plan :: NodeRow(plan[id], InitialState(plan[id]), 0, None),
            [Event(1, MissionFact(None, Compiled)), Event(2, PlanFact(Compiled, ApprovalRequired))])
  }

  // ---------------------------------------------------------------------
  // What the tables allow, and what a savepoint touches
  // ---------------------------------------------------------------------

  /** Where each node state can come from; nothing repeats itself, and a finished node goes nowhere. */
  lemma NodeTransitionsAllowed(s: NodeState)
    ensures Ready in NodeSuccessors(s) <==> s in {Blocked, FailedRecoverable}
    ensures Running in NodeSuccessors(s) <==> s in {Ready, FailedRecoverable, ReconciliationRequired}
    ensures Completed in NodeSuccessors(s) <==> s in {Running, ReconciliationRequired}
    ensures FailedRecoverable in NodeSuccessors(s) <==> s in {Running, ReconciliationRequired}
    ensures ReconciliationRequired in NodeSuccessors(s) <==> s in {Running, FailedRecoverable}
    ensures FailedTerminal in NodeSuccessors(s) <==> s !in {Completed, FailedTerminal, Cancelled}
    ensures Cancelled in NodeSuccessors(s) <==> s !in {Completed, FailedTerminal, Cancelled}
    ensures Blocked !in NodeSuccessors(s)
    ensures TerminalNode(s) <==> NodeSuccessors(s) == {}
  {
  }

  lemma PlanTransitionsAllowed(s: PlanState)
    ensures ApprovalRequired in PlanSuccessors(s) <==> s == Compiled
    ensures Approved in PlanSuccessors(s) <==> s == ApprovalRequired
    ensures PlanRunning in PlanSuccessors(s) <==>
      s in {Approved, AwaitingAuthority, PlanFailedRecoverable, PlanReconciliationRequired}
    ensures AwaitingAuthority in PlanSuccessors(s) <==> s == PlanRunning
    ensures PlanCompleted in PlanSuccessors(s) <==> s == PlanRunning
    ensures PlanFailedRecoverable in PlanSuccessors(s) <==>
      s in {PlanRunning, AwaitingAuthority, PlanReconciliationRequired}
    ensures PlanReconciliationRequired in PlanSuccessors(s) <==>
      s in {PlanRunning, AwaitingAuthority, PlanFailedRecoverable}
    ensures PlanFailedTerminal in PlanSuccessors(s) <==>
      s !in {Compiled, PlanCompleted, PlanFailedTerminal, PlanCancelled}
    ensures PlanCancelled in PlanSuccessors(s) <==> s !in {PlanCompleted, PlanFailedTerminal, PlanCancelled}
    ensures Compiled !in PlanSuccessors(s)
    ensures TerminalPlan(s) <==> PlanSuccessors(s) == {}
  {
  }

  /** A new mission waits for approval with no candidate; a node is ready exactly when it depends on nothing. */
  lemma InsertedNodesStand(plan: Dependencies, id: string)
    ensures var j := Inserted(plan);
      && j.mission == MissionRow(ApprovalRequired, None, None, None)
      && (id in j.nodes <==> id in plan)
      && (id in plan ==>
            && j.nodes[id].dependsOn == plan[id] && j.nodes[id].attempts == 0 && j.nodes[id].finding.None?
            && (j.nodes[id].state == Ready <==> plan[id] == [])
            && (j.nodes[id].state == Blocked <==> plan[id] != []))
  {
  }

  /** A column that is given is set, one that is not given stays. */
  predicate ColumnsSet(before: NodeRow, after: NodeRow, f: NodeFields) {
    && after.dependsOn == before.dependsOn
    && (f.attempts != None ==> f.attempts == Some(after.attempts))
    && (f.attempts == None ==> after.attempts == before.attempts)
    && (f.finding != None ==> after.finding == f.finding)
    && (f.finding == None ==> after.finding == before.finding)
  }

  /** A node savepoint moves or audits one row, logs that one fact, and touches nothing else. */
  lemma NodeSavepointsTouchOneRow(j: Journal, id: string, next: NodeState, f: NodeFields)
    ensures AfterTransitionNode(j, id, next, f).Ok? <==> id in j.nodes && next in NodeSuccessors(j.nodes[id].state)
    ensures AfterAuditNode(j, id, f).Ok? <==> id in j.nodes
    ensures id !in j.nodes ==> AfterTransitionNode(j, id, next, f) == Err(NodeNotFound)
    ensures forall after | AfterTransitionNode(j, id, next, f) == Ok(after) ::
      && after.mission == j.mission && after.nodes.Keys == j.nodes.Keys && after.nodes - {id} == j.nodes - {id}
      && after.nodes[id].state == next && ColumnsSet(j.nodes[id], after.nodes[id], f)
      && |after.events| == |j.events| + 1 && after.events[..|j.events|] == j.events
      && after.events[|j.events|].fact == NodeFact(id, j.nodes[id].state, next)
    ensures forall after | AfterAuditNode(j, id, f) == Ok(after) ::
      && after.mission == j.mission && after.nodes.Keys == j.nodes.Keys && after.nodes - {id} == j.nodes - {id}
      && after.nodes[id].state == j.nodes[id].state && ColumnsSet(j.nodes[id], after.nodes[id], f)
      && |after.events| == |j.events| + 1 && after.events[..|j.events|] == j.events
      && after.events[|j.events|].fact == NodeFact(id, j.nodes[id].state, j.nodes[id].state)
  {
  }

  predicate MissionColumnsSet(before: MissionRow, after: MissionRow, f: MissionFields) {
    && (f.candidateHash != None ==> after.candidateHash == f.candidateHash)
    && (f.candidateHash == None ==> after.candidateHash == before.candidateHash)
    && (f.candidateMarkdown != None ==> after.candidateMarkdown == f.candidateMarkdown)
    && (f.candidateMarkdown == None ==> after.candidateMarkdown == before.candidateMarkdown)
    && (f.approvedCandidateHash != None ==> after.approvedCandidateHash == f.approvedCandidateHash)
    && (f.approvedCandidateHash == None ==> after.approvedCandidateHash == before.approvedCandidateHash)
  }

  /** A mission savepoint moves or updates the mission row alone, and logs that one fact. */
  lemma MissionSavepointsTouchTheMission(j: Journal, next: PlanState, f: MissionFields)
    ensures AfterTransitionMission(j, next, f).Ok? <==> next in PlanSuccessors(j.mission.status)
    ensures forall after | AfterTransitionMission(j, next, f) == Ok(after) ::
      && after.nodes == j.nodes && after.mission.status == next && MissionColumnsSet(j.mission, after.mission, f)
      && |after.events| == |j.events| + 1 && after.events[..|j.events|] == j.events
      && after.events[|j.events|].fact == PlanFact(j.mission.status, next)
    ensures var after := AfterUpdateMission(j, f);
      && after.nodes == j.nodes && after.mission.status == j.mission.status
      && MissionColumnsSet(j.mission, after.mission, f)
      && |after.events| == |j.events| + 1 && after.events[..|j.events|] == j.events
      && after.events[|j.events|].fact == MissionFact(Some(j.mission.status), j.mission.status)
  {
  }

  // ---------------------------------------------------------------------
  // The journal object
  // ---------------------------------------------------------------------

  class AgenticPlanJournal {
    var mission: MissionRow
    var nodes: map<string, NodeRow>
    var events: seq<Event>

    function State(): Journal
      reads this
    {
      Journal(mission, nodes, events)
    }

    /** insertMission: every node, the compiled event, then the first plan transition. */
    constructor (plan: Dependencies)
      ensures State() == Inserted(plan)
    {
      mission := MissionRow(Compiled, None, None, None);
      nodes := map id | id in plan :: NodeRow(plan[id], InitialState(plan[id]), 0, None);
      events := [];
      new;
      AppendEvent(MissionFact(None, Compiled));
      assert events == [Event(1, MissionFact(None, Compiled))];
      var error := TransitionMission(ApprovalRequired, NO_FIELDS);
    }

    method AppendEvent(fact: Fact)
      modifies this`events
      ensures events == Appended(old(events), fact)
    {
      var next := 0;
      for i := 0 to |events|
        invariant next == MaxSequence(events[..i])
      {
        assert events[..i + 1][..i] == events[..i];
        if next < events[i].sequence {
          next := events[i].sequence;
        }
      }
      assert events[..|events|] == events;
      events := events + [Event(next + 1, fact)];
    }

    method TransitionMission(next: PlanState, f: MissionFields) returns (error: Option<JournalError>)
      modifies this
      ensures error.None? ==> AfterTransitionMission(old(State()), next, f) == Ok(State())
      ensures error.Some? ==>
                AfterTransitionMission(old(State()), next, f) == Err(error.value) && State() == old(State())
    {
      var current := mission.status;
      if next !in PlanSuccessors(current) {
        return Some(InvalidPlanTransition);
      }
      mission := WithFields(mission, f).(status := next);
      AppendEvent(PlanFact(current, next));
      error := None;
    }

    method UpdateMission(f: MissionFields)
      modifies this
      ensures State() == AfterUpdateMission(old(State()), f)
    {
      mission := WithFields(mission, f);
      AppendEvent(MissionFact(Some(mission.status), mission.status));
    }

    method TransitionNode(id: string, next: NodeState, f: NodeFields) returns (error: Option<JournalError>)
      modifies this
      ensures error.None? ==> AfterTransitionNode(old(State()), id, next, f) == Ok(State())
      ensures error.Some? ==>
                AfterTransitionNode(old(State()), id, next, f) == Err(error.value) && State() == old(State())
    {
      if id !in nodes {
        return Some(NodeNotFound);
      }
      var row := nodes[id];
      if next !in NodeSuccessors(row.state) {
        return Some(InvalidNodeTransition);
      }
      nodes := nodes[id := row.(state := next, attempts := Or(f.attempts, row.attempts),
                                finding := OrKeep(f.finding, row.finding))];
      AppendEvent(NodeFact(id, row.state, next));
      error := None;
    }

    method AppendNodeAuditEvent(id: string, f: NodeFields) returns (error: Option<JournalError>)
      modifies this
      ensures error.None? ==> AfterAuditNode(old(State()), id, f) == Ok(State())
      ensures error.Some? ==> AfterAuditNode(old(State()), id, f) == Err(error.value) && State() == old(State())
    {
      if id !in nodes {
        return Some(NodeNotFound);
      }
      var row := nodes[id];
      nodes := nodes[id := row.(attempts := Or(f.attempts, row.attempts), finding := OrKeep(f.finding, row.finding))];
      AppendEvent(NodeFact(id, row.state, row.state));
      error := None;
    }
  }

  // ---------------------------------------------------------------------
  // The log is the state
  // ---------------------------------------------------------------------

  /** What a reader of the log alone believes; None status is "not yet compiled". */
  datatype View = View(status: Option<PlanState>, nodes: map<string, NodeState>)

  function InitialView(plan: Dependencies): View {
    View(None, map id | id in plan :: InitialState(plan[id]))
  }

  /** Reads one fact; None when it contradicts the view or leaves the state machines. */
  function Read(v: View, fact: Fact): Option<View> {
    match fact
    case MissionFact(previous, next) =>
      if previous == v.status && (if previous.None? then next == Compiled else previous == Some(next))
      then Some(v.(status := Some(next))) else None
    case PlanFact(previous, next) =>
      if v.status == Some(previous) && next in PlanSuccessors(previous)
      then Some(v.(status := Some(next))) else None
    case NodeFact(node, from, to) =>
      if node in v.nodes && v.nodes[node] == from && (to in NodeSuccessors(from) || to == from)
      then Some(v.(nodes := v.nodes[node := to])) else None
  }

  /** Replays a log whose sequences must be 1, 2, 3, ... with no gap. */
  function Replay(v: View, events: seq<Event>): Option<View> {
    if events == [] then Some(v)
    else
      var last := |events| - 1;
      var before := Replay(v, events[..last]);
      if before.None? || events[last].sequence != last + 1 then None
      else Read(before.value, events[last].fact)
  }

  function Stored(j: Journal): View {
    View(Some(j.mission.status), map id | id in j.nodes :: j.nodes[id].state)
  }

  ghost predicate LogIsState(plan: Dependencies, j: Journal) {
    Replay(InitialView(plan), j.events) == Some(Stored(j))
  }

  lemma {:induction false} ReplayableIsGapless(v: View, events: seq<Event>)
    requires Replay(v, events).Some?
    ensures forall i | 0 <= i < |events| :: events[i].sequence == i + 1
    ensures MaxSequence(events) == |events|
  {
    if events != [] {
      ReplayableIsGapless(v, events[..|events| - 1]);
    }
  }

  lemma InsertedLogIsState(plan: Dependencies)
    ensures LogIsState(plan, Inserted(plan))
  {
    var v, events := InitialView(plan), Inserted(plan).events;
    assert events[..1] == [events[0]] && events[..1][..0] == [];
    assert Replay(v, events[..1]) == Some(v.(status := Some(Compiled)));
    assert Stored(Inserted(plan)).nodes == v.nodes;
  }

  lemma AppendKeepsLog(plan: Dependencies, j: Journal, fact: Fact, after: Journal)
    requires LogIsState(plan, j) && after.events == Appended(j.events, fact)
    requires Read(Stored(j), fact) == Some(Stored(after))
    ensures LogIsState(plan, after)
  {
    ReplayableIsGapless(InitialView(plan), j.events);
    assert after.events[..|after.events| - 1] == j.events;
  }

  /** Every savepoint of the journal keeps the log equal to the state. */
  lemma MissionSavepointsKeepLog(plan: Dependencies, j: Journal, next: PlanState, f: MissionFields)
    requires LogIsState(plan, j)
    ensures LogIsState(plan, AfterUpdateMission(j, f))
    ensures AfterTransitionMission(j, next, f).Ok? ==> LogIsState(plan, AfterTransitionMission(j, next, f).value)
  {
    AppendKeepsLog(plan, j, MissionFact(Some(j.mission.status), j.mission.status), AfterUpdateMission(j, f));
    if AfterTransitionMission(j, next, f).Ok? {
      AppendKeepsLog(plan, j, PlanFact(j.mission.status, next), AfterTransitionMission(j, next, f).value);
    }
  }

  lemma NodeSavepointsKeepLog(plan: Dependencies, j: Journal, id: string, next: NodeState, f: NodeFields)
    requires LogIsState(plan, j)
    ensures AfterTransitionNode(j, id, next, f).Ok? ==> LogIsState(plan, AfterTransitionNode(j, id, next, f).value)
    ensures AfterAuditNode(j, id, f).Ok? ==> LogIsState(plan, AfterAuditNode(j, id, f).value)
  {
    if AfterTransitionNode(j, id, next, f).Ok? {
      var after := AfterTransitionNode(j, id, next, f).value;
      assert Stored(after).nodes == Stored(j).nodes[id := next];
      AppendKeepsLog(plan, j, NodeFact(id, j.nodes[id].state, next), after);
    }
    if AfterAuditNode(j, id, f).Ok? {
      var after := AfterAuditNode(j, id, f).value;
      assert Stored(after).nodes == Stored(j).nodes[id := j.nodes[id].state];
      AppendKeepsLog(plan, j, NodeFact(id, j.nodes[id].state, j.nodes[id].state), after);
    }
  }

  lemma {:induction false} ReplayPrefix(v: View, events: seq<Event>, k: nat)
    requires k <= |events| && Replay(v, events).Some?
    ensures Replay(v, events[..k]).Some?
  {
    if k < |events| {
      var front := events[..|events| - 1];
      assert front[..k] == events[..k];
      ReplayPrefix(v, front, k);
    } else {
      assert events[..k] == events;
    }
  }

  /** A terminal node or plan state, once in the log, is the state at every later point. */
  lemma {:induction false} TerminalStatesAreFinal(v: View, events: seq<Event>, k: nat, id: string)
    requires k <= |events| && Replay(v, events).Some? && Replay(v, events[..k]).Some?
    ensures
      var at, end := Replay(v, events[..k]).value, Replay(v, events).value;
      && (id in at.nodes ==> id in end.nodes)
      && (id in at.nodes && TerminalNode(at.nodes[id]) ==> end.nodes[id] == at.nodes[id])
      && (at.status.Some? && TerminalPlan(at.status.value) ==> end.status == at.status)
  {
    if k < |events| {
      var front := events[..|events| - 1];
      assert front[..k] == events[..k];
      TerminalStatesAreFinal(v, front, k, id);
    } else {
      assert events[..k] == events;
    }
  }

  // ---------------------------------------------------------------------
  // Parallelism from the log
  // ---------------------------------------------------------------------

  function RunningIn(v: View): set<string> {
    set id | id in v.nodes && v.nodes[id] == Running
  }

  ghost predicate NoRunningAudit(events: seq<Event>) {
    forall i | 0 <= i < |events| ::
      !(events[i].fact.NodeFact? && events[i].fact.from == Running && events[i].fact.to == Running)
  }

  /** What one event does to the running set, in the log reader's terms. */
  lemma RunningSetMoves(v: View, fact: Fact)
    requires Read(v, fact).Some?
    requires !(fact.NodeFact? && fact.from == Running && fact.to == Running)
    ensures
      var before, after := RunningIn(v), RunningIn(Read(v, fact).value);
      if fact.NodeFact? && fact.to == Running then fact.node !in before && after == before + {fact.node}
      else if fact.NodeFact? && fact.from == Running then fact.node in before && after == before - {fact.node}
      else after == before
  {
  }

  /** The nodes running after the first `k` events of a replayable log. */
  ghost function RunningAt(v: View, events: seq<Event>, k: nat): set<string>
    requires k <= |events| && Replay(v, events).Some?
  {
    ReplayPrefix(v, events, k);
    RunningIn(Replay(v, events[..k]).value)
  }

  lemma RunningAtMoves(v: View, events: seq<Event>, i: nat)
    requires i < |events| && Replay(v, events).Some? && NoRunningAudit(events)
    ensures
      var before, after, fact := RunningAt(v, events, i), RunningAt(v, events, i + 1), events[i].fact;
      if fact.NodeFact? && fact.to == Running then |after| == |before| + 1
      else if fact.NodeFact? && fact.from == Running then |before| > 0 && |after| == |before| - 1
      else after == before
  {
    ReplayPrefix(v, events, i);
    ReplayPrefix(v, events, i + 1);
    assert events[..i + 1][..i] == events[..i];
    RunningSetMoves(Replay(v, events[..i]).value, events[i].fact);
  }

  /**
   The peak computed from the log is the largest number of nodes running after
   any prefix of it, and its clamp at zero never acts.
   */
  method ObservedParallelism(ghost plan: Dependencies, events: seq<Event>) returns (peak: nat)
    requires Replay(InitialView(plan), events).Some? && NoRunningAudit(events)
    ensures forall k | 0 <= k <= |events| :: |RunningAt(InitialView(plan), events, k)| <= peak
    ensures exists k :: 0 <= k <= |events| && peak == |RunningAt(InitialView(plan), events, k)|
  {
    ghost var v := InitialView(plan);
    assert RunningAt(v, events, 0) == {};
    var current := 0;
    peak := 0;
    for i := 0 to |events|
      invariant current == |RunningAt(v, events, i)|
      invariant forall k | 0 <= k <= i :: |RunningAt(v, events, k)| <= peak
      invariant exists k :: 0 <= k <= i && peak == |RunningAt(v, events, k)|
    {
      RunningAtMoves(v, events, i);
      if events[i].fact.NodeFact? {
        if events[i].fact.to == Running {
          current := current + 1;
          peak := if peak < current then current else peak;
        } else if events[i].fact.from == Running {
          assert current > 0;
          current := if current - 1 < 0 then 0 else current - 1;
        }
      }
    }
  }
}
