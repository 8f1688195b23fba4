/**
 The consequential node of a live exception mission: claim, worker, connector,
 commit, and its recovery by reconcile and resume, under arbitrary interleaving
 of processes and crashes.
 */
module ExceptionRecovery {
  import opened Prelude
  import opened ExceptionContract
  import opened PlanJournal
  import opened NodeRecovery
  import Claims = WorkerClaims
  import Connector = SimulatedConnector

  /** The approved action: what was observed, what is desired, and the derived key. */
  datatype Contract = Contract(
    targetId: string, observed: Connector.StateDigest, desired: seq<Field>, actionKey: string,
    nodeKey: string, executionHash: string)

  function RequestOf(c: Contract): Connector.Request {
    Connector.Request(Connector.WRITE_CAPABILITY, c.targetId, c.observed,
                      CompiledPayload(c.observed.fields, c.desired), c.actionKey)
  }

  /** The apply node asks the connector, and has a simulated external effect. */
  function ProfileOf(c: Contract): Profile {
    Profile(c.nodeKey, ConnectorLookup, Some(SimulatedExternal), false)
  }

  function DownstreamOf(c: Contract, store: Connector.Store): Downstream {
    Downstream(true, store.actions.Keys, Some(c.actionKey), false)
  }

  // ---------------------------------------------------------------------
  // The apply worker
  // ---------------------------------------------------------------------

  /** Durable candidate bytes: a rendered contract with the hash text stored beside it, or anything else. */
  datatype Candidate = Rendered(contract: Contract, actionContractHash: string) | OtherBytes(text: string)

  /** The approved hash, as an injective digest of the candidate bytes. */
  datatype CandidateHash = CandidateHash(bytes: Candidate)

  datatype WorkerResult = Succeeded | Failed | Denied

  /**
   The bytes are the approved ones, and the contract hash they store, which is
   compared and not computed again, is the one the node was asked to apply.
   */
  predicate MayApply(candidate: Option<Candidate>, approved: CandidateHash, asked: string) {
    && candidate.Some? && CandidateHash(candidate.value) == approved
    && candidate.value.Rendered? && candidate.value.actionContractHash == asked
  }

  class ConnectorApplyWorker {
    const connector: Connector.Connector

    constructor (connector: Connector.Connector)
      ensures this.connector == connector
    {
      this.connector := connector;
    }

    /**
     Re-hashes the durable bytes against the approval, asks the connector whether
     the key already landed, and only then applies. Nothing reaches the connector
     but the request of the very contract that was approved and asked for.
     */
    method Execute(
      candidate: Option<Candidate>, intake: bool, approved: CandidateHash, asked: string, interrupt: bool)
      returns (result: WorkerResult)
      modifies connector
      ensures result == Succeeded || connector.store != old(connector.store) ==>
                intake && MayApply(candidate, approved, asked)
      ensures result == Succeeded || connector.store != old(connector.store) ==>
                && approved == CandidateHash(candidate.value)
                && exists c :: candidate == Some(Rendered(c, asked)) && c.actionKey in connector.store.actions
      ensures (intake && candidate.Some? && approved == CandidateHash(candidate.value)
               && candidate.value.Rendered? && candidate.value.actionContractHash == asked) ==> result != Denied
      ensures intake && candidate.Some? && CandidateHash(candidate.value) != approved ==> result == Denied
      ensures intake && MayApply(candidate, approved, asked) ==>
                var c := candidate.value.contract;
                && (result == Succeeded ==> c.actionKey in connector.store.actions)
                && (c.actionKey in old(connector.store).actions ==>
                      result == Succeeded && connector.store == old(connector.store))
                && (c.actionKey !in old(connector.store).actions ==>
                      && connector.store == Connector.StoreAfter(old(connector.store), RequestOf(c))
                      && (result == Succeeded <==>
                            Connector.Apply(old(connector.store), RequestOf(c)).Ok? && !interrupt))
    {
      if candidate.None? || !intake {
        return Failed;
      }
      if CandidateHash(candidate.value) != approved {
        return Denied;
      }
      if !candidate.value.Rendered? {
        return Failed;
      }
      var contract := candidate.value.contract;
      if candidate.value.actionContractHash != asked {
        return Denied;
      }
      var existing := connector.ReadAction(contract.actionKey);
      if existing.Some? {
        return Succeeded;
      }
      var applied := connector.ApplyRequest(RequestOf(contract), interrupt);
      result := if applied.Ok? then Succeeded else Failed;
    }
  }

  // ---------------------------------------------------------------------
  // Every interleaving
  // ---------------------------------------------------------------------

  /** Where one execution of the node stands. */
  datatype Phase =
    | Claimed
    | Asked
    | WorkerDone(result: WorkerResult)
    | Returning(outcome: Returned)

  datatype Returned = ReturnedSuccess | ReturnedFailure | ReturnedUnavailable

  /**
   `running` are the executions under way, any number of them in one process;
   `writes` counts the connector writes performed under the compiled action key;
   `retiring` are the claims that reconciling processes have read and not yet retired.
   */
  datatype World = World(
    fleet: Claims.Fleet, store: Connector.Store, node: NodeView, running: map<nat, Phase>,
    retiring: map<nat, Claims.ClaimIdentity>, writes: nat)

  datatype Move =
    | OpenNode
    | Lease
    | StartExecution(execution: nat, process: nat, token: string, now: string)
    | AskConnector(execution: nat)
    | RefuseAction(execution: nat)
    | ApplyAction(execution: nat, interrupt: bool)
    | RecordResult(execution: nat, process: nat, payload: string, now: string)
    | CommitResult(execution: nat)
    | ReconcileRead(process: nat, expired: bool, providerCall: bool)
    | ReconcileFinish(process: nat)
    | ResumeMove
    | StopMove
    | ReleaseClaim(process: nat)
    | CrashProcess(process: nat, executions: set<nat>)
    | OtherRequest(q: Connector.Request)

  function Transitioned(node: NodeView, next: NodeState): NodeView {
    if next in NodeSuccessors(node.state) then node.(state := next) else node
  }

  function StatusText(r: WorkerResult): string {
    match r
    case Succeeded => "succeeded"
    case Failed => "failed"
    case Denied => "denied"
  }

  /** What the runtime returns for a claim it was not granted. */
  function NotGranted(rows: Claims.Rows, key: string, reply: Claims.ClaimReply): Returned {
    if reply == Claims.AlreadyRecorded then
      if key in rows && rows[key].outcome.Some? && rows[key].outcome.value.status == StatusText(Succeeded)
      then ReturnedSuccess else ReturnedFailure
    else if reply == Claims.InFlight then ReturnedUnavailable
    else ReturnedFailure
  }

  function CommittedState(r: Returned): NodeState {
    match r
    case ReturnedSuccess => Completed
    case ReturnedFailure => FailedRecoverable
    case ReturnedUnavailable => ReconciliationRequired
  }

  function Sent(w: World, c: Contract, q: Connector.Request): World {
    w.(store := Connector.StoreAfter(w.store, q),
       writes := w.writes + (if q.idempotencyKey == c.actionKey && Connector.Performs(w.store, q) then 1 else 0))
  }

  function Begins(c: Contract, w: World, m: Move): Begun
    requires m.ReconcileRead?
  {
    Begin(w.fleet.rows, w.node.state, DownstreamOf(c, w.store), ProfileOf(c), m.expired, m.providerCall)
  }

  function Moved(c: Contract, w: World, m: Move): World {
    match m
    case OpenNode => w.(node := Transitioned(w.node, Ready))
    case Lease => w.(node := Transitioned(w.node, Running))
    case StartExecution(x, p, token, now) =>
      if x in w.running then w
      else
        var id := Claims.ClaimIdentity(c.nodeKey, c.executionHash, token, now);
        var (l, reply) := Claims.AfterClaim(Claims.Local(w.fleet.rows, w.fleet.HeldBy(p)), id);
        w.(fleet := w.fleet.With(p, l),
           running := w.running[x := if reply == Claims.Claimed then Claimed
                                     else Returning(NotGranted(w.fleet.rows, c.nodeKey, reply))])
    case AskConnector(x) =>
      if x !in w.running || w.running[x] != Claimed then w
      else w.(running := w.running[x := if c.actionKey in w.store.actions then WorkerDone(Succeeded) else Asked])
    case RefuseAction(x) =>
      if x !in w.running || w.running[x] != Claimed then w
      else w.(running := w.running[x := WorkerDone(Denied)])
    case ApplyAction(x, interrupt) =>
      if x !in w.running || w.running[x] != Asked then w
      else
        var q := RequestOf(c);
        var ok := Connector.Apply(w.store, q).Ok? && !(interrupt && Connector.Performs(w.store, q));
        Sent(w, c, q).(running := w.running[x := WorkerDone(if ok then Succeeded else Failed)])
    case RecordResult(x, p, payload, now) =>
      if x !in w.running || !w.running[x].WorkerDone? then w
      else
        var result := w.running[x].result;
        var (l, reply) := Claims.AfterRecord(
          Claims.Local(w.fleet.rows, w.fleet.HeldBy(p)), c.nodeKey, c.executionHash,
          Claims.WorkerOutcome(StatusText(result), payload, now));
        w.(fleet := w.fleet.With(p, l),
           running := w.running[x := Returning(
             if reply != Claims.Recorded then ReturnedUnavailable
             else if result == Succeeded then ReturnedSuccess else ReturnedFailure)])
    case CommitResult(x) =>
      if x !in w.running || !w.running[x].Returning? then w
      else w.(node := Transitioned(w.node, CommittedState(w.running[x].outcome)), running := w.running - {x})
    case ReconcileRead(p, expired, providerCall) =>
      var begun := Begins(c, w, m);
      if begun.NothingAmbiguous? then w
      else
        var state := AmbiguousState(ProfileOf(c), w.node.state).value;
        if begun.Decided? then w.(node := NodeView(state, Some(begun.finding)))
        else w.(node := w.node.(state := state), retiring := w.retiring[p := begun.claim])
    case ReconcileFinish(p) =>
      if p !in w.retiring then w
      else
        var (l, finding) := Finish(Claims.Local(w.fleet.rows, w.fleet.HeldBy(p)), w.retiring[p]);
        w.(fleet := w.fleet.With(p, l), node := w.node.(finding := Some(finding)), retiring := w.retiring - {p})
    case ResumeMove =>
      w.(node := AfterResumeNode(w.node, w.fleet.rows, DownstreamOf(c, w.store), ProfileOf(c)).0)
    case StopMove => w.(node := Transitioned(w.node, FailedTerminal))
    case ReleaseClaim(p) =>
      w.(fleet := w.fleet.With(p, Claims.AfterRelease(Claims.Local(w.fleet.rows, w.fleet.HeldBy(p)), c.nodeKey).0))
    case CrashProcess(p, lost) =>
      w.(fleet := w.fleet.(stores := w.fleet.stores - {p}), running := w.running - lost, retiring := w.retiring - {p})
    case OtherRequest(q) => if q.idempotencyKey == c.actionKey then w else Sent(w, c, q)
  }

  /** The node is blocked, nothing runs, and the connector holds seeded records and other actions only. */
  predicate Initial(c: Contract, w: World) {
    && w.fleet == Claims.EMPTY_FLEET && w.node == NodeView(Blocked, None) && w.running == map[] && w.retiring == map[]
    && w.writes == 0
    && Connector.WellKeyed(w.store) && c.actionKey !in w.store.actions
  }

  function After(c: Contract, start: World, moves: seq<Move>): World {
    if moves == [] then start
    else Moved(c, After(c, start, moves[..|moves| - 1]), moves[|moves| - 1])
  }

  predicate Landed(c: Contract, w: World) {
    c.actionKey in w.store.actions
  }

  /** Whoever believes the action succeeded can point at it on the connector's books. */
  ghost predicate SuccessIsLanded(c: Contract, w: World) {
    && (w.node.state == Completed ==> Landed(c, w))
    && ((Claims.HasOutcome(w.fleet.rows, c.nodeKey)
         && w.fleet.rows[c.nodeKey].outcome.value.status == StatusText(Succeeded)) ==> Landed(c, w))
    && (forall x | x in w.running ::
          w.running[x] in {WorkerDone(Succeeded), Returning(ReturnedSuccess)} ==> Landed(c, w))
  }

  /** The one landed action is the approved one, written over exactly the observed state. */
  ghost predicate LandedAsApproved(c: Contract, w: World) {
    Landed(c, w) ==>
      var action := w.store.actions[c.actionKey];
      && action.idempotencyKey == c.actionKey && action.targetId == c.targetId
      && action.preState == c.observed
      && action.postState == Connector.ObservationDigest(
           c.targetId, c.observed.revision + 1, Resolved(c.observed.fields, c.desired))
  }

  ghost predicate WritesCounted(c: Contract, w: World) {
    && Connector.WellKeyed(w.store)
    && w.writes == (if Landed(c, w) then 1 else 0)
  }

  ghost predicate WorldInv(c: Contract, w: World) {
    && SuccessIsLanded(c, w) && LandedAsApproved(c, w) && WritesCounted(c, w)
    && Claims.RecordedIsUnowned(w.fleet.rows) && Claims.HeldUnderOwnKey(w.fleet)
  }

  lemma SendingKeepsBooks(c: Contract, w: World, q: Connector.Request)
    requires LandedAsApproved(c, w) && WritesCounted(c, w)
    requires q.idempotencyKey == c.actionKey ==> q == RequestOf(c)
    ensures LandedAsApproved(c, Sent(w, c, q)) && WritesCounted(c, Sent(w, c, q))
    ensures Landed(c, w) ==> Landed(c, Sent(w, c, q))
    ensures q == RequestOf(c) && Connector.Apply(w.store, q).Ok? ==> Landed(c, Sent(w, c, q))
  {
  }

  lemma ApplyKeepsInv(c: Contract, w: World, m: Move)
    requires WorldInv(c, w) && m.ApplyAction?
    ensures WorldInv(c, Moved(c, w, m))
  {
    SendingKeepsBooks(c, w, RequestOf(c));
  }

  lemma OtherRequestKeepsInv(c: Contract, w: World, m: Move)
    requires WorldInv(c, w) && m.OtherRequest?
    ensures WorldInv(c, Moved(c, w, m))
  {
    if m.q.idempotencyKey != c.actionKey {
      SendingKeepsBooks(c, w, m.q);
    }
  }

  lemma WorkerMoveKeepsInv(c: Contract, w: World, m: Move)
    requires WorldInv(c, w) && (m.AskConnector? || m.RefuseAction?)
    ensures WorldInv(c, Moved(c, w, m))
  {
  }

  lemma StartKeepsInv(c: Contract, w: World, m: Move)
    requires WorldInv(c, w) && m.StartExecution?
    ensures WorldInv(c, Moved(c, w, m))
  {
  }

  lemma RecordKeepsInv(c: Contract, w: World, m: Move)
    requires WorldInv(c, w) && m.RecordResult?
    ensures WorldInv(c, Moved(c, w, m))
  {
  }

  lemma EndMoveKeepsInv(c: Contract, w: World, m: Move)
    requires WorldInv(c, w) && (m.ReleaseClaim? || m.CrashProcess?)
    ensures WorldInv(c, Moved(c, w, m))
  {
  }

  lemma FinishKeepsInv(c: Contract, w: World, m: Move)
    requires WorldInv(c, w) && m.ReconcileFinish?
    ensures WorldInv(c, Moved(c, w, m))
  {
  }

  lemma NodeMoveKeepsInv(c: Contract, w: World, m: Move)
    requires WorldInv(c, w)
    requires m.OpenNode? || m.Lease? || m.CommitResult? || m.ResumeMove? || m.StopMove? || m.ReconcileRead?
    ensures WorldInv(c, Moved(c, w, m))
  {
  }

  lemma {:induction false} InvAlways(c: Contract, start: World, moves: seq<Move>)
    requires Initial(c, start)
    ensures WorldInv(c, After(c, start, moves))
  {
    if moves != [] {
      var front, m := moves[..|moves| - 1], moves[|moves| - 1];
      InvAlways(c, start, front);
      var w := After(c, start, front);
      if m.ApplyAction? {
        ApplyKeepsInv(c, w, m);
      } else if m.OtherRequest? {
        OtherRequestKeepsInv(c, w, m);
      } else if m.AskConnector? || m.RefuseAction? {
        WorkerMoveKeepsInv(c, w, m);
      } else if m.StartExecution? {
        StartKeepsInv(c, w, m);
      } else if m.RecordResult? {
        RecordKeepsInv(c, w, m);
      } else if m.ReleaseClaim? || m.CrashProcess? {
        EndMoveKeepsInv(c, w, m);
      } else if m.ReconcileFinish? {
        FinishKeepsInv(c, w, m);
      } else {
        NodeMoveKeepsInv(c, w, m);
      }
    }
  }

  /**
   Exactly one external action. Over every interleaving of leases, executions,
   crashes, interrupted applies, reconciles and resumes, the connector performs
   at most one write under the compiled key, and once the node is completed it
   has performed exactly one: the approved action, over the observed state,
   leaving every desired field set.
   */
  lemma ExactlyOneExternalAction(c: Contract, start: World, moves: seq<Move>)
    requires Initial(c, start) && UniqueNames(c.desired)
    ensures After(c, start, moves).writes <= 1
    ensures After(c, start, moves).node.state == Completed ==>
              && After(c, start, moves).writes == 1
              && c.actionKey in After(c, start, moves).store.actions
              && var action := After(c, start, moves).store.actions[c.actionKey];
                 && action.preState == c.observed
                 && DesiredHolds(action.postState.fields, c.desired)
                 && forall name | (forall f | f in c.desired :: f.name != name) ::
                      Lookup(action.postState.fields, name) == Lookup(c.observed.fields, name)
  {
    InvAlways(c, start, moves);
    WriteClosesDelta(c.observed.fields, c.desired);
    forall name | forall f | f in c.desired :: f.name != name
      ensures Lookup(Resolved(c.observed.fields, c.desired), name) == Lookup(c.observed.fields, name)
    {
      PayloadResolvesDelta(c.observed.fields, c.desired, name);
    }
  }

  /**
   A reconcile that finds no worker result, or goes on to retire the claim, has
   read books without the action: nothing has been written under its key. One
   that finds the result has read the one write.
   */
  lemma NoResultMeansNotWritten(
    c: Contract, start: World, moves: seq<Move>, p: nat, expired: bool, providerCall: bool)
    requires Initial(c, start)
    ensures var w := After(c, start, moves);
      var begun := Begins(c, w, Move.ReconcileRead(p, expired, providerCall));
      && (begun == Decided(NoWorkerResult) || begun.Retiring? ==> w.writes == 0)
      && (begun == Decided(WorkerResultFound) ==> w.writes == 1)
  {
    InvAlways(c, start, moves);
  }

  // ---------------------------------------------------------------------
  // Runs that get there
  // ---------------------------------------------------------------------

  lemma AfterOneMore(c: Contract, start: World, moves: seq<Move>, m: Move)
    ensures After(c, start, moves + [m]) == Moved(c, After(c, start, moves), m)
  {
    assert (moves + [m])[..|moves + [m]| - 1] == moves;
  }

  /** The connector holds the observed record still, and the action may write every desired field. */
  predicate Performable(c: Contract, store: Connector.Store) {
    && c.actionKey !in store.actions && c.targetId in store.records
    && Connector.RecordStateHash(store.records[c.targetId]) == c.observed
    && forall f | f in CompiledPayload(c.observed.fields, c.desired) :: f.name in {"reconciledAmount", "status"}
  }

  /** Opened, leased, claimed, asked: the first four moves of an execution, in a process that then stands at `Asked`. */
  function Opening(token: string, now: string): seq<Move> {
    [Move.OpenNode, Move.Lease, Move.StartExecution(0, 0, token, now), Move.AskConnector(0)]
  }

  lemma OpeningAsks(c: Contract, start: World, token: string, now: string)
    requires Initial(c, start)
    ensures var w := After(c, start, Opening(token, now));
      && w.running == map[0 := Asked] && w.node == NodeView(Running, None)
      && w.store == start.store && w.writes == 0 && w.retiring == map[]
      && w.fleet.rows == map[c.nodeKey := Claims.WorkerRow(c.executionHash, Some(token), Some(now), None)]
      && w.fleet.HeldBy(0) == map[c.nodeKey := Claims.ClaimIdentity(c.nodeKey, c.executionHash, token, now)]
  {
    AfterOneMore(c, start, [], Move.OpenNode);
    AfterOneMore(c, start, [] + [Move.OpenNode], Move.Lease);
    AfterOneMore(c, start, [] + [Move.OpenNode] + [Move.Lease], Move.StartExecution(0, 0, token, now));
    AfterOneMore(c, start, [] + [Move.OpenNode] + [Move.Lease] + [Move.StartExecution(0, 0, token, now)],
                 Move.AskConnector(0));
    assert Opening(token, now) == [] + [Move.OpenNode] + [Move.Lease] + [Move.StartExecution(0, 0, token, now)]
                                  + [Move.AskConnector(0)];
  }

  /** The apply that follows lands, whether or not the process lives to hear it. */
  lemma OpeningApplies(c: Contract, start: World, token: string, now: string, interrupt: bool)
    requires Initial(c, start) && Performable(c, start.store)
    ensures var asked := After(c, start, Opening(token, now));
      After(c, start, Opening(token, now) + [Move.ApplyAction(0, interrupt)])
      == asked.(store := Connector.StoreAfter(start.store, RequestOf(c)), writes := 1,
                  running := map[0 := WorkerDone(if interrupt then Failed else Succeeded)])
    ensures c.actionKey in Connector.StoreAfter(start.store, RequestOf(c)).actions
    ensures var store := Connector.StoreAfter(start.store, RequestOf(c));
      c.targetId in store.records && store.records[c.targetId].fields == Resolved(c.observed.fields, c.desired)
  {
    OpeningAsks(c, start, token, now);
    AfterOneMore(c, start, Opening(token, now), Move.ApplyAction(0, interrupt));
    Connector.ApplyAnswers(start.store, RequestOf(c));
    Connector.StoreMoves(start.store, RequestOf(c));
  }

  /** An execution that is not interrupted completes the node with its one write. */
  lemma UninterruptedRunCompletes(c: Contract, start: World, token: string, now: string, payload: string)
    requires Initial(c, start) && Performable(c, start.store) && UniqueNames(c.desired)
    ensures var applied := Opening(token, now) + [Move.ApplyAction(0, false)];
      var w := After(c, start, applied + [Move.RecordResult(0, 0, payload, now)] + [Move.CommitResult(0)]);
      && w.node.state == Completed && w.writes == 1 && w.running == map[]
      && c.nodeKey in w.fleet.rows
      && w.fleet.rows[c.nodeKey].outcome == Some(Claims.WorkerOutcome("succeeded", payload, now))
      && c.targetId in w.store.records && DesiredHolds(w.store.records[c.targetId].fields, c.desired)
  {
    OpeningAsks(c, start, token, now);
    OpeningApplies(c, start, token, now, false);
    var applied := Opening(token, now) + [Move.ApplyAction(0, false)];
    AfterOneMore(c, start, applied, Move.RecordResult(0, 0, payload, now));
    RecordedThenCommitted(c, After(c, start, applied), token, now, payload);
    AfterOneMore(c, start, applied + [Move.RecordResult(0, 0, payload, now)], Move.CommitResult(0));
    WriteClosesDelta(c.observed.fields, c.desired);
  }

  lemma RecordedThenCommitted(c: Contract, w: World, token: string, now: string, payload: string)
    requires w.running == map[0 := WorkerDone(Succeeded)] && w.node == NodeView(Running, None)
    requires w.fleet.rows == map[c.nodeKey := Claims.WorkerRow(c.executionHash, Some(token), Some(now), None)]
    requires w.fleet.HeldBy(0) == map[c.nodeKey := Claims.ClaimIdentity(c.nodeKey, c.executionHash, token, now)]
    ensures var after := Moved(c, Moved(c, w, Move.RecordResult(0, 0, payload, now)), Move.CommitResult(0));
      && after.node.state == Completed && after.running == map[]
      && after.store == w.store && after.writes == w.writes
      && c.nodeKey in after.fleet.rows
      && after.fleet.rows[c.nodeKey].outcome == Some(Claims.WorkerOutcome("succeeded", payload, now))
  {
  }

  /**
   A process that dies right after the connector's durable change loses nothing:
   reconcile finds the action, and resume completes the node without a second write.
   */
  lemma CrashAfterWriteRecovers(
    c: Contract, start: World, token: string, now: string, p: nat, expired: bool, providerCall: bool)
    requires Initial(c, start) && Performable(c, start.store)
    ensures var crashed := Opening(token, now) + [Move.ApplyAction(0, true)] + [Move.CrashProcess(0, {0})];
      var read := crashed + [Move.ReconcileRead(p, expired, providerCall)];
      && After(c, start, crashed).node.state == Running && After(c, start, crashed).running == map[]
      && After(c, start, read).node == NodeView(ReconciliationRequired, Some(WorkerResultFound))
      && After(c, start, read + [Move.ResumeMove]).node.state == Completed
      && After(c, start, read + [Move.ResumeMove]).writes == 1
  {
    OpeningAsks(c, start, token, now);
    OpeningApplies(c, start, token, now, true);
    var applied := Opening(token, now) + [Move.ApplyAction(0, true)];
    AfterOneMore(c, start, applied, Move.CrashProcess(0, {0}));
    var crashed := applied + [Move.CrashProcess(0, {0})];
    AfterOneMore(c, start, crashed, Move.ReconcileRead(p, expired, providerCall));
    var read := crashed + [Move.ReconcileRead(p, expired, providerCall)];
    LandedIsFoundAndResumed(c, After(c, start, crashed), p, expired, providerCall);
    AfterOneMore(c, start, read, Move.ResumeMove);
  }

  /** Wherever a node stands running with its action on the books, reconcile and resume complete it. */
  lemma LandedIsFoundAndResumed(c: Contract, w: World, p: nat, expired: bool, providerCall: bool)
    requires c.actionKey in w.store.actions && w.node.state == Running
    ensures var read := Moved(c, w, Move.ReconcileRead(p, expired, providerCall));
      && read.node == NodeView(ReconciliationRequired, Some(WorkerResultFound)) && read.store == w.store
      && Moved(c, read, Move.ResumeMove).node.state == Completed
      && Moved(c, read, Move.ResumeMove).writes == w.writes
  {
  }

  /** What an execution that starts is told, from the row of its key alone. */
  lemma ExecutionStarts(c: Contract, w: World, x: nat, p: nat, token: string, now: string)
    requires x !in w.running
    ensures var after := Moved(c, w, Move.StartExecution(x, p, token, now));
      var there := c.nodeKey in w.fleet.rows;
      var same := there && w.fleet.rows[c.nodeKey].executionHash == c.executionHash;
      var recorded := same && w.fleet.rows[c.nodeKey].outcome.Some?
                      && w.fleet.rows[c.nodeKey].outcome.value.recordedAt != "";
      && x in after.running
      && (after.running[x] == Claimed <==>
            !there || (same && w.fleet.rows[c.nodeKey].claimOwner.None? && w.fleet.rows[c.nodeKey].outcome.None?))
      && (after.running[x] == Returning(ReturnedSuccess) <==>
            recorded && w.fleet.rows[c.nodeKey].outcome.value.status == "succeeded")
      && (after.running[x] == Returning(ReturnedUnavailable) <==>
            same && !recorded && w.fleet.rows[c.nodeKey].claimOwner.Some?
            && w.fleet.rows[c.nodeKey].claimOwner.value != "")
  {
  }

  /** A worker that has claimed asks before it acts, or refuses without asking; neither touches the connector. */
  lemma WorkerAsksOrRefuses(c: Contract, w: World, x: nat)
    requires x in w.running && w.running[x] == Claimed
    ensures var asked, refused := Moved(c, w, Move.AskConnector(x)), Moved(c, w, Move.RefuseAction(x));
      && asked == w.(running := asked.running) && refused == w.(running := refused.running)
      && asked.running == w.running[x := if c.actionKey in w.store.actions then WorkerDone(Succeeded) else Asked]
      && refused.running == w.running[x := WorkerDone(Denied)]
  {
  }

  /** What a returned execution makes of a running node. */
  lemma ExecutionCommits(c: Contract, w: World, x: nat)
    requires x in w.running && w.running[x].Returning? && w.node.state == Running
    ensures var after := Moved(c, w, Move.CommitResult(x));
      && x !in after.running && after.store == w.store && after.fleet == w.fleet
      && (after.node.state == Completed <==> w.running[x].outcome == ReturnedSuccess)
      && (after.node.state == FailedRecoverable <==> w.running[x].outcome == ReturnedFailure)
      && (after.node.state == ReconciliationRequired <==> w.running[x].outcome == ReturnedUnavailable)
  {
  }
}
