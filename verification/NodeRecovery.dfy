/**
 Reconcile and resume of one node, in every reconciliation mode: what is read,
 when an orphaned claim may be retired, and what a finding is worth while other
 processes claim, record, release and crash.
 */
module NodeRecovery {
  import opened Prelude
  import opened PlanJournal
  import Claims = WorkerClaims

  datatype Mode = WorkerRecordLookup | ArtifactLookup | ConnectorLookup | HumanDecisionLookup

  datatype SideEffect = NoSideEffect | LocalArtifact | SimulatedExternal | External

  /** What recovery reads of a node and never changes; a checkpoint has no side-effect class. */
  datatype Profile = Profile(key: string, mode: Mode, sideEffect: Option<SideEffect>, modelWorker: bool)

  /**
   What lies outside the record store: whether a connector that can be asked is
   bound, the keys on its books, the compiled action key, the artifact row.
   */
  datatype Downstream = Downstream(
    connectorReadable: bool, books: set<string>, actionKey: Option<string>, artifactWritten: bool)

  /** The journal columns of the node that recovery reads. */
  datatype NodeView = NodeView(state: NodeState, finding: Option<Finding>)

  predicate HasSideEffect(p: Profile) {
    p.sideEffect.Some? && p.sideEffect.value != NoSideEffect
  }

  /** The connector, asked for the compiled action, answers with it. */
  predicate ActionRead(d: Downstream) {
    d.actionKey.Some? && d.connectorReadable && d.actionKey.value in d.books
  }

  // ---------------------------------------------------------------------
  // Reconcile
  // ---------------------------------------------------------------------

  function Investigate(rows: Claims.Rows, d: Downstream, p: Profile): Finding {
    var recorded := Claims.ReadOutcome(rows, p.key).Some?;
    match p.mode
    case ConnectorLookup =>
      if ActionRead(d) then WorkerResultFound else if recorded then FindingConflict else NoWorkerResult
    case ArtifactLookup =>
      if d.artifactWritten then WorkerResultFound else if recorded then FindingConflict else NoWorkerResult
    case _ => if recorded then WorkerResultFound else NoWorkerResult
  }

  /** The state reconcile names before it investigates; None when nothing is ambiguous. */
  function AmbiguousState(p: Profile, s: NodeState): Option<NodeState> {
    if s == Running || s == ReconciliationRequired then Some(ReconciliationRequired)
    else if s == FailedRecoverable then Some(if HasSideEffect(p) then ReconciliationRequired else FailedRecoverable)
    else None
  }

  /** `expired`: the claim's bounded window has passed; `providerCall`: a model call is on record. */
  predicate NoUncertainEffect(d: Downstream, p: Profile, expired: bool, providerCall: bool) {
    && expired && !providerCall
    && ((p.sideEffect == Some(NoSideEffect) && !p.modelWorker) || (p.mode.ConnectorLookup? && d.connectorReadable))
  }

  /** What reconcile has after reading: a finding, or a claim it may retire. */
  datatype Begun = NothingAmbiguous | Decided(finding: Finding) | Retiring(claim: Claims.ClaimIdentity)

  function Begin(rows: Claims.Rows, state: NodeState, d: Downstream, p: Profile, expired: bool, providerCall: bool)
    : Begun
  {
    if AmbiguousState(p, state).None? then NothingAmbiguous
    else
      var claim, found := Claims.Inspect(rows, p.key), Investigate(rows, d, p);
      if found != NoWorkerResult || claim.None? then Decided(found)
      else if NoUncertainEffect(d, p, expired, providerCall) then Retiring(claim.value)
      else Decided(FindingConflict)
  }

  /** The retirement, from the table as it then stands; a lost one is classified by what took its place. */
  function Finish(l: Claims.Local, claim: Claims.ClaimIdentity): (Claims.Local, Finding) {
    var (after, retired) := Claims.AfterRetire(l, claim);
    var current := Claims.Snapshot(after.rows, claim.key);
    (after,
     if retired then NoWorkerResult
     else if Claims.ReadOutcome(after.rows, claim.key).Some? then WorkerResultFound
     else if current.Some? && Truthy(current.value.claimOwner) then FindingConflict
     else NoWorkerResult)
  }

  /** By its mode's own authority, as far as it can be asked, the node's effect has not happened. */
  predicate NotDone(d: Downstream, p: Profile) {
    match p.mode
    case ConnectorLookup => !ActionRead(d)
    case ArtifactLookup => !d.artifactWritten
    case _ => true
  }

  /** Nobody owns the key, nothing is recorded, and the next claim for the same execution is granted. */
  ghost predicate FreeToClaim(rows: Claims.Rows, key: string) {
    && !Claims.Active(rows, key) && !Claims.HasOutcome(rows, key)
    && forall l: Claims.Local, id: Claims.ClaimIdentity | l.rows == rows && id.key == key ::
         Claims.AfterClaim(l, id).1 == Claims.Claimed <==>
           (key in rows ==> rows[key].executionHash == id.executionHash)
  }

  /** The mode's own evidence that the node's effect happened or its result is recorded. */
  predicate EvidenceStands(rows: Claims.Rows, d: Downstream, p: Profile) {
    if p.mode == ConnectorLookup then d.connectorReadable && exists key | key in d.books :: d.actionKey == Some(key)
    else if p.mode == ArtifactLookup then d.artifactWritten
    else p.key in rows && rows[p.key].outcome.Some?
  }

  /** No live model call or side effect can still be under way in secret. */
  predicate SafeToRetire(d: Downstream, p: Profile, expired: bool, providerCall: bool) {
    && expired && !providerCall
    && ((p.sideEffect == Some(NoSideEffect) && !p.modelWorker) || (p.mode == ConnectorLookup && d.connectorReadable))
  }

  /** What reading answers, both ways: every finding stands for one situation of evidence, outcome and claim. */
  lemma ReadingAnswers(
    rows: Claims.Rows, state: NodeState, d: Downstream, p: Profile, expired: bool, providerCall: bool)
    requires Claims.RecordedIsUnowned(rows) && Claims.NoBlanks(rows, p.key)
    ensures var b := Begin(rows, state, d, p, expired, providerCall);
      var evidence := EvidenceStands(rows, d, p);
      var recorded, claimed := Claims.HasOutcome(rows, p.key), Claims.Active(rows, p.key);
      && (b == NothingAmbiguous <==> state !in {Running, ReconciliationRequired, FailedRecoverable})
      && (b != NothingAmbiguous ==>
            && (b == Decided(WorkerResultFound) <==> evidence)
            && (b == Decided(NoWorkerResult) <==> !evidence && !recorded && !claimed)
            && (b == Decided(FindingConflict) <==>
                  !evidence && (recorded || (claimed && !SafeToRetire(d, p, expired, providerCall))))
            && (b.Retiring? <==> !evidence && !recorded && claimed && SafeToRetire(d, p, expired, providerCall)))
  {
  }

  /** Reconcile leaves a pure node that failed where it is; every other ambiguous node it calls so. */
  lemma AmbiguityNamed(p: Profile, s: NodeState)
    ensures AmbiguousState(p, s) == Some(FailedRecoverable) <==>
      s == FailedRecoverable && p.sideEffect in {None, Some(NoSideEffect)}
    ensures AmbiguousState(p, s) == Some(ReconciliationRequired) <==>
      || s in {Running, ReconciliationRequired}
      || (s == FailedRecoverable
          && p.sideEffect in {Some(LocalArtifact), Some(SimulatedExternal), Some(External)})
    ensures AmbiguousState(p, s) == None <==> s !in {Running, ReconciliationRequired, FailedRecoverable}
  {
    if p.sideEffect.Some? {
      match p.sideEffect.value
      case NoSideEffect =>
      case LocalArtifact =>
      case SimulatedExternal =>
      case External =>
    }
  }

  /** What reading alone establishes. */
  lemma ReadingTellsTheTruth(
    rows: Claims.Rows, state: NodeState, d: Downstream, p: Profile, expired: bool, providerCall: bool)
    requires Claims.RecordedIsUnowned(rows) && Claims.NoBlanks(rows, p.key)
    ensures var b := Begin(rows, state, d, p, expired, providerCall);
      && (b == Decided(NoWorkerResult) ==> FreeToClaim(rows, p.key) && NotDone(d, p))
      && (b == Decided(WorkerResultFound) ==>
            if p.mode.ConnectorLookup? then ActionRead(d)
            else if p.mode.ArtifactLookup? then d.artifactWritten
            else Claims.HasOutcome(rows, p.key))
  {
  }

  /** A claim is put up for retirement exactly under the guard, and it is then the key's live one. */
  lemma RetiresExactlyUnderGuard(
    rows: Claims.Rows, state: NodeState, d: Downstream, p: Profile, expired: bool, providerCall: bool)
    requires Claims.RecordedIsUnowned(rows) && Claims.NoBlanks(rows, p.key)
    ensures var b := Begin(rows, state, d, p, expired, providerCall);
      && (b.Retiring? <==>
            && state in {Running, ReconciliationRequired, FailedRecoverable}
            && Claims.Active(rows, p.key) && NotDone(d, p)
            && expired && !providerCall
            && ((p.sideEffect == Some(NoSideEffect) && !p.modelWorker)
                || (p.mode.ConnectorLookup? && d.connectorReadable)))
      && (b.Retiring? ==> b.claim.key == p.key && Claims.Matches(rows, b.claim))
  {
  }

  /** The retirement clears the claim it names or nothing, and its finding is true of the table it leaves. */
  lemma FinishTellsTheTruth(l: Claims.Local, claim: Claims.ClaimIdentity)
    requires Claims.RecordedIsUnowned(l.rows) && Claims.NoBlanks(l.rows, claim.key)
    ensures var (after, finding) := Finish(l, claim);
      && after.rows == (if Claims.Matches(l.rows, claim) then Claims.Cleared(l.rows, claim.key) else l.rows)
      && (finding == NoWorkerResult <==> FreeToClaim(after.rows, claim.key))
      && (finding == WorkerResultFound <==> Claims.HasOutcome(after.rows, claim.key))
      && (finding == FindingConflict <==> Claims.Active(after.rows, claim.key))
  {
  }

  // ---------------------------------------------------------------------
  // Resume
  // ---------------------------------------------------------------------

  datatype ResumeReply = Resumed | ReconciliationNeeded | ConflictStands | TransitionRefused

  /** The node's own row after a resume; the plan moves only when this succeeds. */
  function AfterResumeNode(node: NodeView, rows: Claims.Rows, d: Downstream, p: Profile): (NodeView, ResumeReply) {
    if node.state == Running
       || (node.state == ReconciliationRequired && node.finding.None?)
       || (HasSideEffect(p) && node.finding.None? && node.state in {FailedRecoverable, FailedTerminal})
    then (node, ReconciliationNeeded)
    else if node.finding == Some(FindingConflict) then (node, ConflictStands)
    else if p.mode.ConnectorLookup? && node.finding == Some(WorkerResultFound) then
      if !ActionRead(d) then (node, ConflictStands)
      else if Completed !in NodeSuccessors(node.state) then (node, TransitionRefused)
      else (node.(state := Completed), Resumed)
    else if node.state == ReconciliationRequired && node.finding == Some(WorkerResultFound) then
      if Claims.ReadOutcome(rows, p.key).None? then (node, ConflictStands)
      else (node.(state := Completed), Resumed)
    else if node.state == ReconciliationRequired then (node.(state := FailedRecoverable), Resumed)
    else (node, Resumed)
  }

  function PlanAfterResume(plan: PlanState, reply: ResumeReply): PlanState {
    if reply == Resumed && plan in {PlanReconciliationRequired, PlanFailedRecoverable} then PlanRunning else plan
  }

  /**
   Resume guesses nothing: a node completes only on the evidence its mode asks
   for, read again; an ambiguous node is owed a new attempt exactly when
   reconcile found no result; anything else leaves its state alone.
   */
  lemma ResumeNeedsEvidence(node: NodeView, rows: Claims.Rows, d: Downstream, p: Profile)
    ensures var (after, reply) := AfterResumeNode(node, rows, d, p);
      && after.finding == node.finding
      && (after.state != node.state ==>
            reply == Resumed && after.state in {Completed, FailedRecoverable} && node.finding.Some?)
      && (after.state != node.state && after.state == Completed ==>
            node.finding == Some(WorkerResultFound)
            && (if p.mode.ConnectorLookup? then ActionRead(d) else Claims.HasOutcome(rows, p.key)))
      && (after.state != node.state && after.state == FailedRecoverable <==>
            node == NodeView(ReconciliationRequired, Some(NoWorkerResult)))
      && (after.state != node.state ==> after.state in NodeSuccessors(node.state))
  {
    match node.finding
    case None =>
    case Some(WorkerResultFound) =>
    case Some(NoWorkerResult) =>
    case Some(FindingConflict) =>
  }

  /** Who must reconcile first: a running node, an ambiguous one without a finding, a side effect that failed unread. */
  predicate MustReconcile(node: NodeView, p: Profile) {
    || node.state == Running
    || (node.finding.None? && node.state == ReconciliationRequired)
    || (node.finding.None? && (node.state == FailedRecoverable || node.state == FailedTerminal)
        && p.sideEffect.Some? && !p.sideEffect.value.NoSideEffect?)
  }

  /** What resume answers, both ways, and what it makes of the node. */
  lemma ResumeAnswers(node: NodeView, rows: Claims.Rows, d: Downstream, p: Profile)
    requires Claims.NoBlanks(rows, p.key)
    ensures var (after, reply) := AfterResumeNode(node, rows, d, p);
      var found, connector := node.finding == Some(WorkerResultFound), p.mode == ConnectorLookup;
      var asked := found && (connector || node.state == ReconciliationRequired);
      var evidence := if connector then EvidenceStands(rows, d, p) else Claims.HasOutcome(rows, p.key);
      && (reply == ReconciliationNeeded <==> MustReconcile(node, p))
      && (!MustReconcile(node, p) ==>
            && (reply == ConflictStands <==> node.finding == Some(FindingConflict) || (asked && !evidence))
            && (reply == TransitionRefused <==> connector && found && evidence && node.state != ReconciliationRequired)
            && (reply == Resumed && asked <==> found && evidence && node.state == ReconciliationRequired))
      && after.finding == node.finding
      && after.state == (if reply == Resumed && asked then Completed
                         else if reply == Resumed && node.state == ReconciliationRequired then FailedRecoverable
                         else node.state)
  {
    NodeTransitionsAllowed(node.state);
    match node.finding
    case None =>
    case Some(WorkerResultFound) =>
    case Some(NoWorkerResult) =>
    case Some(FindingConflict) =>
  }

  /** Only a resume that goes through sets a plan running again, and only one halted on recoverable trouble. */
  lemma ResumeRestartsHaltedPlans(plan: PlanState, reply: ResumeReply)
    ensures PlanAfterResume(plan, reply) ==
      match plan
      case PlanReconciliationRequired => (if reply == Resumed then PlanRunning else plan)
      case PlanFailedRecoverable => (if reply == Resumed then PlanRunning else plan)
      case _ => plan
    ensures PlanAfterResume(plan, reply) == plan || PlanAfterResume(plan, reply) in PlanSuccessors(plan)
  {
  }

  // ---------------------------------------------------------------------
  // The object
  // ---------------------------------------------------------------------

  class NodeRecoveryService {
    const recordStore: Claims.WorkerRecordStore
    const profile: Profile
    var node: NodeView
    var plan: PlanState

    constructor (recordStore: Claims.WorkerRecordStore, profile: Profile, node: NodeView, plan: PlanState)
      ensures this.recordStore == recordStore && this.profile == profile
      ensures this.node == node && this.plan == plan
    {
      this.recordStore, this.profile, this.node, this.plan := recordStore, profile, node, plan;
    }

    method InvestigateNode(d: Downstream) returns (finding: Finding)
      ensures finding == Investigate(recordStore.table.rows, d, profile)
    {
      if profile.mode == ConnectorLookup {
        if d.actionKey.Some? && d.connectorReadable && d.actionKey.value in d.books {
          return WorkerResultFound;
        }
        var recorded := recordStore.Read(profile.key);
        return if recorded.Some? then FindingConflict else NoWorkerResult;
      }
      if profile.mode == ArtifactLookup {
        if d.artifactWritten {
          return WorkerResultFound;
        }
        var recorded := recordStore.Read(profile.key);
        return if recorded.Some? then FindingConflict else NoWorkerResult;
      }
      var recorded := recordStore.Read(profile.key);
      finding := if recorded.Some? then WorkerResultFound else NoWorkerResult;
    }

    /** The retirement and its classification, as the first step of `Finish`. */
    method RetireClaim(claim: Claims.ClaimIdentity) returns (finding: Finding)
      modifies recordStore, recordStore.table
      ensures (recordStore.State(), finding) == Finish(old(recordStore.State()), claim)
    {
      var retired, current := recordStore.RetireOrphanClaim(claim);
      if retired {
        return NoWorkerResult;
      }
      var recorded := recordStore.Read(claim.key);
      if recorded.Some? {
        return WorkerResultFound;
      }
      finding := if current.Some? && Truthy(current.value.claimOwner) then FindingConflict else NoWorkerResult;
    }

    /** `later` is the table as other processes have left it when a retirement is asked for. */
    method ReconcileNode(d: Downstream, expired: bool, providerCall: bool, later: Claims.Rows) returns (begun: Begun)
      modifies this`node, recordStore, recordStore.table
      ensures begun == Begin(old(recordStore.table.rows), old(node.state), d, profile, expired, providerCall)
      ensures begun.NothingAmbiguous? ==> node == old(node)
      ensures begun.Decided? ==>
                node == NodeView(AmbiguousState(profile, old(node.state)).value, Some(begun.finding))
      ensures !begun.Retiring? ==> recordStore.State() == old(recordStore.State())
      ensures begun.Retiring? ==>
                && node.state == AmbiguousState(profile, old(node.state)).value && node.finding.Some?
                && (recordStore.State(), node.finding.value)
                   == Finish(Claims.Local(later, old(recordStore.locallyHeldClaims)), begun.claim)
    {
      if node.state == Running {
        node := node.(state := ReconciliationRequired);
      } else if node.state == FailedRecoverable && HasSideEffect(profile) {
        node := node.(state := ReconciliationRequired);
      }
      if node.state != ReconciliationRequired && node.state != FailedRecoverable {
        return NothingAmbiguous;
      }
      var claim := recordStore.InspectActiveClaim(profile.key);
      var outcome := InvestigateNode(d);
      begun := Decided(outcome);
      if outcome == NoWorkerResult && claim.Some? {
        var connectorProved := profile.mode == ConnectorLookup && d.connectorReadable;
        var provenLocal := profile.sideEffect == Some(NoSideEffect) && !profile.modelWorker;
        if expired && !providerCall && (provenLocal || connectorProved) {
          begun := Retiring(claim.value);
          recordStore.table.Others(later);
          outcome := RetireClaim(claim.value);
        } else {
          outcome := FindingConflict;
          begun := Decided(outcome);
        }
      }
      node := node.(finding := Some(outcome));
    }

    method ResumeNode(d: Downstream) returns (reply: ResumeReply)
      modifies this
      ensures (node, reply) == AfterResumeNode(old(node), recordStore.table.rows, d, profile)
      ensures plan == PlanAfterResume(old(plan), reply)
    {
      if node.state == Running
         || (node.state == ReconciliationRequired && node.finding.None?)
         || (HasSideEffect(profile) && node.finding.None?
             && (node.state == FailedRecoverable || node.state == FailedTerminal)) {
        return ReconciliationNeeded;
      }
      if node.finding == Some(FindingConflict) {
        return ConflictStands;
      }
      if profile.mode == ConnectorLookup && node.finding == Some(WorkerResultFound) {
        if !ActionRead(d) {
          return ConflictStands;
        }
        if Completed !in NodeSuccessors(node.state) {
          return TransitionRefused;
        }
        node := node.(state := Completed);
      } else if node.state == ReconciliationRequired && node.finding == Some(WorkerResultFound) {
        var recorded := recordStore.Read(profile.key);
        if recorded.None? {
          return ConflictStands;
        }
        node := node.(state := Completed);
      } else if node.state == ReconciliationRequired {
        node := node.(state := FailedRecoverable);
      }
      if plan == PlanReconciliationRequired || plan == PlanFailedRecoverable {
        plan := PlanRunning;
      }
      reply := Resumed;
    }
  }

  // ---------------------------------------------------------------------
  // Every run
  // ---------------------------------------------------------------------

  /** What a reconciling process has read: the claim it means to retire, and the downstream it saw. */
  datatype Reading = Reading(claim: Claims.ClaimIdentity, down: Downstream)

  datatype World = World(
    fleet: Claims.Fleet, down: Downstream, node: NodeView, plan: PlanState, readings: map<nat, Reading>)

  /** Other savepoints may move node and plan, and other actors the downstream, in any way at any moment. */
  datatype Move =
    | Call(a: Claims.Action)
    | DownstreamBecomes(down: Downstream)
    | NodeBecomes(state: NodeState)
    | PlanBecomes(status: PlanState)
    | ReconcileRead(process: nat, expired: bool, providerCall: bool)
    | ReconcileFinish(process: nat)
    | ResumeMove

  function Begins(p: Profile, w: World, m: Move): Begun
    requires m.ReconcileRead?
  {
    Begin(w.fleet.rows, w.node.state, w.down, p, m.expired, m.providerCall)
  }

  function Finishes(w: World, s: nat): (Claims.Local, Finding)
    requires s in w.readings
  {
    Finish(Claims.Local(w.fleet.rows, w.fleet.HeldBy(s)), w.readings[s].claim)
  }

  function Moved(p: Profile, w: World, m: Move): World {
    match m
    case Call(a) =>
      w.(fleet := Claims.Step(w.fleet, a).0,
         readings := if a.Crash? then w.readings - {a.store} else w.readings)
    case DownstreamBecomes(d) => w.(down := d)
    case NodeBecomes(next) => if next in NodeSuccessors(w.node.state) then w.(node := w.node.(state := next)) else w
    case PlanBecomes(next) => if next in PlanSuccessors(w.plan) then w.(plan := next) else w
    case ReconcileRead(s, _, _) =>
      var begun := Begins(p, w, m);
      if begun.NothingAmbiguous? then w
      else
        var state := AmbiguousState(p, w.node.state).value;
        if begun.Decided? then w.(node := NodeView(state, Some(begun.finding)))
        else w.(node := w.node.(state := state), readings := w.readings[s := Reading(begun.claim, w.down)])
    case ReconcileFinish(s) =>
      if s !in w.readings then w
      else
        var (l, finding) := Finishes(w, s);
        w.(fleet := w.fleet.With(s, l), node := w.node.(finding := Some(finding)), readings := w.readings - {s})
    case ResumeMove =>
      var (node, reply) := AfterResumeNode(w.node, w.fleet.rows, w.down, p);
      w.(node := node, plan := PlanAfterResume(w.plan, reply))
  }

  function After(p: Profile, start: World, moves: seq<Move>): World {
    if moves == [] then start
    else Moved(p, After(p, start, moves[..|moves| - 1]), moves[|moves| - 1])
  }

  /** An empty table; node, plan and downstream stand anywhere. */
  predicate Initial(w: World) {
    w.fleet == Claims.EMPTY_FLEET && w.readings == map[]
  }

  ghost predicate Stamped(moves: seq<Move>) {
    forall i | 0 <= i < |moves| && moves[i].Call? :: Claims.StampedCall(moves[i].a)
  }

  ghost predicate TableInv(p: Profile, w: World) {
    && Claims.HeldUnderOwnKey(w.fleet) && Claims.RecordedIsUnowned(w.fleet.rows) && Claims.NoBlanks(w.fleet.rows, p.key)
  }

  /** A pending retirement was read under a downstream in which the effect had not happened. */
  ghost predicate ReadingsInv(p: Profile, w: World) {
    forall s | s in w.readings :: w.readings[s].claim.key == p.key && NotDone(w.readings[s].down, p)
  }

  lemma FinishKeepsTable(p: Profile, w: World, s: nat)
    requires TableInv(p, w) && s in w.readings
    ensures TableInv(p, Moved(p, w, ReconcileFinish(s)))
  {
    var claim := w.readings[s].claim;
    Claims.StepKeepsShape(w.fleet, Claims.RetireCall(s, claim));
    Claims.StepKeepsNoBlanks(w.fleet, Claims.RetireCall(s, claim), p.key);
  }

  lemma MoveKeepsTable(p: Profile, w: World, m: Move)
    requires TableInv(p, w) && (m.Call? ==> Claims.StampedCall(m.a))
    ensures TableInv(p, Moved(p, w, m))
  {
    if m.Call? {
      Claims.StepKeepsShape(w.fleet, m.a);
      Claims.StepKeepsNoBlanks(w.fleet, m.a, p.key);
    } else if m.ReconcileFinish? && m.process in w.readings {
      FinishKeepsTable(p, w, m.process);
    }
  }

  lemma MoveKeepsReadings(p: Profile, w: World, m: Move)
    requires TableInv(p, w) && ReadingsInv(p, w)
    ensures ReadingsInv(p, Moved(p, w, m))
  {
    if m.ReconcileRead? {
      RetiresExactlyUnderGuard(w.fleet.rows, w.node.state, w.down, p, m.expired, m.providerCall);
    }
  }

  lemma {:induction false} InvAlways(p: Profile, start: World, moves: seq<Move>)
    requires Initial(start) && Stamped(moves)
    ensures TableInv(p, After(p, start, moves)) && ReadingsInv(p, After(p, start, moves))
  {
    if moves != [] {
      var front, m := moves[..|moves| - 1], moves[|moves| - 1];
      assert m == moves[|moves| - 1];
      InvAlways(p, start, front);
      MoveKeepsTable(p, After(p, start, front), m);
      MoveKeepsReadings(p, After(p, start, front), m);
    }
  }

  lemma AfterOneMore(p: Profile, start: World, moves: seq<Move>, m: Move)
    ensures After(p, start, moves + [m]) == Moved(p, After(p, start, moves), m)
  {
    assert (moves + [m])[..|moves + [m]| - 1] == moves;
  }

  /** What a finding of "no worker result" is worth at the moment it is made. */
  ghost predicate NothingHappened(p: Profile, w: World, seen: Downstream) {
    && w.node.finding == Some(NoWorkerResult)
    && FreeToClaim(w.fleet.rows, p.key) && NotDone(seen, p)
  }

  /**
   Reconcile tells the truth, in every mode and at any point of any run. When
   it decides on reading alone it finds a result exactly where the mode's own
   evidence stands, nothing exactly where there is no evidence, no outcome and
   no claim, and otherwise a conflict; it touches no claim.
   */
  lemma ReconcileTellsTheTruth(
    p: Profile, start: World, moves: seq<Move>, s: nat, expired: bool, providerCall: bool)
    requires Initial(start) && Stamped(moves)
    ensures var w, m := After(p, start, moves), ReconcileRead(s, expired, providerCall);
      var after, b := After(p, start, moves + [m]), Begins(p, w, m);
      var evidence := EvidenceStands(w.fleet.rows, w.down, p);
      var recorded, claimed := Claims.HasOutcome(w.fleet.rows, p.key), Claims.Active(w.fleet.rows, p.key);
      && after.fleet == w.fleet
      && (b == Decided(NoWorkerResult) ==> NothingHappened(p, after, w.down))
      && (b != NothingAmbiguous ==>
            && (b == Decided(WorkerResultFound) <==> evidence)
            && (b == Decided(NoWorkerResult) <==> !evidence && !recorded && !claimed)
            && (b == Decided(FindingConflict) <==>
                  !evidence && (recorded || (claimed && !SafeToRetire(w.down, p, expired, providerCall)))))
      && (b.Decided? ==> after.node.finding == Some(b.finding))
  {
    var w, m := After(p, start, moves), ReconcileRead(s, expired, providerCall);
    InvAlways(p, start, moves);
    AfterOneMore(p, start, moves, m);
    ReadingTellsTheTruth(w.fleet.rows, w.node.state, w.down, p, expired, providerCall);
    ReadingAnswers(w.fleet.rows, w.node.state, w.down, p, expired, providerCall);
  }

  /**
   When it goes on to retire, whatever other processes did to the claim in
   between, it clears the very claim it read or nothing, and its finding is
   true of the table it leaves and of the downstream it read.
   */
  lemma RetirementTellsTheTruth(p: Profile, start: World, moves: seq<Move>, s: nat)
    requires Initial(start) && Stamped(moves) && s in After(p, start, moves).readings
    ensures var w := After(p, start, moves);
      var after, reading := After(p, start, moves + [ReconcileFinish(s)]), w.readings[s];
      && reading.claim.key == p.key
      && after.fleet.rows == (if Claims.Matches(w.fleet.rows, reading.claim)
                              then Claims.Cleared(w.fleet.rows, reading.claim.key) else w.fleet.rows)
      && (after.node.finding == Some(NoWorkerResult) <==> FreeToClaim(after.fleet.rows, p.key))
      && (after.node.finding == Some(NoWorkerResult) ==> NothingHappened(p, after, reading.down))
      && (after.node.finding == Some(WorkerResultFound) <==> Claims.HasOutcome(after.fleet.rows, p.key))
      && (after.node.finding == Some(FindingConflict) <==> Claims.Active(after.fleet.rows, p.key))
  {
    InvAlways(p, start, moves);
    AfterOneMore(p, start, moves, ReconcileFinish(s));
    var w := After(p, start, moves);
    FinishTellsTheTruth(Claims.Local(w.fleet.rows, w.fleet.HeldBy(s)), w.readings[s].claim);
  }

  /** A claim is read for retirement only under the exact guard, and is then the key's live claim. */
  lemma RetirementIsGuarded(
    p: Profile, start: World, moves: seq<Move>, s: nat, expired: bool, providerCall: bool)
    requires Initial(start) && Stamped(moves)
    ensures var w, m := After(p, start, moves), ReconcileRead(s, expired, providerCall);
      && (Begins(p, w, m).Retiring? <==>
            && w.node.state in {Running, ReconciliationRequired, FailedRecoverable}
            && Claims.Active(w.fleet.rows, p.key) && NotDone(w.down, p)
            && expired && !providerCall
            && ((p.sideEffect == Some(NoSideEffect) && !p.modelWorker)
                || (p.mode.ConnectorLookup? && w.down.connectorReadable)))
      && (Begins(p, w, m).Retiring? ==> Claims.Matches(w.fleet.rows, Begins(p, w, m).claim))
  {
    InvAlways(p, start, moves);
    var w := After(p, start, moves);
    RetiresExactlyUnderGuard(w.fleet.rows, w.node.state, w.down, p, expired, providerCall);
  }
}
