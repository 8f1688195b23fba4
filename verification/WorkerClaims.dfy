/**
 The durable worker record store: one shared table, any number of process-local
 stores. Every write is a compare-and-swap on an exact claim identity, so this
 is a mutual-exclusion protocol with crashes and stale holders.
 */
module WorkerClaims {
  import opened Prelude

  /** The exact durable identity of one active, unrecorded authority. */
  datatype ClaimIdentity = ClaimIdentity(
    key: string, executionHash: string, claimOwner: string, claimedAt: string)

  /** The columns a recorded outcome fills, with the payload columns as one value. */
  datatype WorkerOutcome = WorkerOutcome(status: string, payload: string, recordedAt: string)

  /** One row of the table; `outcome` is None exactly when recorded_at is NULL. */
  datatype WorkerRow = WorkerRow(
    executionHash: string, claimOwner: Option<string>, claimedAt: Option<string>,
    outcome: Option<WorkerOutcome>)
  {
    function RecordedAt(): Option<string> {
      if outcome.Some? then Some(outcome.value.recordedAt) else None
    }
  }

  type Rows = map<string, WorkerRow>
  type Held = map<string, ClaimIdentity>

  datatype ClaimReply = Claimed | InFlight | AlreadyRecorded | BindingMismatch | NotAcquired
  datatype RecordReply = Recorded | AuthorityMissing | AuthorityLost

  // ---------------------------------------------------------------------
  // The specification: what each call does to the table and to its own store
  // ---------------------------------------------------------------------

  /** How an existing row answers a claim; None when the row is free to take. */
  function Classify(row: WorkerRow, executionHash: string): Option<ClaimReply> {
    if row.executionHash != executionHash then Some(BindingMismatch)
    else if Truthy(row.RecordedAt()) then Some(AlreadyRecorded)
    else if Truthy(row.claimOwner) then Some(InFlight)
    else None
  }

  /** The guard of every compare-and-swap: this row is exactly this live claim. */
  predicate Matches(rows: Rows, id: ClaimIdentity) {
    && id.key in rows
    && rows[id.key].executionHash == id.executionHash
    && rows[id.key].claimOwner == Some(id.claimOwner)
    && rows[id.key].claimedAt == Some(id.claimedAt)
    && rows[id.key].outcome.None?
  }

  predicate Active(rows: Rows, key: string) {
    key in rows && rows[key].claimOwner.Some?
  }

  predicate HasOutcome(rows: Rows, key: string) {
    key in rows && rows[key].outcome.Some?
  }

  function Cleared(rows: Rows, key: string): Rows
    requires key in rows
  {
    rows[key := rows[key].(claimOwner := None, claimedAt := None)]
  }

  datatype Local = Local(rows: Rows, held: Held)

  function AfterClaim(l: Local, id: ClaimIdentity): (Local, ClaimReply) {
    var owned := WorkerRow(id.executionHash, Some(id.claimOwner), Some(id.claimedAt), None);
    if id.key !in l.rows then
      (Local(l.rows[id.key := owned], l.held[id.key := id]), Claimed)
    else
      var row := l.rows[id.key];
      match Classify(row, id.executionHash)
      case Some(reply) => (l, reply)
      case None =>
        if row.claimOwner.None? && row.outcome.None? then
          (Local(l.rows[id.key := owned], l.held[id.key := id]), Claimed)
        else
          (l, NotAcquired)
  }

  function AfterRecord(l: Local, key: string, executionHash: string, outcome: WorkerOutcome)
    : (Local, RecordReply)
  {
    if key !in l.held || l.held[key].executionHash != executionHash then (l, AuthorityMissing)
    else if Matches(l.rows, l.held[key].(key := key)) then
      (Local(l.rows[key := l.rows[key].(claimOwner := None, outcome := Some(outcome))],
             l.held - {key}), Recorded)
    else (l, AuthorityLost)
  }

  function AfterRelease(l: Local, key: string): (Local, bool) {
    if key !in l.held then (l, false)
    else
      var id := l.held[key];
      if Matches(l.rows, id) then (Local(Cleared(l.rows, id.key), l.held - {key}), true)
      else (l.(held := l.held - {key}), false)
  }

  function AfterRetire(l: Local, expected: ClaimIdentity): (Local, bool) {
    if !Matches(l.rows, expected) then (l, false)
    else
      var held := if expected.key in l.held && l.held[expected.key].claimOwner == expected.claimOwner
                  then l.held - {expected.key} else l.held;
      (Local(Cleared(l.rows, expected.key), held), true)
  }

  function Inspect(rows: Rows, key: string): Option<ClaimIdentity> {
    if key !in rows || Truthy(rows[key].RecordedAt())
       || !Truthy(rows[key].claimOwner) || !Truthy(rows[key].claimedAt) then None
    else Some(ClaimIdentity(key, rows[key].executionHash,
                            rows[key].claimOwner.value, rows[key].claimedAt.value))
  }

  function ReadOutcome(rows: Rows, key: string): Option<WorkerOutcome> {
    if key in rows && Truthy(rows[key].RecordedAt()) && rows[key].outcome.value.status != ""
    then rows[key].outcome else None
  }

  /** A recorded row has no owner: recording and owning exclude each other. */
  ghost predicate RecordedIsUnowned(rows: Rows) {
    forall k | k in rows && rows[k].outcome.Some? :: rows[k].claimOwner.None?
  }

  /** No column of the row holds an empty string where a value is expected. */
  predicate NoBlanks(rows: Rows, key: string) {
    key in rows ==>
      && (rows[key].claimOwner.Some? ==> rows[key].claimOwner.value != "" && Truthy(rows[key].claimedAt))
      && (rows[key].outcome.Some? ==> rows[key].outcome.value.recordedAt != "" && rows[key].outcome.value.status != "")
  }

  /** The row a key has, if any. */
  function Snapshot(rows: Rows, key: string): Option<WorkerRow> {
    if key in rows then Some(rows[key]) else None
  }

  /** The claim error the source calls impossible needs a blank column in the row. */
  lemma NotAcquiredOnlyOnBlankColumns(l: Local, id: ClaimIdentity)
    ensures AfterClaim(l, id).1 == NotAcquired <==>
            && id.key in l.rows
            && l.rows[id.key].executionHash == id.executionHash
            && !Truthy(l.rows[id.key].RecordedAt())
            && !Truthy(l.rows[id.key].claimOwner)
            && (l.rows[id.key].claimOwner == Some("") || l.rows[id.key].RecordedAt() == Some(""))
  {
  }

  /** The guard holds of one row only: the live, unrecorded row of exactly this identity. */
  lemma MatchesOneRow(rows: Rows, id: ClaimIdentity)
    ensures Matches(rows, id) <==>
      id.key in rows && rows[id.key] == WorkerRow(id.executionHash, Some(id.claimOwner), Some(id.claimedAt), None)
  {
  }

  /** Which answer a claim gets, from the row alone; only a grant changes anything. */
  lemma ClaimAnswers(l: Local, id: ClaimIdentity)
    ensures var (after, reply) := AfterClaim(l, id);
      && (id.key !in l.rows ==> reply == Claimed)
      && (id.key in l.rows ==>
            var row := l.rows[id.key];
            var same, recorded := row.executionHash == id.executionHash, Truthy(row.RecordedAt());
            && (reply == BindingMismatch <==> !same)
            && (reply == AlreadyRecorded <==> same && recorded)
            && (reply == InFlight <==> same && !recorded && Truthy(row.claimOwner))
            && (reply == Claimed <==> same && row.claimOwner.None? && row.outcome.None?))
      && (reply != Claimed ==> after == l)
      && (reply == Claimed ==>
            && Matches(after.rows, id) && after.rows - {id.key} == l.rows - {id.key}
            && id.key in after.held && after.held[id.key] == id && after.held - {id.key} == l.held - {id.key})
  {
  }

  /** Which answer a recording gets; only one that takes effect touches the table. */
  lemma RecordAnswers(l: Local, key: string, executionHash: string, outcome: WorkerOutcome)
    ensures var (after, reply) := AfterRecord(l, key, executionHash, outcome);
      && (reply == AuthorityMissing <==> !(key in l.held && l.held[key].executionHash == executionHash))
      && (reply == Recorded <==>
            && key in l.held && l.held[key].executionHash == executionHash
            && Matches(l.rows, ClaimIdentity(key, executionHash, l.held[key].claimOwner, l.held[key].claimedAt)))
      && (reply != Recorded ==> after == l)
      && (reply == Recorded ==>
            && after.rows.Keys == l.rows.Keys && after.rows - {key} == l.rows - {key}
            && after.rows[key] == WorkerRow(executionHash, None, l.rows[key].claimedAt, Some(outcome))
            && key !in after.held && after.held == l.held - {key})
  {
  }

  /** A granted claim can be recorded, and what is then read back is what was recorded. */
  lemma GrantedClaimRecords(l: Local, id: ClaimIdentity, outcome: WorkerOutcome)
    requires AfterClaim(l, id).1 == Claimed
    ensures var (after, reply) := AfterRecord(AfterClaim(l, id).0, id.key, id.executionHash, outcome);
      && reply == Recorded
      && id.key in after.rows && after.rows[id.key].outcome == Some(outcome) && !Active(after.rows, id.key)
      && id.key !in after.held
      && (outcome.status != "" && outcome.recordedAt != "" ==> ReadOutcome(after.rows, id.key) == Some(outcome))
  {
  }

  /** A granted claim can be released, or retired by any store, and its key is then free again. */
  lemma GrantedClaimEnds(l: Local, id: ClaimIdentity, other: Local, again: ClaimIdentity)
    requires AfterClaim(l, id).1 == Claimed && other.rows == AfterClaim(l, id).0.rows
    requires again.key == id.key && again.executionHash == id.executionHash
    ensures var (after, changed) := AfterRelease(AfterClaim(l, id).0, id.key);
      changed && id.key !in after.held && after.rows - {id.key} == l.rows - {id.key}
      && id.key in after.rows && after.rows[id.key] == WorkerRow(id.executionHash, None, None, None)
      && AfterClaim(after, again).1 == Claimed
    ensures var (after, retired) := AfterRetire(other, id);
      retired && after.rows - {id.key} == l.rows - {id.key}
      && id.key in after.rows && after.rows[id.key] == WorkerRow(id.executionHash, None, None, None)
      && AfterClaim(after, again).1 == Claimed
      && (id.key in other.held && other.held[id.key].claimOwner == id.claimOwner ==> id.key !in after.held)
  {
  }

  /** A release or retirement without the exact live claim leaves the table alone. */
  lemma OnlyTheLiveClaimEnds(l: Local, key: string, expected: ClaimIdentity)
    ensures var (after, changed) := AfterRelease(l, key);
      && (changed <==> key in l.held && Matches(l.rows, l.held[key]))
      && (!changed ==> after.rows == l.rows) && after.held == l.held - {key}
      && (changed ==> after.rows == Cleared(l.rows, l.held[key].key))
    ensures var (after, retired) := AfterRetire(l, expected);
      && (retired <==> Matches(l.rows, expected))
      && (!retired ==> after == l)
      && (retired ==> after.rows == Cleared(l.rows, expected.key))
  {
  }

  // ---------------------------------------------------------------------
  // The objects: a shared table and the stores that write to it
  // ---------------------------------------------------------------------

  class WorkerTable {
    var rows: Rows

    constructor ()
      ensures rows == map[]
    {
      rows := map[];
    }

    /** Whatever the other processes' calls make of the table. */
    method Others(later: Rows)
      modifies this
      ensures rows == later
    {
      rows := later;
    }
  }

  class WorkerRecordStore {
    const table: WorkerTable
    var locallyHeldClaims: Held

    constructor (table: WorkerTable)
      ensures this.table == table && locallyHeldClaims == map[]
    {
      this.table := table;
      locallyHeldClaims := map[];
    }

    function State(): Local
      reads this, table
    {
      Local(table.rows, locallyHeldClaims)
    }

    method Claim(key: string, executionHash: string, claimId: string, now: string)
      returns (reply: ClaimReply)
      modifies this, table
      ensures (State(), reply)
           == AfterClaim(old(State()), ClaimIdentity(key, executionHash, claimId, now))
    {
      if key in table.rows {
        var row := table.rows[key];
        if row.executionHash != executionHash {
          return BindingMismatch;
        }
        if Truthy(row.RecordedAt()) {
          return AlreadyRecorded;
        }
        if Truthy(row.claimOwner) {
          return InFlight;
        }
        if row.claimOwner.Some? || row.outcome.Some? {
          return NotAcquired;
        }
      }
      table.rows := table.rows[key := WorkerRow(executionHash, Some(claimId), Some(now), None)];
      locallyHeldClaims :=
        locallyHeldClaims[key := ClaimIdentity(key, executionHash, claimId, now)];
      reply := Claimed;
    }

    method RecordWorkerOutcome(key: string, executionHash: string, outcome: WorkerOutcome)
      returns (reply: RecordReply)
      modifies this, table
      ensures (State(), reply) == AfterRecord(old(State()), key, executionHash, outcome)
    {
      if key !in locallyHeldClaims || locallyHeldClaims[key].executionHash != executionHash {
        return AuthorityMissing;
      }
      var held := locallyHeldClaims[key];
      if !Matches(table.rows, ClaimIdentity(key, executionHash, held.claimOwner, held.claimedAt)) {
        return AuthorityLost;
      }
      var row := table.rows[key];
      table.rows := table.rows[key := row.(claimOwner := None, outcome := Some(outcome))];
      locallyHeldClaims := locallyHeldClaims - {key};
      reply := Recorded;
    }

    /** An outcome is returned exactly for a recorded row with a status, and it is that row's. */
    method Read(key: string) returns (outcome: Option<WorkerOutcome>)
      ensures outcome == ReadOutcome(table.rows, key)
      ensures outcome.Some? ==> HasOutcome(table.rows, key) && outcome == table.rows[key].outcome
      ensures outcome.None? && NoBlanks(table.rows, key) ==> !HasOutcome(table.rows, key)
    {
      if key !in table.rows {
        return None;
      }
      var row := table.rows[key];
      if row.outcome.None? || row.outcome.value.recordedAt == "" || row.outcome.value.status == "" {
        return None;
      }
      outcome := row.outcome;
    }

    method ReleaseClaim(key: string) returns (ghost changed: bool)
      modifies this, table
      ensures (State(), changed) == AfterRelease(old(State()), key)
    {
      changed := false;
      if key in locallyHeldClaims {
        var held := locallyHeldClaims[key];
        if Matches(table.rows, held) {
          table.rows := Cleared(table.rows, held.key);
          changed := true;
        }
        locallyHeldClaims := locallyHeldClaims - {key};
      }
    }

    /** A claim returned is the key's live one; none returned, on a row without blanks, means none is active. */
    method InspectActiveClaim(key: string) returns (claim: Option<ClaimIdentity>)
      ensures claim == Inspect(table.rows, key)
      ensures claim.Some? && RecordedIsUnowned(table.rows) ==>
                claim.value.key == key && Matches(table.rows, claim.value)
      ensures claim.None? && RecordedIsUnowned(table.rows) && NoBlanks(table.rows, key) ==> !Active(table.rows, key)
    {
      if key !in table.rows {
        return None;
      }
      var row := table.rows[key];
      if Truthy(row.RecordedAt()) || !Truthy(row.claimOwner) || !Truthy(row.claimedAt) {
        return None;
      }
      claim := Some(ClaimIdentity(key, row.executionHash, row.claimOwner.value, row.claimedAt.value));
    }

    /** `current` is the key's row as the call leaves it, retired or not. */
    method RetireOrphanClaim(expected: ClaimIdentity) returns (retired: bool, current: Option<WorkerRow>)
      modifies this, table
      ensures (State(), retired) == AfterRetire(old(State()), expected)
      ensures current == Snapshot(table.rows, expected.key)
      ensures retired ==> current.Some? && current.value.claimOwner.None? && current.value.outcome.None?
    {
      if !Matches(table.rows, expected) {
        return false, if expected.key in table.rows then Some(table.rows[expected.key]) else None;
      }
      table.rows := Cleared(table.rows, expected.key);
      if expected.key in locallyHeldClaims
         && locallyHeldClaims[expected.key].claimOwner == expected.claimOwner {
        locallyHeldClaims := locallyHeldClaims - {expected.key};
      }
      retired, current := true, Some(table.rows[expected.key]);
    }
  }

  // ---------------------------------------------------------------------
  // Runs: calls from any number of stores, in any order, with crashes
  // ---------------------------------------------------------------------

  /** All stores over the one table. A store never seen, or crashed, holds nothing. */
  datatype Fleet = Fleet(rows: Rows, stores: map<nat, Held>) {
    function HeldBy(store: nat): Held {
      if store in stores then stores[store] else map[]
    }

    function With(store: nat, l: Local): Fleet {
      Fleet(l.rows, stores[store := l.held])
    }
  }

  datatype Action =
    | ClaimCall(store: nat, id: ClaimIdentity)
    | RecordCall(store: nat, key: string, executionHash: string, outcome: WorkerOutcome)
    | ReleaseCall(store: nat, key: string)
    | RetireCall(store: nat, expected: ClaimIdentity)
    | Crash(store: nat)

  /** The authority a call gained or ended in the table, if any. */
  datatype Effect =
    | Acquired(id: ClaimIdentity)
    | RecordedEnd(id: ClaimIdentity)
    | ReleasedEnd(id: ClaimIdentity)
    | RetiredEnd(id: ClaimIdentity)
    | NoEffect

  predicate Ends(e: Effect) {
    e.RecordedEnd? || e.ReleasedEnd? || e.RetiredEnd?
  }

  function Step(f: Fleet, a: Action): (Fleet, Effect) {
    match a
    case ClaimCall(s, id) =>
      var (l, reply) := AfterClaim(Local(f.rows, f.HeldBy(s)), id);
      (f.With(s, l), if reply == Claimed then Acquired(id) else NoEffect)
    case RecordCall(s, key, hash, outcome) =>
      var (l, reply) := AfterRecord(Local(f.rows, f.HeldBy(s)), key, hash, outcome);
      (f.With(s, l), if reply == Recorded then RecordedEnd(f.HeldBy(s)[key]) else NoEffect)
    case ReleaseCall(s, key) =>
      var (l, changed) := AfterRelease(Local(f.rows, f.HeldBy(s)), key);
      (f.With(s, l), if changed then ReleasedEnd(f.HeldBy(s)[key]) else NoEffect)
    case RetireCall(s, expected) =>
      var (l, retired) := AfterRetire(Local(f.rows, f.HeldBy(s)), expected);
      (f.With(s, l), if retired then RetiredEnd(expected) else NoEffect)
    case Crash(s) => (f.(stores := f.stores - {s}), NoEffect)
  }

  const EMPTY_FLEET := Fleet(map[], map[])

  function After(actions: seq<Action>): Fleet {
    if actions == [] then EMPTY_FLEET
    else Step(After(actions[..|actions| - 1]), actions[|actions| - 1]).0
  }

  /** What call `i` of a run did to the table. */
  function EffectAt(actions: seq<Action>, i: nat): Effect
    requires i < |actions|
  {
    Step(After(actions[..i]), actions[i]).1
  }

  function Effects(actions: seq<Action>): (es: seq<Effect>)
    ensures |es| == |actions|
  {
    seq(|actions|, i requires 0 <= i < |actions| => EffectAt(actions, i))
  }

  function Tally(es: seq<Effect>, p: Effect -> bool): nat {
    if es == [] then 0
    else Tally(es[..|es| - 1], p) + (if p(es[|es| - 1]) then 1 else 0)
  }

  function Claims(actions: seq<Action>, key: string): nat {
    Tally(Effects(actions), (e: Effect) => e.Acquired? && e.id.key == key)
  }

  function Recordings(actions: seq<Action>, key: string): nat {
    Tally(Effects(actions), (e: Effect) => e.RecordedEnd? && e.id.key == key)
  }

  function Releases(actions: seq<Action>, key: string): nat {
    Tally(Effects(actions), (e: Effect) => e.ReleasedEnd? && e.id.key == key)
  }

  function Retirements(actions: seq<Action>, key: string): nat {
    Tally(Effects(actions), (e: Effect) => e.RetiredEnd? && e.id.key == key)
  }

  lemma EffectsOfPrefix(actions: seq<Action>)
    requires actions != []
    ensures Effects(actions)[..|actions| - 1] == Effects(actions[..|actions| - 1])
  {
    var front := actions[..|actions| - 1];
    forall i | 0 <= i < |front| ensures Effects(actions)[i] == Effects(front)[i] {
      assert actions[..i] == front[..i];
    }
  }

  /** Each store files a held claim under the key the claim names. */
  ghost predicate HeldUnderOwnKey(f: Fleet) {
    forall s, k | s in f.stores && k in f.stores[s] :: f.stores[s][k].key == k
  }

  /** Claim ids are generated and times read from a clock, so no call brings an empty one. */
  predicate StampedCall(a: Action) {
    && (a.ClaimCall? ==> a.id.claimOwner != "" && a.id.claimedAt != "")
    && (a.RecordCall? ==> a.outcome.recordedAt != "" && a.outcome.status != "")
  }

  lemma StepKeepsShape(f: Fleet, a: Action)
    requires HeldUnderOwnKey(f) && RecordedIsUnowned(f.rows)
    ensures HeldUnderOwnKey(Step(f, a).0) && RecordedIsUnowned(Step(f, a).0.rows)
  {
  }

  lemma StepKeepsNoBlanks(f: Fleet, a: Action, key: string)
    requires HeldUnderOwnKey(f) && NoBlanks(f.rows, key) && StampedCall(a)
    ensures NoBlanks(Step(f, a).0.rows, key)
  {
  }

  lemma {:induction false} ShapeHolds(actions: seq<Action>)
    ensures HeldUnderOwnKey(After(actions)) && RecordedIsUnowned(After(actions).rows)
  {
    if actions != [] {
      ShapeHolds(actions[..|actions| - 1]);
      StepKeepsShape(After(actions[..|actions| - 1]), actions[|actions| - 1]);
    }
  }

  /** One call changes the table row of a key exactly as its effect on that key says. */
  lemma StepBalance(f: Fleet, a: Action, key: string)
    requires HeldUnderOwnKey(f) && RecordedIsUnowned(f.rows)
    ensures
      var (g, e) := Step(f, a);
      if e.NoEffect? || e.id.key != key then
        Active(g.rows, key) == Active(f.rows, key) && HasOutcome(g.rows, key) == HasOutcome(f.rows, key)
      else if e.Acquired? then
        !Active(f.rows, key) && Active(g.rows, key) && !HasOutcome(f.rows, key) && !HasOutcome(g.rows, key)
      else
        && Active(f.rows, key) && !Active(g.rows, key)
        && !HasOutcome(f.rows, key) && HasOutcome(g.rows, key) == e.RecordedEnd?
  {
  }

  /**
   Conservation. Over any run of any number of stores with crashes, every claim
   ever granted under a key was released, retired or recorded, or is the one
   still active; at most one was ever recorded.
   */
  lemma {:induction false} ClaimConservation(actions: seq<Action>, key: string)
    ensures Claims(actions, key)
         == Releases(actions, key) + Retirements(actions, key) + Recordings(actions, key)
            + (if Active(After(actions).rows, key) then 1 else 0)
    ensures Recordings(actions, key) == (if HasOutcome(After(actions).rows, key) then 1 else 0)
  {
    if actions != [] {
      var front := actions[..|actions| - 1];
      ClaimConservation(front, key);
      EffectsOfPrefix(actions);
      ShapeHolds(front);
      StepBalance(After(front), actions[|actions| - 1], key);
    }
  }

  lemma StepKeepsBinding(f: Fleet, a: Action, key: string)
    requires key in f.rows && HeldUnderOwnKey(f)
    ensures key in Step(f, a).0.rows
    ensures Step(f, a).0.rows[key].executionHash == f.rows[key].executionHash
    ensures f.rows[key].outcome.Some? ==> Step(f, a).0.rows[key].outcome == f.rows[key].outcome
  {
  }

  /** A key keeps its execution hash, and a recorded outcome, in every continuation. */
  lemma {:induction false} BindingAndOutcomeAreFinal(actions: seq<Action>, i: nat, key: string)
    requires i <= |actions| && key in After(actions[..i]).rows
    ensures key in After(actions).rows
    ensures After(actions).rows[key].executionHash == After(actions[..i]).rows[key].executionHash
    ensures HasOutcome(After(actions[..i]).rows, key) ==>
              After(actions).rows[key].outcome == After(actions[..i]).rows[key].outcome
  {
    if i == |actions| {
      assert actions[..i] == actions;
    } else {
      var front := actions[..|actions| - 1];
      assert front[..i] == actions[..i];
      BindingAndOutcomeAreFinal(front, i, key);
      ShapeHolds(front);
      StepKeepsBinding(After(front), actions[|actions| - 1], key);
    }
  }

  lemma StepRecords(f: Fleet, a: Action, key: string)
    requires HeldUnderOwnKey(f) && RecordedIsUnowned(f.rows)
    requires HasOutcome(Step(f, a).0.rows, key) && !HasOutcome(f.rows, key)
    ensures a.RecordCall? && a.key == key && Step(f, a).1.RecordedEnd? && Step(f, a).1.id.key == key
    ensures Step(f, a).0.rows[key].outcome == Some(a.outcome)
  {
  }

  /** A recorded outcome is the very one given by the recording that took effect. */
  lemma {:induction false} RecordedIsWhatWasGiven(actions: seq<Action>, key: string) returns (i: nat)
    requires HasOutcome(After(actions).rows, key)
    ensures i < |actions| && actions[i].RecordCall? && actions[i].key == key
    ensures EffectAt(actions, i).RecordedEnd?
    ensures After(actions).rows[key].outcome == Some(actions[i].outcome)
  {
    var n := |actions| - 1;
    var front := actions[..n];
    ShapeHolds(front);
    if HasOutcome(After(front).rows, key) {
      i := RecordedIsWhatWasGiven(front, key);
      assert front[..i] == actions[..i];
      StepKeepsBinding(After(front), actions[n], key);
    } else {
      i := n;
      StepRecords(After(front), actions[n], key);
    }
  }

  /** Claim ids never repeat across the claim calls of a run. */
  ghost predicate FreshTokens(actions: seq<Action>) {
    forall i, j | 0 <= i < j < |actions| && actions[i].ClaimCall? && actions[j].ClaimCall? ::
      actions[i].id.claimOwner != actions[j].id.claimOwner
  }

  /** Call `i` was this store's claim and it was granted this identity. */
  predicate GrantedAt(actions: seq<Action>, i: nat, store: nat, id: ClaimIdentity) {
    i < |actions| && actions[i] == ClaimCall(store, id) && EffectAt(actions, i) == Acquired(id)
  }

  lemma GrantedInPrefix(actions: seq<Action>, i: nat, store: nat, id: ClaimIdentity)
    requires actions != [] && GrantedAt(actions[..|actions| - 1], i, store, id)
    ensures GrantedAt(actions, i, store, id)
  {
    assert actions[..|actions| - 1][..i] == actions[..i];
  }

  /** A store only ever holds identities granted to one of its own earlier calls. */
  lemma {:induction false} HeldWasGranted(actions: seq<Action>, store: nat, key: string)
    requires key in After(actions).HeldBy(store)
    ensures exists i: nat :: GrantedAt(actions, i, store, After(actions).HeldBy(store)[key])
  {
    assert actions != [];
    var n := |actions| - 1;
    var front := actions[..n];
    var f, a := After(front), actions[n];
    var id := After(actions).HeldBy(store)[key];
    if key in f.HeldBy(store) && f.HeldBy(store)[key] == id {
      HeldWasGranted(front, store, key);
      var i: nat :| GrantedAt(front, i, store, id);
      GrantedInPrefix(actions, i, store, id);
    } else {
      assert GrantedAt(actions, n, store, id);
    }
  }

  /** An owner found in the table came from a granted claim call on that key. */
  lemma {:induction false} OwnerWasGranted(actions: seq<Action>, key: string)
    requires Active(After(actions).rows, key)
    ensures exists i: nat, s: nat, id ::
              GrantedAt(actions, i, s, id) && id.key == key
              && After(actions).rows[key].claimOwner == Some(id.claimOwner)
  {
    assert actions != [];
    var n := |actions| - 1;
    var front := actions[..n];
    ShapeHolds(front);
    var f, a := After(front), actions[n];
    if Active(f.rows, key) && f.rows[key].claimOwner == After(actions).rows[key].claimOwner {
      OwnerWasGranted(front, key);
      var i: nat, s: nat, id :| GrantedAt(front, i, s, id) && id.key == key
                                && f.rows[key].claimOwner == Some(id.claimOwner);
      GrantedInPrefix(actions, i, s, id);
    } else {
      assert GrantedAt(actions, n, a.store, a.id);
    }
  }

  /** With fresh tokens, one granted identity belongs to one call. */
  lemma GrantIsUnique(actions: seq<Action>, i: nat, j: nat, s: nat, t: nat, a: ClaimIdentity, b: ClaimIdentity)
    requires FreshTokens(actions) && GrantedAt(actions, i, s, a) && GrantedAt(actions, j, t, b)
    requires a.claimOwner == b.claimOwner
    ensures i == j && s == t && a == b
  {
  }

  /** Mutual exclusion: two stores never both hold the live authority of a key. */
  lemma AtMostOneAuthority(actions: seq<Action>, s: nat, t: nat, key: string)
    requires FreshTokens(actions)
    requires key in After(actions).HeldBy(s) && Matches(After(actions).rows, After(actions).HeldBy(s)[key])
    requires key in After(actions).HeldBy(t) && Matches(After(actions).rows, After(actions).HeldBy(t)[key])
    ensures s == t
  {
    ShapeHolds(actions);
    var f := After(actions);
    HeldWasGranted(actions, s, key);
    HeldWasGranted(actions, t, key);
    var i: nat :| GrantedAt(actions, i, s, f.HeldBy(s)[key]);
    var j: nat :| GrantedAt(actions, j, t, f.HeldBy(t)[key]);
    GrantIsUnique(actions, i, j, s, t, f.HeldBy(s)[key], f.HeldBy(t)[key]);
  }

  /** A store that records or releases ends only a claim that it acquired itself. */
  lemma EndsOnlyItsOwnClaim(actions: seq<Action>, j: nat)
    requires j < |actions|
    requires EffectAt(actions, j).RecordedEnd? || EffectAt(actions, j).ReleasedEnd?
    ensures exists i: nat :: i < j && GrantedAt(actions, i, actions[j].store, EffectAt(actions, j).id)
  {
    var front := actions[..j];
    var store, id := actions[j].store, EffectAt(actions, j).id;
    HeldWasGranted(front, store, actions[j].key);
    var i: nat :| GrantedAt(front, i, store, id);
    assert front[..i] == actions[..i];
    assert GrantedAt(actions, i, store, id);
  }

  /** No row is owned under this token. */
  ghost predicate Unowned(rows: Rows, token: string) {
    forall k | Active(rows, k) :: rows[k].claimOwner != Some(token)
  }

  lemma StepKeepsUnowned(f: Fleet, a: Action, token: string)
    requires HeldUnderOwnKey(f) && Unowned(f.rows, token)
    requires a.ClaimCall? ==> a.id.claimOwner != token
    ensures Unowned(Step(f, a).0.rows, token)
    ensures Ends(Step(f, a).1) ==> Step(f, a).1.id.claimOwner != token
  {
  }

  /** With fresh tokens a token owns at most one row. */
  lemma OwnersAreDistinct(actions: seq<Action>, k: string, m: string)
    requires FreshTokens(actions) && Active(After(actions).rows, k) && Active(After(actions).rows, m)
    requires After(actions).rows[k].claimOwner == After(actions).rows[m].claimOwner
    ensures k == m
  {
    OwnerWasGranted(actions, k);
    OwnerWasGranted(actions, m);
    var p: nat, s: nat, a :| GrantedAt(actions, p, s, a) && a.key == k
                             && After(actions).rows[k].claimOwner == Some(a.claimOwner);
    var q: nat, t: nat, b :| GrantedAt(actions, q, t, b) && b.key == m
                             && After(actions).rows[m].claimOwner == Some(b.claimOwner);
    GrantIsUnique(actions, p, q, s, t, a, b);
  }

  /** Ending a claim clears the owner of its own row and touches no other row. */
  lemma EndingFrame(f: Fleet, a: Action)
    requires HeldUnderOwnKey(f) && RecordedIsUnowned(f.rows) && Ends(Step(f, a).1)
    ensures
      var (g, e) := Step(f, a);
      && Active(f.rows, e.id.key) && f.rows[e.id.key].claimOwner == Some(e.id.claimOwner)
      && !Active(g.rows, e.id.key)
      && g.rows - {e.id.key} == f.rows - {e.id.key}
  {
  }

  /** A call that ends a claim leaves no row owned under its token. */
  lemma EndingLeavesUnowned(front: seq<Action>, a: Action)
    requires FreshTokens(front) && Ends(Step(After(front), a).1)
    ensures Unowned(Step(After(front), a).0.rows, Step(After(front), a).1.id.claimOwner)
  {
    ShapeHolds(front);
    EndingFrame(After(front), a);
    var before, after, id := After(front).rows, Step(After(front), a).0.rows, Step(After(front), a).1.id;
    forall k | Active(after, k) ensures after[k].claimOwner != Some(id.claimOwner) {
      assert k in after - {id.key} && k in before - {id.key};
      assert after[k] == (after - {id.key})[k] == (before - {id.key})[k] == before[k];
      if before[k].claimOwner == Some(id.claimOwner) {
        OwnersAreDistinct(front, k, id.key);
      }
    }
  }

  /** After the call that ended it, a token never owns a row again. */
  lemma {:induction false} DeadTokenStaysDead(actions: seq<Action>, i: nat)
    requires FreshTokens(actions) && i < |actions| && Ends(EffectAt(actions, i))
    ensures Unowned(After(actions).rows, EffectAt(actions, i).id.claimOwner)
  {
    var n := |actions| - 1;
    if i == n {
      EndingLeavesUnowned(actions[..n], actions[n]);
    } else {
      var front := actions[..n];
      assert actions[..i] == front[..i];
      DeadTokenStaysDead(front, i);
      TokenWasClaimedBefore(actions, i);
      ShapeHolds(front);
      StepKeepsUnowned(After(front), actions[n], EffectAt(actions, i).id.claimOwner);
    }
  }

  /** Whatever a call ends was claimed by an earlier call under the same token. */
  lemma TokenWasClaimedBefore(actions: seq<Action>, i: nat)
    requires i < |actions| && Ends(EffectAt(actions, i))
    ensures exists p: nat :: p < i && actions[p].ClaimCall?
                             && actions[p].id.claimOwner == EffectAt(actions, i).id.claimOwner
  {
    var front := actions[..i];
    ShapeHolds(front);
    var id := EffectAt(actions, i).id;
    OwnerWasGranted(front, id.key);
    var p: nat, s: nat, a :| GrantedAt(front, p, s, a) && a.key == id.key
                             && After(front).rows[id.key].claimOwner == Some(a.claimOwner);
    assert actions[p] == front[p];
  }

  /**
   Stale holders. Once a claim is retired, released or recorded, no later call
   of any store, under any key, gains or ends authority under its token.
   */
  lemma EndedTokenIsPowerless(actions: seq<Action>, i: nat, j: nat)
    requires FreshTokens(actions) && i < j < |actions| && Ends(EffectAt(actions, i))
    ensures EffectAt(actions, j).NoEffect?
         || EffectAt(actions, j).id.claimOwner != EffectAt(actions, i).id.claimOwner
  {
    var front := actions[..j];
    ShapeHolds(front);
    assert actions[..i] == front[..i] && actions[i] == front[i];
    DeadTokenStaysDead(front, i);
    TokenWasClaimedBefore(actions, i);
    StepKeepsUnowned(After(front), actions[j], EffectAt(actions, i).id.claimOwner);
  }
}
