/**
 The simulated operational connector: replay by idempotency key, then a
 compare-and-swap on the exact pre-state the action was approved against.
 */
module SimulatedConnector {
  import opened Prelude
  import opened ExceptionContract

  /** A record; revision `n` is the connector's own marker "r<n>". */
  datatype Record = Record(targetId: string, revision: nat, fields: FieldMap)

  /** The connector's view of a record's identity, as an injective digest. */
  datatype StateDigest = ObservationDigest(targetId: string, revision: nat, fields: FieldMap)

  datatype AppliedAction = AppliedAction(
    idempotencyKey: string, targetId: string, writePayload: seq<Field>,
    preState: StateDigest, postState: StateDigest)

  datatype Store = Store(records: map<string, Record>, actions: map<string, AppliedAction>)

  datatype Request = Request(
    capability: string, targetId: string, expectedPreState: StateDigest,
    writePayload: seq<Field>, idempotencyKey: string)

  datatype ConnectorError =
    | CapabilityUnknown | TargetMissing | PreStateMismatch | FieldNotWritable | Interrupted

  datatype ApplyResult = ApplyResult(performedWrite: bool, action: AppliedAction, record: Record)

  const WRITE_CAPABILITY := "record.reconcile"
  const WRITABLE_FIELDS: set<string> := {"reconciledAmount", "status"}

  function RecordStateHash(r: Record): StateDigest {
    ObservationDigest(r.targetId, r.revision, r.fields)
  }

  function Updated(r: Record, payload: seq<Field>): Record {
    Record(r.targetId, r.revision + 1, Merge(r.fields, payload))
  }

  function ActionFor(r: Record, q: Request): AppliedAction {
    AppliedAction(q.idempotencyKey, r.targetId, q.writePayload,
                  RecordStateHash(r), RecordStateHash(Updated(r, q.writePayload)))
  }

  /** One apply: the store it leaves and what it answers. */
  function Apply(store: Store, q: Request): Result<(Store, ApplyResult), ConnectorError> {
    if q.capability != WRITE_CAPABILITY then Err(CapabilityUnknown)
    else if q.idempotencyKey in store.actions then
      var existing := store.actions[q.idempotencyKey];
      if existing.targetId !in store.records then Err(TargetMissing)
      else Ok((store, ApplyResult(false, existing, store.records[existing.targetId])))
    else if q.targetId !in store.records then Err(TargetMissing)
    else
      var r := store.records[q.targetId];
      if RecordStateHash(r) != q.expectedPreState then Err(PreStateMismatch)
      else if exists f | f in q.writePayload :: f.name !in WRITABLE_FIELDS then Err(FieldNotWritable)
      else
        var updated, action := Updated(r, q.writePayload), ActionFor(r, q);
        Ok((Store(store.records[updated.targetId := updated], store.actions[action.idempotencyKey := action]),
            ApplyResult(true, action, updated)))
  }

  function Seeded(store: Store, records: seq<Record>): Store {
    if records == [] then store
    else
      var last := records[|records| - 1];
      var before := Seeded(store, records[..|records| - 1]);
      before.(records := before.records[last.targetId := last])
  }

  /** What each request is answered, both ways. */
  lemma ApplyAnswers(store: Store, q: Request)
    ensures var r, known := Apply(store, q), q.idempotencyKey in store.actions;
      var there := q.targetId in store.records;
      var same := there && q.expectedPreState
                           == ObservationDigest(store.records[q.targetId].targetId,
                                                store.records[q.targetId].revision, store.records[q.targetId].fields);
      var writable := forall f | f in q.writePayload :: f.name == "reconciledAmount" || f.name == "status";
      && (r == Err(CapabilityUnknown) <==> q.capability != "record.reconcile")
      && (q.capability == "record.reconcile" ==>
            && (r == Err(TargetMissing) <==>
                  if known then store.actions[q.idempotencyKey].targetId !in store.records else !there)
            && (r == Err(PreStateMismatch) <==> !known && there && !same)
            && (r == Err(FieldNotWritable) <==> !known && there && same && !writable)
            && (Performs(store, q) <==> !known && there && same && writable)
            && (r.Ok? && !r.value.1.performedWrite <==>
                  known && store.actions[q.idempotencyKey].targetId in store.records))
  {
  }

  /** A performed write moves its record one revision on, sets what its payload names, and spares the rest. */
  lemma WriteTells(store: Store, q: Request, name: string)
    requires Performs(store, q) && WellKeyed(store)
    ensures var before, after := store.records[q.targetId], StoreAfter(store, q).records[q.targetId];
      && after.targetId == q.targetId && after.revision == before.revision + 1
      && ((forall f | f in q.writePayload :: f.name != name) ==>
            Lookup(after.fields, name) == Lookup(before.fields, name))
      && (UniqueNames(q.writePayload) ==>
            forall f | f in q.writePayload && f.name == name :: Lookup(after.fields, name) == f.value)
  {
    var fields := store.records[q.targetId].fields;
    if forall f | f in q.writePayload :: f.name != name {
      MergeSpares(fields, q.writePayload, name);
    }
    if UniqueNames(q.writePayload) {
      forall f | f in q.writePayload && f.name == name
        ensures Lookup(Merge(fields, q.writePayload), name) == f.value
      {
        MergeSets(fields, q.writePayload, f);
      }
    }
  }

  /** Seeding leaves under each target the last record given for it. */
  lemma {:induction false} SeedingStores(store: Store, records: seq<Record>, i: nat)
    requires i < |records| && forall k | i < k < |records| :: records[k].targetId != records[i].targetId
    ensures var seeded, target := Seeded(store, records), records[i].targetId;
      target in seeded.records && seeded.records[target] == records[i]
  {
    if i < |records| - 1 {
      SeedingStores(store, records[..|records| - 1], i);
    }
  }

  /** It leaves every other record, and every action, as it was. */
  lemma {:induction false} SeedingSpares(store: Store, records: seq<Record>, target: string)
    ensures Seeded(store, records).actions == store.actions
    ensures (forall i | 0 <= i < |records| :: records[i].targetId != target) ==>
      (target in Seeded(store, records).records <==> target in store.records)
      && (target in store.records ==> Seeded(store, records).records[target] == store.records[target])
  {
    if records != [] {
      SeedingSpares(store, records[..|records| - 1], target);
    }
  }

  class Connector {
    var store: Store
    var readCount: nat
    var writeCount: nat
    var replayCount: nat

    constructor ()
      ensures store == Store(map[], map[]) && readCount == writeCount == replayCount == 0
    {
      store := Store(map[], map[]);
      readCount, writeCount, replayCount := 0, 0, 0;
    }

    method Seed(records: seq<Record>)
      modifies this`store
      ensures store == Seeded(old(store), records)
    {
      for i := 0 to |records|
        invariant store == Seeded(old(store), records[..i])
      {
        assert records[..i + 1][..i] == records[..i];
        store := store.(records := store.records[records[i].targetId := records[i]]);
      }
      assert records[..|records|] == records;
    }

    method Read(targetId: string) returns (record: Option<Record>)
      modifies this`readCount
      ensures record == if targetId in store.records then Some(store.records[targetId]) else None
      ensures readCount == old(readCount) + 1
    {
      readCount := readCount + 1;
      record := if targetId in store.records then Some(store.records[targetId]) else None;
    }

    method ReadAction(key: string) returns (action: Option<AppliedAction>)
      modifies this`readCount
      ensures action == if key in store.actions then Some(store.actions[key]) else None
      ensures readCount == old(readCount) + 1
    {
      readCount := readCount + 1;
      action := if key in store.actions then Some(store.actions[key]) else None;
    }

    /** `interrupt` is the crash after the store changed and before the outcome returned. */
    method ApplyRequest(q: Request, interrupt: bool) returns (result: Result<ApplyResult, ConnectorError>)
      modifies this
      ensures
        match Apply(old(store), q)
        case Err(error) =>
          && result == Err(error) && store == old(store) && writeCount == old(writeCount)
          && replayCount == old(replayCount)
               + (if q.capability == WRITE_CAPABILITY && q.idempotencyKey in old(store).actions then 1 else 0)
        case Ok(answer) =>
          && store == answer.0
          && writeCount == old(writeCount) + (if answer.1.performedWrite then 1 else 0)
          && replayCount == old(replayCount) + (if answer.1.performedWrite then 0 else 1)
          && result == if answer.1.performedWrite && interrupt then Err(Interrupted) else Ok(answer.1)
    {
      if q.capability != WRITE_CAPABILITY {
        return Err(CapabilityUnknown);
      }
      if q.idempotencyKey in store.actions {
        replayCount := replayCount + 1;
        var existing := store.actions[q.idempotencyKey];
        if existing.targetId !in store.records {
          return Err(TargetMissing);
        }
        return Ok(ApplyResult(false, existing, store.records[existing.targetId]));
      }
      if q.targetId !in store.records {
        return Err(TargetMissing);
      }
      var r := store.records[q.targetId];
      if RecordStateHash(r) != q.expectedPreState {
        return Err(PreStateMismatch);
      }
      if exists f | f in q.writePayload :: f.name !in WRITABLE_FIELDS {
        return Err(FieldNotWritable);
      }
      var fields := r.fields;
      for i := 0 to |q.writePayload|
        invariant fields == Merge(r.fields, q.writePayload[..i])
      {
        assert q.writePayload[..i + 1][..i] == q.writePayload[..i];
        fields := fields[q.writePayload[i].name := q.writePayload[i].value];
      }
      assert q.writePayload[..|q.writePayload|] == q.writePayload;
      var updated := Record(r.targetId, r.revision + 1, fields);
      var action := AppliedAction(q.idempotencyKey, r.targetId, q.writePayload,
                                  RecordStateHash(r), RecordStateHash(updated));
      store := Store(store.records[updated.targetId := updated], store.actions[action.idempotencyKey := action]);
      writeCount := writeCount + 1;
      if interrupt {
        return Err(Interrupted);
      }
      result := Ok(ApplyResult(true, action, updated));
    }
  }

  // ---------------------------------------------------------------------
  // Runs of requests after seeding
  // ---------------------------------------------------------------------

  predicate WellKeyed(store: Store) {
    forall t | t in store.records :: store.records[t].targetId == t
  }

  /** Fixture state: records under their own targets, and nothing applied yet. */
  predicate Fresh(store: Store) {
    WellKeyed(store) && store.actions == map[]
  }

  function StoreAfter(store: Store, q: Request): Store {
    var r := Apply(store, q);
    if r.Ok? then r.value.0 else store
  }

  predicate Performs(store: Store, q: Request) {
    var r := Apply(store, q);
    r.Ok? && r.value.1.performedWrite
  }

  function After(seed: Store, qs: seq<Request>): Store {
    if qs == [] then seed else StoreAfter(After(seed, qs[..|qs| - 1]), qs[|qs| - 1])
  }

  function Logged(log: seq<AppliedAction>, store: Store, q: Request): seq<AppliedAction> {
    if Performs(store, q) then log + [Apply(store, q).value.1.action] else log
  }

  /** The writes a run performed, in order. */
  function WriteLog(seed: Store, qs: seq<Request>): seq<AppliedAction> {
    if qs == [] then []
    else Logged(WriteLog(seed, qs[..|qs| - 1]), After(seed, qs[..|qs| - 1]), qs[|qs| - 1])
  }

  function WritesOn(log: seq<AppliedAction>, target: string): seq<AppliedAction> {
    if log == [] then []
    else
      var front := WritesOn(log[..|log| - 1], target);
      if log[|log| - 1].targetId == target then front + [log[|log| - 1]] else front
  }

  lemma WritesOnAppend(log: seq<AppliedAction>, a: AppliedAction, target: string)
    ensures WritesOn(log + [a], target)
         == if a.targetId == target then WritesOn(log, target) + [a] else WritesOn(log, target)
  {
  }

  /** The state an action sequence leads to from a record's state. */
  function EndState(start: StateDigest, chain: seq<AppliedAction>): StateDigest {
    if chain == [] then start else chain[|chain| - 1].postState
  }

  /** Each write starts from the state the previous one left, one revision on. */
  ghost predicate Linked(start: StateDigest, chain: seq<AppliedAction>) {
    forall i | 0 <= i < |chain| ::
      && chain[i].preState == EndState(start, chain[..i])
      && chain[i].preState.revision == start.revision + i
      && chain[i].postState.revision == start.revision + i + 1
  }

  lemma LinkedAppend(start: StateDigest, chain: seq<AppliedAction>, a: AppliedAction)
    requires Linked(start, chain) && a.preState == EndState(start, chain)
    requires a.postState.revision == a.preState.revision + 1
    ensures Linked(start, chain + [a]) && EndState(start, chain + [a]) == a.postState
  {
    var longer := chain + [a];
    forall i | 0 <= i < |longer|
      ensures longer[i].preState == EndState(start, longer[..i])
      ensures longer[i].preState.revision == start.revision + i
      ensures longer[i].postState.revision == start.revision + i + 1
    {
      assert i < |chain| ==> longer[..i] == chain[..i];
      assert i == |chain| ==> longer[..i] == chain;
    }
  }

  /** What one request does to the store, as seen from the write log. */
  lemma StoreMoves(store: Store, q: Request)
    requires WellKeyed(store)
    ensures
      var after := StoreAfter(store, q);
      && WellKeyed(after) && after.records.Keys == store.records.Keys
      && (!Performs(store, q) ==> after == store)
      && (Performs(store, q) ==>
            && q.targetId in store.records && q.idempotencyKey !in store.actions
            && q.expectedPreState == RecordStateHash(store.records[q.targetId])
            && Apply(store, q).value.1.action == ActionFor(store.records[q.targetId], q)
            && after.actions == store.actions[q.idempotencyKey := ActionFor(store.records[q.targetId], q)]
            && after.records == store.records[q.targetId := Updated(store.records[q.targetId], q.writePayload)])
  {
  }

  lemma {:induction false} KeysAreFixed(seed: Store, qs: seq<Request>)
    requires Fresh(seed)
    ensures WellKeyed(After(seed, qs)) && After(seed, qs).records.Keys == seed.records.Keys
  {
    if qs != [] {
      KeysAreFixed(seed, qs[..|qs| - 1]);
      StoreMoves(After(seed, qs[..|qs| - 1]), qs[|qs| - 1]);
    }
  }

  /** The writes on a target lead from its seeded record to its current one. */
  ghost predicate ChainFor(origin: Record, store: Store, log: seq<AppliedAction>, target: string) {
    var start, chain := RecordStateHash(origin), WritesOn(log, target);
    && target in store.records && Linked(start, chain)
    && EndState(start, chain) == RecordStateHash(store.records[target])
    && store.records[target].revision == origin.revision + |chain|
  }

  lemma ChainStep(origin: Record, store: Store, log: seq<AppliedAction>, q: Request, target: string)
    requires WellKeyed(store) && ChainFor(origin, store, log, target)
    ensures ChainFor(origin, StoreAfter(store, q), Logged(log, store, q), target)
  {
    StoreMoves(store, q);
    if Performs(store, q) {
      var a := ActionFor(store.records[q.targetId], q);
      WritesOnAppend(log, a, target);
      if q.targetId == target {
        LinkedAppend(RecordStateHash(origin), WritesOn(log, target), a);
      }
    }
  }

  /**
   Applied actions form a chain. On every target the writes are linked from the
   seeded state to the current one, and the revision counts them.
   */
  lemma {:induction false} ActionsFormChain(seed: Store, qs: seq<Request>, target: string)
    requires Fresh(seed) && target in seed.records
    ensures ChainFor(seed.records[target], After(seed, qs), WriteLog(seed, qs), target)
  {
    if qs != [] {
      var front := qs[..|qs| - 1];
      ActionsFormChain(seed, front, target);
      KeysAreFixed(seed, front);
      ChainStep(seed.records[target], After(seed, front), WriteLog(seed, front), qs[|qs| - 1], target);
    }
  }

  /** The books hold exactly the logged writes, each under its own key, and no key twice. */
  ghost predicate Books(store: Store, log: seq<AppliedAction>) {
    && (forall i | 0 <= i < |log| ::
          log[i].idempotencyKey in store.actions && store.actions[log[i].idempotencyKey] == log[i])
    && (forall key | key in store.actions ::
          && store.actions[key].idempotencyKey == key && store.actions[key] in log
          && store.actions[key].targetId in store.records)
    && (forall i, j | 0 <= i < j < |log| :: log[i].idempotencyKey != log[j].idempotencyKey)
  }

  lemma BooksStep(store: Store, log: seq<AppliedAction>, q: Request)
    requires WellKeyed(store) && Books(store, log)
    ensures Books(StoreAfter(store, q), Logged(log, store, q))
  {
    StoreMoves(store, q);
    if Performs(store, q) {
      var a := ActionFor(store.records[q.targetId], q);
      var after, longer := StoreAfter(store, q), log + [a];
      assert longer[|log|] == a;
      forall key | key in after.actions
        ensures after.actions[key].idempotencyKey == key && after.actions[key] in longer
        ensures after.actions[key].targetId in after.records
      {
        assert key != q.idempotencyKey ==> key in store.actions && store.actions[key] in log;
      }
    }
  }

  lemma {:induction false} BooksAreTheLog(seed: Store, qs: seq<Request>)
    requires Fresh(seed)
    ensures Books(After(seed, qs), WriteLog(seed, qs))
  {
    if qs != [] {
      var front := qs[..|qs| - 1];
      BooksAreTheLog(seed, front);
      KeysAreFixed(seed, front);
      BooksStep(After(seed, front), WriteLog(seed, front), qs[|qs| - 1]);
    }
  }

  lemma {:induction false} WritesOnMembers(log: seq<AppliedAction>, target: string, a: AppliedAction)
    ensures a in WritesOn(log, target) <==> a in log && a.targetId == target
  {
    if log != [] {
      WritesOnMembers(log[..|log| - 1], target, a);
      assert log == log[..|log| - 1] + [log[|log| - 1]];
    }
  }

  lemma {:induction false} LoggedStatesNameTheTarget(seed: Store, qs: seq<Request>, a: AppliedAction)
    requires Fresh(seed) && a in WriteLog(seed, qs)
    ensures a.preState.targetId == a.targetId && a.targetId in seed.records
  {
    var front, q := qs[..|qs| - 1], qs[|qs| - 1];
    KeysAreFixed(seed, front);
    StoreMoves(After(seed, front), q);
    if a in WriteLog(seed, front) {
      LoggedStatesNameTheTarget(seed, front, a);
    }
  }

  /** Two actions approved against one observation cannot both write. */
  lemma NoSharedPreState(seed: Store, qs: seq<Request>, a: AppliedAction, b: AppliedAction)
    requires Fresh(seed) && a in WriteLog(seed, qs) && b in WriteLog(seed, qs)
    requires a.preState == b.preState
    ensures a == b
  {
    LoggedStatesNameTheTarget(seed, qs, a);
    LoggedStatesNameTheTarget(seed, qs, b);
    var chain := WritesOn(WriteLog(seed, qs), a.targetId);
    ActionsFormChain(seed, qs, a.targetId);
    WritesOnMembers(WriteLog(seed, qs), a.targetId, a);
    WritesOnMembers(WriteLog(seed, qs), a.targetId, b);
    var i :| 0 <= i < |chain| && chain[i] == a;
    var k :| 0 <= k < |chain| && chain[k] == b;
  }

  /** A key already on the books answers its original action and changes nothing. */
  lemma ReplayReturnsOriginal(seed: Store, qs: seq<Request>, q: Request)
    requires Fresh(seed) && q.capability == WRITE_CAPABILITY && q.idempotencyKey in After(seed, qs).actions
    ensures Apply(After(seed, qs), q).Ok?
    ensures
      var (store, result) := Apply(After(seed, qs), q).value;
      store == After(seed, qs) && !result.performedWrite && result.action == store.actions[q.idempotencyKey]
  {
  }

  /** Each key has at most one write in any run, and one exactly when it is on the books. */
  lemma AtMostOneWritePerKey(seed: Store, qs: seq<Request>, key: string)
    requires Fresh(seed)
    ensures
      var log := WriteLog(seed, qs);
      && (forall i, j | 0 <= i < j < |log| :: !(log[i].idempotencyKey == key == log[j].idempotencyKey))
      && (key in After(seed, qs).actions <==> exists i :: 0 <= i < |log| && log[i].idempotencyKey == key)
  {
    BooksAreTheLog(seed, qs);
    var log := WriteLog(seed, qs);
    if key in After(seed, qs).actions {
      var i :| 0 <= i < |log| && log[i] == After(seed, qs).actions[key];
    }
  }
}
