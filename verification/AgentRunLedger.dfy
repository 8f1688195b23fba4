/**
 Out-of-order ingest of the Agent Run Ledger. Events are durably received in any
 order, held while a predecessor is missing, and drained in sequence order once
 the gap closes.
 */
module AgentRunLedger {
  import opened Prelude

  type Position = n: nat | n > 0 witness 1

  datatype Scope = Scope(
    productId: string, workflowId: string, agentId: string, attemptId: string,
    provider: string, model: string, scopeHash: string)

  /** One validated entry; `content` stands for the columns no branch reads. */
  datatype Entry = Entry(
    eventId: string, runId: string, sequence: Position, status: string, scope: Scope,
    parentRunId: Option<string>, traceId: Option<string>, content: string)

  /** The payload hash, as an injective digest of the entry it was validated against. */
  datatype Digest = PayloadDigest(entry: Entry)

  function PayloadHash(e: Entry): Digest {
    PayloadDigest(e)
  }

  /** The contract's transition rule, which lives outside the ledger. */
  type Law = (Option<Entry>, Entry) -> bool

  datatype LedgerError =
    | ScopeMismatch | IdempotencyMismatch | PayloadMismatch | SequenceMismatch
    | IllegalTransition | ReplayMismatch | TransitionMissing
    | EventConflict | SequenceConflict

  /** A row of the ingest table. */
  datatype Receipt = Receipt(entry: Entry, accepted: bool, applied: bool, causation: Option<string>)

  datatype Ledger = Ledger(receipts: seq<Receipt>, runs: map<string, Entry>, transitions: seq<Entry>)

  const EMPTY_LEDGER := Ledger([], map[], [])

  datatype IngestReply =
    | Applied(replayed: bool)
    | Pending(lastApplied: nat, lastReceived: nat)
    | Refused(error: LedgerError)

  // ---------------------------------------------------------------------
  // Lookups
  // ---------------------------------------------------------------------

  function Find<T>(s: seq<T>, p: T -> bool): (r: Option<T>)
    ensures r.Some? ==> r.value in s && p(r.value)
    ensures r.None? ==> forall x | x in s :: !p(x)
  {
    if s == [] then None
    else if p(s[0]) then Some(s[0])
    else Find(s[1..], p)
  }

  function ReceiptByEvent(rs: seq<Receipt>, eventId: string): Option<Receipt> {
    Find(rs, (r: Receipt) => r.accepted && r.entry.eventId == eventId)
  }

  function ReceiptBySlot(rs: seq<Receipt>, runId: string, sequence: int): Option<Receipt> {
    Find(rs, (r: Receipt) => r.accepted && r.entry.runId == runId && r.entry.sequence == sequence)
  }

  function PendingReceipt(rs: seq<Receipt>, runId: string, sequence: int): Option<Receipt> {
    Find(rs, (r: Receipt) =>
      r.accepted && !r.applied && r.entry.runId == runId && r.entry.sequence == sequence)
  }

  function TransitionByEvent(ts: seq<Entry>, eventId: string): Option<Entry> {
    Find(ts, (t: Entry) => t.eventId == eventId)
  }

  function TransitionBySlot(ts: seq<Entry>, runId: string, sequence: int): Option<Entry> {
    Find(ts, (t: Entry) => t.runId == runId && t.sequence == sequence)
  }

  function Current(db: Ledger, runId: string): nat {
    if runId in db.runs then db.runs[runId].sequence else 0
  }

  function Max(a: nat, b: nat): nat {
    if a < b then b else a
  }

  function LastReceived(rs: seq<Receipt>, runId: string): nat {
    if rs == [] then 0
    else
      var r := rs[|rs| - 1];
      Max(LastReceived(rs[..|rs| - 1], runId),
          if r.accepted && r.entry.runId == runId then r.entry.sequence else 0)
  }

  // ---------------------------------------------------------------------
  // The specification of one call
  // ---------------------------------------------------------------------

  predicate SameScope(a: Entry, b: Entry) {
    a.runId == b.runId && a.scope == b.scope
  }

  predicate SummaryScopeMatches(summary: Entry, e: Entry) {
    SameScope(summary, e) && summary.parentRunId == e.parentRunId && summary.traceId == e.traceId
  }

  function BindingError(bound: Entry, e: Entry): Option<LedgerError> {
    if bound.eventId != e.eventId || bound.sequence != e.sequence || bound.status != e.status
    then Some(IdempotencyMismatch)
    else if !SameScope(bound, e) then Some(ScopeMismatch)
    else if PayloadHash(bound) != PayloadHash(e) then Some(PayloadMismatch)
    else None
  }

  /** The ordered application path: true in the result means an exact replay. */
  function Append(law: Law, db: Ledger, e: Entry): Result<(Ledger, bool), LedgerError> {
    if e.runId in db.runs && !SummaryScopeMatches(db.runs[e.runId], e) then Err(ScopeMismatch)
    else
      match TransitionByEvent(db.transitions, e.eventId)
      case Some(bound) =>
        if bound.runId != e.runId then Err(IdempotencyMismatch)
        else if BindingError(bound, e).Some? then Err(BindingError(bound, e).value)
        else if bound != e then Err(ReplayMismatch)
        else Ok((db, true))
      case None =>
        match TransitionBySlot(db.transitions, e.runId, e.sequence)
        case Some(bound) =>
          if BindingError(bound, e).Some? then Err(BindingError(bound, e).value)
          else Err(IdempotencyMismatch)
        case None =>
          var previous :=
            if e.runId in db.runs
            then TransitionByEvent(db.transitions, db.runs[e.runId].eventId) else None;
          if e.runId in db.runs && e.sequence != db.runs[e.runId].sequence + 1 then Err(SequenceMismatch)
          else if e.runId in db.runs && previous.None? then Err(TransitionMissing)
          else if !law(previous, e) then Err(IllegalTransition)
          else Ok((Ledger(db.receipts, db.runs[e.runId := e], db.transitions + [e]), false))
  }

  function Marked(rs: seq<Receipt>, eventId: string): (out: seq<Receipt>)
    ensures |out| == |rs|
    ensures forall i | 0 <= i < |rs| ::
              out[i] == if rs[i].accepted && rs[i].entry.eventId == eventId
                        then rs[i].(applied := true) else rs[i]
  {
    seq(|rs|, i requires 0 <= i < |rs| =>
      if rs[i].accepted && rs[i].entry.eventId == eventId then rs[i].(applied := true) else rs[i])
  }

  function MarkApplied(db: Ledger, eventId: string): Ledger {
    db.(receipts := Marked(db.receipts, eventId))
  }

  function Unapplied(rs: seq<Receipt>): nat {
    if rs == [] then 0
    else Unapplied(rs[..|rs| - 1])
         + (if rs[|rs| - 1].accepted && !rs[|rs| - 1].applied then 1 else 0)
  }

  lemma {:induction false} MarkingShrinksUnapplied(rs: seq<Receipt>, eventId: string)
    ensures Unapplied(Marked(rs, eventId)) <= Unapplied(rs)
    ensures (exists r | r in rs :: r.accepted && !r.applied && r.entry.eventId == eventId) ==>
              Unapplied(Marked(rs, eventId)) < Unapplied(rs)
  {
    if rs != [] {
      var front := rs[..|rs| - 1];
      MarkingShrinksUnapplied(front, eventId);
      assert Marked(rs, eventId)[..|rs| - 1] == Marked(front, eventId);
      assert rs == front + [rs[|rs| - 1]];
    }
  }

  /** Applies one held receipt and marks it, as one turn of the drain loop. */
  function ApplyHeld(law: Law, db: Ledger, held: Receipt): (r: Result<Ledger, LedgerError>)
    requires held in db.receipts && held.accepted && !held.applied
    ensures r.Ok? ==> Unapplied(r.value.receipts) < Unapplied(db.receipts)
  {
    MarkingShrinksUnapplied(db.receipts, held.entry.eventId);
    match Append(law, db, held.entry)
    case Err(error) => Err(error)
    case Ok(appended) => Ok(MarkApplied(appended.0, held.entry.eventId))
  }

  function Drain(law: Law, db: Ledger, runId: string): Result<Ledger, LedgerError>
    decreases Unapplied(db.receipts)
  {
    var pending := PendingReceipt(db.receipts, runId, Current(db, runId) + 1);
    if pending.None? then Ok(db)
    else
      var applied := ApplyHeld(law, db, pending.value);
      if applied.Err? then applied else Drain(law, applied.value, runId)
  }

  function Received(db: Ledger, e: Entry, accepted: bool): Ledger {
    var predecessor := if accepted then ReceiptBySlot(db.receipts, e.runId, e.sequence - 1) else None;
    var causation := if predecessor.Some? then Some(predecessor.value.entry.eventId) else None;
    db.(receipts := db.receipts + [Receipt(e, accepted, false, causation)])
  }

  function Conflict(db: Ledger, e: Entry): Option<LedgerError> {
    match ReceiptByEvent(db.receipts, e.eventId)
    case Some(r) => if PayloadHash(r.entry) != PayloadHash(e) then Some(EventConflict) else None
    case None =>
      if ReceiptBySlot(db.receipts, e.runId, e.sequence).Some? then Some(SequenceConflict) else None
  }

  function IngestValidated(law: Law, db: Ledger, e: Entry): Result<(Ledger, IngestReply), LedgerError> {
    var received :=
      if ReceiptByEvent(db.receipts, e.eventId).None? then Received(db, e, true) else db;
    if e.sequence <= Current(received, e.runId) + 1 then
      match Append(law, received, e)
      case Err(error) => Err(error)
      case Ok(appended) =>
        match Drain(law, MarkApplied(appended.0, e.eventId), e.runId)
        case Err(error) => Err(error)
        case Ok(drained) => Ok((drained, Applied(appended.1)))
    else
      Ok((received, Pending(Current(received, e.runId), LastReceived(received.receipts, e.runId))))
  }

  /** One delivery: conflict evidence survives a refusal, a failed application does not. */
  function Ingest(law: Law, db: Ledger, e: Entry): (Ledger, IngestReply) {
    match Conflict(db, e)
    case Some(error) => (Received(db, e, false), Refused(error))
    case None =>
      match IngestValidated(law, db, e)
      case Err(error) => (db, Refused(error))
      case Ok(outcome) => outcome
  }

  /** A run's view; `latest` is the accepted entry of greatest sequence, whose event type is shown. */
  datatype Projection = Projection(
    lastApplied: nat, lastReceived: nat, gapOpen: bool, conflicted: bool,
    runStatus: Option<string>, latest: Option<Entry>)

  /** None is the not-found error: no summary and nothing accepted. */
  function Project(db: Ledger, runId: string): Option<Projection> {
    var latest := Latest(db.receipts, runId);
    if runId !in db.runs && latest.None? then None
    else Some(Projection(
      Current(db, runId), LastReceived(db.receipts, runId),
      LastReceived(db.receipts, runId) > Current(db, runId),
      Find(db.receipts, (r: Receipt) => !r.accepted && r.entry.runId == runId).Some?,
      if runId in db.runs then Some(db.runs[runId].status) else None, latest))
  }

  /** The accepted entry of a run with the greatest sequence; slots are unique, so there is no tie to break. */
  function Latest(rs: seq<Receipt>, runId: string): Option<Entry> {
    if rs == [] then None
    else
      var before, r := Latest(rs[..|rs| - 1], runId), rs[|rs| - 1];
      if r.accepted && r.entry.runId == runId && (before.Some? ==> before.value.sequence < r.entry.sequence)
      then Some(r.entry) else before
  }

  /** It is accepted, of that run, and none accepted of that run is beyond it. */
  lemma {:induction false} LatestIsGreatest(rs: seq<Receipt>, runId: string)
    ensures var latest := Latest(rs, runId);
      && (latest.Some? ==> exists r | r in rs :: r.accepted && r.entry == latest.value && r.entry.runId == runId)
      && (forall r | r in rs && r.accepted && r.entry.runId == runId ::
            latest.Some? && r.entry.sequence <= latest.value.sequence)
      && LastReceived(rs, runId) == (if latest.Some? then latest.value.sequence else 0)
  {
    if rs != [] {
      LatestIsGreatest(rs[..|rs| - 1], runId);
      assert rs == rs[..|rs| - 1] + [rs[|rs| - 1]];
    }
  }

  // ---------------------------------------------------------------------
  // The service object
  // ---------------------------------------------------------------------

  class AgentRunLedgerService {
    const law: Law
    var receipts: seq<Receipt>
    var runs: map<string, Entry>
    var transitions: seq<Entry>

    constructor (law: Law)
      ensures this.law == law && State() == EMPTY_LEDGER
    {
      this.law := law;
      receipts, runs, transitions := [], map[], [];
    }

    function State(): Ledger
      reads this
    {
      Ledger(receipts, runs, transitions)
    }

    method AppendEntry(e: Entry) returns (reply: Result<bool, LedgerError>)
      modifies this
      ensures
        match Append(law, old(State()), e)
        case Err(error) => reply == Err(error) && State() == old(State())
        case Ok(appended) => reply == Ok(appended.1) && State() == appended.0
    {
      if e.runId in runs && !SummaryScopeMatches(runs[e.runId], e) {
        return Err(ScopeMismatch);
      }
      var byEvent := TransitionByEvent(transitions, e.eventId);
      if byEvent.Some? {
        if byEvent.value.runId != e.runId {
          return Err(IdempotencyMismatch);
        }
        var mismatch := BindingError(byEvent.value, e);
        if mismatch.Some? {
          return Err(mismatch.value);
        }
        return if byEvent.value != e then Err(ReplayMismatch) else Ok(true);
      }
      var bySlot := TransitionBySlot(transitions, e.runId, e.sequence);
      if bySlot.Some? {
        var mismatch := BindingError(bySlot.value, e);
        return Err(if mismatch.Some? then mismatch.value else IdempotencyMismatch);
      }
      var previous := None;
      if e.runId in runs {
        if e.sequence != runs[e.runId].sequence + 1 {
          return Err(SequenceMismatch);
        }
        previous := TransitionByEvent(transitions, runs[e.runId].eventId);
        if previous.None? {
          return Err(TransitionMissing);
        }
      }
      if !law(previous, e) {
        return Err(IllegalTransition);
      }
      runs := runs[e.runId := e];
      transitions := transitions + [e];
      reply := Ok(false);
    }

    method ApplyPending(held: Receipt) returns (reply: Option<LedgerError>)
      requires held in receipts && held.accepted && !held.applied
      modifies this
      ensures reply.None? ==> ApplyHeld(law, old(State()), held) == Ok(State())
      ensures reply.Some? ==> ApplyHeld(law, old(State()), held) == Err(reply.value)
    {
      var appended := AppendEntry(held.entry);
      if appended.Err? {
        return Some(appended.error);
      }
      receipts := Marked(receipts, held.entry.eventId);
      reply := None;
    }

    method DrainRun(runId: string) returns (reply: Option<LedgerError>)
      modifies this
      ensures reply.None? ==> Drain(law, old(State()), runId) == Ok(State())
      ensures reply.Some? ==> Drain(law, old(State()), runId) == Err(reply.value)
    {
      ghost var goal := Drain(law, State(), runId);
      while true
        invariant Drain(law, State(), runId) == goal
        decreases Unapplied(receipts)
      {
        var next := (if runId in runs then runs[runId].sequence else 0) + 1;
        var pending := PendingReceipt(receipts, runId, next);
        if pending.None? {
          return None;
        }
        ghost var before := State();
        reply := ApplyPending(pending.value);
        assert goal == (var applied := ApplyHeld(law, before, pending.value);
                        if applied.Err? then applied else Drain(law, applied.value, runId));
        if reply.Some? {
          return;
        }
      }
    }

    method IngestEntry(e: Entry) returns (reply: IngestReply)
      modifies this
      ensures (State(), reply) == Ingest(law, old(State()), e)
    {
      var conflict := Conflict(State(), e);
      if conflict.Some? {
        receipts := Received(State(), e, false).receipts;
        return Refused(conflict.value);
      }
      var savedReceipts, savedRuns, savedTransitions := receipts, runs, transitions;
      if ReceiptByEvent(receipts, e.eventId).None? {
        receipts := Received(State(), e, true).receipts;
      }
      var expectedNext := if e.runId in runs then runs[e.runId].sequence + 1 else 1;
      if e.sequence > expectedNext {
        return Pending(expectedNext - 1, LastReceived(receipts, e.runId));
      }
      var appended := AppendEntry(e);
      if appended.Ok? {
        receipts := Marked(receipts, e.eventId);
        var drained := DrainRun(e.runId);
        if drained.None? {
          return Applied(appended.value);
        }
        appended := Err(drained.value);
      }
      receipts, runs, transitions := savedReceipts, savedRuns, savedTransitions;
      reply := Refused(appended.error);
    }

    method GetIngestProjection(runId: string) returns (p: Option<Projection>)
      ensures p == Project(State(), runId)
    {
      var lastApplied := if runId in runs then runs[runId].sequence else 0;
      var lastReceived := 0;
      var conflicted := false;
      var latest := None;
      for i := 0 to |receipts|
        invariant lastReceived == LastReceived(receipts[..i], runId) && latest == Latest(receipts[..i], runId)
        invariant conflicted <==> exists r | r in receipts[..i] :: !r.accepted && r.entry.runId == runId
      {
        assert receipts[..i + 1][..i] == receipts[..i] && receipts[..i + 1] == receipts[..i] + [receipts[i]];
        if receipts[i].entry.runId == runId {
          if receipts[i].accepted {
            lastReceived := Max(lastReceived, receipts[i].entry.sequence);
            if latest.None? || latest.value.sequence < receipts[i].entry.sequence {
              latest := Some(receipts[i].entry);
            }
          } else {
            conflicted := true;
          }
        }
      }
      assert receipts[..|receipts|] == receipts;
      if runId !in runs && latest.None? {
        return None;
      }
      p := Some(Projection(lastApplied, lastReceived, lastReceived > lastApplied, conflicted,
                           if runId in runs then Some(runs[runId].status) else None, latest));
    }
  }
}
