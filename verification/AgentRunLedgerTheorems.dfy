/**
 What ingest promises whatever the delivery order: after every call the applied
 rows of a run are its longest contiguous prefix.
 */
module AgentRunLedgerTheorems {
  import opened Prelude
  import opened AgentRunLedger

  /** The transitions of one run, in the order they were applied. */
  function History(ts: seq<Entry>, runId: string): seq<Entry> {
    if ts == [] then []
    else
      var front := History(ts[..|ts| - 1], runId);
      if ts[|ts| - 1].runId == runId then front + [ts[|ts| - 1]] else front
  }

  lemma {:induction false} HistoryMembers(ts: seq<Entry>, runId: string)
    ensures forall t :: t in History(ts, runId) <==> t in ts && t.runId == runId
  {
    if ts != [] {
      HistoryMembers(ts[..|ts| - 1], runId);
      assert ts == ts[..|ts| - 1] + [ts[|ts| - 1]];
    }
  }

  // ---------------------------------------------------------------------
  // The invariant
  // ---------------------------------------------------------------------

  /** Sequences 1..n, in one scope. */
  ghost predicate Consecutive(h: seq<Entry>) {
    forall k | 0 <= k < |h| :: h[k].sequence == k + 1 && SummaryScopeMatches(h[|h| - 1], h[k])
  }

  lemma HistoryOfAppend(ts: seq<Entry>, e: Entry, runId: string)
    ensures History(ts + [e], runId)
         == if e.runId == runId then History(ts, runId) + [e] else History(ts, runId)
  {
    assert (ts + [e])[..|ts + [e]| - 1] == ts;
  }

  lemma ConsecutiveGrows(h: seq<Entry>, e: Entry)
    requires Consecutive(h) && e.sequence == |h| + 1 && (h != [] ==> SummaryScopeMatches(h[|h| - 1], e))
    ensures Consecutive(h + [e])
  {
    var longer := h + [e];
    forall k | 0 <= k < |longer| ensures longer[k].sequence == k + 1 && SummaryScopeMatches(e, longer[k]) {
      if k < |h| {
        assert SummaryScopeMatches(h[|h| - 1], h[k]);
      }
    }
  }

  /** The run's transitions are exactly sequences 1..n, in one scope, and the summary is the last. */
  ghost predicate Chained(db: Ledger, runId: string) {
    var h := History(db.transitions, runId);
    && Consecutive(h)
    && (runId in db.runs <==> h != [])
    && (h != [] ==> db.runs[runId] == h[|h| - 1])
  }

  ghost predicate UniqueReceipts(rs: seq<Receipt>) {
    forall i, j | 0 <= i < j < |rs| && rs[i].accepted && rs[j].accepted ::
      && rs[i].entry.eventId != rs[j].entry.eventId
      && (rs[i].entry.runId != rs[j].entry.runId || rs[i].entry.sequence != rs[j].entry.sequence)
  }

  ghost predicate AppliedIffTransition(db: Ledger) {
    forall r | r in db.receipts && r.accepted :: r.applied <==> r.entry in db.transitions
  }

  ghost predicate EveryTransitionReceived(db: Ledger) {
    forall t | t in db.transitions :: ReceivedAs(db.receipts, t)
  }

  ghost predicate ReceivedAs(rs: seq<Receipt>, e: Entry) {
    exists r | r in rs :: r.accepted && r.entry == e
  }

  /** No accepted row is left waiting right after the applied prefix. */
  ghost predicate Settled(db: Ledger, runId: string) {
    forall r | r in db.receipts && r.accepted && !r.applied && r.entry.runId == runId ::
      r.entry.sequence != Current(db, runId) + 1
  }

  ghost predicate Core(db: Ledger) {
    && (forall runId :: Chained(db, runId))
    && UniqueReceipts(db.receipts)
    && AppliedIffTransition(db)
    && EveryTransitionReceived(db)
  }

  ghost predicate Inv(db: Ledger) {
    Core(db) && forall runId :: Settled(db, runId)
  }

  lemma CurrentIsLength(db: Ledger, runId: string)
    requires Chained(db, runId)
    ensures Current(db, runId) == |History(db.transitions, runId)|
  {
  }

  /** A transition sits at its own sequence of its run's history. */
  lemma TransitionPlace(db: Ledger, t: Entry)
    requires Chained(db, t.runId) && t in db.transitions
    ensures t.sequence <= |History(db.transitions, t.runId)|
    ensures History(db.transitions, t.runId)[t.sequence - 1] == t
  {
    HistoryMembers(db.transitions, t.runId);
    var h := History(db.transitions, t.runId);
    assert t in h;
    var k :| 0 <= k < |h| && h[k] == t;
  }

  /** Accepted receipts that share an event are one receipt. */
  lemma ReceiptOfEvent(rs: seq<Receipt>, a: Receipt, b: Receipt)
    requires UniqueReceipts(rs) && a in rs && b in rs && a.accepted && b.accepted
    requires a.entry.eventId == b.entry.eventId
          || (a.entry.runId == b.entry.runId && a.entry.sequence == b.entry.sequence)
    ensures a == b
  {
  }

  /** An accepted row waits only beyond the applied prefix. */
  lemma WaitingIsBeyond(db: Ledger, r: Receipt)
    requires Core(db) && r in db.receipts && r.accepted && !r.applied
    ensures r.entry.sequence > Current(db, r.entry.runId)
  {
    var runId := r.entry.runId;
    var h := History(db.transitions, runId);
    CurrentIsLength(db, runId);
    if r.entry.sequence <= |h| {
      var t := h[r.entry.sequence - 1];
      HistoryMembers(db.transitions, runId);
      assert t in h;
      var owner :| owner in db.receipts && owner.accepted && owner.entry == t;
      assert Chained(db, runId);
      ReceiptOfEvent(db.receipts, r, owner);
    }
  }

  /** Every slot up to the current one is owned by an accepted receipt. */
  lemma PrefixSlotsOwned(db: Ledger, runId: string, sequence: Position)
    requires Core(db) && sequence <= Current(db, runId)
    ensures ReceiptBySlot(db.receipts, runId, sequence).Some?
  {
    var h := History(db.transitions, runId);
    CurrentIsLength(db, runId);
    HistoryMembers(db.transitions, runId);
    var t := h[sequence - 1];
    assert t in h;
    var owner :| owner in db.receipts && owner.accepted && owner.entry == t;
    assert Chained(db, runId) && owner.entry.sequence == sequence;
  }

  // ---------------------------------------------------------------------
  // One application
  // ---------------------------------------------------------------------

  ghost predicate HeldNext(db: Ledger, held: Receipt) {
    && held in db.receipts && held.accepted && !held.applied
    && held.entry.sequence == Current(db, held.entry.runId) + 1
  }

  function Previous(db: Ledger, runId: string): Option<Entry> {
    if runId in db.runs then Some(db.runs[runId]) else None
  }

  predicate Admissible(law: Law, previous: Option<Entry>, e: Entry) {
    && (previous.Some? ==> SummaryScopeMatches(previous.value, e))
    && law(previous, e)
  }

  lemma HeldIsUnbound(db: Ledger, held: Receipt)
    requires Core(db) && HeldNext(db, held)
    ensures TransitionByEvent(db.transitions, held.entry.eventId).None?
    ensures TransitionBySlot(db.transitions, held.entry.runId, held.entry.sequence).None?
  {
  }

  lemma SummaryIsReadable(db: Ledger, runId: string)
    requires Core(db) && runId in db.runs
    ensures TransitionByEvent(db.transitions, db.runs[runId].eventId) == Some(db.runs[runId])
  {
    assert Chained(db, runId);
    HistoryMembers(db.transitions, runId);
    var last := db.runs[runId];
    var h := History(db.transitions, runId);
    assert h[|h| - 1] in h;
    var found := TransitionByEvent(db.transitions, last.eventId);
    assert found.Some?;
    assert ReceivedAs(db.receipts, last) && ReceivedAs(db.receipts, found.value);
    var a :| a in db.receipts && a.accepted && a.entry == last;
    var b :| b in db.receipts && b.accepted && b.entry == found.value;
    ReceiptOfEvent(db.receipts, a, b);
  }

  /** The next held entry is applied exactly when scope and law admit it. */
  lemma ApplyingHeld(law: Law, db: Ledger, held: Receipt)
    requires Core(db) && HeldNext(db, held)
    ensures
      var e := held.entry;
      && Append(law, db, e).Ok? == Admissible(law, Previous(db, e.runId), e)
      && (Append(law, db, e).Ok? ==>
            Append(law, db, e).value == (Ledger(db.receipts, db.runs[e.runId := e], db.transitions + [e]), false))
  {
    HeldIsUnbound(db, held);
    var e := held.entry;
    if e.runId in db.runs {
      SummaryIsReadable(db, e.runId);
    }
  }

  function Advanced(db: Ledger, e: Entry): Ledger {
    Ledger(Marked(db.receipts, e.eventId), db.runs[e.runId := e], db.transitions + [e])
  }

  predicate ScopeFits(db: Ledger, e: Entry) {
    e.runId in db.runs ==> SummaryScopeMatches(db.runs[e.runId], e)
  }

  lemma AdvancedChains(db: Ledger, e: Entry, runId: string)
    requires Chained(db, runId) && ScopeFits(db, e) && e.sequence == Current(db, e.runId) + 1
    ensures Chained(Advanced(db, e), runId)
  {
    HistoryOfAppend(db.transitions, e, runId);
    CurrentIsLength(db, runId);
    if runId == e.runId {
      ConsecutiveGrows(History(db.transitions, runId), e);
    }
  }

  lemma AdvancedMatches(db: Ledger, held: Receipt)
    requires Core(db) && HeldNext(db, held)
    ensures AppliedIffTransition(Advanced(db, held.entry))
    ensures EveryTransitionReceived(Advanced(db, held.entry))
  {
  }

  lemma AdvancedKeepsCore(db: Ledger, held: Receipt)
    requires Core(db) && HeldNext(db, held) && ScopeFits(db, held.entry)
    ensures Core(Advanced(db, held.entry))
  {
    forall runId ensures Chained(Advanced(db, held.entry), runId) {
      assert Chained(db, runId);
      AdvancedChains(db, held.entry, runId);
    }
    AdvancedMatches(db, held);
  }

  // ---------------------------------------------------------------------
  // The drain
  // ---------------------------------------------------------------------

  /** Nothing about another run moved. */
  ghost predicate SameElsewhere(a: Ledger, b: Ledger, runId: string) {
    forall other | other != runId ::
      History(a.transitions, other) == History(b.transitions, other) && (Settled(a, other) ==> Settled(b, other))
  }

  lemma AdvancedSameElsewhere(db: Ledger, held: Receipt)
    requires Core(db) && HeldNext(db, held)
    ensures SameElsewhere(db, Advanced(db, held.entry), held.entry.runId)
  {
  }

  /** The receipts are the same deliveries, with possibly more of them applied. */
  ghost predicate SameReceived(a: seq<Receipt>, b: seq<Receipt>) {
    && |a| == |b|
    && forall i | 0 <= i < |a| :: a[i].entry == b[i].entry && a[i].accepted == b[i].accepted
  }

  /** One turn of the drain keeps the core, other runs and the set of deliveries. */
  lemma DrainTurn(law: Law, db: Ledger, held: Receipt)
    requires Core(db) && HeldNext(db, held) && ApplyHeld(law, db, held).Ok?
    ensures
      var next := ApplyHeld(law, db, held).value;
      && next == Advanced(db, held.entry) && Core(next)
      && SameElsewhere(db, next, held.entry.runId) && SameReceived(db.receipts, next.receipts)
  {
    ApplyingHeld(law, db, held);
    AdvancedKeepsCore(db, held);
    AdvancedSameElsewhere(db, held);
  }

  lemma SameIsTransitive(a: Ledger, b: Ledger, c: Ledger, runId: string)
    requires SameElsewhere(a, b, runId) && SameElsewhere(b, c, runId)
    requires SameReceived(a.receipts, b.receipts) && SameReceived(b.receipts, c.receipts)
    ensures SameElsewhere(a, c, runId) && SameReceived(a.receipts, c.receipts)
  {
  }

  /** A drain that ends leaves the invariant, a settled run, and other runs alone. */
  lemma {:induction false} DrainSettles(law: Law, db: Ledger, runId: string)
    requires Core(db) && Drain(law, db, runId).Ok?
    ensures
      var out := Drain(law, db, runId).value;
      && Core(out) && Settled(out, runId) && SameElsewhere(db, out, runId)
      && SameReceived(db.receipts, out.receipts)
    decreases Unapplied(db.receipts)
  {
    var pending := PendingReceipt(db.receipts, runId, Current(db, runId) + 1);
    if pending.Some? {
      DrainTurn(law, db, pending.value);
      var next := ApplyHeld(law, db, pending.value).value;
      DrainSettles(law, next, runId);
      SameIsTransitive(db, next, Drain(law, next, runId).value, runId);
    }
  }

  // ---------------------------------------------------------------------
  // Every call keeps the invariant
  // ---------------------------------------------------------------------

  lemma EmptyLedgerInv()
    ensures Inv(EMPTY_LEDGER)
  {
  }

  lemma ConflictEvidenceKeepsInv(db: Ledger, e: Entry)
    requires Inv(db)
    ensures Inv(Received(db, e, false))
  {
    var out := Received(db, e, false);
    forall runId ensures Chained(out, runId) && Settled(out, runId) {
      assert Chained(db, runId) && Settled(db, runId);
    }
    forall t | t in out.transitions ensures ReceivedAs(out.receipts, t) {
      assert ReceivedAs(db.receipts, t);
      var r :| r in db.receipts && r.accepted && r.entry == t;
      assert r in out.receipts;
    }
  }

  lemma ReceivingKeepsCore(db: Ledger, e: Entry)
    requires Core(db) && Conflict(db, e).None? && ReceiptByEvent(db.receipts, e.eventId).None?
    ensures Core(Received(db, e, true))
    ensures e.sequence > Current(db, e.runId)
    ensures forall other | Settled(db, other) && (other == e.runId ==> e.sequence != Current(db, other) + 1) ::
              Settled(Received(db, e, true), other)
  {
    if e.sequence <= Current(db, e.runId) {
      PrefixSlotsOwned(db, e.runId, e.sequence);
    }
    var out := Received(db, e, true);
    assert ReceiptBySlot(db.receipts, e.runId, e.sequence).None?;
    forall i | 0 <= i < |db.receipts| && db.receipts[i].accepted
      ensures db.receipts[i].entry.eventId != e.eventId
      ensures db.receipts[i].entry.runId != e.runId || db.receipts[i].entry.sequence != e.sequence
    {
      assert db.receipts[i] in db.receipts;
    }
    forall runId ensures Chained(out, runId) {
      assert Chained(db, runId);
    }
    forall t | t in db.transitions ensures t != e {
      assert ReceivedAs(db.receipts, t);
      var r :| r in db.receipts && r.accepted && r.entry == t;
    }
    forall t | t in out.transitions ensures ReceivedAs(out.receipts, t) {
      assert ReceivedAs(db.receipts, t);
      var r :| r in db.receipts && r.accepted && r.entry == t;
      assert r in out.receipts;
    }
  }

  /** What an ingest that reaches the tables does, in terms of the drain alone. */
  lemma IngestIsReceiveThenDrain(law: Law, db: Ledger, e: Entry)
    requires Inv(db) && Conflict(db, e).None?
    ensures ReceiptByEvent(db.receipts, e.eventId).Some? ==>
              ReceivedAs(db.receipts, e) && Ingest(law, db, e).0 == db && !Ingest(law, db, e).1.Refused?
    ensures ReceiptByEvent(db.receipts, e.eventId).None? ==>
              var received := Received(db, e, true);
              && (Drain(law, received, e.runId).Err? ==>
                    Ingest(law, db, e).0 == db && Ingest(law, db, e).1.Refused?)
              && (Drain(law, received, e.runId).Ok? ==>
                    Ingest(law, db, e).0 == Drain(law, received, e.runId).value
                    && !Ingest(law, db, e).1.Refused?)
  {
    var known := ReceiptByEvent(db.receipts, e.eventId);
    if known.Some? {
      IngestAgain(law, db, known.value);
    } else {
      FreshIngest(law, db, e);
    }
  }

  lemma AppendThenMark(law: Law, db: Ledger, held: Receipt)
    requires held in db.receipts && held.accepted && !held.applied
    ensures var appended := Append(law, db, held.entry);
      if appended.Err? then ApplyHeld(law, db, held) == Err(appended.error)
      else ApplyHeld(law, db, held) == Ok(MarkApplied(appended.value.0, held.entry.eventId))
  {
  }

  lemma DrainTakes(law: Law, db: Ledger, runId: string, held: Receipt)
    requires PendingReceipt(db.receipts, runId, Current(db, runId) + 1) == Some(held)
    ensures var taken := ApplyHeld(law, db, held);
      Drain(law, db, runId) == if taken.Err? then taken else Drain(law, taken.value, runId)
  {
  }

  lemma FreshNextValidated(law: Law, db: Ledger, e: Entry)
    requires ReceiptByEvent(db.receipts, e.eventId).None? && e.sequence == Current(db, e.runId) + 1
    ensures var appended := Append(law, Received(db, e, true), e);
      && (appended.Err? ==> IngestValidated(law, db, e) == Err(appended.error))
      && (appended.Ok? ==>
            var drained := Drain(law, MarkApplied(appended.value.0, e.eventId), e.runId);
            if drained.Err? then IngestValidated(law, db, e) == Err(drained.error)
            else IngestValidated(law, db, e) == Ok((drained.value, Applied(appended.value.1))))
  {
  }

  /** Taking the successor up directly is one turn of the drain. */
  lemma FreshNext(law: Law, db: Ledger, e: Entry, held: Receipt)
    requires Conflict(db, e).None? && ReceiptByEvent(db.receipts, e.eventId).None?
    requires e.sequence == Current(db, e.runId) + 1 && held.entry == e
    requires PendingReceipt(Received(db, e, true).receipts, e.runId, e.sequence) == Some(held)
    ensures var drained := Drain(law, Received(db, e, true), e.runId);
      if drained.Err? then Ingest(law, db, e) == (db, Refused(drained.error))
      else Ingest(law, db, e).0 == drained.value && !Ingest(law, db, e).1.Refused?
  {
    var received := Received(db, e, true);
    AppendThenMark(law, received, held);
    DrainTakes(law, received, e.runId, held);
    FreshNextValidated(law, db, e);
  }

  lemma FreshBeyond(law: Law, db: Ledger, e: Entry)
    requires Conflict(db, e).None? && ReceiptByEvent(db.receipts, e.eventId).None?
    requires e.sequence > Current(db, e.runId) + 1
    requires PendingReceipt(Received(db, e, true).receipts, e.runId, Current(db, e.runId) + 1).None?
    ensures var received := Received(db, e, true);
      Drain(law, received, e.runId) == Ok(received)
      && Ingest(law, db, e).0 == received && !Ingest(law, db, e).1.Refused?
  {
  }

  lemma FreshIngest(law: Law, db: Ledger, e: Entry)
    requires Inv(db) && Conflict(db, e).None? && ReceiptByEvent(db.receipts, e.eventId).None?
    ensures var drained := Drain(law, Received(db, e, true), e.runId);
      if drained.Err? then Ingest(law, db, e).0 == db && Ingest(law, db, e).1.Refused?
      else Ingest(law, db, e).0 == drained.value && !Ingest(law, db, e).1.Refused?
  {
    ReceivingKeepsCore(db, e);
    if e.sequence == Current(db, e.runId) + 1 {
      NextIsHeld(db, e);
      FreshNext(law, db, e, PendingReceipt(Received(db, e, true).receipts, e.runId, e.sequence).value);
    } else {
      var received := Received(db, e, true);
      assert Settled(db, e.runId) && Settled(received, e.runId);
      FreshBeyond(law, db, e);
    }
  }

  /** A received successor of the current entry is the receipt the drain takes up. */
  lemma NextIsHeld(db: Ledger, e: Entry)
    requires Core(Received(db, e, true)) && e.sequence == Current(db, e.runId) + 1
    ensures var received := Received(db, e, true);
      var pending := PendingReceipt(received.receipts, e.runId, Current(received, e.runId) + 1);
      pending.Some? && pending.value.entry == e && HeldNext(received, pending.value)
  {
    var received := Received(db, e, true);
    var held := received.receipts[|db.receipts|];
    assert held in received.receipts && HeldNext(received, held);
    var pending := PendingReceipt(received.receipts, e.runId, Current(received, e.runId) + 1);
    ReceiptOfEvent(received.receipts, held, pending.value);
  }

  /** A repeated delivery changes nothing: applied entries replay, held ones stay held. */
  lemma IngestAgain(law: Law, db: Ledger, r: Receipt)
    requires Inv(db) && r in db.receipts && r.accepted
    requires ReceiptByEvent(db.receipts, r.entry.eventId) == Some(r)
    ensures Ingest(law, db, r.entry).0 == db
    ensures Ingest(law, db, r.entry).1 == (if r.applied then Applied(true)
              else Pending(Current(db, r.entry.runId), LastReceived(db.receipts, r.entry.runId)))
  {
    var e := r.entry;
    assert Settled(db, e.runId) && Chained(db, e.runId);
    if r.applied {
      AppliedReplays(law, db, r);
      MarkingAppliedIsIdle(db, r);
      assert PendingReceipt(db.receipts, e.runId, Current(db, e.runId) + 1).None?;
    } else {
      WaitingIsBeyond(db, r);
    }
  }

  lemma MarkingAppliedIsIdle(db: Ledger, r: Receipt)
    requires UniqueReceipts(db.receipts) && r in db.receipts && r.accepted && r.applied
    ensures MarkApplied(db, r.entry.eventId) == db
  {
  }

  /** An entry already applied is answered as an exact replay. */
  lemma AppliedReplays(law: Law, db: Ledger, r: Receipt)
    requires Core(db) && r in db.receipts && r.accepted && r.applied
    ensures Append(law, db, r.entry) == Ok((db, true))
    ensures r.entry.sequence <= Current(db, r.entry.runId)
  {
    var e := r.entry;
    assert Chained(db, e.runId);
    TransitionPlace(db, e);
    CurrentIsLength(db, e.runId);
    var found := TransitionByEvent(db.transitions, e.eventId);
    assert found.Some?;
    assert ReceivedAs(db.receipts, found.value);
    var owner :| owner in db.receipts && owner.accepted && owner.entry == found.value;
    ReceiptOfEvent(db.receipts, r, owner);
  }

  /**
   The contiguous-prefix invariant: accepted, refused or rolled back, every call
   leaves each run's transitions exactly 1..n with the summary on the last, one
   accepted receipt per event and per slot, applied rows exactly the transitions,
   and nothing waiting at n + 1.
   */
  lemma IngestKeepsInv(law: Law, db: Ledger, e: Entry)
    requires Inv(db)
    ensures Inv(Ingest(law, db, e).0)
  {
    if Conflict(db, e).Some? {
      ConflictEvidenceKeepsInv(db, e);
    } else {
      IngestIsReceiveThenDrain(law, db, e);
      if ReceiptByEvent(db.receipts, e.eventId).None? && Drain(law, Received(db, e, true), e.runId).Ok? {
        ReceivingKeepsCore(db, e);
        var received := Received(db, e, true);
        DrainSettles(law, received, e.runId);
        var out := Drain(law, received, e.runId).value;
        forall runId ensures Settled(out, runId) {
          assert Settled(db, runId);
          assert runId != e.runId ==> Settled(received, runId);
        }
      }
    }
  }

  function IngestAll(law: Law, deliveries: seq<Entry>): Ledger {
    if deliveries == [] then EMPTY_LEDGER
    else Ingest(law, IngestAll(law, deliveries[..|deliveries| - 1]), deliveries[|deliveries| - 1]).0
  }

  lemma {:induction false} EveryDeliveryKeepsInv(law: Law, deliveries: seq<Entry>)
    ensures Inv(IngestAll(law, deliveries))
  {
    if deliveries == [] {
      EmptyLedgerInv();
    } else {
      EveryDeliveryKeepsInv(law, deliveries[..|deliveries| - 1]);
      IngestKeepsInv(law, IngestAll(law, deliveries[..|deliveries| - 1]), deliveries[|deliveries| - 1]);
    }
  }

  // ---------------------------------------------------------------------
  // The gap flag
  // ---------------------------------------------------------------------

  lemma {:induction false} LastReceivedIsMaximum(rs: seq<Receipt>, runId: string)
    ensures forall r | r in rs && r.accepted && r.entry.runId == runId ::
              r.entry.sequence <= LastReceived(rs, runId)
    ensures LastReceived(rs, runId) > 0 ==>
              exists r | r in rs :: r.accepted && r.entry.runId == runId && r.entry.sequence == LastReceived(rs, runId)
  {
    if rs != [] {
      var front := rs[..|rs| - 1];
      LastReceivedIsMaximum(front, runId);
      assert rs == front + [rs[|rs| - 1]];
      if LastReceived(rs, runId) > 0 && LastReceived(rs, runId) == LastReceived(front, runId) {
        var r :| r in front && r.accepted && r.entry.runId == runId && r.entry.sequence == LastReceived(front, runId);
        assert r in rs;
      }
    }
  }

  /** The reported gap is open exactly when an accepted entry is still waiting. */
  lemma GapOpenIffSomethingWaits(db: Ledger, runId: string)
    requires Inv(db)
    ensures Project(db, runId).Some? && Project(db, runId).value.gapOpen <==>
            exists r | r in db.receipts :: r.accepted && !r.applied && r.entry.runId == runId
  {
    var rs := db.receipts;
    LastReceivedIsMaximum(rs, runId);
    LatestIsGreatest(rs, runId);
    if LastReceived(rs, runId) > Current(db, runId) {
      var r :| r in rs && r.accepted && r.entry.runId == runId && r.entry.sequence == LastReceived(rs, runId);
      if r.applied {
        AppliedReplays((_, _) => true, db, r);
      }
    }
    if r :| r in rs && r.accepted && !r.applied && r.entry.runId == runId {
      WaitingIsBeyond(db, r);
    }
  }

  // ---------------------------------------------------------------------
  // Delivery-order convergence
  // ---------------------------------------------------------------------

  /** The intended entries of each run, in sequence order. */
  type Scripts = map<string, seq<Entry>>

  predicate InScript(scripts: Scripts, e: Entry) {
    && e.runId in scripts
    && e.sequence <= |scripts[e.runId]|
    && scripts[e.runId][e.sequence - 1] == e
  }

  ghost predicate InPlace(script: seq<Entry>, runId: string) {
    forall i | 0 <= i < |script| :: script[i].runId == runId && script[i].sequence == i + 1
  }

  ghost predicate Placed(scripts: Scripts) {
    forall runId | runId in scripts :: InPlace(scripts[runId], runId)
  }

  ghost predicate DistinctEvents(scripts: Scripts) {
    forall a, b | InScript(scripts, a) && InScript(scripts, b) && a.eventId == b.eventId :: a == b
  }

  function Before(script: seq<Entry>, i: nat): Option<Entry>
    requires i <= |script|
  {
    if i == 0 then None else Some(script[i - 1])
  }

  /** Entry `i` is a legal transition, in scope, from the one before it. */
  predicate LawfulAt(law: Law, script: seq<Entry>, i: nat)
    requires i < |script|
  {
    Admissible(law, Before(script, i), script[i])
  }

  ghost predicate Lawful(law: Law, script: seq<Entry>) {
    forall i | 0 <= i < |script| :: LawfulAt(law, script, i)
  }

  ghost predicate LegalScripts(law: Law, scripts: Scripts) {
    && Placed(scripts) && DistinctEvents(scripts)
    && forall runId | runId in scripts :: Lawful(law, scripts[runId])
  }

  ghost predicate FromScripts(scripts: Scripts, deliveries: seq<Entry>) {
    forall e | e in deliveries :: InScript(scripts, e)
  }

  /** Everything received so far was accepted and comes from the scripts. */
  ghost predicate Clean(scripts: Scripts, rs: seq<Receipt>) {
    forall r | r in rs :: r.accepted && InScript(scripts, r.entry)
  }

  lemma HistoryIsScriptPrefix(scripts: Scripts, db: Ledger, runId: string)
    requires Core(db) && Placed(scripts) && Clean(scripts, db.receipts)
    ensures Current(db, runId) > 0 ==> runId in scripts
    ensures runId in scripts ==>
              Current(db, runId) <= |scripts[runId]|
              && History(db.transitions, runId) == scripts[runId][..Current(db, runId)]
  {
    assert Chained(db, runId);
    var h := History(db.transitions, runId);
    HistoryMembers(db.transitions, runId);
    forall k | 0 <= k < |h| ensures runId in scripts && k < |scripts[runId]| && h[k] == scripts[runId][k] {
      assert h[k] in h && ReceivedAs(db.receipts, h[k]);
      var r :| r in db.receipts && r.accepted && r.entry == h[k];
    }
    if h != [] {
      assert h[|h| - 1] == scripts[runId][|h| - 1];
    }
  }

  lemma PreviousIsScripted(scripts: Scripts, db: Ledger, runId: string)
    requires Core(db) && Placed(scripts) && Clean(scripts, db.receipts) && runId in scripts
    ensures Current(db, runId) <= |scripts[runId]|
    ensures Previous(db, runId) == Before(scripts[runId], Current(db, runId))
  {
    HistoryIsScriptPrefix(scripts, db, runId);
    assert Chained(db, runId);
  }

  lemma CleanHeldIsAdmissible(law: Law, scripts: Scripts, db: Ledger, held: Receipt)
    requires Core(db) && LegalScripts(law, scripts) && Clean(scripts, db.receipts) && HeldNext(db, held)
    ensures Admissible(law, Previous(db, held.entry.runId), held.entry)
  {
    var script := scripts[held.entry.runId];
    PreviousIsScripted(scripts, db, held.entry.runId);
    assert LawfulAt(law, script, held.entry.sequence - 1);
  }

  lemma AdvancedStaysClean(scripts: Scripts, db: Ledger, e: Entry)
    requires Clean(scripts, db.receipts)
    ensures Clean(scripts, Advanced(db, e).receipts)
  {
  }

  lemma {:induction false} CleanDrainSucceeds(law: Law, scripts: Scripts, db: Ledger, runId: string)
    requires Core(db) && LegalScripts(law, scripts) && Clean(scripts, db.receipts)
    ensures Drain(law, db, runId).Ok?
    decreases Unapplied(db.receipts)
  {
    var pending := PendingReceipt(db.receipts, runId, Current(db, runId) + 1);
    if pending.Some? {
      var held := pending.value;
      CleanHeldIsAdmissible(law, scripts, db, held);
      ApplyingHeld(law, db, held);
      var next := Advanced(db, held.entry);
      assert ApplyHeld(law, db, held) == Ok(next);
      AdvancedKeepsCore(db, held);
      AdvancedStaysClean(scripts, db, held.entry);
      CleanDrainSucceeds(law, scripts, next, runId);
    }
  }

  lemma SameReceivedMembers(a: seq<Receipt>, b: seq<Receipt>, scripts: Scripts)
    requires SameReceived(a, b)
    ensures Clean(scripts, a) ==> Clean(scripts, b)
    ensures forall e :: ReceivedAs(a, e) <==> ReceivedAs(b, e)
  {
  }

  lemma CleanHasNoConflict(scripts: Scripts, db: Ledger, e: Entry)
    requires DistinctEvents(scripts) && Clean(scripts, db.receipts) && InScript(scripts, e)
    ensures Conflict(db, e).None?
    ensures ReceiptByEvent(db.receipts, e.eventId).None? ==> !ReceivedAs(db.receipts, e)
  {
  }

  /** A delivery from lawful scripts is never refused and receives exactly that entry. */
  lemma CleanIngest(law: Law, scripts: Scripts, db: Ledger, e: Entry)
    requires Inv(db) && LegalScripts(law, scripts) && Clean(scripts, db.receipts) && InScript(scripts, e)
    ensures
      var (out, reply) := Ingest(law, db, e);
      && !reply.Refused? && Clean(scripts, out.receipts)
      && forall x :: ReceivedAs(out.receipts, x) <==> ReceivedAs(db.receipts, x) || x == e
  {
    CleanHasNoConflict(scripts, db, e);
    IngestIsReceiveThenDrain(law, db, e);
    if ReceiptByEvent(db.receipts, e.eventId).None? {
      ReceivingKeepsCore(db, e);
      var received := Received(db, e, true);
      assert received.receipts[|db.receipts|] in received.receipts;
      assert forall r | r in db.receipts :: r in received.receipts;
      CleanDrainSucceeds(law, scripts, received, e.runId);
      DrainSettles(law, received, e.runId);
      SameReceivedMembers(received.receipts, Drain(law, received, e.runId).value.receipts, scripts);
    }
  }

  lemma {:induction false} CleanDelivery(law: Law, scripts: Scripts, deliveries: seq<Entry>)
    requires LegalScripts(law, scripts) && FromScripts(scripts, deliveries)
    ensures
      var db := IngestAll(law, deliveries);
      Clean(scripts, db.receipts) && forall e :: ReceivedAs(db.receipts, e) <==> e in deliveries
  {
    if deliveries != [] {
      var front := deliveries[..|deliveries| - 1];
      var e := deliveries[|deliveries| - 1];
      assert deliveries == front + [e];
      CleanDelivery(law, scripts, front);
      EveryDeliveryKeepsInv(law, front);
      CleanIngest(law, scripts, IngestAll(law, front), e);
    }
  }

  /** The length of the longest prefix of a script that was delivered in full. */
  function DeliveredPrefix(script: seq<Entry>, deliveries: seq<Entry>): (n: nat)
    ensures n <= |script|
    ensures forall i | 0 <= i < n :: script[i] in deliveries
    ensures n < |script| ==> script[n] !in deliveries
  {
    if script == [] || script[0] !in deliveries then 0
    else 1 + DeliveredPrefix(script[1..], deliveries)
  }

  lemma {:induction false} AppliedIsDeliveredPrefix(law: Law, scripts: Scripts, deliveries: seq<Entry>, runId: string)
    requires LegalScripts(law, scripts) && FromScripts(scripts, deliveries) && runId in scripts
    ensures Current(IngestAll(law, deliveries), runId) == DeliveredPrefix(scripts[runId], deliveries)
  {
    var db := IngestAll(law, deliveries);
    var script := scripts[runId];
    EveryDeliveryKeepsInv(law, deliveries);
    CleanDelivery(law, scripts, deliveries);
    HistoryIsScriptPrefix(scripts, db, runId);
    HistoryMembers(db.transitions, runId);
    var n := Current(db, runId);
    forall i | 0 <= i < n ensures script[i] in deliveries {
      assert script[i] == History(db.transitions, runId)[i];
      assert ReceivedAs(db.receipts, script[i]);
    }
    if n < |script| && script[n] in deliveries {
      assert ReceivedAs(db.receipts, script[n]);
      var r :| r in db.receipts && r.accepted && r.entry == script[n];
      assert Settled(db, runId) && r.applied;
      AppliedReplays(law, db, r);
    }
  }

  /** Received, accepted and not yet applied. */
  ghost predicate Waiting(db: Ledger, e: Entry) {
    exists r | r in db.receipts :: r.accepted && !r.applied && r.entry == e
  }

  lemma WaitingIsBeyondPrefix(law: Law, scripts: Scripts, deliveries: seq<Entry>, e: Entry)
    requires LegalScripts(law, scripts) && FromScripts(scripts, deliveries)
    ensures
      var db := IngestAll(law, deliveries);
      Waiting(db, e) <==> e in deliveries && e.sequence > Current(db, e.runId)
  {
    var db := IngestAll(law, deliveries);
    EveryDeliveryKeepsInv(law, deliveries);
    CleanDelivery(law, scripts, deliveries);
    assert ReceivedAs(db.receipts, e) <==> e in deliveries;
    if Waiting(db, e) {
      var r :| r in db.receipts && r.accepted && !r.applied && r.entry == e;
      WaitingIsBeyond(db, r);
    }
    if e in deliveries && e.sequence > Current(db, e.runId) {
      var r :| r in db.receipts && r.accepted && r.entry == e;
      if r.applied {
        AppliedReplays(law, db, r);
      }
    }
  }

  /**
   Convergence. Whatever the order, repeats and omissions of a delivery from
   lawful scripts, each run ends with exactly its longest fully delivered prefix
   applied, the summary on that prefix's last entry, and the rest waiting.
   */
  lemma DeliveryConverges(law: Law, scripts: Scripts, deliveries: seq<Entry>, runId: string)
    requires LegalScripts(law, scripts) && FromScripts(scripts, deliveries) && runId in scripts
    ensures
      var db := IngestAll(law, deliveries);
      var n := DeliveredPrefix(scripts[runId], deliveries);
      && History(db.transitions, runId) == scripts[runId][..n]
      && Current(db, runId) == n
      && Previous(db, runId) == Before(scripts[runId], n)
      && forall e: Entry | e.runId == runId :: Waiting(db, e) <==> e in deliveries && e.sequence > n
  {
    var db := IngestAll(law, deliveries);
    EveryDeliveryKeepsInv(law, deliveries);
    CleanDelivery(law, scripts, deliveries);
    HistoryIsScriptPrefix(scripts, db, runId);
    PreviousIsScripted(scripts, db, runId);
    AppliedIsDeliveredPrefix(law, scripts, deliveries, runId);
    forall e: Entry | e.runId == runId
      ensures Waiting(db, e) <==> e in deliveries && e.sequence > Current(db, runId)
    {
      WaitingIsBeyondPrefix(law, scripts, deliveries, e);
    }
  }

  lemma {:induction false} DeliveredPrefixIsSetLike(script: seq<Entry>, a: seq<Entry>, b: seq<Entry>)
    requires forall e :: e in a <==> e in b
    ensures DeliveredPrefix(script, a) == DeliveredPrefix(script, b)
  {
  }

  /** Two deliveries of the same set of entries end in the same place. */
  lemma OrderDoesNotMatter(law: Law, scripts: Scripts, a: seq<Entry>, b: seq<Entry>, runId: string)
    requires LegalScripts(law, scripts) && FromScripts(scripts, a) && FromScripts(scripts, b)
    requires runId in scripts && forall e :: e in a <==> e in b
    ensures
      var left, right := IngestAll(law, a), IngestAll(law, b);
      && History(left.transitions, runId) == History(right.transitions, runId)
      && Previous(left, runId) == Previous(right, runId)
      && forall e: Entry | e.runId == runId :: Waiting(left, e) <==> Waiting(right, e)
  {
    DeliveryConverges(law, scripts, a, runId);
    DeliveryConverges(law, scripts, b, runId);
    DeliveredPrefixIsSetLike(scripts[runId], a, b);
  }

  // ---------------------------------------------------------------------
  // The law is needed: convergence holds exactly for lawful scripts
  // ---------------------------------------------------------------------

  /** The one-run case. */
  function Only(runId: string, script: seq<Entry>): Scripts {
    map[runId := script]
  }

  ghost predicate Converges(law: Law, script: seq<Entry>, runId: string, deliveries: seq<Entry>) {
    History(IngestAll(law, deliveries).transitions, runId) == script[..DeliveredPrefix(script, deliveries)]
  }

  ghost predicate AlwaysConverges(law: Law, script: seq<Entry>, runId: string) {
    forall deliveries | FromScripts(Only(runId, script), deliveries) :: Converges(law, script, runId, deliveries)
  }

  /** An inadmissible next entry is refused and the whole call rolls back. */
  lemma InadmissibleIsRolledBack(law: Law, db: Ledger, e: Entry)
    requires Inv(db) && Conflict(db, e).None? && ReceiptByEvent(db.receipts, e.eventId).None?
    requires e.sequence == Current(db, e.runId) + 1
    requires !Admissible(law, Previous(db, e.runId), e)
    ensures Ingest(law, db, e).0 == db && Ingest(law, db, e).1.Refused?
  {
    ReceivingKeepsCore(db, e);
    IngestIsReceiveThenDrain(law, db, e);
    var received := Received(db, e, true);
    var held := received.receipts[|db.receipts|];
    var pending := PendingReceipt(received.receipts, e.runId, Current(received, e.runId) + 1);
    assert HeldNext(received, held);
    ReceiptOfEvent(received.receipts, held, pending.value);
    ApplyingHeld(law, received, held);
    assert ApplyHeld(law, received, held).Err?;
  }

  lemma HeldSurvivesAdvance(db: Ledger, e: Entry, held: Receipt)
    requires held in db.receipts && held.accepted && !held.applied && held.entry.eventId != e.eventId
    requires held.entry.runId == e.runId && held.entry.sequence == e.sequence + 1
    ensures HeldNext(Advanced(db, e), held)
  {
    var i :| 0 <= i < |db.receipts| && db.receipts[i] == held;
    assert Advanced(db, e).receipts[i] == held;
  }

  /** A ledger whose next held entry is inadmissible cannot be drained. */
  lemma StuckDrain(law: Law, db: Ledger, held: Receipt)
    requires Core(db) && HeldNext(db, held)
    requires !Admissible(law, Previous(db, held.entry.runId), held.entry)
    ensures Drain(law, db, held.entry.runId).Err?
  {
    var pending := PendingReceipt(db.receipts, held.entry.runId, Current(db, held.entry.runId) + 1);
    assert pending.Some?;
    ReceiptOfEvent(db.receipts, held, pending.value);
    ApplyingHeld(law, db, held);
    AppendThenMark(law, db, held);
  }

  /**
   A held entry that the law or scope does not admit after `e` also keeps `e`
   out: the arrival of `e`, admissible itself, is refused and leaves no trace.
   */
  lemma InadmissibleHeldRollsBackItsRelease(law: Law, db: Ledger, e: Entry, held: Receipt)
    requires Inv(db) && Conflict(db, e).None? && ReceiptByEvent(db.receipts, e.eventId).None?
    requires e.sequence == Current(db, e.runId) + 1 && Admissible(law, Previous(db, e.runId), e)
    requires held in db.receipts && held.accepted && !held.applied
    requires held.entry.runId == e.runId && held.entry.sequence == e.sequence + 1
    requires !Admissible(law, Some(e), held.entry)
    ensures Ingest(law, db, e).0 == db && Ingest(law, db, e).1.Refused?
  {
    var received := Received(db, e, true);
    ReceivingKeepsCore(db, e);
    NextIsHeld(db, e);
    var next := PendingReceipt(received.receipts, e.runId, Current(received, e.runId) + 1).value;
    ApplyingHeld(law, received, next);
    AppendThenMark(law, received, next);
    assert ApplyHeld(law, received, next) == Ok(Advanced(received, e));
    AdvancedKeepsCore(received, next);
    HeldSurvivesAdvance(received, e, held);
    StuckDrain(law, Advanced(received, e), held);
    FreshIngest(law, db, e);
  }

  lemma {:induction false} FirstInadmissible(law: Law, script: seq<Entry>, i: nat) returns (k: nat)
    requires i < |script| && !LawfulAt(law, script, i)
    ensures k <= i && Lawful(law, script[..k]) && !LawfulAt(law, script, k)
  {
    if j: nat :| j < i && !LawfulAt(law, script, j) {
      k := FirstInadmissible(law, script, j);
    } else {
      k := i;
      forall j | 0 <= j < i ensures LawfulAt(law, script[..i], j) {
        assert LawfulAt(law, script, j) && Before(script[..i], j) == Before(script, j);
      }
    }
  }

  lemma ConvergenceForcesLaw(law: Law, script: seq<Entry>, runId: string)
    requires InPlace(script, runId) && DistinctEvents(Only(runId, script)) && !Lawful(law, script)
    ensures !AlwaysConverges(law, script, runId)
  {
    var i: nat :| i < |script| && !LawfulAt(law, script, i);
    var k := FirstInadmissible(law, script, i);
    RefusalBreaksConvergence(law, script, runId, k);
  }

  lemma InScriptPrefix(script: seq<Entry>, runId: string, n: nat, e: Entry)
    requires n <= |script| && InScript(Only(runId, script[..n]), e)
    ensures InScript(Only(runId, script), e)
  {
  }

  lemma PrefixIsLegal(law: Law, script: seq<Entry>, runId: string, n: nat)
    requires InPlace(script, runId) && DistinctEvents(Only(runId, script))
    requires n <= |script| && Lawful(law, script[..n])
    ensures LegalScripts(law, Only(runId, script[..n]))
    ensures FromScripts(Only(runId, script[..n]), script[..n])
  {
    var front := Only(runId, script[..n]);
    forall x | InScript(front, x) ensures InScript(Only(runId, script), x) {
      InScriptPrefix(script, runId, n, x);
    }
    forall e | e in script[..n] ensures InScript(front, e) {
      var i :| 0 <= i < n && script[..n][i] == e;
      assert script[i] == e;
    }
  }

  /** A lawful prefix, delivered in order, is applied whole. */
  lemma InOrderPrefix(law: Law, script: seq<Entry>, runId: string, n: nat)
    requires InPlace(script, runId) && DistinctEvents(Only(runId, script))
    requires n <= |script| && Lawful(law, script[..n])
    ensures
      var db := IngestAll(law, script[..n]);
      && History(db.transitions, runId) == script[..n] && Current(db, runId) == n
      && Previous(db, runId) == Before(script, n)
      && Clean(Only(runId, script[..n]), db.receipts)
  {
    var front, prefix := Only(runId, script[..n]), script[..n];
    PrefixIsLegal(law, script, runId, n);
    DeliveryConverges(law, front, prefix, runId);
    CleanDelivery(law, front, prefix);
    assert forall i | 0 <= i < n :: prefix[i] in prefix;
    assert DeliveredPrefix(front[runId], prefix) == n;
    assert Before(prefix, n) == Before(script, n) && prefix[..n] == prefix;
  }

  lemma NewToCleanPrefix(script: seq<Entry>, runId: string, n: nat, db: Ledger)
    requires InPlace(script, runId) && DistinctEvents(Only(runId, script)) && n < |script|
    requires Clean(Only(runId, script[..n]), db.receipts)
    ensures Conflict(db, script[n]).None? && ReceiptByEvent(db.receipts, script[n].eventId).None?
  {
  }

  /** Delivering a script in order up to its first inadmissible entry loses that entry. */
  lemma RefusalBreaksConvergence(law: Law, script: seq<Entry>, runId: string, n: nat)
    requires InPlace(script, runId) && DistinctEvents(Only(runId, script)) && n < |script|
    requires Lawful(law, script[..n]) && !LawfulAt(law, script, n)
    ensures FromScripts(Only(runId, script), script[..n + 1])
    ensures !Converges(law, script, runId, script[..n + 1])
  {
    InOrderIsFromScript(script, runId, n + 1);
    RefusedEntryIsLost(law, script, runId, n);
    WholePrefixDelivered(script, n + 1);
  }

  lemma InOrderIsFromScript(script: seq<Entry>, runId: string, n: nat)
    requires InPlace(script, runId) && n <= |script|
    ensures FromScripts(Only(runId, script), script[..n])
  {
  }

  lemma RefusedEntryIsLost(law: Law, script: seq<Entry>, runId: string, n: nat)
    requires InPlace(script, runId) && DistinctEvents(Only(runId, script)) && n < |script|
    requires Lawful(law, script[..n]) && !LawfulAt(law, script, n)
    ensures History(IngestAll(law, script[..n + 1]).transitions, runId) == script[..n]
  {
    var db := IngestAll(law, script[..n]);
    EveryDeliveryKeepsInv(law, script[..n]);
    InOrderPrefix(law, script, runId, n);
    NewToCleanPrefix(script, runId, n, db);
    InadmissibleIsRolledBack(law, db, script[n]);
    var longer := script[..n + 1];
    assert longer[..n] == script[..n] && longer[n] == script[n];
  }

  lemma WholePrefixDelivered(script: seq<Entry>, n: nat)
    requires n <= |script|
    ensures DeliveredPrefix(script, script[..n]) >= n
  {
  }

  /** Every delivery of a script ends with its longest delivered prefix iff the script is lawful. */
  lemma ConvergesExactlyWhenLawful(law: Law, script: seq<Entry>, runId: string)
    requires InPlace(script, runId) && DistinctEvents(Only(runId, script))
    ensures AlwaysConverges(law, script, runId) <==> Lawful(law, script)
  {
    if !Lawful(law, script) {
      ConvergenceForcesLaw(law, script, runId);
    } else {
      forall deliveries | FromScripts(Only(runId, script), deliveries)
        ensures Converges(law, script, runId, deliveries)
      {
        DeliveryConverges(law, Only(runId, script), deliveries, runId);
      }
    }
  }
}
