/**
 What each call of the Agent Run Ledger answers, in terms of the entries the
 ledger holds before and after it.
 */
module AgentRunLedgerAnswers {
  import opened Prelude
  import opened AgentRunLedger
  import opened AgentRunLedgerTheorems

  // ---------------------------------------------------------------------
  // The ordered application path
  // ---------------------------------------------------------------------

  /** An entry can be bound: no transition has its event or its slot, and it is the run's next. */
  predicate Bindable(db: Ledger, e: Entry) {
    && (forall t | t in db.transitions :: t.eventId != e.eventId && (t.runId == e.runId ==> t.sequence != e.sequence))
    && (e.runId in db.runs ==> e.sequence == db.runs[e.runId].sequence + 1)
  }

  /** One scope means the same run, the same scope columns, the same parent and the same trace. */
  lemma ScopeIsEveryColumn(a: Entry, b: Entry)
    ensures SummaryScopeMatches(a, b) <==>
      (a.runId, a.scope, a.parentRunId, a.traceId) == (b.runId, b.scope, b.parentRunId, b.traceId)
  {
  }

  lemma BoundIsFound(db: Ledger, e: Entry)
    requires Core(db) && e in db.transitions
    ensures TransitionByEvent(db.transitions, e.eventId) == Some(e)
    ensures e.runId in db.runs && SummaryScopeMatches(db.runs[e.runId], e)
  {
    assert Chained(db, e.runId);
    TransitionPlace(db, e);
    var found := TransitionByEvent(db.transitions, e.eventId);
    assert found.Some?;
    assert ReceivedAs(db.receipts, e) && ReceivedAs(db.receipts, found.value);
    var a :| a in db.receipts && a.accepted && a.entry == e;
    var b :| b in db.receipts && b.accepted && b.entry == found.value;
    ReceiptOfEvent(db.receipts, a, b);
  }

  lemma SummaryIsFound(db: Ledger, e: Entry)
    requires Core(db) && e.runId in db.runs
    ensures TransitionByEvent(db.transitions, db.runs[e.runId].eventId) == Some(db.runs[e.runId])
  {
    SummaryIsReadable(db, e.runId);
  }

  /** An entry already bound is replayed, and nothing else is. */
  lemma AppendReplays(law: Law, db: Ledger, e: Entry)
    requires Core(db)
    ensures Append(law, db, e) == Ok((db, true)) <==> e in db.transitions
    ensures Append(law, db, e).Ok? && Append(law, db, e).value.1 ==> Append(law, db, e).value.0 == db
  {
    if e in db.transitions {
      BoundIsFound(db, e);
    }
  }

  /** A new entry is bound exactly when it is bindable, in scope and lawful; it becomes the run's summary. */
  lemma AppendBinds(law: Law, db: Ledger, e: Entry)
    requires Core(db)
    ensures (Append(law, db, e).Ok? && !Append(law, db, e).value.1) <==>
      Bindable(db, e) && Admissible(law, Previous(db, e.runId), e)
    ensures Append(law, db, e).Ok? && !Append(law, db, e).value.1 ==>
      Append(law, db, e).value.0 == Ledger(db.receipts, db.runs[e.runId := e], db.transitions + [e])
  {
    if e.runId in db.runs {
      SummaryIsFound(db, e);
    }
  }

  /** Which refusal: scope first, then what is already bound, then order, then the law. */
  lemma AppendRefusals(law: Law, db: Ledger, e: Entry)
    requires Core(db) && Append(law, db, e).Err?
    ensures var inScope := e.runId in db.runs ==> SummaryScopeMatches(db.runs[e.runId], e);
      var error := Append(law, db, e).error;
      && (!inScope ==> error == ScopeMismatch)
      && (inScope && (exists t | t in db.transitions ::
                        t.eventId == e.eventId
                        && (t.runId != e.runId || t.sequence != e.sequence || t.status != e.status)) ==>
            error == IdempotencyMismatch)
      && (inScope && (exists t | t in db.transitions ::
                        t.eventId == e.eventId && t.runId == e.runId && t.sequence == e.sequence
                        && t.status == e.status) ==>
            error == PayloadMismatch)
      && (inScope && (forall t | t in db.transitions :: t.eventId != e.eventId)
          && (exists t | t in db.transitions :: t.runId == e.runId && t.sequence == e.sequence) ==>
            error == IdempotencyMismatch)
      && (inScope && !Bindable(db, e)
          && (forall t | t in db.transitions ::
                t.eventId != e.eventId && (t.runId == e.runId ==> t.sequence != e.sequence)) ==>
            error == SequenceMismatch)
      && (inScope && Bindable(db, e) ==> error == IllegalTransition)
  {
    if e.runId in db.runs {
      SummaryIsFound(db, e);
    }
    var byEvent := TransitionByEvent(db.transitions, e.eventId);
    if byEvent.Some? {
      BoundIsFound(db, byEvent.value);
      forall t | t in db.transitions && t.eventId == e.eventId ensures t == byEvent.value {
        BoundIsFound(db, t);
      }
    }
  }

  // ---------------------------------------------------------------------
  // Receipts and conflicts
  // ---------------------------------------------------------------------

  /** A receipt names the accepted entry of the slot before it, if there is one. */
  lemma ReceiptNamesPredecessor(db: Ledger, e: Entry, p: Receipt)
    requires UniqueReceipts(db.receipts)
    ensures var out := Received(db, e, true);
      var r := out.receipts[|db.receipts|];
      && out.receipts == db.receipts + [r] && out.runs == db.runs && out.transitions == db.transitions
      && r.entry == e && r.accepted && !r.applied
      && (p in db.receipts && p.accepted && p.entry.runId == e.runId && p.entry.sequence == e.sequence - 1 ==>
            r.causation == Some(p.entry.eventId))
      && ((forall q | q in db.receipts ::
             !(q.accepted && q.entry.runId == e.runId && q.entry.sequence == e.sequence - 1)) ==> r.causation.None?)
  {
    var found := ReceiptBySlot(db.receipts, e.runId, e.sequence - 1);
    if p in db.receipts && p.accepted && p.entry.runId == e.runId && p.entry.sequence == e.sequence - 1 {
      assert found.Some?;
      ReceiptOfEvent(db.receipts, p, found.value);
    }
  }

  /** An event conflict is another entry under an accepted event id, a sequence conflict a new event in a taken slot. */
  lemma ConflictNames(db: Ledger, e: Entry)
    requires UniqueReceipts(db.receipts)
    ensures Conflict(db, e) == Some(EventConflict) <==>
      exists r | r in db.receipts :: r.accepted && r.entry.eventId == e.eventId && r.entry != e
    ensures Conflict(db, e) == Some(SequenceConflict) <==>
      && (forall r | r in db.receipts && r.accepted :: r.entry.eventId != e.eventId)
      && (exists r | r in db.receipts ::
            r.accepted && r.entry.runId == e.runId && r.entry.sequence == e.sequence)
    ensures Conflict(db, e) in {None, Some(EventConflict), Some(SequenceConflict)}
  {
    var found := ReceiptByEvent(db.receipts, e.eventId);
    if found.Some? {
      forall r | r in db.receipts && r.accepted && r.entry.eventId == e.eventId ensures r == found.value {
        ReceiptOfEvent(db.receipts, r, found.value);
      }
    }
  }

  /** A conflicting delivery is refused by name and leaves exactly one more receipt, as evidence. */
  lemma ConflictAnswers(law: Law, db: Ledger, e: Entry)
    requires Conflict(db, e).Some?
    ensures Ingest(law, db, e)
         == (Ledger(db.receipts + [Receipt(e, false, false, None)], db.runs, db.transitions),
             Refused(Conflict(db, e).value))
  {
  }

  // ---------------------------------------------------------------------
  // Ingest
  // ---------------------------------------------------------------------

  /** A drain only adds transitions. */
  lemma {:induction false} DrainExtends(law: Law, db: Ledger, runId: string)
    requires Drain(law, db, runId).Ok?
    ensures db.transitions <= Drain(law, db, runId).value.transitions
    decreases Unapplied(db.receipts)
  {
    var pending := PendingReceipt(db.receipts, runId, Current(db, runId) + 1);
    if pending.Some? {
      var next := ApplyHeld(law, db, pending.value).value;
      AppendThenMark(law, db, pending.value);
      AppendExtends(law, db, pending.value.entry);
      DrainTakes(law, db, runId, pending.value);
      DrainExtends(law, next, runId);
    }
  }

  lemma AppendExtends(law: Law, db: Ledger, e: Entry)
    requires Append(law, db, e).Ok?
    ensures db.transitions <= Append(law, db, e).value.0.transitions
  {
  }

  lemma KnownAnswers(law: Law, db: Ledger, e: Entry)
    requires Inv(db) && ReceivedAs(db.receipts, e)
    ensures var (after, reply) := Ingest(law, db, e);
      && after == db
      && (e in db.transitions ==> reply == Applied(true))
      && (e !in db.transitions ==>
            Waiting(db, e) && reply == Pending(Current(db, e.runId), LastReceived(db.receipts, e.runId)))
  {
    var r :| r in db.receipts && r.accepted && r.entry == e;
    var found := ReceiptByEvent(db.receipts, e.eventId);
    assert found.Some?;
    ReceiptOfEvent(db.receipts, r, found.value);
    IngestAgain(law, db, r);
  }

  lemma BeyondAnswers(law: Law, db: Ledger, e: Entry)
    requires Conflict(db, e).None? && ReceiptByEvent(db.receipts, e.eventId).None?
    requires e.sequence > Current(db, e.runId) + 1
    ensures var (after, reply) := Ingest(law, db, e);
      && after == Received(db, e, true)
      && reply == Pending(Current(after, e.runId), LastReceived(after.receipts, e.runId))
  {
  }

  lemma NextAnswers(law: Law, db: Ledger, e: Entry)
    requires Inv(db) && Conflict(db, e).None? && ReceiptByEvent(db.receipts, e.eventId).None?
    requires e.sequence == Current(db, e.runId) + 1
    ensures var (after, reply) := Ingest(law, db, e);
      || (reply.Refused? && after == db)
      || (reply == Applied(false) && e in after.transitions)
  {
    var received := Received(db, e, true);
    ReceivingKeepsCore(db, e);
    NextIsHeld(db, e);
    ApplyingHeld(law, received, PendingReceipt(received.receipts, e.runId, Current(received, e.runId) + 1).value);
    FreshNextValidated(law, db, e);
    var appended := Append(law, received, e);
    if appended.Ok? {
      var marked := MarkApplied(appended.value.0, e.eventId);
      if Drain(law, marked, e.runId).Ok? {
        DrainExtends(law, marked, e.runId);
        assert e in marked.transitions;
      }
    }
  }

  lemma NotReceivedNotBound(db: Ledger, e: Entry)
    requires Core(db) && !ReceivedAs(db.receipts, e)
    ensures e !in db.transitions && !Waiting(db, e)
  {
  }

  /**
   The reply says what became of the entry. Applied exactly when it is among
   the transitions afterwards, as a replay exactly when it was before; pending
   exactly when it is held, with the run's positions; refused exactly when it is
   neither, and then the ledger is as before but for conflict evidence.
   */
  lemma IngestAnswers(law: Law, db: Ledger, e: Entry)
    requires Inv(db)
    ensures var (after, reply) := Ingest(law, db, e);
      && (reply.Applied? <==> e in after.transitions)
      && (reply.Applied? ==> (reply.replayed <==> e in db.transitions))
      && (reply.Pending? <==> Waiting(after, e))
      && (reply.Pending? ==>
            reply == Pending(Current(after, e.runId), LastReceived(after.receipts, e.runId)))
      && (reply.Refused? ==>
            after == if Conflict(db, e).Some? then Received(db, e, false) else db)
  {
    IngestKeepsInv(law, db, e);
    if ReceivedAs(db.receipts, e) {
      KnownAnswers(law, db, e);
      KnownHasNoConflict(db, e);
      if Waiting(db, e) {
        WaitingIsNotBound(db, e);
      }
    } else {
      NotReceivedNotBound(db, e);
      if Conflict(db, e).Some? {
        ConflictAnswers(law, db, e);
        EvidenceIsNotHeld(db, e);
      } else {
        FreshAnswers(law, db, e);
      }
    }
  }

  lemma KnownHasNoConflict(db: Ledger, e: Entry)
    requires UniqueReceipts(db.receipts) && ReceivedAs(db.receipts, e)
    ensures Conflict(db, e).None?
  {
    var r :| r in db.receipts && r.accepted && r.entry == e;
    var found := ReceiptByEvent(db.receipts, e.eventId);
    assert found.Some?;
    ReceiptOfEvent(db.receipts, r, found.value);
  }

  lemma WaitingIsNotBound(db: Ledger, e: Entry)
    requires Core(db) && Waiting(db, e)
    ensures e !in db.transitions
  {
  }

  lemma EvidenceIsNotHeld(db: Ledger, e: Entry)
    requires !Waiting(db, e)
    ensures !Waiting(Received(db, e, false), e)
  {
  }

  lemma FreshAnswers(law: Law, db: Ledger, e: Entry)
    requires Inv(db) && Conflict(db, e).None? && !ReceivedAs(db.receipts, e)
    ensures var (after, reply) := Ingest(law, db, e);
      || (reply.Refused? && after == db)
      || (reply == Applied(false) && e in after.transitions && !Waiting(after, e))
      || (&& reply == Pending(Current(after, e.runId), LastReceived(after.receipts, e.runId))
          && Waiting(after, e) && e !in after.transitions)
  {
    NotReceivedNotBound(db, e);
    var found := ReceiptByEvent(db.receipts, e.eventId);
    assert found.None?;
    ReceivingKeepsCore(db, e);
    if e.sequence == Current(db, e.runId) + 1 {
      NextAnswers(law, db, e);
      IngestKeepsInv(law, db, e);
      if Waiting(Ingest(law, db, e).0, e) {
        WaitingIsNotBound(Ingest(law, db, e).0, e);
      }
    } else {
      BeyondAnswers(law, db, e);
      var received := Received(db, e, true);
      assert received.receipts[|db.receipts|] in received.receipts;
    }
  }

  /** Which refusal an entry that is not admitted after its predecessor draws. */
  function AdmissionError(previous: Option<Entry>, e: Entry): LedgerError {
    if previous.Some? && !SummaryScopeMatches(previous.value, e) then ScopeMismatch else IllegalTransition
  }

  lemma HeldRefusal(law: Law, db: Ledger, held: Receipt)
    requires Core(db) && HeldNext(db, held)
    requires !Admissible(law, Previous(db, held.entry.runId), held.entry)
    ensures Append(law, db, held.entry) == Err(AdmissionError(Previous(db, held.entry.runId), held.entry))
    ensures Drain(law, db, held.entry.runId) == Err(AdmissionError(Previous(db, held.entry.runId), held.entry))
  {
    HeldIsUnbound(db, held);
    ApplyingHeld(law, db, held);
    AppendRefusals(law, db, held.entry);
    var pending := PendingReceipt(db.receipts, held.entry.runId, Current(db, held.entry.runId) + 1);
    assert pending.Some?;
    ReceiptOfEvent(db.receipts, held, pending.value);
    AppendThenMark(law, db, held);
    DrainTakes(law, db, held.entry.runId, held);
  }

  /** An inadmissible successor is refused by scope, or else by law. */
  lemma NextRefusal(law: Law, db: Ledger, e: Entry)
    requires Inv(db) && Conflict(db, e).None? && ReceiptByEvent(db.receipts, e.eventId).None?
    requires e.sequence == Current(db, e.runId) + 1 && !Admissible(law, Previous(db, e.runId), e)
    ensures Ingest(law, db, e) == (db, Refused(AdmissionError(Previous(db, e.runId), e)))
  {
    var received := Received(db, e, true);
    ReceivingKeepsCore(db, e);
    NextIsHeld(db, e);
    HeldRefusal(law, received, PendingReceipt(received.receipts, e.runId, Current(received, e.runId) + 1).value);
    FreshNextValidated(law, db, e);
  }

  /** One that is held draws its own refusal on the entry that would release it. */
  lemma ReleaseRefusal(law: Law, db: Ledger, e: Entry, held: Receipt)
    requires Inv(db) && Conflict(db, e).None? && ReceiptByEvent(db.receipts, e.eventId).None?
    requires e.sequence == Current(db, e.runId) + 1 && Admissible(law, Previous(db, e.runId), e)
    requires held in db.receipts && held.accepted && !held.applied
    requires held.entry.runId == e.runId && held.entry.sequence == e.sequence + 1
    requires !Admissible(law, Some(e), held.entry)
    ensures Ingest(law, db, e) == (db, Refused(AdmissionError(Some(e), held.entry)))
  {
    var received := Received(db, e, true);
    ReceivingKeepsCore(db, e);
    NextIsHeld(db, e);
    var next := PendingReceipt(received.receipts, e.runId, Current(received, e.runId) + 1).value;
    ApplyingHeld(law, received, next);
    AdvancedKeepsCore(received, next);
    HeldSurvivesAdvance(received, e, held);
    HeldRefusal(law, Advanced(received, e), held);
    FreshNextValidated(law, db, e);
  }

  // ---------------------------------------------------------------------
  // The projection
  // ---------------------------------------------------------------------

  /** What a run's projection shows of its transitions and receipts. */
  lemma ProjectionTells(db: Ledger, runId: string)
    requires Inv(db)
    ensures var p, h := Project(db, runId), History(db.transitions, runId);
      && (p.None? <==> forall r | r in db.receipts && r.accepted :: r.entry.runId != runId)
      && (p.Some? ==>
            && p.value.lastApplied == |h|
            && p.value.runStatus == (if h == [] then None else Some(h[|h| - 1].status))
            && (p.value.conflicted <==> exists r | r in db.receipts :: !r.accepted && r.entry.runId == runId)
            && p.value.latest == Latest(db.receipts, runId) && p.value.lastReceived == LastReceived(db.receipts, runId))
  {
    assert Chained(db, runId);
    CurrentIsLength(db, runId);
    LatestIsGreatest(db.receipts, runId);
    if runId in db.runs {
      HistoryMembers(db.transitions, runId);
      var h := History(db.transitions, runId);
      assert h[|h| - 1] in h;
      assert ReceivedAs(db.receipts, db.runs[runId]);
    }
  }
}
