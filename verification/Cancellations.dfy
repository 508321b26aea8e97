/**
 * What a cancelled request can still cause. Cancelling stops what is queued but not what is in
 * flight, and never refunds: it freezes the request in whatever state HCM had reached.
 */
module Cancellations {
  import opened Domain
  import opened Tables
  import opened Outbox
  import opened TimeOff
  import opened HcmCore
  import opened OutboxProcessor
  import opened Protocol
  import opened Views
  import opened StoreSteps
  import opened DeliverySteps
  import opened Invariant
  import opened Spending
  import opened Coverage
  import opened ExactlyOnce
  import opened Endings

  /** Cancelled, with no message left that could still be delivered. */
  ghost predicate Frozen(v: View) {
    v.r.status.Cancelled? && forall j :: 0 <= j < |v.msgs| ==> IsFinished(v.msgs[j])
  }

  /** The row is as it was, but that an active commit may have been reconciled. */
  ghost predicate SameRow(row: LedgerRow, row': LedgerRow) {
    row' == row || (row.phase.Commit? && row.state.Active? && row' == row.(state := Reconciled))
  }

  /** The same request, messages and acknowledgements; of its rows only a commit may have been reconciled. */
  ghost predicate SameOutcome(v: View, v': View) {
    && v'.r == v.r && v'.msgs == v.msgs && v'.debit == v.debit && v'.credit == v.credit
    && |v'.rows| == |v.rows| && forall j :: 0 <= j < |v.rows| ==> SameRow(v.rows[j], v'.rows[j])
  }

  /** A claim hands out none of a frozen request's messages. */
  lemma ClaimSkipsFrozen(s: System, now: int, i: RequestId)
    requires Inv(s) && i < |s.store.requests| && Frozen(ViewOf(s, i))
    ensures Update(Messages(s.store, i), ClaimIds(Ids(Due(s.store.outbox, now, CLAIM_LIMIT)))) == Messages(s.store, i)
  {
    var msgs, ids := Messages(s.store, i), Ids(Due(s.store.outbox, now, CLAIM_LIMIT));
    forall j: nat | j < |msgs| ensures ClaimIds(ids)(msgs[j]) == msgs[j] {
      assert IsFinished(ViewOf(s, i).msgs[j]);
      assert msgs[j] in msgs;
      if msgs[j].id in ids { ClaimedAreDue(s.store, now, CLAIM_LIMIT, msgs[j]); }
    }
  }

  lemma FrozenAtClaim(s: System, now: int, i: RequestId)
    requires Inv(s) && i < |s.store.requests| && Frozen(ViewOf(s, i))
    ensures SameOutcome(ViewOf(s, i), ViewOf(Next(s, ClaimStep(now)), i))
  {
    if s.drain.Idle? && Due(s.store.outbox, now, CLAIM_LIMIT) != [] {
      ClaimResult(s, now);
      MessagesClaimed(s.store, Ids(Due(s.store.outbox, now, CLAIM_LIMIT)), i);
      ClaimSkipsFrozen(s, now, i);
    } else {
      assert Next(s, ClaimStep(now)) == s;
    }
  }

  /** The message at the head of the queue is never one of a frozen request. */
  lemma HeadIsNotFrozen(s: System)
    requires Inv(s) && s.drain.Draining?
    ensures s.drain.queue[0].requestId < |s.store.requests| && !Frozen(ViewOf(s, s.drain.queue[0].requestId))
  {
  }

  lemma OtherAcksStay(s: System, h': Hcm, wire: Wire, i: RequestId)
    requires Inv(s) && s.drain.Draining? && h' == Exchange(s.hcm, CommandOf(s.drain.queue[0]), wire).0
    requires i != s.drain.queue[0].requestId
    ensures AckOf(h', DebitOf(i)) == AckOf(s.hcm, DebitOf(i)) && AckOf(h', CreditOf(i)) == AckOf(s.hcm, CreditOf(i))
  {
    var p := HeadInView(s);
    ExchangeAnswers(s, wire);
  }

  /** A request's view depends on HCM through its two acknowledgements only. */
  lemma SameView(s: System, s': System, i: RequestId)
    requires i < |s.store.requests| && s'.store == s.store
    requires AckOf(s'.hcm, DebitOf(i)) == AckOf(s.hcm, DebitOf(i))
    requires AckOf(s'.hcm, CreditOf(i)) == AckOf(s.hcm, CreditOf(i))
    ensures ViewOf(s', i) == ViewOf(s, i)
  {
  }

  lemma FrozenAtExchange(s: System, wire: Wire, i: RequestId)
    requires Inv(s) && i < |s.store.requests| && Frozen(ViewOf(s, i))
    ensures ViewOf(Next(s, ExchangeStep(wire)), i) == ViewOf(s, i)
  {
    var s' := Next(s, ExchangeStep(wire));
    ExchangeStore(s, wire);
    if s'.hcm != s.hcm {
      HeadIsNotFrozen(s);
      OtherAcksStay(s, s'.hcm, wire, i);
    }
    SameView(s, s', i);
  }

  lemma FrozenAfterSettled(s: System, s': System, now: int, i: RequestId)
    requires Inv(s) && Settleable(s) && i < |s.store.requests| && Frozen(ViewOf(s, i)) && s'.hcm == s.hcm
    requires Settled(s.store, s'.store, s.drain.queue[0], s.drain.reply.value, now)
    ensures i < |s'.store.requests| && ViewOf(s', i) == ViewOf(s, i)
  {
    HeadIsNotFrozen(s);
    assert ClaimedCopy(s.store.outbox, s.drain.queue[0]);
    SettledViewElsewhere(s, s'.store, s.drain.queue[0], s.drain.reply.value, now, i);
    SameView(s.(store := s'.store), s', i);
  }

  lemma FrozenAtSettle(s: System, now: int, i: RequestId)
    requires Inv(s) && i < |s.store.requests| && Frozen(ViewOf(s, i))
    ensures i < |Next(s, SettleStep(now)).store.requests|
    ensures ViewOf(Next(s, SettleStep(now)), i) == ViewOf(s, i)
  {
    if Settleable(s) {
      SettleIsSettled(s, now);
      FrozenAfterSettled(s, DoSettle(s, now), now, i);
    } else {
      assert Next(s, SettleStep(now)) == s;
    }
  }

  lemma FrozenAtApprove(s: System, id: RequestId, i: RequestId)
    requires Inv(s) && i < |s.store.requests| && Frozen(ViewOf(s, i))
    ensures i < |Next(s, ApproveStep(id)).store.requests|
    ensures SameOutcome(ViewOf(s, i), ViewOf(Next(s, ApproveStep(id)), i))
  {
    if ApproveRequest(s.store, id).Ok? { ApproveView(s, id, i); }
  }

  lemma FrozenAtReject(s: System, id: RequestId, i: RequestId)
    requires Inv(s) && i < |s.store.requests| && Frozen(ViewOf(s, i))
    ensures i < |Next(s, RejectStep(id)).store.requests|
    ensures SameOutcome(ViewOf(s, i), ViewOf(Next(s, RejectStep(id)), i))
  {
    if RejectRequest(s.store, id).Ok? { RejectView(s, id, i); }
  }

  lemma CancelElsewhere(s: System, id: RequestId, i: RequestId)
    requires Numbered(s.store) && i < |s.store.requests| && s.store.requests[i].status.Cancelled?
    ensures i < |Next(s, CancelStep(id)).store.requests|
    ensures ViewOf(Next(s, CancelStep(id)), i) == ViewOf(s, i)
  {
    assert Next(s, CancelStep(id)) == WithStore(s, CancelRequest(s.store, id));
    if CancelRequest(s.store, id).Ok? {
      hide Next, ViewOf;
      CancelView(s, id, i);
    }
  }

  lemma FrozenAtCancel(s: System, id: RequestId, i: RequestId)
    requires Inv(s) && i < |s.store.requests| && Frozen(ViewOf(s, i))
    ensures i < |Next(s, CancelStep(id)).store.requests|
    ensures SameOutcome(ViewOf(s, i), ViewOf(Next(s, CancelStep(id)), i))
  {
    CancelElsewhere(s, id, i);
  }

  lemma FrozenAtReconcile(s: System, key: Key, version: nat, i: RequestId)
    requires Inv(s) && i < |s.store.requests| && Frozen(ViewOf(s, i))
    ensures i < |Next(s, ReconcileStep(key, version)).store.requests|
    ensures SameOutcome(ViewOf(s, i), ViewOf(Next(s, ReconcileStep(key, version)), i))
  {
    if Absorbs(s, key, version) {
      AbsorbResult(s, key, version);
      AbsorbedView(s, Next(s, ReconcileStep(key, version)).store, SnapshotAt(s.hcm, key, version), i);
    } else {
      StaleChangesNothing(s, key, version);
    }
  }

  lemma NotTheCopy(s: System, key: Key, i: RequestId)
    requires SessionsOk(s) && key in s.sessions && i < |s.store.requests| && !InSession(s, i)
    ensures s.sessions[key].copy.id != i
  {
    assert SessionOk(s.store, key, s.sessions[key].copy);
  }

  lemma SubmitEndElsewhere(s: System, key: Key, i: RequestId)
    requires Inv(s) && i < |s.store.requests| && !InSession(s, i)
    ensures i < |Next(s, SubmitEnd(key)).store.requests|
    ensures ViewOf(Next(s, SubmitEnd(key)), i) == ViewOf(s, i)
  {
    if Grants(s, key) {
      NotTheCopy(s, key, i);
      ReserveView(s, key, i);
    } else {
      assert Next(s, SubmitEnd(key)).store == s.store;
    }
  }

  lemma FrozenAtSubmitEnd(s: System, key: Key, i: RequestId)
    requires Inv(s) && i < |s.store.requests| && Frozen(ViewOf(s, i)) && !InSession(s, i)
    ensures i < |Next(s, SubmitEnd(key)).store.requests|
    ensures SameOutcome(ViewOf(s, i), ViewOf(Next(s, SubmitEnd(key)), i))
  {
    SubmitEndElsewhere(s, key, i);
  }

  lemma FrozenAtHcm(s: System, call: Call, i: RequestId)
    requires Inv(s) && i < |s.store.requests| && Frozen(ViewOf(s, i))
    ensures SameOutcome(ViewOf(s, i), ViewOf(Next(s, HcmStep(call)), i))
  {
    if IsForeign(call) { ForeignCall(s.hcm, call); }
  }

  lemma FrozenAtRest(s: System, step: Step, i: RequestId)
    requires Inv(s) && i < |s.store.requests| && Frozen(ViewOf(s, i))
    requires step.CreateStep? || step.LoadStep? || step.SubmitBegin? || step.CrashStep?
    ensures i < |Next(s, step).store.requests|
    ensures SameOutcome(ViewOf(s, i), ViewOf(Next(s, step), i))
  {
  }

  lemma FrozenAtDelivery(s: System, step: Step, i: RequestId)
    requires Inv(s) && i < |s.store.requests| && Frozen(ViewOf(s, i))
    requires step.ClaimStep? || step.ExchangeStep? || step.SettleStep? || step.ReconcileStep? || step.HcmStep?
    ensures i < |Next(s, step).store.requests|
    ensures SameOutcome(ViewOf(s, i), ViewOf(Next(s, step), i))
  {
    match step
    case ClaimStep(now) => FrozenAtClaim(s, now, i);
    case ExchangeStep(wire) => FrozenAtExchange(s, wire, i);
    case SettleStep(now) => FrozenAtSettle(s, now, i);
    case ReconcileStep(key, version) => FrozenAtReconcile(s, key, version, i);
    case HcmStep(call) => FrozenAtHcm(s, call, i);
  }

  lemma FrozenAtService(s: System, step: Step, i: RequestId)
    requires Inv(s) && i < |s.store.requests| && Frozen(ViewOf(s, i)) && !InSession(s, i)
    requires !step.ClaimStep? && !step.ExchangeStep? && !step.SettleStep? && !step.ReconcileStep? && !step.HcmStep?
    ensures i < |Next(s, step).store.requests|
    ensures SameOutcome(ViewOf(s, i), ViewOf(Next(s, step), i))
  {
    match step
    case SubmitEnd(key) => FrozenAtSubmitEnd(s, key, i);
    case ApproveStep(id) => FrozenAtApprove(s, id, i);
    case RejectStep(id) => FrozenAtReject(s, id, i);
    case CancelStep(id) => FrozenAtCancel(s, id, i);
    case _ => FrozenAtRest(s, step, i);
  }

  lemma FrozenStays(s: System, step: Step, i: RequestId)
    requires Inv(s) && i < |s.store.requests| && Frozen(ViewOf(s, i)) && !InSession(s, i)
    ensures i < |Next(s, step).store.requests|
    ensures SameOutcome(ViewOf(s, i), ViewOf(Next(s, step), i))
  {
    if step.ClaimStep? || step.ExchangeStep? || step.SettleStep? || step.ReconcileStep? || step.HcmStep? {
      FrozenAtDelivery(s, step, i);
    } else {
      FrozenAtService(s, step, i);
    }
  }

  lemma SessionOrigin(s: System, step: Step, k: Key)
    requires k in Next(s, step).sessions
    ensures
      || (k in s.sessions && Next(s, step).sessions[k].copy == s.sessions[k].copy)
      || (step.SubmitBegin? && step.id < |s.store.requests|
          && Next(s, step).sessions[k].copy == s.store.requests[step.id] && s.store.requests[step.id].status.Draft?)
  {
    if step.SettleStep? { SettleSessions(s, step.now); }
  }

  /** Only a draft can be taken into a submit's critical section. */
  lemma CancelledIsNotTakenUp(s: System, step: Step, i: RequestId)
    requires Inv(s) && i < |s.store.requests| && s.store.requests[i].status.Cancelled? && !InSession(s, i)
    requires i < |Next(s, step).store.requests| && Next(s, step).store.requests[i].key == s.store.requests[i].key
    ensures !InSession(Next(s, step), i)
  {
    var k := s.store.requests[i].key;
    if k in Next(s, step).sessions { SessionOrigin(s, step, k); }
  }

  /**
   * A frozen request that no submit is holding never changes again: what HCM did or did not do for
   * it is final.
   */
  lemma {:induction false} FrozenForever(s: System, steps: seq<Step>, i: RequestId)
    requires Inv(s) && i < |s.store.requests| && Frozen(ViewOf(s, i)) && !InSession(s, i)
    ensures i < |Run(s, steps).store.requests|
    ensures SameOutcome(ViewOf(s, i), ViewOf(Run(s, steps), i)) && !InSession(Run(s, steps), i)
  {
    if steps == [] {
    } else {
      var front := steps[..|steps| - 1];
      FrozenForever(s, front, i);
      RunKeeps(s, front);
      FrozenStays(Run(s, front), steps[|steps| - 1], i);
      CancelledIsNotTakenUp(Run(s, front), steps[|steps| - 1], i);
    }
  }

  /** What a submit is holding has no rows, so a request that has any is safe from it. */
  lemma SubmittedIsNotInSession(s: System, i: RequestId)
    requires Inv(s) && i < |s.store.requests| && Rows(s.store, i) != []
    ensures !InSession(s, i)
  {
    if InSession(s, i) {
      assert SessionOk(s.store, s.store.requests[i].key, s.sessions[s.store.requests[i].key].copy);
      NoRowsIsEmpty(s.store, i);
    }
  }

  // ---- Cancelled before it was shipped -------------------------------------

  /** Approved, with its debit waiting in the outbox: never tried, or between two tries. */
  ghost predicate QueuedDebit(v: View) {
    v.r.status.Approved? && |v.msgs| == 1 && (v.msgs[0].status.Pending? || v.msgs[0].status.Retrying?)
  }

  lemma CancellingQueued(v: View, rowId: nat)
    requires Shape(v) && QueuedDebit(v)
    ensures var v' := Cancelling(v, rowId);
      Frozen(v') && |v'.rows| == 1 && v'.debit == v.debit && v'.credit.None?
  {
  }

  lemma CancelFreezes(s: System, id: RequestId)
    requires Inv(s) && id < |s.store.requests| && QueuedDebit(ViewOf(s, id))
    ensures var s' := Next(s, CancelStep(id));
      && Inv(s') && id < |s'.store.requests|
      && var v' := ViewOf(s', id);
         Frozen(v') && |v'.rows| == 1 && v'.debit == AckOf(s.hcm, DebitOf(id)) && v'.credit.None?
  {
    NextKeeps(s, CancelStep(id));
    assert Shape(ViewOf(s, id));
    assert Next(s, CancelStep(id)) == WithStore(s, CancelRequest(s.store, id));
    CancelView(s, id, id);
    CancellingQueued(ViewOf(s, id), |s.store.outbox|);
  }

  /** What a request did to HCM's balance in total. */
  lemma TotalEffect(s: System, i: RequestId)
    requires Inv(s) && i < |s.store.requests|
    ensures Moves(s.hcm, s.store.requests[i].key, 0, CausedBy(i)) ==
      (if IsWritten(AckOf(s.hcm, DebitOf(i))) then -s.store.requests[i].days else 0) +
      (if IsWritten(AckOf(s.hcm, CreditOf(i))) then s.store.requests[i].days else 0)
  {
    MovesOnceFrom(s, i, s.store.requests[i].key);
  }

  lemma SingleRowIsReleasedHold(v: View)
    requires Shape(v) && v.r.status.Cancelled? && |v.rows| == 1
    ensures v.rows[0].phase.Reserve? && v.rows[0].state.Released?
  {
  }

  lemma CancelKeepsDays(s: System, id: RequestId)
    requires id < |s.store.requests|
    ensures var st' := Next(s, CancelStep(id)).store;
      id < |st'.requests| && st'.requests[id].days == s.store.requests[id].days
  {
  }

  lemma FrozenStaysCancelled(s: System, steps: seq<Step>, i: RequestId)
    requires Inv(s) && i < |s.store.requests| && Frozen(ViewOf(s, i)) && |Rows(s.store, i)| == 1
    requires !InSession(s, i)
    requires AckOf(s.hcm, CreditOf(i)).None?
    ensures var s' := Run(s, steps);
      && i < |s'.store.requests| && s'.store.requests[i] == s.store.requests[i]
      && |Rows(s'.store, i)| == 1 && Rows(s'.store, i)[0].phase.Reserve? && Rows(s'.store, i)[0].state.Released?
      && AckOf(s'.hcm, DebitOf(i)) == AckOf(s.hcm, DebitOf(i)) && AckOf(s'.hcm, CreditOf(i)) == None
      && Moves(s'.hcm, s'.store.requests[i].key, 0, CausedBy(i)) ==
           if IsWritten(AckOf(s.hcm, DebitOf(i))) then -s.store.requests[i].days else 0
  {
    FrozenForever(s, steps, i);
    RunKeeps(s, steps);
    var s' := Run(s, steps);
    assert Shape(ViewOf(s', i));
    SingleRowIsReleasedHold(ViewOf(s', i));
    TotalEffect(s', i);
  }

  /**
   * Cancel an approved request while its debit is queued. In every continuation the request stays
   * cancelled with no commit, HCM acknowledges for it what it had acknowledged at the cancel, and
   * its total effect on HCM's balance is that of the debit if an earlier try had been applied and
   * its answer lost, otherwise nothing.
   */
  lemma CancelledWhileQueued(s: System, id: RequestId, steps: seq<Step>)
    requires Inv(s) && id < |s.store.requests| && QueuedDebit(ViewOf(s, id))
    ensures var s' := Run(Next(s, CancelStep(id)), steps);
      && id < |s'.store.requests| && s'.store.requests[id].status.Cancelled?
      && s'.store.requests[id].days == s.store.requests[id].days
      && |Rows(s'.store, id)| == 1 && Rows(s'.store, id)[0].phase.Reserve? && Rows(s'.store, id)[0].state.Released?
      && AckOf(s'.hcm, DebitOf(id)) == AckOf(s.hcm, DebitOf(id)) && AckOf(s'.hcm, CreditOf(id)) == None
      && Moves(s'.hcm, s'.store.requests[id].key, 0, CausedBy(id)) ==
           if IsWritten(AckOf(s.hcm, DebitOf(id))) then -s.store.requests[id].days else 0
  {
    CancelFreezes(s, id);
    CancelKeepsDays(s, id);
    SubmittedIsNotInSession(Next(s, CancelStep(id)), id);
    FrozenStaysCancelled(Next(s, CancelStep(id)), steps, id);
  }

  /** So it is a cancel that costs nothing exactly when HCM had not applied the debit before it. */
  lemma CancelIsFreeExactlyWhenUnapplied(s: System, id: RequestId, steps: seq<Step>)
    requires Inv(s) && id < |s.store.requests| && QueuedDebit(ViewOf(s, id))
    ensures var s' := Run(Next(s, CancelStep(id)), steps);
      && id < |s'.store.requests|
      && (Moves(s'.hcm, s'.store.requests[id].key, 0, CausedBy(id)) == 0 <==> !IsWritten(AckOf(s.hcm, DebitOf(id))))
    ensures ViewOf(s, id).msgs[0].status.Pending? ==> !IsWritten(AckOf(s.hcm, DebitOf(id)))
  {
    CancelledWhileQueued(s, id, steps);
    assert Shape(ViewOf(s, id));
  }

  // ---- Orphans -------------------------------------------------------------

  lemma SettlingOrphan(v: View, m: Message, ack: Ack, replayed: bool, now: int, rowId: nat)
    requires Shape(v) && HeadOf(v, m, 0) && v.r.status.Cancelled? && m.direction.Debit?
    ensures var v' := Settling(v, m, Acked(ack, replayed), now, rowId);
      && Frozen(v') && |v'.rows| == 2 && v'.rows[1].phase.Commit? && v'.rows[1].state.Active?
      && v'.debit == v.debit && v'.credit.None? && |v'.msgs| == 1 && v'.msgs[0].status.Done?
  {
  }

  lemma OrphanAtBirth(s: System, now: int)
    requires Inv(s) && Settleable(s) && IsOrphanAck(s.store, s.drain.queue[0], s.drain.reply.value)
    ensures var m := s.drain.queue[0];
      var s1 := Next(s, SettleStep(now));
      && m.requestId < |s1.store.requests|
      && var v := ViewOf(s1, m.requestId);
         && Frozen(v) && |v.rows| == 2 && v.rows[1].phase.Commit? && v.rows[1].state.Active?
         && v.debit == Some(s.drain.reply.value.ack) && v.credit.None?
         && |v.msgs| == 1 && v.msgs[0].status.Done?
  {
    var m, reply, s1 := s.drain.queue[0], s.drain.reply.value, Next(s, SettleStep(now));
    var p := HeadInView(s);
    SettleIsSettled(s, now);
    assert ClaimedCopy(s.store.outbox, m);
    SettledViewHere(s, s1.store, m, reply, now);
    SettlingOrphan(ViewOf(s, m.requestId), m, reply.ack, reply.replayed, now, |s.store.ledger|);
    assert ViewOf(s1, m.requestId) == ViewOf(s.(store := s1.store), m.requestId);
  }

  /**
   * Cancelling cannot recall what is in flight. If HCM applies the debit of a request that was
   * cancelled meanwhile, settling its answer leaves the request cancelled with an active commit,
   * and in every continuation HCM stays debited for it and is never asked for a refund.
   */
  lemma OrphanIsNeverRefunded(s: System, now: int, steps: seq<Step>)
    requires Inv(s) && Settleable(s) && IsOrphanAck(s.store, s.drain.queue[0], s.drain.reply.value)
    ensures var i := s.drain.queue[0].requestId;
      var s1 := Next(s, SettleStep(now));
      var s' := Run(s1, steps);
      && i < |s1.store.requests| && s1.store.requests[i].status.Cancelled?
      && |Rows(s1.store, i)| == 2 && Rows(s1.store, i)[1].phase.Commit? && Rows(s1.store, i)[1].state.Active?
      && i < |s'.store.requests| && s'.store.requests[i].status.Cancelled?
      && |Messages(s'.store, i)| == 1 && Messages(s'.store, i)[0].status.Done?
      && AckOf(s'.hcm, CreditOf(i)) == None
      && Moves(s'.hcm, s'.store.requests[i].key, 0, CausedBy(i)) ==
           if s.drain.reply.value.ack.applied then -s'.store.requests[i].days else 0
  {
    var m := s.drain.queue[0];
    var i, s1 := m.requestId, Next(s, SettleStep(now));
    var s' := Run(s1, steps);
    OrphanAtBirth(s, now);
    NextKeeps(s, SettleStep(now));
    SubmittedIsNotInSession(s1, i);
    FrozenForever(s1, steps, i);
    RunKeeps(s1, steps);
    assert Shape(ViewOf(s', i));
    TotalEffect(s', i);
  }
}
