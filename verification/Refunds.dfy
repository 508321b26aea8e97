/** The credit a cancelled commitment sends to HCM: how it ends, and what is left if it does not arrive. */
module Refunds {
  import opened Domain
  import opened Outbox
  import opened HcmCore
  import opened Protocol
  import opened Views
  import opened StoreSteps
  import opened DeliverySteps
  import opened Invariant
  import opened ExactlyOnce
  import opened Lifetimes
  import opened Endings
  import opened Cancellations

  /** Message `id` is the credit of request `i`, which waits for it. */
  ghost predicate IsRefund(s: System, i: RequestId, id: nat) {
    && i < |s.store.requests| && s.store.requests[i].status.CancellationPending?
    && id < |s.store.outbox| && s.store.outbox[id].requestId == i && s.store.outbox[id].direction.Credit?
  }

  /** The request's other message is its debit, long done. */
  lemma OnlyUnfinished(s: System, i: RequestId, id: nat, other: nat)
    requires Inv(s) && IsRefund(s, i, id) && other < |s.store.outbox| && s.store.outbox[other].requestId == i
    ensures !s.store.outbox[other].status.Done? <==> other == id
    ensures MessageIs(ViewOf(s, i), s.store.outbox[id], Credit)
  {
    var a := RowIsMessage(s.store, id);
    var b := RowIsMessage(s.store, other);
    assert Shape(ViewOf(s, i));
  }

  lemma RefundHead(s: System, i: RequestId, id: nat)
    requires Inv(s) && IsRefund(s, i, id) && s.drain.Draining? && s.drain.queue[0].requestId == i
    ensures s.drain.queue[0].id == id && s.drain.queue[0].direction.Credit? && AtPosition(s.drain, 0, id)
    ensures s.drain.queue[0].attempts == s.store.outbox[id].attempts <= 4
    ensures s.store.outbox[id].status.Inflight?
  {
    assert ClaimedCopy(s.store.outbox, s.drain.queue[0]);
    OnlyUnfinished(s, i, id, s.drain.queue[0].id);
  }

  // ---- One step ------------------------------------------------------------

  /** HCM's answer to a message of request `i` is being settled. */
  ghost predicate Settles(s: System, step: Step, i: RequestId) {
    step.SettleStep? && Settleable(s) && s.drain.queue[0].requestId == i
  }

  lemma RefundAtSettle(s: System, now: int, i: RequestId, id: nat)
    requires Inv(s) && IsRefund(s, i, id) && Settles(s, SettleStep(now), i)
    ensures var st', reply := Next(s, SettleStep(now)).store, s.drain.reply.value;
      && i < |st'.requests| && id < |st'.outbox|
      && st'.requests[i].status == (if reply.Acked? then Cancelled else CancellationPending)
      && (st'.outbox[id].status.Dead? <==>
            reply.Refused? || (reply.Unavailable? && s.store.outbox[id].attempts == 4))
  {
    RefundHead(s, i, id);
    SettleIsSettled(s, now);
    SettleMovesMessage(s, now, id);
  }

  lemma RefundStaysAtSettle(s: System, now: int, i: RequestId)
    requires Inv(s) && i < |s.store.requests| && !Settles(s, SettleStep(now), i)
    ensures i < |Next(s, SettleStep(now)).store.requests|
    ensures Next(s, SettleStep(now)).store.requests[i] == s.store.requests[i]
  {
    if Settleable(s) { SettleIsSettled(s, now); } else { assert Next(s, SettleStep(now)) == s; }
  }

  lemma UnsettledRefundStays(s: System, step: Step, i: RequestId, id: nat)
    requires Inv(s) && IsRefund(s, i, id) && !Settles(s, step, i)
    ensures i < |Next(s, step).store.requests| && Next(s, step).store.requests[i] == s.store.requests[i]
  {
    match step
    case SettleStep(now) => RefundStaysAtSettle(s, now, i);
    case SubmitEnd(key) =>
      if key in s.sessions { assert SessionOk(s.store, key, s.sessions[key].copy); }
    case ApproveStep(_) => OutOfReach(s, step, i);
    case RejectStep(_) => OutOfReach(s, step, i);
    case CancelStep(_) => OutOfReach(s, step, i);
    case CreateStep(_, _) =>
    case _ => RequestsUntouched(s, step);
  }

  /** No other step buries it: a request waiting for its refund cannot be cancelled again. */
  lemma UnsettledRefundIsNotBuried(s: System, step: Step, i: RequestId, id: nat)
    requires Inv(s) && IsRefund(s, i, id) && !Settles(s, step, i)
    ensures id < |Next(s, step).store.outbox|
    ensures Next(s, step).store.outbox[id].status.Dead? <==> s.store.outbox[id].status.Dead?
  {
    StepMovesMessage(s, step, id);
    if step.SettleStep? && Settleable(s) {
      assert ClaimedCopy(s.store.outbox, s.drain.queue[0]);
    } else if step.ClaimStep? && id in Ids(Due(s.store.outbox, step.now, CLAIM_LIMIT)) {
      ClaimedAreDue(s.store, step.now, CLAIM_LIMIT, s.store.outbox[id]);
    }
  }

  /**
   * What a step makes of a refund under way: the request is cancelled exactly when the credit's
   * acknowledgement is settled, and the credit is buried exactly when its refusal is, or its fifth
   * failure; the request then stays where it is.
   */
  lemma RefundEndsExactly(s: System, step: Step, i: RequestId, id: nat)
    requires Inv(s) && IsRefund(s, i, id) && !s.store.outbox[id].status.Dead?
    ensures var st' := Next(s, step).store;
      && i < |st'.requests| && id < |st'.outbox|
      && st'.requests[i].status ==
           (if Settles(s, step, i) && s.drain.reply.value.Acked? then Cancelled else CancellationPending)
      && (st'.outbox[id].status.Dead? <==>
            && Settles(s, step, i)
            && (s.drain.reply.value.Refused?
                || (s.drain.reply.value.Unavailable? && s.store.outbox[id].attempts == 4)))
  {
    if Settles(s, step, i) {
      RefundAtSettle(s, step.now, i, id);
    } else {
      UnsettledRefundStays(s, step, i, id);
      UnsettledRefundIsNotBuried(s, step, i, id);
    }
  }

  // ---- Abandoned -----------------------------------------------------------

  /** The credit was refused, ran out of tries or was lost in a crash. */
  ghost predicate IsAbandoned(s: System, i: RequestId, id: nat) { IsRefund(s, i, id) && Stuck(s, id) }

  lemma AbandonedIsNotHead(s: System, i: RequestId, id: nat)
    requires Inv(s) && IsAbandoned(s, i, id) && s.drain.Draining?
    ensures s.drain.queue[0].requestId != i
  {
    StuckIsNotQueued(s, id);
    if s.drain.queue[0].requestId == i { RefundHead(s, i, id); }
  }

  lemma AbandonedAcksStay(s: System, step: Step, i: RequestId, id: nat)
    requires Inv(s) && IsAbandoned(s, i, id)
    ensures AckOf(Next(s, step).hcm, DebitOf(i)) == AckOf(s.hcm, DebitOf(i))
    ensures AckOf(Next(s, step).hcm, CreditOf(i)) == AckOf(s.hcm, CreditOf(i))
  {
    match step
    case ExchangeStep(wire) =>
      ExchangeStore(s, wire);
      if Next(s, step).hcm != s.hcm {
        AbandonedIsNotHead(s, i, id);
        OtherAcksStay(s, Next(s, step).hcm, wire, i);
      }
    case HcmStep(call) => if IsForeign(call) { ForeignCall(s.hcm, call); }
    case _ => assert Next(s, step).hcm == s.hcm;
  }

  lemma AbandonedStays(s: System, step: Step, i: RequestId, id: nat)
    requires Inv(s) && IsAbandoned(s, i, id)
    ensures IsAbandoned(Next(s, step), i, id) && Next(s, step).store.requests[i] == s.store.requests[i]
  {
    if s.drain.Draining? { AbandonedIsNotHead(s, i, id); }
    UnsettledRefundStays(s, step, i, id);
    StuckStays(s, step, id);
  }

  lemma {:induction false} AbandonedForever(s: System, steps: seq<Step>, i: RequestId, id: nat)
    requires Inv(s) && IsAbandoned(s, i, id)
    ensures var s' := Run(s, steps);
      && IsAbandoned(s', i, id) && s'.store.requests[i] == s.store.requests[i]
      && AckOf(s'.hcm, DebitOf(i)) == AckOf(s.hcm, DebitOf(i))
      && AckOf(s'.hcm, CreditOf(i)) == AckOf(s.hcm, CreditOf(i))
  {
    if steps == [] {
    } else {
      var front, step := steps[..|steps| - 1], steps[|steps| - 1];
      AbandonedForever(s, front, i, id);
      RunKeeps(s, front);
      AbandonedStays(Run(s, front), step, i, id);
      AbandonedAcksStay(Run(s, front), step, i, id);
    }
  }

  /**
   * A request whose credit was refused, ran out of tries or was lost waits for it for ever. HCM
   * stays debited for it in every continuation if and only if it had applied the debit and not the
   * credit; an unheard credit may have been applied.
   */
  lemma AbandonedStaysDebited(s: System, steps: seq<Step>, i: RequestId, id: nat)
    requires Inv(s) && IsAbandoned(s, i, id)
    ensures var s' := Run(s, steps);
      var debited, credited := IsWritten(AckOf(s.hcm, DebitOf(i))), IsWritten(AckOf(s.hcm, CreditOf(i)));
      var effect := Moves(s'.hcm, s.store.requests[i].key, 0, CausedBy(i));
      && i < |s'.store.requests| && s'.store.requests[i] == s.store.requests[i]
      && id < |s'.store.outbox| && Stuck(s', id)
      && (effect < 0 <==> debited && !credited)
      && (effect < 0 ==> effect == -s.store.requests[i].days)
  {
    AbandonedForever(s, steps, i, id);
    RunKeeps(s, steps);
    TotalEffect(Run(s, steps), i);
    assert Shape(ViewOf(s, i));
  }
}
