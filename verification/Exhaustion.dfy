/** A debit that has run out of tries: neither failed nor lost, and holding its days until cancelled. */
module Exhaustion {
  import opened Domain
  import opened HcmCore
  import opened Protocol
  import opened Views
  import opened StoreSteps
  import opened DeliverySteps
  import opened Invariant
  import opened Accounting
  import opened Endings

  /** Approved, with a debit that was buried after its last try. */
  ghost predicate Exhausted(v: View) {
    v.r.status.Approved? && |v.msgs| == 1 && v.msgs[0].status.Dead?
  }

  lemma ExhaustedHead(s: System, i: RequestId)
    requires Inv(s) && s.drain.Draining? && i < |s.store.requests| && Exhausted(ViewOf(s, i))
    ensures s.drain.queue[0].requestId != i
  {
  }

  lemma ExhaustedAtSettle(s: System, now: int, i: RequestId)
    requires Inv(s) && i < |s.store.requests| && Exhausted(ViewOf(s, i))
    ensures i < |Next(s, SettleStep(now)).store.requests|
    ensures Next(s, SettleStep(now)).store.requests[i] == s.store.requests[i]
  {
    if Settleable(s) {
      ExhaustedHead(s, i);
      SettleIsSettled(s, now);
    } else {
      assert Next(s, SettleStep(now)) == s;
    }
  }

  lemma ExhaustedAtLifecycle(s: System, step: Step, i: RequestId)
    requires SessionsOk(s) && i < |s.store.requests| && s.store.requests[i].status.Approved? && step != CancelStep(i)
    requires step.SubmitEnd? || step.ApproveStep? || step.RejectStep? || step.CancelStep?
    ensures i < |Next(s, step).store.requests|
    ensures Next(s, step).store.requests[i] == s.store.requests[i]
  {
  }

  lemma ExhaustedStays(s: System, step: Step, i: RequestId)
    requires Inv(s) && i < |s.store.requests| && Exhausted(ViewOf(s, i)) && step != CancelStep(i)
    ensures i < |Next(s, step).store.requests|
    ensures Next(s, step).store.requests[i] == s.store.requests[i]
  {
    match step
    case SettleStep(now) => ExhaustedAtSettle(s, now, i);
    case SubmitEnd(_) => ExhaustedAtLifecycle(s, step, i);
    case ApproveStep(_) => ExhaustedAtLifecycle(s, step, i);
    case RejectStep(_) => ExhaustedAtLifecycle(s, step, i);
    case CancelStep(_) => ExhaustedAtLifecycle(s, step, i);
    case CreateStep(_, _) =>
    case _ => RequestsUntouched(s, step);
  }

  /** The message that was buried stays the request's only one. */
  lemma ExhaustedStill(s: System, s': System, i: RequestId, id: nat)
    requires Inv(s) && Inv(s') && i < |s.store.requests| && i < |s'.store.requests|
    requires Exhausted(ViewOf(s, i)) && s'.store.requests[i] == s.store.requests[i]
    requires id < |s.store.outbox| && s.store.outbox[id].requestId == i && s.store.outbox[id].status.Dead?
    requires id < |s'.store.outbox| && s'.store.outbox[id] == s.store.outbox[id]
    ensures Exhausted(ViewOf(s', i))
  {
  }

  lemma ExhaustedRow(s: System, i: RequestId) returns (id: nat)
    requires Inv(s) && i < |s.store.requests| && Exhausted(ViewOf(s, i))
    ensures id < |s.store.outbox| && s.store.outbox[id].requestId == i && s.store.outbox[id].status.Dead?
  {
    id := Messages(s.store, i)[0].id;
    assert Shape(ViewOf(s, i));
    MessageIsRow(s.store, i, 0);
  }

  lemma ExhaustedMessages(s: System, step: Step, i: RequestId)
    requires Inv(s) && i < |s.store.requests| && Exhausted(ViewOf(s, i)) && step != CancelStep(i)
    ensures i < |Next(s, step).store.requests| && Exhausted(ViewOf(Next(s, step), i))
  {
    ExhaustedStays(s, step, i);
    NextKeeps(s, step);
    var id := ExhaustedRow(s, i);
    StuckStays(s, step, id);
    ExhaustedStill(s, Next(s, step), i, id);
  }

  lemma {:induction false} ExhaustedForever(s: System, steps: seq<Step>, i: RequestId)
    requires Inv(s) && i < |s.store.requests| && Exhausted(ViewOf(s, i)) && CancelStep(i) !in steps
    ensures var s' := Run(s, steps);
      i < |s'.store.requests| && s'.store.requests[i] == s.store.requests[i] && Exhausted(ViewOf(s', i))
  {
    if steps == [] {
    } else {
      var front, step := steps[..|steps| - 1], steps[|steps| - 1];
      assert step in steps;
      ExhaustedForever(s, front, i);
      RunKeeps(s, front);
      ExhaustedStays(Run(s, front), step, i);
      ExhaustedMessages(Run(s, front), step, i);
    }
  }

  lemma ExhaustedHolds(s: System, i: RequestId)
    requires Inv(s) && i < |s.store.requests| && Exhausted(ViewOf(s, i))
    ensures HeldDays(s.store, i) == s.store.requests[i].days > 0
  {
    assert Shape(ViewOf(s, i));
    HeldOf(s, i);
  }

  /**
   * A request whose debit ran out of tries is not failed: until it is cancelled it stays approved
   * and its hold stays in force.
   */
  lemma ExhaustedKeepsItsHold(s: System, steps: seq<Step>, i: RequestId)
    requires Inv(s) && i < |s.store.requests| && Exhausted(ViewOf(s, i)) && CancelStep(i) !in steps
    ensures var s' := Run(s, steps);
      && i < |s'.store.requests| && s'.store.requests[i] == s.store.requests[i]
      && Exhausted(ViewOf(s', i)) && HeldDays(s'.store, i) == s.store.requests[i].days > 0
  {
    ExhaustedForever(s, steps, i);
    RunKeeps(s, steps);
    ExhaustedHolds(Run(s, steps), i);
  }

  // ---- How a request gets there, and what it is not ------------------------

  /** The message being settled is the debit of approved request `i`. */
  ghost predicate SettlesDebitOf(s: System, i: RequestId) {
    Settleable(s) && s.drain.queue[0].requestId == i
    && i < |s.store.requests| && s.store.requests[i].status.Approved?
  }

  lemma SettlingUnansweredDebit(v: View, m: Message, now: int, rowId: nat)
    requires Shape(v) && HeadOf(v, m, 0) && v.r.status.Approved? && m.direction.Debit?
    ensures Exhausted(Settling(v, m, Unavailable, now, rowId)) <==> m.attempts == 4
  {
  }

  /** An unanswered debit of an approved request is exhausted exactly by its fifth failure. */
  lemma FifthFailureExhausts(s: System, now: int, i: RequestId)
    requires Inv(s) && SettlesDebitOf(s, i) && s.drain.reply.value.Unavailable?
    ensures i < |Next(s, SettleStep(now)).store.requests|
    ensures Exhausted(ViewOf(Next(s, SettleStep(now)), i)) <==> s.drain.queue[0].attempts == 4
  {
    var m, s1 := s.drain.queue[0], DoSettle(s, now);
    var p := HeadInView(s);
    SettleIsSettled(s, now);
    assert ClaimedCopy(s.store.outbox, m);
    SettledViewHere(s, s1.store, m, Unavailable, now);
    SettlingUnansweredDebit(ViewOf(s, i), m, now, |s.store.ledger|);
    assert ViewOf(s1, i) == ViewOf(s.(store := s1.store), i);
  }

  lemma SettledRefusalFails(s: System, st': Store, now: int, i: RequestId)
    requires Inv(s) && Settleable(s) && i < |s.store.requests| && s.store.requests[i].status.Approved?
    requires Settled(s.store, st', s.drain.queue[0], s.drain.reply.value, now)
    ensures i < |st'.requests|
    ensures st'.requests[i].status.Failed? <==> SettlesDebitOf(s, i) && s.drain.reply.value.Refused?
  {
    var p := HeadInView(s);
  }

  lemma RefusalFails(s: System, now: int, i: RequestId)
    requires Inv(s) && i < |s.store.requests| && s.store.requests[i].status.Approved?
    ensures i < |Next(s, SettleStep(now)).store.requests|
    ensures Next(s, SettleStep(now)).store.requests[i].status.Failed? <==>
      SettlesDebitOf(s, i) && s.drain.reply.value.Refused?
  {
    if Settleable(s) {
      SettleIsSettled(s, now);
      SettledRefusalFails(s, DoSettle(s, now).store, now, i);
    } else {
      assert Next(s, SettleStep(now)) == s;
    }
  }

  /** An approved request fails exactly when HCM's refusal of its debit is settled, by nothing else. */
  lemma FailsExactlyWhenRefused(s: System, step: Step, i: RequestId)
    requires Inv(s) && i < |s.store.requests| && s.store.requests[i].status.Approved?
    ensures i < |Next(s, step).store.requests|
    ensures Next(s, step).store.requests[i].status.Failed? <==>
      step.SettleStep? && SettlesDebitOf(s, i) && s.drain.reply.value.Refused?
  {
    match step
    case SettleStep(now) => RefusalFails(s, now, i);
    case CancelStep(_) =>
    case CreateStep(_, _) =>
    case SubmitEnd(_) => ExhaustedAtLifecycle(s, step, i);
    case ApproveStep(_) => ExhaustedAtLifecycle(s, step, i);
    case RejectStep(_) => ExhaustedAtLifecycle(s, step, i);
    case _ => RequestsUntouched(s, step);
  }
}
