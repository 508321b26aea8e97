/**
 * When cancelling an approved request still prevents its debit, wherever its message is: waiting,
 * in flight, lost, or given up.
 */
module Recall {
  import opened Domain
  import opened Tables
  import opened Outbox
  import opened HcmCore
  import opened OutboxProcessor
  import opened Protocol
  import opened Views
  import opened StoreSteps
  import opened DeliverySteps
  import opened Invariant
  import opened ExactlyOnce
  import opened Lifetimes
  import opened Endings
  import opened Cancellations

  /** HCM's reply to the head of the queue is one after which its message is buried. */
  ghost predicate GivesUp(d: Drain) {
    && d.Draining? && d.queue != [] && d.reply.Some?
    && (d.reply.value.Refused? || d.queue[0].attempts >= 4)
  }

  /** Claimed, with a delivery or a retry still ahead of it. */
  ghost predicate IsUnderWay(s: System, id: nat)
    requires id < |s.store.outbox|
  {
    s.store.outbox[id].status.Inflight?
    && exists p: nat :: AtPosition(s.drain, p, id) && !(p == 0 && GivesUp(s.drain))
  }

  ghost predicate MayBeDelivered(s: System, id: nat)
    requires id < |s.store.outbox|
  {
    s.store.outbox[id].status.Pending? || s.store.outbox[id].status.Retrying? || IsUnderWay(s, id)
  }

  /** Message `id` is the debit of cancelled request `i`, to which HCM has sent no credit. */
  ghost predicate IsRecalled(s: System, i: RequestId, id: nat) {
    && i < |s.store.requests| && s.store.requests[i].status.Cancelled? && AckOf(s.hcm, CreditOf(i)).None?
    && id < |s.store.outbox| && s.store.outbox[id].requestId == i && s.store.outbox[id].direction.Debit?
  }

  /** It is then the request's only message. */
  lemma OnlyMessage(s: System, i: RequestId, id: nat, other: nat)
    requires Inv(s) && IsRecalled(s, i, id) && other < |s.store.outbox| && s.store.outbox[other].requestId == i
    ensures other == id && MessageIs(ViewOf(s, i), s.store.outbox[id], Debit) && s.store.requests[i].days > 0
  {
    var a := RowIsMessage(s.store, id);
    var b := RowIsMessage(s.store, other);
    assert Shape(ViewOf(s, i));
  }

  lemma RecalledHead(s: System, i: RequestId, id: nat)
    requires Inv(s) && IsRecalled(s, i, id) && s.drain.Draining? && s.drain.queue[0].requestId == i
    ensures var m := s.drain.queue[0];
      && m.id == id && CommandOf(m) == ServiceCommand(s.store.requests[i], Debit) && m.direction.Debit?
      && AtPosition(s.drain, 0, id)
      && (s.drain.reply.Some? && s.drain.reply.value.Acked? ==> AckOf(s.hcm, DebitOf(i)).Some?)
  {
    assert ClaimedCopy(s.store.outbox, s.drain.queue[0]);
    OnlyMessage(s, i, id, s.drain.queue[0].id);
  }

  lemma QueuedIsInflight(s: System, p: nat, id: nat)
    requires Inv(s) && AtPosition(s.drain, p, id)
    ensures id < |s.store.outbox| && s.store.outbox[id].status.Inflight?
    ensures s.drain.queue[p] == s.store.outbox[id].(nextAttemptAt := s.drain.queue[p].nextAttemptAt)
  {
    assert ClaimedCopy(s.store.outbox, s.drain.queue[p]);
  }

  // ---- A continuation that debits ------------------------------------------

  /** Recalled, and HCM has acknowledged nothing for it. */
  ghost predicate IsOpen(s: System, i: RequestId, id: nat) {
    Inv(s) && IsRecalled(s, i, id) && AckOf(s.hcm, DebitOf(i)).None?
  }

  lemma NotSentMoves(s: System, i: RequestId, id: nat)
    requires IsOpen(s, i, id)
    ensures var s' := Next(s, ExchangeStep(NotSent));
      IsOpen(s', i, id) && s'.store == s.store && s'.hcm == s.hcm
    ensures s.drain.Draining? ==>
      Next(s, ExchangeStep(NotSent)).drain == s.drain.(reply := Some(s.drain.reply.GetOr(Unavailable)))
  {
    NextKeeps(s, ExchangeStep(NotSent));
  }

  /** Settling another message leaves a recalled request alone and brings its debit one place forward. */
  lemma OtherSettled(s: System, i: RequestId, id: nat, p: nat)
    requires IsOpen(s, i, id) && Settleable(s) && 0 < p && AtPosition(s.drain, p, id)
    ensures var s' := Next(s, SettleStep(0));
      && IsOpen(s', i, id) && s'.store.requests[i] == s.store.requests[i]
      && AtPosition(s'.drain, p - 1, id) && s'.drain.reply.None?
  {
    NextKeeps(s, SettleStep(0));
    if s.drain.queue[0].requestId == i { RecalledHead(s, i, id); }
    SettleIsSettled(s, 0);
    SettleMovesMessage(s, 0, id);
    assert s.drain.queue[0].id < s.drain.queue[p].id;
  }

  /** Its debit comes to the head of the queue. */
  lemma {:induction false} ComesUp(s: System, steps: seq<Step>, i: RequestId, id: nat, p: nat)
    returns (more: seq<Step>)
    requires IsOpen(Run(s, steps), i, id) && AtPosition(Run(s, steps).drain, p, id)
    requires p == 0 ==> Run(s, steps).drain.reply.None?
    ensures var s1, s2 := Run(s, steps), Run(s, more);
      && IsOpen(s2, i, id) && s2.store.requests[i] == s1.store.requests[i]
      && AtPosition(s2.drain, 0, id) && s2.drain.reply.None?
    decreases p
  {
    if p == 0 {
      more := steps;
    } else {
      var s1 := Run(s, steps);
      NotSentMoves(s1, i, id);
      more := Then(s, steps, ExchangeStep(NotSent));
      assert AtPosition(Run(s, more).drain, p, id);
      OtherSettled(Run(s, more), i, id, p);
      more := Then(s, more, SettleStep(0));
      more := ComesUp(s, more, i, id, p - 1);
    }
  }

  lemma CrashOpens(s: System, i: RequestId, id: nat)
    requires IsOpen(s, i, id)
    ensures var s' := Next(s, CrashStep);
      IsOpen(s', i, id) && s'.store == s.store && s'.drain.Idle?
  {
    NextKeeps(s, CrashStep);
  }

  lemma ClaimOpens(s: System, i: RequestId, id: nat, now: int)
    requires IsOpen(s, i, id) && s.drain.Idle? && IsDue(s.store.outbox[id], now)
    ensures var s' := Next(s, ClaimStep(now));
      && IsOpen(s', i, id) && s'.store.requests == s.store.requests
      && Works(s, ClaimStep(now))
      && (id in Ids(Due(s.store.outbox, now, CLAIM_LIMIT)) ==>
            s'.drain.Draining? && s'.drain.reply.None? && exists p: nat :: AtPosition(s'.drain, p, id))
      && (id !in Ids(Due(s.store.outbox, now, CLAIM_LIMIT)) ==> s'.store.outbox[id] == s.store.outbox[id])
  {
    NextKeeps(s, ClaimStep(now));
    StepMovesMessage(s, ClaimStep(now), id);
    assert s.store.outbox[id] in Select(s.store.outbox, DueAt(now));
    var due, s' := Due(s.store.outbox, now, CLAIM_LIMIT), Next(s, ClaimStep(now));
    if id in Ids(due) {
      var m :| m in due && m.id == id;
      var p :| 0 <= p < |due| && due[p] == m;
      assert AtPosition(s'.drain, p, id);
    }
  }

  /** Claims that die leave fewer due messages ahead of it, until one picks it up. */
  lemma {:induction false} GetsClaimed(s: System, steps: seq<Step>, i: RequestId, id: nat, now: int)
    returns (more: seq<Step>, p: nat)
    requires IsOpen(Run(s, steps), i, id) && Run(s, steps).drain.Idle?
    requires IsDue(Run(s, steps).store.outbox[id], now)
    ensures var s1, s2 := Run(s, steps), Run(s, more);
      && IsOpen(s2, i, id) && s2.store.requests[i] == s1.store.requests[i]
      && AtPosition(s2.drain, p, id) && s2.drain.reply.None?
    decreases TotalWeight(Run(s, steps).store.outbox)
  {
    var s1 := Run(s, steps);
    ClaimOpens(s1, i, id, now);
    more := Then(s, steps, ClaimStep(now));
    var s2 := Run(s, more);
    if id in Ids(Due(s1.store.outbox, now, CLAIM_LIMIT)) {
      p :| AtPosition(s2.drain, p, id);
    } else {
      StepWeighs(s1, s2, ClaimStep(now));
      SumNonNegative(|s1.store.outbox|, WeightAt(s1.store.outbox));
      SumNonNegative(|s2.store.outbox|, WeightAt(s2.store.outbox));
      CrashOpens(s2, i, id);
      more := Then(s, more, CrashStep);
      more, p := GetsClaimed(s, more, i, id, now);
    }
  }

  /** HCM restored, and granted the days asked for. */
  lemma HcmMayAgree(s: System, i: RequestId, id: nat, call: Call)
    requires IsOpen(s, i, id) && IsForeign(call)
    ensures var s' := Next(s, HcmStep(call));
      IsOpen(s', i, id) && s'.store == s.store && s'.drain == s.drain && s'.hcm == Perform(s.hcm, call)
  {
    NextKeeps(s, HcmStep(call));
    ForeignCall(s.hcm, call);
  }

  /** The debit was applied at HCM for the cancelled request. */
  ghost predicate IsDebited(s: System, i: RequestId, id: nat) {
    Inv(s) && IsRecalled(s, i, id) && IsWritten(AckOf(s.hcm, DebitOf(i)))
  }

  lemma DeliveredDebit(s: System, i: RequestId, id: nat)
    requires IsOpen(s, i, id) && AtPosition(s.drain, 0, id) && s.drain.reply.None?
    requires var k := s.store.requests[i].key;
      s.hcm.faults == DEFAULT_FAULTS && Version(s.hcm, k) > 0 && CurrentBalance(s.hcm, k) >= s.store.requests[i].days
    ensures var s' := Next(s, ExchangeStep(Delivered));
      IsDebited(s', i, id) && s'.store == s.store
  {
    NextKeeps(s, ExchangeStep(Delivered));
    QueuedIsInflight(s, 0, id);
    RecalledHead(s, i, id);
  }

  lemma GetsDebited(s: System, steps: seq<Step>, i: RequestId, id: nat) returns (more: seq<Step>)
    requires IsOpen(Run(s, steps), i, id)
    requires AtPosition(Run(s, steps).drain, 0, id) && Run(s, steps).drain.reply.None?
    ensures IsDebited(Run(s, more), i, id)
    ensures Run(s, more).store.requests[i] == Run(s, steps).store.requests[i]
  {
    var r := Run(s, steps).store.requests[i];
    HcmMayAgree(Run(s, steps), i, id, FaultsCall(DEFAULT_FAULTS));
    more := Then(s, steps, HcmStep(FaultsCall(DEFAULT_FAULTS)));
    HcmMayAgree(Run(s, more), i, id, SeedCall(r.key, r.days));
    more := Then(s, more, HcmStep(SeedCall(r.key, r.days)));
    DeliveredDebit(Run(s, more), i, id);
    more := Then(s, more, ExchangeStep(Delivered));
  }

  /** A debit whose try failed, but not for the last time, waits for another. */
  lemma WaitsAgain(s: System, i: RequestId, id: nat)
    requires IsOpen(s, i, id) && AtPosition(s.drain, 0, id) && Settleable(s) && !GivesUp(s.drain)
    ensures var s' := Next(s, SettleStep(0));
      && IsOpen(s', i, id) && s'.store.requests[i] == s.store.requests[i]
      && s'.store.outbox[id].status.Retrying?
  {
    NextKeeps(s, SettleStep(0));
    QueuedIsInflight(s, 0, id);
    RecalledHead(s, i, id);
    SettleIsSettled(s, 0);
    SettleMovesMessage(s, 0, id);
  }

  lemma WaitingGetsDebited(s: System, steps: seq<Step>, i: RequestId, id: nat) returns (more: seq<Step>)
    requires IsOpen(Run(s, steps), i, id)
    requires var m := Run(s, steps).store.outbox[id]; m.status.Pending? || m.status.Retrying?
    ensures IsDebited(Run(s, more), i, id)
    ensures Run(s, more).store.requests[i] == Run(s, steps).store.requests[i]
  {
    var m, p := Run(s, steps).store.outbox[id], 0;
    RowAttempts(Run(s, steps), id);
    CrashOpens(Run(s, steps), i, id);
    more := Then(s, steps, CrashStep);
    more, p := GetsClaimed(s, more, i, id, m.nextAttemptAt.GetOr(0));
    more := ComesUp(s, more, i, id, p);
    more := GetsDebited(s, more, i, id);
  }

  /** As long as the message may be delivered there is a continuation in which HCM applies it. */
  lemma MayGetDebited(s: System, i: RequestId, id: nat) returns (steps: seq<Step>)
    requires IsOpen(s, i, id) && MayBeDelivered(s, id)
    ensures IsDebited(Run(s, steps), i, id)
    ensures Run(s, steps).store.requests[i] == s.store.requests[i]
  {
    steps := [];
    assert Run(s, steps) == s;
    if IsUnderWay(s, id) {
      var p: nat :| AtPosition(s.drain, p, id) && !(p == 0 && GivesUp(s.drain));
      if p == 0 && s.drain.reply.Some? {
        WaitsAgain(s, i, id);
        steps := Then(s, steps, SettleStep(0));
        steps := WaitingGetsDebited(s, steps, i, id);
      } else {
        steps := ComesUp(s, steps, i, id, p);
        steps := GetsDebited(s, steps, i, id);
      }
    } else {
      steps := WaitingGetsDebited(s, steps, i, id);
    }
  }

  // ---- No continuation that debits -----------------------------------------

  /** HCM has not applied the debit and never will: it believes it has, or is never asked. */
  ghost predicate IsHarmless(s: System, i: RequestId, id: nat) {
    && IsRecalled(s, i, id) && !InSession(s, i) && !IsWritten(AckOf(s.hcm, DebitOf(i)))
    && (AckOf(s.hcm, DebitOf(i)).Some? || !MayBeDelivered(s, id))
  }

  lemma RequestStaysAtSettle(s: System, now: int, i: RequestId, id: nat)
    requires Inv(s) && IsRecalled(s, i, id)
    ensures i < |Next(s, SettleStep(now)).store.requests|
    ensures Next(s, SettleStep(now)).store.requests[i] == s.store.requests[i]
  {
    if Settleable(s) {
      SettleIsSettled(s, now);
      if s.drain.queue[0].requestId == i { RecalledHead(s, i, id); }
    } else {
      assert Next(s, SettleStep(now)) == s;
    }
  }

  lemma RequestStays(s: System, step: Step, i: RequestId, id: nat)
    requires Inv(s) && IsRecalled(s, i, id) && !InSession(s, i)
    ensures i < |Next(s, step).store.requests| && Next(s, step).store.requests[i] == s.store.requests[i]
  {
    match step
    case SettleStep(now) => RequestStaysAtSettle(s, now, i, id);
    case SubmitEnd(key) =>
      if Grants(s, key) { assert SessionOk(s.store, key, s.sessions[key].copy); }
    case ApproveStep(_) => OutOfReach(s, step, i);
    case RejectStep(_) => OutOfReach(s, step, i);
    case CancelStep(_) => OutOfReach(s, step, i);
    case CreateStep(_, _) =>
    case _ => RequestsUntouched(s, step);
  }

  /** Nothing but its own message moves what HCM has acknowledged for the request. */
  lemma AcksStay(s: System, step: Step, i: RequestId, id: nat)
    requires Inv(s) && IsHarmless(s, i, id)
    ensures AckOf(Next(s, step).hcm, DebitOf(i)) == AckOf(s.hcm, DebitOf(i))
    ensures AckOf(Next(s, step).hcm, CreditOf(i)) == AckOf(s.hcm, CreditOf(i))
  {
    match step
    case ExchangeStep(wire) =>
      ExchangeStore(s, wire);
      if Next(s, step).hcm != s.hcm {
        if s.drain.queue[0].requestId != i {
          OtherAcksStay(s, Next(s, step).hcm, wire, i);
        } else {
          RecalledHead(s, i, id);
          QueuedIsInflight(s, 0, id);
        }
      }
    case HcmStep(call) => if IsForeign(call) { ForeignCall(s.hcm, call); }
    case _ => assert Next(s, step).hcm == s.hcm;
  }

  lemma GivenUpIsOver(s: System, id: nat)
    requires Inv(s) && AtPosition(s.drain, 0, id) && GivesUp(s.drain)
    ensures id < |s.store.outbox| && !MayBeDelivered(s, id)
  {
    QueuedIsInflight(s, 0, id);
  }

  lemma GivenUpIsBuried(s: System, now: int, i: RequestId, id: nat)
    requires IsOpen(s, i, id) && AtPosition(s.drain, 0, id) && GivesUp(s.drain)
    ensures id < |Next(s, SettleStep(now)).store.outbox| && Next(s, SettleStep(now)).store.outbox[id].status.Dead?
  {
    QueuedIsInflight(s, 0, id);
    RecalledHead(s, i, id);
    SettleMovesMessage(s, now, id);
  }

  lemma StaysGivenUp(s: System, step: Step, id: nat)
    requires Inv(s) && AtPosition(s.drain, 0, id) && GivesUp(s.drain)
    requires !step.SettleStep? && !step.CrashStep?
    ensures Next(s, step).drain == s.drain
  {
    match step
    case ReconcileStep(_, _) =>
    case ExchangeStep(_) =>
    case ClaimStep(_) =>
    case _ =>
  }

  lemma GivenUpStays(s: System, step: Step, i: RequestId, id: nat)
    requires IsOpen(s, i, id) && AtPosition(s.drain, 0, id) && GivesUp(s.drain)
    ensures id < |Next(s, step).store.outbox| && !MayBeDelivered(Next(s, step), id)
  {
    if step.SettleStep? {
      GivenUpIsBuried(s, step.now, i, id);
    } else if step.CrashStep? {
      QueuedIsInflight(s, 0, id);
    } else {
      NextKeeps(s, step);
      StaysGivenUp(s, step, id);
      GivenUpIsOver(Next(s, step), id);
    }
  }

  /** What cannot be delivered is finished, lost, or at the head with its last word said. */
  lemma NotDelivered(s: System, step: Step, i: RequestId, id: nat)
    requires IsOpen(s, i, id) && !MayBeDelivered(s, id)
    ensures id < |Next(s, step).store.outbox| && !MayBeDelivered(Next(s, step), id)
  {
    if Stuck(s, id) {
      StuckStays(s, step, id);
    } else {
      var p: nat :| AtPosition(s.drain, p, id);
      GivenUpStays(s, step, i, id);
    }
  }

  lemma MessageStays(s: System, step: Step, id: nat)
    requires Inv(s) && id < |s.store.outbox|
    ensures var outbox' := Next(s, step).store.outbox;
      && id < |outbox'| && outbox'[id].requestId == s.store.outbox[id].requestId
      && outbox'[id].direction == s.store.outbox[id].direction
  {
    StepMovesMessage(s, step, id);
  }

  lemma HarmlessStays(s: System, step: Step, i: RequestId, id: nat)
    requires Inv(s) && IsHarmless(s, i, id)
    ensures IsHarmless(Next(s, step), i, id) && Next(s, step).store.requests[i] == s.store.requests[i]
  {
    RequestStays(s, step, i, id);
    AcksStay(s, step, i, id);
    MessageStays(s, step, id);
    CancelledIsNotTakenUp(s, step, i);
    if AckOf(s.hcm, DebitOf(i)).None? { NotDelivered(s, step, i, id); }
  }

  lemma {:induction false} HarmlessForever(s: System, steps: seq<Step>, i: RequestId, id: nat)
    requires Inv(s) && IsHarmless(s, i, id)
    ensures Inv(Run(s, steps)) && IsHarmless(Run(s, steps), i, id)
    ensures Run(s, steps).store.requests[i] == s.store.requests[i]
  {
    RunKeeps(s, steps);
    if steps == [] {
    } else {
      HarmlessForever(s, steps[..|steps| - 1], i, id);
      RunKeeps(s, steps[..|steps| - 1]);
      HarmlessStays(Run(s, steps[..|steps| - 1]), steps[|steps| - 1], i, id);
    }
  }

  // ---- The cancel ----------------------------------------------------------

  /** What request `i` has done to HCM's balance of its key so far. */
  ghost function Effect(s: System, i: RequestId): int
    requires i < |s.store.requests|
  {
    Moves(s.hcm, s.store.requests[i].key, 0, CausedBy(i))
  }

  /** Whatever follows, request `i` has no effect at HCM. */
  ghost predicate NeverMoves(s: System, i: RequestId) {
    forall steps: seq<Step> {:trigger Run(s, steps)} ::
      i < |Run(s, steps).store.requests| && Effect(Run(s, steps), i) == 0
  }

  /** A recalled request no submit holds leaves HCM unmoved for ever exactly if it is harmless. */
  lemma NeverMovesExactly(s: System, i: RequestId, id: nat)
    requires Inv(s) && IsRecalled(s, i, id) && !InSession(s, i)
    ensures NeverMoves(s, i) <==> IsHarmless(s, i, id)
  {
    if IsHarmless(s, i, id) {
      forall steps: seq<Step> ensures i < |Run(s, steps).store.requests| && Effect(Run(s, steps), i) == 0 {
        HarmlessForever(s, steps, i, id);
        TotalEffect(Run(s, steps), i);
      }
    } else {
      var steps := [];
      assert Run(s, steps) == s;
      if AckOf(s.hcm, DebitOf(i)).None? { steps := MayGetDebited(s, i, id); }
      TotalEffect(Run(s, steps), i);
      OnlyMessage(Run(s, steps), i, id, id);
      assert Effect(Run(s, steps), i) != 0;
    }
  }

  lemma ApprovedDebit(s: System, i: RequestId, id: nat)
    requires Inv(s) && i < |s.store.requests| && s.store.requests[i].status.Approved?
    requires id < |s.store.outbox| && s.store.outbox[id].requestId == i
    ensures s.store.outbox[id].direction.Debit? && Rows(s.store, i) != [] && AckOf(s.hcm, CreditOf(i)).None?
  {
    var j := RowIsMessage(s.store, id);
    assert Shape(ViewOf(s, i));
  }

  lemma CancelOfApproved(s: System, i: RequestId)
    requires i < |s.store.requests| && s.store.requests[i].status.Approved?
    ensures var s' := Next(s, CancelStep(i));
      && i < |s'.store.requests| && s'.store.requests[i] == s.store.requests[i].(status := Cancelled)
      && s'.drain == s.drain && s'.hcm == s.hcm && s'.sessions == s.sessions
  {
  }

  lemma CancelRecalls(s: System, i: RequestId, id: nat)
    requires Inv(s) && i < |s.store.requests| && s.store.requests[i].status.Approved?
    requires id < |s.store.outbox| && s.store.outbox[id].requestId == i
    ensures var s' := Next(s, CancelStep(i));
      && Inv(s') && IsRecalled(s', i, id) && !InSession(s', i)
      && AckOf(s'.hcm, DebitOf(i)) == AckOf(s.hcm, DebitOf(i))
      && (MayBeDelivered(s', id) <==> IsUnderWay(s, id))
  {
    NextKeeps(s, CancelStep(i));
    StepMovesMessage(s, CancelStep(i), id);
    ApprovedDebit(s, i, id);
    CancelOfApproved(s, i);
    SubmittedIsNotInSession(s, i);
  }

  /**
   * Cancelling an approved request leaves HCM unmoved in every continuation if and only if HCM has
   * not applied its debit and either already believes it has, or the message was not under way: not
   * in a running drain's queue, or there with its refusal or last failure in.
   */
  lemma CancelIsFreeExactly(s: System, i: RequestId, id: nat)
    requires Inv(s) && i < |s.store.requests| && s.store.requests[i].status.Approved?
    requires id < |s.store.outbox| && s.store.outbox[id].requestId == i
    ensures NeverMoves(Next(s, CancelStep(i)), i) <==>
      && !IsWritten(AckOf(s.hcm, DebitOf(i)))
      && (AckOf(s.hcm, DebitOf(i)).Some? || !IsUnderWay(s, id))
  {
    CancelRecalls(s, i, id);
    NeverMovesExactly(Next(s, CancelStep(i)), i, id);
  }
}
