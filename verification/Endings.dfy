/** Where messages end: finished ones stay finished, lost ones stay lost, and the work runs out. */
module Endings {
  import opened Domain
  import opened Tables
  import opened Outbox
  import opened Protocol
  import opened Views
  import opened DeliverySteps
  import opened Invariant
  import opened Lifetimes

  predicate IsFinished(m: Message) { m.status.Done? || m.status.Dead? }

  /** Claimed and not settled, with no drain left to settle it. */
  ghost predicate Lost(s: System, id: nat)
    requires id < |s.store.outbox|
  {
    s.store.outbox[id].status.Inflight? &&
    forall p: nat {:trigger AtPosition(s.drain, p, id)} :: !AtPosition(s.drain, p, id)
  }

  /** Nothing will ever happen to the message again. */
  ghost predicate Stuck(s: System, id: nat) {
    id < |s.store.outbox| && (IsFinished(s.store.outbox[id]) || Lost(s, id))
  }

  /** Neither the head of the queue nor anything due is stuck. */
  lemma StuckIsNotQueued(s: System, id: nat)
    requires Inv(s) && Stuck(s, id)
    ensures forall p: nat {:trigger AtPosition(s.drain, p, id)} :: !AtPosition(s.drain, p, id)
    ensures forall now {:trigger IsDue(s.store.outbox[id], now)} ::
      id !in Ids(Due(s.store.outbox, now, CLAIM_LIMIT)) && !IsDue(s.store.outbox[id], now)
  {
    forall p: nat | AtPosition(s.drain, p, id) ensures ClaimedCopy(s.store.outbox, s.drain.queue[p]) { }
    forall now ensures id !in Ids(Due(s.store.outbox, now, CLAIM_LIMIT)) {
      assert !IsDue(s.store.outbox[id], now);
      if id in Ids(Due(s.store.outbox, now, CLAIM_LIMIT)) {
        ClaimedAreDue(s.store, now, CLAIM_LIMIT, s.store.outbox[id]);
      }
    }
  }

  lemma StuckStaysUnqueued(s: System, step: Step, id: nat, p: nat)
    requires Inv(s) && Stuck(s, id)
    ensures !AtPosition(Next(s, step).drain, p, id)
  {
    StuckIsNotQueued(s, id);
    assert !AtPosition(s.drain, p, id) && !AtPosition(s.drain, p + 1, id);
    match step
    case ClaimStep(now) =>
      var due := Due(s.store.outbox, now, CLAIM_LIMIT);
      assert !IsDue(s.store.outbox[id], now);
      forall j: nat | j < |due| ensures due[j].id in Ids(due) { assert due[j] in due; }
    case SettleStep(now) =>
    case ExchangeStep(wire) =>
    case ReconcileStep(key, version) =>
    case _ =>
  }

  lemma StuckStays(s: System, step: Step, id: nat)
    requires Inv(s) && Stuck(s, id)
    ensures Stuck(Next(s, step), id) && Next(s, step).store.outbox[id] == s.store.outbox[id]
    ensures !Hands(s, step, id)
  {
    StuckIsNotQueued(s, id);
    StepMovesMessage(s, step, id);
    var s' := Next(s, step);
    assert !AtPosition(s.drain, 0, id);
    assert s'.store.outbox[id] == s.store.outbox[id] by {
      if step.ClaimStep? { assert !IsDue(s.store.outbox[id], step.now); }
    }
    forall p: nat ensures !AtPosition(s'.drain, p, id) { StuckStaysUnqueued(s, step, id, p); }
  }

  /** A finished message stays as it is, and so does one that was in flight when its drain died. */
  lemma {:induction false} StuckForever(s: System, steps: seq<Step>, id: nat)
    requires Inv(s) && Stuck(s, id)
    ensures var s' := Run(s, steps);
      Stuck(s', id) && s'.store.outbox[id] == s.store.outbox[id]
  {
    if steps == [] {
    } else {
      var front := steps[..|steps| - 1];
      StuckForever(s, front, id);
      RunKeeps(s, front);
      StuckStays(Run(s, front), steps[|steps| - 1], id);
    }
  }

  /**
   * A crash between claim and settle is never repaired: the message stays in flight in every
   * continuation, so the service neither retries nor buries it.
   */
  lemma CrashStrandsTheClaimed(s: System, steps: seq<Step>, id: nat)
    requires Inv(s) && id < |s.store.outbox| && s.store.outbox[id].status.Inflight?
    ensures var s' := Run(Next(s, CrashStep), steps);
      id < |s'.store.outbox| && s'.store.outbox[id] == s.store.outbox[id]
  {
    NextKeeps(s, CrashStep);
    assert Stuck(Next(s, CrashStep), id);
    StuckForever(Next(s, CrashStep), steps, id);
  }

  /** A crash loses exactly the messages in flight. */
  lemma CrashLosesExactlyTheClaimed(s: System, id: nat)
    requires Inv(s) && id < |s.store.outbox|
    ensures id < |Next(s, CrashStep).store.outbox|
    ensures Lost(Next(s, CrashStep), id) <==> s.store.outbox[id].status.Inflight?
    ensures Stuck(Next(s, CrashStep), id) <==>
      !(s.store.outbox[id].status.Pending? || s.store.outbox[id].status.Retrying?)
  {
  }

  // ---- Without crashes -----------------------------------------------------

  ghost predicate IsQueued(s: System, id: nat) { exists p: nat :: AtPosition(s.drain, p, id) }

  /** Whatever is in flight is in the running drain's queue. */
  ghost predicate NoneLost(s: System) {
    forall id: nat {:trigger IsQueued(s, id)} ::
      id < |s.store.outbox| && s.store.outbox[id].status.Inflight? ==> IsQueued(s, id)
  }

  lemma ClaimQueues(s: System, now: int, id: nat)
    requires Inv(s) && s.drain.Idle? && id in Ids(Due(s.store.outbox, now, CLAIM_LIMIT))
    ensures IsQueued(Next(s, ClaimStep(now)), id)
  {
    var due := Due(s.store.outbox, now, CLAIM_LIMIT);
    var m :| m in due && m.id == id;
    var p :| 0 <= p < |due| && due[p] == m;
    assert AtPosition(Next(s, ClaimStep(now)).drain, p, id);
  }

  lemma SettleDequeues(s: System, s': System, id: nat)
    requires Settleable(s) && s'.drain == AfterHead(s.drain.queue) && IsQueued(s, id) && s.drain.queue[0].id != id
    ensures IsQueued(s', id)
  {
    var p: nat :| AtPosition(s.drain, p, id);
    assert AtPosition(s'.drain, p - 1, id);
  }

  lemma QueueStays(s: System, s': System, id: nat)
    requires IsQueued(s, id) && s'.drain.Draining? && s'.drain.queue == s.drain.queue
    ensures IsQueued(s', id)
  {
    var p: nat :| AtPosition(s.drain, p, id);
    assert AtPosition(s'.drain, p, id);
  }

  /** A message in flight after a step other than a crash is queued if it was queued before. */
  lemma StepLosesNone(s: System, step: Step, id: nat)
    requires Inv(s) && NoneLost(s) && !step.CrashStep?
    requires id < |Next(s, step).store.outbox| && Next(s, step).store.outbox[id].status.Inflight?
    ensures IsQueued(Next(s, step), id)
  {
    var s' := Next(s, step);
    if id >= |s.store.outbox| {
      NewMessagesArePending(s, step, id);
    } else {
      StepMovesMessage(s, step, id);
      assert s.store.outbox[id].status.Inflight? ==> IsQueued(s, id);
      match step
      case ClaimStep(now) =>
        if s.drain.Idle? { ClaimQueues(s, now, id); }
      case SettleStep(now) =>
        if Settleable(s) { SettleDequeues(s, s', id); } else { assert s' == s; }
      case ExchangeStep(wire) => QueueStays(s, s', id);
      case CrashStep =>
      case _ =>
        assert s'.drain == s.drain;
        QueueStays(s, s', id);
    }
  }

  lemma {:induction false} CrashFreeRunsLoseNone(s: System, steps: seq<Step>)
    requires Inv(s) && NoneLost(s) && CrashStep !in steps
    ensures Inv(Run(s, steps)) && NoneLost(Run(s, steps))
  {
    RunKeeps(s, steps);
    if steps == [] {
    } else {
      var front, step := steps[..|steps| - 1], steps[|steps| - 1];
      CrashFreeRunsLoseNone(s, front);
      assert step in steps;
      var s' := Run(s, steps);
      forall id: nat | id < |s'.store.outbox| && s'.store.outbox[id].status.Inflight? ensures IsQueued(s', id) {
        StepLosesNone(Run(s, front), step, id);
      }
    }
  }

  /**
   * A drain settles what it claims: in a run without crashes, when no drain is running no message
   * is in flight.
   */
  lemma IdleMeansNothingInFlight(steps: seq<Step>, id: nat)
    requires CrashStep !in steps && Run(INITIAL, steps).drain.Idle? && id < |Run(INITIAL, steps).store.outbox|
    ensures !Run(INITIAL, steps).store.outbox[id].status.Inflight?
  {
    InitialInv();
    CrashFreeRunsLoseNone(INITIAL, steps);
    assert !IsQueued(Run(INITIAL, steps), id);
  }

  // ---- The work runs out ---------------------------------------------------

  /** Claims and settlements still to come at most. */
  function Weight(m: Message): nat {
    if IsFinished(m) || m.attempts >= MAX_ATTEMPTS then 0
    else if m.status.Inflight? then 2 * (MAX_ATTEMPTS - m.attempts)
    else 2 * (MAX_ATTEMPTS - m.attempts) + 1
  }

  function WeightAt(outbox: seq<Message>): nat -> int {
    (id: nat) => if id < |outbox| then Weight(outbox[id]) else 0
  }

  function TotalWeight(outbox: seq<Message>): int { SumTo(|outbox|, WeightAt(outbox)) }

  /** A claim that hands something out, or a settlement. */
  predicate Works(s: System, step: Step) {
    || (step.ClaimStep? && s.drain.Idle? && Due(s.store.outbox, step.now, CLAIM_LIMIT) != [])
    || (step.SettleStep? && s.drain.Draining? && s.drain.queue != [] && s.drain.reply.Some?)
  }

  /** A message the step works on. */
  lemma WorkedOn(s: System, step: Step) returns (at: nat)
    requires Inv(s) && Works(s, step)
    ensures at < |s.store.outbox| && Weight(MessageAfter(s, step, s.store.outbox[at])) < Weight(s.store.outbox[at])
  {
    if step.ClaimStep? {
      var due := Due(s.store.outbox, step.now, CLAIM_LIMIT);
      assert due[0] in due;
      var n :| 0 <= n < |s.store.outbox| && s.store.outbox[n] == due[0];
      at := n;
      RowAttempts(s, at);
    } else {
      assert ClaimedCopy(s.store.outbox, s.drain.queue[0]);
      at := s.drain.queue[0].id;
      RowAttempts(s, at);
    }
  }

  lemma NoMessageGainsWeight(s: System, step: Step, id: nat)
    requires Inv(s) && id < |s.store.outbox|
    ensures Weight(MessageAfter(s, step, s.store.outbox[id])) <= Weight(s.store.outbox[id])
  {
  }

  /** What a new message weighs: two for each try, and one for its first claim. */
  const FULL_WEIGHT := 11

  lemma {:induction false} NewMessagesWeigh(n: nat, n': nat, f: nat -> int)
    requires n <= n' && forall id: nat :: n <= id < n' ==> f(id) <= FULL_WEIGHT
    ensures SumTo(n', f) <= SumTo(n, f) + FULL_WEIGHT * (n' - n)
  {
    if n == n' {
    } else {
      NewMessagesWeigh(n, n' - 1, f);
    }
  }

  lemma OutboxGrows(s: System, s': System, step: Step)
    requires Inv(s) && s' == Next(s, step)
    ensures |s'.store.outbox| >= |s.store.outbox|
    ensures forall id: nat :: |s.store.outbox| <= id < |s'.store.outbox| ==> Weight(s'.store.outbox[id]) <= FULL_WEIGHT
  {
    if |s.store.outbox| > 0 { StepMovesMessage(s, step, 0); }
    forall id: nat | |s.store.outbox| <= id < |s'.store.outbox|
      ensures Weight(s'.store.outbox[id]) <= FULL_WEIGHT
    {
    }
  }

  /** Work lowers the total weight; nothing raises it but a new message. */
  lemma StepWeighs(s: System, s': System, step: Step)
    requires Inv(s) && s' == Next(s, step)
    ensures |s'.store.outbox| >= |s.store.outbox|
    ensures TotalWeight(s'.store.outbox) + (if Works(s, step) then 1 else 0) <=
      TotalWeight(s.store.outbox) + FULL_WEIGHT * (|s'.store.outbox| - |s.store.outbox|)
  {
    var n, n' := |s.store.outbox|, |s'.store.outbox|;
    var f, g := WeightAt(s.store.outbox), WeightAt(s'.store.outbox);
    OutboxGrows(s, s', step);
    forall id: nat | id < n ensures g(id) <= f(id) {
      StepMovesMessage(s, step, id);
      NoMessageGainsWeight(s, step, id);
    }
    if Works(s, step) {
      var at := WorkedOn(s, step);
      StepMovesMessage(s, step, at);
      SumStrictlyBelow(n, g, f, at);
    } else {
      SumBelow(n, g, f);
    }
    NewMessagesWeigh(n, n', g);
  }

  /** How many claims and settlements a run contains. */
  function Work(steps: seq<Step>): nat {
    if steps == [] then 0
    else
      var front := steps[..|steps| - 1];
      Work(front) + (if Works(Run(INITIAL, front), steps[|steps| - 1]) then 1 else 0)
  }

  /**
   * Delivery is bounded: a run of any length contains at most eleven claims and settlements for
   * each message it enqueued, so claiming and settling cannot go on without new messages.
   */
  lemma {:induction false} WorkIsBounded(steps: seq<Step>)
    ensures var outbox := Run(INITIAL, steps).store.outbox;
      Work(steps) + TotalWeight(outbox) <= FULL_WEIGHT * |outbox| && TotalWeight(outbox) >= 0
  {
    var s' := Run(INITIAL, steps);
    SumNonNegative(|s'.store.outbox|, WeightAt(s'.store.outbox));
    if steps == [] {
    } else {
      var front := steps[..|steps| - 1];
      WorkIsBounded(front);
      EveryRunAgrees(front);
      StepWeighs(Run(INITIAL, front), s', steps[|steps| - 1]);
    }
  }

  lemma SelectIsEmpty<T(!new)>(t: seq<T>, p: T -> bool)
    ensures Select(t, p) == [] <==> forall x :: x in t ==> !p(x)
  {
    if Select(t, p) == [] {
      assert forall x :: x in t && p(x) ==> x in Select(t, p);
    } else {
      assert Select(t, p)[0] in Select(t, p);
    }
  }

  /** A backoff has elapsed by `now` for every message waiting to be retried. */
  predicate BackoffsElapsed(outbox: seq<Message>, now: int) {
    forall m :: m in outbox && m.status.Retrying? && m.nextAttemptAt.Some? ==> m.nextAttemptAt.value <= now
  }

  /** Once the backoffs have elapsed, a claim finds nothing exactly when every message is stuck. */
  lemma NothingDueMeansAllStuck(s: System, now: int)
    requires Inv(s) && s.drain.Idle? && BackoffsElapsed(s.store.outbox, now)
    ensures !Works(s, ClaimStep(now)) <==> forall id: nat :: id < |s.store.outbox| ==> Stuck(s, id)
  {
    SelectIsEmpty(s.store.outbox, DueAt(now));
    forall id: nat | id < |s.store.outbox| ensures Stuck(s, id) <==> !IsDue(s.store.outbox[id], now) {
      RowAttempts(s, id);
      assert s.store.outbox[id] in s.store.outbox;
    }
  }

  // ---- Retries -------------------------------------------------------------

  /** The wait before the next try: 200 ms, doubled with every failure. */
  function BackoffAfter(failures: nat): nat {
    if failures == 1 then 200 else if failures == 2 then 400 else if failures == 3 then 800 else 1600
  }

  /** The fifth failure buries a message; after each earlier one it waits, twice as long every time. */
  lemma FailedDelivery(s: System, now: int)
    requires Inv(s) && Settleable(s) && s.drain.reply.value.Unavailable?
    ensures var id := s.drain.queue[0].id;
      var outbox' := Next(s, SettleStep(now)).store.outbox;
      && id < |s.store.outbox| == |outbox'|
      && var failures := s.store.outbox[id].attempts + 1;
         && outbox'[id].attempts == failures <= 5
         && (failures == 5 <==> outbox'[id].status.Dead?)
         && (failures < 5 ==>
               outbox'[id].status.Retrying? && outbox'[id].nextAttemptAt == Some(now + BackoffAfter(failures)))
  {
    assert ClaimedCopy(s.store.outbox, s.drain.queue[0]);
    var id := s.drain.queue[0].id;
    SettleMovesMessage(s, now, id);
    RowAttempts(s, id);
    assert Power2(0) == 1 && Power2(1) == 2 && Power2(2) == 4 && Power2(3) == 8;
  }

  /** No claim in `steps` happens at or after `until`. */
  predicate ClaimsBefore(steps: seq<Step>, until: int) {
    forall step :: step in steps && step.ClaimStep? ==> step.now < until
  }

  lemma WaitingIsLeftAlone(s: System, step: Step, id: nat)
    requires Inv(s) && id < |s.store.outbox| && s.store.outbox[id].status.Retrying?
    requires step.ClaimStep? ==> !IsDue(s.store.outbox[id], step.now)
    ensures var m, m' := s.store.outbox[id], MessageAfter(s, step, s.store.outbox[id]);
      m' == m || m' == m.(status := Dead)
  {
  }

  /** Until its backoff has elapsed a message is left alone, except that a cancel may bury it. */
  lemma {:induction false} RetryWaits(s: System, steps: seq<Step>, id: nat, until: int)
    requires Inv(s) && id < |s.store.outbox|
    requires s.store.outbox[id].status.Retrying? && s.store.outbox[id].nextAttemptAt == Some(until)
    requires ClaimsBefore(steps, until)
    ensures var outbox' := Run(s, steps).store.outbox;
      id < |outbox'| &&
      (outbox'[id] == s.store.outbox[id] || outbox'[id] == s.store.outbox[id].(status := Dead))
  {
    if steps == [] {
    } else {
      var front, step := steps[..|steps| - 1], steps[|steps| - 1];
      assert step in steps;
      RetryWaits(s, front, id, until);
      RunKeeps(s, front);
      var mid := Run(s, front);
      StepMovesMessage(mid, step, id);
      if mid.store.outbox[id].status.Dead? {
        StuckStays(mid, step, id);
      } else {
        WaitingIsLeftAlone(mid, step, id);
      }
    }
  }
}
