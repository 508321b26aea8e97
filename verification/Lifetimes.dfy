/** The life of one message: how often it is handed to HCM, when, and where it can end. */
module Lifetimes {
  import opened Domain
  import opened Outbox
  import opened TimeOff
  import opened OutboxProcessor
  import opened Protocol
  import opened Views
  import opened StoreSteps
  import opened DeliverySteps
  import opened Invariant

  // ---- One step of one message ---------------------------------------------

  /** What a step makes of a message that is already in the outbox. */
  function MessageAfter(s: System, step: Step, m: Message): Message {
    match step
    case ClaimStep(now) => if s.drain.Idle? then ClaimIds(Ids(Due(s.store.outbox, now, CLAIM_LIMIT)))(m) else m
    case SettleStep(now) =>
      if s.drain.Draining? && s.drain.queue != [] && s.drain.reply.Some? then
        Rewrite(s.drain.queue[0], s.drain.reply.value, now)(m)
      else m
    case CancelStep(id) =>
      if CancelRequest(s.store, id).Ok? && s.store.requests[id].status.Approved? then
        StopQueued(id)(m)
      else m
    case _ => m
  }

  lemma SettleMovesMessage(s: System, now: int, id: nat)
    requires Inv(s) && id < |s.store.outbox|
    ensures var s' := Next(s, SettleStep(now));
      |s'.store.outbox| == |s.store.outbox| &&
      s'.store.outbox[id] == MessageAfter(s, SettleStep(now), s.store.outbox[id])
  {
    if Settleable(s) { SettleIsSettled(s, now); } else { assert Next(s, SettleStep(now)) == s; }
  }

  lemma ReconcileMovesNoMessage(s: System, key: Key, version: nat)
    ensures Next(s, ReconcileStep(key, version)).store.outbox == s.store.outbox
  {
  }

  /** The outbox is append-only, and a step does to a row just what `MessageAfter` says. */
  lemma StepMovesMessage(s: System, step: Step, id: nat)
    requires Inv(s) && id < |s.store.outbox|
    ensures var outbox' := Next(s, step).store.outbox;
      |s.store.outbox| <= |outbox'| && outbox'[id] == MessageAfter(s, step, s.store.outbox[id])
  {
    match step
    case SettleStep(now) => SettleMovesMessage(s, now, id);
    case ReconcileStep(key, version) => ReconcileMovesNoMessage(s, key, version);
    case ClaimStep(_) =>
    case CancelStep(_) =>
    case ApproveStep(_) =>
    case _ => assert Next(s, step).store.outbox == s.store.outbox;
  }

  /** The retry policy's bounds, for every row of the outbox. */
  lemma RowAttempts(s: System, id: nat)
    requires Inv(s) && id < |s.store.outbox|
    ensures var m := s.store.outbox[id];
      && m.id == id
      && m.attempts <= (if m.status.Dead? then 5 else 4)
      && (m.status.Pending? ==> m.attempts == 0)
      && (m.status.Retrying? ==> m.attempts >= 1 && m.nextAttemptAt.Some?)
  {
    var j := RowIsMessage(s.store, id);
    assert Shape(ViewOf(s, s.store.outbox[id].requestId));
  }

  lemma NewMessagesArePending(s: System, step: Step, id: nat)
    requires Inv(s) && |s.store.outbox| <= id < |Next(s, step).store.outbox|
    ensures Next(s, step).store.outbox[id].status.Pending? && Next(s, step).drain == s.drain
  {
    match step
    case SettleStep(now) => if Settleable(s) { SettleIsSettled(s, now); }
    case ReconcileStep(key, version) => ReconcileMovesNoMessage(s, key, version);
    case ClaimStep(_) =>
    case CancelStep(_) =>
    case ApproveStep(_) =>
    case _ =>
  }

  // ---- How often a message is handed to HCM --------------------------------

  /** The step calls HCM for message `id`. */
  predicate Hands(s: System, step: Step, id: nat) {
    step.ExchangeStep? && s.drain.Draining? && s.drain.queue != [] && s.drain.reply.None? && s.drain.queue[0].id == id
  }

  function Handed(steps: seq<Step>, id: nat): nat {
    if steps == [] then 0
    else
      var front := steps[..|steps| - 1];
      Handed(front, id) + (if Hands(Run(INITIAL, front), steps[|steps| - 1], id) then 1 else 0)
  }

  ghost predicate AtPosition(d: Drain, p: nat, id: nat) {
    d.Draining? && p < |d.queue| && d.queue[p].id == id
  }

  /** How a message's row reflects the `n` times it has been handed to HCM. */
  ghost predicate Counted(s: System, id: nat, n: nat) {
    if id >= |s.store.outbox| then n == 0
    else
      var m := s.store.outbox[id];
      match m.status
      case Pending => n == 0
      case Retrying => n == m.attempts
      case Inflight =>
        && n <= m.attempts + 1
        && (forall p: nat {:trigger AtPosition(s.drain, p, id)} :: AtPosition(s.drain, p, id) ==>
              n == m.attempts + (if p == 0 && s.drain.reply.Some? then 1 else 0))
      case Done => n <= MAX_ATTEMPTS
      case Dead => n <= MAX_ATTEMPTS
  }

  lemma ClaimCounts(s: System, now: int, id: nat, n: nat)
    requires Inv(s) && Counted(s, id, n) && id < |s.store.outbox|
    ensures Counted(Next(s, ClaimStep(now)), id, n)
  {
    var s' := Next(s, ClaimStep(now));
    RowAttempts(s, id);
    StepMovesMessage(s, ClaimStep(now), id);
    if s.drain.Idle? {
      if id in Ids(Due(s.store.outbox, now, CLAIM_LIMIT)) {
        ClaimedAreDue(s.store, now, CLAIM_LIMIT, s.store.outbox[id]);
      } else {
        var due := Due(s.store.outbox, now, CLAIM_LIMIT);
        forall p: nat | p < |due| ensures due[p].id in Ids(due) { assert due[p] in due; }
      }
    }
  }

  lemma SettleCounts(s: System, s': System, now: int, id: nat, n: nat)
    requires Inv(s) && Settleable(s) && Counted(s, id, n) && id < |s.store.outbox| == |s'.store.outbox|
    requires s'.store.outbox[id] == Rewrite(s.drain.queue[0], s.drain.reply.value, now)(s.store.outbox[id])
    requires s'.drain == AfterHead(s.drain.queue)
    ensures Counted(s', id, n)
  {
    var q := s.drain.queue;
    RowAttempts(s, id);
    assert ClaimedCopy(s.store.outbox, q[0]);
    if q[0].id == id {
      assert AtPosition(s.drain, 0, id);
    } else {
      forall p: nat | AtPosition(s'.drain, p, id) && s.store.outbox[id].status.Inflight?
        ensures n == s.store.outbox[id].attempts
      {
        assert AtPosition(s.drain, p + 1, id);
      }
    }
  }

  lemma ExchangeCounts(s: System, wire: Wire, id: nat, n: nat)
    requires Inv(s) && Counted(s, id, n) && id < |s.store.outbox|
    ensures Counted(Next(s, ExchangeStep(wire)), id, n + (if Hands(s, ExchangeStep(wire), id) then 1 else 0))
  {
    var s' := Next(s, ExchangeStep(wire));
    if s.drain.Draining? && s.drain.reply.None? {
      assert ClaimedCopy(s.store.outbox, s.drain.queue[0]);
      if s.drain.queue[0].id == id { assert AtPosition(s.drain, 0, id); }
      forall p: nat | AtPosition(s'.drain, p, id) ensures AtPosition(s.drain, p, id) { }
    }
  }

  lemma CancelCounts(s: System, cancelled: RequestId, id: nat, n: nat)
    requires Inv(s) && Counted(s, id, n) && id < |s.store.outbox|
    ensures Counted(Next(s, CancelStep(cancelled)), id, n)
  {
    RowAttempts(s, id);
    StepMovesMessage(s, CancelStep(cancelled), id);
    assert Next(s, CancelStep(cancelled)).drain == s.drain;
  }

  lemma NewcomerCounts(s: System, step: Step, id: nat)
    requires Inv(s) && id >= |s.store.outbox|
    ensures Counted(Next(s, step), id, 0) && !Hands(s, step, id)
  {
    if s.drain.Draining? { assert ClaimedCopy(s.store.outbox, s.drain.queue[0]); }
    if id < |Next(s, step).store.outbox| { NewMessagesArePending(s, step, id); }
  }

  lemma StepCounts(s: System, step: Step, id: nat, n: nat)
    requires Inv(s) && Counted(s, id, n)
    ensures Counted(Next(s, step), id, n + (if Hands(s, step, id) then 1 else 0))
  {
    if id >= |s.store.outbox| {
      NewcomerCounts(s, step, id);
    } else {
      match step
      case ClaimStep(now) => ClaimCounts(s, now, id, n);
      case ExchangeStep(wire) => ExchangeCounts(s, wire, id, n);
      case CancelStep(cancelled) => CancelCounts(s, cancelled, id, n);
      case SettleStep(now) =>
        if Settleable(s) {
          SettleMovesMessage(s, now, id);
          SettleCounts(s, DoSettle(s, now), now, id, n);
        } else {
          assert Next(s, step) == s;
        }
      case _ =>
        StepMovesMessage(s, step, id);
        assert Next(s, step).drain == s.drain || Next(s, step).drain == Idle;
    }
  }

  lemma {:induction false} EveryRunCounts(steps: seq<Step>, id: nat)
    ensures Inv(Run(INITIAL, steps)) && Counted(Run(INITIAL, steps), id, Handed(steps, id))
  {
    EveryRunAgrees(steps);
    if steps == [] {
    } else {
      var front := steps[..|steps| - 1];
      EveryRunCounts(front, id);
      StepCounts(Run(INITIAL, front), steps[|steps| - 1], id, Handed(front, id));
    }
  }

  /**
   * Bounded delivery. Over any run a message is handed to HCM at most five times; while it
   * waits for a retry it has failed between one and four times and been handed over just as often,
   * and it was never handed over while pending.
   */
  lemma HandedAtMostFiveTimes(steps: seq<Step>, id: nat)
    ensures Handed(steps, id) <= 5
    ensures var outbox := Run(INITIAL, steps).store.outbox;
      id < |outbox| ==>
        && (outbox[id].status.Pending? ==> Handed(steps, id) == 0)
        && (outbox[id].status.Retrying? ==> 1 <= outbox[id].attempts == Handed(steps, id) <= 4)
  {
    EveryRunCounts(steps, id);
    if id < |Run(INITIAL, steps).store.outbox| { RowAttempts(Run(INITIAL, steps), id); }
  }
}
