/** No double spend: what can drive an available balance below zero, and what cannot. */
module Spending {
  import opened Domain
  import opened BalanceMath
  import opened Balances
  import opened TimeOff
  import opened Protocol
  import opened Views
  import opened DeliverySteps
  import opened Invariant
  import opened Accounting

  /** What a submit read is still there, up to the orphan debits acknowledged since. */
  ghost predicate SessionBacked(s: System, k: Key)
    requires k in s.sessions
  {
    && s.sessions[k].orphaned >= 0
    && Available(s.store, k) >= ComputeAvailable(s.sessions[k].read) - s.sessions[k].orphaned
  }

  ghost predicate Backed(s: System) {
    forall k :: k in s.sessions ==> SessionBacked(s, k)
  }

  /** An orphan acknowledgement being settled on `k`. */
  ghost predicate SettlesOrphan(s: System, step: Step, k: Key) {
    step.SettleStep? && Settleable(s) && s.drain.queue[0].key == k
    && IsOrphanAck(s.store, s.drain.queue[0], s.drain.reply.value)
  }

  /** Only an orphan acknowledgement, a reservation or a snapshot can lower an available balance. */
  lemma OnlyTheseLower(s: System, step: Step, k: Key)
    requires Inv(s)
    ensures AvailableDelta(s, step, k) >= 0 || step.SubmitEnd? || step.ReconcileStep? || step.LoadStep?
      || SettlesOrphan(s, step, k)
  {
    match step
    case SettleStep(_) =>
      if Settleable(s) {
        var p := HeadInView(s);
        HeldOf(s, s.drain.queue[0].requestId);
      }
    case RejectStep(id) => if RejectRequest(s.store, id).Ok? { assert Shape(ViewOf(s, id)); }
    case CancelStep(id) => if CancelRequest(s.store, id).Ok? { assert Shape(ViewOf(s, id)); }
    case _ =>
  }

  lemma SettleSessions(s: System, now: int)
    ensures Next(s, SettleStep(now)).sessions ==
      if Settleable(s) && IsOrphanAck(s.store, s.drain.queue[0], s.drain.reply.value) then
        ChargeSession(s.sessions, s.drain.queue[0].key, s.drain.queue[0].amount)
      else s.sessions
  {
  }

  /** What a settled delivery costs a key: the amount of an orphan debit, or nothing. */
  lemma OrphanCost(s: System, now: int, k: Key)
    requires Inv(s) && Settleable(s)
    ensures AvailableDelta(s, SettleStep(now), k) >=
      if SettlesOrphan(s, SettleStep(now), k) then -s.drain.queue[0].amount else 0
    ensures s.drain.queue[0].amount > 0
  {
    var p := HeadInView(s);
    OnlyTheseLower(s, SettleStep(now), k);
  }

  /** A session that outlives a step: what it read stays, and a lowered balance is charged to it. */
  ghost predicate Charged(s: System, s': System, k: Key, delta: int)
    requires k in s.sessions && k in s'.sessions
  {
    && s'.sessions[k].read == s.sessions[k].read
    && s'.sessions[k].orphaned >= s.sessions[k].orphaned
    && delta + s'.sessions[k].orphaned >= s.sessions[k].orphaned
  }

  lemma OrphanIsCharged(s: System, now: int, k: Key)
    requires Inv(s) && k in s.sessions
    ensures Next(s, SettleStep(now)).sessions.Keys == s.sessions.Keys
    ensures Charged(s, Next(s, SettleStep(now)), k, AvailableDelta(s, SettleStep(now), k))
  {
    SettleSessions(s, now);
    if Settleable(s) { OrphanCost(s, now, k); } else { assert Next(s, SettleStep(now)) == s; }
  }

  lemma SessionCharged(s: System, step: Step, k: Key)
    requires Inv(s) && k in s.sessions && k in Next(s, step).sessions
    ensures Charged(s, Next(s, step), k, AvailableDelta(s, step, k))
  {
    OnlyTheseLower(s, step, k);
    match step
    case SettleStep(now) => OrphanIsCharged(s, now, k);
    case SubmitBegin(id) =>
    case SubmitEnd(key) =>
    case ReconcileStep(key, version) =>
    case LoadStep(key, version) =>
    case _ => assert Next(s, step).sessions == s.sessions;
  }

  lemma SessionOpened(s: System, step: Step, k: Key)
    requires k !in s.sessions && k in Next(s, step).sessions
    ensures Next(s, step).store == s.store
    ensures Next(s, step).sessions[k].orphaned == 0 && Next(s, step).sessions[k].read == Components(s.store, k)
  {
  }

  lemma SessionStaysBacked(s: System, step: Step, k: Key)
    requires Inv(s) && Backed(s) && k in Next(s, step).sessions
    ensures SessionBacked(Next(s, step), k)
  {
    if k in s.sessions {
      assert SessionBacked(s, k);
      SessionCharged(s, step, k);
      EveryStepMovesExactly(s, step, k);
    } else {
      SessionOpened(s, step, k);
    }
  }

  lemma NextStaysBacked(s: System, step: Step)
    requires Inv(s) && Backed(s)
    ensures Backed(Next(s, step))
  {
    forall k | k in Next(s, step).sessions ensures SessionBacked(Next(s, step), k) { SessionStaysBacked(s, step, k); }
  }

  lemma {:induction false} EveryRunIsBacked(steps: seq<Step>)
    ensures Inv(Run(INITIAL, steps)) && Backed(Run(INITIAL, steps))
  {
    EveryRunAgrees(steps);
    if steps == [] {
    } else {
      var front := steps[..|steps| - 1];
      EveryRunIsBacked(front);
      NextStaysBacked(Run(INITIAL, front), steps[|steps| - 1]);
    }
  }

  /**
   * Check-then-reserve is sound although anything may happen between the check's read and the
   * insert: a granted reservation over-allocates by no more than the orphan debits acknowledged
   * in between, so not at all when there were none.
   */
  lemma CheckThenReserveIsSound(steps: seq<Step>, k: Key)
    requires k in Run(INITIAL, steps).sessions
    ensures var s := Run(INITIAL, steps);
      var s' := Next(s, SubmitEnd(k));
      s'.store != s.store ==> Available(s'.store, k) >= -s.sessions[k].orphaned
  {
    var s := Run(INITIAL, steps);
    EveryRunIsBacked(steps);
    EveryStepMovesExactly(s, SubmitEnd(k), k);
    assert SessionBacked(s, k);
  }

  /**
   * No double spend. If a step takes an available balance from non-negative to negative, it swapped
   * in a snapshot, loaded the first one, or acknowledged a debit whose request was already
   * cancelled; a reservation does so only if such an acknowledgement fell into its critical section.
   */
  lemma NoDoubleSpend(steps: seq<Step>, step: Step, k: Key)
    ensures var s := Run(INITIAL, steps);
      Available(s.store, k) >= 0 && Available(Next(s, step).store, k) < 0 ==>
        || (step.ReconcileStep? && step.key == k && step.version > CachedBalance(s.store, k).lastReconciledVersion)
        || (step.LoadStep? && step.key == k && k !in s.store.balances)
        || SettlesOrphan(s, step, k)
        || (step.SubmitEnd? && step.key == k && k in s.sessions && s.sessions[k].orphaned > 0)
  {
    var s := Run(INITIAL, steps);
    EveryRunIsBacked(steps);
    EveryStepMovesExactly(s, step, k);
    OnlyTheseLower(s, step, k);
    if step.SubmitEnd? && k in s.sessions { assert SessionBacked(s, k); }
  }

  lemma ReservedAvailable(st: Store, id: RequestId, r: Request, read: BalanceComponents)
    requires id < |st.requests| && CanReserve(read, r.days)
    ensures CheckAndReserve(st, id, r, read).Ok?
    ensures Available(CheckAndReserve(st, id, r, read).value, r.key) == Available(st, r.key) - r.days
  {
    ReservingCosts(st, id, r.key, r.days, r.key);
    assert Components(CheckAndReserve(st, id, r, read).value, r.key)
        == Components(AddReservation(st, id, r.key, r.days), r.key);
  }

  /**
   * Without the lock any two drafts of a key that each fit are both granted once both have read,
   * and over-allocate the key exactly when together they exceed what was available.
   */
  lemma LockIsNeeded(st: Store, i: RequestId, j: RequestId)
    requires i < |st.requests| && j < |st.requests| && i != j && st.requests[i].key == st.requests[j].key
    requires st.requests[i].status.Draft? && st.requests[j].status.Draft?
    requires CanReserve(Components(st, st.requests[i].key), st.requests[i].days)
    requires CanReserve(Components(st, st.requests[i].key), st.requests[j].days)
    ensures var a, b := st.requests[i], st.requests[j];
      var read := Components(st, a.key);
      var first := CheckAndReserve(st, i, a, read);
      && first.Ok?
      && var second := CheckAndReserve(first.value, j, b, read);
         && second.Ok? && second.value.requests[i].status.PendingApproval?
         && second.value.requests[j].status.PendingApproval?
         && (Available(second.value, a.key) < 0 <==> a.days + b.days > Available(st, a.key))
  {
    var a, b := st.requests[i], st.requests[j];
    var read := Components(st, a.key);
    ReservedAvailable(st, i, a, read);
    ReservedAvailable(CheckAndReserve(st, i, a, read).value, j, b, read);
  }
}
