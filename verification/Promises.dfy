/**
 * Over whole runs: HCM's balance covers every promised day it has not been told of, up to debits
 * that were never refunded and losses from outside.
 */
module Promises {
  import opened Domain
  import opened Tables
  import opened Balances
  import opened Sync
  import opened HcmCore
  import opened OutboxProcessor
  import opened Protocol
  import opened Views
  import opened StoreSteps
  import opened DeliverySteps
  import opened Accounting
  import opened Spending
  import opened Coverage
  import opened Deliverability

  // ---- Orphans since a submit's read ---------------------------------------

  /** Request `i` is as it was, and holds `extra` more days. */
  ghost predicate KeepsAndHolds(st: Store, st': Store, i: RequestId, extra: int) {
    && i < |st.requests| && i < |st'.requests| && st'.requests[i] == st.requests[i]
    && HeldDays(st', i) == HeldDays(st, i) + extra
  }

  lemma RequestSettles(st: Store, st': Store, m: Message, reply: Reply, now: int, i: RequestId)
    requires Settled(st, st', m, reply, now) && i < |st.requests| && st.requests[i].status.Cancelled?
    ensures i < |st'.requests| && st'.requests[i] == st.requests[i]
  {
  }

  lemma OrphanSettles(s: System, s': System, now: int, i: RequestId)
    requires Inv(s) && Settleable(s) && i < |s.store.requests| && s.store.requests[i].status.Cancelled?
    requires Settled(s.store, s'.store, s.drain.queue[0], s.drain.reply.value, now)
    ensures var m := s.drain.queue[0];
      KeepsAndHolds(s.store, s'.store, i,
                    if IsOrphanAck(s.store, m, s.drain.reply.value) && m.requestId == i then m.amount else 0)
  {
    var m, reply := s.drain.queue[0], s.drain.reply.value;
    RequestSettles(s.store, s'.store, m, reply, now, i);
    SettledTouches(s, s', m, reply, now);
    if m.requestId == i {
      SettledHeld(s, s'.store, now);
      var p := HeadInView(s);
    } else {
      assert Rows(s'.store, i) == Rows(s.store, i);
    }
  }

  /** A snapshot for another key leaves the rows of a request alone. */
  lemma RowsElsewhere(s: System, key: Key, version: nat, i: RequestId)
    requires Inv(s) && i < |s.store.requests| && s.store.requests[i].key != key
    ensures Update(Rows(s.store, i), Absorb(key, version)) == Rows(s.store, i)
  {
    forall row | row in Rows(s.store, i) ensures row.key != key {
      var j :| 0 <= j < |s.store.ledger| && s.store.ledger[j] == row;
      RowMatchesRequest(s, j);
    }
    UpdateIdentity(Rows(s.store, i), Absorb(key, version));
  }

  lemma OrphanAbsorbs(s: System, key: Key, version: nat, k: Key, i: RequestId)
    requires Inv(s) && k in s.sessions && i < |s.store.requests| && s.store.requests[i].key == k
    ensures KeepsAndHolds(s.store, Next(s, ReconcileStep(key, version)).store, i, 0)
  {
    if Absorbs(s, key, version) {
      AbsorbResult(s, key, version);
      RowsAbsorbed(s.store, key, version, i);
      RowsElsewhere(s, key, version, i);
      assert Rows(Next(s, ReconcileStep(key, version)).store, i) == Rows(s.store, i);
    } else {
      StaleChangesNothing(s, key, version);
    }
  }

  /** Same request, same rows. */
  lemma SameRowsHoldTheSame(st: Store, st': Store, i: RequestId)
    requires i < |st.requests| && i < |st'.requests| && st'.requests[i] == st.requests[i] && Rows(st', i) == Rows(st, i)
    ensures KeepsAndHolds(st, st', i, 0)
  {
  }

  lemma OrphanSeesReserve(s: System, key: Key, i: RequestId)
    requires Inv(s) && i < |s.store.requests| && !Revives(s, SubmitEnd(key), i)
    ensures KeepsAndHolds(s.store, Next(s, SubmitEnd(key)).store, i, 0)
  {
    var st' := Next(s, SubmitEnd(key)).store;
    if st' != s.store {
      var copy := s.sessions[key].copy;
      assert SessionOk(s.store, key, copy);
      var row := ReservationRow(|s.store.ledger|, copy.id, copy.key, copy.days);
      assert st'.ledger == s.store.ledger + [row] && copy.id != i;
      SelectAppend(s.store.ledger, row, OfRequest(i));
      SameRowsHoldTheSame(s.store, st', i);
    }
  }

  lemma OrphanSeesRelease(s: System, step: Step, i: RequestId)
    requires Inv(s) && i < |s.store.requests| && s.store.requests[i].status.Cancelled?
    requires step.RejectStep? || step.CancelStep?
    ensures KeepsAndHolds(s.store, Next(s, step).store, i, 0)
  {
    var st' := Next(s, step).store;
    if st' != s.store {
      if step.RejectStep? { RejectTouches(s, step.id); } else { CancelTouches(s, step.id); }
      assert step.id != i && st'.requests[i] == s.store.requests[i];
      assert Rows(st', i) == Rows(s.store, i);
      SameRowsHoldTheSame(s.store, st', i);
    }
  }

  /** What settling a step's delivery adds to the orphans of `k`. */
  ghost function OrphanAmount(s: System, step: Step, k: Key): int {
    if SettlesOrphan(s, step, k) then s.drain.queue[0].amount else 0
  }

  ghost function OrphanPart(s: System, step: Step, k: Key, i: RequestId): int {
    if SettlesOrphan(s, step, k) && s.drain.queue[0].requestId == i then s.drain.queue[0].amount else 0
  }

  lemma OrphanAtSettle(s: System, now: int, k: Key, i: RequestId)
    requires Inv(s) && i < |s.store.requests|
    requires s.store.requests[i].key == k && s.store.requests[i].status.Cancelled?
    ensures KeepsAndHolds(s.store, Next(s, SettleStep(now)).store, i, OrphanPart(s, SettleStep(now), k, i))
  {
    if Settleable(s) {
      SettleIsSettled(s, now);
      OrphanSettles(s, DoSettle(s, now), now, i);
      var p := HeadInView(s);
    } else {
      assert Next(s, SettleStep(now)) == s;
    }
  }

  /** A cancelled request keeps what it holds while its key is locked; only an orphan debit adds to it. */
  lemma OrphanUntouched(s: System, step: Step, k: Key, i: RequestId)
    requires i < |s.store.requests| && s.store.requests[i].status.Cancelled?
    requires !step.SubmitEnd? && !step.RejectStep? && !step.CancelStep? && !step.SettleStep? && !step.ReconcileStep?
    ensures KeepsAndHolds(s.store, Next(s, step).store, i, OrphanPart(s, step, k, i))
  {
    LedgerUntouched(s, step);
  }

  lemma OrphanStays(s: System, step: Step, k: Key, i: RequestId)
    requires Inv(s) && k in s.sessions && i < |s.store.requests|
    requires s.store.requests[i].key == k && s.store.requests[i].status.Cancelled? && !Revives(s, step, i)
    ensures KeepsAndHolds(s.store, Next(s, step).store, i, OrphanPart(s, step, k, i))
  {
    hide Next;
    match step
    case SettleStep(now) => OrphanAtSettle(s, now, k, i);
    case ReconcileStep(key, version) => OrphanAbsorbs(s, key, version, k, i);
    case RejectStep(_) => OrphanSeesRelease(s, step, i);
    case CancelStep(_) => OrphanSeesRelease(s, step, i);
    case SubmitEnd(key) => OrphanSeesReserve(s, key, i);
    case _ => OrphanUntouched(s, step, k, i);
  }

  lemma OrphanIsHeld(s: System, k: Key, i: RequestId)
    requires Inv(s)
    ensures OrphanHeld(s, k)(i) >= 0
  {
    if i < |s.store.requests| { HeldOf(s, i); }
  }

  lemma RequestsStay(s: System, step: Step)
    requires Inv(s)
    ensures |s.store.requests| <= |Next(s, step).store.requests| <= |s.store.requests| + 1
  {
    match step
    case SettleStep(now) => if Settleable(s) { SettleIsSettled(s, now); }
    case _ =>
  }

  /** Summands raised pointwise, one of them by `extra`, with at most one new summand. */
  lemma SumRaised(n: nat, n': nat, f: nat -> int, g: nat -> int, at: nat, extra: int)
    requires n <= n' <= n + 1 && (at < n || extra == 0) && g(n) >= 0
    requires forall i: nat :: i < n ==> f(i) + (if i == at then extra else 0) <= g(i)
    ensures SumTo(n', g) >= SumTo(n, f) + extra
  {
    var fx := (i: nat) => if i == at then f(i) + extra else f(i);
    SumBelow(n, fx, g);
    if at < n { SumChange(n, f, fx, at); } else { SumSame(n, f, fx); }
  }

  lemma OrphanPosition(s: System, step: Step, k: Key) returns (at: nat)
    requires Inv(s)
    ensures at < |s.store.requests| || OrphanAmount(s, step, k) == 0
    ensures forall i: nat ::
      (if i == at then OrphanAmount(s, step, k) else 0) == OrphanPart(s, step, k, i)
  {
    if SettlesOrphan(s, step, k) {
      at := s.drain.queue[0].requestId;
    } else {
      at := 0;
    }
  }

  /** A request that a submit revives held nothing while it was cancelled. */
  lemma RevivedHeldNothing(s: System, step: Step, k: Key, i: RequestId)
    requires Inv(s) && i < |s.store.requests| && Revives(s, step, i)
    ensures OrphanHeld(s, k)(i) == 0
  {
    assert SessionOk(s.store, step.key, s.sessions[step.key].copy);
    NoRowsIsEmpty(s.store, i);
  }

  /** Only a cancelled request's debit settles as an orphan. */
  lemma NoOrphanPart(s: System, step: Step, k: Key, i: RequestId)
    requires Inv(s) && i < |s.store.requests|
    requires !(s.store.requests[i].key == k && s.store.requests[i].status.Cancelled?)
    ensures OrphanHeld(s, k)(i) == 0 && OrphanPart(s, step, k, i) == 0
  {
    if SettlesOrphan(s, step, k) { var p := HeadInView(s); }
  }

  lemma OrphanTerm(s: System, step: Step, k: Key, i: RequestId)
    requires Inv(s) && Inv(Next(s, step)) && k in s.sessions && i < |s.store.requests|
    ensures OrphanHeld(s, k)(i) + OrphanPart(s, step, k, i) <= OrphanHeld(Next(s, step), k)(i)
  {
    OrphanIsHeld(Next(s, step), k, i);
    if s.store.requests[i].key == k && s.store.requests[i].status.Cancelled? {
      if Revives(s, step, i) { RevivedHeldNothing(s, step, k, i); } else { OrphanStays(s, step, k, i); }
    } else {
      NoOrphanPart(s, step, k, i);
    }
  }

  /** While a key is locked its orphans' holds only grow, and grow with each orphan acknowledged. */
  lemma OrphansGrow(s: System, s': System, step: Step, k: Key)
    requires Inv(s) && k in s.sessions && s' == Next(s, step) && Inv(s')
    ensures SumTo(|s'.store.requests|, OrphanHeld(s', k)) >=
      SumTo(|s.store.requests|, OrphanHeld(s, k)) + OrphanAmount(s, step, k)
  {
    hide Next;
    var n, n', f, g := |s.store.requests|, |s'.store.requests|, OrphanHeld(s, k), OrphanHeld(s', k);
    var amount := OrphanAmount(s, step, k);
    RequestsStay(s, step);
    var at := OrphanPosition(s, step, k);
    forall i: nat | i < n ensures f(i) + (if i == at then amount else 0) <= g(i) { OrphanTerm(s, step, k, i); }
    OrphanIsHeld(s', k, n);
    SumRaised(n, n', f, g, at, amount);
  }

  /** The orphans acknowledged during a submit are still held when it ends. */
  ghost predicate OrphansAccounted(s: System) {
    forall k :: k in s.sessions ==> s.sessions[k].orphaned <= SumTo(|s.store.requests|, OrphanHeld(s, k))
  }

  lemma SessionCharge(s: System, step: Step, k: Key)
    requires k in s.sessions && k in Next(s, step).sessions
    ensures Next(s, step).sessions[k].orphaned == s.sessions[k].orphaned + OrphanAmount(s, step, k)
  {
  }

  lemma SessionAccounted(s: System, s': System, step: Step, k: Key)
    requires Inv(s) && OrphansAccounted(s) && s' == Next(s, step) && Inv(s') && k in s'.sessions
    ensures s'.sessions[k].orphaned <= SumTo(|s'.store.requests|, OrphanHeld(s', k))
  {
    if k in s.sessions {
      SessionCharge(s, step, k);
      OrphansGrow(s, s', step, k);
    } else {
      SessionOpened(s, step, k);
      forall i: nat | i < |s'.store.requests| ensures OrphanHeld(s', k)(i) >= 0 { OrphanIsHeld(s', k, i); }
      SumNonNegative(|s'.store.requests|, OrphanHeld(s', k));
    }
  }

  // ---- Solvency ------------------------------------------------------------

  /** What HCM's balance must still yield for a request. */
  function OwedFor(r: Request, h: Hcm): int {
    (if Waits(r, h) then r.days else 0) - (if NeverRefunded(r, h) then r.days else 0)
  }

  function Owed(requests: seq<Request>, h: Hcm, k: Key): nat -> int {
    (i: nat) => if i < |requests| && requests[i].key == k then OwedFor(requests[i], h) else 0
  }

  function OwedTotal(s: System, k: Key): int { SumTo(|s.store.requests|, Owed(s.store.requests, s.hcm, k)) }

  ghost predicate Solvent(s: System, k: Key) {
    CurrentBalance(s.hcm, k) + Loss(s.hcm, k, 0) >= OwedTotal(s, k)
  }

  lemma OwedIsPositive(s: System, i: RequestId)
    requires Inv(s) && i < |s.store.requests|
    ensures var r := s.store.requests[i];
      Waits(r, s.hcm) || NeverRefunded(r, s.hcm) ==> r.days > 0
  {
    assert Shape(ViewOf(s, i));
  }

  /** A request that makes no new promise: it waits only if it did, and a debit to be refunded stays one. */
  ghost predicate NoNewPromise(r: Request, r': Request, h: Hcm) {
    && r'.id == r.id && r'.key == r.key && r'.days == r.days
    && (Waits(r', h) ==> Waits(r, h)) && (NeverRefunded(r, h) ==> NeverRefunded(r', h))
  }

  ghost predicate NoNewPromises(s: System, s': System) {
    && |s.store.requests| <= |s'.store.requests| <= |s.store.requests| + 1
    && (forall i: nat :: i < |s.store.requests| ==> NoNewPromise(s.store.requests[i], s'.store.requests[i], s.hcm))
    && (forall i: nat :: |s.store.requests| <= i < |s'.store.requests| ==> s'.store.requests[i].status.Draft?)
  }

  lemma NoNewPromiseOwes(r: Request, r': Request, h: Hcm)
    requires NoNewPromise(r, r', h)
    requires Waits(r, h) || NeverRefunded(r', h) ==> r.days > 0
    ensures OwedFor(r', h) <= OwedFor(r, h)
  {
  }

  lemma NoNewPromisesOwes(s: System, s': System, k: Key)
    requires Inv(s) && Inv(s') && s'.hcm == s.hcm && NoNewPromises(s, s')
    ensures OwedTotal(s', k) <= OwedTotal(s, k)
  {
    var n, f, g := |s.store.requests|, Owed(s.store.requests, s.hcm, k), Owed(s'.store.requests, s.hcm, k);
    forall i: nat | i < n ensures g(i) <= f(i) {
      OwedIsPositive(s, i);
      OwedIsPositive(s', i);
      NoNewPromiseOwes(s.store.requests[i], s'.store.requests[i], s.hcm);
    }
    SumBelow(n, g, f);
    if |s'.store.requests| > n {
      assert s'.store.requests[n].status.Draft?;
      assert g(n) == 0;
    }
  }

  lemma SettlePromises(s: System, s': System, now: int)
    requires Inv(s) && Settleable(s)
    requires Settled(s.store, s'.store, s.drain.queue[0], s.drain.reply.value, now)
    ensures NoNewPromises(s, s')
  {
  }

  lemma SameRequestsPromiseNothing(s: System, s': System)
    requires s'.store.requests == s.store.requests
    ensures NoNewPromises(s, s')
  {
  }

  lemma LifecyclePromises(s: System, step: Step)
    requires step.ApproveStep? || step.RejectStep? || step.CancelStep?
    ensures NoNewPromises(s, Next(s, step))
  {
  }

  lemma StepPromises(s: System, step: Step)
    requires Inv(s) && !step.SubmitEnd? && !step.ExchangeStep? && !step.HcmStep?
    ensures Next(s, step).hcm == s.hcm && NoNewPromises(s, Next(s, step))
  {
    match step
    case SettleStep(now) =>
      if Settleable(s) {
        SettleIsSettled(s, now);
        SettlePromises(s, DoSettle(s, now), now);
      } else {
        SameRequestsPromiseNothing(s, Next(s, step));
      }
    case CreateStep(_, _) =>
    case ApproveStep(_) => LifecyclePromises(s, step);
    case RejectStep(_) => LifecyclePromises(s, step);
    case CancelStep(_) => LifecyclePromises(s, step);
    case SubmitEnd(_) =>
    case ExchangeStep(_) =>
    case HcmStep(_) =>
    case _ => SameRequestsPromiseNothing(s, Next(s, step));
  }

  // ---- HCM moves -----------------------------------------------------------

  /** The head's acknowledgement, when new, moves HCM's balance by no less than it settles of what is owed. */
  lemma AnsweredOwes(r: Request, m: Message, h: Hcm, h': Hcm, moved: int)
    requires m.requestId == r.id && m.amount == r.days
    requires m.idempotencyKey == (if m.direction.Debit? then DebitOf(r.id) else CreditOf(r.id))
    requires m.idempotencyKey !in h.applied && m.idempotencyKey in h'.applied
    requires forall id :: id != m.idempotencyKey ==> AckOf(h', id) == AckOf(h, id)
    requires moved == if h'.applied[m.idempotencyKey].applied then Signed(CommandOf(m)) else 0
    requires r.days > 0
    requires m.direction.Debit? ==> (r.status.Approved? || r.status.Cancelled?) && CreditOf(r.id) !in h.applied
    requires m.direction.Credit? ==> r.status.CancellationPending? && DebitOf(r.id) in h.applied
    ensures OwedFor(r, h') <= OwedFor(r, h) + moved
  {
    assert AckOf(h', DebitOf(r.id)).Some? <==> DebitOf(r.id) in h'.applied;
    assert AckOf(h, DebitOf(r.id)).Some? <==> DebitOf(r.id) in h.applied;
  }

  lemma OwedUnmoved(r: Request, h: Hcm, h': Hcm)
    requires AckOf(h', DebitOf(r.id)) == AckOf(h, DebitOf(r.id))
    requires AckOf(h', CreditOf(r.id)) == AckOf(h, CreditOf(r.id))
    ensures OwedFor(r, h') == OwedFor(r, h)
  {
  }

  /** The request of the message at the head, in the only states in which a message is in flight. */
  lemma HeadRequest(s: System)
    requires Inv(s) && s.drain.Draining?
    ensures var m := s.drain.queue[0];
      && m.requestId < |s.store.requests|
      && var r := s.store.requests[m.requestId];
         && r.id == m.requestId && m.amount == r.days > 0 && m.key == r.key
         && m.idempotencyKey == (if m.direction.Debit? then DebitOf(r.id) else CreditOf(r.id))
         && (m.direction.Debit? ==> (r.status.Approved? || r.status.Cancelled?) && CreditOf(r.id) !in s.hcm.applied)
         && (m.direction.Credit? ==> r.status.CancellationPending? && DebitOf(r.id) in s.hcm.applied)
  {
    var p := HeadInView(s);
  }

  /** One exchange: what HCM newly acknowledges, how far its balance moves, and that nothing is lost. */
  lemma ExchangeMoves(s: System, h': Hcm, wire: Wire, k: Key)
    requires Inv(s) && s.drain.Draining? && h' == Exchange(s.hcm, CommandOf(s.drain.queue[0]), wire).0
    ensures var m := s.drain.queue[0];
      && (forall id :: id != m.idempotencyKey || id in s.hcm.applied || id !in h'.applied ==>
            AckOf(h', id) == AckOf(s.hcm, id))
      && CurrentBalance(h', k) == CurrentBalance(s.hcm, k) +
           (if k == m.key && m.idempotencyKey !in s.hcm.applied && m.idempotencyKey in h'.applied
               && h'.applied[m.idempotencyKey].applied
            then Signed(CommandOf(m)) else 0)
      && Loss(h', k, 0) >= Loss(s.hcm, k, 0)
  {
    var m := s.drain.queue[0];
    ExchangeAnswers(s, wire);
    ApplyDeltaKeeps(s.hcm, CommandOf(m));
    ApplyDeltaMoves(s.hcm, CommandOf(m));
    LossSplits(s.hcm, h', k, 0);
    LossBounds(h', k, Version(s.hcm, k));
  }

  lemma ExchangeOwes(s: System, h': Hcm, wire: Wire, k: Key)
    requires Inv(s) && s.drain.Draining? && h' == Exchange(s.hcm, CommandOf(s.drain.queue[0]), wire).0
    requires Solvent(s, k)
    ensures Solvent(s.(hcm := h'), k)
  {
    var m, n, r := s.drain.queue[0], |s.store.requests|, s.store.requests;
    var f, g := Owed(r, s.hcm, k), Owed(r, h', k);
    HeadRequest(s);
    ExchangeMoves(s, h', wire, k);
    forall i: nat | i < n && i != m.requestId ensures f(i) == g(i) { OwedUnmoved(r[i], s.hcm, h'); }
    SumChange(n, f, g, m.requestId);
    var at := r[m.requestId];
    if m.idempotencyKey !in s.hcm.applied && m.idempotencyKey in h'.applied {
      AnsweredOwes(at, m, s.hcm, h', if h'.applied[m.idempotencyKey].applied then Signed(CommandOf(m)) else 0);
    } else {
      OwedUnmoved(at, s.hcm, h');
    }
  }

  /** Whatever others do at HCM, the entries it adds are theirs. */
  lemma ForeignEntries(h: Hcm, h': Hcm, k: Key, v: nat)
    requires HcmOk(h) && HcmOk(h') && Continues(h, h') && Version(h, k) <= v < Version(h', k)
    requires forall id: IdempotencyKey :: !id.Foreign? ==> AckOf(h', id) == AckOf(h, id)
    ensures IsForeignMove()(Log(h', k)[v].cause)
  {
    var cause := Log(h', k)[v].cause;
    assert EntryOwned(h', k, v);
    if cause.Applied? && !cause.idempotencyKey.Foreign? {
      var id := cause.idempotencyKey;
      assert AckOf(h', id) == AckOf(h, id);
      assert AckTruthful(h, id);
    }
  }

  lemma ForeignOwes(s: System, call: Call, k: Key)
    requires Inv(s) && IsForeign(call) && Solvent(s, k)
    ensures Solvent(s.(hcm := Perform(s.hcm, call)), k)
  {
    var h, h' := s.hcm, Perform(s.hcm, call);
    ForeignCall(h, call);
    forall v: nat | Version(h, k) <= v < Version(h', k) ensures IsForeignMove()(Log(h', k)[v].cause) {
      ForeignEntries(h, h', k, v);
    }
    assert Log(h, k) <= Log(h', k);
    ForeignMovesOnly(h', k, Version(h, k));
    ContinuesBalanceAt(h, h', k, Version(h, k));
    LossSplits(h, h', k, 0);
    var f, g := Owed(s.store.requests, h, k), Owed(s.store.requests, h', k);
    forall i: nat | i < |s.store.requests| ensures f(i) == g(i) { OwedUnmoved(s.store.requests[i], h, h'); }
    SumSame(|s.store.requests|, f, g);
  }

  // ---- Submitting ----------------------------------------------------------

  lemma OwedByPart(s: System, k: Key)
    ensures var n, r := |s.store.requests|, s.store.requests;
      SumTo(n, WaitingDays(r, s.hcm, k)) == OwedTotal(s, k) + SumTo(n, UnrefundedDays(r, s.hcm, k))
  {
    SumPlus(|s.store.requests|, Owed(s.store.requests, s.hcm, k), UnrefundedDays(s.store.requests, s.hcm, k),
            WaitingDays(s.store.requests, s.hcm, k));
  }

  /** A granted submit is covered: what was available, less the orphans since, pays for it. */
  lemma SubmitOwes(s: System, s': System, key: Key)
    requires Inv(s) && Backed(s) && OrphansAccounted(s) && s' == Next(s, SubmitEnd(key)) && Inv(s')
    requires key in s.sessions && s'.store != s.store
    ensures Solvent(s', key)
  {
    assert SessionBacked(s, key);
    EveryStepMovesExactly(s, SubmitEnd(key), key);
    OrphansGrow(s, s', SubmitEnd(key), key);
    BalanceCovers(s', key);
    OwedByPart(s', key);
  }

  lemma SubmitElsewhereOwes(s: System, s': System, key: Key, k: Key)
    requires Inv(s) && s' == Next(s, SubmitEnd(key)) && Inv(s') && Solvent(s, k)
    requires k != key || s'.store == s.store
    ensures Solvent(s', k)
  {
    if s'.store != s.store {
      var copy := s.sessions[key].copy;
      assert SessionOk(s.store, key, copy);
      assert s'.store.requests == s.store.requests[copy.id := copy.(status := PendingApproval)];
    }
    SumSame(|s.store.requests|, Owed(s.store.requests, s.hcm, k), Owed(s'.store.requests, s'.hcm, k));
  }

  // ---- Every run -----------------------------------------------------------

  lemma SolventAtSubmitEnd(s: System, s': System, key: Key, k: Key)
    requires Inv(s) && Backed(s) && OrphansAccounted(s) && s' == Next(s, SubmitEnd(key)) && Inv(s') && Solvent(s, k)
    ensures Solvent(s', k)
  {
    if key == k && key in s.sessions && s'.store != s.store {
      SubmitOwes(s, s', key);
    } else {
      SubmitElsewhereOwes(s, s', key, k);
    }
  }

  lemma SolventAtExchange(s: System, s': System, wire: Wire, k: Key)
    requires Inv(s) && s' == Next(s, ExchangeStep(wire)) && Solvent(s, k)
    ensures Solvent(s', k)
  {
    if s.drain.Draining? && s.drain.reply.None? { ExchangeOwes(s, s'.hcm, wire, k); }
  }

  lemma StaysSolvent(s: System, s': System, step: Step, k: Key)
    requires Inv(s) && Backed(s) && OrphansAccounted(s) && s' == Next(s, step) && Inv(s') && Solvent(s, k)
    ensures Solvent(s', k)
  {
    match step
    case SubmitEnd(key) => SolventAtSubmitEnd(s, s', key, k);
    case ExchangeStep(wire) => SolventAtExchange(s, s', wire, k);
    case HcmStep(call) => if IsForeign(call) { ForeignOwes(s, call, k); }
    case _ =>
      StepPromises(s, step);
      NoNewPromisesOwes(s, s', k);
  }

  lemma {:induction false} EveryRunIsSolvent(steps: seq<Step>, k: Key)
    ensures var s := Run(INITIAL, steps);
      Inv(s) && Backed(s) && OrphansAccounted(s) && Solvent(s, k)
  {
    EveryRunIsBacked(steps);
    if steps == [] {
    } else {
      var front, step := steps[..|steps| - 1], steps[|steps| - 1];
      var s, s' := Run(INITIAL, front), Run(INITIAL, steps);
      EveryRunIsSolvent(front, k);
      StaysSolvent(s, s', step, k);
      forall key | key in s'.sessions
        ensures s'.sessions[key].orphaned <= SumTo(|s'.store.requests|, OrphanHeld(s', key))
      {
        SessionAccounted(s, s', step, key);
      }
    }
  }

  /**
   * Promises are covered. In every state of every run HCM's own balance covers all the days
   * promised to employees that HCM has not been told of, but for the debits of cancelled requests
   * that were never refunded and for what others took from the balance at HCM.
   */
  lemma PromisesAreCovered(steps: seq<Step>, k: Key)
    ensures var s := Run(INITIAL, steps);
      var n, r := |s.store.requests|, s.store.requests;
      CurrentBalance(s.hcm, k) + SumTo(n, UnrefundedDays(r, s.hcm, k)) + Loss(s.hcm, k, 0)
        >= SumTo(n, WaitingDays(r, s.hcm, k))
  {
    EveryRunIsSolvent(steps, k);
    OwedByPart(Run(INITIAL, steps), k);
  }

  /**
   * So an approved debit is never refused for lack of funds, unless someone else took from the
   * balance or a cancelled request of the key was debited and not refunded.
   */
  lemma ApprovedDebitsAreNotRefused(steps: seq<Step>, i: RequestId)
    requires i < |Run(INITIAL, steps).store.requests| && Run(INITIAL, steps).store.requests[i].status.Approved?
    ensures var s := Run(INITIAL, steps);
      var r := s.store.requests[i];
      ApplyDelta(s.hcm, ServiceCommand(r, Debit)).1 == Refused(InsufficientFunds) ==>
        Loss(s.hcm, r.key, 0) + SumTo(|s.store.requests|, UnrefundedDays(s.store.requests, s.hcm, r.key)) > 0
  {
    var s := Run(INITIAL, steps);
    var n, r := |s.store.requests|, s.store.requests[i];
    EveryRunIsSolvent(steps, r.key);
    PromisesAreCovered(steps, r.key);
    ApplyDeltaMoves(s.hcm, ServiceCommand(r, Debit));
    if DebitOf(i) !in s.hcm.applied {
      var one := (j: nat) => if j == i then r.days else 0;
      var zero := (j: nat) => 0;
      forall j: nat | j < n ensures one(j) <= WaitingDays(s.store.requests, s.hcm, r.key)(j) { OwedIsPositive(s, j); }
      SumBelow(n, one, WaitingDays(s.store.requests, s.hcm, r.key));
      SumZero(n, zero);
      SumChange(n, zero, one, i);
    }
  }
}
