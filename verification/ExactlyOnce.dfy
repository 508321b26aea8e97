/** Across both systems, each request's debit and credit move HCM's balance at most once. */
module ExactlyOnce {
  import opened Domain
  import opened Tables
  import opened HcmCore
  import opened OutboxProcessor
  import opened Protocol
  import opened Views
  import opened DeliverySteps
  import opened Invariant

  function ClaimedBy(id: IdempotencyKey): Entry -> bool { (e: Entry) => e.cause == Applied(id) }

  /** How many writes in the history of `k` an idempotency key claims. */
  function Writes(h: Hcm, k: Key, id: IdempotencyKey): nat { |Select(Log(h, k), ClaimedBy(id))| }

  /** The writes of a key are one or none, and its acknowledgement says which. */
  lemma WritesAreAcknowledged(h: Hcm, k: Key, id: IdempotencyKey)
    requires HcmOk(h)
    ensures Writes(h, k, id) ==
      if id in h.applied && h.applied[id].applied && h.commands[id].key == k then 1 else 0
  {
    forall v: nat | v < Version(h, k) && Log(h, k)[v].cause == Applied(id)
      ensures id in h.applied && h.applied[id].applied && h.commands[id].key == k && v == h.applied[id].version - 1
    {
      assert EntryOwned(h, k, v);
    }
    if id in h.applied && h.applied[id].applied && h.commands[id].key == k {
      assert AckTruthful(h, id);
      SelectOnly(Log(h, k), ClaimedBy(id), h.applied[id].version - 1);
    } else {
      SelectNone(Log(h, k), ClaimedBy(id));
    }
  }

  predicate IsWritten(ack: Option<Ack>) { ack.Some? && ack.value.applied }

  /** What the debit and credit of request `i` did to its key's balance above version `w`. */
  function Net(s: System, i: RequestId, w: nat): int
    requires i < |s.store.requests|
  {
    var d, c := AckOf(s.hcm, DebitOf(i)), AckOf(s.hcm, CreditOf(i));
    (if IsWritten(d) && d.value.version > w then -s.store.requests[i].days else 0)
    + (if IsWritten(c) && c.value.version > w then s.store.requests[i].days else 0)
  }

  function CausedBy(i: RequestId): Cause -> bool {
    (c: Cause) => c == Applied(DebitOf(i)) || c == Applied(CreditOf(i))
  }

  /** One entry's contribution: it belongs to `i` just when an acknowledgement of `i` names its version. */
  lemma EntryOfRequest(s: System, i: RequestId, w: nat)
    requires Inv(s) && i < |s.store.requests| && w < Version(s.hcm, s.store.requests[i].key)
    ensures var k := s.store.requests[i].key;
      Net(s, i, w) - Net(s, i, w + 1) ==
        if CausedBy(i)(Log(s.hcm, k)[w].cause) then BalanceAt(s.hcm, k, w + 1) - BalanceAt(s.hcm, k, w) else 0
  {
    var h, k := s.hcm, s.store.requests[i].key;
    assert EntryOwned(h, k, w);
    if DebitOf(i) in h.applied {
      assert AckTruthful(h, DebitOf(i));
      assert h.commands[DebitOf(i)] == ServiceCommand(s.store.requests[i], Debit);
    }
    if CreditOf(i) in h.applied {
      assert AckTruthful(h, CreditOf(i));
      assert h.commands[CreditOf(i)] == ServiceCommand(s.store.requests[i], Credit);
    }
  }

  lemma NothingAboveNow(s: System, i: RequestId)
    requires Inv(s) && i < |s.store.requests|
    ensures Net(s, i, Version(s.hcm, s.store.requests[i].key)) == 0
  {
    if DebitOf(i) in s.hcm.applied { assert AckTruthful(s.hcm, DebitOf(i)); }
    if CreditOf(i) in s.hcm.applied { assert AckTruthful(s.hcm, CreditOf(i)); }
  }

  /** Everything a request ever did at HCM, read off HCM's history, is what was acknowledged for it. */
  lemma {:induction false} RequestMoves(s: System, i: RequestId, w: nat)
    requires Inv(s) && i < |s.store.requests| && w <= Version(s.hcm, s.store.requests[i].key)
    ensures Moves(s.hcm, s.store.requests[i].key, w, CausedBy(i)) == Net(s, i, w)
    decreases Version(s.hcm, s.store.requests[i].key) - w
  {
    if w == Version(s.hcm, s.store.requests[i].key) {
      NothingAboveNow(s, i);
    } else {
      RequestMoves(s, i, w + 1);
      EntryOfRequest(s, i, w);
    }
  }

  /** What HCM has been told of a request, status by status. */
  ghost predicate ToldByStatus(v: View) {
    match v.r.status
    case Draft => v.debit.None? && v.credit.None?
    case PendingApproval => v.debit.None? && v.credit.None?
    case Rejected => v.debit.None? && v.credit.None?
    case Failed => v.debit.None? && v.credit.None?
    case Approved => v.credit.None?
    case Committed => v.debit.Some? && v.credit.None?
    case CancellationPending => v.debit.Some?
    case Cancelled =>
      && (v.credit.Some? ==> |v.msgs| == 2)
      && (|v.msgs| == 2 ==> v.msgs[1].status.Done? && v.debit.Some? && v.credit.Some?)
  }

  /** Each of the request's two keys is written once if acknowledged as applied, else never. */
  ghost predicate MovesOnce(s: System, i: RequestId, k: Key)
    requires i < |s.store.requests|
  {
    var v := ViewOf(s, i);
    && Writes(s.hcm, k, DebitOf(i)) == (if k == v.r.key && IsWritten(v.debit) then 1 else 0)
    && Writes(s.hcm, k, CreditOf(i)) == (if k == v.r.key && IsWritten(v.credit) then 1 else 0)
    && Moves(s.hcm, v.r.key, 0, CausedBy(i)) ==
         (if IsWritten(v.debit) then -v.r.days else 0) + (if IsWritten(v.credit) then v.r.days else 0)
  }

  lemma MovesOnceFrom(s: System, i: RequestId, k: Key)
    requires Inv(s) && i < |s.store.requests|
    ensures MovesOnce(s, i, k)
  {
    WritesAreAcknowledged(s.hcm, k, DebitOf(i));
    WritesAreAcknowledged(s.hcm, k, CreditOf(i));
    RequestMoves(s, i, 0);
    if DebitOf(i) in s.hcm.applied { assert AckTruthful(s.hcm, DebitOf(i)); }
    if CreditOf(i) in s.hcm.applied { assert AckTruthful(s.hcm, CreditOf(i)); }
    assert DebitOf(i) in s.hcm.commands <==> DebitOf(i) in s.hcm.applied;
    assert CreditOf(i) in s.hcm.commands <==> CreditOf(i) in s.hcm.applied;
  }

  /**
   * Exactly once. In every state of every run each of a request's two keys is written at HCM at
   * most once, on the request's own key and for its own days; the request's status says what HCM
   * has been told, so a failed or rejected request never moved HCM even if answers were lost, and
   * a refunded one moved it by nothing in total, unless HCM faked a success.
   */
  lemma EachMovesOnce(steps: seq<Step>, i: RequestId, k: Key)
    requires i < |Run(INITIAL, steps).store.requests|
    ensures var s := Run(INITIAL, steps);
      MovesOnce(s, i, k) && ToldByStatus(ViewOf(s, i)) && ReferenceIs(ViewOf(s, i))
  {
    var s := Run(INITIAL, steps);
    EveryRunAgrees(steps);
    MovesOnceFrom(s, i, k);
    assert Shape(ViewOf(s, i));
  }

  lemma RefsStayDistinct(s: System, step: Step)
    requires HcmOk(s.hcm) && RefsDistinct(s.hcm)
    ensures RefsDistinct(Next(s, step).hcm)
  {
    match step
    case ExchangeStep(wire) =>
      ExchangeStore(s, wire);
      if Next(s, step).hcm != s.hcm { PerformKeepsRefs(s.hcm, ApplyCall(CommandOf(s.drain.queue[0]))); }
    case HcmStep(call) => PerformKeepsRefs(s.hcm, call);
    case _ => assert Next(s, step).hcm == s.hcm;
  }

  lemma {:induction false} EveryRunHasDistinctRefs(steps: seq<Step>)
    ensures RefsDistinct(Run(INITIAL, steps).hcm)
  {
    if steps == [] {
    } else {
      var front, step := steps[..|steps| - 1], steps[|steps| - 1];
      EveryRunHasDistinctRefs(front);
      EveryRunAgrees(front);
      RefsStayDistinct(Run(INITIAL, front), step);
    }
  }

  /** No two requests carry the same reference of HCM. */
  lemma ReferencesAreDistinct(steps: seq<Step>, i: RequestId, j: RequestId)
    requires i < |Run(INITIAL, steps).store.requests| && j < |Run(INITIAL, steps).store.requests| && i != j
    requires Run(INITIAL, steps).store.requests[i].hcmRef.Some?
    ensures Run(INITIAL, steps).store.requests[i].hcmRef != Run(INITIAL, steps).store.requests[j].hcmRef
  {
    var s := Run(INITIAL, steps);
    EveryRunAgrees(steps);
    EveryRunHasDistinctRefs(steps);
    assert Shape(ViewOf(s, i)) && Shape(ViewOf(s, j));
    assert DebitOf(i) != DebitOf(j);
  }
}
