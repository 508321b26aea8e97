/**
 * The available balance request by request: what every step does to it, and why a submit that
 * read it under the lock may rely on what it read.
 */
module Accounting {
  import opened Domain
  import opened Tables
  import opened Balances
  import opened TimeOff
  import opened ReconciliationMath
  import opened Sync
  import opened HcmCore
  import opened Protocol
  import opened Views
  import opened StoreSteps
  import opened DeliverySteps

  function ActiveOf(): LedgerRow -> int { (r: LedgerRow) => if r.state.Active? then r.amount else 0 }

  /** The days a request currently holds back, whatever the phase. */
  function HeldDays(st: Store, i: RequestId): int { Sum(Rows(st, i), ActiveOf()) }

  /** The days held on a key, request by request, by the first `n` rows of the ledger. */
  function HeldIn(ledger: seq<LedgerRow>, n: nat, requests: seq<Request>, k: Key): nat -> int
    requires n <= |ledger|
  {
    (i: nat) =>
      if i < |requests| && requests[i].key == k then Sum(SelectFirst(ledger, n, OfRequest(i)), ActiveOf()) else 0
  }

  function HeldAt(st: Store, k: Key): nat -> int {
    (i: nat) => if i < |st.requests| && st.requests[i].key == k then HeldDays(st, i) else 0
  }

  /** Orphans whose acknowledged debit is still subtracted locally. */
  function OrphanHeld(s: System, k: Key): nat -> int {
    (i: nat) =>
      if i < |s.store.requests| && s.store.requests[i].key == k && s.store.requests[i].status.Cancelled?
      then HeldDays(s.store, i) else 0
  }

  // ---- From rows to requests -----------------------------------------------

  lemma HeldWithRow(ledger: seq<LedgerRow>, n: nat, requests: seq<Request>, k: Key, i: RequestId)
    requires 0 < n <= |ledger| && i < |requests|
    requires ledger[n - 1].requestId < |requests|
    requires ledger[n - 1].key == requests[ledger[n - 1].requestId].key
    ensures var row := ledger[n - 1];
      HeldIn(ledger, n, requests, k)(i) == HeldIn(ledger, n - 1, requests, k)(i)
        + (if i == row.requestId && row.key == k then ActiveOf()(row) else 0)
  {
    if i == ledger[n - 1].requestId { SumAppend(SelectFirst(ledger, n - 1, OfRequest(i)), ledger[n - 1], ActiveOf()); }
  }

  /** Summing the active rows of a key by phase, or by request, is the same. */
  lemma {:induction false} LedgerByRequest(ledger: seq<LedgerRow>, n: nat, requests: seq<Request>, k: Key)
    requires n <= |ledger|
    requires forall j :: 0 <= j < |ledger| ==>
      ledger[j].requestId < |requests| && ledger[j].key == requests[ledger[j].requestId].key
    ensures SumFirst(ledger, n, ActiveAmount(k, Reserve)) + SumFirst(ledger, n, ActiveAmount(k, Commit))
         == SumTo(|requests|, HeldIn(ledger, n, requests, k))
  {
    if n == 0 {
      SumZero(|requests|, HeldIn(ledger, n, requests, k));
    } else {
      var row := ledger[n - 1];
      var f, g := HeldIn(ledger, n - 1, requests, k), HeldIn(ledger, n, requests, k);
      LedgerByRequest(ledger, n - 1, requests, k);
      forall i: nat | i < |requests|
        ensures g(i) == f(i) + (if i == row.requestId && row.key == k then ActiveOf()(row) else 0)
      {
        HeldWithRow(ledger, n, requests, k, i);
      }
      SumChange(|requests|, f, g, row.requestId);
    }
  }

  /** Every ledger row is one of its request's rows. */
  lemma RowInView(s: System, j: nat) returns (p: nat)
    requires Inv(s) && j < |s.store.ledger|
    ensures s.store.ledger[j].requestId < |s.store.requests|
    ensures Shape(ViewOf(s, s.store.ledger[j].requestId))
    ensures p < |Rows(s.store, s.store.ledger[j].requestId)|
    ensures Rows(s.store, s.store.ledger[j].requestId)[p] == s.store.ledger[j]
  {
    var i := s.store.ledger[j].requestId;
    assert Shape(ViewOf(s, i));
    SelectHas(s.store.ledger, j, OfRequest(i));
    p :| 0 <= p < |Rows(s.store, i)| && Rows(s.store, i)[p] == s.store.ledger[j];
  }

  /** A request's row carries its key and its days. */
  lemma RowMatchesRequest(s: System, j: nat)
    requires Inv(s) && j < |s.store.ledger|
    ensures var row := s.store.ledger[j];
      && row.requestId < |s.store.requests|
      && row.key == s.store.requests[row.requestId].key && row.amount == s.store.requests[row.requestId].days > 0
  {
    var p := RowInView(s, j);
  }

  lemma AvailableByRequest(s: System, k: Key)
    requires Inv(s)
    ensures Available(s.store, k) ==
      CachedBalance(s.store, k).hcmBalance - SumTo(|s.store.requests|, HeldAt(s.store, k))
  {
    forall j | 0 <= j < |s.store.ledger|
      ensures s.store.ledger[j].requestId < |s.store.requests|
      ensures s.store.ledger[j].key == s.store.requests[s.store.ledger[j].requestId].key
    {
      RowMatchesRequest(s, j);
    }
    LedgerByRequest(s.store.ledger, |s.store.ledger|, s.store.requests, k);
    SumSame(|s.store.requests|, HeldIn(s.store.ledger, |s.store.ledger|, s.store.requests, k), HeldAt(s.store, k));
  }

  ghost predicate HasActive(v: View) { v.rows != [] && v.rows[|v.rows| - 1].state.Active? }

  /** One active row at most, and it is worth the request's days. */
  lemma HeldValue(v: View)
    requires Shape(v)
    ensures Sum(v.rows, ActiveOf()) == if HasActive(v) then v.r.days else 0
    ensures HasActive(v) ==> v.r.days > 0
  {
    if |v.rows| == 1 {
      assert v.rows == [v.rows[0]];
      SumAppend([], v.rows[0], ActiveOf());
      assert [] + [v.rows[0]] == v.rows;
    } else if |v.rows| == 2 {
      SumAppend([], v.rows[0], ActiveOf());
      assert [] + [v.rows[0]] == [v.rows[0]];
      SumAppend([v.rows[0]], v.rows[1], ActiveOf());
      assert [v.rows[0]] + [v.rows[1]] == v.rows;
    }
  }

  lemma HeldOf(s: System, i: RequestId)
    requires Inv(s) && i < |s.store.requests|
    ensures HeldDays(s.store, i) == if HasActive(ViewOf(s, i)) then s.store.requests[i].days else 0
    ensures HasActive(ViewOf(s, i)) ==> s.store.requests[i].days > 0
  {
    assert Shape(ViewOf(s, i));
    HeldValue(ViewOf(s, i));
  }

  // ---- What a step does to the available balance ---------------------------

  /** Nothing but request `id` and its rows differ, as far as balances are concerned. */
  ghost predicate OnlyTouches(s: System, s': System, id: RequestId) {
    && id < |s.store.requests| == |s'.store.requests|
    && s'.store.balances == s.store.balances
    && (forall i :: 0 <= i < |s.store.requests| ==> s'.store.requests[i].key == s.store.requests[i].key)
    && (forall i: nat {:trigger Rows(s'.store, i)} ::
          i < |s.store.requests| && i != id ==> Rows(s'.store, i) == Rows(s.store, i))
  }

  lemma OneRequestMoves(s: System, s': System, id: RequestId, freed: int, k: Key)
    requires Inv(s) && Inv(s') && OnlyTouches(s, s', id)
    requires HeldDays(s.store, id) - HeldDays(s'.store, id) == freed
    ensures Available(s'.store, k) == Available(s.store, k) + (if s.store.requests[id].key == k then freed else 0)
  {
    AvailableByRequest(s, k);
    AvailableByRequest(s', k);
    var f, g := HeldAt(s.store, k), HeldAt(s'.store, k);
    forall i: nat | i < |s.store.requests| && i != id ensures f(i) == g(i) {
      assert Rows(s'.store, i) == Rows(s.store, i);
    }
    SumChange(|s.store.requests|, f, g, id);
  }

  /** An orphan acknowledgement costs, a refusal of an approved debit and a refund give back. */
  function SettleDelta(st: Store, m: Message, reply: Reply): int {
    if m.requestId >= |st.requests| then 0
    else if reply.Acked? then
      if m.direction.Credit? then HeldDays(st, m.requestId)
      else if st.requests[m.requestId].status.Cancelled? then -m.amount
      else 0
    else if reply.Refused? && m.direction.Debit? && st.requests[m.requestId].status.Approved? then m.amount
    else 0
  }

  /** The exact change a step makes to the available balance of `k`. */
  function AvailableDelta(s: System, step: Step, k: Key): int {
    match step
    case SubmitEnd(key) =>
      if key == k && Grants(s, key) then -s.sessions[key].copy.days else 0
    case RejectStep(id) =>
      if RejectRequest(s.store, id).Ok? && s.store.requests[id].key == k then s.store.requests[id].days else 0
    case CancelStep(id) =>
      if CancelRequest(s.store, id).Ok? && s.store.requests[id].key == k
         && (s.store.requests[id].status.PendingApproval? || s.store.requests[id].status.Approved?)
      then s.store.requests[id].days else 0
    case SettleStep(_) =>
      if s.drain.Draining? && s.drain.queue != [] && s.drain.reply.Some? && s.drain.queue[0].key == k
      then SettleDelta(s.store, s.drain.queue[0], s.drain.reply.value) else 0
    case ReconcileStep(key, version) =>
      if key == k && key !in s.sessions
         && CachedBalance(s.store, k).lastReconciledVersion < version <= Version(s.hcm, k)
      then BalanceAt(s.hcm, k, version) - CachedBalance(s.store, k).hcmBalance
           + MatchedAmount(CommittedEntries(s.store, k), version)
      else 0
    case LoadStep(key, version) =>
      if key == k && k !in s.store.balances && 0 < version <= Version(s.hcm, k) then BalanceAt(s.hcm, k, version) else 0
    case _ => 0
  }

  lemma SubmitDelta(s: System, key: Key, k: Key)
    requires Inv(s)
    ensures Available(Next(s, SubmitEnd(key)).store, k) == Available(s.store, k) + AvailableDelta(s, SubmitEnd(key), k)
  {
    if Grants(s, key) {
      var r := s.sessions[key].copy;
      assert SessionOk(s.store, key, r);
      ReservingCosts(s.store, r.id, r.key, r.days, k);
      var reserved := AddReservation(s.store, r.id, r.key, r.days);
      assert Components(Next(s, SubmitEnd(key)).store, k) == Components(reserved, k);
    } else {
      assert Components(Next(s, SubmitEnd(key)).store, k) == Components(s.store, k);
    }
  }

  lemma RejectTouches(s: System, id: RequestId)
    requires Inv(s) && RejectRequest(s.store, id).Ok?
    ensures OnlyTouches(s, Next(s, RejectStep(id)), id)
  {
    var s' := Next(s, RejectStep(id));
    forall i: nat | i < |s.store.requests| && i != id ensures Rows(s'.store, i) == Rows(s.store, i) {
      RowsReleased(s.store, id, LedgerPhase.Reserve, i);
    }
  }

  lemma RejectHeld(s: System, id: RequestId)
    requires Inv(s) && RejectRequest(s.store, id).Ok?
    ensures HeldDays(s.store, id) - HeldDays(RejectRequest(s.store, id).value, id) == s.store.requests[id].days
  {
    var s' := s.(store := RejectRequest(s.store, id).value);
    assert s' == Next(s, RejectStep(id));
    RejectView(s, id, id);
    RejectShape(s, id, id);
    assert Shape(ViewOf(s, id));
    HeldValue(ViewOf(s, id));
    HeldValue(ViewOf(s', id));
  }

  lemma RejectDelta(s: System, id: RequestId, k: Key)
    requires Inv(s)
    ensures Available(Next(s, RejectStep(id)).store, k) == Available(s.store, k) + AvailableDelta(s, RejectStep(id), k)
  {
    if RejectRequest(s.store, id).Ok? {
      var s' := Next(s, RejectStep(id));
      assert s'.store == RejectRequest(s.store, id).value;
      RejectKeeps(s, id);
      RejectTouches(s, id);
      RejectHeld(s, id);
      OneRequestMoves(s, s', id, s.store.requests[id].days, k);
    }
  }

  lemma CancelTouches(s: System, id: RequestId)
    requires Inv(s) && CancelRequest(s.store, id).Ok?
    ensures OnlyTouches(s, WithStore(s, CancelRequest(s.store, id)), id)
  {
    var s' := WithStore(s, CancelRequest(s.store, id));
    forall i: nat | i < |s.store.requests| && i != id ensures Rows(s'.store, i) == Rows(s.store, i) {
      RowsReleased(s.store, id, LedgerPhase.Reserve, i);
    }
  }

  lemma CancelHeld(s: System, id: RequestId)
    requires Inv(s) && CancelRequest(s.store, id).Ok?
    ensures var r := s.store.requests[id];
      HeldDays(s.store, id) - HeldDays(CancelRequest(s.store, id).value, id) ==
        if r.status.PendingApproval? || r.status.Approved? then r.days else 0
  {
    var s' := WithStore(s, CancelRequest(s.store, id));
    CancelView(s, id, id);
    CancelShape(s, id, id);
    assert Shape(ViewOf(s, id));
    HeldValue(ViewOf(s, id));
    HeldValue(ViewOf(s', id));
  }

  lemma CancelMoves(s: System, s': System, id: RequestId, k: Key)
    requires Inv(s) && CancelRequest(s.store, id).Ok? && s' == WithStore(s, CancelRequest(s.store, id)) && Inv(s')
    ensures var r := s.store.requests[id];
      Available(s'.store, k) == Available(s.store, k) +
        if r.key == k && (r.status.PendingApproval? || r.status.Approved?) then r.days else 0
  {
    var r := s.store.requests[id];
    assert s'.store == CancelRequest(s.store, id).value;
    CancelTouches(s, id);
    CancelHeld(s, id);
    OneRequestMoves(s, s', id, if r.status.PendingApproval? || r.status.Approved? then r.days else 0, k);
  }

  lemma CancelDelta(s: System, id: RequestId, k: Key)
    requires Inv(s)
    ensures Available(Next(s, CancelStep(id)).store, k) == Available(s.store, k) + AvailableDelta(s, CancelStep(id), k)
  {
    if CancelRequest(s.store, id).Ok? {
      CancelKeeps(s, id);
      CancelMoves(s, Next(s, CancelStep(id)), id, k);
    } else {
      assert Next(s, CancelStep(id)).store == s.store;
    }
  }

  lemma SettledTouches(s: System, s': System, m: Message, reply: Reply, now: int)
    requires Inv(s) && Settled(s.store, s'.store, m, reply, now)
    ensures OnlyTouches(s, s', m.requestId)
  {
    forall i: nat | i < |s.store.requests| && i != m.requestId ensures Rows(s'.store, i) == Rows(s.store, i) {
      SettleRows(s.store, m, reply, i);
    }
  }

  /** What the settled message's request holds before and after, by reply. */
  lemma SettlingHeld(v: View, m: Message, p: nat, reply: Reply, now: int, rowId: nat)
    requires Shape(v) && HeadOf(v, m, p) && Shape(Settling(v, m, reply, now, rowId))
    requires reply.Acked? ==> (if m.direction.Debit? then v.debit else v.credit) == Some(reply.ack)
    ensures Sum(v.rows, ActiveOf()) - Sum(Settling(v, m, reply, now, rowId).rows, ActiveOf()) ==
      if reply.Acked? then
        if m.direction.Credit? then Sum(v.rows, ActiveOf()) else if v.r.status.Cancelled? then -m.amount else 0
      else if reply.Refused? && m.direction.Debit? && v.r.status.Approved? then m.amount
      else 0
  {
    HeldValue(v);
    HeldValue(Settling(v, m, reply, now, rowId));
  }

  lemma SettledHeld(s: System, st': Store, now: int)
    requires Inv(s) && Settleable(s)
    requires Settled(s.store, st', s.drain.queue[0], s.drain.reply.value, now)
    ensures var m := s.drain.queue[0];
      HeldDays(s.store, m.requestId) - HeldDays(st', m.requestId) == SettleDelta(s.store, m, s.drain.reply.value)
  {
    var m, reply := s.drain.queue[0], s.drain.reply.value;
    var p := HeadInView(s);
    assert ClaimedCopy(s.store.outbox, m);
    SettledViewHere(s, st', m, reply, now);
    SettledShape(s, st', now, m.requestId);
    SettlingHeld(ViewOf(s, m.requestId), m, p, reply, now, |s.store.ledger|);
  }

  lemma SettleDeltaExact(s: System, now: int, k: Key)
    requires Inv(s)
    ensures Available(Next(s, SettleStep(now)).store, k) ==
      Available(s.store, k) + AvailableDelta(s, SettleStep(now), k)
  {
    if Settleable(s) {
      var s' := DoSettle(s, now);
      var m, reply := s.drain.queue[0], s.drain.reply.value;
      var p := HeadInView(s);
      SettleKeeps(s, now);
      SettleIsSettled(s, now);
      SettledTouches(s, s', m, reply, now);
      SettledHeld(s, s'.store, now);
      OneRequestMoves(s, s', m.requestId, SettleDelta(s.store, m, reply), k);
    } else {
      assert Next(s, SettleStep(now)).store == s.store;
    }
  }

  lemma AbsorbDelta(st: Store, st': Store, u: BalanceUpdate, k: Key)
    requires st'.(events := st.events) == AfterUpdate(st, u)
    ensures Available(st', k) == Available(st, k) +
      if k == u.key then u.balance - CachedBalance(st, k).hcmBalance + MatchedAmount(CommittedEntries(st, k), u.version)
      else 0
  {
    assert Components(st', k) == Components(AfterUpdate(st, u), k);
    if k == u.key { AfterUpdateHere(st, u); } else { AfterUpdateElsewhere(st, u, k); }
  }

  lemma ReconcileDelta(s: System, key: Key, version: nat, k: Key)
    requires Inv(s)
    ensures Available(Next(s, ReconcileStep(key, version)).store, k) ==
      Available(s.store, k) + AvailableDelta(s, ReconcileStep(key, version), k)
  {
    if key !in s.sessions && version <= Version(s.hcm, key) {
      var u := SnapshotAt(s.hcm, key, version);
      ReconcileAgreesWithStore(s.store, u);
      var (st', result) := ReconcileKey(s.store, u);
      assert Next(s, ReconcileStep(key, version)).store == st';
      if result.applied { AbsorbDelta(s.store, st', u, k); } else { assert st' == s.store; }
    } else {
      assert Next(s, ReconcileStep(key, version)).store == s.store;
    }
  }

  lemma UnseenKeyHoldsNothing(s: System, k: Key, i: RequestId)
    requires Inv(s) && k !in s.store.balances && i < |s.store.requests|
    ensures HeldAt(s.store, k)(i) == 0
  {
    HeldOf(s, i);
    assert Shape(ViewOf(s, i));
  }

  /** Before its first snapshot a key holds nothing. */
  lemma UnseenKeyIsEmpty(s: System, k: Key)
    requires Inv(s) && k !in s.store.balances
    ensures Available(s.store, k) == 0
  {
    AvailableByRequest(s, k);
    forall i: nat | i < |s.store.requests| ensures HeldAt(s.store, k)(i) == 0 { UnseenKeyHoldsNothing(s, k, i); }
    SumZero(|s.store.requests|, HeldAt(s.store, k));
  }

  lemma LoadDelta(s: System, key: Key, version: nat, k: Key)
    requires Inv(s)
    ensures Available(Next(s, LoadStep(key, version)).store, k) ==
      Available(s.store, k) + AvailableDelta(s, LoadStep(key, version), k)
  {
    var st' := Next(s, LoadStep(key, version)).store;
    assert st'.ledger == s.store.ledger;
    if k !in s.store.balances { UnseenKeyIsEmpty(s, k); }
  }

  /** The exact change of every available balance by every step, from any state of any run. */
  lemma EveryStepMovesExactly(s: System, step: Step, k: Key)
    requires Inv(s)
    ensures Available(Next(s, step).store, k) == Available(s.store, k) + AvailableDelta(s, step, k)
  {
    match step
    case SubmitEnd(key) => SubmitDelta(s, key, k);
    case RejectStep(id) => RejectDelta(s, id, k);
    case CancelStep(id) => CancelDelta(s, id, k);
    case SettleStep(now) => SettleDeltaExact(s, now, k);
    case ReconcileStep(key, version) => ReconcileDelta(s, key, version, k);
    case LoadStep(key, version) => LoadDelta(s, key, version, k);
    case _ => assert Components(Next(s, step).store, k) == Components(s.store, k);
  }
}
