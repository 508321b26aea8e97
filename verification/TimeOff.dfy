/** The request lifecycle. Every operation is one transaction; a refused one changes nothing. */
module TimeOff {
  import opened Domain
  import opened StateMachine
  import Tables
  import opened BalanceMath
  import opened Balances
  import opened Outbox
  import HcmCore

  function SetStatus(st: Store, id: RequestId, status: RequestStatus): Store
    requires id < |st.requests|
  {
    st.(requests := st.requests[id := st.requests[id].(status := status)])
  }

  function Create(st: Store, key: Key, days: int): Store {
    st.(requests := st.requests + [Request(|st.requests|, key, days, Draft, None)])
  }

  /** The request, provided the action is legal from its status. */
  function Gate(st: Store, id: RequestId, action: RequestAction): Result<Request> {
    if id >= |st.requests| then Err(RequestNotFound)
    else if !CanTransition(st.requests[id].status, action) then
      Err(IllegalTransition(st.requests[id].status, action))
    else Ok(st.requests[id])
  }

  /**
   * The tail of submit's critical section: check the components read, reserve, and save the copy
   * `r` of the request that was read, over whatever the row has become since.
   */
  function CheckAndReserve(st: Store, id: RequestId, r: Request, read: BalanceComponents): Result<Store>
    requires id < |st.requests|
  {
    if !CanReserve(read, r.days) then Err(InsufficientBalance(r.days, ComputeAvailable(read)))
    else
      var saved := r.(status := NextState(r.status, Submit).GetOr(r.status));
      Ok(AddReservation(st, id, r.key, r.days).(requests := st.requests[id := saved]))
  }

  function SubmitRequest(st: Store, id: RequestId): Result<Store> {
    match Gate(st, id, Submit)
    case Err(e) => Err(e)
    case Ok(r) => CheckAndReserve(st, id, r, Components(st, r.key))
  }

  function ApproveRequest(st: Store, id: RequestId): Result<Store> {
    match Gate(st, id, Approve)
    case Err(e) => Err(e)
    case Ok(r) =>
      Ok(Enqueue(SetStatus(st, id, NextState(r.status, Approve).value), id, Debit, DebitOf(id), r.key, r.days))
  }

  function RejectRequest(st: Store, id: RequestId): Result<Store> {
    match Gate(st, id, Reject)
    case Err(e) => Err(e)
    case Ok(r) => Ok(SetStatus(ReleaseReservation(st, id), id, NextState(r.status, Reject).value))
  }

  function CancelRequest(st: Store, id: RequestId): Result<Store> {
    match Gate(st, id, Cancel)
    case Err(e) => Err(e)
    case Ok(r) =>
      var to := NextState(r.status, Cancel).value;
      if r.status.Committed? then
        Ok(Enqueue(SetStatus(st, id, to), id, Credit, CreditOf(id), r.key, r.days))
      else
        var released := ReleaseReservation(st, id);
        var stopped := if r.status.Approved? then CancelPendingForRequest(released, id) else released;
        Ok(SetStatus(stopped, id, to))
  }

  /** The store a transaction leaves behind: the old one when it throws. */
  function OrUnchanged(result: Result<Store>, st: Store): Store {
    if result.Ok? then result.value else st
  }

  /** A reservation costs its days, on its own key only. */
  lemma ReservingCosts(st: Store, id: RequestId, key: Key, days: int, k: Key)
    ensures Available(AddReservation(st, id, key, days), k) == Available(st, k) - (if k == key then days else 0)
  {
    var row := ReservationRow(|st.ledger|, id, key, days);
    Tables.SumAppend(st.ledger, row, ActiveAmount(k, LedgerPhase.Reserve));
    Tables.SumAppend(st.ledger, row, ActiveAmount(k, LedgerPhase.Commit));
  }

  class TimeOffService {
    const db: Database
    const balances: BalanceService
    const outbox: OutboxService

    constructor (balances: BalanceService, outbox: OutboxService)
      requires outbox.db == balances.db
      ensures this.balances == balances && this.outbox == outbox && db == balances.db
    {
      db := balances.db;
      this.balances := balances;
      this.outbox := outbox;
    }

    ghost predicate Wired()
    {
      balances.db == db && outbox.db == db
    }

    /** The caller gets the request as saved, or the error of the refused transaction. */
    ghost predicate Answers(r: Result<Request>, outcome: Result<Store>, id: RequestId)
      reads db
    {
      match outcome
      case Ok(_) => id < |db.requests| && r == Ok(db.requests[id])
      case Err(e) => r == Err(e)
    }

    method NewDraft(key: Key, days: int) returns (r: Request)
      modifies db`requests
      ensures db.Contents() == Create(old(db.Contents()), key, days)
      ensures r == Request(|old(db.requests)|, key, days, Draft, None) && db.requests == old(db.requests) + [r]
    {
      r := Request(|db.requests|, key, days, Draft, None);
      db.requests := db.requests + [r];
    }

    method Save(id: RequestId, status: RequestStatus)
      requires id < |db.requests|
      modifies db`requests
      ensures db.Contents() == SetStatus(old(db.Contents()), id, status)
    {
      db.requests := db.requests[id := db.requests[id].(status := status)];
    }

    method CheckGate(id: RequestId, action: RequestAction) returns (r: Result<Request>)
      ensures r == Gate(db.Contents(), id, action)
    {
      if id >= |db.requests| { return Err(RequestNotFound); }
      if !CanTransition(db.requests[id].status, action) {
        return Err(IllegalTransition(db.requests[id].status, action));
      }
      r := Ok(db.requests[id]);
    }

    /**
     * Load the balance first, then check and reserve. None: HCM refused the key.
     * An accepted submit leaves the available balance non-negative.
     */
    method SubmitDraft(id: RequestId) returns (r: Option<Result<Request>>)
      requires Wired() && balances.hcm.Valid()
      modifies db, balances.hcm
      ensures balances.hcm.Valid()
      ensures Gate(old(db.Contents()), id, Submit).Err? ==>
        unchanged(db) && r == Some(Err(Gate(old(db.Contents()), id, Submit).error))
      ensures Gate(old(db.Contents()), id, Submit).Ok? ==>
        var (st, h, loaded) :=
          EnsureLoaded(old(db.Contents()), old(balances.hcm.View()), old(db.requests[id].key));
        && r.Some? == loaded && balances.hcm.View() == h
        && db.Contents() == (if loaded then OrUnchanged(SubmitRequest(st, id), st) else st)
        && (loaded ==> (r.value.Ok? <==> SubmitRequest(st, id).Ok?))
        && (loaded && r.value.Err? ==> r.value.error == SubmitRequest(st, id).error)
      ensures r.Some? && r.value.Ok? <==>
        && id < |old(db.requests)| && old(db.requests[id]).status.Draft?
        && var draft := old(db.requests[id]);
           && (draft.key in old(db.balances) || HcmCore.IsReadable(old(balances.hcm.View()), draft.key))
           && 0 < draft.days <=
                (if draft.key in old(db.balances) then old(db.balances)[draft.key].hcmBalance
                 else HcmCore.CurrentBalance(old(balances.hcm.View()), draft.key))
                - Tables.Sum(old(db.ledger), ActiveAmount(draft.key, LedgerPhase.Reserve))
                - Tables.Sum(old(db.ledger), ActiveAmount(draft.key, LedgerPhase.Commit))
      ensures r.Some? && r.value.Ok? ==>
        id < |db.requests| && r.value.value == db.requests[id] && Available(db.Contents(), db.requests[id].key) >= 0
    {
      var pre := CheckGate(id, Submit);
      if pre.Err? { return Some(Err(pre.error)); }
      var key := pre.value.key;
      LoadedExactly(db.Contents(), balances.hcm.View(), key);
      var loaded := balances.EnsureBalanceLoaded(key);
      if !loaded { return None; }
      var components := balances.ComputeComponents(key);
      var days := db.requests[id].days;
      if !CanReserve(components, days) {
        return Some(Err(InsufficientBalance(days, ComputeAvailable(components))));
      }
      ghost var before := db.Contents();
      balances.Hold(id, key, days);
      Save(id, NextState(db.requests[id].status, Submit).value);
      ReservingCosts(before, id, key, days, key);
      r := Some(Ok(db.requests[id]));
    }

    method ApproveOne(id: RequestId) returns (r: Result<Request>)
      requires Wired()
      modifies db
      ensures db.Contents() == OrUnchanged(ApproveRequest(old(db.Contents()), id), old(db.Contents()))
      ensures Answers(r, ApproveRequest(old(db.Contents()), id), id)
    {
      r := CheckGate(id, Approve);
      if r.Err? { return; }
      Save(id, NextState(r.value.status, Approve).value);
      outbox.Append(id, Debit, DebitOf(id), r.value.key, r.value.days);
      r := Ok(db.requests[id]);
    }

    method RejectOne(id: RequestId) returns (r: Result<Request>)
      requires Wired()
      modifies db
      ensures db.Contents() == OrUnchanged(RejectRequest(old(db.Contents()), id), old(db.Contents()))
      ensures Answers(r, RejectRequest(old(db.Contents()), id), id)
    {
      r := CheckGate(id, Reject);
      if r.Err? { return; }
      balances.Unreserve(id);
      Save(id, NextState(r.value.status, Reject).value);
      r := Ok(db.requests[id]);
    }

    method CancelOne(id: RequestId) returns (r: Result<Request>)
      requires Wired()
      modifies db
      ensures db.Contents() == OrUnchanged(CancelRequest(old(db.Contents()), id), old(db.Contents()))
      ensures Answers(r, CancelRequest(old(db.Contents()), id), id)
    {
      r := CheckGate(id, Cancel);
      if r.Err? { return; }
      if r.value.status.Committed? {
        Save(id, NextState(r.value.status, Cancel).value);
        outbox.Append(id, Credit, CreditOf(id), r.value.key, r.value.days);
        return Ok(db.requests[id]);
      }
      balances.Unreserve(id);
      if r.value.status.Approved? {
        outbox.StopRequest(id);
      }
      Save(id, NextState(r.value.status, Cancel).value);
      r := Ok(db.requests[id]);
    }
  }

  /** A refused submit says why: no such request, not a draft, or more days than are available. */
  lemma SubmitRefusals(st: Store, id: RequestId)
    ensures SubmitRequest(st, id) == Err(RequestNotFound) <==> id >= |st.requests|
    ensures forall from, action :: SubmitRequest(st, id) == Err(IllegalTransition(from, action)) <==>
      id < |st.requests| && !st.requests[id].status.Draft? && from == st.requests[id].status && action == Submit
    ensures forall days, available :: SubmitRequest(st, id) == Err(InsufficientBalance(days, available)) <==>
      && id < |st.requests| && st.requests[id].status.Draft? && days == st.requests[id].days
      && available == Available(st, st.requests[id].key) && !(0 < days <= available)
  {
  }

  // ---- What each operation accepts and leaves ------------------------------

  /** A submit is granted exactly to a draft whose positive days are available; it adds one active hold. */
  lemma SubmitExactly(st: Store, id: RequestId)
    ensures SubmitRequest(st, id).Ok? <==>
      && id < |st.requests| && st.requests[id].status.Draft?
      && 0 < st.requests[id].days <= Available(st, st.requests[id].key)
    ensures SubmitRequest(st, id).Ok? ==>
      var r := st.requests[id];
      SubmitRequest(st, id).value == st.(
        requests := st.requests[id := r.(status := PendingApproval)],
        ledger := st.ledger + [LedgerRow(|st.ledger|, id, r.key, r.days, LedgerPhase.Reserve, Active, None)])
  {
  }

  /** An approval is accepted exactly for a pending request; it adds one pending debit of the days. */
  lemma ApproveExactly(st: Store, id: RequestId)
    ensures ApproveRequest(st, id) ==
      if id >= |st.requests| then Err(RequestNotFound)
      else if !st.requests[id].status.PendingApproval? then Err(IllegalTransition(st.requests[id].status, Approve))
      else
        var r := st.requests[id];
        Ok(st.(requests := st.requests[id := r.(status := Approved)],
               outbox := st.outbox + [Message(|st.outbox|, id, Debit, DebitOf(id), r.key, r.days, Pending, 0, None)]))
  {
  }

  /** The request's pending and failed messages are buried, row by row, and nothing else in the outbox changes. */
  ghost predicate QueueStopped(outbox: seq<Message>, outbox': seq<Message>, id: RequestId) {
    && |outbox'| == |outbox|
    && forall j :: 0 <= j < |outbox| ==>
         var m := outbox[j];
         outbox'[j] == if m.requestId == id && (m.status.Pending? || m.status.Retrying?) then m.(status := Dead) else m
  }

  /** A rejection is accepted exactly for a pending request; it releases its hold. */
  lemma RejectExactly(st: Store, id: RequestId)
    ensures id >= |st.requests| ==> RejectRequest(st, id) == Err(RequestNotFound)
    ensures id < |st.requests| && !st.requests[id].status.PendingApproval? ==>
      RejectRequest(st, id) == Err(IllegalTransition(st.requests[id].status, Reject))
    ensures id < |st.requests| && st.requests[id].status.PendingApproval? ==>
      && RejectRequest(st, id).Ok?
      && var st' := RejectRequest(st, id).value;
         && st' == st.(requests := st.requests[id := st.requests[id].(status := Rejected)], ledger := st'.ledger)
         && Freed(st.ledger, st'.ledger, id, LedgerPhase.Reserve)
  {
  }

  predicate IsCancellable(status: RequestStatus) {
    status.Draft? || status.PendingApproval? || status.Approved? || status.Committed?
  }

  /**
   * A cancel is accepted exactly for a draft, a pending, an approved or a committed request. A
   * committed one waits for a credit of its days; any other is cancelled, its hold released, and if it
   * was approved its queued debit stopped.
   */
  lemma CancelExactly(st: Store, id: RequestId)
    ensures id >= |st.requests| ==> CancelRequest(st, id) == Err(RequestNotFound)
    ensures id < |st.requests| && !IsCancellable(st.requests[id].status) ==>
      CancelRequest(st, id) == Err(IllegalTransition(st.requests[id].status, Cancel))
    ensures id < |st.requests| && st.requests[id].status.Committed? ==>
      var r := st.requests[id];
      CancelRequest(st, id) == Ok(st.(
        requests := st.requests[id := r.(status := CancellationPending)],
        outbox := st.outbox + [Message(|st.outbox|, id, Credit, CreditOf(id), r.key, r.days, Pending, 0, None)]))
    ensures id < |st.requests| && IsCancellable(st.requests[id].status) && !st.requests[id].status.Committed? ==>
      && CancelRequest(st, id).Ok?
      && var r, st' := st.requests[id], CancelRequest(st, id).value;
         && st' == st.(requests := st.requests[id := r.(status := Cancelled)],
                       ledger := st'.ledger, outbox := st'.outbox)
         && Freed(st.ledger, st'.ledger, id, LedgerPhase.Reserve)
         && (if r.status.Approved? then QueueStopped(st.outbox, st'.outbox, id) else st'.outbox == st.outbox)
  {
  }

  /** A first submit: granted exactly if HCM has, or may create, the key, and the days fit what HCM says of it. */
  lemma FirstSubmitExactly(st: Store, h: HcmCore.Hcm, id: RequestId)
    requires id < |st.requests| && st.requests[id].key !in st.balances && st.requests[id].status.Draft?
    ensures var (st', h', loaded) := EnsureLoaded(st, h, st.requests[id].key);
      var r := st.requests[id];
      (loaded && SubmitRequest(st', id).Ok?) <==>
        && HcmCore.IsReadable(h, r.key)
        && 0 < r.days <= HcmCore.CurrentBalance(h, r.key)
                         - Tables.Sum(st.ledger, ActiveAmount(r.key, LedgerPhase.Reserve))
                         - Tables.Sum(st.ledger, ActiveAmount(r.key, LedgerPhase.Commit))
  {
    LoadedExactly(st, h, st.requests[id].key);
  }
}
