/** How the transactions look to one request, and that they keep its shape. */
module StoreSteps {
  import opened Domain
  import opened StateMachine
  import opened Tables
  import opened BalanceMath
  import opened Balances
  import opened Outbox
  import opened TimeOff
  import opened Sync
  import opened Protocol
  import opened Views

  // ---- Rows and messages of one request ------------------------------------

  lemma RowsAppended(st: Store, row: LedgerRow, i: RequestId)
    ensures Rows(st.(ledger := st.ledger + [row]), i) ==
      if row.requestId == i then Rows(st, i) + [row] else Rows(st, i)
  {
    SelectAppend(st.ledger, row, OfRequest(i));
  }

  lemma RowsReleased(st: Store, id: RequestId, phase: LedgerPhase, i: RequestId)
    ensures Select(Update(st.ledger, Release(id, phase)), OfRequest(i)) ==
      if i == id then Update(Rows(st, i), Release(id, phase)) else Rows(st, i)
  {
    if i == id {
      SelectUpdate(st.ledger, Release(id, phase), OfRequest(i));
    } else {
      SelectUntouched(st.ledger, Release(id, phase), OfRequest(i));
    }
  }

  lemma RowsAbsorbed(st: Store, key: Key, version: nat, i: RequestId)
    ensures Select(Update(st.ledger, Absorb(key, version)), OfRequest(i)) == Update(Rows(st, i), Absorb(key, version))
  {
    SelectUpdate(st.ledger, Absorb(key, version), OfRequest(i));
  }

  lemma MessagesAppended(st: Store, m: Message, i: RequestId)
    ensures Messages(st.(outbox := st.outbox + [m]), i) ==
      if m.requestId == i then Messages(st, i) + [m] else Messages(st, i)
  {
    SelectAppend(st.outbox, m, ForRequest(i));
  }

  /** Rewriting the row numbered `at` shows only at the request it belongs to. */
  lemma MessagesRewritten(st: Store, at: nat, f: Message -> Message, i: RequestId)
    requires Numbered(st) && at < |st.outbox|
    requires forall m: Message :: m.id != at ==> f(m) == m
    requires forall m: Message :: f(m).requestId == m.requestId
    ensures Select(Update(st.outbox, f), ForRequest(i)) ==
      if st.outbox[at].requestId == i then Update(Messages(st, i), f) else Messages(st, i)
  {
    if st.outbox[at].requestId == i {
      SelectUpdate(st.outbox, f, ForRequest(i));
    } else {
      SelectUntouched(st.outbox, f, ForRequest(i));
    }
  }

  lemma MessagesStopped(st: Store, id: RequestId, i: RequestId)
    ensures Select(Update(st.outbox, StopQueued(id)), ForRequest(i)) ==
      if i == id then Update(Messages(st, i), StopQueued(id)) else Messages(st, i)
  {
    if i == id {
      SelectUpdate(st.outbox, StopQueued(id), ForRequest(i));
    } else {
      SelectUntouched(st.outbox, StopQueued(id), ForRequest(i));
    }
  }

  lemma MessagesClaimed(st: Store, ids: set<nat>, i: RequestId)
    ensures Select(Update(st.outbox, ClaimIds(ids)), ForRequest(i)) == Update(Messages(st, i), ClaimIds(ids))
  {
    SelectUpdate(st.outbox, ClaimIds(ids), ForRequest(i));
  }

  /** A message of a request is a row of the outbox, at the position of its number. */
  lemma MessageIsRow(st: Store, i: RequestId, j: nat)
    requires Numbered(st) && j < |Messages(st, i)|
    ensures var m := Messages(st, i)[j]; m.id < |st.outbox| && st.outbox[m.id] == m
  {
    var m := Messages(st, i)[j];
    assert m in Messages(st, i);
    var n :| 0 <= n < |st.outbox| && st.outbox[n] == m;
  }

  lemma SelectHas<T(!new)>(t: seq<T>, at: nat, p: T -> bool)
    requires at < |t| && p(t[at])
    ensures t[at] in Select(t, p)
  {
  }

  /** And every row of the outbox is a message of its request. */
  lemma RowIsMessage(st: Store, at: nat) returns (j: nat)
    requires Numbered(st) && at < |st.outbox|
    ensures j < |Messages(st, st.outbox[at].requestId)|
    ensures Messages(st, st.outbox[at].requestId)[j] == st.outbox[at]
  {
    var i := st.outbox[at].requestId;
    SelectHas(st.outbox, at, ForRequest(i));
    j :| 0 <= j < |Messages(st, i)| && Messages(st, i)[j] == st.outbox[at];
  }

  /** A request without rows in the tables, because all rows belong to earlier requests. */
  lemma NewcomerHasNothing(st: Store)
    requires Numbered(st)
    ensures Rows(st, |st.requests|) == [] && Messages(st, |st.requests|) == []
  {
    var n := |st.requests|;
    SelectNone(st.ledger, OfRequest(n));
    SelectNone(st.outbox, ForRequest(n));
  }

  // ---- Lifecycle transactions ----------------------------------------------

  lemma CreateKeeps(s: System, key: Key, days: int)
    requires Inv(s)
    ensures Inv(Next(s, CreateStep(key, days)))
  {
    var s' := Next(s, CreateStep(key, days));
    var n := |s.store.requests|;
    NewcomerHasNothing(s.store);
    forall i: nat | i < |s'.store.requests| ensures Shape(ViewOf(s', i)) {
      if i < n {
        assert ViewOf(s', i) == ViewOf(s, i);
      } else {
        assert DebitOf(n) !in s.hcm.commands && CreditOf(n) !in s.hcm.commands;
      }
    }
  }

  function Reserving(v: View, rowId: nat): View {
    v.(r := v.r.(status := PendingApproval),
       rows := v.rows + [ReservationRow(rowId, v.r.id, v.r.key, v.r.days)])
  }

  lemma ReservingShape(v: View, rowId: nat)
    requires Shape(v) && (v.r.status.Draft? || v.r.status.Cancelled?) && v.rows == [] && v.r.hcmRef.None?
    requires v.r.days > 0 && v.watermark.Some?
    ensures Shape(Reserving(v, rowId))
  {
  }

  lemma NoRowsIsEmpty(st: Store, id: RequestId)
    ensures NoRows(st.ledger, id) <==> Rows(st, id) == []
  {
    if NoRows(st.ledger, id) {
      SelectNone(st.ledger, OfRequest(id));
    } else {
      var j :| 0 <= j < |st.ledger| && st.ledger[j].requestId == id;
      SelectHas(st.ledger, j, OfRequest(id));
    }
  }

  /** A submit is ending with its reservation granted. */
  predicate Grants(s: System, key: Key) {
    key in s.sessions && CanReserve(s.sessions[key].read, s.sessions[key].copy.days)
  }

  /** A submit ends with its reservation granted and saves request `i`, a draft when it was read. */
  predicate Revives(s: System, step: Step, i: RequestId) {
    step.SubmitEnd? && Grants(s, step.key) && s.sessions[step.key].copy.id == i
  }

  lemma ReserveView(s: System, key: Key, i: RequestId)
    requires Inv(s) && Grants(s, key) && i < |s.store.requests|
    ensures i < |Next(s, SubmitEnd(key)).store.requests|
    ensures ViewOf(Next(s, SubmitEnd(key)), i) ==
      if i == s.sessions[key].copy.id then Reserving(ViewOf(s, i), |s.store.ledger|) else ViewOf(s, i)
  {
    var copy := s.sessions[key].copy;
    assert SessionOk(s.store, key, copy);
    RowsAppended(s.store, ReservationRow(|s.store.ledger|, copy.id, key, copy.days), i);
  }

  lemma SavedShape(s: System, key: Key)
    requires Inv(s) && Grants(s, key)
    ensures s.sessions[key].copy.id < |s.store.requests|
    ensures Shape(Reserving(ViewOf(s, s.sessions[key].copy.id), |s.store.ledger|))
  {
    var i := s.sessions[key].copy.id;
    assert SessionOk(s.store, key, s.sessions[key].copy);
    assert Shape(ViewOf(s, i));
    NoRowsIsEmpty(s.store, i);
    ReservingShape(ViewOf(s, i), |s.store.ledger|);
  }

  lemma ReserveShape(s: System, key: Key, i: RequestId)
    requires Inv(s) && key in s.sessions && i < |s.store.requests|
    ensures Shape(ViewOf(Next(s, SubmitEnd(key)), i))
  {
    assert Shape(ViewOf(s, i));
    if Grants(s, key) {
      ReserveView(s, key, i);
      if i == s.sessions[key].copy.id { SavedShape(s, key); }
    } else {
      assert ViewOf(Next(s, SubmitEnd(key)), i) == ViewOf(s, i);
    }
  }

  /** The sessions of other keys do not see a submit end. */
  lemma SubmitEndSession(s: System, key: Key, k: Key)
    requires Inv(s) && key in s.sessions && k in s.sessions && k != key
    ensures SessionOk(Next(s, SubmitEnd(key)).store, k, s.sessions[k].copy)
  {
    assert SessionOk(s.store, key, s.sessions[key].copy) && SessionOk(s.store, k, s.sessions[k].copy);
  }

  lemma SubmitEndSessions(s: System, key: Key)
    requires Inv(s) && key in s.sessions
    ensures SessionsOk(Next(s, SubmitEnd(key)))
  {
    var s' := Next(s, SubmitEnd(key));
    assert SessionOk(s.store, key, s.sessions[key].copy);
    forall k | k in s'.sessions ensures SessionOk(s'.store, k, s'.sessions[k].copy) { SubmitEndSession(s, key, k); }
  }

  lemma SubmitEndKeeps(s: System, key: Key)
    requires Inv(s)
    ensures Inv(Next(s, SubmitEnd(key)))
  {
    if key in s.sessions {
      var s' := Next(s, SubmitEnd(key));
      assert SessionOk(s.store, key, s.sessions[key].copy);
      forall i: nat | i < |s'.store.requests| ensures Shape(ViewOf(s', i)) { ReserveShape(s, key, i); }
      SubmitEndSessions(s, key);
    }
  }

  lemma SubmitBeginSessions(s: System, id: RequestId)
    requires Inv(s)
    ensures SessionsOk(Next(s, SubmitBegin(id)))
  {
    var s' := Next(s, SubmitBegin(id));
    if Gate(s.store, id, Submit).Ok? {
      assert Shape(ViewOf(s, id));
      NoRowsIsEmpty(s.store, id);
    }
    forall k | k in s'.sessions ensures SessionOk(s'.store, k, s'.sessions[k].copy) {
      if k in s.sessions { assert SessionOk(s.store, k, s.sessions[k].copy); }
    }
  }

  lemma SubmitBeginKeeps(s: System, id: RequestId)
    requires Inv(s)
    ensures Inv(Next(s, SubmitBegin(id)))
  {
    var s' := Next(s, SubmitBegin(id));
    forall i: nat | i < |s'.store.requests| ensures Shape(ViewOf(s', i)) {
      assert ViewOf(s', i) == ViewOf(s, i);
    }
    SubmitBeginSessions(s, id);
  }

  function Approving(v: View, rowId: nat): View {
    v.(r := v.r.(status := Approved),
       msgs := v.msgs + [Message(rowId, v.r.id, Debit, DebitOf(v.r.id), v.r.key, v.r.days, Pending, 0, None)])
  }

  lemma ApprovingShape(v: View, rowId: nat)
    requires Shape(v) && v.r.status.PendingApproval?
    ensures Shape(Approving(v, rowId))
  {
  }

  lemma ApproveView(s: System, id: RequestId, i: RequestId)
    requires Numbered(s.store) && ApproveRequest(s.store, id).Ok? && i < |s.store.requests|
    ensures i < |Next(s, ApproveStep(id)).store.requests|
    ensures ViewOf(Next(s, ApproveStep(id)), i) ==
      if i == id then Approving(ViewOf(s, i), |s.store.outbox|) else ViewOf(s, i)
  {
    var r := s.store.requests[id];
    MessagesAppended(s.store, Message(|s.store.outbox|, id, Debit, DebitOf(id), r.key, r.days, Pending, 0, None), i);
  }

  lemma ApproveShape(s: System, id: RequestId, i: RequestId)
    requires Inv(s) && ApproveRequest(s.store, id).Ok? && i < |s.store.requests|
    ensures Shape(ViewOf(Next(s, ApproveStep(id)), i))
  {
    ApproveView(s, id, i);
    assert Shape(ViewOf(s, i));
    if i == id { ApprovingShape(ViewOf(s, i), |s.store.outbox|); }
  }

  /** Claimed copies still agree with their rows after rows are added. */
  lemma AppendKeepsDrain(s: System, s': System)
    requires DrainOk(s) && s'.drain == s.drain && s'.hcm == s.hcm
    requires s.store.outbox <= s'.store.outbox
    ensures DrainOk(s')
  {
  }

  lemma ApproveKeeps(s: System, id: RequestId)
    requires Inv(s)
    ensures Inv(Next(s, ApproveStep(id)))
  {
    if ApproveRequest(s.store, id).Ok? {
      var s' := Next(s, ApproveStep(id));
      forall i: nat | i < |s'.store.requests| ensures Shape(ViewOf(s', i)) { ApproveShape(s, id, i); }
      AppendKeepsDrain(s, s');
    }
  }

  function Rejecting(v: View): View {
    v.(r := v.r.(status := Rejected), rows := Update(v.rows, Release(v.r.id, LedgerPhase.Reserve)))
  }

  lemma RejectedView(s: System, st': Store, id: RequestId, i: RequestId)
    requires Numbered(s.store) && id < |s.store.requests| && i < |s.store.requests|
    requires st' == s.store.(
      requests := s.store.requests[id := s.store.requests[id].(status := Rejected)],
      ledger := Update(s.store.ledger, Release(id, LedgerPhase.Reserve)))
    ensures ViewOf(s.(store := st'), i) == if i == id then Rejecting(ViewOf(s, i)) else ViewOf(s, i)
  {
    RowsReleased(s.store, id, LedgerPhase.Reserve, i);
  }

  lemma RejectView(s: System, id: RequestId, i: RequestId)
    requires Numbered(s.store) && RejectRequest(s.store, id).Ok? && i < |s.store.requests|
    ensures i < |Next(s, RejectStep(id)).store.requests|
    ensures ViewOf(Next(s, RejectStep(id)), i) == if i == id then Rejecting(ViewOf(s, i)) else ViewOf(s, i)
  {
    RejectedView(s, RejectRequest(s.store, id).value, id, i);
  }

  lemma RejectShape(s: System, id: RequestId, i: RequestId)
    requires Inv(s) && RejectRequest(s.store, id).Ok? && i < |s.store.requests|
    ensures Shape(ViewOf(Next(s, RejectStep(id)), i))
  {
    assert Shape(ViewOf(s, i));
    RejectView(s, id, i);
  }

  lemma RejectKeepsSession(st: Store, id: RequestId, k: Key, copy: Request)
    requires SessionOk(st, k, copy) && RejectRequest(st, id).Ok?
    ensures SessionOk(RejectRequest(st, id).value, k, copy)
  {
  }

  lemma RejectKeepsSessions(s: System, id: RequestId)
    requires Inv(s)
    ensures SessionsOk(Next(s, RejectStep(id)))
  {
    var s' := Next(s, RejectStep(id));
    forall k | k in s'.sessions ensures SessionOk(s'.store, k, s'.sessions[k].copy) {
      assert SessionOk(s.store, k, s.sessions[k].copy);
      if RejectRequest(s.store, id).Ok? { RejectKeepsSession(s.store, id, k, s.sessions[k].copy); }
    }
  }

  lemma RejectKeeps(s: System, id: RequestId)
    requires Inv(s)
    ensures Inv(Next(s, RejectStep(id)))
  {
    if RejectRequest(s.store, id).Ok? {
      var s' := Next(s, RejectStep(id));
      RejectKeepsSessions(s, id);
      forall i: nat | i < |s'.store.requests| ensures Shape(ViewOf(s', i)) { RejectShape(s, id, i); }
    }
  }

  function CreditMessage(rowId: nat, r: Request): Message {
    Message(rowId, r.id, Credit, CreditOf(r.id), r.key, r.days, Pending, 0, None)
  }

  /** A cancel, seen from the request: refund if committed, otherwise release and stop what is queued. */
  function Cancelling(v: View, rowId: nat): View {
    if v.r.status.Committed? then
      v.(r := v.r.(status := CancellationPending), msgs := v.msgs + [CreditMessage(rowId, v.r)])
    else
      v.(r := v.r.(status := Cancelled),
         rows := Update(v.rows, Release(v.r.id, LedgerPhase.Reserve)),
         msgs := if v.r.status.Approved? then Update(v.msgs, StopQueued(v.r.id)) else v.msgs)
  }

  lemma CancellingUnsubmitted(v: View, rowId: nat)
    requires Shape(v) && (v.r.status.Draft? || v.r.status.PendingApproval?)
    ensures Shape(Cancelling(v, rowId))
  {
  }

  lemma CancellingApproved(v: View, rowId: nat)
    requires Shape(v) && v.r.status.Approved?
    ensures Shape(Cancelling(v, rowId))
  {
  }

  lemma CancellingCommitted(v: View, rowId: nat)
    requires Shape(v) && v.r.status.Committed?
    ensures Shape(Cancelling(v, rowId))
  {
  }

  lemma CancelViewEarly(s: System, st': Store, id: RequestId, i: RequestId)
    requires Numbered(s.store) && id < |s.store.requests| && i < |s.store.requests|
    requires var r := s.store.requests[id];
      && !r.status.Committed?
      && st' == s.store.(
           requests := s.store.requests[id := r.(status := Cancelled)],
           ledger := Update(s.store.ledger, Release(id, LedgerPhase.Reserve)),
           outbox := if r.status.Approved? then Update(s.store.outbox, StopQueued(id)) else s.store.outbox)
    ensures ViewOf(s.(store := st'), i) ==
      if i == id then Cancelling(ViewOf(s, i), |s.store.outbox|) else ViewOf(s, i)
  {
    RowsReleased(s.store, id, LedgerPhase.Reserve, i);
    if s.store.requests[id].status.Approved? { MessagesStopped(s.store, id, i); }
  }

  lemma CancelView(s: System, id: RequestId, i: RequestId)
    requires Numbered(s.store) && CancelRequest(s.store, id).Ok? && i < |s.store.requests|
    ensures ViewOf(WithStore(s, CancelRequest(s.store, id)), i) ==
      if i == id then Cancelling(ViewOf(s, i), |s.store.outbox|) else ViewOf(s, i)
  {
    if s.store.requests[id].status.Committed? {
      MessagesAppended(s.store, CreditMessage(|s.store.outbox|, s.store.requests[id]), i);
    } else {
      CancelViewEarly(s, CancelRequest(s.store, id).value, id, i);
    }
  }

  lemma CancelShape(s: System, id: RequestId, i: RequestId)
    requires Inv(s) && CancelRequest(s.store, id).Ok? && i < |s.store.requests|
    ensures Shape(ViewOf(WithStore(s, CancelRequest(s.store, id)), i))
  {
    CancelView(s, id, i);
    var v := ViewOf(s, i);
    assert Shape(v);
    if i == id {
      if v.r.status.Committed? {
        CancellingCommitted(v, |s.store.outbox|);
      } else if v.r.status.Approved? {
        CancellingApproved(v, |s.store.outbox|);
      } else {
        CancellingUnsubmitted(v, |s.store.outbox|);
      }
    }
  }

  /** A pre-commit cancel does not touch what is in flight. */
  lemma CancelKeepsDrain(s: System, id: RequestId)
    requires Inv(s) && CancelRequest(s.store, id).Ok? && !s.store.requests[id].status.Committed?
    ensures DrainOk(WithStore(s, CancelRequest(s.store, id)))
  {
  }

  lemma CancelKeepsNumbers(s: System, id: RequestId)
    requires Inv(s) && CancelRequest(s.store, id).Ok?
    ensures Numbered(CancelRequest(s.store, id).value)
  {
  }

  lemma CancelKeepsSession(st: Store, id: RequestId, k: Key, copy: Request)
    requires SessionOk(st, k, copy) && CancelRequest(st, id).Ok?
    ensures SessionOk(CancelRequest(st, id).value, k, copy)
  {
  }

  lemma CancelKeepsSessions(s: System, id: RequestId)
    requires Inv(s)
    ensures SessionsOk(Next(s, CancelStep(id)))
  {
    var s' := Next(s, CancelStep(id));
    forall k | k in s'.sessions ensures SessionOk(s'.store, k, s'.sessions[k].copy) {
      assert SessionOk(s.store, k, s.sessions[k].copy);
      if CancelRequest(s.store, id).Ok? { CancelKeepsSession(s.store, id, k, s.sessions[k].copy); }
    }
  }

  lemma CancelKeeps(s: System, id: RequestId)
    requires Inv(s)
    ensures Inv(Next(s, CancelStep(id)))
  {
    if CancelRequest(s.store, id).Ok? {
      var s' := Next(s, CancelStep(id));
      CancelKeepsNumbers(s, id);
      CancelKeepsSessions(s, id);
      forall i: nat | i < |s'.store.requests| ensures Shape(ViewOf(s', i)) { CancelShape(s, id, i); }
      if s.store.requests[id].status.Committed? {
        AppendKeepsDrain(s, s');
      } else {
        CancelKeepsDrain(s, id);
      }
    }
  }

  /** The steps that write no request. */
  lemma RequestsUntouched(s: System, step: Step)
    requires !step.CreateStep? && !step.SubmitEnd? && !step.ApproveStep? && !step.RejectStep?
    requires !step.CancelStep? && !step.SettleStep?
    ensures Next(s, step).store.requests == s.store.requests
  {
    match step
    case ReconcileStep(_, _) =>
    case _ =>
  }

  /** A request that is neither pending nor can be cancelled is out of reach of people. */
  lemma OutOfReach(s: System, step: Step, i: RequestId)
    requires step.ApproveStep? || step.RejectStep? || step.CancelStep?
    requires i < |s.store.requests|
    requires var status := s.store.requests[i].status;
      !status.PendingApproval? && NextState(status, Cancel).None?
    ensures i < |Next(s, step).store.requests| && Next(s, step).store.requests[i] == s.store.requests[i]
  {
  }

  /** The steps that write no ledger row. */
  lemma LedgerUntouched(s: System, step: Step)
    requires !step.SubmitEnd? && !step.RejectStep? && !step.CancelStep? && !step.SettleStep? && !step.ReconcileStep?
    ensures Next(s, step).store.ledger == s.store.ledger
  {
    match step
    case _ =>
  }

  /** The steps that write no balance. */
  lemma BalancesUntouched(s: System, step: Step)
    requires !step.LoadStep? && !step.SettleStep? && !step.ReconcileStep?
    ensures Next(s, step).store.balances == s.store.balances
  {
    match step
    case _ =>
  }
}
