/**
 * One request's share of the system: its rows, its messages, what HCM has acknowledged for it and
 * the watermark of its key. `Shape` lists the combinations that occur, status by status.
 */
module Views {
  import opened Domain
  import opened Tables
  import opened Sync
  import opened HcmCore
  import opened Protocol

  datatype View = View(
    r: Request,
    rows: seq<LedgerRow>,
    msgs: seq<Message>,
    debit: Option<Ack>,
    credit: Option<Ack>,
    watermark: Option<nat>)

  function OfRequest(id: RequestId): LedgerRow -> bool { (r: LedgerRow) => r.requestId == id }

  function ForRequest(id: RequestId): Message -> bool { (m: Message) => m.requestId == id }

  function Rows(st: Store, id: RequestId): seq<LedgerRow> { Select(st.ledger, OfRequest(id)) }

  function Messages(st: Store, id: RequestId): seq<Message> { Select(st.outbox, ForRequest(id)) }

  function AckOf(h: Hcm, id: IdempotencyKey): Option<Ack> {
    if id in h.applied then Some(h.applied[id]) else None
  }

  function Watermark(st: Store, k: Key): Option<nat> {
    if k in st.balances then Some(st.balances[k].lastReconciledVersion) else None
  }

  function ViewOf(s: System, i: RequestId): View
    requires i < |s.store.requests|
  {
    View(s.store.requests[i], Rows(s.store, i), Messages(s.store, i),
         AckOf(s.hcm, DebitOf(i)), AckOf(s.hcm, CreditOf(i)), Watermark(s.store, s.store.requests[i].key))
  }

  // ---- Shapes --------------------------------------------------------------

  ghost predicate Unspent(v: View) { v.debit.None? && v.credit.None? }

  /** The first row is the hold, of the request's days. */
  ghost predicate HoldIs(v: View, state: LedgerState) {
    && |v.rows| >= 1 && v.r.days > 0 && v.watermark.Some?
    && v.rows[0].(id := 0) == LedgerRow(0, v.r.id, v.r.key, v.r.days, Reserve, state, None)
  }

  ghost predicate OnlyHold(v: View, state: LedgerState) { |v.rows| == 1 && HoldIs(v, state) }

  /** A released hold and one commit of the request's days, stamped with the version HCM acknowledged. */
  ghost predicate HasCommit(v: View) {
    && |v.rows| == 2 && HoldIs(v, Released) && v.debit.Some?
    && v.rows[1].(id := 0, state := Active)
         == LedgerRow(0, v.r.id, v.r.key, v.r.days, Commit, Active, Some(v.debit.value.version))
    && (v.rows[1].state.Reconciled? ==> v.debit.value.version <= v.watermark.value)
  }

  /** A message of this request, with attempts as the retry policy allows. */
  ghost predicate MessageIs(v: View, m: Message, direction: Direction) {
    && m.requestId == v.r.id && m.direction == direction && m.key == v.r.key && m.amount == v.r.days
    && m.idempotencyKey == (if direction.Debit? then DebitOf(v.r.id) else CreditOf(v.r.id))
    && m.attempts <= (if m.status.Dead? then MAX_ATTEMPTS else MAX_ATTEMPTS - 1)
    && (m.status.Pending? ==> m.attempts == 0)
    && (m.status.Retrying? ==> m.attempts >= 1 && m.nextAttemptAt.Some?)
  }

  ghost predicate OnlyDebit(v: View) { |v.msgs| == 1 && MessageIs(v, v.msgs[0], Debit) }

  ghost predicate DebitThenCredit(v: View) {
    && |v.msgs| == 2 && MessageIs(v, v.msgs[0], Debit) && MessageIs(v, v.msgs[1], Credit)
    && v.msgs[0].status.Done?
    && (v.msgs[1].status.Pending? ==> v.credit.None?)
  }

  ghost predicate CancelledShape(v: View) {
    || (v.rows == [] && v.msgs == [] && Unspent(v))
    || (OnlyHold(v, Released) && v.msgs == [] && Unspent(v))
    // stopped, or in flight when the cancel came
    || (OnlyHold(v, Released) && OnlyDebit(v) && v.credit.None?
        && (v.msgs[0].status.Inflight? || v.msgs[0].status.Retrying? || v.msgs[0].status.Dead?))
    // the orphan: acknowledged after the cancel
    || (HasCommit(v) && !v.rows[1].state.Released? && OnlyDebit(v) && v.msgs[0].status.Done? && v.credit.None?)
    // refunded
    || (HasCommit(v) && !v.rows[1].state.Active? && DebitThenCredit(v) && v.msgs[1].status.Done? && v.credit.Some?)
  }

  ghost predicate StatusShape(v: View) {
    match v.r.status
    case Draft => v.rows == [] && v.msgs == [] && Unspent(v)
    case PendingApproval => OnlyHold(v, Active) && v.msgs == [] && Unspent(v)
    case Rejected => OnlyHold(v, Released) && v.msgs == [] && Unspent(v)
    case Approved =>
      OnlyHold(v, Active) && OnlyDebit(v) && !v.msgs[0].status.Done? && v.credit.None?
      && (v.msgs[0].status.Pending? ==> v.debit.None?)
    case Failed => OnlyHold(v, Released) && OnlyDebit(v) && v.msgs[0].status.Dead? && Unspent(v)
    case Committed =>
      HasCommit(v) && !v.rows[1].state.Released? && OnlyDebit(v) && v.msgs[0].status.Done? && v.credit.None?
    case CancellationPending =>
      HasCommit(v) && !v.rows[1].state.Released? && DebitThenCredit(v) && !v.msgs[1].status.Done?
    case Cancelled => CancelledShape(v)
  }

  /** A refund is written after the debit it refunds. */
  ghost predicate RefundIsLater(v: View) {
    v.debit.Some? && v.credit.Some? && v.debit.value.applied && v.credit.value.applied ==>
      v.debit.value.version < v.credit.value.version
  }

  /** A request carries HCM's reference of its debit once that has committed it, and none before. */
  ghost predicate ReferenceIs(v: View) {
    if v.r.status.Committed? || v.r.status.CancellationPending? || (v.r.status.Cancelled? && |v.msgs| == 2) then
      v.debit.Some? && v.r.hcmRef == Some(v.debit.value.hcmRef)
    else v.r.hcmRef == None
  }

  ghost predicate Shape(v: View) { StatusShape(v) && RefundIsLater(v) && ReferenceIs(v) }

  // ---- The invariant -------------------------------------------------------

  /** Row numbers are positions, and rows and messages belong to existing requests. */
  ghost predicate Numbered(st: Store) {
    && (forall i :: 0 <= i < |st.requests| ==> st.requests[i].id == i)
    && LedgerNumbered(st.ledger)
    && (forall i :: 0 <= i < |st.ledger| ==> st.ledger[i].requestId < |st.requests|)
    && (forall i :: 0 <= i < |st.outbox| ==> st.outbox[i].id == i && st.outbox[i].requestId < |st.requests|)
  }

  ghost predicate Shapes(s: System) {
    forall i: nat {:trigger ViewOf(s, i)} :: i < |s.store.requests| ==> Shape(ViewOf(s, i))
  }

  /** The command a service key stands for. */
  function ServiceCommand(r: Request, direction: Direction): Command {
    Command(r.key, r.days, direction, if direction.Debit? then DebitOf(r.id) else CreditOf(r.id))
  }

  ghost predicate ServiceCommands(requests: seq<Request>, h: Hcm) {
    && (forall i: nat {:trigger DebitOf(i)} :: DebitOf(i) in h.commands ==>
          i < |requests| && h.commands[DebitOf(i)] == ServiceCommand(requests[i], Debit))
    && (forall i: nat {:trigger CreditOf(i)} :: CreditOf(i) in h.commands ==>
          i < |requests| && h.commands[CreditOf(i)] == ServiceCommand(requests[i], Credit))
  }

  /** Every cached balance is a snapshot HCM really had, at the version it is cached under. */
  ghost predicate Coherent(balances: map<Key, Balance>, h: Hcm) {
    forall k :: k in balances ==>
      && 1 <= balances[k].lastReconciledVersion <= Version(h, k)
      && balances[k].hcmBalance == BalanceAt(h, k, balances[k].lastReconciledVersion)
  }

  /** A claimed copy agrees with the row in flight; claiming cleared the row's next attempt. */
  ghost predicate ClaimedCopy(outbox: seq<Message>, m: Message) {
    m.id < |outbox| && m.status.Inflight? && outbox[m.id] == m.(nextAttemptAt := None)
  }

  ghost predicate DrainOk(s: System) {
    s.drain.Draining? ==>
      var q, reply := s.drain.queue, s.drain.reply;
      && q != []
      && (forall i :: 0 <= i < |q| ==> ClaimedCopy(s.store.outbox, q[i]))
      && (forall i, j :: 0 <= i < j < |q| ==> q[i].id < q[j].id)
      && (reply.Some? && reply.value.Acked? ==> AckOf(s.hcm, q[0].idempotencyKey) == Some(reply.value.ack))
      && (reply.Some? && reply.value.Refused? ==> AckOf(s.hcm, q[0].idempotencyKey) == None)
  }

  ghost predicate NoRows(ledger: seq<LedgerRow>, id: RequestId) {
    forall j :: 0 <= j < |ledger| ==> ledger[j].requestId != id
  }

  /** The copy a submit holds is a draft of its key; since it was read at most a cancel has come. */
  ghost predicate SessionOk(st: Store, k: Key, copy: Request) {
    && k in st.balances && copy.id < |st.requests| && copy.key == k && copy.status.Draft? && copy.hcmRef.None?
    && (st.requests[copy.id] == copy || st.requests[copy.id] == copy.(status := Cancelled))
    && NoRows(st.ledger, copy.id)
  }

  ghost predicate SessionsOk(s: System) {
    forall k {:trigger s.sessions[k]} :: k in s.sessions ==> SessionOk(s.store, k, s.sessions[k].copy)
  }

  ghost predicate Inv(s: System) {
    && Numbered(s.store)
    && Shapes(s)
    && HcmOk(s.hcm)
    && ServiceCommands(s.store.requests, s.hcm)
    && Coherent(s.store.balances, s.hcm)
    && DrainOk(s)
    && SessionsOk(s)
  }
}
