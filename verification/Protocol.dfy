/**
 * The whole system as a transition system: the database, HCM, the delivery in progress and the
 * submits inside their critical section. Every transaction is one step; a delivery is three steps
 * (claim, exchange with HCM, settle) and a submit two (read under the key's lock, check and
 * reserve), so that any other step may fall between them.
 *
 * `Next` is total: a step that cannot be taken (an illegal transition, a drain while one is
 * running, a lock that is held) leaves the system as it is. So every list of steps is a run.
 */
module Protocol {
  import opened Domain
  import opened BalanceMath
  import opened Balances
  import opened Outbox
  import opened TimeOff
  import opened Sync
  import opened HcmCore
  import opened OutboxProcessor

  /** The claimed copies still to be delivered, and HCM's reply to the first once it is in. */
  datatype Drain = Idle | Draining(queue: seq<Message>, reply: Option<Reply>)

  /**
   * A submit inside its critical section, with the request and the components it read; its save
   * writes that copy back. `orphaned` is accounting for the proofs: the days of orphan debits
   * settled on the key since the read.
   */
  datatype Session = Session(copy: Request, read: BalanceComponents, orphaned: int)

  datatype System = System(store: Store, hcm: Hcm, drain: Drain, sessions: map<Key, Session>)

  const INITIAL := System(Store([], [], [], map[], []), EMPTY_HCM, Idle, map[])

  datatype Step =
    | CreateStep(key: Key, days: int)
    | LoadStep(key: Key, version: nat)        // a snapshot fetched at some earlier moment
    | SubmitBegin(id: RequestId)
    | SubmitEnd(key: Key)
    | ApproveStep(id: RequestId)
    | RejectStep(id: RequestId)
    | CancelStep(id: RequestId)
    | ClaimStep(now: int)
    | ExchangeStep(wire: Wire)
    | SettleStep(now: int)
    | CrashStep                               // the drain dies; what it had claimed stays in flight
    | ReconcileStep(key: Key, version: nat)   // any snapshot HCM ever had, old or repeated
    | HcmStep(call: Call)                     // anything other clients or operators do at HCM

  /** Other callers of HCM do not use this service's idempotency keys. */
  predicate IsForeign(call: Call) {
    call.ApplyCall? ==> call.command.idempotencyKey.Foreign?
  }

  function WithStore(s: System, result: Result<Store>): System {
    s.(store := OrUnchanged(result, s.store))
  }

  /** The request being submitted under the lock of `key`. */
  predicate InSession(s: System, id: RequestId) {
    id < |s.store.requests| && s.store.requests[id].key in s.sessions
    && s.sessions[s.store.requests[id].key].copy.id == id
  }

  function BeginSubmit(s: System, id: RequestId): System {
    match Gate(s.store, id, Submit)
    case Err(_) => s
    case Ok(r) =>
      if r.key in s.sessions || r.key !in s.store.balances then s
      else s.(sessions := s.sessions[r.key := Session(r, Components(s.store, r.key), 0)])
  }

  function EndSubmit(s: System, key: Key): System {
    if key !in s.sessions || s.sessions[key].copy.id >= |s.store.requests| then s
    else
      var copy := s.sessions[key].copy;
      WithStore(s, CheckAndReserve(s.store, copy.id, copy, s.sessions[key].read)).(sessions := s.sessions - {key})
  }

  function Claim(s: System, now: int): System {
    if s.drain.Draining? then s
    else
      var (st, due) := ClaimDue(s.store, now, CLAIM_LIMIT);
      if due == [] then s else s.(store := st, drain := Draining(due, None))
  }

  function DoExchange(s: System, wire: Wire): System {
    if s.drain.Idle? || s.drain.queue == [] || s.drain.reply.Some? then s
    else
      var (h, reply) := Exchange(s.hcm, CommandOf(s.drain.queue[0]), wire);
      s.(hcm := h, drain := s.drain.(reply := Some(reply)))
  }

  /** A debit acknowledged after its request was cancelled. */
  predicate IsOrphanAck(st: Store, m: Message, reply: Reply) {
    reply.Acked? && m.direction.Debit? && m.requestId < |st.requests| && st.requests[m.requestId].status.Cancelled?
  }

  function AfterHead(queue: seq<Message>): Drain
    requires queue != []
  {
    if |queue| == 1 then Idle else Draining(queue[1..], None)
  }

  function ChargeSession(sessions: map<Key, Session>, key: Key, amount: int): map<Key, Session> {
    if key in sessions then
      sessions[key := sessions[key].(orphaned := sessions[key].orphaned + amount)]
    else sessions
  }

  function DoSettle(s: System, now: int): System {
    if s.drain.Idle? || s.drain.queue == [] || s.drain.reply.None? then s
    else
      var m, reply := s.drain.queue[0], s.drain.reply.value;
      System(Settle(s.store, m, reply, now), s.hcm, AfterHead(s.drain.queue),
             if IsOrphanAck(s.store, m, reply) then ChargeSession(s.sessions, m.key, m.amount) else s.sessions)
  }

  /** A genuine snapshot: a balance HCM really had, under its version. */
  function SnapshotAt(h: Hcm, k: Key, version: nat): BalanceUpdate
    requires version <= Version(h, k)
  {
    BalanceUpdate(k, BalanceAt(h, k, version), version)
  }

  function DoReconcile(s: System, key: Key, version: nat): System {
    if key in s.sessions || version > Version(s.hcm, key) then s
    else s.(store := ReconcileKey(s.store, SnapshotAt(s.hcm, key, version)).0)
  }

  function DoLoad(s: System, key: Key, version: nat): System {
    if version == 0 || version > Version(s.hcm, key) then s
    else s.(store := InsertOrIgnore(s.store, key, Balance(BalanceAt(s.hcm, key, version), version)))
  }

  function Next(s: System, step: Step): System {
    match step
    case CreateStep(key, days) => s.(store := Create(s.store, key, days))
    case LoadStep(key, version) => DoLoad(s, key, version)
    case SubmitBegin(id) => BeginSubmit(s, id)
    case SubmitEnd(key) => EndSubmit(s, key)
    case ApproveStep(id) => WithStore(s, ApproveRequest(s.store, id))
    case RejectStep(id) => WithStore(s, RejectRequest(s.store, id))
    case CancelStep(id) => WithStore(s, CancelRequest(s.store, id))
    case ClaimStep(now) => Claim(s, now)
    case ExchangeStep(wire) => DoExchange(s, wire)
    case SettleStep(now) => DoSettle(s, now)
    case CrashStep => s.(drain := Idle)
    case ReconcileStep(key, version) => DoReconcile(s, key, version)
    case HcmStep(call) => if IsForeign(call) then s.(hcm := Perform(s.hcm, call)) else s
  }

  function Run(s: System, steps: seq<Step>): System {
    if steps == [] then s else Next(Run(s, steps[..|steps| - 1]), steps[|steps| - 1])
  }
}
