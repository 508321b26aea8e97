/** Delivering claimed messages to HCM and applying the outcome. */
module OutboxProcessor {
  import opened Domain
  import opened StateMachine
  import opened Balances
  import opened Outbox
  import opened HcmCore

  /** The transport: the call arrives and is answered, is applied but its answer is lost, or never arrives. */
  datatype Wire = Delivered | ReplyLost | NotSent

  function CommandOf(m: Message): Command {
    Command(m.key, m.amount, m.direction, m.idempotencyKey)
  }

  /** One call over the wire: the authority afterwards, and what the caller sees. */
  function Exchange(h: Hcm, c: Command, wire: Wire): (Hcm, Reply) {
    match wire
    case Delivered => ApplyDelta(h, c)
    case ReplyLost => (ApplyDelta(h, c).0, Unavailable)
    case NotSent => (h, Unavailable)
  }

  /** Move the request along if the table allows it; the reference is stored with a commit. */
  function Advance(st: Store, id: RequestId, action: RequestAction, hcmRef: Option<nat>): Store
    requires id < |st.requests|
  {
    var r := st.requests[id];
    match NextState(r.status, action)
    case None => st
    case Some(to) => st.(requests := st.requests[id := r.(status := to, hcmRef := hcmRef)])
  }

  function RecordDrift(st: Store, key: Key): Store {
    st.(events := st.events + [Event(DriftDetected, key, 0)])
  }

  function SettleSuccess(st: Store, m: Message, ack: Ack): Store {
    if m.requestId >= |st.requests| then MarkDone(st, m.id)
    else
      var r := st.requests[m.requestId];
      if m.direction.Debit? then
        var committed := CommitReservation(st, m.requestId, r.key, m.amount, Some(ack.version));
        var advanced := Advance(committed, m.requestId, HcmCommitted, Some(ack.hcmRef));
        MarkDone(if ack.applied then advanced else RecordDrift(advanced, r.key), m.id)
      else
        var released := ReleaseCommit(st, m.requestId);
        MarkDone(Advance(released, m.requestId, HcmCreditDone, r.hcmRef), m.id)
  }

  function SettleRejection(st: Store, m: Message): Store {
    if m.requestId < |st.requests| && m.direction.Debit? then
      var released := ReleaseReservation(st, m.requestId);
      MarkRejected(Advance(released, m.requestId, HcmRejected, st.requests[m.requestId].hcmRef), m.id)
    else MarkRejected(st, m.id)
  }

  function Settle(st: Store, m: Message, reply: Reply, now: int): Store {
    match reply
    case Acked(ack, _) => SettleSuccess(st, m, ack)
    case Refused(_) => SettleRejection(st, m)
    case Unavailable => MarkRetryOrDead(st, m, now)
  }

  // ---- What each outcome leaves --------------------------------------------

  /** The row of the message delivered: done, buried by a refusal, or failed once more; no other row changes. */
  lemma SettledMessage(st: Store, m: Message, reply: Reply, now: int)
    requires forall i :: 0 <= i < |st.outbox| ==> st.outbox[i].id == i
    ensures var outbox' := Settle(st, m, reply, now).outbox;
      && |outbox'| == |st.outbox|
      && (forall i :: 0 <= i < |st.outbox| && i != m.id ==> outbox'[i] == st.outbox[i])
      && (m.id < |st.outbox| ==>
            match reply
            case Acked(_, _) => outbox'[m.id] == st.outbox[m.id].(status := Done)
            case Refused(_) => outbox'[m.id] == st.outbox[m.id].(status := Dead)
            case Unavailable => FailedAt(st.outbox[m.id], outbox'[m.id], m.attempts + 1, now))
  {
    if reply.Unavailable? { RetryExactly(st, m, now); }
  }

  /**
   * The request: an acknowledged debit commits an approved one under HCM's reference, an acknowledged
   * credit cancels one that waits for it, a refused debit fails an approved one. Nothing else moves.
   */
  lemma SettledRequest(st: Store, m: Message, reply: Reply, now: int)
    ensures var requests' := Settle(st, m, reply, now).requests;
      if m.requestId >= |st.requests| then requests' == st.requests
      else
        var r := st.requests[m.requestId];
        requests' == st.requests[m.requestId :=
          if reply.Acked? && m.direction.Debit? && r.status.Approved? then
            r.(status := Committed, hcmRef := Some(reply.ack.hcmRef))
          else if reply.Acked? && m.direction.Credit? && r.status.CancellationPending? then r.(status := Cancelled)
          else if reply.Refused? && m.direction.Debit? && r.status.Approved? then r.(status := Failed)
          else r]
  {
  }

  /** The ledger: an acknowledged debit turns the hold into a commit; a refund releases it, a refusal the hold. */
  lemma SettledLedger(st: Store, m: Message, reply: Reply, now: int)
    ensures var ledger', id := Settle(st, m, reply, now).ledger, m.requestId;
      if id >= |st.requests| || reply.Unavailable? || (reply.Refused? && m.direction.Credit?) then ledger' == st.ledger
      else if reply.Refused? then Freed(st.ledger, ledger', id, LedgerPhase.Reserve)
      else if m.direction.Credit? then Freed(st.ledger, ledger', id, LedgerPhase.Commit)
      else
        var n := |st.ledger|;
        && |ledger'| == n + 1 && Freed(st.ledger, ledger'[..n], id, LedgerPhase.Reserve)
        && ledger'[n] == LedgerRow(n, id, st.requests[id].key, m.amount, LedgerPhase.Commit, Active,
                                   Some(reply.ack.version))
    ensures Settle(st, m, reply, now).balances == st.balances
  {
  }

  /** A success HCM only claimed is the one outcome that logs drift. */
  lemma DriftIsLogged(st: Store, m: Message, reply: Reply, now: int)
    ensures Settle(st, m, reply, now).events ==
      if reply.Acked? && !reply.ack.applied && m.direction.Debit? && m.requestId < |st.requests| then
        st.events + [Event(DriftDetected, st.requests[m.requestId].key, 0)]
      else st.events
  {
  }

  /** Store and authority after the first `n` messages of a claim were delivered and settled in turn. */
  function DeliverFirst(st: Store, h: Hcm, queue: seq<Message>, n: nat, wire: nat -> Wire, clock: nat -> int)
    : (Store, Hcm)
    requires n <= |queue|
  {
    if n == 0 then (st, h)
    else
      var (st, h) := DeliverFirst(st, h, queue, n - 1, wire, clock);
      var (h', reply) := Exchange(h, CommandOf(queue[n - 1]), wire(n - 1));
      (Settle(st, queue[n - 1], reply, clock(n)), h')
  }

  class Processor {
    const db: Database
    const hcm: Engine
    const balances: BalanceService
    const outbox: OutboxService
    var draining: bool

    ghost predicate Wired() {
      balances.db == db && outbox.db == db && balances.hcm == hcm
    }

    constructor (balances: BalanceService, outbox: OutboxService)
      requires outbox.db == balances.db
      ensures Wired() && this.balances == balances && this.outbox == outbox && !draining
    {
      db := balances.db;
      hcm := balances.hcm;
      this.balances := balances;
      this.outbox := outbox;
      draining := false;
    }

    method ApplySuccess(m: Message, ack: Ack)
      requires Wired()
      modifies db
      ensures db.Contents() == SettleSuccess(old(db.Contents()), m, ack)
    {
      if m.requestId >= |db.requests| {
        outbox.Complete(m.id);
        return;
      }
      var request := db.requests[m.requestId];
      if m.direction.Debit? {
        balances.CommitHold(m.requestId, request.key, m.amount, Some(ack.version));
        var to := NextState(request.status, HcmCommitted);
        if to.Some? {
          db.requests := db.requests[m.requestId := request.(status := to.value, hcmRef := Some(ack.hcmRef))];
        }
        if !ack.applied {
          db.events := db.events + [Event(DriftDetected, request.key, 0)];
        }
      } else {
        balances.Uncommit(m.requestId);
        var to := NextState(request.status, HcmCreditDone);
        if to.Some? {
          db.requests := db.requests[m.requestId := request.(status := to.value)];
        }
      }
      outbox.Complete(m.id);
    }

    method ApplyRejection(m: Message)
      requires Wired()
      modifies db
      ensures db.Contents() == SettleRejection(old(db.Contents()), m)
    {
      if m.requestId < |db.requests| && m.direction.Debit? {
        balances.Unreserve(m.requestId);
        var request := db.requests[m.requestId];
        var to := NextState(request.status, HcmRejected);
        if to.Some? {
          db.requests := db.requests[m.requestId := request.(status := to.value)];
        }
      }
      outbox.Bury(m.id);
    }

    method Deliver(m: Message, wire: Wire, now: int)
      requires Wired() && hcm.Valid()
      modifies db, hcm
      ensures hcm.Valid()
      ensures var (h, reply) := Exchange(old(hcm.View()), CommandOf(m), wire);
        hcm.View() == h && db.Contents() == Settle(old(db.Contents()), m, reply, now)
    {
      var reply := Unavailable;
      if !wire.NotSent? {
        var answer := hcm.Apply(CommandOf(m));
        if wire.Delivered? { reply := answer; }
      }
      match reply {
        case Acked(ack, _) => ApplySuccess(m, ack);
        case Refused(_) => ApplyRejection(m);
        case Unavailable => var _ := outbox.RetryOrBury(m, now);
      }
    }

    /**
     * Process everything due once. A second call while one is running does nothing.
     * `wire(i)` is what happens to the i-th call, `clock(0)` the time of the claim and
     * `clock(i + 1)` the time at which the i-th outcome is settled.
     */
    method DrainOnce(wire: nat -> Wire, clock: nat -> int) returns (processed: nat)
      requires Wired() && hcm.Valid()
      modifies this`draining, db, hcm
      ensures hcm.Valid() && draining == old(draining)
      ensures old(draining) ==> processed == 0 && unchanged(db) && unchanged(hcm)
      ensures !old(draining) ==>
        var (st, due) := ClaimDue(old(db.Contents()), clock(0), CLAIM_LIMIT);
        && processed == |due|
        && (db.Contents(), hcm.View()) == DeliverFirst(st, old(hcm.View()), due, |due|, wire, clock)
    {
      if draining { return 0; }
      draining := true;
      var due := outbox.Claim(clock(0));
      ghost var st, h := db.Contents(), hcm.View();
      processed := 0;
      while processed < |due|
        invariant 0 <= processed <= |due| && hcm.Valid()
        invariant (db.Contents(), hcm.View()) == DeliverFirst(st, h, due, processed, wire, clock)
      {
        Deliver(due[processed], wire(processed), clock(processed + 1));
        processed := processed + 1;
      }
      draining := false;
    }
  }
}
