/** The three steps of a delivery, reconciliation and HCM's own steps keep the invariant. */
module DeliverySteps {
  import opened Domain
  import opened Tables
  import opened StateMachine
  import opened Balances
  import opened Outbox
  import opened Sync
  import opened HcmCore
  import opened OutboxProcessor
  import opened Protocol
  import opened Views
  import opened StoreSteps

  // ---- Claim ---------------------------------------------------------------

  function MessageId(): Message -> nat { (m: Message) => m.id }

  /** Only due rows are claimed. */
  lemma ClaimedAreDue(st: Store, now: int, limit: nat, m: Message)
    requires Numbered(st) && m in st.outbox && m.id in Ids(Due(st.outbox, now, limit))
    ensures IsDue(m, now)
  {
  }

  lemma DueIsOrdered(st: Store, now: int, limit: nat)
    requires Numbered(st)
    ensures var due := Due(st.outbox, now, limit);
      forall i, j :: 0 <= i < j < |due| ==> due[i].id < due[j].id
  {
    SelectOrdered(st.outbox, DueAt(now), MessageId());
  }

  function Claiming(v: View, ids: set<nat>): View {
    v.(msgs := Update(v.msgs, ClaimIds(ids)))
  }

  lemma ClaimingShape(v: View, ids: set<nat>)
    requires Shape(v)
    requires forall j :: 0 <= j < |v.msgs| && v.msgs[j].id in ids ==>
      v.msgs[j].status.Pending? || v.msgs[j].status.Retrying?
    ensures Shape(Claiming(v, ids))
  {
  }

  lemma ClaimShape(s: System, now: int, i: RequestId)
    requires Inv(s) && s.drain.Idle? && i < |s.store.requests|
    ensures Shape(ViewOf(Claim(s, now), i))
  {
    var v := ViewOf(s, i);
    assert Shape(v);
    var ids := Ids(Due(s.store.outbox, now, CLAIM_LIMIT));
    MessagesClaimed(s.store, ids, i);
    forall j | 0 <= j < |v.msgs| && v.msgs[j].id in ids
      ensures v.msgs[j].status.Pending? || v.msgs[j].status.Retrying?
    {
      assert v.msgs[j] in v.msgs;
      ClaimedAreDue(s.store, now, CLAIM_LIMIT, v.msgs[j]);
    }
    ClaimingShape(v, ids);
    if Due(s.store.outbox, now, CLAIM_LIMIT) != [] {
      assert ViewOf(Claim(s, now), i) == Claiming(v, ids);
    }
  }

  lemma ClaimDrain(s: System, now: int)
    requires Inv(s) && s.drain.Idle?
    ensures DrainOk(Claim(s, now))
  {
    var due := Due(s.store.outbox, now, CLAIM_LIMIT);
    var s' := Claim(s, now);
    if due != [] {
      DueIsOrdered(s.store, now, CLAIM_LIMIT);
      forall i | 0 <= i < |due| ensures ClaimedCopy(s'.store.outbox, s'.drain.queue[i]) {
        assert due[i] in due;
        var n :| 0 <= n < |s.store.outbox| && s.store.outbox[n] == due[i];
        assert n == due[i].id && n in Ids(due);
      }
    }
  }

  lemma ClaimKeeps(s: System, now: int)
    requires Inv(s)
    ensures Inv(Next(s, ClaimStep(now)))
  {
    if s.drain.Idle? {
      var s' := Claim(s, now);
      forall i: nat | i < |s'.store.requests| ensures Shape(ViewOf(s', i)) { ClaimShape(s, now, i); }
      ClaimDrain(s, now);
    }
  }

  lemma ClaimResult(s: System, now: int)
    requires s.drain.Idle? && Due(s.store.outbox, now, CLAIM_LIMIT) != []
    ensures var due := Due(s.store.outbox, now, CLAIM_LIMIT);
      Next(s, ClaimStep(now)) == s.(store := s.store.(outbox := Update(s.store.outbox, ClaimIds(Ids(due)))),
                                    drain := Draining(Update(due, AsClaimed()), None))
  {
  }

  lemma CrashKeeps(s: System)
    requires Inv(s)
    ensures Inv(Next(s, CrashStep))
  {
    var s' := Next(s, CrashStep);
    forall i: nat | i < |s'.store.requests| ensures Shape(ViewOf(s', i)) { assert ViewOf(s', i) == ViewOf(s, i); }
  }

  // ---- The message at the head of the queue --------------------------------

  /** `m` is the claimed copy of the message at position `p`, the only one with its number. */
  ghost predicate HeadOf(v: View, m: Message, p: nat) {
    && p < |v.msgs| && v.msgs[p] == m.(nextAttemptAt := None) && m.status.Inflight?
    && MessageIs(v, m, m.direction) && v.r.id == m.requestId
    && p == (if m.direction.Debit? then 0 else 1)
    && (forall j :: 0 <= j < |v.msgs| && j != p ==> v.msgs[j].id != m.id)
  }

  /** Where the head's row is among its request's messages, and what its shape says. */
  lemma HeadInView(s: System) returns (p: nat)
    requires Inv(s) && s.drain.Draining?
    ensures var m := s.drain.queue[0];
      && m.requestId < |s.store.requests|
      && var v := ViewOf(s, m.requestId);
         Shape(v) && HeadOf(v, m, p)
  {
    var m := s.drain.queue[0];
    assert ClaimedCopy(s.store.outbox, m);
    p := RowIsMessage(s.store, m.id);
    var v := ViewOf(s, m.requestId);
    assert Shape(v);
    forall j | 0 <= j < |v.msgs| && j != p ensures v.msgs[j].id != m.id {
      MessageIsRow(s.store, m.requestId, j);
    }
  }

  // ---- Exchange ------------------------------------------------------------

  function Answered(v: View, direction: Direction, ack: Option<Ack>): View {
    if direction.Debit? then v.(debit := ack) else v.(credit := ack)
  }

  lemma ExchangeStore(s: System, wire: Wire)
    ensures var s' := Next(s, ExchangeStep(wire));
      && s'.store == s.store
      && (s'.hcm == s.hcm || (s.drain.Draining? && s.drain.queue != []
                              && s'.hcm == Exchange(s.hcm, CommandOf(s.drain.queue[0]), wire).0))
  {
  }

  /** An acknowledgement, new or repeated, fits the shape of a request whose message is in flight. */
  lemma AnsweredShape(v: View, m: Message, p: nat, ack: Ack)
    requires Shape(v) && HeadOf(v, m, p)
    requires m.direction.Credit? && ack.applied && v.debit.Some? && v.debit.value.applied ==>
      v.debit.value.version < ack.version
    ensures Shape(Answered(v, m.direction, Some(ack)))
  {
  }

  lemma ContinuesItself(h: Hcm)
    ensures Continues(h, h)
  {
  }

  /** A new acknowledgement is later than everything HCM had acknowledged for the key. */
  lemma ExchangeAnswers(s: System, wire: Wire)
    requires Inv(s) && s.drain.Draining?
    ensures var m := s.drain.queue[0];
      var h' := Exchange(s.hcm, CommandOf(m), wire).0;
      && HcmOk(h') && Continues(s.hcm, h')
      && (forall id :: id in h'.applied && id !in s.hcm.applied ==> id == m.idempotencyKey)
      && (m.idempotencyKey in h'.applied && m.idempotencyKey !in s.hcm.applied ==>
            && h'.commands[m.idempotencyKey] == CommandOf(m)
            && (h'.applied[m.idempotencyKey].applied ==>
                  h'.applied[m.idempotencyKey].version > Version(s.hcm, m.key)))
  {
    ApplyDeltaKeeps(s.hcm, CommandOf(s.drain.queue[0]));
    ContinuesItself(s.hcm);
  }

  lemma DebitBeforeNow(s: System, i: RequestId)
    requires Inv(s) && i < |s.store.requests| && DebitOf(i) in s.hcm.applied
    ensures 1 <= s.hcm.applied[DebitOf(i)].version <= Version(s.hcm, s.store.requests[i].key)
  {
    assert AckTruthful(s.hcm, DebitOf(i));
  }

  lemma ExchangeShape(s: System, wire: Wire, i: RequestId)
    requires Inv(s) && s.drain.Draining? && s.drain.reply.None? && i < |s.store.requests|
    ensures Shape(ViewOf(DoExchange(s, wire), i))
  {
    var m := s.drain.queue[0];
    var s' := DoExchange(s, wire);
    var p := HeadInView(s);
    ExchangeAnswers(s, wire);
    var v := ViewOf(s, i);
    assert Shape(v);
    if i == m.requestId && m.idempotencyKey in s'.hcm.applied && m.idempotencyKey !in s.hcm.applied {
      var ack := s'.hcm.applied[m.idempotencyKey];
      if v.debit.Some? { DebitBeforeNow(s, i); }
      AnsweredShape(v, m, p, ack);
      assert ViewOf(s', i) == Answered(v, m.direction, Some(ack));
    } else {
      assert ViewOf(s', i) == v;
    }
  }

  lemma CoherentContinues(balances: map<Key, Balance>, h: Hcm, h': Hcm)
    requires Coherent(balances, h) && Continues(h, h')
    ensures Coherent(balances, h')
  {
  }

  /** At most one new command, and that the one its service key stands for. */
  lemma CommandsGrow(requests: seq<Request>, h: Hcm, h': Hcm, c: Command, i: RequestId)
    requires ServiceCommands(requests, h) && Continues(h, h')
    requires forall id :: id in h'.commands && id !in h.commands ==> id == c.idempotencyKey && h'.commands[id] == c
    requires i < |requests| && c == ServiceCommand(requests[i], c.direction) && requests[i].id == i
    ensures ServiceCommands(requests, h')
  {
  }

  lemma ExchangeCommands(s: System, wire: Wire)
    requires Inv(s) && s.drain.Draining?
    ensures ServiceCommands(s.store.requests, Exchange(s.hcm, CommandOf(s.drain.queue[0]), wire).0)
  {
    var m := s.drain.queue[0];
    var p := HeadInView(s);
    ExchangeAnswers(s, wire);
    var h' := Exchange(s.hcm, CommandOf(m), wire).0;
    assert forall id :: id in h'.commands <==> id in h'.applied;
    CommandsGrow(s.store.requests, s.hcm, h', CommandOf(m), m.requestId);
  }

  lemma ExchangeDrain(s: System, wire: Wire)
    requires Inv(s) && s.drain.Draining? && s.drain.reply.None?
    ensures DrainOk(DoExchange(s, wire))
  {
  }

  lemma ExchangeKeeps(s: System, wire: Wire)
    requires Inv(s)
    ensures Inv(Next(s, ExchangeStep(wire)))
  {
    if s.drain.Draining? && s.drain.reply.None? {
      var s' := DoExchange(s, wire);
      forall i: nat | i < |s'.store.requests| ensures Shape(ViewOf(s', i)) { ExchangeShape(s, wire, i); }
      ExchangeAnswers(s, wire);
      ExchangeCommands(s, wire);
      ExchangeDrain(s, wire);
      CoherentContinues(s.store.balances, s.hcm, s'.hcm);
    }
  }

  // ---- Settle --------------------------------------------------------------

  function Advancing(r: Request, action: RequestAction, hcmRef: Option<nat>): Request {
    match NextState(r.status, action)
    case None => r
    case Some(to) => r.(status := to, hcmRef := hcmRef)
  }

  /** Settling, seen from the request the message belongs to. */
  function Settling(v: View, m: Message, reply: Reply, now: int, rowId: nat): View {
    match reply
    case Acked(ack, _) =>
      if m.direction.Debit? then
        v.(r := Advancing(v.r, HcmCommitted, Some(ack.hcmRef)),
           rows := Update(v.rows, Release(v.r.id, LedgerPhase.Reserve))
                   + [CommitRow(rowId, v.r.id, v.r.key, m.amount, Some(ack.version))],
           msgs := Update(v.msgs, SetDone(m.id)))
      else
        v.(r := Advancing(v.r, HcmCreditDone, v.r.hcmRef),
           rows := Update(v.rows, Release(v.r.id, LedgerPhase.Commit)),
           msgs := Update(v.msgs, SetDone(m.id)))
    case Refused(_) =>
      if m.direction.Debit? then
        v.(r := Advancing(v.r, HcmRejected, v.r.hcmRef),
           rows := Update(v.rows, Release(v.r.id, LedgerPhase.Reserve)),
           msgs := Update(v.msgs, SetDead(m.id)))
      else v.(msgs := Update(v.msgs, SetDead(m.id)))
    case Unavailable => v.(msgs := Update(v.msgs, SetRetry(m.id, m.attempts + 1, now)))
  }

  lemma SettlingAckedDebit(v: View, m: Message, ack: Ack, replayed: bool, now: int, rowId: nat)
    requires Shape(v) && HeadOf(v, m, 0) && v.debit == Some(ack)
    ensures Shape(Settling(v, m, Acked(ack, replayed), now, rowId))
  {
  }

  lemma SettlingAckedCredit(v: View, m: Message, ack: Ack, replayed: bool, now: int, rowId: nat)
    requires Shape(v) && HeadOf(v, m, 1) && v.credit == Some(ack)
    ensures Shape(Settling(v, m, Acked(ack, replayed), now, rowId))
  {
  }

  lemma SettlingRefused(v: View, m: Message, p: nat, code: RefusalCode, now: int, rowId: nat)
    requires Shape(v) && HeadOf(v, m, p) && (m.direction.Debit? ==> v.debit.None?)
    ensures Shape(Settling(v, m, Refused(code), now, rowId))
  {
  }

  lemma SettlingUnavailable(v: View, m: Message, p: nat, now: int, rowId: nat)
    requires Shape(v) && HeadOf(v, m, p)
    ensures Shape(Settling(v, m, Unavailable, now, rowId))
  {
  }

  /** The rewriting of the outbox a settled reply causes. */
  function Rewrite(m: Message, reply: Reply, now: int): Message -> Message {
    match reply
    case Acked(_, _) => SetDone(m.id)
    case Refused(_) => SetDead(m.id)
    case Unavailable => SetRetry(m.id, m.attempts + 1, now)
  }

  function LedgerAfter(st: Store, m: Message, reply: Reply): seq<LedgerRow>
    requires m.requestId < |st.requests|
  {
    var id := m.requestId;
    match reply
    case Acked(ack, _) =>
      if m.direction.Debit? then
        Update(st.ledger, Release(id, LedgerPhase.Reserve))
        + [CommitRow(|st.ledger|, id, st.requests[id].key, m.amount, Some(ack.version))]
      else Update(st.ledger, Release(id, LedgerPhase.Commit))
    case Refused(_) => if m.direction.Debit? then Update(st.ledger, Release(id, LedgerPhase.Reserve)) else st.ledger
    case Unavailable => st.ledger
  }

  function RequestAfter(r: Request, m: Message, reply: Reply): Request {
    match reply
    case Acked(ack, _) =>
      if m.direction.Debit? then Advancing(r, HcmCommitted, Some(ack.hcmRef))
      else Advancing(r, HcmCreditDone, r.hcmRef)
    case Refused(_) => if m.direction.Debit? then Advancing(r, HcmRejected, r.hcmRef) else r
    case Unavailable => r
  }

  /** What a settled reply does to each table. */
  ghost predicate Settled(st: Store, st': Store, m: Message, reply: Reply, now: int) {
    && m.requestId < |st.requests|
    && st'.(events := []) ==
         Store(st.requests[m.requestId := RequestAfter(st.requests[m.requestId], m, reply)],
               LedgerAfter(st, m, reply), Update(st.outbox, Rewrite(m, reply, now)), st.balances, [])
  }

  lemma SettleParts(st: Store, m: Message, reply: Reply, now: int)
    requires m.requestId < |st.requests|
    ensures Settled(st, Settle(st, m, reply, now), m, reply, now)
  {
  }

  lemma SettleRows(st: Store, m: Message, reply: Reply, i: RequestId)
    requires m.requestId < |st.requests|
    ensures Select(LedgerAfter(st, m, reply), OfRequest(i)) ==
      if i != m.requestId then Rows(st, i)
      else match reply
        case Acked(ack, _) =>
          if m.direction.Debit? then
            Update(Rows(st, i), Release(i, LedgerPhase.Reserve))
            + [CommitRow(|st.ledger|, i, st.requests[i].key, m.amount, Some(ack.version))]
          else Update(Rows(st, i), Release(i, LedgerPhase.Commit))
        case Refused(_) =>
          if m.direction.Debit? then Update(Rows(st, i), Release(i, LedgerPhase.Reserve)) else Rows(st, i)
        case Unavailable => Rows(st, i)
  {
    var id := m.requestId;
    if m.direction.Debit? {
      RowsReleased(st, id, LedgerPhase.Reserve, i);
    } else {
      RowsReleased(st, id, LedgerPhase.Commit, i);
    }
    if reply.Acked? && m.direction.Debit? {
      SelectAppend(Update(st.ledger, Release(id, LedgerPhase.Reserve)),
                   CommitRow(|st.ledger|, id, st.requests[id].key, m.amount, Some(reply.ack.version)), OfRequest(i));
    }
  }

  lemma SettleMessages(st: Store, m: Message, reply: Reply, now: int, i: RequestId)
    requires Numbered(st) && m.id < |st.outbox| && st.outbox[m.id].requestId == m.requestId
    ensures Select(Update(st.outbox, Rewrite(m, reply, now)), ForRequest(i)) ==
      if i == m.requestId then Update(Messages(st, i), Rewrite(m, reply, now)) else Messages(st, i)
  {
    MessagesRewritten(st, m.id, Rewrite(m, reply, now), i);
  }

  lemma SettledViewHere(s: System, st': Store, m: Message, reply: Reply, now: int)
    requires Numbered(s.store) && Settled(s.store, st', m, reply, now)
    requires m.id < |s.store.outbox| && s.store.outbox[m.id].requestId == m.requestId
    ensures ViewOf(s.(store := st'), m.requestId) ==
      Settling(ViewOf(s, m.requestId), m, reply, now, |s.store.ledger|)
  {
    SettleRows(s.store, m, reply, m.requestId);
    SettleMessages(s.store, m, reply, now, m.requestId);
  }

  lemma SettledViewElsewhere(s: System, st': Store, m: Message, reply: Reply, now: int, i: RequestId)
    requires Numbered(s.store) && Settled(s.store, st', m, reply, now)
    requires m.id < |s.store.outbox| && s.store.outbox[m.id].requestId == m.requestId
    requires i < |s.store.requests| && i != m.requestId
    ensures ViewOf(s.(store := st'), i) == ViewOf(s, i)
  {
    SettleRows(s.store, m, reply, i);
    SettleMessages(s.store, m, reply, now, i);
  }

  /** The delivery about to be settled: its message, its reply. */
  ghost predicate Settleable(s: System) {
    s.drain.Draining? && s.drain.queue != [] && s.drain.reply.Some?
  }

  lemma SettledShape(s: System, st': Store, now: int, i: RequestId)
    requires Inv(s) && Settleable(s) && i < |s.store.requests|
    requires Settled(s.store, st', s.drain.queue[0], s.drain.reply.value, now)
    ensures Shape(ViewOf(s.(store := st'), i))
  {
    var m, reply := s.drain.queue[0], s.drain.reply.value;
    assert ClaimedCopy(s.store.outbox, m);
    var v := ViewOf(s, i);
    assert Shape(v);
    if i != m.requestId {
      SettledViewElsewhere(s, st', m, reply, now, i);
    } else {
      SettledViewHere(s, st', m, reply, now);
      var p := HeadInView(s);
      match reply {
        case Acked(ack, replayed) =>
          if m.direction.Debit? {
            SettlingAckedDebit(v, m, ack, replayed, now, |s.store.ledger|);
          } else {
            SettlingAckedCredit(v, m, ack, replayed, now, |s.store.ledger|);
          }
        case Refused(code) => SettlingRefused(v, m, p, code, now, |s.store.ledger|);
        case Unavailable => SettlingUnavailable(v, m, p, now, |s.store.ledger|);
      }
    }
  }

  /** The copies behind the head still agree with their rows. */
  lemma SettledQueue(s: System, st': Store, now: int, i: nat)
    requires Inv(s) && Settleable(s) && 0 < i < |s.drain.queue|
    requires Settled(s.store, st', s.drain.queue[0], s.drain.reply.value, now)
    ensures ClaimedCopy(st'.outbox, s.drain.queue[i])
  {
  }

  lemma SettledNumbers(st: Store, st': Store, m: Message, reply: Reply, now: int)
    requires Numbered(st) && Settled(st, st', m, reply, now)
    ensures Numbered(st') && |st'.requests| == |st.requests| && st'.balances == st.balances
    ensures forall i :: 0 <= i < |st.requests| ==>
      var r, r' := st.requests[i], st'.requests[i];
      r'.id == r.id && r'.key == r.key && r'.days == r.days && (r.status.Draft? ==> r'.status.Draft?)
  {
  }

  /** A request with a message in flight has rows, so no submit is holding it. */
  lemma HeadIsNotInSession(s: System, k: Key)
    requires Inv(s) && s.drain.Draining? && k in s.sessions
    ensures s.drain.queue[0].requestId != s.sessions[k].copy.id
  {
    var p := HeadInView(s);
    assert SessionOk(s.store, k, s.sessions[k].copy);
    NoRowsIsEmpty(s.store, s.drain.queue[0].requestId);
  }

  lemma SettledLeavesAlone(st: Store, st': Store, m: Message, reply: Reply, now: int, k: Key, copy: Request)
    requires Settled(st, st', m, reply, now) && SessionOk(st, k, copy) && m.requestId != copy.id
    ensures SessionOk(st', k, copy)
  {
  }

  lemma SettledSessions(s: System, s': System, now: int)
    requires Inv(s) && Settleable(s)
    requires Settled(s.store, s'.store, s.drain.queue[0], s.drain.reply.value, now)
    requires s'.sessions.Keys == s.sessions.Keys
    requires forall k :: k in s.sessions ==> s'.sessions[k].copy == s.sessions[k].copy
    ensures SessionsOk(s')
  {
    forall k | k in s'.sessions ensures SessionOk(s'.store, k, s'.sessions[k].copy) {
      assert SessionOk(s.store, k, s.sessions[k].copy);
      HeadIsNotInSession(s, k);
      SettledLeavesAlone(s.store, s'.store, s.drain.queue[0], s.drain.reply.value, now, k, s.sessions[k].copy);
    }
  }

  lemma SettledKeeps(s: System, s': System, now: int)
    requires Inv(s) && Settleable(s)
    requires Settled(s.store, s'.store, s.drain.queue[0], s.drain.reply.value, now)
    requires s'.hcm == s.hcm && s'.drain == AfterHead(s.drain.queue)
    requires s'.sessions.Keys == s.sessions.Keys
    requires forall k :: k in s.sessions ==> s'.sessions[k].copy == s.sessions[k].copy
    ensures Inv(s')
  {
    var q := s.drain.queue;
    SettledNumbers(s.store, s'.store, q[0], s.drain.reply.value, now);
    forall i: nat | i < |s'.store.requests| ensures Shape(ViewOf(s', i)) {
      SettledShape(s, s'.store, now, i);
      assert ViewOf(s', i) == ViewOf(s.(store := s'.store), i);
    }
    forall i: nat | 0 < i < |q| ensures ClaimedCopy(s'.store.outbox, q[i]) { SettledQueue(s, s'.store, now, i); }
    SettledSessions(s, s', now);
  }

  lemma SettleIsSettled(s: System, now: int)
    requires Inv(s) && Settleable(s)
    ensures Settled(s.store, DoSettle(s, now).store, s.drain.queue[0], s.drain.reply.value, now)
  {
    var m := s.drain.queue[0];
    assert ClaimedCopy(s.store.outbox, m);
    SettleParts(s.store, m, s.drain.reply.value, now);
  }

  lemma SettleKeeps(s: System, now: int)
    requires Inv(s)
    ensures Inv(Next(s, SettleStep(now)))
  {
    if Settleable(s) {
      SettleIsSettled(s, now);
      SettledKeeps(s, DoSettle(s, now), now);
    }
  }

  // ---- Snapshots and HCM's own steps ---------------------------------------

  function Absorbing(v: View, key: Key, version: nat): View {
    v.(rows := Update(v.rows, Absorb(key, version)), watermark := if v.r.key == key then Some(version) else v.watermark)
  }

  lemma AbsorbingShape(v: View, key: Key, version: nat)
    requires Shape(v)
    requires v.r.key == key && v.watermark.Some? ==> v.watermark.value <= version
    ensures Shape(Absorbing(v, key, version))
  {
  }

  lemma AbsorbedView(s: System, st': Store, u: BalanceUpdate, i: RequestId)
    requires i < |s.store.requests| && st'.(events := s.store.events) == AfterUpdate(s.store, u)
    ensures ViewOf(s.(store := st'), i) == Absorbing(ViewOf(s, i), u.key, u.version)
  {
    RowsAbsorbed(s.store, u.key, u.version, i);
  }

  /** Swapping in a newer genuine snapshot, in terms of rows. */
  lemma AbsorbKeepsSessions(s: System, st': Store, u: BalanceUpdate)
    requires SessionsOk(s) && st'.(events := s.store.events) == AfterUpdate(s.store, u)
    ensures SessionsOk(s.(store := st'))
  {
    forall k | k in s.sessions ensures SessionOk(st', k, s.sessions[k].copy) {
      assert SessionOk(s.store, k, s.sessions[k].copy);
    }
  }

  lemma AbsorbKeeps(s: System, st': Store, u: BalanceUpdate)
    requires Inv(s) && st'.(events := s.store.events) == AfterUpdate(s.store, u)
    requires CachedBalance(s.store, u.key).lastReconciledVersion < u.version <= Version(s.hcm, u.key)
    requires u.balance == BalanceAt(s.hcm, u.key, u.version)
    ensures Inv(s.(store := st'))
  {
    var s' := s.(store := st');
    AbsorbKeepsSessions(s, st', u);
    forall i: nat | i < |s'.store.requests| ensures Shape(ViewOf(s', i)) {
      assert Shape(ViewOf(s, i));
      AbsorbedView(s, st', u, i);
      AbsorbingShape(ViewOf(s, i), u.key, u.version);
    }
  }

  lemma ReconcileKeeps(s: System, key: Key, version: nat)
    requires Inv(s)
    ensures Inv(Next(s, ReconcileStep(key, version)))
  {
    if key !in s.sessions && version <= Version(s.hcm, key) {
      var u := SnapshotAt(s.hcm, key, version);
      ReconcileAgreesWithStore(s.store, u);
      var (st', result) := ReconcileKey(s.store, u);
      if result.applied {
        AbsorbKeeps(s, st', u);
      }
    }
  }

  lemma LoadShape(s: System, key: Key, version: nat, i: RequestId)
    requires Inv(s) && i < |s.store.requests|
    ensures Shape(ViewOf(DoLoad(s, key, version), i))
  {
    var v, v' := ViewOf(s, i), ViewOf(DoLoad(s, key, version), i);
    assert Shape(v);
    assert v' == v || (v.watermark.None? && v' == v.(watermark := Some(version)));
  }

  lemma LoadKeeps(s: System, key: Key, version: nat)
    requires Inv(s)
    ensures Inv(Next(s, LoadStep(key, version)))
  {
    var s' := Next(s, LoadStep(key, version));
    forall i: nat | i < |s'.store.requests| ensures Shape(ViewOf(s', i)) { LoadShape(s, key, version, i); }
  }

  /** Nothing others do at HCM uses up or alters a key of this service. */
  lemma ForeignCall(h: Hcm, call: Call)
    requires HcmOk(h) && IsForeign(call)
    ensures var h' := Perform(h, call);
      && HcmOk(h') && Continues(h, h')
      && (forall id: IdempotencyKey :: !id.Foreign? ==> AckOf(h', id) == AckOf(h, id))
      && (forall id: IdempotencyKey :: !id.Foreign? ==> (id in h'.commands <==> id in h.commands))
  {
    PerformKeeps(h, call);
    if call.ApplyCall? { ApplyDeltaKeeps(h, call.command); }
    assert forall id :: id in h.applied <==> id in h.commands;
    assert forall id :: id in Perform(h, call).applied <==> id in Perform(h, call).commands;
  }

  lemma HcmDrain(s: System, call: Call)
    requires Inv(s) && IsForeign(call)
    ensures DrainOk(s.(hcm := Perform(s.hcm, call)))
  {
    ForeignCall(s.hcm, call);
    if s.drain.Draining? {
      var p := HeadInView(s);
    }
  }

  lemma HcmKeeps(s: System, call: Call)
    requires Inv(s)
    ensures Inv(Next(s, HcmStep(call)))
  {
    if IsForeign(call) {
      var s' := Next(s, HcmStep(call));
      ForeignCall(s.hcm, call);
      CoherentContinues(s.store.balances, s.hcm, s'.hcm);
      forall i: nat | i < |s'.store.requests| ensures Shape(ViewOf(s', i)) {
        assert ViewOf(s', i) == ViewOf(s, i);
      }
      HcmDrain(s, call);
    }
  }
}
