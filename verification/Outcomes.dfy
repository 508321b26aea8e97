/** What coming to rest means for the requests: where each can be once no message can move any more. */
module Outcomes {
  import opened Domain
  import opened Outbox
  import opened HcmCore
  import opened OutboxProcessor
  import opened Protocol
  import opened Views
  import opened StoreSteps
  import opened DeliverySteps
  import opened Invariant
  import opened ExactlyOnce
  import opened Lifetimes
  import opened Endings
  import opened Cancellations
  import opened Refunds
  import opened Refinement

  /** Message `id` is request `i`'s in the given direction, and it was buried or lost unfinished. */
  ghost predicate Fell(s: System, i: RequestId, id: nat, direction: Direction) {
    && id < |s.store.outbox| && s.store.outbox[id].requestId == i && s.store.outbox[id].direction == direction
    && (s.store.outbox[id].status.Dead? || Lost(s, id))
  }

  /** The last message a request has. */
  lemma LastMessage(s: System, i: RequestId) returns (id: nat)
    requires Inv(s) && i < |s.store.requests|
    requires s.store.requests[i].status.Approved? || s.store.requests[i].status.CancellationPending?
    ensures id < |s.store.outbox| && s.store.outbox[id].requestId == i && !s.store.outbox[id].status.Done?
    ensures s.store.outbox[id].direction == (if s.store.requests[i].status.Approved? then Debit else Credit)
  {
    var last := |Messages(s.store, i)| - 1;
    assert Shape(ViewOf(s, i));
    MessageIsRow(s.store, i, last);
    id := Messages(s.store, i)[last].id;
  }

  /**
   * Once every message is stuck, a request that still waits for HCM waits for a message that was
   * buried or lost: approved for a debit, pending cancellation for a credit.
   */
  lemma WaitsInVain(s: System, i: RequestId) returns (id: nat)
    requires Inv(s) && AllStuck(s) && i < |s.store.requests|
    requires s.store.requests[i].status.Approved? || s.store.requests[i].status.CancellationPending?
    ensures s.store.requests[i].status.Approved? ==> Fell(s, i, id, Debit)
    ensures s.store.requests[i].status.CancellationPending? ==> Fell(s, i, id, Credit) && IsAbandoned(s, i, id)
  {
    id := LastMessage(s, i);
    assert Stuck(s, id);
  }

  // ---- Every call delivered and answered -----------------------------------

  /** A message to follow: whose it is and, for a credit, what HCM had acknowledged for the request. */
  datatype Trace = Trace(i: RequestId, id: nat, direction: Direction, debit: Option<Ack>, faked: bool)

  ghost predicate IsFaked(ack: Option<Ack>) { ack.Some? && !ack.value.applied }

  /** HCM injects no failures, and no reply that would be a failed try is in; to credits it is honest. */
  ghost predicate IsAnswering(s: System, direction: Direction) {
    && s.hcm.faults.failuresToInject <= 0
    && (direction.Credit? ==> s.hcm.faults == Faults(0, {}, true, false, false))
    && (s.drain.Draining? && s.drain.queue != [] && s.drain.reply.Some? ==>
          && !s.drain.reply.value.Unavailable?
          && (direction.Credit? && s.drain.queue[0].direction.Credit? ==> s.drain.reply.value.Acked?))
  }

  ghost predicate Awaits(r: Request, direction: Direction) {
    if direction.Debit? then r.status.Approved? else r.status.CancellationPending?
  }

  ghost predicate IsDecided(r: Request, direction: Direction) {
    if direction.Debit? then r.status.Committed? || r.status.Failed? else r.status.Cancelled?
  }

  /** The request's message is on its way, or its fate is decided. */
  ghost predicate IsOnTrack(s: System, t: Trace) {
    && t.i < |s.store.requests|
    && t.id < |s.store.outbox| && s.store.outbox[t.id].requestId == t.i
    && s.store.outbox[t.id].direction == t.direction
    && (if Awaits(s.store.requests[t.i], t.direction) then !Stuck(s, t.id)
        else IsDecided(s.store.requests[t.i], t.direction))
    && (t.direction.Credit? ==>
          AckOf(s.hcm, DebitOf(t.i)) == t.debit && IsFaked(AckOf(s.hcm, CreditOf(t.i))) == t.faked)
  }

  /** Only a request that still waits has a message in flight, and it is the one followed. */
  lemma TracedMessage(s: System, t: Trace, other: nat)
    requires Inv(s) && IsOnTrack(s, t) && other < |s.store.outbox| && s.store.outbox[other].requestId == t.i
    requires s.store.outbox[other].status.Inflight?
    ensures other == t.id && Awaits(s.store.requests[t.i], t.direction)
  {
    var a := RowIsMessage(s.store, t.id);
    var b := RowIsMessage(s.store, other);
    assert Shape(ViewOf(s, t.i));
  }

  lemma ClaimKeepsTrack(s: System, now: int, t: Trace)
    requires Inv(s) && IsOnTrack(s, t)
    ensures IsOnTrack(Next(s, ClaimStep(now)), t)
  {
    var s' := Next(s, ClaimStep(now));
    StepMovesMessage(s, ClaimStep(now), t.id);
    if s.drain.Idle? {
      if t.id in Ids(Due(s.store.outbox, now, CLAIM_LIMIT)) {
        ClaimQueues(s, now, t.id);
        var p: nat :| AtPosition(s'.drain, p, t.id);
        ClaimedAreDue(s.store, now, CLAIM_LIMIT, s.store.outbox[t.id]);
      }
    } else {
      assert s' == s;
    }
  }

  /** HCM's answer to the head of the queue leaves the acknowledgements of a followed credit as they were, or honest. */
  lemma ExchangeKeepsAcks(s: System, t: Trace)
    requires Inv(s) && IsOnTrack(s, t) && IsAnswering(s, Credit) && t.direction.Credit?
    requires s.drain.Draining? && s.drain.reply.None?
    ensures var h' := Exchange(s.hcm, CommandOf(s.drain.queue[0]), Delivered).0;
      AckOf(h', DebitOf(t.i)) == t.debit && IsFaked(AckOf(h', CreditOf(t.i))) == t.faked
  {
    var m := s.drain.queue[0];
    var h' := Exchange(s.hcm, CommandOf(m), Delivered).0;
    if m.requestId != t.i {
      OtherAcksStay(s, h', Delivered, t.i);
    } else {
      assert ClaimedCopy(s.store.outbox, m);
      TracedMessage(s, t, m.id);
      var p := HeadInView(s);
      ExchangeAnswers(s, Delivered);
      ReplyExactly(s.hcm, CommandOf(m));
      ApplyDeltaKeeps(s.hcm, CommandOf(m));
    }
  }

  /** To a credit an honest HCM answers with an acknowledgement. */
  lemma ExchangeAnswersHonestly(s: System, direction: Direction)
    requires Inv(s) && IsAnswering(s, direction)
    ensures IsAnswering(Next(s, ExchangeStep(Delivered)), direction)
  {
    if s.drain.Draining? && s.drain.reply.None? { ReplyExactly(s.hcm, CommandOf(s.drain.queue[0])); }
  }

  lemma ExchangeKeepsTrack(s: System, t: Trace)
    requires Inv(s) && IsOnTrack(s, t) && IsAnswering(s, t.direction)
    ensures var s' := Next(s, ExchangeStep(Delivered));
      IsOnTrack(s', t) && IsAnswering(s', t.direction)
  {
    var s' := Next(s, ExchangeStep(Delivered));
    ExchangeStore(s, Delivered);
    ExchangeAnswersHonestly(s, t.direction);
    if t.direction.Credit? && s.drain.Draining? && s.drain.reply.None? { ExchangeKeepsAcks(s, t); }
    if Awaits(s.store.requests[t.i], t.direction) && s.store.outbox[t.id].status.Inflight? {
      var p: nat :| AtPosition(s.drain, p, t.id);
      assert AtPosition(s'.drain, p, t.id);
    }
  }

  lemma SettledKeepsTrack(s: System, now: int, t: Trace)
    requires Inv(s) && IsOnTrack(s, t) && IsAnswering(s, t.direction) && Settleable(s)
    ensures IsOnTrack(Next(s, SettleStep(now)), t)
  {
    var m, s' := s.drain.queue[0], Next(s, SettleStep(now));
    assert ClaimedCopy(s.store.outbox, m);
    SettleIsSettled(s, now);
    SettleMovesMessage(s, now, t.id);
    if m.requestId == t.i {
      TracedMessage(s, t, m.id);
    } else if Awaits(s.store.requests[t.i], t.direction) && s.store.outbox[t.id].status.Inflight? {
      SettleDequeues(s, s', t.id);
      var p: nat :| AtPosition(s'.drain, p, t.id);
    }
  }

  lemma SettleKeepsTrack(s: System, now: int, t: Trace)
    requires Inv(s) && IsOnTrack(s, t) && IsAnswering(s, t.direction)
    ensures IsOnTrack(Next(s, SettleStep(now)), t)
  {
    if Settleable(s) { SettledKeepsTrack(s, now, t); } else { assert Next(s, SettleStep(now)) == s; }
  }

  lemma SettleKeepsAnswering(s: System, now: int, direction: Direction)
    requires IsAnswering(s, direction)
    ensures IsAnswering(Next(s, SettleStep(now)), direction)
  {
    if !Settleable(s) { assert Next(s, SettleStep(now)) == s; }
  }

  /** One message delivered, answered and settled. */
  lemma DeliveryKeepsTrack(s: System, now: int, t: Trace)
    requires Inv(s) && IsOnTrack(s, t) && IsAnswering(s, t.direction)
    ensures var s' := DeliverNext(s, Delivered, now);
      Inv(s') && IsOnTrack(s', t) && IsAnswering(s', t.direction)
  {
    hide Next, IsOnTrack, IsAnswering;
    var answered := Next(s, ExchangeStep(Delivered));
    NextKeeps(s, ExchangeStep(Delivered));
    ExchangeKeepsTrack(s, t);
    NextKeeps(answered, SettleStep(now));
    SettleKeepsTrack(answered, now, t);
    SettleKeepsAnswering(answered, now, t.direction);
  }

  /** Every call of the round arrives and is answered. */
  ghost predicate IsAnswered(round: Round) { forall j: nat :: round.wire(j) == Delivered }

  lemma {:induction false} DeliveriesKeepTrack(at: nat -> System, round: Round, n: nat, t: Trace)
    requires IsDrain(at, round) && IsAnswered(round)
    requires Inv(at(0)) && IsOnTrack(at(0), t) && IsAnswering(at(0), t.direction)
    ensures Inv(at(n)) && IsOnTrack(at(n), t) && IsAnswering(at(n), t.direction)
  {
    if n == 0 {
    } else {
      DeliveriesKeepTrack(at, round, n - 1, t);
      assert round.wire(n - 1) == Delivered;
      DeliveryKeepsTrack(at(n - 1), round.clock(n), t);
    }
  }

  lemma DrainKeepsTrack(s: System, round: Round, t: Trace)
    requires Inv(s) && s.drain.Idle? && IsAnswered(round) && IsOnTrack(s, t) && IsAnswering(s, t.direction)
    ensures var s' := DrainOn(s, round);
      Inv(s') && s'.drain.Idle? && IsOnTrack(s', t) && IsAnswering(s', t.direction)
  {
    NextKeeps(s, ClaimStep(round.clock(0)));
    ClaimKeepsTrack(s, round.clock(0), t);
    RunsAreDrains(s, round, DrainAt(s, round));
    DeliveriesKeepTrack(DrainAt(s, round), round, Claims(s, round), t);
    DrainIsARun(s, round);
  }

  lemma {:induction false} DrainsKeepTrack(s: System, rounds: seq<Round>, t: Trace)
    requires Inv(s) && s.drain.Idle? && (forall round :: round in rounds ==> IsAnswered(round))
    requires IsOnTrack(s, t) && IsAnswering(s, t.direction)
    ensures var s' := DrainMany(s, rounds);
      Inv(s') && s'.drain.Idle? && IsOnTrack(s', t) && IsAnswering(s', t.direction)
  {
    if rounds == [] {
    } else {
      var front, round := rounds[..|rounds| - 1], rounds[|rounds| - 1];
      assert round in rounds;
      DrainsKeepTrack(s, front, t);
      DrainKeepsTrack(DrainMany(s, front), round, t);
    }
  }

  /** Enough patient drains, with every call delivered and answered, for every message there is. */
  ghost predicate DrainOut(s: System, rounds: seq<Round>) {
    && Patient(s, rounds) && |rounds| > TotalWeight(s.store.outbox)
    && forall round :: round in rounds ==> IsAnswered(round)
  }

  lemma DrainsDecide(s: System, rounds: seq<Round>, t: Trace)
    requires Inv(s) && s.drain.Idle? && DrainOut(s, rounds) && IsOnTrack(s, t) && IsAnswering(s, t.direction)
    ensures var s' := DrainMany(s, rounds);
      Inv(s') && IsOnTrack(s', t) && IsDecided(s'.store.requests[t.i], t.direction)
  {
    DrainsKeepTrack(s, rounds, t);
    DrainsComeToRest(s, rounds);
    assert Stuck(DrainMany(s, rounds), t.id);
  }

  lemma OnlyDebitOf(s: System, i: RequestId, id: nat, other: nat)
    requires Inv(s) && i < |s.store.requests| && s.store.requests[i].status.Approved?
    requires id < |s.store.outbox| && s.store.outbox[id].requestId == i
    requires other < |s.store.outbox| && s.store.outbox[other].requestId == i
    ensures id == other
  {
    var a := RowIsMessage(s.store, id);
    var b := RowIsMessage(s.store, other);
    assert Shape(ViewOf(s, i));
  }

  /**
   * If every call is delivered and answered, repeated drains decide every approved request whose
   * debit was not buried or lost before: it ends committed or failed, committed exactly if HCM has
   * acknowledged its debit.
   */
  lemma AnsweredDrainsDecide(s: System, rounds: seq<Round>, i: RequestId, id: nat)
    requires Inv(s) && s.drain.Idle? && s.hcm.faults.failuresToInject <= 0 && DrainOut(s, rounds)
    requires i < |s.store.requests| && s.store.requests[i].status.Approved?
    requires id < |s.store.outbox| && s.store.outbox[id].requestId == i && !Stuck(s, id)
    ensures var s' := DrainMany(s, rounds);
      && i < |s'.store.requests| && (s'.store.requests[i].status.Committed? || s'.store.requests[i].status.Failed?)
      && (s'.store.requests[i].status.Committed? <==> AckOf(s'.hcm, DebitOf(i)).Some?)
  {
    var other := LastMessage(s, i);
    OnlyDebitOf(s, i, id, other);
    DrainsDecide(s, rounds, Trace(i, id, Debit, None, false));
    assert Shape(ViewOf(DrainMany(s, rounds), i));
  }

  /** What a request whose credit went through did to HCM in total. */
  lemma RefundedEffect(s: System, t: Trace)
    requires Inv(s) && IsOnTrack(s, t) && t.direction.Credit? && s.store.requests[t.i].status.Cancelled?
    ensures AckOf(s.hcm, CreditOf(t.i)).Some?
    ensures Moves(s.hcm, s.store.requests[t.i].key, 0, CausedBy(t.i)) == 0 <==> (IsWritten(t.debit) <==> !t.faked)
  {
    var j := RowIsMessage(s.store, t.id);
    assert Shape(ViewOf(s, t.i));
    TotalEffect(s, t.i);
  }

  /**
   * The refund, end to end. If every call is delivered and answered by a HCM without faults, a
   * request waiting for a credit that was neither buried nor lost ends cancelled. Its net effect at
   * HCM is then zero if and only if HCM had really applied the debit and had not faked the credit
   * before, or had faked both.
   */
  lemma RefundArrives(s: System, rounds: seq<Round>, i: RequestId, id: nat)
    requires Inv(s) && s.drain.Idle? && s.hcm.faults == Faults(0, {}, true, false, false) && DrainOut(s, rounds)
    requires IsRefund(s, i, id) && !Stuck(s, id)
    ensures var s' := DrainMany(s, rounds);
      && i < |s'.store.requests| && s'.store.requests[i].status.Cancelled?
      && AckOf(s'.hcm, CreditOf(i)).Some?
      && (Moves(s'.hcm, s'.store.requests[i].key, 0, CausedBy(i)) == 0 <==>
            (IsWritten(AckOf(s.hcm, DebitOf(i))) <==> !IsFaked(AckOf(s.hcm, CreditOf(i)))))
  {
    var t := Trace(i, id, Credit, AckOf(s.hcm, DebitOf(i)), IsFaked(AckOf(s.hcm, CreditOf(i))));
    DrainsDecide(s, rounds, t);
    RefundedEffect(DrainMany(s, rounds), t);
  }
}
