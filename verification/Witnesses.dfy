/** Runs of the system, step by step, that end where the repository's comments say none does. */
module Witnesses {
  import opened Domain
  import opened Tables
  import opened Balances
  import opened Outbox
  import opened HcmCore
  import opened OutboxProcessor
  import opened Protocol
  import opened Views
  import opened DeliverySteps
  import opened Invariant
  import opened Accounting
  import opened Coverage
  import opened ExactlyOnce
  import opened Lifetimes
  import opened Endings
  import opened Cancellations
  import opened Exhaustion
  import opened Refunds

  const KEY := Key("e", "l")
  const GRANTED := Seed(EMPTY_HCM, KEY, 10)
  const DEBIT := Message(0, 0, Debit, DebitOf(0), KEY, 3, Pending, 0, None)

  function Asked(status: RequestStatus): seq<Request> { [Request(0, KEY, 3, status, None)] }

  // ---- Up to a debit in flight ---------------------------------------------

  /** HCM grants ten days and the service has cached that; of one request the rest is as given. */
  ghost predicate IsAt(s: System, status: RequestStatus, outbox: seq<Message>, drain: Drain) {
    && s.store.requests == Asked(status) && s.store.outbox == outbox && s.drain == drain
    && s.store.balances == map[KEY := Balance(10, 1)] && s.hcm == GRANTED && s.sessions == map[]
  }

  lemma Drafted(s: System)
    requires s == Next(Next(Next(INITIAL, HcmStep(SeedCall(KEY, 10))), CreateStep(KEY, 3)), LoadStep(KEY, 1))
    ensures IsAt(s, Draft, [], Idle) && s.store.ledger == []
  {
  }

  lemma DraftedRun() returns (steps: seq<Step>)
    ensures IsAt(Run(INITIAL, steps), Draft, [], Idle) && Run(INITIAL, steps).store.ledger == []
  {
    steps := Then(INITIAL, [], HcmStep(SeedCall(KEY, 10)));
    steps := Then(INITIAL, steps, CreateStep(KEY, 3));
    steps := Then(INITIAL, steps, LoadStep(KEY, 1));
    Drafted(Run(INITIAL, steps));
  }

  lemma Submitted(s: System)
    requires IsAt(s, Draft, [], Idle) && s.store.ledger == []
    ensures IsAt(Next(Next(s, SubmitBegin(0)), SubmitEnd(KEY)), PendingApproval, [], Idle)
  {
  }

  lemma ApprovedOne(s: System)
    requires IsAt(s, PendingApproval, [], Idle)
    ensures IsAt(Next(s, ApproveStep(0)), Approved, [DEBIT], Idle)
  {
  }

  const CLAIMED := DEBIT.(status := Inflight)

  lemma ClaimedOne(s: System)
    requires IsAt(s, Approved, [DEBIT], Idle)
    ensures IsAt(Next(s, ClaimStep(0)), Approved, [CLAIMED], Draining([CLAIMED], None))
  {
  }

  lemma ApprovedRun() returns (steps: seq<Step>)
    ensures IsAt(Run(INITIAL, steps), Approved, [DEBIT], Idle)
  {
    steps := DraftedRun();
    Submitted(Run(INITIAL, steps));
    steps := Then(INITIAL, steps, SubmitBegin(0));
    steps := Then(INITIAL, steps, SubmitEnd(KEY));
    ApprovedOne(Run(INITIAL, steps));
    steps := Then(INITIAL, steps, ApproveStep(0));
  }

  lemma ClaimedRun() returns (steps: seq<Step>)
    ensures IsAt(Run(INITIAL, steps), Approved, [CLAIMED], Draining([CLAIMED], None))
  {
    steps := ApprovedRun();
    ClaimedOne(Run(INITIAL, steps));
    steps := Then(INITIAL, steps, ClaimStep(0));
  }

  // ---- Cancelled while in flight -------------------------------------------

  lemma RecalledOne(s: System)
    requires IsAt(s, Approved, [CLAIMED], Draining([CLAIMED], None))
    ensures IsAt(Next(s, CancelStep(0)), Cancelled, [CLAIMED], Draining([CLAIMED], None))
  {
  }

  /** The debit's acknowledgement is in, for a request already cancelled. */
  ghost predicate IsOrphaning(s: System) {
    && Settleable(s) && IsOrphanAck(s.store, s.drain.queue[0], s.drain.reply.value)
    && s.drain.queue[0].requestId == 0 && s.drain.reply == Some(Acked(Ack(1, 7, 2, true), false))
  }

  lemma Answered(s: System)
    requires IsAt(s, Cancelled, [CLAIMED], Draining([CLAIMED], None))
    ensures IsOrphaning(Next(s, ExchangeStep(Delivered)))
  {
  }

  lemma OrphaningRun() returns (steps: seq<Step>)
    ensures IsOrphaning(Run(INITIAL, steps))
  {
    steps := ClaimedRun();
    RecalledOne(Run(INITIAL, steps));
    steps := Then(INITIAL, steps, CancelStep(0));
    Answered(Run(INITIAL, steps));
    steps := Then(INITIAL, steps, ExchangeStep(Delivered));
  }

  /** Request 0 is cancelled, HCM is debited for it, and no refund was ever sent. */
  ghost predicate DebitedForNothing(s: System) {
    && 0 < |s.store.requests| && s.store.requests[0].status.Cancelled?
    && Moves(s.hcm, s.store.requests[0].key, 0, CausedBy(0)) == -s.store.requests[0].days
    && AckOf(s.hcm, CreditOf(0)) == None
  }

  /**
   * Cancelling an approved request does not always give the days back at HCM: there is a run after
   * which, whatever follows, the request is cancelled, HCM stays debited and no refund is ever sent.
   */
  lemma CancelledYetDebited() returns (steps: seq<Step>)
    ensures forall more: seq<Step> {:trigger Run(Run(INITIAL, steps), more)} ::
      DebitedForNothing(Run(Run(INITIAL, steps), more))
  {
    var before := OrphaningRun();
    steps := Then(INITIAL, before, SettleStep(0));
    EveryRunAgrees(before);
    forall more: seq<Step> ensures DebitedForNothing(Run(Run(INITIAL, steps), more)) {
      OrphanIsNeverRefunded(Run(INITIAL, before), 0, more);
    }
  }

  // ---- Cancelled between two tries -----------------------------------------

  const APPLIED := Applying(GRANTED, CommandOf(CLAIMED)).0
  const WAITING := CLAIMED.(status := Retrying, attempts := 1, nextAttemptAt := Some(BASE_BACKOFF_MS))

  lemma AnswerLost(s: System)
    requires IsAt(s, Approved, [CLAIMED], Draining([CLAIMED], None))
    ensures var s' := Next(s, ExchangeStep(ReplyLost));
      && s'.store == s.store && s'.drain == Draining([CLAIMED], Some(Unavailable))
      && s'.hcm == APPLIED && s'.sessions == map[]
  {
  }

  lemma Waiting(s: System)
    requires s.store.requests == Asked(Approved) && s.store.outbox == [CLAIMED]
    requires s.drain == Draining([CLAIMED], Some(Unavailable)) && s.hcm == APPLIED
    ensures var s' := Next(s, SettleStep(0));
      s'.store.requests == Asked(Approved) && s'.store.outbox == [WAITING] && s'.hcm == APPLIED
  {
    assert Power2(0) == 1;
  }

  lemma WaitingIsQueued(s: System)
    requires s.store.requests == Asked(Approved) && s.store.outbox == [WAITING] && s.hcm == APPLIED
    ensures QueuedDebit(ViewOf(s, 0)) && IsWritten(AckOf(s.hcm, DebitOf(0)))
  {
    SelectAppend<Message>([], WAITING, ForRequest(0));
    assert [] + [WAITING] == [WAITING];
  }

  /** Between two tries, with the first one applied and its answer lost. */
  ghost predicate AppliedUnheard(s: System) {
    0 < |s.store.requests| && QueuedDebit(ViewOf(s, 0)) && IsWritten(AckOf(s.hcm, DebitOf(0)))
  }

  lemma UnheardRun() returns (steps: seq<Step>)
    ensures AppliedUnheard(Run(INITIAL, steps))
  {
    steps := ClaimedRun();
    AnswerLost(Run(INITIAL, steps));
    steps := Then(INITIAL, steps, ExchangeStep(ReplyLost));
    Waiting(Run(INITIAL, steps));
    steps := Then(INITIAL, steps, SettleStep(0));
    WaitingIsQueued(Run(INITIAL, steps));
  }

  lemma UnheardStaysDebited(s: System, more: seq<Step>)
    requires Inv(s) && AppliedUnheard(s)
    ensures DebitedForNothing(Run(Next(s, CancelStep(0)), more))
  {
    CancelledWhileQueued(s, 0, more);
  }

  /** A debit that waits for its next try may already have been applied: then cancelling it is in vain. */
  lemma CancelledInVain() returns (steps: seq<Step>)
    ensures AppliedUnheard(Run(INITIAL, steps))
    ensures forall more: seq<Step> {:trigger Run(Next(Run(INITIAL, steps), CancelStep(0)), more)} ::
      DebitedForNothing(Run(Next(Run(INITIAL, steps), CancelStep(0)), more))
  {
    steps := UnheardRun();
    EveryRunAgrees(steps);
    forall more: seq<Step> ensures DebitedForNothing(Run(Next(Run(INITIAL, steps), CancelStep(0)), more)) {
      UnheardStaysDebited(Run(INITIAL, steps), more);
    }
  }

  // ---- Out of tries --------------------------------------------------------

  /** The debit after `n` tries that HCM did not answer. */
  ghost predicate HasFailed(s: System, n: nat) {
    && s.store.requests == Asked(Approved) && s.drain.Idle? && |s.store.outbox| == 1
    && s.store.outbox[0] == DEBIT.(
         status := if n == 0 then Pending else if n < 5 then Retrying else Dead,
         attempts := n, nextAttemptAt := s.store.outbox[0].nextAttemptAt)
    && (0 < n < 5 ==> s.store.outbox[0].nextAttemptAt.Some?)
  }

  lemma TriedAgain(s: System, m: Message, now: int)
    requires s.store.outbox == [m] && s.drain.Idle? && IsDue(m, now) && m.id == 0
    ensures var copy := m.(status := Inflight);
      var s' := Next(Next(s, ClaimStep(now)), ExchangeStep(NotSent));
      && s'.store == s.store.(outbox := [copy.(nextAttemptAt := None)])
      && s'.drain == Draining([copy], Some(Unavailable)) && s'.hcm == s.hcm
  {
    SelectAppend<Message>([], m, DueAt(now));
    assert [] + [m] == [m];
  }

  lemma FailedAgain(s: System, copy: Message, now: int)
    requires copy.id == 0 && s.store.outbox == [copy.(nextAttemptAt := None)]
    requires s.drain == Draining([copy], Some(Unavailable))
    ensures var s' := Next(s, SettleStep(now));
      && s'.store == s.store.(outbox := [SetRetry(0, copy.attempts + 1, now)(copy.(nextAttemptAt := None))])
      && s'.drain.Idle?
  {
  }

  /** Up to the answer of the next try, which HCM has then been asked for once more. */
  lemma HandedRun(tried: seq<Step>, n: nat) returns (steps: seq<Step>, now: int)
    requires n < 5 && HasFailed(Run(INITIAL, tried), n)
    ensures var s, s' := Run(INITIAL, tried), Run(INITIAL, steps);
      var copy := s.store.outbox[0].(status := Inflight);
      && s'.store == s.store.(outbox := [copy.(nextAttemptAt := None)])
      && s'.drain == Draining([copy], Some(Unavailable)) && Handed(steps, 0) == n + 1
  {
    var m := Run(INITIAL, tried).store.outbox[0];
    now := m.nextAttemptAt.GetOr(0);
    TriedAgain(Run(INITIAL, tried), m, now);
    steps := Then(INITIAL, tried, ClaimStep(now));
    steps := Then(INITIAL, steps, ExchangeStep(NotSent));
    EveryRunCounts(steps, 0);
    assert AtPosition(Run(INITIAL, steps).drain, 0, 0);
  }

  lemma {:induction false} FailedRun(n: nat) returns (steps: seq<Step>)
    requires n <= 5
    ensures HasFailed(Run(INITIAL, steps), n)
  {
    if n == 0 {
      steps := ApprovedRun();
    } else {
      var tried := FailedRun(n - 1);
      var handed, now := HandedRun(tried, n - 1);
      FailedAgain(Run(INITIAL, handed), Run(INITIAL, handed).drain.queue[0], now);
      steps := Then(INITIAL, handed, SettleStep(now));
    }
  }

  /** A message nobody answers is handed to HCM exactly five times. */
  lemma HandedFiveTimes() returns (steps: seq<Step>)
    ensures Handed(steps, 0) == 5
  {
    var tried := FailedRun(4);
    var now;
    steps, now := HandedRun(tried, 4);
  }

  lemma OutOfTries(s: System)
    requires HasFailed(s, 5)
    ensures Exhausted(ViewOf(s, 0))
  {
    SelectAppend<Message>([], s.store.outbox[0], ForRequest(0));
    assert s.store.outbox == [] + [s.store.outbox[0]];
  }

  /** Five tries without an answer, and the request is still approved, its days held until it is cancelled. */
  lemma ApprovedForGood() returns (steps: seq<Step>)
    ensures 0 < |Run(INITIAL, steps).store.requests| && Exhausted(ViewOf(Run(INITIAL, steps), 0))
    ensures forall more: seq<Step> {:trigger Run(Run(INITIAL, steps), more)} :: CancelStep(0) !in more ==>
      var s' := Run(Run(INITIAL, steps), more);
      0 < |s'.store.requests| && s'.store.requests[0].status.Approved? && HeldDays(s'.store, 0) == 3
  {
    steps := FailedRun(5);
    var s := Run(INITIAL, steps);
    OutOfTries(s);
    EveryRunAgrees(steps);
    forall more: seq<Step> | CancelStep(0) !in more
      ensures var s' := Run(s, more);
        0 < |s'.store.requests| && s'.store.requests[0].status.Approved? && HeldDays(s'.store, 0) == 3
    {
      ExhaustedKeepsItsHold(s, more, 0);
    }
  }

  // ---- A crash -------------------------------------------------------------

  /** A drain that dies after its claim: the message stays in flight whatever follows. */
  lemma InFlightForGood() returns (steps: seq<Step>)
    ensures Run(INITIAL, steps).drain.Idle?
    ensures forall more: seq<Step> {:trigger Run(Run(INITIAL, steps), more)} ::
      var s' := Run(Run(INITIAL, steps), more);
      0 < |s'.store.outbox| && s'.store.outbox[0].status.Inflight? && Lost(s', 0)
  {
    var before := ClaimedRun();
    steps := Then(INITIAL, before, CrashStep);
    EveryRunAgrees(before);
    EveryRunAgrees(steps);
    var s := Run(INITIAL, before);
    CrashLosesExactlyTheClaimed(s, 0);
    forall more: seq<Step>
      ensures var s' := Run(Run(INITIAL, steps), more);
        0 < |s'.store.outbox| && s'.store.outbox[0].status.Inflight? && Lost(s', 0)
    {
      StuckForever(Run(INITIAL, steps), more, 0);
    }
  }

  // ---- A submit that overtakes a cancel ------------------------------------

  lemma CancelledDraft(s: System)
    requires IsAt(s, Draft, [], Idle) && s.store.ledger == []
    ensures var s' := Next(Next(s, SubmitBegin(0)), CancelStep(0));
      && s'.store.requests == Asked(Cancelled)
      && Next(s', SubmitEnd(KEY)).store.requests == Asked(PendingApproval)
  {
  }

  /** A draft cancelled while its submit is between the read and the save is submitted nonetheless. */
  lemma CancelledYetSubmitted() returns (steps: seq<Step>)
    ensures Run(INITIAL, steps).store.requests == Asked(Cancelled)
    ensures Next(Run(INITIAL, steps), SubmitEnd(KEY)).store.requests == Asked(PendingApproval)
  {
    steps := DraftedRun();
    CancelledDraft(Run(INITIAL, steps));
    steps := Then(INITIAL, steps, SubmitBegin(0));
    steps := Then(INITIAL, steps, CancelStep(0));
  }

  // ---- A faked success -----------------------------------------------------

  const LYING := GRANTED.(faults := DEFAULT_FAULTS.(ghostSuccess := true))

  /** Committed on the word of HCM, which has not moved. */
  ghost predicate IsFaked(s: System) {
    && s.store.requests == [Request(0, KEY, 3, Committed, Some(1))] && s.sessions == map[]
    && s.store.balances == map[KEY := Balance(10, 1)]
    && AckOf(s.hcm, DebitOf(0)) == Some(Ack(1, 10, 1, false)) && Log(s.hcm, KEY) == Log(GRANTED, KEY)
  }

  lemma LiedTo(s: System)
    requires IsAt(s, Approved, [CLAIMED], Draining([CLAIMED], None))
    ensures var s' := Next(Next(s, HcmStep(FaultsCall(LYING.faults))), ExchangeStep(Delivered));
      && s'.store == s.store && s'.sessions == map[]
      && s'.drain == Draining([CLAIMED], Some(Acked(Ack(1, 10, 1, false), false)))
      && AckOf(s'.hcm, DebitOf(0)) == Some(Ack(1, 10, 1, false)) && Log(s'.hcm, KEY) == Log(GRANTED, KEY)
  {
  }

  lemma Believed(s: System)
    requires s.store.requests == Asked(Approved) && s.store.balances == map[KEY := Balance(10, 1)]
    requires s.sessions == map[] && s.drain == Draining([CLAIMED], Some(Acked(Ack(1, 10, 1, false), false)))
    requires AckOf(s.hcm, DebitOf(0)) == Some(Ack(1, 10, 1, false)) && Log(s.hcm, KEY) == Log(GRANTED, KEY)
    ensures IsFaked(Next(s, SettleStep(0)))
  {
  }

  lemma FakedStays(s: System)
    requires IsFaked(s)
    ensures var s' := Next(s, HcmStep(SeedCall(KEY, 10)));
      && s'.store == s.store && Absorbs(s', KEY, 2) && AckOf(s'.hcm, DebitOf(0)) == AckOf(s.hcm, DebitOf(0))
  {
  }

  lemma FakedRun() returns (steps: seq<Step>)
    ensures IsFaked(Run(INITIAL, steps))
  {
    steps := ClaimedRun();
    LiedTo(Run(INITIAL, steps));
    steps := Then(INITIAL, steps, HcmStep(FaultsCall(LYING.faults)));
    steps := Then(INITIAL, steps, ExchangeStep(Delivered));
    Believed(Run(INITIAL, steps));
    steps := Then(INITIAL, steps, SettleStep(0));
  }

  /**
   * A success HCM faked is believed until the next snapshot, then forgotten: the request stays
   * committed, nothing is held for it and HCM was never debited.
   */
  lemma FakedAndForgotten() returns (steps: seq<Step>)
    ensures var s := Run(INITIAL, steps);
      && 0 < |s.store.requests| && s.store.requests[0].status.Committed? && FakedAndRetired(ViewOf(s, 0))
      && HeldDays(s.store, 0) == 0 && UncoveredDays(s, KEY)(0) == FakedDays(s, KEY)(0) == 3
  {
    steps := FakedRun();
    var s := Run(INITIAL, steps);
    EveryRunAgrees(steps);
    steps := Then(INITIAL, steps, HcmStep(SeedCall(KEY, 10)));
    EveryRunAgrees(steps);
    FakedStays(s);
    FakedIsForgotten(Run(INITIAL, steps), KEY, 2, 0);
    steps := Then(INITIAL, steps, ReconcileStep(KEY, 2));
  }

  // ---- An acknowledgement that comes too late ------------------------------

  const TAKEN := Ack(1, 7, 2, true)

  lemma Applied(s: System)
    requires IsAt(s, Approved, [CLAIMED], Draining([CLAIMED], None))
    ensures var s' := Next(s, ExchangeStep(Delivered));
      && s'.store == s.store && s'.sessions == map[] && s'.hcm == APPLIED
      && s'.drain == Draining([CLAIMED], Some(Acked(TAKEN, false)))
  {
  }

  /** The snapshot that contains the debit is absorbed before the debit is settled. */
  lemma Overtaken(s: System)
    requires s.store.requests == Asked(Approved) && s.store.balances == map[KEY := Balance(10, 1)]
    requires s.sessions == map[] && s.hcm == APPLIED && Inv(s)
    ensures var s' := Next(s, ReconcileStep(KEY, 2));
      && s'.store.requests == Asked(Approved) && s'.store.balances == map[KEY := Balance(7, 2)]
      && s'.sessions == map[] && s'.hcm == APPLIED && s'.drain == s.drain
  {
    AbsorbResult(s, KEY, 2);
  }

  lemma SettledLate(s: System)
    requires s.store.requests == Asked(Approved) && s.store.balances == map[KEY := Balance(7, 2)]
    requires s.sessions == map[] && s.hcm == APPLIED && s.drain == Draining([CLAIMED], Some(Acked(TAKEN, false)))
    ensures var s' := Next(s, SettleStep(0));
      && |s'.store.requests| == 1 && s'.store.requests[0].status.Committed? && s'.store.requests[0].days == 3
      && s'.store.balances == map[KEY := Balance(7, 2)] && s'.sessions == map[] && s'.hcm == APPLIED
  {
  }

  lemma FourLeft(s: System)
    requires Inv(s) && |s.store.requests| == 1 && s.store.requests[0].status.Committed?
    requires s.store.requests[0].days == 3 && s.store.balances == map[KEY := Balance(7, 2)]
    requires s.hcm == APPLIED && CountedTwice(s, KEY)(0) > 0
    ensures CountedTwice(s, KEY)(0) == 3 && Available(s.store, KEY) == 4
  {
    CountedTwiceExactly(s, KEY, 0);
    AvailableByRequest(s, KEY);
    assert SumTo(1, HeldAt(s.store, KEY)) == SumTo(0, HeldAt(s.store, KEY)) + HeldAt(s.store, KEY)(0);
  }

  /**
   * A debit is counted twice, by the newest snapshot and by an active commit: HCM has seven days
   * left, nothing is open, and the service offers four.
   */
  lemma CountedTwiceForNow() returns (steps: seq<Step>)
    ensures var s := Run(INITIAL, steps);
      && KEY in s.store.balances && KEY !in s.sessions && |s.store.requests| == 1
      && s.store.balances[KEY].lastReconciledVersion == Version(s.hcm, KEY) && !NothingPending(s.store, KEY)
      && CountedTwice(s, KEY)(0) == 3 && OpenDays(s.store, KEY)(0) == 0
      && Available(s.store, KEY) == 4 && CurrentBalance(s.hcm, KEY) == 7
  {
    steps := ClaimedRun();
    EveryRunAgrees(steps);
    Applied(Run(INITIAL, steps));
    steps := Then(INITIAL, steps, ExchangeStep(Delivered));
    EveryRunAgrees(steps);
    Overtaken(Run(INITIAL, steps));
    steps := Then(INITIAL, steps, ReconcileStep(KEY, 2));
    EveryRunAgrees(steps);
    var s := Run(INITIAL, steps);
    SettledLate(s);
    LateAcknowledgement(s, 0, 0);
    steps := Then(INITIAL, steps, SettleStep(0));
    EveryRunAgrees(steps);
    FourLeft(Run(INITIAL, steps));
  }

  // ---- A refused refund ----------------------------------------------------

  const COMMITTED := Request(0, KEY, 3, Committed, Some(1))
  const CREDIT := Message(1, 0, Credit, CreditOf(0), KEY, 3, Pending, 0, None)
  const RETURNING := CREDIT.(status := Inflight)
  const CLOSED := DEFAULT_FAULTS.(invalidDimensions := {KEY})

  lemma Kept(s: System)
    requires s.store.requests == Asked(Approved) && s.store.outbox == [CLAIMED] && s.sessions == map[]
    requires s.hcm == APPLIED && s.drain == Draining([CLAIMED], Some(Acked(TAKEN, false)))
    ensures var s' := Next(s, SettleStep(0));
      && s'.store.requests == [COMMITTED] && s'.store.outbox == [CLAIMED.(status := Done)]
      && s'.drain == Idle && s'.hcm == APPLIED && s'.sessions == map[]
  {
  }

  /** Committed, and the days handed back to a HCM that no longer knows the key. */
  lemma Returned(s: System)
    requires s.store.requests == [COMMITTED] && s.store.outbox == [CLAIMED.(status := Done)]
    requires s.drain == Idle && s.hcm == APPLIED
    ensures var s' := Next(Next(s, CancelStep(0)), HcmStep(FaultsCall(CLOSED)));
      && s'.store.requests == [COMMITTED.(status := CancellationPending)]
      && s'.store.outbox == [CLAIMED.(status := Done), CREDIT] && s'.drain == Idle
      && s'.hcm == APPLIED.(faults := CLOSED)
  {
  }

  lemma ClaimedBack(s: System)
    requires s.store.outbox == [CLAIMED.(status := Done), CREDIT] && s.drain == Idle
    ensures var s' := Next(s, ClaimStep(0));
      && s'.store == s.store.(outbox := [CLAIMED.(status := Done), RETURNING])
      && s'.drain == Draining([RETURNING], None) && s'.hcm == s.hcm
  {
    SelectAppend<Message>([], CLAIMED.(status := Done), DueAt(0));
    SelectAppend<Message>([CLAIMED.(status := Done)], CREDIT, DueAt(0));
    assert [] + [CLAIMED.(status := Done)] == [CLAIMED.(status := Done)];
    assert [CLAIMED.(status := Done)] + [CREDIT] == s.store.outbox;
  }

  lemma TurnedAway(s: System)
    requires s.drain == Draining([RETURNING], None) && s.hcm == APPLIED.(faults := CLOSED)
    ensures var s' := Next(s, ExchangeStep(Delivered));
      && s'.store == s.store && s'.hcm == s.hcm
      && s'.drain == Draining([RETURNING], Some(Refused(InvalidDimensions)))
  {
  }

  lemma Turned(s: System)
    requires s.store.requests == [COMMITTED.(status := CancellationPending)]
    requires s.store.outbox == [CLAIMED.(status := Done), RETURNING] && s.hcm == APPLIED.(faults := CLOSED)
    requires s.drain == Draining([RETURNING], Some(Refused(InvalidDimensions)))
    ensures var s' := Next(s, SettleStep(0));
      IsAbandoned(s', 0, 1) && s'.hcm == s.hcm && s'.store.requests == s.store.requests
  {
  }

  /** A cancelled commitment whose refund HCM refuses: it waits for ever, and HCM stays debited. */
  lemma RefundRefused() returns (steps: seq<Step>)
    ensures IsAbandoned(Run(INITIAL, steps), 0, 1)
    ensures forall more: seq<Step> {:trigger Run(Run(INITIAL, steps), more)} ::
      var s' := Run(Run(INITIAL, steps), more);
      && 0 < |s'.store.requests| && s'.store.requests[0].status.CancellationPending?
      && Moves(s'.hcm, KEY, 0, CausedBy(0)) == -3
  {
    steps := ClaimedRun();
    Applied(Run(INITIAL, steps));
    steps := Then(INITIAL, steps, ExchangeStep(Delivered));
    Kept(Run(INITIAL, steps));
    steps := Then(INITIAL, steps, SettleStep(0));
    Returned(Run(INITIAL, steps));
    steps := Then(INITIAL, steps, CancelStep(0));
    steps := Then(INITIAL, steps, HcmStep(FaultsCall(CLOSED)));
    ClaimedBack(Run(INITIAL, steps));
    steps := Then(INITIAL, steps, ClaimStep(0));
    TurnedAway(Run(INITIAL, steps));
    steps := Then(INITIAL, steps, ExchangeStep(Delivered));
    Turned(Run(INITIAL, steps));
    steps := Then(INITIAL, steps, SettleStep(0));
    var s := Run(INITIAL, steps);
    EveryRunAgrees(steps);
    forall more: seq<Step>
      ensures var s' := Run(s, more);
        && 0 < |s'.store.requests| && s'.store.requests[0].status.CancellationPending?
        && Moves(s'.hcm, KEY, 0, CausedBy(0)) == -3
    {
      AbandonedStaysDebited(s, more, 0, 1);
    }
  }
}
