/**
 * The services' operations are runs of the transition system: a submit is its two steps with
 * nothing in between, and a drain is a claim followed by an exchange and a settlement for each
 * message. So what holds of every run holds of them.
 */
module Refinement {
  import opened Domain
  import opened Tables
  import opened Balances
  import opened Outbox
  import opened TimeOff
  import opened Sync
  import opened HcmCore
  import opened OutboxProcessor
  import opened Protocol
  import opened Views
  import opened DeliverySteps
  import opened Invariant
  import opened Endings
  import Confluence

  /** A submit under a free lock, on a cached key, with nothing in between. */
  lemma SubmitIsTwoSteps(s: System, id: RequestId)
    requires Inv(s) && id < |s.store.requests|
    requires s.store.requests[id].key !in s.sessions && s.store.requests[id].key in s.store.balances
    ensures var key := s.store.requests[id].key;
      Next(Next(s, SubmitBegin(id)), SubmitEnd(key)) == WithStore(s, SubmitRequest(s.store, id))
  {
    var key, begun := s.store.requests[id].key, Next(s, SubmitBegin(id));
    assert begun.sessions - {key} == s.sessions;
    assert s.store.requests[id].id == id;
  }

  /** Loading a first snapshot is a read at HCM, then an insert of what it answered. */
  lemma LoadIsARun(s: System, key: Key)
    requires key !in s.store.balances
    ensures var (st, h, loaded) := EnsureLoaded(s.store, s.hcm, key);
      var read := Next(s, HcmStep(GetCall(key)));
      && read.hcm == h
      && (if loaded then Next(read, LoadStep(key, Version(h, key))).store == st else st == s.store)
  {
  }

  function ReconcileSteps(rows: seq<BalanceUpdate>): seq<Step> {
    if rows == [] then []
    else
      var u := rows[|rows| - 1];
      ReconcileSteps(rows[..|rows| - 1]) + [ReconcileStep(u.key, u.version)]
  }

  lemma ReconcileIsAStep(s: System, u: BalanceUpdate)
    requires u.key !in s.sessions && u.version <= Version(s.hcm, u.key)
    requires u.balance == BalanceAt(s.hcm, u.key, u.version)
    ensures Next(s, ReconcileStep(u.key, u.version)) == s.(store := ReconcileKey(s.store, u).0)
  {
    assert SnapshotAt(s.hcm, u.key, u.version) == u;
  }

  /** Ingesting genuine snapshots whose locks are free is a run of reconcile steps. */
  lemma {:induction false} BatchIsARun(s: System, rows: seq<BalanceUpdate>)
    requires Confluence.Genuine(rows, s.hcm) && forall u :: u in rows ==> u.key !in s.sessions
    ensures Run(s, ReconcileSteps(rows)) == s.(store := IngestBatch(s.store, rows).st)
  {
    if rows == [] {
    } else {
      var front, u := rows[..|rows| - 1], rows[|rows| - 1];
      BatchIsARun(s, front);
      RunAppend(s, ReconcileSteps(front), ReconcileStep(u.key, u.version));
      assert u in rows;
      ReconcileIsAStep(s.(store := IngestBatch(s.store, front).st), u);
    }
  }

  // ---- Drains --------------------------------------------------------------

  /** What the network and the clock do during one drain. */
  datatype Round = Round(wire: nat -> Wire, clock: nat -> int)

  /** Claim, then deliver the first `n` messages. */
  function DrainSteps(round: Round, n: nat): seq<Step> {
    if n == 0 then [ClaimStep(round.clock(0))]
    else DrainSteps(round, n - 1) + [ExchangeStep(round.wire(n - 1)), SettleStep(round.clock(n))]
  }

  function DeliverNext(s: System, wire: Wire, now: int): System {
    Next(Next(s, ExchangeStep(wire)), SettleStep(now))
  }

  lemma FirstIsClaim(s: System, round: Round)
    ensures Run(s, DrainSteps(round, 0)) == Next(s, ClaimStep(round.clock(0)))
  {
    RunAppend(s, [], ClaimStep(round.clock(0)));
    assert [] + [ClaimStep(round.clock(0))] == DrainSteps(round, 0);
  }

  lemma OneDelivery(s: System, wire: Wire, now: int)
    requires s.drain.Draining? && s.drain.queue != [] && s.drain.reply.None?
    ensures var (h', reply) := Exchange(s.hcm, CommandOf(s.drain.queue[0]), wire);
      var s' := DeliverNext(s, wire, now);
      && s'.store == Settle(s.store, s.drain.queue[0], reply, now) && s'.hcm == h'
      && s'.drain == AfterHead(s.drain.queue)
  {
  }

  /** The claimed messages from the `n`-th on are still to be delivered. */
  ghost predicate Remaining(d: Drain, due: seq<Message>, n: nat)
    requires n <= |due|
  {
    if n == |due| then d == Idle
    else
      && d.Draining? && d.reply.None? && |d.queue| == |due| - n
      && forall i :: 0 <= i < |d.queue| ==> d.queue[i] == due[n + i]
  }

  /** `s'` is where the delivery loop is after `n` messages. */
  ghost predicate Delivered(s': System, st: Store, h: Hcm, due: seq<Message>, n: nat, round: Round)
    requires n <= |due|
  {
    && (s'.store, s'.hcm) == DeliverFirst(st, h, due, n, round.wire, round.clock)
    && Remaining(s'.drain, due, n)
  }

  lemma DeliveredNone(s: System, due: seq<Message>, round: Round)
    requires due != [] && s.drain == Draining(due, None)
    ensures Delivered(s, s.store, s.hcm, due, 0, round)
  {
  }

  lemma DeliverOneMore(mid: System, s': System, st: Store, h: Hcm, due: seq<Message>, n: nat, round: Round)
    requires 0 < n <= |due| && Delivered(mid, st, h, due, n - 1, round)
    requires s' == DeliverNext(mid, round.wire(n - 1), round.clock(n))
    ensures Delivered(s', st, h, due, n, round)
  {
    OneDelivery(mid, round.wire(n - 1), round.clock(n));
  }

  /** `at(j)` is the system after j deliveries, from the claim `at(0)`. */
  ghost predicate IsDrain(at: nat -> System, round: Round) {
    forall j: nat {:trigger at(j), round.clock(j)} :: j > 0 ==>
      at(j) == DeliverNext(at(j - 1), round.wire(j - 1), round.clock(j))
  }

  function DrainAt(s: System, round: Round): (at: nat -> System)
    ensures forall j: nat {:trigger at(j)} :: at(j) == Run(s, DrainSteps(round, j))
  {
    (j: nat) => Run(s, DrainSteps(round, j))
  }

  lemma LastDelivery(s: System, round: Round, n: nat, before: System, after: System)
    requires n > 0 && before == Run(s, DrainSteps(round, n - 1)) && after == Run(s, DrainSteps(round, n))
    ensures after == DeliverNext(before, round.wire(n - 1), round.clock(n))
  {
    var front := DrainSteps(round, n - 1);
    var exchange, settle := ExchangeStep(round.wire(n - 1)), SettleStep(round.clock(n));
    RunAppend(s, front, exchange);
    RunAppend(s, front + [exchange], settle);
    assert front + [exchange] + [settle] == DrainSteps(round, n);
  }

  lemma RunsAreDrains(s: System, round: Round, at: nat -> System)
    requires forall j: nat {:trigger at(j)} :: at(j) == Run(s, DrainSteps(round, j))
    ensures IsDrain(at, round) && at(0) == Next(s, ClaimStep(round.clock(0)))
  {
    FirstIsClaim(s, round);
    forall j: nat | j > 0 ensures at(j) == DeliverNext(at(j - 1), round.wire(j - 1), round.clock(j)) {
      LastDelivery(s, round, j, at(j - 1), at(j));
    }
  }

  lemma {:induction false} DeliveredAlong(at: nat -> System, due: seq<Message>, round: Round, n: nat)
    requires IsDrain(at, round) && n <= |due| && due != [] && at(0).drain == Draining(due, None)
    ensures Delivered(at(n), at(0).store, at(0).hcm, due, n, round)
  {
    hide Delivered;
    if n == 0 {
      DeliveredNone(at(0), due, round);
    } else {
      DeliveredAlong(at, due, round, n - 1);
      DeliverOneMore(at(n - 1), at(n), at(0).store, at(0).hcm, due, n, round);
    }
  }

  /** How many messages a drain started now would claim. */
  function Claims(s: System, round: Round): nat {
    |Due(s.store.outbox, round.clock(0), CLAIM_LIMIT)|
  }

  function DrainOn(s: System, round: Round): System {
    Run(s, DrainSteps(round, Claims(s, round)))
  }

  /** The result of `Processor.DrainOnce` is that of a run of the system, and no drain is left over. */
  lemma DrainIsARun(s: System, round: Round)
    requires s.drain.Idle?
    ensures var (st, due) := ClaimDue(s.store, round.clock(0), CLAIM_LIMIT);
      var s' := DrainOn(s, round);
      && (s'.store, s'.hcm) == DeliverFirst(st, s.hcm, due, |due|, round.wire, round.clock)
      && s'.drain == Idle
  {
    RunsAreDrains(s, round, DrainAt(s, round));
    assert DrainOn(s, round) == DrainAt(s, round)(Claims(s, round));
    if Claims(s, round) > 0 {
      ClaimResult(s, round.clock(0));
      DeliveredAlong(DrainAt(s, round), ClaimDue(s.store, round.clock(0), CLAIM_LIMIT).1, round, Claims(s, round));
    }
  }

  lemma {:induction false} DrainsDoNotCrash(round: Round, n: nat)
    ensures CrashStep !in DrainSteps(round, n)
  {
    if n == 0 {
    } else {
      DrainsDoNotCrash(round, n - 1);
    }
  }

  /** A drain that returns leaves nothing in flight, provided nothing was lost before it. */
  lemma DrainSettlesItsClaim(s: System, round: Round, id: nat)
    requires Inv(s) && s.drain.Idle? && NoneLost(s) && id < |DrainOn(s, round).store.outbox|
    ensures NoneLost(DrainOn(s, round)) && !DrainOn(s, round).store.outbox[id].status.Inflight?
  {
    DrainsDoNotCrash(round, Claims(s, round));
    CrashFreeRunsLoseNone(s, DrainSteps(round, Claims(s, round)));
    DrainIsARun(s, round);
    assert !IsQueued(DrainOn(s, round), id);
  }

  // ---- Repeated drains come to rest ----------------------------------------

  /** From `s` to `s'` only work was done, `spent` of it at least. */
  ghost predicate OnlyWorked(s: System, s': System, spent: int) {
    && Inv(s') && |s'.store.outbox| == |s.store.outbox|
    && TotalWeight(s'.store.outbox) + spent <= TotalWeight(s.store.outbox)
  }

  lemma DeliveryStepWeighs(s: System, step: Step)
    requires Inv(s) && (step.ClaimStep? || step.ExchangeStep? || step.SettleStep?)
    ensures var outbox' := Next(s, step).store.outbox;
      && |outbox'| == |s.store.outbox|
      && TotalWeight(outbox') + (if Works(s, step) then 1 else 0) <= TotalWeight(s.store.outbox)
  {
    StepWeighs(s, Next(s, step), step);
    if step.SettleStep? && Settleable(s) { SettleIsSettled(s, step.now); }
  }

  lemma DeliverNextWorks(s: System, wire: Wire, now: int)
    requires Inv(s)
    ensures OnlyWorked(s, DeliverNext(s, wire, now), 0)
  {
    var answered := Next(s, ExchangeStep(wire));
    NextKeeps(s, ExchangeStep(wire));
    DeliveryStepWeighs(s, ExchangeStep(wire));
    NextKeeps(answered, SettleStep(now));
    DeliveryStepWeighs(answered, SettleStep(now));
  }

  lemma {:induction false} DeliveriesWork(at: nat -> System, round: Round, n: nat)
    requires IsDrain(at, round) && Inv(at(0))
    ensures OnlyWorked(at(0), at(n), 0)
  {
    if n == 0 {
    } else {
      DeliveriesWork(at, round, n - 1);
      DeliverNextWorks(at(n - 1), round.wire(n - 1), round.clock(n));
    }
  }

  lemma DrainWorks(s: System, round: Round)
    requires Inv(s)
    ensures OnlyWorked(s, DrainOn(s, round), if Works(s, ClaimStep(round.clock(0))) then 1 else 0)
  {
    NextKeeps(s, ClaimStep(round.clock(0)));
    DeliveryStepWeighs(s, ClaimStep(round.clock(0)));
    RunsAreDrains(s, round, DrainAt(s, round));
    DeliveriesWork(DrainAt(s, round), round, Claims(s, round));
  }

  /** The system after a number of drains, one after the other. */
  function DrainMany(s: System, rounds: seq<Round>): System {
    if rounds == [] then s else DrainOn(DrainMany(s, rounds[..|rounds| - 1]), rounds[|rounds| - 1])
  }

  /** Each drain starts when the backoffs it finds have elapsed. */
  ghost predicate Patient(s: System, rounds: seq<Round>) {
    forall n: nat {:trigger rounds[n]} :: n < |rounds| ==>
      BackoffsElapsed(DrainMany(s, rounds[..n]).store.outbox, rounds[n].clock(0))
  }

  ghost predicate AllStuck(s: System) { forall id: nat :: id < |s.store.outbox| ==> Stuck(s, id) }

  /** Each patient drain does some work, or everything is stuck already. */
  lemma OneDrainWorks(s: System, round: Round)
    requires Inv(s) && s.drain.Idle? && BackoffsElapsed(s.store.outbox, round.clock(0))
    ensures var s' := DrainOn(s, round);
      && Inv(s') && s'.drain.Idle? && |s'.store.outbox| == |s.store.outbox|
      && (AllStuck(s) ==> AllStuck(s'))
      && (AllStuck(s) || TotalWeight(s'.store.outbox) < TotalWeight(s.store.outbox))
  {
    DrainWorks(s, round);
    DrainIsARun(s, round);
    NothingDueMeansAllStuck(s, round.clock(0));
    if AllStuck(s) {
      forall id: nat | id < |s.store.outbox| ensures Stuck(DrainOn(s, round), id) {
        StuckForever(s, DrainSteps(round, Claims(s, round)), id);
      }
    }
  }

  lemma PatientFront(s: System, rounds: seq<Round>)
    requires rounds != [] && Patient(s, rounds)
    ensures Patient(s, rounds[..|rounds| - 1])
  {
    var front := rounds[..|rounds| - 1];
    forall n: nat | n < |front|
      ensures BackoffsElapsed(DrainMany(s, front[..n]).store.outbox, front[n].clock(0))
    {
      assert front[..n] == rounds[..n] && rounds[n] == front[n];
    }
  }

  /**
   * Repeated drains come to rest. However the network behaves, once as many patient drains have run
   * as the outbox weighs, at most eleven for each message, no message is due any more and none ever
   * will be: each is done, dead, or lost by an earlier crash.
   */
  lemma {:induction false} DrainsComeToRest(s: System, rounds: seq<Round>)
    requires Inv(s) && s.drain.Idle? && Patient(s, rounds)
    ensures var s' := DrainMany(s, rounds);
      && Inv(s') && s'.drain.Idle?
      && (AllStuck(s') || TotalWeight(s'.store.outbox) + |rounds| <= TotalWeight(s.store.outbox))
      && (|rounds| > TotalWeight(s.store.outbox) ==> AllStuck(s'))
  {
    var outbox' := DrainMany(s, rounds).store.outbox;
    SumNonNegative(|outbox'|, WeightAt(outbox'));
    if rounds == [] {
    } else {
      var front, round := rounds[..|rounds| - 1], rounds[|rounds| - 1];
      PatientFront(s, rounds);
      DrainsComeToRest(s, front);
      assert rounds[|rounds| - 1].clock(0) == round.clock(0);
      OneDrainWorks(DrainMany(s, front), round);
    }
  }
}
