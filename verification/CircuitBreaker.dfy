/**
 * The circuit breaker: a latched automaton whose answers are a function of the calls made to it,
 * namely of the failures since the last success and of the time since the last of them.
 */
module CircuitBreaker {
  import opened Domain

  datatype Options = Options(failureThreshold: int, cooldownMs: int)

  datatype CircuitState = Closed | Open | HalfOpen

  datatype Breaker = Breaker(state: CircuitState, consecutiveFailures: nat, openedAt: int)

  /** A call to the breaker, with what its clock said. */
  datatype Call = Query(now: int) | Success | Failure(now: int)

  const FRESH := Breaker(Closed, 0, 0)

  /** The state a query finds, half-opening an open circuit whose cooldown has elapsed. */
  function Queried(b: Breaker, o: Options, now: int): Breaker {
    if b.state.Open? && now - b.openedAt >= o.cooldownMs then b.(state := HalfOpen) else b
  }

  function Failed(b: Breaker, o: Options, now: int): Breaker {
    var failures := b.consecutiveFailures + 1;
    if failures >= o.failureThreshold then Breaker(Open, failures, now) else b.(consecutiveFailures := failures)
  }

  function Next(b: Breaker, o: Options, call: Call): Breaker {
    match call
    case Query(now) => Queried(b, o, now)
    case Success => b.(consecutiveFailures := 0, state := Closed)
    case Failure(now) => Failed(b, o, now)
  }

  function Run(o: Options, calls: seq<Call>): Breaker {
    if calls == [] then FRESH else Next(Run(o, calls[..|calls| - 1]), o, calls[|calls| - 1])
  }

  predicate Allows(b: Breaker, o: Options, now: int) { !Queried(b, o, now).state.Open? }

  // ---- The history ---------------------------------------------------------

  /** Failures since the last success. */
  function Failures(calls: seq<Call>): nat {
    if calls == [] then 0
    else
      match calls[|calls| - 1]
      case Success => 0
      case Failure(_) => Failures(calls[..|calls| - 1]) + 1
      case Query(_) => Failures(calls[..|calls| - 1])
  }

  /** When the last failure since the last success was recorded. */
  function LastFailure(calls: seq<Call>): Option<int> {
    if calls == [] then None
    else
      match calls[|calls| - 1]
      case Success => None
      case Failure(now) => Some(now)
      case Query(_) => LastFailure(calls[..|calls| - 1])
  }

  predicate Cooled(calls: seq<Call>, o: Options, now: int) {
    LastFailure(calls).Some? && now - LastFailure(calls).value >= o.cooldownMs
  }

  /** A query since the last failure found the cooldown elapsed. */
  predicate Probed(calls: seq<Call>, o: Options) {
    if calls == [] then false
    else
      match calls[|calls| - 1]
      case Success => false
      case Failure(_) => false
      case Query(now) =>
        Probed(calls[..|calls| - 1], o) || Cooled(calls[..|calls| - 1], o, now)
  }

  /** Enough failures to open. A threshold below one acts as one. */
  predicate Tripped(calls: seq<Call>, o: Options) { Failures(calls) >= 1 && Failures(calls) >= o.failureThreshold }

  /** The breaker's fields, read off the history. */
  ghost predicate Reflects(b: Breaker, o: Options, calls: seq<Call>) {
    && b.consecutiveFailures == Failures(calls)
    && (Failures(calls) >= 1 <==> LastFailure(calls).Some?)
    && (b.state.Closed? <==> !Tripped(calls, o))
    && (Tripped(calls, o) ==> LastFailure(calls) == Some(b.openedAt) && (b.state.HalfOpen? <==> Probed(calls, o)))
  }

  lemma {:induction false} EveryRunReflects(o: Options, calls: seq<Call>)
    ensures Reflects(Run(o, calls), o, calls)
  {
    if calls == [] {
    } else {
      EveryRunReflects(o, calls[..|calls| - 1]);
    }
  }

  /**
   * For every sequence of calls, late successes and failures while open included, and for any
   * clock: an attempt is refused exactly when the failures since the last success have reached the
   * threshold, the last of them is less than a cooldown ago, and no query since then found the
   * cooldown elapsed.
   */
  lemma RefusesExactly(o: Options, calls: seq<Call>, now: int)
    ensures !Allows(Run(o, calls), o, now) <==>
      Tripped(calls, o) && !Cooled(calls, o, now) && !Probed(calls, o)
  {
    EveryRunReflects(o, calls);
  }

  // ---- A clock that does not go back ---------------------------------------

  /** No call was made later than `now`, and the calls are in the order of their times. */
  ghost predicate Monotone(calls: seq<Call>, now: int)
    decreases |calls|
  {
    calls == [] ||
    var last := calls[|calls| - 1];
    if last.Success? then Monotone(calls[..|calls| - 1], now)
    else last.now <= now && Monotone(calls[..|calls| - 1], last.now)
  }

  lemma {:induction false} ProbedStaysCooled(o: Options, calls: seq<Call>, now: int)
    requires Monotone(calls, now) && Probed(calls, o)
    ensures Cooled(calls, o, now)
  {
    var front, last := calls[..|calls| - 1], calls[|calls| - 1];
    if Probed(front, o) { ProbedStaysCooled(o, front, last.now); }
  }

  /** With such a clock the last condition is redundant: two numbers decide. */
  lemma RefusesExactlyWhenRecent(o: Options, calls: seq<Call>, now: int)
    requires Monotone(calls, now)
    ensures !Allows(Run(o, calls), o, now) <==> Tripped(calls, o) && !Cooled(calls, o, now)
  {
    RefusesExactly(o, calls, now);
    if Probed(calls, o) { ProbedStaysCooled(o, calls, now); }
  }

  /** With a clock that goes back they do not: once half-open, the circuit lets calls through. */
  lemma ClockMustNotGoBack() returns (o: Options, calls: seq<Call>, now: int)
    ensures Tripped(calls, o) && !Cooled(calls, o, now) && Allows(Run(o, calls), o, now)
  {
    o, calls, now := Options(1, 10), [Failure(0), Query(100)], 5;
    assert calls[..1] == [Failure(0)] && [Failure(0)][..0] == [];
    assert LastFailure([Failure(0)]) == Some(0) && Failures([Failure(0)]) == 1;
    RefusesExactly(o, calls, now);
    assert Cooled([Failure(0)], o, 100);
  }

  // ---- The guarded call ----------------------------------------------------

  /** What the guarded function does: answer, refuse with authority, or break. */
  datatype Outcome = Answered | RefusedByHcm | Broke

  /** The calls one guarded call makes to the breaker; a refusal by HCM is no failure of HCM. */
  function GuardedCalls(o: Options, calls: seq<Call>, start: int, end: int, outcome: Outcome): seq<Call> {
    var asked := calls + [Query(start)];
    if !Allows(Run(o, calls), o, start) then asked
    else
      match outcome
      case Answered => asked + [Success]
      case RefusedByHcm => asked
      case Broke => asked + [Failure(end)]
  }

  lemma HistoryAppend(calls: seq<Call>, call: Call, o: Options)
    ensures Failures(calls + [call]) ==
      match call case Success => 0 case Failure(_) => Failures(calls) + 1 case Query(_) => Failures(calls)
    ensures LastFailure(calls + [call]) ==
      match call case Success => None case Failure(now) => Some(now) case Query(_) => LastFailure(calls)
  {
  }

  /**
   * A guarded call reaches HCM unless the circuit is tripped and its last failure recent; only an
   * answer clears the failures and only a breakdown adds one, so while the circuit is open calls
   * leave the count and the cooldown as they are.
   */
  lemma GuardedCallCounts(o: Options, calls: seq<Call>, start: int, end: int, outcome: Outcome)
    requires Monotone(calls, start)
    ensures var after := GuardedCalls(o, calls, start, end, outcome);
      var refused := Tripped(calls, o) && !Cooled(calls, o, start);
      && Failures(after) ==
           (if refused || outcome.RefusedByHcm? then Failures(calls)
            else if outcome.Answered? then 0 else Failures(calls) + 1)
      && LastFailure(after) ==
           (if refused || outcome.RefusedByHcm? then LastFailure(calls)
            else if outcome.Answered? then None else Some(end))
  {
    RefusesExactlyWhenRecent(o, calls, start);
    HistoryAppend(calls, Query(start), o);
    HistoryAppend(calls + [Query(start)], Success, o);
    HistoryAppend(calls + [Query(start)], Failure(end), o);
  }

  // ---- The breaker itself --------------------------------------------------

  class Circuit {
    const opts: Options
    var state: CircuitState
    var consecutiveFailures: nat
    var openedAt: int
    ghost var calls: seq<Call>

    ghost predicate Valid()
      reads this
    {
      Breaker(state, consecutiveFailures, openedAt) == Run(opts, calls)
    }

    constructor (opts: Options)
      ensures Valid() && this.opts == opts && calls == []
    {
      this.opts := opts;
      state, consecutiveFailures, openedAt := Closed, 0, 0;
      calls := [];
    }

    /** The current state; asking may half-open an open circuit. */
    method GetState(now: int) returns (current: CircuitState)
      requires Valid()
      modifies this
      ensures Valid() && calls == old(calls) + [Query(now)] && current == state
      ensures current.Closed? <==> !Tripped(old(calls), opts)
      ensures current.Open? <==>
        Tripped(old(calls), opts) && !Cooled(old(calls), opts, now) && !Probed(old(calls), opts)
    {
      RefusesExactly(opts, calls, now);
      EveryRunReflects(opts, calls);
      assert (calls + [Query(now)])[..|calls|] == calls;
      if state == Open && now - openedAt >= opts.cooldownMs {
        state := HalfOpen;
      }
      calls := calls + [Query(now)];
      current := state;
    }

    method CanAttempt(now: int) returns (allowed: bool)
      requires Valid()
      modifies this
      ensures Valid() && calls == old(calls) + [Query(now)]
      ensures allowed <==> !Tripped(old(calls), opts) || Cooled(old(calls), opts, now) || Probed(old(calls), opts)
    {
      var current := GetState(now);
      allowed := current != Open;
    }

    method RecordSuccess()
      requires Valid()
      modifies this
      ensures Valid() && calls == old(calls) + [Success] && state.Closed? && consecutiveFailures == 0
    {
      assert (calls + [Success])[..|calls|] == calls;
      consecutiveFailures := 0;
      state := Closed;
      calls := calls + [Success];
    }

    method RecordFailure(now: int)
      requires Valid()
      modifies this
      ensures Valid() && calls == old(calls) + [Failure(now)]
      ensures consecutiveFailures == Failures(old(calls)) + 1
    {
      EveryRunReflects(opts, calls);
      assert (calls + [Failure(now)])[..|calls|] == calls;
      consecutiveFailures := consecutiveFailures + 1;
      if consecutiveFailures >= opts.failureThreshold {
        state := Open;
        openedAt := now;
      }
      calls := calls + [Failure(now)];
    }
  }
}
