/**
 * The per-key lock. A call queues behind the promise of the call before it, runs when that one
 * has released, and releases in turn; `tails` keeps, per key, the promise of the last call.
 *
 * The promise a call creates is named by the call's number. A call is cut at its one await: it
 * arrives, later it starts, and when its body has returned or thrown it finishes.
 */
module KeyedMutex {
  import opened Domain

  datatype Phase = Waiting | Running | Released

  /** One call of runExclusive: the promise it awaits (None: one already resolved) and how far it is. */
  datatype Task = Task(key: string, previous: Option<nat>, phase: Phase)

  /** `started` is history: the calls in the order in which their bodies began. */
  datatype Lock = Lock(tails: map<string, nat>, tasks: seq<Task>, started: seq<nat>)

  datatype Turn = Arrive(key: string) | Start(task: nat) | Finish(task: nat)

  const FREE := Lock(map[], [], [])

  function Previous(tails: map<string, nat>, key: string): Option<nat> {
    if key in tails then Some(tails[key]) else None
  }

  predicate IsResolved(tasks: seq<Task>, promise: Option<nat>) {
    promise.Some? && promise.value < |tasks| ==> tasks[promise.value].phase.Released?
  }

  /** Its turn has come: it is waiting and the promise it awaits is resolved. */
  predicate CanStart(lock: Lock, t: nat) {
    t < |lock.tasks| && lock.tasks[t].phase.Waiting? && IsResolved(lock.tasks, lock.tasks[t].previous)
  }

  function DoArrive(lock: Lock, key: string): Lock {
    lock.(tails := lock.tails[key := |lock.tasks|],
          tasks := lock.tasks + [Task(key, Previous(lock.tails, key), Waiting)])
  }

  function SetPhase(tasks: seq<Task>, t: nat, phase: Phase): seq<Task>
    requires t < |tasks|
  {
    tasks[t := tasks[t].(phase := phase)]
  }

  function DoFinish(lock: Lock, t: nat): Lock
    requires t < |lock.tasks|
  {
    var key := lock.tasks[t].key;
    lock.(tails := if Previous(lock.tails, key) == Some(t) then lock.tails - {key} else lock.tails,
          tasks := SetPhase(lock.tasks, t, Phase.Released))
  }

  /** A turn that is not possible changes nothing, so every list of turns is a run. */
  function Next(lock: Lock, turn: Turn): Lock {
    match turn
    case Arrive(key) => DoArrive(lock, key)
    case Start(t) =>
      if CanStart(lock, t) then
        lock.(tasks := SetPhase(lock.tasks, t, Running), started := lock.started + [t])
      else lock
    case Finish(t) => if t < |lock.tasks| && lock.tasks[t].phase.Running? then DoFinish(lock, t) else lock
  }

  function Run(turns: seq<Turn>): Lock {
    if turns == [] then FREE else Next(Run(turns[..|turns| - 1]), turns[|turns| - 1])
  }

  // ---- What each turn does -------------------------------------------------

  /** Only call `t` changed, and only how far it is. */
  ghost predicate OnlyMoved(lock: Lock, lock': Lock, t: nat, phase: Phase) {
    && t < |lock.tasks| == |lock'.tasks|
    && forall j :: 0 <= j < |lock.tasks| ==>
         lock'.tasks[j] == if j == t then Task(lock.tasks[t].key, lock.tasks[t].previous, phase) else lock.tasks[j]
  }

  /** A call arrives last, awaiting the promise its key's entry names, and the entry names it. */
  lemma ArriveExactly(lock: Lock, key: string)
    ensures var lock' := Next(lock, Arrive(key));
      var previous := if key in lock.tails then Some(lock.tails[key]) else None;
      && lock'.tasks == lock.tasks + [Task(key, previous, Waiting)] && lock'.started == lock.started
      && lock'.tails == lock.tails[key := |lock.tasks|]
  {
  }

  /** A call whose turn has come runs; any other stays as it is. */
  lemma StartExactly(lock: Lock, t: nat)
    ensures var lock' := Next(lock, Start(t));
      var turn := t < |lock.tasks| && lock.tasks[t].phase.Waiting?
        && (lock.tasks[t].previous.Some? && lock.tasks[t].previous.value < |lock.tasks| ==>
              lock.tasks[lock.tasks[t].previous.value].phase.Released?);
      if turn then
        OnlyMoved(lock, lock', t, Running) && lock'.started == lock.started + [t] && lock'.tails == lock.tails
      else lock' == lock
  {
  }

  /** A running call releases, and takes its key's entry along if that still names it. */
  lemma FinishExactly(lock: Lock, t: nat)
    ensures var lock' := Next(lock, Finish(t));
      if t < |lock.tasks| && lock.tasks[t].phase.Running? then
        var key := lock.tasks[t].key;
        && OnlyMoved(lock, lock', t, Phase.Released) && lock'.started == lock.started
        && (forall k :: k in lock'.tails <==> k in lock.tails && (k == key ==> lock.tails[k] != t))
        && (forall k :: k in lock'.tails ==> lock'.tails[k] == lock.tails[k])
      else lock' == lock
  {
  }

  // ---- What every interleaving keeps ---------------------------------------

  predicate IsOpen(lock: Lock, key: string, t: nat) {
    t < |lock.tasks| && lock.tasks[t].key == key && !lock.tasks[t].phase.Released?
  }

  predicate IsRunning(lock: Lock, t: nat) { t < |lock.tasks| && lock.tasks[t].phase.Running? }

  /** Every call of the key before `t` has released. */
  ghost predicate AllReleasedBefore(tasks: seq<Task>, key: string, t: nat) {
    forall j :: 0 <= j < t && j < |tasks| && tasks[j].key == key ==> tasks[j].phase.Released?
  }

  /** No call of the key between `p` and `t`. */
  ghost predicate Adjacent(tasks: seq<Task>, key: string, p: nat, t: nat) {
    forall j :: p < j < t && j < |tasks| ==> tasks[j].key != key
  }

  /** A call awaits the call of its key just before it, if that had not released when it came. */
  ghost predicate QueuesBehindLast(tasks: seq<Task>, t: nat)
    requires t < |tasks|
  {
    match tasks[t].previous
    case None => AllReleasedBefore(tasks, tasks[t].key, t)
    case Some(p) => p < t && tasks[p].key == tasks[t].key && Adjacent(tasks, tasks[t].key, p, t)
  }

  /** `tails` names the last call of each key that has an open call, and nothing else. */
  ghost predicate TailsOk(lock: Lock) {
    && (forall key :: key in lock.tails ==>
          && IsOpen(lock, key, lock.tails[key])
          && Adjacent(lock.tasks, key, lock.tails[key], |lock.tasks|))
    && (forall t: nat {:trigger lock.tasks[t]} ::
          t < |lock.tasks| && !lock.tasks[t].phase.Released? ==> lock.tasks[t].key in lock.tails)
  }

  ghost predicate StartedOk(lock: Lock) {
    && (forall n :: 0 <= n < |lock.started| ==>
          lock.started[n] < |lock.tasks| && !lock.tasks[lock.started[n]].phase.Waiting?)
    && (forall n, m ::
          (0 <= n < m < |lock.started| && lock.tasks[lock.started[n]].key == lock.tasks[lock.started[m]].key) ==>
          lock.started[n] < lock.started[m])
  }

  ghost predicate Inv(lock: Lock) {
    && (forall t: nat {:trigger QueuesBehindLast(lock.tasks, t)} ::
          t < |lock.tasks| ==> QueuesBehindLast(lock.tasks, t))
    && (forall t: nat {:trigger lock.tasks[t]} :: t < |lock.tasks| && !lock.tasks[t].phase.Waiting? ==>
          AllReleasedBefore(lock.tasks, lock.tasks[t].key, t))
    && TailsOk(lock)
    && StartedOk(lock)
  }

  /** A call may start only when all calls of its key before it have released. */
  lemma StartIsInOrder(lock: Lock, t: nat)
    requires Inv(lock) && CanStart(lock, t)
    ensures AllReleasedBefore(lock.tasks, lock.tasks[t].key, t)
  {
    assert QueuesBehindLast(lock.tasks, t);
    var previous := lock.tasks[t].previous;
    if previous.Some? {
      assert lock.tasks[previous.value].phase.Released?;
    }
  }

  lemma ArriveKeeps(lock: Lock, key: string)
    requires Inv(lock)
    ensures Inv(Next(lock, Arrive(key)))
  {
    var lock' := Next(lock, Arrive(key));
    forall t: nat | t < |lock'.tasks| ensures QueuesBehindLast(lock'.tasks, t) {
      if t < |lock.tasks| { assert QueuesBehindLast(lock.tasks, t); }
    }
  }

  lemma StartKeeps(lock: Lock, s: nat)
    requires Inv(lock)
    ensures Inv(Next(lock, Start(s)))
  {
    if CanStart(lock, s) {
      var lock' := Next(lock, Start(s));
      StartIsInOrder(lock, s);
      forall t: nat | t < |lock'.tasks| ensures QueuesBehindLast(lock'.tasks, t) {
        assert QueuesBehindLast(lock.tasks, t);
      }
      forall n | 0 <= n < |lock.started| && lock.tasks[lock.started[n]].key == lock.tasks[s].key
        ensures lock.started[n] < s
      {
        assert !lock.tasks[lock.started[n]].phase.Waiting?;
        assert AllReleasedBefore(lock.tasks, lock.tasks[s].key, lock.started[n]);
      }
    }
  }

  lemma FinishKeeps(lock: Lock, s: nat)
    requires Inv(lock)
    ensures Inv(Next(lock, Finish(s)))
  {
    var lock' := Next(lock, Finish(s));
    if lock' != lock {
      forall t: nat | t < |lock'.tasks| ensures QueuesBehindLast(lock'.tasks, t) {
        assert QueuesBehindLast(lock.tasks, t);
      }
    }
  }

  lemma {:induction false} EveryRunKeeps(turns: seq<Turn>)
    ensures Inv(Run(turns))
  {
    if turns == [] {
    } else {
      var lock, turn := Run(turns[..|turns| - 1]), turns[|turns| - 1];
      EveryRunKeeps(turns[..|turns| - 1]);
      match turn
      case Arrive(key) => ArriveKeeps(lock, key);
      case Start(t) => StartKeeps(lock, t);
      case Finish(t) => FinishKeeps(lock, t);
    }
  }

  // ---- Safety --------------------------------------------------------------

  /**
   * Over every interleaving at most one body runs per key, bodies begin in the order of arrival,
   * and a key has an entry in `tails` exactly while a call of it is unfinished.
   */
  lemma MutualExclusionInOrder(turns: seq<Turn>)
    ensures var lock := Run(turns);
      && (forall i: nat, j: nat :: IsRunning(lock, i) && IsRunning(lock, j) && i != j ==>
            lock.tasks[i].key != lock.tasks[j].key)
      && (forall n, m :: 0 <= n < m < |lock.started| ==>
            lock.started[n] < |lock.tasks| && lock.started[m] < |lock.tasks|
            && (lock.tasks[lock.started[n]].key == lock.tasks[lock.started[m]].key ==>
                  lock.started[n] < lock.started[m]))
      && (forall key :: key in lock.tails <==> exists t: nat :: IsOpen(lock, key, t))
  {
    EveryRunKeeps(turns);
  }

  // ---- Progress ------------------------------------------------------------

  /** How many calls of the key before `n` have not released. */
  function Ahead(tasks: seq<Task>, key: string, n: nat): nat
    requires n <= |tasks|
  {
    if n == 0 then 0
    else
      Ahead(tasks, key, n - 1) + (if tasks[n - 1].key == key && !tasks[n - 1].phase.Released? then 1 else 0)
  }

  lemma {:induction false} NothingAhead(tasks: seq<Task>, key: string, n: nat)
    requires n <= |tasks|
    ensures Ahead(tasks, key, n) == 0 <==> AllReleasedBefore(tasks, key, n)
  {
    if n == 0 {
    } else {
      NothingAhead(tasks, key, n - 1);
    }
  }

  /** It is an open call's turn exactly when nobody of its key is ahead of it. */
  lemma FrontRunsOrMayStart(turns: seq<Turn>, t: nat)
    requires t < |Run(turns).tasks| && !Run(turns).tasks[t].phase.Released?
    ensures var lock := Run(turns);
      Ahead(lock.tasks, lock.tasks[t].key, t) == 0 <==> lock.tasks[t].phase.Running? || CanStart(lock, t)
  {
    var lock := Run(turns);
    var key := lock.tasks[t].key;
    EveryRunKeeps(turns);
    NothingAhead(lock.tasks, key, t);
    if CanStart(lock, t) { StartIsInOrder(lock, t); }
    assert QueuesBehindLast(lock.tasks, t);
  }

  lemma {:induction false} FrontExists(tasks: seq<Task>, key: string, n: nat) returns (t: nat)
    requires n < |tasks| && tasks[n].key == key && !tasks[n].phase.Released?
    ensures t <= n && tasks[t].key == key && !tasks[t].phase.Released? && Ahead(tasks, key, t) == 0
    decreases n
  {
    NothingAhead(tasks, key, n);
    if Ahead(tasks, key, n) == 0 {
      t := n;
    } else {
      var j: nat :| j < n && tasks[j].key == key && !tasks[j].phase.Released?;
      t := FrontExists(tasks, key, j);
    }
  }

  /** While a key has an open call, exactly one of its calls is running or may start. */
  lemma ExactlyOneMayProceed(turns: seq<Turn>, key: string)
    requires key in Run(turns).tails
    ensures var lock := Run(turns);
      exists t: nat ::
        && IsOpen(lock, key, t) && (lock.tasks[t].phase.Running? || CanStart(lock, t))
        && forall u: nat :: IsOpen(lock, key, u) && (lock.tasks[u].phase.Running? || CanStart(lock, u)) ==> u == t
  {
    var lock := Run(turns);
    EveryRunKeeps(turns);
    var t := FrontExists(lock.tasks, key, lock.tails[key]);
    FrontRunsOrMayStart(turns, t);
    assert IsOpen(lock, key, t);
    forall u: nat | IsOpen(lock, key, u) && (lock.tasks[u].phase.Running? || CanStart(lock, u)) ensures u == t {
      FrontRunsOrMayStart(turns, u);
      NothingAhead(lock.tasks, key, u);
      NothingAhead(lock.tasks, key, t);
    }
  }

  lemma {:induction false} AheadAfter(lock: Lock, turn: Turn, key: string, n: nat)
    requires n <= |lock.tasks|
    ensures n <= |Next(lock, turn).tasks|
    ensures Ahead(Next(lock, turn).tasks, key, n) == Ahead(lock.tasks, key, n) -
      if turn.Finish? && turn.task < n && lock.tasks[turn.task].phase.Running? && lock.tasks[turn.task].key == key
      then 1 else 0
  {
    if n == 0 {
    } else {
      AheadAfter(lock, turn, key, n - 1);
    }
  }

  /**
   * No call is overtaken and none waits for ever on its key: the number of calls ahead of a call
   * never grows, and falls by one each time a call ahead of it finishes.
   */
  lemma QueueAheadOnlyShrinks(turns: seq<Turn>, turn: Turn, t: nat)
    requires t < |Run(turns).tasks|
    ensures var lock := Run(turns);
      var lock' := Next(lock, turn);
      var key := lock.tasks[t].key;
      && t < |lock'.tasks| && lock'.tasks[t].key == key
      && Ahead(lock'.tasks, key, t) == Ahead(lock.tasks, key, t) -
           (if turn.Finish? && turn.task < t && lock.tasks[turn.task].phase.Running? && lock.tasks[turn.task].key == key
            then 1 else 0)
  {
    AheadAfter(Run(turns), turn, Run(turns).tasks[t].key, t);
  }

  /** Only starts and finishes: no new calls are needed. */
  ghost predicate OnlyProceeds(turns: seq<Turn>) { forall turn :: turn in turns ==> !turn.Arrive? }

  lemma RunOneMore(turns: seq<Turn>, more: seq<Turn>, turn: Turn)
    requires OnlyProceeds(more) && !turn.Arrive?
    ensures OnlyProceeds(more + [turn]) && Run(turns + (more + [turn])) == Next(Run(turns + more), turn)
  {
    var all := turns + (more + [turn]);
    assert all[..|all| - 1] == turns + more && all[|all| - 1] == turn;
  }

  /** The call at the front of a key's queue gets out of the way: it starts, if need be, and finishes. */
  lemma FrontLeaves(turns: seq<Turn>, more: seq<Turn>, u: nat) returns (more': seq<Turn>)
    requires var lock := Run(turns + more);
      u < |lock.tasks| && !lock.tasks[u].phase.Released? && Ahead(lock.tasks, lock.tasks[u].key, u) == 0
    requires OnlyProceeds(more)
    ensures OnlyProceeds(more')
    ensures var lock, lock' := Run(turns + more), Run(turns + more'); OnlyMoved(lock, lock', u, Phase.Released)
  {
    var lock := Run(turns + more);
    FrontRunsOrMayStart(turns + more, u);
    RunOneMore(turns, more, Start(u));
    StartExactly(lock, u);
    more' := more + [Start(u)];
    FinishExactly(Run(turns + more'), u);
    RunOneMore(turns, more', Finish(u));
    more' := more' + [Finish(u)];
  }

  lemma {:induction false} AheadSame(tasks: seq<Task>, tasks': seq<Task>, key: string, n: nat)
    requires n <= |tasks| == |tasks'| && forall j :: 0 <= j < n ==> tasks'[j] == tasks[j]
    ensures Ahead(tasks', key, n) == Ahead(tasks, key, n)
  {
    if n == 0 {
    } else {
      AheadSame(tasks, tasks', key, n - 1);
    }
  }

  lemma {:induction false} AheadWithout(tasks: seq<Task>, tasks': seq<Task>, key: string, n: nat, u: nat)
    requires u < n <= |tasks| == |tasks'| && tasks[u].key == key && !tasks[u].phase.Released?
    requires forall j :: 0 <= j < n ==> tasks'[j] == if j == u then tasks[u].(phase := Phase.Released) else tasks[j]
    ensures Ahead(tasks', key, n) == Ahead(tasks, key, n) - 1
  {
    if n == u + 1 {
      AheadSame(tasks, tasks', key, u);
    } else {
      AheadWithout(tasks, tasks', key, n - 1, u);
    }
  }

  lemma {:induction false} ReachesItsTurn(turns: seq<Turn>, more: seq<Turn>, t: nat) returns (more': seq<Turn>)
    requires t < |Run(turns + more).tasks| && !Run(turns + more).tasks[t].phase.Released? && OnlyProceeds(more)
    ensures OnlyProceeds(more') && IsRunning(Run(turns + more'), t)
    decreases Ahead(Run(turns + more).tasks, Run(turns + more).tasks[t].key, t)
  {
    var lock := Run(turns + more);
    var key := lock.tasks[t].key;
    if Ahead(lock.tasks, key, t) == 0 {
      FrontRunsOrMayStart(turns + more, t);
      RunOneMore(turns, more, Start(t));
      StartExactly(lock, t);
      more' := more + [Start(t)];
    } else {
      NothingAhead(lock.tasks, key, t);
      var j: nat :| j < t && lock.tasks[j].key == key && !lock.tasks[j].phase.Released?;
      var u := FrontExists(lock.tasks, key, j);
      var after := FrontLeaves(turns, more, u);
      AheadWithout(lock.tasks, Run(turns + after).tasks, key, t, u);
      more' := ReachesItsTurn(turns, after, t);
    }
  }

  /**
   * No call starves: from every run, an open call gets to run in some continuation that only lets
   * calls already there start and finish.
   */
  lemma EveryOpenCallMayRun(turns: seq<Turn>, t: nat) returns (more: seq<Turn>)
    requires t < |Run(turns).tasks| && !Run(turns).tasks[t].phase.Released?
    ensures OnlyProceeds(more) && IsRunning(Run(turns + more), t)
  {
    assert turns + [] == turns;
    more := ReachesItsTurn(turns, [], t);
  }

  // ---- The lock itself -----------------------------------------------------

  class Mutex {
    var tails: map<string, nat>
    var tasks: seq<Task>
    ghost var started: seq<nat>

    ghost function View(): Lock
      reads this
    {
      Lock(tails, tasks, started)
    }

    constructor ()
      ensures View() == FREE
    {
      tails, tasks, started := map[], [], [];
    }

    /** The call up to its await. */
    method Enter(key: string) returns (mine: nat)
      modifies this
      ensures View() == Next(old(View()), Arrive(key)) && mine == |old(tasks)|
    {
      var previous := if key in tails then Some(tails[key]) else None;
      mine := |tasks|;
      tails := tails[key := mine];
      tasks := tasks + [Task(key, previous, Waiting)];
    }

    /** The await returns, if the promise awaited is resolved. */
    method Resume(mine: nat) returns (resumed: bool)
      requires mine < |tasks|
      modifies this
      ensures View() == Next(old(View()), Start(mine)) && resumed == CanStart(old(View()), mine)
      ensures mine < |tasks| && (resumed ==> tasks[mine].phase.Running? && View().started == old(started) + [mine])
    {
      resumed := tasks[mine].phase.Waiting? && IsResolved(tasks, tasks[mine].previous);
      if resumed {
        tasks := SetPhase(tasks, mine, Running);
        started := started + [mine];
      }
    }

    /** The body has returned or thrown: release, and drop the entry if nobody queued behind. */
    method Exit(mine: nat)
      requires mine < |tasks| && tasks[mine].phase.Running?
      modifies this
      ensures View() == Next(old(View()), Finish(mine))
    {
      var key := tasks[mine].key;
      tasks := SetPhase(tasks, mine, Phase.Released);
      if key in tails && tails[key] == mine {
        tails := tails - {key};
      }
    }
  }
}
