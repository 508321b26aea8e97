/**
 * The cached view against HCM's history: the available balance accounted for to the day, what a
 * snapshot shows and what it does not, when a debit is counted twice, and how far the balance is from
 * HCM's own less the open requests once its latest snapshot has been offered.
 */
module Coverage {
  import opened Domain
  import opened Tables
  import opened StateMachine
  import opened Balances
  import opened Sync
  import opened HcmCore
  import opened Protocol
  import opened Views
  import opened StoreSteps
  import opened DeliverySteps
  import opened Invariant
  import opened Accounting

  // ---- Rows ----------------------------------------------------------------

  /** A commit row and what HCM and the outbox say about it. */
  lemma CommitRowFacts(s: System, j: nat)
    requires Inv(s) && j < |s.store.ledger| && s.store.ledger[j].phase.Commit?
    ensures var row := s.store.ledger[j];
      && row.requestId < |s.store.requests|
      && var v := ViewOf(s, row.requestId);
         && Shape(v) && HasCommit(v) && v.rows[1] == row && v.debit.Some?
         && row.hcmVersion == Some(v.debit.value.version)
         && row.key == v.r.key && row.amount == v.r.days > 0
  {
  }

  /** The days' credit has been acknowledged and settled. */
  ghost predicate Refunded(v: View) {
    v.r.status.Cancelled? && |v.msgs| == 2 && v.msgs[1].status.Done?
  }

  ghost predicate HasActiveCommit(v: View) { |v.rows| == 2 && v.rows[1].phase.Commit? && v.rows[1].state.Active? }

  /** A row's state means what it says. */
  ghost predicate RowTruthful(s: System, row: LedgerRow) {
    && row.requestId < |s.store.requests|
    && row.key == s.store.requests[row.requestId].key && row.amount == s.store.requests[row.requestId].days > 0
    && (row.state.Reconciled? ==>
          && row.phase.Commit? && row.key in s.store.balances && row.hcmVersion.Some?
          && row.hcmVersion.value <= s.store.balances[row.key].lastReconciledVersion)
    && (row.phase.Commit? && row.state.Released? ==> Refunded(ViewOf(s, row.requestId)))
  }

  lemma RowIsTruthful(s: System, j: nat)
    requires Inv(s) && j < |s.store.ledger|
    ensures RowTruthful(s, s.store.ledger[j])
  {
    var p := RowInView(s, j);
  }

  lemma OneActiveRow(s: System, i: nat, j: nat)
    requires Inv(s) && i < |s.store.ledger| && j < |s.store.ledger| && i != j
    requires s.store.ledger[i].requestId == s.store.ledger[j].requestId
    ensures !(s.store.ledger[i].state.Active? && s.store.ledger[j].state.Active?)
  {
    var p := RowInView(s, i);
    var q := RowInView(s, j);
    var v := ViewOf(s, s.store.ledger[i].requestId);
    assert s.store.ledger[i].id == i && s.store.ledger[j].id == j;
    assert p != q;
  }

  /**
   * In every state of every run, a row marked reconciled is contained in the cached snapshot, a
   * commit marked released belongs to a refunded request, and no request has two active rows.
   */
  lemma LedgerStatesAreTruthful(steps: seq<Step>)
    ensures var s := Run(INITIAL, steps);
      && (forall row :: row in s.store.ledger ==> RowTruthful(s, row))
      && (forall i, j :: 0 <= i < j < |s.store.ledger| && s.store.ledger[i].requestId == s.store.ledger[j].requestId
            ==> !(s.store.ledger[i].state.Active? && s.store.ledger[j].state.Active?))
  {
    var s := Run(INITIAL, steps);
    EveryRunAgrees(steps);
    forall row | row in s.store.ledger ensures RowTruthful(s, row) {
      var j :| 0 <= j < |s.store.ledger| && s.store.ledger[j] == row;
      RowIsTruthful(s, j);
    }
    forall i, j | 0 <= i < j < |s.store.ledger| && s.store.ledger[i].requestId == s.store.ledger[j].requestId
      ensures !(s.store.ledger[i].state.Active? && s.store.ledger[j].state.Active?)
    {
      OneActiveRow(s, i, j);
    }
  }

  /** A row keeps everything but its state, and a state other than active for good. */
  ghost predicate OnlyRetires(row: LedgerRow, row': LedgerRow) {
    row' == row || (row.state.Active? && !row'.state.Active? && row' == row.(state := row'.state))
  }

  lemma SettleRetires(s: System, now: int, j: nat)
    requires Inv(s) && j < |s.store.ledger|
    ensures var ledger' := Next(s, SettleStep(now)).store.ledger;
      |ledger'| >= |s.store.ledger| && OnlyRetires(s.store.ledger[j], ledger'[j])
  {
    if Settleable(s) { SettleIsSettled(s, now); } else { assert Next(s, SettleStep(now)) == s; }
  }

  /** A reconcile of `k` at `version` that is not stale and not waiting for the lock. */
  ghost predicate Absorbs(s: System, k: Key, version: nat) {
    k !in s.sessions && CachedBalance(s.store, k).lastReconciledVersion < version <= Version(s.hcm, k)
  }

  lemma AppliedReconcile(s: System, k: Key, version: nat)
    requires k !in s.sessions && version <= Version(s.hcm, k)
    ensures DoReconcile(s, k, version) == s.(store := ReconcileKey(s.store, SnapshotAt(s.hcm, k, version)).0)
  {
  }

  lemma AppliedStore(st: Store, u: BalanceUpdate)
    requires LedgerNumbered(st.ledger) && CachedBalance(st, u.key).lastReconciledVersion < u.version
    ensures ReconcileKey(st, u).0.(events := st.events) == AfterUpdate(st, u)
  {
    ReconcileAgreesWithStore(st, u);
  }

  lemma AbsorbResult(s: System, k: Key, version: nat)
    requires Inv(s) && Absorbs(s, k, version)
    ensures var s' := Next(s, ReconcileStep(k, version));
      && Inv(s') && s' == s.(store := s'.store)
      && s'.store.(events := s.store.events) == AfterUpdate(s.store, SnapshotAt(s.hcm, k, version))
  {
    AppliedReconcile(s, k, version);
    AppliedStore(s.store, SnapshotAt(s.hcm, k, version));
    NextKeeps(s, ReconcileStep(k, version));
  }

  lemma StaleChangesNothing(s: System, k: Key, version: nat)
    requires Inv(s) && !Absorbs(s, k, version)
    ensures Next(s, ReconcileStep(k, version)) == s
  {
  }

  lemma ReconcileRetires(s: System, key: Key, version: nat, j: nat)
    requires Inv(s) && j < |s.store.ledger|
    ensures var ledger' := Next(s, ReconcileStep(key, version)).store.ledger;
      |ledger'| >= |s.store.ledger| && OnlyRetires(s.store.ledger[j], ledger'[j])
  {
    if Absorbs(s, key, version) { AbsorbResult(s, key, version); } else { StaleChangesNothing(s, key, version); }
  }

  /** The ledger is append-only, and a row that is released or reconciled stays so. */
  lemma LedgerOnlyRetires(s: System, step: Step, j: nat)
    requires Inv(s) && j < |s.store.ledger|
    ensures var ledger' := Next(s, step).store.ledger;
      |ledger'| >= |s.store.ledger| && OnlyRetires(s.store.ledger[j], ledger'[j])
  {
    match step
    case SettleStep(now) => SettleRetires(s, now, j);
    case ReconcileStep(key, version) => ReconcileRetires(s, key, version, j);
    case SubmitEnd(_) =>
    case RejectStep(_) =>
    case CancelStep(_) =>
    case _ => LedgerUntouched(s, step);
  }

  // ---- Truthful stamps -----------------------------------------------------

  /** The row's version is where the history of its key shows its request's debit. */
  ghost predicate StampTruthful(h: Hcm, row: LedgerRow) {
    && row.hcmVersion.Some? && DebitOf(row.requestId) in h.applied
    && 1 <= row.hcmVersion.value <= Version(h, row.key)
    && (h.applied[DebitOf(row.requestId)].applied ==>
          var v := row.hcmVersion.value;
          && Log(h, row.key)[v - 1].cause == Applied(DebitOf(row.requestId))
          && BalanceAt(h, row.key, v) == BalanceAt(h, row.key, v - 1) - row.amount)
  }

  lemma StampIsTruthful(s: System, j: nat)
    requires Inv(s) && j < |s.store.ledger| && s.store.ledger[j].phase.Commit?
    ensures StampTruthful(s.hcm, s.store.ledger[j])
  {
    CommitRowFacts(s, j);
    var id := s.store.ledger[j].requestId;
    assert AckTruthful(s.hcm, DebitOf(id));
    assert s.hcm.commands[DebitOf(id)] == ServiceCommand(s.store.requests[id], Debit);
  }

  /**
   * A commit's version is where HCM's history shows the debit, even if the acknowledgement was a
   * replay after lost answers; the one exception is a success HCM faked, which it admits.
   */
  lemma StampsAreTruthful(steps: seq<Step>)
    ensures var s := Run(INITIAL, steps);
      forall row :: row in s.store.ledger && row.phase.Commit? ==> StampTruthful(s.hcm, row)
  {
    var s := Run(INITIAL, steps);
    EveryRunAgrees(steps);
    forall row | row in s.store.ledger && row.phase.Commit? ensures StampTruthful(s.hcm, row) {
      var j :| 0 <= j < |s.store.ledger| && s.store.ledger[j] == row;
      StampIsTruthful(s, j);
    }
  }

  // ---- Never overstated ----------------------------------------------------

  /** HCM's history of `k` shows a write of `id` at or below version `w`. */
  ghost predicate Shown(h: Hcm, k: Key, id: IdempotencyKey, w: nat)
    requires w <= Version(h, k)
  {
    exists v: nat :: v < w && Log(h, k)[v].cause == Applied(id)
  }

  /** The history shows a debit exactly if its acknowledgement says it was applied by then. */
  lemma ShownExactly(s: System, i: RequestId, w: nat)
    requires Inv(s) && i < |s.store.requests| && w <= Version(s.hcm, s.store.requests[i].key)
    ensures Shown(s.hcm, s.store.requests[i].key, DebitOf(i), w) <==>
      DebitOf(i) in s.hcm.applied && s.hcm.applied[DebitOf(i)].applied && s.hcm.applied[DebitOf(i)].version <= w
  {
    var h, k := s.hcm, s.store.requests[i].key;
    if DebitOf(i) in h.applied {
      assert AckTruthful(h, DebitOf(i));
      assert h.commands[DebitOf(i)] == ServiceCommand(s.store.requests[i], Debit);
      if h.applied[DebitOf(i)].applied && h.applied[DebitOf(i)].version <= w {
        assert Log(h, k)[h.applied[DebitOf(i)].version - 1].cause == Applied(DebitOf(i));
      }
    }
    forall v: nat | v < w && Log(h, k)[v].cause == Applied(DebitOf(i))
      ensures DebitOf(i) in h.applied && h.applied[DebitOf(i)].applied && h.applied[DebitOf(i)].version == v + 1
    {
      assert EntryOwned(h, k, v);
    }
  }

  /** Days taken, or about to be, that the cached snapshot of `k` does not show. */
  ghost function UncoveredDays(s: System, k: Key): nat -> int {
    (i: nat) =>
      if i < |s.store.requests| && s.store.requests[i].key == k && IsLive(s.store.requests[i].status)
         && CachedBalance(s.store, k).lastReconciledVersion <= Version(s.hcm, k)
         && !Shown(s.hcm, k, DebitOf(i), CachedBalance(s.store, k).lastReconciledVersion)
      then s.store.requests[i].days else 0
  }

  /** A live request whose debit HCM faked, and whose commit a later snapshot has retired. */
  ghost predicate FakedAndRetired(v: View) {
    IsLive(v.r.status) && v.debit.Some? && !v.debit.value.applied && |v.rows| == 2 && v.rows[1].state.Reconciled?
  }

  ghost function FakedDays(s: System, k: Key): nat -> int {
    (i: nat) =>
      if i < |s.store.requests| && s.store.requests[i].key == k && FakedAndRetired(ViewOf(s, i))
      then s.store.requests[i].days else 0
  }

  /** What the snapshot does not show is held, except exactly the retired fakes. */
  lemma UncoveredIsHeld(s: System, k: Key, i: RequestId)
    requires Inv(s) && i < |s.store.requests|
    ensures UncoveredDays(s, k)(i) <= HeldAt(s.store, k)(i) + FakedDays(s, k)(i)
    ensures UncoveredDays(s, k)(i) > HeldAt(s.store, k)(i) <==> FakedDays(s, k)(i) > 0
  {
    assert Shape(ViewOf(s, i));
    HeldOf(s, i);
    var w := CachedBalance(s.store, k).lastReconciledVersion;
    if s.store.requests[i].key == k && w <= Version(s.hcm, k) { ShownExactly(s, i, w); }
  }

  /** Held days of a live request that the cached snapshot of `k` already shows. */
  ghost function CountedTwice(s: System, k: Key): nat -> int {
    (i: nat) =>
      if i < |s.store.requests| && s.store.requests[i].key == k && IsLive(s.store.requests[i].status)
         && CachedBalance(s.store, k).lastReconciledVersion <= Version(s.hcm, k)
         && Shown(s.hcm, k, DebitOf(i), CachedBalance(s.store, k).lastReconciledVersion)
      then HeldDays(s.store, i) else 0
  }

  /**
   * Days are counted twice exactly for a debit HCM applied at or below the watermark that is not
   * settled yet, or was settled only after the watermark had passed it.
   */
  lemma CountedTwiceExactly(s: System, k: Key, i: RequestId)
    requires Inv(s) && k in s.store.balances && i < |s.store.requests| && s.store.requests[i].key == k
    ensures var v := ViewOf(s, i);
      CountedTwice(s, k)(i) > 0 <==>
        && v.debit.Some? && v.debit.value.applied
        && v.debit.value.version <= s.store.balances[k].lastReconciledVersion
        && (v.r.status.Approved? || (IsLive(v.r.status) && HasActiveCommit(v)))
    ensures CountedTwice(s, k)(i) > 0 ==> CountedTwice(s, k)(i) == s.store.requests[i].days
  {
    assert Shape(ViewOf(s, i));
    HeldOf(s, i);
    ShownExactly(s, i, s.store.balances[k].lastReconciledVersion);
  }

  /** Request by request: what is held is what the snapshot lacks, but for fakes, plus what it has too. */
  lemma HeldIsUncoveredOrTwice(s: System, k: Key, i: RequestId)
    requires Inv(s) && k in s.store.balances && i < |s.store.requests|
    ensures HeldAt(s.store, k)(i) + FakedDays(s, k)(i) ==
      UncoveredDays(s, k)(i) + CountedTwice(s, k)(i) + OrphanHeld(s, k)(i)
    ensures CountedTwice(s, k)(i) >= 0 && OrphanHeld(s, k)(i) >= 0
  {
    assert Shape(ViewOf(s, i));
    HeldOf(s, i);
    if s.store.requests[i].key == k { ShownExactly(s, i, s.store.balances[k].lastReconciledVersion); }
  }

  lemma HeldSums(s: System, k: Key)
    requires Inv(s) && k in s.store.balances
    ensures var n := |s.store.requests|;
      && SumTo(n, HeldAt(s.store, k)) + SumTo(n, FakedDays(s, k)) ==
           SumTo(n, UncoveredDays(s, k)) + SumTo(n, CountedTwice(s, k)) + SumTo(n, OrphanHeld(s, k))
      && SumTo(n, CountedTwice(s, k)) >= 0 && SumTo(n, OrphanHeld(s, k)) >= 0
  {
    var n, held, faked := |s.store.requests|, HeldAt(s.store, k), FakedDays(s, k);
    var uncovered, twice, orphans := UncoveredDays(s, k), CountedTwice(s, k), OrphanHeld(s, k);
    var live := (i: nat) => uncovered(i) + twice(i);
    var all := (i: nat) => held(i) + faked(i);
    forall i: nat | i < n ensures all(i) == live(i) + orphans(i) && twice(i) >= 0 && orphans(i) >= 0 {
      HeldIsUncoveredOrTwice(s, k, i);
    }
    SumPlus(n, uncovered, twice, live);
    SumPlus(n, held, faked, all);
    SumPlus(n, live, orphans, all);
    SumNonNegative(n, twice);
    SumNonNegative(n, orphans);
  }

  /**
   * The cache is a snapshot HCM really had, exactly the held days are subtracted from it, and they
   * are accounted for to the day: the available balance is that snapshot less every live request its
   * history does not show, except the retired fakes, less what is counted twice and the orphans
   * still held. So without a faked success it is never overstated.
   */
  lemma NeverOverstated(steps: seq<Step>, k: Key)
    requires k in Run(INITIAL, steps).store.balances
    ensures var s := Run(INITIAL, steps);
      var n, w := |s.store.requests|, s.store.balances[k].lastReconciledVersion;
      && 1 <= w <= Version(s.hcm, k)
      && Available(s.store, k) == BalanceAt(s.hcm, k, w) - SumTo(n, HeldAt(s.store, k))
      && Available(s.store, k) == BalanceAt(s.hcm, k, w) - SumTo(n, UncoveredDays(s, k)) + SumTo(n, FakedDays(s, k))
                                    - SumTo(n, CountedTwice(s, k)) - SumTo(n, OrphanHeld(s, k))
      && Available(s.store, k) <= BalanceAt(s.hcm, k, w) - SumTo(n, UncoveredDays(s, k)) + SumTo(n, FakedDays(s, k))
      && ((forall id :: id in s.hcm.applied ==> s.hcm.applied[id].applied) ==> SumTo(n, FakedDays(s, k)) == 0)
  {
    var s := Run(INITIAL, steps);
    EveryRunAgrees(steps);
    AvailableByRequest(s, k);
    HeldSums(s, k);
    if forall id :: id in s.hcm.applied ==> s.hcm.applied[id].applied {
      SumZero(|s.store.requests|, FakedDays(s, k));
    }
  }

  lemma SettleKeepsBalances(s: System, now: int)
    requires Inv(s)
    ensures Next(s, SettleStep(now)).store.balances == s.store.balances
  {
    if Settleable(s) { SettleIsSettled(s, now); } else { assert Next(s, SettleStep(now)) == s; }
  }

  lemma ReconcileRaisesWatermark(s: System, key: Key, version: nat, k: Key)
    requires Inv(s) && k in s.store.balances
    ensures var st' := Next(s, ReconcileStep(key, version)).store;
      k in st'.balances && st'.balances[k].lastReconciledVersion >= s.store.balances[k].lastReconciledVersion
  {
  }

  /** The watermark of a key never goes back, and once a key is cached it stays cached. */
  lemma WatermarkNeverFalls(s: System, step: Step, k: Key)
    requires Inv(s) && k in s.store.balances
    ensures var st' := Next(s, step).store;
      k in st'.balances && st'.balances[k].lastReconciledVersion >= s.store.balances[k].lastReconciledVersion
  {
    match step
    case SettleStep(now) => SettleKeepsBalances(s, now);
    case ReconcileStep(key, version) => ReconcileRaisesWatermark(s, key, version, k);
    case LoadStep(_, _) =>
    case _ => BalancesUntouched(s, step);
  }

  lemma {:induction false} WatermarkOverRun(s: System, steps: seq<Step>, k: Key)
    requires Inv(s) && k in s.store.balances
    ensures var st' := Run(s, steps).store;
      k in st'.balances && st'.balances[k].lastReconciledVersion >= s.store.balances[k].lastReconciledVersion
  {
    if steps == [] {
    } else {
      var front := steps[..|steps| - 1];
      WatermarkOverRun(s, front, k);
      RunKeeps(s, front);
      WatermarkNeverFalls(Run(s, front), steps[|steps| - 1], k);
    }
  }

  /**
   * The cache is genuine and never goes back in time: once a key is cached it stays cached, always
   * with a balance HCM really had, under its version, and that version only grows, although loads
   * and re-pulls fetch their snapshots outside the lock.
   */
  lemma CacheStaysGenuine(steps: seq<Step>, more: seq<Step>, k: Key)
    requires k in Run(INITIAL, steps).store.balances
    ensures var s := Run(INITIAL, steps);
      var s' := Run(s, more);
      && k in s'.store.balances
      && s.store.balances[k].lastReconciledVersion <= s'.store.balances[k].lastReconciledVersion <= Version(s'.hcm, k)
      && s'.store.balances[k].hcmBalance == BalanceAt(s'.hcm, k, s'.store.balances[k].lastReconciledVersion)
  {
    EveryRunAgrees(steps);
    RunKeeps(Run(INITIAL, steps), more);
    WatermarkOverRun(Run(INITIAL, steps), more, k);
  }

  // ---- No double count -----------------------------------------------------

  lemma AbsorbedCommit(s: System, s': System, k: Key, version: nat, j: nat)
    requires Inv(s) && Absorbs(s, k, version) && Inv(s') && s' == s.(store := s'.store)
    requires s'.store.(events := s.store.events) == AfterUpdate(s.store, SnapshotAt(s.hcm, k, version))
    requires j < |s.store.ledger| && s.store.ledger[j].key == k && s.store.ledger[j].phase.Commit?
    ensures j < |s'.store.ledger|
    ensures var row' := s'.store.ledger[j];
      && row'.requestId == s.store.ledger[j].requestId < |s'.store.requests|
      && row'.hcmVersion.Some?
      && (row'.state.Active? <==> row'.hcmVersion.value > version && !Refunded(ViewOf(s', row'.requestId)))
  {
    CommitRowFacts(s, j);
    CommitRowFacts(s', j);
  }

  /** Right after the cache jumps to `version`, what an active commit of the key looks like. */
  lemma ActiveCommitsAreLater(s: System, k: Key, version: nat, j: nat)
    requires Inv(s) && Absorbs(s, k, version)
    requires j < |s.store.ledger| && s.store.ledger[j].key == k && s.store.ledger[j].phase.Commit?
    ensures var s' := Next(s, ReconcileStep(k, version));
      && j < |s'.store.ledger|
      && var row' := s'.store.ledger[j];
         && row'.requestId == s.store.ledger[j].requestId < |s'.store.requests|
         && row'.hcmVersion.Some?
         && (row'.state.Active? <==> row'.hcmVersion.value > version && !Refunded(ViewOf(s', row'.requestId)))
  {
    AbsorbResult(s, k, version);
    AbsorbedCommit(s, Next(s, ReconcileStep(k, version)), k, version, j);
  }

  /** The request's debit has been acknowledged and settled, and not refunded. */
  ghost predicate SettledDebit(v: View) {
    v.msgs != [] && v.msgs[0].status.Done? && v.debit.Some? && !Refunded(v)
  }

  lemma AbsorbingCounts(v: View, key: Key, version: nat)
    requires Shape(v) && v.r.key == key && (v.watermark.Some? ==> v.watermark.value < version)
    ensures var v' := Absorbing(v, key, version);
      HasActiveCommit(v') <==> SettledDebit(v') && v'.debit.value.version > version
  {
  }

  /** One request after a snapshot of its key was applied. */
  lemma CountedOnce(s: System, k: Key, version: nat, i: RequestId)
    requires Inv(s) && Absorbs(s, k, version) && i < |s.store.requests| && s.store.requests[i].key == k
    ensures var s' := Next(s, ReconcileStep(k, version));
      && i < |s'.store.requests|
      && var v := ViewOf(s', i);
         && (HasActiveCommit(v) <==> SettledDebit(v) && v.debit.value.version > version)
         && (SettledDebit(v) && v.debit.value.applied ==>
               (HasActiveCommit(v) <==> !Shown(s.hcm, k, DebitOf(i), version)))
  {
    var s' := Next(s, ReconcileStep(k, version));
    AbsorbResult(s, k, version);
    AbsorbedView(s, s'.store, SnapshotAt(s.hcm, k, version), i);
    assert Shape(ViewOf(s, i));
    AbsorbingCounts(ViewOf(s, i), k, version);
    ShownExactly(s, i, version);
  }

  /** Nothing is held for a retired fake, and no snapshot shows it. */
  lemma RetiredFakeIsUncovered(s: System, i: RequestId)
    requires Inv(s) && i < |s.store.requests| && FakedAndRetired(ViewOf(s, i))
    ensures var k := s.store.requests[i].key;
      && HeldDays(s.store, i) == 0
      && UncoveredDays(s, k)(i) == FakedDays(s, k)(i) == s.store.requests[i].days
  {
    var k := s.store.requests[i].key;
    assert Shape(ViewOf(s, i));
    HeldOf(s, i);
    ShownExactly(s, i, CachedBalance(s.store, k).lastReconciledVersion);
  }

  lemma AbsorbingFake(v: View, key: Key, version: nat)
    requires Shape(v) && v.r.key == key && v.r.status.Committed? && v.watermark.Some?
    requires !v.debit.value.applied && v.debit.value.version <= version
    ensures FakedAndRetired(Absorbing(v, key, version))
  {
  }

  /** A commit made on the word of a faked success: the next snapshot retires it and shows nothing. */
  lemma FakedIsForgotten(s: System, k: Key, version: nat, i: RequestId)
    requires Inv(s) && Absorbs(s, k, version)
    requires i < |s.store.requests| && s.store.requests[i].key == k && s.store.requests[i].status.Committed?
    requires var debit := ViewOf(s, i).debit; debit.Some? && !debit.value.applied && debit.value.version <= version
    ensures var s' := Next(s, ReconcileStep(k, version));
      && i < |s'.store.requests| && s'.store.requests[i] == s.store.requests[i] && FakedAndRetired(ViewOf(s', i))
      && HeldDays(s'.store, i) == 0
      && UncoveredDays(s', k)(i) == FakedDays(s', k)(i) == s.store.requests[i].days
  {
    var s' := Next(s, ReconcileStep(k, version));
    AbsorbResult(s, k, version);
    AbsorbedView(s, s'.store, SnapshotAt(s.hcm, k, version), i);
    AbsorbingFake(ViewOf(s, i), k, version);
    RetiredFakeIsUncovered(s', i);
  }

  /**
   * No double count. Immediately after a snapshot of version u is applied, a request of the key has
   * an active commit exactly if its debit is acknowledged, settled and unrefunded with a version
   * above u; and each settled, unrefunded debit HCM really applied is either in the snapshot or
   * among the pending commits, one and not both. (A debit HCM faked at or below u is in neither.)
   */
  lemma NoDoubleCount(steps: seq<Step>, k: Key, version: nat)
    requires Absorbs(Run(INITIAL, steps), k, version)
    ensures var s := Run(INITIAL, steps);
      var s' := Next(s, ReconcileStep(k, version));
      && s'.store.balances[k] == Balance(BalanceAt(s.hcm, k, version), version)
      && |s'.store.requests| == |s.store.requests|
      && forall i: nat {:trigger ViewOf(s', i)} :: i < |s'.store.requests| && s'.store.requests[i].key == k ==>
           var v := ViewOf(s', i);
           && (HasActiveCommit(v) <==> SettledDebit(v) && v.debit.value.version > version)
           && (SettledDebit(v) && v.debit.value.applied ==>
                 (HasActiveCommit(v) <==> !Shown(s.hcm, k, DebitOf(i), version)))
  {
    var s := Run(INITIAL, steps);
    EveryRunAgrees(steps);
    AbsorbResult(s, k, version);
    var s' := Next(s, ReconcileStep(k, version));
    forall i: nat | i < |s'.store.requests| && s'.store.requests[i].key == k
      ensures var v := ViewOf(s', i);
        && (HasActiveCommit(v) <==> SettledDebit(v) && v.debit.value.version > version)
        && (SettledDebit(v) && v.debit.value.applied ==>
              (HasActiveCommit(v) <==> !Shown(s.hcm, k, DebitOf(i), version)))
    {
      CountedOnce(s, k, version, i);
    }
  }

  /** The same, row by row: nothing else in the ledger is an active commit of the key. */
  lemma ActiveCommitRows(steps: seq<Step>, k: Key, version: nat)
    requires Absorbs(Run(INITIAL, steps), k, version)
    ensures var s' := Next(Run(INITIAL, steps), ReconcileStep(k, version));
      forall j :: 0 <= j < |s'.store.ledger| && s'.store.ledger[j].key == k && s'.store.ledger[j].phase.Commit? ==>
        var row := s'.store.ledger[j];
        && row.requestId < |s'.store.requests| && row.hcmVersion.Some?
        && (row.state.Active? <==> row.hcmVersion.value > version && !Refunded(ViewOf(s', row.requestId)))
  {
    var s := Run(INITIAL, steps);
    EveryRunAgrees(steps);
    AbsorbResult(s, k, version);
    var s' := Next(s, ReconcileStep(k, version));
    forall j | 0 <= j < |s'.store.ledger| && s'.store.ledger[j].key == k && s'.store.ledger[j].phase.Commit?
      ensures var row := s'.store.ledger[j];
        && row.requestId < |s'.store.requests| && row.hcmVersion.Some?
        && (row.state.Active? <==> row.hcmVersion.value > version && !Refunded(ViewOf(s', row.requestId)))
    {
      ActiveCommitsAreLater(s, k, version, j);
    }
  }

  // ---- Convergence ---------------------------------------------------------

  /** The days of submitted requests HCM has not acknowledged to the service. */
  function OpenDays(st: Store, k: Key): nat -> int {
    (i: nat) =>
      if i < |st.requests| && st.requests[i].key == k
         && (st.requests[i].status.PendingApproval? || st.requests[i].status.Approved?)
      then st.requests[i].days else 0
  }

  /** No acknowledged debit of the key is still pending reconciliation. */
  ghost predicate NothingPending(st: Store, k: Key) {
    forall j :: 0 <= j < |st.ledger| ==> !ActiveRows(k, Commit)(st.ledger[j])
  }

  /** The days of acknowledged debits still pending. */
  ghost function PendingDays(s: System, k: Key): nat -> int {
    (i: nat) =>
      if i < |s.store.requests| && s.store.requests[i].key == k && HasActiveCommit(ViewOf(s, i))
      then s.store.requests[i].days else 0
  }

  /** The holds of a key by request: open requests, plus acknowledged debits still pending. */
  lemma HeldIsOpenOrPending(s: System, k: Key, i: RequestId)
    requires Inv(s) && i < |s.store.requests|
    ensures HeldAt(s.store, k)(i) == OpenDays(s.store, k)(i) + PendingDays(s, k)(i)
    ensures PendingDays(s, k)(i) >= 0
    ensures NothingPending(s.store, k) ==> PendingDays(s, k)(i) == 0
  {
    var v := ViewOf(s, i);
    assert Shape(v);
    HeldOf(s, i);
    if v.r.key == k && HasActiveCommit(v) {
      assert v.rows[1] in v.rows;
      var j :| 0 <= j < |s.store.ledger| && s.store.ledger[j] == v.rows[1];
      assert ActiveRows(k, Commit)(s.store.ledger[j]);
    }
  }

  /** A pending row makes its request's pending days positive. */
  lemma PendingRow(s: System, k: Key, j: nat)
    requires Inv(s) && j < |s.store.ledger| && ActiveRows(k, Commit)(s.store.ledger[j])
    ensures s.store.ledger[j].requestId < |s.store.requests| && PendingDays(s, k)(s.store.ledger[j].requestId) > 0
  {
    CommitRowFacts(s, j);
  }

  lemma HeldAgainstOpen(s: System, k: Key)
    requires Inv(s)
    ensures var n := |s.store.requests|;
      && SumTo(n, HeldAt(s.store, k)) == SumTo(n, OpenDays(s.store, k)) + SumTo(n, PendingDays(s, k))
      && SumTo(n, PendingDays(s, k)) >= 0
      && (NothingPending(s.store, k) <==> SumTo(n, PendingDays(s, k)) == 0)
  {
    var n, open, pending := |s.store.requests|, OpenDays(s.store, k), PendingDays(s, k);
    forall i: nat | i < n ensures HeldAt(s.store, k)(i) == open(i) + pending(i) && pending(i) >= 0 {
      HeldIsOpenOrPending(s, k, i);
    }
    SumPlus(n, open, pending, HeldAt(s.store, k));
    SumNonNegative(n, pending);
    if NothingPending(s.store, k) {
      forall i: nat | i < n ensures pending(i) == 0 { HeldIsOpenOrPending(s, k, i); }
      SumZero(n, pending);
    } else {
      var j: nat :| j < |s.store.ledger| && ActiveRows(k, Commit)(s.store.ledger[j]);
      PendingRow(s, k, j);
      var none := (i: nat) => 0;
      SumZero(n, none);
      SumStrictlyBelow(n, none, pending, s.store.ledger[j].requestId);
    }
  }

  /** After absorbing HCM's current version nothing acknowledged is left pending. */
  lemma LatestLeavesNothingPending(s: System, k: Key)
    requires Inv(s) && Absorbs(s, k, Version(s.hcm, k))
    ensures NothingPending(Next(s, ReconcileStep(k, Version(s.hcm, k))).store, k)
  {
    var version := Version(s.hcm, k);
    AbsorbResult(s, k, version);
    var s' := Next(s, ReconcileStep(k, version));
    forall j: nat | j < |s'.store.ledger| ensures !ActiveRows(k, Commit)(s'.store.ledger[j]) {
      if s'.store.ledger[j].key == k && s'.store.ledger[j].phase.Commit? {
        ActiveCommitsAreLater(s, k, version, j);
        CommitRowFacts(s', j);
        DebitBeforeNow(s', s'.store.ledger[j].requestId);
      }
    }
  }

  /** The available balance of a key whose cache is HCM's current balance. */
  lemma FreshAvailable(s: System, k: Key)
    requires Inv(s) && k in s.store.balances && s.store.balances[k].lastReconciledVersion == Version(s.hcm, k)
    ensures var n := |s.store.requests|;
      && Available(s.store, k) ==
           CurrentBalance(s.hcm, k) - SumTo(n, OpenDays(s.store, k)) - SumTo(n, PendingDays(s, k))
      && SumTo(n, PendingDays(s, k)) >= 0
      && (NothingPending(s.store, k) <==> SumTo(n, PendingDays(s, k)) == 0)
  {
    AvailableByRequest(s, k);
    HeldAgainstOpen(s, k);
  }

  /** Where the key's cache is HCM's current balance: what is missing is what is still pending. */
  ghost predicate Converged(s: System, s': System, k: Key) {
    var open := SumTo(|s.store.requests|, OpenDays(s.store, k));
    var pending := SumTo(|s'.store.requests|, PendingDays(s', k));
    && Available(s'.store, k) == CurrentBalance(s.hcm, k) - open - pending && pending >= 0
    && k in s.store.balances
    && (pending == 0 <==>
          s.store.balances[k].lastReconciledVersion < Version(s.hcm, k) || NothingPending(s.store, k))
  }

  lemma ConvergesFrom(s: System, k: Key)
    requires Inv(s) && k in s.store.balances && k !in s.sessions
    ensures Converged(s, Next(s, ReconcileStep(k, Version(s.hcm, k))), k)
  {
    var version := Version(s.hcm, k);
    if Absorbs(s, k, version) {
      var s' := Next(s, ReconcileStep(k, version));
      AbsorbResult(s, k, version);
      LatestLeavesNothingPending(s, k);
      FreshAvailable(s', k);
      SumSame(|s.store.requests|, OpenDays(s.store, k), OpenDays(s'.store, k));
    } else {
      StaleChangesNothing(s, k, version);
      FreshAvailable(s, k);
    }
  }

  /**
   * Convergence. Offer a key HCM's current snapshot while its lock is free. Afterwards the
   * available balance is HCM's own balance less the open requests and less the debits still pending,
   * and none is pending if and only if the snapshot was news or none was before. In the remaining
   * case, debits acknowledged after their snapshot had been absorbed, the service understates by
   * exactly their days until HCM's next version.
   */
  lemma Convergence(steps: seq<Step>, k: Key)
    requires k in Run(INITIAL, steps).store.balances && k !in Run(INITIAL, steps).sessions
    ensures var s := Run(INITIAL, steps);
      var s' := Next(s, ReconcileStep(k, Version(s.hcm, k)));
      var open := SumTo(|s.store.requests|, OpenDays(s.store, k));
      var pending := SumTo(|s'.store.requests|, PendingDays(s', k));
      && Available(s'.store, k) == CurrentBalance(s.hcm, k) - open - pending <= CurrentBalance(s.hcm, k) - open
      && (Available(s'.store, k) == CurrentBalance(s.hcm, k) - open <==>
            s.store.balances[k].lastReconciledVersion < Version(s.hcm, k) || NothingPending(s.store, k))
  {
    EveryRunAgrees(steps);
    ConvergesFrom(Run(INITIAL, steps), k);
  }

  // ---- Acknowledged too late -----------------------------------------------

  lemma SettlingAckCommits(v: View, m: Message, ack: Ack, replayed: bool, now: int, rowId: nat)
    requires Shape(v) && HeadOf(v, m, 0) && v.r.status.Approved? && m.direction.Debit? && v.debit == Some(ack)
    ensures var v' := Settling(v, m, Acked(ack, replayed), now, rowId);
      v'.r.status.Committed? && HasActiveCommit(v') && v'.debit == v.debit
  {
  }

  /** The acknowledgement of approved request `i` is being settled. */
  ghost predicate SettlesAckOf(s: System, i: RequestId) {
    && Settleable(s) && s.drain.reply.value.Acked?
    && s.drain.queue[0].requestId == i < |s.store.requests| && s.store.requests[i].status.Approved?
  }

  lemma AckCommits(s: System, now: int, i: RequestId)
    requires Inv(s) && SettlesAckOf(s, i)
    ensures var s' := Next(s, SettleStep(now));
      && i < |s'.store.requests| && s'.store.requests[i].key == s.store.requests[i].key
      && s'.store.requests[i].status.Committed? && HasActiveCommit(ViewOf(s', i))
      && ViewOf(s', i).debit == Some(s.drain.reply.value.ack)
  {
    var m, reply, s' := s.drain.queue[0], s.drain.reply.value, Next(s, SettleStep(now));
    var p := HeadInView(s);
    SettleIsSettled(s, now);
    assert ClaimedCopy(s.store.outbox, m);
    SettledViewHere(s, s'.store, m, reply, now);
    SettlingAckCommits(ViewOf(s, i), m, reply.ack, reply.replayed, now, |s.store.ledger|);
    assert ViewOf(s', i) == ViewOf(s.(store := s'.store), i);
  }

  /**
   * A commit is counted twice from its birth exactly if HCM really applied the debit and a snapshot
   * at or above its version was absorbed before the acknowledgement was settled.
   */
  lemma LateAcknowledgement(s: System, now: int, i: RequestId)
    requires Inv(s) && SettlesAckOf(s, i)
    ensures var s' := Next(s, SettleStep(now));
      var k, ack := s.store.requests[i].key, s.drain.reply.value.ack;
      && k in s'.store.balances && i < |s'.store.requests| && !NothingPending(s'.store, k)
      && (CountedTwice(s', k)(i) > 0 <==>
            ack.applied && ack.version <= s'.store.balances[k].lastReconciledVersion)
  {
    var s', k := Next(s, SettleStep(now)), s.store.requests[i].key;
    AckCommits(s, now, i);
    NextKeeps(s, SettleStep(now));
    assert Shape(ViewOf(s', i));
    CountedTwiceExactly(s', k, i);
    HeldIsOpenOrPending(s', k, i);
    HeldOf(s', i);
  }
}
