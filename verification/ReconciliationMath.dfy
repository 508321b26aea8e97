/** Deciding what an authoritative balance from HCM does to the cached one. */
module ReconciliationMath {
  import opened Domain
  import opened Tables
  import opened BalanceMath

  /** A commit the current snapshot has not yet been seen to contain. */
  datatype CommittedEntry = CommittedEntry(id: nat, amount: int, hcmVersion: Option<nat>)

  datatype ReconcileInput = ReconcileInput(
    currentHcmBalance: int,
    lastReconciledVersion: nat,
    reservedOpen: int,
    committedEntries: seq<CommittedEntry>,
    authoritativeBalance: int,
    authoritativeVersion: nat)

  datatype ReconcileResult = ReconcileResult(
    applied: bool,
    matchedCommitIds: set<nat>,
    newHcmBalance: int,
    newLastReconciledVersion: nat,
    committedPendingAfter: int,
    previousAvailable: int,
    newAvailable: int,
    delta: int,
    availableDelta: int,
    eventType: EventType)

  function EntryAmount(): CommittedEntry -> int { (e: CommittedEntry) => e.amount }

  /** HCM acknowledged the entry at or below `version`, so a snapshot of that version contains it. */
  predicate Absorbed(e: CommittedEntry, version: nat) {
    e.hcmVersion.Some? && e.hcmVersion.value <= version
  }

  function AbsorbedAt(version: nat): CommittedEntry -> bool {
    (e: CommittedEntry) => Absorbed(e, version)
  }

  function IdNotIn(ids: set<nat>): CommittedEntry -> bool {
    (e: CommittedEntry) => e.id !in ids
  }

  function Classify(newAvailable: int, availableDelta: int): EventType {
    if newAvailable < 0 then OverAllocated
    else if availableDelta > 0 then BalanceIncreased
    else if availableDelta < 0 then BalanceDecreased
    else PlainReconciled
  }

  function Reconcile(input: ReconcileInput): ReconcileResult {
    var committedPendingBefore := Sum(input.committedEntries, EntryAmount());
    var previousAvailable := ComputeAvailable(
      BalanceComponents(input.currentHcmBalance, input.reservedOpen, committedPendingBefore));
    if input.authoritativeVersion <= input.lastReconciledVersion then
      ReconcileResult(false, {}, input.currentHcmBalance, input.lastReconciledVersion, committedPendingBefore,
                      previousAvailable, previousAvailable, 0, 0, PlainReconciled)
    else
      var matched := Select(input.committedEntries, AbsorbedAt(input.authoritativeVersion));
      var matchedIds := set e | e in matched :: e.id;
      var committedPendingAfter := Sum(Select(input.committedEntries, IdNotIn(matchedIds)), EntryAmount());
      var newAvailable := ComputeAvailable(
        BalanceComponents(input.authoritativeBalance, input.reservedOpen, committedPendingAfter));
      var availableDelta := newAvailable - previousAvailable;
      ReconcileResult(true, matchedIds, input.authoritativeBalance, input.authoritativeVersion, committedPendingAfter,
                      previousAvailable, newAvailable, input.authoritativeBalance - input.currentHcmBalance,
                      availableDelta, Classify(newAvailable, availableDelta))
  }

  ghost predicate DistinctIds(entries: seq<CommittedEntry>) {
    forall i, j :: 0 <= i < j < |entries| ==> entries[i].id != entries[j].id
  }

  /** What a snapshot of `version` already contains of our own commits. */
  function MatchedAmount(entries: seq<CommittedEntry>, version: nat): int {
    Sum(Select(entries, AbsorbedAt(version)), EntryAmount())
  }

  lemma MatchedIdsAreTheAbsorbed(input: ReconcileInput)
    requires DistinctIds(input.committedEntries)
    requires input.authoritativeVersion > input.lastReconciledVersion
    ensures forall e :: e in input.committedEntries ==>
      (e.id in Reconcile(input).matchedCommitIds <==> Absorbed(e, input.authoritativeVersion))
    ensures forall id :: id in Reconcile(input).matchedCommitIds ==>
      exists e :: e in input.committedEntries && e.id == id && Absorbed(e, input.authoritativeVersion)
  {
  }

  /** What the employee sees move is HCM's own movement, corrected by the debits of ours it contains. */
  lemma AvailableMovesByUnexplainedDelta(input: ReconcileInput)
    requires DistinctIds(input.committedEntries)
    ensures var r := Reconcile(input);
      && r.applied == (input.authoritativeVersion > input.lastReconciledVersion)
      && r.newLastReconciledVersion >= input.lastReconciledVersion
      && r.newLastReconciledVersion >= input.authoritativeVersion
      && r.availableDelta == r.newAvailable - r.previousAvailable
      && (r.applied ==>
            r.availableDelta == r.delta + MatchedAmount(input.committedEntries, input.authoritativeVersion))
      && (!r.applied ==> r.availableDelta == 0 && r.delta == 0 && r.matchedCommitIds == {})
  {
    if input.authoritativeVersion > input.lastReconciledVersion {
      MatchedIdsAreTheAbsorbed(input);
      SumPartition(input.committedEntries, IdNotIn(Reconcile(input).matchedCommitIds),
                   AbsorbedAt(input.authoritativeVersion), EntryAmount());
    }
  }

  /** Every figure of the result: a stale snapshot reports the old ones, a newer one those it brings. */
  lemma FiguresExactly(input: ReconcileInput)
    requires DistinctIds(input.committedEntries)
    ensures var r := Reconcile(input);
      var pending := Sum(input.committedEntries, EntryAmount());
      && r.previousAvailable == input.currentHcmBalance - input.reservedOpen - pending
      && (input.authoritativeVersion <= input.lastReconciledVersion ==>
            r == ReconcileResult(false, {}, input.currentHcmBalance, input.lastReconciledVersion, pending,
                                 r.previousAvailable, r.previousAvailable, 0, 0, PlainReconciled))
      && (input.authoritativeVersion > input.lastReconciledVersion ==>
            && r.newHcmBalance == input.authoritativeBalance
            && r.newLastReconciledVersion == input.authoritativeVersion
            && r.committedPendingAfter == pending - MatchedAmount(input.committedEntries, input.authoritativeVersion)
            && r.newAvailable == input.authoritativeBalance - input.reservedOpen - r.committedPendingAfter
            && r.delta == input.authoritativeBalance - input.currentHcmBalance
            && (r.eventType.OverAllocated? <==> r.newAvailable < 0)
            && (r.eventType.BalanceIncreased? <==> r.newAvailable >= 0 && r.newAvailable > r.previousAvailable)
            && (r.eventType.BalanceDecreased? <==> r.newAvailable >= 0 && r.newAvailable < r.previousAvailable)
            && (r.eventType.PlainReconciled? <==> r.newAvailable >= 0 && r.newAvailable == r.previousAvailable))
  {
    AvailableMovesByUnexplainedDelta(input);
  }

  /** A snapshot that moved only by our own acknowledged debits is invisible to the employee. */
  lemma OwnDebitsAreInvisible(input: ReconcileInput)
    requires DistinctIds(input.committedEntries)
    requires input.authoritativeBalance ==
      input.currentHcmBalance - MatchedAmount(input.committedEntries, input.authoritativeVersion)
    ensures Reconcile(input).newAvailable == Reconcile(input).previousAvailable
    ensures Reconcile(input).eventType.PlainReconciled? || Reconcile(input).newAvailable < 0
  {
    AvailableMovesByUnexplainedDelta(input);
  }
}
