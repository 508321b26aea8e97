/** Absorbing authoritative balances into the cached ones. */
module Sync {
  import opened Domain
  import opened Tables
  import opened ReconciliationMath
  import opened Balances
  import HcmCore

  datatype BalanceUpdate = BalanceUpdate(key: Key, balance: int, version: nat)

  function ActiveRows(key: Key, phase: LedgerPhase): LedgerRow -> bool {
    (r: LedgerRow) => r.key == key && r.phase == phase && r.state.Active?
  }

  function RowAmount(): LedgerRow -> int { (r: LedgerRow) => r.amount }

  function RowId(): LedgerRow -> nat { (r: LedgerRow) => r.id }

  function ToEntry(): LedgerRow -> CommittedEntry {
    (r: LedgerRow) => CommittedEntry(r.id, r.amount, r.hcmVersion)
  }

  function MarkReconciled(ids: set<nat>): LedgerRow -> LedgerRow {
    (r: LedgerRow) => if r.id in ids then r.(state := Reconciled) else r
  }

  function CommittedEntries(st: Store, key: Key): seq<CommittedEntry> {
    Update(Select(st.ledger, ActiveRows(key, Commit)), ToEntry())
  }

  function InputFor(st: Store, u: BalanceUpdate): ReconcileInput {
    var balance := CachedBalance(st, u.key);
    ReconcileInput(balance.hcmBalance, balance.lastReconciledVersion,
                   Sum(Select(st.ledger, ActiveRows(u.key, Reserve)), RowAmount()),
                   CommittedEntries(st, u.key), u.balance, u.version)
  }

  /** The transaction: compute, then retire the matched commits, swap the snapshot, log what the employee sees. */
  function ReconcileKey(st: Store, u: BalanceUpdate): (Store, ReconcileResult) {
    var result := Reconcile(InputFor(st, u));
    if !result.applied then (st, result)
    else
      (st.(ledger := Update(st.ledger, MarkReconciled(result.matchedCommitIds)),
           balances := st.balances[u.key := Balance(result.newHcmBalance, result.newLastReconciledVersion)],
           events := if result.eventType.PlainReconciled? then st.events
                     else st.events + [Event(result.eventType, u.key, result.delta)]),
       result)
  }

  predicate IsAbsorbed(r: LedgerRow, key: Key, version: nat) {
    r.key == key && r.phase.Commit? && r.state.Active? && r.hcmVersion.Some? && r.hcmVersion.value <= version
  }

  /** What reconciling a key does to a row, without going through row ids. */
  function Absorb(key: Key, version: nat): LedgerRow -> LedgerRow {
    (r: LedgerRow) => if IsAbsorbed(r, key, version) then r.(state := Reconciled) else r
  }

  ghost predicate LedgerNumbered(ledger: seq<LedgerRow>) {
    forall i :: 0 <= i < |ledger| ==> ledger[i].id == i
  }

  lemma {:induction false} SelectedSumFirst(ledger: seq<LedgerRow>, n: nat, key: Key, phase: LedgerPhase)
    requires n <= |ledger|
    ensures Sum(SelectFirst(ledger, n, ActiveRows(key, phase)), RowAmount())
         == SumFirst(ledger, n, ActiveAmount(key, phase))
  {
    if n == 0 {
    } else {
      SelectedSumFirst(ledger, n - 1, key, phase);
      SumAppend(SelectFirst(ledger, n - 1, ActiveRows(key, phase)), ledger[n - 1], RowAmount());
    }
  }

  lemma SelectedSum(ledger: seq<LedgerRow>, key: Key, phase: LedgerPhase)
    ensures Sum(Select(ledger, ActiveRows(key, phase)), RowAmount()) == Sum(ledger, ActiveAmount(key, phase))
  {
    SelectedSumFirst(ledger, |ledger|, key, phase);
  }

  lemma EntriesSum(st: Store, key: Key)
    ensures Sum(CommittedEntries(st, key), EntryAmount()) == Sum(st.ledger, ActiveAmount(key, Commit))
  {
    SelectedSum(st.ledger, key, Commit);
    SumUpdate(Select(st.ledger, ActiveRows(key, Commit)), ToEntry(), EntryAmount(), RowAmount());
  }

  lemma EntriesAreDistinct(st: Store, key: Key)
    requires LedgerNumbered(st.ledger)
    ensures DistinctIds(CommittedEntries(st, key))
  {
    SelectOrdered(st.ledger, ActiveRows(key, Commit), RowId());
  }

  /** The amount that leaves the pending commits is the matched amount. */
  lemma {:induction false} AbsorbedSumFirst(ledger: seq<LedgerRow>, n: nat, key: Key, version: nat)
    requires n <= |ledger|
    ensures SumFirst(Update(ledger, Absorb(key, version)), n, ActiveAmount(key, Commit))
          + MatchedAmount(Update(SelectFirst(ledger, n, ActiveRows(key, Commit)), ToEntry()), version)
         == SumFirst(ledger, n, ActiveAmount(key, Commit))
  {
    if n == 0 {
    } else {
      var last := ledger[n - 1];
      AbsorbedSumFirst(ledger, n - 1, key, version);
      var rows := SelectFirst(ledger, n - 1, ActiveRows(key, Commit));
      if ActiveRows(key, Commit)(last) {
        UpdateAppend(rows, last, ToEntry());
        SelectAppend(Update(rows, ToEntry()), ToEntry()(last), AbsorbedAt(version));
        SumAppend(Select(Update(rows, ToEntry()), AbsorbedAt(version)), ToEntry()(last), EntryAmount());
      }
    }
  }

  lemma AbsorbedSum(ledger: seq<LedgerRow>, key: Key, version: nat)
    ensures Sum(Update(ledger, Absorb(key, version)), ActiveAmount(key, Commit))
          + MatchedAmount(Update(Select(ledger, ActiveRows(key, Commit)), ToEntry()), version)
         == Sum(ledger, ActiveAmount(key, Commit))
  {
    AbsorbedSumFirst(ledger, |ledger|, key, version);
  }

  function MatchedIds(st: Store, u: BalanceUpdate): set<nat> {
    Reconcile(InputFor(st, u)).matchedCommitIds
  }

  /** A row is matched by id exactly when it is an absorbed commit of the key. */
  lemma RowMatched(st: Store, u: BalanceUpdate, i: nat)
    requires LedgerNumbered(st.ledger) && u.version > CachedBalance(st, u.key).lastReconciledVersion
    requires i < |st.ledger|
    ensures st.ledger[i].id in MatchedIds(st, u)
       <==> IsAbsorbed(st.ledger[i], u.key, u.version)
  {
    var input := InputFor(st, u);
    var entries := input.committedEntries;
    EntriesAreDistinct(st, u.key);
    MatchedIdsAreTheAbsorbed(input);
    var r := st.ledger[i];
    var rows := Select(st.ledger, ActiveRows(u.key, Commit));
    if r.id in Reconcile(input).matchedCommitIds {
      var e :| e in entries && e.id == r.id && Absorbed(e, u.version);
      var j :| 0 <= j < |entries| && entries[j] == e;
      assert rows[j] in rows;
      assert rows[j] in st.ledger;
      assert rows[j] == r;
    } else if ActiveRows(u.key, Commit)(r) {
      assert r in rows;
      var j :| 0 <= j < |rows| && rows[j] == r;
      assert entries[j] == ToEntry()(r);
      assert entries[j] in entries;
    }
  }

  lemma MarkingIsAbsorbing(ledger: seq<LedgerRow>, ids: set<nat>, key: Key, version: nat)
    requires forall i :: 0 <= i < |ledger| ==> (ledger[i].id in ids <==> IsAbsorbed(ledger[i], key, version))
    ensures Update(ledger, MarkReconciled(ids)) == Update(ledger, Absorb(key, version))
  {
  }

  /** Matching by row id retires exactly the key's active commits at or below the snapshot's version. */
  lemma MatchingRetiresTheAbsorbed(st: Store, u: BalanceUpdate)
    requires LedgerNumbered(st.ledger) && u.version > CachedBalance(st, u.key).lastReconciledVersion
    ensures Update(st.ledger, MarkReconciled(MatchedIds(st, u))) == Update(st.ledger, Absorb(u.key, u.version))
  {
    var ids := MatchedIds(st, u);
    forall i: nat | i < |st.ledger|
      ensures st.ledger[i].id in ids <==> IsAbsorbed(st.ledger[i], u.key, u.version)
    {
      RowMatched(st, u, i);
    }
    MarkingIsAbsorbing(st.ledger, ids, u.key, u.version);
  }

  /** The store after an applied update, in terms of rows. */
  function AfterUpdate(st: Store, u: BalanceUpdate): Store {
    st.(ledger := Update(st.ledger, Absorb(u.key, u.version)),
        balances := st.balances[u.key := Balance(u.balance, u.version)])
  }

  lemma AfterUpdateElsewhere(st: Store, u: BalanceUpdate, k: Key)
    requires k != u.key
    ensures Available(AfterUpdate(st, u), k) == Available(st, k)
  {
    var f := Absorb(u.key, u.version);
    SumUpdate(st.ledger, f, ActiveAmount(k, Reserve), ActiveAmount(k, Reserve));
    SumUpdate(st.ledger, f, ActiveAmount(k, Commit), ActiveAmount(k, Commit));
  }

  lemma AfterUpdateHere(st: Store, u: BalanceUpdate)
    ensures Available(AfterUpdate(st, u), u.key) ==
      Available(st, u.key) + u.balance - CachedBalance(st, u.key).hcmBalance
      + MatchedAmount(CommittedEntries(st, u.key), u.version)
  {
    SumUpdate(st.ledger, Absorb(u.key, u.version), ActiveAmount(u.key, Reserve), ActiveAmount(u.key, Reserve));
    AbsorbedSum(st.ledger, u.key, u.version);
  }

  /**
   * The pure result speaks of the store: the availabilities it reports are those the ledger
   * derives before and after, other keys are untouched, a stale update leaves everything as it
   * was, and an over-allocation is always logged.
   */
  lemma ReconcileAgreesWithStore(st: Store, u: BalanceUpdate)
    requires LedgerNumbered(st.ledger)
    ensures var (st', r) := ReconcileKey(st, u);
      && r.applied == (u.version > CachedBalance(st, u.key).lastReconciledVersion)
      && r.previousAvailable == Available(st, u.key)
      && r.newAvailable == Available(st', u.key)
      && (!r.applied ==> st' == st)
      && (r.applied ==> st'.(events := st.events) == AfterUpdate(st, u))
      && (r.applied && r.newAvailable < 0 ==> st'.events == st.events + [Event(OverAllocated, u.key, r.delta)])
    ensures forall k :: k != u.key ==> Available(ReconcileKey(st, u).0, k) == Available(st, k)
  {
    var (st', r) := ReconcileKey(st, u);
    SelectedSum(st.ledger, u.key, Reserve);
    EntriesSum(st, u.key);
    EntriesAreDistinct(st, u.key);
    AvailableMovesByUnexplainedDelta(InputFor(st, u));
    if r.applied {
      MatchingRetiresTheAbsorbed(st, u);
      AfterUpdateHere(st, u);
      assert Components(st', u.key) == Components(AfterUpdate(st, u), u.key);
      forall k | k != u.key ensures Available(st', k) == Available(st, k) {
        AfterUpdateElsewhere(st, u, k);
        assert Components(st', k) == Components(AfterUpdate(st, u), k);
      }
    }
  }

  /**
   * What a snapshot does to the tables: nothing if it is no newer than the cached one, a missing one
   * counting as version 0; else it replaces the cached one and retires, row by row, the key's active
   * commits acknowledged at or below its version.
   */
  lemma ReconcileExactly(st: Store, u: BalanceUpdate)
    requires LedgerNumbered(st.ledger)
    ensures var (st', r) := ReconcileKey(st, u);
      var cached := if u.key in st.balances then st.balances[u.key] else Balance(0, 0);
      && (u.version <= cached.lastReconciledVersion ==> st' == st && !r.applied)
      && (u.version > cached.lastReconciledVersion ==>
            && r.applied && r.delta == u.balance - cached.hcmBalance
            && st' == st.(balances := st.balances[u.key := Balance(u.balance, u.version)],
                          ledger := st'.ledger, events := st'.events)
            && |st'.ledger| == |st.ledger|
            && forall j :: 0 <= j < |st.ledger| ==>
                 var row := st.ledger[j];
                 st'.ledger[j] ==
                   if row.key == u.key && row.phase.Commit? && row.state.Active?
                      && row.hcmVersion.Some? && row.hcmVersion.value <= u.version
                   then row.(state := Reconciled) else row)
  {
    ReconcileAgreesWithStore(st, u);
    var (st', r) := ReconcileKey(st, u);
    if r.applied { assert st'.ledger == AfterUpdate(st, u).ledger; }
  }

  /**
   * What is logged is what the employee sees, in terms of the ledger before and after: an
   * over-allocation, else a rise or a fall of the available balance, else nothing.
   */
  lemma EventsTellWhatChanged(st: Store, u: BalanceUpdate)
    requires LedgerNumbered(st.ledger)
    ensures var (st', r) := ReconcileKey(st, u);
      var before, after := Available(st, u.key), Available(st', u.key);
      st'.events ==
        if !r.applied || 0 <= after == before then st.events
        else if after < 0 then st.events + [Event(OverAllocated, u.key, r.delta)]
        else if after > before then st.events + [Event(BalanceIncreased, u.key, r.delta)]
        else st.events + [Event(BalanceDecreased, u.key, r.delta)]
  {
    ReconcileAgreesWithStore(st, u);
    EntriesAreDistinct(st, u.key);
    AvailableMovesByUnexplainedDelta(InputFor(st, u));
  }

  /** The store, and how many rows were applied and how many over-allocated. */
  datatype BatchOutcome = BatchOutcome(st: Store, applied: nat, overAllocated: nat)

  function IngestBatch(st: Store, rows: seq<BalanceUpdate>): BatchOutcome {
    if rows == [] then BatchOutcome(st, 0, 0)
    else
      var before := IngestBatch(st, rows[..|rows| - 1]);
      var (after, r) := ReconcileKey(before.st, rows[|rows| - 1]);
      BatchOutcome(after,
                   before.applied + (if r.applied then 1 else 0),
                   before.overAllocated + (if r.eventType.OverAllocated? then 1 else 0))
  }

  /** HCM's current row of a key, as an update. */
  function Latest(h: HcmCore.Hcm, k: Key): BalanceUpdate {
    BalanceUpdate(k, HcmCore.CurrentBalance(h, k), HcmCore.Version(h, k))
  }

  /** `pulled` lists HCM's current row of each key in `known`, once. */
  ghost predicate ListsLatest(pulled: seq<BalanceUpdate>, h: HcmCore.Hcm, known: set<Key>) {
    if pulled == [] then known == {}
    else
      var u := pulled[|pulled| - 1];
      u.key in known && u == Latest(h, u.key) && ListsLatest(pulled[..|pulled| - 1], h, known - {u.key})
  }

  lemma {:induction false} ListedExactly(pulled: seq<BalanceUpdate>, h: HcmCore.Hcm, known: set<Key>)
    requires ListsLatest(pulled, h, known)
    ensures |pulled| == |known|
    ensures forall u :: u in pulled <==> u.key in known && u == Latest(h, u.key)
  {
    if pulled == [] {
    } else {
      var front, last := pulled[..|pulled| - 1], pulled[|pulled| - 1];
      ListedExactly(front, h, known - {last.key});
      assert pulled == front + [last];
    }
  }

  /** Reading one key does not move what HCM says of the others. */
  lemma {:induction false} ListedStill(pulled: seq<BalanceUpdate>, h: HcmCore.Hcm, h': HcmCore.Hcm,
                                       known: set<Key>, k: Key)
    requires ListsLatest(pulled, h, known) && k !in known
    requires forall k' :: k' != k ==> HcmCore.Log(h', k') == HcmCore.Log(h, k')
    ensures ListsLatest(pulled, h', known)
  {
    if pulled == [] {
    } else {
      var front, last := pulled[..|pulled| - 1], pulled[|pulled| - 1];
      ListedStill(front, h, h', known - {last.key}, k);
      assert HcmCore.Log(h', last.key) == HcmCore.Log(h, last.key);
    }
  }

  lemma ListsOneMore(pulled: seq<BalanceUpdate>, h: HcmCore.Hcm, h': HcmCore.Hcm, known: set<Key>, k: Key)
    requires ListsLatest(pulled, h, known) && k !in known
    requires forall k' :: k' != k ==> HcmCore.Log(h', k') == HcmCore.Log(h, k')
    ensures ListsLatest(pulled + [Latest(h', k)], h', known + {k})
  {
    ListedStill(pulled, h, h', known, k);
    assert (pulled + [Latest(h', k)])[..|pulled|] == pulled && known + {k} - {k} == known;
  }

  lemma IngestOneMore(st: Store, rows: seq<BalanceUpdate>, u: BalanceUpdate)
    ensures IngestBatch(st, rows + [u]).st == ReconcileKey(IngestBatch(st, rows).st, u).0
  {
    assert (rows + [u])[..|rows|] == rows;
  }

  class SyncService {
    const db: Database
    const hcm: HcmCore.Engine

    constructor (db: Database, hcm: HcmCore.Engine)
      ensures this.db == db && this.hcm == hcm
    {
      this.db := db;
      this.hcm := hcm;
    }

    method ReconcileOne(u: BalanceUpdate) returns (result: ReconcileResult)
      modifies db
      ensures (db.Contents(), result) == ReconcileKey(old(db.Contents()), u)
    {
      var balance := if u.key in db.balances then db.balances[u.key] else Balance(0, 0);
      var reservedOpen := Sum(Select(db.ledger, ActiveRows(u.key, Reserve)), RowAmount());
      var committed := Update(Select(db.ledger, ActiveRows(u.key, Commit)), ToEntry());
      result := Reconcile(ReconcileInput(balance.hcmBalance, balance.lastReconciledVersion, reservedOpen,
                                         committed, u.balance, u.version));
      if !result.applied { return; }
      db.ledger := Update(db.ledger, MarkReconciled(result.matchedCommitIds));
      balance := Balance(result.newHcmBalance, result.newLastReconciledVersion);
      db.balances := db.balances[u.key := balance];
      if !result.eventType.PlainReconciled? {
        db.events := db.events + [Event(result.eventType, u.key, result.delta)];
      }
    }

    method Ingest(rows: seq<BalanceUpdate>) returns (processed: nat, applied: nat, overAllocated: nat)
      modifies db
      ensures BatchOutcome(db.Contents(), applied, overAllocated) == IngestBatch(old(db.Contents()), rows)
      ensures processed == |rows|
    {
      applied, overAllocated := 0, 0;
      var i := 0;
      while i < |rows|
        invariant 0 <= i <= |rows|
        invariant BatchOutcome(db.Contents(), applied, overAllocated) == IngestBatch(old(db.Contents()), rows[..i])
      {
        assert rows[..i + 1][..i] == rows[..i];
        var result := ReconcileOne(rows[i]);
        if result.applied { applied := applied + 1; }
        if result.eventType.OverAllocated? { overAllocated := overAllocated + 1; }
        i := i + 1;
      }
      assert rows[..i] == rows;
      processed := |rows|;
    }

    /** Re-read one key from HCM and reconcile it; false, and nothing done, when HCM refuses the key. */
    method Refresh(k: Key) returns (ok: bool)
      requires hcm.Valid() && k in db.balances
      modifies db, hcm
      ensures hcm.Valid()
      ensures ok <==> HcmCore.GetBalance(old(hcm.View()), k).1.Some?
      ensures hcm.View() == HcmCore.GetBalance(old(hcm.View()), k).0
      ensures !ok ==> db.Contents() == old(db.Contents()) && hcm.View() == old(hcm.View())
      ensures ok ==>
        var h := hcm.View();
        db.Contents() ==
          ReconcileKey(old(db.Contents()), BalanceUpdate(k, HcmCore.CurrentBalance(h, k), HcmCore.Version(h, k))).0
      ensures old(db.balances.Keys) <= db.balances.Keys
      ensures forall k' :: k' != k ==> HcmCore.Log(hcm.View(), k') == HcmCore.Log(old(hcm.View()), k')
    {
      HcmCore.TouchKeeps(hcm.View(), k);
      var row := hcm.ReadBalance(k);
      if row.None? { return false; }
      var _ := ReconcileOne(BalanceUpdate(k, row.value.balance, row.value.version));
      ok := true;
    }

    /**
     * The safety net: it re-pulls the known balances one after the other. What it leaves behind is
     * what ingesting HCM's own current rows leaves; `pulled` lists them for the keys of `swept`, which
     * are all the known ones unless HCM refused one of them and the sweep stopped there: None.
     */
    method ReconcileAll() returns (processed: Option<nat>, ghost pulled: seq<BalanceUpdate>, ghost swept: set<Key>)
      requires hcm.Valid()
      modifies db, hcm
      ensures hcm.Valid()
      ensures swept <= old(db.balances.Keys) && ListsLatest(pulled, hcm.View(), swept)
      ensures db.Contents() == IngestBatch(old(db.Contents()), pulled).st
      ensures processed.Some? ==> processed.value == |pulled| && swept == old(db.balances.Keys)
      ensures processed.None? ==>
        exists k :: k in old(db.balances) && k !in swept && HcmCore.GetBalance(hcm.View(), k).1.None?
    {
      hide ReconcileKey;
      ghost var known, start := db.balances.Keys, db.Contents();
      var todo, count := db.balances.Keys, 0;
      pulled, swept := [], {};
      while todo != {}
        invariant hcm.Valid()
        invariant todo <= known <= db.balances.Keys && swept == known - todo
        invariant db.Contents() == IngestBatch(start, pulled).st
        invariant ListsLatest(pulled, hcm.View(), swept) && count == |pulled|
      {
        var k :| k in todo;
        ghost var before := hcm.View();
        var ok := Refresh(k);
        if !ok { return None, pulled, swept; }
        ghost var u := Latest(hcm.View(), k);
        ListsOneMore(pulled, before, hcm.View(), swept, k);
        IngestOneMore(start, pulled, u);
        todo, count := todo - {k}, count + 1;
        assert known - todo == swept + {k};
        pulled, swept := pulled + [u], known - todo;
      }
      processed := Some(count);
    }
  }
}
