/**
 * A batch of snapshots has one outcome, whatever its order and however often a row is repeated:
 * for each key that of the newest row above the starting watermark.
 */
module Confluence {
  import opened Domain
  import opened Tables
  import opened Balances
  import opened Sync
  import HcmCore

  /** Every row is a balance HCM really had, under its version. */
  ghost predicate Genuine(rows: seq<BalanceUpdate>, h: HcmCore.Hcm) {
    forall u :: u in rows ==>
      u.version <= HcmCore.Version(h, u.key) && u.balance == HcmCore.BalanceAt(h, u.key, u.version)
  }

  /** The newest version offered for a key, 0 if none is. */
  function Top(rows: seq<BalanceUpdate>, k: Key): nat {
    if rows == [] then 0
    else
      var top, last := Top(rows[..|rows| - 1], k), rows[|rows| - 1];
      if last.key == k && last.version > top then last.version else top
  }

  lemma {:induction false} TopIsNewest(rows: seq<BalanceUpdate>, k: Key)
    ensures forall u :: u in rows && u.key == k ==> u.version <= Top(rows, k)
    ensures Top(rows, k) > 0 ==> exists u :: u in rows && u.key == k && u.version == Top(rows, k)
  {
    if rows == [] {
    } else {
      var front, last := rows[..|rows| - 1], rows[|rows| - 1];
      TopIsNewest(front, k);
      assert rows == front + [last];
      if Top(rows, k) > Top(front, k) {
        assert last in rows;
      } else if Top(front, k) > 0 {
        var u :| u in front && u.key == k && u.version == Top(front, k);
        assert u in rows;
      }
    }
  }

  function WatermarkOf(st: Store, k: Key): nat { CachedBalance(st, k).lastReconciledVersion }

  predicate IsCached(st: Store, k: Key) { k in st.balances }

  /** A row of the ledger, once the newest version offered for its key has been absorbed. */
  function Retire(st: Store, rows: seq<BalanceUpdate>): LedgerRow -> LedgerRow {
    (r: LedgerRow) =>
      if Top(rows, r.key) > WatermarkOf(st, r.key) && IsAbsorbed(r, r.key, Top(rows, r.key)) then
        r.(state := Reconciled)
      else r
  }

  function FinalBalance(st: Store, h: HcmCore.Hcm, k: Key, top: nat): Balance {
    if WatermarkOf(st, k) < top <= HcmCore.Version(h, k) then Balance(HcmCore.BalanceAt(h, k, top), top)
    else CachedBalance(st, k)
  }

  /** The tables hold, for every key, the newest snapshot offered, and nothing else has happened to them. */
  ghost predicate Ingested(st: Store, rows: seq<BalanceUpdate>, h: HcmCore.Hcm, st': Store) {
    && st'.requests == st.requests && st'.outbox == st.outbox
    && st'.ledger == Update(st.ledger, Retire(st, rows))
    && (forall k {:trigger CachedBalance(st', k)} :: CachedBalance(st', k) == FinalBalance(st, h, k, Top(rows, k)))
    && (forall k {:trigger IsCached(st', k)} :: IsCached(st', k) <==> IsCached(st, k) || Top(rows, k) > 0)
  }

  lemma TopIsGenuine(rows: seq<BalanceUpdate>, h: HcmCore.Hcm, k: Key)
    requires Genuine(rows, h)
    ensures Top(rows, k) <= HcmCore.Version(h, k)
  {
  }

  lemma WatermarkAfter(st: Store, rows: seq<BalanceUpdate>, h: HcmCore.Hcm, st': Store, k: Key)
    requires Genuine(rows, h) && Ingested(st, rows, h, st')
    ensures WatermarkOf(st', k) == if Top(rows, k) > WatermarkOf(st, k) then Top(rows, k) else WatermarkOf(st, k)
  {
    TopIsGenuine(rows, h, k);
  }

  /** Absorbing a newer version after an older one is absorbing the newer one. */
  lemma RetireNext(st: Store, front: seq<BalanceUpdate>, u: BalanceUpdate, r: LedgerRow)
    requires u.version > Top(front, u.key) && u.version > WatermarkOf(st, u.key)
    ensures Absorb(u.key, u.version)(Retire(st, front)(r)) == Retire(st, front + [u])(r)
  {
  }

  lemma TopNext(front: seq<BalanceUpdate>, u: BalanceUpdate, k: Key)
    ensures Top(front + [u], k) == if u.key == k && u.version > Top(front, k) then u.version else Top(front, k)
  {
  }

  /** One more row, newer than everything seen of its key. */
  lemma IngestNewer(st: Store, front: seq<BalanceUpdate>, u: BalanceUpdate, h: HcmCore.Hcm, mid: Store, st': Store)
    requires Ingested(st, front, h, mid) && Genuine(front + [u], h) && Genuine(front, h)
    requires u.version > WatermarkOf(mid, u.key) && st'.(events := mid.events) == AfterUpdate(mid, u)
    ensures Ingested(st, front + [u], h, st')
  {
    WatermarkAfter(st, front, h, mid, u.key);
    assert u in front + [u];
    forall i | 0 <= i < |st.ledger| ensures st'.ledger[i] == Retire(st, front + [u])(st.ledger[i]) {
      RetireNext(st, front, u, st.ledger[i]);
    }
    forall k ensures CachedBalance(st', k) == FinalBalance(st, h, k, Top(front + [u], k)) {
      TopNext(front, u, k);
      assert CachedBalance(mid, k) == FinalBalance(st, h, k, Top(front, k));
    }
    forall k ensures IsCached(st', k) <==> IsCached(st, k) || Top(front + [u], k) > 0 {
      TopNext(front, u, k);
      assert IsCached(mid, k) <==> IsCached(st, k) || Top(front, k) > 0;
    }
  }

  /** One more row, no newer than what is cached: it changes nothing. */
  lemma IngestStale(st: Store, front: seq<BalanceUpdate>, u: BalanceUpdate, h: HcmCore.Hcm, mid: Store)
    requires Ingested(st, front, h, mid) && Genuine(front, h) && u.version <= WatermarkOf(mid, u.key)
    ensures Ingested(st, front + [u], h, mid)
  {
  }

  lemma IngestedNothing(st: Store, h: HcmCore.Hcm)
    ensures Ingested(st, [], h, st)
  {
  }

  lemma IngestedIsNumbered(st: Store, rows: seq<BalanceUpdate>, h: HcmCore.Hcm, st': Store)
    requires LedgerNumbered(st.ledger) && Ingested(st, rows, h, st')
    ensures LedgerNumbered(st'.ledger)
  {
  }

  lemma IngestOne(st: Store, front: seq<BalanceUpdate>, u: BalanceUpdate, h: HcmCore.Hcm, mid: Store)
    requires LedgerNumbered(st.ledger) && Ingested(st, front, h, mid) && Genuine(front + [u], h)
    ensures Ingested(st, front + [u], h, ReconcileKey(mid, u).0)
  {
    assert Genuine(front, h) by { assert forall v :: v in front ==> v in front + [u]; }
    IngestedIsNumbered(st, front, h, mid);
    ReconcileAgreesWithStore(mid, u);
    if u.version > WatermarkOf(mid, u.key) {
      IngestNewer(st, front, u, h, mid, ReconcileKey(mid, u).0);
    } else {
      IngestStale(st, front, u, h, mid);
    }
  }

  /** The outcome of a batch, without looking at its order. */
  lemma {:induction false} BatchOutcomeIs(st: Store, rows: seq<BalanceUpdate>, h: HcmCore.Hcm)
    requires LedgerNumbered(st.ledger) && Genuine(rows, h)
    ensures Ingested(st, rows, h, IngestBatch(st, rows).st)
  {
    if rows == [] {
      IngestedNothing(st, h);
    } else {
      var front, u := rows[..|rows| - 1], rows[|rows| - 1];
      assert rows == front + [u];
      BatchOutcomeIs(st, front, h);
      IngestOne(st, front, u, h, IngestBatch(st, front).st);
    }
  }

  lemma SameTop(rows: seq<BalanceUpdate>, rows': seq<BalanceUpdate>, k: Key)
    requires forall u :: u in rows ==> u in rows'
    ensures Top(rows, k) <= Top(rows', k)
  {
    TopIsNewest(rows, k);
    TopIsNewest(rows', k);
  }

  lemma SameOutcome(st: Store, rows: seq<BalanceUpdate>, rows': seq<BalanceUpdate>, h: HcmCore.Hcm,
                    s1: Store, s2: Store, k: Key)
    requires Ingested(st, rows, h, s1) && Ingested(st, rows', h, s2)
    requires forall k :: Top(rows, k) == Top(rows', k)
    ensures s1.ledger == s2.ledger && (IsCached(s1, k) <==> IsCached(s2, k))
    ensures CachedBalance(s1, k) == CachedBalance(s2, k) && Available(s1, k) == Available(s2, k)
  {
  }

  /**
   * Confluence. Two batches with the same rows, in any order and any multiplicity, leave the same
   * cached balances, the same watermarks and the same ledger, so the same available balances.
   */
  lemma BatchOrderDoesNotMatter(st: Store, rows: seq<BalanceUpdate>, rows': seq<BalanceUpdate>, h: HcmCore.Hcm, k: Key)
    requires LedgerNumbered(st.ledger) && Genuine(rows, h)
    requires forall u :: u in rows <==> u in rows'
    ensures var s1, s2 := IngestBatch(st, rows).st, IngestBatch(st, rows').st;
      && s1.ledger == s2.ledger && (IsCached(s1, k) <==> IsCached(s2, k))
      && CachedBalance(s1, k) == CachedBalance(s2, k) && Available(s1, k) == Available(s2, k)
  {
    BatchOutcomeIs(st, rows, h);
    BatchOutcomeIs(st, rows', h);
    forall k ensures Top(rows, k) == Top(rows', k) {
      SameTop(rows, rows', k);
      SameTop(rows', rows, k);
    }
    SameOutcome(st, rows, rows', h, IngestBatch(st, rows).st, IngestBatch(st, rows').st, k);
  }

  /** Rows already covered by the watermarks apply to nothing. */
  lemma {:induction false} CoveredRowsAreIgnored(st: Store, rows: seq<BalanceUpdate>)
    requires LedgerNumbered(st.ledger) && forall u :: u in rows ==> u.version <= WatermarkOf(st, u.key)
    ensures IngestBatch(st, rows) == BatchOutcome(st, 0, 0)
  {
    if rows == [] {
    } else {
      var front, u := rows[..|rows| - 1], rows[|rows| - 1];
      assert u in rows;
      CoveredRowsAreIgnored(st, front);
      ReconcileAgreesWithStore(st, u);
    }
  }

  lemma OfferedIsCovered(st: Store, rows: seq<BalanceUpdate>, h: HcmCore.Hcm, after: Store, again: seq<BalanceUpdate>)
    requires LedgerNumbered(st.ledger) && Genuine(rows, h) && Ingested(st, rows, h, after)
    requires forall u :: u in again ==> u in rows
    ensures IngestBatch(after, again) == BatchOutcome(after, 0, 0)
  {
    IngestedIsNumbered(st, rows, h, after);
    forall u | u in again ensures u.version <= WatermarkOf(after, u.key) {
      WatermarkAfter(st, rows, h, after, u.key);
      TopIsNewest(rows, u.key);
    }
    CoveredRowsAreIgnored(after, again);
  }

  /** Ingesting a batch again, or any part of it, applies nothing and changes nothing. */
  lemma ReingestAppliesNothing(st: Store, rows: seq<BalanceUpdate>, again: seq<BalanceUpdate>, h: HcmCore.Hcm)
    requires LedgerNumbered(st.ledger) && Genuine(rows, h)
    requires forall u :: u in again ==> u in rows
    ensures var after := IngestBatch(st, rows).st;
      IngestBatch(after, again) == BatchOutcome(after, 0, 0)
  {
    BatchOutcomeIs(st, rows, h);
    OfferedIsCovered(st, rows, h, IngestBatch(st, rows).st, again);
  }

  lemma UnmentionedKey(st: Store, rows: seq<BalanceUpdate>, h: HcmCore.Hcm, k: Key, after: Store)
    requires Ingested(st, rows, h, after) && forall u :: u in rows ==> u.key != k
    ensures CachedBalance(after, k) == CachedBalance(st, k) && Available(after, k) == Available(st, k)
    ensures |after.ledger| == |st.ledger|
    ensures forall i :: 0 <= i < |st.ledger| && st.ledger[i].key == k ==> after.ledger[i] == st.ledger[i]
  {
    TopIsNewest(rows, k);
    assert Top(rows, k) == 0;
    var f := Retire(st, rows);
    SumUpdate(st.ledger, f, ActiveAmount(k, Reserve), ActiveAmount(k, Reserve));
    SumUpdate(st.ledger, f, ActiveAmount(k, Commit), ActiveAmount(k, Commit));
  }

  /** A key that no row mentions keeps its balance, its watermark and its ledger rows. */
  lemma OtherKeysAreUntouched(st: Store, rows: seq<BalanceUpdate>, h: HcmCore.Hcm, k: Key)
    requires LedgerNumbered(st.ledger) && Genuine(rows, h)
    requires forall u :: u in rows ==> u.key != k
    ensures var after := IngestBatch(st, rows).st;
      && CachedBalance(after, k) == CachedBalance(st, k) && Available(after, k) == Available(st, k)
      && |after.ledger| == |st.ledger|
      && (forall i :: 0 <= i < |st.ledger| && st.ledger[i].key == k ==> after.ledger[i] == st.ledger[i])
  {
    BatchOutcomeIs(st, rows, h);
    UnmentionedKey(st, rows, h, k, IngestBatch(st, rows).st);
  }

  // ---- The counts a batch reports ------------------------------------------

  /** How many rows are newer than the watermark and than every earlier row of their key. */
  function Rises(st: Store, rows: seq<BalanceUpdate>): nat {
    if rows == [] then 0
    else
      var front, last := rows[..|rows| - 1], rows[|rows| - 1];
      Rises(st, front) +
      (if last.version > WatermarkOf(st, last.key) && last.version > Top(front, last.key) then 1 else 0)
  }

  lemma LastRises(st: Store, front: seq<BalanceUpdate>, last: BalanceUpdate, h: HcmCore.Hcm, mid: Store)
    requires LedgerNumbered(st.ledger) && Genuine(front, h) && Ingested(st, front, h, mid)
    ensures ReconcileKey(mid, last).1.applied <==>
      last.version > WatermarkOf(st, last.key) && last.version > Top(front, last.key)
  {
    IngestedIsNumbered(st, front, h, mid);
    ReconcileAgreesWithStore(mid, last);
    WatermarkAfter(st, front, h, mid, last.key);
  }

  /** The rows reported as applied are those newer than everything before them. */
  lemma {:induction false} AppliedAreTheRises(st: Store, rows: seq<BalanceUpdate>, h: HcmCore.Hcm)
    requires LedgerNumbered(st.ledger) && Genuine(rows, h)
    ensures IngestBatch(st, rows).applied == Rises(st, rows)
  {
    if rows == [] {
    } else {
      var front, last := rows[..|rows| - 1], rows[|rows| - 1];
      AppliedAreTheRises(st, front, h);
      BatchOutcomeIs(st, front, h);
      LastRises(st, front, last, h, IngestBatch(st, front).st);
    }
  }

  function IsOverAllocation(): Event -> bool { (e: Event) => e.eventType.OverAllocated? }

  lemma OneIsLogged(st: Store, u: BalanceUpdate)
    ensures var (st', r) := ReconcileKey(st, u);
      |Select(st'.events, IsOverAllocation())|
        == |Select(st.events, IsOverAllocation())| + (if r.eventType.OverAllocated? then 1 else 0)
  {
    var r := ReconcileKey(st, u).1;
    SelectAppend(st.events, Event(r.eventType, u.key, r.delta), IsOverAllocation());
  }

  /** Every over-allocation reported is in the log, and the log gained no other. */
  lemma {:induction false} OverAllocationsAreLogged(st: Store, rows: seq<BalanceUpdate>)
    ensures |Select(IngestBatch(st, rows).st.events, IsOverAllocation())|
         == |Select(st.events, IsOverAllocation())| + IngestBatch(st, rows).overAllocated
  {
    if rows == [] {
    } else {
      var front, last := rows[..|rows| - 1], rows[|rows| - 1];
      OverAllocationsAreLogged(st, front);
      OneIsLogged(IngestBatch(st, front).st, last);
    }
  }
}
