/** The ledger: holds, commits, and the balance derived from them. */
module Balances {
  import opened Domain
  import opened Tables
  import opened BalanceMath
  import HcmCore

  function Release(id: RequestId, phase: LedgerPhase): LedgerRow -> LedgerRow {
    (r: LedgerRow) =>
      if r.requestId == id && r.phase == phase && r.state.Active? then r.(state := Released) else r
  }

  function ReservationRow(rowId: nat, id: RequestId, key: Key, amount: int): LedgerRow {
    LedgerRow(rowId, id, key, amount, Reserve, Active, None)
  }

  function CommitRow(rowId: nat, id: RequestId, key: Key, amount: int, hcmVersion: Option<nat>): LedgerRow {
    LedgerRow(rowId, id, key, amount, Commit, Active, hcmVersion)
  }

  function AddReservation(st: Store, id: RequestId, key: Key, amount: int): Store {
    st.(ledger := st.ledger + [ReservationRow(|st.ledger|, id, key, amount)])
  }

  function ReleaseReservation(st: Store, id: RequestId): Store {
    st.(ledger := Update(st.ledger, Release(id, Reserve)))
  }

  function ReleaseCommit(st: Store, id: RequestId): Store {
    st.(ledger := Update(st.ledger, Release(id, Commit)))
  }

  function CommitReservation(st: Store, id: RequestId, key: Key, amount: int, hcmVersion: Option<nat>): Store {
    var st := ReleaseReservation(st, id);
    st.(ledger := st.ledger + [CommitRow(|st.ledger|, id, key, amount, hcmVersion)])
  }

  function ActiveAmount(key: Key, phase: LedgerPhase): LedgerRow -> int {
    (r: LedgerRow) => if r.key == key && r.phase == phase && r.state.Active? then r.amount else 0
  }

  function CachedBalance(st: Store, key: Key): Balance {
    if key in st.balances then st.balances[key] else Balance(0, 0)
  }

  function Components(st: Store, key: Key): BalanceComponents {
    BalanceComponents(CachedBalance(st, key).hcmBalance,
                      Sum(st.ledger, ActiveAmount(key, Reserve)),
                      Sum(st.ledger, ActiveAmount(key, Commit)))
  }

  function Available(st: Store, key: Key): int {
    ComputeAvailable(Components(st, key))
  }

  /** The request's active rows of a phase are released, row by row; no other row changes. */
  ghost predicate Freed(ledger: seq<LedgerRow>, ledger': seq<LedgerRow>, id: RequestId, phase: LedgerPhase) {
    && |ledger'| == |ledger|
    && forall j :: 0 <= j < |ledger| ==>
         var row := ledger[j];
         ledger'[j] ==
           if row.requestId == id && row.phase == phase && row.state.Active? then row.(state := Released) else row
  }

  /** Insert a snapshot unless the key already has one. */
  function InsertOrIgnore(st: Store, key: Key, snapshot: Balance): Store {
    if key in st.balances then st else st.(balances := st.balances[key := snapshot])
  }

  /** Load a first snapshot from HCM if there is none; false when HCM refuses the key. */
  function EnsureLoaded(st: Store, h: HcmCore.Hcm, key: Key): (Store, HcmCore.Hcm, bool) {
    if key in st.balances then (st, h, true)
    else
      var (h', row) := HcmCore.GetBalance(h, key);
      if row.None? then (st, h', false)
      else (InsertOrIgnore(st, key, Balance(row.value.balance, row.value.version)), h', true)
  }

  /**
   * A first load succeeds exactly if HCM has the key or creates it, and caches what HCM says of it; the
   * first version is 1 for a key HCM creates at zero. A cached key is left alone.
   */
  lemma LoadedExactly(st: Store, h: HcmCore.Hcm, key: Key)
    ensures var (st', h', loaded) := EnsureLoaded(st, h, key);
      && (key in st.balances ==> loaded && st' == st && h' == h)
      && (key !in st.balances ==>
            && (loaded <==> HcmCore.IsReadable(h, key))
            && (!loaded ==> st' == st && h' == h)
            && (loaded ==>
                  var version := if HcmCore.Version(h, key) == 0 then 1 else HcmCore.Version(h, key);
                  st' == st.(balances := st.balances[key := Balance(HcmCore.CurrentBalance(h, key), version)])))
  {
    HcmCore.ReadExactly(h, key);
  }

  class BalanceService {
    const db: Database
    const hcm: HcmCore.Engine

    constructor (db: Database, hcm: HcmCore.Engine)
      ensures this.db == db && this.hcm == hcm
    {
      this.db := db;
      this.hcm := hcm;
    }

    method EnsureBalanceLoaded(key: Key) returns (loaded: bool)
      requires hcm.Valid()
      modifies db, hcm
      ensures hcm.Valid()
      ensures (db.Contents(), hcm.View(), loaded) == EnsureLoaded(old(db.Contents()), old(hcm.View()), key)
      ensures loaded <==> key in old(db.balances) || HcmCore.IsReadable(old(hcm.View()), key)
    {
      LoadedExactly(db.Contents(), hcm.View(), key);
      if key in db.balances { return true; }
      var row := hcm.ReadBalance(key);
      if row.None? { return false; }
      if key !in db.balances {
        db.balances := db.balances[key := Balance(row.value.balance, row.value.version)];
      }
      loaded := true;
    }

    /** Sum the active rows of the key, phase by phase. */
    method ComputeComponents(key: Key) returns (c: BalanceComponents)
      ensures c == Components(db.Contents(), key)
      ensures c.hcmBalance == if key in db.balances then db.balances[key].hcmBalance else 0
      ensures c.reservedOpen == Sum(db.ledger, ActiveAmount(key, Reserve))
      ensures c.committedPending == Sum(db.ledger, ActiveAmount(key, Commit))
    {
      var hcmBalance := if key in db.balances then db.balances[key].hcmBalance else 0;
      var reservedOpen, committedPending := 0, 0;
      var i := 0;
      while i < |db.ledger|
        invariant 0 <= i <= |db.ledger|
        invariant reservedOpen == Sum(db.ledger[..i], ActiveAmount(key, Reserve))
        invariant committedPending == Sum(db.ledger[..i], ActiveAmount(key, Commit))
      {
        var r := db.ledger[i];
        SumAppend(db.ledger[..i], r, ActiveAmount(key, Reserve));
        SumAppend(db.ledger[..i], r, ActiveAmount(key, Commit));
        assert db.ledger[..i + 1] == db.ledger[..i] + [r];
        if r.key == key && r.state.Active? {
          if r.phase.Reserve? {
            reservedOpen := reservedOpen + r.amount;
          } else {
            committedPending := committedPending + r.amount;
          }
        }
        i := i + 1;
      }
      assert db.ledger[..i] == db.ledger;
      c := BalanceComponents(hcmBalance, reservedOpen, committedPending);
    }

    method Hold(id: RequestId, key: Key, amount: int)
      modifies db`ledger
      ensures db.Contents() == AddReservation(old(db.Contents()), id, key, amount)
    {
      db.ledger := db.ledger + [ReservationRow(|db.ledger|, id, key, amount)];
    }

    method Unreserve(id: RequestId)
      modifies db`ledger
      ensures db.Contents() == ReleaseReservation(old(db.Contents()), id)
    {
      db.ledger := Update(db.ledger, Release(id, LedgerPhase.Reserve));
    }

    method CommitHold(id: RequestId, key: Key, amount: int, hcmVersion: Option<nat>)
      modifies db`ledger
      ensures db.Contents() == CommitReservation(old(db.Contents()), id, key, amount, hcmVersion)
    {
      Unreserve(id);
      db.ledger := db.ledger + [CommitRow(|db.ledger|, id, key, amount, hcmVersion)];
    }

    method Uncommit(id: RequestId)
      modifies db`ledger
      ensures db.Contents() == ReleaseCommit(old(db.Contents()), id)
    {
      db.ledger := Update(db.ledger, Release(id, LedgerPhase.Commit));
    }
  }
}
