/**
 * What is promised can be delivered: HCM's balance covers every reserved or approved day it has not
 * yet been told of, up to debits that were never refunded and losses from outside.
 */
module Deliverability {
  import opened Domain
  import opened Tables
  import opened StateMachine
  import opened Balances
  import opened HcmCore
  import opened Protocol
  import opened Views
  import opened Accounting
  import opened ExactlyOnce

  // ---- HCM's movement, regrouped by request --------------------------------

  function IsService(): Cause -> bool { (c: Cause) => c.Applied? && !c.idempotencyKey.Foreign? }

  function IsForeignMove(): Cause -> bool { (c: Cause) => c.Outside? || c.idempotencyKey.Foreign? }

  function NetAt(s: System, k: Key, w: nat): nat -> int {
    (i: nat) => if i < |s.store.requests| && s.store.requests[i].key == k then Net(s, i, w) else 0
  }

  /** The entry above `w`, if it is the service's, belongs to exactly one request. */
  lemma EntrySplits(s: System, k: Key, w: nat)
    requires Inv(s) && w < Version(s.hcm, k)
    ensures SumTo(|s.store.requests|, NetAt(s, k, w)) - SumTo(|s.store.requests|, NetAt(s, k, w + 1)) ==
      if IsService()(Log(s.hcm, k)[w].cause) then BalanceAt(s.hcm, k, w + 1) - BalanceAt(s.hcm, k, w) else 0
  {
    var n, f, g := |s.store.requests|, NetAt(s, k, w + 1), NetAt(s, k, w);
    var cause := Log(s.hcm, k)[w].cause;
    forall i: nat | i < n && !(s.store.requests[i].key == k && CausedBy(i)(cause)) ensures f(i) == g(i) {
      if s.store.requests[i].key == k { EntryOfRequest(s, i, w); }
    }
    if IsService()(cause) {
      assert EntryOwned(s.hcm, k, w);
      var at := cause.idempotencyKey.requestId;
      assert CausedBy(at)(cause);
      EntryOfRequest(s, at, w);
      SumChange(n, f, g, at);
    } else {
      SumSame(n, f, g);
    }
  }

  lemma {:induction false} ServiceMoves(s: System, k: Key, w: nat)
    requires Inv(s) && w <= Version(s.hcm, k)
    ensures Moves(s.hcm, k, w, IsService()) == SumTo(|s.store.requests|, NetAt(s, k, w))
    decreases Version(s.hcm, k) - w
  {
    if w == Version(s.hcm, k) {
      forall i: nat | i < |s.store.requests| ensures NetAt(s, k, w)(i) == 0 {
        if s.store.requests[i].key == k { NothingAboveNow(s, i); }
      }
      SumZero(|s.store.requests|, NetAt(s, k, w));
    } else {
      ServiceMoves(s, k, w + 1);
      EntrySplits(s, k, w);
    }
  }

  /** What others took from the balance of `k` above version `w`, gains not counted. */
  function Loss(h: Hcm, k: Key, w: nat): int
    requires w <= Version(h, k)
    decreases Version(h, k) - w
  {
    if w == Version(h, k) then 0
    else
      var delta := BalanceAt(h, k, w + 1) - BalanceAt(h, k, w);
      (if IsForeignMove()(Log(h, k)[w].cause) && delta < 0 then -delta else 0) + Loss(h, k, w + 1)
  }

  lemma {:induction false} LossFromStart(h: Hcm, k: Key, w: nat, from: nat)
    requires from <= w <= Version(h, k)
    ensures Loss(h, k, w) <= Loss(h, k, from)
    decreases w - from
  {
    if from == w {
    } else {
      LossFromStart(h, k, w, from + 1);
    }
  }

  lemma {:induction false} LossBounds(h: Hcm, k: Key, w: nat)
    requires w <= Version(h, k)
    ensures Loss(h, k, w) >= 0
    ensures Moves(h, k, w, IsForeignMove()) >= -Loss(h, k, w)
    ensures Loss(h, k, w) <= Loss(h, k, 0)
    decreases Version(h, k) - w
  {
    if w == Version(h, k) {
    } else {
      LossBounds(h, k, w + 1);
    }
    LossFromStart(h, k, w, 0);
  }

  /** Losses add up along a growing history. */
  lemma {:induction false} LossSplits(h: Hcm, h': Hcm, k: Key, w: nat)
    requires Log(h, k) <= Log(h', k) && w <= Version(h, k)
    ensures Loss(h', k, w) == Loss(h, k, w) + Loss(h', k, Version(h, k))
    decreases Version(h, k) - w
  {
    if w == Version(h, k) {
    } else {
      assert Log(h, k)[w] == Log(h', k)[w];
      LossSplits(h, h', k, w + 1);
    }
  }

  /** Moves of others never lower the balance by more than they raise the loss. */
  lemma {:induction false} ForeignMovesOnly(h: Hcm, k: Key, w: nat)
    requires w <= Version(h, k)
    requires forall v: nat :: w <= v < Version(h, k) ==> IsForeignMove()(Log(h, k)[v].cause)
    ensures CurrentBalance(h, k) + Loss(h, k, w) >= BalanceAt(h, k, w)
    decreases Version(h, k) - w
  {
    if w == Version(h, k) {
    } else {
      ForeignMovesOnly(h, k, w + 1);
    }
  }

  // ---- What is promised ----------------------------------------------------

  /** Days promised that HCM has not been told of. */
  predicate Waits(r: Request, h: Hcm) { IsLive(r.status) && DebitOf(r.id) !in h.applied }

  /** Days debited for a request that is cancelled and was never refunded. */
  predicate NeverRefunded(r: Request, h: Hcm) {
    r.status.Cancelled? && IsWritten(AckOf(h, DebitOf(r.id))) && !IsWritten(AckOf(h, CreditOf(r.id)))
  }

  function WaitingDays(requests: seq<Request>, h: Hcm, k: Key): nat -> int {
    (i: nat) => if i < |requests| && requests[i].key == k && Waits(requests[i], h) then requests[i].days else 0
  }

  function UnrefundedDays(requests: seq<Request>, h: Hcm, k: Key): nat -> int {
    (i: nat) => if i < |requests| && requests[i].key == k && NeverRefunded(requests[i], h) then requests[i].days else 0
  }

  /** Request by request: what HCM moved since the snapshot, plus the hold, covers the promise. */
  lemma RequestIsCovered(s: System, k: Key, i: RequestId)
    requires Inv(s) && k in s.store.balances && i < |s.store.requests|
    ensures NetAt(s, k, s.store.balances[k].lastReconciledVersion)(i) + HeldAt(s.store, k)(i)
              + UnrefundedDays(s.store.requests, s.hcm, k)(i)
         >= WaitingDays(s.store.requests, s.hcm, k)(i) + OrphanHeld(s, k)(i)
  {
    assert Shape(ViewOf(s, i));
    HeldOf(s, i);
  }

  /** HCM's balance covers the promises, the available balance and the orphans still held. */
  lemma BalanceCovers(s: System, k: Key)
    requires Inv(s) && k in s.store.balances
    ensures var n, r := |s.store.requests|, s.store.requests;
      CurrentBalance(s.hcm, k) + SumTo(n, UnrefundedDays(r, s.hcm, k)) + Loss(s.hcm, k, 0)
        >= SumTo(n, WaitingDays(r, s.hcm, k)) + Available(s.store, k) + SumTo(n, OrphanHeld(s, k))
  {
    var n, r, w := |s.store.requests|, s.store.requests, s.store.balances[k].lastReconciledVersion;
    var net, held := NetAt(s, k, w), HeldAt(s.store, k);
    var unrefunded, waiting, orphans := UnrefundedDays(r, s.hcm, k), WaitingDays(r, s.hcm, k), OrphanHeld(s, k);
    MovesPartition(s.hcm, k, w, IsService(), IsForeignMove());
    ServiceMoves(s, k, w);
    LossBounds(s.hcm, k, w);
    AvailableByRequest(s, k);
    var netHeld := (i: nat) => net(i) + held(i);
    var have := (i: nat) => netHeld(i) + unrefunded(i);
    var need := (i: nat) => waiting(i) + orphans(i);
    SumPlus(n, net, held, netHeld);
    SumPlus(n, netHeld, unrefunded, have);
    SumPlus(n, waiting, orphans, need);
    forall i: nat | i < n ensures need(i) <= have(i) { RequestIsCovered(s, k, i); }
    SumBelow(n, need, have);
  }
}
