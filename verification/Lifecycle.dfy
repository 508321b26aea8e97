/** Request statuses over whole runs: how they move, and what the terminal ones leave behind. */
module Lifecycle {
  import opened Domain
  import opened StateMachine
  import opened Protocol
  import opened Views
  import opened StoreSteps
  import opened DeliverySteps
  import opened Invariant
  import opened Accounting

  ghost predicate FollowsTable(from: RequestStatus, to: RequestStatus) {
    to == from || exists action {:trigger NextState(from, action)} :: NextState(from, action) == Some(to)
  }

  lemma SettleFollowsTable(s: System, now: int, i: RequestId)
    requires Inv(s) && i < |s.store.requests|
    ensures i < |Next(s, SettleStep(now)).store.requests|
    ensures var from, to := s.store.requests[i].status, Next(s, SettleStep(now)).store.requests[i].status;
      FollowsTable(from, to) && (from.Cancelled? ==> to.Cancelled?)
  {
    if Settleable(s) { SettleIsSettled(s, now); } else { assert Next(s, SettleStep(now)) == s; }
  }

  lemma SubmitFollowsTable(s: System, key: Key, i: RequestId)
    requires Inv(s) && i < |s.store.requests|
    ensures i < |Next(s, SubmitEnd(key)).store.requests|
    ensures var from, to := s.store.requests[i].status, Next(s, SubmitEnd(key)).store.requests[i].status;
      if Revives(s, SubmitEnd(key), i) then to.PendingApproval? && (from.Draft? || from.Cancelled?) else to == from
  {
    if key in s.sessions { assert SessionOk(s.store, key, s.sessions[key].copy); }
  }

  /**
   * Every status moves along the transition table but for one case: a submit that read a draft
   * saves it as submitted although it was cancelled meanwhile. A cancelled request leaves its state
   * exactly then.
   */
  lemma StatusFollowsTable(s: System, step: Step, i: RequestId)
    requires Inv(s) && i < |s.store.requests|
    ensures i < |Next(s, step).store.requests|
    ensures var from, to := s.store.requests[i].status, Next(s, step).store.requests[i].status;
      && (FollowsTable(from, to) || (from.Cancelled? && to.PendingApproval? && Revives(s, step, i)))
      && (from.Cancelled? ==> (!to.Cancelled? <==> Revives(s, step, i)))
  {
    match step
    case SettleStep(now) => SettleFollowsTable(s, now, i);
    case SubmitEnd(key) =>
      SubmitFollowsTable(s, key, i);
      assert NextState(Draft, Submit) == Some(PendingApproval);
    case ApproveStep(_) => assert NextState(PendingApproval, Approve) == Some(Approved);
    case RejectStep(_) => assert NextState(PendingApproval, Reject) == Some(Rejected);
    case CancelStep(id) =>
      if i == id { assert FollowsTable(s.store.requests[i].status, Next(s, step).store.requests[i].status); }
    case CreateStep(_, _) =>
    case _ => RequestsUntouched(s, step);
  }

  // ---- Terminal states -----------------------------------------------------

  lemma TerminalHoldIsReleased(v: View, p: nat)
    requires Shape(v) && p < |v.rows| && v.rows[p].phase.Reserve?
    requires v.r.status.Rejected? || v.r.status.Cancelled? || v.r.status.Failed?
    ensures v.rows[p].state.Released?
  {
  }

  /** Terminal states hold no reservation: in every run the holds of such a request are released. */
  lemma TerminalHoldsNoReservation(steps: seq<Step>, j: nat)
    requires j < |Run(INITIAL, steps).store.ledger|
    ensures var s := Run(INITIAL, steps);
      var row := s.store.ledger[j];
      && row.requestId < |s.store.requests|
      && (IsTerminal(s.store.requests[row.requestId].status) && row.phase.Reserve? ==> row.state.Released?)
  {
    EveryRunAgrees(steps);
    var s := Run(INITIAL, steps);
    var row := s.store.ledger[j];
    var p := RowInView(s, j);
    TerminalStates(s.store.requests[row.requestId].status);
    if IsTerminal(s.store.requests[row.requestId].status) && row.phase.Reserve? {
      TerminalHoldIsReleased(ViewOf(s, row.requestId), p);
    }
  }

  /** A cancelled request whose debit was acknowledged after the cancel, and is still subtracted. */
  ghost predicate HoldsAsOrphan(v: View) {
    && v.r.status.Cancelled? && |v.msgs| == 1 && v.msgs[0].status.Done?
    && |v.rows| == 2 && v.rows[1].phase.Commit? && v.rows[1].state.Active?
  }

  lemma TerminalHolder(v: View)
    requires Shape(v) && IsTerminal(v.r.status)
    ensures HasActive(v) <==> HoldsAsOrphan(v)
  {
    TerminalStates(v.r.status);
  }

  /** A request in a terminal state still holds days back exactly when it is such an orphan. */
  lemma TerminalHoldsDaysExactly(steps: seq<Step>, i: RequestId)
    requires i < |Run(INITIAL, steps).store.requests| && IsTerminal(Run(INITIAL, steps).store.requests[i].status)
    ensures var s := Run(INITIAL, steps);
      && (HeldDays(s.store, i) > 0 <==> HoldsAsOrphan(ViewOf(s, i)))
      && (HeldDays(s.store, i) > 0 ==> HeldDays(s.store, i) == s.store.requests[i].days)
  {
    EveryRunAgrees(steps);
    var s := Run(INITIAL, steps);
    assert Shape(ViewOf(s, i));
    HeldOf(s, i);
    TerminalHolder(ViewOf(s, i));
  }
}
