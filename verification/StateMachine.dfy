/** The lifecycle table every transaction consults. */
module StateMachine {
  import opened Domain

  /** The next state, or None when the action is illegal. */
  function NextState(from: RequestStatus, action: RequestAction): Option<RequestStatus> {
    match (from, action)
    case (Draft, Submit) => Some(PendingApproval)
    case (Draft, Cancel) => Some(Cancelled)
    case (PendingApproval, Approve) => Some(Approved)
    case (PendingApproval, Reject) => Some(Rejected)
    case (PendingApproval, Cancel) => Some(Cancelled)
    case (Approved, HcmCommitted) => Some(Committed)
    case (Approved, HcmRejected) => Some(Failed)
    case (Approved, Cancel) => Some(Cancelled)
    case (Committed, Cancel) => Some(CancellationPending)
    case (CancellationPending, HcmCreditDone) => Some(Cancelled)
    case _ => None
  }

  predicate CanTransition(from: RequestStatus, action: RequestAction) {
    NextState(from, action).Some?
  }

  /** A state without outgoing transitions. */
  ghost predicate IsTerminal(state: RequestStatus) {
    forall a :: NextState(state, a).None?
  }

  /** States whose days the employee has taken or is about to take. */
  predicate IsLive(s: RequestStatus) {
    s.PendingApproval? || s.Approved? || s.Committed? || s.CancellationPending?
  }

  function Stage(s: RequestStatus): nat {
    match s
    case Draft => 0
    case PendingApproval => 1
    case Approved => 2
    case Committed => 3
    case CancellationPending => 4
    case _ => 5
  }

  /** The states a request passes through under a list of actions, illegal ones being refused. */
  function Drive(from: RequestStatus, actions: seq<RequestAction>): RequestStatus {
    if actions == [] then from
    else
      var s := Drive(from, actions[..|actions| - 1]);
      NextState(s, actions[|actions| - 1]).GetOr(s)
  }

  /** How many of the actions were accepted. */
  function Accepted(from: RequestStatus, actions: seq<RequestAction>): nat {
    if actions == [] then 0
    else
      var front := actions[..|actions| - 1];
      Accepted(from, front) + (if CanTransition(Drive(from, front), actions[|actions| - 1]) then 1 else 0)
  }

  /** The graph has no cycle: no request makes more than five transitions, whatever is asked of it. */
  lemma {:induction false} LifecycleIsBounded(from: RequestStatus, actions: seq<RequestAction>)
    ensures Stage(from) + Accepted(from, actions) <= Stage(Drive(from, actions)) <= 5
  {
    if actions == [] {
    } else {
      LifecycleIsBounded(from, actions[..|actions| - 1]);
    }
  }

  lemma TerminalStates(s: RequestStatus)
    ensures IsTerminal(s) <==> s.Rejected? || s.Cancelled? || s.Failed?
  {
    assert NextState(Draft, Cancel).Some? && NextState(PendingApproval, Cancel).Some?;
    assert NextState(Approved, Cancel).Some? && NextState(Committed, Cancel).Some?;
    assert NextState(CancellationPending, HcmCreditDone).Some?;
  }
}
