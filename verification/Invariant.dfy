/** Every run keeps the invariant. */
module Invariant {
  import opened Protocol
  import opened Views
  import opened StoreSteps
  import opened DeliverySteps

  lemma RunAppend(s: System, steps: seq<Step>, step: Step)
    ensures Run(s, steps + [step]) == Next(Run(s, steps), step)
  {
  }

  /** The run one step longer. */
  lemma Then(s: System, steps: seq<Step>, step: Step) returns (more: seq<Step>)
    ensures Run(s, more) == Next(Run(s, steps), step)
  {
    more := steps + [step];
    RunAppend(s, steps, step);
  }

  lemma InitialInv()
    ensures Inv(INITIAL)
  {
  }

  lemma NextKeeps(s: System, step: Step)
    requires Inv(s)
    ensures Inv(Next(s, step))
  {
    match step
    case CreateStep(key, days) => CreateKeeps(s, key, days);
    case LoadStep(key, version) => LoadKeeps(s, key, version);
    case SubmitBegin(id) => SubmitBeginKeeps(s, id);
    case SubmitEnd(key) => SubmitEndKeeps(s, key);
    case ApproveStep(id) => ApproveKeeps(s, id);
    case RejectStep(id) => RejectKeeps(s, id);
    case CancelStep(id) => CancelKeeps(s, id);
    case ClaimStep(now) => ClaimKeeps(s, now);
    case ExchangeStep(wire) => ExchangeKeeps(s, wire);
    case SettleStep(now) => SettleKeeps(s, now);
    case CrashStep => CrashKeeps(s);
    case ReconcileStep(key, version) => ReconcileKeeps(s, key, version);
    case HcmStep(call) => HcmKeeps(s, call);
  }

  lemma {:induction false} RunKeeps(s: System, steps: seq<Step>)
    requires Inv(s)
    ensures Inv(Run(s, steps))
  {
    if steps == [] {
    } else {
      RunKeeps(s, steps[..|steps| - 1]);
      NextKeeps(Run(s, steps[..|steps| - 1]), steps[|steps| - 1]);
    }
  }

  /** Whatever is done in whatever order, status, ledger, outbox, cache and HCM agree. */
  lemma EveryRunAgrees(steps: seq<Step>)
    ensures Inv(Run(INITIAL, steps))
  {
    InitialInv();
    RunKeeps(INITIAL, steps);
  }
}
