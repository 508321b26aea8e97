/** The arithmetic of an available balance. It is derived, never stored and never clamped. */
module BalanceMath {
  datatype BalanceComponents = BalanceComponents(hcmBalance: int, reservedOpen: int, committedPending: int)

  function ComputeAvailable(c: BalanceComponents): int {
    var BalanceComponents(hcmBalance, reservedOpen, committedPending) := c;
    hcmBalance - reservedOpen - committedPending
  }

  predicate CanReserve(c: BalanceComponents, days: int) {
    0 < days <= ComputeAvailable(c)
  }

  predicate IsOverAllocated(c: BalanceComponents) {
    ComputeAvailable(c) < 0
  }

  /** A reservation is granted exactly when it is positive and placing it does not over-allocate. */
  lemma GrantedExactlyWhenNotOverAllocating(c: BalanceComponents, days: int)
    ensures CanReserve(c, days) <==> days > 0 && !IsOverAllocated(c.(reservedOpen := c.reservedOpen + days))
  {
  }
}
