/** Whole histories of an AMM: any sequence of calls, reverted ones included. */
module PoolRuns {
  import opened Numbers
  import opened AmmPool
  import opened PoolInvariant
  import opened PoolWithdraw
  import opened PoolExchange

  datatype Action =
    | DepositRange(user: Address, amount: nat, n1: int, n2: int)
    | WithdrawFraction(user: Address, frac: nat)
    | Swap(rates: FeeRates, order: Order)
    | CollectFees

  /** The Controller never sets an admin fee above one. */
  ghost predicate ValidAction(a: Action) {
    a.Swap? ==> a.rates.admin <= WAD
  }

  /** The state after a call; a call that reverts changes nothing. */
  function Apply(q: Params, p: Pool, a: Action): Pool
    requires q.Valid() && ValidAction(a)
  {
    match a
    case DepositRange(user, amount, n1, n2) =>
      (match Deposit(q, p, user, amount, n1, n2) case Some(p') => p' case None => p)
    case WithdrawFraction(user, frac) => (match Withdraw(q, p, user, frac) case Some(r) => r.pool case None => p)
    case Swap(rates, order) => (match Exchange(q, p, rates, order) case Some(e) => e.pool case None => p)
    case CollectFees => (match TakeFees(p) case Some(p') => p' case None => p)
  }

  function Run(q: Params, p: Pool, actions: seq<Action>): Pool
    requires q.Valid() && forall i :: 0 <= i < |actions| ==> ValidAction(actions[i])
  {
    if actions == [] then p else Apply(q, Run(q, p, actions[..|actions| - 1]), actions[|actions| - 1])
  }

  /** No call breaks the invariant, and no rounding, dust sweep or fee split in it lowers the slack of either coin. */
  lemma ApplyKeepsInv(q: Params, p: Pool, a: Action)
    requires Inv(q, p) && ValidAction(a)
    ensures Inv(q, Apply(q, p, a)) && SlackKept(q, p, Apply(q, p, a))
  {
    match a
    case DepositRange(user, amount, n1, n2) =>
      if Deposit(q, p, user, amount, n1, n2).Some? {
        DepositKeepsInv(q, p, user, amount, n1, n2);
        DepositKeepsSlack(q, p, user, amount, n1, n2);
      }
    case WithdrawFraction(user, frac) =>
      if Withdraw(q, p, user, frac).Some? {
        WithdrawKeepsInv(q, p, user, frac);
        WithdrawKeepsSlack(q, p, user, frac);
      }
    case Swap(rates, order) =>
      if Exchange(q, p, rates, order).Some? {
        ExchangeKeepsInv(q, p, rates, order);
      }
    case CollectFees => TakeFeesKeepsInv(q, p);
  }

  /** From any state that satisfies the invariant, no history lowers the slack of either coin. */
  lemma {:induction false} RunKeepsSlack(q: Params, p: Pool, actions: seq<Action>)
    requires Inv(q, p) && forall i :: 0 <= i < |actions| ==> ValidAction(actions[i])
    ensures Inv(q, Run(q, p, actions)) && SlackKept(q, p, Run(q, p, actions))
  {
    if actions != [] {
      RunKeepsSlack(q, p, actions[..|actions| - 1]);
      ApplyKeepsInv(q, Run(q, p, actions[..|actions| - 1]), actions[|actions| - 1]);
    }
  }

  /**
   * After any history of a new AMM: the coins lie on their sides of the active band, total shares are the sum of what
   * the users' packed entries hold, and the tokens held cover all bands and fees.
   */
  lemma RunKeepsInv(q: Params, actions: seq<Action>)
    requires q.Valid() && forall i :: 0 <= i < |actions| ==> ValidAction(actions[i])
    ensures Inv(q, Run(q, NewPool(), actions))
  {
    hide Inv;
    NewPoolInv(q);
    RunKeepsSlack(q, NewPool(), actions);
  }

  /** No history locks a user out: whoever has liquidity can take all of it, and gets what `get_sum_xy` shows. */
  lemma NobodyIsLockedIn(q: Params, actions: seq<Action>, user: Address)
    requires q.Valid() && forall i :: 0 <= i < |actions| ==> ValidAction(actions[i])
    requires Live(Run(q, NewPool(), actions), user)
    ensures
      var p := Run(q, NewPool(), actions);
      var r := Withdraw(q, p, user, WAD);
      r.Some? && GetSumXY(q, p, user) == (r.value.x, r.value.y) && !Live(r.value.pool, user)
  {
    RunKeepsInv(q, actions);
    SumXYIsWhatWithdrawPays(q, Run(q, NewPool(), actions), user);
  }
}
