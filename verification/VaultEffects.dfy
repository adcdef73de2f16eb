/** When the vault's calls go through and what they change, and who can move a holder's shares. */
module VaultEffects {
  import opened Numbers
  import opened Ledger
  import opened AmmPool
  import opened PriceOracle
  import opened Lending
  import opened LendingEffects
  import opened LendVault
  import opened VaultRuns

  // ---------------------------------------------------------------- the share ledger

  /** `spender` may move that many of the owner's shares. */
  predicate Allowed(v: Vault, owner: Address, spender: Address, shares: nat) {
    var allowance := Get(v.allowance, (owner, spender));
    allowance == MAX_UINT || shares <= allowance
  }

  /** The allowance falls by exactly the shares moved, unless it is the largest integer; no other allowance changes. */
  ghost predicate UsedUp(v: Vault, v': Vault, owner: Address, spender: Address, shares: nat) {
    && (forall k :: k != (owner, spender) ==> Get(v'.allowance, k) == Get(v.allowance, k))
    && var allowance := Get(v.allowance, (owner, spender));
       Get(v'.allowance, (owner, spender)) == if allowance == MAX_UINT then MAX_UINT else allowance - shares
  }

  ghost predicate SameAllowances(v: Vault, v': Vault) {
    forall k :: Get(v'.allowance, k) == Get(v.allowance, k)
  }

  /** u's shares and the supply change by d; nobody else's shares do. */
  ghost predicate SharesMove(v: Vault, v': Vault, u: Address, d: int) {
    && Get(v'.balance, u) == Get(v.balance, u) + d && v'.supply == v.supply + d
    && forall w :: w != u ==> Get(v'.balance, w) == Get(v.balance, w)
  }

  /** Shares move from one holder to another; nobody else's do, and none are made or lost. */
  ghost predicate SharesPass(v: Vault, v': Vault, from: Address, to: Address, shares: nat) {
    && v'.supply == v.supply && shares <= Get(v.balance, from)
    && Get(v'.balance, from) == (if from == to then Get(v.balance, from) else Get(v.balance, from) - shares)
    && (from != to ==> Get(v'.balance, to) == Get(v.balance, to) + shares)
    && forall w :: w != from && w != to ==> Get(v'.balance, w) == Get(v.balance, w)
  }

  lemma SpendMeans(v: Vault, owner: Address, spender: Address, shares: nat)
    ensures Spend(v, owner, spender, shares).Some? <==> Allowed(v, owner, spender, shares)
    ensures
      Spend(v, owner, spender, shares).Some? ==>
        var v' := Spend(v, owner, spender, shares).value;
        UsedUp(v, v', owner, spender, shares) && v'.balance == v.balance && v'.supply == v.supply
  {
  }

  /** `transfer`: never to the vault or the empty address, and never more than the holder has. */
  lemma MoveMeans(v: Vault, self: Address, from: Address, to: Address, shares: nat)
    ensures LendVault.Move(v, self, from, to, shares).Some? <==>
            to != self && to != 0 && shares <= Get(v.balance, from)
    ensures
      LendVault.Move(v, self, from, to, shares).Some? ==>
        var v' := LendVault.Move(v, self, from, to, shares).value;
        SharesPass(v, v', from, to, shares) && v'.allowance == v.allowance
  {
  }

  /** `transferFrom`: the same, within the allowance, which is used up by exactly the shares that moved. */
  lemma TransferFromMeans(q: Params, self: Address, e: Estate, spender: Address, from: Address, to: Address,
                          shares: nat)
    requires q.Valid() && e.market.rate.time <= e.market.now
    ensures
      var done := Apply(q, self, e, TransferFrom(spender, from, to, shares));
      && (done.Some? <==>
            && Allowed(e.vault, from, spender, shares) && to != self && to != 0
            && shares <= Get(e.vault.balance, from))
      && (done.Some? ==>
            && done.value.market == e.market && UsedUp(e.vault, done.value.vault, from, spender, shares)
            && SharesPass(e.vault, done.value.vault, from, to, shares))
  {
    SpendMeans(e.vault, from, spender, shares);
    if Spend(e.vault, from, spender, shares).Some? {
      MoveMeans(Spend(e.vault, from, spender, shares).value, self, from, to, shares);
    }
  }

  /** `approve`: the allowance of one spender becomes what the owner says, and nothing else changes. */
  lemma ApproveMeans(q: Params, self: Address, e: Estate, owner: Address, spender: Address, shares: nat)
    requires q.Valid() && e.market.rate.time <= e.market.now
    ensures
      var done := Apply(q, self, e, Approve(owner, spender, shares));
      && done.Some? && done.value.market == e.market
      && done.value.vault.balance == e.vault.balance && done.value.vault.supply == e.vault.supply
      && Get(done.value.vault.allowance, (owner, spender)) == shares
      && forall k :: k != (owner, spender) ==> Get(done.value.vault.allowance, k) == Get(e.vault.allowance, k)
  {
  }

  // ---------------------------------------------------------------- calls

  /** The Controller's tokens change by d, the rate is saved, and nothing else in the market changes. */
  ghost predicate MoneyMoves(c: Market, c': Market, d: int, policy: nat)
    requires c.rate.time <= c.now
  {
    && c.book.funds + d >= 0 && c'.book == c.book.(funds := c.book.funds + d) && c'.pool == c.pool
    && RateSaved(c, c', policy)
  }

  /** The most shares that the assets pay for. */
  ghost predicate MostShares(e: Estate, q: Params, shares: nat, assets: nat)
    requires q.Valid() && e.market.rate.time <= e.market.now
  {
    forall k: nat :: k <= shares <==> PaidEnough(e.vault.supply, TotalAssets(e.market), k, assets, q.bPrec)
  }

  /** The fewest assets that pay for the shares. */
  ghost predicate FewestAssets(e: Estate, q: Params, shares: nat, assets: nat)
    requires q.Valid() && e.market.rate.time <= e.market.now
  {
    forall k: nat :: assets <= k <==> PaidEnough(e.vault.supply, TotalAssets(e.market), shares, k, q.bPrec)
  }

  /** The fewest shares that are worth the assets. */
  ghost predicate FewestShares(e: Estate, q: Params, shares: nat, assets: nat)
    requires q.Valid() && e.market.rate.time <= e.market.now
  {
    forall k: nat :: shares <= k <==> TookNoMore(e.vault.supply, TotalAssets(e.market), k, assets, q.bPrec)
  }

  /** The most assets that the shares are worth. */
  ghost predicate MostAssets(e: Estate, q: Params, shares: nat, assets: nat)
    requires q.Valid() && e.market.rate.time <= e.market.now
  {
    forall k: nat :: k <= assets <==> TookNoMore(e.vault.supply, TotalAssets(e.market), shares, k, q.bPrec)
  }

  lemma FundMoves(c: Market, assets: nat, policy: nat)
    requires c.rate.time <= c.now
    ensures MoneyMoves(c, Fund(c, assets, policy), assets, policy)
    ensures assets <= c.book.funds ==> MoneyMoves(c, Defund(c, assets, policy), 0 - assets, policy)
  {
    hide RateMul;
  }

  /** `deposit`: refused only under the minimum; the receiver gets the most shares that the assets pay for. */
  lemma DepositMeans(q: Params, e: Estate, assets: nat, receiver: Address, policy: nat)
    requires q.Valid() && e.market.rate.time <= e.market.now
    ensures LendVault.Deposit(q, e, assets, receiver, policy).Some? <==> TotalAssets(e.market) + assets >= MIN_ASSETS
    ensures
      LendVault.Deposit(q, e, assets, receiver, policy).Some? ==>
        var d := LendVault.Deposit(q, e, assets, receiver, policy).value;
        && MostShares(e, q, d.amount, assets) && MoneyMoves(e.market, d.estate.market, assets, policy)
        && SharesMove(e.vault, d.estate.vault, receiver, d.amount) && SameAllowances(e.vault, d.estate.vault)
  {
    hide TotalAssets, ToShares, Fund, MoneyMoves, PaidEnough;
    var shares := ToShares(e.vault.supply, TotalAssets(e.market), assets, q.bPrec, true);
    forall k: nat ensures k <= shares <==> PaidEnough(e.vault.supply, TotalAssets(e.market), k, assets, q.bPrec) {
      RoundingFavoursVault(e.vault.supply, TotalAssets(e.market), assets, k, q.bPrec);
    }
    FundMoves(e.market, assets, policy);
  }

  /** `mint`: the fewest assets that pay for the shares are charged. */
  lemma MintMeans(q: Params, e: Estate, shares: nat, receiver: Address, policy: nat)
    requires q.Valid() && e.market.rate.time <= e.market.now
    ensures
      var assets := ToAssets(e.vault.supply, TotalAssets(e.market), shares, q.bPrec, false);
      && FewestAssets(e, q, shares, assets)
      && (Mint(q, e, shares, receiver, policy).Some? <==> TotalAssets(e.market) + assets >= MIN_ASSETS)
      && (Mint(q, e, shares, receiver, policy).Some? ==>
            var d := Mint(q, e, shares, receiver, policy).value;
            && d.amount == assets && MoneyMoves(e.market, d.estate.market, assets, policy)
            && SharesMove(e.vault, d.estate.vault, receiver, shares) && SameAllowances(e.vault, d.estate.vault))
  {
    hide TotalAssets, ToAssets, Fund, MoneyMoves, PaidEnough;
    var assets := ToAssets(e.vault.supply, TotalAssets(e.market), shares, q.bPrec, false);
    forall k: nat ensures assets <= k <==> PaidEnough(e.vault.supply, TotalAssets(e.market), shares, k, q.bPrec) {
      RoundingFavoursVault(e.vault.supply, TotalAssets(e.market), shares, k, q.bPrec);
    }
    FundMoves(e.market, assets, policy);
  }

  /** Somebody else than the owner needs, and uses up, an allowance. */
  predicate MayBurn(v: Vault, owner: Address, sender: Address, shares: nat) {
    (owner == sender || Allowed(v, owner, sender, shares)) && shares <= Get(v.balance, owner)
  }

  ghost predicate Burned(v: Vault, v': Vault, owner: Address, sender: Address, shares: nat) {
    && SharesMove(v, v', owner, 0 - shares)
    && if owner == sender then SameAllowances(v, v') else UsedUp(v, v', owner, sender, shares)
  }

  lemma PayOutMeans(e: Estate, owner: Address, sender: Address, shares: nat, assets: nat, policy: nat)
    requires e.market.rate.time <= e.market.now && Sum(e.vault.balance) == e.vault.supply
    ensures PayOut(e, owner, sender, shares, assets, policy).Some? <==>
            MayBurn(e.vault, owner, sender, shares) && assets <= e.market.book.funds
    ensures
      PayOut(e, owner, sender, shares, assets, policy).Some? ==>
        var e' := PayOut(e, owner, sender, shares, assets, policy).value;
        Burned(e.vault, e'.vault, owner, sender, shares) && MoneyMoves(e.market, e'.market, 0 - assets, policy)
  {
    hide MoneyMoves, Defund, Sum;
    SpendMeans(e.vault, owner, sender, shares);
    if SpendIfOther(e.vault, owner, sender, shares).Some? {
      BurnKeepsSum(SpendIfOther(e.vault, owner, sender, shares).value, owner, shares);
    }
    if assets <= e.market.book.funds {
      FundMoves(e.market, assets, policy);
    }
  }

  /**
   * `withdraw`: for the owner or within an allowance, of assets that the Controller has, leaving none or the minimum;
   * the fewest shares that are worth the assets are burned.
   */
  lemma WithdrawMeans(q: Params, e: Estate, assets: nat, sender: Address, owner: Address, policy: nat)
    requires q.Valid() && e.market.rate.time <= e.market.now && Sum(e.vault.balance) == e.vault.supply
    ensures
      var total, done := TotalAssets(e.market), LendVault.Withdraw(q, e, assets, sender, owner, policy);
      var shares := ToShares(e.vault.supply, total, assets, q.bPrec, false);
      && FewestShares(e, q, shares, assets)
      && (done.Some? <==>
            && (assets == total || assets + MIN_ASSETS <= total)
            && MayBurn(e.vault, owner, sender, shares) && assets <= e.market.book.funds)
      && (done.Some? ==>
            && done.value.amount == shares && Burned(e.vault, done.value.estate.vault, owner, sender, shares)
            && MoneyMoves(e.market, done.value.estate.market, 0 - assets, policy))
  {
    hide TotalAssets, ToShares, PayOut, MoneyMoves, Burned, MayBurn, TookNoMore, Sum;
    var shares := ToShares(e.vault.supply, TotalAssets(e.market), assets, q.bPrec, false);
    forall k: nat ensures shares <= k <==> TookNoMore(e.vault.supply, TotalAssets(e.market), k, assets, q.bPrec) {
      RoundingFavoursVault(e.vault.supply, TotalAssets(e.market), assets, k, q.bPrec);
    }
    PayOutMeans(e, owner, sender, shares, assets, policy);
  }

  /**
   * `redeem`: pays the most assets that the shares are worth, and for the last shares all assets when less than the
   * minimum would stay.
   */
  lemma RedeemMeans(q: Params, e: Estate, shares: nat, sender: Address, owner: Address, policy: nat)
    requires q.Valid() && e.market.rate.time <= e.market.now && Sum(e.vault.balance) == e.vault.supply
    ensures
      var total, done := TotalAssets(e.market), Redeem(q, e, shares, sender, owner, policy);
      var most := ToAssets(e.vault.supply, total, shares, q.bPrec, true);
      var last := shares == e.vault.supply;
      var assets := if last && total < most + MIN_ASSETS then total else most;
      && MostAssets(e, q, shares, most)
      && (done.Some? <==>
            && (most + MIN_ASSETS <= total || (last && most <= total))
            && MayBurn(e.vault, owner, sender, shares) && assets <= e.market.book.funds)
      && (done.Some? ==>
            && done.value.amount == assets && Burned(e.vault, done.value.estate.vault, owner, sender, shares)
            && MoneyMoves(e.market, done.value.estate.market, 0 - assets, policy))
  {
    hide TotalAssets, ToAssets, PayOut, MoneyMoves, Burned, MayBurn, TookNoMore, Sum;
    var total := TotalAssets(e.market);
    var most := ToAssets(e.vault.supply, total, shares, q.bPrec, true);
    forall k: nat ensures k <= most <==> TookNoMore(e.vault.supply, total, shares, k, q.bPrec) {
      RoundingFavoursVault(e.vault.supply, total, shares, k, q.bPrec);
    }
    PayOutMeans(e, owner, sender, shares, if Sweeps(q, e, shares) then total else most, policy);
  }

  // ---------------------------------------------------------------- a holder's shares over a history

  /** u makes the call. */
  predicate CalledBy(s: Step, u: Address) {
    match s
    case WithdrawAssets(_, sender, _, _) => sender == u
    case RedeemShares(_, sender, _, _) => sender == u
    case Transfer(from, _, _) => from == u
    case TransferFrom(spender, _, _, _) => spender == u
    case Approve(owner, _, _) => owner == u
    case _ => false
  }

  /** What u allows each spender. */
  ghost function AllowedBy(v: Vault, u: Address): map<Address, nat> {
    map k | k in v.allowance && k.0 == u :: k.1 := v.allowance[k]
  }

  /** u has no unlimited allowance outstanding. */
  ghost predicate Limited(v: Vault, u: Address) {
    forall w :: Get(v.allowance, (u, w)) < MAX_UINT
  }

  lemma AllowedByAt(v: Vault, u: Address, w: Address)
    ensures Get(AllowedBy(v, u), w) == Get(v.allowance, (u, w))
  {
    assert w in AllowedBy(v, u) <==> (u, w) in v.allowance;
  }

  /** What is left of u's shares and of what u allows others to move, one against the other. */
  ghost function Guarded(v: Vault, u: Address): int {
    Get(v.balance, u) - Sum(AllowedBy(v, u))
  }

  lemma AllowancesSame(v: Vault, v': Vault, u: Address)
    requires forall w :: Get(v'.allowance, (u, w)) == Get(v.allowance, (u, w))
    ensures Sum(AllowedBy(v', u)) == Sum(AllowedBy(v, u)) && (Limited(v, u) ==> Limited(v', u))
  {
    hide Sum;
    forall w ensures Get(AllowedBy(v', u), w) == Get(AllowedBy(v, u), w) {
      AllowedByAt(v, u, w);
      AllowedByAt(v', u, w);
    }
    SumSame(AllowedBy(v', u), AllowedBy(v, u));
  }

  lemma AllowanceUsed(v: Vault, v': Vault, u: Address, spender: Address, shares: nat)
    requires Limited(v, u) && Allowed(v, u, spender, shares) && UsedUp(v, v', u, spender, shares)
    ensures Sum(AllowedBy(v', u)) + shares == Sum(AllowedBy(v, u)) && Limited(v', u)
  {
    hide Sum;
    var left := Get(v.allowance, (u, spender)) - shares;
    forall w ensures Get(AllowedBy(v', u), w) == Get(AllowedBy(v, u)[spender := left], w) {
      AllowedByAt(v, u, w);
      AllowedByAt(v', u, w);
    }
    SumSame(AllowedBy(v', u), AllowedBy(v, u)[spender := left]);
    SumPut(AllowedBy(v, u), spender, left);
    AllowedByAt(v, u, spender);
  }

  /** A burn of the owner's shares by the sender, seen by u, who is not the sender. */
  lemma BurnGuards(v: Vault, v': Vault, owner: Address, sender: Address, shares: nat, u: Address)
    requires Limited(v, u) && sender != u && MayBurn(v, owner, sender, shares) && Burned(v, v', owner, sender, shares)
    ensures Guarded(v, u) <= Guarded(v', u) && Limited(v', u)
  {
    hide Sum, AllowedBy, Limited;
    if owner == u {
      AllowanceUsed(v, v', u, sender, shares);
    } else {
      AllowancesSame(v, v', u);
    }
  }

  lemma PassGuards(v: Vault, v': Vault, from: Address, to: Address, shares: nat, spender: Address, u: Address)
    requires Limited(v, u) && spender != u && SharesPass(v, v', from, to, shares)
    requires Allowed(v, from, spender, shares) && UsedUp(v, v', from, spender, shares)
    ensures Guarded(v, u) <= Guarded(v', u) && Limited(v', u)
  {
    hide Sum, AllowedBy, Limited;
    if from == u {
      AllowanceUsed(v, v', u, spender, shares);
    } else {
      AllowancesSame(v, v', u);
    }
  }

  lemma SameAllowancesGuard(v: Vault, v': Vault, u: Address)
    requires Limited(v, u) && forall w :: Get(v'.allowance, (u, w)) == Get(v.allowance, (u, w))
    requires Get(v.balance, u) <= Get(v'.balance, u)
    ensures Guarded(v, u) <= Guarded(v', u) && Limited(v', u)
  {
    hide Sum, AllowedBy, Limited;
    AllowancesSame(v, v', u);
  }

  lemma StepGuards(q: Params, self: Address, e: Estate, s: Step, e': Estate, u: Address)
    requires q.Valid() && EstateInv(q, e) && ValidStep(s) && Apply(q, self, e, s) == Some(e')
    requires !CalledBy(s, u) && Limited(e.vault, u)
    ensures Guarded(e.vault, u) <= Guarded(e'.vault, u) && Limited(e'.vault, u)
  {
    assert e.market.rate.time <= e.market.now;
    hide MarketInv, RateMul, Runs.Call, TotalAssets, ToShares, ToAssets, MoneyMoves, Guarded, Limited, AllowedBy, Sum;
    match s
    case Loan(a) => SameAllowancesGuard(e.vault, e'.vault, u);
    case DepositAssets(assets, receiver, policy) =>
      DepositMeans(q, e, assets, receiver, policy);
      SameAllowancesGuard(e.vault, e'.vault, u);
    case MintShares(shares, receiver, policy) =>
      MintMeans(q, e, shares, receiver, policy);
      SameAllowancesGuard(e.vault, e'.vault, u);
    case WithdrawAssets(assets, sender, owner, policy) =>
      WithdrawMeans(q, e, assets, sender, owner, policy);
      BurnGuards(e.vault, e'.vault, owner, sender,
                 ToShares(e.vault.supply, TotalAssets(e.market), assets, q.bPrec, false), u);
    case RedeemShares(shares, sender, owner, policy) =>
      RedeemMeans(q, e, shares, sender, owner, policy);
      BurnGuards(e.vault, e'.vault, owner, sender, shares, u);
    case Transfer(from, to, shares) =>
      MoveMeans(e.vault, self, from, to, shares);
      SameAllowancesGuard(e.vault, e'.vault, u);
    case TransferFrom(spender, from, to, shares) =>
      TransferFromMeans(q, self, e, spender, from, to, shares);
      PassGuards(e.vault, e'.vault, from, to, shares, spender, u);
    case Approve(owner, spender, shares) => SameAllowancesGuard(e.vault, e'.vault, u);
  }

  lemma AfterGuards(q: Params, self: Address, e: Estate, s: Step, u: Address)
    requires q.Valid() && EstateInv(q, e) && ValidStep(s) && !CalledBy(s, u) && Limited(e.vault, u)
    ensures EstateInv(q, After(q, self, e, s)) && Limited(After(q, self, e, s).vault, u)
    ensures Guarded(e.vault, u) <= Guarded(After(q, self, e, s).vault, u)
  {
    assert e.market.rate.time <= e.market.now;
    hide MarketInv, RateMul, Apply, Limited, Guarded, Sum;
    var done := Apply(q, self, e, s);
    if done.Some? {
      ApplyKeepsInv(q, self, e, s, done.value);
      StepGuards(q, self, e, s, done.value, u);
    }
  }

  /**
   * Over any history in which u calls nothing, u's shares fall by no more than what is used up of the allowances that u
   * had given; without any, they never fall.
   */
  lemma {:induction false} RunGuards(q: Params, self: Address, e: Estate, steps: seq<Step>, u: Address)
    requires q.Valid() && EstateInv(q, e) && ValidSteps(steps) && Limited(e.vault, u)
    requires forall i :: 0 <= i < |steps| ==> !CalledBy(steps[i], u)
    ensures EstateInv(q, Run(q, self, e, steps)) && Limited(Run(q, self, e, steps).vault, u)
    ensures
      var v, v' := e.vault, Run(q, self, e, steps).vault;
      Get(v.balance, u) - Get(v'.balance, u) <= Sum(AllowedBy(v, u)) - Sum(AllowedBy(v', u))
    decreases |steps|
  {
    assert e.market.rate.time <= e.market.now;
    hide MarketInv, RateMul, After, Limited, AllowedBy, Sum;
    if steps != [] {
      var k := |steps| - 1;
      RunGuards(q, self, e, steps[..k], u);
      AfterGuards(q, self, Run(q, self, e, steps[..k]), steps[k], u);
    }
  }

  /** A holder who allows nobody anything loses no shares while calling nothing. */
  lemma NobodyElseMovesShares(q: Params, self: Address, e: Estate, steps: seq<Step>, u: Address)
    requires q.Valid() && EstateInv(q, e) && ValidSteps(steps)
    requires forall w :: Get(e.vault.allowance, (u, w)) == 0
    requires forall i :: 0 <= i < |steps| ==> !CalledBy(steps[i], u)
    ensures Get(e.vault.balance, u) <= Get(Run(q, self, e, steps).vault.balance, u)
  {
    assert e.market.rate.time <= e.market.now;
    hide MarketInv, RateMul, Run;
    forall w | w in AllowedBy(e.vault, u) ensures AllowedBy(e.vault, u)[w] == 0 {
      AllowedByAt(e.vault, u, w);
    }
    SumZero(AllowedBy(e.vault, u));
    RunGuards(q, self, e, steps, u);
  }
}
