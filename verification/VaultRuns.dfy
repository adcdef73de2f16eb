/** Vault and market together: the share price over any history of deposits, loans, liquidations and time. */
module VaultRuns {
  import opened Numbers
  import opened Ledger
  import opened Debt
  import opened AmmPool
  import opened PoolInvariant
  import opened PriceOracle
  import opened DebtBook
  import opened Lending
  import opened LendVault
  import Runs = LendingRuns

  /** Any call to the vault or to its market; the market's `Supply` is a plain transfer of tokens to the Controller. */
  datatype Step =
    | Loan(a: Runs.Action)
    | DepositAssets(assets: nat, receiver: Address, policy: nat)
    | MintShares(shares: nat, receiver: Address, policy: nat)
    | WithdrawAssets(assets: nat, sender: Address, owner: Address, policy: nat)
    | RedeemShares(shares: nat, sender: Address, owner: Address, policy: nat)
    | Transfer(from: Address, to: Address, shares: nat)
    | TransferFrom(spender: Address, from: Address, to: Address, shares: nat)
    | Approve(owner: Address, spender: Address, shares: nat)

  /** Lending has no fee receiver, so interest is never collected; and only the vault takes funds out of the market. */
  ghost predicate ValidStep(s: Step) {
    s.Loan? ==> Runs.ValidAction(s.a) && !s.a.TakeInterest? && !s.a.Drain?
  }

  function Called(d: Option<Done>): Option<Estate> {
    match d
    case None => None
    case Some(done) => Some(done.estate)
  }

  /** `self` is the vault's own address. */
  function Apply(q: Params, self: Address, e: Estate, s: Step): Option<Estate>
    requires q.Valid() && e.market.rate.time <= e.market.now && ValidStep(s)
  {
    match s
    case Loan(a) => (match Runs.Call(q, e.market, a) case None => None case Some(c) => Some(e.(market := c)))
    case DepositAssets(assets, receiver, policy) => Called(LendVault.Deposit(q, e, assets, receiver, policy))
    case MintShares(shares, receiver, policy) => Called(Mint(q, e, shares, receiver, policy))
    case WithdrawAssets(assets, sender, owner, policy) =>
      Called(LendVault.Withdraw(q, e, assets, sender, owner, policy))
    case RedeemShares(shares, sender, owner, policy) => Called(Redeem(q, e, shares, sender, owner, policy))
    case Transfer(from, to, shares) =>
      (match LendVault.Move(e.vault, self, from, to, shares) case None => None case Some(v) => Some(e.(vault := v)))
    case TransferFrom(spender, from, to, shares) =>
      (match Spend(e.vault, from, spender, shares)
       case None => None
       case Some(v) => match LendVault.Move(v, self, from, to, shares) case None => None case Some(v') =>
         Some(e.(vault := v')))
    case Approve(owner, spender, shares) =>
      Some(e.(vault := e.vault.(allowance := e.vault.allowance[(owner, spender) := shares])))
  }

  // ---------------------------------------------------------------- invariants

  /** The market's invariants, and the vault's shares are exactly what its holders have. */
  ghost predicate EstateInv(q: Params, e: Estate) {
    MarketInv(q, e.market) && Sum(e.vault.balance) == e.vault.supply
  }

  lemma MoneyKeepsInv(q: Params, c: Market, funds: nat, policy: nat)
    requires q.Valid() && MarketInv(q, c)
    ensures MarketInv(q, Save(c.(book := c.book.(funds := funds)), policy))
  {
    hide Inv, BookInv, RateMul, Live, Owes;
    BookNow(q, c);
    var b' := c.book.(funds := funds);
    Runs.FundsDoNotMatter(c.book, b', Mul(c));
    SavedInv(q, c, c.pool, b', policy);
  }

  lemma MoveKeepsSum(v: Vault, self: Address, from: Address, to: Address, shares: nat, v': Vault)
    requires LendVault.Move(v, self, from, to, shares) == Some(v')
    ensures Sum(v'.balance) == Sum(v.balance) && v'.supply == v.supply
  {
    var debited := v.balance[from := Get(v.balance, from) - shares];
    SumPut(v.balance, from, Get(v.balance, from) - shares);
    SumPut(debited, to, Get(debited, to) + shares);
  }

  lemma BurnKeepsSum(v: Vault, u: Address, shares: nat)
    requires Sum(v.balance) == v.supply
    ensures BurnFrom(v, u, shares).Some? <==> shares <= Get(v.balance, u)
    ensures BurnFrom(v, u, shares).Some? ==> Sum(BurnFrom(v, u, shares).value.balance) == v.supply - shares
  {
    SumAtLeast(v.balance, u);
    if shares <= Get(v.balance, u) {
      SumPut(v.balance, u, Get(v.balance, u) - shares);
    }
  }

  lemma PayOutKeepsInv(q: Params, e: Estate, owner: Address, sender: Address, shares: nat, assets: nat, policy: nat,
                       e': Estate)
    requires q.Valid() && EstateInv(q, e) && PayOut(e, owner, sender, shares, assets, policy) == Some(e')
    ensures EstateInv(q, e')
  {
    hide MarketInv, RateMul;
    MoneyKeepsInv(q, e.market, e.market.book.funds - assets, policy);
    BurnKeepsSum(SpendIfOther(e.vault, owner, sender, shares).value, owner, shares);
  }

  lemma MintKeepsSum(v: Vault, u: Address, shares: nat)
    requires Sum(v.balance) == v.supply
    ensures Sum(MintTo(v, u, shares).balance) == MintTo(v, u, shares).supply
  {
    SumPut(v.balance, u, Get(v.balance, u) + shares);
  }

  lemma ApplyKeepsInv(q: Params, self: Address, e: Estate, s: Step, e': Estate)
    requires q.Valid() && EstateInv(q, e) && ValidStep(s) && Apply(q, self, e, s) == Some(e')
    ensures EstateInv(q, e')
  {
    assert e.market.rate.time <= e.market.now;
    hide MarketInv, RateMul, Runs.Call, PayOut, TotalAssets, ToShares, ToAssets;
    match s
    case Loan(a) => Runs.CallKeepsInv(q, e.market, a, e'.market);
    case DepositAssets(assets, receiver, policy) =>
      MoneyKeepsInv(q, e.market, e.market.book.funds + assets, policy);
      MintKeepsSum(e.vault, receiver, ToShares(e.vault.supply, TotalAssets(e.market), assets, q.bPrec, true));
    case MintShares(shares, receiver, policy) =>
      var assets := ToAssets(e.vault.supply, TotalAssets(e.market), shares, q.bPrec, false);
      MoneyKeepsInv(q, e.market, e.market.book.funds + assets, policy);
      MintKeepsSum(e.vault, receiver, shares);
    case WithdrawAssets(assets, sender, owner, policy) =>
      PayOutKeepsInv(q, e, owner, sender, ToShares(e.vault.supply, TotalAssets(e.market), assets, q.bPrec, false),
                     assets, policy, e');
    case RedeemShares(shares, sender, owner, policy) =>
      PayOutKeepsInv(q, e, owner, sender, shares, Redeem(q, e, shares, sender, owner, policy).value.amount, policy, e');
    case Transfer(from, to, shares) => MoveKeepsSum(e.vault, self, from, to, shares, e'.vault);
    case TransferFrom(spender, from, to, shares) =>
      MoveKeepsSum(Spend(e.vault, from, spender, shares).value, self, from, to, shares, e'.vault);
    case Approve(owner, spender, shares) =>
  }

  // ---------------------------------------------------------------- the price

  /** Money moved by the vault changes total assets by exactly that amount. */
  lemma MoneyIsAssets(c: Market, funds: nat, policy: nat)
    requires c.rate.time <= c.now
    ensures
      var c' := Save(c.(book := c.book.(funds := funds)), policy);
      c'.rate.time <= c'.now && TotalAssets(c') == TotalAssets(c) + funds - c.book.funds
  {
    hide RateMul, TotalAt;
    SetRateIsContinuous(c.rate, Min(policy, MAX_RATE), c.now);
  }

  lemma MoreAssetsRaisePrice(assets: nat, assets': nat, supply: nat, prec: Positive)
    requires assets <= assets'
    ensures Ratio(Worth(assets, prec), Stock(supply, prec)) <= Ratio(Worth(assets', prec), Stock(supply, prec))
  {
    MulMono(assets, assets', prec);
    MulMono(Worth(assets, prec), Worth(assets', prec), Stock(supply, prec));
    RatioOrder(Worth(assets, prec), Stock(supply, prec), Worth(assets', prec), Stock(supply, prec));
  }

  /** No call on the market lowers the assets of its lenders; interest, rounding and donations only raise them. */
  lemma LoansKeepAssets(q: Params, c: Market, a: Runs.Action, c': Market)
    requires q.Valid() && c.rate.time <= c.now && Runs.ValidAction(a) && !a.TakeInterest? && !a.Drain?
    requires Runs.Call(q, c, a) == Some(c')
    ensures c'.rate.time <= c'.now && TotalAssets(c) <= TotalAssets(c')
  {
    hide RateMul, TotalAt, Runs.Call;
    Runs.CallKeepsBooks(q, c, a, c', c.book.funds + c.book.minted - c.book.redeemed);
  }

  lemma PayOutPrice(q: Params, e: Estate, owner: Address, sender: Address, shares: nat, assets: nat, policy: nat,
                    e': Estate)
    requires q.Valid() && e.market.rate.time <= e.market.now
    requires PayOut(e, owner, sender, shares, assets, policy) == Some(e')
    ensures e'.market.rate.time <= e'.market.now && shares <= e.vault.supply && assets <= TotalAssets(e.market)
    ensures TotalAssets(e'.market) == TotalAssets(e.market) - assets && e'.vault.supply == e.vault.supply - shares
    ensures TookNoMore(e.vault.supply, TotalAssets(e.market), shares, assets, q.bPrec) ==> Price(q, e) <= Price(q, e')
  {
    hide RateMul, TotalAt, Worth, Stock, TookNoMore;
    MoneyIsAssets(e.market, e.market.book.funds - assets, policy);
    if TookNoMore(e.vault.supply, TotalAssets(e.market), shares, assets, q.bPrec) {
      ExitKeepsPrice(e.vault.supply, TotalAssets(e.market), shares, assets, q.bPrec);
    }
  }

  lemma EntryPrice(q: Params, e: Estate, receiver: Address, shares: nat, assets: nat, policy: nat)
    requires q.Valid() && e.market.rate.time <= e.market.now
    requires PaidEnough(e.vault.supply, TotalAssets(e.market), shares, assets, q.bPrec)
    ensures
      var e' := Estate(Fund(e.market, assets, policy), MintTo(e.vault, receiver, shares));
      && e'.market.rate.time <= e'.market.now && TotalAssets(e'.market) == TotalAssets(e.market) + assets
      && Price(q, e) <= Price(q, e')
  {
    hide RateMul, TotalAt, Worth, Stock, PaidEnough;
    MoneyIsAssets(e.market, e.market.book.funds + assets, policy);
    EntryKeepsPrice(e.vault.supply, TotalAssets(e.market), shares, assets, q.bPrec);
  }

  /** The only step that may lower the price is the redemption of all shares that sweeps up what is left. */
  ghost predicate Sweep(q: Params, e: Estate, s: Step)
    requires q.Valid() && e.market.rate.time <= e.market.now
  {
    s.RedeemShares? && Sweeps(q, e, s.shares)
  }

  lemma ApplyKeepsPrice(q: Params, self: Address, e: Estate, s: Step, e': Estate)
    requires q.Valid() && e.market.rate.time <= e.market.now && ValidStep(s) && Apply(q, self, e, s) == Some(e')
    ensures e'.market.rate.time <= e'.market.now
    ensures !Sweep(q, e, s) ==> Price(q, e) <= Price(q, e')
  {
    hide RateMul, Runs.Call, PayOut, TotalAssets, ToShares, ToAssets, Ratio, Worth, Stock, PaidEnough, TookNoMore;
    var supply, total, prec := e.vault.supply, TotalAssets(e.market), q.bPrec;
    match s
    case Loan(a) =>
      LoansKeepAssets(q, e.market, a, e'.market);
      MoreAssetsRaisePrice(total, TotalAssets(e'.market), supply, prec);
    case DepositAssets(assets, receiver, policy) =>
      var shares := ToShares(supply, total, assets, prec, true);
      RoundingFavoursVault(supply, total, assets, shares, prec);
      EntryPrice(q, e, receiver, shares, assets, policy);
    case MintShares(shares, receiver, policy) =>
      var assets := ToAssets(supply, total, shares, prec, false);
      RoundingFavoursVault(supply, total, shares, assets, prec);
      EntryPrice(q, e, receiver, shares, assets, policy);
    case WithdrawAssets(assets, sender, owner, policy) =>
      var shares := ToShares(supply, total, assets, prec, false);
      RoundingFavoursVault(supply, total, assets, shares, prec);
      PayOutPrice(q, e, owner, sender, shares, assets, policy, e');
    case RedeemShares(shares, sender, owner, policy) =>
      var assets := Redeem(q, e, shares, sender, owner, policy).value.amount;
      RoundingFavoursVault(supply, total, shares, assets, prec);
      PayOutPrice(q, e, owner, sender, shares, assets, policy, e');
    case Transfer(from, to, shares) =>
    case TransferFrom(spender, from, to, shares) =>
    case Approve(owner, spender, shares) =>
  }

  /** The sweep pays out everything, and keeps the price exactly when a thousandth of the shares covered all assets. */
  lemma SweepPrice(q: Params, self: Address, e: Estate, s: Step, e': Estate)
    requires q.Valid() && e.market.rate.time <= e.market.now && ValidStep(s) && Apply(q, self, e, s) == Some(e')
    requires Sweep(q, e, s)
    ensures e'.market.rate.time <= e'.market.now && TotalAssets(e'.market) == 0 && e'.vault.supply == 0
    ensures Price(q, e) <= Price(q, e') <==> DEAD_SHARES * (TotalAssets(e.market) * q.bPrec) <= e.vault.supply
  {
    hide RateMul, PayOut, TotalAssets, ToAssets, Ratio, Worth, Stock, TookNoMore;
    PayOutPrice(q, e, s.owner, s.sender, s.shares, TotalAssets(e.market), s.policy, e');
    SweepKeepsPrice(e.vault.supply, TotalAssets(e.market), q.bPrec);
  }

  // ---------------------------------------------------------------- histories

  ghost predicate ValidSteps(steps: seq<Step>) {
    forall i :: 0 <= i < |steps| ==> ValidStep(steps[i])
  }

  function After(q: Params, self: Address, e: Estate, s: Step): (r: Estate)
    requires q.Valid() && e.market.rate.time <= e.market.now && ValidStep(s)
    ensures r.market.rate.time <= r.market.now
  {
    hide Apply;
    ghost var done := Apply(q, self, e, s);
    assert done.Some? ==> done.value.market.rate.time <= done.value.market.now by {
      if done.Some? {
        ApplyKeepsPrice(q, self, e, s, done.value);
      }
    }
    match Apply(q, self, e, s)
    case None => e
    case Some(e') => e'
  }

  function Run(q: Params, self: Address, e: Estate, steps: seq<Step>): (r: Estate)
    requires q.Valid() && e.market.rate.time <= e.market.now && ValidSteps(steps)
    ensures r.market.rate.time <= r.market.now
  {
    if steps == [] then e else After(q, self, Run(q, self, e, steps[..|steps| - 1]), steps[|steps| - 1])
  }

  /** Along a history, no redemption sweeps up the last assets. */
  ghost predicate NoSweep(q: Params, self: Address, e: Estate, steps: seq<Step>)
    requires q.Valid() && e.market.rate.time <= e.market.now && ValidSteps(steps)
  {
    steps != [] ==>
      && NoSweep(q, self, e, steps[..|steps| - 1])
      && !Sweep(q, Run(q, self, e, steps[..|steps| - 1]), steps[|steps| - 1])
  }

  /**
   * From any state, over any history of vault calls, loans, repayments, liquidations, trades and time, shares never
   * lose value.
   */
  lemma {:induction false} RunKeepsPrice(q: Params, self: Address, e: Estate, steps: seq<Step>)
    requires q.Valid() && e.market.rate.time <= e.market.now && ValidSteps(steps) && NoSweep(q, self, e, steps)
    ensures Price(q, e) <= Price(q, Run(q, self, e, steps))
  {
    hide RateMul, Apply, Sweep, Price;
    if steps != [] {
      var before, s := Run(q, self, e, steps[..|steps| - 1]), steps[|steps| - 1];
      RunKeepsPrice(q, self, e, steps[..|steps| - 1]);
      var done := Apply(q, self, before, s);
      if done.Some? {
        ApplyKeepsPrice(q, self, before, s, done.value);
      }
    }
  }

  const NO_VAULT := Vault(0, map[], map[])

  function NewEstate(now: nat): (e: Estate)
    ensures e.market.rate.time <= e.market.now
  {
    Estate(Runs.NewMarket(now).market, NO_VAULT)
  }

  /**
   * Over any history of a new vault, its shares are exactly what its holders have, and the market's invariants hold.
   */
  lemma {:induction false} RunKeepsInv(q: Params, self: Address, now: nat, steps: seq<Step>)
    requires q.Valid() && ValidSteps(steps)
    ensures EstateInv(q, Run(q, self, NewEstate(now), steps))
  {
    hide RateMul, Apply, MarketInv;
    if steps == [] {
      Runs.NewMarketGood(q, now);
    } else {
      RunKeepsInv(q, self, now, steps[..|steps| - 1]);
      var before, s := Run(q, self, NewEstate(now), steps[..|steps| - 1]), steps[|steps| - 1];
      var done := Apply(q, self, before, s);
      if done.Some? {
        ApplyKeepsInv(q, self, before, s, done.value);
      }
    }
  }

  // ---------------------------------------------------------------- in and out again

  /**
   * Shares bought by `deposit` or `mint`, and given back at once by `redeem`, never return more than was paid, unless
   * swept.
   */
  lemma RedeemAfterEntry(q: Params, e: Estate, receiver: Address, shares: nat, paid: nat, policy: nat, d: Done)
    requires q.Valid() && e.market.rate.time <= e.market.now
    requires PaidEnough(e.vault.supply, TotalAssets(e.market), shares, paid, q.bPrec)
    requires Fund(e.market, paid, policy).rate.time <= Fund(e.market, paid, policy).now
    requires Redeem(q, Estate(Fund(e.market, paid, policy), MintTo(e.vault, receiver, shares)),
                    shares, receiver, receiver, policy) == Some(d)
    ensures
      var e1 := Estate(Fund(e.market, paid, policy), MintTo(e.vault, receiver, shares));
      d.amount > paid <==> Sweeps(q, e1, shares) && TotalAssets(e.market) > 0
  {
    hide RateMul, TotalAt, PayOut, ToAssets, PaidEnough, TookNoMore;
    var e1 := Estate(Fund(e.market, paid, policy), MintTo(e.vault, receiver, shares));
    MoneyIsAssets(e.market, e.market.book.funds + paid, policy);
    if !Sweeps(q, e1, shares) {
      RoundingFavoursVault(e1.vault.supply, TotalAssets(e1.market), shares, d.amount, q.bPrec);
      ExitAfterEntry(e.vault.supply, TotalAssets(e.market), shares, paid, d.amount, q.bPrec);
    }
  }

  /**
   * Depositing and redeeming at once profits exactly when nobody held shares, assets were left over, and what
   * redeeming would leave of them is under the minimum: a test before either call.
   */
  lemma DepositThenRedeem(q: Params, e: Estate, assets: nat, user: Address, policy: nat, d1: Done, d2: Done)
    requires q.Valid() && e.market.rate.time <= e.market.now
    requires LendVault.Deposit(q, e, assets, user, policy) == Some(d1)
    requires d1.estate.market.rate.time <= d1.estate.market.now
    requires Redeem(q, d1.estate, d1.amount, user, user, policy) == Some(d2)
    ensures
      var total := TotalAssets(e.market);
      var shares := ToShares(0, total, assets, q.bPrec, true);
      var converted := ToAssets(shares, total + assets, shares, q.bPrec, true);
      d2.amount > assets <==> e.vault.supply == 0 && total > 0 && total + assets - converted < MIN_ASSETS
  {
    hide RateMul, TotalAt, PayOut, ToAssets, ToShares, PaidEnough, Redeem;
    RoundingFavoursVault(e.vault.supply, TotalAssets(e.market), assets, d1.amount, q.bPrec);
    RedeemAfterEntry(q, e, user, d1.amount, assets, policy, d2);
    MoneyIsAssets(e.market, e.market.book.funds + assets, policy);
  }

  /** A vault without shares whose market holds 5000 units. */
  function Leftover(): Estate {
    Estate(Market(NewPool(), Runs.NO_BOOK.(funds := 5000), Rate(WAD, 0, 0), 0), NO_VAULT)
  }

  /** One transfer of 5000 units to the Controller of a new vault leads there. */
  lemma LeftoverIsReached(q: Params, self: Address)
    requires q.Valid()
    ensures ValidSteps([Step.Loan(Runs.Supply(5000))])
    ensures Run(q, self, NewEstate(0), [Step.Loan(Runs.Supply(5000))]) == Leftover()
  {
    var steps := [Step.Loan(Runs.Supply(5000))];
    assert steps[..0] == [] && Run(q, self, NewEstate(0), steps[..0]) == NewEstate(0);
  }

  lemma LeftoverAssets()
    ensures TotalAssets(Leftover().market) == 5000
  {
    DivOfNone(WAD);
  }

  /** There, a deposit of 5000 units buys 999 shares, and redeeming those sweeps up all 10000 units. */
  lemma SweepProfits(q: Params)
    requires q.Valid() && q.bPrec == 1
    ensures
      var d1 := LendVault.Deposit(q, Leftover(), 5000, 1, 0);
      && d1.Some? && d1.value.amount == 999 && d1.value.estate.market.rate.time <= d1.value.estate.market.now
      && var d2 := Redeem(q, d1.value.estate, 999, 1, 1, 0);
         d2.Some? && d2.value.amount == 10_000
  {
    hide RateMul, TotalAssets, ToShares, ToAssets;
    LeftoverAssets();
    MoneyIsAssets(Leftover().market, 10_000, 0);
    LeftoverConversions();
  }

  lemma LeftoverConversions()
    ensures ToShares(0, 5000, 5000, 1, true) == 999 && ToAssets(999, 10_000, 999, 1, true) == 4997
  {
    assert Worth(5000, 1) == 5001 && Worth(10_000, 1) == 10_001 && Stock(999, 1) == 1999;
    assert 1000 * 5000 * 1 / 5001 == 999 && 999 * 10_001 / 1999 == 4997;
  }

  /** The same for shares bought by `mint`. */
  lemma MintThenRedeem(q: Params, e: Estate, shares: nat, user: Address, policy: nat, d1: Done, d2: Done)
    requires q.Valid() && e.market.rate.time <= e.market.now && Mint(q, e, shares, user, policy) == Some(d1)
    requires d1.estate.market.rate.time <= d1.estate.market.now
    requires Redeem(q, d1.estate, shares, user, user, policy) == Some(d2)
    ensures
      var total := TotalAssets(e.market);
      var assets := ToAssets(0, total, shares, q.bPrec, false);
      var converted := ToAssets(shares, total + assets, shares, q.bPrec, true);
      d2.amount > d1.amount <==> e.vault.supply == 0 && total > 0 && total + assets - converted < MIN_ASSETS
  {
    hide RateMul, TotalAt, PayOut, ToAssets, PaidEnough, Redeem;
    RoundingFavoursVault(e.vault.supply, TotalAssets(e.market), shares, d1.amount, q.bPrec);
    RedeemAfterEntry(q, e, user, shares, d1.amount, policy, d2);
    MoneyIsAssets(e.market, e.market.book.funds + d1.amount, policy);
  }

  /** Withdrawing at once what is worth at most the bought shares never returns more than was paid. */
  lemma DepositThenWithdraw(q: Params, e: Estate, assets: nat, out: nat, user: Address, policy: nat, d1: Done, d2: Done)
    requires q.Valid() && e.market.rate.time <= e.market.now
    requires LendVault.Deposit(q, e, assets, user, policy) == Some(d1)
    requires d1.estate.market.rate.time <= d1.estate.market.now
    requires LendVault.Withdraw(q, d1.estate, out, user, user, policy) == Some(d2) && d2.amount <= d1.amount
    ensures out <= assets
  {
    hide RateMul, TotalAt, PayOut, ToAssets, ToShares, PaidEnough, TookNoMore;
    var supply, total := e.vault.supply, TotalAssets(e.market);
    RoundingFavoursVault(supply, total, assets, d1.amount, q.bPrec);
    MoneyIsAssets(e.market, e.market.book.funds + assets, policy);
    RoundingFavoursVault(supply + d1.amount, total + assets, out, d1.amount, q.bPrec);
    ExitAfterEntry(supply, total, d1.amount, assets, out, q.bPrec);
  }
}
