/** The lending vault over a market: shares, their price, and every call that moves either. None stands for a revert. */
module LendVault {
  import opened Numbers
  import opened Ledger
  import opened Debt
  import opened AmmPool
  import opened Lending

  const DEAD_SHARES: nat := 1000
  const MIN_ASSETS: nat := 10_000

  datatype Vault = Vault(supply: nat, balance: map<Address, nat>, allowance: map<(Address, Address), nat>)

  /** A vault and the market it lends to; the market's `bPrec` is the vault's `precision`. */
  datatype Estate = Estate(market: Market, vault: Vault)

  // ---------------------------------------------------------------- conversions

  /** `_total_assets`. */
  function TotalAssets(c: Market): nat
    requires c.rate.time <= c.now
  {
    c.book.funds + TotalAt(c.book.total, Mul(c))
  }

  /** The two sides of the share price: assets and shares, both in 18 decimals, with the dead shares added. */
  function Worth(assets: nat, prec: Positive): Positive {
    Product3(assets, prec, 1);
    assets * prec + 1
  }

  function Stock(supply: nat, prec: Positive): Positive {
    MulMono(1, prec, supply + DEAD_SHARES);
    (supply + DEAD_SHARES) * prec
  }

  function CeilDiv(a: nat, d: Positive): nat {
    Div(a + (d - 1), d)
  }

  /** `_convert_to_shares`. */
  function ToShares(supply: nat, total: nat, assets: nat, prec: Positive, isFloor: bool): nat {
    Product3(supply + DEAD_SHARES, assets, prec);
    var numerator: nat := (supply + DEAD_SHARES) * assets * prec;
    if isFloor then Div(numerator, Worth(total, prec)) else CeilDiv(numerator, Worth(total, prec))
  }

  /** `_convert_to_assets`. */
  function ToAssets(supply: nat, total: nat, shares: nat, prec: Positive, isFloor: bool): nat {
    Product3(shares, Worth(total, prec), 1);
    var numerator: nat := shares * Worth(total, prec);
    if isFloor then Div(numerator, Stock(supply, prec)) else CeilDiv(numerator, Stock(supply, prec))
  }

  // ---------------------------------------------------------------- the share ledger

  /** `_mint`. */
  function MintTo(v: Vault, u: Address, shares: nat): Vault {
    v.(supply := v.supply + shares, balance := v.balance[u := Get(v.balance, u) + shares])
  }

  /** `_burn`. */
  function BurnFrom(v: Vault, u: Address, shares: nat): Option<Vault> {
    if Get(v.balance, u) < shares || v.supply < shares then None else
      Some(v.(supply := v.supply - shares, balance := v.balance[u := Get(v.balance, u) - shares]))
  }

  /** `_transfer`; 0 is the empty address, `self` the vault's own. */
  function Move(v: Vault, self: Address, from: Address, to: Address, shares: nat): Option<Vault> {
    if to == self || to == 0 || Get(v.balance, from) < shares then None else
      var debited := v.balance[from := Get(v.balance, from) - shares];
      Some(v.(balance := debited[to := Get(debited, to) + shares]))
  }

  /** Use up the allowance of `spender`; an allowance of the largest integer is never used up. */
  function Spend(v: Vault, owner: Address, spender: Address, shares: nat): Option<Vault> {
    var allowed := Get(v.allowance, (owner, spender));
    if allowed == MAX_UINT then Some(v)
    else if allowed < shares then None
    else Some(v.(allowance := v.allowance[(owner, spender) := allowed - shares]))
  }

  function SpendIfOther(v: Vault, owner: Address, spender: Address, shares: nat): Option<Vault> {
    if owner == spender then Some(v) else Spend(v, owner, spender, shares)
  }

  // ---------------------------------------------------------------- calls

  /** The estate after a call, and the shares or assets the call returned. */
  datatype Done = Done(estate: Estate, amount: nat)

  function Fund(c: Market, assets: nat, policy: nat): Market
    requires c.rate.time <= c.now
  {
    Save(c.(book := c.book.(funds := c.book.funds + assets)), policy)
  }

  function Defund(c: Market, assets: nat, policy: nat): Market
    requires c.rate.time <= c.now && assets <= c.book.funds
  {
    Save(c.(book := c.book.(funds := c.book.funds - assets)), policy)
  }

  /** `deposit`. */
  function Deposit(q: Params, e: Estate, assets: nat, receiver: Address, policy: nat): Option<Done>
    requires q.Valid() && e.market.rate.time <= e.market.now
  {
    var total := TotalAssets(e.market);
    var shares := ToShares(e.vault.supply, total, assets, q.bPrec, true);
    if total + assets < MIN_ASSETS then None else
      Some(Done(Estate(Fund(e.market, assets, policy), MintTo(e.vault, receiver, shares)), shares))
  }

  /** `mint`. */
  function Mint(q: Params, e: Estate, shares: nat, receiver: Address, policy: nat): Option<Done>
    requires q.Valid() && e.market.rate.time <= e.market.now
  {
    var total := TotalAssets(e.market);
    var assets := ToAssets(e.vault.supply, total, shares, q.bPrec, false);
    if total + assets < MIN_ASSETS then None else
      Some(Done(Estate(Fund(e.market, assets, policy), MintTo(e.vault, receiver, shares)), assets))
  }

  /** The common end of `withdraw` and `redeem`. */
  function PayOut(e: Estate, owner: Address, sender: Address, shares: nat, assets: nat, policy: nat): Option<Estate>
    requires e.market.rate.time <= e.market.now
  {
    match SpendIfOther(e.vault, owner, sender, shares)
    case None => None
    case Some(v) =>
      match BurnFrom(v, owner, shares)
      case None => None
      case Some(burnt) =>
        if assets > e.market.book.funds then None else Some(Estate(Defund(e.market, assets, policy), burnt))
  }

  /** `withdraw`. */
  function Withdraw(q: Params, e: Estate, assets: nat, sender: Address, owner: Address, policy: nat): Option<Done>
    requires q.Valid() && e.market.rate.time <= e.market.now
  {
    var total := TotalAssets(e.market);
    var shares := ToShares(e.vault.supply, total, assets, q.bPrec, false);
    if assets > total || (total - assets < MIN_ASSETS && total != assets) then None else
      match PayOut(e, owner, sender, shares, assets, policy)
      case None => None
      case Some(e') => Some(Done(e', shares))
  }

  /** The last redemption takes everything when less than the minimum would stay behind. */
  predicate Sweeps(q: Params, e: Estate, shares: nat)
    requires q.Valid() && e.market.rate.time <= e.market.now
  {
    var total := TotalAssets(e.market);
    shares == e.vault.supply && total - ToAssets(e.vault.supply, total, shares, q.bPrec, true) < MIN_ASSETS
  }

  /** `redeem`. */
  function Redeem(q: Params, e: Estate, shares: nat, sender: Address, owner: Address, policy: nat): Option<Done>
    requires q.Valid() && e.market.rate.time <= e.market.now
  {
    var total := TotalAssets(e.market);
    var converted := ToAssets(e.vault.supply, total, shares, q.bPrec, true);
    if converted > total || (total - converted < MIN_ASSETS && shares != e.vault.supply) then None else
      var assets := if Sweeps(q, e, shares) then total else converted;
      match PayOut(e, owner, sender, shares, assets, policy)
      case None => None
      case Some(e') => Some(Done(e', assets))
  }

  // ---------------------------------------------------------------- the share price

  /** Assets per share, with the code's dead shares and its one unit of assets. */
  ghost function Price(q: Params, e: Estate): real
    requires q.Valid() && e.market.rate.time <= e.market.now
  {
    Ratio(Worth(TotalAssets(e.market), q.bPrec), Stock(e.vault.supply, q.bPrec))
  }

  /** Paying at least the price keeps or raises it. */
  lemma AddKeepsRatio(n: nat, d: Positive, x: nat, y: nat)
    requires n * y <= x * d
    ensures Ratio(n, d) <= Ratio(n + x, d + y)
  {
    Distribute(n, x, d);
    assert n * (d + y) == n * d + n * y;
    RatioOrder(n, d, n + x, d + y);
  }

  /** Taking at most the price keeps or raises it. */
  lemma SubKeepsRatio(n: nat, d: Positive, x: nat, y: nat)
    requires x <= n && y < d && x * d <= n * y
    ensures Ratio(n, d) <= Ratio(n - x, d - y)
  {
    Distribute(n, x, d);
    assert n * (d - y) == n * d - n * y;
    RatioOrder(n, d, n - x, d - y);
  }

  lemma CeilBounds(a: nat, d: Positive)
    ensures a <= CeilDiv(a, d) * d < a + d
  {
    DivBounds(a + (d - 1), d);
  }

  /** What one call charges or pays against the price of that moment, in whole units: never in favour of the caller. */
  predicate PaidEnough(supply: nat, total: nat, shares: nat, assets: nat, prec: Positive) {
    shares * (total * prec + 1) <= assets * ((supply + DEAD_SHARES) * prec)
  }

  predicate TookNoMore(supply: nat, total: nat, shares: nat, assets: nat, prec: Positive) {
    assets * ((supply + DEAD_SHARES) * prec) <= shares * (total * prec + 1)
  }

  lemma StockTimes(supply: nat, assets: nat, prec: Positive)
    ensures (supply + DEAD_SHARES) * assets * prec == assets * Stock(supply, prec)
  {
    assert (supply + DEAD_SHARES) * assets * prec == assets * ((supply + DEAD_SHARES) * prec);
  }

  /**
   * The rounding of EIP-4626's Security Considerations: `deposit` mints the most shares that the assets pay for, `mint`
   * charges the fewest assets that pay for the shares, `withdraw` burns the fewest shares that are worth the assets,
   * `redeem` pays the most assets that the shares are worth.
   */
  lemma RoundingFavoursVault(supply: nat, total: nat, amount: nat, other: nat, prec: Positive)
    ensures other <= ToShares(supply, total, amount, prec, true) <==> PaidEnough(supply, total, other, amount, prec)
    ensures ToAssets(supply, total, amount, prec, false) <= other <==> PaidEnough(supply, total, amount, other, prec)
    ensures ToShares(supply, total, amount, prec, false) <= other <==> TookNoMore(supply, total, other, amount, prec)
    ensures other <= ToAssets(supply, total, amount, prec, true) <==> TookNoMore(supply, total, amount, other, prec)
  {
    StockTimes(supply, amount, prec);
    Product3(amount, Stock(supply, prec), 1);
    Product3(amount, Worth(total, prec), 1);
    FloorIsGreatest(amount * Stock(supply, prec), Worth(total, prec), other);
    FloorIsGreatest(amount * Worth(total, prec), Stock(supply, prec), other);
    CeilIsLeast(amount * Stock(supply, prec), Worth(total, prec), other);
    CeilIsLeast(amount * Worth(total, prec), Stock(supply, prec), other);
  }

  lemma CeilIsLeast(a: nat, d: Positive, q: nat)
    ensures CeilDiv(a, d) <= q <==> a <= q * d
  {
    CeilBounds(a, d);
    if CeilDiv(a, d) <= q {
      MulMono(CeilDiv(a, d), q, d);
    } else {
      MulMono(q, CeilDiv(a, d) - 1, d);
      Distribute(CeilDiv(a, d), 1, d);
    }
  }

  lemma WorthMoves(total: nat, assets: nat, prec: Positive)
    ensures assets * prec >= 0 && Worth(total + assets, prec) == Worth(total, prec) + assets * prec
  {
    Distribute(total, assets, prec);
    MulMono(0, assets, prec);
  }

  lemma StockMoves(supply: nat, shares: nat, prec: Positive)
    ensures shares * prec >= 0 && Stock(supply + shares, prec) == Stock(supply, prec) + shares * prec
  {
    Distribute(supply + DEAD_SHARES, shares, prec);
    MulMono(0, shares, prec);
  }

  /** What was compared per share and asset, in 18 decimals on both sides. */
  lemma ScaledPayment(a: int, n: int, b: int, d: int, prec: Positive)
    requires a * n <= b * d
    ensures n * (a * prec) <= b * prec * d
  {
    MulMono(a * n, b * d, prec);
    assert n * (a * prec) == a * n * prec && b * prec * d == b * d * prec;
  }

  /** Shares minted for enough assets keep or raise the price. */
  lemma EntryKeepsPrice(supply: nat, total: nat, shares: nat, assets: nat, prec: Positive)
    requires PaidEnough(supply, total, shares, assets, prec)
    ensures Ratio(Worth(total, prec), Stock(supply, prec)) <=
            Ratio(Worth(total + assets, prec), Stock(supply + shares, prec))
  {
    assert shares * Worth(total, prec) <= assets * Stock(supply, prec);
    hide Worth, Stock, Ratio;
    WorthMoves(total, assets, prec);
    StockMoves(supply, shares, prec);
    ScaledPayment(shares, Worth(total, prec), assets, Stock(supply, prec), prec);
    AddKeepsRatio(Worth(total, prec), Stock(supply, prec), assets * prec, shares * prec);
  }

  /** Shares burned for no more than they are worth keep or raise the price. */
  lemma ExitKeepsPrice(supply: nat, total: nat, shares: nat, assets: nat, prec: Positive)
    requires shares <= supply && assets <= total && TookNoMore(supply, total, shares, assets, prec)
    ensures Ratio(Worth(total, prec), Stock(supply, prec)) <=
            Ratio(Worth(total - assets, prec), Stock(supply - shares, prec))
  {
    assert assets * Stock(supply, prec) <= shares * Worth(total, prec);
    hide Worth, Stock, Ratio;
    var n, d := Worth(total, prec), Stock(supply, prec);
    WorthMoves(total - assets, assets, prec);
    StockMoves(supply - shares, shares, prec);
    ScaledPayment(assets, d, shares, n, prec);
    assert assets * prec * d == d * (assets * prec) && shares * prec * n == n * (shares * prec);
    SubKeepsRatio(n, d, assets * prec, shares * prec);
  }

  /** The sweep of the last redemption keeps the price exactly when a thousandth of the shares covers all assets. */
  lemma SweepKeepsPrice(supply: nat, total: nat, prec: Positive)
    ensures Ratio(Worth(total, prec), Stock(supply, prec)) <= Ratio(Worth(0, prec), Stock(0, prec))
      <==> DEAD_SHARES * (total * prec) <= supply
  {
    var n, a := Worth(total, prec), total * prec;
    RatioOrder(n, Stock(supply, prec), Worth(0, prec), Stock(0, prec));
    assert n * (DEAD_SHARES * prec) == (DEAD_SHARES * n) * prec;
    if DEAD_SHARES * n <= supply + DEAD_SHARES {
      MulMono(DEAD_SHARES * n, supply + DEAD_SHARES, prec);
    } else {
      MulMono(supply + DEAD_SHARES + 1, DEAD_SHARES * n, prec);
      Distribute(supply + DEAD_SHARES, 1, prec);
    }
  }

  /** Whoever paid for shares, and no more, gets back at most what was paid. */
  lemma ExitAfterEntry(supply: nat, total: nat, shares: nat, paid: nat, out: nat, prec: Positive)
    requires PaidEnough(supply, total, shares, paid, prec)
    requires TookNoMore(supply + shares, total + paid, shares, out, prec)
    ensures out <= paid
  {
    var n, d := total * prec + 1, (supply + DEAD_SHARES) * prec;
    Distribute(total, paid, prec);
    Distribute(supply + DEAD_SHARES, shares, prec);
    Product3(supply + DEAD_SHARES, prec, 1);
    MulMono(1, prec, supply + DEAD_SHARES);
    MulMono(0, shares, prec);
    PaidAtMost(n, d, paid * prec, shares * prec, shares, paid, out);
  }

  lemma PaidAtMost(n: int, d: Positive, x: int, y: nat, shares: nat, paid: nat, out: nat)
    requires shares * n <= paid * d && out * (d + y) <= shares * (n + x) && shares * x == paid * y
    ensures out <= paid
  {
    assert shares * (n + x) == shares * n + shares * x;
    assert paid * (d + y) == paid * d + paid * y;
    Cancel(out, paid, d + y);
  }
}
