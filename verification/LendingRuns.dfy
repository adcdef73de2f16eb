/** Whole histories of a market: loans, repayments, liquidations, trades, fees and the passing of time, in any order. */
module LendingRuns {
  import opened Numbers
  import opened Debt
  import opened AmmPool
  import opened PoolInvariant
  import opened PoolWithdraw
  import opened PoolExchange
  import opened PriceOracle
  import opened DebtBook
  import opened Lending

  /** `Supply` and `Drain` move borrowed coin between the Controller and whoever funds it: a factory, or a vault. */
  datatype Action =
    | Wait(dt: nat)
    | Swap(rates: FeeRates, order: Order)
    | Create(user: Address, collateral: nat, debt: nat, bands: nat, n1: int, policy: nat)
    | Change(user: Address, change: Lending.Change, n1: int, policy: nat)
    | RepayDebt(user: Address, amount: nat, r: Repayer, policy: nat)
    | RepayByCallback(user: Address, cbStable: nat, cbCollateral: nat, n1: int, policy: nat)
    | LiquidateUser(user: Address, l: Liquidator, policy: nat)
    | TakeInterest(policy: nat)
    | SaveRate(policy: nat)
    | Supply(amount: nat)
    | Drain(amount: nat)

  ghost predicate ValidAction(a: Action) {
    a.Swap? ==> a.rates.admin <= WAD
  }

  /** One call; None where it reverts. */
  function Call(q: Params, c: Market, a: Action): Option<Market>
    requires q.Valid() && c.rate.time <= c.now && ValidAction(a)
  {
    match a
    case Wait(dt) => Some(c.(now := c.now + dt))
    case Swap(rates, order) => (match Exchange(q, c.pool, rates, order) case None => None case Some(e) =>
      Some(c.(pool := e.pool)))
    case Create(user, collateral, debt, bands, n1, policy) =>
      CreateLoan(q, c, user, collateral, debt, bands, n1, policy)
    case Change(user, change, n1, policy) => Adjust(q, c, user, change, n1, policy)
    case RepayDebt(user, amount, r, policy) => Repay(q, c, user, amount, r, policy)
    case RepayByCallback(user, cbStable, cbCollateral, n1, policy) =>
      RepayExtended(q, c, user, cbStable, cbCollateral, n1, policy)
    case LiquidateUser(user, l, policy) => Liquidate(q, c, user, l, policy)
    case TakeInterest(policy) => CollectFees(c, policy)
    case SaveRate(policy) => Some(Save(c, policy))
    case Supply(amount) => Some(c.(book := c.book.(funds := c.book.funds + amount)))
    case Drain(amount) =>
      if amount > c.book.funds then None else Some(c.(book := c.book.(funds := c.book.funds - amount)))
  }

  /** A market with the net funding it received so far. */
  datatype Tracked = Tracked(market: Market, funding: int)

  lemma CallKeepsClock(q: Params, c: Market, a: Action, c': Market)
    requires q.Valid() && c.rate.time <= c.now && ValidAction(a) && Call(q, c, a) == Some(c')
    ensures c'.rate.time <= c'.now
  {
    hide RateMul, Exchange, Deposit, Withdraw, RepayMoves, Move, Open, Rebase, PayDown, DebtNow, FRemove, Called;
    hide Collect, TakeFees;
  }

  function Step(q: Params, s: Tracked, a: Action): (r: Tracked)
    requires q.Valid() && s.market.rate.time <= s.market.now && ValidAction(a)
    ensures r.market.rate.time <= r.market.now
  {
    hide Call;
    ghost var done := Call(q, s.market, a);
    assert done.Some? ==> done.value.rate.time <= done.value.now by {
      if done.Some? {
        CallKeepsClock(q, s.market, a, done.value);
      }
    }
    match Call(q, s.market, a)
    case None => s
    case Some(c) => Tracked(c, FundingAfter(a, s.funding))
  }

  // ---------------------------------------------------------------- one step

  lemma CallKeepsInv(q: Params, c: Market, a: Action, c': Market)
    requires q.Valid() && MarketInv(q, c) && ValidAction(a) && Call(q, c, a) == Some(c')
    ensures MarketInv(q, c')
  {
    hide Inv, BookInv, Exchange, CreateLoan, Adjust, Repay, RepayExtended, Liquidate, CollectFees, RateMul, Live, Owes;
    match a
    case Create(user, collateral, debt, bands, n1, policy) =>
      CreateLoanKeepsInv(q, c, user, collateral, debt, bands, n1, policy, c');
    case Change(user, change, n1, policy) => AdjustKeepsInv(q, c, user, change, n1, policy, c');
    case RepayDebt(user, amount, r, policy) => RepayKeepsInv(q, c, user, amount, r, policy, c');
    case RepayByCallback(user, cbStable, cbCollateral, n1, policy) =>
      RepayExtendedKeepsInv(q, c, user, cbStable, cbCollateral, n1, policy, c');
    case LiquidateUser(user, l, policy) => LiquidateKeepsInv(q, c, user, l, policy, c');
    case TakeInterest(policy) => CollectFeesKeepsInv(q, c, policy, c');
    case SaveRate(policy) =>
      BookNow(q, c);
      SavedInv(q, c, c.pool, c.book, policy);
    case Wait(dt) =>
    case Swap(rates, order) => SwapKeepsInv(q, c, rates, order, c');
    case Supply(amount) => FundsDoNotMatter(c.book, c'.book, c.rate.mul);
    case Drain(amount) => FundsDoNotMatter(c.book, c'.book, c.rate.mul);
  }

  lemma SwapKeepsInv(q: Params, c: Market, rates: FeeRates, order: Order, c': Market)
    requires q.Valid() && MarketInv(q, c) && rates.admin <= WAD && Call(q, c, Swap(rates, order)) == Some(c')
    ensures MarketInv(q, c')
  {
    hide Inv, BookInv, Owes, Settle, SwapTrade;
    ExchangeKeepsInv(q, c.pool, rates, order);
    forall u ensures Live(c'.pool, u) <==> Owes(c'.book, u) {
      ExchangeKeepsUsers(q, c.pool, rates, order);
    }
  }

  lemma ExchangeKeepsUsers(q: Params, p: Pool, rates: FeeRates, order: Order)
    requires q.Valid() && rates.admin <= WAD && Exchange(q, p, rates, order).Some?
    ensures Exchange(q, p, rates, order).value.pool.users == p.users
  {
    hide SwapTrade;
  }

  lemma FundsDoNotMatter(b: Book, b': Book, m: Positive)
    requires b' == b.(funds := b'.funds) && BookInv(b, m)
    ensures BookInv(b', m) && forall u :: Owes(b', u) <==> Owes(b, u)
  {
    SameList(b, b');
    forall u ensures Listed(b', u) <==> Owes(b', u) {
      assert Listed(b, u) <==> Owes(b, u);
    }
  }

  /** What a call does to the books: they keep balancing, and the interest earned does not shrink. */
  ghost predicate BooksKept(c: Market, c': Market, funding: int, funding': int)
    requires c.rate.time <= c.now && c'.rate.time <= c'.now
  {
    && (BooksBalance(c.book, funding) <==> BooksBalance(c'.book, funding'))
    && Gain(c.book, Mul(c)) <= Gain(c'.book, Mul(c'))
  }

  lemma SavedMul(c: Market, policy: nat, c': Market)
    requires c.rate.time <= c.now && c' == Save(c.(pool := c'.pool, book := c'.book), policy)
    ensures c'.rate.time <= c'.now && Mul(c') == Mul(c)
  {
    hide RateMul;
    SetRateIsContinuous(c.rate, Min(policy, MAX_RATE), c.now);
  }

  lemma PaidBooks(c: Market, user: Address, d: nat, policy: nat, c': Market, funding: int)
    requires c.rate.time <= c.now && c' == Save(c.(pool := c'.pool, book := c'.book), policy)
    requires d <= DebtNow(c.book, user, Mul(c)) && PayDown(c.book, user, d, Mul(c)) == Some(c'.book)
    ensures c'.rate.time <= c'.now && BooksKept(c, c', funding, funding)
  {
    hide DebtNow, RateMul, TotalAt, PayDown, Gain, BooksBalance;
    PayDownBooks(c.book, user, d, Mul(c), funding);
    SavedMul(c, policy, c');
  }

  function FundingAfter(a: Action, funding: int): int {
    if a.Supply? then funding + a.amount else if a.Drain? then funding - a.amount else funding
  }

  /**
   * No call but the collection of interest lets total debt plus redeemed minus minted shrink, and every call keeps the
   * Controller's balance equal to its funding plus redeemed minus minted.
   */
  lemma CallKeepsBooks(q: Params, c: Market, a: Action, c': Market, funding: int)
    requires q.Valid() && c.rate.time <= c.now && ValidAction(a) && !a.TakeInterest? && Call(q, c, a) == Some(c')
    ensures c'.rate.time <= c'.now && BooksKept(c, c', funding, FundingAfter(a, funding))
  {
    hide RateMul, Exchange, Deposit, Withdraw, RepayMoves, Move, Open, Rebase, PayDown, DebtNow, TotalAt, FirstBand;
    hide FRemove, Called;
    var m := Mul(c);
    match a
    case Create(user, collateral, debt, bands, n1, policy) =>
      OpenBooks(c.book, user, debt, m, funding);
      SavedMul(c, policy, c');
    case Change(user, change, n1, policy) =>
      if !Idle(change) {
        RebaseBooks(c.book, user, Borrowed(change), m, funding);
        SavedMul(c, policy, c');
      }
    case RepayDebt(user, amount, r, policy) =>
      if amount != 0 {
        PaidBooks(c, user, Min(DebtNow(c.book, user, m), amount), policy, c', funding);
      }
    case RepayByCallback(user, cbStable, cbCollateral, n1, policy) =>
      var w, debt := Withdraw(q, c.pool, user, WAD).value, DebtNow(c.book, user, m);
      PaidBooks(c, user, if cbStable + w.x >= debt then debt else cbStable, policy, c', funding);
    case LiquidateUser(user, l, policy) =>
      PaidBooks(c, user, Called(DebtNow(c.book, user, m), Min(l.frac, WAD)), policy, c', funding);
    case SaveRate(policy) => SavedMul(c, policy, c');
    case Wait(dt) =>
      RateMulGrows(c.rate, c.now, c'.now);
      GainGrows(c.book, m, Mul(c'));
    case Swap(rates, order) =>
    case Supply(amount) =>
    case Drain(amount) =>
  }

  /** Collecting takes exactly the interest earned so far, as `admin_fees` shows it: the clamps lose nothing. */
  lemma InterestIsTheGain(q: Params, c: Market, policy: nat, c': Market, funding: int)
    requires q.Valid() && c.rate.time <= c.now && Gain(c.book, Mul(c)) >= 0 && CollectFees(c, policy) == Some(c')
    ensures c'.rate.time <= c'.now && Gain(c'.book, Mul(c')) == 0
    ensures AdminFees(c.book, Mul(c)) == Gain(c.book, Mul(c)) == c.book.funds - c'.book.funds
    ensures BooksBalance(c.book, funding) <==> BooksBalance(c'.book, funding)
  {
    hide RateMul, Collect, TakeFees, Gain, AdminFees, BooksBalance;
    CollectBooks(c.book, Mul(c), funding);
    SavedMul(c, policy, c');
  }

  // ---------------------------------------------------------------- total debt against the loans

  /** A step that only moves collateral of the only loan must find the total covered by the rebased debt. */
  ghost predicate Smooth(q: Params, c: Market, a: Action)
    requires q.Valid() && c.rate.time <= c.now && ValidAction(a)
  {
    a.Change? && !Idle(a.change) && Borrowed(a.change) == 0 && c.book.n <= 1 && Call(q, c, a).Some? ==>
      RebasedCovers(c.book, a.user, Mul(c))
  }

  /** Every call keeps the total within the loans, except, exactly, a collateral step that is not smooth. */
  lemma CallKeepsWithin(q: Params, c: Market, a: Action, c': Market)
    requires q.Valid() && MarketInv(q, c) && ValidAction(a) && Call(q, c, a) == Some(c') && TotalWithin(c.book)
    ensures TotalWithin(c'.book) <==> Smooth(q, c, a)
  {
    hide RateMul, Exchange, Deposit, Withdraw, RepayMoves, Move, Open, Rebase, PayDown, DebtNow, TotalAt, FirstBand;
    hide FRemove, Called, Inv, BookInv, Owes, Live, Collect, TakeFees, RebasedCovers;
    var m := Mul(c);
    BookNow(q, c);
    match a
    case Create(user, collateral, debt, bands, n1, policy) => OpenWithin(c.book, user, debt, m);
    case Change(user, change, n1, policy) =>
      if !Idle(change) {
        RebaseWithin(c.book, user, Borrowed(change), m);
      }
    case RepayDebt(user, amount, r, policy) =>
      if amount != 0 {
        OwesMeansDebt(c.book, user, m, m);
        PayDownWithin(c.book, user, Min(DebtNow(c.book, user, m), amount), m);
      }
    case RepayByCallback(user, cbStable, cbCollateral, n1, policy) =>
      var w, debt := Withdraw(q, c.pool, user, WAD).value, DebtNow(c.book, user, m);
      LiveOwes(q, c, user, WAD);
      PayDownWithin(c.book, user, if cbStable + w.x >= debt then debt else cbStable, m);
    case LiquidateUser(user, l, policy) =>
      LiveOwes(q, c, user, FRemove(Min(l.frac, WAD), l.h));
      PayDownWithin(c.book, user, Called(DebtNow(c.book, user, m), Min(l.frac, WAD)), m);
    case TakeInterest(policy) => CollectWithin(c.book, m);
    case SaveRate(policy) =>
    case Wait(dt) =>
    case Swap(rates, order) =>
    case Supply(amount) =>
    case Drain(amount) =>
  }

  // ---------------------------------------------------------------- histories

  const NO_BOOK := Book(map[], NO_LOAN, map[], map[], 0, 0, 0, 0)

  function NewMarket(now: nat): (s: Tracked)
    ensures s.market.rate.time <= s.market.now
  {
    Tracked(Market(NewPool(), NO_BOOK, Rate(WAD, 0, 0), now), 0)
  }

  ghost predicate ValidActions(actions: seq<Action>) {
    forall i :: 0 <= i < |actions| ==> ValidAction(actions[i])
  }

  function Run(q: Params, s: Tracked, actions: seq<Action>): (r: Tracked)
    requires q.Valid() && s.market.rate.time <= s.market.now && ValidActions(actions)
    ensures r.market.rate.time <= r.market.now
  {
    if actions == [] then s else Step(q, Run(q, s, actions[..|actions| - 1]), actions[|actions| - 1])
  }

  ghost predicate Good(q: Params, s: Tracked) {
    && MarketInv(q, s.market)
    && BooksBalance(s.market.book, s.funding) && Gain(s.market.book, Mul(s.market)) >= 0
  }

  lemma NewBook(m: Positive)
    ensures BookInv(NO_BOOK, WAD) && TotalWithin(NO_BOOK) && Gain(NO_BOOK, m) == 0 && forall u :: !Owes(NO_BOOK, u)
  {
    SumValueSign(NO_BOOK.loan);
    DivOfNone(WAD);
  }

  lemma NewMarketGood(q: Params, now: nat)
    requires q.Valid()
    ensures Good(q, NewMarket(now)) && TotalWithin(NewMarket(now).market.book)
  {
    hide RateMul, BookInv, Inv, TotalWithin, Gain, Owes;
    NewPoolInv(q);
    NewBook(Mul(NewMarket(now).market));
  }

  lemma StepKeepsGood(q: Params, s: Tracked, a: Action)
    requires q.Valid() && Good(q, s) && ValidAction(a)
    ensures Good(q, Step(q, s, a))
    ensures !a.TakeInterest? ==>
              Gain(s.market.book, Mul(s.market)) <= Gain(Step(q, s, a).market.book, Mul(Step(q, s, a).market))
  {
    hide Inv, BookInv, Call, RateMul, Gain, Live, Owes;
    match Call(q, s.market, a)
    case None =>
    case Some(c) =>
      CallKeepsInv(q, s.market, a, c);
      if a.TakeInterest? {
        assert CollectFees(s.market, a.policy) == Some(c) by { CallIsCollect(q, s.market, a); }
        InterestIsTheGain(q, s.market, a.policy, c, s.funding);
      } else {
        CallKeepsBooks(q, s.market, a, c, s.funding);
      }
  }

  lemma CallIsCollect(q: Params, c: Market, a: Action)
    requires q.Valid() && c.rate.time <= c.now && a.TakeInterest?
    ensures Call(q, c, a) == CollectFees(c, a.policy)
  {
  }

  /**
   * After any history: the invariants of both contracts hold together, the Controller's balance is its funding plus
   * redeemed minus minted, and debt outstanding plus redeemed covers what was minted.
   */
  lemma {:induction false} RunKeepsGood(q: Params, now: nat, actions: seq<Action>)
    requires q.Valid() && ValidActions(actions)
    ensures
      var r := Run(q, NewMarket(now), actions);
      && MarketInv(q, r.market)
      && r.market.book.funds + r.market.book.minted == r.funding + r.market.book.redeemed
      && TotalAt(r.market.book.total, Mul(r.market)) + r.market.book.redeemed >= r.market.book.minted
  {
    hide Inv, BookInv, RateMul, Live, Owes, Step, NewMarket, Div;
    if actions == [] {
      NewMarketGood(q, now);
    } else {
      RunKeepsGood(q, now, actions[..|actions| - 1]);
      StepKeepsGood(q, Run(q, NewMarket(now), actions[..|actions| - 1]), actions[|actions| - 1]);
    }
  }

  /** Every collateral step of a lone loan along a history finds the total covered. */
  ghost predicate SmoothRun(q: Params, s: Tracked, actions: seq<Action>)
    requires q.Valid() && s.market.rate.time <= s.market.now && ValidActions(actions)
  {
    actions != [] ==>
      && SmoothRun(q, s, actions[..|actions| - 1])
      && Smooth(q, Run(q, s, actions[..|actions| - 1]).market, actions[|actions| - 1])
  }

  /** The total is within the loans at every moment of a history. */
  ghost predicate AlwaysWithin(q: Params, s: Tracked, actions: seq<Action>)
    requires q.Valid() && s.market.rate.time <= s.market.now && ValidActions(actions)
  {
    && TotalWithin(Run(q, s, actions).market.book)
    && (actions != [] ==> AlwaysWithin(q, s, actions[..|actions| - 1]))
  }

  lemma StepWithin(q: Params, s: Tracked, a: Action)
    requires q.Valid() && MarketInv(q, s.market) && ValidAction(a) && TotalWithin(s.market.book)
    ensures TotalWithin(Step(q, s, a).market.book) <==> Smooth(q, s.market, a)
  {
    hide Inv, BookInv, Live, Owes, TotalWithin, Call, RateMul, Smooth;
    match Call(q, s.market, a)
    case None => RevertIsSmooth(q, s.market, a);
    case Some(c) => CallKeepsWithin(q, s.market, a, c);
  }

  lemma RevertIsSmooth(q: Params, c: Market, a: Action)
    requires q.Valid() && c.rate.time <= c.now && ValidAction(a) && Call(q, c, a).None?
    ensures Smooth(q, c, a)
  {
    hide Call;
  }

  /** The recorded total stays worth no more than the loans together exactly along the smooth histories. */
  lemma {:induction false} RunKeepsWithin(q: Params, now: nat, actions: seq<Action>)
    requires q.Valid() && ValidActions(actions)
    ensures AlwaysWithin(q, NewMarket(now), actions) <==> SmoothRun(q, NewMarket(now), actions)
  {
    hide Inv, BookInv, Live, Owes, RateMul, TotalWithin, Smooth, Step;
    if actions == [] {
      NewMarketGood(q, now);
    } else {
      var before, a := actions[..|actions| - 1], actions[|actions| - 1];
      RunKeepsWithin(q, now, before);
      RunKeepsGood(q, now, before);
      if TotalWithin(Run(q, NewMarket(now), before).market.book) {
        StepWithin(q, Run(q, NewMarket(now), before), a);
      }
    }
  }

  /** A borrower can repay in full at any time: nothing in the AMM or in the loan list can stop it. */
  lemma RepayInFullNeverFails(q: Params, c: Market, user: Address, amount: nat, r: Repayer, policy: nat)
    requires q.Valid() && MarketInv(q, c) && Owes(c.book, user) && r.sender == user
    requires DebtNow(c.book, user, Mul(c)) <= amount
    ensures Repay(q, c, user, amount, r, policy).Some?
    ensures
      var c' := Repay(q, c, user, amount, r, policy).value;
      && PayDown(c.book, user, DebtNow(c.book, user, Mul(c)), Mul(c)) == Some(c'.book)
      && !Owes(c'.book, user) && !Live(c'.pool, user)
  {
    hide Inv, BookInv, RateMul, Live, Owes, PayDown, DebtNow, Withdraw;
    BookNow(q, c);
    OwesMeansDebt(c.book, user, Mul(c), Mul(c));
    WithdrawNeverReverts(q, c.pool, user, WAD);
    LiveAfterWithdraw(q, c.pool, user, WAD, user);
    PayDownKeepsInv(c.book, user, DebtNow(c.book, user, Mul(c)), Mul(c));
  }

  /** After a smooth history, the last borrower who repays in full leaves no debt behind. */
  lemma LastRepaymentClosesMarket(q: Params, now: nat, actions: seq<Action>, user: Address, r: Repayer, policy: nat,
                                  c: Market)
    requires q.Valid() && ValidActions(actions) && SmoothRun(q, NewMarket(now), actions)
    requires c == Run(q, NewMarket(now), actions).market && Owes(c.book, user) && c.book.n == 1 && r.sender == user
    ensures
      var done := Repay(q, c, user, DebtNow(c.book, user, Mul(c)), r, policy);
      done.Some? && done.value.book.n == 0 && done.value.book.total.initial == 0
  {
    hide Inv, BookInv, RateMul, Live, Owes, PayDown, DebtNow, Withdraw, Run, Repay;
    RunKeepsWithin(q, now, actions);
    RunKeepsGood(q, now, actions);
    RepayInFullNeverFails(q, c, user, DebtNow(c.book, user, Mul(c)), r, policy);
    BookNow(q, c);
    ClosingLastLoan(c.book, user, Mul(c));
  }

  /**
   * After any history, the last borrower's full repayment closes the total at every later multiplier exactly when it is
   * within.
   */
  lemma LastRepaymentExactly(q: Params, now: nat, actions: seq<Action>, user: Address, c: Market)
    requires q.Valid() && ValidActions(actions) && c == Run(q, NewMarket(now), actions).market
    requires Owes(c.book, user) && c.book.n == 1
    ensures forall m': Positive :: Mul(c) <= m' ==> PayDown(c.book, user, DebtNow(c.book, user, m'), m').Some?
    ensures
      (forall m': Positive :: Mul(c) <= m' ==>
         PayDown(c.book, user, DebtNow(c.book, user, m'), m').value.total.initial == 0) <==> TotalWithin(c.book)
  {
    hide Inv, BookInv, RateMul, Live, Owes, PayDown, DebtNow, Run, TotalWithin;
    RunKeepsGood(q, now, actions);
    BookNow(q, c);
    ClosingLastLoanExactly(c.book, user, Mul(c));
  }
}
