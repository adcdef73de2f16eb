/** When the Controller's calls go through and what they change: debts, positions, tokens and the rate. */
module LendingEffects {
  import opened Numbers
  import opened Ticks
  import opened AmmPool
  import opened PoolInvariant
  import opened PoolWithdraw
  import opened PoolExchange
  import opened PoolEffects
  import opened PriceOracle
  import opened DebtBook
  import opened Lending
  import opened LendingRuns

  /** Every call that goes through saves the multiplier of the moment and the policy's rate, capped. */
  ghost predicate RateSaved(c: Market, c': Market, policy: nat)
    requires c.rate.time <= c.now
  {
    && c'.rate.mul == Mul(c) && c'.rate.rate == Min(policy, MAX_RATE)
    && c'.rate.time == c.now && c'.now == c.now
  }

  lemma SaveSaves(c: Market, pool: Pool, book: Book, policy: nat)
    requires c.rate.time <= c.now
    ensures RateSaved(c, Save(c.(pool := pool, book := book), policy), policy)
  {
    hide RateMul;
  }

  /** Nobody's position but u's is touched. */
  ghost predicate OthersKeepPlaces(p: Pool, p': Pool, u: Address) {
    forall v :: v != u ==> UserOf(p'.users, v) == UserOf(p.users, v)
  }

  /** u holds collateral in `bands` bands from n1 on, and what the AMM holds of each coin has moved by these amounts. */
  ghost predicate Moved(p: Pool, p': Pool, u: Address, n1: int, bands: int, dx: int, dy: int) {
    && FirstBand(p', u) == n1 && |SharesOf(p', u)| == bands && Live(p', u)
    && p'.heldX == p.heldX + dx && p'.heldY == p.heldY + dy && OthersKeepPlaces(p, p', u)
  }

  /** u has nothing left in the AMM, and took these amounts. */
  ghost predicate TookAll(p: Pool, p': Pool, u: Address, x: nat, y: nat) {
    && !Live(p', u) && p'.heldX + x == p.heldX && p'.heldY + y == p.heldY && OthersKeepPlaces(p, p', u)
  }

  // ---------------------------------------------------------------- the AMM's part

  lemma DepositMoves(q: Params, p: Pool, u: Address, amount: nat, n1: int, n2: int, p': Pool)
    requires q.Valid() && Inv(q, p) && Deposit(q, p, u, amount, n1, n2) == Some(p')
    ensures Moved(p, p', u, n1, n2 - n1 + 1, 0, amount) && !Live(p, u)
  {
    hide Inv, Deposit, Live, PoolEffects.Takes;
    DepositMeans(q, p, u, amount, n1, n2, p');
    LiveAfterDeposit(q, p, u, amount, n1, n2, u);
  }

  /** A full withdrawal takes what `get_sum_xy` shows. */
  lemma WithdrawTakesAll(q: Params, p: Pool, u: Address, w: Paid)
    requires q.Valid() && Inv(q, p) && Withdraw(q, p, u, WAD) == Some(w)
    ensures TookAll(p, w.pool, u, w.x, w.y) && GetSumXY(q, p, u) == (w.x, w.y) && Live(p, u)
  {
    hide Inv, Withdraw, Live, GetSumXY, PoolEffects.DrawnFrom, Tightened;
    LiveAfterWithdraw(q, p, u, WAD, u);
    SumXYIsWhatWithdrawPays(q, p, u);
    WithdrawMeans(q, p, u, WAD, w);
  }

  lemma SpanIsShares(q: Params, p: Pool, u: Address)
    requires q.Valid() && Inv(q, p) && Live(p, u)
    ensures Span(p, u) == |SharesOf(p, u)| - 1
  {
    LiveShares(q, p, u);
    ReadSharesLength(UserOf(p.users, u));
  }

  lemma ReadSharesLength(t: UserTicks)
    requires Position(t).1 != []
    ensures |Position(t).1| == UnpackNumbers(t.ns).1 - UnpackNumbers(t.ns).0 + 1
  {
    hide UnpackNumbers;
  }

  /** Out and in again, with another amount of collateral. */
  lemma RedepositMoves(q: Params, p: Pool, u: Address, amount: nat, n1: int, w: Paid, p': Pool)
    requires q.Valid() && Inv(q, p) && Withdraw(q, p, u, WAD) == Some(w) && w.x == 0
    requires Deposit(q, w.pool, u, amount, n1, n1 + Span(p, u)) == Some(p')
    ensures Moved(p, p', u, n1, |SharesOf(p, u)|, 0, amount - w.y)
  {
    hide Inv, Withdraw, Deposit, Live, Span;
    WithdrawTakesAll(q, p, u, w);
    WithdrawKeepsInv(q, p, u, WAD);
    SpanIsShares(q, p, u);
    DepositMoves(q, w.pool, u, amount, n1, n1 + Span(p, u), p');
  }

  // ---------------------------------------------------------------- the calls

  /**
   * A loan is created exactly for somebody without one, in 4 to 50 bands, of something that the Controller has, if the
   * AMM takes the collateral; then exactly that is owed, in those bands.
   */
  lemma CreateLoanMeans(q: Params, c: Market, user: Address, collateral: nat, debt: nat, bands: nat, n1: int,
                        policy: nat)
    requires q.Valid() && MarketInv(q, c)
    ensures CreateLoan(q, c, user, collateral, debt, bands, n1, policy).Some? <==>
            && 4 <= bands <= 50 && !Owes(c.book, user) && 0 < debt <= c.book.funds
            && Deposit(q, c.pool, user, collateral, n1, n1 + bands - 1).Some?
    ensures
      CreateLoan(q, c, user, collateral, debt, bands, n1, policy).Some? ==>
        var c' := CreateLoan(q, c, user, collateral, debt, bands, n1, policy).value;
        && RateSaved(c, c', policy) && DebtNow(c'.book, user, Mul(c)) == debt
        && OthersKeepLoans(c.book, c'.book, user) && BooksMove(c.book, c'.book, debt, 0)
        && Moved(c.pool, c'.pool, user, n1, bands, 0, collateral)
  {
    hide Inv, BookInv, Deposit, Open, RateMul, Live, DebtNow, Moved;
    OpenMeans(c.book, user, debt, Mul(c));
    if CreateLoan(q, c, user, collateral, debt, bands, n1, policy).Some? {
      var pool := Deposit(q, c.pool, user, collateral, n1, n1 + bands - 1).value;
      DepositMoves(q, c.pool, user, collateral, n1, n1 + bands - 1, pool);
      SaveSaves(c, pool, Open(c.book, user, debt, Mul(c)).value, policy);
    }
  }

  function Added(ch: Change): nat {
    if ch.RemoveCollateral? then 0 else ch.collateral
  }

  function Removed(ch: Change): nat {
    if ch.RemoveCollateral? then ch.collateral else 0
  }

  /**
   * A change goes through for a borrower whose position holds no borrowed coin and what is to be removed, within the
   * Controller's tokens, if the AMM takes the new collateral.
   */
  lemma AdjustGoesThrough(q: Params, c: Market, user: Address, ch: Change, n1: int, policy: nat)
    requires q.Valid() && MarketInv(q, c) && !Idle(ch)
    ensures Adjust(q, c, user, ch, n1, policy).Some? <==>
            && Owes(c.book, user) && Borrowed(ch) <= c.book.funds
            && var (x, y) := GetSumXY(q, c.pool, user);
               && x == 0 && Removed(ch) <= y && Withdraw(q, c.pool, user, WAD).Some?
               && Deposit(q, Withdraw(q, c.pool, user, WAD).value.pool, user, y + Added(ch) - Removed(ch),
                          n1, n1 + Span(c.pool, user)).Some?
  {
    hide Inv, BookInv, Deposit, Withdraw, Rebase, RateMul, Live, Owes, Span, DebtNow, GetSumXY;
    BookNow(q, c);
    OwesMeansDebt(c.book, user, Mul(c), Mul(c));
    RebaseMeans(c.book, user, Borrowed(ch), Mul(c));
    if Withdraw(q, c.pool, user, WAD).Some? {
      WithdrawTakesAll(q, c.pool, user, Withdraw(q, c.pool, user, WAD).value);
    }
  }

  /**
   * Then the debt of the moment grows by exactly what is borrowed, and the collateral moves by what the caller said.
   */
  lemma AdjustMeans(q: Params, c: Market, user: Address, ch: Change, n1: int, policy: nat, c': Market)
    requires q.Valid() && MarketInv(q, c) && Adjust(q, c, user, ch, n1, policy) == Some(c')
    ensures Idle(ch) ==> c' == c
    ensures
      !Idle(ch) ==>
        && RateSaved(c, c', policy) && DebtNow(c'.book, user, Mul(c)) == DebtNow(c.book, user, Mul(c)) + Borrowed(ch)
        && OthersKeepLoans(c.book, c'.book, user) && BooksMove(c.book, c'.book, Borrowed(ch), 0)
        && Moved(c.pool, c'.pool, user, n1, |SharesOf(c.pool, user)|, 0, Added(ch) - Removed(ch))
  {
    hide Inv, BookInv, Deposit, Withdraw, Rebase, RateMul, Live, Owes, Span, DebtNow, Moved;
    if !Idle(ch) {
      var w := Withdraw(q, c.pool, user, WAD).value;
      RebaseMeans(c.book, user, Borrowed(ch), Mul(c));
      RedepositMoves(q, c.pool, user, w.y + Added(ch) - Removed(ch), n1, w, c'.pool);
      SaveSaves(c, c'.pool, c'.book, policy);
    }
  }

  /** What is owed after a payment of d, and what the payment does to the books. */
  ghost predicate PaidOff(c: Market, c': Market, user: Address, d: nat)
    requires c.rate.time <= c.now
  {
    && d <= DebtNow(c.book, user, Mul(c)) && DebtNow(c'.book, user, Mul(c)) == DebtNow(c.book, user, Mul(c)) - d
    && OthersKeepLoans(c.book, c'.book, user) && BooksMove(c.book, c'.book, 0, d)
    && TotalAt(c'.book, c) == Max(TotalAt(c.book, c) - d, 0)
  }

  function TotalAt(b: Book, c: Market): nat
    requires c.rate.time <= c.now
  {
    Debt.TotalAt(b.total, Mul(c))
  }

  lemma PaidOffBy(c: Market, user: Address, d: nat, pool: Pool, policy: nat)
    requires c.rate.time <= c.now && d <= DebtNow(c.book, user, Mul(c)) && PayDown(c.book, user, d, Mul(c)).Some?
    ensures
      var c' := Save(c.(pool := pool, book := PayDown(c.book, user, d, Mul(c)).value), policy);
      PaidOff(c, c', user, d) && RateSaved(c, c', policy)
  {
    hide RateMul, DebtNow, PayDown;
    PayDownMeans(c.book, user, d, Mul(c));
    SaveSaves(c, pool, PayDown(c.book, user, d, Mul(c)).value, policy);
  }

  /** A full repayment goes through unless somebody else would take borrowed coin out of the borrower's position. */
  lemma RepayAllMeans(q: Params, c: Market, user: Address, amount: nat, r: Repayer, policy: nat)
    requires q.Valid() && MarketInv(q, c) && Owes(c.book, user) && DebtNow(c.book, user, Mul(c)) <= amount
    ensures Repay(q, c, user, amount, r, policy).Some? <==> r.sender == user || GetSumXY(q, c.pool, user).0 == 0
    ensures
      Repay(q, c, user, amount, r, policy).Some? ==>
        var c', (x, y) := Repay(q, c, user, amount, r, policy).value, GetSumXY(q, c.pool, user);
        && RateSaved(c, c', policy) && PaidOff(c, c', user, DebtNow(c.book, user, Mul(c)))
        && TookAll(c.pool, c'.pool, user, x, y)
  {
    hide Inv, BookInv, Withdraw, PayDown, RateMul, Live, Owes, DebtNow, PaidOff, TookAll, GetSumXY;
    var debt := DebtNow(c.book, user, Mul(c));
    BookNow(q, c);
    OwesMeansDebt(c.book, user, Mul(c), Mul(c));
    PayDownKeepsInv(c.book, user, debt, Mul(c));
    WithdrawNeverReverts(q, c.pool, user, WAD);
    var w := Withdraw(q, c.pool, user, WAD).value;
    WithdrawTakesAll(q, c.pool, user, w);
    PaidOffBy(c, user, debt, w.pool, policy);
  }

  /**
   * A partial repayment goes through while the active band is not above the caller's limit and, for somebody else's
   * loan, its health allows; it moves the position, with all its collateral, only from above the active band.
   */
  lemma RepayPartMeans(q: Params, c: Market, user: Address, amount: nat, r: Repayer, policy: nat)
    requires q.Valid() && MarketInv(q, c) && Owes(c.book, user) && 0 < amount < DebtNow(c.book, user, Mul(c))
    ensures Repay(q, c, user, amount, r, policy).Some? <==>
            && ActiveWithSkip(c.pool) <= r.maxActive && (r.sender == user || r.healthy)
            && (FirstBand(c.pool, user) > ActiveWithSkip(c.pool) ==>
                  && Withdraw(q, c.pool, user, WAD).Some?
                  && Deposit(q, Withdraw(q, c.pool, user, WAD).value.pool, user, GetSumXY(q, c.pool, user).1,
                             r.n1, r.n1 + Span(c.pool, user)).Some?)
    ensures
      Repay(q, c, user, amount, r, policy).Some? ==>
        var c' := Repay(q, c, user, amount, r, policy).value;
        && RateSaved(c, c', policy) && PaidOff(c, c', user, amount)
        && if FirstBand(c.pool, user) > ActiveWithSkip(c.pool)
           then Moved(c.pool, c'.pool, user, r.n1, |SharesOf(c.pool, user)|, 0, 0) else c'.pool == c.pool
  {
    hide Inv, BookInv, Withdraw, Deposit, PayDown, RateMul, Live, Owes, DebtNow, PaidOff, Moved, GetSumXY;
    hide FirstBand, ActiveWithSkip, Span;
    BookNow(q, c);
    PayDownKeepsInv(c.book, user, amount, Mul(c));
    WithdrawNeverReverts(q, c.pool, user, WAD);
    var w := Withdraw(q, c.pool, user, WAD).value;
    WithdrawTakesAll(q, c.pool, user, w);
    if FirstBand(c.pool, user) > ActiveWithSkip(c.pool) {
      NothingBorrowedAbove(q, c.pool, user, w);
      assert w.pool.(heldX := w.pool.heldX + w.x) == w.pool;
    }
    if Repay(q, c, user, amount, r, policy).Some? {
      var c' := Repay(q, c, user, amount, r, policy).value;
      PaidOffBy(c, user, amount, c'.pool, policy);
      if FirstBand(c.pool, user) > ActiveWithSkip(c.pool) {
        RedepositMoves(q, c.pool, user, w.y, r.n1, w, c'.pool);
      }
    }
  }

  /**
   * A repayment through a callback goes through when the callback or the position brings something, and either both
   * together repay all, or the position lies above the active band and the AMM takes the collateral that comes back.
   */
  lemma RepayExtendedGoesThrough(q: Params, c: Market, user: Address, cbStable: nat, cbCollateral: nat, n1: int,
                                 policy: nat)
    requires q.Valid() && MarketInv(q, c)
    ensures RepayExtended(q, c, user, cbStable, cbCollateral, n1, policy).Some? <==>
            && Owes(c.book, user) && Withdraw(q, c.pool, user, WAD).Some?
            && var (x, y) := GetSumXY(q, c.pool, user);
               && cbStable + x > 0
               && (cbStable + x < DebtNow(c.book, user, Mul(c)) ==>
                     && FirstBand(c.pool, user) > c.pool.active
                     && Deposit(q, Withdraw(q, c.pool, user, WAD).value.pool, user, cbCollateral,
                                n1, n1 + Span(c.pool, user)).Some?)
  {
    hide Inv, BookInv, Withdraw, Deposit, PayDown, RateMul, Live, Owes, DebtNow, GetSumXY, FirstBand, Span;
    var debt := DebtNow(c.book, user, Mul(c));
    if Withdraw(q, c.pool, user, WAD).Some? {
      var w := Withdraw(q, c.pool, user, WAD).value;
      LiveOwes(q, c, user, WAD);
      BookNow(q, c);
      WithdrawTakesAll(q, c.pool, user, w);
      PayDownKeepsInv(c.book, user, debt, Mul(c));
      if cbStable < debt {
        PayDownKeepsInv(c.book, user, cbStable, Mul(c));
      }
      if FirstBand(c.pool, user) > c.pool.active {
        NothingBorrowedAbove(q, c.pool, user, w);
        assert w.pool.(heldX := w.pool.heldX + w.x) == w.pool;
      }
    }
  }

  /**
   * With a callback: what it and the position bring repays all, or what it brings repays a part and the rest is moved.
   */
  lemma RepayExtendedMeans(q: Params, c: Market, user: Address, cbStable: nat, cbCollateral: nat, n1: int, policy: nat,
                           c': Market)
    requires q.Valid() && MarketInv(q, c) && RepayExtended(q, c, user, cbStable, cbCollateral, n1, policy) == Some(c')
    ensures
      var debt, (x, y) := DebtNow(c.book, user, Mul(c)), GetSumXY(q, c.pool, user);
      && RateSaved(c, c', policy) && Owes(c.book, user) && cbStable + x > 0
      && if cbStable + x >= debt then PaidOff(c, c', user, debt) && TookAll(c.pool, c'.pool, user, x, y) else
           && PaidOff(c, c', user, cbStable) && FirstBand(c.pool, user) > c.pool.active
           && Moved(c.pool, c'.pool, user, n1, |SharesOf(c.pool, user)|, 0, cbCollateral - y)
  {
    hide Inv, BookInv, Withdraw, Deposit, PayDown, RateMul, Live, Owes, DebtNow, PaidOff, Moved, TookAll, GetSumXY;
    hide FirstBand, Span;
    var w, debt := Withdraw(q, c.pool, user, WAD).value, DebtNow(c.book, user, Mul(c));
    LiveOwes(q, c, user, WAD);
    WithdrawTakesAll(q, c.pool, user, w);
    if cbStable + w.x >= debt {
      PaidOffBy(c, user, debt, w.pool, policy);
    } else {
      NothingBorrowedAbove(q, c.pool, user, w);
      assert w.pool.(heldX := w.pool.heldX + w.x) == w.pool;
      RedepositMoves(q, c.pool, user, cbCollateral, n1, w, c'.pool);
      PaidOffBy(c, user, cbStable, c'.pool, policy);
    }
  }

  /**
   * A liquidation goes through exactly for a loan that is unhealthy at the limit, or at limit zero; of a fraction that
   * calls something; if it yields at least what the liquidator asked for and enough, with what they bring, for the debt
   * it calls. Then the debt falls by that, and the position by the removed fraction.
   */
  lemma LiquidateMeans(q: Params, c: Market, user: Address, l: Liquidator, policy: nat)
    requires q.Valid() && MarketInv(q, c)
    ensures
      var frac := Min(l.frac, WAD);
      var called, w := Called(DebtNow(c.book, user, Mul(c)), frac), Withdraw(q, c.pool, user, FRemove(frac, l.h));
      && (Liquidate(q, c, user, l, policy).Some? <==>
            && Owes(c.book, user) && (l.h == 0 || l.rekt) && called > 0
            && w.Some? && l.minX <= w.value.x && called <= w.value.x + l.proceeds)
      && (Liquidate(q, c, user, l, policy).Some? ==>
            var c' := Liquidate(q, c, user, l, policy).value;
            RateSaved(c, c', policy) && PaidOff(c, c', user, called) && c'.pool == w.value.pool)
  {
    hide Inv, BookInv, Withdraw, PayDown, RateMul, Live, Owes, DebtNow, PaidOff, FRemove, Called;
    var frac, debt := Min(l.frac, WAD), DebtNow(c.book, user, Mul(c));
    var called, w := Called(debt, frac), Withdraw(q, c.pool, user, FRemove(frac, l.h));
    if w.Some? {
      LiveOwes(q, c, user, FRemove(frac, l.h));
      BookNow(q, c);
      PayDownKeepsInv(c.book, user, called, Mul(c));
      PaidOffBy(c, user, called, w.value.pool, policy);
    }
  }

  /** The AMM's part of a liquidation, which the user's liquidity and the fraction alone let through. */
  lemma LiquidationDraws(q: Params, c: Market, user: Address, frac: nat, h: nat)
    requires q.Valid() && MarketInv(q, c) && frac <= WAD
    ensures Withdraw(q, c.pool, user, FRemove(frac, h)).Some? <==> Owes(c.book, user)
    ensures
      Owes(c.book, user) ==>
        var w, n1, taken := Withdraw(q, c.pool, user, FRemove(frac, h)).value, FirstBand(c.pool, user),
                            TakenOf(SharesOf(c.pool, user), FRemove(frac, h));
        PaidOut(q, c.pool, w.pool, n1, taken, w.x, w.y) && TakenFrom(c.pool, w.pool, user, n1, taken)
  {
    hide Inv, BookInv, Withdraw, Live, Owes, PaidOut, TakenFrom;
    FRemoveWithin(frac, h);
    assert Live(c.pool, user) <==> Owes(c.book, user);
    WithdrawGoesThrough(q, c.pool, user, FRemove(frac, h));
    if Owes(c.book, user) {
      WithdrawMeans(q, c.pool, user, FRemove(frac, h), Withdraw(q, c.pool, user, FRemove(frac, h)).value);
    }
  }

  /** Collecting fees empties the AMM's fees of both coins and takes the Controller's interest, and touches nobody. */
  lemma CollectFeesMeans(q: Params, c: Market, policy: nat)
    requires q.Valid() && MarketInv(q, c)
    ensures CollectFees(c, policy).Some? <==> Max(Gain(c.book, Mul(c)), 0) <= c.book.funds
    ensures
      CollectFees(c, policy).Some? ==>
        var c', fees := CollectFees(c, policy).value, Max(Gain(c.book, Mul(c)), 0);
        && RateSaved(c, c', policy) && c'.book.loan == c.book.loan
        && c'.book.funds == c.book.funds - fees && c'.book.minted == c.book.minted + fees
        && TotalAt(c'.book, c) == TotalAt(c.book, c)
        && c'.pool == c.pool.(feesX := 0, feesY := 0, heldX := c'.pool.heldX, heldY := c'.pool.heldY)
        && c'.pool.heldX + c.pool.feesX == c.pool.heldX && c'.pool.heldY + c.pool.feesY == c.pool.heldY
  {
    hide Inv, BookInv, RateMul, Collect, Gain;
    TakeFeesKeepsInv(q, c.pool);
    CollectMeans(c.book, Mul(c));
    if CollectFees(c, policy).Some? {
      SaveSaves(c, TakeFees(c.pool).value, Collect(c.book, Mul(c)).value, policy);
    }
  }

  // ---------------------------------------------------------------- nobody else's loan

  /** The call creates, changes, repays or liquidates u's loan. */
  predicate Concerns(a: Action, u: Address) {
    match a
    case Create(user, _, _, _, _, _) => user == u
    case Change(user, _, _, _) => user == u
    case RepayDebt(user, _, _, _) => user == u
    case RepayByCallback(user, _, _, _, _) => user == u
    case LiquidateUser(user, _, _) => user == u
    case _ => false
  }

  /** u's stored loan, and u's bands and shares. */
  ghost predicate SameLoan(c: Market, c': Market, u: Address) {
    LoanOf(c'.book.loan, u) == LoanOf(c.book.loan, u) && UserOf(c'.pool.users, u) == UserOf(c.pool.users, u)
  }

  lemma RepayLeavesOthers(q: Params, c: Market, user: Address, amount: nat, r: Repayer, policy: nat, c': Market,
                          u: Address)
    requires q.Valid() && MarketInv(q, c) && Repay(q, c, user, amount, r, policy) == Some(c') && u != user
    ensures SameLoan(c, c', u)
  {
    hide Inv, BookInv, RateMul, Live, Owes, DebtNow, Repay, GetSumXY;
    if amount != 0 {
      RepayOwes(q, c, user, amount, r, policy);
      if DebtNow(c.book, user, Mul(c)) <= amount {
        RepayAllMeans(q, c, user, amount, r, policy);
      } else {
        RepayPartMeans(q, c, user, amount, r, policy);
      }
    } else {
      RepayNothing(q, c, user, r, policy);
    }
  }

  lemma RepayOwes(q: Params, c: Market, user: Address, amount: nat, r: Repayer, policy: nat)
    requires q.Valid() && MarketInv(q, c) && Repay(q, c, user, amount, r, policy).Some? && amount != 0
    ensures Owes(c.book, user)
  {
    hide Inv, BookInv, RateMul, Live, Owes, DebtNow, RepayMoves, PayDown;
    BookNow(q, c);
    OwesMeansDebt(c.book, user, Mul(c), Mul(c));
  }

  lemma RepayNothing(q: Params, c: Market, user: Address, r: Repayer, policy: nat)
    requires q.Valid() && c.rate.time <= c.now
    ensures Repay(q, c, user, 0, r, policy) == Some(c)
  {
    hide DebtNow, RepayMoves, PayDown;
  }

  lemma CallLeavesOthers(q: Params, c: Market, a: Action, c': Market, u: Address)
    requires q.Valid() && MarketInv(q, c) && ValidAction(a) && Call(q, c, a) == Some(c') && !Concerns(a, u)
    ensures SameLoan(c, c', u)
  {
    hide Inv, BookInv, Exchange, CreateLoan, Adjust, Repay, RepayExtended, Liquidate, CollectFees, RateMul, Live, Owes;
    hide DebtNow, GetSumXY, Called, FRemove;
    match a
    case Create(user, collateral, debt, bands, n1, policy) =>
      CreateLoanMeans(q, c, user, collateral, debt, bands, n1, policy);
    case Change(user, change, n1, policy) => AdjustMeans(q, c, user, change, n1, policy, c');
    case RepayDebt(user, amount, r, policy) => RepayLeavesOthers(q, c, user, amount, r, policy, c', u);
    case RepayByCallback(user, cbStable, cbCollateral, n1, policy) =>
      RepayExtendedMeans(q, c, user, cbStable, cbCollateral, n1, policy, c');
    case LiquidateUser(user, l, policy) =>
      LiquidateMeans(q, c, user, l, policy);
      LiquidationDraws(q, c, user, Min(l.frac, WAD), l.h);
    case TakeInterest(policy) => CollectFeesMeans(q, c, policy);
    case Swap(rates, order) => ExchangeKeepsUsers(q, c.pool, rates, order);
    case _ =>
  }

  /** Over any history that creates, changes, repays or liquidates only the loans of others, u's loan stays as it is. */
  lemma {:induction false} RunLeavesOthers(q: Params, s: Tracked, actions: seq<Action>, u: Address)
    requires q.Valid() && MarketInv(q, s.market) && ValidActions(actions)
    requires forall i :: 0 <= i < |actions| ==> !Concerns(actions[i], u)
    ensures MarketInv(q, Run(q, s, actions).market) && SameLoan(s.market, Run(q, s, actions).market, u)
    decreases |actions|
  {
    hide Inv, BookInv, Live, Owes, Call, RateMul;
    if actions != [] {
      var before, a := Run(q, s, actions[..|actions| - 1]), actions[|actions| - 1];
      RunLeavesOthers(q, s, actions[..|actions| - 1], u);
      match Call(q, before.market, a)
      case None =>
      case Some(c) =>
        CallKeepsInv(q, before.market, a, c);
        CallLeavesOthers(q, before.market, a, c, u);
    }
  }
}
