/**
 * A history of Controller calls that ends without any loan but with debt: a collateral step on the only loan rounds it
 * down and leaves the total alone.
 */
module LoneLoan {
  import opened Numbers
  import opened Ledger
  import opened Ticks
  import opened BandShares
  import opened Debt
  import opened AmmPool
  import opened PoolInvariant
  import opened PoolWithdraw
  import opened PriceOracle
  import opened DebtBook
  import opened Lending
  import opened LendingRuns
  import opened DebtLimit

  // ---------------------------------------------------------------- deposits into an AMM without users

  lemma FreshShares(y: nat)
    ensures SharesFor(0, y, 0) == DEAD_SHARES * y
  {
  }

  lemma {:induction false} FreshBands(bandsX: Bands, bandsY: Bands, total: Bands, b: int, n2: int, y: nat, yRest: nat)
    requires forall c :: b <= c ==> Get(bandsX, c) == 0 && Get(bandsY, c) == 0 && Get(total, c) == 0
    requires 0 < y && DEAD_SHARES * y < Q128 && 0 < yRest && DEAD_SHARES * yRest < Q128
    ensures DepositFrom(bandsX, bandsY, total, b, n2, y, yRest).Some?
    ensures |DepositFrom(bandsX, bandsY, total, b, n2, y, yRest).value.shares| == Max(n2 - b + 1, 0)
    decreases n2 - b + 1
  {
    hide SharesFor;
    if b <= n2 {
      FreshShares(y);
      var bandsY', total', b' := bandsY[b := y], total[b := DEAD_SHARES * y], b + 1;
      forall c | b' <= c ensures Get(bandsX, c) == 0 && Get(bandsY', c) == 0 && Get(total', c) == 0 {
        assert Get(bandsX, c) == 0 && Get(bandsY, c) == 0 && Get(total, c) == 0;
      }
      FreshBands(bandsX, bandsY', total', b', n2, yRest, yRest);
      assert Get(bandsX, b) == 0 && Get(bandsY, b) == 0 && Get(total, b) == 0;
      assert bandsY[b := Get(bandsY, b) + y] == bandsY' && total[b := Get(total, b) + DEAD_SHARES * y] == total';
    }
  }

  lemma NobodyNoShares(p: Pool, b: int)
    requires LedgerKept(p) && forall v :: !Live(p, v)
    ensures Get(p.total, b) == 0
  {
    var shares := SharesAt(p.users, b);
    forall v | v in shares ensures shares[v] == 0 {
      assert !Live(p, v);
    }
    SumZero(shares);
    assert Sum(SharesAt(p.users, b)) == Get(p.total, b);
  }

  /**
   * Without users, any range above the active band takes a deposit that is neither dust nor too large for its words.
   */
  lemma EmptyPoolAccepts(q: Params, p: Pool, user: Address, amount: nat, n1: int, n2: int)
    requires q.Valid() && Inv(q, p) && (forall v :: !Live(p, v)) && p.active < n1 && ValidRange(n1, n2)
    requires PerBand(q, amount, n2 - n1 + 1) > 100 && DEAD_SHARES * InFirstBand(q, amount, n2 - n1 + 1) < Q128
    ensures Deposit(q, p, user, amount, n1, n2).Some?
    ensures
      var p' := Deposit(q, p, user, amount, n1, n2).value;
      p'.active == p.active && p'.heldY == p.heldY + amount && FirstBand(p', user) == n1 && Span(p', user) == n2 - n1
  {
    forall c ensures Get(p.bandsX, c) == 0 && Get(p.bandsY, c) == 0 && Get(p.total, c) == 0 {
      NobodyNoShares(p, c);
      assert BandEmpty(p, c);
    }
    hide Inv, PackNumbers, SaveShares, UnpackNumbers;
    EvenSplit(q, amount, n2 - n1 + 1);
    FreshBands(p.bandsX, p.bandsY, p.total, n1, n2,
               InFirstBand(q, amount, n2 - n1 + 1), PerBand(q, amount, n2 - n1 + 1));
    UnpackOfPack(n1, n2);
  }

  // ---------------------------------------------------------------- the history

  const BORROWER: Address := 1
  const RATE: nat := 40_000_000_000

  /** The multiplier after 1.25 million seconds, and after another 1.5 million. */
  const MUL_1: Positive := 1_050_000_000_000_000_000
  const MUL_2: Positive := 1_113_000_000_000_000_000

  /** The two deposits, and the first band that is found for each. */
  datatype Story = Story(collateral: nat, more: nat, first: int, again: int)

  /** From one token to 10^17, at 18 decimals. */
  ghost predicate Sizeable(q: Params, amount: nat) {
    WAD <= amount * q.cPrec <= WAD * WAD / 10
  }

  ghost predicate Told(q: Params, h: Story) {
    Sizeable(q, h.collateral) && Sizeable(q, h.more) && 0 < h.first <= MAX_SKIP - 4 && 0 < h.again <= MAX_SKIP - 4
  }

  function Borrow(h: Story): seq<Action> {
    [Supply(10)] + [Create(BORROWER, h.collateral, 10, 4, h.first, RATE)]
  }

  function AddMore(h: Story): seq<Action> {
    Borrow(h) + [Wait(1_250_000)] + [Change(BORROWER, AddCollateral(h.more), h.again, RATE)]
  }

  function RepayAll(h: Story): seq<Action> {
    AddMore(h) + [Wait(1_500_000)] + [RepayDebt(BORROWER, 100, Repayer(BORROWER, 0, 0, true), 0)]
  }

  /**
   * For 10 units of debt and deposits of one token and more in four bands, `_calculate_debt_n1` can find exactly the
   * bands from 1 to 1020 above an active band 0, whatever the deployment and the discount.
   */
  lemma BandsFound(l: DebtLimit.Terms, amount: nat, prec: Positive, pBase: nat, lnRatio: Positive, n1: int)
    requires l.Valid() && WAD <= amount && prec <= WAD && 1000 <= pBase
    ensures 0 < n1 <= MAX_SKIP - 4 <==> 0 < n1 && exists r: Answers ::
              r.pBase == pBase && r.lnRatio == lnRatio && DebtBand(l, amount, 10, prec, 4, 0, r) == Some(n1)
  {
    TokenCounts(l, amount);
    MulMono(60_000_000_000_000_000, YEffective(l, amount, 4).value, pBase);
    if 0 < n1 <= MAX_SKIP - 4 {
      var r := Answers(pBase, n1 * lnRatio, lnRatio, false, true);
      MulMono(1, n1, lnRatio);
      DebtBandMeans(l, amount, 10, prec, 4, 0, r);
      DivOfMul(n1, lnRatio);
      assert DebtBand(l, amount, 10, prec, 4, 0, r) == Some(n1);
    } else {
      forall r: Answers | DebtBand(l, amount, 10, prec, 4, 0, r) == Some(n1) ensures n1 <= MAX_SKIP - 4 {
        DebtBandMeans(l, amount, 10, prec, 4, 0, r);
      }
    }
  }

  /** A token in four bands counts for more than 6 percent of itself, whatever the discount. */
  lemma TokenCounts(l: DebtLimit.Terms, amount: nat)
    requires l.Valid() && WAD <= amount
    ensures YEffective(l, amount, 4).value >= 60_000_000_000_000_000
  {
    CountsMono(l, WAD, amount, 4);
    assert DeadDiscount(WAD, 4) == 4000;
    var kept := Kept(l, WAD, 4);
    MulMono(WAD / 2 - 4000, kept, WAD);
    DivLower(WAD * kept, l.sqrtRatio * 4, 60_000_000_000_000_000);
    SeriesRange(FirstTerm(l, WAD, 4), l.a, 4);
  }

  lemma RunAppend(q: Params, s: Tracked, actions: seq<Action>, a: Action)
    requires q.Valid() && s.market.rate.time <= s.market.now && ValidActions(actions) && ValidAction(a)
    ensures ValidActions(actions + [a]) && Run(q, s, actions + [a]) == Step(q, Run(q, s, actions), a)
  {
    hide Step;
    assert (actions + [a])[..|actions|] == actions;
  }

  /** The only user has liquidity in four bands above the active one. */
  ghost predicate Placed(p: Pool) {
    && p.active == 0 && FirstBand(p, BORROWER) > 0 && Span(p, BORROWER) == 3
    && forall v :: Live(p, v) <==> v == BORROWER
  }

  const FUNDED := NO_BOOK.(funds := 10)

  function Indebted(): Book {
    Enlist(FUNDED, BORROWER).(loan := map[BORROWER := Loan(10, WAD)], total := Loan(10, WAD), minted := 10, funds := 0)
  }

  /** The loan is rebased to the later multiplier; the total is not. */
  function Rebased(): Book {
    Indebted().(loan := map[BORROWER := Loan(10, MUL_1)])
  }

  lemma Multipliers(c: Market)
    ensures c.rate == Rate(WAD, 0, 0) && c.now == 0 ==> Mul(c) == WAD
    ensures c.rate == Rate(WAD, RATE, 0) && c.now == 1_250_000 ==> Mul(c) == MUL_1
    ensures c.rate == Rate(MUL_1, RATE, 1_250_000) && c.now == 2_750_000 ==> Mul(c) == MUL_2
  {
  }

  lemma OpenBook()
    ensures Open(FUNDED, BORROWER, 10, WAD) == Some(Indebted())
  {
    assert TotalAt(NO_LOAN, WAD) == 0;
  }

  lemma RebaseBook()
    ensures DebtNow(Indebted(), BORROWER, MUL_1) == 10
    ensures Rebase(Indebted(), BORROWER, 0, MUL_1) == Some(Rebased())
  {
    assert Indebted().n == 1 && LoanOf(Indebted().loan, BORROWER) == Loan(10, WAD);
    assert DebtAt(Loan(10, WAD), MUL_1, 1) == 10;
    assert Indebted().loan[BORROWER := Loan(10, MUL_1)] == map[BORROWER := Loan(10, MUL_1)];
  }

  lemma RepayAmounts()
    ensures DebtAt(Loan(10, MUL_1), MUL_2, 1) == 10 && TotalAt(Loan(10, WAD), MUL_2) == 11
  {
  }

  lemma StillOwes()
    ensures Owes(Rebased(), BORROWER) && DebtNow(Rebased(), BORROWER, MUL_2) == 10
  {
    RepayAmounts();
  }

  /** Taking the only borrower off the list empties it. */
  lemma UnlistOnly(b: Book, u: Address)
    requires b.n == 1 && Get(b.ix, u) == 0 && Get(b.loans, 0) == u
    ensures Unlist(b, u) == Some(b.(ix := b.ix[u := 0], n := 0))
  {
  }

  lemma RepayBook()
    ensures DebtNow(Rebased(), BORROWER, MUL_2) == 10 && PayDown(Rebased(), BORROWER, 10, MUL_2).Some?
    ensures
      var b := PayDown(Rebased(), BORROWER, 10, MUL_2).value;
      b.n == 0 && b.total == Loan(1, MUL_2) && forall v :: !Owes(b, v)
  {
    StillOwes();
    RepayAmounts();
    hide DebtNow, TotalAt, Unlist;
    UnlistOnly(DebtBook.Paid(Rebased(), BORROWER, 10, MUL_2), BORROWER);
  }

  lemma EvenParts(q: Params, amount: nat)
    requires WAD <= amount * q.cPrec <= WAD * WAD / 5
    ensures PerBand(q, amount, 4) > 100 && DEAD_SHARES * InFirstBand(q, amount, 4) < Q128
  {
    EvenSplit(q, amount, 4);
  }

  /** 10 are borrowed against collateral in four bands. */
  lemma BorrowSucceeds(q: Params, h: Story, c: Market)
    requires q.Valid() && Told(q, h) && MarketInv(q, c) && c == Market(NewPool(), FUNDED, Rate(WAD, 0, 0), 0)
    ensures
      var r := CreateLoan(q, c, BORROWER, h.collateral, 10, 4, h.first, RATE);
      && r.Some? && Placed(r.value.pool) && r.value.pool.heldY == h.collateral
      && r.value == Market(r.value.pool, Indebted(), Rate(WAD, RATE, 0), 0)
  {
    hide Inv, BookInv, Deposit, Live, RateMul, Open, Span, FirstBand;
    Multipliers(c);
    OpenBook();
    EvenParts(q, h.collateral);
    NobodyLives();
    EmptyPoolAccepts(q, NewPool(), BORROWER, h.collateral, h.first, h.first + 3);
    var p := Deposit(q, NewPool(), BORROWER, h.collateral, h.first, h.first + 3).value;
    forall v ensures Live(p, v) <==> v == BORROWER {
      LiveAfterDeposit(q, NewPool(), BORROWER, h.collateral, h.first, h.first + 3, v);
    }
  }

  lemma NobodyLives()
    ensures forall v :: !Live(NewPool(), v)
  {
  }

  /** The position can be taken out and put back with more collateral. */
  lemma MoveSucceeds(q: Params, h: Story, p: Pool)
    requires q.Valid() && Told(q, h) && Inv(q, p) && Placed(p) && p.heldY == h.collateral
    ensures
      var r := Withdraw(q, p, BORROWER, WAD);
      && r.Some? && r.value.x == 0
      && Deposit(q, r.value.pool, BORROWER, r.value.y + h.more, h.again, h.again + Span(p, BORROWER)).Some?
  {
    hide Inv, Deposit, Withdraw, Live, Span, FirstBand, PerBand, InFirstBand;
    WithdrawNeverReverts(q, p, BORROWER, WAD);
    var w := Withdraw(q, p, BORROWER, WAD).value;
    NothingBorrowedAbove(q, p, BORROWER, w);
    WithdrawKeepsInv(q, p, BORROWER, WAD);
    forall v ensures !Live(w.pool, v) {
      LiveAfterWithdraw(q, p, BORROWER, WAD, v);
    }
    WithdrawnActive(q, p, w);
    MulMono(w.y, h.collateral, q.cPrec);
    MulMono(0, w.y, q.cPrec);
    Distribute(w.y, h.more, q.cPrec);
    EvenParts(q, w.y + h.more);
    EmptyPoolAccepts(q, w.pool, BORROWER, w.y + h.more, h.again, h.again + 3);
  }

  /** Collateral is added; the loan is still 10. */
  lemma AddMoreSucceeds(q: Params, h: Story, c: Market)
    requires q.Valid() && Told(q, h) && MarketInv(q, c) && Placed(c.pool) && c.pool.heldY == h.collateral
    requires c == Market(c.pool, Indebted(), Rate(WAD, RATE, 0), 1_250_000)
    ensures
      var r := Adjust(q, c, BORROWER, AddCollateral(h.more), h.again, RATE);
      && r.Some? && r.value == Market(r.value.pool, Rebased(), Rate(MUL_1, RATE, 1_250_000), 1_250_000)
  {
    hide Inv, BookInv, Deposit, Withdraw, Live, RateMul, Rebase, Span, Placed, Owes;
    Multipliers(c);
    RebaseBook();
    assert h.more > 0;
    MoveSucceeds(q, h, c.pool);
  }

  lemma WithdrawnActive(q: Params, p: Pool, w: Paid)
    requires q.Valid() && Withdraw(q, p, BORROWER, WAD) == Some(w)
    ensures w.pool.active == p.active && w.y <= p.heldY
  {
    hide Draw, Withdraw, Div;
    WithdrawIsLive(q, p, BORROWER, WAD);
    WithdrawShape(q, p, BORROWER, WAD);
  }

  /** All is repaid, and one unit of total debt is left. */
  lemma RepayAllSucceeds(q: Params, c: Market)
    requires q.Valid() && MarketInv(q, c) && c == Market(c.pool, Rebased(), Rate(MUL_1, RATE, 1_250_000), 2_750_000)
    ensures
      var r := Repay(q, c, BORROWER, 100, Repayer(BORROWER, 0, 0, true), 0);
      && r.Some? && r.value.book.n == 0 && r.value.book.total == Loan(1, MUL_2)
      && forall v :: !Owes(r.value.book, v)
  {
    hide Inv, BookInv, RateMul, Live, Owes, PayDown, DebtNow, Repay;
    Multipliers(c);
    StillOwes();
    RepayBook();
    RepayInFullNeverFails(q, c, BORROWER, 100, Repayer(BORROWER, 0, 0, true), 0);
  }

  /**
   * For any deposits of a token and more and any first bands that are found for them, every call of the history goes
   * through, and at its end nobody owes anything but the total debt is 1: repaying the only loan in full does not close
   * a market after a collateral step that rounded it down.
   */
  lemma DebtOutlivesItsLoans(q: Params, h: Story)
    requires q.Valid() && Told(q, h)
    ensures ValidActions(Borrow(h)) && Run(q, NewMarket(0), Borrow(h)).market.book == Indebted()
    ensures ValidActions(AddMore(h)) && Run(q, NewMarket(0), AddMore(h)).market.book == Rebased()
    ensures ValidActions(RepayAll(h))
    ensures
      var b := Run(q, NewMarket(0), RepayAll(h)).market.book;
      b.n == 0 && b.total.initial == 1 && forall v :: !Owes(b, v)
  {
    hide Run, Step;
    BorrowRun(q, h);
    AddMoreRun(q, h);
    var s := Run(q, NewMarket(0), AddMore(h));
    RunAppend(q, NewMarket(0), AddMore(h), Wait(1_500_000));
    RunAppend(q, NewMarket(0), AddMore(h) + [Wait(1_500_000)],
              RepayDebt(BORROWER, 100, Repayer(BORROWER, 0, 0, true), 0));
    StepWait(q, s, 1_500_000);
    RunKeepsGood(q, 0, AddMore(h) + [Wait(1_500_000)]);
    var c := Run(q, NewMarket(0), AddMore(h) + [Wait(1_500_000)]).market;
    hide MarketInv, Repay;
    RepayAllSucceeds(q, c);
    StepRepay(q, Run(q, NewMarket(0), AddMore(h) + [Wait(1_500_000)]));
  }

  lemma StepWait(q: Params, s: Tracked, dt: nat)
    requires q.Valid() && s.market.rate.time <= s.market.now
    ensures Step(q, s, Wait(dt)).market == s.market.(now := s.market.now + dt)
  {
  }

  lemma StepRepay(q: Params, s: Tracked)
    requires q.Valid() && s.market.rate.time <= s.market.now
    requires Repay(q, s.market, BORROWER, 100, Repayer(BORROWER, 0, 0, true), 0).Some?
    ensures
      var a := RepayDebt(BORROWER, 100, Repayer(BORROWER, 0, 0, true), 0);
      Step(q, s, a).market == Repay(q, s.market, BORROWER, 100, Repayer(BORROWER, 0, 0, true), 0).value
  {
    hide Repay;
  }

  lemma BorrowRun(q: Params, h: Story)
    requires q.Valid() && Told(q, h)
    ensures ValidActions(Borrow(h))
    ensures
      var c := Run(q, NewMarket(0), Borrow(h)).market;
      && MarketInv(q, c) && Placed(c.pool) && c.pool.heldY == h.collateral
      && c == Market(c.pool, Indebted(), Rate(WAD, RATE, 0), 0)
  {
    RunAppend(q, NewMarket(0), [], Supply(10));
    assert [] + [Supply(10)] == [Supply(10)];
    RunAppend(q, NewMarket(0), [Supply(10)], Create(BORROWER, h.collateral, 10, 4, h.first, RATE));
    RunKeepsGood(q, 0, [Supply(10)]);
    RunKeepsGood(q, 0, Borrow(h));
    var s := Run(q, NewMarket(0), [Supply(10)]);
    hide Inv, BookInv, CreateLoan, Placed, RateMul, Live, Owes;
    assert s.market == Market(NewPool(), FUNDED, Rate(WAD, 0, 0), 0);
    BorrowSucceeds(q, h, s.market);
  }

  lemma AddMoreRun(q: Params, h: Story)
    requires q.Valid() && Told(q, h)
    ensures ValidActions(AddMore(h))
    ensures
      var c := Run(q, NewMarket(0), AddMore(h)).market;
      c == Market(c.pool, Rebased(), Rate(MUL_1, RATE, 1_250_000), 1_250_000)
  {
    hide Run;
    BorrowRun(q, h);
    RunAppend(q, NewMarket(0), Borrow(h), Wait(1_250_000));
    RunAppend(q, NewMarket(0), Borrow(h) + [Wait(1_250_000)], Change(BORROWER, AddCollateral(h.more), h.again, RATE));
    RunKeepsGood(q, 0, Borrow(h) + [Wait(1_250_000)]);
    var s := Run(q, NewMarket(0), Borrow(h) + [Wait(1_250_000)]);
    hide Inv, BookInv, Adjust, Placed, RateMul, Live, Owes;
    AddMoreSucceeds(q, h, s.market);
  }
}
