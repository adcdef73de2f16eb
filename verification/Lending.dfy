/**
 * The Controller over its AMM: what each borrower, liquidator and keeper call does to both. None stands for a revert.
 */
module Lending {
  import opened Numbers
  import opened Ledger
  import opened Ticks
  import opened BandShares
  import opened AmmPool
  import opened PoolInvariant
  import opened PoolWithdraw
  import opened PoolExchange
  import opened PoolFairness
  import opened PriceOracle
  import opened DebtBook

  const MIN_TICKS: nat := 4
  const MAX_RATE: nat := 43_959_106_799

  /** One market at time `now`. */
  datatype Market = Market(pool: Pool, book: Book, rate: Rate, now: nat)

  ghost predicate Ready(q: Params, c: Market) {
    q.Valid() && c.rate.time <= c.now
  }

  /** `get_rate_mul`. */
  function Mul(c: Market): Positive
    requires c.rate.time <= c.now
  {
    RateMul(c.rate, c.now)
  }

  /** `_save_rate`: the policy's rate, capped. */
  function Save(c: Market, policy: nat): Market
    requires c.rate.time <= c.now
  {
    c.(rate := SetRate(c.rate, Min(policy, MAX_RATE), c.now))
  }

  // ---------------------------------------------------------------- views of the AMM that the Controller uses

  /** How far the user's last band lies above the first. */
  function Span(p: Pool, user: Address): int {
    UnpackNumbers(UserOf(p.users, user).ns).1 - UnpackNumbers(UserOf(p.users, user).ns).0
  }

  // ---------------------------------------------------------------- the Controller's calls

  /** `_create_loan`; `n1` is what `_calculate_debt_n1` found. */
  function CreateLoan(q: Params, c: Market, user: Address, collateral: nat, debt: nat, bands: nat, n1: int,
                      policy: nat): Option<Market>
    requires q.Valid() && c.rate.time <= c.now
  {
    if !(MIN_TICKS <= bands <= MAX_TICKS) then None else
      match Open(c.book, user, debt, Mul(c))
      case None => None
      case Some(book) =>
        match Deposit(q, c.pool, user, collateral, n1, n1 + bands - 1)
        case None => None
        case Some(pool) => Some(Save(c.(pool := pool, book := book), policy))
  }

  datatype Change = AddCollateral(collateral: nat) | RemoveCollateral(collateral: nat) | BorrowMore(collateral: nat,
                                  debt: nat)

  function Borrowed(ch: Change): nat {
    if ch.BorrowMore? then ch.debt else 0
  }

  /** `add_collateral`, `remove_collateral` and `borrow_more` do nothing when asked for nothing. */
  predicate Idle(ch: Change) {
    if ch.BorrowMore? then ch.debt == 0 else ch.collateral == 0
  }

  /** `_add_collateral_borrow`: everything is withdrawn, then deposited anew. */
  function Adjust(q: Params, c: Market, user: Address, ch: Change, n1: int, policy: nat): Option<Market>
    requires q.Valid() && c.rate.time <= c.now
  {
    if Idle(ch) then Some(c) else
      match Rebase(c.book, user, Borrowed(ch), Mul(c))
      case None => None
      case Some(book) =>
        match Withdraw(q, c.pool, user, WAD)
        case None => None
        case Some(w) =>
          if w.x != 0 || (ch.RemoveCollateral? && ch.collateral > w.y) then None else
            var collateral := if ch.RemoveCollateral? then w.y - ch.collateral else w.y + ch.collateral;
            match Deposit(q, w.pool, user, collateral, n1, n1 + Span(c.pool, user))
            case None => None
            case Some(pool) => Some(Save(c.(pool := pool, book := book), policy))
  }

  /**
   * Take a position out and put its collateral back at other bands; whatever borrowed coin it held stays in the AMM.
   */
  function Move(q: Params, p: Pool, user: Address, w: Paid, collateral: nat, n1: int): Option<Pool>
    requires q.Valid()
  {
    Deposit(q, w.pool.(heldX := w.pool.heldX + w.x), user, collateral, n1, n1 + Span(p, user))
  }

  datatype Repayer = Repayer(sender: Address, maxActive: int, n1: int, healthy: bool)

  /** The AMM's part of `repay`. */
  function RepayMoves(q: Params, p: Pool, user: Address, full: bool, r: Repayer): Option<Pool>
    requires q.Valid()
  {
    if full then
      match Withdraw(q, p, user, WAD)
      case None => None
      case Some(w) => if w.x > 0 && r.sender != user then None else Some(w.pool)
    else if ActiveWithSkip(p) > r.maxActive || (r.sender != user && !r.healthy) then None
    else if FirstBand(p, user) > ActiveWithSkip(p) then
      match Withdraw(q, p, user, WAD)
      case None => None
      case Some(w) => Move(q, p, user, w, w.y, r.n1)
    else Some(p)
  }

  /** `repay`; more than the debt repays it all. */
  function Repay(q: Params, c: Market, user: Address, amount: nat, r: Repayer, policy: nat): Option<Market>
    requires q.Valid() && c.rate.time <= c.now
  {
    var debt := DebtNow(c.book, user, Mul(c));
    if amount == 0 then Some(c)
    else if debt == 0 then None
    else
      var d := Min(debt, amount);
      match RepayMoves(q, c.pool, user, d == debt, r)
      case None => None
      case Some(pool) =>
        match PayDown(c.book, user, d, Mul(c))
        case None => None
        case Some(book) => Some(Save(c.(pool := pool, book := book), policy))
  }

  /** `repay_extended`: a callback turns the collateral into borrowed coin. */
  function RepayExtended(q: Params, c: Market, user: Address, cbStable: nat, cbCollateral: nat, n1: int,
                         policy: nat): Option<Market>
    requires q.Valid() && c.rate.time <= c.now
  {
    match Withdraw(q, c.pool, user, WAD)
    case None => None
    case Some(w) =>
      var debt := DebtNow(c.book, user, Mul(c));
      if cbStable + w.x == 0 then None
      else if cbStable + w.x >= debt then
        match PayDown(c.book, user, debt, Mul(c))
        case None => None
        case Some(book) => Some(Save(c.(pool := w.pool, book := book), policy))
      else if FirstBand(c.pool, user) <= c.pool.active then None
      else
        match Move(q, c.pool, user, w, cbCollateral, n1)
        case None => None
        case Some(pool) =>
          match PayDown(c.book, user, cbStable, Mul(c))
          case None => None
          case Some(book) => Some(Save(c.(pool := pool, book := book), policy))
  }

  /** `_get_f_remove`: the fraction of a position that goes with the fraction `frac` of its debt. */
  function FRemove(frac: nat, h: nat): nat {
    if frac >= WAD then WAD else
      Product3(WAD + h / 2, WAD - frac, 1);
      var f: nat := Div((WAD + h / 2) * (WAD - frac), WAD + h);
      MulMono(0, f + frac, frac);
      Div((f + frac) * frac, WAD)
  }

  /**
   * `rekt` says that the health at the limit h is below zero; `proceeds` is what the liquidator or callback can bring.
   */
  datatype Liquidator = Liquidator(minX: nat, h: nat, frac: nat, rekt: bool, proceeds: nat)

  /** The part of a debt that a liquidation of fraction `frac` repays. */
  function Called(debt: nat, frac: nat): nat
    requires frac <= WAD
    ensures Called(debt, frac) <= debt
  {
    MulMono(0, debt, frac);
    MulMono(frac, WAD, debt);
    DivMono(debt * frac, debt * WAD, WAD);
    DivOfMul(debt, WAD);
    Div(debt * frac, WAD)
  }

  /** `_liquidate`; fractions above one are cut to one. */
  function Liquidate(q: Params, c: Market, user: Address, l: Liquidator, policy: nat): Option<Market>
    requires q.Valid() && c.rate.time <= c.now
  {
    var debt, frac := DebtNow(c.book, user, Mul(c)), Min(l.frac, WAD);
    var repaid := Called(debt, frac);
    if (l.h != 0 && !l.rekt) || repaid == 0 then None else
      match Withdraw(q, c.pool, user, FRemove(frac, l.h))
      case None => None
      case Some(w) =>
        if w.x < l.minX || w.x + l.proceeds < repaid then None else
          match PayDown(c.book, user, repaid, Mul(c))
          case None => None
          case Some(book) => Some(Save(c.(pool := w.pool, book := book), policy))
  }

  /** `collect_fees`. */
  function CollectFees(c: Market, policy: nat): Option<Market>
    requires c.rate.time <= c.now
  {
    match TakeFees(c.pool)
    case None => None
    case Some(pool) =>
      match Collect(c.book, Mul(c))
      case None => None
      case Some(book) => Some(Save(c.(pool := pool, book := book), policy))
  }

  // ---------------------------------------------------------------- what partial liquidation removes

  /**
   * A liquidation takes no larger a fraction of the position than of the debt, and exactly that fraction at limit zero.
   */
  lemma FRemoveWithin(frac: nat, h: nat)
    requires frac <= WAD
    ensures FRemove(frac, h) <= frac && (FRemove(frac, h) == WAD <==> frac == WAD)
    ensures h == 0 ==> FRemove(frac, h) == frac
  {
    if frac < WAD {
      var rest: nat := WAD - frac;
      Product3(WAD + h / 2, rest, 1);
      var f := Div((WAD + h / 2) * rest, WAD + h);
      MulMono(WAD + h / 2, WAD + h, rest);
      DivMono((WAD + h / 2) * rest, (WAD + h) * rest, WAD + h);
      DivOfMul(rest, WAD + h);
      MulMono(f + frac, WAD, frac);
      MulMono(0, f + frac, frac);
      DivMono((f + frac) * frac, frac * WAD, WAD);
      DivOfMul(frac, WAD);
      DivOfMul(rest, WAD);
    }
  }

  lemma FRemoveSteps(frac: nat, n: nat, d: Positive, f: nat, r: nat)
    requires f * d <= n < f * d + d && r * WAD <= (f + frac) * frac < r * WAD + WAD && frac < WAD
    ensures r * WAD * d <= (n + frac * d) * frac < (r + 2) * WAD * d || frac == 0
  {
    Distribute(f, frac, d);
    MulMono((f + frac) * d, n + frac * d, frac);
    assert (f + frac) * d * frac == (f + frac) * frac * d;
    MulMono(r * WAD, (f + frac) * frac, d);
    if frac > 0 {
      assert (n + frac * d) * frac < ((f + frac) * d + d) * frac;
      Distribute((f + frac) * d, d, frac);
      MulMono((f + frac) * frac, r * WAD + WAD, d);
      assert d * frac <= WAD * d by { MulMono(frac, WAD, d); }
      assert (r * WAD + WAD) * d + WAD * d == (r + 2) * WAD * d;
    }
  }

  /** The formula ((1 + h / 2) / (1 + h) * (1 - frac) + frac) * frac, short by less than two units. */
  lemma FRemoveFormula(frac: nat, h: nat)
    requires 0 < frac < WAD
    ensures
      var exact := ((WAD + h / 2) * (WAD - frac) + frac * (WAD + h)) * frac;
      FRemove(frac, h) * WAD * (WAD + h) <= exact < (FRemove(frac, h) + 2) * WAD * (WAD + h)
  {
    Product3(WAD + h / 2, WAD - frac, 1);
    var n: nat, d := (WAD + h / 2) * (WAD - frac), WAD + h;
    var f := Div(n, d);
    MulMono(0, f + frac, frac);
    DivBounds(n, d);
    DivBounds((f + frac) * frac, WAD);
    FRemoveSteps(frac, n, d, f, FRemove(frac, h));
  }

  /** A liquidation repays the most debt that its fraction covers. */
  lemma CalledIsMost(debt: nat, frac: nat, q: nat)
    requires frac <= WAD
    ensures q <= Called(debt, frac) <==> q * WAD <= debt * frac
  {
    Product3(debt, frac, 1);
    FloorIsGreatest(debt * frac, WAD, q);
  }

  /** Only a liquidation of everything takes the whole debt. */
  lemma CalledAll(debt: nat, frac: nat)
    requires frac <= WAD && debt > 0
    ensures Called(debt, frac) == debt <==> frac == WAD
  {
    CalledIsMost(debt, frac, debt);
    if frac < WAD {
      MulMono(frac, WAD - 1, debt);
    }
  }

  // ---------------------------------------------------------------- positions above the active band

  lemma {:induction false} SkipDownAbove(p: Pool, n: int, i: nat, b: int)
    requires Sides(p) && Bounded(p) && i <= MAX_SKIP_TICKS && n == p.active - i
    requires forall c :: c > n ==> Get(p.bandsX, c) == 0
    requires b > SkipDown(p, n, i)
    ensures Get(p.bandsX, b) == 0
    decreases MAX_SKIP_TICKS - i
  {
    if i < MAX_SKIP_TICKS {
      if n < p.minBand {
        assert b < p.minBand ==> BandEmpty(p, b);
      } else if Get(p.bandsX, n) == 0 {
        SkipDownAbove(p, n - 1, i + 1, b);
      }
    }
  }

  /** A position whose first band lies above the (skipped-to) active band holds no borrowed coin. */
  lemma NothingBorrowedAbove(q: Params, p: Pool, user: Address, r: Paid)
    requires q.Valid() && Inv(q, p) && Withdraw(q, p, user, WAD) == Some(r)
    requires FirstBand(p, user) > p.active || FirstBand(p, user) > ActiveWithSkip(p)
    ensures r.x == 0
  {
    hide Payout, Div, WithdrawFrom, Position, Withdraw;
    WithdrawIsLive(q, p, user, WAD);
    WithdrawShape(q, p, user, WAD);
    UserCovered(q, p, user, WAD);
    var n1, taken, w := FirstBand(p, user), TakenOf(SharesOf(p, user), WAD), Draw(q, p, user, WAD).value;
    forall b | n1 <= b < n1 + |taken| ensures Get(p.bandsX, b) == 0 {
      if n1 <= p.active {
        SkipDownAbove(p, p.active, 0, b);
      }
    }
    SumPayoutsOfNone(p.bandsX, p.total, n1, taken);
    WithdrawFromPays(q, StartDrawing(p, n1), n1, taken, w);
    DivOfNone(q.bPrec);
  }

  // ---------------------------------------------------------------- the invariant of the two contracts together

  /** The AMM's and the Controller's own invariants; and whoever owes has liquidity, and the other way round. */
  ghost predicate MarketInv(q: Params, c: Market) {
    && Inv(q, c.pool) && c.rate.time <= c.now && BookInv(c.book, c.rate.mul)
    && forall u :: Live(c.pool, u) <==> Owes(c.book, u)
  }

  lemma LiveAfterDeposit(q: Params, p: Pool, user: Address, amount: nat, n1: int, n2: int, v: Address)
    requires Inv(q, p) && Deposit(q, p, user, amount, n1, n2).Some?
    ensures !Live(p, user)
    ensures Live(Deposit(q, p, user, amount, n1, n2).value, v) <==> Live(p, v) || v == user
  {
    hide PackNumbers, SaveShares;
    var m := MintFor(q, p, amount, n1, n2).value;
    MintForFacts(q, p, amount, n1, n2, m);
    LiveAfterSave(UserOf(p.users, user).slots, m.shares);
  }

  lemma LiveAfterWithdraw(q: Params, p: Pool, user: Address, frac: nat, v: Address)
    requires Inv(q, p) && Withdraw(q, p, user, frac).Some?
    ensures Live(p, user) && frac <= WAD
    ensures Live(Withdraw(q, p, user, frac).value.pool, v) <==> Live(p, v) && (v == user ==> frac < WAD)
  {
    hide Draw, Div;
    WithdrawIsLive(q, p, user, frac);
    WithdrawShape(q, p, user, frac);
    LiveShares(q, p, user);
    EntryAfterShares(UserOf(p.users, user), frac, 0);
  }

  /** A new state of both contracts, reached at the multiplier of the moment. */
  lemma SavedInv(q: Params, c: Market, pool: Pool, book: Book, policy: nat)
    requires c.rate.time <= c.now && Inv(q, pool) && BookInv(book, Mul(c))
    requires forall u :: Live(pool, u) <==> Owes(book, u)
    ensures MarketInv(q, Save(c.(pool := pool, book := book), policy))
  {
    assert q.Valid();
    hide Inv, BookInv, RateMul;
  }

  lemma BookNow(q: Params, c: Market)
    requires MarketInv(q, c)
    ensures BookInv(c.book, Mul(c))
  {
    RateMulGrows(c.rate, c.rate.time, c.now);
    RateMulGrows(c.rate, c.now, c.now);
    InvLater(c.book, c.rate.mul, Mul(c));
  }

  lemma CreateLoanKeepsInv(q: Params, c: Market, user: Address, collateral: nat, debt: nat, bands: nat, n1: int,
                           policy: nat, c': Market)
    requires q.Valid() && MarketInv(q, c) && CreateLoan(q, c, user, collateral, debt, bands, n1, policy) == Some(c')
    ensures MarketInv(q, c')
  {
    hide Inv, BookInv, Deposit, Open, RateMul, Live, Owes;
    BookNow(q, c);
    var book, pool :=
      Open(c.book, user, debt, Mul(c)).value, Deposit(q, c.pool, user, collateral, n1, n1 + bands - 1).value;
    OpenKeepsInv(c.book, user, debt, Mul(c));
    DepositKeepsInv(q, c.pool, user, collateral, n1, n1 + bands - 1);
    forall v ensures Live(pool, v) <==> Owes(book, v) {
      LiveAfterDeposit(q, c.pool, user, collateral, n1, n1 + bands - 1, v);
    }
    SavedInv(q, c, pool, book, policy);
  }

  /** Taking a position out and depositing again leaves the same users with liquidity. */
  lemma RedepositKeepsInv(q: Params, p: Pool, user: Address, collateral: nat, n1: int, n2: int, w: Paid, p': Pool)
    requires q.Valid() && Inv(q, p) && Withdraw(q, p, user, WAD) == Some(w)
    requires Deposit(q, w.pool, user, collateral, n1, n2) == Some(p')
    ensures Inv(q, p') && forall v :: Live(p', v) <==> Live(p, v)
  {
    hide Inv, Deposit, Withdraw, Live;
    WithdrawKeepsInv(q, p, user, WAD);
    DepositKeepsInv(q, w.pool, user, collateral, n1, n2);
    forall v ensures Live(p', v) <==> Live(p, v) {
      LiveAfterWithdraw(q, p, user, WAD, v);
      LiveAfterDeposit(q, w.pool, user, collateral, n1, n2, v);
    }
  }

  lemma AdjustKeepsInv(q: Params, c: Market, user: Address, ch: Change, n1: int, policy: nat, c': Market)
    requires q.Valid() && MarketInv(q, c) && Adjust(q, c, user, ch, n1, policy) == Some(c')
    ensures MarketInv(q, c')
  {
    hide Inv, BookInv, Deposit, Withdraw, Rebase, RateMul, Live, Owes, Span;
    if !Idle(ch) {
      BookNow(q, c);
      var w := Withdraw(q, c.pool, user, WAD).value;
      var collateral := if ch.RemoveCollateral? then w.y - ch.collateral else w.y + ch.collateral;
      RebaseKeepsInv(c.book, user, Borrowed(ch), Mul(c));
      RedepositKeepsInv(q, c.pool, user, collateral, n1, n1 + Span(c.pool, user), w, c'.pool);
      SavedInv(q, c, c'.pool, c'.book, policy);
    }
  }

  /** A position that is moved lies above the active band, so no borrowed coin is left behind in the AMM. */
  lemma MoveKeepsInv(q: Params, p: Pool, user: Address, collateral: nat, n1: int, w: Paid, p': Pool)
    requires q.Valid() && Inv(q, p) && Withdraw(q, p, user, WAD) == Some(w)
    requires FirstBand(p, user) > p.active || FirstBand(p, user) > ActiveWithSkip(p)
    requires Move(q, p, user, w, collateral, n1) == Some(p')
    ensures w.x == 0 && Inv(q, p') && forall v :: Live(p', v) <==> Live(p, v)
  {
    hide Inv, Deposit, Withdraw, Live, Span, ActiveWithSkip, FirstBand;
    NothingBorrowedAbove(q, p, user, w);
    assert w.pool.(heldX := w.pool.heldX + 0) == w.pool;
    RedepositKeepsInv(q, p, user, collateral, n1, n1 + Span(p, user), w, p');
  }

  lemma RepayMovesKeepInv(q: Params, p: Pool, user: Address, full: bool, r: Repayer)
    requires Inv(q, p) && RepayMoves(q, p, user, full, r).Some?
    ensures
      var p' := RepayMoves(q, p, user, full, r).value;
      Inv(q, p') && forall v :: Live(p', v) <==> Live(p, v) && (v == user ==> !full)
  {
    assert q.Valid();
    hide Inv, Deposit, Withdraw, Live, Span, Move, ActiveWithSkip, FirstBand;
    var p' := RepayMoves(q, p, user, full, r).value;
    if full {
      WithdrawKeepsInv(q, p, user, WAD);
      forall v ensures Live(p', v) <==> Live(p, v) && v != user {
        LiveAfterWithdraw(q, p, user, WAD, v);
      }
    } else if FirstBand(p, user) > ActiveWithSkip(p) {
      MoveKeepsInv(q, p, user, Withdraw(q, p, user, WAD).value.y, r.n1, Withdraw(q, p, user, WAD).value, p');
    }
  }

  /** Book and AMM drop a borrower together, exactly when the debt is repaid in full. */
  lemma PaidInv(q: Params, c: Market, pool: Pool, user: Address, d: nat, policy: nat)
    requires MarketInv(q, c) && Owes(c.book, user) && d <= DebtNow(c.book, user, Mul(c)) && Inv(q, pool)
    requires forall v :: Live(pool, v) <==> Live(c.pool, v) && (v == user ==> d < DebtNow(c.book, user, Mul(c)))
    ensures PayDown(c.book, user, d, Mul(c)).Some?
    ensures MarketInv(q, Save(c.(pool := pool, book := PayDown(c.book, user, d, Mul(c)).value), policy))
  {
    assert q.Valid();
    hide Inv, BookInv, PayDown, RateMul, Live, Owes, DebtNow;
    BookNow(q, c);
    PayDownKeepsInv(c.book, user, d, Mul(c));
    SavedInv(q, c, pool, PayDown(c.book, user, d, Mul(c)).value, policy);
  }

  lemma RepayKeepsInv(q: Params, c: Market, user: Address, amount: nat, r: Repayer, policy: nat, c': Market)
    requires q.Valid() && MarketInv(q, c) && Repay(q, c, user, amount, r, policy) == Some(c')
    ensures MarketInv(q, c')
  {
    hide Inv, BookInv, PayDown, RateMul, Live, Owes, DebtNow, RepayMoves;
    if amount != 0 {
      var debt := DebtNow(c.book, user, Mul(c));
      var d := Min(debt, amount);
      BookNow(q, c);
      OwesMeansDebt(c.book, user, Mul(c), Mul(c));
      RepayMovesKeepInv(q, c.pool, user, d == debt, r);
      PaidInv(q, c, RepayMoves(q, c.pool, user, d == debt, r).value, user, d, policy);
    }
  }

  lemma LiveOwes(q: Params, c: Market, user: Address, frac: nat)
    requires MarketInv(q, c) && Withdraw(q, c.pool, user, frac).Some?
    ensures Owes(c.book, user) && DebtNow(c.book, user, Mul(c)) > 0
  {
    assert q.Valid();
    hide Inv, BookInv, Withdraw, RateMul, Live, Owes, DebtNow;
    LiveAfterWithdraw(q, c.pool, user, frac, user);
    BookNow(q, c);
    OwesMeansDebt(c.book, user, Mul(c), Mul(c));
  }

  lemma RepayExtendedKeepsInv(q: Params, c: Market, user: Address, cbStable: nat, cbCollateral: nat, n1: int,
                              policy: nat, c': Market)
    requires q.Valid() && MarketInv(q, c) && RepayExtended(q, c, user, cbStable, cbCollateral, n1, policy) == Some(c')
    ensures MarketInv(q, c')
  {
    hide Inv, BookInv, PayDown, RateMul, Live, Owes, DebtNow, Withdraw, Move, FirstBand;
    var w, debt := Withdraw(q, c.pool, user, WAD).value, DebtNow(c.book, user, Mul(c));
    LiveOwes(q, c, user, WAD);
    if cbStable + w.x >= debt {
      WithdrawKeepsInv(q, c.pool, user, WAD);
      forall v ensures Live(w.pool, v) <==> Live(c.pool, v) && v != user {
        LiveAfterWithdraw(q, c.pool, user, WAD, v);
      }
      PaidInv(q, c, w.pool, user, debt, policy);
    } else {
      MoveKeepsInv(q, c.pool, user, cbCollateral, n1, w, Move(q, c.pool, user, w, cbCollateral, n1).value);
      PaidInv(q, c, Move(q, c.pool, user, w, cbCollateral, n1).value, user, cbStable, policy);
    }
  }

  /** A partial liquidation leaves both a debt and a live position; a full one neither. */
  lemma LiquidateKeepsInv(q: Params, c: Market, user: Address, l: Liquidator, policy: nat, c': Market)
    requires q.Valid() && MarketInv(q, c) && Liquidate(q, c, user, l, policy) == Some(c')
    ensures MarketInv(q, c')
  {
    hide Inv, BookInv, PayDown, RateMul, Live, Owes, DebtNow, Withdraw, FRemove, Called;
    var frac, debt := Min(l.frac, WAD), DebtNow(c.book, user, Mul(c));
    var f, repaid := FRemove(frac, l.h), Called(debt, frac);
    var w := Withdraw(q, c.pool, user, f).value;
    LiveOwes(q, c, user, f);
    FRemoveWithin(frac, l.h);
    CalledAll(debt, frac);
    WithdrawKeepsInv(q, c.pool, user, f);
    forall v ensures Live(w.pool, v) <==> Live(c.pool, v) && (v == user ==> repaid < debt) {
      LiveAfterWithdraw(q, c.pool, user, f, v);
    }
    PaidInv(q, c, w.pool, user, repaid, policy);
  }

  lemma CollectFeesKeepsInv(q: Params, c: Market, policy: nat, c': Market)
    requires q.Valid() && MarketInv(q, c) && CollectFees(c, policy) == Some(c')
    ensures MarketInv(q, c')
  {
    hide Inv, BookInv, Collect, RateMul, Owes;
    BookNow(q, c);
    TakeFeesKeepsInv(q, c.pool);
    CollectKeepsInv(c.book, Mul(c));
    var pool, book := TakeFees(c.pool).value, Collect(c.book, Mul(c)).value;
    forall v ensures Live(pool, v) <==> Owes(book, v) {
      assert Live(pool, v) <==> Live(c.pool, v);
    }
    SavedInv(q, c, pool, book, policy);
  }
}
