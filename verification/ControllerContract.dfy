/**
 * The Controller as a contract over its AMM. A call that returns `ok == false` has reverted: the EVM then discards
 * every write of the call, so nothing is promised about the fields in that case.
 */
module ControllerContract {
  import opened Numbers
  import opened Ledger
  import opened Ticks
  import opened Debt
  import opened AmmPool
  import opened PriceOracle
  import opened DebtBook
  import opened Lending
  import opened AmmContract

  class Controller {
    const amm: Amm
    var loan: map<Address, Loan>
    var totalDebt: Loan
    var loans: map<nat, Address>
    var loanIx: map<Address, nat>
    var nLoans: nat
    var minted: nat
    var redeemed: nat
    var funds: nat // the balance that the borrowed token keeps for the Controller

    constructor (amm: Amm)
      ensures this.amm == amm && BookState() == Book(map[], NO_LOAN, map[], map[], 0, 0, 0, 0)
    {
      this.amm := amm;
      loan, totalDebt, loans, loanIx, nLoans := map[], NO_LOAN, map[], map[], 0;
      minted, redeemed, funds := 0, 0, 0;
    }

    ghost function BookState(): Book
      reads this
    {
      Book(loan, totalDebt, loans, loanIx, nLoans, minted, redeemed, funds)
    }

    ghost function State(now: nat): Market
      reads this, amm
    {
      Market(amm.State(), BookState(), amm.RateState(), now)
    }

    ghost predicate Ready(now: nat)
      reads amm
    {
      amm.params.Valid() && amm.rateTime <= now
    }

    // -------------------------------------------------------------- views

    /** `_debt`. */
    method DebtOf(user: Address, now: nat) returns (debt: nat, mul: Positive)
      requires amm.rateTime <= now
      ensures mul == Mul(State(now)) && debt == DebtNow(BookState(), user, mul)
    {
      mul := amm.GetRateMul(now);
      var l := LoanOf(loan, user);
      if l.initial == 0 {
        debt := 0;
      } else {
        debt := l.initial * mul;
        if debt % l.mul > 0 {
          if nLoans > 1 {
            debt := debt + l.mul;
          }
        }
        debt := Div(debt, l.mul);
      }
    }

    /** `total_debt`. */
    method TotalDebt(now: nat) returns (debt: nat)
      requires amm.rateTime <= now
      ensures debt == TotalAt(totalDebt, Mul(State(now)))
    {
      var mul := amm.GetRateMul(now);
      debt := Div(totalDebt.initial * mul, totalDebt.mul);
    }

    /** `admin_fees`. */
    method Interest(now: nat) returns (fees: nat)
      requires amm.rateTime <= now
      ensures fees == AdminFees(BookState(), Mul(State(now)))
    {
      var debt := TotalDebt(now);
      fees := Max(debt + redeemed, minted) - minted;
    }

    // -------------------------------------------------------------- parts of the calls

    /** `_save_rate`. */
    method SaveRate(policy: nat, now: nat)
      requires amm.rateTime <= now
      modifies amm`rateMul, amm`rate, amm`rateTime
      ensures State(now) == Save(old(State(now)), policy)
    {
      var _ := amm.SetRate(Min(policy, MAX_RATE), now);
    }

    /** `_remove_from_list`. */
    method RemoveFromList(user: Address) returns (ok: bool)
      modifies this`loans, this`loanIx, this`nLoans
      ensures ok == Unlist(old(BookState()), user).Some?
      ensures ok ==> BookState() == Unlist(old(BookState()), user).value
    {
      if nLoans == 0 {
        return false;
      }
      var last, ix := nLoans - 1, Get(loanIx, user);
      if Get(loans, ix) != user {
        return false;
      }
      loanIx := loanIx[user := 0];
      if ix < last {
        var lastLoan := Get(loans, last);
        loans := loans[ix := lastLoan];
        loanIx := loanIx[lastLoan := ix];
      }
      nLoans := last;
      return true;
    }

    /** The end of every repayment: the loan, the books and the total debt; a loan repaid in full leaves the list. */
    method BookRepayment(user: Address, debt: nat, d: nat, mul: Positive) returns (ok: bool)
      requires d <= debt == DebtNow(BookState(), user, mul)
      modifies this`loan, this`totalDebt, this`loans, this`loanIx, this`nLoans, this`redeemed, this`funds
      ensures ok == PayDown(old(BookState()), user, d, mul).Some?
      ensures ok ==> BookState() == PayDown(old(BookState()), user, d, mul).value
    {
      hide DebtNow, Unlist;
      funds := funds + d;
      redeemed := redeemed + d;
      loan := loan[user := Loan(debt - d, mul)];
      var total := Div(totalDebt.initial * mul, totalDebt.mul);
      totalDebt := Loan(Max(total, d) - d, mul);
      assert BookState() == DebtBook.Paid(old(BookState()), user, d, mul);
      ok := true;
      if debt - d == 0 {
        ok := RemoveFromList(user);
      }
    }

    /** The bookkeeping of `_create_loan`. */
    method BookLoan(user: Address, debt: nat, mul: Positive) returns (ok: bool)
      modifies this`loan, this`totalDebt, this`loans, this`loanIx, this`nLoans, this`minted, this`funds
      ensures ok == Open(old(BookState()), user, debt, mul).Some?
      ensures ok ==> BookState() == Open(old(BookState()), user, debt, mul).value
    {
      hide Div;
      if LoanOf(loan, user).initial != 0 || debt == 0 || debt > funds {
        return false;
      }
      loan := loan[user := Loan(debt, mul)];
      loans := loans[nLoans := user];
      loanIx := loanIx[user := nLoans];
      nLoans := nLoans + 1;
      totalDebt := Loan(Div(totalDebt.initial * mul, totalDebt.mul) + debt, mul);
      minted := minted + debt;
      funds := funds - debt;
      return true;
    }

    // -------------------------------------------------------------- calls

    /** `_create_loan`. */
    method CreateLoan(user: Address, collateral: nat, debt: nat, bands: nat, n1: int, policy: nat,
                      now: nat) returns (ok: bool)
      requires Ready(now)
      modifies this`loan, this`totalDebt, this`loans, this`loanIx, this`nLoans, this`minted, this`funds, amm
      ensures
        var r := Lending.CreateLoan(amm.params, old(State(now)), user, collateral, debt, bands, n1, policy);
        ok == r.Some? && (ok ==> State(now) == r.value)
    {
      hide AmmPool.Deposit, RateMul, Open;
      ghost var c := State(now);
      var mul := amm.GetRateMul(now);
      ok := MIN_TICKS <= bands <= MAX_TICKS;
      if ok {
        ok := BookLoan(user, debt, mul);
      }
      if ok {
        ok := amm.DepositRange(user, collateral, n1, n1 + bands - 1);
      }
      if ok {
        assert State(now) == c.(pool := amm.State(), book := BookState());
        SaveRate(policy, now);
      }
    }

    /** The bookkeeping of `_add_collateral_borrow`. */
    method BookChange(user: Address, debt: nat, d: nat, mul: Positive) returns (ok: bool)
      requires debt == DebtNow(BookState(), user, mul)
      modifies this`loan, this`totalDebt, this`minted, this`funds
      ensures ok == Rebase(old(BookState()), user, d, mul).Some?
      ensures ok ==> BookState() == Rebase(old(BookState()), user, d, mul).value
    {
      hide Div, DebtNow;
      if debt == 0 || d > funds {
        return false;
      }
      loan := loan[user := Loan(debt + d, mul)];
      if d != 0 {
        totalDebt := Loan(Div(totalDebt.initial * mul, totalDebt.mul) + d, mul);
      }
      minted := minted + d;
      funds := funds - d;
      return true;
    }

    /** `add_collateral`, `remove_collateral` and `borrow_more`, all through `_add_collateral_borrow`. */
    method AddCollateralBorrow(user: Address, ch: Change, n1: int, policy: nat, now: nat) returns (ok: bool)
      requires Ready(now)
      modifies this`loan, this`totalDebt, this`minted, this`funds, amm
      ensures
        var r := Adjust(amm.params, old(State(now)), user, ch, n1, policy);
        ok == r.Some? && (ok ==> State(now) == r.value)
    {
      hide AmmPool.Deposit, AmmPool.Withdraw, RateMul, Rebase, DebtNow, UserOf;
      if Idle(ch) {
        return true;
      }
      ghost var c := State(now);
      var debt, mul := DebtOf(user, now);
      var first, last := amm.ReadUserTickNumbers(user);
      var booked := BookChange(user, debt, Borrowed(ch), mul);
      if !booked {
        return false;
      }
      var withdrawn, x, y := amm.Withdraw(user, WAD);
      if !withdrawn || x != 0 || (ch.RemoveCollateral? && ch.collateral > y) {
        return false;
      }
      var collateral: nat := if ch.RemoveCollateral? then y - ch.collateral else y + ch.collateral;
      ok := amm.DepositRange(user, collateral, n1, n1 + (last - first));
      if ok {
        assert State(now) == c.(pool := amm.State(), book := BookState());
        SaveRate(policy, now);
      }
    }

    /** Deposit a withdrawn position again, at other bands. */
    method Redeposit(user: Address, x: nat, collateral: nat, n1: int, n2: int) returns (ok: bool)
      requires amm.params.Valid()
      modifies amm
      ensures amm.RateState() == old(amm.RateState())
      ensures
        var r := AmmPool.Deposit(amm.params, old(amm.State()).(heldX := old(amm.heldX) + x), user, collateral, n1, n2);
        ok == r.Some? && (ok ==> amm.State() == r.value)
    {
      hide AmmPool.Deposit;
      amm.heldX := amm.heldX + x;
      ok := amm.DepositRange(user, collateral, n1, n2);
    }

    /** The AMM's part of `repay`. */
    method RepayPosition(user: Address, full: bool, r: Repayer) returns (ok: bool)
      requires amm.params.Valid()
      modifies amm
      ensures amm.RateState() == old(amm.RateState())
      ensures
        var p := RepayMoves(amm.params, old(amm.State()), user, full, r);
        ok == p.Some? && (ok ==> amm.State() == p.value)
    {
      hide AmmPool.Deposit, AmmPool.Withdraw, ActiveWithSkip, UserOf;
      if full {
        var withdrawn, x, _ := amm.Withdraw(user, WAD);
        return withdrawn && (x == 0 || r.sender == user);
      }
      var active := amm.ActiveBandWithSkip();
      if active > r.maxActive || (r.sender != user && !r.healthy) {
        return false;
      }
      var first, last := amm.ReadUserTickNumbers(user);
      if first <= active {
        return true;
      }
      var withdrawn, x, y := amm.Withdraw(user, WAD);
      ok := withdrawn;
      if ok {
        ok := Redeposit(user, x, y, r.n1, r.n1 + (last - first));
      }
    }

    /** `repay`. */
    method Repay(user: Address, amount: nat, r: Repayer, policy: nat, now: nat) returns (ok: bool)
      requires Ready(now)
      modifies this`loan, this`totalDebt, this`loans, this`loanIx, this`nLoans, this`redeemed, this`funds, amm
      ensures
        var p := Lending.Repay(amm.params, old(State(now)), user, amount, r, policy);
        ok == p.Some? && (ok ==> State(now) == p.value)
    {
      hide RateMul, DebtNow, RepayMoves, PayDown;
      if amount == 0 {
        return true;
      }
      ghost var c := State(now);
      var debt, mul := DebtOf(user, now);
      if debt == 0 {
        return false;
      }
      var d := Min(debt, amount);
      ok := RepayPosition(user, d == debt, r);
      if ok {
        ok := BookRepayment(user, debt, d, mul);
      }
      if ok {
        assert State(now) == c.(pool := amm.State(), book := BookState());
        SaveRate(policy, now);
      }
    }

    /** `repay_extended`; the callback has delivered `cbStable` and `cbCollateral`. */
    method RepayExtended(user: Address, cbStable: nat, cbCollateral: nat, n1: int, policy: nat,
                         now: nat) returns (ok: bool)
      requires Ready(now)
      modifies this`loan, this`totalDebt, this`loans, this`loanIx, this`nLoans, this`redeemed, this`funds, amm
      ensures
        var r := Lending.RepayExtended(amm.params, old(State(now)), user, cbStable, cbCollateral, n1, policy);
        ok == r.Some? && (ok ==> State(now) == r.value)
    {
      hide AmmPool.Deposit, AmmPool.Withdraw, RateMul, DebtNow, PayDown, UserOf;
      ghost var c := State(now);
      var first, last := amm.ReadUserTickNumbers(user);
      var withdrawn, x, _ := amm.Withdraw(user, WAD);
      if !withdrawn {
        return false;
      }
      var debt, mul := DebtOf(user, now);
      var total := cbStable + x;
      if total == 0 {
        return false;
      }
      var d := cbStable;
      if total >= debt {
        d := debt;
      } else {
        if first <= amm.activeBand {
          return false;
        }
        ok := Redeposit(user, x, cbCollateral, n1, n1 + (last - first));
        if !ok {
          return false;
        }
      }
      ok := BookRepayment(user, debt, d, mul);
      if ok {
        assert State(now) == c.(pool := amm.State(), book := BookState());
        SaveRate(policy, now);
      }
    }

    /** `_get_f_remove`. */
    method GetFRemove(frac: nat, healthLimit: nat) returns (fRemove: nat)
      ensures fRemove == FRemove(frac, healthLimit)
    {
      fRemove := WAD;
      if frac < WAD {
        Product3(WAD + healthLimit / 2, WAD - frac, 1);
        fRemove := Div((WAD + healthLimit / 2) * (WAD - frac), WAD + healthLimit);
        MulMono(0, fRemove + frac, frac);
        fRemove := Div((fRemove + frac) * frac, WAD);
      }
    }

    /** The part of the debt that `_liquidate` calls in. */
    method CallIn(debt: nat, frac: nat) returns (repaid: nat)
      requires frac <= WAD
      ensures repaid == Called(debt, frac)
    {
      Product3(debt, frac, 1);
      repaid := Div(debt * frac, WAD);
    }

    /** `_liquidate`. */
    method Liquidate(user: Address, l: Liquidator, policy: nat, now: nat) returns (ok: bool)
      requires Ready(now)
      modifies this`loan, this`totalDebt, this`loans, this`loanIx, this`nLoans, this`redeemed, this`funds, amm
      ensures
        var r := Lending.Liquidate(amm.params, old(State(now)), user, l, policy);
        ok == r.Some? && (ok ==> State(now) == r.value)
    {
      hide AmmPool.Withdraw, RateMul, DebtNow, PayDown, FRemove, Called;
      ghost var c := State(now);
      var debt, mul := DebtOf(user, now);
      var frac := Min(l.frac, WAD);
      var repaid := CallIn(debt, frac);
      if (l.h != 0 && !l.rekt) || repaid == 0 {
        return false;
      }
      var fRemove := GetFRemove(frac, l.h);
      var withdrawn, x, _ := amm.Withdraw(user, fRemove);
      if !withdrawn || x < l.minX {
        return false;
      }
      if repaid > x && l.proceeds < repaid - x {
        return false;
      }
      ok := BookRepayment(user, debt, repaid, mul);
      if ok {
        assert State(now) == c.(pool := amm.State(), book := BookState());
        SaveRate(policy, now);
      }
    }

    /** The interest part of `collect_fees`. */
    method BookInterest(now: nat) returns (ok: bool, fees: nat)
      requires amm.rateTime <= now
      modifies this`totalDebt, this`minted, this`funds
      ensures
        var r := Collect(old(BookState()), old(Mul(State(now))));
        ok == r.Some? && (ok ==> BookState() == r.value && fees == AdminFees(old(BookState()), old(Mul(State(now)))))
    {
      hide Div, RateMul;
      var mul := amm.GetRateMul(now);
      var debt := Div(totalDebt.initial * mul, totalDebt.mul);
      totalDebt := Loan(debt, mul);
      var toBeRedeemed := debt + redeemed;
      fees := 0;
      if toBeRedeemed > minted {
        fees := toBeRedeemed - minted;
        if fees > funds {
          return false, 0;
        }
        minted := toBeRedeemed;
        funds := funds - fees;
      }
      ok := true;
    }

    /** `collect_fees`. */
    method CollectFees(policy: nat, now: nat) returns (ok: bool, fees: nat)
      requires Ready(now)
      modifies this`totalDebt, this`minted, this`funds, amm
      ensures
        var r := Lending.CollectFees(old(State(now)), policy);
        ok == r.Some? && (ok ==> State(now) == r.value && fees == AdminFees(old(BookState()), old(Mul(State(now)))))
    {
      hide RateMul, Collect, AdminFees;
      ghost var c := State(now);
      fees := 0;
      var taken, _, _ := amm.ResetAdminFees();
      ok := taken;
      if ok {
        ok, fees := BookInterest(now);
      }
      if ok {
        assert State(now) == c.(pool := amm.State(), book := BookState());
        SaveRate(policy, now);
      }
    }
  }
}
