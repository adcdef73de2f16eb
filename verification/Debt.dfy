/** Debts rebased by the rate multiplier: single loans rounded up, a lone loan and the total rounded down. */
module Debt {
  import opened Numbers

  /** A debt of `initial` recorded when the multiplier was `mul`. */
  datatype Loan = Loan(initial: nat, mul: Positive)

  /** The exact value of a loan in units of the multiplier. */
  ghost function Value(l: Loan): real {
    Ratio(l.initial, l.mul)
  }

  /** `_debt`: rounded up when there are several loans, down when there is only one. */
  function DebtAt(l: Loan, m: Positive, nLoans: nat): nat
  {
    if l.initial == 0 then 0 else
      var debt := l.initial * m;
      if debt % l.mul > 0 && nLoans > 1 then Div(debt + l.mul, l.mul) else Div(debt, l.mul)
  }

  /** `total_debt`. */
  function TotalAt(t: Loan, m: Positive): nat
  {
    Div(t.initial * m, t.mul)
  }

  /** The total after `d` was borrowed. */
  function Raise(t: Loan, d: nat, m: Positive): Loan
  {
    Loan(TotalAt(t, m) + d, m)
  }

  /** The total after `d` was repaid; it stops at zero. */
  function Lower(t: Loan, d: nat, m: Positive): Loan
  {
    Loan(Max(TotalAt(t, m), d) - d, m)
  }

  // ---------------------------------------------------------------- rounding

  /** A debt is rounded up among several loans and down for a lone one; the total is rounded down. */
  lemma DebtRounds(l: Loan, m: Positive, nLoans: nat)
    ensures if nLoans > 1 then IsCeil(DebtAt(l, m, nLoans), l.initial * m, l.mul)
            else IsFloor(DebtAt(l, m, nLoans), l.initial * m, l.mul)
    ensures IsFloor(TotalAt(l, m), l.initial * m, l.mul)
  {
    MulMono(0, l.initial, m);
    QuotientRounds(l.initial * m, l.mul);
  }

  lemma QuotientRounds(n: nat, d: Positive)
    ensures IsFloor(Div(n, d), n, d)
    ensures n % d > 0 ==> IsCeil(Div(n + d, d), n, d)
    ensures n % d == 0 ==> IsCeil(Div(n, d), n, d)
  {
    var k, r := n / d, n % d;
    DivBounds(n, d);
    assert n == k * d + r;
    NextQuotient(n, d);
    Distribute(k, 1, d);
  }

  lemma NextQuotient(n: nat, d: Positive)
    ensures (n + d) / d == n / d + 1
  {
    DivBounds(n, d);
    Distribute(n / d, 1, d);
    DivLower(n + d, d, n / d + 1);
    Distribute(n / d, 2, d);
    DivUpper(n + d, d, n / d + 1);
  }

  /** What is recorded at a multiplier is owed at that multiplier, however many loans there are. */
  lemma DebtFresh(d: nat, m: Positive, nLoans: nat)
    ensures DebtAt(Loan(d, m), m, nLoans) == d && TotalAt(Loan(d, m), m) == d
  {
    DivOfMul(d, m);
    assert d * m % m == 0;
  }

  // ---------------------------------------------------------------- values

  lemma ValueOrder(l: Loan, k: Loan)
    ensures Value(l) <= Value(k) <==> l.initial * k.mul <= k.initial * l.mul
  {
    RatioOrder(l.initial, l.mul, k.initial, k.mul);
  }

  lemma ValueNonNeg(l: Loan)
    ensures Value(l) >= 0.0
  {
  }

  /** At one multiplier, values add up. */
  lemma ValueSum(a: nat, b: nat, m: Positive)
    ensures Value(Loan(a + b, m)) == Value(Loan(a, m)) + Value(Loan(b, m))
  {
  }

  /** Rounding a debt down never raises its value. */
  lemma FloorValue(l: Loan, m: Positive)
    ensures Value(Loan(Div(l.initial * m, l.mul), m)) <= Value(l)
  {
    DivBounds(l.initial * m, l.mul);
    ValueOrder(Loan(Div(l.initial * m, l.mul), m), l);
  }

  /** Rebasing a loan among several never lowers its value. */
  lemma CeilValue(l: Loan, m: Positive, nLoans: nat)
    requires l.initial > 0 && (nLoans > 1 || l.initial * m % l.mul == 0)
    ensures Value(l) <= Value(Loan(DebtAt(l, m, nLoans), m))
  {
    var debt := l.initial * m;
    DivBounds(debt, l.mul);
    DivBounds(debt + l.mul, l.mul);
    if debt % l.mul == 0 {
      assert debt / l.mul * l.mul == debt;
    }
    ValueOrder(l, Loan(DebtAt(l, m, nLoans), m));
  }

  /** Floors of ordered values are ordered. */
  lemma FloorOrder(t: Loan, l: Loan, m: Positive)
    requires Value(t) <= Value(l)
    ensures Div(t.initial * m, t.mul) <= Div(l.initial * m, l.mul)
  {
    hide Div, Value;
    ValueOrder(t, l);
    ScaleRatios(t.initial, t.mul, l.initial, l.mul, m);
    FloorOfRatios(t.initial * m, t.mul, l.initial * m, l.mul);
  }

  /** The total never exceeds `rest` plus the loan after borrowing d on the loan, whichever way the loan was rounded. */
  lemma RaiseBound(t: Loan, l: Loan, d: nat, m: Positive, nLoans: nat, rest: real)
    requires l.initial > 0 && rest >= 0.0
    requires Value(t) <= rest + Value(l) && (nLoans <= 1 ==> rest == 0.0)
    ensures Value(Raise(t, d, m)) <= rest + Value(Loan(DebtAt(l, m, nLoans) + d, m))
  {
    var debt := DebtAt(l, m, nLoans);
    ValueSum(TotalAt(t, m), d, m);
    ValueSum(debt, d, m);
    if nLoans > 1 {
      FloorValue(t, m);
      CeilValue(l, m, nLoans);
    } else {
      FloorOrder(t, l, m);
      ValueOrder(Loan(TotalAt(t, m), m), Loan(debt, m));
      MulMono(TotalAt(t, m), debt, m);
    }
  }

  /** The same after repaying d; closing a lone loan closes the total. */
  lemma LowerBound(t: Loan, l: Loan, d: nat, m: Positive, nLoans: nat, rest: real)
    requires l.initial > 0 && rest >= 0.0
    requires Value(t) <= rest + Value(l) && (nLoans <= 1 ==> rest == 0.0)
    requires d <= DebtAt(l, m, nLoans)
    ensures Value(Lower(t, d, m)) <= rest + Value(Loan(DebtAt(l, m, nLoans) - d, m))
  {
    var debt := DebtAt(l, m, nLoans);
    ValueSum(debt - d, d, m);
    if TotalAt(t, m) >= d {
      ValueSum(TotalAt(t, m) - d, d, m);
      if nLoans > 1 {
        FloorValue(t, m);
        CeilValue(l, m, nLoans);
      } else {
        FloorOrder(t, l, m);
        ValueOrder(Loan(TotalAt(t, m), m), Loan(debt, m));
        MulMono(TotalAt(t, m), debt, m);
      }
    }
  }

  /** With one loan left and the total within it, repaying that loan in full leaves a total of exactly zero. */
  lemma LastLoanClosesTotal(t: Loan, l: Loan, m: Positive)
    requires l.initial > 0 && Value(t) <= Value(l)
    ensures Lower(t, DebtAt(l, m, 1), m).initial == 0
  {
    FloorOrder(t, l, m);
  }

  /** The total that repaying a lone loan in full leaves at multiplier m. */
  function LeftAfter(t: Loan, l: Loan, m: Positive): nat {
    Lower(t, DebtAt(l, m, 1), m).initial
  }

  /** Some later multiplier shows in whole units what the total has beyond the loan. */
  lemma ExcessShows(t: Loan, l: Loan, m: Positive)
    requires l.initial > 0 && Value(l) < Value(t)
    ensures m * (l.mul * t.mul) >= m && LeftAfter(t, l, m * (l.mul * t.mul)) > 0
  {
    var d, e, x, y := t.mul, l.mul, t.initial, l.initial;
    ValueOrder(t, l);
    MulMono(1, d, e);
    MulMono(1, e * d, m);
    MulMono(y * d + 1, x * e, m);
    assert x * (m * (e * d)) == x * e * m * d && y * (m * (e * d)) == y * d * m * e;
    DivOfMul(x * e * m, d);
    DivOfMul(y * d * m, e);
    assert (y * d + 1) * m == y * d * m + m;
    assert (y * d * m * e) % e == 0 by { RemainderOfMul(y * d * m, e); }
  }

  lemma RemainderOfMul(q: int, d: Positive)
    ensures q * d % d == 0
  {
    DivOfMul(q, d);
  }

  /**
   * Repaying the only loan in full leaves no total debt, now and whenever it is done, exactly when the total is within
   * it.
   */
  lemma LastLoanClosesTotalExactly(t: Loan, l: Loan, m: Positive)
    requires l.initial > 0
    ensures (forall m': Positive :: m <= m' ==> LeftAfter(t, l, m') == 0) <==> Value(t) <= Value(l)
  {
    if Value(t) <= Value(l) {
      forall m': Positive | m <= m' ensures LeftAfter(t, l, m') == 0 {
        LastLoanClosesTotal(t, l, m');
      }
    } else {
      ExcessShows(t, l, m);
      assert LeftAfter(t, l, m * (l.mul * t.mul)) > 0;
    }
  }

  // ---------------------------------------------------------------- collateral-only steps

  /**
   * A step that only moves collateral rebases the loan but not the total. Repaying the only loan in full afterwards
   * leaves no total debt, whenever it is done, exactly when the total is within the rounded debt: a test on what is
   * stored before the step.
   */
  lemma CollateralStepKeepsBound(t: Loan, l: Loan, m: Positive)
    requires l.initial > 0 && DebtAt(l, m, 1) > 0
    ensures
      var rebased := Loan(DebtAt(l, m, 1), m);
      && (Value(t) <= Value(rebased) <==> t.initial * m <= DebtAt(l, m, 1) * t.mul)
      && ((forall m': Positive :: m <= m' ==> LeftAfter(t, rebased, m') == 0)
          <==> t.initial * m <= DebtAt(l, m, 1) * t.mul)
  {
    hide Value, DebtAt, LeftAfter;
    ValueOrder(t, Loan(DebtAt(l, m, 1), m));
    LastLoanClosesTotalExactly(t, Loan(DebtAt(l, m, 1), m), m);
  }

  /** For a total that is exactly the loan, the test says that the debt was not rounded. */
  lemma CollateralStepWithoutRounding(t: Loan, l: Loan, m: Positive)
    requires l.initial > 0 && Value(t) == Value(l)
    ensures t.initial * m <= DebtAt(l, m, 1) * t.mul <==> l.initial * m % l.mul == 0
  {
    ValueOrder(t, Loan(DebtAt(l, m, 1), m));
    DivBounds(l.initial * m, l.mul);
    ValueOrder(l, Loan(DebtAt(l, m, 1), m));
    if l.initial * m % l.mul == 0 {
      assert l.initial * m / l.mul * l.mul == l.initial * m;
    } else {
      assert l.initial * m == l.initial * m / l.mul * l.mul + l.initial * m % l.mul;
    }
  }

  /**
   * Such a step: 10 borrowed at 1.0, collateral moved at 1.05, all repaid at 1.1; a total debt of 1 outlives its only
   * loan.
   */
  lemma CollateralStepLeavesDebt()
    ensures
      var m0, m1, m2 := WAD, WAD + WAD / 20, WAD + WAD / 10;
      var loan, total := Loan(10, m0), Raise(Loan(0, m0), 10, m0);
      var rebased := Loan(DebtAt(loan, m1, 1), m1);
      DebtAt(rebased, m2, 1) == 10 && Lower(total, DebtAt(rebased, m2, 1), m2) == Loan(1, m2)
  {
  }

  // ---------------------------------------------------------------- the interest books

  /** Total debt plus what was repaid never falls when d is repaid, nor with a growing multiplier. */
  lemma TotalGrows(t: Loan, m: Positive, m': Positive)
    requires m <= m'
    ensures TotalAt(t, m) <= TotalAt(t, m')
  {
    MulMono(m, m', t.initial);
    DivMono(t.initial * m, t.initial * m', t.mul);
  }

  lemma TotalNow(a: nat, m: Positive)
    ensures TotalAt(Loan(a, m), m) == a
  {
    DivOfMul(a, m);
  }
}
