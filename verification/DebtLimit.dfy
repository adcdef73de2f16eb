/**
 * How much may be borrowed against a deposit, and the first band it goes to: `get_y_effective` and
 * `_calculate_debt_n1` of the Controller. Logarithms and prices of bands are arguments.
 */
module DebtLimit {
  import opened Numbers
  import opened Ticks
  import opened BandShares

  const MAX_LOAN_DISCOUNT: nat := 500_000_000_000_000_000
  const MAX_SKIP: nat := 1024

  /** Set at deployment: A and the square root of A / (A - 1); and the discount of a loan. */
  datatype Terms = Terms(a: nat, sqrtRatio: Positive, discount: nat) {
    ghost predicate Valid() {
      a >= 2 && sqrtRatio <= 2 * WAD && discount <= MAX_LOAN_DISCOUNT
    }
  }

  // ---------------------------------------------------------------- the discounted deposit

  /** The discount for what dead shares may take of a band. */
  function DeadDiscount(collateral: nat, n: Positive): nat {
    Div(DEAD_SHARES * WAD, Max(Div(collateral, n), DEAD_SHARES))
  }

  /** What the discounts leave of one whole. */
  function Kept(l: Terms, collateral: nat, n: Positive): nat {
    WAD - Min(l.discount + DeadDiscount(collateral, n), WAD)
  }

  /** The part of the first band. */
  function FirstTerm(l: Terms, collateral: nat, n: Positive): nat {
    Product3(collateral, Kept(l, collateral, n), 1);
    MulMono(1, n, l.sqrtRatio);
    Div(collateral * Kept(l, collateral, n), l.sqrtRatio * n)
  }

  /** The part of the next band. */
  function NextTerm(d: nat, a: nat): (r: nat)
    ensures r <= d
  {
    if a > 0 then
      MulMono(0, d, a - 1);
      Distribute(a, 1, d);
      DivUpper(d * (a - 1), a, d);
      DivLower(d * (a - 1), a, 0);
      Div(d * (a - 1), a)
    else 0
  }

  /** k terms, each (A - 1) / A of the one before, rounded down. */
  function Series(d: nat, a: nat, k: nat): nat {
    if k == 0 then 0 else d + Series(NextTerm(d, a), a, k - 1)
  }

  /** `get_y_effective`; without bands it divides by zero. */
  function YEffective(l: Terms, collateral: nat, n: nat): Option<nat> {
    if n == 0 then None else Some(Series(FirstTerm(l, collateral, n), l.a, Min(n, MAX_TICKS)))
  }

  /** The loop of `get_y_effective`. */
  method GetYEffective(l: Terms, collateral: nat, n: Positive) returns (y: nat)
    ensures YEffective(l, collateral, n) == Some(y)
  {
    var d := FirstTerm(l, collateral, n);
    y := d;
    var i := 1;
    while i < MAX_TICKS && i != n
      invariant 1 <= i <= MAX_TICKS && i <= n
      invariant y + Series(NextTerm(d, l.a), l.a, Min(n, MAX_TICKS) - i)
             == Series(FirstTerm(l, collateral, n), l.a, Min(n, MAX_TICKS))
      decreases MAX_TICKS - i
    {
      d := NextTerm(d, l.a);
      y := y + d;
      i := i + 1;
    }
  }

  lemma {:induction false} SeriesRange(d: nat, a: nat, k: Positive)
    ensures d <= Series(d, a, k) <= d * k
    decreases k
  {
    var d' := NextTerm(d, a);
    if k > 1 {
      SeriesRange(d', a, k - 1);
      MulMono(d', d, k - 1);
      Distribute(k, 1, d);
    }
  }

  /** The term after the first k. */
  function TermAfter(d: nat, a: nat, k: nat): nat {
    if k == 0 then d else TermAfter(NextTerm(d, a), a, k - 1)
  }

  function Power(b: nat, k: nat): nat {
    if k == 0 then 1 else
      MulMono(0, b, Power(b, k - 1));
      b * Power(b, k - 1)
  }

  lemma {:induction false} TermShift(d: nat, a: nat, k: nat)
    ensures TermAfter(NextTerm(d, a), a, k) == NextTerm(TermAfter(d, a, k), a)
    decreases k
  {
    if k > 0 {
      TermShift(NextTerm(d, a), a, k - 1);
    }
  }

  /**
   * The sum of the terms is A times the fall from the first term to the one after the last, short by less than A for
   * each term.
   */
  lemma {:induction false} SeriesSums(d: nat, a: nat, k: nat)
    requires a >= 1
    ensures a * (d - TermAfter(d, a, k)) - k * (a - 1) <= Series(d, a, k) <= a * (d - TermAfter(d, a, k))
    decreases k
  {
    if k > 0 {
      var e := NextTerm(d, a);
      SeriesSums(e, a, k - 1);
      DivBounds(d * (a - 1), a);
      SeriesStep(d, e, a, k, Series(e, a, k - 1), TermAfter(e, a, k - 1));
    }
  }

  lemma SeriesStep(d: nat, e: nat, a: nat, k: Positive, rest: int, last: nat)
    requires e * a <= d * (a - 1) < e * a + a
    requires a * (e - last) - (k - 1) * (a - 1) <= rest <= a * (e - last)
    ensures a * (d - last) - k * (a - 1) <= d + rest <= a * (d - last)
  {
    assert d * (a - 1) == a * d - d && e * a == a * e;
    assert a * (d - last) == a * d - a * last && a * (e - last) == a * e - a * last;
    assert (k - 1) * (a - 1) == k * (a - 1) - (a - 1);
  }

  ghost predicate Between(d: nat, a: nat, term: nat, p: int, r: int) {
    term * p <= d * r <= (term + a - 1) * p
  }

  /** The term after the first k is the first times ((A - 1) / A)^k, short by less than A. */
  lemma {:induction false} TermBrackets(d: nat, a: nat, k: nat)
    requires a >= 1
    ensures Between(d, a, TermAfter(d, a, k), Power(a, k), Power(a - 1, k))
    decreases k
  {
    if k > 0 {
      hide Between;
      TermBrackets(d, a, k - 1);
      TermShift(d, a, k - 1);
      TermStep(d, a, TermAfter(d, a, k - 1), Power(a, k - 1), Power(a - 1, k - 1));
      PowerNext(a, k);
      PowerNext(a - 1, k);
    }
  }

  lemma TermStep(d: nat, a: nat, e: nat, p: nat, r: nat)
    requires a >= 1 && Between(d, a, e, p, r)
    ensures Between(d, a, NextTerm(e, a), a * p, (a - 1) * r)
  {
    var next := NextTerm(e, a);
    NextTermBounds(e, a);
    hide NextTerm;
    TermUnder(e, next, a, p, d * r);
    TermOver(e, next, a, p, d * r);
    SwapFactors(d, r, a - 1);
  }

  lemma NextTermBounds(d: nat, a: nat)
    requires a >= 1
    ensures NextTerm(d, a) * a <= d * (a - 1) <= NextTerm(d, a) * a + (a - 1)
  {
    DivBounds(d * (a - 1), a);
  }

  lemma SwapFactors(d: int, r: int, c: int)
    ensures d * r * c == d * (c * r)
  {
  }

  lemma PowerNext(b: nat, k: Positive)
    ensures Power(b, k) == b * Power(b, k - 1)
  {
  }

  lemma TermUnder(e: nat, next: nat, a: nat, p: nat, n: int)
    requires a >= 1 && next * a <= e * (a - 1) && e * p <= n
    ensures next * (a * p) <= n * (a - 1)
  {
    MulMono(e * p, n, a - 1);
    MulMono(next * a, e * (a - 1), p);
    assert e * p * (a - 1) == e * (a - 1) * p && next * a * p == next * (a * p);
  }

  lemma TermOver(e: nat, next: nat, a: nat, p: nat, n: int)
    requires a >= 1 && e * (a - 1) <= next * a + (a - 1) && n <= (e + a - 1) * p
    ensures n * (a - 1) <= (next + a - 1) * (a * p)
  {
    var c := a - 1;
    MulMono(n, (e + c) * p, c);
    assert (e + c) * p * c == (e * c + c * c) * p;
    assert c + c * c == c * a;
    assert next * a + c * a == (next + c) * a;
    MulMono(e * c + c * c, (next + c) * a, p);
    assert (next + c) * a * p == (next + c) * (a * p);
  }

  lemma {:induction false} SeriesMono(d: nat, e: nat, a: nat, k: nat)
    requires d <= e
    ensures Series(d, a, k) <= Series(e, a, k)
    decreases k
  {
    if k > 0 {
      if a > 0 {
        MulMono(d, e, a - 1);
        DivMono(d * (a - 1), e * (a - 1), a);
      }
      SeriesMono(NextTerm(d, a), NextTerm(e, a), a, k - 1);
    }
  }

  /** The first band's part: what is left of the deposit after both discounts, split over the bands. */
  lemma FirstTermMeans(l: Terms, collateral: nat, n: Positive)
    ensures exists perBand: int, dead: int ::
              && IsFloor(perBand, collateral, n) && IsFloor(dead, DEAD_SHARES * WAD, Max(perBand, DEAD_SHARES))
              && IsFloor(FirstTerm(l, collateral, n), collateral * Max(WAD - l.discount - dead, 0), l.sqrtRatio * n)
  {
    var perBand, dead := Div(collateral, n), DeadDiscount(collateral, n);
    DivIsFloor(collateral, n);
    DivIsFloor(DEAD_SHARES * WAD, Max(perBand, DEAD_SHARES));
    MulMono(1, n, l.sqrtRatio);
    DivIsFloor(collateral * Kept(l, collateral, n), l.sqrtRatio * n);
    assert Kept(l, collateral, n) == Max(WAD - l.discount - dead, 0);
  }

  /** The deposit counts for nothing exactly when its discounted part is under one unit per band. */
  lemma CountsExactly(l: Terms, collateral: nat, n: Positive)
    ensures YEffective(l, collateral, n).value > 0 <==>
            l.sqrtRatio * n <= collateral * Kept(l, collateral, n)
  {
    var d, k := FirstTerm(l, collateral, n), Min(n, MAX_TICKS);
    MulMono(1, n, l.sqrtRatio);
    FloorIsGreatest(collateral * Kept(l, collateral, n), l.sqrtRatio * n, 1);
    SeriesRange(d, l.a, k);
  }

  /** With no more than a dead share's worth in each band it never counts, whatever the discount and the prices. */
  lemma DustCountsForNothing(l: Terms, collateral: nat, n: Positive)
    requires Div(collateral, n) <= DEAD_SHARES
    ensures YEffective(l, collateral, n) == Some(0)
  {
    DivOfMul(WAD, DEAD_SHARES);
    MulMono(1, n, l.sqrtRatio);
    CountsExactly(l, collateral, n);
    SeriesRange(FirstTerm(l, collateral, n), l.a, Min(n, MAX_TICKS));
    assert Kept(l, collateral, n) == 0;
  }

  /** It never counts for more than its discounted part, so rounding and dead shares are the borrower's. */
  lemma CountsWithinDiscount(l: Terms, collateral: nat, n: Positive)
    requires l.discount <= WAD
    ensures YEffective(l, collateral, n).value * l.sqrtRatio <= collateral * (WAD - l.discount)
  {
    var d, kept := FirstTerm(l, collateral, n), Kept(l, collateral, n);
    FirstTermFits(l, collateral, n);
    KeptWithin(l, collateral, n);
    MulMono(kept, WAD - l.discount, collateral);
    hide Kept, FirstTerm;
    SeriesRange(d, l.a, Min(n, MAX_TICKS));
    MulMono(Min(n, MAX_TICKS), n, d);
    MulMono(YEffective(l, collateral, n).value, d * n, l.sqrtRatio);
  }

  lemma FirstTermFits(l: Terms, collateral: nat, n: Positive)
    ensures FirstTerm(l, collateral, n) * n * l.sqrtRatio <= collateral * Kept(l, collateral, n)
  {
    MulMono(1, n, l.sqrtRatio);
    DivBounds(collateral * Kept(l, collateral, n), l.sqrtRatio * n);
    var d := FirstTerm(l, collateral, n);
    assert d * n * l.sqrtRatio == d * (l.sqrtRatio * n);
  }

  lemma KeptWithin(l: Terms, collateral: nat, n: Positive)
    ensures Kept(l, collateral, n) <= Max(WAD - l.discount, 0)
  {
  }

  /** More collateral never counts for less. */
  lemma CountsMono(l: Terms, collateral: nat, collateral': nat, n: Positive)
    requires collateral <= collateral'
    ensures YEffective(l, collateral, n).value <= YEffective(l, collateral', n).value
  {
    var kept, kept' := Kept(l, collateral, n), Kept(l, collateral', n);
    DivMono(collateral, collateral', n);
    DivAnti(DEAD_SHARES * WAD, Max(Div(collateral, n), DEAD_SHARES), Max(Div(collateral', n), DEAD_SHARES));
    assert kept <= kept';
    MulMono(collateral, collateral', kept);
    MulMono(kept, kept', collateral');
    MulMono(1, n, l.sqrtRatio);
    DivMono(collateral * kept, collateral' * kept', l.sqrtRatio * n);
    SeriesMono(FirstTerm(l, collateral, n), FirstTerm(l, collateral', n), l.a, Min(n, MAX_TICKS));
  }

  // ---------------------------------------------------------------- the first band

  /**
   * What the AMM and the logarithm answer: the price of the active band, ln of the ratio, ln of A / (A - 1), whether
   * bands can be skipped, and whether the band found lies under the oracle price.
   */
  datatype Answers = Answers(pBase: nat, ln: int, lnRatio: Positive, canSkip: bool, below: bool)

  /** The deposit's value over the debt. */
  function Cover(l: Terms, collateral: nat, debt: nat, prec: Positive, n: Positive, pBase: nat): nat {
    Product3(YEffective(l, collateral, n).value, pBase, 1);
    MulMono(0, debt, prec);
    Div(YEffective(l, collateral, n).value * pBase, debt * prec + 1)
  }

  /** `_calculate_debt_n1` from active band n0. */
  function DebtBand(l: Terms, collateral: nat, debt: nat, prec: Positive, n: nat, n0: int, r: Answers): Option<int> {
    if debt == 0 || n == 0 || Cover(l, collateral, debt, prec, n, r.pBase) == 0 then None else
      var ln := if r.ln < 0 then r.ln - (r.lnRatio - 1) else r.ln;
      var n1 := Min(TDiv(ln, r.lnRatio), MAX_SKIP - n) + n0;
      if (n1 <= n0 && !r.canSkip) || !r.below then None else Some(n1)
  }

  /**
   * A band found above the active one is at most 1024 - N from it, and is the floor of the logarithms' ratio unless
   * cut there; none is found exactly when the deposit counts for less than the debt's smallest part or a check fails.
   */
  lemma DebtBandMeans(l: Terms, collateral: nat, debt: Positive, prec: Positive, n: Positive, n0: int, r: Answers)
    requires n < MAX_SKIP
    ensures
      var found := DebtBand(l, collateral, debt, prec, n, n0, r);
      && (found.Some? ==> found.value - n0 == Min(r.ln / r.lnRatio, MAX_SKIP - n))
      && (found.None? <==>
          || YEffective(l, collateral, n).value * r.pBase <= debt * prec
          || !r.below || (r.ln < r.lnRatio && !r.canSkip))
  {
    MulMono(0, debt, prec);
    Product3(YEffective(l, collateral, n).value, r.pBase, 1);
    FloorIsGreatest(YEffective(l, collateral, n).value * r.pBase, debt * prec + 1, 1);
    FloorByTruncation(r.ln, r.lnRatio);
    DivBounds(r.ln, r.lnRatio);
    if r.ln >= r.lnRatio {
      DivLower(r.ln, r.lnRatio, 1);
    } else {
      DivUpper(r.ln, r.lnRatio, 0);
    }
  }

  /** Truncating division, after d - 1 was taken from a negative dividend, is division rounded down. */
  lemma FloorByTruncation(a: int, d: Positive)
    ensures TDiv(if a < 0 then a - (d - 1) else a, d) == a / d
  {
    if a < 0 {
      var b := -(a - (d - 1));
      DivBounds(a, d);
      Distribute(-(a / d), 1, d);
      DivLower(b, d, -(a / d));
      DivUpper(b, d, -(a / d));
    }
  }
}
