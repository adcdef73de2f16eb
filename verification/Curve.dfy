/** The bonding curve of one band, (f + x)(g + y) = Inv, and what a trade does within one band. */
module Curve {
  import opened Numbers

  datatype CurvePoint = CurvePoint(f: nat, g: nat, inv: nat)

  /** The coefficient b of the quadratic that `_get_y0` solves. */
  function LinearTerm(a: nat, x: nat, y: nat, pO: nat, pUp: nat): nat
    requires a >= 1 && pO > 0 && pUp > 0
  {
    Product3(pUp, a - 1, x);
    Div(pUp * (a - 1) * x, pO) + Div(Div(a * (pO * pO), pUp) * y, WAD)
  }

  /** Its constant term times 4A * p_oracle; it vanishes when the band holds a single coin. */
  function ConstantTerm(a: nat, x: nat, y: nat, pO: nat): nat {
    Product3(a, pO, y);
    if x > 0 && y > 0 then Div(4 * (a * pO * y), WAD) * x else 0
  }

  /** `_get_y0`; None where the source divides by a zero price. */
  function GetY0(a: nat, x: nat, y: nat, pO: nat, pUp: nat): Option<nat>
    requires a >= 1
  {
    if pO == 0 || (y != 0 && pUp == 0) then None
    else if pUp == 0 then Some(0)
    else
      var b := LinearTerm(a, x, y, pO, pUp);
      if x > 0 && y > 0 then
        Some(UDiv((b + Isqrt(b * b + ConstantTerm(a, x, y, pO))) * WAD, 2 * (a * pO)))
      else
        Some(UDiv(b * WAD, a * pO))
  }

  /** 4A p y (A p y - b) - q, scaled by WAD: negative or zero up to the positive root, positive beyond it. */
  function Quadratic(ap: nat, b: nat, q: nat, y: nat): int {
    4 * ap * y * (ap * y - b * WAD) - q * WAD * WAD
  }

  lemma CompleteTheSquare(ap: int, b: int, q: int, s: int, y: int)
    ensures (2 * ap * y - b * s) * (2 * ap * y - b * s) - (b * b + q) * s * s ==
            4 * ap * y * (ap * y - b * s) - q * s * s
  {
    var u, v := ap * y, b * s;
    assert (2 * u - v) * (2 * u - v) == 4 * u * (u - v) + v * v;
    assert 2 * ap * y == 2 * u;
    assert 4 * ap * y * (u - v) == 4 * u * (u - v);
    assert v * v == b * b * s * s;
    assert (b * b + q) * s * s == b * b * s * s + q * s * s;
  }

  lemma SquareMono(u: int, v: int)
    requires 0 <= u <= v
    ensures u * u <= v * v
  {
    MulMono(u, v, u);
    MulMono(u, v, v);
  }

  lemma SquareScaled(u: int, s: int)
    ensures (u * s) * (u * s) == (u * u) * (s * s)
  {
    assert (u * s) * (u * s) == u * (s * (u * s));
    assert s * (u * s) == u * (s * s);
    assert u * (u * (s * s)) == (u * u) * (s * s);
  }

  /** The mixed case: t = 2Ap y - b s, compared with the square root of d = b^2 + q, decides the quadratic's sign. */
  lemma QuadraticSign(ap: nat, b: nat, q: nat, y: nat, r: nat)
    requires r * r <= b * b + q < (r + 1) * (r + 1)
    ensures 2 * ap * y - b * WAD <= r * WAD ==> Quadratic(ap, b, q, y) <= 0
    ensures 2 * ap * y - b * WAD >= (r + 1) * WAD ==> Quadratic(ap, b, q, y) > 0
  {
    var t, d := 2 * ap * y - b * WAD, b * b + q;
    CompleteTheSquare(ap, b, q, WAD, y);
    assert Quadratic(ap, b, q, y) == t * t - d * WAD * WAD;
    assert d * WAD * WAD == d * (WAD * WAD);
    if t >= (r + 1) * WAD {
      SquareMono((r + 1) * WAD, t);
      SquareScaled(r + 1, WAD);
      MulMono(d + 1, (r + 1) * (r + 1), WAD * WAD);
    } else if 0 <= t <= r * WAD {
      SquareMono(t, r * WAD);
      SquareScaled(r, WAD);
      MulMono(r * r, d, WAD * WAD);
    } else if t < 0 {
      NegativeBranch(ap, b * WAD, y);
    }
  }

  lemma NegativeBranch(ap: nat, bs: nat, y: nat)
    requires 2 * ap * y < bs
    ensures 4 * ap * y * (ap * y - bs) <= 0
  {
    var u := ap * y;
    assert 2 * ap * y == 2 * u && 4 * ap * y == 4 * u;
    MulMono(u - bs, 0, 4 * u);
  }

  lemma FloorWindow(n: int, e: int, y0: int, slack: int)
    requires e > 0 && y0 == n / e && slack * e >= WAD
    ensures e * y0 <= n && e * (y0 + 1 + slack) > n + WAD
  {
    DivBounds(n, e);
    assert e * (y0 + 1 + slack) == y0 * e + e + slack * e;
  }

  /** ... so the floor of (b + isqrt(b^2 + q)) / 2Ap lies under the root and passes it within 1 + ceil(WAD / 2Ap). */
  lemma MixedRoot(ap: nat, b: nat, q: nat, y0: nat, slack: nat, r: nat)
    requires ap > 0 && r * r <= b * b + q < (r + 1) * (r + 1)
    requires y0 == (b + r) * WAD / (2 * ap) && slack * (2 * ap) >= WAD
    ensures Quadratic(ap, b, q, y0) <= 0 < Quadratic(ap, b, q, y0 + 1 + slack)
  {
    FloorWindow((b + r) * WAD, 2 * ap, y0, slack);
    assert (b + r) * WAD == b * WAD + r * WAD && (r + 1) * WAD == r * WAD + WAD;
    QuadraticSign(ap, b, q, y0, r);
    QuadraticSign(ap, b, q, y0 + 1 + slack, r);
  }

  /** The single-sided case, where the root is b / Ap itself. */
  lemma SingleRoot(ap: nat, b: nat, y0: nat)
    requires ap > 0 && y0 == b * WAD / ap
    ensures Quadratic(ap, b, 0, y0) <= 0 < Quadratic(ap, b, 0, y0 + 1)
  {
    DivBounds(b * WAD, ap);
    MulMono(ap * y0 - b * WAD, 0, 4 * ap * y0);
    assert ap * (y0 + 1) - b * WAD >= 1;
    MulMono(1, ap * (y0 + 1) - b * WAD, 4 * ap * (y0 + 1));
    MulMono(1, y0 + 1, ap);
  }

  /** The units by which `_get_y0` may have to be raised to pass the root. */
  function Y0Slack(ap: nat, x: nat, y: nat): nat
    requires ap > 0
  {
    if x > 0 && y > 0 then Div(WAD, 2 * ap) + 2 else 1
  }

  /**
   * `_get_y0` brackets the positive root of its own rounded quadratic: the result is not above it, the result plus
   * slack is.
   */
  lemma Y0BracketsRoot(a: nat, x: nat, y: nat, pO: nat, pUp: nat)
    requires a >= 1 && pO > 0 && pUp > 0
    ensures a * pO > 0
    ensures
      var y0 := GetY0(a, x, y, pO, pUp);
      var b, q := LinearTerm(a, x, y, pO, pUp), ConstantTerm(a, x, y, pO);
      y0.Some? && Quadratic(a * pO, b, q, y0.value) <= 0 < Quadratic(a * pO, b, q, y0.value + Y0Slack(a * pO, x, y))
  {
    MulMono(1, a, pO);
    var y0 := GetY0(a, x, y, pO, pUp).value;
    Y0BracketsRootOf(a * pO, x, y, LinearTerm(a, x, y, pO, pUp), ConstantTerm(a, x, y, pO), y0);
  }

  lemma SlackCovers(d: nat)
    requires d > 0
    ensures (Div(WAD, d) + 1) * d >= WAD
  {
    DivBounds(WAD, d);
  }

  lemma MixedBrackets(ap: nat, b: nat, q: nat, y0: nat)
    requires ap > 0 && y0 == (b + Isqrt(b * b + q)) * WAD / (2 * ap)
    ensures Quadratic(ap, b, q, y0) <= 0 < Quadratic(ap, b, q, y0 + 1 + (Div(WAD, 2 * ap) + 1))
  {
    hide Quadratic, Isqrt, Div;
    SlackCovers(2 * ap);
    MixedRoot(ap, b, q, y0, Div(WAD, 2 * ap) + 1, Isqrt(b * b + q));
  }

  lemma Y0BracketsRootOf(ap: nat, x: nat, y: nat, b: nat, q: nat, y0: nat)
    requires ap > 0 && ((x > 0 && y > 0) || q == 0)
    requires y0 == if x > 0 && y > 0 then UDiv((b + Isqrt(b * b + q)) * WAD, 2 * ap) else UDiv(b * WAD, ap)
    ensures Quadratic(ap, b, q, y0) <= 0 < Quadratic(ap, b, q, y0 + Y0Slack(ap, x, y))
  {
    hide Quadratic, Isqrt, Div;
    if x > 0 && y > 0 {
      MixedBrackets(ap, b, q, y0);
    } else {
      SingleRoot(ap, b, y0);
    }
  }

  /** The offset of the borrowed coin. */
  function OffsetF(a: nat, y0: nat, pO: nat, pUp: nat): nat
    requires pUp > 0
  {
    Product3(a, y0, pO);
    Div(Div(a * y0 * pO, pUp) * pO, WAD)
  }

  /** The offset of the collateral: (A - 1) * y0 * p_up / p, rounded down. */
  function OffsetG(a: nat, y0: nat, pO: nat, pUp: nat): (g: nat)
    requires a >= 1
    ensures pO > 0 ==> g * pO <= (a - 1) * y0 * pUp < g * pO + pO
  {
    Product3(a - 1, y0, pUp);
    UDiv((a - 1) * y0 * pUp, pO)
  }

  /** f is A * y0 * p^2 / p_up, short by less than one unit plus the price's part of one. */
  lemma OffsetFBrackets(a: nat, y0: nat, pO: nat, pUp: Positive)
    ensures
      var f, exact := OffsetF(a, y0, pO, pUp), a * y0 * pO * pO;
      f * WAD * pUp <= exact < ((f + 1) * WAD + pO) * pUp || pO == 0
  {
    Product3(a, y0, pO);
    var n, t := a * y0 * pO, Div(a * y0 * pO, pUp);
    Product3(t, pO, 1);
    var f := Div(t * pO, WAD);
    DivBounds(n, pUp);
    DivBounds(t * pO, WAD);
    OffsetSteps(n, t, f, pO, pUp);
  }

  lemma OffsetSteps(n: nat, t: nat, f: nat, p: nat, d: Positive)
    requires t * d <= n < t * d + d && f * WAD <= t * p < f * WAD + WAD
    ensures f * WAD * d <= n * p && (p > 0 ==> n * p < ((f + 1) * WAD + p) * d)
  {
    MulMono(t * d, n, p);
    MulMono(f * WAD, t * p, d);
    assert t * d * p == t * p * d;
    if p > 0 {
      assert n * p < (t * d + d) * p;
      Distribute(t * d, d, p);
      MulMono(t * p, f * WAD + WAD, d);
      Distribute(f * WAD + WAD, p, d);
      assert d * p == p * d;
    }
  }

  /** f, g and Inv of a band with liquidity; None where the source divides by a zero price. */
  function BandCurve(a: nat, x: nat, y: nat, pO: nat, pUp: nat): Option<CurvePoint>
    requires a >= 1
  {
    match GetY0(a, x, y, pO, pUp)
    case None => None
    case Some(y0) =>
      if pUp == 0 then None else
        var f, g := OffsetF(a, y0, pO, pUp), OffsetG(a, y0, pO, pUp);
        MulMono(0, f + x, g + y);
        Some(CurvePoint(f, g, (f + x) * (g + y)))
  }

  /** The adiabatic lower and upper price of the band, as `get_dynamic_fee` rounds them. */
  function BandPrices(a: nat, pO: nat, pUp: nat): (nat, nat)
    requires a >= 1
  {
    var pcd := UDiv(UDiv(pO * pO, pUp) * pO, pUp);
    (pcd, UDiv(UDiv(pcd * a, a - 1) * a, a - 1))
  }

  function GapFee(pO: nat, pcd: nat, pcu: nat): nat {
    if pO < pcd then UDiv((pcd - pO) * (WAD / 4), pcd)
    else if pO > pcu then UDiv((pO - pcu) * (WAD / 4), pO)
    else 0
  }

  /** `get_dynamic_fee`: a quarter of the relative distance from the oracle price to the band. */
  function GetDynamicFee(a: nat, pO: nat, pUp: nat): nat
    requires a >= 1
  {
    var (pcd, pcu) := BandPrices(a, pO, pUp);
    GapFee(pO, pcd, pcu)
  }

  /**
   * Inside the band's prices there is no fee; outside, a quarter of the gap relative to the larger of the two prices.
   */
  lemma DynamicFeeIsQuarterOfGap(a: nat, pO: nat, pUp: nat, q: nat)
    requires a >= 1
    ensures
      var (pcd, pcu) := BandPrices(a, pO, pUp);
      var fee := GetDynamicFee(a, pO, pUp);
      && (pcd <= pO <= pcu ==> fee == 0)
      && (pO < pcd ==> (q <= fee <==> q * pcd <= (pcd - pO) * (WAD / 4)))
      && (pcd <= pO && pcu < pO ==> (q <= fee <==> q * pO <= (pO - pcu) * (WAD / 4)))
  {
    hide BandPrices;
    var (pcd, pcu) := BandPrices(a, pO, pUp);
    if pO < pcd {
      FloorIsGreatest((pcd - pO) * (WAD / 4), pcd, q);
    } else if pcu < pO {
      FloorIsGreatest((pO - pcu) * (WAD / 4), pO, q);
    }
  }

  /** The band distance never costs more than a quarter. */
  lemma DynamicFeeAtMostQuarter(a: nat, pO: nat, pUp: nat)
    requires a >= 1
    ensures GetDynamicFee(a, pO, pUp) <= WAD / 4
  {
    hide BandPrices;
    var (pcd, pcu) := BandPrices(a, pO, pUp);
    if pO < pcd {
      MulMono(pcd - pO, pcd, WAD / 4);
      DivUpper((pcd - pO) * (WAD / 4), pcd, WAD / 4);
    } else if pO > pcu {
      MulMono(pO - pcu, pO, WAD / 4);
      DivUpper((pO - pcu) * (WAD / 4), pO, WAD / 4);
    }
  }

  /** 1 / (1 - fee), with the fee held below one. */
  function Antifee(fee: nat): (r: nat)
    ensures r >= WAD
  {
    DivAnti(WAD * WAD, WAD - Min(fee, WAD - 1), WAD);
    DivOfMul(WAD, WAD);
    WAD * WAD / (WAD - Min(fee, WAD - 1))
  }

  /** Its value: the fee is cut just below one, and the quotient rounded down. */
  lemma AntifeeIsFloor(fee: nat)
    ensures IsFloor(Antifee(fee), WAD * WAD, WAD - Min(fee, WAD - 1))
  {
    DivIsFloor(WAD * WAD, WAD - Min(fee, WAD - 1));
  }

  /**
   * What is charged for d, with the fee: the fee's part of the charge is at least the fee, and the charge exceeds
   * d / (1 - fee) by nothing and misses it by less than one unit and d units of 10^-18.
   */
  lemma FeeCharged(d: nat, fee: nat, r: int)
    requires fee < WAD && IsFloor(r, d * Antifee(fee), WAD)
    ensures r * (WAD - fee) <= d * WAD < (r + 1) * (WAD - fee) + d
  {
    var a, e := Antifee(fee), WAD - fee;
    AntifeeIsFloor(fee);
    MulMono(r * WAD, d * a, e);
    MulMono(a * e, WAD * WAD, d);
    assert r * WAD * e == r * e * WAD && d * a * e == a * e * d && WAD * WAD * d == d * WAD * WAD;
    Cancel(r * e, d * WAD, WAD);
    ChargeBelow(d, a, e, r);
  }

  lemma ChargeBelow(d: nat, a: nat, e: Positive, r: int)
    requires WAD * WAD < a * e + e && d * a < r * WAD + WAD && e <= WAD
    ensures d * WAD < (r + 1) * e + d
  {
    MulMono(WAD * WAD + 1, a * e + e, d);
    assert d * (a * e + e) == d * a * e + d * e;
    MulMono(d * a + 1, (r + 1) * WAD, e);
    Distribute(d * a, 1, e);
    MulMono(e, WAD, d);
    assert (r + 1) * WAD * e == (r + 1) * e * WAD;
    assert d * (WAD * WAD) == d * WAD * WAD;
    assert d * WAD * WAD < ((r + 1) * e + d) * WAD by {
      Distribute((r + 1) * e, d, WAD);
    }
    if d * WAD >= (r + 1) * e + d {
      MulMono((r + 1) * e + d, d * WAD, WAD);
    }
  }

  // ---------------------------------------------------------------- the coefficients of the quadratic

  /** p_up (A - 1) x / p, and A p^2 y / (10^18 p_up) with both of its quotients rounded down. */
  ghost predicate LinearParts(a: nat, x: nat, y: nat, pO: nat, pUp: nat, fromX: int, fromY: int) {
    && IsFloor(fromX, pUp * (a - 1) * x, pO)
    && fromY * WAD * pUp <= a * pO * pO * y < (fromY + 1) * WAD * pUp + y * pUp
  }

  /** The coefficients of the quadratic, said without the quotients of the code. */
  lemma CoefficientsBracket(a: nat, x: nat, y: nat, pO: Positive, pUp: Positive)
    requires a >= 1
    ensures exists fromX: int, fromY: int ::
              LinearParts(a, x, y, pO, pUp, fromX, fromY) && LinearTerm(a, x, y, pO, pUp) == fromX + fromY
    ensures
      var q := ConstantTerm(a, x, y, pO);
      if y == 0 then q == 0 else q * WAD <= 4 * a * pO * x * y && (x > 0 ==> 4 * a * pO * x * y < (q + x) * WAD)
  {
    Product3(pUp, a - 1, x);
    var fromX, t := Div(pUp * (a - 1) * x, pO), Div(a * (pO * pO), pUp);
    var fromY := Div(t * y, WAD);
    DivIsFloor(pUp * (a - 1) * x, pO);
    DivBounds(a * (pO * pO), pUp);
    DivBounds(t * y, WAD);
    NestedFloor(a * (pO * pO), t, y, fromY, pUp);
    assert a * (pO * pO) * y == a * pO * pO * y;
    assert LinearParts(a, x, y, pO, pUp, fromX, fromY);
    ConstantBracket(a, x, y, pO);
  }

  lemma NestedFloor(n: nat, t: nat, y: nat, w: nat, d: Positive)
    requires t * d <= n < t * d + d && w * WAD <= t * y < w * WAD + WAD
    ensures w * WAD * d <= n * y < (w + 1) * WAD * d + y * d || y == 0
    ensures y == 0 ==> w == 0
  {
    MulMono(t * d, n, y);
    MulMono(w * WAD, t * y, d);
    MulMono(t * y + 1, w * WAD + WAD, d);
    assert t * d * y == t * y * d;
    if y > 0 {
      MulMono(n + 1, t * d + d, y);
      Distribute(n, 1, y);
      Distribute(t * d, d, y);
      Distribute(w, 1, WAD);
      Distribute(t * y, 1, d);
    }
  }

  lemma ConstantBracket(a: nat, x: nat, y: nat, pO: nat)
    ensures
      var q := ConstantTerm(a, x, y, pO);
      if y == 0 then q == 0 else q * WAD <= 4 * a * pO * x * y && (x > 0 ==> 4 * a * pO * x * y < (q + x) * WAD)
  {
    if x > 0 && y > 0 {
      Product3(a, pO, y);
      var n := a * pO * y;
      var t := Div(4 * n, WAD);
      DivBounds(4 * n, WAD);
      MulMono(t * WAD, 4 * n, x);
      MulMono(4 * n + 1, t * WAD + WAD, x);
      assert 4 * n * x == 4 * a * pO * x * y;
      assert t * WAD * x == t * x * WAD;
      Distribute(t * x, x, WAD);
      Distribute(4 * n, 1, x);
      Distribute(t * WAD, WAD, x);
    } else if x == 0 {
      assert 4 * a * pO * x * y == 0;
    }
  }

  /**
   * The prices of a band at which it holds one coin only: p^3 / p_up^2, and that times (A / (A - 1))^2, each with two
   * quotients rounded down.
   */
  lemma BandPricesBracket(a: nat, pO: nat, pUp: Positive)
    requires a >= 2
    ensures
      var (pcd, pcu) := BandPrices(a, pO, pUp);
      && pcd * pUp * pUp <= pO * pO * pO < (pcd + 1) * pUp * pUp + pO * pUp
      && pcu * (a - 1) * (a - 1) <= pcd * a * a < (pcu + 1) * (a - 1) * (a - 1) + a * (a - 1)
  {
    var t := pO * pO / pUp;
    var pcd := t * pO / pUp;
    TwoFloors(pO * pO, pO, pUp);
    var u := pcd * a / (a - 1);
    TwoFloors(pcd * a, a, a - 1);
  }

  lemma TwoFloors(n: nat, m: nat, d: Positive)
    ensures
      var r := n / d * m / d;
      r * d * d <= n * m < (r + 1) * d * d + m * d
  {
    var t := n / d;
    DivNonNeg(n, d);
    MulMono(0, t, m);
    DivNonNeg(t * m, d);
    DivBounds(n, d);
    DivBounds(t * m, d);
    FloorOfFloor(n, t, m, t * m / d, d);
  }

  lemma FloorOfFloor(n: nat, t: nat, m: nat, r: nat, d: Positive)
    requires t * d <= n < t * d + d && r * d <= t * m < r * d + d
    ensures r * d * d <= n * m < (r + 1) * d * d + m * d
  {
    MulMono(r * d, t * m, d);
    MulMono(t * d, n, m);
    assert t * m * d == t * d * m;
    Distribute(r, 1, d);
    MulMono(t * m + 1, (r + 1) * d, d);
    Distribute(t * m, 1, d);
    MulMono(n, t * d + d, m);
    Distribute(t * d, d, m);
    assert d * m == m * d;
  }
}
