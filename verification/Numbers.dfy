/** Integer arithmetic as the contracts use it: EVM division, 18-decimal fixed point, integer square roots. */
module Numbers {

  /** One in 18-decimal fixed point. */
  const WAD: nat := 1_000_000_000_000_000_000

  type Address = nat

  datatype Option<+T> = None | Some(value: T)

  function Min(a: int, b: int): int {
    if a <= b then a else b
  }

  function Max(a: int, b: int): int {
    if a >= b then a else b
  }

  /** Division of naturals; Dafny's is already the EVM's here. */
  function Div(a: nat, d: nat): nat
    requires d > 0
  {
    DivNonNeg(a, d);
    a / d
  }

  /** `unsafe_div`: the EVM's DIV instruction yields 0 for a zero divisor. */
  function UDiv(a: nat, b: nat): nat {
    if b == 0 then 0 else a / b
  }

  /** Signed EVM division truncates towards zero; Dafny's is Euclidean. */
  function TDiv(a: int, b: int): int
    requires b > 0
  {
    if a >= 0 then a / b else -((-a) / b)
  }

  /** Signed EVM remainder: it takes the sign of the dividend. */
  function TMod(a: int, b: int): int
    requires b > 0
  {
    if a >= 0 then a % b else -((-a) % b)
  }

  lemma MulMono(a: int, b: int, c: int)
    requires a <= b && 0 <= c
    ensures a * c <= b * c && c * a <= c * b
  {
  }

  lemma Product3(a: nat, b: nat, c: nat)
    ensures 0 <= a * b && 0 <= a * b * c
  {
    MulMono(0, a, b);
    MulMono(0, a * b, c);
  }

  lemma Distribute(a: int, b: int, c: int)
    ensures (a + b) * c == a * c + b * c
    ensures (a - b) * c == a * c - b * c
  {
  }

  lemma Cancel(a: int, b: int, c: int)
    requires c > 0 && a * c <= b * c
    ensures a <= b
  {
  }

  lemma DivBounds(a: int, d: int)
    requires d > 0
    ensures a / d * d <= a < a / d * d + d
  {
  }

  /** a / d is the greatest q with q * d <= a. */
  lemma DivLower(a: int, d: int, q: int)
    requires d > 0 && q * d <= a
    ensures q <= a / d
  {
    DivBounds(a, d);
    if a / d < q {
      MulMono(a / d + 1, q, d);
    }
  }

  lemma DivUpper(a: int, d: int, q: int)
    requires d > 0 && a < (q + 1) * d
    ensures a / d <= q
  {
    DivBounds(a, d);
    if q < a / d {
      MulMono(q + 1, a / d, d);
    }
  }

  lemma DivMono(a: int, b: int, d: int)
    requires d > 0 && a <= b
    ensures a / d <= b / d
  {
    DivBounds(a, d);
    DivLower(b, d, a / d);
  }

  /** Dividing by a larger positive divisor gives no more. */
  lemma DivAnti(a: int, d: int, e: int)
    requires 0 <= a && 0 < d <= e
    ensures 0 <= a / e <= a / d
  {
    DivBounds(a, e);
    DivLower(a, e, 0);
    MulMono(d, e, a / e);
    DivLower(a, d, a / e);
  }

  /** q is n / d, rounded down. */
  ghost predicate IsFloor(q: int, n: int, d: int) {
    q * d <= n < q * d + d
  }

  /** q is n / d, rounded up. */
  ghost predicate IsCeil(q: int, n: int, d: int) {
    q * d - d < n <= q * d
  }

  lemma DivIsFloor(n: int, d: int)
    requires d > 0
    ensures IsFloor(n / d, n, d)
  {
    DivBounds(n, d);
  }

  lemma DivOfNone(d: Positive)
    ensures Div(0, d) == 0
  {
  }

  lemma DivNonNeg(a: int, d: int)
    requires 0 <= a && d > 0
    ensures 0 <= a / d
  {
    DivLower(a, d, 0);
  }

  lemma DivOfMul(q: int, d: int)
    requires d > 0
    ensures q * d / d == q
  {
    DivLower(q * d, d, q);
    DivUpper(q * d, d, q);
  }

  /** A division is the greatest quotient that fits. */
  lemma FloorIsGreatest(a: nat, d: Positive, q: nat)
    ensures q <= Div(a, d) <==> q * d <= a
  {
    DivBounds(a, d);
    if q <= Div(a, d) {
      MulMono(q, Div(a, d), d);
    }
    if q * d <= a {
      DivLower(a, d, q);
    }
  }

  // ---------------------------------------------------------------- exact fractions

  type Positive = n: int | n > 0 witness 1

  ghost function Ratio(a: nat, d: Positive): real {
    a as real / d as real
  }

  lemma RatioOrder(a: nat, b: Positive, c: nat, d: Positive)
    ensures Ratio(a, b) <= Ratio(c, d) <==> a * d <= c * b
  {
    var u, v, rb, rd := Ratio(a, b), Ratio(c, d), b as real, d as real;
    assert u * rb == a as real && v * rd == c as real;
    assert (u * rb) * rd == u * (rb * rd) && (v * rd) * rb == v * (rb * rd);
    assert (a * d) as real == (u * rb) * rd && (c * b) as real == (v * rd) * rb;
  }

  /** Fractions in order have floors in order. */
  lemma FloorOfRatios(a: nat, b: Positive, c: nat, d: Positive)
    requires a * d <= c * b
    ensures Div(a, b) <= Div(c, d)
  {
    var q := Div(a, b);
    DivBounds(a, b);
    MulMono(q * b, a, d);
    assert q * b * d == q * d * b;
    Cancel(q * d, c, b);
    DivLower(c, d, q);
  }

  lemma ScaleRatios(a: nat, b: Positive, c: nat, d: Positive, m: nat)
    requires a * d <= c * b
    ensures 0 <= a * m && 0 <= c * m && a * m * d <= c * m * b
  {
    MulMono(a * d, c * b, m);
    assert a * d * m == a * m * d && c * b * m == c * m * b;
    MulMono(0, a, m);
    MulMono(0, c, m);
  }

  /** The Vyper builtin `isqrt`: the floor of the square root, one base-4 digit at a time. */
  function Isqrt(n: nat): (r: nat)
    ensures r * r <= n < (r + 1) * (r + 1)
  {
    if n == 0 then 0 else
      var h := Isqrt(n / 4);
      IsqrtDigit(n, h);
      if (2 * h + 1) * (2 * h + 1) <= n then 2 * h + 1 else 2 * h
  }

  lemma IsqrtDigit(n: nat, h: nat)
    requires h * h <= n / 4 < (h + 1) * (h + 1)
    ensures (2 * h) * (2 * h) <= n < (2 * h + 2) * (2 * h + 2)
  {
    assert (2 * h) * (2 * h) == 4 * (h * h);
    assert (2 * h + 2) * (2 * h + 2) == 4 * ((h + 1) * (h + 1));
  }
}
