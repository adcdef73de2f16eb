/** Shares of one band, with the dead shares that keep the first depositor from setting the price. */
module BandShares {
  import opened Numbers

  const DEAD_SHARES: nat := 1000

  /** Shares minted for depositing y into a band holding `total` with `s` shares. */
  function SharesFor(s: nat, y: nat, total: nat): nat {
    Div((s + DEAD_SHARES) * y, total + 1)
  }

  /** What `ds` of `s` shares are worth in a band holding `total`. */
  function Payout(total: nat, ds: nat, s: nat): nat {
    Div((total + 1) * ds, s + DEAD_SHARES)
  }

  /** A deposit gets the most shares that it pays for. */
  lemma SharesAreMost(s: nat, y: nat, total: nat, q: nat)
    ensures q <= SharesFor(s, y, total) <==> q * (total + 1) <= (s + DEAD_SHARES) * y
  {
    Product3(s + DEAD_SHARES, y, 1);
    FloorIsGreatest((s + DEAD_SHARES) * y, total + 1, q);
  }

  /** A withdrawal gets the most that its shares are worth. */
  lemma PayoutIsMost(total: nat, ds: nat, s: nat, q: nat)
    ensures q <= Payout(total, ds, s) <==> q * (s + DEAD_SHARES) <= (total + 1) * ds
  {
    Product3(total + 1, ds, 1);
    FloorIsGreatest((total + 1) * ds, s + DEAD_SHARES, q);
  }

  /** The worth of a share, (total + 1) / (s + dead), is not lower in the second band state than in the first. */
  ghost predicate ShareValueKept(total: nat, s: nat, total': nat, s': nat) {
    (total + 1) * (s' + DEAD_SHARES) <= (total' + 1) * (s + DEAD_SHARES)
  }

  /** A payout never exceeds the band. */
  lemma PayoutWithinBand(total: nat, ds: nat, s: nat)
    requires ds <= s
    ensures Payout(total, ds, s) <= total
  {
    MulMono(ds, s + DEAD_SHARES - 1, total + 1);
    assert (total + 1) * (s + DEAD_SHARES - 1) < (total + 1) * (s + DEAD_SHARES);
    DivUpper((total + 1) * ds, s + DEAD_SHARES, total);
  }

  lemma DepositKeepsShareValue(s: nat, y: nat, total: nat)
    ensures ShareValueKept(total, s, total + y, s + SharesFor(s, y, total))
  {
    var ds, d := SharesFor(s, y, total), s + DEAD_SHARES;
    SharesAreMost(s, y, total, ds);
    assert (total + 1) * (d + ds) == (total + 1) * d + ds * (total + 1);
    assert (total + y + 1) * d == (total + 1) * d + d * y;
  }

  lemma WithdrawKeepsShareValue(total: nat, ds: nat, s: nat)
    requires ds <= s
    ensures Payout(total, ds, s) <= total
    ensures ShareValueKept(total, s, total - Payout(total, ds, s), s - ds)
  {
    PayoutWithinBand(total, ds, s);
    PayoutIsMost(total, ds, s, Payout(total, ds, s));
    var dy, d := Payout(total, ds, s), s + DEAD_SHARES;
    assert (total + 1) * (d - ds) == (total + 1) * d - (total + 1) * ds;
    assert (total + 1 - dy) * d == (total + 1) * d - dy * d;
  }

  /** Shares bought with y are never worth more than y. */
  lemma DepositThenWithdraw(s: nat, y: nat, total: nat)
    ensures Payout(total + y, SharesFor(s, y, total), s + SharesFor(s, y, total)) <= y
  {
    var ds, d := SharesFor(s, y, total), s + DEAD_SHARES;
    SharesAreMost(s, y, total, ds);
    assert (total + y + 1) * ds == ds * (total + 1) + y * ds;
    assert y * (d + ds) == d * y + y * ds;
    assert (y + 1) * (d + ds) == y * (d + ds) + (d + ds);
    DivUpper((total + y + 1) * ds, s + ds + DEAD_SHARES, y);
  }

  lemma SecondPayout(v: int, d: int, b: int, p: int, r: int, e: int)
    requires 0 <= d && r * e <= (v - p) * b
    ensures (r * e) * d <= (v * b) * d - (p * d) * b
  {
    MulMono(r * e, (v - p) * b, d);
    assert (v - p) * b == v * b - p * b;
    assert (v * b - p * b) * d == (v * b) * d - (p * b) * d;
    assert (p * b) * d == (p * d) * b;
  }

  lemma FirstPayout(v: int, d: int, a: int, b: int, x: int)
    requires 0 <= a + b <= d && x <= v * a
    ensures x * (d - a - b) + (v * b) * d <= (v * a + v * b) * (d - a)
  {
    var e := d - a;
    MulMono(x, v * a, e - b);
    assert (v * a) * (e - b) == (v * a) * e - (v * a) * b;
    assert (v * b) * d == (v * b) * e + (v * b) * a;
    assert (v * a) * b == (v * b) * a;
    assert (v * a + v * b) * e == (v * a) * e + (v * b) * e;
  }

  lemma SplitBound(v: int, d: int, a: int, b: int, p: int, r: int)
    requires 0 <= a && 0 <= b && a + b < d
    requires p * d <= v * a && r * (d - a) <= (v - p) * b
    ensures (p + r) * d <= v * (a + b)
  {
    var e, x := d - a, p * d;
    SecondPayout(v, d, b, p, r, e);
    FirstPayout(v, d, a, b, x);
    assert ((p + r) * d) * e == x * e + (r * e) * d by {
      assert (p + r) * d == x + r * d;
      assert (r * d) * e == (r * e) * d;
    }
    assert x * (e - b) == x * e - x * b;
    assert v * (a + b) == v * a + v * b;
    Cancel((p + r) * d, v * (a + b), e);
  }

  /** Withdrawing a part and then more never pays more than withdrawing both at once. */
  lemma SplitWithdrawal(total: nat, s: nat, a: nat, b: nat)
    requires a + b <= s
    ensures Payout(total, a, s) <= total
    ensures Payout(total, a, s) + Payout(total - Payout(total, a, s), b, s - a) <= Payout(total, a + b, s)
  {
    PayoutWithinBand(total, a, s);
    var p := Payout(total, a, s);
    var r := Payout(total - p, b, s - a);
    PayoutIsMost(total, a, s, Payout(total, a, s));
    PayoutIsMost(total - p, b, s - a, Payout(total - p, b, s - a));
    SplitBound(total + 1, s + DEAD_SHARES, a, b, p, r);
    DivLower((total + 1) * (a + b), s + DEAD_SHARES, p + r);
  }

  /** The part of `u` shares that a withdrawal of the fraction `frac` takes. */
  function Taken(u: nat, frac: nat): (r: nat)
    requires frac <= WAD
    ensures r <= u
  {
    MulMono(frac, WAD, u);
    DivMono(frac * u, WAD * u, WAD);
    DivOfMul(u, WAD);
    Div(frac * u, WAD)
  }

  /** It takes the most shares that the fraction covers. */
  lemma TakenIsMost(u: nat, frac: nat, q: nat)
    requires frac <= WAD
    ensures q <= Taken(u, frac) <==> q * WAD <= frac * u
  {
    Product3(frac, u, 1);
    FloorIsGreatest(frac * u, WAD, q);
  }

  /** Only a full withdrawal empties a share. */
  lemma TakenAll(u: nat, frac: nat)
    requires frac <= WAD && u > 0
    ensures Taken(u, frac) == u <==> frac == WAD
  {
    TakenIsMost(u, frac, u);
    if frac < WAD {
      MulMono(frac, WAD - 1, u);
    }
  }
}
