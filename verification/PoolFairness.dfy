/** Band shares cannot be gamed: what depositing, withdrawing and splitting withdrawals may gain. */
module PoolFairness {
  import opened Numbers
  import opened Ledger
  import opened Ticks
  import opened BandShares
  import opened AmmPool
  import opened PoolInvariant
  import opened PoolWithdraw

  lemma {:induction false} SumPayoutsWithin(bands: Bands, total: Bands, b: int, n2: int, shares: seq<nat>, y: nat,
                                            yRest: nat)
    requires |shares| == n2 - b + 1 && shares != []
    requires forall c :: b <= c <= n2 ==>
               Payout(Get(bands, c), TakenAt(b, shares, c), Get(total, c)) <= BandDeposit(b, c, n2, y, yRest)
    ensures SumPayouts(bands, total, b, shares) <= y + (n2 - b) * yRest
    decreases |shares|
  {
    hide Payout;
    assert TakenAt(b, shares, b) == shares[0];
    if |shares| > 1 {
      var b', rest := b + 1, shares[1..];
      forall c | b' <= c <= n2
        ensures Payout(Get(bands, c), TakenAt(b', rest, c), Get(total, c)) <= BandDeposit(b', c, n2, yRest, yRest)
      {
        TakenAtRest(b, shares, c);
        assert BandDeposit(b', c, n2, yRest, yRest) == BandDeposit(b, c, n2, y, yRest);
        assert Payout(Get(bands, c), TakenAt(b, shares, c), Get(total, c)) <= BandDeposit(b, c, n2, y, yRest);
      }
      SumPayoutsWithin(bands, total, b', n2, rest, yRest, yRest);
      assert (n2 - b) * yRest == yRest + (n2 - b') * yRest;
    }
  }

  /** Bands without a coin pay none of it. */
  lemma {:induction false} SumPayoutsOfNone(bands: Bands, total: Bands, b: int, shares: seq<nat>)
    requires Covered(total, b, shares) && forall c :: b <= c < b + |shares| ==> Get(bands, c) == 0
    ensures SumPayouts(bands, total, b, shares) == 0
    decreases |shares|
  {
    if shares != [] {
      CoveredRest(total, b, shares, Get(total, b));
      PayoutWithinBand(0, shares[0], Get(total, b));
      SumPayoutsOfNone(bands, total[b := Get(total, b)], b + 1, shares[1..]);
      SumPayoutsFrame(bands, total[b := Get(total, b)], bands, total, b + 1, shares[1..]);
    }
  }

  lemma DepositedShareWorth(q: Params, p: Pool, amount: nat, n1: int, n2: int, m: Minted, c: int)
    requires n1 <= c <= n2 && MintFor(q, p, amount, n1, n2) == Some(m) && |m.shares| == n2 - n1 + 1
    ensures Payout(Get(m.bandsY, c), TakenAt(n1, m.shares, c), Get(m.total, c)) <= DepositedIn(q, amount, n1, n2, c)
  {
    MintForFacts(q, p, amount, n1, n2, m);
    var y, yRest := InFirstBand(q, amount, n2 - n1 + 1), PerBand(q, amount, n2 - n1 + 1);
    DepositFromPrice(p.bandsX, p.bandsY, p.total, n1, n2, y, yRest, m, c);
    var d := DepositedIn(q, amount, n1, n2, c);
    DepositThenWithdraw(Get(p.total, c), d, Get(p.bandsY, c));
    assert TakenAt(n1, m.shares, c) == SharesFor(Get(p.total, c), d, Get(p.bandsY, c));
  }

  /** A deposit withdrawn at once goes through, pays no borrowed coin and never more than was deposited. */
  lemma DepositThenWithdrawGainsNothing(q: Params, p: Pool, user: Address, amount: nat, n1: int, n2: int)
    requires Inv(q, p) && Deposit(q, p, user, amount, n1, n2).Some?
    ensures
      var r := Withdraw(q, Deposit(q, p, user, amount, n1, n2).value, user, WAD);
      r.Some? && r.value.x == 0 && r.value.y <= amount
  {
    var p1, m := Deposit(q, p, user, amount, n1, n2).value, MintFor(q, p, amount, n1, n2).value;
    DepositKeepsInv(q, p, user, amount, n1, n2);
    MintForFacts(q, p, amount, n1, n2, m);
    PositionAfterSave(n1, n2, UserOf(p.users, user).slots, m.shares);
    SumXYIsWhatWithdrawPays(q, p1, user);
    assert Position(UserOf(p1.users, user)) == (n1, m.shares);
    UserCovered(q, p1, user, WAD);
    TakenOfAll(m.shares);
    SkipToFacts(p.bandsX, p.active, n1, 0);
    SumPayoutsOfNone(p1.bandsX, p1.total, n1, m.shares);
    DivOfMul(0, q.bPrec);
    DepositWorth(q, p, amount, n1, n2, m);
    DivMono(SumPayouts(m.bandsY, m.total, n1, m.shares), amount * q.cPrec, q.cPrec);
    DivOfMul(amount, q.cPrec);
  }

  lemma DepositWorth(q: Params, p: Pool, amount: nat, n1: int, n2: int, m: Minted)
    requires n1 <= n2 && MintFor(q, p, amount, n1, n2) == Some(m) && |m.shares| == n2 - n1 + 1
    ensures SumPayouts(m.bandsY, m.total, n1, m.shares) <= amount * q.cPrec
  {
    var y, yRest := InFirstBand(q, amount, n2 - n1 + 1), PerBand(q, amount, n2 - n1 + 1);
    forall c | n1 <= c <= n2
      ensures Payout(Get(m.bandsY, c), TakenAt(n1, m.shares, c), Get(m.total, c)) <= BandDeposit(n1, c, n2, y, yRest)
    {
      DepositedShareWorth(q, p, amount, n1, n2, m, c);
    }
    SumPayoutsWithin(m.bandsY, m.total, n1, n2, m.shares, y, yRest);
    assert (n2 - n1) * yRest == yRest * (n2 - n1);
  }

  // ---------------------------------------------------------------- splitting

  /** The i-th band of a range before and after a first withdrawal that leaves `rest` of its shares to be withdrawn. */
  ghost predicate BandSplit(bands: Bands, total: Bands, bands': Bands, total': Bands, c: int, first: nat, rest: nat) {
    && first + rest <= Get(total, c) && 0 < rest && Get(total', c) == Get(total, c) - first
    && Get(bands', c) == Left(Get(bands, c), first, Get(total, c))
  }

  /** Band by band, two successive payouts never exceed the payout of both shares at once. */
  lemma {:induction false} SumPayoutsSplit(bands: Bands, total: Bands, bands': Bands, total': Bands, b: int,
                                           first: seq<nat>, rest: seq<nat>, all: seq<nat>)
    requires |first| == |rest| == |all| && forall i :: 0 <= i < |all| ==> all[i] == first[i] + rest[i]
    requires forall i :: 0 <= i < |all| ==> BandSplit(bands, total, bands', total', b + i, first[i], rest[i])
    ensures SumPayouts(bands, total, b, first) + SumPayouts(bands', total', b, rest) <= SumPayouts(bands, total, b, all)
    decreases |all|
  {
    hide Payout;
    if all != [] {
      assert BandSplit(bands, total, bands', total', b + 0, first[0], rest[0]);
      SplitWithdrawal(Get(bands, b), Get(total, b), first[0], rest[0]);
      var f, r, a := first[1..], rest[1..], all[1..];
      forall i | 0 <= i < |a|
        ensures a[i] == f[i] + r[i] && BandSplit(bands, total, bands', total', b + 1 + i, f[i], r[i]) {
        assert all[i + 1] == first[i + 1] + rest[i + 1];
        assert BandSplit(bands, total, bands', total', b + (i + 1), first[i + 1], rest[i + 1]);
      }
      SumPayoutsSplit(bands, total, bands', total', b + 1, f, r, a);
    }
  }

  lemma DivSplit(a: nat, b: nat, c: nat, d: nat)
    requires d > 0 && a + b <= c
    ensures Div(a, d) + Div(b, d) <= Div(c, d)
  {
    DivBounds(a, d);
    DivBounds(b, d);
    Distribute(a / d, b / d, d);
    DivLower(c, d, a / d + b / d);
  }

  /** Withdrawing a fraction and then the rest never pays more of either coin than withdrawing everything at once. */
  lemma SplittingNeverPays(q: Params, p: Pool, user: Address, frac: nat)
    requires Inv(q, p) && Live(p, user) && frac < WAD
    ensures Withdraw(q, p, user, frac).Some? && Withdraw(q, Withdraw(q, p, user, frac).value.pool, user, WAD).Some?
    ensures
      var r1 := Withdraw(q, p, user, frac).value;
      var r2 := Withdraw(q, r1.pool, user, WAD).value;
      r1.x + r2.x <= GetSumXY(q, p, user).0 && r1.y + r2.y <= GetSumXY(q, p, user).1
  {
    WithdrawNeverReverts(q, p, user, frac);
    WithdrawKeepsInv(q, p, user, frac);
    WithdrawIsLive(q, p, user, frac);
    WithdrawShape(q, p, user, frac);
    var p1, t := Withdraw(q, p, user, frac).value.pool, UserOf(p.users, user);
    EntryAfterShares(t, frac, 0);
    SumXYIsWhatWithdrawPays(q, p1, user);
    var n1, all := FirstBand(p, user), SharesOf(p, user);
    var first, rest := TakenOf(all, frac), Remaining(all, frac);
    RestAfterPartial(q, p, user, frac);
    var w := Draw(q, p, user, frac).value;
    WithdrawFromPays(q, StartDrawing(p, n1), n1, first, w);
    SplitBands(q, p, user, frac);
    DivSplit(SumPayouts(p.bandsX, p.total, n1, first), SumPayouts(p1.bandsX, p1.total, n1, rest),
             SumPayouts(p.bandsX, p.total, n1, all), q.bPrec);
    DivSplit(SumPayouts(p.bandsY, p.total, n1, first), SumPayouts(p1.bandsY, p1.total, n1, rest),
             SumPayouts(p.bandsY, p.total, n1, all), q.cPrec);
  }

  lemma RestAfterPartial(q: Params, p: Pool, user: Address, frac: nat)
    requires Inv(q, p) && Live(p, user) && frac < WAD
    ensures Position(EntryAfter(UserOf(p.users, user), frac)) ==
            (FirstBand(p, user), Remaining(SharesOf(p, user), frac))
    ensures AllPositive(Remaining(SharesOf(p, user), frac))
  {
    var t := UserOf(p.users, user);
    LiveShares(q, p, user);
    var left := Remaining(SharesOf(p, user), frac);
    forall i | 0 <= i < |left| ensures 0 < left[i] < Q128 {
      TakenAll(SharesOf(p, user)[i], frac);
    }
    ReadOfSave(t.slots, left);
  }

  lemma SplitBands(q: Params, p: Pool, user: Address, frac: nat)
    requires Inv(q, p) && Live(p, user) && frac < WAD && Withdraw(q, p, user, frac).Some?
    ensures
      var p1, n1, all := Withdraw(q, p, user, frac).value.pool, FirstBand(p, user), SharesOf(p, user);
      var first, rest := TakenOf(all, frac), Remaining(all, frac);
      && SumPayouts(p.bandsX, p.total, n1, first) + SumPayouts(p1.bandsX, p1.total, n1, rest) <=
           SumPayouts(p.bandsX, p.total, n1, all)
      && SumPayouts(p.bandsY, p.total, n1, first) + SumPayouts(p1.bandsY, p1.total, n1, rest) <=
           SumPayouts(p.bandsY, p.total, n1, all)
  {
    WithdrawIsLive(q, p, user, frac);
    WithdrawShape(q, p, user, frac);
    UserCovered(q, p, user, WAD);
    LiveShares(q, p, user);
    TakenOfAll(SharesOf(p, user));
    RestAfterPartial(q, p, user, frac);
    var n1 := FirstBand(p, user);
    SplitDraw(q, StartDrawing(p, n1), n1, SharesOf(p, user), frac, Draw(q, p, user, frac).value);
  }

  lemma SplitDraw(q: Params, w: Drawn, b: int, all: seq<nat>, frac: nat, w': Drawn)
    requires q.Valid() && frac < WAD && Covered(w.total, b, all)
    requires WithdrawFrom(q, w, b, TakenOf(all, frac)) == Some(w')
    requires AllPositive(Remaining(all, frac))
    ensures SumPayouts(w.bandsX, w.total, b, TakenOf(all, frac)) +
            SumPayouts(w'.bandsX, w'.total, b, Remaining(all, frac))
      <= SumPayouts(w.bandsX, w.total, b, all)
    ensures SumPayouts(w.bandsY, w.total, b, TakenOf(all, frac)) +
            SumPayouts(w'.bandsY, w'.total, b, Remaining(all, frac))
      <= SumPayouts(w.bandsY, w.total, b, all)
  {
    hide Payout;
    var first, rest := TakenOf(all, frac), Remaining(all, frac);
    forall c ensures TakenAt(b, first, c) <= Get(w.total, c) {
      assert TakenAt(b, all, c) <= Get(w.total, c);
    }
    forall i | 0 <= i < |all|
      ensures BandSplit(w.bandsX, w.total, w'.bandsX, w'.total, b + i, first[i], rest[i])
      ensures BandSplit(w.bandsY, w.total, w'.bandsY, w'.total, b + i, first[i], rest[i]) {
      assert TakenAt(b, all, b + i) <= Get(w.total, b + i);
      WithdrawFromInside(q, w, b, first, w', b + i);
    }
    SumPayoutsSplit(w.bandsX, w.total, w'.bandsX, w'.total, b, first, rest, all);
    SumPayoutsSplit(w.bandsY, w.total, w'.bandsY, w'.total, b, first, rest, all);
  }

  lemma SameValue(total: nat, s: nat)
    ensures ShareValueKept(total, s, total, s)
  {
  }

  /** No deposit lowers the collateral per share of any band. */
  lemma DepositKeepsValue(q: Params, p: Pool, user: Address, amount: nat, n1: int, n2: int, p': Pool, c: int)
    requires q.Valid() && Deposit(q, p, user, amount, n1, n2) == Some(p')
    ensures ShareValueKept(Get(p.bandsY, c), Get(p.total, c), Get(p'.bandsY, c), Get(p'.total, c))
  {
    MintKeepsValue(q, p, amount, n1, n2, MintFor(q, p, amount, n1, n2).value, c);
  }

  lemma MintKeepsValue(q: Params, p: Pool, amount: nat, n1: int, n2: int, m: Minted, c: int)
    requires n1 <= n2 && MintFor(q, p, amount, n1, n2) == Some(m)
    ensures ShareValueKept(Get(p.bandsY, c), Get(p.total, c), Get(m.bandsY, c), Get(m.total, c))
  {
    hide ShareValueKept, SharesFor;
    MintForFacts(q, p, amount, n1, n2, m);
    if n1 <= c <= n2 {
      var y, yRest := InFirstBand(q, amount, n2 - n1 + 1), PerBand(q, amount, n2 - n1 + 1);
      DepositFromPrice(p.bandsX, p.bandsY, p.total, n1, n2, y, yRest, m, c);
      DepositKeepsShareValue(Get(p.total, c), DepositedIn(q, amount, n1, n2, c), Get(p.bandsY, c));
    } else {
      SameValue(Get(p.bandsY, c), Get(p.total, c));
    }
  }

  /** No withdrawal lowers either coin per share of a band that keeps shares. */
  lemma WithdrawKeepsValue(q: Params, p: Pool, user: Address, frac: nat, r: Paid, c: int)
    requires Inv(q, p) && Withdraw(q, p, user, frac) == Some(r) && Get(r.pool.total, c) > 0
    ensures ShareValueKept(Get(p.bandsX, c), Get(p.total, c), Get(r.pool.bandsX, c), Get(r.pool.total, c))
    ensures ShareValueKept(Get(p.bandsY, c), Get(p.total, c), Get(r.pool.bandsY, c), Get(r.pool.total, c))
  {
    WithdrawIsLive(q, p, user, frac);
    WithdrawShape(q, p, user, frac);
    UserCovered(q, p, user, frac);
    var n1, taken := FirstBand(p, user), TakenOf(SharesOf(p, user), frac);
    DrawKeepsValue(q, StartDrawing(p, n1), n1, taken, Draw(q, p, user, frac).value, c);
  }

  lemma DrawKeepsValue(q: Params, w: Drawn, b: int, taken: seq<nat>, w': Drawn, c: int)
    requires q.Valid() && Covered(w.total, b, taken) && WithdrawFrom(q, w, b, taken) == Some(w') && Get(w'.total, c) > 0
    ensures ShareValueKept(Get(w.bandsX, c), Get(w.total, c), Get(w'.bandsX, c), Get(w'.total, c))
    ensures ShareValueKept(Get(w.bandsY, c), Get(w.total, c), Get(w'.bandsY, c), Get(w'.total, c))
  {
    hide ShareValueKept, Payout;
    if b <= c < b + |taken| {
      WithdrawFromInside(q, w, b, taken, w', c);
      WithdrawKeepsShareValue(Get(w.bandsX, c), TakenAt(b, taken, c), Get(w.total, c));
      WithdrawKeepsShareValue(Get(w.bandsY, c), TakenAt(b, taken, c), Get(w.total, c));
    } else {
      WithdrawFromOutside(q, w, b, taken, w', c);
      SameValue(Get(w.bandsX, c), Get(w.total, c));
      SameValue(Get(w.bandsY, c), Get(w.total, c));
    }
  }
}
