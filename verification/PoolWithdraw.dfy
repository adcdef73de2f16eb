/** Withdrawals keep the invariant, never revert for a user with liquidity, and pay what `get_sum_xy` shows. */
module PoolWithdraw {
  import opened Numbers
  import opened Ledger
  import opened Ticks
  import opened BandShares
  import opened AmmPool
  import opened PoolInvariant

  /** What stays of one coin in a band when `ds` of its `s` shares leave. */
  function Left(total: nat, ds: nat, s: nat): nat
    requires ds <= s
  {
    PayoutWithinBand(total, ds, s);
    if s == ds then 0 else total - Payout(total, ds, s)
  }

  /** The shares taken out of band c. */
  function TakenAt(b: int, taken: seq<nat>, c: int): nat {
    if b <= c < b + |taken| then taken[c - b] else 0
  }

  /** Each withdrawn share is covered by the band's total. */
  ghost predicate Covered(total: Bands, b: int, taken: seq<nat>) {
    forall c :: TakenAt(b, taken, c) <= Get(total, c)
  }

  lemma TakenAtRest(b: int, taken: seq<nat>, c: int)
    requires taken != []
    ensures TakenAt(b + 1, taken[1..], c) == if c == b then 0 else TakenAt(b, taken, c)
  {
  }

  lemma CoveredRest(total: Bands, b: int, taken: seq<nat>, v: nat)
    requires taken != [] && Covered(total, b, taken)
    ensures taken[0] <= Get(total, b) && Covered(total[b := v], b + 1, taken[1..])
  {
    assert TakenAt(b, taken, b) == taken[0];
    var b', rest, total' := b + 1, taken[1..], total[b := v];
    forall c ensures TakenAt(b', rest, c) <= Get(total', c) {
      TakenAtRest(b, taken, c);
      assert TakenAt(b, taken, c) <= Get(total, c);
    }
  }

  function WithdrawnTotal(w: Drawn, b: int, ds: nat): nat {
    if ds <= Get(w.total, b) then Get(w.total, b) - ds else 0
  }

  /** One band's share of the withdrawal. */
  lemma WithdrawBandFacts(q: Params, w: Drawn, b: int, ds: nat)
    requires q.Valid() && ds <= Get(w.total, b)
    ensures WithdrawBand(q, w, b, ds).Some?
    ensures
      var w', s := WithdrawBand(q, w, b, ds).value, Get(w.total, b);
      && w'.total == w.total[b := s - ds]
      && w'.bandsX == w.bandsX[b := Left(Get(w.bandsX, b), ds, s)]
      && w'.bandsY == w.bandsY[b := Left(Get(w.bandsY, b), ds, s)]
      && w'.outX == w.outX + Payout(Get(w.bandsX, b), ds, s)
      && w'.outY == w.outY + Payout(Get(w.bandsY, b), ds, s)
      && w'.minBand == (if b == w.minBand && Left(Get(w.bandsX, b), ds, s) == 0 == Left(Get(w.bandsY, b), ds, s)
                        then b + 1 else w.minBand)
      && w'.maxBand == (if Left(Get(w.bandsX, b), ds, s) > 0 || Left(Get(w.bandsY, b), ds, s) > 0 then b else w.maxBand)
  {
  }

  /** Nothing leaves a band but the payout and the dust, and no more than the dust is credited to the admin. */
  lemma WithdrawBandConserves(q: Params, w: Drawn, b: int, ds: nat)
    requires q.Valid() && ds <= Get(w.total, b)
    ensures
      var w' := WithdrawBand(q, w, b, ds).value;
      && Sum(w'.bandsX) + w'.feesX * q.bPrec + w'.outX <= Sum(w.bandsX) + w.feesX * q.bPrec + w.outX
      && Sum(w'.bandsY) + w'.feesY * q.cPrec + w'.outY <= Sum(w.bandsY) + w.feesY * q.cPrec + w.outY
  {
    var x, y, s := Get(w.bandsX, b), Get(w.bandsY, b), Get(w.total, b);
    SumPut(w.bandsX, b, Left(x, ds, s));
    SumPut(w.bandsY, b, Left(y, ds, s));
    DustCredit(w.feesX, x, ds, s, q.bPrec);
    DustCredit(w.feesY, y, ds, s, q.cPrec);
  }

  lemma DustCredit(fees: nat, x: nat, ds: nat, s: nat, prec: nat)
    requires prec >= 1 && ds <= s
    ensures Payout(x, ds, s) <= x
    ensures
      var dust := if s == ds then Div(x - Payout(x, ds, s), prec) else 0;
      Left(x, ds, s) + (fees + dust) * prec + Payout(x, ds, s) <= x + fees * prec
  {
    PayoutWithinBand(x, ds, s);
    DivBounds(x - Payout(x, ds, s), prec);
    Distribute(fees, Div(x - Payout(x, ds, s), prec), prec);
  }

  /** A withdrawal covered by the totals goes through all its bands without reverting, and conserves both coins. */
  lemma {:induction false} WithdrawFromConserves(q: Params, w: Drawn, b: int, taken: seq<nat>)
    requires q.Valid() && Covered(w.total, b, taken)
    ensures WithdrawFrom(q, w, b, taken).Some?
    ensures
      var w' := WithdrawFrom(q, w, b, taken).value;
      && Sum(w'.bandsX) + w'.feesX * q.bPrec + w'.outX <= Sum(w.bandsX) + w.feesX * q.bPrec + w.outX
      && Sum(w'.bandsY) + w'.feesY * q.cPrec + w'.outY <= Sum(w.bandsY) + w.feesY * q.cPrec + w.outY
    decreases |taken|
  {
    if taken != [] {
      CoveredRest(w.total, b, taken, WithdrawnTotal(w, b, taken[0]));
      WithdrawBandFacts(q, w, b, taken[0]);
      WithdrawBandConserves(q, w, b, taken[0]);
      WithdrawFromConserves(q, WithdrawBand(q, w, b, taken[0]).value, b + 1, taken[1..]);
    }
  }

  /** A band outside the user's range is left alone. */
  lemma {:induction false} WithdrawFromOutside(q: Params, w: Drawn, b: int, taken: seq<nat>, w': Drawn, c: int)
    requires q.Valid() && WithdrawFrom(q, w, b, taken) == Some(w') && (c < b || b + |taken| <= c)
    ensures Get(w'.total, c) == Get(w.total, c) && Get(w'.bandsX, c) == Get(w.bandsX, c)
    ensures Get(w'.bandsY, c) == Get(w.bandsY, c)
    decreases |taken|
  {
    if taken != [] {
      WithdrawFromOutside(q, WithdrawBand(q, w, b, taken[0]).value, b + 1, taken[1..], w', c);
    }
  }

  /** A band inside it gives up the user's shares and what they are worth. */
  lemma {:induction false} WithdrawFromInside(q: Params, w: Drawn, b: int, taken: seq<nat>, w': Drawn, c: int)
    requires q.Valid() && Covered(w.total, b, taken) && WithdrawFrom(q, w, b, taken) == Some(w') && b <= c < b + |taken|
    ensures TakenAt(b, taken, c) <= Get(w.total, c)
    ensures Get(w'.total, c) == Get(w.total, c) - TakenAt(b, taken, c)
    ensures Get(w'.bandsX, c) == Left(Get(w.bandsX, c), TakenAt(b, taken, c), Get(w.total, c))
    ensures Get(w'.bandsY, c) == Left(Get(w.bandsY, c), TakenAt(b, taken, c), Get(w.total, c))
    decreases |taken|
  {
    CoveredRest(w.total, b, taken, WithdrawnTotal(w, b, taken[0]));
    WithdrawBandFacts(q, w, b, taken[0]);
    var w1 := WithdrawBand(q, w, b, taken[0]).value;
    if c == b {
      WithdrawFromOutside(q, w1, b + 1, taken[1..], w', c);
    } else {
      TakenAtRest(b, taken, c);
      WithdrawFromInside(q, w1, b + 1, taken[1..], w', c);
    }
  }

  ghost predicate DrawnEmpty(w: Drawn, c: int) {
    Get(w.bandsX, c) == 0 && Get(w.bandsY, c) == 0
  }

  /** The upper bound is the highest band left with coins, if any. */
  lemma {:induction false} WithdrawFromTop(q: Params, w: Drawn, b: int, taken: seq<nat>, w': Drawn)
    requires q.Valid() && WithdrawFrom(q, w, b, taken) == Some(w') && w.maxBand < b
    ensures w'.maxBand != w.maxBand ==> b <= w'.maxBand < b + |taken| && !DrawnEmpty(w', w'.maxBand)
    ensures forall c :: b <= c < b + |taken| && c > w'.maxBand ==> DrawnEmpty(w', c)
    decreases |taken|
  {
    hide Payout, WithdrawBand;
    if taken != [] {
      var w1 := WithdrawBand(q, w, b, taken[0]).value;
      BandBounds(q, w, b, taken[0]);
      WithdrawFromTop(q, w1, b + 1, taken[1..], w');
      WithdrawFromOutside(q, w1, b + 1, taken[1..], w', b);
    }
  }

  lemma BandBounds(q: Params, w: Drawn, b: int, ds: nat)
    requires q.Valid() && WithdrawBand(q, w, b, ds).Some?
    ensures
      var w' := WithdrawBand(q, w, b, ds).value;
      && w'.maxBand == (if DrawnEmpty(w', b) then w.maxBand else b)
      && w'.minBand == (if b == w.minBand && DrawnEmpty(w', b) then b + 1 else w.minBand)
  {
    hide Payout;
  }

  /** The lower bound moves up over the bands left empty and stops at the first that is not. */
  lemma {:induction false} WithdrawFromBottom(q: Params, w: Drawn, b: int, taken: seq<nat>, w': Drawn)
    requires q.Valid() && WithdrawFrom(q, w, b, taken) == Some(w')
    ensures !(b <= w.minBand < b + |taken|) ==> w'.minBand == w.minBand
    ensures b <= w.minBand < b + |taken| ==>
              w.minBand <= w'.minBand <= b + |taken| && (w'.minBand < b + |taken| ==> !DrawnEmpty(w', w'.minBand))
    ensures forall c :: w.minBand <= c < w'.minBand ==> DrawnEmpty(w', c)
    decreases |taken|
  {
    hide Payout, WithdrawBand;
    if taken != [] {
      var w1 := WithdrawBand(q, w, b, taken[0]).value;
      BandBounds(q, w, b, taken[0]);
      WithdrawFromBottom(q, w1, b + 1, taken[1..], w');
      WithdrawFromOutside(q, w1, b + 1, taken[1..], w', b);
    }
  }

  /** What is paid out is the sum over the bands of the payouts at the prices before the withdrawal. */
  lemma {:induction false} WithdrawFromPays(q: Params, w: Drawn, b: int, taken: seq<nat>, w': Drawn)
    requires q.Valid() && WithdrawFrom(q, w, b, taken) == Some(w')
    ensures w'.outX == w.outX + SumPayouts(w.bandsX, w.total, b, taken)
    ensures w'.outY == w.outY + SumPayouts(w.bandsY, w.total, b, taken)
    decreases |taken|
  {
    hide Payout;
    if taken != [] {
      var w1 := WithdrawBand(q, w, b, taken[0]).value;
      WithdrawBandFacts(q, w, b, taken[0]);
      WithdrawFromPays(q, w1, b + 1, taken[1..], w');
      SumPayoutsFrame(w.bandsX, w.total, w1.bandsX, w1.total, b + 1, taken[1..]);
      SumPayoutsFrame(w.bandsY, w.total, w1.bandsY, w1.total, b + 1, taken[1..]);
    }
  }

  lemma {:induction false} SumPayoutsFrame(bands: Bands, total: Bands, bands': Bands, total': Bands, b: int,
                                           shares: seq<nat>)
    requires forall c :: b <= c ==> Get(bands, c) == Get(bands', c) && Get(total, c) == Get(total', c)
    ensures SumPayouts(bands, total, b, shares) == SumPayouts(bands', total', b, shares)
    decreases |shares|
  {
    if shares != [] {
      SumPayoutsFrame(bands, total, bands', total', b + 1, shares[1..]);
    }
  }

  // ---------------------------------------------------------------- whole withdrawals

  function SharesOf(p: Pool, user: Address): seq<nat> {
    Position(UserOf(p.users, user)).1
  }

  function FirstBand(p: Pool, user: Address): int {
    Position(UserOf(p.users, user)).0
  }

  function StartDrawing(p: Pool, n1: int): Drawn {
    Drawn(p.bandsX, p.bandsY, p.total, p.feesX, p.feesY, p.minBand, n1 - 1, 0, 0)
  }

  function Draw(q: Params, p: Pool, user: Address, frac: nat): Option<Drawn>
    requires q.Valid() && frac <= WAD
  {
    WithdrawFrom(q, StartDrawing(p, FirstBand(p, user)), FirstBand(p, user), TakenOf(SharesOf(p, user), frac))
  }

  lemma LiveShares(q: Params, p: Pool, user: Address)
    requires Inv(q, p) && Live(p, user)
    ensures SharesOf(p, user) != [] && AllPositive(SharesOf(p, user))
  {
    assert UserOk(UserOf(p.users, user));
  }

  /** The ledger covers what any user may take out. */
  lemma UserCovered(q: Params, p: Pool, user: Address, frac: nat)
    requires Inv(q, p) && Live(p, user) && frac <= WAD
    ensures Covered(p.total, FirstBand(p, user), TakenOf(SharesOf(p, user), frac))
  {
    var n1, taken := FirstBand(p, user), TakenOf(SharesOf(p, user), frac);
    forall c ensures TakenAt(n1, taken, c) <= Get(p.total, c) {
      ShareWithinTotal(p, user, c);
    }
  }

  lemma PaidWithinHeld(sum: nat, fees: nat, prec: nat, out: nat, held: nat)
    requires prec >= 1 && out <= sum + fees * prec <= held * prec
    ensures Div(out, prec) <= held
  {
    DivMono(out, held * prec, prec);
    DivOfMul(held, prec);
  }

  /** A user with liquidity can always withdraw any fraction: no underflow, no shortage of tokens. */
  lemma WithdrawNeverReverts(q: Params, p: Pool, user: Address, frac: nat)
    requires Inv(q, p) && Live(p, user) && frac <= WAD
    ensures Withdraw(q, p, user, frac).Some?
  {
    LiveShares(q, p, user);
    UserCovered(q, p, user, frac);
    var n1, taken := FirstBand(p, user), TakenOf(SharesOf(p, user), frac);
    WithdrawFromConserves(q, StartDrawing(p, n1), n1, taken);
    var w := Draw(q, p, user, frac).value;
    PaidWithinHeld(Sum(p.bandsX), p.feesX, q.bPrec, w.outX, p.heldX);
    PaidWithinHeld(Sum(p.bandsY), p.feesY, q.cPrec, w.outY, p.heldY);
  }

  /** The user's entry after a withdrawal: the remaining shares in the same bands, or none at all. */
  function EntryAfter(t: UserTicks, frac: nat): UserTicks
    requires frac <= WAD
  {
    var shares := Position(t).1;
    t.(slots := if frac == WAD then t.slots[0 := 0] else SaveShares(t.slots, Remaining(shares, frac)))
  }

  lemma WithdrawIsLive(q: Params, p: Pool, user: Address, frac: nat)
    requires q.Valid() && Withdraw(q, p, user, frac).Some?
    ensures Live(p, user) && frac <= WAD && Draw(q, p, user, frac).Some?
  {
    hide Payout, WithdrawFrom, Taken, Div;
    var t := UserOf(p.users, user);
    assert ReadShare(t.slots, 0) == t.slots[0] % Q128;
  }

  /** The state after a withdrawal. */
  lemma WithdrawShape(q: Params, p: Pool, user: Address, frac: nat)
    requires q.Valid() && Withdraw(q, p, user, frac).Some? && frac <= WAD && Draw(q, p, user, frac).Some?
    ensures
      var r, w := Withdraw(q, p, user, frac).value, Draw(q, p, user, frac).value;
      var n2 := FirstBand(p, user) + |SharesOf(p, user)| - 1;
      && r.x == Div(w.outX, q.bPrec) <= p.heldX && r.y == Div(w.outY, q.cPrec) <= p.heldY
      && r.pool == p.(bandsX := w.bandsX, bandsY := w.bandsY, total := w.total, feesX := w.feesX, feesY := w.feesY,
                      minBand := w.minBand, maxBand := if p.maxBand <= n2 then w.maxBand else p.maxBand,
                      users := p.users[user := EntryAfter(UserOf(p.users, user), frac)],
                      heldX := p.heldX - r.x, heldY := p.heldY - r.y)
  {
    hide Payout, WithdrawFrom, Taken, Div, SaveShares, Remaining;
  }

  /** A partial withdrawal never zeroes a share, and what is left reads back; a full one leaves nothing. */
  lemma EntryAfterShares(t: UserTicks, frac: nat, b: int)
    requires frac <= WAD && t.slots[0] != 0 && UserOk(t)
    ensures UserOk(EntryAfter(t, frac))
    ensures EntryAfter(t, frac).slots[0] != 0 <==> frac < WAD
    ensures ShareAt(EntryAfter(t, frac), b) + TakenAt(Position(t).0, TakenOf(Position(t).1, frac), b) == ShareAt(t, b)
  {
    hide Taken, ReadShare, UnpackNumbers, SaveShares;
    var (n1, shares) := Position(t);
    if frac < WAD {
      var left := Remaining(shares, frac);
      forall i | 0 <= i < |shares| ensures 0 < left[i] < Q128 {
        TakenAll(shares[i], frac);
      }
      ReadOfSave(t.slots, left);
      LiveAfterSave(t.slots, left);
      assert Position(EntryAfter(t, frac)) == (n1, left);
    } else {
      if n1 <= b < n1 + |shares| {
        TakenAll(shares[b - n1], frac);
      }
    }
  }

  lemma WithdrawKeepsLedger(q: Params, p: Pool, user: Address, frac: nat)
    requires Inv(q, p) && Withdraw(q, p, user, frac).Some?
    ensures LedgerKept(Withdraw(q, p, user, frac).value.pool) && UsersOk(Withdraw(q, p, user, frac).value.pool)
  {
    WithdrawIsLive(q, p, user, frac);
    WithdrawShape(q, p, user, frac);
    UserCovered(q, p, user, frac);
    var p', w, t := Withdraw(q, p, user, frac).value.pool, Draw(q, p, user, frac).value, UserOf(p.users, user);
    var n1, taken := FirstBand(p, user), TakenOf(SharesOf(p, user), frac);
    EntryAfterShares(t, frac, 0);
    forall b ensures Sum(SharesAt(p'.users, b)) == Get(p'.total, b) {
      EntryAfterShares(t, frac, b);
      LedgerPut(p.users, user, EntryAfter(t, frac), b);
      if n1 <= b < n1 + |taken| {
        WithdrawFromInside(q, StartDrawing(p, n1), n1, taken, w, b);
      } else {
        WithdrawFromOutside(q, StartDrawing(p, n1), n1, taken, w, b);
      }
    }
  }

  /** A withdrawal never adds to a band, and leaves nothing in a band whose shares are gone. */
  lemma WithdrawShrinks(q: Params, p: Pool, user: Address, frac: nat, b: int)
    requires Inv(q, p) && Withdraw(q, p, user, frac).Some?
    ensures
      var p' := Withdraw(q, p, user, frac).value.pool;
      && Get(p'.bandsX, b) <= Get(p.bandsX, b) && Get(p'.bandsY, b) <= Get(p.bandsY, b)
      && (Get(p'.total, b) == 0 ==> BandEmpty(p', b))
  {
    WithdrawIsLive(q, p, user, frac);
    WithdrawShape(q, p, user, frac);
    UserCovered(q, p, user, frac);
    var w := Draw(q, p, user, frac).value;
    var n1, taken := FirstBand(p, user), TakenOf(SharesOf(p, user), frac);
    if n1 <= b < n1 + |taken| {
      WithdrawFromInside(q, StartDrawing(p, n1), n1, taken, w, b);
    } else {
      WithdrawFromOutside(q, StartDrawing(p, n1), n1, taken, w, b);
      assert Get(p.total, b) == 0 ==> BandEmpty(p, b);
    }
  }

  lemma WithdrawKeepsRange(q: Params, p: Pool, user: Address, frac: nat)
    requires Inv(q, p) && Withdraw(q, p, user, frac).Some?
    ensures Bounded(Withdraw(q, p, user, frac).value.pool)
  {
    WithdrawIsLive(q, p, user, frac);
    WithdrawShape(q, p, user, frac);
    var p', w := Withdraw(q, p, user, frac).value.pool, Draw(q, p, user, frac).value;
    var n1, taken := FirstBand(p, user), TakenOf(SharesOf(p, user), frac);
    WithdrawFromTop(q, StartDrawing(p, n1), n1, taken, w);
    WithdrawFromBottom(q, StartDrawing(p, n1), n1, taken, w);
    forall b | b < p'.minBand || b > p'.maxBand ensures BandEmpty(p', b) {
      WithdrawShrinks(q, p, user, frac, b);
      assert b < p.minBand || b > p.maxBand ==> BandEmpty(p, b);
      assert BandEmpty(p', b) <==> DrawnEmpty(w, b);
    }
  }

  /**
   * The bands and fees after a withdrawal, together with what it takes out, are covered by the bands and fees before.
   */
  lemma DrawConserves(q: Params, p: Pool, user: Address, frac: nat)
    requires Inv(q, p) && Live(p, user) && frac <= WAD
    ensures Draw(q, p, user, frac).Some?
    ensures
      var w := Draw(q, p, user, frac).value;
      && Sum(w.bandsX) + w.feesX * q.bPrec + w.outX <= Sum(p.bandsX) + p.feesX * q.bPrec
      && Sum(w.bandsY) + w.feesY * q.cPrec + w.outY <= Sum(p.bandsY) + p.feesY * q.cPrec
  {
    UserCovered(q, p, user, frac);
    var n1, taken := FirstBand(p, user), TakenOf(SharesOf(p, user), frac);
    WithdrawFromConserves(q, StartDrawing(p, n1), n1, taken);
  }

  /** Rounding payments down to whole tokens and dust down to whole fees never lowers the slack of either coin. */
  lemma WithdrawKeepsSlack(q: Params, p: Pool, user: Address, frac: nat)
    requires Inv(q, p) && Withdraw(q, p, user, frac).Some?
    ensures SlackKept(q, p, Withdraw(q, p, user, frac).value.pool)
  {
    hide Withdraw, Draw, Div, Sum;
    WithdrawIsLive(q, p, user, frac);
    WithdrawShape(q, p, user, frac);
    DrawConserves(q, p, user, frac);
    var w, r := Draw(q, p, user, frac).value, Withdraw(q, p, user, frac).value;
    var p' := r.pool;
    assert p'.bandsX == w.bandsX && p'.feesX == w.feesX && p'.heldX == p.heldX - r.x;
    assert p'.bandsY == w.bandsY && p'.feesY == w.feesY && p'.heldY == p.heldY - r.y;
    PaysWhole(w.outX, q.bPrec, p.heldX, r.x, p'.heldX);
    PaysWhole(w.outY, q.cPrec, p.heldY, r.y, p'.heldY);
  }

  /** Paying out whole tokens only leaves the rounding with the AMM. */
  lemma PaysWhole(out: nat, prec: nat, held: nat, paid: nat, held': nat)
    requires prec >= 1 && paid == Div(out, prec) && held == held' + paid
    ensures held * prec <= held' * prec + out
  {
    DivBounds(out, prec);
    Distribute(held', paid, prec);
  }

  /** Every withdrawal keeps the invariant. */
  lemma WithdrawKeepsInv(q: Params, p: Pool, user: Address, frac: nat)
    requires Inv(q, p) && Withdraw(q, p, user, frac).Some?
    ensures Inv(q, Withdraw(q, p, user, frac).value.pool)
  {
    WithdrawIsLive(q, p, user, frac);
    WithdrawShape(q, p, user, frac);
    var p' := Withdraw(q, p, user, frac).value.pool;
    forall b ensures Get(p'.bandsX, b) <= Get(p.bandsX, b) && Get(p'.bandsY, b) <= Get(p.bandsY, b)
      ensures Get(p'.total, b) == 0 ==> BandEmpty(p', b) {
      WithdrawShrinks(q, p, user, frac, b);
    }
    WithdrawKeepsRange(q, p, user, frac);
    WithdrawKeepsLedger(q, p, user, frac);
    WithdrawKeepsSlack(q, p, user, frac);
  }

  lemma TakenOfAll(shares: seq<nat>)
    requires AllPositive(shares)
    ensures TakenOf(shares, WAD) == shares
  {
    forall i | 0 <= i < |shares| ensures TakenOf(shares, WAD)[i] == shares[i] {
      TakenAll(shares[i], WAD);
    }
  }

  /** The view `get_sum_xy` shows exactly what a full withdrawal pays. */
  lemma SumXYIsWhatWithdrawPays(q: Params, p: Pool, user: Address)
    requires Inv(q, p) && Live(p, user)
    ensures Withdraw(q, p, user, WAD).Some?
    ensures GetSumXY(q, p, user) == (Withdraw(q, p, user, WAD).value.x, Withdraw(q, p, user, WAD).value.y)
  {
    hide Payout, Taken, WithdrawFrom, Div;
    WithdrawNeverReverts(q, p, user, WAD);
    LiveShares(q, p, user);
    TakenOfAll(SharesOf(p, user));
    var n1 := FirstBand(p, user);
    WithdrawFromPays(q, StartDrawing(p, n1), n1, SharesOf(p, user), Draw(q, p, user, WAD).value);
  }
}
