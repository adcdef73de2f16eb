/** The AMM as a contract: storage fields and the methods that update them. */
module AmmContract {
  import opened Numbers
  import opened Ledger
  import opened Ticks
  import opened BandShares
  import opened BandWalk
  import opened AmmPool
  import opened PoolInvariant
  import opened PoolWithdraw
  import opened PoolExchange
  import opened PriceOracle
  import opened SwapLoops

  /** Write order does not matter: a mapping with the written values in the written range is the written mapping. */
  lemma WrittenMap(m: Bands, n: int, pump: bool, vals: seq<nat>, m': Bands)
    requires forall b :: b in m' <==> b in m || 0 <= IndexOf(n, pump, b) < |vals|
    requires forall b :: b in m' ==>
        m'[b] == if 0 <= IndexOf(n, pump, b) < |vals| then vals[IndexOf(n, pump, b)] else m[b]
    ensures m' == WriteBands(m, n, pump, vals)
  {
    var w := WriteBands(m, n, pump, vals);
    forall b ensures b in w <==> b in m' {
      WrittenKeys(m, n, pump, vals, b);
    }
    forall b | b in m' ensures w[b] == m'[b] {
      GetWritten(m, n, pump, vals, b);
    }
  }

  lemma {:induction false} WrittenKeys(m: Bands, n: int, pump: bool, vals: seq<nat>, b: int)
    ensures b in WriteBands(m, n, pump, vals) <==> b in m || 0 <= IndexOf(n, pump, b) < |vals|
    decreases |vals|
  {
    if vals != [] {
      WrittenKeys(m, n, pump, vals[..|vals| - 1], b);
    }
  }

  /** The bands from `low` up to, but not including, `b` have their values of `vals`. */
  ghost predicate WrittenUpTo(m: Bands, n: int, pump: bool, vals: seq<nat>, m': Bands, low: int, b: int) {
    && (forall c :: c in m' <==> c in m || low <= c < b)
    && (forall c :: c in m' ==>
          m'[c] == if low <= c < b && 0 <= IndexOf(n, pump, c) < |vals| then vals[IndexOf(n, pump, c)]
                   else Get(m, c))
  }

  lemma NothingWritten(m: Bands, n: int, pump: bool, vals: seq<nat>, low: int)
    ensures WrittenUpTo(m, n, pump, vals, m, low, low)
  {
  }

  lemma WriteNext(m: Bands, n: int, pump: bool, vals: seq<nat>, m': Bands, low: int, b: int)
    requires WrittenUpTo(m, n, pump, vals, m', low, b) && low <= b && 0 <= IndexOf(n, pump, b) < |vals|
    ensures WrittenUpTo(m, n, pump, vals, m'[b := vals[IndexOf(n, pump, b)]], low, b + 1)
  {
  }

  lemma WrittenAll(m: Bands, n: int, pump: bool, vals: seq<nat>, m': Bands, low: int)
    requires vals != [] && low == Min(n, At(n, pump, |vals| - 1))
    requires WrittenUpTo(m, n, pump, vals, m', low, low + |vals|)
    ensures m' == WriteBands(m, n, pump, vals)
  {
    hide WriteBands;
    WrittenMap(m, n, pump, vals, m');
  }

  /** When a deposit goes through, and the state it leaves. */
  lemma DepositCases(q: Params, p: Pool, user: Address, amount: nat, n1: int, n2: int)
    requires q.Valid()
    ensures ValidRange(n1, n2) ==> n1 <= n2
    ensures
      if ValidRange(n1, n2) && PerBand(q, amount, n2 - n1 + 1) > 100 && UserOf(p.users, user).slots[0] == 0
         && SkipTo(p.bandsX, p.active, n1, 0).Some? && MintFor(q, p, amount, n1, n2).Some?
         && |MintFor(q, p, amount, n1, n2).value.shares| <= MAX_TICKS
      then
        var m := MintFor(q, p, amount, n1, n2).value;
        var t := UserTicks(PackNumbers(n1, n2), SaveShares(UserOf(p.users, user).slots, m.shares));
        Deposit(q, p, user, amount, n1, n2) ==
          Some(p.(active := SkipTo(p.bandsX, p.active, n1, 0).value,
                  minBand := Min(p.minBand, n1), maxBand := Max(p.maxBand, n2),
                  bandsY := m.bandsY, total := m.total, users := p.users[user := t], heldY := p.heldY + amount))
      else Deposit(q, p, user, amount, n1, n2) == None
  {
  }

  lemma SwapTradeIgnoresLimit(q: Params, p: Pool, r: FeeRates, o: Order)
    requires q.Valid() && r.admin <= WAD
    ensures SwapTrade(q, p, r, o.(minmax := 0)) == SwapTrade(q, p, r, o)
  {
  }

  /** A trade that gives something out spans a run of bands, and can be stored: the AMM holds what it owes. */
  lemma ExchangeStores(q: Params, p: Pool, r: FeeRates, o: Order)
    requires Inv(q, p) && r.admin <= WAD && SwapTrade(q, p, r, o).Some?
    requires Div(SwapTrade(q, p, r, o).value.outAmount, OutPrec(q, o.pump)) > 0
    ensures
      var t := SwapTrade(q, p, r, o).value;
      && t.ticksIn != [] && t.n2 == At(t.n1, o.pump, |t.ticksIn| - 1)
      && Settle(q, p, o.pump, t, Div(t.inAmount, InPrec(q, o.pump)), Div(t.outAmount, OutPrec(q, o.pump))).Some?
  {
    SwapTradeIsRounded(q, p, r, o);
    RawTradeSettles(q, p, r, o);
    var raw, env := RawTrade(q, p, r, o).value, EnvOf(q, p, r, o);
    NothingTraded(raw, OutPrec(q, o.pump), InPrec(q, o.pump));
    SettleKeepsSlack(q, p, env, o.pump, raw);
  }

  /** When a withdrawal goes through, and the state it leaves. */
  lemma WithdrawCases(q: Params, p: Pool, user: Address, frac: nat)
    requires q.Valid()
    ensures
      var t := UserOf(p.users, user);
      var (n1, shares) := Position(t);
      var r := AmmPool.Withdraw(q, p, user, frac);
      if frac > WAD || shares == [] || shares[0] == 0 then r == None else
        var w := WithdrawFrom(q, StartDrawing(p, n1), n1, TakenOf(shares, frac));
        if w.None? || Div(w.value.outX, q.bPrec) > p.heldX || Div(w.value.outY, q.cPrec) > p.heldY then r == None else
          var x, y := Div(w.value.outX, q.bPrec), Div(w.value.outY, q.cPrec);
          var slots := if frac == WAD then t.slots[0 := 0] else SaveShares(t.slots, Remaining(shares, frac));
          r == Some(Paid(Pool(p.active, w.value.minBand,
                              if p.maxBand <= n1 + |shares| - 1 then w.value.maxBand else p.maxBand,
                              w.value.bandsX, w.value.bandsY, w.value.total, p.users[user := t.(slots := slots)],
                              w.value.feesX, w.value.feesY, p.heldX - x, p.heldY - y), x, y))
  {
    hide WithdrawFrom, Position, SaveShares, Remaining, TakenOf, Div, UserOf;
  }

  /**
   * The outcome of a withdrawal before it is stored: bands and fees, the user's entry, the user's last band, the
   * payment.
   */
  datatype Withdrawal = Withdrawal(w: Drawn, entry: UserTicks, n2: int, x: nat, y: nat) {
    function Store(p: Pool, user: Address): Pool
      requires x <= p.heldX && y <= p.heldY
    {
      Pool(p.active, w.minBand, if p.maxBand <= n2 then w.maxBand else p.maxBand, w.bandsX, w.bandsY, w.total,
           p.users[user := entry], w.feesX, w.feesY, p.heldX - x, p.heldY - y)
    }
  }

  class Amm {
    const params: Params
    var fee: nat
    var adminFee: nat
    var rateMul: Positive
    var rate: nat
    var rateTime: nat
    var oldPO: nat
    var oldDfee: nat
    var prevPOTime: nat
    var activeBand: int
    var minBand: int
    var maxBand: int
    var adminFeesX: nat
    var adminFeesY: nat
    var bandsX: Bands
    var bandsY: Bands
    var totalShares: Bands
    var userShares: map<Address, UserTicks>
    var heldX: nat // the balances that the token contracts keep for the AMM
    var heldY: nat

    ghost function State(): Pool
      reads this
    {
      Pool(activeBand, minBand, maxBand, bandsX, bandsY, totalShares, userShares, adminFeesX, adminFeesY, heldX, heldY)
    }

    ghost function OracleState(): Oracle
      reads this
    {
      Oracle(oldPO, oldDfee, prevPOTime)
    }

    ghost function RateState(): Rate
      reads this
    {
      Rate(rateMul, rate, rateTime)
    }

    constructor (q: Params, fee: nat, adminFee: nat, price: nat, now: nat)
      requires q.Valid()
      ensures params == q && State() == NewPool() && OracleState() == Oracle(price, 0, now)
      ensures RateState() == Rate(WAD, 0, 0) && this.fee == fee && this.adminFee == adminFee
    {
      params := q;
      this.fee, this.adminFee := fee, adminFee;
      rateMul, rate, rateTime := WAD, 0, 0;
      oldPO, oldDfee, prevPOTime := price, 0, now;
      activeBand, minBand, maxBand, adminFeesX, adminFeesY := 0, 0, 0, 0, 0;
      bandsX, bandsY, totalShares, userShares := map[], map[], map[], map[];
      heldX, heldY := 0, 0;
    }

    /** `set_rate`. */
    method SetRate(newRate: nat, now: nat) returns (mul: Positive)
      requires rateTime <= now
      modifies this`rateMul, this`rate, this`rateTime
      ensures RateState() == PriceOracle.SetRate(old(RateState()), newRate, now) && mul == rateMul
    {
      mul := RateMul(Rate(rateMul, rate, rateTime), now);
      rateMul := mul;
      rateTime := now;
      rate := newRate;
    }

    /** `get_rate_mul`. */
    method GetRateMul(now: nat) returns (mul: Positive)
      requires rateTime <= now
      ensures mul == RateMul(RateState(), now)
    {
      return RateMul(Rate(rateMul, rate, rateTime), now);
    }

    /** `read_user_tick_numbers`. */
    method ReadUserTickNumbers(user: Address) returns (n1: int, n2: int)
      ensures (n1, n2) == UnpackNumbers(UserOf(userShares, user).ns)
    {
      var ns := UnpackNumbers(UserOf(userShares, user).ns);
      return ns.0, ns.1;
    }

    /** `active_band_with_skip`. */
    method ActiveBandWithSkip() returns (n: int)
      ensures n == ActiveWithSkip(State())
    {
      n := activeBand;
      var i := 0;
      while i < MAX_SKIP_TICKS
        invariant 0 <= i <= MAX_SKIP_TICKS
        invariant ActiveWithSkip(State()) == SkipDown(State(), n, i)
      {
        if n < minBand {
          return activeBand - MAX_SKIP_TICKS;
        }
        if Get(bandsX, n) != 0 {
          return;
        }
        n, i := n - 1, i + 1;
      }
    }

    /** `_price_oracle_w`. */
    method PriceOracleW(price: nat, now: nat) returns (pO: nat, dynFee: nat)
      requires prevPOTime <= now && oldDfee < WAD
      modifies this`oldPO, this`oldDfee, this`prevPOTime
      ensures OracleState() == Accept(old(OracleState()), price, now) && pO == oldPO && dynFee == oldDfee
      ensures oldDfee < WAD
    {
      FeeStaysBelowOne(Oracle(oldPO, oldDfee, prevPOTime), price, now);
      var p := LimitPO(Oracle(oldPO, oldDfee, prevPOTime), price, now);
      prevPOTime := now;
      oldPO := p.0;
      oldDfee := p.1;
      return p.0, p.1;
    }

    /** `deposit_range`. A revert leaves the storage as it was. */
    method DepositRange(user: Address, amount: nat, n1: int, n2: int) returns (ok: bool)
      requires params.Valid()
      modifies this`activeBand, this`minBand, this`maxBand, this`bandsY, this`totalShares, this`userShares, this`heldY
      ensures
        var r := Deposit(params, old(State()), user, amount, n1, n2);
        if r.Some? then ok && r.value == State() else !ok && State() == old(State())
    {
      hide Deposit, PerBand, SaveShares, PackNumbers, MintFor, SkipTo, ValidRange, UserOf;
      DepositCases(params, State(), user, amount, n1, n2);
      ok := false;
      if ValidRange(n1, n2) && PerBand(params, amount, n2 - n1 + 1) > 100 && UserOf(userShares, user).slots[0] == 0 {
        var n0 := SkipBands(n1);
        var minted := MintShares(amount, n1, n2);
        if n0.Some? && minted.Some? && |minted.value.shares| <= MAX_TICKS {
          StoreDeposit(user, amount, n1, n2, n0.value, minted.value);
          ok := true;
        }
      }
    }

    /** The storage writes of `deposit_range`. */
    method StoreDeposit(user: Address, amount: nat, n1: int, n2: int, n0: int, minted: Minted)
      requires |minted.shares| <= MAX_TICKS
      modifies this`activeBand, this`minBand, this`maxBand, this`bandsY, this`totalShares, this`userShares, this`heldY
      ensures activeBand == n0 && minBand == Min(old(minBand), n1) && maxBand == Max(old(maxBand), n2)
      ensures bandsY == minted.bandsY && totalShares == minted.total && heldY == old(heldY) + amount
      ensures userShares == old(userShares)[user :=
        UserTicks(PackNumbers(n1, n2), SaveShares(UserOf(old(userShares), user).slots, minted.shares))]
    {
      hide UserOf, SaveShares, PackNumbers;
      activeBand := n0;
      totalShares, bandsY := minted.total, minted.bandsY;
      minBand, maxBand := Min(minBand, n1), Max(maxBand, n2);
      var slots := SaveUserShares(UserOf(userShares, user).slots, minted.shares);
      userShares := userShares[user := UserTicks(PackNumbers(n1, n2), slots)];
      heldY := heldY + amount;
    }

    /** The loop of `deposit_range` that skips empty bands. */
    method SkipBands(n1: int) returns (n0: Option<int>)
      ensures n0 == SkipTo(bandsX, activeBand, n1, 0)
    {
      var n, i := activeBand, 0;
      while n1 <= n
        invariant 0 <= i <= MAX_SKIP_TICKS
        invariant SkipTo(bandsX, activeBand, n1, 0) == SkipTo(bandsX, n, n1, i)
        decreases n - n1
      {
        if Get(bandsX, n) != 0 || i >= MAX_SKIP_TICKS {
          return None;
        }
        n, i := n - 1, i + 1;
      }
      return Some(n);
    }

    /** The loop of `deposit_range` over the bands. */
    method MintShares(amount: nat, n1: int, n2: int) returns (minted: Option<Minted>)
      requires n1 <= n2
      ensures minted == MintFor(params, State(), amount, n1, n2)
    {
      hide SharesFor;
      var nBands := n2 - n1 + 1;
      var yFirst, yRest := InFirstBand(params, amount, nBands), PerBand(params, amount, nBands);
      var newY: Bands, total: Bands, shares: seq<nat> := bandsY, totalShares, [];
      var band, y: nat := n1, yFirst;
      ghost var all := DepositFrom(bandsX, bandsY, totalShares, n1, n2, yFirst, yRest);
      assert all.Some? ==> [] + all.value.shares == all.value.shares;
      while band <= n2
        invariant n1 <= band <= n2 + 1
        invariant all ==
          match DepositFrom(bandsX, newY, total, band, n2, y, yRest)
          case None => None
          case Some(m) => Some(m.(shares := shares + m.shares))
        decreases n2 - band
      {
        if Get(bandsX, band) != 0 {
          return None;
        }
        var totalY, s := Get(newY, band), Get(total, band);
        var ds := SharesFor(s, y, totalY);
        if ds == 0 || s + ds >= Q128 {
          return None;
        }
        ghost var rest :=
          DepositFrom(bandsX, newY[band := totalY + y], total[band := s + ds], band + 1, n2, yRest, yRest);
        if rest.Some? {
          assert shares + ([ds] + rest.value.shares) == (shares + [ds]) + rest.value.shares;
        }
        shares := shares + [ds];
        total := total[band := s + ds];
        newY := newY[band := totalY + y];
        y := yRest;
        band := band + 1;
      }
      assert shares + [] == shares;
      return Some(Minted(newY, total, shares));
    }

    /** One band of `withdraw`. */
    method DrawBand(w: Drawn, n: int, ds: nat) returns (r: Option<Drawn>)
      requires params.Valid()
      ensures r == WithdrawBand(params, w, n, ds)
    {
      hide Payout, Div;
      var x, y, s := Get(w.bandsX, n), Get(w.bandsY, n), Get(w.total, n);
      if ds > s {
        return None;
      }
      PayoutWithinBand(x, ds, s);
      PayoutWithinBand(y, ds, s);
      var dx, dy := Payout(x, ds, s), Payout(y, ds, s);
      var newX: nat, newY: nat, feesX, feesY := x - dx, y - dy, w.feesX, w.feesY;
      if s - ds == 0 {
        feesX := feesX + Div(newX, params.bPrec);
        feesY := feesY + Div(newY, params.cPrec);
        newX, newY := 0, 0;
      }
      r := Some(Drawn(w.bandsX[n := newX], w.bandsY[n := newY], w.total[n := s - ds], feesX, feesY,
                      if n == w.minBand && newX == 0 && newY == 0 then w.minBand + 1 else w.minBand,
                      if newX > 0 || newY > 0 then n else w.maxBand, w.outX + dx, w.outY + dy));
    }

    /** The loop of `withdraw`: each band in turn gives up the user's part; also the shares that remain. */
    method DrawBands(n1: int, shares: seq<nat>, frac: nat) returns (r: Option<Drawn>, rest: seq<nat>)
      requires params.Valid() && frac <= WAD
      ensures r == WithdrawFrom(params, StartDrawing(State(), n1), n1, TakenOf(shares, frac))
      ensures r.Some? ==> rest == Remaining(shares, frac)
    {
      hide Taken, WithdrawBand;
      ghost var taken := TakenOf(shares, frac);
      var w := Drawn(bandsX, bandsY, totalShares, adminFeesX, adminFeesY, minBand, n1 - 1, 0, 0);
      ghost var w0 := w;
      rest := [];
      var n, i := n1, 0;
      assert taken[0..] == taken;
      while i < |shares|
        invariant 0 <= i <= |shares| && n == n1 + i
        invariant WithdrawFrom(params, w0, n1, taken) == WithdrawFrom(params, w, n, taken[i..])
        invariant rest == Remaining(shares, frac)[..i]
      {
        var ds := Taken(shares[i], frac);
        assert taken[i..][0] == ds && taken[i..][1..] == taken[i + 1..];
        rest := rest + [shares[i] - ds];
        var next := DrawBand(w, n, ds);
        if next.None? {
          return None, rest;
        }
        w := next.value;
        n, i := n + 1, i + 1;
      }
      assert taken[i..] == [];
      return Some(w), rest;
    }

    /** The reading half of `withdraw`: what to store and to pay, or None where the call reverts. */
    method PrepareWithdrawal(user: Address, frac: nat) returns (r: Option<Withdrawal>)
      requires params.Valid()
      ensures AmmPool.Withdraw(params, State(), user, frac) ==
        match r
        case None => None
        case Some(d) => if d.x > heldX || d.y > heldY then None else Some(Paid(d.Store(State(), user), d.x, d.y))
    {
      hide AmmPool.Withdraw, WithdrawFrom, Position, SaveShares, Remaining, TakenOf, Div, UserOf;
      WithdrawCases(params, State(), user, frac);
      var t := UserOf(userShares, user);
      var (n1, shares) := Position(t);
      if frac > WAD || shares == [] || shares[0] == 0 {
        return None;
      }
      var w, rest := DrawBands(n1, shares, frac);
      if w.None? {
        return None;
      }
      var slots := t.slots[0 := 0];
      if frac != WAD {
        slots := SaveUserShares(t.slots, rest);
      }
      return Some(Withdrawal(w.value, t.(slots := slots), n1 + |shares| - 1,
                             Div(w.value.outX, params.bPrec), Div(w.value.outY, params.cPrec)));
    }

    /** `withdraw`: the fraction of every share of the user, and what it is worth in both coins. */
    method Withdraw(user: Address, frac: nat) returns (ok: bool, x: nat, y: nat)
      requires params.Valid()
      modifies this`bandsX, this`bandsY, this`totalShares, this`adminFeesX, this`adminFeesY, this`userShares
      modifies this`minBand, this`maxBand, this`heldX, this`heldY
      ensures
        var r := AmmPool.Withdraw(params, old(State()), user, frac);
        if r.Some? then ok && r.value == Paid(State(), x, y) else !ok && State() == old(State())
    {
      hide Inv, AmmPool.Withdraw;
      var r := PrepareWithdrawal(user, frac);
      ok, x, y := r.Some? && r.value.x <= heldX && r.value.y <= heldY, 0, 0;
      if ok {
        ghost var p' := r.value.Store(State(), user);
        x, y := r.value.x, r.value.y;
        StoreWithdrawal(user, r.value);
        assert State() == p';
      }
    }

    /** The storage writes of `withdraw`, and the transfers that the Controller makes next. */
    method StoreWithdrawal(user: Address, d: Withdrawal)
      requires d.x <= heldX && d.y <= heldY
      modifies this`bandsX, this`bandsY, this`totalShares, this`adminFeesX, this`adminFeesY, this`userShares
      modifies this`minBand, this`maxBand, this`heldX, this`heldY
      ensures bandsX == d.w.bandsX && bandsY == d.w.bandsY && totalShares == d.w.total && adminFeesX == d.w.feesX
      ensures adminFeesY == d.w.feesY
      ensures minBand == d.w.minBand && maxBand == (if old(maxBand) <= d.n2 then d.w.maxBand else old(maxBand))
      ensures userShares == old(userShares)[user := d.entry] && heldX == old(heldX) - d.x && heldY == old(heldY) - d.y
    {
      bandsX, bandsY, totalShares := d.w.bandsX, d.w.bandsY, d.w.total;
      adminFeesX, adminFeesY := d.w.feesX, d.w.feesY;
      userShares := userShares[user := d.entry];
      minBand := d.w.minBand;
      if maxBand <= d.n2 {
        maxBand := d.w.maxBand;
      }
      heldX, heldY := heldX - d.x, heldY - d.y;
    }

    /** `get_sum_xy`. */
    method SumXY(user: Address) returns (x: nat, y: nat)
      requires params.Valid()
      ensures (x, y) == GetSumXY(params, State(), user)
    {
      hide Payout, Div, Position;
      x, y := 0, 0;
      var t := UserOf(userShares, user);
      var (n1, ticks) := Position(t);
      if t.slots[0] != 0 {
        var n, i := n1, 0;
        assert ticks[0..] == ticks;
        while i < |ticks|
          invariant 0 <= i <= |ticks| && n == n1 + i
          invariant SumPayouts(bandsX, totalShares, n1, ticks) == x + SumPayouts(bandsX, totalShares, n, ticks[i..])
          invariant SumPayouts(bandsY, totalShares, n1, ticks) == y + SumPayouts(bandsY, totalShares, n, ticks[i..])
        {
          assert ticks[i..][1..] == ticks[i + 1..];
          var s, ds := Get(totalShares, n), ticks[i];
          x := x + Payout(Get(bandsX, n), ds, s);
          y := y + Payout(Get(bandsY, n), ds, s);
          n, i := n + 1, i + 1;
        }
        x, y := Div(x, params.bPrec), Div(y, params.cPrec);
      }
    }

    /** `reset_admin_fees`, together with the transfers before it. */
    method ResetAdminFees() returns (ok: bool, feesX: nat, feesY: nat)
      modifies this`adminFeesX, this`adminFeesY, this`heldX, this`heldY
      ensures feesX == old(adminFeesX) && feesY == old(adminFeesY)
      ensures
        var r := TakeFees(old(State()));
        if r.Some? then ok && r.value == State() else !ok && State() == old(State())
    {
      feesX, feesY := adminFeesX, adminFeesY;
      ok := feesX <= heldX && feesY <= heldY;
      if ok {
        heldX, heldY := heldX - feesX, heldY - feesY;
        adminFeesX, adminFeesY := 0, 0;
      }
    }

    /** The loop of `_exchange` that stores the ticks of a trade, from the lowest traded band up. */
    method StoreTicks(pump: bool, t: Trade)
      requires t.ticksIn != [] && t.n2 == At(t.n1, pump, |t.ticksIn| - 1)
      modifies this`bandsX, this`bandsY
      ensures bandsX == WriteBands(old(bandsX), t.n1, pump,
          if pump then t.ticksIn else OutTicks(|t.ticksIn|, t.lastTickJ))
      ensures bandsY == WriteBands(old(bandsY), t.n1, pump,
          if pump then OutTicks(|t.ticksIn|, t.lastTickJ) else t.ticksIn)
    {
      hide WriteBands, WrittenUpTo;
      var nDiff, n := |t.ticksIn| - 1, Min(t.n1, t.n2);
      var newX: Bands, newY: Bands := bandsX, bandsY;
      ghost var low, outs := n, OutTicks(|t.ticksIn|, t.lastTickJ);
      ghost var xs, ys := if pump then t.ticksIn else outs, if pump then outs else t.ticksIn;
      NothingWritten(bandsX, t.n1, pump, xs, low);
      NothingWritten(bandsY, t.n1, pump, ys, low);
      var k := 0;
      while k <= nDiff
        invariant 0 <= k <= nDiff + 1 && n == low + k && bandsX == old(bandsX) && bandsY == old(bandsY)
        invariant WrittenUpTo(bandsX, t.n1, pump, xs, newX, low, n)
        invariant WrittenUpTo(bandsY, t.n1, pump, ys, newY, low, n)
      {
        var x, y := 0, 0;
        if pump {
          x := t.ticksIn[k];
          if n == t.n2 {
            y := t.lastTickJ;
          }
        } else {
          y := t.ticksIn[nDiff - k];
          if n == t.n2 {
            x := t.lastTickJ;
          }
        }
        WriteNext(bandsX, t.n1, pump, xs, newX, low, n);
        WriteNext(bandsY, t.n1, pump, ys, newY, low, n);
        newX, newY := newX[n := x], newY[n := y];
        n, k := n + 1, k + 1;
      }
      WrittenAll(bandsX, t.n1, pump, xs, newX, low);
      WrittenAll(bandsY, t.n1, pump, ys, newY, low);
      bandsX, bandsY := newX, newY;
    }

    /** The reading half of `_exchange`: the trade that the bands and the oracle price allow, in whole tokens. */
    method PrepareExchange(pump: bool, exactIn: bool, amount: nat, pO: nat, dynFee: nat,
                           pUp: nat) returns (t: Option<Trade>)
      requires params.Valid() && adminFee <= WAD
      ensures t == SwapTrade(params, State(), FeeRates(fee, adminFee), Order(pump, exactIn, amount, 0, pO, dynFee, pUp))
    {
      hide CalcSwap;
      var env := Env(params.a, pO, Max(fee, dynFee), adminFee, params.maxDn, pump, exactIn,
                     if pump then maxBand else minBand, if pump then bandsY else bandsX);
      var inPrec, outPrec := if pump then params.bPrec else params.cPrec, if pump then params.cPrec else params.bPrec;
      var toSwap := if exactIn then amount * inPrec else if amount < MAX_UINT then amount * outPrec else MAX_UINT;
      t := CalcSwapLoop(env, activeBand, pUp, bandsX, bandsY, toSwap, inPrec, outPrec);
    }

    /** The storage writes and transfers of `_exchange`. */
    method StoreExchange(pump: bool, t: Trade, inDone: nat, outDone: nat)
      requires params.Valid() && t.ticksIn != [] && t.n2 == At(t.n1, pump, |t.ticksIn| - 1)
      requires Settle(params, State(), pump, t, inDone, outDone).Some?
      modifies this`bandsX, this`bandsY, this`adminFeesX, this`adminFeesY, this`activeBand, this`heldX, this`heldY
      ensures State() == Settle(params, old(State()), pump, t, inDone, outDone).value
    {
      hide WriteBands, OutTicks, Div;
      ghost var p' := Settle(params, State(), pump, t, inDone, outDone).value;
      var fee := Div(t.adminFee, if pump then params.bPrec else params.cPrec);
      if pump {
        adminFeesX := adminFeesX + fee;
        heldX, heldY := heldX + inDone, heldY - outDone;
      } else {
        adminFeesY := adminFeesY + fee;
        heldY, heldX := heldY + inDone, heldX - outDone;
      }
      StoreTicks(pump, t);
      activeBand := t.n2;
    }

    /** The assertions of `_exchange`: slippage, and whether anything is exchanged at all. */
    method CheckExchange(pump: bool, exactIn: bool, amount: nat, minmax: nat, pO: nat, dynFee: nat, pUp: nat)
      returns (ok: bool, t: Trade, inDone: nat, outDone: nat)
      requires Inv(params, State()) && adminFee <= WAD
      ensures
        var o := Order(pump, exactIn, amount, minmax, pO, dynFee, pUp);
        match AmmPool.Exchange(params, State(), FeeRates(fee, adminFee), o)
        case None => !ok
        case Some(e) =>
          && ok && e.inDone == inDone && e.outDone == outDone
          && (if outDone == 0 then e.pool == State() else
                && t.ticksIn != [] && t.n2 == At(t.n1, pump, |t.ticksIn| - 1)
                && Settle(params, State(), pump, t, inDone, outDone) == Some(e.pool))
    {
      ghost var o, rates := Order(pump, exactIn, amount, minmax, pO, dynFee, pUp), FeeRates(fee, adminFee);
      if amount == 0 {
        return true, NO_TRADE, 0, 0;
      }
      var trade := PrepareExchange(pump, exactIn, amount, pO, dynFee, pUp);
      SwapTradeIgnoresLimit(params, State(), rates, o);
      hide Inv, SwapTrade, Settle, Div;
      if trade.None? {
        return false, NO_TRADE, 0, 0;
      }
      t := trade.value;
      inDone := Div(t.inAmount, if pump then params.bPrec else params.cPrec);
      outDone := Div(t.outAmount, if pump then params.cPrec else params.bPrec);
      ok := if exactIn then outDone >= minmax else inDone <= minmax && (outDone == amount || amount == MAX_UINT);
      if outDone == 0 || inDone == 0 {
        inDone, outDone := 0, 0;
      } else if ok {
        ExchangeStores(params, State(), rates, o);
      }
    }

    /** `_exchange`: the oracle is updated even when nothing is traded; a revert undoes that too. */
    method Exchange(pump: bool, exactIn: bool, amount: nat, minmax: nat, price: nat, pUp: nat, now: nat)
      returns (ok: bool, inDone: nat, outDone: nat)
      requires Inv(params, State()) && adminFee <= WAD && prevPOTime <= now
      modifies this`oldPO, this`oldDfee, this`prevPOTime, this`bandsX, this`bandsY, this`adminFeesX, this`adminFeesY
      modifies this`activeBand, this`heldX, this`heldY
      ensures
        var quote := LimitPO(old(OracleState()), price, now);
        var o := Order(pump, exactIn, amount, minmax, quote.0, quote.1, pUp);
        var r := AmmPool.Exchange(params, old(State()), FeeRates(fee, adminFee), o);
        if r.Some? then
          ok && r.value == Exchanged(State(), inDone, outDone)
          && OracleState() == Accept(old(OracleState()), price, now)
        else !ok && State() == old(State()) && OracleState() == old(OracleState())
    {
      assert params.Valid();
      var quote := LimitPO(Oracle(oldPO, oldDfee, prevPOTime), price, now);
      hide Inv, LimitPO, AmmPool.Exchange, Settle;
      var t;
      ok, t, inDone, outDone := CheckExchange(pump, exactIn, amount, minmax, quote.0, quote.1, pUp);
      if ok {
        if outDone != 0 {
          StoreExchange(pump, t, inDone, outDone);
        }
        prevPOTime := now;
        oldPO, oldDfee := quote.0, quote.1;
      }
    }
  }
}
