/** When the calls on the AMM go through and what they change, said from storage before and after. */
module PoolEffects {
  import opened Numbers
  import opened Ledger
  import opened Ticks
  import opened BandShares
  import opened BandWalk
  import opened AmmPool
  import opened PoolInvariant
  import opened PoolWithdraw
  import opened PoolExchange

  // ---------------------------------------------------------------- exchanges

  /** The limit that the caller set is missed by what would go in and come out. */
  predicate Misses(o: Order, inDone: nat, outDone: nat) {
    if o.exactIn then outDone < o.minmax
    else inDone > o.minmax || (outDone != o.amount && o.amount != MAX_UINT)
  }

  /** What goes in and comes out in whole tokens for a trade of the bands. */
  ghost predicate WholeAmounts(q: Params, pump: bool, raw: Trade, inDone: nat, outDone: nat) {
    IsCeil(inDone, raw.inAmount, InPrec(q, pump)) && IsFloor(outDone, raw.outAmount, OutPrec(q, pump))
  }

  lemma WholeAmountsOf(q: Params, pump: bool, raw: Trade)
    requires q.Valid()
    ensures
      var t := RoundTrade(raw, InPrec(q, pump), OutPrec(q, pump));
      WholeAmounts(q, pump, raw, Div(t.inAmount, InPrec(q, pump)), Div(t.outAmount, OutPrec(q, pump)))
  {
    WholeTokens(raw, InPrec(q, pump), OutPrec(q, pump));
    DivIsFloor(raw.outAmount, OutPrec(q, pump));
    DivBounds(raw.inAmount + (InPrec(q, pump) - 1), InPrec(q, pump));
  }

  lemma CeilUnique(q: int, q': int, n: int, d: Positive)
    requires IsCeil(q, n, d) && IsCeil(q', n, d)
    ensures q == q'
  {
    if q < q' {
      MulMono(q + 1, q', d);
    } else if q' < q {
      MulMono(q' + 1, q, d);
    }
  }

  lemma FloorUnique(q: int, q': int, n: int, d: Positive)
    requires IsFloor(q, n, d) && IsFloor(q', n, d)
    ensures q == q'
  {
    if q < q' {
      MulMono(q + 1, q', d);
    } else if q' < q {
      MulMono(q' + 1, q, d);
    }
  }

  /** An exchange reverts exactly when the trade does or misses the caller's limit; never for want of tokens. */
  lemma ExchangeReverts(q: Params, p: Pool, r: FeeRates, o: Order, inDone: nat, outDone: nat)
    requires q.Valid() && Inv(q, p) && r.admin <= WAD
    requires RawTrade(q, p, r, o).Some? ==> WholeAmounts(q, o.pump, RawTrade(q, p, r, o).value, inDone, outDone)
    ensures Exchange(q, p, r, o).None? <==>
            o.amount != 0 && (RawTrade(q, p, r, o).None? || Misses(o, inDone, outDone))
  {
    hide Inv, RawTrade, SwapTrade, Settle, RoundTrade, Settled, Misses, WholeAmounts;
    SwapTradeIsRounded(q, p, r, o);
    if RawTrade(q, p, r, o).Some? {
      var raw := RawTrade(q, p, r, o).value;
      var t := RoundTrade(raw, InPrec(q, o.pump), OutPrec(q, o.pump));
      SameAmounts(q, o.pump, raw, inDone, outDone);
      Settles(q, p, r, o);
      LimitIsFair(o, inDone, outDone);
    }
  }

  lemma LimitIsFair(o: Order, inDone: nat, outDone: nat)
    ensures Misses(o, inDone, outDone) <==>
            !(if o.exactIn then outDone >= o.minmax
              else inDone <= o.minmax && (outDone == o.amount || o.amount == MAX_UINT))
  {
  }

  lemma SameAmounts(q: Params, pump: bool, raw: Trade, inDone: nat, outDone: nat)
    requires q.Valid() && WholeAmounts(q, pump, raw, inDone, outDone)
    ensures
      var t := RoundTrade(raw, InPrec(q, pump), OutPrec(q, pump));
      inDone == Div(t.inAmount, InPrec(q, pump)) && outDone == Div(t.outAmount, OutPrec(q, pump))
  {
    WholeAmountsOf(q, pump, raw);
    hide RoundTrade, IsCeil, IsFloor;
    var t := RoundTrade(raw, InPrec(q, pump), OutPrec(q, pump));
    CeilUnique(inDone, Div(t.inAmount, InPrec(q, pump)), raw.inAmount, InPrec(q, pump));
    FloorUnique(outDone, Div(t.outAmount, OutPrec(q, pump)), raw.outAmount, OutPrec(q, pump));
  }

  /** A trade that pays something out can be settled. */
  lemma Settles(q: Params, p: Pool, r: FeeRates, o: Order)
    requires Inv(q, p) && r.admin <= WAD && RawTrade(q, p, r, o).Some?
    ensures
      var t := RoundTrade(RawTrade(q, p, r, o).value, InPrec(q, o.pump), OutPrec(q, o.pump));
      var inDone, outDone := Div(t.inAmount, InPrec(q, o.pump)), Div(t.outAmount, OutPrec(q, o.pump));
      outDone > 0 ==> Settle(q, p, o.pump, t, inDone, outDone).Some?
  {
    assert q.Valid();
    hide Inv, RawTrade, Settle, RoundTrade, Settled;
    var raw, env := RawTrade(q, p, r, o).value, EnvOf(q, p, r, o);
    RawTradeSettles(q, p, r, o);
    TradesSomething(env, InBands(p, o.pump), p.active, raw, q, o.pump);
    if raw.ticksIn != [] {
      SettleKeepsSlack(q, p, env, o.pump, raw);
    }
  }

  lemma TradesSomething(env: Env, inBands: Bands, active: int, raw: Trade, q: Params, pump: bool)
    requires q.Valid() && Settled(env, inBands, active, raw)
    ensures
      var t := RoundTrade(raw, InPrec(q, pump), OutPrec(q, pump));
      Div(t.outAmount, OutPrec(q, pump)) > 0 ==> raw.ticksIn != []
  {
    NothingTraded(raw, OutPrec(q, pump), InPrec(q, pump));
  }

  /** The coins held, fees and shares after an exchange of inDone for outDone with `fee` for the admin. */
  ghost predicate Traded(p: Pool, p': Pool, pump: bool, inDone: nat, outDone: nat, fee: int) {
    && p'.total == p.total && p'.users == p.users && p'.minBand == p.minBand && p'.maxBand == p.maxBand
    && if pump then
         && p'.heldX == p.heldX + inDone && p'.heldY + outDone == p.heldY
         && p'.feesX == p.feesX + fee && p'.feesY == p.feesY
       else
         && p'.heldY == p.heldY + inDone && p'.heldX + outDone == p.heldX
         && p'.feesY == p.feesY + fee && p'.feesX == p.feesX
  }

  /** The band at which the trade stopped keeps what it did not give; those it crossed keep nothing of that coin. */
  ghost predicate GivenOut(p: Pool, p': Pool, pump: bool, raw: Trade) {
    forall b ::
      var i := IndexOf(raw.n1, pump, b);
      Get(InBands(p', !pump), b) ==
        if b == raw.n2 then raw.lastTickJ else if 0 <= i < |raw.ticksIn| then 0 else Get(InBands(p, !pump), b)
  }

  ghost predicate TakenIn(p: Pool, p': Pool, pump: bool, raw: Trade) {
    && Sum(InBands(p', pump)) + raw.adminFee == Sum(InBands(p, pump)) + raw.inAmount
    && forall b ::
         var i := IndexOf(raw.n1, pump, b);
         0 <= i < |raw.ticksIn| || Get(InBands(p', pump), b) == Get(InBands(p, pump), b)
  }

  /** An exchange that pays something out settles the trade. */
  lemma ExchangeSettles(q: Params, p: Pool, r: FeeRates, o: Order, e: Exchanged)
    requires Inv(q, p) && r.admin <= WAD && Exchange(q, p, r, o) == Some(e)
    ensures (e.inDone == 0 <==> e.outDone == 0) && (e.outDone == 0 ==> e.pool == p)
    ensures e.outDone > 0 ==> RawTrade(q, p, r, o).Some?
    ensures
      e.outDone > 0 ==>
        var raw := RawTrade(q, p, r, o).value;
        && WholeAmounts(q, o.pump, raw, e.inDone, e.outDone) && !Misses(o, e.inDone, e.outDone)
        && raw.ticksIn != [] && Settle(q, p, o.pump, raw, e.inDone, e.outDone) == Some(e.pool)
  {
    SwapTradeIsRounded(q, p, r, o);
    if e.outDone > 0 {
      var raw := RawTrade(q, p, r, o).value;
      var t := RoundTrade(raw, InPrec(q, o.pump), OutPrec(q, o.pump));
      WholeAmountsOf(q, o.pump, raw);
      RawTradeSettles(q, p, r, o);
      TradesSomething(EnvOf(q, p, r, o), InBands(p, o.pump), p.active, raw, q, o.pump);
      hide Inv, RawTrade, SwapTrade, Settled, Settle;
      SettleIgnoresAmounts(q, p, o.pump, raw, t, e.inDone, e.outDone);
    }
  }

  lemma SettleMoves(q: Params, p: Pool, pump: bool, raw: Trade, inDone: nat, outDone: nat, p': Pool)
    requires q.Valid() && Settle(q, p, pump, raw, inDone, outDone) == Some(p')
    ensures p'.active == raw.n2
    ensures exists fee: int :: IsFloor(fee, raw.adminFee, InPrec(q, pump)) && Traded(p, p', pump, inDone, outDone, fee)
    ensures InBands(p', pump) == WriteBands(InBands(p, pump), raw.n1, pump, raw.ticksIn)
    ensures InBands(p', !pump) == WriteBands(InBands(p, !pump), raw.n1, pump, OutTicks(|raw.ticksIn|, raw.lastTickJ))
  {
    DivIsFloor(raw.adminFee, InPrec(q, pump));
    assert Traded(p, p', pump, inDone, outDone, Div(raw.adminFee, InPrec(q, pump)));
  }

  /**
   * An exchange that goes through keeps to the caller's limit and amount, and either does nothing or moves the whole
   * tokens of the trade and the admin's part of its fees, and leaves the bands where the trade left them.
   */
  lemma ExchangeMeans(q: Params, p: Pool, r: FeeRates, o: Order, e: Exchanged)
    requires Inv(q, p) && r.admin <= WAD && Exchange(q, p, r, o) == Some(e)
    ensures (e.inDone == 0 <==> e.outDone == 0) && (e.outDone == 0 ==> e.pool == p)
    ensures
      e.outDone > 0 ==>
        && !Misses(o, e.inDone, e.outDone) && (if o.exactIn then e.inDone else e.outDone) <= o.amount
        && RawTrade(q, p, r, o).Some?
    ensures
      e.outDone > 0 ==>
        var raw := RawTrade(q, p, r, o).value;
        && WholeAmounts(q, o.pump, raw, e.inDone, e.outDone) && e.pool.active == raw.n2
        && (exists fee: int :: IsFloor(fee, raw.adminFee, InPrec(q, o.pump)) &&
                               Traded(p, e.pool, o.pump, e.inDone, e.outDone, fee))
        && GivenOut(p, e.pool, o.pump, raw) && TakenIn(p, e.pool, o.pump, raw)
  {
    ExchangeSettles(q, p, r, o, e);
    if e.outDone > 0 {
      hide Inv, RawTrade, Exchange, Settle, WholeAmounts, Traded, GivenOut, TakenIn;
      var raw := RawTrade(q, p, r, o).value;
      TradeWithinAmount(q, p, r, o, e.inDone, e.outDone);
      SettleMoves(q, p, o.pump, raw, e.inDone, e.outDone, e.pool);
      BandsAfter(q, p, r, o, e.pool);
    }
  }

  /** Every trade of an exchange pays the larger of the AMM's fee and the oracle's. */
  lemma ExchangeFee(q: Params, p: Pool, r: FeeRates, o: Order)
    ensures r.fee <= EnvOf(q, p, r, o).fee && o.dynFee <= EnvOf(q, p, r, o).fee
    ensures EnvOf(q, p, r, o).fee == r.fee || EnvOf(q, p, r, o).fee == o.dynFee
  {
  }

  /** The cursor of the trade's first band, with the amount in 18 decimals. */
  function FirstCursor(q: Params, p: Pool, r: FeeRates, o: Order): Cursor {
    MulMono(0, o.amount, InPrec(q, o.pump));
    MulMono(0, o.amount, OutPrec(q, o.pump));
    var amount: nat := if o.exactIn then o.amount * InPrec(q, o.pump)
                       else if o.amount < MAX_UINT then o.amount * OutPrec(q, o.pump) else MAX_UINT;
    Start(p.active, o.pUp, Get(InBands(p, o.pump), p.active), Get(InBands(p, !o.pump), p.active), amount)
  }

  lemma RawTradeFrom(q: Params, p: Pool, r: FeeRates, o: Order)
    requires q.Valid() && r.admin <= WAD
    ensures RawTrade(q, p, r, o) == Walk(EnvOf(q, p, r, o), FirstCursor(q, p, r, o))
  {
    hide Walk;
  }

  lemma CeilOfMultiple(k: int, amount: int, d: Positive)
    requires IsCeil(k, amount * d, d)
    ensures k == amount
  {
    if k < amount {
      MulMono(k + 1, amount, d);
    } else if k > amount {
      MulMono(amount, k - 1, d);
    }
  }

  /** All that the caller offers goes in, unless the trade comes to a band where it has to stop. */
  lemma ExchangeUsesAll(q: Params, p: Pool, r: FeeRates, o: Order, e: Exchanged)
    requires q.Valid() && Inv(q, p) && r.admin <= WAD && Exchange(q, p, r, o) == Some(e) && o.exactIn && e.outDone > 0
    ensures e.inDone == o.amount || Stops(EnvOf(q, p, r, o), LastCursor(EnvOf(q, p, r, o), FirstCursor(q, p, r, o)))
  {
    hide Walk, Ends, Stops, LastCursor, Exchange, Settle, Inv, RawTrade, Misses;
    ExchangeSettles(q, p, r, o, e);
    RawTradeFrom(q, p, r, o);
    var raw, env, prec := RawTrade(q, p, r, o).value, EnvOf(q, p, r, o), InPrec(q, o.pump);
    WalkEnds(env, FirstCursor(q, p, r, o));
    if raw.inAmount == o.amount * prec {
      CeilOfMultiple(e.inDone, o.amount, prec);
    }
  }

  lemma TradeWithinAmount(q: Params, p: Pool, r: FeeRates, o: Order, inDone: nat, outDone: nat)
    requires q.Valid() && r.admin <= WAD && RawTrade(q, p, r, o).Some? && !Misses(o, inDone, outDone)
    requires WholeAmounts(q, o.pump, RawTrade(q, p, r, o).value, inDone, outDone)
    ensures (if o.exactIn then inDone else outDone) <= o.amount
  {
    var raw, env := RawTrade(q, p, r, o).value, EnvOf(q, p, r, o);
    var prec := InPrec(q, o.pump);
    var amount := if o.exactIn then o.amount * prec
                  else if o.amount < MAX_UINT then o.amount * OutPrec(q, o.pump) else MAX_UINT;
    WalkEnds(env, Start(p.active, o.pUp, Get(InBands(p, o.pump), p.active), Get(env.outBands, p.active), amount));
    hide Walk, Ends, Stops, LastCursor;
    assert (if o.exactIn then raw.inAmount else raw.outAmount) <= amount;
    if o.exactIn && inDone > o.amount {
      MulMono(o.amount, inDone - 1, prec);
      Distribute(inDone, 1, prec);
    } else if !o.exactIn && o.amount >= MAX_UINT {
      MulMono(1, OutPrec(q, o.pump), outDone);
    }
  }

  lemma BandsAfter(q: Params, p: Pool, r: FeeRates, o: Order, p': Pool)
    requires Inv(q, p) && r.admin <= WAD && RawTrade(q, p, r, o).Some?
    requires RawTrade(q, p, r, o).value.ticksIn != []
    requires
      var raw := RawTrade(q, p, r, o).value;
      && InBands(p', o.pump) == WriteBands(InBands(p, o.pump), raw.n1, o.pump, raw.ticksIn)
      && InBands(p', !o.pump) ==
         WriteBands(InBands(p, !o.pump), raw.n1, o.pump, OutTicks(|raw.ticksIn|, raw.lastTickJ))
    ensures GivenOut(p, p', o.pump, RawTrade(q, p, r, o).value)
    ensures TakenIn(p, p', o.pump, RawTrade(q, p, r, o).value)
  {
    RawTradeSettles(q, p, r, o);
    hide Inv, RawTrade;
    var raw, env := RawTrade(q, p, r, o).value, EnvOf(q, p, r, o);
    SettledSums(env, InBands(p, o.pump), p.active, raw);
    assert raw.n2 == At(raw.n1, o.pump, |raw.ticksIn| - 1);
    hide Settled, WriteBands, Accounts, Sum;
    WrittenOut(p, p', o.pump, raw);
    WrittenIn(p, p', o.pump, raw);
  }

  lemma WrittenOut(p: Pool, p': Pool, pump: bool, raw: Trade)
    requires raw.ticksIn != [] && raw.n2 == At(raw.n1, pump, |raw.ticksIn| - 1)
    requires InBands(p', !pump) == WriteBands(InBands(p, !pump), raw.n1, pump, OutTicks(|raw.ticksIn|, raw.lastTickJ))
    ensures GivenOut(p, p', pump, raw)
  {
    hide WriteBands;
    forall b
      ensures
        var i := IndexOf(raw.n1, pump, b);
        Get(InBands(p', !pump), b) ==
          if b == raw.n2 then raw.lastTickJ else if 0 <= i < |raw.ticksIn| then 0 else Get(InBands(p, !pump), b)
    {
      GetWritten(InBands(p, !pump), raw.n1, pump, OutTicks(|raw.ticksIn|, raw.lastTickJ), b);
    }
  }

  lemma WrittenIn(p: Pool, p': Pool, pump: bool, raw: Trade)
    requires InBands(p', pump) == WriteBands(InBands(p, pump), raw.n1, pump, raw.ticksIn)
    requires Sum(InBands(p', pump)) + raw.adminFee == Sum(InBands(p, pump)) + raw.inAmount
    ensures TakenIn(p, p', pump, raw)
  {
    hide WriteBands, Sum;
    forall b
      ensures
        var i := IndexOf(raw.n1, pump, b);
        0 <= i < |raw.ticksIn| || Get(InBands(p', pump), b) == Get(InBands(p, pump), b)
    {
      GetWritten(InBands(p, pump), raw.n1, pump, raw.ticksIn, b);
    }
  }

  // ---------------------------------------------------------------- withdrawals

  /** The whole tokens of what payouts leave in the bands whose last shares are taken. */
  function Dust(bands: Bands, total: Bands, b: int, taken: seq<nat>, prec: Positive): nat
    decreases |taken|
  {
    if taken == [] then 0 else
      var x, s := Get(bands, b), Get(total, b);
      (if taken[0] == s && Payout(x, s, s) <= x then Div(x - Payout(x, s, s), prec) else 0)
      + Dust(bands, total, b + 1, taken[1..], prec)
  }

  lemma {:induction false} DustFrame(bands: Bands, total: Bands, bands': Bands, total': Bands, b: int,
                                     taken: seq<nat>, prec: Positive)
    requires forall c :: b <= c ==> Get(bands, c) == Get(bands', c) && Get(total, c) == Get(total', c)
    ensures Dust(bands, total, b, taken, prec) == Dust(bands', total', b, taken, prec)
    decreases |taken|
  {
    hide Payout;
    if taken != [] {
      DustFrame(bands, total, bands', total', b + 1, taken[1..], prec);
    }
  }

  lemma WithdrawBandFees(q: Params, w: Drawn, b: int, ds: nat, rest: seq<nat>)
    requires q.Valid() && WithdrawBand(q, w, b, ds).Some?
    ensures
      var w', taken := WithdrawBand(q, w, b, ds).value, [ds] + rest;
      && w'.feesX + Dust(w.bandsX, w.total, b + 1, rest, q.bPrec) ==
         w.feesX + Dust(w.bandsX, w.total, b, taken, q.bPrec)
      && w'.feesY + Dust(w.bandsY, w.total, b + 1, rest, q.cPrec) ==
         w.feesY + Dust(w.bandsY, w.total, b, taken, q.cPrec)
  {
    hide Payout;
    PayoutWithinBand(Get(w.bandsX, b), ds, Get(w.total, b));
    PayoutWithinBand(Get(w.bandsY, b), ds, Get(w.total, b));
    assert ([ds] + rest)[1..] == rest;
  }

  lemma {:induction false} WithdrawFromFees(q: Params, w: Drawn, b: int, taken: seq<nat>, w': Drawn)
    requires q.Valid() && WithdrawFrom(q, w, b, taken) == Some(w')
    ensures w'.feesX == w.feesX + Dust(w.bandsX, w.total, b, taken, q.bPrec)
    ensures w'.feesY == w.feesY + Dust(w.bandsY, w.total, b, taken, q.cPrec)
    decreases |taken|
  {
    hide Payout, WithdrawBand, Div;
    if taken != [] {
      var w1 := WithdrawBand(q, w, b, taken[0]).value;
      assert taken == [taken[0]] + taken[1..];
      WithdrawBandFees(q, w, b, taken[0], taken[1..]);
      WithdrawFromFees(q, w1, b + 1, taken[1..], w');
      BandOnly(q, w, b, taken[0]);
      DustFrame(w.bandsX, w.total, w1.bandsX, w1.total, b + 1, taken[1..], q.bPrec);
      DustFrame(w.bandsY, w.total, w1.bandsY, w1.total, b + 1, taken[1..], q.cPrec);
    }
  }

  lemma BandOnly(q: Params, w: Drawn, b: int, ds: nat)
    requires q.Valid() && WithdrawBand(q, w, b, ds).Some?
    ensures
      var w' := WithdrawBand(q, w, b, ds).value;
      forall c :: c != b ==>
        && Get(w'.bandsX, c) == Get(w.bandsX, c) && Get(w'.bandsY, c) == Get(w.bandsY, c)
        && Get(w'.total, c) == Get(w.total, c)
  {
    hide Payout;
  }

  /** What a withdrawal of the shares `taken` pays and leaves to the admin, from the bands before it. */
  ghost predicate PaidOut(q: Params, p: Pool, p': Pool, n1: int, taken: seq<nat>, x: nat, y: nat) {
    && q.Valid()
    && IsFloor(x, SumPayouts(p.bandsX, p.total, n1, taken), q.bPrec)
    && IsFloor(y, SumPayouts(p.bandsY, p.total, n1, taken), q.cPrec)
    && p'.heldX + x == p.heldX && p'.heldY + y == p.heldY
    && p'.feesX == p.feesX + Dust(p.bandsX, p.total, n1, taken, q.bPrec)
    && p'.feesY == p.feesY + Dust(p.bandsY, p.total, n1, taken, q.cPrec)
  }

  /** The band bounds after a withdrawal from n1 to n2. */
  ghost predicate Tightened(p: Pool, p': Pool, n1: int, n2: int) {
    && (!(n1 <= p.minBand <= n2) ==> p'.minBand == p.minBand)
    && (n1 <= p.minBand <= n2 ==>
          && p.minBand <= p'.minBand <= n2 + 1 && (p'.minBand <= n2 ==> !BandEmpty(p', p'.minBand))
          && forall b :: p.minBand <= b < p'.minBand ==> BandEmpty(p', b))
    && (p.maxBand > n2 ==> p'.maxBand == p.maxBand)
    && (p.maxBand <= n2 ==>
          && n1 - 1 <= p'.maxBand <= n2 && (p'.maxBand >= n1 ==> !BandEmpty(p', p'.maxBand))
          && forall b :: p'.maxBand < b <= n2 ==> BandEmpty(p', b))
  }

  /** Every band gives up the shares taken and what they are worth at its price, and all it has with the last share. */
  ghost predicate DrawnFrom(p: Pool, p': Pool, n1: int, taken: seq<nat>) {
    forall b ::
      var ds, s := TakenAt(n1, taken, b), Get(p.total, b);
      && ds <= s && Get(p'.total, b) == s - ds
      && (ds == 0 ==> Get(p'.bandsX, b) == Get(p.bandsX, b) && Get(p'.bandsY, b) == Get(p.bandsY, b))
      && (0 < ds < s ==>
            && Get(p'.bandsX, b) + Payout(Get(p.bandsX, b), ds, s) == Get(p.bandsX, b)
            && Get(p'.bandsY, b) + Payout(Get(p.bandsY, b), ds, s) == Get(p.bandsY, b))
      && (s == ds ==> BandEmpty(p', b))
  }

  /** A withdrawal goes through exactly for users with liquidity and fractions up to one. */
  lemma WithdrawGoesThrough(q: Params, p: Pool, user: Address, frac: nat)
    requires q.Valid() && Inv(q, p)
    ensures Withdraw(q, p, user, frac).Some? <==> Live(p, user) && frac <= WAD
  {
    hide Inv, Withdraw, Live;
    if Withdraw(q, p, user, frac).Some? {
      WithdrawIsLive(q, p, user, frac);
    } else if Live(p, user) && frac <= WAD {
      WithdrawNeverReverts(q, p, user, frac);
    }
  }

  /** Only this user's position changes, band by band by what is taken. */
  ghost predicate TakenFrom(p: Pool, p': Pool, user: Address, n1: int, taken: seq<nat>) {
    && (forall v :: v != user ==> UserOf(p'.users, v) == UserOf(p.users, v))
    && forall b :: ShareAt(UserOf(p'.users, user), b) + TakenAt(n1, taken, b) == ShareAt(UserOf(p.users, user), b)
  }

  lemma PositionMeans(q: Params, p: Pool, user: Address, frac: nat, r: Paid)
    requires q.Valid() && Inv(q, p) && frac <= WAD && Withdraw(q, p, user, frac) == Some(r)
    ensures TakenFrom(p, r.pool, user, FirstBand(p, user), TakenOf(SharesOf(p, user), frac))
  {
    hide Withdraw, Draw, Payout, Position, EntryAfter;
    WithdrawIsLive(q, p, user, frac);
    WithdrawShape(q, p, user, frac);
    var n1, taken := FirstBand(p, user), TakenOf(SharesOf(p, user), frac);
    forall b
      ensures ShareAt(UserOf(r.pool.users, user), b) + TakenAt(n1, taken, b) == ShareAt(UserOf(p.users, user), b)
    {
      assert UserOk(UserOf(p.users, user));
      EntryAfterShares(UserOf(p.users, user), frac, b);
    }
  }

  /** What it pays, what the admin gets, what stays in each band and in the user's position, and nothing else. */
  lemma WithdrawMeans(q: Params, p: Pool, user: Address, frac: nat, r: Paid)
    requires q.Valid() && Inv(q, p) && frac <= WAD && Withdraw(q, p, user, frac) == Some(r)
    ensures
      var n1, taken := FirstBand(p, user), TakenOf(SharesOf(p, user), frac);
      && PaidOut(q, p, r.pool, n1, taken, r.x, r.y) && DrawnFrom(p, r.pool, n1, taken)
      && Tightened(p, r.pool, n1, n1 + |taken| - 1) && r.pool.active == p.active
      && TakenFrom(p, r.pool, user, n1, taken)
  {
    hide Withdraw, Payout, Position, Live, EntryAfter, TakenFrom, DrawnFrom, Tightened, SumPayouts, Dust, Taken;
    WithdrawIsLive(q, p, user, frac);
    WithdrawShape(q, p, user, frac);
    PositionMeans(q, p, user, frac, r);
    UserCovered(q, p, user, frac);
    var n1, taken := FirstBand(p, user), TakenOf(SharesOf(p, user), frac);
    var w := Draw(q, p, user, frac).value;
    hide WithdrawFrom, Covered;
    PaymentMeans(q, p, w, n1, taken);
    BandsDrawn(q, p, r.pool, w, n1, taken);
    BoundsDrawn(q, p, r.pool, w, n1, taken);
  }

  lemma PaymentMeans(q: Params, p: Pool, w: Drawn, n1: int, taken: seq<nat>)
    requires q.Valid() && WithdrawFrom(q, StartDrawing(p, n1), n1, taken) == Some(w)
    ensures IsFloor(Div(w.outX, q.bPrec), SumPayouts(p.bandsX, p.total, n1, taken), q.bPrec)
    ensures IsFloor(Div(w.outY, q.cPrec), SumPayouts(p.bandsY, p.total, n1, taken), q.cPrec)
    ensures w.feesX == p.feesX + Dust(p.bandsX, p.total, n1, taken, q.bPrec)
    ensures w.feesY == p.feesY + Dust(p.bandsY, p.total, n1, taken, q.cPrec)
  {
    hide SumPayouts, Dust, WithdrawFrom;
    WithdrawFromPays(q, StartDrawing(p, n1), n1, taken, w);
    WithdrawFromFees(q, StartDrawing(p, n1), n1, taken, w);
    DivIsFloor(w.outX, q.bPrec);
    DivIsFloor(w.outY, q.cPrec);
  }

  lemma BandsDrawn(q: Params, p: Pool, p': Pool, w: Drawn, n1: int, taken: seq<nat>)
    requires q.Valid() && WithdrawFrom(q, StartDrawing(p, n1), n1, taken) == Some(w) && Covered(p.total, n1, taken)
    requires p'.bandsX == w.bandsX && p'.bandsY == w.bandsY && p'.total == w.total
    requires NoOrphans(p)
    ensures DrawnFrom(p, p', n1, taken)
  {
    hide WithdrawFrom, Payout;
    forall b
      ensures
        var ds, s := TakenAt(n1, taken, b), Get(p.total, b);
        && ds <= s && Get(p'.total, b) == s - ds
        && (ds == 0 ==> Get(p'.bandsX, b) == Get(p.bandsX, b) && Get(p'.bandsY, b) == Get(p.bandsY, b))
        && (0 < ds < s ==>
              && Get(p'.bandsX, b) + Payout(Get(p.bandsX, b), ds, s) == Get(p.bandsX, b)
              && Get(p'.bandsY, b) + Payout(Get(p.bandsY, b), ds, s) == Get(p.bandsY, b))
        && (s == ds ==> BandEmpty(p', b))
    {
      var ds, s := TakenAt(n1, taken, b), Get(p.total, b);
      assert s == 0 ==> BandEmpty(p, b);
      if n1 <= b < n1 + |taken| {
        WithdrawFromInside(q, StartDrawing(p, n1), n1, taken, w, b);
        PayoutWithinBand(Get(p.bandsX, b), ds, s);
        PayoutWithinBand(Get(p.bandsY, b), ds, s);
        if ds == 0 {
          NoSharesNoPayout(Get(p.bandsX, b), s);
          NoSharesNoPayout(Get(p.bandsY, b), s);
        }
      } else {
        WithdrawFromOutside(q, StartDrawing(p, n1), n1, taken, w, b);
      }
    }
  }

  lemma NoSharesNoPayout(total: nat, s: nat)
    ensures Payout(total, 0, s) == 0
  {
    DivOfNone(s + DEAD_SHARES);
  }

  lemma BoundsDrawn(q: Params, p: Pool, p': Pool, w: Drawn, n1: int, taken: seq<nat>)
    requires q.Valid() && WithdrawFrom(q, StartDrawing(p, n1), n1, taken) == Some(w)
    requires p'.bandsX == w.bandsX && p'.bandsY == w.bandsY && p'.minBand == w.minBand
    requires p'.maxBand == if p.maxBand <= n1 + |taken| - 1 then w.maxBand else p.maxBand
    ensures Tightened(p, p', n1, n1 + |taken| - 1)
  {
    hide WithdrawFrom;
    WithdrawFromTop(q, StartDrawing(p, n1), n1, taken, w);
    WithdrawFromBottom(q, StartDrawing(p, n1), n1, taken, w);
    assert forall b :: BandEmpty(p', b) <==> DrawnEmpty(w, b);
  }

  // ---------------------------------------------------------------- deposits

  /** A band takes y: no borrowed coin in it, the deposit pays for a share, and the shares still fit their word. */
  ghost predicate Takes(bandsX: Bands, bandsY: Bands, total: Bands, b: int, y: nat) {
    var s, before := Get(total, b), Get(bandsY, b);
    && Get(bandsX, b) == 0 && before + 1 <= (s + DEAD_SHARES) * y
    && (s + DEAD_SHARES) * y < (Q128 - s) * (before + 1)
  }

  lemma TakesShares(bandsX: Bands, bandsY: Bands, total: Bands, b: int, y: nat)
    ensures
      var ds := SharesFor(Get(total, b), y, Get(bandsY, b));
      Takes(bandsX, bandsY, total, b, y) <==> Get(bandsX, b) == 0 && ds > 0 && Get(total, b) + ds < Q128
  {
    hide SharesFor;
    var s, before := Get(total, b), Get(bandsY, b);
    SharesAreMost(s, y, before, 1);
    if s < Q128 {
      SharesAreMost(s, y, before, Q128 - s);
    } else {
      NoRoom(s, y, before);
    }
  }

  lemma NoRoom(s: nat, y: nat, before: nat)
    requires Q128 <= s
    ensures (Q128 - s) * (before + 1) <= 0 <= (s + DEAD_SHARES) * y
  {
    Product3(s + DEAD_SHARES, y, 1);
    MulMono(Q128 - s, 0, before + 1);
  }

  lemma {:induction false} DepositFromGoesThrough(bandsX: Bands, bandsY: Bands, total: Bands, b: int, n2: int, y: nat,
                                                  yRest: nat)
    ensures DepositFrom(bandsX, bandsY, total, b, n2, y, yRest).Some? <==>
            forall c :: b <= c <= n2 ==> Takes(bandsX, bandsY, total, c, BandDeposit(b, c, n2, y, yRest))
    decreases n2 - b + 1
  {
    hide SharesFor, Takes;
    if b <= n2 {
      TakesShares(bandsX, bandsY, total, b, y);
      var ds := SharesFor(Get(total, b), y, Get(bandsY, b));
      if Takes(bandsX, bandsY, total, b, y) {
        var bandsY', total', b' := bandsY[b := Get(bandsY, b) + y], total[b := Get(total, b) + ds], b + 1;
        DepositFromGoesThrough(bandsX, bandsY', total', b', n2, yRest, yRest);
        forall c | b' <= c <= n2
          ensures Takes(bandsX, bandsY', total', c, BandDeposit(b', c, n2, yRest, yRest)) <==>
                  Takes(bandsX, bandsY, total, c, BandDeposit(b, c, n2, y, yRest))
        {
          TakesSame(bandsX, bandsY, total, bandsY', total', c, yRest);
        }
      }
      assert BandDeposit(b, b, n2, y, yRest) == y;
    }
  }

  lemma TakesSame(bandsX: Bands, bandsY: Bands, total: Bands, bandsY': Bands, total': Bands, c: int, y: nat)
    requires Get(bandsY', c) == Get(bandsY, c) && Get(total', c) == Get(total, c)
    ensures Takes(bandsX, bandsY', total', c, y) <==> Takes(bandsX, bandsY, total, c, y)
  {
  }

  /** The active band can be skipped down below n1. */
  ghost predicate Skippable(bandsX: Bands, n0: int, n1: int, steps: int) {
    n1 <= n0 ==> n0 - n1 < steps && forall b :: n1 <= b <= n0 ==> Get(bandsX, b) == 0
  }

  lemma {:induction false} SkipToMeans(bandsX: Bands, n0: int, n1: int, i: nat)
    requires i <= MAX_SKIP_TICKS
    ensures SkipTo(bandsX, n0, n1, i).Some? <==> Skippable(bandsX, n0, n1, MAX_SKIP_TICKS - i)
    ensures SkipTo(bandsX, n0, n1, i).Some? ==> SkipTo(bandsX, n0, n1, i).value == Min(n0, n1 - 1)
    decreases MAX_SKIP_TICKS - i
  {
    if n1 <= n0 && i < MAX_SKIP_TICKS && Get(bandsX, n0) == 0 {
      SkipToMeans(bandsX, n0 - 1, n1, i + 1);
    }
  }

  /**
   * A deposit goes through exactly when its range is well-formed, each band gets more than 100 units, the user has no
   * liquidity, the bands below it down from the active one can be skipped, and each band of the range takes its part.
   */
  lemma DepositGoesThrough(q: Params, p: Pool, user: Address, amount: nat, n1: int, n2: int)
    requires q.Valid()
    ensures Deposit(q, p, user, amount, n1, n2).Some? <==>
            && ValidRange(n1, n2) && 101 * (n2 - n1 + 1) <= amount * q.cPrec && !Live(p, user)
            && Skippable(p.bandsX, p.active, n1, MAX_SKIP_TICKS) && AllTake(q, p, amount, n1, n2)
  {
    hide Live, MintFor, PerBand, SaveShares, PackNumbers, AllTake, Skippable, SkipTo;
    if ValidRange(n1, n2) {
      SkipToMeans(p.bandsX, p.active, n1, 0);
      PerBandAtLeast(q, amount, n2 - n1 + 1);
      MintForGoesThrough(q, p, amount, n1, n2);
    }
  }

  ghost predicate AllTake(q: Params, p: Pool, amount: nat, n1: int, n2: int)
    requires n1 <= n2
  {
    forall b :: n1 <= b <= n2 ==> Takes(p.bandsX, p.bandsY, p.total, b, DepositedIn(q, amount, n1, n2, b))
  }

  lemma MintForGoesThrough(q: Params, p: Pool, amount: nat, n1: int, n2: int)
    requires n1 <= n2
    ensures MintFor(q, p, amount, n1, n2).Some? <==> AllTake(q, p, amount, n1, n2)
    ensures MintFor(q, p, amount, n1, n2).Some? ==> |MintFor(q, p, amount, n1, n2).value.shares| == n2 - n1 + 1
  {
    hide Takes, DepositFrom, InFirstBand, PerBand;
    var y, yRest := InFirstBand(q, amount, n2 - n1 + 1), PerBand(q, amount, n2 - n1 + 1);
    DepositFromGoesThrough(p.bandsX, p.bandsY, p.total, n1, n2, y, yRest);
    forall b | n1 <= b <= n2 ensures DepositedIn(q, amount, n1, n2, b) == BandDeposit(n1, b, n2, y, yRest) {
    }
    assert AllTake(q, p, amount, n1, n2) <==>
           forall b :: n1 <= b <= n2 ==> Takes(p.bandsX, p.bandsY, p.total, b, BandDeposit(n1, b, n2, y, yRest));
    if MintFor(q, p, amount, n1, n2).Some? {
      MintForFacts(q, p, amount, n1, n2, MintFor(q, p, amount, n1, n2).value);
    }
  }

  lemma PerBandAtLeast(q: Params, amount: nat, nBands: Positive)
    ensures PerBand(q, amount, nBands) > 100 <==> 101 * nBands <= amount * q.cPrec
  {
    FloorIsGreatest(amount * q.cPrec, nBands, 101);
  }

  /** The shares of band b after a deposit: the most that its part pays for at the band's price. */
  ghost predicate PaidShares(p: Pool, p': Pool, user: Address, b: int, y: nat) {
    var s, before, ds := Get(p.total, b), Get(p.bandsY, b), ShareAt(UserOf(p'.users, user), b);
    && Get(p'.total, b) == s + ds && Get(p'.bandsY, b) == before + y
    && ds * (before + 1) <= (s + DEAD_SHARES) * y < (ds + 1) * (before + 1)
  }

  lemma MintedShares(q: Params, p: Pool, amount: nat, n1: int, n2: int, m: Minted, b: int)
    requires MintForSome(q, p, amount, n1, n2, m) && n1 <= b <= n2 && |m.shares| == n2 - n1 + 1
    ensures
      var y, ds := DepositedIn(q, amount, n1, n2, b), m.shares[b - n1];
      ds * (Get(p.bandsY, b) + 1) <= (Get(p.total, b) + DEAD_SHARES) * y < (ds + 1) * (Get(p.bandsY, b) + 1)
  {
    var y, yRest := InFirstBand(q, amount, n2 - n1 + 1), PerBand(q, amount, n2 - n1 + 1);
    hide SharesFor, InFirstBand, PerBand;
    DepositFromPrice(p.bandsX, p.bandsY, p.total, n1, n2, y, yRest, m, b);
    SharesAreMost(Get(p.total, b), DepositedIn(q, amount, n1, n2, b), Get(p.bandsY, b), m.shares[b - n1]);
    SharesAreMost(Get(p.total, b), DepositedIn(q, amount, n1, n2, b), Get(p.bandsY, b), m.shares[b - n1] + 1);
  }

  ghost predicate MintForSome(q: Params, p: Pool, amount: nat, n1: int, n2: int, m: Minted) {
    n1 <= n2 && MintFor(q, p, amount, n1, n2) == Some(m)
  }

  /** The state after a deposit, of which only the shares remain to be said. */
  lemma DepositShape(q: Params, p: Pool, user: Address, amount: nat, n1: int, n2: int, p': Pool)
    requires q.Valid() && Deposit(q, p, user, amount, n1, n2) == Some(p')
    ensures n1 <= n2 && MintFor(q, p, amount, n1, n2).Some?
    ensures
      var m := MintFor(q, p, amount, n1, n2).value;
      && p'.active == Min(p.active, n1 - 1) && p'.heldY == p.heldY + amount && p'.heldX == p.heldX
      && p'.minBand == Min(p.minBand, n1) && p'.maxBand == Max(p.maxBand, n2)
      && p'.bandsX == p.bandsX && p'.feesX == p.feesX && p'.feesY == p.feesY
      && p'.total == m.total && p'.bandsY == m.bandsY
      && (forall v :: v != user ==> UserOf(p'.users, v) == UserOf(p.users, v))
      && |m.shares| == n2 - n1 + 1 && Position(UserOf(p'.users, user)) == (n1, m.shares)
      && UserOf(p'.users, user).slots[0] != 0
  {
    hide Live, MintFor, PerBand, SkipTo;
    SkipToMeans(p.bandsX, p.active, n1, 0);
    var m := MintFor(q, p, amount, n1, n2).value;
    MintForFacts(q, p, amount, n1, n2, m);
    PositionAfterSave(n1, n2, UserOf(p.users, user).slots, m.shares);
    hide Position, SaveShares, PackNumbers;
  }

  lemma ShareOf(t: UserTicks, n1: int, shares: seq<nat>, b: int)
    requires t.slots[0] != 0 && Position(t) == (n1, shares)
    ensures ShareAt(t, b) == if n1 <= b < n1 + |shares| then shares[b - n1] else 0
  {
  }

  /** The bands of its range and this user's position: each part pays for its shares, and nothing else moves. */
  ghost predicate Placed(q: Params, p: Pool, p': Pool, user: Address, amount: nat, n1: int, n2: int) {
    && n1 <= n2 && FirstBand(p', user) == n1 && |SharesOf(p', user)| == n2 - n1 + 1
    && (forall v :: v != user ==> UserOf(p'.users, v) == UserOf(p.users, v))
    && forall b ::
         if n1 <= b <= n2 then PaidShares(p, p', user, b, DepositedIn(q, amount, n1, n2, b))
         else
           && Get(p'.total, b) == Get(p.total, b) && Get(p'.bandsY, b) == Get(p.bandsY, b)
           && ShareAt(UserOf(p'.users, user), b) == 0
  }

  /** What a deposit changes: the bands of its range, this user's position, the bounds and the collateral held. */
  lemma DepositMeans(q: Params, p: Pool, user: Address, amount: nat, n1: int, n2: int, p': Pool)
    requires q.Valid() && Deposit(q, p, user, amount, n1, n2) == Some(p')
    ensures p'.active == Min(p.active, n1 - 1) && p'.heldY == p.heldY + amount && p'.heldX == p.heldX
    ensures p'.minBand == Min(p.minBand, n1) && p'.maxBand == Max(p.maxBand, n2)
    ensures p'.bandsX == p.bandsX && p'.feesX == p.feesX && p'.feesY == p.feesY
    ensures Placed(q, p, p', user, amount, n1, n2)
  {
    DepositShape(q, p, user, amount, n1, n2, p');
    hide Deposit;
    PlacedAfter(q, p, p', user, amount, n1, n2, MintFor(q, p, amount, n1, n2).value);
  }

  lemma PlacedAfter(q: Params, p: Pool, p': Pool, user: Address, amount: nat, n1: int, n2: int, m: Minted)
    requires MintForSome(q, p, amount, n1, n2, m) && |m.shares| == n2 - n1 + 1
    requires p'.total == m.total && p'.bandsY == m.bandsY
    requires Position(UserOf(p'.users, user)) == (n1, m.shares) && UserOf(p'.users, user).slots[0] != 0
    requires forall v :: v != user ==> UserOf(p'.users, v) == UserOf(p.users, v)
    ensures Placed(q, p, p', user, amount, n1, n2)
  {
    MintForFacts(q, p, amount, n1, n2, m);
    hide MintFor, Position, ShareAt, InFirstBand, PerBand, PaidShares;
    forall b
      ensures
        if n1 <= b <= n2 then PaidShares(p, p', user, b, DepositedIn(q, amount, n1, n2, b))
        else
          && Get(p'.total, b) == Get(p.total, b) && Get(p'.bandsY, b) == Get(p.bandsY, b)
          && ShareAt(UserOf(p'.users, user), b) == 0
    {
      ShareOf(UserOf(p'.users, user), n1, m.shares, b);
      if n1 <= b <= n2 {
        hide DepositedIn;
        MintedShares(q, p, amount, n1, n2, m, b);
        PaidInBand(p, p', user, b, DepositedIn(q, amount, n1, n2, b), m.shares[b - n1]);
      }
    }
  }

  lemma PaidInBand(p: Pool, p': Pool, user: Address, b: int, y: nat, ds: nat)
    requires ShareAt(UserOf(p'.users, user), b) == ds
    requires Get(p'.total, b) == Get(p.total, b) + ds && Get(p'.bandsY, b) == Get(p.bandsY, b) + y
    requires ds * (Get(p.bandsY, b) + 1) <= (Get(p.total, b) + DEAD_SHARES) * y < (ds + 1) * (Get(p.bandsY, b) + 1)
    ensures PaidShares(p, p', user, b, y)
  {
    hide ShareAt;
  }

  // ---------------------------------------------------------------- skipping for views

  /** `active_band_with_skip`: down from the active band, to the first with borrowed coin unless out of bounds. */
  lemma {:induction false} SkipDownMeans(p: Pool, n: int, i: nat)
    requires i <= MAX_SKIP_TICKS && n == p.active - i
    ensures
      var r := SkipDown(p, n, i);
      && p.active - MAX_SKIP_TICKS <= r <= n
      && (r == p.active - MAX_SKIP_TICKS || (Get(p.bandsX, r) != 0 && r >= p.minBand))
      && forall b :: Max(r, p.minBand - 1) < b <= n ==> Get(p.bandsX, b) == 0
    decreases MAX_SKIP_TICKS - i
  {
    if i < MAX_SKIP_TICKS && n >= p.minBand && Get(p.bandsX, n) == 0 {
      SkipDownMeans(p, n - 1, i + 1);
    }
  }
}
