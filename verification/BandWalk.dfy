/** The band walk of `calc_swap_out` and `calc_swap_in`, in both directions. */
module BandWalk {
  import opened Numbers
  import opened Ledger
  import opened Curve
  import opened BandTrade

  const MAX_STEPS: nat := 50 + 1024
  const NO_TICK: nat := 50

  /** What stays fixed during one walk. `pump` buys collateral, `exactIn` tells which amount the caller gave. */
  datatype Env = Env(a: nat, pO: nat, fee: nat, admin: nat, maxDn: nat, pump: bool, exactIn: bool,
                     stop: int, outBands: map<int, nat>) {
    ghost predicate Valid() {
      a >= 2 && admin <= WAD
    }
  }

  datatype Trade = Trade(inAmount: nat, outAmount: nat, n1: int, n2: int, ticksIn: seq<nat>, lastTickJ: nat,
                         adminFee: nat)

  const NO_TRADE := Trade(0, 0, 0, 0, [], 0, 0)

  /**
   * The mutable locals of the loop: iteration, tick index, band, its upper price, its amounts, what remains, the result
   * so far.
   */
  datatype Cursor = Cursor(i: nat, j: nat, n: int, pUp: nat, vIn: nat, vOut: nat, left: nat, trade: Trade)

  datatype Iteration = Next(cursor: Cursor) | Done(trade: Trade) | Reverted

  /** The band reached after `t` moves from `n`. */
  function At(n: int, pump: bool, t: int): int {
    if pump then n + t else n - t
  }

  function BandFee(env: Env, vIn: nat, vOut: nat, pUp: nat): nat
    requires env.Valid()
  {
    if vIn > 0 || vOut > 0 then Max(GetDynamicFee(env.a, env.pO, pUp), env.fee) else env.fee
  }

  /** The band as the trade sees it, priced by its curve if it holds anything; None if pricing it reverts. */
  function Price(env: Env, vIn: nat, vOut: nat, pUp: nat): (r: Option<Band>)
    requires env.Valid()
    ensures r.Some? ==> r.value.vIn == vIn && r.value.vOut == vOut
  {
    if vIn == 0 && vOut == 0 then Some(Band(0, 0, 0, 0))
    else if env.pump then
      match BandCurve(env.a, vIn, vOut, env.pO, pUp)
      case None => None
      case Some(c) => Some(Band(vIn, vOut, c.f, c.g))
    else
      match BandCurve(env.a, vOut, vIn, env.pO, pUp)
      case None => None
      case Some(c) => Some(Band(vIn, vOut, c.g, c.f))
  }

  /** Walks stop about 50 bands away from the oracle price. */
  predicate TooFar(env: Env, pUp: nat) {
    var ratio := UDiv(pUp * WAD, env.pO);
    if env.pump then ratio < UDiv(WAD * WAD, env.maxDn) else ratio > env.maxDn
  }

  function NextPrice(env: Env, pUp: nat): nat
    requires env.Valid()
  {
    if env.pump then Div(pUp * (env.a - 1), env.a) else Div(pUp * env.a, env.a - 1)
  }

  /** The end of an iteration: stop here, or move on to the next band, where the incoming coin is taken to be absent. */
  function Advance(env: Env, c: Cursor, j: nat, left: nat, trade: Trade): Iteration
    requires env.Valid()
  {
    if c.i >= MAX_STEPS - 1 || c.n == env.stop || j == NO_TICK - 1 || TooFar(env, c.pUp) then
      Done(trade.(n2 := c.n))
    else
      var n := At(c.n, env.pump, 1);
      Next(Cursor(c.i + 1, if j == NO_TICK then j else j + 1, n, NextPrice(env, c.pUp),
                  0, Get(env.outBands, n), left, trade))
  }

  /** The trade into which the band at the cursor is booked. */
  function Opened(c: Cursor): Trade {
    if (c.vIn > 0 || c.vOut > 0) && c.j == NO_TICK then c.trade.(n1 := c.n) else c.trade
  }

  function OpenedTick(c: Cursor): nat {
    if (c.vIn > 0 || c.vOut > 0) && c.j == NO_TICK then 0 else c.j
  }

  function Iterate(env: Env, c: Cursor): Iteration
    requires env.Valid()
  {
    match Price(env, c.vIn, c.vOut, c.pUp)
    case None => Reverted
    case Some(band) =>
      var fees := Fees(Antifee(BandFee(env, c.vIn, c.vOut, c.pUp)), env.admin);
      StepConserves(env.exactIn, band, fees, c.left);
      Conclude(env, c, Step(env.exactIn, band, fees, c.left))
  }

  /** An outcome that conserves the coins of the band at the cursor. */
  ghost predicate Sane(env: Env, c: Cursor, step: Outcome) {
    match step
    case Cross(dIn, fee) =>
      1 <= dIn && fee <= dIn && c.vOut > 0 && (if env.exactIn then dIn <= c.left else c.vOut < c.left)
    case Fill(dIn, dOut, fee, last) =>
      fee <= dIn && dOut + last == c.vOut && c.vOut > 0 && c.left == if env.exactIn then dIn else dOut
    case _ => true
  }

  /** Book what happened in the band and go on, or finish. */
  function Conclude(env: Env, c: Cursor, step: Outcome): Iteration
    requires env.Valid() && Sane(env, c, step)
  {
    var t, j := Opened(c), OpenedTick(c);
    match step
    case Revert => Reverted
    case Skip =>
      Advance(env, c, j, c.left, if j == NO_TICK then t else t.(ticksIn := t.ticksIn + [c.vIn]))
    case Fill(dIn, dOut, fee, last) =>
      Done(Book(t, c.vIn, dIn, dOut, fee).(lastTickJ := last, n2 := c.n))
    case Cross(dIn, fee) =>
      Advance(env, c, j, c.left - (if env.exactIn then dIn else c.vOut), Book(t, c.vIn, dIn, c.vOut, fee))
  }

  /** Record a traded band. */
  function Book(t: Trade, vIn: nat, dIn: nat, dOut: nat, fee: nat): Trade
    requires fee <= dIn
  {
    t.(inAmount := t.inAmount + dIn, outAmount := t.outAmount + dOut,
       ticksIn := t.ticksIn + [vIn + dIn - fee], adminFee := t.adminFee + fee)
  }

  function Walk(env: Env, c: Cursor): Option<Trade>
    requires env.Valid()
    decreases MAX_STEPS - c.i
  {
    match Iterate(env, c)
    case Reverted => None
    case Done(t) => Some(t)
    case Next(c') => Walk(env, c')
  }

  /** What goes in is rounded up to whole tokens, what comes out down. */
  function RoundTrade(t: Trade, inPrec: nat, outPrec: nat): Trade
    requires inPrec > 0 && outPrec > 0
  {
    t.(inAmount := Div(t.inAmount + (inPrec - 1), inPrec) * inPrec, outAmount := Div(t.outAmount, outPrec) * outPrec)
  }

  function Start(n: int, pUp: nat, vIn: nat, vOut: nat, amount: nat): Cursor {
    Cursor(0, NO_TICK, n, pUp, vIn, vOut, amount, NO_TRADE)
  }

  /** `calc_swap_out` or `calc_swap_in` from the active band `n`. */
  function CalcSwap(env: Env, n: int, pUp: nat, vIn: nat, vOut: nat, amount: nat, inPrec: nat,
                    outPrec: nat): Option<Trade>
    requires env.Valid() && inPrec > 0 && outPrec > 0
  {
    match Walk(env, Start(n, pUp, vIn, vOut, amount))
    case None => None
    case Some(t) => Some(RoundTrade(t, inPrec, outPrec))
  }

  // ---------------------------------------------------------------- monotonicity

  /** A walk never gives back what it has already traded. */
  lemma {:induction false} WalkGrows(env: Env, c: Cursor)
    requires env.Valid() && Walk(env, c).Some?
    ensures Walk(env, c).value.inAmount >= c.trade.inAmount && Walk(env, c).value.outAmount >= c.trade.outAmount
    decreases MAX_STEPS - c.i
  {
    var next := Iterate(env, c);
    if next.Next? {
      WalkGrows(env, next.cursor);
    }
  }

  /** Where a walk ends, or reverts. */
  ghost function LastCursor(env: Env, c: Cursor): Cursor
    requires env.Valid()
    decreases MAX_STEPS - c.i
  {
    match Iterate(env, c)
    case Next(c') => LastCursor(env, c')
    case _ => c
  }

  /** All that was to go in is used up, and the band has neither any of that coin nor an offset for it. */
  ghost predicate Starved(env: Env, c: Cursor)
    requires env.Valid()
  {
    && env.exactIn && c.left == 0 && c.vIn == 0 && c.vOut > 0
    && match Price(env, c.vIn, c.vOut, c.pUp) case None => false case Some(band) => band.cIn == 0 && band.cOut > 0
  }

  lemma IterateReverts(env: Env, c: Cursor)
    requires env.Valid()
    ensures Iterate(env, c).Reverted? <==> Price(env, c.vIn, c.vOut, c.pUp).None? || Starved(env, c)
  {
    var price := Price(env, c.vIn, c.vOut, c.pUp);
    if price.Some? {
      hide Price, Step;
      StepReverts(env.exactIn, price.value, Fees(Antifee(BandFee(env, c.vIn, c.vOut, c.pUp)), env.admin), c.left);
    }
  }

  /**
   * Two walks from one state, of which the one asked to trade more goes through: the other one does too, unless it is
   * starved on its way, and then trades at most as much of both coins, over any number of bands and whichever way each
   * of them ends.
   */
  lemma {:induction false} WalkMono(env: Env, c: Cursor, left': nat)
    requires env.Valid() && c.left <= left' && Walk(env, c.(left := left')).Some?
    ensures Walk(env, c).None? <==> Starved(env, LastCursor(env, c))
    ensures Walk(env, c).Some? ==>
              var t, t' := Walk(env, c).value, Walk(env, c.(left := left')).value;
              t.inAmount <= t'.inAmount && t.outAmount <= t'.outAmount
    decreases MAX_STEPS - c.i
  {
    hide Price, Starved;
    var c' := c.(left := left');
    var r, r' := Iterate(env, c), Iterate(env, c');
    IterateReverts(env, c);
    var band := Price(env, c.vIn, c.vOut, c.pUp).value;
    var fees := Fees(Antifee(BandFee(env, c.vIn, c.vOut, c.pUp)), env.admin);
    StepMono(env.exactIn, band, fees, c.left, left');
    if r.Next? {
      assert r'.Next? && r'.cursor == r.cursor.(left := r'.cursor.left) && r.cursor.left <= r'.cursor.left;
      WalkMono(env, r.cursor, r'.cursor.left);
    } else if r'.Next? {
      WalkGrows(env, r'.cursor);
    }
  }

  lemma RoundTradeMono(t: Trade, t': Trade, inPrec: nat, outPrec: nat)
    requires inPrec > 0 && outPrec > 0 && t.inAmount <= t'.inAmount && t.outAmount <= t'.outAmount
    ensures RoundTrade(t, inPrec, outPrec).inAmount <= RoundTrade(t', inPrec, outPrec).inAmount
    ensures RoundTrade(t, inPrec, outPrec).outAmount <= RoundTrade(t', inPrec, outPrec).outAmount
  {
    DivMono(t.inAmount + (inPrec - 1), t'.inAmount + (inPrec - 1), inPrec);
    DivMono(t.outAmount, t'.outAmount, outPrec);
    MulMono(Div(t.inAmount + (inPrec - 1), inPrec), Div(t'.inAmount + (inPrec - 1), inPrec), inPrec);
    MulMono(Div(t.outAmount, outPrec), Div(t'.outAmount, outPrec), outPrec);
  }

  /**
   * A larger amount never yields less nor costs less, for exact-input and exact-output trades in both directions; and
   * where it goes through so does the smaller one, unless that is starved.
   */
  lemma SwapMonotone(env: Env, n: int, pUp: nat, vIn: nat, vOut: nat, amount: nat, amount': nat, inPrec: nat,
                     outPrec: nat)
    requires env.Valid() && inPrec > 0 && outPrec > 0 && amount <= amount'
    requires CalcSwap(env, n, pUp, vIn, vOut, amount', inPrec, outPrec).Some?
    ensures
      var swap := CalcSwap(env, n, pUp, vIn, vOut, amount, inPrec, outPrec);
      var t' := CalcSwap(env, n, pUp, vIn, vOut, amount', inPrec, outPrec).value;
      && (swap.None? <==> Starved(env, LastCursor(env, Start(n, pUp, vIn, vOut, amount))))
      && (swap.Some? ==> swap.value.inAmount <= t'.inAmount && swap.value.outAmount <= t'.outAmount)
  {
    hide LastCursor, Starved;
    var c := Start(n, pUp, vIn, vOut, amount);
    WalkMono(env, c, amount');
    if Walk(env, c).Some? {
      RoundTradeMono(Walk(env, c).value, Walk(env, c.(left := amount')).value, inPrec, outPrec);
    }
  }

  // ---------------------------------------------------------------- when a swap goes through

  /** The oracle price is far enough from zero that no band within reach is priced at zero. */
  predicate PricesStay(env: Env, pUp: nat) {
    env.pO > 0 && pUp > 0 && (env.pump ==> UDiv(WAD * WAD, env.maxDn) * env.pO > WAD)
  }

  /** From the band at pUp on, the smallest y0 yields an offset of the incoming coin. */
  predicate OffsetsStay(env: Env, pUp: nat) {
    if env.pump then UDiv(env.a * env.pO, pUp) * env.pO >= WAD else (env.a - 1) * pUp >= env.pO
  }

  lemma PriceStays(env: Env, pUp: nat)
    requires env.Valid() && PricesStay(env, pUp) && !TooFar(env, pUp)
    ensures PricesStay(env, NextPrice(env, pUp))
    ensures OffsetsStay(env, pUp) ==> OffsetsStay(env, NextPrice(env, pUp))
  {
    var a, next := env.a, NextPrice(env, pUp);
    if env.pump {
      DivBounds(pUp * WAD, env.pO);
      MulMono(UDiv(WAD * WAD, env.maxDn), pUp * WAD / env.pO, env.pO);
      assert pUp >= 2;
      MulMono(2, pUp, a - 1);
      Distribute(a, 1, pUp);
      DivLower(pUp * (a - 1), a, 1);
      DivUpper(pUp * (a - 1), a, pUp) by { Distribute(pUp, 1, a); }
      DivAnti(a * env.pO, next, pUp);
      MulMono(UDiv(a * env.pO, pUp), UDiv(a * env.pO, next), env.pO);
    } else {
      Distribute(a, 1, pUp);
      DivLower(pUp * a, a - 1, pUp);
      MulMono(pUp, next, a - 1);
    }
  }

  lemma Priced(env: Env, vIn: nat, vOut: nat, pUp: nat)
    requires env.Valid() && PricesStay(env, pUp)
    ensures Price(env, vIn, vOut, pUp).Some?
  {
  }

  /** A band that gives an offset for the outgoing coin gives one for the incoming coin. */
  lemma NotStarved(env: Env, c: Cursor)
    requires env.Valid() && PricesStay(env, c.pUp) && OffsetsStay(env, c.pUp)
    ensures !Starved(env, c)
  {
    if Starved(env, c) {
      var x, y := if env.pump then c.vIn else c.vOut, if env.pump then c.vOut else c.vIn;
      OffsetsTogether(env, GetY0(env.a, x, y, env.pO, c.pUp).value, c.pUp);
    }
  }

  lemma OffsetsTogether(env: Env, y0: nat, pUp: nat)
    requires env.Valid() && PricesStay(env, pUp) && OffsetsStay(env, pUp)
    ensures
      var f, g := OffsetF(env.a, y0, env.pO, pUp), OffsetG(env.a, y0, env.pO, pUp);
      if env.pump then g > 0 ==> f > 0 else f > 0 ==> g > 0
  {
    if y0 == 0 {
      NoOffsets(env.a, env.pO, pUp);
    } else if env.pump {
      FirmF(env.a, y0, env.pO, pUp);
    } else {
      FirmG(env.a, y0, env.pO, pUp);
    }
  }

  lemma NoOffsets(a: nat, pO: Positive, pUp: Positive)
    requires a >= 1
    ensures OffsetF(a, 0, pO, pUp) == 0 && OffsetG(a, 0, pO, pUp) == 0
  {
    DivOfNone(pUp);
    DivOfNone(WAD);
  }

  lemma FirmF(a: nat, y0: Positive, pO: Positive, pUp: Positive)
    requires UDiv(a * pO, pUp) * pO >= WAD
    ensures OffsetF(a, y0, pO, pUp) > 0
  {
    Product3(a, y0, pO);
    MulMono(1, y0, a * pO);
    assert y0 * (a * pO) == a * y0 * pO;
    DivMono(a * pO, a * y0 * pO, pUp);
    MulMono(a * pO / pUp, Div(a * y0 * pO, pUp), pO);
    DivLower(Div(a * y0 * pO, pUp) * pO, WAD, 1);
  }

  lemma FirmG(a: nat, y0: Positive, pO: Positive, pUp: Positive)
    requires a >= 1 && (a - 1) * pUp >= pO
    ensures OffsetG(a, y0, pO, pUp) > 0
  {
    MulMono(1, y0, (a - 1) * pUp);
    assert y0 * ((a - 1) * pUp) == (a - 1) * y0 * pUp;
    DivLower((a - 1) * y0 * pUp, pO, 1);
  }

  /** With the oracle price far enough from zero, a walk reverts exactly when it is starved. */
  lemma {:induction false} WalkCompletes(env: Env, c: Cursor)
    requires env.Valid() && PricesStay(env, c.pUp)
    ensures Walk(env, c).None? <==> Starved(env, LastCursor(env, c))
    ensures OffsetsStay(env, c.pUp) ==> Walk(env, c).Some?
    decreases MAX_STEPS - c.i
  {
    hide Price, Starved, PricesStay, OffsetsStay;
    IterateReverts(env, c);
    Priced(env, c.vIn, c.vOut, c.pUp);
    if OffsetsStay(env, c.pUp) {
      NotStarved(env, c);
    }
    var r := Iterate(env, c);
    if r.Next? {
      hide TooFar, NextPrice, Step;
      assert !TooFar(env, c.pUp) && r.cursor.pUp == NextPrice(env, c.pUp);
      PriceStays(env, c.pUp);
      WalkCompletes(env, r.cursor);
    }
  }

  /**
   * With the oracle price far enough from zero, a swap of any size reverts exactly when it is starved; never when the
   * amount that comes out is given, and never when the offsets are as far from zero.
   */
  lemma SwapCompletes(env: Env, n: int, pUp: nat, vIn: nat, vOut: nat, amount: nat, inPrec: nat, outPrec: nat)
    requires env.Valid() && inPrec > 0 && outPrec > 0 && PricesStay(env, pUp)
    ensures
      var swap := CalcSwap(env, n, pUp, vIn, vOut, amount, inPrec, outPrec);
      && (swap.None? <==> Starved(env, LastCursor(env, Start(n, pUp, vIn, vOut, amount))))
      && (!env.exactIn || OffsetsStay(env, pUp) ==> swap.Some?)
  {
    hide LastCursor, PricesStay, OffsetsStay, Price;
    WalkCompletes(env, Start(n, pUp, vIn, vOut, amount));
  }

  /** Two bands of dust at prices near zero: f is 0 in both. */
  function DustBands(): Env {
    Env(100, 2, 0, 0, 1_652_875_986_403_404_044, true, true, 1,
        map[0 := 12_500_000_000_000_000, 1 := 10_000_000_000_000_000])
  }

  function DustSwap(amount: nat): Option<Trade> {
    CalcSwap(DustBands(), 0, 5, 0, 12_500_000_000_000_000, amount, 1, 1)
  }

  lemma DustPrices()
    ensures
      var first := Price(DustBands(), 0, 12_500_000_000_000_000, 5);
      first.Some? && first.value.cIn == 0 && first.value.cOut > 0
    ensures
      var second := Price(DustBands(), 0, 10_000_000_000_000_000, 4);
      second.Some? && second.value.cIn == 0 && second.value.cOut > 0
  {
    assert GetY0(100, 0, 12_500_000_000_000_000, 2, 5) == Some(5_000_000_000_000_000);
    assert GetY0(100, 0, 10_000_000_000_000_000, 2, 4) == Some(5_000_000_000_000_000);
    hide GetY0;
    FirmG(100, 5_000_000_000_000_000, 2, 5);
    FirmG(100, 5_000_000_000_000_000, 2, 4);
  }

  /** A band with neither offset nor amount of the incoming coin is crossed by a single unit. */
  lemma DustIsCrossed(band: Band, antifee: nat, left: Positive)
    requires antifee >= WAD && band.cIn + band.vIn == 0 && band.vOut > 0 && band.cOut > 0
    ensures Step(true, band, Fees(antifee, 0), left) == Cross(1, 0)
  {
    assert band.Inv() == 0;
    DivOfMul(0, band.cOut);
    DivOfMul(0, WAD);
    assert Dest(band, band.cOut) == 0 && WithFee(Dest(band, band.cOut), antifee) == 0;
  }

  lemma DustFirst(amount: Positive)
    ensures
      var r := Iterate(DustBands(), Start(0, 5, 0, 12_500_000_000_000_000, amount));
      r.Next? && r.cursor == Cursor(1, 1, 1, 4, 0, 10_000_000_000_000_000, amount - 1, r.cursor.trade)
  {
    hide Price, BandFee, Step;
    var env, c := DustBands(), Start(0, 5, 0, 12_500_000_000_000_000, amount);
    DustPrices();
    DustIsCrossed(Price(env, c.vIn, c.vOut, 5).value, Antifee(BandFee(env, c.vIn, c.vOut, 5)), amount);
  }

  lemma DustSecond(c: Cursor)
    requires c == Cursor(1, 1, 1, 4, 0, 10_000_000_000_000_000, 1, c.trade)
    ensures Iterate(DustBands(), c).Done?
  {
    hide Price, BandFee, Step;
    DustPrices();
    DustIsCrossed(Price(DustBands(), c.vIn, c.vOut, 4).value,
                  Antifee(BandFee(DustBands(), c.vIn, c.vOut, 4)), 1);
  }

  /** A swap that is starved: 1 unit reverts where 2 go through and nothing is priced at zero. */
  lemma SmallSwapStarves()
    ensures PricesStay(DustBands(), 5) && DustSwap(1).None? && DustSwap(2).Some?
  {
    hide Iterate, Price;
    var env := DustBands();
    DustPrices();
    forall amount: Positive | amount <= 2 ensures DustSwap(amount).None? <==> amount == 1 {
      DustFirst(amount);
      var c := Iterate(env, Start(0, 5, 0, 12_500_000_000_000_000, amount)).cursor;
      if amount == 1 {
        IterateReverts(env, c);
      } else {
        DustSecond(c);
      }
    }
  }

  // ---------------------------------------------------------------- how a walk goes and where it ends

  /** The curve of a band with liquidity: its offsets, on the side of the coin they belong to in either direction. */
  lemma PriceMeans(env: Env, vIn: nat, vOut: nat, pUp: nat)
    requires env.Valid() && (vIn > 0 || vOut > 0) && Price(env, vIn, vOut, pUp).Some?
    ensures
      var band := Price(env, vIn, vOut, pUp).value;
      var (x, y) := if env.pump then (vIn, vOut) else (vOut, vIn);
      var (f, g) := if env.pump then (band.cIn, band.cOut) else (band.cOut, band.cIn);
      && band.vIn == vIn && band.vOut == vOut && pUp > 0 && env.pO > 0
      && GetY0(env.a, x, y, env.pO, pUp).Some?
      && var y0 := GetY0(env.a, x, y, env.pO, pUp).value;
         && f * WAD * pUp <= env.a * y0 * env.pO * env.pO < ((f + 1) * WAD + env.pO) * pUp
         && IsFloor(g, (env.a - 1) * y0 * pUp, env.pO)
  {
    var (x, y) := if env.pump then (vIn, vOut) else (vOut, vIn);
    var y0 := GetY0(env.a, x, y, env.pO, pUp).value;
    OffsetFBrackets(env.a, y0, env.pO, pUp);
    DivIsFloor((env.a - 1) * y0 * pUp, env.pO);
  }

  /** The fee of a band: the larger of the two fees of the exchange, and in a band with liquidity of its distance's. */
  lemma BandFeeMeans(env: Env, vIn: nat, vOut: nat, pUp: nat)
    requires env.Valid()
    ensures env.fee <= BandFee(env, vIn, vOut, pUp)
    ensures vIn > 0 || vOut > 0 ==>
              var fee, gap := BandFee(env, vIn, vOut, pUp), GetDynamicFee(env.a, env.pO, pUp);
              gap <= fee && (fee == gap || fee == env.fee)
  {
  }

  /** Neighbouring bands are a factor of A / (A - 1) apart, rounded down. */
  lemma NextPriceRatio(env: Env, pUp: nat)
    requires env.Valid()
    ensures
      if env.pump then IsFloor(NextPrice(env, pUp), pUp * (env.a - 1), env.a)
      else IsFloor(NextPrice(env, pUp), pUp * env.a, env.a - 1)
  {
    DivIsFloor(pUp * (env.a - 1), env.a);
    DivIsFloor(pUp * env.a, env.a - 1);
  }

  /** How far is too far: the band's price over the oracle price, against (A / (A - 1))^50 or its inverse. */
  lemma TooFarMeans(env: Env, pUp: nat)
    requires env.pO > 0
    ensures TooFar(env, pUp) <==>
            if env.pump then pUp * WAD < UDiv(WAD * WAD, env.maxDn) * env.pO else (env.maxDn + 1) * env.pO <= pUp * WAD
  {
    FloorIsGreatest(pUp * WAD, env.pO, UDiv(WAD * WAD, env.maxDn));
    FloorIsGreatest(pUp * WAD, env.pO, env.maxDn + 1);
  }

  /** The amount of the coin that the caller gave. */
  function Given(env: Env, t: Trade): nat {
    if env.exactIn then t.inAmount else t.outAmount
  }

  function FeesAt(env: Env, c: Cursor): Fees
    requires env.Valid()
  {
    Fees(Antifee(BandFee(env, c.vIn, c.vOut, c.pUp)), env.admin)
  }

  /** A band may end the walk: the last one that the trade may reach, or one too far from the oracle price. */
  predicate Stops(env: Env, c: Cursor) {
    c.i >= MAX_STEPS - 1 || c.n == env.stop || OpenedTick(c) == NO_TICK - 1 || TooFar(env, c.pUp)
  }

  /** In the band at the cursor nothing was traded, and there was nothing to trade. */
  ghost predicate Passes(env: Env, c: Cursor, left: nat, t: Trade)
    requires env.Valid()
  {
    && Price(env, c.vIn, c.vOut, c.pUp).Some?
    && (c.vOut == 0 || Price(env, c.vIn, c.vOut, c.pUp).value.cOut == 0)
    && left == c.left && t.inAmount == c.trade.inAmount && t.outAmount == c.trade.outAmount
    && t.adminFee == c.trade.adminFee
  }

  /** All of its outgoing coin was traded, at the price of the curve and with the fee. */
  ghost predicate CrossedFor(env: Env, c: Cursor, left: nat, t: Trade, dIn: nat, fee: nat)
    requires env.Valid()
  {
    && Price(env, c.vIn, c.vOut, c.pUp).Some?
    && AtCurve(env.exactIn, Price(env, c.vIn, c.vOut, c.pUp).value, FeesAt(env, c), c.left, dIn, fee)
    && left + (if env.exactIn then dIn else c.vOut) == c.left
    && t.inAmount == c.trade.inAmount + dIn && t.outAmount == c.trade.outAmount + c.vOut
    && t.adminFee == c.trade.adminFee + fee
  }

  ghost predicate AtCurve(exactIn: bool, band: Band, fees: Fees, left: nat, dIn: nat, fee: nat) {
    exists d: int, r: int :: CrossesOnCurve(exactIn, band, fees, left, dIn, fee, d, r)
  }

  ghost predicate Crossed(env: Env, c: Cursor, left: nat, t: Trade)
    requires env.Valid()
  {
    exists dIn, fee :: CrossedFor(env, c, left, t, dIn, fee)
  }

  /** One of the two, and on to the next band. */
  ghost predicate Moves(env: Env, c: Cursor, c': Cursor)
    requires env.Valid()
  {
    && !Stops(env, c) && c'.n == At(c.n, env.pump, 1) && c'.pUp == NextPrice(env, c.pUp)
    && c'.vIn == 0 && c'.vOut == Get(env.outBands, c'.n)
    && (Passes(env, c, c'.left, c'.trade) || Crossed(env, c, c'.left, c'.trade))
  }

  /** The band in which the amount is used up: paid down to the curve, or charged up to it. */
  ghost predicate FilledFor(env: Env, c: Cursor, t: Trade, dIn: nat, fee: nat)
    requires env.Valid()
  {
    && Price(env, c.vIn, c.vOut, c.pUp).Some?
    && t.outAmount + t.lastTickJ == c.trade.outAmount + c.vOut && t.inAmount == c.trade.inAmount + dIn
    && t.adminFee == c.trade.adminFee + fee && Given(env, t) == Given(env, c.trade) + c.left
    && ToCurve(env.exactIn, Price(env, c.vIn, c.vOut, c.pUp).value, FeesAt(env, c), c.left, dIn, fee, t.lastTickJ)
  }

  ghost predicate ToCurve(exactIn: bool, band: Band, fees: Fees, left: nat, dIn: nat, fee: nat, last: nat) {
    if exactIn then exists u: int :: FillsExactIn(band, fees, left, fee, last, u)
    else exists d: int :: FillsExactOut(band, fees, dIn, fee, last, d)
  }

  ghost predicate Filled(env: Env, c: Cursor, t: Trade)
    requires env.Valid()
  {
    exists dIn, fee :: FilledFor(env, c, t, dIn, fee)
  }

  ghost predicate StoppedAt(env: Env, c: Cursor, t: Trade)
    requires env.Valid()
  {
    && Stops(env, c) && t.lastTickJ == c.trade.lastTickJ
    && exists left :: Passes(env, c, left, t) || Crossed(env, c, left, t)
  }

  ghost predicate Ends(env: Env, c: Cursor, t: Trade)
    requires env.Valid()
  {
    t.n2 == c.n && (Filled(env, c, t) || StoppedAt(env, c, t))
  }

  /**
   * One iteration, said without the branches of the code. A walk goes on only past bands it may pass, having traded all
   * or nothing of each, and ends either with its amount used up or at a band where it has to stop.
   */
  lemma IterationMeans(env: Env, c: Cursor)
    requires env.Valid()
    ensures
      match Iterate(env, c)
      case Next(c') => Moves(env, c, c')
      case Done(t) => Ends(env, c, t)
      case Reverted => Price(env, c.vIn, c.vOut, c.pUp).None? || Starved(env, c)
  {
    IterateReverts(env, c);
    var price := Price(env, c.vIn, c.vOut, c.pUp);
    if price.Some? {
      hide Price, Step, AtCurve, ToCurve, Moves, Ends, CrossesOnCurve, FillsExactIn, FillsExactOut, Starved;
      var fees := FeesAt(env, c);
      var step := Step(env.exactIn, price.value, fees, c.left);
      StepConserves(env.exactIn, price.value, fees, c.left);
      CurveMeans(env.exactIn, price.value, fees, c.left);
      assert Iterate(env, c) == Conclude(env, c, step);
      match step
      case Revert =>
      case Skip => SkipMeans(env, c);
      case Cross(dIn, fee) => CrossMeans(env, c, dIn, fee);
      case Fill(dIn, dOut, fee, last) => FillMeans(env, c, dIn, dOut, fee, last);
    }
  }

  lemma CurveMeans(exactIn: bool, band: Band, fees: Fees, left: nat)
    requires fees.Valid()
    ensures
      match Step(exactIn, band, fees, left)
      case Skip => band.vOut == 0 || band.cOut == 0
      case Cross(dIn, fee) => AtCurve(exactIn, band, fees, left, dIn, fee)
      case Fill(dIn, dOut, fee, last) => ToCurve(exactIn, band, fees, left, dIn, fee, last)
      case Revert => true
  {
    hide Step;
    StepMeans(exactIn, band, fees, left);
  }

  /** What follows from an iteration that moves or ends. */
  ghost predicate Means(env: Env, c: Cursor, r: Iteration)
    requires env.Valid()
  {
    match r
    case Next(c') => Moves(env, c, c')
    case Done(t) => Ends(env, c, t)
    case Reverted => false
  }

  lemma AdvanceMeans(env: Env, c: Cursor, left: nat, t: Trade)
    requires env.Valid() && (Passes(env, c, left, t) || Crossed(env, c, left, t)) && t.lastTickJ == c.trade.lastTickJ
    ensures Means(env, c, Advance(env, c, OpenedTick(c), left, t))
  {
    hide Price, AtCurve, TooFar, NextPrice, FeesAt;
    var r := Advance(env, c, OpenedTick(c), left, t);
    if r.Done? {
      assert Passes(env, c, left, r.trade) || Crossed(env, c, left, r.trade) by { StopsTrade(env, c, left, t); }
    }
  }

  /** The last band of a trade is recorded without touching its amounts. */
  lemma StopsTrade(env: Env, c: Cursor, left: nat, t: Trade)
    requires env.Valid() && (Passes(env, c, left, t) || Crossed(env, c, left, t))
    ensures Passes(env, c, left, t.(n2 := c.n)) || Crossed(env, c, left, t.(n2 := c.n))
  {
    hide Price, AtCurve, FeesAt;
    if Crossed(env, c, left, t) {
      var dIn, fee :| CrossedFor(env, c, left, t, dIn, fee);
      assert CrossedFor(env, c, left, t.(n2 := c.n), dIn, fee);
    }
  }

  lemma SkipMeans(env: Env, c: Cursor)
    requires env.Valid() && Price(env, c.vIn, c.vOut, c.pUp).Some?
    requires c.vOut == 0 || Price(env, c.vIn, c.vOut, c.pUp).value.cOut == 0
    ensures Means(env, c, Conclude(env, c, Skip))
  {
    hide Price, Advance, Means, Crossed;
    var t := if OpenedTick(c) == NO_TICK then Opened(c) else Opened(c).(ticksIn := Opened(c).ticksIn + [c.vIn]);
    AdvanceMeans(env, c, c.left, t);
  }

  lemma CrossMeans(env: Env, c: Cursor, dIn: nat, fee: nat)
    requires env.Valid() && Sane(env, c, Cross(dIn, fee)) && Price(env, c.vIn, c.vOut, c.pUp).Some?
    requires AtCurve(env.exactIn, Price(env, c.vIn, c.vOut, c.pUp).value, FeesAt(env, c), c.left, dIn, fee)
    ensures Means(env, c, Conclude(env, c, Cross(dIn, fee)))
  {
    hide Price, Advance, Means, AtCurve, Passes, FeesAt;
    var left, t := c.left - (if env.exactIn then dIn else c.vOut), Book(Opened(c), c.vIn, dIn, c.vOut, fee);
    assert CrossedFor(env, c, left, t, dIn, fee);
    AdvanceMeans(env, c, left, t);
  }

  lemma FillMeans(env: Env, c: Cursor, dIn: nat, dOut: nat, fee: nat, last: nat)
    requires env.Valid() && Sane(env, c, Fill(dIn, dOut, fee, last)) && Price(env, c.vIn, c.vOut, c.pUp).Some?
    requires ToCurve(env.exactIn, Price(env, c.vIn, c.vOut, c.pUp).value, FeesAt(env, c), c.left, dIn, fee, last)
    ensures Means(env, c, Conclude(env, c, Fill(dIn, dOut, fee, last)))
  {
    hide Price, ToCurve, FeesAt, StoppedAt;
    var t := Book(Opened(c), c.vIn, dIn, dOut, fee).(lastTickJ := last, n2 := c.n);
    assert FilledFor(env, c, t, dIn, fee);
  }

  /**
   * A walk that goes through: what it used of its amount and what it has left add up at every band, and at the band
   * where it ends the amount is used up exactly, on the curve, unless it had to stop there.
   */
  lemma {:induction false} WalkEnds(env: Env, c: Cursor)
    requires env.Valid() && Walk(env, c).Some?
    ensures
      var last, t := LastCursor(env, c), Walk(env, c).value;
      && Ends(env, last, t) && Given(env, last.trade) + last.left == Given(env, c.trade) + c.left
      && Given(env, t) <= Given(env, c.trade) + c.left
      && (Given(env, t) < Given(env, c.trade) + c.left ==> Stops(env, last))
    decreases MAX_STEPS - c.i
  {
    hide Price, Moves, Ends, Stops, Starved;
    IterationMeans(env, c);
    var r := Iterate(env, c);
    if r.Next? {
      MovesSpend(env, c, r.cursor);
      WalkEnds(env, r.cursor);
    } else {
      EndsSpend(env, c, r.trade);
    }
  }

  lemma MovesSpend(env: Env, c: Cursor, c': Cursor)
    requires env.Valid() && Moves(env, c, c')
    ensures Given(env, c'.trade) + c'.left == Given(env, c.trade) + c.left
  {
    hide Price, AtCurve, Stops, FeesAt, NextPrice;
  }

  lemma EndsSpend(env: Env, c: Cursor, t: Trade)
    requires env.Valid() && Ends(env, c, t)
    ensures Given(env, t) <= Given(env, c.trade) + c.left
    ensures Given(env, t) < Given(env, c.trade) + c.left ==> Stops(env, c)
  {
    hide Price, AtCurve, ToCurve, Stops, FeesAt;
    if StoppedAt(env, c, t) {
      var left :| Passes(env, c, left, t) || Crossed(env, c, left, t);
    }
  }

  // ---------------------------------------------------------------- what the walk does to the bands

  ghost function WindowSum(m: map<int, nat>, n: int, pump: bool, k: nat): nat {
    if k == 0 then 0 else WindowSum(m, n, pump, k - 1) + Get(m, At(n, pump, k - 1))
  }

  ghost predicate EmptyBand(inBands: map<int, nat>, outBands: map<int, nat>, n: int) {
    Get(inBands, n) == 0 && Get(outBands, n) == 0
  }

  /** The coin that goes in is absent from every band the walk has yet to reach. */
  ghost predicate NoInBeyond(inBands: map<int, nat>, active: int, pump: bool) {
    forall b :: (if pump then b > active else b < active) ==> Get(inBands, b) == 0
  }

  /** The ticks written for the first `|ticks|` bands from n1 account for what was in them and what was traded. */
  ghost predicate Accounts(env: Env, inBands: map<int, nat>, t: Trade) {
    && SumSeq(t.ticksIn) + t.adminFee == WindowSum(inBands, t.n1, env.pump, |t.ticksIn|) + t.inAmount
    && t.outAmount + t.lastTickJ <= WindowSum(env.outBands, t.n1, env.pump, |t.ticksIn|)
    && (forall k :: 0 <= k < |t.ticksIn| && t.ticksIn[k] > 0 ==>
          !EmptyBand(inBands, env.outBands, At(t.n1, env.pump, k)))
  }

  /** The bands the walk passed before it met liquidity. */
  ghost predicate PassedEmpty(env: Env, inBands: map<int, nat>, active: int, k: int) {
    forall s :: 0 <= s < k ==> EmptyBand(inBands, env.outBands, At(active, env.pump, s))
  }

  ghost predicate Tracks(env: Env, inBands: map<int, nat>, active: int, c: Cursor) {
    && c.n == At(active, env.pump, c.i)
    && c.vIn == Get(inBands, c.n) && c.vOut == Get(env.outBands, c.n)
    && c.trade.lastTickJ == 0
    && (c.j == NO_TICK ==> c.trade == NO_TRADE && PassedEmpty(env, inBands, active, c.i))
    && (c.j != NO_TICK ==>
          && c.j < NO_TICK && c.j <= c.i && |c.trade.ticksIn| == c.j
          && c.trade.n1 == At(active, env.pump, c.i - c.j) && PassedEmpty(env, inBands, active, c.i - c.j)
          && Accounts(env, inBands, c.trade))
  }

  /**
   * A finished walk: nothing traded, or the trade accounts for the bands from n1 to n2 and all bands before were empty.
   */
  ghost predicate Settled(env: Env, inBands: map<int, nat>, active: int, t: Trade) {
    if t.ticksIn == [] then t.outAmount == 0 && t.inAmount == 0 else
      && |t.ticksIn| <= NO_TICK
      && t.n2 == At(t.n1, env.pump, |t.ticksIn| - 1)
      && (if env.pump then active <= t.n1 else t.n1 <= active)
      && PassedEmpty(env, inBands, active, if env.pump then t.n1 - active else active - t.n1)
      && Accounts(env, inBands, t)
      && (t.lastTickJ > 0 ==> Get(env.outBands, t.n2) > 0)
  }

  lemma SumSeqAppend(s: seq<nat>, v: nat)
    ensures SumSeq(s + [v]) == SumSeq(s) + v
  {
    assert (s + [v])[..|s|] == s;
  }

  /** Adding one traded (or skipped) band keeps the account. */
  lemma AccountsNext(env: Env, inBands: map<int, nat>, t: Trade, b: int, dIn: nat, dOut: nat, fee: nat, last: nat)
    requires Accounts(env, inBands, t) && t.lastTickJ == 0 && b == At(t.n1, env.pump, |t.ticksIn|) && fee <= dIn
    requires dOut + last <= Get(env.outBands, b) && (dIn > 0 ==> Get(env.outBands, b) > 0)
    ensures Accounts(env, inBands, Book(t, Get(inBands, b), dIn, dOut, fee).(lastTickJ := last))
  {
    SumSeqAppend(t.ticksIn, Get(inBands, b) + dIn - fee);
  }

  /** The band at the cursor has been dealt with: `j` is its tick index and `t` includes it. */
  ghost predicate Treated(env: Env, inBands: map<int, nat>, active: int, c: Cursor, j: nat, t: Trade) {
    if j == NO_TICK then t == NO_TRADE && PassedEmpty(env, inBands, active, c.i + 1) else
      && j < NO_TICK && j <= c.i && |t.ticksIn| == j + 1
      && t.n1 == At(active, env.pump, c.i - j) && PassedEmpty(env, inBands, active, c.i - j)
      && Accounts(env, inBands, t)
  }

  lemma AdvanceTracks(env: Env, inBands: map<int, nat>, active: int, c: Cursor, j: nat, left: nat, t: Trade)
    requires env.Valid() && NoInBeyond(inBands, active, env.pump) && Tracks(env, inBands, active, c)
    requires Treated(env, inBands, active, c, j, t) && t.lastTickJ == 0
    ensures ConclusionTracks(env, inBands, active, Advance(env, c, j, left, t))
  {
  }

  lemma BookTreats(env: Env, inBands: map<int, nat>, active: int, c: Cursor, dIn: nat, dOut: nat, fee: nat, last: nat)
    requires Tracks(env, inBands, active, c) && OpenedTick(c) != NO_TICK
    requires fee <= dIn && dOut + last <= c.vOut && (dIn > 0 ==> c.vOut > 0)
    ensures Treated(env, inBands, active, c, OpenedTick(c), Book(Opened(c), c.vIn, dIn, dOut, fee).(lastTickJ := last))
  {
    assert Accounts(env, inBands, Opened(c));
    AccountsNext(env, inBands, Opened(c), c.n, dIn, dOut, fee, last);
  }

  ghost predicate ConclusionTracks(env: Env, inBands: map<int, nat>, active: int, r: Iteration) {
    match r
    case Next(c) => Tracks(env, inBands, active, c)
    case Done(t) => Settled(env, inBands, active, t)
    case Reverted => true
  }

  lemma SkipTracks(env: Env, inBands: map<int, nat>, active: int, c: Cursor, step: Outcome)
    requires env.Valid() && NoInBeyond(inBands, active, env.pump) && Tracks(env, inBands, active, c)
    requires Sane(env, c, step) && step.Skip?
    ensures ConclusionTracks(env, inBands, active, Conclude(env, c, step))
  {
    var t, j := Opened(c), OpenedTick(c);
    if j == NO_TICK {
      AdvanceTracks(env, inBands, active, c, j, c.left, t);
    } else {
      BookTreats(env, inBands, active, c, 0, 0, 0, 0);
      var t' := t.(ticksIn := t.ticksIn + [c.vIn]);
      assert Book(t, c.vIn, 0, 0, 0).(lastTickJ := 0) == t';
      AdvanceTracks(env, inBands, active, c, j, c.left, t');
    }
  }

  lemma CrossTracks(env: Env, inBands: map<int, nat>, active: int, c: Cursor, step: Outcome)
    requires env.Valid() && NoInBeyond(inBands, active, env.pump) && Tracks(env, inBands, active, c)
    requires Sane(env, c, step) && step.Cross?
    ensures ConclusionTracks(env, inBands, active, Conclude(env, c, step))
  {
    var t := Book(Opened(c), c.vIn, step.dIn, c.vOut, step.fee);
    var left := c.left - if env.exactIn then step.dIn else c.vOut;
    assert Conclude(env, c, step) == Advance(env, c, OpenedTick(c), left, t);
    assert t.(lastTickJ := 0) == t;
    BookTreats(env, inBands, active, c, step.dIn, c.vOut, step.fee, 0);
    AdvanceTracks(env, inBands, active, c, OpenedTick(c), left, t);
  }

  lemma FillTracks(env: Env, inBands: map<int, nat>, active: int, c: Cursor, step: Outcome)
    requires env.Valid() && NoInBeyond(inBands, active, env.pump) && Tracks(env, inBands, active, c)
    requires Sane(env, c, step) && step.Fill?
    ensures ConclusionTracks(env, inBands, active, Conclude(env, c, step))
  {
    BookTreats(env, inBands, active, c, step.dIn, step.dOut, step.fee, step.last);
    FillSettles(env, inBands, active, c,
                Book(Opened(c), c.vIn, step.dIn, step.dOut, step.fee).(lastTickJ := step.last));
  }

  lemma FillSettles(env: Env, inBands: map<int, nat>, active: int, c: Cursor, t: Trade)
    requires Tracks(env, inBands, active, c) && OpenedTick(c) != NO_TICK
    requires Treated(env, inBands, active, c, OpenedTick(c), t) && (t.lastTickJ > 0 ==> c.vOut > 0)
    ensures Settled(env, inBands, active, t.(n2 := c.n))
  {
  }

  lemma IterateTracks(env: Env, inBands: map<int, nat>, active: int, c: Cursor)
    requires env.Valid() && NoInBeyond(inBands, active, env.pump) && Tracks(env, inBands, active, c)
    ensures ConclusionTracks(env, inBands, active, Iterate(env, c))
  {
    var band := Price(env, c.vIn, c.vOut, c.pUp);
    if band.Some? {
      var fees := Fees(Antifee(BandFee(env, c.vIn, c.vOut, c.pUp)), env.admin);
      StepConserves(env.exactIn, band.value, fees, c.left);
      var step := Step(env.exactIn, band.value, fees, c.left);
      assert Iterate(env, c) == Conclude(env, c, step);
      match step
      case Revert =>
      case Skip => SkipTracks(env, inBands, active, c, step);
      case Cross(_, _) => CrossTracks(env, inBands, active, c, step);
      case Fill(_, _, _, _) => FillTracks(env, inBands, active, c, step);
    }
  }

  lemma {:induction false} WalkSettles(env: Env, inBands: map<int, nat>, active: int, c: Cursor)
    requires env.Valid() && NoInBeyond(inBands, active, env.pump) && Tracks(env, inBands, active, c)
    ensures Walk(env, c).Some? ==> Settled(env, inBands, active, Walk(env, c).value)
    decreases MAX_STEPS - c.i
  {
    IterateTracks(env, inBands, active, c);
    var next := Iterate(env, c);
    if next.Next? {
      WalkSettles(env, inBands, active, next.cursor);
    }
  }
}
