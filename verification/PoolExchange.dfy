/** Exchanges keep the invariant: what a walk computed agrees with storage once it is written back. */
module PoolExchange {
  import opened Numbers
  import opened Ledger
  import opened BandWalk
  import opened AmmPool
  import opened PoolInvariant

  // ---------------------------------------------------------------- writing back

  /** The position of band b in a run of bands that starts at n. */
  function IndexOf(n: int, pump: bool, b: int): int {
    if pump then b - n else n - b
  }

  lemma {:induction false} GetWritten(m: Bands, n: int, pump: bool, vals: seq<nat>, b: int)
    ensures
      var i := IndexOf(n, pump, b);
      Get(WriteBands(m, n, pump, vals), b) == if 0 <= i < |vals| then vals[i] else Get(m, b)
    decreases |vals|
  {
    if vals != [] {
      GetWritten(m, n, pump, vals[..|vals| - 1], b);
    }
  }

  /** Overwriting a run of bands replaces their old sum by the new one. */
  lemma {:induction false} SumWritten(m: Bands, n: int, pump: bool, vals: seq<nat>)
    ensures Sum(WriteBands(m, n, pump, vals)) + WindowSum(m, n, pump, |vals|) == Sum(m) + SumSeq(vals)
    decreases |vals|
  {
    if vals != [] {
      var init, k := vals[..|vals| - 1], |vals| - 1;
      SumWritten(m, n, pump, init);
      GetWritten(m, n, pump, init, At(n, pump, k));
      SumPut(WriteBands(m, n, pump, init), At(n, pump, k), vals[k]);
    }
  }

  /** A run of bands holds at most what all bands hold. */
  lemma WindowWithinSum(m: Bands, n: int, pump: bool, k: nat)
    ensures WindowSum(m, n, pump, k) <= Sum(m)
  {
    SumWritten(m, n, pump, seq(k, i => 0));
    SumSeqZeros(k);
  }

  lemma {:induction false} SumSeqZeros(k: nat)
    ensures SumSeq(seq(k, i => 0)) == 0
  {
    if k > 0 {
      assert seq(k, i => 0)[..k - 1] == seq(k - 1, i => 0);
      SumSeqZeros(k - 1);
    }
  }

  lemma SumOutTicks(k: nat, last: nat)
    requires k > 0
    ensures SumSeq(OutTicks(k, last)) == last
  {
    assert OutTicks(k, last)[..k - 1] == seq(k - 1, i => 0);
    SumSeqZeros(k - 1);
  }

  // ---------------------------------------------------------------- the trade of an exchange

  /** What goes into and comes out of the bands, before rounding to whole tokens. */
  function RawTrade(q: Params, p: Pool, r: FeeRates, o: Order): Option<Trade>
    requires q.Valid() && r.admin <= WAD
  {
    var env := EnvOf(q, p, r, o);
    var amount := if o.exactIn then o.amount * InPrec(q, o.pump)
                  else if o.amount < MAX_UINT then o.amount * OutPrec(q, o.pump) else MAX_UINT;
    Walk(env, Start(p.active, o.pUp, Get(InBands(p, o.pump), p.active), Get(env.outBands, p.active), amount))
  }

  lemma SwapTradeIsRounded(q: Params, p: Pool, r: FeeRates, o: Order)
    requires q.Valid() && r.admin <= WAD
    ensures SwapTrade(q, p, r, o) ==
      match RawTrade(q, p, r, o)
      case None => None
      case Some(t) => Some(RoundTrade(t, InPrec(q, o.pump), OutPrec(q, o.pump)))
  {
  }

  /** The shortcut of taking the incoming coin to be absent from later bands agrees with storage. */
  lemma RawTradeSettles(q: Params, p: Pool, r: FeeRates, o: Order)
    requires Inv(q, p) && r.admin <= WAD && RawTrade(q, p, r, o).Some?
    ensures Settled(EnvOf(q, p, r, o), InBands(p, o.pump), p.active, RawTrade(q, p, r, o).value)
  {
    var env := EnvOf(q, p, r, o);
    var amount := if o.exactIn then o.amount * InPrec(q, o.pump)
                  else if o.amount < MAX_UINT then o.amount * OutPrec(q, o.pump) else MAX_UINT;
    WalkSettles(env, InBands(p, o.pump), p.active,
                Start(p.active, o.pUp, Get(InBands(p, o.pump), p.active), Get(env.outBands, p.active), amount));
  }

  /** A settled trade never owes more of the outgoing coin than the AMM holds. */
  lemma TradeWithinHeld(q: Params, p: Pool, env: Env, pump: bool, t: Trade)
    requires Inv(q, p) && env.pump == pump && env.outBands == InBands(p, !pump)
    requires t.ticksIn != [] && Settled(env, InBands(p, pump), p.active, t)
    ensures t.outAmount + t.lastTickJ <= Sum(InBands(p, !pump))
    ensures Div(t.outAmount, OutPrec(q, pump)) <= if pump then p.heldY else p.heldX
  {
    WindowWithinSum(env.outBands, t.n1, pump, |t.ticksIn|);
    var prec, held := OutPrec(q, pump), if pump then p.heldY else p.heldX;
    DivMono(t.outAmount, held * prec, prec);
    DivOfMul(held, prec);
  }

  /** What comes in is rounded up to whole tokens and the admin fee down: the slack of that coin never falls. */
  lemma InCoinSlack(sum: nat, sum': nat, fees: nat, dIn: nat, admin: nat, prec: Positive, held: nat, inDone: nat)
    requires sum' + admin == sum + dIn && inDone == Div(dIn + (prec - 1), prec)
    ensures held * prec - sum - fees * prec <= (held + inDone) * prec - sum' - (fees + Div(admin, prec)) * prec
  {
    DivBounds(admin, prec);
    DivBounds(dIn + (prec - 1), prec);
    Distribute(fees, Div(admin, prec), prec);
    Distribute(held, inDone, prec);
  }

  /** What goes out is rounded down: neither does the slack of the other coin. */
  lemma OutCoinSlack(sum: nat, sum': nat, dOut: nat, prec: Positive, held: nat, outDone: nat, held': nat)
    requires sum' + dOut <= sum && outDone == Div(dOut, prec) && held == held' + outDone
    ensures held * prec - sum <= held' * prec - sum'
  {
    DivBounds(dOut, prec);
    Distribute(held', outDone, prec);
  }

  /** The bands after a settled trade: old amounts outside n1..n2, new ticks inside. */
  lemma SettledSums(env: Env, inBands: Bands, active: int, t: Trade)
    requires t.ticksIn != [] && Settled(env, inBands, active, t)
    ensures Sum(WriteBands(inBands, t.n1, env.pump, t.ticksIn)) + t.adminFee == Sum(inBands) + t.inAmount
    ensures Sum(WriteBands(env.outBands, t.n1, env.pump, OutTicks(|t.ticksIn|, t.lastTickJ))) + t.outAmount <=
            Sum(env.outBands)
  {
    SumWritten(inBands, t.n1, env.pump, t.ticksIn);
    SumWritten(env.outBands, t.n1, env.pump, OutTicks(|t.ticksIn|, t.lastTickJ));
    SumOutTicks(|t.ticksIn|, t.lastTickJ);
  }

  /** After a trade the incoming coin is at or behind n2 and the outgoing coin at or ahead of it. */
  lemma SettledSide(env: Env, inBands: Bands, active: int, t: Trade, b: int)
    requires t.ticksIn != [] && Settled(env, inBands, active, t) && NoInBeyond(inBands, active, env.pump)
    requires if env.pump then b < active ==> Get(env.outBands, b) == 0 else b > active ==> Get(env.outBands, b) == 0
    ensures (if env.pump then b > t.n2 else b < t.n2) ==> Get(WriteBands(inBands, t.n1, env.pump, t.ticksIn), b) == 0
    ensures (if env.pump then b < t.n2 else b > t.n2) ==>
      Get(WriteBands(env.outBands, t.n1, env.pump, OutTicks(|t.ticksIn|, t.lastTickJ)), b) == 0
  {
    GetWritten(inBands, t.n1, env.pump, t.ticksIn, b);
    GetWritten(env.outBands, t.n1, env.pump, OutTicks(|t.ticksIn|, t.lastTickJ), b);
    var s := IndexOf(active, env.pump, b);
    if 0 <= s && IndexOf(t.n1, env.pump, b) < 0 {
      assert EmptyBand(inBands, env.outBands, At(active, env.pump, s));
    }
  }

  /** A trade puts coins only into bands that already held some. */
  lemma SettledEmpties(env: Env, inBands: Bands, active: int, t: Trade, b: int)
    requires t.ticksIn != [] && Settled(env, inBands, active, t) && EmptyBand(inBands, env.outBands, b)
    ensures Get(WriteBands(inBands, t.n1, env.pump, t.ticksIn), b) == 0
    ensures Get(WriteBands(env.outBands, t.n1, env.pump, OutTicks(|t.ticksIn|, t.lastTickJ)), b) == 0
  {
    GetWritten(inBands, t.n1, env.pump, t.ticksIn, b);
    GetWritten(env.outBands, t.n1, env.pump, OutTicks(|t.ticksIn|, t.lastTickJ), b);
    var i := IndexOf(t.n1, env.pump, b);
    if 0 <= i < |t.ticksIn| {
      assert b == At(t.n1, env.pump, i);
    }
  }

  /** The rounded amounts are whole tokens: what comes in is rounded up, what goes out down. */
  lemma WholeTokens(raw: Trade, inPrec: Positive, outPrec: Positive)
    ensures Div(RoundTrade(raw, inPrec, outPrec).inAmount, inPrec) == Div(raw.inAmount + (inPrec - 1), inPrec)
    ensures Div(RoundTrade(raw, inPrec, outPrec).outAmount, outPrec) == Div(raw.outAmount, outPrec)
  {
    DivOfMul(Div(raw.inAmount + (inPrec - 1), inPrec), inPrec);
    DivOfMul(Div(raw.outAmount, outPrec), outPrec);
  }

  lemma SettleKeepsSlack(q: Params, p: Pool, env: Env, pump: bool, raw: Trade)
    requires q.Valid() && Inv(q, p) && env.pump == pump && env.outBands == InBands(p, !pump)
    requires raw.ticksIn != [] && Settled(env, InBands(p, pump), p.active, raw)
    ensures
      var t := RoundTrade(raw, InPrec(q, pump), OutPrec(q, pump));
      var p' := Settle(q, p, pump, t, Div(t.inAmount, InPrec(q, pump)), Div(t.outAmount, OutPrec(q, pump)));
      p'.Some? && SlackKept(q, p, p'.value)
  {
    hide Sum, Div, WriteBands, OutTicks, Settled;
    var t := RoundTrade(raw, InPrec(q, pump), OutPrec(q, pump));
    var inDone, outDone := Div(t.inAmount, InPrec(q, pump)), Div(t.outAmount, OutPrec(q, pump));
    WholeTokens(raw, InPrec(q, pump), OutPrec(q, pump));
    TradeWithinHeld(q, p, env, pump, raw);
    SettledSums(env, InBands(p, pump), p.active, raw);
    var p' := Settle(q, p, pump, t, inDone, outDone).value;
    if pump {
      InCoinSlack(Sum(p.bandsX), Sum(p'.bandsX), p.feesX, raw.inAmount, raw.adminFee, q.bPrec, p.heldX, inDone);
      OutCoinSlack(Sum(p.bandsY), Sum(p'.bandsY), raw.outAmount, q.cPrec, p.heldY, outDone, p'.heldY);
    } else {
      InCoinSlack(Sum(p.bandsY), Sum(p'.bandsY), p.feesY, raw.inAmount, raw.adminFee, q.cPrec, p.heldY, inDone);
      OutCoinSlack(Sum(p.bandsX), Sum(p'.bandsX), raw.outAmount, q.bPrec, p.heldX, outDone, p'.heldX);
    }
  }

  lemma SettleKeepsBands(q: Params, p: Pool, env: Env, pump: bool, t: Trade, inDone: nat, outDone: nat)
    requires Inv(q, p) && env.pump == pump && env.outBands == InBands(p, !pump)
    requires t.ticksIn != [] && Settled(env, InBands(p, pump), p.active, t)
    requires Settle(q, p, pump, t, inDone, outDone).Some?
    ensures
      var p' := Settle(q, p, pump, t, inDone, outDone).value;
      Sides(p') && Bounded(p') && NoOrphans(p') && LedgerKept(p') && UsersOk(p')
  {
    var p' := Settle(q, p, pump, t, inDone, outDone).value;
    var inBands := InBands(p, pump);
    forall b ensures BandEmpty(p, b) ==> BandEmpty(p', b)
      ensures (b > p'.active ==> Get(p'.bandsX, b) == 0) && (b < p'.active ==> Get(p'.bandsY, b) == 0) {
      SettledSide(env, inBands, p.active, t, b);
      if BandEmpty(p, b) {
        SettledEmpties(env, inBands, p.active, t, b);
      }
    }
  }

  /** `_exchange` in either direction, with either amount given, keeps the invariant and lowers the slack of no coin. */
  lemma ExchangeKeepsInv(q: Params, p: Pool, r: FeeRates, o: Order)
    requires Inv(q, p) && r.admin <= WAD && Exchange(q, p, r, o).Some?
    ensures Inv(q, Exchange(q, p, r, o).value.pool) && SlackKept(q, p, Exchange(q, p, r, o).value.pool)
  {
    var e := Exchange(q, p, r, o).value;
    if e.pool != p {
      SwapTradeIsRounded(q, p, r, o);
      RawTradeSettles(q, p, r, o);
      var raw, env := RawTrade(q, p, r, o).value, EnvOf(q, p, r, o);
      var t := RoundTrade(raw, InPrec(q, o.pump), OutPrec(q, o.pump));
      NothingTraded(raw, OutPrec(q, o.pump), InPrec(q, o.pump));
      SettleKeepsSlack(q, p, env, o.pump, raw);
      SettleIgnoresAmounts(q, p, o.pump, raw, t, e.inDone, e.outDone);
      SettleKeepsBands(q, p, env, o.pump, raw, e.inDone, e.outDone);
    }
  }

  /** An exchange that gives something out has written at least one band. */
  lemma NothingTraded(raw: Trade, outPrec: nat, inPrec: nat)
    requires outPrec >= 1 && inPrec >= 1 && (raw.ticksIn == [] ==> raw.outAmount == 0)
    ensures Div(RoundTrade(raw, inPrec, outPrec).outAmount, outPrec) > 0 ==> raw.ticksIn != []
  {
    DivOfMul(0, outPrec);
  }

  lemma SettleIgnoresAmounts(q: Params, p: Pool, pump: bool, raw: Trade, t: Trade, inDone: nat, outDone: nat)
    requires q.Valid() && t == raw.(inAmount := t.inAmount, outAmount := t.outAmount)
    ensures Settle(q, p, pump, t, inDone, outDone) == Settle(q, p, pump, raw, inDone, outDone)
  {
  }

  /** Moving the admin fees out cannot fail, keeps the invariant, and leaves the slack as it was. */
  lemma TakeFeesKeepsInv(q: Params, p: Pool)
    requires Inv(q, p)
    ensures TakeFees(p).Some? && Inv(q, TakeFees(p).value)
    ensures SlackX(q, TakeFees(p).value) == SlackX(q, p) && SlackY(q, TakeFees(p).value) == SlackY(q, p)
  {
    Cancel(p.feesX, p.heldX, q.bPrec);
    Cancel(p.feesY, p.heldY, q.cPrec);
    Distribute(p.heldX, p.feesX, q.bPrec);
    Distribute(p.heldY, p.feesY, q.cPrec);
    var p' := TakeFees(p).value;
    forall b ensures BandEmpty(p', b) <==> BandEmpty(p, b) {
    }
  }
}
