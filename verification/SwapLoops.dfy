/**
 * The loop of `calc_swap_out` and `calc_swap_in`, proved to compute the band walk. The two source functions share their
 * loop line by line and differ in the branch that trades one band, `BandOut` or `BandIn` below; their pump and dump
 * branches are the same code with the coins exchanged.
 */
module SwapLoops {
  import opened Numbers
  import opened Ledger
  import opened Curve
  import opened BandTrade
  import opened BandWalk

  /** One band of `calc_swap_out`. */
  method BandOut(vIn: nat, vOut: nat, cIn: nat, cOut: nat, inv: nat, antifee: nat, admin: nat,
                 left: nat) returns (step: Outcome)
    requires Fees(antifee, admin).Valid() && inv == (cIn + vIn) * (cOut + vOut)
    ensures step == Step(true, Band(vIn, vOut, cIn, cOut), Fees(antifee, admin), left)
  {
    step := Skip;
    if vOut != 0 && cOut != 0 {
      ghost var band := Band(vIn, vOut, cIn, cOut);
      var dest := inv / cOut - cIn - vIn;
      assert dest == Dest(band, cOut);
      var dIn := dest * antifee / WAD;
      assert dIn == WithFee(dest, antifee);
      if dIn >= left {
        FeeRoundTrip(dest, left, antifee);
        dest := left * WAD / antifee;
        assert dest == WithoutFee(left, antifee);
        if cIn + (vIn + dest) == 0 {
          return Revert;
        }
        var last := Min(inv / (cIn + (vIn + dest)) - cOut + 1, vOut);
        assert last == LastTick(band, dest);
        var fee := (left - dest) * admin / WAD;
        assert fee == AdminPart(left - dest, admin);
        step := Fill(left, vOut - last, fee, last);
      } else {
        dIn := Max(dIn, 1);
        var fee := (dIn - dest) * admin / WAD;
        assert fee == AdminPart(dIn - dest, admin);
        step := Cross(dIn, fee);
      }
    }
  }

  /** One band of `calc_swap_in`. */
  method BandIn(vIn: nat, vOut: nat, cIn: nat, cOut: nat, inv: nat, antifee: nat, admin: nat,
                left: nat) returns (step: Outcome)
    requires Fees(antifee, admin).Valid() && inv == (cIn + vIn) * (cOut + vOut)
    ensures step == Step(false, Band(vIn, vOut, cIn, cOut), Fees(antifee, admin), left)
  {
    step := Skip;
    if vOut != 0 && cOut != 0 {
      ghost var band := Band(vIn, vOut, cIn, cOut);
      if vOut >= left {
        var last := vOut - left;
        var dest := inv / (cOut + last) - cIn - vIn;
        assert dest == Dest(band, cOut + last);
        var dIn := dest * antifee / WAD;
        assert dIn == WithFee(dest, antifee);
        var fee := (dIn - dest) * admin / WAD;
        assert fee == AdminPart(dIn - dest, admin);
        step := Fill(dIn, left, fee, last);
      } else {
        var dest := inv / cOut - cIn - vIn;
        assert dest == Dest(band, cOut);
        var dIn := Max(dest * antifee / WAD, 1);
        assert dIn == Max(WithFee(dest, antifee), 1);
        var fee := (dIn - dest) * admin / WAD;
        assert fee == AdminPart(dIn - dest, admin);
        step := Cross(dIn, fee);
      }
    }
  }

  /** The loop's locals as a cursor of the walk. */
  function CursorOf(pump: bool, i: nat, j: nat, n: int, pUp: nat, x: nat, y: nat, left: nat, out: Trade): Cursor {
    Cursor(i, j, n, pUp, if pump then x else y, if pump then y else x, left, out)
  }

  /** Price and trade the band under the cursor; None where the source divides by zero. */
  method TradeBand(env: Env, pUp: nat, x: nat, y: nat, left: nat) returns (step: Outcome)
    requires env.Valid()
    ensures
      var vIn, vOut := if env.pump then x else y, if env.pump then y else x;
      match Price(env, vIn, vOut, pUp)
      case None => step == Revert
      case Some(band) => step == Step(env.exactIn, band, Fees(Antifee(BandFee(env, vIn, vOut, pUp)), env.admin), left)
  {
    var f, g, inv: nat, dynamicFee := 0, 0, 0, env.fee;
    if x > 0 || y > 0 {
      match BandCurve(env.a, x, y, env.pO, pUp) {
        case None => return Revert;
        case Some(curve) => f, g, inv := curve.f, curve.g, curve.inv;
      }
      dynamicFee := Max(GetDynamicFee(env.a, env.pO, pUp), env.fee);
    }
    var antifee := Antifee(dynamicFee);
    if env.pump {
      if env.exactIn {
        step := BandOut(x, y, f, g, inv, antifee, env.admin, left);
      } else {
        step := BandIn(x, y, f, g, inv, antifee, env.admin, left);
      }
    } else {
      assert (g + y) * (f + x) == (f + x) * (g + y);
      if env.exactIn {
        step := BandOut(y, x, g, f, inv, antifee, env.admin, left);
      } else {
        step := BandIn(y, x, g, f, inv, antifee, env.admin, left);
      }
    }
  }

  datatype Status = Failed | Filled | Going

  ghost predicate TicksInStep(j: nat, out: Trade) {
    if j == NO_TICK then out.ticksIn == [] else |out.ticksIn| == j
  }

  /**
   * The part of the loop body before the move to the next band: open the trade, append the tick, trade the band, book
   * it.
   */
  method BookBand(env: Env, ghost i: nat, j0: nat, n2: int, pUp: nat, x: nat, y: nat, left0: nat, out0: Trade)
    returns (status: Status, j: nat, left: nat, out: Trade)
    requires env.Valid() && TicksInStep(j0, out0) && j0 <= NO_TICK
    ensures
      var c := CursorOf(env.pump, i, j0, n2, pUp, x, y, left0, out0);
      match status
      case Failed => Iterate(env, c) == Reverted
      case Filled => Iterate(env, c) == Done(out.(n2 := n2))
      case Going =>
        Iterate(env, c) == Advance(env, c, j, left,
                out) && (if j == NO_TICK then out.ticksIn == [] else j < NO_TICK && |out.ticksIn| == j + 1)
  {
    hide Step, Price, BandFee, Antifee, Advance;
    out, j, left := out0, j0, left0;
    ghost var c := CursorOf(env.pump, i, j, n2, pUp, x, y, left, out);
    if (x > 0 || y > 0) && j == NO_TICK {
      out := out.(n1 := n2);
      j := 0;
    }
    assert out == Opened(c) && j == OpenedTick(c);
    if j != NO_TICK {
      out := out.(ticksIn := out.ticksIn + [if env.pump then x else y]);
    }
    var step := TradeBand(env, pUp, x, y, left);
    if step.Revert? {
      return Failed, j, left, out;
    }
    StepConserves(env.exactIn, Price(env, c.vIn, c.vOut, c.pUp).value,
                  Fees(Antifee(BandFee(env, c.vIn, c.vOut, c.pUp)), env.admin), left);
    status := Going;
    if !step.Skip? {
      var dOut := if step.Fill? then step.dOut else if env.pump then y else x;
      out := out.(inAmount := out.inAmount + step.dIn, outAmount := out.outAmount + dOut,
                  ticksIn := out.ticksIn[j := (if env.pump then x else y) + step.dIn - step.fee],
                  adminFee := out.adminFee + step.fee);
      assert out.ticksIn == Opened(c).ticksIn + [c.vIn + step.dIn - step.fee];
      if step.Fill? {
        status, out := Filled, out.(lastTickJ := step.last);
      } else {
        left := left - if env.exactIn then step.dIn else dOut;
      }
    }
  }

  /** The two tests that keep a trade within about 50 bands of the oracle price. */
  method FarFromOracle(env: Env, pUp: nat) returns (far: bool)
    ensures far == TooFar(env, pUp)
  {
    var ratio := UDiv(pUp * WAD, env.pO);
    if env.pump {
      far := ratio < UDiv(WAD * WAD, env.maxDn);
    } else {
      far := ratio > env.maxDn;
    }
  }

  /** The upper price of the next band. */
  method MovePrice(env: Env, pUp: nat) returns (next: nat)
    requires env.Valid()
    ensures next == NextPrice(env, pUp)
  {
    if env.pump {
      next := Div(pUp * (env.a - 1), env.a);
    } else {
      next := Div(pUp * env.a, env.a - 1);
    }
  }

  /** `calc_swap_out` when the input is given, `calc_swap_in` when the output is. */
  method CalcSwapLoop(env: Env, active: int, pUpActive: nat, bandsX: map<int, nat>, bandsY: map<int, nat>,
                      amount: nat, inPrec: nat, outPrec: nat) returns (r: Option<Trade>)
    requires env.Valid() && inPrec > 0 && outPrec > 0
    requires env.outBands == if env.pump then bandsY else bandsX
    ensures r == CalcSwap(env, active, pUpActive, Get(if env.pump then bandsX else bandsY, active),
                          Get(env.outBands, active),
                          amount, inPrec, outPrec)
  {
    hide Iterate, TooFar, NextPrice, Div;
    var out, n2 := NO_TRADE, active;
    var pUp: nat, x: nat, y: nat := pUpActive, Get(bandsX, active), Get(bandsY, active);
    var left: nat, j: nat, i: nat := amount, NO_TICK, 0;
    ghost var walk := Walk(env, CursorOf(env.pump, 0, j, n2, pUp, x, y, left, out));
    while i < MAX_STEPS
      invariant i <= MAX_STEPS && j <= NO_TICK && (i < MAX_STEPS ==> TicksInStep(j, out))
      invariant walk == if i < MAX_STEPS
                        then Walk(env, CursorOf(env.pump, i, j, n2, pUp, x, y, left, out))
                        else Some(out.(n2 := n2))
    {
      var status;
      status, j, left, out := BookBand(env, i, j, n2, pUp, x, y, left, out);
      if status.Failed? {
        return None;
      }
      if status.Filled? {
        break;
      }
      if i != MAX_STEPS - 1 {
        var far := FarFromOracle(env, pUp);
        if n2 == env.stop || j == NO_TICK - 1 || far {
          break;
        }
        n2 := if env.pump then n2 + 1 else n2 - 1;
        pUp := MovePrice(env, pUp);
        x, y := if env.pump then 0 else Get(bandsX, n2), if env.pump then Get(bandsY, n2) else 0;
      }
      if j != NO_TICK {
        j := j + 1;
      }
      i := i + 1;
    }
    assert walk == Some(out.(n2 := n2));
    out := out.(n2 := n2,
                inAmount := Div(out.inAmount + (inPrec - 1), inPrec) * inPrec,
                outAmount := Div(out.outAmount, outPrec) * outPrec);
    return Some(out);
  }
}
