/**
 * One iteration of the band walk. The pump and dump branches of the source are mirror images, so a band is described
 * by the amounts of the coin going in and of the coin coming out, with the curve offset of each: (x, y, f, g) for a
 * pump, (y, x, g, f) for a dump.
 */
module BandTrade {
  import opened Numbers

  datatype Band = Band(vIn: nat, vOut: nat, cIn: nat, cOut: nat) {
    function Inv(): nat {
      (cIn + vIn) * (cOut + vOut)
    }
  }

  datatype Fees = Fees(antifee: nat, admin: nat) {
    /** The Controller keeps the admin fee at or under one half; one whole is what the arithmetic needs. */
    ghost predicate Valid() {
      antifee >= WAD && admin <= WAD
    }
  }

  /**
   * What happens to the band: nothing; a crossing that takes all of the outgoing coin; a fill that ends the trade
   * and leaves `last` of it; or a revert. `fee` is the admin's part of `dIn`.
   */
  datatype Outcome = Skip | Cross(dIn: nat, fee: nat) | Fill(dIn: nat, dOut: nat, fee: nat, last: nat) | Revert

  /** How much must go in, before fees, to leave only c - cOut of the outgoing coin. */
  function Dest(band: Band, c: nat): nat
    requires 0 < c <= band.cOut + band.vOut
  {
    MulMono(c, band.cOut + band.vOut, band.cIn + band.vIn);
    DivLower(band.Inv(), c, band.cIn + band.vIn);
    band.Inv() / c - band.cIn - band.vIn
  }

  /** Adding the trading fee never lowers an amount. */
  function WithFee(d: nat, antifee: nat): (r: nat)
    requires antifee >= WAD
    ensures r >= d
  {
    MulMono(WAD, antifee, d);
    DivLower(d * antifee, WAD, d);
    d * antifee / WAD
  }

  /** Taking it off never raises one. */
  function WithoutFee(d: nat, antifee: nat): (r: nat)
    requires antifee >= WAD
    ensures r <= d
  {
    DivAnti(d * WAD, WAD, antifee);
    DivOfMul(d, WAD);
    d * WAD / antifee
  }

  function AdminPart(d: nat, admin: nat): (r: nat)
    requires admin <= WAD
    ensures r <= d
  {
    MulMono(admin, WAD, d);
    DivNonNeg(d * admin, WAD);
    DivMono(d * admin, d * WAD, WAD);
    DivOfMul(d, WAD);
    d * admin / WAD
  }

  lemma WithFeeMono(d: nat, d': nat, antifee: nat)
    requires d <= d' && antifee >= WAD
    ensures WithFee(d, antifee) <= WithFee(d', antifee)
  {
    MulMono(d, d', antifee);
    DivMono(d * antifee, d' * antifee, WAD);
  }

  lemma WithoutFeeMono(d: nat, d': nat, antifee: nat)
    requires d <= d' && antifee >= WAD
    ensures WithoutFee(d, antifee) <= WithoutFee(d', antifee)
  {
    MulMono(d, d', WAD);
    DivMono(d * WAD, d' * WAD, antifee);
  }

  /** An amount that does not exceed d with its fee is, without the fee, at most d. */
  lemma FeeRoundTrip(d: nat, left: nat, antifee: nat)
    requires antifee >= WAD && left <= WithFee(d, antifee)
    ensures WithoutFee(left, antifee) <= d
  {
    DivBounds(d * antifee, WAD);
    MulMono(left, WithFee(d, antifee), WAD);
    DivUpper(left * WAD, antifee, d);
  }

  /**
   * What is left of the outgoing coin after `used` went in; the source marks this subtraction "should be always >= 0".
   */
  function LastTick(band: Band, used: nat): (r: nat)
    requires band.cOut > 0 && used <= Dest(band, band.cOut) && band.cIn + band.vIn + used > 0
    ensures r <= band.vOut
  {
    var b := band.cIn + band.vIn + used;
    DivBounds(band.Inv(), band.cOut);
    MulMono(b, band.Inv() / band.cOut, band.cOut);
    DivLower(band.Inv(), b, band.cOut);
    Min(band.Inv() / b - band.cOut + 1, band.vOut)
  }

  /** The band branch of `calc_swap_out` (exactIn) and of `calc_swap_in`; `left` is what remains to be traded. */
  function Step(exactIn: bool, band: Band, fees: Fees, left: nat): Outcome
    requires fees.Valid()
  {
    if band.vOut == 0 || band.cOut == 0 then Skip
    else if exactIn then
      var dest := Dest(band, band.cOut);
      var d := WithFee(dest, fees.antifee);
      if d >= left then
        var used := WithoutFee(left, fees.antifee);
        FeeRoundTrip(dest, left, fees.antifee);
        if band.cIn + band.vIn + used == 0 then Revert else
          var last := LastTick(band, used);
          Fill(left, band.vOut - last, AdminPart(left - used, fees.admin), last)
      else
        Cross(Max(d, 1), AdminPart(Max(d, 1) - dest, fees.admin))
    else if band.vOut >= left then
      var last := band.vOut - left;
      var dest := Dest(band, band.cOut + last);
      var d := WithFee(dest, fees.antifee);
      Fill(d, left, AdminPart(d - dest, fees.admin), last)
    else
      var dest := Dest(band, band.cOut);
      var d := Max(WithFee(dest, fees.antifee), 1);
      Cross(d, AdminPart(d - dest, fees.admin))
  }

  /** Nothing is created in a band: the outgoing coin is split exactly, the admin takes part of what comes in. */
  lemma StepConserves(exactIn: bool, band: Band, fees: Fees, left: nat)
    requires fees.Valid()
    ensures
      match Step(exactIn, band, fees, left)
      case Cross(dIn, fee) =>
        1 <= dIn && fee <= dIn && band.vOut > 0 && (if exactIn then dIn <= left else band.vOut < left)
      case Fill(dIn, dOut, fee, last) =>
        fee <= dIn && dOut + last == band.vOut && band.vOut > 0 && left == if exactIn then dIn else dOut
      case _ => true
  {
  }

  // ---------------------------------------------------------------- what a step charges and pays

  /**
   * d is the most that can go in, before fees, while c - cOut of the outgoing coin stay on the curve; r is d with the
   * fee.
   */
  ghost predicate Charged(band: Band, antifee: nat, c: int, d: int, r: int) {
    var b := band.cIn + band.vIn;
    (b + d) * c <= band.Inv() < (b + d + 1) * c && IsFloor(r, d * antifee, WAD)
  }

  /**
   * u is what goes in without the fee, and `last` the least of the outgoing coin that the curve then lets the band
   * keep, counted up by at most one unit: one unit less would fall under the curve.
   */
  ghost predicate PaidFor(band: Band, antifee: nat, left: int, u: int, last: int) {
    var b := band.cIn + band.vIn + u;
    && IsFloor(u, left * WAD, antifee)
    && b * (band.cOut + last - 1) <= band.Inv() && (last == band.vOut || band.Inv() < b * (band.cOut + last))
  }

  /** A crossing takes all of the outgoing coin, at the price of the curve with the fee, and at least one unit. */
  ghost predicate CrossesOnCurve(exactIn: bool, band: Band, fees: Fees, left: nat, dIn: nat, fee: nat, d: int, r: int) {
    && Charged(band, fees.antifee, band.cOut, d, r) && dIn == Max(r, 1)
    && IsFloor(fee, (dIn - d) * fees.admin, WAD) && if exactIn then r < left else band.vOut < left
  }

  ghost predicate FillsExactIn(band: Band, fees: Fees, left: nat, fee: nat, last: nat, u: int) {
    PaidFor(band, fees.antifee, left, u, last) && IsFloor(fee, (left - u) * fees.admin, WAD)
  }

  ghost predicate FillsExactOut(band: Band, fees: Fees, dIn: nat, fee: nat, last: nat, d: int) {
    Charged(band, fees.antifee, band.cOut + last, d, dIn) && IsFloor(fee, (dIn - d) * fees.admin, WAD)
  }

  lemma DestIsCharged(band: Band, antifee: nat, c: nat)
    requires 0 < c <= band.cOut + band.vOut && antifee >= WAD
    ensures Charged(band, antifee, c, Dest(band, c), WithFee(Dest(band, c), antifee))
  {
    DivBounds(band.Inv(), c);
    DivIsFloor(Dest(band, c) * antifee, WAD);
    Distribute(band.cIn + band.vIn + Dest(band, c), 1, c);
  }

  lemma AdminPartIsFloor(d: nat, admin: nat)
    requires admin <= WAD
    ensures IsFloor(AdminPart(d, admin), d * admin, WAD)
  {
    DivIsFloor(d * admin, WAD);
  }

  lemma LastTickIsPaid(band: Band, antifee: nat, left: nat)
    requires antifee >= WAD && band.cOut > 0 && WithoutFee(left, antifee) <= Dest(band, band.cOut)
    requires band.cIn + band.vIn + WithoutFee(left, antifee) > 0
    ensures
      var u := WithoutFee(left, antifee);
      PaidFor(band, antifee, left, u, LastTick(band, u))
  {
    var u := WithoutFee(left, antifee);
    var b := band.cIn + band.vIn + u;
    DivIsFloor(left * WAD, antifee);
    DivBounds(band.Inv(), b);
    MulMono(band.cOut + LastTick(band, u) - 1, band.Inv() / b, b);
    if LastTick(band, u) < band.vOut {
      assert b * (band.Inv() / b + 1) == band.Inv() / b * b + b;
    }
  }

  /**
   * What happens in a band, said without the steps of the code: skipped without something to give and an offset for it;
   * crossed when everything in it is not enough; otherwise filled, with the outgoing coin paid down to the curve or the
   * incoming coin charged up to it.
   */
  lemma StepMeans(exactIn: bool, band: Band, fees: Fees, left: nat)
    requires fees.Valid()
    ensures
      match Step(exactIn, band, fees, left)
      case Skip => band.vOut == 0 || band.cOut == 0
      case Cross(dIn, fee) =>
        && band.vOut > 0 && band.cOut > 0
        && exists d: int, r: int :: CrossesOnCurve(exactIn, band, fees, left, dIn, fee, d, r)
      case Fill(dIn, dOut, fee, last) =>
        && band.vOut > 0 && band.cOut > 0 && dOut + last == band.vOut
        && (exactIn ==> dIn == left && exists u: int :: FillsExactIn(band, fees, left, fee, last, u))
        && (exactIn ==> exists d: int, r: int :: Charged(band, fees.antifee, band.cOut, d, r) && left <= r)
        && (!exactIn ==> dOut == left && exists d: int :: FillsExactOut(band, fees, dIn, fee, last, d))
      case Revert => exactIn && left == 0 && band.cIn + band.vIn == 0 && band.vOut > 0 && band.cOut > 0
  {
    var step := Step(exactIn, band, fees, left);
    StepReverts(exactIn, band, fees, left);
    if band.vOut > 0 && band.cOut > 0 {
      var dest := Dest(band, band.cOut);
      DestIsCharged(band, fees.antifee, band.cOut);
      match step
      case Cross(dIn, fee) =>
        AdminPartIsFloor(dIn - dest, fees.admin);
        assert CrossesOnCurve(exactIn, band, fees, left, dIn, fee, dest, WithFee(dest, fees.antifee));
      case Fill(dIn, dOut, fee, last) =>
        if exactIn {
          var u := WithoutFee(left, fees.antifee);
          FeeRoundTrip(dest, left, fees.antifee);
          LastTickIsPaid(band, fees.antifee, left);
          AdminPartIsFloor(left - u, fees.admin);
          assert FillsExactIn(band, fees, left, fee, last, u);
        } else {
          DestIsCharged(band, fees.antifee, band.cOut + last);
          AdminPartIsFloor(dIn - Dest(band, band.cOut + last), fees.admin);
          assert FillsExactOut(band, fees, dIn, fee, last, Dest(band, band.cOut + last));
        }
      case _ =>
    }
  }

  /** The one revert in a band: nothing is left to go in where nothing of that coin is, so an offset of zero divides. */
  lemma StepReverts(exactIn: bool, band: Band, fees: Fees, left: nat)
    requires fees.Valid()
    ensures Step(exactIn, band, fees, left).Revert? <==>
            exactIn && left == 0 && band.cIn + band.vIn == 0 && band.vOut > 0 && band.cOut > 0
  {
    if band.vOut > 0 && band.cOut > 0 && exactIn && band.cIn + band.vIn == 0 {
      assert band.Inv() == 0;
      DivOfMul(0, band.cOut);
      DivOfMul(0, WAD);
      assert Dest(band, band.cOut) == 0 && WithFee(Dest(band, band.cOut), fees.antifee) == 0;
      DivOfMul(0, fees.antifee);
    }
  }

  lemma DestKeepsCurve(band: Band, c: nat)
    requires 0 < c <= band.cOut + band.vOut
    ensures (band.cIn + band.vIn + Dest(band, c)) * c > band.Inv() - c
  {
    DivBounds(band.Inv(), c);
  }

  lemma LastTickKeepsCurve(band: Band, used: nat)
    requires band.cOut > 0 && used <= Dest(band, band.cOut) && band.cIn + band.vIn + used > 0
    ensures (band.cIn + band.vIn + used) * (band.cOut + LastTick(band, used)) >= band.Inv()
  {
    var b := band.cIn + band.vIn + used;
    DivBounds(band.Inv(), b);
    if LastTick(band, used) == band.vOut {
      MulMono(band.cIn + band.vIn, b, band.cOut + band.vOut);
    } else {
      assert band.cOut + LastTick(band, used) == band.Inv() / b + 1;
      assert b * (band.Inv() / b + 1) == band.Inv() / b * b + b;
    }
  }

  /**
   * A trade respects the curve, after the admin took a part of the fee: the final band of an exact-input trade never
   * falls below Inv; a crossed band, or the final band of an exact-output trade, loses less than the outgoing offset.
   */
  lemma StepRespectsCurve(exactIn: bool, band: Band, fees: Fees, left: nat)
    requires fees.Valid()
    ensures
      match Step(exactIn, band, fees, left)
      case Cross(dIn, fee) => (band.cIn + band.vIn + dIn - fee) * band.cOut > band.Inv() - band.cOut
      case Fill(dIn, dOut, fee, last) =>
        var after := (band.cIn + band.vIn + dIn - fee) * (band.cOut + last);
        if exactIn then after >= band.Inv() else after > band.Inv() - (band.cOut + last)
      case _ => true
  {
    var step := Step(exactIn, band, fees, left);
    if step.Cross? {
      var dest := Dest(band, band.cOut);
      DestKeepsCurve(band, band.cOut);
      MulMono(band.cIn + band.vIn + dest, band.cIn + band.vIn + step.dIn - step.fee, band.cOut);
    } else if step.Fill? && exactIn {
      var used := WithoutFee(left, fees.antifee);
      FeeRoundTrip(Dest(band, band.cOut), left, fees.antifee);
      LastTickKeepsCurve(band, used);
      MulMono(band.cIn + band.vIn + used, band.cIn + band.vIn + step.dIn - step.fee, band.cOut + step.last);
    } else if step.Fill? {
      var dest := Dest(band, band.cOut + step.last);
      DestKeepsCurve(band, band.cOut + step.last);
      MulMono(band.cIn + band.vIn + dest, band.cIn + band.vIn + step.dIn - step.fee, band.cOut + step.last);
    }
  }

  lemma LastTickAnti(band: Band, used: nat, used': nat)
    requires band.cOut > 0 && used <= used' <= Dest(band, band.cOut) && band.cIn + band.vIn + used > 0
    ensures LastTick(band, used') <= LastTick(band, used)
  {
    DivAnti(band.Inv(), band.cIn + band.vIn + used, band.cIn + band.vIn + used');
  }

  lemma DestAnti(band: Band, c: nat, c': nat)
    requires 0 < c <= c' <= band.cOut + band.vOut
    ensures Dest(band, c') <= Dest(band, c)
  {
    DivAnti(band.Inv(), c, c');
  }

  /** Trading more in one band: a crossing stays the same crossing, and a fill moves no less of either coin. */
  lemma StepMono(exactIn: bool, band: Band, fees: Fees, left: nat, left': nat)
    requires fees.Valid() && left <= left'
    ensures
      var s, s' := Step(exactIn, band, fees, left), Step(exactIn, band, fees, left');
      match s
      case Skip => s' == Skip
      case Cross(_, _) => s' == s
      case Fill(dIn, dOut, _, _) =>
        (s'.Cross? ==> dIn <= s'.dIn && dOut <= band.vOut) && (s'.Fill? ==> dIn <= s'.dIn && dOut <= s'.dOut)
      case Revert => true
  {
    var s, s' := Step(exactIn, band, fees, left), Step(exactIn, band, fees, left');
    if s.Fill? && exactIn {
      var dest := Dest(band, band.cOut);
      FeeRoundTrip(dest, left, fees.antifee);
      if s'.Fill? {
        FeeRoundTrip(dest, left', fees.antifee);
        WithoutFeeMono(left, left', fees.antifee);
        LastTickAnti(band, WithoutFee(left, fees.antifee), WithoutFee(left', fees.antifee));
      }
    } else if s.Fill? {
      var c' := if s'.Fill? then band.cOut + s'.last else band.cOut;
      DestAnti(band, c', band.cOut + s.last);
      WithFeeMono(Dest(band, band.cOut + s.last), Dest(band, c'), fees.antifee);
    }
  }
}
