/** The oracle limiter with its dynamic fee, and the interest multiplier. */
module PriceOracle {
  import opened Numbers

  const PREV_P_O_DELAY: nat := 120
  const MAX_P_O_CHG: nat := 1_250_000_000_000_000_000
  const MIN_RATIO: nat := 800_000_000_000_000_000

  /** The last accepted price, the fee that came with it, and when. */
  datatype Oracle = Oracle(oldPO: nat, oldDfee: nat, prevTime: nat)

  /** How much of the delay window is left. */
  function WindowLeft(o: Oracle, now: nat): (dt: nat)
    requires o.prevTime <= now
    ensures dt <= PREV_P_O_DELAY
  {
    PREV_P_O_DELAY - Min(PREV_P_O_DELAY, now - o.prevTime)
  }

  /** The accepted price and the smaller of the two prices over the larger, within one window. */
  function LimitRatio(oldPO: nat, p: nat): (nat, nat) {
    if p > oldPO then
      var ratio := UDiv(oldPO * WAD, p);
      if ratio < MIN_RATIO then (Div(oldPO * MAX_P_O_CHG, WAD), MIN_RATIO) else (p, ratio)
    else
      var ratio := UDiv(p * WAD, oldPO);
      if ratio < MIN_RATIO then (Div(oldPO * WAD, MAX_P_O_CHG), MIN_RATIO) else (p, ratio)
  }

  lemma RatioRange(oldPO: nat, p: nat)
    ensures MIN_RATIO <= LimitRatio(oldPO, p).1 <= WAD
  {
    if p > oldPO {
      MulMono(oldPO, p, WAD);
      DivUpper(oldPO * WAD, p, WAD);
    } else if oldPO > 0 {
      MulMono(p, oldPO, WAD);
      DivUpper(p * WAD, oldPO, WAD);
    }
  }

  /** The fee for an instantaneous change of the given ratio: 1 - ratio^3. */
  function ChangeFee(ratio: nat): (r: nat)
    requires ratio <= WAD
    ensures r <= WAD
  {
    CubeWithinWad(ratio);
    WAD - Div(ratio * ratio * ratio, WAD * WAD)
  }

  lemma CubeWithinWad(ratio: nat)
    requires ratio <= WAD
    ensures 0 <= ratio * ratio * ratio <= WAD * WAD * WAD
    ensures Div(ratio * ratio * ratio, WAD * WAD) <= WAD
  {
    Product3(ratio, ratio, ratio);
    CubeMono(ratio, WAD);
    DivMono(ratio * ratio * ratio, WAD * (WAD * WAD), WAD * WAD);
    DivOfMul(WAD, WAD * WAD);
  }

  lemma CubeMono(r: nat, w: nat)
    requires r <= w
    ensures r * r * r <= w * w * w
  {
    MulMono(r, w, r);
    MulMono(r, w, w);
    MulMono(r * r, w * w, r);
    MulMono(r, w, w * w);
  }

  /** `limit_p_o`: the limited price and the dynamic fee. */
  function LimitPO(o: Oracle, p: nat, now: nat): (nat, nat)
    requires o.prevTime <= now
  {
    var dt := WindowLeft(o, now);
    if dt == 0 then (p, 0) else
      var (pNew, ratio) := LimitRatio(o.oldPO, p);
      RatioRange(o.oldPO, p);
      MulMono(0, o.oldDfee + ChangeFee(ratio), dt);
      (pNew, Min(Div((o.oldDfee + ChangeFee(ratio)) * dt, PREV_P_O_DELAY), WAD - 1))
  }

  /** `_price_oracle_w`. */
  function Accept(o: Oracle, p: nat, now: nat): Oracle
    requires o.prevTime <= now
  {
    var (pNew, fee) := LimitPO(o, p, now);
    Oracle(pNew, fee, now)
  }

  /** What is stored is the limited price, its fee and the time of the update. */
  lemma AcceptMeans(o: Oracle, p: nat, now: nat)
    requires o.prevTime <= now
    ensures Accept(o, p, now).prevTime == now
    ensures (Accept(o, p, now).oldPO, Accept(o, p, now).oldDfee) == LimitPO(o, p, now)
  {
  }

  lemma NotClampedUp(oldPO: nat, p: nat)
    requires p > oldPO
    ensures UDiv(oldPO * WAD, p) < MIN_RATIO <==> p > Div(oldPO * MAX_P_O_CHG, WAD)
  {
    DivBounds(oldPO * WAD, p);
    DivBounds(oldPO * MAX_P_O_CHG, WAD);
    var ratio := UDiv(oldPO * WAD, p);
    if ratio < MIN_RATIO {
      MulMono(ratio + 1, MIN_RATIO, p);
      DivUpper(oldPO * MAX_P_O_CHG, WAD, p - 1);
    } else {
      MulMono(MIN_RATIO, ratio, p);
      DivLower(oldPO * MAX_P_O_CHG, WAD, p);
    }
  }

  lemma NotClampedDown(oldPO: nat, p: nat)
    requires p <= oldPO && oldPO > 0
    ensures UDiv(p * WAD, oldPO) < MIN_RATIO ==> p <= Div(oldPO * WAD, MAX_P_O_CHG)
    ensures UDiv(p * WAD, oldPO) >= MIN_RATIO ==> p >= Div(oldPO * WAD, MAX_P_O_CHG)
  {
    DivBounds(p * WAD, oldPO);
    var ratio := UDiv(p * WAD, oldPO);
    if ratio < MIN_RATIO {
      MulMono(ratio + 1, MIN_RATIO, oldPO);
      DivLower(oldPO * WAD, MAX_P_O_CHG, p);
    } else {
      MulMono(MIN_RATIO, ratio, oldPO);
      DivUpper(oldPO * WAD, MAX_P_O_CHG, p);
    }
  }

  /**
   * The limiter is a clamp: inside the window the accepted price is p, cut to [old / 1.25, 1.25 * old]; after it, p.
   */
  lemma LimiterIsClamp(o: Oracle, p: nat, now: nat)
    requires o.prevTime <= now
    ensures LimitPO(o, p, now).0 ==
      if now - o.prevTime >= PREV_P_O_DELAY then p
      else Max(Div(o.oldPO * WAD, MAX_P_O_CHG), Min(Div(o.oldPO * MAX_P_O_CHG, WAD), p))
  {
    var lo, hi := Div(o.oldPO * WAD, MAX_P_O_CHG), Div(o.oldPO * MAX_P_O_CHG, WAD);
    DivUpper(o.oldPO * WAD, MAX_P_O_CHG, o.oldPO);
    DivLower(o.oldPO * MAX_P_O_CHG, WAD, o.oldPO);
    if p > o.oldPO {
      NotClampedUp(o.oldPO, p);
    } else if o.oldPO > 0 {
      NotClampedDown(o.oldPO, p);
    }
  }

  const TWO_256: int := 0x1_0000_0000_0000_0000_0000_0000_0000_0000_0000_0000_0000_0000_0000_0000_0000_0000

  lemma RatioFalls(oldPO: nat, p: nat, p': nat)
    requires oldPO <= p <= p' || p' <= p <= oldPO
    ensures LimitRatio(oldPO, p').1 <= LimitRatio(oldPO, p).1
  {
    RatioRange(oldPO, p);
    RatioRange(oldPO, p');
    if oldPO < p {
      DivAnti(oldPO * WAD, p, p');
    } else if p' <= p <= oldPO && oldPO > 0 {
      MulMono(p', p, WAD);
      DivMono(p' * WAD, p * WAD, oldPO);
      if p == oldPO {
        DivOfMul(WAD, oldPO);
      }
    } else if p == oldPO && oldPO > 0 {
      DivOfMul(WAD, oldPO);
    }
  }

  /** Further from the last price, in either direction, the fee is no lower. */
  lemma LargerMovesCostMore(o: Oracle, p: nat, p': nat, now: nat)
    requires o.prevTime <= now && (o.oldPO <= p <= p' || p' <= p <= o.oldPO)
    ensures LimitPO(o, p, now).1 <= LimitPO(o, p', now).1
  {
    var r, r', dt := LimitRatio(o.oldPO, p).1, LimitRatio(o.oldPO, p').1, WindowLeft(o, now);
    RatioRange(o.oldPO, p);
    RatioRange(o.oldPO, p');
    RatioFalls(o.oldPO, p, p');
    CubeMono(r', r);
    DivMono(r' * r' * r', r * r * r, WAD * WAD);
    hide LimitRatio;
    MulMono(o.oldDfee + ChangeFee(r), o.oldDfee + ChangeFee(r'), dt);
    DivMono((o.oldDfee + ChangeFee(r)) * dt, (o.oldDfee + ChangeFee(r')) * dt, PREV_P_O_DELAY);
  }

  /** The smaller of two prices over the larger. */
  function Nearness(oldPO: nat, p: nat): nat {
    if p > oldPO then UDiv(oldPO * WAD, p) else UDiv(p * WAD, oldPO)
  }

  /** x is the old fee and that of the change, 1 - ratio^3, for the part of the window that is left. */
  ghost predicate FeeFor(oldDfee: nat, ratio: nat, left: nat, cube: int, x: int) {
    IsFloor(cube, ratio * ratio * ratio, WAD * WAD) && IsFloor(x, (oldDfee + WAD - cube) * left, PREV_P_O_DELAY)
  }

  /**
   * The dynamic fee: the last one and that of the change, both fading over the window, with the prices' ratio cut at
   * 0.8 and the fee held below one.
   */
  lemma DynamicFeeMeans(o: Oracle, p: nat, now: nat)
    requires o.prevTime <= now
    ensures
      var left, ratio := Max(PREV_P_O_DELAY - (now - o.prevTime), 0), Max(MIN_RATIO, Nearness(o.oldPO, p));
      exists cube: int, x: int :: FeeFor(o.oldDfee, ratio, left, cube, x) && LimitPO(o, p, now).1 == Min(x, WAD - 1)
  {
    var left, ratio := WindowLeft(o, now), LimitRatio(o.oldPO, p).1;
    RatioRange(o.oldPO, p);
    CubeWithinWad(ratio);
    var cube := Div(ratio * ratio * ratio, WAD * WAD);
    DivIsFloor(ratio * ratio * ratio, WAD * WAD);
    MulMono(0, o.oldDfee + WAD - cube, left);
    var x := Div((o.oldDfee + WAD - cube) * left, PREV_P_O_DELAY);
    DivIsFloor((o.oldDfee + WAD - cube) * left, PREV_P_O_DELAY);
    assert ratio == Max(MIN_RATIO, Nearness(o.oldPO, p)) && left == Max(PREV_P_O_DELAY - (now - o.prevTime), 0);
    if left == 0 {
      DivOfNone(PREV_P_O_DELAY);
      assert x == 0 && LimitPO(o, p, now).1 == 0;
    } else {
      assert LimitPO(o, p, now).1 == Min(x, WAD - 1);
    }
    assert FeeFor(o.oldDfee, ratio, left, cube, x);
  }

  /** The fee of the limit, 1 - 0.8^3. */
  const LIMIT_FEE: nat := 488_000_000_000_000_000

  lemma ChangeFeeAtLimit(ratio: nat)
    requires MIN_RATIO <= ratio <= WAD
    ensures ChangeFee(ratio) <= LIMIT_FEE
    ensures ChangeFee(ratio) == LIMIT_FEE <==> ratio == MIN_RATIO
  {
    assert MIN_RATIO * MIN_RATIO * MIN_RATIO / (WAD * WAD) == WAD - LIMIT_FEE;
    if ratio > MIN_RATIO {
      CubeMono(MIN_RATIO + 1, ratio);
      assert (MIN_RATIO + 1) * (MIN_RATIO + 1) * (MIN_RATIO + 1) >= (WAD - LIMIT_FEE + 1) * (WAD * WAD);
      DivLower(ratio * ratio * ratio, WAD * WAD, WAD - LIMIT_FEE + 1);
    }
  }

  /**
   * Right after an update without fee, a move up or down costs at most 48.8 percent, and exactly that if and only if it
   * reaches the limit; a move by a quarter up or a fifth down does.
   */
  lemma LimitMoveFee(o: Oracle, p: nat)
    requires o.oldDfee == 0 && o.oldPO > 0
    ensures LimitPO(o, p, o.prevTime).1 <= LIMIT_FEE
    ensures LimitPO(o, p, o.prevTime).1 == LIMIT_FEE <==> Nearness(o.oldPO, p) <= MIN_RATIO
    ensures 4 * p >= 5 * o.oldPO || 5 * p <= 4 * o.oldPO ==> Nearness(o.oldPO, p) <= MIN_RATIO
  {
    var ratio := LimitRatio(o.oldPO, p).1;
    RatioRange(o.oldPO, p);
    ChangeFeeAtLimit(ratio);
    DivOfMul(ChangeFee(ratio), PREV_P_O_DELAY);
    if 4 * p >= 5 * o.oldPO {
      DivUpper(o.oldPO * WAD, p, MIN_RATIO);
    } else if 5 * p <= 4 * o.oldPO {
      DivUpper(p * WAD, o.oldPO, MIN_RATIO);
    }
  }

  /** The stored fee stays below one, and with it no `unsafe` step of the computation wraps 256 bits. */
  lemma FeeStaysBelowOne(o: Oracle, p: nat, now: nat)
    requires o.prevTime <= now && o.oldDfee < WAD
    ensures LimitPO(o, p, now).1 < WAD
    ensures
      var ratio := LimitRatio(o.oldPO, p).1;
      && ratio * ratio * ratio < TWO_256 && Div(ratio * ratio * ratio, WAD * WAD) <= WAD + o.oldDfee < TWO_256
      && (WAD + o.oldDfee) * WindowLeft(o, now) < TWO_256
  {
    RatioRange(o.oldPO, p);
    CubeWithinWad(LimitRatio(o.oldPO, p).1);
    MulMono(WindowLeft(o, now), PREV_P_O_DELAY, WAD + o.oldDfee);
  }

  /** One call of `_price_oracle_w`. */
  datatype Quote = Quote(price: nat, time: nat)

  ghost predicate ClockRuns(o: Oracle, quotes: seq<Quote>) {
    && (forall i :: 0 <= i < |quotes| ==> o.prevTime <= quotes[i].time)
    && (forall i, j :: 0 <= i < j < |quotes| ==> quotes[i].time <= quotes[j].time)
  }

  function AcceptAll(o: Oracle, quotes: seq<Quote>): Oracle
    requires ClockRuns(o, quotes)
    ensures quotes != [] ==> AcceptAll(o, quotes).prevTime == quotes[|quotes| - 1].time
    ensures quotes == [] ==> AcceptAll(o, quotes) == o
    decreases |quotes|
  {
    if quotes == [] then o else
      var k := |quotes| - 1;
      assert ClockRuns(o, quotes[..k]);
      Accept(AcceptAll(o, quotes[..k]), quotes[k].price, quotes[k].time)
  }

  /** Over any sequence of updates the fee stays below one. */
  lemma {:induction false} FeeBelowOneForever(o: Oracle, quotes: seq<Quote>)
    requires ClockRuns(o, quotes) && o.oldDfee < WAD
    ensures AcceptAll(o, quotes).oldDfee < WAD
    decreases |quotes|
  {
    if quotes != [] {
      var k := |quotes| - 1;
      assert ClockRuns(o, quotes[..k]);
      FeeBelowOneForever(o, quotes[..k]);
    }
  }

  // ---------------------------------------------------------------- decay

  /** What remains of a fee when `left` seconds of the window do. */
  function Decayed(fee: nat, left: nat): nat {
    Div(fee * left, PREV_P_O_DELAY)
  }

  /**
   * At a constant price the fee that is read decays linearly from the last update, to zero at the end of the window.
   */
  lemma ConstantPriceDecaysLinearly(o: Oracle, now: nat)
    requires o.prevTime <= now && o.oldDfee < WAD && o.oldPO > 0
    ensures LimitPO(o, o.oldPO, now) == (o.oldPO, Decayed(o.oldDfee, WindowLeft(o, now)))
    ensures now - o.prevTime >= PREV_P_O_DELAY ==> LimitPO(o, o.oldPO, now).1 == 0
  {
    DivOfMul(WAD, o.oldPO);
    assert o.oldPO * WAD == WAD * o.oldPO;
    assert LimitRatio(o.oldPO, o.oldPO) == (o.oldPO, WAD);
    DivOfMul(WAD, WAD * WAD);
    assert ChangeFee(WAD) == 0;
    MulMono(WindowLeft(o, now), PREV_P_O_DELAY, o.oldDfee);
    DivUpper(o.oldDfee * WindowLeft(o, now), PREV_P_O_DELAY, o.oldDfee);
  }

  lemma DecayedRange(fee: nat, left: nat)
    requires left <= PREV_P_O_DELAY
    ensures Decayed(fee, left) <= fee
    ensures fee > 0 ==> (Decayed(fee, left) < fee <==> left < PREV_P_O_DELAY)
    ensures left == 0 ==> Decayed(fee, left) == 0
    ensures left == PREV_P_O_DELAY ==> Decayed(fee, left) == fee
  {
    DivOfMul(fee, PREV_P_O_DELAY);
    if left < PREV_P_O_DELAY {
      MulMono(left, PREV_P_O_DELAY - 1, fee);
      if fee > 0 {
        DivUpper(fee * left, PREV_P_O_DELAY, fee - 1);
      }
    }
  }

  /** The fee read `e` seconds after the last update, at the price of that update. */
  function ReadOnce(price: Positive, start: nat, fee: nat, e: nat): nat {
    LimitPO(Oracle(price, fee, start), price, start + e).1
  }

  /** The same when an update at that price happened after e1 seconds, e2 seconds before the reading. */
  function ReadTwice(price: Positive, start: nat, fee: nat, e1: nat, e2: nat): nat {
    LimitPO(Accept(Oracle(price, fee, start), price, start + e1), price, start + e1 + e2).1
  }

  lemma Readings(price: Positive, start: nat, fee: nat, e1: nat, e2: nat)
    requires fee < WAD
    ensures
      var left := e => PREV_P_O_DELAY - Min(PREV_P_O_DELAY, e);
      && ReadOnce(price, start, fee, e1 + e2) == Decayed(fee, left(e1 + e2))
      && ReadTwice(price, start, fee, e1, e2) == Decayed(Decayed(fee, left(e1)), left(e2))
  {
    hide LimitPO;
    var o := Oracle(price, fee, start);
    ConstantPriceDecaysLinearly(o, start + e1 + e2);
    ConstantPriceDecaysLinearly(o, start + e1);
    DecayedRange(fee, WindowLeft(o, start + e1));
    ConstantPriceDecaysLinearly(Accept(o, price, start + e1), start + e1 + e2);
  }

  /** Within one window, an update in between loses at most one unit against the linear fee. */
  lemma DecayTwice(fee: nat, e1: nat, e2: nat)
    requires e1 + e2 <= PREV_P_O_DELAY
    ensures
      Decayed(Decayed(fee, PREV_P_O_DELAY - e1), PREV_P_O_DELAY - e2) + 1 >= Decayed(fee, PREV_P_O_DELAY - e1 - e2)
  {
    var T := PREV_P_O_DELAY;
    var d1, d2 := T - e1, T - e2;
    var f1 := Decayed(fee, d1);
    DivBounds(fee * d1, T);
    // T * f1 > fee * d1 - T and d1 * d2 >= T * (T - e1 - e2)
    assert d1 * d2 == T * (T - e1 - e2) + e1 * e2;
    MulMono(T * (T - e1 - e2), d1 * d2, fee);
    MulMono(fee * d1 - T, f1 * T, d2);
    assert (fee * d1) * d2 == fee * (d1 * d2);
    assert fee * (T * (T - e1 - e2)) == T * (fee * (T - e1 - e2));
    assert (f1 * d2) * T == (f1 * T) * d2;
    assert T * (fee * (T - e1 - e2)) - T * d2 <= T * (f1 * d2);
    assert fee * (T - e1 - e2) <= f1 * d2 + d2;
    DivMono(fee * (T - e1 - e2), f1 * d2 + T, T);
    DivUpper(f1 * d2 + T, T, Decayed(f1, d2) + 1) by { DivBounds(f1 * d2, T); }
  }

  /** An update in between never makes the fee decay faster, up to one unit of rounding. */
  lemma UpdatesSlowDecay(price: Positive, start: nat, fee: nat, e1: nat, e2: nat)
    requires fee < WAD
    ensures ReadTwice(price, start, fee, e1, e2) + 1 >= ReadOnce(price, start, fee, e1 + e2)
  {
    hide ReadOnce, ReadTwice;
    Readings(price, start, fee, e1, e2);
    if e1 + e2 <= PREV_P_O_DELAY {
      hide Decayed;
      DecayTwice(fee, e1, e2);
    } else {
      DecayedRange(fee, 0);
    }
  }

  /** A fee of 120 * 120, updated and read inside the window, is (120 - e1) * (120 - e2): more than the linear fee. */
  lemma UpdateBendsDecay(price: Positive, start: nat, e1: nat, e2: nat)
    requires 0 < e1 < PREV_P_O_DELAY && 0 < e2 < PREV_P_O_DELAY
    ensures ReadTwice(price, start, 14_400, e1, e2) > ReadOnce(price, start, 14_400, e1 + e2)
  {
    hide ReadOnce, ReadTwice;
    Readings(price, start, 14_400, e1, e2);
    var T := PREV_P_O_DELAY;
    DivOfMul(T * (T - e1), T);
    DivOfMul((T - e1) * (T - e2), T);
    assert 14_400 * (T - e1) == T * (T - e1) * T;
    assert T * (T - e1) * (T - e2) == (T - e1) * (T - e2) * T;
    Product3(T - e1, T - e2, 1);
    assert (T - e1) * (T - e2) == T * (T - e1 - e2) + e1 * e2;
    MulMono(1, e1, e2);
    MulMono(1, T - e1, T - e2);
    if e1 + e2 <= T {
      DivOfMul(T * (T - e1 - e2), T);
      assert 14_400 * (T - e1 - e2) == T * (T - e1 - e2) * T;
    } else {
      DecayedRange(14_400, 0);
    }
  }

  /**
   * When decay is linear although an update at the same price came in between: for every fee, exactly when no time
   * passed before or after that update, or when one of the two waits alone outlasts the window.
   */
  lemma LinearDecayExactly(price: Positive, start: nat, e1: nat, e2: nat)
    ensures
      (forall fee: nat :: fee < WAD ==> ReadTwice(price, start, fee, e1, e2) == ReadOnce(price, start, fee, e1 + e2))
      <==> e1 == 0 || e2 == 0 || e1 >= PREV_P_O_DELAY || e2 >= PREV_P_O_DELAY
  {
    hide ReadOnce, ReadTwice;
    if e1 == 0 || e2 == 0 || e1 >= PREV_P_O_DELAY || e2 >= PREV_P_O_DELAY {
      forall fee: nat | fee < WAD ensures ReadTwice(price, start, fee, e1, e2) == ReadOnce(price, start, fee, e1 + e2) {
        EdgeReadings(price, start, fee, e1, e2);
      }
    } else {
      UpdateBendsDecay(price, start, e1, e2);
    }
  }

  lemma EdgeReadings(price: Positive, start: nat, fee: nat, e1: nat, e2: nat)
    requires fee < WAD && (e1 == 0 || e2 == 0 || e1 >= PREV_P_O_DELAY || e2 >= PREV_P_O_DELAY)
    ensures ReadTwice(price, start, fee, e1, e2) == ReadOnce(price, start, fee, e1 + e2)
  {
    hide ReadOnce, ReadTwice, Decayed;
    Readings(price, start, fee, e1, e2);
    var f1 := Decayed(fee, PREV_P_O_DELAY - Min(PREV_P_O_DELAY, e1));
    DecayedRange(fee, PREV_P_O_DELAY - Min(PREV_P_O_DELAY, e1));
    DecayedRange(f1, PREV_P_O_DELAY - Min(PREV_P_O_DELAY, e2));
    DecayedRange(fee, PREV_P_O_DELAY - Min(PREV_P_O_DELAY, e1 + e2));
    DecayedRange(0, PREV_P_O_DELAY - Min(PREV_P_O_DELAY, e2));
  }

  /**
   * An update half-way through the window leaves 101 of a fee of 400 a second before its end; without it, 3 are left.
   */
  lemma UpdateKeepsFeeAlive()
    ensures ReadOnce(WAD, 0, 400, 119) == 3 && ReadTwice(WAD, 0, 400, 60, 59) == 101
  {
    hide ReadOnce, ReadTwice;
    Readings(WAD, 0, 400, 60, 59);
  }

  /** At a constant price an update lowers a fee exactly when time has passed, and never raises it. */
  lemma UpdateLowersFee(o: Oracle, now: nat)
    requires o.prevTime <= now && o.oldDfee < WAD && o.oldPO > 0
    ensures Accept(o, o.oldPO, now).oldPO == o.oldPO && Accept(o, o.oldPO, now).oldDfee <= o.oldDfee
    ensures o.oldDfee > 0 ==> (Accept(o, o.oldPO, now).oldDfee < o.oldDfee <==> o.prevTime < now)
  {
    hide LimitPO;
    ConstantPriceDecaysLinearly(o, now);
    DecayedRange(o.oldDfee, WindowLeft(o, now));
  }

  /** How many updates of a sequence came later than the update before them. */
  function LaterUpdates(o: Oracle, quotes: seq<Quote>): nat {
    if quotes == [] then 0 else
      var k := |quotes| - 1;
      var before := if k == 0 then o.prevTime else quotes[k - 1].time;
      LaterUpdates(o, quotes[..k]) + if before < quotes[k].time then 1 else 0
  }

  /**
   * Over any sequence of updates at a constant price the fee never rises and loses at least one unit with every update
   * that lets time pass, so it reaches zero.
   */
  lemma {:induction false} ConstantPriceFeeDies(o: Oracle, quotes: seq<Quote>)
    requires ClockRuns(o, quotes) && o.oldDfee < WAD && o.oldPO > 0
    requires forall i :: 0 <= i < |quotes| ==> quotes[i].price == o.oldPO
    ensures AcceptAll(o, quotes).oldPO == o.oldPO
    ensures AcceptAll(o, quotes).oldDfee <= Max(0, o.oldDfee - LaterUpdates(o, quotes))
    decreases |quotes|
  {
    if quotes != [] {
      hide Accept;
      var k := |quotes| - 1;
      assert ClockRuns(o, quotes[..k]);
      ConstantPriceFeeDies(o, quotes[..k]);
      UpdateLowersFee(AcceptAll(o, quotes[..k]), quotes[k].time);
    }
  }

  // ---------------------------------------------------------------- interest

  /** The stored multiplier, the current rate per second and the time both were stored. */
  datatype Rate = Rate(mul: Positive, rate: nat, time: nat)

  /** `_rate_mul`. */
  function RateMul(r: Rate, now: nat): Positive
    requires r.time <= now
  {
    MulMono(0, r.rate, now - r.time);
    MulMono(WAD, WAD + r.rate * (now - r.time), r.mul);
    DivLower(r.mul * (WAD + r.rate * (now - r.time)), WAD, r.mul);
    Div(r.mul * (WAD + r.rate * (now - r.time)), WAD)
  }

  /** `set_rate`. */
  function SetRate(r: Rate, rate: nat, now: nat): Rate
    requires r.time <= now
  {
    Rate(RateMul(r, now), rate, now)
  }

  /** The multiplier grows by simple interest since it was stored, rounded down. */
  lemma RateMulIsInterest(r: Rate, now: nat, q: nat)
    requires r.time <= now
    ensures q <= RateMul(r, now) <==> q * WAD <= r.mul * (WAD + r.rate * (now - r.time))
  {
    MulMono(0, r.rate, now - r.time);
    MulMono(0, r.mul, WAD + r.rate * (now - r.time));
    FloorIsGreatest(r.mul * (WAD + r.rate * (now - r.time)), WAD, q);
  }

  /** The multiplier never falls, neither with time nor when the rate is changed. */
  lemma RateMulGrows(r: Rate, t: nat, t': nat)
    requires r.time <= t <= t'
    ensures r.mul <= RateMul(r, t) <= RateMul(r, t')
  {
    MulMono(t - r.time, t' - r.time, r.rate);
    MulMono(0, t - r.time, r.rate);
    MulMono(WAD, WAD + r.rate * (t - r.time), r.mul);
    MulMono(WAD + r.rate * (t - r.time), WAD + r.rate * (t' - r.time), r.mul);
    RateMulIsInterest(r, t, r.mul);
    RateMulIsInterest(r, t, RateMul(r, t));
    RateMulIsInterest(r, t', RateMul(r, t));
  }

  /** Changing the rate does not change the multiplier of that moment. */
  lemma SetRateIsContinuous(r: Rate, rate: nat, now: nat)
    requires r.time <= now
    ensures RateMul(SetRate(r, rate, now), now) == RateMul(r, now)
  {
    DivOfMul(RateMul(r, now), WAD);
  }
}
