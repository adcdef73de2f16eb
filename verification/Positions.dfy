/** The generator of chaos positions: random wishes, capped by each market's debt limit. */
module Positions {
  import opened Numbers
  import opened Ledger

  datatype Limits = Limits(maxDebt: nat, minLoan: nat, initialDebt: nat)

  /** `minBorrow` is MIN_BORROW_USG; a `maxCount` of zero means no limit. */
  datatype Config = Config(minBorrow: nat, maxCount: nat) {
    predicate Full(count: nat) {
      maxCount != 0 && count >= maxCount
    }

    predicate Within(count: nat) {
      maxCount != 0 ==> count <= maxCount
    }
  }

  /** The random choices of one visit of a user to a market: passed over, or wanting to borrow some amount. */
  datatype Wish = Wish(skip: bool, amount: nat)

  /** A visit: the positions of the user and of the market in their lists. */
  type Visit = (nat, nat)

  type Wishes = Visit -> Wish

  type Borrows = map<Address, nat>

  function MinBorrow(cfg: Config, l: Limits): nat {
    Max(l.minLoan, cfg.minBorrow)
  }

  /** What is granted: the wish raised to the minimum and cut to what is left, unless that is below the minimum. */
  predicate Granted(cfg: Config, l: Limits, debt: nat, wanted: nat, amount: nat) {
    amount == Min(Max(wanted, MinBorrow(cfg, l)), l.maxDebt - debt) && MinBorrow(cfg, l) <= amount
  }

  /** What `generateUserPosition` lets a user borrow: at least the minimum, at most what is left, or nothing at all. */
  method GenerateUserPosition(cfg: Config, debt: nat, l: Limits, wanted: nat) returns (borrow: Option<nat>)
    ensures borrow.None? <==> l.maxDebt - debt < MinBorrow(cfg, l) && debt + Max(wanted, MinBorrow(cfg, l)) > l.maxDebt
    ensures borrow.Some? ==> Granted(cfg, l, debt, wanted, borrow.value) && debt + borrow.value <= l.maxDebt
  {
    var effectiveMin := if l.minLoan > cfg.minBorrow then l.minLoan else cfg.minBorrow;
    var amount := wanted;
    if amount < effectiveMin {
      amount := effectiveMin;
    }
    if debt + amount > l.maxDebt {
      var remaining := l.maxDebt - debt;
      if remaining < effectiveMin {
        return None;
      }
      amount := remaining;
    }
    return Some(amount);
  }

  // ---------------------------------------------------------------- plans and the positions behind them

  /** The parameters built so far, and the debt tracked for each market. */
  datatype Plan = Plan(borrows: map<Address, Borrows>, debt: map<Address, nat>, count: nat)

  function Of(p: Plan, m: Address): Borrows {
    if m in p.borrows then p.borrows[m] else map[]
  }

  /** One accepted position. */
  datatype Accepted = Accepted(visit: Visit, user: Address, market: Address, amount: nat)

  /** Everything accepted in a market. */
  function Given(log: seq<Accepted>, m: Address): nat {
    if log == [] then 0 else
      var a := log[|log| - 1];
      Given(log[..|log| - 1], m) + if a.market == m then a.amount else 0
  }

  /** The parameters of a market: a user's later position replaces an earlier one. */
  function Params(log: seq<Accepted>, m: Address): Borrows {
    if log == [] then map[] else
      var a, before := log[|log| - 1], Params(log[..|log| - 1], m);
      if a.market == m then before[a.user := a.amount] else before
  }

  lemma LogAppend(log: seq<Accepted>, a: Accepted, m: Address)
    ensures Given(log + [a], m) == Given(log, m) + if a.market == m then a.amount else 0
    ensures Params(log + [a], m) == if a.market == m then Params(log, m)[a.user := a.amount] else Params(log, m)
  {
    assert (log + [a])[..|log|] == log;
  }

  /** The k-th position was granted on the debt of the moment, to a user who was not passed over. */
  ghost predicate FairAt(cfg: Config, limits: map<Address, Limits>, wish: Wishes, log: seq<Accepted>, k: nat)
    requires k < |log|
  {
    var a := log[k];
    && a.market in limits && !wish(a.visit).skip
    && Granted(cfg, limits[a.market], limits[a.market].initialDebt + Given(log[..k], a.market),
               wish(a.visit).amount, a.amount)
  }

  /** One market: its debt is the initial debt plus all that was accepted, and within the cap once anything was. */
  ghost predicate MarketOk(l: Limits, debt: nat, borrows: Borrows, log: seq<Accepted>, m: Address) {
    debt == l.initialDebt + Given(log, m) && borrows == Params(log, m) && (borrows != map[] ==> debt <= l.maxDebt)
  }

  ghost predicate PlanOk(cfg: Config, limits: map<Address, Limits>, wish: Wishes, p: Plan, log: seq<Accepted>) {
    && p.debt.Keys == limits.Keys && p.borrows.Keys <= limits.Keys && p.count == |log|
    && (forall m :: m in limits ==> MarketOk(limits[m], p.debt[m], Of(p, m), log, m))
    && (forall k :: 0 <= k < |log| ==> FairAt(cfg, limits, wish, log, k))
  }

  predicate Before(v: Visit, w: Visit) {
    v.0 < w.0 || (v.0 == w.0 && v.1 < w.1)
  }

  /** The positions come from visits in order, before the given one, of the listed users to the listed markets. */
  ghost predicate Visits(users: seq<Address>, markets: seq<Address>, log: seq<Accepted>, now: Visit) {
    && (forall k :: 0 <= k < |log| ==>
          && log[k].visit.0 < |users| && log[k].visit.1 < |markets| && Before(log[k].visit, now)
          && log[k].user == users[log[k].visit.0] && log[k].market == markets[log[k].visit.1])
    && (forall j, k :: 0 <= j < k < |log| ==> log[j].visit != log[k].visit)
  }

  lemma VisitsLater(users: seq<Address>, markets: seq<Address>, log: seq<Accepted>, v: Visit, w: Visit)
    requires Visits(users, markets, log, v) && (v == w || Before(v, w))
    ensures Visits(users, markets, log, w)
  {
  }

  ghost predicate Accepts(log: seq<Accepted>, v: Visit) {
    exists k :: 0 <= k < |log| && log[k].visit == v
  }

  /** A visit led to a position, or was passed over, or less than the minimum is left in the market. */
  ghost predicate Settled(cfg: Config, limits: map<Address, Limits>, wish: Wishes, p: Plan, log: seq<Accepted>,
                          v: Visit, m: Address) {
    m in limits && m in p.debt ==>
      Accepts(log, v) || wish(v).skip || limits[m].maxDebt - p.debt[m] < MinBorrow(cfg, limits[m])
  }

  /** Later positions only add to a plan. */
  ghost predicate Extends(p: Plan, log: seq<Accepted>, q: Plan, log': seq<Accepted>) {
    log <= log' && p.debt.Keys == q.debt.Keys && p.count <= q.count
    && forall m :: m in p.debt ==> p.debt[m] <= q.debt[m]
  }

  function Accept(p: Plan, u: Address, m: Address, amount: nat): Plan
    requires m in p.debt
  {
    Plan(p.borrows[m := Of(p, m)[u := amount]], p.debt[m := p.debt[m] + amount], p.count + 1)
  }

  lemma AcceptMarkets(limits: map<Address, Limits>, p: Plan, log: seq<Accepted>, a: Accepted, n: Address)
    requires a.market in p.debt && n in p.debt && n in limits && MarketOk(limits[n], p.debt[n], Of(p, n), log, n)
    requires n == a.market ==> p.debt[n] + a.amount <= limits[n].maxDebt
    ensures
      var q := Accept(p, a.user, a.market, a.amount);
      MarketOk(limits[n], q.debt[n], Of(q, n), log + [a], n)
  {
    hide Given, Params;
    LogAppend(log, a, n);
  }

  lemma AcceptKeepsFair(cfg: Config, limits: map<Address, Limits>, wish: Wishes, log: seq<Accepted>, a: Accepted)
    requires forall k :: 0 <= k < |log| ==> FairAt(cfg, limits, wish, log, k)
    requires FairAt(cfg, limits, wish, log + [a], |log|)
    ensures forall k :: 0 <= k < |log + [a]| ==> FairAt(cfg, limits, wish, log + [a], k)
  {
    hide Granted;
    forall k | 0 <= k < |log| ensures FairAt(cfg, limits, wish, log + [a], k) {
      assert FairAt(cfg, limits, wish, log, k);
      assert (log + [a])[..k] == log[..k];
    }
  }

  lemma AcceptKeepsOk(cfg: Config, limits: map<Address, Limits>, wish: Wishes, p: Plan, log: seq<Accepted>, a: Accepted)
    requires PlanOk(cfg, limits, wish, p, log) && a.market in limits && !wish(a.visit).skip
    requires Granted(cfg, limits[a.market], p.debt[a.market], wish(a.visit).amount, a.amount)
    requires p.debt[a.market] + a.amount <= limits[a.market].maxDebt
    ensures PlanOk(cfg, limits, wish, Accept(p, a.user, a.market, a.amount), log + [a])
    ensures Extends(p, log, Accept(p, a.user, a.market, a.amount), log + [a])
  {
    hide Granted, MarketOk, FairAt;
    var q := Accept(p, a.user, a.market, a.amount);
    LastIsFair(cfg, limits, wish, p, log, a);
    AcceptKeepsFair(cfg, limits, wish, log, a);
    forall n | n in limits ensures MarketOk(limits[n], q.debt[n], Of(q, n), log + [a], n) {
      AcceptMarkets(limits, p, log, a, n);
    }
  }

  lemma LastIsFair(cfg: Config, limits: map<Address, Limits>, wish: Wishes, p: Plan, log: seq<Accepted>, a: Accepted)
    requires PlanOk(cfg, limits, wish, p, log) && a.market in limits && !wish(a.visit).skip
    requires Granted(cfg, limits[a.market], p.debt[a.market], wish(a.visit).amount, a.amount)
    ensures FairAt(cfg, limits, wish, log + [a], |log|)
  {
    hide Granted, Params;
    assert (log + [a])[..|log|] == log;
    assert MarketOk(limits[a.market], p.debt[a.market], Of(p, a.market), log, a.market);
  }

  lemma AcceptVisits(users: seq<Address>, markets: seq<Address>, log: seq<Accepted>, a: Accepted)
    requires Visits(users, markets, log, a.visit) && a.visit.0 < |users| && a.visit.1 < |markets|
    requires a.user == users[a.visit.0] && a.market == markets[a.visit.1]
    ensures Visits(users, markets, log + [a], (a.visit.0, a.visit.1 + 1))
  {
    var log' := log + [a];
    forall j, k | 0 <= j < k < |log'| ensures log'[j].visit != log'[k].visit {
      assert k == |log| ==> Before(log[j].visit, a.visit);
    }
  }

  lemma SettledLater(cfg: Config, limits: map<Address, Limits>, wish: Wishes, p: Plan, log: seq<Accepted>, q: Plan,
                     log': seq<Accepted>,
                     v: Visit, m: Address)
    requires Extends(p, log, q, log') && Settled(cfg, limits, wish, p, log, v, m)
    ensures Settled(cfg, limits, wish, q, log', v, m)
  {
    if Accepts(log, v) {
      var k :| 0 <= k < |log| && log[k].visit == v;
      assert log'[k].visit == v;
    }
  }

  // ---------------------------------------------------------------- the loops

  /** The body of the inner loop. */
  method TryMarket(cfg: Config, limits: map<Address, Limits>, wish: Wishes, users: seq<Address>, markets: seq<Address>,
                   v: Visit, p: Plan, ghost log: seq<Accepted>) returns (q: Plan, ghost log': seq<Accepted>)
    requires v.0 < |users| && v.1 < |markets| && PlanOk(cfg, limits, wish, p, log) && Visits(users, markets, log, v)
    ensures PlanOk(cfg, limits, wish, q, log') && Extends(p, log, q, log') && q.count <= p.count + 1
    ensures Visits(users, markets, log', (v.0, v.1 + 1)) && Settled(cfg, limits, wish, q, log', v, markets[v.1])
  {
    var u, m := users[v.0], markets[v.1];
    q, log' := p, log;
    VisitsLater(users, markets, log, v, (v.0, v.1 + 1));
    if wish(v).skip || m !in limits {
      return;
    }
    var l := limits[m];
    if l.maxDebt - p.debt[m] < l.minLoan {
      return;
    }
    var borrow := GenerateUserPosition(cfg, p.debt[m], l, wish(v).amount);
    if borrow.None? {
      return;
    }
    q := Accept(p, u, m, borrow.value);
    ghost var a := Accepted(v, u, m, borrow.value);
    log' := log + [a];
    hide PlanOk, Visits, Granted, Extends;
    AcceptKeepsOk(cfg, limits, wish, p, log, a);
    AcceptVisits(users, markets, log, a);
    assert log'[|log|].visit == v;
  }

  /** The visits of user i to the first k markets are settled, unless the generator is full. */
  ghost predicate UserSettled(cfg: Config, limits: map<Address, Limits>, wish: Wishes, p: Plan, log: seq<Accepted>,
                              i: nat, markets: seq<Address>, k: nat)
    requires k <= |markets|
  {
    cfg.Full(p.count) || forall j :: 0 <= j < k ==> Settled(cfg, limits, wish, p, log, (i, j), markets[j])
  }

  lemma UserSettledLater(cfg: Config, limits: map<Address, Limits>, wish: Wishes, p: Plan, log: seq<Accepted>,
                         q: Plan, log': seq<Accepted>, i: nat, markets: seq<Address>, k: nat)
    requires k <= |markets| && Extends(p, log, q, log') && UserSettled(cfg, limits, wish, p, log, i, markets, k)
    ensures UserSettled(cfg, limits, wish, q, log', i, markets, k)
  {
    hide Settled;
    forall j | 0 <= j < k && !cfg.Full(p.count) ensures Settled(cfg, limits, wish, q, log', (i, j), markets[j]) {
      SettledLater(cfg, limits, wish, p, log, q, log', (i, j), markets[j]);
    }
  }

  lemma ExtendsOn(p: Plan, l: seq<Accepted>, q: Plan, l': seq<Accepted>, r: Plan, l'': seq<Accepted>)
    requires Extends(p, l, q, l') && Extends(q, l', r, l'')
    ensures Extends(p, l, r, l'')
  {
  }

  /** The inner loop: one user in every market. */
  method TryMarkets(cfg: Config, limits: map<Address, Limits>, wish: Wishes, users: seq<Address>, markets: seq<Address>,
                    i: nat, p: Plan, ghost log: seq<Accepted>) returns (q: Plan, ghost log': seq<Accepted>)
    requires i < |users| && PlanOk(cfg, limits, wish, p, log) && Visits(users, markets, log, (i, 0))
    requires cfg.Within(p.count)
    ensures PlanOk(cfg, limits, wish, q, log') && Extends(p, log, q, log') && cfg.Within(q.count)
    ensures Visits(users, markets, log', (i + 1, 0)) && UserSettled(cfg, limits, wish, q, log', i, markets, |markets|)
  {
    q, log' := p, log;
    var j := 0;
    hide PlanOk, Settled, Visits;
    assert Extends(p, log, q, log');
    while j < |markets|
      invariant 0 <= j <= |markets| && PlanOk(cfg, limits, wish, q, log') && Extends(p, log, q, log')
      invariant cfg.Within(q.count)
      invariant Visits(users, markets, log', (i, j)) && UserSettled(cfg, limits, wish, q, log', i, markets, j)
    {
      if cfg.Full(q.count) {
        VisitsLater(users, markets, log', (i, j), (i + 1, 0));
        return;
      }
      ghost var before, beforeLog := q, log';
      q, log' := TryMarket(cfg, limits, wish, users, markets, (i, j), q, log');
      ExtendsOn(p, log, before, beforeLog, q, log');
      UserSettledLater(cfg, limits, wish, before, beforeLog, q, log', i, markets, j);
      j := j + 1;
    }
    VisitsLater(users, markets, log', (i, j), (i + 1, 0));
  }

  function NewPlan(limits: map<Address, Limits>): Plan {
    Plan(map[], map m | m in limits :: limits[m].initialDebt, 0)
  }

  lemma NewPlanOk(cfg: Config, limits: map<Address, Limits>, wish: Wishes)
    ensures PlanOk(cfg, limits, wish, NewPlan(limits), [])
  {
  }

  /** The visits of the first k users are settled, unless the generator is full. */
  ghost predicate AllSettled(cfg: Config, limits: map<Address, Limits>, wish: Wishes, p: Plan, log: seq<Accepted>,
                             markets: seq<Address>, k: nat) {
    forall i :: 0 <= i < k ==> UserSettled(cfg, limits, wish, p, log, i, markets, |markets|)
  }

  lemma AllSettledLater(cfg: Config, limits: map<Address, Limits>, wish: Wishes, p: Plan, log: seq<Accepted>,
                        q: Plan, log': seq<Accepted>, markets: seq<Address>, k: nat)
    requires Extends(p, log, q, log') && AllSettled(cfg, limits, wish, p, log, markets, k)
    requires UserSettled(cfg, limits, wish, q, log', k, markets, |markets|)
    ensures AllSettled(cfg, limits, wish, q, log', markets, k + 1)
  {
    hide UserSettled;
    forall i | 0 <= i < k ensures UserSettled(cfg, limits, wish, q, log', i, markets, |markets|) {
      UserSettledLater(cfg, limits, wish, p, log, q, log', i, markets, |markets|);
    }
  }

  lemma FullSettles(cfg: Config, limits: map<Address, Limits>, wish: Wishes, p: Plan, log: seq<Accepted>,
                    markets: seq<Address>, k: nat)
    requires cfg.Full(p.count)
    ensures AllSettled(cfg, limits, wish, p, log, markets, k)
  {
  }

  /**
   * `getBorrowAndDepositParamsChaos`, for any random choices at any visit: tracked debts are the initial debts plus all
   * accepted borrows, each granted between the minimum and what was left; no market with a position is over its cap;
   * the position limit holds; and, unless that limit stopped the generator, every visit was passed over, led to a
   * position, or found less than the minimum left.
   */
  method BuildParams(cfg: Config, limits: map<Address, Limits>, wish: Wishes, users: seq<Address>,
                     markets: seq<Address>)
    returns (p: Plan, ghost log: seq<Accepted>)
    ensures PlanOk(cfg, limits, wish, p, log) && Visits(users, markets, log, (|users|, 0)) && cfg.Within(p.count)
    ensures AllSettled(cfg, limits, wish, p, log, markets, |users|)
  {
    NewPlanOk(cfg, limits, wish);
    p, log := NewPlan(limits), [];
    hide NewPlan, PlanOk, Extends, UserSettled;
    var i := 0;
    while i < |users|
      invariant 0 <= i <= |users| && PlanOk(cfg, limits, wish, p, log) && cfg.Within(p.count)
      invariant Visits(users, markets, log, (i, 0)) && AllSettled(cfg, limits, wish, p, log, markets, i)
    {
      if cfg.Full(p.count) {
        FullSettles(cfg, limits, wish, p, log, markets, |users|);
        VisitsLater(users, markets, log, (i, 0), (|users|, 0));
        return;
      }
      ghost var before, beforeLog := p, log;
      p, log := TryMarkets(cfg, limits, wish, users, markets, i, p, log);
      AllSettledLater(cfg, limits, wish, before, beforeLog, p, log, markets, i);
      i := i + 1;
    }
  }

  // ---------------------------------------------------------------- what the parameters show

  /** A market that starts over its cap gets no position. */
  lemma OverCapStaysEmpty(cfg: Config, limits: map<Address, Limits>, wish: Wishes, p: Plan, log: seq<Accepted>,
                          m: Address)
    requires PlanOk(cfg, limits, wish, p, log) && m in limits && limits[m].initialDebt > limits[m].maxDebt
    ensures Of(p, m) == map[]
  {
    assert MarketOk(limits[m], p.debt[m], Of(p, m), log, m);
  }

  /** Nobody has two positions in one market. */
  ghost predicate OncePerMarket(log: seq<Accepted>) {
    forall j, k :: 0 <= j < k < |log| ==> log[j].user != log[k].user || log[j].market != log[k].market
  }

  lemma {:induction false} ParamsShowAll(log: seq<Accepted>, m: Address)
    requires OncePerMarket(log)
    ensures Sum(Params(log, m)) == Given(log, m)
    ensures forall u :: u in Params(log, m) ==> exists k :: 0 <= k < |log| && log[k].user == u && log[k].market == m
    decreases |log|
  {
    if log == [] {
      SumZero(Params(log, m));
    } else {
      var n := |log| - 1;
      var a, before := log[n], log[..n];
      ParamsShowAll(before, m);
      if a.market == m {
        SumPut(Params(before, m), a.user, a.amount);
      }
      forall u | u in Params(log, m) ensures exists k :: 0 <= k < |log| && log[k].user == u && log[k].market == m {
        if u in Params(before, m) {
          var k :| 0 <= k < |before| && before[k].user == u && before[k].market == m;
          assert log[k].user == u && log[k].market == m;
        } else {
          assert log[n].user == u && log[n].market == m;
        }
      }
    }
  }

  /** With no user and no market listed twice, the borrow parameters show every accepted position. */
  lemma DebtIsInTheParams(cfg: Config, limits: map<Address, Limits>, wish: Wishes, users: seq<Address>,
                          markets: seq<Address>,
                          p: Plan, log: seq<Accepted>, m: Address)
    requires PlanOk(cfg, limits, wish, p, log) && Visits(users, markets, log, (|users|, 0)) && m in limits
    requires Distinct(users) && Distinct(markets)
    ensures p.debt[m] == limits[m].initialDebt + Sum(Of(p, m))
  {
    forall j, k | 0 <= j < k < |log| ensures log[j].user != log[k].user || log[j].market != log[k].market {
      assert log[j].visit != log[k].visit;
    }
    ParamsShowAll(log, m);
    assert MarketOk(limits[m], p.debt[m], Of(p, m), log, m);
  }
}
