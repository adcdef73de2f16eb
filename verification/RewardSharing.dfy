/**
 * Histories of the reward pool: what it owes against what it received, and each account against an exact per-second
 * split.
 */
module RewardSharing {
  import opened Numbers
  import opened Ledger
  import opened RewardPool

  datatype Action =
    | Wait(dt: nat)
    | StakeFor(user: Address, amount: nat)
    | WithdrawFor(user: Address, amount: nat, claim: bool, unwrap: bool)
    | Claim(user: Address)
    | Give(amount: nat)
    | QueueRewards(amount: nat)

  function Call(s: State, a: Action): Option<State>
    requires Ok(s)
  {
    match a
    case Wait(dt) => Some(s.(now := s.now + dt))
    case StakeFor(user, amount) => Stake(s, user, amount)
    case WithdrawFor(user, amount, claim, unwrap) => Withdraw(s, user, amount, claim, unwrap)
    case Claim(user) => Some(GetReward(s, user))
    case Give(amount) => Some(Donate(s, amount))
    case QueueRewards(amount) => Queue(s, amount)
  }

  lemma CallKeepsSolvent(s: State, a: Action, t: State)
    requires Ok(s) && Solvent(s) && Call(s, a) == Some(t)
    ensures Ok(t) && Solvent(t)
  {
    hide Stake, Withdraw, GetReward, Queue, Due;
    match a
    case Wait(dt) => DuesSame(s, t);
    case StakeFor(user, amount) => StakingKeepsSolvent(s, user, amount, t);
    case WithdrawFor(user, amount, claim, unwrap) => WithdrawKeepsSolvent(s, user, amount, claim, unwrap, t);
    case Claim(user) => GetRewardKeepsSolvent(s, user);
    case Give(amount) => DuesSame(s, t);
    case QueueRewards(amount) => QueueKeepsSolvent(s, amount, t);
  }

  lemma StakingKeepsSolvent(s: State, u: Address, amount: nat, t: State)
    requires Ok(s) && Solvent(s) && Stake(s, u, amount) == Some(t)
    ensures Ok(t) && Solvent(t)
  {
    hide Update, Solvent;
    StakeKeepsSolvent(s, u, amount);
  }

  /** What a call brings in. */
  function Received(a: Action): nat {
    if a.Give? || a.QueueRewards? then a.amount else 0
  }

  lemma GetRewardKeepsReceived(s: State, u: Address)
    requires Ok(s)
    ensures Ok(GetReward(s, u)) && Update(s, u).historical + Update(s, u).queued == s.historical + s.queued
    ensures GetReward(s, u).historical + GetReward(s, u).queued == s.historical + s.queued
  {
    hide RewardPerToken, Earned, Sum;
    UpdateKeepsOk(s, u);
  }

  /** Every reward received is notified or queued, and stays so. */
  lemma CallKeepsReceived(s: State, a: Action, t: State)
    requires Ok(s) && Call(s, a) == Some(t)
    ensures t.historical + t.queued == s.historical + s.queued + Received(a)
  {
    hide RewardPerToken, Earned, Ok, Sum, Update, GetReward;
    match a
    case StakeFor(user, amount) => GetRewardKeepsReceived(s, user);
    case WithdrawFor(user, amount, claim, unwrap) =>
      GetRewardKeepsReceived(s, user);
      UpdateKeepsOk(s, user);
      UnstakeKeepsOk(Update(s, user), user, amount);
      GetRewardKeepsReceived(Unstake(Update(s, user), user, amount).value, user);
    case Claim(user) => GetRewardKeepsReceived(s, user);
    case _ =>
  }

  // ---------------------------------------------------------------- nothing is promised twice

  /** What an account was sent and what `earned` shows for it now. */
  function Granted(s: State, u: Address): nat
    requires Ok(s)
  {
    Get(s.sent, u) + Earned(s, u)
  }

  ghost function AllGranted(s: State): Amounts
    requires Ok(s)
  {
    map u | u in s.balance.Keys + s.rewards.Keys + s.sent.Keys :: Granted(s, u)
  }

  ghost function AllGrantedScaled(s: State): Amounts
    requires Ok(s)
  {
    map u | u in s.balance.Keys + s.rewards.Keys + s.sent.Keys :: WAD * Granted(s, u)
  }

  lemma GrantedWithinDue(s: State, u: Address)
    requires Ok(s)
    ensures WAD * Granted(s, u) <= Due(Index(s), u) < WAD * Granted(s, u) + WAD
  {
    hide RewardPerToken;
    assert Get(s.paid, u) <= s.stored;
    DivBounds(Get(s.balance, u) * (RewardPerToken(s) - Get(s.paid, u)), WAD);
  }

  /**
   * At any moment, what was sent, what every account could claim, and what is still to be streamed are together covered
   * by the rewards notified so far.
   */
  lemma NeverOverpays(s: State)
    requires Ok(s) && Solvent(s)
    ensures Sum(AllGranted(s)) + (s.finish - Applicable(s)) * s.rate <= s.historical
  {
    hide Due, Earned, RewardPerToken, Sum, LinearAt;
    IndexKeepsSolvent(s);
    forall u ensures LinearAt(AllGrantedScaled(s), map[], AllGranted(s), WAD, u) {
      ScaledAt(s, u);
    }
    SumLinear(AllGrantedScaled(s), map[], AllGranted(s), WAD);
    SumZero<Address>(map[]);
    forall u ensures Get(AllGrantedScaled(s), u) <= Get(Dues(Index(s)), u) {
      GrantedWithinDue(s, u);
      DuesAt(Index(s), u);
    }
    SumMono(AllGrantedScaled(s), Dues(Index(s)));
  }

  lemma ScaledAt(s: State, u: Address)
    requires Ok(s)
    ensures LinearAt(AllGrantedScaled(s), map[], AllGranted(s), WAD, u)
  {
    hide Granted;
  }

  // ---------------------------------------------------------------- the exact split

  /** The exact share of an account in one second: its part of the rate by its part of the stake. */
  ghost function Flow(s: State, u: Address): real {
    if s.supply == 0 then 0.0 else (Get(s.balance, u) * s.rate) as real / s.supply as real
  }

  /** The simple specification: second by second, as long as the period lasts, the rate is split pro rata. */
  ghost function Seconds(s: State, u: Address, dt: nat): real {
    if dt == 0 then 0.0 else Seconds(s, u, dt - 1) + if s.now + dt - 1 < s.finish then Flow(s, u) else 0.0
  }

  /** Streamed to the account since the last update, exactly. */
  ghost function Pending(s: State, u: Address): real
    requires s.last <= Applicable(s)
  {
    Flow(s, u) * (Applicable(s) - s.last) as real
  }

  lemma {:induction false} SecondsStream(s: State, u: Address, dt: nat)
    requires s.last <= Applicable(s)
    ensures s.last <= Applicable(s.(now := s.now + dt))
    ensures Pending(s.(now := s.now + dt), u) == Pending(s, u) + Seconds(s, u, dt)
  {
    if dt > 0 {
      SecondsStream(s, u, dt - 1);
      var f, k := Flow(s, u), Applicable(s.(now := s.now + (dt - 1))) - s.last;
      assert f * (k + 1) as real == f * k as real + f;
    }
  }

  /** How far an exact share runs ahead of what the pool has granted, in 18 more decimals. */
  ghost function Behind(s: State, u: Address, share: real): real
    requires s.last <= Applicable(s)
  {
    WAD as real * share - Due(s, u) as real - WAD as real * Pending(s, u)
  }

  lemma NothingPending(s: State, u: Address)
    requires s.last == Applicable(s)
    ensures Pending(s, u) == 0.0
  {
  }

  /** A floored step of the index, times a stake, lies within the stake of the exact amount. */
  lemma StepTimesStake(step: nat, st: nat, d: Positive, b: nat)
    requires step * d <= st * WAD < step * d + d
    ensures step * b * d <= WAD * (b * st) <= (step * b + b) * d
  {
    MulMono(step * d, st * WAD, b);
    MulMono(st * WAD, step * d + d, b);
    assert step * d * b == step * b * d;
    assert st * WAD * b == WAD * (b * st);
    Distribute(step * d, d, b);
    Distribute(step * b, b, d);
  }

  lemma RealOfProduct(a: int, b: int)
    ensures (a * b) as real == a as real * b as real
  {
  }

  /** A whole number times d is at most w * d only if it is at most w; and the other way round. */
  lemma CompareTimes(a: int, w: real, d: Positive, wd: int)
    requires w * d as real == wd as real
    ensures a * d <= wd ==> a as real <= w
    ensures wd <= a * d ==> w <= a as real
  {
    RealOfProduct(a, d);
    if a * d <= wd {
      CancelReal(a as real, w, d);
    }
    if wd <= a * d {
      CancelReal(w, a as real, d);
    }
  }

  lemma ScaledPending(pending: real, d: Positive, n: int)
    requires pending * d as real == n as real
    ensures WAD as real * pending * d as real == (WAD * n) as real
  {
    assert WAD as real * pending * d as real == WAD as real * (pending * d as real);
  }

  lemma StepPending(step: nat, st: nat, d: Positive, b: nat, pending: real)
    requires step * d <= st * WAD < step * d + d && pending * d as real == (b * st) as real
    ensures (step * b) as real <= WAD as real * pending <= (step * b + b) as real
  {
    StepTimesStake(step, st, d, b);
    ScaledPending(pending, d, b * st);
    CompareTimes(step * b, WAD as real * pending, d, WAD * (b * st));
    CompareTimes(step * b + b, WAD as real * pending, d, WAD * (b * st));
  }

  lemma StepBounds(s: State)
    requires Ok(s) && s.supply != 0
    ensures
      var step := RewardPerToken(s) - s.stored;
      step * s.supply <= Streamed(s) * WAD < step * s.supply + s.supply
  {
    DivBounds(Streamed(s) * WAD, s.supply);
  }

  lemma PendingTimesSupply(s: State, u: Address)
    requires Ok(s) && s.supply != 0
    ensures Pending(s, u) * s.supply as real == (Get(s.balance, u) * Streamed(s)) as real
  {
    var b := Get(s.balance, u);
    assert (b * s.rate) * (Applicable(s) - s.last) == b * Streamed(s);
    FlowTimes(b * s.rate, s.supply, Applicable(s) - s.last, b * Streamed(s));
  }

  /** An index step rounds down by less than one unit of the index for every unit staked. */
  lemma IndexPending(s: State, u: Address)
    requires Ok(s)
    ensures
      var step := (RewardPerToken(s) - s.stored) * Get(s.balance, u);
      step as real <= WAD as real * Pending(s, u) <= (step + Get(s.balance, u)) as real
  {
    if s.supply != 0 {
      hide RewardPerToken, Pending, Streamed;
      StepBounds(s);
      PendingTimesSupply(s, u);
      StepPending(RewardPerToken(s) - s.stored, Streamed(s), s.supply, Get(s.balance, u), Pending(s, u));
    }
  }

  lemma FlowTimes(n: nat, d: Positive, k: nat, product: nat)
    requires n * k == product
    ensures n as real / d as real * k as real * d as real == product as real
  {
    var f := n as real / d as real;
    assert f * k as real * d as real == f * d as real * k as real;
    assert (n * k) as real == n as real * k as real;
  }

  lemma CancelReal(a: real, b: real, d: Positive)
    requires a * d as real <= b * d as real
    ensures a <= b
  {
  }

  lemma IndexBehind(s: State, u: Address, share: real)
    requires Ok(s)
    ensures Ok(Index(s))
    ensures Behind(s, u, share) <= Behind(Index(s), u, share) <= Behind(s, u, share) + Get(s.balance, u) as real
  {
    hide Due, RewardPerToken;
    IndexKeepsOk(s);
    IndexDue(s, u);
    IndexPending(s, u);
    NothingPending(Index(s), u);
  }

  /** The cost of one `updateReward(v)` to account u, in 18 more decimals. */
  ghost function UpdateCost(s: State, u: Address, v: Address): nat {
    Get(s.balance, u) + if u == v then WAD else 0
  }

  lemma UpdateBehind(s: State, u: Address, v: Address, share: real)
    requires Ok(s)
    ensures Ok(Update(s, v))
    ensures Behind(s, u, share) <= Behind(Update(s, v), u, share) <= Behind(s, u, share) + UpdateCost(s, u, v) as real
  {
    hide Due, RewardPerToken, Earned, Pending;
    IndexKeepsOk(s);
    UpdateKeepsOk(s, v);
    IndexBehind(s, u, share);
    NothingPending(Index(s), u);
    NothingPending(Update(s, v), u);
    if u == v {
      CreditDue(Index(s), u);
    } else {
      DueFrame(Index(s), Update(s, v), u);
    }
  }

  /**
   * The cost of one call: one update, or two for a withdrawal that also claims; a notification updates the index only.
   */
  ghost function Cost(s: State, a: Action, u: Address): nat {
    match a
    case StakeFor(user, amount) => UpdateCost(s, u, user)
    case WithdrawFor(user, amount, claim, unwrap) =>
      UpdateCost(s, u, user) + if claim then UpdateCost(s, u, user) else 0
    case Claim(user) => UpdateCost(s, u, user)
    case QueueRewards(amount) => Get(s.balance, u)
    case _ => 0
  }

  /** Just after an update, changes of stakes and payments leave every account as far behind as it was. */
  lemma SettledBehind(s: State, t: State, u: Address, share: real)
    requires s.last == Applicable(s) && t.last == Applicable(t) && Due(s, u) == Due(t, u)
    ensures Behind(s, u, share) == Behind(t, u, share)
  {
    hide Due;
    NothingPending(s, u);
    NothingPending(t, u);
  }

  lemma StakeBehind(s: State, v: Address, amount: nat, u: Address, share: real, t: State)
    requires Ok(s) && Ok(t) && Stake(s, v, amount) == Some(t)
    ensures Behind(s, u, share) <= Behind(t, u, share) <= Behind(s, u, share) + UpdateCost(s, u, v) as real
  {
    hide Update, Due, Behind;
    UpdateBehind(s, u, v, share);
    UpdateKeepsOk(s, v);
    DueFrame(Update(s, v), t, u);
    SettledBehind(Update(s, v), t, u, share);
  }

  lemma UnstakeBehind(s: State, v: Address, amount: nat, u: Address, share: real, t: State)
    requires Ok(s) && Ok(t) && Unstake(s, v, amount) == Some(t) && s.last == Applicable(s) && Get(s.paid, v) == s.stored
    ensures Behind(t, u, share) == Behind(s, u, share) && UpdateCost(t, u, v) <= UpdateCost(s, u, v)
  {
    hide Due, Behind;
    DueFrame(s, t, u);
    SettledBehind(s, t, u, share);
  }

  lemma GetRewardBehind(s: State, v: Address, u: Address, share: real)
    requires Ok(s)
    ensures Ok(GetReward(s, v))
    ensures Behind(s, u, share) <= Behind(GetReward(s, v), u, share) <=
            Behind(s, u, share) + UpdateCost(s, u, v) as real
  {
    hide Update, Due, Behind, Send, Earned, RewardPerToken;
    UpdateBehind(s, u, v, share);
    UpdateKeepsOk(s, v);
    SendSends(Update(s, v), v);
    if u != v {
      DueFrame(Update(s, v), GetReward(s, v), u);
    }
    SettledBehind(Update(s, v), GetReward(s, v), u, share);
  }

  lemma WithdrawBehind(s: State, v: Address, amount: nat, claim: bool, unwrap: bool, u: Address, share: real, t: State)
    requires Ok(s) && Withdraw(s, v, amount, claim, unwrap) == Some(t)
    ensures Ok(t) && Behind(s, u, share) <= Behind(t, u, share)
    ensures Behind(t, u, share) <= Behind(s, u, share) + Cost(s, WithdrawFor(v, amount, claim, unwrap), u) as real
  {
    hide Update, Behind, GetReward, Unstake;
    UpdateBehind(s, u, v, share);
    UpdateKeepsOk(s, v);
    UnstakeKeepsOk(Update(s, v), v, amount);
    var r := Unstake(Update(s, v), v, amount).value;
    UnstakeBehind(Update(s, v), v, amount, u, share, r);
    UpdateBalance(s, v, u);
    if claim {
      GetRewardBehind(r, v, u, share);
    }
  }

  lemma UpdateBalance(s: State, v: Address, u: Address)
    requires Ok(s)
    ensures UpdateCost(Update(s, v), u, v) == UpdateCost(s, u, v)
  {
    hide Earned, RewardPerToken;
  }

  lemma NotifyBehind(s: State, reward: nat, u: Address, share: real)
    requires Ok(s)
    ensures Ok(Notify(s, reward))
    ensures Behind(s, u, share) <= Behind(Notify(s, reward), u, share) <=
            Behind(s, u, share) + Get(s.balance, u) as real
  {
    hide Due, Behind, RewardPerToken, Leftover;
    IndexBehind(s, u, share);
    NotifyKeepsOk(s, reward);
    DueFrame(Index(s), Notify(s, reward), u);
    SettledBehind(Index(s), Notify(s, reward), u, share);
  }

  lemma QueuedBehind(s: State, t: State, u: Address, share: real)
    requires Ok(s) && t == s.(queued := t.queued)
    ensures Ok(t) && Behind(s, u, share) == Behind(t, u, share)
  {
  }

  lemma QueueBehind(s: State, amount: nat, u: Address, share: real, t: State)
    requires Ok(s) && Queue(s, amount) == Some(t)
    ensures Ok(t) && Behind(s, u, share) <= Behind(t, u, share) <= Behind(s, u, share) + Get(s.balance, u) as real
  {
    hide Behind, Notify;
    var r := Notify(s, amount + s.queued);
    NotifyBehind(s, amount + s.queued, u, share);
    if t.queued == 0 && t == r.(queued := 0) {
      QueuedBehind(r, t, u, share);
    } else {
      QueuedBehind(s, t, u, share);
    }
  }

  lemma WaitBehind(s: State, dt: nat, u: Address, share: real)
    requires Ok(s)
    ensures Ok(s.(now := s.now + dt))
    ensures Behind(s.(now := s.now + dt), u, share + Seconds(s, u, dt)) == Behind(s, u, share)
  {
    hide Pending;
    SecondsStream(s, u, dt);
    DueFrame(s, s.(now := s.now + dt), u);
  }

  /** The exact split advances with time only. */
  ghost function Shared(s: State, a: Action, u: Address): real {
    if a.Wait? then Seconds(s, u, a.dt) else 0.0
  }

  lemma CallBehind(s: State, a: Action, u: Address, share: real, t: State)
    requires Ok(s) && Ok(t) && Call(s, a) == Some(t)
    ensures
      var share' := share + Shared(s, a, u);
      Behind(s, u, share) <= Behind(t, u, share') <= Behind(s, u, share) + Cost(s, a, u) as real
  {
    hide Stake, Withdraw, GetReward, Queue, Behind, Seconds;
    match a
    case Wait(dt) => WaitBehind(s, dt, u, share);
    case StakeFor(user, amount) => StakeBehind(s, user, amount, u, share, t);
    case WithdrawFor(user, amount, claim, unwrap) => WithdrawBehind(s, user, amount, claim, unwrap, u, share, t);
    case Claim(user) => GetRewardBehind(s, user, u, share);
    case Give(amount) => QueuedBehind(s, t, u, share);
    case QueueRewards(amount) => QueueBehind(s, amount, u, share, t);
  }

  // ---------------------------------------------------------------- histories

  /** A pool, what it received, and the exact share of one account with the rounding allowed so far. */
  datatype Watched = Watched(pool: State, received: nat, share: real, lag: nat)

  ghost predicate Good(w: Watched, u: Address) {
    && Ok(w.pool) && Solvent(w.pool)
    && w.pool.historical + w.pool.queued == w.received
    && 0.0 <= Behind(w.pool, u, w.share) <= w.lag as real
  }

  ghost function Watch(w: Watched, u: Address, a: Action): Watched
    requires Ok(w.pool)
  {
    match Call(w.pool, a)
    case None => w
    case Some(t) => Watched(t, w.received + Received(a), w.share + Shared(w.pool, a, u), w.lag + Cost(w.pool, a, u))
  }

  lemma WatchKeepsGood(w: Watched, u: Address, a: Action)
    requires Good(w, u)
    ensures Good(Watch(w, u, a), u)
  {
    hide Behind, Solvent, Call;
    match Call(w.pool, a)
    case None =>
    case Some(t) =>
      CallKeepsSolvent(w.pool, a, t);
      CallKeepsReceived(w.pool, a, t);
      CallBehind(w.pool, a, u, w.share, t);
  }

  lemma NewPoolWatched(u: Address)
    ensures Good(Watched(NEW_POOL, 0, 0.0, 0), u)
  {
    NewPoolGood();
  }

  /** A new pool after a history of calls, those that revert included. */
  ghost function Run(u: Address, actions: seq<Action>): (w: Watched)
    ensures Good(w, u)
  {
    if actions == [] then
      NewPoolWatched(u);
      Watched(NEW_POOL, 0, 0.0, 0)
    else
      var before := Run(u, actions[..|actions| - 1]);
      WatchKeepsGood(before, u, actions[|actions| - 1]);
      Watch(before, u, actions[|actions| - 1])
  }

  /**
   * After any history: what an account was sent and can claim never exceeds its exact per-second share, and trails it
   * by less than the rounding allowed: one unit for each of its own updates and a 10^18th of its stake for each index
   * step.
   */
  lemma RunRefinesSharing(u: Address, actions: seq<Action>)
    ensures
      var w := Run(u, actions);
      && Granted(w.pool, u) as real <= w.share
      && WAD as real * w.share < (WAD * (Granted(w.pool, u) + 1) + Get(w.pool.balance, u) + w.lag) as real
  {
    hide Due, Granted, Run, RewardPerToken;
    var w := Run(u, actions);
    GrantedWithinDue(w.pool, u);
    IndexBehind(w.pool, u, w.share);
    IndexKeepsOk(w.pool);
    NothingPending(Index(w.pool), u);
  }

  /** After any history: everything sent, claimable, to be streamed and queued adds up to no more than was received. */
  lemma RunNeverOverpays(u: Address, actions: seq<Action>)
    ensures
      var w := Run(u, actions);
      Sum(AllGranted(w.pool)) + (w.pool.finish - Applicable(w.pool)) * w.pool.rate + w.pool.queued <= w.received
  {
    hide Run, AllGranted;
    NeverOverpays(Run(u, actions).pool);
  }
}
