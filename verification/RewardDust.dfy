/** What the reward pool received and never pays: the roundings, and what was streamed while nobody had a stake. */
module RewardDust {
  import opened Numbers
  import opened Ledger
  import opened RewardPool
  import opened RewardSharing

  // ---------------------------------------------------------------- single operations

  /**
   * A notification starts a week in which all but dust of the new rewards, and of those still to be streamed, are
   * streamed.
   */
  lemma NotifyMeans(s: State, reward: nat)
    requires Ok(s)
    ensures
      var t, due := Notify(s, reward), reward + Unstreamed(Index(s));
      && Ok(t) && t.finish == s.now + DURATION && t.last == s.now && t.now == s.now
      && due - DURATION < Unstreamed(t) <= due && IsFloor(t.rate, due, DURATION)
      && t.historical == s.historical + reward && t.current == due && t.queued == s.queued
      && t.balance == s.balance && t.supply == s.supply && t.rewards == s.rewards && t.sent == s.sent
  {
    hide RewardPerToken;
    IndexKeepsOk(s);
    NotifyKeepsOk(s, reward);
    DivIsFloor(reward + Unstreamed(Index(s)), DURATION);
  }

  /**
   * Queued rewards start at once after a period, and within one while less than 83 percent of them were already
   * streamed in it; otherwise they wait, all of them together.
   */
  lemma QueueMeans(s: State, amount: nat, t: State)
    requires Ok(s) && Queue(s, amount) == Some(t)
    ensures
      var rewards, elapsed := amount + s.queued, s.now - (s.finish - DURATION);
      if s.now >= s.finish || s.rate * elapsed * 1000 < NEW_REWARD_RATIO * rewards
      then t == Notify(s, rewards).(queued := 0) else t == s.(queued := rewards)
  {
    hide Notify;
    if s.now < s.finish {
      var rewards, elapsed: nat := amount + s.queued, s.now - (s.finish - DURATION);
      Product3(s.rate, elapsed, 1000);
      FloorIsGreatest(s.rate * elapsed * 1000, rewards, NEW_REWARD_RATIO);
    }
  }

  /** A stake, and nobody else's, grows by exactly the amount. */
  lemma StakeMeans(s: State, u: Address, amount: nat)
    requires Ok(s)
    ensures Stake(s, u, amount).Some? <==> amount > 0
    ensures
      amount > 0 ==>
        var t := Stake(s, u, amount).value;
        && t.supply == s.supply + amount && Get(t.balance, u) == Get(s.balance, u) + amount
        && (forall v :: v != u ==> Get(t.balance, v) == Get(s.balance, v))
        && Get(t.rewards, u) == Earned(s, u) && Get(t.paid, u) == t.stored == RewardPerToken(s)
        && t.last == Applicable(s)
        && (forall v :: v != u ==> Get(t.rewards, v) == Get(s.rewards, v) && Get(t.paid, v) == Get(s.paid, v))
        && t.sent == s.sent && t.historical == s.historical && t.queued == s.queued
        && t.rate == s.rate && t.finish == s.finish
  {
    UpdateMeans(s, u);
  }

  /** `updateReward`: what `earned` shows is credited, at the index of the moment. */
  lemma UpdateMeans(s: State, u: Address)
    requires Ok(s)
    ensures
      var t := Update(s, u);
      && Get(t.rewards, u) == Earned(s, u) && Get(t.paid, u) == t.stored == RewardPerToken(s) && t.last == Applicable(s)
      && (forall v :: v != u ==> Get(t.rewards, v) == Get(s.rewards, v) && Get(t.paid, v) == Get(s.paid, v))
      && t == s.(stored := t.stored, last := t.last, rewards := t.rewards, paid := t.paid)
  {
    IndexKeepsOk(s);
  }

  /** What a withdrawal moves: exactly the amount of the stake, and when claiming all that was earned. */
  lemma WithdrawMeans(s: State, u: Address, amount: nat, claim: bool, unwrap: bool)
    requires Ok(s)
    ensures Withdraw(s, u, amount, claim, unwrap).Some? <==> (amount > 0 || unwrap) && amount <= Get(s.balance, u)
    ensures
      Withdraw(s, u, amount, claim, unwrap).Some? ==>
        var t := Withdraw(s, u, amount, claim, unwrap).value;
        && t.supply == s.supply - amount && Get(t.balance, u) == Get(s.balance, u) - amount
        && (forall v :: v != u ==> Get(t.balance, v) == Get(s.balance, v) && Get(t.sent, v) == Get(s.sent, v))
        && (if claim then Get(t.rewards, u) == 0 && Get(t.sent, u) == Get(s.sent, u) + Earned(s, u)
            else Get(t.rewards, u) == Earned(s, u) && t.sent == s.sent)
  {
    hide RewardPerToken, Earned, Sum;
    UpdateMeans(s, u);
    UpdateKeepsOk(s, u);
    var r := Update(s, u);
    SupplyCovers(r, u, amount);
    if Unstake(r, u, amount).Some? && claim {
      UnstakeKeepsOk(r, u, amount);
      ClaimUpdated(Unstake(r, u, amount).value, u);
    }
  }

  /** Right after an update a claim sends exactly what is credited. */
  lemma ClaimUpdated(s: State, u: Address)
    requires Ok(s) && s.last == Applicable(s) && Get(s.paid, u) == s.stored
    ensures
      var t := GetReward(s, u);
      && Get(t.rewards, u) == 0 && Get(t.sent, u) == Get(s.sent, u) + Get(s.rewards, u)
      && (forall v :: v != u ==> Get(t.sent, v) == Get(s.sent, v))
      && t.balance == s.balance && t.supply == s.supply
  {
    hide Sum;
    NoStream(s);
    UpdateMeans(s, u);
    UpdateKeepsOk(s, u);
    EarnedUpdated(s, u);
    hide Earned, RewardPerToken, Send, Update;
    SendSends(Update(s, u), u);
  }

  lemma NoStream(s: State)
    requires Ok(s) && s.last == Applicable(s)
    ensures Streamed(s) == 0 && RewardPerToken(s) == s.stored && Index(s) == s
  {
    if s.supply != 0 {
      DivOfNone(s.supply);
    }
  }

  lemma EarnedUpdated(s: State, u: Address)
    requires Ok(s) && RewardPerToken(s) == s.stored && Get(s.paid, u) == s.stored
    ensures Earned(s, u) == Get(s.rewards, u)
  {
    DivOfNone(WAD);
  }

  /** A claim sends exactly what `earned` shows. */
  lemma GetRewardMeans(s: State, u: Address)
    requires Ok(s)
    ensures
      var t := GetReward(s, u);
      && Get(t.rewards, u) == 0 && Get(t.sent, u) == Get(s.sent, u) + Earned(s, u)
      && (forall v :: v != u ==> Get(t.sent, v) == Get(s.sent, v))
      && t.balance == s.balance && t.supply == s.supply
  {
    hide Earned, RewardPerToken, Sum, Send, Update;
    UpdateMeans(s, u);
    UpdateKeepsOk(s, u);
    SendSends(Update(s, u), u);
  }

  // ---------------------------------------------------------------- what is lost

  /** What was notified and is neither granted nor still to be streamed, in 18 more decimals. */
  ghost function Lost(s: State): int
    requires s.last <= s.finish
  {
    WAD * s.historical - WAD * Unstreamed(s) - Sum(Dues(s))
  }

  /**
   * What an index step may lose: all of the stream while nobody has a stake, else less than one unit per unit staked.
   */
  ghost function IndexSpill(s: State): nat
    requires s.last <= Applicable(s)
  {
    if s.supply == 0 then WAD * Streamed(s) else s.supply
  }

  lemma IndexLoses(s: State)
    requires Ok(s)
    ensures Ok(Index(s)) && Lost(s) <= Lost(Index(s)) <= Lost(s) + IndexSpill(s)
    ensures s.last == Applicable(s) ==> Lost(Index(s)) == Lost(s)
  {
    IndexKeepsOk(s);
    var t, step := Index(s), RewardPerToken(s) - s.stored;
    forall u ensures LinearAt(Dues(t), Dues(s), s.balance, step, u) {
      IndexDue(s, u);
      DuesAt(s, u);
      DuesAt(t, u);
    }
    hide Dues, Due, LinearAt;
    SumLinear(Dues(t), Dues(s), s.balance, step);
    if s.supply != 0 {
      StepBounds(s);
    }
    hide RewardPerToken;
    Distribute(s.finish - s.last, Applicable(s) - s.last, s.rate);
    assert Unstreamed(s) == Unstreamed(t) + Streamed(s);
    if s.last == Applicable(s) {
      NoStream(s);
    }
  }

  lemma UpdateLoses(s: State, u: Address)
    requires Ok(s)
    ensures Ok(Update(s, u)) && Lost(Update(s, u)) <= Lost(s) + IndexSpill(s) + WAD
    ensures s.last == Applicable(s) ==> Lost(Update(s, u)) <= Lost(s) + WAD
  {
    hide RewardPerToken;
    IndexLoses(s);
    IndexKeepsOk(s);
    UpdateKeepsOk(s, u);
    CreditDue(Index(s), u);
    hide Earned, Due, Sum, Dues;
    forall v | v != u ensures Due(Index(s), v) == Due(Update(s, u), v) {
      DueFrame(Index(s), Update(s, u), v);
    }
    OneDue(Index(s), Update(s, u), u);
    assert Unstreamed(Update(s, u)) == Unstreamed(Index(s));
  }

  lemma MoveStakeLoses(s: State, t: State, u: Address, balance: nat)
    requires Ok(s) && Ok(t) && Get(s.paid, u) == s.stored
    requires t == s.(supply := t.supply, balance := s.balance[u := balance])
    ensures Lost(t) == Lost(s)
  {
    hide Due, Sum, Dues;
    forall v ensures Due(s, v) == Due(t, v) {
      DueFrame(s, t, v);
    }
    OneDue(s, t, u);
  }

  lemma GetRewardLoses(s: State, u: Address)
    requires Ok(s)
    ensures Ok(GetReward(s, u)) && Lost(GetReward(s, u)) <= Lost(s) + IndexSpill(s) + WAD
    ensures s.last == Applicable(s) ==> Lost(GetReward(s, u)) <= Lost(s) + WAD
  {
    hide Update, RewardPerToken, Send, Due, Sum, Dues, Earned, IndexSpill;
    UpdateLoses(s, u);
    UpdateKeepsOk(s, u);
    var t, r := Update(s, u), GetReward(s, u);
    SendSends(t, u);
    forall v | v != u ensures Due(t, v) == Due(r, v) {
      DueFrame(t, r, v);
    }
    OneDue(t, r, u);
  }

  lemma StakeLoses(s: State, u: Address, amount: nat, t: State)
    requires Ok(s) && Ok(t) && Stake(s, u, amount) == Some(t)
    ensures Lost(t) <= Lost(s) + IndexSpill(s) + WAD
  {
    hide Update, RewardPerToken, Lost, IndexSpill;
    UpdateLoses(s, u);
    UpdateKeepsOk(s, u);
    MoveStakeLoses(Update(s, u), t, u, Get(t.balance, u));
  }

  lemma WithdrawLoses(s: State, u: Address, amount: nat, claim: bool, unwrap: bool, t: State)
    requires Ok(s) && Withdraw(s, u, amount, claim, unwrap) == Some(t)
    ensures Ok(t) && Lost(t) <= Lost(s) + IndexSpill(s) + WAD + if claim then WAD else 0
  {
    hide Update, RewardPerToken, GetReward, Lost, IndexSpill;
    UpdateLoses(s, u);
    UpdateKeepsOk(s, u);
    UnstakeKeepsOk(Update(s, u), u, amount);
    var r := Unstake(Update(s, u), u, amount).value;
    MoveStakeLoses(Update(s, u), r, u, Get(r.balance, u));
    if claim {
      GetRewardLoses(r, u);
    }
  }

  lemma NotifyLoses(s: State, reward: nat)
    requires Ok(s)
    ensures Ok(Notify(s, reward)) && Lost(Notify(s, reward)) < Lost(s) + IndexSpill(s) + WAD * DURATION
  {
    hide RewardPerToken, Due, IndexSpill, Sum, Unstreamed;
    IndexLoses(s);
    NotifyMeans(s, reward);
    hide Notify, Index;
    DuesAfterNotify(s, reward);
  }

  lemma DuesAfterNotify(s: State, reward: nat)
    requires Ok(s)
    ensures Ok(Index(s)) && Ok(Notify(s, reward)) && Dues(Notify(s, reward)) == Dues(Index(s))
    ensures Index(s).historical == s.historical
  {
    hide RewardPerToken, Due, Leftover, Sum;
    IndexKeepsOk(s);
    NotifyKeepsOk(s, reward);
    DuesSame(Index(s), Notify(s, reward));
  }

  /** What one call may lose. */
  ghost function Spill(s: State, a: Action): nat
    requires Ok(s)
  {
    match a
    case StakeFor(_, _) => IndexSpill(s) + WAD
    case WithdrawFor(_, _, claim, _) => IndexSpill(s) + WAD + if claim then WAD else 0
    case Claim(_) => IndexSpill(s) + WAD
    case QueueRewards(_) => IndexSpill(s) + WAD * DURATION
    case _ => 0
  }

  /** Neither queueing without a notification nor a donation nor time loses anything. */
  lemma NothingLost(s: State, t: State)
    requires Ok(s) && Ok(t) && t == s.(queued := t.queued, now := t.now)
    ensures Lost(t) == Lost(s)
  {
    hide Due, Sum, Dues;
    DuesSame(s, t);
  }

  lemma CallLoses(s: State, a: Action, t: State)
    requires Ok(s) && Ok(t) && Call(s, a) == Some(t)
    ensures Lost(t) <= Lost(s) + Spill(s, a)
  {
    hide Stake, Withdraw, GetReward, Queue, Lost, IndexSpill;
    match a
    case Wait(dt) => NothingLost(s, t);
    case StakeFor(user, amount) => StakeLoses(s, user, amount, t);
    case WithdrawFor(user, amount, claim, unwrap) => WithdrawLoses(s, user, amount, claim, unwrap, t);
    case Claim(user) => GetRewardLoses(s, user);
    case Give(amount) => NothingLost(s, t);
    case QueueRewards(amount) => QueueLoses(s, amount, t);
  }

  lemma QueueLoses(s: State, amount: nat, t: State)
    requires Ok(s) && Ok(t) && Queue(s, amount) == Some(t)
    ensures Lost(t) <= Lost(s) + IndexSpill(s) + WAD * DURATION
  {
    hide Lost, IndexSpill, Notify, Queue;
    QueueMeans(s, amount, t);
    var r := Notify(s, amount + s.queued);
    NotifyLoses(s, amount + s.queued);
    if t == r.(queued := 0) {
      NothingLost(r, t);
    } else {
      NothingLost(s, t);
    }
  }

  // ---------------------------------------------------------------- histories

  /** What a history may have lost. */
  ghost function Spilled(u: Address, actions: seq<Action>): nat {
    if actions == [] then 0 else
      var before, a := actions[..|actions| - 1], actions[|actions| - 1];
      var s := Run(u, before).pool;
      Spilled(u, before) + if Call(s, a).Some? then Spill(s, a) else 0
  }

  lemma {:induction false} RunLoses(u: Address, actions: seq<Action>)
    ensures Lost(Run(u, actions).pool) <= Spilled(u, actions)
  {
    hide Lost, Spill, Call, Good;
    if actions == [] {
      NewPoolLost();
    } else {
      var before, a := actions[..|actions| - 1], actions[|actions| - 1];
      RunLoses(u, before);
      var s := Run(u, before).pool;
      RunOk(u, before);
      if Call(s, a).Some? {
        RunOk(u, actions);
        CallLoses(s, a, Call(s, a).value);
      }
    }
  }

  lemma RunOk(u: Address, actions: seq<Action>)
    ensures Ok(Run(u, actions).pool)
    ensures Run(u, actions).pool.historical + Run(u, actions).pool.queued == Run(u, actions).received
  {
    hide Run;
  }

  lemma NewPoolLost()
    ensures Ok(NEW_POOL) && Lost(NEW_POOL) == 0
  {
    NewPoolGood();
    SumZero(Dues(NEW_POOL));
  }

  /** Accounts that were ever staked, credited or paid. */
  ghost function Accounts(s: State): set<Address> {
    s.balance.Keys + s.rewards.Keys + s.sent.Keys
  }

  /** What an account is due falls short of what it was granted and one unit. */
  ghost function GrantedAndOne(s: State): Amounts
    requires Ok(s)
  {
    map u | u in s.balance.Keys + s.rewards.Keys + s.sent.Keys :: Granted(s, u) + 1
  }

  lemma PlusOnes(s: State)
    requires Ok(s)
    ensures Sum(GrantedAndOne(s)) == Sum(AllGranted(s)) + |Accounts(s)|
  {
    hide Granted, Sum;
    var ones := map u | u in Accounts(s) :: 1;
    SumOnes(ones);
    assert ones.Keys == Accounts(s);
    forall u ensures LinearAt(GrantedAndOne(s), AllGranted(s), ones, 1, u) {
    }
    SumLinear(GrantedAndOne(s), AllGranted(s), ones, 1);
  }

  /** A mapping that is bounded, entry by entry, by d times another is bounded so in sum. */
  lemma SumWithin(m: Amounts, a: Amounts, d: nat)
    requires forall u :: Get(m, u) <= d * Get(a, u)
    ensures Sum(m) <= d * Sum(a)
  {
    hide Sum;
    var scaled := map u | u in a :: Scale(d, a[u]);
    forall u ensures LinearAt(scaled, map[], a, d, u) && Get(m, u) <= Get(scaled, u) {
    }
    SumLinear(scaled, map[], a, d);
    SumZero<Address>(map[]);
    SumMono(m, scaled);
  }

  function Scale(d: nat, k: nat): nat {
    MulMono(0, d, k);
    d * k
  }

  lemma DuesWithinGranted(s: State)
    requires Ok(s)
    ensures Ok(Index(s)) && Sum(Dues(Index(s))) <= WAD * (Sum(AllGranted(s)) + |Accounts(s)|)
  {
    IndexKeepsOk(s);
    PlusOnes(s);
    forall u ensures Get(Dues(Index(s)), u) <= WAD * Get(GrantedAndOne(s), u) {
      hide Due, Granted, RewardPerToken;
      GrantedWithinDue(s, u);
      DuesAt(Index(s), u);
    }
    SumWithin(Dues(Index(s)), GrantedAndOne(s), WAD);
  }

  lemma {:induction false} SumOnes(m: Amounts)
    requires forall u :: u in m ==> m[u] == 1
    ensures Sum(m) == |m|
    decreases |m|
  {
    if u :| u in m {
      RemoveSmaller(m, u);
      SumPick(m, u);
      SumOnes(m - {u});
    }
  }

  /**
   * After any history, what was received is what was sent, what can be claimed, what is still to be streamed and what
   * is queued, short of: one unit per account, the dust of notifications and of index steps and updates, and what was
   * streamed while nobody had a stake.
   */
  lemma RunPaysAllButDust(u: Address, actions: seq<Action>)
    ensures
      var w := Run(u, actions);
      var s := w.pool;
      WAD * w.received <= WAD * (Sum(AllGranted(s)) + |Accounts(s)| + (s.finish - Applicable(s)) * s.rate + s.queued)
                          + Spilled(u, actions) + IndexSpill(s)
  {
    var s := Run(u, actions).pool;
    RunOk(u, actions);
    RunLoses(u, actions);
    hide Run, Sum, AllGranted, IndexSpill, Spilled, RewardPerToken, Accounts, Dues;
    IndexLoses(s);
    DuesWithinGranted(s);
    assert Unstreamed(Index(s)) == (s.finish - Applicable(s)) * s.rate;
  }
}
