/** The Convex reward pool: a global index that pays stakers, its solvency, and its refinement of per-second sharing. */
module RewardPool {
  import opened Numbers
  import opened Ledger

  const DURATION: nat := 7 * 86_400
  const NEW_REWARD_RATIO: nat := 830

  type Amounts = map<Address, nat>

  /** The pool at time `now`; `sent` is what the reward token recorded as sent to each account. */
  datatype State = State(finish: nat, rate: nat, last: nat, stored: nat, queued: nat, current: nat, historical: nat,
                         supply: nat,
                         paid: Amounts, rewards: Amounts, balance: Amounts, sent: Amounts, now: nat)

  const NEW_POOL := State(0, 0, 0, 0, 0, 0, 0, 0, map[], map[], map[], map[], 0)

  /** The clock runs past the last update, no account is ahead of the index, and balances add up. */
  ghost predicate Ok(s: State) {
    && s.last <= Min(s.now, s.finish)
    && (s.finish == 0 || DURATION <= s.finish <= s.now + DURATION)
    && Sum(s.balance) == s.supply
    && forall u :: Get(s.paid, u) <= s.stored
  }

  // ---------------------------------------------------------------- views

  /** `lastTimeRewardApplicable`. */
  function Applicable(s: State): nat {
    Min(s.now, s.finish)
  }

  /** What is streamed between the last update and now. */
  function Streamed(s: State): nat
    requires s.last <= Applicable(s)
  {
    Product3(Applicable(s) - s.last, s.rate, 1);
    (Applicable(s) - s.last) * s.rate
  }

  /** `rewardPerToken`. */
  function RewardPerToken(s: State): (r: nat)
    requires s.last <= Applicable(s)
    ensures s.stored <= r
  {
    if s.supply == 0 then s.stored else s.stored + Div(Streamed(s) * WAD, s.supply)
  }

  /** `earned`. */
  function Earned(s: State, u: Address): nat
    requires s.last <= Applicable(s) && Get(s.paid, u) <= s.stored
  {
    Product3(Get(s.balance, u), RewardPerToken(s) - Get(s.paid, u), 1);
    Div(Get(s.balance, u) * (RewardPerToken(s) - Get(s.paid, u)), WAD) + Get(s.rewards, u)
  }

  // ---------------------------------------------------------------- operations

  /** `updateReward(address(0))`. */
  function Index(s: State): State
    requires s.last <= Applicable(s)
  {
    s.(stored := RewardPerToken(s), last := Applicable(s))
  }

  /** The rest of `updateReward(account)`, on a pool whose index is up to date. */
  function Credit(s: State, u: Address): State
    requires s.last <= Applicable(s) && Get(s.paid, u) <= s.stored
  {
    s.(rewards := s.rewards[u := Earned(s, u)], paid := s.paid[u := s.stored])
  }

  /** `updateReward`. */
  function Update(s: State, u: Address): State
    requires Ok(s)
  {
    Credit(Index(s), u)
  }

  /** `stake` and `stakeFor`. */
  function Stake(s: State, u: Address, amount: nat): Option<State>
    requires Ok(s)
  {
    if amount == 0 then None else
      var t := Update(s, u);
      Some(t.(supply := t.supply + amount, balance := t.balance[u := Get(t.balance, u) + amount]))
  }

  /** What `getReward` sends after its update. */
  function Send(s: State, u: Address): State
    requires s.last <= Applicable(s) && Get(s.paid, u) <= s.stored
  {
    var reward := Earned(s, u);
    if reward == 0 then s else s.(rewards := s.rewards[u := 0], sent := s.sent[u := Get(s.sent, u) + reward])
  }

  /** `getReward`. */
  function GetReward(s: State, u: Address): State
    requires Ok(s)
  {
    UpdateKeepsOk(s, u);
    Send(Update(s, u), u)
  }

  function Unstake(s: State, u: Address, amount: nat): Option<State> {
    if amount > s.supply || amount > Get(s.balance, u) then None else
      Some(s.(supply := s.supply - amount, balance := s.balance[u := Get(s.balance, u) - amount]))
  }

  /** `withdraw` and `withdrawAndUnwrap`; only the former refuses to withdraw nothing. */
  function Withdraw(s: State, u: Address, amount: nat, claim: bool, unwrap: bool): Option<State>
    requires Ok(s)
  {
    if amount == 0 && !unwrap then None else
      UpdateKeepsOk(s, u);
      match Unstake(Update(s, u), u, amount)
      case None => None
      case Some(t) =>
        UnstakeKeepsOk(Update(s, u), u, amount);
        Some(if claim then GetReward(t, u) else t)
  }

  /** `donate`. */
  function Donate(s: State, amount: nat): State {
    s.(queued := s.queued + amount)
  }

  /** `notifyRewardAmount`. */
  function Notify(s: State, reward: nat): State
    requires s.last <= Applicable(s)
  {
    var t := Index(s);
    var leftover: nat := if t.now >= t.finish then 0 else Leftover(t);
    t.(historical := t.historical + reward, rate := Div(reward + leftover, DURATION), current := reward + leftover,
       last := t.now, finish := t.now + DURATION)
  }

  function Leftover(s: State): nat
    requires s.now < s.finish
  {
    Product3(s.finish - s.now, s.rate, 1);
    (s.finish - s.now) * s.rate
  }

  /** `queueNewRewards`: new rewards wait while less than 83 percent of them would already have been streamed. */
  function Queue(s: State, amount: nat): Option<State>
    requires Ok(s)
  {
    var rewards := amount + s.queued;
    if s.now >= s.finish then Some(Notify(s, rewards).(queued := 0))
    else
      var elapsed: nat := s.now - (s.finish - DURATION);
      Product3(s.rate, elapsed, 1000);
      var currentAtNow: nat := s.rate * elapsed;
      if rewards == 0 then None
      else if Div(currentAtNow * 1000, rewards) < NEW_REWARD_RATIO then Some(Notify(s, rewards).(queued := 0))
      else Some(s.(queued := rewards))
  }

  // -------------------------------------------------------------- the invariant of clock, index and balances

  lemma IndexKeepsOk(s: State)
    requires Ok(s)
    ensures Ok(Index(s)) && RewardPerToken(Index(s)) == Index(s).stored
  {
    var t := Index(s);
    assert Streamed(t) == 0;
    if t.supply != 0 {
      DivOfNone(t.supply);
    }
  }

  lemma CreditKeepsOk(s: State, u: Address)
    requires Ok(s)
    ensures Ok(Credit(s, u))
  {
    hide Earned;
    forall v ensures Get(Credit(s, u).paid, v) <= s.stored {
      assert Get(s.paid, v) <= s.stored;
    }
  }

  lemma UpdateKeepsOk(s: State, u: Address)
    requires Ok(s)
    ensures Ok(Update(s, u)) && Applicable(Update(s, u)) == Applicable(s) == Update(s, u).last
    ensures Get(Update(s, u).paid, u) == Update(s, u).stored == RewardPerToken(Update(s, u))
  {
    hide Earned;
    IndexKeepsOk(s);
    CreditKeepsOk(Index(s), u);
    IndexKeepsOk(Update(s, u));
  }

  lemma UnstakeKeepsOk(s: State, u: Address, amount: nat)
    requires Ok(s) && Unstake(s, u, amount).Some?
    ensures Ok(Unstake(s, u, amount).value)
  {
    SumPut(s.balance, u, Get(s.balance, u) - amount);
  }

  /** A staker can always withdraw: the supply covers every balance. */
  lemma SupplyCovers(s: State, u: Address, amount: nat)
    requires Ok(s)
    ensures Unstake(s, u, amount).Some? <==> amount <= Get(s.balance, u)
  {
    SumAtLeast(s.balance, u);
  }

  lemma NotifyKeepsOk(s: State, reward: nat)
    requires Ok(s)
    ensures Ok(Notify(s, reward))
  {
    hide RewardPerToken;
    IndexKeepsOk(s);
  }

  // ---------------------------------------------------------------- solvency

  /** All that an account was ever granted up to the last update, in 18 more decimals: pending, credited and sent. */
  function Due(s: State, u: Address): nat {
    if Get(s.paid, u) > s.stored then 0 else
      Product3(Get(s.balance, u), s.stored - Get(s.paid, u), 1);
      Get(s.balance, u) * (s.stored - Get(s.paid, u)) + WAD * (Get(s.rewards, u) + Get(s.sent, u))
  }

  ghost function Dues(s: State): Amounts {
    map u | u in s.balance.Keys + s.rewards.Keys + s.sent.Keys :: Due(s, u)
  }

  lemma DuesAt(s: State, u: Address)
    requires Ok(s)
    ensures Get(Dues(s), u) == Due(s, u)
  {
    assert Get(s.paid, u) <= s.stored;
  }

  /** Still to be streamed after the last update. */
  function Unstreamed(s: State): nat
    requires s.last <= s.finish
  {
    Product3(s.finish - s.last, s.rate, 1);
    (s.finish - s.last) * s.rate
  }

  /** Everything granted and everything still to be streamed is covered by the rewards that were notified. */
  ghost predicate Solvent(s: State)
    requires s.last <= s.finish
  {
    WAD * Unstreamed(s) + Sum(Dues(s)) <= WAD * s.historical
  }

  lemma NewPoolGood()
    ensures Ok(NEW_POOL) && Solvent(NEW_POOL)
  {
    SumZero(NEW_POOL.balance);
    SumZero(Dues(NEW_POOL));
  }

  /** An index step grants each account its balance times the step. */
  lemma IndexDue(s: State, u: Address)
    requires Ok(s)
    ensures Due(Index(s), u) == Due(s, u) + (RewardPerToken(s) - s.stored) * Get(s.balance, u)
  {
    assert Get(s.paid, u) <= s.stored;
    Distribute(s.stored - Get(s.paid, u), RewardPerToken(s) - s.stored, Get(s.balance, u));
    assert Index(s).stored - Get(s.paid, u) == (s.stored - Get(s.paid, u)) + (RewardPerToken(s) - s.stored);
  }

  /** It grants no more than what was streamed meanwhile. */
  lemma IndexKeepsSolvent(s: State)
    requires Ok(s) && Solvent(s)
    ensures Ok(Index(s)) && Solvent(Index(s))
  {
    IndexKeepsOk(s);
    var t, step := Index(s), RewardPerToken(s) - s.stored;
    forall u ensures LinearAt(Dues(t), Dues(s), s.balance, step, u) {
      IndexDue(s, u);
      DuesAt(s, u);
      DuesAt(t, u);
    }
    hide Dues, Due, RewardPerToken, LinearAt;
    SumLinear(Dues(t), Dues(s), s.balance, step);
    assert step * s.supply <= Streamed(s) * WAD by { IndexStepWithin(s); }
    Distribute(s.finish - s.last, Applicable(s) - s.last, s.rate);
    assert Unstreamed(s) == Unstreamed(t) + Streamed(s);
  }

  lemma IndexStepWithin(s: State)
    requires Ok(s)
    ensures (RewardPerToken(s) - s.stored) * s.supply <= Streamed(s) * WAD
  {
    if s.supply != 0 {
      DivBounds(Streamed(s) * WAD, s.supply);
    }
  }

  /** Crediting an account rounds its pending rewards down, by less than one unit. */
  lemma CreditDue(s: State, u: Address)
    requires Ok(s) && RewardPerToken(s) == s.stored
    ensures Due(s, u) - WAD < Due(Credit(s, u), u) <= Due(s, u)
  {
    assert Get(s.paid, u) <= s.stored;
    DivBounds(Get(s.balance, u) * (s.stored - Get(s.paid, u)), WAD);
  }

  /** Changing one account changes the sum by that account's difference. */
  lemma OneDue(s: State, t: State, u: Address)
    requires Ok(s) && Ok(t) && forall v :: v != u ==> Due(t, v) == Due(s, v)
    ensures Sum(Dues(t)) + Due(s, u) == Sum(Dues(s)) + Due(t, u)
  {
    DuesAt(s, u);
    forall v ensures Get(Dues(t), v) == Get(Dues(s)[u := Due(t, u)], v) {
      DuesAt(s, v);
      DuesAt(t, v);
    }
    SumSame(Dues(t), Dues(s)[u := Due(t, u)]);
    SumPut(Dues(s), u, Due(t, u));
  }

  lemma UpdateKeepsSolvent(s: State, u: Address)
    requires Ok(s) && Solvent(s)
    ensures Ok(Update(s, u)) && Solvent(Update(s, u))
  {
    hide RewardPerToken;
    IndexKeepsSolvent(s);
    IndexKeepsOk(s);
    UpdateKeepsOk(s, u);
    CreditDue(Index(s), u);
    hide Earned, Due, Sum, Dues;
    forall v | v != u ensures Due(Index(s), v) == Due(Update(s, u), v) {
      DueFrame(Index(s), Update(s, u), v);
    }
    OneDue(Index(s), Update(s, u), u);
  }

  lemma DueFrame(s: State, t: State, v: Address)
    requires s.stored == t.stored && Get(s.paid, v) == Get(t.paid, v) && Get(s.rewards, v) == Get(t.rewards, v)
    requires Get(s.sent, v) == Get(t.sent, v)
    requires Get(s.balance, v) == Get(t.balance, v) || Get(s.paid, v) == s.stored
    ensures Due(s, v) == Due(t, v)
  {
  }

  /** Whoever is up to date may change their stake without changing what they are due. */
  lemma MoveStake(s: State, t: State, u: Address, balance: nat)
    requires Ok(s) && Ok(t) && Solvent(s) && Get(s.paid, u) == s.stored
    requires t == s.(supply := t.supply, balance := s.balance[u := balance])
    ensures Solvent(t)
  {
    hide Due, Sum, Dues;
    forall v ensures Due(s, v) == Due(t, v) {
      DueFrame(s, t, v);
    }
    OneDue(s, t, u);
  }

  lemma StakeKeepsSolvent(s: State, u: Address, amount: nat)
    requires Ok(s) && Solvent(s) && amount > 0
    ensures Ok(Stake(s, u, amount).value) && Solvent(Stake(s, u, amount).value)
  {
    hide Update, RewardPerToken, Solvent;
    UpdateKeepsSolvent(s, u);
    UpdateKeepsOk(s, u);
    var t := Update(s, u);
    SumPut(t.balance, u, Get(t.balance, u) + amount);
    MoveStake(t, Stake(s, u, amount).value, u, Get(t.balance, u) + amount);
  }

  lemma UnstakeKeepsSolvent(s: State, u: Address, amount: nat)
    requires Ok(s) && Solvent(s) && Get(s.paid, u) == s.stored && Unstake(s, u, amount).Some?
    ensures Ok(Unstake(s, u, amount).value) && Solvent(Unstake(s, u, amount).value)
  {
    hide Solvent;
    UnstakeKeepsOk(s, u, amount);
    MoveStake(s, Unstake(s, u, amount).value, u, Get(s.balance, u) - amount);
  }

  /** Sending moves an account's credit; it sends exactly that. */
  lemma SendSends(s: State, u: Address)
    requires Ok(s) && Get(s.paid, u) == s.stored == RewardPerToken(s)
    ensures Earned(s, u) == Get(s.rewards, u)
    ensures Ok(Send(s, u)) && Due(Send(s, u), u) == Due(s, u)
    ensures Get(Send(s, u).sent, u) == Get(s.sent, u) + Get(s.rewards, u)
    ensures Get(Send(s, u).rewards, u) == 0 && Send(s, u) == s.(rewards := Send(s, u).rewards, sent := Send(s, u).sent)
    ensures forall v :: v != u ==>
              Get(Send(s, u).rewards, v) == Get(s.rewards, v) && Get(Send(s, u).sent, v) == Get(s.sent, v)
  {
    DivOfNone(WAD);
  }

  lemma SendKeepsSolvent(s: State, u: Address)
    requires Ok(s) && Solvent(s) && Get(s.paid, u) == s.stored == RewardPerToken(s)
    ensures Ok(Send(s, u)) && Solvent(Send(s, u))
  {
    hide RewardPerToken, Earned, Due, Sum, Dues, Send;
    SendSends(s, u);
    forall v | v != u ensures Due(s, v) == Due(Send(s, u), v) {
      DueFrame(s, Send(s, u), v);
    }
    OneDue(s, Send(s, u), u);
  }

  lemma GetRewardKeepsSolvent(s: State, u: Address)
    requires Ok(s) && Solvent(s)
    ensures Ok(GetReward(s, u)) && Solvent(GetReward(s, u))
  {
    hide Update, RewardPerToken, Send, Solvent;
    UpdateKeepsSolvent(s, u);
    UpdateKeepsOk(s, u);
    SendKeepsSolvent(Update(s, u), u);
  }

  lemma WithdrawKeepsSolvent(s: State, u: Address, amount: nat, claim: bool, unwrap: bool, t: State)
    requires Ok(s) && Solvent(s) && Withdraw(s, u, amount, claim, unwrap) == Some(t)
    ensures Ok(t) && Solvent(t)
  {
    hide Update, RewardPerToken, Unstake, GetReward;
    UpdateKeepsSolvent(s, u);
    UpdateKeepsOk(s, u);
    UnstakeKeepsSolvent(Update(s, u), u, amount);
    if claim {
      GetRewardKeepsSolvent(Unstake(Update(s, u), u, amount).value, u);
    }
  }

  /** A new rate streams, over seven days, no more than the new rewards and what was left of the old. */
  lemma NotifyKeepsSolvent(s: State, reward: nat)
    requires Ok(s) && Solvent(s)
    ensures Ok(Notify(s, reward)) && Solvent(Notify(s, reward))
  {
    hide RewardPerToken, Due;
    IndexKeepsSolvent(s);
    NotifyKeepsOk(s, reward);
    var t, r := Index(s), Notify(s, reward);
    DuesSame(t, r);
    var leftover: nat := if t.now >= t.finish then 0 else Leftover(t);
    DivBounds(reward + leftover, DURATION);
    assert Unstreamed(r) <= reward + leftover;
    assert leftover == Unstreamed(t);
  }

  lemma DuesSame(s: State, t: State)
    requires Ok(s) && Ok(t) && s.stored == t.stored && s.paid == t.paid && s.rewards == t.rewards && s.sent == t.sent
    requires s.balance == t.balance
    ensures Dues(s) == Dues(t)
  {
    hide Due, Ok, Sum;
    forall u ensures Due(s, u) == Due(t, u) {
      DueFrame(s, t, u);
    }
  }

  lemma QueueKeepsSolvent(s: State, amount: nat, t: State)
    requires Ok(s) && Solvent(s) && Queue(s, amount) == Some(t)
    ensures Ok(t) && Solvent(t)
  {
    hide Due, Notify;
    var r := Notify(s, amount + s.queued);
    NotifyKeepsSolvent(s, amount + s.queued);
    if t.queued == 0 && t == r.(queued := 0) {
      DuesSame(r, t);
    } else {
      DuesSame(s, t);
    }
  }
}
