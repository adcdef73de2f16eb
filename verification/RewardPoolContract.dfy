/** The reward pool as a contract with its storage. `ok == false` is a revert, whose writes the EVM discards. */
module RewardPoolContract {
  import opened Numbers
  import opened Ledger
  import opened RewardPool

  class BaseRewardPool {
    var periodFinish: nat
    var rewardRate: nat
    var lastUpdateTime: nat
    var rewardPerTokenStored: nat
    var queuedRewards: nat
    var currentRewards: nat
    var historicalRewards: nat
    var supply: nat
    var userRewardPerTokenPaid: Amounts
    var rewards: Amounts
    var balances: Amounts
    var sent: Amounts // what the reward token recorded as sent

    constructor ()
      ensures Pool(0) == NEW_POOL
    {
      periodFinish, rewardRate, lastUpdateTime, rewardPerTokenStored := 0, 0, 0, 0;
      queuedRewards, currentRewards, historicalRewards, supply := 0, 0, 0, 0;
      userRewardPerTokenPaid, rewards, balances, sent := map[], map[], map[], map[];
    }

    ghost function Pool(now: nat): State
      reads this
    {
      State(periodFinish, rewardRate, lastUpdateTime, rewardPerTokenStored, queuedRewards,
            currentRewards, historicalRewards,
            supply, userRewardPerTokenPaid, rewards, balances, sent, now)
    }

    /** `rewardPerToken`. */
    method RewardPerToken(now: nat) returns (r: nat)
      requires lastUpdateTime <= Applicable(Pool(now))
      ensures r == RewardPool.RewardPerToken(Pool(now))
    {
      r := rewardPerTokenStored;
      if supply != 0 {
        var elapsed: nat := Min(now, periodFinish) - lastUpdateTime;
        Product3(elapsed, rewardRate, WAD);
        r := r + Div(elapsed * rewardRate * WAD, supply);
      }
    }

    /** `earned`. */
    method Earned(account: Address, now: nat) returns (r: nat)
      requires Ok(Pool(now))
      ensures r == RewardPool.Earned(Pool(now), account)
    {
      var perToken := RewardPerToken(now);
      assert Get(userRewardPerTokenPaid, account) <= rewardPerTokenStored;
      Product3(Get(balances, account), perToken - Get(userRewardPerTokenPaid, account), 1);
      r := Div(Get(balances, account) * (perToken - Get(userRewardPerTokenPaid, account)), WAD) + Get(rewards, account);
    }

    /** `updateReward(address(0))`. */
    method UpdateIndex(now: nat)
      requires Ok(Pool(now))
      modifies this`rewardPerTokenStored, this`lastUpdateTime
      ensures Pool(now) == Index(old(Pool(now)))
    {
      hide RewardPool.RewardPerToken;
      rewardPerTokenStored := RewardPerToken(now);
      lastUpdateTime := Min(now, periodFinish);
    }

    /** The modifier `updateReward`. */
    method UpdateReward(account: Address, now: nat)
      requires Ok(Pool(now))
      modifies this`rewardPerTokenStored, this`lastUpdateTime, this`rewards, this`userRewardPerTokenPaid
      ensures Pool(now) == Update(old(Pool(now)), account)
    {
      hide RewardPool.RewardPerToken, RewardPool.Earned, Ok;
      IndexKeepsOk(Pool(now));
      UpdateIndex(now);
      var earned := Earned(account, now);
      rewards := rewards[account := earned];
      userRewardPerTokenPaid := userRewardPerTokenPaid[account := rewardPerTokenStored];
    }

    /** `stake` and `stakeFor`. */
    method Stake(account: Address, amount: nat, now: nat) returns (ok: bool)
      requires Ok(Pool(now))
      modifies this`rewardPerTokenStored, this`lastUpdateTime, this`rewards, this`userRewardPerTokenPaid, this`supply
      modifies this`balances
      ensures
        var r := RewardPool.Stake(old(Pool(now)), account, amount);
        ok == r.Some? && (ok ==> Pool(now) == r.value)
    {
      hide Update, Ok;
      if amount == 0 {
        return false;
      }
      UpdateReward(account, now);
      supply := supply + amount;
      balances := balances[account := Get(balances, account) + amount];
      return true;
    }

    /** `getReward`. */
    method GetReward(account: Address, now: nat)
      requires Ok(Pool(now))
      modifies this`rewardPerTokenStored, this`lastUpdateTime, this`rewards, this`userRewardPerTokenPaid, this`sent
      ensures Pool(now) == RewardPool.GetReward(old(Pool(now)), account)
    {
      hide Update, RewardPool.Earned, Ok;
      UpdateKeepsOk(Pool(now), account);
      UpdateReward(account, now);
      var reward := Earned(account, now);
      if reward > 0 {
        rewards := rewards[account := 0];
        sent := sent[account := Get(sent, account) + reward];
      }
    }

    /** `withdraw` and `withdrawAndUnwrap`. */
    method Withdraw(account: Address, amount: nat, claim: bool, unwrap: bool, now: nat) returns (ok: bool)
      requires Ok(Pool(now))
      modifies this`rewardPerTokenStored, this`lastUpdateTime, this`rewards, this`userRewardPerTokenPaid, this`sent
      modifies this`supply, this`balances
      ensures
        var r := RewardPool.Withdraw(old(Pool(now)), account, amount, claim, unwrap);
        ok == r.Some? && (ok ==> Pool(now) == r.value)
    {
      hide Update, RewardPool.GetReward, Ok;
      if amount == 0 && !unwrap {
        return false;
      }
      UpdateKeepsOk(Pool(now), account);
      UpdateReward(account, now);
      if amount > supply || amount > Get(balances, account) {
        return false;
      }
      UnstakeKeepsOk(Pool(now), account, amount);
      supply := supply - amount;
      balances := balances[account := Get(balances, account) - amount];
      if claim {
        GetReward(account, now);
      }
      return true;
    }

    /** `donate`. */
    method Donate(amount: nat, now: nat)
      modifies this`queuedRewards
      ensures Pool(now) == RewardPool.Donate(old(Pool(now)), amount)
    {
      queuedRewards := queuedRewards + amount;
    }

    /** `notifyRewardAmount`. */
    method NotifyRewardAmount(amount: nat, now: nat)
      requires Ok(Pool(now))
      modifies this`rewardPerTokenStored, this`lastUpdateTime, this`historicalRewards, this`rewardRate
      modifies this`currentRewards, this`periodFinish
      ensures Pool(now) == Notify(old(Pool(now)), amount)
    {
      hide RewardPool.RewardPerToken, Ok, Div;
      UpdateIndex(now);
      historicalRewards := historicalRewards + amount;
      var reward := amount;
      if now >= periodFinish {
        rewardRate := Div(reward, DURATION);
      } else {
        var remaining: nat := periodFinish - now;
        Product3(remaining, rewardRate, 1);
        reward := reward + remaining * rewardRate;
        rewardRate := Div(reward, DURATION);
      }
      currentRewards := reward;
      lastUpdateTime := now;
      periodFinish := now + DURATION;
    }

    /** `queueNewRewards`. */
    method QueueNewRewards(amount: nat, now: nat) returns (ok: bool)
      requires Ok(Pool(now))
      modifies this`rewardPerTokenStored, this`lastUpdateTime, this`historicalRewards, this`rewardRate
      modifies this`currentRewards, this`periodFinish, this`queuedRewards
      ensures
        var r := Queue(old(Pool(now)), amount);
        ok == r.Some? && (ok ==> Pool(now) == r.value)
    {
      assert now < periodFinish ==> 0 <= now - (periodFinish - DURATION);
      hide Notify, Ok;
      var total := amount + queuedRewards;
      if now >= periodFinish {
        NotifyRewardAmount(total, now);
        queuedRewards := 0;
        return true;
      }
      var elapsed: nat := now - (periodFinish - DURATION);
      Product3(rewardRate, elapsed, 1000);
      var currentAtNow: nat := rewardRate * elapsed;
      if total == 0 {
        return false;
      }
      if Div(currentAtNow * 1000, total) < NEW_REWARD_RATIO {
        NotifyRewardAmount(total, now);
        queuedRewards := 0;
      } else {
        queuedRewards := total;
      }
      return true;
    }
  }
}
