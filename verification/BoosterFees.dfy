/** The Convex booster: its fees, and how it splits the CRV it earned over the reward pools that it feeds. */
module BoosterFees {
  import opened Numbers
  import opened RewardPool
  import opened RewardPoolContract

  const MAX_FEES: nat := 2000
  const FEE_DENOMINATOR: nat := 10_000

  datatype Fees = Fees(lock: nat, staker: nat, caller: nat, platform: nat) {
    function Total(): nat {
      lock + staker + caller + platform
    }

    predicate InRange() {
      1000 <= lock <= 1500 && 300 <= staker <= 600 && 10 <= caller <= 100 && platform <= 200
    }
  }

  const FIRST_FEES := Fees(1000, 450, 50, 0)

  /** `setFees`: too much in total reverts, values out of range are ignored. */
  function ProposeFees(f: Fees, g: Fees): Option<Fees> {
    if g.Total() > MAX_FEES then None else Some(if g.InRange() then g else f)
  }

  function AfterProposals(f: Fees, calls: seq<Fees>): Fees {
    if calls == [] then f else
      var before := AfterProposals(f, calls[..|calls| - 1]);
      match ProposeFees(before, calls[|calls| - 1])
      case None => before
      case Some(g) => g
  }

  /** A proposal reverts over a fifth of the rewards in all; else it is taken as a whole or not at all. */
  lemma ProposalMeans(f: Fees, g: Fees)
    ensures ProposeFees(f, g).None? <==> g.lock + g.staker + g.caller + g.platform > 2000
    ensures
      ProposeFees(f, g).Some? ==>
        ProposeFees(f, g).value ==
          if 1000 <= g.lock <= 1500 && 300 <= g.staker <= 600 && 10 <= g.caller <= 100 && g.platform <= 200 then g
          else f
  {
  }

  /** Whatever is proposed, every fee stays in its range and all together within a fifth of the rewards. */
  lemma {:induction false} FeesStayCapped(calls: seq<Fees>)
    ensures
      var f := AfterProposals(FIRST_FEES, calls);
      && 1000 <= f.lock <= 1500 && 300 <= f.staker <= 600 && 10 <= f.caller <= 100 && f.platform <= 200
      && 10 * f.Total() <= 2 * FEE_DENOMINATOR
    ensures AfterProposals(FIRST_FEES, calls).InRange() && AfterProposals(FIRST_FEES, calls).Total() <= MAX_FEES
  {
    if calls != [] {
      FeesStayCapped(calls[..|calls| - 1]);
    }
  }

  /** Where one balance of CRV goes. */
  datatype Cut = Cut(platform: nat, caller: nat, pool: nat, lock: nat, staker: nat)

  function Part(balance: nat, fee: nat): nat {
    Product3(balance, fee, 1);
    Div(balance * fee, FEE_DENOMINATOR)
  }

  /** The arithmetic of `_earmarkRewards`; None where a subtraction would underflow. */
  function CutOf(balance: nat, f: Fees, treasury: bool): Option<Cut> {
    var lock, staker, caller := Part(balance, f.lock), Part(balance, f.staker), Part(balance, f.caller);
    var platform := if treasury && f.platform > 0 then Part(balance, f.platform) else 0;
    if platform + lock + caller + staker > balance then None
    else Some(Cut(platform, caller, balance - platform - lock - caller - staker, lock, staker))
  }

  /** Each part is its fee's share of the balance, rounded down. */
  lemma PartIsFloor(balance: nat, fee: nat, q: nat)
    ensures q <= Part(balance, fee) <==> q * FEE_DENOMINATOR <= balance * fee
  {
    Product3(balance, fee, 1);
    FloorIsGreatest(balance * fee, FEE_DENOMINATOR, q);
  }

  /**
   * Within the cap nothing underflows, every unit of the balance goes somewhere, and the depositors get at least four
   * fifths.
   */
  lemma CutIsExact(balance: nat, f: Fees, treasury: bool)
    requires f.Total() <= MAX_FEES
    ensures CutOf(balance, f, treasury).Some?
    ensures
      var c := CutOf(balance, f, treasury).value;
      && c.platform + c.caller + c.pool + c.lock + c.staker == balance
      && 5 * c.pool >= 4 * balance
  {
    PartIsFloor(balance, f.lock, Part(balance, f.lock));
    PartIsFloor(balance, f.staker, Part(balance, f.staker));
    PartIsFloor(balance, f.caller, Part(balance, f.caller));
    PartIsFloor(balance, f.platform, Part(balance, f.platform));
    hide Part;
    FourParts(balance, f);
    MulMono(f.Total(), MAX_FEES, balance);
  }

  /**
   * Each part is its own fee's share of the balance, rounded down; the treasury's only if there is one; the depositors
   * get the rest.
   */
  lemma CutMeans(balance: nat, f: Fees, treasury: bool)
    requires CutOf(balance, f, treasury).Some?
    ensures
      var c := CutOf(balance, f, treasury).value;
      && IsFloor(c.lock, balance * f.lock, FEE_DENOMINATOR) && IsFloor(c.staker, balance * f.staker, FEE_DENOMINATOR)
      && IsFloor(c.caller, balance * f.caller, FEE_DENOMINATOR)
      && (if treasury then IsFloor(c.platform, balance * f.platform, FEE_DENOMINATOR) else c.platform == 0)
      && c.pool == balance - c.lock - c.staker - c.caller - c.platform
  {
    DivIsFloor(balance * f.lock, FEE_DENOMINATOR);
    DivIsFloor(balance * f.staker, FEE_DENOMINATOR);
    DivIsFloor(balance * f.caller, FEE_DENOMINATOR);
    DivIsFloor(balance * f.platform, FEE_DENOMINATOR);
  }

  lemma FourParts(balance: nat, f: Fees)
    ensures balance * f.lock + balance * f.staker + balance * f.caller + balance * f.platform == balance * f.Total()
  {
  }

  // ---------------------------------------------------------------- with the pools that are fed

  /** The depositors' pool, the lockers' and the stakers'. */
  datatype Pools = Pools(crv: State, lock: State, staker: State)

  ghost predicate PoolsOk(p: Pools) {
    Ok(p.crv) && Ok(p.lock) && Ok(p.staker)
  }

  /** `_earmarkRewards`: the split, and the queueing of each pool's part. */
  function Earmark(p: Pools, balance: nat, f: Fees, treasury: bool): Option<Pools>
    requires PoolsOk(p)
  {
    if balance == 0 then Some(p) else
      match CutOf(balance, f, treasury)
      case None => None
      case Some(c) =>
        var crv, lock, staker := Queue(p.crv, c.pool), Queue(p.lock, c.lock), Queue(p.staker, c.staker);
        if crv.None? || lock.None? || staker.None? then None else Some(Pools(crv.value, lock.value, staker.value))
  }

  /** Queueing nothing while nothing waits divides by zero within a reward period. */
  predicate Stuck(s: State, amount: nat) {
    s.now < s.finish && amount + s.queued == 0
  }

  lemma QueueReverts(s: State, amount: nat)
    requires Ok(s)
    ensures Queue(s, amount).None? <==> Stuck(s, amount)
    ensures Queue(s, amount).Some? ==>
              Queue(s, amount).value.historical + Queue(s, amount).value.queued ==
              s.historical + s.queued + amount
  {
    hide RewardPool.RewardPerToken;
  }

  /**
   * What the booster found is what the pools, the caller and the treasury receive, to the last unit; and the call
   * reverts exactly when a part too small to count would be queued on a pool in its reward period with nothing waiting.
   */
  lemma EarmarkIsExact(p: Pools, balance: nat, f: Fees, treasury: bool)
    requires PoolsOk(p) && f.Total() <= MAX_FEES && balance > 0 && CutOf(balance, f, treasury).Some?
    ensures
      var c := CutOf(balance, f, treasury).value;
      Earmark(p, balance, f, treasury).None? <==>
      Stuck(p.crv, c.pool) || Stuck(p.lock, c.lock) || Stuck(p.staker, c.staker)
    ensures Earmark(p, balance, f, treasury).Some? ==>
      var c, r := CutOf(balance, f, treasury).value, Earmark(p, balance, f, treasury).value;
      && r.crv.historical + r.crv.queued - p.crv.historical - p.crv.queued
         + r.lock.historical + r.lock.queued - p.lock.historical - p.lock.queued
         + r.staker.historical + r.staker.queued - p.staker.historical - p.staker.queued
         + c.caller + c.platform == balance
  {
    CutIsExact(balance, f, treasury);
    var c := CutOf(balance, f, treasury).value;
    QueueReverts(p.crv, c.pool);
    QueueReverts(p.lock, c.lock);
    QueueReverts(p.staker, c.staker);
    hide Queue, CutOf;
  }

  /** What a pool has received so far. */
  function Received(s: State): nat {
    s.historical + s.queued
  }

  /**
   * The depositors', the lockers' and the stakers' pool each receive their own part; nothing found, nothing happens.
   */
  lemma EarmarkFeeds(p: Pools, balance: nat, f: Fees, treasury: bool)
    requires PoolsOk(p) && Earmark(p, balance, f, treasury).Some?
    ensures balance == 0 ==> Earmark(p, balance, f, treasury) == Some(p)
    ensures balance > 0 ==> CutOf(balance, f, treasury).Some?
    ensures
      balance > 0 ==>
        var c, r := CutOf(balance, f, treasury).value, Earmark(p, balance, f, treasury).value;
        && Received(r.crv) == Received(p.crv) + c.pool && Received(r.lock) == Received(p.lock) + c.lock
        && Received(r.staker) == Received(p.staker) + c.staker
  {
    hide Queue, CutOf;
    if balance > 0 {
      var c := CutOf(balance, f, treasury).value;
      QueueReverts(p.crv, c.pool);
      QueueReverts(p.lock, c.lock);
      QueueReverts(p.staker, c.staker);
    }
  }

  /** 9 units are too few for the lockers' tenth: the call reverts while their pool streams rewards and none wait. */
  lemma SmallBalanceReverts(p: Pools, treasury: bool)
    requires PoolsOk(p) && p.lock.now < p.lock.finish && p.lock.queued == 0
    ensures Earmark(p, 9, FIRST_FEES, treasury).None?
  {
    hide Queue;
    assert Part(9, 1000) == 0;
    QueueReverts(p.lock, 0);
  }

  /** A pool without a reward period starts one with whatever is queued. */
  lemma QueueStarts(s: State, amount: nat)
    requires Ok(s) && s.finish <= s.now
    ensures Queue(s, amount).Some? && Ok(Queue(s, amount).value)
    ensures Queue(s, amount).value.now < Queue(s, amount).value.finish && Queue(s, amount).value.queued == 0
  {
    hide RewardPool.RewardPerToken, Div, Leftover;
    NotifyKeepsOk(s, amount + s.queued);
  }

  /** Such a pool is a new one that was just given its first rewards. */
  lemma SmallBalanceRevertsAtOnce(amount: nat)
    ensures PoolsOk(Pools(NEW_POOL, NEW_POOL, NEW_POOL)) && Queue(NEW_POOL, amount).Some?
    ensures
      var p := Pools(NEW_POOL, Queue(NEW_POOL, amount).value, NEW_POOL);
      PoolsOk(p) && Earmark(p, 9, FIRST_FEES, false).None?
  {
    NewPoolGood();
    hide Queue, Ok, Earmark;
    QueueStarts(NEW_POOL, amount);
    SmallBalanceReverts(Pools(NEW_POOL, Queue(NEW_POOL, amount).value, NEW_POOL), false);
  }

  class Booster {
    const crvRewards: BaseRewardPool
    const lockRewards: BaseRewardPool
    const stakerRewards: BaseRewardPool
    var lockIncentive: nat
    var stakerIncentive: nat
    var earmarkIncentive: nat
    var platformFee: nat

    constructor (crvRewards: BaseRewardPool, lockRewards: BaseRewardPool, stakerRewards: BaseRewardPool)
      ensures this.crvRewards == crvRewards && this.lockRewards == lockRewards && this.stakerRewards == stakerRewards
      ensures FeeState() == FIRST_FEES
    {
      this.crvRewards, this.lockRewards, this.stakerRewards := crvRewards, lockRewards, stakerRewards;
      lockIncentive, stakerIncentive, earmarkIncentive, platformFee := 1000, 450, 50, 0;
    }

    ghost function FeeState(): Fees
      reads this
    {
      Fees(lockIncentive, stakerIncentive, earmarkIncentive, platformFee)
    }

    ghost function PoolStates(now: nat): Pools
      reads crvRewards, lockRewards, stakerRewards
    {
      Pools(crvRewards.Pool(now), lockRewards.Pool(now), stakerRewards.Pool(now))
    }

    /** `setFees`. */
    method SetFees(lockFees: nat, stakerFees: nat, callerFees: nat, platform: nat) returns (ok: bool)
      modifies this
      ensures
        var r := ProposeFees(old(FeeState()), Fees(lockFees, stakerFees, callerFees, platform));
        ok == r.Some? && FeeState() == if ok then r.value else old(FeeState())
    {
      var total := lockFees + stakerFees + callerFees + platform;
      if total > MAX_FEES {
        return false;
      }
      if lockFees >= 1000 && lockFees <= 1500 && stakerFees >= 300 && stakerFees <= 600
         && callerFees >= 10 && callerFees <= 100 && platform <= 200 {
        lockIncentive := lockFees;
        stakerIncentive := stakerFees;
        earmarkIncentive := callerFees;
        platformFee := platform;
      }
      return true;
    }

    /** The subtractions of `_earmarkRewards`, in the order of the code. */
    method Split(balance: nat, treasury: bool) returns (cut: Option<Cut>)
      ensures cut == CutOf(balance, FeeState(), treasury)
    {
      hide Part;
      var crvBal := balance;
      var lock, staker, call :=
        Part(crvBal, lockIncentive), Part(crvBal, stakerIncentive), Part(crvBal, earmarkIncentive);
      var platform := 0;
      if treasury && platformFee > 0 {
        platform := Part(crvBal, platformFee);
        if platform > crvBal {
          return None;
        }
        crvBal := crvBal - platform;
      }
      if lock > crvBal || call > crvBal - lock || staker > crvBal - lock - call {
        return None;
      }
      crvBal := crvBal - lock - call - staker;
      return Some(Cut(platform, call, crvBal, lock, staker));
    }

    /** `_earmarkRewards` after the claims; the three pools are different contracts. */
    method EarmarkRewards(balance: nat, treasury: bool, now: nat) returns (ok: bool)
      requires PoolsOk(PoolStates(now))
      requires crvRewards != lockRewards && crvRewards != stakerRewards && lockRewards != stakerRewards
      modifies crvRewards, lockRewards, stakerRewards
      ensures
        var r := Earmark(old(PoolStates(now)), balance, FeeState(), treasury);
        ok == r.Some? && (ok ==> PoolStates(now) == r.value)
    {
      hide Ok, Queue, CutOf;
      if balance == 0 {
        return true;
      }
      var cut := Split(balance, treasury);
      if cut.None? {
        return false;
      }
      ok := crvRewards.QueueNewRewards(cut.value.pool, now);
      if ok {
        ok := lockRewards.QueueNewRewards(cut.value.lock, now);
      }
      if ok {
        ok := stakerRewards.QueueNewRewards(cut.value.staker, now);
      }
    }
  }
}
