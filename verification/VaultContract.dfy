/** The vault as a contract over its Controller. As for the Controller, `ok == false` stands for a revert. */
module VaultContract {
  import opened Numbers
  import opened Ledger
  import opened AmmPool
  import opened PriceOracle
  import opened LendVault
  import opened ControllerContract

  class LendingVault {
    const controller: Controller
    const address: Address
    const precision: Positive
    var totalSupply: nat
    var balanceOf: map<Address, nat>
    var allowance: map<(Address, Address), nat>

    constructor (controller: Controller, address: Address, precision: Positive)
      ensures this.controller == controller && this.address == address && this.precision == precision
      ensures Shares() == Vault(0, map[], map[])
    {
      this.controller, this.address, this.precision := controller, address, precision;
      totalSupply, balanceOf, allowance := 0, map[], map[];
    }

    ghost function Shares(): Vault
      reads this
    {
      Vault(totalSupply, balanceOf, allowance)
    }

    ghost function State(now: nat): Estate
      reads this, controller, controller.amm
    {
      Estate(controller.State(now), Shares())
    }

    ghost predicate Ready(now: nat)
      reads controller.amm
    {
      controller.Ready(now) && precision == controller.amm.params.bPrec
    }

    // -------------------------------------------------------------- views

    /** `_total_assets`. */
    method AllAssets(now: nat) returns (total: nat)
      requires controller.amm.rateTime <= now
      ensures total == TotalAssets(controller.State(now))
    {
      var debt := controller.TotalDebt(now);
      total := controller.funds + debt;
    }

    /** `_convert_to_shares`. */
    method ConvertToShares(assets: nat, isFloor: bool, total: nat) returns (shares: nat)
      ensures shares == ToShares(totalSupply, total, assets, precision, isFloor)
    {
      Product3(totalSupply + DEAD_SHARES, assets, precision);
      var numerator: nat := (totalSupply + DEAD_SHARES) * assets * precision;
      Product3(total, precision, 1);
      var denominator := total * precision + 1;
      shares := if isFloor then Div(numerator, denominator) else Div(numerator + denominator - 1, denominator);
    }

    /** `_convert_to_assets`. */
    method ConvertToAssets(shares: nat, isFloor: bool, total: nat) returns (assets: nat)
      ensures assets == ToAssets(totalSupply, total, shares, precision, isFloor)
    {
      Product3(total, precision, 1);
      Product3(shares, total * precision + 1, 1);
      var numerator: nat := shares * (total * precision + 1);
      MulMono(1, precision, totalSupply + DEAD_SHARES);
      var denominator := (totalSupply + DEAD_SHARES) * precision;
      assets := if isFloor then Div(numerator, denominator) else Div(numerator + denominator - 1, denominator);
    }

    // -------------------------------------------------------------- the share ledger

    /** `_mint`. */
    method MintShares(to: Address, value: nat)
      modifies this`balanceOf, this`totalSupply
      ensures Shares() == MintTo(old(Shares()), to, value)
    {
      balanceOf := balanceOf[to := Get(balanceOf, to) + value];
      totalSupply := totalSupply + value;
    }

    /** `_burn`. */
    method BurnShares(from: Address, value: nat) returns (ok: bool)
      modifies this`balanceOf, this`totalSupply
      ensures
        var r := BurnFrom(old(Shares()), from, value);
        ok == r.Some? && (ok ==> Shares() == r.value)
    {
      ok := value <= Get(balanceOf, from) && value <= totalSupply;
      if ok {
        balanceOf := balanceOf[from := Get(balanceOf, from) - value];
        totalSupply := totalSupply - value;
      }
    }

    /** `_transfer`. */
    method TransferShares(from: Address, to: Address, value: nat) returns (ok: bool)
      modifies this`balanceOf
      ensures
        var r := LendVault.Move(old(Shares()), address, from, to, value);
        ok == r.Some? && (ok ==> Shares() == r.value)
    {
      ok := to != address && to != 0 && value <= Get(balanceOf, from);
      if ok {
        balanceOf := balanceOf[from := Get(balanceOf, from) - value];
        balanceOf := balanceOf[to := Get(balanceOf, to) + value];
      }
    }

    /** `approve`. */
    method Approve(owner: Address, spender: Address, value: nat)
      modifies this`allowance
      ensures Shares() == old(Shares()).(allowance := old(allowance)[(owner, spender) := value])
    {
      allowance := allowance[(owner, spender) := value];
    }

    /** The use of an allowance in `transferFrom`, `withdraw` and `redeem`. */
    method SpendAllowance(owner: Address, spender: Address, value: nat) returns (ok: bool)
      modifies this`allowance
      ensures
        var r := Spend(old(Shares()), owner, spender, value);
        ok == r.Some? && (ok ==> Shares() == r.value)
    {
      var allowed := Get(allowance, (owner, spender));
      ok := true;
      if allowed != MAX_UINT {
        ok := value <= allowed;
        if ok {
          Approve(owner, spender, allowed - value);
        }
      }
    }

    /** `transferFrom`. */
    method TransferFrom(spender: Address, from: Address, to: Address, value: nat) returns (ok: bool)
      modifies this`allowance, this`balanceOf
      ensures
        var spent := Spend(old(Shares()), from, spender, value);
        var r := if spent.None? then None else LendVault.Move(spent.value, address, from, to, value);
        ok == r.Some? && (ok ==> Shares() == r.value)
    {
      ok := SpendAllowance(from, spender, value);
      if ok {
        ok := TransferShares(from, to, value);
      }
    }

    // -------------------------------------------------------------- calls

    /** The transfer of assets to the Controller, the new shares, and `save_rate`. */
    method TakeIn(assets: nat, shares: nat, receiver: Address, policy: nat, now: nat)
      requires Ready(now)
      modifies this`balanceOf, this`totalSupply, controller`funds, controller.amm
      ensures State(now) ==
              Estate(Fund(old(controller.State(now)), assets, policy), MintTo(old(Shares()), receiver, shares))
    {
      hide RateMul;
      controller.funds := controller.funds + assets;
      MintShares(receiver, shares);
      controller.SaveRate(policy, now);
    }

    /** `deposit`. */
    method Deposit(assets: nat, receiver: Address, policy: nat, now: nat) returns (ok: bool, toMint: nat)
      requires Ready(now)
      modifies this`balanceOf, this`totalSupply, controller`funds, controller.amm
      ensures
        var r := LendVault.Deposit(controller.amm.params, old(State(now)), assets, receiver, policy);
        ok == r.Some? && (ok ==> r.value == Done(State(now), toMint))
    {
      hide RateMul, ToShares, TotalAssets, MintTo;
      var total := AllAssets(now);
      toMint := ConvertToShares(assets, true, total);
      ok := total + assets >= MIN_ASSETS;
      if ok {
        TakeIn(assets, toMint, receiver, policy, now);
      }
    }

    /** `mint`. */
    method Mint(shares: nat, receiver: Address, policy: nat, now: nat) returns (ok: bool, assets: nat)
      requires Ready(now)
      modifies this`balanceOf, this`totalSupply, controller`funds, controller.amm
      ensures
        var r := LendVault.Mint(controller.amm.params, old(State(now)), shares, receiver, policy);
        ok == r.Some? && (ok ==> r.value == Done(State(now), assets))
    {
      hide RateMul, ToAssets, TotalAssets, MintTo;
      var total := AllAssets(now);
      assets := ConvertToAssets(shares, false, total);
      ok := total + assets >= MIN_ASSETS;
      if ok {
        TakeIn(assets, shares, receiver, policy, now);
      }
    }

    /** The common end of `withdraw` and `redeem`: allowance, burn, transfer, `save_rate`. */
    method GiveOut(assets: nat, shares: nat, sender: Address, owner: Address, policy: nat, now: nat) returns (ok: bool)
      requires Ready(now)
      modifies this`balanceOf, this`totalSupply, this`allowance, controller`funds, controller.amm
      ensures
        var r := PayOut(old(State(now)), owner, sender, shares, assets, policy);
        ok == r.Some? && (ok ==> State(now) == r.value)
    {
      hide RateMul, Spend, BurnFrom;
      ok := true;
      if owner != sender {
        ok := SpendAllowance(owner, sender, shares);
      }
      if ok {
        ok := BurnShares(owner, shares);
      }
      ok := ok && assets <= controller.funds;
      if ok {
        controller.funds := controller.funds - assets;
        controller.SaveRate(policy, now);
      }
    }

    /** `withdraw`. */
    method Withdraw(assets: nat, sender: Address, owner: Address, policy: nat, now: nat) returns (ok: bool, shares: nat)
      requires Ready(now)
      modifies this`balanceOf, this`totalSupply, this`allowance, controller`funds, controller.amm
      ensures
        var r := LendVault.Withdraw(controller.amm.params, old(State(now)), assets, sender, owner, policy);
        ok == r.Some? && (ok ==> r.value == Done(State(now), shares))
    {
      hide RateMul, ToShares, TotalAssets, PayOut;
      var total := AllAssets(now);
      shares := ConvertToShares(assets, false, total);
      ok := assets <= total && (total - assets >= MIN_ASSETS || total == assets);
      if ok {
        ok := GiveOut(assets, shares, sender, owner, policy, now);
      }
    }

    /** `redeem`. */
    method Redeem(shares: nat, sender: Address, owner: Address, policy: nat, now: nat) returns (ok: bool, assets: nat)
      requires Ready(now)
      modifies this`balanceOf, this`totalSupply, this`allowance, controller`funds, controller.amm
      ensures
        var r := LendVault.Redeem(controller.amm.params, old(State(now)), shares, sender, owner, policy);
        ok == r.Some? && (ok ==> r.value == Done(State(now), assets))
    {
      hide RateMul, ToAssets, TotalAssets, PayOut;
      var total := AllAssets(now);
      assets := ConvertToAssets(shares, true, total);
      if assets > total {
        return false, assets;
      }
      if total - assets < MIN_ASSETS {
        if shares == totalSupply {
          assets := total;
        } else {
          return false, assets;
        }
      }
      ok := GiveOut(assets, shares, sender, owner, policy, now);
    }
  }
}
