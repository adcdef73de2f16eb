# Lending, liquidity and reward protocols: models and proofs

Dafny models of the protocol contracts and allocation scripts of this repository, with machine-checked proofs of what they keep
true. `dafny verify dfyconfig.toml` checks everything.

- **LLAMMA AMM** (`Ticks`, `Curve`, `BandTrade`, `BandWalk`, `SwapLoops`, `BandShares`, `AmmPool`, `Pool*`, `PriceOracle`,
  `AmmContract`): liquidity in numbered bands, share accounting with dead shares, packed user storage, swaps that walk the bands
  in both directions, the oracle limiter and the interest multiplier.
- **Controller** (`Debt`, `DebtBook`, `DebtLimit`, `Lending`, `LendingRuns`, `LendingEffects`, `LoneLoan`,
  `ControllerContract`): debts rebased by the multiplier, the
  swap-remove list, minted and redeemed books, repayments and liquidations, composed with the AMM.
- **Vault** (`LendVault`, `VaultRuns`, `VaultEffects`, `VaultContract`): an EIP-4626 vault over the Controller.
- **Reward pool and booster** (`RewardPool`, `RewardSharing`, `RewardDust`, `RewardPoolContract`, `BoosterFees`).
- **Scripts** (`Recap`, `Positions`, `Routes`, `RouteHydration`): compensation recap, position generator, route builder.
- `Numbers` and `Ledger` hold integer arithmetic and sums over storage mappings.

Every stateful contract appears twice. A value-level module says what each call does to the state (`None` stands for a revert) and
carries the theorems over calls and whole histories. A class with the contract's storage fields then updates them step by step, and
each of its methods is proved to reach exactly the state that the value-level function gives. The `*Effects` modules, `RewardDust` and
lemmas named `...Means` say in turn when each call goes through and what it changes, to the unit and in both directions, without the
functions that compute it. Integers are unbounded; EVM division,
remainder and `unsafe_div` by zero are written out, and subtractions that the source leaves unchecked are proved not to wrap.

Token balances are fields (`heldX`, `heldY`, `funds`, `sent`). Prices, the exponential `p_oracle_up` of a band, the first band
found by `_calculate_debt_n1`, health checks, the monetary policy's rate, what a callback brings back, and random choices are
arguments, so every theorem holds for all of them; where a history is claimed to happen, the argument is one the code can compute
(`BandsFound`).

Where the code does not do what its comments suggest, the code is modelled and the exact condition is proved:

- An oracle fee decays linearly only as long as nobody trades. An update at the same price leaves every later reading the same exactly
  when a wait before or after it is empty or outlasts the window (`LinearDecayExactly`); otherwise the fee dies more slowly, but it dies
  (`UpdateKeepsFeeAlive`, `ConstantPriceFeeDies`).
- A collateral-only step on the only loan can leave total debt behind, and exactly when is a test on storage before the step
  (`CollateralStepKeepsBound`); `DebtOutlivesItsLoans` is a family of histories of Controller calls that end so, for every deposit of
  a token and more and every band found for it, and `RunKeepsWithin` says which histories never do.
- An exact-input swap can revert where a larger one goes through, when it is used up just before a band whose offset of
  the incoming coin rounds to zero: exactly when is `SwapMonotone`, `SwapCompletes` says which prices rule it out, and
  `SmallSwapStarves` is an input.
- The last redemption's sweep lowers the share price and can pay out more than was deposited: exactly when is `SweepPrice` and
  `DepositThenRedeem`, and `LeftoverIsReached` with `SweepProfits` is a history where it does.
- `ns` packing loses pairs with a positive lower and a negative upper tick, which no deposit uses (`UnpackOfPack`).
- Earmarking reverts when a part rounds to nothing on a pool in its period with nothing queued: exactly when is
  `EarmarkIsExact`, and `SmallBalanceReverts` an input.
- The TAN assertion fails for an empty list of rows (`TanSplit`); a row of a single cell makes a route without swaps (`RoundTrip`).

## Model

| member | source | states |
|---|---|---|
| Numbers.Isqrt | ref_contracts/Curve/CRrvUSDAMM.vy:227-234 | the floor of the square root: r * r <= n < (r + 1) * (r + 1) |
| Ticks.UnpackOfPack | ref_contracts/Curve/CRrvUSDAMM.vy:568-583 | tick numbers survive packing under truncating division if and only if not (n1 > 0 and n2 < 0); in particular for every n1 <= n2 in range |
| Ticks.ReadOfSave | ref_contracts/Curve/CRrvUSDAMM.vy:597-616 | up to 50 shares written over any old slots are read back unchanged |
| Ticks.LiveAfterSave | ref_contracts/Curve/CRrvUSDAMM.vy:664-669 | the liquidity flag of a saved position is set exactly when one of its first two shares is not zero |
| Ticks.SaveUserShares | ref_contracts/Curve/CRrvUSDAMM.vy:673-684 | the pointer loop writes two shares per word and leaves the later words alone |
| Ticks.ReadUserTicks | ref_contracts/Curve/CRrvUSDAMM.vy:597-616 | the reading loop returns the first `size` shares of the packed words |
| Curve.Y0BracketsRoot | ref_contracts/Curve/CRrvUSDAMM.vy:495-519 | `_get_y0` is not above the positive root of its own rounded quadratic, and adding an explicit slack passes the root, for one coin and for two |
| Curve.CoefficientsBracket | ref_contracts/Curve/CRrvUSDAMM.vy:509-516 | the coefficients of that quadratic against p_up (A - 1) x / p + A p^2 y / p_up and 4 A p x y, each with its rounding bounded |
| Curve.DynamicFeeAtMostQuarter | ref_contracts/Curve/CRrvUSDAMM.vy:295-305 | the distance of a band from the oracle price never costs more than 25 percent |
| Curve.DynamicFeeIsQuarterOfGap | ref_contracts/Curve/CRrvUSDAMM.vy:295-307 | no fee inside the adiabatic prices of the band; outside, a quarter of the gap relative to the larger price, rounded down |
| Curve.BandPricesBracket | ref_contracts/Curve/CRrvUSDAMM.vy:300-301 | the adiabatic prices of a band are p^3 / p_up^2 and (A / (A - 1))^2 times that, with both roundings of each bounded |
| Curve.OffsetFBrackets | ref_contracts/Curve/CRrvUSDAMM.vy:898-898 | f is A * y0 * p^2 / p_up, with its rounding bounded |
| Curve.FeeCharged | ref_contracts/Curve/CRrvUSDAMM.vy:903-914 | an amount with the fee is the amount over one minus the fee: never more, and less by under one unit and the rounding of the antifee |
| BandTrade.StepConserves | ref_contracts/Curve/CRrvUSDAMM.vy:903-984 | inside a band the outgoing coin is split exactly, the admin's part is part of what came in, and no subtraction underflows |
| BandTrade.StepRespectsCurve | ref_contracts/Curve/CRrvUSDAMM.vy:898-944 | the last band ends with (f + x)(g + y) >= Inv; a crossed band loses less than the other offset |
| BandTrade.StepMeans | ref_contracts/Curve/CRrvUSDAMM.vy:903-984 | one band: skipped only without coin or offset to give; crossed for exactly what the curve and the fee ask; filled with the outgoing coin paid down to the curve to the unit, or the incoming coin charged up to it; and the admin's part of each fee |
| BandTrade.FeeRoundTrip | ref_contracts/Curve/CRrvUSDAMM.vy:922-927 | an amount that fits under the fee-loaded amount is, with the fee off, at most the amount itself, so `unsafe_sub` does not wrap |
| BandTrade.StepMono | ref_contracts/Curve/CRrvUSDAMM.vy:903-984 | with more to trade, a crossing stays the same crossing and a fill moves no less of either coin |
| BandTrade.StepReverts | ref_contracts/Curve/CRrvUSDAMM.vy:918-984 | pricing aside, a band reverts a trade if and only if nothing is left to go in where neither any of that coin nor an offset for it is, but coin and offset on the other side are |
| BandWalk.SwapMonotone | ref_contracts/Curve/CRrvUSDAMM.vy:856-1007 | from one state and oracle price, when the larger of two amounts goes through, the smaller one reverts if and only if it is starved (exact input used up at a band without incoming coin and offset), and otherwise never yields nor uses more; across bands, early breaks, both directions and both amount kinds |
| BandWalk.WalkMono | ref_contracts/Curve/CRrvUSDAMM.vy:886-1000 | the same for the walk before rounding to whole tokens, from any point of it on |
| BandWalk.SwapCompletes | ref_contracts/Curve/CRrvUSDAMM.vy:856-1310 | with the oracle price far enough from zero, a swap of any amount reverts if and only if it is starved: never for an exact output, and never for an exact input when the starting band's price keeps the offsets from rounding to zero |
| BandWalk.SmallSwapStarves | ref_contracts/Curve/CRrvUSDAMM.vy:918-984 | an instance at prices of a few units: an exact input of 1 reverts where 2 go through |
| BandWalk.WalkSettles | ref_contracts/Curve/CRrvUSDAMM.vy:954-957 | taking the incoming coin to be absent from later bands agrees with storage, and the ticks of a finished walk account for every band it touched |
| BandWalk.PriceMeans | ref_contracts/Curve/CRrvUSDAMM.vy:896-901 | the curve of a band puts each coin's offset on that coin's side in both directions, with its rounding bounded |
| BandWalk.BandFeeMeans | ref_contracts/Curve/CRrvUSDAMM.vy:882-901 | a band charges the larger of the exchange's fee and, if it has liquidity, the fee of its distance from the oracle price |
| BandWalk.NextPriceRatio | ref_contracts/Curve/CRrvUSDAMM.vy:954-996 | neighbouring bands are priced a factor of A / (A - 1) apart, rounded down |
| BandWalk.TooFarMeans | ref_contracts/Curve/CRrvUSDAMM.vy:951-991 | the bands at which a walk has to stop are those beyond (A / (A - 1))^50 from the oracle price |
| BandWalk.IterationMeans | ref_contracts/Curve/CRrvUSDAMM.vy:886-1000 | a walk goes on only past bands that it may pass, having traded all or nothing of each at the curve's price, and ends only filled, or where it has to stop |
| BandWalk.WalkEnds | ref_contracts/Curve/CRrvUSDAMM.vy:886-1000 | over a whole walk the given amount is what was traded and what is left, and unless the walk had to stop it is used up exactly, the last band ending on the curve |
| SwapLoops.BandOut | ref_contracts/Curve/CRrvUSDAMM.vy:918-984 | the branch of `calc_swap_out` inside one band computes the specified outcome |
| SwapLoops.BandIn | ref_contracts/Curve/CRrvUSDAMM.vy:1230-1287 | the branch of `calc_swap_in` inside one band computes the specified outcome |
| SwapLoops.CalcSwapLoop | ref_contracts/Curve/CRrvUSDAMM.vy:1163-1310 | the loops of `calc_swap_in` and `calc_swap_out` over bands, ticks and prices compute the specified walk, or revert with it |
| BandShares.PayoutWithinBand | ref_contracts/Curve/CRrvUSDAMM.vy:794-812 | a payout never exceeds what the band holds |
| BandShares.DepositKeepsShareValue | ref_contracts/Curve/CRrvUSDAMM.vy:735-750 | minting shares for a deposit never lowers the value of a share |
| BandShares.WithdrawKeepsShareValue | ref_contracts/Curve/CRrvUSDAMM.vy:794-812 | a payout never lowers the value of the shares that stay |
| BandShares.DepositThenWithdraw | ref_contracts/Curve/CRrvUSDAMM.vy:735-812 | shares bought with y are worth at most y |
| BandShares.SplitWithdrawal | ref_contracts/Curve/CRrvUSDAMM.vy:794-812 | two successive payouts pay at most what one payout of both shares pays |
| BandShares.TakenAll | ref_contracts/Curve/CRrvUSDAMM.vy:794-800 | a withdrawn fraction takes the whole of a share if and only if the fraction is one |
| PoolInvariant.NewPoolInv | ref_contracts/Curve/CRrvUSDAMM.vy:147-203 | a newly deployed AMM satisfies the invariant |
| PoolInvariant.DepositKeepsInv | ref_contracts/Curve/CRrvUSDAMM.vy:687-758 | every deposit keeps sides, empty bands, share ledger, packed users and solvency |
| PoolEffects.DepositGoesThrough | ref_contracts/Curve/CRrvUSDAMM.vy:704-747 | a deposit goes through if and only if its range is well-formed, each band gets more than 100 units, the user has no liquidity, the active band can be skipped down, and each band pays for a share that fits its word |
| PoolEffects.DepositMeans | ref_contracts/Curve/CRrvUSDAMM.vy:711-758 | each band gains its part and the most shares that part pays for; active band, bounds, position and collateral held are stated, and nothing else changes |
| PoolInvariant.DepositKeepsSlack | ref_contracts/Curve/CRrvUSDAMM.vy:687-758 | a deposit leaves what the AMM holds beyond bands and fees exactly as it was, in both coins |
| AmmPool.EvenSplit | ref_contracts/Curve/CRrvUSDAMM.vy:711-738 | a deposit is split evenly over its bands; the first gets the remainder |
| PoolInvariant.MintForFacts | ref_contracts/Curve/CRrvUSDAMM.vy:711-750 | each band of the range gains its part and positive shares, no other band changes, and the parts add up to the deposit |
| PoolInvariant.SkipToFacts | ref_contracts/Curve/CRrvUSDAMM.vy:719-726 | skipping the active band down only passes bands without borrowed coin |
| PoolEffects.SkipToMeans | ref_contracts/Curve/CRrvUSDAMM.vy:719-726 | the skip succeeds if and only if at most 1024 bands lie in the way and none holds borrowed coin, and ends at the lower of the active band and the one below the deposit |
| PoolEffects.SkipDownMeans | ref_contracts/Curve/CRrvUSDAMM.vy:647-658 | `active_band_with_skip` is the first band down with borrowed coin, or 1024 below when there is none in bounds |
| PoolWithdraw.WithdrawNeverReverts | ref_contracts/Curve/CRrvUSDAMM.vy:768-853 | a user with liquidity can withdraw any fraction: nothing underflows and the tokens are there |
| PoolWithdraw.WithdrawKeepsInv | ref_contracts/Curve/CRrvUSDAMM.vy:768-853 | every withdrawal keeps the invariant, the dust swept to the admin and the bounds of the bands included |
| PoolEffects.WithdrawGoesThrough | ref_contracts/Curve/CRrvUSDAMM.vy:768-853 | a withdrawal goes through if and only if the user has liquidity and the fraction is at most one |
| PoolEffects.WithdrawMeans | ref_contracts/Curve/CRrvUSDAMM.vy:768-853 | payments to the unit, the dust of emptied bands to the admin, every band less its payout, the bounds at the outermost bands left full, this user's shares less those taken, and nothing else |
| PoolWithdraw.EntryAfterShares | ref_contracts/Curve/CRrvUSDAMM.vy:789-838 | a partial withdrawal never zeroes a share and leaves the rest readable; a full one leaves no liquidity |
| PoolWithdraw.WithdrawFromConserves | ref_contracts/Curve/CRrvUSDAMM.vy:794-832 | bands, fees and payments after a withdrawal are covered by bands and fees before it, coin by coin |
| PoolWithdraw.WithdrawKeepsSlack | ref_contracts/Curve/CRrvUSDAMM.vy:794-853 | a withdrawal, its rounding to whole tokens and the dust given to the admin never lower what the AMM holds beyond bands and fees, in either coin |
| PoolWithdraw.SumXYIsWhatWithdrawPays | ref_contracts/Curve/CRrvUSDAMM.vy:1536-1584 | `get_sum_xy` shows exactly what a full withdrawal pays |
| PoolExchange.ExchangeKeepsInv | ref_contracts/Curve/CRrvUSDAMM.vy:1071-1160 | an exchange in either direction keeps the invariant and never lowers what either coin is held beyond bands and fees |
| PoolEffects.ExchangeReverts | ref_contracts/Curve/CRrvUSDAMM.vy:1071-1114 | under the invariant an exchange reverts if and only if its trade does or its whole-token amounts miss the caller's limit |
| PoolEffects.ExchangeMeans | ref_contracts/Curve/CRrvUSDAMM.vy:1071-1160 | whatever is paid keeps to the caller's limit and amount; what is held, the admin's fee, the active band and every band of the outgoing coin are as the trade says, and nothing else changes |
| PoolEffects.ExchangeUsesAll | ref_contracts/Curve/CRrvUSDAMM.vy:1071-1160 | all that the caller offers goes in, unless the trade comes to a band where it has to stop |
| PoolEffects.ExchangeFee | ref_contracts/Curve/CRrvUSDAMM.vy:882-882 | an exchange pays the larger of the AMM's fee and the oracle's |
| PoolExchange.SettleKeepsSlack | ref_contracts/Curve/CRrvUSDAMM.vy:1109-1158 | the transfers go through, and rounding what comes in up, what goes out down and the admin fee down never lowers what is held beyond bands and fees, in either coin |
| PoolExchange.TakeFeesKeepsInv | ref_contracts/Curve/CRrvUSDAMM.vy:1738-1747 | moving the admin fees out cannot fail, keeps the invariant, and leaves what is held beyond bands and fees exactly as it was |
| PoolFairness.DepositThenWithdrawGainsNothing | ref_contracts/Curve/CRrvUSDAMM.vy:687-853 | a deposit withdrawn at once goes through, pays no borrowed coin and at most the deposit |
| PoolFairness.SplittingNeverPays | ref_contracts/Curve/CRrvUSDAMM.vy:768-853 | withdrawing a fraction and then the rest pays at most what one full withdrawal pays, in both coins |
| PoolFairness.DepositKeepsValue | ref_contracts/Curve/CRrvUSDAMM.vy:735-750 | no deposit lowers the collateral per share of any band |
| PoolFairness.WithdrawKeepsValue | ref_contracts/Curve/CRrvUSDAMM.vy:794-832 | no withdrawal lowers either coin per share of a band that keeps shares |
| PoolRuns.RunKeepsInv | ref_contracts/Curve/CRrvUSDAMM.vy:687-1160 | after any history of deposits, withdrawals, exchanges and fee collections, reverted calls included, the invariant holds |
| PoolRuns.RunKeepsSlack | ref_contracts/Curve/CRrvUSDAMM.vy:687-1160 | over any history from any state within the invariant, what the AMM holds beyond bands and fees never falls, in either coin: every rounding goes its way |
| PoolRuns.NobodyIsLockedIn | ref_contracts/Curve/CRrvUSDAMM.vy:768-853 | after any history, whoever has liquidity can take all of it and gets what `get_sum_xy` shows |
| PriceOracle.LimiterIsClamp | ref_contracts/Curve/CRrvUSDAMM.vy:243-291 | inside the delay window the accepted price is the price cut to [old / 1.25, 1.25 * old]; after it, the price itself |
| PriceOracle.LargerMovesCostMore | ref_contracts/Curve/CRrvUSDAMM.vy:266-291 | further from the last price, in either direction, the fee is no lower |
| PriceOracle.LimitMoveFee | ref_contracts/Curve/CRrvUSDAMM.vy:271-291 | right after an update without fee, a move up or down costs at most 48.8 percent, and exactly that if and only if it reaches the limit; every move by a quarter up or a fifth down does |
| PriceOracle.DynamicFeeMeans | ref_contracts/Curve/CRrvUSDAMM.vy:266-291 | the fee is the old one and 1 - ratio^3, both for the part of the window that is left, with the ratio cut at 0.8 and the fee held below one |
| PriceOracle.AcceptMeans | ref_contracts/Curve/CRrvUSDAMM.vy:316-322 | an update stores the limited price, its fee and the time |
| PriceOracle.FeeStaysBelowOne | ref_contracts/Curve/CRrvUSDAMM.vy:269-291 | the new dynamic fee stays below one and no `unsafe` step of its computation wraps |
| PriceOracle.FeeBelowOneForever | ref_contracts/Curve/CRrvUSDAMM.vy:316-322 | over any sequence of updates the stored fee stays below one |
| PriceOracle.ConstantPriceDecaysLinearly | ref_contracts/Curve/CRrvUSDAMM.vy:250-291 | at a constant price the fee read since the last update decays linearly, to zero at the end of the window |
| PriceOracle.UpdatesSlowDecay | ref_contracts/Curve/CRrvUSDAMM.vy:316-322 | for any two waits, inside the window or past it, an update in between never makes the fee decay faster, up to one unit of rounding |
| PriceOracle.LinearDecayExactly | ref_contracts/Curve/CRrvUSDAMM.vy:250-291 | for every fee, an update at the same price in between leaves the fee read later the same if and only if no time passed before it, none after it, or one of the two waits alone is as long as the window |
| PriceOracle.UpdateKeepsFeeAlive | ref_contracts/Curve/CRrvUSDAMM.vy:316-322 | a fee of 400, updated after 60 seconds and read 59 seconds later, is 101; without the update it is 3 |
| PriceOracle.UpdateLowersFee | ref_contracts/Curve/CRrvUSDAMM.vy:316-322 | an update at the stored price keeps that price, never raises the fee, and lowers a positive one if and only if time has passed |
| PriceOracle.ConstantPriceFeeDies | ref_contracts/Curve/CRrvUSDAMM.vy:316-322 | over any sequence of updates at a constant price the fee never rises and loses at least one unit with each update that came later than the one before, down to zero |
| PriceOracle.RateMulGrows | ref_contracts/Curve/CRrvUSDAMM.vy:343-353 | the interest multiplier never falls with time |
| PriceOracle.SetRateIsContinuous | ref_contracts/Curve/CRrvUSDAMM.vy:1697-1713 | changing the rate does not change the multiplier of that moment |
| AmmContract.Amm.SetRate | ref_contracts/Curve/CRrvUSDAMM.vy:1697-1713 | stores the multiplier of the moment, the new rate and the time |
| AmmContract.Amm.PriceOracleW | ref_contracts/Curve/CRrvUSDAMM.vy:316-322 | stores exactly the limited price, its fee and the time |
| AmmContract.Amm.ActiveBandWithSkip | ref_contracts/Curve/CRrvUSDAMM.vy:647-658 | the loop returns the specified skipped-to band |
| AmmContract.Amm.DepositRange | ref_contracts/Curve/CRrvUSDAMM.vy:687-758 | the storage after a deposit is the specified state; a revert changes nothing |
| AmmContract.Amm.SkipBands | ref_contracts/Curve/CRrvUSDAMM.vy:719-726 | the skipping loop finds the specified band or reverts with it |
| AmmContract.Amm.MintShares | ref_contracts/Curve/CRrvUSDAMM.vy:727-750 | the deposit loop computes the specified bands, totals and shares |
| AmmContract.Amm.DrawBands | ref_contracts/Curve/CRrvUSDAMM.vy:794-832 | the withdrawal loop computes the specified bands, fees, bounds, payments and remaining shares |
| AmmContract.Amm.Withdraw | ref_contracts/Curve/CRrvUSDAMM.vy:768-853 | the storage after a withdrawal and its payments are the specified ones; a revert changes nothing |
| AmmContract.Amm.SumXY | ref_contracts/Curve/CRrvUSDAMM.vy:1536-1584 | the view loop computes the specified sums |
| AmmContract.Amm.StoreTicks | ref_contracts/Curve/CRrvUSDAMM.vy:1124-1150 | the storing loop, from the lowest band up, writes the ticks of the trade in its own direction |
| AmmContract.Amm.Exchange | ref_contracts/Curve/CRrvUSDAMM.vy:1071-1160 | bands, fees, balances, active band and oracle after an exchange are the specified ones; a revert changes nothing |
| AmmContract.Amm.ResetAdminFees | ref_contracts/Curve/CRrvUSDAMM.vy:1738-1747 | fees are moved out whole or not at all |
| Debt.RaiseBound | ref_contracts/Curve/CrvUSDController.vy:678-679 | after a borrowing the total is worth at most everybody else's debt plus the borrower's, whichever way the loan was rounded |
| Debt.LowerBound | ref_contracts/Curve/CrvUSDController.vy:938-940 | the same after a repayment, with the clamp at zero |
| Debt.DebtRounds | ref_contracts/Curve/CrvUSDController.vy:390-444 | a debt is rounded up among several loans and down for a lone one, the total down |
| Debt.LastLoanClosesTotal | ref_contracts/Curve/CrvUSDController.vy:399-408 | repaying the only loan in full leaves a total of exactly zero when the total is worth no more than the loan |
| Debt.LastLoanClosesTotalExactly | ref_contracts/Curve/CrvUSDController.vy:399-408 | it does so at every later multiplier if and only if the total is worth no more than the loan |
| Debt.CollateralStepKeepsBound | ref_contracts/Curve/CrvUSDController.vy:760-771 | after a step that only moves the collateral of the only loan, repaying it in full leaves no total debt at any later multiplier if and only if total.initial_debt * rate_mul <= debt * total.rate_mul on the values before the step |
| Debt.CollateralStepWithoutRounding | ref_contracts/Curve/CrvUSDController.vy:760-771 | for a total that is exactly the loan, that test says that the rebased debt was not rounded |
| Debt.CollateralStepLeavesDebt | ref_contracts/Curve/CrvUSDController.vy:768-771 | 10 borrowed at 1.0, collateral moved at 1.05, all repaid at 1.1: a total debt of 1 outlives its only loan |
| DebtBook.EnlistKeepsList | ref_contracts/Curve/CrvUSDController.vy:673-676 | a new borrower is added once; list and index stay inverse |
| DebtBook.UnlistKeepsList | ref_contracts/Curve/CrvUSDController.vy:857-867 | swap-remove never fails for a listed borrower, keeps list and index inverse, and removes exactly that borrower |
| DebtBook.OpenKeepsInv | ref_contracts/Curve/CrvUSDController.vy:659-679 | creating a loan keeps 'listed if and only if in debt' and adds exactly the borrower |
| DebtBook.RebaseKeepsInv | ref_contracts/Curve/CrvUSDController.vy:744-771 | borrowing more or moving collateral keeps the list and who is in debt |
| DebtBook.PayDownKeepsInv | ref_contracts/Curve/CrvUSDController.vy:884-940 | a repayment never fails on the list, and takes the borrower off it exactly when nothing is left |
| DebtBook.OpenMeans | ref_contracts/Curve/CrvUSDController.vy:659-686 | a loan is opened if and only if there is none and the Controller has the tokens; then exactly that is owed, the total grows by it, and no other loan changes |
| DebtBook.RebaseMeans | ref_contracts/Curve/CrvUSDController.vy:744-785 | borrowing d more, or nothing, makes the debt of the moment grow by exactly d, the total too, and no other loan change |
| DebtBook.PayDownMeans | ref_contracts/Curve/CrvUSDController.vy:935-943 | repaying d makes the debt of the moment fall by exactly d, the total by d or to zero, and no other loan change |
| DebtBook.CollectMeans | ref_contracts/Curve/CrvUSDController.vy:1415-1453 | collecting goes through if and only if the tokens are there, takes exactly the gain, and changes neither loans nor total |
| DebtBook.PayDownBooks | ref_contracts/Curve/CrvUSDController.vy:935-940 | a repayment keeps the books balanced and never lowers total debt plus redeemed minus minted |
| DebtBook.CollectBooks | ref_contracts/Curve/CrvUSDController.vy:1403-1453 | when the gain is not negative the fee is all of it and none is left: the clamps lose nothing |
| DebtBook.OpenWithin | ref_contracts/Curve/CrvUSDController.vy:678-679 | a new loan keeps the total worth no more than the loans together |
| DebtBook.RebaseWithin | ref_contracts/Curve/CrvUSDController.vy:768-771 | borrowing more always does too; moving collateral alone does if and only if other loans exist or the total is covered by the rounded debt of the lone one |
| DebtBook.PayDownWithin | ref_contracts/Curve/CrvUSDController.vy:937-940 | so does every repayment |
| DebtBook.ClosingLastLoan | ref_contracts/Curve/CrvUSDController.vy:935-940 | when the total is worth no more than the loans, the last borrower's full repayment leaves no debt, nobody on the list and a total of zero |
| DebtBook.ClosingLastLoanExactly | ref_contracts/Curve/CrvUSDController.vy:935-940 | with one borrower left, a full repayment never fails on the books, and leaves a total of zero at every later multiplier if and only if the total is worth no more than the loans |
| Lending.FRemoveWithin | ref_contracts/Curve/CrvUSDController.vy:1110-1117 | the fraction of the position removed is at most that of the debt, equal to it at health limit zero, and one only for a full liquidation |
| Lending.FRemoveFormula | ref_contracts/Curve/CrvUSDController.vy:1110-1117 | the removed fraction is ((1 + h / 2) / (1 + h) * (1 - frac) + frac) * frac, short by less than two units |
| Lending.CalledAll | ref_contracts/Curve/CrvUSDController.vy:1137-1143 | a liquidation repays the whole debt if and only if its fraction is one |
| Lending.NothingBorrowedAbove | ref_contracts/Curve/CrvUSDController.vy:904-916 | a position above the active band, or above the band found by skipping, holds no borrowed coin, so nothing is left behind when it is moved |
| Lending.MoveKeepsInv | ref_contracts/Curve/CrvUSDController.vy:987-1012 | moving a position during a repayment withdraws no borrowed coin and keeps the AMM's invariant and its users |
| Lending.CreateLoanKeepsInv | ref_contracts/Curve/CrvUSDController.vy:659-691 | creating a loan keeps the invariants of both contracts and 'in debt if and only if with liquidity' |
| Lending.AdjustKeepsInv | ref_contracts/Curve/CrvUSDController.vy:733-825 | so do adding and removing collateral and borrowing more |
| Lending.RepayKeepsInv | ref_contracts/Curve/CrvUSDController.vy:871-943 | so does every repayment, full, partial, or by someone else |
| Lending.RepayExtendedKeepsInv | ref_contracts/Curve/CrvUSDController.vy:947-1020 | so does a repayment through a callback, in both branches |
| Lending.LiquidateKeepsInv | ref_contracts/Curve/CrvUSDController.vy:1119-1198 | so does every liquidation: a partial one leaves debt and position, a full one neither |
| Lending.CollectFeesKeepsInv | ref_contracts/Curve/CrvUSDController.vy:1415-1453 | so does collecting fees |
| LendingEffects.CreateLoanMeans | ref_contracts/Curve/CrvUSDController.vy:659-691 | exactly when a loan is created, and then: the debt, the bands, the collateral, the books and the saved rate |
| LendingEffects.AdjustGoesThrough | ref_contracts/Curve/CrvUSDController.vy:733-825 | exactly when collateral is added or removed or more is borrowed |
| LendingEffects.AdjustMeans | ref_contracts/Curve/CrvUSDController.vy:733-825 | the debt grows by exactly what is borrowed, the collateral held by what is added less what is removed, over as many bands as before from the new first one |
| LendingEffects.RepayAllMeans | ref_contracts/Curve/CrvUSDController.vy:884-902 | a full repayment goes through unless somebody else would take borrowed coin out, and pays out what `get_sum_xy` shows |
| LendingEffects.RepayPartMeans | ref_contracts/Curve/CrvUSDController.vy:904-943 | exactly when a partial repayment goes through; the debt falls by exactly that, and the position moves whole or stays |
| LendingEffects.RepayExtendedGoesThrough | ref_contracts/Curve/CrvUSDController.vy:947-1020 | exactly when a repayment through a callback goes through |
| LendingEffects.RepayExtendedMeans | ref_contracts/Curve/CrvUSDController.vy:947-1020 | both branches: what is repaid, and what becomes of the position and its collateral |
| LendingEffects.LiquidateMeans | ref_contracts/Curve/CrvUSDController.vy:1119-1198 | a liquidation goes through if and only if the loan is unhealthy at the limit (or the limit is zero), something is called, and position and liquidator bring enough; then the debt falls by exactly what is called |
| LendingEffects.LiquidationDraws | ref_contracts/Curve/CrvUSDController.vy:1126-1150 | what a liquidation takes out of the position, to the unit |
| LendingEffects.CollectFeesMeans | ref_contracts/Curve/CrvUSDController.vy:1415-1453 | both contracts' fees leave whole, no loan or position changes, and when it reverts |
| LendingRuns.CallKeepsBooks | ref_contracts/Curve/CrvUSDController.vy:678-686 | no call but the collection of interest lets total debt plus redeemed minus minted shrink, and every call keeps the balance equal to funding plus redeemed minus minted |
| LendingRuns.InterestIsTheGain | ref_contracts/Curve/CrvUSDController.vy:1415-1453 | collecting takes exactly the interest that `admin_fees` shows, and leaves none |
| LendingRuns.RunKeepsGood | ref_contracts/Curve/CrvUSDController.vy:659-1198 | after any history of loans, repayments, liquidations, trades, fees and time: both invariants, balanced books, and interest that is not negative |
| LendingEffects.RunLeavesOthers | ref_contracts/Curve/CrvUSDController.vy:659-1198 | over any history that names only the loans of others, a borrower's stored loan, bands and shares stay as they are |
| LendingRuns.CallKeepsWithin | ref_contracts/Curve/CrvUSDController.vy:659-1198 | a call that goes through keeps the total worth no more than the loans if and only if it is not a collateral step on a lone loan that rounds below the total |
| LendingRuns.RunKeepsWithin | ref_contracts/Curve/CrvUSDController.vy:937-940 | the total stays worth no more than the loans at every moment of a history if and only if each collateral step on a lone loan in it finds the total covered by the rounded debt |
| LendingRuns.LastRepaymentClosesMarket | ref_contracts/Curve/CrvUSDController.vy:871-943 | after such a history, the last borrower's full repayment goes through and leaves a total of zero |
| LendingRuns.LastRepaymentExactly | ref_contracts/Curve/CrvUSDController.vy:935-940 | after any history at all, the last borrower's full repayment leaves a total of zero at every later multiplier if and only if the total is then worth no more than the loan |
| DebtLimit.GetYEffective | ref_contracts/Curve/CrvUSDController.vy:449-474 | the loop adds up the specified parts of the bands |
| DebtLimit.CountsExactly | ref_contracts/Curve/CrvUSDController.vy:464-467 | a deposit counts for something if and only if its discounted part is at least one scaled unit per band |
| DebtLimit.FirstTermMeans | ref_contracts/Curve/CrvUSDController.vy:461-467 | the first band's part, with both discounts and each rounding stated |
| DebtLimit.SeriesSums | ref_contracts/Curve/CrvUSDController.vy:468-473 | the parts add up to A times the fall from the first to the one after the last, short by less than A for each |
| DebtLimit.TermBrackets | ref_contracts/Curve/CrvUSDController.vy:468-473 | the part after k bands is the first times ((A - 1) / A)^k, short by less than A |
| DebtLimit.DustCountsForNothing | ref_contracts/Curve/CrvUSDController.vy:464-467 | with at most a dead share's worth in each band a deposit counts for nothing, so no debt against it is accepted |
| DebtLimit.CountsWithinDiscount | ref_contracts/Curve/CrvUSDController.vy:449-474 | a deposit never counts for more than its value less the loan discount, over the square root of A / (A - 1) |
| DebtLimit.CountsMono | ref_contracts/Curve/CrvUSDController.vy:449-474 | more collateral never counts for less |
| DebtLimit.DebtBandMeans | ref_contracts/Curve/CrvUSDController.vy:479-523 | no band is found if and only if the deposit counts for no more than the debt or a price or skip check fails; a band found is the floor of ln(cover) over ln(A / (A - 1)) past the active one, cut at 1024 - N |
| LoneLoan.BandsFound | ref_contracts/Curve/CrvUSDController.vy:479-523 | for 10 units of debt and a deposit of a token and more in four bands, the bands found above an active band 0 are exactly those up to 1020, whatever the discount |
| LoneLoan.DebtOutlivesItsLoans | ref_contracts/Curve/CrvUSDController.vy:659-943 | for all deposits of one token to 10^17 tokens into four bands and every first band the code can find above the active one, create_loan, add_collateral and repay go through in turn and lead a new market to no loans at all and a total debt of 1 |
| LendingRuns.RepayInFullNeverFails | ref_contracts/Curve/CrvUSDController.vy:884-902 | a borrower can repay in full at any time and ends with neither debt nor position |
| ControllerContract.Controller.DebtOf | ref_contracts/Curve/CrvUSDController.vy:390-410 | `_debt` computes the debt rounded up among several loans and down for a lone one |
| ControllerContract.Controller.TotalDebt | ref_contracts/Curve/CrvUSDController.vy:436-444 | `total_debt` rounds down |
| ControllerContract.Controller.Interest | ref_contracts/Curve/CrvUSDController.vy:1401-1411 | `admin_fees` computes the specified fees |
| ControllerContract.Controller.SaveRate | ref_contracts/Curve/CrvUSDController.vy:372-378 | the rate is capped and stored with the multiplier of the moment |
| ControllerContract.Controller.RemoveFromList | ref_contracts/Curve/CrvUSDController.vy:857-867 | the list after the swap-remove is the specified one |
| ControllerContract.Controller.BookRepayment | ref_contracts/Curve/CrvUSDController.vy:935-940 | loan, list, total, redeemed and balance after a repayment are the specified ones |
| ControllerContract.Controller.CreateLoan | ref_contracts/Curve/CrvUSDController.vy:659-691 | both contracts after the call are in the specified state; it reverts when the specification does |
| ControllerContract.Controller.AddCollateralBorrow | ref_contracts/Curve/CrvUSDController.vy:733-825 | both contracts after the call are in the specified state; it reverts when the specification does |
| ControllerContract.Controller.Repay | ref_contracts/Curve/CrvUSDController.vy:871-943 | both contracts after the call are in the specified state; it reverts when the specification does |
| ControllerContract.Controller.RepayExtended | ref_contracts/Curve/CrvUSDController.vy:947-1020 | both contracts after the call are in the specified state; it reverts when the specification does |
| ControllerContract.Controller.GetFRemove | ref_contracts/Curve/CrvUSDController.vy:1110-1117 | `_get_f_remove` step by step |
| ControllerContract.Controller.Liquidate | ref_contracts/Curve/CrvUSDController.vy:1119-1198 | both contracts after the call are in the specified state; it reverts when the specification does |
| ControllerContract.Controller.CollectFees | ref_contracts/Curve/CrvUSDController.vy:1415-1453 | both contracts after the call are in the specified state, and the fees returned are those of `admin_fees` |
| LendVault.RoundingFavoursVault | ref_contracts/Curve/CurveLendVault.vy:281-310 | the rounding of EIP-4626's Security Considerations: deposit mints the most shares the assets pay for, mint charges the least, withdraw burns the fewest shares worth the assets, redeem pays the most the shares are worth |
| LendVault.EntryKeepsPrice | ref_contracts/Curve/CurveLendVault.vy:377-431 | shares minted for enough assets never lower the price (total * precision + 1) / ((supply + 1000) * precision) |
| LendVault.ExitKeepsPrice | ref_contracts/Curve/CurveLendVault.vy:457-536 | shares burned for no more than they are worth never lower it |
| LendVault.SweepKeepsPrice | ref_contracts/Curve/CurveLendVault.vy:525-528 | the sweep of the last redemption keeps it if and only if a thousandth of the shares covers all assets |
| LendVault.ExitAfterEntry | ref_contracts/Curve/CurveLendVault.vy:377-536 | whoever paid for shares and gives them back for no more than they are worth gets back at most what was paid |
| VaultRuns.LoansKeepAssets | ref_contracts/Curve/CurveLendVault.vy:263-268 | no call on the market, no token transfer to it, and no passing of time, lowers the lenders' total assets |
| VaultRuns.ApplyKeepsPrice | ref_contracts/Curve/CurveLendVault.vy:377-536 | no vault call, loan, repayment, liquidation, trade, wait or token transfer to the Controller lowers the share price, except the sweep of the last redemption |
| VaultRuns.SweepPrice | ref_contracts/Curve/CurveLendVault.vy:525-528 | the sweep leaves neither assets nor shares, and lowers the price exactly when assets exceed a thousandth of the shares |
| VaultRuns.RunKeepsPrice | ref_contracts/Curve/CurveLendVault.vy:377-536 | from any state and over any history without a sweep, token transfers to the Controller included, the share price never falls |
| VaultRuns.ApplyKeepsInv | ref_contracts/Curve/CurveLendVault.vy:540-571 | every step keeps supply equal to the sum of the balances, and the market's invariants |
| VaultRuns.RunKeepsInv | ref_contracts/Curve/CurveLendVault.vy:540-571 | over any history of a new vault the balances add up to the supply and the market's invariants hold |
| VaultRuns.BurnKeepsSum | ref_contracts/Curve/CurveLendVault.vy:548-554 | burning fails only for want of balance: the supply always covers it |
| VaultEffects.DepositMeans | ref_contracts/Curve/CurveLendVault.vy:377-391 | refused only under the minimum; the receiver gets the most shares the assets pay for, the Controller the assets, and nothing else changes |
| VaultEffects.MintMeans | ref_contracts/Curve/CurveLendVault.vy:415-430 | the fewest assets that pay for the shares are charged |
| VaultEffects.WithdrawMeans | ref_contracts/Curve/CurveLendVault.vy:457-480 | goes through if and only if the owner or an allowance covers the fewest shares worth the assets, the Controller has them, and none or the minimum stays; exactly those shares and that much allowance are used up |
| VaultEffects.RedeemMeans | ref_contracts/Curve/CurveLendVault.vy:511-536 | the same for given shares, paid the most they are worth, or everything with the last shares when less than the minimum would stay |
| VaultEffects.TransferFromMeans | ref_contracts/Curve/CurveLendVault.vy:574-590 | goes through if and only if allowance and balance cover it and the receiver is allowed; both fall by exactly the shares |
| VaultEffects.ApproveMeans | ref_contracts/Curve/CurveLendVault.vy:605-615 | sets one allowance and nothing else |
| VaultEffects.RunGuards | ref_contracts/Curve/CurveLendVault.vy:457-590 | over any history in which a holder calls nothing, their shares fall by no more than what is used up of their (limited) allowances |
| VaultEffects.NobodyElseMovesShares | ref_contracts/Curve/CurveLendVault.vy:457-590 | a holder who allows nobody anything loses no shares while calling nothing |
| VaultRuns.DepositThenRedeem | ref_contracts/Curve/CurveLendVault.vy:511-536 | depositing and redeeming at once profits if and only if nobody held shares, assets were left over, and less than the minimum would stay: a test on the state and the amount before the deposit |
| VaultRuns.MintThenRedeem | ref_contracts/Curve/CurveLendVault.vy:511-536 | the same for shares bought with `mint`, also as a test before the call |
| VaultRuns.DepositThenWithdraw | ref_contracts/Curve/CurveLendVault.vy:457-480 | withdrawing at once for at most the bought shares returns at most the deposit |
| VaultRuns.LeftoverIsReached | ref_contracts/Curve/CurveLendVault.vy:263-268 | a token transfer of 5000 units to the Controller of a new vault leads to the state of that instance |
| VaultRuns.SweepProfits | ref_contracts/Curve/CurveLendVault.vy:525-528 | an instance, for an 18-decimal borrowed coin: with no shares and 5000 units left over, a deposit of 5000 goes through for 999 shares, and their redemption goes through and pays 10000 |
| VaultContract.LendingVault.ConvertToShares | ref_contracts/Curve/CurveLendVault.vy:281-294 | both roundings of the conversion to shares |
| VaultContract.LendingVault.ConvertToAssets | ref_contracts/Curve/CurveLendVault.vy:297-310 | both roundings of the conversion to assets |
| VaultContract.LendingVault.BurnShares | ref_contracts/Curve/CurveLendVault.vy:548-554 | balances and supply after a burn |
| VaultContract.LendingVault.TransferShares | ref_contracts/Curve/CurveLendVault.vy:564-571 | balances after a transfer; the vault and the empty address are refused |
| VaultContract.LendingVault.TransferFrom | ref_contracts/Curve/CurveLendVault.vy:574-590 | allowance and balances after a transfer; an infinite allowance is not used up |
| VaultContract.LendingVault.Deposit | ref_contracts/Curve/CurveLendVault.vy:377-391 | vault and market after the call, and the shares returned, are the specified ones |
| VaultContract.LendingVault.Mint | ref_contracts/Curve/CurveLendVault.vy:415-430 | vault and market after the call, and the assets returned, are the specified ones |
| VaultContract.LendingVault.Withdraw | ref_contracts/Curve/CurveLendVault.vy:457-478 | vault and market after the call, and the shares returned, are the specified ones |
| VaultContract.LendingVault.Redeem | ref_contracts/Curve/CurveLendVault.vy:511-536 | vault and market after the call, and the assets returned, are the specified ones, the sweep included |
| RewardPool.IndexKeepsSolvent | ref_contracts/Convex/CvxTokenReward.sol:903-908 | an index step grants no more than what was streamed meanwhile |
| RewardPool.CreditDue | ref_contracts/Convex/CvxTokenReward.sol:889-897 | crediting an account rounds its pending rewards down, by less than one unit |
| RewardPool.SupplyCovers | ref_contracts/Convex/CvxTokenReward.sol:956-975 | a withdrawal fails only for want of balance: the supply always covers it |
| RewardPool.NotifyKeepsSolvent | ref_contracts/Convex/CvxTokenReward.sol:1060-1074 | a new rate streams over seven days no more than the new rewards and what was left of the old ones |
| RewardDust.NotifyMeans | ref_contracts/Convex/CvxTokenReward.sol:1060-1074 | a notification starts seven days that stream all of the new rewards and of what was still to be streamed, but for less than one unit a second |
| RewardDust.QueueMeans | ref_contracts/Convex/CvxTokenReward.sol:1033-1058 | new rewards start now if and only if the period is over or less than 83 percent of them were streamed in it; otherwise all of them wait |
| RewardDust.StakeMeans | ref_contracts/Convex/CvxTokenReward.sol:914-954 | one stake and the supply grow by exactly the amount, after crediting what `earned` shows |
| RewardDust.WithdrawMeans | ref_contracts/Convex/CvxTokenReward.sol:956-999 | exactly when a withdrawal goes through, and that stake, supply and payment move by exactly what is said |
| RewardDust.GetRewardMeans | ref_contracts/Convex/CvxTokenReward.sol:1005-1021 | a claim sends exactly what `earned` shows, and to nobody else |
| RewardPool.SendSends | ref_contracts/Convex/CvxTokenReward.sol:1005-1012 | a claim sends exactly what `earned` shows after the update, and leaves nothing credited |
| RewardSharing.CallKeepsSolvent | ref_contracts/Convex/CvxTokenReward.sol:889-1074 | every call keeps everything granted and still to be streamed covered by the rewards notified |
| RewardSharing.CallKeepsReceived | ref_contracts/Convex/CvxTokenReward.sol:1028-1057 | historical plus queued rewards grow by exactly what was queued or donated, and by nothing else |
| RewardSharing.NeverOverpays | ref_contracts/Convex/CvxTokenReward.sol:903-912 | at any moment, sent plus claimable plus still to be streamed is at most historicalRewards |
| RewardSharing.SecondsStream | ref_contracts/Convex/CvxTokenReward.sol:899-908 | the rate split second by second is the closed form that the index uses between updates |
| RewardSharing.CallBehind | ref_contracts/Convex/CvxTokenReward.sol:889-1074 | one call lets an account fall behind the exact per-second share by at most one unit per own update and a 10^18th of its stake per index step, and never gets ahead |
| RewardSharing.RunRefinesSharing | ref_contracts/Convex/CvxTokenReward.sol:889-1074 | after any history, sent plus earned of an account never exceeds its exact share and trails it by less than the accumulated rounding |
| RewardSharing.RunNeverOverpays | ref_contracts/Convex/CvxTokenReward.sol:889-1074 | after any history, everything sent, claimable, to be streamed and queued adds up to at most what was received |
| RewardDust.CallLoses | ref_contracts/Convex/CvxTokenReward.sol:889-1074 | what one call may lose of the rewards: the index rounding, one unit per update, one unit a second per notification, and the stream while nobody has a stake |
| RewardDust.RunPaysAllButDust | ref_contracts/Convex/CvxTokenReward.sol:889-1074 | after any history, sent, claimable, to be streamed and queued rewards fall short of what was received by no more than those losses and one unit per account |
| RewardPoolContract.BaseRewardPool.Earned | ref_contracts/Convex/CvxTokenReward.sol:910-912 | `earned` at any time |
| RewardPoolContract.BaseRewardPool.UpdateReward | ref_contracts/Convex/CvxTokenReward.sol:889-897 | index, time, credit and paid index after the modifier |
| RewardPoolContract.BaseRewardPool.Stake | ref_contracts/Convex/CvxTokenReward.sol:914-954 | the storage after staking; zero reverts |
| RewardPoolContract.BaseRewardPool.Withdraw | ref_contracts/Convex/CvxTokenReward.sol:956-999 | the storage after both kinds of withdrawal, with or without claiming |
| RewardPoolContract.BaseRewardPool.GetReward | ref_contracts/Convex/CvxTokenReward.sol:1005-1021 | the storage after a claim, and what was sent |
| RewardPoolContract.BaseRewardPool.NotifyRewardAmount | ref_contracts/Convex/CvxTokenReward.sol:1060-1074 | rate, period and history after a notification |
| RewardPoolContract.BaseRewardPool.QueueNewRewards | ref_contracts/Convex/CvxTokenReward.sol:1033-1058 | whether new rewards start now or wait, and the revert when there is nothing to divide by |
| BoosterFees.FeesStayCapped | ref_contracts/Convex/CvxBooster.sol:919-932 | whatever is proposed, fees stay in range and within 20 percent |
| BoosterFees.ProposalMeans | ref_contracts/Convex/CvxBooster.sol:919-932 | when a proposal reverts, is taken or is ignored |
| BoosterFees.CutIsExact | ref_contracts/Convex/CvxBooster.sol:1161-1194 | within the cap nothing underflows, the parts add up to the balance, and depositors get at least 80 percent |
| BoosterFees.CutMeans | ref_contracts/Convex/CvxBooster.sol:1161-1180 | each part is its own fee's share of the balance, rounded down, and the depositors' the rest |
| BoosterFees.QueueReverts | ref_contracts/Convex/CvxTokenReward.sol:1047-1050 | queueing reverts if and only if nothing is queued on a pool in its period with nothing waiting; otherwise the pool receives the amount |
| BoosterFees.EarmarkIsExact | ref_contracts/Convex/CvxBooster.sol:1161-1194 | pools, caller and treasury receive exactly the balance found, and when the call reverts instead |
| BoosterFees.EarmarkFeeds | ref_contracts/Convex/CvxBooster.sol:1182-1194 | each of the three pools receives its own part |
| BoosterFees.SmallBalanceReverts | ref_contracts/Convex/CvxBooster.sol:1161-1194 | with the deployed fees, a balance of 9 reverts whenever the lock pool is in its reward period with nothing queued |
| BoosterFees.SmallBalanceRevertsAtOnce | ref_contracts/Convex/CvxBooster.sol:1161-1194 | three new pools, of which the lock pool was given its first rewards, whatever they are, are such pools |
| BoosterFees.Booster.SetFees | ref_contracts/Convex/CvxBooster.sol:919-932 | fees after a proposal: too much reverts, out of range changes nothing |
| BoosterFees.Booster.Split | ref_contracts/Convex/CvxBooster.sol:1164-1177 | the subtractions in the order of the code give the specified parts |
| BoosterFees.Booster.EarmarkRewards | ref_contracts/Convex/CvxBooster.sol:1161-1194 | the three pools after the call are in the specified state |
| Recap.EveryTokenCountedOnce | js-scripts/hardhat/cvgCompensation/scripts/recap.ts:82-100 | for any snapshot whose layers break down their parents' entries, with intermediaries only as those parents, leaves plus protocol owned LP equal the supply |
| Recap.IntermediariesBrokenDown | js-scripts/hardhat/cvgCompensation/scripts/recap.ts:17-30 | what intermediaries hold is exactly what the later layers break down |
| Recap.ScriptAssertions | js-scripts/hardhat/cvgCompensation/scripts/recap.ts:111-121 | the ten assertions before `addLp` say exactly that the layers of both pools match |
| Recap.CreditsWithinPool | js-scripts/hardhat/cvgCompensation/scripts/recap.ts:94-100 | whenever `addLp` succeeds, the CVG it credits is at most the CVG in the pool |
| Recap.FloorsPerLayer | js-scripts/hardhat/cvgCompensation/scripts/recap.ts:153-157 | an owner's credit, floored layer by layer, is at most the CVG of all their LP floored once, and falls short by less than the number of layers |
| Recap.LayersRecord | js-scripts/hardhat/cvgCompensation/scripts/recap.ts:82-100 | the LP recap records what each address has in each layer, and nobody who holds for others or for the protocol is credited |
| Recap.TanSplit | js-scripts/hardhat/cvgCompensation/scripts/recap.ts:132-147 | the TAN handed out is at most the airdrop, and less than one unit per row above the dust stays behind if and only if there is such a row |
| Recap.AboveDustMeans | js-scripts/hardhat/cvgCompensation/scripts/recap.ts:134-138 | the rows that take part are those of at least one whole token, as often as they occur |
| Recap.Script.Add | js-scripts/hardhat/cvgCompensation/scripts/recap.ts:55-60 | a credit is added once; a negative amount fails and changes nothing |
| Recap.Script.AddRows | js-scripts/hardhat/cvgCompensation/scripts/recap.ts:84-96 | the loop over one layer counts each of its rows into both dictionaries and sums |
| Recap.Script.AddLp | js-scripts/hardhat/cvgCompensation/scripts/recap.ts:82-100 | both dictionaries after the loops, and whether the final assertion holds |
| Positions.GenerateUserPosition | js-scripts/hardhat/USG/contexts/LiquidationContext.ts:483-503 | when a wish is granted, how much, and that it lies between the minimum and what is left under the cap |
| Positions.TryMarket | js-scripts/hardhat/USG/contexts/LiquidationContext.ts:530-553 | one user in one market: the plan stays consistent, only this position is added, and the user is served unless passed over or less than the minimum is left |
| Positions.TryMarkets | js-scripts/hardhat/USG/contexts/LiquidationContext.ts:527-553 | one user in every market: what was accepted before stays, every visit of the user is settled unless the position limit is hit, and the plan stays exact |
| Positions.BuildParams | js-scripts/hardhat/USG/contexts/LiquidationContext.ts:506-557 | for any random choices, drawn anew at every visit: tracked debt is the initial debt plus every accepted borrow, each within minimum, wish and what was left; cap and position limit hold; and unless that limit is hit every visit was skipped by chance, accepted, or found less than the minimum left |
| Positions.OverCapStaysEmpty | js-scripts/hardhat/USG/contexts/LiquidationContext.ts:534-537 | a market that starts over its cap gets no position |
| Positions.DebtIsInTheParams | js-scripts/hardhat/USG/contexts/LiquidationContext.ts:506-557 | with no user and no market listed twice, the tracked debt of a market is its initial debt plus the borrows in the returned parameters |
| Routes.FormatRoute | js-scripts/hardhat/USG/routing/Curve/CurveRouteService.ts:155-187 | display, ends and single swaps of a row, read two cells at a time |
| Routes.RouteEnds | js-scripts/hardhat/USG/routing/Curve/CurveRouteService.ts:155-187 | a route leads from the first cell of its row to the last by swaps of every second cell through the one between; an even row is read one cell too far |
| Routes.RoundTrip | js-scripts/hardhat/USG/routing/Curve/CurveRouteService.ts:155-187 | an odd row is read back from its single swaps if and only if it has more than one cell |
| Routes.Chained | js-scripts/hardhat/USG/routing/Curve/CurveRouteService.ts:155-187 | each swap starts where the one before it ended |
| Routes.ReverseChain | js-scripts/hardhat/USG/routing/Curve/CurveRouteService.ts:146-150 | the reversed row gives the same swaps in reverse order, each the other way round |
| Routes.LoadRow | js-scripts/hardhat/USG/routing/Curve/CurveRouteService.ts:145-150 | a row gives its route and, reversed in place, the reverse route |
| Routes.LoadRoutes | js-scripts/hardhat/USG/routing/Curve/CurveRouteService.ts:141-153 | two routes per row in order; every input row is left reversed |
| RouteHydration.FormatSingleSwaps | js-scripts/hardhat/USG/routing/Curve/CurveRouteService.ts:189-209 | the nested loops keep the first swap of each label |
| RouteHydration.SinglesCover | js-scripts/hardhat/USG/routing/Curve/CurveRouteService.ts:189-209 | no label is repeated, every swap's label is there, and nothing else is |
| RouteHydration.LabelsDistinguish | js-scripts/hardhat/USG/routing/Curve/CurveRouteService.ts:195-195 | labels tell swaps apart when no name holds the arrow's sign |
| RouteHydration.FindAllMeans | js-scripts/hardhat/USG/routing/Curve/CurveRouteService.ts:421-446 | a route is found whole or not at all, by the first verified swap with each label |
| RouteHydration.HydrateRoute | js-scripts/hardhat/USG/routing/Curve/CurveRouteService.ts:416-461 | display, addresses and parameters of one route, or its refusal |
| RouteHydration.HydratedMatchesRow | js-scripts/hardhat/USG/routing/Curve/CurveRouteService.ts:413-481 | a hydrated route shows the trail of its row and holds the input, then pool and output of each verified swap in order, padded with zero addresses to 11, and their parameters, padded to 5 |
| RouteHydration.HydratedResolvesRow | js-scripts/hardhat/USG/routing/Curve/CurveRouteService.ts:155-481 | when the verified swaps come from `formatSingleSwaps` and no name holds the arrow's sign, the k-th address of a hydrated route is the address of the k-th cell of its row |
| RouteHydration.RoutesKeepOrder | js-scripts/hardhat/USG/routing/Curve/CurveRouteService.ts:413-481 | each route ends up among the failures or under its pair of tokens, after the earlier routes there |
| RouteHydration.OnlyRoutesBetween | js-scripts/hardhat/USG/routing/Curve/CurveRouteService.ts:413-481 | what is listed between two tokens are hydrated routes between them |
| RouteHydration.HydrateRawRoutes | js-scripts/hardhat/USG/routing/Curve/CurveRouteService.ts:413-481 | failures in order, and for each pair of tokens its hydrated routes in order |

## Left out

- 256-bit overflow of checked multiplications and additions: it only adds reverts, so the modelled histories include all real ones, and theorems that a call goes through hold up to such overflow; bitwise `|` of disjoint halves is an addition.
- Positions.DebtIsInTheParams: asks that no user and no market is listed twice; otherwise a later position replaces an earlier one in the parameters, and the tracked debt is the sum of all accepted ones (`BuildParams`).
- ControllerContract.Controller.CreateLoan: promises nothing about the fields when it reverts, because the EVM discards the writes of a reverted call; the same holds for the other methods of the Controller, vault, reward pool and booster.
- AmmContract.Amm.Exchange: asks for the AMM's invariant, which every history keeps (`RunKeepsInv`), to know that its transfers succeed.
- The exponential in `_p_oracle_up`, `wad_ln`, `ln_int`, and with them `max_p_base`, `max_borrowable`, `min_collateral` and the precision of health: their results are arguments of the model.
- What a callback does to the AMM while a leveraged call is under way: the call is one step, with what the callback delivered as arguments; the `_extended` creations and borrowings are their plain forms with more collateral.
- `get_xy_up`, `get_amount_for_price`, APR views, `pricePerShare`, previews and max views of the vault, `increaseAllowance` and `decreaseAllowance`: views, or variations of modelled members.
- A vault withdrawal whose receiver is the Controller itself, which would only raise the price.
- Access control, constructors beyond their initial state, admin setters other than the fee caps, reentrancy locks, liquidity-mining callbacks, event logs and ERC-20 return values.
- Liquidation discounts of single users: they enter only through health, which is an argument.
- Convex `extraRewards`, stashes, voting, pool creation and shutdown; that reward and staking tokens arrive is taken from their contracts.
- Three different reward pools behind one booster are assumed to be different contracts.
- `lpOf` reads only `balance` where the sums also accept `value`: the parents' rows are taken to carry a balance.
- Sorting, formatting and file output of the recap, the columns other than LP, and the fixed addresses and totals of the snapshot.
- The simple mode of the position generator, deposits as decimal strings, and market data fetched from contracts.
- Trying out swaps on a fork, CSV download and parsing, and the table of asset addresses, which is a function argument.
- Deployment, impersonation, spreadsheets, databases, storage-slot helpers and route ranking: input and output around these cores.
