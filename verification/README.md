# Proofs about the stablecoin market maker

A Dafny model of the arithmetic and the state machines of this repository, with
proofs. `dafny verify dfyconfig.toml` checks everything.

**The vault contract** (`foundry-deploy/src/StabilizationVault.sol`)

- `IntegerSqrt`, `PriceConversion`: the Newton root and the conversion between
  prices and Q64.96 root prices.
- `PoolModel`, `SwapMath`, `TickWalk`, `ReachTarget`: a pool with tick spacing 1,
  one rounded swap step, and the loop over initialised ticks for either
  direction flag. `Walk` is the specification of the loop when its flag agrees
  with the price move.
- `TickSum`, `WalkRefinement`, `Crossings`: an unrounded reference cost that adds
  up every tick at its own liquidity, what the walk owes to it, and the same cost
  summed over the crossed ticks.
- `SwapQuote`, `FeeOnSale`, `PriceGuard`, `ArbitrageQuote`: the quote as it is
  wired, how far its sale gets at the pool's fee, the deviation guard, and what an
  arbitrage sells.
- `VaultModel`, `VaultCalls`, `VaultSolvency`, `StabilizationVault`: the calls as
  steps on values, when each goes through, the books of whole runs, and the contract as a class that carries its
  run of calls, whose methods perform those steps and keep its books balanced.

**The bot**

- `LiquidityAmounts`, `Tiers`, `Allowance` (`pkg/executor/service.go`): token
  amounts of a range, the three tiers, the approval protocol.
- `RiskEngine` (`pkg/risk/engine.go`): the breaker's few fields against the full
  history of checks, records and resets.
- `SwapSizing`, `Sales`, `Rebalancer`, `BotLoop` (`pkg/rebalancer/service.go`,
  `main.go`): decisions, retries, clamps, and runs of the bot's loops.

`Rounding`, `Powers`, `Evm` and `Options` hold division facts, powers, integer widths
and optional values.

## Where the code differs from its documentation

The model follows the code.

- `amountInWithFee` contains no fee: the fee amount of a step is dropped
  (lines 173-181), and no fee changes the rest: `UnlimitedStepReaches`. The pool
  takes its fee from the sale all the same, so the quote stops short of its target
  unless the least amount pays for it: `FeeLeavesShort`, `FlatPoolStopsShort`.
- `calculateSwapAmount` promises a walk over ticks (line 250 repeats it), but the
  flag it passes opposes the price move, so the walk jumps: `QuoteIsOneStep`,
  `QuoteCoversCost`, `QuoteFallsShort`. The least amount uses the decimals of the
  token that is not paid: `ArbitrageAmount`.
- The vault compares whole-number prices, so basis points do not matter near the
  peg: `GuardOnRootPrice`, `GuardAtPeg`.
- The comment at line 448 of `pkg/executor/service.go` takes half the tick as the
  exponent; the loop uses the whole tick. Ticks at or below zero are all priced at
  2^96, so amounts can be negative: `SignOfAmounts`, `NegativeTicksGoNegative`.
- The repository's README triggers the breaker on the TWAP and rebalances
  immediately on a deviation. The code trips on the spot price, checks the
  interval first, and skips the risk check on large deviations:
  `CheckRisk`, `ExecuteRebalance`, `ConsultedIffSmall`. Which thresholds let a swap
  follow a passing check at all: `ConsultedSaleIff`; that the shipped ones let one
  happen without any: `ShippedUncheckedSale`.
- The repository's README gives the breaker 15 minutes. Only a check resets it, and
  the alert stops the bot, which then makes none: `TripForGood`.
- Three tier mints can need two approvals of one token even when core is at least
  mid + tail: `ThreeMintsOneApproval` gives the exact condition.

## Model

| member | source | states |
|---|---|---|
| IntegerSqrt.FloorSqrtBounds | foundry-deploy/src/StabilizationVault.sol:224-234 | the reference root exists for every natural number: its square does not exceed it and the next square does |
| IntegerSqrt.NewtonStaysAbove | foundry-deploy/src/StabilizationVault.sol:229-232 | a Newton step never falls below the root |
| IntegerSqrt.NewtonHalves | foundry-deploy/src/StabilizationVault.sol:229-232 | above the root a Newton step at least halves the distance to it |
| IntegerSqrt.Sqrt | foundry-deploy/src/StabilizationVault.sol:224-234 | only 2^256-1 reverts; every other uint256 gives the exact floor root, within bit-length iterations and without overflow |
| IntegerSqrt.BitLengthIsLogarithm | foundry-deploy/src/StabilizationVault.sol:224-234 | the bit length that bounds the iterations is the number's place between two powers of two |
| Powers.PowerJoins | foundry-deploy/src/StabilizationVault.sol:130-130 | exponents add up and the first power is the base, which fixes `10 ** decimals` |
| Powers.DecimalsFitIff | foundry-deploy/src/StabilizationVault.sol:130-130 | `10 ** decimals` fits 256 bits exactly up to 77 decimals |
| PriceConversion.ComputeSqrtPriceX96 | foundry-deploy/src/StabilizationVault.sol:213-222 | the conversion never reverts and is the floor root of the shifted price, with the shift's and the cast's truncation |
| PriceConversion.OnlyLow64BitsMatter | foundry-deploy/src/StabilizationVault.sol:220-221 | the conversion depends on the low 64 bits of the price only |
| PriceConversion.ConversionIsExact | foundry-deploy/src/StabilizationVault.sol:216-222 | below 2^64 neither truncation loses anything and the root is below 2^128 |
| PriceConversion.ConversionIsMonotone | foundry-deploy/src/StabilizationVault.sol:216-222 | strictly larger prices below 2^64 have strictly larger roots |
| PriceConversion.ConversionNearlyInverts | foundry-deploy/src/StabilizationVault.sol:114-123 | squaring the root and shifting back gives the price or one less, and the price exactly when it is a perfect square |
| PriceConversion.PowersOfFourCancel | foundry-deploy/src/StabilizationVault.sol:216-222 | a number times a power of four is a perfect square only if the number is |
| PriceConversion.DirectionDecided | foundry-deploy/src/StabilizationVault.sol:114-123 | comparing the target with the floored price decides on which side of the target's root the pool is |
| PriceConversion.FloorPriceComputed | foundry-deploy/src/StabilizationVault.sol:114-115 | squaring the root price overflows exactly from 2^128 on |
| SwapMath.StepRounding | foundry-deploy/src/StabilizationVault.sol:170-179 | a step costs its exact worth rounded up once, in either token, despite two nested roundings for token0 |
| SwapMath.StepIsWorthAndGain | foundry-deploy/src/StabilizationVault.sol:170-179 | a step charges exactly its worth plus the shortfall of its numerator to the next multiple of its denominator, over that denominator |
| SwapMath.StepMonotone | foundry-deploy/src/StabilizationVault.sol:170-179 | a farther step target in the same direction never costs less |
| SwapMath.UnlimitedStepReaches | foundry-deploy/src/StabilizationVault.sol:170-181 | with the largest int256 as its input every step reaches its target at any fee below the whole, so the summed inputs are the same for every fee and contain none |
| SwapMath.PayableIff | foundry-deploy/src/StabilizationVault.sol:170-179 | an input reaches a step's target at a fee exactly when it covers the step and the fee on it, and exactly when the input less the fee's share does |
| PoolModel.StopBelow | foundry-deploy/src/StabilizationVault.sol:199-211 | the next stop downwards is the nearest initialised tick or the start of the 256-tick word |
| PoolModel.StopAbove | foundry-deploy/src/StabilizationVault.sol:199-211 | the next stop upwards is the nearest initialised tick or the end of the 256-tick word |
| PoolModel.TickAt | foundry-deploy/src/StabilizationVault.sol:188-190 | the tick of a price is the one whose ratio is the last not above it |
| TickWalk.StopAhead | foundry-deploy/src/StabilizationVault.sol:158-164 | the clamped stop lies in the walk's direction with no initialised tick before it |
| TickWalk.StepFacts | foundry-deploy/src/StabilizationVault.sol:158-193 | after a step the price is again inside its tick, and a step that does not arrive moves the tick strictly towards the target |
| TickWalk.StepKeepsLiquidity | foundry-deploy/src/StabilizationVault.sol:184-190 | the running liquidity stays the sum of liquidityNet up to the running tick, whether a tick is crossed or not |
| TickWalk.Walk | foundry-deploy/src/StabilizationVault.sol:158-196 | the walk ends inside the final tick at the target price |
| TickWalk.StepsBound | foundry-deploy/src/StabilizationVault.sol:158-193 | a walk takes at most one step per tick of the range and two more |
| TickWalk.WalkFits | foundry-deploy/src/StabilizationVault.sol:181-181 | the summed input of a walk, and of one more step, never overflows 256 bits |
| TickSum.CostSplits | foundry-deploy/src/StabilizationVault.sol:142-197 | the tick-by-tick cost of an interval is the sum over its parts |
| WalkRefinement.WalkRefinesTickSum | foundry-deploy/src/StabilizationVault.sol:142-197 | a walk's input is at least the tick-by-tick cost and exceeds it by at most one rounding per step, (2^96-1)/2^96 for token1 and one unit for token0 |
| WalkRefinement.WalkIsCostAndGains | foundry-deploy/src/StabilizationVault.sol:142-197 | a walk's input is exactly the tick-by-tick cost plus the closed-form rounding gain of each step |
| WalkRefinement.GainsBelowSteps | foundry-deploy/src/StabilizationVault.sol:142-197 | those gains are never negative and together strictly less than one unit per step, in either token |
| WalkRefinement.AllowanceIsProduct | foundry-deploy/src/StabilizationVault.sol:181-181 | that allowance is the number of steps times the rounding of one step |
| WalkRefinement.WalkIsMonotone | foundry-deploy/src/StabilizationVault.sol:158-193 | from one pool state a farther target in the same direction never needs less input |
| WalkRefinement.StepsArePauses | foundry-deploy/src/StabilizationVault.sol:158-193 | the number of steps is at most one more than the initialised ticks and word boundaries between the two ticks |
| ReachTarget.AmountInToReachTarget | foundry-deploy/src/StabilizationVault.sol:142-197 | from any current price the loop reverts exactly without liquidity, at a target that is the pool's price, or on a jump to the largest ratio; otherwise it ends on the target with the summed input, final tick and final liquidity of its first step and the walk from there |
| ReachTarget.ReachedInTick | foundry-deploy/src/StabilizationVault.sol:142-197 | from inside the pool's tick that is the whole walk with its tick and that tick's liquidity, or, against the flag, one step at the starting liquidity |
| ReachTarget.RefusedInTick | foundry-deploy/src/StabilizationVault.sol:188-190 | from inside the pool's tick the library refuses exactly a rise to the largest ratio with the flag set |
| ReachTarget.OppositeFlagJumps | foundry-deploy/src/StabilizationVault.sol:166-168 | against its flag the clamp puts the first step target on the final target |
| Crossings.CostByCrossings | foundry-deploy/src/StabilizationVault.sol:184-187 | summation by parts: the tick-by-tick cost from a tick on is its starting liquidity all the way plus liquidityNet of each later tick for the rest of the way |
| Crossings.CostUpwards | foundry-deploy/src/StabilizationVault.sol:184-187 | the exact cost of a rise is one step on the starting liquidity plus what each crossed tick adds |
| Crossings.CostDownwards | foundry-deploy/src/StabilizationVault.sol:184-187 | the exact cost of a fall is one step on the starting liquidity less what each crossed tick had added |
| SwapQuote.CalculateSwapAmount | foundry-deploy/src/StabilizationVault.sol:109-132 | the view computes the quote or reverts as its specification says, truncations and decimals overflow included |
| SwapQuote.RootInRange | foundry-deploy/src/StabilizationVault.sol:122-126 | a target has a root some tick covers exactly when it is no multiple of 2^64 |
| SwapQuote.QuoteIsOneStep | foundry-deploy/src/StabilizationVault.sol:109-132 | for every target below 2^64 the quote is one step on the starting liquidity, or one unit by the decimals the flag picks; and exactly when it reverts |
| SwapQuote.LeastAmountByDirection | foundry-deploy/src/StabilizationVault.sol:128-131 | the least amount is by the decimals of token0 on a rise and of token1 on a fall, at least 1000000 at 6 of them and 10^18 at 18, and there are at most 77 |
| SwapQuote.LeastAmountQuoted | foundry-deploy/src/StabilizationVault.sol:128-131 | over every tick table a pool whose step is 300000 quotes 300000, 1000000 and 10^18 at 0, 6 and 18 decimals |
| SwapQuote.FlagAgreesIff | foundry-deploy/src/StabilizationVault.sol:114-126 | over all uint256 targets the flag agrees with the price move exactly for a target of at least 2^64 whose truncated root lies below the price |
| SwapQuote.HighTargetQuote | foundry-deploy/src/StabilizationVault.sol:109-132 | a target of at least 2^64 makes the quote a full walk when its truncated root lies below the price and one step otherwise; and exactly when it reverts |
| SwapQuote.QuoteError | foundry-deploy/src/StabilizationVault.sol:118-126 | what the curve takes for the move, before fees, parts from the exact worth of the one quoted step by exactly what the crossed ticks contribute |
| SwapQuote.StepCoversCost | foundry-deploy/src/StabilizationVault.sol:118-126 | before fees the quoted step covers what the curve takes exactly when the crossed ticks contribute at most the step's rounding gain, a closed form of liquidity, price and target; it is less than the walk over the ticks exactly when that gain is less than the contribution plus the walk's own gains |
| SwapQuote.QuoteCoversCost | foundry-deploy/src/StabilizationVault.sol:109-132 | before fees the returned quote covers what the curve takes exactly when that contribution is at most the rounding gain or at most what the least amount adds to the step's worth; otherwise the walk needs more than the quote |
| SwapQuote.DeepeningCoveredIff | foundry-deploy/src/StabilizationVault.sol:118-126 | over every tick table, in a pool at price 1 that gains liquidity at one tick, one step covers the fee-free cost of a rise exactly when it stops at that tick or the gained liquidity times the rest of the way is at most the shortfall of the step's numerator to a multiple of 2^96 |
| SwapQuote.QuoteFallsShort | foundry-deploy/src/StabilizationVault.sol:250-251 | over every tick table and in all such pools, the quote is less than the walk needs whenever the gained liquidity's share of the rise reaches one unit |
| SwapQuote.QuoteOfThreeForSeventeen | foundry-deploy/src/StabilizationVault.sol:250-251 | over every table whose tick 1 is priced at most 4, one such pool quotes 3000000 for a rise whose walk needs at least 17000000 |
| FeeOnSale.ArrivesIff | foundry-deploy/src/StabilizationVault.sol:254-265 | a sale along a path at a fee arrives, paying input and fee step by step, exactly when it brings all inputs and fees at once, and something more when the last step is free |
| FeeOnSale.HundredPips | foundry-deploy/src/StabilizationVault.sol:170-179 | at a fee of 100 millionths a sale of 3000000 leaves 2999700 and a step of 3000000 needs 301 more |
| FeeOnSale.FeesExact | foundry-deploy/src/StabilizationVault.sol:254-265 | inputs and fees together are exactly the inputs over the share the fee leaves, plus the closed-form roundings of the fees |
| FeeOnSale.QuoteArrivesIff | foundry-deploy/src/StabilizationVault.sol:109-132 | selling the quote at the pool's fee reaches the target exactly when the larger of one step and the least amount, less the fee's share, pays the step's worth, the crossed ticks, the walk's roundings and those of the fees |
| FeeOnSale.OneStretchArrivesIff | foundry-deploy/src/StabilizationVault.sol:109-132 | with no stop before the target the sale arrives exactly when there is no fee or the least amount, less the fee, covers the step |
| FeeOnSale.FeeLeavesShort | foundry-deploy/src/StabilizationVault.sol:109-132 | at any positive fee a quote above what the least amount pays for stops short, unless the crossed ticks take liquidity away |
| FeeOnSale.FlatPoolStopsShort | foundry-deploy/src/StabilizationVault.sol:250-265 | over every tick table and at every positive fee, a pool with no liquidity to cross quotes 3000000 for a rise that takes exactly that before fees, and the sale stops short |
| PriceGuard.GuardIgnoresThreshold | foundry-deploy/src/StabilizationVault.sol:242-244 | while target times threshold is at most 10000 the guard only asks whether the floored price differs from the target, and beyond that no longer |
| PriceGuard.GuardIff | foundry-deploy/src/StabilizationVault.sol:242-244 | in general the guard passes exactly for a positive target when threshold times target is at most ten thousand times the whole-number deviation |
| PriceGuard.GuardOnRootPrice | foundry-deploy/src/StabilizationVault.sol:239-244 | on root prices the guard then passes exactly outside [target, target+1), whatever the threshold |
| PriceGuard.GuardAtPeg | foundry-deploy/src/StabilizationVault.sol:239-244 | one unit of root price below the peg passes at every allowed threshold; a price above 1.9 never does |
| ArbitrageQuote.SoldTokenPays | foundry-deploy/src/StabilizationVault.sol:246-251 | the quoted step pays with the token sold unless the floored price equals the target |
| ArbitrageQuote.ArbitrageAmount | foundry-deploy/src/StabilizationVault.sol:236-257 | the amount approved and sold, with the token whose decimals floor it, and when it is priced in the wrong token |
| ArbitrageQuote.ArbitrageIff | foundry-deploy/src/StabilizationVault.sol:236-257 | an arbitrage may sell exactly for the owner, breaker down, at a price below 2^128 off the target's root, with liquidity, a positive target and a least amount that fits, a deviation that reaches the threshold, and a balance of the token sold that covers the larger of step and least amount |
| ArbitrageQuote.SellsWhatFalls | foundry-deploy/src/StabilizationVault.sol:246-248 | above a zero threshold the token sold is token0 exactly when the price stands above the target's root |
| ArbitrageQuote.OtherHoldingIsFree | foundry-deploy/src/StabilizationVault.sol:253-254 | the holding of the other token changes nothing |
| ArbitrageQuote.SwapIff | foundry-deploy/src/StabilizationVault.sol:254-281 | the swap goes through exactly when the router takes at most the amount and reports an output; it comes out of the token sold and both reserves become the balances |
| ArbitrageQuote.ArbitrageStepIff | foundry-deploy/src/StabilizationVault.sol:236-285 | an arbitrage goes through exactly when it may sell and its swap does |
| ArbitrageQuote.ArbitrageStopsShort | foundry-deploy/src/StabilizationVault.sol:236-265 | at any positive fee what an arbitrage sells stops short under the same conditions, in every vault state in which it may sell |
| ArbitrageQuote.StuckAtRoot | foundry-deploy/src/StabilizationVault.sol:236-285 | with the pool exactly at the target's root every arbitrage reverts |
| ArbitrageQuote.GuardAtRoot | foundry-deploy/src/StabilizationVault.sol:239-244 | at that root the guard sees a deviation exactly when the target is no perfect square |
| StabilizationVault.Vault.constructor | foundry-deploy/src/StabilizationVault.sol:62-77 | a new vault has no reserves, an open breaker, threshold 20 and target 1, and its books balance |
| StabilizationVault.Vault.Deposit | foundry-deploy/src/StabilizationVault.sol:79-86 | performs the deposit step or reverts with no effect; either way the contract still holds what the run of its calls left, and its books balance |
| StabilizationVault.Vault.Withdraw | foundry-deploy/src/StabilizationVault.sol:88-96 | performs the withdrawal step or reverts with no effect, and keeps the books balanced |
| StabilizationVault.Vault.PlanArbitrage | foundry-deploy/src/StabilizationVault.sol:236-257 | the checks before the swap, the token sold and the amount approved |
| StabilizationVault.Vault.SwapAndSettle | foundry-deploy/src/StabilizationVault.sol:254-284 | at most the approved amount leaves, and both reserves become the real balances |
| StabilizationVault.Vault.ExecuteArbitrage | foundry-deploy/src/StabilizationVault.sol:236-285 | performs the arbitrage step or reverts with no effect, and keeps the books balanced |
| StabilizationVault.Vault.TriggerCircuitBreaker | foundry-deploy/src/StabilizationVault.sol:287-290 | only the owner raises the breaker |
| StabilizationVault.Vault.ReleaseCircuitBreaker | foundry-deploy/src/StabilizationVault.sol:292-294 | only the owner lowers the breaker |
| StabilizationVault.Vault.SetRebalanceThresholdBps | foundry-deploy/src/StabilizationVault.sol:296-300 | only the owner sets a threshold, of at most 1000 |
| StabilizationVault.Vault.SetTargetPrice | foundry-deploy/src/StabilizationVault.sol:302-305 | only the owner sets the target, unchecked |
| StabilizationVault.Vault.EmergencyWithdraw | foundry-deploy/src/StabilizationVault.sol:315-318 | sends any token away and leaves the reserves as they were; the books record the drain |
| VaultCalls.DepositIff | foundry-deploy/src/StabilizationVault.sol:79-86 | a deposit goes through exactly for the owner, with something to deposit, wallet and own allowance covering each token and reserves that fit; it moves the amounts from wallet to balance and reserve and nothing else |
| VaultCalls.WithdrawIff | foundry-deploy/src/StabilizationVault.sol:88-96 | a withdrawal goes through exactly for the owner, with something to withdraw, within reserves and balances, and moves the amounts back |
| VaultCalls.EmergencyWithdrawIff | foundry-deploy/src/StabilizationVault.sol:315-318 | an emergency withdrawal goes through exactly for the owner, with a recipient, within the balance; only the named token's balance and its recipient change |
| VaultCalls.OtherTokensAreFree | foundry-deploy/src/StabilizationVault.sol:315-318 | another token leaves the vault's state as it was |
| VaultCalls.SettersIff | foundry-deploy/src/StabilizationVault.sol:287-305 | breaker, threshold and target change for the owner alone, and only the threshold is bounded, by 1000 |
| StabilizationVault.CoveredUnlessDrained | foundry-deploy/src/StabilizationVault.sol:79-318 | in every reachable state of the contract each balance covers its reserve exactly when no more was drained than donated since the last arbitrage |
| VaultSolvency.BooksBalance | foundry-deploy/src/StabilizationVault.sol:79-285 | after every run each balance is the sum of all flows, and it differs from the reserve by exactly the donations less the emergency withdrawals since the last successful arbitrage |
| VaultSolvency.SolventUnlessDrained | foundry-deploy/src/StabilizationVault.sol:79-318 | the balance covers the reserve exactly when no more was drained than donated since the last arbitrage; the shortfall never exceeds the drain |
| VaultSolvency.ReservesAreFlows | foundry-deploy/src/StabilizationVault.sol:79-285 | without donations and emergency withdrawals reserve and balance are deposits less withdrawals plus swap changes |
| VaultSolvency.ArbitrageRestoresEquality | foundry-deploy/src/StabilizationVault.sol:272-281 | a successful arbitrage makes reserves equal balances from any state |
| VaultSolvency.FullWithdrawal | foundry-deploy/src/StabilizationVault.sol:88-96 | the owner can withdraw all reserves exactly when the books cover both tokens |
| VaultSolvency.WithdrawUndoesDeposit | foundry-deploy/src/StabilizationVault.sol:79-96 | withdrawing what was just deposited restores the whole state |
| VaultSolvency.BreakerStopsSwaps | foundry-deploy/src/StabilizationVault.sol:236-294 | while the breaker is up and not released no run swaps anything |
| LiquidityAmounts.PriceLoop | pkg/executor/service.go:444-456 | the loop computes the tick price, and nothing for ticks at or below zero |
| LiquidityAmounts.TickPriceError | pkg/executor/service.go:449-456 | after n rounds the accumulated rounding lies between 0 and 10000*(10001^n-10000^n) over 10000^n |
| LiquidityAmounts.TickPriceMonotone | pkg/executor/service.go:449-456 | tick prices never fall with the tick and rise strictly above tick zero |
| LiquidityAmounts.CalculateTokenAmounts | pkg/executor/service.go:438-505 | the loops and branches compute the specified amounts for all integers |
| LiquidityAmounts.AmountsExact | pkg/executor/service.go:475-502 | for every positive liquidity and price, every pair of ticks and every current tick, each amount by itself is the largest integer on its side of the curve, taken at the price or, outside the range, at the range's own end, with no bound by the tick prices |
| LiquidityAmounts.AmountsOnCurve | pkg/executor/service.go:491-502 | in range the virtual reserves never exceed the curve, and one more unit of each token would |
| LiquidityAmounts.OneTokenOnCurve | pkg/executor/service.go:477-490 | out of range the position is all token0 below and all token1 above, at the intercept of the same curve up to one unit |
| LiquidityAmounts.SignOfAmounts | pkg/executor/service.go:491-502 | in-range amounts are non-negative exactly when the price lies between the computed tick prices |
| LiquidityAmounts.NegativeTicksGoNegative | pkg/executor/service.go:449-502 | for a range at or below tick zero both amounts are non-negative only at the root price 2^96 |
| LiquidityAmounts.OutOfRangeAdditive | pkg/executor/service.go:477-490 | amounts over adjacent ranges add up to the whole or one less, for both tokens and any liquidity |
| Tiers.GetTierPositions | pkg/executor/service.go:508-561 | core, mid and tail in that order and by name, each over its own range, with failed reads as zero |
| Tiers.Int32IsCongruent | pkg/executor/service.go:533-538 | a tick sum wraps to the one 32-bit number congruent to it |
| Tiers.TierExact | pkg/executor/service.go:508-557 | where ticks fit a tier is its number of ticks to either side of the pool's, at the pool's liquidity and price; a failed read of liquidity or price leaves both amounts zero, of the tick tick zero |
| Tiers.NestedTiersHoldMore | pkg/executor/service.go:533-552 | a wider tier holds at least as much of both tokens once the narrower one is in range |
| Allowance.Approvals.ApproveToken | pkg/executor/service.go:228-263 | approves twice the amount only when short; a mined approve counts as done whatever its status |
| Allowance.Approvals.ExecuteSwap | pkg/executor/service.go:265-304 | approves ten times the input, goes on when that fails, and reports the receipt's status |
| Allowance.AddLiquidity | pkg/executor/service.go:157-226 | both approvals precede the mint, and a failed one stops it |
| Allowance.MintPairSplits | pkg/executor/service.go:169-204 | without failures each token goes through its own approval and pull |
| Allowance.ApproveExact | pkg/executor/service.go:228-263 | for every answer of the node: sent exactly when read and short, allowance moved exactly by a mined success, to twice the amount, success reported exactly when covered or mined |
| Allowance.ReportedApprovalCovers | pkg/executor/service.go:228-263 | a reported approval fails to cover the amount exactly after a mined failure; one reported as failed may cover it, exactly after a failed read or a lost receipt |
| Allowance.SwapSpendsIff | pkg/executor/service.go:265-304 | a swap spends its input exactly when the transaction succeeds within the allowance, and reports it exactly when the receipt arrives as well |
| Allowance.MintPairIff | pkg/executor/service.go:157-190 | a mint goes through exactly with both approvals reported and both allowances; a failed first approval leaves the second token alone |
| Allowance.SwapStartsCovered | pkg/executor/service.go:267-271 | with a successful approval every swap starts with ten times its input allowed |
| Allowance.ApprovalsPerRun | pkg/executor/service.go:228-304 | n swaps of one size, the first k of them covered, send at most ceil((n-k)/11) approvals |
| Allowance.AtMostOneApprovalInEleven | pkg/executor/service.go:228-304 | any run of n swaps of one size sends at most ceil(n/11) approvals |
| Allowance.ApprovalsExact | pkg/executor/service.go:228-304 | when all swaps succeed the count is exactly ceil((n-k)/11) |
| Allowance.ThreeMintsOneApproval | pkg/api/service.go:324-357 | with core at least mid + tail, one approval per token is enough exactly when the allowance does not cover core alone or tail is at most mid |
| Allowance.TwoApprovals | pkg/api/service.go:324-357 | amounts 10, 1 and 9 from an allowance of 10 need two approvals |
| RiskEngine.LastTripDecides | pkg/risk/engine.go:59-82 | among all trips in the history only the last one decides whether any is recent |
| RiskEngine.BreakerAnswers | pkg/risk/engine.go:70-82 | the flag and start time say exactly whether some trip is less than the duration ago |
| RiskEngine.CheckRefines | pkg/risk/engine.go:50-111 | the few fields stay a faithful summary of the history across a check and give the verdict the full history gives |
| RiskEngine.RecordRefines | pkg/risk/engine.go:137-169 | likewise across every record and daily reset |
| RiskEngine.ReportInNumbers | pkg/risk/engine.go:50-111 | reason, permission, severity and both flags of a report from basis points, the history's trips within minutes of sixty seconds, and losses since the last reset |
| RiskEngine.FifteenMinutes | pkg/risk/engine.go:70-80 | after the last trip a breaker of 15 minutes refuses checks within the threshold for 900000000000 ns, and from then on no more |
| RiskEngine.ResetForgets | pkg/risk/engine.go:165-169 | losses and trades before a daily reset do not count after it |
| RiskEngine.RecordCounts | pkg/risk/engine.go:137-146 | each record adds exactly its loss, its trade or its failed trade |
| RiskEngine.Engine.CheckRisk | pkg/risk/engine.go:50-111 | reports the verdict of the whole history with its severity and flags, and records the check |
| RiskEngine.Engine.RecordTrade | pkg/risk/engine.go:137-142 | counts the trade |
| RiskEngine.Engine.RecordLoss | pkg/risk/engine.go:144-146 | adds the loss |
| RiskEngine.Engine.ResetDailyStats | pkg/risk/engine.go:165-169 | forgets losses and trades, and nothing of the breaker |
| RiskEngine.Engine.GetFailureRate | pkg/risk/engine.go:148-153 | the rate is failed over all trades since the last reset |
| SwapSizing.ClampedSwap | pkg/rebalancer/service.go:213-223 | the three clamps in order: minimum, maximum, available |
| SwapSizing.SizeBounds | pkg/rebalancer/service.go:210-248 | a sale never exceeds the balance or the maximum, and the minimum holds when both allow it |
| SwapSizing.SizeExact | pkg/rebalancer/service.go:210-248 | the amount in base units in every case: the balance, the maximum, or the larger of the configured share and the minimum, rounded down |
| SwapSizing.NothingToSell | pkg/rebalancer/service.go:246-248 | an attempt fails for lack of an amount exactly when less than one base unit is left |
| SwapSizing.SlippageBound | pkg/rebalancer/service.go:250-253 | the least output concedes at most the configured share, rounded down once |
| Sales.SalesPerWindow | pkg/rebalancer/service.go:59-67 | sales a gap apart number at most 1 + w/gap in any window of length w |
| Sales.SoldPerWindow | pkg/rebalancer/service.go:210-267 | and sell at most that many times the largest sale |
| Sales.CountIsCardinality | pkg/rebalancer/service.go:59-67 | the count of a window is the number of sales whose time lies in it |
| Sales.ChainAgreesIff | pkg/rebalancer/service.go:256-267 | where the swaps the bot was told of are its sales, all swaps on chain are, and are spaced like them, exactly when no report was lost |
| Rebalancer.FirstSuccess | pkg/rebalancer/service.go:161-185 | the attempt that counts is the first that succeeds |
| Rebalancer.OfferWithinBalance | pkg/rebalancer/service.go:209-248 | an offer sells token0 above price 1 and token1 otherwise, at most the wallet's balance of that token and the maximum, and at least the minimum where both allow it |
| Rebalancer.OtherBalanceIsFree | pkg/rebalancer/service.go:192-200 | the other token's balance must be readable and changes nothing |
| Rebalancer.LandingsWithinBalance | pkg/rebalancer/service.go:155-186 | every swap that lands on chain was offered by an attempt that held its amount of the token sold |
| Rebalancer.SaleWithinBalance | pkg/rebalancer/service.go:155-186 | so was the reported sale, by an attempt that succeeded |
| Rebalancer.LandsAsSpent | pkg/rebalancer/service.go:256-267 | an attempt lands exactly when the executor's swap spends its allowance, and succeeds exactly when ExecuteSwap reports success |
| Rebalancer.DecisionsInNumbers | pkg/rebalancer/service.go:59-149 | the rebalance and the stabilization decision in seconds of a billion nanoseconds, relative deviation and basis points |
| Rebalancer.CompletesIff | pkg/rebalancer/service.go:113-131 | a call succeeds exactly when it may rebalance and sells or has stabilization off |
| Rebalancer.ConsultedIffSmall | pkg/rebalancer/service.go:69-77 | for every recorded sale, its call wrote a check into the engine's history exactly when the deviation it decided on was within the rebalance threshold |
| Rebalancer.SaleDueIsAllowed | pkg/rebalancer/service.go:113-268 | a sale happens after the cooldown, reaches the deviation threshold, respects the maximum, and follows a large deviation or one recorded check, which passed on the history before it |
| Rebalancer.SaleKeepsOk | pkg/rebalancer/service.go:59-67 | a sale after both waits keeps all sales at least the longer wait apart |
| Rebalancer.Rebalancer.ShouldRebalance | pkg/rebalancer/service.go:59-80 | true exactly when running, past the interval, and on a large deviation or a passing history-based check; the engine is consulted only on small deviations |
| Rebalancer.ReportedIsSale | pkg/rebalancer/service.go:155-186 | of the swaps a call lands on chain the one that is reported is its sale |
| Rebalancer.Rebalancer.DoStabilization | pkg/rebalancer/service.go:188-269 | one attempt sells exactly its offer at the price it finds, with its slippage bound; it lands on chain whenever the transaction does, and only a reported success moves the timer |
| Rebalancer.Rebalancer.ExecuteStabilization | pkg/rebalancer/service.go:155-186 | at most three attempts, each at prices of its own, up to the first reported success, and the swaps they land on chain |
| Rebalancer.Rebalancer.ExecuteRebalance | pkg/rebalancer/service.go:113-131 | when it succeeds, which sale it makes and whether a check was recorded on the way, the at most three swaps it lands on chain, both timers, and that the sales stay spaced, with prices changing between its decisions and attempts |
| BotLoop.ConsultingStaysInert | pkg/rebalancer/service.go:69-77 | at the peg the check is only consulted on deviations too small to trip the breaker |
| BotLoop.PegTripsIff | pkg/rebalancer/service.go:69-77 | at the peg some price can trip the breaker exactly when the rebalance threshold exceeds the breaker's |
| BotLoop.Handle | main.go:333-409 | one tick of a loop, with the new state for each event; an alert with the flag up stops the bot, and a stopped bot records and sells nothing |
| BotLoop.Serve | main.go:319-409 | any interleaving of prices, rebalances, alerts, starts and stops, with prices also landing inside a rebalance, keeps the sales in order; under a pegged TWAP the breaker flag stays down and its alert never stops the bot; a stopped bot that is not started keeps its flag, its history and its sales |
| BotLoop.TripForGood | main.go:397-409 | with the rebalance threshold above the breaker's, a new bot trips the breaker in its first due call and the next alert stops it; without a start no run of events brings the flag down or sells |
| BotLoop.SalesBudget | pkg/rebalancer/service.go:59-67 | in every reachable state the number and the total of reported swaps in any window are bounded |
| BotLoop.SalesApart | pkg/rebalancer/service.go:59-67 | reported sales are at least the longer of interval and cooldown apart, in seconds of a billion nanoseconds |
| BotLoop.SalesBypassRisk | pkg/rebalancer/service.go:69-77 | in every reachable state a sale whose call ran a risk check, at one price, needs a stabilization threshold within reach of the rebalance threshold, and at the peg within reach of the breaker's too |
| BotLoop.ConsultedSaleAt | pkg/rebalancer/service.go:59-153 | from any state and history at the peg, a call that decides at one price and stabilizes at another can sell after a passing check exactly when it is open, the first is within both limits and the second reaches the stabilization threshold |
| BotLoop.ConsultedSaleIff | pkg/rebalancer/service.go:59-153 | some price lets the call sell after a passing check exactly when it is open (running, both waits over, executor and funds, no recent trip, losses within the limit) and the smaller of the rebalance and breaker thresholds reaches the stabilization threshold; with a price update between the two decisions being open is enough |
| BotLoop.FirstConsultedSale | main.go:290-382 | under that condition a new bot, started and served one price, makes such a sale in its first due call |
| BotLoop.FirstUncheckedSale | main.go:290-382 | at any price beyond the rebalance threshold that reaches the stabilization threshold, a new bot sells in its first due call with nothing in the risk history |
| BotLoop.ChainBudget | pkg/rebalancer/service.go:155-186 | in every reachable state the swaps on chain are the recorded sales, and as far apart, exactly when no report was lost |
| BotLoop.SalesInTheDark | pkg/rebalancer/service.go:155-186 | with every receipt lost a new bot's first due call sells three times at one moment, records no sale and moves no timer |
| BotLoop.ShippedSettingsBypass | config.yaml:26-49 | the shipped thresholds do not meet the condition, whatever the breaker threshold |
| BotLoop.ShippedSalesWouldBeRefused | config.yaml:26-49 | in every reachable state with the shipped thresholds, a sale at the peg reacted to a deviation of at least the breaker's threshold; strictly above it a check of that price would refuse with its severest report |
| BotLoop.ShippedUncheckedSale | config.yaml:22-52 | the shipped bot makes such a sale: at price 1.004, exactly 60000000000 ns after it starts, with an empty risk history, where a check would have refused |

## Left out

- AmountInToReachTarget: takes prices and targets inside the tick range; a current price outside the pool's tick is taken unless slot0's tick is at an end of the range, where no Uniswap pool stands and the end tick would be crossed twice.
- CalculateSwapAmount: a target whose root no tick covers is a revert; in the source the library refuses price zero or the walk runs out of gas.
- SaleArrives: the pool's swap is the steps of the walk towards the target, each paid with its fee; the router sets no price limit, so a real sale with more than it needs goes on past the target. The pool itself is not part of this model.
- SwapAndSettle: the router is an answer with the amounts pulled, delivered and reported; re-entrancy is excluded by the contract's guard, and token balances have no upper bound.
- ExecuteSwap: an allowance is always used up by a successful swap; tokens that treat the largest allowance as unlimited are not modelled.
- ClampedSwap: floating point is real arithmetic, balances are natural numbers, and a balance of 2^63 or more, for which Go's Int64 is undefined, is taken as it is.
- CheckRisk: prices, thresholds and losses are real numbers, so rounding and NaN are not modelled; time is an input that never runs backwards.
- ExecuteRebalance: calls are serialised as the loop issues them, although the HTTP handler can start another one concurrently. The price loop runs beside a call: ShouldStabilize and each attempt find prices of their own, but ShouldRebalance reads its two prices once for its deviation and its risk check, and an update stores both prices together. What became of a swap's transaction is given with each attempt; `LandsAsSpent` ties it to the executor's account, which the runs do not carry along.
- GetTierPositions: the tick that the float logarithm derives from the price is an input.
- Tick spacings other than 1: the source compresses the tick before a library call that may compress it again; the library is not part of this model.
- Uniswap's tick bitmap, tick-to-price constants and 512-bit multiplication: only their contracts are modelled.
- CalculateRanges, CalculateTickRange, AlignTickToSpacing and all float tick conversions.
- The checks of trade size, which nothing calls, and the volume counter, which nothing updates.
- RPC, signing, gas, receipts, the HTTP API, the monitor, configuration loading, logs and events.
