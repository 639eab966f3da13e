# Lending reserve: the expected-state model, verified

The test suites of this lending protocol carry a complete reference model of a reserve: given the records of
a reserve and a user before an action, it computes the records expected after it, in fixed-point integer
arithmetic rounded half up. This project models that reference model, the replay that rebuilds balances from
token events, and the matcher that looks for an expected event in a receipt, and proves what they promise.

| file | content |
|---|---|
| `WadRayMath.dfy` | multiplication and division at 10^27, 10^18 and 10^4, `Nearest`: what rounding half up means |
| `Interest.dfy` | linear interest and the three-term compounding formula |
| `ExactCompounding.dfy` | the compounding formula against per-second compounding over the reals |
| `Shares.dfy` | scaled balances: what converting amounts to shares and back can cost |
| `Tolerance.dfy` | exactly which indexes keep that cost within a tolerance |
| `Rates.dfy`, `RateLaws.dfy` | usage ratios, the two-slope curve, the supply rate, average stable rates, and their laws |
| `RateValues.dfy` | what ratios, rates and averages are worth, each to its rounding |
| `Reserve.dfy` | the reserve record as a value, accrual, the invariant |
| `Actions.dfy` | what each of the eight reserve actions makes of the record, and when it may run |
| `Runs.dfy` | any run of actions: safety, liquidity, frozen indexes, cancelling actions |
| `Conservation.dfy` | treasury, borrowing and repaying against the growth and the sum of debt |
| `Rebalancing.dfy` | which borrowers can be rebalanced, read in the debts and rates before |
| `Solvency.dfy` | what one accrual credits to suppliers and treasury against what it charges to borrowers |
| `StablePace.dfy` | when stable debt keeps up with its rate, exactly and with the source's rounding |
| `RunSolvency.dfy` | solvency over whole runs |
| `BridgeFee.dfy` | the fee of backing unbacked tokens |
| `Examples.dfy` | concrete records that reach the branches the laws only bound |
| `RecordValues.dfy` | what the fields of a reserve's record hold after an action, and what stays as it was |
| `Users.dfy` | the acting user's record, full exit, rate mode swaps |
| `UserValues.dfy` | what the fields of a user's record hold, against the reserve's record and the wallet |
| `Records.dfy`, `UserRecords.dfy` | the records as objects filled field by field, proved to produce those values |
| `Ledger.dfy` | token events, reading them off a receipt, replaying them into a table of balances |
| `TokenRuns.dfy` | the events every token action is expected to emit, and the drift of the replay over runs |
| `TokenEvents.dfy` | those events one by one: parties, amounts, growth and index |
| `EventMatcher.dfy` | the nested search for an expected event |

How the source's terms are modelled:

- Numbers are unbounded integers. Division truncates toward zero, as the source's does (`TruncDiv`); Dafny's own
  `/` is Euclidean. A function that divides requires its divisor to be non-zero, where the source would throw.
- The scales are kept as symbolic powers of ten, since hardly any proof depends on their values; `ScaleValues` gives
  the numbers to those that do.
- Runs of assignments that several actions share are grouped into methods of the record classes (`Begin`, `Finish`,
  `ReadDebts` and so on); each states the whole record it leaves.
- `Ready(p, r, t)` says what the chain guarantees of a record handed to the model: strategy parameters in range, the
  record valid (`Inv`), time not going backwards. A run is `Allowed` when each of its steps passes its `Guard`. That the
  record is valid again before every step is proved, not assumed. For most actions the guard is what the chain checks of a
  transaction: strategy, time and amounts. The guards of swapping and rebalancing stable debt are checked by no chain: they
  are the exact conditions under which these actions keep the record valid.
- A repayment is at most the debt, which the source leaves to the contracts (`calculations.ts:526`); that an amount taken
  out is at most the liquidity is likewise left to them, without being mentioned.
- The record an action returns has no last-update time, market stable rate or stable-debt time in the source; they
  are read back from the chain before the next action. Here they are carried: the update time becomes the
  transaction's, the stable-debt time too whenever stable debt changes.
- Objects start with arbitrary fields, so a field read before it is assigned would make the proof of its method fail.
- The source checks that supply usage does not exceed borrow usage and throws otherwise; `CurveIsTotal` proves that the
  check never fires on a valid record.
- A token action carries the index it ends at. A plain transfer is a `TransferFrom` by its own origin.
- Text-to-number and number-to-text conversions of the event matcher are parameters.

What the code does that its tests and comments do not say:

- The tests accept balances within three units. Comparing within `k` units is justified for every holding and amount
  if and only if the index is below twice `k` rays plus twice the greatest common divisor of the index and a ray
  (`DepositTolerance`, `WithdrawTolerance`): always up to six rays for three units, never from eight rays on, where a
  deposit of 4 is credited as 8 (`ToleranceFailsAtEightRays`), and still at seven (`ToleranceHoldsAtSevenRays`).
- Rates need not be monotone in usage: rounding at the kink can take back up to (RAY / optimal + 1) / 2 units
  (`CurveOrder`), and does (`KinkCanLoseOne`, `KinkCanLoseFive`). `MonotoneExactly` says for which strategies they are.
- Swapping stable to variable debt can leave the reserve a negative stable debt, because a user's debt compounds at its
  own rate and the reserve's at the average (`UserOutgrowsReserve`, `SwapGoesNegative`). It keeps the record valid if and
  only if the user's debt can be taken out of the reserve's (`SwapToVariableSound`). Swapping the other way always does.
- Rebalancing never leaves a negative debt, but can leave a negative average rate (`RebalanceGoesNegative`), because it
  weighs the user's debt in a finer unit than the rest. A user can be rebalanced who owes all the stable debt, or outweighs
  it and is charged at least what all of it is, or is outweighed by it and is charged at most that (`RebalanceIsSafe`); in
  general what decides is the sign of one balance of debts and rates, up to an explicit margin (`RebalanceByBalance`).
- Repaying that same debt writes off the reserve's whole stable debt, and with it the difference to what was paid
  (`RepayConserves` says exactly when, `RepayWritesOff` and `RepayForgivesOthers` that it happens, in both directions).
- Repaying "everything" computes the user's amount at the time of reading but converts it at the index of the
  transaction. Read later, the expected shares drop below zero unless the balance has grown by less than half a share
  (`RepayEverythingReadLater` gives the exact condition, `ReadLaterOvershoots` an instance).
- Withdrawing what was just deposited cancels if and only if the amount is not the sentinel that means "everything", or
  happens to be the balance (`DepositThenWithdraw`, `SentinelDepositStays`).
- Suppliers are promised a share of the rate of stable debt, but its growth is that of a formula cut off after four terms,
  counted from the last update of stable debt. Over a period the debt keeps up with its rate, without rounding, if and only
  if the cut-off term of its age is at most the compounding within the period (`PaceExactly`); with rounding the shortfall
  is that gap to an explicit margin on either side (`ShortfallIsGap`). The same debt can fall behind over one second and run
  ahead over two (`OldStableDebtFallsBehind`).
- The matcher compares arrays over the length of the emitted one. An emitted array matches any expected array it is a
  prefix of (`ArrayMatchIsPrefix`, `LongerExpectedArrayMatches`), so the empty array, and it alone, matches whatever is
  expected, even a number (`OnlyEmptyArrayMatchesAll`). An expected empty array is compared as the text `0x`, so it matches
  arrays of that text's characters (`EmptyExpectedMatches`). For an expected array no longer than the emitted one, a match
  means equal arrays (`ArrayMatchMeansEqual`), and for expected arguments of the emitted types the matcher finds exactly the
  events emitted with these arguments (`MatchFindsEqual`).

## Model

| member | source | states |
|---|---|---|
| WadRayMath.ScaleValues | helpers/constants.ts:10-14 | the symbolic scales are the source's 10^18, 10^27 and 10^9 |
| WadRayMath.TruncDivSpec | test-suites/helpers/utils/wadraymath.ts:41-70 | big-number division for all signs: the quotient times the divisor never exceeds the dividend in size and misses it by less than one divisor, with the sign of the fraction |
| WadRayMath.MulAtNearest | test-suites/helpers/utils/wadraymath.ts:41-61 | wad, ray and percent products are the exact product over the scale, rounded to nearest with ties up |
| WadRayMath.DivAtNearest | test-suites/helpers/utils/wadraymath.ts:45-66 | wad, ray and percent quotients are the exact quotient rounded to nearest with ties up, also for odd divisors where half the divisor is truncated |
| WadRayMath.DivUndoesMul | test-suites/helpers/utils/wadraymath.ts:41-66 | dividing undoes multiplying for every amount whenever the factor is at least the scale |
| WadRayMath.MulUndoesDiv | test-suites/helpers/utils/wadraymath.ts:41-66 | multiplying undoes dividing for every amount whenever the divisor lies between one and the scale |
| WadRayMath.InversesAtEachScale | test-suites/helpers/utils/wadraymath.ts:41-66 | both inverses for the ray, wad and percent operations |
| WadRayMath.MulAtMono | test-suites/helpers/utils/wadraymath.ts:41-61 | products are monotone in the first argument |
| WadRayMath.DivAtMono | test-suites/helpers/utils/wadraymath.ts:45-66 | quotients are monotone in the first argument |
| WadRayMath.DivAtOrder | test-suites/helpers/utils/wadraymath.ts:54-57 | quotients are ordered like the fractions they round, whatever their divisors |
| WadRayMath.WadRayConversion | test-suites/helpers/utils/wadraymath.ts:68-75 | wad to ray and back is the identity, ray to wad and back moves by at most half a step |
| Interest.CompoundedIsClosedForm | test-suites/helpers/utils/calculations.ts:1204-1229 | the divisions by 2 and 6 are exact: the result is the first four binomial terms with Pascal coefficients |
| Interest.CompoundedMono | test-suites/helpers/utils/calculations.ts:1204-1229 | compounded interest is at least one ray and monotone in both rate and time |
| Interest.CompoundedAtLeastLinear | test-suites/helpers/utils/calculations.ts:1192-1229 | borrowers are never charged less than linear interest over the same inputs |
| Interest.SplitFactors | test-suites/helpers/utils/calculations.ts:1192-1202 | the linear factors of two adjacent periods add up to that of the whole within one unit and multiply to at least it minus one |
| Interest.SplitAccrual | test-suites/helpers/utils/calculations.ts:1424-1437 | an index accrued in one step exceeds the one accrued in two steps by rounding only, with the bound |
| ExactCompounding.FourTermsBelowPow | test-suites/helpers/utils/calculations.ts:1217-1228 | the first four binomial terms never exceed the real power, by induction on the seconds |
| ExactCompounding.NeverAboveExact | test-suites/helpers/utils/calculations.ts:1204-1229 | the formula never exceeds exact per-second compounding by more than its stated rounding allowance |
| Shares.AddError | test-suites/helpers/utils/calculations.ts:1099-1120 | crediting the shares of an amount changes the holder's worth by the amount, to less than one unit and half a share |
| Shares.SubError | test-suites/helpers/utils/calculations.ts:1099-1120 | the same for taking shares out |
| Tolerance.DepositTolerance | test-suites/helpers/actions.ts:76-83 | a tolerance of k units covers every deposit into every holding if and only if the index is below twice k rays plus twice its greatest common divisor with a ray |
| Tolerance.WithdrawTolerance | test-suites/helpers/actions.ts:76-83 | the same condition, exactly, for withdrawals from holdings that have the shares |
| Tolerance.ToleratesRange | test-suites/helpers/actions.ts:76-83 | the condition holds for every index up to twice k rays and for none from twice k + 1 rays on |
| Tolerance.ToleranceHoldsAtSevenRays | test-suites/helpers/actions.ts:76-83 | three units are enough at seven rays |
| Tolerance.ToleranceFailsAtEightRays | test-suites/helpers/actions.ts:76-83 | a concrete deposit at eight rays that misses by four |
| Shares.WholeHolding | test-suites/helpers/utils/calculations.ts:1110-1120 | converting a whole holding to an amount and back gives back every share |
| Shares.SplitHolding | test-suites/helpers/utils/calculations.ts:1152-1167 | splitting a holding in two loses or gains at most one unit |
| Rates.CalcExpectedInterestRates | test-suites/helpers/utils/calculations.ts:1231-1328 | the in-place computation of the three rates yields the supply, stable and variable rate of the specification functions the laws below are about |
| Rates.CurveIsTotal | test-suites/helpers/utils/calculations.ts:1246-1369 | with debts and liquidity in range no division by zero is reached, both ratios lie in [0, RAY] and the source's own check on them never fires |
| Rates.UsageRatioOrder | test-suites/helpers/utils/calculations.ts:1351-1369 | more debt over less liquidity means a higher usage ratio |
| RateValues.UsageRatioIs | test-suites/helpers/utils/calculations.ts:1351-1369 | the usage ratio is the debt over debt and liquidity, in rays to the nearest unit, nothing without debt and one ray when nothing is left |
| RateValues.StableShareIs | test-suites/helpers/utils/calculations.ts:1263-1315 | the stable share is the stable over all debt, in rays to the nearest unit |
| RateValues.VariableRateQuoted | test-suites/helpers/utils/calculations.ts:1231-1328 | of the rates returned: the variable one is the base plus the point of the two-slope curve at the usage of available liquidity, on either line to its rounding, exactly the base without debt and exactly base plus both slopes when all is lent out |
| RateValues.StableRateQuoted | test-suites/helpers/utils/calculations.ts:1231-1328 | of the rates returned: the stable one is the market rate plus the point of the stable curve plus a premium, proportional to the stable share beyond its optimum, nothing up to it and all of it at a share of one; exactly the market rate without debt |
| RateValues.SuppliersGetTheirShare | test-suites/helpers/utils/calculations.ts:1317-1369 | of the rates returned: over all liquidity the supply one pays the percentage of what borrowers are charged that the reserve factor leaves, to an explicit rounding on either side |
| RateValues.AverageIsWeighted | test-suites/helpers/utils/calculations.ts:1122-1135 | the average times the debt it stands for is the sum of what the parts are charged, short of one truncation, for all signs |
| RateValues.RebalanceIsWeighted | test-suites/helpers/utils/calculations.ts:1137-1150 | the same in the mixed units of rebalancing, to three roundings |
| Rates.RatesNonneg | test-suites/helpers/utils/calculations.ts:1231-1328 | all three rates are non-negative, and no supply usage means no supply rate |
| Rates.LiquidityRateBounds | test-suites/helpers/utils/calculations.ts:1323-1325 | suppliers get at most their usage share of the overall rate, and nothing at zero usage or a reserve factor of 100% |
| RateLaws.CurveOrder | test-suites/helpers/utils/calculations.ts:1273-1304 | the two-slope curve is monotone on either side of the kink and loses at most (RAY / optimal + 1) / 2 across it, at most one unit when the optimum exceeds a third |
| RateLaws.MonotoneExactly | test-suites/helpers/utils/calculations.ts:1273-1304 | the curve is monotone over all usages if and only if it has no upper part or what rounding makes of the first slope at the optimum is at most the first slope and the first unit's share of the second |
| RateLaws.VariableRateOrder | test-suites/helpers/utils/calculations.ts:1286-1303 | the variable rate is monotone up to one unit and at most base plus first slope plus the larger of second slope and one |
| RateLaws.StableRateOrder | test-suites/helpers/utils/calculations.ts:1278-1315 | for every valid strategy the stable rate lies between the market rate plus slopes and that plus the excess offset, which is charged only beyond the optimal share of stable debt and fully at a share of one; the slopes stay within the steepest when the optimum exceeds a third |
| RateLaws.KinkCanLoseOne | test-suites/helpers/utils/calculations.ts:1273-1304 | a concrete curve whose rate falls by one unit across the kink |
| RateLaws.KinkCanLoseFive | test-suites/helpers/utils/calculations.ts:1273-1304 | a concrete curve with a low optimum whose rate falls by five |
| RateLaws.OverallIsWeightedAverage | test-suites/helpers/utils/calculations.ts:1330-1349 | the overall rate over the whole debt charges what the two rates charge over their parts, within 10^18 and half the debt |
| RateLaws.SuppliersNeverPromisedMore | test-suites/helpers/utils/calculations.ts:1317-1369 | the supply rate over all liquidity never exceeds the share of what borrowers are charged that the reserve factor leaves, beyond an explicit rounding allowance |
| RateLaws.AverageStaysBetween | test-suites/helpers/utils/calculations.ts:1122-1135 | adding debt keeps the average rate between the old average and the new rate |
| RateLaws.AddThenRemove | test-suites/helpers/utils/calculations.ts:1122-1135 | adding debt and removing it again never raises the average and lowers it by at most 1 plus (amount - 1) / debt rounded up |
| RateLaws.RemovableExactly | test-suites/helpers/utils/calculations.ts:1122-1135 | taking debt out of an average leaves a total and an average that are not negative if and only if it is no more than the total and, unless it is all of it, charges less than the whole does plus one unit per unit left |
| RateLaws.RebalanceSoleBorrower | test-suites/helpers/utils/calculations.ts:1137-1150 | removing and adding back all the stable debt, at least 10^18 of it, leaves exactly the new rate whatever the old one |
| Reserve.AccrualNonneg | test-suites/helpers/utils/calculations.ts:1476-1505 | accrued debt is never negative, the minted amount lies between zero and it and is all of it at a reserve factor of 100% |
| Reserve.AccrueSound | test-suites/helpers/utils/calculations.ts:1515-1550 | accrual keeps the record sound and lowers neither index nor the treasury |
| Reserve.PricedInv | test-suites/helpers/utils/calculations.ts:1552-1587 | any sound record can be priced, and pricing establishes the clauses on rates and ratios |
| Actions.SupplyViewsAgree | test-suites/helpers/utils/calculations.ts:1371-1391 | the income a supplier is shown is the index accrual will set, although one path is guarded by the rate and the other by usage |
| Actions.VariableViewsAgree | test-suites/helpers/utils/calculations.ts:1393-1413 | the variable debt a borrower is shown is the one at the index accrual will set, despite the different guards |
| Actions.ReadKeepsInv | test-suites/helpers/utils/calculations.ts:421-507 | a borrow prices its rates in the transaction and reads debts and ratios later, and still keeps the clause tying the supply rate to usage |
| RecordValues.StepCarriesUsage | test-suites/helpers/utils/calculations.ts:1552-1587 | after every action, however late a borrow is read, both ratio fields are those of the record's own debts and liquidity, to the nearest unit of a ray |
| RecordValues.RecordQuotes | test-suites/helpers/utils/calculations.ts:1231-1328 | the variable and the supply rate of a freshly priced record are those of its own debts, liquidity and ratios, to their roundings |
| RecordValues.RecordQuotesStable | test-suites/helpers/utils/calculations.ts:1231-1328 | its stable rate is its market rate plus the point of the curve at its usage plus the premium for its stable share |
| RecordValues.BorrowQuotesAtOnce | test-suites/helpers/utils/calculations.ts:421-507 | the rates a borrow quotes are those of its own transaction, however late its debts are read |
| RecordValues.IndexesAccrue | test-suites/helpers/utils/calculations.ts:1424-1452 | both indexes accrue by their interest, linear and compounding, to the nearest unit, the variable one only while there is variable debt |
| RecordValues.StepKeeps | test-suites/helpers/utils/calculations.ts:150-1050 | what every action leaves alone: reserve factor, market rate, unbacked tokens except on the bridge, debts and shares of the other mode, and past accrual both indexes and the treasury |
| RecordValues.BorrowAverages | test-suites/helpers/utils/calculations.ts:400-405 | a stable borrow adds what it is quoted to what the average rate charges |
| RecordValues.RepayAverages | test-suites/helpers/utils/calculations.ts:573-593 | a stable repayment takes out what the user is charged, unless the debt is written off |
| RecordValues.SwapAverages | test-suites/helpers/utils/calculations.ts:845-883 | a swap takes out what the user is charged, or adds what is quoted to the debt of the record before |
| RecordValues.RebalanceAverages | test-suites/helpers/utils/calculations.ts:1000-1023 | rebalancing takes out what the user is charged and puts back what is quoted, over the mixed units |
| Actions.RepaidSound | test-suites/helpers/utils/calculations.ts:557-602 | repaying, with its two write-offs, leaves no negative debt, shares or average rate |
| Actions.SwapToVariableSound | test-suites/helpers/utils/calculations.ts:845-863 | swapping stable to variable debt keeps the record sound if and only if the user's debt can be taken out of the reserve's |
| Actions.SwapToStableSound | test-suites/helpers/utils/calculations.ts:864-883 | swapping variable to stable debt always keeps the record sound |
| Actions.RebalanceSound | test-suites/helpers/utils/calculations.ts:975-1023 | rebalancing never leaves a negative debt, and keeps the record sound if and only if the average it computes is not below zero |
| Rebalancing.RebalanceIsSafe | test-suites/helpers/utils/calculations.ts:1137-1150 | a user can be rebalanced who owes all the stable debt, or outweighs it and is charged at least what all of it is, or is outweighed by it and is charged at most that |
| Rebalancing.RebalanceByBalance | test-suites/helpers/utils/calculations.ts:1137-1150 | whoever else: what others pay without the user and what the user pays at the quote, weighed by their units, decides by its sign, sufficient above and necessary below an explicit margin |
| Runs.StepGrows | test-suites/helpers/utils/calculations.ts:150-1050 | every deposit, withdrawal, borrow, repayment, rate mode swap, rebalancing and bridge action that passes its guard keeps the invariant and lowers neither index nor the treasury |
| Runs.RunGrows | test-suites/helpers/utils/calculations.ts:150-1050 | the same over every run of guarded steps from one valid record, with strategy parameters free to change between actions |
| Runs.RunConserves | test-suites/helpers/utils/calculations.ts:1552-1565 | the flows of a run add up: the pool ends with what was put in minus what was taken out, and liquidity claimed on grows besides by unbacked mints and fees only |
| Runs.FullFactorFreezesIndex | test-suites/pool-edge.spec.ts:1031-1082 | at a reserve factor of 100% the first action settles the supply index and every later one leaves it alone for as long as nothing is backed |
| Runs.AccrueIdempotent | test-suites/helpers/utils/calculations.ts:1515-1550 | accruing an up-to-date record at its own timestamp changes nothing |
| Runs.DepositThenWithdraw | test-suites/helpers/utils/calculations.ts:317-361 | a deposit withdrawn at the same timestamp leaves the whole record that a deposit of nothing leaves if and only if the amount is not the sentinel or equals the balance |
| Runs.SentinelDepositStays | test-suites/helpers/utils/calculations.ts:328-334 | a deposit of the sentinel amount stays in the pool when the withdrawing user has no shares |
| Conservation.AccruedIsDebtGrowth | test-suites/helpers/utils/calculations.ts:1482-1502 | on an up-to-date record the accrued debt is exactly the growth of the two debt totals |
| Conservation.TreasuryGetsItsShare | test-suites/helpers/utils/calculations.ts:1504-1512 | the treasury's new shares are worth the reserve factor's percentage of that growth, within stated rounding |
| Conservation.BorrowConserves | test-suites/helpers/utils/calculations.ts:386-487 | a borrow only turns liquidity into debt: exactly when stable, within one unit and half a share when variable, save the interest on stable debt that claims never to have been updated, which a variable borrow does not read |
| Conservation.BorrowAverageBetween | test-suites/helpers/utils/calculations.ts:400-405 | a stable borrow moves the average stable rate toward the quoted rate, never past it |
| Conservation.BorrowReadsAhead | test-suites/helpers/utils/calculations.ts:425-496 | the debts a borrow reports for a later moment are those that accruing the new record to that moment gives |
| Conservation.RepayConserves | test-suites/helpers/utils/calculations.ts:557-602 | a repayment only turns debt into liquidity, within one unit and half a share when variable; when stable exactly if and only if the amount can be taken out of the stable debt, and otherwise the stable debt is cleared and the sum changes by the difference |
| Conservation.MintKeepsAverage | test-suites/helpers/utils/calculations.ts:207-212 | averaging in no debt keeps the average rate of a reserve with stable debt and clears it otherwise |
| BridgeFee.WholeFeeDistributed | test-suites/helpers/utils/calculations.ts:233-282 | backing unbacked tokens raises the claims of suppliers and treasury together by the whole fee, within an explicit rounding bound |
| RecordValues.FeeIsSplit | test-suites/helpers/utils/calculations.ts:259-282 | the treasury gets the protocol's percentage of the fee in shares worth it, and the rest raises the index by its part of all claims, each to its rounding |
| Runs.BackingPutsIn | test-suites/helpers/utils/calculations.ts:255-282 | backing lowers the unbacked amount by the smaller of it and the amount offered, and raises liquidity by that and the fee |
| Conservation.BackingKeepsAverage | test-suites/helpers/utils/calculations.ts:291-296 | backing keeps the average rate of a reserve with stable debt and clears it otherwise |
| Solvency.AccrualIsCovered | test-suites/helpers/utils/calculations.ts:1476-1550 | over one accrual of any length the growth of suppliers' claims and the treasury's mint exceed the growth of debt by at most an explicit rounding, the suppliers' percentage of what stable debt stays behind its rate, and the supply rate on what was not covered before |
| StablePace.PaceExactly | test-suites/helpers/utils/calculations.ts:1204-1229 | for every rate, age and period, the four terms grow over the period by at least linear interest on what they were if and only if the cut-off term of the age is at most the compounding within the period |
| StablePace.FormulaNear | test-suites/helpers/utils/calculations.ts:1204-1229 | the source's rounded formula is within an explicit error of those terms, on either side |
| StablePace.ShortfallIsGap | test-suites/helpers/utils/calculations.ts:1415-1422 | how far a record's stable debt stays behind its rate is the gap between the two over its principal, to an explicit rounding on either side, and that gap is none if and only if the debt keeps pace |
| StablePace.AccrualIsCoveredByPacedDebt | test-suites/helpers/utils/calculations.ts:1476-1550 | over stable debt of any age that keeps pace, an accrual credits no more than it charges, up to explicit rounding |
| StablePace.YoungDebtKeepsPace | test-suites/helpers/utils/calculations.ts:1204-1229 | debt that has compounded for at most two seconds keeps pace at every rate over every period |
| Solvency.AccrualIsCoveredByFreshDebt | test-suites/helpers/utils/calculations.ts:1476-1550 | for the debt of age zero, or none, the same with a tighter rounding |
| Solvency.FreshStableDebtKeepsPace | test-suites/helpers/utils/calculations.ts:1415-1422 | the tighter rounding: stable debt of age zero stays behind its rate by at most half a unit and a unit per ray of debt |
| Solvency.DepositPricesFreshly | test-suites/helpers/utils/calculations.ts:150-185 | the record a deposit leaves carries the rates of its own debts, as that law asks |
| RunSolvency.StepPricesFreshly | test-suites/helpers/utils/calculations.ts:150-1050 | every action, a borrow if read in its own transaction, leaves such a record when it starts from one |
| RunSolvency.StepDeficit | test-suites/helpers/utils/calculations.ts:150-1050 | beyond what its accrual leaves uncovered, an action adds to the excess of all claims over liquidity and debt at most an explicit rounding and what a written-off repayment forgives |
| RunSolvency.RunStaysSolvent | test-suites/helpers/utils/calculations.ts:150-1050 | solvency over every run: all shares together claim at most liquidity and debt, plus the rounding, shortfalls and forgiven debt of the steps, each carried on at the supply rate of the steps after it |
| Examples.OldStableDebtFallsBehind | test-suites/helpers/utils/calculations.ts:1204-1229 | stable debt doubling every second, three seconds old, falls a unit per unit behind its rate over one second and runs two ahead over two, as the condition says |
| Examples.UserOutgrowsReserve | test-suites/helpers/utils/calculations.ts:1122-1135 | a user whose stable debt of 32 exceeds the 27 of the whole reserve that holds it |
| Examples.SwapGoesNegative | test-suites/helpers/utils/calculations.ts:845-863 | swapping that debt leaves the reserve a stable debt of -5 |
| Examples.RepayWritesOff | test-suites/helpers/utils/calculations.ts:573-593 | repaying that debt clears the stable debt and leaves five units too many |
| Examples.RepayForgivesOthers | test-suites/helpers/utils/calculations.ts:573-593 | repaying two of three units forgives the third |
| Examples.RebalanceGoesNegative | test-suites/helpers/utils/calculations.ts:1000-1023 | a rebalancing that leaves a negative average rate |
| Examples.ReadLaterOvershoots | test-suites/helpers/utils/calculations.ts:729-773 | a full repayment read a second later that leaves negative shares |
| Users.DepositRecordAgrees | test-suites/helpers/utils/calculations.ts:45-55 | the balance and the shares expected after a deposit agree within one unit and half a share, and within k units at every index that tolerates k |
| Users.WithdrawRecordAgrees | test-suites/helpers/utils/calculations.ts:95-112 | the same after a withdrawal, and neither is negative |
| Users.WithdrawEverything | test-suites/helpers/utils/calculations.ts:84-148 | withdrawing everything leaves no balance and no share, clears the collateral flag of a positive balance, and pays out exactly the balance |
| Users.RepayEverything | test-suites/helpers/utils/calculations.ts:716-795 | repaying all variable debt leaves the user no share and takes exactly the user's shares off the reserve |
| Users.RepayEverythingReadLater | test-suites/helpers/utils/calculations.ts:729-773 | read at a later time the expected shares are never positive, and are zero if and only if the balance read is below half a share more than the holding |
| Users.SwapToStable | test-suites/helpers/utils/calculations.ts:864-883 | swapping to stable removes exactly the user's shares and changes total debt by at most one unit |
| Users.SwapToVariable | test-suites/helpers/utils/calculations.ts:845-863 | swapping to variable gives user and reserve the same shares and changes total debt by less than one unit and half a share |
| Users.RebalanceSole | test-suites/helpers/utils/calculations.ts:1000-1023 | rebalancing the only stable borrower, with at least 10^18 of debt, sets the average to exactly the reserve's stable rate |
| UserValues.AmountsResolved | test-suites/helpers/utils/calculations.ts:513-556 | the sentinel stands for the whole balance or debt, for a repayment with either sign, and any other amount for itself |
| UserValues.UserStableDebtIs | test-suites/helpers/utils/calculations.ts:1169-1190 | a user's stable debt is the principal compounded at the user's rate, to the nearest unit, and only the principal if never updated |
| UserValues.WalletAndPool | test-suites/helpers/utils/calculations.ts:67-147 | wallet and pool together keep their sum in a deposit, a withdrawal and a repayment of one's own debt; repaying for another leaves the wallet alone |
| UserValues.DepositRecordIs | test-suites/helpers/utils/calculations.ts:14-82 | a deposit raises the balance at the accrued index by exactly the amount, shows the debts at the accrued index, leaves the variable debt in the stable principal and makes a first deposit collateral |
| UserValues.WithdrawRecordIs | test-suites/helpers/utils/calculations.ts:84-148 | a withdrawal lowers it by exactly what is withdrawn, keeps the principal, and ends the use as collateral only with the balance |
| UserValues.StableRepaymentIs | test-suites/helpers/utils/calculations.ts:742-763 | stable debt falls by exactly what is repaid, rate and time are cleared with it, variable debt and the supply side stay |
| UserValues.VariableRepaymentIs | test-suites/helpers/utils/calculations.ts:764-795 | the worth of variable debt falls by what is repaid to one unit and half a share, and stable debt and principal trade places |
| UserValues.SwapToStableMovesDebt | test-suites/helpers/utils/calculations.ts:945-970 | the user's stable debt rises by exactly the worth of the user's variable shares, which is what the reserve's stable debt rises by, nothing variable is left, and the new rate is the weighted average between old and quoted |
| UserValues.SwapToVariableMovesDebt | test-suites/helpers/utils/calculations.ts:932-944 | nothing stable is left, and the worth of variable debt rises by the stable debt the reserve loses, to one unit and half a share |
| Records.ReserveRecord.UpdateState | test-suites/helpers/utils/calculations.ts:1515-1550 | filling in indexes, debts and treasury in place sets exactly those seven fields to their accrued values |
| Records.ReserveRecord.UpdateLiquidityAndUsageRatios | test-suites/helpers/utils/calculations.ts:1552-1573 | moving liquidity in place sets exactly the two liquidity fields and the two ratios that follow from them |
| Records.ReserveRecord.UpdateTotalLiquidityAndUsageRatio | test-suites/helpers/utils/calculations.ts:1575-1587 | the closing refresh recomputes total liquidity and both ratios and nothing else |
| Records.ReserveAfterDeposit | test-suites/helpers/utils/calculations.ts:150-185 | the record filled field by field is the value the laws on deposits are about |
| Records.ReserveAfterMintUnbacked | test-suites/helpers/utils/calculations.ts:187-231 | the same for minting unbacked tokens |
| Records.ReserveAfterBackUnbacked | test-suites/helpers/utils/calculations.ts:233-315 | the same for backing them |
| Records.ReserveAfterWithdraw | test-suites/helpers/utils/calculations.ts:317-361 | the same for withdrawals, with the sentinel amount replaced in place |
| Records.ReserveAfterBorrow | test-suites/helpers/utils/calculations.ts:363-511 | the same for both kinds of borrow |
| Records.ReserveAfterRepay | test-suites/helpers/utils/calculations.ts:513-633 | the same for both kinds of repayment, with the write-offs applied in place |
| Records.ReserveAfterSwapRateMode | test-suites/helpers/utils/calculations.ts:810-908 | the same for swapping the rate mode |
| Records.ReserveAfterStableRateRebalance | test-suites/helpers/utils/calculations.ts:975-1050 | the same for rebalancing |
| UserRecords.UserDataAfterDeposit | test-suites/helpers/utils/calculations.ts:14-82 | the user's record after a deposit, including the overwritten stable principal |
| UserRecords.UserDataAfterWithdraw | test-suites/helpers/utils/calculations.ts:84-148 | the user's record after a withdrawal |
| UserRecords.UserDataAfterRepay | test-suites/helpers/utils/calculations.ts:716-795 | the user's record after a repayment |
| UserRecords.UserDataAfterSwapRateMode | test-suites/helpers/utils/calculations.ts:910-973 | the user's record after a swap, built on a copy of the old one |
| Ledger.GetATokenEvent | test-suites/helpers/utils/tokenization-events.ts:589-602 | the loop over a receipt's logs returns the token's own events with the signature |
| Ledger.EventsOfMembers | test-suites/helpers/utils/tokenization-events.ts:589-602 | an event is returned if and only if the token emitted it and it has the signature |
| Ledger.EventsOfConcat | test-suites/helpers/utils/tokenization-events.ts:589-602 | events are returned in the order of the receipt: those of what it continues with after those of what it begins with |
| Ledger.Balances.UpdateBalances | test-suites/atoken-events.spec.ts:83-99 | the three in-place passes yield the specified replay of the receipt |
| Ledger.ReplayIsNetEffect | test-suites/atoken-events.spec.ts:83-99 | for each tracked account the three passes add up to one sum over the token's logs, each counted once; accounts the table did not start with get an undefined entry exactly when the token's events write to them |
| TokenRuns.BurnEffect | test-suites/helpers/utils/tokenization-events.ts:154-180 | the mint and the burn shape of a withdrawal or repayment have the same net effect: growth minus amount |
| TokenRuns.EventsTellGrowthAndCredit | test-suites/helpers/utils/tokenization-events.ts:80-433 | the expected events of each of the five actions tell every account exactly its growth and its credit, and nothing to others |
| TokenEvents.MintingEvents | test-suites/helpers/utils/tokenization-events.ts:86-126 | supplying and borrowing: exactly one event of the underlying, which moves the amount between caller and aToken, and of the token exactly a transfer and a mint to the account of growth plus amount, stating the growth and the index |
| TokenEvents.BurningEvents | test-suites/helpers/utils/tokenization-events.ts:128-184 | withdrawing and repaying: exactly one event of the underlying, which moves the amount between the named parties, and of the token exactly a transfer and a mint of what the growth exceeds the amount by, or a burn of what the amount exceeds the growth by, stating the growth, the index and the target |
| TokenEvents.TransferEvents | test-suites/helpers/utils/tokenization-events.ts:255-314 | transferring: the transfer, the shares moved and the index, and a mint of its growth to either account that has grown, once for a transfer to oneself; nothing of any other contract |
| TokenEvents.SharesStatedAreMoved | test-suites/helpers/utils/tokenization-events.ts:277-287 | the shares a transfer states are those that leave one account and reach the other |
| TokenRuns.EmittedNonneg | test-suites/helpers/utils/tokenization-events.ts:154-180 | no expected event states a negative amount |
| TokenRuns.ActionDrift | test-suites/helpers/utils/tokenization-events.ts:185-314 | one action moves the gap between replayed balance and worth of shares by less than one unit and half a share, and a transfer to oneself by nothing |
| TokenRuns.ReplayTracksBalances | test-suites/atoken-events.spec.ts:83-99 | over every run, after n touches the replayed balance has drifted from the worth of the shares by less than n times (1 + maxIndex / (2 RAY)), and not at all without a touch |
| TokenRuns.ReplayFromNothing | test-suites/atoken-events.spec.ts:83-99 | the same for accounts that start empty, where the drift is the whole difference |
| EventMatcher.FindSignature | test-suites/helpers/utils/helpers.ts:149-162 | the loop over the contract's events finds the first with the name, and nothing if and only if there is none |
| EventMatcher.MatchEvent | test-suites/helpers/utils/helpers.ts:139-235 | the nested loops with their flag, breaks and in-place rewriting decide as the specified search does, and rewrite nothing but empty arrays |
| EventMatcher.CompareArgsMeansEqual | test-suites/helpers/utils/helpers.ts:183-214 | the argument loop runs through if and only if all arguments compare as the same |
| EventMatcher.CompareItemsMeansEqual | test-suites/helpers/utils/helpers.ts:195-209 | the element loop runs through if and only if every element of the emitted array compares as the same |
| EventMatcher.MatchDecides | test-suites/helpers/utils/helpers.ts:139-235 | with comparable candidates the call returns normally if and only if all arguments of some candidate compare as the same, reports unexpected arguments if and only if there are candidates but no such one, and not found if and only if there are none |
| EventMatcher.SearchStopsAt | test-suites/helpers/utils/helpers.ts:165-226 | without any condition on the arguments: the first log that is not of another event or emitter and has no differing argument decides, by its number of arguments, as a match, or with a conversion error |
| EventMatcher.SearchRunsOut | test-suites/helpers/utils/helpers.ts:165-235 | if there is no such log, it is unexpected arguments or not found by whether there was a candidate |
| EventMatcher.CompareStopsAt | test-suites/helpers/utils/helpers.ts:183-214 | the first argument that does not compare as the same decides the comparison |
| EventMatcher.MatchIsOfTheEvent | test-suites/helpers/utils/helpers.ts:146-176 | missing logs and unknown names are reported exactly when they are, and a match is of the named event and of the emitter asked for |
| EventMatcher.MixedScalars | test-suites/helpers/utils/helpers.ts:190-209 | an emitted number is compared with what the expected text parses to, with an error if it does not parse, an emitted text with the decimal text of a number |
| EventMatcher.TextAgainstArray | test-suites/helpers/utils/helpers.ts:190-212 | an emitted text is compared with an expected array's elements joined by commas, an emitted number with an array is an error |
| EventMatcher.SearchWithoutArgs | test-suites/helpers/utils/helpers.ts:219-221 | without expected arguments any candidate is a match |
| EventMatcher.MatchFindsEqual | test-suites/helpers/utils/helpers.ts:139-235 | for expected arguments of the candidates' types, no array longer than the emitted one and none empty unless that is, the call returns normally if and only if some candidate was emitted with exactly these arguments |
| EventMatcher.AlikeMatchMeansEqual | test-suites/helpers/utils/helpers.ts:183-214 | values of the same type under these conditions match if and only if they are equal |
| EventMatcher.ArrayMatchIsPrefix | test-suites/helpers/utils/helpers.ts:195-209 | an emitted array matches an expected one if and only if it is no longer and compares as the same element by element |
| EventMatcher.ArrayMatchMeansEqual | test-suites/helpers/utils/helpers.ts:195-209 | for an expected array no longer than the emitted one that is equal length and elements |
| EventMatcher.OnlyEmptyArrayMatchesAll | test-suites/helpers/utils/helpers.ts:195-209 | an emitted value matches whatever is expected if and only if it is the empty array |
| EventMatcher.EmptyExpectedMatches | test-suites/helpers/utils/helpers.ts:185-187 | an expected empty array matches exactly the emitted text arrays that are empty or the leading characters of `0x` |
| EventMatcher.LongerExpectedArrayMatches | test-suites/helpers/utils/helpers.ts:195-209 | any longer expected array with the emitted one as its beginning matches |

## Left out

- Chain access, deployment, snapshots and transaction sending: input and output only.
- Permit messages, hashing and signatures; an event's hash is identified with its signature.
- Access control, oracle, health factor, efficiency mode, isolation and liquidation: only concrete test values are visible.
- The lookup of strategy parameters by reserve symbol: the parameters found are passed in. Addresses, symbols and decimals of the records are not modelled.
- The user's record after a borrow, a rebalance or a change of the collateral flag; after a variable borrow the source starts from the reserve's shares instead of the user's, so no accounting claim would hold.
- Accounting claims on the user's stable principal after deposits and variable repayments: the source overwrites or exchanges these fields, and the model follows it.
- RunSolvency.RunStaysSolvent: only of runs whose borrows are read in their own transaction, whose reserve factor stays as it is and whose times are not zero; debts read later are not those the rates were set for.
- `currentTimestamp` and `txCost` parameters that the source never reads.
- Events of stable debt tokens and the printing of events.
- Nested arrays inside arrays, booleans, small plain numbers and byte arrays read as numbers in event arguments.
