# Option screening core, modelled in Dafny

This project models the analytical core of a tool that screens listed stock
options for premium-selling strategies (cash-secured puts and covered calls).

- **The calculator** (`options_calculator.dfy`, module `Calculator`):
  - Black-Scholes put and call prices, `d1`/`d2` and the Greeks;
  - the probability of assignment, the annualised premium return and the breakeven price;
  - the seller's maximum profit and loss and the risk/reward ratio;
  - the implied-volatility fallback;
  - `analyze_option`, and the calculator object whose one piece of state is its risk-free rate.

  The normal CDF and PDF, `ln`, `exp` and `sqrt` are a `Numerics` value constrained by `Sound`:
  - the CDF lies in [0, 1];
  - the PDF is never negative;
  - `exp` is positive, and at most 1 on non-positive arguments;
  - `sqrt` is positive on positive arguments.

  The closed forms keep the source's formulas over those functions. The price and Greek functions require `InDomain`: a contract that has not expired has a positive spot, strike and volatility. The expiry branches (T ≤ 0) are exact.
- **The utilities** (`utils.dfy`, module `Utils`):
  - the stock-symbol and pricing-input validators;
  - the safe division;
  - the risk tier;
  - the user-facing API error message;
  - the generic option-table cleaning;
  - the threshold filter over analysed options.
- **The fetcher's chain validation** (`data_fetcher.dfy`, module `DataFetcher`):
  - the cleaning applied to a downloaded chain before analysis;
  - the caller-visible `dte` default it writes into the caller's frame, modelled with a `DataFrame` class.
- **The batch screening** (`batch_analysis.dfy`, module `BatchAnalysis`):
  - the strict "strongly recommended" filter;
  - the relaxed fallback;
  - the descending ranking by annualised return;
  - the top-five report.

Shared foundations:
- `wrappers.dfy`: `Option`/`Result`.
- `numbers.dfy`: a `Float` carrying the infinities and NaN the code produces; Python's `min`/`max`; truncation toward zero.
- `text.dfy`: ASCII case mapping, `strip`, `isalpha` and substring search.
- `frames.dfy`: the pandas frame as a set of columns plus rows. A cell missing from a row's map is NaN, so every comparison on it is false. Boolean indexing is `Select`, an order-preserving filter over a list of conditions.

Three behaviours of the code are easy to misread; the model follows the code:
- No row is dropped for a negative days-to-expiry. The fetcher's cleaning (data_fetcher.py:497-530) tests only for missing fields, the price, the volume and the IV. `DataFetcher.NormalizedKeepsPassingRows` holds whatever the sign of the strike or `dte`.
- The `fillna(0.3)` calls never fill anything.
  - In utils.py, the numeric-field loop (utils.py:83-88) has already dropped every row whose IV is missing before the fill at line 107.
  - In data_fetcher.py, the `<= 5.0` filter at line 512 drops those rows (a comparison with NaN is false) before the fill at line 514.
  - `Frames.FillNaNothingToFill` is used inside both methods.
- `set_risk_free_rate` (options_calculator.py:21-23) accepts any rate, negative ones included, and so does `Calculator.OptionsCalculator.SetRiskFreeRate`.

## Model

| member | source | states |
|---|---|---|
| Calculator.D1D2 | options_calculator.py:71-78 | both terms are 0 at expiry; before it d1 − d2 = σ√T, which is positive |
| Calculator.BlackScholesPut | options_calculator.py:25-46 | the put price is never negative and equals the exercise value max(K − S, 0) at expiry |
| Calculator.BlackScholesCall | options_calculator.py:48-69 | the call price is never negative and equals max(S − K, 0) at expiry |
| Calculator.PutPriceBounded | options_calculator.py:25-46 | at a non-negative rate a put is worth at most its strike |
| Calculator.CallPriceBounded | options_calculator.py:48-69 | a call is worth at most the stock |
| Calculator.DeltaPut | options_calculator.py:80-86 | put delta lies in [−1, 0]; at expiry it is −1 exactly when S < K and 0 exactly when S ≥ K |
| Calculator.DeltaCall | options_calculator.py:88-94 | call delta lies in [0, 1]; at expiry it is 1 exactly when S > K and 0 exactly when S ≤ K |
| Calculator.DeltaSpreadAtExpiry | options_calculator.py:80-94 | at expiry call delta exceeds put delta by 1, except at the money where both are 0 |
| Calculator.Gamma | options_calculator.py:96-102 | gamma is never negative and is 0 at expiry |
| Calculator.ThetaPut | options_calculator.py:104-112 | put theta is 0 at expiry |
| Calculator.ThetaCall | options_calculator.py:114-122 | call theta is 0 at expiry |
| Calculator.ThetaSigns | options_calculator.py:104-122 | at a non-negative rate put theta is never positive and never above call theta |
| Calculator.Vega | options_calculator.py:124-130 | vega is never negative and is 0 at expiry |
| Calculator.AssignmentProbability | options_calculator.py:132-158 | a probability in [0, 1]; at expiry 1 exactly when a put has S ≤ K or a call has S ≥ K, else 0 |
| Calculator.AssignmentTreatsOtherTypesAsCall | options_calculator.py:147-158 | any type other than "put" gets the call's probability |
| Calculator.AssignmentAgreesWithDeltaAtExpiry | options_calculator.py:132-158 | at expiry and off the strike the probability is the size of delta; at the strike both options count as assigned while both deltas are 0 |
| Calculator.AnnualizedReturn | options_calculator.py:160-175 | 0 for dte ≤ 0 or a non-positive premium; +∞ for a zero strike (float64 division); otherwise return × strike × dte = premium × 365, and the return is positive for a positive strike |
| Calculator.BreakevenPrice | options_calculator.py:177-192 | for a non-negative premium the seller's expiry profit at the breakeven is 0; the breakeven is at or below the strike for a put, and at or above it for a call, exactly when the premium is non-negative |
| Calculator.BreakevenSplitsProfit | options_calculator.py:177-192 | the seller's expiry profit is non-negative exactly at or above the breakeven for a put and at or below it for a call |
| Calculator.MaxProfitLoss | options_calculator.py:194-217 | max profit is the premium; max loss is strike − premium for a put and +∞ for any other type |
| Calculator.PutProfitLossAreTight | options_calculator.py:207-209 | for a put on a non-negative stock the seller's result lies between −max loss and max profit, and both ends are reached |
| Calculator.CallLossIsUnbounded | options_calculator.py:210-212 | a call seller never makes more than the premium and loses more than any bound at some stock price |
| Calculator.RiskRewardRatio | options_calculator.py:295 | +∞ exactly when the max loss is not positive; 0 against an infinite loss; otherwise ratio × loss = profit |
| Calculator.TheoreticalPrice | options_calculator.py:234-238 | the objective's model price is never negative |
| Calculator.Objective | options_calculator.py:234-239 | the squared pricing error is never negative and is 0 at a volatility reproducing the market price |
| Calculator.ImpliedVolatility | options_calculator.py:219-245 | the minimiser's point on success, 0.3 on failure or exception, always within [0.01, 5.0] |
| Calculator.YearsToExpiry | options_calculator.py:259 | the time to expiry in years times 365 is the day count, so it is positive exactly when days remain |
| Calculator.Analyze | options_calculator.py:247-296 | delta, gamma, theta, vega and the assignment probability are the kernel's values at T = dte/365 and the implied volatility, chosen by type; the return is `AnnualizedReturn` of premium, strike and dte; IV within bounds; delta bounds by type; gamma, vega ≥ 0; probability in [0, 1]; return finite and ≥ 0; all time-dependent figures 0 once expired; expiry assignment by moneyness; max profit the premium, max loss strike − premium for a put and +∞ otherwise; breakeven and risk/reward by type |
| Calculator.OptionsCalculator.constructor | options_calculator.py:18-19 | a new calculator uses a 5% risk-free rate |
| Calculator.OptionsCalculator.SetRiskFreeRate | options_calculator.py:21-23 | the rate becomes the given one, unchecked |
| Calculator.OptionsCalculator.AnalyzeOption | options_calculator.py:247-296 | the analysis is `Analyze` at the calculator's current rate |
| Utils.ValidateStockSymbol | utils.py:28-52 | a symbol is accepted exactly when, with surrounding whitespace removed, it is one to five letters |
| Utils.SymbolValidationIgnoresCase | utils.py:41-52 | upper-casing a symbol never changes the verdict |
| Utils.SymbolPaddingIgnored | utils.py:41-52 | a space either side of a symbol never changes the verdict |
| Utils.ValidateCalculationInputs | utils.py:117-148 | accepts exactly S > 0, K > 0, T ≥ 0, r in [0, 1] and σ in [0, 5]; accepted inputs with σ > 0 lie in the pricing domain |
| Utils.ValidInputsPriceSafely | utils.py:117-148 | accepted inputs with a positive volatility are in the pricing domain, and give a put within [0, K] and a call within [0, S] |
| Utils.ValidatorAdmitsZeroVolatility | utils.py:145-148 | a zero volatility passes the validator although the closed forms before expiry divide by it |
| Utils.SafeDivide | utils.py:151-170 | the default when either operand is NaN or infinite or the denominator is 0; otherwise q × denominator = numerator |
| Utils.RiskIgnoresReturnAboveTwo | utils.py:243 | returns above 200% all give the same tier |
| Utils.RiskTierMonotone | utils.py:230-252 | a likelier assignment never lowers the tier and a higher return never raises it |
| Utils.CalculateRiskScore | utils.py:230-252 | a probability of at least 6/7 is always high risk; low risk needs a probability below 3/7; with a return of 200% or more these thresholds are exact |
| Utils.Classify | utils.py:294-305 | a specific kind is one the message mentions; the generic kind exactly when none of the four kinds is mentioned |
| Utils.ClassifyIsFirstMatch | utils.py:294-305 | the kind is the first, in the order network, not-found, rate-limit, permission, that the text mentions |
| Utils.HandleApiError | utils.py:283-305 | the message is the advice for the first kind the lower-cased error text mentions, followed by the context |
| Utils.ApiErrorIgnoresCase | utils.py:294 | the message does not depend on the case of the error text |
| Utils.DropMissing | utils.py:72-88 | rows missing any listed field that is a column are dropped, the rest are kept in order |
| Utils.ValidateOptionData | utils.py:55-114 | the result is the empty frame itself or the rows passing every cleaning test; the IV back-fill changes nothing |
| Utils.CleanedOptionData | utils.py:55-114 | an empty frame comes back unchanged; the cleaned frame keeps the columns, and its rows are a subsequence of the input rows |
| Utils.CleanedRowsInRange | utils.py:90-105 | each survivor of a non-empty frame has positive strike and price, volume ≥ 0 and IV in [0.01, 5] wherever the column exists |
| Utils.FilterOptionsByCriteria | utils.py:341-379 | the result is the empty frame itself, a KeyError for a tested column the frame lacks, or the thresholds applied in source order |
| Utils.FilteredByCriteria | utils.py:341-379 | an empty frame comes back as is; a success keeps the columns and has no row the input lacks; a KeyError names a column the frame lacks |
| Utils.ApplyThresholdsFails | utils.py:352-377 | a KeyError names a column some present key tests and the frame lacks |
| Utils.FilterSelectsMeetingRows | utils.py:352-379 | when the tested columns exist, the result is exactly the rows meeting every present threshold, in their order, with every copy of a meeting row and no copy of another |
| Utils.NoCriteriaKeepsEverything | utils.py:341-379 | with no keys present the data comes back unchanged |
| Utils.FilterIdempotent | utils.py:341-379 | filtering a result again with the same criteria changes nothing |
| Frames.Select | test_batch_analysis.py:123-129 | a filter keeps exactly the rows passing every condition, in their order, and adds none |
| Frames.SelectCounts | test_batch_analysis.py:123-129 | a filter keeps every copy of a passing row and no copy of a failing one |
| Frames.SelectSelect | utils.py:352-377 | successive filters equal one filter by all their conditions |
| DataFetcher.ValidateOptionData | data_fetcher.py:471-530 | the caller's frame gains `dte` = 30 only when it has strike and price but no `dte`; the result is the normalised frame, independent of the current price |
| DataFetcher.PipelineRowsUsable | data_fetcher.py:497-530 | every row leaving the pipeline has all three required fields, so the final `dropna` removes nothing |
| DataFetcher.Normalized | data_fetcher.py:471-530 | an empty frame comes back unchanged; no strike or price column gives an empty frame; otherwise `dte`, volume and IV columns are added, and every row of a non-empty input comes out with a positive price, whole-day `dte`, volume ≥ 1 and IV ≤ 5 |
| DataFetcher.TestsMeaning | data_fetcher.py:497-512 | an input row passes exactly when it has strike and price, a positive price, `dte` if that column exists, and volume ≥ 1 and IV ≤ 5 where those columns exist |
| DataFetcher.PassingRows | data_fetcher.py:497-512 | the kept input rows are a subsequence of the input holding every copy of each passing row and no copy of a failing one |
| DataFetcher.NormalizedRowsAreImages | data_fetcher.py:486-530 | output row i is the image of the i-th kept input row, and there are no other output rows |
| DataFetcher.NormalizedIsImageOfSubsequence | data_fetcher.py:486-530 | the output is an order-preserving selection of passing input rows, each mapped to its image |
| DataFetcher.RowImageCells | data_fetcher.py:489-528 | the image changes only `dte`, volume and IV: absent columns get 30, 100 and 0.3, and `dte` is truncated to whole days |
| DataFetcher.NormalizedKeepsPassingRows | data_fetcher.py:486-530 | every input row that passes the tests comes out as its image, whatever the sign of its strike or `dte` |
| DataFetcher.NormalizedIdempotent | data_fetcher.py:471-530 | validating a validated frame changes nothing |
| BatchAnalysis.StrictMeans | test_batch_analysis.py:123-129 | the strict filter keeps exactly rows with return ≥ 0.25, assignment ≤ 0.4, volume ≥ 50, dte ≤ 45 and strike below the stock price |
| BatchAnalysis.RelaxedMeans | test_batch_analysis.py:138-144 | the relaxed filter keeps exactly the rows meeting 0.15 / 0.5 / 20 and the same dte and moneyness conditions |
| BatchAnalysis.StrictImpliesRelaxed | test_batch_analysis.py:123-144 | every strict-passing option passes the relaxed filter, in the same order |
| BatchAnalysis.Insert | test_batch_analysis.py:158 | inserting a row into a ranking keeps it ranked and adds exactly that row |
| BatchAnalysis.SortByReturn | test_batch_analysis.py:158 | the result is ranked by annualised return, highest first, and is a permutation of the input |
| BatchAnalysis.ScreenAndRank | test_batch_analysis.py:113-164 | failure exactly when there are no results or both filters are empty; relaxed only when strict is empty; ranking sorted and a permutation of the chosen rows; report is its first min(5, n) rows |
| BatchAnalysis.ReportedOptionsQualify | test_batch_analysis.py:123-164 | every reported option meets the relaxed conditions, the strict ones unless the fallback was taken, and ranks no lower than any unreported one |

## Left out

- Transcendental functions: the normal CDF/PDF, `ln`, `exp` and `sqrt` are abstract, with only the properties in `Sound`. No numerical accuracy, and no concrete price such as the 150/145 scenario, is claimed.
- IEEE arithmetic inside the kernel is out of scope: the price and Greek functions require a positive spot, strike and volatility before expiry. Python would return NaN or ±∞, or raise, for the other inputs.
- The minimiser's search (`minimize_scalar`) is out of scope: its outcome is a parameter, with the bounds it guarantees.
- Calculator.Objective: states only the "a reproducing volatility gives 0" direction, not the converse (0 only there).
- Calculator.Analyze: requires a positive spot and strike for a contract that has not expired. Prices of 0 or below are outside the model. There the source divides by zero, takes `ln` of 0 or of a negative number (NaN), or, when both prices are negative, computes finite figures the model does not follow. A missing dictionary key (`KeyError`) is out of scope.
- Calculator.AnnualizedReturn: follows float64 division, which gives +∞ for a zero strike. With plain Python floats the source raises `ZeroDivisionError` there instead.
- Utils.ValidateStockSymbol and Utils.HandleApiError: case mapping, `isalpha` and `isspace` cover ASCII letters and the Python whitespace code points only, not all of Unicode. The `isinstance` checks and `str(error)` on non-string objects are out of scope.
- Utils.ValidateCalculationInputs: models numeric arguments only. NaN arguments, which pass every comparison in the source, are out of scope.
- Utils.CalculateRiskScore: the "unknown risk" branch only follows an exception on a non-numeric input and is out of scope. A NaN score is out of scope too (the source would report high risk).
- Frame cells hold numbers only. Text columns and `pd.to_numeric(errors='coerce')` turning text into NaN are out of scope: numeric cells pass through unchanged. Non-finite cells and the exception `astype(int)` raises on them are out of scope too.
- The row count printed by the cleaner, the logging set-up, and all `print` output are out of scope.
- The `format_*` helpers, `get_market_hours`, `create_summary_stats` and `create_performance_metrics` are not part of this model.
- The fetcher's network calls and caching are not part of this model, and neither is the rest of the batch workflow: fetching, per-symbol analysis loops and printing.
- BatchAnalysis.SortByReturn: pandas' default sort is not stable, so the order among equal returns is not specified by the source. The model fixes one order and claims only sortedness and permutation.
