/** The options calculator: Black-Scholes prices and Greeks with their expiry
    boundary values, assignment probability, yield, breakeven, profit/loss
    bounds, the implied-volatility fallback and the per-contract analysis.

    The closed forms keep the source's formulas, but the standard normal
    distribution and density, `log`, `exp` and `sqrt` are uninterpreted: they
    are carried by a `Numerics` value of which only `Sound` is assumed. */
module Calculator {
  import opened Wrappers
  import opened Numbers

  datatype Numerics = Numerics(
    cdf: real -> real,   // standard normal distribution function
    pdf: real -> real,   // standard normal density
    ln: real -> real,
    exp: real -> real,
    sqrt: real -> real)

  /** What the proofs rely on about the transcendental functions. */
  ghost predicate Sound(n: Numerics) {
    && (forall x :: 0.0 <= n.cdf(x) <= 1.0)
    && (forall x :: n.pdf(x) >= 0.0)
    && (forall x :: n.exp(x) > 0.0)
    && (forall x :: x <= 0.0 ==> n.exp(x) <= 1.0)
    && (forall x :: x > 0.0 ==> n.sqrt(x) > 0.0)
  }

  /** Inputs for which the closed forms stay in exact arithmetic: at or past
      expiry anything goes; before it spot, strike and volatility are positive. */
  predicate InDomain(S: real, K: real, T: real, sigma: real) {
    T > 0.0 ==> S > 0.0 && K > 0.0 && sigma > 0.0
  }

  /** What the holder of a put receives on exercising against a stock worth S. */
  function PutPayoff(S: real, K: real): real {
    if S < K then K - S else 0.0
  }

  /** What the holder of a call receives on exercising against a stock worth S. */
  function CallPayoff(S: real, K: real): real {
    if S > K then S - K else 0.0
  }

  /** Any option type other than "put" is priced as a call. */
  function Payoff(optionType: string, S: real, K: real): real {
    if optionType == "put" then PutPayoff(S, K) else CallPayoff(S, K)
  }

  lemma PositiveProduct(a: real, b: real)
    requires a > 0.0 && b > 0.0
    ensures a * b > 0.0
  {
  }

  lemma ScaledDown(a: real, b: real)
    requires a >= 0.0 && 0.0 <= b <= 1.0
    ensures 0.0 <= a * b <= a
  {
  }

  // ---------------------------------------------------------------- kernel

  /** `calculate_d1_d2`: (0, 0) at expiry; otherwise d2 lies sigma*sqrt(T) below d1. */
  function D1D2(n: Numerics, S: real, K: real, T: real, r: real, sigma: real): (d: (real, real))
    requires Sound(n) && InDomain(S, K, T, sigma)
    ensures T <= 0.0 ==> d == (0.0, 0.0)
    ensures T > 0.0 ==> d.0 - d.1 == sigma * n.sqrt(T) > 0.0
  {
    if T <= 0.0 then (0.0, 0.0)
    else
      PositiveProduct(sigma, n.sqrt(T));
      var d1 := (n.ln(S / K) + (r + 0.5 * (sigma * sigma)) * T) / (sigma * n.sqrt(T));
      var d2 := d1 - sigma * n.sqrt(T);
      (d1, d2)
  }

  /** `black_scholes_put`: never negative; at expiry the exercise value. */
  function BlackScholesPut(n: Numerics, S: real, K: real, T: real, r: real, sigma: real): (p: real)
    requires Sound(n) && InDomain(S, K, T, sigma)
    ensures p >= 0.0
    ensures T <= 0.0 ==> p == PutPayoff(S, K)
  {
    if T <= 0.0 then Max(K - S, 0.0)
    else
      var (d1, d2) := D1D2(n, S, K, T, r, sigma);
      Max(K * n.exp(-r * T) * n.cdf(-d2) - S * n.cdf(-d1), 0.0)
  }

  /** `black_scholes_call`: never negative; at expiry the exercise value. */
  function BlackScholesCall(n: Numerics, S: real, K: real, T: real, r: real, sigma: real): (p: real)
    requires Sound(n) && InDomain(S, K, T, sigma)
    ensures p >= 0.0
    ensures T <= 0.0 ==> p == CallPayoff(S, K)
  {
    if T <= 0.0 then Max(S - K, 0.0)
    else
      var (d1, d2) := D1D2(n, S, K, T, r, sigma);
      Max(S * n.cdf(d1) - K * n.exp(-r * T) * n.cdf(d2), 0.0)
  }

  /** Discounting at a non-negative rate never increases a value. */
  lemma DiscountFactor(n: Numerics, r: real, T: real)
    requires Sound(n) && r >= 0.0 && T > 0.0
    ensures 0.0 < n.exp(-r * T) <= 1.0
  {
    if r > 0.0 { PositiveProduct(r, T); }
  }

  /** A discounted, probability-weighted strike less a weighted positive stock
      price is at most the strike. */
  lemma PutBound(K: real, disc: real, c2: real, S: real, c1: real)
    requires K > 0.0 && 0.0 < disc <= 1.0 && 0.0 <= c2 <= 1.0 && S > 0.0 && 0.0 <= c1 <= 1.0
    ensures Max(K * disc * c2 - S * c1, 0.0) <= K
  {
    ScaledDown(K, disc);
    ScaledDown(K * disc, c2);
    ScaledDown(S, c1);
  }

  /** With a non-negative rate a put is worth at most its strike. */
  lemma PutPriceBounded(n: Numerics, S: real, K: real, T: real, r: real, sigma: real)
    requires Sound(n) && S > 0.0 && K > 0.0 && r >= 0.0 && InDomain(S, K, T, sigma)
    ensures BlackScholesPut(n, S, K, T, r, sigma) <= K
  {
    if T > 0.0 {
      var (d1, d2) := D1D2(n, S, K, T, r, sigma);
      var disc := n.exp(-r * T);
      DiscountFactor(n, r, T);
      PutBound(K, disc, n.cdf(-d2), S, n.cdf(-d1));
    }
  }

  /** A call is worth at most the stock. */
  lemma CallPriceBounded(n: Numerics, S: real, K: real, T: real, r: real, sigma: real)
    requires Sound(n) && S > 0.0 && K > 0.0 && InDomain(S, K, T, sigma)
    ensures BlackScholesCall(n, S, K, T, r, sigma) <= S
  {
    if T > 0.0 {
      var (d1, d2) := D1D2(n, S, K, T, r, sigma);
      var disc := n.exp(-r * T);
      ScaledDown(S, n.cdf(d1));
      assert K * disc > 0.0 by { PositiveProduct(K, disc); }
      ScaledDown(K * disc, n.cdf(d2));
      assert S * n.cdf(d1) - K * disc * n.cdf(d2) <= S;
    }
  }

  /** `calculate_delta_put`: between -1 and 0; at expiry -1 exactly when in the money. */
  function DeltaPut(n: Numerics, S: real, K: real, T: real, r: real, sigma: real): (delta: real)
    requires Sound(n) && InDomain(S, K, T, sigma)
    ensures -1.0 <= delta <= 0.0
    ensures T <= 0.0 ==> (delta == -1.0 <==> S < K) && (delta == 0.0 <==> S >= K)
  {
    if T <= 0.0 then (if S < K then -1.0 else 0.0)
    else
      var (d1, _) := D1D2(n, S, K, T, r, sigma);
      -n.cdf(-d1)
  }

  /** `calculate_delta_call`: between 0 and 1; at expiry 1 exactly when in the money. */
  function DeltaCall(n: Numerics, S: real, K: real, T: real, r: real, sigma: real): (delta: real)
    requires Sound(n) && InDomain(S, K, T, sigma)
    ensures 0.0 <= delta <= 1.0
    ensures T <= 0.0 ==> (delta == 1.0 <==> S > K) && (delta == 0.0 <==> S <= K)
  {
    if T <= 0.0 then (if S > K then 1.0 else 0.0)
    else
      var (d1, _) := D1D2(n, S, K, T, r, sigma);
      n.cdf(d1)
  }

  /** `calculate_gamma`: never negative, 0 at expiry. */
  function Gamma(n: Numerics, S: real, K: real, T: real, r: real, sigma: real): (g: real)
    requires Sound(n) && InDomain(S, K, T, sigma)
    ensures g >= 0.0
    ensures T <= 0.0 ==> g == 0.0
  {
    if T <= 0.0 then 0.0
    else
      var (d1, _) := D1D2(n, S, K, T, r, sigma);
      PositiveProduct(S, sigma);
      PositiveProduct(S * sigma, n.sqrt(T));
      n.pdf(d1) / (S * sigma * n.sqrt(T))
  }

  /** `calculate_theta_put` (per calendar day): 0 at expiry. */
  function ThetaPut(n: Numerics, S: real, K: real, T: real, r: real, sigma: real): (theta: real)
    requires Sound(n) && InDomain(S, K, T, sigma)
    ensures T <= 0.0 ==> theta == 0.0
  {
    if T <= 0.0 then 0.0
    else
      var (d1, d2) := D1D2(n, S, K, T, r, sigma);
      (-S * n.pdf(d1) * sigma / (2.0 * n.sqrt(T)) - r * K * n.exp(-r * T) * n.cdf(-d2)) / 365.0
  }

  /** `calculate_theta_call` (per calendar day): 0 at expiry. */
  function ThetaCall(n: Numerics, S: real, K: real, T: real, r: real, sigma: real): (theta: real)
    requires Sound(n) && InDomain(S, K, T, sigma)
    ensures T <= 0.0 ==> theta == 0.0
  {
    if T <= 0.0 then 0.0
    else
      var (d1, d2) := D1D2(n, S, K, T, r, sigma);
      (-S * n.pdf(d1) * sigma / (2.0 * n.sqrt(T)) + r * K * n.exp(-r * T) * n.cdf(d2)) / 365.0
  }

  /** With a non-negative rate a put only loses value as time passes, and a
      call loses no more than the put (the carry term has opposite signs). */
  lemma ThetaSigns(n: Numerics, S: real, K: real, T: real, r: real, sigma: real)
    requires Sound(n) && InDomain(S, K, T, sigma) && r >= 0.0
    ensures ThetaPut(n, S, K, T, r, sigma) <= 0.0
    ensures ThetaPut(n, S, K, T, r, sigma) <= ThetaCall(n, S, K, T, r, sigma)
  {
    if T > 0.0 {
      var (d1, d2) := D1D2(n, S, K, T, r, sigma);
      var decay := -S * n.pdf(d1) * sigma / (2.0 * n.sqrt(T));
      assert decay <= 0.0 by {
        ScaledDown(S, 1.0);
        assert S * n.pdf(d1) >= 0.0 by { if n.pdf(d1) > 0.0 { PositiveProduct(S, n.pdf(d1)); } }
        assert S * n.pdf(d1) * sigma >= 0.0 by {
          if S * n.pdf(d1) > 0.0 { PositiveProduct(S * n.pdf(d1), sigma); }
        }
      }
      var carry := r * K * n.exp(-r * T);
      assert carry >= 0.0 by {
        if r > 0.0 { PositiveProduct(r, K); PositiveProduct(r * K, n.exp(-r * T)); }
      }
      ScaledDown(carry, n.cdf(-d2));
      ScaledDown(carry, n.cdf(d2));
    }
  }

  /** `calculate_vega` (per volatility point): never negative, 0 at expiry. */
  function Vega(n: Numerics, S: real, K: real, T: real, r: real, sigma: real): (v: real)
    requires Sound(n) && InDomain(S, K, T, sigma)
    ensures v >= 0.0
    ensures T <= 0.0 ==> v == 0.0
  {
    if T <= 0.0 then 0.0
    else
      var (d1, _) := D1D2(n, S, K, T, r, sigma);
      assert S * n.pdf(d1) * n.sqrt(T) >= 0.0 by {
        if n.pdf(d1) > 0.0 {
          PositiveProduct(S, n.pdf(d1));
          PositiveProduct(S * n.pdf(d1), n.sqrt(T));
        }
      }
      S * n.pdf(d1) * n.sqrt(T) / 100.0
  }

  /** At expiry a call's delta exceeds the put's by one, except at the money
      where both are 0. */
  lemma DeltaSpreadAtExpiry(n: Numerics, S: real, K: real, T: real, r: real, sigma: real)
    requires Sound(n) && T <= 0.0
    ensures DeltaCall(n, S, K, T, r, sigma) - DeltaPut(n, S, K, T, r, sigma) == if S == K then 0.0 else 1.0
  {
  }

  // ------------------------------------------------------------ risk metrics

  /** `calculate_assignment_probability`: a probability; at expiry 1 exactly
      when the option is in or at the money; "put" is a put and any other type
      a call. */
  function AssignmentProbability(n: Numerics, S: real, K: real, T: real, r: real, sigma: real,
                                 optionType: string): (p: real)
    requires Sound(n) && InDomain(S, K, T, sigma)
    ensures 0.0 <= p <= 1.0
    ensures T <= 0.0 ==> (p == 1.0 || p == 0.0)
    ensures T <= 0.0 && optionType == "put" ==> (p == 1.0 <==> S <= K)
    ensures T <= 0.0 && optionType != "put" ==> (p == 1.0 <==> S >= K)
  {
    if T <= 0.0 then
      if optionType == "put" then (if S <= K then 1.0 else 0.0)
      else (if S >= K then 1.0 else 0.0)
    else
      var (_, d2) := D1D2(n, S, K, T, r, sigma);
      if optionType == "put" then n.cdf(-d2) else n.cdf(d2)
  }

  /** Every type other than "put" gets the call's probability. */
  lemma AssignmentTreatsOtherTypesAsCall(n: Numerics, S: real, K: real, T: real, r: real, sigma: real,
                                         optionType: string)
    requires Sound(n) && InDomain(S, K, T, sigma) && optionType != "put"
    ensures AssignmentProbability(n, S, K, T, r, sigma, optionType)
         == AssignmentProbability(n, S, K, T, r, sigma, "call")
  {
  }

  /** At expiry and away from the strike, assignment probability is the size
      of delta; at the strike both options count as assigned although both
      deltas are 0. */
  lemma AssignmentAgreesWithDeltaAtExpiry(n: Numerics, S: real, K: real, T: real, r: real, sigma: real)
    requires Sound(n) && T <= 0.0
    ensures S != K ==> AssignmentProbability(n, S, K, T, r, sigma, "put") == -DeltaPut(n, S, K, T, r, sigma)
    ensures S != K ==> AssignmentProbability(n, S, K, T, r, sigma, "call") == DeltaCall(n, S, K, T, r, sigma)
    ensures S == K ==>
      && AssignmentProbability(n, S, K, T, r, sigma, "put") == 1.0
      && AssignmentProbability(n, S, K, T, r, sigma, "call") == 1.0
      && DeltaPut(n, S, K, T, r, sigma) == 0.0 && DeltaCall(n, S, K, T, r, sigma) == 0.0
  {
  }

  /** `calculate_annualized_return`: 0 for an expired contract or a worthless
      premium; otherwise the premium as a fraction of the strike, scaled from
      `dte` days to 365. */
  function AnnualizedReturn(optionPrice: real, strikePrice: real, dte: int): (y: Float)
    ensures dte <= 0 || optionPrice <= 0.0 ==> y == Num(0.0)
    ensures dte > 0 && optionPrice > 0.0 && strikePrice == 0.0 ==> y == PosInf
    ensures dte > 0 && optionPrice > 0.0 && strikePrice != 0.0 ==>
              y.Num? && y.v * strikePrice * (dte as real) == optionPrice * 365.0
    ensures dte > 0 && optionPrice > 0.0 && strikePrice > 0.0 ==> y.Num? && y.v > 0.0
  {
    if dte <= 0 || optionPrice <= 0.0 then Num(0.0)
    else if strikePrice == 0.0 then PosInf  // a positive float64 over 0.0, then times 365/dte
    else
      var y := (optionPrice / strikePrice) * (365.0 / dte as real);
      assert y * strikePrice == optionPrice * (365.0 / dte as real);
      assert strikePrice > 0.0 ==> y > 0.0 by {
        if strikePrice > 0.0 {
          PositiveProduct(optionPrice / strikePrice, 365.0 / dte as real);
        }
      }
      Num(y)
  }

  /** `calculate_breakeven_price` */
  function BreakevenPrice(strikePrice: real, optionPrice: real, optionType: string): (b: real)
    ensures optionPrice >= 0.0 ==> SellerProfit(optionType, b, strikePrice, optionPrice) == 0.0
    ensures optionType == "put" ==> (b <= strikePrice <==> optionPrice >= 0.0)
    ensures optionType != "put" ==> (b >= strikePrice <==> optionPrice >= 0.0)
  {
    if optionType == "put" then strikePrice - optionPrice else strikePrice + optionPrice
  }

  /** What the seller of the option keeps at expiry when the stock is worth S. */
  function SellerProfit(optionType: string, S: real, K: real, premium: real): real {
    premium - Payoff(optionType, S, K)
  }

  /** The breakeven price splits the stock prices at expiry into those where the
      seller keeps money (at or above it for a put, at or below it for a call)
      and those where the seller loses. */
  lemma BreakevenSplitsProfit(optionType: string, S: real, K: real, premium: real)
    requires premium >= 0.0
    ensures optionType == "put" ==>
      (SellerProfit(optionType, S, K, premium) >= 0.0 <==> S >= BreakevenPrice(K, premium, optionType))
    ensures optionType != "put" ==>
      (SellerProfit(optionType, S, K, premium) >= 0.0 <==> S <= BreakevenPrice(K, premium, optionType))
  {
  }

  datatype ProfitLoss = ProfitLoss(maxProfit: real, maxLoss: Float)

  /** `calculate_max_profit_loss`: the premium is the most the seller can make;
      a put can lose the strike less the premium, a call without limit.
      The current price does not enter. */
  function MaxProfitLoss(optionPrice: real, strikePrice: real, currentPrice: real, optionType: string): (pl: ProfitLoss)
    ensures pl.maxProfit == optionPrice
    ensures optionType == "put" ==> pl.maxLoss == Num(strikePrice - optionPrice)
    ensures optionType != "put" ==> pl.maxLoss == PosInf
  {
    if optionType == "put" then ProfitLoss(optionPrice, Num(strikePrice - optionPrice))
    else ProfitLoss(optionPrice, PosInf)
  }

  /** For a put sold on a stock that cannot go below 0 the seller's result at
      expiry lies between minus the max loss and the max profit, and both ends
      are reached. */
  lemma PutProfitLossAreTight(S: real, K: real, premium: real, current: real)
    requires S >= 0.0 && K >= 0.0
    ensures var pl := MaxProfitLoss(premium, K, current, "put");
      && -pl.maxLoss.v <= SellerProfit("put", S, K, premium) <= pl.maxProfit
      && SellerProfit("put", 0.0, K, premium) == -pl.maxLoss.v
      && SellerProfit("put", K, K, premium) == pl.maxProfit
  {
  }

  /** For a call the seller never makes more than the premium, and there is a
      stock price at which the loss exceeds any bound: the loss is unbounded. */
  lemma CallLossIsUnbounded(optionType: string, K: real, premium: real, bound: real)
    requires optionType != "put" && bound >= 0.0
    ensures forall S :: SellerProfit(optionType, S, K, premium) <= premium
    ensures var S := K + Max(premium, 0.0) + bound + 1.0;
      SellerProfit(optionType, S, K, premium) < -bound
  {
  }

  /** The `max_loss > 0` test of the source, on a float. */
  predicate Positive(x: Float) {
    match x
    case Num(v) => v > 0.0
    case PosInf => true
    case _ => false
  }

  /** The `risk_reward_ratio` of `analyze_option`: profit over loss when the
      loss is positive (0 against an unbounded loss), infinite otherwise. */
  function RiskRewardRatio(pl: ProfitLoss): (ratio: Float)
    ensures ratio == PosInf <==> !Positive(pl.maxLoss)
    ensures pl.maxLoss == PosInf ==> ratio == Num(0.0)
    ensures pl.maxLoss.Num? && pl.maxLoss.v > 0.0 ==> ratio.Num? && ratio.v * pl.maxLoss.v == pl.maxProfit
  {
    match pl.maxLoss
    case Num(loss) => if loss > 0.0 then Num(pl.maxProfit / loss) else PosInf
    case PosInf => Num(0.0)
    case _ => PosInf
  }

  // ------------------------------------------------------ implied volatility

  const VolatilityFloor := 0.01
  const VolatilityCap := 5.0
  const DefaultVolatility := 0.3

  /** What the bounded scalar minimiser hands back: its best point and whether
      it reports success, or an exception. */
  datatype Minimization = Minimized(x: real, success: bool) | Raised

  /** A bounded minimiser only returns points inside its bounds. */
  predicate WithinBounds(m: Minimization) {
    m.Minimized? ==> VolatilityFloor <= m.x <= VolatilityCap
  }

  /** The model price the objective compares against, by option type. */
  function TheoreticalPrice(n: Numerics, optionType: string, S: real, K: real, T: real, r: real,
                            sigma: real): (p: real)
    requires Sound(n) && InDomain(S, K, T, sigma)
    ensures p >= 0.0
  {
    if optionType == "put" then BlackScholesPut(n, S, K, T, r, sigma)
    else BlackScholesCall(n, S, K, T, r, sigma)
  }

  /** The squared pricing error the minimiser is asked to drive to 0: never
      negative, and 0 (its least value) at a volatility that reproduces the
      market price. */
  function Objective(n: Numerics, optionType: string, S: real, K: real, T: real, r: real,
                     marketPrice: real, sigma: real): (e: real)
    requires Sound(n) && InDomain(S, K, T, sigma)
    ensures e >= 0.0
    ensures marketPrice == TheoreticalPrice(n, optionType, S, K, T, r, sigma) ==> e == 0.0
  {
    var diff := TheoreticalPrice(n, optionType, S, K, T, r, sigma) - marketPrice;
    diff * diff
  }

  /** `calculate_implied_volatility`: the minimiser's point when it reports
      success, 0.3 when it fails or raises; always a usable volatility. */
  function ImpliedVolatility(m: Minimization): (iv: real)
    ensures !m.Minimized? || !m.success ==> iv == DefaultVolatility
    ensures m.Minimized? && m.success ==> iv == m.x
    ensures WithinBounds(m) ==> VolatilityFloor <= iv <= VolatilityCap
  {
    match m
    case Minimized(x, success) => if success then x else DefaultVolatility
    case Raised => DefaultVolatility
  }

  // ---------------------------------------------------------------- analysis

  /** The fields of `option_data` that `analyze_option` reads. */
  datatype OptionInput = OptionInput(currentPrice: real, strikePrice: real, dte: int,
                                     optionPrice: real, optionType: Option<string>)

  datatype Analysis = Analysis(
    impliedVolatility: real, delta: real, gamma: real, theta: real, vega: real,
    assignmentProbability: real, annualizedReturn: Float, breakevenPrice: real,
    maxProfit: real, maxLoss: Float, riskRewardRatio: Float)

  /** A missing option type means a put. */
  function TypeOf(q: OptionInput): string {
    q.optionType.GetOr("put")
  }

  /** Years to expiry, from days. */
  function YearsToExpiry(dte: int): (T: real)
    ensures T * 365.0 == dte as real
    ensures T > 0.0 <==> dte > 0
  {
    dte as real / 365.0
  }

  /** What `analyze_option` demands so that it stays away from IEEE
      infinities: a contract that has not expired has a positive spot and strike. */
  predicate Analyzable(q: OptionInput) {
    q.dte > 0 ==> q.currentPrice > 0.0 && q.strikePrice > 0.0
  }

  /** `analyze_option` at risk-free rate `r`, given the minimiser's outcome. */
  function Analyze(n: Numerics, q: OptionInput, r: real, m: Minimization): (a: Analysis)
    requires Sound(n) && Analyzable(q) && WithinBounds(m)
    ensures a.impliedVolatility == ImpliedVolatility(m)
    ensures VolatilityFloor <= a.impliedVolatility <= VolatilityCap
    ensures TypeOf(q) == "put" ==> -1.0 <= a.delta <= 0.0
    ensures TypeOf(q) != "put" ==> 0.0 <= a.delta <= 1.0
    ensures a.gamma >= 0.0 && a.vega >= 0.0
    ensures 0.0 <= a.assignmentProbability <= 1.0
    ensures a.annualizedReturn.Num? && a.annualizedReturn.v >= 0.0
    ensures q.dte <= 0 ==> a.gamma == 0.0 && a.theta == 0.0 && a.vega == 0.0 && a.annualizedReturn == Num(0.0)
    ensures q.dte <= 0 && TypeOf(q) == "put" ==> (a.assignmentProbability == 1.0 <==> q.currentPrice <= q.strikePrice)
    ensures q.dte <= 0 && TypeOf(q) != "put" ==> (a.assignmentProbability == 1.0 <==> q.currentPrice >= q.strikePrice)
    ensures a.maxProfit == q.optionPrice
    ensures TypeOf(q) == "put" ==> a.breakevenPrice == q.strikePrice - q.optionPrice
    ensures TypeOf(q) != "put" ==> a.breakevenPrice == q.strikePrice + q.optionPrice
    ensures TypeOf(q) == "put" && q.strikePrice > q.optionPrice ==>
              a.riskRewardRatio == Num(q.optionPrice / (q.strikePrice - q.optionPrice))
    ensures TypeOf(q) == "put" && q.strikePrice <= q.optionPrice ==> a.riskRewardRatio == PosInf
    ensures TypeOf(q) != "put" ==> a.maxLoss == PosInf && a.riskRewardRatio == Num(0.0)
    ensures TypeOf(q) == "put" ==> a.maxLoss == Num(q.strikePrice - q.optionPrice)
    // the figures themselves, at T = dte / 365 years and the implied volatility
    ensures TypeOf(q) == "put" ==>
      a.delta == DeltaPut(n, q.currentPrice, q.strikePrice, YearsToExpiry(q.dte), r, ImpliedVolatility(m))
    ensures TypeOf(q) != "put" ==>
      a.delta == DeltaCall(n, q.currentPrice, q.strikePrice, YearsToExpiry(q.dte), r, ImpliedVolatility(m))
    ensures a.gamma == Gamma(n, q.currentPrice, q.strikePrice, YearsToExpiry(q.dte), r, ImpliedVolatility(m))
    ensures TypeOf(q) == "put" ==>
      a.theta == ThetaPut(n, q.currentPrice, q.strikePrice, YearsToExpiry(q.dte), r, ImpliedVolatility(m))
    ensures TypeOf(q) != "put" ==>
      a.theta == ThetaCall(n, q.currentPrice, q.strikePrice, YearsToExpiry(q.dte), r, ImpliedVolatility(m))
    ensures a.vega == Vega(n, q.currentPrice, q.strikePrice, YearsToExpiry(q.dte), r, ImpliedVolatility(m))
    ensures a.assignmentProbability ==
      AssignmentProbability(n, q.currentPrice, q.strikePrice, YearsToExpiry(q.dte), r, ImpliedVolatility(m), TypeOf(q))
    ensures a.annualizedReturn == AnnualizedReturn(q.optionPrice, q.strikePrice, q.dte)
  {
    var S, K, T := q.currentPrice, q.strikePrice, YearsToExpiry(q.dte);
    var optionType := TypeOf(q);
    var iv := ImpliedVolatility(m);
    var delta := if optionType == "put" then DeltaPut(n, S, K, T, r, iv) else DeltaCall(n, S, K, T, r, iv);
    var theta := if optionType == "put" then ThetaPut(n, S, K, T, r, iv) else ThetaCall(n, S, K, T, r, iv);
    var pl := MaxProfitLoss(q.optionPrice, K, S, optionType);
    Analysis(iv, delta, Gamma(n, S, K, T, r, iv), theta, Vega(n, S, K, T, r, iv),
             AssignmentProbability(n, S, K, T, r, iv, optionType),
             AnnualizedReturn(q.optionPrice, K, q.dte),
             BreakevenPrice(K, q.optionPrice, optionType),
             pl.maxProfit, pl.maxLoss, RiskRewardRatio(pl))
  }

  /** The calculator object: its risk-free rate is the one piece of state. */
  class OptionsCalculator {
    var riskFreeRate: real

    constructor ()
      ensures riskFreeRate == 0.05
    {
      riskFreeRate := 0.05;
    }

    /** `set_risk_free_rate` */
    method SetRiskFreeRate(rate: real)
      modifies this
      ensures riskFreeRate == rate
    {
      riskFreeRate := rate;
    }

    /** `analyze_option`: analysis at the calculator's current rate. */
    method AnalyzeOption(n: Numerics, q: OptionInput, m: Minimization) returns (a: Analysis)
      requires Sound(n) && Analyzable(q) && WithinBounds(m)
      ensures a == Analyze(n, q, riskFreeRate, m)
    {
      a := Analyze(n, q, riskFreeRate, m);
    }
  }
}
