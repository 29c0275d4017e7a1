/** The helper functions of the utilities module: input validators, the safe
    division, the risk tier, the user-facing error message, the generic table
    cleaning and the threshold filter. */
module Utils {
  import opened Wrappers
  import opened Numbers
  import opened Text
  import opened Frames
  import Calculator

  // ------------------------------------------------------------ stock symbol

  /** A ticker as the validator understands it: one to five letters. */
  predicate IsTicker(t: string) {
    1 <= |t| <= 5 && forall i :: 0 <= i < |t| ==> IsLetter(t[i])
  }

  /** `validate_stock_symbol` (on strings; the `isinstance` test has no
      counterpart). A symbol is accepted exactly when, once surrounding
      whitespace is removed, it is one to five letters of either case. */
  function ValidateStockSymbol(symbol: string): (ok: bool)
    ensures ok <==> IsTicker(Strip(symbol))
  {
    StripUpper(symbol);
    TickerIgnoresCase(Strip(symbol));
    if symbol == [] then false
    else
      var s := Strip(Upper(symbol));
      if |s| < 1 || |s| > 5 then false
      else IsAlpha(s)
  }

  lemma TickerIgnoresCase(t: string)
    ensures IsTicker(Upper(t)) <==> IsTicker(t)
  {
  }

  /** Case does not matter to the validator. */
  lemma SymbolValidationIgnoresCase(symbol: string)
    ensures ValidateStockSymbol(Upper(symbol)) == ValidateStockSymbol(symbol)
  {
    StripUpper(symbol);
    TickerIgnoresCase(Strip(symbol));
  }

  /** One space either side of a symbol does not change the verdict. */
  lemma SymbolPaddingIgnored(symbol: string)
    ensures ValidateStockSymbol([' '] + symbol + [' ']) == ValidateStockSymbol(symbol)
  {
    StripPadded(symbol);
  }

  // -------------------------------------------------------- pricing inputs

  /** `validate_calculation_inputs` (on numbers; the type test has no counterpart). */
  function ValidateCalculationInputs(S: real, K: real, T: real, r: real, sigma: real): (ok: bool)
    ensures ok <==> S > 0.0 && K > 0.0 && T >= 0.0 && 0.0 <= r <= 1.0 && 0.0 <= sigma <= 5.0
    ensures ok && sigma > 0.0 ==> Calculator.InDomain(S, K, T, sigma)
  {
    if S <= 0.0 || K <= 0.0 then false
    else if T < 0.0 then false
    else if r < 0.0 || r > 1.0 then false
    else if sigma < 0.0 || sigma > 5.0 then false
    else true
  }

  /** Inputs the validator accepts, with a positive volatility, are priced
      without leaving exact arithmetic, to a put worth at most its strike, a
      call worth at most the stock and a probability. */
  lemma ValidInputsPriceSafely(n: Calculator.Numerics, S: real, K: real, T: real, r: real, sigma: real)
    requires Calculator.Sound(n) && ValidateCalculationInputs(S, K, T, r, sigma) && sigma > 0.0
    ensures Calculator.InDomain(S, K, T, sigma)
    ensures 0.0 <= Calculator.BlackScholesPut(n, S, K, T, r, sigma) <= K
    ensures 0.0 <= Calculator.BlackScholesCall(n, S, K, T, r, sigma) <= S
  {
    Calculator.PutPriceBounded(n, S, K, T, r, sigma);
    Calculator.CallPriceBounded(n, S, K, T, r, sigma);
  }

  /** The validator admits a zero volatility, for which the closed forms
      before expiry divide by zero. */
  lemma ValidatorAdmitsZeroVolatility()
    ensures ValidateCalculationInputs(100.0, 100.0, 1.0, 0.05, 0.0)
    ensures !Calculator.InDomain(100.0, 100.0, 1.0, 0.0)
  {
  }

  // ------------------------------------------------------------ safe divide

  /** `safe_divide`: the quotient when both operands are finite and the
      denominator is not 0, otherwise `default`; never raises. */
  function SafeDivide(numerator: Float, denominator: Float, default: real): (q: real)
    ensures !numerator.IsFinite() || !denominator.IsFinite() || denominator == Num(0.0) ==> q == default
    ensures numerator.IsFinite() && denominator.IsFinite() && denominator.v != 0.0 ==>
              q * denominator.v == numerator.v
  {
    if denominator == Num(0.0) || denominator.NaN? || denominator.PosInf? || denominator.NegInf? then default
    else if numerator.NaN? || numerator.PosInf? || numerator.NegInf? then default
    else numerator.v / denominator.v
  }

  // --------------------------------------------------------------- risk tier

  datatype RiskTier = Low | Medium | High

  function Rank(t: RiskTier): nat {
    match t
    case Low => 0
    case Medium => 1
    case High => 2
  }

  /** The weighted score behind the tier: assignment probability counts 70%,
      shortfall of the return below 200% counts 30%. */
  function RiskScore(assignmentProb: real, annualReturn: real): real {
    assignmentProb * 0.7 + (1.0 - Min(annualReturn, 2.0) / 2.0) * 0.3
  }

  /** `calculate_risk_score` (the numeric path; the unknown tier is only
      returned on a non-numeric input). */
  function CalculateRiskScore(assignmentProb: real, annualReturn: real): (tier: RiskTier)
    ensures assignmentProb >= 6.0 / 7.0 ==> tier == High
    ensures tier == Low ==> assignmentProb < 3.0 / 7.0
    ensures annualReturn >= 2.0 ==>
      (tier == Low <==> assignmentProb < 3.0 / 7.0) && (tier == High <==> assignmentProb >= 6.0 / 7.0)
  {
    var score := RiskScore(assignmentProb, annualReturn);
    if score < 0.3 then Low
    else if score < 0.6 then Medium
    else High
  }

  /** Returns above 200% all count the same. */
  lemma RiskIgnoresReturnAboveTwo(p: real, ret1: real, ret2: real)
    requires ret1 >= 2.0 && ret2 >= 2.0
    ensures CalculateRiskScore(p, ret1) == CalculateRiskScore(p, ret2)
  {
  }

  /** A likelier assignment never improves the tier; a higher return never
      worsens it. */
  lemma RiskTierMonotone(p1: real, p2: real, ret1: real, ret2: real)
    requires p1 <= p2 && ret1 >= ret2
    ensures Rank(CalculateRiskScore(p1, ret1)) <= Rank(CalculateRiskScore(p2, ret2))
  {
    assert Min(ret1, 2.0) >= Min(ret2, 2.0);
    assert RiskScore(p1, ret1) <= RiskScore(p2, ret2);
  }

  // --------------------------------------------------------- error messages

  datatype ErrorKind = Network | NotFound | RateLimited | Forbidden | Other

  /** The message fragments that identify each kind, in lower case. */
  predicate Mentions(kind: ErrorKind, msg: string) {
    match kind
    case Network => Contains(msg, "timeout") || Contains(msg, "connection")
    case NotFound => Contains(msg, "not found") || Contains(msg, "404")
    case RateLimited => Contains(msg, "rate limit") || Contains(msg, "too many requests")
    case Forbidden => Contains(msg, "permission") || Contains(msg, "unauthorized")
    case Other => true
  }

  /** The first kind in `order` that the message mentions. */
  function FirstMentioned(order: seq<ErrorKind>, msg: string): (k: ErrorKind)
    ensures k == Other || k in order
  {
    if order == [] then Other
    else if Mentions(order[0], msg) then order[0]
    else FirstMentioned(order[1..], msg)
  }

  const Precedence := [Network, NotFound, RateLimited, Forbidden]

  /** The branch `handle_api_error` takes for an already lower-cased message. */
  function Classify(msg: string): (k: ErrorKind)
    ensures k != Other ==> Mentions(k, msg)
    ensures k == Other <==> forall i :: 0 <= i < |Precedence| ==> !Mentions(Precedence[i], msg)
  {
    assert (forall i :: 0 <= i < |Precedence| ==> !Mentions(Precedence[i], msg)) <==>
      !Mentions(Network, msg) && !Mentions(NotFound, msg) && !Mentions(RateLimited, msg) && !Mentions(Forbidden, msg) by {
      assert Precedence[0] == Network && Precedence[1] == NotFound;
      assert Precedence[2] == RateLimited && Precedence[3] == Forbidden;
    }
    if Contains(msg, "timeout") || Contains(msg, "connection") then Network
    else if Contains(msg, "not found") || Contains(msg, "404") then NotFound
    else if Contains(msg, "rate limit") || Contains(msg, "too many requests") then RateLimited
    else if Contains(msg, "permission") || Contains(msg, "unauthorized") then Forbidden
    else Other
  }

  /** The chain of tests picks the first kind, in the fixed precedence, that
      the message mentions; a message that mentions none gets the generic text. */
  lemma ClassifyIsFirstMatch(msg: string)
    ensures Classify(msg) == FirstMentioned(Precedence, msg)
  {
    var p1, p2, p3, p4 := Precedence[1..], Precedence[2..], Precedence[3..], Precedence[4..];
    assert p1[1..] == p2 && p2[1..] == p3 && p3[1..] == p4 && p4 == [];
    assert FirstMentioned(p4, msg) == Other;
    assert FirstMentioned(p3, msg) == if Mentions(Forbidden, msg) then Forbidden else Other;
    assert FirstMentioned(p2, msg) == if Mentions(RateLimited, msg) then RateLimited else FirstMentioned(p3, msg);
    assert FirstMentioned(p1, msg) == if Mentions(NotFound, msg) then NotFound else FirstMentioned(p2, msg);
    assert FirstMentioned(Precedence, msg) == if Mentions(Network, msg) then Network else FirstMentioned(p1, msg);
  }

  function Advice(kind: ErrorKind): string {
    match kind
    case Network => "网络连接超时，请检查网络连接后重试。"
    case NotFound => "未找到相关数据，请检查股票代码是否正确。"
    case RateLimited => "请求过于频繁，请稍后重试。"
    case Forbidden => "访问权限不足，请稍后重试。"
    case Other => "数据获取失败，请稍后重试。"
  }

  /** `handle_api_error`, given the error's text: the advice for its kind
      followed by the context. */
  function HandleApiError(error: string, context: string): (message: string)
    ensures message == Advice(FirstMentioned(Precedence, Lower(error))) + context
    ensures |message| > |context| && message[|message| - |context|..] == context
  {
    ClassifyIsFirstMatch(Lower(error));
    Advice(Classify(Lower(error))) + context
  }

  /** The message does not depend on the case the error was written in. */
  lemma ApiErrorIgnoresCase(error: string, context: string)
    ensures HandleApiError(Upper(error), context) == HandleApiError(error, context)
    ensures HandleApiError(Lower(error), context) == HandleApiError(error, context)
  {
    LowerUpper(error);
  }

  // ------------------------------------------------------- table cleaning

  const RequiredFields := [StrikePrice, OptionPrice]
  const NumericFields := [StrikePrice, OptionPrice, BidPrice, AskPrice, Volume, OpenInterest, ImpliedVolatility]

  /** `dropna(subset=[f])` for each field `f` of `fields` that is a column. */
  function NotNulls(fields: seq<Column>, columns: set<Column>): seq<Condition> {
    if fields == [] then []
    else
      var last := fields[|fields| - 1];
      NotNulls(fields[..|fields| - 1], columns) + (if last in columns then [NotNull(last)] else [])
  }

  /** A row passes the passes over `fields` exactly when it has every field
      that is a column. */
  lemma {:induction false} NotNullsMeaning(fields: seq<Column>, columns: set<Column>, r: Row)
    ensures HoldsAll(NotNulls(fields, columns), r) <==>
              forall i :: 0 <= i < |fields| && fields[i] in columns ==> fields[i] in r.cells
    decreases |fields|
  {
    if fields != [] {
      var last := fields[|fields| - 1];
      var front := fields[..|fields| - 1];
      var step := if last in columns then [NotNull(last)] else [];
      NotNullsMeaning(front, columns, r);
      HoldsAllAppend(NotNulls(front, columns), step, r);
      if forall i :: 0 <= i < |fields| && fields[i] in columns ==> fields[i] in r.cells {
        forall i | 0 <= i < |front| && front[i] in columns ensures front[i] in r.cells {
          assert front[i] == fields[i];
        }
      }
      if HoldsAll(NotNulls(fields, columns), r) {
        forall i | 0 <= i < |fields| && fields[i] in columns ensures fields[i] in r.cells {
          if i < |front| {
            assert front[i] == fields[i];
          } else {
            assert step[0] == NotNull(last);
          }
        }
      }
    }
  }

  /** The outlier filters, each applied only when its column exists. */
  function RangeChecks(columns: set<Column>): seq<Condition> {
    (if StrikePrice in columns then [Above(StrikePrice, 0.0)] else [])
    + (if OptionPrice in columns then [Above(OptionPrice, 0.0)] else [])
    + (if Volume in columns then [AtLeast(Volume, 0.0)] else [])
    + (if ImpliedVolatility in columns then [AtMost(ImpliedVolatility, 5.0), AtLeast(ImpliedVolatility, 0.01)] else [])
  }

  /** Every row test `validate_option_data` applies, in order. */
  function CleaningConditions(t: Table): seq<Condition> {
    [NotAllNull(t.columns, t.otherColumns)]
    + NotNulls(RequiredFields, t.columns)
    + NotNulls(NumericFields, t.columns)
    + RangeChecks(t.columns)
  }

  /** What `validate_option_data` returns: an empty frame as it is, otherwise
      the rows that pass every test. The IV back-fill is absent because it
      never finds anything to fill. */
  function CleanedOptionData(t: Table): (u: Table)
    ensures IsEmpty(t) ==> u == t
    ensures u.columns == t.columns && u.otherColumns == t.otherColumns
    ensures IsSubsequence(u.rows, t.rows)
  {
    SubsequenceReflexive(t.rows);
    if IsEmpty(t) then t
    else Table(t.columns, t.otherColumns, Select(t.rows, CleaningConditions(t)))
  }

  /** `validate_option_data`: successive `dropna` passes over the field lists,
      the outlier filters, then the IV back-fill. */
  method ValidateOptionData(data: Table) returns (cleaned: Table)
    ensures cleaned == CleanedOptionData(data)
  {
    if IsEmpty(data) {
      return data;
    }
    var columns := data.columns;
    var base := [NotAllNull(columns, data.otherColumns)];
    var rows := Select(data.rows, base);
    rows := DropMissing(rows, RequiredFields, columns);
    SelectSelect(data.rows, base, NotNulls(RequiredFields, columns));
    base := base + NotNulls(RequiredFields, columns);
    // `pd.to_numeric` leaves numeric cells as they are; each pass then drops
    // the rows where the field is missing.
    rows := DropMissing(rows, NumericFields, columns);
    SelectSelect(data.rows, base, NotNulls(NumericFields, columns));
    base := base + NotNulls(NumericFields, columns);
    assert forall r :: r in rows && ImpliedVolatility in columns ==> ImpliedVolatility in r.cells by {
      assert NumericFields[6] == ImpliedVolatility;
    }

    ghost var numeric := rows;
    SelectSelect(data.rows, base, RangeChecks(columns));
    rows := Select(rows, RangeChecks(columns));
    assert base + RangeChecks(columns) == CleaningConditions(data);

    if ImpliedVolatility in columns {
      SubsequenceFacts(rows, numeric);
      FillNaNothingToFill(rows, ImpliedVolatility, 0.3);
      rows := FillNa(rows, ImpliedVolatility, 0.3);
    }
    cleaned := Table(columns, data.otherColumns, rows);
  }

  /** The cleaned frame keeps the columns, drops rows without adding or
      reordering any, and every surviving row has a positive strike and
      price, a non-negative volume and an IV between 1% and 500%, for each
      of those columns the frame has. */
  lemma CleanedRowsInRange(data: Table)
    ensures forall r :: r in CleanedOptionData(data).rows && !IsEmpty(data) ==>
      && (StrikePrice in data.columns ==> StrikePrice in r.cells && r.cells[StrikePrice] > 0.0)
      && (OptionPrice in data.columns ==> OptionPrice in r.cells && r.cells[OptionPrice] > 0.0)
      && (Volume in data.columns ==> Volume in r.cells && r.cells[Volume] >= 0.0)
      && (ImpliedVolatility in data.columns ==>
            ImpliedVolatility in r.cells && 0.01 <= r.cells[ImpliedVolatility] <= 5.0)
  {
    if !IsEmpty(data) {
      var base := [NotAllNull(data.columns, data.otherColumns)]
        + NotNulls(RequiredFields, data.columns) + NotNulls(NumericFields, data.columns);
      assert CleaningConditions(data) == base + RangeChecks(data.columns);
      forall r | r in CleanedOptionData(data).rows
        ensures && (StrikePrice in data.columns ==> StrikePrice in r.cells && r.cells[StrikePrice] > 0.0)
                && (OptionPrice in data.columns ==> OptionPrice in r.cells && r.cells[OptionPrice] > 0.0)
                && (Volume in data.columns ==> Volume in r.cells && r.cells[Volume] >= 0.0)
                && (ImpliedVolatility in data.columns ==>
                      ImpliedVolatility in r.cells && 0.01 <= r.cells[ImpliedVolatility] <= 5.0)
      {
        RangeChecksHold(data.columns, r, base);
      }
    }
  }

  /** `dropna(subset=[f])` for each field `f` of `fields` the frame has, in order. */
  method DropMissing(rows: seq<Row>, fields: seq<Column>, columns: set<Column>) returns (kept: seq<Row>)
    ensures kept == Select(rows, NotNulls(fields, columns))
    ensures forall r :: r in kept ==> forall i :: 0 <= i < |fields| && fields[i] in columns ==> fields[i] in r.cells
  {
    SelectAllPass(rows, []);
    assert fields[..0] == [];
    kept := rows;
    for i := 0 to |fields|
      invariant kept == Select(rows, NotNulls(fields[..i], columns))
    {
      var field := fields[i];
      ghost var done := NotNulls(fields[..i], columns);
      ghost var step := if field in columns then [NotNull(field)] else [];
      assert fields[..i + 1][..i] == fields[..i];
      assert NotNulls(fields[..i + 1], columns) == done + step;
      if field in columns {
        SelectSelect(rows, done, step);
        kept := Select(kept, [NotNull(field)]);
      } else {
        assert done + step == done;
      }
    }
    assert fields[..|fields|] == fields;
    forall r | r in kept
      ensures forall i :: 0 <= i < |fields| && fields[i] in columns ==> fields[i] in r.cells
    {
      NotNullsMeaning(fields, columns, r);
    }
  }

  lemma RangeChecksHold(columns: set<Column>, r: Row, base: seq<Condition>)
    requires HoldsAll(base + RangeChecks(columns), r)
    ensures && (StrikePrice in columns ==> StrikePrice in r.cells && r.cells[StrikePrice] > 0.0)
            && (OptionPrice in columns ==> OptionPrice in r.cells && r.cells[OptionPrice] > 0.0)
            && (Volume in columns ==> Volume in r.cells && r.cells[Volume] >= 0.0)
            && (ImpliedVolatility in columns ==>
                  ImpliedVolatility in r.cells && 0.01 <= r.cells[ImpliedVolatility] <= 5.0)
  {
    HoldsAllAppend(base, RangeChecks(columns), r);
    var s := if StrikePrice in columns then [Above(StrikePrice, 0.0)] else [];
    var o := if OptionPrice in columns then [Above(OptionPrice, 0.0)] else [];
    var v := if Volume in columns then [AtLeast(Volume, 0.0)] else [];
    var iv := if ImpliedVolatility in columns then [AtMost(ImpliedVolatility, 5.0), AtLeast(ImpliedVolatility, 0.01)] else [];
    assert RangeChecks(columns) == s + o + v + iv;
    HoldsAllAppend(s + o + v, iv, r);
    HoldsAllAppend(s + o, v, r);
    HoldsAllAppend(s, o, r);
    if StrikePrice in columns { assert Holds(s[0], r); }
    if OptionPrice in columns { assert Holds(o[0], r); }
    if Volume in columns { assert Holds(v[0], r); }
    if ImpliedVolatility in columns { assert Holds(iv[0], r) && Holds(iv[1], r); }
  }

  // ------------------------------------------------------ criteria filter

  /** The keys `filter_options_by_criteria` looks for; an absent key is None. */
  datatype Criteria = Criteria(
    minAnnualReturn: Option<real>, maxAssignmentProb: Option<real>, minVolume: Option<real>,
    maxDte: Option<real>, minDte: Option<real>, minStrikePrice: Option<real>, maxStrikePrice: Option<real>)

  const NoCriteria := Criteria(None, None, None, None, None, None, None)

  function AtLeastIf(bound: Option<real>, c: Column): seq<Condition> {
    if bound.Some? then [AtLeast(c, bound.value)] else []
  }

  function AtMostIf(bound: Option<real>, c: Column): seq<Condition> {
    if bound.Some? then [AtMost(c, bound.value)] else []
  }

  /** The thresholds of the keys present, in the order the source tests them. */
  function Thresholds(c: Criteria): seq<Condition> {
    AtLeastIf(c.minAnnualReturn, AnnualizedReturn)
    + AtMostIf(c.maxAssignmentProb, AssignmentProbability)
    + AtLeastIf(c.minVolume, Volume)
    + AtMostIf(c.maxDte, Dte)
    + AtLeastIf(c.minDte, Dte)
    + AtLeastIf(c.minStrikePrice, StrikePrice)
    + AtMostIf(c.maxStrikePrice, StrikePrice)
  }

  /** A row meets the criteria: each present threshold holds of a non-missing
      cell. */
  predicate Meets(c: Criteria, r: Row) {
    && (c.minAnnualReturn.Some? ==> AnnualizedReturn in r.cells && r.cells[AnnualizedReturn] >= c.minAnnualReturn.value)
    && (c.maxAssignmentProb.Some? ==> AssignmentProbability in r.cells && r.cells[AssignmentProbability] <= c.maxAssignmentProb.value)
    && (c.minVolume.Some? ==> Volume in r.cells && r.cells[Volume] >= c.minVolume.value)
    && (c.maxDte.Some? ==> Dte in r.cells && r.cells[Dte] <= c.maxDte.value)
    && (c.minDte.Some? ==> Dte in r.cells && r.cells[Dte] >= c.minDte.value)
    && (c.minStrikePrice.Some? ==> StrikePrice in r.cells && r.cells[StrikePrice] >= c.minStrikePrice.value)
    && (c.maxStrikePrice.Some? ==> StrikePrice in r.cells && r.cells[StrikePrice] <= c.maxStrikePrice.value)
  }

  /** The thresholds hold together exactly when each present key's holds. */
  lemma ThresholdsSplit(c: Criteria, r: Row)
    ensures HoldsAll(Thresholds(c), r) <==>
      && HoldsAll(AtLeastIf(c.minAnnualReturn, AnnualizedReturn), r)
      && HoldsAll(AtMostIf(c.maxAssignmentProb, AssignmentProbability), r)
      && HoldsAll(AtLeastIf(c.minVolume, Volume), r)
      && HoldsAll(AtMostIf(c.maxDte, Dte), r)
      && HoldsAll(AtLeastIf(c.minDte, Dte), r)
      && HoldsAll(AtLeastIf(c.minStrikePrice, StrikePrice), r)
      && HoldsAll(AtMostIf(c.maxStrikePrice, StrikePrice), r)
  {
    var a := AtLeastIf(c.minAnnualReturn, AnnualizedReturn);
    var b := AtMostIf(c.maxAssignmentProb, AssignmentProbability);
    var v := AtLeastIf(c.minVolume, Volume);
    var d1 := AtMostIf(c.maxDte, Dte);
    var d2 := AtLeastIf(c.minDte, Dte);
    var s1 := AtLeastIf(c.minStrikePrice, StrikePrice);
    var s2 := AtMostIf(c.maxStrikePrice, StrikePrice);
    HoldsAllAppend(a + b + v + d1 + d2 + s1, s2, r);
    HoldsAllAppend(a + b + v + d1 + d2, s1, r);
    HoldsAllAppend(a + b + v + d1, d2, r);
    HoldsAllAppend(a + b + v, d1, r);
    HoldsAllAppend(a + b, v, r);
    HoldsAllAppend(a, b, r);
  }

  lemma ThresholdsMeanMeets(c: Criteria, r: Row)
    ensures HoldsAll(Thresholds(c), r) <==> Meets(c, r)
  {
    ThresholdsSplit(c, r);
    BoundMeaning(AtLeastIf(c.minAnnualReturn, AnnualizedReturn), r);
    BoundMeaning(AtMostIf(c.maxAssignmentProb, AssignmentProbability), r);
    BoundMeaning(AtLeastIf(c.minVolume, Volume), r);
    BoundMeaning(AtMostIf(c.maxDte, Dte), r);
    BoundMeaning(AtLeastIf(c.minDte, Dte), r);
    BoundMeaning(AtLeastIf(c.minStrikePrice, StrikePrice), r);
    BoundMeaning(AtMostIf(c.maxStrikePrice, StrikePrice), r);
  }

  lemma BoundMeaning(conds: seq<Condition>, r: Row)
    requires |conds| <= 1
    ensures HoldsAll(conds, r) <==> conds == [] || Holds(conds[0], r)
  {
  }

  /** The column a threshold reads. */
  function ColumnOf(cond: Condition): Column
    requires cond.AtLeast? || cond.AtMost?
  {
    cond.col
  }

  predicate AllThresholds(conds: seq<Condition>) {
    forall i :: 0 <= i < |conds| ==> conds[i].AtLeast? || conds[i].AtMost?
  }

  /** Applying thresholds one by one: indexing a column the frame lacks raises
      `KeyError`, reported here as that column. */
  function ApplyThresholds(columns: set<Column>, rows: seq<Row>, conds: seq<Condition>): (res: Result<seq<Row>, Column>)
    requires AllThresholds(conds)
    ensures res.Success? ==> |res.value| <= |rows| && forall x :: x in res.value ==> x in rows
    ensures res.Failure? ==> res.error !in columns
    decreases |conds|
  {
    if conds == [] then Success(rows)
    else if ColumnOf(conds[0]) !in columns then Failure(ColumnOf(conds[0]))
    else
      SubsequenceFacts(Select(rows, [conds[0]]), rows);
      ApplyThresholds(columns, Select(rows, [conds[0]]), conds[1..])
  }

  /** What `filter_options_by_criteria` returns or raises. */
  function FilteredByCriteria(data: Table, c: Criteria): (res: Result<Table, Column>)
    ensures IsEmpty(data) ==> res == Success(data)
    ensures res.Success? ==> res.value.columns == data.columns && res.value.otherColumns == data.otherColumns
    ensures res.Success? ==> |res.value.rows| <= |data.rows| && forall x :: x in res.value.rows ==> x in data.rows
    ensures res.Failure? ==> res.error !in data.columns
  {
    if IsEmpty(data) then Success(data)
    else
      assert AllThresholds(Thresholds(c)) by { ThresholdsAreThresholds(c); }
      match ApplyThresholds(data.columns, data.rows, Thresholds(c))
      case Success(rows) => Success(Table(data.columns, data.otherColumns, rows))
      case Failure(col) => Failure(col)
  }

  lemma ThresholdsAreThresholds(c: Criteria)
    ensures AllThresholds(Thresholds(c))
  {
  }

  /** `filter_options_by_criteria`: the seven key tests in source order, each
      narrowing the working copy when its key is present. */
  method FilterOptionsByCriteria(data: Table, c: Criteria) returns (result: Result<Table, Column>)
    ensures result == FilteredByCriteria(data, c)
  {
    if IsEmpty(data) {
      return Success(data);
    }
    var conds := Thresholds(c);
    ThresholdsAreThresholds(c);
    var rows := data.rows;
    for i := 0 to |conds|
      invariant AllThresholds(conds[i..])
      invariant ApplyThresholds(data.columns, data.rows, conds) == ApplyThresholds(data.columns, rows, conds[i..])
    {
      assert conds[i..][1..] == conds[i + 1..];
      var col := ColumnOf(conds[i]);
      if col !in data.columns {
        return Failure(col);
      }
      rows := Select(rows, [conds[i]]);
    }
    return Success(Table(data.columns, data.otherColumns, rows));
  }

  /** Once every column it tests exists, the thresholds select the rows
      that meet them. */
  lemma {:induction false} ApplyThresholdsSelects(columns: set<Column>, rows: seq<Row>, conds: seq<Condition>)
    requires AllThresholds(conds)
    requires forall i :: 0 <= i < |conds| ==> ColumnOf(conds[i]) in columns
    ensures ApplyThresholds(columns, rows, conds) == Success(Select(rows, conds))
    decreases |conds|
  {
    if conds == [] {
      SelectAllPass(rows, conds);
    } else {
      ApplyThresholdsSelects(columns, Select(rows, [conds[0]]), conds[1..]);
      SelectSelect(rows, [conds[0]], conds[1..]);
      assert [conds[0]] + conds[1..] == conds;
    }
  }

  /** A missing column is reported only if some present key needs it. */
  lemma {:induction false} ApplyThresholdsFails(columns: set<Column>, rows: seq<Row>, conds: seq<Condition>)
    requires AllThresholds(conds)
    ensures ApplyThresholds(columns, rows, conds).Failure? ==>
      exists i :: 0 <= i < |conds| && ColumnOf(conds[i]) == ApplyThresholds(columns, rows, conds).error
                                   && ColumnOf(conds[i]) !in columns
    decreases |conds|
  {
    if conds != [] && ColumnOf(conds[0]) in columns {
      ApplyThresholdsFails(columns, Select(rows, [conds[0]]), conds[1..]);
      var e := ApplyThresholds(columns, rows, conds);
      if e.Failure? {
        var i :| 0 <= i < |conds[1..]| && ColumnOf(conds[1..][i]) == e.error && ColumnOf(conds[1..][i]) !in columns;
        assert conds[1..][i] == conds[i + 1];
      }
    }
  }

  /** When the frame has the columns the present keys test, the result is
      exactly the rows that meet every present threshold, in their order. */
  lemma FilterSelectsMeetingRows(data: Table, c: Criteria)
    requires !IsEmpty(data)
    requires AllThresholds(Thresholds(c))
    requires forall i :: 0 <= i < |Thresholds(c)| ==> ColumnOf(Thresholds(c)[i]) in data.columns
    ensures FilteredByCriteria(data, c).Success?
    ensures var out := FilteredByCriteria(data, c).value;
      && out.columns == data.columns
      && IsSubsequence(out.rows, data.rows)
      && (forall r :: r in out.rows ==> Meets(c, r))
      && (forall r :: r in data.rows && Meets(c, r) ==> r in out.rows)
    ensures var out := FilteredByCriteria(data, c).value;
      && out.rows == Select(data.rows, Thresholds(c))
      && forall r :: multiset(out.rows)[r] == if Meets(c, r) then multiset(data.rows)[r] else 0
  {
    ThresholdsAreThresholds(c);
    ApplyThresholdsSelects(data.columns, data.rows, Thresholds(c));
    SelectCounts(data.rows, Thresholds(c));
    forall r ensures HoldsAll(Thresholds(c), r) <==> Meets(c, r) {
      ThresholdsMeanMeets(c, r);
    }
  }

  /** With no keys present the data comes back unchanged. */
  lemma NoCriteriaKeepsEverything(data: Table)
    ensures FilteredByCriteria(data, NoCriteria) == Success(data)
  {
    if !IsEmpty(data) {
      SelectAllPass(data.rows, []);
      assert Thresholds(NoCriteria) == [];
    }
  }

  /** Filtering the result again with the same criteria changes nothing. */
  lemma FilterIdempotent(data: Table, c: Criteria)
    requires FilteredByCriteria(data, c).Success?
    ensures FilteredByCriteria(FilteredByCriteria(data, c).value, c) == FilteredByCriteria(data, c)
  {
    var once := FilteredByCriteria(data, c).value;
    ThresholdsAreThresholds(c);
    if !IsEmpty(data) && !IsEmpty(once) {
      ApplyThresholdsFails(data.columns, data.rows, Thresholds(c));
      forall i | 0 <= i < |Thresholds(c)| ensures ColumnOf(Thresholds(c)[i]) in data.columns {
        ApplyThresholdsColumns(data.columns, data.rows, Thresholds(c), i);
      }
      ApplyThresholdsSelects(data.columns, data.rows, Thresholds(c));
      ApplyThresholdsSelects(data.columns, once.rows, Thresholds(c));
      SelectIdempotent(data.rows, Thresholds(c));
    }
  }

  /** A successful pass had every column it tested. */
  lemma {:induction false} ApplyThresholdsColumns(columns: set<Column>, rows: seq<Row>, conds: seq<Condition>, i: int)
    requires AllThresholds(conds) && 0 <= i < |conds|
    requires ApplyThresholds(columns, rows, conds).Success?
    ensures ColumnOf(conds[i]) in columns
    decreases |conds|
  {
    if i > 0 {
      ApplyThresholdsColumns(columns, Select(rows, [conds[0]]), conds[1..], i - 1);
    }
  }
}
