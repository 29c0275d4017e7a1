/** The screening step of the batch workflow: the analysed options of all
    symbols are filtered by the strict "strongly recommended" conditions,
    by looser ones when nothing passes, ranked by annualised return, and the
    first five are reported. */
module BatchAnalysis {
  import opened Frames

  const MaxDte := 45.0

  /** Return at least 25%, assignment at most 40%, volume at least 50, at
      most 45 days, strike below the stock price. */
  const StrictConditions := [
    AtLeast(AnnualizedReturn, 0.25), AtMost(AssignmentProbability, 0.4), AtLeast(Volume, 50.0),
    AtMost(Dte, MaxDte), BelowColumn(StrikePrice, CurrentPrice)]

  /** The same with 15%, 50% and 20. */
  const RelaxedConditions := [
    AtLeast(AnnualizedReturn, 0.15), AtMost(AssignmentProbability, 0.5), AtLeast(Volume, 20.0),
    AtMost(Dte, MaxDte), BelowColumn(StrikePrice, CurrentPrice)]

  const ReportSize := 5

  /** A row meets the thresholds `minReturn`, `maxAssignment` and `minVolume`
      and the two shared conditions, with none of the cells missing. */
  predicate Qualifies(r: Row, minReturn: real, maxAssignment: real, minVolume: real) {
    && AnnualizedReturn in r.cells && r.cells[AnnualizedReturn] >= minReturn
    && AssignmentProbability in r.cells && r.cells[AssignmentProbability] <= maxAssignment
    && Volume in r.cells && r.cells[Volume] >= minVolume
    && Dte in r.cells && r.cells[Dte] <= MaxDte
    && StrikePrice in r.cells && CurrentPrice in r.cells && r.cells[StrikePrice] < r.cells[CurrentPrice]
  }

  lemma StrictMeans(r: Row)
    ensures HoldsAll(StrictConditions, r) <==> Qualifies(r, 0.25, 0.4, 50.0)
  {
    if Qualifies(r, 0.25, 0.4, 50.0) {
      forall i | 0 <= i < |StrictConditions| ensures Holds(StrictConditions[i], r) {
      }
    }
    if HoldsAll(StrictConditions, r) {
      assert Holds(StrictConditions[0], r) && Holds(StrictConditions[1], r) && Holds(StrictConditions[2], r);
      assert Holds(StrictConditions[3], r) && Holds(StrictConditions[4], r);
    }
  }

  lemma RelaxedMeans(r: Row)
    ensures HoldsAll(RelaxedConditions, r) <==> Qualifies(r, 0.15, 0.5, 20.0)
  {
    if Qualifies(r, 0.15, 0.5, 20.0) {
      forall i | 0 <= i < |RelaxedConditions| ensures Holds(RelaxedConditions[i], r) {
      }
    }
    if HoldsAll(RelaxedConditions, r) {
      assert Holds(RelaxedConditions[0], r) && Holds(RelaxedConditions[1], r) && Holds(RelaxedConditions[2], r);
      assert Holds(RelaxedConditions[3], r) && Holds(RelaxedConditions[4], r);
    }
  }

  /** Every option the strict filter keeps, the relaxed filter keeps too, and
      in the same order. */
  lemma StrictImpliesRelaxed(results: seq<Row>)
    ensures IsSubsequence(Select(results, StrictConditions), Select(results, RelaxedConditions))
  {
    forall r | r in results && HoldsAll(StrictConditions, r) ensures HoldsAll(RelaxedConditions, r) {
      StrictMeans(r);
      RelaxedMeans(r);
    }
    SelectWeaker(results, StrictConditions, RelaxedConditions);
  }

  // ------------------------------------------------------------- ranking

  /** `a` may be listed before `b` when ranking by annualised return,
      highest first, with missing returns last. */
  predicate RanksBefore(a: Row, b: Row) {
    AnnualizedReturn !in b.cells
    || (AnnualizedReturn in a.cells && a.cells[AnnualizedReturn] >= b.cells[AnnualizedReturn])
  }

  predicate RankedByReturn(rows: seq<Row>) {
    forall i, j :: 0 <= i < j < |rows| ==> RanksBefore(rows[i], rows[j])
  }

  /** `x` placed into a ranked list ahead of the first row it may precede. */
  function Insert(x: Row, ranked: seq<Row>): (r: seq<Row>)
    requires RankedByReturn(ranked)
    ensures RankedByReturn(r)
    ensures multiset(r) == multiset(ranked) + multiset{x}
  {
    if ranked == [] then [x]
    else if RanksBefore(x, ranked[0]) then
      assert forall j :: 0 < j < |[x] + ranked| ==> RanksBefore(x, ([x] + ranked)[j]) by {
        forall j | 0 < j < |[x] + ranked| ensures RanksBefore(x, ([x] + ranked)[j]) {
          if j > 1 {
            assert RanksBefore(ranked[0], ranked[j - 1]);
          }
        }
      }
      [x] + ranked
    else
      var rest := Insert(x, ranked[1..]);
      assert ranked == [ranked[0]] + ranked[1..];
      assert forall y :: y in multiset(rest) ==> RanksBefore(ranked[0], y) by {
        forall y | y in multiset(rest) ensures RanksBefore(ranked[0], y) {
          if y != x {
            assert y in multiset(ranked[1..]);
            var j :| 0 <= j < |ranked[1..]| && ranked[1..][j] == y;
            assert ranked[j + 1] == y;
          }
        }
      }
      assert forall j :: 0 <= j < |rest| ==> RanksBefore(ranked[0], rest[j]) by {
        forall j | 0 <= j < |rest| ensures RanksBefore(ranked[0], rest[j]) {
          assert rest[j] in multiset(rest);
        }
      }
      [ranked[0]] + rest
  }

  /** `sort_values('annualized_return', ascending=False)`. */
  method SortByReturn(rows: seq<Row>) returns (ranked: seq<Row>)
    ensures RankedByReturn(ranked)
    ensures multiset(ranked) == multiset(rows)
  {
    ranked := [];
    for i := 0 to |rows|
      invariant RankedByReturn(ranked)
      invariant multiset(ranked) == multiset(rows[..i])
    {
      assert rows[..i + 1] == rows[..i] + [rows[i]];
      ranked := Insert(rows[i], ranked);
    }
    assert rows[..|rows|] == rows;
  }

  // ----------------------------------------------------------- screening

  datatype Screening =
    | NoResults                     // nothing was analysed
    | NothingQualified              // neither filter kept an option
    | Ranked(relaxed: bool, ranking: seq<Row>, top: seq<Row>)

  /** Lines 113-164 of the batch workflow: filter, fall back, rank, report. */
  method ScreenAndRank(results: seq<Row>) returns (outcome: Screening)
    ensures outcome.NoResults? <==> results == []
    ensures outcome.NothingQualified? <==>
      results != [] && Select(results, StrictConditions) == [] && Select(results, RelaxedConditions) == []
    ensures outcome.Ranked? ==>
      && (outcome.relaxed <==> Select(results, StrictConditions) == [])
      && multiset(outcome.ranking) ==
           multiset(Select(results, if outcome.relaxed then RelaxedConditions else StrictConditions))
      && RankedByReturn(outcome.ranking)
      && 0 < |outcome.top| <= ReportSize && |outcome.top| <= |outcome.ranking|
      && outcome.top == outcome.ranking[..|outcome.top|]
      && (|outcome.top| < ReportSize ==> outcome.top == outcome.ranking)
  {
    if results == [] {
      return NoResults;
    }
    var chosen := Select(results, StrictConditions);
    var relaxed := false;
    if chosen == [] {
      chosen := Select(results, RelaxedConditions);
      if chosen == [] {
        return NothingQualified;
      }
      relaxed := true;
    }
    var ranking := SortByReturn(chosen);
    assert |ranking| == |chosen| by {
      assert |multiset(ranking)| == |multiset(chosen)|;
    }
    var shown := if |ranking| < ReportSize then |ranking| else ReportSize;
    return Ranked(relaxed, ranking, ranking[..shown]);
  }

  /** Every reported option meets the relaxed conditions, and the strict ones
      unless the fallback was taken; no reported option ranks below one left
      off the report. */
  lemma ReportedOptionsQualify(results: seq<Row>, outcome: Screening)
    requires outcome.Ranked? && RankedByReturn(outcome.ranking)
    requires |outcome.top| <= |outcome.ranking| && outcome.top == outcome.ranking[..|outcome.top|]
    requires multiset(outcome.ranking) ==
               multiset(Select(results, if outcome.relaxed then RelaxedConditions else StrictConditions))
    ensures forall r :: r in outcome.top ==> r in results && Qualifies(r, 0.15, 0.5, 20.0)
    ensures !outcome.relaxed ==> forall r :: r in outcome.top ==> Qualifies(r, 0.25, 0.4, 50.0)
    ensures forall i, j :: 0 <= i < |outcome.top| <= j < |outcome.ranking| ==>
              RanksBefore(outcome.top[i], outcome.ranking[j])
  {
    var kept := Select(results, if outcome.relaxed then RelaxedConditions else StrictConditions);
    forall r | r in outcome.top ensures r in results && Qualifies(r, 0.15, 0.5, 20.0)
      && (!outcome.relaxed ==> Qualifies(r, 0.25, 0.4, 50.0))
    {
      assert r in multiset(outcome.ranking);
      assert r in kept;
      SubsequenceFacts(kept, results);
      StrictMeans(r);
      RelaxedMeans(r);
    }
  }
}
