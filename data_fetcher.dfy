/** The fetcher's cleaning of a freshly downloaded option chain before it is
    analysed. Only the validation is modelled; the downloads are not. */
module DataFetcher {
  import opened Wrappers
  import opened Numbers
  import opened Frames

  /** A pandas frame a caller holds a reference to; assigning a column to it
      changes what the caller sees. */
  class DataFrame {
    var table: Table

    constructor (t: Table)
      ensures table == t
    {
      table := t;
    }
  }

  const RequiredPresent := [NotNull(StrikePrice), NotNull(OptionPrice), NotNull(Dte)]

  const DefaultDte := 30.0
  const DefaultVolume := 100.0
  const DefaultVolatility := 0.3
  const VolatilityCeiling := 5.0

  /** The caller's frame after the required-field loop: it gains a `dte`
      column of 30 when it has strike and price columns but no `dte`. */
  function CallerFrameAfter(t: Table): Table {
    if !IsEmpty(t) && StrikePrice in t.columns && OptionPrice in t.columns && Dte !in t.columns
    then AssignColumn(t, Dte, DefaultDte)
    else t
  }

  /** `dropna` on the three required fields, then a positive price. */
  function PriceFiltered(t: Table): Table {
    t.(rows := Select(t.rows, RequiredPresent + [Above(OptionPrice, 0.0)]))
  }

  /** Volume: drop rows under 1 when the column exists, else add 100. */
  function VolumeStep(t: Table): Table {
    if Volume in t.columns then t.(rows := Select(t.rows, [AtLeast(Volume, 1.0)]))
    else AssignColumn(t, Volume, DefaultVolume)
  }

  /** IV: drop rows above 500% (and so the missing ones) when the column
      exists, else add 0.3. */
  function VolatilityStep(t: Table): Table {
    if ImpliedVolatility in t.columns then t.(rows := Select(t.rows, [AtMost(ImpliedVolatility, VolatilityCeiling)]))
    else AssignColumn(t, ImpliedVolatility, DefaultVolatility)
  }

  /** `astype(int)` on the `dte` cell. */
  function TruncateDteCell(r: Row): Row {
    if Dte in r.cells then SetCell(r, Dte, Trunc(r.cells[Dte]) as real) else r
  }

  function TruncateDte(t: Table): (u: Table)
    ensures u.columns == t.columns && |u.rows| == |t.rows|
    ensures forall i :: 0 <= i < |t.rows| ==> u.rows[i] == TruncateDteCell(t.rows[i])
  {
    t.(rows := seq(|t.rows|, i requires 0 <= i < |t.rows| => TruncateDteCell(t.rows[i])))
  }

  /** What `validate_option_data` returns for a frame. The current price is
      not consulted. */
  function Normalized(t: Table): (u: Table)
    ensures IsEmpty(t) ==> u == t
    ensures !IsEmpty(t) && (StrikePrice !in t.columns || OptionPrice !in t.columns) ==> u == NoFrame
    ensures !IsEmpty(t) && StrikePrice in t.columns && OptionPrice in t.columns ==>
      u.columns == t.columns + {Dte, Volume, ImpliedVolatility} && u.otherColumns == t.otherColumns
    ensures !IsEmpty(t) ==> forall r :: r in u.rows ==> Usable(r)
  {
    if IsEmpty(t) then t
    else if StrikePrice !in t.columns || OptionPrice !in t.columns then NoFrame
    else
      PipelineRowsUsable(CallerFrameAfter(t));
      TruncateDte(VolatilityStep(VolumeStep(PriceFiltered(CallerFrameAfter(t)))))
  }

  /** `DataFetcher.validate_option_data`. It writes the default `dte` into the
      caller's frame before copying; every later step works on a copy. */
  method ValidateOptionData(frame: DataFrame, currentPrice: real) returns (cleaned: Table)
    modifies frame
    ensures frame.table == CallerFrameAfter(old(frame.table))
    ensures cleaned == Normalized(old(frame.table))
  {
    if IsEmpty(frame.table) {
      return frame.table;
    }
    var required := [StrikePrice, OptionPrice, Dte];
    for i := 0 to |required|
      invariant i >= 1 ==> StrikePrice in old(frame.table).columns
      invariant i >= 2 ==> OptionPrice in old(frame.table).columns
      invariant frame.table == if i == 3 then CallerFrameAfter(old(frame.table)) else old(frame.table)
    {
      var field := required[i];
      if field !in frame.table.columns {
        if field == Dte {
          frame.table := AssignColumn(frame.table, Dte, DefaultDte);
        } else {
          return NoFrame;
        }
      }
    }
    var t := frame.table;
    var rows := Select(t.rows, RequiredPresent);
    SelectSelect(t.rows, RequiredPresent, [Above(OptionPrice, 0.0)]);
    rows := Select(rows, [Above(OptionPrice, 0.0)]);
    var work := Table(t.columns, t.otherColumns, rows);

    if Volume in work.columns {
      work := work.(rows := Select(work.rows, [AtLeast(Volume, 1.0)]));
    } else {
      work := AssignColumn(work, Volume, DefaultVolume);
    }

    if ImpliedVolatility in work.columns {
      work := work.(rows := Select(work.rows, [AtMost(ImpliedVolatility, VolatilityCeiling)]));
      assert forall r :: r in work.rows ==> ImpliedVolatility in r.cells by {
        forall r | r in work.rows ensures ImpliedVolatility in r.cells {
          assert Holds([AtMost(ImpliedVolatility, VolatilityCeiling)][0], r);
        }
      }
      FillNaNothingToFill(work.rows, ImpliedVolatility, DefaultVolatility);
      work := work.(rows := FillNa(work.rows, ImpliedVolatility, DefaultVolatility));
    } else {
      work := AssignColumn(work, ImpliedVolatility, DefaultVolatility);
    }

    // `pd.to_numeric` leaves the numeric cells of the model unchanged.
    work := TruncateDte(work);

    PipelineRowsUsable(t);
    SelectAllPass(work.rows, RequiredPresent);
    cleaned := work.(rows := Select(work.rows, RequiredPresent));
  }

  /** A row past the price filter: strike, price and `dte` present, price positive. */
  predicate Priced(r: Row) {
    StrikePrice in r.cells && OptionPrice in r.cells && Dte in r.cells && r.cells[OptionPrice] > 0.0
  }

  predicate Traded(r: Row) {
    Priced(r) && Volume in r.cells && r.cells[Volume] >= 1.0
  }

  predicate Volatile(r: Row) {
    Traded(r) && ImpliedVolatility in r.cells && r.cells[ImpliedVolatility] <= VolatilityCeiling
  }

  /** A row as `validate_option_data` hands it on. */
  predicate Usable(r: Row) {
    Volatile(r) && IsIntegral(r.cells[Dte])
  }

  lemma PricedRows(t: Table)
    ensures forall r :: r in Select(t.rows, RequiredPresent + [Above(OptionPrice, 0.0)]) ==> Priced(r)
  {
    forall r | r in Select(t.rows, RequiredPresent + [Above(OptionPrice, 0.0)]) ensures Priced(r) {
      var conds := RequiredPresent + [Above(OptionPrice, 0.0)];
      assert Holds(conds[0], r) && Holds(conds[1], r) && Holds(conds[2], r) && Holds(conds[3], r);
    }
  }

  lemma VolumeStepRows(t: Table)
    requires forall r :: r in t.rows ==> Priced(r)
    ensures forall r :: r in VolumeStep(t).rows ==> Traded(r)
  {
    forall r | r in VolumeStep(t).rows ensures Traded(r) {
      if Volume in t.columns {
        SubsequenceFacts(VolumeStep(t).rows, t.rows);
        assert Holds([AtLeast(Volume, 1.0)][0], r);
      } else {
        var i :| 0 <= i < |t.rows| && r == VolumeStep(t).rows[i];
        assert t.rows[i] in t.rows;
      }
    }
  }

  lemma VolatilityStepRows(t: Table)
    requires forall r :: r in t.rows ==> Traded(r)
    ensures forall r :: r in VolatilityStep(t).rows ==> Volatile(r)
  {
    forall r | r in VolatilityStep(t).rows ensures Volatile(r) {
      if ImpliedVolatility in t.columns {
        SubsequenceFacts(VolatilityStep(t).rows, t.rows);
        assert Holds([AtMost(ImpliedVolatility, VolatilityCeiling)][0], r);
      } else {
        var i :| 0 <= i < |t.rows| && r == VolatilityStep(t).rows[i];
        assert t.rows[i] in t.rows;
      }
    }
  }

  lemma TruncateDteRows(t: Table)
    requires forall r :: r in t.rows ==> Volatile(r)
    ensures forall r :: r in TruncateDte(t).rows ==> Usable(r)
  {
    forall r | r in TruncateDte(t).rows ensures Usable(r) {
      var i :| 0 <= i < |t.rows| && r == TruncateDte(t).rows[i];
      assert t.rows[i] in t.rows;
      var n := Trunc(t.rows[i].cells[Dte]);
      assert r.cells[Dte] == n as real;
      assert (n as real).Floor == n;
    }
  }

  /** Every row that leaves the pipeline has a strike, a positive price, a
      whole number of days, a volume of at least 1 and an IV of at most 500%;
      in particular it has all three required fields. */
  lemma PipelineRowsUsable(t: Table)
    ensures forall r :: r in TruncateDte(VolatilityStep(VolumeStep(PriceFiltered(t)))).rows ==>
      Usable(r) && HoldsAll(RequiredPresent, r)
  {
    var priced := PriceFiltered(t);
    PricedRows(t);
    VolumeStepRows(priced);
    VolatilityStepRows(VolumeStep(priced));
    TruncateDteRows(VolatilityStep(VolumeStep(priced)));
  }

  /** One change `validate_option_data` makes to a row it keeps. */
  datatype Edit = Fill(column: Column, value: real) | TruncateDays

  function ApplyEdit(e: Edit, r: Row): Row {
    match e
    case Fill(c, v) => SetCell(r, c, v)
    case TruncateDays => TruncateDteCell(r)
  }

  /** The edits applied to a row, first to last. */
  function Apply(edits: seq<Edit>, r: Row): Row
    decreases |edits|
  {
    if edits == [] then r else Apply(edits[1..], ApplyEdit(edits[0], r))
  }

  lemma {:induction false} ApplyAppend(a: seq<Edit>, b: seq<Edit>, r: Row)
    ensures Apply(a + b, r) == Apply(b, Apply(a, r))
    decreases |a|
  {
    if a != [] {
      assert (a + b)[0] == a[0];
      assert (a + b)[1..] == a[1..] + b;
      ApplyAppend(a[1..], b, ApplyEdit(a[0], r));
    } else {
      assert a + b == b;
    }
  }

  lemma ApplyOne(e: Edit, r: Row)
    ensures Apply([e], r) == ApplyEdit(e, r)
  {
    assert [e][1..] == [];
  }

  /** Every row edited, in order. */
  function Edited(rows: seq<Row>, edits: seq<Edit>): (out: seq<Row>)
    ensures |out| == |rows|
    ensures forall i :: 0 <= i < |rows| ==> out[i] == Apply(edits, rows[i])
  {
    seq(|rows|, i requires 0 <= i < |rows| => Apply(edits, rows[i]))
  }

  lemma EditedNothing(rows: seq<Row>)
    ensures Edited(rows, []) == rows
  {
  }

  lemma EditedTwice(rows: seq<Row>, a: seq<Edit>, b: seq<Edit>)
    ensures Edited(Edited(rows, a), b) == Edited(rows, a + b)
  {
    forall i | 0 <= i < |rows| ensures Edited(Edited(rows, a), b)[i] == Edited(rows, a + b)[i] {
      ApplyAppend(a, b, rows[i]);
    }
  }

  lemma AssignEdits(t: Table, c: Column, v: real)
    ensures AssignColumn(t, c, v).rows == Edited(t.rows, [Fill(c, v)])
  {
    forall i | 0 <= i < |t.rows| ensures AssignColumn(t, c, v).rows[i] == Edited(t.rows, [Fill(c, v)])[i] {
      ApplyOne(Fill(c, v), t.rows[i]);
    }
  }

  lemma TruncateEdits(t: Table)
    ensures TruncateDte(t).rows == Edited(t.rows, [TruncateDays])
  {
    forall i | 0 <= i < |t.rows| ensures TruncateDte(t).rows[i] == Edited(t.rows, [TruncateDays])[i] {
      ApplyOne(TruncateDays, t.rows[i]);
    }
  }

  /** Filling columns other than `c` leaves `c` as it was. */
  lemma {:induction false} FillsKeep(edits: seq<Edit>, r: Row, c: Column)
    requires forall i :: 0 <= i < |edits| ==> edits[i].Fill? && edits[i].column != c
    ensures c in Apply(edits, r).cells <==> c in r.cells
    ensures c in r.cells ==> Apply(edits, r).cells[c] == r.cells[c]
    decreases |edits|
  {
    if edits != [] {
      FillsKeep(edits[1..], ApplyEdit(edits[0], r), c);
    }
  }

  /** Editing then selecting is selecting then editing, when the edits do not
      change which rows pass. */
  lemma {:induction false} SelectEdited(rows: seq<Row>, edits: seq<Edit>, conds: seq<Condition>, tests: seq<Condition>)
    requires forall r :: r in rows ==> (HoldsAll(conds, Apply(edits, r)) <==> HoldsAll(tests, r))
    ensures Select(Edited(rows, edits), conds) == Edited(Select(rows, tests), edits)
    decreases |rows|
  {
    if rows != [] {
      assert rows[0] in rows;
      assert forall r :: r in rows[1..] ==> r in rows;
      assert Edited(rows, edits)[1..] == Edited(rows[1..], edits);
      SelectEdited(rows[1..], edits, conds, tests);
      var rest := Select(rows[1..], tests);
      if HoldsAll(tests, rows[0]) {
        assert Edited([rows[0]] + rest, edits) == [Apply(edits, rows[0])] + Edited(rest, edits);
      }
    }
  }

  /** The defaults a frame without a `dte`, volume or IV column receives. */
  function DteEdits(t: Table): seq<Edit> {
    if Dte in t.columns then [] else [Fill(Dte, DefaultDte)]
  }

  function VolumeEdits(t: Table): seq<Edit> {
    if Volume in t.columns then [] else [Fill(Volume, DefaultVolume)]
  }

  function VolatilityEdits(t: Table): seq<Edit> {
    if ImpliedVolatility in t.columns then [] else [Fill(ImpliedVolatility, DefaultVolatility)]
  }

  /** An input row as it comes out: the missing `dte`, volume and IV columns
      filled with 30, 100 and 0.3, then `dte` truncated to whole days. */
  function RowImage(t: Table, r: Row): Row {
    var withDte := if Dte in t.columns then r else SetCell(r, Dte, DefaultDte);
    var withVolume := if Volume in t.columns then withDte else SetCell(withDte, Volume, DefaultVolume);
    var withVolatility :=
      if ImpliedVolatility in t.columns then withVolume
      else SetCell(withVolume, ImpliedVolatility, DefaultVolatility);
    TruncateDteCell(withVolatility)
  }

  lemma EditsMakeImage(t: Table, r: Row)
    ensures Apply(DteEdits(t) + VolumeEdits(t) + VolatilityEdits(t) + [TruncateDays], r) == RowImage(t, r)
  {
    var d, v, iv := DteEdits(t), VolumeEdits(t), VolatilityEdits(t);
    ApplyAppend(d + v + iv, [TruncateDays], r);
    ApplyAppend(d + v, iv, r);
    ApplyAppend(d, v, r);
    var r1 := Apply(d, r);
    assert r1 == if Dte in t.columns then r else SetCell(r, Dte, DefaultDte) by {
      if Dte !in t.columns { ApplyOne(Fill(Dte, DefaultDte), r); }
    }
    var r2 := Apply(v, r1);
    assert r2 == if Volume in t.columns then r1 else SetCell(r1, Volume, DefaultVolume) by {
      if Volume !in t.columns { ApplyOne(Fill(Volume, DefaultVolume), r1); }
    }
    var r3 := Apply(iv, r2);
    assert r3 == if ImpliedVolatility in t.columns then r2 else SetCell(r2, ImpliedVolatility, DefaultVolatility) by {
      if ImpliedVolatility !in t.columns {
        ApplyOne(Fill(ImpliedVolatility, DefaultVolatility), r2);
      }
    }
    ApplyOne(TruncateDays, r3);
  }

  /** The row tests, read on the input row: strike and price present, `dte`
      present if the frame has that column, price above 0, then volume at least
      1 and IV at most 500% where those columns exist. */
  function PriceTests(t: Table): seq<Condition> {
    [NotNull(StrikePrice), NotNull(OptionPrice)]
    + (if Dte in t.columns then [NotNull(Dte)] else [])
    + [Above(OptionPrice, 0.0)]
  }

  function VolumeTests(t: Table): seq<Condition> {
    if Volume in t.columns then [AtLeast(Volume, 1.0)] else []
  }

  function VolatilityTests(t: Table): seq<Condition> {
    if ImpliedVolatility in t.columns then [AtMost(ImpliedVolatility, VolatilityCeiling)] else []
  }

  /** The input rows `validate_option_data` keeps, in their order. */
  function Passing(t: Table): seq<Row> {
    Select(t.rows, PriceTests(t) + VolumeTests(t) + VolatilityTests(t))
  }

  /** A row passes exactly when its strike and price are present, its price is
      positive, and its `dte`, volume and IV are present and in range where the
      frame has those columns. */
  predicate Passes(t: Table, r: Row) {
    && StrikePrice in r.cells && OptionPrice in r.cells && r.cells[OptionPrice] > 0.0
    && (Dte in t.columns ==> Dte in r.cells)
    && (Volume in t.columns ==> Volume in r.cells && r.cells[Volume] >= 1.0)
    && (ImpliedVolatility in t.columns ==>
          ImpliedVolatility in r.cells && r.cells[ImpliedVolatility] <= VolatilityCeiling)
  }

  lemma TestsMeaning(t: Table, r: Row)
    ensures HoldsAll(PriceTests(t) + VolumeTests(t) + VolatilityTests(t), r) <==> Passes(t, r)
  {
    var p := PriceTests(t);
    HoldsAllAppend(p + VolumeTests(t), VolatilityTests(t), r);
    HoldsAllAppend(p, VolumeTests(t), r);
    HoldsAllAppend([NotNull(StrikePrice), NotNull(OptionPrice)] + (if Dte in t.columns then [NotNull(Dte)] else []),
                   [Above(OptionPrice, 0.0)], r);
    HoldsAllAppend([NotNull(StrikePrice), NotNull(OptionPrice)], if Dte in t.columns then [NotNull(Dte)] else [], r);
    assert HoldsAll([NotNull(StrikePrice), NotNull(OptionPrice)], r) <==> StrikePrice in r.cells && OptionPrice in r.cells by {
      var two := [NotNull(StrikePrice), NotNull(OptionPrice)];
      assert HoldsAll(two, r) <==> Holds(two[0], r) && Holds(two[1], r);
    }
    assert HoldsAll([Above(OptionPrice, 0.0)], r) <==> Holds([Above(OptionPrice, 0.0)][0], r);
    assert HoldsAll(VolumeTests(t), r) <==> (Volume in t.columns ==> Holds(AtLeast(Volume, 1.0), r)) by {
      if Volume in t.columns { assert VolumeTests(t)[0] == AtLeast(Volume, 1.0); }
    }
    assert HoldsAll(VolatilityTests(t), r) <==>
           (ImpliedVolatility in t.columns ==> Holds(AtMost(ImpliedVolatility, VolatilityCeiling), r)) by {
      if ImpliedVolatility in t.columns { assert VolatilityTests(t)[0] == AtMost(ImpliedVolatility, VolatilityCeiling); }
    }
    assert HoldsAll(if Dte in t.columns then [NotNull(Dte)] else [], r) <==> (Dte in t.columns ==> Dte in r.cells) by {
      if Dte in t.columns { assert [NotNull(Dte)][0] == NotNull(Dte); }
    }
  }

  /** `Passing` keeps every copy of a passing input row and nothing else, in
      input order. */
  lemma PassingRows(t: Table)
    ensures IsSubsequence(Passing(t), t.rows)
    ensures forall r :: multiset(Passing(t))[r] == if Passes(t, r) then multiset(t.rows)[r] else 0
  {
    var tests := PriceTests(t) + VolumeTests(t) + VolatilityTests(t);
    SelectCounts(t.rows, tests);
    forall r ensures multiset(Passing(t))[r] == if Passes(t, r) then multiset(t.rows)[r] else 0 {
      TestsMeaning(t, r);
    }
  }

  lemma PriceTestsOnImage(t: Table, r: Row)
    ensures HoldsAll(RequiredPresent + [Above(OptionPrice, 0.0)], Apply(DteEdits(t), r)) <==> HoldsAll(PriceTests(t), r)
  {
    var conds := RequiredPresent + [Above(OptionPrice, 0.0)];
    var r1 := Apply(DteEdits(t), r);
    if Dte !in t.columns {
      ApplyOne(Fill(Dte, DefaultDte), r);
    }
    assert HoldsAll(conds, r1) <==> Holds(conds[0], r1) && Holds(conds[1], r1) && Holds(conds[2], r1) && Holds(conds[3], r1);
    var p := PriceTests(t);
    if Dte in t.columns {
      assert HoldsAll(p, r) <==> Holds(p[0], r) && Holds(p[1], r) && Holds(p[2], r) && Holds(p[3], r);
    } else {
      assert HoldsAll(p, r) <==> Holds(p[0], r) && Holds(p[1], r) && Holds(p[2], r);
    }
  }

  lemma PriceStage(t: Table)
    requires !IsEmpty(t) && StrikePrice in t.columns && OptionPrice in t.columns
    ensures PriceFiltered(CallerFrameAfter(t)).columns == t.columns + {Dte}
    ensures PriceFiltered(CallerFrameAfter(t)).rows == Edited(Select(t.rows, PriceTests(t)), DteEdits(t))
  {
    if Dte in t.columns {
      EditedNothing(t.rows);
    } else {
      AssignEdits(t, Dte, DefaultDte);
    }
    forall r | r in t.rows
      ensures HoldsAll(RequiredPresent + [Above(OptionPrice, 0.0)], Apply(DteEdits(t), r)) <==> HoldsAll(PriceTests(t), r)
    {
      PriceTestsOnImage(t, r);
    }
    SelectEdited(t.rows, DteEdits(t), RequiredPresent + [Above(OptionPrice, 0.0)], PriceTests(t));
  }

  lemma VolumeStage(t: Table)
    requires !IsEmpty(t) && StrikePrice in t.columns && OptionPrice in t.columns
    ensures VolumeStep(PriceFiltered(CallerFrameAfter(t))).columns == t.columns + {Dte, Volume}
    ensures VolumeStep(PriceFiltered(CallerFrameAfter(t))).rows ==
              Edited(Select(Select(t.rows, PriceTests(t)), VolumeTests(t)), DteEdits(t) + VolumeEdits(t))
  {
    PriceStage(t);
    var p := PriceFiltered(CallerFrameAfter(t));
    var s1 := Select(t.rows, PriceTests(t));
    if Volume in t.columns {
      assert DteEdits(t) + VolumeEdits(t) == DteEdits(t);
      forall r | r in s1
        ensures HoldsAll([AtLeast(Volume, 1.0)], Apply(DteEdits(t), r)) <==> HoldsAll(VolumeTests(t), r)
      {
        FillsKeep(DteEdits(t), r, Volume);
        HoldsOne(AtLeast(Volume, 1.0), Apply(DteEdits(t), r));
        HoldsOne(AtLeast(Volume, 1.0), r);
      }
      SelectEdited(s1, DteEdits(t), [AtLeast(Volume, 1.0)], VolumeTests(t));
    } else {
      SelectAllPass(s1, []);
      AssignEdits(p, Volume, DefaultVolume);
      EditedTwice(s1, DteEdits(t), VolumeEdits(t));
    }
  }

  lemma VolatilityTestOnImage(t: Table, edits: seq<Edit>, r: Row)
    requires ImpliedVolatility in t.columns && edits == DteEdits(t) + VolumeEdits(t)
    ensures HoldsAll([AtMost(ImpliedVolatility, VolatilityCeiling)], Apply(edits, r)) <==> HoldsAll(VolatilityTests(t), r)
  {
    FillsKeep(edits, r, ImpliedVolatility);
    HoldsOne(AtMost(ImpliedVolatility, VolatilityCeiling), Apply(edits, r));
    HoldsOne(AtMost(ImpliedVolatility, VolatilityCeiling), r);
  }

  lemma VolatilityStage(t: Table)
    requires !IsEmpty(t) && StrikePrice in t.columns && OptionPrice in t.columns
    ensures VolatilityStep(VolumeStep(PriceFiltered(CallerFrameAfter(t)))).columns ==
              t.columns + {Dte, Volume, ImpliedVolatility}
    ensures VolatilityStep(VolumeStep(PriceFiltered(CallerFrameAfter(t)))).rows ==
              Edited(Select(Select(Select(t.rows, PriceTests(t)), VolumeTests(t)), VolatilityTests(t)),
                     DteEdits(t) + VolumeEdits(t) + VolatilityEdits(t))
  {
    VolumeStage(t);
    var v := VolumeStep(PriceFiltered(CallerFrameAfter(t)));
    var s2 := Select(Select(t.rows, PriceTests(t)), VolumeTests(t));
    var edits := DteEdits(t) + VolumeEdits(t);
    if ImpliedVolatility in t.columns {
      assert edits + VolatilityEdits(t) == edits;
      forall r | r in s2
        ensures HoldsAll([AtMost(ImpliedVolatility, VolatilityCeiling)], Apply(edits, r)) <==> HoldsAll(VolatilityTests(t), r)
      {
        VolatilityTestOnImage(t, edits, r);
      }
      SelectEdited(s2, edits, [AtMost(ImpliedVolatility, VolatilityCeiling)], VolatilityTests(t));
    } else {
      SelectAllPass(s2, []);
      AssignEdits(v, ImpliedVolatility, DefaultVolatility);
      EditedTwice(s2, edits, VolatilityEdits(t));
    }
  }

  lemma PassingInStages(t: Table)
    ensures Passing(t) == Select(Select(Select(t.rows, PriceTests(t)), VolumeTests(t)), VolatilityTests(t))
  {
    SelectSelect(t.rows, PriceTests(t), VolumeTests(t));
    SelectSelect(t.rows, PriceTests(t) + VolumeTests(t), VolatilityTests(t));
  }

  /** For a frame with strike and price columns, the rows that come out are
      the passing input rows, in their input order, each turned into its
      `RowImage`; nothing else comes out. */
  lemma NormalizedRowsAreImages(t: Table)
    requires !IsEmpty(t) && StrikePrice in t.columns && OptionPrice in t.columns
    ensures |Normalized(t).rows| == |Passing(t)|
    ensures forall i :: 0 <= i < |Passing(t)| ==> Normalized(t).rows[i] == RowImage(t, Passing(t)[i])
  {
    VolatilityStage(t);
    PassingInStages(t);
    var d, v, iv := DteEdits(t), VolumeEdits(t), VolatilityEdits(t);
    TruncateEdits(VolatilityStep(VolumeStep(PriceFiltered(CallerFrameAfter(t)))));
    EditedTwice(Passing(t), d + v + iv, [TruncateDays]);
    forall i | 0 <= i < |Passing(t)| ensures Normalized(t).rows[i] == RowImage(t, Passing(t)[i]) {
      EditsMakeImage(t, Passing(t)[i]);
    }
  }

  /** The output rows are an order-preserving selection of the input rows,
      each mapped through `RowImage`. */
  lemma NormalizedIsImageOfSubsequence(t: Table)
    requires !IsEmpty(t) && StrikePrice in t.columns && OptionPrice in t.columns
    ensures exists kept :: IsSubsequence(kept, t.rows) && (forall r :: r in kept ==> Passes(t, r))
              && Normalized(t).rows == seq(|kept|, i requires 0 <= i < |kept| => RowImage(t, kept[i]))
  {
    var kept := Passing(t);
    PassingRows(t);
    forall r | r in kept ensures Passes(t, r) {
      TestsMeaning(t, r);
    }
    var image := seq(|kept|, i requires 0 <= i < |kept| => RowImage(t, kept[i]));
    NormalizedRowsAreImages(t);
    assert Normalized(t).rows == image;
  }

  /** `RowImage` changes only the `dte`, volume and IV cells: it fills the
      missing columns with their defaults and truncates `dte`. */
  lemma RowImageCells(t: Table, r: Row)
    ensures forall c :: c != Dte && c != Volume && c != ImpliedVolatility ==> Cell(RowImage(t, r), c) == Cell(r, c)
    ensures Volume in t.columns ==> Cell(RowImage(t, r), Volume) == Cell(r, Volume)
    ensures ImpliedVolatility in t.columns ==> Cell(RowImage(t, r), ImpliedVolatility) == Cell(r, ImpliedVolatility)
    ensures Volume !in t.columns ==> Cell(RowImage(t, r), Volume) == Some(DefaultVolume)
    ensures ImpliedVolatility !in t.columns ==> Cell(RowImage(t, r), ImpliedVolatility) == Some(DefaultVolatility)
    ensures Dte !in t.columns ==> Cell(RowImage(t, r), Dte) == Some(DefaultDte)
    ensures Dte in t.columns && Dte in r.cells ==> Cell(RowImage(t, r), Dte) == Some(Trunc(r.cells[Dte]) as real)
    ensures Dte in t.columns && Dte !in r.cells ==> Cell(RowImage(t, r), Dte) == None
  {
    TruncIntegral(DefaultDte);
  }

  /** The only row tests are a missing field, a price of 0 or less, a volume
      under 1 and an IV above 500%: a row that passes them comes out as its
      `RowImage`, whatever the sign of its strike or `dte`. */
  lemma NormalizedKeepsPassingRows(t: Table, r: Row)
    requires !IsEmpty(t) && StrikePrice in t.columns && OptionPrice in t.columns
    requires r in t.rows && StrikePrice in r.cells && OptionPrice in r.cells && r.cells[OptionPrice] > 0.0
    requires Dte in t.columns ==> Dte in r.cells
    requires Volume in t.columns ==> Volume in r.cells && r.cells[Volume] >= 1.0
    requires ImpliedVolatility in t.columns ==>
               ImpliedVolatility in r.cells && r.cells[ImpliedVolatility] <= VolatilityCeiling
    ensures RowImage(t, r) in Normalized(t).rows
  {
    TestsMeaning(t, r);
    assert r in Passing(t);
    var i :| 0 <= i < |Passing(t)| && Passing(t)[i] == r;
    NormalizedRowsAreImages(t);
    assert Normalized(t).rows[i] == RowImage(t, r);
  }

  lemma TruncIntegral(x: real)
    requires IsIntegral(x)
    ensures Trunc(x) as real == x
  {
    if x < 0.0 {
      assert (-x).Floor == -(x.Floor);
    }
  }

  /** A cleaned frame: all of the columns the pipeline produces, usable rows. */
  predicate IsCleaned(o: Table) {
    && !IsEmpty(o)
    && {StrikePrice, OptionPrice, Dte, Volume, ImpliedVolatility} <= o.columns
    && forall r :: r in o.rows ==> Usable(r)
  }

  lemma CleanedRowsPass(o: Table)
    requires IsCleaned(o)
    ensures Passing(o) == o.rows
  {
    var tests := PriceTests(o) + VolumeTests(o) + VolatilityTests(o);
    forall r | r in o.rows ensures HoldsAll(tests, r) {
      TestsMeaning(o, r);
    }
    SelectAllPass(o.rows, tests);
  }

  lemma CleanedImage(o: Table, r: Row)
    requires IsCleaned(o) && Usable(r)
    ensures RowImage(o, r) == r
  {
    TruncIntegral(r.cells[Dte]);
    assert r.cells[Dte := r.cells[Dte]] == r.cells;
  }

  /** Cleaning a cleaned frame changes nothing. */
  lemma NormalizedIdempotent(t: Table)
    ensures Normalized(Normalized(t)) == Normalized(t)
  {
    var o := Normalized(t);
    if !IsEmpty(t) && StrikePrice in t.columns && OptionPrice in t.columns && !IsEmpty(o) {
      assert IsCleaned(o);
      CleanedRowsPass(o);
      NormalizedRowsAreImages(o);
      forall i | 0 <= i < |o.rows| ensures Normalized(o).rows[i] == o.rows[i] {
        CleanedImage(o, o.rows[i]);
      }
      assert Normalized(o).rows == o.rows;
    }
  }
}
