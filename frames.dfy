/** The part of a pandas DataFrame the analytics rely on: named numeric columns
    whose cells may be missing (NaN/None), boolean-mask row selection, `dropna`,
    `fillna` and whole-column assignment. */
module Frames {
  import opened Wrappers

  /** The numeric columns the core reads or writes. */
  datatype Column =
    | StrikePrice | OptionPrice | BidPrice | AskPrice | Volume | OpenInterest
    | ImpliedVolatility | Dte | AnnualizedReturn | AssignmentProbability | CurrentPrice

  /** One row. A column missing from `cells` holds NaN in this row.
      `othersFilled` says whether some column outside the model (symbol,
      expiration date, contract name, ...) holds a value in this row. */
  datatype Row = Row(cells: map<Column, real>, othersFilled: bool)

  /** A frame: which modelled columns exist, whether any other column exists,
      and the rows in index order. */
  datatype Table = Table(columns: set<Column>, otherColumns: bool, rows: seq<Row>)

  function Cell(row: Row, c: Column): (v: Option<real>)
    ensures v.Some? <==> c in row.cells
  {
    if c in row.cells then Some(row.cells[c]) else None
  }

  /** `DataFrame.empty`: no rows, or no columns at all. */
  predicate IsEmpty(t: Table) {
    |t.rows| == 0 || (t.columns == {} && !t.otherColumns)
  }

  /** `pd.DataFrame()` */
  const NoFrame := Table({}, false, [])

  /** A row test as pandas evaluates it: a comparison with a NaN cell is false. */
  datatype Condition =
    | NotNull(col: Column)                             // dropna(subset=[col])
    | NotAllNull(among: set<Column>, others: bool)     // dropna(how='all')
    | Above(col: Column, bound: real)                  // df[col] > bound
    | AtLeast(col: Column, bound: real)                // df[col] >= bound
    | AtMost(col: Column, bound: real)                 // df[col] <= bound
    | BelowColumn(col: Column, other: Column)          // df[col] < df[other]

  predicate Holds(cond: Condition, row: Row) {
    match cond
    case NotNull(c) => c in row.cells
    case NotAllNull(cs, others) => (exists c :: c in cs && c in row.cells) || (others && row.othersFilled)
    case Above(c, b) => c in row.cells && row.cells[c] > b
    case AtLeast(c, b) => c in row.cells && row.cells[c] >= b
    case AtMost(c, b) => c in row.cells && row.cells[c] <= b
    case BelowColumn(c, d) => c in row.cells && d in row.cells && row.cells[c] < row.cells[d]
  }

  predicate HoldsAll(conds: seq<Condition>, row: Row) {
    forall i :: 0 <= i < |conds| ==> Holds(conds[i], row)
  }

  /** `a` is `b` with some elements left out and the rest in their order. */
  predicate IsSubsequence<T(==)>(a: seq<T>, b: seq<T>)
    decreases |b|
  {
    a == [] || (b != [] && ((a[0] == b[0] && IsSubsequence(a[1..], b[1..])) || IsSubsequence(a, b[1..])))
  }

  lemma {:induction false} SubsequenceFacts<T>(a: seq<T>, b: seq<T>)
    requires IsSubsequence(a, b)
    ensures |a| <= |b|
    ensures forall x :: x in a ==> x in b
    decreases |b|
  {
    if a != [] {
      if a[0] == b[0] && IsSubsequence(a[1..], b[1..]) {
        SubsequenceFacts(a[1..], b[1..]);
        assert a == [a[0]] + a[1..] && b == [b[0]] + b[1..];
      } else {
        SubsequenceFacts(a, b[1..]);
      }
    }
  }

  lemma {:induction false} SubsequenceReflexive<T>(a: seq<T>)
    ensures IsSubsequence(a, a)
    decreases |a|
  {
    if a != [] {
      SubsequenceReflexive(a[1..]);
    }
  }

  /** `df[mask]` for the conjunction of `conds`: the rows that pass, in order. */
  function Select(rows: seq<Row>, conds: seq<Condition>): (kept: seq<Row>)
    ensures IsSubsequence(kept, rows)
    ensures forall r :: r in kept ==> HoldsAll(conds, r)
    ensures forall r :: r in rows && HoldsAll(conds, r) ==> r in kept
    decreases |rows|
  {
    if rows == [] then []
    else
      var rest := Select(rows[1..], conds);
      assert forall r :: r in rows[1..] ==> r in rows;
      if HoldsAll(conds, rows[0]) then [rows[0]] + rest
      else rest
  }

  /** `Select` keeps every copy of a passing row and no copy of a failing one. */
  lemma {:induction false} SelectCounts(rows: seq<Row>, conds: seq<Condition>)
    ensures forall r :: multiset(Select(rows, conds))[r] == if HoldsAll(conds, r) then multiset(rows)[r] else 0
    decreases |rows|
  {
    if rows != [] {
      SelectCounts(rows[1..], conds);
      assert rows == [rows[0]] + rows[1..];
    }
  }

  lemma HoldsOne(c: Condition, r: Row)
    ensures HoldsAll([c], r) <==> Holds(c, r)
  {
    assert [c][0] == c;
  }

  lemma HoldsAllAppend(a: seq<Condition>, b: seq<Condition>, r: Row)
    ensures HoldsAll(a + b, r) <==> HoldsAll(a, r) && HoldsAll(b, r)
  {
    if HoldsAll(a + b, r) {
      forall i | 0 <= i < |a| ensures Holds(a[i], r) { assert (a + b)[i] == a[i]; }
      forall i | 0 <= i < |b| ensures Holds(b[i], r) { assert (a + b)[|a| + i] == b[i]; }
    }
  }

  /** Successive selections are one selection on the joint conditions. */
  lemma {:induction false} SelectSelect(rows: seq<Row>, a: seq<Condition>, b: seq<Condition>)
    ensures Select(Select(rows, a), b) == Select(rows, a + b)
    decreases |rows|
  {
    if rows != [] {
      SelectSelect(rows[1..], a, b);
      var r := rows[0];
      assert HoldsAll(a + b, r) <==> HoldsAll(a, r) && HoldsAll(b, r) by {
        if HoldsAll(a, r) && HoldsAll(b, r) {
          forall i | 0 <= i < |a + b| ensures Holds((a + b)[i], r) {
            if i >= |a| { assert (a + b)[i] == b[i - |a|]; }
          }
        }
        if HoldsAll(a + b, r) {
          forall i | 0 <= i < |b| ensures Holds(b[i], r) {
            assert (a + b)[|a| + i] == b[i];
          }
          forall i | 0 <= i < |a| ensures Holds(a[i], r) {
            assert (a + b)[i] == a[i];
          }
        }
      }
      if HoldsAll(a, r) {
        assert Select(rows, a)[1..] == Select(rows[1..], a);
      }
    }
  }

  /** Selecting again with the same conditions changes nothing. */
  lemma {:induction false} SelectIdempotent(rows: seq<Row>, conds: seq<Condition>)
    ensures Select(Select(rows, conds), conds) == Select(rows, conds)
  {
    SelectAllPass(Select(rows, conds), conds);
  }

  /** A selection that every row passes keeps the rows as they are. */
  lemma {:induction false} SelectAllPass(rows: seq<Row>, conds: seq<Condition>)
    requires forall r :: r in rows ==> HoldsAll(conds, r)
    ensures Select(rows, conds) == rows
    decreases |rows|
  {
    if rows != [] {
      assert rows[0] in rows;
      assert forall r :: r in rows[1..] ==> r in rows;
      SelectAllPass(rows[1..], conds);
      assert rows == [rows[0]] + rows[1..];
    }
  }

  /** Selecting with weaker conditions keeps at least the same rows, in the same order. */
  lemma {:induction false} SelectWeaker(rows: seq<Row>, strong: seq<Condition>, weak: seq<Condition>)
    requires forall r :: r in rows && HoldsAll(strong, r) ==> HoldsAll(weak, r)
    ensures IsSubsequence(Select(rows, strong), Select(rows, weak))
    decreases |rows|
  {
    if rows != [] {
      assert forall r :: r in rows[1..] ==> r in rows;
      SelectWeaker(rows[1..], strong, weak);
      var s, w := Select(rows[1..], strong), Select(rows[1..], weak);
      if HoldsAll(strong, rows[0]) {
        assert Select(rows, weak) == [rows[0]] + w;
        assert ([rows[0]] + w)[1..] == w;
      } else if HoldsAll(weak, rows[0]) {
        assert ([rows[0]] + w)[1..] == w;
        if s != [] {
          assert IsSubsequence(s, ([rows[0]] + w)[1..]);
        }
      }
    }
  }

  function FillCell(row: Row, c: Column, v: real): (filled: Row)
    ensures Cell(filled, c) == Some(Cell(row, c).GetOr(v))
  {
    if c in row.cells then row else row.(cells := row.cells[c := v])
  }

  /** `df[c] = df[c].fillna(v)` */
  function FillNa(rows: seq<Row>, c: Column, v: real): (filled: seq<Row>)
    ensures |filled| == |rows|
    ensures forall i :: 0 <= i < |rows| ==> filled[i] == FillCell(rows[i], c, v)
  {
    seq(|rows|, i requires 0 <= i < |rows| => FillCell(rows[i], c, v))
  }

  /** `fillna` on a column that holds no NaN is the identity. */
  lemma FillNaNothingToFill(rows: seq<Row>, c: Column, v: real)
    requires forall r :: r in rows ==> c in r.cells
    ensures FillNa(rows, c, v) == rows
  {
    forall i | 0 <= i < |rows| ensures FillNa(rows, c, v)[i] == rows[i] {
      assert rows[i] in rows;
    }
  }

  function SetCell(row: Row, c: Column, v: real): Row {
    row.(cells := row.cells[c := v])
  }

  /** `df[c] = v`: the column exists afterwards and holds `v` in every row. */
  function AssignColumn(t: Table, c: Column, v: real): (u: Table)
    ensures u.columns == t.columns + {c} && u.otherColumns == t.otherColumns
    ensures |u.rows| == |t.rows|
    ensures forall i :: 0 <= i < |t.rows| ==> u.rows[i] == SetCell(t.rows[i], c, v)
  {
    Table(t.columns + {c}, t.otherColumns, seq(|t.rows|, i requires 0 <= i < |t.rows| => SetCell(t.rows[i], c, v)))
  }
}
