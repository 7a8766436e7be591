/** Execution of a parsed SEO intent against the loaded sheets
    (seo_app/executor.py): resolve every filter's field to a physical
    column, then narrow the sheet one filter at a time. Grouping and
    aggregation are not part of this model. */
module Executor {
  import opened Outcomes
  import opened Lists
  import opened Text
  import opened Frames
  import opened SchemaResolver

  /** A filter as the intent states it: a logical field, an operator, a value. */
  datatype Filter = Filter(field: string, op: string, value: Value)

  /** `{**f, "column": physical}`: the filter with its physical column added. */
  datatype ResolvedFilter = ResolvedFilter(field: string, op: string, value: Value, column: string)

  /** The parts of a parsed intent the executor and the agent read. */
  datatype Intent = Intent(sheet: string, filters: seq<Filter>, outputMode: string)

  /** The operators `apply_filters` implements; any other is skipped. */
  predicate IsKnownOp(op: string) {
    op == "==" || op == ">" || op == "contains"
  }

  /** What one filter does with one row: keep it, drop it, or make the
      comparison raise `TypeError`. */
  datatype Verdict = Keep | Drop | Clash

  /** `astype(str)` of a cell. */
  function Render(v: Value): string {
    match v
    case Num(n) => IntToText(n)
    case Text(s) => s
    case Null => "nan"
  }

  /** Element-wise `cell > value`: numbers by value, strings by code point
      order, a missing value on either side never matches, and a number
      against a string raises `TypeError`. */
  function Greater(cell: Value, value: Value): (v: Verdict)
    ensures v == Clash <==> (cell.Num? && value.Text?) || (cell.Text? && value.Num?)
    ensures cell.Num? && value.Num? ==> (v == Keep <==> cell.n > value.n)
  {
    match (cell, value)
    case (Num(a), Num(b)) => if a > b then Keep else Drop
    case (Text(a), Text(b)) => if StrLess(b, a) then Keep else Drop
    case (Null, _) => Drop
    case (_, Null) => Drop
    case _ => Clash
  }

  /** A `contains` filter whose pattern is not a string: pandas compiles the
      pattern with `re.compile` before it looks at any row, so the call
      raises `TypeError` whatever the frame holds. */
  predicate BadPattern(f: ResolvedFilter) {
    f.op == "contains" && !f.value.Text?
  }

  /** The verdict of filter `f` on `row`; `JudgeVerdicts` states it
      operator by operator. */
  function Judge(f: ResolvedFilter, row: Row): Verdict {
    var cell := Cell(row, f.column);
    if f.op == "==" then (if cell != Null && cell == f.value then Keep else Drop)
    else if f.op == ">" then Greater(cell, f.value)
    else if f.op == "contains" then
      (if !f.value.Text? then Clash else if Contains(Render(cell), f.value.s) then Keep else Drop)
    else Keep
  }

  /** What each operator does with one row: `==` never matches a missing
      cell and never raises; `>` raises exactly for a number against a
      string, compares numbers by value and drops missing cells; `contains`
      raises exactly for a non-string pattern and is otherwise a literal
      substring test on the rendered cell; an unknown operator keeps the row. */
  lemma JudgeVerdicts(f: ResolvedFilter, row: Row)
    ensures var v, cell := Judge(f, row), Cell(row, f.column);
      && (f.op == "==" ==> v != Clash && (v == Keep <==> cell != Null && cell == f.value))
      && (f.op == ">" ==>
            && (v == Clash <==> (cell.Num? && f.value.Text?) || (cell.Text? && f.value.Num?))
            && (cell.Num? && f.value.Num? ==> (v == Keep <==> cell.n > f.value.n))
            && (cell == Null || f.value == Null ==> v == Drop))
      && (f.op == "contains" ==>
            && (v == Clash <==> BadPattern(f))
            && (f.value.Text? ==> (v == Keep <==> Contains(Render(cell), f.value.s))))
      && (!IsKnownOp(f.op) ==> v == Keep)
  {
  }

  /** A row passes a list of filters when every filter keeps it. */
  predicate Passes(fs: seq<ResolvedFilter>, row: Row) {
    forall f :: f in fs ==> Judge(f, row) == Keep
  }

  /** The rows that pass every filter, in their original order. */
  function Select(rows: seq<Row>, fs: seq<ResolvedFilter>): (r: seq<Row>)
    ensures IsSubsequence(r, rows)
    ensures forall row :: row in r <==> row in rows && Passes(fs, row)
    // every passing row is kept as often as it occurs, every other row never
    ensures forall row :: multiset(r)[row] == if Passes(fs, row) then multiset(rows)[row] else 0
  {
    if rows == [] then []
    else
      var rest := Select(rows[1..], fs);
      assert forall row :: row in rows <==> row == rows[0] || row in rows[1..];
      assert rows == [rows[0]] + rows[1..];
      assert multiset(rows) == multiset{rows[0]} + multiset(rows[1..]);
      if Passes(fs, rows[0]) then
        assert ([rows[0]] + rest)[1..] == rest;
        assert multiset([rows[0]] + rest) == multiset{rows[0]} + multiset(rest);
        [rows[0]] + rest
      else rest
  }

  /** Filter `f` can run on `frame` without raising: an operator it ignores,
      or a column the frame has, a string pattern for `contains`, and no row
      whose comparison raises. */
  ghost predicate Runs(frame: Frame, f: ResolvedFilter) {
    IsKnownOp(f.op) ==>
      && f.column in frame.columns
      && !BadPattern(f)
      && forall i :: 0 <= i < |frame.rows| ==> Judge(f, frame.rows[i]) != Clash
  }

  /** One iteration of `apply_filters`. An unknown operator does not even
      look the column up; a known one raises `KeyError` for a column the
      frame lacks, and `TypeError` for a non-string `contains` pattern (on
      any frame, even an empty one) or when some row cannot be compared. */
  function ApplyFilter(frame: Frame, f: ResolvedFilter): (r: Result<Frame, Failure>)
    ensures !IsKnownOp(f.op) ==> r == Success(frame)
    ensures r.Success? <==> Runs(frame, f)
    ensures r.Success? ==> r.value == Frame(frame.columns, Select(frame.rows, [f]))
    ensures IsKnownOp(f.op) && f.column !in frame.columns ==> r == Failure(KeyError(f.column))
    ensures IsKnownOp(f.op) && f.column in frame.columns && r.Failure? ==> r.error == TypeError
    ensures BadPattern(f) && f.column in frame.columns ==> r == Failure(TypeError)
  {
    if !IsKnownOp(f.op) then
      SelectAll(frame.rows, [f]);
      Success(frame)
    else if f.column !in frame.columns then Failure(KeyError(f.column))
    else if BadPattern(f) then Failure(TypeError)
    else if exists i :: 0 <= i < |frame.rows| && Judge(f, frame.rows[i]) == Clash then Failure(TypeError)
    else Success(Frame(frame.columns, Select(frame.rows, [f])))
  }

  /** Filters every row passes select every row. */
  lemma {:induction false} SelectAll(rows: seq<Row>, fs: seq<ResolvedFilter>)
    requires forall row :: row in rows ==> Passes(fs, row)
    ensures Select(rows, fs) == rows
  {
    if rows != [] {
      assert forall row :: row in rows[1..] ==> row in rows;
      SelectAll(rows[1..], fs);
      assert Passes(fs, rows[0]);
      assert [rows[0]] + rows[1..] == rows;
    }
  }

  /** Selecting by one filter and then by more is selecting by all of them. */
  lemma {:induction false} SelectCompose(rows: seq<Row>, f: ResolvedFilter, gs: seq<ResolvedFilter>)
    ensures Select(Select(rows, [f]), gs) == Select(rows, [f] + gs)
  {
    if rows != [] {
      SelectCompose(rows[1..], f, gs);
      var row := rows[0];
      assert Passes([f] + gs, row) <==> Passes([f], row) && Passes(gs, row) by {
        assert forall h :: h in [f] + gs <==> h == f || h in gs;
      }
      if Passes([f], row) {
        assert ([row] + Select(rows[1..], [f]))[1..] == Select(rows[1..], [f]);
      }
    }
  }

  /** Selection depends only on which filters are present, not on their order
      or repetition. */
  lemma {:induction false} SelectSameFilters(rows: seq<Row>, fs: seq<ResolvedFilter>, gs: seq<ResolvedFilter>)
    requires forall f :: f in fs <==> f in gs
    ensures Select(rows, fs) == Select(rows, gs)
  {
    if rows != [] {
      SelectSameFilters(rows[1..], fs, gs);
    }
  }

  /** A filter that runs on a frame runs on any frame with its columns and
      some of its rows. */
  lemma RunsOnFewerRows(frame: Frame, fewer: Frame, fs: seq<ResolvedFilter>)
    requires fewer.columns == frame.columns && IsSubsequence(fewer.rows, frame.rows)
    ensures (forall f :: f in fs ==> Runs(frame, f)) ==> forall f :: f in fs ==> Runs(fewer, f)
  {
    SubsequenceElements(fewer.rows, frame.rows);
    if forall f :: f in fs ==> Runs(frame, f) {
      forall f, i | f in fs && IsKnownOp(f.op) && 0 <= i < |fewer.rows|
        ensures Judge(f, fewer.rows[i]) != Clash
      {
        assert fewer.rows[i] in frame.rows;
      }
    }
  }

  /** `apply_filters`: the filters in list order, each narrowing the frame
      the previous one left. */
  function ApplyFilters(frame: Frame, fs: seq<ResolvedFilter>): (r: Result<Frame, Failure>)
    // no filters: the frame itself
    ensures fs == [] ==> r == Success(frame)
    // the filters compose as a conjunction, and the columns are kept
    ensures r.Success? ==> r.value == Frame(frame.columns, Select(frame.rows, fs))
    // filters that can all run on the input frame never raise
    ensures (forall f :: f in fs ==> Runs(frame, f)) ==> r.Success?
    decreases |fs|
  {
    if fs == [] then
      SelectAll(frame.rows, fs);
      Success(frame)
    else match ApplyFilter(frame, fs[0])
      case Failure(e) => Failure(e)
      case Success(next) =>
        var r := ApplyFilters(next, fs[1..]);
        SelectCompose(frame.rows, fs[0], fs[1..]);
        assert [fs[0]] + fs[1..] == fs;
        RunsOnFewerRows(frame, next, fs);
        r
  }

  /** A known operator on a column the frame lacks, or a `contains` filter
      with a non-string pattern, makes the whole call raise, whatever the
      rows and wherever the filter sits in the list. */
  lemma {:induction false} BoundToRaise(frame: Frame, fs: seq<ResolvedFilter>)
    ensures (exists f :: f in fs && IsKnownOp(f.op) && f.column !in frame.columns) ==> ApplyFilters(frame, fs).Failure?
    ensures (exists f :: f in fs && BadPattern(f)) ==> ApplyFilters(frame, fs).Failure?
    decreases |fs|
  {
    if fs != [] {
      match ApplyFilter(frame, fs[0])
      case Failure(_) =>
      case Success(next) =>
        FailuresCarryOver(frame, next, fs);
        BoundToRaise(next, fs[1..]);
    }
  }

  /** A filter that is bound to raise is not the first one when the first
      one ran, so it is still among the rest, facing the same columns. */
  lemma FailuresCarryOver(frame: Frame, next: Frame, fs: seq<ResolvedFilter>)
    requires fs != [] && ApplyFilter(frame, fs[0]) == Success(next)
    ensures (exists f :: f in fs && IsKnownOp(f.op) && f.column !in frame.columns) ==>
      exists f :: f in fs[1..] && IsKnownOp(f.op) && f.column !in next.columns
    ensures (exists f :: f in fs && BadPattern(f)) ==> exists f :: f in fs[1..] && BadPattern(f)
  {
    if f :| f in fs && IsKnownOp(f.op) && f.column !in frame.columns {
      assert f != fs[0] && f in fs[1..];
    }
    if f :| f in fs && BadPattern(f) {
      assert f != fs[0] && f in fs[1..];
    }
  }

  /** The result of `apply_filters` is an order-preserving subsequence of the
      input rows. */
  lemma FilteredRowsAreSubsequence(frame: Frame, fs: seq<ResolvedFilter>)
    requires ApplyFilters(frame, fs).Success?
    ensures IsSubsequence(ApplyFilters(frame, fs).value.rows, frame.rows)
  {
  }

  /** `==` keeps exactly the rows whose cell equals the value (a missing cell
      equals nothing) and never raises once the column exists. */
  lemma EqualityFilter(frame: Frame, f: ResolvedFilter)
    requires f.op == "==" && f.column in frame.columns
    ensures ApplyFilter(frame, f).Success?
    ensures forall row :: row in ApplyFilter(frame, f).value.rows <==>
      row in frame.rows && Cell(row, f.column) == f.value && f.value != Null
  {
  }

  /** On numbers `>` keeps exactly the rows whose cell is greater than the
      value. */
  lemma GreaterFilterOnNumbers(frame: Frame, f: ResolvedFilter)
    requires f.op == ">" && f.column in frame.columns && f.value.Num?
    requires forall i :: 0 <= i < |frame.rows| ==> Cell(frame.rows[i], f.column).Num?
    ensures ApplyFilter(frame, f).Success?
    ensures forall row :: row in ApplyFilter(frame, f).value.rows <==>
      row in frame.rows && Cell(row, f.column).n > f.value.n
  {
    var r := ApplyFilter(frame, f);
    assert Runs(frame, f);
  }

  /** A string pattern: `contains` never raises on a present column and keeps
      exactly the rows whose rendered cell holds the pattern literally. */
  lemma ContainsFilter(frame: Frame, f: ResolvedFilter)
    requires f.op == "contains" && f.column in frame.columns && f.value.Text?
    ensures ApplyFilter(frame, f).Success?
    ensures forall row :: row in ApplyFilter(frame, f).value.rows <==>
      row in frame.rows && Contains(Render(Cell(row, f.column)), f.value.s)
  {
    assert Runs(frame, f);
  }

  /** A numeric `contains` pattern raises `TypeError` even on a frame with no
      rows, and so does every list of filters that holds one. */
  lemma NonStringPatternRaises(fs: seq<ResolvedFilter>)
    requires ResolvedFilter("status_code", "contains", Num(200), "status_code") in fs
    ensures ApplyFilter(Frame(["status_code"], []), ResolvedFilter("status_code", "contains", Num(200), "status_code"))
            == Failure(TypeError)
    ensures ApplyFilters(Frame(["status_code"], []), fs).Failure?
  {
    assert BadPattern(ResolvedFilter("status_code", "contains", Num(200), "status_code"));
    BoundToRaise(Frame(["status_code"], []), fs);
  }

  /** Operators the prompt advertises but `apply_filters` does not implement
      (`!=`, `>=`, `<`, `<=`, `not_contains`) leave the frame unchanged. */
  lemma AdvertisedButIgnored(frame: Frame, f: ResolvedFilter)
    requires f.op in {"!=", ">=", "<", "<=", "not_contains"}
    ensures ApplyFilters(frame, [f]) == Success(frame)
  {
    assert ApplyFilter(frame, f) == Success(frame);
  }

  /** When two orders of the same filters both run, they give the same rows. */
  lemma FilterOrderIrrelevant(frame: Frame, fs: seq<ResolvedFilter>, gs: seq<ResolvedFilter>)
    requires forall f :: f in fs <==> f in gs
    requires ApplyFilters(frame, fs).Success? && ApplyFilters(frame, gs).Success?
    ensures ApplyFilters(frame, fs) == ApplyFilters(frame, gs)
  {
    SelectSameFilters(frame.rows, fs, gs);
  }

  /** The loop of `execute_intent` that resolves every filter's field before
      any filtering, with `resolve` as the field resolver; the first field
      that does not resolve raises. */
  function ResolveFilters(resolve: string -> Result<string, Failure>, fs: seq<Filter>): (r: Result<seq<ResolvedFilter>, Failure>)
    ensures r.Success? <==> forall i :: 0 <= i < |fs| ==> resolve(fs[i].field).Success?
    ensures r.Success? ==> |r.value| == |fs| && forall i :: 0 <= i < |fs| ==>
      r.value[i] == ResolvedFilter(fs[i].field, fs[i].op, fs[i].value, resolve(fs[i].field).value)
    ensures r.Failure? ==> exists i :: 0 <= i < |fs| && resolve(fs[i].field) == Failure(r.error)
                                       && forall j :: 0 <= j < i ==> resolve(fs[j].field).Success?
  {
    if fs == [] then Success([])
    else match resolve(fs[0].field)
      case Failure(e) => Failure(e)
      case Success(column) =>
        match ResolveFilters(resolve, fs[1..])
        case Failure(e) =>
          assert forall i :: 1 <= i < |fs| ==> fs[1..][i - 1] == fs[i];
          Failure(e)
        case Success(rest) =>
          Success([ResolvedFilter(fs[0].field, fs[0].op, fs[0].value, column)] + rest)
  }

  /** The field resolver `execute_intent` uses: `resolve_field` on the
      intent's sheet. */
  function Resolver(schema: Schema, sheet: string): string -> Result<string, Failure> {
    (field: string) => ResolveField(schema, sheet, field)
  }

  /** `execute_intent` without grouping: the sheet (or `KeyError`), then the
      resolved filters (or the first resolution error), then `apply_filters`. */
  function ExecuteIntent(sheets: map<string, Frame>, schema: Schema, intent: Intent): (r: Result<Frame, Failure>)
    ensures intent.sheet !in sheets ==> r == Failure(KeyError(intent.sheet))
    ensures r.Success? ==>
      && intent.sheet in sheets
      && ResolveFilters(Resolver(schema, intent.sheet), intent.filters).Success?
      && r.value.columns == sheets[intent.sheet].columns
      && r.value.rows == Select(sheets[intent.sheet].rows, ResolveFilters(Resolver(schema, intent.sheet), intent.filters).value)
    ensures intent.sheet in sheets && intent.filters == [] ==> r == Success(sheets[intent.sheet])
    // a field that does not resolve stops the call with that field's error
    ensures intent.sheet in sheets && ResolveFilters(Resolver(schema, intent.sheet), intent.filters).Failure? ==>
      r == Failure(ResolveFilters(Resolver(schema, intent.sheet), intent.filters).error)
    // once every field resolves, the outcome is that of the filters
    ensures intent.sheet in sheets && ResolveFilters(Resolver(schema, intent.sheet), intent.filters).Success? ==>
      r == ApplyFilters(sheets[intent.sheet], ResolveFilters(Resolver(schema, intent.sheet), intent.filters).value)
  {
    if intent.sheet !in sheets then Failure(KeyError(intent.sheet))
    else match ResolveFilters(Resolver(schema, intent.sheet), intent.filters)
      case Failure(e) => Failure(e)
      case Success(resolved) => ApplyFilters(sheets[intent.sheet], resolved)
  }
}
