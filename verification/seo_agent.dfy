/** The SEO agent's output step (agent/seo_agent.py): after the intent has
    been executed, return the first rows or a health summary, as the intent's
    output mode asks. The workbook is given already loaded and the intent
    already parsed. */
module SeoAgent {
  import opened Outcomes
  import opened Frames
  import opened Lists
  import opened Executor
  import opened SchemaDiscovery
  import opened HealthSummary

  const RowLimit: nat := 100

  /** `df.head(100).to_dict(orient="records")` or the summary dict. The
      percentage is kept exact; the source rounds it to two decimals. */
  datatype Report =
    | Records(rows: seq<Row>)
    | Summary(totalPages: nat, indexablePercentage: real, assessment: Grade)

  /** Number of rows whose `indexability` cell is the string `Indexable`. */
  function CountIndexable(rows: seq<Row>): (n: nat)
    ensures n <= |rows|
  {
    if rows == [] then 0
    else (if Cell(rows[0], "indexability") == Text("Indexable") then 1 else 0) + CountIndexable(rows[1..])
  }

  /** Every row's `indexability` cell is the string `Indexable` exactly when
      the count reaches the number of rows. */
  lemma {:induction false} AllIndexableIffFullCount(rows: seq<Row>)
    ensures CountIndexable(rows) == |rows| <==>
      forall i :: 0 <= i < |rows| ==> Cell(rows[i], "indexability") == Text("Indexable")
  {
    if rows != [] {
      AllIndexableIffFullCount(rows[1..]);
      assert forall i :: 1 <= i < |rows| ==> rows[i] == rows[1..][i - 1];
    }
  }

  /** `(indexable / total) * 100 if total else 0`. */
  function Percent(indexable: nat, total: nat): (p: real)
    requires indexable <= total
    ensures 0.0 <= p <= 100.0
    ensures total == 0 ==> p == 0.0
    ensures total > 0 ==> p * total as real == indexable as real * 100.0
    ensures total > 0 ==> (p == 100.0 <==> indexable == total)
  {
    if total == 0 then 0.0
    else
      var ratio := indexable as real / total as real;
      assert ratio <= 1.0 by {
        assert indexable as real <= total as real;
      }
      ratio * 100.0
  }

  /** Lines 21-33 of `run_seo_agent` on the executed frame: `"rows"` gives at
      most the first 100 rows, `"summary"` reads the `indexability` column
      (a `KeyError` when the frame has none), any other mode returns `None`. */
  function Respond(frame: Frame, mode: string): (r: Result<Option<Report>, Failure>)
    ensures mode == "rows" ==>
      && r.Success? && r.value.Some? && r.value.value.Records?
      && var out := r.value.value.rows;
         |out| == (if |frame.rows| < RowLimit then |frame.rows| else RowLimit)
         && out == frame.rows[..|out|]
    ensures mode == "summary" && "indexability" !in frame.columns ==> r == Failure(KeyError("indexability"))
    ensures mode == "summary" && "indexability" in frame.columns ==>
      && r.Success? && r.value.Some? && r.value.value.Summary?
      && var s := r.value.value;
         && s.totalPages == |frame.rows|
         && 0.0 <= s.indexablePercentage <= 100.0
         && (|frame.rows| > 0 ==>
               s.indexablePercentage * |frame.rows| as real == CountIndexable(frame.rows) as real * 100.0)
         && (|frame.rows| == 0 ==> s.indexablePercentage == 0.0 && s.assessment == Poor)
         && s.assessment == Assess(s.indexablePercentage)
    ensures mode != "rows" && mode != "summary" ==> r == Success(None)
  {
    if mode == "rows" then
      var n := if |frame.rows| < RowLimit then |frame.rows| else RowLimit;
      Success(Some(Records(frame.rows[..n])))
    else if mode == "summary" then
      if "indexability" !in frame.columns then Failure(KeyError("indexability"))
      else
        var total := |frame.rows|;
        var percent := Percent(CountIndexable(frame.rows), total);
        Success(Some(Summary(total, percent, Assess(percent))))
    else Success(None)
  }

  /** `run_seo_agent` after loading and parsing: discover the schema, execute
      the intent, then respond in the intent's output mode. Execution errors
      come first, whatever the mode. */
  function RunSeoAgent(sheets: map<string, Frame>, intent: Intent): (r: Result<Option<Report>, Failure>)
    ensures ExecuteIntent(sheets, DiscoverSchema(sheets), intent).Failure? ==>
      r == Failure(ExecuteIntent(sheets, DiscoverSchema(sheets), intent).error)
    ensures intent.outputMode == "rows" && r.Success? ==>
      r.value.Some? && r.value.value.Records? && |r.value.value.rows| <= RowLimit
    ensures (intent.outputMode != "rows" && intent.outputMode != "summary" &&
             ExecuteIntent(sheets, DiscoverSchema(sheets), intent).Success?) ==> r == Success(None)
    // a frame the executor produced is answered as `Respond` answers it
    ensures ExecuteIntent(sheets, DiscoverSchema(sheets), intent).Success? ==>
      r == Respond(ExecuteIntent(sheets, DiscoverSchema(sheets), intent).value, intent.outputMode)
    // in "rows" mode: the first (at most 100) filtered rows of the named sheet
    ensures intent.outputMode == "rows" && r.Success? ==>
      && intent.sheet in sheets
      && var selected := ExecuteIntent(sheets, DiscoverSchema(sheets), intent).value.rows;
         && IsSubsequence(selected, sheets[intent.sheet].rows)
         && |r.value.value.rows| == (if |selected| < RowLimit then |selected| else RowLimit)
         && r.value.value.rows == selected[..|r.value.value.rows|]
  {
    match ExecuteIntent(sheets, DiscoverSchema(sheets), intent)
    case Failure(e) => Failure(e)
    case Success(frame) => Respond(frame, intent.outputMode)
  }

  /** A non-empty frame in which every page is indexable is graded good. */
  lemma FullyIndexableIsGood(frame: Frame)
    requires "indexability" in frame.columns && |frame.rows| > 0
    requires forall i :: 0 <= i < |frame.rows| ==> Cell(frame.rows[i], "indexability") == Text("Indexable")
    ensures Respond(frame, "summary") == Success(Some(Summary(|frame.rows|, 100.0, Good)))
  {
    AllIndexableIffFullCount(frame.rows);
  }

  /** An unfiltered `rows` request on an existing sheet returns that sheet's
      first rows, in order. */
  lemma UnfilteredRowsArePrefix(sheets: map<string, Frame>, intent: Intent)
    requires intent.sheet in sheets && intent.filters == [] && intent.outputMode == "rows"
    ensures var rows := sheets[intent.sheet].rows;
      RunSeoAgent(sheets, intent) ==
        Success(Some(Records(rows[..if |rows| < RowLimit then |rows| else RowLimit])))
  {
  }
}
