/** The trend summariser of the analytics endpoint (app/summarizer.py): one
    sentence per metric, chosen by the sign of last value minus first. */
module TrendSummary {
  import opened Outcomes
  import opened Lists
  import opened Text

  /** One report row: metric name to its integer value (`run_report` casts
      every metric value with `int`). */
  type Row = map<string, int>

  const NoDataMessage: string := "No data available for the selected period."

  datatype Trend = Increased | Decreased | Stable

  /** The trend of a metric from its first to its last value. */
  function TrendOf(first: int, last: int): (t: Trend)
    ensures t == Increased <==> last > first
    ensures t == Decreased <==> last < first
    ensures t == Stable <==> last == first
  {
    var delta := last - first;
    if delta > 0 then Increased else if delta < 0 then Decreased else Stable
  }

  function Sentence(m: string, t: Trend): string {
    match t
    case Increased => m + " increased over the period."
    case Decreased => m + " decreased slightly over the period."
    case Stable => m + " remained stable over the period."
  }

  /** Some row has no value for `m`, so `r[m]` raises `KeyError`. */
  predicate Missing(rows: seq<Row>, m: string) {
    exists i :: 0 <= i < |rows| && m !in rows[i]
  }

  /** The sentence of each metric, from its value in the first and last row. */
  function Sentences(first: Row, last: Row, metrics: seq<string>): (r: seq<string>)
    requires forall m :: m in metrics ==> m in first && m in last
    ensures |r| == |metrics|
    ensures forall i :: 0 <= i < |metrics| ==>
      r[i] == Sentence(metrics[i], TrendOf(first[metrics[i]], last[metrics[i]]))
  {
    if metrics == [] then []
    else [Sentence(metrics[0], TrendOf(first[metrics[0]], last[metrics[0]]))] + Sentences(first, last, metrics[1..])
  }

  /** `summarize`: the fixed message for no rows; otherwise, metric by
      metric, a `KeyError` for the first metric some row lacks, or the
      sentences joined by single spaces. The failure carries the missing key. */
  function Summarize(rows: seq<Row>, metrics: seq<string>): (r: Result<string, string>)
    ensures rows == [] ==> r == Success(NoDataMessage)
    ensures rows != [] ==> (r.Failure? <==> exists m :: m in metrics && Missing(rows, m))
    ensures r.Failure? ==> exists k :: 0 <= k < |metrics| && metrics[k] == r.error && Missing(rows, metrics[k])
                                      && forall j :: 0 <= j < k ==> !Missing(rows, metrics[j])
    ensures rows != [] && r.Success? ==>
      forall i :: 0 <= i < |metrics| ==> metrics[i] in rows[0] && metrics[i] in rows[|rows| - 1]
    ensures rows != [] && r.Success? ==>
      r.value == Join(" ", seq(|metrics|, i requires 0 <= i < |metrics| =>
        Sentence(metrics[i], TrendOf(rows[0][metrics[i]], rows[|rows| - 1][metrics[i]]))))
  {
    if rows == [] then Success(NoDataMessage)
    else match FirstWhere(metrics, (m: string) => Missing(rows, m))
      case Some(k) => Failure(metrics[k])
      case None =>
        assert forall m :: m in metrics ==> !Missing(rows, m);
        var ss := Sentences(rows[0], rows[|rows| - 1], metrics);
        assert ss == seq(|metrics|, i requires 0 <= i < |metrics| =>
          Sentence(metrics[i], TrendOf(rows[0][metrics[i]], rows[|rows| - 1][metrics[i]])));
        Success(Join(" ", ss))
  }

  /** Only the first and last rows decide the summary, provided every row has
      every metric. */
  lemma EndpointsOnly(rows1: seq<Row>, rows2: seq<Row>, metrics: seq<string>)
    requires rows1 != [] && rows2 != []
    requires rows1[0] == rows2[0] && rows1[|rows1| - 1] == rows2[|rows2| - 1]
    requires forall m :: m in metrics ==> !Missing(rows1, m) && !Missing(rows2, m)
    ensures Summarize(rows1, metrics) == Summarize(rows2, metrics)
  {
  }

  /** With a single row every metric is reported as stable. */
  lemma SingleRowStable(row: Row, metrics: seq<string>)
    requires forall m :: m in metrics ==> m in row
    ensures Summarize([row], metrics) ==
      Success(Join(" ", seq(|metrics|, i requires 0 <= i < |metrics| => Sentence(metrics[i], Stable))))
  {
    assert forall m :: m in metrics ==> !Missing([row], m);
    var r := Summarize([row], metrics);
    assert r.Success?;
    assert seq(|metrics|, i requires 0 <= i < |metrics| => Sentence(metrics[i], TrendOf(row[metrics[i]], row[metrics[i]])))
        == seq(|metrics|, i requires 0 <= i < |metrics| => Sentence(metrics[i], Stable));
  }

  /** Rows with no metrics to report give the empty string. */
  lemma NoMetricsEmptySummary(rows: seq<Row>)
    requires rows != []
    ensures Summarize(rows, []) == Success("")
  {
  }

  /** A metric that rose is reported as increased, and one that fell as
      decreased slightly. */
  lemma TrendExamples()
    ensures Summarize([map["sessions" := 3], map["sessions" := 5]], ["sessions"]) ==
      Success(Sentence("sessions", Increased))
    ensures Summarize([map["sessions" := 5], map["sessions" := 3]], ["sessions"]) ==
      Success(Sentence("sessions", Decreased))
  {
    var ms := ["sessions"];
    var up := [map["sessions" := 3], map["sessions" := 5]];
    var down := [map["sessions" := 5], map["sessions" := 3]];
    assert !Missing(up, "sessions");
    assert !Missing(down, "sessions");
    assert seq(1, i requires 0 <= i < 1 => Sentence(ms[i], TrendOf(up[0][ms[i]], up[1][ms[i]])))
        == [Sentence("sessions", Increased)];
    assert seq(1, i requires 0 <= i < 1 => Sentence(ms[i], TrendOf(down[0][ms[i]], down[1][ms[i]])))
        == [Sentence("sessions", Decreased)];
  }
}
