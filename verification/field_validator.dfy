/** The static field check of the analytics endpoint (app/validator.py):
    every requested name must belong to a fixed vocabulary. */
module FieldValidator {
  import opened Lists

  const ValidMetrics: set<string> := {"screenPageViews", "totalUsers", "sessions"}

  const ValidDimensions: set<string> := {"date", "pagePath"}

  /** The two `ValueError`s `validate_fields` raises. */
  datatype FieldError = InvalidMetricRequested | InvalidDimensionRequested {
    function Message(): string {
      match this
      case InvalidMetricRequested => "Invalid GA4 metric requested"
      case InvalidDimensionRequested => "Invalid GA4 dimension requested"
    }
  }

  /** `validate_fields` returns `None` or raises. */
  datatype FieldVerdict = Accepted | Refused(error: FieldError)

  /** `validate_fields`: the metric set is checked before the dimension set. */
  function ValidateFields(metrics: seq<string>, dimensions: seq<string>): (r: FieldVerdict)
    ensures r == Accepted <==>
      (forall m :: m in metrics ==> m in ValidMetrics) && (forall d :: d in dimensions ==> d in ValidDimensions)
    ensures r == Refused(InvalidMetricRequested) <==> exists m :: m in metrics && m !in ValidMetrics
    ensures r == Refused(InvalidDimensionRequested) <==>
      (forall m :: m in metrics ==> m in ValidMetrics) && exists d :: d in dimensions && d !in ValidDimensions
  {
    if ToSet(metrics) - ValidMetrics != {} then
      Refused(InvalidMetricRequested)
    else if ToSet(dimensions) - ValidDimensions != {} then
      assert forall m :: m in metrics ==> m in ToSet(metrics);
      Refused(InvalidDimensionRequested)
    else
      assert forall m :: m in metrics ==> m in ToSet(metrics);
      assert forall d :: d in dimensions ==> d in ToSet(dimensions);
      Accepted
  }

  /** The text of a refusal tells which list held the unknown name: the
      metric message exactly when some metric is unknown, the dimension
      message exactly when every metric is known and some dimension is not. */
  lemma RefusalMessage(metrics: seq<string>, dimensions: seq<string>)
    requires ValidateFields(metrics, dimensions).Refused?
    ensures ValidateFields(metrics, dimensions).error.Message() == "Invalid GA4 metric requested" <==>
      exists m :: m in metrics && m !in ValidMetrics
    ensures ValidateFields(metrics, dimensions).error.Message() == "Invalid GA4 dimension requested" <==>
      (forall m :: m in metrics ==> m in ValidMetrics) && exists d :: d in dimensions && d !in ValidDimensions
  {
    assert "Invalid GA4 metric requested" != "Invalid GA4 dimension requested" by {
      assert "Invalid GA4 metric requested"[12] != "Invalid GA4 dimension requested"[12];
    }
  }

  /** Empty lists are accepted. */
  lemma EmptyAccepted()
    ensures ValidateFields([], []) == Accepted
  {
  }

  /** When both lists hold an unknown name the metric error wins. */
  lemma MetricErrorFirst(metrics: seq<string>, dimensions: seq<string>)
    requires exists m :: m in metrics && m !in ValidMetrics
    requires exists d :: d in dimensions && d !in ValidDimensions
    ensures ValidateFields(metrics, dimensions) == Refused(InvalidMetricRequested)
  {
  }

  /** Only the sets of names matter: reordering or repeating elements does not
      change the verdict. */
  lemma VerdictDependsOnlyOnSets(m1: seq<string>, d1: seq<string>, m2: seq<string>, d2: seq<string>)
    requires forall x :: x in m1 <==> x in m2
    requires forall x :: x in d1 <==> x in d2
    ensures ValidateFields(m1, d1) == ValidateFields(m2, d2)
  {
  }
}
