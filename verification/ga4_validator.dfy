/** The GA4 query validator and its bounded auto-repair loop
    (app/ga4_schema_validator.py).

    The property metadata that `load_metadata` fetches over the network is a
    parameter (`Metadata`), and the language-model repair step is an opaque
    oracle from the validation error to an optional new candidate. */
module GA4Validator {
  import opened Outcomes
  import opened Lists
  import opened Text

  // ----- static rule sets -----

  /** Time dimensions; declared by the source but consulted by no rule. */
  const TimeDimensions: set<string> :=
    {"date", "dateHour", "dateHourMinute", "week", "month", "year"}

  const EventDimensions: set<string> := {"eventName", "eventCategory", "eventLabel"}

  const ItemDimensions: set<string> :=
    {"itemName", "itemBrand", "itemCategory", "browser", "city", "cohort"}

  const SessionMetrics: set<string> :=
    {"sessions", "averageSessionDuration", "engagementRate", "sessionsPerUser"}

  const UserMetrics: set<string> := {"totalUsers", "activeUsers", "newUsers"}

  const AdsMetrics: set<string> :=
    {"advertiserAdClicks", "advertiserAdCost", "advertiserAdImpressions"}

  // ----- data model -----

  /** What `load_metadata` returns: every metric's API name with the
      dimensions it may not be combined with, and every dimension's API name. */
  datatype Metadata = Metadata(blockedDims: map<string, set<string>>, dimensions: set<string>)

  /** The reason a query is rejected, one constructor per `raise`. */
  datatype Reason =
    | InvalidMetric(metric: string)
    | InvalidDimension(dimension: string)
    | Incompatible(metric: string, clashing: seq<string>)
    | SessionByEvent
    | UserByItem
    | AdsNotLinked

  /** `GA4ValidationError`: the reason and the lists the validator was given. */
  datatype ValidationError = ValidationError(reason: Reason, metrics: seq<string>, dimensions: seq<string>)

  /** `validate_ga4_query` either returns `True` or raises one error. */
  datatype Verdict = Valid | Invalid(error: ValidationError)

  /** A query as the loop passes it around: metric and dimension names. */
  datatype Candidate = Candidate(metrics: seq<string>, dimensions: seq<string>)

  // ----- rule vocabulary -----

  /** Python's truthiness of `fixed & set(xs)`. */
  predicate Meets(fixed: set<string>, xs: seq<string>) {
    fixed * ToSet(xs) != {}
  }

  /** A set meets a list exactly when some list element belongs to it. */
  lemma MeetsCommonElement(fixed: set<string>, xs: seq<string>)
    ensures Meets(fixed, xs) <==> exists x :: x in xs && x in fixed
  {
    if exists x :: x in xs && x in fixed {
      var x :| x in xs && x in fixed;
      assert x in fixed * ToSet(xs);
    }
  }

  /** `metric_blocked_dims[m] & set(dimensions)` is non-empty. */
  predicate Blocks(md: Metadata, m: string, dimensions: seq<string>) {
    m in md.blockedDims && md.blockedDims[m] * ToSet(dimensions) != {}
  }

  /** A known metric that does not block the request blocks none of its
      dimensions. */
  lemma UnblockedMeansDisjoint(md: Metadata, m: string, dimensions: seq<string>)
    requires m in md.blockedDims && !Blocks(md, m, dimensions)
    ensures forall d :: d in dimensions ==> d !in md.blockedDims[m]
  {
    forall d | d in dimensions
      ensures d !in md.blockedDims[m]
    {
      assert d in ToSet(dimensions);
      assert d !in md.blockedDims[m] * ToSet(dimensions);
    }
  }

  /** The dimensions of the request that `m` may not be combined with, in
      request order and without repeats. */
  function ClashingDims(blocked: set<string>, dimensions: seq<string>, seen: set<string>): (r: seq<string>)
    ensures forall d :: d in r <==> d in dimensions && d in blocked && d !in seen
    // `set(dimensions) & blocked`: each clashing dimension once
    ensures forall i, j :: 0 <= i < j < |r| ==> r[i] != r[j]
  {
    if dimensions == [] then []
    else if dimensions[0] in blocked && dimensions[0] !in seen then
      [dimensions[0]] + ClashingDims(blocked, dimensions[1..], seen + {dimensions[0]})
    else ClashingDims(blocked, dimensions[1..], seen)
  }

  /** The message `str(error)` shows, built as the f-strings of the source
      build it. */
  function Message(reason: Reason): string {
    match reason
    case InvalidMetric(m) => "Invalid GA4 metric: " + m
    case InvalidDimension(d) => "Invalid GA4 dimension: " + d
    case Incompatible(m, ds) => "Metric '" + m + "' incompatible with dimensions [" + QuotedList(ds) + "]"
    case SessionByEvent => "Session metrics cannot be broken down by event dimensions"
    case UserByItem => "User metrics cannot be broken down by item dimensions"
    case AdsNotLinked => "Ads metrics require Ads-linked GA4 property"
  }

  /** The body of Python's `repr` of a list of strings: each item quoted,
      separated by ", ". */
  function QuotedList(ds: seq<string>): (r: string)
    ensures forall d :: d in ds ==> Contains(r, "'" + d + "'")
  {
    if ds == [] then ""
    else
      var head := "'" + ds[0] + "'";
      assert OccursAt(head, head, 0);
      if |ds| == 1 then head
      else
        var rest := QuotedList(ds[1..]);
        assert forall d :: d in ds ==> Contains(head + ", " + rest, "'" + d + "'") by {
          forall d | d in ds
            ensures Contains(head + ", " + rest, "'" + d + "'")
          {
            if d == ds[0] {
              ContainsWithin("", head, ", " + rest, head);
              assert "" + head + (", " + rest) == head + ", " + rest;
            } else {
              assert d in ds[1..];
              ContainsWithin(head + ", ", rest, "", "'" + d + "'");
              assert head + ", " + rest + "" == head + ", " + rest;
            }
          }
        }
        head + ", " + rest
  }

  // ----- the declarative acceptance condition -----

  /** A query the validator accepts, stated rule by rule without reference to
      the order in which the source checks them. */
  ghost predicate Acceptable(md: Metadata, metrics: seq<string>, dimensions: seq<string>) {
    && (forall m :: m in metrics ==> m in md.blockedDims)
    && (forall d :: d in dimensions ==> d in md.dimensions)
    && (forall m :: m in metrics ==> forall d :: d in dimensions ==> d !in md.blockedDims[m])
    && !((exists m :: m in metrics && m in SessionMetrics) && (exists d :: d in dimensions && d in EventDimensions))
    && !((exists m :: m in metrics && m in UserMetrics) && (exists d :: d in dimensions && d in ItemDimensions))
    && (forall m :: m in metrics ==> m !in AdsMetrics)
  }

  /** `xs[i]` is the first element of `xs` outside `s`. */
  ghost predicate FirstOutside(xs: seq<string>, s: set<string>, x: string) {
    exists i :: 0 <= i < |xs| && xs[i] == x && x !in s && forall j :: 0 <= j < i ==> xs[j] in s
  }

  // ----- validate_ga4_query -----

  /** `validate_ga4_query` with the metric existence test of line 103 reading
      the keys of `metric_blocked_dims`: line 103 names `metric_map`, which
      only the commented-out line 99 would define (see `ValidateAsWritten`).

      The checks run in the source's order and stop at the first failure:
      metric existence, dimension existence, the per-metric blocked
      dimensions, then the session/event, user/item and ads guards. */
  function Validate(md: Metadata, metrics: seq<string>, dimensions: seq<string>): (r: Verdict)
    // the verdict is exactly the declarative condition
    ensures r.Valid? <==> Acceptable(md, metrics, dimensions)
    // an error always carries the lists the validator was called with
    ensures r.Invalid? ==> r.error.metrics == metrics && r.error.dimensions == dimensions
    // metric existence comes first, and names the first unknown metric
    ensures (r.Invalid? && r.error.reason.InvalidMetric?) <==> exists m :: m in metrics && m !in md.blockedDims
    ensures r.Invalid? && r.error.reason.InvalidMetric? ==>
      FirstOutside(metrics, md.blockedDims.Keys, r.error.reason.metric)
    // dimension existence runs only once every metric exists
    ensures (r.Invalid? && r.error.reason.InvalidDimension?) <==>
      (forall m :: m in metrics ==> m in md.blockedDims) && exists d :: d in dimensions && d !in md.dimensions
    ensures r.Invalid? && r.error.reason.InvalidDimension? ==>
      FirstOutside(dimensions, md.dimensions, r.error.reason.dimension)
    // the blocked-dimension table is consulted once everything exists
    ensures (r.Invalid? && r.error.reason.Incompatible?) <==>
      && (forall m :: m in metrics ==> m in md.blockedDims)
      && (forall d :: d in dimensions ==> d in md.dimensions)
      && exists m :: m in metrics && Blocks(md, m, dimensions)
    ensures r.Invalid? && r.error.reason.Incompatible? ==>
      && (exists i :: 0 <= i < |metrics| && metrics[i] == r.error.reason.metric && Blocks(md, metrics[i], dimensions)
            && forall j :: 0 <= j < i ==> !Blocks(md, metrics[j], dimensions))
      && (forall d :: d in r.error.reason.clashing <==>
            d in dimensions && d in md.blockedDims[r.error.reason.metric])
      && (forall i, j :: 0 <= i < j < |r.error.reason.clashing| ==>
            r.error.reason.clashing[i] != r.error.reason.clashing[j])
    // the three static guards, in order
    ensures (r.Invalid? && r.error.reason.SessionByEvent?) <==>
      && (forall m :: m in metrics ==> m in md.blockedDims)
      && (forall d :: d in dimensions ==> d in md.dimensions)
      && (forall m :: m in metrics ==> !Blocks(md, m, dimensions))
      && Meets(SessionMetrics, metrics) && Meets(EventDimensions, dimensions)
    ensures (r.Invalid? && r.error.reason.UserByItem?) <==>
      && (forall m :: m in metrics ==> m in md.blockedDims)
      && (forall d :: d in dimensions ==> d in md.dimensions)
      && (forall m :: m in metrics ==> !Blocks(md, m, dimensions))
      && !(Meets(SessionMetrics, metrics) && Meets(EventDimensions, dimensions))
      && Meets(UserMetrics, metrics) && Meets(ItemDimensions, dimensions)
    ensures (r.Invalid? && r.error.reason.AdsNotLinked?) <==>
      && (forall m :: m in metrics ==> m in md.blockedDims)
      && (forall d :: d in dimensions ==> d in md.dimensions)
      && (forall m :: m in metrics ==> !Blocks(md, m, dimensions))
      && !(Meets(SessionMetrics, metrics) && Meets(EventDimensions, dimensions))
      && !(Meets(UserMetrics, metrics) && Meets(ItemDimensions, dimensions))
      && Meets(AdsMetrics, metrics)
  {
    match TableCheck(md, metrics, dimensions)
    case Some(reason) => Invalid(ValidationError(reason, metrics, dimensions))
    case None =>
      match GuardCheck(metrics, dimensions)
      case Some(reason) => Invalid(ValidationError(reason, metrics, dimensions))
      case None =>
        assert forall m :: m in metrics ==> forall d :: d in dimensions ==> d !in md.blockedDims[m] by {
          forall m | m in metrics
            ensures forall d :: d in dimensions ==> d !in md.blockedDims[m]
          {
            UnblockedMeansDisjoint(md, m, dimensions);
          }
        }
        Valid
  }

  /** The message of a rejected query names what was wrong: the first
      unknown metric or dimension verbatim, or the incompatible metric and
      every requested dimension it cannot be combined with, each quoted. */
  lemma MessageNamesOffender(md: Metadata, metrics: seq<string>, dimensions: seq<string>)
    requires Validate(md, metrics, dimensions).Invalid?
    ensures var reason := Validate(md, metrics, dimensions).error.reason;
      && (reason.InvalidMetric? ==>
            && reason.metric in metrics && reason.metric !in md.blockedDims
            && Message(reason) == "Invalid GA4 metric: " + reason.metric)
      && (reason.InvalidDimension? ==>
            && reason.dimension in dimensions && reason.dimension !in md.dimensions
            && Message(reason) == "Invalid GA4 dimension: " + reason.dimension)
      && (reason.Incompatible? ==>
            && reason.metric in metrics
            && Contains(Message(reason), "'" + reason.metric + "'")
            && forall d :: d in dimensions && d in md.blockedDims[reason.metric] ==>
                 Contains(Message(reason), "'" + d + "'"))
  {
    var reason := Validate(md, metrics, dimensions).error.reason;
    if reason.Incompatible? {
      IncompatibleMessage(reason.metric, reason.clashing);
    }
  }

  /** The incompatibility message quotes the metric and each clashing
      dimension. */
  lemma IncompatibleMessage(m: string, ds: seq<string>)
    ensures Contains(Message(Incompatible(m, ds)), "'" + m + "'")
    ensures forall d :: d in ds ==> Contains(Message(Incompatible(m, ds)), "'" + d + "'")
  {
    QuotedWithin("Metric '", m, "' incompatible with dimensions [" + QuotedList(ds) + "]");
    assert Message(Incompatible(m, ds))
        == "Metric '" + m + ("' incompatible with dimensions [" + QuotedList(ds) + "]");
    forall d | d in ds
      ensures Contains(Message(Incompatible(m, ds)), "'" + d + "'")
    {
      ContainsWithin("Metric '" + m + "' incompatible with dimensions [", QuotedList(ds), "]", "'" + d + "'");
    }
  }

  /** Lines 102-123: every metric and every dimension must exist, and no
      metric may be blocked with a requested dimension; the first failure is
      reported. */
  function TableCheck(md: Metadata, metrics: seq<string>, dimensions: seq<string>): (r: Option<Reason>)
    ensures r.Some? ==> r.value.InvalidMetric? || r.value.InvalidDimension? || r.value.Incompatible?
    ensures (r.Some? && r.value.InvalidMetric?) <==> exists m :: m in metrics && m !in md.blockedDims
    ensures r.Some? && r.value.InvalidMetric? ==> FirstOutside(metrics, md.blockedDims.Keys, r.value.metric)
    ensures (r.Some? && r.value.InvalidDimension?) <==>
      (forall m :: m in metrics ==> m in md.blockedDims) && exists d :: d in dimensions && d !in md.dimensions
    ensures r.Some? && r.value.InvalidDimension? ==> FirstOutside(dimensions, md.dimensions, r.value.dimension)
    ensures (r.Some? && r.value.Incompatible?) <==>
      && (forall m :: m in metrics ==> m in md.blockedDims)
      && (forall d :: d in dimensions ==> d in md.dimensions)
      && exists m :: m in metrics && Blocks(md, m, dimensions)
    ensures r.Some? && r.value.Incompatible? ==>
      && (exists i :: 0 <= i < |metrics| && metrics[i] == r.value.metric && Blocks(md, metrics[i], dimensions)
            && forall j :: 0 <= j < i ==> !Blocks(md, metrics[j], dimensions))
      && (forall d :: d in r.value.clashing <==> d in dimensions && d in md.blockedDims[r.value.metric])
      && (forall i, j :: 0 <= i < j < |r.value.clashing| ==> r.value.clashing[i] != r.value.clashing[j])
  {
    match FirstWhere(metrics, (m: string) => m !in md.blockedDims)
    case Some(i) => Some(InvalidMetric(metrics[i]))
    case None =>
      match FirstWhere(dimensions, (d: string) => d !in md.dimensions)
      case Some(j) => Some(InvalidDimension(dimensions[j]))
      case None =>
        match FirstWhere(metrics, (m: string) => Blocks(md, m, dimensions))
        case Some(k) =>
          var m := metrics[k];
          Some(Incompatible(m, ClashingDims(md.blockedDims[m], dimensions, {})))
        case None => None
  }

  /** Lines 126-145: the session/event, user/item and ads guards, in that
      order. */
  function GuardCheck(metrics: seq<string>, dimensions: seq<string>): (r: Option<Reason>)
    ensures r == Some(SessionByEvent) <==> Meets(SessionMetrics, metrics) && Meets(EventDimensions, dimensions)
    ensures r == Some(UserByItem) <==>
      !(Meets(SessionMetrics, metrics) && Meets(EventDimensions, dimensions))
      && Meets(UserMetrics, metrics) && Meets(ItemDimensions, dimensions)
    ensures r == Some(AdsNotLinked) <==>
      && !(Meets(SessionMetrics, metrics) && Meets(EventDimensions, dimensions))
      && !(Meets(UserMetrics, metrics) && Meets(ItemDimensions, dimensions))
      && Meets(AdsMetrics, metrics)
    ensures r.None? <==>
      && !((exists m :: m in metrics && m in SessionMetrics) && (exists d :: d in dimensions && d in EventDimensions))
      && !((exists m :: m in metrics && m in UserMetrics) && (exists d :: d in dimensions && d in ItemDimensions))
      && (forall m :: m in metrics ==> m !in AdsMetrics)
  {
    MeetsCommonElement(SessionMetrics, metrics);
    MeetsCommonElement(EventDimensions, dimensions);
    MeetsCommonElement(UserMetrics, metrics);
    MeetsCommonElement(ItemDimensions, dimensions);
    MeetsCommonElement(AdsMetrics, metrics);
    if Meets(SessionMetrics, metrics) && Meets(EventDimensions, dimensions) then Some(SessionByEvent)
    else if Meets(UserMetrics, metrics) && Meets(ItemDimensions, dimensions) then Some(UserByItem)
    else if Meets(AdsMetrics, metrics) then Some(AdsNotLinked)
    else None
  }

  /** Validation of a whole candidate. */
  function Check(md: Metadata, c: Candidate): Verdict {
    Validate(md, c.metrics, c.dimensions)
  }

  // ----- the source as written -----

  /** What the code does when run: line 103 reads `metric_map`, a name that
      is never bound, so the first iteration of the metric loop raises
      `NameError`. With no metrics the loop body never runs and the rest of
      the checks behave as in `Validate`. */
  datatype RawVerdict = Returned | Raised(error: ValidationError) | NameError(name: string)

  function ValidateAsWritten(md: Metadata, metrics: seq<string>, dimensions: seq<string>): (r: RawVerdict)
    ensures |metrics| > 0 <==> r == NameError("metric_map")
    ensures |metrics| == 0 ==> (r == Returned <==> Validate(md, metrics, dimensions).Valid?)
    ensures |metrics| == 0 && Validate(md, metrics, dimensions).Invalid? ==>
      r == Raised(Validate(md, metrics, dimensions).error)
  {
    if |metrics| > 0 then NameError("metric_map")
    else match Validate(md, metrics, dimensions)
      case Valid => Returned
      case Invalid(e) => Raised(e)
  }

  /** The discrepancy on a concrete query: `sessions` by `date` against
      metadata that knows both and blocks nothing is valid, yet the code as
      written never reaches a verdict for it. */
  lemma AsWrittenRejectsValidQuery()
    ensures var md := Metadata(map["sessions" := {}], {"date"});
      && Validate(md, ["sessions"], ["date"]) == Valid
      && ValidateAsWritten(md, ["sessions"], ["date"]) == NameError("metric_map")
  {
    var md := Metadata(map["sessions" := {}], {"date"});
    assert Acceptable(md, ["sessions"], ["date"]);
  }

  // ----- examples of the session/event guard -----

  /** `sessions` by `eventName` fails the session/event guard when both names
      are known and nothing is blocked. */
  lemma SessionByEventExample()
    ensures Validate(Metadata(map["sessions" := {}], {"eventName", "date"}), ["sessions"], ["eventName"])
         == Invalid(ValidationError(SessionByEvent, ["sessions"], ["eventName"]))
  {
    var md := Metadata(map["sessions" := {}], {"eventName", "date"});
    var r := Validate(md, ["sessions"], ["eventName"]);
    assert "sessions" in SessionMetrics * ToSet(["sessions"]);
    assert "eventName" in EventDimensions * ToSet(["eventName"]);
    assert !Blocks(md, "sessions", ["eventName"]);
    assert r.Invalid? && r.error.reason.SessionByEvent?;
  }

  /** `sessions` by `date` passes when both names are known and nothing is
      blocked. */
  lemma SessionByDateExample()
    ensures Validate(Metadata(map["sessions" := {}], {"eventName", "date"}), ["sessions"], ["date"]) == Valid
  {
    var md := Metadata(map["sessions" := {}], {"eventName", "date"});
    assert Acceptable(md, ["sessions"], ["date"]);
  }

  // ----- validate_with_auto_repair -----

  /** The number of repairs a retry count allows (`retries <= 0` allows none). */
  function Budget(retries: int): nat {
    if retries <= 0 then 0 else retries
  }

  /** How a run of the loop ends: with the candidate that validated, with the
      last validation error re-raised, or with an exception from the repair
      step (a failed call, unparsable output, a missing key). */
  datatype LoopOutcome = Accepted(query: Candidate) | Rejected(error: ValidationError) | RepairFailed

  /** The outcome together with every candidate validated, in order, and the
      number of repair calls made. */
  datatype LoopRun = LoopRun(outcome: LoopOutcome, attempts: seq<Candidate>, repairCalls: nat)

  /** The loop of `validate_with_auto_repair` for any validator `check`:
      validate; on an error, give up when the retry count is used up,
      otherwise ask the repair oracle for a new candidate and start again with
      one retry fewer. */
  function RepairLoop(check: Candidate -> Verdict, c: Candidate, retries: int,
                      repair: ValidationError -> Option<Candidate>): (r: LoopRun)
    // the first candidate validated is the caller's
    ensures |r.attempts| >= 1 && r.attempts[0] == c
    // at most retries + 1 validations and retries repair calls
    ensures |r.attempts| <= Budget(retries) + 1
    ensures r.repairCalls <= Budget(retries)
    ensures r.repairCalls == if r.outcome.RepairFailed? then |r.attempts| else |r.attempts| - 1
    // each later candidate is what the oracle proposed for the previous error
    ensures forall i :: 0 <= i < |r.attempts| - 1 ==>
      check(r.attempts[i]).Invalid? && repair(check(r.attempts[i]).error) == Some(r.attempts[i + 1])
    // success returns exactly the candidate that validated
    ensures r.outcome.Accepted? <==> check(r.attempts[|r.attempts| - 1]).Valid?
    ensures r.outcome.Accepted? ==> r.outcome.query == r.attempts[|r.attempts| - 1]
    // exhaustion re-raises the last error unchanged, after the whole budget
    ensures r.outcome.Rejected? ==>
      check(r.attempts[|r.attempts| - 1]) == Invalid(r.outcome.error) && |r.attempts| == Budget(retries) + 1
    ensures r.outcome.RepairFailed? ==>
      check(r.attempts[|r.attempts| - 1]).Invalid? &&
      repair(check(r.attempts[|r.attempts| - 1]).error).None? && |r.attempts| <= Budget(retries)
    decreases Budget(retries)
  {
    match check(c)
    case Valid => LoopRun(Accepted(c), [c], 0)
    case Invalid(e) =>
      if retries <= 0 then LoopRun(Rejected(e), [c], 0)
      else match repair(e)
        case None => LoopRun(RepairFailed, [c], 1)
        case Some(next) =>
          var rest := RepairLoop(check, next, retries - 1, repair);
          LoopRun(rest.outcome, [c] + rest.attempts, rest.repairCalls + 1)
  }

  /** `validate_with_auto_repair` with `validate_ga4_query` against fixed
      metadata as the validator: an accepted query validates, a rejection
      carries the error of the last candidate tried once the budget is spent.
      The full behaviour is stated on `RepairLoop`. */
  function AutoRepair(md: Metadata, c: Candidate, retries: int, repair: ValidationError -> Option<Candidate>): (r: LoopRun)
    ensures |r.attempts| >= 1 && r.attempts[0] == c
    ensures |r.attempts| <= Budget(retries) + 1
    ensures r.outcome.Accepted? ==> Check(md, r.outcome.query) == Valid
    ensures r.outcome.Rejected? ==>
      Check(md, r.attempts[|r.attempts| - 1]) == Invalid(r.outcome.error) && |r.attempts| == Budget(retries) + 1
  {
    RepairLoop((x: Candidate) => Check(md, x), c, retries, repair)
  }

  /** The retry count a caller of `validate_with_auto_repair` gets when it
      passes none. */
  const DefaultRetries := 1

  /** With the default budget the loop validates at most twice and calls the
      oracle at most once; a rejection means both candidates failed. */
  lemma DefaultBudget(check: Candidate -> Verdict, c: Candidate, repair: ValidationError -> Option<Candidate>)
    ensures var r := RepairLoop(check, c, DefaultRetries, repair);
      && 1 <= |r.attempts| <= 2 && r.repairCalls <= 1
      && (r.outcome.Rejected? ==>
            && r.attempts == [c, repair(check(c).error).value]
            && check(c).Invalid? && check(r.attempts[1]) == Invalid(r.outcome.error))
  {
  }

  /** With no retries left the loop validates once, never calls the oracle,
      and re-raises the validator's own error. */
  lemma NoRetriesNoRepair(check: Candidate -> Verdict, c: Candidate, retries: int,
                          repair: ValidationError -> Option<Candidate>)
    requires retries <= 0
    ensures var r := RepairLoop(check, c, retries, repair);
      && r.repairCalls == 0 && r.attempts == [c]
      && (check(c).Invalid? ==> r.outcome == Rejected(check(c).error))
  {
  }

  /** A candidate the loop accepted is a fixed point: running the loop on it
      again, with any budget, accepts it at once with no repair. */
  lemma AcceptedIsFixedPoint(check: Candidate -> Verdict, c: Candidate, retries: int, again: int,
                             repair: ValidationError -> Option<Candidate>)
    requires RepairLoop(check, c, retries, repair).outcome.Accepted?
    ensures var q := RepairLoop(check, c, retries, repair).outcome.query;
      RepairLoop(check, q, again, repair) == LoopRun(Accepted(q), [q], 0)
  {
  }

  /** An oracle that keeps proposing the same invalid candidate uses up the
      whole budget: retries + 1 validations, retries calls, then the error. */
  lemma {:induction false} StuckOracleExhaustsBudget(check: Candidate -> Verdict, c: Candidate, retries: int,
                                                     repair: ValidationError -> Option<Candidate>)
    requires check(c).Invalid?
    requires forall e :: repair(e) == Some(c)
    ensures var r := RepairLoop(check, c, retries, repair);
      && r.outcome == Rejected(check(c).error)
      && |r.attempts| == Budget(retries) + 1
      && r.repairCalls == Budget(retries)
    decreases Budget(retries)
  {
    if retries > 0 {
      StuckOracleExhaustsBudget(check, c, retries - 1, repair);
    }
  }

  /** The repair step as the source has it: line 206 imports
      `safe_json_loads` from app/nl_parser.py, which defines no such name, so
      every repair call raises `ImportError`. */
  function SourceRepair(e: ValidationError): (r: Option<Candidate>)
    ensures r.None?
  {
    None
  }

  /** With the source's repair step an invalid query with retries left never
      gets a second validation: the loop ends in the repair exception. */
  lemma AsWrittenRepairNeverRevalidates(md: Metadata, c: Candidate, retries: int)
    requires Check(md, c).Invalid?
    requires retries > 0
    ensures AutoRepair(md, c, retries, SourceRepair) == LoopRun(RepairFailed, [c], 1)
  {
  }

  /** With an oracle that does answer, a repaired candidate is validated
      again: one invalid query and one good proposal end in acceptance of the
      proposal after exactly one repair call. */
  lemma RepairedCandidateIsRevalidated(md: Metadata, c: Candidate, fixed: Candidate, retries: int,
                                       repair: ValidationError -> Option<Candidate>)
    requires Check(md, c).Invalid?
    requires retries > 0
    requires repair(Check(md, c).error) == Some(fixed)
    requires Check(md, fixed).Valid?
    ensures AutoRepair(md, c, retries, repair) == LoopRun(Accepted(fixed), [c, fixed], 1)
  {
  }
}
