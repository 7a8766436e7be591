/** The deterministic, rule-based branch of `parse_query`
    (app/nl_parser.py:80-103): keyword lookup of metrics, `last N days`, and
    a `/word` page path. The clock is a parameter: `today` is a day number. */
module RuleParser {
  import opened Outcomes
  import opened Lists
  import opened Text
  import FieldValidator

  /** `METRIC_MAP`, in the dict's insertion order. */
  const MetricMap: seq<(string, string)> := [
    ("page views", "screenPageViews"),
    ("pageviews", "screenPageViews"),
    ("users", "totalUsers"),
    ("sessions", "sessions")
  ]

  /** `DIMENSIONS`. */
  const Dimensions: seq<string> := ["date"]

  const DefaultDays: nat := 7

  const NoMetricsMessage: string := "No valid GA4 metrics found in query"

  /** What the rules branch returns; dates are day numbers, not ISO text. */
  datatype Parsed = Parsed(
    metrics: seq<string>,
    dimensions: seq<string>,
    startDay: int,
    endDay: int,
    pagePath: Option<string>,
    dateRange: string,
    parser: string)

  // ----- keyword lookup -----

  /** The test of one table entry: its key occurs in `q`. */
  function KeyIn(q: string): ((string, string)) -> bool {
    (e: (string, string)) => Contains(q, e.0)
  }

  /** `[v for k, v in table if k in q]`: the values of the matched entries,
      in table order, one per matched key (a value reached by two keys is
      listed twice). */
  function MatchMetrics(q: string, table: seq<(string, string)>): (r: seq<string>)
    ensures |r| == |Where(table, KeyIn(q))|
    ensures forall k :: 0 <= k < |r| ==> r[k] == table[Where(table, KeyIn(q))[k]].1
    ensures forall v :: v in r <==> exists e :: e in table && e.1 == v && Contains(q, e.0)
  {
    MapWhere(table, KeyIn(q), (e: (string, string)) => e.1)
  }

  // ----- the two regular expressions -----

  /** The patterns searched for: `last (\d+) days` and `/(\w+)`. */
  datatype Pattern = LastNDays | SlashWord

  /** The text of group 1 when the pattern matches at exactly index `i`.
      Both groups are greedy runs; for `last (\d+) days` backtracking into the
      digits cannot help, because a shorter run is followed by a digit and not
      by the space the pattern needs. */
  function MatchAt(p: Pattern, q: string, i: nat): (g: Option<string>)
    requires i <= |q|
    ensures g.Some? ==> |g.value| >= 1
  {
    match p
    case LastNDays =>
      if OccursAt(q, "last ", i) then
        var j := RunEnd(q, i + 5, Digits);
        if j > i + 5 && OccursAt(q, " days", j) then Some(q[i + 5..j]) else None
      else None
    case SlashWord =>
      if i < |q| && q[i] == '/' then
        var j := RunEnd(q, i + 1, WordChars);
        if j > i + 1 then Some(q[i + 1..j]) else None
      else None
  }

  /** `re.search(p, q)` from index `from` on: the match at the leftmost index. */
  function Search(p: Pattern, q: string, from: nat): (g: Option<string>)
    requires from <= |q|
    ensures g.Some? ==> exists i :: from <= i <= |q| && MatchAt(p, q, i) == g &&
                          forall j :: from <= j < i ==> MatchAt(p, q, j).None?
    ensures g.None? ==> forall j :: from <= j <= |q| ==> MatchAt(p, q, j).None?
    decreases |q| - from
  {
    var here := MatchAt(p, q, from);
    if here.Some? then here
    else if from == |q| then None
    else
      var g := Search(p, q, from + 1);
      assert forall j :: from <= j < from + 1 ==> MatchAt(p, q, j) == here;
      g
  }

  /** `i` is where `re.search` finds pattern `p` in `q`: a match starts there
      and at no earlier index. */
  predicate Leftmost(p: Pattern, q: string, i: int) {
    && 0 <= i <= |q| && MatchAt(p, q, i).Some?
    && forall j :: 0 <= j < i ==> MatchAt(p, q, j).None?
  }

  /** The leftmost match is the one the search returns. */
  lemma LeftmostIsSearch(p: Pattern, q: string, i: int)
    requires Leftmost(p, q, i)
    ensures Search(p, q, 0) == MatchAt(p, q, i)
  {
    var g := Search(p, q, 0);
    assert g.Some?;
    var i' :| 0 <= i' <= |q| && MatchAt(p, q, i') == g && forall j :: 0 <= j < i' ==> MatchAt(p, q, j).None?;
    assert i' == i;
  }

  /** The group of a `last N days` match is all digits. */
  lemma DaysGroupIsDigits(q: string, i: nat)
    requires i <= |q| && MatchAt(LastNDays, q, i).Some?
    ensures AllDigits(MatchAt(LastNDays, q, i).value)
  {
  }

  /** `int(days_match.group(1)) if days_match else 7`: the number of the
      leftmost `last N days` phrase, or seven when there is none. */
  function DaysOf(q: string): (r: nat)
    ensures (forall i :: 0 <= i <= |q| ==> MatchAt(LastNDays, q, i).None?) ==> r == DefaultDays
    ensures forall i :: Leftmost(LastNDays, q, i) ==>
      AllDigits(MatchAt(LastNDays, q, i).value) && r == DigitsValue(MatchAt(LastNDays, q, i).value)
  {
    assert forall i :: Leftmost(LastNDays, q, i) ==> Search(LastNDays, q, 0) == MatchAt(LastNDays, q, i) by {
      forall i | Leftmost(LastNDays, q, i) ensures Search(LastNDays, q, 0) == MatchAt(LastNDays, q, i) {
        LeftmostIsSearch(LastNDays, q, i);
      }
    }
    match Search(LastNDays, q, 0)
    case None => DefaultDays
    case Some(g) =>
      var i :| 0 <= i <= |q| && MatchAt(LastNDays, q, i) == Some(g);
      DaysGroupIsDigits(q, i);
      DigitsValue(g)
  }

  /** `f"/{page_match.group(1)}" if page_match else None`: the slash and
      word of the leftmost `/word`, or nothing when the text has none. */
  function PagePathOf(q: string): (r: Option<string>)
    ensures r.None? <==> forall i :: 0 <= i <= |q| ==> MatchAt(SlashWord, q, i).None?
    ensures forall i :: Leftmost(SlashWord, q, i) ==> r == Some("/" + MatchAt(SlashWord, q, i).value)
  {
    assert forall i :: Leftmost(SlashWord, q, i) ==> Search(SlashWord, q, 0) == MatchAt(SlashWord, q, i) by {
      forall i | Leftmost(SlashWord, q, i) ensures Search(SlashWord, q, 0) == MatchAt(SlashWord, q, i) {
        LeftmostIsSearch(SlashWord, q, i);
      }
    }
    match Search(SlashWord, q, 0)
    case None => None
    case Some(w) => Some("/" + w)
  }

  /** `f"last {days} days"`. */
  function DateRangeText(days: nat): string {
    "last " + NatToDigits(days) + " days"
  }

  // ----- parse_query, rules branch -----

  /** The rules branch of `parse_query`: lowercase the query, then parse
      the lowercase text. */
  function ParseRules(query: string, today: int): (r: Result<Parsed, string>)
    ensures r.Failure? <==> forall e :: e in MetricMap ==> !Contains(Lower(query), e.0)
    ensures r.Failure? ==> r.error == NoMetricsMessage
    ensures r.Success? ==>
      && 1 <= |r.value.metrics| <= 4
      && (forall m :: m in r.value.metrics <==>
            exists e :: e in MetricMap && e.1 == m && Contains(Lower(query), e.0))
      && r.value.metrics == MatchMetrics(Lower(query), MetricMap)
      && r.value.dimensions == ["date"]
      && r.value.parser == "rules"
      && r.value.endDay == today
      && r.value.startDay == today - DaysOf(Lower(query))
      && r.value.dateRange == DateRangeText(DaysOf(Lower(query)))
      && r.value.pagePath == PagePathOf(Lower(query))
  {
    ParseLowered(Lower(query), today)
  }

  /** The rest of the rules branch on the lowercased text `q`: look metrics
      up by substring, raise when none matched, else read the day count
      (default 7) and the page path. */
  function ParseLowered(q: string, today: int): (r: Result<Parsed, string>)
    ensures r.Failure? <==> forall e :: e in MetricMap ==> !Contains(q, e.0)
    ensures r.Failure? ==> r.error == NoMetricsMessage
    ensures r.Success? ==>
      && 1 <= |r.value.metrics| <= 4
      && (forall m :: m in r.value.metrics <==> exists e :: e in MetricMap && e.1 == m && Contains(q, e.0))
      && r.value.metrics == MatchMetrics(q, MetricMap)
      && r.value.dimensions == ["date"]
      && r.value.parser == "rules"
      && r.value.endDay == today
      && r.value.startDay == today - DaysOf(q)
      && r.value.dateRange == DateRangeText(DaysOf(q))
      && r.value.pagePath == PagePathOf(q)
  {
    var metrics := MatchMetrics(q, MetricMap);
    if metrics == [] then
      assert forall e :: e in MetricMap ==> e.1 !in metrics;
      Failure(NoMetricsMessage)
    else
      assert metrics[0] in metrics;
      var days := DaysOf(q);
      Success(Parsed(metrics, Dimensions, today - days, today, PagePathOf(q), DateRangeText(days), "rules"))
  }

  // ----- properties -----

  /** Every metric the rules find is one of the three the table can yield. */
  lemma MetricsFromTable(query: string, today: int)
    requires ParseRules(query, today).Success?
    ensures forall m :: m in ParseRules(query, today).value.metrics ==>
      m in {"screenPageViews", "totalUsers", "sessions"}
  {
    TableValues(Lower(query));
  }

  /** The values the keyword lookup can yield on the metric table. */
  lemma TableValues(q: string)
    ensures forall m :: m in MatchMetrics(q, MetricMap) ==> m in {"screenPageViews", "totalUsers", "sessions"}
  {
    var idx := Where(MetricMap, KeyIn(q));
    var metrics := MatchMetrics(q, MetricMap);
    forall k | 0 <= k < |metrics|
      ensures metrics[k] in {"screenPageViews", "totalUsers", "sessions"}
    {
      assert metrics[k] == MetricMap[idx[k]].1 && idx[k] < 4;
    }
  }

  /** The output of the rules branch always passes `validate_fields`: its
      metrics come from the table and its only dimension is `date`. */
  lemma RulesOutputPassesFieldCheck(query: string, today: int)
    requires ParseRules(query, today).Success?
    ensures var p := ParseRules(query, today).value;
      FieldValidator.ValidateFields(p.metrics, p.dimensions) == FieldValidator.Accepted
  {
    MetricsFromTable(query, today);
  }

  /** Matching is case-insensitive: the query and its lowercase form parse
      identically. */
  lemma CaseInsensitive(query: string, today: int)
    ensures ParseRules(query, today) == ParseRules(Lower(query), today)
  {
    LowerFacts(query);
  }

  /** The `dateRange` text reads back as the day count: searching it for
      `last N days` finds the printed number. */
  lemma {:induction false} DateRangeReadsBack(days: nat)
    ensures DaysOf(DateRangeText(days)) == days
  {
    var ds := NatToDigits(days);
    var t := DateRangeText(days);
    assert OccursAt(t, "last ", 0) by { assert t[0..5] == "last "; }
    forall k | 5 <= k < 5 + |ds|
      ensures InClass(t[k], Digits)
    {
      assert t[k] == ds[k - 5];
    }
    assert !InClass(t[5 + |ds|], Digits) by { assert t[5 + |ds|] == ' '; }
    RunEndExact(t, 5, 5 + |ds|, Digits);
    assert OccursAt(t, " days", 5 + |ds|) by { assert t[5 + |ds|..5 + |ds| + 5] == " days"; }
    assert t[5..5 + |ds|] == ds;
    assert MatchAt(LastNDays, t, 0) == Some(ds);
    assert Search(LastNDays, t, 0) == Some(ds);
    DigitsRoundTrip(days);
  }

  /** Text with no `last N days` phrase covers the default seven days. */
  lemma DefaultSevenDays(q: string)
    requires Search(LastNDays, q, 0).None?
    ensures DaysOf(q) == 7 && DateRangeText(DaysOf(q)) == "last 7 days"
  {
    assert NatToDigits(7) == "7";
  }

  /** A page path is a `/` and the maximal run of word characters after it,
      taken at the leftmost `/` that a word character follows. */
  lemma PagePathShape(q: string) returns (i: nat)
    requires PagePathOf(q).Some?
    ensures var p := PagePathOf(q).value;
      && |p| >= 2 && p[0] == '/'
      && (forall k :: 1 <= k < |p| ==> IsWordChar(p[k]))
      && Leftmost(SlashWord, q, i) && OccursAt(q, p, i) && (i + |p| == |q| || !IsWordChar(q[i + |p|]))
  {
    i := LeftmostSlash(q);
    SlashWordMatch(q, i, PagePathOf(q).value);
  }

  /** Where the page path was found. */
  lemma LeftmostSlash(q: string) returns (i: nat)
    requires PagePathOf(q).Some?
    ensures Leftmost(SlashWord, q, i) && PagePathOf(q).value == "/" + MatchAt(SlashWord, q, i).value
  {
    var w := Search(SlashWord, q, 0).value;
    i :| 0 <= i <= |q| && MatchAt(SlashWord, q, i) == Some(w)
         && forall j :: 0 <= j < i ==> MatchAt(SlashWord, q, j).None?;
  }

  /** A `/(\w+)` match at `i` is the slash and the maximal word run after it. */
  lemma SlashWordMatch(q: string, i: nat, p: string)
    requires i <= |q| && MatchAt(SlashWord, q, i).Some?
    requires p == "/" + MatchAt(SlashWord, q, i).value
    ensures
      && |p| >= 2 && p[0] == '/'
      && (forall k :: 1 <= k < |p| ==> IsWordChar(p[k]))
      && OccursAt(q, p, i) && (i + |p| == |q| || !IsWordChar(q[i + |p|]))
  {
    var j := RunEnd(q, i + 1, WordChars);
    assert q[i..j] == p;
    forall k | 1 <= k < |p| ensures IsWordChar(p[k]) {
      assert p[k] == q[i + k];
    }
  }

  /** Both page-view keys can match, so `screenPageViews` may be listed twice:
      a text holding every key yields all four table values, in table order
      (`AllKeysOccur` gives such a text). */
  lemma ScreenPageViewsTwice(q: string)
    requires Contains(q, "page views") && Contains(q, "pageviews") && Contains(q, "users") && Contains(q, "sessions")
    ensures MatchMetrics(q, MetricMap) == ["screenPageViews", "screenPageViews", "totalUsers", "sessions"]
  {
    var t := MetricMap;
    assert forall i :: 0 <= i < |t| ==> KeyIn(q)(t[i]);
    WhereAll(t, KeyIn(q));
  }

  /** Each key of the table occurs in the example text. */
  lemma AllKeysOccur(q: string)
    requires q == "page views" + " " + "pageviews" + " " + "users" + " " + "sessions"
    ensures Contains(q, "page views") && Contains(q, "pageviews") && Contains(q, "users") && Contains(q, "sessions")
  {
    assert OccursAt(q, "page views", 0);
    assert OccursAt(q, "pageviews", 11);
    assert OccursAt(q, "users", 21);
    assert OccursAt(q, "sessions", 27);
  }
}
