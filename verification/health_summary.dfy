/** The technical-SEO health grade (seo_app/summarizer.py). */
module HealthSummary {

  datatype Grade = Good | Average | Poor {
    /** The sentence the agent reports. */
    function Text(): string {
      match this
      case Good => "Good technical SEO health"
      case Average => "Average technical SEO health"
      case Poor => "Poor technical SEO health"
    }

    /** Position in the order Poor < Average < Good. */
    function Rank(): nat {
      match this
      case Poor => 0
      case Average => 1
      case Good => 2
    }
  }

  /** `seo_health_assessment`: above 90 is good, above 70 average, and
      anything else poor. */
  function Assess(percent: real): (g: Grade)
    ensures g == Good <==> percent > 90.0
    ensures g == Average <==> 70.0 < percent <= 90.0
    ensures g == Poor <==> percent <= 70.0
  {
    if percent > 90.0 then Good
    else if percent > 70.0 then Average
    else Poor
  }

  /** The sentence reported for a percentage names the grade its band
      earns. */
  lemma AssessmentText(percent: real)
    ensures Assess(percent).Text() == "Good technical SEO health" <==> percent > 90.0
    ensures Assess(percent).Text() == "Average technical SEO health" <==> 70.0 < percent <= 90.0
    ensures Assess(percent).Text() == "Poor technical SEO health" <==> percent <= 70.0
  {
    assert "Good technical SEO health"[0] != "Average technical SEO health"[0];
    assert "Good technical SEO health"[0] != "Poor technical SEO health"[0];
    assert "Average technical SEO health"[0] != "Poor technical SEO health"[0];
  }

  /** A higher percentage never gets a worse grade. */
  lemma AssessMonotone(p: real, q: real)
    requires p <= q
    ensures Assess(p).Rank() <= Assess(q).Rank()
  {
  }

  /** The boundaries belong to the lower grade: exactly 90 is average and
      exactly 70 is poor. */
  lemma BoundariesBelowCut()
    ensures Assess(90.0) == Average && Assess(70.0) == Poor
  {
  }
}
