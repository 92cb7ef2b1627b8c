/** Another update after a failed one, from the same prior: what it keeps and where it ends. */
module TrailCourses {
  import opened Options
  import opened TrailSelectors
  import opened TrailCoverage
  import opened TrailStaging
  import opened TrailRuns

  /** What attempts at one update leave. */
  ghost function Left(
    before: TrailState, tried: TrailResource, prior: TrailResource, cuts: seq<nat>): TrailState
  {
    before.ApplyAll(Attempts(UpdatePlan(tried, prior), cuts))
  }

  /** What an update does not send is still as it was before the attempts. */
  ghost predicate NothingMissed(
    before: TrailState, left: TrailState, r: TrailResource, prior: TrailResource)
  {
    && (SelectorsChanged(r, prior) || left.selectors == before.selectors)
    && (InsightsChanged(r, prior) || left.insights == before.insights)
  }

  /**
   * Any attempts at an update, all cut short, then another update from the same prior. Every call
   * is safe exactly when the attempts were and the other update is from what they left; the
   * first holds if the tried configuration covers its own insights. The trail ends up as if there
   * had been no attempts exactly when these touched nothing that the other update does not send.
   */
  lemma {:induction false} ChangingCourse(
    before: TrailState, tried: TrailResource, cuts: seq<nat>, other: TrailResource,
    prior: TrailResource)
    requires Tracks(before, prior) && before.Compatible()
    ensures var left := Left(before, tried, prior, cuts);
            var attempts, plan := Attempts(UpdatePlan(tried, prior), cuts), UpdatePlan(other, prior);
            && (SupportsAll(Reckoned(Written(tried, prior)), tried.Insights()) ==>
                  AllSafe(before, attempts))
            && (AllSafe(before, attempts + plan)
                <==> AllSafe(before, attempts) && CourseIsSafe(left, other, prior))
            && (before.ApplyAll(attempts + plan) == before.ApplyAll(plan)
                <==> NothingMissed(before, left, other, prior))
  {
    var left := Left(before, tried, prior, cuts);
    var attempts, plan := Attempts(UpdatePlan(tried, prior), cuts), UpdatePlan(other, prior);
    if SupportsAll(Reckoned(Written(tried, prior)), tried.Insights()) {
      EveryCallKeepsInsightsSupported(before, tried, prior);
      var stage := AttemptsStayOnStage(before, tried, prior, cuts);
    }
    SafeConcat(before, attempts, plan);
    ApplyConcat(before, attempts, plan);
    if AllSafe(before, attempts) { EndIsSafe(before, attempts); }
    UpdateFromAnyState(left, other, prior);
    UpdateFromAnyState(before, other, prior);
  }

  // ---------- two courses that lose support ----------

  lemma OneStandardSelector(s: EventSelector)
    ensures Reckoned(Standard(WrittenStandard([s]))) == SelectorCoverage(s)
  {
    StandardCoverageIsExact([s]);
    assert [s][..0] == [];
  }

  const READING := TrailResource(Some([EventSelector(None, None, None, Some("ReadOnly"))]), None, None)

  /**
   * The attempt replaced the selectors, which the other update takes for unchanged: a trail with
   * the default selectors is to record reads only, and then to keep the default and alert.
   */
  lemma {:induction false} UnchangedSelectorsWereReplaced()
    ensures Acceptable(NO_SELECTORS) && Acceptable(READING) && Acceptable(ALERTING)
    ensures Tracks(CREATED, NO_SELECTORS) && CREATED.Compatible()
    ensures !CourseIsSafe(Left(CREATED, READING, NO_SELECTORS, [1]), ALERTING, NO_SELECTORS)
  {
    AlertingIsAcceptable();
    OneStandardSelector(READING.eventSelectors.value[0]);
    var plan := UpdatePlan(READING, NO_SELECTORS);
    assert plan == [PutEventSelectors(Written(READING, NO_SELECTORS))];
    OneAttempt(CREATED, plan, 1);
    AlertNeedsWrites(Reckoned(Initial(READING)));
  }

  /** One attempt, cut short after its first call or completed by it. */
  lemma OneAttempt(before: TrailState, plan: seq<TrailCall>, n: nat)
    requires 0 < |plan| <= 3 && n == 1
    ensures before.ApplyAll(Attempts(plan, [n])) == before.Apply(plan[0])
  {
    Stages(before, plan);
    assert [n][..0] == [];
    assert Attempts(plan, [n]) == [] + Cut(plan, n) == plan[..1];
  }

  const OBJECTS := DataResource("AWS::S3::Object", Some(["arn:aws:s3"]))
  const DATA_ALERT := InsightSelector("ApiErrorRateInsight", Some(["Data"]))
  const BOTH := TrailResource(
    Some([EventSelector(Some([OBJECTS]), None, None, None)]), None, Some([DATA_ALERT]))
  const MANAGED := TrailResource(
    Some([EventSelector(None, None, None, None)]), None, Some([ALERT]))
  const DATA_ONLY := TrailResource(
    Some([EventSelector(Some([OBJECTS]), None, Some(false), None)]), None, Some([DATA_ALERT]))

  lemma DataAlertNeedsData(c: Coverage)
    ensures SupportsAll(c, [DATA_ALERT]) <==> c.data
  {
    assert DATA_ALERT in [DATA_ALERT] && "Data" in DATA_ALERT.eventCategories.GetOr(["Management"]);
  }

  lemma CoverageOfTheThree()
    ensures Reckoned(Initial(BOTH)) == Coverage(true, true, true)
    ensures Reckoned(Initial(MANAGED)) == Coverage(true, true, false)
    ensures Reckoned(Initial(DATA_ONLY)) == Coverage(false, false, true)
  {
    assert HasDataValues([OBJECTS]) by { assert |[OBJECTS][0].values.GetOr([])| > 0; }
    OneStandardSelector(BOTH.eventSelectors.value[0]);
    OneStandardSelector(MANAGED.eventSelectors.value[0]);
    OneStandardSelector(DATA_ONLY.eventSelectors.value[0]);
  }

  /**
   * The attempt replaced the insights, which the other update takes for unchanged: from both
   * kinds of event and a data insight to management events and their insight, cut short after
   * its first call, and then to data events with the prior insight.
   */
  lemma {:induction false} UnchangedInsightsWereReplaced()
    ensures Acceptable(BOTH) && Acceptable(MANAGED) && Acceptable(DATA_ONLY)
    ensures var before := TrailState(Initial(BOTH), BOTH.Insights());
            && Tracks(before, BOTH) && before.Compatible()
            && Left(before, MANAGED, BOTH, [1]).selectors == before.selectors
            && !CourseIsSafe(Left(before, MANAGED, BOTH, [1]), DATA_ONLY, BOTH)
  {
    var before := TrailState(Initial(BOTH), BOTH.Insights());
    TheThreeAreAcceptable();
    CoverageOfTheThree();
    AfterTheAttempt();
    AlertNeedsWrites(Reckoned(Initial(DATA_ONLY)));
  }

  lemma AfterTheAttempt()
    ensures Left(TrailState(Initial(BOTH), BOTH.Insights()), MANAGED, BOTH, [1])
            == TrailState(Initial(BOTH), [ALERT])
  {
    PlanOfTheAttempt();
    OneAttempt(TrailState(Initial(BOTH), BOTH.Insights()), UpdatePlan(MANAGED, BOTH), 1);
  }

  lemma TheThreeAreAcceptable()
    ensures Acceptable(BOTH) && Acceptable(MANAGED) && Acceptable(DATA_ONLY)
  {
    CoverageOfTheThree();
    AlertNeedsWrites(Reckoned(Initial(MANAGED)));
    DataAlertNeedsData(Reckoned(Initial(BOTH)));
    DataAlertNeedsData(Reckoned(Initial(DATA_ONLY)));
  }

  lemma PlanOfTheAttempt()
    ensures UpdatePlan(MANAGED, BOTH)
            == [PutInsightSelectors([ALERT]), PutEventSelectors(Written(MANAGED, BOTH))]
  {
    CoverageOfTheThree();
    AlertNeedsWrites(Reckoned(Initial(BOTH)));
    DataAlertNeedsData(Reckoned(Initial(MANAGED)));
  }
}
