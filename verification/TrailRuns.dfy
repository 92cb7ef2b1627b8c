/** Updates cut short and completed, over whole runs: when the selectors support the insights. */
module TrailRuns {
  import opened Options
  import opened TrailSelectors
  import opened TrailCoverage
  import opened TrailStaging

  // ---------- calls ----------

  /** After every single call the trail's selectors support its insights. */
  ghost predicate AllSafe(state: TrailState, calls: seq<TrailCall>) {
    forall k :: 0 <= k <= |calls| ==> state.ApplyAll(calls[..k]).Compatible()
  }

  lemma ApplyStep(before: TrailState, calls: seq<TrailCall>, k: nat)
    requires k < |calls|
    ensures before.ApplyAll(calls[..k + 1]) == before.ApplyAll(calls[..k]).Apply(calls[k])
  {
    assert calls[..k + 1][..k] == calls[..k];
  }

  lemma {:induction false} ApplyConcat(before: TrailState, a: seq<TrailCall>, b: seq<TrailCall>)
    ensures before.ApplyAll(a + b) == before.ApplyAll(a).ApplyAll(b)
  {
    if b == [] {
      assert a + b == a;
    } else {
      ApplyConcat(before, a, b[..|b| - 1]);
      assert (a + b)[..|a + b| - 1] == a + b[..|b| - 1];
    }
  }

  /** The whole list of calls is the longest of its beginnings. */
  lemma ApplyAllOf(before: TrailState, calls: seq<TrailCall>)
    ensures before.ApplyAll(calls[..|calls|]) == before.ApplyAll(calls)
    ensures before.ApplyAll(calls[..0]) == before
  {
    assert calls[..|calls|] == calls;
  }

  /** The states along a short list of calls. */
  lemma Stages(before: TrailState, plan: seq<TrailCall>)
    requires |plan| <= 3
    ensures before.ApplyAll(plan[..0]) == before
    ensures |plan| > 0 ==> before.ApplyAll(plan[..1]) == before.Apply(plan[0])
    ensures |plan| > 1 ==> before.ApplyAll(plan[..2]) == before.Apply(plan[0]).Apply(plan[1])
    ensures |plan| > 2 ==>
              before.ApplyAll(plan[..3]) == before.Apply(plan[0]).Apply(plan[1]).Apply(plan[2])
    ensures before.ApplyAll(plan[..|plan|]) == before.ApplyAll(plan)
  {
    ApplyAllOf(before, plan);
    if |plan| > 0 { ApplyStep(before, plan, 0); }
    if |plan| > 1 { ApplyStep(before, plan, 1); }
    if |plan| > 2 { ApplyStep(before, plan, 2); }
  }

  /** The states along two lists of calls, one after the other. */
  lemma StatesOfConcat(state: TrailState, a: seq<TrailCall>, b: seq<TrailCall>, k: nat)
    requires k <= |a + b|
    ensures k <= |a| ==> state.ApplyAll((a + b)[..k]) == state.ApplyAll(a[..k])
    ensures k >= |a| ==>
              state.ApplyAll((a + b)[..k]) == state.ApplyAll(a).ApplyAll(b[..k - |a|])
  {
    if k <= |a| { assert (a + b)[..k] == a[..k]; }
    if k >= |a| {
      assert (a + b)[..k] == a + b[..k - |a|];
      ApplyConcat(state, a, b[..k - |a|]);
    }
  }

  lemma SafeConcat(state: TrailState, a: seq<TrailCall>, b: seq<TrailCall>)
    ensures AllSafe(state, a + b) <==> AllSafe(state, a) && AllSafe(state.ApplyAll(a), b)
  {
    if AllSafe(state, a + b) { SafeParts(state, a, b); }
    if AllSafe(state, a) && AllSafe(state.ApplyAll(a), b) {
      forall k | 0 <= k <= |a + b| ensures state.ApplyAll((a + b)[..k]).Compatible() {
        StatesOfConcat(state, a, b, k);
      }
    }
  }

  lemma SafeParts(state: TrailState, a: seq<TrailCall>, b: seq<TrailCall>)
    requires AllSafe(state, a + b)
    ensures AllSafe(state, a) && AllSafe(state.ApplyAll(a), b)
  {
    forall k | 0 <= k <= |a| ensures state.ApplyAll(a[..k]).Compatible() {
      StatesOfConcat(state, a, b, k);
    }
    forall k | 0 <= k <= |b| ensures state.ApplyAll(a).ApplyAll(b[..k]).Compatible() {
      StatesOfConcat(state, a, b, |a| + k);
    }
  }

  // ---------- one update ----------

  /** The trail has the coverage the update will assume of it, and runs the prior insights. */
  ghost predicate Tracks(state: TrailState, prior: TrailResource) {
    Reckoned(state.selectors) == Reckoned(Initial(prior)) && state.insights == prior.Insights()
  }

  /**
   * When the calls of an update to r keep the trail of a state safe, whatever state its prior
   * configuration describes: the list each call puts in place, or leaves there, must support the
   * insights beside it.
   */
  ghost predicate CourseIsSafe(state: TrailState, r: TrailResource, prior: TrailResource) {
    var written, place := Reckoned(Written(r, prior)), Reckoned(state.selectors);
    if !SelectorsChanged(r, prior) then
      InsightsChanged(r, prior) ==> SupportsAll(place, r.Insights())
    else if !InsightsChanged(r, prior) then SupportsAll(written, state.insights)
    else
      && SupportsAll(written, r.Insights())
      && if SupportsAll(written, prior.Insights()) then SupportsAll(written, state.insights)
         else SupportsAll(Reckoned(Initial(prior)), r.Insights()) ==>
                SupportsAll(place, r.Insights())
  }

  /** From any state at all: every call is safe exactly on that condition, and what is left. */
  lemma {:induction false} UpdateFromAnyState(
    state: TrailState, r: TrailResource, prior: TrailResource)
    ensures AllSafe(state, UpdatePlan(r, prior))
            <==> state.Compatible() && CourseIsSafe(state, r, prior)
    ensures state.ApplyAll(UpdatePlan(r, prior))
            == TrailState(if SelectorsChanged(r, prior) then Written(r, prior) else state.selectors,
                          if InsightsChanged(r, prior) then r.Insights() else state.insights)
  {
    var plan := UpdatePlan(r, prior);
    if SelectorsChanged(r, prior) && InsightsChanged(r, prior) {
      StagingFromAnyState(state, r, prior);
    } else {
      Stages(state, plan);
      SafeStages(state, plan);
    }
  }

  lemma {:induction false} StagingFromAnyState(
    state: TrailState, r: TrailResource, prior: TrailResource)
    requires SelectorsChanged(r, prior) && InsightsChanged(r, prior)
    ensures AllSafe(state, StagingPlan(r, prior))
            <==> state.Compatible() && CourseIsSafe(state, r, prior)
    ensures state.ApplyAll(StagingPlan(r, prior)) == TrailState(Written(r, prior), r.Insights())
  {
    var plan := StagingPlan(r, prior);
    Stages(state, plan);
    SafeStages(state, plan);
    var one := state.Apply(plan[0]);
    var two := one.Apply(plan[1]);
    if |plan| == 3 {
      assert one == TrailState(state.selectors, []) && two == TrailState(Written(r, prior), []);
    }
  }

  /** A short plan is safe when each of its states is. */
  lemma SafeStages(state: TrailState, plan: seq<TrailCall>)
    requires |plan| <= 3
    ensures AllSafe(state, plan)
            <==> && state.Compatible()
                 && (|plan| > 0 ==> state.Apply(plan[0]).Compatible())
                 && (|plan| > 1 ==> state.Apply(plan[0]).Apply(plan[1]).Compatible())
                 && (|plan| > 2 ==>
                       state.Apply(plan[0]).Apply(plan[1]).Apply(plan[2]).Compatible())
  {
    Stages(state, plan);
    if AllSafe(state, plan) {
      assert state.ApplyAll(plan[..0]).Compatible();
      if |plan| > 0 { assert state.ApplyAll(plan[..1]).Compatible(); }
      if |plan| > 1 { assert state.ApplyAll(plan[..2]).Compatible(); }
      if |plan| > 2 { assert state.ApplyAll(plan[..3]).Compatible(); }
    }
  }

  /** Wherever the plan is cut short, the trail's selectors support the insights it runs. */
  lemma {:induction false} EveryCallKeepsInsightsSupported(
    before: TrailState, r: TrailResource, prior: TrailResource)
    requires Tracks(before, prior) && before.Compatible()
    requires SupportsAll(Reckoned(Written(r, prior)), r.Insights())
    ensures AllSafe(before, UpdatePlan(r, prior))
  {
    UpdateFromAnyState(before, r, prior);
  }

  /** A completed update leaves the desired insights, and the desired selectors if they changed. */
  lemma {:induction false} CompletedUpdateIsDesired(
    before: TrailState, r: TrailResource, prior: TrailResource)
    requires before.insights == prior.Insights()
    ensures before.ApplyAll(UpdatePlan(r, prior))
            == TrailState(if SelectorsChanged(r, prior) then Written(r, prior) else before.selectors,
                          r.Insights())
    ensures Tracks(before, prior) ==>
              (Tracks(before.ApplyAll(UpdatePlan(r, prior)), r) <==> !DropsAdvanced(r, prior))
  {
    PredictionStaysTrueUnlessDropped(r, prior);
    UpdateFromAnyState(before, r, prior);
  }

  /** A create starts from the default list and no insights. */
  lemma CreateIsSafe(r: TrailResource)
    requires r.Valid()
    ensures AllSafe(CREATED, CreatePlan(r)) <==> SupportsAll(Reckoned(Initial(r)), r.Insights())
    ensures CREATED.ApplyAll(CreatePlan(r)) == TrailState(Initial(r), r.Insights())
  {
    Stages(CREATED, CreatePlan(r));
    SafeStages(CREATED, CreatePlan(r));
  }

  // ---------- an update that is cut short and made again ----------

  function Cut(plan: seq<TrailCall>, n: nat): seq<TrailCall> {
    if n < |plan| then plan[..n] else plan
  }

  /** The accepted calls of one attempt after another, each cut short after so many. */
  function Attempts(plan: seq<TrailCall>, cuts: seq<nat>): seq<TrailCall> {
    if cuts == [] then []
    else Attempts(plan, cuts[..|cuts| - 1]) + Cut(plan, cuts[|cuts| - 1])
  }

  /** Each call of an update overwrites one member, and the last one stays. */
  function StageAfter(n: nat, d: nat, j: nat): nat {
    if j == 0 then d else if d <= j then j else if n == 3 then 2 else n
  }

  /** Beginning a plan again from one of its own stages leads to one of its stages. */
  lemma {:induction false} ResumedStage(
    before: TrailState, r: TrailResource, prior: TrailResource, d: nat, j: nat)
    returns (stage: nat)
    requires var n := |UpdatePlan(r, prior)|; d <= n && j <= n
    ensures var plan := UpdatePlan(r, prior);
            && stage <= |plan| && (j == |plan| ==> stage == |plan|)
            && before.ApplyAll(plan[..d]).ApplyAll(plan[..j]) == before.ApplyAll(plan[..stage])
  {
    var plan := UpdatePlan(r, prior);
    var middle := before.ApplyAll(plan[..d]);
    stage := StageAfter(|plan|, d, j);
    Stages(before, plan);
    Stages(middle, plan);
    if |plan| == 3 {
      ResumedStaging(before, plan, d, j);
    }
  }

  lemma {:induction false} ResumedStaging(
    before: TrailState, plan: seq<TrailCall>, d: nat, j: nat)
    requires |plan| == 3 && d <= 3 && j <= 3
    requires plan[0].PutInsightSelectors? && plan[1].PutEventSelectors? && plan[2].PutInsightSelectors?
    ensures before.ApplyAll(plan[..d]).ApplyAll(plan[..j])
            == before.ApplyAll(plan[..StageAfter(3, d, j)])
  {
    Stages(before, plan);
    Stages(before.ApplyAll(plan[..d]), plan);
  }

  /** All attempts stay among the stages of one undisturbed update. */
  lemma {:induction false} AttemptsStayOnStage(
    before: TrailState, r: TrailResource, prior: TrailResource, cuts: seq<nat>)
    returns (stage: nat)
    ensures var plan := UpdatePlan(r, prior);
            && stage <= |plan|
            && before.ApplyAll(Attempts(plan, cuts)) == before.ApplyAll(plan[..stage])
            && (AllSafe(before, plan) ==> AllSafe(before, Attempts(plan, cuts)))
  {
    var plan := UpdatePlan(r, prior);
    ApplyAllOf(before, plan);
    if cuts == [] {
      stage := 0;
    } else {
      var earlier, last := cuts[..|cuts| - 1], cuts[|cuts| - 1];
      var d := AttemptsStayOnStage(before, r, prior, earlier);
      var attempt := Cut(plan, last);
      SafeConcat(before, Attempts(plan, earlier), attempt);
      ApplyConcat(before, Attempts(plan, earlier), attempt);
      if AllSafe(before, plan) { AttemptFromStage(before, r, prior, d, last); }
      stage := ResumedStage(before, r, prior, d, |attempt|);
      assert attempt == plan[..|attempt|];
    }
  }

  lemma AttemptFromStage(
    before: TrailState, r: TrailResource, prior: TrailResource, d: nat, n: nat)
    requires AllSafe(before, UpdatePlan(r, prior)) && d <= |UpdatePlan(r, prior)|
    ensures var plan := UpdatePlan(r, prior);
            AllSafe(before.ApplyAll(plan[..d]), Cut(plan, n))
  {
    var plan := UpdatePlan(r, prior);
    forall k | 0 <= k <= |Cut(plan, n)|
      ensures before.ApplyAll(plan[..d]).ApplyAll(Cut(plan, n)[..k]).Compatible()
    {
      assert Cut(plan, n)[..k] == plan[..k];
      var stage := ResumedStage(before, r, prior, d, k);
    }
  }

  /**
   * Any number of attempts at an update that are cut short, then a completed one: every call is
   * as safe as those of one undisturbed update, and the trail ends up the same.
   */
  lemma RetriedUpdateIsSafe(
    before: TrailState, r: TrailResource, prior: TrailResource, cuts: seq<nat>)
    ensures var plan := UpdatePlan(r, prior);
            && (AllSafe(before, plan) ==> AllSafe(before, Attempts(plan, cuts) + plan))
            && before.ApplyAll(Attempts(plan, cuts) + plan) == before.ApplyAll(plan)
  {
    var plan := UpdatePlan(r, prior);
    var d := AttemptsStayOnStage(before, r, prior, cuts);
    var middle := before.ApplyAll(plan[..d]);
    ApplyConcat(before, Attempts(plan, cuts), plan);
    SafeConcat(before, Attempts(plan, cuts), plan);
    var last := ResumedStage(before, r, prior, d, |plan|);
    ApplyAllOf(before, plan);
    ApplyAllOf(middle, plan);
    if AllSafe(before, plan) { AttemptFromStage(before, r, prior, d, |plan|); }
  }

  // ---------- runs ----------

  /** An update to r, completed after attempts cut short after so many calls. */
  datatype Applied = Applied(r: TrailResource, cuts: seq<nat>)

  function Last(first: TrailResource, updates: seq<Applied>): TrailResource {
    if updates == [] then first else updates[|updates| - 1].r
  }

  ghost function UpdateCalls(update: Applied, prior: TrailResource): seq<TrailCall> {
    var plan := UpdatePlan(update.r, prior);
    Attempts(plan, update.cuts) + plan
  }

  /** The calls of a create and of the updates that follow. */
  ghost function RunCalls(first: TrailResource, updates: seq<Applied>): seq<TrailCall> {
    if updates == [] then CreatePlan(first)
    else
      var earlier := updates[..|updates| - 1];
      RunCalls(first, earlier) + UpdateCalls(updates[|updates| - 1], Last(first, earlier))
  }

  ghost predicate Acceptable(r: TrailResource) {
    r.Valid() && SupportsAll(Reckoned(Initial(r)), r.Insights())
  }

  /** Every configuration is valid and covers its own insights. */
  ghost predicate AcceptableRun(first: TrailResource, updates: seq<Applied>) {
    Acceptable(first) && forall i :: 0 <= i < |updates| ==> Acceptable(updates[i].r)
  }

  /**
   * The trail is left with an empty advanced list that the next update will not expect: the
   * last update dropped advanced selectors, or an earlier one did and the selectors did not
   * change since.
   */
  predicate Lagging(first: TrailResource, updates: seq<Applied>) {
    if updates == [] then false
    else
      var earlier := updates[..|updates| - 1];
      var prior, r := Last(first, earlier), updates[|updates| - 1].r;
      DropsAdvanced(r, prior) || (Lagging(first, earlier) && !SelectorsChanged(r, prior))
  }

  /** What a run leaves: the last insights, and the last selectors unless it lags. */
  ghost predicate Leaves(first: TrailResource, updates: seq<Applied>, state: TrailState) {
    && state.insights == Last(first, updates).Insights()
    && Reckoned(state.selectors)
       == if Lagging(first, updates) then NOTHING else Reckoned(Initial(Last(first, updates)))
  }

  lemma {:induction false} LaggingDeclaresNone(first: TrailResource, updates: seq<Applied>)
    requires Lagging(first, updates)
    ensures Last(first, updates).eventSelectors.None?
    ensures Last(first, updates).advancedEventSelectors.None?
  {
    var earlier := updates[..|updates| - 1];
    if !DropsAdvanced(Last(first, updates), Last(first, earlier)) {
      LaggingDeclaresNone(first, earlier);
    }
  }

  /** Whether no insight is left without its events while the trail lags. */
  predicate NoInsightWhileLagging(first: TrailResource, updates: seq<Applied>) {
    Lagging(first, updates) ==> SupportsAll(NOTHING, Last(first, updates).Insights())
  }

  lemma SupportsMore(a: Coverage, b: Coverage, insights: seq<InsightSelector>)
    requires Within(a, b) && SupportsAll(a, insights)
    ensures SupportsAll(b, insights)
  {
  }

  /** A lagging trail: new selectors go first, because insights that need nothing fit any list. */
  lemma {:induction false} UpdateOfLaggingTrail(
    before: TrailState, r: TrailResource, prior: TrailResource)
    requires prior.eventSelectors.None? && prior.advancedEventSelectors.None?
    requires Reckoned(before.selectors) == NOTHING && before.insights == prior.Insights()
    requires before.Compatible() && Acceptable(r)
    requires !SelectorsChanged(r, prior) ==> SupportsAll(NOTHING, r.Insights())
    ensures AllSafe(before, UpdatePlan(r, prior))
  {
    assert Written(r, prior) == Initial(r);
    SupportsMore(NOTHING, Reckoned(Initial(r)), prior.Insights());
    UpdateFromAnyState(before, r, prior);
  }

  /** One more update: what it leaves, and that its calls are safe exactly when its end is. */
  lemma {:induction false} OneMoreUpdate(
    first: TrailResource, updates: seq<Applied>, before: TrailState)
    requires updates != [] && updates[|updates| - 1].r.Valid()
    requires Leaves(first, updates[..|updates| - 1], before)
    ensures var r := updates[|updates| - 1].r;
            var plan := UpdatePlan(r, Last(first, updates[..|updates| - 1]));
            && Leaves(first, updates, before.ApplyAll(plan))
            && (before.Compatible() && Acceptable(r) && NoInsightWhileLagging(first, updates) ==>
                  AllSafe(before, plan))
  {
    var earlier := updates[..|updates| - 1];
    var prior, r := Last(first, earlier), updates[|updates| - 1].r;
    CompletedUpdateIsDesired(before, r, prior);
    PredictionStaysTrueUnlessDropped(r, prior);
    if Lagging(first, earlier) { LaggingDeclaresNone(first, earlier); }
    if before.Compatible() && Acceptable(r) && NoInsightWhileLagging(first, updates) {
      if Lagging(first, earlier) {
        UpdateOfLaggingTrail(before, r, prior);
      } else {
        EveryCallKeepsInsightsSupported(before, r, prior);
      }
    }
  }

  /** A trail that supports the insights it is left with was given an acceptable configuration. */
  lemma LeftCompatible(first: TrailResource, updates: seq<Applied>, state: TrailState)
    requires Leaves(first, updates, state) && Last(first, updates).Valid() && state.Compatible()
    ensures Acceptable(Last(first, updates)) && NoInsightWhileLagging(first, updates)
  {
    var last := Last(first, updates);
    if Lagging(first, updates) {
      SupportsMore(NOTHING, Reckoned(Initial(last)), last.Insights());
    }
  }

  /**
   * A configuration whose run lags must run no insight that needs events; that is the exact
   * condition, read off the configurations, for every call of a run to be safe.
   */
  ghost predicate NeverLagsWithInsights(first: TrailResource, updates: seq<Applied>) {
    forall k :: 0 <= k <= |updates| ==> NoInsightWhileLagging(first, updates[..k])
  }

  lemma ConditionStep(first: TrailResource, updates: seq<Applied>)
    requires updates != []
    ensures NeverLagsWithInsights(first, updates)
            <==> && NeverLagsWithInsights(first, updates[..|updates| - 1])
                 && NoInsightWhileLagging(first, updates)
  {
    var earlier := updates[..|updates| - 1];
    assert updates[..|updates|] == updates;
    forall k | 0 <= k <= |earlier|
      ensures NoInsightWhileLagging(first, earlier[..k])
              <==> NoInsightWhileLagging(first, updates[..k])
    {
      assert earlier[..k] == updates[..k];
    }
  }

  lemma AcceptableStep(first: TrailResource, updates: seq<Applied>)
    requires updates != []
    ensures AcceptableRun(first, updates)
            <==> && AcceptableRun(first, updates[..|updates| - 1])
                 && Acceptable(updates[|updates| - 1].r)
  {
    var earlier := updates[..|updates| - 1];
    assert forall i :: 0 <= i < |earlier| ==> earlier[i] == updates[i];
    if AcceptableRun(first, updates) {
      forall i | 0 <= i < |earlier| ensures Acceptable(earlier[i].r) {
        assert Acceptable(updates[i].r);
      }
    }
  }

  /** One more update, after any cut-short attempts at it. */
  lemma {:induction false} OneMoreStep(
    first: TrailResource, updates: seq<Applied>, before: TrailState)
    requires updates != [] && updates[|updates| - 1].r.Valid()
    requires Leaves(first, updates[..|updates| - 1], before)
    ensures var r := updates[|updates| - 1].r;
            var calls := UpdateCalls(updates[|updates| - 1],
                                     Last(first, updates[..|updates| - 1]));
            && Leaves(first, updates, before.ApplyAll(calls))
            && (AllSafe(before, calls) <==>
                  before.Compatible() && Acceptable(r) && NoInsightWhileLagging(first, updates))
  {
    var last, prior := updates[|updates| - 1], Last(first, updates[..|updates| - 1]);
    var calls := UpdateCalls(last, prior);
    OneMoreUpdate(first, updates, before);
    RetriedUpdateIsSafe(before, last.r, prior, last.cuts);
    ApplyAllOf(before, calls);
    if AllSafe(before, calls) {
      assert before.ApplyAll(calls[..0]).Compatible();
      EndIsSafe(before, calls);
      LeftCompatible(first, updates, before.ApplyAll(calls));
    }
  }

  /** Declaring both kinds of selector is refused, at a create and at every update. */
  predicate ValidRun(first: TrailResource, updates: seq<Applied>) {
    first.Valid() && forall i :: 0 <= i < |updates| ==> updates[i].r.Valid()
  }

  /**
   * Over every run, cut-short attempts included: all calls are safe exactly when each
   * configuration covers its own insights and none needs events while the trail lags.
   */
  lemma {:induction false} EveryCallOfEveryRunIsSafe(first: TrailResource, updates: seq<Applied>)
    requires ValidRun(first, updates)
    ensures AllSafe(CREATED, RunCalls(first, updates))
            <==> AcceptableRun(first, updates) && NeverLagsWithInsights(first, updates)
    ensures Leaves(first, updates, CREATED.ApplyAll(RunCalls(first, updates)))
  {
    if updates == [] {
      CreateIsSafe(first);
    } else {
      var earlier, last := updates[..|updates| - 1], updates[|updates| - 1];
      var calls, more := RunCalls(first, earlier), UpdateCalls(last, Last(first, earlier));
      EveryCallOfEveryRunIsSafe(first, earlier);
      OneMoreStep(first, updates, CREATED.ApplyAll(calls));
      SafeConcat(CREATED, calls, more);
      ApplyConcat(CREATED, calls, more);
      if AllSafe(CREATED, calls) { EndIsSafe(CREATED, calls); }
      ConditionStep(first, updates);
      AcceptableStep(first, updates);
    }
  }

  lemma EndIsSafe(state: TrailState, calls: seq<TrailCall>)
    requires AllSafe(state, calls)
    ensures state.ApplyAll(calls).Compatible()
  {
    ApplyAllOf(state, calls);
  }

  // ---------- concrete runs that lose support ----------

  const ALERT := InsightSelector("ApiCallRateInsight", None)
  const ALERTING := TrailResource(None, None, Some([ALERT]))

  function ManagementOnly(): AdvancedEventSelector {
    AdvancedEventSelector(
      None,
      [AdvancedFieldSelector("eventCategory", Some(["Management"]), None, None, None, None, None)])
  }

  lemma AlertNeedsWrites(c: Coverage)
    ensures SupportsAll(c, [ALERT]) <==> c.managementWrite
  {
    assert ALERT in [ALERT] && "Management" in ALERT.eventCategories.GetOr(["Management"]);
  }

  /**
   * A trail with advanced selectors drops them and then declares an insight. Each configuration
   * covers its own insights, yet the last call leaves one that the empty list does not support.
   */
  lemma {:induction false} DroppingAdvancedSelectorsBreaksTheNextUpdate()
    ensures var first := TrailResource(None, Some([ManagementOnly()]), None);
            var updates := [Applied(NO_SELECTORS, []), Applied(ALERTING, [])];
            AcceptableRun(first, updates) && !AllSafe(CREATED, RunCalls(first, updates))
  {
    var first := TrailResource(None, Some([ManagementOnly()]), None);
    var dropped, alerting := Applied(NO_SELECTORS, []), Applied(ALERTING, []);
    var updates := [dropped, alerting];
    AlertingIsAcceptable();
    assert Acceptable(first) && Acceptable(dropped.r) && Acceptable(alerting.r);
    AlertingWhileLagging(first, updates);
  }

  lemma AlertingWhileLagging(first: TrailResource, updates: seq<Applied>)
    requires first.Valid() && first.advancedEventSelectors.Some?
    requires updates == [Applied(NO_SELECTORS, []), Applied(ALERTING, [])]
    ensures !AllSafe(CREATED, RunCalls(first, updates))
  {
    AlertNeedsWrites(NOTHING);
    EveryCallOfEveryRunIsSafe(first, updates);
    LaggingAfterDrop(first, updates);
    assert !NoInsightWhileLagging(first, updates[..2]);
  }

  lemma AlertingIsAcceptable()
    ensures Acceptable(ALERTING) && Reckoned(Initial(ALERTING)) == Coverage(true, true, false)
  {
    StandardCoverageIsExact([]);
    AlertNeedsWrites(Reckoned(Initial(ALERTING)));
  }

  lemma LaggingAfterDrop(first: TrailResource, updates: seq<Applied>)
    requires first.advancedEventSelectors.Some?
    requires updates == [Applied(NO_SELECTORS, []), Applied(ALERTING, [])]
    ensures updates[..2] == updates && Lagging(first, updates)
  {
    assert updates[..1][..0] == [];
    assert Lagging(first, updates[..1]);
  }

  // ---------- the events themselves ----------

  /** After every single call the events that the trail admits support its insights. */
  ghost predicate AllSupported(state: TrailState, calls: seq<TrailCall>) {
    forall k :: 0 <= k <= |calls| ==> state.ApplyAll(calls[..k]).Supported()
  }

  ghost predicate WritesConsistent(calls: seq<TrailCall>) {
    forall c :: c in calls && c.PutEventSelectors? ==> Consistent(c.selectors)
  }

  lemma {:induction false} StaysConsistent(state: TrailState, calls: seq<TrailCall>)
    requires Consistent(state.selectors) && WritesConsistent(calls)
    ensures Consistent(state.ApplyAll(calls).selectors)
  {
    if calls != [] { StaysConsistent(state, calls[..|calls| - 1]); }
  }

  /** While the lists are consistent, reckoned support is support by events. */
  lemma SupportIsReckoned(state: TrailState, calls: seq<TrailCall>)
    requires Consistent(state.selectors) && WritesConsistent(calls)
    ensures AllSupported(state, calls) <==> AllSafe(state, calls)
  {
    forall k | 0 <= k <= |calls|
      ensures var s := state.ApplyAll(calls[..k]); s.Supported() <==> s.Compatible()
    {
      StaysConsistent(state, calls[..k]);
      var s := state.ApplyAll(calls[..k]);
      ReckonedIsSound(s.selectors);
      SupportIsByEvents(s.selectors, s.insights);
    }
  }

  /** No advanced selector of the configuration contradicts itself. */
  ghost predicate ConsistentResource(r: TrailResource) {
    AllSatisfiable(r.advancedEventSelectors.GetOr([]))
  }

  lemma {:induction false} AttemptsWriteConsistent(plan: seq<TrailCall>, cuts: seq<nat>)
    requires WritesConsistent(plan)
    ensures WritesConsistent(Attempts(plan, cuts))
  {
    if cuts != [] {
      var earlier, last := cuts[..|cuts| - 1], cuts[|cuts| - 1];
      AttemptsWriteConsistent(plan, earlier);
      assert WritesConsistent(Cut(plan, last));
      ConsistentConcat(Attempts(plan, earlier), Cut(plan, last));
    }
  }

  lemma ConsistentConcat(a: seq<TrailCall>, b: seq<TrailCall>)
    requires WritesConsistent(a) && WritesConsistent(b)
    ensures WritesConsistent(a + b)
  {
  }

  lemma UpdateWritesConsistent(r: TrailResource, prior: TrailResource)
    requires ConsistentResource(r)
    ensures WritesConsistent(UpdatePlan(r, prior))
  {
    assert Consistent(Written(r, prior));
  }

  lemma {:induction false} RunWritesConsistent(first: TrailResource, updates: seq<Applied>)
    requires ConsistentResource(first)
    requires forall i :: 0 <= i < |updates| ==> ConsistentResource(updates[i].r)
    ensures WritesConsistent(RunCalls(first, updates))
  {
    if updates != [] {
      var earlier, last := updates[..|updates| - 1], updates[|updates| - 1];
      var plan := UpdatePlan(last.r, Last(first, earlier));
      RunWritesConsistent(first, earlier);
      UpdateWritesConsistent(last.r, Last(first, earlier));
      AttemptsWriteConsistent(plan, last.cuts);
      ConsistentConcat(Attempts(plan, last.cuts), plan);
      ConsistentConcat(RunCalls(first, earlier), UpdateCalls(last, Last(first, earlier)));
    }
  }

  /**
   * Configurations without contradictory selectors: after every call of every run the events
   * that the trail admits support its insights, on the same exact condition.
   */
  lemma EventsSupportInsightsOverEveryRun(first: TrailResource, updates: seq<Applied>)
    requires ValidRun(first, updates) && ConsistentResource(first)
    requires forall i :: 0 <= i < |updates| ==> ConsistentResource(updates[i].r)
    ensures AllSupported(CREATED, RunCalls(first, updates))
            <==> AcceptableRun(first, updates) && NeverLagsWithInsights(first, updates)
  {
    EveryCallOfEveryRunIsSafe(first, updates);
    RunWritesConsistent(first, updates);
    SupportIsReckoned(CREATED, RunCalls(first, updates));
  }
}
