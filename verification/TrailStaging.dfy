/** Create and update of a trail's selectors and insights: after every call they fit together. */
module TrailStaging {
  import opened Options
  import opened TrailSelectors
  import opened TrailCoverage

  datatype InsightSelector = InsightSelector(
    insightType: string, eventCategories: Option<seq<string>>)

  datatype TrailResource = TrailResource(
    eventSelectors: Option<seq<EventSelector>>,
    advancedEventSelectors: Option<seq<AdvancedEventSelector>>,
    insightSelectors: Option<seq<InsightSelector>>)
  {
    function Insights(): seq<InsightSelector> {
      insightSelectors.GetOr([])
    }

    /** Declaring both kinds of selector is refused before any call. */
    predicate Valid() {
      !(eventSelectors.Some? && advancedEventSelectors.Some?)
    }
  }

  predicate CategorySupported(c: Coverage, insightType: string, category: string) {
    if category == "Management" then
      if insightType == "ApiCallRateInsight" then c.managementWrite
      else c.managementRead || c.managementWrite
    else if category == "Data" then c.data
    else false
  }

  /** Every category an insight analyses is covered; an insight names Management by default. */
  predicate SupportsAll(c: Coverage, insights: seq<InsightSelector>) {
    forall insight :: insight in insights ==>
      forall category :: category in insight.eventCategories.GetOr(["Management"]) ==>
        CategorySupported(c, insight.insightType, category)
  }

  /**
   * What an insight needs of a category, in events: one about API call rates on management events
   * needs writes, any other some management event, one on data events some data event. No other
   * category will do.
   */
  ghost predicate EventsFor(stored: StoredSelectors, insightType: string, category: string) {
    || (&& category == "Management"
        && exists e :: && Admits(stored, e) && e.category == "Management"
                       && (insightType == "ApiCallRateInsight" ==> !e.readOnly))
    || (&& category == "Data"
        && exists e :: Admits(stored, e) && e.category == "Data")
  }

  /** An insight without categories is about management events. */
  ghost predicate InsightSupported(stored: StoredSelectors, insight: InsightSelector) {
    if insight.eventCategories.Some? then
      forall category :: category in insight.eventCategories.value ==>
        EventsFor(stored, insight.insightType, category)
    else EventsFor(stored, insight.insightType, "Management")
  }

  lemma CategoryIsByEvents(stored: StoredSelectors, insightType: string, category: string)
    ensures CategorySupported(CoverageOf(stored), insightType, category)
            <==> EventsFor(stored, insightType, category)
  {
    if category == "Management" {
      ManagementIsByEvents(stored);
    } else if category == "Data" {
      DataIsByEvents(stored);
    }
  }

  lemma ManagementIsByEvents(stored: StoredSelectors)
    ensures CoverageOf(stored).managementWrite
            <==> exists e :: Admits(stored, e) && e.category == "Management" && !e.readOnly
    ensures CoverageOf(stored).managementRead || CoverageOf(stored).managementWrite
            <==> exists e :: Admits(stored, e) && e.category == "Management"
  {
    if e :| Admits(stored, e) && e.category == "Management" {
      assert AdmitsSome(stored, "Management", e.readOnly);
    }
  }

  lemma DataIsByEvents(stored: StoredSelectors)
    ensures CoverageOf(stored).data <==> exists e :: Admits(stored, e) && e.category == "Data"
  {
    if e :| Admits(stored, e) && e.category == "Data" {
      assert AdmitsSome(stored, "Data", e.readOnly);
    }
  }

  /** Coverage decides it, for every list and every insight. */
  lemma SupportIsByEvents(stored: StoredSelectors, insights: seq<InsightSelector>)
    ensures SupportsAll(CoverageOf(stored), insights)
            <==> forall insight :: insight in insights ==> InsightSupported(stored, insight)
  {
    forall insight: InsightSelector, category
      ensures CategorySupported(CoverageOf(stored), insight.insightType, category)
              <==> EventsFor(stored, insight.insightType, category)
    {
      CategoryIsByEvents(stored, insight.insightType, category);
    }
  }

  // ---------- the coverage of a configuration ----------

  /** The list an update from prior writes for r. */
  ghost function Written(r: TrailResource, prior: TrailResource): StoredSelectors {
    if r.eventSelectors.Some? then Standard(WrittenStandard(r.eventSelectors.value))
    else if r.advancedEventSelectors.Some? || prior.advancedEventSelectors.Some?
    then Advanced(r.advancedEventSelectors.GetOr([]))
    else Standard(WrittenStandard([]))
  }

  const NO_SELECTORS := TrailResource(None, None, None)

  /** The list that a completed create of r leaves. */
  ghost function Initial(r: TrailResource): StoredSelectors {
    Written(r, NO_SELECTORS)
  }

  /** What an update assumes of the list in place is what a create would have left. */
  method ConfiguredSelectorCoverage(r: TrailResource) returns (c: Coverage)
    ensures c == Reckoned(Initial(r))
  {
    if r.eventSelectors.Some? {
      c := StandardSelectorCoverage(r.eventSelectors.value);
      StandardCoverageIsExact(r.eventSelectors.value);
    } else if r.advancedEventSelectors.Some? {
      c := AdvancedSelectorCoverage(r.advancedEventSelectors.value);
    } else {
      c := StandardSelectorCoverage([]);
      StandardCoverageIsExact([]);
    }
  }

  /** What an update predicts is the coverage of the list it writes, for every pair. */
  method DesiredSelectorCoverage(r: TrailResource, prior: TrailResource) returns (c: Coverage)
    ensures c == Reckoned(Written(r, prior))
  {
    if r.eventSelectors.Some? {
      c := StandardSelectorCoverage(r.eventSelectors.value);
      StandardCoverageIsExact(r.eventSelectors.value);
    } else if r.advancedEventSelectors.Some? {
      c := AdvancedSelectorCoverage(r.advancedEventSelectors.value);
    } else if prior.advancedEventSelectors.Some? {
      c := AdvancedSelectorCoverage([]);
    } else {
      c := StandardSelectorCoverage([]);
      StandardCoverageIsExact([]);
    }
  }

  /** Of events, the prediction claims no less than the written list will admit, and exactly that
      when no selector of the list contradicts itself. */
  lemma PredictionIsExact(r: TrailResource, prior: TrailResource)
    ensures Within(CoverageOf(Written(r, prior)), Reckoned(Written(r, prior)))
    ensures AllSatisfiable(r.advancedEventSelectors.GetOr([])) ==>
              CoverageOf(Written(r, prior)) == Reckoned(Written(r, prior))
  {
    ReckonedIsSound(Written(r, prior));
  }

  /** An update drops its advanced selectors and declares none of either kind. */
  predicate DropsAdvanced(r: TrailResource, prior: TrailResource) {
    r.eventSelectors.None? && r.advancedEventSelectors.None? && prior.advancedEventSelectors.Some?
  }

  /** The next update will predict what this one wrote, except after dropping advanced selectors. */
  lemma PredictionStaysTrueUnlessDropped(r: TrailResource, prior: TrailResource)
    ensures Reckoned(Written(r, prior)) == Reckoned(Initial(r)) <==> !DropsAdvanced(r, prior)
    ensures DropsAdvanced(r, prior) ==> Reckoned(Written(r, prior)) == NOTHING
  {
    StandardCoverageIsExact([]);
  }

  // ---------- calls and what the trail holds ----------

  datatype TrailCall =
    | PutEventSelectors(selectors: StoredSelectors)
    | PutInsightSelectors(insights: seq<InsightSelector>)

  datatype TrailState = TrailState(selectors: StoredSelectors, insights: seq<InsightSelector>)
  {
    /** The trail's selectors, as the code reckons them, support the insights it runs. */
    ghost predicate Compatible() {
      SupportsAll(Reckoned(selectors), insights)
    }

    /** The events the trail admits support the insights it runs. */
    ghost predicate Supported() {
      forall insight :: insight in insights ==> InsightSupported(selectors, insight)
    }

    function Apply(call: TrailCall): TrailState {
      match call
      case PutEventSelectors(s) => this.(selectors := s)
      case PutInsightSelectors(i) => this.(insights := i)
    }

    function ApplyAll(calls: seq<TrailCall>): TrailState {
      if calls == [] then this
      else ApplyAll(calls[..|calls| - 1]).Apply(calls[|calls| - 1])
    }
  }

  /** A created trail starts with the default selectors and no insights. */
  const CREATED := TrailState(Standard([DEFAULT_SELECTOR]), [])

  class TrailService {
    var selectors: StoredSelectors
    var insights: seq<InsightSelector>
    ghost var calls: seq<TrailCall>  // the accepted calls, oldest first
    ghost var failures: nat          // the calls that failed

    constructor ()
      ensures Valid() && calls == [] && failures == 0
    {
      selectors, insights, calls, failures := CREATED.selectors, CREATED.insights, [], 0;
    }

    ghost predicate Valid()
      reads this
    {
      TrailState(selectors, insights) == CREATED.ApplyAll(calls)
    }

    /** Any call may fail and then does nothing. */
    method PutEventSelectors(list: StoredSelectors) returns (ok: bool)
      requires Valid()
      modifies this
      ensures Valid()
      ensures calls == if ok then old(calls) + [TrailCall.PutEventSelectors(list)] else old(calls)
      ensures failures == old(failures) + if ok then 0 else 1
    {
      ok := *;
      if !ok {
        failures := failures + 1;
      }
      if ok {
        selectors, calls := list, calls + [TrailCall.PutEventSelectors(list)];
      }
    }

    method PutInsightSelectors(list: seq<InsightSelector>) returns (ok: bool)
      requires Valid()
      modifies this
      ensures Valid()
      ensures calls == if ok then old(calls) + [TrailCall.PutInsightSelectors(list)] else old(calls)
      ensures failures == old(failures) + if ok then 0 else 1
    {
      ok := *;
      if !ok {
        failures := failures + 1;
      }
      if ok {
        insights, calls := list, calls + [TrailCall.PutInsightSelectors(list)];
      }
    }
  }

  // ---------- the calls of a create and of an update ----------

  ghost function CreatePlan(r: TrailResource): seq<TrailCall> {
    var insights := if r.insightSelectors.Some? then [PutInsightSelectors(r.Insights())] else [];
    if r.eventSelectors.Some?
    then [PutEventSelectors(Standard(WrittenStandard(r.eventSelectors.value)))] + insights
    else if r.advancedEventSelectors.Some?
    then [PutEventSelectors(Advanced(r.advancedEventSelectors.value))] + insights
    else insights
  }

  predicate SelectorsChanged(r: TrailResource, prior: TrailResource) {
    || prior.eventSelectors != r.eventSelectors
    || prior.advancedEventSelectors != r.advancedEventSelectors
  }

  predicate InsightsChanged(r: TrailResource, prior: TrailResource) {
    prior.insightSelectors != r.insightSelectors
  }

  ghost function UpdatePlan(r: TrailResource, prior: TrailResource): seq<TrailCall> {
    var selectors, insights := PutEventSelectors(Written(r, prior)), PutInsightSelectors(r.Insights());
    if !SelectorsChanged(r, prior) then
      if InsightsChanged(r, prior) then [insights] else []
    else if !InsightsChanged(r, prior) then [selectors]
    else StagingPlan(r, prior)
  }

  ghost function StagingPlan(r: TrailResource, prior: TrailResource): seq<TrailCall> {
    InOrder(SupportsAll(Reckoned(Written(r, prior)), prior.Insights()),
            SupportsAll(Reckoned(Initial(prior)), r.Insights()),
            PutEventSelectors(Written(r, prior)), PutInsightSelectors(r.Insights()))
  }

  /** Selectors first if they support the insights in place, or last if those in place support the
      new insights; otherwise the insights are cleared before. */
  function InOrder(
    selectorsFirst: bool, selectorsLast: bool, selectors: TrailCall, insights: TrailCall)
    : seq<TrailCall>
  {
    if selectorsFirst then [selectors, insights]
    else if selectorsLast then [insights, selectors]
    else [PutInsightSelectors([]), selectors, insights]
  }

  /** A call for each side whose declaration changed, absent and empty not being the same. */
  lemma UpdateSends(r: TrailResource, prior: TrailResource)
    ensures (exists c :: c in UpdatePlan(r, prior) && c.PutEventSelectors?)
            <==> || prior.eventSelectors != r.eventSelectors
                 || prior.advancedEventSelectors != r.advancedEventSelectors
    ensures (exists c :: c in UpdatePlan(r, prior) && c.PutInsightSelectors?)
            <==> prior.insightSelectors != r.insightSelectors
  {
    var plan := UpdatePlan(r, prior);
    if |plan| > 0 { assert plan[0] in plan; }
    if |plan| > 1 { assert plan[1] in plan; }
  }

  method WriteStandardSelectors(service: TrailService, r: TrailResource) returns (ok: bool)
    requires service.Valid()
    modifies service
    ensures service.Valid()
    ensures var call := PutEventSelectors(Standard(WrittenStandard(r.eventSelectors.GetOr([]))));
            service.calls == if ok then old(service.calls) + [call] else old(service.calls)
    ensures service.failures == old(service.failures) + if ok then 0 else 1
  {
    var selectors := ExpandEventSelectors(r.eventSelectors.GetOr([]));
    if |selectors| == 0 {
      selectors := [WrittenEventSelector([], [], true, "All")];
    }
    assert r.eventSelectors.GetOr([]) == [] <==> Expanded(r.eventSelectors.GetOr([])) == [];
    ok := service.PutEventSelectors(Standard(selectors));
  }

  method WriteAdvancedSelectors(service: TrailService, r: TrailResource) returns (ok: bool)
    requires service.Valid()
    modifies service
    ensures service.Valid()
    ensures var call := PutEventSelectors(Advanced(r.advancedEventSelectors.GetOr([])));
            service.calls == if ok then old(service.calls) + [call] else old(service.calls)
    ensures service.failures == old(service.failures) + if ok then 0 else 1
  {
    ok := service.PutEventSelectors(Advanced(r.advancedEventSelectors.GetOr([])));
  }

  method PutDesiredEventSelectors(service: TrailService, r: TrailResource, prior: TrailResource)
    returns (ok: bool)
    requires service.Valid()
    modifies service
    ensures service.Valid()
    ensures var call := PutEventSelectors(Written(r, prior));
            service.calls == if ok then old(service.calls) + [call] else old(service.calls)
    ensures service.failures == old(service.failures) + if ok then 0 else 1
  {
    if r.eventSelectors.Some? {
      ok := WriteStandardSelectors(service, r);
    } else if r.advancedEventSelectors.Some? || prior.advancedEventSelectors.Some? {
      ok := WriteAdvancedSelectors(service, r);
    } else {
      ok := WriteStandardSelectors(service, r);
    }
  }

  /** The accepted calls after the first done calls of a plan. */
  ghost predicate Followed(
    start: seq<TrailCall>, calls: seq<TrailCall>, plan: seq<TrailCall>, done: nat)
  {
    done <= |plan| && calls == start + plan[..done]
  }

  lemma FollowedNone(start: seq<TrailCall>, plan: seq<TrailCall>)
    ensures Followed(start, start, plan, 0)
  {
    assert start + plan[..0] == start;
  }

  lemma FollowedNext(
    start: seq<TrailCall>, calls: seq<TrailCall>, plan: seq<TrailCall>, done: nat, next: TrailCall)
    requires Followed(start, calls, plan, done) && done < |plan| && plan[done] == next
    ensures Followed(start, calls + [next], plan, done + 1)
  {
    assert plan[..done + 1] == plan[..done] + [next];
    assert start + plan[..done + 1] == start + plan[..done] + [next];
  }

  /** The accepted calls are the first ones of the plan, and all of them on success. */
  method CreateSelectorsAndInsights(service: TrailService, r: TrailResource)
    returns (ok: bool, ghost done: nat)
    requires service.Valid() && r.Valid()
    modifies service
    ensures service.Valid()
    ensures Followed(old(service.calls), service.calls, CreatePlan(r), done)
    ensures ok ==> done == |CreatePlan(r)|
    ensures service.failures == old(service.failures) + if ok then 0 else 1
  {
    ghost var start, plan := service.calls, CreatePlan(r);
    FollowedNone(start, plan);
    ok, done := true, 0;
    if r.eventSelectors.Some? {
      ok := WriteStandardSelectors(service, r);
      if !ok {
        return;
      }
      FollowedNext(start, start, plan, 0, plan[0]);
      done := 1;
    }
    if r.advancedEventSelectors.Some? {
      ok := WriteAdvancedSelectors(service, r);
      if !ok {
        return;
      }
      FollowedNext(start, start, plan, 0, plan[0]);
      done := 1;
    }
    assert |plan| == done + if r.insightSelectors.Some? then 1 else 0;
    if r.insightSelectors.Some? {
      ok, done := LastInsights(service, r, plan, start, done);
    }
  }

  method LastInsights(
    service: TrailService, r: TrailResource, ghost plan: seq<TrailCall>,
    ghost start: seq<TrailCall>, ghost first: nat)
    returns (ok: bool, ghost done: nat)
    requires service.Valid() && Followed(start, service.calls, plan, first)
    requires |plan| == first + 1 && plan[first] == PutInsightSelectors(r.Insights())
    modifies service
    ensures service.Valid()
    ensures Followed(start, service.calls, plan, done)
    ensures ok ==> done == |plan|
    ensures service.failures == old(service.failures) + if ok then 0 else 1
  {
    ghost var before := service.calls;
    done := first;
    ok := service.PutInsightSelectors(r.Insights());
    if ok {
      FollowedNext(start, before, plan, first, plan[first]);
      done := first + 1;
    }
  }

  method UpdateSelectorsAndInsights(service: TrailService, r: TrailResource, prior: TrailResource)
    returns (ok: bool, ghost done: nat)
    requires service.Valid()
    modifies service
    ensures service.Valid()
    ensures Followed(old(service.calls), service.calls, UpdatePlan(r, prior), done)
    ensures ok ==> done == |UpdatePlan(r, prior)|
    ensures service.failures == old(service.failures) + if ok then 0 else 1
  {
    ghost var start, plan := service.calls, UpdatePlan(r, prior);
    FollowedNone(start, plan);
    done := 0;
    if !SelectorsChanged(r, prior) {
      ok := true;
      if InsightsChanged(r, prior) {
        ok, done := LastInsights(service, r, plan, start, 0);
      }
      return;
    }
    if !InsightsChanged(r, prior) {
      ok := PutDesiredEventSelectors(service, r, prior);
      if ok {
        FollowedNext(start, start, plan, 0, plan[0]);
        done := 1;
      }
      return;
    }
    ok, done := StageBoth(service, r, prior);
  }

  /** Both changed: the order depends on which list supports the insights of the other side. */
  method StageBoth(service: TrailService, r: TrailResource, prior: TrailResource)
    returns (ok: bool, ghost done: nat)
    requires service.Valid()
    modifies service
    ensures service.Valid()
    ensures Followed(old(service.calls), service.calls, StagingPlan(r, prior), done)
    ensures ok ==> done == |StagingPlan(r, prior)|
    ensures service.failures == old(service.failures) + if ok then 0 else 1
  {
    ghost var start, plan := service.calls, StagingPlan(r, prior);
    FollowedNone(start, plan);
    var desired := DesiredSelectorCoverage(r, prior);
    if SupportsAll(desired, prior.Insights()) {
      ok, done := SelectorsThenInsights(service, r, prior, plan, start, 0);
      return;
    }
    var configured := ConfiguredSelectorCoverage(prior);
    if SupportsAll(configured, r.Insights()) {
      ok, done := InsightsThenSelectors(service, r, prior, plan, start);
      return;
    }
    ok, done := ClearedThenBoth(service, r, prior, plan, start);
  }

  /** The last of the three orders: no insight is in place while the selectors change. */
  method ClearedThenBoth(
    service: TrailService, r: TrailResource, prior: TrailResource,
    ghost plan: seq<TrailCall>, ghost start: seq<TrailCall>)
    returns (ok: bool, ghost done: nat)
    requires service.Valid() && service.calls == start && |plan| == 3
    requires plan[0] == PutInsightSelectors([])
    requires plan[1] == PutEventSelectors(Written(r, prior))
    requires plan[2] == PutInsightSelectors(r.Insights())
    modifies service
    ensures service.Valid()
    ensures Followed(start, service.calls, plan, done)
    ensures ok ==> done == |plan|
    ensures service.failures == old(service.failures) + if ok then 0 else 1
  {
    FollowedNone(start, plan);
    done := 0;
    ok := service.PutInsightSelectors([]);
    if !ok {
      return;
    }
    FollowedNext(start, start, plan, 0, plan[0]);
    ok, done := SelectorsThenInsights(service, r, prior, plan, start, 1);
  }

  /** The second of the three orders. */
  method InsightsThenSelectors(
    service: TrailService, r: TrailResource, prior: TrailResource,
    ghost plan: seq<TrailCall>, ghost start: seq<TrailCall>)
    returns (ok: bool, ghost done: nat)
    requires service.Valid() && service.calls == start
    requires plan == [PutInsightSelectors(r.Insights()), PutEventSelectors(Written(r, prior))]
    modifies service
    ensures service.Valid()
    ensures Followed(start, service.calls, plan, done)
    ensures ok ==> done == |plan|
    ensures service.failures == old(service.failures) + if ok then 0 else 1
  {
    FollowedNone(start, plan);
    done := 0;
    ok := service.PutInsightSelectors(r.Insights());
    if !ok {
      return;
    }
    FollowedNext(start, start, plan, 0, plan[0]);
    done := 1;
    ghost var before := service.calls;
    ok := PutDesiredEventSelectors(service, r, prior);
    if ok {
      FollowedNext(start, before, plan, 1, plan[1]);
      done := 2;
    }
  }

  /** The two writes that end the first and the last of the three orders. */
  method SelectorsThenInsights(
    service: TrailService, r: TrailResource, prior: TrailResource,
    ghost plan: seq<TrailCall>, ghost start: seq<TrailCall>, ghost first: nat)
    returns (ok: bool, ghost done: nat)
    requires service.Valid()
    requires Followed(start, service.calls, plan, first) && |plan| == first + 2
    requires plan[first] == PutEventSelectors(Written(r, prior))
    requires plan[first + 1] == PutInsightSelectors(r.Insights())
    modifies service
    ensures service.Valid()
    ensures Followed(start, service.calls, plan, done)
    ensures ok ==> done == |plan|
    ensures service.failures == old(service.failures) + if ok then 0 else 1
  {
    done := first;
    ghost var before := service.calls;
    ok := PutDesiredEventSelectors(service, r, prior);
    if !ok {
      return;
    }
    FollowedNext(start, before, plan, first, plan[first]);
    ok, done := LastInsights(service, r, plan, start, first + 1);
  }
}
