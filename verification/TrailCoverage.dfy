/** The coverage computed from a trail's configuration, and that it is what the trail admits. */
module TrailCoverage {
  import opened Options
  import opened TrailSelectors

  // ---------- standard selectors ----------

  function SelectorReadWriteCoverage(readWriteType: Option<string>): (bool, bool) {
    match readWriteType.GetOr("")
    case "ReadOnly" => (true, false)
    case "WriteOnly" => (false, true)
    case _ => (true, true)
  }

  predicate HasDataValues(resources: seq<DataResource>) {
    exists i :: 0 <= i < |resources| && |resources[i].values.GetOr([])| > 0
  }

  function SelectorCoverage(s: EventSelector): Coverage {
    var (read, write) := SelectorReadWriteCoverage(s.readWriteType);
    var management := s.includeManagementEvents.GetOr(true);
    Coverage(management && read, management && write, HasDataValues(s.dataResources.GetOr([])))
  }

  function SelectorsCoverage(selectors: seq<EventSelector>): Coverage {
    if selectors == [] then NOTHING
    else Join(SelectorsCoverage(selectors[..|selectors| - 1]),
              SelectorCoverage(selectors[|selectors| - 1]))
  }

  /** An empty declaration stands for the default selector: all management events, no data. */
  function StandardCoverage(selectors: seq<EventSelector>): Coverage {
    if selectors == [] then Coverage(true, true, false) else SelectorsCoverage(selectors)
  }

  method StandardSelectorCoverage(selectors: seq<EventSelector>) returns (coverage: Coverage)
    ensures coverage == StandardCoverage(selectors)
  {
    if |selectors| == 0 {
      return Coverage(true, true, false);
    }
    coverage := NOTHING;
    for i := 0 to |selectors|
      invariant coverage == SelectorsCoverage(selectors[..i])
    {
      ghost var before := coverage;
      var selector := selectors[i];
      assert selectors[..i + 1][..i] == selectors[..i];
      var (read, write) := SelectorReadWriteCoverage(selector.readWriteType);
      if selector.includeManagementEvents.GetOr(true) {
        coverage := coverage.(managementRead := coverage.managementRead || read,
                              managementWrite := coverage.managementWrite || write);
      }
      var resources := selector.dataResources.GetOr([]);
      ghost var management := coverage;
      for j := 0 to |resources|
        invariant coverage == management.(data := before.data || HasDataValues(resources[..j]))
      {
        if |resources[j].values.GetOr([])| > 0 && (read || write) {
          coverage := coverage.(data := true);
        }
        HasDataValuesStep(resources, j);
      }
      assert resources[..|resources|] == resources;
    }
    assert selectors[..|selectors|] == selectors;
  }

  lemma HasDataValuesStep(resources: seq<DataResource>, j: nat)
    requires j < |resources|
    ensures HasDataValues(resources[..j + 1])
            <==> HasDataValues(resources[..j]) || |resources[j].values.GetOr([])| > 0
  {
    var longer, shorter := resources[..j + 1], resources[..j];
    assert longer[j] == resources[j] && forall k :: 0 <= k < j ==> shorter[k] == longer[k];
  }

  /** Some event source is in no finite list of excluded ones. */
  lemma {:induction false} FreshSource(excluded: seq<string>) returns (source: string)
    ensures source !in excluded && source != ""
    ensures forall s :: s in excluded ==> |s| < |source|
  {
    if excluded == [] {
      source := "x";
    } else {
      var longer := FreshSource(excluded[1..]);
      source := longer + excluded[0];
      assert excluded == [excluded[0]] + excluded[1..];
    }
  }

  /** A management event from a source that is not excluded. */
  lemma ManagementEvent(s: EventSelector, readOnly: bool) returns (e: TrailEvent)
    requires s.includeManagementEvents.GetOr(true)
    requires ReadWriteAdmits(ExpandEventSelector(s).readWriteType, readOnly)
    ensures StandardAdmits(ExpandEventSelector(s), e)
    ensures e.category == "Management" && e.readOnly == readOnly
  {
    var source := FreshSource(ExpandEventSelector(s).excludeManagementEventSources);
    e := TrailEvent("Management", readOnly, name => source);
    assert e.Field("eventSource") == source;
  }

  lemma ManagementIsAdmitted(s: EventSelector, readOnly: bool)
    ensures var c := SelectorCoverage(s);
            (if readOnly then c.managementRead else c.managementWrite)
            <==> AdmitsSome(Standard([ExpandEventSelector(s)]), "Management", readOnly)
  {
    var w := ExpandEventSelector(s);
    assert forall e :: Admits(Standard([w]), e) <==> StandardAdmits(w, e) by {
      assert w in [w];
    }
    if s.includeManagementEvents.GetOr(true) && ReadWriteAdmits(w.readWriteType, readOnly) {
      var e := ManagementEvent(s, readOnly);
      assert Admits(Standard([w]), e);
    }
  }

  /** A data resource with a value admits an event on that value. */
  lemma DataEvent(s: EventSelector) returns (e: TrailEvent)
    requires SelectorCoverage(s).data
    ensures StandardAdmits(ExpandEventSelector(s), e) && e.category == "Data"
  {
    var w := ExpandEventSelector(s);
    var resources := s.dataResources.GetOr([]);
    var i :| 0 <= i < |resources| && |resources[i].values.GetOr([])| > 0;
    var r := w.dataResources[i];
    assert r in w.dataResources && r.values[0] in r.values;
    e := TrailEvent("Data", w.readWriteType != "WriteOnly",
                    name => if name == "resources.type" then r.kind else r.values[0]);
  }

  lemma DataNeedsValue(s: EventSelector, e: TrailEvent)
    requires StandardAdmits(ExpandEventSelector(s), e) && e.category == "Data"
    ensures SelectorCoverage(s).data
  {
    var resources, written := s.dataResources.GetOr([]), ExpandEventSelector(s).dataResources;
    var r, v :| r in written && r.kind == e.Field("resources.type") && v in r.values
                && v <= e.Field("resources.ARN");
    var i :| 0 <= i < |resources| && written[i] == r;
    assert |resources[i].values.GetOr([])| > 0;
  }

  lemma DataIsAdmitted(s: EventSelector)
    ensures var stored := Standard([ExpandEventSelector(s)]);
            SelectorCoverage(s).data
            <==> AdmitsSome(stored, "Data", true) || AdmitsSome(stored, "Data", false)
  {
    var w := ExpandEventSelector(s);
    assert forall e :: Admits(Standard([w]), e) <==> StandardAdmits(w, e) by {
      assert w in [w];
    }
    if SelectorCoverage(s).data {
      var e := DataEvent(s);
      assert Admits(Standard([w]), e);
    }
    if e: TrailEvent :| StandardAdmits(w, e) && e.category == "Data" {
      DataNeedsValue(s, e);
    }
  }

  lemma SelectorCoverageIsAdmitted(s: EventSelector)
    ensures SelectorCoverage(s) == CoverageOf(Standard([ExpandEventSelector(s)]))
  {
    ManagementIsAdmitted(s, true);
    ManagementIsAdmitted(s, false);
    DataIsAdmitted(s);
  }

  lemma {:induction false} SelectorsCoverageIsAdmitted(selectors: seq<EventSelector>)
    ensures SelectorsCoverage(selectors) == CoverageOf(Standard(Expanded(selectors)))
  {
    if selectors == [] {
      EmptyAdmitsNothing();
    } else {
      var front, last := selectors[..|selectors| - 1], selectors[|selectors| - 1];
      SelectorsCoverageIsAdmitted(front);
      SelectorCoverageIsAdmitted(last);
      StandardJoin(Expanded(front), ExpandEventSelector(last));
      assert Expanded(selectors) == Expanded(front) + [ExpandEventSelector(last)];
    }
  }

  /** The coverage computed for standard selectors is exactly what the written list admits. */
  lemma StandardCoverageIsExact(selectors: seq<EventSelector>)
    ensures StandardCoverage(selectors) == CoverageOf(Standard(WrittenStandard(selectors)))
  {
    SelectorsCoverageIsAdmitted(selectors);
    if selectors == [] {
      var declared := EventSelector(None, None, Some(true), Some("All"));
      SelectorsCoverageIsAdmitted([declared]);
      assert Expanded([declared]) == [DEFAULT_SELECTOR];
      assert SelectorsCoverage([declared][..0]) == NOTHING;
    }
  }

  // ---------- advanced selectors ----------

  predicate AdvancedFieldAllows(f: AdvancedFieldSelector, value: string) {
    if f.equals.Some? && value !in f.equals.value then false
    else if f.notEquals.Some? && value in f.notEquals.value then false
    else if f.startsWith.Some? && !HasPrefixIn(f.startsWith.value, value) then false
    else if f.notStartsWith.Some? && HasPrefixIn(f.notStartsWith.value, value) then false
    else if f.endsWith.Some? && !HasSuffixIn(f.endsWith.value, value) then false
    else if f.notEndsWith.Some? && HasSuffixIn(f.notEndsWith.value, value) then false
    else true
  }

  predicate HasPrefixIn(candidates: seq<string>, value: string) {
    exists p :: p in candidates && p <= value
  }

  predicate HasSuffixIn(candidates: seq<string>, value: string) {
    exists p :: p in candidates && HasSuffix(value, p)
  }

  predicate AdvancedSelectorAllows(s: AdvancedEventSelector, field: string, value: string) {
    forall f :: f in s.fieldSelectors && f.field == field ==> AdvancedFieldAllows(f, value)
  }

  function AdvancedSelectorFlags(s: AdvancedEventSelector): Coverage {
    var management := AdvancedSelectorAllows(s, "eventCategory", "Management");
    var data := AdvancedSelectorAllows(s, "eventCategory", "Data");
    var read := AdvancedSelectorAllows(s, "readOnly", "true");
    var write := AdvancedSelectorAllows(s, "readOnly", "false");
    Coverage(management && read, management && write, data && (read || write))
  }

  function AdvancedCoverage(selectors: seq<AdvancedEventSelector>): Coverage {
    if selectors == [] then NOTHING
    else Join(AdvancedCoverage(selectors[..|selectors| - 1]),
              AdvancedSelectorFlags(selectors[|selectors| - 1]))
  }

  method AdvancedSelectorCoverage(selectors: seq<AdvancedEventSelector>)
    returns (coverage: Coverage)
    ensures coverage == AdvancedCoverage(selectors)
  {
    coverage := NOTHING;
    for i := 0 to |selectors|
      invariant coverage == AdvancedCoverage(selectors[..i])
    {
      var selector := selectors[i];
      assert selectors[..i + 1][..i] == selectors[..i];
      var management := AdvancedSelectorAllows(selector, "eventCategory", "Management");
      var data := AdvancedSelectorAllows(selector, "eventCategory", "Data");
      var read := AdvancedSelectorAllows(selector, "readOnly", "true");
      var write := AdvancedSelectorAllows(selector, "readOnly", "false");
      coverage := Coverage(
        coverage.managementRead || (management && read),
        coverage.managementWrite || (management && write),
        coverage.data || (data && (read || write)));
    }
    assert selectors[..|selectors|] == selectors;
  }

  lemma OperatorsAgree(f: AdvancedFieldSelector, value: string)
    ensures AdvancedFieldAllows(f, value) <==> OperatorsAdmit(f, value)
  {
  }

  lemma AllowsIsAdmitted(s: AdvancedEventSelector, field: string, value: string)
    ensures AdvancedSelectorAllows(s, field, value) <==> ValueAdmitted(s, field, value)
  {
    forall f ensures AdvancedFieldAllows(f, value) <==> OperatorsAdmit(f, value) {
      OperatorsAgree(f, value);
    }
  }

  /** A value the selector admits for a field, when there is one. */
  ghost function SomeValue(s: AdvancedEventSelector, field: string): string {
    if exists value :: ValueAdmitted(s, field, value)
    then var value :| ValueAdmitted(s, field, value); value
    else ""
  }

  /**
   * A selector admits some event of a class exactly when the two known fields allow the class
   * and its conditions on each other field can be met together.
   */
  lemma AdvancedClassIsAdmitted(s: AdvancedEventSelector, category: string, readOnly: bool)
    ensures AdmitsSome(Advanced([s]), category, readOnly)
            <==> && AdvancedSelectorAllows(s, "eventCategory", category)
                 && AdvancedSelectorAllows(s, "readOnly", ReadOnlyText(readOnly))
                 && Satisfiable(s)
  {
    AllowsIsAdmitted(s, "eventCategory", category);
    AllowsIsAdmitted(s, "readOnly", ReadOnlyText(readOnly));
    assert forall e :: Admits(Advanced([s]), e) <==> AdvancedAdmits(s, e) by {
      assert s in [s];
    }
    if e :| AdvancedAdmits(s, e) && e.category == category && e.readOnly == readOnly {
      EventMeetsConditions(s, e);
    }
    if && ValueAdmitted(s, "eventCategory", category)
       && ValueAdmitted(s, "readOnly", ReadOnlyText(readOnly)) && Satisfiable(s) {
      var e := TrailEvent(category, readOnly, name => SomeValue(s, name));
      assert forall name :: IsOtherField(name) ==> e.Field(name) == SomeValue(s, name);
      assert AdvancedAdmits(s, e);
    }
  }

  lemma EventMeetsConditions(s: AdvancedEventSelector, e: TrailEvent)
    requires AdvancedAdmits(s, e)
    ensures ValueAdmitted(s, "eventCategory", e.category)
    ensures ValueAdmitted(s, "readOnly", ReadOnlyText(e.readOnly))
    ensures Satisfiable(s)
  {
    forall f | f in s.fieldSelectors && IsOtherField(f.field)
      ensures exists value :: ValueAdmitted(s, f.field, value)
    {
      assert ValueAdmitted(s, f.field, e.Field(f.field));
    }
  }

  // ---------- the reckoned coverage of a list against the events it admits ----------

  predicate Within(a: Coverage, b: Coverage) {
    && (a.managementRead ==> b.managementRead)
    && (a.managementWrite ==> b.managementWrite)
    && (a.data ==> b.data)
  }

  /** The selectors that can admit an event at all. */
  ghost function Live(selectors: seq<AdvancedEventSelector>): seq<AdvancedEventSelector> {
    if selectors == [] then []
    else
      var last := selectors[|selectors| - 1];
      Live(selectors[..|selectors| - 1]) + if Satisfiable(last) then [last] else []
  }

  ghost predicate AllSatisfiable(selectors: seq<AdvancedEventSelector>) {
    forall s :: s in selectors ==> Satisfiable(s)
  }

  /** What one selector admits is its flags, or nothing when its conditions contradict. */
  lemma SelectorIsAdmitted(s: AdvancedEventSelector)
    ensures CoverageOf(Advanced([s])) == if Satisfiable(s) then AdvancedSelectorFlags(s) else NOTHING
  {
    AdvancedClassIsAdmitted(s, "Management", true);
    AdvancedClassIsAdmitted(s, "Management", false);
    AdvancedClassIsAdmitted(s, "Data", true);
    AdvancedClassIsAdmitted(s, "Data", false);
  }

  lemma LiveStep(front: seq<AdvancedEventSelector>, last: AdvancedEventSelector)
    ensures AdvancedCoverage(Live(front + [last]))
            == if Satisfiable(last) then Join(AdvancedCoverage(Live(front)), AdvancedSelectorFlags(last))
               else AdvancedCoverage(Live(front))
  {
    var whole := front + [last];
    assert whole[..|whole| - 1] == front && whole[|whole| - 1] == last;
    var live := Live(front) + [last];
    assert live[..|live| - 1] == Live(front) && live[|live| - 1] == last;
    if Satisfiable(last) {
      assert Live(whole) == live;
    } else {
      assert Live(whole) == Live(front);
    }
  }

  /** A list admits exactly what the code computes for those of its selectors that are live. */
  lemma {:induction false} AdvancedCoverageIsExact(selectors: seq<AdvancedEventSelector>)
    ensures CoverageOf(Advanced(selectors)) == AdvancedCoverage(Live(selectors))
  {
    if selectors == [] {
      EmptyAdmitsNothing();
    } else {
      var front, last := selectors[..|selectors| - 1], selectors[|selectors| - 1];
      AdvancedCoverageIsExact(front);
      SelectorIsAdmitted(last);
      AdvancedJoin(front, last);
      assert selectors == front + [last];
      LiveStep(front, last);
    }
  }

  /** For every list: a class of event that is admitted has its flag set. */
  lemma {:induction false} AdvancedCoverageIsSound(selectors: seq<AdvancedEventSelector>)
    ensures Within(CoverageOf(Advanced(selectors)), AdvancedCoverage(selectors))
    ensures AllSatisfiable(selectors) ==>
              CoverageOf(Advanced(selectors)) == AdvancedCoverage(selectors)
  {
    if selectors == [] {
      EmptyAdmitsNothing();
    } else {
      var front, last := selectors[..|selectors| - 1], selectors[|selectors| - 1];
      AdvancedCoverageIsSound(front);
      SelectorIsAdmitted(last);
      AdvancedJoin(front, last);
      assert selectors == front + [last];
    }
  }

  /** The coverage reckoned for a stored list; standard selectors name no other fields. */
  ghost function Reckoned(stored: StoredSelectors): Coverage {
    match stored
    case Standard(_) => CoverageOf(stored)
    case Advanced(selectors) => AdvancedCoverage(selectors)
  }

  /** No selector of the list contradicts itself. */
  ghost predicate Consistent(stored: StoredSelectors) {
    stored.Advanced? ==> AllSatisfiable(stored.advanced)
  }

  /** The stored list without the selectors that contradict themselves. */
  ghost function LiveOf(stored: StoredSelectors): StoredSelectors {
    if stored.Advanced? then Advanced(Live(stored.advanced)) else stored
  }

  /**
   * Every class of event a stored list admits is reckoned with. The list admits exactly what is
   * reckoned for its live selectors, so reckoning is exact if and only if the others add nothing.
   */
  lemma ReckonedIsSound(stored: StoredSelectors)
    ensures Within(CoverageOf(stored), Reckoned(stored))
    ensures CoverageOf(stored) == Reckoned(LiveOf(stored))
    ensures Consistent(stored) ==> CoverageOf(stored) == Reckoned(stored)
  {
    if stored.Advanced? {
      AdvancedCoverageIsSound(stored.advanced);
      AdvancedCoverageIsExact(stored.advanced);
    }
  }
}
