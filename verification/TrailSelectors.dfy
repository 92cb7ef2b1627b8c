/** CloudTrail event selectors: as configured, as written to a trail, and the events they admit. */
module TrailSelectors {
  import opened Options

  // ---------- configured and written selectors ----------

  datatype DataResource = DataResource(kind: string, values: Option<seq<string>>)

  datatype EventSelector = EventSelector(
    dataResources: Option<seq<DataResource>>,
    excludeManagementEventSources: Option<seq<string>>,
    includeManagementEvents: Option<bool>,
    readWriteType: Option<string>)

  datatype AdvancedFieldSelector = AdvancedFieldSelector(
    field: string,
    equals: Option<seq<string>>, notEquals: Option<seq<string>>,
    startsWith: Option<seq<string>>, notStartsWith: Option<seq<string>>,
    endsWith: Option<seq<string>>, notEndsWith: Option<seq<string>>)

  datatype AdvancedEventSelector = AdvancedEventSelector(
    name: Option<string>, fieldSelectors: seq<AdvancedFieldSelector>)

  datatype WrittenDataResource = WrittenDataResource(kind: string, values: seq<string>)

  datatype WrittenEventSelector = WrittenEventSelector(
    dataResources: seq<WrittenDataResource>,
    excludeManagementEventSources: seq<string>,
    includeManagementEvents: bool,
    readWriteType: string)

  /** The selector list a trail holds: standard or advanced, never both. */
  datatype StoredSelectors =
    | Standard(selectors: seq<WrittenEventSelector>)
    | Advanced(advanced: seq<AdvancedEventSelector>)

  function ExpandDataResource(d: DataResource): WrittenDataResource {
    WrittenDataResource(d.kind, d.values.GetOr([]))
  }

  function ExpandEventSelector(s: EventSelector): WrittenEventSelector {
    var resources := s.dataResources.GetOr([]);
    WrittenEventSelector(
      seq(|resources|, i requires 0 <= i < |resources| => ExpandDataResource(resources[i])),
      s.excludeManagementEventSources.GetOr([]),
      s.includeManagementEvents.GetOr(true),
      s.readWriteType.GetOr("All"))
  }

  function Expanded(selectors: seq<EventSelector>): seq<WrittenEventSelector> {
    seq(|selectors|, i requires 0 <= i < |selectors| => ExpandEventSelector(selectors[i]))
  }

  /** What is written holds each declared member, and the documented default of an absent one. */
  ghost predicate Carries(w: WrittenEventSelector, s: EventSelector) {
    && (s.includeManagementEvents == Some(false) <==> !w.includeManagementEvents)
    && (if s.readWriteType.Some? then s.readWriteType == Some(w.readWriteType)
        else w.readWriteType == "All")
    && (if s.excludeManagementEventSources.Some?
        then s.excludeManagementEventSources == Some(w.excludeManagementEventSources)
        else w.excludeManagementEventSources == [])
    && (if s.dataResources.Some? then CarriesResources(w.dataResources, s.dataResources.value)
        else w.dataResources == [])
  }

  ghost predicate CarriesResources(w: seq<WrittenDataResource>, declared: seq<DataResource>) {
    && |w| == |declared|
    && forall i :: 0 <= i < |w| ==>
         && w[i].kind == declared[i].kind
         && (if declared[i].values.Some? then declared[i].values == Some(w[i].values)
             else w[i].values == [])
  }

  method ExpandEventSelectors(input: seq<EventSelector>) returns (out: seq<WrittenEventSelector>)
    ensures out == Expanded(input)
    ensures |out| == |input| && forall i :: 0 <= i < |input| ==> Carries(out[i], input[i])
  {
    out := [];
    for i := 0 to |input|
      invariant |out| == i
      invariant forall k :: 0 <= k < i ==> out[k] == ExpandEventSelector(input[k])
    {
      out := out + [ExpandEventSelector(input[i])];
    }
  }

  const DEFAULT_SELECTOR := WrittenEventSelector([], [], true, "All")

  /** The list sent for declared standard selectors; an empty declaration becomes the default. */
  function WrittenStandard(selectors: seq<EventSelector>): seq<WrittenEventSelector> {
    if selectors == [] then [DEFAULT_SELECTOR] else Expanded(selectors)
  }

  // ---------- what a stored list admits ----------

  /** Whether a declared selector lets an event through, read off its members and their defaults. */
  ghost predicate DeclaredAdmits(s: EventSelector, e: TrailEvent) {
    && (s.readWriteType == Some("ReadOnly") ==> e.readOnly)
    && (s.readWriteType == Some("WriteOnly") ==> !e.readOnly)
    && (|| (&& e.category == "Management" && s.includeManagementEvents != Some(false)
            && (s.excludeManagementEventSources.Some? ==>
                  e.Field("eventSource") !in s.excludeManagementEventSources.value))
        || (&& e.category == "Data" && s.dataResources.Some?
            && exists d :: d in s.dataResources.value && ResourceAdmits(d, e)))
  }

  ghost predicate ResourceAdmits(d: DataResource, e: TrailEvent) {
    && d.kind == e.Field("resources.type") && d.values.Some?
    && exists v :: v in d.values.value && v <= e.Field("resources.ARN")
  }

  /** Event by event, the written selector lets through what was declared. */
  lemma WrittenSelectorAdmits(s: EventSelector, e: TrailEvent)
    ensures StandardAdmits(ExpandEventSelector(s), e) <==> DeclaredAdmits(s, e)
  {
    var resources, written := s.dataResources.GetOr([]), ExpandEventSelector(s).dataResources;
    if d :| d in resources && ResourceAdmits(d, e) {
      var i :| 0 <= i < |resources| && resources[i] == d;
      assert written[i] in written;
    }
    if r :| r in written && r.kind == e.Field("resources.type")
            && exists v :: v in r.values && v <= e.Field("resources.ARN") {
      var i :| 0 <= i < |written| && written[i] == r;
      assert ResourceAdmits(resources[i], e);
    }
  }

  /** The same of the whole list; an empty declaration lets all management events through. */
  lemma WrittenListAdmits(selectors: seq<EventSelector>, e: TrailEvent)
    ensures Admits(Standard(WrittenStandard(selectors)), e)
            <==> if selectors == [] then e.category == "Management"
                 else exists s :: s in selectors && DeclaredAdmits(s, e)
  {
    var written := WrittenStandard(selectors);
    if selectors == [] {
      assert written[0] in written;
    } else {
      forall i | 0 <= i < |selectors|
        ensures StandardAdmits(written[i], e) <==> DeclaredAdmits(selectors[i], e)
      {
        WrittenSelectorAdmits(selectors[i], e);
      }
      if s :| s in selectors && DeclaredAdmits(s, e) {
        var i :| 0 <= i < |selectors| && selectors[i] == s;
        assert written[i] in written;
      }
    }
  }

  /** An event: its category, whether it only reads, and one value for each other field. */
  datatype TrailEvent = TrailEvent(category: string, readOnly: bool, fields: string -> string)
  {
    function Field(name: string): string {
      if name == "eventCategory" then category
      else if name == "readOnly" then ReadOnlyText(readOnly)
      else fields(name)
    }
  }

  /** A field whose value the class of an event does not fix. */
  predicate IsOtherField(name: string) {
    name != "eventCategory" && name != "readOnly"
  }

  predicate ReadWriteAdmits(readWriteType: string, readOnly: bool) {
    && (readWriteType == "ReadOnly" ==> readOnly)
    && (readWriteType == "WriteOnly" ==> !readOnly)
  }

  ghost predicate StandardAdmits(s: WrittenEventSelector, e: TrailEvent) {
    && ReadWriteAdmits(s.readWriteType, e.readOnly)
    && (|| (&& e.category == "Management" && s.includeManagementEvents
            && e.Field("eventSource") !in s.excludeManagementEventSources)
        || (&& e.category == "Data"
            && exists r, v :: r in s.dataResources && r.kind == e.Field("resources.type")
                              && v in r.values && v <= e.Field("resources.ARN")))
  }

  function ReadOnlyText(readOnly: bool): string {
    if readOnly then "true" else "false"
  }

  /** Every operator present must hold; its values are alternatives. */
  ghost predicate OperatorsAdmit(f: AdvancedFieldSelector, value: string) {
    && (f.equals.Some? ==> value in f.equals.value)
    && (f.notEquals.Some? ==> value !in f.notEquals.value)
    && (f.startsWith.Some? ==> exists p :: p in f.startsWith.value && p <= value)
    && (f.notStartsWith.Some? ==> forall p :: p in f.notStartsWith.value ==> !(p <= value))
    && (f.endsWith.Some? ==> exists p :: p in f.endsWith.value && HasSuffix(value, p))
    && (f.notEndsWith.Some? ==> forall p :: p in f.notEndsWith.value ==> !HasSuffix(value, p))
  }

  predicate HasSuffix(s: string, suffix: string) {
    |suffix| <= |s| && s[|s| - |suffix|..] == suffix
  }

  /** Every field selector of s on this field admits the value. */
  ghost predicate ValueAdmitted(s: AdvancedEventSelector, field: string, value: string) {
    forall f :: f in s.fieldSelectors && f.field == field ==> OperatorsAdmit(f, value)
  }

  ghost predicate AdvancedAdmits(s: AdvancedEventSelector, e: TrailEvent) {
    forall f :: f in s.fieldSelectors ==> ValueAdmitted(s, f.field, e.Field(f.field))
  }

  /** Each other field the selector names has some value that all its selectors on it admit. */
  ghost predicate Satisfiable(s: AdvancedEventSelector) {
    forall f :: f in s.fieldSelectors && IsOtherField(f.field) ==>
      exists value :: ValueAdmitted(s, f.field, value)
  }

  ghost predicate Admits(stored: StoredSelectors, e: TrailEvent) {
    match stored
    case Standard(selectors) => exists s :: s in selectors && StandardAdmits(s, e)
    case Advanced(selectors) => exists s :: s in selectors && AdvancedAdmits(s, e)
  }

  datatype Coverage = Coverage(managementRead: bool, managementWrite: bool, data: bool)

  ghost predicate AdmitsSome(stored: StoredSelectors, category: string, readOnly: bool) {
    exists e :: Admits(stored, e) && e.category == category && e.readOnly == readOnly
  }

  /** The classes of event a stored list lets through. */
  ghost function CoverageOf(stored: StoredSelectors): Coverage {
    Coverage(
      AdmitsSome(stored, "Management", true),
      AdmitsSome(stored, "Management", false),
      AdmitsSome(stored, "Data", true) || AdmitsSome(stored, "Data", false))
  }

  function Join(a: Coverage, b: Coverage): Coverage {
    Coverage(a.managementRead || b.managementRead,
             a.managementWrite || b.managementWrite,
             a.data || b.data)
  }

  const NOTHING := Coverage(false, false, false)

  lemma EmptyAdmitsNothing()
    ensures CoverageOf(Standard([])) == NOTHING == CoverageOf(Advanced([]))
  {
  }

  lemma StandardJoin(front: seq<WrittenEventSelector>, last: WrittenEventSelector)
    ensures CoverageOf(Standard(front + [last]))
            == Join(CoverageOf(Standard(front)), CoverageOf(Standard([last])))
  {
    forall e ensures Admits(Standard(front + [last]), e)
                     <==> Admits(Standard(front), e) || Admits(Standard([last]), e) {
      if s :| s in front && StandardAdmits(s, e) { assert s in front + [last]; }
      if StandardAdmits(last, e) { assert last in front + [last] && last in [last]; }
    }
    ClassesJoin(Standard(front + [last]), Standard(front), Standard([last]));
  }

  lemma AdvancedJoin(front: seq<AdvancedEventSelector>, last: AdvancedEventSelector)
    ensures CoverageOf(Advanced(front + [last]))
            == Join(CoverageOf(Advanced(front)), CoverageOf(Advanced([last])))
  {
    forall e ensures Admits(Advanced(front + [last]), e)
                     <==> Admits(Advanced(front), e) || Admits(Advanced([last]), e) {
      if s :| s in front && AdvancedAdmits(s, e) { assert s in front + [last]; }
      if AdvancedAdmits(last, e) { assert last in front + [last] && last in [last]; }
    }
    ClassesJoin(Advanced(front + [last]), Advanced(front), Advanced([last]));
  }

  lemma SomeJoin(
    whole: StoredSelectors, a: StoredSelectors, b: StoredSelectors, category: string,
    readOnly: bool)
    requires forall e :: Admits(whole, e) <==> Admits(a, e) || Admits(b, e)
    ensures AdmitsSome(whole, category, readOnly)
            <==> AdmitsSome(a, category, readOnly) || AdmitsSome(b, category, readOnly)
  {
  }

  lemma ClassesJoin(whole: StoredSelectors, a: StoredSelectors, b: StoredSelectors)
    requires forall e :: Admits(whole, e) <==> Admits(a, e) || Admits(b, e)
    ensures CoverageOf(whole) == Join(CoverageOf(a), CoverageOf(b))
  {
    SomeJoin(whole, a, b, "Management", true);
    SomeJoin(whole, a, b, "Management", false);
    SomeJoin(whole, a, b, "Data", true);
    SomeJoin(whole, a, b, "Data", false);
  }
}
