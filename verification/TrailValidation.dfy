/** Validation of advanced event selectors: a valid selector is about exactly one category. */
module TrailValidation {
  import opened Options
  import opened StringSets
  import opened StringOrder
  import opened TrailSelectors
  import opened TrailCoverage

  /** The fields a selector may name. */
  ghost const FIELDS := {
    "errorCode", "eventCategory", "eventName", "eventSource", "eventType", "readOnly",
    "resources.ARN", "resources.type", "sessionCredentialFromConsole", "userIdentity.arn",
    "vpcEndpointId"}

  ghost const CATEGORIES := {"Management", "Data", "NetworkActivity"}

  ghost predicate All<T(!new)>(s: seq<T>, p: T -> bool) {
    forall i :: 0 <= i < |s| ==> p(s[i])
  }

  lemma AllStep<T(!new)>(s: seq<T>, i: nat, p: T -> bool)
    requires i < |s|
    ensures All(s[..i + 1], p) <==> All(s[..i], p) && p(s[i])
    ensures All(s, p) ==> All(s[..i + 1], p)
  {
    var longer, shorter := s[..i + 1], s[..i];
    assert longer[i] == s[i] && forall k :: 0 <= k < i ==> longer[k] == shorter[k];
    assert forall k :: 0 <= k <= i ==> longer[k] == s[k];
  }

  // ---------- the operators of one field ----------

  datatype Operator = Operator(name: string, values: Option<seq<string>>)

  function Operators(f: AdvancedFieldSelector): seq<Operator> {
    [Operator("equals", f.equals), Operator("not-equals", f.notEquals),
     Operator("starts-with", f.startsWith), Operator("not-starts-with", f.notStartsWith),
     Operator("ends-with", f.endsWith), Operator("not-ends-with", f.notEndsWith)]
  }

  /** Whether every operator present is one of these. */
  predicate UsesOnly(f: AdvancedFieldSelector, allowed: set<string>) {
    forall o :: o in Operators(f) && o.values.Some? ==> o.name in allowed
  }

  ghost predicate OnlyEquals(f: AdvancedFieldSelector) {
    f.notEquals.None? && OnlyEqualities(f)
  }

  ghost predicate OnlyEqualities(f: AdvancedFieldSelector) {
    f.startsWith.None? && f.notStartsWith.None? && f.endsWith.None? && f.notEndsWith.None?
  }

  /** The names of the operators are those of the members. */
  lemma UsesOnlyMeaning(f: AdvancedFieldSelector)
    ensures UsesOnly(f, {"equals"}) <==> OnlyEquals(f)
    ensures UsesOnly(f, {"equals", "not-equals"}) <==> OnlyEqualities(f)
  {
    var o := Operators(f);
    assert o[0] in o && o[1] in o && o[2] in o && o[3] in o && o[4] in o && o[5] in o;
  }

  /** A list of operator values: distinct, not empty, each of one to 2048 characters. */
  ghost predicate ValidList(values: Option<seq<string>>) {
    values.Some? ==>
      && values.value != [] && Distinct(values.value)
      && forall v :: v in values.value ==> 1 <= |v| <= 2048
  }

  ghost predicate ValidValues(o: Operator) {
    ValidList(o.values)
  }

  function CountValues(operators: seq<Operator>): nat {
    if operators == [] then 0
    else CountValues(operators[..|operators| - 1]) + |operators[|operators| - 1].values.GetOr([])|
  }

  ghost predicate ValidOperators(operators: seq<Operator>) {
    && (exists o :: o in operators && o.values.Some?)
    && (forall o :: o in operators ==> ValidValues(o))
  }

  /** The same of one field selector: some operator is there, and each list is valid. */
  ghost predicate ValidMembers(f: AdvancedFieldSelector) {
    && !(f.equals.None? && f.notEquals.None? && OnlyEqualities(f))
    && ValidList(f.equals) && ValidList(f.notEquals) && ValidList(f.startsWith)
    && ValidList(f.notStartsWith) && ValidList(f.endsWith) && ValidList(f.notEndsWith)
  }

  ghost function MemberCount(f: AdvancedFieldSelector): nat {
    ListCount(f.equals) + ListCount(f.notEquals) + ListCount(f.startsWith)
    + ListCount(f.notStartsWith) + ListCount(f.endsWith) + ListCount(f.notEndsWith)
  }

  ghost function ListCount(values: Option<seq<string>>): nat {
    if values.None? then 0 else |values.value|
  }

  lemma OperatorsAreMembers(f: AdvancedFieldSelector)
    ensures ValidOperators(Operators(f)) <==> ValidMembers(f)
    ensures CountValues(Operators(f)) == MemberCount(f)
  {
    SixAreValid(Operators(f));
    CountSix(Operators(f));
  }

  lemma SixAreValid(o: seq<Operator>)
    requires |o| == 6
    ensures ValidOperators(o)
            <==> && (|| o[0].values.Some? || o[1].values.Some? || o[2].values.Some?
                     || o[3].values.Some? || o[4].values.Some? || o[5].values.Some?)
                 && ValidValues(o[0]) && ValidValues(o[1]) && ValidValues(o[2])
                 && ValidValues(o[3]) && ValidValues(o[4]) && ValidValues(o[5])
  {
    assert o[0] in o && o[1] in o && o[2] in o && o[3] in o && o[4] in o && o[5] in o;
  }

  lemma CountSix(o: seq<Operator>)
    requires |o| == 6
    ensures CountValues(o)
            == ListCount(o[0].values) + ListCount(o[1].values) + ListCount(o[2].values)
               + ListCount(o[3].values) + ListCount(o[4].values) + ListCount(o[5].values)
  {
    assert o[..6] == o && CountValues(o[..0]) == 0;
    CountStep(o, 5);
    CountStep(o, 4);
    CountStep(o, 3);
    CountStep(o, 2);
    CountStep(o, 1);
    CountStep(o, 0);
  }

  lemma CountStep(o: seq<Operator>, i: nat)
    requires i < |o|
    ensures CountValues(o[..i + 1]) == CountValues(o[..i]) + ListCount(o[i].values)
  {
    assert o[..i + 1][..i] == o[..i];
  }

  method UniqueStrings(values: seq<string>) returns (unique: bool)
    ensures unique <==> Distinct(values)
  {
    var seen: set<string> := {};
    for i := 0 to |values|
      invariant seen == Elements(values[..i]) && Distinct(values[..i])
    {
      ElementsAppend(values[..i], values[i]);
      assert values[..i + 1] == values[..i] + [values[i]];
      if values[i] in seen {
        assert !Distinct(values[..i + 1]);
        return false;
      }
      seen := seen + {values[i]};
    }
    assert values[..|values|] == values;
    return true;
  }

  method ValidateAdvancedFieldValues(operators: seq<Operator>) returns (count: nat, ok: bool)
    ensures ok <==> ValidOperators(operators)
    ensures ok ==> count == CountValues(operators)
  {
    var hasOperator := false;
    count := 0;
    for i := 0 to |operators|
      invariant hasOperator <==> exists k :: 0 <= k < i && operators[k].values.Some?
      invariant forall k :: 0 <= k < i ==> ValidValues(operators[k])
      invariant count == CountValues(operators[..i])
    {
      var operator := operators[i];
      assert operators[..i + 1][..i] == operators[..i];
      if operator.values.None? {
        continue;
      }
      hasOperator := true;
      var ok' := CheckValues(operator.values.value);
      if !ok' {
        assert operator in operators && !ValidValues(operator);
        return 0, false;
      }
      count := count + |operator.values.value|;
    }
    assert operators[..|operators|] == operators;
    ok := hasOperator;
  }

  method CheckValues(values: seq<string>) returns (ok: bool)
    ensures ok <==> ValidValues(Operator("", Some(values)))
  {
    if |values| == 0 {
      return false;
    }
    ok := UniqueStrings(values);
    if !ok {
      return;
    }
    for i := 0 to |values|
      invariant forall k :: 0 <= k < i ==> 1 <= |values[k]| <= 2048
    {
      if |values[i]| < 1 || |values[i]| > 2048 {
        assert values[i] in values;
        return false;
      }
    }
  }

  // ---------- one selector ----------

  predicate IsCategoryField(f: AdvancedFieldSelector) {
    f.field == "eventCategory"
  }

  /** Exactly one field selector fixes the category, by one equals value. */
  ghost predicate HasCategory(s: AdvancedEventSelector, category: string) {
    exists i :: 0 <= i < |s.fieldSelectors| && CategoryAt(s, i, category)
  }

  ghost predicate CategoryAt(s: AdvancedEventSelector, i: nat, category: string)
    requires i < |s.fieldSelectors|
  {
    && category in CATEGORIES
    && IsCategoryField(s.fieldSelectors[i])
    && OnlyEquals(s.fieldSelectors[i])
    && s.fieldSelectors[i].equals == Some([category])
    && forall k :: 0 <= k < |s.fieldSelectors| && k != i ==> !IsCategoryField(s.fieldSelectors[k])
  }

  method AdvancedSelectorCategory(s: AdvancedEventSelector) returns (category: Option<string>)
    ensures category.Some? ==> HasCategory(s, category.value)
    ensures category.None? ==> forall c :: !HasCategory(s, c)
  {
    var fields := s.fieldSelectors;
    var found: Option<nat> := None;
    for i := 0 to |fields|
      invariant found.None? ==> forall k :: 0 <= k < i ==> !IsCategoryField(fields[k])
      invariant found.Some? ==>
                  && found.value < i && IsCategoryField(fields[found.value])
                  && forall k :: 0 <= k < i && k != found.value ==> !IsCategoryField(fields[k])
    {
      if fields[i].field != "eventCategory" {
        continue;
      }
      if found.Some? {
        assert IsCategoryField(fields[i]) && IsCategoryField(fields[found.value]);
        return None;
      }
      found := Some(i);
    }
    if found.None? {
      return None;
    }
    var field := fields[found.value];
    UsesOnlyMeaning(field);
    if !UsesOnly(field, {"equals"}) {
      return None;
    }
    var values := field.equals.GetOr([]);
    if |values| != 1 {
      return None;
    }
    if values[0] !in ["Management", "Data", "NetworkActivity"] {
      return None;
    }
    assert values == [values[0]];
    assert CategoryAt(s, found.value, values[0]);
    return Some(values[0]);
  }

  predicate FieldAllowed(category: string, field: string) {
    match category
    case "Management" => field in ["eventCategory", "eventSource", "readOnly"]
    case "Data" =>
      field in ["eventCategory", "resources.type", "resources.ARN", "eventName", "eventSource",
                "eventType", "readOnly", "sessionCredentialFromConsole", "userIdentity.arn"]
    case "NetworkActivity" =>
      field in ["eventCategory", "eventSource", "eventName", "errorCode", "vpcEndpointId"]
    case _ => false
  }

  /** The categories in which a field may be named. */
  ghost function CategoriesOf(field: string): set<string> {
    if field in {"eventCategory", "eventSource"} then CATEGORIES
    else if field == "readOnly" then {"Management", "Data"}
    else if field == "eventName" then {"Data", "NetworkActivity"}
    else if field in {"errorCode", "vpcEndpointId"} then {"NetworkActivity"}
    else if field in FIELDS then {"Data"}
    else {}
  }

  /** The operators a field may use; some fields take equals alone, or equals and its negation. */
  ghost predicate OperatorsFit(category: string, f: AdvancedFieldSelector) {
    && (f.field in {"eventCategory", "readOnly", "resources.type"} ==> OnlyEquals(f))
    && (f.field == "sessionCredentialFromConsole" ==> OnlyEqualities(f))
    && (category == "NetworkActivity" && f.field in {"eventSource", "errorCode"} ==> OnlyEquals(f))
  }

  /** Exactly one resource type, and no error code but the one for refused endpoint access. */
  ghost predicate ValuesFit(category: string, f: AdvancedFieldSelector) {
    && (f.field == "resources.type" ==> ListCount(f.equals) == 1)
    && (category == "NetworkActivity" && f.field == "errorCode" && f.equals.Some? ==>
          forall v :: v in f.equals.value ==> v == "VpceAccessDenied")
  }

  method ValidateAdvancedFieldOperators(f: AdvancedFieldSelector, category: string)
    returns (ok: bool)
    ensures ok <==> OperatorsFit(category, f) && ValuesFit(category, f)
  {
    UsesOnlyMeaning(f);
    match f.field {
      case "eventCategory" =>
        ok := UsesOnly(f, {"equals"});
      case "readOnly" =>
        ok := UsesOnly(f, {"equals"});
      case "resources.type" =>
        ok := UsesOnly(f, {"equals"}) && |f.equals.GetOr([])| == 1;
      case "sessionCredentialFromConsole" =>
        ok := UsesOnly(f, {"equals", "not-equals"});
      case "eventSource" =>
        ok := category != "NetworkActivity" || UsesOnly(f, {"equals"});
      case "errorCode" =>
        ok := category != "NetworkActivity" || UsesOnly(f, {"equals"});
      case _ =>
        ok := true;
    }
    if ok && category == "NetworkActivity" && f.field == "errorCode" {
      ok := forall v :: v in f.equals.GetOr([]) ==> v == "VpceAccessDenied";
    }
  }

  ghost function Occurrences(fields: seq<AdvancedFieldSelector>, name: string): nat {
    if fields == [] then 0
    else Occurrences(fields[..|fields| - 1], name)
         + if fields[|fields| - 1].field == name then 1 else 0
  }

  ghost predicate FieldFits(category: string, f: AdvancedFieldSelector) {
    && category in CategoriesOf(f.field)
    && OperatorsFit(category, f) && ValuesFit(category, f)
  }

  lemma AllowedIsByField(category: string, field: string)
    ensures FieldAllowed(category, field) <==> category in CategoriesOf(field)
  {
  }

  ghost function FitsIn(category: string): AdvancedFieldSelector -> bool {
    f => FieldFits(category, f)
  }

  ghost predicate ValidFieldsFor(s: AdvancedEventSelector, category: string) {
    && All(s.fieldSelectors, FitsIn(category))
    && (category == "Data" ==> Occurrences(s.fieldSelectors, "resources.type") == 1)
    && (category == "NetworkActivity" ==> Occurrences(s.fieldSelectors, "eventSource") > 0)
  }

  method ValidateAdvancedSelectorFields(s: AdvancedEventSelector, category: string)
    returns (ok: bool)
    ensures ok <==> ValidFieldsFor(s, category)
  {
    var fields := s.fieldSelectors;
    var resourceTypes, eventSources := 0, 0;
    for i := 0 to |fields|
      invariant All(fields[..i], FitsIn(category))
      invariant resourceTypes == Occurrences(fields[..i], "resources.type")
      invariant eventSources == Occurrences(fields[..i], "eventSource")
    {
      var f := fields[i];
      AllStep(fields, i, FitsIn(category));
      assert fields[..i + 1][..i] == fields[..i];
      AllowedIsByField(category, f.field);
      if !FieldAllowed(category, f.field) {
        return false;
      }
      if f.field == "resources.type" {
        resourceTypes := resourceTypes + 1;
      }
      if f.field == "eventSource" {
        eventSources := eventSources + 1;
      }
      var fits := ValidateAdvancedFieldOperators(f, category);
      if !fits {
        return false;
      }
    }
    assert fields[..|fields|] == fields;
    if category == "Data" && resourceTypes != 1 {
      return false;
    }
    if category == "NetworkActivity" && eventSources == 0 {
      return false;
    }
    return true;
  }

  // ---------- the whole list ----------

  ghost function FieldsValueCount(fields: seq<AdvancedFieldSelector>): nat {
    if fields == [] then 0
    else FieldsValueCount(fields[..|fields| - 1]) + MemberCount(fields[|fields| - 1])
  }

  ghost function ValueCount(selectors: seq<AdvancedEventSelector>): nat {
    if selectors == [] then 0
    else ValueCount(selectors[..|selectors| - 1])
         + FieldsValueCount(selectors[|selectors| - 1].fieldSelectors)
  }

  ghost predicate ValidField(f: AdvancedFieldSelector) {
    f.field in FIELDS && ValidMembers(f)
  }

  ghost predicate ValidSelector(s: AdvancedEventSelector) {
    && s.fieldSelectors != []
    && All(s.fieldSelectors, ValidField)
    && exists category :: HasCategory(s, category) && ValidFieldsFor(s, category)
  }

  lemma {:induction false} FieldsValueCountGrows(fields: seq<AdvancedFieldSelector>, i: nat)
    requires i <= |fields|
    ensures FieldsValueCount(fields[..i]) <= FieldsValueCount(fields)
  {
    if i < |fields| {
      FieldsValueCountGrows(fields[..|fields| - 1], i);
      assert fields[..|fields| - 1][..i] == fields[..i];
    } else {
      assert fields[..i] == fields;
    }
  }

  lemma {:induction false} ValueCountGrows(selectors: seq<AdvancedEventSelector>, i: nat)
    requires i <= |selectors|
    ensures ValueCount(selectors[..i]) <= ValueCount(selectors)
  {
    if i < |selectors| {
      ValueCountGrows(selectors[..|selectors| - 1], i);
      assert selectors[..|selectors| - 1][..i] == selectors[..i];
    } else {
      assert selectors[..i] == selectors;
    }
  }

  /** The loop over the fields of one selector; total is the running count of operator values. */
  method ValidateFields(fields: seq<AdvancedFieldSelector>, total: nat)
    returns (total': nat, ok: bool)
    requires total <= 500
    ensures ok <==> All(fields, ValidField) && total + FieldsValueCount(fields) <= 500
    ensures ok ==> total' == total + FieldsValueCount(fields)
  {
    total' := total;
    for i := 0 to |fields|
      invariant All(fields[..i], ValidField)
      invariant total' == total + FieldsValueCount(fields[..i]) <= 500
    {
      assert fields[..i + 1][..i] == fields[..i];
      AllStep(fields, i, ValidField);
      var valid := ValidateField(fields[i]);
      if valid.None? {
        return total', false;
      }
      total' := total' + valid.value;
      if total' > 500 {
        FieldsValueCountGrows(fields, i + 1);
        return total', false;
      }
    }
    assert fields[..|fields|] == fields;
    ok := true;
  }

  method ValidateField(f: AdvancedFieldSelector) returns (count: Option<nat>)
    ensures count.Some? <==> ValidField(f)
    ensures count.Some? ==> count.value == MemberCount(f)
  {
    if f.field !in [
      "errorCode", "eventCategory", "eventName", "eventSource", "eventType", "readOnly",
      "resources.ARN", "resources.type", "sessionCredentialFromConsole", "userIdentity.arn",
      "vpcEndpointId"] {
      return None;
    }
    OperatorsAreMembers(f);
    var n, ok := ValidateAdvancedFieldValues(Operators(f));
    count := if ok then Some(n) else None;
  }

  /** One turn of the outer loop. */
  method ValidateSelector(s: AdvancedEventSelector, total: nat) returns (total': nat, ok: bool)
    requires total <= 500
    ensures ok <==> ValidSelector(s) && total + FieldsValueCount(s.fieldSelectors) <= 500
    ensures ok ==> total' == total + FieldsValueCount(s.fieldSelectors)
  {
    if |s.fieldSelectors| == 0 {
      return total, false;
    }
    total', ok := ValidateFields(s.fieldSelectors, total);
    if !ok {
      return;
    }
    var category := AdvancedSelectorCategory(s);
    if category.None? {
      return total', false;
    }
    ok := ValidateAdvancedSelectorFields(s, category.value);
    CategoryIsUnique(s, category.value);
  }

  lemma CategoryIsUnique(s: AdvancedEventSelector, category: string)
    requires HasCategory(s, category)
    ensures forall c :: HasCategory(s, c) ==> c == category
  {
  }

  /** The first i selectors are valid and hold total operator values, at most 500. */
  ghost predicate AcceptedSoFar(selectors: seq<AdvancedEventSelector>, i: nat, total: nat)
    requires i <= |selectors|
  {
    All(selectors[..i], ValidSelector) && total == ValueCount(selectors[..i]) <= 500
  }

  ghost predicate AcceptedList(selectors: seq<AdvancedEventSelector>) {
    All(selectors, ValidSelector) && ValueCount(selectors) <= 500
  }

  lemma NextIsAccepted(selectors: seq<AdvancedEventSelector>, i: nat, total: nat)
    requires i < |selectors| && AcceptedSoFar(selectors, i, total)
    ensures var total' := total + FieldsValueCount(selectors[i].fieldSelectors);
            if ValidSelector(selectors[i]) && total' <= 500
            then AcceptedSoFar(selectors, i + 1, total')
            else !AcceptedList(selectors)
  {
    assert selectors[..i + 1][..i] == selectors[..i];
    AllStep(selectors, i, ValidSelector);
    ValueCountGrows(selectors, i + 1);
  }

  /** A list is accepted as stated, and then each selector lets through one category of events. */
  method ValidateAdvancedEventSelectors(selectors: seq<AdvancedEventSelector>) returns (ok: bool)
    ensures ok <==> AcceptedList(selectors)
    ensures ok ==> All(selectors, AdmitsOneCategory)
  {
    var total := 0;
    for i := 0 to |selectors|
      invariant AcceptedSoFar(selectors, i, total)
    {
      NextIsAccepted(selectors, i, total);
      total, ok := ValidateSelector(selectors[i], total);
      if !ok {
        return;
      }
    }
    assert selectors[..|selectors|] == selectors;
    AcceptedSelectorsAdmitOneCategory(selectors);
    return true;
  }

  // ---------- what an accepted selector lets through ----------

  ghost predicate AdmitsOnly(s: AdvancedEventSelector, category: string) {
    category in CATEGORIES && forall e :: AdvancedAdmits(s, e) ==> e.category == category
  }

  ghost predicate AdmitsOneCategory(s: AdvancedEventSelector) {
    exists category :: AdmitsOnly(s, category)
  }

  /**
   * The events a valid selector lets through are all of one category. It feeds the coverage of
   * that category alone, and neither coverage when the category is network activity.
   */
  lemma ValidSelectorAdmitsOneCategory(s: AdvancedEventSelector) returns (category: string)
    requires ValidSelector(s)
    ensures AdmitsOnly(s, category)
    ensures var c := AdvancedSelectorFlags(s);
            && (c.data ==> category == "Data")
            && (c.managementRead || c.managementWrite ==> category == "Management")
            && (category == "NetworkActivity" ==> c == NOTHING == CoverageOf(Advanced([s])))
  {
    category :| HasCategory(s, category);
    CategoryDecides(s, category);
    forall e | AdvancedAdmits(s, e) ensures e.category == category {
      EventMeetsConditions(s, e);
      AllowsIsAdmitted(s, "eventCategory", e.category);
    }
    SelectorIsAdmitted(s);
    CategoriesDiffer();
  }

  lemma CategoriesDiffer()
    ensures "Management" != "Data" && "Management" != "NetworkActivity" && "Data" != "NetworkActivity"
  {
    assert "Management"[0] != "Data"[0] && "Management"[0] != "NetworkActivity"[0];
  }

  lemma AcceptedSelectorsAdmitOneCategory(selectors: seq<AdvancedEventSelector>)
    requires All(selectors, ValidSelector)
    ensures All(selectors, AdmitsOneCategory)
  {
    forall i | 0 <= i < |selectors| ensures AdmitsOneCategory(selectors[i]) {
      var category := ValidSelectorAdmitsOneCategory(selectors[i]);
    }
  }

  /** In an accepted list, data and management coverage come from different selectors. */
  lemma DataAndManagementComeApart(selectors: seq<AdvancedEventSelector>, i: nat, j: nat)
    requires All(selectors, ValidSelector) && i < |selectors| && j < |selectors|
    requires AdvancedSelectorFlags(selectors[i]).data
    requires var c := AdvancedSelectorFlags(selectors[j]); c.managementRead || c.managementWrite
    ensures i != j
  {
    var a := ValidSelectorAdmitsOneCategory(selectors[i]);
    CategoriesDiffer();
  }

  lemma CategoryDecides(s: AdvancedEventSelector, category: string)
    requires HasCategory(s, category)
    ensures forall value ::
              AdvancedSelectorAllows(s, "eventCategory", value) <==> value == category
  {
    var i :| 0 <= i < |s.fieldSelectors| && CategoryAt(s, i, category);
    var field := s.fieldSelectors[i];
    assert forall f :: f in s.fieldSelectors && f.field == "eventCategory" ==> f == field by {
      assert forall k :: 0 <= k < |s.fieldSelectors| && k != i ==>
                           !IsCategoryField(s.fieldSelectors[k]);
    }
    forall value ensures AdvancedSelectorAllows(s, "eventCategory", value) <==> value == category {
      EqualsDecides(field, category, value);
      assert field in s.fieldSelectors;
    }
  }

  lemma EqualsDecides(f: AdvancedFieldSelector, category: string, value: string)
    requires OnlyEquals(f) && f.equals == Some([category])
    ensures AdvancedFieldAllows(f, value) <==> value == category
  {
  }

  function EqualsField(name: string, value: string, excluded: Option<string>): AdvancedFieldSelector
  {
    AdvancedFieldSelector(name, Some([value]),
                          if excluded.Some? then Some([excluded.value]) else None,
                          None, None, None, None)
  }

  /** Management events of the source a that are not of the source a. */
  function Contradictory(): AdvancedEventSelector {
    AdvancedEventSelector(None, [EqualsField("eventCategory", "Management", None),
                                 EqualsField("eventSource", "a", Some("a"))])
  }

  /**
   * A valid selector may ask for contradictory values of another field. The code does not look,
   * and reckons with all management events where none is let through.
   */
  lemma ContradictionIsNotSeen()
    ensures ValidSelector(Contradictory())
    ensures AdvancedSelectorFlags(Contradictory()) == Coverage(true, true, false)
    ensures CoverageOf(Advanced([Contradictory()])) == NOTHING
  {
    ContradictoryIsValid();
    ContradictoryFlags();
    ContradictoryIsNotSatisfiable();
    SelectorIsAdmitted(Contradictory());
  }

  lemma ContradictoryHasCategory()
    ensures HasCategory(Contradictory(), "Management")
  {
    var s := Contradictory();
    var category := s.fieldSelectors[0];
    assert OnlyEquals(category);
    assert IsCategoryField(category) && !IsCategoryField(s.fieldSelectors[1]);
    assert CategoryAt(s, 0, "Management");
  }

  lemma ContradictoryIsValid()
    ensures ValidSelector(Contradictory())
  {
    var s := Contradictory();
    ContradictoryHasCategory();
    OneOperator(s.fieldSelectors[0]);
    OneOperator(s.fieldSelectors[1]);
    FitsManagement(s.fieldSelectors[0]);
    FitsManagement(s.fieldSelectors[1]);
    ValidTwoFields(s);
  }

  lemma ValidTwoFields(s: AdvancedEventSelector)
    requires |s.fieldSelectors| == 2 && HasCategory(s, "Management")
    requires ValidField(s.fieldSelectors[0]) && ValidField(s.fieldSelectors[1])
    requires FieldFits("Management", s.fieldSelectors[0])
    requires FieldFits("Management", s.fieldSelectors[1])
    ensures ValidSelector(s)
  {
    TwoOf(s.fieldSelectors, ValidField);
    TwoOf(s.fieldSelectors, FitsIn("Management"));
    ManagementNeedsNoMore(s);
  }

  lemma TwoOf<T(!new)>(s: seq<T>, p: T -> bool)
    requires |s| == 2 && p(s[0]) && p(s[1])
    ensures All(s, p)
  {
  }

  lemma ManagementNeedsNoMore(s: AdvancedEventSelector)
    requires All(s.fieldSelectors, FitsIn("Management"))
    ensures ValidFieldsFor(s, "Management")
  {
    CategoriesDiffer();
  }

  lemma FitsManagement(f: AdvancedFieldSelector)
    requires f.field == "eventSource" || (f.field == "eventCategory" && OnlyEquals(f))
    ensures FieldFits("Management", f)
  {
  }

  lemma ContradictoryFlags()
    ensures AdvancedSelectorFlags(Contradictory()) == Coverage(true, true, false)
  {
    ContradictoryHasCategory();
    CategoryDecides(Contradictory(), "Management");
    CategoriesDiffer();
    forall value ensures AdvancedSelectorAllows(Contradictory(), "readOnly", value) {
    }
  }

  lemma ContradictoryIsNotSatisfiable()
    ensures !Satisfiable(Contradictory())
  {
    var s := Contradictory();
    var source := s.fieldSelectors[1];
    assert source in s.fieldSelectors && IsOtherField(source.field);
    forall value ensures !ValueAdmitted(s, source.field, value) {
      assert source.equals.value == source.notEquals.value;
      assert !OperatorsAdmit(source, value);
    }
  }

  lemma OneOperator(f: AdvancedFieldSelector)
    requires f.field in {"eventCategory", "eventSource"}
    requires f.equals.Some? && |f.equals.value| == 1 && |f.equals.value[0]| in {1, 10}
    requires f.notEquals.Some? ==> |f.notEquals.value| == 1 && |f.notEquals.value[0]| == 1
    requires f.startsWith.None? && f.notStartsWith.None? && f.endsWith.None? && f.notEndsWith.None?
    ensures ValidField(f)
  {
  }
}
