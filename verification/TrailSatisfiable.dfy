/** A finite test of whether a selector's conditions on its other fields can be met together. */
module TrailSatisfiable {
  import opened Options
  import opened TrailSelectors
  import opened TrailCoverage
  import opened TrailValidation

  // ---------- the test ----------

  /** A value that begins like this passes every condition on how values begin. */
  predicate StartFits(s: AdvancedEventSelector, field: string, start: string) {
    forall f :: f in s.fieldSelectors && f.field == field ==>
      && (f.startsWith.Some? ==> HasPrefixIn(f.startsWith.value, start))
      && (f.notStartsWith.Some? ==> !HasPrefixIn(f.notStartsWith.value, start))
  }

  predicate EndFits(s: AdvancedEventSelector, field: string, end: string) {
    forall f :: f in s.fieldSelectors && f.field == field ==>
      && (f.endsWith.Some? ==> HasSuffixIn(f.endsWith.value, end))
      && (f.notEndsWith.Some? ==> !HasSuffixIn(f.notEndsWith.value, end))
  }

  predicate IsStart(s: AdvancedEventSelector, field: string, p: string) {
    exists f :: f in s.fieldSelectors && f.field == field && p in f.startsWith.GetOr([])
  }

  predicate IsEnd(s: AdvancedEventSelector, field: string, p: string) {
    exists f :: f in s.fieldSelectors && f.field == field && p in f.endsWith.GetOr([])
  }

  predicate SomeStart(s: AdvancedEventSelector, field: string) {
    || StartFits(s, field, "")
    || exists f :: f in s.fieldSelectors && f.field == field &&
         exists p :: p in f.startsWith.GetOr([]) && StartFits(s, field, p)
  }

  predicate SomeEnd(s: AdvancedEventSelector, field: string) {
    || EndFits(s, field, "")
    || exists f :: f in s.fieldSelectors && f.field == field &&
         exists p :: p in f.endsWith.GetOr([]) && EndFits(s, field, p)
  }

  predicate HasEquals(s: AdvancedEventSelector, field: string) {
    exists f :: f in s.fieldSelectors && f.field == field && f.equals.Some?
  }

  predicate SomeEqual(s: AdvancedEventSelector, field: string) {
    exists f :: f in s.fieldSelectors && f.field == field &&
      exists v :: v in f.equals.GetOr([]) && AdvancedSelectorAllows(s, field, v)
  }

  /** Tries the listed values, or else each listed beginning and each listed end. */
  predicate CanBeMet(s: AdvancedEventSelector, field: string) {
    if HasEquals(s, field) then SomeEqual(s, field)
    else SomeStart(s, field) && SomeEnd(s, field)
  }

  predicate PassesTest(s: AdvancedEventSelector) {
    forall f :: f in s.fieldSelectors && IsOtherField(f.field) ==> CanBeMet(s, f.field)
  }

  // ---------- an admitted value passes the test ----------

  /** The longest listed beginning that a value has, or the empty one. */
  lemma {:induction false} LongestStart(
    s: AdvancedEventSelector, field: string, value: string, n: nat) returns (start: string)
    requires n <= |value|
    requires forall p :: IsStart(s, field, p) && p <= value ==> |p| <= n
    ensures start <= value && (start == "" || IsStart(s, field, start))
    ensures forall p :: IsStart(s, field, p) && p <= value ==> p <= start
  {
    start := value[..n];
    if n > 0 && !IsStart(s, field, start) {
      assert forall p :: p <= value && |p| == n ==> p == start;
      start := LongestStart(s, field, value, n - 1);
    }
  }

  lemma {:induction false} LongestEnd(
    s: AdvancedEventSelector, field: string, value: string, n: nat) returns (end: string)
    requires n <= |value|
    requires forall p :: IsEnd(s, field, p) && HasSuffix(value, p) ==> |p| <= n
    ensures HasSuffix(value, end) && (end == "" || IsEnd(s, field, end))
    ensures forall p :: IsEnd(s, field, p) && HasSuffix(value, p) ==> HasSuffix(end, p)
  {
    end := value[|value| - n..];
    if n > 0 && !IsEnd(s, field, end) {
      assert forall p :: HasSuffix(value, p) && |p| == n ==> p == end;
      end := LongestEnd(s, field, value, n - 1);
    } else {
      forall p | IsEnd(s, field, p) && HasSuffix(value, p) ensures HasSuffix(end, p) {
        ShorterSuffix(value, end, p);
      }
    }
  }

  lemma AdmittedStart(s: AdvancedEventSelector, field: string, value: string)
    requires ValueAdmitted(s, field, value)
    ensures SomeStart(s, field)
  {
    var start := LongestStart(s, field, value, |value|);
    forall f | f in s.fieldSelectors && f.field == field
      ensures f.startsWith.Some? ==> HasPrefixIn(f.startsWith.value, start)
      ensures f.notStartsWith.Some? ==> !HasPrefixIn(f.notStartsWith.value, start)
    {
      assert OperatorsAdmit(f, value);
      if f.startsWith.Some? {
        var p :| p in f.startsWith.value && p <= value;
        assert IsStart(s, field, p);
      }
    }
    assert StartFits(s, field, start);
  }

  lemma SuffixOfSuffix(value: string, end: string, p: string)
    requires HasSuffix(value, end) && HasSuffix(end, p)
    ensures HasSuffix(value, p)
  {
    assert value[|value| - |p|..] == end[|end| - |p|..];
  }

  lemma AdmittedEnd(s: AdvancedEventSelector, field: string, value: string)
    requires ValueAdmitted(s, field, value)
    ensures SomeEnd(s, field)
  {
    var end := LongestEnd(s, field, value, |value|);
    forall f | f in s.fieldSelectors && f.field == field
      ensures f.endsWith.Some? ==> HasSuffixIn(f.endsWith.value, end)
      ensures f.notEndsWith.Some? ==> !HasSuffixIn(f.notEndsWith.value, end)
    {
      assert OperatorsAdmit(f, value);
      if f.endsWith.Some? {
        var p :| p in f.endsWith.value && HasSuffix(value, p);
        assert IsEnd(s, field, p);
      }
      if f.notEndsWith.Some? && HasSuffixIn(f.notEndsWith.value, end) {
        var p :| p in f.notEndsWith.value && HasSuffix(end, p);
        SuffixOfSuffix(value, end, p);
      }
    }
    assert EndFits(s, field, end);
  }

  lemma AdmittedCanBeMet(s: AdvancedEventSelector, field: string, value: string)
    requires ValueAdmitted(s, field, value)
    ensures CanBeMet(s, field)
  {
    AdmittedStart(s, field, value);
    AdmittedEnd(s, field, value);
    if HasEquals(s, field) {
      var f :| f in s.fieldSelectors && f.field == field && f.equals.Some?;
      AllowsIsAdmitted(s, field, value);
      assert OperatorsAdmit(f, value) && value in f.equals.GetOr([]);
    }
  }

  // ---------- what passes the test has an admitted value ----------

  /** Every operator value of the selector. */
  function OperatorValues(operators: seq<Operator>): seq<string> {
    if operators == [] then []
    else OperatorValues(operators[..|operators| - 1]) + operators[|operators| - 1].values.GetOr([])
  }

  function AllValues(fields: seq<AdvancedFieldSelector>): seq<string> {
    if fields == [] then []
    else AllValues(fields[..|fields| - 1]) + OperatorValues(Operators(fields[|fields| - 1]))
  }

  lemma {:induction false} OperatorValuesCount(operators: seq<Operator>)
    ensures |OperatorValues(operators)| == CountValues(operators)
    ensures forall o, v :: o in operators && v in o.values.GetOr([]) ==> v in OperatorValues(operators)
  {
    if operators != [] {
      OperatorValuesCount(operators[..|operators| - 1]);
      assert operators == operators[..|operators| - 1] + [operators[|operators| - 1]];
    }
  }

  lemma {:induction false} AllValuesCount(fields: seq<AdvancedFieldSelector>)
    ensures |AllValues(fields)| == FieldsValueCount(fields)
    ensures forall f, v :: f in fields && v in OperatorValues(Operators(f)) ==> v in AllValues(fields)
  {
    if fields != [] {
      AllValuesCount(fields[..|fields| - 1]);
      OperatorValuesCount(Operators(fields[|fields| - 1]));
      OperatorsAreMembers(fields[|fields| - 1]);
      assert fields == fields[..|fields| - 1] + [fields[|fields| - 1]];
    }
  }

  lemma ValuesOf(s: AdvancedEventSelector, f: AdvancedFieldSelector, v: string)
    requires f in s.fieldSelectors
    requires v in f.notEquals.GetOr([]) || v in f.notStartsWith.GetOr([])
             || v in f.notEndsWith.GetOr([])
    ensures v in AllValues(s.fieldSelectors)
  {
    var o := Operators(f);
    OperatorValuesCount(o);
    AllValuesCount(s.fieldSelectors);
    assert o[1] in o && o[3] in o && o[5] in o;
  }

  /** The characters that values have just after m characters, and just before their last n. */
  function Taken(values: seq<string>, m: nat, n: nat): (taken: seq<char>)
    ensures |taken| <= 2 * |values|
  {
    if values == [] then []
    else
      var v := values[|values| - 1];
      Taken(values[..|values| - 1], m, n)
      + (if |v| > m then [v[m]] else []) + (if |v| > n then [v[|v| - 1 - n]] else [])
  }

  lemma {:induction false} TakenHas(values: seq<string>, m: nat, n: nat, v: string)
    requires v in values
    ensures |v| > m ==> v[m] in Taken(values, m, n)
    ensures |v| > n ==> v[|v| - 1 - n] in Taken(values, m, n)
  {
    if v != values[|values| - 1] {
      assert values == values[..|values| - 1] + [values[|values| - 1]];
      TakenHas(values[..|values| - 1], m, n, v);
    }
  }

  function FirstChars(n: nat): (chars: set<char>)
    requires n <= 2000
    ensures |chars| == n && forall c :: c in chars <==> c as int < n
  {
    if n == 0 then {} else FirstChars(n - 1) + {(n - 1) as char}
  }

  lemma {:induction false} SetOfSeq(chars: seq<char>)
    ensures |set c | c in chars| <= |chars|
  {
    if chars != [] {
      var front, last := chars[..|chars| - 1], chars[|chars| - 1];
      SetOfSeq(front);
      assert chars == front + [last];
      assert (set c | c in chars) == (set c | c in front) + {last};
    }
  }

  lemma Subset(a: set<char>, b: set<char>)
    requires a <= b
    ensures |a| <= |b|
  {
    assert b == a + (b - a);
  }

  /** There are more characters than a selector has values. */
  lemma FreshChar(taken: seq<char>) returns (x: char)
    requires |taken| < 2000
    ensures x !in taken
  {
    var all, used := FirstChars(|taken| + 1), set c | c in taken;
    SetOfSeq(taken);
    if all <= used {
      Subset(all, used);
    }
    x :| x in all && x !in used;
  }

  function Longest(values: seq<string>): nat {
    if values == [] then 0
    else
      var rest, n := Longest(values[..|values| - 1]), |values[|values| - 1]|;
      if rest < n then n else rest
  }

  lemma {:induction false} LongestIsLongest(values: seq<string>, v: string)
    requires v in values
    ensures |v| <= Longest(values)
  {
    if v != values[|values| - 1] {
      assert values == values[..|values| - 1] + [values[|values| - 1]];
      LongestIsLongest(values[..|values| - 1], v);
    }
  }

  function Repeat(x: char, n: nat): (s: string)
    ensures |s| == n && forall i :: 0 <= i < n ==> s[i] == x
  {
    seq(n, _ => x)
  }

  /** A fitting start and a fitting end, with a middle unlike any listed value. */
  lemma Assembled(s: AdvancedEventSelector, field: string, start: string, end: string)
    returns (value: string)
    requires StartFits(s, field, start) && EndFits(s, field, end) && !HasEquals(s, field)
    requires FieldsValueCount(s.fieldSelectors) <= 500
    ensures ValueAdmitted(s, field, value)
  {
    var values := AllValues(s.fieldSelectors);
    AllValuesCount(s.fieldSelectors);
    var x := FreshChar(Taken(values, |start|, |end|));
    var middle := Repeat(x, Longest(values) + 1);
    value := start + middle + end;
    assert value[|start|] == middle[0] && value[|value| - 1 - |end|] == middle[|middle| - 1];
    assert value[|value| - |end|..] == end;
    forall f | f in s.fieldSelectors && f.field == field ensures OperatorsAdmit(f, value) {
      AssembledStart(s, f, start, |end|, value);
      AssembledEnd(s, f, end, |start|, value);
      if f.notEquals.Some? && value in f.notEquals.value {
        ValuesOf(s, f, value);
        LongestIsLongest(values, value);
      }
    }
  }

  lemma AssembledStart(
    s: AdvancedEventSelector, f: AdvancedFieldSelector, start: string, n: nat, value: string)
    requires f in s.fieldSelectors && StartFits(s, f.field, start)
    requires start <= value && |start| < |value|
    requires value[|start|] !in Taken(AllValues(s.fieldSelectors), |start|, n)
    ensures f.startsWith.Some? ==> HasPrefixIn(f.startsWith.value, value)
    ensures f.notStartsWith.Some? ==> !HasPrefixIn(f.notStartsWith.value, value)
  {
    if f.startsWith.Some? {
      var p :| p in f.startsWith.value && p <= start;
      assert p <= value;
    }
    if f.notStartsWith.Some? && HasPrefixIn(f.notStartsWith.value, value) {
      var p :| p in f.notStartsWith.value && p <= value;
      if |p| > |start| {
        ValuesOf(s, f, p);
        TakenHas(AllValues(s.fieldSelectors), |start|, n, p);
      }
    }
  }

  lemma AssembledEnd(
    s: AdvancedEventSelector, f: AdvancedFieldSelector, end: string, m: nat, value: string)
    requires f in s.fieldSelectors && EndFits(s, f.field, end)
    requires HasSuffix(value, end) && |end| < |value|
    requires value[|value| - 1 - |end|] !in Taken(AllValues(s.fieldSelectors), m, |end|)
    ensures f.endsWith.Some? ==> HasSuffixIn(f.endsWith.value, value)
    ensures f.notEndsWith.Some? ==> !HasSuffixIn(f.notEndsWith.value, value)
  {
    if f.endsWith.Some? {
      var p :| p in f.endsWith.value && HasSuffix(end, p);
      SuffixOfSuffix(value, end, p);
    }
    if f.notEndsWith.Some? && HasSuffixIn(f.notEndsWith.value, value) {
      var p :| p in f.notEndsWith.value && HasSuffix(value, p);
      if |p| > |end| {
        SuffixAt(value, p, |end|);
        ValuesOf(s, f, p);
        TakenHas(AllValues(s.fieldSelectors), m, |end|, p);
      } else {
        ShorterSuffix(value, end, p);
      }
    }
  }

  lemma SuffixAt(value: string, p: string, n: nat)
    requires HasSuffix(value, p) && n < |p|
    ensures p[|p| - 1 - n] == value[|value| - 1 - n]
  {
    assert p[|p| - 1 - n] == value[|value| - |p|..][|p| - 1 - n];
  }

  lemma ShorterSuffix(value: string, end: string, p: string)
    requires HasSuffix(value, end) && HasSuffix(value, p) && |p| <= |end|
    ensures HasSuffix(end, p)
  {
    assert end[|end| - |p|..] == value[|value| - |p|..];
  }

  lemma MetHasValue(s: AdvancedEventSelector, field: string) returns (value: string)
    requires CanBeMet(s, field) && FieldsValueCount(s.fieldSelectors) <= 500
    ensures ValueAdmitted(s, field, value)
  {
    if HasEquals(s, field) {
      var f :| f in s.fieldSelectors && f.field == field &&
               exists v :: v in f.equals.GetOr([]) && AdvancedSelectorAllows(s, field, v);
      value :| value in f.equals.GetOr([]) && AdvancedSelectorAllows(s, field, value);
      AllowsIsAdmitted(s, field, value);
    } else {
      var start :| StartFits(s, field, start);
      var end :| EndFits(s, field, end);
      value := Assembled(s, field, start, end);
    }
  }

  // ---------- the two together ----------

  /** The test is exact for every selector of an accepted list. */
  lemma TestIsExact(s: AdvancedEventSelector)
    requires FieldsValueCount(s.fieldSelectors) <= 500
    ensures PassesTest(s) <==> Satisfiable(s)
  {
    if PassesTest(s) {
      forall f | f in s.fieldSelectors && IsOtherField(f.field)
        ensures exists value :: ValueAdmitted(s, f.field, value)
      {
        var value := MetHasValue(s, f.field);
      }
    }
    if Satisfiable(s) {
      forall f | f in s.fieldSelectors && IsOtherField(f.field) ensures CanBeMet(s, f.field) {
        var value :| ValueAdmitted(s, f.field, value);
        AdmittedCanBeMet(s, f.field, value);
      }
    }
  }

  lemma {:induction false} SelectorCountIsWithin(selectors: seq<AdvancedEventSelector>, i: nat)
    requires i < |selectors|
    ensures FieldsValueCount(selectors[i].fieldSelectors) <= ValueCount(selectors)
  {
    ValueCountGrows(selectors, i + 1);
    assert selectors[..i + 1][..i] == selectors[..i];
  }

  /** So whether an accepted list's reckoned coverage is what it admits can be tested. */
  lemma AcceptedListIsTested(selectors: seq<AdvancedEventSelector>)
    requires ValueCount(selectors) <= 500
    ensures AllSatisfiable(selectors) <==> forall s :: s in selectors ==> PassesTest(s)
  {
    forall i | 0 <= i < |selectors| ensures PassesTest(selectors[i]) <==> Satisfiable(selectors[i]) {
      SelectorCountIsWithin(selectors, i);
      TestIsExact(selectors[i]);
    }
  }
}
