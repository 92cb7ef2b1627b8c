/** User pool schemas only grow: the additions an update may make, and every run of updates. */
module UserPoolSchema {
  import opened Options

  /** An attribute: its name, its developer-only flag, and its other members as one value. */
  datatype SchemaAttribute = SchemaAttribute(
    name: string, developerOnly: Option<bool>, definition: string)

  type Schema = seq<SchemaAttribute>

  /** A negative capacity is no error value but a panic when the result is allocated. */
  datatype SchemaError =
    | Removed(name: string) | Modified(name: string) | AddsStandard(name: string)
    | NegativeCapacity

  predicate DistinctNames(s: Schema) {
    forall i, j :: 0 <= i < j < |s| ==> s[i].name != s[j].name
  }

  ghost function Names(s: Schema): set<string> {
    set a | a in s :: a.name
  }

  /** The last attribute of a name, which is the one a map by name ends up with. */
  ghost function Named(s: Schema, name: string): Option<SchemaAttribute> {
    if s == [] then None
    else if s[|s| - 1].name == name then Some(s[|s| - 1])
    else Named(s[..|s| - 1], name)
  }

  predicate HasName(s: Schema, name: string) {
    exists a :: a in s && a.name == name
  }

  /** The attributes of current whose names prior does not have, in the order of current. */
  ghost function Added(prior: Schema, current: Schema): Schema {
    if current == [] then []
    else
      var last := current[|current| - 1];
      Added(prior, current[..|current| - 1]) + if HasName(prior, last.name) then [] else [last]
  }

  /** Every prior attribute is still there, unchanged. */
  ghost predicate Keeps(prior: Schema, current: Schema) {
    forall a :: a in prior ==> a in current
  }

  /** The same as the code compares it: by the attribute each name stands for. */
  ghost predicate KeepsNames(prior: Schema, current: Schema) {
    forall name :: Named(prior, name).Some? ==> Named(current, name) == Named(prior, name)
  }

  lemma {:induction false} NamedMeaning(s: Schema, name: string)
    ensures Named(s, name).Some? <==> HasName(s, name)
    ensures Named(s, name).Some? ==> Named(s, name).value in s && Named(s, name).value.name == name
    ensures DistinctNames(s) ==>
              forall a :: a in s && a.name == name ==> Named(s, name) == Some(a)
  {
    if s != [] {
      NamedMeaning(s[..|s| - 1], name);
      assert s == s[..|s| - 1] + [s[|s| - 1]];
    }
  }

  /** Where names are distinct, as validation sees to, the comparison by name keeps attributes. */
  lemma {:induction false} KeepsByName(prior: Schema, current: Schema)
    requires DistinctNames(prior) && DistinctNames(current)
    ensures KeepsNames(prior, current) <==> Keeps(prior, current)
  {
    forall name
      ensures Named(prior, name).Some? ==>
                (Named(current, name) == Named(prior, name)
                 <==> Named(prior, name).value in current)
    {
      NamedMeaning(prior, name);
      NamedMeaning(current, name);
    }
    forall a | a in prior ensures Named(prior, a.name) == Some(a) {
      NamedMeaning(prior, a.name);
    }
    forall name | Named(prior, name).Some? ensures Named(prior, name).value in prior {
      NamedMeaning(prior, name);
    }
  }

  ghost predicate AddsStandardAttribute(
    isStandard: string -> bool, prior: Schema, current: Schema)
  {
    exists a :: a in Added(prior, current) && !a.developerOnly.GetOr(false) && isStandard(a.name)
  }

  /** The map a loop over a schema builds: a later attribute replaces an earlier namesake. */
  method ByName(s: Schema) returns (byName: map<string, SchemaAttribute>)
    ensures forall name :: name in byName <==> Named(s, name).Some?
    ensures forall name :: name in byName ==> Named(s, name) == Some(byName[name])
  {
    byName := map[];
    for i := 0 to |s|
      invariant forall name :: name in byName <==> Named(s[..i], name).Some?
      invariant forall name :: name in byName ==> Named(s[..i], name) == Some(byName[name])
    {
      assert s[..i + 1][..i] == s[..i];
      byName := byName[s[i].name := s[i]];
    }
    assert s[..|s|] == s;
  }

  /** The error that the first failing check reports; which name it reports is not determined. */
  ghost predicate RealProblem(
    isStandard: string -> bool, prior: Schema, current: Schema, error: SchemaError)
  {
    match error
    case Removed(name) => Named(prior, name).Some? && Named(current, name).None?
    case Modified(name) =>
      && Named(prior, name).Some? && Named(current, name).Some?
      && Named(prior, name) != Named(current, name)
    case NegativeCapacity => KeepsNames(prior, current) && |current| < |prior|
    case AddsStandard(name) =>
      && KeepsNames(prior, current) && |prior| <= |current| && isStandard(name)
      && exists a :: a in Added(prior, current) && a.name == name && !a.developerOnly.GetOr(false)
  }

  ghost predicate Accepts(isStandard: string -> bool, prior: Schema, current: Schema) {
    && KeepsNames(prior, current) && |prior| <= |current|
    && !AddsStandardAttribute(isStandard, prior, current)
  }

  /** Accepted exactly when every prior name stands for the same attribute and no standard one is
      added; the result is the new attributes in order, and an error names a real problem. */
  ghost predicate Decided(
    isStandard: string -> bool, prior: Schema, current: Schema,
    additions: Result<Schema, SchemaError>)
  {
    && (additions.Ok? <==> Accepts(isStandard, prior, current))
    && (additions.Ok? ==> additions.value == Added(prior, current))
    && (additions.Err? ==> RealProblem(isStandard, prior, current, additions.error))
  }

  method SchemaAdditions(isStandard: string -> bool, prior: Schema, current: Schema)
    returns (additions: Result<Schema, SchemaError>)
    ensures Decided(isStandard, prior, current, additions)
    ensures DistinctNames(prior) && DistinctNames(current) ==> additions != Err(NegativeCapacity)
  {
    var priorByName := ByName(prior);
    var currentByName := ByName(current);
    var names := priorByName.Keys;
    while names != {}
      invariant names <= priorByName.Keys
      invariant forall name :: name in priorByName && name !in names ==>
                  Named(current, name) == Named(prior, name)
      decreases |names|
    {
      var name :| name in names;
      names := names - {name};
      var oldAttribute := priorByName[name];
      if name !in currentByName {
        return Err(Removed(name));
      }
      if oldAttribute != currentByName[name] {
        return Err(Modified(name));
      }
    }
    if DistinctNames(prior) && DistinctNames(current) {
      KeepsByName(prior, current);
      KeptAttributesFit(prior, current);
    }
    var capacity := |current| - |prior|;
    if capacity < 0 {
      return Err(NegativeCapacity);
    }
    additions := CollectAdditions(isStandard, prior, current, priorByName);
  }

  /** With repeated names, which validation refuses, the capacity can be negative. */
  lemma RepeatedNamesOverrunCapacity(a: SchemaAttribute)
    ensures KeepsNames([a, a], [a]) && |[a]| < |[a, a]|
  {
    assert [a, a][..1] == [a] && [a][..0] == [];
    assert forall name :: Named([a], name) == if a.name == name then Some(a) else None;
  }

  /** The last loop: new attributes are collected in order, and a standard one is refused. */
  method CollectAdditions(
    isStandard: string -> bool, prior: Schema, current: Schema,
    priorByName: map<string, SchemaAttribute>)
    returns (additions: Result<Schema, SchemaError>)
    requires forall name :: name in priorByName <==> Named(prior, name).Some?
    requires KeepsNames(prior, current) && |prior| <= |current|
    ensures Decided(isStandard, prior, current, additions)
  {
    var collected: Schema := [];
    for i := 0 to |current|
      invariant collected == Added(prior, current[..i])
      invariant forall a :: a in collected ==> a.developerOnly.GetOr(false) || !isStandard(a.name)
    {
      var attribute := current[i];
      assert current[..i + 1][..i] == current[..i];
      NamedMeaning(prior, attribute.name);
      if attribute.name !in priorByName {
        if !attribute.developerOnly.GetOr(false) && isStandard(attribute.name) {
          AddedPrefix(prior, current, i + 1);
          assert attribute in Added(prior, current[..i + 1]);
          return Err(AddsStandard(attribute.name));
        }
        collected := collected + [attribute];
      }
    }
    assert current[..|current|] == current;
    additions := Ok(collected);
  }

  lemma {:induction false} AddedPrefix(prior: Schema, current: Schema, i: nat)
    requires i <= |current|
    ensures forall a :: a in Added(prior, current[..i]) ==> a in Added(prior, current)
  {
    if i < |current| {
      AddedPrefix(prior, current[..|current| - 1], i);
      assert current[..|current| - 1][..i] == current[..i];
    } else {
      assert current[..i] == current;
    }
  }

  lemma NamesAppend(front: Schema, last: SchemaAttribute)
    ensures Names(front + [last]) == Names(front) + {last.name}
    ensures DistinctNames(front + [last]) ==> DistinctNames(front) && last.name !in Names(front)
  {
    var s := front + [last];
    if DistinctNames(s) {
      assert forall k :: 0 <= k < |front| ==> front[k] == s[k] && s[k].name != s[|front|].name;
    }
  }

  lemma {:induction false} NameCount(s: Schema)
    ensures |Names(s)| <= |s|
    ensures DistinctNames(s) ==> |Names(s)| == |s|
  {
    if s != [] {
      var front, last := s[..|s| - 1], s[|s| - 1];
      NameCount(front);
      assert s == front + [last];
      NamesAppend(front, last);
    }
  }

  /** Distinct prior names all found again: there are at least as many current attributes. */
  lemma KeptAttributesFit(prior: Schema, current: Schema)
    requires DistinctNames(prior) && Keeps(prior, current)
    ensures |prior| <= |current|
  {
    NameCount(prior);
    NameCount(current);
    assert Names(prior) <= Names(current);
    assert |Names(current) - Names(prior)| == |Names(current)| - |Names(prior)|;
  }

  /** An accepted schema is the prior one and the additions, and nothing else. */
  lemma {:induction false} AcceptedIsPriorPlusAdditions(prior: Schema, current: Schema)
    requires DistinctNames(prior) && DistinctNames(current) && Keeps(prior, current)
    ensures multiset(current) == multiset(prior) + multiset(Added(prior, current))
    ensures |Added(prior, current)| == |current| - |prior|
  {
    forall a ensures multiset(current)[a] == (multiset(prior) + multiset(Added(prior, current)))[a] {
      CountOne(current, a);
      CountOne(prior, a);
      AddedCount(prior, current, a);
      if a in current && HasName(prior, a.name) {
        var b :| b in prior && b.name == a.name;
        SameNameSame(current, a, b);
      }
    }
  }

  lemma SameNameSame(s: Schema, a: SchemaAttribute, b: SchemaAttribute)
    requires DistinctNames(s) && a in s && b in s && a.name == b.name
    ensures a == b
  {
  }

  lemma {:induction false} CountOne(s: Schema, a: SchemaAttribute)
    requires DistinctNames(s)
    ensures multiset(s)[a] == if a in s then 1 else 0
  {
    if s != [] {
      CountOne(s[..|s| - 1], a);
      CountAppend(s[..|s| - 1], s[|s| - 1], a);
      assert s == s[..|s| - 1] + [s[|s| - 1]];
    }
  }

  lemma CountAppend(front: Schema, last: SchemaAttribute, a: SchemaAttribute)
    ensures multiset(front + [last])[a] == multiset(front)[a] + if a == last then 1 else 0
  {
  }

  lemma {:induction false} AddedCount(prior: Schema, current: Schema, a: SchemaAttribute)
    ensures multiset(Added(prior, current))[a]
            == if HasName(prior, a.name) then 0 else multiset(current)[a]
  {
    if current != [] {
      var front, last := current[..|current| - 1], current[|current| - 1];
      AddedCount(prior, front, a);
      assert current == front + [last];
      CountAppend(front, last, a);
      if HasName(prior, last.name) {
        assert Added(prior, current) == Added(prior, front);
      } else {
        assert Added(prior, current) == Added(prior, front) + [last];
        CountAppend(Added(prior, front), last, a);
      }
    }
  }

  /** A create and updates that validation and the comparison accepted. */
  ghost predicate AcceptedRun(isStandard: string -> bool, run: seq<Schema>) {
    && run != []
    && (forall k :: 0 <= k < |run| ==> DistinctNames(run[k]))
    && forall k :: 0 < k < |run| ==> Accepts(isStandard, run[k - 1], run[k])
  }

  /** What the pool holds: the schema it was created with and every addition sent since. */
  ghost function Pool(run: seq<Schema>): Schema {
    if run == [] then []
    else if |run| == 1 then run[0]
    else
      var last := |run| - 1;
      Pool(run[..last]) + Added(run[last - 1], run[last])
  }

  /**
   * Over any run of accepted updates the pool holds exactly the last schema, though only
   * additions are ever sent, and with it every attribute of every earlier schema, unchanged.
   */
  lemma {:induction false} SchemasOnlyGrow(
    isStandard: string -> bool, run: seq<Schema>, i: nat)
    requires AcceptedRun(isStandard, run) && i < |run|
    ensures var last := run[|run| - 1];
            && multiset(Pool(run)) == multiset(last)
            && Keeps(run[i], last) && multiset(run[i]) <= multiset(last)
  {
    var last := |run| - 1;
    if last > 0 {
      var front := run[..last];
      SchemasOnlyGrow(isStandard, front, if i < last then i else last - 1);
      assert Accepts(isStandard, run[last - 1], run[last]);
      OneMoreAccepted(isStandard, run[last - 1], run[last], Pool(front));
    }
  }

  lemma OneMoreAccepted(
    isStandard: string -> bool, prior: Schema, current: Schema, pool: Schema)
    requires DistinctNames(prior) && DistinctNames(current)
    requires Accepts(isStandard, prior, current) && multiset(pool) == multiset(prior)
    ensures multiset(pool + Added(prior, current)) == multiset(current)
    ensures Keeps(prior, current) && multiset(prior) <= multiset(current)
  {
    KeepsByName(prior, current);
    AcceptedIsPriorPlusAdditions(prior, current);
  }

  /** An accepted update of validated schemas: what it leaves is the prior schema and additions. */
  lemma AcceptedSchemaIsComplete(
    isStandard: string -> bool, prior: Schema, current: Schema,
    additions: Result<Schema, SchemaError>)
    requires Decided(isStandard, prior, current, additions)
    requires DistinctNames(prior) && DistinctNames(current)
    ensures additions.Ok? <==>
              Keeps(prior, current) && !AddsStandardAttribute(isStandard, prior, current)
    ensures additions.Ok? ==> multiset(current) == multiset(prior) + multiset(additions.value)
  {
    KeepsByName(prior, current);
    if Keeps(prior, current) {
      KeptAttributesFit(prior, current);
      AcceptedIsPriorPlusAdditions(prior, current);
    }
  }

  /** Dropping the SMS configuration is refused before the schemas are compared. */
  method ValidateUpdate(
    isStandard: string -> bool, priorHasSms: bool, hasSms: bool, prior: Schema, current: Schema)
    returns (additions: Option<Result<Schema, SchemaError>>)
    ensures additions.None? <==> priorHasSms && !hasSms
    ensures additions.Some? ==> Decided(isStandard, prior, current, additions.value)
    ensures additions.Some? && additions.value.Ok? && DistinctNames(prior) && DistinctNames(current)
            ==> multiset(current) == multiset(prior) + multiset(additions.value.value)
  {
    if priorHasSms && !hasSms {
      return None;
    }
    var result := SchemaAdditions(isStandard, prior, current);
    if DistinctNames(prior) && DistinctNames(current) {
      AcceptedSchemaIsComplete(isStandard, prior, current, result);
    }
    additions := Some(result);
  }
}
