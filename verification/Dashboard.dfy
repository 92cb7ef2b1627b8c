/** Create and update of a dashboard: equivalent bodies are not written, and need not be. */
module Dashboard {
  import opened Options
  import opened DashboardJson
  import opened TagSync

  datatype DashboardResource = DashboardResource(name: string, body: string, tags: Option<Tags>)
  {
    function DesiredTags(): Tags {
      tags.GetOr(map[])
    }
  }

  datatype DashboardOutput = DashboardOutput(arn: string, name: string)

  /** What the runtime remembers of the last apply. */
  datatype Prior = Prior(
    inputs: DashboardResource, outputs: Option<DashboardOutput>, observed: Option<DashboardOutput>)
  {
    function Output(): DashboardOutput {
      var out := outputs.GetOr(DashboardOutput("", ""));
      match observed
      case None => out
      case Some(seen) =>
        DashboardOutput(if seen.arn != "" then seen.arn else out.arn,
                        if seen.name != "" then seen.name else out.name)
    }
  }

  /** The arn and the name last observed count, unless they are empty; then those recorded do. */
  lemma PriorOutputMeaning(p: Prior)
    ensures var out := p.Output();
            && (p.observed.Some? && p.observed.value.arn != "" ==> out.arn == p.observed.value.arn)
            && (p.observed.Some? && p.observed.value.name != "" ==> out.name == p.observed.value.name)
            && (p.observed.None? || p.observed.value.arn == "" ==>
                  out.arn == if p.outputs.Some? then p.outputs.value.arn else "")
            && (p.observed.None? || p.observed.value.name == "" ==>
                  out.name == if p.outputs.Some? then p.outputs.value.name else "")
  {
  }

  datatype Failure = InvalidInput | ServiceError | NotFound | MissingArn

  /** The JSON decoder and the checks on names and tag characters, which are not modelled here. */
  datatype Library = Library(
    decode: string -> Option<Json>, otherInputsValid: DashboardResource -> bool)
  {
    ghost predicate Sound() {
      forall s :: decode(s).Some? ==> decode(s).value.WellFormed()
    }

    predicate ValidInputs(r: DashboardResource) {
      && otherInputsValid(r)
      && (r.body == "" || decode(r.body).Some?)
      && forall k :: k in r.DesiredTags() ==> !Reserved(k)
    }

    /** Valid inputs: a body that is empty or decodes, no reserved tag, and the other checks. */
    ghost predicate Valid(r: DashboardResource) {
      && otherInputsValid(r)
      && (r.body != "" ==> decode(r.body) != None)
      && (r.tags.Some? ==> forall k :: k in r.tags.value ==> !("aws:" <= k))
    }

    lemma ValidInputsAreValid(r: DashboardResource)
      ensures ValidInputs(r) <==> Valid(r)
    {
      if r.tags.Some? {
        assert forall k :: k in r.tags.value <==> k in r.DesiredTags();
        assert forall k :: k in r.tags.value ==> (Reserved(k) <==> "aws:" <= k);
      }
    }

    /** The same text, or two texts that decode to the same meaning. */
    ghost predicate SameMeaning(a: string, b: string) {
      || a == b
      || (&& decode(a).Some? && decode(b).Some?
          && Denote(decode(a).value) == Denote(decode(b).value))
    }

    method EquivalentInput(field: string, prior: DashboardResource, current: DashboardResource)
      returns (equal: bool)
      requires Sound()
      ensures equal <==> field == "body" && SameMeaning(prior.body, current.body)
    {
      if field != "body" {
        return false;
      }
      if prior.body == current.body {
        return true;
      }
      var left, right := decode(prior.body), decode(current.body);
      if left.None? || right.None? {
        return false;
      }
      equal := EquivalentDashboardJsonValue(left.value, right.value);
    }
  }

  /** The stored bodies by dashboard name; any call may fail and then does nothing. */
  class DashboardService {
    var bodies: map<string, string>
    const arn: string
    const tags: TagStore  // the tags of the dashboard under management
    ghost var failures: nat
    ghost var puts: nat  // the accepted writes of a body

    constructor (arn: string)
      ensures bodies == map[] && failures == puts == 0 && this.arn == arn
      ensures tags.tags == map[] && fresh(tags)
    {
      bodies, failures, puts := map[], 0, 0;
      this.arn := arn;
      tags := new TagStore();
    }

    method PutDashboard(name: string, body: string) returns (ok: bool)
      modifies this
      ensures bodies == if ok then old(bodies)[name := body] else old(bodies)
      ensures failures == old(failures) + if ok then 0 else 1
      ensures puts == old(puts) + if ok then 1 else 0
    {
      ok := *;
      failures := failures + if ok then 0 else 1;
      if ok {
        puts := puts + 1;
        bodies := bodies[name := body];
      }
    }

    method GetDashboard(name: string) returns (out: Result<DashboardOutput, Failure>)
      modifies this`failures
      ensures out.Ok? ==> name in bodies && out.value == DashboardOutput(arn, name)
      ensures out.Err? ==> out.error == if failures == old(failures) then NotFound else ServiceError
      ensures out == Err(NotFound) ==> name !in bodies
      ensures failures == old(failures) + if out == Err(ServiceError) then 1 else 0
    {
      var answered := *;
      if !answered {
        failures := failures + 1;
        return Err(ServiceError);
      }
      out := if name in bodies then Ok(DashboardOutput(arn, name)) else Err(NotFound);
    }
  }

  method Create(library: Library, service: DashboardService, r: DashboardResource)
    returns (out: Result<DashboardOutput, Failure>)
    requires library.Sound()
    modifies service, service.tags
    ensures out == Err(InvalidInput) <==> !library.Valid(r)
    ensures out == Err(InvalidInput) ==> service.bodies == old(service.bodies)
    ensures out == Err(ServiceError) <==>
              service.failures + service.tags.failures
              > old(service.failures) + old(service.tags.failures)
    ensures out.Err? ==> out.error in {InvalidInput, ServiceError}
    ensures out.Ok? ==>
              && out.value == DashboardOutput(service.arn, r.name)
              && service.bodies == old(service.bodies)[r.name := r.body]
              && service.tags.tags == old(service.tags.tags) + r.DesiredTags()
    ensures out.Ok? && UserTags(old(service.tags.tags)) == map[] ==>
              UserTags(service.tags.tags) == r.DesiredTags()
    ensures out.Err? ==>
              service.bodies in {old(service.bodies), old(service.bodies)[r.name := r.body]}
              && service.tags.tags == old(service.tags.tags)
    ensures r.DesiredTags() == map[] ==> service.tags.writes == old(service.tags.writes)
    ensures service.puts <= old(service.puts) + 1
    ensures service.tags.writes > old(service.tags.writes) ==> service.puts > old(service.puts)
  {
    library.ValidInputsAreValid(r);
    if !library.ValidInputs(r) {
      return Err(InvalidInput);
    }
    var ok := service.PutDashboard(r.name, r.body);
    if !ok {
      return Err(ServiceError);
    }
    out := service.GetDashboard(r.name);
    if out.Err? {
      return;
    }
    NewTags(service.tags.tags, r.DesiredTags());
    ok := TagNew(service.tags, r.DesiredTags());
    if !ok {
      return Err(ServiceError);
    }
  }

  /** The desired tags are added in one call, or in none when there are none. */
  method TagNew(store: TagStore, desired: Tags) returns (ok: bool)
    modifies store
    ensures store.tags == if ok then old(store.tags) + desired else old(store.tags)
    ensures store.failures == old(store.failures) + if ok then 0 else 1
    ensures desired == map[] ==> store.writes == old(store.writes)
  {
    ok := true;
    if |desired| > 0 {
      ok := store.Put(desired);
    } else {
      assert store.tags + desired == store.tags;
    }
  }

  /** Writing user tags over none leaves exactly those. */
  lemma NewTags(stored: Tags, desired: Tags)
    requires forall k :: k in desired ==> !Reserved(k)
    ensures UserTags(stored) == map[] ==> UserTags(stored + desired) == desired
  {
    if UserTags(stored) == map[] {
      assert forall k :: k in stored && !Reserved(k) ==> k in UserTags(stored);
    }
  }

  /** The body is written exactly when the desired one does not mean what the prior one meant. */
  ghost predicate BodyStep(
    library: Library, prior: string, desired: string, stored: string, stored': string)
  {
    stored' == if library.SameMeaning(prior, desired) then stored else desired
  }

  ghost predicate TagStep(prior: Tags, desired: Tags, stored: Tags, stored': Tags) {
    stored' == if prior == desired then stored else Reconciled(stored, desired)
  }

  /** What a failed apply may have left of the tags: only a changed declaration touches them. */
  ghost predicate FailedTags(prior: Tags, desired: Tags, stored: Tags, stored': Tags) {
    || stored' == stored
    || (&& prior != desired
        && stored' in {stored - Removals(stored, desired), Reconciled(stored, desired)})
  }

  /** What a failed apply may have left of the body. */
  ghost predicate FailedBody(
    library: Library, prior: string, desired: string, stored: string, stored': string)
  {
    stored' == stored || (!library.SameMeaning(prior, desired) && stored' == desired)
  }

  method Update(library: Library, service: DashboardService, r: DashboardResource, prior: Prior)
    returns (out: Result<DashboardOutput, Failure>)
    requires library.Sound()
    modifies service, service.tags
    ensures out == Err(InvalidInput) <==> !library.Valid(r)
    ensures out == Err(InvalidInput) ==>
              service.bodies == old(service.bodies) && service.tags.tags == old(service.tags.tags)
    ensures out == Err(MissingArn) ==>
              prior.Output().arn == "" && prior.inputs.DesiredTags() != r.DesiredTags()
    ensures prior.Output().arn == "" && prior.inputs.DesiredTags() != r.DesiredTags() ==>
              out.Err? && service.tags.tags == old(service.tags.tags)
    ensures out == Err(ServiceError) <==>
              service.failures + service.tags.failures
              > old(service.failures) + old(service.tags.failures)
    ensures out == Err(NotFound) ==>
              (if prior.Output().name == "" then r.name else prior.Output().name) !in service.bodies
    ensures prior.inputs.DesiredTags() == r.DesiredTags() ==>
              service.tags.writes == old(service.tags.writes)
    ensures service.puts <= old(service.puts) + 1
    ensures if library.SameMeaning(prior.inputs.body, r.body)
            then service.puts == old(service.puts)
            else service.tags.writes > old(service.tags.writes) ==> service.puts > old(service.puts)
    ensures out.Ok? ==>
              && out.value == DashboardOutput(
                   service.arn,
                   if prior.Output().name == "" then r.name else prior.Output().name)
              && service.bodies == (if library.SameMeaning(prior.inputs.body, r.body)
                                    then old(service.bodies)
                                    else old(service.bodies)[r.name := r.body])
              && TagStep(prior.inputs.DesiredTags(), r.DesiredTags(),
                         old(service.tags.tags), service.tags.tags)
    ensures out.Ok? && r.name in old(service.bodies) ==>
              BodyStep(library, prior.inputs.body, r.body,
                       old(service.bodies)[r.name], service.bodies[r.name])
    ensures out.Err? ==>
              || service.bodies == old(service.bodies)
              || (&& !library.SameMeaning(prior.inputs.body, r.body)
                  && service.bodies == old(service.bodies)[r.name := r.body])
    ensures out.Err? ==>
              FailedTags(prior.inputs.DesiredTags(), r.DesiredTags(),
                         old(service.tags.tags), service.tags.tags)
  {
    library.ValidInputsAreValid(r);
    if !library.ValidInputs(r) {
      return Err(InvalidInput);
    }
    var ok := WriteBody(library, service, r, prior.inputs);
    if !ok {
      return Err(ServiceError);
    }
    var handle := prior.Output();
    var failure := WriteTags(
      service.tags, prior.inputs.DesiredTags(), r.DesiredTags(), handle.arn != "");
    if failure.Some? {
      return Err(failure.value);
    }
    out := service.GetDashboard(if handle.name == "" then r.name else handle.name);
  }

  /** A body that means what the prior one meant is not written. */
  method WriteBody(
    library: Library, service: DashboardService, r: DashboardResource, prior: DashboardResource)
    returns (ok: bool)
    requires library.Sound()
    modifies service
    ensures service.bodies == if ok && !library.SameMeaning(prior.body, r.body)
                              then old(service.bodies)[r.name := r.body] else old(service.bodies)
    ensures service.puts == old(service.puts)
                            + if ok && !library.SameMeaning(prior.body, r.body) then 1 else 0
    ensures service.failures == old(service.failures) + if ok then 0 else 1
    ensures !ok ==> !library.SameMeaning(prior.body, r.body)
  {
    ok := true;
    if prior.body != r.body {
      var equal := library.EquivalentInput("body", prior, r);
      if !equal {
        ok := service.PutDashboard(r.name, r.body);
      }
    }
  }

  /** Tags that did not change are not touched; others need a known arn. */
  method WriteTags(store: TagStore, prior: Tags, desired: Tags, known: bool)
    returns (failure: Option<Failure>)
    modifies store
    ensures failure in {None, Some(MissingArn), Some(ServiceError)}
    ensures failure == Some(MissingArn) <==> prior != desired && !known
    ensures failure.None? ==> TagStep(prior, desired, old(store.tags), store.tags)
    ensures failure.Some? ==> FailedTags(prior, desired, old(store.tags), store.tags)
    ensures prior == desired || !known ==>
              store.tags == old(store.tags) && store.writes == old(store.writes)
    ensures store.failures == old(store.failures) + if failure == Some(ServiceError) then 1 else 0
  {
    if prior == desired {
      return None;
    }
    if !known {
      return Some(MissingArn);
    }
    var ok := Sync(store, desired);
    failure := if ok then None else Some(ServiceError);
  }

  /** What the service holds for one dashboard. */
  datatype Stored = Stored(body: string, tags: Tags)

  /**
   * An apply, repeated until it is accepted: what its failed attempts left, one after another,
   * and what the accepted one left.
   */
  datatype Applied = Applied(desired: DashboardResource, failures: seq<Stored>, stored: Stored)

  /** What an attempt finds, after the failed ones before it. */
  function Found(before: Stored, failures: seq<Stored>): Stored {
    if failures == [] then before else failures[|failures| - 1]
  }

  ghost predicate FailedStep(
    library: Library, prior: DashboardResource, desired: DashboardResource,
    stored: Stored, stored': Stored)
  {
    && FailedBody(library, prior.body, desired.body, stored.body, stored'.body)
    && FailedTags(prior.DesiredTags(), desired.DesiredTags(), stored.tags, stored'.tags)
  }

  ghost predicate Failures(
    library: Library, prior: DashboardResource, desired: DashboardResource, before: Stored,
    failures: seq<Stored>)
  {
    failures == []
    || var earlier, last := failures[..|failures| - 1], failures[|failures| - 1];
       && Failures(library, prior, desired, before, earlier)
       && FailedStep(library, prior, desired, Found(before, earlier), last)
  }

  /** One update of a run: failed attempts, then an accepted one, all from the same prior. */
  ghost predicate AppliedStep(library: Library, prior: Applied, next: Applied) {
    var found := Found(prior.stored, next.failures);
    && Failures(library, prior.desired, next.desired, prior.stored, next.failures)
    && BodyStep(library, prior.desired.body, next.desired.body, found.body, next.stored.body)
    && TagStep(prior.desired.DesiredTags(), next.desired.DesiredTags(),
               found.tags, next.stored.tags)
  }

  /** A create on a dashboard with no user tags, then any number of updates. */
  ghost predicate AppliedRun(library: Library, run: seq<Applied>) {
    && run != []
    && (forall i :: 0 <= i < |run| ==> library.Valid(run[i].desired))
    && run[0].stored.body == run[0].desired.body
    && UserTags(run[0].stored.tags) == run[0].desired.DesiredTags()
    && forall i :: 0 < i < |run| ==> AppliedStep(library, run[i - 1], run[i])
  }

  ghost function UserTags(tags: Tags): Tags {
    map k | k in tags && !Reserved(k) :: tags[k]
  }

  /** However often an apply fails, it leaves the old body or one it has to write again. */
  lemma {:induction false} WhatFailuresLeave(
    library: Library, prior: DashboardResource, desired: DashboardResource, before: Stored,
    failures: seq<Stored>)
    requires Failures(library, prior, desired, before, failures)
    ensures var found := Found(before, failures);
            && FailedBody(library, prior.body, desired.body, before.body, found.body)
            && (prior.DesiredTags() == desired.DesiredTags() ==> found.tags == before.tags)
  {
    if failures != [] {
      WhatFailuresLeave(library, prior, desired, before, failures[..|failures| - 1]);
    }
  }

  /**
   * Skipping equivalent bodies never drifts: after any run of applies, failed attempts included,
   * the stored body still means the last desired one, and the user tags are the last desired
   * ones.
   */
  lemma {:induction false} StoredMatchesLastDesired(library: Library, run: seq<Applied>)
    requires AppliedRun(library, run)
    ensures var last := run[|run| - 1];
            && library.SameMeaning(last.stored.body, last.desired.body)
            && UserTags(last.stored.tags) == last.desired.DesiredTags()
  {
    var n := |run| - 1;
    if n > 0 {
      StoredMatchesLastDesired(library, run[..n]);
      var prior, next := run[n - 1], run[n];
      assert AppliedStep(library, prior, next) && library.Valid(next.desired);
      WhatFailuresLeave(library, prior.desired, next.desired, prior.stored, next.failures);
      ReconciledMeaning(Found(prior.stored, next.failures).tags, next.desired.DesiredTags());
    }
  }

  /**
   * An apply of tried that failed after its write, then an accepted apply of another body from
   * the same prior: the stored body means the desired one exactly when the write was not needed
   * or the desired body does not mean what the prior one meant.
   */
  lemma ChangingCourseAfterFailure(
    library: Library, prior: string, tried: string, desired: string, stored: string, stored': string)
    requires library.SameMeaning(stored, prior)
    requires var left := if library.SameMeaning(prior, tried) then stored else tried;
             BodyStep(library, prior, desired, left, stored')
    ensures library.SameMeaning(stored', desired)
            <==> library.SameMeaning(prior, tried) || !library.SameMeaning(prior, desired)
  {
  }

  /**
   * The same of body and tags together, from whatever failed applies of other configurations
   * left: an accepted apply ends as desired exactly when what it takes for unchanged is so.
   */
  lemma UpdateFromAnyStored(
    library: Library, prior: DashboardResource, desired: DashboardResource, left: Stored,
    stored: Stored)
    requires library.Valid(desired)
    requires BodyStep(library, prior.body, desired.body, left.body, stored.body)
    requires TagStep(prior.DesiredTags(), desired.DesiredTags(), left.tags, stored.tags)
    ensures library.SameMeaning(stored.body, desired.body)
            && UserTags(stored.tags) == desired.DesiredTags()
            <==> && (library.SameMeaning(prior.body, desired.body) ==>
                       library.SameMeaning(left.body, prior.body))
                 && (prior.DesiredTags() == desired.DesiredTags() ==>
                       UserTags(left.tags) == prior.DesiredTags())
  {
    if prior.DesiredTags() != desired.DesiredTags() {
      ReconciledMeaning(left.tags, desired.DesiredTags());
      assert UserTags(stored.tags) == desired.DesiredTags();
    }
  }

  /** A library for which a body is a text that means itself. */
  function PlainLibrary(): Library {
    Library(body => Some(Text(body)), _ => true)
  }

  /** From a to b, which fails after its write, and back to a: nothing is sent, and b stays. */
  lemma GoingBackKeepsTheTriedBody()
    ensures PlainLibrary().Sound()
    ensures FailedBody(PlainLibrary(), "a", "b", "a", "b")
    ensures BodyStep(PlainLibrary(), "a", "a", "b", "b")
    ensures !PlainLibrary().SameMeaning("b", "a")
  {
    assert "a"[0] != "b"[0];
    assert Denote(Text("a")) != Denote(Text("b"));
  }

  /** From tags x to y, which fails after its removal, and back to x: nothing is sent, x is lost. */
  lemma GoingBackLosesATag()
    ensures var x: Tags, y: Tags := map["x" := "1"], map["y" := "1"];
            && FailedTags(x, y, x, map[]) && TagStep(x, x, map[], map[])
            && UserTags(x) == x && UserTags(map[]) != x
  {
    var x: Tags, y: Tags := map["x" := "1"], map["y" := "1"];
    assert "x" in x && "x" !in y && !Reserved("x");
    assert Removals(x, y) == {"x"};
    assert x - {"x"} == map[];
    assert "x" !in UserTags(map[]);
  }
}
