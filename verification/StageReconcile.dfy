/** What a stage update achieves: from any stage, after failed attempts, and in both service modes. */
module StageReconcile {
  import opened Options
  import opened StageModel
  import opened StageUpdate

  // ---------- the update sets the stage to the desired one ----------

  /** The stage holds what a configuration declares, as far as the configuration manages it. */
  ghost predicate Holds(s: StageState, r: StageResource, websocket: bool) {
    && HoldsMembers(s, r, websocket)
    && HoldsRoutes(s.routes, r, websocket)
    && HoldsVariables(s.variables, r)
  }

  ghost predicate HoldsMembers(s: StageState, r: StageResource, websocket: bool) {
    && s.accessLog == r.accessLogSettings
    && s.autoDeploy == r.autoDeploy.GetOr(false)
    && s.clientCertificateId == r.clientCertificateId.GetOr("")
    && s.description == r.description.GetOr("")
    && (r.deploymentId.Some? ==> s.deploymentId == r.deploymentId.value)
    && HoldsDefaults(s.defaults, r.defaultRouteSettings, websocket)
  }

  ghost predicate HoldsRoutes(routes: Routes, r: StageResource, websocket: bool) {
    forall e :: e in r.Entries() ==>
      e.routeKey in routes && HoldsSettings(routes[e.routeKey], e, websocket)
  }

  /** The default settings hold the declared ones, but for a level where none is declared; where
      no default is declared every other member is reset. */
  predicate HoldsDefaults(
    stored: RouteSettings, declared: Option<StageRouteSettings>, websocket: bool)
  {
    match declared
    case None => stored.(loggingLevel := "") == RouteSettings(None, None, "", None, None)
    case Some(e) =>
      if DeclaresLevel(declared, websocket)
      then HoldsSettings(stored, e, websocket)
      else HoldsSettings(stored.(loggingLevel := ""), e, websocket)
  }

  /** A logging level is sent for the defaults. */
  predicate DeclaresLevel(declared: Option<StageRouteSettings>, websocket: bool) {
    && websocket && declared.Some? && declared.value.loggingLevel.Some?
    && declared.value.loggingLevel.value != ""
  }

  ghost predicate HoldsVariables(variables: Variables, r: StageResource) {
    forall k :: k in r.Variables() ==> k in variables && variables[k] == r.Variables()[k]
  }

  /** An object stored under a new key holds no member that the new entry leaves out. */
  predicate NoForeignMember(o: RouteSettings, e: StageRouteSettings, websocket: bool) {
    && (o.dataTraceEnabled.Some? ==> websocket)
    && (o.loggingLevel != "" ==> websocket && e.loggingLevel.GetOr("") != "")
    && (o.throttlingBurstLimit.Some? ==> e.throttlingBurstLimit.Some?)
    && (o.throttlingRateLimit.Some? ==> e.throttlingRateLimit.Some?)
  }

  /** The same of every entry whose key the prior configuration does not have. */
  ghost predicate NoForeignMembers(
    routes: Routes, r: StageResource, prior: StageResource, websocket: bool)
  {
    forall e :: e in r.Entries() && e.routeKey !in Keys(prior.Entries()) && e.routeKey in routes ==>
      NoForeignMember(routes[e.routeKey], e, websocket)
  }

  ghost predicate NoEmptyValues(variables: Variables) {
    forall k :: k in variables ==> variables[k] != ""
  }

  /** Merging an entry over an object gives the entry exactly when nothing of the object is left. */
  lemma MergeGivesEntry(o: RouteSettings, e: StageRouteSettings, websocket: bool)
    ensures Put(Merge, o, Expand(e, websocket)) == Expand(e, websocket)
            <==> NoForeignMember(o, e, websocket)
  {
  }

  ghost function After(
    mode: Mode, s: StageState, r: StageResource, prior: StageResource, websocket: bool,
    routes: Option<Routes>, patch: Option<Variables>): StageState
  {
    Apply(mode, Cleared(s, r, prior), Request(r, prior, websocket, routes, patch))
  }

  ghost function RoutesAfter(
    mode: Mode, stored: Routes, r: StageResource, prior: StageResource, routes: Option<Routes>)
    : Routes
  {
    PutSentRoutes(mode, RoutesKept(stored, r, prior), routes)
  }

  lemma MapsAfter(
    mode: Mode, s: StageState, r: StageResource, prior: StageResource, websocket: bool,
    routes: Option<Routes>, patch: Option<Variables>)
    ensures var s' := After(mode, s, r, prior, websocket, routes, patch);
            && s'.routes == RoutesAfter(mode, s.routes, r, prior, routes)
            && s'.variables == PatchSentVariables(s.variables, patch)
  {
  }

  // ---------- from any stage ----------

  /** A member that the update does not send is as desired already. */
  predicate MembersReady(
    s: StageState, r: StageResource, prior: StageResource, websocket: bool)
  {
    && (prior.accessLogSettings == r.accessLogSettings ==> s.accessLog == r.accessLogSettings)
    && (prior.autoDeploy == r.autoDeploy ==> s.autoDeploy == r.autoDeploy.GetOr(false))
    && (prior.clientCertificateId == r.clientCertificateId ==>
          s.clientCertificateId == r.clientCertificateId.GetOr(""))
    && (prior.description == r.description ==> s.description == r.description.GetOr(""))
    && (prior.deploymentId == r.deploymentId && r.deploymentId.Some? ==>
          s.deploymentId == r.deploymentId.value)
    && (prior.defaultRouteSettings == r.defaultRouteSettings ==>
          HoldsDefaults(s.defaults, r.defaultRouteSettings, websocket))
  }

  /**
   * Routes that are not sent are as desired already. Where they are sent and merged, an object
   * that is not deleted first holds no member its entry leaves out.
   */
  ghost predicate RoutesReady(
    mode: Mode, routes: Routes, r: StageResource, prior: StageResource, websocket: bool)
  {
    if !RoutesChanged(r, prior) then HoldsRoutes(routes, r, websocket)
    else mode.Merge? ==>
      forall e :: e in r.Entries() && e.routeKey in RoutesKept(routes, r, prior) ==>
        NoForeignMember(routes[e.routeKey], e, websocket)
  }

  ghost predicate VariablesReady(variables: Variables, r: StageResource, prior: StageResource) {
    if VariablesChanged(r, prior) then NoEmptyValues(r.Variables())
    else HoldsVariables(variables, r)
  }

  ghost predicate Ready(
    mode: Mode, s: StageState, r: StageResource, prior: StageResource, websocket: bool)
  {
    && MembersReady(s, r, prior, websocket)
    && RoutesReady(mode, s.routes, r, prior, websocket)
    && VariablesReady(s.variables, r, prior)
  }

  /**
   * Whatever stage an update finds, say one that a failed update of another configuration left,
   * it holds the desired configuration afterwards exactly when it was ready.
   */
  lemma {:induction false} UpdateFromAnyStage(
    mode: Mode, s: StageState, r: StageResource, prior: StageResource, websocket: bool,
    routes: Option<Routes>, patch: Option<Variables>)
    requires RoutesSent(r, prior, websocket, routes) && PatchSent(r, prior, patch)
    requires DistinctKeys(r.Entries())
    ensures Holds(After(mode, s, r, prior, websocket, routes, patch), r, websocket)
            <==> Ready(mode, s, r, prior, websocket)
  {
    RoutesAreSet(mode, s.routes, r, prior, websocket, routes);
    VariablesAreSet(s.variables, r, prior, patch);
    MapsAfter(mode, s, r, prior, websocket, routes, patch);
    MembersAreSet(mode, s, r, prior, websocket, routes, patch);
  }

  lemma MembersAreSet(
    mode: Mode, s: StageState, r: StageResource, prior: StageResource, websocket: bool,
    routes: Option<Routes>, patch: Option<Variables>)
    ensures HoldsMembers(After(mode, s, r, prior, websocket, routes, patch), r, websocket)
            <==> MembersReady(s, r, prior, websocket)
  {
    DefaultsAreSet(s.defaults, r, websocket);
  }

  /** Whatever the defaults were, sending the declared ones makes them hold. */
  lemma DefaultsAreSet(stored: RouteSettings, r: StageResource, websocket: bool)
    ensures HoldsDefaults(PutDefaults(stored, r.Defaults(websocket)), r.defaultRouteSettings,
                          websocket)
  {
    if r.defaultRouteSettings.Some? {
      var e := r.defaultRouteSettings.value;
      ExpandHolds(Expand(e, websocket), e, websocket);
      assert PutDefaults(stored, Expand(e, websocket)).(loggingLevel := "")
             == Expand(e, websocket).(loggingLevel := "");
    }
  }

  lemma VariablesAreSet(
    stored: Variables, r: StageResource, prior: StageResource, patch: Option<Variables>)
    requires PatchSent(r, prior, patch)
    ensures HoldsVariables(PatchSentVariables(stored, patch), r)
            <==> VariablesReady(stored, r, prior)
  {
  }

  lemma {:induction false} RoutesAreSet(
    mode: Mode, stored: Routes, r: StageResource, prior: StageResource, websocket: bool,
    routes: Option<Routes>)
    requires RoutesSent(r, prior, websocket, routes) && DistinctKeys(r.Entries())
    ensures HoldsRoutes(RoutesAfter(mode, stored, r, prior, routes), r, websocket)
            <==> RoutesReady(mode, stored, r, prior, websocket)
  {
    var kept := RoutesKept(stored, r, prior);
    if RoutesChanged(r, prior) && r.Entries() != [] {
      var result := RoutesAfter(mode, stored, r, prior, routes);
      forall e | e in r.Entries()
        ensures e.routeKey in result
        ensures HoldsSettings(result[e.routeKey], e, websocket)
                <==> (mode.Merge? && e.routeKey in kept ==>
                        NoForeignMember(stored[e.routeKey], e, websocket))
      {
        OneRouteIsSet(mode, kept, r.Entries(), websocket, routes.value, e);
      }
    }
  }

  /** One desired entry: new, or put over the object that is kept. */
  lemma {:induction false} OneRouteIsSet(
    mode: Mode, kept: Routes, entries: seq<StageRouteSettings>, websocket: bool, sent: Routes,
    e: StageRouteSettings)
    requires Expands(entries, websocket, sent) && e in entries
    ensures var result := PutRoutes(mode, kept, sent);
            && e.routeKey in result
            && (HoldsSettings(result[e.routeKey], e, websocket)
                <==> (mode.Merge? && e.routeKey in kept ==>
                        NoForeignMember(kept[e.routeKey], e, websocket)))
  {
    if e.routeKey in kept { MergeGivesEntry(kept[e.routeKey], e, websocket); }
    var i :| 0 <= i < |entries| && entries[i] == e;
    ExpandHolds(sent[e.routeKey], e, websocket);
    ExpandHolds(PutRoutes(mode, kept, sent)[e.routeKey], e, websocket);
  }

  // ---------- from a stage that holds the prior configuration ----------

  /**
   * A stage that holds the prior configuration comes to hold the desired one whether the service
   * replaces or merges route objects, exactly when no foreign member is stored under a new route
   * key and a changed variable map holds no empty value. The second condition alone is the exact
   * one when objects are replaced.
   */
  lemma {:induction false} UpdateSetsTheStage(
    s: StageState, r: StageResource, prior: StageResource, websocket: bool,
    routes: Option<Routes>, patch: Option<Variables>)
    requires RoutesSent(r, prior, websocket, routes) && PatchSent(r, prior, patch)
    requires Holds(s, prior, websocket)
    requires DistinctKeys(prior.Entries()) && DistinctKeys(r.Entries())
    ensures Holds(After(Replace, s, r, prior, websocket, routes, patch), r, websocket)
            <==> (VariablesChanged(r, prior) ==> NoEmptyValues(r.Variables()))
    ensures (forall mode: Mode ::
               Holds(After(mode, s, r, prior, websocket, routes, patch), r, websocket))
            <==> && (RoutesChanged(r, prior) ==> NoForeignMembers(s.routes, r, prior, websocket))
                 && (VariablesChanged(r, prior) ==> NoEmptyValues(r.Variables()))
  {
    forall mode: Mode
      ensures Holds(After(mode, s, r, prior, websocket, routes, patch), r, websocket)
              <==> Ready(mode, s, r, prior, websocket)
    {
      UpdateFromAnyStage(mode, s, r, prior, websocket, routes, patch);
    }
    ReadyFromPrior(s, r, prior, websocket);
    assert Holds(After(Merge, s, r, prior, websocket, routes, patch), r, websocket) <==>
        Ready(Merge, s, r, prior, websocket);
  }

  lemma ReadyFromPrior(s: StageState, r: StageResource, prior: StageResource, websocket: bool)
    requires Holds(s, prior, websocket)
    requires DistinctKeys(prior.Entries()) && DistinctKeys(r.Entries())
    ensures MembersReady(s, r, prior, websocket)
    ensures VariablesReady(s.variables, r, prior)
            <==> (VariablesChanged(r, prior) ==> NoEmptyValues(r.Variables()))
    ensures RoutesReady(Replace, s.routes, r, prior, websocket)
    ensures RoutesReady(Merge, s.routes, r, prior, websocket)
            <==> (RoutesChanged(r, prior) ==> NoForeignMembers(s.routes, r, prior, websocket))
  {
    if RoutesChanged(r, prior) {
      forall e | e in r.Entries() && e.routeKey in s.routes
        ensures e.routeKey in RoutesKept(s.routes, r, prior)
                ==> e.routeKey !in Keys(prior.Entries())
                    || NoForeignMember(s.routes[e.routeKey], e, websocket)
        ensures e.routeKey !in Keys(prior.Entries())
                ==> e.routeKey in RoutesKept(s.routes, r, prior)
      {
        KeptOrNew(s.routes, r, prior, websocket, e);
      }
    }
  }

  /** An object that is not deleted is a kept entry's own, or is stored under a new key. */
  lemma KeptOrNew(
    stored: Routes, r: StageResource, prior: StageResource, websocket: bool,
    e: StageRouteSettings)
    requires HoldsRoutes(stored, prior, websocket) && RoutesChanged(r, prior)
    requires DistinctKeys(prior.Entries()) && DistinctKeys(r.Entries())
    requires e in r.Entries() && e.routeKey in stored
    ensures e.routeKey in RoutesKept(stored, r, prior)
            ==> e.routeKey !in Keys(prior.Entries())
                || NoForeignMember(stored[e.routeKey], e, websocket)
    ensures e.routeKey !in Keys(prior.Entries())
            ==> e.routeKey in RoutesKept(stored, r, prior)
  {
    if p :| p in prior.Entries() && p.routeKey == e.routeKey {
      if p in r.Entries() {
        assert p == e;
        MergeGivesEntry(stored[e.routeKey], e, websocket);
        ExpandHolds(stored[e.routeKey], e, websocket);
      } else {
        assert e.routeKey in ChangedKeys(prior.Entries(), r.Entries());
      }
    }
  }

  // ---------- after failed attempts at the same update ----------

  /** A failed attempt has made some of the deletes, or all its calls before a later step failed. */
  ghost predicate FailedAttempt(
    mode: Mode, before: StageState, after: StageState, r: StageResource, prior: StageResource,
    websocket: bool, routes: Option<Routes>, patch: Option<Variables>)
  {
    || PartlyCleared(before, after, r, prior)
    || after == After(mode, before, r, prior, websocket, routes, patch)
  }

  /** What failed attempts leave, one after another. */
  ghost predicate FailedAttempts(
    mode: Mode, before: StageState, left: seq<StageState>, r: StageResource,
    prior: StageResource, websocket: bool, routes: Option<Routes>, patch: Option<Variables>)
  {
    left == []
    || var earlier, last := left[..|left| - 1], left[|left| - 1];
       && FailedAttempts(mode, before, earlier, r, prior, websocket, routes, patch)
       && FailedAttempt(mode, Found(before, earlier), last, r, prior, websocket, routes, patch)
  }

  function Found(before: StageState, left: seq<StageState>): StageState {
    if left == [] then before else left[|left| - 1]
  }

  /** However often an update fails, made again it ends as if it had not. */
  lemma {:induction false} RetriedUpdateEndsTheSame(
    mode: Mode, before: StageState, left: seq<StageState>, r: StageResource,
    prior: StageResource, websocket: bool, routes: Option<Routes>, patch: Option<Variables>)
    requires FailedAttempts(mode, before, left, r, prior, websocket, routes, patch)
    ensures After(mode, Found(before, left), r, prior, websocket, routes, patch)
            == After(mode, before, r, prior, websocket, routes, patch)
  {
    if left != [] {
      var earlier, last := left[..|left| - 1], left[|left| - 1];
      RetriedUpdateEndsTheSame(mode, before, earlier, r, prior, websocket, routes, patch);
      var found := Found(before, earlier);
      if PartlyCleared(found, last, r, prior) {
        DeletesAreAbsorbed(found, last, r, prior);
      } else {
        TwiceIsOnce(mode, found, r, prior, websocket, routes, patch);
      }
    }
  }

  lemma TwiceIsOnce(
    mode: Mode, s: StageState, r: StageResource, prior: StageResource, websocket: bool,
    routes: Option<Routes>, patch: Option<Variables>)
    ensures var once := After(mode, s, r, prior, websocket, routes, patch);
            After(mode, once, r, prior, websocket, routes, patch) == once
  {
    var once := After(mode, s, r, prior, websocket, routes, patch);
    MapsAfter(mode, s, r, prior, websocket, routes, patch);
    MapsAfter(mode, once, r, prior, websocket, routes, patch);
    RoutesTwice(mode, s.routes, r, prior, routes);
    VariablesTwice(s.variables, patch);
    MembersTwice(mode, s, r, prior, websocket, routes, patch);
  }

  lemma RoutesTwice(
    mode: Mode, stored: Routes, r: StageResource, prior: StageResource, routes: Option<Routes>)
    ensures var once := RoutesAfter(mode, stored, r, prior, routes);
            RoutesAfter(mode, once, r, prior, routes) == once
  {
    var once := RoutesAfter(mode, stored, r, prior, routes);
    var kept, keptTwice := RoutesKept(stored, r, prior), RoutesKept(once, r, prior);
    if routes.Some? {
      var sent := routes.value;
      forall k | k in once ensures PutRoutes(mode, keptTwice, sent)[k] == once[k] {
        if k in sent && k in keptTwice { PutTwice(mode, if k in kept then kept[k] else sent[k], sent[k]); }
      }
    }
  }

  lemma PutTwice(mode: Mode, stored: RouteSettings, sent: RouteSettings)
    ensures Put(mode, Put(mode, stored, sent), sent) == Put(mode, stored, sent)
    ensures Put(mode, sent, sent) == sent
  {
  }

  lemma VariablesTwice(stored: Variables, patch: Option<Variables>)
    ensures var once := PatchSentVariables(stored, patch);
            PatchSentVariables(once, patch) == once
  {
  }

  lemma MembersTwice(
    mode: Mode, s: StageState, r: StageResource, prior: StageResource, websocket: bool,
    routes: Option<Routes>, patch: Option<Variables>)
    ensures var once := After(mode, s, r, prior, websocket, routes, patch);
            var twice := After(mode, once, r, prior, websocket, routes, patch);
            twice.(routes := once.routes, variables := once.variables) == once
  {
    var once := After(mode, s, r, prior, websocket, routes, patch);
    var twice := After(mode, once, r, prior, websocket, routes, patch);
    assert twice.accessLog == once.accessLog && twice.autoDeploy == once.autoDeploy;
    assert twice.defaults == once.defaults && twice.description == once.description;
  }

  /** Deletes that were made before are made again to no effect. */
  lemma DeletesAreAbsorbed(
    before: StageState, after: StageState, r: StageResource, prior: StageResource)
    requires PartlyCleared(before, after, r, prior)
    ensures Cleared(after, r, prior) == Cleared(before, r, prior)
  {
    var cleared := AccessLogCleared(before, r, prior);
    if RoutesChanged(r, prior) && DeletedSome(cleared, after, prior.Entries(), r.Entries()) {
      var i :| 0 <= i <= |prior.Entries()|
               && DeletedFirst(cleared, after, prior.Entries(), r.Entries(), i);
      FewerKeys(prior.Entries(), r.Entries(), i);
    }
  }

  lemma FewerKeys(prior: seq<StageRouteSettings>, desired: seq<StageRouteSettings>, i: nat)
    requires i <= |prior|
    ensures ChangedKeys(prior[..i], desired) <= ChangedKeys(prior, desired)
  {
    assert forall p :: p in prior[..i] ==> p in prior;
  }

  /** Keys of prior alone are gone; keys of neither configuration are as before. */
  ghost predicate OnlyManagedKeys<T(!new)>(
    stored: map<string, T>, result: map<string, T>, prior: set<string>, desired: set<string>)
  {
    && (forall k :: k in prior - desired ==> k !in result)
    && (forall k :: k !in prior + desired ==>
          (k in result <==> k in stored) && (k in result ==> result[k] == stored[k]))
  }

  /** Dropped keys are gone, and what neither configuration mentions is as before. */
  lemma {:induction false} UpdateLeavesTheRest(
    mode: Mode, s: StageState, r: StageResource, prior: StageResource, websocket: bool,
    routes: Option<Routes>, patch: Option<Variables>)
    requires RoutesSent(r, prior, websocket, routes) && PatchSent(r, prior, patch)
    ensures var s' := After(mode, s, r, prior, websocket, routes, patch);
            && OnlyManagedKeys(s.routes, s'.routes, Keys(prior.Entries()), Keys(r.Entries()))
            && OnlyManagedKeys(s.variables, s'.variables, prior.Variables().Keys, r.Variables().Keys)
            && (r.deploymentId.None? ==> s'.deploymentId == s.deploymentId)
            && (!DeclaresLevel(r.defaultRouteSettings, websocket) ==>
                  s'.defaults.loggingLevel == s.defaults.loggingLevel)
  {
    RoutesLeaveTheRest(mode, s.routes, r, prior, websocket, routes);
    VariablesLeaveTheRest(s.variables, r, prior, patch);
    MapsAfter(mode, s, r, prior, websocket, routes, patch);
  }

  lemma {:induction false} RoutesLeaveTheRest(
    mode: Mode, stored: Routes, r: StageResource, prior: StageResource, websocket: bool,
    routes: Option<Routes>)
    requires RoutesSent(r, prior, websocket, routes)
    ensures OnlyManagedKeys(stored, RoutesAfter(mode, stored, r, prior, routes),
                            Keys(prior.Entries()), Keys(r.Entries()))
  {
    var changed := ChangedKeys(prior.Entries(), r.Entries());
    forall k | k in Keys(prior.Entries()) - Keys(r.Entries()) ensures k in changed {
      var p :| p in prior.Entries() && p.routeKey == k;
    }
    assert changed <= Keys(prior.Entries());
  }

  lemma VariablesLeaveTheRest(
    stored: Variables, r: StageResource, prior: StageResource, patch: Option<Variables>)
    requires PatchSent(r, prior, patch)
    ensures OnlyManagedKeys(stored, PatchSentVariables(stored, patch),
                            prior.Variables().Keys, r.Variables().Keys)
  {
  }

  // ---------- stages that are not set to the desired configuration ----------

  const EMPTY_STAGE := StageState(None, false, "", "", "", NO_SETTINGS, map[], map[])
  const NOTHING_DECLARED := StageResource(None, None, None, None, None, None, None, None)

  /** A burst limit stored under a key that is new to the configuration outlives the update. */
  lemma ForeignMemberLingers()
    ensures var e := StageRouteSettings("GET /", None, None, None, None, Some(1.0));
            var stored := RouteSettings(None, Some(false), "", Some(10), None);
            var s := EMPTY_STAGE.(routes := map["GET /" := stored]);
            var r := NOTHING_DECLARED.(routeSettings := Some([e]));
            var routes: Routes := map["GET /" := Expand(e, false)];
            && Holds(s, NOTHING_DECLARED, false)
            && RoutesSent(r, NOTHING_DECLARED, false, Some(routes))
            && var s' := After(Merge, s, r, NOTHING_DECLARED, false, Some(routes), None);
               && s'.routes["GET /"].throttlingBurstLimit == Some(10)
               && !Holds(s', r, false)
  {
    var e := StageRouteSettings("GET /", None, None, None, None, Some(1.0));
    assert e in [e] && Keys([e]) == {"GET /"};
    assert Expand(e, false).throttlingBurstLimit == None;
  }

  /**
   * A route is changed and the attempt fails after its delete. Going back to the prior
   * configuration then sends nothing, and the route stays lost.
   */
  lemma GoingBackLosesARoute()
    ensures var e := StageRouteSettings("GET /", None, None, None, None, Some(1.0));
            var prior := NOTHING_DECLARED.(routeSettings := Some([e]));
            var tried := NOTHING_DECLARED.(
              routeSettings := Some([e.(throttlingRateLimit := Some(2.0))]));
            var before := EMPTY_STAGE.(routes := map["GET /" := Expand(e, false)]);
            && Holds(before, prior, false)
            && PartlyCleared(before, EMPTY_STAGE, tried, prior)
            && RoutesSent(prior, prior, false, None) && PatchSent(prior, prior, None)
            && forall mode: Mode ::
                 var s' := After(mode, EMPTY_STAGE, prior, prior, false, None, None);
                 s' == EMPTY_STAGE && !Holds(s', prior, false)
  {
    var e := StageRouteSettings("GET /", None, None, None, None, Some(1.0));
    var changed := e.(throttlingRateLimit := Some(2.0));
    var before := EMPTY_STAGE.(routes := map["GET /" := Expand(e, false)]);
    assert e in [e] && [e][..1] == [e] && !Kept(e, [changed]);
    assert "GET /" in ChangedKeys([e], [changed]);
    assert before.routes - ChangedKeys([e], [changed]) == map[];
    assert DeletedFirst(before, EMPTY_STAGE, [e], [changed], 1);
  }

  /** A declared empty variable is not there after the update. */
  lemma EmptyVariableIsNotSet()
    ensures var r := NOTHING_DECLARED.(stageVariables := Some(map["color" := ""]));
            var patch: Variables := map["color" := ""];
            && Holds(EMPTY_STAGE, NOTHING_DECLARED, false)
            && PatchSent(r, NOTHING_DECLARED, Some(patch))
            && forall mode: Mode ::
                 var s' := After(mode, EMPTY_STAGE, r, NOTHING_DECLARED, false, None, Some(patch));
                 "color" !in s'.variables && !Holds(s', r, false)
  {
    var patch: Variables := map["color" := ""];
    assert "color" in patch;
  }
}
