/** The stage update: a sequence of partial writes that sets the stage to the desired one. */
module StageUpdate {
  import opened Options
  import opened StageModel

  datatype StageResource = StageResource(
    accessLogSettings: Option<string>, autoDeploy: Option<bool>,
    clientCertificateId: Option<string>, defaultRouteSettings: Option<StageRouteSettings>,
    deploymentId: Option<string>, description: Option<string>,
    routeSettings: Option<seq<StageRouteSettings>>,
    stageVariables: Option<Variables>)
  {
    function Entries(): seq<StageRouteSettings> {
      routeSettings.GetOr([])
    }

    /** The stage-wide default is an entry whose route key is not sent. */
    function Defaults(websocket: bool): RouteSettings {
      if defaultRouteSettings.Some? then Expand(defaultRouteSettings.value, websocket)
      else NO_SETTINGS
    }

    function Variables(): StageModel.Variables {
      stageVariables.GetOr(map[])
    }
  }

  // ---------- per-route settings ----------

  predicate DistinctKeys(entries: seq<StageRouteSettings>) {
    forall i, j :: 0 <= i < j < |entries| ==> entries[i].routeKey != entries[j].routeKey
  }

  ghost function Keys(entries: seq<StageRouteSettings>): set<string> {
    set e | e in entries :: e.routeKey
  }

  /** The map holds each entry under its key and nothing else. */
  ghost predicate Expands(entries: seq<StageRouteSettings>, websocket: bool, routes: Routes) {
    && routes.Keys == Keys(entries)
    && forall i :: 0 <= i < |entries| ==>
         && entries[i].routeKey in routes
         && HoldsSettings(routes[entries[i].routeKey], entries[i], websocket)
  }

  method StageRouteSettingsMap(entries: seq<StageRouteSettings>, websocket: bool)
    returns (routes: Option<Routes>)
    ensures routes.Some? <==> DistinctKeys(entries)
    ensures routes.Some? ==> Expands(entries, websocket, routes.value)
  {
    var out: Routes := map[];
    for i := 0 to |entries|
      invariant DistinctKeys(entries[..i]) && Expands(entries[..i], websocket, out)
    {
      var e := entries[i];
      DistinctStep(entries, i);
      if e.routeKey in out {
        return None;
      }
      ExpandsStep(entries, i, websocket, out);
      out := out[e.routeKey := Expand(e, websocket)];
    }
    assert entries[..|entries|] == entries;
    return Some(out);
  }

  lemma DistinctStep(entries: seq<StageRouteSettings>, i: nat)
    requires i < |entries| && DistinctKeys(entries[..i])
    ensures DistinctKeys(entries[..i + 1]) <==> entries[i].routeKey !in Keys(entries[..i])
    ensures DistinctKeys(entries) ==> DistinctKeys(entries[..i + 1])
  {
    var shorter, longer := entries[..i], entries[..i + 1];
    assert forall k :: 0 <= k < i ==> shorter[k] == longer[k] == entries[k];
    assert longer[i] == entries[i];
    if entries[i].routeKey in Keys(shorter) {
      var k :| 0 <= k < i && shorter[k].routeKey == entries[i].routeKey;
      assert longer[k].routeKey == longer[i].routeKey;
    }
  }

  lemma ExpandsStep(entries: seq<StageRouteSettings>, i: nat, websocket: bool, out: Routes)
    requires i < |entries| && Expands(entries[..i], websocket, out)
    requires entries[i].routeKey !in out
    ensures Expands(entries[..i + 1], websocket,
                    out[entries[i].routeKey := Expand(entries[i], websocket)])
  {
    var shorter, longer := entries[..i], entries[..i + 1];
    ExpandHolds(Expand(entries[i], websocket), entries[i], websocket);
    assert longer == shorter + [entries[i]];
    assert forall k :: 0 <= k < i ==> longer[k] == shorter[k];
    assert Keys(longer) == Keys(shorter) + {entries[i].routeKey};
  }

  /** The prior entry is still desired, unchanged. */
  predicate Kept(p: StageRouteSettings, desired: seq<StageRouteSettings>) {
    p in desired
  }

  /** The keys of the prior entries that were removed or changed. */
  ghost function ChangedKeys(
    prior: seq<StageRouteSettings>, desired: seq<StageRouteSettings>): set<string>
  {
    set p | p in prior && !Kept(p, desired) :: p.routeKey
  }

  method EntriesByKey(desired: seq<StageRouteSettings>)
    returns (byKey: map<string, StageRouteSettings>)
    requires DistinctKeys(desired)
    ensures forall p :: p in desired <==> p.routeKey in byKey && byKey[p.routeKey] == p
  {
    byKey := map[];
    for i := 0 to |desired|
      invariant byKey.Keys == Keys(desired[..i])
      invariant forall k :: 0 <= k < i ==> byKey[desired[k].routeKey] == desired[k]
    {
      assert desired[..i + 1] == desired[..i] + [desired[i]];
      assert forall k :: 0 <= k < i ==> desired[k] in desired[..i];
      byKey := byKey[desired[i].routeKey := desired[i]];
    }
    assert desired[..|desired|] == desired;
    AllByKey(desired, byKey);
  }

  lemma AllByKey(desired: seq<StageRouteSettings>, byKey: map<string, StageRouteSettings>)
    requires byKey.Keys == Keys(desired)
    requires forall k :: 0 <= k < |desired| ==> byKey[desired[k].routeKey] == desired[k]
    ensures forall p :: p in desired <==> p.routeKey in byKey && byKey[p.routeKey] == p
  {
    forall p ensures p in desired <==> p.routeKey in byKey && byKey[p.routeKey] == p {
      if p.routeKey in Keys(desired) {
        var k :| 0 <= k < |desired| && desired[k].routeKey == p.routeKey;
      }
    }
  }

  /** The deletes for the first few prior entries have been made. */
  ghost predicate DeletedSome(
    before: StageState, after: StageState, prior: seq<StageRouteSettings>,
    desired: seq<StageRouteSettings>)
  {
    exists i :: 0 <= i <= |prior| && DeletedFirst(before, after, prior, desired, i)
  }

  ghost predicate DeletedFirst(
    before: StageState, after: StageState, prior: seq<StageRouteSettings>,
    desired: seq<StageRouteSettings>, i: nat)
    requires i <= |prior|
  {
    after == before.(routes := before.routes - ChangedKeys(prior[..i], desired))
  }

  method StageDeleteRouteSettings(
    service: StageService, prior: seq<StageRouteSettings>, desired: seq<StageRouteSettings>)
    returns (ok: bool)
    requires DistinctKeys(desired)
    modifies service
    ensures ok ==> service.state == old(service.state).(
                     routes := old(service.state).routes - ChangedKeys(prior, desired))
    ensures DeletedSome(old(service.state), service.state, prior, desired)
    ensures service.failures == old(service.failures) + if ok then 0 else 1
    ensures prior == desired ==> service.mutations == old(service.mutations)
  {
    var desiredByKey := EntriesByKey(desired);
    for i := 0 to |prior|
      invariant DeletedFirst(old(service.state), service.state, prior, desired, i)
      invariant service.failures == old(service.failures)
      invariant prior == desired ==> service.mutations == old(service.mutations)
    {
      var p := prior[i];
      ChangedKeysStep(prior, desired, i);
      if p.routeKey in desiredByKey && p == desiredByKey[p.routeKey] {
        continue;
      }
      ghost var before := service.state.routes;
      var end := service.DeleteRouteSettings(p.routeKey);
      if end.Failed? {
        return false;
      }
      assert service.state.routes == before - {p.routeKey};
    }
    assert prior[..|prior|] == prior;
    return true;
  }

  lemma ChangedKeysStep(
    prior: seq<StageRouteSettings>, desired: seq<StageRouteSettings>, i: nat)
    requires i < |prior|
    ensures ChangedKeys(prior[..i + 1], desired)
            == ChangedKeys(prior[..i], desired)
               + if Kept(prior[i], desired) then {} else {prior[i].routeKey}
  {
    assert prior[..i + 1] == prior[..i] + [prior[i]];
  }

  // ---------- stage variables ----------

  /** The desired values, and an empty one for each prior key no longer desired. */
  ghost predicate IsPatch(prior: Variables, desired: Variables, patch: Variables) {
    && (forall k :: k in patch <==> k in desired || k in prior)
    && (forall k :: k in desired ==> k in patch && patch[k] == desired[k])
    && (forall k :: k in patch && k !in desired ==> patch[k] == "")
  }

  method StageVariablesPatch(prior: Variables, desired: Variables) returns (patch: Variables)
    ensures IsPatch(prior, desired, patch)
  {
    patch := desired;
    var keys := prior.Keys;
    while keys != {}
      invariant keys <= prior.Keys
      invariant forall k :: k in patch <==> k in desired || (k in prior && k !in keys)
      invariant forall k :: k in desired ==> k in patch && patch[k] == desired[k]
      invariant forall k :: k in patch && k !in desired ==> patch[k] == ""
      decreases |keys|
    {
      var k :| k in keys;
      keys := keys - {k};
      if k !in desired {
        patch := patch[k := ""];
      }
    }
  }

  // ---------- the whole update ----------

  datatype UpdateEnd = Updated | ApiUnread | DuplicateRouteKey | ServiceError

  predicate RoutesChanged(r: StageResource, prior: StageResource) {
    prior.routeSettings != r.routeSettings
  }

  predicate VariablesChanged(r: StageResource, prior: StageResource) {
    prior.Variables() != r.Variables()
  }

  /** What GetApi answers about the API the stage belongs to. */
  datatype Api = Api(websocket: bool)

  ghost function AccessLogCleared(s: StageState, r: StageResource, prior: StageResource)
    : StageState
  {
    if prior.accessLogSettings != r.accessLogSettings && r.accessLogSettings.None?
    then s.(accessLog := None) else s
  }

  /** The deletes that come before the UpdateStage call. */
  ghost function Cleared(s: StageState, r: StageResource, prior: StageResource): StageState {
    AccessLogCleared(s, r, prior).(routes := RoutesKept(s.routes, r, prior))
  }

  ghost function RoutesKept(stored: Routes, r: StageResource, prior: StageResource): Routes {
    if RoutesChanged(r, prior) then stored - ChangedKeys(prior.Entries(), r.Entries()) else stored
  }

  /** The members an update sends: the changed ones, and no deployment when it was removed. */
  function Request(
    r: StageResource, prior: StageResource, websocket: bool, routes: Option<Routes>,
    patch: Option<Variables>): StageRequest
  {
    StageRequest(
      if r.accessLogSettings.Some? && prior.accessLogSettings != r.accessLogSettings
      then r.accessLogSettings else None,
      if prior.autoDeploy != r.autoDeploy then Some(r.autoDeploy.GetOr(false)) else None,
      if prior.clientCertificateId != r.clientCertificateId
      then Some(r.clientCertificateId.GetOr("")) else None,
      if r.deploymentId.Some? && prior.deploymentId != r.deploymentId then r.deploymentId else None,
      if prior.description != r.description then Some(r.description.GetOr("")) else None,
      if prior.defaultRouteSettings != r.defaultRouteSettings
      then Some(r.Defaults(websocket)) else None,
      routes, patch)
  }

  const NOTHING_TO_SEND := StageRequest(None, None, None, None, None, None, None, None)

  /** The per-route settings sent: all the desired ones, when they changed and there are any. */
  ghost predicate RoutesSent(
    r: StageResource, prior: StageResource, websocket: bool, routes: Option<Routes>)
  {
    && (routes.Some? <==> RoutesChanged(r, prior) && r.Entries() != [])
    && (routes.Some? ==> Expands(r.Entries(), websocket, routes.value))
  }

  ghost predicate PatchSent(r: StageResource, prior: StageResource, patch: Option<Variables>) {
    && (patch.Some? <==> VariablesChanged(r, prior) &&
                         (prior.Variables() != map[] || r.Variables() != map[]))
    && (patch.Some? ==> IsPatch(prior.Variables(), r.Variables(), patch.value))
  }

  /** A failed update has made some of the deletes, in their order, and nothing else. */
  ghost predicate PartlyCleared(
    before: StageState, after: StageState, r: StageResource, prior: StageResource)
  {
    || after == before
    || (&& RoutesChanged(r, prior)
        && DeletedSome(AccessLogCleared(before, r, prior), after, prior.Entries(), r.Entries()))
    || after == AccessLogCleared(before, r, prior)
  }

  /**
   * The API is read and a duplicate route key refused before anything is changed; the rest is
   * deletes, then one call.
   */
  method UpdateStage(
    service: StageService, api: Option<Api>, r: StageResource, prior: StageResource)
    returns (end: UpdateEnd, ghost routes: Option<Routes>, ghost patch: Option<Variables>)
    modifies service
    ensures end.ApiUnread? <==> api.None?
    ensures end.DuplicateRouteKey? <==>
              api.Some? && RoutesChanged(r, prior) && !DistinctKeys(r.Entries())
    ensures end.ApiUnread? || end.DuplicateRouteKey? ==>
              service.mutations == old(service.mutations) && service.state == old(service.state)
    ensures end.Updated? ==>
              && RoutesSent(r, prior, api.value.websocket, routes) && PatchSent(r, prior, patch)
              && service.state == Apply(service.mode, Cleared(old(service.state), r, prior),
                                        Request(r, prior, api.value.websocket, routes, patch))
    ensures end.ServiceError? ==> PartlyCleared(old(service.state), service.state, r, prior)
    ensures service.failures == old(service.failures) + if end.ServiceError? then 1 else 0
    ensures r == prior ==> service.mutations == old(service.mutations)
  {
    routes, patch := None, None;
    if api.None? {
      return ApiUnread, None, None;
    }
    var websocket := api.value.websocket;
    var desiredRoutes: Option<Routes> := None;
    if RoutesChanged(r, prior) && |r.Entries()| > 0 {
      desiredRoutes := StageRouteSettingsMap(r.Entries(), websocket);
      if desiredRoutes.None? {
        return DuplicateRouteKey, None, None;
      }
    }
    routes := desiredRoutes;
    var ok := ClearRemoved(service, r, prior);
    if !ok {
      return ServiceError, routes, None;
    }
    AllCleared(old(service.state), r, prior);
    ok, patch := SendChanges(service, r, prior, websocket, desiredRoutes);
    end := if ok then Updated else ServiceError;
  }

  method ClearRemoved(service: StageService, r: StageResource, prior: StageResource)
    returns (ok: bool)
    requires RoutesChanged(r, prior) ==> DistinctKeys(r.Entries())
    modifies service
    ensures ok ==> service.state == Cleared(old(service.state), r, prior)
    ensures !ok ==> PartlyCleared(old(service.state), service.state, r, prior)
    ensures service.failures == old(service.failures) + if ok then 0 else 1
    ensures r == prior ==> service.mutations == old(service.mutations)
  {
    if prior.accessLogSettings != r.accessLogSettings && r.accessLogSettings.None? {
      var deleted := service.DeleteAccessLogSettings();
      if deleted.Failed? {
        return false;
      }
    }
    assert service.state == AccessLogCleared(old(service.state), r, prior);
    ok := true;
    if RoutesChanged(r, prior) {
      ok := StageDeleteRouteSettings(service, prior.Entries(), r.Entries());
    }
  }

  lemma AllCleared(s: StageState, r: StageResource, prior: StageResource)
    ensures PartlyCleared(s, Cleared(s, r, prior), r, prior)
  {
    var before := AccessLogCleared(s, r, prior);
    if RoutesChanged(r, prior) {
      assert prior.Entries()[..|prior.Entries()|] == prior.Entries();
      assert DeletedFirst(before, Cleared(s, r, prior), prior.Entries(), r.Entries(),
                          |prior.Entries()|);
    }
  }

  method SendChanges(
    service: StageService, r: StageResource, prior: StageResource, websocket: bool,
    routes: Option<Routes>)
    returns (ok: bool, ghost patch: Option<Variables>)
    modifies service
    ensures PatchSent(r, prior, patch)
    ensures service.state == if ok then Apply(service.mode, old(service.state),
                                              Request(r, prior, websocket, routes, patch))
                             else old(service.state)
    ensures service.failures == old(service.failures) + if ok then 0 else 1
    ensures r == prior && routes.None? ==> service.mutations == old(service.mutations)
    ensures service.mutations <= old(service.mutations) + 1
  {
    var variables: Option<Variables> := None;
    if VariablesChanged(r, prior) {
      var all := StageVariablesPatch(prior.Variables(), r.Variables());
      PatchSize(prior.Variables(), r.Variables(), all);
      if |all| > 0 {
        variables := Some(all);
      }
    }
    patch := variables;
    var request := Request(r, prior, websocket, routes, variables);
    ok := true;
    if request != NOTHING_TO_SEND {
      ok := service.UpdateStage(request);
    }
  }

  lemma PatchSize(prior: Variables, desired: Variables, patch: Variables)
    requires IsPatch(prior, desired, patch)
    ensures |patch| > 0 <==> prior != map[] || desired != map[]
  {
    assert |patch| == |patch.Keys|;
    if k :| k in prior { assert k in patch.Keys; }
    if k :| k in desired { assert k in patch.Keys; }
    if k :| k in patch { assert k in prior || k in desired; }
  }
}
