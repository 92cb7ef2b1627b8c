/** An API Gateway stage as the service stores it, and what its update calls do. */
module StageModel {
  import opened Options

  /** One route's settings as configured. */
  datatype StageRouteSettings = StageRouteSettings(
    routeKey: string,
    dataTraceEnabled: Option<bool>, detailedMetricsEnabled: Option<bool>,
    loggingLevel: Option<string>,
    throttlingBurstLimit: Option<int>, throttlingRateLimit: Option<real>)

  /** One route's settings as sent; an absent logging level is the empty string. */
  datatype RouteSettings = RouteSettings(
    dataTraceEnabled: Option<bool>, detailedMetricsEnabled: Option<bool>, loggingLevel: string,
    throttlingBurstLimit: Option<int>, throttlingRateLimit: Option<real>)

  /** A 64-bit value narrowed to 32 bits, wrapping around. */
  function Int32(v: int): int {
    (v + 0x8000_0000) % 0x1_0000_0000 - 0x8000_0000
  }

  /** An empty object, which is how the stage-wide default settings are reset. */
  const NO_SETTINGS := RouteSettings(None, None, "", None, None)

  function Expand(s: StageRouteSettings, websocket: bool): RouteSettings {
    RouteSettings(
      if websocket then Some(s.dataTraceEnabled.GetOr(false)) else None,
      Some(s.detailedMetricsEnabled.GetOr(false)),
      if websocket then s.loggingLevel.GetOr("") else "",
      if s.throttlingBurstLimit.Some? then Some(Int32(s.throttlingBurstLimit.value)) else None,
      s.throttlingRateLimit)
  }

  /** An object holds an entry, member by member; two members are sent to WebSocket APIs only. */
  predicate HoldsSettings(o: RouteSettings, e: StageRouteSettings, websocket: bool) {
    && o.detailedMetricsEnabled == Some(e.detailedMetricsEnabled == Some(true))
    && o.dataTraceEnabled == (if websocket then Some(e.dataTraceEnabled == Some(true)) else None)
    && (if websocket && e.loggingLevel.Some? then Some(o.loggingLevel) == e.loggingLevel
        else o.loggingLevel == "")
    && HoldsBurst(o.throttlingBurstLimit, e.throttlingBurstLimit)
    && o.throttlingRateLimit == e.throttlingRateLimit
  }

  /** The limit itself when it fits 32 bits; otherwise what it wraps around to. */
  predicate HoldsBurst(stored: Option<int>, declared: Option<int>) {
    && (stored.Some? <==> declared.Some?)
    && (stored.Some? ==>
          && -0x8000_0000 <= stored.value < 0x8000_0000
          && (declared.value - stored.value) % 0x1_0000_0000 == 0)
  }

  lemma Int32Wraps(v: int, n: int)
    ensures n == Int32(v)
            <==> -0x8000_0000 <= n < 0x8000_0000 && (v - n) % 0x1_0000_0000 == 0
    ensures -0x8000_0000 <= v < 0x8000_0000 ==> Int32(v) == v
  {
  }

  /** What is sent for an entry is what holds it. */
  lemma ExpandHolds(o: RouteSettings, e: StageRouteSettings, websocket: bool)
    ensures o == Expand(e, websocket) <==> HoldsSettings(o, e, websocket)
  {
    assert forall b: Option<bool> :: b.GetOr(false) <==> b == Some(true);
    var sent := Expand(e, websocket);
    assert sent.detailedMetricsEnabled == Some(e.detailedMetricsEnabled == Some(true));
    assert websocket ==> sent.dataTraceEnabled == Some(e.dataTraceEnabled == Some(true));
    if o.throttlingBurstLimit.Some? && e.throttlingBurstLimit.Some? {
      Int32Wraps(e.throttlingBurstLimit.value, o.throttlingBurstLimit.value);
    }
    if e.throttlingBurstLimit.Some? {
      Int32Wraps(e.throttlingBurstLimit.value, Int32(e.throttlingBurstLimit.value));
    }
  }

  /** Whether the service replaces a route's object or merges the members that are present. */
  datatype Mode = Replace | Merge

  function MergeMember<T>(old': Option<T>, new': Option<T>): Option<T> {
    if new'.Some? then new' else old'
  }

  function Put(mode: Mode, stored: RouteSettings, sent: RouteSettings): RouteSettings {
    match mode
    case Replace => sent
    case Merge => RouteSettings(
      MergeMember(stored.dataTraceEnabled, sent.dataTraceEnabled),
      MergeMember(stored.detailedMetricsEnabled, sent.detailedMetricsEnabled),
      if sent.loggingLevel != "" then sent.loggingLevel else stored.loggingLevel,
      MergeMember(stored.throttlingBurstLimit, sent.throttlingBurstLimit),
      MergeMember(stored.throttlingRateLimit, sent.throttlingRateLimit))
  }

  /** The stage-wide default: every member is reset, but a level is kept until another is sent. */
  function PutDefaults(stored: RouteSettings, sent: RouteSettings): RouteSettings {
    if sent.loggingLevel == "" then sent.(loggingLevel := stored.loggingLevel) else sent
  }

  type Routes = map<string, RouteSettings>
  type Variables = map<string, string>

  function PutRoutes(mode: Mode, stored: Routes, sent: Routes): Routes {
    map k | k in stored.Keys + sent.Keys ::
      if k !in sent then stored[k]
      else if k in stored then Put(mode, stored[k], sent[k])
      else sent[k]
  }

  /** Absent keys stay, an empty value removes its key. */
  function PatchVariables(stored: Variables, patch: Variables): Variables {
    map k | k in stored.Keys + patch.Keys && (k in patch ==> patch[k] != "") ::
      if k in patch then patch[k] else stored[k]
  }

  function PutSentRoutes(mode: Mode, stored: Routes, sent: Option<Routes>): Routes {
    if sent.Some? then PutRoutes(mode, stored, sent.value) else stored
  }

  function PatchSentVariables(stored: Variables, patch: Option<Variables>): Variables {
    if patch.Some? then PatchVariables(stored, patch.value) else stored
  }

  datatype StageState = StageState(
    accessLog: Option<string>, autoDeploy: bool, clientCertificateId: string,
    deploymentId: string, description: string, defaults: RouteSettings, routes: Routes,
    variables: Variables)

  /** An UpdateStage request: the members present are applied, the others left alone. */
  datatype StageRequest = StageRequest(
    accessLog: Option<string>, autoDeploy: Option<bool>, clientCertificateId: Option<string>,
    deploymentId: Option<string>, description: Option<string>, defaults: Option<RouteSettings>,
    routes: Option<Routes>, variables: Option<Variables>)

  function Apply(mode: Mode, s: StageState, r: StageRequest): StageState {
    StageState(
      MergeMember(s.accessLog, r.accessLog),
      r.autoDeploy.GetOr(s.autoDeploy),
      r.clientCertificateId.GetOr(s.clientCertificateId),
      r.deploymentId.GetOr(s.deploymentId),
      r.description.GetOr(s.description),
      if r.defaults.Some? then PutDefaults(s.defaults, r.defaults.value) else s.defaults,
      PutSentRoutes(mode, s.routes, r.routes),
      PatchSentVariables(s.variables, r.variables))
  }

  datatype CallEnd = Done | NotFound | Failed

  /** The service; any call may fail and then does nothing. */
  class StageService {
    const mode: Mode
    var state: StageState
    ghost var mutations: nat  // the accepted mutating calls
    ghost var failures: nat   // the calls that failed

    constructor (mode: Mode, state: StageState)
      ensures this.mode == mode && this.state == state && mutations == 0 && failures == 0
    {
      this.mode, this.state, mutations, failures := mode, state, 0, 0;
    }

    method DeleteAccessLogSettings() returns (end: CallEnd)
      modifies this
      ensures !end.Failed? ==> state == old(state).(accessLog := None)
      ensures end.Failed? ==> state == old(state)
      ensures failures == old(failures) + if end.Failed? then 1 else 0
      ensures mutations == old(mutations) + if end.Done? then 1 else 0
    {
      var ok: bool := *;
      if !ok {
        failures := failures + 1;
        return Failed;
      }
      if state.accessLog.None? {
        return NotFound;
      }
      state, mutations := state.(accessLog := None), mutations + 1;
      return Done;
    }

    method DeleteRouteSettings(key: string) returns (end: CallEnd)
      modifies this
      ensures !end.Failed? ==> state == old(state).(routes := old(state).routes - {key})
      ensures end.Failed? ==> state == old(state)
      ensures failures == old(failures) + if end.Failed? then 1 else 0
      ensures mutations == old(mutations) + if end.Done? then 1 else 0
    {
      var ok: bool := *;
      if !ok {
        failures := failures + 1;
        return Failed;
      }
      if key !in state.routes {
        assert state.routes - {key} == state.routes;
        return NotFound;
      }
      state, mutations := state.(routes := state.routes - {key}), mutations + 1;
      return Done;
    }

    method UpdateStage(request: StageRequest) returns (ok: bool)
      modifies this
      ensures state == if ok then Apply(mode, old(state), request) else old(state)
      ensures failures == old(failures) + if ok then 0 else 1
      ensures mutations == old(mutations) + if ok then 1 else 0
    {
      ok := *;
      if ok {
        state, mutations := Apply(mode, state, request), mutations + 1;
      } else {
        failures := failures + 1;
      }
    }
  }
}
