/** CloudFront calls and answers during one delete, and what a safe trace of them is. */
module DistributionTrace {
  import opened Options

  datatype CloudError =
    | NoSuchDistribution | DistributionNotDisabled | PreconditionFailed | InvalidIfMatchVersion
    | LoggingBucketGone | WaitTimedOut | Interrupted | OtherError(code: string)

  datatype Logging = Logging(enabled: bool, includeCookies: bool, bucket: string, prefix: string)

  /** The logging section an update sends once the log bucket is gone. */
  const NO_LOGGING := Logging(false, false, "", "")

  /** A configuration by value; settings stands for every member a delete leaves alone. */
  datatype ConfigValue = ConfigValue(
    enabled: Option<bool>, logging: Option<Logging>, settings: string)

  /** A distribution as read: its version token, and its status when the body holds one. */
  datatype DistributionInfo = DistributionInfo(etag: string, status: Option<string>)

  datatype Event =
    | GetConfig(config: Result<Option<ConfigValue>, CloudError>)
    | GetDistribution(info: Result<DistributionInfo, CloudError>)
    | UpdateDistribution(sent: ConfigValue, ifMatch: string, failure: Option<CloudError>)
    | DeleteDistribution(ifMatch: string, failure: Option<CloudError>)

  type Trace = seq<Event>

  predicate IsGone(e: Event) {
    match e
    case GetConfig(config) => config == Err(NoSuchDistribution)
    case GetDistribution(info) => info == Err(NoSuchDistribution)
    case UpdateDistribution(_, _, failure) => failure == Some(NoSuchDistribution)
    case DeleteDistribution(_, failure) => failure == Some(NoSuchDistribution)
  }

  /** Some answer so far was that the distribution does not exist. */
  ghost predicate AnyGone(t: Trace) {
    exists i :: 0 <= i < |t| && IsGone(t[i])
  }

  /** The write carries the token of the read right before it. */
  predicate FreshToken(t: Trace, ifMatch: string) {
    && t != []
    && t[|t| - 1].GetDistribution?
    && t[|t| - 1].info.Ok?
    && t[|t| - 1].info.value.etag == ifMatch
  }

  /** The configuration last read, when that read gave one. */
  function LiveConfig(t: Trace): Option<ConfigValue> {
    if t == [] then None
    else match t[|t| - 1]
      case GetConfig(Ok(config)) => config
      case GetConfig(Err(_)) => None
      case _ => LiveConfig(t[..|t| - 1])
  }

  /** Two events back, an update was refused because the log bucket is gone. */
  predicate BucketJustRefused(t: Trace) {
    && |t| >= 2
    && t[|t| - 2].UpdateDistribution?
    && t[|t| - 2].failure == Some(LoggingBucketGone)
  }

  /** An update sends the live configuration, which is enabled, with only that flag turned off;
      without logging only after a refusal. */
  predicate DisablesLive(t: Trace, sent: ConfigValue) {
    && LiveConfig(t).Some? && LiveConfig(t).value.enabled.GetOr(false)
    && var disabled := LiveConfig(t).value.(enabled := Some(false));
       || sent == disabled
       || (sent == disabled.(logging := Some(NO_LOGGING)) && BucketJustRefused(t))
  }

  predicate NotEnabled(config: Option<ConfigValue>) {
    config.None? || !config.value.enabled.GetOr(false)
  }

  predicate AcceptedDisable(e: Event) {
    e.UpdateDistribution? && e.failure.None? && e.sent.enabled == Some(false)
  }

  predicate SeenDeployed(e: Event) {
    e.GetDistribution? && e.info.Ok? && e.info.value.status == Some("Deployed")
  }

  /**
   * At position c the configuration was last read; it was nil or disabled, or since then a
   * disabling update was accepted and the distribution was seen deployed after it.
   */
  ghost predicate DisabledSince(t: Trace, c: nat) {
    && ReadAt(t, c)
    && (|| NotEnabled(t[c].config.value)
        || exists u: nat, d: nat :: c < u < d < |t| && AcceptedDisable(t[u]) && SeenDeployed(t[d]))
  }

  /** The last read of the configuration is at c, and it answered. */
  ghost predicate ReadAt(t: Trace, c: nat) {
    && c < |t| && t[c].GetConfig? && t[c].config.Ok?
    && forall k :: c < k < |t| ==> !t[k].GetConfig?
  }

  /** A distribution mid-deploy was waited out: it was seen deployed since the last read. */
  ghost predicate Settled(t: Trace) {
    exists c: nat, d: nat :: c < d < |t| && ReadAt(t, c) && SeenDeployed(t[d])
  }

  /** The disable step of the current attempt has succeeded. */
  ghost predicate Disabled(t: Trace) {
    exists c: nat :: DisabledSince(t, c)
  }

  function Failure(e: Event): Option<CloudError> {
    match e
    case GetConfig(config) => if config.Err? then Some(config.error) else None
    case GetDistribution(info) => if info.Err? then Some(info.error) else None
    case UpdateDistribution(_, _, failure) => failure
    case DeleteDistribution(_, failure) => failure
  }

  /** How often the configuration was read, which is once for each disable step. */
  ghost function ConfigReads(t: Trace): nat {
    if t == [] then 0
    else ConfigReads(t[..|t| - 1]) + if t[|t| - 1].GetConfig? then 1 else 0
  }

  /** The last call was answered without an error. */
  ghost predicate LastOk(t: Trace) {
    t != [] && Failure(t[|t| - 1]).None?
  }

  /**
   * A disable step begins the delete, follows the first one once that has succeeded, and follows
   * every later answer that the distribution is not disabled. Nothing else starts one.
   */
  ghost predicate MayReadConfig(t: Trace) {
    || t == []
    || (LastOk(t) && ConfigReads(t) == 1 && Disabled(t))
    || (t != [] && Failure(t[|t| - 1]) == Some(DistributionNotDisabled) && ConfigReads(t) >= 2)
  }

  /**
   * When the distribution may be read after an error: after an update refused for the log bucket,
   * unless that was the attempt without logging; after a delete, or the read for one, that met a
   * stale token; and to see that a missing distribution is gone. Any other error is the last.
   */
  ghost predicate MayReadDistribution(t: Trace) {
    && t != []
    && match Failure(t[|t| - 1])
       case None => true
       case Some(LoggingBucketGone) =>
         t[|t| - 1].UpdateDistribution? && !BucketJustRefused(t[..|t| - 1])
       case Some(PreconditionFailed) =>
         Disabled(t) && (t[|t| - 1].DeleteDistribution? || t[|t| - 1].GetDistribution?)
       case Some(InvalidIfMatchVersion) =>
         Disabled(t) && (t[|t| - 1].DeleteDistribution? || t[|t| - 1].GetDistribution?)
       case Some(NoSuchDistribution) => ConfigReads(t) >= 2
       case Some(_) => false
  }

  /** What may be sent after the events of t. */
  ghost predicate Allowed(t: Trace, e: Event) {
    match e
    case UpdateDistribution(sent, ifMatch, _) =>
      !AnyGone(t) && FreshToken(t, ifMatch) && DisablesLive(t, sent) && Settled(t)
    case DeleteDistribution(ifMatch, _) =>
      !AnyGone(t) && FreshToken(t, ifMatch) && Disabled(t)
    case GetConfig(_) => MayReadConfig(t)
    case GetDistribution(_) => MayReadDistribution(t)
  }

  /**
   * In a safe trace, what follows an error: a stale token or a log bucket that is gone leads to
   * another read of the distribution, an answer that it is not disabled to another disable step,
   * and one that it is missing to a last poll. Any other error ends the trace.
   */
  lemma {:induction false} AfterAnError(t: Trace, i: nat)
    requires Safe(t) && i + 1 < |t|
    ensures var next := t[i + 1];
            match Failure(t[i])
            case None => true
            case Some(PreconditionFailed) =>
              next.GetDistribution? && (t[i].DeleteDistribution? || t[i].GetDistribution?)
            case Some(InvalidIfMatchVersion) =>
              next.GetDistribution? && (t[i].DeleteDistribution? || t[i].GetDistribution?)
            case Some(LoggingBucketGone) => next.GetDistribution? && t[i].UpdateDistribution?
            case Some(DistributionNotDisabled) => next.GetConfig?
            case Some(NoSuchDistribution) => next.GetDistribution?
            case Some(_) => false
  {
    SafeAt(t, i + 1);
    assert t[..i + 1][|t[..i + 1]| - 1] == t[i];
  }

  /** Every call of the trace was allowed when it was sent. */
  ghost predicate Safe(t: Trace) {
    t == [] || (Safe(t[..|t| - 1]) && Allowed(t[..|t| - 1], t[|t| - 1]))
  }

  lemma {:induction false} SafeAt(t: Trace, i: nat)
    requires Safe(t) && i < |t|
    ensures Allowed(t[..i], t[i])
  {
    var front := t[..|t| - 1];
    if i < |front| {
      SafeAt(front, i);
      assert front[..i] == t[..i];
    }
  }

  lemma {:induction false} AllowedIsSafe(t: Trace)
    requires forall i :: 0 <= i < |t| ==> Allowed(t[..i], t[i])
    ensures Safe(t)
  {
    if t != [] {
      var front := t[..|t| - 1];
      forall i | 0 <= i < |front| ensures Allowed(front[..i], front[i]) {
        assert Allowed(t[..i], t[i]) && front[..i] == t[..i];
      }
      AllowedIsSafe(front);
    }
  }

  /** The same by positions: each call was allowed after the events before it. */
  lemma SafeMeaning(t: Trace)
    ensures Safe(t) <==> forall i :: 0 <= i < |t| ==> Allowed(t[..i], t[i])
  {
    if Safe(t) {
      forall i | 0 <= i < |t| ensures Allowed(t[..i], t[i]) { SafeAt(t, i); }
    } else if forall i :: 0 <= i < |t| ==> Allowed(t[..i], t[i]) {
      AllowedIsSafe(t);
    }
  }

  lemma SafeNext(t: Trace, e: Event)
    requires Safe(t) && Allowed(t, e)
    ensures Safe(t + [e])
    ensures AnyGone(t + [e]) <==> AnyGone(t) || IsGone(e)
  {
    var longer := t + [e];
    assert longer[..|longer| - 1] == t;
    if i :| 0 <= i < |t| && IsGone(t[i]) { assert IsGone(longer[i]); }
    if IsGone(e) { assert IsGone(longer[|t|]); }
    if i :| 0 <= i < |longer| && IsGone(longer[i]) { assert i < |t| ==> IsGone(t[i]); }
  }

  /** Only a new read of the configuration starts a new attempt. */
  lemma StillDisabled(t: Trace, e: Event)
    requires Disabled(t) && !e.GetConfig?
    ensures Disabled(t + [e])
  {
    var c: nat :| DisabledSince(t, c);
    var longer := t + [e];
    assert forall k :: 0 <= k < |t| ==> longer[k] == t[k];
    if u: nat, d: nat :| c < u < d < |t| && AcceptedDisable(t[u]) && SeenDeployed(t[d]) {
      assert AcceptedDisable(longer[u]) && SeenDeployed(longer[d]);
    }
    assert DisabledSince(longer, c);
  }

  lemma StillRead(t: Trace, c: nat, e: Event)
    requires ReadAt(t, c) && !e.GetConfig?
    ensures ReadAt(t + [e], c) && LiveConfig(t + [e]) == LiveConfig(t)
  {
    assert (t + [e])[..|t|] == t;
  }

  lemma StillSettled(t: Trace, e: Event)
    requires Settled(t) && !e.GetConfig?
    ensures Settled(t + [e])
  {
    var c: nat, d: nat :| c < d < |t| && ReadAt(t, c) && SeenDeployed(t[d]);
    StillRead(t, c, e);
    assert SeenDeployed((t + [e])[d]);
  }

  predicate FailedWith(e: Event, error: CloudError) {
    match e
    case GetConfig(config) => config == Err(error)
    case GetDistribution(info) => info == Err(error)
    case UpdateDistribution(_, _, failure) => failure == Some(error)
    case DeleteDistribution(_, failure) => failure == Some(error)
  }

  /** The last answer of the service was this error. */
  predicate EndsWith(t: Trace, error: CloudError) {
    t != [] && FailedWith(t[|t| - 1], error)
  }
}
