/** Deleting a CloudFront distribution against a service that may answer anything. */
module DistributionDelete {
  import opened Options
  import opened Clock
  import Waiting
  import opened DistributionTrace

  const DEPLOY_TIMEOUT := 5400000
  const DEPLOY_INTERVAL := 30000
  const DELETE_WAIT_TIMEOUT := 5400000
  const DELETE_WAIT_INTERVAL := 15000
  const DISABLE_RETRY_TIMEOUT := 180000
  const ETAG_RETRY_TIMEOUT := 60000
  const RETRY_INTERVAL := 5000

  /** A configuration as the client holds it, changed in place before it is sent. */
  class DistributionConfig {
    var enabled: Option<bool>
    var logging: Option<Logging>
    const settings: string

    constructor (value: ConfigValue)
      ensures Value() == value
    {
      enabled, logging, settings := value.enabled, value.logging, value.settings;
    }

    function Value(): ConfigValue
      reads this
    {
      ConfigValue(enabled, logging, settings)
    }
  }

  /** The service and the clock; every answer is arbitrary, and time passes during calls. */
  class CloudFront {
    const clock: Clock
    ghost var trace: Trace

    constructor (clock: Clock)
      ensures this.clock == clock && trace == []
    {
      this.clock := clock;
      trace := [];
    }

    method GetDistributionConfig()
      returns (config: DistributionConfig?, err: Option<CloudError>)
      modifies this, clock
      ensures clock.now >= old(clock.now) && clock.naps == old(clock.naps)
      ensures config != null ==> fresh(config) && err.None?
      ensures trace == old(trace) + [GetConfig(
                if err.Some? then Err(err.value)
                else Ok(if config == null then None else Some(config.Value())))]
    {
      clock.Elapse();
      var answer: Result<Option<ConfigValue>, CloudError> := *;
      trace := trace + [GetConfig(answer)];
      config := null;
      match answer
      case Err(e) => err := Some(e);
      case Ok(value) =>
        err := None;
        if value.Some? {
          config := new DistributionConfig(value.value);
        }
    }

    method GetDistribution() returns (info: Result<DistributionInfo, CloudError>)
      modifies this, clock
      ensures clock.now >= old(clock.now) && clock.naps == old(clock.naps)
      ensures trace == old(trace) + [Event.GetDistribution(info)]
    {
      clock.Elapse();
      info := *;
      trace := trace + [Event.GetDistribution(info)];
    }

    method UpdateDistribution(config: DistributionConfig, ifMatch: string)
      returns (err: Option<CloudError>)
      modifies this, clock
      ensures clock.now >= old(clock.now) && clock.naps == old(clock.naps)
      ensures trace == old(trace) + [Event.UpdateDistribution(config.Value(), ifMatch, err)]
    {
      clock.Elapse();
      err := *;
      trace := trace + [Event.UpdateDistribution(config.Value(), ifMatch, err)];
    }

    method DeleteDistribution(ifMatch: string) returns (err: Option<CloudError>)
      modifies this, clock
      ensures clock.now >= old(clock.now) && clock.naps == old(clock.naps)
      ensures trace == old(trace) + [Event.DeleteDistribution(ifMatch, err)]
    {
      clock.Elapse();
      err := *;
      trace := trace + [Event.DeleteDistribution(ifMatch, err)];
    }
  }

  predicate IsStaleIfMatch(e: CloudError) {
    e.PreconditionFailed? || e.InvalidIfMatchVersion?
  }

  /** Only reads of the distribution were added. */
  ghost predicate OnlyPolls(before: Trace, after: Trace) {
    && before <= after
    && forall i :: |before| <= i < |after| ==> after[i].GetDistribution?
  }

  /** Nothing was taken back, and the configuration was not read again. */
  ghost predicate SameStep(before: Trace, after: Trace) {
    before <= after && ConfigReads(after) == ConfigReads(before)
  }

  lemma {:induction false} PollsAreSameStep(before: Trace, after: Trace)
    requires OnlyPolls(before, after)
    ensures SameStep(before, after)
    decreases |after|
  {
    if |after| > |before| {
      var front := after[..|after| - 1];
      assert OnlyPolls(before, front);
      PollsAreSameStep(before, front);
    } else {
      assert after == before;
    }
  }

  /** One more poll. */
  lemma PollNext(start: Trace, t: Trace, e: Event)
    requires Safe(t) && OnlyPolls(start, t) && e.GetDistribution? && MayReadDistribution(t)
    ensures Safe(t + [e]) && OnlyPolls(start, t + [e])
    ensures AnyGone(t + [e]) <==> AnyGone(t) || IsGone(e)
  {
    SafeNext(t, e);
  }

  /** The answer not found is always the last one before the caller sees it. */
  ghost predicate EndsGone(t: Trace) {
    t != [] && IsGone(t[|t| - 1])
  }

  /** The distribution has not been reported missing, unless by the error that is returned. */
  ghost predicate GoneIsReported(t: Trace, err: Option<CloudError>) {
    if err == Some(NoSuchDistribution) then EndsGone(t) else !AnyGone(t)
  }

  /**
   * An error is the last answer of the service, or a cancelled sleep, or a wait that has run out
   * of its ninety minutes.
   */
  ghost predicate Explained(
    t: Trace, err: Option<CloudError>, cancelled: bool, start: int, now: int)
  {
    err.Some? ==>
      || (EndsWith(t, err.value) && NothingLeftToTry(t, start, now))
      || (err.value.Interrupted? && cancelled)
      || (err.value.WaitTimedOut? && now > start + 5400000)
  }

  /**
   * A missing log bucket is the last answer to an update only when it was sent without logging,
   * and a stale token to a delete only when a minute has gone by.
   */
  ghost predicate NothingLeftToTry(t: Trace, start: int, now: int)
    requires t != []
  {
    var last := t[|t| - 1];
    && (last.UpdateDistribution? && last.failure == Some(LoggingBucketGone) ==>
          last.sent.logging == Some(Logging(false, false, "", "")))
    && (last.DeleteDistribution? && last.failure in {Some(PreconditionFailed), Some(InvalidIfMatchVersion)}
        ==> now > start + 60000)
  }

  /** A delete was accepted, or the distribution was found missing on the way to it. */
  ghost predicate DeleteDone(t: Trace) {
    t != [] && (IsGone(t[|t| - 1]) || (t[|t| - 1].DeleteDistribution? && LastOk(t)))
  }

  /** The last polls came after that. */
  ghost predicate WaitedAfterDelete(t: Trace) {
    exists k :: 0 <= k < |t| && DeleteDone(t[..k]) && OnlyPolls(t[..k], t)
  }

  method DistributionETag(service: CloudFront) returns (etag: Result<string, CloudError>)
    requires Safe(service.trace) && MayReadDistribution(service.trace)
    modifies service, service.clock
    ensures Safe(service.trace) && service.clock.now >= old(service.clock.now)
    ensures OnlyPolls(old(service.trace), service.trace)
    ensures |service.trace| == |old(service.trace)| + 1
    ensures etag.Ok? ==> FreshToken(service.trace, etag.value)
    ensures !AnyGone(old(service.trace)) ==>
              GoneIsReported(service.trace, ErrorOf(etag))
    ensures etag.Err? ==> EndsWith(service.trace, etag.error)
    ensures service.clock.naps == old(service.clock.naps)
  {
    var info := service.GetDistribution();
    SafeNext(old(service.trace), GetDistribution(info));
    etag := match info
      case Err(e) => Err(e)
      case Ok(i) => Ok(i.etag);
  }

  /** A poll that found the distribution, and not yet deployed. */
  predicate StillDeploying(e: Event) {
    e.GetDistribution? && e.info.Ok? && e.info.value.status != Some("Deployed")
  }

  /** All polls but the last found the distribution still deploying. */
  ghost predicate DeployingBefore(before: Trace, after: Trace) {
    forall i :: |before| <= i < |after| - 1 ==> StillDeploying(after[i])
  }

  /** The polls so far, all of them of a distribution still deploying. */
  ghost predicate StillWaiting(start: Trace, t: Trace, polls: nat) {
    && Safe(t) && !AnyGone(t) && LastOk(t) && OnlyPolls(start, t) && |t| == |start| + polls
    && forall i :: |start| <= i < |t| ==> StillDeploying(t[i])
  }

  predicate FoundThere(e: Event) {
    e.GetDistribution? && e.info.Ok?
  }

  /** All polls but the last found the distribution. */
  ghost predicate ThereBefore(before: Trace, after: Trace) {
    forall i :: |before| <= i < |after| - 1 ==> FoundThere(after[i])
  }

  /** One poll of a wait that began with the trace at start. */
  method Poll(service: CloudFront, ghost start: Trace)
    returns (info: Result<DistributionInfo, CloudError>)
    requires Safe(service.trace) && OnlyPolls(start, service.trace)
    requires MayReadDistribution(service.trace)
    modifies service, service.clock
    ensures Safe(service.trace) && OnlyPolls(start, service.trace)
    ensures service.trace == old(service.trace) + [GetDistribution(info)]
    ensures AnyGone(service.trace)
            <==> AnyGone(old(service.trace)) || info == Err(NoSuchDistribution)
    ensures service.clock.now >= old(service.clock.now)
    ensures service.clock.naps == old(service.clock.naps)
  {
    info := service.GetDistribution();
    PollNext(start, old(service.trace), GetDistribution(info));
  }

  /** The wait ends with the first poll that fails or sees the distribution deployed. */
  method WaitDistributionDeployed(service: CloudFront) returns (err: Option<CloudError>)
    requires Safe(service.trace) && !AnyGone(service.trace) && LastOk(service.trace)
    modifies service, service.clock
    ensures Safe(service.trace) && service.clock.now >= old(service.clock.now)
    ensures OnlyPolls(old(service.trace), service.trace)
    ensures DeployingBefore(old(service.trace), service.trace)
    ensures |old(service.trace)| < |service.trace| <= |old(service.trace)| + 182
    ensures err.None? ==> SeenDeployed(service.trace[|service.trace| - 1])
    ensures GoneIsReported(service.trace, err)
    ensures Explained(service.trace, err, service.clock.cancelled,
                      old(service.clock.now), service.clock.now)
    ensures OnlyNaps({30000}, old(service.clock.naps), service.clock.naps)
  {
    ghost var start, began := service.trace, service.clock.now;
    ghost var polls := 0;
    var deadline := service.clock.now + DEPLOY_TIMEOUT;
    while true
      invariant StillWaiting(start, service.trace, polls)
      invariant Waiting.OnTime(polls, DEPLOY_INTERVAL, service.clock.now - began, DEPLOY_TIMEOUT)
      invariant OnlyNaps({30000}, old(service.clock.naps), service.clock.naps)
      decreases deadline - service.clock.now + DEPLOY_INTERVAL
    {
      var info := Poll(service, start);
      Waiting.RoomFor(polls, DEPLOY_INTERVAL, DEPLOY_TIMEOUT);
      polls := polls + 1;
      match info {
        case Err(e) =>
          return Some(e);
        case Ok(i) =>
          if i.status == Some("Deployed") {
            return None;
          }
      }
      if service.clock.now > deadline {
        return Some(WaitTimedOut);
      }
      var completed := service.clock.Sleep(DEPLOY_INTERVAL);
      if !completed {
        return Some(Interrupted);
      }
    }
  }

  /** The trace holds, after the configuration read at c, an update that asks to disable it. */
  ghost predicate Asked(t: Trace, c: nat, sent: ConfigValue) {
    && ReadAt(t, c) && c < |t| - 1
    && t[|t| - 1].UpdateDistribution? && t[|t| - 1].sent == sent
    && LiveConfig(t).Some? && LiveConfig(t).value.enabled.GetOr(false)
    && sent == LiveConfig(t).value.(enabled := Some(false))
    && Settled(t)
  }

  /** The last event is an accepted disabling update, after the configuration read at c. */
  ghost predicate JustAccepted(t: Trace, c: nat) {
    ReadAt(t, c) && c < |t| - 1 && AcceptedDisable(t[|t| - 1])
  }

  /** What sending an allowed disabling update adds to the trace. */
  lemma DisableSent(t: Trace, c: nat, sent: ConfigValue, token: string, err: Option<CloudError>)
    requires Safe(t) && !AnyGone(t) && ReadAt(t, c) && FreshToken(t, token)
    requires DisablesLive(t, sent) && sent.enabled == Some(false) && Settled(t)
    ensures var t' := t + [UpdateDistribution(sent, token, err)];
            && Safe(t') && ReadAt(t', c) && LiveConfig(t') == LiveConfig(t)
            && GoneIsReported(t', err) && (err.None? ==> JustAccepted(t', c)) && Settled(t')
            && (err.Some? ==> EndsWith(t', err.value)) && SameStep(t, t')
            && (sent == LiveConfig(t).value.(enabled := Some(false)) ==> Asked(t', c, sent))
  {
    SafeNext(t, UpdateDistribution(sent, token, err));
    StillSettled(t, UpdateDistribution(sent, token, err));
    StillRead(t, c, UpdateDistribution(sent, token, err));
    ReadsAppend(t, UpdateDistribution(sent, token, err));
  }

  lemma ReadsAppend(t: Trace, e: Event)
    ensures ConfigReads(t + [e]) == ConfigReads(t) + if e.GetConfig? then 1 else 0
  {
    assert (t + [e])[..|t|] == t;
  }

  /** Sends the disabling update, and once more without logging if the log bucket is gone. */
  method ApplyDisable(
    service: CloudFront, etag: string, config: DistributionConfig, ghost c: nat)
    returns (err: Option<CloudError>)
    requires Safe(service.trace) && !AnyGone(service.trace) && !BucketJustRefused(service.trace)
    requires FreshToken(service.trace, etag) && ReadAt(service.trace, c)
    requires Settled(service.trace) && LiveConfig(service.trace).Some?
    requires LiveConfig(service.trace).value.enabled.GetOr(false)
    requires config.Value() == LiveConfig(service.trace).value.(enabled := Some(false))
    modifies service, service.clock, config
    ensures Safe(service.trace) && service.clock.now >= old(service.clock.now)
    ensures SameStep(old(service.trace), service.trace)
    ensures service.clock.naps == old(service.clock.naps)
    ensures err.None? ==> JustAccepted(service.trace, c)
    ensures GoneIsReported(service.trace, err)
    ensures Explained(service.trace, err, service.clock.cancelled,
                      old(service.clock.now), service.clock.now)
  {
    ghost var before := service.trace;
    err := service.UpdateDistribution(config, etag);
    DisableSent(before, c, config.Value(), etag, err);
    if err == Some(LoggingBucketGone) {
      assert service.trace[..|service.trace| - 1] == before;
      err := ApplyWithoutLogging(service, config, c);
    }
  }

  /** The second attempt, with logging nulled in place and a fresh token. */
  method ApplyWithoutLogging(service: CloudFront, config: DistributionConfig, ghost c: nat)
    returns (err: Option<CloudError>)
    requires Safe(service.trace) && !AnyGone(service.trace) && MayReadDistribution(service.trace)
    requires Asked(service.trace, c, config.Value())
    requires service.trace[|service.trace| - 1].failure == Some(LoggingBucketGone)
    modifies service, service.clock, config
    ensures Safe(service.trace) && service.clock.now >= old(service.clock.now)
    ensures SameStep(old(service.trace), service.trace)
    ensures service.clock.naps == old(service.clock.naps)
    ensures err.None? ==> JustAccepted(service.trace, c)
    ensures GoneIsReported(service.trace, err)
    ensures Explained(service.trace, err, service.clock.cancelled,
                      old(service.clock.now), service.clock.now)
  {
    ghost var refused, asked := service.trace, config.Value();
    config.logging := Some(Logging(false, false, "", ""));
    ghost var sent := asked.(logging := Some(NO_LOGGING));
    assert config.Value() == sent;
    var fresh' := DistributionETag(service);
    PollsAreSameStep(refused, service.trace);
    if fresh'.Err? {
      return Some(fresh'.error);
    }
    ghost var read := service.trace;
    OnePoll(refused, read);
    RefusedThenRead(refused, read[|refused|], c, asked, fresh'.value);
    err := service.UpdateDistribution(config, fresh'.value);
    DisableSent(read, c, sent, fresh'.value, err);
  }

  /** Right after a refusal and a read, the same configuration may go without logging. */
  lemma RefusedThenRead(refused: Trace, poll: Event, c: nat, asked: ConfigValue, token: string)
    requires Asked(refused, c, asked)
    requires refused[|refused| - 1].failure == Some(LoggingBucketGone)
    requires poll.GetDistribution? && FreshToken(refused + [poll], token)
    ensures DisablesLive(refused + [poll], asked.(logging := Some(NO_LOGGING)))
    ensures ReadAt(refused + [poll], c) && Settled(refused + [poll])
  {
    StillRead(refused, c, poll);
    StillSettled(refused, poll);
    var t := refused + [poll];
    assert t[|t| - 2] == refused[|refused| - 1];
    assert BucketJustRefused(t);
  }

  lemma OnePoll(before: Trace, after: Trace)
    requires OnlyPolls(before, after) && |after| == |before| + 1
    ensures after == before + [after[|before|]] && after[|before|].GetDistribution?
  {
  }

  /** Polls change neither the configuration last read nor an accepted update before them. */
  lemma {:induction false} PollsKeepRead(before: Trace, after: Trace, c: nat)
    requires OnlyPolls(before, after) && ReadAt(before, c)
    ensures ReadAt(after, c) && LiveConfig(after) == LiveConfig(before)
    decreases |after|
  {
    if |after| > |before| {
      var front := after[..|after| - 1];
      assert OnlyPolls(before, front);
      PollsKeepRead(before, front, c);
      StillRead(front, c, after[|after| - 1]);
      assert after == front + [after[|after| - 1]];
    } else {
      assert after == before;
    }
  }

  /** What reading the configuration adds to the trace. */
  lemma ConfigRead(t: Trace, config: Result<Option<ConfigValue>, CloudError>)
    requires Safe(t) && !AnyGone(t) && MayReadConfig(t)
    ensures var t' := t + [GetConfig(config)];
            && Safe(t') && ConfigReads(t') == ConfigReads(t) + 1
            && (AnyGone(t') <==> config == Err(NoSuchDistribution))
            && (config.Ok? ==> LastOk(t') && ReadAt(t', |t|) && LiveConfig(t') == config.value
                               && (NotEnabled(config.value) ==> Disabled(t')))
            && (config.Err? ==> EndsWith(t', config.error))
  {
    SafeNext(t, GetConfig(config));
    ReadsAppend(t, GetConfig(config));
    LastConfig(t, config);
    if config.Ok? && NotEnabled(config.value) { NotEnabledIsDisabled(t, config.value); }
  }

  lemma LastConfig(t: Trace, config: Result<Option<ConfigValue>, CloudError>)
    ensures var t' := t + [GetConfig(config)];
            && (config.Ok? ==> LastOk(t') && ReadAt(t', |t|) && LiveConfig(t') == config.value)
            && (config.Err? ==> EndsWith(t', config.error))
            && IsGone(GetConfig(config)) == (config == Err(NoSuchDistribution))
  {
    assert (t + [GetConfig(config)])[|t|] == GetConfig(config);
  }

  lemma NotEnabledIsDisabled(t: Trace, config: Option<ConfigValue>)
    requires NotEnabled(config)
    ensures Disabled(t + [GetConfig(Ok(config))])
  {
    assert DisabledSince(t + [GetConfig(Ok(config))], |t|);
  }

  method DisableDistribution(service: CloudFront) returns (err: Option<CloudError>)
    requires Safe(service.trace) && !AnyGone(service.trace) && MayReadConfig(service.trace)
    modifies service, service.clock
    ensures Safe(service.trace) && service.clock.now >= old(service.clock.now)
    ensures old(service.trace) <= service.trace
    ensures ConfigReads(service.trace) == ConfigReads(old(service.trace)) + 1
    ensures err.None? ==> Disabled(service.trace) && LastOk(service.trace)
    ensures GoneIsReported(service.trace, err)
    ensures Explained(service.trace, err, service.clock.cancelled,
                      old(service.clock.now), service.clock.now)
    ensures OnlyNaps({30000}, old(service.clock.naps), service.clock.naps)
  {
    ghost var c := |service.trace|;
    ghost var before := service.trace;
    var config;
    config, err := service.GetDistributionConfig();
    ConfigRead(before, service.trace[c].config);
    if err.Some? {
      return;
    }
    if config == null || !config.enabled.GetOr(false) {
      return;
    }
    err := DisableEnabled(service, config, c);
  }

  /** The rest of the disable step, for the enabled configuration read at c. */
  method DisableEnabled(service: CloudFront, config: DistributionConfig, ghost c: nat)
    returns (err: Option<CloudError>)
    requires Safe(service.trace) && !AnyGone(service.trace) && LastOk(service.trace)
    requires ReadAt(service.trace, c)
    requires LiveConfig(service.trace) == Some(config.Value()) && config.enabled.GetOr(false)
    modifies service, service.clock, config
    ensures Safe(service.trace) && service.clock.now >= old(service.clock.now)
    ensures SameStep(old(service.trace), service.trace)
    ensures err.None? ==> Disabled(service.trace) && LastOk(service.trace)
    ensures GoneIsReported(service.trace, err)
    ensures Explained(service.trace, err, service.clock.cancelled,
                      old(service.clock.now), service.clock.now)
    ensures OnlyNaps({30000}, old(service.clock.naps), service.clock.naps)
  {
    var etag := SettleAndRead(service, c);
    if etag.Err? {
      return Some(etag.error);
    }
    config.enabled := Some(false);
    err := ApplyAndWait(service, etag.value, config, c);
  }

  /** The update and the wait for it to deploy. */
  method ApplyAndWait(
    service: CloudFront, etag: string, config: DistributionConfig, ghost c: nat)
    returns (err: Option<CloudError>)
    requires Safe(service.trace) && !AnyGone(service.trace) && !BucketJustRefused(service.trace)
    requires FreshToken(service.trace, etag) && ReadAt(service.trace, c)
    requires Settled(service.trace) && LiveConfig(service.trace).Some?
    requires LiveConfig(service.trace).value.enabled.GetOr(false)
    requires config.Value() == LiveConfig(service.trace).value.(enabled := Some(false))
    modifies service, service.clock, config
    ensures Safe(service.trace) && service.clock.now >= old(service.clock.now)
    ensures SameStep(old(service.trace), service.trace)
    ensures err.None? ==> Disabled(service.trace) && LastOk(service.trace)
    ensures GoneIsReported(service.trace, err)
    ensures Explained(service.trace, err, service.clock.cancelled,
                      old(service.clock.now), service.clock.now)
    ensures OnlyNaps({30000}, old(service.clock.naps), service.clock.naps)
  {
    err := ApplyDisable(service, etag, config, c);
    if err.Some? {
      return;
    }
    ghost var before := service.trace;
    err := WaitDistributionDeployed(service);
    PollsAreSameStep(before, service.trace);
    if err.None? { DeployedAfterDisable(before, service.trace, c); }
  }

  /** Waits out a deployment and reads the token right before the update. */
  method SettleAndRead(service: CloudFront, ghost c: nat) returns (etag: Result<string, CloudError>)
    requires Safe(service.trace) && !AnyGone(service.trace) && LastOk(service.trace)
    requires ReadAt(service.trace, c)
    modifies service, service.clock
    ensures Safe(service.trace) && service.clock.now >= old(service.clock.now)
    ensures SameStep(old(service.trace), service.trace)
    ensures ReadAt(service.trace, c) && LiveConfig(service.trace) == LiveConfig(old(service.trace))
    ensures etag.Ok? ==> FreshToken(service.trace, etag.value) && Settled(service.trace)
                         && !BucketJustRefused(service.trace)
    ensures GoneIsReported(service.trace, ErrorOf(etag))
    ensures Explained(service.trace, ErrorOf(etag), service.clock.cancelled,
                      old(service.clock.now), service.clock.now)
    ensures OnlyNaps({30000}, old(service.clock.naps), service.clock.naps)
  {
    ghost var before := service.trace;
    var err := WaitDistributionDeployed(service);
    ghost var waited := service.trace;
    PollsKeepRead(before, waited, c);
    PollsAreSameStep(before, waited);
    if err.Some? {
      return Err(err.value);
    }
    etag := DistributionETag(service);
    SettledByPolls(before, waited, service.trace, c);
    PollsAreSameStep(before, service.trace);
  }

  ghost function ErrorOf<T>(result: Result<T, CloudError>): Option<CloudError> {
    if result.Err? then Some(result.error) else None
  }

  lemma SettledByPolls(before: Trace, waited: Trace, after: Trace, c: nat)
    requires ReadAt(before, c) && OnlyPolls(before, waited) && OnlyPolls(waited, after)
    requires |waited| > |before| && SeenDeployed(waited[|waited| - 1])
    ensures OnlyPolls(before, after) && Settled(after)
    ensures ReadAt(after, c) && LiveConfig(after) == LiveConfig(before)
  {
    assert forall i :: |before| <= i < |waited| ==> after[i] == waited[i];
    PollsKeepRead(before, after, c);
    var d: nat := |waited| - 1;
    assert SeenDeployed(after[d]);
  }

  lemma DeployedAfterDisable(before: Trace, after: Trace, c: nat)
    requires JustAccepted(before, c) && OnlyPolls(before, after) && |after| > |before|
    requires SeenDeployed(after[|after| - 1])
    ensures Disabled(after)
  {
    PollsKeepRead(before, after, c);
    var u: nat, d: nat := |before| - 1, |after| - 1;
    assert AcceptedDisable(after[u]) && SeenDeployed(after[d]);
    assert DisabledSince(after, c);
  }

  /** The last answer, to a delete or to the read for one, was this error. */
  ghost predicate Refused(t: Trace, error: CloudError) {
    && !AnyGone(t) && Disabled(t) && !error.NoSuchDistribution? && EndsWith(t, error)
    && (t[|t| - 1].DeleteDistribution? || t[|t| - 1].GetDistribution?)
  }

  lemma RefusalExplained(t: Trace, error: CloudError, cancelled: bool, start: int, now: int)
    requires Refused(t, error)
    requires error in {PreconditionFailed, InvalidIfMatchVersion} ==> now > start + 60000
    ensures Explained(t, Some(error), cancelled, start, now)
  {
  }

  /** One attempt: reads the token and deletes; a missing distribution is success. */
  method AttemptDelete(service: CloudFront) returns (err: Option<CloudError>)
    requires Safe(service.trace) && !AnyGone(service.trace) && Disabled(service.trace)
    requires MayReadDistribution(service.trace) && ConfigReads(service.trace) >= 2
    modifies service, service.clock
    ensures Safe(service.trace) && service.clock.now >= old(service.clock.now)
    ensures SameStep(old(service.trace), service.trace)
    ensures |service.trace| <= |old(service.trace)| + 2
    ensures err.None? ==> MayReadDistribution(service.trace) && DeleteDone(service.trace)
    ensures err.Some? ==> Refused(service.trace, err.value)
    ensures service.clock.naps == old(service.clock.naps)
  {
    ghost var before := service.trace;
    var etag := DistributionETag(service);
    OnePoll(before, service.trace);
    PollsAreSameStep(before, service.trace);
    StillDisabled(before, service.trace[|before|]);
    if etag.Err? {
      return if etag.error == NoSuchDistribution then None else Some(etag.error);
    }
    before := service.trace;
    err := service.DeleteDistribution(etag.value);
    SafeNext(before, DeleteDistribution(etag.value, err));
    ReadsAppend(before, DeleteDistribution(etag.value, err));
    StillDisabled(before, DeleteDistribution(etag.value, err));
    if err == Some(NoSuchDistribution) {
      err := None;
    }
  }

  /** The attempts so far, each with one read and at most one delete; the next may begin. */
  ghost predicate Deleting(start: Trace, t: Trace, attempts: nat) {
    && Safe(t) && !AnyGone(t) && Disabled(t) && MayReadDistribution(t)
    && SameStep(start, t) && |t| <= |start| + 2 * attempts
  }

  /**
   * Reads the token and deletes, again while the token turns out stale; any other answer ends it.
   */
  method DeleteOnce(service: CloudFront) returns (err: Option<CloudError>)
    requires Safe(service.trace) && !AnyGone(service.trace) && Disabled(service.trace)
    requires LastOk(service.trace) && ConfigReads(service.trace) >= 2
    modifies service, service.clock
    ensures Safe(service.trace) && service.clock.now >= old(service.clock.now)
    ensures SameStep(old(service.trace), service.trace)
    ensures |service.trace| <= |old(service.trace)| + 28
    ensures err.None? ==> MayReadDistribution(service.trace) && DeleteDone(service.trace)
    ensures err.Some? ==> !AnyGone(service.trace) && err != Some(NoSuchDistribution)
    ensures Explained(service.trace, err, service.clock.cancelled,
                      old(service.clock.now), service.clock.now)
    ensures err in {Some(PreconditionFailed), Some(InvalidIfMatchVersion)} ==>
              service.clock.now > old(service.clock.now) + 60000
    ensures OnlyNaps({5000}, old(service.clock.naps), service.clock.naps)
  {
    ghost var start, began := service.trace, service.clock.now;
    ghost var attempts := 0;
    var deadline := service.clock.now + ETAG_RETRY_TIMEOUT;
    while true
      invariant Deleting(start, service.trace, attempts)
      invariant Waiting.OnTime(attempts, RETRY_INTERVAL, service.clock.now - began, ETAG_RETRY_TIMEOUT)
      invariant OnlyNaps({5000}, old(service.clock.naps), service.clock.naps)
      decreases deadline - service.clock.now + RETRY_INTERVAL
    {
      err := AttemptDelete(service);
      Waiting.RoomFor(attempts, RETRY_INTERVAL, ETAG_RETRY_TIMEOUT);
      attempts := attempts + 1;
      if err.None? || !IsStaleIfMatch(err.value) || service.clock.now > deadline {
        if err.Some? {
          RefusalExplained(service.trace, err.value, service.clock.cancelled, began,
                           service.clock.now);
        }
        return;
      }
      var completed := service.clock.Sleep(RETRY_INTERVAL);
      if !completed {
        return Some(Interrupted);
      }
    }
  }

  /** The polls so far, all of them of a distribution still there; the next may come. */
  ghost predicate StillThere(start: Trace, t: Trace, polls: nat) {
    && Safe(t) && OnlyPolls(start, t) && MayReadDistribution(t) && |t| == |start| + polls
    && forall i :: |start| <= i < |t| ==> FoundThere(t[i])
  }

  /** Polls until the distribution is reported missing; nothing is written. */
  method WaitDistributionDeleted(service: CloudFront) returns (err: Option<CloudError>)
    requires Safe(service.trace) && MayReadDistribution(service.trace)
    modifies service, service.clock
    ensures Safe(service.trace) && OnlyPolls(old(service.trace), service.trace)
    ensures ThereBefore(old(service.trace), service.trace)
    ensures |old(service.trace)| < |service.trace| <= |old(service.trace)| + 362
    ensures service.clock.now >= old(service.clock.now)
    ensures err.None? ==> EndsGone(service.trace)
    ensures err != Some(NoSuchDistribution)
    ensures Explained(service.trace, err, service.clock.cancelled,
                      old(service.clock.now), service.clock.now)
    ensures OnlyNaps({15000}, old(service.clock.naps), service.clock.naps)
  {
    ghost var start, began := service.trace, service.clock.now;
    ghost var polls := 0;
    var deadline := service.clock.now + DELETE_WAIT_TIMEOUT;
    while true
      invariant StillThere(start, service.trace, polls)
      invariant Waiting.OnTime(polls, DELETE_WAIT_INTERVAL, service.clock.now - began, DELETE_WAIT_TIMEOUT)
      invariant OnlyNaps({15000}, old(service.clock.naps), service.clock.naps)
      decreases deadline - service.clock.now + DELETE_WAIT_INTERVAL
    {
      var info := Poll(service, start);
      Waiting.RoomFor(polls, DELETE_WAIT_INTERVAL, DELETE_WAIT_TIMEOUT);
      polls := polls + 1;
      match info {
        case Err(e) =>
          return if e == NoSuchDistribution then None else Some(e);
        case Ok(_) =>
      }
      if service.clock.now > deadline {
        return Some(WaitTimedOut);
      }
      var completed := service.clock.Sleep(DELETE_WAIT_INTERVAL);
      if !completed {
        return Some(Interrupted);
      }
    }
  }

  /** One attempt: disables and deletes; a missing distribution is success. */
  method AttemptDisableAndDelete(service: CloudFront) returns (err: Option<CloudError>)
    requires Safe(service.trace) && !AnyGone(service.trace) && MayReadConfig(service.trace)
    requires ConfigReads(service.trace) >= 1
    modifies service, service.clock
    ensures Safe(service.trace) && service.clock.now >= old(service.clock.now)
    ensures old(service.trace) <= service.trace
    ensures ConfigReads(service.trace) == ConfigReads(old(service.trace)) + 1
    ensures err != Some(NoSuchDistribution)
    ensures err.None? ==> MayReadDistribution(service.trace) && DeleteDone(service.trace)
    ensures err.Some? ==> !AnyGone(service.trace)
    ensures Explained(service.trace, err, service.clock.cancelled,
                      old(service.clock.now), service.clock.now)
    ensures OnlyNaps({5000, 30000}, old(service.clock.naps), service.clock.naps)
  {
    err := DisableDistribution(service);
    if err.None? {
      err := DeleteOnce(service);
    } else if err.value.NoSuchDistribution? {
      err := None;
    }
  }

  /** The attempts so far, one disable step each after the first; the next may begin. */
  ghost predicate Retrying(start: Trace, t: Trace, attempts: nat) {
    && Safe(t) && !AnyGone(t) && MayReadConfig(t)
    && start <= t && ConfigReads(t) == 1 + attempts
  }

  /** Disables and deletes, again while the service still considers the distribution enabled. */
  method RetryDelete(service: CloudFront) returns (err: Option<CloudError>)
    requires Safe(service.trace) && !AnyGone(service.trace) && MayReadConfig(service.trace)
    requires ConfigReads(service.trace) == 1
    modifies service, service.clock
    ensures Safe(service.trace) && service.clock.now >= old(service.clock.now)
    ensures old(service.trace) <= service.trace
    ensures 2 <= ConfigReads(service.trace) <= 39
    ensures err != Some(NoSuchDistribution)
    ensures err.None? ==> MayReadDistribution(service.trace) && DeleteDone(service.trace)
    ensures err == Some(DistributionNotDisabled) ==>
              service.clock.now > old(service.clock.now) + 180000
    ensures Explained(service.trace, err, service.clock.cancelled,
                      old(service.clock.now), service.clock.now)
    ensures OnlyNaps({5000, 30000}, old(service.clock.naps), service.clock.naps)
  {
    ghost var start, began := service.trace, service.clock.now;
    ghost var attempts := 0;
    var deadline := service.clock.now + DISABLE_RETRY_TIMEOUT;
    while true
      invariant Retrying(start, service.trace, attempts)
      invariant Waiting.OnTime(attempts, RETRY_INTERVAL, service.clock.now - began, DISABLE_RETRY_TIMEOUT)
      invariant OnlyNaps({5000, 30000}, old(service.clock.naps), service.clock.naps)
      decreases deadline - service.clock.now + RETRY_INTERVAL
    {
      err := AttemptDisableAndDelete(service);
      Waiting.RoomFor(attempts, RETRY_INTERVAL, DISABLE_RETRY_TIMEOUT);
      attempts := attempts + 1;
      if err.None? || !err.value.DistributionNotDisabled? || service.clock.now > deadline {
        return;
      }
      var completed := service.clock.Sleep(RETRY_INTERVAL);
      if !completed {
        return Some(Interrupted);
      }
    }
  }

  /** The error is the answer to a delete, after its own disable step, that it did not disable. */
  ghost predicate RefusedAsEnabled(t: Trace, err: Option<CloudError>) {
    && err == Some(DistributionNotDisabled) && ConfigReads(t) >= 2
    && t[|t| - 1].DeleteDistribution?
  }

  method DeleteDisabled(service: CloudFront) returns (err: Option<CloudError>)
    requires Safe(service.trace) && !AnyGone(service.trace) && MayReadConfig(service.trace)
    requires ConfigReads(service.trace) == 1
    modifies service, service.clock
    ensures Safe(service.trace) && service.clock.now >= old(service.clock.now)
    ensures old(service.trace) <= service.trace
    ensures err.None? ==> EndsGone(service.trace)
    ensures err != Some(NoSuchDistribution)
    ensures RefusedAsEnabled(service.trace, err) ==>
              service.clock.now > old(service.clock.now) + 180000
    ensures Explained(service.trace, err, service.clock.cancelled,
                      old(service.clock.now), service.clock.now)
    ensures ConfigReads(service.trace) >= 2
    ensures err.None? ==> WaitedAfterDelete(service.trace)
  {
    err := RetryDelete(service);
    if err.Some? {
      return;
    }
    ghost var done := service.trace;
    err := WaitDistributionDeleted(service);
    PollsAreSameStep(done, service.trace);
    assert service.trace[..|done|] == done;
  }

  /**
   * Whatever the service answers, every write of the run was allowed when it was sent, success
   * means the last answer was that the distribution does not exist, that answer is never
   * returned as an error, and no error is made up.
   */
  method Delete(clock: Clock) returns (err: Option<CloudError>, service: CloudFront)
    modifies clock
    ensures fresh(service) && service.clock == clock
    ensures Safe(service.trace)
    ensures err.None? ==> EndsGone(service.trace)
    ensures err != Some(NoSuchDistribution)
    ensures Explained(service.trace, err, clock.cancelled, old(clock.now), clock.now)
    ensures RefusedAsEnabled(service.trace, err) ==> clock.now > old(clock.now) + 180000
    ensures err.None? ==> ConfigReads(service.trace) == 1 || WaitedAfterDelete(service.trace)
  {
    service := new CloudFront(clock);
    err := DisableDistribution(service);
    if err.Some? {
      if err.value.NoSuchDistribution? {
        err := None;
      }
      return;
    }
    err := DeleteDisabled(service);
  }
}
