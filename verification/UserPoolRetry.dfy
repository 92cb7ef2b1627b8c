/** The Cognito retry loop: exponential delays under a two-minute deadline. */
module UserPoolRetry {
  import opened Options
  import opened Clock
  import opened Waiting

  const RETRY_TIMEOUT := 120000
  const FIRST_DELAY := 500
  const LONGEST_DELAY := 10000

  /** The i-th delay: half a second, doubling, at most ten seconds. */
  function Delay(i: nat): int {
    if i == 0 then FIRST_DELAY else Min(Delay(i - 1) * 2, LONGEST_DELAY)
  }

  /** The first n delays together. */
  function Total(n: nat): int {
    if n == 0 then 0 else Total(n - 1) + Delay(n - 1)
  }

  lemma {:induction false} DelaysArePositive(i: nat)
    ensures 0 < Delay(i) <= LONGEST_DELAY
  {
    if i > 0 { DelaysArePositive(i - 1); }
  }

  lemma {:induction false} TotalIs(n: nat)
    ensures n <= 4 ==> Delay(n) == [500, 1000, 2000, 4000, 8000][n]
                       && Total(n) == [0, 500, 1500, 3500, 7500][n]
    ensures n >= 5 ==> Delay(n) == 10000 && Total(n) == 15500 + (n - 5) * 10000
  {
    if n > 0 { TotalIs(n - 1); }
  }

  /** Fifteen full delays fit before the deadline and sixteen do not. */
  lemma {:induction false} FullDelaysThatFit(n: nat)
    ensures Total(n) < RETRY_TIMEOUT <==> n <= 15
  {
    TotalIs(n);
  }

  datatype Failure<E> = CallFailed(error: E) | Interrupted

  /** From position first on, the naps last for the first n delays. */
  ghost predicate FullDelays(naps: seq<Nap>, first: nat, n: nat) {
    && first + n <= |naps|
    && forall i :: first <= i < first + n ==> naps[i].duration == Delay(i - first)
  }

  lemma FullDelaysNext(naps: seq<Nap>, first: nat, n: nat, nap: Nap)
    requires |naps| == first + n && FullDelays(naps, first, n)
    ensures FullDelays(naps + [nap], first, n)
    ensures nap.duration == Delay(n) ==> FullDelays(naps + [nap], first, n + 1)
  {
  }

  /** Every start after the first comes before the deadline. */
  ghost predicate InTime(starts: seq<int>, deadline: int) {
    forall i :: 0 < i < |starts| ==> starts[i] < deadline
  }

  /**
   * The sleeps asked for follow the delays, except that the last one may be cut to the time
   * remaining. The times at which the calls start are returned as a ghost.
   */
  method RetryUserPoolWhen<E>(clock: Clock, retryable: E -> bool, call: nat -> Option<E>)
    returns (err: Option<Failure<E>>, n: nat, ghost starts: seq<int>)
    modifies clock
    ensures 1 <= n <= 16 && AllRetryable(call, retryable, n - 1)
    ensures err.None? <==> call(n - 1).None?
    ensures err.Some? && err.value.CallFailed? ==> call(n - 1) == Some(err.value.error)
    ensures err == Some(Interrupted) ==> AllRetryable(call, retryable, n)
    ensures clock.cancelled == (old(clock.cancelled) || err == Some(Interrupted))
    ensures err.Some? && err.value.CallFailed? && retryable(err.value.error) ==>
              clock.now >= old(clock.now) + RETRY_TIMEOUT
    ensures |starts| == n && InTime(starts, old(clock.now) + RETRY_TIMEOUT)
    ensures clock.asked <= old(clock.asked) + RETRY_TIMEOUT
    ensures FullDelays(clock.naps, |old(clock.naps)|, n - 1)
    ensures |clock.naps| <= |old(clock.naps)| + n
    ensures |clock.naps| == |old(clock.naps)| + n ==>
              0 < clock.naps[|clock.naps| - 1].duration <= Delay(n - 1)
  {
    ghost var start, before := clock.now, clock.asked;
    ghost var first := |clock.naps|;
    var deadline := clock.now + RETRY_TIMEOUT;
    var delay := FIRST_DELAY;
    n, starts := 0, [];
    while true
      invariant clock.asked == before + Total(n) && clock.now >= start + Total(n)
      invariant n > 0 ==> clock.now < deadline
      invariant delay == Delay(n)
      invariant |clock.naps| == first + n && FullDelays(clock.naps, first, n)
      invariant |starts| == n && InTime(starts, deadline)
      invariant AllRetryable(call, retryable, n) && clock.cancelled == old(clock.cancelled)
      decreases deadline - clock.now + LONGEST_DELAY
    {
      FullDelaysThatFit(n);
      DelaysArePositive(n);
      starts := starts + [clock.now];
      var error := call(n);
      clock.Elapse();
      n := n + 1;
      if error.None? || !retryable(error.value) {
        err := if error.None? then None else Some(CallFailed(error.value));
        return;
      }
      var end := Pause(clock, delay, deadline, first, n - 1);
      if !end.GoOn? {
        return Some(if end.Cut? then Interrupted else CallFailed(error.value)), n, starts;
      }
      delay := Min(delay * 2, LONGEST_DELAY);
    }
  }

  datatype PauseEnd = GoOn | Late | Cut

  /** The pause after call n: the delay, cut to the time remaining; none past the deadline. */
  method Pause(clock: Clock, delay: int, deadline: int, ghost first: nat, ghost n: nat)
    returns (end: PauseEnd)
    requires 0 < delay == Delay(n)
    requires |clock.naps| == first + n && FullDelays(clock.naps, first, n)
    modifies clock
    ensures clock.now >= old(clock.now) && clock.cancelled == (old(clock.cancelled) || end.Cut?)
    ensures first + n <= |clock.naps| <= first + n + 1 && FullDelays(clock.naps, first, n)
    ensures |clock.naps| == first + n + 1 ==> 0 < clock.naps[first + n].duration <= Delay(n)
    ensures clock.asked <= old(clock.asked)
                           + if old(clock.now) < deadline then deadline - old(clock.now) else 0
    ensures end.GoOn? ==>
              && clock.now < deadline && clock.asked == old(clock.asked) + delay
              && clock.now >= old(clock.now) + delay
              && |clock.naps| == first + n + 1 && FullDelays(clock.naps, first, n + 1)
    ensures end.Late? ==> clock.now >= deadline
  {
    var remaining := deadline - clock.now;
    if remaining <= 0 {
      return Late;
    }
    var sleep := Min(delay, remaining);
    FullDelaysNext(clock.naps, first, n, Nap(clock.now, sleep));
    var completed := clock.Sleep(sleep);
    end := if !completed then Cut else if clock.now >= deadline then Late else GoOn;
  }
}
