/** The shared poller and the shared retry loop, over any stream of observations. */
module Waiting {
  import opened Options
  import opened Clock

  // ---------- polling until ready ----------

  datatype Probe<E> = Ready | NotReady | ProbeError(error: E)

  datatype WaitEnd<E> = Settled | Aborted(error: E) | TimedOut | Cancelled

  /** How many of the last observations before position n, unbroken, were ready. */
  function ReadyRun<E>(probe: nat -> Probe<E>, n: nat): nat {
    if n == 0 || !probe(n - 1).Ready? then 0 else ReadyRun(probe, n - 1) + 1
  }

  /** The run counts exactly the ready observations at the end. */
  lemma {:induction false} ReadyRunMeaning<E>(probe: nat -> Probe<E>, n: nat, k: nat)
    ensures ReadyRun(probe, n) >= k <==>
              k <= n && forall i: nat :: n - k <= i < n ==> probe(i).Ready?
  {
    if n > 0 && k > 0 {
      ReadyRunMeaning(probe, n - 1, k - 1);
      assert !probe(n - 1).Ready? ==> !(forall i: nat :: n - k <= i < n ==> probe(i).Ready?);
    }
  }

  /** The last n - 1 observations did not end the wait. */
  ghost predicate Undecided<E>(probe: nat -> Probe<E>, consecutive: int, n: nat) {
    forall i: nat :: i < n - 1 ==>
      !probe(i).ProbeError? && (probe(i).Ready? ==> ReadyRun(probe, i + 1) < consecutive)
  }

  lemma StillUndecided<E>(probe: nat -> Probe<E>, consecutive: int, n: nat)
    requires n > 0 && Undecided(probe, consecutive, n) && !probe(n - 1).ProbeError?
    requires probe(n - 1).Ready? ==> ReadyRun(probe, n) < consecutive
    ensures Undecided(probe, consecutive, n + 1)
  {
  }

  /**
   * The wait ends with success at the first observation that completes a long enough run of
   * ready ones and with an error at the first probe error, whichever is first; otherwise it
   * gives up after the deadline, and it probes no more often than the timeout has room for.
   */
  method Until<E>(
    clock: Clock, consecutive: int, probe: nat -> Probe<E>, timeout: int, interval: int)
    returns (end: WaitEnd<E>, n: nat)
    requires interval > 0
    modifies clock
    ensures n >= 1 && Undecided(probe, consecutive, n)
    ensures end.Settled? <==> probe(n - 1).Ready? && ReadyRun(probe, n) >= consecutive
    ensures forall e :: end == Aborted(e) <==> probe(n - 1) == ProbeError(e)
    ensures end.TimedOut? ==> clock.now > old(clock.now) + timeout
    ensures clock.cancelled == (old(clock.cancelled) || end.Cancelled?)
    ensures Every(interval, clock.naps, |old(clock.naps)|)
    ensures |clock.naps| == |old(clock.naps)| + if end.Cancelled? then n else n - 1
    ensures if timeout < 0 then n == 1 else n <= timeout / interval + 2
  {
    var start := clock.now;
    var deadline := clock.now + timeout;
    var runs := 0;
    n := 0;
    while true
      invariant clock.now >= start + Slept(n, interval) && clock.cancelled == old(clock.cancelled)
      invariant n > 0 ==> Slept(n - 1, interval) <= timeout
      invariant Undecided(probe, consecutive, n + 1)
      invariant runs == ReadyRun(probe, n)
      invariant |clock.naps| == |old(clock.naps)| + n
      invariant Every(interval, clock.naps, |old(clock.naps)|)
      decreases deadline - clock.now + interval
    {
      var observed := probe(n);
      clock.Elapse();
      n := n + 1;
      RoomFor(n - 1, interval, timeout);
      if observed.ProbeError? {
        return Aborted(observed.error), n;
      }
      if observed.Ready? {
        runs := runs + 1;
        if runs >= consecutive {
          return Settled, n;
        }
      } else {
        runs := 0;
      }
      StillUndecided(probe, consecutive, n);
      if clock.now > deadline {
        return TimedOut, n;
      }
      var completed := clock.Sleep(interval);
      if !completed {
        return Cancelled, n;
      }
    }
  }

  /** The time n sleeps of one interval take. */
  ghost function Slept(n: nat, interval: int): int {
    if n == 0 then 0 else Slept(n - 1, interval) + interval
  }

  lemma {:induction false} SleptIsProduct(n: nat, interval: int)
    ensures Slept(n, interval) == n * interval
  {
    if n > 0 { SleptIsProduct(n - 1, interval); }
  }

  /** After n sleeps of one interval, the last begun before the deadline: the time gone by. */
  ghost predicate OnTime(n: nat, interval: int, elapsed: int, timeout: int) {
    elapsed >= Slept(n, interval) && (n > 0 ==> Slept(n - 1, interval) <= timeout)
  }

  /** A probe after the first follows a check that found the deadline not yet passed. */
  lemma RoomFor(n: nat, interval: int, timeout: int)
    requires interval > 0
    requires n > 0 ==> Slept(n - 1, interval) <= timeout
    ensures if timeout < 0 then n == 0 else n + 1 <= timeout / interval + 2
  {
    if n > 0 {
      SleptIsProduct(n - 1, interval);
      Quotient(n - 1, interval, timeout);
    }
  }

  lemma Quotient(m: nat, interval: int, timeout: int)
    requires interval > 0
    ensures m * interval <= timeout ==> timeout >= 0 && m <= timeout / interval
  {
    var q := timeout / interval;
    if m > q {
      assert m * interval >= (q + 1) * interval;
    }
  }

  // ---------- retrying a call ----------

  datatype RetryEnd<E> = Returned(result: Option<E>) | RetryCancelled

  /** The earlier attempts all failed with a retryable error. */
  ghost predicate AllRetryable<E>(attempt: nat -> Option<E>, retryable: E -> bool, n: nat) {
    forall i :: 0 <= i < n ==> attempt(i).Some? && retryable(attempt(i).value)
  }

  /** The result of the last attempt is returned, and only retryable failures come before it. */
  method OnError<E>(
    clock: Clock, retryable: E -> bool, attempt: nat -> Option<E>, timeout: int, interval: int)
    returns (end: RetryEnd<E>, n: nat)
    requires interval > 0
    modifies clock
    ensures n >= 1 && AllRetryable(attempt, retryable, n - 1)
    ensures end.Returned? ==> end.result == attempt(n - 1)
    ensures end.Returned? && AllRetryable(attempt, retryable, n) ==>
              clock.now > old(clock.now) + timeout
    ensures end.RetryCancelled? ==> AllRetryable(attempt, retryable, n)
    ensures clock.cancelled == (old(clock.cancelled) || end.RetryCancelled?)
    ensures Every(interval, clock.naps, |old(clock.naps)|)
    ensures |clock.naps| == |old(clock.naps)| + if end.RetryCancelled? then n else n - 1
    ensures if timeout < 0 then n == 1 else n <= timeout / interval + 2
  {
    var start := clock.now;
    var deadline := clock.now + timeout;
    n := 0;
    while true
      invariant clock.now >= start + Slept(n, interval) && clock.cancelled == old(clock.cancelled)
      invariant n > 0 ==> Slept(n - 1, interval) <= timeout
      invariant AllRetryable(attempt, retryable, n)
      invariant |clock.naps| == |old(clock.naps)| + n
      invariant Every(interval, clock.naps, |old(clock.naps)|)
      decreases deadline - clock.now + interval
    {
      var err := attempt(n);
      clock.Elapse();
      n := n + 1;
      RoomFor(n - 1, interval, timeout);
      if err.None? || !retryable(err.value) {
        return Returned(err), n;
      }
      if clock.now > deadline {
        return Returned(err), n;
      }
      var completed := clock.Sleep(interval);
      if !completed {
        return RetryCancelled, n;
      }
    }
  }
}
