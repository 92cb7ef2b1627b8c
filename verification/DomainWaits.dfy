/** The two domain waits: state machines over any stream of observations. */
module DomainWaits {
  import opened Options
  import opened Clock
  import Waiting

  /** After this many absences in a row the next one gives up. */
  const ABSENCE_LIMIT := 20

  // ---------- the Cognito user pool domain ----------

  /** A describe response; an empty status reads as a missing domain. */
  datatype Describe =
    | DomainNotFound | DescribeError | NoDescription | Description(status: string)

  datatype Reading = Absent | Unreadable | Present(status: string)

  function ReadUserPoolDomainStatus(response: Describe): Reading {
    match response
    case DomainNotFound => Absent
    case DescribeError => Unreadable
    case NoDescription => Absent
    case Description(status) => if status == "" then Absent else Present(status)
  }

  predicate Missing(describe: nat -> Describe, i: nat) {
    ReadUserPoolDomainStatus(describe(i)).Absent?
  }

  ghost function Missings(describe: nat -> Describe): nat -> bool {
    (i: nat) => Missing(describe, i)
  }

  /** How many of the last observations before position n, unbroken, found nothing. */
  function AbsentRun(missing: nat -> bool, n: nat): nat {
    if n == 0 || !missing(n - 1) then 0 else AbsentRun(missing, n - 1) + 1
  }

  /** The count exceeds the limit exactly when the last 21 observations were all missing. */
  lemma {:induction false} AbsentRunMeaning(missing: nat -> bool, n: nat, k: nat)
    ensures AbsentRun(missing, n) >= k <==>
              LastAllMissing(missing, n, k)
  {
    if n > 0 && k > 0 {
      AbsentRunMeaning(missing, n - 1, k - 1);
      assert !missing(n - 1) ==> !(forall i: nat :: n - k <= i < n ==> missing(i));
    }
  }

  ghost predicate LastAllMissing(missing: nat -> bool, n: nat, k: nat) {
    k <= n && forall i: nat :: n - k <= i < n ==> missing(i)
  }

  datatype Verdict = Continue | Reached | ReadFailed | NeverAppeared | BadStatus(status: string)

  /** What the wait must conclude from its first n observations; n is positive. */
  ghost function DomainVerdict(
    describe: nat -> Describe, n: nat, targetActive: bool, pending: set<string>): Verdict
    requires n > 0
  {
    match ReadUserPoolDomainStatus(describe(n - 1))
    case Unreadable => ReadFailed
    case Absent =>
      if !targetActive then Reached
      else if LastAllMissing(Missings(describe), n, ABSENCE_LIMIT + 1) then NeverAppeared
      else Continue
    case Present(status) =>
      if targetActive && status == "ACTIVE" then Reached
      else if status !in pending then BadStatus(status)
      else Continue
  }

  /** One turn of the loop: what a reading decides, given the absences in a row before it. */
  method Decide(
    reading: Reading, before: nat, targetActive: bool, pending: set<string>,
    ghost describe: nat -> Describe, ghost n: nat)
    returns (verdict: Verdict, absent: nat)
    requires n > 0 && reading == ReadUserPoolDomainStatus(describe(n - 1))
    requires before == AbsentRun(Missings(describe), n - 1)
    ensures verdict == DomainVerdict(describe, n, targetActive, pending)
    ensures verdict.Continue? ==> absent == AbsentRun(Missings(describe), n)
  {
    AbsentRunMeaning(Missings(describe), n, ABSENCE_LIMIT + 1);
    absent := before;
    match reading {
      case Unreadable =>
        return ReadFailed, absent;
      case Absent =>
        if !targetActive {
          return Reached, absent;
        }
        absent := absent + 1;
        verdict := if absent > ABSENCE_LIMIT then NeverAppeared else Continue;
      case Present(status) =>
        absent := 0;
        if targetActive && status == "ACTIVE" {
          return Reached, absent;
        }
        verdict := if status !in pending then BadStatus(status) else Continue;
    }
  }

  datatype WaitEnd = Decided(verdict: Verdict) | TimedOut | Interrupted

  const FIRST_DELAY := 200
  const LONGEST_DELAY := 10000

  /** The i-th delay: a fifth of a second, doubling, at most ten seconds. */
  function Delay(i: nat): int {
    if i == 0 then FIRST_DELAY else Min(Delay(i - 1) * 2, LONGEST_DELAY)
  }

  /** The first n delays together. */
  function Total(n: nat): int {
    if n == 0 then 0 else Total(n - 1) + Delay(n - 1)
  }

  lemma {:induction false} TotalIs(n: nat)
    ensures 0 < Delay(n) <= 10000
    ensures n <= 5 ==> Delay(n) == [200, 400, 800, 1600, 3200, 6400][n]
                       && Total(n) == [0, 200, 600, 1400, 3000, 6200][n]
    ensures n >= 6 ==> Delay(n) == 10000 && Total(n) == 12600 + (n - 6) * 10000
  {
    if n > 0 { TotalIs(n - 1); }
  }

  /** How many delays fit before the deadline: at most one for each ten seconds, and seven more. */
  lemma DelaysThatFit(n: nat, timeout: int)
    requires Total(n) < timeout
    ensures n < timeout / LONGEST_DELAY + 7
  {
    TotalIs(n);
  }

  /** From position first on, the sleeps follow the delays and none would pass the deadline. */
  ghost predicate Paced(naps: seq<Nap>, first: nat, deadline: int) {
    forall i :: first <= i < |naps| ==>
      0 < naps[i].duration == Min(Delay(i - first), deadline - naps[i].at)
  }

  lemma PacedNext(naps: seq<Nap>, first: nat, deadline: int, nap: Nap)
    requires first <= |naps| && Paced(naps, first, deadline)
    requires 0 < nap.duration == Min(Delay(|naps| - first), deadline - nap.at)
    ensures Paced(naps + [nap], first, deadline)
  {
  }

  /** After n sleeps, each begun before the deadline: how much time has gone by. */
  ghost predicate OnTime(n: nat, elapsed: int, timeout: int) {
    && elapsed >= Min(Total(n), timeout)
    && (n > 0 ==> Total(n - 1) < timeout)
  }

  /** A read after the first follows a sleep that began before the deadline. */
  lemma ReadsThatFit(n: nat, elapsed: int, timeout: int)
    requires n > 0 && OnTime(n - 1, elapsed, timeout)
    ensures n >= 2 ==> Total(n - 2) < timeout
    ensures if timeout <= 0 then n == 1 else n <= timeout / LONGEST_DELAY + 8
  {
    if n >= 2 {
      TotalIs(n - 2);
      DelaysThatFit(n - 2, timeout);
    }
  }

  /** Sleeps for the delay or the time remaining, unless that time is up. */
  method Pause(clock: Clock, delay: int, deadline: int, ghost first: nat)
    returns (end: Option<WaitEnd>)
    requires first <= |clock.naps| && Paced(clock.naps, first, deadline)
    requires 0 < delay == Delay(|clock.naps| - first)
    modifies clock
    ensures end in {None, Some(TimedOut), Some(Interrupted)}
    ensures Paced(clock.naps, first, deadline)
    ensures |clock.naps| == |old(clock.naps)| + if end == Some(TimedOut) then 0 else 1
    ensures clock.cancelled == (old(clock.cancelled) || end == Some(Interrupted))
    ensures end == Some(TimedOut) ==> clock.now >= deadline
    ensures end.None? ==>
              clock.now >= old(clock.now) + Min(delay, deadline - old(clock.now)) > old(clock.now)
    ensures clock.now >= old(clock.now)
  {
    var remaining := deadline - clock.now;
    if remaining <= 0 {
      return Some(TimedOut);
    }
    var sleep := Min(delay, remaining);
    PacedNext(clock.naps, first, deadline, Nap(clock.now, sleep));
    var completed := clock.Sleep(sleep);
    end := if completed then None else Some(Interrupted);
  }

  /**
   * The wait stops at the first decisive observation and reports what it decides. It gives up
   * only once the deadline has come, and never asks for a sleep that ends after the deadline.
   */
  method WaitUserPoolDomain(
    clock: Clock, describe: nat -> Describe, timeout: int, targetActive: bool,
    pending: set<string>)
    returns (end: WaitEnd, n: nat)
    modifies clock
    ensures n > 0
    ensures forall m :: 0 < m < n ==> DomainVerdict(describe, m, targetActive, pending).Continue?
    ensures DomainVerdict(describe, n, targetActive, pending)
            == if end.Decided? then end.verdict else Continue
    ensures end.Decided? ==> !end.verdict.Continue?
    ensures end.TimedOut? ==> clock.now >= old(clock.now) + timeout
    ensures clock.cancelled == (old(clock.cancelled) || end.Interrupted?)
    ensures |old(clock.naps)| + n - 1 <= |clock.naps| <= |old(clock.naps)| + n
    ensures Paced(clock.naps, |old(clock.naps)|, old(clock.now) + timeout)
    ensures n >= 2 ==> Total(n - 2) < timeout
    ensures if timeout <= 0 then n == 1 else n <= timeout / LONGEST_DELAY + 8
  {
    ghost var start := clock.now;
    var deadline := clock.now + timeout;
    var delay := FIRST_DELAY;
    var absent := 0;
    ghost var first := |clock.naps|;
    n := 0;
    while true
      invariant absent == AbsentRun(Missings(describe), n)
      invariant forall m :: 0 < m <= n ==>
                  DomainVerdict(describe, m, targetActive, pending).Continue?
      invariant |clock.naps| == first + n && Paced(clock.naps, first, deadline)
      invariant 0 < delay == Delay(n) && OnTime(n, clock.now - start, timeout)
      invariant clock.cancelled == old(clock.cancelled)
      decreases deadline - clock.now + LONGEST_DELAY
    {
      var reading := ReadUserPoolDomainStatus(describe(n));
      clock.Elapse();
      n := n + 1;
      ReadsThatFit(n, clock.now - start, timeout);
      var verdict;
      verdict, absent := Decide(reading, absent, targetActive, pending, describe, n);
      if !verdict.Continue? {
        return Decided(verdict), n;
      }
      var pause := Pause(clock, delay, deadline, first);
      if pause.Some? {
        return pause.value, n;
      }
      delay := Min(delay * 2, LONGEST_DELAY);
      assert OnTime(n, clock.now - start, timeout);
    }
  }

  /** The pending statuses of the three callers. */
  const CREATE_PENDING := {"CREATING", "UPDATING"}
  const UPDATE_PENDING := {"UPDATING"}
  const DELETE_PENDING := {"UPDATING", "DELETING"}

  /** A response that shows no domain. */
  predicate NotThere(response: Describe) {
    || response == DomainNotFound || response == NoDescription
    || response == Description("")
  }

  /** The last 21 responses showed no domain. */
  ghost predicate LastNotThere(describe: nat -> Describe, n: nat) {
    n >= 21 && forall i: nat :: n - 21 <= i < n ==> NotThere(describe(i))
  }

  lemma MissingIsNotThere(describe: nat -> Describe, n: nat)
    ensures LastAllMissing(Missings(describe), n, 21) <==> LastNotThere(describe, n)
  {
    assert forall i :: Missing(describe, i) <==> NotThere(describe(i));
    assert forall i: nat :: Missings(describe)(i) <==> NotThere(describe(i));
  }

  /** After a create: pending is CREATING or UPDATING, and a missing domain may yet appear. */
  method WaitUserPoolDomainActive(clock: Clock, describe: nat -> Describe, timeout: int)
    returns (end: WaitEnd, n: nat)
    modifies clock
    ensures n > 0
    ensures end == Decided(Reached) <==> describe(n - 1) == Description("ACTIVE")
    ensures end == Decided(NeverAppeared) <==> LastNotThere(describe, n)
    ensures end == Decided(ReadFailed) <==> describe(n - 1) == DescribeError
    ensures forall s :: end == Decided(BadStatus(s))
              <==> describe(n - 1) == Description(s) && s !in {"", "ACTIVE", "CREATING", "UPDATING"}
    ensures forall m :: 0 <= m < n - 1 ==>
              NotThere(describe(m)) || describe(m) in {Description("CREATING"), Description("UPDATING")}
    ensures end.TimedOut? ==> clock.now >= old(clock.now) + timeout
    ensures clock.cancelled == (old(clock.cancelled) || end.Interrupted?)
    ensures Paced(clock.naps, |old(clock.naps)|, old(clock.now) + timeout)
    ensures if timeout <= 0 then n == 1 else n <= timeout / 10000 + 8
  {
    end, n := WaitUserPoolDomain(clock, describe, timeout, true, CREATE_PENDING);
    MissingIsNotThere(describe, n);
    forall m | 0 <= m < n - 1
      ensures NotThere(describe(m)) || describe(m) in {Description("CREATING"), Description("UPDATING")}
    {
      assert DomainVerdict(describe, m + 1, true, CREATE_PENDING).Continue?;
    }
  }

  /** After an update only UPDATING is pending. */
  method WaitUserPoolDomainUpdateActive(clock: Clock, describe: nat -> Describe, timeout: int)
    returns (end: WaitEnd, n: nat)
    modifies clock
    ensures n > 0
    ensures end == Decided(Reached) <==> describe(n - 1) == Description("ACTIVE")
    ensures end == Decided(NeverAppeared) <==> LastNotThere(describe, n)
    ensures end == Decided(ReadFailed) <==> describe(n - 1) == DescribeError
    ensures forall s :: end == Decided(BadStatus(s))
              <==> describe(n - 1) == Description(s) && s !in {"", "ACTIVE", "UPDATING"}
    ensures forall m :: 0 <= m < n - 1 ==>
              NotThere(describe(m)) || describe(m) in {Description("UPDATING")}
    ensures end.TimedOut? ==> clock.now >= old(clock.now) + timeout
    ensures clock.cancelled == (old(clock.cancelled) || end.Interrupted?)
    ensures Paced(clock.naps, |old(clock.naps)|, old(clock.now) + timeout)
    ensures if timeout <= 0 then n == 1 else n <= timeout / 10000 + 8
  {
    end, n := WaitUserPoolDomain(clock, describe, timeout, true, UPDATE_PENDING);
    MissingIsNotThere(describe, n);
    forall m | 0 <= m < n - 1
      ensures NotThere(describe(m)) || describe(m) in {Description("UPDATING")}
    {
      assert DomainVerdict(describe, m + 1, true, UPDATE_PENDING).Continue?;
    }
  }

  /** Waiting for a delete, the first missing observation is success. */
  method WaitUserPoolDomainAbsent(clock: Clock, describe: nat -> Describe, timeout: int)
    returns (end: WaitEnd, n: nat)
    modifies clock
    ensures n > 0
    ensures end == Decided(Reached) <==> NotThere(describe(n - 1))
    ensures end != Decided(NeverAppeared)
    ensures end == Decided(ReadFailed) <==> describe(n - 1) == DescribeError
    ensures forall s :: end == Decided(BadStatus(s))
              <==> describe(n - 1) == Description(s) && s !in {"", "UPDATING", "DELETING"}
    ensures forall m :: 0 <= m < n - 1 ==>
              describe(m) in {Description("UPDATING"), Description("DELETING")}
    ensures end.TimedOut? ==> clock.now >= old(clock.now) + timeout
    ensures clock.cancelled == (old(clock.cancelled) || end.Interrupted?)
    ensures Paced(clock.naps, |old(clock.naps)|, old(clock.now) + timeout)
    ensures if timeout <= 0 then n == 1 else n <= timeout / 10000 + 8
  {
    end, n := WaitUserPoolDomain(clock, describe, timeout, false, DELETE_PENDING);
    MissingIsNotThere(describe, n);
    forall m | 0 <= m < n - 1
      ensures describe(m) in {Description("UPDATING"), Description("DELETING")}
    {
      assert DomainVerdict(describe, m + 1, false, DELETE_PENDING).Continue?;
    }
  }

  // ---------- the API Gateway domain name ----------

  datatype DomainNameResponse =
    | NameNotFound | GetError | NoConfigurations | Configured(status: string, message: string)

  predicate NotVisible(get: nat -> DomainNameResponse, i: nat) {
    get(i).NameNotFound? || get(i).NoConfigurations?
  }

  datatype NameVerdict =
    | Pending | Available | GetFailed | NotSeen | NoneConfigured
    | WrongStatus(status: string, message: string)

  ghost function NotVisibles(get: nat -> DomainNameResponse): nat -> bool {
    (i: nat) => NotVisible(get, i)
  }

  ghost function NameVerdictOf(get: nat -> DomainNameResponse, n: nat): NameVerdict
    requires n > 0
  {
    var tooMany := LastAllMissing(NotVisibles(get), n, ABSENCE_LIMIT + 1);
    match get(n - 1)
    case GetError => GetFailed
    case NameNotFound => if tooMany then NotSeen else Pending
    case NoConfigurations => if tooMany then NoneConfigured else Pending
    case Configured(status, message) =>
      if status == "AVAILABLE" then Available
      else if status == "UPDATING" then Pending
      else WrongStatus(status, message)
  }

  /** The last configuration seen in the first n responses, if any. */
  function LastSeen(get: nat -> DomainNameResponse, n: nat): (string, string) {
    if n == 0 then ("", "")
    else match get(n - 1)
      case Configured(status, message) => (status, message)
      case _ => LastSeen(get, n - 1)
  }

  datatype NameWaitEnd =
    | NameDecided(verdict: NameVerdict)
    | NameTimedOut(lastStatus: string, lastMessage: string)
    | NameInterrupted

  /** One turn of the loop: what a response decides, given the misses in a row before it. */
  method DecideName(
    response: DomainNameResponse, before: nat,
    ghost get: nat -> DomainNameResponse, ghost n: nat)
    returns (verdict: NameVerdict, misses: nat)
    requires n > 0 && response == get(n - 1)
    requires before == AbsentRun(NotVisibles(get), n - 1)
    ensures verdict == NameVerdictOf(get, n) && misses == AbsentRun(NotVisibles(get), n)
  {
    AbsentRunMeaning(NotVisibles(get), n, ABSENCE_LIMIT + 1);
    misses := before;
    match response {
      case GetError =>
        return GetFailed, 0;
      case NameNotFound =>
        misses := misses + 1;
        verdict := if misses > ABSENCE_LIMIT then NotSeen else Pending;
      case NoConfigurations =>
        misses := misses + 1;
        verdict := if misses > ABSENCE_LIMIT then NoneConfigured else Pending;
      case Configured(status, message) =>
        misses := 0;
        verdict := match status
          case "AVAILABLE" => Available
          case "UPDATING" => Pending
          case _ => WrongStatus(status, message);
    }
  }

  /** Stops at the first decisive response; a timeout reports the last configuration seen. */
  method WaitDomainNameAvailable(
    clock: Clock, get: nat -> DomainNameResponse, timeout: int, interval: int)
    returns (end: NameWaitEnd, n: nat)
    requires interval > 0
    modifies clock
    ensures n > 0
    ensures forall m :: 0 < m < n ==> NameVerdictOf(get, m).Pending?
    ensures NameVerdictOf(get, n) == if end.NameDecided? then end.verdict else Pending
    ensures end.NameDecided? ==> !end.verdict.Pending?
    ensures end.NameTimedOut? ==>
              && clock.now > old(clock.now) + timeout
              && (end.lastStatus, end.lastMessage) == LastSeen(get, n)
    ensures clock.cancelled == (old(clock.cancelled) || end.NameInterrupted?)
    ensures Every(interval, clock.naps, |old(clock.naps)|)
    ensures |clock.naps| == |old(clock.naps)| + if end.NameInterrupted? then n else n - 1
    ensures if timeout < 0 then n == 1 else n <= timeout / interval + 2
  {
    ghost var start := clock.now;
    var deadline := clock.now + timeout;
    var notFoundCount := 0;
    var lastStatus, lastMessage := "", "";
    n := 0;
    while true
      invariant notFoundCount == AbsentRun(NotVisibles(get), n)
      invariant (lastStatus, lastMessage) == LastSeen(get, n)
      invariant clock.now >= start + Waiting.Slept(n, interval)
      invariant n > 0 ==> Waiting.Slept(n - 1, interval) <= timeout
      invariant |clock.naps| == |old(clock.naps)| + n
      invariant Every(interval, clock.naps, |old(clock.naps)|)
      invariant clock.cancelled == old(clock.cancelled)
      invariant forall m :: 0 < m <= n ==> NameVerdictOf(get, m).Pending?
      decreases deadline - clock.now + interval
    {
      var response := get(n);
      clock.Elapse();
      n := n + 1;
      Waiting.RoomFor(n - 1, interval, timeout);
      var verdict;
      verdict, notFoundCount := DecideName(response, notFoundCount, get, n);
      if response.Configured? {
        lastStatus, lastMessage := response.status, response.message;
      }
      if !verdict.Pending? {
        return NameDecided(verdict), n;
      }
      if clock.now > deadline {
        return NameTimedOut(lastStatus, lastMessage), n;
      }
      var completed := clock.Sleep(interval);
      if !completed {
        return NameInterrupted, n;
      }
    }
  }
}
