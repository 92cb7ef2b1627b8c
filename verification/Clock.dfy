/** A monotone clock, in milliseconds. A sleep takes at least as long as asked. */
module Clock {

  /** A sleep asked for, and when. */
  datatype Nap = Nap(at: int, duration: int)

  class Clock {
    var now: int
    ghost var cancelled: bool  // some sleep was cut short by its context
    ghost var naps: seq<Nap>   // every sleep asked for, in order
    ghost var asked: int       // the sum of their durations

    constructor (now: int)
      ensures this.now == now && !cancelled && naps == [] && asked == 0
    {
      this.now, cancelled, naps, asked := now, false, [], 0;
    }

    /** Time that passes during a call to a service. */
    method Elapse()
      modifies this
      ensures now >= old(now) && cancelled == old(cancelled)
      ensures naps == old(naps) && asked == old(asked)
    {
      var passed :| passed >= 0;
      now := now + passed;
    }

    /** The sleep ends early only when the context is cancelled. */
    method Sleep(duration: int) returns (completed: bool)
      modifies this
      ensures now >= old(now) && (completed ==> now >= old(now) + duration)
      ensures cancelled == (old(cancelled) || !completed)
      ensures naps == old(naps) + [Nap(old(now), duration)] && asked == old(asked) + duration
    {
      naps, asked := naps + [Nap(now, duration)], asked + duration;
      completed := *;
      cancelled := cancelled || !completed;
      var passed :| passed >= 0;
      now := now + if completed && passed < duration then duration else passed;
    }
  }

  /** From position first on, every nap is one interval. */
  ghost predicate Every(interval: int, naps: seq<Nap>, first: nat) {
    forall i :: first <= i < |naps| ==> naps[i].duration == interval
  }

  /** The naps were added to, and only by naps of these durations. */
  ghost predicate OnlyNaps(durations: set<int>, before: seq<Nap>, after: seq<Nap>) {
    && before <= after
    && forall i :: |before| <= i < |after| ==> after[i].duration in durations
  }

  function Min(a: int, b: int): (r: int)
    ensures r <= a && r <= b && r in {a, b}
  {
    if a < b then a else b
  }
}
