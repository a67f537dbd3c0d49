/** `CircuitBreaker`: three fields that refine a predicate on the history of calls. */
module CircuitBreaker {
  import opened Wrappers

  /** What a breaker is told and asked: a success, a failure at a time, and whether a call may be made at a time. */
  datatype Event = Success | Failure(at: int) | Asked(at: int)

  // ----- histories

  /** The number of failures since the last success. */
  function FailuresSince(h: seq<Event>): nat {
    if h == [] then 0
    else
      match h[|h| - 1]
      case Success => 0
      case Failure(_) => FailuresSince(h[..|h| - 1]) + 1
      case Asked(_) => FailuresSince(h[..|h| - 1])
  }

  /** The time of the last failure since the last success. */
  function LastFailure(h: seq<Event>): (r: Option<int>)
    ensures r.Some? <==> FailuresSince(h) > 0
  {
    if h == [] then None
    else
      match h[|h| - 1]
      case Success => None
      case Failure(at) => Some(at)
      case Asked(_) => LastFailure(h[..|h| - 1])
  }

  /** Since the last failure the breaker was asked at a time when the cooldown had passed. */
  predicate Probed(h: seq<Event>, cooldownMs: int) {
    h != [] &&
    match h[|h| - 1]
    case Success => false
    case Failure(_) => false
    case Asked(at) =>
      var init := h[..|h| - 1];
      Probed(init, cooldownMs) || (LastFailure(init).Some? && at - LastFailure(init).value >= cooldownMs)
  }

  /** Enough failures to open the breaker; one at least, even with a threshold of zero. */
  predicate Tripped(h: seq<Event>, threshold: int) {
    FailuresSince(h) >= 1 && FailuresSince(h) >= threshold
  }

  /** The calls that are refused, for a clock that may do anything. */
  predicate Refused(h: seq<Event>, threshold: int, cooldownMs: int, now: int) {
    Tripped(h, threshold) && !Probed(h, cooldownMs) && now - LastFailure(h).value < cooldownMs
  }

  ghost predicate ClockUpTo(h: seq<Event>, now: int) {
    forall i | 0 <= i < |h| && !h[i].Success? :: h[i].at <= now
  }

  ghost predicate MonotoneClock(h: seq<Event>) {
    forall i | 0 <= i < |h| && !h[i].Success? :: ClockUpTo(h[..i], h[i].at)
  }

  /** With a clock that never goes back, a probe means that the cooldown is over for good. */
  lemma {:induction false} ProbedIsPast(h: seq<Event>, cooldownMs: int, now: int)
    requires MonotoneClock(h) && ClockUpTo(h, now) && Probed(h, cooldownMs)
    ensures LastFailure(h).Some? && now - LastFailure(h).value >= cooldownMs
  {
    var init, last := h[..|h| - 1], h[|h| - 1];
    assert forall i | 0 <= i < |init| :: init[i] == h[i] && init[..i] == h[..i];
    if Probed(init, cooldownMs) {
      ProbedIsPast(init, cooldownMs, now);
    }
  }

  /** For any history with a clock that never goes back, a call is refused exactly when there have been at least
      `threshold` failures, and one, since the last success and the last of them is less than the cooldown ago. */
  lemma {:induction false} RefusedByClock(h: seq<Event>, threshold: int, cooldownMs: int, now: int)
    requires MonotoneClock(h) && ClockUpTo(h, now)
    ensures Refused(h, threshold, cooldownMs, now) <==>
            Tripped(h, threshold) && now - LastFailure(h).value < cooldownMs
  {
    if Probed(h, cooldownMs) {
      ProbedIsPast(h, cooldownMs, now);
    }
  }

  /** A clock that goes back can let a call through inside the cooldown: the breaker remembers the probe. */
  lemma {:induction false} BackwardClock()
    ensures var h := [Failure(0), Asked(10)];
            Tripped(h, 1) && 5 - LastFailure(h).value < 10 && !Refused(h, 1, 10, 5) && !ClockUpTo(h, 5)
  {
    var h := [Failure(0), Asked(10)];
    assert h[..1] == [Failure(0)];
    assert h[1].at > 5;
  }

  // ----- the breaker

  datatype CircuitState = Closed | Open | HalfOpen

  class CircuitBreaker {
    const threshold: int
    const cooldownMs: int
    var state: CircuitState
    var failures: int
    var lastFailureAt: int
    ghost var history: seq<Event>

    ghost predicate Valid()
      reads this
    {
      && failures == FailuresSince(history)
      && (failures > 0 ==> LastFailure(history) == Some(lastFailureAt))
      && state ==
         if !Tripped(history, threshold) then Closed else if Probed(history, cooldownMs) then HalfOpen else Open
    }

    constructor (threshold: int, cooldownMs: int)
      ensures Valid() && history == [] && this.threshold == threshold && this.cooldownMs == cooldownMs
    {
      this.threshold, this.cooldownMs := threshold, cooldownMs;
      state, failures, lastFailureAt, history := Closed, 0, 0, [];
    }

    /** Asking is itself an event: it may half-open the breaker. */
    method CanExecute(now: int) returns (ok: bool)
      requires Valid()
      modifies this
      ensures Valid() && history == old(history) + [Asked(now)]
      ensures ok <==> !Refused(old(history), threshold, cooldownMs, now)
      ensures MonotoneClock(old(history)) && ClockUpTo(old(history), now) ==>
                (ok <==> !(Tripped(old(history), threshold) && now - LastFailure(old(history)).value < cooldownMs))
    {
      assert (history + [Asked(now)])[..|history|] == history;
      if MonotoneClock(history) && ClockUpTo(history, now) {
        RefusedByClock(history, threshold, cooldownMs, now);
      }
      history := history + [Asked(now)];
      if state == Closed {
        return true;
      }
      if state == Open {
        if now - lastFailureAt >= cooldownMs {
          state := HalfOpen;
          return true;
        }
        return false;
      }
      return true;
    }

    method RecordSuccess()
      requires Valid()
      modifies this
      ensures Valid() && history == old(history) + [Success] && state == Closed
    {
      failures := 0;
      state := Closed;
      history := history + [Success];
    }

    method RecordFailure(now: int)
      requires Valid()
      modifies this
      ensures Valid() && history == old(history) + [Failure(now)]
    {
      assert (history + [Failure(now)])[..|history|] == history;
      history := history + [Failure(now)];
      failures := failures + 1;
      lastFailureAt := now;
      if failures >= threshold {
        state := Open;
      }
    }
  }
}
