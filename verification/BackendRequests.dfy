/**
 * utils/onboarding/backend_interface.py: `_make_request`, retries with exponential backoff under an overall timeout.
 * Times are real numbers; what the network, the clock and the jitter do is given attempt by attempt.
 */
module BackendRequests {

  /** `Raised`: an exception the loop does not catch, from the validator. */
  datatype Response = Success | RateLimited(retryAfter: int) | Unsuccessful | Raised

  /**
   * What attempt number i meets: its response, how long that takes, the two random numbers it may draw, and by how
   * much its sleep overruns.
   */
  datatype Attempt = Attempt(response: Response, duration: real, rateJitter: real, overrun: real, backoffJitter: real)

  predicate Plausible(a: Attempt) {
    a.duration >= 0.0 && 0.0 <= a.rateJitter <= 1.0 && a.overrun >= 0.0 && 0.0 <= a.backoffJitter <= 1.0
  }

  datatype Outcome = Returned | Propagated | OverallTimeout | RetriesExhausted

  /** A sleep that begins at `at`, counted from the start of the call. */
  datatype Sleep = Sleep(at: real, delay: real)

  datatype Report = Report(outcome: Outcome, requests: nat, sleeps: seq<Sleep>)

  /** A positive rate limit replaces the backoff. */
  function Delay(a: Attempt, retryDelay: real): real {
    if a.response.RateLimited? && a.response.retryAfter > 0 then a.response.retryAfter as real + a.rateJitter
    else retryDelay
  }

  function NextNow(a: Attempt, now: real, retryDelay: real): real {
    now + a.duration + Delay(a, retryDelay) + a.overrun
  }

  function NextDelay(a: Attempt, retryDelay: real, backoffFactor: real): real {
    Delay(a, retryDelay) * backoffFactor + a.backoffJitter
  }

  /** `world` has one entry for every attempt that is still allowed. */
  function Attempts(world: seq<Attempt>, now: real, retryDelay: real, backoffFactor: real, overallTimeout: real): Report
    decreases world
  {
    if world == [] then Report(RetriesExhausted, 0, [])
    else
      var a := world[0];
      var elapsed, delay := now + a.duration, Delay(a, retryDelay);
      if a.response.Success? then Report(Returned, 1, [])
      else if a.response.Raised? then Report(Propagated, 1, [])
      else if elapsed + delay >= overallTimeout then Report(OverallTimeout, 1, [])
      else
        var rest := Attempts(
          world[1..], NextNow(a, now, retryDelay), NextDelay(a, retryDelay, backoffFactor),
          backoffFactor, overallTimeout);
        Report(rest.outcome, rest.requests + 1, [Sleep(elapsed, delay)] + rest.sleeps)
  }

  /** The attempt at position `k`, and what follows it. */
  lemma AttemptAt(world: seq<Attempt>, k: nat, now: real, retryDelay: real, factor: real, overallTimeout: real)
    requires k < |world|
    ensures var a := world[k];
      Attempts(world[k..], now, retryDelay, factor, overallTimeout) ==
      if a.response.Success? then Report(Returned, 1, [])
      else if a.response.Raised? then Report(Propagated, 1, [])
      else if now + a.duration + Delay(a, retryDelay) >= overallTimeout then Report(OverallTimeout, 1, [])
      else
        var rest := Attempts(
          world[k + 1..], NextNow(a, now, retryDelay), NextDelay(a, retryDelay, factor), factor, overallTimeout);
        Report(rest.outcome, rest.requests + 1, [Sleep(now + a.duration, Delay(a, retryDelay))] + rest.sleeps)
  {
    assert world[k..][0] == world[k] && world[k..][1..] == world[k + 1..];
  }

  method MakeRequest(world: seq<Attempt>, initialDelay: real, backoffFactor: real, overallTimeout: real)
    returns (outcome: Outcome, requests: nat, sleeps: seq<Sleep>)
    ensures Report(outcome, requests, sleeps) == Attempts(world, 0.0, initialDelay, backoffFactor, overallTimeout)
  {
    var now, retryDelay := 0.0, initialDelay;
    ghost var goal := Attempts(world, 0.0, initialDelay, backoffFactor, overallTimeout);
    sleeps := [];
    for attempt := 0 to |world|
      invariant var rest := Attempts(world[attempt..], now, retryDelay, backoffFactor, overallTimeout);
        goal == Report(rest.outcome, attempt + rest.requests, sleeps + rest.sleeps)
    {
      var a := world[attempt];
      AttemptAt(world, attempt, now, retryDelay, backoffFactor, overallTimeout);
      ghost var nextNow, nextDelay := NextNow(a, now, retryDelay), NextDelay(a, retryDelay, backoffFactor);
      now := now + a.duration;
      if a.response.Success? {
        return Returned, attempt + 1, sleeps;
      }
      if a.response.Raised? {
        return Propagated, attempt + 1, sleeps;
      }
      if a.response.RateLimited? && a.response.retryAfter > 0 {
        retryDelay := a.response.retryAfter as real;
        retryDelay := retryDelay + a.rateJitter;
      }
      if now + retryDelay >= overallTimeout {
        return OverallTimeout, attempt + 1, sleeps;
      }
      ghost var rest := Attempts(world[attempt + 1..], nextNow, nextDelay, backoffFactor, overallTimeout);
      assert sleeps + ([Sleep(now, retryDelay)] + rest.sleeps) == sleeps + [Sleep(now, retryDelay)] + rest.sleeps;
      assert goal == Report(
        rest.outcome, attempt + (rest.requests + 1), sleeps + [Sleep(now, retryDelay)] + rest.sleeps);
      sleeps := sleeps + [Sleep(now, retryDelay)];
      now := now + retryDelay + a.overrun;
      retryDelay := retryDelay * backoffFactor;
      retryDelay := retryDelay + a.backoffJitter;
      assert now == nextNow && retryDelay == nextDelay;
    }
    return RetriesExhausted, |world|, sleeps;
  }

  /******* What the schedule promises *******/

  ghost predicate AllPlausible(world: seq<Attempt>) {
    forall i :: 0 <= i < |world| ==> Plausible(world[i])
  }

  /** The sleeps, one after the other from `now` on, all planned to end before the overall timeout. */
  ghost predicate Punctual(sleeps: seq<Sleep>, now: real, overallTimeout: real) {
    && (forall i :: 0 <= i < |sleeps| ==> now <= sleeps[i].at && sleeps[i].at + sleeps[i].delay < overallTimeout)
    && (forall i :: 0 < i < |sleeps| ==> sleeps[i - 1].at + sleeps[i - 1].delay <= sleeps[i].at)
  }

  /** What a call that sleeps at least once does after its first sleep. */
  lemma FirstSleep(world: seq<Attempt>, now: real, retryDelay: real, backoffFactor: real, overallTimeout: real)
    requires Attempts(world, now, retryDelay, backoffFactor, overallTimeout).sleeps != []
    ensures world != []
    ensures var r, a := Attempts(world, now, retryDelay, backoffFactor, overallTimeout), world[0];
      var rest := Attempts(
        world[1..], NextNow(a, now, retryDelay), NextDelay(a, retryDelay, backoffFactor),
          backoffFactor, overallTimeout);
      && r.sleeps[1..] == rest.sleeps && r.sleeps[0] == Sleep(now + a.duration, Delay(a, retryDelay))
      && r.requests == rest.requests + 1 && r.outcome == rest.outcome
      && r.sleeps[0].at + r.sleeps[0].delay < overallTimeout
      && !a.response.Success? && !a.response.Raised?
  {
  }

  lemma NextIsLater(a: Attempt, now: real, retryDelay: real, backoffFactor: real)
    requires Plausible(a) && retryDelay >= 0.0 && backoffFactor >= 0.0
    ensures NextNow(a, now, retryDelay) >= now + a.duration + Delay(a, retryDelay) >= now
    ensures NextDelay(a, retryDelay, backoffFactor) >= 0.0
  {
  }

  lemma PunctualPrepend(sleeps: seq<Sleep>, now: real, now': real, overallTimeout: real)
    requires sleeps != [] && Punctual(sleeps[1..], now', overallTimeout) && now <= sleeps[0].at && now <= now'
    requires sleeps[0].at + sleeps[0].delay <= now' && sleeps[0].at + sleeps[0].delay < overallTimeout
    ensures Punctual(sleeps, now, overallTimeout)
  {
    var rest := sleeps[1..];
    forall i | 0 < i < |sleeps|
      ensures now <= sleeps[i].at && sleeps[i].at + sleeps[i].delay < overallTimeout
      ensures sleeps[i - 1].at + sleeps[i - 1].delay <= sleeps[i].at
    {
      assert sleeps[i] == rest[i - 1];
      if i > 1 {
        assert sleeps[i - 1] == rest[i - 2];
      }
    }
  }

  /** No sleep begins that would end at or after the overall timeout, and none begins before the last one is over. */
  lemma {:induction false} NeverOversleeps(
      world: seq<Attempt>, now: real, retryDelay: real, backoffFactor: real, overallTimeout: real)
    requires AllPlausible(world) && retryDelay >= 0.0 && backoffFactor >= 0.0
    ensures Punctual(Attempts(world, now, retryDelay, backoffFactor, overallTimeout).sleeps, now, overallTimeout)
    decreases world
  {
    var sleeps := Attempts(world, now, retryDelay, backoffFactor, overallTimeout).sleeps;
    if sleeps != [] {
      var a := world[0];
      FirstSleep(world, now, retryDelay, backoffFactor, overallTimeout);
      NextIsLater(a, now, retryDelay, backoffFactor);
      var now', next := NextNow(a, now, retryDelay), NextDelay(a, retryDelay, backoffFactor);
      NeverOversleeps(world[1..], now', next, backoffFactor, overallTimeout);
      PunctualPrepend(sleeps, now, now', overallTimeout);
    }
  }

  /** Each request but the last is followed by a sleep; there are never more than the attempts allowed. */
  lemma {:induction false} RequestsAndSleeps(
      world: seq<Attempt>, now: real, retryDelay: real, backoffFactor: real, overallTimeout: real)
    ensures var r := Attempts(world, now, retryDelay, backoffFactor, overallTimeout);
      && r.requests <= |world|
      && |r.sleeps| == (if r.outcome == RetriesExhausted then r.requests else r.requests - 1)
      && (r.outcome == RetriesExhausted ==> r.requests == |world|)
      && (r.outcome == Returned <==> r.requests > 0 && world[r.requests - 1].response.Success?)
      && (r.outcome == Propagated <==> r.requests > 0 && world[r.requests - 1].response.Raised?)
      && (forall i :: 0 <= i < r.requests - 1 ==> !world[i].response.Success? && !world[i].response.Raised?)
    decreases world
  {
    var r := Attempts(world, now, retryDelay, backoffFactor, overallTimeout);
    if r.sleeps != [] {
      var a := world[0];
      FirstSleep(world, now, retryDelay, backoffFactor, overallTimeout);
      RequestsAndSleeps(
        world[1..], NextNow(a, now, retryDelay), NextDelay(a, retryDelay, backoffFactor),
          backoffFactor, overallTimeout);
      assert |r.sleeps| == |r.sleeps[1..]| + 1;
      assert forall i :: 0 < i < |world| ==> world[i] == world[1..][i - 1];
    }
  }

  /** When sleep number `i` begins, and how long it is, given the sleep before it. */
  ghost predicate Scheduled(world: seq<Attempt>, sleeps: seq<Sleep>, now: real, retryDelay: real, factor: real, i: nat)
    requires i < |sleeps| <= |world|
  {
    var a := world[i];
    && sleeps[i].at == a.duration +
         (if i == 0 then now else sleeps[i - 1].at + sleeps[i - 1].delay + world[i - 1].overrun)
    && sleeps[i].delay ==
         if a.response.RateLimited? && a.response.retryAfter > 0 then a.response.retryAfter as real + a.rateJitter
         else if i == 0 then retryDelay
         else sleeps[i - 1].delay * factor + world[i - 1].backoffJitter
  }

  lemma ScheduledPrepend(
      world: seq<Attempt>, sleeps: seq<Sleep>, now: real, retryDelay: real, factor: real, i: nat)
    requires 0 < i < |sleeps| <= |world|
    requires sleeps[0] == Sleep(now + world[0].duration, Delay(world[0], retryDelay))
    requires Scheduled(world[1..], sleeps[1..],
                       NextNow(world[0], now, retryDelay), NextDelay(world[0], retryDelay, factor), factor, i - 1)
    ensures Scheduled(world, sleeps, now, retryDelay, factor, i)
  {
    assert world[1..][i - 1] == world[i] && sleeps[1..][i - 1] == sleeps[i];
    if i > 1 {
      assert world[1..][i - 2] == world[i - 1] && sleeps[1..][i - 2] == sleeps[i - 1];
    }
  }

  /** Every sleep follows the schedule: a rate limit where there is one, else the last delay, scaled, plus jitter. */
  lemma {:induction false} SleepsAreScheduled(
      world: seq<Attempt>, now: real, retryDelay: real, backoffFactor: real, overallTimeout: real, i: nat)
    requires i < |Attempts(world, now, retryDelay, backoffFactor, overallTimeout).sleeps|
    ensures var sleeps := Attempts(world, now, retryDelay, backoffFactor, overallTimeout).sleeps;
      |sleeps| <= |world| && Scheduled(world, sleeps, now, retryDelay, backoffFactor, i)
    decreases world
  {
    var sleeps := Attempts(world, now, retryDelay, backoffFactor, overallTimeout).sleeps;
    RequestsAndSleeps(world, now, retryDelay, backoffFactor, overallTimeout);
    FirstSleep(world, now, retryDelay, backoffFactor, overallTimeout);
    if i > 0 {
      var now', next := NextNow(world[0], now, retryDelay), NextDelay(world[0], retryDelay, backoffFactor);
      SleepsAreScheduled(world[1..], now', next, backoffFactor, overallTimeout, i - 1);
      ScheduledPrepend(world, sleeps, now, retryDelay, backoffFactor, i);
    }
  }

  /** It gives up early only when the next sleep the schedule has would not end before the overall timeout. */
  lemma {:induction false} TimeoutIsJustified(
      world: seq<Attempt>, now: real, retryDelay: real, backoffFactor: real, overallTimeout: real)
    returns (next: Sleep)
    requires Attempts(world, now, retryDelay, backoffFactor, overallTimeout).outcome == OverallTimeout
    ensures var sleeps := Attempts(world, now, retryDelay, backoffFactor, overallTimeout).sleeps;
      && |sleeps| < |world|
      && Scheduled(world, sleeps + [next], now, retryDelay, backoffFactor, |sleeps|)
      && next.at + next.delay >= overallTimeout
    decreases world
  {
    var sleeps := Attempts(world, now, retryDelay, backoffFactor, overallTimeout).sleeps;
    if sleeps == [] {
      next := Sleep(now + world[0].duration, Delay(world[0], retryDelay));
      assert sleeps + [next] == [next];
    } else {
      FirstSleep(world, now, retryDelay, backoffFactor, overallTimeout);
      var now', delay' := NextNow(world[0], now, retryDelay), NextDelay(world[0], retryDelay, backoffFactor);
      next := TimeoutIsJustified(world[1..], now', delay', backoffFactor, overallTimeout);
      assert (sleeps + [next])[1..] == sleeps[1..] + [next];
      ScheduledPrepend(world, sleeps + [next], now, retryDelay, backoffFactor, |sleeps|);
    }
  }

  /******* The geometric bound *******/

  /** delay + delay * factor + ..., n terms. */
  function Geometric(delay: real, factor: real, n: nat): real
    decreases n
  {
    if n == 0 then 0.0 else delay + Geometric(delay * factor, factor, n - 1)
  }

  ghost predicate NoRateLimit(world: seq<Attempt>) {
    forall i :: 0 <= i < |world| ==> world[i].response.RateLimited? ==> world[i].response.retryAfter <= 0
  }

  lemma {:induction false} GeometricGrows(delay: real, more: real, factor: real, n: nat)
    requires delay <= more && factor >= 0.0
    ensures Geometric(delay, factor, n) <= Geometric(more, factor, n)
    decreases n
  {
    if n > 0 {
      assert delay * factor <= more * factor;
      GeometricGrows(delay * factor, more * factor, factor, n - 1);
    }
  }

  /** Without a rate limit, n sleeps take at least the first n terms of the geometric series, before the timeout. */
  lemma {:induction false} BackoffBound(
      world: seq<Attempt>, now: real, retryDelay: real, backoffFactor: real, overallTimeout: real)
    requires AllPlausible(world) && NoRateLimit(world) && retryDelay >= 0.0 && backoffFactor >= 0.0
    ensures var sleeps := Attempts(world, now, retryDelay, backoffFactor, overallTimeout).sleeps;
      sleeps != [] ==> now + Geometric(retryDelay, backoffFactor, |sleeps|) < overallTimeout
    decreases world
  {
    var sleeps := Attempts(world, now, retryDelay, backoffFactor, overallTimeout).sleeps;
    if sleeps != [] {
      var a := world[0];
      FirstSleep(world, now, retryDelay, backoffFactor, overallTimeout);
      NextIsLater(a, now, retryDelay, backoffFactor);
      var now', next := NextNow(a, now, retryDelay), NextDelay(a, retryDelay, backoffFactor);
      BackoffBound(world[1..], now', next, backoffFactor, overallTimeout);
      assert Plausible(a) && Delay(a, retryDelay) == retryDelay && |sleeps[1..]| == |sleeps| - 1;
      GeometricGrows(retryDelay * backoffFactor, next, backoffFactor, |sleeps| - 1);
      assert Geometric(retryDelay, backoffFactor, |sleeps|) ==
             retryDelay + Geometric(retryDelay * backoffFactor, backoffFactor, |sleeps| - 1);
    }
  }

  function Pow2(n: nat): nat {
    if n == 0 then 1 else 2 * Pow2(n - 1)
  }

  lemma {:induction false} GeometricDoubling(delay: real, n: nat)
    ensures Geometric(delay, 2.0, n) == delay * (Pow2(n) - 1) as real
    decreases n
  {
    if n > 0 {
      GeometricDoubling(delay * 2.0, n - 1);
      var p := Pow2(n - 1) as real;
      assert delay + delay * 2.0 * (p - 1.0) == delay * (2.0 * p - 1.0);
    }
  }

  /** With the default factor 2, n sleeps imply retry_delay * (2^n - 1) < overall_timeout. */
  lemma DoublingBound(world: seq<Attempt>, retryDelay: real, overallTimeout: real)
    requires AllPlausible(world) && NoRateLimit(world) && retryDelay >= 0.0
    ensures var n := |Attempts(world, 0.0, retryDelay, 2.0, overallTimeout).sleeps|;
      n > 0 ==> retryDelay * (Pow2(n) - 1) as real < overallTimeout
  {
    BackoffBound(world, 0.0, retryDelay, 2.0, overallTimeout);
    GeometricDoubling(retryDelay, |Attempts(world, 0.0, retryDelay, 2.0, overallTimeout).sleeps|);
  }

  lemma {:induction false} Pow2Grows(m: nat, n: nat)
    requires m <= n
    ensures Pow2(m) <= Pow2(n)
    decreases n
  {
    if m < n {
      Pow2Grows(m, n - 1);
    }
  }

  /** With the default delay 1 and timeout 300 there are at most nine requests, so the 30 retries are never used up. */
  lemma DefaultsMakeNineRequests(world: seq<Attempt>)
    requires AllPlausible(world) && NoRateLimit(world) && |world| == 30
    ensures Attempts(world, 0.0, 1.0, 2.0, 300.0).requests <= 9
    ensures Attempts(world, 0.0, 1.0, 2.0, 300.0).outcome != RetriesExhausted
  {
    var n := |Attempts(world, 0.0, 1.0, 2.0, 300.0).sleeps|;
    DoublingBound(world, 1.0, 300.0);
    RequestsAndSleeps(world, 0.0, 1.0, 2.0, 300.0);
    assert Pow2(4) == 16 && Pow2(6) == 64 && Pow2(8) == 256 && Pow2(9) == 512;
    if n >= 9 {
      Pow2Grows(9, n);
      assert false;
    }
  }

  /** The bound is tight: instant failures, exact sleeps and no jitter do make nine requests. */
  lemma NineRequestsHappen()
    ensures var a := Attempt(Unsuccessful, 0.0, 0.0, 0.0, 0.0);
      Attempts(seq(30, _ => a), 0.0, 1.0, 2.0, 300.0).requests == 9
  {
    var a := Attempt(Unsuccessful, 0.0, 0.0, 0.0, 0.0);
    FailingStep(a, 22, 255.0, 256.0);
    FailingStep(a, 23, 127.0, 128.0);
    FailingStep(a, 24, 63.0, 64.0);
    FailingStep(a, 25, 31.0, 32.0);
    FailingStep(a, 26, 15.0, 16.0);
    FailingStep(a, 27, 7.0, 8.0);
    FailingStep(a, 28, 3.0, 4.0);
    FailingStep(a, 29, 1.0, 2.0);
    FailingStep(a, 30, 0.0, 1.0);
  }

  lemma FailingStep(a: Attempt, n: nat, now: real, delay: real)
    requires a == Attempt(Unsuccessful, 0.0, 0.0, 0.0, 0.0) && n > 0
    ensures Attempts(seq(n, _ => a), now, delay, 2.0, 300.0).requests ==
            if now + delay >= 300.0 then 1
            else Attempts(seq(n - 1, _ => a), now + delay, delay * 2.0, 2.0, 300.0).requests + 1
  {
    assert seq(n, _ => a)[1..] == seq(n - 1, _ => a);
  }
}
