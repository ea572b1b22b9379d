/** The circuit breaker against a specification over its event log, and the load it lets through. */
module BreakerLog {
  import opened Options
  import opened Resilience
  import opened Multiples

  /** `Looked` is a read of the state, by `allow` or by anyone else. */
  datatype Event = Looked(at: real) | Succeeded(at: real) | Failed(at: real) | Forced(at: real)

  function Step(b: Breaker, e: Event): Breaker {
    match e
    case Looked(at) => b.Look(at)
    case Succeeded(_) => b.Success()
    case Failed(at) => b.Failure(at)
    case Forced(at) => b.Trip(at)
  }

  function Replay(b: Breaker, log: seq<Event>): Breaker {
    if log == [] then b else Step(Replay(b, log[..|log| - 1]), log[|log| - 1])
  }

  // ---------------------------------------------------------------------------
  // What the log alone says
  // ---------------------------------------------------------------------------

  function FailuresSinceSuccess(log: seq<Event>): nat {
    if log == [] then 0
    else
      var rest := FailuresSinceSuccess(log[..|log| - 1]);
      match log[|log| - 1]
      case Succeeded(_) => 0
      case Failed(_) => rest + 1
      case _ => rest
  }

  predicate ForcedSinceSuccess(log: seq<Event>) {
    log != [] && !log[|log| - 1].Succeeded? && (log[|log| - 1].Forced? || ForcedSinceSuccess(log[..|log| - 1]))
  }

  /** The instant of the last trip since the last success, if any, with the number of failures that
      have counted towards the threshold. No HALF_OPEN state occurs here: a failure after the cooldown
      re-trips at once and does not count, any other failure counts and trips at the threshold. */
  datatype TripRecord = TripRecord(counted: nat, lastTrip: Option<real>)

  function Trips(log: seq<Event>, threshold: int, resetAfter: real): TripRecord {
    if log == [] then TripRecord(0, None)
    else TripStep(Trips(log[..|log| - 1], threshold, resetAfter), log[|log| - 1], threshold, resetAfter)
  }

  function TripStep(r: TripRecord, e: Event, threshold: int, resetAfter: real): TripRecord {
    match e
    case Looked(_) => r
    case Succeeded(_) => TripRecord(0, None)
    case Forced(at) => r.(lastTrip := Some(at))
    case Failed(at) =>
      if r.lastTrip.Some? && at - r.lastTrip.value >= resetAfter then r.(lastTrip := Some(at))
      else TripRecord(r.counted + 1, if r.counted + 1 >= threshold then Some(at) else r.lastTrip)
  }

  predicate Cooling(log: seq<Event>, threshold: int, resetAfter: real, now: real) {
    var r := Trips(log, threshold, resetAfter);
    r.lastTrip.Some? && now - r.lastTrip.value < resetAfter
  }

  ghost predicate Chronological(log: seq<Event>) {
    forall i, j :: 0 <= i < j < |log| ==> log[i].at <= log[j].at
  }

  // ---------------------------------------------------------------------------
  // The breaker refines the log
  // ---------------------------------------------------------------------------

  lemma {:induction false} ReplayValid(threshold: int, resetAfter: real, log: seq<Event>)
    requires threshold >= 1
    ensures var b := Replay(NewBreaker(threshold, resetAfter), log);
            b.Valid() && b.threshold == threshold && b.resetAfter == resetAfter
  {
    if log != [] {
      ReplayValid(threshold, resetAfter, log[..|log| - 1]);
    }
  }

  /** For every event sequence the breaker is CLOSED exactly when, since the last success, nothing
      forced it open and fewer than `threshold` failures were recorded. */
  lemma {:induction false} ClosedExactly(threshold: int, resetAfter: real, log: seq<Event>)
    requires threshold >= 1
    ensures var b := Replay(NewBreaker(threshold, resetAfter), log);
            && (b.state.Closed? <==> !ForcedSinceSuccess(log) && FailuresSinceSuccess(log) < threshold)
            && (b.state.Closed? ==> b.failures == FailuresSinceSuccess(log))
  {
    if log != [] {
      ReplayValid(threshold, resetAfter, log[..|log| - 1]);
      ClosedExactly(threshold, resetAfter, log[..|log| - 1]);
    }
  }

  /** How the fields relate to the trip record: HALF_OPEN is only ever a latched "the cooldown is over". */
  ghost predicate Tracks(b: Breaker, r: TripRecord, latest: real) {
    && b.failures == r.counted
    && b.openedAt == r.lastTrip
    && (b.state.Closed? <==> r.lastTrip.None?)
    && (b.state.HalfOpen? ==> latest - r.lastTrip.value >= b.resetAfter)
  }

  lemma {:induction false} ReplayTracks(threshold: int, resetAfter: real, log: seq<Event>, latest: real)
    requires threshold >= 1 && Chronological(log)
    requires forall i :: 0 <= i < |log| ==> log[i].at <= latest
    ensures Tracks(Replay(NewBreaker(threshold, resetAfter), log), Trips(log, threshold, resetAfter), latest)
  {
    if log != [] {
      var before, e := log[..|log| - 1], log[|log| - 1];
      ReplayValid(threshold, resetAfter, before);
      ReplayTracks(threshold, resetAfter, before, e.at);
    }
  }

  /** `allow` answers no exactly while the breaker is tripped and still cooling. */
  lemma AllowExactly(threshold: int, resetAfter: real, log: seq<Event>, now: real)
    requires threshold >= 1 && Chronological(log)
    requires forall i :: 0 <= i < |log| ==> log[i].at <= now
    ensures Replay(NewBreaker(threshold, resetAfter), log).Allows(now) <==> !Cooling(log, threshold, resetAfter, now)
  {
    ReplayValid(threshold, resetAfter, log);
    ReplayTracks(threshold, resetAfter, log, now);
  }

  function WithoutLooks(log: seq<Event>): seq<Event> {
    if log == [] then []
    else
      var rest := WithoutLooks(log[..|log| - 1]);
      if log[|log| - 1].Looked? then rest else rest + [log[|log| - 1]]
  }

  lemma TripsAppend(log: seq<Event>, e: Event, threshold: int, resetAfter: real)
    ensures Trips(log + [e], threshold, resetAfter)
            == TripStep(Trips(log, threshold, resetAfter), e, threshold, resetAfter)
  {
    assert (log + [e])[..|log|] == log;
  }

  lemma {:induction false} LooksLeaveNoTrace(log: seq<Event>, threshold: int, resetAfter: real)
    ensures Trips(WithoutLooks(log), threshold, resetAfter) == Trips(log, threshold, resetAfter)
  {
    if log != [] {
      var before, e := log[..|log| - 1], log[|log| - 1];
      LooksLeaveNoTrace(before, threshold, resetAfter);
      TripsAppend(WithoutLooks(before), e, threshold, resetAfter);
    }
  }

  lemma {:induction false} WithoutLooksChronological(log: seq<Event>, latest: real)
    requires Chronological(log) && forall i :: 0 <= i < |log| ==> log[i].at <= latest
    ensures Chronological(WithoutLooks(log))
    ensures forall i :: 0 <= i < |WithoutLooks(log)| ==> WithoutLooks(log)[i].at <= latest
  {
    if log != [] {
      var before, e := log[..|log| - 1], log[|log| - 1];
      WithoutLooksChronological(before, e.at);
    }
  }

  /** Although reading the state writes it, reads are unobservable: dropping every one of them from a
      log changes no later answer of `allow`. */
  lemma LooksAreUnobservable(threshold: int, resetAfter: real, log: seq<Event>, now: real)
    requires threshold >= 1 && Chronological(log)
    requires forall i :: 0 <= i < |log| ==> log[i].at <= now
    ensures Replay(NewBreaker(threshold, resetAfter), log).Allows(now)
            <==> Replay(NewBreaker(threshold, resetAfter), WithoutLooks(log)).Allows(now)
  {
    LooksLeaveNoTrace(log, threshold, resetAfter);
    WithoutLooksChronological(log, now);
    AllowExactly(threshold, resetAfter, log, now);
    AllowExactly(threshold, resetAfter, WithoutLooks(log), now);
  }

  ghost predicate OnlyLooks(log: seq<Event>) {
    forall i :: 0 <= i < |log| ==> log[i].Looked?
  }

  ghost predicate NoLaterThan(log: seq<Event>, now: real) {
    forall i :: 0 <= i < |log| ==> log[i].at <= now
  }

  lemma {:induction false} ProbesChangeNoAnswer(b: Breaker, probes: seq<Event>, now: real)
    requires b.Valid() && OnlyLooks(probes) && Chronological(probes) && NoLaterThan(probes, now)
    ensures Replay(b, probes).Valid()
    ensures Replay(b, probes).Allows(now) <==> b.Allows(now)
  {
    if probes != [] {
      var before, probe := probes[..|probes| - 1], probes[|probes| - 1];
      ProbesChangeNoAnswer(b, before, probe.at);
      ProbesChangeNoAnswer(b, before, now);
    }
  }

  /** HALF_OPEN does not count probes. Until an outcome is recorded, a call is answered as if none had come before
      it; so once one may proceed, so may any number of others. */
  lemma ProbesAreNotCounted(b: Breaker, probes: seq<Event>, k: nat, now: real)
    requires b.Valid() && OnlyLooks(probes) && Chronological(probes) && NoLaterThan(probes, now)
    requires k < |probes| && Replay(b, probes[..k]).Allows(probes[k].at)
    ensures Replay(b, probes).Allows(now)
    ensures forall j :: k <= j < |probes| ==> Replay(b, probes[..j]).Allows(probes[j].at)
  {
    ProbesChangeNoAnswer(b, probes[..k], probes[k].at);
    ProbesChangeNoAnswer(b, probes, now);
    forall j | k <= j < |probes|
      ensures Replay(b, probes[..j]).Allows(probes[j].at)
    {
      ProbesChangeNoAnswer(b, probes[..j], probes[j].at);
    }
  }

  // ---------------------------------------------------------------------------
  // Guarded calls as their logs
  // ---------------------------------------------------------------------------

  /** One guarded call, and what its backend did if it was reached. */
  datatype GuardedCall<+R> = GuardedCall(start: real, end: real, outcome: CallOutcome<R>)

  /** The event that records an outcome. */
  function Recorded<R>(outcome: CallOutcome<R>, at: real): Event {
    match outcome
    case Returned(_) => Succeeded(at)
    case TimedOut => Failed(at)
    case BackendRaised => Failed(at)
    case Corrupt => Forced(at)
  }

  /** The log of a call: a look at the start, the outcome if the call was let through, a look at the end. */
  function CallLog<R>(b: Breaker, c: GuardedCall<R>): seq<Event> {
    if b.Allows(c.start) then [Looked(c.start), Recorded(c.outcome, c.end), Looked(c.end)]
    else [Looked(c.start), Looked(c.start)]
  }

  lemma ReplaySnoc(b: Breaker, log: seq<Event>, e: Event)
    ensures Replay(b, log + [e]) == Step(Replay(b, log), e)
  {
    assert (log + [e])[..|log|] == log;
  }

  /** A guarded call does to the breaker what replaying its log does. */
  lemma CallIsItsLog<R>(b: Breaker, c: GuardedCall<R>)
    ensures AfterCall(b, c.start, c.end, c.outcome) == Replay(b, CallLog(b, c))
  {
    ReplaySnoc(b, [], Looked(c.start));
    assert [] + [Looked(c.start)] == [Looked(c.start)];
    if b.Allows(c.start) {
      var e := Recorded(c.outcome, c.end);
      ReplaySnoc(b, [Looked(c.start)], e);
      ReplaySnoc(b, [Looked(c.start), e], Looked(c.end));
      assert [Looked(c.start)] + [e] == [Looked(c.start), e];
      assert [Looked(c.start), e] + [Looked(c.end)] == [Looked(c.start), e, Looked(c.end)];
    } else {
      ReplaySnoc(b, [Looked(c.start)], Looked(c.start));
      assert [Looked(c.start)] + [Looked(c.start)] == [Looked(c.start), Looked(c.start)];
    }
  }

  function AfterCalls<R>(b: Breaker, calls: seq<GuardedCall<R>>): Breaker {
    if calls == [] then b
    else
      var last := calls[|calls| - 1];
      AfterCall(AfterCalls(b, calls[..|calls| - 1]), last.start, last.end, last.outcome)
  }

  function CallsLog<R>(b: Breaker, calls: seq<GuardedCall<R>>): seq<Event> {
    if calls == [] then []
    else
      var init := calls[..|calls| - 1];
      CallsLog(b, init) + CallLog(AfterCalls(b, init), calls[|calls| - 1])
  }

  lemma {:induction false} ReplayConcat(b: Breaker, first: seq<Event>, second: seq<Event>)
    ensures Replay(b, first + second) == Replay(Replay(b, first), second)
  {
    if second == [] {
      assert first + second == first;
    } else {
      var init, last := second[..|second| - 1], second[|second| - 1];
      ReplayConcat(b, first, init);
      ReplaySnoc(b, first + init, last);
      assert first + second == (first + init) + [last];
    }
  }

  /** So does any sequence of them: every theorem about logs is one about guarded calls. */
  lemma {:induction false} CallsAreTheirLog<R>(b: Breaker, calls: seq<GuardedCall<R>>)
    ensures AfterCalls(b, calls) == Replay(b, CallsLog(b, calls))
  {
    if calls != [] {
      var init, last := calls[..|calls| - 1], calls[|calls| - 1];
      CallsAreTheirLog(b, init);
      CallIsItsLog(AfterCalls(b, init), last);
      ReplayConcat(b, CallsLog(b, init), CallLog(AfterCalls(b, init), last));
    }
  }

  /** Over any calls on a new breaker: it is CLOSED exactly when, since the last call that returned, no call that was
      let through met corruption and fewer than `threshold` failed. */
  lemma CallsCloseExactly<R>(threshold: int, resetAfter: real, calls: seq<GuardedCall<R>>)
    requires threshold >= 1
    ensures var b := NewBreaker(threshold, resetAfter);
            AfterCalls(b, calls).state.Closed? <==>
              && !ForcedSinceSuccess(CallsLog(b, calls))
              && FailuresSinceSuccess(CallsLog(b, calls)) < threshold
  {
    CallsAreTheirLog(NewBreaker(threshold, resetAfter), calls);
    ClosedExactly(threshold, resetAfter, CallsLog(NewBreaker(threshold, resetAfter), calls));
  }

  /** A call that was let through and returned leaves the breaker CLOSED, with no failure counted and no trip
      remembered. */
  lemma ReturnedCallCloses<R>(b: Breaker, start: real, end: real, value: R)
    requires b.state != Open || (b.openedAt.Some? && start - b.openedAt.value >= b.resetAfter)
    ensures AfterCall(b, start, end, Returned(value)) == Breaker(b.threshold, b.resetAfter, 0, None, Closed)
  {
  }

  /** Corruption opens it at once, since then, whatever the count, and leaves the count alone. */
  lemma CorruptCallOpens<R>(b: Breaker, start: real, end: real)
    requires b.state != Open || (b.openedAt.Some? && start - b.openedAt.value >= b.resetAfter)
    requires b.resetAfter > 0.0
    ensures AfterCall<R>(b, start, end, Corrupt)
         == Breaker(b.threshold, b.resetAfter, b.failures, Some(end), Open)
  {
  }

  /** A timeout or an error counts once, and opens it at the threshold; on trial it reopens it at once, uncounted. */
  lemma FailedCallCounts<R>(b: Breaker, start: real, end: real, outcome: CallOutcome<R>)
    requires outcome.TimedOut? || outcome.BackendRaised?
    requires b.state != Open || (b.openedAt.Some? && start - b.openedAt.value >= b.resetAfter)
    requires b.resetAfter > 0.0
    ensures AfterCall(b, start, end, outcome)
         == if b.state == Closed && b.failures + 1 < b.threshold then
              Breaker(b.threshold, b.resetAfter, b.failures + 1, b.openedAt, Closed)
            else
              Breaker(b.threshold, b.resetAfter, b.failures + (if b.state == Closed then 1 else 0), Some(end), Open)
  {
  }

  /** A refused call leaves everything as it was. */
  lemma RefusedCallChangesNothing<R>(b: Breaker, c: GuardedCall<R>)
    requires b.state == Open && (b.openedAt.None? || c.start - b.openedAt.value < b.resetAfter)
    ensures AfterCall(b, c.start, c.end, c.outcome) == b
  {
  }

  // ---------------------------------------------------------------------------
  // How many calls reach a backend that never answers
  // ---------------------------------------------------------------------------

  /** One guarded call on a backend that fails: a plain failure, or corruption. */
  datatype Attempt = Attempt(start: real, end: real, corrupt: bool)

  function AfterAttempt(b: Breaker, a: Attempt): Breaker {
    var outcome: CallOutcome<()> := if a.corrupt then Corrupt else BackendRaised;
    AfterCall(b, a.start, a.end, outcome)
  }

  /** Calls run one after another. */
  ghost predicate Sequential(attempts: seq<Attempt>, from: real) {
    attempts != [] ==>
      && from <= attempts[0].start <= attempts[0].end
      && Sequential(attempts[1..], attempts[0].end)
  }

  /** The start times of the calls that get past the breaker. */
  function Reached(b: Breaker, attempts: seq<Attempt>): seq<real>
    decreases |attempts|
  {
    if attempts == [] then []
    else
      (if b.Allows(attempts[0].start) then [attempts[0].start] else [])
      + Reached(AfterAttempt(b, attempts[0]), attempts[1..])
  }

  /** Calls the breaker may still let through without a cooldown between them. */
  function Slack(b: Breaker): int {
    if b.state.Closed? then b.threshold - b.failures else 1
  }

  /** A breaker as it stands at `now`: valid, and latched HALF_OPEN only after its cooldown. */
  ghost predicate Settled(b: Breaker, now: real) {
    && b.Valid() && b.resetAfter > 0.0
    && (!b.state.Closed? ==> b.openedAt.value <= now)
    && (b.state.HalfOpen? ==> b.CooldownElapsed(now))
  }

  lemma AttemptEffect(b: Breaker, a: Attempt, from: real)
    requires Settled(b, from) && from <= a.start <= a.end
    ensures var next := AfterAttempt(b, a);
            && Settled(next, a.end) && next.threshold == b.threshold && next.resetAfter == b.resetAfter
            && (!b.Allows(a.start) ==> next == b)
            && (b.Allows(a.start) && !b.state.Closed? ==> next.state.Open? && next.openedAt == Some(a.end))
            && (b.Allows(a.start) && b.state.Closed? ==>
                  || (next.state.Closed? && Slack(next) == Slack(b) - 1)
                  || (next.state.Open? && next.openedAt == Some(a.end)))
  {
  }

  ghost predicate NonDecreasing(s: seq<real>) {
    forall i, j :: 0 <= i <= j < |s| ==> s[i] <= s[j]
  }

  lemma {:induction false} ReachedTimes(b: Breaker, attempts: seq<Attempt>, from: real)
    requires Settled(b, from) && Sequential(attempts, from)
    ensures var m := Reached(b, attempts);
            && (m != [] ==> m[0] >= from)
            && (m != [] && !b.state.Closed? ==> m[0] >= b.openedAt.value + b.resetAfter)
            && NonDecreasing(m)
    decreases |attempts|
  {
    if attempts != [] {
      var a, next := attempts[0], AfterAttempt(b, attempts[0]);
      AttemptEffect(b, a, from);
      ReachedTimes(next, attempts[1..], a.end);
      PrependedInOrder(if b.Allows(a.start) then [a.start] else [], Reached(next, attempts[1..]));
    }
  }

  lemma PrependedInOrder(first: seq<real>, rest: seq<real>)
    requires |first| <= 1 && (first != [] && rest != [] ==> first[0] <= rest[0])
    requires NonDecreasing(rest)
    ensures NonDecreasing(first + rest)
  {
  }

  /** Beyond the slack, any two consecutive calls are a full cooldown apart. */
  lemma {:induction false} PrefixSpacing(b: Breaker, attempts: seq<Attempt>, from: real, n: nat)
    requires Settled(b, from) && Sequential(attempts, from)
    requires 1 <= n <= |Reached(b, attempts)|
    ensures Times(n - Slack(b), b.resetAfter) <= Reached(b, attempts)[n - 1] - Reached(b, attempts)[0]
    decreases |attempts|
  {
    var a := attempts[0];
    var next := AfterAttempt(b, a);
    AttemptEffect(b, a, from);
    if !b.Allows(a.start) {
      PrefixSpacing(next, attempts[1..], a.end, n);
    } else if n > 1 {
      PrefixSpacing(next, attempts[1..], a.end, n - 1);
      ReachedTimes(next, attempts[1..], a.end);
      assert Reached(b, attempts) == [a.start] + Reached(next, attempts[1..]);
      if next.state.Open? {
        TimesGrows(n - Slack(b), n - 1, b.resetAfter);
      }
    }
  }

  lemma {:induction false} WindowSpacing(b: Breaker, attempts: seq<Attempt>, from: real, i: nat, n: nat)
    requires Settled(b, from) && Sequential(attempts, from)
    requires 1 <= n && i + n <= |Reached(b, attempts)|
    ensures Times(n - b.threshold, b.resetAfter) <= Reached(b, attempts)[i + n - 1] - Reached(b, attempts)[i]
    decreases |attempts|
  {
    var a := attempts[0];
    var next := AfterAttempt(b, a);
    AttemptEffect(b, a, from);
    if i == 0 {
      PrefixSpacing(b, attempts, from, n);
      TimesGrows(n - b.threshold, n - Slack(b), b.resetAfter);
    } else {
      WindowSpacing(next, attempts[1..], a.end, if b.Allows(a.start) then i - 1 else i, n);
      ReachedAt(b, attempts, i);
      ReachedAt(b, attempts, i + n - 1);
    }
  }

  /** Past the first attempt, what is reached is what the next breaker reaches. */
  lemma ReachedAt(b: Breaker, attempts: seq<Attempt>, k: nat)
    requires attempts != [] && 0 < k < |Reached(b, attempts)|
    ensures var shift := if b.Allows(attempts[0].start) then 1 else 0;
            var rest := Reached(AfterAttempt(b, attempts[0]), attempts[1..]);
            && |Reached(b, attempts)| == |rest| + shift && Reached(b, attempts)[k] == rest[k - shift]
  {
  }

  /** In any stretch of time `t` of a sequential, always-failing run, at most
      `threshold + floor(t / reset_after)` calls reach the backend. */
  lemma FailingBackendLoad(threshold: int, resetAfter: real, attempts: seq<Attempt>, from: real, i: nat, n: nat,
                           t: real)
    requires threshold >= 1 && resetAfter > 0.0 && t >= 0.0
    requires Sequential(attempts, from)
    requires var m := Reached(NewBreaker(threshold, resetAfter), attempts);
             1 <= n && i + n <= |m| && m[i + n - 1] - m[i] <= t
    ensures n <= threshold + (t / resetAfter).Floor
  {
    WindowSpacing(NewBreaker(threshold, resetAfter), attempts, from, i, n);
    TimesFit(n - threshold, resetAfter, t);
  }
}
