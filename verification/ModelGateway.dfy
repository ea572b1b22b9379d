/** The retry loops around a model call: plain completion and streaming. */
module ModelGateway {
  import opened Options

  datatype RetryPolicy = RetryPolicy(maxRetries: int, base: real, factor: real, cap: real, totalTimeout: Option<real>)

  datatype ModelFailure = Transient(retryAfter: Option<real>) | Unavailable(retryAfter: Option<real>) | Fatal

  datatype Chunk = Chunk(text: string, inputTokens: int, outputTokens: int)

  /** What attempt `k` does: it takes `duration(k)`, yields its chunks, and then succeeds or fails. A plain
      completion is an attempt without chunks. `uniform(k, c)` is the random draw between 0 and `c` made after
      attempt `k`. */
  datatype Script = Script(
    chunks: nat -> seq<Chunk>,
    failure: nat -> Option<ModelFailure>,
    duration: nat -> real,
    uniform: (nat, real) -> real
  ) {
    ghost predicate Valid() {
      && (forall k: nat :: duration(k) >= 0.0)
      && (forall k: nat, c: real :: c >= 0.0 ==> 0.0 <= uniform(k, c) <= c)
    }
  }

  function Power(x: real, n: nat): real {
    if n == 0 then 1.0 else x * Power(x, n - 1)
  }

  function Min(a: real, b: real): real {
    if a <= b then a else b
  }

  function RetryAfter(f: ModelFailure): Option<real> {
    if f.Fatal? then None else f.retryAfter
  }

  /** The exponential backoff, before jitter. */
  function Ceiling(policy: RetryPolicy, attempt: nat): real {
    Min(policy.cap, policy.base * Power(policy.factor, attempt))
  }

  /** `RetryPolicy.backoff`: a server-given delay wins over the capped exponential with full jitter. */
  function Backoff(policy: RetryPolicy, script: Script, attempt: nat, retryAfter: Option<real>): real {
    if retryAfter.Some? then retryAfter.value else script.uniform(attempt, Ceiling(policy, attempt))
  }

  /** Sleeping for a negative delay returns at once. */
  function Slept(delay: real): real {
    if delay > 0.0 then delay else 0.0
  }

  datatype Verdict =
    | Completed(attempt: nat)
    | FailedWith(failure: ModelFailure)
    | NoAttemptMade

  datatype Sleep = Sleep(from: real, until: real)

  /** Everything observable about one call. */
  datatype Trace = Trace(starts: seq<real>, sleeps: seq<Sleep>, output: seq<Chunk>, verdict: Verdict)

  /** What is left to wait after a retryable failure at `now`: nothing if the deadline has passed. */
  function PlannedSleep(policy: RetryPolicy, delay: real, start: real, now: real): Option<real> {
    match policy.totalTimeout
    case None => Some(delay)
    case Some(total) =>
      var remaining := total - (now - start);
      if remaining <= 0.0 then None else Some(Min(delay, remaining))
  }

  /** How attempt `k` ends the call it belongs to, if it is the last. */
  function LastWord(script: Script, k: nat): Verdict {
    if script.failure(k).None? then Completed(k) else FailedWith(script.failure(k).value)
  }

  /** The sleep after attempt `k`, begun at `now`, if another attempt is to follow. A streamed attempt that
      has yielded output is never followed by another. */
  function SleepAfter(policy: RetryPolicy, script: Script, start: real, now: real, k: nat): Option<Sleep> {
    var f := script.failure(k);
    if f.None? || f.value.Fatal? || script.chunks(k) != [] || k >= policy.maxRetries then None
    else
      var ended := now + script.duration(k);
      match PlannedSleep(policy, Backoff(policy, script, k, RetryAfter(f.value)), start, ended)
      case None => None
      case Some(delay) => Some(Sleep(ended, ended + Slept(delay)))
  }

  /** The rest of a call about to make attempt `k` at time `now`. */
  function CallFrom(policy: RetryPolicy, script: Script, start: real, now: real, k: nat): Trace
    decreases policy.maxRetries - k
  {
    match SleepAfter(policy, script, start, now, k)
    case None => Trace([now], [], script.chunks(k), LastWord(script, k))
    case Some(s) =>
      var rest := CallFrom(policy, script, start, s.until, k + 1);
      Trace([now] + rest.starts, [s] + rest.sleeps, rest.output, rest.verdict)
  }

  function Call(policy: RetryPolicy, script: Script, start: real): Trace {
    if policy.maxRetries < 0 then Trace([], [], [], NoAttemptMade) else CallFrom(policy, script, start, start, 0)
  }

  /** A pooled adapter's health: an unhealthy one refuses calls until its cooldown is over. */
  datatype Health = Healthy | UnhealthySince(at: real)

  datatype StreamEnd = StreamDone | StreamRaised(failure: ModelFailure) | InCooldown

  datatype CompleteEnd =
    | Response(attempt: nat)
    | CompleteRaised(failure: ModelFailure)
    | CompleteInCooldown
    | NoCapturedError

  predicate IsOpen(health: Health, cooldown: real, now: real) {
    health.UnhealthySince? && now - health.at < cooldown
  }

  /** A completed call marks the adapter healthy. A call given up on because the backend is unavailable
      marks it unhealthy; a failure raised in mid-stream or a fatal one says nothing about it. */
  function HealthAfter(health: Health, t: Trace, endedAt: real): Health {
    match t.verdict
    case Completed(_) => Healthy
    case FailedWith(f) => if f.Unavailable? && t.output == [] then UnhealthySince(endedAt) else health
    case NoAttemptMade => health
  }

  /** When the last attempt of a call ended. */
  function EndOf(script: Script, t: Trace): real
    requires t.starts != []
  {
    t.starts[|t.starts| - 1] + script.duration(|t.starts| - 1)
  }

  /** `whole` is what has happened so far followed by `rest`. */
  ghost predicate Continues(whole: Trace, starts: seq<real>, sleeps: seq<Sleep>, rest: Trace) {
    && whole.starts == starts + rest.starts
    && whole.sleeps == sleeps + rest.sleeps
    && whole.output == rest.output
    && whole.verdict == rest.verdict
  }

  lemma ContinuesFurther(whole: Trace, starts: seq<real>, sleeps: seq<Sleep>, before: Trace, t: real, s: Sleep,
                         after: Trace)
    requires Continues(whole, starts, sleeps, before)
    requires before == Trace([t] + after.starts, [s] + after.sleeps, after.output, after.verdict)
    ensures Continues(whole, starts + [t], sleeps + [s], after)
  {
  }

  class ModelGateway {
    const retry: RetryPolicy
    const cooldown: real
    var health: Health

    constructor (retry: RetryPolicy, cooldown: real)
      ensures this.retry == retry && this.cooldown == cooldown && health == Healthy
    {
      this.retry, this.cooldown := retry, cooldown;
      health := Healthy;
    }

    method Complete(script: Script, start: real) returns (starts: seq<real>, sleeps: seq<Sleep>, end: CompleteEnd)
      requires forall k: nat :: script.chunks(k) == []
      modifies this`health
      ensures IsOpen(old(health), cooldown, start) ==>
                starts == [] && sleeps == [] && end == CompleteInCooldown && health == old(health)
      ensures !IsOpen(old(health), cooldown, start) ==>
                var t := Call(retry, script, start);
                && starts == t.starts && sleeps == t.sleeps
                && end == (match t.verdict
                           case Completed(k) => Response(k)
                           case FailedWith(f) => CompleteRaised(f)
                           case NoAttemptMade => NoCapturedError)
                && health == if t.starts == [] then old(health) else HealthAfter(old(health), t, EndOf(script, t))
    {
      starts, sleeps := [], [];
      if IsOpen(health, cooldown, start) {
        return starts, sleeps, CompleteInCooldown;
      }
      if retry.maxRetries < 0 {
        return starts, sleeps, NoCapturedError;
      }
      var ended, failure;
      starts, sleeps, ended, failure := Attempts(script, start);
      if failure.None? {
        health := Healthy;
        return starts, sleeps, Response(|starts| - 1);
      }
      if failure.value.Unavailable? {
        health := UnhealthySince(ended);
      }
      end := CompleteRaised(failure.value);
    }

    /** Whether attempt `k`, begun at `now`, is followed by another, and the sleep until then. */
    method PlanNext(script: Script, start: real, now: real, k: nat, yielded: bool) returns (next: Option<Sleep>)
      requires k <= retry.maxRetries && (yielded <==> script.chunks(k) != [])
      ensures next == SleepAfter(retry, script, start, now, k)
    {
      var ended, failure := now + script.duration(k), script.failure(k);
      if failure.None? || failure.value.Fatal? || yielded || k == retry.maxRetries {
        return None;
      }
      var delay := PlannedSleep(retry, Backoff(retry, script, k, RetryAfter(failure.value)), start, ended);
      if delay.None? {
        return None;
      }
      next := Some(Sleep(ended, ended + Slept(delay.value)));
    }

    /** The retry loop: the attempts made, and when and how the last of them ended. */
    method Attempts(script: Script, start: real)
      returns (starts: seq<real>, sleeps: seq<Sleep>, ended: real, failure: Option<ModelFailure>)
      requires retry.maxRetries >= 0 && forall k: nat :: script.chunks(k) == []
      ensures |starts| >= 1 && failure == script.failure(|starts| - 1)
      ensures Call(retry, script, start) == Trace(starts, sleeps, [], LastWord(script, |starts| - 1))
      ensures ended == EndOf(script, Call(retry, script, start))
    {
      starts, sleeps := [], [];
      ghost var whole := Call(retry, script, start);
      var now := start;
      var k: nat := 0;
      ended, failure := now, None;
      while true
        invariant k <= retry.maxRetries && |starts| == k
        invariant Continues(whole, starts, sleeps, CallFrom(retry, script, start, now, k))
        decreases retry.maxRetries - k
      {
        ghost var rest, before, slept := CallFrom(retry, script, start, now, k), starts, sleeps;
        starts := starts + [now];
        ended, failure := now + script.duration(k), script.failure(k);
        var next := PlanNext(script, start, now, k, false);
        if next.None? {
          break;
        }
        sleeps := sleeps + [next.value];
        ContinuesFurther(whole, before, slept, rest, now, next.value,
                         CallFrom(retry, script, start, next.value.until, k + 1));
        now, k := next.value.until, k + 1;
      }
      assert whole == Trace(starts, sleeps, [], LastWord(script, k));
      assert ended == EndOf(script, whole);
    }

    /** The consumer receives `output`, chunk by chunk, as the attempts produce it. */
    method Stream(script: Script, start: real)
      returns (starts: seq<real>, sleeps: seq<Sleep>, output: seq<Chunk>, end: StreamEnd)
      modifies this`health
      ensures IsOpen(old(health), cooldown, start) ==>
                starts == [] && sleeps == [] && output == [] && end == InCooldown && health == old(health)
      ensures !IsOpen(old(health), cooldown, start) ==>
                var t := Call(retry, script, start);
                && starts == t.starts && sleeps == t.sleeps && output == t.output
                && end == (match t.verdict
                           case FailedWith(f) => StreamRaised(f)
                           case _ => StreamDone)
                && health == if t.starts == [] then old(health) else HealthAfter(old(health), t, EndOf(script, t))
    {
      starts, sleeps, output := [], [], [];
      if IsOpen(health, cooldown, start) {
        return starts, sleeps, output, InCooldown;
      }
      if retry.maxRetries < 0 {
        return starts, sleeps, output, StreamDone;
      }
      var ended, failure;
      starts, sleeps, output, ended, failure := StreamAttempts(script, start);
      if failure.None? {
        health := Healthy;
        return starts, sleeps, output, StreamDone;
      }
      if failure.value.Unavailable? && output == [] {
        health := UnhealthySince(ended);
      }
      end := StreamRaised(failure.value);
    }

    /** One attempt's chunks, as they come. */
    method HandOn(chunks: seq<Chunk>) returns (output: seq<Chunk>)
      ensures output == chunks
    {
      output := [];
      for i := 0 to |chunks|
        invariant output == chunks[..i]
      {
        output := output + [chunks[i]];
      }
    }

    /** Its retry loop, which hands chunks on as they come and stops at an attempt that has yielded one. */
    method StreamAttempts(script: Script, start: real)
      returns (starts: seq<real>, sleeps: seq<Sleep>, output: seq<Chunk>, ended: real, failure: Option<ModelFailure>)
      requires retry.maxRetries >= 0
      ensures |starts| >= 1 && failure == script.failure(|starts| - 1)
      ensures Call(retry, script, start) == Trace(starts, sleeps, output, LastWord(script, |starts| - 1))
      ensures ended == EndOf(script, Call(retry, script, start))
    {
      starts, sleeps, output := [], [], [];
      ghost var whole := Call(retry, script, start);
      var now := start;
      var k: nat := 0;
      ended, failure := now, None;
      while true
        invariant k <= retry.maxRetries && |starts| == k
        invariant output == []
        invariant Continues(whole, starts, sleeps, CallFrom(retry, script, start, now, k))
        decreases retry.maxRetries - k
      {
        ghost var rest, before, slept := CallFrom(retry, script, start, now, k), starts, sleeps;
        starts := starts + [now];
        ended, failure := now + script.duration(k), script.failure(k);
        output := HandOn(script.chunks(k));
        var next := PlanNext(script, start, now, k, output != []);
        if next.None? {
          break;
        }
        sleeps := sleeps + [next.value];
        ContinuesFurther(whole, before, slept, rest, now, next.value,
                         CallFrom(retry, script, start, next.value.until, k + 1));
        now, k := next.value.until, k + 1;
      }
      assert whole == Trace(starts, sleeps, output, LastWord(script, k));
      assert ended == EndOf(script, whole);
    }
  }

  // ---------------------------------------------------------------------------
  // Properties of every call
  // ---------------------------------------------------------------------------

  /** How attempts, failures and output hang together from attempt `k` on. */
  ghost predicate WellAttempted(t: Trace, script: Script, policy: RetryPolicy, k: nat) {
    var n := |t.starts|;
    && 1 <= n <= policy.maxRetries + 1 - k
    && |t.sleeps| == n - 1
    && t.output == script.chunks(k + n - 1)
    && (forall j :: k <= j < k + n - 1 ==>
          script.chunks(j) == [] && script.failure(j).Some? && !script.failure(j).value.Fatal?)
    && t.verdict == LastWord(script, k + n - 1)
  }

  lemma {:induction false} CallWellAttempted(policy: RetryPolicy, script: Script, start: real, now: real, k: nat)
    requires k <= policy.maxRetries
    ensures WellAttempted(CallFrom(policy, script, start, now, k), script, policy, k)
    decreases policy.maxRetries - k
  {
    var s := SleepAfter(policy, script, start, now, k);
    if s.Some? {
      CallWellAttempted(policy, script, start, s.value.until, k + 1);
    }
  }

  /** Streaming never replays: what the consumer saw is the output of the last attempt alone, every
      earlier attempt failed retryably without yielding anything, the last one decides how the call ends,
      and there are at most `max_retries + 1` attempts. */
  lemma StreamNeverReplays(policy: RetryPolicy, script: Script, start: real)
    ensures var t := Call(policy, script, start);
            && (policy.maxRetries < 0 <==> t.starts == [])
            && (policy.maxRetries >= 0 ==> WellAttempted(t, script, policy, 0))
            && (policy.maxRetries < 0 ==> t.output == [])
  {
    if policy.maxRetries >= 0 {
      CallWellAttempted(policy, script, start, start, 0);
    }
  }

  /** Times never run backwards within a call: each sleep starts when its attempt ends and is followed by
      the next attempt at once. */
  lemma {:induction false} CallTiming(policy: RetryPolicy, script: Script, start: real, now: real, k: nat, i: nat)
    requires i < |CallFrom(policy, script, start, now, k).sleeps|
    ensures var t := CallFrom(policy, script, start, now, k);
            && i + 1 < |t.starts|
            && SleepAfter(policy, script, start, t.starts[i], k + i) == Some(t.sleeps[i])
            && t.starts[i + 1] == t.sleeps[i].until
    decreases i
  {
    var s := SleepAfter(policy, script, start, now, k).value;
    FirstStart(policy, script, start, s.until, k + 1);
    if i > 0 {
      CallTiming(policy, script, start, s.until, k + 1, i - 1);
    }
  }

  lemma FirstStart(policy: RetryPolicy, script: Script, start: real, now: real, k: nat)
    ensures var t := CallFrom(policy, script, start, now, k); t.starts != [] && t.starts[0] == now
  {
  }

  lemma SleepFacts(policy: RetryPolicy, script: Script, start: real, now: real, k: nat)
    requires SleepAfter(policy, script, start, now, k).Some?
    ensures var s := SleepAfter(policy, script, start, now, k).value;
            && s.from == now + script.duration(k) && s.from <= s.until
            && (policy.totalTimeout.Some? ==>
                  s.from < start + policy.totalTimeout.value && s.until <= start + policy.totalTimeout.value)
  {
  }

  /** With a total timeout every backoff begins before the deadline and ends by it, and only the last
      attempt can start at or after the deadline. */
  lemma DeadlineHolds(policy: RetryPolicy, script: Script, start: real, i: nat)
    requires script.Valid() && policy.totalTimeout.Some?
    ensures var t := Call(policy, script, start);
            var deadline := start + policy.totalTimeout.value;
            && (i < |t.sleeps| <==> i + 1 < |t.starts|)
            && (i < |t.sleeps| ==>
                  && t.sleeps[i].from == t.starts[i] + script.duration(i) && t.sleeps[i].until == t.starts[i + 1]
                  && t.sleeps[i].from < deadline && t.sleeps[i].until <= deadline
                  && t.starts[i] < deadline)
  {
    var t := Call(policy, script, start);
    if policy.maxRetries >= 0 {
      CallWellAttempted(policy, script, start, start, 0);
    }
    if i < |t.sleeps| {
      CallTiming(policy, script, start, start, 0, i);
      SleepFacts(policy, script, start, t.starts[i], i);
      assert script.duration(i) >= 0.0;
    }
  }

  // ---------------------------------------------------------------------------
  // When a call goes on, how long it waits, and what it comes to
  // ---------------------------------------------------------------------------

  /** Attempt `k`, begun at `now`, has nothing after it: it succeeded, failed for good, had handed out a chunk, was the
      last one allowed, or ended with no time left. */
  predicate NothingFollows(policy: RetryPolicy, script: Script, start: real, now: real, k: nat) {
    || script.failure(k).None?
    || script.failure(k).value == Fatal
    || script.chunks(k) != []
    || k >= policy.maxRetries
    || (policy.totalTimeout.Some? && now + script.duration(k) >= start + policy.totalTimeout.value)
  }

  lemma {:induction false} LastFrom(policy: RetryPolicy, script: Script, start: real, now: real, k: nat, i: nat)
    requires i < |CallFrom(policy, script, start, now, k).starts|
    ensures var t := CallFrom(policy, script, start, now, k);
            i == |t.starts| - 1 <==> NothingFollows(policy, script, start, t.starts[i], k + i)
    decreases i
  {
    var s := SleepAfter(policy, script, start, now, k);
    if s.Some? {
      FirstStart(policy, script, start, s.value.until, k + 1);
      if i > 0 {
        LastFrom(policy, script, start, s.value.until, k + 1, i - 1);
      }
    }
  }

  /** Exactly when an attempt is the last of its call. Every other failure is followed by another attempt, whether the
      backend was unavailable or the failure passing. */
  lemma LastAttemptExactly(policy: RetryPolicy, script: Script, start: real, i: nat)
    requires i < |Call(policy, script, start).starts|
    ensures var t := Call(policy, script, start);
            i == |t.starts| - 1 <==> NothingFollows(policy, script, start, t.starts[i], i)
  {
    LastFrom(policy, script, start, start, 0, i);
  }

  /** What a retry would wait if time were no matter: what the server asked for, or else the random draw below the
      capped exponential. */
  function AskedDelay(policy: RetryPolicy, script: Script, k: nat, f: ModelFailure): real {
    if !f.Fatal? && f.retryAfter.Some? then f.retryAfter.value
    else
      var grown := policy.base * Power(policy.factor, k);
      script.uniform(k, if grown < policy.cap then grown else policy.cap)
  }

  /** How long each sleep is: the delay asked for, cut to the time left, and never negative. */
  lemma SleepsExactly(policy: RetryPolicy, script: Script, start: real, i: nat)
    requires i < |Call(policy, script, start).sleeps|
    ensures var t := Call(policy, script, start);
            && i + 1 < |t.starts| && script.failure(i).Some?
            && t.sleeps[i].from == t.starts[i] + script.duration(i)
            && t.sleeps[i].until == t.starts[i + 1]
            && var asked := AskedDelay(policy, script, i, script.failure(i).value);
               var cut := if policy.totalTimeout.Some? && start + policy.totalTimeout.value - t.sleeps[i].from < asked
                          then start + policy.totalTimeout.value - t.sleeps[i].from else asked;
               t.sleeps[i].until - t.sleeps[i].from == if cut < 0.0 then 0.0 else cut
  {
    CallTiming(policy, script, start, start, 0, i);
  }

  /** The power is the one repeated multiplication gives. */
  lemma {:induction false} PowerAdds(x: real, m: nat, n: nat)
    ensures Power(x, 0) == 1.0 && Power(x, 1) == x
    ensures Power(x, m + n) == Power(x, m) * Power(x, n)
  {
    assert Power(x, 1) == x * Power(x, 0);
    if m > 0 {
      PowerAdds(x, m - 1, n);
      assert x * (Power(x, m - 1) * Power(x, n)) == x * Power(x, m - 1) * Power(x, n);
    }
  }

  /** Attempt `n` succeeds and the ones from `k` on before it fail so that they may be retried. */
  ghost predicate SucceedsAt(script: Script, k: nat, n: nat) {
    && script.failure(n).None?
    && forall j :: k <= j < n ==> script.failure(j).Some? && script.failure(j).value != Fatal && script.chunks(j) == []
  }

  lemma {:induction false} SuccessFrom(policy: RetryPolicy, script: Script, start: real, now: real, k: nat, n: nat)
    requires policy.totalTimeout.None? && k <= n <= policy.maxRetries && SucceedsAt(script, k, n)
    ensures var t := CallFrom(policy, script, start, now, k);
            && |t.starts| == n - k + 1 && t.verdict == Completed(n) && t.output == script.chunks(n)
    decreases n - k
  {
    if k < n {
      SuccessFrom(policy, script, start, SleepAfter(policy, script, start, now, k).value.until, k + 1, n);
    }
  }

  /** Without a timeout the call completes with the first attempt that succeeds, if none before it is past retrying and
      it is not past the last one allowed. */
  lemma FirstSuccessCompletes(policy: RetryPolicy, script: Script, start: real, n: nat)
    requires policy.totalTimeout.None? && n <= policy.maxRetries && SucceedsAt(script, 0, n)
    ensures var t := Call(policy, script, start);
            |t.starts| == n + 1 && t.verdict == Completed(n) && t.output == script.chunks(n)
  {
    SuccessFrom(policy, script, start, start, 0, n);
  }

  lemma {:induction false} ExhaustedFrom(policy: RetryPolicy, script: Script, start: real, now: real, k: nat)
    requires policy.totalTimeout.None? && k <= policy.maxRetries
    requires forall j :: k <= j <= policy.maxRetries ==>
               script.failure(j).Some? && script.failure(j).value != Fatal && script.chunks(j) == []
    ensures var t := CallFrom(policy, script, start, now, k);
            && |t.starts| == policy.maxRetries - k + 1
            && t.verdict == FailedWith(script.failure(policy.maxRetries).value)
    decreases policy.maxRetries - k
  {
    if k < policy.maxRetries {
      ExhaustedFrom(policy, script, start, SleepAfter(policy, script, start, now, k).value.until, k + 1);
    }
  }

  /** If all that are allowed fail so, all are made, and the last failure is the one raised. */
  lemma AllRetriesAreMade(policy: RetryPolicy, script: Script, start: real)
    requires policy.totalTimeout.None? && policy.maxRetries >= 0
    requires forall j :: 0 <= j <= policy.maxRetries ==>
               script.failure(j).Some? && script.failure(j).value != Fatal && script.chunks(j) == []
    ensures var t := Call(policy, script, start);
            && |t.starts| == policy.maxRetries + 1
            && t.verdict == FailedWith(script.failure(policy.maxRetries).value)
  {
    ExhaustedFrom(policy, script, start, start, 0);
  }

  /** What a call says about its backend: healthy if it completed, unhealthy since its end if it gave up on an
      unavailable one before any output, and nothing new otherwise. */
  lemma HealthExactly(policy: RetryPolicy, script: Script, start: real, before: Health)
    requires policy.maxRetries >= 0
    ensures var t := Call(policy, script, start);
            var k := |t.starts| - 1;
            && k >= 0
            && HealthAfter(before, t, EndOf(script, t))
               == match script.failure(k)
                  case None => Healthy
                  case Some(Unavailable(_)) =>
                    if script.chunks(k) == [] then UnhealthySince(t.starts[k] + script.duration(k)) else before
                  case Some(_) => before
  {
    CallWellAttempted(policy, script, start, start, 0);
  }

  lemma {:induction false} PowerNonnegative(x: real, n: nat)
    requires x >= 0.0
    ensures Power(x, n) >= 0.0
  {
    if n > 0 {
      PowerNonnegative(x, n - 1);
    }
  }

  /** Without a server-given delay the backoff lies between zero and the cap. */
  lemma BackoffWithinCap(policy: RetryPolicy, script: Script, attempt: nat)
    requires policy.base >= 0.0 && policy.factor >= 0.0 && policy.cap >= 0.0 && script.Valid()
    ensures 0.0 <= Backoff(policy, script, attempt, None) <= policy.cap
  {
    var power := Power(policy.factor, attempt);
    PowerNonnegative(policy.factor, attempt);
    ProductNonnegative(policy.base, power);
    var ceiling := Ceiling(policy, attempt);
    assert 0.0 <= ceiling <= policy.cap;
    assert 0.0 <= script.uniform(attempt, ceiling) <= ceiling;
  }

  lemma ProductNonnegative(x: real, y: real)
    requires x >= 0.0 && y >= 0.0
    ensures x * y >= 0.0
  {
  }

  /** A healthy adapter refuses the next call exactly when this one was given up on because the backend is
      unavailable, before anything was streamed, and the cooldown is not over. */
  lemma CooldownExactly(policy: RetryPolicy, script: Script, start: real, cooldown: real, now: real)
    requires policy.maxRetries >= 0
    ensures var t := Call(policy, script, start);
            var k := |t.starts| - 1;
            && k >= 0
            && (IsOpen(HealthAfter(Healthy, t, EndOf(script, t)), cooldown, now) <==>
                  && script.failure(k).Some? && script.failure(k).value.Unavailable? && script.chunks(k) == []
                  && now - (t.starts[k] + script.duration(k)) < cooldown)
  {
    CallWellAttempted(policy, script, start, start, 0);
  }

  /** A negative retry count is not refused: nothing is attempted. A completion then raises, but a stream
      ends normally with no output at all. */
  lemma NegativeRetriesAttemptNothing(policy: RetryPolicy, script: Script, start: real)
    ensures policy.maxRetries < 0 <==> Call(policy, script, start) == Trace([], [], [], NoAttemptMade)
  {
    if policy.maxRetries >= 0 {
      CallWellAttempted(policy, script, start, start, 0);
    }
  }
}
