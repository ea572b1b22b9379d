/** The per-tier circuit breaker and the wrapper that drives it. */
module Resilience {
  import opened Options
  import opened MemoryTypes

  datatype BreakerState = Closed | Open | HalfOpen

  /** The breaker's fields as a value. Each call reads its clock once, as `now`. */
  datatype Breaker = Breaker(
    threshold: int,
    resetAfter: real,
    failures: int,
    openedAt: Option<real>,
    state: BreakerState
  ) {
    ghost predicate Valid() {
      && threshold >= 1
      && failures >= 0
      && (state.Closed? ==> failures < threshold)
      && (!state.Closed? ==> openedAt.Some?)
    }

    predicate CooldownElapsed(now: real) {
      openedAt.Some? && now - openedAt.value >= resetAfter
    }

    /** The `state` property: reading it moves an OPEN breaker whose cooldown is over to HALF_OPEN. */
    function Look(now: real): Breaker {
      if state.Open? && CooldownElapsed(now) then this.(state := HalfOpen) else this
    }

    predicate Allows(now: real) {
      !Look(now).state.Open?
    }

    function Trip(now: real): Breaker {
      this.(state := Open, openedAt := Some(now))
    }

    function Success(): Breaker {
      this.(failures := 0, openedAt := None, state := Closed)
    }

    function Failure(now: real): Breaker {
      var seen := Look(now);
      if seen.state.HalfOpen? then seen.Trip(now)
      else
        var counted := seen.(failures := seen.failures + 1);
        if counted.failures >= threshold then counted.Trip(now) else counted
    }
  }

  function NewBreaker(threshold: int, resetAfter: real): Breaker {
    Breaker(threshold, resetAfter, 0, None, Closed)
  }

  class CircuitBreaker {
    const failThreshold: int
    const resetAfter: real
    var consecutiveFailures: int
    var openedAt: Option<real>
    var state: BreakerState

    function View(): Breaker
      reads this
    {
      Breaker(failThreshold, resetAfter, consecutiveFailures, openedAt, state)
    }

    constructor (failThreshold: int, resetAfter: real)
      ensures View() == NewBreaker(failThreshold, resetAfter)
    {
      this.failThreshold, this.resetAfter := failThreshold, resetAfter;
      consecutiveFailures, openedAt, state := 0, None, Closed;
    }

    /** The checked construction: a threshold below one is rejected. */
    static method Create(failThreshold: int, resetAfter: real) returns (b: CircuitBreaker?)
      ensures b == null <==> failThreshold < 1
      ensures b != null ==> fresh(b) && b.View() == NewBreaker(failThreshold, resetAfter)
    {
      b := null;
      if failThreshold >= 1 {
        b := new CircuitBreaker(failThreshold, resetAfter);
      }
    }

    method State(now: real) returns (s: BreakerState)
      modifies this`state
      ensures View() == old(View()).Look(now) && s == state
    {
      if state.Open? && openedAt.Some? && now - openedAt.value >= resetAfter {
        state := HalfOpen;
      }
      s := state;
    }

    method Allow(now: real) returns (ok: bool)
      modifies this`state
      ensures View() == old(View()).Look(now) && ok == old(View()).Allows(now)
    {
      var s := State(now);
      ok := s != Open;
    }

    method RecordSuccess()
      modifies this
      ensures View() == old(View()).Success()
    {
      consecutiveFailures := 0;
      openedAt := None;
      state := Closed;
    }

    method RecordFailure(now: real)
      modifies this
      ensures View() == old(View()).Failure(now)
    {
      var s := State(now);
      if s == HalfOpen {
        Trip(now);
        return;
      }
      consecutiveFailures := consecutiveFailures + 1;
      if consecutiveFailures >= failThreshold {
        Trip(now);
      }
    }

    method ForceOpen(now: real)
      modifies this`state, this`openedAt
      ensures View() == old(View()).Trip(now)
    {
      Trip(now);
    }

    method Trip(now: real)
      modifies this`state, this`openedAt
      ensures View() == old(View()).Trip(now)
    {
      state := Open;
      openedAt := Some(now);
    }
  }

  // ---------------------------------------------------------------------------
  // The tier wrapper
  // ---------------------------------------------------------------------------

  datatype CallOutcome<+R> = Returned(value: R) | TimedOut | Corrupt | BackendRaised

  /** The breaker after one guarded call from `start` to `end`. */
  function AfterCall<R>(b: Breaker, start: real, end: real, outcome: CallOutcome<R>): Breaker {
    var seen := b.Look(start);
    if !b.Allows(start) then seen.Look(start)
    else
      var recorded := match outcome
        case Returned(_) => seen.Success()
        case Corrupt => seen.Trip(end)
        case _ => seen.Failure(end);
      recorded.Look(end)
  }

  datatype DegradeReason = BreakerOpen | Timeout | Corruption | BackendError

  datatype TierWrite = Written | TierWriteFailed(scope: MemoryScope, reason: DegradeReason)

  class ResilientTier {
    const scope: MemoryScope
    const breaker: CircuitBreaker

    constructor (scope: MemoryScope, breaker: CircuitBreaker)
      ensures this.scope == scope && this.breaker == breaker
    {
      this.scope, this.breaker := scope, breaker;
    }

    /** Reads are total: anything but a returned answer within budget yields no entries. */
    method Search(start: real, end: real, outcome: CallOutcome<seq<MemoryEntry>>)
      returns (entries: seq<MemoryEntry>, reached: bool)
      modifies breaker
      ensures reached == old(breaker.View()).Allows(start)
      ensures entries == if reached && outcome.Returned? then outcome.value else []
      ensures breaker.View() == AfterCall(old(breaker.View()), start, end, outcome)
    {
      reached := breaker.Allow(start);
      if !reached {
        var _ := breaker.State(start);
        return [], false;
      }
      entries := [];
      match outcome {
        case Returned(found) =>
          breaker.RecordSuccess();
          entries := found;
        case Corrupt => breaker.ForceOpen(end);
        case _ => breaker.RecordFailure(end);
      }
      var _ := breaker.State(end);
    }

    /** Writes are partial: every failure carries this tier's scope. */
    method Write(start: real, end: real, outcome: CallOutcome<()>) returns (w: TierWrite, reached: bool)
      modifies breaker
      ensures reached == old(breaker.View()).Allows(start)
      ensures w.Written? <==> reached && outcome.Returned?
      ensures w.TierWriteFailed? ==>
                && w.scope == scope
                && w.reason == if !reached then BreakerOpen
                               else match outcome
                                    case TimedOut => Timeout
                                    case Corrupt => Corruption
                                    case _ => BackendError
      ensures breaker.View() == AfterCall(old(breaker.View()), start, end, outcome)
    {
      reached := breaker.Allow(start);
      if !reached {
        var _ := breaker.State(start);
        return TierWriteFailed(scope, BreakerOpen), false;
      }
      match outcome {
        case Returned(_) =>
          breaker.RecordSuccess();
          w := Written;
        case TimedOut =>
          breaker.RecordFailure(end);
          w := TierWriteFailed(scope, Timeout);
        case Corrupt =>
          breaker.ForceOpen(end);
          w := TierWriteFailed(scope, Corruption);
        case BackendRaised =>
          breaker.RecordFailure(end);
          w := TierWriteFailed(scope, BackendError);
      }
      var _ := breaker.State(end);
    }
  }
}
