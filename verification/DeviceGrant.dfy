/** The device-authorization poll loop (section 3.5 of RFC 8628). */
module DeviceGrant {
  import opened Multiples

  const MIN_DEVICE_POLL_S: real := 1.0
  const SLOW_DOWN_S: real := 5.0

  datatype PollAnswer =
    | Approved(access: string)
    | AuthorizationPending
    | SlowDown
    | Refused
    | TransportFailed

  predicate KeepsPolling(a: PollAnswer) {
    a.AuthorizationPending? || a.SlowDown?
  }

  datatype PollResult = Token(access: string) | Failed | TimedOut

  /** The world outside the loop: what poll `k` is answered, how much longer than asked its sleep takes,
      and how long its request takes. */
  datatype World = World(answer: nat -> PollAnswer, oversleep: nat -> real, latency: nat -> real) {
    ghost predicate Valid() {
      forall k: nat :: oversleep(k) >= 0.0 && latency(k) >= 0.0
    }
  }

  datatype Trace = Trace(polls: seq<real>, result: PollResult)

  /** `max(float(interval or default), 1.0)`: a declared interval of zero counts as undeclared. */
  function InitialInterval(declared: int, fallback: real): real {
    var chosen := if declared != 0 then declared as real else fallback;
    if chosen >= MIN_DEVICE_POLL_S then chosen else MIN_DEVICE_POLL_S
  }

  /** The smaller of the declared expiry and the local ceiling, in whole seconds. */
  function Budget(expiresIn: int, ceiling: real): int {
    if expiresIn <= ceiling.Floor then expiresIn else ceiling.Floor
  }

  function NextInterval(interval: real, a: PollAnswer): real {
    if a.SlowDown? then interval + SLOW_DOWN_S else interval
  }

  function Decision(a: PollAnswer): PollResult
    requires !KeepsPolling(a)
  {
    if a.Approved? then Token(a.access) else Failed
  }

  /** The rest of the loop from the top, about to make poll number `k`. */
  ghost function PollFrom(w: World, now: real, deadline: real, interval: real, k: nat): Trace
    requires w.Valid() && interval >= MIN_DEVICE_POLL_S
    decreases deadline - now
  {
    if now >= deadline then Trace([], TimedOut)
    else
      var at := now + interval + w.oversleep(k);
      if !KeepsPolling(w.answer(k)) then Trace([at], Decision(w.answer(k)))
      else
        var rest := PollFrom(w, at + w.latency(k), deadline, NextInterval(interval, w.answer(k)), k + 1);
        Trace([at] + rest.polls, rest.result)
  }

  /** The loop as it accumulates its polls: `polls` have been made already. */
  ghost function Polling(w: World, now: real, deadline: real, interval: real, k: nat, polls: seq<real>): Trace
    requires w.Valid() && interval >= MIN_DEVICE_POLL_S
    decreases deadline - now
  {
    if now >= deadline then Trace(polls, TimedOut)
    else
      var at := now + interval + w.oversleep(k);
      if !KeepsPolling(w.answer(k)) then Trace(polls + [at], Decision(w.answer(k)))
      else Polling(w, at + w.latency(k), deadline, NextInterval(interval, w.answer(k)), k + 1, polls + [at])
  }

  lemma {:induction false} PollingIsPollFrom(w: World, now: real, deadline: real, interval: real, k: nat,
                                             polls: seq<real>)
    requires w.Valid() && interval >= MIN_DEVICE_POLL_S
    ensures var rest := PollFrom(w, now, deadline, interval, k);
            Polling(w, now, deadline, interval, k, polls) == Trace(polls + rest.polls, rest.result)
    decreases deadline - now
  {
    if now >= deadline {
      assert polls + [] == polls;
    } else if KeepsPolling(w.answer(k)) {
      var at := now + interval + w.oversleep(k);
      var next := NextInterval(interval, w.answer(k));
      assert w.oversleep(k) >= 0.0 && w.latency(k) >= 0.0;
      PollingIsPollFrom(w, at + w.latency(k), deadline, next, k + 1, polls + [at]);
      var rest := PollFrom(w, at + w.latency(k), deadline, next, k + 1);
      assert polls + ([at] + rest.polls) == polls + [at] + rest.polls;
    }
  }

  method PollDeviceToken(w: World, start: real, declared: int, expiresIn: int, fallback: real, ceiling: real)
    returns (polls: seq<real>, result: PollResult)
    requires w.Valid()
    ensures Trace(polls, result)
            == PollFrom(w, start, start + Budget(expiresIn, ceiling) as real, InitialInterval(declared, fallback), 0)
  {
    PollingIsPollFrom(w, start, start + Budget(expiresIn, ceiling) as real, InitialInterval(declared, fallback), 0, []);
    polls, result := PollUntil(w, start, start + Budget(expiresIn, ceiling) as real,
                               InitialInterval(declared, fallback));
  }

  method PollUntil(w: World, start: real, deadline: real, initial: real) returns (polls: seq<real>, result: PollResult)
    requires w.Valid() && initial >= MIN_DEVICE_POLL_S
    ensures Trace(polls, result) == Polling(w, start, deadline, initial, 0, [])
  {
    var interval, now := initial, start;
    var k: nat := 0;
    polls := [];
    while now < deadline
      invariant interval >= MIN_DEVICE_POLL_S
      invariant Polling(w, start, deadline, initial, 0, []) == Polling(w, now, deadline, interval, k, polls)
      decreases deadline - now
    {
      now := now + interval + w.oversleep(k);
      polls := polls + [now];
      match w.answer(k) {
        case Approved(access) => return polls, Token(access);
        case AuthorizationPending =>
        case SlowDown => interval := interval + SLOW_DOWN_S;
        case Refused => return polls, Failed;
        case TransportFailed => return polls, Failed;
      }
      now := now + w.latency(k);
      k := k + 1;
    }
    result := TimedOut;
  }

  // ---------------------------------------------------------------------------
  // Spacing, termination and the cost of slow_down
  // ---------------------------------------------------------------------------

  /** How many of the answers to polls `from .. from + n` were `slow_down`. */
  function SlowDowns(w: World, from: nat, n: nat): nat
    decreases n
  {
    if n == 0 then 0 else (if w.answer(from).SlowDown? then 1 else 0) + SlowDowns(w, from + 1, n - 1)
  }

  lemma {:induction false} SpacingFrom(w: World, now: real, deadline: real, interval: real, k: nat, i: nat)
    requires w.Valid() && interval >= MIN_DEVICE_POLL_S
    requires i < |PollFrom(w, now, deadline, interval, k).polls|
    ensures var polls := PollFrom(w, now, deadline, interval, k).polls;
            polls[i] - (if i == 0 then now else polls[i - 1])
            >= interval + Times(SlowDowns(w, k, i), SLOW_DOWN_S)
    decreases i
  {
    if i > 0 {
      var at := now + interval + w.oversleep(k);
      SpacingFrom(w, at + w.latency(k), deadline, NextInterval(interval, w.answer(k)), k + 1, i - 1);
      assert w.latency(k) >= 0.0;
    }
  }

  /** Consecutive polls, and the first from the start, are at least the initial interval plus five
      seconds for every `slow_down` received so far apart; and that interval is at least one second. */
  lemma PollsAreSpaced(w: World, start: real, declared: int, expiresIn: int, fallback: real, ceiling: real, i: nat)
    requires w.Valid()
    requires var i0 := InitialInterval(declared, fallback);
             i < |PollFrom(w, start, start + Budget(expiresIn, ceiling) as real, i0, 0).polls|
    ensures var i0 := InitialInterval(declared, fallback);
            var polls := PollFrom(w, start, start + Budget(expiresIn, ceiling) as real, i0, 0).polls;
            && i0 >= 1.0
            && polls[i] - (if i == 0 then start else polls[i - 1]) >= i0 + SlowDowns(w, 0, i) as real * 5.0
  {
    SpacingFrom(w, start, start + Budget(expiresIn, ceiling) as real, InitialInterval(declared, fallback), 0, i);
    TimesIsProduct(SlowDowns(w, 0, i), SLOW_DOWN_S);
  }

  lemma {:induction false} EarlierPollsFit(w: World, now: real, deadline: real, interval: real, floor: real, k: nat)
    requires w.Valid() && interval >= floor >= MIN_DEVICE_POLL_S
    requires PollFrom(w, now, deadline, interval, k).polls != []
    ensures now + Times(|PollFrom(w, now, deadline, interval, k).polls| - 1, floor) < deadline
    decreases deadline - now
  {
    if KeepsPolling(w.answer(k)) {
      var later := now + interval + w.oversleep(k) + w.latency(k);
      var next := NextInterval(interval, w.answer(k));
      assert w.oversleep(k) >= 0.0 && w.latency(k) >= 0.0;
      if PollFrom(w, later, deadline, next, k + 1).polls != [] {
        EarlierPollsFit(w, later, deadline, next, floor, k + 1);
      }
    }
  }

  /** The loop makes at most `ceil(budget / i0)` polls, and none when the budget is not positive. */
  lemma PollsAreBounded(w: World, start: real, declared: int, expiresIn: int, fallback: real, ceiling: real)
    requires w.Valid()
    ensures var i0 := InitialInterval(declared, fallback);
            var budget := Budget(expiresIn, ceiling);
            var n := |PollFrom(w, start, start + budget as real, i0, 0).polls|;
            && (budget <= 0 ==> n == 0)
            && (budget > 0 ==> n <= Ceil(budget as real / i0))
  {
    var i0, budget := InitialInterval(declared, fallback), Budget(expiresIn, ceiling);
    var polls := PollFrom(w, start, start + budget as real, i0, 0).polls;
    if polls != [] {
      EarlierPollsFit(w, start, start + budget as real, i0, i0, 0);
      TimesBelow(|polls|, i0, budget as real);
    }
  }

  /** `0 + 1 + ... + (n - 1)` */
  function Triangle(n: nat): nat {
    if n == 0 then 0 else (n - 1) + Triangle(n - 1)
  }

  lemma {:induction false} TriangleClosed(n: nat)
    ensures 2 * Triangle(n) == n * (n - 1)
  {
    if n > 0 {
      TriangleClosed(n - 1);
    }
  }

  lemma {:induction false} SlowDownsAddUp(w: World, now: real, deadline: real, interval: real, k: nat, n: nat)
    requires w.Valid() && interval >= MIN_DEVICE_POLL_S
    requires 1 <= n <= |PollFrom(w, now, deadline, interval, k).polls|
    requires forall j :: k <= j < k + n ==> w.answer(j).SlowDown?
    ensures PollFrom(w, now, deadline, interval, k).polls[n - 1]
            >= now + Times(n, interval) + Triangle(n) as real * SLOW_DOWN_S
    decreases n
  {
    assert w.oversleep(k) >= 0.0 && w.latency(k) >= 0.0;
    if n == 1 {
      assert Times(1, interval) == Times(0, interval) + interval;
      assert Triangle(1) == 0 + Triangle(0);
    } else {
      var later := now + interval + w.oversleep(k) + w.latency(k);
      SlowDownsAddUp(w, later, deadline, interval + SLOW_DOWN_S, k + 1, n - 1);
      TimesOfSum(n - 1, interval, SLOW_DOWN_S);
      TimesIsProduct(n - 1, SLOW_DOWN_S);
    }
  }

  /** `n` consecutive `slow_down` answers from the start consume at least `n*i0 + 5*n*(n-1)/2` seconds. */
  lemma SlowDownsCost(w: World, start: real, declared: int, expiresIn: int, fallback: real, ceiling: real, n: nat)
    requires w.Valid()
    requires var i0 := InitialInterval(declared, fallback);
             1 <= n <= |PollFrom(w, start, start + Budget(expiresIn, ceiling) as real, i0, 0).polls|
    requires forall j :: 0 <= j < n ==> w.answer(j).SlowDown?
    ensures var i0 := InitialInterval(declared, fallback);
            PollFrom(w, start, start + Budget(expiresIn, ceiling) as real, i0, 0).polls[n - 1] - start
            >= n as real * i0 + 5.0 * (n * (n - 1)) as real / 2.0
  {
    var i0 := InitialInterval(declared, fallback);
    SlowDownsAddUp(w, start, start + Budget(expiresIn, ceiling) as real, i0, 0, n);
    CostInClosedForm(n, i0);
  }

  lemma CostInClosedForm(n: nat, i0: real)
    ensures Times(n, i0) + Triangle(n) as real * SLOW_DOWN_S == n as real * i0 + 5.0 * (n * (n - 1)) as real / 2.0
  {
    TimesIsProduct(n, i0);
    TriangleClosed(n);
    FiveHalves(Triangle(n), n * (n - 1));
  }

  lemma FiveHalves(triangle: nat, product: int)
    requires 2 * triangle == product
    ensures triangle as real * SLOW_DOWN_S == 5.0 * product as real / 2.0
  {
  }

  /** Every poll but the last was answered "keep polling"; the last one decides the result, and without a
      decision the loop ends only by the clock. */
  lemma {:induction false} LastAnswerDecides(w: World, now: real, deadline: real, interval: real, k: nat)
    requires w.Valid() && interval >= MIN_DEVICE_POLL_S
    ensures var t := PollFrom(w, now, deadline, interval, k);
            var n := |t.polls|;
            && (forall j :: k <= j < k + n - 1 ==> KeepsPolling(w.answer(j)))
            && (t.result.TimedOut? <==> n == 0 || KeepsPolling(w.answer(k + n - 1)))
            && (t.result.Token? <==> n > 0 && w.answer(k + n - 1).Approved?)
            && (t.result.Token? ==> w.answer(k + n - 1).access == t.result.access)
    decreases deadline - now
  {
    if now < deadline && KeepsPolling(w.answer(k)) {
      var later := now + interval + w.oversleep(k) + w.latency(k);
      assert w.oversleep(k) >= 0.0 && w.latency(k) >= 0.0;
      LastAnswerDecides(w, later, deadline, NextInterval(interval, w.answer(k)), k + 1);
    }
  }

  // ---------------------------------------------------------------------------
  // The whole run
  // ---------------------------------------------------------------------------

  /** When the `i`-th turn of the loop begins: at `now`, and after that once the last request is answered. */
  function TurnAt(w: World, now: real, k: nat, polls: seq<real>, i: nat): real
    requires i <= |polls|
  {
    if i == 0 then now else polls[i - 1] + w.latency(k + i - 1)
  }

  /** The `i`-th of these polls comes one interval after its turn began, which every `slow_down` before it has
      lengthened by five seconds, and the turn began in time. */
  predicate Due(w: World, now: real, deadline: real, interval: real, k: nat, polls: seq<real>, i: nat)
    requires i < |polls|
  {
    && polls[i] == TurnAt(w, now, k, polls, i) + interval + Times(SlowDowns(w, k, i), 5.0) + w.oversleep(k + i)
    && TurnAt(w, now, k, polls, i) < deadline
  }

  /** Only these two answers let the loop go on. */
  predicate Waits(a: PollAnswer) {
    a == AuthorizationPending || a == SlowDown
  }

  /** All polls come when they are due, all but the last are told to wait; so is the last if the clock ended the loop,
      and otherwise the last answer is the result. */
  ghost predicate RunsDown(w: World, now: real, deadline: real, interval: real, k: nat, t: Trace) {
    var n := |t.polls|;
    && (forall i :: 0 <= i < n ==> Due(w, now, deadline, interval, k, t.polls, i))
    && (forall j :: k <= j < k + n - 1 ==> Waits(w.answer(j)))
    && (t.result == TimedOut ==>
          (n > 0 ==> Waits(w.answer(k + n - 1))) && TurnAt(w, now, k, t.polls, n) >= deadline)
    && (t.result != TimedOut ==>
          n > 0 && !Waits(w.answer(k + n - 1))
          && t.result == match w.answer(k + n - 1)
                         case Approved(access) => Token(access)
                         case _ => Failed)
  }

  lemma DueLater(w: World, now: real, deadline: real, interval: real, k: nat, rest: seq<real>, i: nat)
    requires now < deadline && i < 1 + |rest|
    requires var at := now + interval + w.oversleep(k);
             i > 0 ==> Due(w, at + w.latency(k), deadline, NextInterval(interval, w.answer(k)), k + 1, rest, i - 1)
    ensures Due(w, now, deadline, interval, k, [now + interval + w.oversleep(k)] + rest, i)
  {
    var at := now + interval + w.oversleep(k);
    var polls := [at] + rest;
    if i > 0 {
      assert SlowDowns(w, k, i) == (if w.answer(k).SlowDown? then 1 else 0) + SlowDowns(w, k + 1, i - 1);
      assert TurnAt(w, now, k, polls, i) == TurnAt(w, at + w.latency(k), k + 1, rest, i - 1);
      assert polls[i] == rest[i - 1] && k + i == k + 1 + (i - 1);
    } else {
      assert SlowDowns(w, k, 0) == 0;
    }
  }

  lemma RunsDownLater(w: World, now: real, deadline: real, interval: real, k: nat, rest: Trace)
    requires now < deadline && Waits(w.answer(k))
    requires var at := now + interval + w.oversleep(k);
             RunsDown(w, at + w.latency(k), deadline, NextInterval(interval, w.answer(k)), k + 1, rest)
    ensures RunsDown(w, now, deadline, interval, k,
                     Trace([now + interval + w.oversleep(k)] + rest.polls, rest.result))
  {
    var at := now + interval + w.oversleep(k);
    var later, next, polls := at + w.latency(k), NextInterval(interval, w.answer(k)), [at] + rest.polls;
    forall i | 0 <= i < |polls|
      ensures Due(w, now, deadline, interval, k, polls, i)
    {
      assert i > 0 ==> Due(w, later, deadline, next, k + 1, rest.polls, i - 1);
      DueLater(w, now, deadline, interval, k, rest.polls, i);
    }
    assert TurnAt(w, now, k, polls, |polls|) == TurnAt(w, later, k + 1, rest.polls, |rest.polls|);
  }

  lemma {:induction false} PollsRunDown(w: World, now: real, deadline: real, interval: real, k: nat)
    requires w.Valid() && interval >= MIN_DEVICE_POLL_S
    ensures RunsDown(w, now, deadline, interval, k, PollFrom(w, now, deadline, interval, k))
    decreases deadline - now
  {
    if now < deadline && Waits(w.answer(k)) {
      var later := now + interval + w.oversleep(k) + w.latency(k);
      assert w.oversleep(k) >= 0.0 && w.latency(k) >= 0.0;
      PollsRunDown(w, later, deadline, NextInterval(interval, w.answer(k)), k + 1);
      RunsDownLater(w, now, deadline, interval, k,
                    PollFrom(w, later, deadline, NextInterval(interval, w.answer(k)), k + 1));
    } else if now < deadline {
      assert SlowDowns(w, k, 0) == 0;
    }
  }

  /** The whole run, by what was declared. The interval is the declared one, or the default where none or zero was, and
      at least a second; every turn begins before the device code expires and before the local ceiling in whole
      seconds; and a run that times out has reached one of the two. */
  lemma PollsExactly(w: World, start: real, declared: int, expiresIn: int, fallback: real, ceiling: real)
    requires w.Valid()
    ensures var t := PollFrom(w, start, start + Budget(expiresIn, ceiling) as real,
                              InitialInterval(declared, fallback), 0);
            var wished := if declared == 0 then fallback else declared as real;
            var interval := if wished < 1.0 then 1.0 else wished;
            var expiry, limit := start + expiresIn as real, start + ceiling.Floor as real;
            RunsDown(w, start, if expiry < limit then expiry else limit, interval, 0, t)
  {
    PollsRunDown(w, start, start + Budget(expiresIn, ceiling) as real, InitialInterval(declared, fallback), 0);
  }
}
