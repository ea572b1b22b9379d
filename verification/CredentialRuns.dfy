/** What every interleaving of refresh tasks keeps. */
module CredentialRuns {
  import opened Options
  import opened Credentials

  /** The lock is held exactly by the task whose request is in flight, and the token that task loaded is
      still the stored one. Tasks only ever act on, and hand out, tokens that have been stored. */
  ghost predicate TasksConsistent(p: Provider) {
    && (forall t :: t in p.tasks && p.tasks[t].Refreshing? ==>
          && p.lock == Some(t)
          && p.stored == Some(p.tasks[t].current)
          && p.tasks[t].current.access == p.tasks[t].seen.access
          && Truthy(p.tasks[t].current.refresh))
    && (p.lock.Some? ==> p.lock.value in p.tasks && p.tasks[p.lock.value].Refreshing?)
    && (forall t :: t in p.tasks && p.tasks[t].Returned? ==> p.tasks[t].access in p.everStored)
    && (forall t :: t in p.tasks && p.tasks[t].Waiting? ==> p.tasks[t].seen.access in p.everStored && p.stored.Some?)
  }

  /** A rotation presented the refresh token it found stored, and the token it stored is the one the next
      rotation replaced, or the one stored now. */
  ghost predicate Linked(p: Provider, i: int)
    requires 0 <= i < |p.rotations|
  {
    && p.rotations[i].observed == p.rotations[i].replaced.access
    && p.rotations[i].presented == p.rotations[i].replaced.refresh
    && Truthy(p.rotations[i].presented)
    && p.rotations[i].replaced.access in p.everStored
    && p.stored.Some?
    && p.stored.value.access != p.rotations[i].replaced.access
    && (if i + 1 < |p.rotations| then p.rotations[i + 1].replaced == p.rotations[i].stored
        else p.stored.value == p.rotations[i].stored)
  }

  /** The rotations form one chain ending at the stored token, and no access token occurs twice in it. */
  ghost predicate ChainConsistent(p: Provider) {
    && (p.stored.Some? ==> p.stored.value.access in p.everStored)
    && (forall i {:trigger Linked(p, i)} {:trigger p.rotations[i]} :: 0 <= i < |p.rotations| ==> Linked(p, i))
    && (forall i, j :: 0 <= i < j < |p.rotations| ==>
          p.rotations[i].replaced.access != p.rotations[j].replaced.access)
    && |p.everStored| == |p.rotations| + (if p.stored.Some? then 1 else 0)
  }

  ghost predicate Inv(p: Provider) {
    TasksConsistent(p) && ChainConsistent(p)
  }

  lemma InitialInv(stored: Option<Token>, now: real, skew: real)
    ensures Inv(Initial(stored, now, skew))
  {
  }

  lemma RotationKeepsChain(p: Provider, t: TaskId, r: TokenResponse)
    requires Inv(p) && Enabled(p, FinishRefresh(t, Granted(r)))
    ensures ChainConsistent(Next(p, FinishRefresh(t, Granted(r))))
  {
    var q := Next(p, FinishRefresh(t, Granted(r)));
    var n := |p.rotations|;
    assert q.rotations[n].replaced == p.stored.value;
    forall i | 0 <= i < |q.rotations|
      ensures Linked(q, i)
    {
      if i < n {
        assert q.rotations[i] == p.rotations[i] && Linked(p, i);
      }
    }
    forall i, j | 0 <= i < j < |q.rotations|
      ensures q.rotations[i].replaced.access != q.rotations[j].replaced.access
    {
      assert q.rotations[i] == p.rotations[i] && Linked(p, i);
    }
  }

  lemma NextKeepsInv(p: Provider, a: Action)
    requires Inv(p) && Enabled(p, a)
    ensures Inv(Next(p, a))
  {
    if a.FinishRefresh? && a.answer.Granted? {
      RotationKeepsChain(p, a.task, a.answer.response);
    } else {
      forall i | 0 <= i < |p.rotations|
        ensures Linked(Next(p, a), i)
      {
        assert Linked(p, i);
      }
    }
  }

  /** The invariant holds after every legal run. */
  lemma {:induction false} RunKeepsInv(p: Provider, actions: seq<Action>)
    requires Inv(p) && Legal(p, actions)
    ensures Inv(Run(p, actions))
    decreases |actions|
  {
    if actions != [] {
      NextKeepsInv(p, actions[0]);
      RunKeepsInv(Next(p, actions[0]), actions[1..]);
    }
  }

  // ---------------------------------------------------------------------------
  // Main results, over every run from a fresh provider
  // ---------------------------------------------------------------------------

  ghost predicate ObservedTokensDiffer(rs: seq<Rotation>) {
    forall i, j :: 0 <= i < j < |rs| ==> rs[i].observed != rs[j].observed
  }

  ghost predicate PresentsTheStoredRefreshToken(rs: seq<Rotation>) {
    && (forall i :: 0 <= i < |rs| ==> rs[i].presented == rs[i].replaced.refresh)
    && (forall i :: 0 < i < |rs| ==> rs[i].replaced == rs[i - 1].stored)
  }

  lemma ChainFacts(p: Provider)
    requires Inv(p)
    ensures ObservedTokensDiffer(p.rotations) && PresentsTheStoredRefreshToken(p.rotations)
  {
    forall i, j | 0 <= i < j < |p.rotations|
      ensures p.rotations[i].observed != p.rotations[j].observed
    {
      assert Linked(p, i) && Linked(p, j);
    }
    forall i | 0 < i < |p.rotations|
      ensures p.rotations[i].replaced == p.rotations[i - 1].stored
    {
      assert Linked(p, i - 1);
    }
  }

  /** Tasks that observed the same access token cause at most one successful refresh between them, and
      every refresh presented the refresh token stored at that moment, never a superseded one. */
  lemma OneRefreshPerObservedToken(stored: Option<Token>, now: real, skew: real, actions: seq<Action>)
    requires Legal(Initial(stored, now, skew), actions)
    ensures ObservedTokensDiffer(Run(Initial(stored, now, skew), actions).rotations)
    ensures PresentsTheStoredRefreshToken(Run(Initial(stored, now, skew), actions).rotations)
  {
    InitialInv(stored, now, skew);
    RunKeepsInv(Initial(stored, now, skew), actions);
    ChainFacts(Run(Initial(stored, now, skew), actions));
  }

  /** Conservation: one rotation for each token ever stored after the first, however many tasks ran. */
  lemma OneRotationPerStoredToken(stored: Option<Token>, now: real, skew: real, actions: seq<Action>)
    requires Legal(Initial(stored, now, skew), actions)
    ensures var p := Run(Initial(stored, now, skew), actions);
            |p.everStored| == |p.rotations| + (if p.stored.Some? then 1 else 0)
  {
    InitialInv(stored, now, skew);
    RunKeepsInv(Initial(stored, now, skew), actions);
  }

  /** Whenever a task is about to save, the stored token is still the one it loaded, it holds the lock,
      and nobody else has a request in flight. */
  lemma SaverIsAlone(stored: Option<Token>, now: real, skew: real, actions: seq<Action>, t: TaskId, u: TaskId)
    requires Legal(Initial(stored, now, skew), actions)
    requires var p := Run(Initial(stored, now, skew), actions);
             t in p.tasks && p.tasks[t].Refreshing? && u in p.tasks && u != t
    ensures var p := Run(Initial(stored, now, skew), actions);
            && p.lock == Some(t)
            && p.stored == Some(p.tasks[t].current)
            && !p.tasks[u].Refreshing?
  {
    InitialInv(stored, now, skew);
    RunKeepsInv(Initial(stored, now, skew), actions);
  }

  /** A token is handed out only in a step that leaves it the stored token; so every token handed out
      was persisted first. */
  lemma HandedOutIsStored(p: Provider, a: Action, t: TaskId)
    requires Inv(p) && Enabled(p, a)
    requires t in Next(p, a).tasks && Next(p, a).tasks[t].Returned?
    requires t !in p.tasks || !p.tasks[t].Returned?
    ensures Next(p, a).stored.Some? && Next(p, a).stored.value.access == Next(p, a).tasks[t].access
    ensures Next(p, a).tasks[t].access in Next(p, a).everStored
  {
    NextKeepsInv(p, a);
  }

  /** A refreshable stored token stays refreshable through every run: an omitted refresh token is carried
      forward (section 6 of RFC 6749). */
  lemma {:induction false} StaysRefreshable(p: Provider, actions: seq<Action>)
    requires Inv(p) && Legal(p, actions)
    requires p.stored.Some? && Truthy(p.stored.value.refresh)
    ensures Run(p, actions).stored.Some? && Truthy(Run(p, actions).stored.value.refresh)
    decreases |actions|
  {
    if actions != [] {
      NextKeepsInv(p, actions[0]);
      StaysRefreshable(Next(p, actions[0]), actions[1..]);
    }
  }

  /** A waiter whose token was rotated meanwhile finishes at once with the stored token: it makes no
      request, takes no lock and rotates nothing. */
  lemma LateWaiterReuses(p: Provider, t: TaskId)
    requires Inv(p) && Enabled(p, EnterRefresh(t))
    requires p.stored.value.access != p.tasks[t].seen.access
    ensures var q := Next(p, EnterRefresh(t));
            && q.tasks[t] == Finish(p.tasks[t].proactive, Some(p.stored.value.access))
            && q == p.(tasks := q.tasks)
  {
  }

  predicate Unfinished(phase: Phase) {
    phase.Waiting? || phase.Refreshing?
  }

  /** No deadlock: while some task is unfinished, some unfinished task can take its next step. */
  lemma SomeoneCanMove(p: Provider, t: TaskId)
    requires Inv(p) && t in p.tasks && Unfinished(p.tasks[t])
    ensures exists u, a :: u in p.tasks && Unfinished(p.tasks[u]) && Enabled(p, a)
                           && (a == EnterRefresh(u) || a == FinishRefresh(u, Rejected))
  {
    if p.lock.Some? {
      assert Enabled(p, FinishRefresh(p.lock.value, Rejected));
    } else {
      assert Enabled(p, EnterRefresh(t));
    }
  }

  lemma RotationsGrow(p: Provider, a: Action)
    requires Inv(p) && Enabled(p, a)
    ensures p.rotations <= Next(p, a).rotations
    ensures Next(p, a).rotations == p.rotations ==> Next(p, a).stored == p.stored
    ensures Next(p, a).rotations != p.rotations ==>
              p.stored.Some? && Next(p, a).rotations[|p.rotations|].replaced == p.stored.value
  {
  }

  /** The stored token changes with the first successful refresh and, within one chain, never comes back. */
  lemma {:induction false} StoredUntilRotated(p: Provider, actions: seq<Action>)
    requires Inv(p) && Legal(p, actions)
    ensures var q := Run(p, actions);
            && p.rotations <= q.rotations
            && (q.rotations == p.rotations ==> q.stored == p.stored)
            && (q.rotations != p.rotations ==>
                  p.stored.Some? && q.rotations[|p.rotations|].replaced == p.stored.value)
    decreases |actions|
  {
    if actions != [] {
      RotationsGrow(p, actions[0]);
      NextKeepsInv(p, actions[0]);
      StoredUntilRotated(Next(p, actions[0]), actions[1..]);
    }
  }

  /** A task waits once: what it waits on does not change, and it never waits again. */
  lemma {:induction false} WaitsUnchanged(p: Provider, actions: seq<Action>, t: TaskId)
    requires Legal(p, actions) && t in p.tasks
    ensures t in Run(p, actions).tasks
    ensures Run(p, actions).tasks[t].Waiting? ==> Run(p, actions).tasks[t] == p.tasks[t]
    decreases |actions|
  {
    if actions != [] {
      WaitsUnchanged(Next(p, actions[0]), actions[1..], t);
    }
  }

  /** Whatever the other tasks do meanwhile, a task that began to wait on the stored token asks the server itself if
      and only if no refresh has succeeded since, the token can still be refreshed and, unless the server had
      rejected it, is still expired. */
  lemma WaiterAsksExactly(p: Provider, actions: seq<Action>, t: TaskId, seen: Token, proactive: bool)
    requires Inv(p) && Legal(p, actions)
    requires t in p.tasks && p.tasks[t] == Waiting(seen, proactive) && p.stored == Some(seen)
    requires Enabled(Run(p, actions), EnterRefresh(t))
    ensures var q := Run(p, actions);
            Next(q, EnterRefresh(t)).tasks[t].Refreshing? <==>
              q.rotations == p.rotations && Truthy(seen.refresh) && (proactive ==> IsExpired(seen, q.now, q.skew))
  {
    var q := Run(p, actions);
    StoredUntilRotated(p, actions);
    RunKeepsInv(p, actions);
    WaitsUnchanged(p, actions, t);
    if q.rotations != p.rotations {
      assert Linked(q, |p.rotations|);
    }
  }

  // ---------------------------------------------------------------------------
  // One call from beginning to end, whatever other tasks do meanwhile
  // ---------------------------------------------------------------------------

  /** Task `t` makes its call, the run `before` follows, and then `t` can take the lock. */
  ghost predicate CanEnter(p: Provider, call: Action, before: seq<Action>, t: TaskId) {
    Enabled(p, call) && Legal(Next(p, call), before) && Enabled(Run(Next(p, call), before), EnterRefresh(t))
  }

  ghost function AtLock(p: Provider, call: Action, before: seq<Action>, t: TaskId): Provider
    requires CanEnter(p, call, before, t)
  {
    Run(Next(p, call), before)
  }

  ghost function Entered(p: Provider, call: Action, before: seq<Action>, t: TaskId): Provider
    requires CanEnter(p, call, before, t)
  {
    Next(AtLock(p, call, before, t), EnterRefresh(t))
  }

  /** Its request goes out, the run `during` follows, and then the server answers. */
  ghost predicate CanEnd(p: Provider, call: Action, before: seq<Action>, t: TaskId, during: seq<Action>,
                         answer: ServerAnswer) {
    && CanEnter(p, call, before, t) && Legal(Entered(p, call, before, t), during)
    && Enabled(Run(Entered(p, call, before, t), during), FinishRefresh(t, answer))
  }

  ghost function Ended(p: Provider, call: Action, before: seq<Action>, t: TaskId, during: seq<Action>,
                       answer: ServerAnswer): Provider
    requires CanEnd(p, call, before, t, during, answer)
  {
    Next(Run(Entered(p, call, before, t), during), FinishRefresh(t, answer))
  }

  lemma {:induction false} ClockRuns(p: Provider, actions: seq<Action>)
    requires Legal(p, actions)
    ensures Run(p, actions).now >= p.now && Run(p, actions).skew == p.skew
    decreases |actions|
  {
    if actions != [] {
      ClockRuns(Next(p, actions[0]), actions[1..]);
    }
  }

  lemma {:induction false} RequestUnchanged(p: Provider, actions: seq<Action>, t: TaskId)
    requires Legal(p, actions) && t in p.tasks && p.tasks[t].Refreshing?
    ensures t in Run(p, actions).tasks
    ensures Run(p, actions).tasks[t].Refreshing? ==> Run(p, actions).tasks[t] == p.tasks[t]
    decreases |actions|
  {
    if actions != [] {
      if Next(p, actions[0]).tasks[t].Refreshing? {
        RequestUnchanged(Next(p, actions[0]), actions[1..], t);
      } else {
        NeverRequestsAgain(Next(p, actions[0]), actions[1..], t);
      }
    }
  }

  lemma {:induction false} NeverRequestsAgain(p: Provider, actions: seq<Action>, t: TaskId)
    requires Legal(p, actions) && t in p.tasks && !p.tasks[t].Waiting? && !p.tasks[t].Refreshing?
    ensures t in Run(p, actions).tasks && Run(p, actions).tasks[t] == p.tasks[t]
    decreases |actions|
  {
    if actions != [] {
      NeverRequestsAgain(Next(p, actions[0]), actions[1..], t);
    }
  }

  /** A 401 without a refresh token to use is answered "no retry" at once; with one the task waits for the lock,
      whatever the expiry says. Nothing else changes. */
  lemma UnauthorizedAtOnce(p: Provider, t: TaskId)
    requires t !in p.tasks
    ensures var q := Next(p, OnUnauthorized(t));
            && q == p.(tasks := p.tasks[t := q.tasks[t]])
            && (if p.stored.Some? && p.stored.value.refresh.Some? && p.stored.value.refresh.value != ""
                then q.tasks[t].Waiting? else q.tasks[t] == RetryAnswer(false))
  {
  }

  /** After a 401 the server is asked for every expiry, clock and skew, unless a refresh has succeeded since; then the
      retry is worthwhile with the token that brought. */
  lemma UnauthorizedAsksServer(p: Provider, t: TaskId, before: seq<Action>)
    requires Inv(p) && t !in p.tasks
    requires p.stored.Some? && p.stored.value.refresh.Some? && p.stored.value.refresh.value != ""
    requires CanEnter(p, OnUnauthorized(t), before, t)
    ensures var r, q := AtLock(p, OnUnauthorized(t), before, t), Entered(p, OnUnauthorized(t), before, t);
            if r.rotations == p.rotations then q.tasks[t].Refreshing? && q.lock == Some(t) && q.stored == p.stored
            else q.tasks[t] == RetryAnswer(true) && q.lock.None? && q.stored == r.stored
  {
    var called := Next(p, OnUnauthorized(t));
    var seen := p.stored.value;
    NextKeepsInv(p, OnUnauthorized(t));
    WaitsUnchanged(called, before, t);
    StoredUntilRotated(called, before);
    RunKeepsInv(called, before);
    WaiterAsksExactly(called, before, t, seen, false);
    if Run(called, before).rotations != called.rotations {
      assert Linked(Run(called, before), |called.rotations|);
    }
  }

  /** And the answer to the caller is the server's: a retry is worthwhile exactly if it granted the refresh. */
  lemma UnauthorizedAnswersAsServer(p: Provider, t: TaskId, before: seq<Action>, during: seq<Action>,
                                    answer: ServerAnswer)
    requires Inv(p) && t !in p.tasks && CanEnd(p, OnUnauthorized(t), before, t, during, answer)
    ensures Ended(p, OnUnauthorized(t), before, t, during, answer).tasks[t] == RetryAnswer(answer.Granted?)
  {
    WaitsUnchanged(Next(p, OnUnauthorized(t)), before, t);
    StillAsked(Entered(p, OnUnauthorized(t), before, t), during, t, answer);
    RequestUnchanged(Entered(p, OnUnauthorized(t), before, t), during, t);
  }

  /** A task that can be answered now had asked before. */
  lemma StillAsked(p: Provider, during: seq<Action>, t: TaskId, answer: ServerAnswer)
    requires t in p.tasks && !p.tasks[t].Waiting? && Legal(p, during)
    requires Enabled(Run(p, during), FinishRefresh(t, answer))
    ensures p.tasks[t].Refreshing?
  {
    if !p.tasks[t].Refreshing? {
      NeverRequestsAgain(p, during, t);
    }
  }

  /** What `get_token` does at once: it raises without a token, hands out one that has not come within the skew of its
      expiry, and otherwise waits for the lock. Nothing else changes. */
  lemma GetTokenAtOnce(p: Provider, t: TaskId)
    requires t !in p.tasks
    ensures var q := Next(p, GetToken(t));
            && q == p.(tasks := p.tasks[t := q.tasks[t]])
            && (if p.stored.None? then q.tasks[t] == AuthErrorRaised
                else if p.stored.value.expiresAt.None? || p.now < p.stored.value.expiresAt.value - p.skew then
                  q.tasks[t] == Returned(p.stored.value.access)
                else q.tasks[t].Waiting?)
  {
  }

  /** Holding the lock, a call on an expiring token asks the server if it has a refresh token to present, raises if it
      has none, and hands out the new token, asking nobody, if a refresh has succeeded since. */
  lemma ExpiringTokenAsksServer(p: Provider, t: TaskId, before: seq<Action>)
    requires Inv(p) && t !in p.tasks && p.stored.Some? && p.stored.value.expiresAt.Some?
    requires p.now >= p.stored.value.expiresAt.value - p.skew
    requires CanEnter(p, GetToken(t), before, t)
    ensures var r, q := AtLock(p, GetToken(t), before, t), Entered(p, GetToken(t), before, t);
            && q.stored == r.stored
            && (if r.rotations != p.rotations then
                  r.stored.Some? && q.tasks[t] == Returned(r.stored.value.access) && q.lock.None?
                else if p.stored.value.refresh.Some? && p.stored.value.refresh.value != "" then
                  q.tasks[t].Refreshing? && q.lock == Some(t)
                else q.tasks[t] == AuthErrorRaised && q.lock.None?)
  {
    var called := Next(p, GetToken(t));
    NextKeepsInv(p, GetToken(t));
    WaitsUnchanged(called, before, t);
    StoredUntilRotated(called, before);
    RunKeepsInv(called, before);
    ClockRuns(called, before);
    if Run(called, before).rotations != called.rotations {
      assert Linked(Run(called, before), |called.rotations|);
    }
  }

  /** And it ends as the server answers: with the new token, or an error. */
  lemma GetTokenEndsAsServer(p: Provider, t: TaskId, before: seq<Action>, during: seq<Action>, answer: ServerAnswer)
    requires Inv(p) && t !in p.tasks && CanEnd(p, GetToken(t), before, t, during, answer)
    ensures Ended(p, GetToken(t), before, t, during, answer).tasks[t]
         == if answer.Granted? then Returned(answer.response.access) else AuthErrorRaised
  {
    WaitsUnchanged(Next(p, GetToken(t)), before, t);
    StillAsked(Entered(p, GetToken(t), before, t), during, t, answer);
    RequestUnchanged(Entered(p, GetToken(t), before, t), during, t);
  }

  /** A granted refresh is stored whole: the new access token, the lifetime counted from now, and, where the server
      leaves them out, the refresh token and the scopes it replaces. A refusal changes nothing stored. Either way the
      lock is free. */
  lemma AnswerIsStored(p: Provider, t: TaskId, answer: ServerAnswer)
    requires Inv(p) && Enabled(p, FinishRefresh(t, answer))
    ensures var q := Next(p, FinishRefresh(t, answer));
            && q.lock.None? && p.stored.Some? && q.stored.Some?
            && (answer.Rejected? ==> q.stored == p.stored && q.rotations == p.rotations)
            && (answer.Granted? ==>
                  var r, was, kept := answer.response, p.stored.value, q.stored.value;
                  && kept.access == r.access
                  && (kept.expiresAt.Some? <==> r.expiresIn.Some?)
                  && (r.expiresIn.Some? ==> kept.expiresAt.value == p.now + r.expiresIn.value)
                  && kept.refresh == (if r.refresh.Some? && r.refresh.value != "" then r.refresh else was.refresh)
                  && kept.scopes == (if r.scopes != [] then r.scopes else was.scopes))
  {
  }

  /** Only successes are shared. When the server refuses, each waiting task asks it again: two tasks that
      observed the same token make two requests. */
  lemma FailedRefreshIsRepeated(expired: Token, now: real, skew: real)
    requires IsExpired(expired, now, skew) && Truthy(expired.refresh)
    ensures var actions := [GetToken(0), GetToken(1), EnterRefresh(0), FinishRefresh(0, Rejected), EnterRefresh(1)];
            && Legal(Initial(Some(expired), now, skew), actions)
            && Run(Initial(Some(expired), now, skew), actions).tasks
               == map[0 := AuthErrorRaised, 1 := Refreshing(expired, true, expired)]
  {
    var p0 := Initial(Some(expired), now, skew);
    var queued := p0.(tasks := map[0 := Waiting(expired, true), 1 := Waiting(expired, true)]);
    var refused := p0.(tasks := map[0 := AuthErrorRaised, 1 := Waiting(expired, true)]);
    TwoQueue(expired, now, skew);
    FirstIsRefused(queued, expired, refused);
    RunCons(refused, EnterRefresh(1), []);
    RunConcat(p0, [GetToken(0), GetToken(1)], [EnterRefresh(0), FinishRefresh(0, Rejected)]);
    RunConcat(p0, [GetToken(0), GetToken(1)] + [EnterRefresh(0), FinishRefresh(0, Rejected)], [EnterRefresh(1)] + []);
    assert [GetToken(0), GetToken(1)] + [EnterRefresh(0), FinishRefresh(0, Rejected)] + ([EnterRefresh(1)] + [])
        == [GetToken(0), GetToken(1), EnterRefresh(0), FinishRefresh(0, Rejected), EnterRefresh(1)];
  }

  lemma TwoQueue(expired: Token, now: real, skew: real)
    requires IsExpired(expired, now, skew)
    ensures var p := Initial(Some(expired), now, skew);
            && Legal(p, [GetToken(0), GetToken(1)])
            && Run(p, [GetToken(0), GetToken(1)])
               == p.(tasks := map[0 := Waiting(expired, true), 1 := Waiting(expired, true)])
  {
    var p := Initial(Some(expired), now, skew);
    var q := p.(tasks := map[0 := Waiting(expired, true)]);
    assert Next(p, GetToken(0)) == q;
    RunCons(q, GetToken(1), []);
    RunCons(p, GetToken(0), [GetToken(1)] + []);
    assert [GetToken(0)] + ([GetToken(1)] + []) == [GetToken(0), GetToken(1)];
  }

  lemma FirstIsRefused(p: Provider, expired: Token, q: Provider)
    requires p.stored == Some(expired) && p.lock.None? && Truthy(expired.refresh) && IsExpired(expired, p.now, p.skew)
    requires p.tasks == map[0 := Waiting(expired, true), 1 := Waiting(expired, true)]
    requires q == p.(tasks := map[0 := AuthErrorRaised, 1 := Waiting(expired, true)])
    ensures Legal(p, [EnterRefresh(0), FinishRefresh(0, Rejected)])
    ensures Run(p, [EnterRefresh(0), FinishRefresh(0, Rejected)]) == q
  {
    var during := p.(tasks := p.tasks[0 := Refreshing(expired, true, expired)], lock := Some(0));
    assert Next(p, EnterRefresh(0)) == during;
    assert Next(during, FinishRefresh(0, Rejected)) == q;
    RunCons(during, FinishRefresh(0, Rejected), []);
    RunCons(p, EnterRefresh(0), [FinishRefresh(0, Rejected)] + []);
    assert [EnterRefresh(0)] + ([FinishRefresh(0, Rejected)] + []) == [EnterRefresh(0), FinishRefresh(0, Rejected)];
  }

  lemma {:induction false} RunConcat(p: Provider, a: seq<Action>, b: seq<Action>)
    requires Legal(p, a) && Legal(Run(p, a), b)
    ensures Legal(p, a + b) && Run(p, a + b) == Run(Run(p, a), b)
    decreases |a|
  {
    if a == [] {
      assert a + b == b;
    } else {
      RunConcat(Next(p, a[0]), a[1..], b);
      assert (a + b)[1..] == a[1..] + b;
    }
  }

  lemma RunCons(p: Provider, a: Action, rest: seq<Action>)
    requires Enabled(p, a)
    ensures Legal(p, [a] + rest) <==> Legal(Next(p, a), rest)
    ensures Legal(Next(p, a), rest) ==> Run(p, [a] + rest) == Run(Next(p, a), rest)
  {
    assert ([a] + rest)[1..] == rest;
  }
}
