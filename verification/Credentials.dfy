/** OAuth credential refresh as a protocol: any number of tasks calling `get_token` and `on_unauthorized`
    on one provider, over one stored token and one lock. A task can be preempted only while it waits for
    the lock and while the refresh request is in flight, so each action below is one uninterrupted
    stretch of a task between those two points. */
module Credentials {
  import opened Options

  type TaskId = nat

  datatype Token = Token(access: string, refresh: Option<string>, expiresAt: Option<real>, scopes: seq<string>)

  datatype TokenResponse = TokenResponse(access: string, expiresIn: Option<real>, refresh: Option<string>,
                                         scopes: seq<string>)

  /** Python truthiness of an optional string. */
  predicate Truthy(s: Option<string>) {
    s.Some? && s.value != ""
  }

  predicate IsExpired(t: Token, now: real, skew: real) {
    t.expiresAt.Some? && now >= t.expiresAt.value - skew
  }

  /** `to_token`: an omitted or empty refresh token or scope falls back to the one being replaced. */
  function ToToken(r: TokenResponse, fallbackRefresh: Option<string>, fallbackScopes: seq<string>, now: real): Token {
    Token(r.access,
          if Truthy(r.refresh) then r.refresh else fallbackRefresh,
          if r.expiresIn.Some? then Some(now + r.expiresIn.value) else None,
          if r.scopes != [] then r.scopes else fallbackScopes)
  }

  datatype Phase =
    | Waiting(seen: Token, proactive: bool)
    | Refreshing(seen: Token, proactive: bool, current: Token)
    | Returned(access: string)
    | AuthErrorRaised
    | RetryAnswer(worthwhile: bool)

  datatype ServerAnswer = Rejected | Granted(response: TokenResponse)

  /** One successful refresh: what its caller had observed, what it presented, what it replaced. */
  datatype Rotation = Rotation(observed: string, presented: Option<string>, replaced: Token, stored: Token)

  datatype Provider = Provider(
    stored: Option<Token>,
    lock: Option<TaskId>,
    tasks: map<TaskId, Phase>,
    now: real,
    skew: real,
    rotations: seq<Rotation>,
    everStored: set<string>
  )

  function Initial(stored: Option<Token>, now: real, skew: real): Provider {
    Provider(stored, None, map[], now, skew, [], if stored.Some? then {stored.value.access} else {})
  }

  /** How a finished `_refresh` surfaces: `get_token` hands out the token or raises, `on_unauthorized`
      answers whether a retry is worthwhile. */
  function Finish(proactive: bool, access: Option<string>): Phase {
    if proactive then if access.Some? then Returned(access.value) else AuthErrorRaised
    else RetryAnswer(access.Some?)
  }

  datatype Action =
    | GetToken(task: TaskId)
    | OnUnauthorized(task: TaskId)
    | EnterRefresh(task: TaskId)
    | FinishRefresh(task: TaskId, answer: ServerAnswer)
    | Tick(seconds: real)

  /** An authorization server never issues the same access token twice. */
  predicate Enabled(p: Provider, a: Action) {
    match a
    case GetToken(t) => t !in p.tasks
    case OnUnauthorized(t) => t !in p.tasks
    case EnterRefresh(t) => t in p.tasks && p.tasks[t].Waiting? && p.lock.None?
    case FinishRefresh(t, answer) =>
      t in p.tasks && p.tasks[t].Refreshing? && (answer.Granted? ==> answer.response.access !in p.everStored)
    case Tick(d) => d >= 0.0
  }

  function GetTokenPhase(p: Provider): Phase {
    if p.stored.None? then AuthErrorRaised
    else if !IsExpired(p.stored.value, p.now, p.skew) then Returned(p.stored.value.access)
    else Waiting(p.stored.value, true)
  }

  function OnUnauthorizedPhase(p: Provider): Phase {
    if p.stored.None? || !Truthy(p.stored.value.refresh) then RetryAnswer(false)
    else Waiting(p.stored.value, false)
  }

  /** Under the lock: reload, then double-check before going to the network. */
  function EnterPhase(p: Provider, seen: Token, proactive: bool): Phase {
    if p.stored.None? then Finish(proactive, None)
    else
      var current := p.stored.value;
      if current.access != seen.access then Finish(proactive, Some(current.access))
      else if proactive && !IsExpired(current, p.now, p.skew) then Finish(proactive, Some(current.access))
      else if !Truthy(current.refresh) then Finish(proactive, None)
      else Refreshing(seen, proactive, current)
  }

  function Next(p: Provider, a: Action): Provider
    requires Enabled(p, a)
  {
    match a
    case GetToken(t) => p.(tasks := p.tasks[t := GetTokenPhase(p)])
    case OnUnauthorized(t) => p.(tasks := p.tasks[t := OnUnauthorizedPhase(p)])
    case EnterRefresh(t) =>
      var phase := EnterPhase(p, p.tasks[t].seen, p.tasks[t].proactive);
      p.(tasks := p.tasks[t := phase], lock := if phase.Refreshing? then Some(t) else None)
    case FinishRefresh(t, Rejected) =>
      p.(tasks := p.tasks[t := Finish(p.tasks[t].proactive, None)], lock := None)
    case FinishRefresh(t, Granted(r)) =>
      var Refreshing(seen, proactive, current) := p.tasks[t];
      var rotated := ToToken(r, current.refresh, current.scopes, p.now);
      p.(stored := Some(rotated),
         tasks := p.tasks[t := Finish(proactive, Some(rotated.access))],
         lock := None,
         rotations := p.rotations + [Rotation(seen.access, current.refresh, current, rotated)],
         everStored := p.everStored + {rotated.access})
    case Tick(d) => p.(now := p.now + d)
  }

  ghost predicate Legal(p: Provider, actions: seq<Action>)
    decreases |actions|
  {
    actions != [] ==> Enabled(p, actions[0]) && Legal(Next(p, actions[0]), actions[1..])
  }

  ghost function Run(p: Provider, actions: seq<Action>): Provider
    requires Legal(p, actions)
    decreases |actions|
  {
    if actions == [] then p else Run(Next(p, actions[0]), actions[1..])
  }

  // ---------------------------------------------------------------------------
  // The provider object
  // ---------------------------------------------------------------------------

  class OAuthCredentialProvider {
    const skew: real
    var stored: Option<Token>
    var lock: Option<TaskId>
    var tasks: map<TaskId, Phase>
    var now: real
    ghost var rotations: seq<Rotation>
    ghost var everStored: set<string>

    ghost function View(): Provider
      reads this
    {
      Provider(stored, lock, tasks, now, skew, rotations, everStored)
    }

    constructor (stored: Option<Token>, now: real, skew: real)
      ensures View() == Initial(stored, now, skew)
    {
      this.stored, this.now, this.skew := stored, now, skew;
      lock, tasks := None, map[];
      rotations, everStored := [], if stored.Some? then {stored.value.access} else {};
    }

    method GetToken(task: TaskId)
      requires Enabled(View(), Action.GetToken(task))
      modifies this`tasks
      ensures View() == Next(old(View()), Action.GetToken(task))
    {
      if stored.None? {
        tasks := tasks[task := AuthErrorRaised];
      } else if !IsExpired(stored.value, now, skew) {
        tasks := tasks[task := Returned(stored.value.access)];
      } else {
        tasks := tasks[task := Waiting(stored.value, true)];
      }
    }

    method OnUnauthorized(task: TaskId)
      requires Enabled(View(), Action.OnUnauthorized(task))
      modifies this`tasks
      ensures View() == Next(old(View()), Action.OnUnauthorized(task))
    {
      if stored.None? || !Truthy(stored.value.refresh) {
        tasks := tasks[task := RetryAnswer(false)];
      } else {
        tasks := tasks[task := Waiting(stored.value, false)];
      }
    }

    method EnterRefresh(task: TaskId)
      requires Enabled(View(), Action.EnterRefresh(task))
      modifies this`tasks, this`lock
      ensures View() == Next(old(View()), Action.EnterRefresh(task))
    {
      var Waiting(seen, proactive) := tasks[task];
      lock := Some(task);
      var result: Option<string> := None;
      if stored.Some? {
        var current := stored.value;
        if current.access != seen.access {
          result := Some(current.access);
        } else if proactive && !IsExpired(current, now, skew) {
          result := Some(current.access);
        } else if Truthy(current.refresh) {
          tasks := tasks[task := Refreshing(seen, proactive, current)];
          return;
        }
      }
      tasks := tasks[task := Finish(proactive, result)];
      lock := None;
    }

    method FinishRefresh(task: TaskId, answer: ServerAnswer)
      requires Enabled(View(), Action.FinishRefresh(task, answer))
      modifies this
      ensures View() == Next(old(View()), Action.FinishRefresh(task, answer))
    {
      var Refreshing(seen, proactive, current) := tasks[task];
      match answer {
        case Rejected =>
          tasks := tasks[task := Finish(proactive, None)];
        case Granted(response) =>
          var rotated := ToToken(response, current.refresh, current.scopes, now);
          stored := Some(rotated);
          rotations := rotations + [Rotation(seen.access, current.refresh, current, rotated)];
          everStored := everStored + {rotated.access};
          tasks := tasks[task := Finish(proactive, Some(rotated.access))];
      }
      lock := None;
    }
  }
}
