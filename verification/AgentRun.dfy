/** One agent run: the loop from model to tools and back. */
module AgentRun {
  import opened Options
  import opened Sets
  import opened StableSort
  import opened ToolGateway

  const MAX_HISTORY_TURNS := 20

  datatype Role = USER | ASSISTANT | SYSTEM

  datatype SessionMessage = SessionMessage(role: Role, content: string)

  /** A turn as the model reads it. */
  datatype Turn =
    | UserTurn(content: string)
    | AssistantTurn(content: string, calls: seq<Call>)
    | ToolTurn(content: string, callId: int, name: string)

  /** A tool's output: text, or a value given by its JSON text. */
  datatype Output = Text(text: string) | Json(text: string)

  datatype Outcome = Outcome(success: bool, output: Output, error: Option<string>)

  datatype Record = Record(name: string, params: string, result: Option<Output>, error: Option<string>)

  datatype Response = Response(content: string, calls: seq<Call>, inputTokens: int, outputTokens: int)

  /** The environment of one run: what the model answers to its `i`-th request (`None` if the model gateway
      raises), what dispatching the `k`-th call of that answer gives, and how arguments parse. */
  datatype Environment = Environment(
    complete: nat -> Option<Response>,
    dispatch: (nat, nat) -> Outcome,
    parse: string -> Option<string>,
    hasGateway: bool
  )

  datatype End = Answered(content: string, capHit: bool) | ModelRaised | NoToolGateway

  /** `_tool_result_message`: an empty error text reads as no error text. */
  function ResultTurn(call: Call, o: Outcome): Turn {
    if o.success then ToolTurn(o.output.text, call.id, call.name)
    else
      var why := if o.error.Some? && o.error.value != "" then o.error.value else "tool failed";
      ToolTurn("Error: " + why, call.id, call.name)
  }

  /** `_record_tool_call`. */
  function RecordOf(parse: string -> Option<string>, call: Call, o: Outcome): Record {
    var params := parse(if call.arguments == "" then "{}" else call.arguments);
    Record(call.name, if params.Some? then params.value else "{}", if o.success then Some(o.output) else None, o.error)
  }

  function ResultTurns(env: Environment, i: nat, calls: seq<Call>, n: nat): seq<Turn>
    requires n <= |calls|
  {
    if n == 0 then [] else ResultTurns(env, i, calls, n - 1) + [ResultTurn(calls[n - 1], env.dispatch(i, n - 1))]
  }

  function RecordsOf(env: Environment, i: nat, calls: seq<Call>, n: nat): seq<Record>
    requires n <= |calls|
  {
    if n == 0 then []
    else RecordsOf(env, i, calls, n - 1) + [RecordOf(env.parse, calls[n - 1], env.dispatch(i, n - 1))]
  }

  /** What the `i`-th response, with its tool calls carried out, adds to the history. */
  function RoundTurns(env: Environment, i: nat, r: Response): seq<Turn> {
    [AssistantTurn(r.content, r.calls)] + ResultTurns(env, i, r.calls, |r.calls|)
  }

  /** The observable course of a run: the history sent with each request, the responses, the session records. */
  datatype Course = Course(requests: seq<seq<Turn>>, responses: seq<Response>, records: seq<Record>, end: End)

  /** Another request follows the `i`-th. */
  predicate GoesOn(env: Environment, limit: nat, i: nat) {
    var a := env.complete(i);
    a.Some? && a.value.calls != [] && i + 1 < limit && env.hasGateway
  }

  /** How the run ends if the `i`-th request is the last. A tool call without a gateway to carry it out trips
      an assertion. */
  function EndAt(env: Environment, limit: nat, i: nat): End {
    match env.complete(i)
    case None => ModelRaised
    case Some(r) =>
      if r.calls == [] then Answered(r.content, false)
      else if i + 1 >= limit then Answered(r.content, true)
      else NoToolGateway
  }

  function CourseFrom(env: Environment, limit: nat, i: nat, history: seq<Turn>): Course
    decreases limit - i
  {
    var got := if env.complete(i).Some? then [env.complete(i).value] else [];
    if !GoesOn(env, limit, i) then Course([history], got, [], EndAt(env, limit, i))
    else
      var r := env.complete(i).value;
      var rest := CourseFrom(env, limit, i + 1, history + RoundTurns(env, i, r));
      Course([history] + rest.requests, [r] + rest.responses, RecordsOf(env, i, r.calls, |r.calls|) + rest.records,
             rest.end)
  }

  function Conversation(messages: seq<SessionMessage>): seq<Turn> {
    if messages == [] then []
    else
      var m := messages[|messages| - 1];
      Conversation(messages[..|messages| - 1])
      + (match m.role
         case USER => [UserTurn(m.content)]
         case ASSISTANT => [AssistantTurn(m.content, [])]
         case SYSTEM => [])
  }

  /** The last forty turns of the conversation. */
  function Recent(turns: seq<Turn>): seq<Turn> {
    if |turns| <= MAX_HISTORY_TURNS * 2 then turns else turns[|turns| - MAX_HISTORY_TURNS * 2..]
  }

  /** The course of a run on a session with these messages, the prompt being the last. */
  function RunCourse(env: Environment, limit: nat, messages: seq<SessionMessage>): Course {
    CourseFrom(env, limit, 0, Recent(Conversation(messages)))
  }

  function Limit(maxToolIterations: int): nat {
    if maxToolIterations < 1 then 1 else maxToolIterations
  }

  function InputTotal(responses: seq<Response>): int {
    if responses == [] then 0 else InputTotal(responses[..|responses| - 1]) + responses[|responses| - 1].inputTokens
  }

  function OutputTotal(responses: seq<Response>): int {
    if responses == [] then 0 else OutputTotal(responses[..|responses| - 1]) + responses[|responses| - 1].outputTokens
  }

  /** The course of a run as the loop accumulates it: `c` is what has happened so far. */
  function Proceed(env: Environment, limit: nat, i: nat, history: seq<Turn>, c: Course): Course
    decreases limit - i
  {
    var a := env.complete(i);
    if !GoesOn(env, limit, i) then
      Course(c.requests + [history], if a.Some? then c.responses + [a.value] else c.responses, c.records,
             EndAt(env, limit, i))
    else
      var r := a.value;
      Proceed(env, limit, i + 1, history + RoundTurns(env, i, r),
              Course(c.requests + [history], c.responses + [r], c.records + RecordsOf(env, i, r.calls, |r.calls|),
                     c.end))
  }

  lemma {:induction false} ProceedIsCourse(env: Environment, limit: nat, i: nat, history: seq<Turn>, c: Course)
    ensures var rest := CourseFrom(env, limit, i, history);
            Proceed(env, limit, i, history, c)
            == Course(c.requests + rest.requests, c.responses + rest.responses, c.records + rest.records, rest.end)
    decreases limit - i
  {
    if GoesOn(env, limit, i) {
      var r := env.complete(i).value;
      var added := RecordsOf(env, i, r.calls, |r.calls|);
      var next := history + RoundTurns(env, i, r);
      var rest := CourseFrom(env, limit, i + 1, next);
      ProceedIsCourse(env, limit, i + 1, next,
                      Course(c.requests + [history], c.responses + [r], c.records + added, c.end));
      Associative(c.requests, [history], rest.requests);
      Associative(c.responses, [r], rest.responses);
      Associative(c.records, added, rest.records);
    }
  }

  lemma TotalsSnoc(responses: seq<Response>, r: Response)
    ensures InputTotal(responses + [r]) == InputTotal(responses) + r.inputTokens
    ensures OutputTotal(responses + [r]) == OutputTotal(responses) + r.outputTokens
  {
    assert (responses + [r])[..|responses|] == responses;
  }

  /** The totals add up over any way of cutting the run in two. */
  lemma {:induction false} TotalsAddUp(a: seq<Response>, b: seq<Response>)
    ensures InputTotal(a + b) == InputTotal(a) + InputTotal(b)
    ensures OutputTotal(a + b) == OutputTotal(a) + OutputTotal(b)
    ensures forall r :: InputTotal([r]) == r.inputTokens && OutputTotal([r]) == r.outputTokens
    ensures InputTotal([]) == 0 && OutputTotal([]) == 0
  {
    forall r: Response
      ensures InputTotal([r]) == r.inputTokens && OutputTotal([r]) == r.outputTokens
    {
      assert [r][..0] == [];
    }
    if b == [] {
      assert a + b == a;
    } else {
      var init, last := b[..|b| - 1], b[|b| - 1];
      assert a + b == (a + init) + [last];
      TotalsAddUp(a, init);
      TotalsSnoc(a + init, last);
    }
  }

  class Session {
    var messages: seq<SessionMessage>
    var toolCalls: seq<Record>
    var totalInputTokens: int
    var totalOutputTokens: int

    constructor ()
      ensures messages == [] && toolCalls == [] && totalInputTokens == 0 && totalOutputTokens == 0
    {
      messages, toolCalls, totalInputTokens, totalOutputTokens := [], [], 0, 0;
    }
  }

  class Agent {
    const maxToolIterations: nat

    constructor (maxToolIterations: int)
      ensures this.maxToolIterations == if maxToolIterations < 1 then 1 else maxToolIterations
    {
      this.maxToolIterations := Limit(maxToolIterations);
    }

    /** Carries out the calls of one response: each result becomes a turn and a session record. */
    method RunCalls(env: Environment, i: nat, calls: seq<Call>, history: seq<Turn>, session: Session)
      returns (h: seq<Turn>)
      modifies session`toolCalls
      ensures h == history + ResultTurns(env, i, calls, |calls|)
      ensures session.toolCalls == old(session.toolCalls) + RecordsOf(env, i, calls, |calls|)
    {
      h := history;
      for k := 0 to |calls|
        invariant h == history + ResultTurns(env, i, calls, k)
        invariant session.toolCalls == old(session.toolCalls) + RecordsOf(env, i, calls, k)
      {
        var outcome := env.dispatch(i, k);
        h := h + [ResultTurn(calls[k], outcome)];
        session.toolCalls := session.toolCalls + [RecordOf(env.parse, calls[k], outcome)];
      }
    }

    /** One round: the assistant turn with its calls, then the result of each. */
    method RunRound(env: Environment, i: nat, response: Response, history: seq<Turn>, session: Session)
      returns (h: seq<Turn>)
      modifies session`toolCalls
      ensures h == history + RoundTurns(env, i, response)
      ensures session.toolCalls == old(session.toolCalls) + RecordsOf(env, i, response.calls, |response.calls|)
    {
      h := history + [AssistantTurn(response.content, response.calls)];
      h := RunCalls(env, i, response.calls, h, session);
    }

    /** The loop of `run`, over the history of the conversation so far. `requests` is what the model was sent. */
    method Loop(env: Environment, start: seq<Turn>, session: Session)
      returns (end: End, requests: seq<seq<Turn>>, ghost responses: seq<Response>, inputTokens: int, outputTokens: int)
      requires maxToolIterations >= 1
      modifies session`toolCalls
      ensures Course(requests, responses, session.toolCalls, end)
           == Proceed(env, maxToolIterations, 0, start, Course([], [], old(session.toolCalls), ModelRaised))
      ensures inputTokens == InputTotal(responses) && outputTokens == OutputTotal(responses)
    {
      requests, responses, inputTokens, outputTokens := [], [], 0, 0;
      ghost var whole := Proceed(env, maxToolIterations, 0, start, Course([], [], session.toolCalls, ModelRaised));
      var history := start;
      var iterations: nat := 0;
      var answer: Option<Response> := None;
      while true
        invariant iterations < maxToolIterations
        invariant inputTokens == InputTotal(responses) && outputTokens == OutputTotal(responses)
        invariant whole == Proceed(env, maxToolIterations, iterations, history,
                                   Course(requests, responses, session.toolCalls, ModelRaised))
        decreases maxToolIterations - iterations
      {
        requests := requests + [history];
        answer := env.complete(iterations);
        if answer.Some? {
          TotalsSnoc(responses, answer.value);
          responses := responses + [answer.value];
          inputTokens := inputTokens + answer.value.inputTokens;
          outputTokens := outputTokens + answer.value.outputTokens;
        }
        if answer.None? || answer.value.calls == [] || iterations + 1 >= maxToolIterations || !env.hasGateway {
          break;
        }
        history := RunRound(env, iterations, answer.value, history, session);
        iterations := iterations + 1;
      }
      if answer.None? {
        end := ModelRaised;
      } else if answer.value.calls == [] || iterations + 1 >= maxToolIterations {
        end := Answered(answer.value.content, answer.value.calls != []);
      } else {
        end := NoToolGateway;
      }
    }

    /** A run that ends by an exception leaves the prompt and the tool records made so far, and no answer. */
    method Run(env: Environment, prompt: string, session: Session)
      returns (end: End, requests: seq<seq<Turn>>, ghost responses: seq<Response>, ghost records: seq<Record>)
      requires maxToolIterations >= 1
      modifies session
      ensures var asked := old(session.messages) + [SessionMessage(USER, prompt)];
              && Course(requests, responses, records, end) == RunCourse(env, maxToolIterations, asked)
              && session.messages == asked + (if end.Answered? then [SessionMessage(ASSISTANT, end.content)] else [])
      ensures session.toolCalls == old(session.toolCalls) + records
      ensures end.Answered? ==>
                session.totalInputTokens == InputTotal(responses) && session.totalOutputTokens == OutputTotal(responses)
      ensures !end.Answered? ==>
                && session.totalInputTokens == old(session.totalInputTokens)
                && session.totalOutputTokens == old(session.totalOutputTokens)
    {
      session.messages := session.messages + [SessionMessage(USER, prompt)];
      var inputTokens, outputTokens;
      var history := Recent(Conversation(session.messages));
      ProceedIsCourse(env, maxToolIterations, 0, history, Course([], [], session.toolCalls, ModelRaised));
      records := CourseFrom(env, maxToolIterations, 0, history).records;
      end, requests, responses, inputTokens, outputTokens := Loop(env, history, session);
      if end.Answered? {
        session.messages := session.messages + [SessionMessage(ASSISTANT, end.content)];
        session.totalInputTokens := inputTokens;
        session.totalOutputTokens := outputTokens;
      }
    }
  }

  // ---------------------------------------------------------------------------
  // Properties of every run
  // ---------------------------------------------------------------------------

  /** How many rounds of tool calls were carried out. */
  function Rounds(c: Course): int {
    |c.requests| - 1
  }

  /** Between one and `limit` model calls, so at most `limit - 1` rounds; every round carried out answers a
      response that asked for tools; and the cap is hit exactly when the last allowed response asks for more. */
  lemma {:induction false} RequestsAreBounded(env: Environment, limit: nat, i: nat, history: seq<Turn>)
    requires i < limit
    ensures var c := CourseFrom(env, limit, i, history);
            && 1 <= |c.requests| <= limit - i
            && |c.responses| == (if c.end.ModelRaised? then |c.requests| - 1 else |c.requests|)
            && (forall k :: 0 <= k < |c.responses| ==> env.complete(i + k) == Some(c.responses[k]))
            && (forall k :: 0 <= k < Rounds(c) ==> c.responses[k].calls != [])
            && (c.end.Answered? && c.end.capHit <==>
                  |c.responses| == limit - i && c.responses[limit - i - 1].calls != [])
    decreases limit - i
  {
    if GoesOn(env, limit, i) {
      RequestsAreBounded(env, limit, i + 1, history + RoundTurns(env, i, env.complete(i).value));
    }
  }

  /** Every assistant turn is followed by exactly one tool turn per call it carries, in the same order, with
      the same ids and names, before anything else; and there are no other tool turns. */
  predicate WellPaired(h: seq<Turn>)
    decreases |h|
  {
    h == [] ||
    match h[0]
    case UserTurn(_) => WellPaired(h[1..])
    case ToolTurn(_, _, _) => false
    case AssistantTurn(_, calls) => Answers(h[1..], calls) && WellPaired(h[1..][|calls|..])
  }

  /** The turns begin with one answer to each call, in order. */
  predicate Answers(turns: seq<Turn>, calls: seq<Call>) {
    |calls| <= |turns| && forall k :: 0 <= k < |calls| ==> AnswersCall(turns[k], calls[k])
  }

  predicate AnswersCall(t: Turn, call: Call) {
    t.ToolTurn? && t.callId == call.id && t.name == call.name
  }

  lemma {:induction false} WellPairedConcat(a: seq<Turn>, b: seq<Turn>)
    requires WellPaired(a) && WellPaired(b)
    ensures WellPaired(a + b)
    decreases |a|
  {
    if a == [] {
      assert a + b == b;
    } else {
      assert (a + b)[0] == a[0] && (a + b)[1..] == a[1..] + b;
      if a[0].AssistantTurn? {
        var n := |a[0].calls|;
        assert (a[1..] + b)[n..] == a[1..][n..] + b;
        WellPairedConcat(a[1..][n..], b);
      } else {
        WellPairedConcat(a[1..], b);
      }
    }
  }

  lemma {:induction false} ResultTurnsAnswer(env: Environment, i: nat, calls: seq<Call>, n: nat)
    requires n <= |calls|
    ensures |ResultTurns(env, i, calls, n)| == n
    ensures forall k :: 0 <= k < n ==> ResultTurns(env, i, calls, n)[k] == ResultTurn(calls[k], env.dispatch(i, k))
  {
    if n > 0 {
      ResultTurnsAnswer(env, i, calls, n - 1);
    }
  }

  lemma RoundIsWellPaired(env: Environment, i: nat, r: Response)
    ensures WellPaired(RoundTurns(env, i, r))
  {
    ResultTurnsAnswer(env, i, r.calls, |r.calls|);
    var turns := ResultTurns(env, i, r.calls, |r.calls|);
    assert RoundTurns(env, i, r)[1..] == turns;
    assert Answers(turns, r.calls);
    assert turns[|r.calls|..] == [];
  }

  /** In every request sent to the model, every tool call is already answered, once and in order. */
  lemma {:induction false} RequestsAreWellPaired(env: Environment, limit: nat, i: nat, history: seq<Turn>, k: nat)
    requires i < limit && WellPaired(history)
    requires k < |CourseFrom(env, limit, i, history).requests|
    ensures WellPaired(CourseFrom(env, limit, i, history).requests[k])
    decreases k
  {
    if k > 0 {
      var r := env.complete(i).value;
      var next := history + RoundTurns(env, i, r);
      RoundIsWellPaired(env, i, r);
      WellPairedConcat(history, RoundTurns(env, i, r));
      LaterRequests(env, limit, i, history, k);
      RequestsAreWellPaired(env, limit, i + 1, next, k - 1);
    }
  }

  lemma LaterRequests(env: Environment, limit: nat, i: nat, history: seq<Turn>, k: nat)
    requires 0 < k < |CourseFrom(env, limit, i, history).requests|
    ensures GoesOn(env, limit, i)
    ensures var rest := CourseFrom(env, limit, i + 1, history + RoundTurns(env, i, env.complete(i).value));
            k - 1 < |rest.requests| && CourseFrom(env, limit, i, history).requests[k] == rest.requests[k - 1]
  {
  }

  lemma {:induction false} ConversationHasNoTools(messages: seq<SessionMessage>)
    ensures forall t :: t in Conversation(messages) ==> !t.ToolTurn? && (t.AssistantTurn? ==> t.calls == [])
  {
    if messages != [] {
      ConversationHasNoTools(messages[..|messages| - 1]);
    }
  }

  lemma {:induction false} PlainTurnsAreWellPaired(h: seq<Turn>)
    requires forall t :: t in h ==> !t.ToolTurn? && (t.AssistantTurn? ==> t.calls == [])
    ensures WellPaired(h)
  {
    if h != [] {
      assert h[0] in h;
      PlainTurnsAreWellPaired(h[1..]);
    }
  }

  /** The same for a whole run, whatever the session held before. */
  lemma RunIsWellPaired(env: Environment, maxToolIterations: int, messages: seq<SessionMessage>, k: nat)
    ensures var c := RunCourse(env, Limit(maxToolIterations), messages);
            k < |c.requests| ==> WellPaired(c.requests[k])
  {
    ConversationHasNoTools(messages);
    PlainTurnsAreWellPaired(Recent(Conversation(messages)));
    if k < |CourseFrom(env, Limit(maxToolIterations), 0, Recent(Conversation(messages))).requests| {
      RequestsAreWellPaired(env, Limit(maxToolIterations), 0, Recent(Conversation(messages)), k);
    }
  }

  // ---------------------------------------------------------------------------
  // What the model is sent, and what the caller gets
  // ---------------------------------------------------------------------------

  function NotSystem(): SessionMessage -> bool {
    (m: SessionMessage) => m.role != SYSTEM
  }

  /** The turn gives one message of the session: who spoke, and what. */
  predicate Shows(t: Turn, m: SessionMessage) {
    || (m.role == USER && t == UserTurn(m.content))
    || (m.role == ASSISTANT && t == AssistantTurn(m.content, []))
  }

  lemma {:induction false} ConversationShows(messages: seq<SessionMessage>)
    ensures var spoken := Filter(messages, NotSystem());
            && |Conversation(messages)| == |spoken|
            && forall k :: 0 <= k < |spoken| ==> Shows(Conversation(messages)[k], spoken[k])
  {
    if messages != [] {
      var init, m := messages[..|messages| - 1], messages[|messages| - 1];
      ConversationShows(init);
      FilterConcat(init, [m], NotSystem());
      assert messages == init + [m] && [m][1..] == [];
    }
  }

  /** The turns give the last forty messages, or all if there are fewer, in order and as they were said. */
  ghost predicate ShowsLastForty(sent: seq<Turn>, spoken: seq<SessionMessage>) {
    && |sent| == (if |spoken| <= 40 then |spoken| else 40)
    && forall k :: 0 <= k < |sent| ==> Shows(sent[k], spoken[|spoken| - |sent| + k])
  }

  lemma RecentShows(messages: seq<SessionMessage>)
    ensures ShowsLastForty(Recent(Conversation(messages)), Filter(messages, NotSystem()))
  {
    ConversationShows(messages);
  }

  /** The first request carries the last forty things said in the session, by either side, in order and as they were
      said; with the prompt as the last. */
  lemma PromptReachesModel(env: Environment, limit: nat, messages: seq<SessionMessage>)
    requires limit >= 1
    ensures var c := RunCourse(env, limit, messages);
            && c.requests != []
            && ShowsLastForty(c.requests[0], Filter(messages, NotSystem()))
            && (messages != [] && messages[|messages| - 1].role == USER ==>
                  c.requests[0] != []
                  && c.requests[0][|c.requests[0]| - 1] == UserTurn(messages[|messages| - 1].content))
  {
    var sent := Recent(Conversation(messages));
    FirstRequest(env, limit, 0, sent);
    RecentShows(messages);
    if messages != [] && messages[|messages| - 1].role == USER {
      LastIsSpoken(messages);
      assert Shows(sent[|sent| - 1], messages[|messages| - 1]);
    }
  }

  lemma FirstRequest(env: Environment, limit: nat, i: nat, history: seq<Turn>)
    ensures CourseFrom(env, limit, i, history).requests != []
    ensures CourseFrom(env, limit, i, history).requests[0] == history
  {
  }

  lemma LastIsSpoken(messages: seq<SessionMessage>)
    requires messages != [] && messages[|messages| - 1].role != SYSTEM
    ensures var spoken := Filter(messages, NotSystem());
            spoken != [] && spoken[|spoken| - 1] == messages[|messages| - 1]
  {
    var init, m := messages[..|messages| - 1], messages[|messages| - 1];
    FilterConcat(init, [m], NotSystem());
    assert messages == init + [m] && [m][1..] == [];
  }

  /** One tool turn for each call, in order, telling what the call gave. */
  ghost predicate AllTell(turns: seq<Turn>, calls: seq<Call>, dispatched: nat -> Outcome) {
    && |turns| == |calls|
    && forall j :: 0 <= j < |calls| ==> TurnTells(turns[j], Done(calls[j], dispatched(j)))
  }

  /** The request after `before`: the model's answer `r` is added with its tool calls, and what each call gave. */
  ghost predicate Extends(before: seq<Turn>, after: seq<Turn>, r: Response, dispatched: nat -> Outcome) {
    var said := before + [AssistantTurn(r.content, r.calls)];
    said <= after && AllTell(after[|said|..], r.calls, dispatched)
  }

  function DispatchedIn(env: Environment, round: nat): nat -> Outcome {
    (j: nat) => env.dispatch(round, j)
  }

  lemma RoundExtends(env: Environment, i: nat, r: Response, history: seq<Turn>)
    ensures Extends(history, history + RoundTurns(env, i, r), r, DispatchedIn(env, i))
  {
    var said, results := history + [AssistantTurn(r.content, r.calls)], ResultTurns(env, i, r.calls, |r.calls|);
    ResultsTell(env, i, r.calls);
    assert history + RoundTurns(env, i, r) == said + results;
    assert (said + results)[|said|..] == results;
  }

  lemma ResultsTell(env: Environment, i: nat, calls: seq<Call>)
    ensures AllTell(ResultTurns(env, i, calls, |calls|), calls, DispatchedIn(env, i))
  {
    ResultTurnsAnswer(env, i, calls, |calls|);
  }

  /** The course's request after the `k`-th extends it; the course began with round `i`. */
  ghost predicate ExtendsAt(env: Environment, c: Course, i: nat, k: nat) {
    && k + 1 < |c.requests| && k < |c.responses|
    && Extends(c.requests[k], c.requests[k + 1], c.responses[k], DispatchedIn(env, i + k))
  }

  lemma FirstExtends(env: Environment, limit: nat, i: nat, history: seq<Turn>)
    requires GoesOn(env, limit, i)
    ensures ExtendsAt(env, CourseFrom(env, limit, i, history), i, 0)
  {
    var r := env.complete(i).value;
    FirstRequest(env, limit, i, history);
    FirstRequest(env, limit, i + 1, history + RoundTurns(env, i, r));
    RoundExtends(env, i, r, history);
  }

  lemma LaterExtends(env: Environment, c: Course, rest: Course, i: nat, k: nat)
    requires 0 < k && ExtendsAt(env, rest, i + 1, k - 1)
    requires c.requests != [] && c.requests[1..] == rest.requests
    requires c.responses != [] && c.responses[1..] == rest.responses
    ensures ExtendsAt(env, c, i, k)
  {
    assert c.requests[1..][k - 1] == c.requests[k] && c.requests[1..][k] == c.requests[k + 1];
    assert c.responses[1..][k - 1] == c.responses[k];
    assert i + 1 + (k - 1) == i + k;
  }

  lemma RestOfCourse(env: Environment, limit: nat, i: nat, history: seq<Turn>)
    requires GoesOn(env, limit, i)
    ensures var c := CourseFrom(env, limit, i, history);
            var rest := CourseFrom(env, limit, i + 1, history + RoundTurns(env, i, env.complete(i).value));
            && c.requests != [] && c.requests[1..] == rest.requests
            && c.responses != [] && c.responses[1..] == rest.responses
  {
  }

  lemma {:induction false} ExtendsThroughout(env: Environment, limit: nat, i: nat, history: seq<Turn>, k: nat)
    requires i < limit && k + 1 < |CourseFrom(env, limit, i, history).requests|
    ensures ExtendsAt(env, CourseFrom(env, limit, i, history), i, k)
    decreases k
  {
    var next := history + if GoesOn(env, limit, i) then RoundTurns(env, i, env.complete(i).value) else [];
    if k == 0 {
      FirstExtends(env, limit, i, history);
    } else {
      RestOfCourse(env, limit, i, history);
      ExtendsThroughout(env, limit, i + 1, next, k - 1);
      LaterExtends(env, CourseFrom(env, limit, i, history), CourseFrom(env, limit, i + 1, next), i, k);
    }
  }

  /** Each request after the first is the one before it, the model's answer to that with its tool calls, and what each
      call gave. */
  lemma RequestsExtend(env: Environment, limit: nat, i: nat, history: seq<Turn>, k: nat)
    requires i < limit && k + 1 < |CourseFrom(env, limit, i, history).requests|
    ensures var c := CourseFrom(env, limit, i, history);
            && k < |c.responses|
            && Extends(c.requests[k], c.requests[k + 1], c.responses[k], DispatchedIn(env, i + k))
  {
    ExtendsThroughout(env, limit, i, history, k);
  }

  /** What the caller gets: the text of the last answer, if that asked for no tool or was the last allowed; otherwise
      the error of the model, or of a missing tool gateway. */
  lemma {:induction false} EndExactly(env: Environment, limit: nat, i: nat, history: seq<Turn>)
    requires i < limit
    ensures var c := CourseFrom(env, limit, i, history);
            var last := env.complete(i + |c.requests| - 1);
            && |c.requests| >= 1
            && (c.end == ModelRaised <==> last.None?)
            && (c.end.Answered? <==> last.Some? && (last.value.calls == [] || |c.requests| == limit - i))
            && (c.end.Answered? ==> c.end.content == last.value.content && c.end.capHit == (last.value.calls != []))
            && (last.Some? ==> c.responses != [] && c.responses[|c.responses| - 1] == last.value)
    decreases limit - i
  {
    if GoesOn(env, limit, i) {
      EndExactly(env, limit, i + 1, history + RoundTurns(env, i, env.complete(i).value));
    }
  }

  /** The tool turns of a history, in order. */
  function ToolTurns(h: seq<Turn>): seq<Turn> {
    if h == [] then [] else ToolTurns(h[..|h| - 1]) + (if h[|h| - 1].ToolTurn? then [h[|h| - 1]] else [])
  }

  lemma {:induction false} ToolTurnsConcat(a: seq<Turn>, b: seq<Turn>)
    ensures ToolTurns(a + b) == ToolTurns(a) + ToolTurns(b)
    decreases |b|
  {
    if b == [] {
      assert a + b == a;
    } else {
      assert (a + b)[..|a + b| - 1] == a + b[..|b| - 1];
      ToolTurnsConcat(a, b[..|b| - 1]);
    }
  }

  lemma {:induction false} AllToolTurns(b: seq<Turn>)
    requires forall t :: t in b ==> t.ToolTurn?
    ensures ToolTurns(b) == b
  {
    if b != [] {
      AllToolTurns(b[..|b| - 1]);
      assert b == b[..|b| - 1] + [b[|b| - 1]];
    }
  }

  /** A call with what its dispatch gave. */
  datatype Done = Done(call: Call, outcome: Outcome)

  function DoneInRound(env: Environment, i: nat, calls: seq<Call>, n: nat): seq<Done>
    requires n <= |calls|
  {
    if n == 0 then [] else DoneInRound(env, i, calls, n - 1) + [Done(calls[n - 1], env.dispatch(i, n - 1))]
  }

  /** The calls of these responses, the answers to the requests from the `i`-th on, each with what dispatching it
      gave; in order. */
  function DoneFrom(env: Environment, i: nat, responses: seq<Response>): seq<Done>
    decreases |responses|
  {
    if responses == [] then []
    else
      var calls := responses[0].calls;
      DoneInRound(env, i, calls, |calls|) + DoneFrom(env, i + 1, responses[1..])
  }

  /** The record and the turn of one carried-out call tell what its dispatch gave: its output if it succeeded,
      otherwise its error. */
  predicate Agrees(parse: string -> Option<string>, r: Record, t: Turn, d: Done) {
    TurnTells(t, d) && RecordTells(parse, r, d)
  }

  predicate TurnTells(t: Turn, d: Done) {
    && t.ToolTurn? && t.callId == d.call.id && t.name == d.call.name
    && (d.outcome.success ==> t.content == d.outcome.output.text)
    && (!d.outcome.success ==>
          t.content == "Error: " + (if d.outcome.error.Some? && d.outcome.error.value != "" then d.outcome.error.value
                                    else "tool failed"))
  }

  predicate RecordTells(parse: string -> Option<string>, r: Record, d: Done) {
    && r.name == d.call.name && r.error == d.outcome.error
    && (r.result.Some? <==> d.outcome.success) && (r.result.Some? ==> r.result.value == d.outcome.output)
    && (d.call.arguments != "" && parse(d.call.arguments).Some? ==> r.params == parse(d.call.arguments).value)
    && (d.call.arguments == "" && parse("{}").Some? ==> r.params == parse("{}").value)
    && (parse(if d.call.arguments == "" then "{}" else d.call.arguments).None? ==> r.params == "{}")
  }

  ghost predicate AllAgree(parse: string -> Option<string>, records: seq<Record>, turns: seq<Turn>, done: seq<Done>) {
    && |records| == |turns| == |done|
    && (forall k :: 0 <= k < |done| ==> Agrees(parse, records[k], turns[k], done[k]))
  }

  lemma AllAgreeConcat(parse: string -> Option<string>, r1: seq<Record>, t1: seq<Turn>, d1: seq<Done>,
                       r2: seq<Record>, t2: seq<Turn>, d2: seq<Done>)
    requires AllAgree(parse, r1, t1, d1) && AllAgree(parse, r2, t2, d2)
    ensures AllAgree(parse, r1 + r2, t1 + t2, d1 + d2)
  {
  }

  lemma {:induction false} RoundAgrees(env: Environment, i: nat, calls: seq<Call>, n: nat)
    requires n <= |calls|
    ensures AllAgree(env.parse, RecordsOf(env, i, calls, n), ResultTurns(env, i, calls, n),
                     DoneInRound(env, i, calls, n))
  {
    if n > 0 {
      RoundAgrees(env, i, calls, n - 1);
    }
  }

  lemma RoundToolTurns(env: Environment, i: nat, r: Response, history: seq<Turn>)
    ensures ToolTurns(history + RoundTurns(env, i, r)) == ToolTurns(history) + ResultTurns(env, i, r.calls, |r.calls|)
  {
    var first, now := [AssistantTurn(r.content, r.calls)], ResultTurns(env, i, r.calls, |r.calls|);
    ResultTurnsAreTools(env, i, r.calls, |r.calls|);
    AllToolTurns(now);
    AssistantTurnIsNoTool(r.content, r.calls);
    ToolTurnsConcat(first, now);
    ToolTurnsConcat(history, RoundTurns(env, i, r));
  }

  lemma AssistantTurnIsNoTool(content: string, calls: seq<Call>)
    ensures ToolTurns([AssistantTurn(content, calls)]) == []
  {
    assert [AssistantTurn(content, calls)][..0] == [];
  }

  lemma ResultTurnsAreTools(env: Environment, i: nat, calls: seq<Call>, n: nat)
    requires n <= |calls|
    ensures forall t :: t in ResultTurns(env, i, calls, n) ==> t.ToolTurn?
  {
  }

  /** The session's new records, the new tool turns of the last request, and the dispatched calls of all but the last
      response correspond one to one, in order, and tell what the dispatch gave: nothing is run without being
      recorded and shown to the model, and nothing is shown that was not asked for. */
  lemma {:induction false} RecordsMatchTurns(env: Environment, limit: nat, i: nat, history: seq<Turn>)
    returns (turns: seq<Turn>)
    requires i < limit
    ensures var c := CourseFrom(env, limit, i, history);
            && 0 <= Rounds(c) <= |c.responses|
            && ToolTurns(c.requests[Rounds(c)]) == ToolTurns(history) + turns
            && AllAgree(env.parse, c.records, turns, DoneFrom(env, i, c.responses[..Rounds(c)]))
    decreases limit - i
  {
    RequestsAreBounded(env, limit, i, history);
    if GoesOn(env, limit, i) {
      var r := env.complete(i).value;
      var c, rest := CourseFrom(env, limit, i, history), CourseFrom(env, limit, i + 1, history + RoundTurns(env, i, r));
      var later := RecordsMatchTurns(env, limit, i + 1, history + RoundTurns(env, i, r));
      turns := ResultTurns(env, i, r.calls, |r.calls|) + later;
      LastRequest(env, limit, i, history);
      RoundToolTurns(env, i, r, history);
      RoundAndRestAgree(env, i, r, rest.records, later, rest.responses, Rounds(rest));
      assert c.responses[..Rounds(c)] == [r] + rest.responses[..Rounds(rest)];
    } else {
      turns := [];
    }
  }

  lemma LastRequest(env: Environment, limit: nat, i: nat, history: seq<Turn>)
    requires GoesOn(env, limit, i)
    ensures var c := CourseFrom(env, limit, i, history);
            var rest := CourseFrom(env, limit, i + 1, history + RoundTurns(env, i, env.complete(i).value));
            && Rounds(c) == Rounds(rest) + 1 && Rounds(rest) >= 0
            && c.requests[Rounds(c)] == rest.requests[Rounds(rest)]
  {
  }

  lemma RoundAndRestAgree(env: Environment, i: nat, r: Response, records: seq<Record>, turns: seq<Turn>,
                          responses: seq<Response>, n: nat)
    requires n <= |responses| && AllAgree(env.parse, records, turns, DoneFrom(env, i + 1, responses[..n]))
    ensures AllAgree(env.parse, RecordsOf(env, i, r.calls, |r.calls|) + records,
                     ResultTurns(env, i, r.calls, |r.calls|) + turns, DoneFrom(env, i, [r] + responses[..n]))
  {
    RoundAgrees(env, i, r.calls, |r.calls|);
    assert ([r] + responses[..n])[1..] == responses[..n];
    AllAgreeConcat(env.parse, RecordsOf(env, i, r.calls, |r.calls|), ResultTurns(env, i, r.calls, |r.calls|),
                   DoneInRound(env, i, r.calls, |r.calls|), records, turns, DoneFrom(env, i + 1, responses[..n]));
  }
}
