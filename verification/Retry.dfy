/** The one place the execute retry policy lives: a readiness retry inside the first
    attempt, and backed-off attempts for the actions whose rate limits are retried. */
module Retry {
  import opened Base
  import opened Composio
  import opened Json
  import opened Text
  import Prepare

  // All times in seconds.
  const POST_OAUTH_RETRY_DELAY: nat := 8
  const RATE_LIMIT_RETRY_TOOLS: seq<string> := ["SLACK_FETCH_CONVERSATION_HISTORY"]
  const RATE_LIMIT_MAX_ATTEMPTS: nat := 6
  const RATE_LIMIT_INITIAL_BACKOFF: nat := 2
  const RATE_LIMIT_MAX_BACKOFF: nat := 30
  const POST_OAUTH_NOT_READY: string := "connection error, try to authenticate"

  datatype Call = Call(tool: string, arguments: Json, connectionId: Option<string>)

  /** An `Err` is a call that got no answer at all. */
  type Reply = Result<Response, string>

  datatype Event = Called(call: Call, reply: Reply) | Slept(seconds: nat)

  datatype Failure = InvalidArguments(why: Prepare.Error) | NoAnswer(transport: string)

  /** The keyword tables behind failures: whether an error is a rate limit, and its wording. */
  datatype Wording = Wording(isRateLimit: (string, string) -> bool, format: (string, string) -> string)

  /** A route answers however it likes, even depending on all that went before. */
  class Route {
    const answer: (seq<Event>, Call) -> Reply
    var log: seq<Event>

    constructor (answer: (seq<Event>, Call) -> Reply)
      ensures this.answer == answer && log == []
    {
      this.answer, log := answer, [];
    }

    method Execute(call: Call) returns (reply: Reply)
      modifies this
      ensures reply == answer(old(log), call) && log == old(log) + [Called(call, reply)]
    {
      reply := answer(log, call);
      log := log + [Called(call, reply)];
    }

    method Sleep(seconds: nat)
      modifies this
      ensures log == old(log) + [Slept(seconds)]
    {
      log := log + [Slept(seconds)];
    }
  }

  // ---- The policy ----

  predicate Retryable(tool: string) {
    tool in RATE_LIMIT_RETRY_TOOLS
  }

  /** `is_post_oauth_not_ready`, of a reply. */
  predicate NotReady(reply: Reply) {
    && reply.Ok? && !reply.value.successful && reply.value.error.Some?
    && Occurs(Lower(reply.value.error.value), POST_OAUTH_NOT_READY)
  }

  function Reported(response: Response): string {
    match response.error case Some(error) => error case None => ""
  }

  /** A refusal that another attempt may get past. */
  predicate RateLimited(wording: Wording, tool: string, reply: Reply) {
    reply.Ok? && !reply.value.successful && wording.isRateLimit(tool, Reported(reply.value))
  }

  /** The wait before each further attempt: doubled every time, up to the cap. */
  function Backoff(k: nat): nat {
    if k == 0 then RATE_LIMIT_INITIAL_BACKOFF
    else
      var doubled := Backoff(k - 1) * 2;
      if doubled < RATE_LIMIT_MAX_BACKOFF then doubled else RATE_LIMIT_MAX_BACKOFF
  }

  /** How many of the replies belong to the readiness retry: the first, if it was not ready. */
  function Extra(said: seq<Reply>): nat {
    if said != [] && NotReady(said[0]) then 1 else 0
  }

  /** The wait after reply `k`. */
  function Pause(k: nat, extra: nat): nat {
    if k < extra then POST_OAUTH_RETRY_DELAY else Backoff(k - extra)
  }

  /** Every call, with the wait after it. */
  function Waited(call: Call, said: seq<Reply>, extra: nat): seq<Event> {
    if said == [] then []
    else
      var k := |said| - 1;
      Waited(call, said[..k], extra) + [Called(call, said[k]), Slept(Pause(k, extra))]
  }

  /** What goes on between the caller and the route when the replies are `said`. */
  function Events(call: Call, said: seq<Reply>): seq<Event>
    requires said != []
  {
    Waited(call, said[..|said| - 1], Extra(said)) + [Called(call, said[|said| - 1])]
  }

  /** The replies at which the policy asks again, and the one at which it stops. */
  ghost predicate ObeysPolicy(wording: Wording, tool: string, said: seq<Reply>) {
    && said != [] && |said| > Extra(said)
    && |said| - Extra(said) <= RATE_LIMIT_MAX_ATTEMPTS
    && (|said| - 1 > Extra(said) ==> Retryable(tool))
    && (forall k :: Extra(said) <= k < |said| - 1 ==> RateLimited(wording, tool, said[k]))
    && (|said| - Extra(said) == RATE_LIMIT_MAX_ATTEMPTS
        || !(Retryable(tool) && RateLimited(wording, tool, said[|said| - 1])))
  }

  // ---- The program ----

  /** `with_post_oauth_retry`. */
  method WithPostOauthRetry(route: Route, call: Call) returns (r: Reply, ghost said: seq<Reply>)
    modifies route
    ensures said != [] && |said| == 1 + Extra(said) && r == said[|said| - 1]
    ensures route.log == old(route.log) + Events(call, said)
  {
    r := route.Execute(call);
    said := [r];
    if !NotReady(r) {
      return;
    }
    route.Sleep(POST_OAUTH_RETRY_DELAY);
    r := route.Execute(call);
    said := said + [r];
    assert said[..1] == [said[0]];
    assert Waited(call, said[..1], 1) == [Called(call, said[0]), Slept(POST_OAUTH_RETRY_DELAY)];
  }

  /** `with_rate_limit_retry`. The call after its loop is never reached. */
  method WithRateLimitRetry(wording: Wording, route: Route, call: Call) returns (r: Reply, ghost said: seq<Reply>)
    modifies route
    ensures said != [] && ObeysPolicy(wording, call.tool, said) && r == said[|said| - 1]
    ensures route.log == old(route.log) + Events(call, said)
  {
    hide NotReady, RateLimited, Retryable, Extra, Waited, Events, Pause, ObeysPolicy;
    NothingWaited(call);
    var retryable := Retryable(call.tool);
    var delay := RATE_LIMIT_INITIAL_BACKOFF;
    said := [];
    for attempt := 1 to RATE_LIMIT_MAX_ATTEMPTS + 1
      invariant attempt <= RATE_LIMIT_MAX_ATTEMPTS
      invariant delay == Backoff(attempt - 1)
      invariant attempt == 1 <==> said == []
      invariant attempt > 1 ==> |said| == Extra(said) + attempt - 1
      invariant attempt > 1 ==> retryable
      invariant forall k :: Extra(said) <= k < |said| ==> RateLimited(wording, call.tool, said[k])
      invariant route.log == old(route.log) + Waited(call, said, Extra(said))
    {
      var response;
      if attempt == 1 {
        response, said := WithPostOauthRetry(route, call);
      } else {
        response := route.Execute(call);
        AskedAgain(call, said, response);
        said := said + [response];
      }
      assert route.log == old(route.log) + Events(call, said);
      assert said != [] && said[|said| - 1] == response && |said| == Extra(said) + attempt;
      assert forall k :: Extra(said) <= k < |said| - 1 ==> RateLimited(wording, call.tool, said[k]);
      RefusedOnly(wording, call.tool, response);
      if response.Err? || response.value.successful || !retryable || attempt == RATE_LIMIT_MAX_ATTEMPTS {
        PolicyObeyed(wording, call.tool, said, attempt);
        return response, said;
      }
      if !wording.isRateLimit(call.tool, Reported(response.value)) {
        PolicyObeyed(wording, call.tool, said, attempt);
        return response, said;
      }
      route.Sleep(delay);
      SleptOff(call, said);
      delay := if delay * 2 < RATE_LIMIT_MAX_BACKOFF then delay * 2 else RATE_LIMIT_MAX_BACKOFF;
    }
    assert false;
  }

  lemma NothingWaited(call: Call)
    ensures Waited(call, [], Extra([])) == []
  {
  }

  lemma AskedAgain(call: Call, said: seq<Reply>, reply: Reply)
    requires said != []
    ensures Extra(said + [reply]) == Extra(said)
    ensures Events(call, said + [reply]) == Waited(call, said, Extra(said)) + [Called(call, reply)]
  {
    assert (said + [reply])[..|said|] == said;
  }

  lemma SleptOff(call: Call, said: seq<Reply>)
    requires |said| > Extra(said)
    ensures Waited(call, said, Extra(said)) == Events(call, said) + [Slept(Backoff(|said| - 1 - Extra(said)))]
  {
  }

  lemma PolicyObeyed(wording: Wording, tool: string, said: seq<Reply>, attempt: nat)
    requires said != [] && |said| == Extra(said) + attempt && 1 <= attempt <= RATE_LIMIT_MAX_ATTEMPTS
    requires |said| - 1 > Extra(said) ==> Retryable(tool)
    requires forall k :: Extra(said) <= k < |said| - 1 ==> RateLimited(wording, tool, said[k])
    requires attempt < RATE_LIMIT_MAX_ATTEMPTS ==> !(Retryable(tool) && RateLimited(wording, tool, said[|said| - 1]))
    ensures ObeysPolicy(wording, tool, said)
  {
  }

  lemma RefusedOnly(wording: Wording, tool: string, reply: Reply)
    ensures RateLimited(wording, tool, reply) <==>
      reply.Ok? && !reply.value.successful && wording.isRateLimit(tool, Reported(reply.value))
  {
  }

  /** `format_failure`: a refusal is reworded, and nothing else about it changes. */
  function FormatFailure(wording: Wording, tool: string, response: Response): Response {
    if response.successful then response
    else
      var raw := match response.error case Some(error) => error case None => "provider reported failure";
      response.(error := Some(wording.format(tool, raw)))
  }

  /** What is asked for: the tool trimmed, its arguments prepared, a blank connection dropped. */
  function Asked(tool: string, prepared: Json, connectionId: Option<string>): Call {
    Call(Trim(tool), prepared,
      if connectionId.Some? && Trim(connectionId.value) != "" then Some(Trim(connectionId.value)) else None)
  }

  /** What is asked is the tool without the white space around it, with the prepared
      arguments, and for a connection if its name, trimmed as well, is not blank. */
  lemma AskedFor(tool: string, prepared: Json, connectionId: Option<string>)
    ensures var call := Asked(tool, prepared, connectionId);
      && Padded(tool, call.tool) && call.arguments == prepared
      && (call.connectionId.Some? <==> connectionId.Some? && exists c :: c in connectionId.value && !IsSpace(c))
      && (call.connectionId.Some? ==> Padded(connectionId.value, call.connectionId.value))
  {
    hide Trim, IsSpace, Padded;
    TrimCuts(tool, Trim(tool));
    if connectionId.Some? {
      TrimCuts(connectionId.value, Trim(connectionId.value));
      BlankIsSpace(connectionId.value);
    }
  }

  /** The answer with only the error of a refusal changed: it is the wording of the error
      reported, or of a stand-in where none was. */
  ghost predicate Reworded(wording: Wording, tool: string, response: Response, r: Response) {
    && r.(error := response.error) == response
    && (response.successful ==> r.error == response.error)
    && (!response.successful && response.error.Some? ==> r.error == Some(wording.format(tool, response.error.value)))
    && (!response.successful && response.error.None? ==>
          r.error == Some(wording.format(tool, "provider reported failure")))
  }

  /** A connection is not ready when a refusal's error says so, in whatever case; the one
      action whose rate limits are retried is the Slack history, and a refusal counts as rate
      limited by what it reports, or by the empty text when it reports nothing. */
  lemma RetriedWhen(wording: Wording, tool: string, response: Response)
    ensures NotReady(Ok(response)) <==>
      && !response.successful && response.error.Some?
      && exists i :: SaidAt(response.error.value, "connection error, try to authenticate", i)
    ensures Retryable(tool) <==> tool == "SLACK_FETCH_CONVERSATION_HISTORY"
    ensures RateLimited(wording, tool, Ok(response)) <==>
      && !response.successful
      && (response.error.Some? ==> wording.isRateLimit(tool, response.error.value))
      && (response.error.None? ==> wording.isRateLimit(tool, ""))
  {
    if response.error.Some? {
      LowerPhrase("connection error, try to authenticate");
      OccursInAnyCase(response.error.value, "connection error, try to authenticate");
    }
  }

  /** The phrase stands in `s` at offset `i`, but for the case of letters. */
  ghost predicate SaidAt(s: string, phrase: string, i: int) {
    0 <= i <= |s| - |phrase| && SameLetters(s[i..i + |phrase|], phrase)
  }

  lemma LowerPhrase(phrase: string)
    requires forall c :: c in phrase ==> !('A' <= c <= 'Z')
    ensures Lower(phrase) == phrase
  {
    forall i | 0 <= i < |phrase| ensures Lower(phrase)[i] == phrase[i] { assert phrase[i] in phrase; }
  }

  lemma OccursInAnyCase(s: string, phrase: string)
    requires Lower(phrase) == phrase
    ensures Occurs(Lower(s), phrase) <==> exists i :: SaidAt(s, phrase, i)
  {
    forall i | 0 <= i <= |s| - |phrase| ensures OccursAt(Lower(s), phrase, i) <==> SaidAt(s, phrase, i) {
      LowerMeets(s[i..i + |phrase|], phrase);
      assert Lower(s[i..i + |phrase|]) == Lower(s)[i..i + |phrase|];
    }
    if Occurs(Lower(s), phrase) {
      var i :| 0 <= i <= |Lower(s)| && OccursAt(Lower(s), phrase, i);
      assert SaidAt(s, phrase, i);
    }
    if i :| SaidAt(s, phrase, i) {
      assert OccursAt(Lower(s), phrase, i);
    }
  }

  /** `execute_action`. */
  method ExecuteAction(
      wording: Wording, route: Route, tool: string, arguments: Option<Json>, connectionId: Option<string>)
    returns (r: Result<Response, Failure>, ghost said: seq<Reply>)
    modifies route
    ensures r.Ok? ==> said != [] && said[|said| - 1].Ok? && Reworded(wording, Trim(tool), said[|said| - 1].value, r.value)
    ensures var prepared := Prepare.Prepared(Trim(tool), arguments);
      match prepared
      case Err(why) => r == Err(InvalidArguments(why)) && route.log == old(route.log)
      case Ok(args) =>
        && ObeysPolicy(wording, Trim(tool), said)
        && route.log == old(route.log) + Events(Asked(tool, args, connectionId), said)
        && r == match said[|said| - 1]
                case Err(transport) => Err(NoAnswer(transport))
                case Ok(response) => Ok(FormatFailure(wording, Trim(tool), response))
  {
    hide Prepare.Prepared, ObeysPolicy, Events, Trim;
    said := [];
    var name := Trim(tool);
    var prepared := Prepare.PrepareExecuteArguments(name, arguments);
    if prepared.Err? {
      return Err(InvalidArguments(prepared.error)), said;
    }
    var reply;
    reply, said := WithRateLimitRetry(wording, route, Asked(tool, prepared.value, connectionId));
    r := match reply
      case Err(transport) => Err(NoAnswer(transport))
      case Ok(response) => Ok(FormatFailure(wording, name, response));
  }

  // ---- What the policy amounts to ----

  function TotalSlept(events: seq<Event>): nat {
    if events == [] then 0
    else
      var last := events[|events| - 1];
      TotalSlept(events[..|events| - 1]) + if last.Slept? then last.seconds else 0
  }

  /** The calls among the events. */
  function CallsIn(events: seq<Event>): seq<Call> {
    if events == [] then []
    else
      var last := events[|events| - 1];
      CallsIn(events[..|events| - 1]) + if last.Called? then [last.call] else []
  }

  function SumOfPauses(n: nat, extra: nat): nat {
    if n == 0 then 0 else SumOfPauses(n - 1, extra) + Pause(n - 1, extra)
  }

  lemma {:induction false} WaitedCounts(call: Call, said: seq<Reply>, extra: nat)
    ensures CallsIn(Waited(call, said, extra)) == seq(|said|, i => call)
    ensures TotalSlept(Waited(call, said, extra)) == SumOfPauses(|said|, extra)
  {
    if said != [] {
      var k := |said| - 1;
      WaitedCounts(call, said[..k], extra);
      var before := Waited(call, said[..k], extra);
      var all := before + [Called(call, said[k]), Slept(Pause(k, extra))];
      assert all[..|all| - 1][..|all| - 2] == before;
      assert all[..|all| - 1] == before + [Called(call, said[k])];
    }
  }

  lemma EventsCount(call: Call, said: seq<Reply>)
    requires said != []
    ensures CallsIn(Events(call, said)) == seq(|said|, i => call)
    ensures TotalSlept(Events(call, said)) == SumOfPauses(|said| - 1, Extra(said))
  {
    var front := said[..|said| - 1];
    WaitedCounts(call, front, Extra(said));
    var waited := Waited(call, front, Extra(said));
    assert (waited + [Called(call, said[|said| - 1])])[..|waited|] == waited;
  }

  lemma PausesGrow(m: nat, n: nat, extra: nat)
    requires m <= n
    ensures SumOfPauses(m, extra) <= SumOfPauses(n, extra)
  {
  }

  lemma PausesAdd()
    ensures SumOfPauses(6, 1) == 68 && SumOfPauses(5, 0) == 60 && SumOfPauses(1, 1) == 8 && SumOfPauses(0, 0) == 0
  {
    assert Backoff(1) == 4 && Backoff(2) == 8 && Backoff(3) == 16 && Backoff(4) == 30;
    assert SumOfPauses(3, 0) == 14 && SumOfPauses(5, 0) == 60;
    assert SumOfPauses(3, 1) == 14 && SumOfPauses(6, 1) == 68;
  }

  /** However the route behaves: at most seven calls, every one of them the same, and at most
      68 seconds of waiting; two calls and eight seconds for an action off the list. Nobody
      calls again after a success or after a call that got no answer. */
  lemma PolicyBounds(wording: Wording, call: Call, said: seq<Reply>)
    requires ObeysPolicy(wording, call.tool, said)
    ensures |CallsIn(Events(call, said))| == |said| <= 7 && forall c :: c in CallsIn(Events(call, said)) ==> c == call
    ensures TotalSlept(Events(call, said)) <= 68
    ensures !Retryable(call.tool) ==> |said| <= 2 && TotalSlept(Events(call, said)) <= 8
    ensures forall k :: 0 <= k < |said| - 1 ==> said[k].Ok? && !said[k].value.successful
  {
    EventsCount(call, said);
    PausesAdd();
    var extra := Extra(said);
    PausesGrow(|said| - 1, if Retryable(call.tool) then extra + 5 else extra, extra);
    assert extra == 0 ==> SumOfPauses(|said| - 1, extra) <= 60;
  }

  /** The replies decide when it ends: no run that obeys the policy continues another. */
  lemma PolicyStops(wording: Wording, tool: string, said: seq<Reply>, more: seq<Reply>)
    requires ObeysPolicy(wording, tool, said) && ObeysPolicy(wording, tool, more) && said <= more
    ensures said == more
  {
    assert Extra(said) == Extra(more);
    assert said[|said| - 1] == more[|said| - 1];
  }

  /** The bounds are met: not ready once, then rate limited until the last attempt. */
  lemma BoundsMet(wording: Wording, call: Call, unready: Reply, limited: Reply)
    requires Retryable(call.tool) && NotReady(unready) && RateLimited(wording, call.tool, limited)
    ensures var said := [unready] + seq(6, i => limited);
      ObeysPolicy(wording, call.tool, said) && |said| == 7 && TotalSlept(Events(call, said)) == 68
  {
    var said := [unready] + seq(6, i => limited);
    EventsCount(call, said);
    PausesAdd();
  }
}
