/** The declarative agent's loop: call the model, run its tool calls, append the results, repeat. */
module AgentLoop {
  import opened Wrappers
  import opened Sequences
  import opened Pairing
  import opened ModelMessages
  import Compactor
  import AnthropicMessages

  datatype Response = Response(content: string, toolCalls: seq<ToolCall>, inputTokens: int, outputTokens: int)

  /** What comes of a tool call: no such tool, no permission, a result, or an error caught as text. */
  datatype ToolOutcome = Missing | Denied(error: string) | Returned(text: string) | Threw(text: string)

  /** The model may answer anything, or throw, at each step; so may each tool. */
  type Model = (nat, seq<Message>) -> Result<Response, string>
  type Tools = (nat, ToolCall) -> ToolOutcome

  function ResultText(call: ToolCall, outcome: ToolOutcome): string
    requires !outcome.Denied?
  {
    match outcome
    case Missing => "Tool \"" + call.name + "\" not found"
    case Returned(text) => text
    case Threw(text) => text
  }

  function ResultMessage(call: ToolCall, outcome: ToolOutcome): Message
    requires !outcome.Denied?
  {
    Message(Tool, Text(ResultText(call, outcome)), call.name, call.id, [])
  }

  predicate Permitted(tools: Tools, step: nat, calls: seq<ToolCall>) {
    forall i :: 0 <= i < |calls| ==> !tools(step, calls[i]).Denied?
  }

  /** An assistant message with calls and one result per call, in call order. */
  function Turn(tools: Tools, step: nat, response: Response): (turn: seq<Message>)
    requires Permitted(tools, step, response.toolCalls)
    ensures |turn| == 1 + |response.toolCalls|
  {
    [Message(Assistant, Text(response.content), "", "", response.toolCalls)]
    + seq(|response.toolCalls|, i requires 0 <= i < |response.toolCalls| =>
        ResultMessage(response.toolCalls[i], tools(step, response.toolCalls[i])))
  }

  function FinalMessage(response: Response): Message {
    Message(Assistant, Text(response.content), "", "", [])
  }

  /** Tokens used by the model calls so far. */
  function Spent(model: Model, requests: seq<seq<Message>>): int {
    if requests == [] then 0
    else
      var n := |requests| - 1;
      Spent(model, requests[..n]) +
      match model(n, requests[n]) {
        case Ok(response) => response.inputTokens + response.outputTokens
        case Err(_) => 0
      }
  }

  predicate OverBudget(model: Model, maxTokens: Option<int>, requests: seq<seq<Message>>) {
    maxTokens.Some? && Spent(model, requests) >= maxTokens.value
  }

  /** Step `k` went on: within budget, the model asked for tools and all were permitted. */
  ghost predicate WentOn(model: Model, tools: Tools, maxTokens: Option<int>, requests: seq<seq<Message>>, k: nat)
    requires k < |requests|
  {
    && model(k, requests[k]).Ok?
    && model(k, requests[k]).value.toolCalls != []
    && Permitted(tools, k, model(k, requests[k]).value.toolCalls)
    && !OverBudget(model, maxTokens, requests[..k + 1])
  }

  /** The histories shown to the model: the seed, then one completed turn more each time. */
  ghost predicate Trace(model: Model, tools: Tools, maxTokens: Option<int>,
                        existing: seq<Message>, requests: seq<seq<Message>>)
  {
    && (requests != [] ==> requests[0] == existing)
    && forall k :: 0 <= k < |requests| - 1 ==>
         && WentOn(model, tools, maxTokens, requests, k)
         && requests[k + 1] == requests[k] + Turn(tools, k, model(k, requests[k]).value)
  }

  /** How a run that returned `added` ended. */
  ghost predicate Ended(model: Model, tools: Tools, maxSteps: int, maxTokens: Option<int>,
                        existing: seq<Message>, requests: seq<seq<Message>>, added: seq<Message>)
  {
    if requests == [] then maxSteps <= 0 && added == []
    else
      var n := |requests| - 1;
      && model(n, requests[n]).Ok?
      && var response := model(n, requests[n]).value;
         if WentOn(model, tools, maxTokens, requests, n)
         then |requests| == maxSteps && existing + added == requests[n] + Turn(tools, n, response)
         else
           && (OverBudget(model, maxTokens, requests) || response.toolCalls == [])
           && existing + added == requests[n] + [FinalMessage(response)]
  }

  /** The first call in order that is not permitted is refused with this error. */
  ghost predicate FirstDenied(tools: Tools, step: nat, calls: seq<ToolCall>, error: string) {
    exists i ::
      && 0 <= i < |calls| && tools(step, calls[i]) == Denied(error)
      && forall j :: 0 <= j < i ==> !tools(step, calls[j]).Denied?
  }

  /** A failed run: the model threw this error, or a tool was not permitted for this reason. */
  ghost predicate Failed(model: Model, tools: Tools, maxTokens: Option<int>, requests: seq<seq<Message>>,
                         error: string)
  {
    requests != [] &&
    var n := |requests| - 1;
    match model(n, requests[n])
    case Err(e) => e == error
    case Ok(response) =>
      !OverBudget(model, maxTokens, requests) && FirstDenied(tools, n, response.toolCalls, error)
  }

  /** What the model is shown of one tool call. */
  ghost predicate ShowsResult(m: Message, call: ToolCall, outcome: ToolOutcome) {
    && m.role == Tool && m.toolCallId == call.id && m.name == call.name && m.toolCalls == []
    && match outcome
       case Missing => m.content == Text("Tool \"" + call.name + "\" not found")
       case Returned(text) => m.content == Text(text)
       case Threw(text) => m.content == Text(text)
       case Denied(_) => false
  }

  /** The response as an assistant message with its calls, then each call's result in the order of the calls. */
  ghost predicate ShowsTurn(s: seq<Message>, tools: Tools, step: nat, response: Response) {
    && |s| == 1 + |response.toolCalls|
    && s[0] == Message(Assistant, Text(response.content), "", "", response.toolCalls)
    && forall i :: 0 <= i < |response.toolCalls| ==>
         ShowsResult(s[1 + i], response.toolCalls[i], tools(step, response.toolCalls[i]))
  }

  method RunTools(tools: Tools, step: nat, calls: seq<ToolCall>) returns (r: Result<seq<Message>, string>)
    ensures r.Ok? <==> Permitted(tools, step, calls)
    ensures r.Err? ==> FirstDenied(tools, step, calls, r.error)
    ensures r.Ok? ==>
              && |r.value| == |calls|
              && forall i :: 0 <= i < |calls| ==> r.value[i] == ResultMessage(calls[i], tools(step, calls[i]))
  {
    var results: seq<Message> := [];
    for i := 0 to |calls|
      invariant Permitted(tools, step, calls[..i]) && |results| == i
      invariant forall j :: 0 <= j < i ==> results[j] == ResultMessage(calls[j], tools(step, calls[j]))
    {
      var outcome := tools(step, calls[i]);
      if outcome.Denied? {
        return Err(outcome.error);
      }
      results := results + [ResultMessage(calls[i], outcome)];
    }
    r := Ok(results);
  }

  /** The history built so far is what the next request will show. */
  ghost predicate Ready(model: Model, tools: Tools, maxTokens: Option<int>, existing: seq<Message>,
                        requests: seq<seq<Message>>, messages: seq<Message>)
  {
    && Trace(model, tools, maxTokens, existing, requests)
    && existing <= messages
    && if requests == [] then messages == existing
       else
         var n := |requests| - 1;
         && WentOn(model, tools, maxTokens, requests, n)
         && messages == requests[n] + Turn(tools, n, model(n, requests[n]).value)
  }

  lemma Requested(model: Model, tools: Tools, maxTokens: Option<int>, existing: seq<Message>,
                  requests: seq<seq<Message>>, messages: seq<Message>)
    requires Ready(model, tools, maxTokens, existing, requests, messages)
    ensures Trace(model, tools, maxTokens, existing, requests + [messages])
    ensures (requests + [messages])[..|requests|] == requests
    ensures (requests + [messages])[..|requests| + 1] == requests + [messages]
  {
    var more := requests + [messages];
    forall k | 0 <= k < |requests|
      ensures WentOn(model, tools, maxTokens, more, k) <==> WentOn(model, tools, maxTokens, requests, k)
    {
      assert more[..k + 1] == requests[..k + 1];
    }
  }

  lemma Stopped(model: Model, tools: Tools, maxSteps: int, maxTokens: Option<int>, existing: seq<Message>,
                requests: seq<seq<Message>>)
    requires requests != [] && existing <= requests[|requests| - 1]
    requires var n := |requests| - 1;
             && model(n, requests[n]).Ok?
             && (OverBudget(model, maxTokens, requests) || model(n, requests[n]).value.toolCalls == [])
    ensures var n := |requests| - 1;
            var messages := requests[n] + [FinalMessage(model(n, requests[n]).value)];
            Ended(model, tools, maxSteps, maxTokens, existing, requests, messages[|existing|..])
  {
    var n := |requests| - 1;
    assert requests[..n + 1] == requests;
    var messages := requests[n] + [FinalMessage(model(n, requests[n]).value)];
    assert existing + messages[|existing|..] == messages;
  }

  lemma SpentMore(model: Model, requests: seq<seq<Message>>, messages: seq<Message>)
    ensures Spent(model, requests + [messages]) == Spent(model, requests) +
            match model(|requests|, messages) {
              case Ok(response) => response.inputTokens + response.outputTokens
              case Err(_) => 0
            }
  {
    assert (requests + [messages])[..|requests|] == requests;
  }

  lemma CompletedTurn(tools: Tools, step: nat, response: Response, results: seq<Message>)
    requires Permitted(tools, step, response.toolCalls)
    requires |results| == |response.toolCalls|
    requires forall i :: 0 <= i < |results| ==>
               results[i] == ResultMessage(response.toolCalls[i], tools(step, response.toolCalls[i]))
    ensures [Message(Assistant, Text(response.content), "", "", response.toolCalls)] + results
         == Turn(tools, step, response)
  {
  }

  lemma Continued(model: Model, tools: Tools, maxTokens: Option<int>, existing: seq<Message>,
                  requests: seq<seq<Message>>)
    requires requests != [] && Trace(model, tools, maxTokens, existing, requests)
    requires existing <= requests[|requests| - 1] && !OverBudget(model, maxTokens, requests)
    requires var n := |requests| - 1;
             && model(n, requests[n]).Ok?
             && model(n, requests[n]).value.toolCalls != []
             && Permitted(tools, n, model(n, requests[n]).value.toolCalls)
    ensures var n := |requests| - 1;
            Ready(model, tools, maxTokens, existing, requests,
                  requests[n] + Turn(tools, n, model(n, requests[n]).value))
  {
    assert requests[..|requests|] == requests;
  }

  lemma StepFails(model: Model, tools: Tools, maxTokens: Option<int>, existing: seq<Message>,
                  before: seq<seq<Message>>, messages: seq<Message>, error: string)
    requires Ready(model, tools, maxTokens, existing, before, messages)
    requires match model(|before|, messages)
             case Err(e) => e == error
             case Ok(response) =>
               !OverBudget(model, maxTokens, before + [messages])
               && FirstDenied(tools, |before|, response.toolCalls, error)
    ensures Trace(model, tools, maxTokens, existing, before + [messages])
    ensures Failed(model, tools, maxTokens, before + [messages], error)
  {
    Requested(model, tools, maxTokens, existing, before, messages);
  }

  lemma StepStops(model: Model, tools: Tools, maxSteps: int, maxTokens: Option<int>, existing: seq<Message>,
                  before: seq<seq<Message>>, messages: seq<Message>, response: Response)
    requires Ready(model, tools, maxTokens, existing, before, messages)
    requires model(|before|, messages) == Ok(response)
    requires OverBudget(model, maxTokens, before + [messages]) || response.toolCalls == []
    ensures Trace(model, tools, maxTokens, existing, before + [messages])
    ensures Ended(model, tools, maxSteps, maxTokens, existing, before + [messages],
                  (messages + [FinalMessage(response)])[|existing|..])
  {
    Requested(model, tools, maxTokens, existing, before, messages);
    Stopped(model, tools, maxSteps, maxTokens, existing, before + [messages]);
  }

  lemma StepGoesOn(model: Model, tools: Tools, maxTokens: Option<int>, existing: seq<Message>,
                   before: seq<seq<Message>>, messages: seq<Message>, response: Response, results: seq<Message>)
    requires Ready(model, tools, maxTokens, existing, before, messages)
    requires model(|before|, messages) == Ok(response) && response.toolCalls != []
    requires !OverBudget(model, maxTokens, before + [messages]) && Permitted(tools, |before|, response.toolCalls)
    requires |results| == |response.toolCalls|
    requires forall i :: 0 <= i < |results| ==>
               results[i] == ResultMessage(response.toolCalls[i], tools(|before|, response.toolCalls[i]))
    ensures Ready(model, tools, maxTokens, existing, before + [messages],
                  messages + ([Message(Assistant, Text(response.content), "", "", response.toolCalls)] + results))
  {
    Requested(model, tools, maxTokens, existing, before, messages);
    CompletedTurn(tools, |before|, response, results);
    Continued(model, tools, maxTokens, existing, before + [messages]);
  }

  lemma RanOut(model: Model, tools: Tools, maxSteps: int, maxTokens: Option<int>, existing: seq<Message>,
               requests: seq<seq<Message>>, messages: seq<Message>)
    requires Ready(model, tools, maxTokens, existing, requests, messages)
    requires if requests == [] then maxSteps <= 0 else |requests| == maxSteps
    ensures Ended(model, tools, maxSteps, maxTokens, existing, requests, messages[|existing|..])
  {
    assert existing + messages[|existing|..] == messages;
    assert requests[..|requests|] == requests;
  }

  /** For every model and tool behaviour: at most `maxSteps` requests, related as the trace says. */
  method NodeFn(model: Model, tools: Tools, maxSteps: int, maxTokens: Option<int>, existing: seq<Message>)
    returns (r: Result<seq<Message>, string>, requests: seq<seq<Message>>)
    ensures |requests| <= if maxSteps > 0 then maxSteps else 0
    ensures Trace(model, tools, maxTokens, existing, requests)
    ensures r.Ok? ==> Ended(model, tools, maxSteps, maxTokens, existing, requests, r.value)
    ensures r.Err? ==> Failed(model, tools, maxTokens, requests, r.error)
  {
    requests := [];
    var messages := existing;
    var totalTokens := 0;
    var step := 0;
    while step < maxSteps
      invariant 0 <= step && |requests| == step && (step <= maxSteps || step == 0)
      invariant Ready(model, tools, maxTokens, existing, requests, messages)
      invariant totalTokens == Spent(model, requests)
    {
      ghost var before := requests;
      requests := requests + [messages];
      var reply := model(step, messages);
      if reply.Err? {
        StepFails(model, tools, maxTokens, existing, before, messages, reply.error);
        return Err(reply.error), requests;
      }
      var response := reply.value;
      totalTokens := totalTokens + (response.inputTokens + response.outputTokens);
      SpentMore(model, before, messages);
      if maxTokens.Some? && totalTokens >= maxTokens.value {
        StepStops(model, tools, maxSteps, maxTokens, existing, before, messages, response);
        messages := messages + [FinalMessage(response)];
        return Ok(messages[|existing|..]), requests;
      }
      if response.toolCalls == [] {
        StepStops(model, tools, maxSteps, maxTokens, existing, before, messages, response);
        messages := messages + [FinalMessage(response)];
        return Ok(messages[|existing|..]), requests;
      }
      var results := RunTools(tools, step, response.toolCalls);
      if results.Err? {
        StepFails(model, tools, maxTokens, existing, before, messages, results.error);
        return Err(results.error), requests;
      }
      StepGoesOn(model, tools, maxTokens, existing, before, messages, response, results.value);
      messages := messages + ([Message(Assistant, Text(response.content), "", "", response.toolCalls)] + results.value);
      step := step + 1;
    }
    RanOut(model, tools, maxSteps, maxTokens, existing, requests, messages);
    r := Ok(messages[|existing|..]);
  }

  // ---- What every request and every result looks like ----

  ghost predicate IsResultOf(m: Message, call: ToolCall) {
    m.role == Tool && m.toolCallId == call.id && m.name == call.name
  }

  ghost predicate StartsWithResults(s: seq<Message>, calls: seq<ToolCall>) {
    |calls| <= |s| && forall i :: 0 <= i < |calls| ==> IsResultOf(s[i], calls[i])
  }

  /** A message with calls, followed by one result per call in call order. */
  ghost predicate StartsWithTurn(s: seq<Message>) {
    s != [] && s[0].role == Assistant && s[0].toolCalls != [] && StartsWithResults(s[1..], s[0].toolCalls)
  }

  /** Blocks of an assistant message with calls and its results, optionally ended by one without calls. */
  ghost predicate Turns(s: seq<Message>, closing: bool) {
    || s == []
    || (closing && |s| == 1 && s[0].role == Assistant && s[0].toolCalls == [])
    || (StartsWithTurn(s) && Turns(s[1 + |s[0].toolCalls|..], closing))
  }

  lemma StartAppend(s: seq<Message>, t: seq<Message>)
    requires StartsWithTurn(s)
    ensures StartsWithTurn(s + t) && (s + t)[0] == s[0]
    ensures (s + t)[1 + |s[0].toolCalls|..] == s[1 + |s[0].toolCalls|..] + t
  {
    assert (s + t)[1..] == s[1..] + t;
  }

  lemma {:induction false} TurnsAppend(s: seq<Message>, t: seq<Message>, closing: bool)
    requires Turns(s, false) && Turns(t, closing)
    ensures Turns(s + t, closing)
    decreases |s|
  {
    if s == [] {
      assert s + t == t;
    } else {
      var n := 1 + |s[0].toolCalls|;
      TurnsAppend(s[n..], t, closing);
      StartAppend(s, t);
    }
  }

  lemma TurnIsTurns(tools: Tools, step: nat, response: Response)
    requires Permitted(tools, step, response.toolCalls) && response.toolCalls != []
    ensures Turns(Turn(tools, step, response), false)
  {
    var t := Turn(tools, step, response);
    assert t[1 + |t[0].toolCalls|..] == [];
  }

  lemma {:induction false} RequestsAreTurns(model: Model, tools: Tools, maxTokens: Option<int>,
                                            existing: seq<Message>, requests: seq<seq<Message>>, k: nat)
    requires Trace(model, tools, maxTokens, existing, requests) && k < |requests|
    ensures existing <= requests[k] && Turns(requests[k][|existing|..], false)
  {
    if k > 0 {
      RequestsAreTurns(model, tools, maxTokens, existing, requests, k - 1);
      assert WentOn(model, tools, maxTokens, requests, k - 1);
      var t := Turn(tools, k - 1, model(k - 1, requests[k - 1]).value);
      assert requests[k - 1 + 1] == requests[k - 1] + t;
      assert requests[k][|existing|..] == requests[k - 1][|existing|..] + t;
      TurnIsTurns(tools, k - 1, model(k - 1, requests[k - 1]).value);
      TurnsAppend(requests[k - 1][|existing|..], t, false);
    }
  }

  lemma SplitAfter(existing: seq<Message>, request: seq<Message>, added: seq<Message>)
    requires existing <= request <= existing + added
    ensures added == request[|existing|..] + (existing + added)[|request|..]
  {
    assert added == (existing + added)[|existing|..];
  }

  /** What a run returns is a sequence of complete turns, optionally ended by an answer without calls. */
  lemma AddedAreTurns(model: Model, tools: Tools, maxSteps: int, maxTokens: Option<int>, existing: seq<Message>,
                      requests: seq<seq<Message>>, added: seq<Message>)
    requires Trace(model, tools, maxTokens, existing, requests)
    requires Ended(model, tools, maxSteps, maxTokens, existing, requests, added)
    ensures Turns(added, true)
  {
    if requests != [] {
      var n := |requests| - 1;
      RequestsAreTurns(model, tools, maxTokens, existing, requests, n);
      var response := model(n, requests[n]).value;
      var earlier, last := requests[n][|existing|..], (existing + added)[|requests[n]|..];
      SplitAfter(existing, requests[n], added);
      if WentOn(model, tools, maxTokens, requests, n) {
        assert last == Turn(tools, n, response);
        TurnIsTurns(tools, n, response);
        TurnsClosing(last);
      } else {
        assert last == [FinalMessage(response)];
      }
      TurnsAppend(earlier, last, true);
    }
  }

  lemma {:induction false} TurnsClosing(s: seq<Message>)
    requires Turns(s, false)
    ensures Turns(s, true)
    decreases |s|
  {
    if s != [] {
      TurnsClosing(s[1 + |s[0].toolCalls|..]);
    }
  }

  // ---- Pairing from the seed history through to the model's wire format ----

  lemma FirstIdAnswered(calls: seq<ToolCall>)
    requires calls != []
    ensures calls[0].id in multiset(Ids(calls))
    ensures multiset(Ids(calls)) - multiset{calls[0].id} == multiset(Ids(calls[1..]))
  {
    assert Ids(calls) == [calls[0].id] + Ids(calls[1..]);
    assert multiset(Ids(calls)) == multiset{calls[0].id} + multiset(Ids(calls[1..]));
  }

  lemma {:induction false} ResultsAnswer(s: seq<Message>, calls: seq<ToolCall>, n: nat)
    requires n == |calls| && StartsWithResults(s, calls)
    requires FullyAnswered(Items(s[n..]))
    ensures Answered(Items(s), multiset(Ids(calls)))
  {
    if n == 0 {
      assert s[0..] == s && Ids(calls) == [];
    } else {
      assert s[1..][n - 1..] == s[n..];
      ResultsAnswer(s[1..], calls[1..], n - 1);
      assert IsResultOf(s[0], calls[0]);
      AnsweredItems(s, multiset(Ids(calls)));
      FirstIdAnswered(calls);
    }
  }

  lemma CallsAnswered(m: Message, rest: seq<Message>)
    requires HasCalls(m) && Answered(Items(rest), multiset(Ids(m.toolCalls)))
    ensures FullyAnswered(Items([m] + rest))
  {
    assert Items([m] + rest) == [ItemOf(m)] + Items(rest);
    assert ItemOf(m) == CallsItem(Ids(m.toolCalls));
    AnsweredFirst(ItemOf(m), Items(rest), multiset{});
  }

  lemma TurnAnswered(s: seq<Message>)
    requires StartsWithTurn(s) && FullyAnswered(Items(s[1 + |s[0].toolCalls|..]))
    ensures FullyAnswered(Items(s))
  {
    var calls, rest := s[0].toolCalls, s[1..];
    assert s[1 + |calls|..] == rest[|calls|..];
    ResultsAnswer(rest, calls, |calls|);
    CallsAnswered(s[0], rest);
    assert s == [s[0]] + rest;
  }

  lemma FinalAnswered(m: Message)
    requires m.role == Assistant && m.toolCalls == []
    ensures FullyAnswered(Items([m]))
  {
    AnsweredItems([m], multiset{});
    assert Items([m][1..]) == [];
  }

  lemma {:induction false} TurnsAnswered(s: seq<Message>)
    requires Turns(s, true)
    ensures FullyAnswered(Items(s))
    decreases |s|
  {
    if s == [] {
      assert Items(s) == [];
    } else if StartsWithTurn(s) {
      TurnsAnswered(s[1 + |s[0].toolCalls|..]);
      TurnAnswered(s);
    } else {
      FinalAnswered(s[0]);
      assert s == [s[0]];
    }
  }

  lemma AppendedStaysAnswered(existing: seq<Message>, added: seq<Message>)
    requires FullyAnswered(Items(existing)) && Turns(added, true)
    ensures FullyAnswered(Items(existing + added))
  {
    TurnsAnswered(added);
    ItemsConcat(existing, added);
    AnsweredConcat(Items(existing), Items(added), multiset{});
  }

  /**
   From a paired seed, every request the model sees is paired and converts to a
   grouped conversation, and so does the history the run leaves behind, even
   after its old tool results have been cleared. After a whole compaction it
   does exactly when the compaction does not cut a turn.
   */
  lemma PairedEndToEnd(model: Model, tools: Tools, maxSteps: int, maxTokens: Option<int>, existing: seq<Message>,
                       requests: seq<seq<Message>>, added: seq<Message>, keepRecent: nat,
                       config: Compactor.Config, summary: Option<string>, compacted: seq<Message>)
    requires FullyAnswered(Items(existing))
    requires Trace(model, tools, maxTokens, existing, requests)
    requires Ended(model, tools, maxSteps, maxTokens, existing, requests, added)
    ensures forall k :: 0 <= k < |requests| ==>
              && FullyAnswered(Items(requests[k]))
              && AnthropicMessages.Grouped(AnthropicMessages.Regroup([], requests[k]), multiset{})
    ensures FullyAnswered(Items(existing + added))
    ensures Compactor.ProperIds(Items(existing + added)) ==>
              var cleared := Compactor.Cleared(existing + added, keepRecent);
              AnthropicMessages.Grouped(AnthropicMessages.Regroup([], cleared), multiset{})
    ensures Compactor.ProperIds(Items(existing + added)) &&
            Compactor.Compacted(existing + added, config, summary, compacted) ==>
              (AnthropicMessages.Grouped(AnthropicMessages.Regroup([], compacted), multiset{}) <==>
                 !Compactor.CompactionCutsATurn(existing + added, config, summary))
  {
    forall k | 0 <= k < |requests|
      ensures FullyAnswered(Items(requests[k]))
      ensures AnthropicMessages.Grouped(AnthropicMessages.Regroup([], requests[k]), multiset{})
    {
      RequestsAreTurns(model, tools, maxTokens, existing, requests, k);
      TurnsClosing(requests[k][|existing|..]);
      AppendedStaysAnswered(existing, requests[k][|existing|..]);
      assert existing + requests[k][|existing|..] == requests[k];
      AnthropicMessages.ConversionGroupsTurns(requests[k]);
    }
    AddedAreTurns(model, tools, maxSteps, maxTokens, existing, requests, added);
    AppendedStaysAnswered(existing, added);
    if Compactor.ProperIds(Items(existing + added)) {
      Compactor.ClearedStaysAnswered(existing + added, keepRecent);
      AnthropicMessages.ConversionGroupsTurns(Compactor.Cleared(existing + added, keepRecent));
      if Compactor.Compacted(existing + added, config, summary, compacted) {
        Compactor.CompactionStaysAnswered(existing + added, config, summary, compacted);
        AnthropicMessages.ConversionGroupsTurns(compacted);
      }
    }
  }

  // ---- What the model is shown, and when the budget stops it ----

  /** Each request but the first shows the one before and then the turn that came of it, results and all. */
  lemma RequestsShowTurns(model: Model, tools: Tools, maxTokens: Option<int>,
                          existing: seq<Message>, requests: seq<seq<Message>>, k: nat)
    requires Trace(model, tools, maxTokens, existing, requests) && k + 1 < |requests|
    ensures model(k, requests[k]).Ok? && requests[k] <= requests[k + 1]
    ensures ShowsTurn(requests[k + 1][|requests[k]|..], tools, k, model(k, requests[k]).value)
  {
    assert WentOn(model, tools, maxTokens, requests, k);
    var turn := Turn(tools, k, model(k, requests[k]).value);
    assert requests[k + 1][|requests[k]|..] == turn;
  }

  function Inputs(responses: seq<Response>): seq<int> {
    seq(|responses|, i requires 0 <= i < |responses| => responses[i].inputTokens)
  }

  function Outputs(responses: seq<Response>): seq<int> {
    seq(|responses|, i requires 0 <= i < |responses| => responses[i].outputTokens)
  }

  /** These are the model's answers to the first requests. */
  ghost predicate Answers(model: Model, requests: seq<seq<Message>>, responses: seq<Response>) {
    |responses| <= |requests| && forall j :: 0 <= j < |responses| ==> model(j, requests[j]) == Ok(responses[j])
  }

  lemma {:induction false} SpentIsSum(model: Model, requests: seq<seq<Message>>, responses: seq<Response>)
    requires |responses| == |requests| && Answers(model, requests, responses)
    ensures Spent(model, requests) == Sum(Inputs(responses)) + Sum(Outputs(responses))
  {
    if requests != [] {
      var n := |requests| - 1;
      SpentIsSum(model, requests[..n], responses[..n]);
      assert Inputs(responses)[..n] == Inputs(responses[..n]) && Outputs(responses)[..n] == Outputs(responses[..n]);
    }
  }

  /** A later request is made only if all input and output tokens of the answers before it add up to less. */
  lemma SpentBelowLimit(model: Model, tools: Tools, maxTokens: Option<int>, existing: seq<Message>,
                        requests: seq<seq<Message>>, responses: seq<Response>, k: nat)
    requires Trace(model, tools, maxTokens, existing, requests) && 0 < k < |requests| && maxTokens.Some?
    requires |responses| == k && Answers(model, requests, responses)
    ensures Sum(Inputs(responses)) + Sum(Outputs(responses)) < maxTokens.value
    ensures Spent(model, requests[..k]) < maxTokens.value
  {
    assert WentOn(model, tools, maxTokens, requests, k - 1);
    SpentIsSum(model, requests[..k], responses);
  }

  /** How a run over this history came out. */
  ghost predicate CameOut(model: Model, tools: Tools, maxSteps: int, maxTokens: Option<int>, existing: seq<Message>,
                          requests: seq<seq<Message>>, r: Result<seq<Message>, string>)
  {
    && Trace(model, tools, maxTokens, existing, requests)
    && match r
       case Ok(added) => Ended(model, tools, maxSteps, maxTokens, existing, requests, added)
       case Err(error) => Failed(model, tools, maxTokens, requests, error)
  }

  /** Once the answers add up to the limit, the last one is kept without its calls, and no tool is run for it. */
  lemma BudgetStops(model: Model, tools: Tools, maxSteps: int, maxTokens: Option<int>, existing: seq<Message>,
                    requests: seq<seq<Message>>, responses: seq<Response>, r: Result<seq<Message>, string>)
    requires CameOut(model, tools, maxSteps, maxTokens, existing, requests, r) && maxTokens.Some?
    requires |responses| == |requests| > 0 && Answers(model, requests, responses)
    requires Sum(Inputs(responses)) + Sum(Outputs(responses)) >= maxTokens.value
    ensures var n := |requests| - 1;
            r.Ok? && existing + r.value == requests[n] + [Message(Assistant, Text(responses[n].content), "", "", [])]
  {
    SpentIsSum(model, requests, responses);
    assert requests[..|requests|] == requests;
  }

  /**
   A run that comes to an end adds, behind the last request, the last answer
   without calls if it has none or the limit is reached, and otherwise, which is
   at the last step, the answer with its calls and all their results.
   */
  lemma LastAnswerIsKept(model: Model, tools: Tools, maxSteps: int, maxTokens: Option<int>, existing: seq<Message>,
                         requests: seq<seq<Message>>, responses: seq<Response>, added: seq<Message>)
    requires CameOut(model, tools, maxSteps, maxTokens, existing, requests, Ok(added))
    requires |responses| == |requests| > 0 && Answers(model, requests, responses)
    ensures var n := |requests| - 1;
            && requests[n] <= existing + added
            && var last := (existing + added)[|requests[n]|..];
               if responses[n].toolCalls == []
                  || (maxTokens.Some? && Sum(Inputs(responses)) + Sum(Outputs(responses)) >= maxTokens.value)
               then last == [Message(Assistant, Text(responses[n].content), "", "", [])]
               else |requests| == maxSteps && ShowsTurn(last, tools, n, responses[n])
  {
    var n := |requests| - 1;
    SpentIsSum(model, requests, responses);
    assert requests[..|requests|] == requests;
    if WentOn(model, tools, maxTokens, requests, n) {
      assert (existing + added)[|requests[n]|..] == Turn(tools, n, responses[n]);
    }
  }

  /** A first answer that alone reaches the limit is the only one, whatever tools it asks for. */
  lemma FirstAnswerOverBudget(model: Model, tools: Tools, maxSteps: int, maxTokens: int, existing: seq<Message>,
                              requests: seq<seq<Message>>, response: Response, r: Result<seq<Message>, string>)
    requires CameOut(model, tools, maxSteps, Some(maxTokens), existing, requests, r) && maxSteps >= 1
    requires model(0, existing) == Ok(response) && response.inputTokens + response.outputTokens >= maxTokens
    ensures requests == [existing] && r == Ok([Message(Assistant, Text(response.content), "", "", [])])
  {
    SumOfOne(response.inputTokens);
    SumOfOne(response.outputTokens);
    if |requests| > 1 {
      SpentBelowLimit(model, tools, Some(maxTokens), existing, requests, [response], 1);
      assert false;
    }
    BudgetStops(model, tools, maxSteps, Some(maxTokens), existing, requests, [response], r);
    assert r.value == (existing + r.value)[|existing|..];
  }
}
