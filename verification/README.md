# A Dafny model of the ONI core algorithms and protocols

The project models the self-contained algorithms and protocols of the ONI agent
framework (`src/`) and proves what each of them keeps, over all inputs and all
runs. `dafny verify dfyconfig.toml` checks everything.

| files | what they model |
|---|---|
| `StateGraph`, `Graph`, `CycleDetection`, `TopoSort`, `Inspect` | the graph builder and its validation, depth-first cycle detection, Kahn's sort, and the descriptor that runs the second only when the first finds nothing |
| `Framing`, `McpRequests`, `McpSession` | Content-Length framing over a chunked byte stream (the "Header Part" section under "Base Protocol" of the LSP 3.17 specification), the request ids, promises and timers that sit on top of it in the MCP transport, and whole sessions in which chunks, calls, timers and stops interleave |
| `LineStream`, `Sse`, `AnthropicSse` | the two server-sent-event parsers (a subset of section 9.2.6 of the WHATWG HTML standard) over one chunk-fed line reader |
| `Pairing`, `ModelMessages`, `AgentLoop`, `Compactor`, `AnthropicMessages`, `MessageReducer`, `Trimming` | the agent loop, the pruning of old tool results, the regrouping for the wire format, the message reducer and the trimmer, with one notion of "each call keeps its result" shared by all |
| `FileStore`, `TokenStream`, `BoundedBuffer`, `CircuitBreaker`, `RequestReply`, `PubSub` | concurrency protocols as state machines over their steps |
| `Checkpoints`, `RedisCheckpoints`, `WorkspaceCheckpoints` | checkpoint histories, their refinement onto one flat Redis key space, and rollback through printed ids |
| `Jsonc` | the JSONC comment stripper against a lexer |
| `Text`, `Sequences`, `Wrappers` | decimal numbers, splitting and joining, small vocabulary about sequences |

Objects that the source updates in place are classes; each method is proved
equal to a function of the old state, and the theorems over runs are about
those functions. What a function computes is stated once more without naming it:
by fields, places, counts and orders, or by a law that only the right answer
obeys. `Promise`, timers, the model, tools, git, `JSON.parse` and
`JSON.stringify`, clocks and random ids are parameters or explicit events.

## Where the code and a promise differ

Each of these follows the code. The member named gives the exact condition under
which the promise holds, for all inputs.

- Edges to a node that is itself called `conditional` are skipped by cycle
  detection and sort. Over a node set this is harmless exactly when no node has
  that name (`Graph.PlaceholderIsExact`).
- `addSubgraph` accepts the reserved names that `addNode` refuses, so they stay
  out exactly when its caller does not pass them. `addEdge` keeps the edges before
  the first duplicate when it throws, so a failed call changes nothing exactly
  when the first target is the duplicate (contracts of
  `StateGraphs.StateGraph.AddSubgraph` and `StateGraphs.StateGraph.AddEdge`;
  `StateGraphs.ReservedNameGetsIn` and `StateGraphs.HalfTheEdgesStay` show both).
- `src/inspect.ts:34` describes terminals as having no edge to a non-end node; the
  code counts every outgoing edge, also one to the end. The two agree exactly when
  no node with outgoing edges can only end (`Inspect.TerminalsAgree`). A
  conditional edge without declared destinations leads to the placeholder, which
  is not the end. The graph `START -> a -> END` is a counterexample
  (`Inspect.LastNodeIsMissed`).
- The parser for OpenAI-compatible streams drops a data line with nothing in it
  that the end of the stream leaves without a newline, so an event may lose its
  last, empty line. A missing newline is harmless exactly when the sentinel has
  come or the last line is not of that kind (`Sse.EndOfStream`);
  `data: a` and an empty `data: ` behind it are a counterexample
  (`Sse.EmptyLastLineIsLost`).
- The Anthropic event parser drops empty `data:` lines at the start of an event,
  although its comment asks for concatenation with newlines. Printed events come
  back exactly when each name is trimmed and on one line and no data is empty or
  starts with a newline (`AnthropicSse.EventsRoundTrip`); two lines of data of
  which the first is empty are a counterexample
  (`AnthropicSse.LeadingEmptyLineIsLost`).
- `clearOldToolResults` leaves a result without its call exactly when a recent
  result answers again a call that was answered completely before the cutoff
  (`Compactor.ClearedStaysPaired`, `Compactor.SecondAnswerIsOrphaned`).
- `fallbackTruncation` is meant to keep messages that fit the budget, but cuts
  only text. What it keeps, the notice not counted, is within the budget exactly
  when the last message fits or can be cut to fit
  (`Compactor.TruncatedFits`, `Compactor.KeptFits`); a call with long arguments
  is a counterexample (`Compactor.CallsAreNotCut`). It leaves a tool result
  without its call exactly when the longest suffix within the budget begins
  among the results of a turn, or the budget is positive and the last message is
  a result that does not fit (`Compactor.TruncationStaysAnswered`, and
  `Compactor.CompactionStaysAnswered` for `compact` as a whole); a call and a
  result of which only the result fits are a counterexample
  (`Compactor.ResultLosesItsCall`).
- `trimMessages` keeps everything for a bound of zero (`Trimming.BoundHolds`).
- Redis index and data keys are disjoint exactly for prefixes `p` such that
  `p:` does not begin `idx:p:`; the prefix `idx` is a counterexample
  (`RedisCheckpoints.SeparateIsExact`, `RedisCheckpoints.DefaultPrefixIsSeparate`).
- A printed checkpoint id parses back exactly when its step is not negative
  (`WorkspaceCheckpoints.IdRoundTrip`).
- A rollback checks out the oldest commit recorded for its id, although the
  checkpoint it returns is the newest of that step; the commit is the newest one
  exactly when the id was committed once (`WorkspaceCheckpoints.OldestCommitIsUsed`,
  `WorkspaceCheckpoints.SecondCommitIsIgnored`).
- The circuit breaker admits one probe per half-open episode, but a call from
  before the opening that fails ends the episode. A second probe can enter beside
  the first exactly when another call is in flight as the first one enters
  (`CircuitBreakers.SecondProbeNeedsCompany`), which happens for every threshold
  of at least one (`CircuitBreakers.ProbesCanOverlap`).

## Model

| member | source | states |
|---|---|---|
| `StateGraphs.StateGraph.AddNode` | src/graph.ts:99-111 | succeeds exactly for a name that is not reserved and not taken, and changes nothing otherwise |
| `StateGraphs.StateGraph.AddSubgraph` | src/graph.ts:113-123 | succeeds exactly for a name that is not taken, reserved or not, so reserved names stay out exactly when the caller keeps them out |
| `StateGraphs.StateGraph.AddEdge` | src/graph.ts:129-137 | static edges stay distinct; on a duplicate the earlier targets of the call stay in place, so a failed call changes nothing exactly when the first target is the duplicate |
| `StateGraphs.ReservedNameGetsIn` | src/graph.ts:113-123 | a new graph that refuses the start as a node and takes it as a subgraph |
| `StateGraphs.HalfTheEdgesStay` | src/graph.ts:129-137 | naming a target twice in one call fails and leaves the edge to it |
| `StateGraphs.StateGraph.AddConditionalEdges` | src/graph.ts:139-146 | adds one conditional edge and keeps the builder invariant |
| `StateGraphs.StateGraph.Validate` | src/graph.ts:148-168 | accepts exactly the graphs in which every edge joins known nodes and some edge leaves the start; an error names a node that is really missing |
| `Graph.RankedIsAcyclic` | src/inspect.ts:132-146 | if the finishing order of the search puts every edge's target before its source, there is no closed walk |
| `Graph.NoSourceMeansCycle` | src/inspect.ts:166-177 | a non-empty node set in which everybody has a predecessor contains a cycle, which links Kahn's counters to the search |
| `Graph.PlaceholderIsExact` | src/inspect.ts:111-115 | skipping edges to the placeholder preserves acyclicity for all edge lists if and only if no node bears its name |
| `CycleDetection.CycleFinder.Dfs` | src/inspect.ts:126-146 | the search restores path and stack, and its node has finished unless the edge to it closes a recorded cycle; unrecorded edges out of finished nodes lead to earlier finished ones |
| `CycleDetection.DetectCycles` | src/inspect.ts:104-149 | no list if and only if the known edges are acyclic; every list is a simple cycle; without the closing edges of the lists the graph is acyclic |
| `CycleDetection.BuildAdjacency` | src/inspect.ts:108-119 | the adjacency lists are the targets of the known edges of each node, with multiplicity and in order |
| `TopoSort.CountDegrees` | src/inspect.ts:156-164 | the counter of a node is the number of known edges into it, parallel ones counted each |
| `TopoSort.CountOff` | src/inspect.ts:170-176 | one pass of the neighbour loop restores the invariant that counters count edges from unlisted nodes |
| `TopoSort.TopoSort` | src/inspect.ts:155-180 | for every graph, cyclic or not: no duplicates, no node before a predecessor, and whatever is left out still waits for an unlisted node |
| `TopoSort.AcyclicIsListed` | src/inspect.ts:94-97 | in an acyclic graph whose edges start at nodes, a maximal order contains every node |
| `Inspect.ExpansionIsRouting` | src/inspect.ts:66-82 | the expanded known edges are exactly the declared routes |
| `Inspect.ExpansionShowsKinds` | src/inspect.ts:66-82 | an expanded edge is static if and only if it is such an edge, and conditional if and only if it goes to a declared destination of one, or to the placeholder if there is none |
| `Inspect.ExpansionInOrder` | src/inspect.ts:66-82 | the expansion follows the edges in order and, within an edge, its destinations |
| `Inspect.Terminals` | src/inspect.ts:84-89 | in node order, exactly the nodes without any outgoing edge |
| `Inspect.MissedTerminals` | src/inspect.ts:34 | the documented terminals are the terminals of the code and, apart from them, the nodes all of whose edges can only go to the end |
| `Inspect.TerminalsAgree` | src/inspect.ts:84-89 | the code lists the documented terminals if and only if no node with outgoing edges has only the end as destination |
| `Inspect.LastNodeIsMissed` | src/inspect.ts:84-89 | a graph that validates whose one node leads only to the end and is no terminal of the code |
| `Inspect.BuildGraphDescriptor` | src/inspect.ts:46-98 | an order is given if and only if no cycle is; for a validated graph without a node named like the placeholder, exactly when the declared routes are acyclic, and then it lists each node once with every route going forward; the terminals are those documented if and only if no node can only end |
| `Text.ParsePrintNat` | src/mcp/transport.ts:233 | decimal printing is undone by parsing |
| `Text.ParseIsPositional` | src/mcp/transport.ts:294 | parsing gives each digit the weight of its place |
| `Text.PrintIsPositional` | src/mcp/transport.ts:233 | printing writes the number by places, without leading zeros |
| `Text.TrimCuts` | src/models/sse.ts:30 | trimming cuts off white space at both ends, all of it and nothing else |
| `Text.JoinSplit` | src/models/sse.ts:24-26 | splitting and joining at a separator are inverse |
| `Text.SplitMore` | src/models/sse.ts:22-26 | text added at the end only extends the last piece of a split |
| `Framing.DrainAppend` | src/mcp/transport.ts:280-314 | processing, appending and processing again is processing the whole at once |
| `Framing.DrainRestIsDrained` | src/mcp/transport.ts:280-314 | what is left over yields nothing by itself |
| `Framing.LengthIsExact` | src/mcp/transport.ts:285-294 | the length of a header is the number behind the leftmost field name in any case, with white space in any encoding between them, all its digits counted; it is missing exactly if there is no such place |
| `Framing.ChunkIndependence` | src/mcp/transport.ts:159-164 | a connection survives if and only if each chunk fits beside the residue, and then bodies and residue depend on the bytes alone |
| `Framing.HeaderBlocks` | src/mcp/transport.ts:282-305 | a header block frames as many bytes as its length says, one without a length is dropped as a whole |
| `Framing.HeaderFramesBody` | src/mcp/transport.ts:282-305 | whatever lines without a length stand before the field and whatever follows it, in any case and with any white space, a header frames exactly its body |
| `Framing.FramesRoundTrip` | src/mcp/transport.ts:233-234 | written frames read back as exactly the payloads, in order, leaving nothing |
| `Framing.WrittenFramesArrive` | src/lsp/client.ts:544-595 | however the wire cuts written frames, exactly the payloads are delivered and the buffer ends empty |
| `Framing.StdioTransport.OnData` | src/mcp/transport.ts:159-164 | one data event is one step of the connection, overflow included |
| `Framing.StdioTransport.ProcessBuffer` | src/mcp/transport.ts:272-314 | the loop delivers the bodies of the drained buffer, keeps its residue, and shrinks the buffer on every pass |
| `McpRequests.RunKeepsValid` | src/mcp/transport.ts:208-244 | in every run ids are never reused, exactly the unsettled requests are pending with a live timer, a response settles only the request with its id, and settlements are final |
| `McpRequests.LateResponseIsIgnored` | src/mcp/transport.ts:318-326 | a response changes the transport if and only if its request was sent and has not settled |
| `McpRequests.StopSettlesAll` | src/mcp/transport.ts:176-196 | after a stop every request ever sent has settled, no timer is left and new requests are refused |
| `McpRequests.BatchAnswers` | src/mcp/transport.ts:304-332 | whatever order responses come in, each waiting request gets the first one with its id, malformed bodies being skipped |
| `McpRequests.FirstSettlementWins` | src/mcp/transport.ts:176-332 | in any run an unsettled request gets the outcome of the first event that settles it, be it a response, its timer, a failed write or a stop |
| `McpRequests.SentUnderFreshId` | src/mcp/transport.ts:208-244 | while connected, a request goes out as one frame around its text with a number no request had before, and the response with that number settles it and nothing else |
| `McpRequests.NotificationsInOrder` | src/mcp/transport.ts:328-332 | exactly the notifications are handed on, in the order in which they come |
| `McpSessions.ResponsesArrive` | src/mcp/transport.ts:159-332 | with chunks, sends, timers and failed writes interleaved in any order, the payloads of the peer all arrive, and a waiting request gets the first outcome from then on: the first response written for it, unless its timer or a failed write comes before |
| `McpSessions.SessionIsRun` | src/mcp/transport.ts:159-196 | a session of chunks and calls acts on the request table as the run of the messages its chunks complete, an overflow acting as a stop |
| `McpSessions.ConnectedSession` | src/mcp/transport.ts:159-164 | a session is still connected if and only if nothing stopped it and each chunk fitted, and then the wire depends on the bytes alone |
| `McpSessions.ResolvedWasDelivered` | src/mcp/transport.ts:316-332 | in every session, stopped or overflowed ones included, a request is resolved only with a message that came over the wire |
| `McpRequests.RequestTable.SendRequest` | src/mcp/transport.ts:208-244 | a request takes the next id, becomes pending with a timer, and its frame goes out; refused when not connected |
| `McpRequests.RequestTable.HandleMessage` | src/mcp/transport.ts:316-332 | a numeric id makes a response whatever else is in the message; only a pending id is settled |
| `McpRequests.RequestTable.OnTimeout` | src/mcp/transport.ts:226-229 | the timer rejects its own request and no other |
| `McpRequests.RequestTable.OnWriteError` | src/mcp/transport.ts:236-242 | a failed write rejects its own request, and an already settled one is left as it is |
| `McpRequests.RequestTable.StopTransport` | src/mcp/transport.ts:176-196 | rejects exactly the pending requests and clears their timers |
| `McpRequests.Perform` | src/mcp/transport.ts:159-332 | the transport does what an event of a run says |
| `LineStream.ChunkIndependence` | src/models/sse.ts:19-27 | a reader that keeps the unfinished last line sees the same lines for every cutting of the text |
| `Sse.ParseSseData` | src/models/sse.ts:10-77 | the payloads are a function of the concatenated text, with early end at the sentinel and the final flush |
| `Sse.ReadPrinted` | src/models/sse.ts:28-50 | what is read from printed payloads: each with its lines trimmed, up to the first line that is the sentinel; the payload of that line is cut there, or gone if the line is its first, and everything behind it is gone |
| `Sse.PayloadsRoundTrip` | src/models/sse.ts:28-77 | printed payloads come back unchanged if and only if their lines are trimmed and none is the sentinel |
| `Sse.EndOfStream` | src/models/sse.ts:48-73 | a missing newline at the end makes no difference if and only if the sentinel has come or the last line is not a data line with nothing in it; that line is then as if not there |
| `Sse.EmptyLastLineIsLost` | src/models/sse.ts:48-66 | a concrete stream whose empty last line is lost without its newline and kept with it |
| `Sse.UnfinishedRoundTrip` | src/models/sse.ts:48-73 | printed payloads come back without the blank line at the end under the same condition, and without the last newline if and only if, besides, the last line is not empty |
| `Sse.OtherLinesAreIgnored` | src/models/sse.ts:28-47 | a line that neither carries data nor is blank is passed over wherever it stands |
| `Sse.BlankIsEmpty` | src/models/sse.ts:40-46 | white space makes no difference in a blank line |
| `Sse.BlankSeparates` | src/models/sse.ts:40-46 | what stands before and behind a blank line is read separately, up to a sentinel |
| `AnthropicSse.DrainSseLines` | src/models/anthropic.ts:223-247 | processes exactly the complete lines, and the unfinished one at the flush |
| `AnthropicSse.ParseSse` | src/models/anthropic.ts:249-277 | the events are a function of the concatenated text, whatever the chunks |
| `AnthropicSse.EventsRoundTrip` | src/models/anthropic.ts:223-277 | printed events come back unchanged if and only if each name fits on its line, trimmed and without a newline, and no data is empty or starts with a newline |
| `AnthropicSse.EndOfStream` | src/models/anthropic.ts:243-273 | a missing newline at the end never makes a difference, so printed events come back without their last newline or blank line |
| `AnthropicSse.OtherLinesAreIgnored` | src/models/anthropic.ts:228-242 | a line that is no field and not blank is passed over wherever it stands |
| `AnthropicSse.BlankIsEmpty` | src/models/anthropic.ts:235-241 | white space makes no difference in a blank line |
| `AnthropicSse.BlankSeparates` | src/models/anthropic.ts:235-241 | what stands before and behind a blank line is read separately, names included |
| `AnthropicSse.LastNameCounts` | src/models/anthropic.ts:229-234 | the name may be given before or behind the data, and the last one counts |
| `AnthropicSse.NamelessIsMessage` | src/models/anthropic.ts:239-255 | an event without a name is a message |
| `AnthropicSse.EventsAreNamed` | src/models/anthropic.ts:228-231 | whatever the text, every event read has a trimmed name without a newline |
| `AnthropicSse.LeadingEmptyLineIsLost` | src/models/anthropic.ts:232-236 | a concrete event whose empty first data line is lost |
| `Pairing.AnsweredIsPaired` | src/agents/define-agent.ts:177-209 | where every call is answered right away, every result has its call before it |
| `Pairing.AnsweredSuffix` | src/messages/index.ts:172-177 | dropping the front of a history at the start of a turn leaves fully answered turns |
| `Compactor.CollectResultIds` | src/harness/context-compactor.ts:216-222 | collects exactly the ids answered before the cutoff |
| `Compactor.CollectKeptIds` | src/harness/context-compactor.ts:231-244 | collects exactly the answered ids whose calling message also calls something unanswered |
| `Compactor.ClearOldToolResults` | src/harness/context-compactor.ts:204-259 | prunes the older portion message by message and leaves the recent messages alone |
| `Compactor.ClearedStaysPaired` | src/harness/context-compactor.ts:204-259 | every remaining result has its call before it if and only if no recent result answers again a completely answered older call |
| `Compactor.AnsweredOnceStaysPaired` | src/harness/context-compactor.ts:204-259 | with unique ids and no id answered twice, results straddling the cutoff included, pairing is kept |
| `Compactor.ClearedKeepsResults` | src/harness/context-compactor.ts:224-256 | a call that is still made has all the results it had before |
| `Compactor.ResultsAreAll` | src/harness/context-compactor.ts:246-258 | the results that clearing is shown to keep for a call are all results with its id, in order |
| `Compactor.ClearedKeepsOrder` | src/harness/context-compactor.ts:246-258 | the result is a subsequence with all other messages kept and the last messages intact |
| `Compactor.OthersAreAll` | src/harness/context-compactor.ts:246-258 | the messages that clearing is shown to keep in any case are all that neither call nor answer, in order |
| `Compactor.ClearedStaysAnswered` | src/harness/context-compactor.ts:204-259 | a history in which every call is answered once right away stays one |
| `Compactor.SecondAnswerIsOrphaned` | src/harness/context-compactor.ts:231-258 | a concrete history whose second answer loses its call |
| `Compactor.FallbackTruncation` | src/harness/context-compactor.ts:321-376 | behind the notice comes the longest suffix that fits the character budget, or the truncated last message, or nothing; that is within the budget if and only if the last message fits or can be cut, and a fully answered history stays one if and only if the budget does not cut one of its turns |
| `Compactor.KeepRecent` | src/harness/context-compactor.ts:326-361 | the loop from the end keeps the longest suffix that fits, or the truncated last message, or nothing |
| `Compactor.LengthCountsAll` | src/harness/context-compactor.ts:381-400 | a message is as long as its texts together with the names and arguments of its calls |
| `Compactor.TotalIsSum` | src/harness/context-compactor.ts:79-84 | a history is as long as its messages together |
| `Compactor.TruncatedKeepsRest` | src/harness/context-compactor.ts:335-350 | cutting touches only the text, or the text of the last part, which keeps its beginning and gets the mark |
| `Compactor.EstimateCovers` | src/harness/context-compactor.ts:79-85 | the estimate is the least number of tokens that covers all characters |
| `Compactor.DueAtThreshold` | src/harness/context-compactor.ts:89-110 | a compaction is due if and only if the estimate reaches the threshold share of the maximum |
| `Compactor.DueWithoutMeasure` | src/harness/context-compactor.ts:89-110 | with a maximum or a character rate of zero, which the original divides by, a compaction is due as soon as there is a character |
| `Compactor.BudgetIsGreatest` | src/harness/context-compactor.ts:322 | the budget is the greatest whole number of characters within the threshold share |
| `Compactor.TruncatedFits` | src/harness/context-compactor.ts:335-350 | a message over the budget is cut to fit if and only if the budget has room for the suffix, its calls take no characters, and all its characters are in its text or in its last, textual part |
| `Compactor.CallsAreNotCut` | src/harness/context-compactor.ts:335-350 | a concrete message with a call that exceeds the budget after truncation |
| `Compactor.KeptFits` | src/harness/context-compactor.ts:326-361 | what is kept is within the budget if and only if the last message fits or can be cut, for every history and budget |
| `Compactor.TruncationStaysAnswered` | src/harness/context-compactor.ts:321-376 | of a fully answered history a fully answered one is left, notice included, if and only if the longest suffix within the budget does not begin behind the calls of a turn and no positive budget falls short of a last message that is a tool result |
| `Compactor.ResultLosesItsCall` | src/harness/context-compactor.ts:321-376 | a concrete call and result, due for compaction and untouched by clearing, of which only the result is kept |
| `Compactor.RunCompaction` | src/harness/context-compactor.ts:182-196 | clearing alone if that is enough, else the summary, else the truncation of the cleared messages |
| `Compactor.SummaryIsShown` | src/harness/context-compactor.ts:301-312 | the summary stands in full in a message of the user, followed by an assistant message |
| `Compactor.CompactionStaysAnswered` | src/harness/context-compactor.ts:182-196 | both stages together leave a fully answered history fully answered if and only if clearing is enough, or there is a summary, or the budget does not cut a turn of the cleared history |
| `Compactor.Compact` | src/harness/context-compactor.ts:165-196 | messages that need no compaction come back unchanged; otherwise both stages run, and calls keep their results exactly as stated for them |
| `AnthropicMessages.ConvertMessages` | src/models/anthropic.ts:96-200 | fails exactly when a tool result has no call id; otherwise gives the collected system text and the regrouped turns |
| `AnthropicMessages.NothingLost` | src/models/anthropic.ts:107-199 | block by block and in order, the conversion says what each message calls for by its own fields: an assistant message as the assistant, everything else, tool results included, as the user |
| `AnthropicMessages.SystemTextIsLines` | src/models/anthropic.ts:107-117 | without system messages there is no system text; else it is their texts as lines, from the first non-empty one on |
| `AnthropicMessages.ConversionGroupsTurns` | src/models/anthropic.ts:96-200 | each message's tool results answer exactly the tool uses of the message before it, if and only if every call in the history is answered exactly once right away |
| `AnthropicMessages.GroupedNeighbours` | src/models/anthropic.ts:141-145 | a tool-use message is directly followed by one message with exactly its results |
| `AgentLoop.RunTools` | src/agents/define-agent.ts:184-209 | one result per call in call order, or the error of the first call that is not permitted |
| `AgentLoop.NodeFn` | src/agents/define-agent.ts:104-215 | for every model and tool behaviour: at most maxSteps requests, each showing the one before plus a completed turn, and an end as the budget, the model or the step limit dictates |
| `AgentLoop.RequestsAreTurns` | src/agents/define-agent.ts:104-161 | every history the model sees is the seed followed by complete turns |
| `AgentLoop.RequestsShowTurns` | src/agents/define-agent.ts:63-209 | each request but the first shows the one before and then the answer with its calls and, for each call in order, the text of the tool, of its error, or that there is no such tool |
| `AgentLoop.AddedAreTurns` | src/agents/define-agent.ts:104-215 | the returned messages are complete turns, optionally ended by one assistant message without calls |
| `AgentLoop.SpentBelowLimit` | src/agents/define-agent.ts:157-175 | before every request but the first the input and output tokens of all answers so far add up to less than the limit |
| `AgentLoop.BudgetStops` | src/agents/define-agent.ts:157-175 | once the answers add up to the limit, the run ends with the last answer stripped of its calls, and no tool is run for it |
| `AgentLoop.FirstAnswerOverBudget` | src/agents/define-agent.ts:157-175 | a first answer that alone reaches the limit is the only one, whatever it asks for |
| `AgentLoop.LastAnswerIsKept` | src/agents/define-agent.ts:168-215 | a run that returns adds last the answer without calls if it has none or the limit is reached, and else, at the last step, the answer with all results |
| `AgentLoop.PairedEndToEnd` | src/agents/define-agent.ts:104-215 | from a paired seed, every request and the final history are paired and convert to a grouped conversation, also after clearing old results, and after a whole compaction if and only if that does not cut a turn |
| `MessageReducer.MessagesReducer` | src/messages/index.ts:73-101 | the in-place loop over the working array is the fold of the updates |
| `MessageReducer.ReduceKeepsUnique` | src/messages/index.ts:73-101 | ids stay unique under any batch |
| `MessageReducer.BatchesConcatenate` | src/messages/index.ts:73-101 | two batches in turn are their concatenation |
| `MessageReducer.ReduceIsPerId` | src/messages/index.ts:73-101 | what a batch does to one id depends only on the updates about that id |
| `MessageReducer.LastUpdateTells` | src/messages/index.ts:80-99 | field by field: an added message is stored as it is at the place of its id or at the end, a removed one is gone, a patched one has the fields of the patch and its other fields, and order and all other messages stay |
| `MessageReducer.RedeliveryIsHarmless` | src/messages/index.ts:73-101 | re-applying a batch with explicit ids and no removal changes neither content nor order |
| `Trimming.TrimMessages` | src/messages/index.ts:168-179 | system messages first, then the trimmed rest |
| `Trimming.SelectedInOrder` | src/messages/index.ts:168-170 | every message is either among the system messages or among the others, each in the order they had |
| `Trimming.KeptIsTurnSuffix` | src/messages/index.ts:168-179 | what is kept is a suffix that does not begin with a tool result, and every longer one that does not exceeds the bound |
| `Trimming.TrimmedStaysAnswered` | src/messages/index.ts:168-179 | fully answered turns stay fully answered |
| `Trimming.BoundHolds` | src/messages/index.ts:171 | the bound holds for every history if and only if it is positive |
| `Trimming.ZeroKeepsAll` | src/messages/index.ts:171 | a bound of zero keeps a message |
| `FileStore.WhoseTurn` | src/platform/filesystem.ts:53-65 | only the first incomplete call can do anything but wait |
| `FileStore.MutualExclusionInCallOrder` | src/platform/filesystem.ts:50-66 | in every interleaving, a call that has entered finds all earlier calls completed, failed ones included |
| `FileStore.FileIsSequential` | src/platform/filesystem.ts:50-93 | at any time the file is what the completed calls leave when run one after another in call order, and each reports what it would have reported then |
| `FileStore.ReadsAreLinearizable` | src/platform/filesystem.ts:95-107 | an unlocked read sees the sequential history at a point between its start and its end |
| `FileStore.SomebodyCanStep` | src/platform/filesystem.ts:53-65 | while some call is incomplete, one of them can take a step, whatever failed before |
| `FileStore.FailureReleases` | src/platform/filesystem.ts:60-65 | a call can fail where it loads and where it replaces; the file is then as before and its successor released |
| `FileStore.NoLostUpdates` | src/platform/filesystem.ts:73-93 | the file maps each session id to the last session successfully written for it |
| `FileStore.RefusedAsDue` | src/platform/filesystem.ts:73-93 | in every run, creating succeeds if and only if no session was written under the id before, and saving if and only if one was; otherwise they are refused as existing or missing, I/O errors aside |
| `FileStore.ReplayKeepsLastStored` | src/platform/filesystem.ts:123-136 | each artifact read back is the one stored last for its session and id |
| `FileStore.NoLostArtifacts` | src/platform/filesystem.ts:110-136 | at any time of any run the file lists, for each session and id, the artifact last successfully stored under them |
| `FileStore.ArtifactsAreNotRefused` | src/platform/filesystem.ts:123-136 | storing an artifact succeeds unless there is an I/O error |
| `FileStore.ArtifactsInOrder` | src/platform/filesystem.ts:123-141 | at any time a session's artifacts are listed once each, in the order in which their ids were first stored |
| `Checkpoints.PutStepFacts` | src/checkpoint.ts:21-34 | a put keeps the history ascending and changes exactly the checkpoint of its step |
| `Checkpoints.UpToFacts` | src/checkpoint.ts:70-72 | the copied part is the prefix of exactly the steps up to the bound |
| `Checkpoints.ForkIsExact` | src/checkpoint.ts:65-78 | the destination becomes exactly the truncated source, whatever it held, and other threads are untouched |
| `Checkpoints.LatestIsHighest` | src/checkpoint.ts:15-19 | the last element of a kept history is the one with the highest step |
| `Checkpoints.MemoryCheckpointer.Get` | src/checkpoint.ts:15-19 | a stored checkpoint of the thread such that no step of the thread is higher, or nothing if there is none |
| `Checkpoints.MemoryCheckpointer.PutCheckpoint` | src/checkpoint.ts:21-34 | replaces the same step in place or sorts the new one in |
| `Checkpoints.MemoryCheckpointer.List` | src/checkpoint.ts:36-51 | before, then filter, then limit |
| `Checkpoints.ListIsExact` | src/checkpoint.ts:36-47 | without a limit a list has, by ascending step, exactly the thread's checkpoints before the bound that have all the metadata asked for |
| `Checkpoints.LimitIsPrefix` | src/checkpoint.ts:48-50 | a limit keeps the oldest so many, a negative one leaves out the newest so many |
| `Checkpoints.MemoryCheckpointer.ForkThread` | src/checkpoint.ts:65-78 | false exactly when there is nothing to copy, and then nothing changes |
| `Checkpoints.MemoryCheckpointer.ForkByCopy` | src/checkpoint.ts:110-121 | forking through list, delete and put has the same effect as the direct fork |
| `RedisCheckpoints.DataKeyInjective` | src/checkpointers/redis.ts:77-79 | a data key determines thread and step, whatever the thread is called |
| `RedisCheckpoints.SeparateIsExact` | src/checkpointers/redis.ts:77-83 | data and index keys are disjoint for all threads and steps if and only if the prefix satisfies a condition checkable in advance |
| `RedisCheckpoints.DefaultPrefixIsSeparate` | src/checkpointers/redis.ts:77-83 | the default prefix satisfies it and a prefix that does not exists |
| `RedisCheckpoints.ZaddIsPut` | src/checkpointers/redis.ts:90-94 | adding a step to the sorted set is putting it into the history |
| `RedisCheckpoints.PutRepresents` | src/checkpointers/redis.ts:110-119 | the script turns a database that stands for the histories into one that stands for the histories after the put |
| `RedisCheckpoints.DeleteRepresents` | src/checkpointers/redis.ts:155-162 | deleting index and data keys removes exactly that thread |
| `RedisCheckpoints.IndexedSteps` | src/checkpointers/redis.ts:98-108 | every listed step parses back and has its data, and no command meets a key of the wrong type |
| `RedisCheckpoints.FetchBefore` | src/checkpointers/redis.ts:126-138 | skipping steps while fetching is filtering the fetched history |
| `RedisCheckpoints.RedisCheckpointer.Get` | src/checkpointers/redis.ts:98-108 | answers like the histories it stands for |
| `RedisCheckpoints.RedisCheckpointer.PutCheckpoint` | src/checkpointers/redis.ts:110-119 | keeps standing for the histories after the put |
| `RedisCheckpoints.RedisCheckpointer.List` | src/checkpointers/redis.ts:121-153 | answers like the histories it stands for |
| `RedisCheckpoints.RedisCheckpointer.DeleteThread` | src/checkpointers/redis.ts:155-162 | keeps standing for the histories after the delete |
| `RedisCheckpoints.SameAnswers` | src/checkpointers/redis.ts:98-162 | any sequence of requests is answered like the in-memory checkpointer answers it |
| `WorkspaceCheckpoints.IdRoundTrip` | src/harness/WorkspaceCheckpointer.ts:171-179 | a printed id parses back to its thread and step if and only if the step is not negative, even when the thread's name looks like an id |
| `WorkspaceCheckpoints.ParseIsExact` | src/harness/WorkspaceCheckpointer.ts:171-179 | any id parses to the shortest thread before the mark and the number its digits mean, or not at all |
| `WorkspaceCheckpoints.HashesAreHex` | src/harness/WorkspaceCheckpointer.ts:52 | a hash is four to forty hexadecimal digits in either case |
| `WorkspaceCheckpoints.RollbackIsExact` | src/harness/WorkspaceCheckpointer.ts:193-203 | the thread keeps exactly its checkpoints up to the target and other threads are untouched |
| `WorkspaceCheckpoints.RollbackTargetIsLatest` | src/harness/WorkspaceCheckpointer.ts:193-207 | if the target exists, the next get returns it |
| `WorkspaceCheckpoints.RestoredIsRolledBack` | src/harness/WorkspaceCheckpointer.ts:193-203 | deleting the thread and putting the kept checkpoints again truncates it |
| `WorkspaceCheckpoints.FindStepFacts` | src/harness/WorkspaceCheckpointer.ts:205-207 | what is looked up is the checkpoint of that step, if and only if there is one |
| `WorkspaceCheckpoints.WorkspaceCheckpointer.PutCheckpoint` | src/harness/WorkspaceCheckpointer.ts:115-124 | stores the checkpoint and records a commit only if git made one |
| `WorkspaceCheckpoints.WorkspaceCheckpointer.RollbackTo` | src/harness/WorkspaceCheckpointer.ts:154-207 | succeeds exactly when mapping, git, hash, id and checkout allow; on failure checkpoints and files are unchanged, on success the thread is truncated and the files are those of the hash found |
| `WorkspaceCheckpoints.OldestCommitIsUsed` | src/harness/WorkspaceCheckpointer.ts:154-160 | the hash a rollback finds is the first one recorded for the id, which is the last one if and only if the id was committed once |
| `WorkspaceCheckpoints.SecondCommitIsIgnored` | src/harness/WorkspaceCheckpointer.ts:154-160 | of two commits of one step the first is found |
| `WorkspaceCheckpoints.CommitThenRollback` | src/harness/WorkspaceCheckpointer.ts:115-207 | after a committed put, later puts of any threads and steps with commits of their own, and a rollback to its id, the newest checkpoint of its step is the latest again and the files are those of the oldest commit of that id |
| `Jsonc.StripJsonComments` | src/config/loader.ts:22-85 | the scanner computes "lex, drop comments but keep their newlines, print", for all inputs |
| `Jsonc.CopyString` | src/config/loader.ts:30-50 | copies a literal up to its closing quote, escapes included, or an unterminated one to the end |
| `Jsonc.SkipBlock` | src/config/loader.ts:62-77 | skips to behind the end of the comment, or to the end of the text, keeping exactly the newlines |
| `Jsonc.LexIsLossless` | src/config/loader.ts:22-85 | the tokens cover the text without loss |
| `Jsonc.StripKeepsLines` | src/config/loader.ts:62-77 | the number of newlines is kept, in the whole and up to every token |
| `Jsonc.StrippedLexes` | src/config/loader.ts:22-85 | the stripped text lexes to the tokens of the original without its comments |
| `Jsonc.UnchangedIffCommentFree` | src/config/loader.ts:22-85 | text is unchanged if and only if it has no comment |
| `Jsonc.StripIsIdempotent` | src/config/loader.ts:22-85 | stripping twice is stripping once |
| `Jsonc.LiteralsAreVerbatim` | src/config/loader.ts:30-50 | every string literal is still there, verbatim and in order |
| `Jsonc.LiteralsAreAll` | src/config/loader.ts:30-50 | the literals compared are all literal tokens, as often as they occur |
| `PubSubs.MatchSegments` | src/coordination/pubsub.ts:117-133 | the index search with its inner loop decides the recursive match and terminates |
| `PubSubs.MatchIffDivides` | src/coordination/pubsub.ts:117-133 | a match exists if and only if the topic can be divided so that each pattern segment stands for its piece |
| `PubSubs.TopicMatchesIffDivides` | src/coordination/pubsub.ts:111-115 | a pattern matches if and only if it is the global wildcard or divides the topic; the equality shortcut is implied |
| `PubSubs.DeepWildcardsCollapse` | src/coordination/pubsub.ts:120-126 | neighbouring deep wildcards mean the same as one |
| `PubSubs.DeliveriesAreMatches` | src/coordination/pubsub.ts:36-50 | a handler is called if and only if it is registered under a matching pattern |
| `PubSubs.DeliveriesPerPattern` | src/coordination/pubsub.ts:36-50 | a handler is called as often as patterns it subscribed match |
| `PubSubs.UnsubscribeUndoes` | src/coordination/pubsub.ts:57-77 | unsubscribing undoes a subscription, order of patterns included |
| `PubSubs.PubSub.Publish` | src/coordination/pubsub.ts:29-51 | the buffer holds the last messages published, up to its bound, and each handler is called once for each matching pattern it subscribed, in registration order |
| `PubSubs.PubSub.Subscribe` | src/coordination/pubsub.ts:57-67 | adds the handler once under its pattern |
| `PubSubs.PubSub.Unsubscribe` | src/coordination/pubsub.ts:68-76 | removes the handler, and the pattern with its last handler |
| `PubSubs.PubSub.GetMessages` | src/coordination/pubsub.ts:80-82 | the buffered messages whose topic matches, in order |
| `PubSubs.MatchingIsExact` | src/coordination/pubsub.ts:80-82 | in the order of the buffer, each message whose topic matches, as often as it is there, and no other |
| `PubSubs.PubSub.Flush` | src/coordination/pubsub.ts:85-89 | hands out the whole buffer and empties it |
| `TokenStreams.NothingLostOrRepeated` | src/streaming.ts:67-108 | for every interleaving and any number of consumers: assigned tokens then queue are the tokens pushed, each consumer delivers its own in order, and whoever waits finds the queue empty |
| `TokenStreams.SingleConsumerOrder` | src/streaming.ts:67-108 | with one consumer, delivered, in hand and queued are in this order the tokens pushed |
| `TokenStreams.RunKeepsOnlyConsumer` | src/streaming.ts:67-108 | the single-consumer statement holds in every run |
| `TokenStreams.ConsumerFinishes` | src/streaming.ts:80-107 | after the end a consumer returns after so many steps, having delivered every token once in order |
| `TokenStreams.EveryConsumerFinishes` | src/streaming.ts:80-107 | for any number of consumers and every schedule that resumes each often enough after the end, all return, each has delivered its own tokens in order, and together they delivered the tokens pushed, each once, if and only if somebody was left to take what was queued |
| `TokenStreams.TokenStreamWriter.PushToken` | src/streaming.ts:72-78 | hands the token to the longest waiting consumer or queues it, keeping the invariant |
| `TokenStreams.TokenStreamWriter.EndStream` | src/streaming.ts:80-84 | wakes every waiting consumer with the end |
| `TokenStreams.TokenStreamWriter.Next` | src/streaming.ts:86-107 | one run of a consumer to its next suspension yields exactly what it adds to its deliveries |
| `TokenStreams.Perform` | src/streaming.ts:67-108 | the writer does what an event of a run says |
| `BoundedBuffers.BoundedBuffer.Push` | src/streaming.ts:208-223 | contents are the last elements including the new one; with the error strategy a full buffer refuses and is unchanged |
| `BoundedBuffers.BoundedBuffer.Drain` | src/streaming.ts:225-235 | hands out the contents oldest first and empties the ring |
| `BoundedBuffers.PushesKeepTheLast` | src/streaming.ts:208-235 | whatever was dropped on the way, a drain gives the last elements pushed |
| `BoundedBuffers.SlotIsModulo` | src/streaming.ts:210-228 | the wrap-around index arithmetic names the intended place of the ring |
| `CircuitBreakers.AdmissionFollowsHistory` | src/circuit-breaker.ts:33-48 | a call enters if and only if fewer than threshold calls failed in a row, or the last failure is long enough ago and no call entered since; any other gets the fallback if there is one, and the error if not |
| `CircuitBreakers.RunFollowsHistory` | src/circuit-breaker.ts:26-81 | for all overlapping calls and clocks that do not run backwards, every decision in the log is the one its earlier part calls for |
| `CircuitBreakers.InFlightIsUnsettled` | src/circuit-breaker.ts:49-57 | in every run, exactly the calls that entered and have not settled are in flight, probes as probes |
| `CircuitBreakers.ClosedIsBelowThreshold` | src/circuit-breaker.ts:65-74 | closed means fewer consecutive failures than the threshold in every run if and only if the threshold is at least one |
| `CircuitBreakers.QuietAfterFailure` | src/circuit-breaker.ts:26-57 | after a failure that left the breaker open, no call enters before resetAfter unless one succeeded or it was reset |
| `CircuitBreakers.OneProbePerEpisode` | src/circuit-breaker.ts:40-48 | between two calls that enter a breaker that is not closed, some call settles or it is reset |
| `CircuitBreakers.SecondProbeNeedsCompany` | src/circuit-breaker.ts:26-74 | when a call enters as a probe, a second probe can enter before it settles and without a reset if and only if another call is in flight at that moment |
| `CircuitBreakers.LonelyProbeBlocks` | src/circuit-breaker.ts:40-48 | while a probe is the only call in flight, nothing else enters until it settles or the breaker is reset |
| `CircuitBreakers.ProbesCanOverlap` | src/circuit-breaker.ts:26-74 | for every threshold of at least one, a run without a reset that ends with two different probes in flight |
| `CircuitBreakers.CircuitBreaker.GetState` | src/circuit-breaker.ts:26-31 | reading the state moves an open breaker on once the time has passed |
| `CircuitBreakers.CircuitBreaker.Admit` | src/circuit-breaker.ts:33-48 | decides a call before anything is awaited, with the fallback as a third outcome |
| `CircuitBreakers.CircuitBreaker.OnSuccess` | src/circuit-breaker.ts:59-63 | closes from every state |
| `CircuitBreakers.CircuitBreaker.OnFailure` | src/circuit-breaker.ts:65-74 | counts, stamps and opens |
| `CircuitBreakers.CircuitBreaker.Reset` | src/circuit-breaker.ts:76-81 | as new |
| `CircuitBreakers.Perform` | src/circuit-breaker.ts:26-81 | the breaker does what an event of a run says |
| `RequestReply.SettledAtMostOnce` | src/coordination/request-reply.ts:31-183 | in every run, late timers included: the four maps have the same keys in the same order, each with a live timer, and no promise settles twice |
| `RequestReply.SettledForGood` | src/coordination/request-reply.ts:78-86 | a request keeps its parties and payload, and once settled nothing about it changes |
| `RequestReply.RequestIsAddressed` | src/coordination/request-reply.ts:42-101 | a request goes out under its own id from asker to asked with the payload and is open; an unserializable payload changes nothing |
| `RequestReply.RecordsFollowEvents` | src/coordination/request-reply.ts:42-183 | in every run, each request on record was made so, and each settlement has its cause: a reply with that payload, the timer, or disposal |
| `RequestReply.ReplyReachesRequester` | src/coordination/request-reply.ts:107-145 | a reply is accepted exactly while the promise is unsettled, settles it with its payload and is addressed back to the requester; no other request changes |
| `RequestReply.StaleTimerIsHarmless` | src/coordination/request-reply.ts:78-86 | a timer that fires after its request settled changes nothing |
| `RequestReply.DisposeSettlesAll` | src/coordination/request-reply.ts:166-182 | after disposal every promise ever issued has settled exactly once and no timer is left |
| `RequestReply.ReportedIsUnsettled` | src/coordination/request-reply.ts:148-160 | what is reported as pending is exactly what was asked of that agent and has not settled |
| `RequestReply.ReportedInOrder` | src/coordination/request-reply.ts:156-160 | pending requests are reported in the order in which they were made |
| `RequestReply.RequestReplyBroker.MakeRequest` | src/coordination/request-reply.ts:42-101 | throws before any change if the payload cannot be serialized |
| `RequestReply.RequestReplyBroker.OnTimeout` | src/coordination/request-reply.ts:78-88 | the callback settles an unresolved request and forgets it |
| `RequestReply.RequestReplyBroker.MakeReply` | src/coordination/request-reply.ts:107-145 | settles, forgets and answers, or errs without change |
| `RequestReply.RequestReplyBroker.HasPending` | src/coordination/request-reply.ts:148-153 | true if and only if something would be reported |
| `RequestReply.RequestReplyBroker.GetPending` | src/coordination/request-reply.ts:156-160 | the unresolved requests to the agent in the order in which they were made |
| `RequestReply.RequestReplyBroker.DisposeBroker` | src/coordination/request-reply.ts:166-182 | clears the timers, rejects what is unresolved, empties the maps |
| `RequestReply.Perform` | src/coordination/request-reply.ts:42-183 | the broker does what an event of a run says |

## Left out

- The Pregel runner, swarm templates, tool registry, policy engine and agent registry: not self-contained.
- Process start, exit handlers and restarts, sockets, SQL, HTTP and git commands: one connection lifetime, git as parameters of `put` and `rollbackTo`; SQLite is modelled by the same histories as the in-memory checkpointer.
- The LSP client's request table, its server requests and its diagnostics cache: the request table repeats the one in `McpRequests` and would only add easy members.
- UTF-8 decoding of bodies and event texts: bytes and characters are modelled directly, and only the white space that the header pattern accepts is decoded.
- `JSON.parse` and `JSON.stringify`: payloads are text, and parsing is a parameter where its result matters.
- `parseDataUrl` and the serialization of multi-part tool-result contents: images keep their URL and results their content.
- Header parsing of lengths beyond 2^53: such a length exceeds the buffer cap, so its rounding cannot be observed.
- `deepMerge`: not associative in general, so there is no law to state.
- `summarize` and the lock chain of `compact`: the summary text, or the lack of one, is a parameter, and compactions run one after another.
- Events, audit records and usage callbacks of the agent loop, the order in which parallel tools run, and a model that changes the message array it is given.
- A handler that publishes or unsubscribes while it is being called, and handlers that throw: delivery goes to the snapshot taken before the first call. Likewise a notification handler that stops the transport while the buffer is being processed.
- Record ids that are names of `Object.prototype` properties in the file stores, and crashes between the steps of an update; a rename is atomic.
- FileStore: the store is a state machine on values and not a class, because its operations interleave between their awaits.
- Aliasing of objects handed out by `get`, `list` and `getPending`: records are values.
- BoundedBuffers.BoundedBuffer.constructor: requires a capacity of at least one, because a capacity of zero makes the ring's indices not a number.
- WorkspaceCheckpoints.WorkspaceCheckpointer.RollbackTo: does not model an interruption between the delete and the last put, nor steps printed in exponent notation (10^21 and above).
- Redis's order of members with equal scores: a member of an index prints its score, so no two have the same.
- RedisCheckpoints.FetchBefore: has no branch for a missing data key, because every indexed step has its data (`RedisCheckpoints.IndexedSteps`).
- TokenStreams.NothingLostOrRepeated: does not model a consumer that stops iterating early; its unread token would be lost with it.
- CLI, logger, telemetry, prompts, Mermaid output, trackers and bounded logs: text output, glue or easy members.
