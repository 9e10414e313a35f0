/** Converting the canonical history to Anthropic messages, with the results of a turn in one user message. */
module AnthropicMessages {
  import opened Wrappers
  import opened Pairing
  import opened ModelMessages

  datatype Block =
    | TextBlock(text: string)
    | ToolUse(id: string, name: string, args: string)
    | ToolResult(id: string, content: Content)
    | ImageBlock(imageUrl: string)

  datatype ApiRole = ApiUser | ApiAssistant

  datatype ApiMessage = ApiText(role: ApiRole, text: string) | ApiBlocks(role: ApiRole, blocks: seq<Block>)

  datatype Converted = Converted(system: Option<string>, messages: seq<ApiMessage>)

  // ---- One message ----

  function TextOfParts(parts: seq<ContentPart>): string {
    if parts == [] then ""
    else (if parts[0].kind == TextType then PartText(parts[0]) else "") + TextOfParts(parts[1..])
  }

  function TextOf(content: Content): string {
    match content
    case Text(t) => t
    case Parts(parts) => TextOfParts(parts)
  }

  predicate HasMultimodal(content: Content) {
    content.Parts? && exists i :: 0 <= i < |content.parts| && content.parts[i].kind != TextType
  }

  function PartBlock(part: ContentPart): Block {
    match part.kind
    case TextType => TextBlock(PartText(part))
    case ImageType => ImageBlock(match part.imageUrl case Some(u) => u case None => "")
  }

  function PartBlocks(parts: seq<ContentPart>): seq<Block> {
    seq(|parts|, i requires 0 <= i < |parts| => PartBlock(parts[i]))
  }

  function UseBlocks(calls: seq<ToolCall>): seq<Block> {
    seq(|calls|, i requires 0 <= i < |calls| => ToolUse(calls[i].id, calls[i].name, calls[i].args))
  }

  function CallBlocks(m: Message): seq<Block> {
    var text := TextOf(m.content);
    (if text == "" then [] else [TextBlock(text)]) + UseBlocks(m.toolCalls)
  }

  /** A message that is neither a system message nor a tool result. */
  function ConvertOne(m: Message): ApiMessage {
    if HasCalls(m) then ApiBlocks(ApiAssistant, CallBlocks(m))
    else if m.role == User && HasMultimodal(m.content) then ApiBlocks(ApiUser, PartBlocks(m.content.parts))
    else ApiText(if m.role == User then ApiUser else ApiAssistant, TextOf(m.content))
  }

  // ---- The whole history ----

  function Flush(pending: seq<Block>): seq<ApiMessage> {
    if pending == [] then [] else [ApiBlocks(ApiUser, pending)]
  }

  /** Results wait in `pending` until a message of another kind, or the end, sends them off together. */
  function Regroup(pending: seq<Block>, s: seq<Message>): seq<ApiMessage>
    decreases s
  {
    if s == [] then Flush(pending)
    else
      match s[0].role
      case System => Regroup(pending, s[1..])
      case Tool => Regroup(pending + [ToolResult(s[0].toolCallId, s[0].content)], s[1..])
      case _ => Flush(pending) + [ConvertOne(s[0])] + Regroup([], s[1..])
  }

  function AddSystem(system: Option<string>, text: string): Option<string> {
    if system.Some? && system.value != "" then Some(system.value + "\n" + text) else Some(text)
  }

  function SystemText(system: Option<string>, s: seq<Message>): Option<string>
    decreases s
  {
    if s == [] then system
    else SystemText(if s[0].role == System then AddSystem(system, TextOf(s[0].content)) else system, s[1..])
  }

  lemma RegroupTurn(before: seq<ApiMessage>, pending: seq<Block>, s: seq<Message>)
    requires s != [] && s[0].role != System && s[0].role != Tool
    ensures before + Regroup(pending, s) ==
            (if pending == [] then before else before + [ApiBlocks(ApiUser, pending)]) + [ConvertOne(s[0])]
            + Regroup([], s[1..])
  {
    Reassociate(before, Flush(pending), [ConvertOne(s[0])] + Regroup([], s[1..]));
    Reassociate(before + Flush(pending), [ConvertOne(s[0])], Regroup([], s[1..]));
    Reassociate(Flush(pending), [ConvertOne(s[0])], Regroup([], s[1..]));
    assert before + [] == before;
  }

  lemma Reassociate<T>(a: seq<T>, b: seq<T>, c: seq<T>)
    ensures a + b + c == a + (b + c)
  {
  }

  predicate Identified(s: seq<Message>) {
    forall i :: 0 <= i < |s| && s[i].role == Tool ==> s[i].toolCallId != ""
  }

  /** Fails exactly when some tool result has no call id. */
  method ConvertMessages(messages: seq<Message>) returns (r: Result<Converted, string>)
    ensures r.Ok? <==> Identified(messages)
    ensures r.Ok? ==> r.value == Converted(SystemText(None, messages), Regroup([], messages))
  {
    var system: Option<string> := None;
    var converted: seq<ApiMessage> := [];
    var pendingToolResults: seq<Block> := [];
    assert messages[0..] == messages;
    for i := 0 to |messages|
      invariant Identified(messages[..i])
      invariant SystemText(system, messages[i..]) == SystemText(None, messages)
      invariant converted + Regroup(pendingToolResults, messages[i..]) == Regroup([], messages)
    {
      var msg := messages[i];
      ghost var rest := messages[i..];
      assert rest[0] == msg && rest[1..] == messages[i + 1..];
      if msg.role == System {
        system := AddSystem(system, TextOf(msg.content));
        continue;
      }
      if msg.role == Tool {
        if msg.toolCallId == "" {
          return Err("Tool result message is missing required toolCallId.");
        }
        pendingToolResults := pendingToolResults + [ToolResult(msg.toolCallId, msg.content)];
        continue;
      }
      RegroupTurn(converted, pendingToolResults, rest);
      if |pendingToolResults| > 0 {
        converted := converted + [ApiBlocks(ApiUser, pendingToolResults)];
        pendingToolResults := [];
      }
      converted := converted + [ConvertOne(msg)];
    }
    if |pendingToolResults| > 0 {
      converted := converted + [ApiBlocks(ApiUser, pendingToolResults)];
    }
    assert messages[..|messages|] == messages;
    r := Ok(Converted(system, converted));
  }

  // ---- Nothing is lost or reordered ----

  function Flatten(m: ApiMessage): seq<Block> {
    match m
    case ApiText(_, text) => [TextBlock(text)]
    case ApiBlocks(_, blocks) => blocks
  }

  /** A block and the party that says it. */
  datatype Said = Said(role: ApiRole, block: Block)

  function SaidBy(role: ApiRole, blocks: seq<Block>): (said: seq<Said>)
    ensures |said| == |blocks|
    ensures forall i :: 0 <= i < |said| ==> said[i] == Said(role, blocks[i])
  {
    seq(|blocks|, i requires 0 <= i < |blocks| => Said(role, blocks[i]))
  }

  function Attributed(s: seq<ApiMessage>): seq<Said> {
    if s == [] then [] else SaidBy(s[0].role, Flatten(s[0])) + Attributed(s[1..])
  }

  /** The texts of the text parts one after another, images left out. */
  function PlainParts(parts: seq<ContentPart>): string {
    if parts == [] then "" else PlainParts(parts[..|parts| - 1]) + OwnText(parts[|parts| - 1])
  }

  function OwnText(part: ContentPart): string {
    match part
    case ContentPart(TextType, Some(text), _) => text
    case _ => ""
  }

  function PlainText(content: Content): string {
    match content
    case Text(t) => t
    case Parts(parts) => PlainParts(parts)
  }

  /** The blocks that each kind of message calls for, read off its own fields. */
  ghost predicate Says(m: Message, said: seq<Said>) {
    var text := PlainText(m.content);
    match m.role
    case System => said == []
    case Tool => said == [Said(ApiUser, ToolResult(m.toolCallId, m.content))]
    case User =>
      if m.content.Parts? && exists p :: p in m.content.parts && p.kind == ImageType
      then |said| == |m.content.parts| && forall i :: 0 <= i < |said| ==> ShowsPart(said[i], m.content.parts[i])
      else said == [Said(ApiUser, TextBlock(text))]
    case Assistant =>
      if m.toolCalls == [] then said == [Said(ApiAssistant, TextBlock(text))]
      else
        var n := if text == "" then 0 else 1;
        && |said| == n + |m.toolCalls| && (n == 1 ==> said[0] == Said(ApiAssistant, TextBlock(text)))
        && forall i :: 0 <= i < |m.toolCalls| ==> MakesCall(said[n + i], m.toolCalls[i])
  }

  ghost predicate ShowsPart(x: Said, part: ContentPart) {
    x.role == ApiUser &&
    match part
    case ContentPart(TextType, Some(text), _) => x.block == TextBlock(text)
    case ContentPart(TextType, None, _) => x.block == TextBlock("")
    case ContentPart(ImageType, _, Some(url)) => x.block == ImageBlock(url)
    case ContentPart(ImageType, _, None) => x.block == ImageBlock("")
  }

  ghost predicate MakesCall(x: Said, call: ToolCall) {
    x.role == ApiAssistant && x.block == ToolUse(call.id, call.name, call.args)
  }

  /** The messages say, one after another, what these pieces say. */
  ghost predicate SaysInTurn(s: seq<Message>, said: seq<Said>)
    decreases s
  {
    if s == [] then said == []
    else exists n :: 0 <= n <= |said| && Says(s[0], said[..n]) && SaysInTurn(s[1..], said[n..])
  }

  lemma FirstPart(part: ContentPart, parts: seq<ContentPart>)
    ensures TextOfParts([part] + parts) == OwnText(part) + TextOfParts(parts)
  {
    assert ([part] + parts)[1..] == parts;
  }

  lemma {:induction false} OneMorePart(parts: seq<ContentPart>, part: ContentPart)
    ensures TextOfParts(parts + [part]) == TextOfParts(parts) + OwnText(part)
  {
    if parts == [] {
      FirstPart(part, []);
      assert [] + [part] == [part] + [];
      assert OwnText(part) + "" == "" + OwnText(part);
    } else {
      var first, rest := parts[0], parts[1..];
      OneMorePart(rest, part);
      FirstPart(first, rest + [part]);
      FirstPart(first, rest);
      assert parts == [first] + rest && parts + [part] == [first] + (rest + [part]);
      Reassociate(OwnText(first), TextOfParts(rest), OwnText(part));
    }
  }

  lemma {:induction false} TextIsPlain(parts: seq<ContentPart>)
    ensures TextOfParts(parts) == PlainParts(parts)
  {
    if parts != [] {
      var n := |parts| - 1;
      TextIsPlain(parts[..n]);
      OneMorePart(parts[..n], parts[n]);
      assert parts[..n] + [parts[n]] == parts;
    }
  }

  lemma ContentIsPlain(content: Content)
    ensures TextOf(content) == PlainText(content)
  {
    if content.Parts? {
      TextIsPlain(content.parts);
    }
  }

  lemma TurnSays(m: Message)
    requires m.role != System && m.role != Tool
    ensures Says(m, SaidBy(ConvertOne(m).role, Flatten(ConvertOne(m))))
  {
    ContentIsPlain(m.content);
    if m.role == User {
      UserSays(m);
    } else if HasCalls(m) {
      CallsSay(m);
    }
  }

  lemma UserSays(m: Message)
    requires m.role == User
    ensures Says(m, SaidBy(ConvertOne(m).role, Flatten(ConvertOne(m))))
  {
    ContentIsPlain(m.content);
    if HasMultimodal(m.content) {
      var i :| 0 <= i < |m.content.parts| && m.content.parts[i].kind != TextType;
      assert m.content.parts[i] in m.content.parts;
    }
  }

  lemma CallsSay(m: Message)
    requires HasCalls(m)
    ensures Says(m, SaidBy(ApiAssistant, CallBlocks(m)))
  {
    ContentIsPlain(m.content);
    var n := if PlainText(m.content) == "" then 0 else 1;
    var said := SaidBy(ApiAssistant, CallBlocks(m));
    forall i | 0 <= i < |m.toolCalls| ensures MakesCall(said[n + i], m.toolCalls[i]) {
    }
  }

  lemma {:induction false} AttributedConcat(s: seq<ApiMessage>, t: seq<ApiMessage>)
    ensures Attributed(s + t) == Attributed(s) + Attributed(t)
  {
    if s == [] {
      assert s + t == t;
    } else {
      assert (s + t)[1..] == s[1..] + t;
      AttributedConcat(s[1..], t);
    }
  }

  lemma AttributedTurn(pending: seq<Block>, c: ApiMessage, rest: seq<ApiMessage>)
    ensures Attributed(Flush(pending) + [c] + rest)
         == SaidBy(ApiUser, pending) + (SaidBy(c.role, Flatten(c)) + Attributed(rest))
  {
    AttributedFlush(pending);
    assert ([c] + rest)[1..] == rest && Flush(pending) + [c] + rest == Flush(pending) + ([c] + rest);
    AttributedConcat(Flush(pending), [c] + rest);
  }

  lemma AttributedFlush(pending: seq<Block>)
    ensures Attributed(Flush(pending)) == SaidBy(ApiUser, pending)
  {
    if pending != [] {
      assert SaidBy(ApiUser, pending) + [] == SaidBy(ApiUser, pending);
    }
  }

  /** Behind what waits in `pending`, the conversion of `s` says what `s` says. */
  ghost predicate SaysAll(pending: seq<Block>, s: seq<Message>) {
    exists said :: SaysInTurn(s, said) && Attributed(Regroup(pending, s)) == SaidBy(ApiUser, pending) + said
  }

  lemma SaysFirst(s: seq<Message>, first: seq<Said>, later: seq<Said>)
    requires s != [] && Says(s[0], first) && SaysInTurn(s[1..], later)
    ensures SaysInTurn(s, first + later)
  {
    var said := first + later;
    assert said[..|first|] == first && said[|first|..] == later;
  }

  lemma SaysResult(pending: seq<Block>, s: seq<Message>)
    requires s != [] && s[0].role == Tool
    requires SaysAll(pending + [ToolResult(s[0].toolCallId, s[0].content)], s[1..])
    ensures SaysAll(pending, s)
  {
    var result := ToolResult(s[0].toolCallId, s[0].content);
    var said :| SaysInTurn(s[1..], said)
                && Attributed(Regroup(pending + [result], s[1..])) == SaidBy(ApiUser, pending + [result]) + said;
    var first := [Said(ApiUser, result)];
    SaysFirst(s, first, said);
    assert Regroup(pending, s) == Regroup(pending + [result], s[1..]);
    assert SaidBy(ApiUser, pending + [result]) == SaidBy(ApiUser, pending) + first;
    assert SaidBy(ApiUser, pending) + first + said == SaidBy(ApiUser, pending) + (first + said);
  }

  lemma SaysSystem(pending: seq<Block>, s: seq<Message>)
    requires s != [] && s[0].role == System && SaysAll(pending, s[1..])
    ensures SaysAll(pending, s)
  {
    assert Regroup(pending, s) == Regroup(pending, s[1..]);
    var said :| SaysInTurn(s[1..], said)
                && Attributed(Regroup(pending, s[1..])) == SaidBy(ApiUser, pending) + said;
    SaysFirst(s, [], said);
    assert [] + said == said;
  }

  lemma SaysTurn(pending: seq<Block>, s: seq<Message>)
    requires s != [] && s[0].role != System && s[0].role != Tool && SaysAll([], s[1..])
    ensures SaysAll(pending, s)
  {
    var c, rest := ConvertOne(s[0]), Regroup([], s[1..]);
    assert Regroup(pending, s) == Flush(pending) + [c] + rest;
    var said :| SaysInTurn(s[1..], said) && Attributed(rest) == SaidBy(ApiUser, []) + said;
    assert SaidBy(ApiUser, []) + said == said;
    TurnSays(s[0]);
    SaysFirst(s, SaidBy(c.role, Flatten(c)), said);
    AttributedTurn(pending, c, rest);
  }

  lemma {:induction false} SaysEverything(pending: seq<Block>, s: seq<Message>)
    ensures SaysAll(pending, s)
    decreases |s|
  {
    if s == [] {
      AttributedFlush(pending);
      assert SaysInTurn([], []) && SaidBy(ApiUser, pending) + [] == SaidBy(ApiUser, pending);
    } else if s[0].role == System {
      SaysEverything(pending, s[1..]);
      SaysSystem(pending, s);
    } else if s[0].role == Tool {
      SaysEverything(pending + [ToolResult(s[0].toolCallId, s[0].content)], s[1..]);
      SaysResult(pending, s);
    } else {
      SaysEverything([], s[1..]);
      SaysTurn(pending, s);
    }
  }

  /**
   Block by block, the conversion says what the history says, in the same order
   and under the right role: assistant messages as the assistant, all others,
   tool results included, as the user.
   */
  lemma NothingLost(s: seq<Message>)
    ensures SaysInTurn(s, Attributed(Regroup([], s)))
  {
    SaysEverything([], s);
    var said :| SaysInTurn(s, said) && Attributed(Regroup([], s)) == SaidBy(ApiUser, []) + said;
    assert SaidBy(ApiUser, []) + said == said;
  }

  // ---- System messages ----

  /** The texts of the system messages. */
  function SystemTexts(s: seq<Message>): seq<string> {
    if s == [] then []
    else
      var m := s[|s| - 1];
      SystemTexts(s[..|s| - 1])
      + if m.role == System then [PlainText(m.content)] else []
  }

  function WithoutLeadingEmpty(texts: seq<string>): seq<string> {
    if texts != [] && texts[0] == "" then WithoutLeadingEmpty(texts[1..]) else texts
  }

  function Lines(texts: seq<string>): string {
    if texts == [] then ""
    else if |texts| == 1 then texts[0]
    else Lines(texts[..|texts| - 1]) + "\n" + texts[|texts| - 1]
  }

  lemma {:induction false} OneMoreLeading(texts: seq<string>, t: string)
    ensures WithoutLeadingEmpty(texts + [t]) ==
            if WithoutLeadingEmpty(texts) == [] then (if t == "" then [] else [t]) else WithoutLeadingEmpty(texts) + [t]
  {
    if texts == [] {
      assert [] + [t] == [t] && [t][1..] == [];
    } else if texts[0] == "" {
      OneMoreLeading(texts[1..], t);
      assert (texts + [t])[1..] == texts[1..] + [t];
    }
  }

  lemma {:induction false} LeadingIsNotEmpty(texts: seq<string>)
    ensures WithoutLeadingEmpty(texts) == [] || WithoutLeadingEmpty(texts)[0] != ""
  {
    if texts != [] && texts[0] == "" {
      LeadingIsNotEmpty(texts[1..]);
    }
  }

  lemma {:induction false} LinesNotEmpty(texts: seq<string>)
    requires texts != [] && texts[0] != ""
    ensures Lines(texts) != ""
  {
    if |texts| > 1 {
      LinesNotEmpty(texts[..|texts| - 1]);
    }
  }

  lemma {:induction false} SystemTextOneMore(system: Option<string>, s: seq<Message>, m: Message)
    ensures SystemText(system, s + [m]) ==
            if m.role == System then AddSystem(SystemText(system, s), TextOf(m.content)) else SystemText(system, s)
    decreases s
  {
    if s == [] {
      assert [] + [m] == [m] && [m][1..] == [];
    } else {
      assert (s + [m])[1..] == s[1..] + [m];
      SystemTextOneMore(if s[0].role == System then AddSystem(system, TextOf(s[0].content)) else system, s[1..], m);
    }
  }

  lemma LinesOneMore(texts: seq<string>, t: string)
    requires texts != []
    ensures Lines(texts + [t]) == Lines(texts) + "\n" + t
  {
    assert (texts + [t])[..|texts|] == texts;
  }

  /** Without system messages there is no system text; else it is their texts as lines, from the first non-empty on. */
  lemma {:induction false} SystemTextIsLines(s: seq<Message>)
    ensures SystemText(None, s) ==
            if SystemTexts(s) == [] then None else Some(Lines(WithoutLeadingEmpty(SystemTexts(s))))
  {
    if s != [] {
      var n := |s| - 1;
      SystemTextIsLines(s[..n]);
      SystemTextOneMore(None, s[..n], s[n]);
      assert s == s[..n] + [s[n]];
      if s[n].role == System {
        var texts, t := SystemTexts(s[..n]), TextOf(s[n].content);
        ContentIsPlain(s[n].content);
        OneMoreLeading(texts, t);
        LeadingIsNotEmpty(texts);
        var kept := WithoutLeadingEmpty(texts);
        if kept != [] {
          LinesNotEmpty(kept);
          LinesOneMore(kept, t);
        }
      } else {
        assert SystemTexts(s[..n]) + [] == SystemTexts(s[..n]);
      }
    }
  }

  // ---- Turns are grouped ----

  function ResultIdsOf(blocks: seq<Block>): seq<string> {
    if blocks == [] then []
    else
      ResultIdsOf(blocks[..|blocks| - 1])
      + match blocks[|blocks| - 1] { case ToolResult(id, _) => [id] case _ => [] }
  }

  function UseIdsOf(blocks: seq<Block>): seq<string> {
    if blocks == [] then []
    else
      UseIdsOf(blocks[..|blocks| - 1])
      + match blocks[|blocks| - 1] { case ToolUse(id, _, _) => [id] case _ => [] }
  }

  /** Each message's tool results answer exactly the tool uses of the message before it. */
  ghost predicate Grouped(s: seq<ApiMessage>, open: multiset<string>) {
    if s == [] then open == multiset{}
    else multiset(ResultIdsOf(Flatten(s[0]))) == open && Grouped(s[1..], multiset(UseIdsOf(Flatten(s[0]))))
  }

  lemma {:induction false} ResultIdsOfResults(blocks: seq<Block>, more: seq<Block>)
    ensures ResultIdsOf(blocks + more) == ResultIdsOf(blocks) + ResultIdsOf(more)
    ensures UseIdsOf(blocks + more) == UseIdsOf(blocks) + UseIdsOf(more)
    decreases |more|
  {
    if more == [] {
      assert blocks + more == blocks;
    } else {
      assert (blocks + more)[..|blocks + more| - 1] == blocks + more[..|more| - 1];
      ResultIdsOfResults(blocks, more[..|more| - 1]);
    }
  }

  lemma {:induction false} IdsOfUses(calls: seq<ToolCall>)
    ensures ResultIdsOf(UseBlocks(calls)) == [] && UseIdsOf(UseBlocks(calls)) == Ids(calls)
  {
    if calls != [] {
      var n := |calls| - 1;
      assert UseBlocks(calls)[..n] == UseBlocks(calls[..n]);
      IdsOfUses(calls[..n]);
      assert Ids(calls) == Ids(calls[..n]) + [calls[n].id];
    }
  }

  lemma {:induction false} IdsOfParts(parts: seq<ContentPart>)
    ensures ResultIdsOf(PartBlocks(parts)) == [] && UseIdsOf(PartBlocks(parts)) == []
  {
    if parts != [] {
      assert PartBlocks(parts)[..|parts| - 1] == PartBlocks(parts[..|parts| - 1]);
      IdsOfParts(parts[..|parts| - 1]);
    }
  }

  lemma IdsOfText(text: string)
    ensures ResultIdsOf([TextBlock(text)]) == [] && UseIdsOf([TextBlock(text)]) == []
  {
  }

  /** A converted message answers nothing and uses exactly the calls of its source. */
  lemma IdsOfTurn(m: Message)
    requires m.role != System && m.role != Tool
    ensures ResultIdsOf(Flatten(ConvertOne(m))) == []
    ensures UseIdsOf(Flatten(ConvertOne(m))) == if HasCalls(m) then Ids(m.toolCalls) else []
  {
    IdsOfText(TextOf(m.content));
    if HasCalls(m) {
      var text := TextOf(m.content);
      IdsOfUses(m.toolCalls);
      ResultIdsOfResults(if text == "" then [] else [TextBlock(text)], UseBlocks(m.toolCalls));
    } else if m.role == User && HasMultimodal(m.content) {
      IdsOfParts(m.content.parts);
    }
  }

  ghost predicate OnlyResults(blocks: seq<Block>) {
    forall b :: b in blocks ==> b.ToolResult?
  }

  lemma {:induction false} IdsOfResults(blocks: seq<Block>)
    requires OnlyResults(blocks)
    ensures UseIdsOf(blocks) == [] && |ResultIdsOf(blocks)| == |blocks|
  {
    if blocks != [] {
      var n := |blocks| - 1;
      assert blocks[n].ToolResult?;
      IdsOfResults(blocks[..n]);
    }
  }

  lemma GroupedFirst(m: ApiMessage, s: seq<ApiMessage>, open: multiset<string>)
    ensures Grouped([m] + s, open) <==>
            multiset(ResultIdsOf(Flatten(m))) == open && Grouped(s, multiset(UseIdsOf(Flatten(m))))
  {
    assert ([m] + s)[1..] == s;
  }

  /** Sending off the waiting results closes exactly the calls they answer. */
  lemma GroupedFlush(pending: seq<Block>, s: seq<ApiMessage>, open: multiset<string>)
    requires OnlyResults(pending)
    requires pending == [] ==> (Grouped(s, open) ==> open == multiset{})
    ensures var ids := multiset(ResultIdsOf(pending));
            Grouped(Flush(pending) + s, open) <==> ids == open && Grouped(s, multiset{})
  {
    IdsOfResults(pending);
    if pending == [] {
      assert Flush(pending) + s == s;
    } else {
      GroupedFirst(ApiBlocks(ApiUser, pending), s, open);
    }
  }

  lemma MultisetSplit(ids: multiset<string>, open: multiset<string>, id: string)
    ensures ids + multiset{id} <= open <==> ids <= open && id in open - ids
    ensures open - (ids + multiset{id}) == open - ids - multiset{id}
    ensures ids <= open && open - ids == multiset{} <==> ids == open
  {
    if ids <= open {
      assert open == ids + (open - ids);
      if id in open - ids {
        assert multiset{id} <= open - ids;
      }
    }
  }

  /** A converted message answers nothing, so it may follow only when no call is open. */
  lemma GroupedConverted(m: Message, rest: seq<ApiMessage>, open: multiset<string>)
    requires m.role != System && m.role != Tool
    ensures Grouped([ConvertOne(m)] + rest, open) <==>
            open == multiset{} && Grouped(rest, After(ItemOf(m), multiset{}))
  {
    IdsOfTurn(m);
    assert multiset(UseIdsOf(Flatten(ConvertOne(m)))) == After(ItemOf(m), multiset{});
    GroupedFirst(ConvertOne(m), rest, open);
  }

  lemma GroupedTurn(pending: seq<Block>, m: Message, rest: seq<ApiMessage>, open: multiset<string>)
    requires OnlyResults(pending) && m.role != System && m.role != Tool
    ensures Grouped(Flush(pending) + [ConvertOne(m)] + rest, open) <==>
            multiset(ResultIdsOf(pending)) == open && Grouped(rest, After(ItemOf(m), multiset{}))
  {
    var tail := [ConvertOne(m)] + rest;
    assert Flush(pending) + [ConvertOne(m)] + rest == Flush(pending) + tail;
    GroupedConverted(m, rest, open);
    GroupedConverted(m, rest, multiset{});
    GroupedFlush(pending, tail, open);
  }

  /** The conversion of `s` after `pending` results is grouped exactly when the rest of the open calls is answered. */
  ghost predicate GroupsWhatIsAnswered(pending: seq<Block>, s: seq<Message>, open: multiset<string>) {
    var ids := multiset(ResultIdsOf(pending));
    Grouped(Regroup(pending, s), open) <==> ids <= open && Answered(Items(s), open - ids)
  }

  lemma GroupsAtEnd(pending: seq<Block>, open: multiset<string>)
    requires OnlyResults(pending)
    ensures GroupsWhatIsAnswered(pending, [], open)
  {
    var ids := multiset(ResultIdsOf(pending));
    assert Flush(pending) + [] == Flush(pending);
    GroupedFlush(pending, [], open);
    MultisetSplit(ids, open, "");
    assert Items([]) == [];
  }

  lemma GroupsSystem(pending: seq<Block>, s: seq<Message>, open: multiset<string>)
    requires s != [] && s[0].role == System && GroupsWhatIsAnswered(pending, s[1..], open)
    ensures GroupsWhatIsAnswered(pending, s, open)
  {
    AnsweredItems(s, open - multiset(ResultIdsOf(pending)));
  }

  lemma OneMoreResult(pending: seq<Block>, id: string, content: Content)
    ensures multiset(ResultIdsOf(pending + [ToolResult(id, content)])) ==
            multiset(ResultIdsOf(pending)) + multiset{id}
  {
    var more := pending + [ToolResult(id, content)];
    assert more[..|more| - 1] == pending;
    assert ResultIdsOf(more) == ResultIdsOf(pending) + [id];
  }

  lemma GroupsResult(pending: seq<Block>, s: seq<Message>, open: multiset<string>)
    requires s != [] && s[0].role == Tool
    requires GroupsWhatIsAnswered(pending + [ToolResult(s[0].toolCallId, s[0].content)], s[1..], open)
    ensures GroupsWhatIsAnswered(pending, s, open)
  {
    var ids, id := multiset(ResultIdsOf(pending)), s[0].toolCallId;
    var more, rest := pending + [ToolResult(id, s[0].content)], s[1..];
    OneMoreResult(pending, id, s[0].content);
    assert Regroup(pending, s) == Regroup(more, rest);
    MultisetSplit(ids, open, id);
    assert Grouped(Regroup(more, rest), open) <==>
           ids + multiset{id} <= open && Answered(Items(rest), open - ids - multiset{id});
    assert ItemOf(s[0]) == ResultItem(id);
    AnsweredItems(s, open - ids);
  }

  lemma GroupsTurn(pending: seq<Block>, s: seq<Message>, open: multiset<string>)
    requires s != [] && s[0].role != System && s[0].role != Tool && OnlyResults(pending)
    requires GroupsWhatIsAnswered([], s[1..], After(ItemOf(s[0]), multiset{}))
    ensures GroupsWhatIsAnswered(pending, s, open)
  {
    var ids := multiset(ResultIdsOf(pending));
    var next := After(ItemOf(s[0]), multiset{});
    GroupedTurn(pending, s[0], Regroup([], s[1..]), open);
    assert multiset(ResultIdsOf([])) == multiset{} && next - multiset{} == next;
    MultisetSplit(ids, open, "");
    AnsweredItems(s, open - ids);
  }

  lemma {:induction false} GroupedIffAnswered(pending: seq<Block>, s: seq<Message>, open: multiset<string>)
    requires OnlyResults(pending)
    ensures GroupsWhatIsAnswered(pending, s, open)
    decreases |s|
  {
    if s == [] {
      GroupsAtEnd(pending, open);
    } else if s[0].role == System {
      GroupedIffAnswered(pending, s[1..], open);
      GroupsSystem(pending, s, open);
    } else if s[0].role == Tool {
      GroupedIffAnswered(pending + [ToolResult(s[0].toolCallId, s[0].content)], s[1..], open);
      GroupsResult(pending, s, open);
    } else {
      GroupedIffAnswered([], s[1..], After(ItemOf(s[0]), multiset{}));
      GroupsTurn(pending, s, open);
    }
  }

  /**
   In the converted conversation every message's tool results answer exactly
   the tool uses of the message before it, if and only if in the history every
   call is answered exactly once, right away.
   */
  lemma ConversionGroupsTurns(messages: seq<Message>)
    ensures Grouped(Regroup([], messages), multiset{}) <==> FullyAnswered(Items(messages))
  {
    GroupedIffAnswered([], messages, multiset{});
    assert multiset(ResultIdsOf([])) == multiset{};
  }

  /** In a grouped conversation each tool-use message is directly followed by its results and by nothing else's. */
  lemma {:induction false} GroupedNeighbours(s: seq<ApiMessage>, open: multiset<string>, k: nat)
    requires Grouped(s, open) && k < |s| && UseIdsOf(Flatten(s[k])) != []
    ensures k + 1 < |s| && multiset(ResultIdsOf(Flatten(s[k + 1]))) == multiset(UseIdsOf(Flatten(s[k])))
  {
    var next := multiset(UseIdsOf(Flatten(s[0])));
    if k > 0 {
      GroupedNeighbours(s[1..], next, k - 1);
    } else {
      assert UseIdsOf(Flatten(s[0]))[0] in next;
    }
  }
}
