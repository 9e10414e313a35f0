/**
 The canonical message format shared by the agent loop, the compactor and the
 model adapters, and how its messages look to the pairing rules. A missing list
 of tool calls is an empty list, and the text of arguments and results is kept
 as it is, without being parsed.
 */
module ModelMessages {
  import opened Wrappers
  import opened Pairing

  datatype Role = User | Assistant | System | Tool

  datatype PartType = TextType | ImageType

  datatype ContentPart = ContentPart(kind: PartType, text: Option<string>, imageUrl: Option<string>)

  function PartText(part: ContentPart): string {
    match part.text
    case Some(t) => t
    case None => ""
  }

  datatype Content = Text(text: string) | Parts(parts: seq<ContentPart>)

  /** `args` is the JSON text of the arguments. */
  datatype ToolCall = ToolCall(id: string, name: string, args: string)

  /** A missing tool-call id is the empty string; missing tool calls are the empty list. */
  datatype Message = Message(role: Role, content: Content, name: string, toolCallId: string, toolCalls: seq<ToolCall>)

  function Ids(calls: seq<ToolCall>): (ids: seq<string>)
    ensures |ids| == |calls|
    ensures forall i :: 0 <= i < |calls| ==> ids[i] == calls[i].id
  {
    seq(|calls|, i requires 0 <= i < |calls| => calls[i].id)
  }

  predicate HasCalls(m: Message) {
    m.role == Assistant && |m.toolCalls| > 0
  }

  function ItemOf(m: Message): Item {
    if m.role == System then SystemItem
    else if m.role == Tool then ResultItem(m.toolCallId)
    else if HasCalls(m) then CallsItem(Ids(m.toolCalls))
    else PlainItem
  }

  function Items(s: seq<Message>): (items: seq<Item>)
    ensures |items| == |s|
    ensures forall i :: 0 <= i < |s| ==> items[i] == ItemOf(s[i])
  {
    seq(|s|, i requires 0 <= i < |s| => ItemOf(s[i]))
  }

  lemma AnsweredItems(s: seq<Message>, pending: multiset<string>)
    requires s != []
    ensures Answered(Items(s), pending) <==>
            Fits(ItemOf(s[0]), pending) && Answered(Items(s[1..]), After(ItemOf(s[0]), pending))
  {
    assert Items(s) == [ItemOf(s[0])] + Items(s[1..]);
    AnsweredFirst(ItemOf(s[0]), Items(s[1..]), pending);
  }

  lemma ItemsConcat(s: seq<Message>, t: seq<Message>)
    ensures Items(s + t) == Items(s) + Items(t)
  {
  }
}
