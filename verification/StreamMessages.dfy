/** The messages the upstream decoder hands to the protocol adapters. */
module StreamMessages {
  datatype Thinking = Text(text: string) | Signature(signature: string) | RedactedThinking(data: string)

  datatype ToolCall = ToolCall(id: string, name: string, input: string, isLast: bool)

  datatype WebRef = WebRef(title: string, url: string)

  datatype Message =
    | WebReference(refs: seq<WebRef>)
    | Think(thinking: Thinking)
    | Content(text: string)
    | Tool(call: ToolCall)
    | StreamEnd

  /** The tool calls that open a tool block, as id and name: those that do not go on with
      the call before them.  Web references never come between, and thinking does only
      for the protocol that sends it. */
  function Heads(messages: seq<Message>, inTool: bool, thinkingCloses: bool): seq<(string, string)> {
    if messages == [] || messages[0].StreamEnd? then []
    else
      match messages[0]
      case Tool(call) =>
        var rest := Heads(messages[1..], true, thinkingCloses);
        if inTool then rest else [(call.id, call.name)] + rest
      case Content(_) => Heads(messages[1..], false, thinkingCloses)
      case Think(_) => Heads(messages[1..], inTool && !thinkingCloses, thinkingCloses)
      case WebReference(_) => Heads(messages[1..], inTool, thinkingCloses)
  }

  datatype StreamState = NotStarted | ContentBlockActive | Completed

  datatype LastContentType = Nothing | ThinkingType | TextType | InputJsonType

  /** An `AtomicU32` block counter wraps. */
  function Wrap32(n: nat): nat { n % 0x1_0000_0000 }

  lemma WrapNext(n: nat)
    ensures Wrap32(Wrap32(n) + 1) == Wrap32(n + 1)
  {}

  /** Indices that count up from `first`, wrapping at 32 bits. */
  predicate Consecutive(starts: seq<nat>, first: nat) {
    starts == [] || (starts[0] == Wrap32(first) && Consecutive(starts[1..], first + 1))
  }

  lemma {:induction false} ConsecutiveAt(starts: seq<nat>, first: nat, k: nat)
    requires Consecutive(starts, first) && k < |starts|
    ensures starts[k] == Wrap32(first + k)
    decreases k
  {
    if k == 0 {
    } else {
      ConsecutiveAt(starts[1..], first + 1, k - 1);
    }
  }

  lemma ConsecutiveCons(x: nat, rest: seq<nat>, first: nat)
    requires x == Wrap32(first) && Consecutive(rest, first + 1)
    ensures Consecutive([x] + rest, first)
  {
    assert ([x] + rest)[1..] == rest;
  }
}
