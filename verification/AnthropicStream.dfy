/** The Anthropic adapter: how `process_messages` turns decoder messages into stream
    events. */
module AnthropicStream {
  import opened Sequences
  import opened StreamMessages

  datatype Kind = ThinkingBlock | TextBlock | ToolBlock

  /** What a `content_block_start` event announces. */
  datatype Start = ThinkingStart | TextStart | ToolStart(id: string, name: string)

  datatype Delta =
    | ThinkingDelta(thinking: string)
    | SignatureDelta(signature: string)
    | TextDelta(text: string)
    | InputJsonDelta(json: string)

  datatype Event =
    | MessageStart
    | Ping
    | BlockStart(index: nat, start: Start)
    | BlockDelta(index: nat, delta: Delta)
    | BlockStop(index: nat)

  // ----- the adapter, message by message

  /** The three atomics that survive from call to call. */
  datatype Context = Context(stream: StreamState, last: LastContentType, index: nat)

  const Fresh := Context(NotStarted, Nothing, 0)

  /** Close the current block, if any. */
  function Close(c: Context): seq<Event> {
    if c.last == Nothing then [] else [BlockStop(c.index)]
  }

  function NextIndex(c: Context): nat {
    if c.last == Nothing then c.index else Wrap32(c.index + 1)
  }

  /** Events before the delta of a thinking or text message, and the new context. */
  function Switch(c: Context, to: LastContentType, start: Start): (Context, seq<Event>) {
    var first := c.stream == NotStarted;
    var head := if first then [MessageStart] else [];
    if c.last == to then (c, head)
    else
      var i := NextIndex(c);
      (Context(ContentBlockActive, to, i), head + Close(c) + [BlockStart(i, start)] + (if first then [Ping] else []))
  }

  function ThinkDelta(t: Thinking, index: nat): seq<Event> {
    match t
    case Text(text) => [BlockDelta(index, ThinkingDelta(text))]
    case Signature(signature) => [BlockDelta(index, SignatureDelta(signature))]
    case RedactedThinking(_) => []
  }

  function Step(c: Context, m: Message): (Context, seq<Event>) {
    match m
    case Think(t) =>
      var (c1, events) := Switch(c, ThinkingType, ThinkingStart);
      (c1, events + ThinkDelta(t, c1.index))
    case Content(text) =>
      var (c1, events) := Switch(c, TextType, TextStart);
      (c1, events + [BlockDelta(c1.index, TextDelta(text))])
    case Tool(call) =>
      if c.last == InputJsonType then (c, [BlockDelta(c.index, InputJsonDelta(call.input))])
      else
        var i := NextIndex(c);
        (Context(ContentBlockActive, InputJsonType, i),
         Close(c) + [BlockStart(i, ToolStart(call.id, call.name)), BlockDelta(i, InputJsonDelta("")),
                     BlockDelta(i, InputJsonDelta(call.input))])
    case StreamEnd => (c.(stream := Completed), Close(c))
    case WebReference(_) => (c, [])
  }

  /** One call: the loop leaves at the first `StreamEnd`. */
  function Process(c: Context, messages: seq<Message>): (Context, seq<Event>)
    decreases |messages|
  {
    if messages == [] then (c, [])
    else
      var (c1, events) := Step(c, messages[0]);
      if messages[0].StreamEnd? then (c1, events)
      else
        var (c2, more) := Process(c1, messages[1..]);
        (c2, events + more)
  }

  /** The handler calls once per chunk and drops the stream once it is completed. */
  function Calls(c: Context, calls: seq<seq<Message>>): (Context, seq<Event>)
    decreases |calls|
  {
    if calls == [] || c.stream == Completed then (c, [])
    else
      var (c1, events) := Process(c, calls[0]);
      var (c2, more) := Calls(c1, calls[1..]);
      (c2, events + more)
  }

  /** The adapter as written: fields updated in place, events appended to a buffer. */
  class Adapter {
    var stream: StreamState
    var last: LastContentType
    var index: nat

    ghost function View(): Context
      reads this
    {
      Context(stream, last, index)
    }

    constructor ()
      ensures View() == Fresh
    {
      stream, last, index := NotStarted, Nothing, 0;
    }

    /** The `Thinking` branch; `out` is what it appends to the response. */
    method HandleThinking(t: Thinking) returns (out: seq<Event>)
      modifies this
      ensures View() == Step(old(View()), Think(t)).0 && out == Step(old(View()), Think(t)).1
    {
      out := [];
      var isStart := stream == NotStarted;
      if isStart { out := out + [MessageStart]; }
      if last != ThinkingType {
        if last != Nothing {
          out := out + [BlockStop(index)];
          index := Wrap32(index + 1);
        }
        out := out + [BlockStart(index, ThinkingStart)];
        if isStart { out := out + [Ping]; }
        last := ThinkingType;
        stream := ContentBlockActive;
      }
      match t {
        case Text(text) => out := out + [BlockDelta(index, ThinkingDelta(text))];
        case Signature(signature) => out := out + [BlockDelta(index, SignatureDelta(signature))];
        case RedactedThinking(_) =>
      }
    }

    /** The `Content` branch. */
    method HandleContent(text: string) returns (out: seq<Event>)
      modifies this
      ensures View() == Step(old(View()), Content(text)).0 && out == Step(old(View()), Content(text)).1
    {
      out := [];
      var isStart := stream == NotStarted;
      if isStart { out := out + [MessageStart]; }
      if last != TextType {
        if last != Nothing {
          out := out + [BlockStop(index)];
          index := Wrap32(index + 1);
        }
        out := out + [BlockStart(index, TextStart)];
        if isStart { out := out + [Ping]; }
        last := TextType;
        stream := ContentBlockActive;
      }
      out := out + [BlockDelta(index, TextDelta(text))];
    }

    /** The `ToolCall` branch. */
    method HandleTool(call: ToolCall) returns (out: seq<Event>)
      modifies this
      ensures View() == Step(old(View()), Tool(call)).0 && out == Step(old(View()), Tool(call)).1
    {
      out := [];
      if last != InputJsonType {
        if last != Nothing {
          out := out + [BlockStop(index)];
          index := Wrap32(index + 1);
        }
        out := out + [BlockStart(index, ToolStart(call.id, call.name))];
        out := out + [BlockDelta(index, InputJsonDelta(""))];
        last := InputJsonType;
        stream := ContentBlockActive;
      }
      out := out + [BlockDelta(index, InputJsonDelta(call.input))];
    }

    /** The `StreamEnd` branch. */
    method HandleEnd() returns (out: seq<Event>)
      modifies this
      ensures View() == Step(old(View()), StreamEnd).0 && out == Step(old(View()), StreamEnd).1
    {
      out := [];
      if last != Nothing {
        out := out + [BlockStop(index)];
      }
      stream := Completed;
    }

    method Handle(m: Message) returns (out: seq<Event>)
      modifies this
      ensures View() == Step(old(View()), m).0 && out == Step(old(View()), m).1
    {
      match m {
        case Think(t) => out := HandleThinking(t);
        case Content(text) => out := HandleContent(text);
        case Tool(call) => out := HandleTool(call);
        case StreamEnd => out := HandleEnd();
        case WebReference(_) => out := [];
      }
    }

    method ProcessMessages(messages: seq<Message>) returns (out: seq<Event>)
      modifies this
      ensures View() == Process(old(View()), messages).0 && out == Process(old(View()), messages).1
    {
      out := [];
      ghost var goal := Process(View(), messages);
      assert messages[0..] == messages;
      for k := 0 to |messages|
        invariant goal.0 == Process(View(), messages[k..]).0
        invariant goal.1 == out + Process(View(), messages[k..]).1
      {
        ghost var c := View();
        var events := Handle(messages[k]);
        ghost var rest := messages[k..];
        assert rest[1..] == messages[k + 1..] && rest[0] == messages[k];
        if messages[k].StreamEnd? {
          out := out + events;
          break;
        }
        Assoc(out, events, Process(View(), messages[k + 1..]).1);
        out := out + events;
      }
    }
  }
}
