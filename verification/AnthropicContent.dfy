/** The content a client assembles from the event stream, compared with the content the
    non-streaming branch returns. */
module AnthropicContent {
  import opened Wrappers
  import opened Sequences
  import opened StreamMessages
  import opened AnthropicStream
  import opened AnthropicProtocol

  datatype Block =
    | ThinkingContent(thinking: string, signature: Option<string>)
    | RedactedContent(data: string)
    | TextContent(text: string)
    | ToolContent(id: string, name: string, input: string)

  // ----- the client

  function Empty(s: Start): Block {
    match s
    case ThinkingStart => ThinkingContent("", None)
    case TextStart => TextContent("")
    case ToolStart(id, name) => ToolContent(id, name, "")
  }

  /** A delta added to the block it belongs to. */
  function Extend(b: Block, d: Delta): Block {
    match (b, d)
    case (ThinkingContent(t, s), ThinkingDelta(more)) => ThinkingContent(t + more, s)
    case (ThinkingContent(t, _), SignatureDelta(s)) => ThinkingContent(t, Some(s))
    case (TextContent(t), TextDelta(more)) => TextContent(t + more)
    case (ToolContent(i, n, json), InputJsonDelta(more)) => ToolContent(i, n, json + more)
    case _ => b
  }

  function ReplaceLast(blocks: seq<Block>, b: Block): seq<Block>
    requires blocks != []
  {
    blocks[..|blocks| - 1] + [b]
  }

  function Last(blocks: seq<Block>): Block
    requires blocks != []
  {
    blocks[|blocks| - 1]
  }

  /** The open block is the one started last. */
  function Receive(blocks: seq<Block>, e: Event): seq<Block> {
    match e
    case BlockStart(_, s) => blocks + [Empty(s)]
    case BlockDelta(_, d) => if blocks == [] then [] else ReplaceLast(blocks, Extend(Last(blocks), d))
    case _ => blocks
  }

  function Assemble(blocks: seq<Block>, events: seq<Event>): seq<Block>
    decreases |events|
  {
    if events == [] then blocks else Assemble(Receive(blocks, events[0]), events[1..])
  }

  lemma {:induction false} AssembleConcat(blocks: seq<Block>, a: seq<Event>, b: seq<Event>)
    ensures Assemble(blocks, a + b) == Assemble(Assemble(blocks, a), b)
    decreases |a|
  {
    if a == [] {
      assert a + b == b;
    } else {
      AssembleConcat(Receive(blocks, a[0]), a[1..], b);
      assert (a + b)[1..] == a[1..] + b;
    }
  }

  // ----- the non-streaming branch

  /** `valid` says which tool inputs parse as JSON. */
  function Collect(valid: string -> bool, content: seq<Block>, json: string, m: Message): (seq<Block>, string) {
    match m
    case Think(Text(text)) =>
      if content != [] && Last(content).ThinkingContent?
      then (ReplaceLast(content, Last(content).(thinking := Last(content).thinking + text)), json)
      else (content + [ThinkingContent(text, None)], json)
    case Think(Signature(signature)) =>
      if content != [] && Last(content).ThinkingContent?
      then (ReplaceLast(content, Last(content).(signature := Some(signature))), json)
      else (content + [ThinkingContent("", Some(signature))], json)
    case Think(RedactedThinking(data)) => (content + [RedactedContent(data)], json)
    case Content(text) =>
      if content != [] && Last(content).TextContent?
      then (ReplaceLast(content, TextContent(Last(content).text + text)), json)
      else (content + [TextContent(text)], json)
    case Tool(call) =>
      var input := json + call.input;
      if call.isLast && valid(input) then (content + [ToolContent(call.id, call.name, input)], "") else (content, input)
    case _ => (content, json)
  }

  /** One chunk; the JSON accumulator starts empty for each chunk. */
  function CollectChunk(valid: string -> bool, content: seq<Block>, json: string, messages: seq<Message>): seq<Block>
    decreases |messages|
  {
    if messages == [] then content
    else
      var (content1, json1) := Collect(valid, content, json, messages[0]);
      CollectChunk(valid, content1, json1, messages[1..])
  }

  function CollectAll(valid: string -> bool, content: seq<Block>, chunks: seq<seq<Message>>): seq<Block>
    decreases |chunks|
  {
    if chunks == [] then content
    else CollectAll(valid, CollectChunk(valid, content, "", chunks[0]), chunks[1..])
  }

  // ----- the two branches agree

  /** Text, thinking text, signatures and web references, but neither tool calls nor
      redacted thinking, which the two branches group differently on purpose. */
  predicate Plain(m: Message) {
    m.Content? || m.WebReference? || (m.Think? && !m.thinking.RedactedThinking?)
  }

  /** Plain messages, possibly closed by the end of the stream. */
  predicate PlainRun(messages: seq<Message>) {
    messages == [] || messages == [StreamEnd] || (Plain(messages[0]) && PlainRun(messages[1..]))
  }

  /** A whole response: nothing follows the end of the stream. */
  predicate PlainCalls(calls: seq<seq<Message>>) {
    calls == [] ||
    (PlainRun(calls[0]) && (StreamEnd in calls[0] ==> |calls| == 1) && PlainCalls(calls[1..]))
  }

  function BlockKind(b: Block): Option<Kind> {
    match b
    case ThinkingContent(_, _) => Some(ThinkingBlock)
    case RedactedContent(_) => None
    case TextContent(_) => Some(TextBlock)
    case ToolContent(_, _, _) => Some(ToolBlock)
  }

  /** The adapter's last content type is the kind of the client's last block. */
  predicate InStep(c: Context, blocks: seq<Block>) {
    KindOf(c.last) == if blocks == [] then None else BlockKind(Last(blocks))
  }

  lemma AssembleOne(blocks: seq<Block>, e: Event)
    ensures Assemble(blocks, [e]) == Receive(blocks, e)
  {
    assert Assemble(Receive(blocks, e), []) == Receive(blocks, e);
  }

  /** Changing blocks only ever appends an empty block for the client. */
  lemma SwitchAssembles(c: Context, to: LastContentType, s: Start, blocks: seq<Block>)
    ensures Assemble(blocks, Switch(c, to, s).1) == if c.last == to then blocks else blocks + [Empty(s)]
  {
    var first := c.stream == NotStarted;
    var head := if first then [MessageStart] else [];
    var tail := if first then [Ping] else [];
    var start := BlockStart(NextIndex(c), s);
    if first {
      AssembleOne(blocks, MessageStart);
      AssembleOne(blocks + [Empty(s)], Ping);
    }
    assert Assemble(blocks, head) == blocks && Assemble(blocks + [Empty(s)], tail) == blocks + [Empty(s)];
    if c.last != to {
      if c.last != Nothing { AssembleOne(blocks, BlockStop(c.index)); }
      AssembleConcat(blocks, head + Close(c) + [start], tail);
      AssembleConcat(blocks, head + Close(c), [start]);
      AssembleConcat(blocks, head, Close(c));
      AssembleOne(blocks, start);
    }
  }

  lemma ReplaceNew(blocks: seq<Block>, b: Block, b': Block)
    ensures ReplaceLast(blocks + [b], b') == blocks + [b'] && Last(blocks + [b]) == b
  {}

  /** The blocks a delta of kind `to` finds. */
  function Opened(c: Context, to: LastContentType, s: Start, blocks: seq<Block>): seq<Block> {
    if c.last == to then blocks else blocks + [Empty(s)]
  }

  lemma OpenedDelta(c: Context, to: LastContentType, s: Start, blocks: seq<Block>, delta: Event)
    ensures Assemble(blocks, Switch(c, to, s).1 + [delta]) == Receive(Opened(c, to, s, blocks), delta)
  {
    SwitchAssembles(c, to, s, blocks);
    AssembleConcat(blocks, Switch(c, to, s).1, [delta]);
    AssembleOne(Opened(c, to, s, blocks), delta);
  }

  lemma TextReceived(valid: string -> bool, c: Context, blocks: seq<Block>, json: string, text: string, i: nat)
    requires InStep(c, blocks)
    ensures Receive(Opened(c, TextType, TextStart, blocks), BlockDelta(i, TextDelta(text)))
         == Collect(valid, blocks, json, Content(text)).0
  {
    assert "" + text == text;
    ReplaceNew(blocks, TextContent(""), TextContent(text));
  }

  lemma ThinkingReceived(valid: string -> bool, c: Context, blocks: seq<Block>, json: string, t: Thinking, i: nat)
    requires InStep(c, blocks) && !t.RedactedThinking?
    ensures Receive(Opened(c, ThinkingType, ThinkingStart, blocks), ThinkDelta(t, i)[0])
         == Collect(valid, blocks, json, Think(t)).0
  {
    match t
    case Text(text) =>
      assert "" + text == text;
      ReplaceNew(blocks, ThinkingContent("", None), ThinkingContent(text, None));
    case Signature(sig) =>
      ReplaceNew(blocks, ThinkingContent("", None), ThinkingContent("", Some(sig)));
  }

  lemma ContentAssembles(valid: string -> bool, c: Context, blocks: seq<Block>, json: string, text: string)
    requires InStep(c, blocks)
    ensures Assemble(blocks, Step(c, Content(text)).1) == Collect(valid, blocks, json, Content(text)).0
  {
    var i := Switch(c, TextType, TextStart).0.index;
    OpenedDelta(c, TextType, TextStart, blocks, BlockDelta(i, TextDelta(text)));
    TextReceived(valid, c, blocks, json, text, i);
  }

  lemma ThinkingAssembles(valid: string -> bool, c: Context, blocks: seq<Block>, json: string, t: Thinking)
    requires InStep(c, blocks) && !t.RedactedThinking?
    ensures Assemble(blocks, Step(c, Think(t)).1) == Collect(valid, blocks, json, Think(t)).0
  {
    var i := Switch(c, ThinkingType, ThinkingStart).0.index;
    assert ThinkDelta(t, i) == [ThinkDelta(t, i)[0]];
    OpenedDelta(c, ThinkingType, ThinkingStart, blocks, ThinkDelta(t, i)[0]);
    ThinkingReceived(valid, c, blocks, json, t, i);
  }

  lemma StepAgrees(valid: string -> bool, c: Context, blocks: seq<Block>, json: string, m: Message)
    requires InStep(c, blocks) && (Plain(m) || m.StreamEnd?)
    ensures var (c1, events) := Step(c, m);
            && Assemble(blocks, events) == Collect(valid, blocks, json, m).0
            && Collect(valid, blocks, json, m).1 == json
            && InStep(c1, Assemble(blocks, events))
  {
    match m
    case Content(text) => ContentAssembles(valid, c, blocks, json, text);
    case Think(t) => ThinkingAssembles(valid, c, blocks, json, t);
    case StreamEnd => if c.last != Nothing { AssembleOne(blocks, BlockStop(c.index)); }
    case WebReference(_) =>
  }

  lemma {:induction false} ProcessAgrees(valid: string -> bool, c: Context, blocks: seq<Block>, messages: seq<Message>)
    requires InStep(c, blocks) && PlainRun(messages)
    ensures var (c1, events) := Process(c, messages);
            && Assemble(blocks, events) == CollectChunk(valid, blocks, "", messages)
            && InStep(c1, Assemble(blocks, events))
            && (c.stream != Completed && StreamEnd !in messages ==> c1.stream != Completed)
    decreases |messages|
  {
    if messages == [] {
    } else {
      var (c1, e1) := Step(c, messages[0]);
      StepAgrees(valid, c, blocks, "", messages[0]);
      if !messages[0].StreamEnd? {
        ProcessAgrees(valid, c1, Assemble(blocks, e1), messages[1..]);
        AssembleConcat(blocks, e1, Process(c1, messages[1..]).1);
      }
    }
  }

  lemma {:induction false} CallsAgree(valid: string -> bool, c: Context, blocks: seq<Block>, calls: seq<seq<Message>>)
    requires InStep(c, blocks) && c.stream != Completed && PlainCalls(calls)
    ensures Assemble(blocks, Calls(c, calls).1) == CollectAll(valid, blocks, calls)
    decreases |calls|
  {
    if calls == [] {
    } else {
      var (c1, e1) := Process(c, calls[0]);
      ProcessAgrees(valid, c, blocks, calls[0]);
      if |calls| == 1 {
        assert Calls(c1, calls[1..]).1 == [] && e1 + [] == e1;
      } else {
        CallsAgree(valid, c1, Assemble(blocks, e1), calls[1..]);
        AssembleConcat(blocks, e1, Calls(c1, calls[1..]).1);
      }
    }
  }

  /** A client that folds the streamed events ends up with exactly the content blocks
      that the non-streaming branch returns for the same chunks. */
  lemma StreamingMatchesNonStreaming(valid: string -> bool, calls: seq<seq<Message>>)
    requires PlainCalls(calls)
    ensures Assemble([], Calls(Fresh, calls).1) == CollectAll(valid, [], calls)
  {
    CallsAgree(valid, Fresh, [], calls);
  }

  // ----- no text is lost, whatever the messages

  /** The three kinds of payload a block can carry. */
  function Payload(b: Block, kind: Kind): string {
    match b
    case ThinkingContent(t, _) => if kind == ThinkingBlock then t else ""
    case TextContent(t) => if kind == TextBlock then t else ""
    case ToolContent(_, _, json) => if kind == ToolBlock then json else ""
    case RedactedContent(_) => ""
  }

  function PayloadAll(blocks: seq<Block>, kind: Kind): string {
    if blocks == [] then "" else PayloadAll(blocks[..|blocks| - 1], kind) + Payload(Last(blocks), kind)
  }

  function Sent(m: Message, kind: Kind): string {
    match m
    case Think(Text(t)) => if kind == ThinkingBlock then t else ""
    case Content(t) => if kind == TextBlock then t else ""
    case Tool(call) => if kind == ToolBlock then call.input else ""
    case _ => ""
  }

  /** Everything of one kind that was sent before the end of the stream. */
  function SentAll(messages: seq<Message>, kind: Kind): string {
    if messages == [] || messages[0].StreamEnd? then "" else Sent(messages[0], kind) + SentAll(messages[1..], kind)
  }

  lemma PayloadSnoc(blocks: seq<Block>, b: Block, kind: Kind)
    ensures PayloadAll(blocks + [b], kind) == PayloadAll(blocks, kind) + Payload(b, kind)
  {
    assert (blocks + [b])[..|blocks|] == blocks;
  }

  lemma PayloadReplace(blocks: seq<Block>, b: Block, more: string, kind: Kind)
    requires blocks != [] && Payload(b, kind) == Payload(Last(blocks), kind) + more
    ensures PayloadAll(ReplaceLast(blocks, b), kind) == PayloadAll(blocks, kind) + more
  {
    var init := blocks[..|blocks| - 1];
    PayloadSnoc(init, b, kind);
    Assoc(PayloadAll(init, kind), Payload(Last(blocks), kind), more);
  }

  /** The text of a delta, when it is of the given kind. */
  function Added(d: Delta, kind: Kind): string {
    if DeltaKind(d) != kind then ""
    else
      match d
      case ThinkingDelta(t) => t
      case SignatureDelta(_) => ""
      case TextDelta(t) => t
      case InputJsonDelta(t) => t
  }

  lemma ExtendAdds(b: Block, d: Delta, kind: Kind)
    requires BlockKind(b) == Some(DeltaKind(d))
    ensures Payload(Extend(b, d), kind) == Payload(b, kind) + Added(d, kind)
    ensures BlockKind(Extend(b, d)) == BlockKind(b)
  {
    assert Payload(b, kind) + "" == Payload(b, kind);
  }

  /** A delta of the open block's kind adds its text and nothing else. */
  lemma DeltaConserves(blocks: seq<Block>, i: nat, d: Delta, kind: Kind)
    requires blocks != [] && BlockKind(Last(blocks)) == Some(DeltaKind(d))
    ensures var after := Receive(blocks, BlockDelta(i, d));
            && PayloadAll(after, kind) == PayloadAll(blocks, kind) + Added(d, kind)
            && after != [] && BlockKind(Last(after)) == Some(DeltaKind(d))
  {
    ExtendAdds(Last(blocks), d, kind);
    PayloadReplace(blocks, Extend(Last(blocks), d), Added(d, kind), kind);
  }

  lemma SwitchConserves(c: Context, to: LastContentType, s: Start, blocks: seq<Block>, kind: Kind)
    requires InStep(c, blocks) && KindOf(to) == Some(StartKind(s))
    ensures var after := Assemble(blocks, Switch(c, to, s).1);
            PayloadAll(after, kind) == PayloadAll(blocks, kind) && after != [] && BlockKind(Last(after)) == Some(StartKind(s))
  {
    SwitchAssembles(c, to, s, blocks);
    PayloadSnoc(blocks, Empty(s), kind);
  }

  /** A run of one event: what `DeltaConserves` says, for the assembled blocks. */
  lemma OneDeltaConserves(blocks: seq<Block>, i: nat, d: Delta, kind: Kind)
    requires blocks != [] && BlockKind(Last(blocks)) == Some(DeltaKind(d))
    ensures var after := Assemble(blocks, [BlockDelta(i, d)]);
            && PayloadAll(after, kind) == PayloadAll(blocks, kind) + Added(d, kind)
            && after != [] && BlockKind(Last(after)) == Some(DeltaKind(d))
  {
    AssembleOne(blocks, BlockDelta(i, d));
    DeltaConserves(blocks, i, d, kind);
  }

  lemma ToolOpens(c: Context, s: Start, i: nat, blocks: seq<Block>)
    ensures Assemble(blocks, Close(c) + [BlockStart(i, s)]) == blocks + [Empty(s)]
  {
    AssembleConcat(blocks, Close(c), [BlockStart(i, s)]);
    if c.last != Nothing { AssembleOne(blocks, BlockStop(c.index)); }
    AssembleOne(blocks, BlockStart(i, s));
  }

  lemma TwoDeltas(blocks: seq<Block>, i: nat, input: string, kind: Kind)
    requires blocks != [] && BlockKind(Last(blocks)) == Some(ToolBlock)
    ensures var after := Assemble(blocks, [BlockDelta(i, InputJsonDelta(""))] + [BlockDelta(i, InputJsonDelta(input))]);
            && PayloadAll(after, kind) == PayloadAll(blocks, kind) + (if kind == ToolBlock then input else "")
            && after != [] && BlockKind(Last(after)) == Some(ToolBlock)
  {
    var empty, delta := [BlockDelta(i, InputJsonDelta(""))], [BlockDelta(i, InputJsonDelta(input))];
    AssembleConcat(blocks, empty, delta);
    OneDeltaConserves(blocks, i, InputJsonDelta(""), kind);
    OneDeltaConserves(Assemble(blocks, empty), i, InputJsonDelta(input), kind);
    assert PayloadAll(blocks, kind) + "" == PayloadAll(blocks, kind);
  }

  /** The events of a new tool call, in the grouping the proof below follows. */
  lemma NewToolEvents(c: Context, call: ToolCall, i: nat, s: Start, deltas: seq<Event>)
    requires c.last != InputJsonType && i == NextIndex(c) && s == ToolStart(call.id, call.name)
    requires deltas == [BlockDelta(i, InputJsonDelta(""))] + [BlockDelta(i, InputJsonDelta(call.input))]
    ensures Step(c, Tool(call)).1 == Close(c) + [BlockStart(i, s)] + deltas
  {
    Assoc(Close(c), [BlockStart(i, s)], deltas);
  }

  lemma NewToolConserves(c: Context, call: ToolCall, blocks: seq<Block>, kind: Kind)
    requires InStep(c, blocks) && c.last != InputJsonType
    ensures var after := Assemble(blocks, Step(c, Tool(call)).1);
            && PayloadAll(after, kind) == PayloadAll(blocks, kind) + Sent(Tool(call), kind)
            && after != [] && BlockKind(Last(after)) == Some(ToolBlock)
  {
    var i, s := NextIndex(c), ToolStart(call.id, call.name);
    var deltas := [BlockDelta(i, InputJsonDelta(""))] + [BlockDelta(i, InputJsonDelta(call.input))];
    NewToolEvents(c, call, i, s, deltas);
    OpenedTool(c, s, i, blocks, deltas, kind);
    TwoDeltas(blocks + [Empty(s)], i, call.input, kind);
  }

  lemma OpenedTool(c: Context, s: Start, i: nat, blocks: seq<Block>, deltas: seq<Event>, kind: Kind)
    requires s.ToolStart?
    ensures Assemble(blocks, Close(c) + [BlockStart(i, s)] + deltas) == Assemble(blocks + [Empty(s)], deltas)
    ensures PayloadAll(blocks + [Empty(s)], kind) == PayloadAll(blocks, kind)
    ensures BlockKind(Last(blocks + [Empty(s)])) == Some(ToolBlock)
  {
    ToolOpens(c, s, i, blocks);
    PayloadSnoc(blocks, Empty(s), kind);
    AssembleConcat(blocks, Close(c) + [BlockStart(i, s)], deltas);
    assert PayloadAll(blocks, kind) + "" == PayloadAll(blocks, kind);
  }

  /** Changing blocks if need be and then one delta. */
  lemma SwitchDeltaConserves(c: Context, to: LastContentType, s: Start, blocks: seq<Block>, i: nat, d: Delta, kind: Kind)
    requires InStep(c, blocks) && KindOf(to) == Some(StartKind(s)) && DeltaKind(d) == StartKind(s)
    ensures var after := Assemble(blocks, Switch(c, to, s).1 + [BlockDelta(i, d)]);
            && PayloadAll(after, kind) == PayloadAll(blocks, kind) + Added(d, kind)
            && after != [] && BlockKind(Last(after)) == Some(StartKind(s))
  {
    var head := Switch(c, to, s).1;
    SwitchConserves(c, to, s, blocks, kind);
    AssembleConcat(blocks, head, [BlockDelta(i, d)]);
    OneDeltaConserves(Assemble(blocks, head), i, d, kind);
  }

  lemma ContentConserves(c: Context, text: string, blocks: seq<Block>, kind: Kind)
    requires InStep(c, blocks)
    ensures var after := Assemble(blocks, Step(c, Content(text)).1);
            && PayloadAll(after, kind) == PayloadAll(blocks, kind) + Sent(Content(text), kind)
            && after != [] && BlockKind(Last(after)) == Some(TextBlock)
  {
    var i := Switch(c, TextType, TextStart).0.index;
    SwitchDeltaConserves(c, TextType, TextStart, blocks, i, TextDelta(text), kind);
  }

  lemma ThinkingConserves(c: Context, t: Thinking, blocks: seq<Block>, kind: Kind)
    requires InStep(c, blocks)
    ensures var after := Assemble(blocks, Step(c, Think(t)).1);
            && PayloadAll(after, kind) == PayloadAll(blocks, kind) + Sent(Think(t), kind)
            && after != [] && BlockKind(Last(after)) == Some(ThinkingBlock)
  {
    var (c1, head) := Switch(c, ThinkingType, ThinkingStart);
    match t
    case Text(text) =>
      SwitchDeltaConserves(c, ThinkingType, ThinkingStart, blocks, c1.index, ThinkingDelta(text), kind);
    case Signature(sig) =>
      SwitchDeltaConserves(c, ThinkingType, ThinkingStart, blocks, c1.index, SignatureDelta(sig), kind);
    case RedactedThinking(_) =>
      SwitchConserves(c, ThinkingType, ThinkingStart, blocks, kind);
      assert head + [] == head;
  }

  lemma StepConserves(c: Context, m: Message, blocks: seq<Block>, kind: Kind)
    requires InStep(c, blocks) && !m.StreamEnd?
    ensures var (c1, events) := Step(c, m);
            var after := Assemble(blocks, events);
            PayloadAll(after, kind) == PayloadAll(blocks, kind) + Sent(m, kind) && InStep(c1, after)
  {
    match m
    case Content(text) => ContentConserves(c, text, blocks, kind);
    case Think(t) => ThinkingConserves(c, t, blocks, kind);
    case Tool(call) =>
      if c.last == InputJsonType {
        OneDeltaConserves(blocks, c.index, InputJsonDelta(call.input), kind);
      } else {
        NewToolConserves(c, call, blocks, kind);
      }
    case WebReference(_) =>
  }

  lemma {:induction false} ProcessConserves(c: Context, messages: seq<Message>, blocks: seq<Block>, kind: Kind)
    requires InStep(c, blocks)
    ensures PayloadAll(Assemble(blocks, Process(c, messages).1), kind) == PayloadAll(blocks, kind) + SentAll(messages, kind)
    decreases |messages|
  {
    if messages == [] {
    } else {
      var (c1, e1) := Step(c, messages[0]);
      if messages[0].StreamEnd? {
        if c.last != Nothing { AssembleOne(blocks, BlockStop(c.index)); }
      } else {
        StepConserves(c, messages[0], blocks, kind);
        ProcessConserves(c1, messages[1..], Assemble(blocks, e1), kind);
        AssembleConcat(blocks, e1, Process(c1, messages[1..]).1);
        Assoc(PayloadAll(blocks, kind), Sent(messages[0], kind), SentAll(messages[1..], kind));
      }
    }
  }

  lemma WholeConserves(messages: seq<Message>, kind: Kind)
    ensures PayloadAll(Assemble([], Process(Fresh, messages).1), kind) == SentAll(messages, kind)
  {
    ProcessConserves(Fresh, messages, [], kind);
  }

  /** Whatever the messages, tool calls included: the text, the thinking and the tool
      input that the client assembles are, in order, exactly what was sent before the
      end of the stream. */
  lemma StreamConserves(calls: seq<seq<Message>>, kind: Kind)
    ensures PayloadAll(Assemble([], Calls(Fresh, calls).1), kind) == SentAll(Concat(calls), kind)
  {
    CallsAreOneCall(Fresh, calls);
    WholeConserves(Concat(calls), kind);
  }

  // ----- the tool calls a client is told about

  function Announced(events: seq<Event>): seq<(string, string)> {
    if events == [] then []
    else
      var rest := Announced(events[1..]);
      if events[0].BlockStart? && events[0].start.ToolStart? then [(events[0].start.id, events[0].start.name)] + rest
      else rest
  }

  lemma {:induction false} AnnouncedConcat(a: seq<Event>, b: seq<Event>)
    ensures Announced(a + b) == Announced(a) + Announced(b)
    decreases |a|
  {
    if a == [] {
      assert a + b == b;
    } else {
      AnnouncedConcat(a[1..], b);
      assert (a + b)[1..] == a[1..] + b;
    }
  }

  lemma AnnouncedOne(e: Event)
    ensures Announced([e]) ==
            if e.BlockStart? && e.start.ToolStart? then [(e.start.id, e.start.name)] else []
  {
    assert Announced([]) == [];
  }

  lemma {:induction false} Unannounced(events: seq<Event>)
    requires forall i :: 0 <= i < |events| ==> !(events[i].BlockStart? && events[i].start.ToolStart?)
    ensures Announced(events) == []
    decreases |events|
  {
    if events == [] {
    } else {
      Unannounced(events[1..]);
    }
  }

  lemma StepAnnounces(c: Context, m: Message)
    ensures Announced(Step(c, m).1) ==
            if m.Tool? && c.last != InputJsonType then [(m.call.id, m.call.name)] else []
  {
    if m.Tool? && c.last != InputJsonType {
      var i, s := NextIndex(c), ToolStart(m.call.id, m.call.name);
      var deltas := [BlockDelta(i, InputJsonDelta(""))] + [BlockDelta(i, InputJsonDelta(m.call.input))];
      NewToolEvents(c, m.call, i, s, deltas);
      AnnouncedConcat(Close(c) + [BlockStart(i, s)], deltas);
      AnnouncedConcat(Close(c), [BlockStart(i, s)]);
      AnnouncedOne(BlockStart(i, s));
      Unannounced(Close(c));
      Unannounced(deltas);
    } else {
      Unannounced(Step(c, m).1);
    }
  }

  lemma {:induction false} ProcessAnnounces(c: Context, messages: seq<Message>)
    ensures Announced(Process(c, messages).1) == Heads(messages, c.last == InputJsonType, true)
    decreases |messages|
  {
    if messages == [] {
    } else {
      var (c1, e1) := Step(c, messages[0]);
      StepAnnounces(c, messages[0]);
      if !messages[0].StreamEnd? {
        ProcessAnnounces(c1, messages[1..]);
        AnnouncedConcat(e1, Process(c1, messages[1..]).1);
      }
    }
  }

  /** The client is told id and name of exactly the tool calls that open a block. */
  lemma ToolsAreAnnounced(calls: seq<seq<Message>>)
    ensures Announced(Calls(Fresh, calls).1) == Heads(Concat(calls), false, true)
  {
    CallsAreOneCall(Fresh, calls);
    ProcessAnnounces(Fresh, Concat(calls));
  }
}
