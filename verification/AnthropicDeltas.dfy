/** Every delta of the Anthropic stream, and nothing else: what each message sends. */
module AnthropicDeltas {
  import opened Wrappers
  import opened Sequences
  import opened StreamMessages
  import opened AnthropicStream
  import opened AnthropicProtocol

  function DeltasOf(events: seq<Event>): seq<Delta> {
    if events == [] then []
    else if events[0].BlockDelta? then [events[0].delta] + DeltasOf(events[1..])
    else DeltasOf(events[1..])
  }

  /** What a message must send; redacted thinking and web references send nothing. */
  function Due(m: Message, inTool: bool): seq<Delta> {
    match m
    case Think(Text(text)) => [ThinkingDelta(text)]
    case Think(Signature(signature)) => [SignatureDelta(signature)]
    case Content(text) => [TextDelta(text)]
    case Tool(call) => (if inTool then [] else [InputJsonDelta("")]) + [InputJsonDelta(call.input)]
    case _ => []
  }

  /** Everything due before the end of the stream; a tool block opens with an empty
      piece of input and goes on until text or thinking comes. */
  function DueAll(messages: seq<Message>, inTool: bool): seq<Delta> {
    if messages == [] || messages[0].StreamEnd? then []
    else
      var m := messages[0];
      Due(m, inTool) + DueAll(messages[1..], m.Tool? || (inTool && m.WebReference?))
  }

  lemma {:induction false} DeltasConcat(a: seq<Event>, b: seq<Event>)
    ensures DeltasOf(a + b) == DeltasOf(a) + DeltasOf(b)
    decreases |a|
  {
    if a == [] {
      assert a + b == b;
    } else {
      DeltasConcat(a[1..], b);
      assert (a + b)[1..] == a[1..] + b;
    }
  }

  lemma {:induction false} NoDeltas(events: seq<Event>)
    requires forall i :: 0 <= i < |events| ==> !events[i].BlockDelta?
    ensures DeltasOf(events) == []
    decreases |events|
  {
    if events == [] {
    } else {
      NoDeltas(events[1..]);
    }
  }

  lemma OneDelta(i: nat, d: Delta)
    ensures DeltasOf([BlockDelta(i, d)]) == [d]
  {
    assert DeltasOf([]) == [];
  }

  lemma NewToolDeltas(c: Context, call: ToolCall)
    requires c.last != InputJsonType
    ensures DeltasOf(Step(c, Tool(call)).1) == [InputJsonDelta("")] + [InputJsonDelta(call.input)]
  {
    var i := NextIndex(c);
    var begin := Close(c) + [BlockStart(i, ToolStart(call.id, call.name))];
    var empty, full := [BlockDelta(i, InputJsonDelta(""))], [BlockDelta(i, InputJsonDelta(call.input))];
    assert Step(c, Tool(call)).1 == begin + (empty + full);
    NoDeltas(begin);
    DeltasConcat(begin, empty + full);
    DeltasConcat(empty, full);
    OneDelta(i, InputJsonDelta(""));
    OneDelta(i, InputJsonDelta(call.input));
  }

  lemma SwitchDeltas(c: Context, to: LastContentType, s: Start, deltas: seq<Event>)
    ensures DeltasOf(Switch(c, to, s).1 + deltas) == DeltasOf(deltas)
  {
    NoDeltas(Switch(c, to, s).1);
    DeltasConcat(Switch(c, to, s).1, deltas);
  }

  lemma StepDeltas(c: Context, m: Message)
    ensures DeltasOf(Step(c, m).1) == Due(m, c.last == InputJsonType)
    ensures !m.StreamEnd? ==>
              (Step(c, m).0.last == InputJsonType <==> m.Tool? || (c.last == InputJsonType && m.WebReference?))
  {
    match m
    case Think(t) =>
      var i := Switch(c, ThinkingType, ThinkingStart).0.index;
      SwitchDeltas(c, ThinkingType, ThinkingStart, ThinkDelta(t, i));
      if !t.RedactedThinking? {
        assert ThinkDelta(t, i) == [BlockDelta(i, ThinkDelta(t, i)[0].delta)];
        OneDelta(i, ThinkDelta(t, i)[0].delta);
      }
    case Content(text) =>
      var i := Switch(c, TextType, TextStart).0.index;
      SwitchDeltas(c, TextType, TextStart, [BlockDelta(i, TextDelta(text))]);
      OneDelta(i, TextDelta(text));
    case Tool(call) =>
      if c.last == InputJsonType {
        OneDelta(c.index, InputJsonDelta(call.input));
      } else {
        NewToolDeltas(c, call);
      }
    case StreamEnd => NoDeltas(Close(c));
    case WebReference(_) =>
  }

  lemma {:induction false} ProcessDeltas(c: Context, messages: seq<Message>)
    ensures DeltasOf(Process(c, messages).1) == DueAll(messages, c.last == InputJsonType)
    decreases |messages|
  {
    if messages == [] {
    } else {
      var (c1, e1) := Step(c, messages[0]);
      StepDeltas(c, messages[0]);
      if !messages[0].StreamEnd? {
        ProcessDeltas(c1, messages[1..]);
        DeltasConcat(e1, Process(c1, messages[1..]).1);
      }
    }
  }

  /** For every message sequence and grouping the client receives exactly the deltas due,
      in order. */
  lemma DeltasExactly(calls: seq<seq<Message>>)
    ensures DeltasOf(Calls(Fresh, calls).1) == DueAll(Concat(calls), false)
  {
    CallsAreOneCall(Fresh, calls);
    ProcessDeltas(Fresh, Concat(calls));
  }
}
