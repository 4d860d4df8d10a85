/** What a client may expect of the Anthropic event stream, whatever the messages and
    however they are split into calls. */
module AnthropicProtocol {
  import opened Wrappers
  import opened Sequences
  import opened StreamMessages
  import opened AnthropicStream

  // ----- how messages are grouped into calls does not matter

  lemma {:induction false} ProcessConcat(c: Context, a: seq<Message>, b: seq<Message>)
    requires c.stream != Completed
    ensures var (c1, e1) := Process(c, a);
            var (c2, e2) := if c1.stream == Completed then (c1, []) else Process(c1, b);
            Process(c, a + b).0 == c2 && Process(c, a + b).1 == e1 + e2
    decreases |a|
  {
    if a == [] {
      assert a + b == b;
    } else {
      var (c1, e1) := Step(c, a[0]);
      assert (a + b)[1..] == a[1..] + b;
      if !a[0].StreamEnd? {
        ProcessConcat(c1, a[1..], b);
        var (c2, e2) := Process(c1, a[1..]);
        var e3 := if c2.stream == Completed then [] else Process(c2, b).1;
        Assoc(e1, e2, e3);
      }
    }
  }

  /** Any grouping into calls yields the events of one call on all messages. */
  lemma {:induction false} CallsAreOneCall(c: Context, calls: seq<seq<Message>>)
    requires c.stream != Completed
    ensures Calls(c, calls).0 == Process(c, Concat(calls)).0
    ensures Calls(c, calls).1 == Process(c, Concat(calls)).1
    decreases |calls|
  {
    if calls == [] {
    } else {
      var (c1, e1) := Process(c, calls[0]);
      ProcessConcat(c, calls[0], Concat(calls[1..]));
      if c1.stream != Completed {
        CallsAreOneCall(c1, calls[1..]);
      }
    }
  }

  // ----- the client's view of a legal stream

  /** Which greetings were seen, how many blocks were started and which is open. */
  datatype Monitor = Monitor(greeted: bool, pinged: bool, started: nat, open: Option<Kind>)

  const Initial := Monitor(false, false, 0, None)

  function StartKind(s: Start): Kind {
    match s
    case ThinkingStart => ThinkingBlock
    case TextStart => TextBlock
    case ToolStart(_, _) => ToolBlock
  }

  function DeltaKind(d: Delta): Kind {
    match d
    case ThinkingDelta(_) => ThinkingBlock
    case SignatureDelta(_) => ThinkingBlock
    case TextDelta(_) => TextBlock
    case InputJsonDelta(_) => ToolBlock
  }

  /** One event; `None` is a protocol violation. */
  function Observe(m: Monitor, e: Event): Option<Monitor> {
    match e
    case MessageStart => if m.greeted || m.started > 0 then None else Some(m.(greeted := true))
    case Ping => if m.pinged || m.started != 1 then None else Some(m.(pinged := true))
    case BlockStart(i, s) =>
      if m.open.Some? || i != Wrap32(m.started) then None
      else Some(m.(started := m.started + 1, open := Some(StartKind(s))))
    case BlockDelta(i, d) =>
      if m.started == 0 || m.open != Some(DeltaKind(d)) || i != Wrap32(m.started - 1) then None else Some(m)
    case BlockStop(i) =>
      if m.started == 0 || m.open.None? || i != Wrap32(m.started - 1) then None else Some(m.(open := None))
  }

  function Watch(m: Monitor, events: seq<Event>): Option<Monitor>
    decreases |events|
  {
    if events == [] then Some(m)
    else match Observe(m, events[0])
      case None => None
      case Some(m1) => Watch(m1, events[1..])
  }

  lemma {:induction false} WatchConcat(m: Monitor, a: seq<Event>, b: seq<Event>)
    ensures Watch(m, a + b) == (match Watch(m, a) case None => None case Some(m1) => Watch(m1, b))
    decreases |a|
  {
    if a == [] {
      assert a + b == b;
    } else {
      assert (a + b)[1..] == a[1..] + b;
      if Observe(m, a[0]).Some? { WatchConcat(Observe(m, a[0]).value, a[1..], b); }
    }
  }

  function KindOf(last: LastContentType): Option<Kind> {
    match last
    case Nothing => None
    case ThinkingType => Some(ThinkingBlock)
    case TextType => Some(TextBlock)
    case InputJsonType => Some(ToolBlock)
  }

  /** The adapter's atomics and the client's view agree. */
  predicate Agree(c: Context, m: Monitor) {
    match c.stream
    case NotStarted => c == Fresh && m == Initial
    case ContentBlockActive =>
      m.started > 0 && c.last != Nothing && m.open == KindOf(c.last) && c.index == Wrap32(m.started - 1) &&
      m.greeted == m.pinged
    case Completed => m.open == None && m.greeted == m.pinged
  }

  /** A message that opens or continues a block. */
  predicate Producing(msg: Message) { msg.Think? || msg.Content? || msg.Tool? }

  lemma WatchOne(m: Monitor, e: Event)
    ensures Watch(m, [e]) == Observe(m, e)
  {}

  lemma NextIndexIs(c: Context, m: Monitor)
    requires Agree(c, m) && c.stream == ContentBlockActive
    ensures NextIndex(c) == Wrap32(m.started)
  {
    WrapNext(m.started - 1);
  }

  lemma StopLegal(c: Context, m: Monitor)
    requires Agree(c, m) && c.stream == ContentBlockActive
    ensures Watch(m, Close(c)) == Some(m.(open := None))
  {
    WatchOne(m, BlockStop(c.index));
  }

  /** Closing an open block and starting the next one. */
  lemma ReopenLegal(c: Context, m: Monitor, s: Start)
    requires Agree(c, m) && c.stream == ContentBlockActive
    ensures Watch(m, Close(c) + [BlockStart(NextIndex(c), s)]) == Some(m.(started := m.started + 1, open := Some(StartKind(s))))
    ensures NextIndex(c) == Wrap32(m.started)
  {
    NextIndexIs(c, m);
    StopLegal(c, m);
    var start := BlockStart(NextIndex(c), s);
    WatchConcat(m, Close(c), [start]);
    WatchOne(m.(open := None), start);
  }

  lemma SwitchLegal(c: Context, m: Monitor, to: LastContentType, s: Start)
    requires Agree(c, m) && c.stream != Completed && KindOf(to) == Some(StartKind(s))
    ensures var (c1, events) := Switch(c, to, s);
            && c1.last == to && c1.stream == ContentBlockActive
            && Watch(m, events).Some? && Agree(c1, Watch(m, events).value)
            && Watch(m, events).value.greeted == (m.greeted || c.stream == NotStarted)
  {
    var (c1, events) := Switch(c, to, s);
    if c.stream == NotStarted {
      var m1 := m.(greeted := true);
      var m2 := m1.(started := 1, open := Some(StartKind(s)));
      assert events == [MessageStart] + ([BlockStart(0, s)] + [Ping]);
      WatchConcat(m, [MessageStart], [BlockStart(0, s)] + [Ping]);
      WatchConcat(m1, [BlockStart(0, s)], [Ping]);
      WatchOne(m, MessageStart);
      WatchOne(m1, BlockStart(0, s));
      WatchOne(m2, Ping);
    } else if c.last != to {
      ReopenLegal(c, m, s);
      assert events == Close(c) + [BlockStart(NextIndex(c), s)];
    }
  }

  lemma ToolLegal(c: Context, m: Monitor, call: ToolCall)
    requires Agree(c, m) && c.stream != Completed
    ensures var (c1, events) := Step(c, Tool(call));
            && Watch(m, events).Some? && Agree(c1, Watch(m, events).value)
            && Watch(m, events).value.greeted == m.greeted && c1.stream == ContentBlockActive
  {
    var (c1, events) := Step(c, Tool(call));
    var delta := BlockDelta(c1.index, InputJsonDelta(call.input));
    if c.last == InputJsonType {
      WatchOne(m, delta);
    } else {
      var s := ToolStart(call.id, call.name);
      var begin := Close(c) + [BlockStart(c1.index, s)];
      var m1 := m.(started := m.started + 1, open := Some(ToolBlock));
      if c.stream == NotStarted {
        assert begin == [BlockStart(0, s)];
        WatchOne(m, BlockStart(0, s));
      } else {
        ReopenLegal(c, m, s);
      }
      var empty := BlockDelta(c1.index, InputJsonDelta(""));
      assert events == begin + ([empty] + [delta]);
      WatchConcat(m, begin, [empty] + [delta]);
      WatchConcat(m1, [empty], [delta]);
      WatchOne(m1, empty);
      WatchOne(m1, delta);
    }
  }

  /** One message keeps the stream legal and the two views in agreement.  The message
      is greeted only when the first block belongs to thinking or text. */
  lemma StepLegal(c: Context, m: Monitor, msg: Message)
    requires Agree(c, m) && c.stream != Completed
    ensures var (c1, events) := Step(c, msg);
            && Watch(m, events).Some? && Agree(c1, Watch(m, events).value)
            && Watch(m, events).value.greeted == (m.greeted || (c.stream == NotStarted && (msg.Think? || msg.Content?)))
            && (c1.stream == NotStarted <==> c.stream == NotStarted && msg.WebReference?)
            && (c1.stream == Completed <==> msg.StreamEnd?)
  {
    var (c1, events) := Step(c, msg);
    match msg
    case Think(t) =>
      SwitchLegal(c, m, ThinkingType, ThinkingStart);
      var head := Switch(c, ThinkingType, ThinkingStart).1;
      WatchConcat(m, head, ThinkDelta(t, c1.index));
      if !t.RedactedThinking? { WatchOne(Watch(m, head).value, ThinkDelta(t, c1.index)[0]); }
    case Content(text) =>
      SwitchLegal(c, m, TextType, TextStart);
      var head, delta := Switch(c, TextType, TextStart).1, BlockDelta(c1.index, TextDelta(text));
      WatchConcat(m, head, [delta]);
      WatchOne(Watch(m, head).value, delta);
    case Tool(call) => ToolLegal(c, m, call);
    case StreamEnd =>
      if c.last != Nothing { WatchOne(m, BlockStop(c.index)); }
    case WebReference(_) =>
  }

  /** The first message, before the end of the stream, that produces a block. */
  function FirstProducing(messages: seq<Message>): Option<Message> {
    if messages == [] || messages[0].StreamEnd? then None
    else if Producing(messages[0]) then Some(messages[0])
    else FirstProducing(messages[1..])
  }

  lemma {:induction false} ProcessLegal(c: Context, m: Monitor, messages: seq<Message>)
    requires Agree(c, m) && c.stream != Completed
    ensures var (c1, events) := Process(c, messages);
            && Watch(m, events).Some? && Agree(c1, Watch(m, events).value)
            && (c1.stream == Completed <==> StreamEnd in messages)
            && Watch(m, events).value.greeted ==
               (if c.stream == NotStarted
                then FirstProducing(messages).Some? && !FirstProducing(messages).value.Tool?
                else m.greeted)
    decreases |messages|
  {
    if messages == [] {
    } else {
      var (c1, e1) := Step(c, messages[0]);
      StepLegal(c, m, messages[0]);
      if !messages[0].StreamEnd? {
        ProcessLegal(c1, Watch(m, e1).value, messages[1..]);
        WatchConcat(m, e1, Process(c1, messages[1..]).1);
        assert StreamEnd in messages <==> StreamEnd in messages[1..];
      }
    }
  }

  /** For every sequence of messages in every grouping into calls the event stream is
      legal: block starts are numbered in order, at most one block is open, deltas and
      stops name the open block and fit its kind, and nothing is open at the end. */
  lemma StreamIsLegal(calls: seq<seq<Message>>)
    ensures var events := Calls(Fresh, calls).1;
            && Watch(Initial, events).Some?
            && (StreamEnd in Concat(calls) ==> Watch(Initial, events).value.open == None)
  {
    CallsAreOneCall(Fresh, calls);
    ProcessLegal(Fresh, Initial, Concat(calls));
  }

  // ----- what legality means event by event

  function StartIndices(events: seq<Event>): seq<nat> {
    if events == [] then []
    else if events[0].BlockStart? then [events[0].index] + StartIndices(events[1..])
    else StartIndices(events[1..])
  }

  lemma {:induction false} StartsCounted(m: Monitor, events: seq<Event>)
    requires Watch(m, events).Some?
    ensures var starts := StartIndices(events);
            && Watch(m, events).value.started == m.started + |starts|
            && Consecutive(starts, m.started)
    decreases |events|
  {
    if events == [] {
    } else {
      StartsCounted(Observe(m, events[0]).value, events[1..]);
      if events[0].BlockStart? {
        ConsecutiveCons(events[0].index, StartIndices(events[1..]), m.started);
      }
    }
  }

  /** In a legal stream the block starts carry 0, 1, 2 and so on, wrapping at 32 bits. */
  lemma LegalMeans(events: seq<Event>)
    requires Watch(Initial, events).Some?
    ensures Watch(Initial, events).value.started == |StartIndices(events)|
    ensures forall k :: 0 <= k < |StartIndices(events)| ==> StartIndices(events)[k] == k % 0x1_0000_0000
  {
    var starts := StartIndices(events);
    StartsCounted(Initial, events);
    forall k | 0 <= k < |starts| ensures starts[k] == Wrap32(k) { ConsecutiveAt(starts, 0, k); }
  }

  /** The greetings a client of a legal stream has seen are exactly the ones in it. */
  lemma {:induction false} GreetingsSeen(m: Monitor, events: seq<Event>)
    requires Watch(m, events).Some?
    ensures var n := Watch(m, events).value;
            && multiset(events)[MessageStart] + (if m.greeted then 1 else 0) == (if n.greeted then 1 else 0)
            && multiset(events)[Ping] + (if m.pinged then 1 else 0) == (if n.pinged then 1 else 0)
    decreases |events|
  {
    if events == [] {
    } else {
      GreetingsSeen(Observe(m, events[0]).value, events[1..]);
      assert events == [events[0]] + events[1..];
    }
  }

  /** Greetings: exactly one `message_start` and one `ping` when the first block is
      thinking or text; none at all when the first block is a tool call. */
  lemma Greetings(messages: seq<Message>)
    ensures var events := Process(Fresh, messages).1;
            var first := FirstProducing(messages);
            var expected := if first.Some? && !first.value.Tool? then 1 else 0;
            multiset(events)[MessageStart] == expected && multiset(events)[Ping] == expected
  {
    ProcessLegal(Fresh, Initial, messages);
    GreetingsSeen(Initial, Process(Fresh, messages).1);
  }

  /** The greeting opens the stream: `message_start`, the start of block 0, `ping`. */
  lemma {:induction false} GreetingFirst(messages: seq<Message>)
    requires FirstProducing(messages).Some? && !FirstProducing(messages).value.Tool?
    ensures var events := Process(Fresh, messages).1;
            |events| >= 3 && events[0] == MessageStart && events[1].BlockStart? && events[1].index == 0 && events[2] == Ping
    decreases |messages|
  {
    if Producing(messages[0]) {
    } else {
      GreetingFirst(messages[1..]);
    }
  }

  /** A stream that opens with a tool call: the client sees neither `message_start` nor
      `ping`, not even when text follows. */
  lemma ToolFirst(call: ToolCall, text: string)
    ensures Process(Fresh, [Tool(call), Content(text)]).1 ==
            [BlockStart(0, ToolStart(call.id, call.name)), BlockDelta(0, InputJsonDelta("")),
             BlockDelta(0, InputJsonDelta(call.input)), BlockStop(0), BlockStart(1, TextStart), BlockDelta(1, TextDelta(text))]
  {
    var messages := [Tool(call), Content(text)];
    var (c1, e1) := Step(Fresh, Tool(call));
    var (c2, e2) := Step(c1, Content(text));
    assert messages[1..] == [Content(text)];
    assert Process(c2, []).1 == [];
    assert Process(c1, [Content(text)]).1 == e2 + [];
  }
}
