/** The OpenAI adapter: streamed chunks, and the text of the non-streaming branch. */
module OpenAiStream {
  import opened Wrappers
  import opened Sequences
  import opened StreamMessages

  /** The delta of a chunk. */
  datatype Delta =
    | TextDelta(content: string)
    | ToolStart(index: nat, id: string, name: string)
    | ToolPartial(index: nat, arguments: string)

  datatype Chunk = Chunk(role: bool, delta: Delta)

  datatype Context = Context(stream: StreamState, last: LastContentType, index: nat)

  const Fresh := Context(NotStarted, Nothing, 0)

  predicate Indented(s: string) { |s| >= 2 && s[0] == '\n' && s[1] == '\n' }

  /** `trim_leading_newlines` drops exactly one pair of newlines. */
  function Trim(s: string): (r: string)
    ensures "\n\n" <= s ==> s == "\n\n" + r
    ensures !("\n\n" <= s) ==> r == s
  {
    if Indented(s) then s[2..] else s
  }

  // ----- the adapter, message by message

  function Step(c: Context, m: Message): (Context, seq<Chunk>) {
    var first := c.stream == NotStarted;
    var stream := if first then ContentBlockActive else c.stream;
    match m
    case Content(text) =>
      (Context(stream, TextType, c.index), [Chunk(first, TextDelta(if first then Trim(text) else text))])
    case Tool(call) =>
      if c.last == InputJsonType then (c.(stream := stream), [Chunk(false, ToolPartial(c.index, call.input))])
      else
        var i := if c.last == Nothing then c.index else Wrap32(c.index + 1);
        (Context(stream, InputJsonType, i),
         [Chunk(first, ToolStart(i, call.id, call.name)), Chunk(false, ToolPartial(i, call.input))])
    case StreamEnd => (c.(stream := Completed), [])
    case _ => (c, [])
  }

  function Process(c: Context, messages: seq<Message>): (Context, seq<Chunk>)
    decreases |messages|
  {
    if messages == [] then (c, [])
    else
      var (c1, chunks) := Step(c, messages[0]);
      if messages[0].StreamEnd? then (c1, chunks)
      else
        var (c2, more) := Process(c1, messages[1..]);
        (c2, chunks + more)
  }

  /** One call per network chunk; the stream is dropped once it is completed. */
  function Calls(c: Context, calls: seq<seq<Message>>): (Context, seq<Chunk>)
    decreases |calls|
  {
    if calls == [] || c.stream == Completed then (c, [])
    else
      var (c1, chunks) := Process(c, calls[0]);
      var (c2, more) := Calls(c1, calls[1..]);
      (c2, chunks + more)
  }

  class Adapter {
    var stream: StreamState
    var last: LastContentType
    var index: nat

    ghost function View(): Context
      reads this
    {
      Context(stream, last, index)
    }

    constructor ()
      ensures View() == Fresh
    {
      stream, last, index := NotStarted, Nothing, 0;
    }

    /** The body of the loop for one message; `out` is what it appends. */
    method Handle(m: Message) returns (out: seq<Chunk>)
      modifies this
      ensures View() == Step(old(View()), m).0 && out == Step(old(View()), m).1
    {
      out := [];
      match m {
        case Content(text) =>
          var isStart := stream == NotStarted;
          if isStart { stream := ContentBlockActive; }
          if last != TextType { last := TextType; }
          out := out + [Chunk(isStart, TextDelta(if isStart then Trim(text) else text))];
        case Tool(call) =>
          var isStart := stream == NotStarted;
          if isStart { stream := ContentBlockActive; }
          if last != InputJsonType {
            if last != Nothing { index := Wrap32(index + 1); }
            out := out + [Chunk(isStart, ToolStart(index, call.id, call.name))];
            last := InputJsonType;
          }
          out := out + [Chunk(false, ToolPartial(index, call.input))];
        case StreamEnd => stream := Completed;
        case _ =>
      }
    }

    method ProcessMessages(messages: seq<Message>) returns (out: seq<Chunk>)
      modifies this
      ensures View() == Process(old(View()), messages).0 && out == Process(old(View()), messages).1
    {
      out := [];
      ghost var goal := Process(View(), messages);
      assert messages[0..] == messages;
      for k := 0 to |messages|
        invariant goal.0 == Process(View(), messages[k..]).0
        invariant goal.1 == out + Process(View(), messages[k..]).1
      {
        var chunks := Handle(messages[k]);
        ghost var rest := messages[k..];
        assert rest[1..] == messages[k + 1..] && rest[0] == messages[k];
        if messages[k].StreamEnd? {
          out := out + chunks;
          break;
        }
        Assoc(out, chunks, Process(View(), messages[k + 1..]).1);
        out := out + chunks;
      }
    }
  }

  // ----- how messages are grouped into calls does not matter

  lemma {:induction false} ProcessConcat(c: Context, a: seq<Message>, b: seq<Message>)
    requires c.stream != Completed
    ensures var (c1, e1) := Process(c, a);
            var (c2, e2) := if c1.stream == Completed then (c1, []) else Process(c1, b);
            Process(c, a + b).0 == c2 && Process(c, a + b).1 == e1 + e2
    decreases |a|
  {
    if a == [] {
      assert a + b == b;
    } else {
      var (c1, e1) := Step(c, a[0]);
      assert (a + b)[1..] == a[1..] + b;
      if !a[0].StreamEnd? {
        ProcessConcat(c1, a[1..], b);
        var (c2, e2) := Process(c1, a[1..]);
        Assoc(e1, e2, if c2.stream == Completed then [] else Process(c2, b).1);
      }
    }
  }

  lemma {:induction false} CallsAreOneCall(c: Context, calls: seq<seq<Message>>)
    requires c.stream != Completed
    ensures Calls(c, calls).0 == Process(c, Concat(calls)).0
    ensures Calls(c, calls).1 == Process(c, Concat(calls)).1
    decreases |calls|
  {
    if calls == [] {
    } else {
      var (c1, e1) := Process(c, calls[0]);
      ProcessConcat(c, calls[0], Concat(calls[1..]));
      if c1.stream != Completed { CallsAreOneCall(c1, calls[1..]); }
    }
  }

  // ----- roles and tool indices

  /** A client's view: whether any chunk came, whether text came before the first tool
      call, how many tool calls were started and the index of the latest. */
  datatype Monitor = Monitor(any: bool, textFirst: bool, starts: nat, latest: Option<nat>)

  const Initial := Monitor(false, false, 0, None)

  /** One chunk; `None` is a violation.  The role must be on the first chunk and on no
      other; tool starts count up from zero, or from one when text came first; partial
      arguments belong to the latest start. */
  function Observe(m: Monitor, chunk: Chunk): Option<Monitor> {
    if chunk.role != !m.any then None
    else match chunk.delta
      case TextDelta(_) => Some(m.(any := true, textFirst := m.textFirst || m.starts == 0))
      case ToolStart(i, _, _) =>
        if i != Wrap32(m.starts + (if m.textFirst then 1 else 0)) then None
        else Some(m.(any := true, starts := m.starts + 1, latest := Some(i)))
      case ToolPartial(i, _) => if m.latest != Some(i) then None else Some(m.(any := true))
  }

  function Watch(m: Monitor, chunks: seq<Chunk>): Option<Monitor>
    decreases |chunks|
  {
    if chunks == [] then Some(m)
    else match Observe(m, chunks[0])
      case None => None
      case Some(m1) => Watch(m1, chunks[1..])
  }

  lemma {:induction false} WatchConcat(m: Monitor, a: seq<Chunk>, b: seq<Chunk>)
    ensures Watch(m, a + b) == (match Watch(m, a) case None => None case Some(m1) => Watch(m1, b))
    decreases |a|
  {
    if a == [] {
      assert a + b == b;
    } else {
      assert (a + b)[1..] == a[1..] + b;
      if Observe(m, a[0]).Some? { WatchConcat(Observe(m, a[0]).value, a[1..], b); }
    }
  }

  predicate Agree(c: Context, m: Monitor) {
    && (c.stream == NotStarted ==> c == Fresh && m == Initial)
    && (c.stream == ContentBlockActive ==>
          && m.any && c.last != Nothing && c.last != ThinkingType
          && (c.last == TextType && m.starts == 0 ==> m.textFirst)
          && (m.starts == 0 ==> c.last == TextType && c.index == 0)
          && (m.starts > 0 ==> c.index == Wrap32(m.starts - 1 + (if m.textFirst then 1 else 0)) && m.latest == Some(c.index)))
  }

  lemma WatchOne(m: Monitor, a: Chunk)
    ensures Watch(m, [a]) == Observe(m, a)
  {}

  lemma WatchTwo(m: Monitor, a: Chunk, b: Chunk)
    requires Observe(m, a).Some?
    ensures Watch(m, [a, b]) == Observe(Observe(m, a).value, b)
  {
    assert [a, b] == [a] + [b];
    WatchConcat(m, [a], [b]);
    WatchOne(m, a);
    WatchOne(Observe(m, a).value, b);
  }

  lemma StepLegal(c: Context, m: Monitor, msg: Message)
    requires Agree(c, m) && c.stream != Completed
    ensures var (c1, chunks) := Step(c, msg);
            Watch(m, chunks).Some? && Agree(c1, Watch(m, chunks).value)
  {
    var (c1, chunks) := Step(c, msg);
    if m.starts > 0 { WrapNext(m.starts - 1 + (if m.textFirst then 1 else 0)); }
    match msg
    case Content(_) => WatchOne(m, chunks[0]);
    case Tool(call) =>
      if c.last == InputJsonType {
        WatchOne(m, chunks[0]);
      } else {
        WatchTwo(m, chunks[0], chunks[1]);
      }
    case _ =>
  }

  lemma {:induction false} ProcessLegal(c: Context, m: Monitor, messages: seq<Message>)
    requires Agree(c, m) && c.stream != Completed
    ensures Watch(m, Process(c, messages).1).Some?
    decreases |messages|
  {
    if messages == [] {
    } else {
      var (c1, e1) := Step(c, messages[0]);
      StepLegal(c, m, messages[0]);
      if !messages[0].StreamEnd? {
        ProcessLegal(c1, Watch(m, e1).value, messages[1..]);
        WatchConcat(m, e1, Process(c1, messages[1..]).1);
      }
    }
  }

  /** For every sequence of messages in every grouping into calls, the chunks obey the
      client's rules about roles and tool indices. */
  lemma StreamIsLegal(calls: seq<seq<Message>>)
    ensures Watch(Initial, Calls(Fresh, calls).1).Some?
  {
    CallsAreOneCall(Fresh, calls);
    ProcessLegal(Fresh, Initial, Concat(calls));
  }

  function LastStart(chunks: seq<Chunk>): Option<nat> {
    if chunks == [] then None
    else
      var last := chunks[|chunks| - 1].delta;
      if last.ToolStart? then Some(last.index) else LastStart(chunks[..|chunks| - 1])
  }

  function ToolStarts(chunks: seq<Chunk>): seq<nat> {
    if chunks == [] then []
    else if chunks[0].delta.ToolStart? then [chunks[0].delta.index] + ToolStarts(chunks[1..])
    else ToolStarts(chunks[1..])
  }

  lemma {:induction false} LatestIsLastStart(chunks: seq<Chunk>)
    requires Watch(Initial, chunks).Some?
    ensures Watch(Initial, chunks).value.latest == LastStart(chunks)
    decreases |chunks|
  {
    if chunks == [] {
    } else {
      var k := |chunks| - 1;
      WatchSnoc(chunks, k);
      LatestIsLastStart(chunks[..k]);
    }
  }

  lemma WatchSnoc(chunks: seq<Chunk>, k: nat)
    requires k < |chunks| && Watch(Initial, chunks).Some?
    ensures Watch(Initial, chunks[..k]).Some? && Observe(Watch(Initial, chunks[..k]).value, chunks[k]).Some?
    ensures k + 1 == |chunks| ==>
              Watch(Initial, chunks) == Observe(Watch(Initial, chunks[..k]).value, chunks[k])
  {
    assert chunks == chunks[..k] + chunks[k..];
    WatchConcat(Initial, chunks[..k], chunks[k..]);
  }

  /** In a stream the client accepts, partial arguments carry the index of the latest
      tool start before them. */
  lemma ArgumentsFollowStart(chunks: seq<Chunk>, k: nat)
    requires Watch(Initial, chunks).Some? && k < |chunks| && chunks[k].delta.ToolPartial?
    ensures LastStart(chunks[..k]) == Some(chunks[k].delta.index)
  {
    WatchSnoc(chunks, k);
    LatestIsLastStart(chunks[..k]);
  }

  lemma {:induction false} TextFirstFixed(m: Monitor, chunks: seq<Chunk>)
    requires Watch(m, chunks).Some? && m.starts > 0
    ensures Watch(m, chunks).value.textFirst == m.textFirst
    decreases |chunks|
  {
    if chunks == [] {
    } else {
      TextFirstFixed(Observe(m, chunks[0]).value, chunks[1..]);
    }
  }

  lemma {:induction false} StartsCounted(m: Monitor, chunks: seq<Chunk>)
    requires Watch(m, chunks).Some?
    ensures var n := Watch(m, chunks).value;
            Consecutive(ToolStarts(chunks), m.starts + (if n.textFirst then 1 else 0))
    decreases |chunks|
  {
    if chunks == [] {
    } else {
      var m1 := Observe(m, chunks[0]).value;
      StartsCounted(m1, chunks[1..]);
      if chunks[0].delta.ToolStart? {
        TextFirstFixed(m1, chunks[1..]);
        ConsecutiveCons(chunks[0].delta.index, ToolStarts(chunks[1..]), m.starts + (if m1.textFirst then 1 else 0));
      }
    }
  }

  /** In a stream the client accepts, tool starts count up one by one, from zero or,
      when text came first, from one. */
  lemma StartsCountUp(chunks: seq<Chunk>)
    requires Watch(Initial, chunks).Some?
    ensures var first := if Watch(Initial, chunks).value.textFirst then 1 else 0;
            forall k :: 0 <= k < |ToolStarts(chunks)| ==> ToolStarts(chunks)[k] == (first + k) % 0x1_0000_0000
  {
    var starts, first := ToolStarts(chunks), if Watch(Initial, chunks).value.textFirst then 1 else 0;
    StartsCounted(Initial, chunks);
    forall k | 0 <= k < |starts| ensures starts[k] == Wrap32(first + k) { ConsecutiveAt(starts, first, k); }
  }

  /** In a stream the client accepts, exactly the first chunk carries the role. */
  lemma {:induction false} RoleOnFirst(m: Monitor, chunks: seq<Chunk>)
    requires Watch(m, chunks).Some?
    ensures forall i :: 0 <= i < |chunks| ==> (chunks[i].role <==> i == 0 && !m.any)
    decreases |chunks|
  {
    if chunks == [] {
    } else {
      RoleOnFirst(Observe(m, chunks[0]).value, chunks[1..]);
      forall i | 0 < i < |chunks| ensures !chunks[i].role {
        assert chunks[i] == chunks[1..][i - 1];
      }
    }
  }

  // ----- the text of the two branches

  /** The non-streaming branch appends all text and trims once at the end. */
  function FullText(messages: seq<Message>): string {
    if messages == [] then ""
    else (if messages[0].Content? then messages[0].text else "") + FullText(messages[1..])
  }

  lemma FullTextStep(messages: seq<Message>, i: nat, text: string)
    requires i < |messages|
    ensures text + FullText(messages[i..]) ==
            (if messages[i].Content? then text + messages[i].text else text) + FullText(messages[i + 1..])
  {
    assert messages[i..][1..] == messages[i + 1..];
    if messages[i].Content? { Assoc(text, messages[i].text, FullText(messages[i + 1..])); }
  }

  method NonStreamingText(messages: seq<Message>) returns (text: string)
    ensures text == Trim(FullText(messages))
  {
    text := "";
    assert messages[0..] == messages;
    for i := 0 to |messages|
      invariant FullText(messages) == text + FullText(messages[i..])
    {
      FullTextStep(messages, i, text);
      if messages[i].Content? {
        text := text + messages[i].text;
      }
    }
    assert messages[|messages|..] == [] && text + "" == text;
    text := Trim(text);
  }

  /** What a client concatenates. */
  function StreamedText(chunks: seq<Chunk>): string {
    if chunks == [] then ""
    else (if chunks[0].delta.TextDelta? then chunks[0].delta.content else "") + StreamedText(chunks[1..])
  }

  lemma {:induction false} StreamedConcat(a: seq<Chunk>, b: seq<Chunk>)
    ensures StreamedText(a + b) == StreamedText(a) + StreamedText(b)
    decreases |a|
  {
    if a == [] {
      assert a + b == b;
    } else {
      assert (a + b)[1..] == a[1..] + b;
      StreamedConcat(a[1..], b);
    }
  }

  /** A run of messages in which the end of the stream, if present, comes last. */
  predicate EndsOnce(messages: seq<Message>) {
    forall i :: 0 <= i < |messages| - 1 ==> !messages[i].StreamEnd?
  }

  /** The first message that makes the adapter emit anything. */
  function FirstEmitting(messages: seq<Message>): Option<Message> {
    if messages == [] || messages[0].StreamEnd? then None
    else if messages[0].Content? || messages[0].Tool? then Some(messages[0])
    else FirstEmitting(messages[1..])
  }

  lemma Texts(c: Context, m: Message)
    requires c.stream != NotStarted
    ensures StreamedText(Step(c, m).1) == if m.Content? then m.text else ""
  {
    if m.Content? {
      assert StreamedText([Chunk(false, TextDelta(m.text))]) == m.text + StreamedText([]);
    } else if m.Tool? {
      ToolsAreSilent(Step(c, m).1);
    }
  }

  lemma {:induction false} ToolsAreSilent(chunks: seq<Chunk>)
    requires forall i :: 0 <= i < |chunks| ==> !chunks[i].delta.TextDelta?
    ensures StreamedText(chunks) == ""
    decreases |chunks|
  {
    if chunks == [] {
    } else {
      ToolsAreSilent(chunks[1..]);
    }
  }

  /** Once started, the adapter passes text through unchanged. */
  lemma {:induction false} PassesThrough(c: Context, messages: seq<Message>)
    requires c.stream != NotStarted && EndsOnce(messages)
    ensures StreamedText(Process(c, messages).1) == FullText(messages)
    decreases |messages|
  {
    if messages == [] {
    } else {
      Texts(c, messages[0]);
      if messages[0].StreamEnd? {
        assert messages[1..] == [];
      } else {
        PassesThrough(Step(c, messages[0]).0, messages[1..]);
        StreamedConcat(Step(c, messages[0]).1, Process(Step(c, messages[0]).0, messages[1..]).1);
      }
    }
  }

  /** The streamed text: the first piece is trimmed if nothing was emitted before it. */
  lemma {:induction false} Streams(messages: seq<Message>)
    requires EndsOnce(messages)
    ensures var first := FirstEmitting(messages);
            var text := StreamedText(Process(Fresh, messages).1);
            if first.Some? && first.value.Content?
            then exists rest :: FullText(messages) == first.value.text + rest && text == Trim(first.value.text) + rest
            else text == FullText(messages)
    decreases |messages|
  {
    if messages == [] {
    } else {
      var m := messages[0];
      var (c1, e1) := Step(Fresh, m);
      if m.Content? {
        PassesThrough(c1, messages[1..]);
        StreamedConcat(e1, Process(c1, messages[1..]).1);
        assert StreamedText(e1) == Trim(m.text) + StreamedText([]);
        assert FullText(messages) == m.text + FullText(messages[1..]);
      } else if m.Tool? {
        PassesThrough(c1, messages[1..]);
        StreamedConcat(e1, Process(c1, messages[1..]).1);
        ToolsAreSilent(e1);
      } else if m.StreamEnd? {
        assert messages[1..] == [];
      } else {
        Streams(messages[1..]);
        var more := Process(Fresh, messages[1..]).1;
        assert Process(Fresh, messages).1 == more by { assert [] + more == more; }
        assert FullText(messages) == FullText(messages[1..]);
      }
    }
  }

  lemma TrimsNothing(full: string)
    ensures full == Trim(full) <==> !("\n\n" <= full)
  {
    if "\n\n" <= full { assert |full| == 2 + |Trim(full)|; }
  }

  lemma TrimsFirst(t: string, rest: string)
    ensures Trim(t) + rest == Trim(t + rest) <==> !("\n\n" <= t + rest) || "\n\n" <= t
  {
    var full := t + rest;
    if "\n\n" <= t {
      assert full[..2] == t[..2];
      assert full[2..] == t[2..] + rest;
    } else {
      TrimsNothing(full);
    }
  }

  /** The concatenated deltas equal the non-streaming text exactly when the whole text
      does not begin with two newlines, or the first thing emitted is a text piece that
      itself begins with them.  A tool call before the text, or newlines arriving one by
      one, make the two branches differ. */
  lemma TextsAgree(messages: seq<Message>)
    requires EndsOnce(messages)
    ensures var first := FirstEmitting(messages);
            StreamedText(Process(Fresh, messages).1) == Trim(FullText(messages)) <==>
            !("\n\n" <= FullText(messages)) || (first.Some? && first.value.Content? && "\n\n" <= first.value.text)
  {
    Streams(messages);
    var first, full := FirstEmitting(messages), FullText(messages);
    var streamed := StreamedText(Process(Fresh, messages).1);
    if first.Some? && first.value.Content? {
      var t := first.value.text;
      var rest :| full == t + rest && streamed == Trim(t) + rest;
      TrimsFirst(t, rest);
      if "\n\n" <= t { assert full[..2] == t[..2]; }
    } else {
      TrimsNothing(full);
    }
  }

  /** Two messages on which the branches differ. */
  lemma TextsDiffer()
    ensures var messages := [Content("\n"), Content("\n")];
            StreamedText(Process(Fresh, messages).1) == "\n\n" && Trim(FullText(messages)) == ""
  {
    var messages := [Content("\n"), Content("\n")];
    assert messages[1..] == [Content("\n")] && messages[1..][1..] == [];
    assert FullText(messages) == "\n" + ("\n" + "");
    var (c1, e1) := Step(Fresh, messages[0]);
    assert Process(c1, messages[1..]).1 == [Chunk(false, TextDelta("\n"))] + [];
    assert Process(Fresh, messages).1 == [Chunk(true, TextDelta("\n")), Chunk(false, TextDelta("\n"))];
    assert StreamedText([Chunk(false, TextDelta("\n"))]) == "\n" + "";
  }

  // ----- tool calls are passed on whole

  function Announced(chunks: seq<Chunk>): seq<(string, string)> {
    if chunks == [] then []
    else
      var rest := Announced(chunks[1..]);
      match chunks[0].delta
      case ToolStart(_, id, name) => [(id, name)] + rest
      case _ => rest
  }

  function ArgumentsOf(chunks: seq<Chunk>): string {
    if chunks == [] then ""
    else (match chunks[0].delta case ToolPartial(_, text) => text case _ => "") + ArgumentsOf(chunks[1..])
  }

  function Inputs(messages: seq<Message>): string {
    if messages == [] || messages[0].StreamEnd? then ""
    else (if messages[0].Tool? then messages[0].call.input else "") + Inputs(messages[1..])
  }

  lemma {:induction false} ToolsConcat(a: seq<Chunk>, b: seq<Chunk>)
    ensures Announced(a + b) == Announced(a) + Announced(b) && ArgumentsOf(a + b) == ArgumentsOf(a) + ArgumentsOf(b)
    decreases |a|
  {
    if a == [] {
      assert a + b == b;
    } else {
      ToolsConcat(a[1..], b);
      assert (a + b)[1..] == a[1..] + b;
      Assoc(match a[0].delta case ToolPartial(_, text) => text case _ => "", ArgumentsOf(a[1..]), ArgumentsOf(b));
    }
  }

  lemma StepTools(c: Context, m: Message)
    ensures Announced(Step(c, m).1) == if m.Tool? && c.last != InputJsonType then [(m.call.id, m.call.name)] else []
    ensures ArgumentsOf(Step(c, m).1) == if m.Tool? then m.call.input else ""
  {
    var chunks := Step(c, m).1;
    if |chunks| == 2 {
      assert chunks == [chunks[0]] + [chunks[1]];
      ToolsConcat([chunks[0]], [chunks[1]]);
      ToolsOne(chunks[0]);
      ToolsOne(chunks[1]);
    } else if |chunks| == 1 {
      ToolsOne(chunks[0]);
    }
  }

  lemma ToolsOne(chunk: Chunk)
    ensures Announced([chunk]) == if chunk.delta.ToolStart? then [(chunk.delta.id, chunk.delta.name)] else []
    ensures ArgumentsOf([chunk]) == if chunk.delta.ToolPartial? then chunk.delta.arguments else ""
  {
    assert Announced([]) == [] && ArgumentsOf([]) == "";
  }

  lemma {:induction false} ProcessTools(c: Context, messages: seq<Message>)
    ensures Announced(Process(c, messages).1) == Heads(messages, c.last == InputJsonType, false)
    ensures ArgumentsOf(Process(c, messages).1) == Inputs(messages)
    decreases |messages|
  {
    if messages == [] {
    } else {
      var (c1, e1) := Step(c, messages[0]);
      StepTools(c, messages[0]);
      if !messages[0].StreamEnd? {
        ProcessTools(c1, messages[1..]);
        ToolsConcat(e1, Process(c1, messages[1..]).1);
      }
    }
  }

  /** The client is told id and name of exactly the tool calls that open one, and the
      partial arguments together are the input of all tool calls, in order. */
  lemma ToolsConserved(calls: seq<seq<Message>>)
    ensures Announced(Calls(Fresh, calls).1) == Heads(Concat(calls), false, false)
    ensures ArgumentsOf(Calls(Fresh, calls).1) == Inputs(Concat(calls))
  {
    CallsAreOneCall(Fresh, calls);
    ProcessTools(Fresh, Concat(calls));
  }
}
