/** Under which tool call a client files the pieces of input it receives.  Neither
    adapter compares ids, so calls in a row share the block of the first one. */
module ToolFiling {
  import opened Wrappers
  import opened Sequences
  import opened StreamMessages
  import Anthropic = AnthropicStream
  import AnthropicCalls = AnthropicProtocol
  import OpenAi = OpenAiStream

  type Piece = (string, string)

  /** What opening a tool block adds: one protocol sends an empty piece first. */
  function Opening(id: string, emptyFirst: bool): seq<Piece> { if emptyFirst then [(id, "")] else [] }

  /** The block that is open after a message that is not a tool call. */
  function StaysOpen(m: Message, head: Option<string>, thinkingCloses: bool): Option<string> {
    if m.Content? || (m.Think? && thinkingCloses) then None else head
  }

  /** Every piece of input with the id of its own call. */
  function Own(messages: seq<Message>, head: Option<string>, thinkingCloses: bool, emptyFirst: bool): seq<Piece> {
    if messages == [] || messages[0].StreamEnd? then []
    else if messages[0].Tool? then
      var call := messages[0].call;
      (if head.None? then Opening(call.id, emptyFirst) else []) + [(call.id, call.input)] +
      Own(messages[1..], Some(call.id), thinkingCloses, emptyFirst)
    else Own(messages[1..], StaysOpen(messages[0], head, thinkingCloses), thinkingCloses, emptyFirst)
  }

  /** Every piece of input with the id of the call that opened its block. */
  function Headed(messages: seq<Message>, head: Option<string>, thinkingCloses: bool, emptyFirst: bool): seq<Piece> {
    if messages == [] || messages[0].StreamEnd? then []
    else if messages[0].Tool? then
      var call := messages[0].call;
      var id := if head.Some? then head.value else call.id;
      (if head.None? then Opening(call.id, emptyFirst) else []) + [(id, call.input)] +
      Headed(messages[1..], Some(id), thinkingCloses, emptyFirst)
    else Headed(messages[1..], StaysOpen(messages[0], head, thinkingCloses), thinkingCloses, emptyFirst)
  }

  /** Every tool call that follows another one with no block-closing message in between
      carries the id of that one. */
  predicate SameIds(messages: seq<Message>, before: Option<string>, thinkingCloses: bool) {
    if messages == [] || messages[0].StreamEnd? then true
    else if messages[0].Tool? then
      (before.Some? ==> before.value == messages[0].call.id) &&
      SameIds(messages[1..], Some(messages[0].call.id), thinkingCloses)
    else SameIds(messages[1..], StaysOpen(messages[0], before, thinkingCloses), thinkingCloses)
  }

  lemma ConsEqual(p: seq<Piece>, x: Piece, y: Piece, a: seq<Piece>, b: seq<Piece>)
    ensures p + [x] + a == p + [y] + b <==> x == y && a == b
  {
    var s, t := p + [x] + a, p + [y] + b;
    assert s[|p|] == x && t[|p|] == y && s[|p| + 1..] == a && t[|p| + 1..] == b;
  }

  /** The two filings agree exactly if calls in a row carry the same id. */
  lemma {:induction false} OwnExactly(messages: seq<Message>, head: Option<string>, thinkingCloses: bool, emptyFirst: bool)
    ensures Headed(messages, head, thinkingCloses, emptyFirst) == Own(messages, head, thinkingCloses, emptyFirst) <==>
            SameIds(messages, head, thinkingCloses)
    decreases |messages|
  {
    if messages == [] || messages[0].StreamEnd? {
    } else if messages[0].Tool? {
      var call := messages[0].call;
      var id := if head.Some? then head.value else call.id;
      var opening := if head.None? then Opening(call.id, emptyFirst) else [];
      if id == call.id { OwnExactly(messages[1..], Some(id), thinkingCloses, emptyFirst); }
      ConsEqual(opening, (id, call.input), (call.id, call.input),
                Headed(messages[1..], Some(id), thinkingCloses, emptyFirst),
                Own(messages[1..], Some(call.id), thinkingCloses, emptyFirst));
    } else {
      OwnExactly(messages[1..], StaysOpen(messages[0], head, thinkingCloses), thinkingCloses, emptyFirst);
    }
  }

  // ----- the Anthropic client

  function Open(e: Anthropic.Event, current: Option<string>): Option<string> {
    match e
    case BlockStart(_, ToolStart(id, _)) => Some(id)
    case BlockStart(_, _) => None
    case BlockStop(_) => None
    case _ => current
  }

  function OpenAfter(events: seq<Anthropic.Event>, current: Option<string>): Option<string> {
    if events == [] then current else OpenAfter(events[1..], Open(events[0], current))
  }

  /** The pieces of tool input, each with the id of the open tool block. */
  function Filed(events: seq<Anthropic.Event>, current: Option<string>): seq<Piece> {
    if events == [] then []
    else if events[0].BlockDelta? && events[0].delta.InputJsonDelta? && current.Some? then
      [(current.value, events[0].delta.json)] + Filed(events[1..], current)
    else Filed(events[1..], Open(events[0], current))
  }

  lemma {:induction false} FiledConcat(a: seq<Anthropic.Event>, b: seq<Anthropic.Event>, current: Option<string>)
    ensures Filed(a + b, current) == Filed(a, current) + Filed(b, OpenAfter(a, current))
    ensures OpenAfter(a + b, current) == OpenAfter(b, OpenAfter(a, current))
    decreases |a|
  {
    if a == [] {
      assert a + b == b;
    } else {
      assert (a + b)[1..] == a[1..] + b;
      FiledConcat(a[1..], b, Open(a[0], current));
    }
  }

  lemma {:induction false} NothingFiled(events: seq<Anthropic.Event>, current: Option<string>)
    requires forall i :: 0 <= i < |events| ==> !(events[i].BlockDelta? && events[i].delta.InputJsonDelta?)
    ensures Filed(events, current) == []
    decreases |events|
  {
    if events == [] {
    } else {
      NothingFiled(events[1..], Open(events[0], current));
    }
  }

  lemma OneFiled(e: Anthropic.Event, current: Option<string>)
    ensures OpenAfter([e], current) == Open(e, current)
    ensures Filed([e], current) ==
            if e.BlockDelta? && e.delta.InputJsonDelta? && current.Some? then [(current.value, e.delta.json)] else []
  {
    assert Filed([], Open(e, current)) == [] && Filed([], current) == [];
    assert OpenAfter([], Open(e, current)) == Open(e, current);
  }

  lemma CloseFiles(c: Anthropic.Context, current: Option<string>)
    ensures Filed(Anthropic.Close(c), current) == []
    ensures OpenAfter(Anthropic.Close(c), current) == if c.last == Nothing then current else None
  {
    if c.last != Nothing { OneFiled(Anthropic.BlockStop(c.index), current); }
  }

  /** A change to thinking or text leaves no tool block open. */
  lemma SwitchFiles(c: Anthropic.Context, to: LastContentType, s: Anthropic.Start, current: Option<string>)
    requires !s.ToolStart?
    ensures var events := Anthropic.Switch(c, to, s).1;
            Filed(events, current) == [] && OpenAfter(events, current) == if c.last == to then current else None
  {
    var events := Anthropic.Switch(c, to, s).1;
    NothingFiled(events, current);
    var first := c.stream == NotStarted;
    var head := if first then [Anthropic.MessageStart] else [];
    var tail := if first then [Anthropic.Ping] else [];
    if first {
      OneFiled(Anthropic.MessageStart, current);
      OneFiled(Anthropic.Ping, None);
    }
    if c.last != to {
      var start := [Anthropic.BlockStart(Anthropic.NextIndex(c), s)];
      FiledConcat(head + Anthropic.Close(c) + start, tail, current);
      FiledConcat(head + Anthropic.Close(c), start, current);
      OneFiled(start[0], OpenAfter(head + Anthropic.Close(c), current));
    }
  }

  lemma NewToolFiles(c: Anthropic.Context, call: ToolCall, current: Option<string>)
    requires c.last != InputJsonType
    ensures var events := Anthropic.Step(c, Tool(call)).1;
            Filed(events, current) == [(call.id, "")] + [(call.id, call.input)] && OpenAfter(events, current) == Some(call.id)
  {
    var i := Anthropic.NextIndex(c);
    var start := [Anthropic.BlockStart(i, Anthropic.ToolStart(call.id, call.name))];
    var empty := [Anthropic.BlockDelta(i, Anthropic.InputJsonDelta(""))];
    var full := [Anthropic.BlockDelta(i, Anthropic.InputJsonDelta(call.input))];
    assert Anthropic.Step(c, Tool(call)).1 == Anthropic.Close(c) + (start + (empty + full));
    CloseFiles(c, current);
    var open := OpenAfter(Anthropic.Close(c), current);
    FiledConcat(Anthropic.Close(c), start + (empty + full), current);
    FiledConcat(start, empty + full, open);
    OneFiled(start[0], open);
    FiledConcat(empty, full, Some(call.id));
    OneFiled(empty[0], Some(call.id));
    OneFiled(full[0], Some(call.id));
  }

  /** What one message files, and which tool block it leaves open. */
  lemma StepFiles(c: Anthropic.Context, m: Message, current: Option<string>)
    requires current.Some? <==> c.last == InputJsonType
    ensures var (c1, events) := Anthropic.Step(c, m);
            if m.Tool? then
              var id := if current.Some? then current.value else m.call.id;
              && Filed(events, current) == (if current.None? then Opening(m.call.id, true) else []) + [(id, m.call.input)]
              && OpenAfter(events, current) == Some(id) && c1.last == InputJsonType
            else
              && Filed(events, current) == []
              && (!m.StreamEnd? ==>
                    && OpenAfter(events, current) == StaysOpen(m, current, true)
                    && (OpenAfter(events, current).Some? <==> c1.last == InputJsonType))
  {
    match m
    case Tool(call) =>
      if current.Some? {
        OneFiled(Anthropic.BlockDelta(c.index, Anthropic.InputJsonDelta(call.input)), current);
      } else {
        NewToolFiles(c, call, current);
      }
    case Content(text) =>
      var (c1, events) := Anthropic.Switch(c, TextType, Anthropic.TextStart);
      SwitchFiles(c, TextType, Anthropic.TextStart, current);
      var delta := Anthropic.BlockDelta(c1.index, Anthropic.TextDelta(text));
      FiledConcat(events, [delta], current);
      OneFiled(delta, OpenAfter(events, current));
    case Think(t) => ThinkFiles(c, t, current);
    case StreamEnd => CloseFiles(c, current);
    case WebReference(_) =>
  }

  lemma ThinkFiles(c: Anthropic.Context, t: Thinking, current: Option<string>)
    requires current.Some? <==> c.last == InputJsonType
    ensures var events := Anthropic.Step(c, Think(t)).1;
            Filed(events, current) == [] && OpenAfter(events, current) == None
  {
    var (c1, events) := Anthropic.Switch(c, ThinkingType, Anthropic.ThinkingStart);
    SwitchFiles(c, ThinkingType, Anthropic.ThinkingStart, current);
    var deltas := Anthropic.ThinkDelta(t, c1.index);
    FiledConcat(events, deltas, current);
    if !t.RedactedThinking? {
      assert deltas == [deltas[0]];
      OneFiled(deltas[0], OpenAfter(events, current));
    }
  }

  lemma {:induction false} ProcessFiles(c: Anthropic.Context, messages: seq<Message>, current: Option<string>)
    requires current.Some? <==> c.last == InputJsonType
    ensures Filed(Anthropic.Process(c, messages).1, current) == Headed(messages, current, true, true)
    decreases |messages|
  {
    if messages == [] {
    } else {
      var (c1, e1) := Anthropic.Step(c, messages[0]);
      StepFiles(c, messages[0], current);
      if !messages[0].StreamEnd? {
        ProcessFiles(c1, messages[1..], OpenAfter(e1, current));
        FiledConcat(e1, Anthropic.Process(c1, messages[1..]).1, current);
      }
    }
  }

  /** A client of the Anthropic stream files every piece of input under its own call
      exactly if tool calls in a row, with no thinking or text in between, carry the
      same id. */
  lemma AnthropicExactly(calls: seq<seq<Message>>)
    ensures Filed(Anthropic.Calls(Anthropic.Fresh, calls).1, None) == Own(Concat(calls), None, true, true) <==>
            SameIds(Concat(calls), None, true)
  {
    AnthropicCalls.CallsAreOneCall(Anthropic.Fresh, calls);
    ProcessFiles(Anthropic.Fresh, Concat(calls), None);
    OwnExactly(Concat(calls), None, true, true);
  }

  // ----- the OpenAI client

  /** The partial arguments, each with the id of the latest start. */
  function FiledChunks(chunks: seq<OpenAi.Chunk>, latest: Option<string>): seq<Piece> {
    if chunks == [] then []
    else
      match chunks[0].delta
      case ToolStart(_, id, _) => FiledChunks(chunks[1..], Some(id))
      case ToolPartial(_, arguments) =>
        (if latest.Some? then [(latest.value, arguments)] else []) + FiledChunks(chunks[1..], latest)
      case TextDelta(_) => FiledChunks(chunks[1..], latest)
  }

  function LatestAfter(chunks: seq<OpenAi.Chunk>, latest: Option<string>): Option<string> {
    if chunks == [] then latest
    else LatestAfter(chunks[1..], if chunks[0].delta.ToolStart? then Some(chunks[0].delta.id) else latest)
  }

  lemma {:induction false} FiledChunksConcat(a: seq<OpenAi.Chunk>, b: seq<OpenAi.Chunk>, latest: Option<string>)
    ensures FiledChunks(a + b, latest) == FiledChunks(a, latest) + FiledChunks(b, LatestAfter(a, latest))
    decreases |a|
  {
    if a == [] {
      assert a + b == b;
    } else {
      assert (a + b)[1..] == a[1..] + b;
      FiledChunksConcat(a[1..], b, if a[0].delta.ToolStart? then Some(a[0].delta.id) else latest);
    }
  }

  function HeadOf(c: OpenAi.Context, latest: Option<string>): Option<string> {
    if c.last == InputJsonType then latest else None
  }

  lemma ChunkFiles(c: OpenAi.Context, m: Message, latest: Option<string>)
    requires c.last == InputJsonType ==> latest.Some?
    ensures var (c1, chunks) := OpenAi.Step(c, m);
            var after := LatestAfter(chunks, latest);
            && (m.Tool? ==>
                  var id := if HeadOf(c, latest).Some? then latest.value else m.call.id;
                  FiledChunks(chunks, latest) == [(id, m.call.input)] && after == Some(id) && c1.last == InputJsonType)
            && (!m.Tool? ==> FiledChunks(chunks, latest) == [] && after == latest)
            && (!m.Tool? && !m.StreamEnd? ==> HeadOf(c1, after) == StaysOpen(m, HeadOf(c, latest), false))
            && (c1.last == InputJsonType ==> after.Some?)
  {
    var chunks := OpenAi.Step(c, m).1;
    if m.Tool? {
      if c.last == InputJsonType {
        OneChunk(chunks[0], latest);
      } else {
        assert chunks == [chunks[0]] + [chunks[1]];
        assert LatestAfter(chunks, latest) == LatestAfter([chunks[1]], Some(m.call.id)) by {
          assert chunks[1..] == [chunks[1]];
        }
        FiledChunksConcat([chunks[0]], [chunks[1]], latest);
        OneChunk(chunks[0], latest);
        OneChunk(chunks[1], Some(m.call.id));
      }
    } else if m.Content? {
      OneChunk(chunks[0], latest);
    }
  }

  lemma OneChunk(x: OpenAi.Chunk, latest: Option<string>)
    ensures LatestAfter([x], latest) == if x.delta.ToolStart? then Some(x.delta.id) else latest
    ensures FiledChunks([x], latest) ==
            if x.delta.ToolPartial? && latest.Some? then [(latest.value, x.delta.arguments)] else []
  {
    assert forall o: Option<string> :: FiledChunks([], o) == [] && LatestAfter([], o) == o;
  }

  lemma {:induction false} ProcessChunks(c: OpenAi.Context, messages: seq<Message>, latest: Option<string>)
    requires c.last == InputJsonType ==> latest.Some?
    ensures FiledChunks(OpenAi.Process(c, messages).1, latest) == Headed(messages, HeadOf(c, latest), false, false)
    decreases |messages|
  {
    if messages == [] {
    } else {
      var (c1, e1) := OpenAi.Step(c, messages[0]);
      ChunkFiles(c, messages[0], latest);
      if !messages[0].StreamEnd? {
        ProcessChunks(c1, messages[1..], LatestAfter(e1, latest));
        FiledChunksConcat(e1, OpenAi.Process(c1, messages[1..]).1, latest);
      }
    }
  }

  /** The same for a client of the OpenAI stream, where thinking is not sent and does
      not separate tool calls. */
  lemma OpenAiExactly(calls: seq<seq<Message>>)
    ensures FiledChunks(OpenAi.Calls(OpenAi.Fresh, calls).1, None) == Own(Concat(calls), None, false, false) <==>
            SameIds(Concat(calls), None, false)
  {
    OpenAi.CallsAreOneCall(OpenAi.Fresh, calls);
    ProcessChunks(OpenAi.Fresh, Concat(calls), None);
    OwnExactly(Concat(calls), None, false, false);
  }

  /** Two calls with different ids in a row: both clients file the second one's input
      under the first. */
  lemma SecondMisfiled(a: ToolCall, b: ToolCall)
    requires a.id != b.id
    ensures var calls := [[Tool(a), Tool(b)]];
            && Filed(Anthropic.Calls(Anthropic.Fresh, calls).1, None) != Own(Concat(calls), None, true, true)
            && FiledChunks(OpenAi.Calls(OpenAi.Fresh, calls).1, None) != Own(Concat(calls), None, false, false)
  {
    var messages := [Tool(a), Tool(b)];
    assert Concat([messages]) == messages + Concat([]) == messages;
    assert messages[1..] == [Tool(b)];
    AnthropicExactly([messages]);
    OpenAiExactly([messages]);
  }
}
