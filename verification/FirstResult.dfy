/** The handler around the stream decoder and the adapter: in which order, and whether
    at all, the decoded messages reach the client. */
module FirstResult {
  import opened Wrappers
  import opened Sequences
  import opened GrpcFrames
  import opened StreamMessages
  import opened AnthropicStream
  import opened AnthropicProtocol
  import opened AnthropicContent
  import opened ChunkDecoder

  /** The position of the first chunk with content, or the length. */
  function FirstContent(chunks: seq<Chunk>): (n: nat)
    ensures n <= |chunks|
    ensures n < |chunks| ==> chunks[n].Parsed? && chunks[n].content
  {
    if chunks == [] || (chunks[0].Parsed? && chunks[0].content) then 0 else 1 + FirstContent(chunks[1..])
  }

  /** The position of the first chunk that empties the buffer, or the length. */
  function FirstDrained(chunks: seq<Chunk>): (n: nat)
    ensures n <= |chunks|
    ensures n < |chunks| ==> chunks[n].Parsed? && chunks[n].drained
  {
    if chunks == [] || (chunks[0].Parsed? && chunks[0].drained) then 0 else 1 + FirstDrained(chunks[1..])
  }

  lemma {:induction false} NoneBefore(chunks: seq<Chunk>, i: nat)
    requires i < |chunks|
    ensures i < FirstContent(chunks) ==> !(chunks[i].Parsed? && chunks[i].content)
    ensures i < FirstDrained(chunks) ==> !(chunks[i].Parsed? && chunks[i].drained)
    decreases i
  {
    if i == 0 {
    } else {
      NoneBefore(chunks[1..], i - 1);
    }
  }

  // ----- when there is something to show

  /** No text, no thinking, no tool input and no signature. */
  ghost predicate Mute(m: Message) {
    && Sent(m, TextBlock) == "" && Sent(m, ThinkingBlock) == "" && Sent(m, ToolBlock) == ""
    && forall signature :: m == Think(Signature(signature)) ==> signature == ""
  }

  ghost predicate Silent(messages: seq<Message>) { forall i :: 0 <= i < |messages| ==> Mute(messages[i]) }

  lemma ContentMeans(messages: seq<Message>)
    ensures HasContent(messages) <==> !Silent(messages)
  {
    forall i | 0 <= i < |messages| ensures AnyContent(messages[i]) <==> !Mute(messages[i]) {
      OneMeans(messages[i]);
    }
  }

  lemma OneMeans(m: Message)
    ensures AnyContent(m) <==> !Mute(m)
  {
    if m.Think? && m.thinking.Signature? { assert m == Think(Signature(m.thinking.signature)); }
  }

  /** All messages decoded from the first `k` chunks. */
  function DecodedUpTo(f: Processor, datas: seq<seq<u8>>, k: nat): seq<Message>
    requires k <= |datas|
  {
    Decoded(f, [], Frames(Concat(datas[..k])))
  }

  lemma NextContent(f: Processor, web: bool, before: seq<u8>, data: seq<u8>)
    ensures var c := ChunkOf(f, web, before, data);
            HasContent(Decoded(f, [], Frames(before + data))) <==>
            HasContent(Decoded(f, [], Frames(before))) || (c.Parsed? && c.content)
  {
    var older, newer := Frames(before), Frames(Rest(before) + data);
    ChunkCarries(f, web, before, data);
    DecodedConcat(f, [], older, newer);
    assert [] + older == older;
    ContentConcat(Decoded(f, [], older), Decoded(f, older, newer));
    var c := ChunkOf(f, web, before, data);
    if c.Short? { assert |ShowAll(web, Decoded(f, older, newer))| == 0; }
  }

  lemma FirstContentStep(chunks: seq<Chunk>, k: nat)
    requires k < |chunks|
    ensures k + 1 <= FirstContent(chunks) <==>
            k <= FirstContent(chunks) && !HasShown(chunks[k])
  {
    NoneBefore(chunks, k);
  }

  predicate HasShown(c: Chunk) { c.Parsed? && c.content }

  lemma ContentStep(f: Processor, web: bool, datas: seq<seq<u8>>, k: nat)
    requires k < |datas|
    ensures HasContent(DecodedUpTo(f, datas, k + 1)) <==>
            HasContent(DecodedUpTo(f, datas, k)) || HasShown(ChunksOf(f, web, datas)[k])
  {
    PrefixSnoc(datas, k);
    NextContent(f, web, Concat(datas[..k]), datas[k]);
  }

  lemma {:induction false} ContentUpTo(f: Processor, web: bool, datas: seq<seq<u8>>, chunks: seq<Chunk>, k: nat)
    requires k <= |datas| == |chunks| && chunks == ChunksOf(f, web, datas)
    ensures k <= FirstContent(chunks) <==> !HasContent(DecodedUpTo(f, datas, k))
    decreases k
  {
    if k == 0 {
      assert datas[..0] == [];
    } else {
      ContentUpTo(f, web, datas, chunks, k - 1);
      ContentStep(f, web, datas, k - 1);
      FirstContentStep(chunks, k - 1);
    }
  }

  /** The first chunk with content is the first one that completes a message with text,
      thinking, tool input or a signature. */
  lemma FirstContentIs(f: Processor, web: bool, datas: seq<seq<u8>>, k: nat)
    requires k <= |datas|
    ensures k <= FirstContent(ChunksOf(f, web, datas)) <==> Silent(DecodedUpTo(f, datas, k))
  {
    ContentUpTo(f, web, datas, ChunksOf(f, web, datas), k);
    ContentMeans(DecodedUpTo(f, datas, k));
  }

  // ----- the calls of `process_messages`

  /** Calls one after the other, whether or not an earlier one completed the stream. */
  function RunAll(c: Context, calls: seq<seq<Message>>): (Context, seq<Event>)
    decreases |calls|
  {
    if calls == [] then (c, [])
    else
      var (c1, e1) := Process(c, calls[0]);
      var (c2, e2) := RunAll(c1, calls[1..]);
      (c2, e1 + e2)
  }

  /** The calls made for one chunk: the cache, if it can be taken, and the messages. */
  function TurnCalls(first: Option<seq<Message>>, chunk: Chunk): seq<seq<Message>>
    requires chunk.Parsed?
  {
    if chunk.drained && first.Some? then [first.value, chunk.messages] else [chunk.messages]
  }

  function Left(first: Option<seq<Message>>, chunk: Chunk): Option<seq<Message>>
    requires chunk.Parsed?
  {
    if chunk.drained then None else first
  }

  /** All calls made for the later chunks.  The stream is dropped after a chunk that
      leaves the adapter completed. */
  function LaterCalls(c: Context, first: Option<seq<Message>>, later: seq<Chunk>): seq<seq<Message>>
    decreases |later|
  {
    if later == [] then []
    else if later[0].Short? then LaterCalls(c, first, later[1..])
    else
      var calls := TurnCalls(first, later[0]);
      var c1 := RunAll(c, calls).0;
      if c1.stream == Completed then calls else calls + LaterCalls(c1, Left(first, later[0]), later[1..])
  }

  /** How many of the later chunks are read before the stream is dropped. */
  function Reads(c: Context, first: Option<seq<Message>>, later: seq<Chunk>): (k: nat)
    ensures k <= |later|
    decreases |later|
  {
    if later == [] then 0
    else if later[0].Short? then 1 + Reads(c, first, later[1..])
    else
      var c1 := RunAll(c, TurnCalls(first, later[0])).0;
      if c1.stream == Completed then 1 else 1 + Reads(c1, Left(first, later[0]), later[1..])
  }

  lemma {:induction false} RunAllConcat(c: Context, a: seq<seq<Message>>, b: seq<seq<Message>>)
    ensures RunAll(c, a + b).0 == RunAll(RunAll(c, a).0, b).0
    ensures RunAll(c, a + b).1 == RunAll(c, a).1 + RunAll(RunAll(c, a).0, b).1
    decreases |a|
  {
    if a == [] {
      assert a + b == b;
    } else {
      var (c1, e1) := Process(c, a[0]);
      RunAllConcat(c1, a[1..], b);
      assert (a + b)[1..] == a[1..] + b;
      Assoc(e1, RunAll(c1, a[1..]).1, RunAll(RunAll(c1, a[1..]).0, b).1);
    }
  }

  // ----- the handler

  /** The closure that handles one later chunk. */
  method ServeChunk(decoder: StreamDecoder, adapter: Adapter, data: seq<u8>) returns (out: seq<Event>, dropped: bool)
    requires decoder.Valid() && decoder.ready
    modifies decoder, decoder.buffer, adapter
    ensures decoder.Valid() && decoder.ready && decoder.bytes == old(decoder.bytes) + data
    ensures var chunk := ChunkOf(decoder.process, decoder.web, old(decoder.bytes), data);
            && (chunk.Short? ==>
                  && out == [] && !dropped
                  && adapter.View() == old(adapter.View()) && decoder.firstResult == old(decoder.firstResult))
            && (chunk.Parsed? ==>
                  var calls := TurnCalls(old(decoder.firstResult), chunk);
                  && adapter.View() == RunAll(old(adapter.View()), calls).0
                  && out == RunAll(old(adapter.View()), calls).1
                  && dropped == (adapter.View().stream == Completed)
                  && decoder.firstResult == Left(old(decoder.firstResult), chunk))
  {
    ghost var c, first := adapter.View(), decoder.firstResult;
    var messages := decoder.Decode(data);
    if messages.Err? {
      return [], false;
    }
    out := [];
    var taken := decoder.TakeFirstResult();
    if taken.Some? {
      out := adapter.ProcessMessages(taken.value);
      TwoCalls(c, taken.value, messages.value);
    } else {
      OneCall(c, messages.value);
    }
    var current := adapter.ProcessMessages(messages.value);
    out := out + current;
    dropped := adapter.stream == Completed;
  }

  lemma OneCall(c: Context, a: seq<Message>)
    ensures RunAll(c, [a]).0 == Process(c, a).0 && RunAll(c, [a]).1 == [] + Process(c, a).1
  {
    assert RunAll(Process(c, a).0, []).1 == [];
  }

  lemma TwoCalls(c: Context, a: seq<Message>, b: seq<Message>)
    ensures RunAll(c, [a, b]).0 == Process(Process(c, a).0, b).0
    ensures RunAll(c, [a, b]).1 == Process(c, a).1 + Process(Process(c, a).0, b).1
  {
    OneCall(Process(c, a).0, b);
    assert [a, b][1..] == [b];
  }

  /** The events of those calls, chunk by chunk. */
  function Due(c: Context, first: Option<seq<Message>>, later: seq<Chunk>): seq<Event>
    decreases |later|
  {
    if later == [] then []
    else if later[0].Short? then Due(c, first, later[1..])
    else
      var (c1, e1) := RunAll(c, TurnCalls(first, later[0]));
      if c1.stream == Completed then e1 else e1 + Due(c1, Left(first, later[0]), later[1..])
  }

  lemma {:induction false} DueIsRun(c: Context, first: Option<seq<Message>>, later: seq<Chunk>)
    ensures Due(c, first, later) == RunAll(c, LaterCalls(c, first, later)).1
    decreases |later|
  {
    if later == [] {
    } else if later[0].Short? {
      DueIsRun(c, first, later[1..]);
    } else {
      var calls := TurnCalls(first, later[0]);
      var c1 := RunAll(c, calls).0;
      if c1.stream != Completed {
        DueIsRun(c1, Left(first, later[0]), later[1..]);
        RunAllConcat(c, calls, LaterCalls(c1, Left(first, later[0]), later[1..]));
      }
    }
  }

  /** What was emitted so far and what the remaining chunks still give make up `all`. */
  ghost predicate Owes(c: Context, first: Option<seq<Message>>, later: seq<Chunk>, done: seq<Event>, all: seq<Event>) {
    all == done + Due(c, first, later)
  }

  lemma OwesNothing(c: Context, first: Option<seq<Message>>, chunks: seq<Chunk>, j: nat, done: seq<Event>, all: seq<Event>)
    requires j == |chunks| && Owes(c, first, chunks[j..], done, all)
    ensures done == all
  {}

  /** One later chunk of the loop. */
  lemma LaterStep(c: Context, first: Option<seq<Message>>, chunks: seq<Chunk>, j: nat, done: seq<Event>, all: seq<Event>)
    requires j < |chunks| && Owes(c, first, chunks[j..], done, all)
    ensures chunks[j].Short? ==> Owes(c, first, chunks[j + 1..], done + [], all)
    ensures chunks[j].Parsed? ==>
              var (c1, e1) := RunAll(c, TurnCalls(first, chunks[j]));
              if c1.stream == Completed then all == done + e1
              else Owes(c1, Left(first, chunks[j]), chunks[j + 1..], done + e1, all)
  {
    assert chunks[j..][1..] == chunks[j + 1..];
    if chunks[j].Parsed? {
      var (c1, e1) := RunAll(c, TurnCalls(first, chunks[j]));
      Assoc(done, e1, Due(c1, Left(first, chunks[j]), chunks[j + 1..]));
    } else {
      assert done + [] == done;
    }
  }

  /** One turn of the loop over the later chunks. */
  method ServeTurn(decoder: StreamDecoder, adapter: Adapter, datas: seq<seq<u8>>, j: nat, done: seq<Event>,
                   ghost chunks: seq<Chunk>, ghost all: seq<Event>)
    returns (out: seq<Event>, dropped: bool)
    requires decoder.Valid() && decoder.ready && j < |datas| && decoder.bytes == Concat(datas[..j])
    requires chunks == ChunksOf(decoder.process, decoder.web, datas)
    requires Owes(adapter.View(), decoder.firstResult, chunks[j..], done, all)
    modifies decoder, decoder.buffer, adapter
    ensures decoder.Valid() && decoder.ready && decoder.bytes == Concat(datas[..j + 1])
    ensures dropped ==> out == all
    ensures !dropped ==> Owes(adapter.View(), decoder.firstResult, chunks[j + 1..], out, all)
  {
    PrefixSnoc(datas, j);
    LaterStep(adapter.View(), decoder.firstResult, chunks, j, done, all);
    var events;
    events, dropped := ServeChunk(decoder, adapter, datas[j]);
    out := done + events;
  }

  /** The chunks from `k` on; the stream is dropped once the adapter is completed. */
  method ServeLater(decoder: StreamDecoder, adapter: Adapter, datas: seq<seq<u8>>, k: nat, done: seq<Event>,
                    ghost chunks: seq<Chunk>, ghost all: seq<Event>) returns (out: seq<Event>)
    requires decoder.Valid() && decoder.ready && k <= |datas| && decoder.bytes == Concat(datas[..k])
    requires chunks == ChunksOf(decoder.process, decoder.web, datas)
    requires Owes(adapter.View(), decoder.firstResult, chunks[k..], done, all)
    modifies decoder, decoder.buffer, adapter
    ensures out == all
    decreases |datas| - k
  {
    if k == |datas| {
      OwesNothing(adapter.View(), decoder.firstResult, chunks, k, done, all);
      return done;
    }
    var dropped;
    out, dropped := ServeTurn(decoder, adapter, datas, k, done, chunks, all);
    if !dropped {
      out := ServeLater(decoder, adapter, datas, k + 1, out, chunks, all);
    }
  }

  /** What the decoder holds after `k` chunks while the first result is awaited. */
  ghost predicate Collected(decoder: StreamDecoder, chunks: seq<Chunk>, k: nat)
    requires k <= |chunks|
    reads decoder
  {
    && decoder.firstResult == (if Received(chunks[..k]) == [] then None else Some(Received(chunks[..k])))
    && !decoder.taken
  }

  /** The loop that waits for the first result; `k` chunks are used up by it. */
  method AwaitFirst(decoder: StreamDecoder, datas: seq<seq<u8>>) returns (k: nat)
    requires decoder.Valid() && decoder.bytes == []
    requires decoder.firstResult == None && !decoder.ready && !decoder.taken && !decoder.seen
    modifies decoder, decoder.buffer
    ensures decoder.Valid() && k <= |datas| && decoder.bytes == Concat(datas[..k])
    ensures var chunks := ChunksOf(decoder.process, decoder.web, datas);
            && Collected(decoder, chunks, k)
            && (decoder.ready <==> FirstContent(chunks) < |chunks|)
            && (decoder.ready ==> k == FirstContent(chunks) + 1 && decoder.firstResult.Some?)
  {
    k := 0;
    ghost var chunks := ChunksOf(decoder.process, decoder.web, datas);
    assert chunks[..0] == [] && datas[..0] == [];
    while !decoder.ready && k < |datas|
      invariant k <= |datas| && decoder.Valid() && decoder.bytes == Concat(datas[..k]) && Collected(decoder, chunks, k)
      invariant decoder.ready ==> k == FirstContent(chunks) + 1 && decoder.firstResult.Some?
      invariant !decoder.ready ==> k <= FirstContent(chunks) && !decoder.seen
      decreases |datas| - k
    {
      NoneBefore(chunks, k);
      ReceivedSnoc(chunks, k);
      PrefixSnoc(datas, k);
      ContentCarried(decoder.process, decoder.web, Concat(datas[..k]), datas[k]);
      var _ := decoder.Decode(datas[k]);
      k := k + 1;
    }
  }

  /** The first phase: the first result is ready after exactly the first chunk that
      completes a message with something to show. */
  method ServeFirst(decoder: StreamDecoder, datas: seq<seq<u8>>) returns (k: nat)
    requires decoder.Valid() && decoder.bytes == []
    requires decoder.firstResult == None && !decoder.ready && !decoder.taken && !decoder.seen
    modifies decoder, decoder.buffer
    ensures decoder.Valid() && k <= |datas| && decoder.bytes == Concat(datas[..k])
    ensures Collected(decoder, ChunksOf(decoder.process, decoder.web, datas), k)
    ensures decoder.ready ==> k == FirstContent(ChunksOf(decoder.process, decoder.web, datas)) + 1 && decoder.firstResult.Some?
    ensures decoder.ready <==> FirstContent(ChunksOf(decoder.process, decoder.web, datas)) < |datas|
    ensures decoder.ready <==> !Silent(Decoded(decoder.process, [], Frames(Concat(datas))))
    ensures decoder.ready ==>
              forall j :: 0 <= j <= |datas| ==> (Silent(DecodedUpTo(decoder.process, datas, j)) <==> j < k)
  {
    k := AwaitFirst(decoder, datas);
    EverReady(decoder.process, decoder.web, datas);
    forall j | 0 <= j <= |datas|
      ensures decoder.ready ==> (Silent(DecodedUpTo(decoder.process, datas, j)) <==> j < k)
    {
      FirstContentIs(decoder.process, decoder.web, datas, j);
    }
  }

  lemma EverReady(f: Processor, web: bool, datas: seq<seq<u8>>)
    ensures FirstContent(ChunksOf(f, web, datas)) < |datas| <==> !Silent(Decoded(f, [], Frames(Concat(datas))))
  {
    FirstContentIs(f, web, datas, |datas|);
    assert datas[..|datas|] == datas;
  }

  lemma ContentCarried(f: Processor, web: bool, before: seq<u8>, data: seq<u8>)
    ensures var c := ChunkOf(f, web, before, data);
            c.Parsed? && c.content ==> Carried(c) != []
  {
    ContentIsShown(f, web, before, data);
  }

  /** The handler: read until the first result is ready, then pass chunks on.  None if
      the stream ends before any content, which the handler reports as an error. */
  method Serve(f: Processor, web: bool, datas: seq<seq<u8>>) returns (out: Option<seq<Event>>)
    ensures out == Outcome(ChunksOf(f, web, datas))
    ensures out.None? <==> Silent(Decoded(f, [], Frames(Concat(datas))))
  {
    var decoder := new StreamDecoder(f, web);
    var k := ServeFirst(decoder, datas);
    if !decoder.ready {
      return None;
    }
    var adapter := new Adapter();
    ghost var chunks := ChunksOf(f, web, datas);
    ghost var all := RunAll(Fresh, CallsOf(chunks)).1;
    OwesAll(chunks, all);
    var events := ServeLater(decoder, adapter, datas, k, [], chunks, all);
    return Some(events);
  }

  lemma OwesAll(chunks: seq<Chunk>, all: seq<Event>)
    requires FirstContent(chunks) < |chunks| && all == RunAll(Fresh, CallsOf(chunks)).1
    ensures Owes(Fresh, Some(Cached(chunks)), Later(chunks), [], all)
  {
    DueIsRun(Fresh, Some(Cached(chunks)), Later(chunks));
    assert [] + all == all;
  }

  /** The messages cached when the first result becomes ready. */
  function Cached(chunks: seq<Chunk>): seq<Message>
    requires FirstContent(chunks) < |chunks|
  {
    Received(chunks[..FirstContent(chunks) + 1])
  }

  function Later(chunks: seq<Chunk>): seq<Chunk>
    requires FirstContent(chunks) < |chunks|
  {
    chunks[FirstContent(chunks) + 1..]
  }

  /** All calls the handler makes. */
  function CallsOf(chunks: seq<Chunk>): seq<seq<Message>>
    requires FirstContent(chunks) < |chunks|
  {
    LaterCalls(Fresh, Some(Cached(chunks)), Later(chunks))
  }

  function Outcome(chunks: seq<Chunk>): Option<seq<Event>> {
    if FirstContent(chunks) == |chunks| then None else Some(RunAll(Fresh, CallsOf(chunks)).1)
  }
}
