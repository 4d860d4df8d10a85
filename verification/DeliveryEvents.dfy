/** What the order of delivery means for the client's events, and streams on which the
    first-result cache changes the order or loses messages. */
module DeliveryEvents {
  import opened Wrappers
  import opened Sequences
  import opened Ranges
  import opened GrpcFrames
  import opened StreamMessages
  import opened AnthropicStream
  import opened AnthropicProtocol
  import opened ChunkDecoder
  import opened FirstResult
  import opened DeliveryOrder

  /** Calls one after the other emit what one call on all messages emits, and possibly
      more after the end of the stream. */
  lemma {:induction false} RunAllExtends(c: Context, calls: seq<seq<Message>>) returns (more: seq<Event>)
    requires c.stream != Completed
    ensures RunAll(c, calls).1 == Process(c, Concat(calls)).1 + more
    decreases |calls|
  {
    if calls == [] {
      more := [];
    } else {
      var (c1, e1) := Process(c, calls[0]);
      ProcessConcat(c, calls[0], Concat(calls[1..]));
      if c1.stream == Completed {
        more := RunAll(c1, calls[1..]).1;
        assert e1 + [] == e1;
      } else {
        more := RunAllExtends(c1, calls[1..]);
        Assoc(e1, Process(c1, Concat(calls[1..])).1, more);
      }
    }
  }

  /** What follows the end of the stream in a call is not looked at. */
  lemma ProcessUpToEnd(messages: seq<Message>)
    ensures Process(Fresh, messages).1 == Process(Fresh, messages[..SentCount(messages)]).1
  {
    var sent, rest := messages[..SentCount(messages)], messages[SentCount(messages)..];
    SentEnds(messages);
    if rest == [] {
      assert sent == messages;
    } else {
      ProcessCompletes(Fresh, sent);
      ProcessConcat(Fresh, sent, rest);
      assert messages == sent + rest;
    }
  }

  lemma PickPrefix(s: seq<Message>, n: nat, extra: seq<nat>)
    requires n <= |s|
    ensures Pick(s, Range(0, n) + extra) == s[..n] + Pick(s, extra)
  {
    PickConcat(s, Range(0, n), extra);
    PickRange(s, 0, n);
  }

  lemma Begins(received: seq<Message>, extra: seq<nat>, calls: seq<seq<Message>>) returns (more: seq<Event>)
    requires Concat(calls) == Pick(received, Range(0, SentCount(received)) + extra)
    ensures RunAll(Fresh, calls).1 == Process(Fresh, received).1 + more
  {
    var n := SentCount(received);
    PickPrefix(received, n, extra);
    var after := RunAllExtends(Fresh, calls);
    var tail := ProcessExtends(received[..n], Pick(received, extra));
    ProcessUpToEnd(received);
    Assoc(Process(Fresh, received).1, tail, after);
    more := tail + after;
  }

  lemma Remainder(n: nat, positions: seq<nat>) returns (extra: seq<nat>)
    requires Range(0, n) <= positions
    ensures positions == Range(0, n) + extra
  {
    extra := positions[|Range(0, n)|..];
  }

  /** Delivered in order, the client's events begin with the events of one call of the
      adapter on everything received. */
  lemma EventsInOrder(chunks: seq<Chunk>) returns (more: seq<Event>)
    requires Answers(chunks) && InOrder(chunks)
    ensures Outcome(chunks).Some? && Outcome(chunks).value == Process(Fresh, Received(chunks)).1 + more
  {
    CallsArePositions(chunks);
    var extra := Remainder(SentCount(Received(chunks)), Handed(chunks));
    more := Begins(Received(chunks), extra, CallsOf(chunks));
  }

  lemma ProcessExtends(a: seq<Message>, b: seq<Message>) returns (more: seq<Event>)
    ensures Process(Fresh, a + b).1 == Process(Fresh, a).1 + more
  {
    ProcessConcat(Fresh, a, b);
    more := if Process(Fresh, a).0.stream == Completed then [] else Process(Process(Fresh, a).0, b).1;
  }

  // ----- streams on which the cache gets in the way

  /** If the next chunk after the first result ends at a frame boundary, everything
      arrives in order. */
  lemma PromptDelivery(chunks: seq<Chunk>)
    requires Answers(chunks) && Later(chunks) != [] && DrainedAt(Later(chunks), 0)
    ensures InOrder(chunks) && NothingLost(chunks)
  {
    assert FirstDrained(Later(chunks)) == 0 && Later(chunks)[..0] == [];
    InOrderExactly(chunks);
    NothingLostExactly(chunks);
  }

  lemma TwoChunks(c1: Chunk, c2: Chunk)
    ensures [c1, c2][1..] == [c2] && [c2][1..] == []
  {}

  /** A frame cut across chunks lets the second message overtake the first one. */
  lemma Overtaken(a: Message, b: Message)
    requires AnyContent(a) && b != StreamEnd
    ensures var chunks := [Parsed([a], true, true), Parsed([b], AnyContent(b), false), Parsed([], false, true)];
            Answers(chunks) && CallsOf(chunks) == [[b], [a], []]
  {
    var c0, c1, c2 := Parsed([a], true, true), Parsed([b], AnyContent(b), false), Parsed([], false, true);
    CachedOne(c0, c1, c2);
    TwoChunks(c1, c2);
    OneCall(Fresh, [b]);
    ProcessCompletes(Fresh, [b]);
    var c := RunAll(Fresh, [[b]]).0;
    assert LaterCalls(c, Some([a]), [c2]) == [[a], []];
    assert LaterCalls(Fresh, Some([a]), [c1, c2]) == [[b]] + [[a], []];
  }

  lemma CachedOne(c0: Chunk, c1: Chunk, c2: Chunk)
    requires c0.Parsed? && c0.content && c0.messages != []
    ensures var chunks := [c0, c1, c2];
            Answers(chunks) && Cached(chunks) == c0.messages && Later(chunks) == [c1, c2]
  {
    var chunks := [c0, c1, c2];
    assert FirstContent(chunks) == 0 && chunks[..1] == [c0];
    assert Received([c0]) == c0.messages + Received([]);
  }

  /** If the message that overtakes is the end of the stream, the stream is dropped and
      the first message never reaches the adapter. */
  lemma EndOvertakes(a: Message)
    requires AnyContent(a)
    ensures var chunks := [Parsed([a], true, true), Parsed([StreamEnd], false, false), Parsed([], false, true)];
            Answers(chunks) && CallsOf(chunks) == [[StreamEnd]]
  {
    var c0, c1, c2 := Parsed([a], true, true), Parsed([StreamEnd], false, false), Parsed([], false, true);
    CachedOne(c0, c1, c2);
    OneCall(Fresh, [StreamEnd]);
    ProcessCompletes(Fresh, [StreamEnd]);
    assert LaterCalls(Fresh, Some([a]), [c1, c2]) == [[StreamEnd]];
  }

  /** A stream that arrives in one chunk is never passed on. */
  lemma OneChunkLost(messages: seq<Message>, drained: bool)
    requires HasContent(messages)
    ensures var chunks := [Parsed(messages, true, drained)];
            Answers(chunks) && CallsOf(chunks) == []
  {
    var chunks := [Parsed(messages, true, drained)];
    assert FirstContent(chunks) == 0 && chunks[1..] == [];
  }

  // ----- without the cache

  /** As the non-streaming branch uses the decoder: every message is handed over when it
      is decoded. */
  method ServeUncached(f: Processor, web: bool, datas: seq<seq<u8>>) returns (out: seq<Message>)
    ensures out == ShowAll(web, Decoded(f, [], Frames(Concat(datas))))
  {
    var decoder := new StreamDecoder.NoFirstCache(f, web);
    ghost var chunks := ChunksOf(f, web, datas);
    out := [];
    assert datas[..0] == [] && chunks[..0] == [];
    for k := 0 to |datas|
      invariant decoder.Valid() && decoder.ready && decoder.taken && fresh(decoder) && fresh(decoder.buffer)
      invariant decoder.bytes == Concat(datas[..k]) && out == Received(chunks[..k])
    {
      ReceivedSnoc(chunks, k);
      PrefixSnoc(datas, k);
      var messages := decoder.Decode(datas[k]);
      if messages.Ok? {
        out := out + messages.value;
      }
    }
    assert chunks[..|datas|] == chunks;
    ReceivedIsDecoded(f, web, datas);
  }
}
