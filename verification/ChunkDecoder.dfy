/** The stream decoder that turns network chunks into messages and holds the first of
    them back until there is content to show. */
module ChunkDecoder {
  import opened Wrappers
  import opened Sequences
  import opened GrpcFrames
  import opened StreamMessages
  import opened WebReferences
  import GrpcDecoder

  /** What one frame decodes to, given the frames before it that are not empty:
      `process_message` keeps a context across frames. */
  type Processor = (seq<RawMessage>, RawMessage) -> Option<Message>

  predicate AnyContent(m: Message) {
    match m
    case Content(text) => text != ""
    case Think(Text(text)) => text != ""
    case Think(Signature(signature)) => signature != ""
    case Tool(call) => call.input != ""
    case _ => false
  }

  predicate HasContent(messages: seq<Message>) {
    exists i :: 0 <= i < |messages| && AnyContent(messages[i])
  }

  // ----- web references as text

  function ShowAll(web: bool, messages: seq<Message>): (r: seq<Message>)
    ensures |r| == |messages| && forall i :: 0 <= i < |r| ==> r[i] == Shown(web, messages[i])
  {
    if messages == [] then [] else [Shown(web, messages[0])] + ShowAll(web, messages[1..])
  }

  lemma ShowConcat(web: bool, a: seq<Message>, b: seq<Message>)
    ensures ShowAll(web, a + b) == ShowAll(web, a) + ShowAll(web, b)
  {}

  // ----- frames to messages

  /** The frames that are not empty. */
  function Filled(frames: seq<RawMessage>): seq<RawMessage> {
    if frames == [] then [] else Filled(frames[..|frames| - 1]) + Fill(frames[|frames| - 1])
  }

  function Fill(m: RawMessage): seq<RawMessage> { if m.data == [] then [] else [m] }

  /** Empty frames are passed over, and the context never learns of them. */
  function Decode1(f: Processor, history: seq<RawMessage>, m: RawMessage): seq<Message> {
    if m.data == [] then [] else ToSeq(f(Filled(history), m))
  }

  function Decoded(f: Processor, history: seq<RawMessage>, frames: seq<RawMessage>): seq<Message>
    decreases |frames|
  {
    if frames == [] then []
    else Decode1(f, history, frames[0]) + Decoded(f, history + [frames[0]], frames[1..])
  }

  lemma DecodedHead(f: Processor, history: seq<RawMessage>, a: seq<RawMessage>, b: seq<RawMessage>)
    requires a != []
    ensures Decoded(f, history, a + b) == Decode1(f, history, a[0]) + Decoded(f, history + [a[0]], a[1..] + b)
  {
    assert (a + b)[1..] == a[1..] + b;
  }

  lemma {:induction false} DecodedConcat(f: Processor, history: seq<RawMessage>, a: seq<RawMessage>, b: seq<RawMessage>)
    ensures Decoded(f, history, a + b) == Decoded(f, history, a) + Decoded(f, history + a, b)
    decreases |a|
  {
    if a == [] {
      assert a + b == b && history + a == history;
    } else {
      var next := history + [a[0]];
      DecodedConcat(f, next, a[1..], b);
      DecodedHead(f, history, a, b);
      assert next + a[1..] == history + a;
      Assoc(Decode1(f, history, a[0]), Decoded(f, next, a[1..]), Decoded(f, history + a, b));
    }
  }

  lemma FilledSnoc(frames: seq<RawMessage>, m: RawMessage)
    ensures Filled(frames + [m]) == Filled(frames) + Fill(m)
  {
    assert (frames + [m])[..|frames|] == frames;
  }

  lemma {:induction false} FilledTwice(frames: seq<RawMessage>)
    ensures Filled(Filled(frames)) == Filled(frames)
    decreases |frames|
  {
    if frames == [] {
    } else {
      var init, last := frames[..|frames| - 1], frames[|frames| - 1];
      FilledTwice(init);
      if last.data == [] {
        assert Filled(frames) == Filled(init);
      } else {
        FilledSnoc(Filled(init), last);
      }
    }
  }

  /** A stream decodes as if its empty frames had never been sent. */
  lemma {:induction false} EmptyFramesIgnored(f: Processor, frames: seq<RawMessage>)
    ensures Decoded(f, [], frames) == Decoded(f, [], Filled(frames))
    decreases |frames|
  {
    if frames == [] {
    } else {
      var init, last := frames[..|frames| - 1], frames[|frames| - 1];
      assert frames == init + [last];
      EmptyFramesIgnored(f, init);
      LastFrame(f, init, last);
    }
  }

  lemma LastFrame(f: Processor, init: seq<RawMessage>, last: RawMessage)
    requires Decoded(f, [], init) == Decoded(f, [], Filled(init))
    ensures Decoded(f, [], init + [last]) == Decoded(f, [], Filled(init + [last]))
  {
    FilledSnoc(init, last);
    DecodedLast(f, init, last);
    if last.data == [] {
      assert Filled(init) + [] == Filled(init);
    } else {
      FilledTwice(init);
      DecodedLast(f, Filled(init), last);
    }
  }

  lemma DecodedLast(f: Processor, init: seq<RawMessage>, last: RawMessage)
    ensures Decoded(f, [], init + [last]) == Decoded(f, [], init) + Decode1(f, init, last)
  {
    DecodedSnoc(f, [], init, last);
    assert [] + init == init;
  }

  // ----- what one chunk amounts to

  /** Too few bytes to look at; or the messages to be shown, whether any message of the
      chunk has content, and whether the chunk ends where a frame ends. */
  datatype Chunk = Short | Parsed(messages: seq<Message>, content: bool, drained: bool)

  function ChunkOf(f: Processor, web: bool, before: seq<u8>, data: seq<u8>): Chunk {
    if data == [] || |Rest(before) + data| < 5 then Short
    else
      var messages := Decoded(f, Frames(before), Frames(Rest(before) + data));
      Parsed(ShowAll(web, messages), HasContent(messages), Rest(before + data) == [])
  }

  function ChunksOf(f: Processor, web: bool, datas: seq<seq<u8>>): (chunks: seq<Chunk>)
    ensures |chunks| == |datas|
    ensures forall k :: 0 <= k < |datas| ==> chunks[k] == ChunkOf(f, web, Concat(datas[..k]), datas[k])
  {
    seq(|datas|, k requires 0 <= k < |datas| => ChunkOf(f, web, Concat(datas[..k]), datas[k]))
  }

  function Carried(c: Chunk): seq<Message> {
    match c
    case Short => []
    case Parsed(messages, _, _) => messages
  }

  /** Every message of the stream, in the order received. */
  function Received(chunks: seq<Chunk>): seq<Message> {
    if chunks == [] then [] else Carried(chunks[0]) + Received(chunks[1..])
  }

  lemma {:induction false} ReceivedConcat(a: seq<Chunk>, b: seq<Chunk>)
    ensures Received(a + b) == Received(a) + Received(b)
    decreases |a|
  {
    if a == [] {
      assert a + b == b;
    } else {
      ReceivedConcat(a[1..], b);
      assert (a + b)[1..] == a[1..] + b;
      Assoc(Carried(a[0]), Received(a[1..]), Received(b));
    }
  }

  lemma ReceivedSnoc(chunks: seq<Chunk>, k: nat)
    requires k < |chunks|
    ensures Received(chunks[..k + 1]) == Received(chunks[..k]) + Carried(chunks[k])
    ensures Carried(chunks[k]) == [] ==> Received(chunks[..k + 1]) == Received(chunks[..k])
  {
    assert chunks[..k + 1] == chunks[..k] + [chunks[k]];
    ReceivedConcat(chunks[..k], [chunks[k]]);
    assert Received([chunks[k]]) == Carried(chunks[k]) + Received([]);
  }

  /** Content is content of some message that is shown. */
  lemma ContentIsShown(f: Processor, web: bool, before: seq<u8>, data: seq<u8>)
    ensures var c := ChunkOf(f, web, before, data);
            c.Parsed? && c.content ==> HasContent(c.messages)
  {
    var c := ChunkOf(f, web, before, data);
    if c.Parsed? && c.content {
      var messages := Decoded(f, Frames(before), Frames(Rest(before) + data));
      var i :| 0 <= i < |messages| && AnyContent(messages[i]);
      assert c.messages[i] == messages[i];
    }
  }

  lemma ShortHasNoFrame(s: seq<u8>)
    requires |s| < 5
    ensures Frames(s) == [] && Rest(s) == s
  {}

  /** A chunk is looked at exactly if it is not empty and five bytes are there that no
      earlier frame has used up. */
  lemma LookedAtExactly(f: Processor, web: bool, before: seq<u8>, data: seq<u8>)
    ensures ChunkOf(f, web, before, data).Parsed? <==>
            data != [] && |before| + |data| >= SumSizes(Frames(before)) + 5
  {
    Factors(before);
  }

  /** A chunk carries what its bytes complete, and leaves the unparsed rest. */
  lemma ChunkCarries(f: Processor, web: bool, before: seq<u8>, data: seq<u8>)
    ensures Frames(before + data) == Frames(before) + Frames(Rest(before) + data)
    ensures Rest(before + data) == Rest(Rest(before) + data)
    ensures Carried(ChunkOf(f, web, before, data)) == ShowAll(web, Decoded(f, Frames(before), Frames(Rest(before) + data)))
  {
    Cut(before, data);
    if data == [] {
      Factors(before);
      assert Rest(before) + data == Rest(before);
      assert Frames(Rest(before)) == [];
    } else if |Rest(before) + data| < 5 {
      ShortHasNoFrame(Rest(before) + data);
    }
  }

  lemma ReceivedStep(f: Processor, web: bool, before: seq<u8>, data: seq<u8>)
    ensures ShowAll(web, Decoded(f, [], Frames(before + data))) ==
            ShowAll(web, Decoded(f, [], Frames(before))) + Carried(ChunkOf(f, web, before, data))
  {
    ChunkCarries(f, web, before, data);
    var older, newer := Frames(before), Frames(Rest(before) + data);
    DecodedConcat(f, [], older, newer);
    assert [] + older == older;
    ShowConcat(web, Decoded(f, [], older), Decoded(f, older, newer));
  }

  lemma {:induction false} ReceivedUpTo(f: Processor, web: bool, datas: seq<seq<u8>>, k: nat)
    requires k <= |datas|
    ensures Received(ChunksOf(f, web, datas)[..k]) == ShowAll(web, Decoded(f, [], Frames(Concat(datas[..k]))))
    decreases k
  {
    var chunks := ChunksOf(f, web, datas);
    if k == 0 {
      assert chunks[..0] == [] && datas[..0] == [];
    } else {
      ReceivedUpTo(f, web, datas, k - 1);
      ReceivedSnoc(chunks, k - 1);
      PrefixSnoc(datas, k - 1);
      ReceivedStep(f, web, Concat(datas[..k - 1]), datas[k - 1]);
    }
  }

  lemma PrefixSnoc(datas: seq<seq<u8>>, k: nat)
    requires k < |datas|
    ensures Concat(datas[..k + 1]) == Concat(datas[..k]) + datas[k]
  {
    assert datas[..k + 1] == datas[..k] + [datas[k]];
    ConcatSnoc(datas[..k], datas[k]);
  }

  /** However the stream is cut, the messages received are those of its frames. */
  lemma ReceivedIsDecoded(f: Processor, web: bool, datas: seq<seq<u8>>)
    ensures Received(ChunksOf(f, web, datas)) == ShowAll(web, Decoded(f, [], Frames(Concat(datas))))
  {
    ReceivedUpTo(f, web, datas, |datas|);
    assert datas[..|datas|] == datas;
    assert ChunksOf(f, web, datas)[..|datas|] == ChunksOf(f, web, datas);
  }

  /** The chunks that empty the buffer are the non-empty ones that end where a frame of
      the whole stream ends. */
  lemma DrainedIsBoundary(f: Processor, web: bool, datas: seq<seq<u8>>, k: nat)
    requires k < |datas|
    ensures var c := ChunksOf(f, web, datas)[k];
            c.Parsed? && c.drained <==> datas[k] != [] && Rest(Concat(datas[..k + 1])) == []
  {
    var before, data := Concat(datas[..k]), datas[k];
    PrefixSnoc(datas, k);
    ChunkCarries(f, web, before, data);
    if data != [] && |Rest(before) + data| < 5 {
      ShortHasNoFrame(Rest(before) + data);
      assert |Rest(before + data)| > 0;
    }
  }

  // ----- the decoder

  lemma {:induction false} AcceptedAll(frames: seq<RawMessage>, f: RawMessage -> Option<RawMessage>)
    requires forall m :: f(m) == Some(m)
    ensures Accepted(f, frames) == frames
    decreases |frames|
  {
    if frames == [] {
    } else {
      AcceptedAll(frames[1..], f);
    }
  }

  /** The frames the iterator yields, taken out of the buffer. */
  method TakeFrames(buffer: GrpcDecoder.Buffer) returns (frames: seq<RawMessage>)
    requires buffer.Valid()
    modifies buffer
    ensures buffer.Valid() && frames == Frames(old(buffer.Unread())) && buffer.Unread() == Rest(old(buffer.Unread()))
  {
    var iter := new GrpcDecoder.MessageIter(buffer.Unread());
    assert iter.buffer[0..] == iter.buffer;
    var whole := (m: RawMessage) => Some(m);
    frames := iter.Drain(whole);
    AcceptedAll(Frames(iter.buffer), whole);
    buffer.AdvanceUnchecked(iter.offset);
  }

  class StreamDecoder {
    const process: Processor
    const web: bool
    const buffer: GrpcDecoder.Buffer
    /** The frames the context of `process_message` may depend on. */
    var history: seq<RawMessage>
    var firstResult: Option<seq<Message>>
    var ready: bool
    var taken: bool
    var seen: bool
    ghost var bytes: seq<u8>

    ghost predicate Valid()
      reads this, buffer
    {
      && buffer.Valid() && buffer.Unread() == Rest(bytes) && history == Frames(bytes)
      && (ready ==> taken || firstResult.Some?)
    }

    constructor (f: Processor, convertWebRef: bool)
      ensures Valid() && fresh(buffer) && process == f && web == convertWebRef && bytes == []
      ensures firstResult == None && !ready && !taken && !seen
    {
      process, web := f, convertWebRef;
      buffer := new GrpcDecoder.Buffer();
      history, bytes := [], [];
      firstResult, ready, taken, seen := None, false, false, false;
    }

    /** `no_first_cache`. */
    constructor NoFirstCache(f: Processor, convertWebRef: bool)
      ensures Valid() && fresh(buffer) && process == f && web == convertWebRef && bytes == []
      ensures firstResult == None && ready && taken && !seen
    {
      process, web := f, convertWebRef;
      buffer := new GrpcDecoder.Buffer();
      history, bytes := [], [];
      firstResult, ready, taken, seen := None, true, true, false;
    }

    /** One frame: an empty one is passed over, a message is noted and shown. */
    method Convert1(frame: RawMessage) returns (shown: seq<Message>)
      modifies this`history, this`seen
      ensures shown == ShowAll(web, Decode1(process, old(history), frame))
      ensures history == old(history) + [frame]
      ensures seen == (old(seen) || HasContent(Decode1(process, old(history), frame)))
    {
      shown := [];
      if frame.data != [] {
        var result := process(Filled(history), frame);
        if result.Some? {
          if !seen && AnyContent(result.value) {
            seen := true;
          }
          assert HasContent([result.value]) <==> AnyContent([result.value][0]);
          shown := [Shown(web, result.value)];
        }
      }
      history := history + [frame];
    }

    /** The loop over the frames of a chunk. */
    method Convert(frames: seq<RawMessage>) returns (messages: seq<Message>)
      modifies this`history, this`seen
      ensures messages == ShowAll(web, Decoded(process, old(history), frames))
      ensures history == old(history) + frames
      ensures seen == (old(seen) || HasContent(Decoded(process, old(history), frames)))
    {
      messages := [];
      ghost var before, was := history, seen;
      for i := 0 to |frames|
        invariant history == before + frames[..i]
        invariant Converted(process, web, before, frames[..i], messages, was, seen)
      {
        ghost var h, done, saw := history, messages, seen;
        var shown := Convert1(frames[i]);
        ConvertedStep(process, web, before, frames, i, done, was, saw, shown, seen);
        messages := messages + shown;
      }
      assert frames[..|frames|] == frames;
    }

    /** The first part of `decode`: buffer the bytes, take out the complete frames and
        convert them.  Nothing is looked at while fewer than five bytes are there. */
    method Parse(data: seq<u8>) returns (messages: Option<seq<Message>>)
      requires Valid()
      modifies this`history, this`seen, this`bytes, buffer
      ensures Valid() && bytes == old(bytes) + data
      ensures var c := ChunkOf(process, web, old(bytes), data);
              && (messages.Some? <==> c.Parsed?)
              && (c.Parsed? ==> messages.value == c.messages)
              && seen == (old(seen) || (c.Parsed? && c.content))
    {
      ChunkCarries(process, web, bytes, data);
      ghost var before := bytes;
      bytes := bytes + data;
      if data == [] {
        assert bytes == before;
        return None;
      }
      buffer.ExtendFromSlice(data);
      var len := buffer.Len();
      if len < 5 {
        ShortHasNoFrame(Rest(before) + data);
        return None;
      }
      var frames := TakeFrames(buffer);
      var converted := Convert(frames);
      return Some(converted);
    }

    /** The second part of `decode`: until the first result is complete messages go into
        the cache, afterwards to the caller. */
    method Cache(received: seq<Message>) returns (messages: seq<Message>)
      requires ready ==> taken || firstResult.Some?
      modifies this`firstResult, this`ready
      ensures old(ready) ==> ready && messages == received && firstResult == old(firstResult)
      ensures !old(ready) && !taken ==>
                && messages == []
                && firstResult == (if received == [] then old(firstResult)
                                   else Some(OrEmpty(old(firstResult)) + received))
                && ready == (firstResult.Some? && seen)
    {
      messages := received;
      if !taken && messages != [] {
        if firstResult.None? {
          firstResult := Some([] + messages);
          messages := [];
        } else if !ready {
          firstResult := Some(firstResult.value + messages);
          messages := [];
        }
      }
      if !ready {
        ready := firstResult.Some? && !taken && seen;
      }
    }

    /** `decode`. */
    method Decode(data: seq<u8>) returns (r: Result<seq<Message>, ()>)
      requires Valid() && (taken ==> ready)
      modifies this, buffer
      ensures Valid() && bytes == old(bytes) + data && taken == old(taken)
      ensures var c := ChunkOf(process, web, old(bytes), data);
              && (r.Ok? <==> c.Parsed?)
              && seen == (old(seen) || (c.Parsed? && c.content))
              && (c.Short? ==> firstResult == old(firstResult) && ready == old(ready))
              && (c.Parsed? && old(ready) ==> ready && r.value == c.messages && firstResult == old(firstResult))
              && (c.Parsed? && !old(ready) ==>
                    && r.value == []
                    && firstResult == (if c.messages == [] then old(firstResult)
                                       else Some(OrEmpty(old(firstResult)) + c.messages))
                    && ready == (firstResult.Some? && seen))
    {
      var parsed := Parse(data);
      if parsed.None? {
        return Err(());
      }
      var messages := Cache(parsed.value);
      return Ok(messages);
    }

    /** `take_first_result`: nothing while bytes of an incomplete frame are buffered. */
    method TakeFirstResult() returns (r: Option<seq<Message>>)
      requires Valid()
      modifies this`firstResult, this`taken
      ensures Valid()
      ensures Rest(bytes) != [] ==> r == None && firstResult == old(firstResult) && taken == old(taken)
      ensures Rest(bytes) == [] ==> r == old(firstResult) && firstResult == None && taken == (old(taken) || r.Some?)
    {
      var len := buffer.Len();
      if len != 0 {
        return None;
      }
      if firstResult.Some? {
        taken := true;
      }
      r := firstResult;
      firstResult := None;
    }
  }

  function OrEmpty(o: Option<seq<Message>>): seq<Message> {
    match o case Some(messages) => messages case None => []
  }

  /** The messages made of the frames in `done`, and whether content was seen by then. */
  ghost predicate Converted(f: Processor, web: bool, before: seq<RawMessage>, done: seq<RawMessage>,
                            messages: seq<Message>, was: bool, seen: bool)
  {
    var originals := Decoded(f, before, done);
    messages == ShowAll(web, originals) && seen == (was || HasContent(originals))
  }

  lemma ConvertedStep(f: Processor, web: bool, before: seq<RawMessage>, frames: seq<RawMessage>, i: nat,
                      messages: seq<Message>, was: bool, saw: bool, shown: seq<Message>, seen: bool)
    requires i < |frames| && Converted(f, web, before, frames[..i], messages, was, saw)
    requires var next := Decode1(f, before + frames[..i], frames[i]);
             shown == ShowAll(web, next) && seen == (saw || HasContent(next))
    ensures before + frames[..i + 1] == before + frames[..i] + [frames[i]]
    ensures Converted(f, web, before, frames[..i + 1], messages + shown, was, seen)
  {
    var a, b := Decoded(f, before, frames[..i]), Decode1(f, before + frames[..i], frames[i]);
    DecodedSnoc(f, before, frames[..i], frames[i]);
    assert frames[..i + 1] == frames[..i] + [frames[i]];
    ShowConcat(web, a, b);
    ContentConcat(a, b);
  }

  lemma DecodedSnoc(f: Processor, history: seq<RawMessage>, frames: seq<RawMessage>, last: RawMessage)
    ensures Decoded(f, history, frames + [last]) == Decoded(f, history, frames) + Decode1(f, history + frames, last)
  {
    DecodedConcat(f, history, frames, [last]);
    assert Decoded(f, history + frames, [last]) == Decode1(f, history + frames, last) + [];
  }

  lemma ContentConcat(a: seq<Message>, b: seq<Message>)
    ensures HasContent(a + b) <==> HasContent(a) || HasContent(b)
  {
    if HasContent(a) {
      var i :| 0 <= i < |a| && AnyContent(a[i]);
      assert AnyContent((a + b)[i]);
    }
    if HasContent(b) {
      var i :| 0 <= i < |b| && AnyContent(b[i]);
      assert AnyContent((a + b)[|a| + i]);
    }
    if HasContent(a + b) {
      var i :| 0 <= i < |a + b| && AnyContent((a + b)[i]);
      assert if i < |a| then AnyContent(a[i]) else AnyContent(b[i - |a|]);
    }
  }
}
