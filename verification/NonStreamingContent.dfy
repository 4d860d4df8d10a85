/** What the non-streaming branch returns, stated over the positions of the messages and
    without reference to the fold that computes it. */
module NonStreamingContent {
  import opened Wrappers
  import opened Sequences
  import opened StreamMessages
  import opened AnthropicStream
  import opened AnthropicProtocol
  import opened AnthropicContent

  // ----- which tool messages complete a block

  function InputOf(m: Message): string { if m.Tool? then m.call.input else "" }

  /** The tool input sent from position `a` up to position `b`. */
  function Inputs(messages: seq<Message>, a: nat, b: nat): string
    decreases b
  {
    if b <= a || b > |messages| then "" else Inputs(messages, a, b - 1) + InputOf(messages[b - 1])
  }

  /** Message `i` is the last of its call, and the input sent since the last block of this
      chunk, its own included, is valid. */
  predicate Completes(valid: string -> bool, messages: seq<Message>, i: nat)
    requires i < |messages|
    decreases i, 1
  {
    messages[i].Tool? && messages[i].call.isLast && valid(Inputs(messages, Since(valid, messages, i), i + 1))
  }

  /** The position after the last message before `i` that completes a block. */
  function Since(valid: string -> bool, messages: seq<Message>, i: nat): (a: nat)
    requires i <= |messages|
    ensures a <= i
    decreases i, 0
  {
    if i == 0 then 0 else if Completes(valid, messages, i - 1) then i else Since(valid, messages, i - 1)
  }

  /** The positions, below `n`, of the messages that complete a block. */
  function Completing(valid: string -> bool, messages: seq<Message>, n: nat): seq<nat>
    requires n <= |messages|
  {
    if n == 0 then []
    else Completing(valid, messages, n - 1) + (if Completes(valid, messages, n - 1) then [n - 1] else [])
  }

  /** Exactly those positions, in increasing order. */
  lemma {:induction false} CompletingIs(valid: string -> bool, messages: seq<Message>, n: nat, k: nat)
    requires n <= |messages| && k < |Completing(valid, messages, n)|
    ensures var ps := Completing(valid, messages, n);
            ps[k] < n && Completes(valid, messages, ps[k]) && (k > 0 ==> ps[k - 1] < ps[k])
    decreases n
  {
    var ps := Completing(valid, messages, n - 1);
    if k < |ps| {
      CompletingIs(valid, messages, n - 1, k);
    } else if k > 0 {
      CompletingIs(valid, messages, n - 1, k - 1);
    }
  }

  lemma {:induction false} CompletingAll(valid: string -> bool, messages: seq<Message>, n: nat, i: nat)
    requires i < n <= |messages| && Completes(valid, messages, i)
    ensures i in Completing(valid, messages, n)
    decreases n
  {
    if i == n - 1 {
      var ps := Completing(valid, messages, i);
      assert (ps + [i])[|ps|] == i;
    } else {
      CompletingAll(valid, messages, n - 1, i);
    }
  }

  // ----- what is in the content

  function Tools(blocks: seq<Block>): (r: seq<Block>)
    ensures forall k :: 0 <= k < |r| ==> r[k].ToolContent?
  {
    if blocks == [] then []
    else Tools(blocks[..|blocks| - 1]) + (if Last(blocks).ToolContent? then [Last(blocks)] else [])
  }

  function Redacted(blocks: seq<Block>): seq<string> {
    if blocks == [] then []
    else Redacted(blocks[..|blocks| - 1]) + (if Last(blocks).RedactedContent? then [Last(blocks).data] else [])
  }

  lemma ObserveSnoc(blocks: seq<Block>, b: Block)
    ensures Tools(blocks + [b]) == Tools(blocks) + (if b.ToolContent? then [b] else [])
    ensures Redacted(blocks + [b]) == Redacted(blocks) + (if b.RedactedContent? then [b.data] else [])
  {
    assert (blocks + [b])[..|blocks|] == blocks;
  }

  lemma ObserveReplace(blocks: seq<Block>, b: Block)
    requires blocks != [] && BlockKind(b) == BlockKind(Last(blocks)) && (b.TextContent? || b.ThinkingContent?)
    ensures Tools(ReplaceLast(blocks, b)) == Tools(blocks) && Redacted(ReplaceLast(blocks, b)) == Redacted(blocks)
  {
    ObserveSnoc(blocks[..|blocks| - 1], b);
  }

  // ----- one message

  function RedactedIn(m: Message): seq<string> {
    if m.Think? && m.thinking.RedactedThinking? then [m.thinking.data] else []
  }

  /** Text and thinking change neither tool blocks nor redacted blocks. */
  lemma PlainObserved(valid: string -> bool, content: seq<Block>, json: string, m: Message)
    requires m.Content? || (m.Think? && !m.thinking.RedactedThinking?)
    ensures var (after, rest) := Collect(valid, content, json, m);
            Tools(after) == Tools(content) && Redacted(after) == Redacted(content) && rest == json
  {
    var after := Collect(valid, content, json, m).0;
    if |after| > |content| {
      ObserveSnoc(content, Last(after));
    } else {
      ObserveReplace(content, Last(after));
    }
  }

  lemma RedactedObserved(valid: string -> bool, content: seq<Block>, json: string, data: string)
    ensures var (after, rest) := Collect(valid, content, json, Think(RedactedThinking(data)));
            Tools(after) == Tools(content) && Redacted(after) == Redacted(content) + [data] && rest == json
  {
    ObserveSnoc(content, RedactedContent(data));
  }

  lemma ToolObserved(valid: string -> bool, content: seq<Block>, json: string, call: ToolCall)
    ensures var (after, rest) := Collect(valid, content, json, Tool(call));
            && Redacted(after) == Redacted(content)
            && if call.isLast && valid(json + call.input)
               then Tools(after) == Tools(content) + [ToolContent(call.id, call.name, json + call.input)] && rest == ""
               else Tools(after) == Tools(content) && rest == json + call.input
  {
    ObserveSnoc(content, ToolContent(call.id, call.name, json + call.input));
  }

  /** What one message adds to the tool blocks. */
  function ToolIn(valid: string -> bool, json: string, m: Message): seq<Block> {
    if m.Tool? && m.call.isLast && valid(json + m.call.input)
    then [ToolContent(m.call.id, m.call.name, json + m.call.input)]
    else []
  }

  /** Tool blocks and redacted blocks after one message, and the input kept for later. */
  lemma MessageObserved(valid: string -> bool, content: seq<Block>, json: string, m: Message)
    ensures var (after, rest) := Collect(valid, content, json, m);
            && Tools(after) == Tools(content) + ToolIn(valid, json, m)
            && Redacted(after) == Redacted(content) + RedactedIn(m)
            && rest == if ToolIn(valid, json, m) == [] then json + InputOf(m) else ""
  {
    assert json + "" == json;
    match m
    case Think(RedactedThinking(data)) => RedactedObserved(valid, content, json, data);
    case Tool(call) => ToolObserved(valid, content, json, call);
    case StreamEnd =>
    case WebReference(_) =>
    case _ => PlainObserved(valid, content, json, m);
  }

  /** Tool calls and redacted thinking leave all blocks before them as they were. */
  lemma ToolsOnlyAppend(valid: string -> bool, content: seq<Block>, json: string, m: Message)
    requires m.Tool? || m.StreamEnd? || m.WebReference? || (m.Think? && m.thinking.RedactedThinking?)
    ensures var after := Collect(valid, content, json, m).0;
            content <= after && |after| <= |content| + 1
  {}

  // ----- one chunk

  /** The block of a completing message. */
  function CompletedBy(valid: string -> bool, messages: seq<Message>, i: nat): seq<Block>
    requires i < |messages|
  {
    if Completes(valid, messages, i)
    then [ToolContent(messages[i].call.id, messages[i].call.name, Inputs(messages, Since(valid, messages, i), i + 1))]
    else []
  }

  function Completed(valid: string -> bool, messages: seq<Message>, n: nat): seq<Block>
    requires n <= |messages|
  {
    if n == 0 then [] else Completed(valid, messages, n - 1) + CompletedBy(valid, messages, n - 1)
  }

  function RedactedSent(messages: seq<Message>, n: nat): seq<string>
    requires n <= |messages|
  {
    if n == 0 then [] else RedactedSent(messages, n - 1) + RedactedIn(messages[n - 1])
  }

  /** With the input since the last block kept, a message adds what it completes. */
  lemma ToolInIs(valid: string -> bool, messages: seq<Message>, i: nat, json: string)
    requires i < |messages| && json == Inputs(messages, Since(valid, messages, i), i)
    ensures ToolIn(valid, json, messages[i]) == CompletedBy(valid, messages, i)
    ensures (if ToolIn(valid, json, messages[i]) == [] then json + InputOf(messages[i]) else "") ==
            Inputs(messages, Since(valid, messages, i + 1), i + 1)
  {
    assert Inputs(messages, Since(valid, messages, i), i + 1) == json + InputOf(messages[i]);
  }

  /** Content and kept input are those of the first `i` messages. */
  ghost predicate Observed(valid: string -> bool, before: seq<Block>, messages: seq<Message>, i: nat,
                           content: seq<Block>, json: string)
    requires i <= |messages|
  {
    && json == Inputs(messages, Since(valid, messages, i), i)
    && Tools(content) == Tools(before) + Completed(valid, messages, i)
    && Redacted(content) == Redacted(before) + RedactedSent(messages, i)
  }

  lemma ObservedStep(valid: string -> bool, before: seq<Block>, messages: seq<Message>, i: nat,
                     content: seq<Block>, json: string)
    requires i < |messages| && Observed(valid, before, messages, i, content, json)
    ensures var (after, rest) := Collect(valid, content, json, messages[i]);
            Observed(valid, before, messages, i + 1, after, rest)
  {
    MessageObserved(valid, content, json, messages[i]);
    ToolInIs(valid, messages, i, json);
    Assoc(Redacted(before), RedactedSent(messages, i), RedactedIn(messages[i]));
    Assoc(Tools(before), Completed(valid, messages, i), CompletedBy(valid, messages, i));
  }

  lemma {:induction false} ObservedToEnd(valid: string -> bool, before: seq<Block>, messages: seq<Message>, i: nat,
                                         content: seq<Block>, json: string) returns (rest: string)
    requires i <= |messages| && Observed(valid, before, messages, i, content, json)
    ensures Observed(valid, before, messages, |messages|, CollectChunk(valid, content, json, messages[i..]), rest)
    decreases |messages| - i
  {
    if i == |messages| {
      rest := json;
    } else {
      var (after, kept) := Collect(valid, content, json, messages[i]);
      ObservedStep(valid, before, messages, i, content, json);
      rest := ObservedToEnd(valid, before, messages, i + 1, after, kept);
      assert messages[i..][1..] == messages[i + 1..];
    }
  }

  lemma ChunkObserved(valid: string -> bool, before: seq<Block>, messages: seq<Message>)
    ensures var content := CollectChunk(valid, before, "", messages);
            && Tools(content) == Tools(before) + Completed(valid, messages, |messages|)
            && Redacted(content) == Redacted(before) + RedactedSent(messages, |messages|)
  {
    assert messages[0..] == messages;
    var rest := ObservedToEnd(valid, before, messages, 0, before, "");
  }

  // ----- the whole response

  function CompletedAll(valid: string -> bool, chunks: seq<seq<Message>>): seq<Block> {
    if chunks == [] then []
    else Completed(valid, chunks[0], |chunks[0]|) + CompletedAll(valid, chunks[1..])
  }

  function RedactedAll(chunks: seq<seq<Message>>): seq<string> {
    if chunks == [] then [] else RedactedSent(chunks[0], |chunks[0]|) + RedactedAll(chunks[1..])
  }

  lemma {:induction false} AllObserved(valid: string -> bool, before: seq<Block>, chunks: seq<seq<Message>>)
    ensures var content := CollectAll(valid, before, chunks);
            && Tools(content) == Tools(before) + CompletedAll(valid, chunks)
            && Redacted(content) == Redacted(before) + RedactedAll(chunks)
    decreases |chunks|
  {
    if chunks == [] {
    } else {
      ChunkObserved(valid, before, chunks[0]);
      AllObserved(valid, CollectChunk(valid, before, "", chunks[0]), chunks[1..]);
      Assoc(Tools(before), Completed(valid, chunks[0], |chunks[0]|), CompletedAll(valid, chunks[1..]));
      Assoc(Redacted(before), RedactedSent(chunks[0], |chunks[0]|), RedactedAll(chunks[1..]));
    }
  }

  /** A tool block with id and name of message `i` and the input sent from `a` to there. */
  predicate MadeOf(b: Block, messages: seq<Message>, a: nat, i: nat) {
    && b.ToolContent? && i < |messages| && messages[i].Tool?
    && b.id == messages[i].call.id && b.name == messages[i].call.name && b.input == Inputs(messages, a, i + 1)
  }

  /** Where the input of the k-th block starts: after the completing message before. */
  function StartsAt(ps: seq<nat>, k: nat): nat
    requires k <= |ps|
  {
    if k == 0 then 0 else ps[k - 1] + 1
  }

  lemma StartKept(ps: seq<nat>, more: seq<nat>, k: nat)
    requires k <= |ps|
    ensures StartsAt(ps + more, k) == StartsAt(ps, k)
  {}

  lemma LastMade(valid: string -> bool, messages: seq<Message>, i: nat)
    requires i < |messages| && Completes(valid, messages, i)
    ensures |CompletedBy(valid, messages, i)| == 1
    ensures var ps := Completing(valid, messages, i);
            MadeOf(CompletedBy(valid, messages, i)[0], messages, StartsAt(ps, |ps|), i)
  {
    SinceIsLast(valid, messages, i);
  }

  /** The tool blocks of one chunk, position by position: the k-th one has id and name of
      the k-th completing message and all tool input sent since the one before. */
  lemma {:induction false} CompletedAt(valid: string -> bool, messages: seq<Message>, n: nat, k: nat)
    requires n <= |messages| && k < |Completing(valid, messages, n)|
    ensures var ps, blocks := Completing(valid, messages, n), Completed(valid, messages, n);
            |blocks| == |ps| && MadeOf(blocks[k], messages, StartsAt(ps, k), ps[k])
    decreases n
  {
    SameCount(valid, messages, n);
    SameCount(valid, messages, n - 1);
    var ps := Completing(valid, messages, n - 1);
    StartKept(ps, if Completes(valid, messages, n - 1) then [n - 1] else [], k);
    if k < |ps| {
      CompletedAt(valid, messages, n - 1, k);
    } else {
      LastMade(valid, messages, n - 1);
    }
  }

  lemma {:induction false} SameCount(valid: string -> bool, messages: seq<Message>, n: nat)
    requires n <= |messages|
    ensures |Completing(valid, messages, n)| == |Completed(valid, messages, n)|
    decreases n
  {
    if n == 0 {
    } else {
      SameCount(valid, messages, n - 1);
    }
  }

  lemma {:induction false} SinceIsLast(valid: string -> bool, messages: seq<Message>, i: nat)
    requires i <= |messages|
    ensures var ps := Completing(valid, messages, i);
            Since(valid, messages, i) == if ps == [] then 0 else ps[|ps| - 1] + 1
    decreases i
  {
    if i == 0 {
    } else {
      SinceIsLast(valid, messages, i - 1);
    }
  }

  /** For every response: the tool blocks are, chunk by chunk and in order, those of the
      completing messages, and the redacted blocks are the redacted data sent. */
  lemma ToolBlocksExactly(valid: string -> bool, chunks: seq<seq<Message>>)
    ensures Tools(CollectAll(valid, [], chunks)) == CompletedAll(valid, chunks)
    ensures Redacted(CollectAll(valid, [], chunks)) == RedactedAll(chunks)
  {
    AllObserved(valid, [], chunks);
  }

  // ----- text and thinking

  /** Everything of one kind in a chunk, whether or not it comes after a `StreamEnd`. */
  function SentIn(messages: seq<Message>, kind: Kind): string {
    if messages == [] then "" else Sent(messages[0], kind) + SentIn(messages[1..], kind)
  }

  lemma TextConserves(valid: string -> bool, content: seq<Block>, json: string, text: string, kind: Kind)
    ensures PayloadAll(Collect(valid, content, json, Content(text)).0, kind) ==
            PayloadAll(content, kind) + Sent(Content(text), kind)
  {
    if content != [] && Last(content).TextContent? {
      PayloadReplace(content, TextContent(Last(content).text + text), Sent(Content(text), kind), kind);
    } else {
      PayloadSnoc(content, TextContent(text), kind);
    }
  }

  lemma ThinkConserves(valid: string -> bool, content: seq<Block>, json: string, t: Thinking, kind: Kind)
    requires !t.RedactedThinking?
    ensures PayloadAll(Collect(valid, content, json, Think(t)).0, kind) == PayloadAll(content, kind) + Sent(Think(t), kind)
  {
    var after := Collect(valid, content, json, Think(t)).0;
    if content != [] && Last(content).ThinkingContent? {
      var b := Last(content);
      var b1 := if t.Text? then b.(thinking := b.thinking + t.text) else b.(signature := Some(t.signature));
      assert after == ReplaceLast(content, b1);
      assert Payload(b, kind) + "" == Payload(b, kind);
      PayloadReplace(content, b1, Sent(Think(t), kind), kind);
    } else {
      PayloadSnoc(content, Last(after), kind);
    }
  }

  lemma MessageConserves(valid: string -> bool, content: seq<Block>, json: string, m: Message, kind: Kind)
    requires kind != ToolBlock
    ensures PayloadAll(Collect(valid, content, json, m).0, kind) == PayloadAll(content, kind) + Sent(m, kind)
  {
    if m.Content? {
      TextConserves(valid, content, json, m.text, kind);
    } else if m.Think? && !m.thinking.RedactedThinking? {
      ThinkConserves(valid, content, json, m.thinking, kind);
    } else {
      var after := Collect(valid, content, json, m).0;
      assert PayloadAll(content, kind) + "" == PayloadAll(content, kind);
      if |after| > |content| { PayloadSnoc(content, Last(after), kind); }
    }
  }

  lemma {:induction false} ChunkConserves(valid: string -> bool, content: seq<Block>, json: string,
                                          messages: seq<Message>, kind: Kind)
    requires kind != ToolBlock
    ensures PayloadAll(CollectChunk(valid, content, json, messages), kind) ==
            PayloadAll(content, kind) + SentIn(messages, kind)
    decreases |messages|
  {
    if messages == [] {
    } else {
      var (after, rest) := Collect(valid, content, json, messages[0]);
      MessageConserves(valid, content, json, messages[0], kind);
      ChunkConserves(valid, after, rest, messages[1..], kind);
      Assoc(PayloadAll(content, kind), Sent(messages[0], kind), SentIn(messages[1..], kind));
    }
  }

  function SentInAll(chunks: seq<seq<Message>>, kind: Kind): string {
    if chunks == [] then "" else SentIn(chunks[0], kind) + SentInAll(chunks[1..], kind)
  }

  /** Text and thinking of the response are, in order, all text and thinking sent, tool
      calls and redacted thinking in between or not. */
  lemma {:induction false} ResponseConserves(valid: string -> bool, before: seq<Block>, chunks: seq<seq<Message>>, kind: Kind)
    requires kind != ToolBlock
    ensures PayloadAll(CollectAll(valid, before, chunks), kind) == PayloadAll(before, kind) + SentInAll(chunks, kind)
    decreases |chunks|
  {
    if chunks == [] {
    } else {
      ChunkConserves(valid, before, "", chunks[0], kind);
      ResponseConserves(valid, CollectChunk(valid, before, "", chunks[0]), chunks[1..], kind);
      Assoc(PayloadAll(before, kind), SentIn(chunks[0], kind), SentInAll(chunks[1..], kind));
    }
  }

  // ----- the branch as written

  /** The non-streaming branch as written, growing one vector over all chunks. */
  method NonStreaming(valid: string -> bool, chunks: seq<seq<Message>>) returns (content: seq<Block>)
    ensures content == CollectAll(valid, [], chunks)
    ensures Tools(content) == CompletedAll(valid, chunks) && Redacted(content) == RedactedAll(chunks)
  {
    content := [];
    assert chunks[0..] == chunks;
    for i := 0 to |chunks|
      invariant CollectAll(valid, [], chunks) == CollectAll(valid, content, chunks[i..])
    {
      assert chunks[i..][1..] == chunks[i + 1..];
      content := NonStreamingChunk(valid, content, chunks[i]);
    }
    ToolBlocksExactly(valid, chunks);
  }

  method NonStreamingChunk(valid: string -> bool, before: seq<Block>, messages: seq<Message>) returns (content: seq<Block>)
    ensures content == CollectChunk(valid, before, "", messages)
    ensures Tools(content) == Tools(before) + Completed(valid, messages, |messages|)
    ensures Redacted(content) == Redacted(before) + RedactedSent(messages, |messages|)
  {
    content := before;
    var inputJson := "";
    assert messages[0..] == messages;
    for i := 0 to |messages|
      invariant CollectChunk(valid, before, "", messages) == CollectChunk(valid, content, inputJson, messages[i..])
    {
      assert messages[i..][1..] == messages[i + 1..];
      match messages[i] {
        case Think(Text(text)) =>
          if content != [] && Last(content).ThinkingContent? {
            content := ReplaceLast(content, Last(content).(thinking := Last(content).thinking + text));
          } else {
            content := content + [ThinkingContent(text, None)];
          }
        case Think(Signature(signature)) =>
          if content != [] && Last(content).ThinkingContent? {
            content := ReplaceLast(content, Last(content).(signature := Some(signature)));
          } else {
            content := content + [ThinkingContent("", Some(signature))];
          }
        case Think(RedactedThinking(data)) => content := content + [RedactedContent(data)];
        case Content(text) =>
          if content != [] && Last(content).TextContent? {
            content := ReplaceLast(content, TextContent(Last(content).text + text));
          } else {
            content := content + [TextContent(text)];
          }
        case Tool(call) =>
          inputJson := inputJson + call.input;
          if call.isLast && valid(inputJson) {
            content := content + [ToolContent(call.id, call.name, inputJson)];
            inputJson := "";
          }
        case _ =>
      }
    }
    ChunkObserved(valid, before, messages);
  }
}
