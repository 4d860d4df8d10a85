# Verified models of cursor-api

This project models the parts of cursor-api in which correctness hangs on an
argument rather than on a line of code, and proves that argument in Dafny 4.11.
`dafny verify dfyconfig.toml` checks all of it.

What is modelled, file by file:

- **The interned string pool** (`InternPool.dfy`, `InternPoolInvariant.dfy`,
  `InternPoolTheorems.dfy`, `Interned.dfy`). A state machine over the atomic steps of
  any number of threads inside `new`, `clone` and `drop`: lookups under an entry lock,
  one read-modify-write of a count, one allocation, one deallocation. Freed addresses
  may be handed out again at once. One inductive invariant is kept by all fifteen steps
  and gives memory safety, single frees, interning, absence of leaks and of deadlock,
  and a refinement of a plain counter per string. The class `ArcStrPool` performs whole
  operations and ends in states the machine reaches.
- **UTF-8 validation** (`Ascii.dfy`, `Utf8.dfy`). The word-at-a-time ASCII scan on
  64-bit vectors, the 384-entry mask table, the wrapping range tests, the four nested
  loops and the tail loop, proved against the grammar of section 4 of RFC 3629.
- **The gRPC frame decoder** (`GrpcFrames.dfy`, `GrpcDecoder.dfy`). Length-Prefixed-Message
  frames, the buffer with its cursor, the exact-size iterator and `decode`, proved
  independent of how the bytes were cut into chunks.
- **The stream adapters** (`StreamMessages.dfy`, `AnthropicStream.dfy`,
  `AnthropicProtocol.dfy`, `AnthropicContent.dfy`, `AnthropicDeltas.dfy`,
  `NonStreamingContent.dfy`, `OpenAiStream.dfy`). The two `process_messages` state
  machines, a client that checks the event stream, a client that assembles content from
  it, and the non-streaming branches.
- **The first-result cache** (`WebReferences.dfy`, `ChunkDecoder.dfy`, `FirstResult.dfy`, `Ranges.dfy`,
  `DeliveryOrder.dfy`, `DeliveryEvents.dfy`). The stream decoder from bytes to messages
  with its cache, the two phases of the handler and the drop of the stream at its end:
  exactly when everything sent before the end arrives, and exactly when in order.
- **Tool calls in a row** (`ToolFiling.dfy`). Under which call a client of either stream
  files the pieces of input it receives.
- **Time arithmetic** (`IntMath.dfy`, `TimeDeltas.dfy`, `Rounding.dfy`, `Calendar.dfy`).
  Rust's truncating division, `TimeDelta`, rounding to a span and the closed-form
  Gregorian day count.
- **Fixed-length base 62** (`Base62.dfy`, `Base62Order.dfy`). The 128-bit division by
  multiplication with a reciprocal, the codec of 22 digits built on it and the order of
  its texts.
- **Versions** (`Version.dfy`, `VersionErrors.dfy`). Printer, parser, a grammar stated
  without reference to either, and which error each refused text gets.
- **The model index** (`ModelIndex.dfy`, `ModelListing.dfy`, `ModelLookup.dfy`,
  `EarlyReturn.dfy`, `LeakIds.dfy`). Updates in three fetch modes, the lookup table, the list of offered
  ids, the early return and the pool of leaked id texts.
- **Command-line phrases** (`Words.dfy`, `Phrases.dfy`, `CommandLine.dfy`,
  `DocumentedCommands.dfy`). Arguments, words, tokens, ordered patterns, the documented
  phrases and the actions they mean.

Machine integers are unbounded in Dafny, so every width that matters is written out:
`usize` counts wrap, `u32` block indices wrap, `i64` and `u128` intermediates carry their
range as a type. Rust's `/` and `%` are `Quot` and `Rem`.

Where the code and what one would expect of it part ways, the model follows the code, a
lemma gives the exact condition and another one an input:

- A stream that opens with a tool call gets no `message_start` and no `ping`
  (`AnthropicProtocol.Greetings`, `AnthropicProtocol.ToolFirst`).
- The streamed OpenAI text and the non-streaming text differ when two leading newlines
  arrive in different messages or after a tool call (`OpenAiStream.TextsAgree`,
  `OpenAiStream.TextsDiffer`).
- Tool calls in a row share the block of the first one, whatever their ids
  (`ToolFiling.AnthropicExactly`, `ToolFiling.OpenAiExactly`,
  `ToolFiling.SecondMisfiled`).
- Messages decoded after the first result overtake it while a frame is cut across
  chunks (`DeliveryOrder.InOrderBytes`, `DeliveryEvents.Overtaken`). If the end of the
  stream overtakes it, or the response arrives in one chunk, the first result is never
  passed on (`DeliveryOrder.NothingLostBytes`, `DeliveryEvents.EndOvertakes`,
  `DeliveryEvents.OneChunkLost`).
- Removing the model "x" takes "x-max" off the list of ids even if that is a model of
  its own, and a model that gains its max mode under an unchanged id is not listed with
  it (`ModelListing.CompleteExactly`, `ModelListing.SiblingDropped`,
  `ModelListing.GainedMaxUnlisted`).
- A response with unchanged names is ignored even if it brings new capabilities or the
  fetch mode has changed (`EarlyReturn.EarlyReturnExactly`,
  `EarlyReturn.CapabilitiesExactly`, `EarlyReturn.CapabilityIgnored`,
  `EarlyReturn.ModeChangeIgnored`).
- `leak_ids::intern` doubles the suffix of an id that ends in "-online" unless the rest
  of it is pooled (`LeakIds.InternExactly`, `LeakIds.Misfiled`).
- `checked_mul` may return a delta outside the documented range
  (`TimeDeltas.MulInRangeExactly`, `TimeDeltas.MulLeavesRange`).
- `checked_div` may miss the quotient by a nanosecond even if the division is exact,
  because seconds and nanoseconds are divided separately (`TimeDeltas.DivisionExactly`,
  `TimeDeltas.DivisionFallsShort`).

## Model

| member | source | states |
|---|---|---|
| `InternPoolInvariant.StepKeeps` | crates/interned/src/arc_str.rs:129-351 | every one of the fifteen atomic steps, taken by any thread in any state that satisfies the invariant, leads to a state that satisfies it |
| `InternPoolInvariant.RunKeeps` | crates/interned/src/arc_str.rs:129-351 | the invariant holds at the end of every interleaving of steps |
| `InternPoolInvariant.ReachableInv` | crates/interned/src/arc_str.rs:129-351 | the invariant holds in every state reachable from the empty pool |
| `InternPoolTheorems.MemorySafe` | crates/interned/src/arc_str.rs:129-189 | in every reachable state no freed address was touched, each live handle points to an allocated cell still in the table, and the count of each entry is its number of live handles |
| `InternPoolTheorems.FreesOnce` | crates/interned/src/arc_str.rs:319-351 | a deallocation hits an allocated cell with no handle and no table entry, and no other thread is about to free it |
| `InternPoolTheorems.Interned` | crates/interned/src/arc_str.rs:374 | two live handles are the same pointer if and only if their contents are equal |
| `InternPoolTheorems.NothingForgotten` | crates/interned/src/arc_str.rs:319-351 | an entry without handles has an unfinished drop with its address and hash, and a cell outside the table has a thread about to insert or free it |
| `InternPoolTheorems.Drained` | crates/interned/src/arc_str.rs:319-351 | once all handles are dropped and all operations are over, the table, the heap and the locks are empty |
| `InternPoolTheorems.NeverStuck` | crates/interned/src/arc_str.rs:151-187 | a thread inside an operation can take a step, or waits for a lock whose holder can |
| `InternPoolTheorems.StepRefinesCounter` | crates/interned/src/arc_str.rs:826-854 | each step of each interleaving changes the number of live values of each string by exactly what the operation means for that string |
| `InternPoolTheorems.AbortsExactly` | crates/interned/src/arc_str.rs:826-835 | in every reachable state a step aborts if and only if it adds a handle to a string that already has 2^63 or more |
| `InternPoolTheorems.OrdinaryUseNeverAborts` | crates/interned/src/arc_str.rs:826-835 | no interleaving of up to 2^63 steps from the empty pool aborts |
| `Interned.EqualityIsContent` | crates/interned/src/str.rs:791-856 | in every reachable state equality of `Str`, pointer comparison included, is equality of content for all four pairs of variants |
| `Interned.EqualityIsLawful` | crates/interned/src/str.rs:791-884 | that equality is an equivalence, equal values hash alike, and the hash is that of the content |
| `Interned.RevivalHappens` | crates/interned/src/arc_str.rs:267-282 | for every string a state is reachable in which a lookup has taken hold of it between the last decrement and the re-check |
| `Interned.RevivalSurvives` | crates/interned/src/arc_str.rs:319-351 | in every reachable state a drop that finds its string revived leaves cells, entries and handles as they are and only ends itself |
| `Interned.NewHitRuns` | crates/interned/src/arc_str.rs:129-150 | finding an interned string is a run of the machine that ends with one more handle |
| `Interned.NewMissRuns` | crates/interned/src/arc_str.rs:151-189 | missing twice, allocating and inserting is a run that ends with a new entry of count one |
| `Interned.DropSharedRuns` | crates/interned/src/arc_str.rs:319-324 | dropping one of several handles is a run that ends with the count one lower |
| `Interned.DropLastRuns` | crates/interned/src/arc_str.rs:319-351 | dropping the last handle is a run that ends without the entry and without the cell |
| `Interned.ArcStrPool.constructor` | crates/interned/src/arc_str.rs:1034 | a new pool is the machine's initial state |
| `Interned.ArcStrPool.Find` | crates/interned/src/arc_str.rs:267-282 | the lookup returns an entry with this hash and content, or there is none |
| `Interned.ArcStrPool.IncStrong` | crates/interned/src/arc_str.rs:826-835 | the overflow abort happens exactly if the count was 2^63 or more; otherwise the count goes up by one and the caller owns a handle, and nothing else changes |
| `Interned.ArcStrPool.New` | crates/interned/src/arc_str.rs:129-189 | it aborts exactly if the string is interned with 2^63 handles or more; otherwise the result has the content asked for and one more handle, is the existing entry if there is one and a fresh cell with count one if not, and the pool stays in a reachable state |
| `Interned.ArcStrPool.Clone` | crates/interned/src/arc_str.rs:296-300 | it aborts exactly at 2^63 handles or more; otherwise one more handle for the same cell, same entries, same cells, still a reachable state |
| `Interned.ArcStrPool.Drop` | crates/interned/src/arc_str.rs:319-351 | one handle fewer; entry and cell go exactly with the last handle; still a reachable state |
| `Ascii.MaskFindsByte` | crates/byte_str/src/utf8/ascii.rs:243-272 | the masked word is zero exactly if its eight bytes are ASCII, and otherwise its trailing zeros divided by eight are the position of the first other byte |
| `Ascii.FindNonAscii` | crates/byte_str/src/utf8/ascii.rs:243-284 | the position of the first non-ASCII byte of two words, or none |
| `Ascii.ValidateAscii` | crates/byte_str/src/utf8/ascii.rs:286-334 | the first non-ASCII byte and its index, or none if there is no such byte, for every slice at every address |
| `Utf8.CharUnique` | crates/byte_str/src/utf8.rs:71-231 | no character of RFC 3629 is a prefix of another one |
| `Utf8.PrefixWellFormed` | crates/byte_str/src/utf8.rs:71-231 | what is read character by character is well-formed |
| `Utf8.PrefixMaximal` | crates/byte_str/src/utf8.rs:71-231 | no well-formed stretch reaches further than reading character by character |
| `Utf8.RangeTests` | crates/byte_str/src/utf8.rs:234 | the wrapping-subtract test is the inclusive range test for the three ranges used |
| `Utf8.Masks3` | crates/byte_str/src/utf8.rs:45-67 | the table entries combined with the top bits of the next bytes pass the test exactly for three-byte characters, surrogates and overlong forms excluded |
| `Utf8.Masks4` | crates/byte_str/src/utf8.rs:45-67 | the same for four-byte characters up to U+10FFFF |
| `Utf8.StopsAtLongest` | crates/byte_str/src/utf8.rs:71-231 | where reading stops is the longest well-formed prefix, and no well-formed stretch starts there |
| `Utf8.ScanAscii` | crates/byte_str/src/utf8.rs:74-85 | skipping ASCII does not change where the longest prefix ends |
| `Utf8.ScanTail` | crates/byte_str/src/utf8.rs:176-227 | the tail loop over the last three bytes or fewer stops where the longest prefix ends |
| `Utf8.Utf8ValidUpTo` | crates/byte_str/src/utf8.rs:71-231 | the result is the length of the longest prefix that is well-formed under section 4 of RFC 3629 |
| `Utf8.LongestIsStop` | crates/byte_str/src/utf8.rs:240-280 | the longest prefix is unique, is everything exactly for well-formed input, and what follows it is never valid |
| `Utf8.IsValidUtf8` | crates/byte_str/src/utf8.rs:237 | true exactly for well-formed input |
| `Utf8.FromUtf8` | crates/byte_str/src/utf8.rs:240-280 | the library's check accepts exactly the well-formed strings; on others it reports the length of the longest well-formed prefix and the length of the error that follows it |
| `Utf8.ValidateUtf8` | crates/byte_str/src/utf8.rs:240-280 | the fast validator reports what the library reports on the whole input: the longest well-formed prefix and the length of the error after it; its unreachable branch is never taken |
| `GrpcFrames.ToBe` | crates/grpc-stream/src/buffer.rs:75-102 | four bytes that read back as the number |
| `GrpcFrames.BeRoundTrip` | crates/grpc-stream/src/buffer.rs:75-102 | reading a length and writing it gives the same four bytes |
| `GrpcFrames.WireFormat` | crates/grpc-stream/src/buffer.rs:75-102 | of a type byte, four length bytes with the most significant first and a rest, a frame is read exactly if the rest is as long as that length says, with that much data |
| `GrpcFrames.Factors` | crates/grpc-stream/src/buffer.rs:75-133 | every byte string is the encoding of its frames followed by a rest without a complete frame, and sizes add up |
| `GrpcFrames.DecodesEncoded` | crates/grpc-stream/src/frame.rs:30-53 | decoding any encoded list, followed by an incomplete frame, returns the list and that remainder |
| `GrpcFrames.Cut` | crates/grpc-stream/src/decoder.rs:80-96 | decoding a part and then its remainder with the rest is decoding everything at once |
| `GrpcDecoder.Buffer.constructor` | crates/grpc-stream/src/buffer.rs:14 | a new buffer has nothing to read |
| `GrpcDecoder.Buffer.Len` | crates/grpc-stream/src/buffer.rs:22 | the unchecked subtraction is the number of unread bytes |
| `GrpcDecoder.Buffer.TryReclaim` | crates/grpc-stream/src/buffer.rs:38-46 | the unread bytes stay, and a fully read buffer is emptied |
| `GrpcDecoder.Buffer.ExtendFromSlice` | crates/grpc-stream/src/buffer.rs:28-31 | exactly the new bytes are appended to the unread ones |
| `GrpcDecoder.Buffer.AdvanceUnchecked` | crates/grpc-stream/src/buffer.rs:34-36 | exactly the given number of unread bytes is dropped and the cursor stays in bounds |
| `GrpcDecoder.MessageIter.constructor` | crates/grpc-stream/src/buffer.rs:144 | iteration starts at the first byte |
| `GrpcDecoder.MessageIter.Next` | crates/grpc-stream/src/buffer.rs:75-102 | yields the complete frame at the offset and steps over it, and stays put once there is none |
| `GrpcDecoder.MessageIter.Len` | crates/grpc-stream/src/buffer.rs:112-133 | the count of headers is the number of frames still to be yielded |
| `GrpcDecoder.MessageIter.Drain` | crates/grpc-stream/src/decoder.rs:84-92 | everything still to be yielded, filtered in order, and the offset ends where the complete frames end |
| `GrpcDecoder.StreamDecoder.constructor` | crates/grpc-stream/src/decoder.rs:53 | nothing is pending at first |
| `GrpcDecoder.StreamDecoder.Decode` | crates/grpc-stream/src/decoder.rs:80-96 | delivers exactly the frames that are complete by now, in order, and keeps exactly the unparsed rest |
| `GrpcDecoder.DecodeChunks` | crates/grpc-stream/src/decoder.rs:80-96 | for every way of cutting a stream the results together are those of one call on the whole, and the bytes left over hold no frame |
| `GrpcDecoder.EncodedStreamDecodes` | crates/grpc-stream/src/decoder.rs:80-96 | encoded frames come back exactly, in any chunking, and nothing is left |
| `AnthropicStream.Adapter.constructor` | src/core/service.rs:1305-1314 | the atomics start at not started, nothing, zero |
| `AnthropicStream.Adapter.HandleThinking` | src/core/service.rs:1349-1422 | events and new state are those of the step function for a thinking message |
| `AnthropicStream.Adapter.HandleContent` | src/core/service.rs:1423-1478 | events and new state are those of the step function for a text message |
| `AnthropicStream.Adapter.HandleTool` | src/core/service.rs:1479-1527 | events and new state are those of the step function for a tool call |
| `AnthropicStream.Adapter.HandleEnd` | src/core/service.rs:1528-1546 | events and new state are those of the step function for the end of the stream |
| `AnthropicStream.Adapter.ProcessMessages` | src/core/service.rs:1341-1569 | the loop with its early exit computes the fold of the step function |
| `AnthropicProtocol.CallsAreOneCall` | src/core/service.rs:1629-1704 | any grouping of the messages into calls yields the events and the state of one call |
| `AnthropicProtocol.StepLegal` | src/core/service.rs:1341-1569 | every message keeps the client's view legal and in agreement with the atomics |
| `AnthropicProtocol.StreamIsLegal` | src/core/service.rs:1341-1569 | for every message sequence and grouping: one open block at most, every delta and stop names the open block and fits its kind, nothing is open after the end |
| `AnthropicProtocol.LegalMeans` | src/core/service.rs:1341-1569 | in a legal stream the k-th block start carries index k modulo 2^32, and all are counted |
| `AnthropicProtocol.GreetingsSeen` | src/core/service.rs:1349-1478 | in a legal stream the greetings a client has seen are exactly those sent |
| `AnthropicProtocol.Greetings` | src/core/service.rs:1349-1527 | exactly one `message_start` and one `ping` if the first block is thinking or text, none at all otherwise |
| `AnthropicProtocol.GreetingFirst` | src/core/service.rs:1349-1478 | the stream then opens with `message_start`, the start of block 0 and `ping` |
| `AnthropicProtocol.ToolFirst` | src/core/service.rs:1479-1527 | all events of a stream of a tool call and a text: no greeting among them |
| `NonStreamingContent.NonStreaming` | src/core/service.rs:1773-1861 | the in-place vector over all chunks is the fold over chunks; its tool blocks are those of the completing messages and its redacted blocks the redacted data sent |
| `NonStreamingContent.NonStreamingChunk` | src/core/service.rs:1784-1861 | one chunk appends, in place, exactly the tool blocks of its completing messages and its redacted data, and is the fold over its messages |
| `NonStreamingContent.CompletingIs` | src/core/service.rs:1837-1850 | each completing message of a chunk is the last of its call and makes the input gathered since the one before valid JSON, and they are in order |
| `NonStreamingContent.CompletingAll` | src/core/service.rs:1837-1850 | no such message is missed |
| `NonStreamingContent.CompletedAt` | src/core/service.rs:1837-1850 | the k-th tool block of a chunk has id and name of its k-th completing message and all tool input sent since the one before |
| `NonStreamingContent.ToolBlocksExactly` | src/core/service.rs:1773-1861 | for every response the tool blocks are, chunk by chunk and in order, those of the completing messages, and the redacted blocks are the redacted data sent |
| `NonStreamingContent.ToolsOnlyAppend` | src/core/service.rs:1820-1861 | tool calls and redacted thinking leave all blocks before them as they were |
| `NonStreamingContent.ResponseConserves` | src/core/service.rs:1784-1861 | text and thinking of the response are, in order, all text and thinking sent, whatever comes in between |
| `AnthropicContent.StepAgrees` | src/core/service.rs:1349-1478 | one plain message changes the client's assembled blocks exactly as it changes the non-streaming content |
| `AnthropicContent.StreamingMatchesNonStreaming` | src/core/service.rs:1784-1836 | for text, thinking text and signatures, folding the streamed events gives the content blocks of the non-streaming branch |
| `AnthropicContent.StreamConserves` | src/core/service.rs:1341-1569 | whatever the messages, text, thinking and tool input assembled by the client are, in order, what was sent before the end |
| `AnthropicContent.ToolsAreAnnounced` | src/core/service.rs:1479-1527 | for every message sequence and grouping the client is told id and name of exactly the tool calls that open a block, in order |
| `AnthropicDeltas.DeltasExactly` | src/core/service.rs:1349-1527 | for every message sequence and grouping the client receives exactly the deltas due, in order: text, thinking, signatures and tool input of what was sent, none for redacted thinking |
| `OpenAiStream.Adapter.constructor` | src/core/service.rs:473-482 | the atomics start at not started, nothing, zero |
| `OpenAiStream.Adapter.Handle` | src/core/service.rs:520-640 | chunks and new state are those of the step function |
| `OpenAiStream.Adapter.ProcessMessages` | src/core/service.rs:511-660 | the loop with its early exit computes the fold of the step function |
| `OpenAiStream.CallsAreOneCall` | src/core/service.rs:753-797 | any grouping of the messages into calls yields the chunks of one call |
| `OpenAiStream.StepLegal` | src/core/service.rs:511-660 | every message keeps the client's view legal and in agreement with the atomics |
| `OpenAiStream.StreamIsLegal` | src/core/service.rs:511-660 | for every message sequence and grouping the chunks obey the rules on roles and tool indices |
| `OpenAiStream.RoleOnFirst` | src/core/service.rs:522-558 | the role is on the first chunk and on no other |
| `OpenAiStream.ArgumentsFollowStart` | src/core/service.rs:559-627 | every partial-arguments chunk carries the index of the latest start before it |
| `OpenAiStream.StartsCountUp` | src/core/service.rs:559-627 | the k-th start chunk carries index k, or k + 1 when text came first, modulo 2^32 |
| `OpenAiStream.ToolsConserved` | src/core/service.rs:559-627 | for every message sequence and grouping the start chunks name exactly the tool calls that open one, and the partial arguments together are the input of all tool calls |
| `OpenAiStream.NonStreamingText` | src/core/service.rs:909-958 | the non-streaming text is the trimmed concatenation of all text messages |
| `OpenAiStream.PassesThrough` | src/core/service.rs:522-558 | once started the adapter passes text on unchanged |
| `OpenAiStream.Streams` | src/core/service.rs:522-558 | the streamed text is the full text with the first piece trimmed if it is the first thing emitted |
| `OpenAiStream.TextsAgree` | src/common/utils.rs:214-243 | streamed and non-streaming text are equal if and only if the text does not start with two newlines or the first thing emitted is a piece that does |
| `OpenAiStream.TextsDiffer` | src/common/utils.rs:214-243 | two messages of one newline each on which they differ |
| `ChunkDecoder.ReceivedIsDecoded` | src/core/stream/decoder.rs:228-311 | however the bytes are cut, the messages received are those of the frames of the whole stream, in order |
| `WebReferences.ShownLineByLine` | src/core/stream/decoder.rs:70-105 | web references become text with a heading and, line by line and numbered from one, title and address of each, followed by an empty line |
| `ChunkDecoder.LookedAtExactly` | src/core/stream/decoder.rs:228-258 | a chunk is parsed if and only if it is not empty and, with what is left over, at least five bytes long |
| `ChunkDecoder.EmptyFramesIgnored` | src/core/stream/decoder.rs:260-263 | frames without data change nothing about the messages decoded |
| `ChunkDecoder.DrainedIsBoundary` | src/core/stream/decoder.rs:192-195 | the chunks that empty the buffer are exactly the non-empty ones that end where a frame of the stream ends |
| `ChunkDecoder.ContentIsShown` | src/core/stream/decoder.rs:107-117 | content seen by the decoder is content of a message it shows |
| `ChunkDecoder.StreamDecoder.constructor` | src/core/stream/decoder.rs:153-172 | nothing received, no first result, none ready, none taken |
| `ChunkDecoder.StreamDecoder.NoFirstCache` | src/core/stream/decoder.rs:222-226 | ready and taken from the start |
| `ChunkDecoder.StreamDecoder.Convert` | src/core/stream/decoder.rs:260-309 | the loop over the frames shows exactly the messages they decode to, given all frames before, and notes whether any has content |
| `ChunkDecoder.StreamDecoder.Parse` | src/core/stream/decoder.rs:228-311 | nothing is looked at below five bytes; otherwise exactly the frames completed by now are taken out of the buffer and converted |
| `ChunkDecoder.StreamDecoder.Cache` | src/core/stream/decoder.rs:313-326 | before the first result is ready everything goes into the cache in order, afterwards everything goes to the caller |
| `ChunkDecoder.StreamDecoder.Decode` | src/core/stream/decoder.rs:228-327 | both parts together, for the bytes received so far |
| `ChunkDecoder.StreamDecoder.TakeFirstResult` | src/core/stream/decoder.rs:192-200 | hands the cache out once, and not while bytes of an incomplete frame are buffered |
| `FirstResult.ServeFirst` | src/core/service.rs:1575-1623 | the first result is ready if and only if the whole stream has a message with text, thinking, tool input or a signature, after exactly the first chunk that completes one, and everything received up to there is cached |
| `FirstResult.FirstContentIs` | src/core/stream/decoder.rs:107-117 | the first chunk with content is the first one that completes a message with text, thinking, tool input or a signature |
| `FirstResult.AwaitFirst` | src/core/service.rs:1575-1623 | the waiting loop stops after the first chunk with content, or has read everything |
| `FirstResult.ServeChunk` | src/core/service.rs:1638-1703 | the calls made for one later chunk, their events, what is left in the cache, and that the stream is dropped exactly if the adapter is then completed |
| `FirstResult.ServeLater` | src/core/service.rs:1629-1704 | the events of all calls up to the chunk after which the stream is dropped |
| `FirstResult.Serve` | src/core/service.rs:1571-1704 | both phases together emit the events of the declared calls, and no content is reported exactly if no message of the whole stream has text, thinking, tool input or a signature |
| `DeliveryOrder.ReadsFacts` | src/core/service.rs:1698-1700 | no chunk but the last one read carries the end of the stream, and reading stops early only once the end was handed over |
| `DeliveryOrder.CallsArePositions` | src/core/service.rs:1629-1704 | the adapter is handed exactly the received messages at the stated positions, in that order |
| `DeliveryOrder.HandedWithin` | src/core/service.rs:1629-1704 | those positions are positions of received messages |
| `DeliveryOrder.NeverTwice` | src/core/service.rs:1629-1704 | no message is handed over twice |
| `DeliveryOrder.NothingLostExactly` | src/core/service.rs:1571-1704 | everything sent up to the end of the stream is handed over if and only if a later chunk empties the buffer and the end does not arrive before that chunk |
| `DeliveryOrder.InOrderExactly` | src/core/service.rs:1571-1704 | it is handed over first and in order if and only if a later chunk empties the buffer and no message arrives between the first result and that chunk |
| `DeliveryOrder.NothingLostBytes` | src/core/service.rs:1571-1704 | the same as a condition on the bytes: some later chunk ends at a frame boundary and the end of the stream does not arrive before it |
| `DeliveryOrder.InOrderBytes` | src/core/service.rs:1571-1704 | the same as a condition on the bytes: some later chunk ends at a frame boundary and no message arrives before it |
| `DeliveryEvents.EventsInOrder` | src/core/service.rs:1571-1704 | delivered in order, the client's events begin with those of one call of the adapter on everything received |
| `DeliveryEvents.PromptDelivery` | src/core/service.rs:1683-1695 | if the next chunk ends at a frame boundary nothing is lost and everything arrives in order |
| `DeliveryEvents.Overtaken` | src/core/service.rs:1683-1695 | for any first message with content and any second one but the end, a stream in which the second is delivered first |
| `DeliveryEvents.EndOvertakes` | src/core/service.rs:1698-1700 | for any first message with content, a stream whose end arrives first, so that the message is never delivered |
| `DeliveryEvents.OneChunkLost` | src/core/service.rs:1575-1704 | a response in a single chunk is not delivered at all |
| `DeliveryEvents.ServeUncached` | src/core/service.rs:1767-1800 | without the cache every decoded message is handed over in order |
| `ToolFiling.AnthropicExactly` | src/core/service.rs:1479-1527 | a client files every piece of input under its own call if and only if tool calls in a row, with no thinking or text in between, carry the same id |
| `ToolFiling.OpenAiExactly` | src/core/service.rs:559-627 | the same for the OpenAI stream, where only text comes between tool calls |
| `ToolFiling.SecondMisfiled` | src/core/service.rs:559-627 | for any two calls with different ids in a row, both clients file the second one's input under the first |
| `IntMath.Truncates` | patch/chrono-0.4.43/src/round.rs:220-302 | quotient and remainder of truncating division reconstruct the dividend and are bounded by it |
| `IntMath.QuotQuot` | patch/chrono-0.4.43/src/time_delta.rs:282-308 | truncating twice is truncating once by the product, for either sign |
| `TimeDeltas.New` | patch/chrono-0.4.43/src/time_delta.rs:86-96 | succeeds exactly for nanoseconds below a second and values within plus or minus i64::MAX milliseconds, with that value |
| `TimeDeltas.ValueInjective` | patch/chrono-0.4.43/src/time_delta.rs:69-96 | a valid delta is determined by its value |
| `TimeDeltas.CheckedAdd` | patch/chrono-0.4.43/src/time_delta.rs:375-385 | the exact sum, or none exactly if it leaves the range |
| `TimeDeltas.CheckedSub` | patch/chrono-0.4.43/src/time_delta.rs:389-399 | the exact difference, or none exactly if it leaves the range |
| `TimeDeltas.Neg` | patch/chrono-0.4.43/src/time_delta.rs:498-504 | the exact negation, always valid |
| `TimeDeltas.AbsDelta` | patch/chrono-0.4.43/src/time_delta.rs:437-443 | the exact absolute value, always valid |
| `TimeDeltas.NumSeconds` | patch/chrono-0.4.43/src/time_delta.rs:305-308 | the value truncated toward zero in seconds, and the subsecond part is the matching remainder |
| `TimeDeltas.NumMinutes` | patch/chrono-0.4.43/src/time_delta.rs:300-302 | the value truncated toward zero in minutes |
| `TimeDeltas.NumHours` | patch/chrono-0.4.43/src/time_delta.rs:294-296 | the value truncated toward zero in hours |
| `TimeDeltas.NumDays` | patch/chrono-0.4.43/src/time_delta.rs:288-290 | the value truncated toward zero in days |
| `TimeDeltas.NumWeeks` | patch/chrono-0.4.43/src/time_delta.rs:282-284 | the value truncated toward zero in weeks |
| `TimeDeltas.SplitUnits` | patch/chrono-0.4.43/src/time_delta.rs:321-362 | splitting off whole seconds first does not change a truncated count of smaller units |
| `TimeDeltas.NumMilliseconds` | patch/chrono-0.4.43/src/time_delta.rs:321-328 | the value truncated toward zero in milliseconds, without overflow |
| `TimeDeltas.NumMicroseconds` | patch/chrono-0.4.43/src/time_delta.rs:341-345 | the value truncated toward zero in microseconds, or none exactly if that does not fit |
| `TimeDeltas.NumNanoseconds` | patch/chrono-0.4.43/src/time_delta.rs:358-362 | the value, or none exactly if it does not fit in i64 |
| `TimeDeltas.Nanoseconds` | patch/chrono-0.4.43/src/time_delta.rs:275-278 | a valid delta of exactly that many nanoseconds, also for negative counts |
| `TimeDeltas.Microseconds` | patch/chrono-0.4.43/src/time_delta.rs:262-266 | a valid delta of exactly that many microseconds |
| `TimeDeltas.TryMilliseconds` | patch/chrono-0.4.43/src/time_delta.rs:244-253 | none exactly for i64::MIN, otherwise exactly that many milliseconds |
| `TimeDeltas.CheckedMul` | patch/chrono-0.4.43/src/time_delta.rs:403-413 | the exact product with normalised nanoseconds, or none exactly if its whole seconds reach the ends of i64 |
| `TimeDeltas.MulInRangeExactly` | patch/chrono-0.4.43/src/time_delta.rs:403-413 | a product comes back as a valid delta if and only if it lies in the range of deltas, and as an invalid one exactly beyond it while its whole seconds fit |
| `TimeDeltas.MulLeavesRange` | patch/chrono-0.4.43/src/time_delta.rs:403-413 | a valid delta whose double is returned and not valid |
| `TimeDeltas.CheckedDiv` | patch/chrono-0.4.43/src/time_delta.rs:417-433 | none exactly for zero; otherwise a valid delta less than two nanoseconds from the exact quotient |
| `TimeDeltas.DivisionResult` | patch/chrono-0.4.43/src/time_delta.rs:417-433 | before normalisation the nanoseconds are within one second of zero, so a single correction suffices |
| `TimeDeltas.DivisionError` | patch/chrono-0.4.43/src/time_delta.rs:417-433 | what the quotient misses is exactly the remainder of the whole seconds, in nanoseconds, plus that of the nanoseconds |
| `TimeDeltas.DivisionExactly` | patch/chrono-0.4.43/src/time_delta.rs:417-433 | the division is exact if and only if these two remainders cancel |
| `TimeDeltas.DivisionFallsShort` | patch/chrono-0.4.43/src/time_delta.rs:417-433 | a delta that is three times another one and whose third comes out a nanosecond short |
| `Rounding.TruncIsFloor` | patch/chrono-0.4.43/src/round.rs:254-277 | the greatest multiple of the span at or before the stamp, negative stamps included |
| `Rounding.RoundUpIsCeiling` | patch/chrono-0.4.43/src/round.rs:279-302 | the least multiple of the span at or after the stamp |
| `Rounding.RoundIsNearest` | patch/chrono-0.4.43/src/round.rs:220-252 | the nearest multiple of the span, halfway points going up |
| `Rounding.FixedPoint` | patch/chrono-0.4.43/src/round.rs:220-302 | a multiple of the span is left alone by all three |
| `Rounding.Idempotent` | patch/chrono-0.4.43/src/round.rs:220-302 | all three leave each other's results alone while the stamp fits |
| `Calendar.ClosedForm` | patch/chrono-0.4.43/src/traits.rs:252-267 | the closed formula is the sum of the lengths of all years before, forwards and backwards from year 1 |
| `Calendar.Cycles` | patch/chrono-0.4.43/src/traits.rs:252-267 | four hundred years are always 146097 days |
| `Calendar.NumDaysFromCe` | patch/chrono-0.4.43/src/traits.rs:252-267 | the ordinal plus the days of all years before, with no 32-bit overflow in chrono's range of years |
| `Calendar.YearBoundary` | patch/chrono-0.4.43/src/traits.rs:252-267 | January 1 follows December 31 |
| `Calendar.Monotone` | patch/chrono-0.4.43/src/traits.rs:252-267 | a year ends before any later one starts |
| `Calendar.DayNumberInjective` | patch/chrono-0.4.43/src/traits.rs:252-267 | different dates have different day numbers |
| `Base62.Mulh` | src/common/utils/base62.rs:144-157 | the high half of the 256-bit product, with no 128-bit intermediate overflowing |
| `Base62.ReciprocalDivides` | src/common/utils/base62.rs:44-53 | multiplying by a reciprocal with excess e divides exactly as long as n times e stays below the scale |
| `Base62.FastDivBaseTo10` | src/common/utils/base62.rs:127-131 | the exact quotient and remainder by 62^10 for every 128-bit number |
| `Base62.DigitOf` | src/common/utils/base62.rs:56-80 | the decode table is the inverse of the character set, both ways |
| `Base62.DigitsDenote` | src/common/utils/base62.rs:186-218 | the digits produced denote the number |
| `Base62.DigitsUnique` | src/common/utils/base62.rs:240-258 | a digit string is the one produced from its value |
| `Base62.ValueConcat` | src/common/utils/base62.rs:186-202 | the value of joined digit strings |
| `Base62.EncodeChunk` | src/common/utils/base62.rs:212-218 | exactly the cells of the chunk are overwritten, with the digits of the number |
| `Base62.ChunksDenote` | src/common/utils/base62.rs:186-202 | the chunks of two, ten and ten digits together denote the number |
| `Base62.EncodeFixed` | src/common/utils/base62.rs:186-202 | the 22 digits whose value is the number |
| `Base62.DecodeFixed` | src/common/utils/base62.rs:240-258 | accepts exactly digit strings whose value fits in 128 bits, returns that value, and otherwise says which of the two failed first |
| `Base62.RoundTrip` | src/common/utils/base62.rs:186-258 | every 128-bit number survives encoding and decoding |
| `Base62.CodecIsBijective` | src/common/utils/base62.rs:186-258 | a 22-byte string is the encoding of a number if and only if it is a digit string with that value |
| `Base62Order.CharsetIs` | src/common/utils/base62.rs:56 | the characters in the order of their digits |
| `Base62Order.SortsLikeNumbers` | src/common/utils/base62.rs:186-218 | a number is below another one if and only if its encoding has the smaller byte at the first difference |
| `Version.Print` | crates/__build/src/version.rs:15-43 | decimal digits without a leading zero that read back as the number |
| `Version.PrintUnique` | crates/__build/src/version.rs:15-43 | the printed form of a number is the only digit string for it without a leading zero |
| `Version.ParseParts` | crates/__build/src/version.rs:85-100 | the loop over the array of parts reports the error that comes first or the three numbers |
| `Version.FromStr` | crates/__build/src/version.rs:77-110 | the imperative parser is the parsing function |
| `Version.ExtensionParses` | crates/__build/src/version.rs:113-144 | exactly the texts of the grammar are accepted as an extension, with the grammar's meaning |
| `Version.ParseIsGrammar` | crates/__build/src/version.rs:77-144 | for all texts and versions, the parser returns the version if and only if the grammar says the text denotes it |
| `Version.GrammarUnambiguous` | crates/__build/src/version.rs:77-144 | no text denotes two versions |
| `Version.RoundTrip` | crates/__build/src/version.rs:15-144 | every version printed parses back to itself |
| `Version.PrintInjective` | crates/__build/src/version.rs:15-43 | two versions print alike if and only if they are equal |
| `Version.Normalises` | crates/__build/src/version.rs:15-144 | printing what was parsed parses to the same version |
| `VersionErrors.EveryText` | crates/__build/src/version.rs:77-100 | every text is dotted pieces followed by nothing or an extension, so the four conditions below cover all texts |
| `VersionErrors.InvalidNumberExactly` | crates/__build/src/version.rs:85-100 | a number is reported exactly if one of the first three pieces is no 16-bit numeral, whatever follows |
| `VersionErrors.InvalidFormatExactly` | crates/__build/src/version.rs:85-100 | the format is reported exactly if the first pieces are numerals and there are not three of them |
| `VersionErrors.InvalidPreReleaseExactly` | crates/__build/src/version.rs:113-144 | the pre-release is reported exactly if the numbers are fine and the extension is not "pre." and digits up to its end or a plus sign |
| `VersionErrors.InvalidBuildExactly` | crates/__build/src/version.rs:113-144 | the build is reported exactly if all before the plus sign is fine and what follows is not "build." and a numeral |
| `ModelIndex.RecognisedIsForm` | src/core/constant.rs:449-477 | the nested suffix tests recognise exactly the four forms of an id |
| `ModelIndex.IndexIsLast` | src/core/constant.rs:494 | the table has exactly the ids of the models, each at its last position |
| `ModelIndex.ListedAfter` | src/core/constant.rs:436-491 | exactly which ids are listed after an update |
| `ModelIndex.RunKeeps` | src/core/constant.rs:294-505 | any run of updates in any modes keeps table and list in step with the models |
| `ModelIndex.EveryRun` | src/core/constant.rs:285-505 | after every run a lookup succeeds exactly for ids of current models, in bounds and with that id, and every listed id is a form of a current model |
| `ModelIndex.UniqueKept` | src/core/constant.rs:389-433 | an update whose response repeats no name keeps names unique in all three modes |
| `ModelIndex.UniqueForever` | src/core/constant.rs:389-433 | names stay unique over every run of such updates |
| `ModelIndex.Store.constructor` | src/core/constant.rs:222-242 | the initial instance lists and indexes the built-in models |
| `ModelIndex.Store.FindId` | src/core/constant.rs:285-288 | the last current model with this id, or none if there is none; the unchecked index is in bounds |
| `ModelIndex.Store.Update` | src/core/constant.rs:294-505 | refuses exactly the empty list and then changes nothing; otherwise the new instance is that of the update function and keeps the invariant |
| `ModelListing.CompleteExactly` | src/core/constant.rs:436-491 | everything the new models offer, max and online forms included, is listed after an update if and only if it was listed and is no form of a model that goes away, or a model that offers it arrives |
| `ModelListing.SiblingDropped` | src/core/constant.rs:449-477 | a concrete update that leaves a current model unlisted |
| `ModelListing.GainedMaxUnlisted` | src/core/constant.rs:436-491 | a concrete update after which a current model's max form is offered and not listed |
| `ModelListing.CompleteForever` | src/core/constant.rs:436-491 | if no id in use clashes with another and none changes its max mode, everything current models offer stays listed over every run |
| `ModelLookup.EntryIsFound` | src/core/constant.rs:308-433 | in the replacing modes an entry of the response is found under its public name, with its own names and capabilities and the defaults for missing ones, if no later entry has that name |
| `ModelLookup.AppendKeeps` | src/core/constant.rs:416-433 | in append mode a lookup still leads to the same current model unless an entry with a new name takes its public id |
| `ModelLookup.ModesExactly` | src/core/constant.rs:389-433 | what each mode keeps, replaces and appends, and where |
| `ModelLookup.KeptInOrder` | src/core/constant.rs:396-412 | the models that are kept stay in order |
| `ModelLookup.ListedInOrder` | src/core/constant.rs:480-490 | new models are listed after the ids already there, in order, as id, online, max and max-online forms |
| `ModelLookup.StayingInOrder` | src/core/constant.rs:446-478 | the ids that stay are in the order they were in |
| `ModelLookup.FormsSpelled` | src/core/constant.rs:449-477 | the four forms of an id, letter by letter |
| `EarlyReturn.EarlyReturnIsSound` | src/core/constant.rs:301-306 | in the mode of the last update the full update would give the same ids, the same table and the same names |
| `EarlyReturn.RunCovers` | src/core/constant.rs:389-433 | over every run the models of the last response stay among the current ones, by name |
| `EarlyReturn.EarlyReturnExactly` | src/core/constant.rs:301-306 | in any mode the early return gives the ids, the table and the names of the full update if and only if the current models are the response, end with it, or the mode is append |
| `EarlyReturn.CapabilitiesExactly` | src/core/constant.rs:301-306 | it gives the very models of the full update if and only if, in addition, the response brings no new capabilities, or the mode is append |
| `EarlyReturn.IgnoredExactly` | src/core/constant.rs:301-306 | a response is ignored if and only if it is the last one but for capabilities |
| `EarlyReturn.CapabilityIgnored` | src/core/constant.rs:301-306 | a response that only adds max mode is ignored |
| `EarlyReturn.ModeChangeIgnored` | src/core/constant.rs:301-306 | a model the full update would drop is kept after a change of mode |
| `LeakIds.Pool.Raw` | src/core/constant/leak_ids.rs:63-80 | which text is picked and how the pool changes |
| `LeakIds.Pool.Intern` | src/core/constant/leak_ids.rs:88-91 | returns its argument if and only if that does not end in "-online" or the rest of it is pooled, and otherwise the argument with the suffix doubled |
| `LeakIds.Pool.Add` | src/core/constant/leak_ids.rs:83-86 | returns the argument and its online form if and only if the argument does not end in "-online" or the rest of it is not pooled |
| `LeakIds.InternExactly` | src/core/constant/leak_ids.rs:63-91 | the same condition, for every pool and hash function |
| `LeakIds.AddExactly` | src/core/constant/leak_ids.rs:63-86 | the same condition, for every pool and hash function |
| `LeakIds.NeverBoth` | src/core/constant/leak_ids.rs:63-91 | for an argument that ends in "-online" exactly one of the two is right |
| `LeakIds.PooledForGood` | src/core/constant/leak_ids.rs:63-91 | once an id is pooled, it and its online form are interned as themselves after any further calls, without growing the pool |
| `LeakIds.Misfiled` | src/core/constant/leak_ids.rs:63-80 | an online form interned before its base stays unfound and is doubled again |
| `Phrases.FirstIsLongest` | src/natural_args.rs:151-243 | the pattern taken in order is the longest documented phrase that matches, and none is taken exactly if none matches |
| `Phrases.WidthIsLength` | src/natural_args.rs:151-243 | every match arm advances by exactly the tokens of its phrase |
| `Phrases.Match` | src/natural_args.rs:151-243 | one turn accounts for exactly the tokens it moves over, and moves at least one |
| `Phrases.Parse` | src/natural_args.rs:143-246 | the loop ends and returns the actions of the left-to-right reading |
| `Phrases.PhrasesAreRead` | src/natural_args.rs:377-405 | any documented phrases in a row, in any order and with any words filled in, are read back as themselves |
| `Words.SplitIntoWords` | src/natural_args.rs:112 | splitting at white space yields only non-empty words without white space |
| `Words.SplitKeepsText` | src/natural_args.rs:112 | nothing but white space is dropped and nothing changes places |
| `Words.SplitJoined` | src/natural_args.rs:112 | words joined with spaces are split into themselves |
| `CommandLine.PushWords` | src/natural_args.rs:112-135 | the words of one argument are appended as tokens in order |
| `CommandLine.FromArgs` | src/natural_args.rs:108-138 | the tokens of the words of all arguments, in order |
| `CommandLine.FillableGenuine` | src/natural_args.rs:112-135 | a phrase survives being written as words if and only if its file and host are not keywords or numbers and its port is a number |
| `CommandLine.PrintThenRead` | src/natural_args.rs:108-246 | any list of printable actions, written as a command line, is read back as that list, whether the words are given one by one or as one argument |
| `CommandLine.ReadIsPrintable` | src/natural_args.rs:108-246 | every command line means the same as the canonical one of its actions |
| `CommandLine.PrintableExactly` | src/natural_args.rs:86-246 | the printable actions are exactly those that some list of arguments produces |
| `DocumentedCommands.TokenizeExactly` | src/natural_args.rs:112-135 | apart from the twelve keywords, exactly the 16-bit numerals are numbers and everything else is text |
| `DocumentedCommands.WhiteExactly` | src/natural_args.rs:112 | words end at exactly the White_Space characters of Unicode |
| `DocumentedCommands.HelpTextIsTrue` | src/natural_args.rs:377-405 | every line of the help text, whatever file, host and port are filled in, is read as the action it announces |

## Left out

- HTTP handlers, authentication, logging, usage polling, token refresh, the client, the routes, the front end, scripts and the build: input and output around the modelled logic.
- gzip and protobuf decoding: the frame processor is an arbitrary function.
- Memory orderings, raw layout and pointer casts of the string pool: atomics are sequentially consistent steps, allocations are addresses.
- What a pending dropper reads of its cell between its decrement and the lock: the hash is carried in its state from the decrement on.
- The fetch-and-add of `inc_strong` and the abort that may follow it are one step, and so is a table operation with the lock it needs.
- `Interned.ArcStrPool.New`: runs without interference, so the second lookup that hits is a step of the state machine only.
- `Interned.ArcStrPool.Drop`: runs without interference, so the re-check that fails is a step of the state machine only.
- The SIMD, 32-bit and big-endian variants of `validate_ascii`: the 64-bit little-endian word version is modelled.
- The serialised form of stream events (JSON, ids, timestamps, usage): events are values.
- What the adapters do with messages after the first `StreamEnd`: the handlers drop the stream there.
- Tool calls and redacted thinking in the comparison of streaming and non-streaming content: the two branches group them differently on purpose. `AnthropicDeltas.DeltasExactly` and `NonStreamingContent.ToolBlocksExactly` state what each of them makes of these.
- Upstream errors in the stream decoder, the delay log and the decoding of one frame into a message: a frame decodes to what a function of it and the frames before says.
- The OpenAI handler around the stream decoder: it is the same code around its own adapter, and the delivery results are stated for the Anthropic one.
- Leap seconds, time zones and the calendar types around the day count.
- The owner shown for a model and the table of built-in models: the first is presentation, the second a parameter.
- Names that themselves end in "-online" in updates: `ModelIndex` takes ids as the texts given, and what the pool makes of such names is stated in `LeakIds` only.
- The buckets of the leaked-id pool and the memory of the leaked texts: the pool is a set of pairs of hash and text.
- Carrying out the actions of a command line.
- `ByteStr` slicing, `Buf::advance`, the proto-value, rep_move, manually_init and atomic_enum crates, weekday and month tables, dotenvy and the age display: small, or without a law of their own.
