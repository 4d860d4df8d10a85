/** Exactly when the handler passes every message on, and exactly when in order.  Order
    is order of positions in the received stream, so that equal messages do not hide a
    change of places. */
module DeliveryOrder {
  import opened Wrappers
  import opened Sequences
  import opened Ranges
  import opened GrpcFrames
  import opened StreamMessages
  import opened AnthropicStream
  import opened AnthropicProtocol
  import opened ChunkDecoder
  import opened FirstResult

  // ----- when the stream is dropped

  lemma {:induction false} ProcessCompletes(c: Context, messages: seq<Message>)
    ensures StreamEnd in messages ==> Process(c, messages).0.stream == Completed
    ensures StreamEnd !in messages && c.stream != Completed ==> Process(c, messages).0.stream != Completed
    decreases |messages|
  {
    if messages == [] {
    } else {
      ProcessCompletes(Step(c, messages[0]).0, messages[1..]);
      assert messages == [messages[0]] + messages[1..];
    }
  }

  lemma TurnCompletes(c: Context, first: Option<seq<Message>>, chunk: Chunk)
    requires chunk.Parsed? && c.stream != Completed
    ensures var done := RunAll(c, TurnCalls(first, chunk)).0.stream == Completed;
            && (StreamEnd in chunk.messages ==> done)
            && (done ==> StreamEnd in chunk.messages || (chunk.drained && first.Some? && StreamEnd in first.value))
  {
    if chunk.drained && first.Some? {
      TwoCalls(c, first.value, chunk.messages);
      ProcessCompletes(c, first.value);
      ProcessCompletes(Process(c, first.value).0, chunk.messages);
    } else {
      OneCall(c, chunk.messages);
      ProcessCompletes(c, chunk.messages);
    }
  }

  /** No chunk but the last one read carries the end of the stream, and reading stops
      early only once the end of the stream was handed over. */
  lemma {:induction false} ReadsFacts(c: Context, first: Option<seq<Message>>, later: seq<Chunk>)
    requires c.stream != Completed
    ensures var k := Reads(c, first, later);
            && (forall j :: 0 <= j && j + 1 < k ==> StreamEnd !in Carried(later[j]))
            && (k < |later| ==>
                  || StreamEnd in Received(later[..k])
                  || (first.Some? && StreamEnd in first.value && FirstDrained(later) < k))
    decreases |later|
  {
    if later == [] {
    } else {
      var k := Reads(c, first, later);
      ReceivedCons(later, k);
      if later[0].Short? {
        ReadsFacts(c, first, later[1..]);
        LaterShift(later, k);
      } else {
        TurnCompletes(c, first, later[0]);
        var c1 := RunAll(c, TurnCalls(first, later[0])).0;
        if c1.stream != Completed {
          ReadsFacts(c1, Left(first, later[0]), later[1..]);
          LaterShift(later, k);
        }
      }
    }
  }

  lemma ReceivedCons(later: seq<Chunk>, k: nat)
    requires 0 < |later| && k <= |later|
    ensures k > 0 ==> Received(later[..k]) == Carried(later[0]) + Received(later[1..][..k - 1])
  {
    if k > 0 { assert later[..k][1..] == later[1..][..k - 1]; }
  }

  lemma LaterShift(later: seq<Chunk>, k: nat)
    requires 0 < k <= |later|
    ensures forall j :: 0 < j < |later| ==> later[j] == later[1..][j - 1]
  {}

  // ----- what is handed over

  /** The messages handed over when the chunks in `read` are read: the cache goes out
      right before the messages of the first chunk that empties the buffer. */
  function Delivered(first: Option<seq<Message>>, read: seq<Chunk>): seq<Message> {
    var d := FirstDrained(read);
    if first.None? then Received(read)
    else Arranged(d < |read|, first.value, Received(read[..d]), Received(read[d..]))
  }

  lemma DeliveredCons(first: Option<seq<Message>>, read: seq<Chunk>)
    requires read != []
    ensures read[0].Parsed? && read[0].drained && first.Some? ==>
              Delivered(first, read) == first.value + Carried(read[0]) + Received(read[1..])
    ensures !(read[0].Parsed? && read[0].drained && first.Some?) ==>
              Delivered(first, read) == Carried(read[0]) + Delivered(first, read[1..])
  {
    var d := FirstDrained(read);
    if first.None? {
    } else if d == 0 {
      assert read[..0] == [] && read[0..] == read;
      Assoc(first.value, Carried(read[0]), Received(read[1..]));
      assert [] + first.value == first.value;
    } else {
      ReceivedCons(read, d);
      assert read[1..][d - 1..] == read[d..];
      ArrangedCons(d < |read|, first.value, Carried(read[0]), Received(read[1..][..d - 1]), Received(read[d..]));
    }
  }

  lemma ArrangedCons(taken: bool, a: seq<Message>, x: seq<Message>, b: seq<Message>, c: seq<Message>)
    ensures Arranged(taken, a, x + b, c) == x + Arranged(taken, a, b, c)
  {}

  /** One chunk of the recursion. */
  lemma Unroll(c: Context, first: Option<seq<Message>>, later: seq<Chunk>)
    requires later != [] && later[0].Parsed?
    ensures var calls := TurnCalls(first, later[0]);
            var c1 := RunAll(c, calls).0;
            if c1.stream == Completed then LaterCalls(c, first, later) == calls && Reads(c, first, later) == 1
            else && LaterCalls(c, first, later) == calls + LaterCalls(c1, Left(first, later[0]), later[1..])
                 && Reads(c, first, later) == 1 + Reads(c1, Left(first, later[0]), later[1..])
  {}

  lemma ConcatCons(a: seq<Message>, rest: seq<seq<Message>>)
    ensures Concat([a] + rest) == a + Concat(rest)
  {
    assert ([a] + rest)[1..] == rest;
  }

  lemma ConcatTwo(a: seq<Message>, b: seq<Message>, rest: seq<seq<Message>>)
    ensures Concat([a, b] + rest) == a + b + Concat(rest)
  {
    assert [a, b] + rest == [a] + ([b] + rest);
    ConcatCons(a, [b] + rest);
    ConcatCons(b, rest);
    Assoc(a, b, Concat(rest));
  }

  lemma {:induction false} DeliveredNone(later: seq<Chunk>, c: Context)
    requires c.stream != Completed
    ensures var k := Reads(c, None, later); Concat(LaterCalls(c, None, later)) == Received(later[..k])
    decreases |later|
  {
    if later == [] {
    } else {
      ReceivedCons(later, Reads(c, None, later));
      if later[0].Short? {
        DeliveredNone(later[1..], c);
      } else {
        NoneTurn(c, later);
      }
    }
  }

  lemma NoneTurn(c: Context, later: seq<Chunk>)
    requires c.stream != Completed && later != [] && later[0].Parsed?
    ensures var k := Reads(c, None, later);
            k > 0 && Concat(LaterCalls(c, None, later)) == Carried(later[0]) + Received(later[1..][..k - 1])
    decreases |later|, 0
  {
    var messages := later[0].messages;
    Unroll(c, None, later);
    var c1 := RunAll(c, [messages]).0;
    if c1.stream == Completed {
      ConcatCons(messages, []);
      assert later[1..][..0] == [];
    } else {
      DeliveredNone(later[1..], c1);
      ConcatCons(messages, LaterCalls(c1, None, later[1..]));
    }
  }

  lemma ShortTurn(c: Context, first: Option<seq<Message>>, later: seq<Chunk>)
    requires c.stream != Completed && later != [] && later[0].Short?
    ensures Reads(c, first, later) == Reads(c, first, later[1..]) + 1
    ensures Concat(LaterCalls(c, first, later)) == Concat(LaterCalls(c, first, later[1..]))
  {}

  lemma {:induction false} CallsAreDelivered(c: Context, first: Option<seq<Message>>, later: seq<Chunk>)
    requires c.stream != Completed
    ensures var k := Reads(c, first, later); Concat(LaterCalls(c, first, later)) == Delivered(first, later[..k])
    decreases |later|
  {
    if later == [] {
    } else {
      var k := Reads(c, first, later);
      assert later[..k][0] == later[0] && later[..k][1..] == later[1..][..k - 1];
      DeliveredCons(first, later[..k]);
      if later[0].Short? {
        CallsAreDelivered(c, first, later[1..]);
        ShortTurn(c, first, later);
        assert [] + Delivered(first, later[1..][..k - 1]) == Delivered(first, later[1..][..k - 1]);
      } else if later[0].drained && first.Some? {
        TakenTurn(c, first.value, later);
      } else {
        PlainTurn(c, first, later);
      }
    }
  }

  /** The turn in which the cache is handed over. */
  lemma TakenTurn(c: Context, cached: seq<Message>, later: seq<Chunk>)
    requires c.stream != Completed && later != [] && later[0].Parsed? && later[0].drained
    ensures var k := Reads(c, Some(cached), later);
            && k > 0
            && Concat(LaterCalls(c, Some(cached), later)) == cached + Carried(later[0]) + Received(later[1..][..k - 1])
  {
    var messages := later[0].messages;
    Unroll(c, Some(cached), later);
    var c1 := RunAll(c, [cached, messages]).0;
    if c1.stream == Completed {
      ConcatTwo(cached, messages, []);
      assert later[1..][..0] == [] && [cached, messages] + [] == [cached, messages];
    } else {
      DeliveredNone(later[1..], c1);
      ConcatTwo(cached, messages, LaterCalls(c1, None, later[1..]));
    }
  }

  /** A turn that hands over the messages of its chunk only. */
  lemma PlainTurn(c: Context, first: Option<seq<Message>>, later: seq<Chunk>)
    requires c.stream != Completed && later != [] && later[0].Parsed? && !(later[0].drained && first.Some?)
    ensures var k := Reads(c, first, later);
            && k > 0
            && Concat(LaterCalls(c, first, later)) == Carried(later[0]) + Delivered(first, later[1..][..k - 1])
    decreases |later|, 0
  {
    var messages := later[0].messages;
    Unroll(c, first, later);
    var c1 := RunAll(c, [messages]).0;
    if c1.stream == Completed {
      ConcatCons(messages, []);
      assert later[1..][..0] == [];
    } else {
      CallsAreDelivered(c1, first, later[1..]);
      ConcatCons(messages, LaterCalls(c1, first, later[1..]));
    }
  }

  // ----- positions

  /** The positions of the messages handed over, when `a` of them are cached. */
  function Positions(a: nat, read: seq<Chunk>): seq<nat> {
    var d := FirstDrained(read);
    var mid := a + |Received(read[..d])|;
    Interleaved(d < |read|, a, mid, mid + |Received(read[d..])|)
  }

  lemma SplitAt(chunks: seq<Chunk>, d: nat)
    requires d <= |chunks|
    ensures Received(chunks) == Received(chunks[..d]) + Received(chunks[d..])
  {
    assert chunks == chunks[..d] + chunks[d..];
    ReceivedConcat(chunks[..d], chunks[d..]);
  }

  lemma PositionsPick(cached: seq<Message>, read: seq<Chunk>, rest: seq<Message>, received: seq<Message>)
    requires received == cached + (Received(read) + rest)
    ensures Delivered(Some(cached), read) == Pick(received, Positions(|cached|, read))
  {
    var d := FirstDrained(read);
    SplitAt(read, d);
    Assoc(Received(read[..d]), Received(read[d..]), rest);
    PickArranged(d < |read|, cached, Received(read[..d]), Received(read[d..]), rest, received,
                 Positions(|cached|, read), Delivered(Some(cached), read));
  }

  // ----- what was sent before the end

  /** How many messages were sent up to and including the end of the stream. */
  function SentCount(messages: seq<Message>): (n: nat)
    ensures n <= |messages| && (messages != [] ==> n > 0)
  {
    if messages == [] then 0 else if messages[0].StreamEnd? then 1 else 1 + SentCount(messages[1..])
  }

  lemma {:induction false} SentBound(messages: seq<Message>, p: nat)
    requires p < |messages| && messages[p] == StreamEnd
    ensures SentCount(messages) <= p + 1
    decreases p
  {
    if p == 0 {
    } else {
      SentBound(messages[1..], p - 1);
    }
  }

  lemma {:induction false} SentEnds(messages: seq<Message>)
    ensures SentCount(messages) < |messages| ==> StreamEnd in messages[..SentCount(messages)]
    decreases |messages|
  {
    if messages == [] {
    } else if messages[0].StreamEnd? {
      assert messages[..1][0] == StreamEnd;
    } else {
      SentEnds(messages[1..]);
      var n := SentCount(messages);
      assert messages[..n] == [messages[0]] + messages[1..][..n - 1];
    }
  }

  // ----- the handler's calls as positions

  /** There is a first result, and it is not empty. */
  predicate Answers(chunks: seq<Chunk>) {
    FirstContent(chunks) < |chunks| && Carried(chunks[FirstContent(chunks)]) != []
  }

  function ReadCount(chunks: seq<Chunk>): nat
    requires Answers(chunks)
  {
    Reads(Fresh, Some(Cached(chunks)), Later(chunks))
  }

  /** The positions, in the received stream, of the messages handed over, in order. */
  function Handed(chunks: seq<Chunk>): seq<nat>
    requires Answers(chunks)
  {
    Positions(|Cached(chunks)|, Later(chunks)[..ReadCount(chunks)])
  }

  lemma Parts(chunks: seq<Chunk>)
    requires Answers(chunks)
    ensures Cached(chunks) != [] && Received(chunks) == Cached(chunks) + Received(Later(chunks))
  {
    PartsAt(chunks, FirstContent(chunks));
  }

  lemma PartsAt(chunks: seq<Chunk>, n: nat)
    requires n < |chunks| && Carried(chunks[n]) != []
    ensures Received(chunks[..n + 1]) != []
    ensures Received(chunks) == Received(chunks[..n + 1]) + Received(chunks[n + 1..])
  {
    ReceivedSnoc(chunks, n);
    SplitAt(chunks, n + 1);
  }

  /** The adapter is handed the received messages at those positions, and no others. */
  lemma CallsArePositions(chunks: seq<Chunk>)
    requires Answers(chunks)
    ensures Concat(CallsOf(chunks)) == Pick(Received(chunks), Handed(chunks))
  {
    var cached, later, k := Cached(chunks), Later(chunks), ReadCount(chunks);
    Parts(chunks);
    CallsAreDelivered(Fresh, Some(cached), later);
    SplitAt(later, k);
    PositionsPick(cached, later[..k], Received(later[k..]), Received(chunks));
  }

  lemma HandedWithin(chunks: seq<Chunk>, i: nat)
    requires Answers(chunks) && i < |Handed(chunks)|
    ensures Handed(chunks)[i] < |Received(chunks)|
  {
    var a, later, k := |Cached(chunks)|, Later(chunks), ReadCount(chunks);
    var taken, mid, end := HandedShape(a, later, k);
    Bounded(taken, a, mid, end, i);
    Parts(chunks);
    SplitAt(later, k);
  }

  /** No message is handed over twice. */
  lemma NeverTwice(chunks: seq<Chunk>, i: nat, j: nat)
    requires Answers(chunks) && i < j < |Handed(chunks)|
    ensures Handed(chunks)[i] != Handed(chunks)[j]
  {
    PositionsDistinct(|Cached(chunks)|, Later(chunks)[..ReadCount(chunks)], i, j);
  }

  lemma PositionsDistinct(a: nat, read: seq<Chunk>, i: nat, j: nat)
    requires i < j < |Positions(a, read)|
    ensures Positions(a, read)[i] != Positions(a, read)[j]
  {
    var d := FirstDrained(read);
    var mid := a + |Received(read[..d])|;
    Distinct(d < |read|, a, mid, mid + |Received(read[d..])|, i, j);
  }

  // ----- reading far enough

  lemma {:induction false} DrainedPrefix(later: seq<Chunk>, k: nat)
    requires k <= |later|
    ensures FirstDrained(later[..k]) == if FirstDrained(later) < k then FirstDrained(later) else k
    decreases |later|
  {
    if later == [] || k == 0 {
    } else {
      assert later[..k][1..] == later[1..][..k - 1];
      DrainedPrefix(later[1..], k - 1);
    }
  }

  lemma {:induction false} EndIsCarried(later: seq<Chunk>)
    requires forall j :: 0 <= j < |later| ==> StreamEnd !in Carried(later[j])
    ensures StreamEnd !in Received(later)
    decreases |later|
  {
    if later == [] {
    } else {
      assert forall j :: 0 <= j < |later[1..]| ==> later[1..][j] == later[j + 1];
      EndIsCarried(later[1..]);
    }
  }

  lemma PrefixReceived(later: seq<Chunk>, k: nat, d: nat) returns (more: seq<Message>)
    requires k <= d <= |later|
    ensures Received(later[..d]) == Received(later[..k]) + more
  {
    assert later[..d][..k] == later[..k];
    SplitAt(later[..d], k);
    more := Received(later[..d][k..]);
  }

  lemma EarlyUpTo(later: seq<Chunk>, j: nat)
    requires FirstDrained(later) <= j <= |later|
    ensures Received(later[..j]) == [] ==> Early(later) == []
    ensures StreamEnd !in Received(later[..j]) ==> StreamEnd !in Early(later)
  {
    var more := PrefixReceived(later, FirstDrained(later), j);
  }

  /** The messages passed on before the cache. */
  function Early(later: seq<Chunk>): seq<Message> { Received(later[..FirstDrained(later)]) }

  /** If a chunk empties the buffer and the end of the stream does not come before it,
      that chunk is read, and so is everything sent before the end. */
  lemma ReadsEnough(cached: seq<Message>, later: seq<Chunk>)
    requires FirstDrained(later) < |later| && StreamEnd !in Early(later)
    ensures var k := Reads(Fresh, Some(cached), later);
            && FirstDrained(later) < k
            && SentCount(cached + Received(later)) <= |cached| + |Received(later[..k])|
  {
    var k, d := Reads(Fresh, Some(cached), later), FirstDrained(later);
    ReadsFacts(Fresh, Some(cached), later);
    if k <= d {
      var more := PrefixReceived(later, k, d);
    }
    SplitAt(later, k);
    if k < |later| {
      EndWithin(cached, Received(later[..k]), Received(later[k..]));
      Assoc(cached, Received(later[..k]), Received(later[k..]));
    }
  }

  lemma EndWithin(a: seq<Message>, b: seq<Message>, c: seq<Message>)
    requires StreamEnd in a || StreamEnd in b
    ensures SentCount(a + (b + c)) <= |a| + |b|
  {
    var all := a + (b + c);
    if StreamEnd in a {
      var i :| 0 <= i < |a| && a[i] == StreamEnd;
      SentBound(all, i);
    } else {
      var i :| 0 <= i < |b| && b[i] == StreamEnd;
      SentBound(all, |a| + i);
    }
  }

  /** If the chunk that empties the buffer is read, the end does not come before it. */
  lemma EarlyHasNoEnd(first: Option<seq<Message>>, later: seq<Chunk>)
    requires FirstDrained(later) < Reads(Fresh, first, later)
    ensures StreamEnd !in Early(later)
  {
    var d := FirstDrained(later);
    ReadsFacts(Fresh, first, later);
    assert forall j :: 0 <= j < |later[..d]| ==> later[..d][j] == later[j];
    EndIsCarried(later[..d]);
  }

  // ----- order and loss

  /** Everything sent up to the end of the stream is handed over first and in order. */
  ghost predicate InOrder(chunks: seq<Chunk>)
    requires Answers(chunks)
  {
    Range(0, SentCount(Received(chunks))) <= Handed(chunks)
  }

  /** Everything sent up to the end of the stream is handed over. */
  ghost predicate NothingLost(chunks: seq<Chunk>)
    requires Answers(chunks)
  {
    AllIn(SentCount(Received(chunks)), Handed(chunks))
  }

  /** Some later chunk empties the buffer. */
  predicate Drains(chunks: seq<Chunk>)
    requires Answers(chunks)
  {
    FirstDrained(Later(chunks)) < |Later(chunks)|
  }

  lemma HandedShape(a: nat, later: seq<Chunk>, k: nat) returns (taken: bool, mid: nat, end: nat)
    requires k <= |later|
    ensures taken == (FirstDrained(later) < k) && end == a + |Received(later[..k])| && a <= mid <= end
    ensures taken ==> mid == a + |Early(later)|
    ensures Positions(a, later[..k]) == Interleaved(taken, a, mid, end)
  {
    var d, read := FirstDrained(later), later[..k];
    DrainedPrefix(later, k);
    SplitAt(read, FirstDrained(read));
    taken, end := d < k, a + |Received(read)|;
    mid := a + |Received(read[..FirstDrained(read)])|;
    if taken { assert read[..d] == later[..d]; }
  }

  /** Everything sent is handed over exactly if a later chunk empties the buffer and the
      end of the stream does not arrive before that chunk. */
  lemma NothingLostExactly(chunks: seq<Chunk>)
    requires Answers(chunks)
    ensures NothingLost(chunks) <==> Drains(chunks) && StreamEnd !in Early(Later(chunks))
  {
    Parts(chunks);
    LostExactly(Cached(chunks), Later(chunks), ReadCount(chunks));
  }

  lemma LostExactly(cached: seq<Message>, later: seq<Chunk>, k: nat)
    requires cached != [] && k == Reads(Fresh, Some(cached), later)
    ensures AllIn(SentCount(cached + Received(later)), Positions(|cached|, later[..k])) <==>
            FirstDrained(later) < |later| && StreamEnd !in Early(later)
  {
    var a, sent := |cached|, SentCount(cached + Received(later));
    var taken, mid, end := HandedShape(a, later, k);
    AllNeedsTaken(taken, a, mid, end, sent);
    if taken {
      EarlyHasNoEnd(Some(cached), later);
    }
    if FirstDrained(later) < |later| && StreamEnd !in Early(later) {
      ReadsEnough(cached, later);
      AllCovered(a, mid, end, sent);
    }
  }

  /** It is handed over in order exactly if a later chunk empties the buffer and no
      message arrives between the first result and that chunk. */
  lemma InOrderExactly(chunks: seq<Chunk>)
    requires Answers(chunks)
    ensures InOrder(chunks) <==> Drains(chunks) && Early(Later(chunks)) == []
  {
    Parts(chunks);
    OrderExactly(Cached(chunks), Later(chunks), ReadCount(chunks));
  }

  lemma OrderExactly(cached: seq<Message>, later: seq<Chunk>, k: nat)
    requires cached != [] && k == Reads(Fresh, Some(cached), later)
    ensures Range(0, SentCount(cached + Received(later))) <= Positions(|cached|, later[..k]) <==>
            FirstDrained(later) < |later| && Early(later) == []
  {
    var taken, mid, end := HandedShape(|cached|, later, k);
    Starts(taken, |cached|, mid, end, SentCount(cached + Received(later)));
    if FirstDrained(later) < |later| && Early(later) == [] {
      ReadsEnough(cached, later);
    }
  }

  // ----- the same, chunk by chunk

  predicate DrainedAt(chunks: seq<Chunk>, k: nat)
    requires k < |chunks|
  {
    chunks[k].Parsed? && chunks[k].drained
  }

  lemma Shift(chunks: seq<Chunk>, n: nat, k: nat)
    requires n < k < |chunks|
    ensures chunks[n + 1..][k - n - 1] == chunks[k] && chunks[n + 1..][..k - n - 1] == chunks[n + 1..k]
  {}

  lemma FirstLater(chunks: seq<Chunk>, n: nat) returns (k: nat)
    requires n < |chunks| && FirstDrained(chunks[n + 1..]) < |chunks| - n - 1
    ensures n < k < |chunks| && DrainedAt(chunks, k) && Received(chunks[n + 1..k]) == Early(chunks[n + 1..])
  {
    k := n + 1 + FirstDrained(chunks[n + 1..]);
    Shift(chunks, n, k);
  }

  lemma AnyLater(chunks: seq<Chunk>, n: nat, k: nat)
    requires n < k < |chunks| && DrainedAt(chunks, k)
    ensures FirstDrained(chunks[n + 1..]) < |chunks| - n - 1
    ensures Received(chunks[n + 1..k]) == [] ==> Early(chunks[n + 1..]) == []
    ensures StreamEnd !in Received(chunks[n + 1..k]) ==> StreamEnd !in Early(chunks[n + 1..])
  {
    Shift(chunks, n, k);
    NoneBefore(chunks[n + 1..], k - n - 1);
    EarlyUpTo(chunks[n + 1..], k - n - 1);
  }

  /** A chunk after chunk `n` empties the buffer, and no message comes between. */
  ghost predicate DrainsAtOnce(chunks: seq<Chunk>, n: nat)
    requires n < |chunks|
  {
    exists k :: n < k < |chunks| && DrainedAt(chunks, k) && Received(chunks[n + 1..k]) == []
  }

  lemma EmptyWhere(chunks: seq<Chunk>, n: nat)
    requires n < |chunks|
    ensures FirstDrained(chunks[n + 1..]) < |chunks| - n - 1 && Early(chunks[n + 1..]) == [] <==>
            DrainsAtOnce(chunks, n)
  {
    if FirstDrained(chunks[n + 1..]) < |chunks| - n - 1 { var k := FirstLater(chunks, n); }
    forall k | n < k < |chunks| && DrainedAt(chunks, k)
      ensures FirstDrained(chunks[n + 1..]) < |chunks| - n - 1
      ensures Received(chunks[n + 1..k]) == [] ==> Early(chunks[n + 1..]) == []
    {
      AnyLater(chunks, n, k);
    }
  }

  /** A chunk after chunk `n` empties the buffer, and no end of the stream comes between. */
  ghost predicate DrainsBeforeEnd(chunks: seq<Chunk>, n: nat)
    requires n < |chunks|
  {
    exists k :: n < k < |chunks| && DrainedAt(chunks, k) && StreamEnd !in Received(chunks[n + 1..k])
  }

  lemma EndlessWhere(chunks: seq<Chunk>, n: nat)
    requires n < |chunks|
    ensures FirstDrained(chunks[n + 1..]) < |chunks| - n - 1 && StreamEnd !in Early(chunks[n + 1..]) <==>
            DrainsBeforeEnd(chunks, n)
  {
    if FirstDrained(chunks[n + 1..]) < |chunks| - n - 1 { var k := FirstLater(chunks, n); }
    forall k | n < k < |chunks| && DrainedAt(chunks, k)
      ensures FirstDrained(chunks[n + 1..]) < |chunks| - n - 1
      ensures StreamEnd !in Received(chunks[n + 1..k]) ==> StreamEnd !in Early(chunks[n + 1..])
    {
      AnyLater(chunks, n, k);
    }
  }

  lemma InOrderWhere(chunks: seq<Chunk>, n: nat)
    requires Answers(chunks) && n == FirstContent(chunks)
    ensures InOrder(chunks) <==> DrainsAtOnce(chunks, n)
  {
    InOrderExactly(chunks);
    EmptyWhere(chunks, n);
  }

  lemma NothingLostWhere(chunks: seq<Chunk>, n: nat)
    requires Answers(chunks) && n == FirstContent(chunks)
    ensures NothingLost(chunks) <==> DrainsBeforeEnd(chunks, n)
  {
    NothingLostExactly(chunks);
    EndlessWhere(chunks, n);
  }

  // ----- in terms of bytes

  /** Chunk `k` is not empty and ends where a frame of the stream ends. */
  predicate Boundary(datas: seq<seq<u8>>, k: nat)
    requires k < |datas|
  {
    datas[k] != [] && Rest(Concat(datas[..k + 1])) == []
  }

  lemma ChunksAnswer(f: Processor, web: bool, datas: seq<seq<u8>>)
    requires FirstContent(ChunksOf(f, web, datas)) < |datas|
    ensures Answers(ChunksOf(f, web, datas))
  {
    var n := FirstContent(ChunksOf(f, web, datas));
    ContentCarried(f, web, Concat(datas[..n]), datas[n]);
  }

  lemma DrainsAtOnceWhere(f: Processor, web: bool, datas: seq<seq<u8>>, chunks: seq<Chunk>, n: nat)
    requires chunks == ChunksOf(f, web, datas) && n < |chunks|
    ensures DrainsAtOnce(chunks, n) <==>
            exists k :: n < k < |datas| && Boundary(datas, k) && Received(chunks[n + 1..k]) == []
  {
    if DrainsAtOnce(chunks, n) {
      var k :| n < k < |chunks| && DrainedAt(chunks, k) && Received(chunks[n + 1..k]) == [];
      DrainedIsBoundary(f, web, datas, k);
      assert Boundary(datas, k);
    }
    if k :| n < k < |datas| && Boundary(datas, k) && Received(chunks[n + 1..k]) == [] {
      DrainedIsBoundary(f, web, datas, k);
      assert DrainedAt(chunks, k);
    }
  }

  /** In order exactly if, after the chunk that completes the first result, some chunk
      ends at a frame boundary and no message arrives before it. */
  lemma InOrderBytes(f: Processor, web: bool, datas: seq<seq<u8>>, chunks: seq<Chunk>, n: nat)
    requires chunks == ChunksOf(f, web, datas) && n == FirstContent(chunks) < |chunks|
    ensures Answers(chunks)
    ensures InOrder(chunks) <==>
            exists k :: n < k < |datas| && Boundary(datas, k) && Received(chunks[n + 1..k]) == []
  {
    ChunksAnswer(f, web, datas);
    InOrderWhere(chunks, n);
    DrainsAtOnceWhere(f, web, datas, chunks, n);
  }

  lemma DrainsBeforeEndWhere(f: Processor, web: bool, datas: seq<seq<u8>>, chunks: seq<Chunk>, n: nat)
    requires chunks == ChunksOf(f, web, datas) && n < |chunks|
    ensures DrainsBeforeEnd(chunks, n) <==>
            exists k :: n < k < |datas| && Boundary(datas, k) && StreamEnd !in Received(chunks[n + 1..k])
  {
    if DrainsBeforeEnd(chunks, n) {
      var k :| n < k < |chunks| && DrainedAt(chunks, k) && StreamEnd !in Received(chunks[n + 1..k]);
      DrainedIsBoundary(f, web, datas, k);
      assert Boundary(datas, k);
    }
    if k :| n < k < |datas| && Boundary(datas, k) && StreamEnd !in Received(chunks[n + 1..k]) {
      DrainedIsBoundary(f, web, datas, k);
      assert DrainedAt(chunks, k);
    }
  }

  /** Nothing lost exactly if some later chunk ends at a frame boundary and the end of
      the stream does not arrive before it. */
  lemma NothingLostBytes(f: Processor, web: bool, datas: seq<seq<u8>>, chunks: seq<Chunk>, n: nat)
    requires chunks == ChunksOf(f, web, datas) && n == FirstContent(chunks) < |chunks|
    ensures Answers(chunks)
    ensures NothingLost(chunks) <==>
            exists k :: n < k < |datas| && Boundary(datas, k) && StreamEnd !in Received(chunks[n + 1..k])
  {
    ChunksAnswer(f, web, datas);
    NothingLostWhere(chunks, n);
    DrainsBeforeEndWhere(f, web, datas, chunks, n);
  }
}
