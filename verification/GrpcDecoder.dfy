/** The incremental frame decoder: a buffer with a read cursor, an exact-size frame
    iterator over the unread bytes, and `decode`. */
module GrpcDecoder {
  import opened Wrappers
  import opened Sequences
  import opened GrpcFrames

  class Buffer {
    var inner: seq<u8>
    var cursor: nat

    ghost predicate Valid()
      reads this
    {
      cursor <= |inner|
    }

    /** The unread bytes (`as_ref`). */
    function Unread(): seq<u8>
      requires Valid()
      reads this
    {
      inner[cursor..]
    }

    constructor ()
      ensures Valid() && Unread() == []
    {
      inner, cursor := [], 0;
    }

    /** `len` subtracts without a check; the difference never underflows. */
    method Len() returns (n: nat)
      requires Valid()
      ensures n == |Unread()|
    {
      n := |inner| - cursor;
    }

    /** Reset when everything has been read. */
    method TryReclaim()
      requires Valid()
      modifies this
      ensures Valid() && Unread() == old(Unread())
      ensures old(Unread()) == [] ==> inner == [] && cursor == 0
    {
      var n := Len();
      if n == 0 {
        inner, cursor := [], 0;
      }
    }

    method ExtendFromSlice(data: seq<u8>)
      requires Valid()
      modifies this
      ensures Valid() && Unread() == old(Unread()) + data
    {
      TryReclaim();
      inner := inner + data;
    }

    method AdvanceUnchecked(count: nat)
      requires Valid() && count <= |Unread()|
      modifies this
      ensures Valid() && Unread() == old(Unread())[count..]
    {
      cursor := cursor + count;
    }
  }

  class MessageIter {
    const buffer: seq<u8>
    var offset: nat

    ghost predicate Valid()
      reads this
    {
      offset <= |buffer|
    }

    constructor (bytes: seq<u8>)
      ensures Valid() && buffer == bytes && offset == 0
    {
      buffer, offset := bytes, 0;
    }

    /** Yields the frame at the offset and steps over it; `None` leaves the iterator
        where it is, so it stays exhausted. */
    method Next() returns (r: Option<RawMessage>)
      requires Valid()
      modifies this
      ensures Valid() && r == First(buffer[old(offset)..])
      ensures offset == old(offset) + (if r.Some? then r.value.TotalSize() else 0)
    {
      if offset + 5 > |buffer| {
        return None;
      }
      var tag := buffer[offset];
      var len := FromBe(buffer[offset + 1..offset + 5]);
      ghost var s := buffer[offset..];
      assert s[1..5] == buffer[offset + 1..offset + 5];
      if offset + 5 + len > |buffer| {
        return None;
      }
      offset := offset + 5;
      var data := buffer[offset..offset + len];
      assert s[5..5 + len] == data;
      offset := offset + len;
      return Some(RawMessage(tag, data));
    }

    /** `ExactSizeIterator::len`: walks the headers without touching the iterator. */
    method Len() returns (count: nat)
      requires Valid()
      ensures count == |Frames(buffer[offset..])|
    {
      count := 0;
      var at := offset;
      while at + 5 <= |buffer|
        invariant offset <= at <= |buffer|
        invariant |Frames(buffer[offset..])| == count + |Frames(buffer[at..])|
        decreases |buffer| - at
      {
        var len := FromBe(buffer[at + 1..at + 5]);
        ghost var s := buffer[at..];
        assert s[1..5] == buffer[at + 1..at + 5];
        if at + 5 + len > |buffer| {
          break;
        }
        assert s[5 + len..] == buffer[at + 5 + len..];
        count := count + 1;
        at := at + 5 + len;
      }
    }

    /** The `for` loop over the iterator: everything `next` still yields, filtered by
        the processor.  The offset ends where the complete frames end. */
    method Drain<T>(processor: RawMessage -> Option<T>) returns (messages: seq<T>)
      requires Valid()
      modifies this
      ensures Valid() && offset >= old(offset)
      ensures messages == Accepted(processor, Frames(buffer[old(offset)..]))
      ensures buffer[offset..] == Rest(buffer[old(offset)..])
    {
      messages := [];
      var more := true;
      ghost var start := offset;
      while more
        invariant start <= offset <= |buffer|
        invariant more ==> Owed(processor, buffer, start, offset, messages)
        invariant !more ==> messages == Accepted(processor, Frames(buffer[start..])) && buffer[offset..] == Rest(buffer[start..])
        decreases more, |buffer| - offset
      {
        more, messages := Turn(processor, start, messages);
      }
    }

    /** One turn of that loop: `next`, the processor and the push. */
    method Turn<T>(processor: RawMessage -> Option<T>, ghost start: nat, messages: seq<T>) returns (more: bool, out: seq<T>)
      requires Valid() && start <= |buffer| && Owed(processor, buffer, start, offset, messages)
      modifies this
      ensures Valid() && offset >= old(offset)
      ensures more ==> offset > old(offset) && Owed(processor, buffer, start, offset, out)
      ensures !more ==> out == Accepted(processor, Frames(buffer[start..])) && buffer[offset..] == Rest(buffer[start..])
    {
      ghost var at := offset;
      var raw := Next();
      if raw.None? {
        Exhausted(processor, buffer, start, at, messages);
        return false, messages;
      }
      Consume(processor, buffer, start, at, raw.value, messages);
      out := messages + ToSeq(processor(raw.value));
      more := true;
    }
  }

  /** What was delivered since `start`, and what is still due at `at`, make up
      everything that `start` has to deliver. */
  ghost predicate Owed<T>(f: RawMessage -> Option<T>, s: seq<u8>, start: nat, at: nat, done: seq<T>)
    requires start <= |s| && at <= |s|
  {
    Accepted(f, Frames(s[start..])) == done + Accepted(f, Frames(s[at..])) && Rest(s[start..]) == Rest(s[at..])
  }

  lemma Take<T>(f: RawMessage -> Option<T>, s: seq<u8>, m: RawMessage)
    requires First(s) == Some(m)
    ensures Accepted(f, Frames(s)) == ToSeq(f(m)) + Accepted(f, Frames(s[m.TotalSize()..]))
    ensures Rest(s) == Rest(s[m.TotalSize()..])
  {
    var frames := Frames(s[m.TotalSize()..]);
    assert Frames(s) == [m] + frames && ([m] + frames)[1..] == frames;
  }

  /** One turn of the loop. */
  lemma Consume<T>(f: RawMessage -> Option<T>, s: seq<u8>, start: nat, at: nat, m: RawMessage, done: seq<T>)
    requires start <= |s| && at <= |s| && First(s[at..]) == Some(m) && Owed(f, s, start, at, done)
    ensures Owed(f, s, start, at + m.TotalSize(), done + ToSeq(f(m)))
  {
    assert s[at..][m.TotalSize()..] == s[at + m.TotalSize()..];
    Take(f, s[at..], m);
    Assoc(done, ToSeq(f(m)), Accepted(f, Frames(s[at + m.TotalSize()..])));
  }

  lemma Exhausted<T>(f: RawMessage -> Option<T>, s: seq<u8>, start: nat, at: nat, done: seq<T>)
    requires start <= |s| && at <= |s| && First(s[at..]).None? && Owed(f, s, start, at, done)
    ensures done == Accepted(f, Frames(s[start..])) && Rest(s[start..]) == s[at..]
  {}

  class StreamDecoder {
    const buffer: Buffer

    ghost predicate Valid()
      reads this, buffer
    {
      buffer.Valid()
    }

    /** Bytes received and not yet part of a delivered frame. */
    function Pending(): seq<u8>
      requires Valid()
      reads this, buffer
    {
      buffer.Unread()
    }

    constructor ()
      ensures Valid() && Pending() == [] && fresh(buffer)
    {
      buffer := new Buffer();
    }

    /** Delivers every frame completed by `data` and keeps exactly the unparsed rest.  The
        space reserved beforehand, `exactCount`, always suffices. */
    method Decode<T>(data: seq<u8>, processor: RawMessage -> Option<T>) returns (messages: seq<T>)
      requires Valid()
      modifies buffer
      ensures Valid()
      ensures messages == Accepted(processor, Frames(old(Pending()) + data))
      ensures Pending() == Rest(old(Pending()) + data)
    {
      buffer.ExtendFromSlice(data);
      var iter := new MessageIter(buffer.Unread());
      assert iter.buffer[0..] == iter.buffer;
      var exactCount := iter.Len();
      messages := iter.Drain(processor);
      AcceptedFit(processor, Frames(iter.buffer));
      assert |messages| <= exactCount;
      buffer.AdvanceUnchecked(iter.offset);
    }
  }

  /** However a stream is cut into chunks, the concatenated results are those of one
      call on the whole stream, and so are the bytes left over. */
  method DecodeChunks<T>(chunks: seq<seq<u8>>, processor: RawMessage -> Option<T>)
    returns (out: seq<T>, pending: seq<u8>)
    ensures out == Accepted(processor, Frames(Concat(chunks)))
    ensures pending == Rest(Concat(chunks)) && First(pending).None?
  {
    var decoder := new StreamDecoder();
    out := [];
    assert chunks[..0] == [];
    for i := 0 to |chunks|
      invariant decoder.Valid() && fresh(decoder.buffer)
      invariant out == Accepted(processor, Frames(Concat(chunks[..i])))
      invariant decoder.Pending() == Rest(Concat(chunks[..i]))
    {
      var got := decoder.Decode(chunks[i], processor);
      ghost var before := Concat(chunks[..i]);
      assert chunks[..i + 1] == chunks[..i] + [chunks[i]];
      ConcatSnoc(chunks[..i], chunks[i]);
      Cut(before, chunks[i]);
      AcceptedConcat(processor, Frames(before), Frames(Rest(before) + chunks[i]));
      out := out + got;
    }
    assert chunks[..|chunks|] == chunks;
    Factors(Concat(chunks));
    pending := decoder.Pending();
  }

  /** Encoded frames come back exactly, however they were cut, and nothing is left. */
  lemma EncodedStreamDecodes<T>(ms: seq<RawMessage>, chunks: seq<seq<u8>>, processor: RawMessage -> Option<T>)
    requires Encodable(ms) && Concat(chunks) == Encode(ms)
    ensures Accepted(processor, Frames(Concat(chunks))) == Accepted(processor, ms)
    ensures Frames(Concat(chunks)) == ms && Rest(Concat(chunks)) == []
  {
    DecodesEncoded(ms, []);
    assert Encode(ms) + [] == Encode(ms);
  }
}
