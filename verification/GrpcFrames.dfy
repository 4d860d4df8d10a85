/** The length-prefixed frames of a gRPC stream, as a grammar on byte strings. */
module GrpcFrames {
  import opened Wrappers
  import opened Sequences

  type u8 = x: int | 0 <= x < 256

  /** One frame: a type byte, a four-byte big-endian length and that many bytes. */
  datatype RawMessage = RawMessage(tag: u8, data: seq<u8>) {
    function TotalSize(): nat { 5 + |data| }
  }

  function FromBe(b: seq<u8>): nat
    requires |b| == 4
  {
    (b[0] as int) * 0x100_0000 + (b[1] as int) * 0x1_0000 + (b[2] as int) * 0x100 + b[3]
  }

  function ToBe(n: nat): (b: seq<u8>)
    requires n < 0x1_0000_0000
    ensures |b| == 4 && FromBe(b) == n
  {
    [n / 0x100 / 0x100 / 0x100, n / 0x100 / 0x100 % 0x100, n / 0x100 % 0x100, n % 0x100]
  }

  lemma BeRoundTrip(b: seq<u8>)
    requires |b| == 4
    ensures FromBe(b) < 0x1_0000_0000 && ToBe(FromBe(b)) == b
  {
    var n := FromBe(b);
    assert n / 0x100 == (b[0] as int) * 0x1_0000 + (b[1] as int) * 0x100 + b[2];
    assert n / 0x100 / 0x100 == (b[0] as int) * 0x100 + b[1];
  }

  /** The complete frame at the start of `s`, if there is one. */
  function First(s: seq<u8>): (r: Option<RawMessage>)
    ensures r.Some? ==> r.value.TotalSize() <= |s|
  {
    if |s| < 5 then None
    else
      var len := FromBe(s[1..5]);
      if |s| < 5 + len then None else Some(RawMessage(s[0], s[5..5 + len]))
  }

  /** All complete frames from the start of `s`. */
  function Frames(s: seq<u8>): seq<RawMessage>
    decreases |s|
  {
    if First(s).None? then [] else [First(s).value] + Frames(s[First(s).value.TotalSize()..])
  }

  /** What is left of `s` after its complete frames. */
  function Rest(s: seq<u8>): seq<u8>
    decreases |s|
  {
    if First(s).None? then s else Rest(s[First(s).value.TotalSize()..])
  }

  predicate Encodable(ms: seq<RawMessage>) {
    forall i :: 0 <= i < |ms| ==> |ms[i].data| < 0x1_0000_0000
  }

  function EncodeFrame(m: RawMessage): seq<u8>
    requires |m.data| < 0x1_0000_0000
  {
    [m.tag] + ToBe(|m.data|) + m.data
  }

  function Encode(ms: seq<RawMessage>): seq<u8>
    requires Encodable(ms)
  {
    if ms == [] then [] else EncodeFrame(ms[0]) + Encode(ms[1..])
  }

  function SumSizes(ms: seq<RawMessage>): nat {
    if ms == [] then 0 else ms[0].TotalSize() + SumSizes(ms[1..])
  }

  // ----- frames, rest and encoding determine each other

  lemma FirstIsEncoded(s: seq<u8>)
    requires First(s).Some?
    ensures var m := First(s).value;
            |m.data| < 0x1_0000_0000 && EncodeFrame(m) + s[m.TotalSize()..] == s
  {
    var m := First(s).value;
    BeRoundTrip(s[1..5]);
    assert s == [s[0]] + s[1..5] + s[5..5 + |m.data|] + s[5 + |m.data|..];
  }

  lemma EncodeCons(m: RawMessage, ms: seq<RawMessage>)
    requires |m.data| < 0x1_0000_0000 && Encodable(ms)
    ensures Encodable([m] + ms) && Encode([m] + ms) == EncodeFrame(m) + Encode(ms)
    ensures SumSizes([m] + ms) == m.TotalSize() + SumSizes(ms)
  {
    assert ([m] + ms)[1..] == ms;
  }

  /** A byte string is the encoding of its frames followed by its rest; the rest
      holds no complete frame; and the frames account for every other byte. */
  lemma {:induction false} Factors(s: seq<u8>)
    ensures Encodable(Frames(s)) && Encode(Frames(s)) + Rest(s) == s
    ensures First(Rest(s)).None?
    ensures SumSizes(Frames(s)) + |Rest(s)| == |s|
    decreases |s|
  {
    if First(s).None? {
    } else {
      var m := First(s).value;
      var t := s[m.TotalSize()..];
      Factors(t);
      FirstIsEncoded(s);
      EncodeCons(m, Frames(t));
      Assoc(EncodeFrame(m), Encode(Frames(t)), Rest(t));
    }
  }

  lemma EncodedIsFirst(m: RawMessage, t: seq<u8>)
    requires |m.data| < 0x1_0000_0000
    ensures First(EncodeFrame(m) + t) == Some(m)
    ensures (EncodeFrame(m) + t)[m.TotalSize()..] == t
  {
    var s := EncodeFrame(m) + t;
    assert s[1..5] == ToBe(|m.data|);
    assert s[5..5 + |m.data|] == m.data;
  }

  /** Decoding an encoding, followed by bytes that hold no complete frame, gives back
      the list and those bytes. */
  lemma {:induction false} DecodesEncoded(ms: seq<RawMessage>, t: seq<u8>)
    requires Encodable(ms) && First(t).None?
    ensures Frames(Encode(ms) + t) == ms && Rest(Encode(ms) + t) == t
    decreases |ms|
  {
    if ms == [] {
      assert Encode(ms) + t == t;
    } else {
      DecodesEncoded(ms[1..], t);
      EncodedIsFirst(ms[0], Encode(ms[1..]) + t);
      Assoc(EncodeFrame(ms[0]), Encode(ms[1..]), t);
    }
  }

  // ----- cutting a stream anywhere

  lemma FirstExtends(a: seq<u8>, b: seq<u8>)
    requires First(a).Some?
    ensures First(a + b) == First(a)
  {
    assert (a + b)[1..5] == a[1..5];
    var n := |First(a).value.data|;
    assert (a + b)[5..5 + n] == a[5..5 + n];
  }

  /** Decoding `a` first and then what is left of it together with `b` is the same as
      decoding `a + b` at once. */
  lemma {:induction false} Cut(a: seq<u8>, b: seq<u8>)
    ensures Frames(a + b) == Frames(a) + Frames(Rest(a) + b)
    ensures Rest(a + b) == Rest(Rest(a) + b)
    decreases |a|
  {
    if First(a).None? {
    } else {
      FirstExtends(a, b);
      var n := First(a).value.TotalSize();
      assert (a + b)[n..] == a[n..] + b;
      Cut(a[n..], b);
    }
  }

  // ----- the processor and whole runs

  /** Keep the frames the processor accepts, in order. */
  function Accepted<T>(f: RawMessage -> Option<T>, ms: seq<RawMessage>): seq<T> {
    if ms == [] then []
    else ToSeq(f(ms[0])) + Accepted(f, ms[1..])
  }

  function ToSeq<T>(o: Option<T>): seq<T> {
    match o case Some(x) => [x] case None => []
  }

  lemma {:induction false} AcceptedConcat<T>(f: RawMessage -> Option<T>, a: seq<RawMessage>, b: seq<RawMessage>)
    ensures Accepted(f, a + b) == Accepted(f, a) + Accepted(f, b)
    decreases |a|
  {
    if a == [] {
      assert a + b == b;
    } else {
      AcceptedConcat(f, a[1..], b);
      assert (a + b)[1..] == a[1..] + b;
      Assoc(ToSeq(f(a[0])), Accepted(f, a[1..]), Accepted(f, b));
    }
  }

  lemma {:induction false} AcceptedFit<T>(f: RawMessage -> Option<T>, ms: seq<RawMessage>)
    ensures |Accepted(f, ms)| <= |ms|
    decreases |ms|
  {
    if ms == [] {
    } else {
      AcceptedFit(f, ms[1..]);
    }
  }

  /** The wire format spelled out: a type byte, four length bytes with the most
      significant first, the data. */
  lemma WireFormat(tag: u8, a: u8, b: u8, c: u8, d: u8, rest: seq<u8>)
    ensures var n := a * 16_777_216 + b * 65_536 + c * 256 + d;
            First([tag, a, b, c, d] + rest) == if |rest| < n then None else Some(RawMessage(tag, rest[..n]))
  {
    var s := [tag, a, b, c, d] + rest;
    assert s[1..5] == [a, b, c, d];
    var n := a * 16_777_216 + b * 65_536 + c * 256 + d;
    if |rest| >= n { assert s[5..5 + n] == rest[..n]; }
  }
}
