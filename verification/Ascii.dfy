/** `validate_ascii`: the word-at-a-time scan for the first non-ASCII byte, as
    built for a 64-bit little-endian target. */
module Ascii {
  import opened Wrappers

  type byte = bv8
  const ASCII_MASK: bv64 := 0x8080_8080_8080_8080
  const ALU_ALIGNMENT: nat := 8
  const ALU_STRIDE_SIZE: nat := 16

  /** A little-endian load of eight bytes. */
  function Word(b: seq<byte>): bv64
    requires |b| == 8
  {
    (b[0] as bv64) | ((b[1] as bv64) << 8) | ((b[2] as bv64) << 16) | ((b[3] as bv64) << 24) |
    ((b[4] as bv64) << 32) | ((b[5] as bv64) << 40) | ((b[6] as bv64) << 48) | ((b[7] as bv64) << 56)
  }

  /** `trailing_zeros` of a nonzero word. */
  function TrailingZeros(w: bv64): nat
    requires w != 0
    decreases w
  {
    if w & 1 == 1 then 0 else HalfShrinks(w); 1 + TrailingZeros(w >> 1)
  }

  lemma HalfShrinks(w: bv64)
    requires w != 0 && w & 1 != 1
    ensures w >> 1 < w && w >> 1 != 0
  {}

  /** The position of the first non-ASCII byte, or the length. */
  ghost predicate FirstNonAscii(b: seq<byte>, i: int) {
    && 0 <= i <= |b|
    && (forall j :: 0 <= j < i ==> b[j] < 0x80)
    && (i < |b| ==> b[i] >= 0x80)
  }

  lemma ShiftTwo(w: bv64)
    requires w != 0 && w & 3 == 0
    ensures w >> 2 != 0 && TrailingZeros(w) == 2 + TrailingZeros(w >> 2)
  {
    assert w & 1 == 0 && (w >> 1) & 1 == 0 && (w >> 1) >> 1 == w >> 2;
  }

  lemma ShiftFour(w: bv64)
    requires w != 0 && w & 0xF == 0
    ensures w >> 4 != 0 && TrailingZeros(w) == 4 + TrailingZeros(w >> 4)
  {
    assert w & 3 == 0 && (w >> 2) & 3 == 0 && (w >> 2) >> 2 == w >> 4;
    ShiftTwo(w);
    ShiftTwo(w >> 2);
  }

  lemma ShiftByte(w: bv64)
    requires w != 0 && w & 0xFF == 0
    ensures w >> 8 != 0 && TrailingZeros(w) == 8 + TrailingZeros(w >> 8)
  {
    assert w & 0xF == 0 && (w >> 4) & 0xF == 0 && (w >> 4) >> 4 == w >> 8;
    ShiftFour(w);
    ShiftFour(w >> 4);
  }

  lemma HighBit(w: bv64)
    requires w & 0xFF == 0x80
    ensures w != 0 && TrailingZeros(w) == 7
  {
    assert w & 0xF == 0 && (w >> 4) & 3 == 0 && (w >> 6) & 3 == 2 && (w >> 4) >> 2 == w >> 6;
    ShiftFour(w);
    ShiftTwo(w >> 4);
    OddNext(w >> 6);
  }

  lemma OddNext(w: bv64)
    requires w & 3 == 2
    ensures w != 0 && TrailingZeros(w) == 1
  {
    assert w & 1 == 0 && (w >> 1) & 1 == 1;
  }

  /** Byte by byte, `m` has 0x80 where `bits` is true and zero elsewhere. */
  ghost predicate Encodes(m: bv64, bits: seq<bool>) {
    if bits == [] then m == 0
    else m & 0xFF == (if bits[0] then 0x80 else 0) && Encodes(m >> 8, bits[1..])
  }

  ghost predicate FirstTrue(bits: seq<bool>, i: int) {
    && 0 <= i <= |bits|
    && (forall j :: 0 <= j < i ==> !bits[j])
    && (i < |bits| ==> bits[i])
  }

  lemma {:induction false} CountsBytes(m: bv64, bits: seq<bool>, i: nat)
    requires Encodes(m, bits) && FirstTrue(bits, i)
    ensures m == 0 <==> i == |bits|
    ensures m != 0 ==> TrailingZeros(m) / 8 == i
  {
    if bits == [] {
    } else {
      if bits[0] {
        HighBit(m);
      } else {
        CountsBytes(m >> 8, bits[1..], i - 1);
        if m != 0 { ShiftByte(m); }
      }
    }
  }

  function HighBits(b: seq<byte>): (bits: seq<bool>)
    ensures |bits| == |b| && forall k :: 0 <= k < |b| ==> bits[k] == (b[k] >= 0x80)
  {
    seq(|b|, k requires 0 <= k < |b| => b[k] >= 0x80)
  }

  lemma MaskedBytes(b: seq<byte>, m: bv64)
    requires |b| == 8 && m == Word(b) & ASCII_MASK
    ensures m & 0xFF == (if b[0] >= 0x80 then 0x80 else 0)
    ensures (m >> 8) & 0xFF == (if b[1] >= 0x80 then 0x80 else 0)
    ensures (m >> 16) & 0xFF == (if b[2] >= 0x80 then 0x80 else 0)
    ensures (m >> 24) & 0xFF == (if b[3] >= 0x80 then 0x80 else 0)
    ensures (m >> 32) & 0xFF == (if b[4] >= 0x80 then 0x80 else 0)
    ensures (m >> 40) & 0xFF == (if b[5] >= 0x80 then 0x80 else 0)
    ensures (m >> 48) & 0xFF == (if b[6] >= 0x80 then 0x80 else 0)
    ensures (m >> 56) & 0xFF == (if b[7] >= 0x80 then 0x80 else 0)
  {}

  lemma ByteShifts(m: bv64)
    ensures (m >> 8) >> 8 == m >> 16 && (m >> 16) >> 8 == m >> 24 && (m >> 24) >> 8 == m >> 32
    ensures (m >> 32) >> 8 == m >> 40 && (m >> 40) >> 8 == m >> 48 && (m >> 48) >> 8 == m >> 56 && (m >> 56) >> 8 == 0
  {}

  lemma MaskEncodes(b: seq<byte>)
    requires |b| == 8
    ensures Encodes(Word(b) & ASCII_MASK, HighBits(b))
  {
    var m, s := Word(b) & ASCII_MASK, HighBits(b);
    MaskedBytes(b, m);
    ByteShifts(m);
    assert s[7..][1..] == [] && s[6..][1..] == s[7..] && s[5..][1..] == s[6..] && s[4..][1..] == s[5..];
    assert s[3..][1..] == s[4..] && s[2..][1..] == s[3..] && s[1..][1..] == s[2..] && s[0..] == s;
    assert Encodes(m >> 56, s[7..]);
    assert Encodes(m >> 48, s[6..]);
    assert Encodes(m >> 40, s[5..]);
    assert Encodes(m >> 32, s[4..]);
    assert Encodes(m >> 24, s[3..]);
    assert Encodes(m >> 16, s[2..]);
    assert Encodes(m >> 8, s[1..]);
  }

  /** The mask is zero exactly for ASCII words; otherwise the number of trailing
      zeros divided by eight is the position of the first non-ASCII byte. */
  lemma MaskFindsByte(b: seq<byte>, i: nat)
    requires |b| == 8 && FirstNonAscii(b, i)
    ensures Word(b) & ASCII_MASK == 0 <==> i == 8
    ensures Word(b) & ASCII_MASK != 0 ==> TrailingZeros(Word(b) & ASCII_MASK) / 8 == i
  {
    MaskEncodes(b);
    CountsBytes(Word(b) & ASCII_MASK, HighBits(b), i);
  }

  lemma {:induction false} FirstExists(b: seq<byte>) returns (i: nat)
    ensures FirstNonAscii(b, i)
  {
    if b == [] || b[0] >= 0x80 {
      i := 0;
    } else {
      i := FirstExists(b[1..]);
      i := i + 1;
    }
  }

  lemma Halves(b: seq<byte>, i: nat, j: nat)
    requires |b| == 16 && FirstNonAscii(b[..8], i) && FirstNonAscii(b[8..], j)
    ensures FirstNonAscii(b, if i < 8 then i else 8 + j)
  {
    assert forall k :: 0 <= k < 8 ==> b[..8][k] == b[k];
    assert forall k :: 8 <= k < 16 ==> b[k] == b[8..][k - 8];
  }

  lemma OrIsZero(x: bv64, y: bv64)
    ensures x | y == 0 <==> x == 0 && y == 0
  {}

  /** `find_non_ascii` on two consecutive words. */
  method FindNonAscii(b: seq<byte>) returns (r: Option<nat>)
    requires |b| == ALU_STRIDE_SIZE
    ensures FirstNonAscii(b, if r.Some? then r.value else 16)
    ensures r.Some? ==> r.value < 16
  {
    var low, high := b[..8], b[8..];
    var word, second := Word(low) & ASCII_MASK, Word(high) & ASCII_MASK;
    ghost var i := FirstExists(low);
    ghost var j := FirstExists(high);
    MaskFindsByte(low, i);
    MaskFindsByte(high, j);
    Halves(b, i, j);
    OrIsZero(word, second);
    if word | second == 0 {
      return None;
    }
    if word != 0 {
      return Some(TrailingZeros(word) / 8);
    }
    return Some(ALU_ALIGNMENT + TrailingZeros(second) / 8);
  }

  /** `validate_ascii`: a byte loop up to the first aligned address, two words at a
      time in the middle, and a byte loop at the end.  The alignment of the slice
      decides only how the work is split. */
  method ValidateAscii(slice: seq<byte>, address: nat) returns (r: Option<(byte, nat)>)
    ensures r.None? ==> FirstNonAscii(slice, |slice|)
    ensures r.Some? ==> r.value.1 < |slice| && FirstNonAscii(slice, r.value.1) && r.value.0 == slice[r.value.1]
  {
    var len := |slice|;
    var offset := 0;
    var untilAlignment := (ALU_ALIGNMENT - address % ALU_ALIGNMENT) % ALU_ALIGNMENT;
    if untilAlignment + ALU_STRIDE_SIZE <= len {
      while untilAlignment != 0
        invariant 0 <= untilAlignment && offset + untilAlignment + ALU_STRIDE_SIZE <= len
        invariant forall j :: 0 <= j < offset ==> slice[j] < 0x80
      {
        if slice[offset] > 127 {
          return Some((slice[offset], offset));
        }
        offset := offset + 1;
        untilAlignment := untilAlignment - 1;
      }
      var lenMinusStride := len - ALU_STRIDE_SIZE;
      while true
        invariant offset <= lenMinusStride
        invariant forall j :: 0 <= j < offset ==> slice[j] < 0x80
        decreases len - offset
      {
        var stride := slice[offset..offset + ALU_STRIDE_SIZE];
        var found := FindNonAscii(stride);
        assert forall k :: offset <= k < offset + 16 ==> slice[k] == stride[k - offset];
        if found.Some? {
          return Some((slice[offset + found.value], offset + found.value));
        }
        offset := offset + ALU_STRIDE_SIZE;
        if offset > lenMinusStride {
          break;
        }
      }
    }
    while offset < len
      invariant offset <= len
      invariant forall j :: 0 <= j < offset ==> slice[j] < 0x80
    {
      if slice[offset] > 127 {
        return Some((slice[offset], offset));
      }
      offset := offset + 1;
    }
    return None;
  }
}