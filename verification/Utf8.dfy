/** The fast UTF-8 validator, proved against the grammar of section 4 of RFC 3629. */
module Utf8 {
  import opened Wrappers
  import opened Ascii

  // ----- the grammar

  predicate Tail(b: byte) { 0x80 <= b <= 0xBF }

  predicate Char2(a: byte, b: byte) { 0xC2 <= a <= 0xDF && Tail(b) }

  predicate Char3(a: byte, b: byte, c: byte) {
    || (a == 0xE0 && 0xA0 <= b <= 0xBF && Tail(c))
    || (0xE1 <= a <= 0xEC && Tail(b) && Tail(c))
    || (a == 0xED && 0x80 <= b <= 0x9F && Tail(c))
    || (0xEE <= a <= 0xEF && Tail(b) && Tail(c))
  }

  predicate Char4(a: byte, b: byte, c: byte, d: byte) {
    || (a == 0xF0 && 0x90 <= b <= 0xBF && Tail(c) && Tail(d))
    || (0xF1 <= a <= 0xF3 && Tail(b) && Tail(c) && Tail(d))
    || (a == 0xF4 && 0x80 <= b <= 0x8F && Tail(c) && Tail(d))
  }

  /** `UTF8-char`. */
  predicate Utf8Char(s: seq<byte>) {
    || (|s| == 1 && s[0] <= 0x7F)
    || (|s| == 2 && Char2(s[0], s[1]))
    || (|s| == 3 && Char3(s[0], s[1], s[2]))
    || (|s| == 4 && Char4(s[0], s[1], s[2], s[3]))
  }

  /** `UTF8-octets`: a concatenation of characters. */
  ghost predicate WellFormed(s: seq<byte>)
    decreases |s|
  {
    s == [] || exists n :: 1 <= n <= |s| && Utf8Char(s[..n]) && WellFormed(s[n..])
  }

  // ----- characters are found without choice

  /** Length of the character that starts at `i`, or zero when there is none. */
  function CharLen(s: seq<byte>, i: nat): (n: nat)
    requires i <= |s|
    ensures n <= 4 && i + n <= |s|
    ensures n > 0 ==> Utf8Char(s[i..i + n])
  {
    if i < |s| && s[i] <= 0x7F then 1
    else if i + 2 <= |s| && Char2(s[i], s[i + 1]) then 2
    else if i + 3 <= |s| && Char3(s[i], s[i + 1], s[i + 2]) then 3
    else if i + 4 <= |s| && Char4(s[i], s[i + 1], s[i + 2], s[i + 3]) then 4
    else 0
  }

  /** A position starts at most one character: no character is a prefix of another. */
  lemma CharUnique(s: seq<byte>, i: nat, m: nat)
    requires i + m <= |s| && Utf8Char(s[i..i + m])
    ensures CharLen(s, i) == m
  {
    var t := s[i..i + m];
    assert t[0] == s[i];
    if m >= 2 { assert t[1] == s[i + 1]; }
    if m >= 3 { assert t[2] == s[i + 2]; }
    if m >= 4 { assert t[3] == s[i + 3]; }
  }

  /** Reading characters from `i` on, the position where that stops. */
  function ValidUpTo(s: seq<byte>, i: nat): (n: nat)
    requires i <= |s|
    ensures i <= n <= |s|
    decreases |s| - i
  {
    if CharLen(s, i) == 0 then i else ValidUpTo(s, i + CharLen(s, i))
  }

  lemma Slices(s: seq<byte>, i: nat, n: nat, m: nat)
    requires i + n <= m <= |s|
    ensures s[i..m][..n] == s[i..i + n] && s[i..m][n..] == s[i + n..m]
  {}

  lemma {:induction false} PrefixWellFormed(s: seq<byte>, i: nat)
    requires i <= |s|
    ensures WellFormed(s[i..ValidUpTo(s, i)])
    decreases |s| - i
  {
    var n, end := CharLen(s, i), ValidUpTo(s, i);
    if n > 0 {
      PrefixWellFormed(s, i + n);
      Slices(s, i, n, end);
    } else {
      assert s[i..end] == [];
    }
  }

  lemma FirstChar(t: seq<byte>) returns (n: nat)
    requires WellFormed(t) && t != []
    ensures 1 <= n <= |t| && Utf8Char(t[..n]) && WellFormed(t[n..])
  {
    n :| 1 <= n <= |t| && Utf8Char(t[..n]) && WellFormed(t[n..]);
  }

  /** No well-formed stretch from `i` reaches beyond the stopping position. */
  lemma {:induction false} PrefixMaximal(s: seq<byte>, i: nat, m: nat)
    requires i <= m <= |s| && WellFormed(s[i..m])
    ensures m <= ValidUpTo(s, i)
    decreases |s| - i
  {
    if i == m {
    } else {
      var t := s[i..m];
      var n := FirstChar(t);
      Slices(s, i, n, m);
      CharUnique(s, i, n);
      PrefixMaximal(s, i + n, m);
    }
  }

  // ----- the table and the range test

  /** `UTF8_DATA.table`, 384 masks written as runs of equal entries: what a second
      byte may not be combined with, then what each lead byte forbids. */
  function Utf8Data(i: bv16): bv8
    requires i < 384
  {
    if i < 0x80 then 252
    else if i < 0x90 then 84
    else if i < 0xA0 then 148
    else if i < 0xC0 then 164
    else if i < 0x100 then 252
    else if i < 0x142 then 4
    else if i < 0x160 then 8
    else if i < 0x161 then 16
    else if i < 0x16D then 8
    else if i < 0x16E then 32
    else if i < 0x170 then 8
    else if i < 0x171 then 64
    else if i < 0x174 then 8
    else if i < 0x175 then 128
    else 4
  }

  /** `in_inclusive_range8`: one wrapping subtraction and one comparison. */
  predicate InInclusiveRange8(i: byte, start: byte, end: byte) { i - start <= end - start }

  /** The ranges the validator tests for. */
  lemma RangeTests(i: byte)
    ensures InInclusiveRange8(i, 0xC2, 0xDF) <==> 0xC2 <= i <= 0xDF
    ensures InInclusiveRange8(i, 0x80, 0xBF) <==> Tail(i)
    ensures InInclusiveRange8(i, 0xE0, 0xEF) <==> 0xE0 <= i <= 0xEF
  {}

  /** The three-byte test on a lead byte below 0xF0 that is not a two-byte lead. */
  predicate Masked3(a: byte, b: byte, c: byte)
    requires 0x80 <= a
  {
    (Utf8Data(b as bv16) & Utf8Data(a as bv16 + 0x80)) | (c >> 6) == 2
  }

  /** The four-byte test, widened to sixteen bits as in the code. */
  predicate Masked4(a: byte, b: byte, c: byte, d: byte)
    requires 0x80 <= a
  {
    ((Utf8Data(b as bv16) & Utf8Data(a as bv16 + 0x80)) as bv16) | ((c >> 6) as bv16) |
    (((d & 0xC0) as bv16) << 2) == 0x202
  }

  lemma Masks3(a: byte, b: byte, c: byte)
    requires 0x80 <= a < 0xF0 && !(0xC2 <= a <= 0xDF)
    ensures Masked3(a, b, c) <==> Char3(a, b, c)
  {}

  lemma Masks4(a: byte, b: byte, c: byte, d: byte)
    requires 0xF0 <= a
    ensures Masked4(a, b, c, d) <==> Char4(a, b, c, d)
  {}

  // ----- the validator

  /** `n` is the length of the longest well-formed prefix. */
  ghost predicate LongestPrefix(s: seq<byte>, n: nat) {
    && n <= |s|
    && WellFormed(s[..n])
    && forall m :: n < m <= |s| ==> !WellFormed(s[..m])
  }

  lemma StopsAtLongest(s: seq<byte>)
    ensures LongestPrefix(s, ValidUpTo(s, 0))
    ensures ValidUpTo(s, 0) < |s| ==> forall m :: ValidUpTo(s, 0) < m <= |s| ==> !WellFormed(s[ValidUpTo(s, 0)..m])
  {
    var n := ValidUpTo(s, 0);
    PrefixWellFormed(s, 0);
    assert s[0..n] == s[..n];
    forall m | n < m <= |s| ensures !WellFormed(s[..m]) {
      assert s[0..m] == s[..m];
      if WellFormed(s[..m]) { PrefixMaximal(s, 0, m); }
    }
    StopIsFixed(s, 0);
    forall m | n < m <= |s| ensures !WellFormed(s[n..m]) {
      if WellFormed(s[n..m]) { PrefixMaximal(s, n, m); }
    }
  }

  lemma {:induction false} StopIsFixed(s: seq<byte>, i: nat)
    requires i <= |s|
    ensures ValidUpTo(s, ValidUpTo(s, i)) == ValidUpTo(s, i)
    decreases |s| - i
  {
    if CharLen(s, i) == 0 {
    } else {
      StopIsFixed(s, i + CharLen(s, i));
    }
  }

  /** `stop[i]` records where reading from `i` ends.  The scan below carries such a
      record so that its proof speaks of single positions only. */
  ghost predicate IsStops(s: seq<byte>, stop: seq<nat>) {
    |stop| == |s| + 1 && forall i {:trigger StopsAt(s, stop, i)} :: 0 <= i <= |s| ==> StopsAt(s, stop, i)
  }

  ghost predicate StopsAt(s: seq<byte>, stop: seq<nat>, i: nat)
    requires i <= |s| && |stop| == |s| + 1
  {
    stop[i] == ValidUpTo(s, i)
  }

  lemma MakeStops(s: seq<byte>) returns (stop: seq<nat>)
    ensures IsStops(s, stop) && stop[|s|] == |s|
    ensures LongestPrefix(s, stop[0])
  {
    stop := seq(|s| + 1, i requires 0 <= i <= |s| => ValidUpTo(s, i));
    StopsAtLongest(s);
  }

  lemma {:induction false} SkipAscii(s: seq<byte>, stop: seq<nat>, i: nat, j: nat)
    requires IsStops(s, stop)
    requires i <= j <= |s| && forall k :: i <= k < j ==> s[k] < 0x80
    ensures stop[i] == stop[j]
    decreases j - i
  {
    if i == j {
    } else {
      SkipAscii(s, stop, i + 1, j);
      assert StopsAt(s, stop, i) && StopsAt(s, stop, i + 1);
    }
  }

  lemma Lead2(s: seq<byte>, stop: seq<nat>, i: nat)
    requires IsStops(s, stop) && i < |s| && 0xC2 <= s[i] <= 0xDF
    ensures stop[i] == if i + 2 <= |s| && Tail(s[i + 1]) then stop[i + 2] else i
  {
    assert StopsAt(s, stop, i);
    if i + 2 <= |s| { assert StopsAt(s, stop, i + 2); }
  }

  lemma Lead3(s: seq<byte>, stop: seq<nat>, i: nat)
    requires IsStops(s, stop) && i < |s| && 0x80 <= s[i] < 0xF0 && !(0xC2 <= s[i] <= 0xDF)
    ensures stop[i] == if i + 3 <= |s| && Char3(s[i], s[i + 1], s[i + 2]) then stop[i + 3] else i
  {
    assert StopsAt(s, stop, i);
    if i + 3 <= |s| { assert StopsAt(s, stop, i + 3); }
  }

  lemma Lead4(s: seq<byte>, stop: seq<nat>, i: nat)
    requires IsStops(s, stop) && i < |s| && 0xF0 <= s[i]
    ensures stop[i] ==
            if i + 4 <= |s| && Char4(s[i], s[i + 1], s[i + 2], s[i + 3]) then stop[i + 4] else i
  {
    assert StopsAt(s, stop, i);
    if i + 4 <= |s| { assert StopsAt(s, stop, i + 4); }
  }

  method IsTwoByteLead(b: byte) returns (r: bool)
    ensures r <==> 0xC2 <= b <= 0xDF
  {
    RangeTests(b);
    r := InInclusiveRange8(b, 0xC2, 0xDF);
  }

  method IsThreeByteLead(b: byte) returns (r: bool)
    ensures r <==> 0xE0 <= b <= 0xEF
  {
    RangeTests(b);
    r := InInclusiveRange8(b, 0xE0, 0xEF);
  }

  method IsTail(b: byte) returns (r: bool)
    ensures r <==> Tail(b)
  {
    RangeTests(b);
    r := InInclusiveRange8(b, 0x80, 0xBF);
  }

  method PassesMask3(a: byte, b: byte, c: byte) returns (r: bool)
    requires 0x80 <= a < 0xF0 && !(0xC2 <= a <= 0xDF)
    ensures r <==> Char3(a, b, c)
  {
    Masks3(a, b, c);
    r := Masked3(a, b, c);
  }

  method PassesMask4(a: byte, b: byte, c: byte, d: byte) returns (r: bool)
    requires 0xF0 <= a
    ensures r <==> Char4(a, b, c, d)
  {
    Masks4(a, b, c, d);
    r := Masked4(a, b, c, d);
  }

  /** The call of `validate_ascii` on the remaining bytes. */
  method ScanAscii(src: seq<byte>, read: nat, address: nat, ghost stop: seq<nat>) returns (r: Option<(byte, nat)>)
    requires read <= |src| && IsStops(src, stop)
    ensures r.None? ==> stop[read] == stop[|src|]
    ensures r.Some? ==> read + r.value.1 < |src| && r.value.0 == src[read + r.value.1] >= 0x80
    ensures r.Some? ==> stop[read] == stop[read + r.value.1]
  {
    r := ValidateAscii(src[read..], address + read);
    assert forall k :: read <= k < |src| ==> src[k] == src[read..][k - read];
    SkipAscii(src, stop, read, if r.None? then |src| else read + r.value.1);
  }

  /** The last loop: fewer than four bytes remain, so there is no four-byte
      character, and at most one three-byte character. */
  method ScanTail(src: seq<byte>, start: nat, ghost stop: seq<nat>) returns (read: nat)
    requires start <= |src| < start + 4 && IsStops(src, stop) && stop[|src|] == |src|
    ensures read == stop[start]
  {
    read := start;
    label tail:
    while true
      invariant |src| < read + 4 && read <= |src|
      invariant stop[read] == stop[start]
      decreases |src| - read
    {
      if read >= |src| {
        break tail;
      }
      var b := src[read];
      if b < 0x80 {
        SkipAscii(src, stop, read, read + 1);
        read := read + 1;
        continue tail;
      }
      var two := IsTwoByteLead(b);
      if two {
        Lead2(src, stop, read);
        if read + 2 > |src| {
          break tail;
        }
        var ok := IsTail(src[read + 1]);
        if !ok {
          break tail;
        }
        read := read + 2;
        continue tail;
      }
      if b < 0xF0 {
        Lead3(src, stop, read);
        if read + 3 > |src| {
          break tail;
        }
        var ok := PassesMask3(b, src[read + 1], src[read + 2]);
        if !ok {
          break tail;
        }
        read := read + 3;
        break tail;
      }
      Lead4(src, stop, read);
      break tail;
    }
  }

  /** `utf8_valid_up_to`: four nested loops over leads of the same width, each
      reading ahead only while four bytes remain, and a tail loop for the rest.
      `address` is where the bytes lie in memory. */
  method Utf8ValidUpTo(src: seq<byte>, address: nat) returns (read: nat)
    ensures LongestPrefix(src, read)
  {
    ghost var stop := MakeStops(src);
    read := 0;
    label outer:
    while true
      invariant read <= |src| && stop[read] == stop[0]
      decreases |src| - read
    {
      var scan := ScanAscii(src, read, address, stop);
      if scan.None? {
        return |src|;
      }
      var b := scan.value.0;
      read := read + scan.value.1;
      if read + 4 <= |src| {
        label inner:
        while true
          invariant read + 4 <= |src| && b == src[read] && b >= 0x80
          invariant stop[read] == stop[0]
          decreases |src| - read
        {
          var two := IsTwoByteLead(b);
          if two {
            Lead2(src, stop, read);
            var ok := IsTail(src[read + 1]);
            if !ok {
              break outer;
            }
            read := read + 2;
            if read + 4 <= |src| {
              b := src[read];
              if b < 0x80 {
                SkipAscii(src, stop, read, read + 1);
                read := read + 1;
                continue outer;
              }
              continue inner;
            }
            break inner;
          }
          if b < 0xF0 {
            label three:
            while true
              invariant read + 4 <= |src| && b == src[read] && 0x80 <= b < 0xF0 && !(0xC2 <= b <= 0xDF)
              invariant stop[read] == stop[0]
              decreases |src| - read
            {
              Lead3(src, stop, read);
              var ok := PassesMask3(b, src[read + 1], src[read + 2]);
              if !ok {
                break outer;
              }
              read := read + 3;
              if read + 4 <= |src| {
                b := src[read];
                var again := IsThreeByteLead(b);
                if again {
                  continue three;
                }
                if b < 0x80 {
                  SkipAscii(src, stop, read, read + 1);
                  read := read + 1;
                  continue outer;
                }
                continue inner;
              }
              break inner;
            }
          }
          Lead4(src, stop, read);
          var ok := PassesMask4(b, src[read + 1], src[read + 2], src[read + 3]);
          if !ok {
            break outer;
          }
          read := read + 4;
          if read + 4 <= |src| {
            b := src[read];
            if b < 0x80 {
              SkipAscii(src, stop, read, read + 1);
              read := read + 1;
              continue outer;
            }
            continue inner;
          }
          break inner;
        }
      }
      read := ScanTail(src, read, stop);
      break outer;
    }
  }

  /** The longest well-formed prefix is unique, and nothing after it can start with
      another character. */
  lemma LongestIsStop(s: seq<byte>, n: nat)
    requires LongestPrefix(s, n)
    ensures n == ValidUpTo(s, 0)
    ensures n == |s| <==> WellFormed(s)
    ensures n < |s| ==> ValidUpTo(s[n..], 0) == 0 && !WellFormed(s[n..])
  {
    StopsAtLongest(s);
    assert s[..|s|] == s;
    if n < |s| {
      var t := s[n..];
      StopsAtLongest(t);
      assert s[n..|s|] == t;
      var k := ValidUpTo(t, 0);
      assert t[..k] == s[n..n + k];
    }
  }

  method IsValidUtf8(v: seq<byte>, address: nat) returns (r: bool)
    ensures r <==> WellFormed(v)
  {
    var n := Utf8ValidUpTo(v, address);
    LongestIsStop(v, n);
    r := n == |v|;
  }

  datatype Utf8Error = Utf8Error(validUpTo: nat, errorLen: Option<nat>)

  /** The standard library's `from_utf8`: accepts exactly the well-formed strings and
      otherwise reports the longest well-formed prefix.  `errorLen` is how it judges
      the bytes that follow that prefix. */
  function FromUtf8(errorLen: seq<byte> -> Option<nat>, v: seq<byte>): (r: Result<(), Utf8Error>)
    ensures r.Ok? <==> WellFormed(v)
    ensures r.Err? ==>
              var n := r.error.validUpTo;
              LongestPrefix(v, n) && n < |v| && r.error.errorLen == errorLen(v[n..])
  {
    StopsAtLongest(v);
    LongestIsStop(v, ValidUpTo(v, 0));
    var n := ValidUpTo(v, 0);
    if n == |v| then Ok(()) else Err(Utf8Error(n, errorLen(v[n..])))
  }

  /** `validate_utf8`: validates fast and asks the library only about the rejected
      suffix.  The result is what the library would say about the whole input; the
      branch in which the library accepts the suffix is never taken. */
  method ValidateUtf8(errorLen: seq<byte> -> Option<nat>, v: seq<byte>, address: nat)
    returns (r: Result<(), Utf8Error>)
    ensures r == FromUtf8(errorLen, v)
    ensures r.Ok? <==> WellFormed(v)
    ensures r.Err? ==>
              var n := r.error.validUpTo;
              LongestPrefix(v, n) && n < |v| && r.error.errorLen == errorLen(v[n..])
  {
    var index := Utf8ValidUpTo(v, address);
    LongestIsStop(v, index);
    if index == |v| {
      return Ok(());
    }
    match FromUtf8(errorLen, v[index..])
    case Ok(_) => assert false;
    case Err(e) =>
      assert v[index..][0..] == v[index..];
      return Err(Utf8Error(index, e.errorLen));
  }
}
