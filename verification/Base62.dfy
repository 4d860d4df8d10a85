/** The fixed-length base-62 codec for 128-bit ids.  Division by 62^10 is replaced by a
    multiplication with a precomputed reciprocal. */
module Base62 {
  import opened Wrappers
  import opened IntMath

  const TWO_64: int := 0x1_0000_0000_0000_0000
  const TWO_128: int := 0x1_0000_0000_0000_0000_0000_0000_0000_0000
  const TWO_59: int := 0x800_0000_0000_0000

  type u8 = x: int | 0 <= x < 256
  type u64 = x: int | 0 <= x < TWO_64
  type u128 = x: int | 0 <= x < TWO_128

  const BASE: int := 62
  const BASE62_LEN: nat := 22
  const BASE_TO_10: int := 839_299_365_868_340_224
  const DIV_BASE_TO_10_MULTIPLY: u128 := 233_718_071_534_448_225_491_982_379_416_108_680_074

  // ----- the high half of a 128-bit product

  /** Four 64-bit products and one carry; every intermediate fits in 128 bits. */
  function Mulh(x: u128, y: u128): (r: u128)
    ensures r == x * y / TWO_128
  {
    HalvesFit(x, y);
    var z0: u128 := (x % TWO_64) * (y % TWO_64);
    var z1: u128 := (x % TWO_64) * (y / TWO_64);
    var z2: u128 := (x / TWO_64) * (y % TWO_64);
    var z3: u128 := (x / TWO_64) * (y / TWO_64);
    var carry: u128 := z0 / TWO_64 + z1 % TWO_64 + z2 % TWO_64;
    MulhExact(x, y, z0, z1, z2, z3, carry);
    z3 + z1 / TWO_64 + z2 / TWO_64 + carry / TWO_64
  }

  lemma ProductBelow(a: int, b: int)
    requires 0 <= a < TWO_64 && 0 <= b < TWO_64
    ensures 0 <= a * b <= (TWO_64 - 1) * (TWO_64 - 1)
  {
    MulMono2(a, b, TWO_64 - 1, TWO_64 - 1);
  }

  lemma HalvesFit(x: u128, y: u128)
    ensures 0 <= (x % TWO_64) * (y % TWO_64) < TWO_128 && 0 <= (x % TWO_64) * (y / TWO_64) < TWO_128
    ensures 0 <= (x / TWO_64) * (y % TWO_64) < TWO_128 && 0 <= (x / TWO_64) * (y / TWO_64) < TWO_128
  {
    ProductBelow(x % TWO_64, y % TWO_64);
    ProductBelow(x % TWO_64, y / TWO_64);
    ProductBelow(x / TWO_64, y % TWO_64);
    ProductBelow(x / TWO_64, y / TWO_64);
  }

  lemma Expand(xh: int, xl: int, yh: int, yl: int, w: int)
    ensures (xh * w + xl) * (yh * w + yl) == xh * yh * (w * w) + (xh * yl + xl * yh) * w + xl * yl
  {
    calc {
      (xh * w + xl) * (yh * w + yl);
      xh * w * (yh * w + yl) + xl * (yh * w + yl);
      xh * w * (yh * w) + xh * w * yl + xl * (yh * w) + xl * yl;
      xh * yh * (w * w) + (xh * yl + xl * yh) * w + xl * yl;
    }
  }

  lemma MulhExact(x: u128, y: u128, z0: int, z1: int, z2: int, z3: int, carry: int)
    requires z0 == (x % TWO_64) * (y % TWO_64) && z1 == (x % TWO_64) * (y / TWO_64)
    requires z2 == (x / TWO_64) * (y % TWO_64) && z3 == (x / TWO_64) * (y / TWO_64)
    requires carry == z0 / TWO_64 + z1 % TWO_64 + z2 % TWO_64
    ensures z3 + z1 / TWO_64 + z2 / TWO_64 + carry / TWO_64 == x * y / TWO_128 < TWO_128
  {
    MulMono2(x, y, TWO_128 - 1, TWO_128 - 1);
    Expand(x / TWO_64, x % TWO_64, y / TWO_64, y % TWO_64, TWO_64);
    assert x * y == z3 * TWO_128 + (z1 + z2) * TWO_64 + z0;
    FloorUnique(x * y, TWO_128, z3 + z1 / TWO_64 + z2 / TWO_64 + carry / TWO_64, carry % TWO_64 * TWO_64 + z0 % TWO_64);
  }

  // ----- division by multiplication

  /** The reciprocal exceeds 2^187 / 62^10 by so little that the error never reaches the
      quotient of a 128-bit number. */
  const EXCESS: int := 134_545_834_300_418_048

  lemma Reciprocal()
    ensures DIV_BASE_TO_10_MULTIPLY * BASE_TO_10 == TWO_128 * TWO_59 + EXCESS
    ensures EXCESS < TWO_59
  {}

  lemma NestedFloor(v: nat, a: nat, b: nat)
    requires a > 0 && b > 0
    ensures a * b > 0 && v / a / b == v / (a * b)
  {
    QuotQuot(v, a, b);
  }

  /** With b * m = w + e: the product n * m, in units of w, is the exact quotient n / b
      as long as n * e stays below w. */
  lemma ReciprocalDivides(n: nat, b: nat, m: nat, w: nat, e: nat)
    requires b > 0 && w > 0 && b * m == w + e && n * e < w
    ensures n * m / w == n / b
  {
    var q, r := n / b, n % b;
    NatDiv(n, b);
    var t := r * w + n * e;
    assert b * (n * m) == b * (q * w) + t by { Spread(n, b, m, w, e, q, r); }
    assert b * (n * m - q * w) == t;
    assert 0 <= t < b * w by {
      MulMono(w, r, b - 1);
      assert w * (b - 1) == b * w - w && r * w == w * r;
    }
    Within(b, n * m - q * w, w);
    assert n * m == w * q + (n * m - q * w);
    FloorUnique(n * m, w, q, n * m - q * w);
  }

  lemma Spread(n: nat, b: nat, m: nat, w: nat, e: nat, q: nat, r: nat)
    requires b * m == w + e && n == b * q + r
    ensures b * (n * m) == b * (q * w) + (r * w + n * e)
  {
    calc {
      b * (n * m);
      n * (b * m);
      n * w + n * e;
      (b * q + r) * w + n * e;
      b * q * w + r * w + n * e;
      b * (q * w) + (r * w + n * e);
    }
  }

  lemma Within(b: nat, x: int, w: nat)
    requires b > 0 && 0 <= b * x < b * w
    ensures 0 <= x < w
  {
    if x < 0 { MulMono(b, x, -1); }
    if x >= w { MulMono(b, w, x); }
  }

  /** `fast_div_base_to_10` is exact for every 128-bit number. */
  function FastDivBaseTo10(n: u128): (r: (u128, u64))
    ensures r.0 == n / BASE_TO_10 && r.1 == n % BASE_TO_10
  {
    var high := Mulh(n, DIV_BASE_TO_10_MULTIPLY);
    var quotient := high / TWO_59;
    FastQuotient(n);
    (quotient, n - quotient * BASE_TO_10)
  }

  lemma FastQuotient(n: u128)
    ensures n * DIV_BASE_TO_10_MULTIPLY / TWO_128 / TWO_59 == n / BASE_TO_10
    ensures n - n / BASE_TO_10 * BASE_TO_10 == n % BASE_TO_10
  {
    Reciprocal();
    MulMono2(n, EXCESS, TWO_128, EXCESS);
    ReciprocalDivides(n, BASE_TO_10, DIV_BASE_TO_10_MULTIPLY, TWO_128 * TWO_59, EXCESS);
    NestedFloor(n * DIV_BASE_TO_10_MULTIPLY, TWO_128, TWO_59);
  }

  // ----- digits

  /** `CHARSET`: 0-9, then A-Z, then a-z. */
  function CharOf(digit: nat): u8
    requires digit < 62
  {
    if digit < 10 then 48 + digit else if digit < 36 then 65 + (digit - 10) else 97 + (digit - 36)
  }

  /** `DECODE_LUT`: the digit of a character, or nothing. */
  function DigitOf(byte: u8): (d: Option<nat>)
    ensures d.Some? ==> d.value < 62 && CharOf(d.value) == byte
    ensures forall k: nat :: k < 62 && CharOf(k) == byte ==> d == Some(k)
  {
    if 48 <= byte <= 57 then Some(byte - 48)
    else if 65 <= byte <= 90 then Some(byte - 65 + 10)
    else if 97 <= byte <= 122 then Some(byte - 97 + 36)
    else None
  }

  predicate Digits(s: seq<u8>) { forall i :: 0 <= i < |s| ==> DigitOf(s[i]).Some? }

  /** The number that a string of digits denotes. */
  function ValueOf(s: seq<u8>): nat
    requires Digits(s)
  {
    if s == [] then 0 else ValueOf(s[..|s| - 1]) * 62 + DigitOf(s[|s| - 1]).value
  }

  function Power(n: nat): nat { if n == 0 then 1 else 62 * Power(n - 1) }

  /** The last `n` digits of a number. */
  function DigitsOf(num: nat, n: nat): (s: seq<u8>)
    ensures |s| == n && Digits(s)
    decreases n
  {
    if n == 0 then [] else DigitsOf(num / 62, n - 1) + [CharOf(num % 62)]
  }

  lemma Tens()
    ensures Power(2) == 3844 && Power(10) == BASE_TO_10
  {
    assert Power(1) == 62 && Power(2) == 3_844 && Power(3) == 238_328;
    assert Power(4) == 14_776_336 && Power(5) == 916_132_832 && Power(6) == 56_800_235_584;
    assert Power(7) == 3_521_614_606_208 && Power(8) == 218_340_105_584_896;
    assert Power(9) == 13_537_086_546_263_552;
  }

  lemma {:induction false} DigitsDenote(num: nat, n: nat)
    requires num < Power(n)
    ensures ValueOf(DigitsOf(num, n)) == num
    decreases n
  {
    if n == 0 {
    } else {
      DigitsDenote(num / 62, n - 1);
      var s := DigitsOf(num, n);
      assert s[..n - 1] == DigitsOf(num / 62, n - 1);
    }
  }

  /** Digit strings of a fixed length denote different numbers. */
  lemma {:induction false} DigitsUnique(s: seq<u8>)
    requires Digits(s)
    ensures DigitsOf(ValueOf(s), |s|) == s
    decreases |s|
  {
    if s == [] {
    } else {
      var init, d := s[..|s| - 1], DigitOf(s[|s| - 1]).value;
      DigitsUnique(init);
      assert ValueOf(s) / 62 == ValueOf(init) && ValueOf(s) % 62 == d;
      assert s == init + [s[|s| - 1]];
    }
  }

  lemma Horner(v: nat, p: nat, w: nat, d: nat)
    ensures (v * p + w) * 62 + d == v * (62 * p) + (w * 62 + d)
  {
    assert (v * p + w) * 62 == v * p * 62 + w * 62;
    assert v * p * 62 == v * (62 * p);
  }

  lemma {:induction false} ValueConcat(a: seq<u8>, b: seq<u8>)
    requires Digits(a) && Digits(b)
    ensures Digits(a + b) && ValueOf(a + b) == ValueOf(a) * Power(|b|) + ValueOf(b)
    decreases |b|
  {
    if b == [] {
      assert a + b == a;
    } else {
      var init := b[..|b| - 1];
      ValueConcat(a, init);
      assert (a + b)[..|a + b| - 1] == a + init;
      Horner(ValueOf(a), Power(|init|), ValueOf(init), DigitOf(b[|b| - 1]).value);
    }
  }

  // ----- encoding in place

  /** `encode_u64_chunk`: fills `len` cells from the right. */
  method EncodeChunk(number: u64, len: nat, buf: array<u8>, at: nat)
    requires at + len <= buf.Length
    modifies buf
    ensures buf[..] == old(buf[..])[..at] + DigitsOf(number, len) + old(buf[..])[at + len..]
  {
    var num := number;
    var i := len;
    while i > 0
      invariant 0 <= i <= len
      invariant buf[..at] == old(buf[..at]) && buf[at + len..] == old(buf[at + len..])
      invariant DigitsOf(number, len) == DigitsOf(num, i) + buf[at + i..at + len]
    {
      i := i - 1;
      buf[at + i] := CharOf(num % 62);
      assert buf[at + i..at + len] == [CharOf(num % 62)] + buf[at + i + 1..at + len];
      num := num / 62;
    }
    assert buf[..] == buf[..at] + buf[at..at + len] + buf[at + len..];
  }

  lemma ThreeParts(a: seq<u8>, b: seq<u8>, c: seq<u8>)
    requires Digits(a) && Digits(b) && Digits(c)
    ensures Digits(a + b + c)
    ensures ValueOf(a + b + c) == (ValueOf(a) * Power(|b|) + ValueOf(b)) * Power(|c|) + ValueOf(c)
  {
    ValueConcat(a, b);
    ValueConcat(a + b, c);
  }

  /** Three chunks of two, ten and ten digits make up the number. */
  lemma ChunksDenote(n: u128)
    ensures var q := n / BASE_TO_10;
            var s := DigitsOf(q / BASE_TO_10, 2) + DigitsOf(q % BASE_TO_10, 10) + DigitsOf(n % BASE_TO_10, 10);
            |s| == 22 && Digits(s) && ValueOf(s) == n
  {
    var q := n / BASE_TO_10;
    var high, mid, low := q / BASE_TO_10, q % BASE_TO_10, n % BASE_TO_10;
    Tens();
    DigitsDenote(high, 2);
    DigitsDenote(mid, 10);
    DigitsDenote(low, 10);
    ThreeParts(DigitsOf(high, 2), DigitsOf(mid, 10), DigitsOf(low, 10));
  }

  lemma Join(b0: seq<u8>, b1: seq<u8>, b2: seq<u8>, b3: seq<u8>, high: seq<u8>, mid: seq<u8>, low: seq<u8>)
    requires |b0| == 22 && |high| == 2 && |mid| == 10 && |low| == 10
    requires b1 == b0[..12] + low + b0[22..] && b2 == b1[..2] + mid + b1[12..] && b3 == b2[..0] + high + b2[2..]
    ensures b3 == high + mid + low
  {
    assert b1[12..] == low;
    assert b2[2..] == mid + low;
  }

  method EncodeChunks(high: u64, mid: u64, low: u64, buf: array<u8>)
    requires buf.Length == BASE62_LEN
    modifies buf
    ensures buf[..] == DigitsOf(high, 2) + DigitsOf(mid, 10) + DigitsOf(low, 10)
  {
    ghost var b0 := buf[..];
    EncodeChunk(low, 10, buf, 12);
    ghost var b1 := buf[..];
    EncodeChunk(mid, 10, buf, 2);
    ghost var b2 := buf[..];
    EncodeChunk(high, 2, buf, 0);
    Join(b0, b1, b2, buf[..], DigitsOf(high, 2), DigitsOf(mid, 10), DigitsOf(low, 10));
  }

  /** `encode_fixed`: the 22 base-62 digits of the number, with leading zeros. */
  method EncodeFixed(num: u128, buf: array<u8>)
    requires buf.Length == BASE62_LEN
    modifies buf
    ensures Digits(buf[..]) && ValueOf(buf[..]) == num
    ensures buf[..] == DigitsOf(num, BASE62_LEN)
  {
    var (quotient, low) := FastDivBaseTo10(num);
    var (high, mid) := FastDivBaseTo10(quotient);
    EncodeChunks(high, mid, low, buf);
    ChunksDenote(num);
    DigitsUnique(buf[..]);
  }

  // ----- decoding

  datatype DecodeError = ArithmeticOverflow | InvalidCharacter(byte: u8, position: nat)

  function CheckedMulBase(a: u128): Option<u128> { if a * BASE < TWO_128 then Some(a * BASE) else None }

  function CheckedAdd(a: u128, b: u128): Option<u128> { if a + b < TWO_128 then Some(a + b) else None }

  lemma {:induction false} PrefixValue(s: seq<u8>, p: nat)
    requires Digits(s) && p <= |s|
    ensures ValueOf(s[..p]) <= ValueOf(s)
    decreases |s| - p
  {
    if p == |s| {
      assert s[..p] == s;
    } else {
      PrefixValue(s, p + 1);
      assert s[..p + 1][..p] == s[..p];
    }
  }

  lemma NextDigit(s: seq<u8>, p: nat)
    requires p < |s| && Digits(s[..p]) && DigitOf(s[p]).Some?
    ensures Digits(s[..p + 1]) && ValueOf(s[..p + 1]) == ValueOf(s[..p]) * 62 + DigitOf(s[p]).value
  {
    var next := s[..p + 1];
    assert next[..p] == s[..p];
    assert forall i :: 0 <= i < p ==> next[i] == s[..p][i];
  }

  /** `decode_fixed` accepts exactly the digit strings whose number fits; otherwise it
      reports the first invalid character, unless the digits before it already overflow. */
  method DecodeFixed(buf: seq<u8>) returns (r: Result<u128, DecodeError>)
    ensures r.Ok? <==> Digits(buf) && ValueOf(buf) < TWO_128
    ensures r.Ok? ==> r.value == ValueOf(buf)
    ensures r.Err? && r.error.InvalidCharacter? ==>
              var p := r.error.position;
              && p < |buf| && buf[p] == r.error.byte && DigitOf(buf[p]).None?
              && Digits(buf[..p]) && ValueOf(buf[..p]) < TWO_128
    ensures r.Err? && r.error.ArithmeticOverflow? ==>
              exists p :: 0 <= p <= |buf| && Digits(buf[..p]) && ValueOf(buf[..p]) >= TWO_128
  {
    var result: u128 := 0;
    for position := 0 to |buf|
      invariant Digits(buf[..position]) && result == ValueOf(buf[..position])
    {
      var value := DigitOf(buf[position]);
      if value.None? {
        return Err(InvalidCharacter(buf[position], position));
      }
      NextDigit(buf, position);
      var scaled := CheckedMulBase(result);
      var sum := if scaled.None? then None else CheckedAdd(scaled.value, value.value);
      if sum.None? {
        if Digits(buf) { PrefixValue(buf, position + 1); }
        return Err(ArithmeticOverflow);
      }
      result := sum.value;
    }
    assert buf[..|buf|] == buf;
    return Ok(result);
  }

  /** Every 128-bit id survives the round trip. */
  method RoundTrip(num: u128) returns (r: Result<u128, DecodeError>)
    ensures r == Ok(num)
  {
    var buf := new u8[BASE62_LEN];
    EncodeFixed(num, buf);
    r := DecodeFixed(buf[..]);
  }

  /** Encoding is injective, and a decoded string is the encoding of its number. */
  lemma CodecIsBijective(s: seq<u8>, n: u128)
    requires |s| == BASE62_LEN
    ensures s == DigitsOf(n, BASE62_LEN) <==> Digits(s) && ValueOf(s) == n
  {
    ChunksDenote(n);
    var q := n / BASE_TO_10;
    var t := DigitsOf(q / BASE_TO_10, 2) + DigitsOf(q % BASE_TO_10, 10) + DigitsOf(n % BASE_TO_10, 10);
    DigitsUnique(t);
    if Digits(s) { DigitsUnique(s); }
  }
}
