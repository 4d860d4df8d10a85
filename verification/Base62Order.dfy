/** Encoded ids, compared byte by byte, are in the order of the numbers they stand for. */
module Base62Order {
  import opened Wrappers
  import opened Base62

  const NUMERALS: string := "0123456789"
  const CAPITALS: string := "ABCDEFGHIJKLMNOPQRSTUVWXYZ"
  const SMALL: string := "abcdefghijklmnopqrstuvwxyz"

  lemma CharsetNumerals(k: nat)
    requires k < 10
    ensures CharOf(k) == NUMERALS[k] as int
  {}

  lemma CharsetCapitals(k: nat)
    requires k < 26
    ensures CharOf(10 + k) == CAPITALS[k] as int
  {}

  lemma CharsetSmall(k: nat)
    requires k < 26
    ensures CharOf(36 + k) == SMALL[k] as int
  {}

  /** The characters of the code, in the order of their digits. */
  lemma CharsetIs(k: nat)
    requires k < 62
    ensures CharOf(k) == (NUMERALS + CAPITALS + SMALL)[k] as int
  {
    if k < 10 {
      CharsetNumerals(k);
    } else if k < 36 {
      CharsetCapitals(k - 10);
    } else {
      CharsetSmall(k - 36);
    }
  }

  lemma DigitOrder(x: u8, y: u8)
    requires DigitOf(x).Some? && DigitOf(y).Some?
    ensures x < y <==> DigitOf(x).value < DigitOf(y).value
  {}

  /** At the first place where they differ, `a` has the smaller byte. */
  ghost predicate Before(a: seq<u8>, b: seq<u8>) {
    exists i :: 0 <= i < |a| && i < |b| && a[..i] == b[..i] && a[i] < b[i]
  }

  lemma BeforeSnoc(a: seq<u8>, b: seq<u8>, x: u8, y: u8)
    requires |a| == |b|
    ensures Before(a + [x], b + [y]) <==> Before(a, b) || (a == b && x < y)
  {
    var s, t := a + [x], b + [y];
    if Before(a, b) {
      var i :| 0 <= i < |a| && a[..i] == b[..i] && a[i] < b[i];
      assert s[..i] == t[..i] && s[i] < t[i];
    }
    if a == b && x < y {
      assert s[..|a|] == t[..|a|] && s[|a|] < t[|a|];
    }
    if Before(s, t) {
      var i :| 0 <= i < |s| && s[..i] == t[..i] && s[i] < t[i];
      if i == |a| {
        assert a == s[..i] && b == t[..i];
      } else {
        assert a[..i] == s[..i] && b[..i] == t[..i] && a[i] < b[i];
      }
    }
  }

  lemma LastDigitDecides(va: nat, vb: nat, da: nat, db: nat)
    requires da < 62 && db < 62
    ensures va * 62 + da < vb * 62 + db <==> va < vb || (va == vb && da < db)
  {}

  lemma ValueSnoc(a: seq<u8>, x: u8)
    requires Digits(a) && DigitOf(x).Some?
    ensures Digits(a + [x]) && ValueOf(a + [x]) == ValueOf(a) * 62 + DigitOf(x).value
  {
    assert (a + [x])[..|a|] == a;
  }

  lemma SameValue(a: seq<u8>, b: seq<u8>)
    requires |a| == |b| && Digits(a) && Digits(b)
    ensures ValueOf(a) == ValueOf(b) <==> a == b
  {
    DigitsUnique(a);
    DigitsUnique(b);
  }

  lemma ValueOrderSnoc(a: seq<u8>, b: seq<u8>, x: u8, y: u8)
    requires |a| == |b| && Digits(a + [x]) && Digits(b + [y])
    requires Digits(a) && Digits(b) && DigitOf(x).Some? && DigitOf(y).Some?
    requires ValueOf(a) < ValueOf(b) <==> Before(a, b)
    ensures ValueOf(a + [x]) < ValueOf(b + [y]) <==> Before(a + [x], b + [y])
  {
    ValueSnoc(a, x);
    ValueSnoc(b, y);
    SameValue(a, b);
    DigitOrder(x, y);
    LastDigitDecides(ValueOf(a), ValueOf(b), DigitOf(x).value, DigitOf(y).value);
    BeforeSnoc(a, b, x, y);
  }

  lemma {:induction false} ValueOrder(a: seq<u8>, b: seq<u8>)
    requires |a| == |b| && Digits(a) && Digits(b)
    ensures ValueOf(a) < ValueOf(b) <==> Before(a, b)
    decreases |a|
  {
    if a == [] {
    } else {
      var n := |a| - 1;
      var c, d := a[..n], b[..n];
      assert a == c + [a[n]] && b == d + [b[n]];
      ValueOrder(c, d);
      ValueOrderSnoc(c, d, a[n], b[n]);
    }
  }

  /** Compared byte by byte, encoded ids are in the order of the numbers. */
  lemma SortsLikeNumbers(m: u128, n: u128)
    ensures m < n <==> Before(DigitsOf(m, BASE62_LEN), DigitsOf(n, BASE62_LEN))
  {
    CodecIsBijective(DigitsOf(m, BASE62_LEN), m);
    CodecIsBijective(DigitsOf(n, BASE62_LEN), n);
    ValueOrder(DigitsOf(m, BASE62_LEN), DigitsOf(n, BASE62_LEN));
  }
}
