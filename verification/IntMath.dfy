/** Integer division as the machine does it, and the few facts about products that the
    arithmetic modules share. */
module IntMath {

  // ----- truncating division, as in Rust

  function Abs(a: int): nat { if a < 0 then -a else a }

  function Quot(a: int, b: int): int
    requires b != 0
  {
    if (a < 0) == (b < 0) then Abs(a) / Abs(b) else -(Abs(a) / Abs(b))
  }

  function Rem(a: int, b: int): int
    requires b != 0
  {
    if a >= 0 then Abs(a) % Abs(b) else -(Abs(a) % Abs(b))
  }

  lemma NatDiv(m: nat, n: nat)
    requires n > 0
    ensures m == n * (m / n) + m % n && 0 <= m % n < n && 0 <= m / n
  {}

  lemma MulGrows(n: nat, q: nat)
    requires n > 0
    ensures q <= n * q
  {}

  /** The defining equation of truncating division, and its bounds. */
  lemma Truncates(a: int, b: int)
    requires b != 0
    ensures a == b * Quot(a, b) + Rem(a, b)
    ensures Abs(Rem(a, b)) < Abs(b)
    ensures Abs(Quot(a, b)) <= Abs(a)
  {
    NatDiv(Abs(a), Abs(b));
    var q := Abs(a) / Abs(b);
    MulGrows(Abs(b), q);
    assert b * q == if b < 0 then -(Abs(b) * q) else Abs(b) * q;
    assert b * (-q) == -(b * q);
  }

  lemma SmallMultiple(b: int, d: int)
    requires b != 0 && Abs(b * d) < Abs(b)
    ensures d == 0
  {
    if d != 0 {
      assert Abs(b * d) == Abs(b) * Abs(d);
      MulGrows(Abs(d), Abs(b));
    }
  }

  /** Two decompositions with remainders of the same sign agree. */
  lemma SameDivision(b: int, q: int, r: int, q': int, r': int)
    requires b != 0 && b * q + r == b * q' + r'
    requires Abs(r) < Abs(b) && Abs(r') < Abs(b) && ((r >= 0 && r' >= 0) || (r <= 0 && r' <= 0))
    ensures q == q' && r == r'
  {
    assert b * (q - q') == r' - r;
    SmallMultiple(b, q - q');
  }

  lemma QuotUnique(a: int, b: int, q: int, r: int)
    requires b != 0 && a == b * q + r && Abs(r) < Abs(b)
    requires if a >= 0 then r >= 0 else r <= 0
    ensures Quot(a, b) == q && Rem(a, b) == r
  {
    Truncates(a, b);
    var q', r' := Quot(a, b), Rem(a, b);
    assert if a >= 0 then r' >= 0 else r' <= 0;
    SameDivision(b, q, r, q', r');
  }

  lemma Below(a: nat, b: nat, r1: nat, r2: nat)
    requires r1 < a && r2 < b
    ensures a * r2 + r1 < a * b
  {
    assert a * r2 <= a * (b - 1);
    assert a * (b - 1) == a * b - a;
  }

  lemma Signs(v: int, a: nat)
    requires a > 0
    ensures if v >= 0 then Quot(v, a) >= 0 && Rem(v, a) >= 0 else Quot(v, a) <= 0 && Rem(v, a) <= 0
  {
    NatDiv(Abs(v), a);
  }

  lemma ComposeDivisions(v: int, a: nat, b: nat, q1: int, r1: int, q2: int, r2: int)
    requires v == a * q1 + r1 && q1 == b * q2 + r2
    ensures v == a * b * q2 + (a * r2 + r1)
  {
    calc {
      a * q1;
      a * (b * q2 + r2);
      a * (b * q2) + a * r2;
      a * b * q2 + a * r2;
    }
  }

  lemma MulSign(a: nat, r: int)
    requires a > 0
    ensures Abs(a * r) == a * Abs(r) && (r >= 0 ==> a * r >= 0) && (r <= 0 ==> a * r <= 0)
  {}

  /** Truncating twice is truncating once by the product. */
  lemma QuotQuot(v: int, a: nat, b: nat)
    requires a > 0 && b > 0
    ensures a * b > 0 && Quot(Quot(v, a), b) == Quot(v, a * b)
  {
    var q1, r1 := Quot(v, a), Rem(v, a);
    var q2, r2 := Quot(q1, b), Rem(q1, b);
    Truncates(v, a);
    Truncates(q1, b);
    Signs(v, a);
    Signs(q1, b);
    ComposeDivisions(v, a, b, q1, r1, q2, r2);
    Below(a, b, Abs(r1), Abs(r2));
    MulSign(a, r2);
    QuotUnique(v, a * b, q2, a * r2 + r1);
  }

  lemma MulMono(b: nat, k: int, q: int)
    requires k <= q
    ensures b * k <= b * q
  {}

  /** A quotient stays below `k` when the dividend stays below `k` divisors, less one. */
  lemma QuotBound(x: int, k: nat, b: int)
    requires b != 0 && Abs(x) < Abs(b) * k
    ensures Abs(Quot(x, b)) < k && Abs(b) * Abs(Quot(x, b)) <= Abs(x)
  {
    NatDiv(Abs(x), Abs(b));
    var q := Abs(x) / Abs(b);
    if q >= k { MulMono(Abs(b), k, q); }
  }

  lemma FloorParts(x: int, y: int, unit: nat)
    requires unit > 0
    ensures x * unit + y == (x + y / unit) * unit + y % unit
    ensures (x * unit + y) / unit == x + y / unit
  {
    var q, r := y / unit, y % unit;
    assert y == unit * q + r;
    assert (x + q) * unit == x * unit + unit * q;
    var v := x * unit + y;
    assert v == unit * (v / unit) + v % unit;
    SameDivision(unit, x + q, r, v / unit, v % unit);
  }

  lemma MulMono2(a: nat, b: nat, c: nat, d: nat)
    requires a <= c && b <= d
    ensures a * b <= c * d
  {
    MulMono(a, b, d);
    MulMono(d, a, c);
  }

  lemma FloorUnique(v: int, d: int, q: int, r: int)
    requires d > 0 && v == d * q + r && 0 <= r < d
    ensures v / d == q && v % d == r
  {
    assert v == d * (v / d) + v % d;
    SameDivision(d, q, r, v / d, v % d);
  }
}
