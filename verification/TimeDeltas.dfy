/** `TimeDelta`: a signed duration kept as whole seconds and a non-negative nanosecond
    remainder.  Machine integers are subset types, so every assignment to one is also a
    proof that the operation does not overflow. */
module TimeDeltas {
  import opened Wrappers
  import opened IntMath

  const I64_MAX: int := 0x7FFF_FFFF_FFFF_FFFF
  const I32_MAX: int := 0x7FFF_FFFF
  const NANOS_PER_SEC: int := 1_000_000_000
  const NANOS_PER_MILLI: int := 1_000_000
  const NANOS_PER_MICRO: int := 1_000

  type i64 = x: int | -I64_MAX - 1 <= x <= I64_MAX
  type i32 = x: int | -I32_MAX - 1 <= x <= I32_MAX

  // ----- the representation

  /** Between -i64::MAX and i64::MAX milliseconds, in nanoseconds. */
  predicate Representable(value: int) { -I64_MAX * NANOS_PER_MILLI <= value <= I64_MAX * NANOS_PER_MILLI }

  datatype TimeDelta = TimeDelta(secs: i64, nanos: i32) {
    /** The duration in nanoseconds. */
    function Value(): int { secs * NANOS_PER_SEC + nanos }

    predicate Valid() { 0 <= nanos < NANOS_PER_SEC && Representable(Value()) }
  }

  const MIN := TimeDelta(Quot(-I64_MAX, 1000) - 1, NANOS_PER_SEC + Rem(-I64_MAX, 1000) * NANOS_PER_MILLI)
  const MAX := TimeDelta(Quot(I64_MAX, 1000), Rem(I64_MAX, 1000) * NANOS_PER_MILLI)

  lemma Limits()
    ensures MIN.secs == -9223372036854776 && MIN.nanos == 193_000_000
    ensures MAX.secs == 9223372036854775 && MAX.nanos == 807_000_000
  {}

  /** `TimeDelta::new`. */
  function New(secs: i64, nanos: nat): (r: Option<TimeDelta>)
    ensures r.Some? <==> (nanos < NANOS_PER_SEC && Representable(secs * NANOS_PER_SEC + nanos))
    ensures r.Some? ==> r.value.Valid() && r.value.Value() == secs * NANOS_PER_SEC + nanos
  {
    Limits();
    if secs < MIN.secs || secs > MAX.secs || nanos >= 1_000_000_000
       || (secs == MAX.secs && nanos > MAX.nanos) || (secs == MIN.secs && nanos < MIN.nanos)
    then None
    else Some(TimeDelta(secs, nanos))
  }

  /** A valid delta is determined by its value. */
  lemma ValueInjective(a: TimeDelta, b: TimeDelta)
    requires a.Valid() && b.Valid() && a.Value() == b.Value()
    ensures a == b
  {}

  // ----- addition and subtraction

  method CheckedAdd(a: TimeDelta, b: TimeDelta) returns (r: Option<TimeDelta>)
    requires a.Valid() && b.Valid()
    ensures r.Some? <==> Representable(a.Value() + b.Value())
    ensures r.Some? ==> r.value.Valid() && r.value.Value() == a.Value() + b.Value()
  {
    var secs: i64 := a.secs + b.secs;
    var nanos: i32 := a.nanos + b.nanos;
    if nanos >= NANOS_PER_SEC {
      nanos := nanos - NANOS_PER_SEC;
      secs := secs + 1;
    }
    r := New(secs, nanos);
  }

  method CheckedSub(a: TimeDelta, b: TimeDelta) returns (r: Option<TimeDelta>)
    requires a.Valid() && b.Valid()
    ensures r.Some? <==> Representable(a.Value() - b.Value())
    ensures r.Some? ==> r.value.Valid() && r.value.Value() == a.Value() - b.Value()
  {
    var secs: i64 := a.secs - b.secs;
    var nanos: i32 := a.nanos - b.nanos;
    if nanos < 0 {
      nanos := nanos + NANOS_PER_SEC;
      secs := secs - 1;
    }
    r := New(secs, nanos);
  }

  // ----- sign

  function Neg(d: TimeDelta): (r: TimeDelta)
    requires d.Valid()
    ensures r.Valid() && r.Value() == -d.Value()
  {
    if d.nanos == 0 then TimeDelta(-d.secs, 0) else TimeDelta(-d.secs - 1, NANOS_PER_SEC - d.nanos)
  }

  function AbsDelta(d: TimeDelta): (r: TimeDelta)
    requires d.Valid()
    ensures r.Valid() && r.Value() == Abs(d.Value())
  {
    if d.secs < 0 && d.nanos != 0 then TimeDelta(Abs(d.secs + 1), NANOS_PER_SEC - d.nanos)
    else TimeDelta(Abs(d.secs), d.nanos)
  }

  // ----- whole units, truncated toward zero

  function NumSeconds(d: TimeDelta): (r: i64)
    requires d.Valid()
    ensures r == Quot(d.Value(), NANOS_PER_SEC)
    ensures SubsecNanos(d) == Rem(d.Value(), NANOS_PER_SEC)
  {
    var r := if d.secs < 0 && d.nanos > 0 then d.secs + 1 else d.secs;
    QuotUnique(d.Value(), NANOS_PER_SEC, r, SubsecNanos(d));
    r
  }

  function SubsecNanos(d: TimeDelta): i32
    requires d.Valid()
  {
    if d.secs < 0 && d.nanos > 0 then d.nanos - NANOS_PER_SEC else d.nanos
  }

  /** `num_minutes`, `num_hours`, `num_days` divide the whole seconds again;
      `num_weeks` divides the whole days. */
  function NumMinutes(d: TimeDelta): (r: i64)
    requires d.Valid()
    ensures r == Quot(d.Value(), 60 * NANOS_PER_SEC)
  {
    QuotQuot(d.Value(), NANOS_PER_SEC, 60);
    Truncates(NumSeconds(d), 60);
    Quot(NumSeconds(d), 60)
  }

  function NumHours(d: TimeDelta): (r: i64)
    requires d.Valid()
    ensures r == Quot(d.Value(), 3_600 * NANOS_PER_SEC)
  {
    QuotQuot(d.Value(), NANOS_PER_SEC, 3_600);
    Truncates(NumSeconds(d), 3_600);
    Quot(NumSeconds(d), 3_600)
  }

  function NumDays(d: TimeDelta): (r: i64)
    requires d.Valid()
    ensures r == Quot(d.Value(), 86_400 * NANOS_PER_SEC)
  {
    QuotQuot(d.Value(), NANOS_PER_SEC, 86_400);
    Truncates(NumSeconds(d), 86_400);
    Quot(NumSeconds(d), 86_400)
  }

  function NumWeeks(d: TimeDelta): (r: i64)
    requires d.Valid()
    ensures r == Quot(d.Value(), 604_800 * NANOS_PER_SEC)
  {
    QuotQuot(d.Value(), 86_400 * NANOS_PER_SEC, 7);
    Truncates(NumDays(d), 7);
    Quot(NumDays(d), 7)
  }

  /** Splitting off whole seconds first does not change the truncated count of a unit
      that divides a second. */
  lemma SplitUnits(v: int, unit: nat, perSec: nat)
    requires unit > 0 && unit * perSec == NANOS_PER_SEC
    ensures Quot(v, unit) == Quot(v, NANOS_PER_SEC) * perSec + Quot(Rem(v, NANOS_PER_SEC), unit)
  {
    var s, n := Quot(v, NANOS_PER_SEC), Rem(v, NANOS_PER_SEC);
    Truncates(v, NANOS_PER_SEC);
    Truncates(n, unit);
    assert NANOS_PER_SEC * s == unit * (perSec * s);
    QuotUnique(v, unit, s * perSec + Quot(n, unit), Rem(n, unit));
  }

  /** Never overflows: the range of a delta is chosen for this. */
  function NumMilliseconds(d: TimeDelta): (r: i64)
    requires d.Valid()
    ensures r == Quot(d.Value(), NANOS_PER_MILLI)
  {
    SplitUnits(d.Value(), NANOS_PER_MILLI, 1_000);
    NumSeconds(d) * 1_000 + Quot(SubsecNanos(d), NANOS_PER_MILLI)
  }

  function CheckedMul64(a: i64, b: i64): Option<i64> {
    if -I64_MAX - 1 <= a * b <= I64_MAX then Some(a * b) else None
  }

  function CheckedAdd64(a: i64, b: i64): Option<i64> {
    if -I64_MAX - 1 <= a + b <= I64_MAX then Some(a + b) else None
  }

  predicate Fits64(x: int) { -I64_MAX - 1 <= x <= I64_MAX }

  /** `None` exactly when the truncated count does not fit. */
  function NumMicroseconds(d: TimeDelta): (r: Option<i64>)
    requires d.Valid()
    ensures r == if Fits64(Quot(d.Value(), NANOS_PER_MICRO)) then Some(Quot(d.Value(), NANOS_PER_MICRO)) else None
  {
    SplitUnits(d.Value(), NANOS_PER_MICRO, 1_000_000);
    var secs := CheckedMul64(NumSeconds(d), 1_000_000);
    if secs.None? then None else CheckedAdd64(secs.value, Quot(SubsecNanos(d), NANOS_PER_MICRO))
  }

  /** `None` exactly when the value does not fit. */
  function NumNanoseconds(d: TimeDelta): (r: Option<i64>)
    requires d.Valid()
    ensures r == if Fits64(d.Value()) then Some(d.Value()) else None
  {
    Truncates(d.Value(), NANOS_PER_SEC);
    var secs := CheckedMul64(NumSeconds(d), NANOS_PER_SEC);
    if secs.None? then None else CheckedAdd64(secs.value, SubsecNanos(d))
  }

  // ----- constructors from a count of a unit; `div_mod_floor_64` rounds down

  function Nanoseconds(n: i64): (r: TimeDelta)
    ensures r.Valid() && r.Value() == n
  {
    TimeDelta(n / NANOS_PER_SEC, n % NANOS_PER_SEC)
  }

  function Microseconds(n: i64): (r: TimeDelta)
    ensures r.Valid() && r.Value() == n * NANOS_PER_MICRO
  {
    TimeDelta(n / 1_000_000, n % 1_000_000 * NANOS_PER_MICRO)
  }

  function TryMilliseconds(n: i64): (r: Option<TimeDelta>)
    ensures r.Some? <==> n >= -I64_MAX
    ensures r.Some? ==> r.value.Valid() && r.value.Value() == n * NANOS_PER_MILLI
  {
    if n < -I64_MAX then None else Some(TimeDelta(n / 1_000, n % 1_000 * NANOS_PER_MILLI))
  }

  // ----- multiplication and division by an i32

  /** The exact product, unless its whole seconds reach the ends of `i64`.  The result
      need not lie between the smallest and the largest delta. */
  function CheckedMul(d: TimeDelta, rhs: i32): (r: Option<TimeDelta>)
    requires d.Valid()
    ensures var product := d.Value() * rhs;
            r.Some? <==> (-I64_MAX - 1 < product / NANOS_PER_SEC < I64_MAX)
    ensures r.Some? ==> 0 <= r.value.nanos < NANOS_PER_SEC && r.value.Value() == d.Value() * rhs
  {
    ProductParts(d, rhs);
    var total: i64 := d.nanos * rhs;
    var extra, nanos := total / NANOS_PER_SEC, total % NANOS_PER_SEC;
    var secs := d.secs * rhs + extra;
    if secs <= -I64_MAX - 1 || secs >= I64_MAX then None else Some(TimeDelta(secs, nanos))
  }

  /** A product comes back as a valid delta exactly if it lies in the range of deltas;
      one beyond the range comes back as an invalid delta until its whole seconds reach
      the ends of `i64`. */
  lemma MulInRangeExactly(d: TimeDelta, rhs: i32)
    requires d.Valid()
    ensures var r, product := CheckedMul(d, rhs), d.Value() * rhs;
            && (r.Some? && r.value.Valid() <==> Representable(product))
            && (r.Some? && !r.value.Valid() <==>
                !Representable(product) && -I64_MAX - 1 < product / NANOS_PER_SEC < I64_MAX)
  {
    var product := d.Value() * rhs;
    if Representable(product) {
      assert -I64_MAX * NANOS_PER_MILLI <= product <= I64_MAX * NANOS_PER_MILLI;
      assert -I64_MAX - 1 < product / NANOS_PER_SEC < I64_MAX;
    }
  }

  /** Twice the largest number of whole seconds. */
  lemma MulLeavesRange()
    ensures var d := TimeDelta(9_223_372_036_854_775, 0);
            d.Valid() && CheckedMul(d, 2).Some? && !CheckedMul(d, 2).value.Valid()
  {}

  lemma ProductFits(n: nat, rhs: i32)
    requires n < NANOS_PER_SEC
    ensures Fits64(n * rhs)
  {
    if rhs >= 0 {
      assert n * rhs <= NANOS_PER_SEC * rhs;
    } else {
      assert n * rhs >= NANOS_PER_SEC * rhs;
    }
  }

  lemma ProductParts(d: TimeDelta, rhs: i32)
    requires d.Valid()
    ensures Fits64(d.nanos * rhs)
    ensures d.Value() * rhs == (d.secs * rhs + d.nanos * rhs / NANOS_PER_SEC) * NANOS_PER_SEC + d.nanos * rhs % NANOS_PER_SEC
    ensures d.Value() * rhs / NANOS_PER_SEC == d.secs * rhs + d.nanos * rhs / NANOS_PER_SEC
  {
    ProductFits(d.nanos, rhs);
    assert d.Value() * rhs == d.secs * rhs * NANOS_PER_SEC + d.nanos * rhs;
    FloorParts(d.secs * rhs, d.nanos * rhs, NANOS_PER_SEC);
  }

  lemma DivisionAlgebra(secs: int, nanos: int, rhs: int, s: int, carry: int, e: int, re: int, n: int, rn: int)
    requires secs == rhs * s + carry && carry * NANOS_PER_SEC == rhs * e + re && nanos == rhs * n + rn
    ensures secs * NANOS_PER_SEC + nanos == rhs * (s * NANOS_PER_SEC + e + n) + re + rn
  {
    assert secs * NANOS_PER_SEC == rhs * (s * NANOS_PER_SEC) + carry * NANOS_PER_SEC;
    assert rhs * (s * NANOS_PER_SEC + e + n) == rhs * (s * NANOS_PER_SEC) + rhs * e + rhs * n;
  }

  lemma SumBelow(b: nat, x: nat, y: nat, k: nat)
    requires b > 0 && k > 0 && b * x <= (b - 1) * k && b * y <= k - 1
    ensures x + y < k
  {
    assert b * (x + y) == b * x + b * y;
    assert (b - 1) * k == b * k - k;
    if x + y >= k { MulMono(b, k, x + y); }
  }

  lemma CarryPart(secs: int, rhs: int)
    requires rhs != 0
    ensures var e := Quot(Rem(secs, rhs) * NANOS_PER_SEC, rhs);
            Abs(e) < NANOS_PER_SEC && Abs(rhs) * Abs(e) <= (Abs(rhs) - 1) * NANOS_PER_SEC
    ensures Abs(Rem(secs, rhs) * NANOS_PER_SEC) <= (Abs(rhs) - 1) * NANOS_PER_SEC
  {
    var b, carry := Abs(rhs), Rem(secs, rhs);
    Truncates(secs, rhs);
    assert Abs(carry * NANOS_PER_SEC) == Abs(carry) * NANOS_PER_SEC <= (b - 1) * NANOS_PER_SEC < b * NANOS_PER_SEC;
    QuotBound(carry * NANOS_PER_SEC, NANOS_PER_SEC, rhs);
  }

  lemma NanosPart(nanos: nat, rhs: int)
    requires nanos < NANOS_PER_SEC && rhs != 0
    ensures var n := Quot(nanos, rhs); Abs(n) < NANOS_PER_SEC && Abs(rhs) * Abs(n) <= NANOS_PER_SEC - 1
  {
    MulGrows(Abs(rhs), NANOS_PER_SEC);
    QuotBound(nanos, NANOS_PER_SEC, rhs);
  }

  /** What `checked_div` promises: a valid delta that is the exact quotient up to an
      error of less than two nanoseconds. */
  predicate Divides(d: TimeDelta, rhs: int, r: TimeDelta) {
    r.Valid() && Abs(d.Value() - rhs * r.Value()) < 2 * Abs(rhs)
  }

  lemma QuotientInRange(v: int, rhs: int, q: int)
    requires rhs != 0 && Representable(v) && Abs(v - rhs * q) < 2 * Abs(rhs) && (Abs(rhs) == 1 ==> v == rhs * q)
    ensures Representable(q)
  {
    var b := Abs(rhs);
    assert Abs(rhs * q) == b * Abs(q);
    if b > 1 {
      var limit := I64_MAX * NANOS_PER_MILLI;
      assert b * Abs(q) < limit + 2 * b;
      assert b * (Abs(q) - 2) == b * Abs(q) - 2 * b;
      if Abs(q) > limit { MulMono(Abs(q) - 2, 2, b); }
    }
  }

  /** Nowhere overflows; one normalisation step always suffices. */
  function CheckedDiv(d: TimeDelta, rhs: i32): (r: Option<TimeDelta>)
    requires d.Valid()
    ensures r.Some? <==> rhs != 0
    ensures r.Some? ==> Divides(d, rhs, r.value)
  {
    if rhs == 0 then None
    else
      Truncates(d.secs, rhs);
      CarryPart(d.secs, rhs);
      NanosPart(d.nanos, rhs);
      var secs: i64 := Quot(d.secs, rhs);
      var carry: i64 := Rem(d.secs, rhs);
      var scaled: i64 := carry * NANOS_PER_SEC;
      var extra: i64 := Quot(scaled, rhs);
      var nanos: i32 := Quot(d.nanos, rhs) + extra;
      DivisionResult(d, rhs);
      if nanos < 0 then Some(TimeDelta(secs - 1, nanos + NANOS_PER_SEC))
      else if nanos >= NANOS_PER_SEC then assert false; None  // the upward carry never happens
      else Some(TimeDelta(secs, nanos))
  }

  lemma DivisionResult(d: TimeDelta, rhs: int)
    requires d.Valid() && rhs != 0
    ensures var carry := Rem(d.secs, rhs);
            var nanos := Quot(d.nanos, rhs) + Quot(carry * NANOS_PER_SEC, rhs);
            var q := Quot(d.secs, rhs) * NANOS_PER_SEC + nanos;
            Abs(nanos) < NANOS_PER_SEC && Abs(d.Value() - rhs * q) < 2 * Abs(rhs) && Representable(q)
  {
    var s, carry := Quot(d.secs, rhs), Rem(d.secs, rhs);
    var e, n := Quot(carry * NANOS_PER_SEC, rhs), Quot(d.nanos, rhs);
    var re, rn := Rem(carry * NANOS_PER_SEC, rhs), Rem(d.nanos, rhs);
    Truncates(d.secs, rhs);
    Truncates(carry * NANOS_PER_SEC, rhs);
    Truncates(d.nanos, rhs);
    CarryPart(d.secs, rhs);
    NanosPart(d.nanos, rhs);
    SumBelow(Abs(rhs), Abs(e), Abs(n), NANOS_PER_SEC);
    DivisionAlgebra(d.secs, d.nanos, rhs, s, carry, e, re, n, rn);
    QuotientInRange(d.Value(), rhs, s * NANOS_PER_SEC + e + n);
  }

  lemma RemSign(a: int, b: int)
    requires b != 0
    ensures a >= 0 ==> Rem(a, b) >= 0
    ensures a <= 0 ==> Rem(a, b) <= 0
  {}

  lemma CarryAlgebra(secs: int, rhs: int, s: int, carry: int, e: int, re: int)
    requires secs == rhs * s + carry && carry * NANOS_PER_SEC == rhs * e + re
    ensures secs * NANOS_PER_SEC == rhs * (s * NANOS_PER_SEC + e) + re
  {
    assert secs * NANOS_PER_SEC == rhs * (s * NANOS_PER_SEC) + carry * NANOS_PER_SEC;
    assert rhs * (s * NANOS_PER_SEC + e) == rhs * (s * NANOS_PER_SEC) + rhs * e;
  }

  /** Taking the remainder of the seconds first does not change the remainder. */
  lemma CarryRemainder(secs: int, rhs: int)
    requires rhs != 0
    ensures Rem(Rem(secs, rhs) * NANOS_PER_SEC, rhs) == Rem(secs * NANOS_PER_SEC, rhs)
  {
    var s, carry := Quot(secs, rhs), Rem(secs, rhs);
    var scaled := carry * NANOS_PER_SEC;
    var e, re := Quot(scaled, rhs), Rem(scaled, rhs);
    Truncates(secs, rhs);
    Truncates(scaled, rhs);
    RemSign(secs, rhs);
    RemSign(scaled, rhs);
    CarryAlgebra(secs, rhs, s, carry, e, re);
    QuotUnique(secs * NANOS_PER_SEC, rhs, s * NANOS_PER_SEC + e, re);
  }

  /** The quotient and its exact error: the remainders of the whole seconds, counted in
      nanoseconds, and of the nanoseconds are dropped separately. */
  lemma DivisionError(d: TimeDelta, rhs: i32)
    requires d.Valid() && rhs != 0
    ensures rhs * CheckedDiv(d, rhs).value.Value() ==
            d.Value() - Rem(d.secs * NANOS_PER_SEC, rhs) - Rem(d.nanos, rhs)
  {
    var s, carry := Quot(d.secs, rhs), Rem(d.secs, rhs);
    var e, n := Quot(carry * NANOS_PER_SEC, rhs), Quot(d.nanos, rhs);
    Truncates(d.secs, rhs);
    Truncates(carry * NANOS_PER_SEC, rhs);
    Truncates(d.nanos, rhs);
    DivisionAlgebra(d.secs, d.nanos, rhs, s, carry, e, Rem(carry * NANOS_PER_SEC, rhs), n, Rem(d.nanos, rhs));
    CarryRemainder(d.secs, rhs);
    DivisionResult(d, rhs);
    assert CheckedDiv(d, rhs).value.Value() == s * NANOS_PER_SEC + e + n;
  }

  /** The division is exact exactly if the two remainders cancel. */
  lemma DivisionExactly(d: TimeDelta, rhs: i32)
    requires d.Valid() && rhs != 0
    ensures rhs * CheckedDiv(d, rhs).value.Value() == d.Value() <==>
            Rem(d.secs * NANOS_PER_SEC, rhs) + Rem(d.nanos, rhs) == 0
  {
    DivisionError(d, rhs);
  }

  /** A delta that is three times another one and whose third is a nanosecond short. */
  lemma DivisionFallsShort()
    ensures var d, third := TimeDelta(1, 2), TimeDelta(0, 333_333_334);
            && d.Valid() && third.Valid() && CheckedMul(third, 3) == Some(d)
            && CheckedDiv(d, 3) == Some(TimeDelta(0, 333_333_333))
  {}
}
