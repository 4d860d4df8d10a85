/** Rounding a point in time to a multiple of a duration, with the truncating remainder
    of a possibly negative timestamp. */
module Rounding {
  import opened Wrappers
  import opened IntMath
  import opened TimeDeltas

  datatype RoundingError = DurationExceedsLimit | TimestampExceedsLimit

  /** The span in nanoseconds and the timestamp, or why there are none.  `naive` is the
      wall-clock reading as nanoseconds since the epoch. */
  function SpanAndStamp(naive: int, duration: TimeDelta): (r: Result<(i64, i64), RoundingError>)
    requires duration.Valid()
    ensures r == if !Fits64(duration.Value()) || duration.Value() <= 0 then Err(DurationExceedsLimit)
                 else if !Fits64(naive) then Err(TimestampExceedsLimit)
                 else Ok((duration.Value(), naive))
  {
    match NumNanoseconds(duration)
    case None => Err(DurationExceedsLimit)
    case Some(span) =>
      if span <= 0 then Err(DurationExceedsLimit)
      else if !Fits64(naive) then Err(TimestampExceedsLimit)
      else Ok((span, naive))
  }

  predicate MultipleOf(m: int, span: int)
    requires span > 0
  {
    m % span == 0
  }

  /** The last multiple of `span` at or before `stamp`. */
  ghost predicate IsFloor(stamp: int, span: int, m: int)
    requires span > 0
  {
    MultipleOf(m, span) && m <= stamp && forall k :: MultipleOf(k, span) && k <= stamp ==> k <= m
  }

  /** The first multiple of `span` at or after `stamp`. */
  ghost predicate IsCeiling(stamp: int, span: int, m: int)
    requires span > 0
  {
    MultipleOf(m, span) && stamp <= m && forall k :: MultipleOf(k, span) && stamp <= k ==> m <= k
  }

  /** The nearest multiple of `span`; halfway points go up. */
  ghost predicate IsNearest(stamp: int, span: int, m: int)
    requires span > 0
  {
    && MultipleOf(m, span)
    && forall k :: MultipleOf(k, span) ==> Abs(m - stamp) < Abs(k - stamp) || (Abs(m - stamp) == Abs(k - stamp) && k <= m)
  }

  // ----- the three operations: `original` moves by the distance computed on `naive`

  function DurationTrunc(naive: int, original: int, duration: TimeDelta): Result<int, RoundingError>
    requires duration.Valid()
  {
    match SpanAndStamp(naive, duration)
    case Err(e) => Err(e)
    case Ok((span, stamp)) =>
      RemBounds(stamp, span);
      var down: i64 := Rem(stamp, span);
      if down == 0 then Ok(original)
      else if down > 0 then Ok(original - Nanoseconds(down).Value())
      else
        var up: i64 := Abs(down);
        var back: i64 := span - up;
        Ok(original - Nanoseconds(back).Value())
  }

  function DurationRoundUp(naive: int, original: int, duration: TimeDelta): Result<int, RoundingError>
    requires duration.Valid()
  {
    match SpanAndStamp(naive, duration)
    case Err(e) => Err(e)
    case Ok((span, stamp)) =>
      RemBounds(stamp, span);
      var down: i64 := Rem(stamp, span);
      if down == 0 then Ok(original)
      else if down > 0 then
        var up: i64 := span - down;
        Ok(original + Nanoseconds(up).Value())
      else
        var up: i64 := Abs(down);
        Ok(original + Nanoseconds(up).Value())
  }

  function DurationRound(naive: int, original: int, duration: TimeDelta): Result<int, RoundingError>
    requires duration.Valid()
  {
    match SpanAndStamp(naive, duration)
    case Err(e) => Err(e)
    case Ok((span, stamp)) =>
      RemBounds(stamp, span);
      var down: i64 := Rem(stamp, span);
      if down == 0 then Ok(original)
      else
        var up: i64 := if down < 0 then Abs(down) else span - down;
        var back: i64 := if down < 0 then span - Abs(down) else down;
        if up <= back then Ok(original + Nanoseconds(up).Value())
        else Ok(original - Nanoseconds(back).Value())
  }

  /** The truncating remainder of a positive span never leaves `i64`. */
  lemma RemBounds(stamp: int, span: int)
    requires span > 0
    ensures -span < Rem(stamp, span) < span
    ensures if stamp >= 0 then Rem(stamp, span) >= 0 else Rem(stamp, span) <= 0
  {
    Truncates(stamp, span);
    Signs(stamp, span);
  }

  // ----- multiples of a span

  lemma Multiples(span: int, j: int)
    requires span > 0
    ensures MultipleOf(span * j, span)
  {
    var m := span * j;
    assert m == span * (m / span) + m % span;
    SameDivision(span, j, 0, m / span, m % span);
  }

  lemma Multiplier(m: int, span: int) returns (j: int)
    requires span > 0 && MultipleOf(m, span)
    ensures m == span * j
  {
    j := m / span;
  }

  /** Different multiples are at least a span apart. */
  lemma Apart(span: int, m: int, k: int)
    requires span > 0 && MultipleOf(m, span) && MultipleOf(k, span) && m < k
    ensures m + span <= k
  {
    var i := Multiplier(m, span);
    var j := Multiplier(k, span);
    assert span * (j - i) == k - m;
    if j - i <= 0 { MulMono(span, j - i, 0); }
    MulMono(span, 1, j - i);
  }

  /** The multiples around a stamp, from its truncating remainder. */
  lemma Neighbours(stamp: int, span: int) returns (low: int)
    requires span > 0
    ensures MultipleOf(low, span) && MultipleOf(low + span, span) && low <= stamp < low + span
    ensures var down := Rem(stamp, span);
            low == if down >= 0 then stamp - down else stamp - down - span
    ensures low == stamp <==> Rem(stamp, span) == 0
  {
    var q, down := Quot(stamp, span), Rem(stamp, span);
    Truncates(stamp, span);
    RemBounds(stamp, span);
    var j := if down >= 0 then q else q - 1;
    low := span * j;
    assert span * (q - 1) == span * q - span && span * (j + 1) == span * j + span;
    Multiples(span, j);
    Multiples(span, j + 1);
  }

  lemma FloorIs(stamp: int, span: int, low: int)
    requires span > 0 && MultipleOf(low, span) && low <= stamp < low + span
    ensures IsFloor(stamp, span, low)
  {
    forall k | MultipleOf(k, span) && k <= stamp ensures k <= low {
      if low < k { Apart(span, low, k); }
    }
  }

  lemma CeilingIs(stamp: int, span: int, high: int)
    requires span > 0 && MultipleOf(high, span) && high - span < stamp <= high
    ensures IsCeiling(stamp, span, high)
  {
    forall k | MultipleOf(k, span) && stamp <= k ensures high <= k {
      if k < high { Apart(span, k, high); }
    }
  }

  lemma NearestIs(stamp: int, span: int, low: int, m: int)
    requires span > 0 && MultipleOf(low, span) && MultipleOf(low + span, span) && low <= stamp < low + span
    requires m == if low + span - stamp <= stamp - low then low + span else low
    ensures IsNearest(stamp, span, m)
  {
    forall k | MultipleOf(k, span)
      ensures Abs(m - stamp) < Abs(k - stamp) || (Abs(m - stamp) == Abs(k - stamp) && k <= m)
    {
      if k < low { Apart(span, k, low); }
      if low < k { Apart(span, low, k); }
      if low + span < k { Apart(span, low + span, k); }
    }
  }

  // ----- the results

  /** When rounding fails, and with which error. */
  predicate Fails(naive: int, duration: TimeDelta, e: RoundingError) {
    if !Fits64(duration.Value()) || duration.Value() <= 0 then e == DurationExceedsLimit
    else !Fits64(naive) && e == TimestampExceedsLimit
  }

  predicate Rounds(naive: int, duration: TimeDelta) {
    Fits64(duration.Value()) && duration.Value() > 0 && Fits64(naive)
  }

  /** Truncation goes to the last multiple at or before the stamp, also for stamps
      before the epoch. */
  lemma TruncIsFloor(naive: int, original: int, duration: TimeDelta)
    requires duration.Valid()
    ensures match DurationTrunc(naive, original, duration)
            case Err(e) => Fails(naive, duration, e)
            case Ok(r) => Rounds(naive, duration) && IsFloor(naive, duration.Value(), naive + r - original)
  {
    if Rounds(naive, duration) {
      var span := duration.Value();
      var low := Neighbours(naive, span);
      RemBounds(naive, span);
      FloorIs(naive, span, low);
    }
  }

  lemma RoundUpIsCeiling(naive: int, original: int, duration: TimeDelta)
    requires duration.Valid()
    ensures match DurationRoundUp(naive, original, duration)
            case Err(e) => Fails(naive, duration, e)
            case Ok(r) => Rounds(naive, duration) && IsCeiling(naive, duration.Value(), naive + r - original)
  {
    if Rounds(naive, duration) {
      var span := duration.Value();
      var low := Neighbours(naive, span);
      RemBounds(naive, span);
      CeilingIs(naive, span, if low == naive then low else low + span);
    }
  }

  lemma RoundIsNearest(naive: int, original: int, duration: TimeDelta)
    requires duration.Valid()
    ensures match DurationRound(naive, original, duration)
            case Err(e) => Fails(naive, duration, e)
            case Ok(r) => Rounds(naive, duration) && IsNearest(naive, duration.Value(), naive + r - original)
  {
    if Rounds(naive, duration) {
      var span := duration.Value();
      var low := Neighbours(naive, span);
      RemBounds(naive, span);
      NearestIs(naive, span, low, if low + span - naive <= naive - low then low + span else low);
    }
  }

  lemma FixedPoint(naive: int, original: int, duration: TimeDelta)
    requires duration.Valid() && Rounds(naive, duration) && MultipleOf(naive, duration.Value())
    ensures DurationTrunc(naive, original, duration) == Ok(original)
    ensures DurationRoundUp(naive, original, duration) == Ok(original)
    ensures DurationRound(naive, original, duration) == Ok(original)
  {
    var span := duration.Value();
    var j := Multiplier(naive, span);
    QuotUnique(naive, span, j, 0);
  }

  /** All three operations are idempotent on results whose stamp still fits in `i64`. */
  lemma Idempotent(naive: int, original: int, duration: TimeDelta, r: int)
    requires duration.Valid() && Rounds(naive, duration)
    requires Ok(r) in {DurationTrunc(naive, original, duration), DurationRoundUp(naive, original, duration),
                       DurationRound(naive, original, duration)}
    requires Fits64(naive + r - original)
    ensures DurationTrunc(naive + r - original, r, duration) == Ok(r)
    ensures DurationRoundUp(naive + r - original, r, duration) == Ok(r)
    ensures DurationRound(naive + r - original, r, duration) == Ok(r)
  {
    TruncIsFloor(naive, original, duration);
    RoundUpIsCeiling(naive, original, duration);
    RoundIsNearest(naive, original, duration);
    FixedPoint(naive + r - original, r, duration);
  }
}
