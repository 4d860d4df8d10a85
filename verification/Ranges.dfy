/** Consecutive positions, and what they pick from a sequence. */
module Ranges {
  import opened Sequences

  function Range(a: nat, b: nat): seq<nat>
    decreases b - a
  {
    if b <= a then [] else [a] + Range(a + 1, b)
  }

  lemma {:induction false} RangeIs(a: nat, b: nat)
    requires a <= b
    ensures |Range(a, b)| == b - a && forall i :: 0 <= i < b - a ==> Range(a, b)[i] == a + i
    decreases b - a
  {
    if a == b {
    } else {
      RangeIs(a + 1, b);
    }
  }

  /** Positions `a` up to `end`; if `taken`, positions 0 up to `a` come in between, when
      those up to `mid` are out. */
  function Interleaved(taken: bool, a: nat, mid: nat, end: nat): seq<nat> {
    if taken then Range(a, mid) + Range(0, a) + Range(mid, end) else Range(a, end)
  }

  lemma InterleavedIs(a: nat, mid: nat, end: nat)
    requires a <= mid <= end
    ensures var all := Interleaved(true, a, mid, end);
            && |all| == end
            && (forall i :: 0 <= i < mid - a ==> all[i] == a + i)
            && (forall i :: mid - a <= i < mid ==> all[i] == i - (mid - a))
            && (forall i :: mid <= i < end ==> all[i] == i)
  {
    RangeIs(a, mid);
    RangeIs(0, a);
    RangeIs(mid, end);
  }

  lemma Covers(a: nat, mid: nat, end: nat, p: nat)
    requires a <= mid <= end && p < end
    ensures p in Interleaved(true, a, mid, end)
  {
    var all := Interleaved(true, a, mid, end);
    InterleavedIs(a, mid, end);
    if p < a {
      assert all[mid - a + p] == p;
    } else if p < mid {
      assert all[p - a] == p;
    } else {
      assert all[p] == p;
    }
  }

  ghost predicate AllIn(n: nat, positions: seq<nat>) { forall p: nat :: p < n ==> p in positions }

  lemma AllCovered(a: nat, mid: nat, end: nat, n: nat)
    requires a <= mid <= end && n <= end
    ensures AllIn(n, Interleaved(true, a, mid, end))
  {
    forall p: nat | p < n ensures p in Interleaved(true, a, mid, end) { Covers(a, mid, end, p); }
  }

  lemma AllNeedsTaken(taken: bool, a: nat, mid: nat, end: nat, n: nat)
    requires 0 < a <= mid <= end && 0 < n
    ensures AllIn(n, Interleaved(taken, a, mid, end)) ==> taken
  {
    Misses(taken, a, mid, end);
  }

  /** Position 0 is there only if the first ones are taken. */
  lemma Misses(taken: bool, a: nat, mid: nat, end: nat)
    requires 0 < a <= mid <= end
    ensures 0 in Interleaved(taken, a, mid, end) ==> taken
  {
    RangeIs(a, end);
  }

  lemma Starts(taken: bool, a: nat, mid: nat, end: nat, n: nat)
    requires 0 < a <= mid <= end && 0 < n
    ensures Range(0, n) <= Interleaved(taken, a, mid, end) ==> taken && mid == a
    ensures taken && mid == a && n <= end ==> Range(0, n) <= Interleaved(taken, a, mid, end)
  {
    RangeIs(0, n);
    if taken {
      InterleavedIs(a, mid, end);
    } else {
      RangeIs(a, end);
    }
    if Range(0, n) <= Interleaved(taken, a, mid, end) {
      assert Range(0, n)[0] == Interleaved(taken, a, mid, end)[0];
    }
  }

  lemma Distinct(taken: bool, a: nat, mid: nat, end: nat, i: nat, j: nat)
    requires a <= mid <= end && i < j < |Interleaved(taken, a, mid, end)|
    ensures Interleaved(taken, a, mid, end)[i] != Interleaved(taken, a, mid, end)[j]
  {
    if taken {
      InterleavedIs(a, mid, end);
    } else {
      RangeIs(a, end);
    }
  }

  lemma Bounded(taken: bool, a: nat, mid: nat, end: nat, i: nat)
    requires a <= mid <= end && i < |Interleaved(taken, a, mid, end)|
    ensures Interleaved(taken, a, mid, end)[i] < end
  {
    if taken {
      InterleavedIs(a, mid, end);
    } else {
      RangeIs(a, end);
    }
  }

  // ----- picking

  /** The elements at the given positions; positions beyond the end give nothing. */
  function Pick<T>(s: seq<T>, positions: seq<nat>): seq<T> {
    if positions == [] then []
    else (if positions[0] < |s| then [s[positions[0]]] else []) + Pick(s, positions[1..])
  }

  lemma {:induction false} PickConcat<T>(s: seq<T>, p: seq<nat>, q: seq<nat>)
    ensures Pick(s, p + q) == Pick(s, p) + Pick(s, q)
    decreases |p|
  {
    if p == [] {
      assert p + q == q;
    } else {
      PickConcat(s, p[1..], q);
      assert (p + q)[1..] == p[1..] + q;
      Assoc(if p[0] < |s| then [s[p[0]]] else [], Pick(s, p[1..]), Pick(s, q));
    }
  }

  lemma {:induction false} PickRange<T>(s: seq<T>, a: nat, b: nat)
    requires a <= b <= |s|
    ensures Pick(s, Range(a, b)) == s[a..b]
    decreases b - a
  {
    if a == b {
    } else {
      PickRange(s, a + 1, b);
      assert Range(a, b)[1..] == Range(a + 1, b);
      assert [s[a]] + s[a + 1..b] == s[a..b];
    }
  }

  lemma PickPart<T>(before: seq<T>, part: seq<T>, after: seq<T>, s: seq<T>)
    requires s == before + (part + after)
    ensures Pick(s, Range(|before|, |before| + |part|)) == part
  {
    PickRange(s, |before|, |before| + |part|);
    assert s[|before|..|before| + |part|] == part;
  }

  lemma PickThree<T>(s: seq<T>, p: seq<nat>, q: seq<nat>, r: seq<nat>, x: seq<T>, y: seq<T>, z: seq<T>)
    requires Pick(s, p) == x && Pick(s, q) == y && Pick(s, r) == z
    ensures x + y + z == Pick(s, p + q + r)
  {
    PickConcat(s, p + q, r);
    PickConcat(s, p, q);
  }

  lemma PickParts<T>(a: seq<T>, b: seq<T>, c: seq<T>, rest: seq<T>, s: seq<T>, mid: nat, end: nat)
    requires s == a + (b + (c + rest)) && mid == |a| + |b| && end == mid + |c|
    ensures b + a + c == Pick(s, Range(|a|, mid) + Range(0, |a|) + Range(mid, end))
  {
    PickPart(a, b, c + rest, s);
    PickFirst(a, b + (c + rest), s);
    Assoc(a, b, c + rest);
    PickPart(a + b, c, rest, s);
    PickThree(s, Range(|a|, mid), Range(0, |a|), Range(mid, end), b, a, c);
  }

  lemma PickFirst<T>(a: seq<T>, rest: seq<T>, s: seq<T>)
    requires s == a + rest
    ensures Pick(s, Range(0, |a|)) == a
  {
    assert s == [] + (a + rest);
    PickPart([], a, rest, s);
  }

  /** The parts in the order in which those positions pick them. */
  function Arranged<T>(taken: bool, a: seq<T>, b: seq<T>, c: seq<T>): seq<T> {
    if taken then b + a + c else b + c
  }

  lemma PickArranged<T>(taken: bool, a: seq<T>, b: seq<T>, c: seq<T>, rest: seq<T>, s: seq<T>,
                        positions: seq<nat>, picked: seq<T>)
    requires s == a + (b + (c + rest)) && picked == Arranged(taken, a, b, c)
    requires positions == Interleaved(taken, |a|, |a| + |b|, |a| + |b| + |c|)
    ensures picked == Pick(s, positions)
  {
    if taken {
      PickParts(a, b, c, rest, s, |a| + |b|, |a| + |b| + |c|);
    } else {
      Assoc(b, c, rest);
      PickPart(a, b + c, rest, s);
    }
  }
}
