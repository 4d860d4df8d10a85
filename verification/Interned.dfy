/** `Str`, the two-variant string built on top of the pool. */
module Interned {
  import opened Wrappers
  import opened InternPool
  import opened InternPoolInvariant
  import opened InternPoolTheorems

  /** `Static` wraps a literal; `Counted` wraps an `ArcStr`, that is, a pointer. */
  datatype Str = Static(text: string) | Counted(p: Addr)

  /** A value the program can hold: a counted string owns a live handle. */
  predicate Live(v: State, x: Str) {
    x.Counted? ==> x.p in v.handles && x.p in v.heap
  }

  function AsStr(v: State, x: Str): string
    requires Live(v, x)
  {
    match x
    case Static(text) => text
    case Counted(p) => v.heap[p].content
  }

  /** `PartialEq for Str`: pointers for two counted values, contents otherwise. */
  predicate StrEq(v: State, x: Str, y: Str)
    requires Live(v, x) && Live(v, y)
  {
    if x.Counted? && y.Counted? then x.p == y.p else AsStr(v, x) == AsStr(v, y)
  }

  /** `PartialEq<ArcStr> for Str`. */
  predicate StrEqArc(v: State, x: Str, q: Addr)
    requires Live(v, x) && q in v.heap
  {
    match x
    case Counted(p) => p == q
    case Static(text) => text == v.heap[q].content
  }

  /** `Hash for Str` feeds the content to the hasher, whatever the variant. */
  function HashStr(hasher: string -> nat, v: State, x: Str): nat
    requires Live(v, x)
  {
    hasher(AsStr(v, x))
  }

  /** In every reachable state both equalities are content equality, for all four
      pairs of variants. */
  lemma EqualityIsContent(H: Hasher, v: State, x: Str, y: Str)
    requires Reachable(H, v) && !v.aborted && Live(v, x) && Live(v, y)
    ensures StrEq(v, x, y) <==> AsStr(v, x) == AsStr(v, y)
    ensures y.Counted? ==> (StrEqArc(v, x, y.p) <==> AsStr(v, x) == AsStr(v, y))
  {
    if x.Counted? && y.Counted? {
      Interned(H, v, x.p, y.p);
    }
  }

  /** Equality is an equivalence relation, equal values hash alike, and they hash like
      the plain text. */
  lemma EqualityIsLawful(H: Hasher, v: State, x: Str, y: Str, z: Str, hasher: string -> nat)
    requires Reachable(H, v) && !v.aborted && Live(v, x) && Live(v, y) && Live(v, z)
    ensures StrEq(v, x, x)
    ensures StrEq(v, x, y) ==> StrEq(v, y, x)
    ensures StrEq(v, x, y) && StrEq(v, y, z) ==> StrEq(v, x, z)
    ensures StrEq(v, x, y) ==> HashStr(hasher, v, x) == HashStr(hasher, v, y)
    ensures HashStr(hasher, v, x) == hasher(AsStr(v, x))
  {
    EqualityIsContent(H, v, x, y);
    EqualityIsContent(H, v, y, z);
    EqualityIsContent(H, v, x, z);
  }

  // ----- whole operations

  lemma {:induction false} RunsAppend(H: Hasher, u: State, run: seq<Step>, v: State, step: Step)
    requires Runs(H, u, run, v) && Enabled(H, v, step)
    ensures Runs(H, u, run + [step], Apply(H, v, step))
    decreases |run|
  {
    if run == [] {
      assert Runs(H, Apply(H, v, step), [], Apply(H, v, step));
      assert (run + [step])[1..] == [];
    } else {
      RunsAppend(H, Apply(H, u, run[0]), run[1..], v, step);
      assert (run + [step])[1..] == run[1..] + [step];
    }
  }

  lemma Extends(H: Hasher, v: State, step: Step)
    requires Reachable(H, v) && Enabled(H, v, step)
    ensures Reachable(H, Apply(H, v, step))
  {
    var run :| Runs(H, Init, run, v);
    RunsAppend(H, Init, run, v, step);
  }

  lemma Extends2(H: Hasher, v: State, a: Step, b: Step)
    requires Reachable(H, v) && Enabled(H, v, a) && Enabled(H, Apply(H, v, a), b)
    ensures Reachable(H, Apply(H, Apply(H, v, a), b))
  {
    Extends(H, v, a);
    Extends(H, Apply(H, v, a), b);
  }

  /** No thread is inside an operation. */
  predicate Quiet(v: State) { v.threads == map[] && v.locks == map[] && !v.aborted }

  /** `new` that finds its string. */
  lemma NewHitRuns(H: Hasher, v: State, s: string, p: Addr)
    requires Reachable(H, v) && Quiet(v) && Matches(v, p, H(s), s)
    ensures Reachable(H, Increment(v, p))
  {
    var v1 := Apply(H, v, BeginNew(0, s));
    Extends(H, v, BeginNew(0, s));
    var v2 := Apply(H, v1, FastHit(0, p));
    Extends2(H, v1, FastHit(0, p), FinishFound(0));
    assert Apply(H, v2, FinishFound(0)) == Increment(v, p);
  }

  lemma NewMissesTwice(H: Hasher, v: State, s: string)
    requires Reachable(H, v) && Quiet(v) && Absent(v, H(s), s)
    ensures Reachable(H, v.(locks := map[H(s) := 0], threads := map[0 := SlowVacant(s)]))
  {
    Extends2(H, v, BeginNew(0, s), FastMiss(0));
    var v2 := v.(threads := map[0 := SlowLookup(s)]);
    assert Apply(H, Apply(H, v, BeginNew(0, s)), FastMiss(0)) == v2;
    forall q | q in v2.entries ensures !Matches(v2, q, H(s), s) { assert !Matches(v, q, H(s), s); }
    Extends(H, v2, SlowMiss(0));
    assert Apply(H, v2, SlowMiss(0)) == v.(locks := map[H(s) := 0], threads := map[0 := SlowVacant(s)]);
  }

  /** `new` that misses twice, allocates and inserts. */
  lemma NewMissRuns(H: Hasher, v: State, s: string, p: Addr)
    requires Reachable(H, v) && Quiet(v) && Absent(v, H(s), s) && p !in v.heap
    ensures Reachable(H, v.(heap := v.heap[p := Inner(H(s), 1, s)], entries := v.entries + {p},
                            handles := v.handles + multiset{p}))
  {
    NewMissesTwice(H, v, s);
    var v3 := v.(locks := map[H(s) := 0], threads := map[0 := SlowVacant(s)]);
    Extends2(H, v3, Allocate(0, p), Insert(0));
    assert Apply(H, Apply(H, v3, Allocate(0, p)), Insert(0)) ==
           v.(heap := v.heap[p := Inner(H(s), 1, s)], entries := v.entries + {p}, handles := v.handles + multiset{p});
  }

  /** `drop` while other handles remain. */
  lemma DropSharedRuns(H: Hasher, v: State, p: Addr)
    requires Reachable(H, v) && Quiet(v) && p in v.handles && p in v.heap && v.heap[p].count > 1
    ensures Reachable(H, v.(heap := v.heap[p := v.heap[p].(count := FetchSub(v.heap[p].count))],
                            handles := v.handles - multiset{p}))
  {
    Extends(H, v, Decrement(0, p));
  }

  lemma DropLocks(H: Hasher, v: State, p: Addr)
    requires Reachable(H, v) && Quiet(v) && p in v.handles && p in v.entries && p in v.heap && v.heap[p].count == 1
    ensures var h := v.heap[p].hash;
            Reachable(H, v.(heap := v.heap[p := v.heap[p].(count := 0)], handles := v.handles - multiset{p},
                            locks := map[h := 0], threads := map[0 := DropFound(p, h)]))
  {
    var h := v.heap[p].hash;
    var v1 := v.(heap := v.heap[p := v.heap[p].(count := 0)], handles := v.handles - multiset{p},
                 threads := map[0 := DropPending(p, h)]);
    assert Apply(H, v, Decrement(0, p)) == v1;
    Extends(H, v, Decrement(0, p));
    Extends(H, v1, DropHit(0));
    assert Apply(H, v1, DropHit(0)) == v1.(locks := map[h := 0], threads := map[0 := DropFound(p, h)]);
  }

  lemma DropFrees(H: Hasher, v: State, p: Addr, h: Hash)
    requires Reachable(H, v) && !v.aborted && p in v.heap && v.heap[p].count == 0
    requires v.locks == map[h := 0] && v.threads == map[0 := DropFound(p, h)]
    ensures Reachable(H, v.(heap := v.heap - {p}, entries := v.entries - {p}, locks := map[], threads := map[]))
  {
    var v1 := v.(threads := map[0 := DropRemove(p, h)]);
    assert Apply(H, v, Recheck(0)) == v1;
    Extends(H, v, Recheck(0));
    Extends2(H, v1, Remove(0), Deallocate(0));
    assert Apply(H, Apply(H, v1, Remove(0)), Deallocate(0)) ==
           v.(heap := v.heap - {p}, entries := v.entries - {p}, locks := map[], threads := map[]);
  }

  /** `drop` of the last handle: decrement, lock, re-check, remove, free. */
  lemma DropLastRuns(H: Hasher, v: State, p: Addr)
    requires Reachable(H, v) && Quiet(v) && p in v.handles && p in v.entries && p in v.heap && v.heap[p].count == 1
    ensures Reachable(H, v.(heap := v.heap - {p}, entries := v.entries - {p}, handles := v.handles - multiset{p}))
  {
    DropLocks(H, v, p);
    var h := v.heap[p].hash;
    var v2 := v.(heap := v.heap[p := v.heap[p].(count := 0)], handles := v.handles - multiset{p},
                 locks := map[h := 0], threads := map[0 := DropFound(p, h)]);
    DropFrees(H, v2, p, h);
    assert v2.heap - {p} == v.heap - {p};
  }

  /** What an entry found by content guarantees. */
  lemma EntryFacts(H: Hasher, v: State, s: string, p: Addr)
    requires Reachable(H, v) && !v.aborted && Matches(v, p, H(s), s)
    ensures p in v.heap && v.heap[p].count == v.handles[p]
    ensures forall q :: Matches(v, q, H(s), s) ==> q == p
  {
    ReachableInv(H, v);
  }

  /** What a live handle guarantees about its cell. */
  lemma HandleFacts(H: Hasher, v: State, p: Addr)
    requires Reachable(H, v) && !v.aborted && p in v.handles
    ensures p in v.heap && p in v.entries && v.heap[p].count == v.handles[p]
  {
    MemorySafe(H, v);
  }

  // ----- revival between the decrement and the re-check

  /** One string with one handle, and thread 0 in the middle of dropping it. */
  function Revived(H: Hasher, s: string, p: Addr): State {
    State(map[p := Inner(H(s), 1, s)], {p}, multiset{p}, map[], map[0 := DropPending(p, H(s))], false, false)
  }

  /** The moment after the last decrement. */
  function Pending(H: Hasher, s: string, p: Addr): State {
    State(map[p := Inner(H(s), 0, s)], {p}, multiset{}, map[], map[0 := DropPending(p, H(s))], false, false)
  }

  lemma PendingReachable(H: Hasher, s: string, p: Addr)
    ensures Reachable(H, Pending(H, s, p))
  {
    assert Runs(H, Init, [], Init);
    NewMissRuns(H, Init, s, p);
    var v := State(map[p := Inner(H(s), 1, s)], {p}, multiset{p}, map[], map[], false, false);
    assert v == Init.(heap := Init.heap[p := Inner(H(s), 1, s)], entries := Init.entries + {p},
                      handles := Init.handles + multiset{p});
    Extends(H, v, Decrement(0, p));
    assert Apply(H, v, Decrement(0, p)) == Pending(H, s, p);
  }

  lemma PendingIsFound(H: Hasher, s: string, p: Addr)
    ensures var v := Pending(H, s, p);
            Reachable(H, v.(locks := map[H(s) := 1], threads := v.threads[1 := FastFound(s, p)]))
  {
    PendingReachable(H, s, p);
    var v := Pending(H, s, p);
    var v1 := v.(threads := v.threads[1 := FastLookup(s)]);
    Extends(H, v, BeginNew(1, s));
    assert Apply(H, v, BeginNew(1, s)) == v1;
    Extends(H, v1, FastHit(1, p));
    assert Apply(H, v1, FastHit(1, p)) == v.(locks := map[H(s) := 1], threads := v.threads[1 := FastFound(s, p)]);
  }

  /** A lookup can take hold of a string whose last handle is already gone. */
  lemma RevivalHappens(H: Hasher, s: string, p: Addr)
    ensures Reachable(H, Revived(H, s, p))
  {
    PendingIsFound(H, s, p);
    var v := Pending(H, s, p);
    var v2 := v.(locks := map[H(s) := 1], threads := v.threads[1 := FastFound(s, p)]);
    Extends(H, v2, FinishFound(1));
    assert Apply(H, v2, FinishFound(1)) == Revived(H, s, p);
  }

  /** A drop that finds its string revived gives up: the cell, the entry and the handles
      stay, and only the drop itself is over. */
  lemma RevivalSurvives(H: Hasher, v: State, t: Tid)
    requires Reachable(H, v) && !v.aborted && AtDropLookup(v, t)
    requires v.threads[t].p in v.handles && Keyed(v, v.threads[t].p, v.threads[t].h)
    ensures var v1 := Apply(H, v, DropHit(t));
            Enabled(H, v1, Recheck(t)) && Apply(H, v1, Recheck(t)) == Finish(v, t)
  {
    MemorySafe(H, v);
    var v1 := Apply(H, v, DropHit(t));
    assert v1.locks - {v.threads[t].h} == v.locks;
    assert v1.threads - {t} == v.threads - {t};
  }

  /** The pool as one thread sees it while no other thread is inside an operation.
      Each method performs a whole operation and ends in a reachable state.  Without
      interference a second lookup repeats the first and a re-read count is still
      zero, so those branches are not written out. */
  class ArcStrPool {
    const H: Hasher
    var heap: map<Addr, Inner>
    var entries: set<Addr>
    var handles: multiset<Addr>
    var aborted: bool

    ghost function View(): State
      reads this
    {
      State(heap, entries, handles, map[], map[], false, aborted)
    }

    ghost predicate Valid()
      reads this
    {
      !aborted && Reachable(H, View())
    }

    constructor (h: Hasher)
      ensures Valid() && H == h && View() == Init
    {
      H := h;
      heap, entries, handles, aborted := map[], {}, multiset{}, false;
      new;
      assert Runs(H, Init, [], View());
    }

    /** The table lookup by content. */
    method Find(s: string) returns (found: Option<Addr>)
      ensures found.Some? ==> Matches(View(), found.value, H(s), s)
      ensures found.None? ==> Absent(View(), H(s), s)
    {
      if p :| p in entries && p in heap && heap[p].hash == H(s) && heap[p].content == s {
        found := Some(p);
      } else {
        found := None;
      }
    }

    /** `inc_strong` on behalf of a caller that then owns one more handle. */
    method IncStrong(p: Addr)
      requires p in heap && !aborted
      modifies this
      ensures View() == Increment(old(View()), p)
      ensures aborted <==> old(heap[p].count) >= 0x8000_0000_0000_0000
      ensures !aborted ==> handles == old(handles) + multiset{p} && heap[p].count == old(heap[p].count) + 1
    {
      var n := heap[p].count;
      heap := heap[p := heap[p].(count := FetchAdd(n))];
      if n > ISIZE_MAX {
        aborted := true;
      } else {
        handles := handles + multiset{p};
      }
    }

    /** `ArcStr::new`.  `spare` is the address the allocator returns if asked.  An
        interned string is shared, a new one gets its own cell with count one. */
    method New(s: string, spare: Addr) returns (p: Addr)
      requires Valid() && spare !in heap
      modifies this
      ensures aborted || Valid()
      ensures !aborted ==> p in heap && heap[p].content == s && handles == old(handles) + multiset{p}
      ensures forall q :: Matches(old(View()), q, H(s), s) ==>
                && p == q && entries == old(entries) && heap.Keys == old(heap.Keys)
                && (aborted <==> old(handles)[q] >= 0x8000_0000_0000_0000)
      ensures Absent(old(View()), H(s), s) ==>
                !aborted && p == spare && entries == old(entries) + {p} && heap == old(heap)[p := Inner(H(s), 1, s)]
    {
      var found := Find(s);
      if found.Some? {
        p := found.value;
        EntryFacts(H, View(), s, p);
        NewHitRuns(H, View(), s, p);
        IncStrong(p);
      } else {
        p := spare;
        NewMissRuns(H, View(), s, p);
        heap := heap[p := Inner(H(s), 1, s)];
        entries := entries + {p};
        handles := handles + multiset{p};
      }
    }

    /** `Clone for ArcStr`. */
    method Clone(p: Addr)
      requires Valid() && p in handles
      modifies this
      ensures aborted || Valid()
      ensures aborted <==> old(handles)[p] >= 0x8000_0000_0000_0000
      ensures !aborted ==> handles == old(handles) + multiset{p} && entries == old(entries) && heap.Keys == old(heap.Keys)
    {
      HandleFacts(H, View(), p);
      Extends(H, View(), InternPool.Clone(p));
      IncStrong(p);
    }

    /** `Drop for ArcStr`: the last handle takes the entry and the cell with it. */
    method Drop(p: Addr)
      requires Valid() && p in handles
      modifies this
      ensures Valid()
      ensures handles == old(handles) - multiset{p}
      ensures if old(handles)[p] == 1
              then entries == old(entries) - {p} && heap == old(heap) - {p}
              else entries == old(entries) && heap.Keys == old(heap.Keys)
    {
      HandleFacts(H, View(), p);
      var n := heap[p].count;
      if n != 1 {
        DropSharedRuns(H, View(), p);
        heap := heap[p := heap[p].(count := FetchSub(n))];
        handles := handles - multiset{p};
        return;
      }
      DropLastRuns(H, View(), p);
      heap := heap[p := heap[p].(count := FetchSub(n))];
      handles := handles - multiset{p};
      entries := entries - {p};
      heap := heap - {p};
      assert heap == old(heap) - {p};
    }
  }
}