/** What the string pool guarantees in every interleaving. */
module InternPoolTheorems {
  import opened Wrappers
  import opened InternPool
  import opened InternPoolInvariant

  /** No count is touched and nothing is deallocated at a freed address; every
      live handle points to an allocated cell that is still in the table; and the
      reference count of an entry is the number of its live handles. */
  lemma MemorySafe(H: Hasher, v: State)
    requires Reachable(H, v)
    ensures !v.fault
    ensures !v.aborted ==> forall p :: p in v.handles ==> p in v.heap && p in v.entries
    ensures !v.aborted ==> forall p :: p in v.entries ==> p in v.heap && v.heap[p].count == v.handles[p]
  {
    ReachableInv(H, v);
  }

  /** A deallocation always hits an allocated cell without handles or table entry,
      so no cell is freed twice or freed while in use. */
  lemma FreesOnce(H: Hasher, v: State, t: Tid)
    requires Reachable(H, v) && Enabled(H, v, Deallocate(t))
    ensures v.threads[t].p in v.heap && v.threads[t].p !in v.entries && v.handles[v.threads[t].p] == 0
    ensures forall u :: u in v.threads && v.threads[u].DropFree? && v.threads[u].p == v.threads[t].p ==> u == t
  {
    ReachableInv(H, v);
    assert PcOk(v.heap, v.entries, v.threads[t]);
    forall u | u in v.threads && v.threads[u].DropFree? && v.threads[u].p == v.threads[t].p ensures u == t {
      assert Owns(v.threads[u], v.threads[t].p) && Owns(v.threads[t], v.threads[t].p);
    }
  }

  /** Interning: two live handles are the same pointer exactly when they have the
      same content. */
  lemma Interned(H: Hasher, v: State, p: Addr, q: Addr)
    requires Reachable(H, v) && !v.aborted && p in v.handles && q in v.handles
    ensures p in v.heap && q in v.heap
    ensures p == q <==> v.heap[p].content == v.heap[q].content
  {
    ReachableInv(H, v);
  }

  /** An entry whose handles are all gone is still in the hands of an unfinished
      drop that carries its address and its hash; a cell outside the table is in the
      hands of the thread about to insert or to free it. */
  lemma NothingForgotten(H: Hasher, v: State)
    requires Reachable(H, v) && !v.aborted
    ensures forall p :: p in v.entries && v.handles[p] == 0 ==> p in v.heap && Watched(v.threads, p, v.heap[p].hash)
    ensures forall p :: p in v.heap && p !in v.entries ==> Owned(v.threads, p)
  {
    ReachableInv(H, v);
  }

  /** No leak: once every handle is dropped and every operation has finished, the
      table is empty, every cell has been freed and every lock is released. */
  lemma Drained(H: Hasher, v: State)
    requires Reachable(H, v) && !v.aborted && v.handles == multiset{} && v.threads == map[]
    ensures v.entries == {} && v.heap == map[] && v.locks == map[]
  {
    ReachableInv(H, v);
    NothingForgotten(H, v);
    assert forall p :: v.handles[p] == 0;
    assert v.entries == {};
  }

  /** The step `t` takes next, when it does not have to wait for a lock. */
  ghost predicate CanStep(H: Hasher, v: State, t: Tid) {
    exists step :: Enabled(H, v, step) && !step.Clone? && step.t == t
  }

  /** The lock that a thread at `pc` waits for, if any. */
  function Wanted(H: Hasher, pc: Pc): Option<Hash> {
    match pc
    case FastLookup(s) => Some(H(s))
    case SlowLookup(s) => Some(H(s))
    case DropPending(_, h) => Some(h)
    case _ => None
  }

  lemma Steps(H: Hasher, v: State, t: Tid, step: Step)
    requires Enabled(H, v, step) && !step.Clone? && step.t == t
    ensures CanStep(H, v, t)
  {}

  lemma LookupSteps(H: Hasher, v: State, t: Tid)
    requires !v.aborted && t in v.threads && Wanted(H, v.threads[t]).Some?
    requires Wanted(H, v.threads[t]).value !in v.locks
    ensures CanStep(H, v, t)
  {
    var pc := v.threads[t];
    if pc.DropPending? {
      Steps(H, v, t, if Keyed(v, pc.p, pc.h) then DropHit(t) else DropMiss(t));
    } else if Absent(v, H(pc.s), pc.s) {
      Steps(H, v, t, if pc.FastLookup? then FastMiss(t) else SlowMiss(t));
    } else {
      var p :| p in v.entries && Matches(v, p, H(pc.s), pc.s);
      Steps(H, v, t, if pc.FastLookup? then FastHit(t, p) else SlowHit(t, p));
    }
  }

  lemma {:induction false} FreshAddress(used: set<Addr>) returns (p: Addr)
    ensures forall q :: q in used ==> q < p
  {
    p := 0;
    if used != {} {
      var q :| q in used;
      p := FreshAddress(used - {q});
      assert used == (used - {q}) + {q};
      if p <= q { p := q + 1; }
    }
  }

  lemma HolderSteps(H: Hasher, v: State, t: Tid)
    requires !v.aborted && t in v.threads && Wanted(H, v.threads[t]).None?
    ensures CanStep(H, v, t)
  {
    var p := FreshAddress(v.heap.Keys);
    var step := match v.threads[t] {
      case SlowVacant(_) => Allocate(t, p)
      case SlowInsert(_, _) => Insert(t)
      case DropFound(_, _) => Recheck(t)
      case DropRemove(_, _) => Remove(t)
      case DropFree(_) => Deallocate(t)
      case _ => FinishFound(t)
    };
    Steps(H, v, t, step);
  }

  /** No deadlock: a thread inside an operation can take a step, or it waits for a
      lock whose holder can. */
  lemma NeverStuck(H: Hasher, v: State, t: Tid)
    requires Reachable(H, v) && !v.aborted && t in v.threads
    ensures CanStep(H, v, t) ||
            (var want := Wanted(H, v.threads[t]);
             want.Some? && want.value in v.locks && v.locks[want.value] in v.threads &&
             CanStep(H, v, v.locks[want.value]))
  {
    ReachableInv(H, v);
    var want := Wanted(H, v.threads[t]);
    if want.None? {
      HolderSteps(H, v, t);
    } else if want.value !in v.locks {
      LookupSteps(H, v, t);
    } else {
      HolderSteps(H, v, v.locks[want.value]);
    }
  }

  // ----- the overflow abort

  /** The cell whose count a step is about to raise, if any. */
  function Raises(v: State, step: Step): Option<Addr> {
    match step
    case Clone(p) => Some(p)
    case FinishFound(t) => if CanFinishFound(v, t) then Some(v.threads[t].p) else None
    case _ => None
  }

  lemma StepAborts(H: Hasher, v: State, step: Step)
    requires Inv(H, v) && Enabled(H, v, step)
    ensures Apply(H, v, step).aborted <==>
            Raises(v, step).Some? && v.handles[Raises(v, step).value] >= 0x8000_0000_0000_0000
  {}

  /** In every interleaving a step aborts the process exactly if it takes a further
      handle on a string that already has 2^63 live ones. */
  lemma AbortsExactly(H: Hasher, v: State, step: Step)
    requires Reachable(H, v) && Enabled(H, v, step)
    ensures Apply(H, v, step).aborted <==>
            Raises(v, step).Some? && v.handles[Raises(v, step).value] >= 0x8000_0000_0000_0000
  {
    ReachableInv(H, v);
    StepAborts(H, v, step);
  }

  /** No string can reach 2^63 handles within `n` further steps. */
  ghost predicate Room(handles: multiset<Addr>, n: nat) {
    forall p :: handles[p] + n <= 0x8000_0000_0000_0000
  }

  lemma StepUsesRoom(H: Hasher, v: State, step: Step, n: nat)
    requires Enabled(H, v, step) && n > 0 && Room(v.handles, n)
    ensures Room(Apply(H, v, step).handles, n - 1)
  {
    forall p ensures Apply(H, v, step).handles[p] + n - 1 <= 0x8000_0000_0000_0000 {
      assert v.handles[p] + n <= 0x8000_0000_0000_0000;
      HandlesGrow(H, v, step, p);
    }
  }

  lemma HandlesGrow(H: Hasher, v: State, step: Step, p: Addr)
    requires Enabled(H, v, step)
    ensures Apply(H, v, step).handles[p] <= v.handles[p] + 1
  {}

  lemma {:induction false} RoomyRuns(H: Hasher, v: State, run: seq<Step>, w: State)
    requires Inv(H, v) && !v.aborted && Runs(H, v, run, w) && Room(v.handles, |run|)
    ensures !w.aborted
    decreases |run|
  {
    if run == [] {
    } else {
      var u := Apply(H, v, run[0]);
      StepKeeps(H, v, run[0]);
      RoomyStep(H, v, run[0], |run|);
      StepUsesRoom(H, v, run[0], |run|);
      RoomyRuns(H, u, run[1..], w);
    }
  }

  lemma RoomyStep(H: Hasher, v: State, step: Step, n: nat)
    requires Inv(H, v) && Enabled(H, v, step) && n > 0 && Room(v.handles, n)
    ensures !Apply(H, v, step).aborted
  {
    StepAborts(H, v, step);
    if Raises(v, step).Some? { assert v.handles[Raises(v, step).value] + n <= 0x8000_0000_0000_0000; }
  }

  /** Within 2^63 steps nothing aborts, whatever the threads do. */
  lemma OrdinaryUseNeverAborts(H: Hasher, run: seq<Step>, v: State)
    requires Runs(H, Init, run, v) && |run| <= 0x8000_0000_0000_0000
    ensures !v.aborted
  {
    RoomyRuns(H, Init, run, v);
  }

  // ----- refinement of the plain counter per string

  /** How many `ArcStr` values with content `s` are alive. */
  ghost function LiveCount(v: State, s: string): nat {
    if p :| p in v.entries && p in v.heap && v.heap[p].content == s then v.handles[p] else 0
  }

  /** The abstract effect of a step: a finished `new` or a clone adds one value of
      its content, the start of a drop takes one away, all other steps are silent. */
  ghost function Effect(v: State, step: Step, s: string): int {
    match step
    case FinishFound(t) =>
      if t in v.threads && (v.threads[t].FastFound? || v.threads[t].SlowFound?) && v.threads[t].s == s then 1 else 0
    case Insert(t) => if t in v.threads && v.threads[t].SlowInsert? && v.threads[t].s == s then 1 else 0
    case Clone(p) => if p in v.heap && v.heap[p].content == s then 1 else 0
    case Decrement(_, p) => if p in v.heap && v.heap[p].content == s then -1 else 0
    case _ => 0
  }

  /** The part of the invariant that makes `LiveCount` well determined. */
  ghost predicate Distinct(v: State) {
    && (forall p :: p in v.entries ==> p in v.heap)
    && (forall p, q :: p in v.entries && q in v.entries && v.heap[p].content == v.heap[q].content ==> p == q)
  }

  ghost predicate Countable(v: State) {
    && Distinct(v)
    && PcsOk(v.heap, v.entries, v.threads)
    && (forall p :: p in v.handles ==> p in v.entries)
    && (forall p :: p in v.entries ==> v.heap[p].count == v.handles[p])
  }

  lemma LiveCountIs(v: State, p: Addr)
    requires Distinct(v) && p in v.entries
    ensures LiveCount(v, v.heap[p].content) == v.handles[p]
  {}

  /** Same entries with the same contents, and the same handles for content `s`. */
  lemma LiveCountFrame(v: State, w: State, s: string)
    requires Distinct(v) && Distinct(w) && v.entries == w.entries
    requires forall p :: p in v.entries ==> w.heap[p].content == v.heap[p].content
    requires forall p :: p in v.entries && v.heap[p].content == s ==> w.handles[p] == v.handles[p]
    ensures LiveCount(w, s) == LiveCount(v, s)
  {
    if p :| p in v.entries && v.heap[p].content == s {
      LiveCountIs(v, p);
      LiveCountIs(w, p);
    }
  }

  /** Same entries with the same contents; only the handles of `p` differ. */
  lemma LiveCountChanges(v: State, w: State, p: Addr, s: string)
    requires Distinct(v) && Distinct(w) && v.entries == w.entries && p in v.entries
    requires forall q :: q in v.entries ==> w.heap[q].content == v.heap[q].content
    requires forall q :: q != p ==> w.handles[q] == v.handles[q]
    ensures if v.heap[p].content == s
            then LiveCount(w, s) == w.handles[p] && LiveCount(v, s) == v.handles[p]
            else LiveCount(w, s) == LiveCount(v, s)
  {
    if v.heap[p].content == s {
      LiveCountIs(v, p);
      LiveCountIs(w, p);
    } else {
      LiveCountFrame(v, w, s);
    }
  }

  lemma InsertCounts(H: Hasher, v: State, t: Tid, s: string)
    requires Distinct(v) && CanInsert(v, t) && PcOk(v.heap, v.entries, v.threads[t]) && v.threads[t].p !in v.handles
    ensures LiveCount(DoInsert(H, v, t), s) == LiveCount(v, s) + Effect(v, Insert(t), s)
  {
    var pc, w := v.threads[t], DoInsert(H, v, t);
    if s == pc.s {
      LiveCountIs(w, pc.p);
    } else if p :| p in v.entries && v.heap[p].content == s {
      LiveCountIs(v, p);
      LiveCountIs(w, p);
    }
  }

  lemma RemoveCounts(v: State, t: Tid, s: string)
    requires Countable(v) && CanRemove(v, t)
    ensures LiveCount(DoRemove(v, t), s) == LiveCount(v, s)
  {
    var pc, w := v.threads[t], DoRemove(v, t);
    assert PcOk(v.heap, v.entries, pc);
    if p :| p in v.entries && v.heap[p].content == s {
      LiveCountIs(v, p);
      if p != pc.p { LiveCountIs(w, p); }
    }
  }

  lemma FinishFoundCounts(H: Hasher, v: State, t: Tid, s: string)
    requires Countable(v) && CanFinishFound(v, t)
    requires !DoFinishFound(H, v, t).aborted && !v.aborted
    ensures LiveCount(DoFinishFound(H, v, t), s) == LiveCount(v, s) + Effect(v, FinishFound(t), s)
  {
    assert PcOk(v.heap, v.entries, v.threads[t]);
    LiveCountChanges(v, DoFinishFound(H, v, t), v.threads[t].p, s);
  }

  lemma CloneCounts(v: State, p: Addr, s: string)
    requires Countable(v) && p in v.handles && !Increment(v, p).aborted && !v.aborted
    ensures LiveCount(Increment(v, p), s) == LiveCount(v, s) + Effect(v, Clone(p), s)
  {
    LiveCountChanges(v, Increment(v, p), p, s);
  }

  lemma DecrementCounts(v: State, t: Tid, p: Addr, s: string)
    requires Distinct(v) && p in v.entries && p in v.handles
    ensures LiveCount(DoDecrement(v, t, p), s) == LiveCount(v, s) + Effect(v, Decrement(t, p), s)
  {
    var w := DoDecrement(v, t, p);
    assert w.entries == v.entries && w.handles == v.handles - multiset{p};
    assert forall q :: q in v.heap ==> q in w.heap && w.heap[q].content == v.heap[q].content;
    LiveCountChanges(v, w, p, s);
  }

  lemma SilentCounts(H: Hasher, v: State, step: Step, s: string)
    requires Countable(v) && Enabled(H, v, step)
    requires !step.FinishFound? && !step.Insert? && !step.Clone? && !step.Decrement? && !step.Remove?
    ensures LiveCount(Apply(H, v, step), s) == LiveCount(v, s)
  {
    assert step.Deallocate? ==> PcOk(v.heap, v.entries, v.threads[step.t]);
    LiveCountFrame(v, Apply(H, v, step), s);
  }

  lemma CounterFacts(H: Hasher, v: State)
    requires Reachable(H, v) && !v.aborted
    ensures Countable(v)
  {
    ReachableInv(H, v);
  }

  /** Refinement: in every interleaving each step changes the number of live values
      of each string by exactly its abstract effect. */
  lemma StepRefinesCounter(H: Hasher, v: State, step: Step, s: string)
    requires Reachable(H, v) && Enabled(H, v, step) && !Apply(H, v, step).aborted
    ensures LiveCount(Apply(H, v, step), s) == LiveCount(v, s) + Effect(v, step, s)
  {
    CounterFacts(H, v);
    match step
    case FinishFound(t) => FinishFoundCounts(H, v, t, s);
    case Insert(t) =>
      assert PcOk(v.heap, v.entries, v.threads[t]);
      InsertCounts(H, v, t, s);
    case Clone(p) => CloneCounts(v, p, s);
    case Decrement(t, p) => DecrementCounts(v, t, p, s);
    case Remove(t) => RemoveCounts(v, t, s);
    case _ => SilentCounts(H, v, step, s);
  }
}
