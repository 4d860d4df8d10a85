/** The inductive invariant of the string pool, and the proof that every atomic
    step of every thread keeps it. */
module InternPoolInvariant {
  import opened Wrappers
  import opened InternPool

  type Heap = map<Addr, Inner>
  type Threads = map<Tid, Pc>

  /** Cells, table and counts agree. */
  ghost predicate CellsOk(H: Hasher, heap: Heap, entries: set<Addr>, handles: multiset<Addr>) {
    && (forall p :: p in entries ==> p in heap)
    && (forall p :: p in heap ==> heap[p].hash == H(heap[p].content))
    && (forall p :: p in entries ==> heap[p].count == handles[p] <= ISIZE_MAX + 1)
    && (forall p :: p in handles ==> p in entries)
    && (forall p, q :: p in entries && q in entries && heap[p].content == heap[q].content ==> p == q)
  }

  /** The hash whose lock a thread at `pc` holds, if any. */
  function Held(H: Hasher, pc: Pc): Option<Hash> {
    match pc
    case FastFound(s, _) => Some(H(s))
    case SlowFound(s, _) => Some(H(s))
    case SlowVacant(s) => Some(H(s))
    case SlowInsert(s, _) => Some(H(s))
    case DropFound(_, h) => Some(h)
    case DropRemove(_, h) => Some(h)
    case _ => None
  }

  /** A lock has exactly one holder, and holders own their locks. */
  ghost predicate LocksOk(H: Hasher, locks: map<Hash, Tid>, threads: Threads) {
    && (forall t :: t in threads && Held(H, threads[t]).Some? ==>
          Held(H, threads[t]).value in locks && locks[Held(H, threads[t]).value] == t)
    && (forall h :: h in locks ==> locks[h] in threads && Held(H, threads[locks[h]]) == Some(h))
  }

  /** What a thread may rely on at each program point. */
  ghost predicate PcOk(heap: Heap, entries: set<Addr>, pc: Pc) {
    match pc
    case FastFound(s, p) => p in entries && p in heap && heap[p].content == s
    case SlowFound(s, p) => p in entries && p in heap && heap[p].content == s
    case SlowVacant(s) => NoEntry(heap, entries, s)
    case SlowInsert(s, p) =>
      p in heap && p !in entries && heap[p].content == s && heap[p].count == 1 && NoEntry(heap, entries, s)
    case DropFound(p, h) => p in entries && p in heap && heap[p].hash == h
    case DropRemove(p, h) => p in entries && p in heap && heap[p].hash == h && heap[p].count == 0
    case DropFree(p) => p in heap && p !in entries
    case _ => true
  }

  ghost predicate NoEntry(heap: Heap, entries: set<Addr>, s: string) {
    forall p :: p in entries && p in heap ==> heap[p].content != s
  }

  ghost predicate PcsOk(heap: Heap, entries: set<Addr>, threads: Threads) {
    forall t :: t in threads ==> PcOk(heap, entries, threads[t])
  }

  /** A thread that alone is responsible for a cell outside the table. */
  predicate Owns(pc: Pc, p: Addr) {
    (pc.SlowInsert? || pc.DropFree?) && pc.p == p
  }

  /** A drop that will still look at the entry of `p` under hash `h`. */
  predicate Watches(pc: Pc, p: Addr, h: Hash) {
    (pc.DropPending? || pc.DropFound? || pc.DropRemove?) && pc.p == p && pc.h == h
  }

  ghost predicate Owned(threads: Threads, p: Addr) {
    exists t :: t in threads && Owns(threads[t], p)
  }

  ghost predicate Watched(threads: Threads, p: Addr, h: Hash) {
    exists t :: t in threads && Watches(threads[t], p, h)
  }

  /** Cells outside the table have exactly one owner. */
  ghost predicate OwnersOk(heap: Heap, entries: set<Addr>, threads: Threads) {
    && (forall p :: p in heap && p !in entries ==> Owned(threads, p))
    && (forall t, u, p :: t in threads && u in threads && Owns(threads[t], p) && Owns(threads[u], p) ==> t == u)
  }

  /** Entries without handles are watched by some unfinished drop. */
  ghost predicate WatchersOk(heap: Heap, entries: set<Addr>, threads: Threads) {
    forall p :: p in entries && p in heap && heap[p].count == 0 ==> Watched(threads, p, heap[p].hash)
  }

  ghost predicate Sound(H: Hasher, v: State) {
    && !v.fault
    && CellsOk(H, v.heap, v.entries, v.handles)
    && LocksOk(H, v.locks, v.threads)
    && PcsOk(v.heap, v.entries, v.threads)
    && OwnersOk(v.heap, v.entries, v.threads)
    && WatchersOk(v.heap, v.entries, v.threads)
  }

  ghost predicate Inv(H: Hasher, v: State) {
    !v.fault && (v.aborted || Sound(H, v))
  }

  // ----- frame lemmas: one thread moves, the others stay

  /** `threads'` differs from `threads` at most at `t`. */
  ghost predicate OnlyMoves(threads: Threads, t: Tid, threads': Threads) {
    forall u :: u != t ==> (u in threads' <==> u in threads) && (u in threads ==> threads'[u] == threads[u])
  }

  function HeldBy(H: Hasher, threads: Threads, t: Tid): Option<Hash> {
    if t in threads then Held(H, threads[t]) else None
  }

  lemma LocksStay(H: Hasher, locks: map<Hash, Tid>, threads: Threads, t: Tid, threads': Threads)
    requires LocksOk(H, locks, threads) && OnlyMoves(threads, t, threads')
    requires HeldBy(H, threads', t) == HeldBy(H, threads, t)
    ensures LocksOk(H, locks, threads')
  {
    forall h | h in locks ensures locks[h] in threads' && Held(H, threads'[locks[h]]) == Some(h) {
      if locks[h] == t { assert HeldBy(H, threads, t) == Some(h); }
    }
  }

  lemma LocksAcquire(H: Hasher, locks: map<Hash, Tid>, threads: Threads, t: Tid, threads': Threads, h: Hash)
    requires LocksOk(H, locks, threads) && OnlyMoves(threads, t, threads')
    requires h !in locks && HeldBy(H, threads, t) == None && HeldBy(H, threads', t) == Some(h)
    ensures LocksOk(H, locks[h := t], threads')
  {
    forall g | g in locks ensures locks[g] in threads' && Held(H, threads'[locks[g]]) == Some(g) {
      assert locks[g] != t;
    }
  }

  lemma LocksRelease(H: Hasher, locks: map<Hash, Tid>, threads: Threads, t: Tid, threads': Threads, h: Hash)
    requires LocksOk(H, locks, threads) && OnlyMoves(threads, t, threads')
    requires HeldBy(H, threads, t) == Some(h) && HeldBy(H, threads', t) == None
    ensures LocksOk(H, locks - {h}, threads')
  {
    forall g | g in locks && g != h ensures locks[g] in threads' && Held(H, threads'[locks[g]]) == Some(g) {
      assert locks[g] != t;
    }
    forall u | u in threads' && Held(H, threads'[u]).Some?
      ensures Held(H, threads'[u]).value in locks && Held(H, threads'[u]).value != h && locks[Held(H, threads'[u]).value] == u
    {
      assert u != t && u in threads && threads'[u] == threads[u];
    }
  }

  predicate OwnedBy(threads: Threads, t: Tid, p: Addr) { t in threads && Owns(threads[t], p) }

  predicate WatchedBy(threads: Threads, t: Tid, p: Addr, h: Hash) { t in threads && Watches(threads[t], p, h) }

  predicate Loose(heap: Heap, entries: set<Addr>, p: Addr) { p in heap && p !in entries }

  /** Ownership changes hands for at most the cell `p0`, and only through `t`. */
  lemma OwnersFollow(heap: Heap, entries: set<Addr>, threads: Threads, t: Tid, p0: Addr,
                     heap': Heap, entries': set<Addr>, threads': Threads)
    requires OwnersOk(heap, entries, threads) && OnlyMoves(threads, t, threads')
    requires forall p :: p != p0 ==> Loose(heap', entries', p) == Loose(heap, entries, p)
    requires forall p :: p != p0 ==> OwnedBy(threads', t, p) == OwnedBy(threads, t, p)
    requires Loose(heap', entries', p0) ==> OwnedBy(threads', t, p0)
    requires forall u :: u in threads && u != t ==> !Owns(threads[u], p0)
    ensures OwnersOk(heap', entries', threads')
  {
    forall p | p in heap' && p !in entries' ensures Owned(threads', p) {
      if p != p0 {
        assert Loose(heap', entries', p) && Loose(heap, entries, p);
        var u :| u in threads && Owns(threads[u], p);
        assert OwnedBy(threads', t, p) == OwnedBy(threads, t, p);
        assert u in threads' && Owns(threads'[u], p);
      } else {
        assert Loose(heap', entries', p0);
        assert t in threads' && Owns(threads'[t], p);
      }
    }
    forall u, w, p | u in threads' && w in threads' && Owns(threads'[u], p) && Owns(threads'[w], p)
      ensures u == w
    {
      assert OwnedBy(threads', u, p) && OwnedBy(threads', w, p);
      if p != p0 { assert OwnedBy(threads', t, p) == OwnedBy(threads, t, p); }
    }
  }

  lemma OwnersStay(heap: Heap, entries: set<Addr>, threads: Threads, t: Tid, heap': Heap, threads': Threads)
    requires OwnersOk(heap, entries, threads) && OnlyMoves(threads, t, threads')
    requires heap'.Keys == heap.Keys
    requires forall p :: !OwnedBy(threads, t, p) && !OwnedBy(threads', t, p)
    ensures OwnersOk(heap', entries, threads')
  {
    forall p | p in heap' && p !in entries ensures Owned(threads', p) {
      assert p in heap;
      var u :| u in threads && Owns(threads[u], p);
      assert u != t by { assert !OwnedBy(threads, t, p); }
      assert u in threads' && Owns(threads'[u], p);
    }
    forall u, w, p | u in threads' && w in threads' && Owns(threads'[u], p) && Owns(threads'[w], p)
      ensures u == w
    {
      assert !OwnedBy(threads', t, p);
    }
  }

  /** Every entry at count zero keeps a watcher, old or new. */
  lemma WatchersFollow(heap: Heap, entries: set<Addr>, threads: Threads, t: Tid,
                       heap': Heap, entries': set<Addr>, threads': Threads)
    requires WatchersOk(heap, entries, threads) && OnlyMoves(threads, t, threads')
    requires forall p :: p in entries' && p in heap' && heap'[p].count == 0 ==>
               || WatchedBy(threads', t, p, heap'[p].hash)
               || (p in entries && p in heap && heap[p].count == 0 && heap[p].hash == heap'[p].hash &&
                   !WatchedBy(threads, t, p, heap[p].hash))
    ensures WatchersOk(heap', entries', threads')
  {
    forall p | p in entries' && p in heap' && heap'[p].count == 0
      ensures Watched(threads', p, heap'[p].hash)
    {
      if WatchedBy(threads', t, p, heap'[p].hash) {
        assert t in threads' && Watches(threads'[t], p, heap'[p].hash);
      } else {
        var u :| u in threads && Watches(threads[u], p, heap[p].hash);
        assert u != t by { assert !WatchedBy(threads, t, p, heap[p].hash); }
        assert u in threads' && Watches(threads'[u], p, heap'[p].hash);
      }
    }
  }

  /** Two different threads never hold the lock of the same hash. */
  lemma LocksExclude(H: Hasher, v: State, t: Tid, u: Tid)
    requires LocksOk(H, v.locks, v.threads)
    requires t in v.threads && u in v.threads && Held(H, v.threads[t]).Some?
    requires Held(H, v.threads[t]) == Held(H, v.threads[u])
    ensures t == u
  {}

  // ----- every step keeps the invariant

  /** Only `t` moves, neither before nor after in charge of a loose cell, and it
      abandons no entry at count zero. */
  lemma MoveKeeps(H: Hasher, v: State, t: Tid, locks': map<Hash, Tid>, threads': Threads)
    requires Sound(H, v) && OnlyMoves(v.threads, t, threads') && LocksOk(H, locks', threads')
    requires t in threads' ==> PcOk(v.heap, v.entries, threads'[t])
    requires forall p :: !OwnedBy(v.threads, t, p) && !OwnedBy(threads', t, p)
    requires forall p :: p in v.entries && p in v.heap && v.heap[p].count == 0 && WatchedBy(v.threads, t, p, v.heap[p].hash) ==>
               WatchedBy(threads', t, p, v.heap[p].hash)
    ensures Sound(H, v.(locks := locks', threads := threads'))
  {
    OwnersStay(v.heap, v.entries, v.threads, t, v.heap, threads');
    WatchersFollow(v.heap, v.entries, v.threads, t, v.heap, v.entries, threads');
  }

  lemma BeginNewKeeps(H: Hasher, v: State, t: Tid, pc: Pc)
    requires Sound(H, v) && (t !in v.threads || v.threads[t].FastLookup?)
    requires pc.FastLookup? || pc.SlowLookup?
    ensures Sound(H, Goto(v, t, pc))
  {
    var threads' := v.threads[t := pc];
    LocksStay(H, v.locks, v.threads, t, threads');
    MoveKeeps(H, v, t, v.locks, threads');
  }

  /** A lookup of `new` that takes the lock of the hash of `s`. */
  lemma LookupKeeps(H: Hasher, v: State, t: Tid, s: string, pc: Pc)
    requires Sound(H, v) && t in v.threads && (v.threads[t].FastLookup? || v.threads[t].SlowLookup?)
    requires H(s) !in v.locks && Held(H, pc) == Some(H(s)) && PcOk(v.heap, v.entries, pc)
    requires pc.FastFound? || pc.SlowFound? || pc.SlowVacant?
    ensures Sound(H, Goto(Lock(v, H(s), t), t, pc))
  {
    var threads' := v.threads[t := pc];
    LocksAcquire(H, v.locks, v.threads, t, threads', H(s));
    MoveKeeps(H, v, t, v.locks[H(s) := t], threads');
  }

  lemma SlowMissKeeps(H: Hasher, v: State, t: Tid)
    requires Sound(H, v) && CanMiss(H, v, t, false)
    ensures Sound(H, DoSlowMiss(H, v, t))
  {
    var s := v.threads[t].s;
    assert NoEntry(v.heap, v.entries, s) by {
      forall p | p in v.entries && p in v.heap ensures v.heap[p].content != s {
        assert !Matches(v, p, H(s), s);
      }
    }
    LookupKeeps(H, v, t, s, SlowVacant(s));
  }

  lemma DropHitKeeps(H: Hasher, v: State, t: Tid)
    requires Sound(H, v) && AtDropLookup(v, t) && Keyed(v, v.threads[t].p, v.threads[t].h)
    ensures Sound(H, DoDropHit(v, t))
  {
    var pc := v.threads[t];
    var threads' := v.threads[t := DropFound(pc.p, pc.h)];
    LocksAcquire(H, v.locks, v.threads, t, threads', pc.h);
    MoveKeeps(H, v, t, v.locks[pc.h := t], threads');
  }

  lemma DropMissKeeps(H: Hasher, v: State, t: Tid)
    requires Sound(H, v) && AtDropLookup(v, t) && !Keyed(v, v.threads[t].p, v.threads[t].h)
    ensures Sound(H, Finish(v, t))
  {
    LocksStay(H, v.locks, v.threads, t, v.threads - {t});
    MoveKeeps(H, v, t, v.locks, v.threads - {t});
  }

  lemma RecheckKeeps(H: Hasher, v: State, t: Tid)
    requires Sound(H, v) && CanRecheck(v, t)
    ensures Sound(H, DoRecheck(v, t))
  {
    var pc := v.threads[t];
    assert PcOk(v.heap, v.entries, pc);
    if v.heap[pc.p].count != 0 {
      LocksRelease(H, v.locks, v.threads, t, v.threads - {t}, pc.h);
      MoveKeeps(H, v, t, v.locks - {pc.h}, v.threads - {t});
    } else {
      var threads' := v.threads[t := DropRemove(pc.p, pc.h)];
      LocksStay(H, v.locks, v.threads, t, threads');
      MoveKeeps(H, v, t, v.locks, threads');
    }
  }

  /** Changing only the count of the cell `p` is invisible to every thread that
      does not rely on that count. */
  lemma PcsIgnoreCount(heap: Heap, entries: set<Addr>, threads: Threads, p: Addr, n: nat)
    requires PcsOk(heap, entries, threads) && p in entries && p in heap
    requires forall u :: u in threads && threads[u].DropRemove? ==> threads[u].p != p
    ensures PcsOk(heap[p := heap[p].(count := n)], entries, threads)
  {
    var heap' := heap[p := heap[p].(count := n)];
    forall u | u in threads ensures PcOk(heap', entries, threads[u]) {
      assert PcOk(heap, entries, threads[u]);
    }
  }

  lemma CellsCount(H: Hasher, heap: Heap, entries: set<Addr>, handles: multiset<Addr>,
                   p: Addr, n: nat, handles': multiset<Addr>)
    requires CellsOk(H, heap, entries, handles) && p in entries
    requires n == handles'[p] <= ISIZE_MAX + 1
    requires forall q :: q != p ==> handles'[q] == handles[q]
    ensures CellsOk(H, heap[p := heap[p].(count := n)], entries, handles')
  {
    forall q | q in handles' && q != p ensures q in entries {
      assert handles'[q] == handles[q];
    }
  }

  lemma IncrementThreads(heap: Heap, entries: set<Addr>, threads: Threads, p: Addr, n: nat)
    requires OwnersOk(heap, entries, threads) && WatchersOk(heap, entries, threads) && p in entries && p in heap && n > 0
    ensures var heap' := heap[p := heap[p].(count := n)];
            OwnersOk(heap', entries, threads) && WatchersOk(heap', entries, threads)
  {}

  /** A count that goes up at an entry nobody is about to remove. */
  lemma IncrementKeeps(H: Hasher, v: State, p: Addr)
    requires Sound(H, v) && !v.aborted
    requires p in v.entries
    requires forall u :: u in v.threads && v.threads[u].DropRemove? ==> v.threads[u].p != p
    ensures Inv(H, Increment(v, p))
  {
    var w := Increment(v, p);
    if !w.aborted {
      var n := v.heap[p].count + 1;
      assert w.heap == v.heap[p := v.heap[p].(count := n)];
      PcsIgnoreCount(v.heap, v.entries, v.threads, p, n);
      CellsCount(H, v.heap, v.entries, v.handles, p, n, w.handles);
      IncrementThreads(v.heap, v.entries, v.threads, p, n);
    }
  }

  lemma CloneKeeps(H: Hasher, v: State, p: Addr)
    requires Sound(H, v) && p in v.handles && !v.aborted
    ensures Inv(H, Increment(v, p))
  {
    forall u | u in v.threads && v.threads[u].DropRemove? ensures v.threads[u].p != p {
      assert PcOk(v.heap, v.entries, v.threads[u]);
    }
    IncrementKeeps(H, v, p);
  }

  lemma FinishFoundKeeps(H: Hasher, v: State, t: Tid)
    requires Sound(H, v) && !v.aborted && CanFinishFound(v, t)
    ensures Inv(H, DoFinishFound(H, v, t))
  {
    var pc := v.threads[t];
    assert PcOk(v.heap, v.entries, pc);
    forall u | u in v.threads && v.threads[u].DropRemove? ensures v.threads[u].p != pc.p {
      assert PcOk(v.heap, v.entries, v.threads[u]);
      if v.threads[u].p == pc.p { LocksExclude(H, v, t, u); }
    }
    IncrementKeeps(H, v, pc.p);
    var u, w := Increment(v, pc.p), DoFinishFound(H, v, t);
    if !u.aborted {
      LocksRelease(H, u.locks, u.threads, t, w.threads, H(pc.s));
      MoveKeeps(H, u, t, w.locks, w.threads);
    }
  }

  lemma AllocateOwners(H: Hasher, v: State, t: Tid, p: Addr)
    requires Sound(H, v) && CanAllocate(v, t, p)
    ensures var w := DoAllocate(H, v, t, p); OwnersOk(w.heap, w.entries, w.threads)
  {
    var w := DoAllocate(H, v, t, p);
    forall u | u in v.threads ensures !Owns(v.threads[u], p) {
      assert PcOk(v.heap, v.entries, v.threads[u]);
    }
    OwnersFollow(v.heap, v.entries, v.threads, t, p, w.heap, w.entries, w.threads);
  }

  lemma AllocatePcs(H: Hasher, v: State, t: Tid, p: Addr)
    requires Sound(H, v) && CanAllocate(v, t, p)
    ensures var w := DoAllocate(H, v, t, p); PcsOk(w.heap, w.entries, w.threads)
  {
    var w := DoAllocate(H, v, t, p);
    forall u | u in w.threads ensures PcOk(w.heap, w.entries, w.threads[u]) {
      assert u in v.threads && PcOk(v.heap, v.entries, v.threads[u]);
    }
  }

  lemma AllocateKeeps(H: Hasher, v: State, t: Tid, p: Addr)
    requires Sound(H, v) && CanAllocate(v, t, p)
    ensures Sound(H, DoAllocate(H, v, t, p))
  {
    var w := DoAllocate(H, v, t, p);
    LocksStay(H, v.locks, v.threads, t, w.threads);
    AllocateOwners(H, v, t, p);
    AllocatePcs(H, v, t, p);
    WatchersFollow(v.heap, v.entries, v.threads, t, w.heap, w.entries, w.threads);
  }

  lemma InsertPcs(H: Hasher, v: State, t: Tid)
    requires Sound(H, v) && CanInsert(v, t)
    ensures PcsOk(v.heap, v.entries + {v.threads[t].p}, v.threads - {t})
  {
    var pc := v.threads[t];
    assert PcOk(v.heap, v.entries, pc);
    forall u | u in v.threads && u != t ensures PcOk(v.heap, v.entries + {pc.p}, v.threads[u]) {
      var at := v.threads[u];
      assert PcOk(v.heap, v.entries, at);
      if at.SlowVacant? || at.SlowInsert? {
        if at.s == pc.s { LocksExclude(H, v, t, u); }
      }
      if Owns(at, pc.p) { assert Owns(pc, pc.p); }
    }
  }

  lemma InsertOwners(H: Hasher, v: State, t: Tid)
    requires Sound(H, v) && CanInsert(v, t)
    ensures OwnersOk(v.heap, v.entries + {v.threads[t].p}, v.threads - {t})
  {
    var pc := v.threads[t];
    assert Owns(pc, pc.p);
    OwnersFollow(v.heap, v.entries, v.threads, t, pc.p, v.heap, v.entries + {pc.p}, v.threads - {t});
  }

  lemma InsertCells(H: Hasher, v: State, t: Tid)
    requires Sound(H, v) && CanInsert(v, t)
    ensures var p := v.threads[t].p; CellsOk(H, v.heap, v.entries + {p}, v.handles + multiset{p})
  {
    assert PcOk(v.heap, v.entries, v.threads[t]);
  }

  lemma InsertKeeps(H: Hasher, v: State, t: Tid)
    requires Sound(H, v) && CanInsert(v, t)
    ensures Sound(H, DoInsert(H, v, t))
  {
    var pc, w := v.threads[t], DoInsert(H, v, t);
    assert PcOk(v.heap, v.entries, pc);
    LocksRelease(H, v.locks, v.threads, t, w.threads, H(pc.s));
    InsertPcs(H, v, t);
    InsertOwners(H, v, t);
    InsertCells(H, v, t);
    WatchersFollow(v.heap, v.entries, v.threads, t, w.heap, w.entries, w.threads);
  }

  lemma DecrementCells(H: Hasher, v: State, p: Addr)
    requires Sound(H, v) && p in v.handles
    ensures p in v.entries && v.heap[p].count > 0
    ensures var heap' := v.heap[p := v.heap[p].(count := v.heap[p].count - 1)];
            CellsOk(H, heap', v.entries, v.handles - multiset{p}) && PcsOk(heap', v.entries, v.threads)
  {
    var n := v.heap[p].count - 1;
    forall u | u in v.threads && v.threads[u].DropRemove? ensures v.threads[u].p != p {
      assert PcOk(v.heap, v.entries, v.threads[u]);
    }
    PcsIgnoreCount(v.heap, v.entries, v.threads, p, n);
    CellsCount(H, v.heap, v.entries, v.handles, p, n, v.handles - multiset{p});
  }

  lemma DecrementThreads(H: Hasher, v: State, t: Tid, p: Addr, heap': Heap, threads': Threads)
    requires Sound(H, v) && p in v.entries && v.heap[p].count > 0 && t !in v.threads
    requires heap' == v.heap[p := v.heap[p].(count := v.heap[p].count - 1)]
    requires threads' == if v.heap[p].count == 1 then v.threads[t := DropPending(p, v.heap[p].hash)] else v.threads
    ensures LocksOk(H, v.locks, threads')
    ensures OwnersOk(heap', v.entries, threads')
    ensures WatchersOk(heap', v.entries, threads')
    ensures PcsOk(heap', v.entries, v.threads) ==> PcsOk(heap', v.entries, threads')
  {
    LocksStay(H, v.locks, v.threads, t, threads');
    OwnersStay(v.heap, v.entries, v.threads, t, heap', threads');
    WatchersFollow(v.heap, v.entries, v.threads, t, heap', v.entries, threads');
  }

  lemma DecrementKeeps(H: Hasher, v: State, t: Tid, p: Addr)
    requires Sound(H, v) && t !in v.threads && p in v.handles
    ensures Sound(H, DoDecrement(v, t, p))
  {
    DecrementCells(H, v, p);
    var n := v.heap[p].count;
    var heap' := v.heap[p := v.heap[p].(count := n - 1)];
    var threads' := if n == 1 then v.threads[t := DropPending(p, v.heap[p].hash)] else v.threads;
    DecrementThreads(H, v, t, p, heap', threads');
    assert DoDecrement(v, t, p) == v.(heap := heap', handles := v.handles - multiset{p}, threads := threads') by {
      assert FetchSub(n) == n - 1;
    }
  }

  lemma RemovePcs(H: Hasher, v: State, t: Tid)
    requires Sound(H, v) && CanRemove(v, t)
    ensures PcsOk(v.heap, v.entries - {v.threads[t].p}, v.threads[t := DropFree(v.threads[t].p)])
  {
    var pc := v.threads[t];
    assert PcOk(v.heap, v.entries, pc);
    forall u | u in v.threads && u != t ensures PcOk(v.heap, v.entries - {pc.p}, v.threads[u]) {
      var at := v.threads[u];
      assert PcOk(v.heap, v.entries, at);
      if (at.FastFound? || at.SlowFound? || at.DropFound? || at.DropRemove?) && at.p == pc.p {
        LocksExclude(H, v, t, u);
      }
    }
  }

  lemma RemoveOwners(H: Hasher, v: State, t: Tid)
    requires Sound(H, v) && CanRemove(v, t)
    ensures OwnersOk(v.heap, v.entries - {v.threads[t].p}, v.threads[t := DropFree(v.threads[t].p)])
  {
    var p := v.threads[t].p;
    forall u | u in v.threads ensures !Owns(v.threads[u], p) {
      assert PcOk(v.heap, v.entries, v.threads[u]) && PcOk(v.heap, v.entries, v.threads[t]);
    }
    OwnersFollow(v.heap, v.entries, v.threads, t, p, v.heap, v.entries - {p}, v.threads[t := DropFree(p)]);
  }

  lemma RemoveCells(H: Hasher, v: State, t: Tid)
    requires Sound(H, v) && CanRemove(v, t)
    ensures CellsOk(H, v.heap, v.entries - {v.threads[t].p}, v.handles)
  {
    assert PcOk(v.heap, v.entries, v.threads[t]);
  }

  lemma RemoveKeeps(H: Hasher, v: State, t: Tid)
    requires Sound(H, v) && CanRemove(v, t)
    ensures Sound(H, DoRemove(v, t))
  {
    var pc, w := v.threads[t], DoRemove(v, t);
    LocksRelease(H, v.locks, v.threads, t, w.threads, pc.h);
    RemovePcs(H, v, t);
    RemoveOwners(H, v, t);
    RemoveCells(H, v, t);
    WatchersFollow(v.heap, v.entries, v.threads, t, w.heap, w.entries, w.threads);
  }

  lemma DeallocateKeeps(H: Hasher, v: State, t: Tid)
    requires Sound(H, v) && CanDeallocate(v, t)
    ensures Sound(H, DoDeallocate(v, t))
  {
    var pc, w := v.threads[t], DoDeallocate(v, t);
    assert PcOk(v.heap, v.entries, pc);
    LocksStay(H, v.locks, v.threads, t, w.threads);
    assert Owns(pc, pc.p);
    OwnersFollow(v.heap, v.entries, v.threads, t, pc.p, w.heap, w.entries, w.threads);
    WatchersFollow(v.heap, v.entries, v.threads, t, w.heap, w.entries, w.threads);
    forall u | u in w.threads ensures PcOk(w.heap, w.entries, w.threads[u]) {
      assert u in v.threads && PcOk(v.heap, v.entries, v.threads[u]);
      assert !Owns(v.threads[u], pc.p);
    }
  }

  lemma StepKeeps(H: Hasher, v: State, step: Step)
    requires Inv(H, v) && Enabled(H, v, step)
    ensures Inv(H, Apply(H, v, step))
  {
    match step
    case BeginNew(t, s) => BeginNewKeeps(H, v, t, FastLookup(s));
    case FastHit(t, p) => LookupKeeps(H, v, t, v.threads[t].s, FastFound(v.threads[t].s, p));
    case FastMiss(t) => BeginNewKeeps(H, v, t, SlowLookup(v.threads[t].s));
    case SlowHit(t, p) => LookupKeeps(H, v, t, v.threads[t].s, SlowFound(v.threads[t].s, p));
    case SlowMiss(t) => SlowMissKeeps(H, v, t);
    case FinishFound(t) => FinishFoundKeeps(H, v, t);
    case Allocate(t, p) => AllocateKeeps(H, v, t, p);
    case Insert(t) => InsertKeeps(H, v, t);
    case Clone(p) => CloneKeeps(H, v, p);
    case Decrement(t, p) => DecrementKeeps(H, v, t, p);
    case DropHit(t) => DropHitKeeps(H, v, t);
    case DropMiss(t) => DropMissKeeps(H, v, t);
    case Recheck(t) => RecheckKeeps(H, v, t);
    case Remove(t) => RemoveKeeps(H, v, t);
    case Deallocate(t) => DeallocateKeeps(H, v, t);
  }

  lemma {:induction false} RunKeeps(H: Hasher, v: State, run: seq<Step>, w: State)
    requires Inv(H, v) && Runs(H, v, run, w)
    ensures Inv(H, w)
    decreases |run|
  {
    if run == [] {
    } else {
      StepKeeps(H, v, run[0]);
      RunKeeps(H, Apply(H, v, run[0]), run[1..], w);
    }
  }

  lemma ReachableInv(H: Hasher, v: State)
    requires Reachable(H, v)
    ensures Inv(H, v)
  {
    var run :| Runs(H, Init, run, v);
    RunKeeps(H, Init, run, v);
  }
}
