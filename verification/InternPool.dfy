/** The global string pool behind `ArcStr`, as a state machine over the atomic
    steps of any number of threads.

    Each step is one atomic action of the implementation: a table operation
    performed under an entry lock, one atomic read-modify-write or read of a
    reference count, one allocation or one deallocation.  A run is any sequence
    of enabled steps, so every interleaving of `new`, `clone` and `drop` is a run.

    The allocator may hand out an address again as soon as it has been freed.
    Locks are taken per hash value.  That is finer than the per-bucket locks of
    the real table, so every real interleaving is also a run of this model.
 */
module InternPool {
  import opened Wrappers

  type Addr = nat
  type Tid = nat
  type Hash = nat
  type Hasher = string -> Hash

  const ISIZE_MAX: nat := 0x7FFF_FFFF_FFFF_FFFF
  const USIZE_MODULUS: nat := 0x1_0000_0000_0000_0000

  /** The heap cell of one string: stored hash, reference count and content. */
  datatype Inner = Inner(hash: Hash, count: nat, content: string)

  /** Where a thread is inside `new` or `drop`; idle threads have no entry. */
  datatype Pc =
    | FastLookup(s: string)             // new: about to look up for the first time
    | FastFound(s: string, p: Addr)     // new: entry locked and occupied, about to increment
    | SlowLookup(s: string)             // new: first lookup missed, lock released
    | SlowFound(s: string, p: Addr)     // new: second lookup found an entry, about to increment
    | SlowVacant(s: string)             // new: vacant entry locked, about to allocate
    | SlowInsert(s: string, p: Addr)    // new: cell written with count 1, about to insert
    | DropPending(p: Addr, h: Hash)     // drop: decremented to zero, about to lock
    | DropFound(p: Addr, h: Hash)       // drop: entry locked, about to re-check the count
    | DropRemove(p: Addr, h: Hash)      // drop: count re-read as zero, about to remove
    | DropFree(p: Addr)                 // drop: removed and unlocked, about to deallocate

  /** `handles` is the multiset of the pointers held by live `ArcStr` values.
      `fault` records a count access or a deallocation at an address that is not
      allocated; `aborted` records the overflow abort of `inc_strong`. */
  datatype State = State(
    heap: map<Addr, Inner>,
    entries: set<Addr>,
    handles: multiset<Addr>,
    locks: map<Hash, Tid>,
    threads: map<Tid, Pc>,
    fault: bool,
    aborted: bool)

  const Init := State(map[], {}, multiset{}, map[], map[], false, false)

  datatype Step =
    | BeginNew(t: Tid, s: string)
    | FastHit(t: Tid, p: Addr)
    | FastMiss(t: Tid)
    | SlowHit(t: Tid, p: Addr)
    | SlowMiss(t: Tid)
    | FinishFound(t: Tid)
    | Allocate(t: Tid, p: Addr)
    | Insert(t: Tid)
    | Clone(p: Addr)
    | Decrement(t: Tid, p: Addr)
    | DropHit(t: Tid)
    | DropMiss(t: Tid)
    | Recheck(t: Tid)
    | Remove(t: Tid)
    | Deallocate(t: Tid)

  // ----- single actions

  /** Content lookup: stored hash and content both agree (`Equivalent`). */
  predicate Matches(v: State, p: Addr, h: Hash, s: string) {
    p in v.entries && p in v.heap && v.heap[p].hash == h && v.heap[p].content == s
  }

  /** Pointer lookup in the bucket of `h`. */
  predicate Keyed(v: State, p: Addr, h: Hash) {
    p in v.entries && p in v.heap && v.heap[p].hash == h
  }

  /** New value of a `usize` counter after a wrapping `fetch_add(1)`. */
  function FetchAdd(n: nat): (r: nat)
    ensures n <= ISIZE_MAX + 1 ==> r == n + 1
  {
    if n + 1 == USIZE_MODULUS then 0 else n + 1
  }

  /** New value of a `usize` counter after a wrapping `fetch_sub(1)`. */
  function FetchSub(n: nat): (r: nat)
    ensures 0 < n <= ISIZE_MAX + 1 ==> r == n - 1
  {
    if n == 0 then USIZE_MODULUS - 1 else n - 1
  }

  /** `inc_strong`: a wrapping `fetch_add`, then an abort when the old value was
      already above `isize::MAX`; otherwise the caller owns one more handle. */
  function Increment(v: State, p: Addr): State {
    if p !in v.heap then v.(fault := true)
    else
      var n := v.heap[p].count;
      var bumped := v.(heap := v.heap[p := v.heap[p].(count := FetchAdd(n))]);
      if n > ISIZE_MAX then bumped.(aborted := true)
      else bumped.(handles := bumped.handles + multiset{p})
  }

  function Goto(v: State, t: Tid, pc: Pc): State { v.(threads := v.threads[t := pc]) }

  function Finish(v: State, t: Tid): State { v.(threads := v.threads - {t}) }

  function Lock(v: State, h: Hash, t: Tid): State { v.(locks := v.locks[h := t]) }

  function Unlock(v: State, h: Hash): State { v.(locks := v.locks - {h}) }

  // ----- the steps: when each may be taken, and what it does
  //
  // The conditions state what the code and Rust's ownership rules demand; none of
  // them asks for an address to be allocated.

  /** `t` is at the given lookup of `new`, and the lock it needs is free. */
  ghost predicate AtLookup(H: Hasher, v: State, t: Tid, first: bool) {
    && t in v.threads
    && (if first then v.threads[t].FastLookup? else v.threads[t].SlowLookup?)
    && H(v.threads[t].s) !in v.locks
  }

  ghost predicate Absent(v: State, h: Hash, s: string) {
    forall p :: p in v.entries ==> !Matches(v, p, h, s)
  }

  ghost predicate CanHit(H: Hasher, v: State, t: Tid, p: Addr, first: bool) {
    AtLookup(H, v, t, first) && Matches(v, p, H(v.threads[t].s), v.threads[t].s)
  }

  ghost predicate CanMiss(H: Hasher, v: State, t: Tid, first: bool) {
    AtLookup(H, v, t, first) && Absent(v, H(v.threads[t].s), v.threads[t].s)
  }

  function DoFastHit(H: Hasher, v: State, t: Tid, p: Addr): State
    requires t in v.threads && v.threads[t].FastLookup?
  {
    var s := v.threads[t].s;
    Goto(Lock(v, H(s), t), t, FastFound(s, p))
  }

  function DoSlowHit(H: Hasher, v: State, t: Tid, p: Addr): State
    requires t in v.threads && v.threads[t].SlowLookup?
  {
    var s := v.threads[t].s;
    Goto(Lock(v, H(s), t), t, SlowFound(s, p))
  }

  function DoSlowMiss(H: Hasher, v: State, t: Tid): State
    requires t in v.threads && v.threads[t].SlowLookup?
  {
    var s := v.threads[t].s;
    Goto(Lock(v, H(s), t), t, SlowVacant(s))
  }

  predicate CanFinishFound(v: State, t: Tid) {
    t in v.threads && (v.threads[t].FastFound? || v.threads[t].SlowFound?)
  }

  function DoFinishFound(H: Hasher, v: State, t: Tid): State
    requires CanFinishFound(v, t)
  {
    var pc := v.threads[t];
    Finish(Unlock(Increment(v, pc.p), H(pc.s)), t)
  }

  predicate CanAllocate(v: State, t: Tid, p: Addr) {
    t in v.threads && v.threads[t].SlowVacant? && p !in v.heap
  }

  function DoAllocate(H: Hasher, v: State, t: Tid, p: Addr): State
    requires CanAllocate(v, t, p)
  {
    var s := v.threads[t].s;
    Goto(v.(heap := v.heap[p := Inner(H(s), 1, s)]), t, SlowInsert(s, p))
  }

  predicate CanInsert(v: State, t: Tid) { t in v.threads && v.threads[t].SlowInsert? }

  function DoInsert(H: Hasher, v: State, t: Tid): State
    requires CanInsert(v, t)
  {
    var pc := v.threads[t];
    Finish(Unlock(v.(entries := v.entries + {pc.p}, handles := v.handles + multiset{pc.p}), H(pc.s)), t)
  }

  /** `dec_strong` consumes a handle; a thread that saw the count at one goes on. */
  function DoDecrement(v: State, t: Tid, p: Addr): State {
    if p !in v.heap then v.(fault := true)
    else
      var n := v.heap[p].count;
      var v1 := v.(heap := v.heap[p := v.heap[p].(count := FetchSub(n))], handles := v.handles - multiset{p});
      if n == 1 then Goto(v1, t, DropPending(p, v.heap[p].hash)) else v1
  }

  predicate AtDropLookup(v: State, t: Tid) {
    t in v.threads && v.threads[t].DropPending? && v.threads[t].h !in v.locks
  }

  function DoDropHit(v: State, t: Tid): State
    requires AtDropLookup(v, t)
  {
    var pc := v.threads[t];
    Goto(Lock(v, pc.h, t), t, DropFound(pc.p, pc.h))
  }

  predicate CanRecheck(v: State, t: Tid) { t in v.threads && v.threads[t].DropFound? }

  function DoRecheck(v: State, t: Tid): State
    requires CanRecheck(v, t)
  {
    var pc := v.threads[t];
    if pc.p !in v.heap then v.(fault := true)
    else if v.heap[pc.p].count != 0 then Finish(Unlock(v, pc.h), t)
    else Goto(v, t, DropRemove(pc.p, pc.h))
  }

  predicate CanRemove(v: State, t: Tid) { t in v.threads && v.threads[t].DropRemove? }

  function DoRemove(v: State, t: Tid): State
    requires CanRemove(v, t)
  {
    var pc := v.threads[t];
    Goto(Unlock(v.(entries := v.entries - {pc.p}), pc.h), t, DropFree(pc.p))
  }

  predicate CanDeallocate(v: State, t: Tid) { t in v.threads && v.threads[t].DropFree? }

  function DoDeallocate(v: State, t: Tid): State
    requires CanDeallocate(v, t)
  {
    var p := v.threads[t].p;
    if p !in v.heap then v.(fault := true)
    else Finish(v.(heap := v.heap - {p}), t)
  }

  ghost predicate Enabled(H: Hasher, v: State, step: Step) {
    && !v.aborted
    && match step
       case BeginNew(t, s) => t !in v.threads
       case FastHit(t, p) => CanHit(H, v, t, p, true)
       case FastMiss(t) => CanMiss(H, v, t, true)
       case SlowHit(t, p) => CanHit(H, v, t, p, false)
       case SlowMiss(t) => CanMiss(H, v, t, false)
       case FinishFound(t) => CanFinishFound(v, t)
       case Allocate(t, p) => CanAllocate(v, t, p)
       case Insert(t) => CanInsert(v, t)
       case Clone(p) => p in v.handles
       case Decrement(t, p) => t !in v.threads && p in v.handles
       case DropHit(t) => AtDropLookup(v, t) && Keyed(v, v.threads[t].p, v.threads[t].h)
       case DropMiss(t) => AtDropLookup(v, t) && !Keyed(v, v.threads[t].p, v.threads[t].h)
       case Recheck(t) => CanRecheck(v, t)
       case Remove(t) => CanRemove(v, t)
       case Deallocate(t) => CanDeallocate(v, t)
  }

  ghost function Apply(H: Hasher, v: State, step: Step): State
    requires Enabled(H, v, step)
  {
    match step
    case BeginNew(t, s) => Goto(v, t, FastLookup(s))
    case FastHit(t, p) => DoFastHit(H, v, t, p)
    case FastMiss(t) => Goto(v, t, SlowLookup(v.threads[t].s))
    case SlowHit(t, p) => DoSlowHit(H, v, t, p)
    case SlowMiss(t) => DoSlowMiss(H, v, t)
    case FinishFound(t) => DoFinishFound(H, v, t)
    case Allocate(t, p) => DoAllocate(H, v, t, p)
    case Insert(t) => DoInsert(H, v, t)
    case Clone(p) => Increment(v, p)
    case Decrement(t, p) => DoDecrement(v, t, p)
    case DropHit(t) => DoDropHit(v, t)
    case DropMiss(t) => Finish(v, t)
    case Recheck(t) => DoRecheck(v, t)
    case Remove(t) => DoRemove(v, t)
    case Deallocate(t) => DoDeallocate(v, t)
  }

  /** `run` is a sequence of enabled steps from `v`, ending in `w`. */
  ghost predicate Runs(H: Hasher, v: State, run: seq<Step>, w: State)
    decreases |run|
  {
    if run == [] then v == w
    else Enabled(H, v, run[0]) && Runs(H, Apply(H, v, run[0]), run[1..], w)
  }

  ghost predicate Reachable(H: Hasher, v: State) {
    exists run :: Runs(H, Init, run, v)
  }
}
