/**
 Any number of CPUs in kmem_cache_alloc, alloc_pages and free_pages at once, one
 small step at a time: the spin locks of code/include/sumios/lock.h, taken in
 the order cache lock, then freelist lock.
*/
module Smp {
  import opened Powers
  import opened PageSizes
  import opened Buddy
  import opened Slub
  import opened SlubHeap
  import opened SlubRuns
  import opened BuddyWork

  const LOCK_USED: int := 1
  const LOCK_FREE: int := 0

  // The caches' locks are 0, 1, ..; the lock of the freelists comes last.
  const FREELIST: nat := NR_CACHES

  // The word after atomic_compare_and_swap, and whether it was swapped.
  function CompareAndSwap(word: int, oldval: int, newval: int): (int, bool) {
    if word == oldval then (newval, true) else (word, false)
  }

  // Where a CPU is. A cache of NULL says that alloc_pages or free_pages was not
  // called from slub_alloc. The turn is the job's place in the order in which
  // the freelist lock was taken.
  datatype Pc =
    | Idle
    | CacheLock(c: nat)                                           // spinning in spin_lock(&kc->lock)
    | Redo(c: nat)                                                // at the label redo
    | FreelistLock(job: Job, cache: int)                          // spinning in spin_lock(&freelist_lock)
    | Busy(job: Job, cache: int, turn: nat, work: Work)           // in __alloc_pages or __free_pages
    | FreelistUnlock(job: Job, cache: int, turn: nat, page: int)  // spin_unlock(&freelist_lock)
    | Trim(c: nat, turn: nat, page: int)                          // back in slub_alloc
    | CacheUnlock(c: nat, obj: nat)                               // spin_unlock(&kc->lock)

  // Of the last five fields there is nothing in memory; they record the past.
  datatype Machine = Machine(
    locks: seq<int>,
    cpus: seq<Pc>,
    heap: Heap,
    issued: seq<Obj>,   // objects, in the order in which they were taken off a freelist
    log: seq<Job>,      // jobs, in the order in which they took the freelist lock
    settled: Buddy,     // where these jobs lead, one after the other
    results: seq<int>,  // what they return then
    held: set<nat>)     // turns whose block a caller of alloc_pages holds

  ghost predicate PcOk(n: nat, log: seq<Job>, pc: Pc) {
    match pc
    case Idle => true
    case CacheLock(c) => c < NR_CACHES
    case Redo(c) => c < NR_CACHES
    case FreelistLock(job, cache) => JobOk(n, job) && ForCache(job, cache)
    case Busy(job, cache, turn, work) =>
      Ready(n, job, work) && ForCache(job, cache) && turn < |log| && log[turn] == job
    case FreelistUnlock(job, cache, turn, _) =>
      JobOk(n, job) && ForCache(job, cache) && turn < |log| && log[turn] == job
    case Trim(c, turn, _) => c < NR_CACHES && turn < |log| && log[turn] == AllocJob(SlabOrder(c))
    case CacheUnlock(c, _) => c < NR_CACHES
  }

  predicate ForCache(job: Job, cache: int) {
    cache == NULL || (0 <= cache < NR_CACHES && job == AllocJob(SlabOrder(cache)))
  }

  function Frames(y: Machine): nat { |y.heap.buddy.isFree| }

  ghost predicate Shape(y: Machine) {
    && |y.locks| == NR_CACHES + 1 && |y.heap.caches| == NR_CACHES
    && |y.settled.isFree| == Frames(y) && |y.results| == |y.log|
    && (forall k :: k in y.held ==> k < |y.log|)
    && forall i :: 0 <= i < |y.cpus| ==> PcOk(Frames(y), y.log, y.cpus[i])
  }

  // ---------------------------------------------------------------------- steps

  datatype Act =
    | Request(cpu: nat, c: nat)  // an idle CPU calls kmem_cache_alloc
    | Call(cpu: nat, job: Job)   // an idle CPU calls alloc_pages or free_pages
    | Go(cpu: nat)               // a CPU takes its next step
    | Write(words: Words)        // clients write to memory

  // Address a lies in a block that a caller of alloc_pages holds.
  ghost predicate InHeld(y: Machine, a: nat)
    requires Shape(y)
  {
    exists k :: k in y.held && InTurn(y, k, a)
  }

  ghost predicate InTurn(y: Machine, k: nat, a: nat)
    requires k < |y.log| == |y.results|
  {
    y.results[k] >= 0 && Addr(y.results[k]) <= a < Addr(y.results[k]) + PAGE_SIZE * Pow2(y.log[k].order)
  }

  // Memory differs only inside objects and blocks that clients hold.
  ghost predicate ClientWrite(y: Machine, words: Words)
    requires Shape(y)
  {
    forall a: nat :: Word(words, a) != Word(y.heap.words, a) ==> Inside(a, y.issued) || InHeld(y, a)
  }

  ghost predicate Enabled(y: Machine, a: Act)
    requires Shape(y)
  {
    match a
    case Request(i, c) => i < |y.cpus| && y.cpus[i].Idle? && c < NR_CACHES
    case Call(i, job) => i < |y.cpus| && y.cpus[i].Idle? && JobOk(Frames(y), job)
    case Go(i) => i < |y.cpus|
    case Write(words) => ClientWrite(y, words)
  }

  function Next(y: Machine, a: Act): (z: Machine)
    requires Shape(y) && Enabled(y, a)
  {
    match a
    case Request(i, c) => y.(cpus := y.cpus[i := CacheLock(c)])
    case Call(i, job) => y.(held := StillHeld(y, job), cpus := y.cpus[i := FreelistLock(job, NULL)])
    case Go(i) => Advance(y, i)
    case Write(words) => y.(heap := y.heap.(words := words))
  }

  // Who gives a block back does not hold it any more.
  function StillHeld(y: Machine, job: Job): set<nat>
    requires Shape(y)
  {
    if job.FreeJob? then set k | k in y.held && y.results[k] != job.page else y.held
  }

  // The turns held once a job has returned its page.
  function NowHeld(y: Machine, job: Job, cache: int, turn: nat, page: int): set<nat> {
    if job.AllocJob? && cache == NULL && page != NULL then y.held + {turn} else y.held
  }

  // The next step of a CPU. A compare-and-swap that fails leaves it where it is.
  function Advance(y: Machine, i: nat): Machine
    requires Shape(y) && i < |y.cpus|
  {
    assert PcOk(Frames(y), y.log, y.cpus[i]);
    match y.cpus[i]
    case Idle => y
    case CacheLock(c) =>
      var (w, ok) := CompareAndSwap(y.locks[c], LOCK_FREE, LOCK_USED);
      if ok then y.(locks := y.locks[c := w], cpus := y.cpus[i := Redo(c)]) else y
    case Redo(c) => RedoRound(y, i, c)
    case FreelistLock(job, cache) =>
      var (w, ok) := CompareAndSwap(y.locks[FREELIST], LOCK_FREE, LOCK_USED);
      if ok then Began(y.(locks := y.locks[FREELIST := w], cpus := y.cpus[i := Busy(job, cache, |y.log|, Enter)]), job)
      else y
    case Busy(job, cache, turn, work) =>
      if work.Done? then y.(cpus := y.cpus[i := FreelistUnlock(job, cache, turn, work.page)])
      else
        var (t, w) := Micro(y.heap.buddy, job, work);
        y.(heap := y.heap.(buddy := t), cpus := y.cpus[i := Busy(job, cache, turn, w)])
    case FreelistUnlock(job, cache, turn, page) =>
      var (w, ok) := CompareAndSwap(y.locks[FREELIST], LOCK_USED, LOCK_FREE);
      if ok then y.(locks := y.locks[FREELIST := w], held := NowHeld(y, job, cache, turn, page),
                    cpus := y.cpus[i := if cache == NULL then Idle else Trim(cache, turn, page)])
      else y
    case Trim(c, turn, page) =>
      // NULL is the only page below zero
      if page < 0 then y.(cpus := y.cpus[i := CacheUnlock(c, 0)])
      else y.(heap := NewSlab(y.heap, c, y.heap.buddy, page), cpus := y.cpus[i := Redo(c)])
    case CacheUnlock(c, obj) =>
      var (w, ok) := CompareAndSwap(y.locks[c], LOCK_USED, LOCK_FREE);
      if ok then y.(locks := y.locks[c := w], cpus := y.cpus[i := Idle]) else y
  }

  // The record of a job that has taken the freelist lock.
  function Began(y: Machine, job: Job): Machine
    requires JobOk(|y.settled.isFree|, job)
  {
    var (t, p) := Apply(y.settled, job);
    y.(log := y.log + [job], settled := t, results := y.results + [p])
  }

  // From the label redo to the next jump to it, or to the call of slub_alloc.
  function RedoRound(y: Machine, i: nat, c: nat): Machine
    requires Shape(y) && i < |y.cpus| && c < NR_CACHES
  {
    var k := y.heap.caches[c];
    if k.freelist != 0 then
      y.(heap := Pop(y.heap, c), issued := y.issued + [Obj(k.freelist, ObjSize(c))],
         cpus := y.cpus[i := CacheUnlock(c, k.freelist)])
    else
      var r := Retire(y.heap, c);
      if k.partial != [] then y.(heap := TakePartial(r, c))
      else y.(heap := r, cpus := y.cpus[i := FreelistLock(AllocJob(SlabOrder(c)), c)])
  }

  // The CPU that moves is where it may be; frames and caches stay as many.
  lemma AdvanceOk(y: Machine, i: nat)
    requires Shape(y) && i < |y.cpus|
    ensures var z := Advance(y, i);
      && Frames(z) == Frames(y) && |z.locks| == |y.locks| && |z.heap.caches| == |y.heap.caches|
      && |z.settled.isFree| == Frames(y) && |z.results| == |z.log| && y.log <= z.log
      && (forall k :: k in z.held ==> k < |z.log|)
      && |z.cpus| == |y.cpus| && PcOk(Frames(z), z.log, z.cpus[i])
      && forall j :: 0 <= j < |y.cpus| && j != i ==> z.cpus[j] == y.cpus[j]
  {
    hide Micro, Thread;
    assert PcOk(Frames(y), y.log, y.cpus[i]);
    if y.cpus[i].Busy? {
      MicroFinishes(y.heap.buddy, y.cpus[i].job, y.cpus[i].work);
    }
  }

  lemma ShapeKept(y: Machine, a: Act)
    requires Shape(y) && Enabled(y, a)
    ensures Shape(Next(y, a)) && Frames(Next(y, a)) == Frames(y)
  {
    if a.Go? {
      AdvanceOk(y, a.cpu);
    }
    var z := Next(y, a);
    forall i | 0 <= i < |z.cpus| ensures PcOk(Frames(z), z.log, z.cpus[i]) {
      assert PcOk(Frames(y), y.log, y.cpus[i]);
    }
  }

  // ---------------------------------------------------------------------- locks

  // The locks a CPU holds.
  function LocksHeld(pc: Pc): set<nat> {
    match pc
    case Redo(c) => {c}
    case FreelistLock(_, cache) => if cache < 0 then {} else {cache as nat}
    case Busy(_, cache, _, _) => {FREELIST} + if cache < 0 then {} else {cache as nat}
    case FreelistUnlock(_, cache, _, _) => {FREELIST} + if cache < 0 then {} else {cache as nat}
    case Trim(c, _, _) => {c}
    case CacheUnlock(c, _) => {c}
    case _ => {}
  }

  ghost predicate HoldsLock(cpus: seq<Pc>, i: int, l: nat) {
    0 <= i < |cpus| && l in LocksHeld(cpus[i])
  }

  ghost predicate SomeHolds(cpus: seq<Pc>, l: nat) {
    exists i :: HoldsLock(cpus, i, l)
  }

  // A lock's word says whether some CPU holds it, and no two CPUs do.
  ghost predicate LocksOk(locks: seq<int>, cpus: seq<Pc>) {
    && (forall l: nat :: l < |locks| ==> locks[l] == if SomeHolds(cpus, l) then LOCK_USED else LOCK_FREE)
    && (forall i, j, l: nat :: HoldsLock(cpus, i, l) && HoldsLock(cpus, j, l) ==> i == j)
    && (forall i, l: nat :: HoldsLock(cpus, i, l) ==> l < |locks|)
  }

  lemma SameLocks(locks: seq<int>, cpus: seq<Pc>, i: nat, pc: Pc)
    requires LocksOk(locks, cpus) && i < |cpus| && LocksHeld(pc) == LocksHeld(cpus[i])
    ensures LocksOk(locks, cpus[i := pc])
  {
    var after := cpus[i := pc];
    assert forall j, l: nat :: HoldsLock(after, j, l) <==> HoldsLock(cpus, j, l);
    forall l: nat ensures SomeHolds(after, l) <==> SomeHolds(cpus, l) {
      if SomeHolds(cpus, l) {
        var j :| HoldsLock(cpus, j, l);
        assert HoldsLock(after, j, l);
      }
    }
  }

  lemma Acquired(locks: seq<int>, cpus: seq<Pc>, i: nat, pc: Pc, l: nat)
    requires LocksOk(locks, cpus) && i < |cpus| && l < |locks| && locks[l] == LOCK_FREE
    requires LocksHeld(pc) == LocksHeld(cpus[i]) + {l}
    ensures LocksOk(locks[l := LOCK_USED], cpus[i := pc])
  {
    var after := cpus[i := pc];
    assert !SomeHolds(cpus, l);
    assert forall j, m: nat :: HoldsLock(after, j, m) <==> HoldsLock(cpus, j, m) || (j == i && m == l);
    forall m: nat ensures SomeHolds(after, m) <==> SomeHolds(cpus, m) || m == l {
      if m == l {
        assert HoldsLock(after, i, l);
      }
    }
  }

  lemma Released(locks: seq<int>, cpus: seq<Pc>, i: nat, pc: Pc, l: nat)
    requires LocksOk(locks, cpus) && HoldsLock(cpus, i, l)
    requires LocksHeld(pc) == LocksHeld(cpus[i]) - {l}
    ensures locks[l] == LOCK_USED
    ensures LocksOk(locks[l := LOCK_FREE], cpus[i := pc])
  {
    var after := cpus[i := pc];
    assert SomeHolds(cpus, l);
    assert forall j, m: nat :: HoldsLock(after, j, m) <==> HoldsLock(cpus, j, m) && !(j == i && m == l);
    forall m: nat ensures SomeHolds(after, m) <==> SomeHolds(cpus, m) && m != l {
      if SomeHolds(cpus, m) && m != l {
        var j :| HoldsLock(cpus, j, m);
        assert HoldsLock(after, j, m);
      }
    }
  }

  // Every step keeps the locks in order: mutual exclusion.
  lemma LocksKept(y: Machine, a: Act)
    requires Shape(y) && LocksOk(y.locks, y.cpus) && Enabled(y, a)
    ensures LocksOk(Next(y, a).locks, Next(y, a).cpus)
  {
    match a
    case Request(i, c) => SameLocks(y.locks, y.cpus, i, CacheLock(c));
    case Call(i, job) => SameLocks(y.locks, y.cpus, i, FreelistLock(job, NULL));
    case Write(_) =>
    case Go(i) => LocksAdvance(y, i);
  }

  lemma LocksAdvance(y: Machine, i: nat)
    requires Shape(y) && LocksOk(y.locks, y.cpus) && i < |y.cpus|
    ensures LocksOk(Advance(y, i).locks, Advance(y, i).cpus)
  {
    var pc, z := y.cpus[i], Advance(y, i);
    assert PcOk(Frames(y), y.log, pc);
    match pc
    case CacheLock(c) =>
      if y.locks[c] == LOCK_FREE {
        Acquired(y.locks, y.cpus, i, z.cpus[i], c);
      }
    case FreelistLock(_, _) =>
      if y.locks[FREELIST] == LOCK_FREE {
        Acquired(y.locks, y.cpus, i, z.cpus[i], FREELIST);
      }
    case FreelistUnlock(_, _, _, _) =>
      assert HoldsLock(y.cpus, i, FREELIST);
      Released(y.locks, y.cpus, i, if pc.cache == NULL then Idle else Trim(pc.cache, pc.turn, pc.page), FREELIST);
    case CacheUnlock(c, _) =>
      assert HoldsLock(y.cpus, i, c);
      Released(y.locks, y.cpus, i, Idle, c);
    case _ =>
      SameLocks(y.locks, y.cpus, i, z.cpus[i]);
  }

  // The holder's compare-and-swap in spin_unlock succeeds at its first attempt.
  lemma UnlockFirstTime(y: Machine, i: nat)
    requires Shape(y) && LocksOk(y.locks, y.cpus) && i < |y.cpus|
    requires y.cpus[i].FreelistUnlock? || y.cpus[i].CacheUnlock?
    ensures LocksHeld(Advance(y, i).cpus[i]) < LocksHeld(y.cpus[i])
    ensures Advance(y, i).cpus[i] != y.cpus[i]
  {
    var pc := y.cpus[i];
    assert PcOk(Frames(y), y.log, pc);
    var l := if pc.CacheUnlock? then pc.c else FREELIST;
    assert HoldsLock(y.cpus, i, l) && SomeHolds(y.cpus, l);
    assert l !in LocksHeld(Advance(y, i).cpus[i]);
  }

  // A CPU that waits: its compare-and-swap would fail.
  predicate Waits(y: Machine, i: nat)
    requires i < |y.cpus| && |y.locks| == NR_CACHES + 1
  {
    match y.cpus[i]
    case CacheLock(c) => c < NR_CACHES && y.locks[c] != LOCK_FREE
    case FreelistLock(_, _) => y.locks[FREELIST] != LOCK_FREE
    case _ => false
  }

  // Whenever some CPU is not idle, one that is not idle does not wait.
  lemma NoDeadlock(y: Machine, i: nat) returns (j: nat)
    requires Shape(y) && LocksOk(y.locks, y.cpus) && i < |y.cpus| && !y.cpus[i].Idle?
    ensures j < |y.cpus| && !y.cpus[j].Idle? && !Waits(y, j) && Advance(y, j) != y
  {
    j := i;
    if Waits(y, j) && y.cpus[j].CacheLock? {
      var c := y.cpus[j].c;
      assert SomeHolds(y.cpus, c);
      j :| HoldsLock(y.cpus, j, c);
    }
    if Waits(y, j) {
      assert SomeHolds(y.cpus, FREELIST);
      j :| HoldsLock(y.cpus, j, FREELIST);
    }
    StepsForward(y, j);
  }

  // A CPU that is not idle and does not wait gets somewhere with its next step.
  lemma StepsForward(y: Machine, j: nat)
    requires Shape(y) && LocksOk(y.locks, y.cpus) && j < |y.cpus| && !y.cpus[j].Idle? && !Waits(y, j)
    ensures Advance(y, j) != y
  {
    var pc := y.cpus[j];
    assert PcOk(Frames(y), y.log, pc);
    match pc
    case Busy(job, _, _, work) => MicroFinishes(y.heap.buddy, job, work);
    case FreelistUnlock(_, _, _, _) => UnlockFirstTime(y, j);
    case CacheUnlock(_, _) => UnlockFirstTime(y, j);
    case Redo(c) =>
      if y.heap.caches[c].freelist == 0 && y.heap.caches[c].partial != [] {
        assert Advance(y, j).heap.caches[c].partial != y.heap.caches[c].partial;
      } else {
        assert Advance(y, j).cpus[j] != pc;
      }
    case FreelistLock(_, _) => assert Advance(y, j).cpus[j] != pc;
    case CacheLock(_) => assert Advance(y, j).cpus[j] != pc;
    case Trim(_, _, _) => assert Advance(y, j).cpus[j] != pc;
    case Idle =>
  }
}
