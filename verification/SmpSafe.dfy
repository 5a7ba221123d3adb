/**
 Whatever the CPUs do at the same time, kmalloc objects and allocated blocks
 never overlap: over every interleaving of kmem_cache_alloc and alloc_pages on
 any number of CPUs, with clients writing into the objects they hold.
*/
module SmpSafe {
  import opened Powers
  import opened PageSizes
  import opened Buddy
  import Blocks = BuddyRuns
  import opened Slub
  import opened SlubHeap
  import opened SlubRuns
  import opened BuddyWork
  import opened Smp
  import opened SmpOrder

  // ---------------------------------------------------- blocks of the turns

  ghost predicate AllAllocs(log: seq<Job>) {
    forall k :: 0 <= k < |log| ==> log[k].AllocJob?
  }

  ghost predicate TurnFits(s: Buddy, results: seq<int>, log: seq<Job>, k: nat)
    requires k < |log| == |results|
  {
    results[k] != NULL ==> Fits(s, results[k], log[k].order)
  }

  ghost predicate TurnsApart(results: seq<int>, log: seq<Job>, k: nat, m: nat)
    requires k < |log| == |results| && m < |log|
  {
    results[k] != NULL && results[m] != NULL ==> Apart(results[k], log[k].order, results[m], log[m].order)
  }

  // Every turn's block is allocated, and no two share a page.
  ghost predicate TurnsOk(s: Buddy, results: seq<int>, log: seq<Job>) {
    && |log| == |results| && Inv(s) && AllAllocs(log)
    && (forall k: nat :: k < |log| ==> TurnFits(s, results, log, k))
    && (forall k: nat, m: nat :: k < |log| && m < |log| && k != m ==> TurnsApart(results, log, k, m))
  }

  lemma TurnsNext(s: Buddy, results: seq<int>, log: seq<Job>, o: nat, t: Buddy, p: int)
    requires TurnsOk(s, results, log) && (t, p) == Alloc(s, o)
    ensures TurnsOk(t, results + [p], log + [AllocJob(o)])
  {
    var results', log', n := results + [p], log + [AllocJob(o)], |log|;
    Blocks.AllocSound(s, o);
    forall k: nat | k < n
      ensures TurnFits(t, results', log', k) && TurnsApart(results', log', k, n) && TurnsApart(results', log', n, k)
    {
      assert TurnFits(s, results, log, k);
      if results[k] != NULL && p != NULL {
        AllocSparesSlab(s, o, results[k], log[k].order);
      }
    }
    forall k: nat, m: nat | k < n && m < n && k != m ensures TurnsApart(results', log', k, m) {
      assert TurnsApart(results, log, k, m);
    }
  }

  // ----------------------------------------------------------------- invariant

  // The cache for which a CPU is in or on its way to alloc_pages, or in
  // slub_alloc after it; NULL if there is none.
  function CacheOf(pc: Pc): int {
    match pc
    case FreelistLock(_, cache) => cache
    case Busy(_, cache, _, _) => cache
    case FreelistUnlock(_, cache, _, _) => cache
    case Trim(c, _, _) => c
    case _ => NULL
  }

  // The heap, with the buddy system as if the job at work were done.
  function Settled(y: Machine): Heap
    requires Shape(y)
  {
    y.heap.(buddy := y.settled)
  }

  // The block of a turn is apart from every slab that does not lie on it.
  ghost predicate SlabTurn(results: seq<int>, log: seq<Job>, slabs: Slabs, f: int, k: nat)
    requires k < |log| == |results| && f in slabs
  {
    var p := results[k];
    log[k].AllocJob? && p != NULL && p != f ==> Apart(f, SlabOrder(slabs[f].cache), p, log[k].order)
  }

  // A CPU on its way to a new slab: the cache has no current one. The block of a
  // turn that is not finished is no slab yet.
  ghost predicate InHand(y: Machine, slabs: Slabs, i: nat)
    requires Shape(y) && i < |y.cpus|
  {
    assert PcOk(Frames(y), y.log, y.cpus[i]);
    var c, turn := CacheOf(y.cpus[i]), TurnOf(y.cpus[i]);
    && (c >= 0 ==> y.heap.caches[c].slub == NULL && y.heap.caches[c].freelist == 0)
    && (turn >= 0 ==> y.results[turn] == NULL || y.results[turn] !in slabs)
  }

  // A block that a caller of alloc_pages holds is no slab, and no CPU is about to
  // make one of it.
  ghost predicate HeldApart(y: Machine, slabs: Slabs, k: nat)
    requires k < |y.results|
  {
    && y.results[k] != NULL && y.results[k] !in slabs
    && forall i :: 0 <= i < |y.cpus| ==> TurnOf(y.cpus[i]) != k
  }

  ghost predicate OnlyAllocs(y: Machine) {
    && AllAllocs(y.log)
    && forall i :: 0 <= i < |y.cpus| && y.cpus[i].FreelistLock? ==> y.cpus[i].job.AllocJob?
  }

  ghost predicate Safe(y: Machine, slabs: Slabs) {
    && Shape(y) && OnlyAllocs(y) && TurnsOk(y.settled, y.results, y.log)
    && WorldOk(Settled(y), slabs, y.issued)
    && (forall f, k: nat :: f in slabs && k < |y.log| ==> SlabTurn(y.results, y.log, slabs, f, k))
    && (forall i: nat :: i < |y.cpus| ==> InHand(y, slabs, i))
    && (forall k :: k in y.held ==> HeldApart(y, slabs, k))
  }

  // --------------------------------------------------------------------- steps

  // One CPU moves to pc.
  ghost predicate Moves(y: Machine, z: Machine, i: nat, pc: Pc) {
    i < |y.cpus| && z.cpus == y.cpus[i := pc]
  }

  // Steps that change no cache and no memory, and begin no turn.
  lemma SafeElsewhere(y: Machine, z: Machine, slabs: Slabs, i: nat, pc: Pc)
    requires Safe(y, slabs) && OwnTurns(y) && Shape(z) && Frames(z) == Frames(y) && Moves(y, z, i, pc)
    requires z.log == y.log && z.results == y.results && z.settled == y.settled && z.issued == y.issued
    requires forall k :: k in z.held ==>
      k in y.held || (k == TurnOf(y.cpus[i]) && TurnOf(pc) == -1 && z.results[k] != NULL)
    requires z.heap == y.heap.(buddy := z.heap.buddy)
    requires TurnOf(pc) == TurnOf(y.cpus[i]) || TurnOf(pc) == -1
    requires CacheOf(pc) == CacheOf(y.cpus[i]) || CacheOf(pc) == NULL
    requires pc.FreelistLock? ==> pc.job.AllocJob?
    ensures Safe(z, slabs)
  {
    assert Settled(z) == Settled(y);
    forall j: nat | j < |z.cpus| ensures InHand(z, slabs, j) {
      assert InHand(y, slabs, j);
    }
    forall k | k in z.held ensures HeldApart(z, slabs, k) {
      if k in y.held {
        assert HeldApart(y, slabs, k);
      } else {
        assert InHand(y, slabs, i);
        forall j: nat | j < |z.cpus| ensures TurnOf(z.cpus[j]) != k {
          assert OtherTurn(y, i, j);
        }
      }
    }
  }

  // A turn begins: from now on its block is allocated, and apart from the slabs.
  lemma TurnBegins(h: Heap, slabs: Slabs, results: seq<int>, log: seq<Job>, o: nat, t: Buddy, p: int)
    requires StateOk(h, slabs) && |log| == |results| && (t, p) == Alloc(h.buddy, o)
    requires forall f, k: nat :: f in slabs && k < |log| ==> SlabTurn(results, log, slabs, f, k)
    ensures StateOk(h.(buddy := t), slabs) && (p == NULL || p !in slabs)
    ensures forall f, k: nat :: f in slabs && k < |log| + 1 ==>
              SlabTurn(results + [p], log + [AllocJob(o)], slabs, f, k)
  {
    AllocKeepsSlabs(h, slabs, o);
    forall f, k: nat | f in slabs && k < |log| + 1
      ensures SlabTurn(results + [p], log + [AllocJob(o)], slabs, f, k)
    {
      if k < |log| {
        assert SlabTurn(results, log, slabs, f, k);
      }
    }
  }

  lemma SafeStarts(y: Machine, z: Machine, slabs: Slabs, i: nat, o: nat, t: Buddy, p: int)
    requires Safe(y, slabs) && i < |y.cpus| && Shape(z) && Frames(z) == Frames(y)
    requires y.cpus[i].FreelistLock? && (t, p) == Alloc(y.settled, o)
    requires Moves(y, z, i, Busy(AllocJob(o), y.cpus[i].cache, |y.log|, Enter))
    requires z.heap == y.heap && z.issued == y.issued
    requires z.log == y.log + [AllocJob(o)] && z.settled == t && z.results == y.results + [p] && z.held == y.held
    ensures Safe(z, slabs)
  {
    assert PcOk(Frames(y), y.log, y.cpus[i]) && InHand(y, slabs, i);
    TurnBegins(Settled(y), slabs, y.results, y.log, o, t, p);
    TurnsNext(y.settled, y.results, y.log, o, t, p);
    assert Settled(z) == Settled(y).(buddy := t);
    forall j: nat | j < |z.cpus| ensures InHand(z, slabs, j) {
      assert InHand(y, slabs, j) && PcOk(Frames(y), y.log, y.cpus[j]);
    }
    forall k | k in z.held ensures HeldApart(z, slabs, k) {
      assert HeldApart(y, slabs, k);
    }
  }

  ghost predicate SameSlabs(slabs: Slabs, slabs': Slabs) {
    slabs'.Keys == slabs.Keys && forall f :: f in slabs ==> slabs'[f].cache == slabs[f].cache
  }

  // A CPU that holds the lock of cache c changes that cache.
  lemma SafeRound(y: Machine, z: Machine, slabs: Slabs, slabs': Slabs, i: nat, c: nat, pc: Pc)
    requires Safe(y, slabs) && LocksOk(y.locks, y.cpus) && Shape(z) && Frames(z) == Frames(y)
    requires Moves(y, z, i, pc) && c < NR_CACHES && c in LocksHeld(y.cpus[i])
    requires z.log == y.log && z.results == y.results && z.settled == y.settled && z.held == y.held
    requires z.heap.caches == y.heap.caches[c := z.heap.caches[c]]
    requires SameSlabs(slabs, slabs') && WorldOk(Settled(z), slabs', z.issued)
    requires TurnOf(pc) == -1 && (pc.FreelistLock? ==> pc.job.AllocJob?)
    requires CacheOf(pc) >= 0 ==> CacheOf(pc) == c && z.heap.caches[c].slub == NULL && z.heap.caches[c].freelist == 0
    ensures Safe(z, slabs')
  {
    forall f, k: nat | f in slabs' && k < |z.log| ensures SlabTurn(z.results, z.log, slabs', f, k) {
      assert SlabTurn(y.results, y.log, slabs, f, k);
    }
    forall j: nat | j < |z.cpus| ensures InHand(z, slabs', j) {
      assert InHand(y, slabs, j);
      if j != i && CacheOf(y.cpus[j]) >= 0 {
        OtherCache(y, i, j, c);
      }
    }
    forall k | k in z.held ensures HeldApart(z, slabs', k) {
      assert HeldApart(y, slabs, k);
    }
  }

  // Two CPUs never deal with the same cache.
  lemma OtherCache(y: Machine, i: nat, j: nat, c: nat)
    requires Shape(y) && LocksOk(y.locks, y.cpus) && i < |y.cpus| && j < |y.cpus| && i != j
    requires c in LocksHeld(y.cpus[i])
    ensures CacheOf(y.cpus[j]) != c
  {
    assert HoldsLock(y.cpus, i, c) && PcOk(Frames(y), y.log, y.cpus[j]);
    assert CacheOf(y.cpus[j]) == c ==> HoldsLock(y.cpus, j, c);
  }

  // A round of kmem_cache_alloc from redo on.
  lemma SafeRedo(y: Machine, slabs: Slabs, i: nat, c: nat) returns (slabs': Slabs)
    requires Safe(y, slabs) && LocksOk(y.locks, y.cpus) && i < |y.cpus| && y.cpus[i] == Redo(c)
    ensures Safe(Advance(y, i), slabs')
  {
    hide Micro, Thread, Alloc, StateOk, IssuedOk, TurnsOk;
    ShapeKept(y, Go(i));
    assert PcOk(Frames(y), y.log, y.cpus[i]);
    var h, z := Settled(y), Advance(y, i);
    var k := h.caches[c];
    if k.freelist != 0 {
      PopKeeps(h, slabs, c);
      PopIssued(h, slabs, y.issued, k.slub);
      slabs' := slabs[k.slub := Slab(c, Current, slabs[k.slub].rest[1..])];
      assert Settled(z) == Pop(h, c);
      SafeRound(y, z, slabs, slabs', i, c, CacheUnlock(c, k.freelist));
    } else {
      slabs' := SafeRetire(h, slabs, y.issued, c);
      if k.partial != [] {
        assert Settled(z) == TakePartial(Retire(h, c), c);
        SafeRound(y, z, slabs, slabs', i, c, Redo(c));
      } else {
        assert Settled(z) == Retire(h, c);
        SafeRound(y, z, slabs, slabs', i, c, FreelistLock(AllocJob(SlabOrder(c)), c));
      }
    }
  }

  // A cache whose freelist is empty: the exhausted slab is retired, and the first
  // partial one, if any, takes its place.
  lemma SafeRetire(h: Heap, slabs: Slabs, issued: seq<Obj>, c: nat) returns (slabs': Slabs)
    requires WorldOk(h, slabs, issued) && c < NR_CACHES && h.caches[c].freelist == 0
    ensures SameSlabs(slabs, slabs')
    ensures var r := Retire(h, c);
      && r.caches[c].slub == NULL
      && WorldOk(if h.caches[c].partial != [] then TakePartial(r, c) else r, slabs', issued)
  {
    var f := h.caches[c].slub;
    RetireKeeps(h, slabs, c);
    slabs' := Retired(slabs, f);
    if f != NULL {
      MovedIssued(slabs, issued, f, Full);
    }
    if h.caches[c].partial != [] {
      var r, s := Retire(h, c), slabs';
      TakePartialKeeps(r, s, c);
      MovedIssued(s, issued, r.caches[c].partial[0], Current);
      slabs' := Moved(s, r.caches[c].partial[0], Current);
    }
  }

  // slub_alloc makes a slab of the block of its turn.
  lemma SlabFromTurn(h: Heap, slabs: Slabs, issued: seq<Obj>, results: seq<int>, log: seq<Job>, c: nat, turn: nat)
    requires WorldOk(h, slabs, issued) && TurnsOk(h.buddy, results, log)
    requires forall f, k: nat :: f in slabs && k < |log| ==> SlabTurn(results, log, slabs, f, k)
    requires c < NR_CACHES && h.caches[c].slub == NULL && h.caches[c].freelist == 0
    requires turn < |log| && log[turn] == AllocJob(SlabOrder(c)) && results[turn] >= 0 && results[turn] !in slabs
    ensures var p := results[turn]; var slabs' := slabs[p := Slab(c, Current, ObjectsOf(p, c))];
      && WorldOk(NewSlab(h, c, h.buddy, p), slabs', issued)
      && forall f, k: nat :: f in slabs' && k < |log| ==> SlabTurn(results, log, slabs', f, k)
  {
    var p := results[turn];
    assert TurnFits(h.buddy, results, log, turn);
    forall g | g in slabs ensures Apart(g, SlabOrder(slabs[g].cache), p, SlabOrder(c)) {
      assert SlabTurn(results, log, slabs, g, turn);
    }
    TrimKeeps(h, slabs, c, p);
    NewSlabIssued(slabs, issued, p, c);
    var slabs' := slabs[p := Slab(c, Current, ObjectsOf(p, c))];
    forall f, k: nat | f in slabs' && k < |log| ensures SlabTurn(results, log, slabs', f, k) {
      if f != p {
        assert SlabTurn(results, log, slabs, f, k);
      } else if k != turn {
        assert TurnsApart(results, log, turn, k);
      }
    }
  }

  lemma SafeTrims(y: Machine, slabs: Slabs, i: nat) returns (slabs': Slabs)
    requires Safe(y, slabs) && OwnTurns(y) && Linear(y) && LocksOk(y.locks, y.cpus)
    requires i < |y.cpus| && y.cpus[i].Trim? && y.cpus[i].page >= 0
    ensures Safe(Advance(y, i), slabs')
  {
    hide Micro, Alloc, WorldOk, Thread;
    ShapeKept(y, Go(i));
    var z := Advance(y, i);
    var Trim(c, turn, p) := y.cpus[i];
    assert PcOk(Frames(y), y.log, y.cpus[i]) && HasResult(y, i) && InHand(y, slabs, i);
    SlabFromTurn(Settled(y), slabs, y.issued, y.results, y.log, c, turn);
    slabs' := slabs[p := Slab(c, Current, ObjectsOf(p, c))];
    assert Settled(z) == NewSlab(Settled(y), c, y.settled, p);
    forall j: nat | j < |z.cpus| ensures InHand(z, slabs', j) {
      if j != i {
        OthersInHand(y, slabs, i, j);
      }
    }
    forall k | k in z.held ensures HeldApart(z, slabs', k) {
      assert HeldApart(y, slabs, k) && TurnsApart(y.results, y.log, turn, k);
    }
  }

  // What the other CPUs have in hand is of other caches and other turns.
  lemma OthersInHand(y: Machine, slabs: Slabs, i: nat, j: nat)
    requires Safe(y, slabs) && OwnTurns(y) && Linear(y) && LocksOk(y.locks, y.cpus)
    requires i < |y.cpus| && y.cpus[i].Trim? && j < |y.cpus| && j != i
    ensures InHand(y, slabs, j) && CacheOf(y.cpus[j]) != y.cpus[i].c
    ensures TurnOf(y.cpus[j]) >= 0 && y.cpus[i].page >= 0 ==>
      TurnOf(y.cpus[j]) < |y.log| && y.results[TurnOf(y.cpus[j])] != y.cpus[i].page
  {
    OtherCache(y, i, j, y.cpus[i].c);
    assert PcOk(Frames(y), y.log, y.cpus[i]) && PcOk(Frames(y), y.log, y.cpus[j]);
    assert OtherTurn(y, i, j) && HasResult(y, i);
    if TurnOf(y.cpus[j]) >= 0 && y.cpus[i].page >= 0 {
      assert TurnsApart(y.results, y.log, TurnOf(y.cpus[i]), TurnOf(y.cpus[j]));
    }
  }

  // ---------------------------------------------------------------------- runs

  predicate Allocates(a: Act) {
    a.Call? ==> a.job.AllocJob?
  }

  // A block held does not reach into a slab.
  lemma HeldOutside(y: Machine, slabs: Slabs, f: int, x: nat, k: nat)
    requires Safe(y, slabs) && f in slabs && x in slabs[f].rest && k in y.held
    ensures !InTurn(y, k, x)
  {
    assert HeldApart(y, slabs, k) && SlabTurn(y.results, y.log, slabs, f, k);
    assert SlabOk(Settled(y), f, slabs[f]);
    ObjectsInSlab(f, slabs[f].cache);
  }

  lemma SafeWrite(y: Machine, slabs: Slabs, words: Words)
    requires Safe(y, slabs) && ClientWrite(y, words)
    requires Shape(Next(y, Act.Write(words)))
    ensures Safe(Next(y, Act.Write(words)), slabs)
  {
    var z := Next(y, Act.Write(words));
    forall f, x | f in slabs && x in slabs[f].rest ensures Word(words, x) == Word(y.heap.words, x) {
      UnissuedOutside(Settled(y), slabs, y.issued, f, x);
      forall k | k in y.held ensures !InTurn(y, k, x) {
        HeldOutside(y, slabs, f, x, k);
      }
    }
    ChainsKept(Settled(y), slabs, words);
    assert Settled(z) == Settled(y).(words := words);
    forall j: nat | j < |z.cpus| ensures InHand(z, slabs, j) {
      assert InHand(y, slabs, j);
    }
    forall k | k in z.held ensures HeldApart(z, slabs, k) {
      assert HeldApart(y, slabs, k);
    }
  }

  lemma SafeAdvance(y: Machine, slabs: Slabs, i: nat) returns (slabs': Slabs)
    requires Safe(y, slabs) && OwnTurns(y) && Linear(y) && LocksOk(y.locks, y.cpus) && i < |y.cpus|
    ensures Safe(Advance(y, i), slabs')
  {
    hide Micro, NewSlab, WorldOk, TurnsOk, Alloc, LocksOk, InHand, HeldApart;
    ShapeKept(y, Go(i));
    var z := Advance(y, i);
    assert PcOk(Frames(y), y.log, y.cpus[i]);
    slabs' := slabs;
    if y.cpus[i].Redo? {
      slabs' := SafeRedo(y, slabs, i, y.cpus[i].c);
    } else if y.cpus[i].FreelistLock? && y.locks[FREELIST] == LOCK_FREE {
      var (t, p) := Alloc(y.settled, y.cpus[i].job.order);
      SafeStarts(y, z, slabs, i, y.cpus[i].job.order, t, p);
    } else if y.cpus[i].Trim? && y.cpus[i].page >= 0 {
      slabs' := SafeTrims(y, slabs, i);
    } else {
      assert HasResult(y, i);
      SafeElsewhere(y, z, slabs, i, z.cpus[i]);
    }
  }

  // Every step keeps objects and blocks apart.
  lemma SafeKept(y: Machine, slabs: Slabs, a: Act) returns (slabs': Slabs)
    requires Safe(y, slabs) && OwnTurns(y) && Linear(y) && LocksOk(y.locks, y.cpus)
    requires Enabled(y, a) && Allocates(a)
    ensures Safe(Next(y, a), slabs')
  {
    ShapeKept(y, a);
    slabs' := slabs;
    match a
    case Request(i, c) => SafeElsewhere(y, Next(y, a), slabs, i, CacheLock(c));
    case Call(i, job) => SafeElsewhere(y, Next(y, a), slabs, i, FreelistLock(job, NULL));
    case Write(words) => SafeWrite(y, slabs, words);
    case Go(i) => slabs' := SafeAdvance(y, slabs, i);
  }

  lemma IssuedGrows(y: Machine, a: Act)
    requires Shape(y) && Enabled(y, a)
    ensures y.issued <= Next(y, a).issued
  {
    if a.Go? {
      assert PcOk(Frames(y), y.log, y.cpus[a.cpu]);
    }
  }

  // The next step, with all that it keeps.
  lemma AllKept(y: Machine, slabs: Slabs, a: Act) returns (slabs': Slabs)
    requires Safe(y, slabs) && OwnTurns(y) && Linear(y) && LocksOk(y.locks, y.cpus)
    requires Enabled(y, a) && Allocates(a)
    ensures var z := Next(y, a);
      Safe(z, slabs') && OwnTurns(z) && Linear(z) && LocksOk(z.locks, z.cpus) && y.issued <= z.issued
  {
    LocksKept(y, a);
    LinearKept(y, a);
    OwnTurnsKept(y, a);
    IssuedGrows(y, a);
    slabs' := SafeKept(y, slabs, a);
  }

  // Object o shares no byte with the block of turn k.
  ghost predicate ObjectApart(y: Machine, o: Obj, k: nat) {
    && k < |y.log| == |y.results| && y.results[k] >= 0
    && Separate(o, Obj(Addr(y.results[k]), PAGE_SIZE * Pow2(y.log[k].order)))
  }

  // An object is in a slab, and a block held is apart from every slab.
  lemma ObjectOutsideHeld(y: Machine, slabs: Slabs, i: nat, k: nat)
    requires Safe(y, slabs) && i < |y.issued| && k in y.held
    ensures ObjectApart(y, y.issued[i], k)
  {
    hide Inv, StateOk, TurnsOk;
    assert OutOf(slabs, y.issued[i]) && HeldApart(y, slabs, k);
    var f :| f in slabs && Out(slabs, f, y.issued[i].addr) && y.issued[i].size == ObjSize(slabs[f].cache);
    assert SlabTurn(y.results, y.log, slabs, f, k);
    assert TurnFits(y.settled, y.results, y.log, k) by { HeldFits(y, slabs, k); }
    ObjectsInSlab(f, slabs[f].cache);
  }

  lemma HeldFits(y: Machine, slabs: Slabs, k: nat)
    requires Safe(y, slabs) && k in y.held
    ensures TurnFits(y.settled, y.results, y.log, k) && y.log[k].AllocJob?
  {
    assert k < |y.log|;
  }

  lemma SafeObjects(y: Machine, slabs: Slabs)
    requires Safe(y, slabs)
    ensures forall i, j :: 0 <= i < j < |y.issued| ==> Separate(y.issued[i], y.issued[j])
    ensures forall i, k :: 0 <= i < |y.issued| && k in y.held ==> ObjectApart(y, y.issued[i], k)
    ensures forall k: nat, m: nat :: k < m < |y.log| ==> TurnsApart(y.results, y.log, k, m)
  {
    forall i, j | 0 <= i < j < |y.issued| ensures Separate(y.issued[i], y.issued[j]) {
      IssuedSeparate(Settled(y), slabs, y.issued, i, j);
    }
    forall i, k | 0 <= i < |y.issued| && k in y.held ensures ObjectApart(y, y.issued[i], k) {
      ObjectOutsideHeld(y, slabs, i, k);
    }
  }

  // Over every interleaving: no two objects that kmem_cache_alloc took overlap,
  // no two blocks that alloc_pages returned do, and no object overlaps a block that
  // a caller of alloc_pages holds; and memory always holds, for every cache, a chain
  // through exactly the objects of its slabs not taken yet.
  lemma {:induction false} SafeRun(y: Machine, slabs: Slabs, acts: seq<Act>, z: Machine)
    returns (slabs': Slabs)
    requires Safe(y, slabs) && OwnTurns(y) && Linear(y) && LocksOk(y.locks, y.cpus)
    requires Arrives(y, acts, z) && forall k :: 0 <= k < |acts| ==> Allocates(acts[k])
    ensures Safe(z, slabs') && y.issued <= z.issued
    ensures forall i, j :: 0 <= i < j < |z.issued| ==> Separate(z.issued[i], z.issued[j])
    ensures forall i, k :: 0 <= i < |z.issued| && k in z.held ==> ObjectApart(z, z.issued[i], k)
    ensures forall k: nat, m: nat :: k < m < |z.log| ==> TurnsApart(z.results, z.log, k, m)
    decreases |acts|
  {
    if acts == [] {
      slabs' := slabs;
      SafeObjects(z, slabs);
    } else {
      var m := AllKept(y, slabs, acts[0]);
      slabs' := SafeRun(Next(y, acts[0]), m, acts[1..], z);
    }
  }

  // The machine starts in order once kmem_cache_init is done.
  lemma StartsSafe(y: Machine, slabs: Slabs)
    requires AtRest(y) && WorldOk(y.heap, slabs, y.issued)
    ensures Safe(y, slabs)
  {
    assert Settled(y) == y.heap;
  }

  // From where kmem_cache_init leaves the caches, over every interleaving.
  lemma SafeFromInit(y: Machine, acts: seq<Act>, z: Machine)
    requires AtRest(y) && Inv(y.heap.buddy) && y.issued == []
    requires y.heap.caches == seq(NR_CACHES, _ => Cache([], [], NULL, 0))
    requires Arrives(y, acts, z) && forall k :: 0 <= k < |acts| ==> Allocates(acts[k])
    ensures forall i, j :: 0 <= i < j < |z.issued| ==> Separate(z.issued[i], z.issued[j])
    ensures forall i, k :: 0 <= i < |z.issued| && k in z.held ==> ObjectApart(z, z.issued[i], k)
    ensures |z.results| == |z.log|
    ensures forall k: nat, m: nat :: k < m < |z.log| ==> TurnsApart(z.results, z.log, k, m)
  {
    AtRestInOrder(y);
    InitOk(y.heap.buddy, y.heap.words, y.heap.slabFree);
    StartsSafe(y, map[]);
    var slabs := SafeRun(y, map[], acts, z);
  }
}
