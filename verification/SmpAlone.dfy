/**
 The steps of one CPU, with no other in between, amount to the allocation that
 modules Buddy and SlubHeap describe: the machine of Smp.dfy is cut from the same
 code.
*/
module SmpAlone {
  import opened Buddy
  import opened BuddyRuns
  import opened Slub
  import opened SlubHeap
  import opened BuddyWork
  import opened Smp

  // CPU i takes n steps.
  function Alone(y: Machine, i: nat, n: nat): (z: Machine)
    requires Shape(y) && i < |y.cpus|
    ensures Shape(z) && |z.cpus| == |y.cpus|
    decreases n
  {
    ShapeKept(y, Go(i));
    if n == 0 then y else Alone(Advance(y, i), i, n - 1)
  }

  lemma {:induction false} AlonePlus(y: Machine, i: nat, m: nat, n: nat)
    requires Shape(y) && i < |y.cpus|
    ensures Alone(y, i, m + n) == Alone(Alone(y, i, m), i, n)
    decreases m
  {
    hide Micro, Advance;
    if m > 0 {
      ShapeKept(y, Go(i));
      AdvanceOk(y, i);
      AlonePlus(Advance(y, i), i, m - 1, n);
    }
  }

  lemma AloneNext(y: Machine, i: nat, n: nat, v: Machine)
    requires Shape(y) && i < |y.cpus| && v == Alone(y, i, n)
    ensures Alone(y, i, n + 1) == Advance(v, i)
  {
    AlonePlus(y, i, n, 1);
    ShapeKept(v, Go(i));
    assert Alone(v, i, 1) == Alone(Advance(v, i), i, 0);
  }

  // In z, CPU i is at pc and the heap is h; nothing else has changed since y but
  // the record of jobs.
  ghost predicate Came(y: Machine, z: Machine, i: nat, pc: Pc, h: Heap) {
    i < |y.cpus| && z.cpus == y.cpus[i := pc] && z.heap == h && z.locks == y.locks && z.issued == y.issued
  }

  lemma BusyStep(y: Machine, i: nat, job: Job, cache: int, turn: nat, work: Work)
    requires Shape(y) && i < |y.cpus| && y.cpus[i] == Busy(job, cache, turn, work)
    requires Ready(Frames(y), job, work)
    ensures if work.Done? then Came(y, Advance(y, i), i, FreelistUnlock(job, cache, turn, work.page), y.heap)
      else var (t, w) := Micro(y.heap.buddy, job, work);
        Came(y, Advance(y, i), i, Busy(job, cache, turn, w), y.heap.(buddy := t))
  {
    hide Micro;
  }

  // A job, step by step, is the job.
  lemma {:induction false} AloneBusy(y: Machine, i: nat, job: Job, cache: int, turn: nat, work: Work) returns (n: nat)
    requires Shape(y) && i < |y.cpus| && y.cpus[i] == Busy(job, cache, turn, work)
    requires Ready(Frames(y), job, work)
    ensures var (t, p) := Finish(y.heap.buddy, job, work);
      Came(y, Alone(y, i, n), i, FreelistUnlock(job, cache, turn, p), y.heap.(buddy := t))
    decreases StepsLeft(job, work)
  {
    hide Micro, Advance;
    ShapeKept(y, Go(i));
    BusyStep(y, i, job, cache, turn, work);
    if work.Done? {
      n := 1;
      assert Alone(y, i, 1) == Alone(Advance(y, i), i, 0);
    } else {
      MicroFinishes(y.heap.buddy, job, work);
      var (t, w) := Micro(y.heap.buddy, job, work);
      var m := AloneBusy(Advance(y, i), i, job, cache, turn, w);
      n := m + 1;
    }
  }

  // The call of alloc_pages in slub_alloc, from lock to unlock.
  lemma AlonePages(y: Machine, i: nat, c: nat) returns (n: nat, turn: nat)
    requires Shape(y) && i < |y.cpus| && c < NR_CACHES && y.cpus[i] == FreelistLock(AllocJob(SlabOrder(c)), c)
    requires y.locks[FREELIST] == LOCK_FREE
    ensures var (t, p) := Alloc(y.heap.buddy, SlabOrder(c));
      Came(y, Alone(y, i, n), i, Trim(c, turn, p), y.heap.(buddy := t))
  {
    hide Micro, Alloc, NewSlab, Pop, Retire;
    ShapeKept(y, Go(i));
    var u, job := Advance(y, i), AllocJob(SlabOrder(c));
    turn := |y.log|;
    assert u.cpus == y.cpus[i := Busy(job, c, turn, Enter)] && u.heap == y.heap;
    var m := AloneBusy(u, i, job, c, turn, Enter);
    var v := Alone(u, i, m);
    n := m + 2;
    AloneNext(u, i, m, v);
    assert Alone(y, i, n) == Advance(v, i);
    assert Advance(v, i).locks == y.locks;
  }

  // CPU i has come to the unlock of cache c with obj in hand, which is NULL or an
  // object just issued; the heap is h.
  ghost predicate Ended(y: Machine, z: Machine, i: nat, c: nat, h: Heap, obj: nat) {
    && i < |y.cpus| && z.cpus == y.cpus[i := CacheUnlock(c, obj)] && z.heap == h && z.locks == y.locks
    && z.issued == if obj == 0 then y.issued else y.issued + [Obj(obj, ObjSize(c))]
  }

  // What is left of kmem_cache_alloc once slub_alloc has its page p, or none.
  function AfterPages(h: Heap, c: nat, t: Buddy, p: int): (Heap, nat)
    requires c < |h.caches| && c < NR_CACHES
  {
    if p < 0 then (h.(buddy := t), 0) else (Pop(NewSlab(h, c, t, p), c), Addr(p))
  }

  lemma AfterPagesIs(h: Heap, c: nat)
    requires Inv(h.buddy) && c < |h.caches| == NR_CACHES && h.caches[c].freelist == 0 && h.caches[c].partial == []
    ensures var (t, p) := Alloc(h.buddy, SlabOrder(c)); AllocObj(h, c) == AfterPages(Retire(h, c), c, t, p)
  {
    AllocSound(h.buddy, SlabOrder(c));
  }

  // A CPU back in slub_alloc.
  lemma AloneTrims(y: Machine, i: nat, c: nat, turn: nat, p: int) returns (n: nat)
    requires Shape(y) && i < |y.cpus| && c < NR_CACHES && y.cpus[i] == Trim(c, turn, p)
    ensures var (h, obj) := AfterPages(y.heap, c, y.heap.buddy, p); Ended(y, Alone(y, i, n), i, c, h, obj)
  {
    ShapeKept(y, Go(i));
    var u := Advance(y, i);
    AloneNext(y, i, 0, y);
    if p < 0 {
      n := 1;
    } else {
      assert u.cpus[i] == Redo(c) && u.heap.caches[c].freelist == Addr(p);
      AloneNext(y, i, 1, u);
      n := 2;
    }
  }

  // A CPU that needs a new slab.
  lemma AloneRefills(y: Machine, i: nat, c: nat, t: Buddy, p: int) returns (n: nat)
    requires Shape(y) && i < |y.cpus| && c < NR_CACHES && y.cpus[i] == FreelistLock(AllocJob(SlabOrder(c)), c)
    requires y.locks[FREELIST] == LOCK_FREE && (t, p) == Alloc(y.heap.buddy, SlabOrder(c))
    ensures var (h, obj) := AfterPages(y.heap, c, t, p); Ended(y, Alone(y, i, n), i, c, h, obj)
  {
    hide Micro, Advance;
    var m, turn := AlonePages(y, i, c);
    var v := Alone(y, i, m);
    var k := AloneTrims(v, i, c, turn, p);
    AlonePlus(y, i, m, k);
    n := m + k;
  }

  // The three ways on from redo.
  lemma RedoStep(y: Machine, i: nat, c: nat)
    requires Shape(y) && i < |y.cpus| && c < NR_CACHES && y.cpus[i] == Redo(c)
    ensures var k, h, u := y.heap.caches[c], y.heap, Advance(y, i);
      && (k.freelist != 0 ==> Ended(y, u, i, c, Pop(h, c), k.freelist))
      && (k.freelist == 0 && k.partial != [] ==> u == y.(heap := TakePartial(Retire(h, c), c)))
      && (k.freelist == 0 && k.partial == [] ==> Came(y, u, i, FreelistLock(AllocJob(SlabOrder(c)), c), Retire(h, c)))
  {
  }

  // What AllocObj does in the same three cases.
  lemma OneRedo(h: Heap, c: nat)
    requires Inv(h.buddy) && c < |h.caches| == NR_CACHES
    ensures var k, r := h.caches[c], Retire(h, c);
      && (k.freelist != 0 ==> AllocObj(h, c) == (Pop(h, c), k.freelist))
      && (k.freelist == 0 && k.partial != [] ==> AllocObj(h, c) == AllocObj(TakePartial(r, c), c))
  {
  }

  // From redo to the unlock, with no other CPU in between, a CPU does what
  // kmem_cache_alloc does when there is only one.
  lemma {:induction false} AloneAllocates(y: Machine, i: nat, c: nat) returns (n: nat)
    requires Shape(y) && i < |y.cpus| && c < NR_CACHES && y.cpus[i] == Redo(c)
    requires y.locks[FREELIST] == LOCK_FREE && Inv(y.heap.buddy)
    ensures var (h, obj) := AllocObj(y.heap, c); Ended(y, Alone(y, i, n), i, c, h, obj)
    decreases |y.heap.caches[c].partial|, if y.heap.caches[c].freelist == 0 then 1 else 0
  {
    hide Advance, AllocObj, Alloc, AfterPages, Pop, Inv;
    ShapeKept(y, Go(i));
    RedoStep(y, i, c);
    OneRedo(y.heap, c);
    var k, u := y.heap.caches[c], Advance(y, i);
    if k.freelist != 0 {
      n := 1;
      assert Alone(y, i, 1) == Alone(u, i, 0);
    } else if k.partial != [] {
      var m := AloneAllocates(u, i, c);
      n := m + 1;
    } else {
      AfterPagesIs(y.heap, c);
      var (t, p) := Alloc(y.heap.buddy, SlabOrder(c));
      var m := AloneRefills(u, i, c, t, p);
      n := m + 1;
    }
  }
}
