/**
 However the CPUs interleave, the page allocator behaves as if the jobs had run
 one after the other, in the order in which the freelist lock was taken.
*/
module SmpOrder {
  import opened Buddy
  import opened BuddyWork
  import opened Smp

  // CPU i is at work: what is left of its job leads from the present state to
  // where the job leads from the state that the jobs before it leave.
  ghost predicate AtWork(y: Machine, i: nat)
    requires Shape(y) && i < |y.cpus| && y.cpus[i].Busy?
  {
    assert PcOk(Frames(y), y.log, y.cpus[i]);
    var m := |y.log| - 1;
    && y.cpus[i].turn == m
    && Finish(y.heap.buddy, y.cpus[i].job, y.cpus[i].work) ==
         (y.settled, y.results[m])
  }

  // A CPU that has a page to return has the one that its turn gives.
  ghost predicate HasResult(y: Machine, i: nat)
    requires Shape(y) && i < |y.cpus|
  {
    assert PcOk(Frames(y), y.log, y.cpus[i]);
    var pc := y.cpus[i];
    pc.FreelistUnlock? || pc.Trim? ==> pc.page == y.results[pc.turn]
  }

  // The concurrent state is the one of the sequential run, up to the job of the
  // CPU that is at work, if there is one.
  ghost predicate Linear(y: Machine)
    requires Shape(y)
  {
    && (forall i: nat :: i < |y.cpus| && y.cpus[i].Busy? ==> AtWork(y, i))
    && ((forall i :: 0 <= i < |y.cpus| ==> !y.cpus[i].Busy?) ==> y.heap.buddy == y.settled)
    && (forall i: nat :: i < |y.cpus| ==> HasResult(y, i))
  }

  // The turn a CPU has taken and not finished; -1 for none.
  function TurnOf(pc: Pc): int {
    match pc
    case Busy(_, _, turn, _) => turn
    case FreelistUnlock(_, _, turn, _) => turn
    case Trim(_, turn, _) => turn
    case _ => -1
  }

  ghost predicate OtherTurn(y: Machine, i: nat, j: nat)
    requires i < |y.cpus| && j < |y.cpus|
  {
    i != j && TurnOf(y.cpus[i]) >= 0 ==> TurnOf(y.cpus[i]) != TurnOf(y.cpus[j])
  }

  // No two CPUs have the same turn, so no two have the result of the same job.
  ghost predicate OwnTurns(y: Machine) {
    forall i: nat, j: nat :: i < |y.cpus| && j < |y.cpus| ==> OtherTurn(y, i, j)
  }

  lemma OwnTurnsKept(y: Machine, a: Act)
    requires Shape(y) && OwnTurns(y) && Enabled(y, a)
    ensures OwnTurns(Next(y, a))
  {
    hide Micro, Apply;
    var z := Next(y, a);
    forall i: nat, j: nat | i < |z.cpus| && j < |z.cpus| ensures OtherTurn(z, i, j) {
      assert OtherTurn(y, i, j);
      assert PcOk(Frames(y), y.log, y.cpus[i]) && PcOk(Frames(y), y.log, y.cpus[j]);
    }
  }

  // A step that leaves log and buddy system alone, and is not the end of a job.
  lemma LinearElsewhere(y: Machine, z: Machine, i: nat)
    requires Shape(y) && Shape(z) && Linear(y) && i < |y.cpus|
    requires |z.cpus| == |y.cpus| && z.cpus == y.cpus[i := z.cpus[i]]
    requires z.log == y.log && z.settled == y.settled && z.results == y.results && z.heap.buddy == y.heap.buddy
    requires !y.cpus[i].Busy? && !z.cpus[i].Busy? && HasResult(z, i)
    ensures Linear(z)
  {
    forall j: nat | j < |z.cpus| && z.cpus[j].Busy? ensures AtWork(z, j) {
      assert AtWork(y, j);
    }
    forall j: nat | j < |z.cpus| ensures HasResult(z, j) {
      assert HasResult(y, j);
    }
    if forall j :: 0 <= j < |z.cpus| ==> !z.cpus[j].Busy? {
      forall j | 0 <= j < |y.cpus| ensures !y.cpus[j].Busy? {
        assert j != i ==> y.cpus[j] == z.cpus[j];
      }
    }
  }

  // Only one CPU is at work at a time.
  lemma AloneAtWork(y: Machine, i: nat, j: nat)
    requires LocksOk(y.locks, y.cpus) && i < |y.cpus| && j < |y.cpus| && i != j && FREELIST in LocksHeld(y.cpus[i])
    ensures !y.cpus[j].Busy?
  {
    assert HoldsLock(y.cpus, i, FREELIST);
    assert y.cpus[j].Busy? ==> HoldsLock(y.cpus, j, FREELIST);
  }

  // Taking the freelist lock starts the next job of the sequential run.
  lemma LinearStarts(y: Machine, i: nat)
    requires Shape(y) && Linear(y) && LocksOk(y.locks, y.cpus) && i < |y.cpus|
    requires y.cpus[i].FreelistLock? && y.locks[FREELIST] == LOCK_FREE
    ensures Shape(Advance(y, i)) && Linear(Advance(y, i))
  {
    ShapeKept(y, Go(i));
    var z := Advance(y, i);
    assert PcOk(Frames(y), y.log, y.cpus[i]);
    forall j | 0 <= j < |y.cpus| ensures !y.cpus[j].Busy? {
      assert y.cpus[j].Busy? ==> HoldsLock(y.cpus, j, FREELIST) && SomeHolds(y.cpus, FREELIST);
    }
    forall j: nat | j < |z.cpus| && z.cpus[j].Busy? ensures AtWork(z, j) {
      assert j == i;
    }
    forall j: nat | j < |z.cpus| ensures HasResult(z, j) {
      assert HasResult(y, j) && PcOk(Frames(y), y.log, y.cpus[j]);
    }
    assert z.cpus[i].Busy?;
  }

  // A small step of a job keeps where it leads; the last one gets there.
  lemma LinearWorks(y: Machine, i: nat)
    requires Shape(y) && Linear(y) && LocksOk(y.locks, y.cpus) && i < |y.cpus| && y.cpus[i].Busy?
    ensures Shape(Advance(y, i)) && Linear(Advance(y, i))
  {
    ShapeKept(y, Go(i));
    var z := Advance(y, i);
    assert PcOk(Frames(y), y.log, y.cpus[i]) && AtWork(y, i);
    MicroFinishes(y.heap.buddy, y.cpus[i].job, y.cpus[i].work);
    forall j: nat | j < |z.cpus| && z.cpus[j].Busy? ensures AtWork(z, j) {
      if j != i {
        AloneAtWork(y, i, j);
      }
    }
    forall j: nat | j < |z.cpus| ensures HasResult(z, j) {
      assert HasResult(y, j);
    }
    if forall j :: 0 <= j < |z.cpus| ==> !z.cpus[j].Busy? {
      assert !z.cpus[i].Busy?;
    }
  }

  // Every step of every CPU, and every write of a client, keeps the order.
  lemma LinearKept(y: Machine, a: Act)
    requires Shape(y) && Linear(y) && LocksOk(y.locks, y.cpus) && Enabled(y, a)
    ensures Shape(Next(y, a)) && Linear(Next(y, a))
  {
    hide Advance;
    ShapeKept(y, a);
    var z := Next(y, a);
    match a
    case Request(i, _) => LinearElsewhere(y, z, i);
    case Call(i, _) => LinearElsewhere(y, z, i);
    case Write(_) =>
      forall j: nat | j < |z.cpus| && z.cpus[j].Busy? ensures AtWork(z, j) {
        assert AtWork(y, j);
      }
      forall j: nat | j < |z.cpus| ensures HasResult(z, j) {
        assert HasResult(y, j);
      }
    case Go(i) => LinearAdvance(y, i);
  }

  lemma LinearAdvance(y: Machine, i: nat)
    requires Shape(y) && Linear(y) && LocksOk(y.locks, y.cpus) && i < |y.cpus|
    ensures Shape(Advance(y, i)) && Linear(Advance(y, i))
  {
    hide Micro, Apply;
    assert PcOk(Frames(y), y.log, y.cpus[i]) && HasResult(y, i);
    if y.cpus[i].Busy? {
      LinearWorks(y, i);
    } else if y.cpus[i].FreelistLock? && y.locks[FREELIST] == LOCK_FREE {
      LinearStarts(y, i);
    } else {
      ShapeKept(y, Go(i));
      LinearElsewhere(y, Advance(y, i), i);
    }
  }

  // ------------------------------------------------------------ the sequential run

  // The jobs one after the other: where they lead, and what they return.
  function RunJobs(b: Buddy, jobs: seq<Job>): (r: (Buddy, seq<int>))
    requires forall k :: 0 <= k < |jobs| ==> JobOk(|b.isFree|, jobs[k])
    ensures |r.0.isFree| == |b.isFree| && |r.1| == |jobs|
    decreases |jobs|
  {
    if jobs == [] then (b, [])
    else
      var m := |jobs| - 1;
      assert forall k :: 0 <= k < m ==> jobs[..m][k] == jobs[k];
      var (s, results) := RunJobs(b, jobs[..m]);
      var (t, p) := Apply(s, jobs[m]);
      (t, results + [p])
  }

  // The record is that of the jobs in the log, run one after the other from b.
  ghost predicate Recorded(b: Buddy, y: Machine) {
    && (forall k :: 0 <= k < |y.log| ==> JobOk(|b.isFree|, y.log[k]))
    && |b.isFree| == Frames(y) && (y.settled, y.results) == RunJobs(b, y.log)
  }

  lemma RecordNext(b: Buddy, y: Machine, z: Machine, job: Job)
    requires Recorded(b, y) && JobOk(|y.settled.isFree|, job) && |y.settled.isFree| == Frames(y) == Frames(z)
    requires z.log == y.log + [job]
    requires (z.settled, z.results) == (Apply(y.settled, job).0, y.results + [Apply(y.settled, job).1])
    ensures Recorded(b, z)
  {
    assert z.log[..|y.log|] == y.log;
  }

  lemma RecordKept(b: Buddy, y: Machine, a: Act)
    requires Shape(y) && Enabled(y, a) && Recorded(b, y)
    ensures Recorded(b, Next(y, a))
  {
    ShapeKept(y, a);
    if a.Go? && y.cpus[a.cpu].FreelistLock? && y.locks[FREELIST] == LOCK_FREE {
      assert PcOk(Frames(y), y.log, y.cpus[a.cpu]);
      RecordNext(b, y, Next(y, a), y.cpus[a.cpu].job);
    }
  }

  // -------------------------------------------------------------------- runs

  ghost predicate Arrives(y: Machine, acts: seq<Act>, z: Machine)
    decreases |acts|
  {
    if acts == [] then z == y
    else Shape(y) && Enabled(y, acts[0]) && Arrives(Next(y, acts[0]), acts[1..], z)
  }

  ghost predicate AllIdle(y: Machine) {
    forall i :: 0 <= i < |y.cpus| ==> y.cpus[i].Idle?
  }

  // No CPU has begun, no lock is taken, and nothing is recorded.
  ghost predicate AtRest(y: Machine) {
    && |y.locks| == FREELIST + 1 && |y.heap.caches| == FREELIST && AllIdle(y)
    && (forall l :: 0 <= l < |y.locks| ==> y.locks[l] == LOCK_FREE)
    && y.log == [] && y.results == [] && y.settled == y.heap.buddy && y.held == {}
  }

  // At most one CPU holds a lock, and record and state are as described.
  ghost predicate InOrder(b: Buddy, y: Machine) {
    Shape(y) && LocksOk(y.locks, y.cpus) && Linear(y) && Recorded(b, y) && OwnTurns(y)
  }

  lemma AtRestInOrder(y: Machine)
    requires AtRest(y)
    ensures InOrder(y.heap.buddy, y)
  {
  }

  lemma StepInOrder(b: Buddy, y: Machine, a: Act, z: Machine)
    requires InOrder(b, y) && Enabled(y, a) && z == Next(y, a)
    ensures InOrder(b, z) && y.log <= z.log
  {
    hide Micro, Advance, Linear, Recorded, LocksOk;
    LocksKept(y, a);
    LinearKept(y, a);
    RecordKept(b, y, a);
    OwnTurnsKept(y, a);
    if a.Go? {
      AdvanceOk(y, a.cpu);
    }
  }

  // Over every run, of any number of CPUs, the machine stays in order.
  lemma {:induction false} RunInOrder(b: Buddy, y: Machine, acts: seq<Act>, z: Machine)
    requires InOrder(b, y) && Arrives(y, acts, z)
    ensures InOrder(b, z) && y.log <= z.log
    decreases |acts|
  {
    if acts != [] {
      var m := Next(y, acts[0]);
      StepInOrder(b, y, acts[0], m);
      RunInOrder(b, m, acts[1..], z);
    }
  }

  // The concurrent history is a sequential one, in lock order: every page a CPU
  // has from the allocator is the one its turn returns, no two CPUs share a turn,
  // and once all CPUs are idle again, the free lists and flags are those the jobs
  // lead to.
  lemma LockOrder(y: Machine, acts: seq<Act>, z: Machine)
    requires AtRest(y) && Arrives(y, acts, z)
    ensures forall k :: 0 <= k < |z.log| ==> JobOk(|y.heap.buddy.isFree|, z.log[k])
    ensures var (s, results) := RunJobs(y.heap.buddy, z.log);
      && (AllIdle(z) ==> z.heap.buddy == s)
      && forall i :: 0 <= i < |z.cpus| && (z.cpus[i].FreelistUnlock? || z.cpus[i].Trim?) ==>
           && z.cpus[i].turn < |results| && z.cpus[i].page == results[z.cpus[i].turn]
           && (z.cpus[i].FreelistUnlock? ==> z.cpus[i].job == z.log[z.cpus[i].turn])
    ensures OwnTurns(z)
  {
    AtRestInOrder(y);
    RunInOrder(y.heap.buddy, y, acts, z);
    forall i: nat | i < |z.cpus| && (z.cpus[i].FreelistUnlock? || z.cpus[i].Trim?)
      ensures z.cpus[i].turn < |z.results| && z.cpus[i].page == z.results[z.cpus[i].turn]
      ensures z.cpus[i].FreelistUnlock? ==> z.cpus[i].job == z.log[z.cpus[i].turn]
    {
      assert HasResult(z, i) && PcOk(Frames(z), z.log, z.cpus[i]);
    }
  }

  // ---------------------------------------------------------------- blocks held

  // The act gives page p back.
  predicate GivesBack(a: Act, p: int) {
    a.Call? && a.job.FreeJob? && a.job.page == p
  }

  // CPU i is at the end of a call of alloc_pages that has got a page, in turn k.
  predicate Returns(y: Machine, i: nat, k: nat) {
    && i < |y.cpus| && y.cpus[i].FreelistUnlock? && y.cpus[i].job.AllocJob? && y.cpus[i].cache == NULL
    && y.cpus[i].turn == k && y.cpus[i].page != NULL
  }

  // A turn's block is held from the return of alloc_pages on, until the call of
  // free_pages with its page; and no other step makes a difference.
  lemma HeldNext(y: Machine, a: Act, k: nat)
    requires Shape(y) && LocksOk(y.locks, y.cpus) && Enabled(y, a) && k < |y.log|
    ensures k in Next(y, a).held <==>
      || (k in y.held && !GivesBack(a, y.results[k]))
      || (a.Go? && Returns(y, a.cpu, k))
  {
    hide Micro;
    if a.Go? {
      assert PcOk(Frames(y), y.log, y.cpus[a.cpu]);
      if y.cpus[a.cpu].FreelistUnlock? {
        assert HoldsLock(y.cpus, a.cpu, FREELIST);
        assert SomeHolds(y.cpus, FREELIST);
      }
    }
  }

  lemma {:induction false} HeldRun(b: Buddy, y: Machine, acts: seq<Act>, z: Machine, k: nat)
    requires InOrder(b, y) && Arrives(y, acts, z) && k in y.held
    requires forall j :: 0 <= j < |acts| ==> !GivesBack(acts[j], y.results[k])
    ensures InOrder(b, z) && k in z.held && k < |z.results| && z.results[k] == y.results[k]
    decreases |acts|
  {
    hide Next;
    if acts != [] {
      hide InOrder;
      var m := Next(y, acts[0]);
      KeepsResults(b, y, acts[0], k);
      assert !GivesBack(acts[0], y.results[k]);
      forall j | 0 <= j < |acts[1..]| ensures !GivesBack(acts[1..][j], m.results[k]) {
        assert acts[1..][j] == acts[j + 1];
      }
      HeldRun(b, m, acts[1..], z, k);
    }
  }

  lemma KeepsResults(b: Buddy, y: Machine, a: Act, k: nat)
    requires InOrder(b, y) && Enabled(y, a) && k < |y.log|
    ensures InOrder(b, Next(y, a)) && k < |Next(y, a).results| && Next(y, a).results[k] == y.results[k]
    ensures k in y.held && !GivesBack(a, y.results[k]) ==> k in Next(y, a).held
  {
    hide Micro, Linear, Recorded, OwnTurns;
    StepInOrder(b, y, a, Next(y, a));
    HeldNext(y, a, k);
    if a.Go? {
      assert PcOk(Frames(y), y.log, y.cpus[a.cpu]);
    }
  }

  // Over every interleaving: the page that alloc_pages returns to a caller is that of its
  // turn, and the caller holds the block until free_pages is called with the page.
  lemma HeldUntilFreed(b: Buddy, y: Machine, i: nat, k: nat, acts: seq<Act>, z: Machine)
    requires InOrder(b, y) && Returns(y, i, k) && Arrives(Advance(y, i), acts, z)
    requires forall j :: 0 <= j < |acts| ==> !GivesBack(acts[j], y.cpus[i].page)
    ensures k in z.held && k < |z.results| && z.results[k] == y.cpus[i].page && Shape(z)
    ensures forall c: nat, o: nat :: Enabled(z, Call(c, FreeJob(y.cpus[i].page, o))) ==>
      k !in Next(z, Call(c, FreeJob(y.cpus[i].page, o))).held
  {
    hide Micro, Linear, Recorded, OwnTurns;
    ResultOf(y, i);
    HeldNext(y, Go(i), k);
    KeepsResults(b, y, Go(i), k);
    HeldRun(b, Advance(y, i), acts, z, k);
  }

  lemma ResultOf(y: Machine, i: nat)
    requires Shape(y) && Linear(y) && i < |y.cpus|
    ensures PcOk(Frames(y), y.log, y.cpus[i]) && HasResult(y, i)
  {
  }
}
