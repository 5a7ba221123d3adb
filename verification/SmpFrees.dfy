/**
 alloc_pages and free_pages on any number of CPUs at once, blocks given back
 included: over every interleaving the blocks held never overlap, exactly as
 long as each free, when it has the freelist lock, gives back a block that is
 held, next to neighbours of matching orders.
*/
module SmpFrees {
  import opened Buddy
  import opened BuddyFree
  import opened BuddyRuns
  import opened BuddyWork
  import opened SlubHeap
  import opened Smp
  import opened SmpOrder

  // ------------------------------------------------- the history as a run of ops

  // Where the block is first held; past the end if it is not.
  function IndexOf(held: seq<Block>, b: Block): (j: nat)
    ensures j <= |held| && (b in held <==> j < |held|) && (b in held ==> held[j] == b)
  {
    if held == [] || held[0] == b then 0 else 1 + IndexOf(held[1..], b)
  }

  // free_pages returns at once.
  predicate NoEffect(job: Job) {
    job.FreeJob? && (job.page == NULL || job.order >= MAX_PAGE_ORDER)
  }

  function OpOf(y: System, job: Job): Op {
    match job
    case AllocJob(o) => AllocPages(o)
    case FreeJob(p, o) => FreePages(if NoEffect(job) then |y.issued| else IndexOf(y.issued, Block(p, o)))
  }

  // The allocator, and the blocks held, after the jobs in turn.
  function Replay(b: Buddy, jobs: seq<Job>): System
    decreases |jobs|
  {
    if jobs == [] then System(b, [])
    else
      var m := |jobs| - 1;
      var y := Replay(b, jobs[..m]);
      Step(y, OpOf(y, jobs[m]))
  }

  // A free gives back a block that is held ...
  predicate HeldTurn(y: System, job: Job) {
    job.FreeJob? && !NoEffect(job) ==>
      0 <= job.page < |y.buddy.isFree| && Block(job.page, job.order) in y.issued
  }

  // ... and the neighbours that the loop would absorb have the matching orders.
  predicate GoodTurn(y: System, job: Job) {
    HeldTurn(y, job) && (job.FreeJob? && !NoEffect(job) ==> OrdersMatch(y.buddy, job.page, job.order))
  }

  ghost predicate HeldTurnAt(b: Buddy, jobs: seq<Job>, n: nat)
    requires n < |jobs|
  {
    HeldTurn(Replay(b, jobs[..n]), jobs[n])
  }

  ghost predicate GoodTurnAt(b: Buddy, jobs: seq<Job>, n: nat)
    requires n < |jobs|
  {
    GoodTurn(Replay(b, jobs[..n]), jobs[n])
  }

  ghost predicate GivesBackHeld(b: Buddy, jobs: seq<Job>) {
    forall n: nat :: n < |jobs| ==> HeldTurnAt(b, jobs, n)
  }

  ghost predicate Proper(b: Buddy, jobs: seq<Job>) {
    forall n: nat :: n < |jobs| ==> GoodTurnAt(b, jobs, n)
  }

  ghost function PagesOf(b: Buddy): iset<int> { iset i | FreePage(b, i) }

  ghost predicate SafeAfter(b: Buddy, jobs: seq<Job>, n: nat)
    requires n <= |jobs|
  {
    Safe(Replay(b, jobs[..n]), PagesOf(b))
  }

  // --------------------------------------------------------------------- a turn

  lemma HeldNotFree(y: System, pages: iset<int>, i: int)
    requires Safe(y, pages) && Held(y, i)
    ensures !FreePage(y.buddy, i)
  {
    var j :| 0 <= j < |y.issued| && InBlock(i, y.issued[j].start, y.issued[j].order);
    FitsPages(y.buddy, y.issued[j].start, y.issued[j].order);
  }

  lemma HeldOnce(y: System, z: System, j: nat, pages: iset<int>, i: int)
    requires Safe(y, pages) && j < |y.issued| && z.issued == y.issued[..j] + y.issued[j + 1..]
    requires Held(z, i)
    ensures !InBlock(i, y.issued[j].start, y.issued[j].order)
  {
    var m :| 0 <= m < |z.issued| && InBlock(i, z.issued[m].start, z.issued[m].order);
    var l := if m < j then m else m + 1;
    assert z.issued[m] == y.issued[l];
  }

  // If all is in order after the free, the free was exact.
  lemma SafeFreeExact(y: System, j: nat, pages: iset<int>)
    requires Safe(y, pages) && j < |y.issued| && 0 <= y.issued[j].start < |y.buddy.isFree|
    requires Safe(Step(y, FreePages(j)), pages)
    ensures ExactFree(y.buddy, y.issued[j].start, y.issued[j].order)
  {
    hide Free, InBlock;
    var z, b := Step(y, FreePages(j)), y.issued[j];
    HeldWithout(y, z, j);
    forall i ensures FreePage(z.buddy, i) <==> FreePage(y.buddy, i) || InBlock(i, b.start, b.order) {
      if Held(y, i) { HeldNotFree(y, pages, i); }
      if Held(z, i) {
        HeldNotFree(z, pages, i);
        HeldOnce(y, z, j, pages, i);
      }
    }
  }

  // A turn keeps all in order if and only if it is a good one.
  lemma TurnSafeIff(y: System, job: Job, pages: iset<int>)
    requires Safe(y, pages) && HeldTurn(y, job)
    ensures Safe(Step(y, OpOf(y, job)), pages) <==> GoodTurn(y, job)
  {
    hide Free, Inv, OrdersMatch;
    match job
    case AllocJob(o) => AllocStep(y, o, pages);
    case FreeJob(p, o) =>
      if !NoEffect(job) {
        var j := IndexOf(y.issued, Block(p, o));
        if OrdersMatch(y.buddy, p, o) {
          FreeStep(y, j, pages);
        } else {
          FreeExactIff(y.buddy, p, o);
          if Safe(Step(y, FreePages(j)), pages) {
            SafeFreeExact(y, j, pages);
          }
        }
      }
  }

  // ----------------------------------------------------------------- all turns

  lemma StartSafe(b: Buddy)
    requires Inv(b)
    ensures Safe(Replay(b, []), PagesOf(b))
  {
  }

  lemma ReplayNext(b: Buddy, jobs: seq<Job>, n: nat)
    requires n < |jobs|
    ensures var y := Replay(b, jobs[..n]); Replay(b, jobs[..n + 1]) == Step(y, OpOf(y, jobs[n]))
  {
    assert jobs[..n + 1][..n] == jobs[..n];
  }

  lemma {:induction false} ProperSafe(b: Buddy, jobs: seq<Job>, n: nat)
    requires Inv(b) && Proper(b, jobs) && n <= |jobs|
    ensures SafeAfter(b, jobs, n)
  {
    hide Step, OpOf;
    if n == 0 {
      StartSafe(b);
      assert jobs[..0] == [];
    } else {
      ProperSafe(b, jobs, n - 1);
      assert GoodTurnAt(b, jobs, n - 1) && SafeAfter(b, jobs, n - 1);
      TurnSafeIff(Replay(b, jobs[..n - 1]), jobs[n - 1], PagesOf(b));
      ReplayNext(b, jobs, n - 1);
    }
  }

  // Blocks held never overlap, and free and held pages stay those free at first,
  // after every turn, if and only if every turn is a good one.
  lemma SafeIffProper(b: Buddy, jobs: seq<Job>)
    requires Inv(b) && GivesBackHeld(b, jobs)
    ensures Proper(b, jobs) <==> forall n: nat :: n <= |jobs| ==> SafeAfter(b, jobs, n)
  {
    hide Step, OpOf, Safe;
    if Proper(b, jobs) {
      forall n: nat | n <= |jobs| ensures SafeAfter(b, jobs, n) {
        ProperSafe(b, jobs, n);
      }
    }
    if forall n: nat :: n <= |jobs| ==> SafeAfter(b, jobs, n) {
      forall n: nat | n < |jobs| ensures GoodTurnAt(b, jobs, n) {
        assert SafeAfter(b, jobs, n) && SafeAfter(b, jobs, n + 1) && HeldTurnAt(b, jobs, n);
        ReplayNext(b, jobs, n);
        TurnSafeIff(Replay(b, jobs[..n]), jobs[n], PagesOf(b));
      }
    }
  }

  // ------------------------------------------------------------ what the CPUs do

  lemma ProperPrefix(b: Buddy, jobs: seq<Job>, m: nat)
    requires Proper(b, jobs) && m <= |jobs|
    ensures Proper(b, jobs[..m])
  {
    hide Replay, GoodTurn;
    forall n: nat | n < m ensures GoodTurnAt(b, jobs[..m], n) {
      assert GoodTurnAt(b, jobs, n) && jobs[..m][..n] == jobs[..n];
    }
  }

  lemma FreeNothing(s: Buddy, job: Job)
    requires JobOk(|s.isFree|, job) && NoEffect(job)
    ensures Apply(s, job).0 == s
  {
  }

  // The replay is the run of the jobs in lock order.
  lemma {:induction false} ReplayRuns(b: Buddy, jobs: seq<Job>)
    requires Proper(b, jobs) && forall k :: 0 <= k < |jobs| ==> JobOk(|b.isFree|, jobs[k])
    ensures Replay(b, jobs).buddy == RunJobs(b, jobs).0
    decreases |jobs|
  {
    hide Alloc, Free, OrdersMatch;
    if jobs != [] {
      var m := |jobs| - 1;
      ProperPrefix(b, jobs, m);
      ReplayRuns(b, jobs[..m]);
      assert GoodTurnAt(b, jobs, m);
      if NoEffect(jobs[m]) {
        FreeNothing(Replay(b, jobs[..m]).buddy, jobs[m]);
      }
    }
  }

  // The block of turn k was not given back in a later turn.
  ghost predicate Kept(results: seq<int>, jobs: seq<Job>, k: nat)
    requires k < |jobs| == |results|
  {
    && jobs[k].AllocJob? && results[k] != NULL
    && forall j :: k < j < |jobs| && jobs[j].FreeJob? ==> jobs[j].page != results[k]
  }

  lemma KeptBefore(results: seq<int>, jobs: seq<Job>, k: nat)
    requires k < |jobs| - 1 && |jobs| == |results| && Kept(results, jobs, k)
    ensures Kept(results[..|jobs| - 1], jobs[..|jobs| - 1], k)
  {
  }

  lemma StillIn(y: System, job: Job, b: Block)
    requires b in y.issued && (job.FreeJob? ==> job.page != b.start)
    ensures b in Step(y, OpOf(y, job)).issued
  {
    hide Alloc, Free;
    var j :| 0 <= j < |y.issued| && y.issued[j] == b;
    var z := Step(y, OpOf(y, job));
    if job.FreeJob? && !NoEffect(job) {
      var i := IndexOf(y.issued, Block(job.page, job.order));
      assert z == y || z.issued[if j < i then j else j - 1] == b;
    } else {
      assert z.issued[j] == b;
    }
  }

  // Such a block is held.
  lemma {:induction false} KeptHeld(b: Buddy, jobs: seq<Job>, k: nat)
    requires Proper(b, jobs) && forall j :: 0 <= j < |jobs| ==> JobOk(|b.isFree|, jobs[j])
    requires k < |jobs| && Kept(RunJobs(b, jobs).1, jobs, k)
    ensures Block(RunJobs(b, jobs).1[k], jobs[k].order) in Replay(b, jobs).issued
    decreases |jobs|
  {
    hide Alloc, Free, OrdersMatch;
    var m := |jobs| - 1;
    var y := Replay(b, jobs[..m]);
    ProperPrefix(b, jobs, m);
    if k < m {
      KeptBefore(RunJobs(b, jobs).1, jobs, k);
      KeptHeld(b, jobs[..m], k);
      StillIn(y, jobs[m], Block(RunJobs(b, jobs).1[k], jobs[k].order));
    } else {
      ReplayRuns(b, jobs[..m]);
      var z := Replay(b, jobs);
      assert z.issued[|y.issued|] == Block(RunJobs(b, jobs).1[k], jobs[k].order);
    }
  }

  // The blocks of two turns that were not given back later share no page.
  lemma {:induction false} KeptApart(b: Buddy, jobs: seq<Job>, k: nat, l: nat)
    requires Inv(b) && Proper(b, jobs) && forall j :: 0 <= j < |jobs| ==> JobOk(|b.isFree|, jobs[j])
    requires k < l < |jobs| && Kept(RunJobs(b, jobs).1, jobs, k) && Kept(RunJobs(b, jobs).1, jobs, l)
    ensures Apart(RunJobs(b, jobs).1[k], jobs[k].order, RunJobs(b, jobs).1[l], jobs[l].order)
    decreases |jobs|
  {
    hide Alloc, Free, OrdersMatch, Inv, Fits;
    var m := |jobs| - 1;
    var y := Replay(b, jobs[..m]);
    ProperPrefix(b, jobs, m);
    KeptBefore(RunJobs(b, jobs).1, jobs, k);
    if l < m {
      KeptBefore(RunJobs(b, jobs).1, jobs, l);
      KeptApart(b, jobs[..m], k, l);
    } else {
      KeptHeld(b, jobs[..m], k);
      ReplayRuns(b, jobs[..m]);
      ProperSafe(b, jobs, m);
      assert SafeAfter(b, jobs, m);
      var c := Block(RunJobs(b, jobs).1[k], jobs[k].order);
      var j :| 0 <= j < |y.issued| && y.issued[j] == c;
      AllocSparesSlab(y.buddy, jobs[m].order, c.start, c.order);
    }
  }

  // Over every interleaving of allocations and frees: after the turns taken so far
  // the blocks held share no page with each other or with a free block, and no
  // page is lost; in particular the blocks of any two turns not given back since
  // are apart. Once the CPUs are idle, the lists are those of that state.
  lemma FreesSafe(y: Machine, acts: seq<Act>, z: Machine)
    requires AtRest(y) && Inv(y.heap.buddy) && Arrives(y, acts, z) && Proper(y.heap.buddy, z.log)
    ensures Safe(Replay(y.heap.buddy, z.log), PagesOf(y.heap.buddy))
    ensures Replay(y.heap.buddy, z.log).buddy == z.settled && (AllIdle(z) ==> z.heap.buddy == z.settled)
    ensures |z.results| == |z.log|
    ensures forall k: nat, l: nat :: k < l < |z.log| && Kept(z.results, z.log, k) && Kept(z.results, z.log, l) ==>
      Apart(z.results[k], z.log[k].order, z.results[l], z.log[l].order)
  {
    hide Inv, Replay, RunJobs, LocksOk, OwnTurns;
    var b := y.heap.buddy;
    AtRestInOrder(y);
    RunInOrder(b, y, acts, z);
    ProperSafe(b, z.log, |z.log|);
    assert z.log[..|z.log|] == z.log;
    ReplayRuns(b, z.log);
    forall k: nat, l: nat | k < l < |z.log| && Kept(z.results, z.log, k) && Kept(z.results, z.log, l)
      ensures Apart(z.results[k], z.log[k].order, z.results[l], z.log[l].order)
    {
      KeptApart(b, z.log, k, l);
    }
  }
}
