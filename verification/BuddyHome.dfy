/**
 Several boot runs, and the allocations that follow them. mm_init.c frees one
 ascending run for every available area; allocations then split blocks of these
 runs. Every block, free or issued, stays inside one run, at an offset that is a
 multiple of its size.
*/
module BuddyHome {
  import opened Powers
  import opened BinaryDigits
  import opened Buddy
  import opened BuddyRuns
  import opened BuddyBoot

  datatype PageRun = PageRun(base: int, count: nat)

  ghost predicate InRun(i: int, r: PageRun) {
    r.base <= i < r.base + r.count
  }

  ghost predicate InRuns(i: int, runs: seq<PageRun>) {
    exists j :: 0 <= j < |runs| && InRun(i, runs[j])
  }

  // The state after freelist_init: nothing linked, nothing marked free and head.
  ghost predicate Blank(s: Buddy) {
    && (forall k :: 0 <= k < MAX_PAGE_ORDER ==> s.lists[k] == [])
    && (forall i :: !Seen(s, i))
  }

  ghost predicate RunMapped(s: Buddy, r: PageRun) {
    && 0 <= r.base && r.base + r.count <= |s.isFree|
    && forall i :: InRun(i, r) ==> i in s.mapped
  }

  // Two runs with at least 512 pages between them.
  ghost predicate FarApart(r: PageRun, q: PageRun) {
    r.base + r.count + 512 <= q.base || q.base + q.count + 512 <= r.base
  }

  ghost predicate BootReady(s: Buddy, runs: seq<PageRun>) {
    && (forall j :: 0 <= j < |runs| ==> RunMapped(s, runs[j]))
    && (forall i, j :: 0 <= i < j < |runs| ==> FarApart(runs[i], runs[j]))
  }

  ghost function FreeRuns(s: Buddy, runs: seq<PageRun>): (r: Buddy)
    requires BootReady(s, runs)
    ensures |r.isFree| == |s.isFree| && r.mapped == s.mapped
  {
    if runs == [] then s
    else
      var m := |runs| - 1;
      FreeRun(FreeRuns(s, runs[..m]), runs[m].base, runs[m].count)
  }

  // Freelist k after the runs: the blocks of the last run first.
  function RunsBlocks(runs: seq<PageRun>, k: nat): seq<int> {
    if runs == [] then []
    else
      var m := |runs| - 1;
      RunBlocks(runs[m].base, runs[m].count, k) + RunsBlocks(runs[..m], k)
  }

  // What the state t after the runs looks like.
  ghost predicate AfterRuns(t: Buddy, runs: seq<PageRun>) {
    && Inv(t)
    && (forall k :: 0 <= k < MAX_PAGE_ORDER ==> t.lists[k] == RunsBlocks(runs, k))
    && (forall i :: FreePage(t, i) <==> InRuns(i, runs))
    && (forall i :: Seen(t, i) ==> InRuns(i, runs))
  }

  lemma BlockInFreePages(t: Buddy, x: int, k: nat)
    requires IsBlock(t, x, k)
    ensures FreePage(t, x)
  {
    assert InBlock(x, x, k);
  }

  // A run far from all earlier ones meets the requirements of its build-up.
  lemma NextRunReady(t: Buddy, runs: seq<PageRun>, r: PageRun)
    requires AfterRuns(t, runs) && RunMapped(t, r)
    requires forall j :: 0 <= j < |runs| ==> FarApart(runs[j], r)
    ensures RunReady(t, r.base, r.count)
    ensures forall i :: InRun(i, r) ==> !FreePage(t, i)
  {
    forall i, j | r.base - 512 <= i <= r.base + r.count && 0 <= j < |runs| ensures !InRun(i, runs[j]) {
      assert FarApart(runs[j], r);
    }
    forall i, k: nat | r.base <= i < r.base + r.count ensures !IsBlock(t, i, k) {
      if IsBlock(t, i, k) {
        BlockInFreePages(t, i, k);
      }
    }
    forall j: nat | j < TOP ensures QuietBefore(t, r.base, r.count, j) {
      Pow2Monotone(j, 9);
      PowersUpToTop();
    }
  }

  lemma InRunsNext(runs: seq<PageRun>, m: nat, i: int)
    requires |runs| == m + 1
    ensures InRuns(i, runs) <==> InRuns(i, runs[..m]) || InRun(i, runs[m])
  {
    if InRuns(i, runs) {
      var j :| 0 <= j < |runs| && InRun(i, runs[j]);
      assert j < m ==> runs[..m][j] == runs[j];
    }
    if InRuns(i, runs[..m]) {
      var j :| 0 <= j < m && InRun(i, runs[..m][j]);
      assert runs[j] == runs[..m][j];
    }
  }

  lemma RunExtends(u: Buddy, t: Buddy, runs: seq<PageRun>, m: nat)
    requires |runs| == m + 1 && RunMapped(t, runs[m])
    requires AfterRuns(t, runs[..m]) && RunReady(t, runs[m].base, runs[m].count)
    requires AfterRun(u, t, runs[m].base, runs[m].count) && Inv(u)
    requires forall i :: FreePage(u, i) <==> FreePage(t, i) || InRun(i, runs[m])
    ensures AfterRuns(u, runs)
  {
    var r := runs[m];
    forall k: nat | k < MAX_PAGE_ORDER ensures u.lists[k] == RunsBlocks(runs, k) {
      assert ListAfter(u, t, r.base, r.count, k);
    }
    forall i ensures InRuns(i, runs) <==> InRuns(i, runs[..m]) || InRun(i, r) {
      InRunsNext(runs, m, i);
    }
    forall i | Seen(u, i) ensures InRuns(i, runs) {
      assert FlagsAfter(u, t, r.base, r.count, i);
      assert InRun(i, r) || Seen(t, i);
    }
  }

  // The boot build-up over any number of far-apart runs, in any order.
  lemma {:induction false} BootRuns(s: Buddy, runs: seq<PageRun>)
    requires Blank(s) && BootReady(s, runs)
    ensures AfterRuns(FreeRuns(s, runs), runs)
    decreases |runs|
  {
    if runs != [] {
      var m := |runs| - 1;
      var r, t := runs[m], FreeRuns(s, runs[..m]);
      BootRuns(s, runs[..m]);
      forall j | 0 <= j < m ensures FarApart(runs[..m][j], r) {
        assert FarApart(runs[j], runs[m]);
      }
      NextRunReady(t, runs[..m], r);
      BootRun(t, r.base, r.count);
      BootRunSound(t, r.base, r.count);
      RunExtends(FreeRuns(s, runs), t, runs, m);
    }
  }

  // ---------------------------------------------------------------- alignment

  ghost predicate Multiple(d: int, k: nat) {
    exists q: int :: d == q * Pow2(k)
  }

  // The block lies inside one run, at an offset that is a multiple of its size.
  ghost predicate Home(x: int, k: nat, runs: seq<PageRun>) {
    exists j :: 0 <= j < |runs| && HomeIn(x, k, runs[j])
  }

  ghost predicate HomeIn(x: int, k: nat, r: PageRun) {
    r.base <= x && x + Pow2(k) <= r.base + r.count && Multiple(x - r.base, k)
  }

  lemma TwiceAsOften(q: int, k: nat)
    ensures q * Pow2(k + 1) == (2 * q) * Pow2(k)
  {
  }

  lemma RunBlocksHome(r: PageRun, k: nat, x: int)
    requires k <= TOP && x in RunBlocks(r.base, r.count, k)
    ensures HomeIn(x, k, r)
  {
    hide Digit, Floor, Pow2;
    RunBlocksAt(r.base, r.count, k);
    if k == TOP {
      TopBlocksAt(r.base, r.count / 1024);
      PowersUpToTop();
      assert x - r.base == (x - r.base) / 1024 * Pow2(TOP);
    } else {
      var q := FloorMultiple(r.count, k + 1);
      TwiceAsOften(q, k);
    }
  }

  lemma {:induction false} RunsBlocksHome(runs: seq<PageRun>, k: nat, x: int)
    requires k <= TOP && x in RunsBlocks(runs, k)
    ensures Home(x, k, runs)
    decreases |runs|
  {
    var m := |runs| - 1;
    if x in RunBlocks(runs[m].base, runs[m].count, k) {
      RunBlocksHome(runs[m], k, x);
    } else {
      RunsBlocksHome(runs[..m], k, x);
      var j :| 0 <= j < m && HomeIn(x, k, runs[..m][j]);
      assert runs[j] == runs[..m][j];
    }
  }

  lemma {:induction false} MultipleFiner(d: int, a: nat, k: nat)
    requires Multiple(d, a) && k <= a
    ensures Multiple(d, k)
  {
    if k < a {
      var q :| d == q * Pow2(a);
      assert d == (2 * q) * Pow2(a - 1);
      MultipleFiner(d, a - 1, k);
    }
  }

  lemma MultipleNext(d: int, k: nat)
    requires Multiple(d, k)
    ensures Multiple(d + Pow2(k), k)
  {
    var q :| d == q * Pow2(k);
    assert d + Pow2(k) == (q + 1) * Pow2(k);
  }

  // Both parts of a block that is split are at home where the block is.
  lemma HalvesHome(p: int, a: nat, k: nat, runs: seq<PageRun>)
    requires Home(p, a, runs) && k <= a
    ensures Home(p, k, runs)
    ensures k < a ==> Home(p + Pow2(k), k, runs)
  {
    var j :| 0 <= j < |runs| && HomeIn(p, a, runs[j]);
    MultipleFiner(p - runs[j].base, a, k);
    Pow2Monotone(k, a);
    assert HomeIn(p, k, runs[j]);
    if k < a {
      Pow2Monotone(k + 1, a);
      MultipleNext(p - runs[j].base, k);
      assert HomeIn(p + Pow2(k), k, runs[j]);
    }
  }

  ghost predicate AllHome(y: System, runs: seq<PageRun>) {
    && (forall x, k: nat :: IsBlock(y.buddy, x, k) ==> Home(x, k, runs))
    && (forall j :: 0 <= j < |y.issued| ==> Home(y.issued[j].start, y.issued[j].order, runs))
  }

  lemma AllocHome(y: System, o: nat, runs: seq<PageRun>)
    requires Inv(y.buddy) && AllHome(y, runs)
    ensures AllHome(Step(y, AllocPages(o)), runs)
  {
    AllocSound(y.buddy, o);
    var (t, p) := Alloc(y.buddy, o);
    if p != NULL {
      var a: nat :| IsBlock(y.buddy, p, a) && o <= a &&
        forall x, k: nat :: IsBlock(t, x, k) <==> FromSplit(y.buddy, x, k, p, a, o);
      HalvesHome(p, a, o, runs);
      forall x, k: nat | IsBlock(t, x, k) ensures Home(x, k, runs) {
        assert FromSplit(y.buddy, x, k, p, a, o);
        if !IsBlock(y.buddy, x, k) {
          HalvesHome(p, a, k, runs);
        }
      }
    }
  }

  predicate OnlyAllocs(ops: seq<Op>) {
    forall i :: 0 <= i < |ops| ==> ops[i].AllocPages?
  }

  lemma {:induction false} AllocRunHome(y: System, ops: seq<Op>, pages: iset<int>, runs: seq<PageRun>)
    requires Safe(y, pages) && AllHome(y, runs) && OnlyAllocs(ops)
    ensures Safe(Run(y, ops), pages) && AllHome(Run(y, ops), runs)
    decreases |ops|
  {
    if ops != [] {
      assert ops[0].AllocPages?;
      AllocStep(y, ops[0].order, pages);
      AllocHome(y, ops[0].order, runs);
      AllocRunHome(Step(y, ops[0]), ops[1..], pages, runs);
    }
  }

  // Build-up, then any sequence of allocations: issued blocks are disjoint from
  // each other and from the free blocks, free and issued pages together are the
  // pages of the runs, and every block sits at a multiple of its size in its run.
  lemma BootThenAllocate(s: Buddy, runs: seq<PageRun>, ops: seq<Op>)
    requires Blank(s) && BootReady(s, runs) && OnlyAllocs(ops)
    ensures var y := Run(System(FreeRuns(s, runs), []), ops);
      Safe(y, iset i | InRuns(i, runs)) && AllHome(y, runs)
  {
    var t := FreeRuns(s, runs);
    var pages := iset i | InRuns(i, runs);
    BootRuns(s, runs);
    forall x, k: nat | IsBlock(t, x, k) ensures Home(x, k, runs) {
      RunsBlocksHome(runs, k, x);
    }
    AllocRunHome(System(t, []), ops, pages, runs);
  }
}
