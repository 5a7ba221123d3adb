/**
 The hand-over in code/mm/mm_init.c from the boot-time allocators to the buddy
 system: every page of an available area at or above the end of the linear
 allocator's segment is freed, in ascending order per area.
*/
module MmInit {
  import opened PageSizes
  import opened Buddy
  import opened BuddyBoot
  import opened BuddyHome
  import opened LinearAlloc
  import opened PageAlloc

  // The first address that the loop over an entry comes to at or above end.
  function FirstFrom(e: Entry, end: nat): (r: nat)
    ensures r >= end && r >= e.addr
  {
    if e.addr >= end then e.addr
    else e.addr + (end - e.addr + (PAGE_SIZE - 1)) / PAGE_SIZE * PAGE_SIZE
  }

  // The frames of these addresses, as a run. The loop steps by whole pages from the
  // start of the entry, which need not be at a page.
  function ReleasedRun(e: Entry, end: nat): PageRun {
    var from := FirstFrom(e, end);
    if e.kind == AVAILABLE && e.addr + e.len > from
    then PageRun(from / PAGE_SIZE, (e.addr + e.len - from + (PAGE_SIZE - 1)) / PAGE_SIZE)
    else PageRun(from / PAGE_SIZE, 0)
  }

  function ReleasedRuns(entries: seq<Entry>, end: nat): seq<PageRun> {
    if entries == [] then []
    else
      var m := |entries| - 1;
      var r := ReleasedRun(entries[m], end);
      ReleasedRuns(entries[..m], end) + (if r.count == 0 then [] else [r])
  }

  lemma StepsToFirst(e: Entry, end: nat) returns (k: nat)
    ensures FirstFrom(e, end) == e.addr + k * PAGE_SIZE
    ensures FirstFrom(e, end) > e.addr ==> FirstFrom(e, end) < end + PAGE_SIZE
  {
    k := (FirstFrom(e, end) - e.addr) / PAGE_SIZE;
  }

  // The k-th address that the loop over the entry comes to is in the entry, at or above
  // end, and in frame p.
  predicate ReleasedAt(e: Entry, end: nat, k: nat, p: int) {
    var a := e.addr + k * PAGE_SIZE;
    end <= a < e.addr + e.len && a / PAGE_SIZE == p
  }

  // The run is exactly the frames of these addresses.
  lemma ReleasedExactly(e: Entry, end: nat, p: int)
    ensures InRun(p, ReleasedRun(e, end)) <==> e.kind == AVAILABLE && exists k: nat :: ReleasedAt(e, end, k, p)
  {
    var r := ReleasedRun(e, end);
    var n := StepsToFirst(e, end);
    if InRun(p, r) {
      FramesInStep(e.addr + n * PAGE_SIZE, p - r.base);
      assert ReleasedAt(e, end, n + (p - r.base), p);
    }
    if e.kind == AVAILABLE && exists k: nat :: ReleasedAt(e, end, k, p) {
      var k: nat :| ReleasedAt(e, end, k, p);
      assert k >= n;
      FramesInStep(e.addr + n * PAGE_SIZE, k - n);
    }
  }

  lemma FramesInStep(a: nat, j: nat)
    ensures (a + j * PAGE_SIZE) / PAGE_SIZE == a / PAGE_SIZE + j
  {
  }

  // ------------------------------------------------------ where the frames lie

  // Seen from the page grid, the entry does not start behind end in end's page.
  predicate ClearOf(e: Entry, end: nat) {
    if e.addr >= end then e.addr - e.addr % PAGE_SIZE >= end
    else end % PAGE_SIZE == 0 || e.addr % PAGE_SIZE < end % PAGE_SIZE
  }

  // Every address of a frame released is at or above end, if and only if that is
  // so. It is when the entry starts at a page, or when end is at one.
  lemma ReleasedAboveIff(e: Entry, end: nat)
    requires ReleasedRun(e, end).count > 0
    ensures end <= ReleasedRun(e, end).base * PAGE_SIZE <==> ClearOf(e, end)
    ensures e.addr % PAGE_SIZE == 0 || (end % PAGE_SIZE == 0 && e.addr < end) ==> ClearOf(e, end)
  {
  }

  // The frames released lie inside their entry if and only if it covers whole pages
  // there.
  lemma ReleasedInsideIff(e: Entry, end: nat)
    requires ReleasedRun(e, end).count > 0
    ensures var r := ReleasedRun(e, end);
      e.addr <= r.base * PAGE_SIZE && (r.base + r.count) * PAGE_SIZE <= e.addr + e.len <==>
        && (e.addr % PAGE_SIZE == 0 || FirstFrom(e, end) > e.addr)
        && (e.len % PAGE_SIZE == 0 || e.addr % PAGE_SIZE + e.len % PAGE_SIZE >= PAGE_SIZE)
  {
    hide FirstFrom;
    var k := StepsToFirst(e, end);
    PagesUp(e.addr / PAGE_SIZE + k, e.addr % PAGE_SIZE);
    PagesUp(e.len / PAGE_SIZE - k, e.len % PAGE_SIZE);
  }

  lemma PagesUp(q: int, r: nat)
    requires r < PAGE_SIZE
    ensures (q * PAGE_SIZE + r) / PAGE_SIZE == q
    ensures (q * PAGE_SIZE + r + (PAGE_SIZE - 1)) / PAGE_SIZE == if r == 0 then q else q + 1
  {
  }

  // An entry of seven quarters of a page: the second frame released reaches beyond it.
  lemma ReleasedBeyond()
    ensures var e := Entry(0x1000, 0x1c00, AVAILABLE);
      ReleasedRun(e, 0) == PageRun(1, 2) && 3 * PAGE_SIZE > e.addr + e.len
  {
  }

  // Some address that the loops over the entries release is in frame p.
  ghost predicate Releases(entries: seq<Entry>, end: nat, p: int) {
    exists i, k: nat :: 0 <= i < |entries| && entries[i].kind == AVAILABLE && ReleasedAt(entries[i], end, k, p)
  }

  lemma {:induction false} RunsReleased(entries: seq<Entry>, end: nat, p: int)
    ensures InRuns(p, ReleasedRuns(entries, end)) <==> Releases(entries, end, p)
    decreases |entries|
  {
    if entries != [] {
      hide ReleasedRun, ReleasedAt, InRuns, Releases;
      var m := |entries| - 1;
      var r, before, runs := ReleasedRun(entries[m], end), ReleasedRuns(entries[..m], end), ReleasedRuns(entries, end);
      RunsReleased(entries[..m], end, p);
      ReleasedExactly(entries[m], end, p);
      ReleasesNext(entries, end, p);
      if r.count > 0 {
        assert runs == before + [r] && runs[..|before|] == before;
        InRunsNext(runs, |before|, p);
      } else {
        assert runs == before;
      }
    }
  }

  lemma ReleasesNext(entries: seq<Entry>, end: nat, p: int)
    requires entries != []
    ensures var m := |entries| - 1;
      Releases(entries, end, p) <==>
        || Releases(entries[..m], end, p)
        || (entries[m].kind == AVAILABLE && exists k: nat :: ReleasedAt(entries[m], end, k, p))
  {
    hide ReleasedAt;
    var m := |entries| - 1;
    if Releases(entries[..m], end, p) {
      var i, k: nat :| 0 <= i < m && entries[..m][i].kind == AVAILABLE && ReleasedAt(entries[..m][i], end, k, p);
      assert ReleasedAt(entries[i], end, k, p);
    }
    if Releases(entries, end, p) {
      var i, k: nat :| 0 <= i < |entries| && entries[i].kind == AVAILABLE && ReleasedAt(entries[i], end, k, p);
      assert i < m ==> entries[..m][i] == entries[i];
    }
  }

  // ---------------------------------------------------------------- hand-over

  lemma {:induction false} ReleasedAbove(entries: seq<Entry>, end: nat, p: int)
    requires forall i :: 0 <= i < |entries| && ReleasedRun(entries[i], end).count > 0 ==> ClearOf(entries[i], end)
    requires InRuns(p, ReleasedRuns(entries, end))
    ensures end <= p * PAGE_SIZE
    decreases |entries|
  {
    var m := |entries| - 1;
    var runs := ReleasedRuns(entries, end);
    var j :| 0 <= j < |runs| && InRun(p, runs[j]);
    if j < |ReleasedRuns(entries[..m], end)| {
      assert InRun(p, ReleasedRuns(entries[..m], end)[j]);
      ReleasedAbove(entries[..m], end, p);
    } else {
      ReleasedAboveIff(entries[m], end);
    }
  }

  // No page released to the buddy system was part of a chunk that the boot
  // allocator or, after it, the linear allocator handed out: over any calls of
  // the first, and any calls of the second, that starts where the first stopped.
  lemma HandOver(b: BootState, bootSizes: seq<nat>, s: LinearState, sizes: seq<nat>,
    entries: seq<Entry>, p: int, c: Chunk)
    requires b.start <= b.total && BootNoWraps(b, bootSizes)
    requires s.start == RunBoot(b, bootSizes).0.start && LinearInv(s) && NoWraps(s, sizes)
    requires var end := RunLinear(s, sizes).0.end;
      && InRuns(p, ReleasedRuns(entries, end))
      && forall i :: 0 <= i < |entries| && ReleasedRun(entries[i], end).count > 0 ==> ClearOf(entries[i], end)
    requires c in RunBoot(b, bootSizes).1 || c in RunLinear(s, sizes).1
    ensures c.addr + c.size <= p * PAGE_SIZE
  {
    BootRunBelow(b, bootSizes);
    LinearRun(s, sizes);
    ReleasedAbove(entries, RunLinear(s, sizes).0.end, p);
  }

  // The condition on the entries is needed. Two pages are handed out of an area that
  // ends inside a page, and the next entry starts in that page: the frame that both
  // lie in is released.
  lemma HandOverFails()
    ensures var s := LinearState(0x400, 0x2800, 0, [Area(0x400, 0x2800)]);
      var e := Entry(0x2800, 0x2000, AVAILABLE); var (t, cs) := RunLinear(s, [0x1000, 0x1000]);
      && LinearInv(s) && NoWraps(s, [0x1000, 0x1000])
      && !ClearOf(e, t.end) && InRuns(2, ReleasedRuns([e], t.end))
      && Chunk(0x1400, 0x1000) in cs && 0x1400 + 0x1000 > 2 * PAGE_SIZE
  {
    var s, sizes := LinearState(0x400, 0x2800, 0, [Area(0x400, 0x2800)]), [0x1000, 0x1000];
    assert s.areas[0].start <= s.start && s.end <= s.areas[0].end;
    assert sizes[..1] == [0x1000] && sizes[..1][..0] == [];
    var t, c := LinearState(0x1400, 0x2800, 0, s.areas), Chunk(0x400, 0x1000);
    assert AllocLinear(s, 0x1000) == (t, 0x400);
    assert RunLinear(s, []) == (s, []) && Align(0x1000) == 0x1000 && [] + [c] == [c];
    assert RunLinear(s, sizes[..1]) == (t, [c]);
    assert AllocLinear(t, 0x1000) == (LinearState(0x2400, 0x2800, 0, s.areas), 0x1400);
    var e := Entry(0x2800, 0x2000, AVAILABLE);
    assert [e][..0] == [] && ReleasedRuns([e], 0x2800) == [PageRun(2, 2)];
    assert InRun(2, [PageRun(2, 2)][0]);
  }

  // ---------------------------------------------------------------- the loops

  lemma {:induction false} RunReadyPrefix(s: Buddy, b: int, n: nat, k: nat)
    requires RunReady(s, b, n) && k <= n
    ensures RunReady(s, b, k)
    decreases n - k
  {
    if k < n {
      RunReadyFewer(s, b, n);
      RunReadyPrefix(s, b, n - 1, k);
    }
  }

  // t is s with a run of k pages from b freed.
  ghost predicate IsFreeRun(t: Buddy, s: Buddy, b: int, k: nat) {
    if k == 0 then t == s else 0 <= b && b + k <= |s.isFree| && t == FreeRun(s, b, k)
  }

  lemma NextOfRun(s: Buddy, b: int, k: nat, m: nat, t: Buddy)
    requires m == k + 1 && 0 <= b && b + m <= |s.isFree| && IsFreeRun(t, s, b, k)
    ensures IsFreeRun(Free(t, b + k, 0), s, b, m)
  {
    FreeRunNext(s, b, k, m, FreeRun(s, b, k), FreeRun(s, b, m));
  }

  // Only freelists exist so far.
  ghost predicate OnlyFreelists(pa: PageAllocator)
    reads pa, pa.links
  {
    forall h :: h in pa.links.lists ==> pa.IsHead(h)
  }

  // A run that can be freed page by page.
  ghost predicate Releasable(s: Buddy, r: PageRun) {
    RunReady(s, r.base, r.count) && forall i :: InRun(i, r) ==> !FreePage(s, i)
  }

  // The next page of a run can be freed: it is on no list.
  lemma NextLoose(pa: PageAllocator, s: Buddy, r: PageRun, k: nat)
    requires pa.Valid() && OnlyFreelists(pa) && k < r.count
    requires Inv(s) && Releasable(s, r) && |s.isFree| == pa.n && IsFreeRun(pa.state, s, r.base, k)
    ensures pa.Loose(r.base + k)
  {
    RunReadyPrefix(s, r.base, r.count, k);
    assert !FreePage(s, r.base + k) by { assert InRun(r.base + k, r); }
    forall i | r.base <= i < r.base + k ensures !FreePage(s, i) {
      assert InRun(i, r);
    }
    BootRunSound(s, r.base, k);
    NotFreeIsUnlinked(pa, r.base + k);
  }

  lemma NotFreeIsUnlinked(pa: PageAllocator, p: int)
    requires pa.Valid() && OnlyFreelists(pa) && 0 <= p < pa.n && !FreePage(pa.state, p)
    ensures pa.links.Unlinked(p)
  {
    forall h | pa.links.On(p, h) ensures false {
      var j := h - pa.n;
      assert pa.FreelistOk(j) && h == pa.Head(j);
      BlockInFreePages(pa.state, p, j);
    }
  }

  // The loop over the pages of one entry.
  method ReleaseEntry(pa: PageAllocator, e: Entry, end: nat)
    requires pa.Valid() && OnlyFreelists(pa) && Inv(pa.state)
    requires ReleasedRun(e, end).count > 0 ==> Releasable(pa.state, ReleasedRun(e, end))
    modifies pa`state, pa.links`lists, pa.links.next, pa.links.prev, pa.isFree, pa.isHead
    ensures pa.Valid() && OnlyFreelists(pa)
    ensures IsFreeRun(pa.state, old(pa.state), ReleasedRun(e, end).base, ReleasedRun(e, end).count)
  {
    ghost var r := ReleasedRun(e, end);
    ghost var s := pa.state;
    ghost var k: nat := 0;
    var start := e.addr;
    while start < e.addr + e.len
      invariant pa.Valid() && OnlyFreelists(pa)
      invariant k <= r.count && IsFreeRun(pa.state, s, r.base, k)
      invariant Progress(e, end, start, k)
    {
      k := ReleaseFrame(pa, e, end, start, s, k);
      start := start + PAGE_SIZE;
    }
    ProgressEnd(e, end, start, k);
  }

  // One round of the loop over an entry: the frame at start is released if it
  // is available and above end. Now j pages of the entry are.
  method ReleaseFrame(pa: PageAllocator, e: Entry, end: nat, start: nat, ghost s: Buddy, ghost k: nat)
    returns (ghost j: nat)
    requires pa.Valid() && OnlyFreelists(pa) && Inv(s) && |s.isFree| == pa.n
    requires ReleasedRun(e, end).count > 0 ==> Releasable(s, ReleasedRun(e, end))
    requires k <= ReleasedRun(e, end).count && IsFreeRun(pa.state, s, ReleasedRun(e, end).base, k)
    requires Progress(e, end, start, k) && start < e.addr + e.len
    modifies pa`state, pa.links`lists, pa.links.next, pa.links.prev, pa.isFree, pa.isHead
    ensures pa.Valid() && OnlyFreelists(pa)
    ensures j <= ReleasedRun(e, end).count && IsFreeRun(pa.state, s, ReleasedRun(e, end).base, j)
    ensures Progress(e, end, start + PAGE_SIZE, j)
  {
    hide Inv, Progress, Releasable, IsFreeRun;
    var idx := start / PAGE_SIZE;
    ProgressPage(e, end, start, k);
    j := k;
    if start >= end && e.kind == AVAILABLE {
      ReleasePage(pa, idx, s, ReleasedRun(e, end), k);
      j := k + 1;
    }
  }

  // The loop over an entry has come to address start, with k pages released.
  ghost predicate Progress(e: Entry, end: nat, start: nat, k: nat) {
    && e.addr <= start && (start - e.addr) % PAGE_SIZE == 0
    && (ReleasedRun(e, end).count > 0 ==>
          if start < end then k == 0 else start == FirstFrom(e, end) + k * PAGE_SIZE)
  }

  lemma ProgressPage(e: Entry, end: nat, start: nat, k: nat)
    requires Progress(e, end, start, k) && start < e.addr + e.len
    ensures var r := ReleasedRun(e, end);
      if start >= end && e.kind == AVAILABLE
      then k < r.count && start / PAGE_SIZE == r.base + k && Progress(e, end, start + PAGE_SIZE, k + 1)
      else Progress(e, end, start + PAGE_SIZE, k)
  {
  }

  lemma ProgressEnd(e: Entry, end: nat, start: nat, k: nat)
    requires Progress(e, end, start, k) && start >= e.addr + e.len && k <= ReleasedRun(e, end).count
    ensures k == ReleasedRun(e, end).count
  {
  }

  // free_pages(p, 0) on the next page of a run.
  method ReleasePage(pa: PageAllocator, p: int, ghost s: Buddy, ghost r: PageRun, ghost k: nat)
    requires pa.Valid() && OnlyFreelists(pa) && k < r.count && p == r.base + k
    requires Inv(s) && Releasable(s, r) && |s.isFree| == pa.n && IsFreeRun(pa.state, s, r.base, k)
    modifies pa`state, pa.links`lists, pa.links.next, pa.links.prev, pa.isFree, pa.isHead
    ensures pa.Valid() && OnlyFreelists(pa) && IsFreeRun(pa.state, s, r.base, k + 1)
  {
    hide Inv, Free, FreeRun;
    NextLoose(pa, s, r, k);
    NextOfRun(s, r.base, k, k + 1, pa.state);
    pa.FreePages(p, 0);
  }

  // The states of the loop over entries: released so far, and what is left to do.
  lemma {:induction false} ReleasedPrefix(s: Buddy, entries: seq<Entry>, end: nat, i: nat)
    requires Blank(s) && i <= |entries| && BootReady(s, ReleasedRuns(entries, end))
    ensures BootReady(s, ReleasedRuns(entries[..i], end))
    decreases |entries| - i
  {
    if i < |entries| {
      ReleasedPrefix(s, entries, end, i + 1);
      assert entries[..i + 1][..i] == entries[..i];
      var shorter, longer := ReleasedRuns(entries[..i], end), ReleasedRuns(entries[..i + 1], end);
      assert forall j :: 0 <= j < |shorter| ==> shorter[j] == longer[j];
    } else {
      assert entries[..i] == entries;
    }
  }

  // Adding one run to a build-up.
  lemma FreeRunsNext(s: Buddy, runs: seq<PageRun>, r: PageRun, next: seq<PageRun>)
    requires Blank(s) && BootReady(s, runs) && next == runs + [r] && BootReady(s, next)
    ensures var t := FreeRuns(s, runs);
      && Inv(t) && Releasable(t, r)
      && FreeRuns(s, next) == FreeRun(t, r.base, r.count)
  {
    BootRuns(s, runs);
    assert next[..|runs|] == runs && next[|runs|] == r;
    forall j | 0 <= j < |runs| ensures FarApart(runs[j], r) {
      assert runs[j] == next[j];
    }
    assert RunMapped(s, next[|runs|]);
    NextRunReady(FreeRuns(s, runs), runs, r);
  }

  lemma ReleasedRunsNext(entries: seq<Entry>, end: nat, i: nat)
    requires i < |entries|
    ensures var r := ReleasedRun(entries[i], end);
      ReleasedRuns(entries[..i + 1], end) == ReleasedRuns(entries[..i], end) + (if r.count == 0 then [] else [r])
  {
    assert entries[..i + 1][..i] == entries[..i];
  }

  lemma ReleaseNext(s: Buddy, entries: seq<Entry>, end: nat, i: nat, runs: seq<PageRun>, next: seq<PageRun>)
    requires Blank(s) && i < |entries| && BootReady(s, ReleasedRuns(entries, end))
    requires runs == ReleasedRuns(entries[..i], end) && next == ReleasedRuns(entries[..i + 1], end)
    ensures BootReady(s, runs) && BootReady(s, next)
    ensures var t, r := FreeRuns(s, runs), ReleasedRun(entries[i], end);
      && Inv(t)
      && (r.count == 0 ==> next == runs)
      && (r.count > 0 ==>
            && Releasable(t, r)
            && FreeRuns(s, next) == FreeRun(t, r.base, r.count))
  {
    ReleasedPrefix(s, entries, end, i);
    ReleasedPrefix(s, entries, end, i + 1);
    ReleasedRunsNext(entries, end, i);
    var r := ReleasedRun(entries[i], end);
    if r.count > 0 {
      FreeRunsNext(s, runs, r, next);
    } else {
      BootRuns(s, runs);
    }
  }

  // The loop over the entries: the buddy system ends up in the state that the
  // released runs build up from nothing.
  method ReleasePages(pa: PageAllocator, entries: seq<Entry>, end: nat)
    requires pa.Valid() && OnlyFreelists(pa) && Blank(pa.state)
    requires BootReady(pa.state, ReleasedRuns(entries, end))
    modifies pa`state, pa.links`lists, pa.links.next, pa.links.prev, pa.isFree, pa.isHead
    ensures pa.Valid() && OnlyFreelists(pa)
    ensures pa.state == FreeRuns(old(pa.state), ReleasedRuns(entries, end))
    ensures AfterRuns(pa.state, ReleasedRuns(entries, end))
  {
    ghost var s := pa.state;
    var i := 0;
    while i < |entries|
      invariant 0 <= i <= |entries| && pa.Valid() && OnlyFreelists(pa)
      invariant BootReady(s, ReleasedRuns(entries[..i], end))
      invariant pa.state == FreeRuns(s, ReleasedRuns(entries[..i], end))
    {
      ReleaseNext(s, entries, end, i, ReleasedRuns(entries[..i], end), ReleasedRuns(entries[..i + 1], end));
      ReleaseEntry(pa, entries[i], end);
      i := i + 1;
    }
    assert entries[..i] == entries;
    BootRuns(s, ReleasedRuns(entries, end));
  }
}
