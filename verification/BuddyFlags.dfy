/**
 The is_free flags, and what one allocation does list by list and flag by flag.
 The code clears the flags of all pages of a block that it hands out, and sets
 that of the first page only of a block that it gets back.
*/
module BuddyFlags {
  import opened Powers
  import opened Buddy
  import opened BuddyFree
  import opened BuddyRuns
  import opened BuddyBoot
  import opened BuddyHome

  // Only free pages are flagged free.
  ghost predicate FlaggedFree(s: Buddy) {
    forall i :: 0 <= i < |s.isFree| && s.isFree[i] ==> FreePage(s, i)
  }

  // All free pages are, and no others.
  ghost predicate FlagsTrue(s: Buddy) {
    forall i :: 0 <= i < |s.isFree| ==> (s.isFree[i] <==> FreePage(s, i))
  }

  // ------------------------------------------------------------- one allocation

  // The loop that gives back upper halves puts one block in front of every
  // freelist from o up to below a.
  lemma {:induction false} SplitLists(s: Buddy, p: int, a: nat, o: nat, k: nat)
    requires o <= a < MAX_PAGE_ORDER && k < MAX_PAGE_ORDER
    ensures Split(s, p, a, o).lists[k] == (if o <= k < a then [p + Pow2(k)] else []) + s.lists[k]
    decreases a
  {
    if a > o {
      var b := a - 1;
      SplitLists(s.(lists := s.lists[b := [p + Pow2(b)] + s.lists[b]]), p, b, o, k);
    }
  }

  // The block comes from freelist a: the first not empty one from o on.
  ghost predicate FirstHolds(s: Buddy, o: nat, a: nat) {
    o <= a < MAX_PAGE_ORDER && s.lists[a] != [] && forall k: nat :: o <= k < a ==> s.lists[k] == []
  }

  // For every state, in order or not: nothing happens if no list from o on has a
  // block; otherwise the first block of the first such list is taken and its upper
  // halves are given back ...
  lemma AllocExact(s: Buddy, o: nat)
    ensures (forall a: nat :: !FirstHolds(s, o, a)) ==> Alloc(s, o) == (s, NULL)
    ensures forall a: nat :: FirstHolds(s, o, a) ==> TakenFrom(s, o, a, Alloc(s, o).0, Alloc(s, o).1)
  {
    if o < MAX_PAGE_ORDER {
      var b := FirstFit(s, o);
      FirstFitSkipsEmpty(s, o);
      assert b < MAX_PAGE_ORDER ==> FirstHolds(s, o, b);
    }
    forall a: nat | FirstHolds(s, o, a) ensures TakenFrom(s, o, a, Alloc(s, o).0, Alloc(s, o).1) {
      AllocFrom(s, o, a);
    }
  }

  ghost predicate TakenFrom(s: Buddy, o: nat, a: nat, t: Buddy, p: int)
    requires a < MAX_PAGE_ORDER
  {
    && s.lists[a] != [] && p == s.lists[a][0]
    && forall k: nat :: k < MAX_PAGE_ORDER ==>
         t.lists[k] == if k == a then s.lists[a][1..] else if o <= k < a then [p + Pow2(k)] else s.lists[k]
  }

  lemma AllocFrom(s: Buddy, o: nat, a: nat)
    requires FirstHolds(s, o, a)
    ensures TakenFrom(s, o, a, Alloc(s, o).0, Alloc(s, o).1)
  {
    hide Split, Pow2;
    var b := FirstFit(s, o);
    FirstFitSkipsEmpty(s, o);
    assert a == b;
    var p := s.lists[a][0];
    forall k: nat | k < MAX_PAGE_ORDER
      ensures Alloc(s, o).0.lists[k] ==
        if k == a then s.lists[a][1..] else if o <= k < a then [p + Pow2(k)] else s.lists[k]
    {
      SplitLists(Take(s, a), p, a, o, k);
    }
  }

  // ... and the flags of exactly its pages are cleared.
  lemma AllocClears(s: Buddy, o: nat, i: int)
    requires InRange(s) && 0 <= i < |s.isFree|
    ensures var (t, p) := Alloc(s, o); t.isFree[i] <==> s.isFree[i] && !(p != NULL && InBlock(i, p, o))
  {
    hide FirstFit;
    var a := if o < MAX_PAGE_ORDER then FirstFit(s, o) else MAX_PAGE_ORDER;
    assert a < MAX_PAGE_ORDER ==> IsBlock(s, s.lists[a][0], a);
  }

  lemma AllocFlags(s: Buddy, o: nat)
    requires Inv(s)
    ensures FlaggedFree(s) ==> FlaggedFree(Alloc(s, o).0)
    ensures FlagsTrue(s) ==> FlagsTrue(Alloc(s, o).0)
  {
    hide Alloc, FreePage;
    AllocSound(s, o);
    var (t, p) := Alloc(s, o);
    if p != NULL {
      FitsPagesAfter(s, o);
      forall i | 0 <= i < |t.isFree| ensures t.isFree[i] <==> s.isFree[i] && !InBlock(i, p, o) {
        AllocClears(s, o, i);
      }
    }
  }

  lemma FitsPagesAfter(s: Buddy, o: nat)
    requires Inv(s) && Alloc(s, o).1 != NULL
    ensures var (t, p) := Alloc(s, o); forall i :: InBlock(i, p, o) ==> !FreePage(t, i)
  {
    AllocSound(s, o);
    FitsPages(Alloc(s, o).0, Alloc(s, o).1, o);
  }

  // -------------------------------------------------------------------- one free

  // The loop sets flags inside the extent in hand only, and clears none.
  lemma {:induction false} CoalesceFlags(s: Buddy, p: int, o: nat, i: int)
    requires 0 <= p < |s.isFree| && o < MAX_PAGE_ORDER && 0 <= i < |s.isFree|
    ensures var Merged(t, q, l) := Coalesce(s, p, o);
      && (s.isFree[i] ==> t.isFree[i])
      && (t.isFree[i] ==> s.isFree[i] || InBlock(i, q, l))
      && (InBlock(i, p, o) ==> InBlock(i, q, l))
    decreases MAX_PAGE_ORDER - o
  {
    var q := Neighbour(s, p, o);
    if q != NULL {
      MergeExtent(p, q, o, i);
      CoalesceFlags(Absorb(s, p, q), Min(p, q), o + 1, i);
    }
  }

  // Of the pages given back, the first is flagged in the end and the others are not
  // touched.
  lemma {:induction false} GivenFlags(s: Buddy, p: int, o: nat, i: int)
    requires 0 <= p < |s.isFree| && o < MAX_PAGE_ORDER && 0 <= i < |s.isFree| && InBlock(i, p, o)
    ensures Free(s, p, o).isFree[i] <==> i == p || s.isFree[i]
    decreases MAX_PAGE_ORDER - o
  {
    var q := Neighbour(s, p, o);
    if q != NULL {
      CoalesceAbsorbs(s, p, o, q);
      MergeExtent(p, q, o, i);
      GivenFlags(Absorb(s, p, q), Min(p, q), o + 1, i);
    }
  }

  // A free of a block at its turn in a guarded run flags free pages only.
  lemma FreeFlags(s: Buddy, p: int, o: nat)
    requires Inv(s) && Fits(s, p, o) && PlainInside(s, p, o) && o < MAX_PAGE_ORDER
    requires OrdersMatch(s, p, o) && FlaggedFree(s)
    ensures FlaggedFree(Free(s, p, o))
  {
    FreeSound(s, p, o);
    var Merged(u, q, l) := Coalesce(s, p, o);
    var t := Free(s, p, o);
    assert IsBlock(t, q, l) by { LinkBlocks(u, q, l); }
    forall i | 0 <= i < |t.isFree| && t.isFree[i] ensures FreePage(t, i) {
      CoalesceFlags(s, p, o, i);
      assert i == q ==> InBlock(i, q, l);
    }
  }

  // It leaves all flags true if and only if it gives back a single page.
  lemma FlagsTrueIff(s: Buddy, p: int, o: nat)
    requires Inv(s) && Fits(s, p, o) && PlainInside(s, p, o) && o < MAX_PAGE_ORDER
    requires OrdersMatch(s, p, o) && FlagsTrue(s)
    ensures FlagsTrue(Free(s, p, o)) <==> o == 0
  {
    FreeSound(s, p, o);
    FreeFlags(s, p, o);
    FitsPages(s, p, o);
    var t := Free(s, p, o);
    if o == 0 {
      forall i | 0 <= i < |t.isFree| && FreePage(t, i) ensures t.isFree[i] {
        CoalesceFlags(s, p, 0, i);
        if InBlock(i, p, 0) {
          GivenFlags(s, p, 0, i);
        }
      }
    } else {
      Pow2Monotone(1, o);
      assert InBlock(p + 1, p, o);
      GivenFlags(s, p, o, p + 1);
    }
  }

  // ----------------------------------------------------------------------- runs

  lemma HeldUnflagged(y: System, pages: iset<int>, i: int)
    requires Safe(y, pages) && FlaggedFree(y.buddy) && Held(y, i)
    ensures 0 <= i < |y.buddy.isFree| && !y.buddy.isFree[i]
  {
    var j :| 0 <= j < |y.issued| && InBlock(i, y.issued[j].start, y.issued[j].order);
    FitsPages(y.buddy, y.issued[j].start, y.issued[j].order);
  }

  // Over every run of allocations and guarded frees, no page of a block held is
  // flagged free.
  lemma {:induction false} RunFlags(y: System, ops: seq<Op>, pages: iset<int>)
    requires Safe(y, pages) && Guarded(y, ops) && FlaggedFree(y.buddy)
    ensures var z := Run(y, ops);
      && Safe(z, pages) && FlaggedFree(z.buddy)
      && forall i :: Held(z, i) ==> 0 <= i < |z.buddy.isFree| && !z.buddy.isFree[i]
    decreases |ops|
  {
    hide Inv, Free, Alloc, OrdersMatch;
    if ops == [] {
      forall i | Held(y, i) ensures 0 <= i < |y.buddy.isFree| && !y.buddy.isFree[i] {
        HeldUnflagged(y, pages, i);
      }
    } else {
      match ops[0] {
        case AllocPages(o) =>
          AllocStep(y, o, pages);
          AllocFlags(y.buddy, o);
        case FreePages(j) =>
          FreeStep(y, j, pages);
          FreeFlags(y.buddy, y.issued[j].start, y.issued[j].order);
      }
      RunFlags(Step(y, ops[0]), ops[1..], pages);
    }
  }

  // The build-up flags the pages of its runs.
  lemma {:induction false} BootFlags(s: Buddy, runs: seq<PageRun>)
    requires Blank(s) && BootReady(s, runs) && forall i :: 0 <= i < |s.isFree| ==> !s.isFree[i]
    ensures FlagsTrue(FreeRuns(s, runs))
    decreases |runs|
  {
    hide FlagsTrue, AfterRun;
    BootRuns(s, runs);
    if runs == [] {
      NothingFlagged(s);
    } else {
      var m := |runs| - 1;
      var r, t := runs[m], FreeRuns(s, runs[..m]);
      BootFlags(s, runs[..m]);
      BootRuns(s, runs[..m]);
      forall j | 0 <= j < m ensures FarApart(runs[..m][j], r) {
        assert FarApart(runs[j], runs[m]);
      }
      NextRunReady(t, runs[..m], r);
      BootRun(t, r.base, r.count);
      RunFlagged(FreeRuns(s, runs), t, runs, m);
    }
  }

  lemma NothingFlagged(s: Buddy)
    requires Blank(s) && forall i :: 0 <= i < |s.isFree| ==> !s.isFree[i]
    ensures FlagsTrue(s)
  {
    assert forall x, k: nat :: !IsBlock(s, x, k);
  }

  lemma RunFlagged(u: Buddy, t: Buddy, runs: seq<PageRun>, m: nat)
    requires |runs| == m + 1 && AfterRuns(t, runs[..m]) && AfterRuns(u, runs)
    requires AfterRun(u, t, runs[m].base, runs[m].count) && FlagsTrue(t)
    ensures FlagsTrue(u)
  {
    forall i | 0 <= i < |u.isFree| ensures u.isFree[i] <==> FreePage(u, i) {
      assert FlagsAfter(u, t, runs[m].base, runs[m].count, i);
      InRunsNext(runs, m, i);
    }
  }

  lemma {:induction false} AllocRunFlags(y: System, ops: seq<Op>)
    requires Inv(y.buddy) && FlagsTrue(y.buddy) && OnlyAllocs(ops)
    ensures FlagsTrue(Run(y, ops).buddy)
    decreases |ops|
  {
    hide Alloc, Inv, FlagsTrue;
    if ops != [] {
      assert ops[0].AllocPages?;
      AllocSound(y.buddy, ops[0].order);
      AllocFlags(y.buddy, ops[0].order);
      AllocRunFlags(Step(y, ops[0]), ops[1..]);
    }
  }

  // From cleared flags, after the build-up and any allocations, every page is flagged
  // free exactly if it is.
  lemma BootThenAllocateFlags(s: Buddy, runs: seq<PageRun>, ops: seq<Op>)
    requires Blank(s) && BootReady(s, runs) && OnlyAllocs(ops)
    requires forall i :: 0 <= i < |s.isFree| ==> !s.isFree[i]
    ensures FlagsTrue(Run(System(FreeRuns(s, runs), []), ops).buddy)
  {
    BootRuns(s, runs);
    BootFlags(s, runs);
    AllocRunFlags(System(FreeRuns(s, runs), []), ops);
  }
}
