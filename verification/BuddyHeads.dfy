/**
 Which linked blocks are flagged. The coalescing loop finds a free block by its
 flags alone, so a block that is linked but not marked head stays apart. A split
 makes such blocks: the halves it gives back are linked and nothing more.
*/
module BuddyHeads {
  import opened Powers
  import opened Buddy
  import opened BuddyFree
  import opened BuddyRuns
  import opened BuddyBoot
  import opened BuddyHome

  // Every block on a freelist is found by the coalescing loop: the converse of
  // SeenLinked.
  ghost predicate LinkedSeen(s: Buddy) {
    forall x, k: nat :: IsBlock(s, x, k) ==> Seen(s, x)
  }

  // An allocation keeps this if and only if the freelist of its order is not
  // empty; if it is, the allocation splits.
  lemma LinkedSeenAfterAlloc(s: Buddy, o: nat)
    requires Inv(s) && LinkedSeen(s) && Alloc(s, o).1 != NULL
    ensures o < MAX_PAGE_ORDER
    ensures LinkedSeen(Alloc(s, o).0) <==> s.lists[o] != []
  {
    AllocSound(s, o);
    var (t, p) := Alloc(s, o);
    var a: nat :| IsBlock(s, p, a) && o <= a && forall x, k: nat :: IsBlock(t, x, k) <==> FromSplit(s, x, k, p, a, o);
    if s.lists[o] == [] {
      HalfUnseen(s, o, t, p, a);
    } else {
      FirstOfList(s, o, a);
      forall x, k: nat | IsBlock(t, x, k) ensures Seen(t, x) {
        assert FromSplit(s, x, k, p, a, o) && Apart(x, k, p, o);
        assert Seen(s, x);
      }
    }
  }

  // The smallest half given back lies inside a block of s, so it is no head.
  lemma HalfUnseen(s: Buddy, o: nat, t: Buddy, p: int, a: nat)
    requires Inv(s) && IsBlock(s, p, a) && o < a && t.isHead == s.isHead
    requires forall x, k: nat :: IsBlock(t, x, k) <==> FromSplit(s, x, k, p, a, o)
    ensures !LinkedSeen(t)
  {
    var q := p + Pow2(o);
    Pow2Monotone(o + 1, a);
    assert PlainInside(s, p, a);
    assert FromSplit(s, q, o, p, a, o) && IsBlock(t, q, o);
    assert 0 <= q < |s.isHead| ==> !s.isHead[q];
  }

  lemma FirstOfList(s: Buddy, o: nat, a: nat)
    requires Inv(s) && o < MAX_PAGE_ORDER && s.lists[o] != [] && IsBlock(s, s.lists[o][0], a)
    ensures a == o
  {
    assert IsBlock(s, s.lists[o][0], o);
    OneList(s, s.lists[o][0], o, a);
  }

  // The build-up of a run at boot keeps it.
  lemma LinkedSeenAfterRun(s: Buddy, b: int, n: nat)
    requires LinkedSeen(s) && RunReady(s, b, n)
    ensures LinkedSeen(FreeRun(s, b, n))
  {
    BootRun(s, b, n);
    RunLinkedSeen(FreeRun(s, b, n), s, b, n);
  }

  lemma RunLinkedSeen(t: Buddy, s: Buddy, b: int, n: nat)
    requires LinkedSeen(s) && RunReady(s, b, n) && AfterRun(t, s, b, n)
    ensures LinkedSeen(t)
  {
    forall x, k: nat | IsBlock(t, x, k) ensures Seen(t, x) {
      assert ListAfter(t, s, b, n, k);
      if x in RunBlocks(b, n, k) {
        RunBlocksAt(b, n, k);
        assert RunHead(b, n, 0, x) && FlagsAfter(t, s, b, n, x);
      } else {
        assert IsBlock(s, x, k) && Seen(s, x) && FlagsAfter(t, s, b, n, x);
      }
    }
  }

  // So every block is found after the build-up, and until the first split.
  lemma {:induction false} LinkedSeenAfterBoot(s: Buddy, runs: seq<PageRun>)
    requires Blank(s) && BootReady(s, runs)
    ensures LinkedSeen(FreeRuns(s, runs))
    decreases |runs|
  {
    if runs != [] {
      var m := |runs| - 1;
      var t := FreeRuns(s, runs[..m]);
      LinkedSeenAfterBoot(s, runs[..m]);
      BootRuns(s, runs[..m]);
      forall j | 0 <= j < m ensures FarApart(runs[..m][j], runs[m]) {
        assert FarApart(runs[j], runs[m]);
      }
      NextRunReady(t, runs[..m], runs[m]);
      LinkedSeenAfterRun(t, runs[m].base, runs[m].count);
    }
  }
}
