/**
 The boot build-up. mm_init.c gives pages to the buddy system one at a time in
 ascending order. This module proves that the coalescing loop then works as a
 binary counter capped at order 10: n frees leave n / 1024 blocks of order 10,
 followed by one block for every binary digit 1 of n % 1024, largest first.
*/
module BuddyBoot {
  import opened Powers
  import opened BinaryDigits
  import opened IntrusiveList
  import opened Buddy
  import opened BuddyFree
  import opened BuddyRuns

  const TOP: nat := MAX_PAGE_ORDER - 1

  // ------------------------------------------------------ the shape of a run

  // Starts of the q blocks of 1024 pages from b, last block first.
  function TopBlocks(b: int, q: nat): seq<int> {
    if q == 0 then [] else [b + 1024 * (q - 1)] + TopBlocks(b, q - 1)
  }

  // What a run of n pages from b contributes to freelist k: below the top order
  // one block if digit k of n is 1, after the blocks of all higher digits.
  function RunBlocks(b: int, n: nat, k: nat): seq<int> {
    if k == TOP then TopBlocks(b, n / 1024)
    else if Digit(n, k) then [b + Floor(n, k + 1)]
    else []
  }

  // Page i starts a block of order at least j of the run.
  ghost predicate RunHead(b: int, n: nat, j: nat, i: int) {
    exists k: nat :: j <= k <= TOP && i in RunBlocks(b, n, k)
  }

  // t is s with a run of n pages from b added: the blocks of the run in front on
  // every freelist, its pages free, and the head flag exactly at its block starts.
  ghost predicate AfterRun(t: Buddy, s: Buddy, b: int, n: nat) {
    && t.mapped == s.mapped && |t.isFree| == |s.isFree|
    && (forall k: nat :: k < MAX_PAGE_ORDER ==> ListAfter(t, s, b, n, k))
    && (forall i :: 0 <= i < |s.isFree| ==> FlagsAfter(t, s, b, n, i))
  }

  ghost predicate ListAfter(t: Buddy, s: Buddy, b: int, n: nat, k: nat)
    requires k < MAX_PAGE_ORDER
  {
    t.lists[k] == RunBlocks(b, n, k) + s.lists[k]
  }

  ghost predicate FlagsAfter(t: Buddy, s: Buddy, b: int, n: nat, i: int)
    requires 0 <= i < |s.isFree| == |t.isFree|
  {
    && (t.isFree[i] <==> b <= i < b + n || s.isFree[i])
    && (t.isHead[i] <==> if b <= i < b + n then RunHead(b, n, 0, i) else s.isHead[i])
  }

  // The frees of mm_init.c: order 0, ascending.
  function FreeRun(s: Buddy, b: int, n: nat): (r: Buddy)
    requires 0 <= b && b + n <= |s.isFree|
    ensures |r.isFree| == |s.isFree| && r.mapped == s.mapped
  {
    if n == 0 then s else Free(FreeRun(s, b, n - 1), b + n - 1, 0)
  }

  // What the run asks of the state before it: its descriptors are mapped and not
  // linked, no page right after one of its pages is free and head, and neither
  // are the pages 1, 2, 4, ..., 512 before it.
  ghost predicate RunReady(s: Buddy, b: int, n: nat) {
    && 0 <= b && b + n <= |s.isFree|
    && (forall i :: b <= i < b + n ==> i in s.mapped)
    && (forall i, k: nat :: b <= i < b + n ==> !IsBlock(s, i, k))
    && (forall i :: b < i <= b + n ==> !Seen(s, i))
    && (forall j: nat :: j < TOP ==> QuietBefore(s, b, n, j))
  }

  ghost predicate QuietBefore(s: Buddy, b: int, n: nat, j: nat) {
    Pow2(j) <= n ==> !Seen(s, b - Pow2(j))
  }

  lemma RunReadyFewer(s: Buddy, b: int, n: nat)
    requires RunReady(s, b, n) && n > 0
    ensures RunReady(s, b, n - 1)
  {
    var m := n - 1;
    forall j: nat | j < TOP ensures QuietBefore(s, b, m, j) {
      assert QuietBefore(s, b, n, j);
    }
  }

  // Where the blocks of a run lie: consecutive, larger ones first.
  lemma {:induction false} TopBlocksAt(b: int, q: nat)
    ensures forall x :: x in TopBlocks(b, q) ==>
              b <= x && x + 1024 <= b + 1024 * q && (x - b) % 1024 == 0
    ensures |TopBlocks(b, q)| == q && NoRepeat(TopBlocks(b, q))
  {
    if q > 0 {
      TopBlocksAt(b, q - 1);
      var t := TopBlocks(b, q - 1);
      assert forall i :: 0 < i < q ==> TopBlocks(b, q)[i] == t[i - 1] && t[i - 1] in t;
    }
  }

  lemma RunBlocksAt(b: int, n: nat, k: nat)
    requires k <= TOP
    ensures forall x :: x in RunBlocks(b, n, k) ==> b <= x && x + Pow2(k) <= b + Floor(n, k)
    ensures k < TOP ==> forall x :: x in RunBlocks(b, n, k) ==>
              x == b + Floor(n, k + 1) && x + Pow2(k) == b + Floor(n, k)
  {
    if k == TOP {
      TopBlocksAt(b, n / 1024);
      FloorTen(n);
      PowersUpToTop();
    } else {
      FloorStep(n, k);
    }
  }

  lemma BelowFloor(b: int, n: nat, j: nat, k: nat)
    requires j <= k <= TOP
    ensures forall x :: x in RunBlocks(b, n, k) ==> b <= x && x + Pow2(k) <= b + Floor(n, j)
  {
    RunBlocksAt(b, n, k);
    FloorMonotone(n, j, k);
  }

  lemma HeadsBelow(b: int, n: nat, j: nat, i: int)
    requires RunHead(b, n, j, i) && j <= TOP
    ensures b <= i && i + Pow2(j) <= b + Floor(n, j)
  {
    var k: nat :| j <= k <= TOP && i in RunBlocks(b, n, k);
    BelowFloor(b, n, j, k);
    Pow2Monotone(j, k);
  }

  // --------------------------------------------------------- one free: a carry

  // t is the loop state after j rounds of the free of page b + n, when the low j
  // digits of n are ones: their blocks have been absorbed, and the extent in hand
  // starts at b + Floor(n, j).
  ghost predicate Carried(t: Buddy, s: Buddy, b: int, n: nat, j: nat) {
    && t.mapped == s.mapped && |t.isFree| == |s.isFree|
    && (forall k: nat :: k < MAX_PAGE_ORDER ==> ListCarried(t, s, b, n, j, k))
    && (forall i :: 0 <= i < |s.isFree| ==> FlagsCarried(t, s, b, n, j, i))
  }

  ghost predicate ListCarried(t: Buddy, s: Buddy, b: int, n: nat, j: nat, k: nat)
    requires k < MAX_PAGE_ORDER
  {
    t.lists[k] == (if k < j then [] else RunBlocks(b, n, k)) + s.lists[k]
  }

  ghost predicate FlagsCarried(t: Buddy, s: Buddy, b: int, n: nat, j: nat, i: int)
    requires 0 <= i < |s.isFree| == |t.isFree|
  {
    && (t.isFree[i] <==> b <= i < b + n || (j > 0 && i == b + n) || s.isFree[i])
    && (t.isHead[i] <==>
          if b <= i < b + n then i == b + Floor(n, j) || RunHead(b, n, j, i)
          else if j > 0 && i == b + n then false
          else s.isHead[i])
  }

  // The neighbour seen after j rounds: the block of digit j, if there is one.
  lemma CarryNeighbour(t: Buddy, s: Buddy, b: int, n: nat, m: nat, j: nat, p: int)
    requires p == b + Floor(n, j)
    requires m == n + 1 && RunReady(s, b, m) && Ones(n, j) && j <= TOP && Carried(t, s, b, n, j)
    ensures Neighbour(t, p, j)
         == if j < TOP && Digit(n, j) then b + Floor(n, j + 1) else NULL
  {
    if j < TOP {
      NextQuiet(t, s, b, n, m, j, p);
      PrevSeen(t, s, b, n, m, j, p, p - Pow2(j));
      FloorStep(n, j);
    }
  }

  // The page after the extent in hand is not free and head.
  lemma NextQuiet(t: Buddy, s: Buddy, b: int, n: nat, m: nat, j: nat, p: int)
    requires p == b + Floor(n, j) && m == n + 1 && RunReady(s, b, m) && Ones(n, j) && Carried(t, s, b, n, j)
    ensures !Seen(t, p + Pow2(j))
  {
    assert p + Pow2(j) == b + m && !Seen(s, b + m);
    assert b + m in s.mapped ==> FlagsCarried(t, s, b, n, j, b + m);
  }

  // The page one extent before it is, if and only if digit j is 1.
  lemma PrevSeen(t: Buddy, s: Buddy, b: int, n: nat, m: nat, j: nat, p: int, q: int)
    requires p == b + Floor(n, j) && q == p - Pow2(j) && j < TOP
    requires m == n + 1 && RunReady(s, b, m) && Ones(n, j) && Carried(t, s, b, n, j)
    ensures Seen(t, q) <==> Digit(n, j)
  {
    hide Digit, Floor, Pow2;
    assert q in s.mapped ==> FlagsCarried(t, s, b, n, j, q);
    FloorStep(n, j);
    if Digit(n, j) {
      assert q in RunBlocks(b, n, j) && RunHead(b, n, j, q);
    } else if Floor(n, j) == 0 {
      assert QuietBefore(s, b, m, j);
      assert q == b - Pow2(j) && !Seen(s, q);
    } else {
      NoHeadThere(b, n, j, q);
      FloorAtLeast(n, j);
      assert b <= q < b + n;
    }
  }

  // With digit j zero, no block of order j or more starts 2^j pages before the end
  // of those blocks.
  lemma NoHeadThere(b: int, n: nat, j: nat, q: int)
    requires j < TOP && !Digit(n, j) && q == b + Floor(n, j) - Pow2(j)
    ensures !RunHead(b, n, j, q)
  {
    forall k: nat | j <= k <= TOP ensures q !in RunBlocks(b, n, k) {
      if j < k {
        BelowFloor(b, n, j + 1, k);
        Pow2Monotone(j + 1, k);
        FloorStep(n, j);
      }
    }
  }

  lemma {:induction false} FloorAtLeast(n: nat, j: nat)
    requires Floor(n, j) > 0
    ensures Floor(n, j) >= Pow2(j)
  {
    if j > 0 {
      FloorAtLeast(n / 2, j - 1);
    }
  }

  // One round absorbs the block of digit j, which is on freelist j.
  lemma CarryRound(t: Buddy, s: Buddy, b: int, n: nat, m: nat, j: nat, p: int, q: int)
    requires p == b + Floor(n, j) && q == b + Floor(n, j + 1)
    requires m == n + 1 && RunReady(s, b, m) && Ones(n, j) && j < TOP && Digit(n, j)
    requires Carried(t, s, b, n, j)
    ensures Ones(n, j + 1) && b <= q < p
    ensures q in t.lists[j]
    ensures Carried(Absorb(t, p, q), s, b, n, j + 1)
  {
    OnesNext(n, j);
    FloorStep(n, j);
    assert ListCarried(t, s, b, n, j, j) && RunBlocks(b, n, j) == [q];
    forall k: nat | k < j ensures q !in t.lists[k] {
      assert !IsBlock(s, q, k) && ListCarried(t, s, b, n, j, k);
    }
    UnlinkAt(t.lists, q, j);
    var u := Absorb(t, p, q);
    assert u.lists == t.lists[j := s.lists[j]];
    var l := j + 1;
    forall k: nat | k < MAX_PAGE_ORDER ensures ListCarried(u, s, b, n, l, k) {
      assert ListCarried(t, s, b, n, j, k);
    }
    forall i | 0 <= i < |s.isFree| ensures FlagsCarried(u, s, b, n, l, i) {
      assert FlagsCarried(t, s, b, n, j, i);
      HeadsOneUp(b, n, j, i);
    }
  }

  // Of the block starts of order at least j, the one of order j is q.
  lemma HeadsOneUp(b: int, n: nat, j: nat, i: int)
    requires j < TOP && Digit(n, j)
    ensures RunHead(b, n, j, i) <==> RunHead(b, n, j + 1, i) || i == b + Floor(n, j + 1)
    ensures RunHead(b, n, j, i) ==> b <= i < b + Floor(n, j)
  {
    var q := b + Floor(n, j + 1);
    assert q in RunBlocks(b, n, j) && RunHead(b, n, j, q);
    if RunHead(b, n, j, i) {
      HeadsBelow(b, n, j, i);
      var k: nat :| j <= k <= TOP && i in RunBlocks(b, n, k);
      assert k == j || RunHead(b, n, j + 1, i);
    }
    if RunHead(b, n, j + 1, i) {
      var k: nat :| j + 1 <= k <= TOP && i in RunBlocks(b, n, k);
      assert RunHead(b, n, j, i);
    }
  }

  // The digits of n + 1 when the carry stops at j.
  lemma CarryStops(b: int, n: nat, m: nat, j: nat, k: nat)
    requires m == n + 1 && Ones(n, j) && j <= TOP && (j == TOP || !Digit(n, j)) && k <= TOP
    ensures RunBlocks(b, m, k)
         == (if k < j then [] else if k == j then [b + Floor(n, j)] else []) +
            (if k < j then [] else RunBlocks(b, n, k))
  {
    if k == TOP {
      CarryStopsTop(b, n, m, j);
    } else {
      DigitCarry(n, m, j, k);
      if k >= j {
        CarryAbove(n, j, k + 1);
        FloorStep(n, j);
      }
    }
  }

  lemma CarryStopsTop(b: int, n: nat, m: nat, j: nat)
    requires m == n + 1 && Ones(n, j) && j <= TOP && (j == TOP || !Digit(n, j))
    ensures TopBlocks(b, m / 1024)
         == (if j == TOP then [b + Floor(n, j)] else []) + TopBlocks(b, n / 1024)
  {
    FloorTen(n);
    FloorTen(m);
    PowersUpToTop();
    if j == TOP {
      CarryBelow(n, TOP, TOP);
      assert m / 1024 == n / 1024 + 1;
    } else {
      CarryAbove(n, j, TOP);
      assert m / 1024 == n / 1024;
    }
  }

  // Linking the extent in hand completes the run of n + 1 pages.
  lemma CarryLink(t: Buddy, s: Buddy, b: int, n: nat, m: nat, j: nat, p: int)
    requires p == b + Floor(n, j)
    requires m == n + 1 && RunReady(s, b, m) && Ones(n, j) && j <= TOP && (j == TOP || !Digit(n, j))
    requires Carried(t, s, b, n, j)
    ensures AfterRun(Link(t, p, j), s, b, m)
  {
    var u := Link(t, p, j);
    forall k: nat | k < MAX_PAGE_ORDER ensures ListAfter(u, s, b, m, k) {
      LinkLists(t, s, b, n, m, j, p, k);
    }
    forall i | 0 <= i < |s.isFree| ensures FlagsAfter(u, s, b, m, i) {
      LinkFlags(t, s, b, n, m, j, p, i);
    }
  }

  lemma LinkLists(t: Buddy, s: Buddy, b: int, n: nat, m: nat, j: nat, p: int, k: nat)
    requires p == b + Floor(n, j) && 0 <= p < |t.isFree| && k < MAX_PAGE_ORDER
    requires m == n + 1 && Ones(n, j) && j <= TOP && (j == TOP || !Digit(n, j))
    requires ListCarried(t, s, b, n, j, k)
    ensures ListAfter(Link(t, p, j), s, b, m, k)
  {
    hide Floor, Digit, Ones;
    CarryStops(b, n, m, j, k);
  }

  lemma LinkFlags(t: Buddy, s: Buddy, b: int, n: nat, m: nat, j: nat, p: int, i: int)
    requires p == b + Floor(n, j) && 0 <= p < |t.isFree| && 0 <= i < |s.isFree| == |t.isFree|
    requires m == n + 1 && 0 <= b && Ones(n, j) && j <= TOP && (j == TOP || !Digit(n, j))
    requires FlagsCarried(t, s, b, n, j, i)
    ensures FlagsAfter(Link(t, p, j), s, b, m, i)
  {
    HeadsOfNext(b, n, m, j, i);
  }

  // Whether page i starts a block of order k of n + 1 pages.
  lemma CarryMember(b: int, n: nat, m: nat, j: nat, k: nat, i: int)
    requires m == n + 1 && Ones(n, j) && j <= TOP && (j == TOP || !Digit(n, j)) && k <= TOP
    ensures i in RunBlocks(b, m, k) <==> k >= j && ((k == j && i == b + Floor(n, j)) || i in RunBlocks(b, n, k))
  {
    CarryStops(b, n, m, j, k);
  }

  // The block starts of n + 1 pages.
  lemma {:induction false} HeadsOfNext(b: int, n: nat, m: nat, j: nat, i: int)
    requires m == n + 1 && Ones(n, j) && j <= TOP && (j == TOP || !Digit(n, j))
    ensures RunHead(b, m, 0, i) <==> RunHead(b, n, j, i) || i == b + Floor(n, j)
    ensures RunHead(b, n, j, i) ==> b <= i < b + Floor(n, j)
  {
    if RunHead(b, m, 0, i) {
      var k: nat :| 0 <= k <= TOP && i in RunBlocks(b, m, k);
      CarryMember(b, n, m, j, k, i);
    }
    if RunHead(b, n, j, i) {
      HeadsBelow(b, n, j, i);
      var k: nat :| j <= k <= TOP && i in RunBlocks(b, n, k);
      CarryMember(b, n, m, j, k, i);
    }
    CarryMember(b, n, m, j, j, i);
  }

  // What the loop leaves when the low digits of n are ones up to digit l.
  ghost predicate CarryDone(r: Merged, s: Buddy, b: int, n: nat) {
    && Carried(r.state, s, b, n, r.order) && r.page == b + Floor(n, r.order)
    && Ones(n, r.order) && r.order <= TOP && (r.order == TOP || !Digit(n, r.order))
  }

  // The rounds of one free, from the j-th on: they absorb exactly the blocks of
  // the trailing ones, each of the matching order.
  lemma {:induction false} Carry(t: Buddy, s: Buddy, b: int, n: nat, m: nat, j: nat, p: int)
    requires m == n + 1 && RunReady(s, b, m) && Ones(n, j) && j <= TOP && Carried(t, s, b, n, j)
    requires p == b + Floor(n, j)
    ensures CarryDone(Coalesce(t, p, j), s, b, n)
    ensures OrdersMatch(t, p, j)
    decreases TOP - j
  {
    hide Coalesce, Neighbour, Digit, Ones;
    CarryNeighbour(t, s, b, n, m, j, p);
    if j < TOP && Digit(n, j) {
      var q := b + Floor(n, j + 1);
      CarryRound(t, s, b, n, m, j, p, q);
      CoalesceAbsorbs(t, p, j, q);
      Carry(Absorb(t, p, q), s, b, n, m, j + 1, q);
    } else {
      CoalesceStops(t, p, j);
    }
  }

  // ------------------------------------------------------------- the whole run

  lemma CarryStart(t: Buddy, s: Buddy, b: int, n: nat)
    requires AfterRun(t, s, b, n)
    ensures Carried(t, s, b, n, 0) && Floor(n, 0) == n && Ones(n, 0)
  {
    forall k: nat | k < MAX_PAGE_ORDER ensures ListCarried(t, s, b, n, 0, k) {
      assert ListAfter(t, s, b, n, k);
    }
    forall i | 0 <= i < |s.isFree| ensures FlagsCarried(t, s, b, n, 0, i) {
      assert FlagsAfter(t, s, b, n, i);
    }
  }

  lemma BootCarry(t: Buddy, s: Buddy, b: int, n: nat, m: nat, p: int)
    requires m == n + 1 && RunReady(s, b, m) && AfterRun(t, s, b, n) && p == b + n
    ensures CarryDone(Coalesce(t, p, 0), s, b, n)
    ensures OrdersMatch(t, p, 0)
  {
    CarryStart(t, s, b, n);
    Carry(t, s, b, n, m, 0, p);
  }

  // One free of the run, of page p: n pages become m = n + 1, and the orders match.
  lemma BootStep(t: Buddy, s: Buddy, b: int, n: nat, m: nat, p: int)
    requires m == n + 1 && RunReady(s, b, m) && AfterRun(t, s, b, n) && p == b + n
    ensures AfterRun(Free(t, p, 0), s, b, m)
    ensures OrdersMatch(t, p, 0)
  {
    BootCarry(t, s, b, n, m, p);
    var Merged(u, q, l) := Coalesce(t, p, 0);
    CarryLink(u, s, b, n, m, l, q);
  }

  lemma BootBase(s: Buddy, b: int)
    ensures AfterRun(s, s, b, 0)
  {
    forall k: nat | k < MAX_PAGE_ORDER ensures ListAfter(s, s, b, 0, k) {
      NoDigits(k);
    }
  }

  // The states of the run, named: u is reached from t by the free of page b + n.
  lemma FreeRunNext(s: Buddy, b: int, n: nat, m: nat, t: Buddy, u: Buddy)
    requires 0 <= b && b + m <= |s.isFree| && m == n + 1
    requires t == FreeRun(s, b, n) && u == FreeRun(s, b, m)
    ensures u == Free(t, b + n, 0)
  {
  }

  lemma {:induction false} BootRunTo(s: Buddy, b: int, n: nat, u: Buddy)
    requires RunReady(s, b, n) && u == FreeRun(s, b, n)
    ensures AfterRun(u, s, b, n)
    decreases n
  {
    hide Free;
    if n == 0 {
      BootBase(s, b);
    } else {
      var m := n - 1;
      var t := FreeRun(s, b, m);
      assert RunReady(s, b, m) by { RunReadyFewer(s, b, n); }
      BootRunTo(s, b, m, t);
      assert u == Free(t, b + m, 0) by { FreeRunNext(s, b, m, n, t, u); }
      BootStep(t, s, b, m, n, b + m);
    }
  }

  // Boot coalescing is a capped binary counter.
  lemma BootRun(s: Buddy, b: int, n: nat)
    requires RunReady(s, b, n)
    ensures AfterRun(FreeRun(s, b, n), s, b, n)
  {
    BootRunTo(s, b, n, FreeRun(s, b, n));
  }

  // Every free of the run meets the same-order condition, so the run keeps the
  // allocator in order and adds exactly its own pages.
  lemma {:induction false} BootRunSoundTo(s: Buddy, b: int, n: nat, u: Buddy)
    requires Inv(s) && RunReady(s, b, n) && u == FreeRun(s, b, n)
    requires forall i :: b <= i < b + n ==> !FreePage(s, i)
    ensures Inv(u)
    ensures forall i :: FreePage(u, i) <==> FreePage(s, i) || b <= i < b + n
    decreases n
  {
    hide Free;
    if n > 0 {
      var m := n - 1;
      var t := FreeRun(s, b, m);
      assert RunReady(s, b, m) by { RunReadyFewer(s, b, n); }
      BootRunSoundTo(s, b, m, t);
      assert AfterRun(t, s, b, m) by { BootRunTo(s, b, m, t); }
      assert u == Free(t, b + m, 0) by { FreeRunNext(s, b, m, n, t, u); }
      BootStepSound(t, s, b, m, n, b + m);
    }
  }

  lemma BootRunSound(s: Buddy, b: int, n: nat)
    requires Inv(s) && RunReady(s, b, n)
    requires forall i :: b <= i < b + n ==> !FreePage(s, i)
    ensures Inv(FreeRun(s, b, n))
    ensures forall i :: FreePage(FreeRun(s, b, n), i) <==> FreePage(s, i) || b <= i < b + n
  {
    BootRunSoundTo(s, b, n, FreeRun(s, b, n));
  }

  lemma BootStepSound(t: Buddy, s: Buddy, b: int, n: nat, m: nat, p: int)
    requires m == n + 1 && RunReady(s, b, m) && AfterRun(t, s, b, n) && p == b + n
    requires Inv(t) && !FreePage(t, p)
    ensures Inv(Free(t, p, 0))
    ensures forall i :: FreePage(Free(t, p, 0), i) <==> FreePage(t, i) || i == p
  {
    BootCarry(t, s, b, n, m, p);
    FitsPages(t, p, 0);
    FreeSound(t, p, 0);
  }
}
