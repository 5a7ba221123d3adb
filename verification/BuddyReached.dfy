/**
 States in which the page allocator gives more or less than it should, each
 reached from the build-up at boot by calls that kernel code may make.
*/
module BuddyReached {
  import opened Powers
  import opened BinaryDigits
  import opened Buddy
  import opened BuddyFree
  import opened BuddyRuns
  import opened BuddyBoot
  import opened BuddyHome
  import opened BuddyHeads

  function FirstFrames(n: nat): (r: set<int>)
    ensures forall i :: i in r <==> 0 <= i < n
  {
    if n == 0 then {} else FirstFrames(n - 1) + {n - 1}
  }

  // n frames, all of their descriptors mapped, after freelist_init.
  function Unused(n: nat): Buddy {
    State(seq(MAX_PAGE_ORDER, _ => []), seq(n, _ => false), seq(n, _ => false), FirstFrames(n))
  }

  // The first c of n frames are released at boot.
  ghost function Booted(n: nat, c: nat): (t: Buddy)
    requires c <= n
    ensures Blank(Unused(n)) && BootReady(Unused(n), [PageRun(0, c)])
    ensures |t.isFree| == n && t.mapped == FirstFrames(n)
  {
    assert forall j :: 0 <= j < 1 ==> RunMapped(Unused(n), [PageRun(0, c)][j]);
    FreeRuns(Unused(n), [PageRun(0, c)])
  }

  lemma BootedLists(n: nat, c: nat, t: Buddy)
    requires c <= n && t == Booted(n, c)
    ensures Inv(t) && LinkedSeen(t)
    ensures forall k :: 0 <= k < MAX_PAGE_ORDER ==> t.lists[k] == RunBlocks(0, c, k)
    ensures forall i :: FreePage(t, i) || Seen(t, i) ==> 0 <= i < c
  {
    hide FreeRun, Inv;
    var runs := [PageRun(0, c)];
    BootRuns(Unused(n), runs);
    LinkedSeenAfterBoot(Unused(n), runs);
    assert runs[..0] == [];
    assert forall k :: 0 <= k < MAX_PAGE_ORDER ==> RunsBlocks(runs, k) == RunBlocks(0, c, k) + RunsBlocks([], k);
  }

  // ------------------------------------------------ giving back what was taken

  // Three frames are released at boot: a block of two, and one of one behind it.
  // The block of two is taken and given back. Now frame 3 is free too, although
  // it was never given to the allocator.
  lemma RoundTripGains()
    ensures var t := Booted(8, 3); var (u, p) := Alloc(t, 1);
      p == 0 && !FreePage(t, 3) && !OrdersMatch(u, 0, 1) && FreePage(Free(u, 0, 1), 3)
  {
    var t := Booted(8, 3);
    BootedLists(8, 3, t);
    assert Digit(3, 0) && Digit(3, 1) && !Digit(3, 2) && Floor(3, 1) == 2 && Floor(3, 2) == 0;
    assert t.lists[0] == [2] && t.lists[1] == [0];
    assert IsBlock(t, 2, 0);
    AllocAbsorbs(t);
  }

  lemma AllocAbsorbs(t: Buddy)
    requires |t.isFree| == 8 && t.lists[0] == [2] && t.lists[1] == [0]
    requires Seen(t, 2) && !Seen(t, 4)
    ensures var (u, p) := Alloc(t, 1);
      p == 0 && !OrdersMatch(u, 0, 1) && FreePage(Free(u, 0, 1), 3)
  {
    assert Pow2(1) == 2 && Pow2(2) == 4;
    var u := Alloc(t, 1).0;
    assert u == MarkUsed(Take(t, 1), 0, 2);
    assert Neighbour(u, 0, 1) == 2;
    CoalesceAbsorbs(u, 0, 1, 2);
    var v := Absorb(u, 0, 2);
    assert Neighbour(v, 0, 2) == NULL;
    CoalesceStops(v, 0, 2);
    assert Free(u, 0, 1) == Link(v, 0, 2);
    assert IsBlock(Link(v, 0, 2), 0, 2) && InBlock(3, 0, 2);
    assert 2 !in u.lists[1];
  }

  // -------------------------------------------------- a split hides its halves

  // Two frames are released at boot, and one is taken: the other one is linked
  // and not marked head.
  lemma SplitHides()
    ensures var t := Booted(2, 2); var (u, p) := Alloc(t, 0);
      LinkedSeen(t) && p != NULL && !LinkedSeen(u)
  {
    var t := Booted(2, 2);
    BootedLists(2, 2, t);
    assert !Digit(2, 0) && Digit(2, 1) && Floor(2, 2) == 0;
    assert t.lists[0] == [] && IsBlock(t, 0, 1);
    AllocSound(t, 0);
    LinkedSeenAfterAlloc(t, 0);
  }

  // ------------------------------------------- a free takes a page from a holder

  // Four frames, with blocks of order 0, 1 and 2 only.
  function Four(l0: seq<int>, l1: seq<int>, l2: seq<int>, free: seq<bool>, head: seq<bool>): (s: Buddy)
    requires |free| == |head| == 4
    ensures |s.isFree| == 4 && s.mapped == {0, 1, 2, 3}
  {
    State([l0, l1, l2, [], [], [], [], [], [], [], []], free, head, {0, 1, 2, 3})
  }

  const FIRST: seq<bool> := [true, false, false, false]

  lemma DigitsOfFour(k: nat)
    ensures Digit(4, k) <==> k == 2
  {
    if k >= 3 {
      NoDigits(k - 3);
      assert Digit(4, k) == Digit(2, k - 1) == Digit(1, k - 2) == Digit(0, k - 3);
    }
  }

  // All frames are free, and heads are where blocks start.
  lemma BootedFlags(n: nat, t: Buddy)
    requires t == Booted(n, n)
    ensures forall i :: 0 <= i < n ==> t.isFree[i] && (t.isHead[i] <==> RunHead(0, n, 0, i))
  {
    var s, runs := Unused(n), [PageRun(0, n)];
    assert runs[..0] == [];
    BootRuns(s, []);
    NextRunReady(s, [], runs[0]);
    BootRun(s, 0, n);
    assert t == FreeRun(s, 0, n);
    forall i | 0 <= i < n ensures t.isFree[i] && (t.isHead[i] <==> RunHead(0, n, 0, i)) {
      assert FlagsAfter(t, s, 0, n, i);
    }
  }

  lemma HeadOfFour(i: int)
    ensures RunHead(0, 4, 0, i) <==> i == 0
  {
    assert Floor(4, 3) == 0 && Digit(4, 2);
    assert 0 in RunBlocks(0, 4, 2);
    forall k: nat | k <= TOP && i in RunBlocks(0, 4, k) ensures i == 0 {
      DigitsOfFour(k);
    }
  }

  lemma BootedFour(t: Buddy)
    requires t == Booted(4, 4)
    ensures t == Four([], [], [0], [true, true, true, true], FIRST)
  {
    hide Booted, Digit;
    BootedLists(4, 4, t);
    assert Floor(4, 3) == 0;
    forall k: nat | k < MAX_PAGE_ORDER ensures t.lists[k] == if k == 2 then [0] else [] {
      DigitsOfFour(k);
    }
    BootedFlags(4, t);
    HeadOfFour(0);
    HeadOfFour(1);
    HeadOfFour(2);
    HeadOfFour(3);
    SameFour(t);
  }

  lemma SameFour(t: Buddy)
    requires |t.isFree| == 4 && t.mapped == FirstFrames(4)
    requires forall k: nat :: k < MAX_PAGE_ORDER ==> t.lists[k] == if k == 2 then [0] else []
    requires forall i :: 0 <= i < 4 ==> t.isFree[i] && (t.isHead[i] <==> i == 0)
    ensures t == Four([], [], [0], [true, true, true, true], FIRST)
  {
    assert t.lists == Four([], [], [0], [true, true, true, true], FIRST).lists;
    assert t.isFree == [true, true, true, true] && t.isHead == FIRST;
    assert t.mapped == {0, 1, 2, 3};
  }

  // Changing one list, or one page to used.
  lemma FourList(l0: seq<int>, l1: seq<int>, l2: seq<int>, f: seq<bool>, h: seq<bool>, l: seq<int>)
    requires |f| == |h| == 4
    ensures var s := Four(l0, l1, l2, f, h);
      && s.(lists := s.lists[0 := l]) == Four(l, l1, l2, f, h)
      && s.(lists := s.lists[1 := l]) == Four(l0, l, l2, f, h)
      && s.(lists := s.lists[2 := l]) == Four(l0, l1, l, f, h)
  {
  }

  lemma FourUsed(l0: seq<int>, l1: seq<int>, l2: seq<int>, f: seq<bool>, h: seq<bool>, p: nat, f': seq<bool>)
    requires |f| == |h| == 4 && p < 4 && f' == f[p := false]
    ensures MarkUsed(Four(l0, l1, l2, f, h), p, 1) == Four(l0, l1, l2, f', h)
  {
    assert MarkUsed(Four(l0, l1, l2, f, h), p, 1).isFree == f';
  }

  lemma TakenFrom(s: Buddy, a: nat)
    requires a < 3 && s.lists[a] != [] && forall k :: 0 <= k < a ==> s.lists[k] == []
    ensures Alloc(s, 0) == (MarkUsed(Split(Take(s, a), s.lists[a][0], a, 0), s.lists[a][0], 1), s.lists[a][0])
  {
    assert Pow2(0) == 1;
    FirstFitSkipsEmpty(s, 0);
    assert FirstFit(s, 0) == a;
  }

  // One round of a split down to one page.
  lemma HalfLinked(s: Buddy, p: int, b: nat)
    requires b < 2
    ensures Split(s, p, b + 1, 0) == Split(s.(lists := s.lists[b := [p + Pow2(b)] + s.lists[b]]), p, b, 0)
  {
  }

  // Taking the page p of a block of one page, of two, and of four.
  lemma TakeOne(p: nat, rest: seq<int>, l1: seq<int>, f: seq<bool>, h: seq<bool>, f': seq<bool>)
    requires |f| == |h| == 4 && p < 4 && f' == f[p := false]
    ensures Alloc(Four([p] + rest, l1, [], f, h), 0) == (Four(rest, l1, [], f', h), p)
  {
    var s := Four([p] + rest, l1, [], f, h);
    TakenFrom(s, 0);
    FourList([p] + rest, l1, [], f, h, rest);
    FourUsed(rest, l1, [], f, h, p, f');
    assert s.lists[0][1..] == rest;
  }

  lemma TakeHalf(p: nat, f: seq<bool>, h: seq<bool>, f': seq<bool>)
    requires |f| == |h| == 4 && p < 3 && f' == f[p := false]
    ensures Alloc(Four([], [p], [], f, h), 0) == (Four([p + 1], [], [], f', h), p)
  {
    var s := Four([], [p], [], f, h);
    TakenFrom(s, 1);
    assert s.lists[1][1..] == [];
    FourList([], [p], [], f, h, []);
    FourList([], [], [], f, h, [p + 1]);
    FourUsed([p + 1], [], [], f, h, p, f');
    assert Pow2(0) == 1 && [p + 1] + [] == [p + 1];
    HalfLinked(Four([], [], [], f, h), p, 0);
    assert Split(Four([], [], [], f, h), p, 1, 0) == Four([p + 1], [], [], f, h);
  }

  lemma TakeQuarter(f: seq<bool>, h: seq<bool>, f': seq<bool>)
    requires |f| == |h| == 4 && f' == f[0 := false]
    ensures Alloc(Four([], [], [0], f, h), 0) == (Four([1], [2], [], f', h), 0)
  {
    var s := Four([], [], [0], f, h);
    TakenFrom(s, 2);
    assert s.lists[2][1..] == [];
    FourList([], [], [0], f, h, []);
    FourList([], [], [], f, h, [2]);
    FourList([], [2], [], f, h, [1]);
    FourUsed([1], [2], [], f, h, 0, f');
    assert Pow2(0) == 1 && Pow2(1) == 2 && [1] + [] == [1] && [2] + [] == [2];
    HalfLinked(Four([], [2], [], f, h), 0, 0);
    HalfLinked(Four([], [], [], f, h), 0, 1);
    assert Split(Four([], [2], [], f, h), 0, 1, 0) == Four([1], [2], [], f, h);
    assert Split(Four([], [], [], f, h), 0, 2, 0) == Four([1], [2], [], f, h);
  }

  // Giving back a page that has no free neighbour.
  lemma GiveBack(p: nat, l: seq<int>, f: seq<bool>, h: seq<bool>, f': seq<bool>, h': seq<bool>)
    requires |f| == |h| == 4 && p < 4 && f' == f[p := true] && h' == h[p := true]
    requires (p < 3 ==> !f[p + 1]) && (p > 0 ==> !f[p - 1])
    ensures OrdersMatch(Four(l, [], [], f, h), p, 0)
    ensures Free(Four(l, [], [], f, h), p, 0) == Four([p] + l, [], [], f', h')
  {
    var s := Four(l, [], [], f, h);
    assert Pow2(0) == 1 && Neighbour(s, p, 0) == NULL;
    CoalesceStops(s, p, 0);
    FourList(l, [], [], f, h, [p] + l);
  }

  // A run by one more call.
  lemma {:induction false} RunMore(y: System, ops: seq<Op>, op: Op)
    ensures Run(y, ops + [op]) == Step(Run(y, ops), op)
    ensures Guarded(y, ops + [op]) <==> Guarded(y, ops) && Guard(Run(y, ops), op)
    decreases |ops|
  {
    if ops == [] {
      assert ([] + [op])[1..] == [];
    } else {
      RunMore(Step(y, ops[0]), ops[1..], op);
      assert (ops + [op])[1..] == ops[1..] + [op];
    }
  }

  // The guarded run ops leads from y to z.
  ghost predicate Leads(y: System, ops: seq<Op>, z: System) {
    Guarded(y, ops) && Run(y, ops) == z
  }

  lemma NothingDone(y: System)
    ensures Leads(y, [], y)
  {
  }

  lemma TakeMore(y: System, ops: seq<Op>, z: System, t: Buddy, p: nat)
    requires Leads(y, ops, z) && Alloc(z.buddy, 0) == (t, p)
    ensures Leads(y, ops + [AllocPages(0)], System(t, z.issued + [Block(p, 0)]))
  {
    RunMore(y, ops, AllocPages(0));
  }

  lemma GiveMore(y: System, ops: seq<Op>, z: System, j: nat, p: nat, rest: seq<Block>)
    requires Leads(y, ops, z) && j < |z.issued| && z.issued[j] == Block(p, 0) && p < |z.buddy.isFree|
    requires OrdersMatch(z.buddy, p, 0) && rest == z.issued[..j] + z.issued[j + 1..]
    ensures Leads(y, ops + [FreePages(j)], System(Free(z.buddy, p, 0), rest))
  {
    RunMore(y, ops, FreePages(j));
  }

  const F4: seq<bool> := [false, false, false, false]
  const PAGES: seq<Block> := [Block(0, 0), Block(1, 0), Block(2, 0), Block(3, 0)]

  const T4: seq<bool> := [true, true, true, true]
  const T3: seq<bool> := [false, true, true, true]
  const T2: seq<bool> := [false, false, true, true]
  const T1: seq<bool> := [false, false, false, true]

  // The four pages, taken one by one.
  lemma TwoTaken(y: System) returns (ops: seq<Op>)
    requires y == System(Four([], [], [0], T4, FIRST), [])
    ensures Leads(y, ops, System(Four([], [2], [], T2, FIRST), PAGES[..2]))
  {
    hide Alloc, Leads;
    NothingDone(y);
    assert [] + [Block(0, 0)] == PAGES[..1] && PAGES[..1] + [Block(1, 0)] == PAGES[..2];
    assert [1] + [] == [1];
    TakeQuarter(T4, FIRST, T3);
    TakeMore(y, [], y, Four([1], [2], [], T3, FIRST), 0);
    ops := [] + [AllocPages(0)];
    TakeOne(1, [], [2], T3, FIRST, T2);
    TakeMore(y, ops, System(Four([1], [2], [], T3, FIRST), PAGES[..1]), Four([], [2], [], T2, FIRST), 1);
    ops := ops + [AllocPages(0)];
  }

  lemma FourTaken(y: System, two: seq<Op>) returns (ops: seq<Op>)
    requires Leads(y, two, System(Four([], [2], [], T2, FIRST), PAGES[..2]))
    ensures Leads(y, ops, System(Four([], [], [], F4, FIRST), PAGES))
  {
    hide Alloc, Leads;
    assert PAGES[..2] + [Block(2, 0)] == PAGES[..3] && PAGES[..3] + [Block(3, 0)] == PAGES;
    assert [3] + [] == [3];
    TakeHalf(2, T2, FIRST, T1);
    TakeMore(y, two, System(Four([], [2], [], T2, FIRST), PAGES[..2]), Four([3], [], [], T1, FIRST), 2);
    ops := two + [AllocPages(0)];
    TakeOne(3, [], [], T1, FIRST, F4);
    TakeMore(y, ops, System(Four([3], [], [], T1, FIRST), PAGES[..3]), Four([], [], [], F4, FIRST), 3);
    ops := ops + [AllocPages(0)];
  }

  // Frames 3 and 0 are given back.
  lemma TwoGiven(y: System, taken: seq<Op>) returns (ops: seq<Op>)
    requires Leads(y, taken, System(Four([], [], [], F4, FIRST), PAGES))
    ensures Leads(y, ops, System(FreeAtBothEnds(), [Block(1, 0), Block(2, 0)]))
  {
    hide Free, Leads, OrdersMatch;
    var h := [true, false, false, true];
    GiveBack(3, [], F4, FIRST, T1, h);
    assert [3] + [] == [3] && [0] + [3] == [0, 3];
    GiveMore(y, taken, System(Four([], [], [], F4, FIRST), PAGES), 3, 3, PAGES[..3]);
    ops := taken + [FreePages(3)];
    GiveBack(0, [3], T1, h, h, h);
    GiveMore(y, ops, System(Four([3], [], [], T1, h), PAGES[..3]), 0, 0, [Block(1, 0), Block(2, 0)]);
    ops := ops + [FreePages(0)];
  }

  // Four frames are released at boot, taken one by one, and frames 3 and 0 are
  // given back, by calls none of which does harm. Now the holder of frame 2 gives
  // it back, and frame 1 is free while another caller holds it.
  lemma HeldPageTaken() returns (ops: seq<Op>, j: nat)
    ensures var y := System(Booted(4, 4), []); var z := Run(y, ops);
      && Guarded(y, ops) && !Guard(z, FreePages(j))
      && j < |z.issued| && z.issued[j] == Block(2, 0)
      && !FreePage(z.buddy, 1)
      && FreePage(Step(z, FreePages(j)).buddy, 1) && Held(Step(z, FreePages(j)), 1)
  {
    BootedFour(Booted(4, 4));
    var y := System(Booted(4, 4), []);
    ops := TwoTaken(y);
    ops := FourTaken(y, ops);
    ops := TwoGiven(y, ops);
    j := 1;
    GivenWrongly();
  }

  lemma GivenWrongly()
    ensures var z := System(FreeAtBothEnds(), [Block(1, 0), Block(2, 0)]);
      && !Guard(z, FreePages(1)) && !FreePage(z.buddy, 1)
      && FreePage(Step(z, FreePages(1)).buddy, 1) && Held(Step(z, FreePages(1)), 1)
  {
    FreeClaimsPageInUse();
    var w := Step(System(FreeAtBothEnds(), [Block(1, 0), Block(2, 0)]), FreePages(1));
    assert w.issued == [Block(1, 0)];
    assert InBlock(1, w.issued[0].start, w.issued[0].order);
  }
}
