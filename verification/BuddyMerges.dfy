/**
 The work of the boot build-up: a binary counter that counts to n makes fewer than
 n carries, so the merge iterations of the coalescing loop are linear in the pages.
*/
module BuddyMerges {
  import opened BinaryDigits
  import opened Buddy
  import opened BuddyBoot

  // Merge iterations of one free: the loop raises the order once in each.
  function Merges(s: Buddy, p: int): nat
    requires 0 <= p < |s.isFree|
  {
    Coalesce(s, p, 0).order
  }

  function RunMerges(s: Buddy, b: int, n: nat): nat
    requires 0 <= b && b + n <= |s.isFree|
  {
    if n == 0 then 0
    else RunMerges(s, b, n - 1) + Merges(FreeRun(s, b, n - 1), b + n - 1)
  }

  // Blocks of a run of n pages.
  function BlockCount(n: nat): nat {
    n / 1024 + PopCount(n % 1024)
  }

  lemma BlockCountIsDigits(n: nat)
    ensures BlockCount(n) == n / 1024 + DigitSum(n, TOP)
  {
    DigitSumIsPopCount(n, TOP);
    PowersUpToTop();
  }

  lemma BlockCountCarry(n: nat, m: nat, l: nat)
    requires m == n + 1 && Ones(n, l) && l <= TOP && (l == TOP || !Digit(n, l))
    ensures BlockCount(m) + l == BlockCount(n) + 1
  {
    BlockCountIsDigits(n);
    BlockCountIsDigits(m);
    DigitSumCarry(n, m, l, TOP);
    FloorTen(n);
    FloorTen(m);
    PowersUpToTop();
    if l == TOP {
      CarryBelow(n, TOP, TOP);
      assert m / 1024 == n / 1024 + 1;
    } else {
      CarryAbove(n, l, TOP);
      assert m / 1024 == n / 1024;
    }
  }

  lemma BootStepWork(t: Buddy, s: Buddy, b: int, n: nat, m: nat, p: int)
    requires m == n + 1 && RunReady(s, b, m) && AfterRun(t, s, b, n) && p == b + n
    ensures BlockCount(m) + Merges(t, p) == BlockCount(n) + 1
  {
    BootCarry(t, s, b, n, m, p);
    BlockCountCarry(n, m, Merges(t, p));
  }

  lemma RunMergesNext(s: Buddy, b: int, n: nat, m: nat)
    requires 0 <= b && b + n < |s.isFree| && m == n + 1
    ensures RunMerges(s, b, m) == RunMerges(s, b, n) + Merges(FreeRun(s, b, n), b + n)
  {
    hide Free, Merges, FreeRun;
  }

  lemma BootNextWork(s: Buddy, b: int, n: nat, m: nat)
    requires RunReady(s, b, m) && RunReady(s, b, n) && m == n + 1
    ensures BlockCount(m) + Merges(FreeRun(s, b, n), b + n) == BlockCount(n) + 1
  {
    hide Free, Merges, AfterRun;
    var t := FreeRun(s, b, n);
    assert AfterRun(t, s, b, n) by { BootRunTo(s, b, n, t); }
    BootStepWork(t, s, b, n, m, b + n);
  }

  lemma NoMerges(s: Buddy, b: int)
    requires 0 <= b <= |s.isFree|
    ensures RunMerges(s, b, 0) == 0 == BlockCount(0)
  {
  }

  lemma {:induction false} BootWorkTo(s: Buddy, b: int, n: nat)
    requires RunReady(s, b, n)
    ensures RunMerges(s, b, n) == n - BlockCount(n)
    decreases n
  {
    hide Free, Merges, FreeRun, RunMerges, BlockCount;
    if n == 0 {
      NoMerges(s, b);
    } else {
      var m := n - 1;
      assert RunReady(s, b, m) by { RunReadyFewer(s, b, n); }
      BootWorkTo(s, b, m);
      RunMergesNext(s, b, m, n);
      BootNextWork(s, b, m, n);
    }
  }

  // The total coalescing work of a run of n pages: n less the blocks it leaves,
  // so fewer iterations than pages.
  lemma BootWork(s: Buddy, b: int, n: nat)
    requires RunReady(s, b, n)
    ensures RunMerges(s, b, n) == n - BlockCount(n)
    ensures n > 0 ==> RunMerges(s, b, n) < n
  {
    BootWorkTo(s, b, n);
    if n > 0 {
      BlockCountPositive(n);
    }
  }

  lemma BlockCountPositive(n: nat)
    requires n > 0
    ensures BlockCount(n) > 0
  {
    if n / 1024 == 0 {
      PopCountPositive(n);
    }
  }
}
