/**
 From a size in bytes to an order: the loop of mm_phys_alloc in
 code/mm/page_alloc.c, with its 64-bit shift.
*/
module PageSizes {
  import opened Powers
  import opened Buddy

  const PAGE_SIZE: nat := 4096

  // Where physical address 0 is mapped: code/include/mm/layout.h.
  const KERNEL_DIRECT_MAPPING_AREA: nat := 0xffff_8880_0000_0000

  // page_to_phys, and -1 for NULL.
  function PageToPhys(p: int): int {
    if p == NULL then -1 else p * PAGE_SIZE
  }

  // PAGE_SIZE << order in 64 bits.
  function ShiftedPage(order: nat): nat {
    PAGE_SIZE * Pow2(order) % 0x1_0000_0000_0000_0000
  }

  // A block of this order holds sz bytes.
  predicate Holds(sz: nat, order: nat) {
    sz <= PAGE_SIZE * Pow2(order)
  }

  ghost predicate LeastOrder(sz: nat, o: nat) {
    Holds(sz, o) && forall j: nat :: j < o ==> !Holds(sz, j)
  }

  lemma {:induction false} PowerSum(a: nat, b: nat)
    ensures Pow2(a) * Pow2(b) == Pow2(a + b)
    decreases b
  {
    if b > 0 {
      PowerSum(a, b - 1);
      assert Pow2(a) * Pow2(b) == 2 * (Pow2(a) * Pow2(b - 1));
    }
  }

  lemma Pow64()
    ensures Pow2(64) == 0x1_0000_0000_0000_0000 && Pow2(63) == 0x8000_0000_0000_0000
  {
    assert Pow2(8) == 256;
    PowerSum(8, 8);
    PowerSum(16, 16);
    PowerSum(32, 32);
    PowerSum(63, 1);
  }

  // Below order 52 the shift is exact; from there on it is zero.
  lemma ShiftedPages(order: nat)
    ensures order < 52 ==> ShiftedPage(order) == PAGE_SIZE * Pow2(order) == Pow2(12 + order) <= Pow2(63)
    ensures order >= 52 ==> ShiftedPage(order) == 0
  {
    PowerSum(12, order);
    assert Pow2(12) == PAGE_SIZE;
    Pow64();
    if order < 52 {
      Pow2Monotone(12 + order, 63);
    } else {
      PowerSum(64, order - 52);
      assert PAGE_SIZE * Pow2(order) == 0x1_0000_0000_0000_0000 * Pow2(order - 52);
    }
  }

  // The size loop, for the sizes it ends for: the least order that holds sz bytes.
  method OrderForSize(sz: nat) returns (order: nat)
    requires sz <= Pow2(63)
    ensures LeastOrder(sz, order) && order <= 51
  {
    order := 0;
    while sz > ShiftedPage(order)
      invariant order <= 51
      invariant forall o: nat :: o < order ==> !Holds(sz, o)
      decreases 51 - order
    {
      ShiftedPages(order);
      order := order + 1;
    }
    ShiftedPages(order);
  }

  // The size loop ends exactly for sizes up to 2^63; for larger ones no shift
  // count satisfies it.
  lemma SizeLoopEnds(sz: nat)
    ensures (exists order: nat :: sz <= ShiftedPage(order)) <==> sz <= Pow2(63)
  {
    hide ShiftedPage, Pow2;
    ShiftedPages(51);
    forall order: nat ensures ShiftedPage(order) <= Pow2(63) {
      ShiftedPages(order);
    }
  }
}
