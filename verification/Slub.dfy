/**
 The slab allocator of code/mm/slub.c as functions on values. Free objects are
 chained through the memory that is handed out, so what clients write into their
 objects is part of the state.
*/
module Slub {
  import opened Powers
  import opened IntrusiveList
  import opened PageSizes
  import opened Buddy

  // NR_KOBJECT_SIZE_TYPE and KMALLOC_MAX_CACHE_SIZE
  const NR_CACHES: nat := 10
  const KMALLOC_MAX: nat := 8192

  // The virtual address of page f.
  function Addr(f: nat): nat { f * PAGE_SIZE + KERNEL_DIRECT_MAPPING_AREA }

  // ------------------------------------------------------------- size classes

  // The object size kmem_cache_init gives cache c.
  function ObjSize(c: nat): (s: nat) ensures s >= 16 { 16 * Pow2(c) }

  // slub_index; -1 when no cache is large enough.
  function SlubIndex(sz: nat): int {
    if sz <= 16 then 0
    else if sz <= 32 then 1
    else if sz <= 64 then 2
    else if sz <= 128 then 3
    else if sz <= 256 then 4
    else if sz <= 512 then 5
    else if sz <= 1024 then 6
    else if sz <= 2048 then 7
    else if sz <= 4096 then 8
    else if sz <= 8192 then 9
    else -1
  }

  lemma ObjSizes()
    ensures ObjSize(0) == 16 && ObjSize(1) == 32 && ObjSize(2) == 64 && ObjSize(3) == 128 && ObjSize(4) == 256
    ensures ObjSize(5) == 512 && ObjSize(6) == 1024 && ObjSize(7) == 2048 && ObjSize(8) == 4096 && ObjSize(9) == 8192
  {
    assert Pow2(3) == 8;
    assert Pow2(6) == 8 * Pow2(3);
    assert Pow2(9) == 8 * Pow2(6);
  }

  // The class chosen is the least that holds sz bytes, and there is one exactly
  // for the sizes kmalloc lets through: it never reaches a use of index -1.
  lemma IndexIsLeastClass(sz: nat)
    ensures SlubIndex(sz) >= 0 <==> sz <= KMALLOC_MAX
    ensures SlubIndex(sz) >= 0 ==>
      && SlubIndex(sz) < NR_CACHES && sz <= ObjSize(SlubIndex(sz))
      && forall c: nat :: c < SlubIndex(sz) ==> ObjSize(c) < sz
  {
    ObjSizes();
  }

  // Order and number of bytes of the slabs of a cache, and objects in one.
  function SlabOrder(c: nat): nat { ObjSize(c) / PAGE_SIZE }

  function SlabBytes(c: nat): nat { PAGE_SIZE * Pow2(SlabOrder(c)) }

  function SlabObjects(c: nat): nat { if c < 8 then Pow2(8 - c) else 2 }

  // A slab is an exact number of objects, two at least: one page of those smaller than
  // a page, and two of the others.
  lemma SlabShape(c: nat)
    requires c < NR_CACHES
    ensures SlabBytes(c) == SlabObjects(c) * ObjSize(c) && SlabObjects(c) >= 2
    ensures SlabBytes(c) == if ObjSize(c) < PAGE_SIZE then PAGE_SIZE else 2 * ObjSize(c)
    ensures SlabOrder(c) < MAX_PAGE_ORDER
  {
    ObjSizes();
    assert Pow2(0) == 1 && Pow2(1) == 2 && Pow2(2) == 4;
    if c < 8 {
      PowerSum(8 - c, c);
      assert Pow2(8) == 256;
      assert SlabObjects(c) * ObjSize(c) == 16 * (Pow2(8 - c) * Pow2(c));
      SlabObjectsAtLeastTwo(c);
    }
  }

  lemma SlabObjectsAtLeastTwo(c: nat)
    requires c < 8
    ensures Pow2(8 - c) >= 2
  {
    Pow2Monotone(1, 8 - c);
    assert Pow2(1) == 2;
  }

  // ------------------------------------------------------------ chains in memory

  type Words = map<nat, nat>

  function Word(w: Words, a: nat): nat { if a in w then w[a] else 0 }

  // The n object addresses from a on.
  function Objects(a: nat, size: nat, n: nat): seq<nat>
    decreases n
  {
    if n == 0 then [] else [a] + Objects(a + size, size, n - 1)
  }

  // What slub_alloc writes: every object points to the next, the last to NULL.
  function Thread(w: Words, a: nat, size: nat, n: nat): Words
    requires n > 0
    decreases n, w
  {
    if n == 1 then w[a := 0] else Thread(w[a := a + size], a + size, size, n - 1)
  }

  // Following the links from a visits exactly objs and then NULL.
  ghost predicate Chain(w: Words, a: nat, objs: seq<nat>)
    decreases |objs|
  {
    if objs == [] then a == 0
    else a == objs[0] && a != 0 && Chain(w, Word(w, a), objs[1..])
  }

  lemma {:induction false} ObjectsSpan(a: nat, size: nat, n: nat)
    requires size > 0
    ensures |Objects(a, size, n)| == n
    ensures forall x :: x in Objects(a, size, n) ==> a <= x && x + size <= a + n * size
    ensures forall x, y :: x in Objects(a, size, n) && y in Objects(a, size, n) && x < y ==> x + size <= y
    decreases n
  {
    if n > 0 {
      ObjectsSpan(a + size, size, n - 1);
      assert a + size + (n - 1) * size == a + n * size;
    }
  }

  lemma {:induction false} ObjectsNoRepeat(a: nat, size: nat, n: nat)
    requires size > 0
    ensures NoRepeat(Objects(a, size, n))
    decreases n
  {
    if n > 0 {
      ObjectsNoRepeat(a + size, size, n - 1);
      ObjectsSpan(a + size, size, n - 1);
      var t := Objects(a + size, size, n - 1);
      assert forall i :: 0 < i < n ==> Objects(a, size, n)[i] == t[i - 1] && t[i - 1] in t;
    }
  }

  // A chain is unaffected by writes elsewhere.
  lemma {:induction false} ChainKept(w: Words, v: Words, a: nat, objs: seq<nat>)
    requires Chain(w, a, objs)
    requires forall x :: x in objs ==> Word(v, x) == Word(w, x)
    ensures Chain(v, a, objs)
    decreases |objs|
  {
    if objs != [] {
      ChainKept(w, v, Word(w, a), objs[1..]);
    }
  }

  lemma {:induction false} ThreadElsewhere(w: Words, a: nat, size: nat, n: nat, x: nat)
    requires n > 0 && size > 0 && (x < a || x >= a + n * size)
    ensures Word(Thread(w, a, size, n), x) == Word(w, x)
    decreases n
  {
    assert a + size + (n - 1) * size == a + n * size;
    assert n * size >= size;
    if n > 1 {
      ThreadElsewhere(w[a := a + size], a + size, size, n - 1, x);
    }
  }

  lemma {:induction false} ThreadChains(w: Words, a: nat, size: nat, n: nat)
    requires n > 0 && size > 0 && a > 0
    ensures Chain(Thread(w, a, size, n), a, Objects(a, size, n))
    decreases n
  {
    if n == 1 {
      assert Objects(a, size, 1)[1..] == [];
    } else {
      var v := w[a := a + size];
      ThreadChains(v, a + size, size, n - 1);
      ThreadElsewhere(v, a + size, size, n - 1, a);
      assert Objects(a, size, n)[1..] == Objects(a + size, size, n - 1);
    }
  }
}
