/**
 In which frames of memory the objects of kmalloc lie. The slab allocator hands out
 addresses in the direct mapping; here they are followed through the page tables,
 back to the frames that the buddy system gave for the slab.
*/
module SlubFrames {
  import opened Powers
  import opened PageSizes
  import opened Buddy
  import opened PageTable
  import opened PageMap
  import opened Slub
  import opened SlubHeap
  import opened SlubRuns
  import Smp

  // The byte at a is in a frame of the block of order o at f. Frame 0 is translated
  // for its first byte only.
  ghost predicate Lands(m: Memory, root: nat, a: nat, f: nat, o: nat) {
    exists g: nat :: InBlock(g, f, o) && LandsIn(m, root, a, g)
  }

  ghost predicate LandsIn(m: Memory, root: nat, a: nat, g: nat) {
    Frame(Pte(m, root, a)) == g && (g > 0 ==> Translated(m, root, a) == g * PAGE_SIZE)
  }

  // With the first n frames mapped one behind the other, a block's bytes are those
  // from the address of its first page on, and these only.
  lemma BlockLands(m: Memory, root: nat, n: nat, f: nat, o: nat, a: nat)
    requires DirectMapping(m, root, n) && f + Pow2(o) <= n
    requires KERNEL_DIRECT_MAPPING_AREA <= a < KERNEL_DIRECT_MAPPING_AREA + n * PAGE_SIZE
    ensures Lands(m, root, a, f, o) <==> Addr(f) <= a < Addr(f) + PAGE_SIZE * Pow2(o)
  {
    hide Pte, Translated;
    var g := (a - KERNEL_DIRECT_MAPPING_AREA) / PAGE_SIZE;
    DirectByte(m, root, n, g, a);
    assert LandsIn(m, root, a, g);
    assert InBlock(g, f, o) <==> Addr(f) <= a < Addr(f) + PAGE_SIZE * Pow2(o);
  }

  // A page's address translates to its physical address.
  lemma AddrTranslates(m: Memory, root: nat, n: nat, f: nat)
    requires DirectMapping(m, root, n) && 0 < f < n
    ensures Translated(m, root, Addr(f)) == PageToPhys(f) == f * PAGE_SIZE
  {
    DirectByte(m, root, n, f, Addr(f));
  }

  // Every byte of an object of slab f of cache c.
  lemma ObjectLands(m: Memory, root: nat, n: nat, f: nat, c: nat, x: nat, a: nat)
    requires DirectMapping(m, root, n) && c < NR_CACHES && f + Pow2(SlabOrder(c)) <= n
    requires x in ObjectsOf(f, c) && x <= a < x + ObjSize(c)
    ensures Lands(m, root, a, f, SlabOrder(c))
  {
    ObjectsInSlab(f, c);
    BlockLands(m, root, n, f, SlabOrder(c), a);
  }

  // All bytes of the object are in the block of a slab that its cache keeps, and the
  // block is in use.
  ghost predicate InSlab(h: Heap, slabs: Slabs, m: Memory, root: nat, o: Obj)
    requires |h.caches| == NR_CACHES
  {
    exists f: nat :: f in slabs && SlabOk(h, f, slabs[f]) && ObjectIn(m, root, o, f, SlabOrder(slabs[f].cache))
  }

  ghost predicate ObjectIn(m: Memory, root: nat, o: Obj, f: nat, k: nat) {
    forall a: nat :: o.addr <= a < o.addr + o.size ==> Lands(m, root, a, f, k)
  }

  lemma IssuedLands(h: Heap, slabs: Slabs, issued: seq<Obj>, m: Memory, root: nat, i: nat)
    requires WorldOk(h, slabs, issued) && i < |issued| && DirectMapping(m, root, |h.buddy.isFree|)
    ensures InSlab(h, slabs, m, root, issued[i])
  {
    hide Lands, DirectMapping, Inv;
    var o, n := issued[i], |h.buddy.isFree|;
    assert OutOf(slabs, o);
    var f :| f in slabs && Out(slabs, f, o.addr) && o.size == ObjSize(slabs[f].cache);
    assert SlabOk(h, f, slabs[f]);
    var c := slabs[f].cache;
    forall a: nat | o.addr <= a < o.addr + o.size ensures Lands(m, root, a, f, SlabOrder(c)) {
      ObjectLands(m, root, n, f, c, o.addr, a);
    }
    assert ObjectIn(m, root, o, f, SlabOrder(c));
  }

  // Over every run of kmalloc calls and client writes, every object lies in the frames
  // that the buddy system gave for its slab.
  lemma RunLands(y: World, slabs: Slabs, ops: seq<SlubRuns.Op>, z: World, m: Memory, root: nat)
    returns (slabs': Slabs)
    requires WorldOk(y.heap, slabs, y.issued) && Reaches(y, ops, z)
    requires DirectMapping(m, root, |z.heap.buddy.isFree|)
    ensures WorldOk(z.heap, slabs', z.issued)
    ensures forall i :: 0 <= i < |z.issued| ==> InSlab(z.heap, slabs', m, root, z.issued[i])
  {
    slabs' := KmallocRun(y, slabs, ops, z);
    forall i | 0 <= i < |z.issued| ensures InSlab(z.heap, slabs', m, root, z.issued[i]) {
      IssuedLands(z.heap, slabs', z.issued, m, root, i);
    }
  }

  // A new slab on the block at p: the words written are in frames of that block, and
  // so is the first object.
  lemma NewSlabLands(h: Heap, c: nat, t: Buddy, p: nat, m: Memory, root: nat, a: nat)
    requires c < NR_CACHES && |h.caches| == NR_CACHES && p + Pow2(SlabOrder(c)) <= |t.isFree|
    requires DirectMapping(m, root, |t.isFree|)
    ensures Word(NewSlab(h, c, t, p).words, a) != Word(h.words, a) ==> Lands(m, root, a, p, SlabOrder(c))
    ensures Lands(m, root, NewSlab(h, c, t, p).caches[c].freelist, p, SlabOrder(c))
    ensures SlabFree(NewSlab(h, c, t, p), p) == NewSlab(h, c, t, p).caches[c].freelist
  {
    hide Lands, DirectMapping;
    SlabShape(c);
    if Addr(p) <= a < Addr(p) + SlabBytes(c) {
      BlockLands(m, root, |t.isFree|, p, SlabOrder(c), a);
    } else {
      ThreadElsewhere(h.words, Addr(p), ObjSize(c), SlabObjects(c), a);
    }
    BlockLands(m, root, |t.isFree|, p, SlabOrder(c), Addr(p));
  }

  // The bytes of a turn's block, in which its holder may write, are those in the frames
  // that the turn returned.
  lemma TurnLands(y: Smp.Machine, k: nat, m: Memory, root: nat, n: nat, a: nat)
    requires k < |y.log| == |y.results| && y.results[k] >= 0
    requires DirectMapping(m, root, n) && y.results[k] + Pow2(y.log[k].order) <= n
    requires KERNEL_DIRECT_MAPPING_AREA <= a < KERNEL_DIRECT_MAPPING_AREA + n * PAGE_SIZE
    ensures Smp.InTurn(y, k, a) <==> Lands(m, root, a, y.results[k], y.log[k].order)
  {
    BlockLands(m, root, n, y.results[k], y.log[k].order, a);
  }
}
