/**
 The slab allocator of code/mm/slub.c as it runs: caches updated in place, slab
 pages linked on the caches' lists by the same list nodes as on the freelists.
*/
module SlubAlloc {
  import opened IntrusiveList
  import opened Buddy
  import opened BuddyRuns
  import opened PageAlloc
  import opened Slub
  import opened SlubHeap
  import opened SlubRuns

  class KmemCache {
    const full: int      // list node that heads the full list
    const partial: int   // list node that heads the partial list
    const list: int      // list node for a list of caches, not used further
    var objSize: nat
    var slub: int
    var freelist: nat

    constructor (full: int, partial: int, list: int)
      ensures this.full == full && this.partial == partial && this.list == list
    {
      this.full, this.partial, this.list := full, partial, list;
      objSize, slub, freelist := 0, NULL, 0;
    }
  }

  lemma OneObjectLess(left: nat, size: nat)
    requires left > 0 && size > 0
    ensures left * size == (left - 1) * size + size
    ensures left > 1 <==> left * size > size
  {
    if left > 1 {
      assert (left - 1) * size > 0;
    }
  }

  predicate HasNodes(k: KmemCache, base: int) {
    k.full == base && k.partial == base + 1 && k.list == base + 2
  }

  class SlabAllocator {
    const pages: PageAllocator
    const caches: seq<KmemCache>
    var words: Words
    var slabFree: map<int, nat>

    // What the fields represent, the slabs there are, and the objects issued.
    ghost var heap: Heap
    ghost var slabs: Slabs
    ghost var issued: seq<Obj>

    // List nodes of the caches come after those of pages and freelists.
    function Node(c: nat, i: nat): int { pages.n + MAX_PAGE_ORDER + 3 * c + i }

    constructor (pages: PageAllocator, words: Words, slabFree: map<int, nat>)
      ensures this.pages == pages && this.words == words && this.slabFree == slabFree
      ensures Distinct() && forall i :: 0 <= i < NR_CACHES ==> fresh(caches[i])
    {
      this.pages, this.words, this.slabFree := pages, words, slabFree;
      this.caches := [];
      heap, slabs, issued := Heap(pages.state, words, slabFree, []), map[], [];
      var ks: seq<KmemCache> := [];
      for c: nat := 0 to NR_CACHES
        invariant |ks| == c
        invariant forall i :: 0 <= i < c ==> fresh(ks[i]) && HasNodes(ks[i], pages.n + MAX_PAGE_ORDER + 3 * i)
        invariant forall i, j :: 0 <= i < j < c ==> ks[i] != ks[j]
      {
        var base := pages.n + MAX_PAGE_ORDER + 3 * c;
        var k := new KmemCache(base, base + 1, base + 2);
        ks := ks + [k];
      }
      this.caches := ks;
    }

    ghost predicate Distinct() {
      && |caches| == NR_CACHES
      && (forall i, j :: 0 <= i < j < NR_CACHES ==> caches[i] != caches[j])
      && forall c: nat :: c < NR_CACHES ==> HasNodes(caches[c], Node(c, 0))
    }

    ghost predicate IsCacheNode(h: int) {
      Node(0, 0) <= h < Node(NR_CACHES, 0)
    }

    // The fields represent the heap; the lists are the freelists and the caches'.
    ghost predicate Valid()
      reads this`heap, this`words, this`slabFree, caches
      reads pages, pages.links, pages.links.next, pages.links.prev, pages.isFree, pages.isHead
    {
      && Distinct() && pages.Valid() && Node(NR_CACHES, 0) <= pages.links.next.Length
      && heap.buddy == pages.state && heap.words == words && heap.slabFree == slabFree
      && |heap.caches| == NR_CACHES
      && (forall c: nat :: c < NR_CACHES ==> Tied(c))
      && (forall h :: h in pages.links.lists ==> pages.IsHead(h) || IsCacheNode(h))
    }

    // Cache c in memory, and in the heap.
    ghost predicate Tied(c: nat)
      requires c < |caches| && c < |heap.caches|
      reads this`heap, caches, pages, pages.links
    {
      var k, lists := caches[c], pages.links.lists;
      && k.objSize == ObjSize(c) && k.slub == heap.caches[c].slub && k.freelist == heap.caches[c].freelist
      && k.full in lists && lists[k.full] == heap.caches[c].full
      && k.partial in lists && lists[k.partial] == heap.caches[c].partial
      && k.list in lists && lists[k.list] == []
    }

    ghost predicate InOrder()
      reads this
    {
      WorldOk(heap, slabs, issued)
    }

    // No page on a cache's list is free.
    lemma CacheListsOutside()
      requires Valid() && StateOk(heap, slabs)
      ensures pages.OthersOutside()
    {
      forall h, x | pages.links.On(x, h) && !pages.IsHead(h) ensures !FreePage(pages.state, x) {
        if x == h {
          NoFreePageBeyond(h);
        } else {
          var c := OnCacheList(h, x);
          assert SlabOk(heap, x, slabs[x]);
          FitsPages(heap.buddy, x, SlabOrder(slabs[x].cache));
          assert InBlock(x, x, SlabOrder(slabs[x].cache));
        }
      }
    }

    lemma NoFreePageBeyond(h: int)
      requires Valid() && Inv(pages.state) && h >= pages.n
      ensures !FreePage(pages.state, h)
    {
      forall x, k: nat | IsBlock(pages.state, x, k) ensures !InBlock(h, x, k) {}
    }

    // A node on a list of the caches is a slab that is not current.
    lemma OnCacheList(h: int, x: int) returns (c: nat)
      requires Valid() && StateOk(heap, slabs)
      requires h in pages.links.lists && x in pages.links.lists[h] && !pages.IsHead(h)
      ensures c < NR_CACHES && x in slabs && slabs[x].place != Current
    {
      c := (h - Node(0, 0)) / 3;
      assert Tied(c) && HasNodes(caches[c], Node(c, 0)) && CacheOk(heap, slabs, c);
    }

    // An allocated block does not start a free one.
    static lemma FitsNoBlock(s: Buddy, f: int, o: nat, k: nat)
      requires Fits(s, f, o)
      ensures !IsBlock(s, f, k)
    {
      assert IsBlock(s, f, k) ==> Apart(f, k, f, o);
    }

    // The current slab of a cache is on no list.
    lemma CurrentUnlinked(c: nat)
      requires Valid() && StateOk(heap, slabs) && c < NR_CACHES && heap.caches[c].slub != NULL
      ensures pages.links.Unlinked(heap.caches[c].slub) && 0 <= heap.caches[c].slub < pages.n
    {
      var f := heap.caches[c].slub;
      assert CacheOk(heap, slabs, c);
      assert SlabOk(heap, f, slabs[f]);
      forall h | h in pages.links.lists ensures !pages.links.On(f, h) {
        if pages.IsHead(h) {
          var k := h - pages.n;
          assert h == pages.Head(k) && pages.FreelistOk(k);
          FitsNoBlock(pages.state, f, SlabOrder(slabs[f].cache), k);
        } else if f in pages.links.lists[h] {
          var d := OnCacheList(h, f);
        }
      }
    }

    // kc->freelist = *kc->freelist
    method PopObject(c: nat)
      requires Valid() && c < NR_CACHES
      modifies this`heap, caches
      ensures Valid() && heap == Pop(old(heap), c)
    {
      caches[c].freelist := Word(words, caches[c].freelist);
      heap := Pop(heap, c);
      forall d: nat | d < NR_CACHES ensures Tied(d) {
        assert old(Tied(d)) && old(Tied(c));
      }
    }

    // After a change to one cache and its lists, everything else is as it was.
    twostate lemma OthersKept(new c: nat, new h: int)
      requires old(Valid()) && c < NR_CACHES && (h == Node(c, 0) || h == Node(c, 1))
      requires pages.links.Valid() && pages.state == old(pages.state)
      requires pages.isFree[..] == old(pages.isFree[..]) && pages.isHead[..] == old(pages.isHead[..])
      requires pages.links.lists.Keys == old(pages.links.lists.Keys)
      requires forall g :: g in pages.links.lists && g != h ==> pages.links.lists[g] == old(pages.links.lists[g])
      requires forall d :: 0 <= d < NR_CACHES && d != c ==>
                 && caches[d].objSize == old(caches[d].objSize) && caches[d].slub == old(caches[d].slub)
                 && caches[d].freelist == old(caches[d].freelist)
      requires |heap.caches| == NR_CACHES
      requires forall d :: 0 <= d < NR_CACHES && d != c ==> heap.caches[d] == old(heap.caches[d])
      ensures pages.Valid()
      ensures forall d: nat :: d < NR_CACHES && d != c ==> Tied(d)
    {
      assert HasNodes(caches[c], Node(c, 0));
      forall k: nat | k < MAX_PAGE_ORDER ensures pages.FreelistOk(k) {
        assert old(pages.FreelistOk(k));
      }
      forall d: nat | d < NR_CACHES && d != c ensures Tied(d) {
        assert old(Tied(d)) && HasNodes(caches[d], Node(d, 0));
      }
    }

    // list_add_next of the current slab to the full list; slub becomes NULL.
    method RetireSlab(c: nat)
      requires Valid() && c < NR_CACHES && caches[c].slub != NULL
      requires pages.links.Unlinked(caches[c].slub) && 0 <= caches[c].slub < pages.n
      modifies this`heap, caches, pages.links`lists, pages.links.next, pages.links.prev
      ensures Valid() && heap == Retire(old(heap), c)
    {
      var k := caches[c];
      assert Tied(c) && HasNodes(k, Node(c, 0));
      var head := k.full;
      pages.links.AddNext(head, k.slub, head, 0);
      assert Inserted(heap.caches[c].full, 0, k.slub) == [k.slub] + heap.caches[c].full;
      k.slub := NULL;
      heap := Retire(heap, c);
      OthersKept(c, Node(c, 0));
      assert Tied(c);
    }

    // The first slab of the partial list becomes current, with the freelist that
    // its descriptor holds; list_del takes it off the list.
    method TakePartialSlab(c: nat)
      requires Valid() && c < NR_CACHES && heap.caches[c].partial != []
      modifies this`heap, caches, pages.links`lists, pages.links.next, pages.links.prev
      ensures Valid() && heap == TakePartial(old(heap), c)
    {
      var k := caches[c];
      assert Tied(c) && HasNodes(k, Node(c, 0));
      k.slub := UnlinkFirst(k.partial, heap.caches[c].partial);
      k.freelist := SlabFreeOf(k.slub);
      heap := TakePartial(heap, c);
      OthersKept(c, Node(c, 1));
      assert Tied(c);
    }

    // list_del on the first node of a list.
    method UnlinkFirst(h: int, ghost l: seq<int>) returns (x: int)
      requires pages.links.Valid() && h in pages.links.lists && pages.links.lists[h] == l && l != []
      modifies pages.links`lists, pages.links.next, pages.links.prev
      ensures pages.links.Valid() && x == l[0] && pages.links.lists == old(pages.links.lists)[h := l[1..]]
    {
      x := pages.links.First(h);
      pages.links.Del(x, h, 0);
      assert Removed(l, 0) == l[1..];
    }

    function SlabFreeOf(f: int): nat
      reads this
    {
      if f in slabFree then slabFree[f] else 0
    }

    // The loop of slub_alloc that threads the n objects of the slab at base.
    method TrimIntoObjects(base: nat, size: nat, total: nat, ghost n: nat)
      requires size > 0 && n > 0 && total == n * size
      modifies this`words
      ensures words == Thread(old(words), base, size, n)
    {
      ghost var left := n;
      var next := base;
      var va := size;
      while va < total
        invariant left > 0 && next == base + va - size && va + left * size == total + size
        invariant Thread(words, next, size, left) == Thread(old(words), base, size, n)
        decreases left
      {
        OneObjectLess(left, size);
        next := base + va;
        words := words[next - size := next];
        va := va + size;
        left := left - 1;
      }
      OneObjectLess(left, size);
      words := words[next := 0];
    }

    // alloc_pages for a slab.
    method TakePages(c: nat) returns (p: int)
      requires Valid() && StateOk(heap, slabs) && c < NR_CACHES
      modifies this`heap
      modifies pages`state, pages.links`lists, pages.links.next, pages.links.prev, pages.isFree
      ensures Valid() && p >= NULL
      ensures var (t, q) := Alloc(old(heap).buddy, SlabOrder(c)); p == q && heap == old(heap).(buddy := t)
    {
      hide Alloc, Inv, SlabOk, CacheOk;
      CacheListsOutside();
      AllocSound(heap.buddy, SlabOrder(c));
      p := pages.AllocPages(SlabOrder(c));
      heap := heap.(buddy := pages.state);
      forall d: nat | d < NR_CACHES ensures Tied(d) {
        assert old(Tied(d)) && HasNodes(caches[d], Node(d, 0));
      }
    }

    // The trimming of new pages, which become the current slab.
    method TrimPages(c: nat, p: nat)
      requires Valid() && c < NR_CACHES
      modifies this`heap, this`words, this`slabFree, caches
      ensures Valid() && heap == NewSlab(old(heap), c, old(heap).buddy, p)
    {
      hide Thread;
      var base := Addr(p);
      slabFree := slabFree[p := base];
      SlabShape(c);
      TrimIntoObjects(base, ObjSize(c), SlabBytes(c), SlabObjects(c));
      heap := NewSlab(heap, c, heap.buddy, p);
      caches[c].slub := p;
      caches[c].freelist := base;
      forall d: nat | d < NR_CACHES ensures Tied(d) {
        assert old(Tied(d)) && old(Tied(c));
      }
    }

    // slub_alloc, and the slab it returns becomes current; NULL if there is no
    // block for it.
    method SlubAlloc(c: nat) returns (p: int)
      requires Valid() && StateOk(heap, slabs) && c < NR_CACHES
      requires caches[c].slub == NULL && caches[c].freelist == 0
      modifies this`heap, this`words, this`slabFree, caches
      modifies pages`state, pages.links`lists, pages.links.next, pages.links.prev, pages.isFree
      ensures Valid()
      ensures var (t, q) := Alloc(old(heap).buddy, SlabOrder(c));
        p == q && if q == NULL then heap == old(heap).(buddy := t)
                  else q >= 0 && heap == NewSlab(old(heap), c, t, q)
    {
      p := TakePages(c);
      if p != NULL {
        TrimPages(c, p);
      }
    }

    // Rounds of kmem_cache_alloc end: each takes a slab off the partial list, or
    // leaves a freelist that is not empty.
    ghost function RoundsLeft(c: nat): (nat, nat)
      requires c < |heap.caches|
      reads this`heap
    {
      (|heap.caches[c].partial|, if heap.caches[c].freelist == 0 then 1 else 0)
    }

    ghost predicate FewerRounds(c: nat, r: (nat, nat))
      requires c < |heap.caches|
      reads this`heap
    {
      var s := RoundsLeft(c);
      s.0 < r.0 || (s.0 == r.0 && s.1 < r.1)
    }

    // From redo on with an empty freelist: the exhausted slab is retired, then the
    // partial list is tried, then the buddy system.
    method Refill(c: nat) returns (again: bool)
      requires Valid() && StateOk(heap, slabs) && c < NR_CACHES && heap.caches[c].freelist == 0
      modifies this`heap, this`slabs, this`words, this`slabFree, caches
      modifies pages`state, pages.links`lists, pages.links.next, pages.links.prev, pages.isFree
      ensures Valid()
      ensures if again then StateOk(heap, slabs) && AllocObj(heap, c) == AllocObj(old(heap), c)
              else (heap, 0) == AllocObj(old(heap), c)
      ensures again ==> FewerRounds(c, old(RoundsLeft(c)))
    {
      hide AllocObj, Alloc, Inv, Thread;
      ghost var h := heap;
      RetireIfCurrent(c);
      ghost var r := heap;
      assert Tied(c);
      var empty := pages.links.Empty(caches[c].partial);
      if !empty {
        PartialRound(c);
        RefillPartial(h, c);
        return true;
      }
      RefillNew(h, c);
      again := NewCurrentSlab(c);
    }

    // The end of a round with a partial slab.
    method PartialRound(c: nat)
      requires Valid() && StateOk(heap, slabs) && c < NR_CACHES
      requires heap.caches[c].slub == NULL && heap.caches[c].partial != []
      modifies this`heap, this`slabs, caches, pages.links`lists, pages.links.next, pages.links.prev
      ensures Valid() && StateOk(heap, slabs) && heap == TakePartial(old(heap), c)
    {
      hide StateOk;
      TakePartialKeeps(heap, slabs, c);
      slabs := Moved(slabs, heap.caches[c].partial[0], Current);
      TakePartialSlab(c);
    }

    // The end of a round: a new slab becomes current, if there is one.
    method NewCurrentSlab(c: nat) returns (again: bool)
      requires Valid() && StateOk(heap, slabs) && c < NR_CACHES
      requires heap.caches[c].slub == NULL && heap.caches[c].freelist == 0
      modifies this`heap, this`slabs, this`words, this`slabFree, caches
      modifies pages`state, pages.links`lists, pages.links.next, pages.links.prev, pages.isFree
      ensures Valid()
      ensures var (t, q) := Alloc(old(heap).buddy, SlabOrder(c));
        if again then q > NULL && heap == NewSlab(old(heap), c, t, q) && StateOk(heap, slabs)
        else q == NULL && heap == old(heap).(buddy := t)
    {
      hide StateOk, NewSlab;
      assert Tied(c);
      if Alloc(heap.buddy, SlabOrder(c)).1 != NULL {
        NewSlabKeeps(heap, slabs, c);
      }
      var p := SlubAlloc(c);
      if p != NULL {
        slabs := slabs[p := Slab(c, Current, ObjectsOf(p, c))];
      }
      return p != NULL;
    }

    method RetireIfCurrent(c: nat)
      requires Valid() && StateOk(heap, slabs) && c < NR_CACHES && heap.caches[c].freelist == 0
      modifies this`heap, this`slabs, caches, pages.links`lists, pages.links.next, pages.links.prev
      ensures Valid() && StateOk(heap, slabs) && heap == Retire(old(heap), c)
      ensures heap.caches[c].slub == NULL && heap.caches[c].freelist == 0
    {
      assert Tied(c);
      RetireKeeps(heap, slabs, c);
      if caches[c].slub != NULL {
        CurrentUnlinked(c);
        slabs := Moved(slabs, caches[c].slub, Full);
        RetireSlab(c);
      }
    }

    // kmem_cache_alloc between lock and unlock: the jumps to redo are rounds of
    // the loop.
    method TakeObject(c: nat) returns (obj: nat)
      requires Valid() && StateOk(heap, slabs) && c < NR_CACHES
      modifies this`heap, this`slabs, this`words, this`slabFree, caches
      modifies pages`state, pages.links`lists, pages.links.next, pages.links.prev, pages.isFree
      ensures Valid() && (heap, obj) == AllocObj(old(heap), c)
    {
      obj := 0;
      var again := true;
      while again
        invariant Valid()
        invariant again ==> StateOk(heap, slabs) && obj == 0 && AllocObj(heap, c) == AllocObj(old(heap), c)
        invariant !again ==> (heap, obj) == AllocObj(old(heap), c)
        decreases again, RoundsLeft(c).0, RoundsLeft(c).1
      {
        assert Tied(c);
        if caches[c].freelist != 0 {
          AllocPops(heap, c);
          obj := caches[c].freelist;
          PopObject(c);
          again := false;
        } else {
          again := Refill(c);
        }
      }
    }

    // kmem_cache_alloc
    method KmemCacheAlloc(c: nat) returns (obj: nat)
      requires Valid() && InOrder() && c < NR_CACHES
      modifies this`heap, this`slabs, this`issued, this`words, this`slabFree, caches
      modifies pages`state, pages.links`lists, pages.links.next, pages.links.prev, pages.isFree
      ensures Valid() && InOrder()
      ensures (heap, obj) == AllocObj(old(heap), c)
      ensures issued == if obj == 0 then old(issued) else old(issued) + [Obj(obj, ObjSize(c))]
    {
      ghost var after := AllocObjSound(heap, slabs, issued, c);
      obj := TakeObject(c);
      slabs := after;
      issued := if obj == 0 then issued else issued + [Obj(obj, ObjSize(c))];
    }

    // __kmalloc and kmalloc
    method KmallocSize(sz: nat) returns (obj: nat)
      requires Valid() && InOrder()
      modifies this`heap, this`slabs, this`issued, this`words, this`slabFree, caches
      modifies pages`state, pages.links`lists, pages.links.next, pages.links.prev, pages.isFree
      ensures Valid() && InOrder()
      ensures (heap, obj) == Kmalloc(old(heap), sz)
      ensures World(heap, issued) == SlubRuns.Step(World(old(heap), old(issued)), Request(sz))
    {
      if sz > KMALLOC_MAX {
        return 0;
      }
      IndexIsLeastClass(sz);
      var index := SlubIndex(sz);
      obj := KmemCacheAlloc(index);
    }

    // kmem_cache_init. On a buddy system in order, the allocator is in order, with
    // nothing issued: the methods above can be called.
    method KmemCacheInit()
      requires Distinct() && pages.Valid() && Node(NR_CACHES, 0) <= pages.links.next.Length
      requires forall h :: IsCacheNode(h) ==> pages.links.Unlinked(h)
      requires forall h :: h in pages.links.lists ==> pages.IsHead(h)
      modifies this`heap, this`slabs, this`issued, caches, pages.links`lists, pages.links.next, pages.links.prev
      ensures Valid() && issued == []
      ensures heap == Heap(old(pages.state), words, slabFree, seq(NR_CACHES, _ => Cache([], [], NULL, 0)))
      ensures Inv(old(pages.state)) ==> InOrder()
    {
      hide WorldOk, Inv;
      heap := Heap(pages.state, words, slabFree, seq(NR_CACHES, _ => Cache([], [], NULL, 0)));
      slabs, issued := map[], [];
      if Inv(pages.state) {
        InitOk(pages.state, words, slabFree);
      }
      var origSz := 16;
      for i: nat := 0 to NR_CACHES
        invariant pages.Valid() && origSz == ObjSize(i)
        invariant heap == Heap(pages.state, words, slabFree, seq(NR_CACHES, _ => Cache([], [], NULL, 0)))
        invariant slabs == map[] && issued == [] && (Inv(pages.state) ==> WorldOk(heap, slabs, issued))
        invariant forall d: nat :: d < i ==> Tied(d)
        invariant forall h :: Node(i, 0) <= h < Node(NR_CACHES, 0) ==> pages.links.Unlinked(h)
        invariant forall h :: h in pages.links.lists ==> pages.IsHead(h) || Node(0, 0) <= h < Node(i, 0)
      {
        InitCache(i, origSz);
        origSz := origSz * 2;
      }
    }

    // The body of the loop of kmem_cache_init.
    method InitCache(i: nat, size: nat)
      requires Distinct() && i < NR_CACHES && pages.Valid() && Node(NR_CACHES, 0) <= pages.links.next.Length
      requires heap.caches == seq(NR_CACHES, _ => Cache([], [], NULL, 0)) && size == ObjSize(i)
      requires forall d: nat :: d < i ==> Tied(d)
      requires forall h :: Node(i, 0) <= h < Node(NR_CACHES, 0) ==> pages.links.Unlinked(h)
      requires forall h :: h in pages.links.lists ==> pages.IsHead(h) || Node(0, 0) <= h < Node(i, 0)
      modifies caches, pages.links`lists, pages.links.next, pages.links.prev
      ensures pages.Valid()
      ensures forall d: nat :: d < i + 1 ==> Tied(d)
      ensures forall h :: Node(i + 1, 0) <= h < Node(NR_CACHES, 0) ==> pages.links.Unlinked(h)
      ensures forall h :: h in pages.links.lists ==> pages.IsHead(h) || Node(0, 0) <= h < Node(i + 1, 0)
    {
      var k := caches[i];
      assert HasNodes(k, Node(i, 0));
      InitLists(k, i);
      forall d: nat | d < i ensures Tied(d) {
        assert old(Tied(d)) && HasNodes(caches[d], Node(d, 0));
      }
      SetFields(i, size);
    }

    method SetFields(i: nat, size: nat)
      requires Distinct() && i < NR_CACHES && |heap.caches| == NR_CACHES
      requires forall d: nat :: d < i ==> Tied(d)
      modifies caches[i]
      ensures forall d: nat :: d < i ==> Tied(d)
      ensures caches[i].freelist == 0 && caches[i].slub == NULL && caches[i].objSize == size
    {
      var k := caches[i];
      k.freelist := 0;
      k.slub := NULL;
      k.objSize := size;
      forall d: nat | d < i ensures Tied(d) {
        assert old(Tied(d));
      }
    }

    // The three list_head_init calls for a cache.
    method InitLists(k: KmemCache, i: nat)
      requires i < NR_CACHES && HasNodes(k, Node(i, 0))
      requires pages.Valid() && Node(NR_CACHES, 0) <= pages.links.next.Length
      requires forall h :: Node(i, 0) <= h < Node(NR_CACHES, 0) ==> pages.links.Unlinked(h)
      modifies pages.links`lists, pages.links.next, pages.links.prev
      ensures pages.Valid()
      ensures pages.links.lists == old(pages.links.lists)[k.partial := []][k.full := []][k.list := []]
      ensures forall h :: Node(i + 1, 0) <= h < Node(NR_CACHES, 0) ==> pages.links.Unlinked(h)
    {
      InitNode(k.partial);
      InitNode(k.full);
      InitNode(k.list);
    }

    // list_head_init on a node of a cache.
    method InitNode(x: int)
      requires pages.Valid() && IsCacheNode(x) && x < pages.links.next.Length && pages.links.Unlinked(x)
      modifies pages.links`lists, pages.links.next, pages.links.prev
      ensures pages.Valid() && pages.links.lists == old(pages.links.lists)[x := []]
      ensures forall y :: y != x && old(pages.links.Unlinked(y)) ==> pages.links.Unlinked(y)
    {
      pages.links.HeadInit(x);
      forall k: nat | k < MAX_PAGE_ORDER ensures pages.FreelistOk(k) {
        assert old(pages.FreelistOk(k));
      }
      forall y | y != x && old(pages.links.Unlinked(y)) ensures pages.links.Unlinked(y) {
        forall h | h in pages.links.lists ensures !pages.links.On(y, h) {
          assert h != x ==> !old(pages.links.On(y, h));
        }
      }
    }
  }

  // With a freelist, allocation pops it.
  lemma AllocPops(h: Heap, c: nat)
    requires Inv(h.buddy) && c < |h.caches| == NR_CACHES && h.caches[c].freelist != 0
    ensures AllocObj(h, c) == (Pop(h, c), h.caches[c].freelist)
  {
  }

  // With partial slabs, allocation goes on as from the first of them.
  lemma RefillPartial(h: Heap, c: nat)
    requires Inv(h.buddy) && c < |h.caches| == NR_CACHES && h.caches[c].freelist == 0 && h.caches[c].partial != []
    ensures AllocObj(TakePartial(Retire(h, c), c), c) == AllocObj(h, c)
  {
  }

  // Without, it goes on as from a new slab, or ends.
  lemma RefillNew(h: Heap, c: nat)
    requires Inv(h.buddy) && c < |h.caches| == NR_CACHES && h.caches[c].freelist == 0 && h.caches[c].partial == []
    ensures var (t, p) := Alloc(h.buddy, SlabOrder(c));
      && Inv(t)
      && (p == NULL ==> AllocObj(h, c) == (Retire(h, c).(buddy := t), 0))
      && (p != NULL ==> p >= 0 && AllocObj(NewSlab(Retire(h, c), c, t, p), c) == AllocObj(h, c))
  {
    AllocSound(h.buddy, SlabOrder(c));
  }
}
