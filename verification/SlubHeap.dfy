/**
 The state of the slab allocator of code/mm/slub.c and its allocation loop, and
 what every allocation keeps.
*/
module SlubHeap {
  import opened IntrusiveList
  import opened Buddy
  import opened BuddyRuns
  import opened Slub

  // One kmem_cache: lists front first, slub the current slab page or NULL,
  // freelist the first free object or 0.
  datatype Cache = Cache(full: seq<int>, partial: seq<int>, slub: int, freelist: nat)

  // slabFree is the freelist field of the page descriptors.
  datatype Heap = Heap(buddy: Buddy, words: Words, slabFree: map<int, nat>, caches: seq<Cache>)

  function SlabFree(h: Heap, f: int): nat { if f in h.slabFree then h.slabFree[f] else 0 }

  // ------------------------------------------------------------ the allocation

  function WithCache(h: Heap, c: nat, k: Cache): Heap
    requires c < |h.caches|
  {
    h.(caches := h.caches[c := k])
  }

  // The current slab has no free object left: it goes on the full list.
  function Retire(h: Heap, c: nat): Heap
    requires c < |h.caches|
  {
    var k := h.caches[c];
    if k.slub == NULL then h else WithCache(h, c, k.(full := [k.slub] + k.full, slub := NULL))
  }

  // The first slab of the partial list becomes the current one.
  function TakePartial(h: Heap, c: nat): Heap
    requires c < |h.caches| && h.caches[c].partial != []
  {
    var k := h.caches[c];
    WithCache(h, c, k.(slub := k.partial[0], freelist := SlabFree(h, k.partial[0]), partial := k.partial[1..]))
  }

  // slub_alloc on block p, just allocated, which becomes the current slab.
  function NewSlab(h: Heap, c: nat, t: Buddy, p: nat): Heap
    requires c < |h.caches| && c < NR_CACHES
  {
    SlabShape(c);
    var k := h.caches[c];
    Heap(t, Thread(h.words, Addr(p), ObjSize(c), SlabObjects(c)), h.slabFree[p := Addr(p)],
         h.caches[c := k.(slub := p, freelist := Addr(p))])
  }

  // Taking the first object off the freelist.
  function Pop(h: Heap, c: nat): Heap
    requires c < |h.caches|
  {
    var k := h.caches[c];
    WithCache(h, c, k.(freelist := Word(h.words, k.freelist)))
  }

  // kmem_cache_alloc: the new state, and the object or 0. The recursive calls are
  // the jumps to redo; they end because each takes a slab off the partial list,
  // or comes with a freelist that is not empty.
  function AllocObj(h: Heap, c: nat): (Heap, nat)
    requires Inv(h.buddy) && c < |h.caches| == NR_CACHES
    decreases |h.caches[c].partial|, if h.caches[c].freelist == 0 then 1 else 0, h
  {
    var k := h.caches[c];
    if k.freelist != 0 then (Pop(h, c), k.freelist)
    else
      var r := Retire(h, c);
      if k.partial != [] then AllocObj(TakePartial(r, c), c)
      else
        AllocSound(h.buddy, SlabOrder(c));
        var (t, p) := Alloc(h.buddy, SlabOrder(c));
        if p == NULL then (r.(buddy := t), 0)
        else AllocObj(NewSlab(r, c, t, p), c)
  }

  // kmalloc; sizes above the largest class go to __kmalloc_large, which is not
  // implemented and returns NULL.
  function Kmalloc(h: Heap, sz: nat): (Heap, nat)
    requires Inv(h.buddy) && |h.caches| == NR_CACHES
  {
    if sz > KMALLOC_MAX then (h, 0)
    else
      IndexIsLeastClass(sz);
      AllocObj(h, SlubIndex(sz))
  }

  // ----------------------------------------------------------------- invariant

  datatype Place = Current | Partial | Full

  // A slab: its cache, where the cache keeps it, and its unissued objects in
  // freelist order.
  datatype Slab = Slab(cache: nat, place: Place, rest: seq<nat>)

  type Slabs = map<int, Slab>

  datatype Obj = Obj(addr: nat, size: nat)

  function ObjectsOf(f: nat, c: nat): seq<nat>
    requires c < NR_CACHES
  {
    Objects(Addr(f), ObjSize(c), SlabObjects(c))
  }

  // The slab is an allocated block, its unissued objects are objects of it, and
  // the in-memory chain for its place runs through exactly those.
  ghost predicate SlabOk(h: Heap, f: int, s: Slab)
    requires |h.caches| == NR_CACHES
  {
    && 0 <= f && s.cache < NR_CACHES
    && Fits(h.buddy, f, SlabOrder(s.cache))
    && NoRepeat(s.rest) && (forall x :: x in s.rest ==> x in ObjectsOf(f, s.cache))
    && match s.place
       case Current => h.caches[s.cache].slub == f && Chain(h.words, h.caches[s.cache].freelist, s.rest)
       case Partial => f in h.caches[s.cache].partial && Chain(h.words, SlabFree(h, f), s.rest)
       case Full => f in h.caches[s.cache].full && s.rest == []
  }

  ghost predicate Keeps(slabs: Slabs, c: nat, f: int, place: Place) {
    f in slabs && slabs[f].cache == c && slabs[f].place == place
  }

  // Every slab the cache has is where the cache has it, and in one place only.
  ghost predicate CacheOk(h: Heap, slabs: Slabs, c: nat)
    requires c < |h.caches|
  {
    var k := h.caches[c];
    && NoRepeat(k.partial) && NoRepeat(k.full)
    && (if k.slub == NULL then k.freelist == 0 else Keeps(slabs, c, k.slub, Current))
    && (forall f :: f in k.partial ==> Keeps(slabs, c, f, Partial))
    && (forall f :: f in k.full ==> Keeps(slabs, c, f, Full))
  }

  ghost predicate SlabsApart(slabs: Slabs, f: int, g: int)
    requires f in slabs && g in slabs
  {
    f != g ==> Apart(f, SlabOrder(slabs[f].cache), g, SlabOrder(slabs[g].cache))
  }

  ghost predicate StateOk(h: Heap, slabs: Slabs) {
    && Inv(h.buddy) && |h.caches| == NR_CACHES
    && (forall f {:trigger SlabOk(h, f, slabs[f])} :: f in slabs ==> SlabOk(h, f, slabs[f]))
    && (forall c: nat :: c < NR_CACHES ==> CacheOk(h, slabs, c))
    && (forall f, g {:trigger SlabsApart(slabs, f, g)} :: f in slabs && g in slabs ==> SlabsApart(slabs, f, g))
  }

  // ------------------------------------------------------------- the four steps

  // A popped object leaves the unissued objects of the current slab.
  lemma PopKeeps(h: Heap, slabs: Slabs, c: nat)
    requires StateOk(h, slabs) && c < NR_CACHES && h.caches[c].freelist != 0
    ensures var f := h.caches[c].slub;
      && Keeps(slabs, c, f, Current) && slabs[f].rest != [] && slabs[f].rest[0] == h.caches[c].freelist
      && StateOk(Pop(h, c), slabs[f := Slab(c, Current, slabs[f].rest[1..])])
  {
    var f := h.caches[c].slub;
    assert CacheOk(h, slabs, c);
    var s := slabs[f];
    assert SlabOk(h, f, s);
    var t := Slab(c, Current, s.rest[1..]);
    var h', slabs' := Pop(h, c), slabs[f := t];
    assert NoRepeat(t.rest) by {
      assert forall i :: 0 <= i < |t.rest| ==> t.rest[i] == s.rest[i + 1];
    }
    forall g | g in slabs' ensures SlabOk(h', g, slabs'[g]) {
      assert SlabOk(h, g, slabs[g]);
    }
    forall d: nat | d < NR_CACHES ensures CacheOk(h', slabs', d) {
      assert CacheOk(h, slabs, d);
    }
    forall g, e | g in slabs' && e in slabs' ensures SlabsApart(slabs', g, e) {
      assert SlabsApart(slabs, g, e);
    }
  }

  function Moved(slabs: Slabs, f: int, place: Place): Slabs
    requires f in slabs
  {
    slabs[f := slabs[f].(place := place)]
  }

  // A current slab whose chain is empty is exhausted, and goes on the full list.
  lemma RetireKeeps(h: Heap, slabs: Slabs, c: nat)
    requires StateOk(h, slabs) && c < NR_CACHES && h.caches[c].freelist == 0
    ensures var f := h.caches[c].slub;
      && (f != NULL ==> Keeps(slabs, c, f, Current) && slabs[f].rest == [])
      && StateOk(Retire(h, c), if f == NULL then slabs else Moved(slabs, f, Full))
      && Retire(h, c).caches[c].slub == NULL
      && Retire(h, c).caches[c].full == (if f == NULL then [] else [f]) + h.caches[c].full
  {
    hide Inv, ObjectsOf, Fits;
    var f := h.caches[c].slub;
    assert CacheOk(h, slabs, c);
    if f != NULL {
      assert SlabOk(h, f, slabs[f]);
      var h', slabs' := Retire(h, c), Moved(slabs, f, Full);
      assert f !in h.caches[c].full;
      forall g | g in slabs' ensures SlabOk(h', g, slabs'[g]) {
        assert SlabOk(h, g, slabs[g]);
      }
      forall d: nat | d < NR_CACHES ensures CacheOk(h', slabs', d) {
        assert CacheOk(h, slabs, d);
      }
      forall g, e | g in slabs' && e in slabs' ensures SlabsApart(slabs', g, e) {
        assert SlabsApart(slabs, g, e);
      }
    }
  }

  lemma NoRepeatTail(l: seq<int>)
    requires NoRepeat(l) && l != []
    ensures NoRepeat(l[1..]) && forall g :: g in l[1..] <==> g in l && g != l[0]
  {
    assert forall i, j :: 0 <= i < j < |l| - 1 ==> l[1..][i] != l[1..][j];
  }

  lemma TakePartialCache(h: Heap, slabs: Slabs, c: nat, d: nat)
    requires |h.caches| == NR_CACHES && c < NR_CACHES && d < NR_CACHES && CacheOk(h, slabs, c) && CacheOk(h, slabs, d)
    requires h.caches[c].slub == NULL && h.caches[c].partial != []
    requires h.caches[c].partial[0] in slabs && h.caches[c].partial[0] != NULL
    ensures CacheOk(TakePartial(h, c), Moved(slabs, h.caches[c].partial[0], Current), d)
  {
    var k, h' := h.caches[c], TakePartial(h, c);
    assert k.partial[0] in k.partial;
    NoRepeatTail(k.partial);
    assert h'.caches[d] == if d == c then h'.caches[c] else h.caches[d];
  }

  // The first partial slab becomes current, with the chain its page descriptor had.
  lemma TakePartialKeeps(h: Heap, slabs: Slabs, c: nat)
    requires StateOk(h, slabs) && c < NR_CACHES && h.caches[c].slub == NULL && h.caches[c].partial != []
    ensures var f := h.caches[c].partial[0];
      Keeps(slabs, c, f, Partial) && StateOk(TakePartial(h, c), Moved(slabs, f, Current))
  {
    hide Inv, Chain, ObjectsOf;
    var k := h.caches[c];
    var f := k.partial[0];
    assert CacheOk(h, slabs, c);
    assert f in k.partial && SlabOk(h, f, slabs[f]);
    var h', slabs' := TakePartial(h, c), Moved(slabs, f, Current);
    NoRepeatTail(k.partial);
    forall g | g in slabs' ensures SlabOk(h', g, slabs'[g]) {
      assert SlabOk(h, g, slabs[g]);
    }
    forall d: nat | d < NR_CACHES ensures CacheOk(h', slabs', d) {
      TakePartialCache(h, slabs, c, d);
    }
    forall g, e | g in slabs' && e in slabs' ensures SlabsApart(slabs', g, e) {
      assert SlabsApart(slabs, g, e);
    }
  }

  // The addresses of two blocks that are apart are apart.
  lemma BlocksToAddresses(f: nat, c: nat, g: nat, d: nat)
    requires c < NR_CACHES && d < NR_CACHES && Apart(f, SlabOrder(c), g, SlabOrder(d))
    ensures Addr(f) + SlabBytes(c) <= Addr(g) || Addr(g) + SlabBytes(d) <= Addr(f)
  {
  }

  // Where the objects of a slab lie.
  lemma ObjectsInSlab(f: nat, c: nat)
    requires c < NR_CACHES
    ensures forall x :: x in ObjectsOf(f, c) ==> Addr(f) <= x && x + ObjSize(c) <= Addr(f) + SlabBytes(c)
    ensures forall x, y :: x in ObjectsOf(f, c) && y in ObjectsOf(f, c) && x < y ==> x + ObjSize(c) <= y
    ensures NoRepeat(ObjectsOf(f, c))
  {
    SlabShape(c);
    ObjectsSpan(Addr(f), ObjSize(c), SlabObjects(c));
    ObjectsNoRepeat(Addr(f), ObjSize(c), SlabObjects(c));
  }

  // An allocation of block p leaves the slabs as they are: they keep apart from
  // the free blocks, and from p.
  lemma AllocSparesSlab(b: Buddy, o: nat, f: int, d: nat)
    requires Inv(b) && Alloc(b, o).1 != NULL && Fits(b, f, d)
    ensures Fits(Alloc(b, o).0, f, d) && Apart(f, d, Alloc(b, o).1, o)
  {
    AllocSound(b, o);
    var (t, p) := Alloc(b, o);
    FitsPages(b, f, d);
    FitsPages(t, f, d);
    var m := Max(f, p);
    assert Apart(f, d, p, o) || (InBlock(m, f, d) && InBlock(m, p, o));
  }

  lemma NewSlabWords(h: Heap, slabs: Slabs, c: nat, p: nat, g: int, x: nat)
    requires StateOk(h, slabs) && c < NR_CACHES && g in slabs && x in slabs[g].rest
    requires Apart(g, SlabOrder(slabs[g].cache), p, SlabOrder(c))
    ensures SlabObjects(c) > 0 &&
      Word(Thread(h.words, Addr(p), ObjSize(c), SlabObjects(c)), x) == Word(h.words, x)
  {
    var s := slabs[g];
    assert SlabOk(h, g, s);
    ObjectsInSlab(g, s.cache);
    BlocksToAddresses(g, s.cache, p, c);
    SlabShape(c);
    ThreadElsewhere(h.words, Addr(p), ObjSize(c), SlabObjects(c), x);
  }

  // A new slab, on a block that is apart from all others: its objects are all
  // unissued.
  lemma TrimKeeps(h: Heap, slabs: Slabs, c: nat, p: nat)
    requires StateOk(h, slabs) && c < NR_CACHES && h.caches[c].slub == NULL && h.caches[c].freelist == 0
    requires Fits(h.buddy, p, SlabOrder(c))
    requires forall g :: g in slabs ==> Apart(g, SlabOrder(slabs[g].cache), p, SlabOrder(c))
    ensures p !in slabs
    ensures StateOk(NewSlab(h, c, h.buddy, p), slabs[p := Slab(c, Current, ObjectsOf(p, c))])
  {
    var s := Slab(c, Current, ObjectsOf(p, c));
    var h', slabs' := NewSlab(h, c, h.buddy, p), slabs[p := s];
    assert CacheOk(h, slabs, c);
    SlabShape(c);
    forall g | g in slabs ensures g != p && SlabOk(h', g, slabs[g]) {
      assert SlabOk(h, g, slabs[g]);
      forall x | x in slabs[g].rest ensures Word(h'.words, x) == Word(h.words, x) {
        NewSlabWords(h, slabs, c, p, g, x);
      }
      match slabs[g].place
      case Current => ChainKept(h.words, h'.words, h.caches[slabs[g].cache].freelist, slabs[g].rest);
      case Partial => ChainKept(h.words, h'.words, SlabFree(h, g), slabs[g].rest);
      case Full =>
    }
    assert SlabOk(h', p, s) by {
      ObjectsInSlab(p, c);
      ThreadChains(h.words, Addr(p), ObjSize(c), SlabObjects(c));
    }
    forall d: nat | d < NR_CACHES ensures CacheOk(h', slabs', d) {
      assert CacheOk(h, slabs, d);
    }
    forall g, e | g in slabs' && e in slabs' ensures SlabsApart(slabs', g, e) {
      assert g in slabs && e in slabs ==> SlabsApart(slabs, g, e);
    }
  }

  // An allocation leaves the slabs in order, and its block is apart from them.
  lemma AllocKeepsSlabs(h: Heap, slabs: Slabs, o: nat)
    requires StateOk(h, slabs)
    ensures var (t, p) := Alloc(h.buddy, o);
      && StateOk(h.(buddy := t), slabs)
      && (p != NULL ==>
            && Fits(t, p, o)
            && forall g :: g in slabs ==> Apart(g, SlabOrder(slabs[g].cache), p, o))
  {
    var (t, p) := Alloc(h.buddy, o);
    var h' := h.(buddy := t);
    AllocSound(h.buddy, o);
    forall g | g in slabs
      ensures SlabOk(h', g, slabs[g])
      ensures p != NULL ==> Apart(g, SlabOrder(slabs[g].cache), p, o)
    {
      assert SlabOk(h, g, slabs[g]);
      if p != NULL {
        AllocSparesSlab(h.buddy, o, g, SlabOrder(slabs[g].cache));
      }
    }
    forall d: nat | d < NR_CACHES ensures CacheOk(h', slabs, d) {
      assert CacheOk(h, slabs, d);
    }
  }

  // The current slab after a refill from the buddy system.
  lemma NewSlabKeeps(h: Heap, slabs: Slabs, c: nat)
    requires StateOk(h, slabs) && c < NR_CACHES && h.caches[c].slub == NULL && h.caches[c].freelist == 0
    requires Alloc(h.buddy, SlabOrder(c)).1 != NULL
    ensures var (t, p) := Alloc(h.buddy, SlabOrder(c));
      && p >= 0 && p !in slabs
      && StateOk(NewSlab(h, c, t, p), slabs[p := Slab(c, Current, ObjectsOf(p, c))])
  {
    var (t, p) := Alloc(h.buddy, SlabOrder(c));
    AllocKeepsSlabs(h, slabs, SlabOrder(c));
    TrimKeeps(h.(buddy := t), slabs, c, p);
  }
}
