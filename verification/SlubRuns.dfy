/**
 Whole runs of kmalloc, interleaved with whatever clients write into the objects
 they hold: no object is issued twice, no two overlap, and the chains threaded
 through unissued objects survive.
*/
module SlubRuns {
  import opened Buddy
  import Runs = BuddyRuns
  import opened Slub
  import opened SlubHeap

  // x is an object of slab f that has been issued.
  ghost predicate Out(slabs: Slabs, f: int, x: nat)
    requires f in slabs
  {
    0 <= f && slabs[f].cache < NR_CACHES && x in ObjectsOf(f, slabs[f].cache) && x !in slabs[f].rest
  }

  ghost predicate OutOf(slabs: Slabs, o: Obj) {
    exists f :: f in slabs && Out(slabs, f, o.addr) && o.size == ObjSize(slabs[f].cache)
  }

  ghost predicate Listed(issued: seq<Obj>, x: nat) {
    exists i :: 0 <= i < |issued| && issued[i].addr == x
  }

  // The issued objects, each once, are exactly the objects of slabs that are not
  // among the slabs' unissued ones.
  ghost predicate IssuedOk(slabs: Slabs, issued: seq<Obj>) {
    && (forall i, j :: 0 <= i < j < |issued| ==> issued[i].addr != issued[j].addr)
    && (forall i :: 0 <= i < |issued| ==> OutOf(slabs, issued[i]))
    && (forall f, x {:trigger Out(slabs, f, x)} :: f in slabs && Out(slabs, f, x) ==> Listed(issued, x))
  }

  // Two issued objects share no byte.
  ghost predicate Separate(o: Obj, q: Obj) {
    o.addr + o.size <= q.addr || q.addr + q.size <= o.addr
  }

  lemma SlabObjectsSeparate(h: Heap, slabs: Slabs, f: int, x: nat, g: int, y: nat)
    requires StateOk(h, slabs) && f in slabs && g in slabs && (x != y || f != g)
    requires 0 <= f && slabs[f].cache < NR_CACHES && x in ObjectsOf(f, slabs[f].cache)
    requires 0 <= g && slabs[g].cache < NR_CACHES && y in ObjectsOf(g, slabs[g].cache)
    ensures Separate(Obj(x, ObjSize(slabs[f].cache)), Obj(y, ObjSize(slabs[g].cache)))
  {
    ObjectsInSlab(f, slabs[f].cache);
    ObjectsInSlab(g, slabs[g].cache);
    if f != g {
      assert SlabsApart(slabs, f, g);
      BlocksToAddresses(f, slabs[f].cache, g, slabs[g].cache);
    }
  }

  // In every state reached, issued objects are pairwise disjoint.
  lemma IssuedSeparate(h: Heap, slabs: Slabs, issued: seq<Obj>, i: nat, j: nat)
    requires StateOk(h, slabs) && IssuedOk(slabs, issued) && i < j < |issued|
    ensures Separate(issued[i], issued[j])
  {
    assert OutOf(slabs, issued[i]) && OutOf(slabs, issued[j]);
    var f :| f in slabs && Out(slabs, f, issued[i].addr) && issued[i].size == ObjSize(slabs[f].cache);
    var g :| g in slabs && Out(slabs, g, issued[j].addr) && issued[j].size == ObjSize(slabs[g].cache);
    SlabObjectsSeparate(h, slabs, f, issued[i].addr, g, issued[j].addr);
  }

  // ---------------------------------------------------------- one allocation

  // Moving a slab between a cache's places issues nothing.
  lemma MovedIssued(slabs: Slabs, issued: seq<Obj>, f: int, place: Place)
    requires IssuedOk(slabs, issued) && f in slabs
    ensures IssuedOk(Moved(slabs, f, place), issued)
  {
    var t := Moved(slabs, f, place);
    forall i | 0 <= i < |issued| ensures OutOf(t, issued[i]) {
      assert OutOf(slabs, issued[i]);
      var g :| g in slabs && Out(slabs, g, issued[i].addr) && issued[i].size == ObjSize(slabs[g].cache);
      assert Out(t, g, issued[i].addr);
    }
    forall g, x | g in t && Out(t, g, x) ensures Listed(issued, x) {
      assert Out(slabs, g, x);
    }
  }

  // Neither does a new slab.
  lemma NewSlabIssued(slabs: Slabs, issued: seq<Obj>, p: nat, c: nat)
    requires IssuedOk(slabs, issued) && p !in slabs && c < NR_CACHES
    ensures IssuedOk(slabs[p := Slab(c, Current, ObjectsOf(p, c))], issued)
  {
    var t := slabs[p := Slab(c, Current, ObjectsOf(p, c))];
    forall i | 0 <= i < |issued| ensures OutOf(t, issued[i]) {
      assert OutOf(slabs, issued[i]);
      var g :| g in slabs && Out(slabs, g, issued[i].addr) && issued[i].size == ObjSize(slabs[g].cache);
      assert Out(t, g, issued[i].addr);
    }
    forall g, x | g in t && Out(t, g, x) ensures Listed(issued, x) {
      assert Out(slabs, g, x);
    }
  }

  // A popped object is issued, and was not before.
  lemma PopIssued(h: Heap, slabs: Slabs, issued: seq<Obj>, f: int)
    requires StateOk(h, slabs) && IssuedOk(slabs, issued) && f in slabs && slabs[f].rest != []
    ensures var s := slabs[f];
      IssuedOk(slabs[f := Slab(s.cache, Current, s.rest[1..])], issued + [Obj(s.rest[0], ObjSize(s.cache))])
  {
    var s := slabs[f];
    var x, c := s.rest[0], s.cache;
    var t, more := slabs[f := Slab(c, Current, s.rest[1..])], issued + [Obj(x, ObjSize(c))];
    assert SlabOk(h, f, s) && x in s.rest && x !in s.rest[1..];
    forall i | 0 <= i < |issued| ensures OutOf(t, issued[i]) && issued[i].addr != x {
      assert OutOf(slabs, issued[i]);
      var g :| g in slabs && Out(slabs, g, issued[i].addr) && issued[i].size == ObjSize(slabs[g].cache);
      assert Out(t, g, issued[i].addr);
      if g != f {
        assert SlabOk(h, g, slabs[g]);
        SlabObjectsSeparate(h, slabs, f, x, g, issued[i].addr);
      }
    }
    assert Out(t, f, x) && OutOf(t, Obj(x, ObjSize(c)));
    forall i | 0 <= i < |more| ensures OutOf(t, more[i]) {
      assert i < |issued| ==> OutOf(t, issued[i]);
    }
    forall g, y | g in t && Out(t, g, y) ensures Listed(more, y) {
      if g == f && y == x {
        assert more[|issued|].addr == x;
      } else {
        assert Out(slabs, g, y);
        var i :| 0 <= i < |issued| && issued[i].addr == y;
        assert more[i].addr == y;
      }
    }
  }

  // The slabs once slab f, if there is one, is on the full list.
  function Retired(slabs: Slabs, f: int): Slabs {
    if f == NULL || f !in slabs then slabs else Moved(slabs, f, Full)
  }

  ghost predicate WorldOk(h: Heap, slabs: Slabs, issued: seq<Obj>) {
    StateOk(h, slabs) && IssuedOk(slabs, issued)
  }

  // Nothing is left for cache c: its chain and those of its partial slabs are
  // empty, and the buddy system has no block large enough.
  ghost predicate NothingLeft(h: Heap, slabs: Slabs, c: nat)
    requires c < |h.caches|
  {
    && h.caches[c].freelist == 0
    && (forall f :: f in h.caches[c].partial ==> f in slabs && slabs[f].rest == [])
    && forall x, k: nat :: IsBlock(h.buddy, x, k) ==> k < SlabOrder(c)
  }

  // kmem_cache_alloc, from any state in order, whatever its partial list holds:
  // the state stays in order, the object was never issued before, and there is
  // none exactly when nothing is left.
  lemma {:induction false} AllocObjSound(h: Heap, slabs: Slabs, issued: seq<Obj>, c: nat) returns (slabs': Slabs)
    requires WorldOk(h, slabs, issued) && c < NR_CACHES
    ensures var (h', o) := AllocObj(h, c);
      && WorldOk(h', slabs', if o == 0 then issued else issued + [Obj(o, ObjSize(c))])
      && (o == 0 <==> NothingLeft(h, slabs, c))
    decreases |h.caches[c].partial|, if h.caches[c].freelist == 0 then 1 else 0
  {
    var k := h.caches[c];
    if k.freelist != 0 {
      PopKeeps(h, slabs, c);
      PopIssued(h, slabs, issued, k.slub);
      slabs' := slabs[k.slub := Slab(c, Current, slabs[k.slub].rest[1..])];
    } else {
      RetireKeeps(h, slabs, c);
      var r, s := Retire(h, c), Retired(slabs, k.slub);
      if k.slub != NULL {
        MovedIssued(slabs, issued, k.slub, Full);
      }
      if k.partial != [] {
        slabs' := TakePartialSound(h, slabs, r, s, issued, c);
      } else {
        slabs' := NewSlabSound(h, slabs, r, s, issued, c);
      }
    }
  }

  lemma {:induction false} TakePartialSound(h: Heap, slabs: Slabs, r: Heap, s: Slabs, issued: seq<Obj>, c: nat)
    returns (slabs': Slabs)
    requires StateOk(h, slabs) && WorldOk(r, s, issued) && c < NR_CACHES
    requires h.caches[c].freelist == 0 && h.caches[c].partial != []
    requires r == Retire(h, c) && r.caches[c].slub == NULL
    requires s == Retired(slabs, h.caches[c].slub)
    ensures var (h', o) := AllocObj(h, c);
      && WorldOk(h', slabs', if o == 0 then issued else issued + [Obj(o, ObjSize(c))])
      && (o == 0 <==> NothingLeft(h, slabs, c))
    decreases |h.caches[c].partial|, 0
  {
    var f := h.caches[c].partial[0];
    TakePartialKeeps(r, s, c);
    MovedIssued(s, issued, f, Current);
    slabs' := AllocObjSound(TakePartial(r, c), Moved(s, f, Current), issued, c);
    PartialLeft(h, slabs, r, s, c);
  }

  // Nothing is left for the cache iff nothing is once its first partial slab is
  // the current one.
  lemma PartialLeft(h: Heap, slabs: Slabs, r: Heap, s: Slabs, c: nat)
    requires StateOk(h, slabs) && StateOk(r, s) && c < NR_CACHES
    requires h.caches[c].freelist == 0 && h.caches[c].partial != []
    requires r == Retire(h, c) && r.caches[c].slub == NULL
    requires s == Retired(slabs, h.caches[c].slub)
    ensures var f := h.caches[c].partial[0];
      f in s && (NothingLeft(TakePartial(r, c), Moved(s, f, Current), c) <==> NothingLeft(h, slabs, c))
  {
    var k := h.caches[c];
    var f := k.partial[0];
    assert CacheOk(r, s, c) && f in r.caches[c].partial;
    assert SlabOk(r, f, s[f]);
    assert forall g :: g in k.partial <==> g == f || g in k.partial[1..];
    assert TakePartial(r, c).caches[c].freelist == SlabFree(h, f);
    assert SlabFree(h, f) == 0 <==> slabs[f].rest == [];
  }

  lemma {:induction false} NewSlabSound(h: Heap, slabs: Slabs, r: Heap, s: Slabs, issued: seq<Obj>, c: nat)
    returns (slabs': Slabs)
    requires StateOk(h, slabs) && WorldOk(r, s, issued) && c < NR_CACHES
    requires h.caches[c].freelist == 0 && h.caches[c].partial == []
    requires r == Retire(h, c) && r.caches[c].slub == NULL
    ensures var (h', o) := AllocObj(h, c);
      && WorldOk(h', slabs', if o == 0 then issued else issued + [Obj(o, ObjSize(c))])
      && (o == 0 <==> NothingLeft(h, slabs, c))
    decreases 0, 0
  {
    Runs.AllocSound(h.buddy, SlabOrder(c));
    var (t, p) := Alloc(h.buddy, SlabOrder(c));
    if p == NULL {
      slabs' := s;
    } else {
      NewSlabKeeps(r, s, c);
      NewSlabIssued(s, issued, p, c);
      var u, v := NewSlab(r, c, t, p), s[p := Slab(c, Current, ObjectsOf(p, c))];
      PopKeeps(u, v, c);
      PopIssued(u, v, issued, p);
      slabs' := v[p := Slab(c, Current, v[p].rest[1..])];
    }
  }

  // ----------------------------------------------------------- client writes

  // The memory v differs from w only inside issued objects.
  ghost predicate Confined(w: Words, v: Words, issued: seq<Obj>) {
    forall a: nat :: Word(v, a) != Word(w, a) ==> Inside(a, issued)
  }

  ghost predicate Inside(a: nat, issued: seq<Obj>) {
    exists i :: 0 <= i < |issued| && issued[i].addr <= a < issued[i].addr + issued[i].size
  }

  lemma UnissuedOutside(h: Heap, slabs: Slabs, issued: seq<Obj>, f: int, x: nat)
    requires WorldOk(h, slabs, issued) && f in slabs && x in slabs[f].rest
    ensures !Inside(x, issued)
  {
    assert SlabOk(h, f, slabs[f]);
    forall i | 0 <= i < |issued| ensures !(issued[i].addr <= x < issued[i].addr + issued[i].size) {
      assert OutOf(slabs, issued[i]);
      var g :| g in slabs && Out(slabs, g, issued[i].addr) && issued[i].size == ObjSize(slabs[g].cache);
      assert SlabOk(h, g, slabs[g]);
      SlabObjectsSeparate(h, slabs, f, x, g, issued[i].addr);
    }
  }

  // Memory that changes outside the unissued objects leaves the slabs in order.
  lemma ChainsKept(h: Heap, slabs: Slabs, v: Words)
    requires StateOk(h, slabs)
    requires forall f, x :: f in slabs && x in slabs[f].rest ==> Word(v, x) == Word(h.words, x)
    ensures StateOk(h.(words := v), slabs)
  {
    var h' := h.(words := v);
    forall f | f in slabs ensures SlabOk(h', f, slabs[f]) {
      var s := slabs[f];
      assert SlabOk(h, f, s);
      match s.place
      case Current => ChainKept(h.words, v, h.caches[s.cache].freelist, s.rest);
      case Partial => ChainKept(h.words, v, SlabFree(h, f), s.rest);
      case Full =>
    }
    forall c: nat | c < NR_CACHES ensures CacheOk(h', slabs, c) {
      assert CacheOk(h, slabs, c);
    }
  }

  // Whatever clients write into their objects, the allocator stays in order.
  lemma WritesKeep(h: Heap, slabs: Slabs, issued: seq<Obj>, v: Words)
    requires WorldOk(h, slabs, issued) && Confined(h.words, v, issued)
    ensures WorldOk(h.(words := v), slabs, issued)
  {
    forall f, x | f in slabs && x in slabs[f].rest ensures Word(v, x) == Word(h.words, x) {
      UnissuedOutside(h, slabs, issued, f, x);
    }
    ChainsKept(h, slabs, v);
  }

  // -------------------------------------------------------------------- runs

  datatype Op =
    | Request(sz: nat)
    | Write(words: Words)  // the memory after some writes by clients

  // A heap, and the objects issued so far, oldest first.
  datatype World = World(heap: Heap, issued: seq<Obj>)

  function Step(y: World, op: Op): World
    requires Inv(y.heap.buddy) && |y.heap.caches| == NR_CACHES
  {
    match op
    case Request(sz) =>
      var (h, o) := Kmalloc(y.heap, sz);
      World(h, if o == 0 then y.issued else y.issued + [Obj(o, ObjSize(Max(SlubIndex(sz), 0)))])
    case Write(words) => World(y.heap.(words := words), y.issued)
  }

  // The worlds reached by a run: every write is confined to issued objects.
  ghost predicate Reaches(y: World, ops: seq<Op>, z: World)
    decreases |ops|
  {
    if ops == [] then z == y
    else
      && Inv(y.heap.buddy) && |y.heap.caches| == NR_CACHES
      && (ops[0].Write? ==> Confined(y.heap.words, ops[0].words, y.issued))
      && Reaches(Step(y, ops[0]), ops[1..], z)
  }

  // One kmalloc: an object of at least the size asked for, apart from every
  // object issued before, or NULL exactly when the size is too large or nothing
  // is left for its class.
  lemma KmallocSound(y: World, slabs: Slabs, sz: nat) returns (slabs': Slabs)
    requires WorldOk(y.heap, slabs, y.issued)
    ensures var z := Step(y, Request(sz));
      && WorldOk(z.heap, slabs', z.issued)
      && y.issued <= z.issued
      && (z.issued == y.issued <==> sz > KMALLOC_MAX || NothingLeft(y.heap, slabs, SlubIndex(sz)))
      && (z.issued != y.issued ==>
            && |z.issued| == |y.issued| + 1 && z.issued[|y.issued|].size >= sz
            && forall i :: 0 <= i < |y.issued| ==> Separate(y.issued[i], z.issued[|y.issued|]))
  {
    slabs' := slabs;
    if sz <= KMALLOC_MAX {
      IndexIsLeastClass(sz);
      slabs' := AllocObjSound(y.heap, slabs, y.issued, SlubIndex(sz));
      var z := Step(y, Request(sz));
      forall i | 0 <= i < |y.issued| && z.issued != y.issued ensures Separate(y.issued[i], z.issued[|y.issued|]) {
        IssuedSeparate(z.heap, slabs', z.issued, i, |y.issued|);
      }
    }
  }

  // Over every run of kmalloc calls and client writes, the allocator stays in
  // order: objects already issued stay issued, and no two issued objects overlap.
  lemma {:induction false} KmallocRun(y: World, slabs: Slabs, ops: seq<Op>, z: World) returns (slabs': Slabs)
    requires WorldOk(y.heap, slabs, y.issued) && Reaches(y, ops, z)
    ensures WorldOk(z.heap, slabs', z.issued) && y.issued <= z.issued
    ensures forall i, j :: 0 <= i < j < |z.issued| ==> Separate(z.issued[i], z.issued[j])
    decreases |ops|
  {
    if ops == [] {
      slabs' := slabs;
      forall i, j | 0 <= i < j < |z.issued| ensures Separate(z.issued[i], z.issued[j]) {
        IssuedSeparate(z.heap, slabs, z.issued, i, j);
      }
    } else {
      var m := slabs;
      match ops[0] {
        case Request(sz) => m := KmallocSound(y, slabs, sz);
        case Write(words) => WritesKeep(y.heap, slabs, y.issued, words);
      }
      slabs' := KmallocRun(Step(y, ops[0]), m, ops[1..], z);
    }
  }

  // kmem_cache_init leaves the allocator in order, with nothing issued.
  lemma InitOk(b: Buddy, words: Words, slabFree: map<int, nat>)
    requires Inv(b)
    ensures WorldOk(Heap(b, words, slabFree, seq(NR_CACHES, _ => Cache([], [], NULL, 0))), map[], [])
  {
  }
}
