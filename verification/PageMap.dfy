/**
 The page-table functions as they run: mm_pgtable_get_va_pte and mm_pgtable_map of
 code/mm/pgtable.c, with tables taken from the buddy system.
*/
module PageMap {
  import opened BinaryDigits
  import opened PageSizes
  import opened Buddy
  import opened BuddyRuns
  import opened PageAlloc
  import opened PageTable

  const KERNEL_BASE_ADDR: nat := 0xffff_ffff_8100_0000

  // What mm_phys_alloc returns for failure, as a 64-bit word.
  const NO_PAGE: nat := 0xffff_ffff_ffff_ffff

  // KERNEL_VA_IS_PHYS_ZERO
  predicate IsPhysZero(va: nat) {
    va == KERNEL_DIRECT_MAPPING_AREA || va == KERNEL_BASE_ADDR
  }

  // What the lookup means: the address of the page's frame, unless that is frame
  // 0, which counts as mapped only at the two addresses meant for it.
  function Translated(m: Memory, root: nat, va: nat): int {
    match Follow(m, root, Upper(va))
    case Missing => -1
    case At(f) =>
      var frame := Frame(Tab(m, f)[PteIndex(va)]);
      if frame == 0 && !IsPhysZero(va) then -1 else frame * PAGE_SIZE
  }

  // The lookup agrees with the flat map everywhere but at the two addresses of
  // physical page 0, where it says mapped as soon as a leaf table exists.
  lemma LookupIsFlat(m: Memory, root: nat, own: Owners, va: nat)
    requires Tree(m, root, own)
    ensures var frame := Frame(Flat(m, own, va));
      Translated(m, root, va) ==
        if frame != 0 then frame * PAGE_SIZE
        else if IsPhysZero(va) && Upper(va) in own then 0
        else -1
  {
    WalkIsFlat(m, root, own, va);
  }

  // Frame f has its entry in the direct mapping.
  ghost predicate MapsFrame(m: Memory, root: nat, f: nat) {
    Frame(Pte(m, root, KERNEL_DIRECT_MAPPING_AREA + f * PAGE_SIZE)) == f
  }

  // So have the first n frames.
  ghost predicate DirectMapping(m: Memory, root: nat, n: nat) {
    forall f: nat :: f < n ==> MapsFrame(m, root, f)
  }

  // Any byte of the page of frame f.
  lemma DirectByte(m: Memory, root: nat, n: nat, f: nat, va: nat)
    requires DirectMapping(m, root, n) && f < n
    requires KERNEL_DIRECT_MAPPING_AREA + f * PAGE_SIZE <= va < KERNEL_DIRECT_MAPPING_AREA + (f + 1) * PAGE_SIZE
    ensures Frame(Pte(m, root, va)) == f
    ensures f > 0 ==> Translated(m, root, va) == f * PAGE_SIZE
  {
    hide Follow, Tab;
    assert MapsFrame(m, root, f);
    var page := KERNEL_DIRECT_MAPPING_AREA + f * PAGE_SIZE;
    DivUnique(page, 0x1000, 0xffff_8880_0000_0 + f, 0);
    DivUnique(va, 0x1000, 0xffff_8880_0000_0 + f, va - page);
    SamePage(page, va);
    assert Frame(0) == 0;
  }

  // At least k pages are free.
  ghost predicate HasFree(s: Buddy, k: nat) {
    exists ps: set<int> :: |ps| == k && AllFree(s, ps)
  }

  ghost predicate AllFree(s: Buddy, ps: set<int>) {
    forall p :: p in ps ==> FreePage(s, p)
  }

  // Tables that mapping va will have to create.
  ghost function Lacking(own: Owners, va: nat): nat {
    var u := Upper(va);
    Needed(own, [u[0]]) + Needed(own, [u[0], u[1]]) + Needed(own, u)
  }

  ghost function Needed(own: Owners, p: seq<nat>): nat { if p in own then 0 else 1 }

  lemma SomeMember(ps: set<int>) returns (e: int)
    requires |ps| > 0
    ensures e in ps
  {
    assert (forall x :: x !in ps) ==> ps == {};
    e :| e in ps;
  }

  lemma NoneNeeded(s: Buddy)
    ensures HasFree(s, 0)
  {
    var none: set<int> := {};
    assert |none| == 0 && AllFree(s, none);
  }

  lemma {:induction false} FewerFree(s: Buddy, j: nat, k: nat)
    requires j <= k && HasFree(s, k)
    ensures HasFree(s, j)
    decreases k
  {
    if j < k {
      var ps: set<int> :| |ps| == k && AllFree(s, ps);
      var e := SomeMember(ps);
      assert |ps - {e}| == k - 1 && AllFree(s, ps - {e});
      FewerFree(s, j, k - 1);
    }
  }

  // Losing one free page.
  lemma OneLess(s: Buddy, t: Buddy, p: int, k: nat)
    requires FreePage(s, p) && !FreePage(t, p)
    requires forall i :: FreePage(s, i) <==> FreePage(t, i) || i == p
    ensures HasFree(s, k + 1) <==> HasFree(t, k)
  {
    if HasFree(s, k + 1) {
      var ps: set<int> :| |ps| == k + 1 && AllFree(s, ps);
      var e := SomeMember(ps);
      var qs := if p in ps then ps - {p} else ps - {e};
      assert |qs| == k && AllFree(t, qs);
    }
    if HasFree(t, k) {
      var qs: set<int> :| |qs| == k && AllFree(t, qs);
      assert |qs + {p}| == k + 1 && AllFree(s, qs + {p});
    }
  }

  // A one-page allocation takes one free page if there is any, and fails otherwise.
  lemma OnePage(s: Buddy, o: nat)
    requires Inv(s) && LeastOrder(PAGE_SIZE, o)
    ensures var (t, p) := Alloc(s, o);
      && (p == NULL <==> !HasFree(s, 1))
      && (p == NULL ==> t == s)
      && (p != NULL ==>
            && p >= 0 && FreePage(s, p) && !FreePage(t, p)
            && (forall i :: FreePage(s, i) <==> FreePage(t, i) || i == p)
            && forall k: nat :: HasFree(s, k + 1) <==> HasFree(t, k))
  {
    assert Holds(PAGE_SIZE, 0);
    assert o == 0;
    AllocSound(s, 0);
    var (t, p) := Alloc(s, 0);
    if p == NULL {
      NoFreePage(s);
    } else {
      assert InBlock(p, p, 0) && FreePage(s, p);
      FitsPages(t, p, 0);
      forall k: nat ensures HasFree(s, k + 1) <==> HasFree(t, k) {
        OneLess(s, t, p, k);
      }
      NoneNeeded(t);
    }
  }

  lemma NoFreePage(s: Buddy)
    requires forall x, k: nat :: !IsBlock(s, x, k)
    ensures !HasFree(s, 1)
  {
    forall ps: set<int> | |ps| == 1 ensures !AllFree(s, ps) {
      var e := SomeMember(ps);
      assert !FreePage(s, e);
    }
  }

  // Without enough pages for some tables there are not enough for more.
  lemma Stopped(s: Buddy, j: nat, k: nat)
    ensures !HasFree(s, j) ==> !HasFree(s, j + k)
  {
    if HasFree(s, j + k) {
      FewerFree(s, j, j + k);
    }
  }

  // Memory after a page is mapped, with new tables, where they are missing, at the
  // addresses a, b and c. A new entry has the bits of the table and the attributes.
  function MapWith(m: Memory, root: nat, va: nat, pa: nat, attr: nat, a: nat, b: nat, c: nat): Memory {
    var m1 := Enter(m, root, PgdIndex(va), a, attr);
    var t1 := Frame(Tab(m1, root)[PgdIndex(va)]);
    var m2 := Enter(m1, t1, PudIndex(va), b, attr);
    var t2 := Frame(Tab(m2, t1)[PudIndex(va)]);
    var m3 := Enter(m2, t2, PmdIndex(va), c, attr);
    Put(m3, Frame(Tab(m3, t2)[PmdIndex(va)]), PteIndex(va), Or(pa, attr))
  }

  class AddressSpace {
    var mem: Memory
    const root: nat
    ghost var own: Owners

    // An empty root table in frame root.
    constructor (root: nat)
      ensures Valid() && own.Values == {root} && this.root == root
      ensures forall va :: Pte(mem, root, va) == 0
    {
      this.root := root;
      mem := map[root := Zeros()];
      own := map[[] := root];
      new;
      assert own[[]] == root;
      forall va ensures Pte(mem, root, va) == 0 {
        WalkIsFlat(mem, root, own, va);
      }
    }

    ghost predicate Valid()
      reads this
    {
      Tree(mem, root, own)
    }

    // The frames of the tables belong to this address space: none of them is free,
    // and frame 0 will not be handed out as one.
    ghost predicate Apart(pages: PageAllocator)
      reads this, pages
    {
      !FreePage(pages.state, 0) && forall f :: f in own.Values ==> !FreePage(pages.state, f)
    }

    // mm_pgtable_get_va_pte; -1 for not mapped.
    method Lookup(va: nat) returns (pa: int)
      ensures pa == Translated(mem, root, va)
    {
      FollowThree(mem, root, PgdIndex(va), PudIndex(va), PmdIndex(va));
      var pgd := Tab(mem, root);
      if pgd[PgdIndex(va)] == 0 {
        return -1;
      }
      var pud := Tab(mem, Frame(pgd[PgdIndex(va)]));
      if pud[PudIndex(va)] == 0 {
        return -1;
      }
      var pmd := Tab(mem, Frame(pud[PudIndex(va)]));
      if pmd[PmdIndex(va)] == 0 {
        return -1;
      }
      var pte := Tab(mem, Frame(pmd[PmdIndex(va)]));
      if Frame(pte[PteIndex(va)]) == 0 && !IsPhysZero(va) {
        return -1;
      }
      return Frame(pte[PteIndex(va)]) * PAGE_SIZE;
    }

    // mm_phys_alloc for one table; -1 if no page is free.
    method TakeTable(pages: PageAllocator) returns (pa: int)
      requires pages.Valid() && Inv(pages.state) && pages.OthersOutside() && !FreePage(pages.state, 0)
      modifies pages`state, pages.links`lists, pages.links.next, pages.links.prev, pages.isFree
      ensures pages.Valid() && Inv(pages.state) && pages.OthersOutside()
      ensures pa == -1 <==> !HasFree(old(pages.state), 1)
      ensures pa == -1 ==> pages.state == old(pages.state)
      ensures pa != -1 ==>
        && pa > 0 && pa % PAGE_SIZE == 0
        && FreePage(old(pages.state), Frame(pa)) && !FreePage(pages.state, Frame(pa))
        && forall k: nat :: HasFree(old(pages.state), k + 1) <==> HasFree(pages.state, k)
      ensures forall i :: FreePage(pages.state, i) ==> FreePage(old(pages.state), i)
    {
      hide Alloc, Inv, HasFree;
      pa := pages.PhysAlloc(PAGE_SIZE);
      ghost var o: nat :| LeastOrder(PAGE_SIZE, o) && pages.state == Alloc(old(pages.state), o).0 &&
        pa == PageToPhys(Alloc(old(pages.state), o).1);
      OnePage(old(pages.state), o);
    }

    // A zeroed table at address pa, entered with the attributes.
    method NewTable(t: nat, i: nat, pa: nat, attr: nat, ghost p: seq<nat>, ghost good: bool)
      requires i < ENTRIES && Tab(mem, t)[i] == 0
      requires good ==> Valid() && p in own && |p| < 3 && t == own[p] && FreshTable(own, pa) && attr < PAGE_SIZE
      modifies this`mem, this`own
      ensures good ==>
        && Valid() && own == old(own)[p + [i] := Frame(pa)] && Frame(Tab(mem, t)[i]) == Frame(pa)
        && mem == Enter(old(mem), t, i, pa, attr)
        && forall va :: Flat(mem, own, va) == Flat(old(mem), old(own), va)
    {
      if good {
        OrKeepsFrame(pa, attr);
        EnterTree(mem, root, own, p, i, pa, attr);
        own := Grown(mem, own, p, i, pa);
        assert EntryOk(Enter(mem, t, i, pa, attr), own, p, i);
      }
      mem := Put(mem, t, i, pa);
      mem := mem[Frame(pa) := Zeros()];
      mem := Put(mem, t, i, Or(Tab(mem, t)[i], attr));
      assert good ==> mem == Enter(old(mem), t, i, pa, attr);
    }

    // One level of mm_pgtable_map: the table that entry i of table t points to,
    // created if need be. Without a free page the code clears memory at the address
    // that stands for failure, below the direct mapping: there it stops.
    //
    // good says that t is the table at path p of a tree, fine that next is one too.
    method EnsureTable(pages: PageAllocator, t: nat, i: nat, attr: nat, ghost p: seq<nat>, ghost good: bool)
      returns (stopped: bool, next: nat, ghost fine: bool, ghost addr: nat)
      requires pages.Valid() && Inv(pages.state) && pages.OthersOutside() && !FreePage(pages.state, 0)
      requires i < ENTRIES && (good ==> Valid() && Apart(pages) && p in own && |p| < 3 && t == own[p])
      modifies this`mem, this`own, pages`state, pages.links`lists, pages.links.next, pages.links.prev, pages.isFree
      ensures pages.Valid() && Inv(pages.state) && pages.OthersOutside() && !FreePage(pages.state, 0)
      ensures good && (attr < PAGE_SIZE || p + [i] in old(own)) ==>
        && (stopped <==> !HasFree(old(pages.state), Needed(old(own), p + [i])))
        && (!stopped ==> fine && forall k: nat ::
              HasFree(old(pages.state), k + Needed(old(own), p + [i])) <==> HasFree(pages.state, k))
      ensures fine ==> good && !stopped
      ensures fine ==>
        && Valid() && Apart(pages) && p + [i] in own && next == own[p + [i]]
        && own.Keys == old(own).Keys + {p + [i]}
        && mem == Enter(old(mem), t, i, addr, attr) && next == Frame(Tab(mem, t)[i])
        && forall va :: Flat(mem, own, va) == Flat(old(mem), old(own), va)
    {
      assert good ==> EntryOk(mem, own, p, i);
      NoneNeeded(pages.state);
      stopped, next, fine, addr := false, 0, good, 0;
      if Tab(mem, t)[i] == 0 {
        var pa := TakeTable(pages);
        if pa == -1 {
          mem := Put(mem, t, i, NO_PAGE);
          return true, 0, false, 0;
        }
        fine := good && attr < PAGE_SIZE;
        addr := pa;
        NewTable(t, i, pa, attr, p, fine);
      }
      next := Frame(Tab(mem, t)[i]);
    }

    // The three levels of mm_pgtable_map above the leaf.
    method EnsureTables(pages: PageAllocator, va: nat, attr: nat)
      returns (stopped: bool, pte: nat, ghost good: bool, ghost addrs: (nat, nat, nat))
      requires Valid() && pages.Valid() && Inv(pages.state) && pages.OthersOutside() && Apart(pages)
      modifies this`mem, this`own, pages`state, pages.links`lists, pages.links.next, pages.links.prev, pages.isFree
      ensures pages.Valid() && Inv(pages.state) && pages.OthersOutside()
      ensures attr < PAGE_SIZE || Lacking(old(own), va) == 0 ==>
        (stopped <==> !HasFree(old(pages.state), Lacking(old(own), va))) && (!stopped ==> good)
      ensures good ==>
        && !stopped && Valid() && Apart(pages) && Upper(va) in own && pte == own[Upper(va)]
        && (forall pa: nat :: Put(mem, pte, PteIndex(va), Or(pa, attr))
              == MapWith(old(mem), root, va, pa, attr, addrs.0, addrs.1, addrs.2))
        && forall vb :: Flat(mem, own, vb) == Flat(old(mem), old(own), vb)
    {
      hide HasFree, Inv, Flat, Enter, Or, Put, Tab, Frame, EntryOk, Unshared, Rooted;
      ghost var a, b, c := PgdIndex(va), PudIndex(va), PmdIndex(va);
      ghost var l1, l2, l3 := Needed(own, [a]), Needed(own, [a, b]), Needed(own, [a, b, c]);
      assert [] + [a] == [a] && [a] + [b] == [a, b] && [a, b] + [c] == [a, b, c] == Upper(va);
      ghost var s0 := pages.state;
      pte, addrs := 0, (0, 0, 0);
      var pud, pmd;
      ghost var addr1, addr2, addr3;
      stopped, pud, good, addr1 := EnsureTable(pages, root, PgdIndex(va), attr, [], true);
      Stopped(s0, l1, l2 + l3);
      if stopped {
        return;
      }
      ghost var s1 := pages.state;
      stopped, pmd, good, addr2 := EnsureTable(pages, pud, PudIndex(va), attr, [a], good);
      Stopped(s1, l2, l3);
      if stopped {
        return;
      }
      stopped, pte, good, addr3 := EnsureTable(pages, pmd, PmdIndex(va), attr, [a, b], good);
      addrs := (addr1, addr2, addr3);
      if !stopped {
        NoneNeeded(pages.state);
      }
    }

    // mm_pgtable_map. With attributes of the low twelve bits, or with all tables
    // there already: it stops exactly if fewer pages are free than tables are
    // missing; otherwise the page of va has the entry pa | attr afterwards, every other
    // page has the entry it had, and new tables are entered with the attributes.
    method Map(pages: PageAllocator, va: nat, pa: nat, attr: nat) returns (stopped: bool)
      requires Valid() && pages.Valid() && Inv(pages.state) && pages.OthersOutside() && Apart(pages)
      modifies this`mem, this`own, pages`state, pages.links`lists, pages.links.next, pages.links.prev, pages.isFree
      ensures pages.Valid() && Inv(pages.state) && pages.OthersOutside()
      ensures attr < PAGE_SIZE || Lacking(old(own), va) == 0 ==>
        && (stopped <==> !HasFree(old(pages.state), Lacking(old(own), va)))
        && (!stopped ==>
              && Valid() && Apart(pages)
              && (exists a: nat, b: nat, c: nat :: mem == MapWith(old(mem), root, va, pa, attr, a, b, c))
              && forall vb :: Pte(mem, root, vb)
                           == if PageNo(vb) == PageNo(va) then Or(pa, attr) else Pte(old(mem), root, vb))
    {
      var pte;
      ghost var good, addrs;
      stopped, pte, good, addrs := EnsureTables(pages, va, attr);
      if stopped {
        return;
      }
      SetLeaf(pte, va, pa, attr, good);
      if good {
        forall vb ensures Pte(mem, root, vb)
                       == if PageNo(vb) == PageNo(va) then Or(pa, attr) else Pte(old(mem), root, vb)
        {
          WalkIsFlat(mem, root, own, vb);
          WalkIsFlat(old(mem), root, old(own), vb);
        }
      }
    }

    // The last line of mm_pgtable_map.
    method SetLeaf(pte: nat, va: nat, pa: nat, attr: nat, ghost good: bool)
      requires good ==> Valid() && Upper(va) in own && pte == own[Upper(va)]
      modifies this`mem
      ensures mem == Put(old(mem), pte, PteIndex(va), Or(pa, attr))
      ensures good ==> Valid() && forall vb ::
                Flat(mem, own, vb) == if PageNo(vb) == PageNo(va) then Or(pa, attr) else Flat(old(mem), own, vb)
    {
      if good {
        PutLeaf(mem, root, own, va, Or(pa, attr));
      }
      mem := Put(mem, pte, PteIndex(va), Or(pa, attr));
    }
  }
}
