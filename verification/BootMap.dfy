/**
 The first kernel page table: boot_pgtable_map and the loops of
 boot_mm_pgtable_init in code/arch/x86/boot/mm_boot.c, with tables taken from the
 bump allocator. A failed table allocation yields address 0, which the code uses
 like any other; what one call then makes of it is in BootRefused.dfy.
*/
module BootMap {
  import opened Powers
  import opened BinaryDigits
  import opened PageSizes
  import opened LinearAlloc
  import opened PageTable
  import opened PageMap

  const PAGE_ATTR_P: nat := 1
  const PAGE_ATTR_RW: nat := 2

  // Size of the memory mapped at the direct mapping area at boot.
  const DIRECT_SIZE: nat := 0xa0_0000

  // Attributes of kernel page k: read-only below roseg, writable from there on.
  function KernelAttr(roseg: nat, k: nat): nat {
    if KERNEL_BASE_ADDR + k * PAGE_SIZE < roseg then PAGE_ATTR_P else Or(PAGE_ATTR_P, PAGE_ATTR_RW)
  }

  // The intended entry of page number n, once k pages of the kernel image and d
  // pages of the direct mapping are mapped.
  function Intended(roseg: nat, k: nat, d: nat, n: nat): nat {
    var kb, db := PageNo(KERNEL_BASE_ADDR), PageNo(KERNEL_DIRECT_MAPPING_AREA);
    if kb <= n < kb + k then Or((n - kb) * PAGE_SIZE, KernelAttr(roseg, n - kb))
    else if db <= n < db + d then Or((n - db) * PAGE_SIZE, Or(PAGE_ATTR_P, PAGE_ATTR_RW))
    else 0
  }

  // Page numbers of the pages the loops map; the two ranges are apart.
  lemma LoopPages(k: nat)
    ensures KERNEL_BASE_ADDR + k * PAGE_SIZE < WORD ==>
      PageNo(KERNEL_BASE_ADDR + k * PAGE_SIZE) == PageNo(KERNEL_BASE_ADDR) + k
    ensures k * PAGE_SIZE < DIRECT_SIZE ==>
      PageNo(KERNEL_DIRECT_MAPPING_AREA + k * PAGE_SIZE) == PageNo(KERNEL_DIRECT_MAPPING_AREA) + k
    ensures PageNo(KERNEL_DIRECT_MAPPING_AREA) + DIRECT_SIZE / PAGE_SIZE <= PageNo(KERNEL_BASE_ADDR)
  {
    hide PageNo;
    PageAt(0xffff, 0xf_fff8_1000, 0);
    PageAt(0xffff, 0x8_8800_0000, 0);
    if KERNEL_BASE_ADDR + k * PAGE_SIZE < WORD {
      PageAt(0xffff, 0xf_fff8_1000, k);
    }
    if k * PAGE_SIZE < DIRECT_SIZE {
      PageAt(0xffff, 0x8_8800_0000, k);
    }
  }

  lemma PageAt(upper: nat, page: nat, k: nat)
    requires page + k < 0x10_0000_0000
    ensures PageNo((upper * 0x10_0000_0000 + page + k) * PAGE_SIZE) == page + k
  {
    DivUnique((upper * 0x10_0000_0000 + page + k) * PAGE_SIZE, PAGE_SIZE, upper * 0x10_0000_0000 + page + k, 0);
    DivUnique(upper * 0x10_0000_0000 + page + k, 0x10_0000_0000, upper, page + k);
  }

  lemma KernelPageAdded(roseg: nat, k: nat, n: nat)
    ensures Intended(roseg, k + 1, 0, n)
         == if n == PageNo(KERNEL_BASE_ADDR) + k then Or(k * PAGE_SIZE, KernelAttr(roseg, k))
            else Intended(roseg, k, 0, n)
  {
  }

  lemma DirectPageAdded(roseg: nat, k: nat, d: nat, n: nat)
    requires d < DIRECT_SIZE / PAGE_SIZE
    ensures Intended(roseg, k, d + 1, n)
         == if n == PageNo(KERNEL_DIRECT_MAPPING_AREA) + d then Or(d * PAGE_SIZE, 3) else Intended(roseg, k, d, n)
  {
    LoopPages(0);
    OrAttributes();
  }

  // ------------------------------------------------ the first table, by its bits

  // The word of a page that is mapped to a frame: bit 0 says present, bit 1 writable.
  predicate MappedTo(entry: nat, frame: nat, writable: bool) {
    entry == frame * PAGE_SIZE + 1 + if writable then 2 else 0
  }

  // Addresses in the form that the processor takes: the upper 17 bits agree.
  predicate Canonical(va: nat) {
    va < 0x8000_0000_0000 || 0xffff_8000_0000_0000 <= va < WORD
  }

  // What walks through the root entries other than the first one find: the image from
  // KERNEL_BASE_ADDR up to kend, writable from roseg on, the first 10 MB of memory,
  // writable, and nothing else.
  ghost predicate Booted(m: Memory, root: nat, roseg: nat, kend: nat) {
    forall va: nat :: Canonical(va) && PgdIndex(va) != 0 ==> BootedAt(Pte(m, root, va), roseg, kend, va)
  }

  predicate BootedAt(entry: nat, roseg: nat, kend: nat, va: nat) {
    if KERNEL_BASE_ADDR <= va < kend then
      MappedTo(entry, (va - KERNEL_BASE_ADDR) / PAGE_SIZE, va >= roseg)
    else if KERNEL_DIRECT_MAPPING_AREA <= va < KERNEL_DIRECT_MAPPING_AREA + 0xa0_0000 then
      MappedTo(entry, (va - KERNEL_DIRECT_MAPPING_AREA) / PAGE_SIZE, true)
    else entry == 0
  }

  lemma IntendedBits(roseg: nat, kend: nat, va: nat)
    requires KERNEL_BASE_ADDR <= roseg <= kend < WORD && roseg % PAGE_SIZE == 0 && kend % PAGE_SIZE == 0
    requires Canonical(va)
    ensures BootedAt(Intended(roseg, (kend - KERNEL_BASE_ADDR) / PAGE_SIZE, DIRECT_SIZE / PAGE_SIZE, PageNo(va)),
              roseg, kend, va)
  {
    hide Or;
    OrAttributes();
    PageNoCanonical(va);
    if KERNEL_BASE_ADDR <= va < kend {
      var k := (va - KERNEL_BASE_ADDR) / PAGE_SIZE;
      AttributesAdd(k, KernelAttr(roseg, k));
    } else if KERNEL_DIRECT_MAPPING_AREA <= va < KERNEL_DIRECT_MAPPING_AREA + DIRECT_SIZE {
      AttributesAdd((va - KERNEL_DIRECT_MAPPING_AREA) / PAGE_SIZE, 3);
    }
  }

  // The page numbers of the two halves of the address space.
  lemma PageNoCanonical(va: nat)
    requires Canonical(va)
    ensures PageNo(va) == if va < 0x8000_0000_0000 then va / PAGE_SIZE
                          else (va - 0xffff_8000_0000_0000) / PAGE_SIZE + 0x8_0000_0000
    ensures PageNo(KERNEL_BASE_ADDR) == 0xf_fff8_1000 && PageNo(KERNEL_DIRECT_MAPPING_AREA) == 0x8_8800_0000
  {
  }

  lemma AttributesAdd(n: nat, attr: nat)
    requires attr < 4
    ensures Or(n * PAGE_SIZE, attr) == n * PAGE_SIZE + attr
  {
    assert Pow2(12) == PAGE_SIZE;
    OrAdds(n, attr, 12);
  }

  // So the lookup of an address in the image or in the first 10 MB gives its physical
  // page; in page 0, of the first byte only.
  lemma BootLookup(m: Memory, root: nat, roseg: nat, kend: nat, base: nat, va: nat)
    requires Booted(m, root, roseg, kend) && KERNEL_BASE_ADDR <= kend < WORD
    requires (base == KERNEL_BASE_ADDR && base <= va < kend)
      || (base == KERNEL_DIRECT_MAPPING_AREA && base <= va < base + 0xa0_0000)
    ensures Translated(m, root, va) ==
      if base < va < base + PAGE_SIZE then -1 else (va - base) / PAGE_SIZE * PAGE_SIZE
  {
    hide Follow, Tab;
    assert PgdIndex(va) != 0;
    assert BootedAt(Pte(m, root, va), roseg, kend, va);
    var n := (va - base) / PAGE_SIZE;
    FrameAdds(n, Pte(m, root, va) - PAGE_SIZE * n);
  }

  // It is the direct mapping that the slab allocator's addresses are for.
  lemma BootDirect(m: Memory, root: nat, roseg: nat, kend: nat)
    requires Booted(m, root, roseg, kend) && KERNEL_BASE_ADDR <= kend < WORD
    ensures DirectMapping(m, root, DIRECT_SIZE / PAGE_SIZE)
  {
    hide Pte;
    forall f: nat | f < DIRECT_SIZE / PAGE_SIZE ensures MapsFrame(m, root, f) {
      var va := KERNEL_DIRECT_MAPPING_AREA + f * PAGE_SIZE;
      assert Canonical(va) && PgdIndex(va) != 0 && BootedAt(Pte(m, root, va), roseg, kend, va);
      FrameAdds(f, 3);
    }
  }

  // Every entry of every table is empty or present: no walk ends at an entry that the
  // processor does not follow.
  ghost predicate AllPresent(m: Memory) {
    forall f: nat, i: nat :: i < ENTRIES ==> Tab(m, f)[i] == 0 || Tab(m, f)[i] % 2 == 1
  }

  // ------------------------------------------------------- one call, on values

  // Memory, the bump pointer, and the table come to.
  datatype Walked = Walked(mem: Memory, start: nat, at: nat)

  // A table at address pa: entered, zeroed, and the attributes added.
  function WithTable(m: Memory, t: nat, i: nat, pa: nat, attr: nat): Memory
    requires i < ENTRIES
  {
    var e := Put(m, t, i, pa)[Frame(pa) := Zeros()];
    Put(e, t, i, Or(Tab(e, t)[i], attr))
  }

  // One level of boot_pgtable_map. A table that is missing is taken at the bump
  // pointer if a page below total is left behind it, and otherwise is at address 0.
  function Level(w: Walked, total: nat, i: nat, attr: nat): Walked
    requires i < ENTRIES
  {
    if Tab(w.mem, w.at)[i] != 0 then w.(at := Frame(Tab(w.mem, w.at)[i]))
    else
      var granted := w.start + PAGE_SIZE < total;
      var m := WithTable(w.mem, w.at, i, if granted then w.start else 0, attr);
      Walked(m, if granted then w.start + PAGE_SIZE else w.start, Frame(Tab(m, w.at)[i]))
  }

  function Levels(w: Walked, total: nat, path: seq<nat>, attr: nat): Walked
    requires forall i :: 0 <= i < |path| ==> path[i] < ENTRIES
    decreases |path|
  {
    if path == [] then w else Levels(Level(w, total, path[0], attr), total, path[1..], attr)
  }

  // Memory after boot_pgtable_map.
  function Mapped(m: Memory, root: nat, start: nat, total: nat, va: nat, pa: nat, attr: nat): Memory {
    var w := Levels(Walked(m, start, root), total, Upper(va), attr);
    Put(w.mem, w.at, PteIndex(va), Or(pa, attr))
  }

  lemma ThreeLevels(w: Walked, total: nat, a: nat, b: nat, c: nat, attr: nat)
    requires a < ENTRIES && b < ENTRIES && c < ENTRIES
    ensures Levels(w, total, [a, b, c], attr) ==
      Level(Level(Level(w, total, a, attr), total, b, attr), total, c, attr)
  {
    hide Level;
    assert [a, b, c][1..] == [b, c] && [b, c][1..] == [c] && [c][1..] == [];
    var u := Level(w, total, a, attr);
    var v := Level(u, total, b, attr);
    assert Levels(v, total, [c], attr) == Levels(Level(v, total, c, attr), total, [], attr);
    assert Levels(u, total, [b, c], attr) == Levels(v, total, [c], attr);
  }

  lemma PutTwice(m: Memory, t: nat, i: nat, x: nat, y: nat)
    requires i < ENTRIES
    ensures Put(Put(m, t, i, x), t, i, y) == Put(m, t, i, y)
  {
    assert Tab(m, t)[i := x][i := y] == Tab(m, t)[i := y];
  }

  lemma PutPresent(m: Memory, t: nat, i: nat, entry: nat)
    requires AllPresent(m) && i < ENTRIES && (entry == 0 || entry % 2 == 1)
    ensures AllPresent(Put(m, t, i, entry))
  {
    var after := Put(m, t, i, entry);
    forall f: nat, j: nat | j < ENTRIES ensures Tab(after, f)[j] == 0 || Tab(after, f)[j] % 2 == 1 {
      assert Tab(m, f)[j] == 0 || Tab(m, f)[j] % 2 == 1;
    }
  }

  lemma ZerosPresent(m: Memory, f: nat)
    requires AllPresent(m)
    ensures AllPresent(m[f := Zeros()])
  {
    var after := m[f := Zeros()];
    forall g: nat, j: nat | j < ENTRIES ensures Tab(after, g)[j] == 0 || Tab(after, g)[j] % 2 == 1 {
      assert Tab(m, g)[j] == 0 || Tab(m, g)[j] % 2 == 1;
    }
  }

  lemma OrPresent(a: nat, attr: nat)
    requires attr % 2 == 1
    ensures Or(a, attr) % 2 == 1
  {
  }

  // The address written first does not show in the end.
  lemma WithTableWrites(m: Memory, t: nat, i: nat, pa: nat, attr: nat)
    requires i < ENTRIES
    ensures WithTable(m, t, i, pa, attr) ==
      Put(m[Frame(pa) := Zeros()], t, i, Or(if Frame(pa) == t then 0 else pa, attr))
  {
    hide Or;
    var e := Put(m, t, i, pa)[Frame(pa) := Zeros()];
    var x := Or(Tab(e, t)[i], attr);
    var u := m[Frame(pa) := Zeros()];
    assert Tab(e, t)[i := x] == Tab(u, t)[i := x];
  }

  lemma LevelPresent(w: Walked, total: nat, i: nat, attr: nat)
    requires AllPresent(w.mem) && i < ENTRIES && attr % 2 == 1
    ensures AllPresent(Level(w, total, i, attr).mem)
  {
    hide Or, AllPresent, WithTable;
    if Tab(w.mem, w.at)[i] == 0 {
      var pa := if w.start + PAGE_SIZE < total then w.start else 0;
      var entry := Or(if Frame(pa) == w.at then 0 else pa, attr);
      OrPresent(if Frame(pa) == w.at then 0 else pa, attr);
      WithTableWrites(w.mem, w.at, i, pa, attr);
      ZerosPresent(w.mem, Frame(pa));
      PutPresent(w.mem[Frame(pa) := Zeros()], w.at, i, entry);
    }
  }

  lemma MappedPresent(m: Memory, root: nat, start: nat, total: nat, va: nat, pa: nat, attr: nat)
    requires AllPresent(m) && attr % 2 == 1
    ensures AllPresent(Mapped(m, root, start, total, va, pa, attr))
  {
    hide Level, Or, AllPresent;
    var w := Walked(m, start, root);
    ThreeLevels(w, total, PgdIndex(va), PudIndex(va), PmdIndex(va), attr);
    LevelPresent(w, total, PgdIndex(va), attr);
    var u := Level(w, total, PgdIndex(va), attr);
    LevelPresent(u, total, PudIndex(va), attr);
    var v := Level(u, total, PudIndex(va), attr);
    LevelPresent(v, total, PmdIndex(va), attr);
    var z := Level(v, total, PmdIndex(va), attr);
    OrPresent(pa, attr);
    PutPresent(z.mem, z.at, PteIndex(va), Or(pa, attr));
  }

  // Unless a table is put over the one that it is entered in.
  lemma WithTableEnters(m: Memory, t: nat, i: nat, pa: nat, attr: nat)
    requires i < ENTRIES && Tab(m, t)[i] == 0 && Frame(pa) != t
    ensures WithTable(m, t, i, pa, attr) == Enter(m, t, i, pa, attr)
  {
  }

  class BootTables {
    var mem: Memory
    var root: nat
    const pages: BootAllocator
    ghost var own: Owners
    ghost var failed: bool  // some allocation has returned NULL
    ghost var astray: bool  // some table was entered with attributes above the low twelve bits

    constructor (pages: BootAllocator)
      ensures this.pages == pages && fresh(this)
    {
      this.pages := pages;
      mem, root, own, failed, astray := map[], 0, map[], true, false;
    }

    // The bump pointer is at a whole page above 0, and sums with it do not wrap.
    ghost predicate PagesOk()
      reads this, pages
    {
      && pages.start > 0 && pages.start % PAGE_SIZE == 0
      && pages.start + 2 * PAGE_SIZE <= WORD && pages.total + 2 * PAGE_SIZE <= WORD
    }

    // There is room for n more pages.
    ghost predicate Room(n: nat)
      reads this, pages
    {
      n == 0 || pages.start + n * PAGE_SIZE < pages.total
    }

    ghost predicate Sound()
      reads this`failed, this`astray
    {
      !failed && !astray
    }

    // Unless an allocation failed, which takes an exhausted allocator, or attributes
    // were out of range: a tree of tables, none in frame 0, all below the bump pointer.
    ghost predicate Good()
      reads this, pages
    {
      && PagesOk()
      && (failed ==> !Room(1))
      && (Sound() ==> Tree(mem, root, own) && forall f :: f in own.Values ==> 0 < f < Frame(pages.start))
    }

    // boot_mm_alloc for one table.
    method TakeTable() returns (pa: nat)
      requires PagesOk()
      modifies pages
      ensures PagesOk()
      ensures pa == 0 <==> !old(Room(1))
      ensures pa == 0 ==> pages.start == old(pages.start)
      ensures pa != 0 ==> pa == old(pages.start) && pages.start == pa + PAGE_SIZE
    {
      assert Align64(PAGE_SIZE) == PAGE_SIZE;
      pa := pages.Alloc(PAGE_SIZE);
    }

    // A zeroed table at address pa, entered with the attributes.
    method NewTable(t: nat, i: nat, pa: nat, attr: nat, ghost p: seq<nat>)
      requires i < ENTRIES && Tab(mem, t)[i] == 0
      requires Sound() ==> Tree(mem, root, own) && p in own && |p| < 3 && t == own[p] && FreshTable(own, pa)
      requires attr >= PAGE_SIZE ==> !Sound()
      modifies this`mem, this`own
      ensures mem == WithTable(old(mem), t, i, pa, attr)
      ensures Sound() ==>
        && Tree(mem, root, own) && own == old(own)[p + [i] := Frame(pa)] && Frame(Tab(mem, t)[i]) == Frame(pa)
        && forall va :: Flat(mem, own, va) == Flat(old(mem), old(own), va)
    {
      if Sound() {
        OrKeepsFrame(pa, attr);
        EnterTree(mem, root, own, p, i, pa, attr);
        own := Grown(mem, own, p, i, pa);
        assert EntryOk(Enter(mem, t, i, pa, attr), own, p, i);
      }
      mem := Put(mem, t, i, pa);
      mem := mem[Frame(pa) := Zeros()];
      mem := Put(mem, t, i, Or(Tab(mem, t)[i], attr));
      assert Sound() ==> mem == Enter(old(mem), t, i, pa, attr);
    }

    // One level of boot_pgtable_map.
    method EnsureTable(t: nat, i: nat, attr: nat, ghost p: seq<nat>) returns (next: nat)
      requires Good() && i < ENTRIES
      requires Sound() ==> p in own && |p| < 3 && t == own[p]
      modifies this`mem, this`own, this`failed, this`astray, pages
      ensures Good() && (old(failed) ==> failed) && (old(astray) ==> astray)
      ensures old(pages.start) <= pages.start <= old(pages.start) + PAGE_SIZE
      ensures Walked(mem, pages.start, next)
           == Level(Walked(old(mem), old(pages.start), t), pages.total, i, attr)
      ensures attr < PAGE_SIZE ==> astray == old(astray)
      ensures old(Sound()) && (attr < PAGE_SIZE || p + [i] in old(own)) ==>
        && (failed <==> !old(Room(Needed(own, p + [i]))))
        && (!failed ==> Sound() && pages.start == old(pages.start) + Needed(old(own), p + [i]) * PAGE_SIZE)
      ensures Sound() ==>
        && p + [i] in own && next == own[p + [i]] && own.Keys == old(own).Keys + {p + [i]}
        && forall va :: Flat(mem, own, va) == Flat(old(mem), old(own), va)
    {
      assert Sound() ==> EntryOk(mem, own, p, i);
      if Tab(mem, t)[i] == 0 {
        var pa := TakeTable();
        failed := failed || pa == 0;
        astray := astray || attr >= PAGE_SIZE;
        NewTable(t, i, pa, attr, p);
        if Sound() {
          forall f | f in own.Values ensures 0 < f < Frame(pages.start) {
            assert f == Frame(pa) || f in old(own).Values;
          }
        }
      }
      next := Frame(Tab(mem, t)[i]);
    }

    // The three levels of boot_pgtable_map above the leaf.
    method EnsureTables(va: nat, attr: nat) returns (pte: nat)
      requires Good()
      modifies this`mem, this`own, this`failed, this`astray, pages
      ensures Good() && (old(failed) ==> failed) && (old(astray) ==> astray)
      ensures old(pages.start) <= pages.start <= old(pages.start) + 3 * PAGE_SIZE
      ensures Walked(mem, pages.start, pte)
           == Levels(Walked(old(mem), old(pages.start), root), pages.total, Upper(va), attr)
      ensures attr < PAGE_SIZE ==> astray == old(astray)
      ensures old(Sound()) && (attr < PAGE_SIZE || Lacking(old(own), va) == 0) ==>
        (failed <==> !old(Room(Lacking(own, va)))) && !astray
      ensures Sound() ==>
        && Upper(va) in own && pte == own[Upper(va)]
        && forall vb :: Flat(mem, own, vb) == Flat(old(mem), old(own), vb)
    {
      hide Level, Flat;
      ghost var a, b, c := PgdIndex(va), PudIndex(va), PmdIndex(va);
      assert [] + [a] == [a] && [a] + [b] == [a, b] && [a, b] + [c] == [a, b, c] == Upper(va);
      var pud := EnsureTable(root, PgdIndex(va), attr, []);
      var pmd := EnsureTable(pud, PudIndex(va), attr, [a]);
      pte := EnsureTable(pmd, PmdIndex(va), attr, [a, b]);
      ThreeLevels(Walked(old(mem), old(pages.start), root), pages.total, a, b, c, attr);
    }

    // boot_pgtable_map. With attributes of the low twelve bits, or with all tables
    // there already, a table allocation fails exactly if there is no room for the
    // tables missing. If none does, the page of va has the entry pa | attr, and
    // every other page has the entry it had. Whatever fails, memory is as the three
    // levels leave it: BootRefused.MappedIff says when that is the map intended.
    method Map(va: nat, pa: nat, attr: nat)
      requires Good()
      modifies this`mem, this`own, this`failed, this`astray, pages
      ensures Good() && (old(failed) ==> failed)
      ensures old(pages.start) <= pages.start <= old(pages.start) + 3 * PAGE_SIZE
      ensures mem == Mapped(old(mem), root, old(pages.start), pages.total, va, pa, attr)
      ensures attr % 2 == 1 && old(AllPresent(mem)) ==> AllPresent(mem)
      ensures attr < PAGE_SIZE ==> astray == old(astray)
      ensures old(Sound()) && (attr < PAGE_SIZE || Lacking(old(own), va) == 0) ==>
        (failed <==> !old(Room(Lacking(own, va)))) && !astray
      ensures Sound() ==> forall vb ::
                Flat(mem, own, vb) == if PageNo(vb) == PageNo(va) then Or(pa, attr) else Flat(old(mem), old(own), vb)
    {
      var pte := EnsureTables(va, attr);
      if Sound() {
        PutLeaf(mem, root, own, va, Or(pa, attr));
      }
      mem := Put(mem, pte, PteIndex(va), Or(pa, attr));
      if attr % 2 == 1 && old(AllPresent(mem)) {
        MappedPresent(old(mem), root, old(pages.start), pages.total, va, pa, attr);
      }
    }

    // The flat map holds the first k kernel pages and the first d direct pages.
    ghost predicate Built(roseg: nat, k: nat, d: nat)
      reads this
    {
      forall va :: Flat(mem, own, va) == Intended(roseg, k, d, PageNo(va))
    }

    // The body of the loops: page k of the image, or page d of the direct mapping.
    method MapNext(va: nat, pa: nat, attr: nat, ghost roseg: nat, ghost k: nat, ghost d: nat, ghost kernel: bool)
      requires Good() && (Sound() ==> Built(roseg, k, d)) && AllPresent(mem) && attr < PAGE_SIZE && attr % 2 == 1
      requires kernel ==>
        d == 0 && va == KERNEL_BASE_ADDR + pa < WORD && pa == k * PAGE_SIZE && attr == KernelAttr(roseg, k)
      requires !kernel ==> va == KERNEL_DIRECT_MAPPING_AREA + pa && pa == d * PAGE_SIZE < DIRECT_SIZE && attr == 3
      requires KERNEL_BASE_ADDR + k * PAGE_SIZE < WORD
      modifies this`mem, this`own, this`failed, this`astray, pages
      ensures Good() && AllPresent(mem) && astray == old(astray)
      ensures old(pages.start) <= pages.start <= old(pages.start) + 3 * PAGE_SIZE
      ensures Sound() ==> if kernel then Built(roseg, k + 1, d) else Built(roseg, k, d + 1)
    {
      LoopPages(k);
      LoopPages(d);
      Map(va, pa, attr);
      forall vb
        ensures Sound() && kernel ==> Flat(mem, own, vb) == Intended(roseg, k + 1, d, PageNo(vb))
        ensures Sound() && !kernel ==> Flat(mem, own, vb) == Intended(roseg, k, d + 1, PageNo(vb))
      {
        if kernel {
          KernelPageAdded(roseg, k, PageNo(vb));
        } else {
          DirectPageAdded(roseg, k, d, PageNo(vb));
        }
      }
    }

    // The loop over the pages of the image up to address end, all of one kind.
    method MapImage(virt0: nat, phys0: nat, end: nat, attr: nat, ghost roseg: nat, ghost k0: nat)
      returns (virt: nat, phys: nat)
      requires Good() && (Sound() ==> Built(roseg, k0, 0)) && AllPresent(mem) && attr < PAGE_SIZE && attr % 2 == 1
      requires phys0 == k0 * PAGE_SIZE && virt0 == KERNEL_BASE_ADDR + phys0 <= end < WORD && end % PAGE_SIZE == 0
      requires forall k :: k0 <= k && KERNEL_BASE_ADDR + k * PAGE_SIZE < end ==> attr == KernelAttr(roseg, k)
      modifies this`mem, this`own, this`failed, this`astray, pages
      ensures Good() && AllPresent(mem) && astray == old(astray)
      ensures phys % PAGE_SIZE == 0 && virt == KERNEL_BASE_ADDR + phys == end
      ensures Sound() ==> Built(roseg, phys / PAGE_SIZE, 0)
      ensures pages.start <= old(pages.start) + 3 * (phys - phys0)
    {
      ghost var k := k0;
      virt, phys := virt0, phys0;
      while virt < end
        invariant k >= k0 && phys == k * PAGE_SIZE && virt == KERNEL_BASE_ADDR + phys <= end
        invariant Good() && AllPresent(mem) && astray == old(astray) && (Sound() ==> Built(roseg, k, 0))
        invariant pages.start <= old(pages.start) + 3 * (phys - phys0)
      {
        MapNext(virt, phys, attr, roseg, k, 0, true);
        virt := virt + PAGE_SIZE;
        phys := phys + PAGE_SIZE;
        k := k + 1;
      }
    }

    // The loop over the pages of the temporary direct mapping.
    method MapDirect(ghost roseg: nat, ghost k: nat, attr: nat)
      requires Good() && (Sound() ==> Built(roseg, k, 0)) && AllPresent(mem) && attr == 3
      requires KERNEL_BASE_ADDR + k * PAGE_SIZE < WORD
      modifies this`mem, this`own, this`failed, this`astray, pages
      ensures Good() && AllPresent(mem) && astray == old(astray)
      ensures Sound() ==> Built(roseg, k, DIRECT_SIZE / PAGE_SIZE)
      ensures pages.start <= old(pages.start) + 3 * DIRECT_SIZE
    {
      ghost var d := 0;
      var virt, phys := KERNEL_DIRECT_MAPPING_AREA, 0;
      while phys < DIRECT_SIZE
        invariant phys == d * PAGE_SIZE <= DIRECT_SIZE && virt == KERNEL_DIRECT_MAPPING_AREA + phys
        invariant Good() && AllPresent(mem) && astray == old(astray) && (Sound() ==> Built(roseg, k, d))
        invariant pages.start <= old(pages.start) + 3 * phys
      {
        MapNext(virt, phys, attr, roseg, k, d, false);
        virt := virt + PAGE_SIZE;
        phys := phys + PAGE_SIZE;
        d := d + 1;
      }
    }

    // A zeroed page for the root table.
    method NewRoot(ghost roseg: nat)
      requires PagesOk()
      modifies this, pages
      ensures Good() && AllPresent(mem) && !astray && old(pages.start) <= pages.start <= old(pages.start) + PAGE_SIZE
      ensures Sound() ==> Built(roseg, 0, 0)
    {
      var pa := TakeTable();
      failed, astray := pa == 0, false;
      root := Frame(pa);
      mem := map[root := Zeros()];
      own := map[[] := root];
      assert own[[]] == root;
    }

    // The identity mapping of boot.S is entered in slot 0 of the root.
    method SetSlotZero(slot0: nat, attr: nat)
      requires Sound() ==> Tree(mem, root, own)
      modifies this`mem
      ensures Tab(mem, root)[0] == Or(slot0, attr)
      ensures attr % 2 == 1 && old(AllPresent(mem)) ==> AllPresent(mem)
      ensures Sound() ==> forall va :: PgdIndex(va) != 0 ==> Pte(mem, root, va) == Flat(old(mem), own, va)
    {
      mem := Put(mem, root, 0, slot0);
      mem := Put(mem, root, 0, Or(Tab(mem, root)[0], attr));
      PutTwice(old(mem), root, 0, slot0, Or(slot0, attr));
      if attr % 2 == 1 && old(AllPresent(mem)) {
        OrPresent(slot0, attr);
        PutPresent(old(mem), root, 0, Or(slot0, attr));
      }
      if Sound() {
        forall va | PgdIndex(va) != 0 ensures Pte(mem, root, va) == Flat(old(mem), own, va) {
          SlotZeroApart(old(mem), mem, root, own, va);
        }
      }
    }

    // boot_mm_pgtable_init up to the load of CR3. The image ends at kend, its
    // read-only part at roseg; the table of boot.S for slot 0 is at address slot0.
    method Init(roseg: nat, kend: nat, slot0: nat)
      requires PagesOk()
      requires KERNEL_BASE_ADDR <= roseg <= kend < WORD && roseg % PAGE_SIZE == 0 && kend % PAGE_SIZE == 0
      modifies this, pages
      ensures !failed ==> Booted(mem, root, roseg, kend)
      ensures !failed ==> forall va :: PgdIndex(va) != 0 ==>
                Pte(mem, root, va) == Intended(roseg, (kend - KERNEL_BASE_ADDR) / PAGE_SIZE,
                                               DIRECT_SIZE / PAGE_SIZE, PageNo(va))
      ensures AllPresent(mem)
      // An allocation failed only if memory ran out; every page mapped takes at
      // most three tables.
      ensures failed ==> !Room(1)
      ensures pages.start <= old(pages.start) + PAGE_SIZE + 3 * (kend - KERNEL_BASE_ADDR + DIRECT_SIZE)
      ensures Tab(mem, root)[0] == Or(slot0, Or(PAGE_ATTR_P, PAGE_ATTR_RW))
    {
      hide Intended, Tree, Flat, Pte, Tab, AllPresent, BootedAt;
      OrAttributes();
      var rw := Or(PAGE_ATTR_P, PAGE_ATTR_RW);
      NewRoot(roseg);
      var virt, phys := MapImage(KERNEL_BASE_ADDR, 0, roseg, PAGE_ATTR_P, roseg, 0);
      virt, phys := MapImage(virt, phys, kend, rw, roseg, phys / PAGE_SIZE);
      MapDirect(roseg, phys / PAGE_SIZE, rw);
      SetSlotZero(slot0, rw);
      forall va: nat | !failed && Canonical(va) && PgdIndex(va) != 0
        ensures BootedAt(Pte(mem, root, va), roseg, kend, va)
      {
        IntendedBits(roseg, kend, va);
      }
    }
  }

  lemma OrAttributes()
    ensures Or(PAGE_ATTR_P, PAGE_ATTR_RW) == 3
  {
  }

  // Rewriting root entry 0 does not affect walks through other root entries.
  lemma SlotZeroApart(m: Memory, m': Memory, root: nat, own: Owners, va: nat)
    requires Tree(m, root, own) && PgdIndex(va) != 0
    requires forall f :: f != root ==> Tab(m', f) == Tab(m, f)
    requires forall i :: 0 < i < ENTRIES ==> Tab(m', root)[i] == Tab(m, root)[i]
    ensures Pte(m', root, va) == Flat(m, own, va)
  {
    var a, b, c := PgdIndex(va), PudIndex(va), PmdIndex(va);
    WalkIsFlat(m, root, own, va);
    FollowThree(m, root, a, b, c);
    FollowThree(m', root, a, b, c);
    assert [] + [a] == [a] && [a] + [b] == [a, b] && [a, b] + [c] == [a, b, c];
    assert EntryOk(m, own, [], a);
    if [a] in own {
      assert Unshared(own, [], [a]) && EntryOk(m, own, [a], b);
      if [a, b] in own {
        assert Unshared(own, [], [a, b]) && EntryOk(m, own, [a, b], c);
        if [a, b, c] in own {
          assert Unshared(own, [], [a, b, c]);
        }
      }
    }
  }
}
