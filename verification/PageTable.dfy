/**
 Four-level page tables: code/include/mm/page_table.h and the walks of
 code/mm/pgtable.c, code/mm/mm_init.c and code/arch/x86/boot/mm_boot.c. The
 format is 4-level paging, section 4.5 of the Intel SDM, volume 3A.

 A radix tree of tables is shown to be a flat map from page number to raw entry.
*/
module PageTable {
  import opened Powers
  import opened BinaryDigits
  import opened PageSizes

  // ------------------------------------------------------------------- words

  // Bitwise or.
  function Or(a: nat, b: nat): nat
    decreases a + b
  {
    if a == 0 then b
    else if b == 0 then a
    else (if a % 2 == 1 || b % 2 == 1 then 1 else 0) + 2 * Or(a / 2, b / 2)
  }

  lemma {:induction false} OrAtLeast(a: nat, b: nat)
    ensures Or(a, b) >= a
    decreases a + b
  {
    if a != 0 && b != 0 {
      OrAtLeast(a / 2, b / 2);
    }
  }

  // Attribute bits below 2^k do not reach the bits from k on.
  lemma {:induction false} OrShift(a: nat, b: nat, k: nat, d: nat)
    requires d == Pow2(k) && b < d
    ensures Or(a, b) / d == a / d
    decreases k
  {
    if a == 0 || b == 0 {
      assert b / d == 0 by { DivSmall(b, d); }
    } else if k > 0 {
      var h := Pow2(k - 1);
      OrShift(a / 2, b / 2, k - 1, h);
      assert Or(a, b) / 2 == Or(a / 2, b / 2);
      DivTwice(Or(a, b), h);
      DivTwice(a, h);
    }
  }

  lemma OrHalves(a: nat, b: nat)
    ensures Or(a, b) / 2 == Or(a / 2, b / 2)
    ensures Or(a, b) % 2 == 1 <==> a % 2 == 1 || b % 2 == 1
  {
  }

  // Bit k of the or is set if it is in either.
  lemma {:induction false} OrBits(a: nat, b: nat, k: nat)
    ensures Digit(Or(a, b), k) <==> Digit(a, k) || Digit(b, k)
    decreases k
  {
    hide Or;
    OrHalves(a, b);
    if k > 0 {
      OrBits(a / 2, b / 2, k - 1);
    }
  }

  lemma DivSmall(b: nat, d: nat)
    requires b < d
    ensures b / d == 0
  {
  }

  lemma DivTwice(x: nat, h: nat)
    requires h > 0
    ensures x / (2 * h) == x / 2 / h
  {
    var q, r := x / 2 / h, x / 2 % h;
    assert x / 2 == q * h + r;
    assert x == q * (2 * h) + (2 * r + x % 2);
    DivUnique(x, 2 * h, q, 2 * r + x % 2);
  }

  // The frame an entry points to: the entry & PAGE_MASK, as a frame number.
  function Frame(entry: nat): nat { entry / PAGE_SIZE }

  lemma OrKeepsFrame(pa: nat, attr: nat)
    requires attr < PAGE_SIZE
    ensures Frame(Or(pa, attr)) == Frame(pa)
  {
    assert Pow2(12) == 4096;
    OrShift(pa, attr, 12, 4096);
  }

  // ----------------------------------------------------------------- addresses

  const ENTRIES: nat := 512

  // PTE_ENTRY, PMD_ENTRY, PUD_ENTRY and PGD_ENTRY.
  function PteIndex(va: nat): (i: nat) ensures i < ENTRIES { va / 0x1000 % ENTRIES }
  function PmdIndex(va: nat): (i: nat) ensures i < ENTRIES { va / 0x20_0000 % ENTRIES }
  function PudIndex(va: nat): (i: nat) ensures i < ENTRIES { va / 0x4000_0000 % ENTRIES }
  function PgdIndex(va: nat): (i: nat) ensures i < ENTRIES { va / 0x80_0000_0000 % ENTRIES }

  // The number of the page that va is in, in the 48-bit address space.
  function PageNo(va: nat): nat { va / 0x1000 % 0x10_0000_0000 }

  // The four indices are the digits of the page number, so together they
  // determine it and are determined by it.
  lemma PageNoDigits(va: nat)
    ensures PageNo(va) == ((PgdIndex(va) * ENTRIES + PudIndex(va)) * ENTRIES + PmdIndex(va)) * ENTRIES + PteIndex(va)
  {
    UpperDigits(va);
    LowDigit(va / 0x1000);
    LowDigit3(va / 0x1000 / 512);
    LowDigit2(va / 0x1000 / 512 / 512);
  }

  // One digit split off numbers of four, three and two digits in base 512.
  lemma LowDigit(n: nat)
    ensures n % 0x10_0000_0000 == n / 512 % 0x800_0000 * 512 + n % 512
  {
  }

  lemma LowDigit3(n: nat)
    ensures n % 0x800_0000 == n / 512 % 0x4_0000 * 512 + n % 512
  {
  }

  lemma LowDigit2(n: nat)
    ensures n % 0x4_0000 == n / 512 % 512 * 512 + n % 512
  {
  }

  lemma UpperDigits(va: nat)
    ensures va / 0x20_0000 == va / 0x1000 / 512
    ensures va / 0x4000_0000 == va / 0x1000 / 512 / 512
    ensures va / 0x80_0000_0000 == va / 0x1000 / 512 / 512 / 512
  {
  }

  // Indices from the root down to the leaf table of va.
  function Upper(va: nat): seq<nat> { [PgdIndex(va), PudIndex(va), PmdIndex(va)] }

  lemma SamePage(va: nat, vb: nat)
    ensures PageNo(va) == PageNo(vb) <==> Upper(va) == Upper(vb) && PteIndex(va) == PteIndex(vb)
  {
    PageNoDigits(va);
    PageNoDigits(vb);
    var a, b := Upper(va), Upper(vb);
    assert a == b <==> a[0] == b[0] && a[1] == b[1] && a[2] == b[2];
  }

  // -------------------------------------------------------------------- memory

  type Table = t: seq<nat> | |t| == ENTRIES witness seq(ENTRIES, _ => 0)

  function Zeros(): Table { seq(ENTRIES, _ => 0) }

  // Frames as tables, by frame number. Frames never written read as zero.
  type Memory = map<nat, Table>

  function Tab(m: Memory, f: nat): Table { if f in m then m[f] else Zeros() }

  // ------------------------------------------------------------ walk and update

  // The table reached from table t along a path of indices, if every entry on
  // the way is non-zero.
  datatype Reached = Missing | At(frame: nat)

  function Follow(m: Memory, t: nat, path: seq<nat>): Reached
    requires forall i :: 0 <= i < |path| ==> path[i] < ENTRIES
    decreases |path|
  {
    if path == [] then At(t)
    else if Tab(m, t)[path[0]] == 0 then Missing
    else Follow(m, Frame(Tab(m, t)[path[0]]), path[1..])
  }

  // The raw entry of the page of va; 0 if there is none.
  function Pte(m: Memory, root: nat, va: nat): nat {
    match Follow(m, root, Upper(va))
    case Missing => 0
    case At(f) => Tab(m, f)[PteIndex(va)]
  }

  // Writing entry i of table t.
  function Put(m: Memory, t: nat, i: nat, entry: nat): Memory
    requires i < ENTRIES
  {
    m[t := Tab(m, t)[i := entry]]
  }

  // One level of the map functions: if the entry is zero, a new table at address
  // pa is zeroed and entered with the attributes.
  function Enter(m: Memory, t: nat, i: nat, pa: nat, attr: nat): Memory
    requires i < ENTRIES
  {
    if Tab(m, t)[i] != 0 then m
    else Put(Put(m, t, i, pa)[Frame(pa) := Zeros()], t, i, Or(pa, attr))
  }

  // ---------------------------------------------------------------------- trees

  // Which frame holds the table at each path from the root.
  type Owners = map<seq<nat>, nat>

  ghost predicate PathOk(p: seq<nat>) {
    |p| <= 3 && forall i :: 0 <= i < |p| ==> p[i] < ENTRIES
  }

  // An entry of an inner table is non-zero exactly when the next table exists,
  // and then points to it.
  ghost predicate EntryOk(m: Memory, own: Owners, p: seq<nat>, i: nat)
    requires p in own && i < ENTRIES
  {
    var e := Tab(m, own[p])[i];
    && (e != 0 <==> p + [i] in own)
    && (p + [i] in own ==> own[p + [i]] == Frame(e))
  }

  // The tables form a tree, and no two of them share a frame.
  ghost predicate Tree(m: Memory, root: nat, own: Owners) {
    && [] in own && own[[]] == root
    && (forall p {:trigger Rooted(own, p)} :: p in own ==> Rooted(own, p))
    && (forall p, q {:trigger Unshared(own, p, q)} :: p in own && q in own ==> Unshared(own, p, q))
    && (forall p, i: nat {:trigger EntryOk(m, own, p, i)} ::
          p in own && |p| < 3 && i < ENTRIES ==> EntryOk(m, own, p, i))
  }

  ghost predicate Rooted(own: Owners, p: seq<nat>) {
    PathOk(p) && (p != [] ==> p[..|p| - 1] in own)
  }

  ghost predicate Unshared(own: Owners, p: seq<nat>, q: seq<nat>)
    requires p in own && q in own
  {
    own[p] == own[q] ==> p == q
  }

  lemma {:induction false} NoOrphans(m: Memory, root: nat, own: Owners, p: seq<nat>, q: seq<nat>)
    requires Tree(m, root, own) && p !in own
    ensures p + q !in own
    decreases |q|
  {
    if q == [] {
      assert p + q == p;
    } else {
      var h := q[..|q| - 1];
      NoOrphans(m, root, own, p, h);
      assert (p + q)[..|p + q| - 1] == p + h;
      assert p + q in own ==> Rooted(own, p + q);
    }
  }

  lemma {:induction false} FollowOwners(m: Memory, root: nat, own: Owners, p: seq<nat>, q: seq<nat>)
    requires Tree(m, root, own) && p in own && PathOk(p + q) && forall i :: 0 <= i < |q| ==> q[i] < ENTRIES
    ensures Follow(m, own[p], q) == if p + q in own then At(own[p + q]) else Missing
    decreases |q|
  {
    if q == [] {
      assert p + q == p;
    } else {
      assert EntryOk(m, own, p, q[0]);
      assert p + q == (p + [q[0]]) + q[1..];
      if p + [q[0]] in own {
        FollowOwners(m, root, own, p + [q[0]], q[1..]);
      } else {
        NoOrphans(m, root, own, p + [q[0]], q[1..]);
      }
    }
  }

  // The walk of three levels, table by table.
  lemma FollowThree(m: Memory, t: nat, a: nat, b: nat, c: nat)
    requires a < ENTRIES && b < ENTRIES && c < ENTRIES
    ensures var u := Frame(Tab(m, t)[a]); var v := Frame(Tab(m, u)[b]);
      Follow(m, t, [a, b, c]) ==
        if Tab(m, t)[a] == 0 || Tab(m, u)[b] == 0 || Tab(m, v)[c] == 0 then Missing
        else At(Frame(Tab(m, v)[c]))
  {
    assert [a, b, c][1..] == [b, c] && [b, c][1..] == [c] && [c][1..] == [];
    var u := Frame(Tab(m, t)[a]);
    var v := Frame(Tab(m, u)[b]);
    assert Follow(m, v, [c]) == if Tab(m, v)[c] == 0 then Missing else Follow(m, Frame(Tab(m, v)[c]), []);
    assert Follow(m, u, [b, c]) == if Tab(m, u)[b] == 0 then Missing else Follow(m, v, [c]);
  }

  // The entry that the processor's walk finds, by the digits of the page number in base
  // 512 from the first on: section 4.5.4 of the Intel SDM, volume 3A.
  lemma WalkDigits(m: Memory, root: nat, va: nat)
    ensures var n := PageNo(va);
      var e4 := Tab(m, root)[n / 0x800_0000 % ENTRIES];
      var e3 := Tab(m, Frame(e4))[n / 0x4_0000 % ENTRIES];
      var e2 := Tab(m, Frame(e3))[n / 512 % ENTRIES];
      Pte(m, root, va) == if e4 == 0 || e3 == 0 || e2 == 0 then 0 else Tab(m, Frame(e2))[n % ENTRIES]
  {
    hide Follow, Tab;
    PageDigits(va);
    FollowThree(m, root, PgdIndex(va), PudIndex(va), PmdIndex(va));
  }

  lemma PageDigits(va: nat)
    ensures var n := PageNo(va);
      && PgdIndex(va) == n / 0x800_0000 % ENTRIES && PudIndex(va) == n / 0x4_0000 % ENTRIES
      && PmdIndex(va) == n / 512 % ENTRIES && PteIndex(va) == n % ENTRIES
  {
    hide PageNo, PgdIndex, PudIndex, PmdIndex, PteIndex;
    PageNoDigits(va);
    FourDigits(PgdIndex(va), PudIndex(va), PmdIndex(va), PteIndex(va));
  }

  lemma FourDigits(a: nat, b: nat, c: nat, d: nat)
    requires a < ENTRIES && b < ENTRIES && c < ENTRIES && d < ENTRIES
    ensures var n := ((a * ENTRIES + b) * ENTRIES + c) * ENTRIES + d;
      && a == n / 0x800_0000 % ENTRIES && b == n / 0x4_0000 % ENTRIES
      && c == n / 512 % ENTRIES && d == n % ENTRIES
  {
    var ab, abc := a * ENTRIES + b, (a * ENTRIES + b) * ENTRIES + c;
    var n := abc * ENTRIES + d;
    DivUnique(n, ENTRIES, abc, d);
    DivUnique(abc, ENTRIES, ab, c);
    DivUnique(ab, ENTRIES, a, b);
    DivUnique(n, 0x4_0000, ab, c * ENTRIES + d);
    DivUnique(n, 0x800_0000, a, (b * ENTRIES + c) * ENTRIES + d);
  }

  // The tree as a flat map from page to raw entry.
  ghost function Flat(m: Memory, own: Owners, va: nat): nat {
    if Upper(va) in own then Tab(m, own[Upper(va)])[PteIndex(va)] else 0
  }

  // The walk reads the flat map.
  lemma WalkIsFlat(m: Memory, root: nat, own: Owners, va: nat)
    requires Tree(m, root, own)
    ensures Pte(m, root, va) == Flat(m, own, va)
    ensures Follow(m, root, Upper(va)) == if Upper(va) in own then At(own[Upper(va)]) else Missing
  {
    assert [] + Upper(va) == Upper(va);
    FollowOwners(m, root, own, [], Upper(va));
  }

  // --------------------------------------------------------------- one new table

  // The owners after a level of the map functions.
  function Grown(m: Memory, own: Owners, p: seq<nat>, i: nat, pa: nat): Owners
    requires p in own && i < ENTRIES
  {
    if Tab(m, own[p])[i] != 0 then own else own[p + [i] := Frame(pa)]
  }

  // What a freshly allocated table must be: whole-page, not at address 0, and not
  // a table already.
  ghost predicate FreshTable(own: Owners, pa: nat) {
    pa > 0 && pa % PAGE_SIZE == 0 && Frame(pa) !in own.Values
  }

  // The attributes leave the address of the new table alone, as they do if they
  // are bits of the low twelve.
  lemma EnterTree(m: Memory, root: nat, own: Owners, p: seq<nat>, i: nat, pa: nat, attr: nat)
    requires Tree(m, root, own) && p in own && |p| < 3 && i < ENTRIES
    requires Tab(m, own[p])[i] == 0 ==> FreshTable(own, pa) && Frame(Or(pa, attr)) == Frame(pa)
    ensures Tree(Enter(m, own[p], i, pa, attr), root, Grown(m, own, p, i, pa))
    ensures p + [i] in Grown(m, own, p, i, pa)
    ensures forall va :: Flat(Enter(m, own[p], i, pa, attr), Grown(m, own, p, i, pa), va) == Flat(m, own, va)
  {
    assert EntryOk(m, own, p, i);
    if Tab(m, own[p])[i] == 0 {
      OrAtLeast(pa, attr);
      EnterNew(m, root, own, p, i, pa, attr);
    }
  }

  // The entry of a new table has the bits of its address and those of the attributes.
  lemma EnterBits(m: Memory, t: nat, i: nat, pa: nat, attr: nat, k: nat)
    requires i < ENTRIES && Tab(m, t)[i] == 0
    ensures Digit(Tab(Enter(m, t, i, pa, attr), t)[i], k) <==> Digit(pa, k) || Digit(attr, k)
  {
    OrBits(pa, attr, k);
  }

  // Attributes that reach into the address make the new entry point elsewhere: the
  // new table is in the tree if and only if they do not.
  lemma EnterTreeIff(m: Memory, root: nat, own: Owners, p: seq<nat>, i: nat, pa: nat, attr: nat)
    requires Tree(m, root, own) && p in own && |p| < 3 && i < ENTRIES
    requires Tab(m, own[p])[i] == 0 && FreshTable(own, pa)
    ensures Tree(Enter(m, own[p], i, pa, attr), root, Grown(m, own, p, i, pa)) <==> Frame(Or(pa, attr)) == Frame(pa)
  {
    if Frame(Or(pa, attr)) == Frame(pa) {
      EnterTree(m, root, own, p, i, pa, attr);
    } else {
      StrayEntry(m, own, p, i, pa, attr);
    }
  }

  lemma StrayEntry(m: Memory, own: Owners, p: seq<nat>, i: nat, pa: nat, attr: nat)
    requires p in own && i < ENTRIES && Tab(m, own[p])[i] == 0 && FreshTable(own, pa) && |p| < 3
    requires Frame(Or(pa, attr)) != Frame(pa)
    ensures !EntryOk(Enter(m, own[p], i, pa, attr), Grown(m, own, p, i, pa), p, i)
  {
    assert own[p] in own.Values && (p + [i])[..|p|] == p;
    TablesAfterEnter(m, own[p], i, pa, attr);
  }

  // What a caller can check: the tree is kept wherever the new table is allocated,
  // if and only if the attributes are bits of the low twelve.
  lemma EnterAlwaysIff(m: Memory, root: nat, own: Owners, p: seq<nat>, i: nat, attr: nat)
    requires Tree(m, root, own) && p in own && |p| < 3 && i < ENTRIES && Tab(m, own[p])[i] == 0
    ensures attr < PAGE_SIZE <==> forall pa: nat :: FreshTable(own, pa) ==>
      Tree(Enter(m, own[p], i, pa, attr), root, Grown(m, own, p, i, pa))
  {
    hide Tree, Enter, Grown, Or, Pow2;
    if attr < PAGE_SIZE {
      forall pa: nat | FreshTable(own, pa)
        ensures Tree(Enter(m, own[p], i, pa, attr), root, Grown(m, own, p, i, pa))
      {
        OrKeepsFrame(pa, attr);
        EnterTree(m, root, own, p, i, pa, attr);
      }
    } else {
      var pa := FreshTableAstray(own, attr);
      EnterTreeIff(m, root, own, p, i, pa, attr);
    }
  }

  // A new table at a power of two above the attributes and above all tables.
  lemma FreshTableAstray(own: Owners, attr: nat) returns (pa: nat)
    requires attr >= PAGE_SIZE
    ensures FreshTable(own, pa) && Frame(Or(pa, attr)) != Frame(pa)
  {
    hide Or, Pow2;
    var b := AboveAll(own.Values);
    var n := b + attr;
    Pow2Above(n);
    pa := PAGE_SIZE * Pow2(n);
    OrAdds(PAGE_SIZE, attr, n);
    FrameAdds(Pow2(n), attr);
    FrameAdds(Pow2(n), 0);
  }

  lemma FrameAdds(f: nat, rest: nat)
    ensures Frame(PAGE_SIZE * f + rest) == f + rest / PAGE_SIZE && PAGE_SIZE * f % PAGE_SIZE == 0
  {
  }

  // With no bit in common, or is addition.
  lemma {:induction false} OrAdds(q: nat, b: nat, k: nat)
    requires b < Pow2(k)
    ensures Or(q * Pow2(k), b) == q * Pow2(k) + b
    decreases k
  {
    if k > 0 && q > 0 && b > 0 {
      var x := q * Pow2(k - 1);
      assert q * Pow2(k) == 2 * x;
      OrAdds(q, b / 2, k - 1);
    } else {
      assert b == 0 || q * Pow2(k) == 0;
    }
  }

  lemma {:induction false} Pow2Above(n: nat)
    ensures Pow2(n) > n
  {
    if n > 0 {
      Pow2Above(n - 1);
    }
  }

  lemma {:induction false} AboveAll(s: set<nat>) returns (b: nat)
    ensures forall x :: x in s ==> x < b
  {
    if s == {} {
      b := 0;
    } else {
      var x :| x in s;
      var rest := s - {x};
      var c := AboveAll(rest);
      b := if x < c then c else x + 1;
      assert forall y :: y in s ==> y == x || y in rest;
    }
  }

  // Such attributes: a table is put at frame 2, and its entry points to frame 3.
  lemma StrayTable()
    ensures var m, own := map[], map[[] := 1];
      && Tree(m, 1, own) && FreshTable(own, 0x2000)
      && Frame(Or(0x2000, 0x1000)) == 3
      && !Tree(Enter(m, 1, 0, 0x2000, 0x1000), 1, Grown(m, own, [], 0, 0x2000))
  {
    hide Or, Enter, Tree, Grown;
    OrReaches();
    RootAlone(map[], map[[] := 1]);
    EnterTreeIff(map[], 1, map[[] := 1], [], 0, 0x2000, 0x1000);
  }

  lemma OrReaches()
    ensures Or(0x2000, 0x1000) == 0x3000
  {
    assert Or(2, 1) == 3;
    assert Or(0x20, 0x10) == 0x30;
    assert Or(0x200, 0x100) == 0x300;
  }

  lemma RootAlone(m: Memory, own: Owners)
    requires m == map[] && own == map[[] := 1]
    ensures Tree(m, 1, own)
  {
    assert forall i: nat :: |([] + [i])| == 1 && [] + [i] !in own;
  }

  lemma EnterNew(m: Memory, root: nat, own: Owners, p: seq<nat>, i: nat, pa: nat, attr: nat)
    requires Tree(m, root, own) && p in own && |p| < 3 && i < ENTRIES
    requires Tab(m, own[p])[i] == 0 && Frame(pa) !in own.Values
    requires Or(pa, attr) != 0 && Frame(Or(pa, attr)) == Frame(pa)
    ensures Tree(Enter(m, own[p], i, pa, attr), root, own[p + [i] := Frame(pa)])
    ensures forall va :: Flat(Enter(m, own[p], i, pa, attr), own[p + [i] := Frame(pa)], va) == Flat(m, own, va)
  {
    var t := own[p];
    var m', own' := Enter(m, t, i, pa, attr), own[p + [i] := Frame(pa)];
    assert EntryOk(m, own, p, i) && t in own.Values;
    TablesAfterEnter(m, t, i, pa, attr);
    OwnersGrow(m, root, own, p, i, pa);
    forall q, j: nat | q in own' && |q| < 3 && j < ENTRIES ensures EntryOk(m', own', q, j) {
      EntryGrows(m, root, own, p, i, q, j);
      if q in own {
        assert EntryOk(m, own, q, j) && Unshared(own, p, q) && own[q] in own.Values;
      }
    }
    forall va ensures Flat(m', own', va) == Flat(m, own, va) {
      if Upper(va) in own {
        assert Unshared(own, p, Upper(va)) && own[Upper(va)] in own.Values;
      }
    }
  }

  lemma OwnersGrow(m: Memory, root: nat, own: Owners, p: seq<nat>, i: nat, pa: nat)
    requires Tree(m, root, own) && p in own && |p| < 3 && i < ENTRIES && Frame(pa) !in own.Values
    ensures var own' := own[p + [i] := Frame(pa)];
      && (forall q :: q in own' ==> Rooted(own', q))
      && (forall q, r :: q in own' && r in own' ==> Unshared(own', q, r))
  {
    var own' := own[p + [i] := Frame(pa)];
    assert Rooted(own, p) && (p + [i])[..|p|] == p;
    forall q | q in own' ensures Rooted(own', q) {
      assert q in own ==> Rooted(own, q);
    }
    forall q, r | q in own' && r in own' ensures Unshared(own', q, r) {
      assert q in own ==> own[q] in own.Values;
      assert r in own ==> own[r] in own.Values;
      assert q in own && r in own ==> Unshared(own, q, r);
    }
  }

  // The new path extends p by i only, and nothing is below it yet.
  lemma EntryGrows(m: Memory, root: nat, own: Owners, p: seq<nat>, i: nat, q: seq<nat>, j: nat)
    requires Tree(m, root, own) && p in own && p + [i] !in own && (q in own || q == p + [i])
    ensures q + [j] == p + [i] <==> q == p && j == i
    ensures q !in own ==> q + [j] !in own
  {
    assert (q + [j])[..|q|] == q && (p + [i])[..|p|] == p;
    if q + [j] in own {
      assert Rooted(own, q + [j]);
    }
  }

  // Enter changes two tables: entry i of t, and the new one.
  lemma TablesAfterEnter(m: Memory, t: nat, i: nat, pa: nat, attr: nat)
    requires i < ENTRIES && Tab(m, t)[i] == 0 && Frame(pa) != t
    ensures var m' := Enter(m, t, i, pa, attr);
      && Tab(m', t) == Tab(m, t)[i := Or(pa, attr)]
      && Tab(m', Frame(pa)) == Zeros()
      && forall g :: g != t && g != Frame(pa) ==> Tab(m', g) == Tab(m, g)
  {
  }

  // ------------------------------------------------------------------ one page

  // Writing the leaf entry changes the flat map at the page of va only.
  lemma PutLeaf(m: Memory, root: nat, own: Owners, va: nat, entry: nat)
    requires Tree(m, root, own) && Upper(va) in own
    ensures var m' := Put(m, own[Upper(va)], PteIndex(va), entry);
      && Tree(m', root, own)
      && forall vb :: Flat(m', own, vb) == if PageNo(vb) == PageNo(va) then entry else Flat(m, own, vb)
  {
    var t := own[Upper(va)];
    var m' := Put(m, t, PteIndex(va), entry);
    forall q, j: nat | q in own && |q| < 3 && j < ENTRIES ensures EntryOk(m', own, q, j) {
      assert EntryOk(m, own, q, j);
      assert Unshared(own, q, Upper(va));
    }
    forall vb ensures Flat(m', own, vb) == if PageNo(vb) == PageNo(va) then entry else Flat(m, own, vb) {
      SamePage(va, vb);
      if Upper(vb) in own {
        assert Unshared(own, Upper(vb), Upper(va));
      }
    }
  }
}
