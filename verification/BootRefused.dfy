/**
 What boot_pgtable_map of code/arch/x86/boot/mm_boot.c makes of a table that
 boot_mm_alloc refuses. The call puts it at address 0 like any other: one table
 finds a frame there, two end up in the same one.
*/
module BootRefused {
  import opened PageSizes
  import opened PageTable
  import opened PageMap
  import opened BootMap

  // After a call for va, the page of va has the entry, and every other page has
  // the one it had.
  ghost predicate MapsPage(m: Memory, root: nat, va: nat, entry: nat, after: Memory) {
    forall vb :: Pte(after, root, vb) == if PageNo(vb) == PageNo(va) then entry else Pte(m, root, vb)
  }

  // A tree of tables, none in frame 0, all below the bump pointer.
  ghost predicate Orderly(m: Memory, root: nat, own: Owners, start: nat) {
    && Tree(m, root, own)
    && start > 0 && start % PAGE_SIZE == 0 && forall f :: f in own.Values ==> 0 < f < Frame(start)
  }

  // The tables missing on the way along q from p.
  ghost function Lack(own: Owners, p: seq<nat>, q: seq<nat>): nat
    decreases |q|
  {
    if q == [] then 0 else Needed(own, p + [q[0]]) + Lack(own, p + [q[0]], q[1..])
  }

  lemma LackIsLacking(own: Owners, va: nat)
    ensures Lack(own, [], Upper(va)) == Lacking(own, va)
  {
    var u := Upper(va);
    assert u[1..] == [u[1], u[2]] && u[1..][1..] == [u[2]] && [u[2]][1..] == [];
    assert [] + [u[0]] == [u[0]] && [u[0]] + [u[1]] == [u[0], u[1]] && [u[0], u[1]] + [u[2]] == u;
    assert Lack(own, [u[0], u[1]], [u[2]]) == Needed(own, u) + Lack(own, u, []);
    assert Lack(own, [u[0]], [u[1], u[2]]) == Needed(own, [u[0], u[1]]) + Lack(own, [u[0], u[1]], [u[2]]);
  }

  // Below a table that is missing, all are.
  lemma {:induction false} AllLacking(m: Memory, root: nat, own: Owners, p: seq<nat>, q: seq<nat>)
    requires Tree(m, root, own) && (p in own ==> q == [] || p + [q[0]] !in own)
    ensures Lack(own, p, q) == |q|
    decreases |q|
  {
    if q != [] {
      if p !in own {
        NoOrphans(m, root, own, p, [q[0]]);
      }
      AllLacking(m, root, own, p + [q[0]], q[1..]);
    }
  }

  // ------------------------------------------------------------ at most one refused

  // A level keeps the tree, and the flat map, unless its table is refused while
  // another one is in frame 0.
  lemma LevelRight(w: Walked, root: nat, own: Owners, p: seq<nat>, i: nat, total: nat, attr: nat)
    returns (own': Owners)
    requires Orderly(w.mem, root, own, w.start) && p in own && |p| < 3 && i < ENTRIES && w.at == own[p]
    requires 0 < attr < PAGE_SIZE
    ensures var u := Level(w, total, i, attr);
      && Tree(u.mem, root, own') && p + [i] in own' && u.at == own'[p + [i]]
      && (forall va :: Flat(u.mem, own', va) == Flat(w.mem, own, va))
      && (p + [i] in own ==> own' == own && u.start == w.start)
      && (p + [i] !in own ==> Tab(u.mem, u.at) == Zeros())
      && (p + [i] !in own && w.start + PAGE_SIZE < total ==> u.start == w.start + PAGE_SIZE)
      && (p + [i] in own || w.start + PAGE_SIZE < total ==> Orderly(u.mem, root, own', u.start))
  {
    hide Tree, Flat, Or;
    own' := own;
    assert EntryOk(w.mem, own, p, i) by { TreeEntry(w.mem, root, own, p, i); }
    if p + [i] !in own {
      var pa := if w.start + PAGE_SIZE < total then w.start else 0;
      assert own[p] in own.Values && Frame(pa) !in own.Values;
      OrKeepsFrame(pa, attr);
      OrAtLeast(pa, attr);
      OrZero(attr);
      WithTableEnters(w.mem, w.at, i, pa, attr);
      EnterNew(w.mem, root, own, p, i, pa, attr);
      TablesAfterEnter(w.mem, w.at, i, pa, attr);
      own' := own[p + [i] := Frame(pa)];
      assert forall f :: f in own'.Values ==> f == Frame(pa) || f in own.Values;
    }
  }

  lemma TreeEntry(m: Memory, root: nat, own: Owners, p: seq<nat>, i: nat)
    requires Tree(m, root, own) && p in own && |p| < 3 && i < ENTRIES
    ensures EntryOk(m, own, p, i)
  {
  }

  lemma OrZero(attr: nat)
    ensures Or(0, attr) == attr
  {
  }

  // With room for all tables missing but one, the levels lead to the table of the
  // path, and change nothing on the flat map.
  lemma {:induction false} LevelsRight(w: Walked, root: nat, own: Owners, p: seq<nat>, q: seq<nat>,
    total: nat, attr: nat) returns (own': Owners)
    requires Orderly(w.mem, root, own, w.start) && p in own && w.at == own[p] && |p| + |q| <= 3
    requires 0 < attr < PAGE_SIZE && forall i :: 0 <= i < |q| ==> q[i] < ENTRIES
    requires var n := Lack(own, p, q); n <= 1 || w.start + (n - 1) * PAGE_SIZE < total
    ensures var u := Levels(w, total, q, attr);
      && Tree(u.mem, root, own') && p + q in own' && u.at == own'[p + q]
      && forall va :: Flat(u.mem, own', va) == Flat(w.mem, own, va)
    decreases |q|
  {
    hide Tree, Flat, Level;
    own' := own;
    if q == [] {
      assert p + q == p;
    } else {
      var i, r := q[0], p + [q[0]];
      var u := Level(w, total, i, attr);
      var grown := LevelRight(w, root, own, p, i, total, attr);
      assert p + q == r + q[1..];
      if r !in own {
        AllLacking(w.mem, root, own, p, q);
        if |q| > 1 {
          TreeEntry(u.mem, root, grown, r, q[1]);
        }
        AllLacking(u.mem, root, grown, r, q[1..]);
      }
      if |q| == 1 {
        own' := grown;
        assert r + q[1..] == r;
        assert Levels(w, total, q, attr) == Levels(u, total, [], attr);
      } else {
        own' := LevelsRight(u, root, grown, r, q[1..], total, attr);
      }
    }
  }

  // ----------------------------------------------------------------- two refused

  // An address whose page has the last index d, and otherwise the indices of va.
  lemma Neighbouring(va: nat, d: nat) returns (vb: nat)
    requires d < ENTRIES
    ensures Upper(vb) == Upper(va) && PteIndex(vb) == d
  {
    vb := (va / 0x1000 / 512 * 512 + d) * 0x1000;
    UpperDigits(va);
    UpperDigits(vb);
  }

  // An address of a frame that memory knows nothing of.
  lemma UnknownFrame(m: Memory, attr: nat) returns (pa: nat)
    requires attr < PAGE_SIZE
    ensures Frame(Or(pa, attr)) !in m && Frame(Or(pa, attr)) != 0 && Or(pa, attr) != 0
  {
    hide Or;
    var b := AboveAll(m.Keys);
    pa := PAGE_SIZE * (b + 1);
    OrKeepsFrame(pa, attr);
    OrAtLeast(pa, attr);
  }

  // What two refused tables leave in frame 0: the last one's entry at c.
  ghost predicate SharedAtZero(m: Memory, root: nat, a: nat, b: nat, c: nat, attr: nat)
    requires a < ENTRIES && b < ENTRIES && c < ENTRIES
  {
    var u := Frame(Tab(m, root)[a]);
    && root != 0 && Tab(m, root)[a] != 0 && Tab(m, 0) == Zeros()[c := attr]
    && (u == 0 || Tab(m, u)[b] == attr)
  }

  // A page that has a wrong entry then: the one at index c, where there was none, or
  // the one mapped, for a frame that memory knows nothing of.
  lemma WrongEntry(m: Memory, root: nat, va: nat, attr: nat) returns (pa: nat, vb: nat)
    requires 0 < attr < PAGE_SIZE
    requires SharedAtZero(m, root, PgdIndex(va), PudIndex(va), PmdIndex(va), attr)
    ensures var after := Put(m, 0, PteIndex(va), Or(pa, attr));
      && Upper(vb) == Upper(va)
      && if PageNo(vb) == PageNo(va) then Pte(after, root, vb) != Or(pa, attr) else Pte(after, root, vb) != 0
  {
    hide Or;
    var a, b, c, d := PgdIndex(va), PudIndex(va), PmdIndex(va), PteIndex(va);
    pa := UnknownFrame(m, attr);
    vb := Neighbouring(va, c);
    var after := Put(m, 0, d, Or(pa, attr));
    FollowThree(after, root, a, b, c);
    SamePage(va, vb);
    if c == d || (Frame(Tab(m, root)[a]) == 0 && b != c) {
      vb := va;
    }
  }

  // A level whose table is refused: the table in frame 0, if it is not the one that
  // the entry is in, is empty.
  lemma LevelRefused(w: Walked, total: nat, i: nat, attr: nat)
    requires i < ENTRIES && Tab(w.mem, w.at)[i] == 0 && w.start + PAGE_SIZE >= total && 0 < attr < PAGE_SIZE
    ensures var u := Level(w, total, i, attr);
      && u.at == 0 && u.start == w.start
      && Tab(u.mem, w.at) == (if w.at == 0 then Zeros() else Tab(w.mem, w.at))[i := attr]
      && (w.at != 0 ==> Tab(u.mem, 0) == Zeros())
      && forall g :: g != 0 && g != w.at ==> Tab(u.mem, g) == Tab(w.mem, g)
  {
    hide Or;
    OrZero(attr);
  }

  lemma LevelThere(w: Walked, total: nat, i: nat, attr: nat)
    requires i < ENTRIES && Tab(w.mem, w.at)[i] != 0
    ensures Level(w, total, i, attr) == w.(at := Frame(Tab(w.mem, w.at)[i]))
  {
  }

  // Two or three tables refused: frame 0 holds the last of them.
  lemma LevelsShared(w: Walked, root: nat, own: Owners, a: nat, b: nat, c: nat, total: nat, attr: nat)
    requires Orderly(w.mem, root, own, w.start) && w.at == root && 0 < attr < PAGE_SIZE
    requires a < ENTRIES && b < ENTRIES && c < ENTRIES && [a, b] !in own
    requires w.start + (if [a] in own then 1 else 2) * PAGE_SIZE >= total
    ensures var v := Level(Level(Level(w, total, a, attr), total, b, attr), total, c, attr);
      SharedAtZero(v.mem, root, a, b, c, attr) && v.at == 0
  {
    hide Flat, Level;
    assert [] + [a] == [a] && [a] + [b] == [a, b] && own[[]] in own.Values;
    assert EntryOk(w.mem, own, [], a);
    var u := Level(w, total, a, attr);
    if [a] in own || w.start + PAGE_SIZE < total {
      var grown := LevelRight(w, root, own, [], a, total, attr);
      assert EntryOk(u.mem, grown, [], a) && EntryOk(u.mem, grown, [a], b) && Unshared(grown, [], [a]);
      assert [a] in grown && u.at in grown.Values;
    } else {
      LevelRefused(w, total, a, attr);
    }
    LevelRefused(u, total, b, attr);
    var v := Level(u, total, b, attr);
    if Tab(v.mem, 0)[c] == 0 {
      LevelRefused(v, total, c, attr);
    } else {
      LevelThere(v, total, c, attr);
    }
  }

  // From a tree of tables with none in frame 0: whatever page is mapped, the call maps
  // it and nothing else if and only if at most one table is refused; that is, if there
  // is room for all that are missing but one.
  lemma MappedIff(m: Memory, root: nat, own: Owners, start: nat, total: nat, va: nat, attr: nat)
    requires Orderly(m, root, own, start) && 0 < attr < PAGE_SIZE
    ensures (forall pa: nat :: MapsPage(m, root, va, Or(pa, attr), Mapped(m, root, start, total, va, pa, attr)))
      <==> Lacking(own, va) <= 1 || start + (Lacking(own, va) - 1) * PAGE_SIZE < total
  {
    hide Or, Tree, Flat, Levels, Pte;
    LackIsLacking(own, va);
    if Lacking(own, va) <= 1 || start + (Lacking(own, va) - 1) * PAGE_SIZE < total {
      forall pa: nat ensures MapsPage(m, root, va, Or(pa, attr), Mapped(m, root, start, total, va, pa, attr)) {
        MappedRight(m, root, own, start, total, va, pa, attr);
      }
    } else {
      var pa := MappedWrong(m, root, own, start, total, va, attr);
    }
  }

  lemma MappedRight(m: Memory, root: nat, own: Owners, start: nat, total: nat, va: nat, pa: nat, attr: nat)
    requires Orderly(m, root, own, start) && 0 < attr < PAGE_SIZE
    requires var n := Lack(own, [], Upper(va)); n <= 1 || start + (n - 1) * PAGE_SIZE < total
    ensures MapsPage(m, root, va, Or(pa, attr), Mapped(m, root, start, total, va, pa, attr))
  {
    hide Or, Flat, Levels, Pte;
    var own' := LevelsRight(Walked(m, start, root), root, own, [], Upper(va), total, attr);
    assert [] + Upper(va) == Upper(va);
    var w, after := Levels(Walked(m, start, root), total, Upper(va), attr),
      Mapped(m, root, start, total, va, pa, attr);
    hide Tree;
    PutLeaf(w.mem, root, own', va, Or(pa, attr));
    forall vb ensures Pte(after, root, vb) == if PageNo(vb) == PageNo(va) then Or(pa, attr) else Pte(m, root, vb) {
      WalkIsFlat(after, root, own', vb);
      WalkIsFlat(m, root, own, vb);
    }
  }

  lemma MappedWrong(m: Memory, root: nat, own: Owners, start: nat, total: nat, va: nat, attr: nat)
    returns (pa: nat)
    requires Orderly(m, root, own, start) && 0 < attr < PAGE_SIZE
    requires Lacking(own, va) > 1 && start + (Lacking(own, va) - 1) * PAGE_SIZE >= total
    ensures !MapsPage(m, root, va, Or(pa, attr), Mapped(m, root, start, total, va, pa, attr))
  {
    hide Or, Level, Pte, Tree;
    var a, b, c := PgdIndex(va), PudIndex(va), PmdIndex(va);
    MissingTables(m, root, own, a, b, c);
    ThreeLevels(Walked(m, start, root), total, a, b, c, attr);
    LevelsShared(Walked(m, start, root), root, own, a, b, c, total, attr);
    var w, vb := Levels(Walked(m, start, root), total, Upper(va), attr), va;
    pa, vb := WrongEntry(w.mem, root, va, attr);
    WalkIsFlat(m, root, own, vb);
  }

  // With two tables missing, the last two are; all three are if the first is.
  lemma MissingTables(m: Memory, root: nat, own: Owners, a: nat, b: nat, c: nat)
    requires Tree(m, root, own)
    ensures Needed(own, [a]) + Needed(own, [a, b]) + Needed(own, [a, b, c]) > 1 ==>
      [a, b] !in own && [a, b, c] !in own
  {
    assert [a, b, c][..2] == [a, b] && [a, b][..1] == [a];
    assert [a, b, c] in own ==> Rooted(own, [a, b, c]);
    assert [a, b] in own ==> Rooted(own, [a, b]);
  }

  // Nor must a second call follow. The next table that is refused is put in frame 0
  // as well: making room for the second page wipes out the entry of the first.
  lemma RefusedTablesShared(m: Memory, va: nat, vb: nat, pa: nat)
    requires Tab(m, 1) == Zeros()[0 := 2 * PAGE_SIZE] && Tab(m, 2) == Zeros()[0 := 3 * PAGE_SIZE]
    requires Tab(m, 3) == Zeros()
    requires Upper(va) == [0, 0, 0] && Upper(vb) == [0, 0, 1]
    ensures var after := Put(Enter(m, 3, 0, 0, PAGE_ATTR_P), 0, PteIndex(va), Or(pa, PAGE_ATTR_P));
      && Pte(after, 1, va) == Or(pa, PAGE_ATTR_P) != 0
      && Pte(Enter(after, 3, 1, 0, PAGE_ATTR_P), 1, va) == 0
  {
    var after := Put(Enter(m, 3, 0, 0, PAGE_ATTR_P), 0, PteIndex(va), Or(pa, PAGE_ATTR_P));
    OrOne(pa);
    assert Or(0, PAGE_ATTR_P) == 1;
    FollowThree(after, 1, 0, 0, 0);
    FollowThree(Enter(after, 3, 1, 0, PAGE_ATTR_P), 1, 0, 0, 0);
  }

  lemma OrOne(pa: nat)
    ensures Or(pa, PAGE_ATTR_P) != 0
  {
  }
}
