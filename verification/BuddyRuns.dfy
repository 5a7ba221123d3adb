/**
 Allocation, and whole runs of allocations and guarded frees: no page is ever
 issued twice, none is lost, and an allocation fails only when it must.
*/
module BuddyRuns {
  import opened Powers
  import opened Buddy
  import opened BuddyFree

  // ------------------------------------------------------------ one allocation

  // Taking the first block of list a leaves it in hand.
  lemma TakeFirst(s: Buddy, a: nat)
    requires Inv(s) && a < MAX_PAGE_ORDER && s.lists[a] != []
    ensures var p := s.lists[a][0]; var t := Take(s, a);
      && IsBlock(s, p, a)
      && (forall x, k: nat :: IsBlock(t, x, k) <==> IsBlock(s, x, k) && x != p)
      && Holding(t, p, a)
      && (forall i :: FreePage(s, i) <==> FreePage(t, i) || InBlock(i, p, a))
  {
    var p := s.lists[a][0];
    var t := Take(s, a);
    assert IsBlock(s, p, a);
    forall x, k: nat ensures IsBlock(t, x, k) <==> IsBlock(s, x, k) && x != p {
      if IsBlock(s, p, k) {
        assert k == a;
      }
    }
    forall i | i != p && Seen(t, i) ensures exists k: nat :: IsBlock(t, i, k) {
      assert Seen(s, i);
      var k: nat :| IsBlock(s, i, k);
      assert IsBlock(t, i, k);
    }
    forall x, k: nat | IsBlock(t, x, k) ensures PlainInside(t, x, k) {
      assert PlainInside(s, x, k);
    }
    assert PlainInside(s, p, a);
    forall i ensures FreePage(s, i) <==> FreePage(t, i) || InBlock(i, p, a) {
      if FreePage(s, i) {
        var x, k: nat :| IsBlock(s, x, k) && InBlock(i, x, k);
        if x != p {
          assert IsBlock(t, x, k);
        } else {
          assert k == a;
        }
      }
    }
  }

  // Giving back the upper half of the block in hand.
  lemma SplitOnce(s: Buddy, p: int, a: nat, b: nat, t: Buddy)
    requires Holding(s, p, a) && a == b + 1 && a < MAX_PAGE_ORDER
    requires t == s.(lists := s.lists[b := [p + Pow2(b)] + s.lists[b]])
    ensures Holding(t, p, b)
    ensures forall x, k: nat :: IsBlock(t, x, k) <==> IsBlock(s, x, k) || (x == p + Pow2(b) && k == b)
    ensures forall i :: FreePage(t, i) || InBlock(i, p, b) <==> FreePage(s, i) || InBlock(i, p, a)
  {
    var q := p + Pow2(b);
    assert !IsBlock(s, q, b);
    forall x, k: nat ensures IsBlock(t, x, k) <==> IsBlock(s, x, k) || (x == q && k == b) {}
    forall x, k: nat | IsBlock(t, x, k) ensures PlainInside(t, x, k) && Apart(x, k, p, b) {
      if IsBlock(s, x, k) {
        assert PlainInside(s, x, k) && Apart(x, k, p, a);
      } else {
        assert PlainInside(s, p, a);
      }
    }
    forall x, k: nat, y, l: nat | IsBlock(t, x, k) && IsBlock(t, y, l) && (x != y || k != l)
      ensures Apart(x, k, y, l)
    {
      if IsBlock(s, x, k) { assert Apart(x, k, p, a); }
      if IsBlock(s, y, l) { assert Apart(y, l, p, a); }
    }
    forall i | i != p && Seen(t, i) ensures exists k: nat :: IsBlock(t, i, k) {
      assert Seen(s, i);
      var k: nat :| IsBlock(s, i, k);
      assert IsBlock(t, i, k);
    }
    assert PlainInside(t, p, b) by { assert PlainInside(s, p, a); }
    forall i ensures FreePage(t, i) || InBlock(i, p, b) <==> FreePage(s, i) || InBlock(i, p, a) {
      if FreePage(s, i) {
        var x, k: nat :| IsBlock(s, x, k) && InBlock(i, x, k);
        assert IsBlock(t, x, k);
      }
      assert IsBlock(t, q, b);
    }
  }

  lemma {:induction false} SplitSound(s: Buddy, p: int, a: nat, o: nat)
    requires Holding(s, p, a) && o <= a < MAX_PAGE_ORDER
    ensures var t := Split(s, p, a, o);
      && Holding(t, p, o)
      && (forall i :: FreePage(t, i) || InBlock(i, p, o) <==> FreePage(s, i) || InBlock(i, p, a))
      && (forall x, k: nat :: IsBlock(t, x, k) <==>
            IsBlock(s, x, k) || (o <= k < a && x == p + Pow2(k)))
    decreases a
  {
    if a > o {
      var b := a - 1;
      var t := s.(lists := s.lists[b := [p + Pow2(b)] + s.lists[b]]);
      SplitOnce(s, p, a, b, t);
      SplitSound(t, p, b, o);
    }
  }

  // Where the blocks of the state after a successful allocation come from.
  ghost predicate FromSplit(s: Buddy, x: int, k: nat, p: int, a: nat, o: nat) {
    (IsBlock(s, x, k) && x != p) || (o <= k < a && x == p + Pow2(k))
  }

  // A failed allocation changes nothing and happens exactly when there is no
  // block of sufficient order; a successful one takes 2^o free pages, the first
  // pages of one former block, and no other page changes hands.
  lemma AllocSound(s: Buddy, o: nat)
    requires Inv(s)
    ensures var (t, p) := Alloc(s, o);
      && Inv(t)
      && (p == NULL <==> forall x, k: nat :: IsBlock(s, x, k) ==> k < o)
      && (p == NULL ==> t == s)
      && (p != NULL ==>
            && o < MAX_PAGE_ORDER
            && Fits(t, p, o) && PlainInside(t, p, o)
            && (forall i :: FreePage(s, i) <==> FreePage(t, i) || InBlock(i, p, o))
            && exists a: nat :: IsBlock(s, p, a) && o <= a &&
                 forall x, k: nat :: IsBlock(t, x, k) <==> FromSplit(s, x, k, p, a, o))
  {
    if o < MAX_PAGE_ORDER {
      var a := FirstFit(s, o);
      FirstFitSkipsEmpty(s, o);
      if a < MAX_PAGE_ORDER {
        TakeFirst(s, a);
        var p := s.lists[a][0];
        assert IsBlock(s, p, a);
        var u := Take(s, a);
        SplitSound(u, p, a, o);
        var v := Split(u, p, a, o);
        var t := Alloc(s, o).0;
        assert t == MarkUsed(v, p, Pow2(o));
        forall x, k: nat ensures IsBlock(t, x, k) <==> IsBlock(v, x, k) {}
        forall x, k: nat ensures IsBlock(t, x, k) <==> FromSplit(s, x, k, p, a, o) {}
        forall i ensures FreePage(t, i) <==> FreePage(v, i) {
          if FreePage(v, i) {
            var x, k: nat :| IsBlock(v, x, k) && InBlock(i, x, k);
            assert IsBlock(t, x, k);
          }
        }
        forall x, k: nat | IsBlock(t, x, k) ensures PlainInside(t, x, k) {
          assert PlainInside(v, x, k);
        }
        forall i | Seen(t, i) ensures exists k: nat :: IsBlock(t, i, k) {
          assert Seen(v, i) && i != p;
          var k: nat :| IsBlock(v, i, k);
          assert IsBlock(t, i, k);
        }
      }
    }
  }

  // --------------------------------------------------------------------- runs

  datatype Block = Block(start: int, order: nat)

  // The allocator together with the blocks its callers hold.
  datatype System = System(buddy: Buddy, issued: seq<Block>)

  datatype Op =
    | AllocPages(order: nat)
    | FreePages(index: nat)  // give back the index-th block held

  function Step(y: System, op: Op): System {
    match op
    case AllocPages(o) =>
      var (t, p) := Alloc(y.buddy, o);
      if p == NULL then System(t, y.issued) else System(t, y.issued + [Block(p, o)])
    case FreePages(j) =>
      if j < |y.issued| && 0 <= y.issued[j].start < |y.buddy.isFree| then
        System(Free(y.buddy, y.issued[j].start, y.issued[j].order), y.issued[..j] + y.issued[j + 1..])
      else y
  }

  function Run(y: System, ops: seq<Op>): System
    decreases |ops|
  {
    if ops == [] then y else Run(Step(y, ops[0]), ops[1..])
  }

  // Frees give back a held block, and only when the neighbours the loop would
  // absorb have the matching orders. Allocations are not restricted.
  predicate Guard(y: System, op: Op) {
    op.FreePages? ==>
      && op.index < |y.issued|
      && 0 <= y.issued[op.index].start < |y.buddy.isFree|
      && OrdersMatch(y.buddy, y.issued[op.index].start, y.issued[op.index].order)
  }

  predicate Guarded(y: System, ops: seq<Op>)
    decreases |ops|
  {
    ops == [] || (Guard(y, ops[0]) && Guarded(Step(y, ops[0]), ops[1..]))
  }

  ghost predicate Held(y: System, i: int) {
    exists j :: 0 <= j < |y.issued| && InBlock(i, y.issued[j].start, y.issued[j].order)
  }

  // Issued blocks share no page with each other or with a free block, and free
  // and issued pages together are exactly the pages given to the allocator.
  ghost predicate Safe(y: System, pages: iset<int>) {
    && Inv(y.buddy)
    && (forall j :: 0 <= j < |y.issued| ==>
          && y.issued[j].order < MAX_PAGE_ORDER
          && Fits(y.buddy, y.issued[j].start, y.issued[j].order)
          && PlainInside(y.buddy, y.issued[j].start, y.issued[j].order))
    && (forall i, j :: 0 <= i < j < |y.issued| ==>
          Apart(y.issued[i].start, y.issued[i].order, y.issued[j].start, y.issued[j].order))
    && (forall i :: i in pages <==> FreePage(y.buddy, i) || Held(y, i))
  }

  // Fits says page by page that block and freelists are apart.
  lemma FitsPages(s: Buddy, p: int, o: nat)
    requires InRange(s) && 0 <= p && p + Pow2(o) <= |s.isFree|
    ensures Fits(s, p, o) <==> forall i :: InBlock(i, p, o) ==> !FreePage(s, i)
  {
    forall x, k: nat | IsBlock(s, x, k) && !Apart(x, k, p, o)
      ensures exists i :: InBlock(i, p, o) && FreePage(s, i)
    {
      var i := Max(x, p);
      assert InBlock(i, p, o) && InBlock(i, x, k);
    }
    if Fits(s, p, o) {
      forall i, x, k: nat | InBlock(i, p, o) && IsBlock(s, x, k) ensures !InBlock(i, x, k) {
        assert Apart(x, k, p, o);
      }
    }
  }

  lemma AllocStep(y: System, o: nat, pages: iset<int>)
    requires Safe(y, pages)
    ensures Safe(Step(y, AllocPages(o)), pages)
  {
    AllocSound(y.buddy, o);
    var (t, p) := Alloc(y.buddy, o);
    var z := Step(y, AllocPages(o));
    if p != NULL {
      forall j | 0 <= j < |y.issued|
        ensures Fits(t, y.issued[j].start, y.issued[j].order)
        ensures PlainInside(t, y.issued[j].start, y.issued[j].order)
        ensures Apart(y.issued[j].start, y.issued[j].order, p, o)
      {
        var b := y.issued[j];
        FitsPages(y.buddy, b.start, b.order);
        FitsPages(t, b.start, b.order);
        assert PlainInside(y.buddy, b.start, b.order);
        var m := Max(b.start, p);
        assert Apart(b.start, b.order, p, o) || (InBlock(m, b.start, b.order) && InBlock(m, p, o));
      }
      forall i ensures Held(z, i) <==> Held(y, i) || InBlock(i, p, o) {
        if Held(y, i) {
          var j :| 0 <= j < |y.issued| && InBlock(i, y.issued[j].start, y.issued[j].order);
          assert z.issued[j] == y.issued[j];
        }
        assert z.issued[|y.issued|] == Block(p, o);
      }
    }
  }

  // Flags inside a page range away from a free change only by being cleared.
  lemma {:induction false} CoalesceHeads(s: Buddy, p: int, o: nat)
    requires 0 <= p < |s.isFree|
    ensures var Merged(t, q, l) := Coalesce(s, p, o);
      && (forall i :: 0 <= i < |s.isHead| && t.isHead[i] ==> s.isHead[i])
      && (q == p || Seen(s, q))
    decreases MAX_PAGE_ORDER - o
  {
    var q := Neighbour(s, p, o);
    if q != NULL {
      CoalesceHeads(Absorb(s, p, q), Min(p, q), o + 1);
    }
  }

  // A guarded free does not reach into another issued block.
  lemma FreeSpares(s: Buddy, b: Block, c: Block)
    requires Inv(s) && b.order < MAX_PAGE_ORDER
    requires Fits(s, b.start, b.order) && PlainInside(s, b.start, b.order)
    requires Fits(s, c.start, c.order) && PlainInside(s, c.start, c.order)
    requires OrdersMatch(s, b.start, b.order)
    requires Apart(c.start, c.order, b.start, b.order)
    ensures var t := Free(s, b.start, b.order);
      Fits(t, c.start, c.order) && PlainInside(t, c.start, c.order)
  {
    var t := Free(s, b.start, b.order);
    FreeSound(s, b.start, b.order);
    FitsPages(s, c.start, c.order);
    FitsPages(t, c.start, c.order);
    CoalesceHeads(s, b.start, b.order);
    var q := Coalesce(s, b.start, b.order).page;
    assert !InBlock(q, c.start, c.order) by {
      if Seen(s, q) {
        var k: nat :| IsBlock(s, q, k);
        assert Apart(q, k, c.start, c.order);
      }
    }
  }

  // The blocks held after giving back the j-th.
  lemma HeldWithout(y: System, z: System, j: nat)
    requires j < |y.issued| && z.issued == y.issued[..j] + y.issued[j + 1..]
    ensures forall i :: Held(y, i) <==> Held(z, i) || InBlock(i, y.issued[j].start, y.issued[j].order)
  {
    var b := y.issued[j];
    forall i ensures Held(y, i) <==> Held(z, i) || InBlock(i, b.start, b.order) {
      if Held(y, i) {
        var m :| 0 <= m < |y.issued| && InBlock(i, y.issued[m].start, y.issued[m].order);
        if m < j {
          assert z.issued[m] == y.issued[m];
        } else if m > j {
          assert z.issued[m - 1] == y.issued[m];
        }
      }
      if Held(z, i) {
        var m :| 0 <= m < |z.issued| && InBlock(i, z.issued[m].start, z.issued[m].order);
        assert z.issued[m] == y.issued[if m < j then m else m + 1];
      }
    }
  }

  lemma FreeStep(y: System, j: nat, pages: iset<int>)
    requires Safe(y, pages) && Guard(y, FreePages(j))
    ensures Safe(Step(y, FreePages(j)), pages)
  {
    var s, b := y.buddy, y.issued[j];
    var z := Step(y, FreePages(j));
    assert Fits(s, b.start, b.order) && PlainInside(s, b.start, b.order);
    FreeSound(s, b.start, b.order);
    forall i | 0 <= i < |z.issued|
      ensures z.issued[i].order < MAX_PAGE_ORDER
      ensures Fits(z.buddy, z.issued[i].start, z.issued[i].order)
      ensures PlainInside(z.buddy, z.issued[i].start, z.issued[i].order)
    {
      var m := if i < j then i else i + 1;
      assert z.issued[i] == y.issued[m];
      FreeSpares(s, b, y.issued[m]);
    }
    HeldWithout(y, z, j);
  }

  // Safety over every run: from a safe state, any sequence of allocations and
  // guarded frees stays safe for the same pages.
  lemma {:induction false} RunSafe(y: System, ops: seq<Op>, pages: iset<int>)
    requires Safe(y, pages) && Guarded(y, ops)
    ensures Safe(Run(y, ops), pages)
    decreases |ops|
  {
    if ops != [] {
      match ops[0] {
        case AllocPages(o) => AllocStep(y, o, pages);
        case FreePages(j) => FreeStep(y, j, pages);
      }
      RunSafe(Step(y, ops[0]), ops[1..], pages);
    }
  }

  // The free pages are those of s again, each in one block.
  ghost predicate Restored(s: Buddy, t: Buddy) {
    Disjoint(t) && forall i :: FreePage(t, i) <==> FreePage(s, i)
  }

  // Giving back the block just received restores the free pages if and only if
  // the neighbours that the loop absorbs have the matching orders.
  lemma AllocThenFree(s: Buddy, o: nat)
    requires Inv(s) && Alloc(s, o).1 != NULL
    ensures var (t, p) := Alloc(s, o);
      && o < MAX_PAGE_ORDER && 0 <= p < |t.isFree|
      && (Restored(s, Free(t, p, o)) <==> OrdersMatch(t, p, o))
      && (OrdersMatch(t, p, o) ==> Inv(Free(t, p, o)))
  {
    AllocSound(s, o);
    var (t, p) := Alloc(s, o);
    FreeExactIff(t, p, o);
    if OrdersMatch(t, p, o) {
      FreeSound(t, p, o);
    }
  }
}
