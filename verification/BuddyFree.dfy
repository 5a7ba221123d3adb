/**
 When freeing is right. The code keeps no block orders, so a free merges with
 any neighbour flagged free and head. This module proves that a free adds
 exactly the freed pages and keeps the blocks disjoint if and only if every
 neighbour it absorbs is a block of the order reached at that point.
*/
module BuddyFree {
  import opened Powers
  import opened Buddy

  // Every neighbour the loop absorbs is linked on the freelist of the current order.
  predicate OrdersMatch(s: Buddy, p: int, o: nat)
    requires 0 <= p < |s.isFree|
    decreases MAX_PAGE_ORDER - o, s
  {
    var q := Neighbour(s, p, o);
    q == NULL || (q in s.lists[o] && OrdersMatch(Absorb(s, p, q), Min(p, q), o + 1))
  }

  // Freeing the block adds exactly its pages and leaves the blocks disjoint.
  ghost predicate ExactFree(s: Buddy, p: int, o: nat)
    requires 0 <= p < |s.isFree|
  {
    var t := Free(s, p, o);
    && Disjoint(t)
    && forall i :: FreePage(t, i) <==> FreePage(s, i) || InBlock(i, p, o)
  }

  // ------------------------------------------------------- one round of the loop

  lemma AbsorbBlocks(s: Buddy, p: int, q: int)
    requires Disjoint(s)
    requires 0 <= p < |s.isFree| && 0 <= q < |s.isFree|
    ensures forall x, k: nat :: IsBlock(Absorb(s, p, q), x, k) <==> IsBlock(s, x, k) && x != q
    ensures Disjoint(Absorb(s, p, q))
  {
    var t := Absorb(s, p, q);
    if exists k: nat :: IsBlock(s, q, k) {
      var k: nat :| IsBlock(s, q, k);
      forall j: nat | IsBlock(s, q, j) ensures j == k {
        assert j != k ==> Apart(q, j, q, k);
      }
      forall j | 0 <= j < k ensures q !in s.lists[j] {
        assert !IsBlock(s, q, j);
      }
      UnlinkAt(s.lists, q, k);
      WithoutMembers(s.lists[k], q);
    } else {
      forall j | 0 <= j < MAX_PAGE_ORDER ensures q !in s.lists[j] {
        assert !IsBlock(s, q, j);
      }
      UnlinkAbsent(s.lists, q);
    }
  }

  lemma LinkBlocks(s: Buddy, p: int, o: nat)
    requires 0 <= p < |s.isFree| && o < MAX_PAGE_ORDER
    ensures forall x, k: nat :: IsBlock(Link(s, p, o), x, k) <==> IsBlock(s, x, k) || (x == p && k == o)
  {
  }

  // The extent a round claims when it absorbs a block of the current order.
  lemma MergeExtent(p: int, q: int, o: nat, i: int)
    requires q == p + Pow2(o) || q == p - Pow2(o)
    ensures InBlock(i, Min(p, q), o + 1) <==> InBlock(i, p, o) || InBlock(i, q, o)
  {
  }

  // The loop state: the pages in hand are no part of any block, and no page
  // inside them is a head. The page in hand may itself still be flagged.
  ghost predicate Holding(s: Buddy, p: int, o: nat) {
    && Disjoint(s)
    && InRange(s)
    && (forall x, k: nat :: IsBlock(s, x, k) ==> PlainInside(s, x, k))
    && (forall i :: i != p && Seen(s, i) ==> exists k: nat :: IsBlock(s, i, k))
    && Fits(s, p, o)
    && PlainInside(s, p, o)
  }

  // Absorbing a block of the current order keeps the loop state and the pages.
  lemma MatchedRound(s: Buddy, p: int, o: nat)
    requires Holding(s, p, o)
    requires Neighbour(s, p, o) != NULL && IsBlock(s, Neighbour(s, p, o), o)
    ensures var q := Neighbour(s, p, o); var t := Absorb(s, p, q);
      && Holding(t, Min(p, q), o + 1)
      && (forall i :: FreePage(t, i) || InBlock(i, Min(p, q), o + 1) <==> FreePage(s, i) || InBlock(i, p, o))
  {
    var q := Neighbour(s, p, o);
    var t := Absorb(s, p, q);
    AbsorbBlocks(s, p, q);
    assert Fits(t, Min(p, q), o + 1) by {
      forall x, k: nat | IsBlock(t, x, k) ensures Apart(x, k, Min(p, q), o + 1) {
        assert IsBlock(s, x, k);
        assert Apart(x, k, p, o) && Apart(x, k, q, o);
      }
    }
    assert PlainInside(t, Min(p, q), o + 1) by {
      assert PlainInside(s, p, o) && PlainInside(s, q, o);
    }
    forall x, k: nat | IsBlock(t, x, k) ensures PlainInside(t, x, k) {
      assert IsBlock(s, x, k);
      assert PlainInside(s, x, k);
    }
    forall i | i != Min(p, q) && Seen(t, i) ensures exists k: nat :: IsBlock(t, i, k) {
      assert i != Max(p, q);
      assert Seen(s, i);
      var k: nat :| IsBlock(s, i, k);
      assert IsBlock(t, i, k);
    }
    forall i
      ensures FreePage(t, i) || InBlock(i, Min(p, q), o + 1) <==> FreePage(s, i) || InBlock(i, p, o)
    {
      MergeExtent(p, q, o, i);
      if FreePage(s, i) {
        var x, k: nat :| IsBlock(s, x, k) && InBlock(i, x, k);
        if x != q {
          assert IsBlock(t, x, k);
        } else {
          assert k == o;
        }
      }
      if FreePage(t, i) {
        var x, k: nat :| IsBlock(t, x, k) && InBlock(i, x, k);
        assert IsBlock(s, x, k);
      }
    }
  }

  // The end of the loop: the block in hand is linked and flagged.
  lemma LinkHeld(s: Buddy, p: int, o: nat)
    requires Holding(s, p, o) && o < MAX_PAGE_ORDER
    ensures Inv(Link(s, p, o))
    ensures forall i :: FreePage(Link(s, p, o), i) <==> FreePage(s, i) || InBlock(i, p, o)
  {
    var t := Link(s, p, o);
    LinkBlocks(s, p, o);
    assert !IsBlock(s, p, o);
    forall x, k: nat | IsBlock(t, x, k) ensures PlainInside(t, x, k) {
      if IsBlock(s, x, k) {
        assert Apart(x, k, p, o);
      }
    }
    forall i | Seen(t, i) ensures exists k: nat :: IsBlock(t, i, k) {
      if i == p {
        assert IsBlock(t, p, o);
      } else {
        assert Seen(s, i);
        var k: nat :| IsBlock(s, i, k);
        assert IsBlock(t, i, k);
      }
    }
    forall i ensures FreePage(t, i) <==> FreePage(s, i) || InBlock(i, p, o) {
      if FreePage(s, i) {
        var x, k: nat :| IsBlock(s, x, k) && InBlock(i, x, k);
        assert IsBlock(t, x, k);
      }
      if InBlock(i, p, o) {
        assert IsBlock(t, p, o);
      }
    }
  }

  // ------------------------------------------------- sound when the orders match

  lemma {:induction false} MatchedFree(s: Buddy, p: int, o: nat)
    requires Holding(s, p, o) && o < MAX_PAGE_ORDER && OrdersMatch(s, p, o)
    ensures Inv(Free(s, p, o)) && ExactFree(s, p, o)
    decreases MAX_PAGE_ORDER - o
  {
    hide Coalesce, Inv;
    var q := Neighbour(s, p, o);
    if q == NULL {
      CoalesceStops(s, p, o);
      LinkHeld(s, p, o);
    } else {
      CoalesceAbsorbs(s, p, o, q);
      MatchedRound(s, p, o);
      MatchedFree(Absorb(s, p, q), Min(p, q), o + 1);
    }
  }

  // A free under the same-order condition adds exactly the freed pages and keeps
  // every invariant of the allocator.
  lemma FreeSound(s: Buddy, p: int, o: nat)
    requires Inv(s) && Fits(s, p, o) && PlainInside(s, p, o) && o < MAX_PAGE_ORDER
    requires OrdersMatch(s, p, o)
    ensures Inv(Free(s, p, o))
    ensures forall i :: FreePage(Free(s, p, o), i) <==> FreePage(s, i) || InBlock(i, p, o)
  {
    MatchedFree(s, p, o);
  }

  // ---------------------------------------------------- wrong when they do not

  // Rounds never shrink the extent in hand, and never touch a block inside it.
  lemma {:induction false} ExtentOnlyGrows(s: Buddy, p: int, o: nat, w: int)
    requires Disjoint(s) && 0 <= p < |s.isFree| && o < MAX_PAGE_ORDER
    requires InBlock(w, p, o)
    ensures var Merged(t, q, l) := Coalesce(s, p, o);
      && InBlock(w, q, l)
      && (forall k: nat :: IsBlock(s, w, k) ==> IsBlock(t, w, k))
      && (forall x, k: nat :: IsBlock(t, x, k) ==> IsBlock(s, x, k))
    decreases MAX_PAGE_ORDER - o
  {
    var q := Neighbour(s, p, o);
    if q != NULL {
      AbsorbBlocks(s, p, q);
      assert InBlock(w, Min(p, q), o + 1);
      ExtentOnlyGrows(Absorb(s, p, q), Min(p, q), o + 1, w);
    }
  }

  // A page at the end of the extent that is not a head stays outside it.
  lemma {:induction false} EndStays(s: Buddy, p: int, o: nat, w: int)
    requires 0 <= p < |s.isFree| && w == p + Pow2(o)
    requires 0 <= w < |s.isHead| ==> !s.isHead[w]
    ensures var Merged(t, q, l) := Coalesce(s, p, o); w == q + Pow2(l)
    decreases MAX_PAGE_ORDER - o
  {
    var q := Neighbour(s, p, o);
    if q != NULL {
      assert q == p - Pow2(o);
      EndStays(Absorb(s, p, q), q, o + 1, w);
    }
  }

  lemma {:induction false} CoalesceOnlyRemoves(s: Buddy, p: int, o: nat)
    requires Disjoint(s) && 0 <= p < |s.isFree|
    ensures var t := Coalesce(s, p, o).state;
      Disjoint(t) && forall x, k: nat :: IsBlock(t, x, k) ==> IsBlock(s, x, k)
    decreases MAX_PAGE_ORDER - o
  {
    var q := Neighbour(s, p, o);
    if q != NULL {
      AbsorbBlocks(s, p, q);
      CoalesceOnlyRemoves(Absorb(s, p, q), Min(p, q), o + 1);
    }
  }

  // A block that starts inside the extent in hand survives the loop and ends up
  // overlapping the block the loop links.
  lemma OverlapStays(s: Buddy, p: int, o: nat, w: int, k: nat)
    requires Disjoint(s) && 0 <= p < |s.isFree| && o < MAX_PAGE_ORDER
    requires InBlock(w, p, o) && IsBlock(s, w, k)
    ensures !Disjoint(Free(s, p, o))
  {
    ExtentOnlyGrows(s, p, o, w);
    var Merged(t, q, l) := Coalesce(s, p, o);
    LinkBlocks(t, q, l);
    if w == q && k == l {
      WrongTwice(t, q, l);
    } else {
      assert IsBlock(Link(t, q, l), w, k) && IsBlock(Link(t, q, l), q, l);
      assert !Apart(w, k, q, l);
    }
  }

  lemma ExtentIsFree(s: Buddy, p: int, o: nat, w: int)
    requires Disjoint(s) && 0 <= p < |s.isFree| && o < MAX_PAGE_ORDER
    requires InBlock(w, p, o)
    ensures FreePage(Free(s, p, o), w)
  {
    ExtentOnlyGrows(s, p, o, w);
    var Merged(t, q, l) := Coalesce(s, p, o);
    LinkBlocks(t, q, l);
    assert IsBlock(Link(t, q, l), q, l);
  }

  lemma FreeAbsorbs(s: Buddy, p: int, o: nat, q: int, t: Buddy, r: int)
    requires 0 <= p < |s.isFree| && Neighbour(s, p, o) == q && q != NULL
    requires t == Absorb(s, p, q) && r == Min(p, q)
    ensures Free(s, p, o) == Free(t, r, o + 1)
  {
    CoalesceAbsorbs(s, p, o, q);
  }

  lemma BlockRightAfter(s: Buddy, q: int, k: nat, w: int) returns (j: nat)
    requires Disjoint(s) && IsBlock(s, q, k) && w == q + Pow2(k) && FreePage(s, w)
    ensures IsBlock(s, w, j)
  {
    var x: int;
    x, j :| IsBlock(s, x, j) && InBlock(w, x, j);
    assert Apart(x, j, q, k);
  }

  // What the rest of the loop makes of a block t, r that claims page w wrongly:
  // w is not free before, or still belongs to a block.
  lemma WrongClaim(s: Buddy, t: Buddy, r: int, l: nat, w: int)
    requires Disjoint(t) && 0 <= r < |t.isFree| && l < MAX_PAGE_ORDER && InBlock(w, r, l)
    requires FreePage(s, w) ==> exists j: nat :: IsBlock(t, w, j)
    ensures !Disjoint(Free(t, r, l)) || (FreePage(Free(t, r, l), w) && !FreePage(s, w))
  {
    if FreePage(s, w) {
      var j: nat :| IsBlock(t, w, j);
      OverlapStays(t, r, l, w, j);
    } else {
      ExtentIsFree(t, r, l, w);
    }
  }

  // Absorbing a smaller block claims the page right after it.
  lemma SmallerClaims(s: Buddy, p: int, o: nat, q: int, k: nat, w: int, t: Buddy, r: int)
    requires Holding(s, p, o) && o < MAX_PAGE_ORDER
    requires Neighbour(s, p, o) == q && q != NULL && IsBlock(s, q, k) && k < o
    requires w == q + Pow2(k) && t == Absorb(s, p, q) && r == Min(p, q)
    ensures InBlock(w, r, o + 1) && !InBlock(w, p, o)
    ensures Disjoint(t) && (FreePage(s, w) ==> exists j: nat :: IsBlock(t, w, j))
  {
    hide Coalesce, Absorb, Disjoint;
    CoalesceAbsorbs(s, p, o, q);
    Pow2Monotone(k + 1, o);
    AbsorbBlocks(s, p, q);
    if FreePage(s, w) {
      var j := BlockRightAfter(s, q, k, w);
      assert IsBlock(t, w, j);
    }
  }

  lemma SmallerNeighbour(s: Buddy, p: int, o: nat, q: int, k: nat, w: int)
    requires Holding(s, p, o) && o < MAX_PAGE_ORDER
    requires Neighbour(s, p, o) == q && q != NULL && IsBlock(s, q, k) && k < o
    requires w == q + Pow2(k)
    ensures !ExactFree(s, p, o)
  {
    hide Free, Coalesce;
    CoalesceAbsorbs(s, p, o, q);
    var t, r := Absorb(s, p, q), Min(p, q);
    SmallerClaims(s, p, o, q, k, w, t, r);
    WrongClaim(s, t, r, o + 1, w);
    FreeAbsorbs(s, p, o, q, t, r);
  }

  lemma WrongTwice(s: Buddy, p: int, o: nat)
    requires 0 <= p < |s.isFree| && IsBlock(s, p, o)
    ensures !Disjoint(Link(s, p, o))
  {
    var l := Link(s, p, o).lists[o];
    var i :| 0 <= i < |s.lists[o]| && s.lists[o][i] == p;
    assert l[0] == l[i + 1];
  }

  // Absorbing a larger block, which can only be the next one, loses its tail: page
  // w was free and is in no block any more.
  lemma LargerLoses(s: Buddy, p: int, o: nat, k: nat, q: int, w: int, t: Buddy)
    requires Holding(s, p, o) && o < MAX_PAGE_ORDER && Neighbour(s, p, o) == q && q != NULL
    requires IsBlock(s, q, k) && k > o && t == Absorb(s, p, q) && w == q + Pow2(o)
    ensures q == p + Pow2(o) && InBlock(w, q, k)
    ensures forall x, j: nat :: IsBlock(t, x, j) ==> !InBlock(w, x, j)
  {
    Pow2Monotone(o + 1, k);
    assert Apart(q, k, p, o);
    AbsorbBlocks(s, p, q);
    forall x, j: nat | IsBlock(t, x, j) ensures !InBlock(w, x, j) {
      assert Apart(x, j, q, k);
    }
  }

  lemma LargerNeighbour(s: Buddy, p: int, o: nat, k: nat)
    requires Holding(s, p, o) && o < MAX_PAGE_ORDER
    requires Neighbour(s, p, o) != NULL && IsBlock(s, Neighbour(s, p, o), k) && k > o
    ensures !ExactFree(s, p, o)
  {
    hide Coalesce, Inv;
    var q := Neighbour(s, p, o);
    var t, w := Absorb(s, p, q), q + Pow2(o);
    LargerLoses(s, p, o, k, q, w, t);
    assert PlainInside(s, q, k);
    CoalesceAbsorbs(s, p, o, q);
    EndStays(t, p, o + 1, w);
    AbsorbBlocks(s, p, q);
    CoalesceOnlyRemoves(t, p, o + 1);
    var Merged(u, r, l) := Coalesce(s, p, o);
    LinkBlocks(u, r, l);
    assert FreePage(s, w);
    forall x, j: nat | IsBlock(Link(u, r, l), x, j) ensures !InBlock(w, x, j) {
      assert x != r || j != l ==> IsBlock(u, x, j) && IsBlock(t, x, j);
    }
  }

  // After a matched round, the free is exact iff the free of the larger block is.
  lemma ExactAfterRound(s: Buddy, p: int, o: nat, q: int, t: Buddy, r: int)
    requires Holding(s, p, o) && Neighbour(s, p, o) == q && q != NULL && IsBlock(s, q, o)
    requires t == Absorb(s, p, q) && r == Min(p, q)
    ensures Holding(t, r, o + 1)
    ensures ExactFree(s, p, o) <==> ExactFree(t, r, o + 1)
  {
    MatchedRound(s, p, o);
    FreeAbsorbs(s, p, o, q, t, r);
  }

  // The condition is exact, for every state, page and order.
  lemma {:induction false} ExactIffOrdersMatch(s: Buddy, p: int, o: nat)
    requires Holding(s, p, o) && o < MAX_PAGE_ORDER
    ensures ExactFree(s, p, o) <==> OrdersMatch(s, p, o)
    decreases MAX_PAGE_ORDER - o
  {
    hide Absorb, ExactFree;
    var q := Neighbour(s, p, o);
    if q == NULL {
      MatchedFree(s, p, o);
    } else {
      CoalesceAbsorbs(s, p, o, q);
      var k: nat :| IsBlock(s, q, k);
      if k < o {
        SmallerNeighbour(s, p, o, q, k, q + Pow2(k));
      } else if k > o {
        LargerNeighbour(s, p, o, k);
      } else {
        ExactAfterRound(s, p, o, q, Absorb(s, p, q), Min(p, q));
        ExactIffOrdersMatch(Absorb(s, p, q), Min(p, q), o + 1);
      }
      assert OrdersMatch(s, p, o) ==> k == o by { OneList(s, q, k, o); }
    }
  }

  lemma OneList(s: Buddy, q: int, k: nat, l: nat)
    requires Disjoint(s) && IsBlock(s, q, k)
    ensures IsBlock(s, q, l) ==> k == l
  {
    assert IsBlock(s, q, l) && k != l ==> Apart(q, k, q, l);
  }

  // The statement for a caller: an allocator in order, and a block to give back.
  lemma FreeExactIff(s: Buddy, p: int, o: nat)
    requires Inv(s) && Fits(s, p, o) && PlainInside(s, p, o) && o < MAX_PAGE_ORDER
    ensures ExactFree(s, p, o) <==> OrdersMatch(s, p, o)
  {
    ExactIffOrdersMatch(s, p, o);
  }

  // Between two free blocks of its order, a block is joined with the one behind it; the
  // one before it stays as it is, unless the joined block goes on to find a neighbour.
  lemma BetweenTwo(s: Buddy, p: int, o: nat)
    requires Disjoint(s) && 0 <= p < |s.isFree| && o < MAX_PAGE_ORDER - 1
    requires IsBlock(s, p + Pow2(o), o) && Seen(s, p + Pow2(o))
    requires IsBlock(s, p - Pow2(o), o) && Seen(s, p - Pow2(o))
    requires o + 1 < MAX_PAGE_ORDER - 1 ==> !Seen(s, p + 2 * Pow2(o)) && !Seen(s, p - 2 * Pow2(o))
    ensures forall x, k: nat :: IsBlock(Free(s, p, o), x, k) <==>
      (IsBlock(s, x, k) && x != p + Pow2(o)) || (x == p && k == o + 1)
  {
    JoinsNext(s, p, o);
    hide Free, Absorb, Neighbour, Link;
    var t := Absorb(s, p, p + Pow2(o));
    AbsorbBlocks(s, p, p + Pow2(o));
    LinkBlocks(t, p, o + 1);
  }

  lemma JoinsNext(s: Buddy, p: int, o: nat)
    requires 0 <= p < |s.isFree| && o < MAX_PAGE_ORDER - 1 && Seen(s, p + Pow2(o))
    requires o + 1 < MAX_PAGE_ORDER - 1 ==> !Seen(s, p + 2 * Pow2(o)) && !Seen(s, p - 2 * Pow2(o))
    ensures Free(s, p, o) == Link(Absorb(s, p, p + Pow2(o)), p, o + 1)
  {
    hide Unlink, Coalesce, Link, Pow2;
    var q := p + Pow2(o);
    Twice(o);
    CoalesceAbsorbs(s, p, o, q);
    CoalesceStops(Absorb(s, p, q), p, o + 1);
  }

  lemma Twice(o: nat)
    ensures Pow2(o + 1) == 2 * Pow2(o)
  {
  }

  // Descriptors that are not mapped are not looked at: between two of them, a block is
  // linked as it is.
  lemma UnmappedStay(s: Buddy, p: int, o: nat)
    requires 0 <= p < |s.isFree| && o < MAX_PAGE_ORDER
    requires p + Pow2(o) !in s.mapped && p - Pow2(o) !in s.mapped
    ensures var t := Free(s, p, o);
      && t.lists == s.lists[o := [p] + s.lists[o]]
      && t.isFree == s.isFree[p := true] && t.isHead == s.isHead[p := true]
  {
    hide Coalesce;
    CoalesceStops(s, p, o);
  }

  // Frames 0 and 3 are free blocks of one page, frames 1 and 2 are in use.
  function FreeAtBothEnds(): (s: Buddy)
    ensures |s.isFree| == 4
  {
    State([[0, 3], [], [], [], [], [], [], [], [], [], []],
          [true, false, false, true], [true, false, false, true], {0, 1, 2, 3})
  }

  lemma BothEndsInOrder()
    ensures var s := FreeAtBothEnds(); Inv(s) && Fits(s, 2, 0) && PlainInside(s, 2, 0) && !FreePage(s, 1)
  {
    var s := FreeAtBothEnds();
    assert forall x, k: nat :: IsBlock(s, x, k) <==> k == 0 && (x == 0 || x == 3);
    assert SeenLinked(s) by { assert IsBlock(s, 0, 0) && IsBlock(s, 3, 0); }
    assert Pow2(0) == 1;
  }

  // The condition is needed. Giving back frame 2 absorbs frame 3 and then, at order
  // 1, frame 0: the result is one block of four pages, and frame 1 is in it.
  lemma FreeClaimsPageInUse()
    ensures var s := FreeAtBothEnds();
      && Inv(s) && Fits(s, 2, 0) && PlainInside(s, 2, 0) && !OrdersMatch(s, 2, 0)
      && !FreePage(s, 1) && FreePage(Free(s, 2, 0), 1)
  {
    BothEndsInOrder();
    var s := FreeAtBothEnds();
    assert Pow2(0) == 1 && Pow2(1) == 2 && Pow2(2) == 4;
    var t := Absorb(s, 2, 3);
    assert Neighbour(s, 2, 0) == 3 && Neighbour(t, 2, 1) == 0;
    var u := Absorb(t, 2, 0);
    assert Neighbour(u, 0, 2) == NULL;
    CoalesceAbsorbs(s, 2, 0, 3);
    CoalesceAbsorbs(t, 2, 1, 0);
    CoalesceStops(u, 0, 2);
    assert Free(s, 2, 0) == Link(u, 0, 2);
    assert IsBlock(Link(u, 0, 2), 0, 2) && InBlock(1, 0, 2);
    assert 0 !in t.lists[1];
  }
}
