/**
 The buddy system of code/mm/page_alloc.c as it runs: freelists threaded through
 the page descriptors, flags updated in place. Every method is proved against the
 function of module Buddy for it.
*/
module PageAlloc {
  import opened Powers
  import opened PageSizes
  import opened IntrusiveList
  import opened Buddy
  import opened BuddyFree
  import opened BuddyRuns

  // next_page_by_order and prev_page_by_order.
  function NextPageByOrder(p: int, order: nat): int {
    if order >= MAX_PAGE_ORDER then NULL else p + Pow2(order)
  }

  function PrevPageByOrder(p: int, order: nat): int {
    if order >= MAX_PAGE_ORDER then NULL else p - Pow2(order)
  }

  class PageAllocator {
    // The descriptor array has n entries. List node i < n is pages[i].list, and
    // list node n + k is freelist[k]; further nodes belong to others.
    const n: nat
    const mapped: set<int>
    const links: Links
    const isFree: array<bool>
    const isHead: array<bool>

    // What the links and flags represent.
    ghost var state: Buddy

    // The arrays before freelist_init; the flags hold what was there before.
    constructor (n: nat, mapped: set<int>, extra: nat, flags: seq<(bool, bool)>)
      requires |flags| == n && forall i :: i in mapped ==> 0 <= i < n
      ensures Raw() && fresh(links) && fresh(links.next) && fresh(links.prev) && fresh(isFree) && fresh(isHead)
      ensures this.n == n && this.mapped == mapped
      ensures links.next.Length == n + MAX_PAGE_ORDER + extra && links.lists == map[]
      ensures forall i :: 0 <= i < n ==> isFree[i] == flags[i].0 && isHead[i] == flags[i].1
    {
      this.n := n;
      this.mapped := mapped;
      var l := new Links(n + MAX_PAGE_ORDER + extra);
      this.links := l;
      this.isFree := new bool[n](i requires 0 <= i < n => flags[i].0);
      this.isHead := new bool[n](i requires 0 <= i < n => flags[i].1);
      new;
      assert isFree != isHead;
    }

    function Head(k: nat): int { n + k }

    predicate IsHead(h: int) { n <= h < n + MAX_PAGE_ORDER }

    ghost predicate Raw()
      reads this, links, links.next, links.prev, isFree, isHead
    {
      && links.Valid()
      && n + MAX_PAGE_ORDER <= links.next.Length
      && isFree.Length == n && isHead.Length == n && isFree != isHead
      && (forall i :: i in mapped ==> 0 <= i < n)
    }

    ghost predicate Valid()
      reads this, links, links.next, links.prev, isFree, isHead
    {
      && Raw()
      && state.isFree == isFree[..] && state.isHead == isHead[..] && state.mapped == mapped
      && (forall k: nat :: k < MAX_PAGE_ORDER ==> FreelistOk(k))
    }

    // freelist[k] heads the list that the state has at k, and its nodes are pages.
    ghost predicate FreelistOk(k: nat)
      requires k < MAX_PAGE_ORDER
      reads this, links
    {
      && Head(k) in links.lists
      && links.lists[Head(k)] == state.lists[k]
      && forall x :: x in state.lists[k] ==> 0 <= x < n
    }

    // Lists that are not freelists are as they were.
    twostate predicate OthersSame()
      reads links
    {
      && links.lists.Keys == old(links.lists.Keys)
      && forall h :: h in old(links.lists) && !IsHead(h) ==> links.lists[h] == old(links.lists[h])
    }

    // freelist_init: every freelist becomes empty.
    method FreelistInit()
      requires Raw() && forall k: nat :: k < MAX_PAGE_ORDER ==> links.Unlinked(Head(k))
      modifies this`state, links`lists, links.next, links.prev
      ensures Valid() && forall k: nat :: k < MAX_PAGE_ORDER ==> state.lists[k] == []
      ensures forall h :: h in links.lists <==> h in old(links.lists) || IsHead(h)
      ensures forall h :: h in old(links.lists) ==> links.lists[h] == old(links.lists[h])
    {
      state := State(seq(MAX_PAGE_ORDER, _ => []), isFree[..], isHead[..], mapped);
      for i: nat := 0 to MAX_PAGE_ORDER
        invariant Raw() && state == State(seq(MAX_PAGE_ORDER, _ => []), isFree[..], isHead[..], mapped)
        invariant forall h :: h in links.lists <==> h in old(links.lists) || n <= h < n + i
        invariant forall h :: h in old(links.lists) ==> links.lists[h] == old(links.lists[h])
        invariant forall k: nat :: k < i ==> FreelistOk(k)
        invariant forall k: nat :: i <= k < MAX_PAGE_ORDER ==> links.Unlinked(Head(k))
      {
        label before:
        links.HeadInit(Head(i));
        forall k: nat | k < i ensures FreelistOk(k) {
          assert old@before(FreelistOk(k));
        }
        forall k: nat | i + 1 <= k < MAX_PAGE_ORDER ensures links.Unlinked(Head(k)) {
          assert old@before(links.Unlinked(Head(k)));
        }
      }
    }

    // Where node q is linked: index i of freelist k, and of no other list.
    lemma Locate(q: int) returns (k: nat, i: nat)
      requires Valid() && exists k: nat :: IsBlock(state, q, k)
      ensures k < MAX_PAGE_ORDER && FreelistOk(k) && i < |state.lists[k]| && state.lists[k][i] == q
      ensures NoRepeat(state.lists[k])
      ensures Unlink(state.lists, q) == state.lists[k := Removed(state.lists[k], i)]
      ensures forall l: nat :: IsBlock(state, q, l) ==> l == k
    {
      k :| IsBlock(state, q, k);
      assert FreelistOk(k);
      i :| 0 <= i < |state.lists[k]| && state.lists[k][i] == q;
      assert links.On(q, Head(k));
      forall j: nat | j < MAX_PAGE_ORDER && q in state.lists[j] ensures j == k {
        assert FreelistOk(j) && links.On(q, Head(j));
        assert links.OneList(q, Head(j), Head(k));
      }
      UnlinkAt(state.lists, q, k);
      assert links.RingAt(Head(k));
      WithoutAt(state.lists[k], i);
    }

    // list_del on a node that is on some freelist.
    method Detach(q: int)
      requires Valid() && exists k: nat :: IsBlock(state, q, k)
      modifies this`state, links`lists, links.next, links.prev
      ensures Valid() && OthersSame() && links.Unlinked(q) && 0 <= q < n
      ensures state == old(state).(lists := Unlink(old(state).lists, q))
      ensures forall x, k: nat :: IsBlock(state, x, k) <==> IsBlock(old(state), x, k) && x != q
      ensures forall x :: old(links.Unlinked(x)) ==> links.Unlinked(x)
    {
      ghost var k, i := Locate(q);
      ghost var l := state.lists[k];
      RemovedMembers(l, i);
      links.Del(q, Head(k), i);
      state := state.(lists := state.lists[k := Removed(l, i)]);
      forall j: nat | j < MAX_PAGE_ORDER ensures FreelistOk(j) {
        assert old(FreelistOk(j));
      }
      forall x | old(links.Unlinked(x)) ensures links.Unlinked(x) {
        forall h | h in links.lists ensures !links.On(x, h) { assert !old(links.On(x, h)); }
      }
    }

    // list_add_next on the head of freelist k.
    method Attach(k: nat, x: int)
      requires Valid() && k < MAX_PAGE_ORDER && 0 <= x < n && links.Unlinked(x)
      modifies this`state, links`lists, links.next, links.prev
      ensures Valid() && OthersSame()
      ensures state == old(state).(lists := old(state).lists[k := [x] + old(state).lists[k]])
      ensures forall y :: y != x && old(links.Unlinked(y)) ==> links.Unlinked(y)
    {
      assert FreelistOk(k);
      links.AddNext(Head(k), x, Head(k), 0);
      state := state.(lists := state.lists[k := [x] + state.lists[k]]);
      assert links.lists[Head(k)] == state.lists[k];
      forall j: nat | j < MAX_PAGE_ORDER ensures FreelistOk(j) {
        assert old(FreelistOk(j));
      }
      forall y | y != x && old(links.Unlinked(y)) ensures links.Unlinked(y) {
        forall h | h in links.lists ensures !links.On(y, h) { assert !old(links.On(y, h)); }
      }
    }

    // A page is not on any list, and every other page that is mapped, free and
    // head is on a freelist: what the coalescing loop needs of page p in hand.
    ghost predicate Loose(p: int)
      reads this, links
    {
      0 <= p < n && links.Unlinked(p) && SeenLinkedBut(state, p)
    }

    // The state follows a change of flags.
    ghost method FlagsOnly(t: Buddy)
      requires Raw() && forall k: nat :: k < MAX_PAGE_ORDER ==> FreelistOk(k)
      requires t.lists == state.lists && t.isFree == isFree[..] && t.isHead == isHead[..] && t.mapped == mapped
      modifies this`state
      ensures Valid() && state == t
    {
      state := t;
      forall k: nat | k < MAX_PAGE_ORDER ensures FreelistOk(k) {
        assert old(FreelistOk(k));
      }
    }

    // The two bodies of the coalescing loop: list_del, then the flags.
    method AbsorbNext(p: int, next: int, ghost order: nat)
      requires Valid() && Loose(p) && next > p && Neighbour(state, p, order) == next
      modifies this`state, links`lists, links.next, links.prev, isFree, isHead
      ensures Valid() && OthersSame() && Loose(p)
      ensures Coalesce(state, p, order + 1) == Coalesce(old(state), p, order)
    {
      CoalesceAbsorbs(state, p, order, next);
      assert exists k: nat :: IsBlock(state, next, k);
      Detach(next);
      isHead[next] := false;
      FlagsOnly(Absorb(old(state), p, next));
      SeenKept(old(state), state, p, next);
    }

    method AbsorbPrev(p: int, prev: int, ghost order: nat)
      requires Valid() && Loose(p) && 0 <= prev < p && Neighbour(state, p, order) == prev
      modifies this`state, links`lists, links.next, links.prev, isFree, isHead
      ensures Valid() && OthersSame() && Loose(prev)
      ensures Coalesce(state, prev, order + 1) == Coalesce(old(state), p, order)
    {
      CoalesceAbsorbs(state, p, order, prev);
      assert exists k: nat :: IsBlock(state, prev, k);
      Detach(prev);
      isHead[p] := false;
      isFree[p] := true;
      FlagsOnly(Absorb(old(state), p, prev));
      SeenKept(old(state), state, p, prev);
    }

    // The body of the coalescing loop; q is the page in hand after it, and more
    // says if the loop goes on.
    method Combine(p: int, order: nat) returns (more: bool, q: int)
      requires Valid() && Loose(p) && order < MAX_PAGE_ORDER - 1
      modifies this`state, links`lists, links.next, links.prev, isFree, isHead
      ensures Valid() && OthersSame() && Loose(q)
      ensures if more then Coalesce(state, q, order + 1) == Coalesce(old(state), p, order)
              else q == p && state == old(state) && Neighbour(state, p, order) == NULL
    {
      var next := NextPageByOrder(p, order);
      if next in mapped && isFree[next] && isHead[next] {
        AbsorbNext(p, next, order);
        return true, p;
      }
      var prev := PrevPageByOrder(p, order);
      if prev in mapped && isFree[prev] && isHead[prev] {
        AbsorbPrev(p, prev, order);
        return true, prev;
      }
      return false, p;
    }

    // The end of __free_pages: list_add_next, then the flags.
    method LinkHead(p: int, order: nat)
      requires Valid() && Loose(p) && order < MAX_PAGE_ORDER
      modifies this`state, links`lists, links.next, links.prev, isFree, isHead
      ensures Valid() && OthersSame() && state == Link(old(state), p, order) && SeenLinked(state)
    {
      Attach(order, p);
      isFree[p] := true;
      isHead[p] := true;
      FlagsOnly(Link(old(state), p, order));
      LinkSeen(old(state), p, order);
    }

    // __free_pages: the coalescing loop, then the block goes on its freelist.
    method FreePages(p0: int, order0: nat)
      requires Valid()
      requires p0 == NULL || 0 <= p0 < n
      requires p0 != NULL && order0 < MAX_PAGE_ORDER ==> Loose(p0)
      modifies this`state, links`lists, links.next, links.prev, isFree, isHead
      ensures Valid() && OthersSame()
      ensures state == Free(old(state), p0, order0)
      ensures p0 != NULL && order0 < MAX_PAGE_ORDER ==> SeenLinked(state)
    {
      hide Coalesce;
      if p0 == NULL {
        return;
      }
      if order0 >= MAX_PAGE_ORDER {
        return;
      }
      var p, order := p0, order0;
      while order < MAX_PAGE_ORDER - 1
        invariant order < MAX_PAGE_ORDER
        invariant Valid() && OthersSame() && Loose(p)
        invariant Coalesce(state, p, order) == Coalesce(old(state), p0, order0)
      {
        var more, q := Combine(p, order);
        if !more {
          break;
        }
        p, order := q, order + 1;
      }
      CoalesceStops(state, p, order);
      LinkHead(p, order);
    }

    // Lists other than the freelists hold no free page.
    ghost predicate OthersOutside()
      reads this, links
    {
      forall h, x :: links.On(x, h) && !IsHead(h) ==> !FreePage(state, x)
    }

    // Pages of a free block are on no list but their own block's freelist.
    lemma InsideUnlinked(s: Buddy, p: int, a: nat, x: int)
      requires Valid() && Holding(state, p, a) && InBlock(x, p, a)
      requires forall h :: links.On(x, h) ==> IsHead(h)
      ensures links.Unlinked(x)
    {
      forall h | h in links.lists ensures !links.On(x, h) {
        if IsHead(h) {
          var k := h - n;
          assert h == Head(k) && FreelistOk(k);
          assert IsBlock(state, x, k) ==> Apart(x, k, p, a);
        }
      }
    }

    // list_entry of the first node of freelist a, and list_del on it.
    method TakeNode(a: nat) returns (p: int)
      requires Valid() && a < MAX_PAGE_ORDER && state.lists[a] != []
      modifies this`state, links`lists, links.next, links.prev
      ensures Valid() && OthersSame() && 0 <= p < n
      ensures p == old(state).lists[a][0] && state == Take(old(state), a)
    {
      assert FreelistOk(a);
      p := links.First(Head(a));
      assert p in state.lists[a];
      links.Del(p, Head(a), 0);
      assert Removed(state.lists[a], 0) == state.lists[a][1..];
      state := Take(state, a);
      assert forall x :: x in old(state).lists[a][1..] ==> x in old(state).lists[a];
      assert links.lists[Head(a)] == state.lists[a];
      forall j: nat | j < MAX_PAGE_ORDER ensures FreelistOk(j) {
        assert old(FreelistOk(j));
        assert forall x :: x in state.lists[j] ==> x in old(state).lists[j];
      }
    }

    // __alloc_page_direct: the first block of the first non-empty freelist at or
    // above the order, less the upper halves, which go back one order down each.
    method AllocPageDirect(order: nat) returns (p: int)
      requires Valid() && Inv(state) && OthersOutside() && order < MAX_PAGE_ORDER
      modifies this`state, links`lists, links.next, links.prev
      ensures Valid() && OthersSame()
      ensures var a := FirstFit(old(state), order);
        if a == MAX_PAGE_ORDER then p == NULL && state == old(state)
        else p == old(state).lists[a][0] && state == Split(Take(old(state), a), p, a, order)
    {
      hide Inv;
      p := NULL;
      var a := order;
      while a < MAX_PAGE_ORDER
        invariant order <= a <= MAX_PAGE_ORDER && p == NULL
        invariant Valid() && OthersSame() && state == old(state)
        invariant FirstFit(state, order) == FirstFit(state, a)
      {
        assert FreelistOk(a);
        var empty := links.Empty(Head(a));
        if !empty {
          TakeFirst(state, a);
          p := TakeNode(a);
          break;
        } else {
          a := a + 1;
        }
      }
      if p == NULL {
        return;
      }
      ghost var taken := state;
      ghost var top := a;
      if a != order {
        var b: int := a - 1;
        assert SplitFrom(p, order, top, b + 1, taken);
        while b >= order
          invariant order - 1 <= b < top
          invariant Valid() && OthersSame() && SplitFrom(p, order, top, b + 1, taken)
          invariant forall h, x :: links.On(x, h) && !IsHead(h) ==> !InBlock(x, p, top)
        {
          PutBackHalf(p, order, top, b, taken);
          b := b - 1;
        }
      }
    }

    // The split loop has come down to order b.
    ghost predicate SplitFrom(p: int, order: nat, top: nat, b: nat, taken: Buddy)
      reads this, links
    {
      && order <= b <= top < MAX_PAGE_ORDER
      && Split(state, p, b, order) == Split(taken, p, top, order)
      && Holding(state, p, b)
    }

    // The body of the split loop.
    method PutBackHalf(p: int, order: nat, ghost top: nat, b: nat, ghost taken: Buddy)
      requires Valid() && order <= b < top && SplitFrom(p, order, top, b + 1, taken)
      requires forall h, x :: links.On(x, h) && !IsHead(h) ==> !InBlock(x, p, top)
      modifies this`state, links`lists, links.next, links.prev
      ensures Valid() && OthersSame() && SplitFrom(p, order, top, b, taken)
      ensures forall h, x :: links.On(x, h) && !IsHead(h) ==> !InBlock(x, p, top)
    {
      var half := NextPageByOrder(p, b);
      Pow2Monotone(b + 1, top);
      InsideUnlinked(state, p, b + 1, half);
      Attach(b, half);
      SplitOnce(old(state), p, b + 1, b, state);
      forall h, x | links.On(x, h) && !IsHead(h) ensures !InBlock(x, p, top) {
        assert old(links.On(x, h));
      }
    }

    // The loop that marks the pages of an issued block as in use.
    method MarkPagesUsed(p: int, count: nat)
      requires Valid() && 0 <= p && p + count <= n
      modifies this`state, isFree
      ensures Valid() && state == MarkUsed(old(state), p, count)
    {
      for i := 0 to count
        invariant isFree[..] == MarkUsed(old(state), p, i).isFree
        invariant state == old(state) && isHead[..] == old(isHead[..])
      {
        isFree[p + i] := false;
      }
      state := MarkUsed(state, p, count);
      forall k: nat | k < MAX_PAGE_ORDER ensures FreelistOk(k) {
        assert old(FreelistOk(k));
      }
    }

    // __alloc_pages: allocation, then the pages stop being free.
    method AllocPages(order: nat) returns (p: int)
      requires Valid() && Inv(state) && OthersOutside()
      modifies this`state, links`lists, links.next, links.prev, isFree
      ensures Valid() && OthersSame() && Inv(state) && OthersOutside()
      ensures (state, p) == Alloc(old(state), order)
    {
      p := NULL;
      if order >= MAX_PAGE_ORDER {
        return;
      }
      AllocSound(state, order);
      p := AllocPageDirect(order);
      if p != NULL {
        assert Fits(Alloc(old(state), order).0, p, order);
        MarkPagesUsed(p, Pow2(order));
      }
      forall h, x | links.On(x, h) && !IsHead(h) ensures !FreePage(state, x) {
        assert old(links.On(x, h));
      }
    }

    // mm_phys_alloc: the size is rounded up to a power-of-two number of pages.
    // The result is a physical address, -1 for failure.
    method PhysAlloc(sz: nat) returns (pa: int)
      requires Valid() && Inv(state) && OthersOutside() && sz <= Pow2(63)
      modifies this`state, links`lists, links.next, links.prev, isFree
      ensures Valid() && OthersSame() && Inv(state) && OthersOutside()
      ensures exists o: nat :: LeastOrder(sz, o) && state == Alloc(old(state), o).0 &&
                pa == PageToPhys(Alloc(old(state), o).1)
    {
      hide Inv, Alloc;
      var order := OrderForSize(sz);
      var p := AllocPages(order);
      if p == NULL {
        pa := -1;
      } else {
        pa := p * PAGE_SIZE;
      }
    }
  }

  // Every page that is seen, other than p, is on a freelist.
  ghost predicate SeenLinkedBut(s: Buddy, p: int) {
    forall i :: i != p && Seen(s, i) ==> exists k: nat :: IsBlock(s, i, k)
  }

  // Absorbing q leaves every other page that is seen linked.
  lemma SeenKept(s: Buddy, t: Buddy, p: int, q: int)
    requires 0 <= p < |s.isFree| && 0 <= q < |s.isFree| && p != q && t == Absorb(s, p, q)
    requires SeenLinkedBut(s, p)
    requires forall x, k: nat :: IsBlock(t, x, k) <==> IsBlock(s, x, k) && x != q
    ensures SeenLinkedBut(t, Min(p, q))
  {
    forall i | i != Min(p, q) && Seen(t, i) ensures exists k: nat :: IsBlock(t, i, k) {
      assert Seen(s, i) && i != p && i != q;
      var k: nat :| IsBlock(s, i, k);
      assert IsBlock(t, i, k);
    }
  }

  lemma LinkSeen(s: Buddy, p: int, o: nat)
    requires 0 <= p < |s.isFree| && o < MAX_PAGE_ORDER && SeenLinkedBut(s, p)
    ensures SeenLinked(Link(s, p, o))
  {
    var t := Link(s, p, o);
    LinkBlocks(s, p, o);
    forall i | Seen(t, i) ensures exists k: nat :: IsBlock(t, i, k) {
      if i == p {
        assert IsBlock(t, p, o);
      } else {
        assert Seen(s, i);
        var k: nat :| IsBlock(s, i, k);
        assert IsBlock(t, i, k);
      }
    }
  }
}
