/**
 The buddy system of code/mm/page_alloc.c as functions on values.

 A page descriptor is named by its frame number. The state holds the contents
 of the eleven freelists (front first), the two flags of every descriptor, and
 the set of frames whose descriptor is mapped in the kernel page table.
*/
module Buddy {
  import opened Powers
  import opened IntrusiveList

  const MAX_PAGE_ORDER: nat := 11

  // NULL as a page pointer; frame numbers are never negative.
  const NULL: int := -1

  datatype State = State(
    lists: seq<seq<int>>,
    isFree: seq<bool>,
    isHead: seq<bool>,
    mapped: set<int>)

  ghost predicate Shaped(s: State) {
    && |s.lists| == MAX_PAGE_ORDER
    && |s.isFree| == |s.isHead|
    && forall i :: i in s.mapped ==> 0 <= i < |s.isFree|
  }

  type Buddy = s: State | Shaped(s)
    witness State(seq(MAX_PAGE_ORDER, _ => []), [], [], {})

  // What the coalescing loop asks of a neighbour: mapped, free and head.
  predicate Seen(s: Buddy, i: int) {
    i in s.mapped && s.isFree[i] && s.isHead[i]
  }

  // ---------------------------------------------------------------- freelists

  // The list without its (first) node x.
  function Without(l: seq<int>, x: int): seq<int> {
    if l == [] then []
    else if l[0] == x then l[1..]
    else [l[0]] + Without(l[1..], x)
  }

  lemma {:induction false} WithoutAbsent(l: seq<int>, x: int)
    requires x !in l
    ensures Without(l, x) == l
  {
    if l != [] {
      WithoutAbsent(l[1..], x);
    }
  }

  lemma RemovedTail(l: seq<int>, i: nat)
    requires 0 < i < |l|
    ensures Removed(l, i) == [l[0]] + Removed(l[1..], i - 1)
  {
  }

  lemma {:induction false} WithoutAt(l: seq<int>, i: nat)
    requires i < |l| && forall j :: 0 <= j < i ==> l[j] != l[i]
    ensures Without(l, l[i]) == Removed(l, i)
  {
    if i > 0 {
      assert l[1..][i - 1] == l[i];
      WithoutAt(l[1..], i - 1);
      RemovedTail(l, i);
    }
  }

  lemma {:induction false} WithoutMembers(l: seq<int>, x: int)
    requires NoRepeat(l)
    ensures NoRepeat(Without(l, x))
    ensures forall y :: y in Without(l, x) <==> y in l && y != x
  {
    if x in l {
      var i :| 0 <= i < |l| && l[i] == x;
      WithoutAt(l, i);
    } else {
      WithoutAbsent(l, x);
    }
  }

  // The first list from a on that node x is linked on; |lists| if none.
  function ListOf(lists: seq<seq<int>>, x: int, a: nat): (r: nat)
    requires a <= |lists|
    ensures r <= |lists|
    decreases |lists| - a
  {
    if a == |lists| || x in lists[a] then a else ListOf(lists, x, a + 1)
  }

  // list_del acts on the node, whichever list it is on.
  function Unlink(lists: seq<seq<int>>, x: int): seq<seq<int>> {
    var k := ListOf(lists, x, 0);
    if k == |lists| then lists else lists[k := Without(lists[k], x)]
  }

  lemma {:induction false} ListOfFinds(lists: seq<seq<int>>, x: int, a: nat)
    requires a <= |lists|
    ensures var r := ListOf(lists, x, a);
      && a <= r
      && (r < |lists| ==> x in lists[r])
      && forall k :: a <= k < r ==> x !in lists[k]
    decreases |lists| - a
  {
    if a < |lists| && x !in lists[a] {
      ListOfFinds(lists, x, a + 1);
    }
  }

  lemma UnlinkAt(lists: seq<seq<int>>, x: int, k: nat)
    requires k < |lists| && x in lists[k]
    requires forall j :: 0 <= j < k ==> x !in lists[j]
    ensures Unlink(lists, x) == lists[k := Without(lists[k], x)]
  {
    ListOfFinds(lists, x, 0);
  }

  lemma UnlinkAbsent(lists: seq<seq<int>>, x: int)
    requires forall j :: 0 <= j < |lists| ==> x !in lists[j]
    ensures Unlink(lists, x) == lists
  {
    ListOfFinds(lists, x, 0);
  }

  // ------------------------------------------------------------------- blocks

  // The block of 2^k pages that starts at x is on freelist k.
  ghost predicate IsBlock(s: Buddy, x: int, k: nat) {
    k < MAX_PAGE_ORDER && x in s.lists[k]
  }

  ghost predicate InBlock(i: int, x: int, k: nat) {
    x <= i < x + Pow2(k)
  }

  ghost predicate Apart(x: int, k: nat, y: int, l: nat) {
    x + Pow2(k) <= y || y + Pow2(l) <= x
  }

  ghost predicate FreePage(s: Buddy, i: int) {
    exists x, k: nat :: IsBlock(s, x, k) && InBlock(i, x, k)
  }

  // No page belongs to two freelist entries.
  ghost predicate Disjoint(s: Buddy) {
    && (forall k :: 0 <= k < MAX_PAGE_ORDER ==> NoRepeat(s.lists[k]))
    && (forall x, k: nat, y, l: nat ::
          IsBlock(s, x, k) && IsBlock(s, y, l) && (x != y || k != l) ==> Apart(x, k, y, l))
  }

  ghost predicate InRange(s: Buddy) {
    forall x, k: nat :: IsBlock(s, x, k) ==> 0 <= x && x + Pow2(k) <= |s.isFree|
  }

  // A page the coalescing loop would absorb is linked on a freelist.
  ghost predicate SeenLinked(s: Buddy) {
    forall i :: Seen(s, i) ==> exists k: nat :: IsBlock(s, i, k)
  }

  ghost predicate PlainInside(s: Buddy, x: int, k: nat) {
    forall i :: x < i < x + Pow2(k) && 0 <= i < |s.isHead| ==> !s.isHead[i]
  }

  ghost predicate Inv(s: Buddy) {
    && Disjoint(s)
    && InRange(s)
    && SeenLinked(s)
    && forall x, k: nat :: IsBlock(s, x, k) ==> PlainInside(s, x, k)
  }

  // The block of 2^o pages at p is in the array and shares no page with a free block.
  ghost predicate Fits(s: Buddy, p: int, o: nat) {
    && 0 <= p && p + Pow2(o) <= |s.isFree|
    && (forall x, k: nat :: IsBlock(s, x, k) ==> Apart(x, k, p, o))
  }

  // --------------------------------------------------------------------- free

  // The neighbour that one round of the coalescing loop absorbs, if any.
  function Neighbour(s: Buddy, p: int, o: nat): (q: int) {
    if o >= MAX_PAGE_ORDER - 1 then NULL
    else if Seen(s, p + Pow2(o)) then p + Pow2(o)
    else if Seen(s, p - Pow2(o)) then p - Pow2(o)
    else NULL
  }

  function Min(a: int, b: int): int { if a <= b then a else b }
  function Max(a: int, b: int): int { if a <= b then b else a }

  // Absorbing q takes it off its freelist; the later of the two pages stops
  // being a head and is free.
  function Absorb(s: Buddy, p: int, q: int): Buddy
    requires 0 <= p < |s.isFree| && 0 <= q < |s.isFree|
  {
    var m := Max(p, q);
    s.(lists := Unlink(s.lists, q),
       isFree := s.isFree[m := true],
       isHead := s.isHead[m := false])
  }

  // Where the coalescing loop stops: the state, and the block it has in hand.
  datatype Merged = Merged(state: Buddy, page: int, order: nat)

  // The coalescing loop from page p at order o.
  function Coalesce(s: Buddy, p: int, o: nat): (r: Merged)
    requires 0 <= p < |s.isFree|
    ensures |r.state.isFree| == |s.isFree| && r.state.mapped == s.mapped
    ensures 0 <= r.page <= p && o <= r.order && (o < MAX_PAGE_ORDER ==> r.order < MAX_PAGE_ORDER)
    decreases MAX_PAGE_ORDER - o, s
  {
    var q := Neighbour(s, p, o);
    if q == NULL then Merged(s, p, o)
    else Coalesce(Absorb(s, p, q), Min(p, q), o + 1)
  }

  lemma CoalesceStops(s: Buddy, p: int, o: nat)
    requires 0 <= p < |s.isFree| && Neighbour(s, p, o) == NULL
    ensures Coalesce(s, p, o) == Merged(s, p, o)
  {
  }

  lemma CoalesceAbsorbs(s: Buddy, p: int, o: nat, q: int)
    requires 0 <= p < |s.isFree| && Neighbour(s, p, o) == q && q != NULL
    ensures 0 <= q < |s.isFree| && (q == p + Pow2(o) || q == p - Pow2(o)) && o < MAX_PAGE_ORDER - 1
    ensures Seen(s, q)
    ensures Coalesce(s, p, o) == Coalesce(Absorb(s, p, q), Min(p, q), o + 1)
  {
  }

  // Putting a block at the front of its freelist and flagging its first page.
  function Link(s: Buddy, p: int, o: nat): (r: Buddy)
    requires 0 <= p < |s.isFree| && o < MAX_PAGE_ORDER
  {
    s.(lists := s.lists[o := [p] + s.lists[o]],
       isFree := s.isFree[p := true],
       isHead := s.isHead[p := true])
  }

  function Free(s: Buddy, p: int, o: nat): (r: Buddy)
    requires p == NULL || 0 <= p < |s.isFree|
    ensures |r.isFree| == |s.isFree| && r.mapped == s.mapped
  {
    if p == NULL || o >= MAX_PAGE_ORDER then s
    else
      var Merged(t, q, l) := Coalesce(s, p, o);
      Link(t, q, l)
  }

  // -------------------------------------------------------------------- alloc

  // The first non-empty freelist at or above order a; MAX_PAGE_ORDER if none.
  function FirstFit(s: Buddy, a: nat): (r: nat)
    requires a <= MAX_PAGE_ORDER
    ensures a <= r <= MAX_PAGE_ORDER
    ensures r < MAX_PAGE_ORDER ==> s.lists[r] != []
    decreases MAX_PAGE_ORDER - a
  {
    if a == MAX_PAGE_ORDER || s.lists[a] != [] then a else FirstFit(s, a + 1)
  }

  lemma {:induction false} FirstFitSkipsEmpty(s: Buddy, a: nat)
    requires a <= MAX_PAGE_ORDER
    ensures forall k :: a <= k < FirstFit(s, a) ==> s.lists[k] == []
    decreases MAX_PAGE_ORDER - a
  {
    if a < MAX_PAGE_ORDER && s.lists[a] == [] {
      FirstFitSkipsEmpty(s, a + 1);
    }
  }

  // Giving back upper halves of the block of order a at p until order o is left.
  function Split(s: Buddy, p: int, a: nat, o: nat): (r: Buddy)
    requires o <= a < MAX_PAGE_ORDER
    ensures r.isFree == s.isFree && r.isHead == s.isHead && r.mapped == s.mapped
    decreases a
  {
    if a == o then s
    else Split(s.(lists := s.lists[a - 1 := [p + Pow2(a - 1)] + s.lists[a - 1]]), p, a - 1, o)
  }

  // Freelist a without its first block.
  function Take(s: Buddy, a: nat): Buddy
    requires a < MAX_PAGE_ORDER && s.lists[a] != []
  {
    s.(lists := s.lists[a := s.lists[a][1..]])
  }

  function MarkUsed(s: Buddy, p: int, n: nat): Buddy {
    s.(isFree := seq(|s.isFree|, i requires 0 <= i < |s.isFree| => s.isFree[i] && !(p <= i < p + n)))
  }

  function Alloc(s: Buddy, o: nat): (r: (Buddy, int))
    ensures |r.0.isFree| == |s.isFree| && r.0.mapped == s.mapped && r.0.isHead == s.isHead
  {
    if o >= MAX_PAGE_ORDER then (s, NULL)
    else
      var a := FirstFit(s, o);
      if a == MAX_PAGE_ORDER then (s, NULL)
      else
        var p := s.lists[a][0];
        (MarkUsed(Split(Take(s, a), p, a, o), p, Pow2(o)), p)
  }
}
