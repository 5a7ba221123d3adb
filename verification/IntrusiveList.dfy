/**
 The circular doubly linked lists of code/include/sumios/list.h.

 All list nodes live in one memory: node x has a next and a prev link. A list is
 named by its head node. Its contents, in next order, are kept in a ghost map,
 and Valid ties the links to it for every list at once.
*/
module IntrusiveList {

  predicate NoRepeat(l: seq<int>) {
    forall i, j :: 0 <= i < j < |l| ==> l[i] != l[j]
  }

  // Position i on the closed walk head, first, ..., last, head.
  function At(h: int, l: seq<int>, i: nat): int {
    if 0 < i <= |l| then l[i - 1] else h
  }

  function Inserted(l: seq<int>, k: nat, x: int): seq<int>
    requires k <= |l|
  {
    l[..k] + [x] + l[k..]
  }

  function Removed(l: seq<int>, k: nat): seq<int>
    requires k < |l|
  {
    l[..k] + l[k + 1..]
  }

  lemma RemovedMembers(l: seq<int>, k: nat)
    requires k < |l| && NoRepeat(l)
    ensures forall y :: y in Removed(l, k) <==> y in l && y != l[k]
  {
    forall y | y in l && y != l[k] ensures y in Removed(l, k) {
      var i :| 0 <= i < |l| && l[i] == y;
      assert Removed(l, k)[if i < k then i else i - 1] == y;
    }
  }

  lemma InsertedAt(h: int, l: seq<int>, k: nat, x: int, i: nat)
    requires k <= |l| && i <= |l| + 2
    ensures At(h, Inserted(l, k, x), i)
         == if i <= k then At(h, l, i) else if i == k + 1 then x else At(h, l, i - 1)
  {
  }

  lemma InsertedNoRepeat(l: seq<int>, k: nat, x: int)
    requires k <= |l| && NoRepeat(l) && x !in l
    ensures NoRepeat(Inserted(l, k, x))
  {
    var m := Inserted(l, k, x);
    forall i, j | 0 <= i < j < |m| ensures m[i] != m[j] {
      assert i != k ==> m[i] == l[if i < k then i else i - 1];
      assert j != k ==> m[j] == l[if j < k then j else j - 1];
    }
  }

  class Links {
    const next: array<int>
    const prev: array<int>
    ghost var lists: map<int, seq<int>>

    constructor (n: nat)
      ensures Valid() && fresh(next) && fresh(prev)
      ensures next.Length == n && lists == map[]
    {
      next := new int[n](_ => 0);
      prev := new int[n](_ => 0);
      lists := map[];
      new;
      assert next != prev;
    }

    // Node x is the head h or one of its nodes.
    ghost predicate On(x: int, h: int)
      reads this
    {
      h in lists && (x == h || x in lists[h])
    }

    ghost predicate Unlinked(x: int)
      reads this
    {
      forall h :: h in lists ==> !On(x, h)
    }

    ghost predicate IsNode(x: int) {
      0 <= x < next.Length && x < prev.Length
    }

    ghost predicate Joined(x: int, y: int)
      reads next, prev
    {
      IsNode(x) && IsNode(y) && next[x] == y && prev[y] == x
    }

    // The links follow the closed walk from h through l and back to h.
    ghost predicate Ring(h: int, l: seq<int>)
      reads next, prev
    {
      && NoRepeat(l) && h !in l
      && forall i {:trigger At(h, l, i)} :: 0 <= i <= |l| ==> Joined(At(h, l, i), At(h, l, i + 1))
    }

    ghost predicate Valid()
      reads this, next, prev
    {
      && next != prev && next.Length == prev.Length
      && (forall h {:trigger RingAt(h)} :: h in lists ==> RingAt(h))
      && (forall x, h, g :: OneList(x, h, g))
    }

    ghost predicate RingAt(h: int)
      requires h in lists
      reads this, next, prev
    {
      Ring(h, lists[h])
    }

    // No node is on two lists.
    ghost predicate OneList(x: int, h: int, g: int)
      reads this
    {
      On(x, h) && On(x, g) ==> h == g
    }

    // list_head_init: the node becomes the head of an empty list.
    method HeadInit(x: int)
      requires Valid() && IsNode(x) && Unlinked(x)
      modifies this`lists, next, prev
      ensures Valid() && lists == old(lists)[x := []]
    {
      next[x] := x;
      prev[x] := x;
      lists := lists[x := []];
      forall h | h in lists ensures RingAt(h) {
        if h != x {
          assert old(RingAt(h)) && !old(On(x, h));
          RingKept(h, old(lists)[h], {x});
        }
      }
      forall y, h, g ensures OneList(y, h, g) {
        assert old(OneList(y, h, g));
        assert h in old(lists) ==> !old(On(x, h));
        assert g in old(lists) ==> !old(On(x, g));
      }
    }

    // A ring none of whose nodes was written is still a ring.
    twostate lemma RingKept(new h: int, new l: seq<int>, new w: set<int>)
      requires old(Ring(h, l)) && h !in w && forall x :: x in l ==> x !in w
      requires forall x :: 0 <= x < next.Length && x !in w ==> next[x] == old(next[x])
      requires forall x :: 0 <= x < prev.Length && x !in w ==> prev[x] == old(prev[x])
      ensures Ring(h, l)
    {
      forall i {:trigger At(h, l, i)} | 0 <= i <= |l| ensures Joined(At(h, l, i), At(h, l, i + 1)) {
        assert old(Joined(At(h, l, i), At(h, l, i + 1)));
      }
    }

    // Writing only nodes of list h keeps every other list.
    twostate lemma OthersKept(new h: int, new w: set<int>)
      requires old(Valid()) && old(h in lists)
      requires forall x :: x in w ==> old(On(x, h)) || old(Unlinked(x))
      requires forall x :: 0 <= x < next.Length && x !in w ==> next[x] == old(next[x])
      requires forall x :: 0 <= x < prev.Length && x !in w ==> prev[x] == old(prev[x])
      ensures forall g :: g in old(lists) && g != h ==> Ring(g, old(lists[g]))
    {
      forall g | g in old(lists) && g != h ensures Ring(g, old(lists[g])) {
        assert old(RingAt(g));
        forall x | old(On(x, g)) ensures x !in w {
          assert old(OneList(x, g, h));
        }
        assert old(On(g, g)) && forall x :: x in old(lists[g]) ==> old(On(x, g));
        RingKept(g, old(lists[g]), w);
      }
    }

    // What both additions write: x goes between positions k and k + 1 of list h.
    twostate predicate Spliced(h: int, l: seq<int>, k: nat, x: int)
      reads next, prev
    {
      var a, b := At(h, l, k), At(h, l, k + 1);
      && next != prev && next.Length == prev.Length && IsNode(x)
      && Joined(a, x) && Joined(x, b)
      && (forall y :: 0 <= y < next.Length && y != a && y != x ==> next[y] == old(next[y]))
      && (forall y :: 0 <= y < prev.Length && y != b && y != x ==> prev[y] == old(prev[y]))
    }

    twostate lemma SpliceKeeps(new h: int, new k: nat, new x: int)
      requires old(Valid()) && old(h in lists) && k <= |old(lists[h])| && old(Unlinked(x))
      requires Spliced(h, old(lists[h]), k, x)
      requires lists == old(lists)[h := Inserted(old(lists[h]), k, x)]
      ensures Valid()
    {
      var l := old(lists[h]);
      assert old(RingAt(h)) && !old(On(x, h));
      assert old(Joined(At(h, l, k), At(h, l, k + 1)));
      OthersKept(h, {At(h, l, k), At(h, l, k + 1), x});
      RingInserted(h, l, k, x);
      forall g | g in lists ensures RingAt(g) {}
      forall y, g, f ensures OneList(y, g, f) {
        assert old(OneList(y, g, f));
        assert g in old(lists) ==> !old(On(x, g));
        assert f in old(lists) ==> !old(On(x, f));
      }
    }

    // list_add_next: x goes right after entry, which is at position k of list h.
    method AddNext(entry: int, x: int, ghost h: int, ghost k: nat)
      requires Valid() && h in lists && k <= |lists[h]| && entry == At(h, lists[h], k)
      requires IsNode(x) && Unlinked(x)
      modifies this`lists, next, prev
      ensures Valid()
      ensures lists == old(lists)[h := Inserted(old(lists)[h], k, x)]
    {
      assert RingAt(h) && Joined(entry, At(h, lists[h], k + 1));
      assert On(entry, h) && On(next[entry], h);
      prev[next[entry]] := x;
      prev[x] := entry;
      next[x] := next[entry];
      next[entry] := x;
      lists := lists[h := Inserted(lists[h], k, x)];
      SpliceKeeps(h, k, x);
    }

    // list_add_prev: x goes right before entry, which is at position k + 1.
    method AddPrev(entry: int, x: int, ghost h: int, ghost k: nat)
      requires Valid() && h in lists && k <= |lists[h]| && entry == At(h, lists[h], k + 1)
      requires IsNode(x) && Unlinked(x)
      modifies this`lists, next, prev
      ensures Valid()
      ensures lists == old(lists)[h := Inserted(old(lists)[h], k, x)]
    {
      assert RingAt(h) && Joined(At(h, lists[h], k), entry);
      assert On(entry, h) && On(prev[entry], h);
      next[prev[entry]] := x;
      prev[x] := prev[entry];
      next[x] := entry;
      prev[entry] := x;
      lists := lists[h := Inserted(lists[h], k, x)];
      SpliceKeeps(h, k, x);
    }

    // list_del: the node at index k leaves list h. Its own links stay as they are.
    method Del(entry: int, ghost h: int, ghost k: nat)
      requires Valid() && h in lists && k < |lists[h]| && entry == lists[h][k]
      modifies this`lists, next, prev
      ensures Valid() && Unlinked(entry)
      ensures lists == old(lists)[h := Removed(old(lists)[h], k)]
      ensures IsNode(entry) && next[entry] == old(next[entry]) && prev[entry] == old(prev[entry])
    {
      ghost var l := lists[h];
      assert RingAt(h) && On(entry, h);
      assert Joined(At(h, l, k), At(h, l, k + 1)) && Joined(At(h, l, k + 1), At(h, l, k + 2));
      prev[next[entry]] := prev[entry];
      next[prev[entry]] := next[entry];
      lists := lists[h := Removed(l, k)];
      OthersKept(h, {At(h, l, k), At(h, l, k + 2)});
      RingRemoved(h, l, k);
      RemovedMembers(l, k);
      forall g | g in lists ensures RingAt(g) {}
      forall y, g | On(y, g) ensures old(On(y, g)) && y != entry {
        assert old(OneList(y, g, h));
      }
      forall y, g, f ensures OneList(y, g, f) {
        assert old(OneList(y, g, f));
      }
    }

    // list_empty, by the links of the head alone.
    method Empty(h: int) returns (e: bool)
      requires Valid() && h in lists
      ensures e <==> lists[h] == []
    {
      assert RingAt(h) && Joined(At(h, lists[h], 0), At(h, lists[h], 1));
      e := next[h] == h && prev[h] == h;
    }

    // The node that list_entry is applied to: the one after the head.
    method First(h: int) returns (x: int)
      requires Valid() && h in lists && lists[h] != []
      ensures x == lists[h][0]
    {
      assert RingAt(h) && Joined(At(h, lists[h], 0), At(h, lists[h], 1));
      x := next[h];
    }

    twostate lemma RingRemoved(new h: int, new l: seq<int>, new k: nat)
      requires old(Ring(h, l)) && k < |l| && next != prev && next.Length == prev.Length
      requires var a, b := At(h, l, k), At(h, l, k + 2);
        && Joined(a, b)
        && (forall y :: 0 <= y < next.Length && y != a ==> next[y] == old(next[y]))
        && (forall y :: 0 <= y < prev.Length && y != b ==> prev[y] == old(prev[y]))
      ensures Ring(h, Removed(l, k))
    {
      var m := Removed(l, k);
      forall i {:trigger At(h, m, i)} | 0 <= i <= |m| ensures Joined(At(h, m, i), At(h, m, i + 1)) {
        if i < k {
          assert At(h, m, i) == At(h, l, i) && At(h, m, i + 1) == At(h, l, i + 1);
        } else if i > k {
          assert At(h, m, i) == At(h, l, i + 1) && At(h, m, i + 1) == At(h, l, i + 2);
          assert old(Joined(At(h, l, i + 1), At(h, l, i + 2)));
        } else {
          assert At(h, m, k) == At(h, l, k) && At(h, m, k + 1) == At(h, l, k + 2);
        }
      }
    }

    twostate lemma JoinedKept(new h: int, new l: seq<int>, new k: nat, new x: int, new i: nat)
      requires old(Ring(h, l)) && k <= |l| && x != h && x !in l && Spliced(h, l, k, x)
      requires i <= |l| && i != k
      ensures Joined(At(h, l, i), At(h, l, i + 1))
    {
      assert old(Joined(At(h, l, i), At(h, l, i + 1)));
    }

    twostate lemma JoinedInserted(new h: int, new l: seq<int>, new k: nat, new x: int, new i: nat)
      requires old(Ring(h, l)) && k <= |l| && x != h && x !in l && Spliced(h, l, k, x) && i <= |l| + 1
      ensures Joined(At(h, Inserted(l, k, x), i), At(h, Inserted(l, k, x), i + 1))
    {
      InsertedAt(h, l, k, x, i);
      InsertedAt(h, l, k, x, i + 1);
      if i < k {
        JoinedKept(h, l, k, x, i);
      } else if i > k + 1 {
        JoinedKept(h, l, k, x, i - 1);
      }
    }

    twostate lemma RingInserted(new h: int, new l: seq<int>, new k: nat, new x: int)
      requires old(Ring(h, l)) && k <= |l| && x != h && x !in l
      requires Spliced(h, l, k, x)
      ensures Ring(h, Inserted(l, k, x))
    {
      var m := Inserted(l, k, x);
      forall i {:trigger At(h, m, i)} | 0 <= i <= |m| ensures Joined(At(h, m, i), At(h, m, i + 1)) {
        JoinedInserted(h, l, k, x, i);
      }
      InsertedNoRepeat(l, k, x);
    }
  }
}
