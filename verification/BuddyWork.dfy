/**
 __alloc_pages and __free_pages of code/mm/page_alloc.c cut into the small steps
 their loops take, as one CPU carries them out while others run.
*/
module BuddyWork {
  import opened Powers
  import opened Buddy

  datatype Job =
    | AllocJob(order: nat)
    | FreeJob(page: int, order: nat)

  // How far a job has come.
  datatype Work =
    | Enter
    | Search(at: nat)              // looking at freelist at
    | Halve(page: int, at: nat)    // page starts a block of order at; upper halves go back
    | Mark(page: int, done: nat)   // the first pages of the block are marked used
    | Merge(page: int, at: nat)    // the coalescing loop, with a block of order at in hand
    | Done(page: int)

  predicate JobOk(n: nat, j: Job) {
    j.FreeJob? ==> j.page == NULL || 0 <= j.page < n
  }

  predicate Ready(n: nat, j: Job, w: Work) {
    && JobOk(n, j)
    && match w
       case Search(a) => j.AllocJob? && j.order < MAX_PAGE_ORDER && j.order <= a <= MAX_PAGE_ORDER
       case Halve(_, a) => j.AllocJob? && j.order <= a < MAX_PAGE_ORDER
       case Mark(_, i) => j.AllocJob? && i <= Pow2(j.order)
       case Merge(p, l) => j.FreeJob? && 0 <= p < n && l < MAX_PAGE_ORDER
       case _ => true
  }

  function Micro(s: Buddy, j: Job, w: Work): (r: (Buddy, Work))
    requires Ready(|s.isFree|, j, w)
  {
    match w
    case Enter =>
      if j.order >= MAX_PAGE_ORDER || (j.FreeJob? && j.page == NULL) then (s, Done(NULL))
      else if j.AllocJob? then (s, Search(j.order))
      else (s, Merge(j.page, j.order))
    case Search(a) =>
      if a == MAX_PAGE_ORDER then (s, Done(NULL))
      else if s.lists[a] != [] then (Take(s, a), Halve(s.lists[a][0], a))
      else (s, Search(a + 1))
    case Halve(p, a) =>
      if a == j.order then (s, Mark(p, 0))
      else (s.(lists := s.lists[a - 1 := [p + Pow2(a - 1)] + s.lists[a - 1]]), Halve(p, a - 1))
    case Mark(p, i) =>
      if i == Pow2(j.order) then (s, Done(p)) else (ClearFree(s, p + i), Mark(p, i + 1))
    case Merge(p, l) =>
      var q := Neighbour(s, p, l);
      if q == NULL then (Link(s, p, l), Done(NULL)) else (Absorb(s, p, q), Merge(Min(p, q), l + 1))
    case Done(_) => (s, w)
  }

  function ClearFree(s: Buddy, i: int): Buddy {
    if 0 <= i < |s.isFree| then s.(isFree := s.isFree[i := false]) else s
  }

  // The job as one step: the new state, and the page it returns.
  function Apply(s: Buddy, j: Job): (r: (Buddy, int))
    requires JobOk(|s.isFree|, j)
    ensures |r.0.isFree| == |s.isFree|
  {
    match j
    case AllocJob(o) => Alloc(s, o)
    case FreeJob(p, o) => (Free(s, p, o), NULL)
  }

  // What the rest of a job leads to.
  function Finish(s: Buddy, j: Job, w: Work): (Buddy, int)
    requires Ready(|s.isFree|, j, w)
  {
    match w
    case Enter => Apply(s, j)
    case Search(a) =>
      var b := FirstFit(s, a);
      if b == MAX_PAGE_ORDER then (s, NULL)
      else
        var p := s.lists[b][0];
        (MarkUsed(Split(Take(s, b), p, b, j.order), p, Pow2(j.order)), p)
    case Halve(p, a) => (MarkUsed(Split(s, p, a, j.order), p, Pow2(j.order)), p)
    case Mark(p, i) => (MarkUsed(s, p + i, Pow2(j.order) - i), p)
    case Merge(p, l) =>
      var Merged(t, q, m) := Coalesce(s, p, l);
      (Link(t, q, m), NULL)
    case Done(p) => (s, p)
  }

  // An upper bound for the small steps that are left.
  function StepsLeft(j: Job, w: Work): nat
    requires w.Mark? ==> w.done <= Pow2(j.order)
  {
    match w
    case Enter => Pow2(j.order) + 30
    case Search(a) => Pow2(j.order) + 14 + (if a < MAX_PAGE_ORDER then MAX_PAGE_ORDER - a else 0)
    case Halve(_, a) => Pow2(j.order) + 2 + a
    case Mark(_, i) => Pow2(j.order) - i + 1
    case Merge(_, l) => 1 + (if l < MAX_PAGE_ORDER then MAX_PAGE_ORDER - l else 0)
    case Done(_) => 0
  }

  lemma MarkFirst(s: Buddy, p: int, n: nat)
    requires n > 0
    ensures MarkUsed(ClearFree(s, p), p + 1, n - 1) == MarkUsed(s, p, n)
  {
    assert MarkUsed(ClearFree(s, p), p + 1, n - 1).isFree == MarkUsed(s, p, n).isFree;
  }

  lemma MarkNone(s: Buddy, p: int)
    ensures MarkUsed(s, p, 0) == s
  {
    assert MarkUsed(s, p, 0).isFree == s.isFree;
  }

  // One round of the coalescing loop.
  lemma MergeFinishes(s: Buddy, j: Job, p: int, l: nat)
    requires Ready(|s.isFree|, j, Merge(p, l))
    ensures var (t, v) := Micro(s, j, Merge(p, l));
      && |t.isFree| == |s.isFree| && Ready(|t.isFree|, j, v)
      && Finish(t, j, v) == Finish(s, j, Merge(p, l))
      && StepsLeft(j, v) < StepsLeft(j, Merge(p, l))
  {
    if Neighbour(s, p, l) == NULL {
      CoalesceStops(s, p, l);
    } else {
      CoalesceAbsorbs(s, p, l, Neighbour(s, p, l));
    }
  }

  // The small steps of a job, run one after the other, amount to the job; there
  // are at most 2^order + 30 of them.
  lemma MicroFinishes(s: Buddy, j: Job, w: Work)
    requires Ready(|s.isFree|, j, w)
    ensures var (t, v) := Micro(s, j, w);
      && |t.isFree| == |s.isFree| && Ready(|t.isFree|, j, v)
      && Finish(t, j, v) == Finish(s, j, w)
      && (!w.Done? ==> StepsLeft(j, v) < StepsLeft(j, w))
  {
    match w {
      case Enter =>
      case Search(a) =>
      case Halve(p, a) =>
      case Mark(p, i) =>
        if i == Pow2(j.order) {
          MarkNone(s, p + i);
        } else {
          MarkFirst(s, p + i, Pow2(j.order) - i);
        }
      case Merge(p, l) => MergeFinishes(s, j, p, l);
      case Done(_) =>
    }
  }
}
