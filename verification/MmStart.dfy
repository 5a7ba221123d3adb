/**
 mm_init of code/mm/mm_init.c, from freelist_init on: the freelists, the release of
 memory to the buddy system, and the caches of the slab allocator, one after the
 other on the same page descriptors.
*/
module MmStart {
  import opened Buddy
  import opened BuddyHome
  import opened LinearAlloc
  import opened PageAlloc
  import opened MmInit
  import opened Slub
  import opened SlubAlloc

  // The descriptors that are mapped have been cleared of the free flag.
  ghost predicate Cleared(pa: PageAllocator)
    requires pa.Raw()
    reads pa, pa.links, pa.links.next, pa.links.prev, pa.isFree, pa.isHead
  {
    forall i :: i in pa.mapped ==> !pa.isFree[i]
  }

  function NothingFree(n: nat, mapped: set<int>): Buddy
    requires forall i :: i in mapped ==> 0 <= i < n
  {
    State(seq(MAX_PAGE_ORDER, _ => []), seq(n, _ => false), seq(n, _ => false), mapped)
  }

  // What a build-up asks for depends on the descriptors there are and those mapped.
  lemma SameReady(s: Buddy, t: Buddy, runs: seq<PageRun>)
    requires BootReady(s, runs) && |t.isFree| == |s.isFree| && t.mapped == s.mapped
    ensures BootReady(t, runs)
  {
    forall j | 0 <= j < |runs| ensures RunMapped(t, runs[j]) {
      assert RunMapped(s, runs[j]);
    }
  }

  // The list nodes of the caches are on no list while there are only freelists.
  lemma CacheNodesLoose(pa: PageAllocator, a: SlabAllocator)
    requires pa.Valid() && OnlyFreelists(pa) && a.pages == pa
    ensures forall h :: a.IsCacheNode(h) ==> pa.links.Unlinked(h)
  {
    forall h, g | a.IsCacheNode(h) && g in pa.links.lists ensures !pa.links.On(h, g) {
      var k := g - pa.n;
      assert pa.IsHead(g) && g == pa.Head(k) && pa.FreelistOk(k);
    }
  }

  // Afterwards the buddy system is as the released runs build it up, and kmalloc
  // can be called, with nothing issued so far.
  method Start(pa: PageAllocator, entries: seq<Entry>, end: nat, words: Words, slabFree: map<int, nat>)
    returns (a: SlabAllocator)
    requires pa.Raw() && pa.links.lists == map[] && Cleared(pa)
    requires pa.n + MAX_PAGE_ORDER + 3 * NR_CACHES <= pa.links.next.Length
    requires BootReady(NothingFree(pa.n, pa.mapped), ReleasedRuns(entries, end))
    modifies pa`state, pa.links`lists, pa.links.next, pa.links.prev, pa.isFree, pa.isHead
    ensures fresh(a) && a.pages == pa && a.Valid() && a.InOrder() && a.issued == []
    ensures AfterRuns(pa.state, ReleasedRuns(entries, end))
    ensures forall p :: FreePage(pa.state, p) <==> Releases(entries, end, p)
  {
    pa.FreelistInit();
    SameReady(NothingFree(pa.n, pa.mapped), pa.state, ReleasedRuns(entries, end));
    ReleasePages(pa, entries, end);
    a := new SlabAllocator(pa, words, slabFree);
    CacheNodesLoose(pa, a);
    a.KmemCacheInit();
    forall p ensures InRuns(p, ReleasedRuns(entries, end)) <==> Releases(entries, end, p) {
      RunsReleased(entries, end, p);
    }
  }
}
