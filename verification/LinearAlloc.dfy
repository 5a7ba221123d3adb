/**
 The allocators of early boot, which never free: boot_mm_alloc of
 code/arch/x86/boot/mm_boot.c, and mm_init_phys_alloc_linear of code/mm/mm_init.c
 with the table of available memory areas it walks.
*/
module LinearAlloc {
  import opened PageSizes

  // Physical addresses are 64-bit words; 0 is NULL.
  const WORD: nat := 0x1_0000_0000_0000_0000

  // x rounded up to whole pages.
  function Align(x: nat): (r: nat)
    ensures x <= r < x + PAGE_SIZE && r % PAGE_SIZE == 0
  {
    (x + (PAGE_SIZE - 1)) / PAGE_SIZE * PAGE_SIZE
  }

  // ALIGN(x, PAGE_SIZE), whose addition wraps.
  function Align64(x: nat): (r: nat)
    ensures x + (PAGE_SIZE - 1) < WORD ==> r == Align(x)
  {
    (x + (PAGE_SIZE - 1)) % WORD / PAGE_SIZE * PAGE_SIZE
  }

  function Sum64(a: nat, b: nat): nat { (a + b) % WORD }

  datatype Area = Area(start: nat, end: nat)

  datatype Chunk = Chunk(addr: nat, size: nat)

  // --------------------------------------------------------- memory map entries

  const AVAILABLE: nat := 1  // MULTIBOOT_MEMORY_AVAILABLE

  datatype Entry = Entry(addr: nat, len: nat, kind: nat)

  function Available(entries: seq<Entry>): seq<Area> {
    if entries == [] then []
    else
      var m := |entries| - 1;
      var e := entries[m];
      if e.kind == AVAILABLE then Available(entries[..m]) + [Area(e.addr, Sum64(e.addr, e.len))]
      else Available(entries[..m])
  }

  // Entry by entry: an available one gives the area from its address to its end in 64
  // bits, in its turn, and there are no other areas.
  lemma {:induction false} AvailableAt(entries: seq<Entry>, i: nat)
    requires i < |entries|
    ensures var e := entries[i]; var k := |Available(entries[..i])|;
      if e.kind == AVAILABLE then
        && k < |Available(entries)| && Available(entries)[k] == Area(e.addr, (e.addr + e.len) % WORD)
        && |Available(entries[..i + 1])| == k + 1
      else |Available(entries[..i + 1])| == k
    decreases |entries|
  {
    var m := |entries| - 1;
    assert entries[..i + 1][..i] == entries[..i];
    if i < m {
      AvailableAt(entries[..m], i);
      assert entries[..m][..i] == entries[..i];
    } else {
      assert entries[..i + 1] == entries;
    }
  }

  // No available entry has an end that wraps.
  ghost predicate EndsOk(entries: seq<Entry>) {
    forall i :: 0 <= i < |entries| && entries[i].kind == AVAILABLE ==> entries[i].addr + entries[i].len < WORD
  }

  predicate Contains(a: Area, x: nat) { a.start <= x < a.end }

  ghost predicate IsLastHolder(areas: seq<Area>, j: int, x: nat) {
    && 0 <= j < |areas| && Contains(areas[j], x)
    && forall i :: j < i < |areas| ==> !Contains(areas[i], x)
  }

  // The last area that holds x; -1 if none does.
  function LastHolder(areas: seq<Area>, x: nat): (h: int)
    ensures -1 <= h < |areas|
    ensures if h >= 0 then IsLastHolder(areas, h, x) else forall j :: 0 <= j < |areas| ==> !Contains(areas[j], x)
  {
    if areas == [] then -1
    else
      var m := |areas| - 1;
      if Contains(areas[m], x) then m else LastHolder(areas[..m], x)
  }

  // The segment from start to end is the one that the areas so far lead to, from the one
  // that there was before.
  ghost predicate Segment(areas: seq<Area>, x: nat, before: Area, start: nat, end: nat) {
    var h := LastHolder(areas, x);
    if h >= 0 then start == x && end == areas[h].end else start == before.start && end == before.end
  }

  lemma SegmentEmpty(x: nat, before: Area)
    ensures Segment([], x, before, before.start, before.end)
  {
  }

  lemma SegmentGrows(areas: seq<Area>, a: Area, x: nat, before: Area, start: nat, end: nat)
    requires Segment(areas, x, before, start, end)
    ensures if Contains(a, x) then Segment(areas + [a], x, before, x, a.end)
            else Segment(areas + [a], x, before, start, end)
  {
    assert (areas + [a])[..|areas|] == areas;
  }

  // ------------------------------------------------------ the linear allocator

  datatype LinearState = LinearState(start: nat, end: nat, idx: nat, areas: seq<Area>)

  // The first area from idx on that starts at or after end.
  function NextArea(areas: seq<Area>, idx: nat, end: nat): (r: nat)
    ensures idx <= r && (r < |areas| ==> areas[r].start >= end)
    decreases |areas| - idx
  {
    if idx >= |areas| || areas[idx].start >= end then idx
    else NextArea(areas, idx + 1, end)
  }

  function AllocLinear(s: LinearState, sz: nat): (LinearState, nat) {
    if sz == 0 || Sum64(Align64(sz), s.start) > s.end then (s, 0)
    else
      var start := Sum64(s.start, Align64(sz));
      if start < s.end then (s.(start := start), s.start)
      else
        var i := NextArea(s.areas, s.idx, s.end);
        if i < |s.areas| then (s.(start := s.areas[i].start, end := s.areas[i].end, idx := i), s.start)
        else (s.(start := start, idx := i), 0)
  }

  ghost predicate AreaOk(a: Area) { a.start <= a.end < WORD }

  // The rest of the segment in use lies in one area.
  ghost predicate LinearInv(s: LinearState) {
    && (forall j :: 0 <= j < |s.areas| ==> AreaOk(s.areas[j]))
    && s.idx <= |s.areas|
    && s.start <= s.end
    && exists j :: 0 <= j < |s.areas| && s.areas[j].start <= s.start && s.end <= s.areas[j].end
  }

  lemma {:induction false} AvailableOk(entries: seq<Entry>)
    requires EndsOk(entries)
    ensures forall j :: 0 <= j < |Available(entries)| ==> AreaOk(Available(entries)[j])
  {
    if entries != [] {
      AvailableOk(entries[..|entries| - 1]);
    }
  }

  // Where the collecting loop leaves the allocator.
  lemma CollectedOk(entries: seq<Entry>, x: nat, before: Area, start: nat, end: nat)
    requires Segment(Available(entries), x, before, start, end)
    ensures (forall j :: 0 <= j < |Available(entries)| ==> !Contains(Available(entries)[j], x)) ==>
      start == before.start && end == before.end
    ensures forall j :: IsLastHolder(Available(entries), j, x) ==> end == Available(entries)[j].end
    ensures (exists j :: 0 <= j < |Available(entries)| && Contains(Available(entries)[j], x)) ==>
      start == x && (EndsOk(entries) ==> LinearInv(LinearState(start, end, 0, Available(entries))))
  {
    var areas := Available(entries);
    var h := LastHolder(areas, x);
    if EndsOk(entries) {
      AvailableOk(entries);
    }
    if h >= 0 {
      assert AreaOk(areas[h]) || !EndsOk(entries);
      forall j | IsLastHolder(areas, j, x) ensures j == h {
        assert j < h ==> !IsLastHolder(areas, j, x);
      }
    }
  }

  ghost predicate InOneArea(c: Chunk, areas: seq<Area>) {
    exists j :: 0 <= j < |areas| && areas[j].start <= c.addr && c.addr + c.size <= areas[j].end
  }

  // No sum of this call wraps.
  predicate NoWrap(s: LinearState, sz: nat) {
    sz + (PAGE_SIZE - 1) < WORD && Align(sz) + s.start < WORD
  }

  // A chunk returned lies within its segment exactly when no sum wrapped.
  lemma ChunkFitsIffNoWrap(s: LinearState, sz: nat)
    requires LinearInv(s) && AllocLinear(s, sz).1 != 0
    ensures AllocLinear(s, sz).1 + Align(sz) <= s.end <==> NoWrap(s, sz)
  {
    var j :| 0 <= j < |s.areas| && s.areas[j].start <= s.start && s.end <= s.areas[j].end;
    assert AreaOk(s.areas[j]);
  }

  // A wrapped sum: a chunk of almost all of memory, out of a segment of one page.
  lemma WrappedChunk() returns (s: LinearState, sz: nat)
    ensures LinearInv(s) && sz < WORD && !NoWrap(s, sz)
    ensures AllocLinear(s, sz).1 == 4096 && 4096 + sz > s.end
  {
    s, sz := LinearState(4096, 8192, 0, [Area(4096, 8192)]), WORD - 1;
    assert s.areas[0].start <= s.start && s.end <= s.areas[0].end;
  }

  // The request takes the segment to its last byte, and no area is left to go on
  // with.
  ghost predicate UsesUpMemory(s: LinearState, sz: nat) {
    && Sum64(Align64(sz), s.start) == s.end
    && forall j :: s.idx <= j < |s.areas| ==> s.areas[j].start < s.end
  }

  // When a call returns NULL, for every state and size. The last case is a request
  // that fits.
  lemma NullIff(s: LinearState, sz: nat)
    ensures AllocLinear(s, sz).1 == 0 <==>
      || sz == 0 || s.start == 0
      || Sum64(Align64(sz), s.start) > s.end
      || UsesUpMemory(s, sz)
  {
    NextAreaFinds(s.areas, s.idx, s.end);
    var i := NextArea(s.areas, s.idx, s.end);
    assert i < |s.areas| ==> s.areas[i].start >= s.end;
  }

  lemma {:induction false} NextAreaFinds(areas: seq<Area>, idx: nat, end: nat)
    ensures forall j :: idx <= j < NextArea(areas, idx, end) && j < |areas| ==> areas[j].start < end
    decreases |areas| - idx
  {
    if idx < |areas| && areas[idx].start < end {
      NextAreaFinds(areas, idx + 1, end);
    }
  }

  // A request that fits its segment is refused if and only if it takes the last
  // byte of the last memory. The bytes are gone: every later request is refused too.
  lemma FittingRefusedIff(s: LinearState, sz: nat)
    requires LinearInv(s) && NoWrap(s, sz) && sz > 0 && s.start > 0 && s.start + Align(sz) <= s.end
    ensures AllocLinear(s, sz).1 == 0 <==> UsesUpMemory(s, sz)
    ensures UsesUpMemory(s, sz) ==>
      var t := AllocLinear(s, sz).0;
      t.start == s.end && forall n: nat :: NoWrap(t, n) ==> AllocLinear(t, n) == (t, 0)
  {
    NullIff(s, sz);
  }

  lemma FittingRefused() returns (s: LinearState)
    ensures LinearInv(s) && NoWrap(s, 4096) && s.start + Align(4096) <= s.end
    ensures AllocLinear(s, 4096).1 == 0
  {
    s := LinearState(4096, 8192, 0, [Area(4096, 8192)]);
    assert s.areas[0].start <= s.start && s.end <= s.areas[0].end;
    NullIff(s, 4096);
  }

  // One call: the segment end never goes down; NULL comes back exactly in the
  // cases named; and a chunk is the start of the segment, big enough, inside one
  // area, and behind everything handed out later.
  lemma AllocLinearStep(s: LinearState, sz: nat)
    requires LinearInv(s) && NoWrap(s, sz)
    ensures var (t, c) := AllocLinear(s, sz);
      && LinearInv(t) && t.areas == s.areas
      && s.start <= t.start && s.end <= t.end
      && (c == 0 <==> sz == 0 || s.start == 0 || s.start + Align(sz) > s.end || UsesUpMemory(s, sz))
      && (c != 0 ==>
            && c == s.start && InOneArea(Chunk(c, Align(sz)), s.areas)
            && c + Align(sz) <= t.start && c + Align(sz) <= s.end)
  {
    hide NextArea;
    NullIff(s, sz);
    var (t, c) := AllocLinear(s, sz);
    var j :| 0 <= j < |s.areas| && s.areas[j].start <= s.start && s.end <= s.areas[j].end;
    var i := NextArea(s.areas, s.idx, s.end);
    NextAreaBound(s.areas, s.idx, s.end);
    assert i < |s.areas| ==> AreaOk(s.areas[i]);
    assert AreaOk(s.areas[j]);
  }

  lemma {:induction false} NextAreaBound(areas: seq<Area>, idx: nat, end: nat)
    requires idx <= |areas|
    ensures NextArea(areas, idx, end) <= |areas|
    decreases |areas| - idx
  {
    if idx < |areas| && areas[idx].start < end {
      NextAreaBound(areas, idx + 1, end);
    }
  }

  // ------------------------------------------------------------- whole runs

  // The chunks received by a sequence of calls, and the state they leave.
  function RunLinear(s: LinearState, sizes: seq<nat>): (LinearState, seq<Chunk>) {
    if sizes == [] then (s, [])
    else
      var m := |sizes| - 1;
      var (t, cs) := RunLinear(s, sizes[..m]);
      var (u, c) := AllocLinear(t, sizes[m]);
      (u, if c == 0 then cs else cs + [Chunk(c, Align(sizes[m]))])
  }

  ghost predicate Ascending(cs: seq<Chunk>) {
    forall i, j :: 0 <= i < j < |cs| ==> cs[i].addr + cs[i].size <= cs[j].addr
  }

  // No sum of any call of the run wraps.
  ghost predicate NoWraps(s: LinearState, sizes: seq<nat>) {
    forall i :: 0 <= i < |sizes| ==> NoWrapAt(s, sizes, i)
  }

  ghost predicate NoWrapAt(s: LinearState, sizes: seq<nat>, i: nat)
    requires i < |sizes|
  {
    NoWrap(RunLinear(s, sizes[..i]).0, sizes[i])
  }

  // Over every run: the chunks ascend and do not overlap, each lies in one
  // available area, and all of them lie between the first start and the last end.
  lemma {:induction false} LinearRun(s: LinearState, sizes: seq<nat>)
    requires LinearInv(s) && NoWraps(s, sizes)
    ensures var (t, cs) := RunLinear(s, sizes);
      && LinearInv(t) && t.areas == s.areas && s.start <= t.start && s.end <= t.end
      && Ascending(cs)
      && forall i :: 0 <= i < |cs| ==>
           && cs[i].size > 0 && InOneArea(cs[i], s.areas)
           && s.start <= cs[i].addr && cs[i].addr + cs[i].size <= t.start
    decreases |sizes|
  {
    if sizes != [] {
      var m := |sizes| - 1;
      forall i | 0 <= i < m ensures NoWrapAt(s, sizes[..m], i) {
        assert sizes[..m][..i] == sizes[..i] && NoWrapAt(s, sizes, i);
      }
      LinearRun(s, sizes[..m]);
      var (t, cs) := RunLinear(s, sizes[..m]);
      assert NoWrapAt(s, sizes, m);
      AllocLinearStep(t, sizes[m]);
    }
  }

  // ------------------------------------------------------ where a run goes on

  // The first area from idx on that begins at or behind e.
  ghost predicate FirstAt(areas: seq<Area>, idx: nat, e: nat, j: int) {
    idx <= j < |areas| && areas[j].start >= e && forall i :: idx <= i < j ==> areas[i].start < e
  }

  // The state after one call: a request that fits moves the start behind its chunk; if
  // that uses up the segment, the allocator goes on with the whole of the first area
  // from the index on that begins at or behind its end; and one that does not fit
  // changes nothing.
  lemma AllocLinearNext(s: LinearState, sz: nat)
    requires LinearInv(s) && NoWrap(s, sz)
    ensures var (t, c) := AllocLinear(s, sz); var e := s.start + Align(sz);
      && (sz == 0 || e > s.end ==> t == s && c == 0)
      && (sz > 0 && e < s.end ==> t == s.(start := e) && c == s.start)
      && (sz > 0 && e == s.end ==>
            && (forall j :: FirstAt(s.areas, s.idx, e, j) ==>
                  t == LinearState(s.areas[j].start, s.areas[j].end, j, s.areas) && c == s.start)
            && ((forall j :: !FirstAt(s.areas, s.idx, e, j)) ==>
                  t.start == t.end == s.end && t.areas == s.areas && c == 0))
  {
    NextAreaFinds(s.areas, s.idx, s.end);
    var i := NextArea(s.areas, s.idx, s.end);
    assert i < |s.areas| ==> FirstAt(s.areas, s.idx, s.end, i);
  }

  // x is where a chunk may start after one that ends at e: right there, or, if a
  // segment ends there, at the start of the first area at or behind it.
  ghost predicate Follows(s: LinearState, e: nat, x: nat) {
    x == e || (SegmentEnd(s, e) && exists j :: FirstAt(s.areas, s.idx, e, j) && x == s.areas[j].start)
  }

  ghost predicate SegmentEnd(s: LinearState, e: nat) {
    e == s.end || exists j :: 0 <= j < |s.areas| && s.areas[j].end == e
  }

  // Where the run from s to t goes on, unless memory is used up.
  ghost predicate Placed(s: LinearState, t: LinearState, cs: seq<Chunk>) {
    && t.areas == s.areas && SegmentEnd(s, t.end) && t.start > 0
    && (t.start < t.end ==>
          && s.idx <= t.idx && (forall i :: s.idx <= i < t.idx && i < |s.areas| ==> s.areas[i].start < t.end)
          && if cs == [] then t.start == s.start
             else Follows(s, cs[|cs| - 1].addr + cs[|cs| - 1].size, t.start))
  }

  ghost predicate Joined(s: LinearState, cs: seq<Chunk>) {
    && (cs != [] ==> cs[0].addr == s.start)
    && forall i :: 0 <= i < |cs| - 1 ==> Follows(s, cs[i].addr + cs[i].size, cs[i + 1].addr)
  }

  function WithChunk(cs: seq<Chunk>, c: nat, sz: nat): seq<Chunk> {
    if c == 0 then cs else cs + [Chunk(c, Align(sz))]
  }

  lemma PlacedNext(s: LinearState, t: LinearState, cs: seq<Chunk>, sz: nat)
    requires LinearInv(t) && NoWrap(t, sz) && Placed(s, t, cs) && Joined(s, cs)
    ensures var (u, c) := AllocLinear(t, sz); Placed(s, u, WithChunk(cs, c, sz))
    ensures var (u, c) := AllocLinear(t, sz); Joined(s, WithChunk(cs, c, sz))
  {
    hide AllocLinear, LinearInv, NoWrap, Joined, Align;
    var (u, c) := AllocLinear(t, sz);
    var e := t.start + Align(sz);
    AllocLinearNext(t, sz);
    if sz > 0 && e == t.end && exists j :: FirstAt(t.areas, t.idx, e, j) {
      PlacedSwitch(s, t, e);
      var j :| FirstAt(t.areas, t.idx, e, j);
      assert Follows(s, e, u.start);
    }
    if c != 0 {
      JoinedMore(s, cs, Chunk(c, Align(sz)));
    }
  }

  lemma JoinedMore(s: LinearState, cs: seq<Chunk>, d: Chunk)
    requires Joined(s, cs)
    requires if cs == [] then d.addr == s.start else Follows(s, cs[|cs| - 1].addr + cs[|cs| - 1].size, d.addr)
    ensures Joined(s, cs + [d])
  {
    hide Follows;
    var ds := cs + [d];
    forall i | 0 <= i < |ds| - 1 ensures Follows(s, ds[i].addr + ds[i].size, ds[i + 1].addr) {
      if i < |cs| - 1 {
        assert Follows(s, cs[i].addr + cs[i].size, cs[i + 1].addr);
      }
    }
  }

  lemma PlacedSwitch(s: LinearState, t: LinearState, e: nat)
    requires t.areas == s.areas && s.idx <= t.idx && t.end == e
    requires forall i :: s.idx <= i < t.idx && i < |s.areas| ==> s.areas[i].start < e
    ensures forall j :: FirstAt(t.areas, t.idx, e, j) ==> FirstAt(s.areas, s.idx, e, j) && SegmentEnd(s, s.areas[j].end)
  {
  }

  // Over every run, no byte is left out between two chunks: the first starts where the
  // allocator does, and each later one where the one before ends, or, if that used up
  // its segment, at the start of the first area from the index on at or behind it. A
  // chunk at address 0 would look like NULL.
  lemma {:induction false} ChunksJoin(s: LinearState, sizes: seq<nat>)
    requires LinearInv(s) && NoWraps(s, sizes) && s.start > 0
    ensures var (t, cs) := RunLinear(s, sizes); LinearInv(t) && Placed(s, t, cs) && Joined(s, cs)
    decreases |sizes|
  {
    hide AllocLinear, NoWrap, LinearInv;
    if sizes != [] {
      var m := |sizes| - 1;
      forall i | 0 <= i < m ensures NoWrapAt(s, sizes[..m], i) {
        assert sizes[..m][..i] == sizes[..i] && NoWrapAt(s, sizes, i);
      }
      ChunksJoin(s, sizes[..m]);
      var (t, cs) := RunLinear(s, sizes[..m]);
      assert NoWrapAt(s, sizes, m);
      AllocLinearStep(t, sizes[m]);
      PlacedNext(s, t, cs, sizes[m]);
    }
  }

  // ------------------------------------------------- the allocator before it

  // boot_mm_alloc: a bump pointer below the memory size read from CMOS.
  datatype BootState = BootState(start: nat, total: nat)

  function AllocBoot(s: BootState, sz: nat): (BootState, nat) {
    if sz == 0 || Sum64(Align64(sz), s.start) >= s.total then (s, 0)
    else (s.(start := Sum64(s.start, Align64(sz))), s.start)
  }

  function RunBoot(s: BootState, sizes: seq<nat>): (BootState, seq<Chunk>) {
    if sizes == [] then (s, [])
    else
      var m := |sizes| - 1;
      var (t, cs) := RunBoot(s, sizes[..m]);
      var (u, c) := AllocBoot(t, sizes[m]);
      (u, if c == 0 then cs else cs + [Chunk(c, Align(sizes[m]))])
  }

  // No sum of this call wraps.
  predicate BootNoWrap(s: BootState, sz: nat) {
    sz + (PAGE_SIZE - 1) < WORD && Align(sz) + s.start < WORD
  }

  // A chunk lies below the end of memory exactly when no sum wrapped.
  lemma BootChunkFitsIffNoWrap(s: BootState, sz: nat)
    requires s.total < WORD && AllocBoot(s, sz).1 != 0
    ensures AllocBoot(s, sz).1 + Align(sz) < s.total <==> BootNoWrap(s, sz)
  {
  }

  lemma BootWrappedChunk()
    ensures var s := BootState(4096, 0x10_0000);
      !BootNoWrap(s, WORD - 1) && AllocBoot(s, WORD - 1).1 == 4096
  {
  }

  lemma AllocBootStep(s: BootState, sz: nat)
    requires s.start <= s.total && BootNoWrap(s, sz)
    ensures var (t, c) := AllocBoot(s, sz);
      && s.start <= t.start <= t.total == s.total
      && (c == 0 <==> sz == 0 || s.start == 0 || s.start + Align(sz) >= s.total)
      && (sz == 0 || s.start + Align(sz) >= s.total ==> t == s)
      && (c != 0 ==> sz > 0 && c == s.start && c + Align(sz) == t.start)
  {
  }

  ghost predicate BootNoWraps(s: BootState, sizes: seq<nat>) {
    forall i :: 0 <= i < |sizes| ==> BootNoWrapAt(s, sizes, i)
  }

  ghost predicate BootNoWrapAt(s: BootState, sizes: seq<nat>, i: nat)
    requires i < |sizes|
  {
    BootNoWrap(RunBoot(s, sizes[..i]).0, sizes[i])
  }

  // The chunks from a start on follow each other without a gap, up to end.
  ghost predicate Contiguous(cs: seq<Chunk>, start: nat, end: nat) {
    && (if cs == [] then end == start else cs[0].addr == start && cs[|cs| - 1].addr + cs[|cs| - 1].size == end)
    && forall i :: 0 <= i < |cs| - 1 ==> cs[i].addr + cs[i].size == cs[i + 1].addr
  }

  // The boot allocator's chunks ascend and end below its final bump pointer; unless it
  // starts at address 0, which would be NULL, they fill the memory from its start to there.
  lemma {:induction false} BootRunBelow(s: BootState, sizes: seq<nat>)
    requires s.start <= s.total && BootNoWraps(s, sizes)
    ensures var (t, cs) := RunBoot(s, sizes);
      && s.start <= t.start <= t.total == s.total && Ascending(cs)
      && forall i :: 0 <= i < |cs| ==>
           cs[i].size > 0 && s.start <= cs[i].addr && cs[i].addr + cs[i].size <= t.start
    ensures var (t, cs) := RunBoot(s, sizes); s.start > 0 ==> Contiguous(cs, s.start, t.start)
    decreases |sizes|
  {
    if sizes != [] {
      var m := |sizes| - 1;
      forall i | 0 <= i < m ensures BootNoWrapAt(s, sizes[..m], i) {
        assert sizes[..m][..i] == sizes[..i] && BootNoWrapAt(s, sizes, i);
      }
      BootRunBelow(s, sizes[..m]);
      assert BootNoWrapAt(s, sizes, m);
      AllocBootStep(RunBoot(s, sizes[..m]).0, sizes[m]);
    }
  }

  // ------------------------------------------------------------ as they run

  class LinearAllocator {
    const areas: array<Area>  // phys_mm_area_arr
    var areaNum: nat          // phys_mm_area_num
    var areaIdx: nat          // phys_mm_area_idx
    var allocStart: nat       // mm_alloc_start, initially -1
    var allocEnd: nat         // mm_alloc_end

    constructor ()
      ensures Valid() && fresh(areas) && Abs() == LinearState(WORD - 1, 0, 0, [])
    {
      areas := new Area[0x20](_ => Area(0, 0));
      areaNum, areaIdx, allocStart, allocEnd := 0, 0, WORD - 1, 0;
    }

    ghost predicate Valid()
      reads this
    {
      areas.Length == 0x20 && areaNum <= 0x20
    }

    ghost function Abs(): LinearState
      requires Valid()
      reads this, areas
    {
      LinearState(allocStart, allocEnd, areaIdx, areas[..areaNum])
    }

    // The loop of mm_pages_allocator_init that collects the available areas. The
    // segment is the last one that holds the boot allocator's pointer.
    method CollectAreas(entries: seq<Entry>, bootStart: nat)
      requires Valid() && areaNum == 0 && areaIdx == 0 && |Available(entries)| <= 0x20
      modifies this, areas
      ensures Valid() && areas[..areaNum] == Available(entries) && areaIdx == 0
      ensures (exists j :: 0 <= j < areaNum && Contains(areas[j], bootStart)) ==>
                allocStart == bootStart && (EndsOk(entries) ==> LinearInv(Abs()))
      ensures (forall j :: 0 <= j < areaNum ==> !Contains(areas[j], bootStart)) ==>
                allocStart == old(allocStart) && allocEnd == old(allocEnd)
      ensures forall j :: IsLastHolder(areas[..areaNum], j, bootStart) ==> allocEnd == areas[j].end
    {
      hide Sum64, Segment, LastHolder, LinearInv, EndsOk;
      var i := 0;
      ghost var first := Area(allocStart, allocEnd);
      SegmentEmpty(bootStart, first);
      while i < |entries|
        invariant 0 <= i <= |entries| && areaNum <= 0x20 && areaIdx == 0
        invariant areas[..areaNum] == Available(entries[..i])
        invariant Segment(areas[..areaNum], bootStart, first, allocStart, allocEnd)
      {
        assert entries[..i + 1][..i] == entries[..i];
        AvailableGrows(entries, i + 1);
        if entries[i].kind == AVAILABLE {
          ghost var before := areas[..areaNum];
          areas[areaNum] := Area(entries[i].addr, Sum64(entries[i].addr, entries[i].len));
          SegmentGrows(before, areas[areaNum], bootStart, first, allocStart, allocEnd);
          if areas[areaNum].start <= bootStart < areas[areaNum].end {
            allocStart := bootStart;
            allocEnd := areas[areaNum].end;
          }
          areaNum := areaNum + 1;
          assert areas[..areaNum] == before + [areas[areaNum - 1]];
        }
        i := i + 1;
      }
      assert entries[..i] == entries && forall j :: 0 <= j < areaNum ==> areas[..areaNum][j] == areas[j];
      CollectedOk(entries, bootStart, first, allocStart, allocEnd);
    }

    // mm_init_phys_alloc_linear
    method Alloc(sz: nat) returns (chunk: nat)
      requires Valid() && areaIdx <= areaNum && sz < WORD
      modifies this`areaIdx, this`allocStart, this`allocEnd
      ensures Valid() && areaIdx <= areaNum && (Abs(), chunk) == AllocLinear(old(Abs()), sz)
    {
      if sz == 0 {
        return 0;
      }
      var size := Align64(sz);
      if Sum64(size, allocStart) > allocEnd {
        return 0;
      }
      chunk := allocStart;
      allocStart := Sum64(allocStart, size);
      if allocStart >= allocEnd {
        while areaIdx < areaNum
          invariant areaIdx <= areaNum && allocEnd == old(allocEnd)
          invariant allocStart == Sum64(old(allocStart), size)
          invariant NextArea(areas[..areaNum], areaIdx, allocEnd)
                 == NextArea(areas[..areaNum], old(areaIdx), old(allocEnd))
          decreases areaNum - areaIdx
        {
          if areas[areaIdx].start >= allocEnd {
            allocStart := areas[areaIdx].start;
            allocEnd := areas[areaIdx].end;
            break;
          }
          areaIdx := areaIdx + 1;
        }
        if areaIdx == areaNum {
          return 0;
        }
      }
    }
  }

  lemma {:induction false} AvailableGrows(entries: seq<Entry>, i: nat)
    requires i <= |entries|
    ensures |Available(entries[..i])| <= |Available(entries)|
    decreases |entries|
  {
    if i < |entries| {
      var m := |entries| - 1;
      assert entries[..m][..i] == entries[..i];
      AvailableGrows(entries[..m], i);
    } else {
      assert entries[..i] == entries;
    }
  }

  class BootAllocator {
    var start: nat  // boot_mem_alloc_start
    const total: nat  // boot_mem_total

    constructor (start: nat, total: nat)
      ensures Abs() == BootState(start, total)
    {
      this.start, this.total := start, total;
    }

    ghost function Abs(): BootState
      reads this
    {
      BootState(start, total)
    }

    // boot_mm_alloc
    method Alloc(sz: nat) returns (chunk: nat)
      modifies this
      ensures (Abs(), chunk) == AllocBoot(old(Abs()), sz)
    {
      if sz == 0 {
        return 0;
      }
      var size := Align64(sz);
      if Sum64(size, start) >= total {
        return 0;
      }
      chunk := start;
      start := Sum64(start, size);
    }
  }
}
