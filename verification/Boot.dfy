/** The start of the page allocator: the table of free pages that boot fills. */
module Boot {
  import opened Layout
  import opened Seqs
  import opened FreeMap
  import opened PhysicalPages
  import opened BootMap

  const WORD_SIZE: nat := 8

  /** The addresses of the first `n` pages of a region, counted from its base. */
  ghost function RegionPages(base: nat, n: nat): seq<nat> {
    if n == 0 then [] else RegionPages(base, n - 1) + [base + (n - 1) * PAGE_SIZE]
  }

  /** How many pages the filler lists for a region of that size; the last one may stick out of it. */
  function PageCount(size: nat): nat {
    (size + PAGE_SIZE - 1) / PAGE_SIZE
  }

  /** The pages of the first `n` regions. */
  ghost function MapPages(list: seq<Region>, n: nat): seq<nat>
    requires n <= |list|
  {
    if n == 0 then [] else MapPages(list, n - 1) + RegionPages(list[n - 1].base, PageCount(list[n - 1].size))
  }

  ghost predicate IsPageOf(r: Region, p: nat) {
    r.Has(p) && (p - r.base) % PAGE_SIZE == 0
  }

  lemma {:induction false} RegionPagesMeaning(base: nat, n: nat)
    ensures |RegionPages(base, n)| == n
    ensures forall p | p in RegionPages(base, n) :: base <= p < base + n * PAGE_SIZE && (p - base) % PAGE_SIZE == 0
    ensures forall p: nat :: base <= p < base + n * PAGE_SIZE && (p - base) % PAGE_SIZE == 0 ==>
              p in RegionPages(base, n)
    ensures Distinct(RegionPages(base, n))
  {
    if n > 0 {
      RegionPagesMeaning(base, n - 1);
      var last := base + (n - 1) * PAGE_SIZE;
      forall p: nat | base <= p < base + n * PAGE_SIZE && (p - base) % PAGE_SIZE == 0
        ensures p in RegionPages(base, n)
      {
        if p >= last {
          SamePage(p - base, last - base);
        }
      }
      var front := RegionPages(base, n - 1);
      assert forall i :: 0 <= i < |front| ==> front[i] in front;
    }
  }

  lemma {:induction false} SamePage(p: nat, q: nat)
    requires p % PAGE_SIZE == 0 && q % PAGE_SIZE == 0 && q <= p < q + PAGE_SIZE
    ensures p == q
  {
  }

  lemma {:induction false} LastPage(size: nat, q: nat)
    requires q % PAGE_SIZE == 0
    ensures q < PageCount(size) * PAGE_SIZE <==> q < size
  {
  }

  lemma {:induction false} PageInside(size: nat, j: nat)
    ensures j * PAGE_SIZE < size <==> j < PageCount(size)
  {
  }

  /** The filler's pages of a region are the addresses in it at page distances from its base. */
  lemma {:induction false} PagesOfRegion(r: Region)
    ensures Distinct(RegionPages(r.base, PageCount(r.size)))
    ensures forall p: nat :: p in RegionPages(r.base, PageCount(r.size)) <==> IsPageOf(r, p)
  {
    hide PageCount, RegionPages;
    RegionPagesMeaning(r.base, PageCount(r.size));
    forall p: nat
      ensures p in RegionPages(r.base, PageCount(r.size)) <==> IsPageOf(r, p)
    {
      if p >= r.base && (p - r.base) % PAGE_SIZE == 0 {
        LastPage(r.size, p - r.base);
      }
    }
  }

  lemma {:induction false} PageIsIn(r: Region, p: nat)
    requires IsPageOf(r, p)
    ensures r.Has(p)
  {
  }

  lemma {:induction false} DistinctConcat(x: seq<nat>, y: seq<nat>, bound: nat)
    requires Distinct(x) && Distinct(y) && (forall p | p in x :: p < bound) && (forall p | p in y :: bound <= p)
    ensures Distinct(x + y)
  {
    assert forall i :: 0 <= i < |x| ==> x[i] in x;
    assert forall i :: 0 <= i < |y| ==> y[i] in y;
  }

  /** The pages of every region of the map are listed, once each. */
  lemma {:induction false} MapPagesMeaning(list: seq<Region>, n: nat)
    requires Sorted(list) && n <= |list|
    ensures Distinct(MapPages(list, n))
    ensures forall p | p in MapPages(list, n) :: exists i :: 0 <= i < n && IsPageOf(list[i], p)
    ensures forall i, p: nat | 0 <= i < n && IsPageOf(list[i], p) :: p in MapPages(list, n)
  {
    hide RegionPages, PageCount, IsPageOf;
    if n > 0 {
      MapPagesMeaning(list, n - 1);
      var r := list[n - 1];
      PagesOfRegion(r);
      var front := MapPages(list, n - 1);
      forall p: nat | p in front
        ensures p < r.base
      {
        var i :| 0 <= i < n - 1 && IsPageOf(list[i], p);
        PageIsIn(list[i], p);
      }
      forall p: nat | p in RegionPages(r.base, PageCount(r.size))
        ensures r.base <= p
      {
        PageIsIn(r, p);
      }
      DistinctConcat(front, RegionPages(r.base, PageCount(r.size)), r.base);
    }
  }

  ghost predicate BasesAligned(list: seq<Region>) {
    forall i :: 0 <= i < |list| ==> list[i].base % PAGE_SIZE == 0
  }

  ghost predicate PageAddresses(pages: seq<nat>) {
    forall i :: 0 <= i < |pages| ==> pages[i] % PAGE_SIZE == 0
  }

  /** The listed addresses are page addresses exactly when all regions begin with a page. */
  lemma {:induction false} PagesAligned(list: seq<Region>)
    requires Sorted(list)
    ensures PageAddresses(MapPages(list, |list|)) <==> BasesAligned(list)
  {
    hide MapPages, IsPageOf;
    var pages := MapPages(list, |list|);
    MapPagesMeaning(list, |list|);
    if BasesAligned(list) {
      forall j | 0 <= j < |pages|
        ensures pages[j] % PAGE_SIZE == 0
      {
        assert pages[j] in pages;
        var i :| 0 <= i < |list| && IsPageOf(list[i], pages[j]);
        PageIsIn(list[i], pages[j]);
        OnePageGrid(list[i], pages[j]);
      }
    } else {
      var i :| 0 <= i < |list| && list[i].base % PAGE_SIZE != 0;
      BaseIsPage(list[i]);
      assert list[i].base in pages;
      var j :| 0 <= j < |pages| && pages[j] == list[i].base;
    }
  }

  /** Then they are the page addresses in the map. */
  lemma {:induction false} AlignedPages(list: seq<Region>)
    requires Sorted(list) && BasesAligned(list)
    ensures forall p: nat :: p in MapPages(list, |list|) <==> p % PAGE_SIZE == 0 && Covers(list, p)
  {
    hide MapPages, IsPageOf;
    MapPagesMeaning(list, |list|);
    forall p: nat
      ensures p in MapPages(list, |list|) <==> p % PAGE_SIZE == 0 && Covers(list, p)
    {
      if p in MapPages(list, |list|) {
        var i :| 0 <= i < |list| && IsPageOf(list[i], p);
        PageIsIn(list[i], p);
        OnePageGrid(list[i], p);
      }
      if p % PAGE_SIZE == 0 && Covers(list, p) {
        var i :| 0 <= i < |list| && list[i].Has(p);
        OnePageGrid(list[i], p);
      }
    }
  }

  lemma {:induction false} BaseIsPage(r: Region)
    requires r.size > 0
    ensures IsPageOf(r, r.base)
  {
  }

  lemma {:induction false} OnePageGrid(r: Region, p: nat)
    requires r.base % PAGE_SIZE == 0 && r.Has(p)
    ensures IsPageOf(r, p) <==> p % PAGE_SIZE == 0
  {
  }

  lemma {:induction false} MorePages(list: seq<Region>, n: nat, k: nat)
    requires n <= k <= |list|
    ensures |MapPages(list, n)| <= |MapPages(list, k)|
    decreases k
  {
    hide RegionPages, PageCount;
    if n < k {
      MorePages(list, n, k - 1);
    }
  }

  /**
   * `free_table_filler`. `overrun` tells that it would write past the table; whatever lies there is then
   * overwritten, which is not modelled.
   */
  method FillTable(table: array<nat>, count: nat, base: nat, size: nat) returns (newCount: nat, overrun: bool)
    requires count <= table.Length
    modifies table
    ensures overrun <==> count + PageCount(size) > table.Length
    ensures !overrun ==>
              newCount == count + PageCount(size)
              && table[..newCount] == old(table[..count]) + RegionPages(base, PageCount(size))
  {
    hide PageCount;
    PageInside(size, 0);
    newCount := count;
    var s := 0;
    ghost var j := 0;
    assert table[..count] + [] == table[..count];
    while s < size
      invariant s == j * PAGE_SIZE && (s < size <==> j < PageCount(size)) && j <= PageCount(size)
              && newCount == count + j <= table.Length
      invariant table[..newCount] == old(table[..count]) + RegionPages(base, j)
      decreases size - s
    {
      if newCount == table.Length {
        return newCount, true;
      }
      ghost var before := table[..newCount];
      table[newCount] := base + s;
      assert table[..newCount + 1] == before + [base + s];
      assert before + [base + s] == old(table[..count]) + (RegionPages(base, j) + [base + s]);
      newCount := newCount + 1;
      s := s + PAGE_SIZE;
      j := j + 1;
      PageInside(size, j);
    }
    overrun := false;
  }

  /**
   * How the initialisation ends: with a table, without memory for it, with a table that the kernel cannot reach,
   * with a write past the table, or in a null dereference.
   */
  datatype InitOutcome = Ready | NoMemory | Unreachable | Overrun | NullDereference

  /** How many bytes the table of free pages takes. */
  function TableSize(memorySize: nat): nat {
    PageAlign(memorySize / PAGE_SIZE * WORD_SIZE)
  }

  /** What the first-fit allocation of `size` bytes leaves of the map. */
  ghost function Rest(list: seq<Region>, size: nat): seq<Region> {
    var k := FirstFit(list, size);
    if k == |list| || size == 0 then list else Subtract(list, Region(list[k].base, size))
  }

  lemma {:induction false} RestSorted(list: seq<Region>, size: nat)
    requires Sorted(list)
    ensures Sorted(Rest(list, size))
    ensures FirstFit(list, size) < |list| ==>
              forall a :: Covers(Rest(list, size), a) <==>
                Covers(list, a) && !Region(list[FirstFit(list, size)].base, size).Has(a)
  {
    hide Sorted, Covers, FirstFit, SubtractFirst;
    FitsAt(list, size);
    var k := FirstFit(list, size);
    if k < |list| && size > 0 {
      SubtractSorted(list, |list|, Region(list[k].base, size));
      SubtractIsDifference(list, Region(list[k].base, size));
    }
  }

  /** Sorted regions that consist of whole pages and end by `limit`. */
  ghost predicate WholePages(list: seq<Region>, limit: nat) {
    && Sorted(list)
    && forall i :: 0 <= i < |list| ==>
         list[i].base % PAGE_SIZE == 0 && list[i].size % PAGE_SIZE == 0 && list[i].End() <= limit
  }

  /** What the allocation of the table leaves is again made of whole pages. */
  lemma {:induction false} RestIsWhole(list: seq<Region>, limit: nat, memorySize: nat)
    requires WholePages(list, limit)
    ensures WholePages(Rest(list, TableSize(memorySize)), limit)
  {
    hide Sorted, SubtractFirst, TableSize, FirstFit;
    TableIsPages(memorySize);
    var size := TableSize(memorySize);
    FitsAt(list, size);
    var k := FirstFit(list, size);
    if k < |list| && size > 0 {
      var e := Region(list[k].base, size);
      SubtractIsWhole(list, limit, e);
    }
  }

  lemma {:induction false} SubtractIsWhole(list: seq<Region>, limit: nat, e: Region)
    requires WholePages(list, limit) && e.size > 0 && e.base % PAGE_SIZE == 0 && e.size % PAGE_SIZE == 0
    ensures WholePages(Subtract(list, e), limit)
  {
    hide Sorted, SubtractFirst;
    var rest := Subtract(list, e);
    var grid := iset x: nat | x % PAGE_SIZE == 0;
    SubtractInBounds(list, e, limit);
    forall i | 0 <= i < |list|
      ensures list[i].base in grid && list[i].End() in grid
    {
      WholeEnd(list[i].base, list[i].size);
    }
    WholeEnd(e.base, e.size);
    SubtractGrid(list, e, grid);
    forall i | 0 <= i < |rest|
      ensures rest[i].base % PAGE_SIZE == 0 && rest[i].size % PAGE_SIZE == 0
    {
      assert rest[i].base in grid && rest[i].End() in grid;
      WholeSize(rest[i].base, rest[i].size);
    }
  }

  lemma {:induction false} SubtractInBounds(list: seq<Region>, e: Region, limit: nat)
    requires Sorted(list) && e.size > 0 && forall i :: 0 <= i < |list| ==> list[i].End() <= limit
    ensures Sorted(Subtract(list, e))
    ensures forall i :: 0 <= i < |Subtract(list, e)| ==> Subtract(list, e)[i].End() <= limit
  {
    SubtractSorted(list, |list|, e);
  }

  lemma {:induction false} WholeEnd(base: nat, size: nat)
    requires base % PAGE_SIZE == 0 && size % PAGE_SIZE == 0
    ensures (base + size) % PAGE_SIZE == 0
  {
  }

  lemma {:induction false} WholeSize(base: nat, size: nat)
    requires base % PAGE_SIZE == 0 && (base + size) % PAGE_SIZE == 0
    ensures size % PAGE_SIZE == 0
  {
  }

  lemma {:induction false} TableIsPages(memorySize: nat)
    ensures TableSize(memorySize) % PAGE_SIZE == 0
    ensures TableSize(memorySize) / WORD_SIZE * PAGE_SIZE + PAGE_SIZE > memorySize
  {
  }

  /** The table takes the whole pages that hold eight bytes for each page of memory. */
  lemma {:induction false} TableSizeMeaning(memorySize: nat)
    ensures var bytes := memorySize / 0x1000 * 8;
            TableSize(memorySize) % 0x1000 == 0 && bytes <= TableSize(memorySize) < bytes + 0x1000
  {
    AlignMeaning(memorySize / PAGE_SIZE * WORD_SIZE);
  }

  /** Whole pages take up the space below the end of the last region at most. */
  lemma {:induction false} PagesBelowEnd(list: seq<Region>, n: nat, limit: nat)
    requires WholePages(list, limit) && n <= |list|
    ensures |MapPages(list, n)| * PAGE_SIZE <= if n == 0 then 0 else list[n - 1].End()
  {
    if n > 0 {
      PagesBelowEnd(list, n - 1, limit);
      var r := list[n - 1];
      RegionPagesMeaning(r.base, PageCount(r.size));
      assert PageCount(r.size) * PAGE_SIZE == r.size;
      hide RegionPages, PageCount;
    }
  }

  /** The table is large enough for whole pages below the memory size that it was made for. */
  lemma {:induction false} TableFits(list: seq<Region>, n: nat, memorySize: nat)
    requires WholePages(list, memorySize) && n <= |list|
    ensures |MapPages(list, n)| <= TableSize(memorySize) / WORD_SIZE
  {
    PagesBelowEnd(list, n, memorySize);
    TableIsPages(memorySize);
  }

  /** How the initialisation ends on a map. */
  ghost function Outcome(list: seq<Region>, memorySize: nat): InitOutcome {
    var size := TableSize(memorySize);
    var k := FirstFit(list, size);
    if list != [] && list[0].size == size then NullDereference
    else if k == |list| then NoMemory
    else if list[k].base >= PHYS_MAP_SIZE then Unreachable
    else if |MapPages(Rest(list, size), |Rest(list, size)|)| > size / WORD_SIZE then Overrun
    else Ready
  }

  /** Region `k` is the lowest one that is large enough. */
  ghost predicate IsLowestFit(list: seq<Region>, size: nat, k: nat) {
    && k < |list| && list[k].size >= size
    && forall i :: 0 <= i < |list| && list[i].size >= size ==> list[k].base <= list[i].base
  }

  /**
   * The initialisation fails with a null dereference exactly on a first region of just the table's size, and for want
   * of memory exactly when no region is large enough; else the table lies at the lowest such region.
   */
  lemma {:induction false} OutcomeMeaning(list: seq<Region>, memorySize: nat)
    requires Sorted(list)
    ensures var size := TableSize(memorySize);
            var outcome := Outcome(list, memorySize);
            var k := FirstFit(list, size);
            && (outcome == NullDereference <==> list != [] && list[0].size == size)
            && (outcome == NoMemory <==> forall i :: 0 <= i < |list| ==> list[i].size < size)
            && (outcome != NullDereference && outcome != NoMemory ==>
                  && IsLowestFit(list, size, k)
                  && (outcome == Unreachable <==> list[k].base >= 0x7fff_8000_0000)
                  && (outcome == Overrun <==> list[k].base < 0x7fff_8000_0000
                                              && |MapPages(Rest(list, size), |Rest(list, size)|)| > size / 8))
  {
    hide Sorted, MapPages, TableSize, Rest, FirstFit;
    var size := TableSize(memorySize);
    FitsAt(list, size);
    var k := FirstFit(list, size);
    forall i | 0 <= i < |list| && list[i].size >= size
      ensures k < |list| && list[k].base <= list[i].base
    {
      FirstFitIsLowest(list, size, i);
    }
  }

  /**
   * `pmm_init`: reserves memory for the table of free pages and lists the pages of the rest in it. It writes past
   * the table exactly when the rest has more pages than the table has slots.
   */
  method InitPages(m: MemoryMap, memorySize: nat) returns (outcome: InitOutcome, table: nat, pmm: Pmm?)
    requires m.Valid() && forall i :: 0 <= i < |m.list| ==> m.list[i].base > 0
    modifies m
    ensures outcome == Outcome(old(m.list), memorySize) && (outcome == Ready <==> pmm != null)
    ensures outcome == Ready || outcome == Overrun ==>
              var k := FirstFit(old(m.list), TableSize(memorySize));
              k < |old(m.list)| && table == old(m.list)[k].base
    ensures pmm != null ==>
              var rest := Rest(old(m.list), TableSize(memorySize));
              && pmm.FreePages() == MapPages(rest, |rest|) && Distinct(pmm.FreePages())
              && pmm.pages == Elements(pmm.FreePages()) && pmm.live == {}
              && ((forall p | p in pmm.pages :: UsableFrame(p)) ==> pmm.Valid())
  {
    hide Sorted, Covers, SubtractFirst, MapPages, RegionPages, UsableFrame, FirstFit, TableSize, Conserved;
    var size := TableSize(memorySize);
    ghost var before := m.list;
    var fault: bool;
    FitsAt(before, size);
    table, fault := m.Alloc(size);
    if fault {
      return NullDereference, 0, null;
    }
    if table == 0 {
      return NoMemory, 0, null;
    }
    if table >= PHYS_MAP_SIZE {
      return Unreachable, 0, null;
    }
    assert m.list == Rest(before, size);
    RestSorted(before, size);
    var words, count, overrun := FillAll(m.list, size / WORD_SIZE);
    if overrun {
      return Overrun, table, null;
    }
    MapPagesMeaning(m.list, |m.list|);
    pmm := new Pmm(words, count);
    outcome := Ready;
  }

  /** Lists the pages of all regions of the map, unless they are more than the table has slots. */
  method FillAll(list: seq<Region>, slots: nat) returns (words: array<nat>, count: nat, overrun: bool)
    ensures fresh(words) && (overrun <==> |MapPages(list, |list|)| > slots)
    ensures !overrun ==> count <= words.Length && words[..count] == MapPages(list, |list|)
  {
    hide RegionPages, PageCount;
    words := new nat[slots];
    count := 0;
    for i := 0 to |list|
      invariant words.Length == slots && count <= slots && words[..count] == MapPages(list, i)
    {
      MorePages(list, i + 1, |list|);
      RegionPagesMeaning(list[i].base, PageCount(list[i].size));
      count, overrun := FillTable(words, count, list[i].base, list[i].size);
      if overrun {
        return words, count, true;
      }
    }
    overrun := false;
  }

  // ---------------------------------------------------------------------------------------------- the whole of boot

  /** The available memory is within the size that the kernel computed. */
  ghost predicate Within(info: Info) {
    forall i :: 0 <= i < |Available(info)| ==> Available(info)[i].End() <= MemorySize(info.memUpper)
  }

  /** The available memory is within the window of kernel addresses for physical memory. */
  ghost predicate InWindow(info: Info) {
    forall i :: 0 <= i < |Available(info)| ==> Available(info)[i].End() <= PHYS_MAP_SIZE
  }

  lemma {:induction false} MapEnds(info: Info, list: seq<Region>, limit: nat)
    requires Sorted(list) && forall i :: 0 <= i < |Available(info)| ==> Available(info)[i].End() <= limit
    requires forall a :: Covers(list, a) ==> Covers(Available(info), a)
    ensures forall i :: 0 <= i < |list| ==> list[i].End() <= limit
  {
    hide Available, MemorySize;
    forall i | 0 <= i < |list|
      ensures list[i].End() <= limit
    {
      var r := list[i];
      assert r.Has(r.End() - 1);
      assert Covers(list, r.End() - 1);
      var avail := Available(info);
      var j :| 0 <= j < |avail| && avail[j].Has(r.End() - 1);
    }
  }

  lemma {:induction false} AboveLow(list: seq<Region>)
    requires Sorted(list) && forall a :: Covers(list, a) ==> a >= LOW_MEMORY
    ensures forall i :: 0 <= i < |list| ==> list[i].base >= LOW_MEMORY
  {
    forall i | 0 <= i < |list|
      ensures list[i].base >= LOW_MEMORY
    {
      assert list[i].Has(list[i].base);
      assert Covers(list, list[i].base);
    }
  }

  /** Boundaries above the first megabyte are page boundaries. */
  lemma {:induction false} MapIsWholePages(list: seq<Region>, limit: nat)
    requires Sorted(list) && OnGrid(list, BOUNDARIES)
    requires forall i :: 0 <= i < |list| ==> list[i].base >= LOW_MEMORY && list[i].End() <= limit
    ensures WholePages(list, limit)
  {
    forall i | 0 <= i < |list|
      ensures list[i].base % PAGE_SIZE == 0 && list[i].size % PAGE_SIZE == 0
    {
      var r := list[i];
      assert r.base in BOUNDARIES && r.End() in BOUNDARIES;
      BoundaryAbove(r.base);
      BoundaryAbove(r.End());
      WholeSize(r.base, r.size);
    }
  }

  lemma {:induction false} BoundaryAbove(x: nat)
    requires x in BOUNDARIES && x >= LOW_MEMORY
    ensures x % PAGE_SIZE == 0
  {
  }

  /** Where the table of free pages lies. */
  function TableRange(info: Info, table: nat): Region {
    Region(table, TableSize(MemorySize(info.memUpper)))
  }

  /** `p` is a page that boot takes for itself or hands out. */
  ghost predicate TakenOrHandedOut(info: Info, table: nat, pmm: Pmm, p: nat)
    reads pmm
  {
    p % PAGE_SIZE == 0 && (p in pmm.pages || TableRange(info, table).Has(p))
  }

  /** Where the listed pages come from: the free map without the table. */
  ghost function AfterTable(info: Info, map0: seq<Region>): seq<Region> {
    Rest(map0, TableSize(MemorySize(info.memUpper)))
  }

  /**
   * Boot: the free map, then the table of free pages. `map0` is the free map in between, the one sorted list of
   * the regions that reading and excluding leave. Whatever the memory map, the outcome is exact and the table
   * lists the pages of what is left, each once; it has a slot for each of them when the available memory lies within
   * the size that the kernel computed.
   * On page boundaries the listed pages are exactly the free ones outside the table, and boot hands out only
   * free memory exactly when the early entries suffice for every split.
   */
  method Start(info: Info) returns (outcome: InitOutcome, table: nat, pmm: Pmm?, ghost map0: seq<Region>)
    requires WellFormed(info)
    ensures Sorted(map0) && SameRegions(map0, Final(info))
    ensures outcome == Outcome(map0, MemorySize(info.memUpper)) && (outcome == Ready <==> pmm != null)
    ensures outcome == Ready || outcome == Overrun ==>
              var k := FirstFit(map0, TableSize(MemorySize(info.memUpper)));
              k < |map0| && table == map0[k].base
    ensures Aligned(info) && Within(info) ==> outcome != Overrun && outcome != Unreachable
    ensures pmm != null ==>
              && pmm.FreePages() == MapPages(AfterTable(info, map0), |AfterTable(info, map0)|)
              && Distinct(pmm.FreePages()) && pmm.pages == Elements(pmm.FreePages()) && pmm.live == {}
              && (PageAddresses(pmm.FreePages()) <==> BasesAligned(AfterTable(info, map0)))
    ensures pmm != null && Aligned(info) ==>
              && (InWindow(info) ==> pmm.Valid())
              && (forall p: nat :: p in pmm.pages <==>
                    p % PAGE_SIZE == 0 && Covers(Final(info), p) && !TableRange(info, table).Has(p))
              && (forall p | p in pmm.pages :: Covers(Available(info), p) && p >= LOW_MEMORY)
    ensures pmm != null && Aligned(info) && Fits(info) ==>
              forall p: nat :: p in pmm.pages <==>
                && p % PAGE_SIZE == 0 && Covers(Kept(info), p) && !Covers(Used(info), p)
                && !TableRange(info, table).Has(p)
    ensures pmm != null && Aligned(info) && Disjoint(Used(info)) ==>
              ((forall p: nat | TakenOrHandedOut(info, table, pmm, p) :: !Covers(Used(info), p)) <==> Fits(info))
    ensures pmm != null && Aligned(info) && Fits(info) ==>
              && (forall p: nat, a: nat | p in pmm.pages && p <= a < p + PAGE_SIZE :: !Occupied(info, a))
              && (forall a: nat | TableRange(info, table).Has(a) :: !Occupied(info, a))
    ensures pmm != null && Aligned(info) && Fits(info) && AllPlain(info) ==>
              forall p: nat | p % PAGE_SIZE == 0 && Covers(Kept(info), p) && !Occupied(info, p) ::
                p in pmm.pages || TableRange(info, table).Has(p)
    ensures pmm != null && Aligned(info) && Disjoint(Used(info)) && AllPlain(info) ==>
              ((forall p: nat | TakenOrHandedOut(info, table, pmm, p) :: !Occupied(info, p)) <==> Fits(info))
  {
    hide Sorted, Covers, Disjoint, OnGrid, WholePages, Within, WellFormed, Available, Used, MemorySize, TableSize,
      SameRegions, Final, Kept, Fits, Aligned, MapPages, Outcome, Rest, FirstFit, BasesAligned, PageAddresses,
      UsableFrame, InWindow, Occupied, AllPlain;
    var m, memorySize;
    m, memorySize := BuildFreeMap(info);
    map0 := m.list;
    SameCovers(map0, Final(info));
    FreeMapIsAvailable(info);
    AboveLow(map0);
    outcome, table, pmm := InitPages(m, memorySize);
    RestSorted(map0, TableSize(memorySize));
    PagesAligned(AfterTable(info, map0));
    if Aligned(info) {
      AlignedBoot(info, map0);
      if pmm != null {
        ListedAreFree(map0, memorySize);
        TableIsFree(map0, TableSize(memorySize));
        ListedAreUsable(info, map0, pmm.FreePages());
      }
    }
    if Fits(info) {
      FreeMapIsExact(info);
      if pmm != null && Aligned(info) {
        NothingOccupied(info, table, pmm);
      }
    } else if pmm != null && Aligned(info) && Disjoint(Used(info)) {
      UsedIsHandedOut(info, table, pmm);
      if AllPlain(info) {
        OccupiedIsHandedOut(info, table, pmm);
      }
    }
  }

  lemma {:induction false} OccupiedIsHandedOut(info: Info, table: nat, pmm: Pmm)
    requires AllPlain(info) && exists p: nat :: TakenOrHandedOut(info, table, pmm, p) && Covers(Used(info), p)
    ensures exists p: nat :: TakenOrHandedOut(info, table, pmm, p) && Occupied(info, p)
  {
    hide Used, Covers, Occupied, TableRange;
    var p: nat :| TakenOrHandedOut(info, table, pmm, p) && Covers(Used(info), p);
    UsedIsOccupied(info, p);
  }

  /** Of free pages and a free table, no byte is in use, and nothing else is withheld. */
  lemma {:induction false} NothingOccupied(info: Info, table: nat, pmm: Pmm)
    requires Aligned(info)
    requires forall a | TableRange(info, table).Has(a) :: !Covers(Used(info), a)
    requires forall p: nat :: p in pmm.pages <==>
               && p % PAGE_SIZE == 0 && Covers(Kept(info), p) && !Covers(Used(info), p)
               && !TableRange(info, table).Has(p)
    requires forall p | p in pmm.pages :: p >= LOW_MEMORY
    ensures forall p: nat, a: nat | p in pmm.pages && p <= a < p + PAGE_SIZE :: !Occupied(info, a)
    ensures forall a: nat | TableRange(info, table).Has(a) :: !Occupied(info, a)
    ensures AllPlain(info) ==>
              forall p: nat | p % PAGE_SIZE == 0 && Covers(Kept(info), p) && !Occupied(info, p) ::
                p in pmm.pages || TableRange(info, table).Has(p)
  {
    hide Available, Used, Kept, TableRange, Occupied, AllPlain, Covers;
    forall p: nat, a: nat | p in pmm.pages && p <= a < p + PAGE_SIZE
      ensures !Occupied(info, a)
    {
      PageIsClear(info, p, a);
    }
    forall a: nat | TableRange(info, table).Has(a)
      ensures !Occupied(info, a)
    {
      if Occupied(info, a) {
        OccupiedIsUsed(info, a);
      }
    }
    if AllPlain(info) {
      forall p: nat | p % PAGE_SIZE == 0 && Covers(Kept(info), p) && !Occupied(info, p)
        ensures p in pmm.pages || TableRange(info, table).Has(p)
      {
        if Covers(Used(info), p) {
          UsedIsOccupied(info, p);
        }
      }
    }
  }

  /** A map of whole pages within the computed size has a table for all of its pages. */
  lemma {:induction false} WholeOutcome(list: seq<Region>, memorySize: nat)
    requires WholePages(list, memorySize) && memorySize <= PHYS_MAP_SIZE
    ensures Outcome(list, memorySize) != Overrun && Outcome(list, memorySize) != Unreachable
  {
    hide Sorted, TableSize, MapPages, FirstFit, Rest;
    FitsAt(list, TableSize(memorySize));
    SortedSizes(list);
    RestIsWhole(list, memorySize, memorySize);
    var rest := Rest(list, TableSize(memorySize));
    TableFits(rest, |rest|, memorySize);
  }

  /**
   * On page boundaries, the free map consists of whole pages, and boot fails only for want of memory or at the head.
   */
  lemma {:induction false} AlignedBoot(info: Info, map0: seq<Region>)
    requires Sorted(map0) && OnGrid(map0, BOUNDARIES)
    requires forall a :: Covers(map0, a) ==> Covers(Available(info), a) && a >= LOW_MEMORY
    ensures WholePages(map0, ADDRESS_SPACE)
    ensures Within(info) ==>
              Outcome(map0, MemorySize(info.memUpper)) != Overrun
                && Outcome(map0, MemorySize(info.memUpper)) != Unreachable
  {
    hide Covers, Available, OnGrid, MemorySize, Outcome;
    AboveLow(map0);
    MapIsWholePages(map0, ADDRESS_SPACE);
    if Within(info) {
      var size := MemorySize(info.memUpper);
      SmallEnough(info);
      MapEnds(info, map0, size);
      MapIsWholePages(map0, size);
      WholeOutcome(map0, size);
    }
  }

  lemma {:induction false} SmallEnough(info: Info)
    ensures MemorySize(info.memUpper) <= PHYS_MAP_SIZE
  {
  }

  /** Of a map of whole pages, the table lists the free pages outside itself. */
  lemma {:induction false} ListedAreFree(list: seq<Region>, memorySize: nat)
    requires WholePages(list, ADDRESS_SPACE) && FirstFit(list, TableSize(memorySize)) < |list|
    ensures var size := TableSize(memorySize);
            var rest := Rest(list, size);
            BasesAligned(rest) && forall p: nat :: p in MapPages(rest, |rest|) <==>
              p % PAGE_SIZE == 0 && Covers(list, p) && !Region(list[FirstFit(list, size)].base, size).Has(p)
  {
    hide Sorted, TableSize, MapPages, FirstFit, Rest, Covers;
    RestIsWhole(list, ADDRESS_SPACE, memorySize);
    RestSorted(list, TableSize(memorySize));
    AlignedPages(Rest(list, TableSize(memorySize)));
  }

  lemma {:induction false} TableIsFree(list: seq<Region>, size: nat)
    requires FirstFit(list, size) < |list|
    ensures forall a | Region(list[FirstFit(list, size)].base, size).Has(a) :: Covers(list, a)
  {
    forall a | Region(list[FirstFit(list, size)].base, size).Has(a)
      ensures Covers(list, a)
    {
      assert list[FirstFit(list, size)].Has(a);
    }
  }

  /** Available pages above the first megabyte and within the window can be used. */
  lemma {:induction false} ListedAreUsable(info: Info, map0: seq<Region>, pages: seq<nat>)
    requires forall p: nat | p in pages :: p % PAGE_SIZE == 0 && Covers(map0, p)
    requires forall a :: Covers(map0, a) ==> Covers(Available(info), a) && a >= LOW_MEMORY
    ensures InWindow(info) ==> forall p | p in pages :: UsableFrame(p)
  {
    hide Available;
    if InWindow(info) {
      forall p | p in pages
        ensures UsableFrame(p)
      {
        assert Covers(Available(info), p);
        var j :| 0 <= j < |Available(info)| && Available(info)[j].Has(p);
      }
    }
  }

  /** Without enough entries, the first page of some range in use is handed out or overwritten. */
  lemma {:induction false} UsedIsHandedOut(info: Info, table: nat, pmm: Pmm)
    requires WellFormed(info) && Aligned(info) && Disjoint(Used(info)) && !Fits(info)
    requires forall p: nat :: p in pmm.pages <==>
               p % PAGE_SIZE == 0 && Covers(Final(info), p) && !TableRange(info, table).Has(p)
    ensures exists p: nat :: TakenOrHandedOut(info, table, pmm, p) && Covers(Used(info), p)
  {
    hide Covers, Available, Used, Final, Kept, Fits, TableRange;
    FreeMapIsFreeIff(info);
    FreeMapIsAvailable(info);
    var used := Used(info);
    var j :| 0 <= j < |used| && StillIn(Final(info), used[j]);
    InUse(used, j);
    BoundaryAbove(used[j].base);
    assert TakenOrHandedOut(info, table, pmm, used[j].base);
  }

  // ---------------------------------------------------------------------------------------------- too many regions

  const CROWD: nat := 32
  const RECORD: nat := 24

  /** A memory map of one large region, with the kernel in it, and 31 small ones. */
  function CrowdedRegion(k: nat): Region {
    if k == 0 then Region(0x10_0000, 0x1000_0000) else Region(0x2000_0000 + k * 0x2000, 0x1000)
  }

  function CrowdedInfo(): Info {
    Info(0xF_FC00, 0, CROWD * RECORD,
         (a: nat) => MmapEntry(RECORD - 4, CrowdedRegion(a / RECORD).base, CrowdedRegion(a / RECORD).size,
           MEM_AVAILABLE),
         [], 0x120_0000)
  }

  ghost function Crowded(k: nat): seq<Region>
    requires k <= CROWD
  {
    seq(CROWD - k, i requires 0 <= i => CrowdedRegion(k + i))
  }

  lemma {:induction false} CrowdedFrom(k: nat)
    requires k <= CROWD
    ensures AvailableFrom(CrowdedInfo(), k * RECORD) == Crowded(k)
    decreases CROWD - k
  {
    if k < CROWD {
      CrowdedFrom(k + 1);
      assert k * RECORD / RECORD == k;
      assert k * RECORD + (RECORD - 4) + 4 == (k + 1) * RECORD;
      assert Crowded(k) == [CrowdedRegion(k)] + Crowded(k + 1);
    }
  }

  lemma {:induction false} CrowdedBounds(k: nat)
    requires k < CROWD
    ensures Proper(CrowdedRegion(k)) && CrowdedRegion(k).End() <= 0x4000_0000
    ensures CrowdedRegion(k).base in BOUNDARIES && CrowdedRegion(k).End() in BOUNDARIES
    ensures k > 0 ==> CrowdedRegion(k).base >= 0x2000_0000
  {
    assert k * 0x2000 % PAGE_SIZE == 0;
  }

  lemma {:induction false} CrowdedIsProper()
    ensures var info := CrowdedInfo();
            && Available(info) == Crowded(0) && WellFormed(info) && Aligned(info) && Within(info)
            && Disjoint(Available(info)) && Disjoint(Used(info))
  {
    var info := CrowdedInfo();
    CrowdedFrom(0);
    forall k | 0 <= k < CROWD
      ensures Crowded(0)[k] == CrowdedRegion(k) && Proper(CrowdedRegion(k)) && CrowdedRegion(k).End() <= 0x4000_0000
      ensures CrowdedRegion(k).base in BOUNDARIES && CrowdedRegion(k).End() in BOUNDARIES
    {
      CrowdedBounds(k);
    }
    assert MemorySize(info.memUpper) == 0x4000_0000;
    assert Used(info) == [Region(0, LOW_MEMORY), Region(KERNEL_PHYS_BASE, 0x100_0000)];
    hide Available, AvailableFrom, Used, BOUNDARIES;
  }

  lemma {:induction false} CrowdedExclusions()
    ensures var all, low, kernel := Crowded(0), Region(0, LOW_MEMORY), Region(KERNEL_PHYS_BASE, 0x100_0000);
            && Used(CrowdedInfo()) == [low, kernel]
            && Subtract(all, low) == all && !Splits(all, low) && Splits(all, kernel)
  {
    hide SubtractFirst;
    var all, low, kernel := Crowded(0), Region(0, LOW_MEMORY), Region(KERNEL_PHYS_BASE, 0x100_0000);
    forall k | 0 <= k < CROWD
      ensures Apart(all[k], low) && all[k].size > 0
    {
      CrowdedBounds(k);
    }
    SubtractApart(all, CROWD, low);
    assert all[0] == CrowdedRegion(0);
    assert CrowdedRegion(0) == Region(0x10_0000, 0x1000_0000) && Around(CrowdedRegion(0), kernel);
  }

  /** All 32 entries are used up, so excluding the kernel, which would split the large region, does nothing. */
  lemma {:induction false} CrowdedFinal()
    ensures Final(CrowdedInfo()) == Crowded(0) && !Fits(CrowdedInfo())
  {
    hide Crowded, CrowdedInfo, CrowdedRegion, Used, Subtract, Splits, Available, WellFormed, Aligned, Disjoint,
      Within, Accepted;
    var info := CrowdedInfo();
    var all := Crowded(0);
    CrowdedIsProper();
    CrowdedExclusions();
    CrowdedKept();
    assert Remains(all, 0, Used(info), 1) == (all, 0);
    assert Remains(all, 0, Used(info), 2) == (all, 0);
    assert Carved(all, Used(info), 1) == all;
    assert SplitsNeeded(all, Used(info), 2) == SplitsNeeded(all, Used(info), 1) + 1;
  }

  lemma {:induction false} CrowdedKept()
    ensures Kept(CrowdedInfo()) == Crowded(0) && Spare(CrowdedInfo()) == 0
  {
    CrowdedIsProper();
    hide CrowdedRegion, Used;
    AcceptedAll(Crowded(0), CROWD);
    assert Crowded(0)[..CROWD] == Crowded(0);
  }

  /** On that machine boot hands out a page of the running kernel. */
  method KernelHandedOut() returns (pmm: Pmm, page: nat)
    ensures pmm.Valid() && page in pmm.pages && KERNEL_PHYS_BASE <= page < CrowdedInfo().kernelEnd
  {
    hide Kept, Available, WellFormed, Aligned, Within, Disjoint, Used, Fits, Final, TakenOrHandedOut, Outcome, MapPages,
      Sorted, SameRegions, BasesAligned, PageAddresses, FirstFit, Rest, Crowded, Covers, CrowdedRegion;
    CrowdedIsProper();
    CrowdedFinal();
    var info := CrowdedInfo();
    var outcome, table, started, map0 := Start(info);
    CrowdedSizes(map0);
    CrowdedInWindow();
    pmm := started;
    CrowdedKernel(table);
    page := if TableRange(info, table).Has(0x20_0000) then 0x100_0000 else 0x20_0000;
  }

  lemma {:induction false} CrowdedInWindow()
    ensures InWindow(CrowdedInfo())
  {
    hide Available, CrowdedInfo;
    CrowdedIsProper();
    forall k | 0 <= k < CROWD
      ensures Crowded(0)[k].End() <= PHYS_MAP_SIZE
    {
      CrowdedBounds(k);
    }
  }

  lemma {:induction false} CrowdedSizes(map0: seq<Region>)
    requires Sorted(map0) && SameRegions(map0, Crowded(0))
    ensures var outcome := Outcome(map0, MemorySize(CrowdedInfo().memUpper));
            outcome != NullDereference && outcome != NoMemory
  {
    hide MapPages, Rest, FirstFit;
    assert MemorySize(CrowdedInfo().memUpper) == 0x4000_0000 && TableSize(0x4000_0000) == 0x20_0000;
    assert CrowdedRegion(0) == Crowded(0)[0] && Crowded(0)[0] in map0;
    var i :| 0 <= i < |map0| && map0[i] == CrowdedRegion(0);
    FirstFitIsLowest(map0, 0x20_0000, i);
    assert map0[0] in Crowded(0);
    var k :| 0 <= k < CROWD && map0[0] == Crowded(0)[k];
    assert Crowded(0)[k] == CrowdedRegion(k);
  }

  lemma {:induction false} CrowdedKernel(table: nat)
    ensures KernelRange(CrowdedInfo()).Has(0x20_0000) && KernelRange(CrowdedInfo()).Has(0x100_0000)
    ensures !(TableRange(CrowdedInfo(), table).Has(0x20_0000) && TableRange(CrowdedInfo(), table).Has(0x100_0000))
    ensures Covers(Crowded(0), 0x20_0000) && Covers(Crowded(0), 0x100_0000)
  {
    assert MemorySize(CrowdedInfo().memUpper) == 0x4000_0000 && TableSize(0x4000_0000) == 0x20_0000;
    assert Crowded(0)[0] == CrowdedRegion(0);
    assert CrowdedRegion(0).Has(0x20_0000) && CrowdedRegion(0).Has(0x100_0000);
  }

  // ---------------------------------------------------------------------------------------------- memory above a hole

  /** Memory up to three gigabytes, and from four to eight. The loader's size ends at the hole. */
  const BELOW_HOLE := Region(0x10_0000, 0xBFF0_0000)
  const ABOVE_HOLE := Region(0x1_0000_0000, 0x1_0000_0000)

  function WideInfo(): Info {
    Info(0x2F_FC00, 0, 2 * RECORD,
         (a: nat) =>
           var r := if a < RECORD then BELOW_HOLE else ABOVE_HOLE;
           MmapEntry(RECORD - 4, r.base, r.size, MEM_AVAILABLE),
         [], 0x30_0000)
  }

  /** What is left of it without the kernel at two megabytes. */
  ghost const WIDE_MAP := [Region(0x10_0000, 0x10_0000), Region(0x30_0000, 0xBFD0_0000), ABOVE_HOLE]

  lemma {:induction false} WideIsProper()
    ensures var info := WideInfo();
            && Available(info) == [BELOW_HOLE, ABOVE_HOLE] && WellFormed(info) && Aligned(info)
            && Used(info) == [Region(0, LOW_MEMORY), Region(0x20_0000, 0x10_0000)]
            && MemorySize(info.memUpper) == 0xC000_0000
  {
    var info := WideInfo();
    assert AvailableFrom(info, 2 * RECORD) == [];
    assert AvailableFrom(info, RECORD) == [ABOVE_HOLE];
  }

  lemma {:induction false} WideFinal()
    ensures Final(WideInfo()) == WIDE_MAP
  {
    var info := WideInfo();
    WideIsProper();
    var all := [BELOW_HOLE, ABOVE_HOLE];
    AcceptedAll(all, 2);
    assert all[..2] == all && Kept(info) == all && Spare(info) == 30;
    var low, kernel := Region(0, LOW_MEMORY), Region(0x20_0000, 0x10_0000);
    assert SubtractFirst(all, 1, low) == [BELOW_HOLE] && Subtract(all, low) == all && !Splits(all, low);
    assert SubtractFirst(all, 1, kernel) == [Region(0x10_0000, 0x10_0000), Region(0x30_0000, 0xBFD0_0000)];
    assert Subtract(all, kernel) == WIDE_MAP && Around(all[0], kernel);
    assert Remains(all, 30, Used(info), 1) == (all, 30);
  }

  lemma {:induction false} RegionCounts(list: seq<Region>, i: nat)
    requires i < |list|
    ensures |MapPages(list, |list|)| >= PageCount(list[i].size)
  {
    RegionPagesMeaning(list[i].base, PageCount(list[i].size));
    MorePages(list, i + 1, |list|);
    hide RegionPages, PageCount;
  }

  /** The table of six megabytes lies at three megabytes. */
  lemma {:induction false} WideTable(map0: seq<Region>)
    requires Sorted(map0) && SameRegions(map0, WIDE_MAP)
    ensures TableSize(0xC000_0000) == 0x60_0000
    ensures map0 != [] && map0[0].size != 0x60_0000
    ensures var k := FirstFit(map0, 0x60_0000); k < |map0| && map0[k] == WIDE_MAP[1]
  {
    hide FirstFit, Sorted;
    assert WIDE_MAP[1] in map0;
    var i :| 0 <= i < |map0| && map0[i] == WIDE_MAP[1];
    FirstFitIsLowest(map0, 0x60_0000, i);
    FitsAt(map0, 0x60_0000);
    var k := FirstFit(map0, 0x60_0000);
    assert map0[0] in map0 && map0[k] in map0;
  }

  /** What lies behind the table and above the hole is still to be listed. */
  lemma {:induction false} WideRest(map0: seq<Region>)
    requires Sorted(map0) && SameRegions(map0, WIDE_MAP)
    ensures Sorted(Rest(map0, 0x60_0000))
    ensures ABOVE_HOLE in Rest(map0, 0x60_0000)
    ensures Region(0x90_0000, 0xBF70_0000) in Rest(map0, 0x60_0000)
  {
    hide FirstFit, Sorted, SubtractFirst;
    WideTable(map0);
    RestSorted(map0, 0x60_0000);
    var e := Region(0x30_0000, 0x60_0000);
    SubtractMembers(map0, |map0|, e);
    assert ABOVE_HOLE == WIDE_MAP[2] && WIDE_MAP[2] in map0 && WIDE_MAP[1] in map0;
    assert ABOVE_HOLE in Minus(ABOVE_HOLE, e);
    assert Region(0x90_0000, 0xBF70_0000) in Minus(WIDE_MAP[1], e);
  }

  /**
   * On that machine the table has 786432 slots, but the filler lists more pages: it writes past the table, into
   * a page that it lists itself.
   */
  method TableOverrun() returns (outcome: InitOutcome, table: nat, ghost map0: seq<Region>)
    ensures outcome == Overrun && SameRegions(map0, Final(WideInfo())) && Sorted(map0)
    ensures var rest := AfterTable(WideInfo(), map0);
            table + TableSize(MemorySize(WideInfo().memUpper)) in MapPages(rest, |rest|)
  {
    hide Available, WellFormed, Aligned, Within, Used, Fits, Final, TakenOrHandedOut, MapPages, Kept, TableSize,
      Sorted, SameRegions, BasesAligned, PageAddresses, FirstFit, Rest, Covers, WideInfo, MemorySize, IsPageOf,
        PageCount;
    WideIsProper();
    WideFinal();
    var info := WideInfo();
    var pmm;
    outcome, table, pmm, map0 := Start(info);
    WideTable(map0);
    WideRest(map0);
    ghost var rest := Rest(map0, 0x60_0000);
    ghost var i :| 0 <= i < |rest| && rest[i] == ABOVE_HOLE;
    RegionCounts(rest, i);
    WideCount();
    ghost var j :| 0 <= j < |rest| && rest[j] == Region(0x90_0000, 0xBF70_0000);
    BaseIsPage(rest[j]);
    MapPagesMeaning(rest, |rest|);
  }

  lemma {:induction false} WideCount()
    ensures PageCount(ABOVE_HOLE.size) > 0x60_0000 / WORD_SIZE
  {
  }
}
