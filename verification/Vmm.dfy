/** The virtual memory manager: regions of a process and the pages behind them. */
module VirtualMemory {
  import opened Layout
  import opened FreeMap
  import opened PhysicalPages
  import opened PageTables

  /** The points at which regions may begin and end. */
  ghost const PAGES: iset<nat> := iset x: nat | x % PAGE_SIZE == 0

  /** Regions are sorted, page aligned and inside the user region above the null page. */
  ghost predicate UserRegions(list: seq<Region>) {
    && Sorted(list) && OnGrid(list, PAGES)
    && (forall i :: 0 <= i < |list| ==> PAGE_SIZE <= list[i].base && list[i].End() <= USER_REGION_SIZE)
  }

  /** The free map of an address space and its page tables agree: no mapped page is free. */
  ghost predicate Agree(m: Mem, root: nat, list: seq<Region>) {
    && IsRoot(m, root)
    && UserRegions(list)
    && (forall p: nat | p < USER_PAGES && Walk(m.tables, root, p) != EMPTY :: !Covers(list, p * PAGE_SIZE))
  }

  /** But for the pages `lo .. hi` of address space `root`, every user page is translated as before. */
  ghost predicate SameOutside(m: Mem, n: Mem, root: nat, lo: nat, hi: nat) {
    forall r: nat, p: nat | IsRoot(m, r) && p < USER_PAGES && !(r == root && lo <= p < hi) ::
      Walk(n.tables, r, p) == Walk(m.tables, r, p)
  }

  ghost predicate Unmapped(m: Mem, root: nat, lo: nat, hi: nat) {
    forall p: nat | lo <= p < hi :: Walk(m.tables, root, p) == EMPTY
  }

  /** A range of user pages in which nothing is mapped. */
  ghost predicate IsFree(m: Mem, root: nat, lo: nat, hi: nat) {
    lo <= hi <= USER_PAGES && Unmapped(m, root, lo, hi)
  }

  /** The frames are 64-bit numbers. */
  ghost predicate Addresses(frames: seq<nat>) {
    forall k :: 0 <= k < |frames| ==> frames[k] < ADDRESS_SPACE
  }

  /** The loops of `vmm_map` and `vmm_map_shmem`: page `p + k` is mapped to `frames[k]`, from `k == i` on. */
  ghost function MapFrom(m: Mem, root: nat, p: nat, frames: seq<nat>, i: nat, flags: Flags): (Mem, bool)
    decreases |frames| - i
  {
    if i >= |frames| then (m, true)
    else
      var (l, ok) := ProcMap(m, root, p + i, frames[i], flags);
      if !ok then (l, false) else MapFrom(l, root, p, frames, i + 1, flags)
  }

  lemma {:induction false} PageNumber(p: nat)
    ensures p * PAGE_SIZE / PAGE_SIZE == p && (p < USER_PAGES ==> p * PAGE_SIZE < USER_REGION_SIZE)
  {
  }

  lemma {:induction false} MapFromStep(m: Mem, root: nat, p: nat, frames: seq<nat>, i: nat, flags: Flags)
    ensures MapFrom(m, root, p, frames, i, flags) ==
            if i >= |frames| then (m, true)
            else
              var (l, ok) := ProcMap(m, root, p + i, frames[i], flags);
              if !ok then (l, false) else MapFrom(l, root, p, frames, i + 1, flags)
  {
    hide ProcMap;
  }

  /** The loop of `vmm_alloc` from page `p` on: a fresh frame for each page. */
  ghost function AllocFrom(m: Mem, root: nat, p: nat, hi: nat, flags: Flags): (Mem, bool)
    decreases hi - p
  {
    if p >= hi then (m, true)
    else if m.free == [] then (m, false)
    else
      var (l, ok) := ProcMap(m.(free := m.free[1..]), root, p, m.free[0], flags);
      if !ok then (l, false) else AllocFrom(l, root, p + 1, hi, flags)
  }

  /** Handing out a frame as data. */
  lemma {:induction false} PopKeeps(m: Mem)
    requires Good(m) && m.free != []
    ensures Good(m.(free := m.free[1..])) && Moved(m, m.(free := m.free[1..]))
    ensures m.free[0] in m.data && m.free[0] !in m.free[1..] && UsableFrame(m.free[0])
  {
    assert m.free[0] in m.free;
  }

  lemma {:induction false} SameOutsideTrans(l: Mem, m: Mem, n: Mem, root: nat, lo: nat, mid: nat, hi: nat)
    requires Moved(l, m) && SameOutside(l, m, root, lo, mid) && SameOutside(m, n, root, mid, hi) && lo <= mid <= hi
    ensures SameOutside(l, n, root, lo, hi)
  {
    forall r: nat, p: nat | IsRoot(l, r) && p < USER_PAGES && !(r == root && lo <= p < hi)
      ensures Walk(n.tables, r, p) == Walk(l.tables, r, p)
    {
      assert IsRoot(m, r);
    }
  }

  /** A step that keeps the memory good and translates nothing anew but the pages `lo .. hi` of `root`. */
  ghost predicate Grew(m: Mem, n: Mem, root: nat, lo: nat, hi: nat) {
    Good(n) && Moved(m, n) && IsRoot(n, root) && SameOutside(m, n, root, lo, hi)
  }

  lemma {:induction false} GrewGood(m: Mem, n: Mem, root: nat, lo: nat, hi: nat)
    requires Grew(m, n, root, lo, hi)
    ensures Good(n) && IsRoot(n, root)
  {
  }

  lemma {:induction false} GrewNone(m: Mem, root: nat, p: nat)
    requires Good(m) && IsRoot(m, root)
    ensures Grew(m, m, root, p, p)
  {
    assert m.free[0..] == m.free;
  }

  lemma {:induction false} GrewWider(m: Mem, n: Mem, root: nat, lo: nat, mid: nat, hi: nat)
    requires Grew(m, n, root, lo, mid) && mid <= hi
    ensures Grew(m, n, root, lo, hi)
  {
  }

  lemma {:induction false} GrewTrans(l: Mem, m: Mem, n: Mem, root: nat, lo: nat, mid: nat, hi: nat)
    requires Grew(l, m, root, lo, mid) && Grew(m, n, root, mid, hi) && lo <= mid <= hi
    ensures Grew(l, n, root, lo, hi)
  {
    MovedTrans(l, m, n);
    SameOutsideTrans(l, m, n, root, lo, mid, hi);
  }

  /** One turn of a loop: mapping the first of the unmapped pages `p .. hi`. */
  lemma {:induction false} MapOne(m: Mem, root: nat, p: nat, hi: nat, phys: nat, flags: Flags)
    requires Good(m) && IsRoot(m, root) && p < hi <= USER_PAGES && Unmapped(m, root, p, hi) && phys < ADDRESS_SPACE
    ensures var (l, ok) := ProcMap(m, root, p, phys, flags);
            && Grew(m, l, root, p, p + 1) && Unmapped(l, root, p + 1, hi)
            && Walk(l.tables, root, p) == (if ok then LeafWord(phys, flags) else EMPTY)
            && (!ok ==> l.free == [])
  {
    hide ProcMap, Walk, Good, LeafWord;
    MapsExactlyOnePage(m, root, p, phys, flags);
  }

  /** The frame behind page `p`. */
  ghost function FrameOf(m: Mem, root: nat, p: nat): nat {
    Walk(m.tables, root, p).frame
  }

  /** A range of pages that is mapped to distinct data frames out of `frames`. */
  ghost predicate MappedTo(m: Mem, root: nat, lo: nat, hi: nat, frames: seq<nat>, flags: Flags) {
    && (forall p: nat | lo <= p < hi :: Walk(m.tables, root, p) == Word(FrameOf(m, root, p), PagingFlags(flags)))
    && (forall p: nat | lo <= p < hi :: FrameOf(m, root, p) in frames && FrameOf(m, root, p) in m.data)
    && (forall p: nat | lo <= p < hi :: FrameOf(m, root, p) !in m.free)
    && (forall p: nat, p': nat | lo <= p < p' < hi :: FrameOf(m, root, p) != FrameOf(m, root, p'))
  }

  /** One turn of the allocation loop. */
  lemma {:induction false} AllocOne(m: Mem, root: nat, p: nat, hi: nat, flags: Flags)
    requires Good(m) && IsRoot(m, root) && p < hi <= USER_PAGES && Unmapped(m, root, p, hi) && m.free != []
    ensures var (l, ok) := ProcMap(m.(free := m.free[1..]), root, p, m.free[0], flags);
            && Grew(m, l, root, p, p + 1) && Unmapped(l, root, p + 1, hi)
            && (!ok ==> l.free == [] && Walk(l.tables, root, p) == EMPTY)
            && (ok ==> Walk(l.tables, root, p) == Word(m.free[0], PagingFlags(flags)))
            && (ok ==> m.free[0] in l.data && m.free[0] !in l.free)
            && (forall f | f in l.free :: f in m.free)
  {
    hide LeafWord;
    var m1 := m.(free := m.free[1..]);
    PopKeeps(m);
    LeafWordIsWord(m.free[0], flags);
    MapOne(m1, root, p, hi, m.free[0], flags);
    var (l, ok) := ProcMap(m1, root, p, m.free[0], flags);
    MovedTrans(m, m1, l);
  }

  /**
   * Whatever the outcome, the allocation loop keeps the memory good and touches no other page. It can fail
   * only by running out of frames: the "already mapped" answer never comes.
   */
  lemma {:induction false} AllocFromKeeps(m: Mem, root: nat, p: nat, hi: nat, flags: Flags)
    requires Good(m) && IsRoot(m, root) && p <= hi <= USER_PAGES && Unmapped(m, root, p, hi)
    ensures var (n, ok) := AllocFrom(m, root, p, hi, flags);
            Grew(m, n, root, p, hi) && (!ok ==> n.free == [])
    decreases hi - p
  {
    hide ProcMap, Walk, Good, Moved, Grew, Unmapped;
    GrewNone(m, root, p);
    GrewWider(m, m, root, p, p, hi);
    if p < hi && m.free != [] {
      AllocOne(m, root, p, hi, flags);
      var (l, ok) := ProcMap(m.(free := m.free[1..]), root, p, m.free[0], flags);
      GrewWider(m, l, root, p, p + 1, hi);
      GrewGood(m, l, root, p, p + 1);
      if ok {
        AllocFromKeeps(l, root, p + 1, hi, flags);
        GrewTrans(m, l, AllocFrom(l, root, p + 1, hi, flags).0, root, p, p + 1, hi);
      }
    }
  }

  /** Adding the frame `f` of page `p` in front of a range that was mapped later. */
  lemma {:induction false} MappedToCons(l: Mem, n: Mem, root: nat, p: nat, hi: nat, f: nat, frames: seq<nat>,
      flags: Flags)
    requires IsRoot(l, root) && p < USER_PAGES && f in frames && f in l.data && f !in l.free
    requires forall x | x in l.free :: x in frames
    requires Walk(l.tables, root, p) == Word(f, PagingFlags(flags))
    ensures Grew(l, n, root, p + 1, hi) && MappedTo(n, root, p + 1, hi, l.free, flags) ==>
              MappedTo(n, root, p, hi, frames, flags)
  {
    hide Good, Walk, SameKernelHalf, PagingFlags;
    if Grew(l, n, root, p + 1, hi) && MappedTo(n, root, p + 1, hi, l.free, flags) {
      assert Walk(n.tables, root, p) == Walk(l.tables, root, p);
      assert f in n.data && f !in n.free;
      assert forall p': nat | p < p' < hi :: FrameOf(n, root, p') in l.free;
    }
  }

  /** A successful allocation maps the whole range to pairwise distinct frames that were free. */
  lemma {:induction false} AllocFromMaps(m: Mem, root: nat, p: nat, hi: nat, flags: Flags)
    requires Good(m) && IsRoot(m, root) && p <= hi <= USER_PAGES && Unmapped(m, root, p, hi)
    ensures AllocFrom(m, root, p, hi, flags).1 ==>
              MappedTo(AllocFrom(m, root, p, hi, flags).0, root, p, hi, m.free, flags)
    decreases hi - p
  {
    hide ProcMap, Walk, Good, Moved, Grew, Unmapped, SameOutside, IsRoot;
    if p < hi && AllocFrom(m, root, p, hi, flags).1 {
      AllocOne(m, root, p, hi, flags);
      var l := ProcMap(m.(free := m.free[1..]), root, p, m.free[0], flags).0;
      GrewGood(m, l, root, p, p + 1);
      AllocFromKeeps(l, root, p + 1, hi, flags);
      AllocFromMaps(l, root, p + 1, hi, flags);
      MappedToCons(l, AllocFrom(l, root, p + 1, hi, flags).0, root, p, hi, m.free[0], m.free, flags);
    }
  }

  /** The same for mapping given frames: it keeps the memory good, and fails only by running out of frames. */
  lemma {:induction false} MapFromKeeps(m: Mem, root: nat, p: nat, frames: seq<nat>, i: nat, flags: Flags)
    requires Good(m) && IsRoot(m, root) && i <= |frames| && p + |frames| <= USER_PAGES && Addresses(frames)
    requires Unmapped(m, root, p + i, p + |frames|)
    ensures var (n, ok) := MapFrom(m, root, p, frames, i, flags);
            Grew(m, n, root, p + i, p + |frames|) && (!ok ==> n.free == [])
    decreases |frames| - i
  {
    hide ProcMap, Walk, Moved, SameOutside, Unmapped;
    GrewNone(m, root, p + i);
    GrewWider(m, m, root, p + i, p + i, p + |frames|);
    if i < |frames| {
      MapOne(m, root, p + i, p + |frames|, frames[i], flags);
      var (l, ok) := ProcMap(m, root, p + i, frames[i], flags);
      GrewWider(m, l, root, p + i, p + i + 1, p + |frames|);
      if ok {
        MapFromKeeps(l, root, p, frames, i + 1, flags);
        GrewTrans(m, l, MapFrom(l, root, p, frames, i + 1, flags).0, root, p + i, p + i + 1, p + |frames|);
      }
    }
  }

  /** A successful mapping maps every page of the range to the frame given for it. */
  lemma {:induction false} MapFromMaps(m: Mem, root: nat, p: nat, frames: seq<nat>, i: nat, flags: Flags)
    requires Good(m) && IsRoot(m, root) && i <= |frames| && p + |frames| <= USER_PAGES && Addresses(frames)
    requires Unmapped(m, root, p + i, p + |frames|)
    requires MapFrom(m, root, p, frames, i, flags).1
    ensures forall k | i <= k < |frames| ::
              Walk(MapFrom(m, root, p, frames, i, flags).0.tables, root, p + k) == LeafWord(frames[k], flags)
    decreases |frames| - i
  {
    hide ProcMap, Walk, Good, Moved, Unmapped, LeafWord;
    if i < |frames| {
      MapOne(m, root, p + i, p + |frames|, frames[i], flags);
      var l := ProcMap(m, root, p + i, frames[i], flags).0;
      MapFromKeeps(l, root, p, frames, i + 1, flags);
      MapFromMaps(l, root, p, frames, i + 1, flags);
    }
  }

  /** Cutting a page-aligned range out of the free map leaves a free map. */
  lemma {:induction false} SubtractUserRegions(list: seq<Region>, n: nat, e: Region)
    requires UserRegions(list) && n <= |list| && e.size > 0 && e.base % PAGE_SIZE == 0 && e.size % PAGE_SIZE == 0
    ensures UserRegions(SubtractFirst(list, n, e))
  {
    SubtractSorted(list, n, e);
    SubtractOnGrid(list, n, e, PAGES);
    SubtractBounds(list, n, e);
  }

  lemma {:induction false} SubtractBounds(list: seq<Region>, n: nat, e: Region)
    requires n <= |list|
    requires forall i :: 0 <= i < |list| ==> PAGE_SIZE <= list[i].base && list[i].End() <= USER_REGION_SIZE
    ensures forall i :: 0 <= i < |SubtractFirst(list, n, e)| ==>
              PAGE_SIZE <= SubtractFirst(list, n, e)[i].base && SubtractFirst(list, n, e)[i].End() <= USER_REGION_SIZE
  {
    if n > 0 {
      SubtractBounds(list, n - 1, e);
    }
  }

  /** The range is free: whole pages of the map. */
  ghost predicate FreeRange(list: seq<Region>, lo: nat, hi: nat) {
    forall p: nat | lo <= p < hi :: Covers(list, p * PAGE_SIZE)
  }

  /**
   * Taking a free range of pages out of the map and then mapping nothing outside of it, in whatever
   * way and with whatever success, keeps the agreement.
   */
  lemma {:induction false} TakingKeepsAgreement(m: Mem, n: Mem, root: nat, list: seq<Region>, lo: nat, hi: nat)
    requires Agree(m, root, list) && lo < hi && FreeRange(list, lo, hi)
    requires Grew(m, n, root, lo, hi)
    ensures Agree(n, root, Subtract(list, Region(lo * PAGE_SIZE, (hi - lo) * PAGE_SIZE)))
  {
    var e := Region(lo * PAGE_SIZE, (hi - lo) * PAGE_SIZE);
    SubtractUserRegions(list, |list|, e);
    SubtractIsDifference(list, e);
    hide Good, Moved, Walk;
    forall p: nat | p < USER_PAGES && Walk(n.tables, root, p) != EMPTY
      ensures !Covers(Subtract(list, e), p * PAGE_SIZE)
    {
      if !(lo <= p < hi) {
        assert Walk(n.tables, root, p) == Walk(m.tables, root, p);
      }
    }
  }

  /** A free range holds no mapped page, so mapping it never meets the "already mapped" answer. */
  lemma {:induction false} FreeIsUnmapped(m: Mem, root: nat, list: seq<Region>, lo: nat, hi: nat)
    requires Agree(m, root, list) && FreeRange(list, lo, hi)
    ensures lo < hi ==> hi <= USER_PAGES
    ensures Unmapped(m, root, lo, hi)
  {
    hide Walk, Good;
    if lo < hi {
      assert Covers(list, (hi - 1) * PAGE_SIZE);
      var i :| 0 <= i < |list| && list[i].Has((hi - 1) * PAGE_SIZE);
    }
    forall p: nat | lo <= p < hi
      ensures Walk(m.tables, root, p) == EMPTY
    {
      assert Covers(list, p * PAGE_SIZE);
      var i :| 0 <= i < |list| && list[i].Has(p * PAGE_SIZE);
    }
  }

  /** No process disturbs the agreement of another one. */
  lemma {:induction false} OthersStillAgree(m: Mem, n: Mem, root: nat, other: nat, list: seq<Region>, lo: nat, hi: nat)
    requires Agree(m, other, list) && Grew(m, n, root, lo, hi) && other != root
    ensures Agree(n, other, list)
  {
    hide Walk, Good;
  }

  /** How an operation ends: as the C function returns, or in a kernel null dereference or panic. */
  datatype Outcome = Ok | Failed | Fault | Panic

  /** `vmm_context_init`: the whole user region but the page of the null address is free. */
  method ContextInit(entries: nat) returns (regions: MemoryMap)
    ensures fresh(regions) && UserRegions(regions.list)
    ensures regions.list == if entries == 0 then [] else [Region(PAGE_SIZE, USER_REGION_SIZE - PAGE_SIZE)]
  {
    hide Sorted, Covers, OnGrid, Splits, Minus, Subtract, UserRegions;
    regions := new MemoryMap(entries, true);
    NothingToSplit();
    NullPageCut();
    UserRegionOnPages();
    var added := regions.Add(USER_REGION_BASE, USER_REGION_SIZE, PAGES);
    var excluded := regions.Exclude(0, PAGE_SIZE);
  }

  /** On an empty map the region is added, and no region can be split at its front. */
  lemma {:induction false} NothingToSplit()
    ensures forall a :: !Covers([], a)
    ensures forall list :: Inserted([], list, Region(0, USER_REGION_SIZE)) ==> list == [Region(0, USER_REGION_SIZE)]
    ensures forall list {:trigger Splits(list, Region(0, PAGE_SIZE))} :: !Splits(list, Region(0, PAGE_SIZE))
    ensures Subtract([], Region(0, PAGE_SIZE)) == []
  {
  }

  /** The null page is cut off the user region. */
  lemma {:induction false} NullPageCut()
    ensures Subtract([Region(0, USER_REGION_SIZE)], Region(0, PAGE_SIZE)) ==
            [Region(PAGE_SIZE, USER_REGION_SIZE - PAGE_SIZE)]
  {
    SubtractSingle(Region(0, USER_REGION_SIZE), Region(0, PAGE_SIZE));
  }

  lemma {:induction false} UserRegionOnPages()
    ensures UserRegions([Region(PAGE_SIZE, USER_REGION_SIZE - PAGE_SIZE)]) && UserRegions([])
  {
    var r := Region(PAGE_SIZE, USER_REGION_SIZE - PAGE_SIZE);
    assert r.End() == USER_REGION_SIZE;
    assert USER_REGION_SIZE % PAGE_SIZE == 0 && PAGE_SIZE % PAGE_SIZE == 0;
  }

  // --------------------------------------------------------------------------------------- what the stored numbers say

  /** The number that the walk for page `p` ends on. */
  ghost function EntryOf(t: Tables, root: nat, p: nat): nat {
    NumberWalk(t, root, PathOfPage(p), 0)
  }

  /** The pages `lo .. hi` are present, with the access that was asked for. */
  ghost predicate Accessible(t: Tables, root: nat, lo: nat, hi: nat, flags: Flags) {
    forall p: nat | lo <= p < hi :: HasAccess(EntryOf(t, root, p), flags.write, flags.user)
  }

  /** The `n` pages from `lo` on are mapped to the `n` frames from `phys` on, at 64 bits. */
  ghost predicate MappedFrom(t: Tables, root: nat, lo: nat, n: nat, phys: nat, flags: Flags) {
    forall p: nat | lo <= p < lo + n ::
      && IsEntry(EntryOf(t, root, p), (phys + (p - lo) * PAGE_SIZE) % ADDRESS_SPACE, flags)
      && Walk(t, root, p).frame == (phys + (p - lo) * PAGE_SIZE) % ADDRESS_SPACE
  }

  /** How many pages the first `b` blocks hold. */
  ghost function Before(blocks: seq<seq<nat>>, b: nat): nat
    requires b <= |blocks|
  {
    if b == 0 then 0 else Before(blocks, b - 1) + |blocks[b - 1]|
  }

  /** The frames of the blocks are mapped one after the other, each masked to its page. */
  ghost predicate BlocksMapped(t: Tables, root: nat, lo: nat, blocks: seq<seq<nat>>, flags: Flags) {
    forall b: nat, i: nat | b < |blocks| && i < |blocks[b]| ::
      && IsEntry(EntryOf(t, root, lo + Before(blocks, b) + i), blocks[b][i], flags)
      && Walk(t, root, lo + Before(blocks, b) + i).frame == PageFloor(blocks[b][i])
  }

  lemma {:induction false} EntryIsWalk(t: Tables, root: nat, p: nat)
    requires AllWords(t)
    ensures EntryOf(t, root, p) == Walk(t, root, p).Raw() && IsWord(Walk(t, root, p))
  {
    hide NumberWalk, Leaf, AllWords, IsWord;
    WalkIsNumberWalk(t, root, PathOfPage(p), 0);
  }

  /** An allocated range has the access that was asked for. */
  lemma {:induction false} MappedToIsAccessible(m: Mem, root: nat, lo: nat, hi: nat, frames: seq<nat>, flags: Flags)
    requires Good(m) && MappedTo(m, root, lo, hi, frames, flags)
    ensures Accessible(m.tables, root, lo, hi, flags)
  {
    hide Walk, EntryOf, HasAccess, AllWords, Tree, LinksOpen, PagingFlags;
    forall p: nat | lo <= p < hi
      ensures HasAccess(EntryOf(m.tables, root, p), flags.write, flags.user)
    {
      EntryIsWalk(m.tables, root, p);
      WordIsEntry(FrameOf(m, root, p), flags);
    }
  }

  /** A page mapped by the word made of `phys`. */
  lemma {:induction false} LeafAtPage(t: Tables, root: nat, p: nat, phys: nat, flags: Flags)
    requires AllWords(t) && phys < ADDRESS_SPACE && Walk(t, root, p) == LeafWord(phys, flags)
    ensures IsEntry(EntryOf(t, root, p), phys, flags) && Walk(t, root, p).frame == PageFloor(phys)
  {
    hide Walk, EntryOf, IsEntry, AllWords, LeafWord;
    EntryIsWalk(t, root, p);
    LeafIsEntry(phys, flags);
    LeafWordIsWord(phys, flags);
  }

  lemma {:induction false} EachIsFrom(t: Tables, root: nat, lo: nat, n: nat, phys: nat, flags: Flags)
    requires AllWords(t) && phys % PAGE_SIZE == 0 && MappedEach(t, root, lo, FramesFrom(phys, n), flags)
    ensures MappedFrom(t, root, lo, n, phys, flags)
  {
    hide Walk, EntryOf, IsEntry, AllWords, LeafWord;
    forall p: nat | lo <= p < lo + n
      ensures var at := (phys + (p - lo) * PAGE_SIZE) % ADDRESS_SPACE;
              IsEntry(EntryOf(t, root, p), at, flags) && Walk(t, root, p).frame == at
    {
      var k := p - lo;
      assert Walk(t, root, lo + k) == LeafWord(FramesFrom(phys, n)[k], flags);
      WrapsAligned(phys, k);
      LeafAtPage(t, root, p, (phys + k * PAGE_SIZE) % ADDRESS_SPACE, flags);
    }
  }

  lemma {:induction false} WrapsAligned(phys: nat, k: nat)
    requires phys % PAGE_SIZE == 0
    ensures var at := (phys + k * PAGE_SIZE) % ADDRESS_SPACE;
            at < ADDRESS_SPACE && at % PAGE_SIZE == 0 && PageFloor(at) == at
  {
  }

  /** The pages `lo .. hi` are mapped to the frames from `phys` on. */
  ghost predicate NoWrapping(t: Tables, root: nat, lo: nat, hi: nat, phys: nat) {
    forall p: nat | lo <= p < hi :: Walk(t, root, p).frame == phys + (p - lo) * PAGE_SIZE
  }

  lemma {:induction false} MappedRight(m: Mem, root: nat, lo: nat, hi: nat, base: nat, phys: nat, size: nat,
      flags: Flags)
    requires Good(m) && lo <= hi && base == lo * PAGE_SIZE && base + size == hi * PAGE_SIZE && phys % PAGE_SIZE == 0
    requires MappedEach(m.tables, root, lo, FramesFrom(phys, hi - lo), flags)
    ensures MappedAsGiven(m.tables, root, lo, FramesFrom(phys, hi - lo), flags)
    ensures MappedFrom(m.tables, root, lo, hi - lo, phys, flags)
    ensures phys + size <= ADDRESS_SPACE ==> NoWrapping(m.tables, root, lo, hi, phys)
  {
    hide Good, MappedEach, MappedAsGiven, MappedFrom, NoWrapping, FramesFrom;
    FramesFromAligned(phys, hi - lo);
    AlignedFramesMapped(m.tables, root, lo, FramesFrom(phys, hi - lo), flags);
    GoodWords(m);
    EachIsFrom(m.tables, root, lo, hi - lo, phys, flags);
    if phys + size <= ADDRESS_SPACE {
      NoWrap(m.tables, root, lo, hi - lo, phys, size, flags);
      assert lo + (hi - lo) == hi;
    }
  }

  lemma {:induction false} NoWrap(t: Tables, root: nat, lo: nat, n: nat, phys: nat, size: nat, flags: Flags)
    requires MappedFrom(t, root, lo, n, phys, flags) && n * PAGE_SIZE == size && phys + size <= ADDRESS_SPACE
    ensures NoWrapping(t, root, lo, lo + n, phys)
  {
    hide Walk, EntryOf, IsEntry;
  }

  lemma {:induction false} BeforeIsPages(blocks: seq<seq<nat>>, b: nat)
    requires b <= |blocks|
    ensures |PagesOfFirst(blocks, b)| == Before(blocks, b)
  {
    if b > 0 {
      BeforeIsPages(blocks, b - 1);
    }
  }

  /** The block begins at place `at`. */
  ghost predicate Holds(pages: seq<nat>, at: nat, block: seq<nat>) {
    at + |block| <= |pages| && pages[at..at + |block|] == block
  }

  /** The pages of each block, block after block. */
  ghost predicate InOrder(pages: seq<nat>, blocks: seq<seq<nat>>) {
    && |pages| == Before(blocks, |blocks|)
    && forall b: nat | b < |blocks| :: Holds(pages, Before(blocks, b), blocks[b])
  }

  lemma {:induction false} PagesInOrder(blocks: seq<seq<nat>>)
    ensures InOrder(Pages(blocks), blocks)
  {
    hide PagesOfFirst, Holds;
    BeforeIsPages(blocks, |blocks|);
    forall b: nat | b < |blocks|
      ensures Holds(Pages(blocks), Before(blocks, b), blocks[b])
    {
      BlockHeld(blocks, b);
    }
  }

  lemma {:induction false} BlockHeld(blocks: seq<seq<nat>>, b: nat)
    requires b < |blocks|
    ensures Holds(Pages(blocks), Before(blocks, b), blocks[b])
  {
    BeforeIsPages(blocks, b);
    PagesOfBlock(blocks, |blocks|, b);
  }

  lemma {:induction false} PageOfBlock(blocks: seq<seq<nat>>, b: nat, i: nat)
    requires b < |blocks| && i < |blocks[b]|
    ensures Before(blocks, b) + i < |Pages(blocks)| && Pages(blocks)[Before(blocks, b) + i] == blocks[b][i]
  {
    BeforeIsPages(blocks, b);
    PagesOfBlock(blocks, |blocks|, b);
  }

  lemma {:induction false} FrameNumbers(phys: nat, n: nat)
    ensures forall k :: 0 <= k < n ==> FramesFrom(phys, n)[k] == (phys + k * PAGE_SIZE) % ADDRESS_SPACE
  {
  }

  lemma {:induction false} EachIsBlocks(t: Tables, root: nat, lo: nat, blocks: seq<seq<nat>>, flags: Flags)
    requires AllWords(t) && Addresses(Pages(blocks)) && MappedEach(t, root, lo, Pages(blocks), flags)
    ensures BlocksMapped(t, root, lo, blocks, flags)
  {
    hide Walk, EntryOf, IsEntry, AllWords, LeafWord, PageFloor, PagesOfFirst, Before, Pages;
    forall b: nat, i: nat | b < |blocks| && i < |blocks[b]|
      ensures var p := lo + Before(blocks, b) + i;
              IsEntry(EntryOf(t, root, p), blocks[b][i], flags) && Walk(t, root, p).frame == PageFloor(blocks[b][i])
    {
      var k := Before(blocks, b) + i;
      PageOfBlock(blocks, b, i);
      assert Walk(t, root, lo + k) == LeafWord(Pages(blocks)[k], flags);
      LeafAtPage(t, root, lo + k, blocks[b][i], flags);
    }
  }

  class Process {
    const spaces: AddressSpaces
    /** The root page table, `cr3`. */
    const root: nat
    /** The free regions of `vmm_ctx`. */
    const freeMap: MemoryMap

    ghost predicate Valid()
      reads spaces, spaces.pmm, spaces.pmm.table, freeMap
    {
      spaces.Valid() && Agree(spaces.Abs(), root, freeMap.list)
    }

    constructor (spaces: AddressSpaces, root: nat, entries: nat)
      requires spaces.Valid() && IsRoot(spaces.Abs(), root)
      requires forall p: nat | p < USER_PAGES :: Walk(spaces.tables, root, p) == EMPTY
      ensures Valid() && this.spaces == spaces && this.root == root && fresh(freeMap)
      ensures freeMap.list == if entries == 0 then [] else [Region(PAGE_SIZE, USER_REGION_SIZE - PAGE_SIZE)]
    {
      this.spaces, this.root := spaces, root;
      var regions := ContextInit(entries);
      freeMap := regions;
    }

    /** Maps page `p`, at address `virt`. */
    method MapPage(virt: nat, ghost p: nat, phys: nat, flags: Flags) returns (ok: bool)
      requires spaces.Valid() && IsRoot(spaces.Abs(), root) && virt == p * PAGE_SIZE && p < USER_PAGES
               && phys < ADDRESS_SPACE
      modifies spaces, spaces.pmm
      ensures spaces.Valid() && spaces.pmm.table == old(spaces.pmm.table)
      ensures (spaces.Abs(), ok) == ProcMap(old(spaces.Abs()), root, p, phys, flags)
    {
      hide Good, ProcMap, Conserved, IsRoot;
      PageNumber(p);
      ok := spaces.Map(root, virt, phys, flags);
    }

    /** One page of `vmm_alloc`: page `p`, at address `virt`. */
    method AllocPage(virt: nat, ghost p: nat, flags: Flags) returns (ok: bool)
      requires spaces.Valid() && IsRoot(spaces.Abs(), root) && virt == p * PAGE_SIZE && p < USER_PAGES
      modifies spaces, spaces.pmm
      ensures spaces.Valid() && spaces.pmm.table == old(spaces.pmm.table)
      ensures var m := old(spaces.Abs());
              (spaces.Abs(), ok) ==
              if m.free == [] then (m, false)
              else ProcMap(m.(free := m.free[1..]), root, p, m.free[0], flags)
    {
      if spaces.pmm.FreePages() != [] {
        PopKeeps(spaces.Abs());
      }
      hide Good, ProcMap, Conserved;
      var frame := spaces.pmm.Alloc();
      if frame == 0 {
        return false;
      }
      ok := MapPage(virt, p, frame, flags);
    }

    /** The loop of `vmm_alloc` over the pages `lo .. hi`. */
    method AllocPages(base: nat, size: nat, ghost lo: nat, ghost hi: nat, flags: Flags) returns (ok: bool)
      requires spaces.Valid() && IsRoot(spaces.Abs(), root)
      requires base == lo * PAGE_SIZE && base + size == hi * PAGE_SIZE && hi <= USER_PAGES
      requires Unmapped(spaces.Abs(), root, lo, hi)
      modifies spaces, spaces.pmm
      ensures spaces.Valid() && spaces.pmm.table == old(spaces.pmm.table)
      ensures (spaces.Abs(), ok) == AllocFrom(old(spaces.Abs()), root, lo, hi, flags)
    {
      hide Good, ProcMap, Walk, Moved, SameOutside;
      ghost var p := lo;
      var i := 0;
      while i < size
        invariant 0 <= i <= size && base + i == p * PAGE_SIZE
        invariant spaces.Valid() && IsRoot(spaces.Abs(), root) && spaces.pmm.table == old(spaces.pmm.table)
        invariant Unmapped(spaces.Abs(), root, p, hi)
        invariant AllocFrom(old(spaces.Abs()), root, lo, hi, flags) == AllocFrom(spaces.Abs(), root, p, hi, flags)
      {
        if spaces.pmm.FreePages() != [] {
          AllocOne(spaces.Abs(), root, p, hi, flags);
        }
        ok := AllocPage(base + i, p, flags);
        if !ok {
          return;
        }
        i, p := i + PAGE_SIZE, p + 1;
      }
      ok := true;
    }

    /** `memory_map_alloc` on the regions of the process: the pages `lo .. hi`. */
    method TakeRegion(size: nat, entries: nat) returns (base: nat, fault: bool, ghost lo: nat, ghost hi: nat)
      requires UserRegions(freeMap.list) && size % PAGE_SIZE == 0
      modifies freeMap
      ensures fault <==> old(freeMap.list) != [] && old(freeMap.list)[0].size == size
      ensures !fault ==> (base == 0 <==> FirstFit(old(freeMap.list), size) == |old(freeMap.list)|)
      ensures Taken(old(freeMap.list), freeMap.list, lo, hi)
      ensures if fault || base == 0 then lo == hi == 0 else base == lo * PAGE_SIZE && base + size == hi * PAGE_SIZE
    {
      hide Sorted, OnGrid, Subtract, Taken, FirstFit, UserRegions, Covers;
      UserRegionsSorted(freeMap.list);
      freeMap.spare := entries;
      base, fault := freeMap.Alloc(size);
      lo, hi := 0, 0;
      NothingTaken(old(freeMap.list));
      FitsAt(old(freeMap.list), size);
      if !fault && FirstFit(old(freeMap.list), size) < |old(freeMap.list)| {
        FitIsTaken(old(freeMap.list), freeMap.list, base, size);
        lo, hi := base / PAGE_SIZE, (base + size) / PAGE_SIZE;
      }
    }

    /** `memory_map_alloc_at`: the pages `lo .. hi` are exactly the requested range. */
    method TakeFixedRegion(at: nat, size: nat, entries: nat) returns (ok: bool, ghost lo: nat, ghost hi: nat)
      requires UserRegions(freeMap.list) && at % PAGE_SIZE == 0 && size % PAGE_SIZE == 0
      requires size > 0 && at + size <= ADDRESS_SPACE
      modifies freeMap
      ensures ok <==> && Contained(old(freeMap.list), Region(at, size))
                      && (entries > 0 || !Splits(old(freeMap.list), Region(at, size)))
      ensures Taken(old(freeMap.list), freeMap.list, lo, hi)
      ensures if ok then at == lo * PAGE_SIZE && at + size == hi * PAGE_SIZE else lo == hi == 0
    {
      hide Sorted, OnGrid, Subtract, Splits;
      freeMap.spare := entries;
      ok := freeMap.AllocAt(at, size);
      lo, hi := 0, 0;
      if ok {
        ghost var k :| 0 <= k < |old(freeMap.list)|
                       && old(freeMap.list)[k].base <= at && at + size <= old(freeMap.list)[k].End();
        RegionIsFree(old(freeMap.list), k, at, size);
        lo, hi := at / PAGE_SIZE, (at + size) / PAGE_SIZE;
      }
    }

    /** The second half of `vmm_alloc`: frames for the pages that were just taken out of `list`. */
    method FillRegion(base: nat, size: nat, ghost lo: nat, ghost hi: nat, flags: Flags, ghost list: seq<Region>)
      returns (ok: bool)
      requires spaces.Valid() && Agree(spaces.Abs(), root, list) && Taken(list, freeMap.list, lo, hi)
      requires base == lo * PAGE_SIZE && base + size == hi * PAGE_SIZE
      modifies spaces, spaces.pmm
      ensures Valid() && Grew(old(spaces.Abs()), spaces.Abs(), root, lo, hi)
      ensures IsFree(old(spaces.Abs()), root, lo, hi)
      ensures spaces.Abs() == AllocFrom(old(spaces.Abs()), root, lo, hi, flags).0
      ensures ok ==> MappedTo(spaces.Abs(), root, lo, hi, old(spaces.Abs()).free, flags)
      ensures ok ==> Accessible(spaces.tables, root, lo, hi, flags)
      ensures !ok ==> lo < hi && spaces.pmm.FreePages() == []
    {
      ghost var m := spaces.Abs();
      FreeIsUnmapped(m, root, list, lo, hi);
      AllocFromKeeps(m, root, lo, hi, flags);
      if AllocFrom(m, root, lo, hi, flags).1 {
        AllocFromMaps(m, root, lo, hi, flags);
        MappedToIsAccessible(AllocFrom(m, root, lo, hi, flags).0, root, lo, hi, m.free, flags);
      }
      TakenKeepsAgreement(m, AllocFrom(m, root, lo, hi, flags).0, root, list, freeMap.list, lo, hi);
      hide Good, Walk, Moved, Agree, Grew, MappedTo, FreeRange, Conserved, Accessible;
      ok := AllocPages(base, size, lo, hi, flags);
    }

    /**
     * `vmm_alloc`. `entries` is how many region entries the slab allocator can hand out. `lo .. hi` are the
     * pages that left the free map, with or without success.
     */
    method Alloc(at: nat, size: nat, fixed: bool, flags: Flags, entries: nat)
      returns (r: Outcome, base: nat, ghost lo: nat, ghost hi: nat)
      requires Valid() && (fixed ==> size > 0 && at + size <= ADDRESS_SPACE)
      modifies spaces, spaces.pmm, freeMap
      ensures Valid() && Grew(old(spaces.Abs()), spaces.Abs(), root, lo, hi)
      ensures Taken(old(freeMap.list), freeMap.list, lo, hi) && IsFree(old(spaces.Abs()), root, lo, hi)
      ensures spaces.Abs() == AllocFrom(old(spaces.Abs()), root, lo, hi, flags).0
      ensures r == Panic <==> size % PAGE_SIZE == 0 && fixed && at % PAGE_SIZE != 0
      ensures r == Fault <==>
                size % PAGE_SIZE == 0 && !fixed && old(freeMap.list) != [] && old(freeMap.list)[0].size == size
      ensures r == Ok ==>
                && base == lo * PAGE_SIZE && base + size == hi * PAGE_SIZE && (fixed ==> base == at)
                && MappedTo(spaces.Abs(), root, lo, hi, old(spaces.Abs()).free, flags)
                && Accessible(spaces.tables, root, lo, hi, flags)
      ensures r == Failed ==>
                || size % PAGE_SIZE != 0
                || (lo < hi && spaces.pmm.FreePages() == [])
                || (lo == hi && !fixed && FirstFit(old(freeMap.list), size) == |old(freeMap.list)|)
                || (lo == hi && fixed && !(&& Contained(old(freeMap.list), Region(at, size))
                                           && (entries > 0 || !Splits(old(freeMap.list), Region(at, size)))))
    {
      base, lo, hi := 0, 0, 0;
      GrewNone(spaces.Abs(), root, 0);
      hide Good, Walk, Moved, Conserved, Grew, MappedTo, Accessible;
      if size % PAGE_SIZE != 0 {
        return Failed, base, lo, hi;
      }
      var found: bool;
      if fixed {
        base := at;
        if at % PAGE_SIZE != 0 {
          return Panic, base, lo, hi;
        }
        found, lo, hi := TakeFixedRegion(at, size, entries);
      } else {
        var fault;
        base, fault, lo, hi := TakeRegion(size, entries);
        if fault {
          return Fault, base, lo, hi;
        }
        found := base != 0;
      }
      if !found {
        return Failed, base, lo, hi;
      }
      var ok := FillRegion(base, size, lo, hi, flags, old(freeMap.list));
      r := if ok then Ok else Failed;
    }

    /** One turn of the loops of `vmm_map` and `vmm_map_shmem`: page `lo + k`, at `virt`, gets `frames[k]`. */
    method MapNext(virt: nat, phys: nat, ghost lo: nat, ghost frames: seq<nat>, ghost k: nat, flags: Flags)
        returns (ok: bool)
      requires spaces.Valid() && IsRoot(spaces.Abs(), root)
      requires k < |frames| && lo + |frames| <= USER_PAGES && virt == (lo + k) * PAGE_SIZE
      requires phys == frames[k] < ADDRESS_SPACE
      requires Unmapped(spaces.Abs(), root, lo + k, lo + |frames|)
      modifies spaces, spaces.pmm
      ensures spaces.Valid() && spaces.pmm.table == old(spaces.pmm.table) && IsRoot(spaces.Abs(), root)
      ensures MapFrom(old(spaces.Abs()), root, lo, frames, k, flags) ==
              if ok then MapFrom(spaces.Abs(), root, lo, frames, k + 1, flags) else (spaces.Abs(), false)
      ensures ok ==> Unmapped(spaces.Abs(), root, lo + k + 1, lo + |frames|)
    {
      hide Good, ProcMap, Walk, Moved, SameOutside, Conserved, Unmapped, MapFrom, IsRoot, Elements, LeafWord;
      MapOne(spaces.Abs(), root, lo + k, lo + |frames|, phys, flags);
      MapFromStep(spaces.Abs(), root, lo, frames, k, flags);
      ok := MapPage(virt, lo + k, phys, flags);
    }

    /** The loop of `vmm_map`; `frames` are the frames from `phys` on. */
    method MapPhys(base: nat, phys: nat, size: nat, ghost lo: nat, ghost frames: seq<nat>, flags: Flags)
        returns (ok: bool)
      requires spaces.Valid() && IsRoot(spaces.Abs(), root)
      requires base == lo * PAGE_SIZE && size == |frames| * PAGE_SIZE && lo + |frames| <= USER_PAGES
      requires frames == FramesFrom(phys, |frames|)
      requires Unmapped(spaces.Abs(), root, lo, lo + |frames|)
      modifies spaces, spaces.pmm
      ensures spaces.Valid() && spaces.pmm.table == old(spaces.pmm.table)
      ensures (spaces.Abs(), ok) == MapFrom(old(spaces.Abs()), root, lo, frames, 0, flags)
    {
      hide Good, Walk, Moved, Unmapped, MapFrom, IsRoot, Conserved;
      ghost var k := 0;
      var i := 0;
      while i < size
        invariant 0 <= i <= size && i == k * PAGE_SIZE
        invariant spaces.Valid() && IsRoot(spaces.Abs(), root) && spaces.pmm.table == old(spaces.pmm.table)
        invariant Unmapped(spaces.Abs(), root, lo + k, lo + |frames|)
        invariant MapFrom(old(spaces.Abs()), root, lo, frames, 0, flags) ==
                MapFrom(spaces.Abs(), root, lo, frames, k, flags)
      {
        ok := MapNext(base + i, (phys + i) % ADDRESS_SPACE, lo, frames, k, flags);
        if !ok {
          return;
        }
        i, k := i + PAGE_SIZE, k + 1;
      }
      MapFromStep(spaces.Abs(), root, lo, frames, k, flags);
      PageNumber(lo + k);
      ok := true;
    }

    /** The inner loop of `vmm_map_shmem`: the pages of one block, which are `frames[at..]`. */
    method MapBlock(virt: nat, block: seq<nat>, ghost lo: nat, ghost frames: seq<nat>, ghost at: nat, flags: Flags)
      returns (ok: bool)
      requires spaces.Valid() && IsRoot(spaces.Abs(), root)
      requires at + |block| <= |frames| && lo + |frames| <= USER_PAGES && virt == (lo + at) * PAGE_SIZE
      requires Addresses(frames) && forall i :: 0 <= i < |block| ==> frames[at + i] == block[i]
      requires Unmapped(spaces.Abs(), root, lo + at, lo + |frames|)
      modifies spaces, spaces.pmm
      ensures spaces.Valid() && spaces.pmm.table == old(spaces.pmm.table) && IsRoot(spaces.Abs(), root)
      ensures MapFrom(old(spaces.Abs()), root, lo, frames, at, flags) ==
              if ok then MapFrom(spaces.Abs(), root, lo, frames, at + |block|, flags) else (spaces.Abs(), false)
      ensures ok ==> Unmapped(spaces.Abs(), root, lo + at + |block|, lo + |frames|)
    {
      hide Good, Walk, Moved, Unmapped, MapFrom, IsRoot, Conserved;
      var p, i := virt, 0;
      while i < |block|
        invariant 0 <= i <= |block| && p == (lo + at + i) * PAGE_SIZE
        invariant spaces.Valid() && IsRoot(spaces.Abs(), root) && spaces.pmm.table == old(spaces.pmm.table)
        invariant Unmapped(spaces.Abs(), root, lo + at + i, lo + |frames|)
        invariant MapFrom(old(spaces.Abs()), root, lo, frames, at, flags) ==
                MapFrom(spaces.Abs(), root, lo, frames, at + i, flags)
      {
        ok := MapNext(p, block[i], lo, frames, at + i, flags);
        if !ok {
          return;
        }
        p, i := p + PAGE_SIZE, i + 1;
      }
      ok := true;
    }

    /** The loop of `vmm_map_shmem` over the blocks of a shared memory region. */
    method MapBlocks(base: nat, blocks: seq<seq<nat>>, ghost lo: nat, flags: Flags) returns (ok: bool)
      requires spaces.Valid() && IsRoot(spaces.Abs(), root)
      requires base == lo * PAGE_SIZE && lo + |Pages(blocks)| <= USER_PAGES && Addresses(Pages(blocks))
      requires Unmapped(spaces.Abs(), root, lo, lo + |Pages(blocks)|)
      modifies spaces, spaces.pmm
      ensures spaces.Valid() && spaces.pmm.table == old(spaces.pmm.table)
      ensures (spaces.Abs(), ok) == MapFrom(old(spaces.Abs()), root, lo, Pages(blocks), 0, flags)
    {
      hide Good, Walk, Moved, Unmapped, MapFrom, IsRoot, Conserved;
      ghost var frames := Pages(blocks);
      ghost var at := 0;
      var virt := base;
      var b := 0;
      while b < |blocks|
        invariant 0 <= b <= |blocks| && at == |PagesOfFirst(blocks, b)| && virt == (lo + at) * PAGE_SIZE
        invariant spaces.Valid() && IsRoot(spaces.Abs(), root) && spaces.pmm.table == old(spaces.pmm.table)
        invariant Unmapped(spaces.Abs(), root, lo + at, lo + |frames|)
        invariant MapFrom(old(spaces.Abs()), root, lo, frames, 0, flags) ==
                MapFrom(spaces.Abs(), root, lo, frames, at, flags)
      {
        PagesOfBlock(blocks, |blocks|, b);
        ok := MapBlock(virt, blocks[b], lo, frames, at, flags);
        if !ok {
          return;
        }
        virt := virt + |blocks[b]| * PAGE_SIZE;
        at := at + |blocks[b]|;
        assert at == |PagesOfFirst(blocks, b + 1)|;
        b := b + 1;
      }
      MapFromStep(spaces.Abs(), root, lo, frames, at, flags);
      ok := true;
    }

    /** `vmm_map` once the arguments are known to be page aligned. */
    method MapAligned(phys: nat, size: nat, flags: Flags, entries: nat)
      returns (r: Outcome, base: nat, ghost lo: nat, ghost hi: nat)
      requires Valid() && phys < ADDRESS_SPACE && size % PAGE_SIZE == 0
      modifies spaces, spaces.pmm, freeMap
      ensures Valid() && Grew(old(spaces.Abs()), spaces.Abs(), root, lo, hi)
      ensures Taken(old(freeMap.list), freeMap.list, lo, hi) && IsFree(old(spaces.Abs()), root, lo, hi)
      ensures spaces.Abs() == MapFrom(old(spaces.Abs()), root, lo, FramesFrom(phys, hi - lo), 0, flags).0
      ensures r != Panic
      ensures r == Fault <==> old(freeMap.list) != [] && old(freeMap.list)[0].size == size
      ensures r == Ok ==>
                && base == lo * PAGE_SIZE && base + size == hi * PAGE_SIZE
                && MappedEach(spaces.tables, root, lo, FramesFrom(phys, hi - lo), flags)
      ensures r == Failed ==>
                || (lo < hi && spaces.pmm.FreePages() == [])
                || (lo == hi && FirstFit(old(freeMap.list), size) == |old(freeMap.list)|)
    {
      hide Good, Walk, Moved, Conserved, Grew, MappedEach, MapFrom, Sorted, OnGrid, Subtract, UserRegions, FramesFrom,
        FirstFit, Covers, IsRoot, Unmapped;
      ghost var m := spaces.Abs();
      var fault;
      base, fault, lo, hi := TakeRegion(size, entries);
      GrewNone(m, root, lo);
      NothingMapped(m, root, lo, phys, flags);
      if fault {
        return Fault, base, lo, hi;
      }
      if base == 0 {
        return Failed, base, lo, hi;
      }
      ghost var frames := FramesFrom(phys, hi - lo);
      MapRegionKeeps(m, root, old(freeMap.list), freeMap.list, lo, hi, frames, flags);
      var ok := MapPhys(base, phys, size, lo, frames, flags);
      r := if ok then Ok else Failed;
    }

    /** `vmm_map`: a free range of pages is mapped to the frames from `phys` on. */
    method Map(phys: nat, size: nat, flags: Flags, entries: nat)
      returns (r: Outcome, base: nat, ghost lo: nat, ghost hi: nat)
      requires Valid() && phys < ADDRESS_SPACE
      modifies spaces, spaces.pmm, freeMap
      ensures Valid() && Grew(old(spaces.Abs()), spaces.Abs(), root, lo, hi)
      ensures Taken(old(freeMap.list), freeMap.list, lo, hi) && IsFree(old(spaces.Abs()), root, lo, hi)
      ensures spaces.Abs() == MapFrom(old(spaces.Abs()), root, lo, FramesFrom(phys, hi - lo), 0, flags).0
      ensures r != Panic
      ensures r == Fault <==>
                && phys % PAGE_SIZE == 0 && size % PAGE_SIZE == 0
                && old(freeMap.list) != [] && old(freeMap.list)[0].size == size
      ensures r == Ok ==>
                && base == lo * PAGE_SIZE && base + size == hi * PAGE_SIZE
                && MappedEach(spaces.tables, root, lo, FramesFrom(phys, hi - lo), flags)
                && MappedAsGiven(spaces.tables, root, lo, FramesFrom(phys, hi - lo), flags)
                && MappedFrom(spaces.tables, root, lo, hi - lo, phys, flags)
      ensures r == Ok && phys + size <= ADDRESS_SPACE ==> NoWrapping(spaces.tables, root, lo, hi, phys)
      ensures r == Failed ==>
                || phys % PAGE_SIZE != 0 || size % PAGE_SIZE != 0
                || (lo < hi && spaces.pmm.FreePages() == [])
                || (lo == hi && FirstFit(old(freeMap.list), size) == |old(freeMap.list)|)
    {
      hide Good, Grew, MappedEach, MappedAsGiven, FirstFit, FramesFrom, UserRegions, Conserved, Covers, IsRoot,
        MappedFrom, Walk, Taken, Unmapped, NoWrapping;
      base, lo, hi := 0, 0, 0;
      GrewNone(spaces.Abs(), root, 0);
      NothingTaken(freeMap.list);
      NothingMapped(spaces.Abs(), root, 0, phys, flags);
      if phys % PAGE_SIZE != 0 || size % PAGE_SIZE != 0 {
        return Failed, base, lo, hi;
      }
      r, base, lo, hi := MapAligned(phys, size, flags, entries);
      if r == Ok {
        MappedRight(spaces.Abs(), root, lo, hi, base, phys, size, flags);
      }
    }

    /** The second half of `vmm_map_shmem`: the blocks go to the pages that were just taken out of `list`. */
    method FillShmem(base: nat, size: nat, blocks: seq<seq<nat>>, ghost lo: nat, ghost hi: nat, flags: Flags,
                     ghost list: seq<Region>)
        returns (ok: bool)
      requires spaces.Valid() && Agree(spaces.Abs(), root, list) && Taken(list, freeMap.list, lo, hi)
      requires base == lo * PAGE_SIZE && base + size == hi * PAGE_SIZE
      requires |Pages(blocks)| * PAGE_SIZE <= size && Addresses(Pages(blocks))
      modifies spaces, spaces.pmm
      ensures Valid() && Grew(old(spaces.Abs()), spaces.Abs(), root, lo, hi)
      ensures IsFree(old(spaces.Abs()), root, lo, hi) && lo + |Pages(blocks)| <= hi
      ensures spaces.Abs() == MapFrom(old(spaces.Abs()), root, lo, Pages(blocks), 0, flags).0
      ensures lo == hi ==> spaces.Abs() == old(spaces.Abs())
      ensures Unmapped(spaces.Abs(), root, lo + |Pages(blocks)|, hi)
      ensures ok ==> MappedEach(spaces.tables, root, lo, Pages(blocks), flags)
      ensures !ok ==> lo < hi && spaces.pmm.FreePages() == []
    {
      hide Good, Walk, Moved, Conserved, Grew, MappedEach, MapFrom, Sorted, OnGrid, Subtract, UserRegions, Covers,
        IsRoot, Unmapped, Pages, Addresses, FreeRange;
      PagesFit(lo, hi, |Pages(blocks)|, size);
      MapRegionKeeps(spaces.Abs(), root, list, freeMap.list, lo, hi, Pages(blocks), flags);
      MapFromStep(spaces.Abs(), root, lo, Pages(blocks), 0, flags);
      ok := MapBlocks(base, blocks, lo, flags);
    }

    /**
     * `vmm_map_shmem`; the blocks hold no more pages than the size says. Where they hold fewer, the rest of the range
     * leaves the free map but stays unmapped.
     */
    method MapShmem(blocks: seq<seq<nat>>, size: nat, flags: Flags, entries: nat)
      returns (r: Outcome, base: nat, ghost lo: nat, ghost hi: nat)
      requires Valid() && |Pages(blocks)| * PAGE_SIZE <= size && Addresses(Pages(blocks))
      modifies spaces, spaces.pmm, freeMap
      ensures Valid() && Grew(old(spaces.Abs()), spaces.Abs(), root, lo, hi)
      ensures Taken(old(freeMap.list), freeMap.list, lo, hi) && IsFree(old(spaces.Abs()), root, lo, hi)
      ensures lo < hi ==> lo + |Pages(blocks)| <= hi
      ensures spaces.Abs() ==
              if lo < hi then MapFrom(old(spaces.Abs()), root, lo, Pages(blocks), 0, flags).0 else old(spaces.Abs())
      ensures r != Panic
      ensures r == Fault <==>
                size % PAGE_SIZE == 0 && old(freeMap.list) != [] && old(freeMap.list)[0].size == size
      ensures r == Ok ==>
                && base == lo * PAGE_SIZE && base + size == hi * PAGE_SIZE
                && MappedEach(spaces.tables, root, lo, Pages(blocks), flags)
                && BlocksMapped(spaces.tables, root, lo, blocks, flags)
                && Unmapped(spaces.Abs(), root, lo + |Pages(blocks)|, hi)
      ensures r == Failed ==>
                || size % PAGE_SIZE != 0
                || (lo < hi && spaces.pmm.FreePages() == [])
                || (lo == hi && FirstFit(old(freeMap.list), size) == |old(freeMap.list)|)
    {
      hide Good, Walk, Moved, Conserved, Grew, MappedEach, MapFrom, Sorted, OnGrid, Subtract, UserRegions, Covers,
        IsRoot, Unmapped, FirstFit, Pages, Addresses, FreeRange, BlocksMapped;
      base, lo, hi := 0, 0, 0;
      ghost var m := spaces.Abs();
      GrewNone(m, root, 0);
      NothingMapped(m, root, 0, 0, flags);
      NothingTaken(freeMap.list);
      if size % PAGE_SIZE != 0 {
        return Failed, base, lo, hi;
      }
      var fault;
      base, fault, lo, hi := TakeRegion(size, entries);
      if fault {
        return Fault, base, lo, hi;
      }
      if base == 0 {
        return Failed, base, lo, hi;
      }
      var ok := FillShmem(base, size, blocks, lo, hi, flags, old(freeMap.list));
      if ok {
        GoodWords(spaces.Abs());
        EachIsBlocks(spaces.tables, root, lo, blocks, flags);
      }
      r := if ok then Ok else Failed;
    }
  }

  /** Page `lo + k` is mapped by the word made of `frames[k]`. */
  ghost predicate MappedEach(t: Tables, root: nat, lo: nat, frames: seq<nat>, flags: Flags) {
    forall k | 0 <= k < |frames| :: Walk(t, root, lo + k) == LeafWord(frames[k], flags)
  }

  /** Page `lo + k` is mapped to `frames[k]`. */
  ghost predicate MappedAsGiven(t: Tables, root: nat, lo: nat, frames: seq<nat>, flags: Flags) {
    forall k | 0 <= k < |frames| :: Walk(t, root, lo + k) == Word(frames[k], PagingFlags(flags))
  }

  /** Aligned frames are mapped as they are. */
  lemma {:induction false} AlignedFramesMapped(t: Tables, root: nat, lo: nat, frames: seq<nat>, flags: Flags)
    requires MappedEach(t, root, lo, frames, flags) && Addresses(frames)
    requires forall k :: 0 <= k < |frames| ==> frames[k] % PAGE_SIZE == 0
    ensures MappedAsGiven(t, root, lo, frames, flags)
  {
    hide LeafWord, Walk;
    forall k | 0 <= k < |frames|
      ensures Walk(t, root, lo + k) == Word(frames[k], PagingFlags(flags))
    {
      LeafWordIsWord(frames[k], flags);
    }
  }

  /** The frames from an aligned address on are aligned, also where they wrap around. */
  lemma {:induction false} FramesFromAligned(phys: nat, n: nat)
    requires phys % PAGE_SIZE == 0
    ensures forall k :: 0 <= k < n ==> FramesFrom(phys, n)[k] % PAGE_SIZE == 0
  {
  }

  lemma {:induction false} UserRegionsSorted(list: seq<Region>)
    requires UserRegions(list)
    ensures Sorted(list)
  {
  }

  /** The first fit is a free range of pages, whole pages being asked for. */
  lemma {:induction false} FitIsTaken(list: seq<Region>, after: seq<Region>, base: nat, size: nat)
    requires UserRegions(list) && size % PAGE_SIZE == 0 && FirstFit(list, size) < |list|
    requires base == list[FirstFit(list, size)].base
    requires after == if size == 0 then list else Subtract(list, Region(base, size))
    ensures var lo, hi := base / PAGE_SIZE, (base + size) / PAGE_SIZE;
            && base != 0 && base == lo * PAGE_SIZE && base + size == hi * PAGE_SIZE
            && Taken(list, after, lo, hi)
  {
    hide Sorted, Subtract, FirstFit, FreeRange, Covers;
    FitsAt(list, size);
    var k := FirstFit(list, size);
    assert list[k].base in PAGES;
    RegionIsFree(list, k, base, size);
  }

  lemma {:induction false} NothingTaken(list: seq<Region>)
    ensures Taken(list, list, 0, 0)
  {
  }

  lemma {:induction false} PagesFit(lo: nat, hi: nat, n: nat, size: nat)
    requires lo * PAGE_SIZE + size == hi * PAGE_SIZE && n * PAGE_SIZE <= size
    ensures lo + n <= hi
  {
  }

  lemma {:induction false} UnmappedPart(m: Mem, root: nat, lo: nat, mid: nat, hi: nat)
    requires Unmapped(m, root, lo, hi) && mid <= hi
    ensures Unmapped(m, root, lo, mid)
  {
  }

  lemma {:induction false} StillUnmapped(m: Mem, n: Mem, root: nat, lo: nat, mid: nat, hi: nat)
    requires Unmapped(m, root, lo, hi) && IsRoot(m, root) && Grew(m, n, root, lo, mid) && lo <= mid <= hi <= USER_PAGES
    ensures Unmapped(n, root, mid, hi)
  {
    hide Walk, Good, Moved;
  }

  /** Mapping given frames into pages just taken out of the free map. */
  lemma {:induction false} MapRegionKeeps(m: Mem, root: nat, list: seq<Region>, after: seq<Region>, lo: nat, hi: nat,
                                          frames: seq<nat>, flags: Flags)
    requires Good(m) && Agree(m, root, list) && Taken(list, after, lo, hi) && lo + |frames| <= hi && Addresses(frames)
    ensures Unmapped(m, root, lo, hi) && Unmapped(m, root, lo, lo + |frames|)
    ensures var (n, ok) := MapFrom(m, root, lo, frames, 0, flags);
            && Grew(m, n, root, lo, hi) && Agree(n, root, after)
            && (ok ==> MappedEach(n.tables, root, lo, frames, flags))
            && Unmapped(n, root, lo + |frames|, hi)
            && (!ok ==> lo < hi && n.free == [])
  {
    hide Good, Walk, Moved, MapFrom, Grew, Unmapped, UserRegions, FreeRange, Subtract, LeafWord;
    FreeIsUnmapped(m, root, list, lo, hi);
    UnmappedPart(m, root, lo, lo + |frames|, hi);
    MapFromKeeps(m, root, lo, frames, 0, flags);
    StillUnmapped(m, MapFrom(m, root, lo, frames, 0, flags).0, root, lo, lo + |frames|, hi);
    GrewWider(m, MapFrom(m, root, lo, frames, 0, flags).0, root, lo, lo + |frames|, hi);
    MapFromStep(m, root, lo, frames, 0, flags);
    if MapFrom(m, root, lo, frames, 0, flags).1 {
      MapFromMaps(m, root, lo, frames, 0, flags);
    }
    TakenKeepsAgreement(m, MapFrom(m, root, lo, frames, 0, flags).0, root, list, after, lo, hi);
  }

  lemma {:induction false} NothingMapped(m: Mem, root: nat, lo: nat, phys: nat, flags: Flags)
    ensures MapFrom(m, root, lo, FramesFrom(phys, 0), 0, flags) == (m, true) && Unmapped(m, root, lo, lo)
  {
  }

  /** The `n` frames from `phys` on, at 64 bits. */
  ghost function FramesFrom(phys: nat, n: nat): (frames: seq<nat>)
    ensures |frames| == n && Addresses(frames)
  {
    seq(n, k requires 0 <= k => (phys + k * PAGE_SIZE) % ADDRESS_SPACE)
  }

  /** The pages of the first `n` blocks of a shared memory region, in order. */
  ghost function PagesOfFirst(blocks: seq<seq<nat>>, n: nat): seq<nat>
    requires n <= |blocks|
  {
    if n == 0 then [] else PagesOfFirst(blocks, n - 1) + blocks[n - 1]
  }

  ghost function Pages(blocks: seq<seq<nat>>): seq<nat> {
    PagesOfFirst(blocks, |blocks|)
  }

  lemma {:induction false} PagesOfBlock(blocks: seq<seq<nat>>, n: nat, b: nat)
    requires b < n <= |blocks|
    ensures |PagesOfFirst(blocks, b)| + |blocks[b]| <= |PagesOfFirst(blocks, n)|
    ensures forall i :: 0 <= i < |blocks[b]| ==> PagesOfFirst(blocks, n)[|PagesOfFirst(blocks, b)| + i] == blocks[b][i]
  {
    if b < n - 1 {
      PagesOfBlock(blocks, n - 1, b);
    }
  }

  /** From `list` to `after`, exactly the free pages `lo .. hi` were taken. */
  ghost predicate Taken(list: seq<Region>, after: seq<Region>, lo: nat, hi: nat) {
    && lo <= hi <= USER_PAGES
    && FreeRange(list, lo, hi)
    && after == if lo == hi then list else Subtract(list, Region(lo * PAGE_SIZE, (hi - lo) * PAGE_SIZE))
  }

  lemma {:induction false} TakenKeepsAgreement(m: Mem, n: Mem, root: nat, list: seq<Region>, after: seq<Region>,
      lo: nat, hi: nat)
    requires Agree(m, root, list) && Taken(list, after, lo, hi) && Grew(m, n, root, lo, hi)
    ensures Agree(n, root, after)
  {
    if lo < hi {
      TakingKeepsAgreement(m, n, root, list, lo, hi);
    } else {
      hide Good, Moved, Walk;
    }
  }

  /** A page-aligned range inside a region of the map is a free range of pages. */
  lemma {:induction false} RegionIsFree(list: seq<Region>, k: nat, base: nat, size: nat)
    requires UserRegions(list) && k < |list| && base % PAGE_SIZE == 0 && size % PAGE_SIZE == 0
    requires list[k].base <= base && base + size <= list[k].End()
    ensures var lo, hi := base / PAGE_SIZE, (base + size) / PAGE_SIZE;
            base != 0 && base == lo * PAGE_SIZE && base + size == hi * PAGE_SIZE && hi <= USER_PAGES
              && FreeRange(list, lo, hi)
  {
    forall p: nat | base / PAGE_SIZE <= p < (base + size) / PAGE_SIZE
      ensures Covers(list, p * PAGE_SIZE)
    {
      assert list[k].Has(p * PAGE_SIZE);
    }
  }
}
