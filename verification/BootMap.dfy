/** The free memory that boot finds: the memory map of the loader without what is known to be in use. */
module BootMap {
  import opened Layout
  import opened FreeMap

  const INITIAL_ENTRIES: nat := 32
  const LOW_MEMORY: nat := 0x10_0000
  const WORD32: nat := 0x1_0000_0000
  const MEM_AVAILABLE: nat := 1

  /** A memory map record of the Multiboot Specification, section 3.3; `size` does not count its own four bytes. */
  datatype MmapEntry = MmapEntry(size: nat, base: nat, length: nat, kind: nat)

  datatype BootModule = BootModule(start: nat, end: nat)

  /** The boot information: `entry` reads the memory map record at an address. */
  datatype Info = Info(
    memUpper: nat, mmapAddr: nat, mmapLength: nat, entry: nat -> MmapEntry, modules: seq<BootModule>, kernelEnd: nat)

  /** The available regions of the records from `data` on. */
  ghost function AvailableFrom(info: Info, data: nat): seq<Region>
    decreases info.mmapAddr + info.mmapLength - data
  {
    if data >= info.mmapAddr + info.mmapLength then []
    else
      var e := info.entry(data);
      (if e.kind == MEM_AVAILABLE then [Region(e.base, e.length)] else []) + AvailableFrom(info, data + e.size + 4)
  }

  ghost function Available(info: Info): seq<Region> {
    AvailableFrom(info, info.mmapAddr)
  }

  /** The range of a module, computed in 32 bits. */
  function ModuleRange(m: BootModule): Region {
    Region(m.start, (PageAlign(m.end) + WORD32 - m.start % WORD32) % WORD32)
  }

  function KernelRange(info: Info): Region {
    Region(KERNEL_PHYS_BASE, if info.kernelEnd > KERNEL_PHYS_BASE then info.kernelEnd - KERNEL_PHYS_BASE else 0)
  }

  /** The ranges that are known to be in use, in the order in which boot excludes them. */
  function Used(info: Info): (used: seq<Region>)
    ensures |used| == 2 + |info.modules|
  {
    [Region(0, LOW_MEMORY), KernelRange(info)]
    + seq(|info.modules|, i requires 0 <= i < |info.modules| => ModuleRange(info.modules[i]))
  }

  /** The memory size that the kernel computes, in 32 bits. */
  function MemorySize(memUpper: nat): nat {
    (memUpper * 1024 + 1024 * 1024) % WORD32
  }

  /** It is the real size less a multiple of four gigabytes, so the real size exactly below four gigabytes. */
  lemma {:induction false} MemorySizeExact(memUpper: nat)
    ensures MemorySize(memUpper) == memUpper * 1024 + 1024 * 1024 <==> memUpper < 4 * 1024 * 1024 - 1024
    ensures MemorySize(memUpper) < WORD32 && (memUpper * 1024 + 1024 * 1024 - MemorySize(memUpper)) % WORD32 == 0
  {
  }

  /** The module does not end before it begins, and its end can be rounded up in 32 bits. */
  predicate Plain(m: BootModule) {
    m.start <= m.end && m.end + PAGE_SIZE - 1 < WORD32
  }

  /** Address `a` is in the first megabyte, in the kernel, or in a plain module. */
  ghost predicate Occupied(info: Info, a: nat) {
    || a < LOW_MEMORY
    || KERNEL_PHYS_BASE <= a < info.kernelEnd
    || exists i: nat :: i < |info.modules| && Plain(info.modules[i]) && info.modules[i].start <= a < info.modules[i].end
  }

  lemma {:induction false} AlignMeaning(e: nat)
    ensures e <= PageAlign(e) < e + PAGE_SIZE && PageAlign(e) % PAGE_SIZE == 0
  {
  }

  lemma {:induction false} PlainRange(m: BootModule)
    requires Plain(m)
    ensures ModuleRange(m) == Region(m.start, PageAlign(m.end) - m.start) && m.start <= m.end <= PageAlign(m.end)
  {
    hide PageAlign;
    AlignMeaning(m.end);
    Unwrapped(m.start, PageAlign(m.end));
  }

  lemma {:induction false} Unwrapped(x: nat, y: nat)
    requires x <= y < WORD32
    ensures (y + WORD32 - x % WORD32) % WORD32 == y - x
  {
  }

  /** A page address below the rounded end is below the end itself. */
  lemma {:induction false} PageBelow(p: nat, e: nat)
    requires p % PAGE_SIZE == 0
    ensures p < PageAlign(e) <==> p < e
  {
  }

  lemma {:induction false} UsedAt(info: Info, j: nat)
    requires j < 2 + |info.modules|
    ensures Used(info)[j] ==
            if j == 0 then Region(0, LOW_MEMORY) else if j == 1 then KernelRange(info)
            else ModuleRange(info.modules[j - 2])
  {
  }

  /** What is occupied lies in a range that boot excludes. */
  lemma {:induction false} OccupiedIsUsed(info: Info, a: nat)
    requires Occupied(info, a)
    ensures Covers(Used(info), a)
  {
    hide Used, ModuleRange, Plain;
    var used := Used(info);
    if a < LOW_MEMORY {
      UsedAt(info, 0);
      assert used[0].Has(a);
    } else if KERNEL_PHYS_BASE <= a < info.kernelEnd {
      UsedAt(info, 1);
      assert used[1].Has(a);
    } else {
      var i: nat :| i < |info.modules| && Plain(info.modules[i])
                    && info.modules[i].start <= a < info.modules[i].end;
      UsedAt(info, i + 2);
      PlainRange(info.modules[i]);
      assert used[i + 2].Has(a);
    }
  }

  ghost predicate AllPlain(info: Info) {
    forall i: nat | i < |info.modules| :: Plain(info.modules[i])
  }

  /** A page address that boot excludes is occupied. */
  lemma {:induction false} UsedIsOccupied(info: Info, p: nat)
    requires AllPlain(info) && p % PAGE_SIZE == 0 && Covers(Used(info), p)
    ensures Occupied(info, p)
  {
    hide Used, ModuleRange, Plain, PageAlign;
    var used := Used(info);
    var j :| 0 <= j < |used| && used[j].Has(p);
    UsedAt(info, j);
    if j >= 2 {
      var m := info.modules[j - 2];
      PlainRange(m);
      PageBelow(p, m.end);
      assert Plain(info.modules[j - 2]) && m.start <= p < m.end;
    }
  }

  /** No byte of a page above the first megabyte that is not excluded is occupied. */
  lemma {:induction false} PageIsClear(info: Info, p: nat, a: nat)
    requires OnBoundaries(Used(info)) && p % PAGE_SIZE == 0 && p >= LOW_MEMORY && !Covers(Used(info), p)
    requires p <= a < p + PAGE_SIZE
    ensures !Occupied(info, a)
  {
    hide Used, ModuleRange, Plain, PageAlign, Covers;
    if KERNEL_PHYS_BASE <= a < info.kernelEnd {
      PageStarts(p, a, KERNEL_PHYS_BASE);
      OccupiedIsUsed(info, p);
    }
    forall i: nat | i < |info.modules| && Plain(info.modules[i])
      ensures !(info.modules[i].start <= a < info.modules[i].end)
    {
      var m := info.modules[i];
      if m.start <= a < m.end {
        UsedAt(info, i + 2);
        PlainRange(m);
        assert Used(info)[i + 2].base in BOUNDARIES;
        BoundaryStarts(p, a, m.start);
        OccupiedIsUsed(info, p);
      }
    }
  }

  lemma {:induction false} PageStarts(p: nat, a: nat, s: nat)
    requires p % PAGE_SIZE == 0 && s % PAGE_SIZE == 0 && s <= a && p <= a < p + PAGE_SIZE
    ensures s <= p
  {
  }

  lemma {:induction false} BoundaryStarts(p: nat, a: nat, s: nat)
    requires p % PAGE_SIZE == 0 && s in BOUNDARIES && s <= a && LOW_MEMORY <= p <= a < p + PAGE_SIZE
    ensures s <= p
  {
  }

  predicate Proper(r: Region) {
    r.size > 0 && r.End() <= ADDRESS_SPACE
  }

  ghost predicate AllProper(list: seq<Region>) {
    forall i :: 0 <= i < |list| ==> Proper(list[i])
  }

  /** Regions and modules are non-empty and do not wrap around the address space. */
  ghost predicate WellFormed(info: Info) {
    AllProper(Available(info)) && AllProper(Used(info))
  }

  ghost predicate Disjoint(list: seq<Region>) {
    forall i, j :: 0 <= i < j < |list| ==> Apart(list[i], list[j])
  }

  /** Page boundaries, and anything in the first megabyte. */
  ghost const BOUNDARIES: iset<nat> := iset x: nat | x % PAGE_SIZE == 0 || x <= LOW_MEMORY

  /** The lists have the same regions, in whatever order. */
  ghost predicate SameRegions(x: seq<Region>, y: seq<Region>) {
    (forall r | r in x :: r in y) && (forall r | r in y :: r in x)
  }

  // ---------------------------------------------------------------------------------------------- adding

  /** The region is apart from all of the list. */
  ghost predicate Accepts(list: seq<Region>, r: Region) {
    forall i :: 0 <= i < |list| ==> Apart(list[i], r)
  }

  /** The regions that end up in the map when the first `n` are added with the early entries. */
  ghost function Accepted(list: seq<Region>, n: nat): seq<Region>
    requires n <= |list|
  {
    if n == 0 then []
    else
      var a := Accepted(list, n - 1);
      if n <= INITIAL_ENTRIES && Accepts(a, list[n - 1]) then a + [list[n - 1]] else a
  }

  /** The regions that boot begins with, and the early entries left then: refused regions use one up as well. */
  ghost function Kept(info: Info): seq<Region> {
    Accepted(Available(info), |Available(info)|)
  }

  ghost function Spare(info: Info): nat {
    SpareAfter(|Available(info)|)
  }

  ghost function SpareAfter(n: nat): nat {
    if n >= INITIAL_ENTRIES then 0 else INITIAL_ENTRIES - n
  }

  /** When the regions do not overlap and there are not too many, all of them are kept. */
  lemma {:induction false} AcceptedAll(list: seq<Region>, n: nat)
    requires n <= |list| && n <= INITIAL_ENTRIES && Disjoint(list)
    ensures Accepted(list, n) == list[..n]
  {
    if n > 0 {
      AcceptedAll(list, n - 1);
      assert list[..n] == list[..n - 1] + [list[n - 1]];
    }
  }

  lemma {:induction false} AcceptedFrom(list: seq<Region>, n: nat)
    requires n <= |list|
    ensures forall r | r in Accepted(list, n) :: r in list
  {
    if n > 0 {
      AcceptedFrom(list, n - 1);
    }
  }

  /** Sharing no address with the map is being apart from every region of it. */
  lemma {:induction false} NoSharedIsApart(list: seq<Region>, acc: seq<Region>, r: Region)
    requires SameRegions(list, acc) && Proper(r) && forall i :: 0 <= i < |list| ==> list[i].size > 0
    ensures (forall a | r.Has(a) :: !Covers(list, a)) <==> Accepts(acc, r)
  {
    if forall a | r.Has(a) :: !Covers(list, a) {
      forall i | 0 <= i < |acc|
        ensures Apart(acc[i], r)
      {
        assert acc[i] in list;
        var k :| 0 <= k < |list| && list[k] == acc[i];
        if !Apart(list[k], r) {
          SharedAddress(list, k, r);
        }
      }
    }
    if Accepts(acc, r) {
      forall k | 0 <= k < |list|
        ensures Apart(list[k], r)
      {
        assert list[k] in acc;
      }
    }
  }

  lemma {:induction false} InsertedRegions(list: seq<Region>, after: seq<Region>, acc: seq<Region>, r: Region)
    requires Inserted(list, after, r) && SameRegions(list, acc)
    ensures SameRegions(after, acc + [r])
  {
    var i :| 0 <= i <= |list| && after == list[..i] + [r] + list[i..];
    assert list == list[..i] + list[i..];
  }

  /** What was read of the memory map, and what is still to come. */
  ghost predicate Reading(info: Info, data: nat, n: nat) {
    n <= |Available(info)| && Available(info)[n..] == AvailableFrom(info, data)
  }

  lemma {:induction false} StartReading(info: Info)
    ensures Reading(info, info.mmapAddr, 0) && OnGrid([], BOUNDARIES)
  {
  }

  lemma {:induction false} AllRead(info: Info, data: nat, n: nat)
    requires Reading(info, data, n) && data >= info.mmapAddr + info.mmapLength
    ensures n == |Available(info)|
  {
  }

  lemma {:induction false} NextSkipped(info: Info, data: nat, n: nat)
    requires Reading(info, data, n) && data < info.mmapAddr + info.mmapLength && info.entry(data).kind != MEM_AVAILABLE
    ensures Reading(info, data + info.entry(data).size + 4, n)
  {
    var rest := AvailableFrom(info, data + info.entry(data).size + 4);
    assert [] + rest == rest;
  }

  lemma {:induction false} NextRead(info: Info, data: nat, n: nat)
    requires Reading(info, data, n) && data < info.mmapAddr + info.mmapLength && info.entry(data).kind == MEM_AVAILABLE
    ensures Reading(info, data + info.entry(data).size + 4, n + 1) && n < |Available(info)|
    ensures Available(info)[n] == Region(info.entry(data).base, info.entry(data).length)
  {
    var rest := AvailableFrom(info, data + info.entry(data).size + 4);
    var r := Region(info.entry(data).base, info.entry(data).length);
    assert Available(info)[n..] == [r] + rest;
    assert Available(info)[n] == Available(info)[n..][0];
    assert Available(info)[n + 1..] == Available(info)[n..][1..];
  }

  /** The addresses of the records of the memory map, and the first one behind it. */
  ghost predicate Records(info: Info, at: seq<nat>) {
    && at != [] && at[0] == info.mmapAddr && at[|at| - 1] >= info.mmapAddr + info.mmapLength
    && forall k: nat | k < |at| - 1 ::
         at[k] < info.mmapAddr + info.mmapLength && at[k + 1] == at[k] + info.entry(at[k]).size + 4
  }

  /** How many of the first `k` records are of type 1, available memory. */
  ghost function AvailableBefore(info: Info, at: seq<nat>, k: nat): nat
    requires k <= |at|
  {
    if k == 0 then 0
    else AvailableBefore(info, at, k - 1) + if info.entry(at[k - 1]).kind == 1 then 1 else 0
  }

  lemma {:induction false} RecordsRead(info: Info, at: seq<nat>, k: nat)
    requires Records(info, at) && k < |at|
    ensures Reading(info, at[k], AvailableBefore(info, at, k))
  {
    hide Reading, Available;
    if k == 0 {
      StartReading(info);
    } else {
      RecordsRead(info, at, k - 1);
      if info.entry(at[k - 1]).kind == MEM_AVAILABLE {
        NextRead(info, at[k - 1], AvailableBefore(info, at, k - 1));
      } else {
        NextSkipped(info, at[k - 1], AvailableBefore(info, at, k - 1));
      }
    }
  }

  /** The available regions are those of the records of type 1, in the order of the records. */
  lemma {:induction false} AvailableMeaning(info: Info, at: seq<nat>)
    requires Records(info, at)
    ensures |Available(info)| == AvailableBefore(info, at, |at| - 1)
    ensures forall k: nat | k < |at| - 1 && info.entry(at[k]).kind == 1 ::
              && AvailableBefore(info, at, k) < |Available(info)|
              && Available(info)[AvailableBefore(info, at, k)] ==
                 Region(info.entry(at[k]).base, info.entry(at[k]).length)
  {
    hide Reading, Available, AvailableBefore;
    RecordsRead(info, at, |at| - 1);
    AllRead(info, at[|at| - 1], AvailableBefore(info, at, |at| - 1));
    forall k: nat | k < |at| - 1 && info.entry(at[k]).kind == 1
      ensures AvailableBefore(info, at, k) < |Available(info)|
      ensures Available(info)[AvailableBefore(info, at, k)] ==
              Region(info.entry(at[k]).base, info.entry(at[k]).length)
    {
      RecordsRead(info, at, k);
      NextRead(info, at[k], AvailableBefore(info, at, k));
    }
  }

  /** The boundaries of the regions are on the grid. */
  ghost predicate OnBoundaries(list: seq<Region>) {
    forall i :: 0 <= i < |list| ==> list[i].base in BOUNDARIES && list[i].End() in BOUNDARIES
  }

  /** Reads the memory map. A region that cannot be added is silently dropped. */
  method AddAvailable(info: Info) returns (m: MemoryMap)
    requires WellFormed(info)
    ensures m.Valid() && fresh(m) && !m.recycles
    ensures SameRegions(m.list, Kept(info)) && m.spare == Spare(info)
    ensures OnBoundaries(Available(info)) ==> OnGrid(m.list, BOUNDARIES)
  {
    hide Sorted, Covers, Available, Reading, OnGrid, SameRegions, Accepted, Accepts;
    m := new MemoryMap(INITIAL_ENTRIES, false);
    var data, end := info.mmapAddr, info.mmapAddr + info.mmapLength;
    ghost var all := Available(info);
    ghost var n := 0;
    StartReading(info);
    NoneAccepted(all);
    while data < end
      invariant m.Valid() && fresh(m) && !m.recycles && Reading(info, data, n) && n <= |all|
      invariant SameRegions(m.list, Accepted(all, n)) && m.spare == SpareAfter(n)
      invariant OnBoundaries(all) ==> OnGrid(m.list, BOUNDARIES)
      decreases end - data
    {
      var entry := info.entry(data);
      if entry.kind == MEM_AVAILABLE {
        ghost var r := Region(entry.base, entry.length);
        ghost var before := m.list;
        NextRead(info, data, n);
        SortedSizes(before);
        NoSharedIsApart(before, Accepted(all, n), r);
        var ok := m.Add(entry.base, entry.length, BOUNDARIES);
        AcceptedNext(all, n);
        if ok {
          InsertedRegions(before, m.list, Accepted(all, n), r);
        }
        n := n + 1;
      } else {
        NextSkipped(info, data, n);
      }
      data := data + entry.size + 4;
    }
    AllRead(info, data, n);
  }

  lemma {:induction false} NoneAccepted(all: seq<Region>)
    ensures SameRegions([], Accepted(all, 0)) && SpareAfter(0) == INITIAL_ENTRIES
  {
  }

  lemma {:induction false} SortedSizes(list: seq<Region>)
    requires Sorted(list)
    ensures forall i :: 0 <= i < |list| ==> list[i].size > 0
  {
  }

  lemma {:induction false} AcceptedNext(list: seq<Region>, n: nat)
    requires n < |list|
    ensures Accepted(list, n + 1) ==
            if SpareAfter(n) > 0 && Accepts(Accepted(list, n), list[n]) then Accepted(list, n) + [list[n]]
              else Accepted(list, n)
    ensures SpareAfter(n + 1) == if SpareAfter(n) == 0 then 0 else SpareAfter(n) - 1
  {
  }

  // ---------------------------------------------------------------------------------------------- excluding

  lemma {:induction false} SubtractMembers(list: seq<Region>, n: nat, e: Region)
    requires n <= |list|
    ensures forall p | p in SubtractFirst(list, n, e) :: exists i :: 0 <= i < n && p in Minus(list[i], e)
    ensures forall i, p | 0 <= i < n && p in Minus(list[i], e) :: p in SubtractFirst(list, n, e)
  {
    if n > 0 {
      SubtractMembers(list, n - 1, e);
    }
  }

  /** Which regions an exclusion leaves, and whether it splits one, does not depend on their order. */
  lemma {:induction false} SubtractSame(x: seq<Region>, y: seq<Region>, e: Region)
    requires SameRegions(x, y)
    ensures SameRegions(Subtract(x, e), Subtract(y, e)) && (Splits(x, e) <==> Splits(y, e))
  {
    hide Minus;
    SubtractIn(x, y, e);
    SubtractIn(y, x, e);
  }

  lemma {:induction false} SubtractIn(x: seq<Region>, y: seq<Region>, e: Region)
    requires forall r | r in x :: r in y
    ensures forall p | p in Subtract(x, e) :: p in Subtract(y, e)
    ensures Splits(x, e) ==> Splits(y, e)
  {
    hide Minus, SubtractFirst;
    SubtractMembers(x, |x|, e);
    SubtractMembers(y, |y|, e);
    forall p | p in Subtract(x, e)
      ensures p in Subtract(y, e)
    {
      var i :| 0 <= i < |x| && p in Minus(x[i], e);
      assert x[i] in y;
      var j :| 0 <= j < |y| && y[j] == x[i];
    }
    if Splits(x, e) {
      var i :| 0 <= i < |x| && Around(x[i], e);
      assert x[i] in y;
      var j :| 0 <= j < |y| && y[j] == x[i];
    }
  }

  lemma {:induction false} SameCovers(x: seq<Region>, y: seq<Region>)
    requires SameRegions(x, y)
    ensures forall a :: Covers(x, a) <==> Covers(y, a)
  {
    forall a
      ensures Covers(x, a) <==> Covers(y, a)
    {
      if Covers(x, a) {
        var i :| 0 <= i < |x| && x[i].Has(a);
        assert x[i] in y;
      }
      if Covers(y, a) {
        var i :| 0 <= i < |y| && y[i].Has(a);
        assert y[i] in x;
      }
    }
  }

  /**
   * What the first `n` exclusions leave when `spare` entries can be handed out: an exclusion that has to split
   * a region without an entry leaves everything as it is.
   */
  ghost function Remains(list: seq<Region>, spare: nat, used: seq<Region>, n: nat): (seq<Region>, nat)
    requires n <= |used|
  {
    if n == 0 then (list, spare)
    else
      var (l, s) := Remains(list, spare, used, n - 1);
      if !Splits(l, used[n - 1]) then (Subtract(l, used[n - 1]), s)
      else if s == 0 then (l, 0)
      else (Subtract(l, used[n - 1]), s - 1)
  }

  /** The free map at the end of boot, up to the order of its regions. */
  ghost function Final(info: Info): seq<Region> {
    Remains(Kept(info), Spare(info), Used(info), |Used(info)|).0
  }

  /** What the first `n` exclusions would leave with any number of entries, and how many they would split. */
  ghost function Carved(list: seq<Region>, used: seq<Region>, n: nat): seq<Region>
    requires n <= |used|
  {
    if n == 0 then list else Subtract(Carved(list, used, n - 1), used[n - 1])
  }

  ghost function SplitsNeeded(list: seq<Region>, used: seq<Region>, n: nat): nat
    requires n <= |used|
  {
    if n == 0 then 0
    else SplitsNeeded(list, used, n - 1) + if Splits(Carved(list, used, n - 1), used[n - 1]) then 1 else 0
  }

  /** Enough entries are left for every region that the exclusions split. A loader can count this beforehand. */
  ghost predicate Fits(info: Info) {
    SplitsNeeded(Kept(info), Used(info), |Used(info)|) <= Spare(info)
  }

  lemma {:induction false} RemainsFits(list: seq<Region>, spare: nat, used: seq<Region>, n: nat)
    requires n <= |used| && SplitsNeeded(list, used, n) <= spare
    ensures Remains(list, spare, used, n) == (Carved(list, used, n), spare - SplitsNeeded(list, used, n))
  {
    if n > 0 {
      RemainsFits(list, spare, used, n - 1);
    }
  }

  lemma {:induction false} CarvedCovers(list: seq<Region>, used: seq<Region>, n: nat)
    requires n <= |used| && AllProper(used)
    ensures forall a :: Covers(Carved(list, used, n), a) <==> Covers(list, a) && !Covers(used[..n], a)
  {
    if n == 0 {
      assert forall a :: !Covers(used[..0], a);
    } else {
      CarvedCovers(list, used, n - 1);
      SubtractIsDifference(Carved(list, used, n - 1), used[n - 1]);
      assert used[..n] == used[..n - 1] + [used[n - 1]];
      AddedCovers(used[..n - 1], used[n - 1]);
      hide Covers, Subtract;
    }
  }

  lemma {:induction false} AddedCovers(list: seq<Region>, r: Region)
    ensures forall a :: Covers(list + [r], a) <==> Covers(list, a) || r.Has(a)
  {
    forall a
      ensures Covers(list + [r], a) <==> Covers(list, a) || r.Has(a)
    {
      CoversConcat(list, [r], a);
      assert Covers([r], a) <==> [r][0].Has(a);
    }
  }

  /** Exclusions only ever remove addresses. */
  lemma {:induction false} RemainsShrinks(list: seq<Region>, spare: nat, used: seq<Region>, n: nat)
    requires n <= |used| && AllProper(used)
    ensures forall a :: Covers(Remains(list, spare, used, n).0, a) ==> Covers(list, a)
  {
    if n > 0 {
      RemainsShrinks(list, spare, used, n - 1);
      SubtractIsDifference(Remains(list, spare, used, n - 1).0, used[n - 1]);
      hide Covers, Subtract, Splits;
    }
  }

  /** The whole range is still in the map. */
  ghost predicate StillIn(list: seq<Region>, r: Region) {
    forall a | r.Has(a) :: Covers(list, a)
  }

  lemma {:induction false} SplitIsIn(list: seq<Region>, r: Region)
    requires Splits(list, r)
    ensures StillIn(list, r)
  {
    var i :| 0 <= i < |list| && Around(list[i], r);
    forall a | r.Has(a)
      ensures Covers(list, a)
    {
      assert list[i].Has(a);
    }
  }

  lemma {:induction false} StaysIn(list: seq<Region>, r: Region, e: Region)
    requires StillIn(list, r) && Apart(r, e) && e.size > 0
    ensures StillIn(Subtract(list, e), r)
  {
    SubtractIsDifference(list, e);
  }

  /** Without enough entries, some range in use stays in the map as a whole. */
  lemma {:induction false} RemainsStuck(list: seq<Region>, spare: nat, used: seq<Region>, n: nat)
    requires n <= |used| && AllProper(used) && Disjoint(used) && SplitsNeeded(list, used, n) > spare
    ensures exists j :: 0 <= j < n && StillIn(Remains(list, spare, used, n).0, used[j])
  {
    hide Splits, Subtract, StillIn, Covers;
    var r := used[n - 1];
    var (l, s) := Remains(list, spare, used, n - 1);
    if SplitsNeeded(list, used, n - 1) > spare {
      RemainsStuck(list, spare, used, n - 1);
      var j :| 0 <= j < n - 1 && StillIn(l, used[j]);
      StaysIn(l, used[j], r);
    } else {
      RemainsFits(list, spare, used, n - 1);
      SplitIsIn(l, r);
      assert StillIn(Remains(list, spare, used, n).0, used[n - 1]);
    }
  }

  /** Takes a range in use off the map; when a split lacks an entry the map stays as it is, and the kernel goes on. */
  method ExcludeUsed(m: MemoryMap, r: Region) returns (ok: bool)
    requires m.Valid() && Proper(r) && !m.recycles
    modifies m
    ensures m.Valid()
    ensures ok <==> old(m.spare) > 0 || !Splits(old(m.list), r)
    ensures ok ==> m.list == Subtract(old(m.list), r)
    ensures ok ==> m.spare == old(m.spare) - if Splits(old(m.list), r) then 1 else 0
    ensures !ok ==> m.list == old(m.list) && m.spare == old(m.spare)
    ensures old(OnGrid(m.list, BOUNDARIES)) && r.base in BOUNDARIES && r.End() in BOUNDARIES ==>
            OnGrid(m.list, BOUNDARIES)
  {
    hide Sorted, Covers, Subtract, Splits;
    ghost var before := m.list;
    ok := m.Exclude(r.base, r.size);
    if OnGrid(before, BOUNDARIES) && r.base in BOUNDARIES && r.End() in BOUNDARIES {
      SubtractGrid(before, r, BOUNDARIES);
    }
  }

  lemma {:induction false} SubtractGrid(list: seq<Region>, r: Region, grid: iset<nat>)
    requires OnGrid(list, grid) && r.base in grid && r.End() in grid
    ensures OnGrid(Subtract(list, r), grid)
  {
    SubtractOnGrid(list, |list|, r, grid);
  }

  /** Everything begins and ends on a page boundary, or in the first megabyte. */
  ghost predicate Aligned(info: Info) {
    OnBoundaries(Available(info)) && OnBoundaries(Used(info))
  }

  /** One exclusion, on a map that has the regions of `l`. */
  lemma {:induction false} RemainsNext(info: Info, list: seq<Region>, n: nat)
    requires n < |Used(info)| && SameRegions(list, Remains(Kept(info), Spare(info), Used(info), n).0)
    ensures var r := Used(info)[n];
            var (l, s) := Remains(Kept(info), Spare(info), Used(info), n);
            var (l2, s2) := Remains(Kept(info), Spare(info), Used(info), n + 1);
            if s > 0 || !Splits(list, r)
            then SameRegions(Subtract(list, r), l2) && s2 == s - (if Splits(list, r) then 1 else 0)
            else SameRegions(list, l2) && s2 == 0
  {
    hide Splits, Subtract, SameRegions, Kept, Spare, Used;
    SubtractSame(list, Remains(Kept(info), Spare(info), Used(info), n).0, Used(info)[n]);
  }

  /** The free map: what the exclusions leave of the regions that were kept. */
  method BuildFreeMap(info: Info) returns (m: MemoryMap, memorySize: nat)
    requires WellFormed(info)
    ensures m.Valid() && fresh(m) && memorySize == MemorySize(info.memUpper)
    ensures SameRegions(m.list, Final(info))
    ensures Aligned(info) ==> OnGrid(m.list, BOUNDARIES)
  {
    hide Sorted, Splits, Subtract, OnGrid, SameRegions, Kept, Spare, Available, Remains, KernelRange, ModuleRange;
    memorySize := (info.memUpper * 1024 + 1024 * 1024) % WORD32;
    m := AddAvailable(info);
    RemainsNone(info);
    ghost var used := Used(info);
    RemainsNext(info, m.list, 0);
    assert Proper(used[0]) && Proper(used[1]);
    var ok := ExcludeUsed(m, Region(0, LOW_MEMORY));
    RemainsNext(info, m.list, 1);
    ok := ExcludeUsed(m, KernelRange(info));
    for i := 0 to |info.modules|
      invariant m.Valid() && fresh(m) && !m.recycles
      invariant SameRegions(m.list, Remains(Kept(info), Spare(info), used, i + 2).0)
      invariant m.spare == Remains(Kept(info), Spare(info), used, i + 2).1
      invariant Aligned(info) ==> OnGrid(m.list, BOUNDARIES)
    {
      RemainsNext(info, m.list, i + 2);
      assert Proper(used[i + 2]) && used[i + 2] == ModuleRange(info.modules[i]);
      ok := ExcludeUsed(m, ModuleRange(info.modules[i]));
    }
  }

  lemma {:induction false} RemainsNone(info: Info)
    ensures Remains(Kept(info), Spare(info), Used(info), 0) == (Kept(info), Spare(info))
  {
  }

  // ---------------------------------------------------------------------------------------------- the results

  /** With enough entries the free map is exactly the kept memory without what is in use. */
  lemma {:induction false} FreeMapIsExact(info: Info)
    requires WellFormed(info) && Fits(info)
    ensures forall a :: Covers(Final(info), a) <==> Covers(Kept(info), a) && !Covers(Used(info), a)
  {
    hide Kept, Spare, Available, Covers;
    var used := Used(info);
    RemainsFits(Kept(info), Spare(info), used, |used|);
    CarvedCovers(Kept(info), used, |used|);
    assert used[..|used|] == used;
  }

  /**
   * The free map is free of memory in use exactly when there are enough entries: otherwise the first
   * megabyte, the kernel or a module stays in it as a whole.
   */
  lemma {:induction false} FreeMapIsFreeIff(info: Info)
    requires WellFormed(info) && Disjoint(Used(info))
    ensures (forall a :: Covers(Final(info), a) ==> !Covers(Used(info), a)) <==> Fits(info)
    ensures !Fits(info) ==> exists j :: 0 <= j < |Used(info)| && StillIn(Final(info), Used(info)[j])
  {
    hide Kept, Spare, Available, Covers, Used, Remains, SplitsNeeded;
    var used := Used(info);
    if Fits(info) {
      FreeMapIsExact(info);
    } else {
      RemainsStuck(Kept(info), Spare(info), used, |used|);
      var j :| 0 <= j < |used| && StillIn(Final(info), used[j]);
      InUse(used, j);
      assert used[j].Has(used[j].base);
    }
  }

  lemma {:induction false} InUse(used: seq<Region>, j: nat)
    requires AllProper(used) && j < |used|
    ensures Covers(used, used[j].base) && used[j].Has(used[j].base)
  {
    assert Proper(used[j]) && used[j].Has(used[j].base);
  }

  /** Nothing but available memory above the first megabyte is in the map, whatever the entries. */
  lemma {:induction false} FreeMapIsAvailable(info: Info)
    requires WellFormed(info)
    ensures forall a :: Covers(Final(info), a) ==> Covers(Available(info), a) && a >= LOW_MEMORY
  {
    hide Available;
    var used := Used(info);
    RemainsShrinks(Kept(info), Spare(info), used, |used|);
    LowIsGone(Kept(info), Spare(info), used, |used|);
    AcceptedFrom(Available(info), |Available(info)|);
    hide Remains;
    forall a | Covers(Final(info), a)
      ensures Covers(Available(info), a)
    {
      assert Covers(Kept(info), a);
      var i :| 0 <= i < |Kept(info)| && Kept(info)[i].Has(a);
      assert Kept(info)[i] in Available(info);
    }
  }

  /** The first megabyte lies at address 0, so excluding it never splits a region. */
  lemma {:induction false} LowIsGone(list: seq<Region>, spare: nat, used: seq<Region>, n: nat)
    requires 0 < n <= |used| && AllProper(used) && used[0] == Region(0, LOW_MEMORY)
    ensures forall a :: Covers(Remains(list, spare, used, n).0, a) ==> a >= LOW_MEMORY
  {
    var l := Remains(list, spare, used, n - 1).0;
    SubtractIsDifference(l, used[n - 1]);
    if n > 1 {
      LowIsGone(list, spare, used, n - 1);
      hide Covers, Subtract, Splits;
    } else {
      assert !Splits(l, used[0]);
    }
  }

  /** For regions that do not overlap the condition is one count: an entry for each region and each split. */
  lemma {:induction false} FitsIsACount(info: Info)
    requires Disjoint(Available(info)) && |Available(info)| <= INITIAL_ENTRIES
    ensures Kept(info) == Available(info)
    ensures Fits(info) <==>
              |Available(info)| + SplitsNeeded(Available(info), Used(info), |Used(info)|) <= INITIAL_ENTRIES
  {
    hide Available, Used, SplitsNeeded;
    AcceptedAll(Available(info), |Available(info)|);
    assert Available(info)[..|Available(info)|] == Available(info);
  }

  /** So an entry for each region and each range in use is enough. */
  lemma {:induction false} EnoughEntries(info: Info)
    requires Disjoint(Available(info)) && |Available(info)| + |Used(info)| <= INITIAL_ENTRIES
    ensures Fits(info) && Kept(info) == Available(info)
  {
    FitsIsACount(info);
    SplitsBound(Kept(info), Used(info), |Used(info)|);
  }

  lemma {:induction false} SplitsBound(list: seq<Region>, used: seq<Region>, n: nat)
    requires n <= |used|
    ensures SplitsNeeded(list, used, n) <= n
  {
    if n > 0 {
      SplitsBound(list, used, n - 1);
    }
  }

  /**
   * What a loader can check of its machine: whole pages of available memory that do not overlap, a kernel and plain
   * modules that begin with a page, and no more than 32 of all of them together with the first megabyte.
   */
  ghost predicate Usual(info: Info) {
    && (forall i :: 0 <= i < |Available(info)| ==> OnPages(Available(info)[i]))
    && Disjoint(Available(info))
    && KERNEL_PHYS_BASE < info.kernelEnd <= ADDRESS_SPACE && info.kernelEnd % PAGE_SIZE == 0
    && (forall i: nat | i < |info.modules| ::
          Plain(info.modules[i]) && info.modules[i].start < info.modules[i].end
          && info.modules[i].start % PAGE_SIZE == 0)
    && |Available(info)| + 2 + |info.modules| <= 32
  }

  predicate OnPages(r: Region) {
    Proper(r) && r.base % PAGE_SIZE == 0 && r.size % PAGE_SIZE == 0
  }

  /** On such a machine everything is aligned, the early entries suffice, and all available memory is kept. */
  lemma {:induction false} UsualIsFine(info: Info)
    requires Usual(info)
    ensures WellFormed(info) && Aligned(info) && Fits(info) && AllPlain(info) && Kept(info) == Available(info)
  {
    hide Available, Used, ModuleRange, Plain, Kept, Fits, Disjoint, BOUNDARIES;
    var avail, used := Available(info), Used(info);
    EnoughEntries(info);
    forall i | 0 <= i < |avail|
      ensures Proper(avail[i]) && avail[i].base in BOUNDARIES && avail[i].End() in BOUNDARIES
    {
      assert OnPages(avail[i]);
      PagesAreBoundaries(avail[i]);
    }
    forall j | 0 <= j < |used|
      ensures Proper(used[j]) && used[j].base in BOUNDARIES && used[j].End() in BOUNDARIES
    {
      UsedAt(info, j);
      if j >= 2 {
        PlainRange(info.modules[j - 2]);
        ModuleOnPages(info.modules[j - 2]);
      } else {
        FixedOnPages(info.kernelEnd);
      }
      assert OnPages(used[j]);
      PagesAreBoundaries(used[j]);
    }
  }

  lemma {:induction false} PagesAreBoundaries(r: Region)
    requires OnPages(r)
    ensures r.base in BOUNDARIES && r.End() in BOUNDARIES
  {
  }

  lemma {:induction false} ModuleOnPages(m: BootModule)
    requires Plain(m) && m.start < m.end && m.start % PAGE_SIZE == 0
    ensures OnPages(Region(m.start, PageAlign(m.end) - m.start))
  {
    AlignMeaning(m.end);
  }

  lemma {:induction false} FixedOnPages(kernelEnd: nat)
    requires KERNEL_PHYS_BASE < kernelEnd <= ADDRESS_SPACE && kernelEnd % PAGE_SIZE == 0
    ensures OnPages(Region(0, LOW_MEMORY)) && OnPages(Region(KERNEL_PHYS_BASE, kernelEnd - KERNEL_PHYS_BASE))
  {
  }
}
