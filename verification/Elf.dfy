/** The ELF section loader; section types and flags as in chapter 4 of the System V gABI, "Sections". */
module ElfLoader {
  import opened Options
  import opened Layout
  import opened FreeMap
  import opened PageTables
  import opened VirtualMemory
  import opened UserMemory

  datatype SectionType = ProgBits | NoBits | Other

  /** A decoded section header; `alloc` and `write` are the SHF_ALLOC and SHF_WRITE flags. */
  datatype Section = Section(kind: SectionType, alloc: bool, write: bool, address: nat, offset: nat, size: nat) {
    predicate Has(v: int) {
      address <= v < address + size
    }

    /** The last address of a non-empty section. */
    function Last(): nat
      requires size > 0
    {
      address + size - 1
    }
  }

  /** A module: its bytes, its section table and its entry point. */
  datatype Image = Image(file: seq<byte>, sections: seq<Section>, entry: nat)

  /** Sections that take memory are not empty and end inside the 64-bit address space; file contents lie in the file. */
  predicate WellFormed(image: Image) {
    forall k :: 0 <= k < |image.sections| && image.sections[k].alloc ==>
      var s := image.sections[k];
      && s.size > 0 && s.address + s.size <= ADDRESS_SPACE
      && (s.kind == ProgBits ==> s.offset + s.size <= |image.file|)
  }

  /** Sections that take memory do not overlap. */
  ghost predicate NonOverlapping(sections: seq<Section>) {
    forall k, l, v :: 0 <= k < l < |sections| && sections[k].alloc && sections[l].alloc ==>
      !(sections[k].Has(v) && sections[l].Has(v))
  }

  /** `region_info` */
  datatype RegionInfo = RegionInfo(found: bool, base: nat, end: nat)

  /** The region of the sections with this write flag among the first `n`; `None` where the loader panics. */
  ghost function Scan(sections: seq<Section>, n: nat, write: bool): Option<RegionInfo>
    requires n <= |sections|
    requires forall k :: 0 <= k < |sections| && sections[k].alloc ==> sections[k].size > 0
  {
    if n == 0 then Some(RegionInfo(false, 0, 0))
    else
      match Scan(sections, n - 1, write)
      case None => None
      case Some(r) =>
        var s := sections[n - 1];
        if !s.alloc || s.write != write then Some(r)
        else if !r.found then Some(RegionInfo(true, s.address, s.Last()))
        else if s.address <= r.base || s.Last() <= r.end then None
        else Some(r.(end := s.Last()))
  }

  /** An accepted region spans all its sections. */
  lemma {:induction false} ScanSpans(sections: seq<Section>, n: nat, write: bool, k: nat)
    requires n <= |sections|
    requires forall j :: 0 <= j < |sections| && sections[j].alloc ==> sections[j].size > 0
    requires Scan(sections, n, write).Some?
    requires k < n && sections[k].alloc && sections[k].write == write
    ensures var r := Scan(sections, n, write).value;
            r.found && r.base <= sections[k].address && sections[k].Last() <= r.end
  {
    if k < n - 1 {
      ScanSpans(sections, n - 1, write, k);
    }
  }

  lemma {:induction false} ScanOrdered(sections: seq<Section>, n: nat, write: bool)
    requires n <= |sections|
    requires forall j :: 0 <= j < |sections| && sections[j].alloc ==>
             sections[j].size > 0 && sections[j].address + sections[j].size <= ADDRESS_SPACE
    requires Scan(sections, n, write).Some?
    ensures var r := Scan(sections, n, write).value; r.base <= r.end < ADDRESS_SPACE
  {
    if n > 0 {
      ScanOrdered(sections, n - 1, write);
    }
  }

  /** The section takes memory in the region with this write flag. */
  predicate PartOf(s: Section, write: bool) {
    s.alloc && s.write == write
  }

  ghost predicate IsFirst(sections: seq<Section>, k: nat, write: bool)
    requires k < |sections|
  {
    PartOf(sections[k], write) && forall j :: 0 <= j < k ==> !PartOf(sections[j], write)
  }

  ghost predicate IsLast(sections: seq<Section>, n: nat, k: nat, write: bool)
    requires k < n <= |sections|
  {
    PartOf(sections[k], write) && forall j :: k < j < n ==> !PartOf(sections[j], write)
  }

  /** Of the first `n` sections, each one of the region ends above those before it and begins above the first. */
  ghost predicate Ascending(sections: seq<Section>, n: nat, write: bool)
    requires n <= |sections|
  {
    forall k: nat, l: nat | k < l < n && PartOf(sections[k], write) && PartOf(sections[l], write) ::
      && sections[k].address + sections[k].size < sections[l].address + sections[l].size
      && (IsFirst(sections, k, write) ==> sections[k].address < sections[l].address)
  }

  ghost predicate HasPart(sections: seq<Section>, n: nat, write: bool)
    requires n <= |sections|
  {
    exists k: nat :: k < n && PartOf(sections[k], write)
  }

  /** The region goes from the beginning of its first section to the end of its last one. */
  ghost predicate Spans(r: RegionInfo, sections: seq<Section>, n: nat, write: bool)
    requires n <= |sections|
  {
    && (r.found <==> HasPart(sections, n, write))
    && (forall k: nat | k < n && IsFirst(sections, k, write) :: r.base == sections[k].address)
    && (forall k: nat | k < n && IsLast(sections, n, k, write) ::
          r.end == sections[k].address + sections[k].size - 1)
  }

  lemma {:induction false} FirstOf(sections: seq<Section>, n: nat, write: bool) returns (k: nat)
    requires n <= |sections| && HasPart(sections, n, write)
    ensures k < n && IsFirst(sections, k, write)
    ensures forall j: nat | j < n && IsFirst(sections, j, write) :: j == k
  {
    k :| k < n && PartOf(sections[k], write);
    if HasPart(sections, k, write) {
      k := FirstOf(sections, k, write);
    }
  }

  lemma {:induction false} LastOf(sections: seq<Section>, n: nat, write: bool) returns (k: nat)
    requires n <= |sections| && HasPart(sections, n, write)
    ensures k < n && IsLast(sections, n, k, write)
    ensures forall j: nat | j < n && IsLast(sections, n, j, write) :: j == k
    decreases n
  {
    if PartOf(sections[n - 1], write) {
      k := n - 1;
    } else {
      MoreParts(sections, n - 1, write);
      k := LastOf(sections, n - 1, write);
      forall j: nat | j < n && IsLast(sections, n, j, write)
        ensures j == k
      {
        assert IsLast(sections, n - 1, j, write);
      }
    }
  }

  lemma {:induction false} MoreParts(sections: seq<Section>, n: nat, write: bool)
    requires n < |sections|
    ensures HasPart(sections, n + 1, write) <==> HasPart(sections, n, write) || PartOf(sections[n], write)
  {
    hide PartOf;
    if HasPart(sections, n, write) {
      var k: nat :| k < n && PartOf(sections[k], write);
      assert k < n + 1;
    }
  }

  lemma {:induction false} FirstIsPart(sections: seq<Section>, k: nat, write: bool)
    requires k < |sections|
    ensures IsFirst(sections, k, write) ==> PartOf(sections[k], write)
  {
    hide PartOf;
  }

  lemma {:induction false} LastOfFewer(sections: seq<Section>, n: nat, k: nat, write: bool)
    requires k < n + 1 <= |sections| && !PartOf(sections[n], write) && IsLast(sections, n + 1, k, write)
    ensures k < n && IsLast(sections, n, k, write)
  {
    hide PartOf;
  }

  lemma {:induction false} SkipAscends(sections: seq<Section>, n: nat, write: bool)
    requires n < |sections| && !PartOf(sections[n], write)
    ensures Ascending(sections, n + 1, write) <==> Ascending(sections, n, write)
  {
    hide PartOf, IsFirst;
  }

  /** A further section that is not of the region changes nothing. */
  lemma {:induction false} SkipOther(sections: seq<Section>, n: nat, write: bool, r: RegionInfo)
    requires n < |sections| && !PartOf(sections[n], write)
    ensures Ascending(sections, n + 1, write) <==> Ascending(sections, n, write)
    ensures Spans(r, sections, n, write) ==> Spans(r, sections, n + 1, write)
  {
    hide PartOf, HasPart, IsFirst, IsLast;
    MoreParts(sections, n, write);
    assert !IsFirst(sections, n, write) by {
      FirstIsPart(sections, n, write);
    }
    SkipAscends(sections, n, write);
    hide Ascending;
    var m := n + 1;
    forall k: nat | k < m && IsLast(sections, m, k, write)
      ensures k < n && IsLast(sections, n, k, write)
    {
      LastOfFewer(sections, n, k, write);
    }
  }

  /** The first section of the region. */
  lemma {:induction false} TakeFirst(sections: seq<Section>, n: nat, write: bool)
    requires n < |sections| && PartOf(sections[n], write) && sections[n].size > 0
    requires forall k :: 0 <= k < n ==> !PartOf(sections[k], write)
    ensures Ascending(sections, n + 1, write)
    ensures Spans(RegionInfo(true, sections[n].address, sections[n].Last()), sections, n + 1, write)
  {
  }

  /** A further section of the region: it is to end above the last one and to begin above the first one. */
  lemma {:induction false} TakeNext(sections: seq<Section>, n: nat, write: bool, r: RegionInfo)
    requires n < |sections| && PartOf(sections[n], write) && r.found && Spans(r, sections, n, write)
    requires sections[n].size > 0 && Ascending(sections, n, write)
    ensures Ascending(sections, n + 1, write) <==> r.base < sections[n].address && r.end < sections[n].Last()
  {
    hide HasPart, IsFirst, IsLast, PartOf, Ascending;
    var f := FirstOf(sections, n, write);
    var l := LastOf(sections, n, write);
    EndsBelowLast(sections, n, write, l);
    if r.base < sections[n].address && r.end < sections[n].Last() {
      NextAscends(sections, n, write, f, l);
    }
    if Ascending(sections, n + 1, write) {
      AscendsTo(sections, n, write, f, l);
    }
  }

  lemma {:induction false} NextAscends(sections: seq<Section>, n: nat, write: bool, f: nat, l: nat)
    requires n < |sections| && f < n && l < n && Ascending(sections, n, write)
    requires forall j: nat | j < n && IsFirst(sections, j, write) :: j == f
    requires forall k: nat | k < n && PartOf(sections[k], write) ::
              sections[k].address + sections[k].size <= sections[l].address + sections[l].size
    requires sections[f].address < sections[n].address
    requires sections[l].address + sections[l].size < sections[n].address + sections[n].size
    ensures Ascending(sections, n + 1, write)
  {
    hide IsFirst, PartOf;
  }

  lemma {:induction false} AscendsTo(sections: seq<Section>, n: nat, write: bool, f: nat, l: nat)
    requires n < |sections| && PartOf(sections[n], write) && Ascending(sections, n + 1, write)
    requires f < n && IsFirst(sections, f, write) && l < n && IsLast(sections, n, l, write)
    ensures sections[f].address < sections[n].address
    ensures sections[l].address + sections[l].size < sections[n].address + sections[n].size
  {
    assert PartOf(sections[f], write) && PartOf(sections[l], write);
  }

  lemma {:induction false} EndsBelowLast(sections: seq<Section>, n: nat, write: bool, l: nat)
    requires l < n <= |sections| && Ascending(sections, n, write) && IsLast(sections, n, l, write)
    ensures forall k: nat | k < n && PartOf(sections[k], write) ::
              sections[k].address + sections[k].size <= sections[l].address + sections[l].size
  {
    hide IsFirst;
  }

  lemma {:induction false} FirstIsBefore(sections: seq<Section>, f: nat, n: nat, write: bool)
    requires f < n < |sections| && IsFirst(sections, f, write)
    ensures !IsFirst(sections, n, write)
  {
    hide PartOf;
  }

  lemma {:induction false} NewIsLast(sections: seq<Section>, n: nat, k: nat, write: bool)
    requires k < n + 1 <= |sections| && PartOf(sections[n], write) && IsLast(sections, n + 1, k, write)
    ensures k == n
  {
    hide PartOf;
  }

  lemma {:induction false} NextSpans(sections: seq<Section>, n: nat, write: bool, r: RegionInfo)
    requires n < |sections| && PartOf(sections[n], write) && r.found && Spans(r, sections, n, write)
    requires sections[n].size > 0
    ensures Spans(r.(end := sections[n].Last()), sections, n + 1, write)
  {
    hide PartOf, HasPart, IsFirst, IsLast;
    MoreParts(sections, n, write);
    var f := FirstOf(sections, n, write);
    FirstIsBefore(sections, f, n, write);
    var m := n + 1;
    forall k: nat | k < m && IsLast(sections, m, k, write)
      ensures k == n
    {
      NewIsLast(sections, n, k, write);
    }
  }

  /** The first pass succeeds exactly on ascending sections, and then finds the region that they span. */
  lemma {:induction false} ScanMeaning(sections: seq<Section>, n: nat, write: bool)
    requires n <= |sections|
    requires forall j :: 0 <= j < |sections| && sections[j].alloc ==> sections[j].size > 0
    ensures Scan(sections, n, write).Some? <==> Ascending(sections, n, write)
    ensures Scan(sections, n, write).Some? ==> Spans(Scan(sections, n, write).value, sections, n, write)
  {
    if n > 0 {
      hide Ascending, Spans, Scan;
      ScanMeaning(sections, n - 1, write);
      FewerAscend(sections, n - 1, write);
      ScanStep(sections, n, write);
      if Scan(sections, n - 1, write).Some? {
        ScanNext(sections, n - 1, write, Scan(sections, n - 1, write).value);
      }
    }
  }

  /** What the first pass makes of one more section. */
  ghost function Scanned(r: RegionInfo, s: Section, write: bool): Option<RegionInfo>
    requires PartOf(s, write) ==> s.size > 0
  {
    if !PartOf(s, write) then Some(r)
    else if !r.found then Some(RegionInfo(true, s.address, s.Last()))
    else if s.address <= r.base || s.Last() <= r.end then None
    else Some(r.(end := s.Last()))
  }

  lemma {:induction false} ScanNext(sections: seq<Section>, n: nat, write: bool, r: RegionInfo)
    requires n < |sections| && Ascending(sections, n, write) && Spans(r, sections, n, write)
    requires PartOf(sections[n], write) ==> sections[n].size > 0
    ensures var t := Scanned(r, sections[n], write);
            && (t.Some? <==> Ascending(sections, n + 1, write))
            && (t.Some? ==> Spans(t.value, sections, n + 1, write))
  {
    hide Ascending, Spans, PartOf;
    if !PartOf(sections[n], write) {
      SkipOther(sections, n, write, r);
    } else if !r.found {
      NothingFound(sections, n, write, r);
      TakeFirst(sections, n, write);
    } else {
      TakeNext(sections, n, write, r);
      NextSpans(sections, n, write, r);
    }
  }

  lemma {:induction false} ScanStep(sections: seq<Section>, n: nat, write: bool)
    requires 0 < n <= |sections|
    requires forall j :: 0 <= j < |sections| && sections[j].alloc ==> sections[j].size > 0
    ensures PartOf(sections[n - 1], write) ==> sections[n - 1].size > 0
    ensures Scan(sections, n, write) ==
            match Scan(sections, n - 1, write)
            case None => None
            case Some(r) => Scanned(r, sections[n - 1], write)
  {
  }

  lemma {:induction false} FewerAscend(sections: seq<Section>, n: nat, write: bool)
    requires n < |sections|
    ensures Ascending(sections, n + 1, write) ==> Ascending(sections, n, write)
  {
    hide PartOf, IsFirst;
  }

  lemma {:induction false} NothingFound(sections: seq<Section>, n: nat, write: bool, r: RegionInfo)
    requires n <= |sections| && Spans(r, sections, n, write) && !r.found
    ensures forall k :: 0 <= k < n ==> !PartOf(sections[k], write)
  {
    hide PartOf, IsFirst, IsLast;
    assert forall k :: 0 <= k < n && PartOf(sections[k], write) ==> HasPart(sections, n, write);
  }

  /** Pages that are mapped to pairwise distinct frames of plain memory within the kernel's reach. */
  ghost predicate Ready(m: Mem, root: nat, pages: iset<nat>) {
    && (forall p | p in pages ::
          Walk(m.tables, root, p) != EMPTY && UsableFrame(FrameOf(m, root, p)) && FrameOf(m, root, p) in m.data)
    && (forall p, p' | p in pages && p' in pages && p != p' :: FrameOf(m, root, p) != FrameOf(m, root, p'))
  }

  ghost predicate Within(lo: nat, hi: nat, pages: iset<nat>) {
    forall v: nat | lo <= v < hi :: v / PAGE_SIZE in pages
  }

  /** Writing into ready pages succeeds, is read back, and leaves every other ready address alone. */
  lemma {:induction false} WriteIntoReady(m: Mem, root: nat, pages: iset<nat>, virt: nat, src: seq<byte>)
    requires Good(m) && Ready(m, root, pages) && Within(virt, virt + |src|, pages)
    ensures var (n, r) := FlatWrite(m, root, virt, src, 0);
            && r == Ok && Good(n) && n.tables == m.tables && n.place == m.place && n.free == m.free
                 && Ready(n, root, pages)
            && (forall j | 0 <= j < |src| :: ByteAt(n, root, virt + j) == src[j])
            && (forall v: nat | v / PAGE_SIZE in pages && !(virt <= v < virt + |src|) ::
                 ByteAt(n, root, v) == ByteAt(m, root, v))
  {
    hide Tree, Leaf, Walk, FlatWrite;
    var (n, r) := FlatWrite(m, root, virt, src, 0);
    FlatWriteKeeps(m, root, virt, src, 0);
    assert Reachable(m.tables, root, virt, virt + |src|) by {
      forall v: nat | virt <= v < virt + |src|
        ensures Mapped(m.tables, root, v) && ProvidePhys(FrameAt(m.tables, root, v)).Some?
      {
        assert v / PAGE_SIZE in pages;
      }
    }
    FlatWriteSucceeds(m, root, virt, src, 0);
    assert DistinctFrames(m, root, virt, virt + |src|) by {
      forall v: nat, w: nat | virt <= v < virt + |src| && virt <= w < virt + |src|
        ensures FrameAt(m.tables, root, v) in m.data
        ensures v / PAGE_SIZE != w / PAGE_SIZE ==> FrameAt(m.tables, root, v) != FrameAt(m.tables, root, w)
      {
        assert v / PAGE_SIZE in pages && w / PAGE_SIZE in pages;
        assert FrameAt(m.tables, root, v) == FrameOf(m, root, v / PAGE_SIZE);
        assert FrameAt(m.tables, root, w) == FrameOf(m, root, w / PAGE_SIZE);
      }
    }
    forall j | 0 <= j < |src|
      ensures ByteAt(n, root, virt + j) == src[j]
    {
      FlatWriteReads(m, root, virt, src, 0, j);
    }
    forall v: nat | v / PAGE_SIZE in pages && !(virt <= v < virt + |src|)
      ensures ByteAt(n, root, v) == ByteAt(m, root, v)
    {
      ReadyElsewhere(m, root, pages, virt, src, v);
    }
  }

  lemma {:induction false} ReadyElsewhere(m: Mem, root: nat, pages: iset<nat>, virt: nat, src: seq<byte>, v: nat)
    requires Good(m) && Ready(m, root, pages) && Within(virt, virt + |src|, pages)
    requires v / PAGE_SIZE in pages && !(virt <= v < virt + |src|)
    ensures ByteAt(FlatWrite(m, root, virt, src, 0).0, root, v) == ByteAt(m, root, v)
  {
    hide Tree, Leaf, Walk, FlatWrite;
    var f, o := FrameAt(m.tables, root, v), v % PAGE_SIZE;
    assert f == FrameOf(m, root, v / PAGE_SIZE);
    forall w: nat | virt <= w < virt + |src|
      ensures !(FrameAt(m.tables, root, w) == f && w % PAGE_SIZE == o)
    {
      assert w / PAGE_SIZE in pages && FrameAt(m.tables, root, w) == FrameOf(m, root, w / PAGE_SIZE);
    }
    FlatWriteKeeps(m, root, virt, src, 0);
    FlatWriteElsewhere(m, root, virt, src, 0, f, o);
  }

  /** What the second pass writes for a section; nothing for the other types. */
  ghost function Contents(image: Image, s: Section): Option<seq<byte>> {
    if !s.alloc then None
    else
      match s.kind
      case ProgBits => if s.offset + s.size <= |image.file| then Some(image.file[s.offset..s.offset + s.size]) else None
      case NoBits => Some(Zeros(s.size))
      case Other => None
  }

  /** The second pass from section `i` on. */
  ghost function Fill(m: Mem, root: nat, image: Image, i: nat): (Mem, Outcome)
    decreases |image.sections| - i
  {
    if i >= |image.sections| then (m, Ok)
    else
      var s := image.sections[i];
      match Contents(image, s)
      case None => Fill(m, root, image, i + 1)
      case Some(bytes) =>
        var (n, r) := FlatWrite(m, root, s.address, bytes, 0);
        if r != Ok then (n, r) else Fill(n, root, image, i + 1)
  }

  /** Every section from `i` on lies in ready pages. */
  ghost predicate Backed(image: Image, pages: iset<nat>) {
    forall k :: 0 <= k < |image.sections| && image.sections[k].alloc ==>
      Within(image.sections[k].address, image.sections[k].address + image.sections[k].size, pages)
  }

  /** The process reads the section's bytes from the file, or zeros for a NOBITS section. */
  ghost predicate SectionBuilt(m: Mem, root: nat, image: Image, s: Section) {
    forall v: nat | s.alloc && s.Has(v) ::
      && (s.kind == ProgBits && s.offset + s.size <= |image.file| ==>
            ByteAt(m, root, v) == image.file[s.offset + (v - s.address)])
      && (s.kind == NoBits ==> ByteAt(m, root, v) == 0)
  }

  lemma {:induction false} ContentsBuilt(m: Mem, root: nat, image: Image, s: Section)
    requires Contents(image, s).Some? ==>
               forall v: nat | s.Has(v) :: ByteAt(m, root, v) == Contents(image, s).value[v - s.address]
    ensures SectionBuilt(m, root, image, s)
  {
    hide ByteAt;
  }

  /** The image is built: every section that takes memory reads as the file says. */
  ghost predicate ImageBuilt(m: Mem, root: nat, image: Image) {
    forall k :: 0 <= k < |image.sections| ==> SectionBuilt(m, root, image, image.sections[k])
  }

  lemma {:induction false} ContentsSize(image: Image, s: Section)
    ensures Contents(image, s).Some? ==> |Contents(image, s).value| == s.size
  {
  }

  /** With all sections backed, no copy or clear fails, and only bytes of sections from `i` on change. */
  lemma {:induction false} FillSucceeds(m: Mem, root: nat, image: Image, pages: iset<nat>, i: nat)
    requires Good(m) && Ready(m, root, pages) && Backed(image, pages) && i <= |image.sections|
    ensures var (n, r) := Fill(m, root, image, i);
            && r == Ok && Good(n) && n.tables == m.tables && n.place == m.place && n.free == m.free
                 && Ready(n, root, pages)
            && (forall v: nat | v / PAGE_SIZE in pages && SkippedFrom(image, i, v) ::
                 ByteAt(n, root, v) == ByteAt(m, root, v))
    decreases |image.sections| - i
  {
    hide Good, FlatWrite, ByteAt, Ready, Walk;
    if i < |image.sections| {
      var s := image.sections[i];
      if Contents(image, s).None? {
        FillSucceeds(m, root, image, pages, i + 1);
      } else {
        ContentsSize(image, s);
        var bytes := Contents(image, s).value;
        WriteIntoReady(m, root, pages, s.address, bytes);
        FillSucceeds(FlatWrite(m, root, s.address, bytes, 0).0, root, image, pages, i + 1);
      }
    }
  }

  /** No section from `i` on that takes memory contains address `v`. */
  ghost predicate SkippedFrom(image: Image, i: nat, v: nat) {
    forall k :: i <= k < |image.sections| && image.sections[k].alloc ==> !image.sections[k].Has(v)
  }

  /** After the second pass every section is built: no later section overwrites an earlier one. */
  lemma {:induction false} FillBuilds(m: Mem, root: nat, image: Image, pages: iset<nat>, i: nat, k: nat)
    requires Good(m) && Ready(m, root, pages) && Backed(image, pages)
    requires NonOverlapping(image.sections) && i <= k < |image.sections|
    ensures SectionBuilt(Fill(m, root, image, i).0, root, image, image.sections[k])
    decreases |image.sections| - i
  {
    hide Good, FlatWrite, ByteAt, Ready, Walk, SectionBuilt;
    var s := image.sections[i];
    FillSucceeds(m, root, image, pages, i);
    if Contents(image, s).None? {
      if i < k {
        FillBuilds(m, root, image, pages, i + 1, k);
      } else {
        ContentsBuilt(Fill(m, root, image, i).0, root, image, s);
      }
    } else {
      ContentsSize(image, s);
      var bytes := Contents(image, s).value;
      WriteIntoReady(m, root, pages, s.address, bytes);
      var n := FlatWrite(m, root, s.address, bytes, 0).0;
      if i < k {
        FillBuilds(n, root, image, pages, i + 1, k);
      } else {
        FillSucceeds(n, root, image, pages, i + 1);
        forall v: nat | s.Has(v)
          ensures ByteAt(Fill(m, root, image, i).0, root, v) == bytes[v - s.address]
        {
          assert SkippedFrom(image, i + 1, v);
          assert v / PAGE_SIZE in pages;
          assert ByteAt(n, root, s.address + (v - s.address)) == bytes[v - s.address];
        }
        ContentsBuilt(Fill(m, root, image, i).0, root, image, s);
      }
    }
  }

  predicate InRange(p: nat, lo: nat, hi: nat) {
    lo <= p < hi
  }

  ghost function PageRange(lo: nat, hi: nat): iset<nat> {
    iset p: nat | InRange(p, lo, hi)
  }

  /** Two regions that were allocated one after the other are ready together: no frame serves both. */
  lemma {:induction false} RegionsReady(m: Mem, n: Mem, l: Mem, root: nat, list: seq<Region>,
                                        lo: nat, hi: nat, lo': nat, hi': nat, flags: Flags, flags': Flags)
    requires Good(m) && Good(n) && hi <= USER_PAGES && hi' <= USER_PAGES
    requires MappedTo(n, root, lo, hi, m.free, flags)
    requires Agree(n, root, list) && FreeRange(list, lo', hi')
    requires Grew(n, l, root, lo', hi') && MappedTo(l, root, lo', hi', n.free, flags')
    ensures Ready(l, root, PageRange(lo, hi) + PageRange(lo', hi'))
  {
    hide Tree, Walk, UserRegions, Covers;
    FreeIsUnmapped(n, root, list, lo', hi');
    forall p: nat | lo <= p < hi
      ensures !(lo' <= p < hi') && Walk(l.tables, root, p) == Walk(n.tables, root, p) && FrameOf(l, root, p) in l.data
    {
      assert Walk(n.tables, root, p) == Word(FrameOf(n, root, p), PagingFlags(flags));
    }
    forall p: nat | lo' <= p < hi'
      ensures FrameOf(l, root, p) in n.free
    {
    }
  }

  /** The pages of both regions keep their access while the second one is mapped. */
  lemma {:induction false} AccessKept(n: Mem, l: Mem, root: nat, list: seq<Region>, lo: nat, hi: nat, lo': nat,
      hi': nat,
                                      frames: seq<nat>, flags: Flags)
    requires Good(n) && Good(l) && MappedTo(n, root, lo, hi, frames, flags) && hi <= USER_PAGES
    requires Accessible(n.tables, root, lo, hi, flags)
    requires Agree(n, root, list) && FreeRange(list, lo', hi') && Grew(n, l, root, lo', hi')
    ensures Accessible(l.tables, root, lo, hi, flags)
  {
    hide Good, Moved, Walk, EntryOf, HasAccess, UserRegions, Covers, FreeRange, PagingFlags;
    FreeIsUnmapped(n, root, list, lo', hi');
    GoodWords(n);
    GoodWords(l);
    forall p: nat | lo <= p < hi
      ensures HasAccess(EntryOf(l.tables, root, p), flags.write, flags.user)
    {
      assert Walk(n.tables, root, p) == Word(FrameOf(n, root, p), PagingFlags(flags));
      EntryIsWalk(n.tables, root, p);
      EntryIsWalk(l.tables, root, p);
    }
  }

  /** The pages of a region are present, open to user code, and writable as asked for. */
  ghost predicate RegionAccess(t: Tables, root: nat, r: RegionInfo, write: bool) {
    r.found ==>
      forall p: nat | r.base / PAGE_SIZE <= p <= r.end / PAGE_SIZE :: HasAccess(EntryOf(t, root, p), write, true)
  }

  /**
   * Behind every address of every section that takes memory is a present entry that is open to user code, and that
   * can be written exactly when the section says so.
   */
  ghost predicate AccessRight(t: Tables, root: nat, sections: seq<Section>) {
    forall k: nat, v: nat | k < |sections| && sections[k].alloc && sections[k].Has(v) ::
      var x := NumberWalk(t, root, PathOf(v), 0);
      x % 2 == 1 && (x / 2 % 2 == 1 <==> sections[k].write) && x / 4 % 2 == 1
  }

  lemma {:induction false} SectionAccess(t: Tables, root: nat, sections: seq<Section>, r: RegionInfo, k: nat, v: nat)
    requires forall j :: 0 <= j < |sections| && sections[j].alloc ==> sections[j].size > 0
    requires k < |sections| && sections[k].alloc && sections[k].Has(v)
    requires Scan(sections, |sections|, sections[k].write) == Some(r)
    requires RegionAccess(t, root, r, sections[k].write)
    ensures HasAccess(NumberWalk(t, root, PathOf(v), 0), sections[k].write, true)
  {
    hide Scan, HasAccess, NumberWalk, PathOf, PathOfPage;
    ScanSpans(sections, |sections|, sections[k].write, k);
    PathOfAddress(v);
    PageBetween(r.base, v, r.end);
    assert HasAccess(EntryOf(t, root, v / PAGE_SIZE), sections[k].write, true);
  }

  lemma {:induction false} PageBetween(a: nat, v: nat, b: nat)
    requires a <= v <= b
    ensures a / PAGE_SIZE <= v / PAGE_SIZE <= b / PAGE_SIZE
  {
  }

  lemma {:induction false} SectionsAccess(t: Tables, root: nat, sections: seq<Section>, text: RegionInfo,
      data: RegionInfo)
    requires forall j :: 0 <= j < |sections| && sections[j].alloc ==> sections[j].size > 0
    requires Scan(sections, |sections|, false) == Some(text) && Scan(sections, |sections|, true) == Some(data)
    requires RegionAccess(t, root, text, false) && RegionAccess(t, root, data, true)
    ensures AccessRight(t, root, sections)
  {
    hide Scan, NumberWalk, PathOf, RegionAccess;
    forall k: nat, v: nat | k < |sections| && sections[k].alloc && sections[k].Has(v)
      ensures HasAccess(NumberWalk(t, root, PathOf(v), 0), sections[k].write, true)
    {
      SectionAccess(t, root, sections, if sections[k].write then data else text, k, v);
    }
  }

  datatype LoadResult = Loaded(entry: nat) | LoadFailed | LoadPanic

  /** The first pass over the sections. */
  method FindRegions(image: Image) returns (ok: bool, text: RegionInfo, data: RegionInfo)
    requires WellFormed(image)
    ensures var n := |image.sections|;
            ok <==> Scan(image.sections, n, false).Some? && Scan(image.sections, n, true).Some?
    ensures ok ==>
              && Scan(image.sections, |image.sections|, false) == Some(text)
              && Scan(image.sections, |image.sections|, true) == Some(data)
  {
    text, data := RegionInfo(false, 0, 0), RegionInfo(false, 0, 0);
    for i := 0 to |image.sections|
      invariant Scan(image.sections, i, false) == Some(text) && Scan(image.sections, i, true) == Some(data)
    {
      var s := image.sections[i];
      if s.alloc {
        var r := if s.write then data else text;
        var end := s.address + s.size - 1;
        if r.found {
          if s.address <= r.base || end <= r.end {
            ScanFails(image.sections, i + 1, |image.sections|, s.write);
            return false, text, data;
          }
          r := r.(end := end);
        } else {
          r := RegionInfo(true, s.address, end);
        }
        if s.write {
          data := r;
        } else {
          text := r;
        }
      }
    }
    ok := true;
  }

  lemma {:induction false} ScanFails(sections: seq<Section>, i: nat, n: nat, write: bool)
    requires i <= n <= |sections|
    requires forall k :: 0 <= k < |sections| && sections[k].alloc ==> sections[k].size > 0
    requires Scan(sections, i, write).None?
    ensures Scan(sections, n, write).None?
    decreases n - i
  {
    if i < n {
      ScanFails(sections, i, n - 1, write);
    }
  }

  /** A region rounded outwards to pages. */
  function Rounded(r: RegionInfo): Region
    requires r.base <= r.end
  {
    Region(PageFloor(r.base), PageAlign(r.end - r.base + 1 + PageOffset(r.base)))
  }

  /** The free map has the region in one piece, and an entry to split that piece if need be. */
  ghost predicate RegionFree(list: seq<Region>, r: RegionInfo, entries: nat)
    requires r.base <= r.end
  {
    Contained(list, Rounded(r)) && (entries > 0 || !Splits(list, Rounded(r)))
  }

  /** The free map after taking the region out. */
  ghost function Without(list: seq<Region>, r: RegionInfo): seq<Region>
    requires r.base <= r.end
  {
    if r.found then Subtract(list, Rounded(r)) else list
  }

  /** `elf_alloc_region`: the pages from that of the first to that of the last byte of the region. */
  method AllocRegion(proc: Process, r: RegionInfo, write: bool, entries: nat)
    returns (outcome: Outcome, ghost lo: nat, ghost hi: nat)
    requires proc.Valid() && r.base <= r.end < ADDRESS_SPACE
    modifies proc.spaces, proc.spaces.pmm, proc.freeMap
    ensures proc.Valid() && Grew(old(proc.spaces.Abs()), proc.spaces.Abs(), proc.root, lo, hi)
    ensures Taken(old(proc.freeMap.list), proc.freeMap.list, lo, hi)
    ensures outcome == Ok || outcome == Failed
    ensures outcome == Ok ==>
              && lo == r.base / PAGE_SIZE && hi == r.end / PAGE_SIZE + 1
              && MappedTo(proc.spaces.Abs(), proc.root, lo, hi, old(proc.spaces.Abs()).free, Flags(write, true))
              && Accessible(proc.spaces.tables, proc.root, lo, hi, Flags(write, true))
    ensures outcome == Ok ==> Region(lo * PAGE_SIZE, (hi - lo) * PAGE_SIZE) == Rounded(r)
    ensures outcome == Failed ==> proc.spaces.pmm.FreePages() == [] || !RegionFree(old(proc.freeMap.list), r, entries)
  {
    hide Good, Grew, MappedTo, Agree, Contained, Splits, FreeRange, PageFloor, PageOffset, PageAlign, Taken,
      Accessible;
    var base, off := PageFloor(r.base), PageOffset(r.base);
    var size := PageAlign(r.end - r.base + 1 + off);
    RegionSize(r);
    var at;
    outcome, at, lo, hi := proc.Alloc(base, size, true, Flags(write, true), entries);
  }

  /** Rounding a region to pages. */
  lemma {:induction false} RegionSize(r: RegionInfo)
    requires r.base <= r.end < ADDRESS_SPACE
    ensures Rounded(r).base == r.base / PAGE_SIZE * PAGE_SIZE && Rounded(r).size > 0
    ensures Rounded(r).End() == (r.end / PAGE_SIZE + 1) * PAGE_SIZE <= ADDRESS_SPACE
    ensures Rounded(r).base % PAGE_SIZE == 0 && Rounded(r).size % PAGE_SIZE == 0
  {
  }

  /** The region is taken and mapped, if the first pass found it. */
  method AllocIfFound(proc: Process, r: RegionInfo, write: bool, entries: nat)
      returns (ok: bool, ghost lo: nat, ghost hi: nat)
    requires proc.Valid() && r.base <= r.end < ADDRESS_SPACE
    modifies proc.spaces, proc.spaces.pmm, proc.freeMap
    ensures proc.Valid() && Grew(old(proc.spaces.Abs()), proc.spaces.Abs(), proc.root, lo, hi)
    ensures Taken(old(proc.freeMap.list), proc.freeMap.list, lo, hi)
    ensures ok ==>
              && MappedTo(proc.spaces.Abs(), proc.root, lo, hi, old(proc.spaces.Abs()).free, Flags(write, true))
              && Accessible(proc.spaces.tables, proc.root, lo, hi, Flags(write, true))
              && proc.freeMap.list == Without(old(proc.freeMap.list), r)
              && (r.found ==> lo == r.base / PAGE_SIZE && hi == r.end / PAGE_SIZE + 1)
    ensures !ok ==> proc.spaces.pmm.FreePages() == [] || (r.found && !RegionFree(old(proc.freeMap.list), r, entries))
  {
    if r.found {
      hide Good, Grew, MappedTo, Agree, Walk, FreeRange, Accessible;
      var outcome;
      outcome, lo, hi := AllocRegion(proc, r, write, entries);
      ok := outcome == Ok;
    } else {
      GrewNone(proc.spaces.Abs(), proc.root, 0);
      hide Good, Grew, Agree, Walk;
      ok, lo, hi := true, 0, 0;
    }
  }

  ghost predicate UserPages(pages: iset<nat>) {
    forall p | p in pages :: p < USER_PAGES
  }

  /** Between the passes: both regions are taken and mapped. */
  method AllocRegions(proc: Process, text: RegionInfo, data: RegionInfo, entries: nat, entries': nat)
    returns (ok: bool, ghost pages: iset<nat>)
    requires proc.Valid() && text.base <= text.end < ADDRESS_SPACE && data.base <= data.end < ADDRESS_SPACE
    modifies proc.spaces, proc.spaces.pmm, proc.freeMap
    ensures proc.Valid()
    ensures ok ==>
              && Ready(proc.spaces.Abs(), proc.root, pages) && UserPages(pages)
              && (text.found ==> forall p: nat | text.base / PAGE_SIZE <= p <= text.end / PAGE_SIZE :: p in pages)
              && (data.found ==> forall p: nat | data.base / PAGE_SIZE <= p <= data.end / PAGE_SIZE :: p in pages)
              && RegionAccess(proc.spaces.tables, proc.root, text, false)
              && RegionAccess(proc.spaces.tables, proc.root, data, true)
    ensures !ok ==>
              || proc.spaces.pmm.FreePages() == []
              || (text.found && !RegionFree(old(proc.freeMap.list), text, entries))
              || (data.found && !RegionFree(Without(old(proc.freeMap.list), text), data, entries'))
  {
    hide Good, Grew, MappedTo, Walk, UserRegions, Covers, RegionFree, Without, Ready, FreeRange, EntryOf, HasAccess;
    ghost var m := proc.spaces.Abs();
    ghost var lo, hi, lo', hi';
    pages := iset{};
    ok, lo, hi := AllocIfFound(proc, text, false, entries);
    if !ok {
      return;
    }
    ghost var n, list' := proc.spaces.Abs(), proc.freeMap.list;
    ok, lo', hi' := AllocIfFound(proc, data, true, entries');
    if !ok {
      return;
    }
    RegionsReady(m, n, proc.spaces.Abs(), proc.root, list', lo, hi, lo', hi', Flags(false, true), Flags(true, true));
    AccessKept(n, proc.spaces.Abs(), proc.root, list', lo, hi, lo', hi', m.free, Flags(false, true));
    pages := PageRange(lo, hi) + PageRange(lo', hi');
  }

  /** The second pass over the sections. */
  method FillSections(proc: Process, image: Image, ghost pages: iset<nat>) returns (ok: bool)
    requires proc.Valid() && WellFormed(image) && Backed(image, pages) && Ready(proc.spaces.Abs(), proc.root, pages)
    requires UserPages(pages)
    modifies proc.spaces
    ensures proc.Valid() && ok
    ensures proc.spaces.Abs() == Fill(old(proc.spaces.Abs()), proc.root, image, 0).0
  {
    hide Good, FlatWrite, ByteAt, Walk, UserRegions, Covers;
    ghost var m := proc.spaces.Abs();
    FillSucceeds(m, proc.root, image, pages, 0);
    for i := 0 to |image.sections|
      invariant proc.spaces.Valid() && proc.spaces.tables == m.tables && proc.spaces.place == m.place
      invariant IsRoot(proc.spaces.Abs(), proc.root)
      invariant Ready(proc.spaces.Abs(), proc.root, pages)
      invariant Fill(m, proc.root, image, 0) == Fill(proc.spaces.Abs(), proc.root, image, i)
    {
      var s := image.sections[i];
      ContentsSize(image, s);
      if s.alloc {
        assert s.Last() / PAGE_SIZE in pages;
      }
      if Contents(image, s).Some? {
        WriteIntoReady(proc.spaces.Abs(), proc.root, pages, s.address, Contents(image, s).value);
      }
      if s.alloc {
        match s.kind {
          case ProgBits =>
            var r := CopyTo(proc, s.address, image.file[s.offset..s.offset + s.size]);
            if r != Ok {
              return false;
            }
          case NoBits =>
            var r := Clear(proc, s.address, s.size);
            if r != Ok {
              return false;
            }
          case Other =>
        }
      }
    }
    ok := true;
  }

  /** `elf_load`; `entries` and `entries'` are the region entries left when the two regions are taken. */
  method Load(proc: Process, image: Image, entries: nat, entries': nat) returns (result: LoadResult)
    requires proc.Valid() && WellFormed(image)
    modifies proc.spaces, proc.spaces.pmm, proc.freeMap
    ensures proc.Valid()
    ensures result == LoadPanic <==>
              || !Ascending(image.sections, |image.sections|, false)
              || !Ascending(image.sections, |image.sections|, true)
    ensures result.Loaded? ==> AccessRight(proc.spaces.tables, proc.root, image.sections)
    ensures result.Loaded? ==> result.entry == image.entry
    ensures result.Loaded? && NonOverlapping(image.sections) ==> ImageBuilt(proc.spaces.Abs(), proc.root, image)
    ensures result == LoadFailed ==>
              proc.spaces.pmm.FreePages() == [] || !RegionsFree(old(proc.freeMap.list), image, entries, entries')
  {
    hide Good, Walk, UserRegions, Covers, FlatWrite, ByteAt, RegionFree, Without, Ready, Ascending, Spans, RegionAccess,
      AccessRight;
    ScanMeaning(image.sections, |image.sections|, false);
    ScanMeaning(image.sections, |image.sections|, true);
    var ok, text, data := FindRegions(image);
    if !ok {
      return LoadPanic;
    }
    ScanOrdered(image.sections, |image.sections|, false);
    ScanOrdered(image.sections, |image.sections|, true);
    ghost var pages;
    ok, pages := AllocRegions(proc, text, data, entries, entries');
    if !ok {
      return LoadFailed;
    }
    SectionsBacked(image, text, data, pages);
    SectionsAccess(proc.spaces.tables, proc.root, image.sections, text, data);
    ghost var m := proc.spaces.Abs();
    FillSucceeds(m, proc.root, image, pages, 0);
    if NonOverlapping(image.sections) {
      forall k | 0 <= k < |image.sections|
        ensures SectionBuilt(Fill(m, proc.root, image, 0).0, proc.root, image, image.sections[k])
      {
        FillBuilds(m, proc.root, image, pages, 0, k);
      }
    }
    ok := FillSections(proc, image, pages);
    result := Loaded(image.entry);
  }

  /** Both regions of the image can be taken, one after the other. */
  ghost predicate RegionsFree(list: seq<Region>, image: Image, entries: nat, entries': nat)
    requires WellFormed(image)
  {
    var text, data := Scan(image.sections, |image.sections|, false), Scan(image.sections, |image.sections|, true);
    && text.Some? && data.Some? && text.value.base <= text.value.end && data.value.base <= data.value.end
    && (text.value.found ==> RegionFree(list, text.value, entries))
    && (data.value.found ==> RegionFree(Without(list, text.value), data.value, entries'))
  }

  /** The pages of the two regions hold every section that takes memory. */
  lemma {:induction false} SectionsBacked(image: Image, text: RegionInfo, data: RegionInfo, pages: iset<nat>)
    requires WellFormed(image)
    requires Scan(image.sections, |image.sections|, false) == Some(text)
    requires Scan(image.sections, |image.sections|, true) == Some(data)
    requires text.found ==> forall p: nat | text.base / PAGE_SIZE <= p <= text.end / PAGE_SIZE :: p in pages
    requires data.found ==> forall p: nat | data.base / PAGE_SIZE <= p <= data.end / PAGE_SIZE :: p in pages
    ensures Backed(image, pages)
  {
    forall k | 0 <= k < |image.sections| && image.sections[k].alloc
      ensures Within(image.sections[k].address, image.sections[k].address + image.sections[k].size, pages)
    {
      ScanSpans(image.sections, |image.sections|, image.sections[k].write, k);
    }
  }
}
