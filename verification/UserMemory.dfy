/** Writing into the memory of a process through its page tables. */
module UserMemory {
  import opened Layout
  import opened PhysicalPages
  import opened PageTables
  import opened VirtualMemory

  /** The frame behind user address `v`. */
  ghost function FrameAt(t: Tables, root: nat, v: nat): nat {
    Walk(t, root, v / PAGE_SIZE).frame
  }

  /** The page of user address `v` is mapped. */
  ghost predicate Mapped(t: Tables, root: nat, v: nat) {
    Walk(t, root, v / PAGE_SIZE) != EMPTY
  }

  /** The byte that a process reads at user address `v`. */
  ghost function ByteAt(m: Mem, root: nat, v: nat): byte {
    var f := FrameAt(m.tables, root, v);
    if f in m.data && v % PAGE_SIZE < |m.data[f]| then m.data[f][v % PAGE_SIZE] else 0
  }

  /** `m` with `bytes` stored in frame `f` from offset `off` on. */
  ghost function Spliced(m: Mem, f: nat, off: nat, bytes: seq<byte>): Mem {
    if f in m.data && off + |bytes| <= |m.data[f]|
    then m.(data := m.data[f := m.data[f][..off] + bytes + m.data[f][off + |bytes|..]])
    else m
  }

  /**
   * The flat write that `vmm_copy_to` stands for: the bytes of `src` from `i` on, one at a time, each through
   * the page tables. It stops at the first byte whose page is not mapped, and panics at the first one whose
   * frame lies outside the physical window.
   */
  ghost function FlatWrite(m: Mem, root: nat, virt: nat, src: seq<byte>, i: nat): (Mem, Outcome)
    decreases |src| - i
  {
    if i >= |src| then (m, Ok)
    else if !Mapped(m.tables, root, virt + i) then (m, Failed)
    else
      var f := FrameAt(m.tables, root, virt + i);
      if ProvidePhys(f).None? then (m, Panic)
      else FlatWrite(Spliced(m, f, (virt + i) % PAGE_SIZE, [src[i]]), root, virt, src, i + 1)
  }

  /** The pages of the range that are mapped lead to plain memory, not to a table or a device. */
  ghost predicate PlainMemory(m: Mem, root: nat, virt: nat, size: nat) {
    forall v: nat | virt <= v < virt + size && Mapped(m.tables, root, v) :: FrameAt(m.tables, root, v) in m.data
  }

  lemma {:induction false} SplicedTwice(m: Mem, f: nat, off: nat, x: byte, rest: seq<byte>)
    requires f in m.data && off + 1 + |rest| <= |m.data[f]|
    ensures Spliced(Spliced(m, f, off, [x]), f, off + 1, rest) == Spliced(m, f, off, [x] + rest)
  {
    var d := m.data[f];
    var e := d[..off] + [x] + d[off + 1..];
    assert e[..off + 1] + rest + e[off + 1 + |rest|..] == d[..off] + ([x] + rest) + d[off + 1 + |rest|..];
  }

  /** Storing a chunk that stays within one page is storing its bytes one at a time. */
  lemma {:induction false} ChunkIsFlat(m: Mem, root: nat, virt: nat, src: seq<byte>, i: nat, s: nat)
    requires i + s <= |src| && (virt + i) % PAGE_SIZE + s <= PAGE_SIZE
    requires s > 0 ==> Mapped(m.tables, root, virt + i)
    requires s > 0 ==>
             var f := FrameAt(m.tables, root, virt + i); ProvidePhys(f).Some? && f in m.data && |m.data[f]| == PAGE_SIZE
    ensures FlatWrite(m, root, virt, src, i) ==
            if s == 0 then FlatWrite(m, root, virt, src, i)
            else
              FlatWrite(Spliced(m, FrameAt(m.tables, root, virt + i), (virt + i) % PAGE_SIZE, src[i..i + s]),
                root, virt, src, i + s)
    decreases s
  {
    if s == 1 {
      assert src[i..i + 1] == [src[i]];
    } else if s > 1 {
      hide Walk, Leaf;
      var f, off := FrameAt(m.tables, root, virt + i), (virt + i) % PAGE_SIZE;
      NextInPage(virt + i);
      ChunkIsFlat(Spliced(m, f, off, [src[i]]), root, virt, src, i + 1, s - 1);
      SplicedTwice(m, f, off, src[i], src[i + 1..i + s]);
      assert src[i..i + s] == [src[i]] + src[i + 1..i + s];
    }
  }

  lemma {:induction false} NextInPage(v: nat)
    requires v % PAGE_SIZE + 1 < PAGE_SIZE
    ensures (v + 1) / PAGE_SIZE == v / PAGE_SIZE && (v + 1) % PAGE_SIZE == v % PAGE_SIZE + 1
  {
  }

  /** A write changes no table and no free frame. */
  lemma {:induction false} SplicedKeeps(m: Mem, f: nat, off: nat, bytes: seq<byte>)
    requires Good(m)
    ensures var n := Spliced(m, f, off, bytes);
            && Good(n) && n.tables == m.tables && n.place == m.place && n.free == m.free && n.data.Keys == m.data.Keys
            && (forall g | g in m.data && g != f :: n.data[g] == m.data[g])
  {
  }

  /** One turn of the loops of `vmm_copy_to` and `vmm_clear`: as much of the data as fits the page. */
  method WriteChunk(proc: Process, virt: nat, bytes: seq<byte>) returns (r: Outcome)
    requires proc.spaces.Valid() && IsRoot(proc.spaces.Abs(), proc.root) && virt < USER_REGION_SIZE
    requires virt % PAGE_SIZE + |bytes| <= PAGE_SIZE
    requires Mapped(proc.spaces.tables, proc.root, virt) ==>
               FrameAt(proc.spaces.tables, proc.root, virt) in proc.spaces.data
    modifies proc.spaces
    ensures proc.spaces.Valid() && proc.spaces.tables == old(proc.spaces.tables)
            && proc.spaces.place == old(proc.spaces.place)
    ensures proc.spaces.data.Keys == old(proc.spaces.data.Keys)
    ensures !Mapped(proc.spaces.tables, proc.root, virt) ==> r == Failed
    ensures Mapped(proc.spaces.tables, proc.root, virt) ==>
              var f := FrameAt(old(proc.spaces.tables), proc.root, virt);
              r == if f == 0 || f >= 0x7fff_8000_0000 then Panic else Ok
    ensures proc.spaces.Abs() ==
            if r == Ok
            then Spliced(old(proc.spaces.Abs()), FrameAt(old(proc.spaces.tables), proc.root, virt),
              virt % PAGE_SIZE, bytes)
            else old(proc.spaces.Abs())
  {
    hide Tree, Leaf, Conserved, LinksOpen, AllWords, NumberWalk, PathOf;
    ghost var m := proc.spaces.Abs();
    var off := virt % PAGE_SIZE;
    assert (virt - off) / PAGE_SIZE == virt / PAGE_SIZE;
    var ok, frame := proc.spaces.Translate(proc.root, virt - off);
    if !ok {
      return Failed;
    }
    if frame >= PHYS_MAP_SIZE || frame == 0 {
      return Panic;
    }
    SplicedKeeps(m, frame, off, bytes);
    var d := proc.spaces.data[frame];
    proc.spaces.data := proc.spaces.data[frame := d[..off] + bytes + d[off + |bytes|..]];
    assert proc.spaces.Abs() == Spliced(m, frame, off, bytes);
    r := Ok;
  }

  /** What one turn of the loop does to the flat write. */
  lemma {:induction false} FlatStep(m: Mem, root: nat, virt: nat, src: seq<byte>, i: nat, s: nat)
    requires Good(m) && i + s <= |src| && 0 < s && (virt + i) % PAGE_SIZE + s <= PAGE_SIZE
    requires Mapped(m.tables, root, virt + i) ==> FrameAt(m.tables, root, virt + i) in m.data
    ensures FlatWrite(m, root, virt, src, i) ==
            var f := FrameAt(m.tables, root, virt + i);
            if !Mapped(m.tables, root, virt + i) then (m, Failed)
            else if ProvidePhys(f).None? then (m, Panic)
            else FlatWrite(Spliced(m, f, (virt + i) % PAGE_SIZE, src[i..i + s]), root, virt, src, i + s)
  {
    if Mapped(m.tables, root, virt + i) && ProvidePhys(FrameAt(m.tables, root, virt + i)).Some? {
      ChunkIsFlat(m, root, virt, src, i, s);
    }
  }

  lemma {:induction false} FlatDone(m: Mem, root: nat, virt: nat, src: seq<byte>)
    ensures FlatWrite(m, root, virt, src, |src|) == (m, Ok)
  {
  }

  /** `vmm_copy_to`: page by page it does exactly what the flat write does. */
  method CopyTo(proc: Process, virt: nat, src: seq<byte>) returns (r: Outcome)
    requires proc.spaces.Valid() && IsRoot(proc.spaces.Abs(), proc.root) && virt + |src| <= USER_REGION_SIZE
    requires PlainMemory(proc.spaces.Abs(), proc.root, virt, |src|)
    modifies proc.spaces
    ensures proc.spaces.Valid() && proc.spaces.tables == old(proc.spaces.tables)
            && proc.spaces.place == old(proc.spaces.place)
    ensures (proc.spaces.Abs(), r) == FlatWrite(old(proc.spaces.Abs()), proc.root, virt, src, 0)
  {
    hide Tree, Leaf, Conserved, FlatWrite, Spliced;
    ghost var m := proc.spaces.Abs();
    var v, left := virt, |src|;
    r := Ok;
    while left > 0
      invariant r == Ok && 0 <= left <= |src| && v == virt + |src| - left
      invariant proc.spaces.Valid() && proc.spaces.tables == old(proc.spaces.tables)
              && proc.spaces.place == old(proc.spaces.place)
      invariant proc.spaces.data.Keys == old(proc.spaces.data.Keys)
      invariant FlatWrite(m, proc.root, virt, src, 0) ==
              FlatWrite(proc.spaces.Abs(), proc.root, virt, src, |src| - left)
    {
      var off := v % PAGE_SIZE;
      var s := if left < PAGE_SIZE - off then left else PAGE_SIZE - off;
      ghost var n, i := proc.spaces.Abs(), |src| - left;
      FlatStep(n, proc.root, virt, src, i, s);
      r := WriteChunk(proc, v, src[|src| - left..|src| - left + s]);
      if r != Ok {
        return;
      }
      v, left := v + s, left - s;
    }
    FlatDone(proc.spaces.Abs(), proc.root, virt, src);
  }

  /** `vmm_clear`: the flat write of zeros. */
  method Clear(proc: Process, virt: nat, size: nat) returns (r: Outcome)
    requires proc.spaces.Valid() && IsRoot(proc.spaces.Abs(), proc.root) && virt + size <= USER_REGION_SIZE
    requires PlainMemory(proc.spaces.Abs(), proc.root, virt, size)
    modifies proc.spaces
    ensures proc.spaces.Valid() && proc.spaces.tables == old(proc.spaces.tables)
            && proc.spaces.place == old(proc.spaces.place)
    ensures (proc.spaces.Abs(), r) == FlatWrite(old(proc.spaces.Abs()), proc.root, virt, Zeros(size), 0)
  {
    ghost var zeros := Zeros(size);
    hide Tree, Leaf, Conserved, FlatWrite, Spliced;
    ghost var m := proc.spaces.Abs();
    var v, left := virt, size;
    r := Ok;
    while left > 0
      invariant r == Ok && 0 <= left <= |zeros| && v == virt + |zeros| - left
      invariant proc.spaces.Valid() && proc.spaces.tables == old(proc.spaces.tables)
              && proc.spaces.place == old(proc.spaces.place)
      invariant proc.spaces.data.Keys == old(proc.spaces.data.Keys)
      invariant FlatWrite(m, proc.root, virt, zeros, 0) ==
              FlatWrite(proc.spaces.Abs(), proc.root, virt, zeros, |zeros| - left)
    {
      var off := v % PAGE_SIZE;
      var s := if left < PAGE_SIZE - off then left else PAGE_SIZE - off;
      ghost var n, i := proc.spaces.Abs(), |zeros| - left;
      FlatStep(n, proc.root, virt, zeros, i, s);
      assert zeros[i..i + s] == Zeros(s);
      r := WriteChunk(proc, v, Zeros(s));
      if r != Ok {
        return;
      }
      v, left := v + s, left - s;
    }
    FlatDone(proc.spaces.Abs(), proc.root, virt, zeros);
  }

  function Zeros(n: nat): (z: seq<byte>)
    ensures |z| == n && forall i :: 0 <= i < n ==> z[i] == 0
  {
    seq(n, _ => 0)
  }

  /** Only bytes of plain memory change. */
  lemma {:induction false} FlatWriteKeeps(m: Mem, root: nat, virt: nat, src: seq<byte>, i: nat)
    requires Good(m)
    ensures var n := FlatWrite(m, root, virt, src, i).0;
            Good(n) && n.tables == m.tables && n.place == m.place && n.free == m.free && n.data.Keys == m.data.Keys
    decreases |src| - i
  {
    hide Good, Leaf, Spliced;
    if i < |src| && Mapped(m.tables, root, virt + i) {
      var f := FrameAt(m.tables, root, virt + i);
      if ProvidePhys(f).Some? {
        SplicedKeeps(m, f, (virt + i) % PAGE_SIZE, [src[i]]);
        FlatWriteKeeps(Spliced(m, f, (virt + i) % PAGE_SIZE, [src[i]]), root, virt, src, i + 1);
      }
    }
  }

  /** Every page of the range is mapped to a frame that the kernel can reach. */
  ghost predicate Reachable(t: Tables, root: nat, lo: nat, hi: nat) {
    forall v: nat | lo <= v < hi :: Mapped(t, root, v) && ProvidePhys(FrameAt(t, root, v)).Some?
  }

  /** The write succeeds exactly when every page of the range can be reached. */
  lemma {:induction false} FlatWriteSucceeds(m: Mem, root: nat, virt: nat, src: seq<byte>, i: nat)
    requires i <= |src|
    ensures FlatWrite(m, root, virt, src, i).1 == Ok <==> Reachable(m.tables, root, virt + i, virt + |src|)
    decreases |src| - i
  {
    hide Mapped, FrameAt, ProvidePhys;
    if i < |src| && Mapped(m.tables, root, virt + i) && ProvidePhys(FrameAt(m.tables, root, virt + i)).Some? {
      FlatWriteSucceeds(Spliced(m, FrameAt(m.tables, root, virt + i), (virt + i) % PAGE_SIZE, [src[i]]), root,
        virt, src, i + 1);
    }
  }

  /** The byte at offset `o` of frame `f` is not behind any address of the range. */
  ghost predicate Untouched(t: Tables, root: nat, lo: nat, hi: nat, f: nat, o: nat) {
    forall v: nat | lo <= v < hi :: !(FrameAt(t, root, v) == f && v % PAGE_SIZE == o)
  }

  /** A write changes no byte of memory but those behind its range. */
  lemma {:induction false} FlatWriteElsewhere(m: Mem, root: nat, virt: nat, src: seq<byte>, i: nat, f: nat, o: nat)
    requires Good(m) && f in m.data && o < PAGE_SIZE && Untouched(m.tables, root, virt + i, virt + |src|, f, o)
    ensures f in FlatWrite(m, root, virt, src, i).0.data && |FlatWrite(m, root, virt, src, i).0.data[f]| == PAGE_SIZE
    ensures FlatWrite(m, root, virt, src, i).0.data[f][o] == m.data[f][o]
    decreases |src| - i
  {
    hide Tree, Leaf;
    if i < |src| && Mapped(m.tables, root, virt + i) {
      var g := FrameAt(m.tables, root, virt + i);
      if ProvidePhys(g).Some? {
        var n := Spliced(m, g, (virt + i) % PAGE_SIZE, [src[i]]);
        SplicedKeeps(m, g, (virt + i) % PAGE_SIZE, [src[i]]);
        FlatWriteElsewhere(n, root, virt, src, i + 1, f, o);
      }
    }
  }

  /** Different pages of the range lead to different frames, all of them plain memory. */
  ghost predicate DistinctFrames(m: Mem, root: nat, lo: nat, hi: nat) {
    forall v: nat, w: nat | lo <= v < hi && lo <= w < hi ::
      FrameAt(m.tables, root, v) in m.data
        && (v / PAGE_SIZE != w / PAGE_SIZE ==> FrameAt(m.tables, root, v) != FrameAt(m.tables, root, w))
  }

  /** After a successful write to distinct frames, every byte of the range reads back. */
  lemma {:induction false} FlatWriteReads(m: Mem, root: nat, virt: nat, src: seq<byte>, i: nat, j: nat)
    requires Good(m) && i <= j < |src|
    requires FlatWrite(m, root, virt, src, i).1 == Ok && DistinctFrames(m, root, virt, virt + |src|)
    ensures ByteAt(FlatWrite(m, root, virt, src, i).0, root, virt + j) == src[j]
    decreases |src| - i
  {
    hide Tree, Leaf;
    var f, off := FrameAt(m.tables, root, virt + i), (virt + i) % PAGE_SIZE;
    var n := Spliced(m, f, off, [src[i]]);
    SplicedKeeps(m, f, off, [src[i]]);
    if i < j {
      FlatWriteReads(n, root, virt, src, i + 1, j);
    } else {
      forall v: nat | virt + i + 1 <= v < virt + |src|
        ensures !(FrameAt(n.tables, root, v) == f && v % PAGE_SIZE == off)
      {
        if v / PAGE_SIZE == (virt + i) / PAGE_SIZE {
          assert v % PAGE_SIZE != off;
        }
      }
      FlatWriteElsewhere(n, root, virt, src, i + 1, f, off);
      FlatWriteKeeps(n, root, virt, src, i + 1);
    }
  }
}
