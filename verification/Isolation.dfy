/**
 * Many processes on one memory: over any run, the memory that one process allocated is its own, and a copy into it
 * changes nothing that was allocated elsewhere.
 */
module Isolation {
  import opened Layout
  import opened FreeMap
  import opened PhysicalPages
  import opened PageTables
  import opened VirtualMemory
  import opened UserMemory

  /** A user page of an address space. */
  datatype Page = Page(root: nat, number: nat)

  /**
   * The memory, the pages that were mapped by `vmm_alloc`, and the frames that the kernel took from the page
   * allocator for itself.
   */
  datatype World = World(m: Mem, own: set<Page>, kernel: set<nat>)

  datatype Op =
    | NewSpace(row: seq<Word>, kernelHalf: seq<Word>)
    | Alloc(root: nat, lo: nat, hi: nat, flags: Flags)
    | Map(root: nat, lo: nat, frames: seq<nat>, flags: Flags)
    | Write(root: nat, virt: nat, src: seq<byte>)
    | Take
    | GiveBack(frame: nat)

  ghost function FrameBehind(m: Mem, x: Page): nat {
    FrameOf(m, x.root, x.number)
  }

  // ---------------------------------------------------------------------------------------------- the steps

  /** What an operation finds when it is called: address spaces that exist, and a range that was free. */
  ghost predicate Possible(w: World, op: Op) {
    match op
    case NewSpace(row, kernelHalf) => RootRow(row, kernelHalf)
    case Alloc(root, lo, hi, _) => IsRoot(w.m, root) && lo <= hi <= USER_PAGES && Unmapped(w.m, root, lo, hi)
    case Map(root, lo, frames, _) =>
      && IsRoot(w.m, root) && lo + |frames| <= USER_PAGES && Unmapped(w.m, root, lo, lo + |frames|)
      && Addresses(frames)
    case Write(root, virt, src) =>
      IsRoot(w.m, root) && virt + |src| <= USER_REGION_SIZE && PlainMemory(w.m, root, virt, |src|)
    case Take => true
    case GiveBack(frame) => frame in w.kernel
  }

  /** The mapped pages of a range. */
  ghost function MappedIn(m: Mem, root: nat, lo: nat, hi: nat): set<Page> {
    set p: nat | lo <= p < hi && Walk(m.tables, root, p) != EMPTY :: Page(root, p)
  }

  ghost function Step(w: World, op: Op): World {
    if !Possible(w, op) then w
    else
      match op
      case NewSpace(row, _) => if w.m.free == [] then w else w.(m := WithSpace(w.m, row))
      case Alloc(root, lo, hi, flags) =>
        var n := AllocFrom(w.m, root, lo, hi, flags).0;
        w.(m := n, own := w.own + MappedIn(n, root, lo, hi))
      case Map(root, lo, frames, flags) => w.(m := MapFrom(w.m, root, lo, frames, 0, flags).0)
      case Write(root, virt, src) => w.(m := FlatWrite(w.m, root, virt, src, 0).0)
      case Take =>
        if w.m.free == [] then w
        else w.(m := w.m.(free := w.m.free[1..]), kernel := w.kernel + {w.m.free[0]})
      case GiveBack(frame) => w.(m := w.m.(free := [frame] + w.m.free), kernel := w.kernel - {frame})
  }

  ghost function Run(w: World, ops: seq<Op>): World
    decreases |ops|
  {
    if ops == [] then w else Run(Step(w, ops[0]), ops[1..])
  }

  // ---------------------------------------------------------------------------------------------- the invariant

  /** The page leads to a frame of plain memory that is handed out. */
  ghost predicate Backed(m: Mem, x: Page) {
    && IsRoot(m, x.root) && x.number < USER_PAGES && Walk(m.tables, x.root, x.number) != EMPTY
    && FrameBehind(m, x) in m.data && FrameBehind(m, x) !in m.free && UsableFrame(FrameBehind(m, x))
  }

  /** No two of the pages share a frame, and none lies in a frame of the kernel. */
  ghost predicate Private(m: Mem, own: set<Page>, kernel: set<nat>) {
    && (forall x | x in own :: Backed(m, x) && FrameBehind(m, x) !in kernel)
    && (forall x, y | x in own && y in own && x != y :: FrameBehind(m, x) != FrameBehind(m, y))
  }

  ghost predicate KernelHas(m: Mem, kernel: set<nat>) {
    forall f | f in kernel :: f in m.data && f !in m.free && UsableFrame(f)
  }

  ghost predicate Inv(w: World) {
    Good(w.m) && Private(w.m, w.own, w.kernel) && KernelHas(w.m, w.kernel)
  }

  /** Frames moved from the free list to the tables, and the pages are translated as before. */
  lemma {:induction false} MovedPrivate(m: Mem, n: Mem, own: set<Page>, kernel: set<nat>)
    requires Private(m, own, kernel) && KernelHas(m, kernel) && Moved(m, n)
    requires forall x | x in own :: Walk(n.tables, x.root, x.number) == Walk(m.tables, x.root, x.number)
    ensures Private(n, own, kernel) && KernelHas(n, kernel)
  {
    hide Walk, UsableFrame, SameKernelHalf;
    assert forall f | f in n.free :: f in m.free;
    forall x | x in own
      ensures Backed(n, x) && FrameBehind(n, x) == FrameBehind(m, x)
    {
      assert Backed(m, x);
    }
  }

  /** One page of an allocation: it got the first free frame. */
  lemma {:induction false} AddPage(m: Mem, l: Mem, root: nat, p: nat, own: set<Page>, kernel: set<nat>)
    requires Good(m) && m.free != [] && Private(m, own, kernel) && KernelHas(m, kernel)
    requires Private(l, own, kernel) && IsRoot(l, root) && p < USER_PAGES
    requires forall y | y in own :: FrameBehind(l, y) == FrameBehind(m, y)
    requires Walk(l.tables, root, p) != EMPTY && FrameOf(l, root, p) == m.free[0]
    requires m.free[0] in l.data && m.free[0] !in l.free
    ensures Private(l, own + {Page(root, p)}, kernel)
  {
    hide Walk, UsableFrame, FrameOf, Tree, AllWords;
    var x := Page(root, p);
    assert m.free[0] in m.free && FrameBehind(l, x) == m.free[0];
    forall y | y in own
      ensures FrameBehind(l, y) != m.free[0]
    {
      assert Backed(m, y);
    }
  }

  /** Pages that were mapped stay mapped to their frames while others are mapped. */
  lemma {:induction false} SameFrames(m: Mem, n: Mem, root: nat, lo: nat, hi: nat, own: set<Page>, kernel: set<nat>)
    requires Private(m, own, kernel) && Unmapped(m, root, lo, hi) && Grew(m, n, root, lo, hi)
    ensures forall x | x in own :: Walk(n.tables, x.root, x.number) == Walk(m.tables, x.root, x.number)
    ensures forall x | x in own :: FrameBehind(n, x) == FrameBehind(m, x)
  {
    hide Walk, Moved, Good, UsableFrame;
    forall x | x in own
      ensures Walk(n.tables, x.root, x.number) == Walk(m.tables, x.root, x.number)
    {
      assert Backed(m, x);
    }
  }

  /** Mapping pages that were not mapped before. */
  lemma {:induction false} GrewPrivate(m: Mem, n: Mem, root: nat, lo: nat, hi: nat, own: set<Page>, kernel: set<nat>)
    requires Private(m, own, kernel) && KernelHas(m, kernel) && Unmapped(m, root, lo, hi) && Grew(m, n, root, lo, hi)
    ensures Private(n, own, kernel) && KernelHas(n, kernel)
  {
    hide Walk, Moved, Good, UsableFrame, Private, KernelHas, SameOutside;
    SameFrames(m, n, root, lo, hi, own, kernel);
    MovedPrivate(m, n, own, kernel);
  }

  lemma {:induction false} StillMapped(l: Mem, n: Mem, root: nat, p: nat, hi: nat)
    requires Grew(l, n, root, p + 1, hi) && IsRoot(l, root) && p < hi && p < USER_PAGES
    requires Walk(l.tables, root, p) != EMPTY
    ensures MappedIn(n, root, p, hi) == {Page(root, p)} + MappedIn(n, root, p + 1, hi)
  {
    hide Walk, Moved, Good;
  }

  /** Whatever its outcome, an allocation maps pages to frames of their own. */
  lemma {:induction false} AllocPrivate(m: Mem, root: nat, p: nat, hi: nat, flags: Flags, own: set<Page>,
      kernel: set<nat>)
    requires Good(m) && IsRoot(m, root) && p <= hi <= USER_PAGES && Unmapped(m, root, p, hi)
    requires Private(m, own, kernel) && KernelHas(m, kernel)
    ensures var n := AllocFrom(m, root, p, hi, flags).0;
            Good(n) && Private(n, own + MappedIn(n, root, p, hi), kernel) && KernelHas(n, kernel)
    decreases hi - p
  {
    hide ProcMap, Walk, Good, Moved, SameOutside, Private, KernelHas, UsableFrame, Grew;
    var n := AllocFrom(m, root, p, hi, flags).0;
    if p == hi || m.free == [] {
      assert own + MappedIn(n, root, p, hi) == own;
    } else {
      AllocOne(m, root, p, hi, flags);
      var (l, ok) := ProcMap(m.(free := m.free[1..]), root, p, m.free[0], flags);
      FirstUnmapped(m, root, p, hi);
      GrewGood(m, l, root, p, p + 1);
      GrewPrivate(m, l, root, p, p + 1, own, kernel);
      SameFrames(m, l, root, p, p + 1, own, kernel);
      if ok {
        AddPage(m, l, root, p, own, kernel);
        var more := own + {Page(root, p)};
        AllocPrivate(l, root, p + 1, hi, flags, more, kernel);
        AllocFromKeeps(l, root, p + 1, hi, flags);
        StillMapped(l, n, root, p, hi);
        assert own + MappedIn(n, root, p, hi) == more + MappedIn(n, root, p + 1, hi);
      } else {
        NoneMapped(l, root, p, hi);
        assert own + MappedIn(n, root, p, hi) == own;
      }
    }
  }

  lemma {:induction false} FirstUnmapped(m: Mem, root: nat, p: nat, hi: nat)
    requires Unmapped(m, root, p, hi) && p < hi
    ensures Unmapped(m, root, p, p + 1)
  {
  }

  lemma {:induction false} NoneMapped(l: Mem, root: nat, p: nat, hi: nat)
    requires Walk(l.tables, root, p) == EMPTY && Unmapped(l, root, p + 1, hi)
    ensures MappedIn(l, root, p, hi) == {}
  {
    hide Walk;
  }

  // ---------------------------------------------------------------------------------------------- every step

  lemma {:induction false} WritePrivate(m: Mem, n: Mem, own: set<Page>, kernel: set<nat>)
    requires Private(m, own, kernel) && KernelHas(m, kernel)
    requires n.tables == m.tables && n.place == m.place && n.free == m.free && n.data.Keys == m.data.Keys
    ensures Private(n, own, kernel) && KernelHas(n, kernel)
  {
    hide Walk, UsableFrame;
    forall x | x in own
      ensures Backed(n, x) && FrameBehind(n, x) == FrameBehind(m, x)
    {
      assert Backed(m, x) && (FrameBehind(m, x) in m.data.Keys <==> FrameBehind(m, x) in n.data.Keys);
    }
    assert forall f | f in kernel :: f in m.data.Keys <==> f in n.data.Keys;
  }

  /** The frames of the kernel's own come and go through the same list. */
  lemma {:induction false} KernelSteps(w: World, op: Op)
    requires Inv(w) && (op.Take? || op.GiveBack?)
    ensures Inv(Step(w, op))
  {
    hide Walk, UsableFrame, Tree, AllWords;
    var v := Step(w, op);
    if w.m.free != [] {
      assert w.m.free[0] in w.m.free;
    }
    forall x | x in w.own
      ensures Backed(v.m, x) && FrameBehind(v.m, x) == FrameBehind(w.m, x) && FrameBehind(v.m, x) !in v.kernel
    {
      assert Backed(w.m, x);
    }
  }

  lemma {:induction false} SpacePrivate(w: World, row: seq<Word>, kernelHalf: seq<Word>)
    requires Inv(w) && RootRow(row, kernelHalf) && w.m.free != []
    ensures Inv(w.(m := WithSpace(w.m, row)))
  {
    hide Good, Private, KernelHas, Moved, WithSpace, RootRow;
    NewSpaceIsEmpty(w.m, row, kernelHalf);
    SameWalksOwn(w.m, WithSpace(w.m, row), w.own, w.kernel);
    MovedPrivate(w.m, WithSpace(w.m, row), w.own, w.kernel);
  }

  lemma {:induction false} SameWalksOwn(m: Mem, n: Mem, own: set<Page>, kernel: set<nat>)
    requires Private(m, own, kernel) && SameWalks(m, n)
    ensures forall x | x in own :: Walk(n.tables, x.root, x.number) == Walk(m.tables, x.root, x.number)
  {
    hide UsableFrame;
    forall x | x in own
      ensures Walk(n.tables, x.root, x.number) == Walk(m.tables, x.root, x.number)
    {
      assert Backed(m, x);
      PathIsInjective(x.number, x.number);
    }
  }

  lemma {:induction false} StepKeeps(w: World, op: Op)
    requires Inv(w)
    ensures Inv(Step(w, op))
  {
    hide Good, Private, KernelHas, Walk, Moved, Unmapped, AllocFrom, MapFrom, FlatWrite, MappedIn, PlainMemory, RootRow;
    if Possible(w, op) {
      match op
      case NewSpace(row, kernelHalf) =>
        if w.m.free != [] {
          SpacePrivate(w, row, kernelHalf);
        }
      case Alloc(root, lo, hi, flags) => AllocPrivate(w.m, root, lo, hi, flags, w.own, w.kernel);
      case Map(root, lo, frames, flags) =>
        var n := MapFrom(w.m, root, lo, frames, 0, flags).0;
        MapFromKeeps(w.m, root, lo, frames, 0, flags);
        GrewGood(w.m, n, root, lo, lo + |frames|);
        GrewPrivate(w.m, n, root, lo, lo + |frames|, w.own, w.kernel);
      case Write(root, virt, src) =>
        FlatWriteKeeps(w.m, root, virt, src, 0);
        WritePrivate(w.m, FlatWrite(w.m, root, virt, src, 0).0, w.own, w.kernel);
      case _ => KernelSteps(w, op);
    }
  }

  lemma {:induction false} RunKeeps(w: World, ops: seq<Op>)
    requires Inv(w)
    ensures Inv(Run(w, ops))
    decreases |ops|
  {
    hide Inv, Step;
    if ops != [] {
      StepKeeps(w, ops[0]);
      RunKeeps(Step(w, ops[0]), ops[1..]);
    }
  }

  // ---------------------------------------------------------------------------------------------- the results

  /** The memory when nothing was allocated yet. */
  ghost predicate Fresh(w: World) {
    Good(w.m) && w.own == {} && w.kernel == {}
  }

  /**
   * After any run the pages that were allocated, in all address spaces together, have frames of their own: no two
   * share one, and none is free, a page table, or the kernel's.
   */
  lemma {:induction false} FramesAreOwn(w0: World, ops: seq<Op>, x: Page, y: Page)
    requires Fresh(w0) && x in Run(w0, ops).own && y in Run(w0, ops).own
    ensures var w := Run(w0, ops);
            var f := FrameBehind(w.m, x);
            && f in w.m.data && f !in w.m.tables && f !in w.m.free && f !in w.kernel && UsableFrame(f)
            && (x != y ==> f != FrameBehind(w.m, y))
  {
    hide Run, Walk, UsableFrame, Tree, AllWords;
    RunKeeps(w0, ops);
    assert Backed(Run(w0, ops).m, x);
  }

  /** All pages of the range were allocated by the process. */
  ghost predicate OwnRange(w: World, root: nat, lo: nat, hi: nat) {
    forall v: nat | lo <= v < hi :: Page(root, v / PAGE_SIZE) in w.own
  }

  lemma {:induction false} OwnAddress(w: World, root: nat, lo: nat, hi: nat, v: nat)
    requires Inv(w) && OwnRange(w, root, lo, hi) && lo <= v < hi
    ensures IsRoot(w.m, root) && v < USER_REGION_SIZE && Mapped(w.m.tables, root, v)
    ensures FrameAt(w.m.tables, root, v) in w.m.data && ProvidePhys(FrameAt(w.m.tables, root, v)).Some?
    ensures FrameAt(w.m.tables, root, v) == FrameBehind(w.m, Page(root, v / PAGE_SIZE))
  {
    hide Walk, Tree, AllWords;
    assert Backed(w.m, Page(root, v / PAGE_SIZE));
  }

  /** So the range can be written, and different pages of it lead to different frames. */
  lemma {:induction false} OwnRangeIsGood(w: World, root: nat, lo: nat, hi: nat)
    requires Inv(w) && OwnRange(w, root, lo, hi) && lo <= hi
    ensures Reachable(w.m.tables, root, lo, hi) && DistinctFrames(w.m, root, lo, hi)
    ensures PlainMemory(w.m, root, lo, hi - lo)
    ensures lo < hi ==> IsRoot(w.m, root) && hi <= USER_REGION_SIZE
  {
    hide Inv, Mapped, FrameAt, FrameBehind, ProvidePhys;
    forall v: nat | lo <= v < hi
      ensures Mapped(w.m.tables, root, v) && ProvidePhys(FrameAt(w.m.tables, root, v)).Some?
      ensures FrameAt(w.m.tables, root, v) in w.m.data
    {
      OwnAddress(w, root, lo, hi, v);
    }
    forall v: nat, u: nat | lo <= v < hi && lo <= u < hi && v / PAGE_SIZE != u / PAGE_SIZE
      ensures FrameAt(w.m.tables, root, v) != FrameAt(w.m.tables, root, u)
    {
      OwnAddress(w, root, lo, hi, v);
      OwnAddress(w, root, lo, hi, u);
      OwnFrames(w, Page(root, v / PAGE_SIZE), Page(root, u / PAGE_SIZE));
    }
    if lo < hi {
      OwnAddress(w, root, lo, hi, hi - 1);
    }
  }

  lemma {:induction false} OwnFrames(w: World, x: Page, y: Page)
    requires Inv(w) && x in w.own && y in w.own && x != y
    ensures FrameBehind(w.m, x) != FrameBehind(w.m, y)
  {
    hide Good, FrameBehind, Backed;
  }

  /** No byte of another page, nor another byte of the same page, lies behind the range. */
  lemma {:induction false} OthersUntouched(w: World, root: nat, lo: nat, hi: nat, x: Page, v: nat)
    requires Inv(w) && OwnRange(w, root, lo, hi) && x in w.own && v / PAGE_SIZE == x.number
    requires !(x.root == root && lo <= v < hi)
    ensures Untouched(w.m.tables, root, lo, hi, FrameBehind(w.m, x), v % PAGE_SIZE)
  {
    hide Inv, FrameAt, FrameBehind;
    forall u: nat | lo <= u < hi
      ensures !(FrameAt(w.m.tables, root, u) == FrameBehind(w.m, x) && u % PAGE_SIZE == v % PAGE_SIZE)
    {
      OwnAddress(w, root, lo, hi, u);
      if Page(root, u / PAGE_SIZE) != x {
        OwnFrames(w, Page(root, u / PAGE_SIZE), x);
      } else {
        assert u == u / PAGE_SIZE * PAGE_SIZE + u % PAGE_SIZE && v == v / PAGE_SIZE * PAGE_SIZE + v % PAGE_SIZE;
      }
    }
  }

  /**
   * After any run, writing to memory that a process allocated succeeds; of all the memory that all processes
   * allocated, exactly the bytes of the range change, to what was written.
   */
  lemma {:induction false} WritesAreIsolated(w0: World, ops: seq<Op>, root: nat, virt: nat, src: seq<byte>,
      x: Page, v: nat)
    requires Fresh(w0) && OwnRange(Run(w0, ops), root, virt, virt + |src|)
    requires x in Run(w0, ops).own && v / PAGE_SIZE == x.number
    ensures var w := Run(w0, ops);
            var (n, r) := FlatWrite(w.m, root, virt, src, 0);
            && r == Ok && (src != [] ==> Step(w, Write(root, virt, src)).m == n)
            && ByteAt(n, x.root, v) ==
               if x.root == root && virt <= v < virt + |src| then src[v - virt] else ByteAt(w.m, x.root, v)
  {
    hide Run, Inv, FlatWrite, Reachable, DistinctFrames, Untouched, PlainMemory, OwnRange, FrameBehind;
    var w := Run(w0, ops);
    var n := FlatWrite(w.m, root, virt, src, 0).0;
    FreshRun(w0, ops);
    OwnRangeIsGood(w, root, virt, virt + |src|);
    FlatWriteSucceeds(w.m, root, virt, src, 0);
    if x.root == root && virt <= v < virt + |src| {
      FlatWriteReads(w.m, root, virt, src, 0, v - virt);
    } else {
      OthersUntouched(w, root, virt, virt + |src|, x, v);
      SameByte(w, root, virt, src, x, v);
    }
  }

  lemma {:induction false} FreshRun(w0: World, ops: seq<Op>)
    requires Fresh(w0)
    ensures Inv(Run(w0, ops)) && Good(Run(w0, ops).m)
  {
    hide Run, Good;
    RunKeeps(w0, ops);
  }

  lemma {:induction false} SameByte(w: World, root: nat, virt: nat, src: seq<byte>, x: Page, v: nat)
    requires Inv(w) && x in w.own && v / PAGE_SIZE == x.number
    requires Untouched(w.m.tables, root, virt, virt + |src|, FrameBehind(w.m, x), v % PAGE_SIZE)
    ensures ByteAt(FlatWrite(w.m, root, virt, src, 0).0, x.root, v) == ByteAt(w.m, x.root, v)
  {
    hide Walk, Tree, AllWords, FlatWrite, Untouched, UsableFrame;
    assert Backed(w.m, x);
    FlatWriteElsewhere(w.m, root, virt, src, 0, FrameBehind(w.m, x), v % PAGE_SIZE);
    FlatWriteKeeps(w.m, root, virt, src, 0);
  }

  // ---------------------------------------------------------------------------------------------- on the objects

  lemma {:induction false} RunSnoc(w: World, ops: seq<Op>, op: Op)
    ensures Run(w, ops + [op]) == Step(Run(w, ops), op)
    decreases |ops|
  {
    hide Step;
    if ops == [] {
      assert [op][1..] == [];
      assert Run(Step(w, op), []) == Step(w, op);
      assert ([] + [op]) == [op];
    } else {
      assert (ops + [op])[0] == ops[0] && (ops + [op])[1..] == ops[1..] + [op];
      RunSnoc(Step(w, ops[0]), ops[1..], op);
    }
  }

  /** The operations on the page tables, page allocator and memory of all processes, as steps of one run. */
  class SharedMemory {
    const spaces: AddressSpaces
    /** The memory when the first operation was called, and the operations since. */
    ghost const start: World
    ghost var ops: seq<Op>

    ghost function Abs(): World
      reads this`ops
    {
      Run(start, ops)
    }

    ghost predicate Valid()
      reads this, spaces, spaces.pmm, spaces.pmm.table
    {
      spaces.Valid() && Fresh(start) && Abs().m == spaces.Abs()
    }

    constructor (spaces: AddressSpaces)
      requires spaces.Valid()
      ensures Valid() && this.spaces == spaces && ops == []
    {
      this.spaces, ops := spaces, [];
      start := World(spaces.Abs(), {}, {});
    }

    /** Records an operation that has just been carried out. */
    ghost method Record(op: Op)
      requires spaces.Valid() && Fresh(start) && Step(Abs(), op).m == spaces.Abs()
      modifies this`ops
      ensures Valid() && ops == old(ops) + [op] && Abs() == Step(old(Abs()), op)
    {
      hide Run, Step, Good, Conserved;
      RunSnoc(start, ops, op);
      ops := ops + [op];
    }

    /** A new process; `kernel` is the kernel's root table. */
    method CreateSpace(kernel: seq<Word>, memory: bool) returns (root: nat)
      requires Valid() && |kernel| == 512 && forall i :: 0 <= i < 512 ==> IsWord(kernel[i])
      modifies this`ops, spaces, spaces.pmm
      ensures Valid() && Abs().own == old(Abs()).own
      ensures root == 0 ==> ops == old(ops)
      ensures root != 0 ==> IsRoot(spaces.Abs(), root) && ops == old(ops) + [NewSpace(spaces.tables[root], kernel)]
    {
      hide Run, Good, Conserved, IsWord, RootRow, Moved, SameWalks, Walk;
      root := spaces.Create(kernel, memory);
      if root != 0 {
        Record(NewSpace(spaces.tables[root], kernel));
      }
    }

    /** `vmm_alloc`: on success all pages of the range are the process's own. */
    method Allocate(proc: Process, at: nat, size: nat, fixed: bool, flags: Flags, entries: nat)
        returns (r: Outcome, base: nat, ghost lo: nat, ghost hi: nat)
      requires Valid() && proc.Valid() && proc.spaces == spaces && (fixed ==> size > 0 && at + size <= ADDRESS_SPACE)
      modifies this`ops, spaces, spaces.pmm, proc.freeMap
      ensures Valid() && proc.Valid() && ops == old(ops) + [Alloc(proc.root, lo, hi, flags)]
      ensures r == Ok ==> base + size == hi * PAGE_SIZE && OwnRange(Abs(), proc.root, base, base + size)
    {
      hide Run, Good, Conserved, UserRegions, AllocFrom, Unmapped, Grew, MappedTo, Taken, FirstFit, Walk;
      r, base, lo, hi := proc.Alloc(at, size, fixed, flags, entries);
      ghost var m := Abs().m;
      Record(Alloc(proc.root, lo, hi, flags));
      if r == Ok {
        MappedAreOwn(spaces.Abs(), proc.root, lo, hi, m.free, flags);
        PagesAreRange(Abs(), proc.root, lo, hi, base, size);
      }
    }

    /** `vmm_map` */
    method MapFrames(proc: Process, phys: nat, size: nat, flags: Flags, entries: nat)
        returns (r: Outcome, base: nat, ghost lo: nat, ghost hi: nat, ghost frames: seq<nat>)
      requires Valid() && proc.Valid() && proc.spaces == spaces && phys < ADDRESS_SPACE
      modifies this`ops, spaces, spaces.pmm, proc.freeMap
      ensures Valid() && proc.Valid() && lo <= hi
      ensures |frames| == hi - lo && forall k :: 0 <= k < |frames| ==>
              frames[k] == (phys + k * PAGE_SIZE) % ADDRESS_SPACE
      ensures ops == old(ops) + [Map(proc.root, lo, frames, flags)]
    {
      hide Run, Good, Conserved, UserRegions, MapFrom, Unmapped, Grew, MappedEach, MappedAsGiven, MappedFrom,
        Taken, FirstFit,
        Walk, FramesFrom;
      r, base, lo, hi := proc.Map(phys, size, flags, entries);
      frames := FramesFrom(phys, hi - lo);
      FrameNumbers(phys, hi - lo);
      Record(Map(proc.root, lo, frames, flags));
    }

    /** `vmm_map_shmem` */
    method MapShared(proc: Process, blocks: seq<seq<nat>>, size: nat, flags: Flags, entries: nat)
        returns (r: Outcome, base: nat, ghost lo: nat, ghost hi: nat, ghost frames: seq<nat>)
      requires Valid() && proc.Valid() && proc.spaces == spaces
      requires |Pages(blocks)| * PAGE_SIZE <= size && Addresses(Pages(blocks))
      modifies this`ops, spaces, spaces.pmm, proc.freeMap
      ensures Valid() && proc.Valid()
      ensures InOrder(frames, blocks)
      ensures ops == old(ops) + if lo < hi then [Map(proc.root, lo, frames, flags)] else []
    {
      hide Run, Good, Conserved, UserRegions, MapFrom, Unmapped, Grew, MappedEach, BlocksMapped, Taken, FirstFit, Walk,
        Pages, Addresses, InOrder;
      r, base, lo, hi := proc.MapShmem(blocks, size, flags, entries);
      frames := Pages(blocks);
      PagesInOrder(blocks);
      if lo < hi {
        UnmappedPart(Abs().m, proc.root, lo, lo + |Pages(blocks)|, hi);
        Record(Map(proc.root, lo, Pages(blocks), flags));
      }
    }

    /** `vmm_copy_to` */
    method CopyTo(proc: Process, virt: nat, src: seq<byte>) returns (r: Outcome)
      requires Valid() && proc.Valid() && proc.spaces == spaces && virt + |src| <= USER_REGION_SIZE
      requires PlainMemory(spaces.Abs(), proc.root, virt, |src|)
      modifies this`ops, spaces
      ensures Valid() && ops == old(ops) + [Write(proc.root, virt, src)]
      ensures r == FlatWrite(old(spaces.Abs()), proc.root, virt, src, 0).1
    {
      hide Run, Good, Conserved, UserRegions, FlatWrite, PlainMemory, Walk;
      r := UserMemory.CopyTo(proc, virt, src);
      Record(Write(proc.root, virt, src));
    }

    /** `vmm_clear` */
    method Clear(proc: Process, virt: nat, size: nat) returns (r: Outcome)
      requires Valid() && proc.Valid() && proc.spaces == spaces && virt + size <= USER_REGION_SIZE
      requires PlainMemory(spaces.Abs(), proc.root, virt, size)
      modifies this`ops, spaces
      ensures Valid() && ops == old(ops) + [Write(proc.root, virt, Zeros(size))]
      ensures r == FlatWrite(old(spaces.Abs()), proc.root, virt, Zeros(size), 0).1
    {
      hide Run, Good, Conserved, UserRegions, FlatWrite, PlainMemory, Walk;
      r := UserMemory.Clear(proc, virt, size);
      Record(Write(proc.root, virt, Zeros(size)));
    }

    /** A page that the kernel takes for itself, for a slab or a stack; 0 when there is none. */
    method TakePage() returns (frame: nat)
      requires Valid()
      modifies this`ops, spaces.pmm
      ensures Valid() && (frame == 0 ==> ops == old(ops))
      ensures frame != 0 ==> ops == old(ops) + [Take] && frame in Abs().kernel
    {
      hide Run, Conserved, Walk, Good, UsableFrame;
      if spaces.pmm.FreePages() != [] {
        PopKeeps(spaces.Abs());
      }
      frame := spaces.pmm.Alloc();
      if frame != 0 {
        Record(Take);
      }
    }
  }

  lemma {:induction false} MappedAreOwn(n: Mem, root: nat, lo: nat, hi: nat, free: seq<nat>, flags: Flags)
    requires MappedTo(n, root, lo, hi, free, flags)
    ensures forall p: nat | lo <= p < hi :: Page(root, p) in MappedIn(n, root, lo, hi)
  {
    hide Walk;
  }

  lemma {:induction false} PagesAreRange(w: World, root: nat, lo: nat, hi: nat, base: nat, size: nat)
    requires base == lo * PAGE_SIZE && base + size == hi * PAGE_SIZE
    requires forall p: nat | lo <= p < hi :: Page(root, p) in w.own
    ensures OwnRange(w, root, base, base + size)
  {
    forall v: nat | base <= v < base + size
      ensures Page(root, v / PAGE_SIZE) in w.own
    {
      assert lo <= v / PAGE_SIZE < hi;
    }
  }
}
