/**
 * The four-level page tables: long-mode page translation with 4 KB pages, section 5.3 of volume 2 of
 * the AMD64 Architecture Programmer's Manual.
 */
module PageTables {
  import opened Layout
  import opened PhysicalPages
  import opened Seqs

  type byte = b: nat | b < 256

  /** A table word, split by PAGE_MASK into a frame address and the bits below it. */
  datatype Word = Word(frame: nat, bits: nat) {
    /** The number stored in memory; `|` of an aligned frame and low bits is their sum. */
    function Raw(): nat {
      frame + bits
    }
  }

  const EMPTY := Word(0, 0)

  /** The word is what PAGE_MASK makes of a 64-bit number. */
  predicate IsWord(w: Word) {
    w.frame % PAGE_SIZE == 0 && w.frame < ADDRESS_SPACE && w.bits < PAGE_SIZE
  }

  /** Splitting by PAGE_MASK loses nothing, so words can stand for the stored numbers. */
  lemma {:induction false} WordsAreNumbers(w: Word)
    requires IsWord(w)
    ensures w == Word(PageFloor(w.Raw()), PageOffset(w.Raw())) && w.Raw() < ADDRESS_SPACE
    ensures w.Raw() == 0 <==> w == EMPTY
  {
  }

  /** Table frames by physical address; each holds 512 words. */
  type Tables = map<nat, seq<Word>>

  /** Where a table frame sits: the address space it belongs to and the indices that lead to it. */
  datatype Place = Place(root: nat, path: seq<nat>)

  /** The mapping flags that reach the page tables. */
  datatype Flags = Flags(write: bool, user: bool)

  /** `get_paging_flags`: present, writable and user bits. */
  function PagingFlags(flags: Flags): (bits: nat)
    ensures 0 < bits < 8
  {
    1 + (if flags.write then 2 else 0) + (if flags.user then 4 else 0)
  }

  /** `phys | flags`, split by PAGE_MASK: the flag bits are set in whatever `phys` has below the mask. */
  function LeafWord(phys: nat, flags: Flags): Word {
    var off := PageOffset(phys);
    Word(PageFloor(phys),
         off - off % 8 + 1
         + (if flags.write || off / 2 % 2 == 1 then 2 else 0) + (if flags.user || off / 4 % 2 == 1 then 4 else 0))
  }

  /** A leaf word is a present one; for an aligned frame it is just that frame with the flags. */
  lemma {:induction false} LeafWordIsWord(phys: nat, flags: Flags)
    requires phys < ADDRESS_SPACE
    ensures IsWord(LeafWord(phys, flags)) && LeafWord(phys, flags) != EMPTY
            && LeafWord(phys, flags).frame == PageFloor(phys)
    ensures phys % PAGE_SIZE == 0 ==> LeafWord(phys, flags) == Word(phys, PagingFlags(flags))
  {
    var off := PageOffset(phys);
    assert off - off % 8 <= PAGE_SIZE - 8;
  }

  /** The table indices of an address, from PML4 down to the page table. */
  function PathOf(virt: nat): (q: seq<nat>)
    ensures |q| == 4 && forall d :: 0 <= d < 4 ==> q[d] < 512
  {
    [virt / 0x80_0000_0000 % 512, virt / 0x4000_0000 % 512, virt / 0x20_0000 % 512, virt / 0x1000 % 512]
  }

  /** The paths of user addresses: those in the lower half of the PML4. */
  ghost predicate UserPath(q: seq<nat>) {
    |q| == 4 && q[0] < 256 && forall d :: 0 <= d < 4 ==> q[d] < 512
  }

  /** The same indices from the page number: its digits to base 512. */
  function PathOfPage(p: nat): (q: seq<nat>)
    ensures |q| == 4 && forall d :: 0 <= d < 4 ==> q[d] < 512
  {
    [p / 0x800_0000 % 512, p / 0x4_0000 % 512, p / 0x200 % 512, p % 512]
  }

  const USER_PAGES: nat := 0x8_0000_0000

  lemma {:induction false} PathOfAddress(virt: nat)
    ensures PathOf(virt) == PathOfPage(virt / PAGE_SIZE)
    ensures virt < USER_REGION_SIZE <==> virt / PAGE_SIZE < USER_PAGES
  {
    var p := virt / 0x1000;
    assert virt / 0x20_0000 == p / 0x200;
    assert virt / 0x4000_0000 == p / 0x4_0000;
    assert virt / 0x80_0000_0000 == p / 0x800_0000;
  }

  /** The four 9-bit indices spell the page number, so together they tell user pages apart. */
  lemma {:induction false} PathIsInjective(p: nat, p': nat)
    requires p < USER_PAGES && p' < USER_PAGES
    ensures PathOfPage(p) == PathOfPage(p') <==> p == p'
    ensures UserPath(PathOfPage(p))
  {
    SpellsPage(p);
    SpellsPage(p');
  }

  lemma {:induction false} SpellsPage(p: nat)
    requires p < USER_PAGES
    ensures var q := PathOfPage(p);
            p == ((q[0] * 512 + q[1]) * 512 + q[2]) * 512 + q[3] && q[0] < 256
  {
    assert p / 0x4_0000 == p / 0x200 / 0x200;
    assert p / 0x800_0000 == p / 0x200 / 0x200 / 0x200;
  }

  /** Word `i` of table `f`; `EMPTY` where there is no such word. */
  function At(t: Tables, f: nat, i: nat): Word {
    if f in t && i < |t[f]| then t[f][i] else EMPTY
  }

  /** The word that the walk along `q` from table `f` at depth `d` ends on; `EMPTY` when nothing is mapped. */
  ghost function Leaf(t: Tables, f: nat, q: seq<nat>, d: nat): Word
    requires d < |q| == 4
    decreases 4 - d
  {
    var w := At(t, f, q[d]);
    if w == EMPTY || d == 3 then w else Leaf(t, w.frame, q, d + 1)
  }

  /** The walk for user page `p` from the root table of its address space. */
  ghost function Walk(t: Tables, root: nat, p: nat): Word {
    Leaf(t, root, PathOfPage(p), 0)
  }

  /** The page table that the walk along `q` from table `f` at depth `d` passes through; 0 when there is none. */
  ghost function Reach(t: Tables, f: nat, q: seq<nat>, d: nat): nat
    requires d < |q| == 4
    decreases 3 - d
  {
    if d == 3 then f
    else
      var w := At(t, f, q[d]);
      if w == EMPTY then 0 else Reach(t, w.frame, q, d + 1)
  }

  /** Whether the word at `i` in a table at this place is a link to a lower table of the user half. */
  predicate IsLink(p: Place, i: nat) {
    |p.path| < 3 && (p.path == [] ==> i < 256)
  }

  /** Every table frame has one place, and user-half links lead to the place below. */
  ghost predicate Tree(t: Tables, place: map<nat, Place>) {
    && place.Keys == t.Keys
    && (forall f | f in t :: |t[f]| == 512 && UsableFrame(f) && |place[f].path| <= 3)
    && (forall f | f in t && place[f].path == [] :: place[f].root == f)
    && (forall f, i | f in t && 0 <= i < 512 && IsLink(place[f], i) && t[f][i] != EMPTY ::
          t[f][i].frame in t && place[t[f][i].frame] == Place(place[f].root, place[f].path + [i]))
  }

  /** The walk along `q` in address space `r` reads word `i` of table `f`. */
  ghost predicate OnPath(p: Place, i: nat, r: nat, q: seq<nat>)
    requires |q| == 4 && |p.path| <= 3
  {
    p.root == r && p.path == q[..|p.path|] && q[|p.path|] == i
  }

  /** `t` after storing `w` as word `i` of table `f`. */
  function Write(t: Tables, f: nat, i: nat, w: Word): Tables {
    if f in t && i < |t[f]| then t[f := t[f][i := w]] else t
  }

  /** A zeroed table. */
  function Zeroed(): (row: seq<Word>)
    ensures |row| == 512 && forall i :: 0 <= i < 512 ==> row[i] == EMPTY
  {
    seq(512, _ => EMPTY)
  }

  /** A write off the walk does not change where the walk ends. */
  lemma {:induction false} WriteOffPath(t: Tables, place: map<nat, Place>, f: nat, i: nat, w: Word,
                                        g: nat, r: nat, q: seq<nat>, d: nat)
    requires Tree(t, place) && f in t && i < 512
    requires UserPath(q) && d < 4
    requires g in t && place[g] == Place(r, q[..d])
    requires !OnPath(place[f], i, r, q)
    ensures Leaf(Write(t, f, i, w), g, q, d) == Leaf(t, g, q, d)
    decreases 4 - d
  {
    if d < 3 && t[g][q[d]] != EMPTY {
      assert q[..d + 1] == q[..d] + [q[d]];
      assert IsLink(place[g], q[d]);
      WriteOffPath(t, place, f, i, w, t[g][q[d]].frame, r, q, d + 1);
    }
  }

  /** The walk ends on the word of the page table it reaches, also right after that word is stored. */
  lemma {:induction false} ReachedWord(t: Tables, place: map<nat, Place>, f: nat, q: seq<nat>, d: nat, w: Word)
    requires Tree(t, place) && UserPath(q) && d < 4
    requires f in t && place[f].path == q[..d]
    requires Reach(t, f, q, d) != 0
    ensures var pt := Reach(t, f, q, d);
            && pt in t && place[pt] == Place(place[f].root, q[..3])
            && Leaf(t, f, q, d) == t[pt][q[3]]
            && Leaf(Write(t, pt, q[3], w), f, q, d) == w
    decreases 4 - d
  {
    if d < 3 {
      assert q[..d + 1] == q[..d] + [q[d]];
      assert IsLink(place[f], q[d]);
      ReachedWord(t, place, t[f][q[d]].frame, q, d + 1, w);
    }
  }

  /** A fresh frame, reached by no walk, does not change where walks end. */
  lemma {:induction false} AddFrame(t: Tables, place: map<nat, Place>, p: nat, words: seq<Word>,
                                    g: nat, r: nat, q: seq<nat>, d: nat)
    requires Tree(t, place) && p !in t
    requires UserPath(q) && d < 4
    requires g in t && place[g] == Place(r, q[..d])
    ensures Leaf(t[p := words], g, q, d) == Leaf(t, g, q, d)
    decreases 4 - d
  {
    if d < 3 && t[g][q[d]] != EMPTY {
      assert q[..d + 1] == q[..d] + [q[d]];
      assert IsLink(place[g], q[d]);
      AddFrame(t, place, p, words, t[g][q[d]].frame, r, q, d + 1);
    }
  }

  /** Hanging a zeroed table under an empty link changes no walk at all. */
  lemma {:induction false} HangZeroed(t: Tables, place: map<nat, Place>, f: nat, i: nat, p: nat, w: Word,
                                      g: nat, r: nat, q: seq<nat>, d: nat)
    requires Tree(t, place) && f in t && i < 512 && t[f][i] == EMPTY && p !in t && w.frame == p && w != EMPTY
    requires IsLink(place[f], i)
    requires UserPath(q) && d < 4
    requires g in t && place[g] == Place(r, q[..d])
    ensures Leaf(Write(t[p := Zeroed()], f, i, w), g, q, d) == Leaf(t, g, q, d)
    decreases 4 - d
  {
    var t' := Write(t[p := Zeroed()], f, i, w);
    assert t'[p] == Zeroed();
    if g == f && q[d] == i {
      assert Leaf(t', p, q, d + 1) == EMPTY;
    } else if d < 3 && t[g][q[d]] != EMPTY {
      assert q[..d + 1] == q[..d] + [q[d]];
      assert IsLink(place[g], q[d]);
      HangZeroed(t, place, f, i, p, w, t[g][q[d]].frame, r, q, d + 1);
    }
  }

  /** Every word of every table is what the mask makes of the stored number. */
  ghost predicate AllWords(t: Tables) {
    forall f, i | f in t && 0 <= i < |t[f]| :: IsWord(t[f][i])
  }

  /**
   * The walk as the processor and `vmm_arch_proc_translate` do it, on the stored numbers: each is masked to find
   * the next table.
   */
  ghost function NumberWalk(t: Tables, f: nat, q: seq<nat>, d: nat): nat
    requires d < |q| == 4
    decreases 4 - d
  {
    var n := At(t, f, q[d]).Raw();
    if n == 0 || d == 3 then n else NumberWalk(t, PageFloor(n), q, d + 1)
  }

  /** The number that the walk along `q` from table `f` at depth `d` reads at depth `k`; 0 when it ends before. */
  ghost function NumberAlong(t: Tables, f: nat, q: seq<nat>, d: nat, k: nat): nat
    requires d <= k < |q| == 4
    decreases k - d
  {
    var n := At(t, f, q[d]).Raw();
    if n == 0 || d == k then n else NumberAlong(t, PageFloor(n), q, d + 1, k)
  }

  lemma {:induction false} WalkStep(t: Tables, f: nat, q: seq<nat>, d: nat)
    requires d < |q| == 4
    ensures var w := At(t, f, q[d]);
            && Leaf(t, f, q, d) == (if w == EMPTY || d == 3 then w else Leaf(t, w.frame, q, d + 1))
            && NumberWalk(t, f, q, d) == if w.Raw() == 0 || d == 3 then w.Raw()
                 else NumberWalk(t, PageFloor(w.Raw()), q, d + 1)
  {
    hide At, PageFloor;
  }

  /** The walk over words is the walk over the stored numbers. */
  lemma {:induction false} WalkIsNumberWalk(t: Tables, f: nat, q: seq<nat>, d: nat)
    requires AllWords(t) && d < |q| == 4
    ensures NumberWalk(t, f, q, d) == Leaf(t, f, q, d).Raw() && IsWord(Leaf(t, f, q, d))
    decreases 4 - d
  {
    hide PageFloor, PageOffset, IsWord, At, AllWords, Leaf, NumberWalk;
    var w := At(t, f, q[d]);
    WordAt(t, f, q[d]);
    MaskedWord(w);
    WalkStep(t, f, q, d);
    if w != EMPTY && d < 3 {
      WalkIsNumberWalk(t, w.frame, q, d + 1);
    }
  }

  lemma {:induction false} MaskedWord(w: Word)
    requires IsWord(w)
    ensures PageFloor(w.Raw()) == w.frame && (w.Raw() == 0 <==> w == EMPTY)
  {
    WordsAreNumbers(w);
  }

  /** Translating an address gives the masked number at the end of the walk. */
  lemma {:induction false} TranslationIsMasked(t: Tables, root: nat, virt: nat)
    requires AllWords(t)
    ensures Walk(t, root, virt / PAGE_SIZE).frame == PageFloor(NumberWalk(t, root, PathOf(virt), 0))
    ensures Walk(t, root, virt / PAGE_SIZE) != EMPTY <==> NumberWalk(t, root, PathOf(virt), 0) != 0
  {
    hide AllWords, Leaf, NumberWalk, IsWord, PageFloor, PageOffset;
    PathOfAddress(virt);
    WalkIsNumberWalk(t, root, PathOf(virt), 0);
    WordsAreNumbers(Leaf(t, root, PathOf(virt), 0));
  }

  lemma {:induction false} WordAt(t: Tables, f: nat, i: nat)
    requires AllWords(t)
    ensures IsWord(At(t, f, i))
  {
  }

  /** Storing a word in a table. */
  lemma {:induction false} WriteWords(t: Tables, f: nat, i: nat, w: Word)
    requires AllWords(t) && IsWord(w)
    ensures AllWords(Write(t, f, i, w))
  {
    hide IsWord;
  }

  /** Adding a table. */
  lemma {:induction false} AddWords(t: Tables, f: nat, row: seq<Word>)
    requires AllWords(t) && forall i :: 0 <= i < |row| ==> IsWord(row[i])
    ensures AllWords(t[f := row])
  {
    hide IsWord;
  }

  lemma {:induction false} FrameWord(p: nat, flags: Flags)
    requires UsableFrame(p)
    ensures IsWord(Word(p, PagingFlags(flags))) && IsWord(EMPTY)
  {
  }

  // ---------------------------------------------------------------------------------------------- the bits of entries

  /** The stored number is that of a present entry with these access bits. */
  predicate HasAccess(x: nat, write: bool, user: bool) {
    x % 2 == 1 && (x / 2 % 2 == 1 <==> write) && (x / 4 % 2 == 1 <==> user)
  }

  /** The number is `phys | flags`: the access bits that were asked for or lie in `phys`, and else `phys`. */
  predicate IsEntry(x: nat, phys: nat, flags: Flags) {
    HasAccess(x, flags.write || phys / 2 % 2 == 1, flags.user || phys / 4 % 2 == 1) && x / 8 == phys / 8
  }

  lemma {:induction false} Halved(y: nat, r: nat)
    requires r < 2
    ensures (2 * y + r) / 2 == y && (2 * y + r) % 2 == r
  {
  }

  lemma {:induction false} Quartered(y: nat, r: nat)
    requires r < 4
    ensures (4 * y + r) / 4 == y
  {
  }

  lemma {:induction false} Eighth(y: nat, r: nat)
    requires r < 8
    ensures (8 * y + r) / 8 == y && (8 * y + r) % 8 == r
  {
  }

  lemma {:induction false} SmallBits(c: nat)
    requires c < 8
    ensures c == 4 * (c / 4) + c % 4 && c == 2 * (c / 2) + c % 2 && c / 2 == 2 * (c / 4) + c / 2 % 2
            && c / 4 % 2 == c / 4
    ensures c % 4 < 4 && c / 4 < 2
  {
    assert c == 0 || c == 1 || c == 2 || c == 3 || c == 4 || c == 5 || c == 6 || c == 7;
  }

  /** The three lowest bits of a number and the rest of it. */
  lemma {:induction false} LowBits(k: nat, c: nat, x: nat)
    requires c < 8 && x == 8 * k + c
    ensures x % 2 == c % 2 && x / 2 % 2 == c / 2 % 2 && x / 4 % 2 == c / 4 % 2 && x / 8 == k && x % 8 == c
  {
    SmallBits(c);
    var h, q, b := c / 2, c / 4, c / 2 % 2;
    Halved(4 * k + h, c % 2);
    Halved(2 * k + q, b);
    Quartered(2 * k + q, c % 4);
    Halved(k, q);
    Eighth(k, c);
  }

  lemma {:induction false} SetBits(k: nat, low: nat, flags: Flags)
    requires low < 8
    ensures var w, u := flags.write || low / 2 % 2 == 1, flags.user || low / 4 % 2 == 1;
            IsEntry(8 * k + (1 + (if w then 2 else 0) + (if u then 4 else 0)), 8 * k + low, flags)
  {
    var w, u := flags.write || low / 2 % 2 == 1, flags.user || low / 4 % 2 == 1;
    var c := 1 + (if w then 2 else 0) + (if u then 4 else 0);
    LowBits(k, low, 8 * k + low);
    LowBits(k, c, 8 * k + c);
    AccessBits(w, u);
  }

  lemma {:induction false} AccessBits(w: bool, u: bool)
    ensures var c := 1 + (if w then 2 else 0) + (if u then 4 else 0);
            c % 2 == 1 && (c / 2 % 2 == 1 <==> w) && (c / 4 % 2 == 1 <==> u)
  {
  }

  lemma {:induction false} InEights(phys: nat)
    ensures var off := PageOffset(phys);
            && off % 8 == phys % 8 && PageFloor(phys) + (off - off % 8) == 8 * (phys / 8)
            && off / 2 % 2 == phys % 8 / 2 % 2 && off / 4 % 2 == phys % 8 / 4 % 2
  {
    var off, page := PageOffset(phys), phys / PAGE_SIZE;
    assert phys == 8 * (512 * page + off / 8) + off % 8;
    Eighth(512 * page + off / 8, off % 8);
    LowBits(off / 8, off % 8, off);
  }

  /** What a mapping stores is the number that the code computes. */
  lemma {:induction false} LeafIsEntry(phys: nat, flags: Flags)
    ensures IsEntry(LeafWord(phys, flags).Raw(), phys, flags)
  {
    hide PageFloor, PageOffset, IsEntry;
    InEights(phys);
    SetBits(phys / 8, phys % 8, flags);
  }

  /** A word of an aligned frame with flags is stored as a number with those access bits. */
  lemma {:induction false} WordIsEntry(frame: nat, flags: Flags)
    requires frame % PAGE_SIZE == 0
    ensures var x := Word(frame, PagingFlags(flags)).Raw();
            HasAccess(x, flags.write, flags.user) && PageFloor(x) == frame && x != 0
  {
    hide PageFloor;
    FrameEighth(frame);
    LowBits(frame / 8, PagingFlags(flags), frame + PagingFlags(flags));
    FloorOf(frame, PagingFlags(flags));
  }

  lemma {:induction false} FrameEighth(frame: nat)
    requires frame % PAGE_SIZE == 0
    ensures frame == 8 * (frame / 8)
  {
    var p := frame / PAGE_SIZE;
    assert frame == 8 * (512 * p) + 0;
    Eighth(512 * p, 0);
  }

  lemma {:induction false} FloorOf(frame: nat, bits: nat)
    requires frame % PAGE_SIZE == 0 && bits < PAGE_SIZE
    ensures PageFloor(frame + bits) == frame
  {
  }

  /** Links to lower tables are present and writable; whether a page is writable depends on its own entry. */
  predicate IsOpen(x: nat) {
    x % 2 == 1 && x / 2 % 2 == 1
  }

  ghost predicate LinksOpen(t: Tables, place: map<nat, Place>) {
    forall f, i | f in t && f in place && 0 <= i < |t[f]| && IsLink(place[f], i) && t[f][i] != EMPTY ::
      IsOpen(t[f][i].Raw())
  }

  lemma {:induction false} WriteLinks(t: Tables, place: map<nat, Place>, f: nat, i: nat, w: Word)
    requires LinksOpen(t, place) && f in place && (IsOpen(w.Raw()) || !IsLink(place[f], i))
    ensures LinksOpen(Write(t, f, i, w), place)
  {
    hide IsOpen;
  }

  lemma {:induction false} AddLinks(t: Tables, place: map<nat, Place>, f: nat, row: seq<Word>, at: Place)
    requires LinksOpen(t, place) && forall i :: 0 <= i < |row| && IsLink(at, i) ==> row[i] == EMPTY
    ensures LinksOpen(t[f := row], place[f := at])
  {
    hide IsOpen;
  }

  /** The state behind the page tables. */
  datatype Mem = Mem(
    /** The free frames, the next one to be handed out first. */
    free: seq<nat>,
    /** The frames used as page tables, and where each one sits. */
    tables: Tables,
    place: map<nat, Place>,
    /** The bytes of every other frame of memory. */
    data: map<nat, seq<byte>>)

  ghost predicate Good(m: Mem) {
    && Tree(m.tables, m.place) && AllWords(m.tables) && LinksOpen(m.tables, m.place)
    && Distinct(m.free)
    && (forall p | p in m.free :: UsableFrame(p) && p in m.data)
    && (forall f | f in m.data :: f !in m.tables && |m.data[f]| == PAGE_SIZE)
  }

  ghost predicate SameKernelHalf(x: seq<Word>, y: seq<Word>) {
    |x| == |y| == 512 && forall i :: 256 <= i < 512 ==> x[i] == y[i]
  }

  /** From `m` to `n`, frames only went from the front of the free list to the tables. */
  ghost predicate Moved(m: Mem, n: Mem) {
    && |n.free| <= |m.free| && n.free == m.free[|m.free| - |n.free|..]
    && (forall f | f in m.tables :: f in n.tables && f in m.place && f in n.place && n.place[f] == m.place[f])
    && (forall f | f in n.tables && f !in m.tables :: f in m.free)
    && (forall f | f in n.data :: f in m.data)
    && (forall f | f in m.data && f !in m.free :: f in n.data && n.data[f] == m.data[f])
    && (forall r | IsRoot(m, r) :: r in n.tables && SameKernelHalf(m.tables[r], n.tables[r]))
  }

  /** The root table of an address space. */
  ghost predicate IsRoot(m: Mem, r: nat) {
    r in m.tables && r in m.place && m.place[r] == Place(r, [])
  }

  /** No user page of any address space is translated differently. */
  ghost predicate SameWalks(m: Mem, n: Mem) {
    forall r, q | IsRoot(m, r) && UserPath(q) :: Leaf(n.tables, r, q, 0) == Leaf(m.tables, r, q, 0)
  }

  lemma {:induction false} MovedTrans(l: Mem, m: Mem, n: Mem)
    requires Moved(l, m) && Moved(m, n)
    ensures Moved(l, n)
  {
    assert n.free == l.free[|l.free| - |m.free|..][|m.free| - |n.free|..];
    forall f | f in m.free
      ensures f in l.free
    {
    }
    forall r | IsRoot(l, r)
      ensures r in n.tables && SameKernelHalf(l.tables[r], n.tables[r])
    {
      assert IsRoot(m, r);
    }
  }

  lemma {:induction false} SameWalksTrans(l: Mem, m: Mem, n: Mem)
    requires Moved(l, m) && SameWalks(l, m) && SameWalks(m, n)
    ensures SameWalks(l, n)
  {
    forall r, q | IsRoot(l, r) && UserPath(q)
      ensures Leaf(n.tables, r, q, 0) == Leaf(l.tables, r, q, 0)
    {
      assert IsRoot(m, r);
    }
  }

  /** What the entry functions do when the word is empty and a frame is free. */
  ghost function Hung(m: Mem, f: nat, i: nat, flags: Flags): Mem
    requires m.free != [] && f in m.place
  {
    var p := m.free[0];
    Mem(m.free[1..],
        Write(m.tables[p := Zeroed()], f, i, Word(p, PagingFlags(Flags(true, flags.user)))),
        m.place[p := Place(m.place[f].root, m.place[f].path + [i])],
        m.data - {p})
  }

  lemma {:induction false} HungLinks(m: Mem, f: nat, i: nat, flags: Flags)
    requires Good(m) && f in m.tables && i < 512 && IsLink(m.place[f], i) && m.free != []
    ensures LinksOpen(Hung(m, f, i, flags).tables, Hung(m, f, i, flags).place)
    ensures AllWords(Hung(m, f, i, flags).tables)
  {
    hide AllWords, IsWord, LinksOpen, HasAccess, PageFloor, Tree;
    GoodShape(m, f);
    var p, n := m.free[0], Hung(m, f, i, flags);
    assert p in m.free;
    var link := Word(p, PagingFlags(Flags(true, flags.user)));
    FrameWord(p, Flags(true, flags.user));
    AddWords(m.tables, p, Zeroed());
    WriteWords(m.tables[p := Zeroed()], f, i, link);
    WordIsEntry(p, Flags(true, flags.user));
    IsOpenLink(link.Raw(), flags.user);
    AddLinks(m.tables, m.place, p, Zeroed(), n.place[p]);
    WriteLinks(m.tables[p := Zeroed()], n.place, f, i, link);
  }

  lemma {:induction false} IsOpenLink(x: nat, user: bool)
    requires HasAccess(x, true, user)
    ensures IsOpen(x)
  {
  }

  lemma {:induction false} HungTree(m: Mem, f: nat, i: nat, flags: Flags)
    requires Tree(m.tables, m.place) && f in m.tables && i < 512 && IsLink(m.place[f], i)
    requires m.free != [] && m.free[0] !in m.tables && UsableFrame(m.free[0])
    ensures Tree(Hung(m, f, i, flags).tables, Hung(m, f, i, flags).place)
  {
    hide UsableFrame, PagingFlags;
    var p, n := m.free[0], Hung(m, f, i, flags);
    assert n.tables.Keys == m.tables.Keys + {p};
  }

  lemma {:induction false} HungIsGood(m: Mem, f: nat, i: nat, flags: Flags)
    requires Good(m) && f in m.tables && i < 512 && IsLink(m.place[f], i) && m.tables[f][i] == EMPTY && m.free != []
    ensures Good(Hung(m, f, i, flags))
  {
    hide AllWords, IsWord, LinksOpen, Tree, UsableFrame, PagingFlags;
    GoodShape(m, f);
    FreeIsNoTable(m);
    HungLinks(m, f, i, flags);
    HungTree(m, f, i, flags);
  }

  lemma {:induction false} HungMoves(m: Mem, f: nat, i: nat, flags: Flags)
    requires Good(m) && f in m.tables && i < 512 && IsLink(m.place[f], i) && m.tables[f][i] == EMPTY && m.free != []
    ensures Moved(m, Hung(m, f, i, flags)) && SameWalks(m, Hung(m, f, i, flags))
  {
    var p, n := m.free[0], Hung(m, f, i, flags);
    assert p in m.free;
    forall r, q | IsRoot(m, r) && UserPath(q)
      ensures Leaf(n.tables, r, q, 0) == Leaf(m.tables, r, q, 0)
    {
      HangZeroed(m.tables, m.place, f, i, p, Word(p, PagingFlags(Flags(true, flags.user))), r, r, q, 0);
    }
  }

  /** `get_pml4_entry`, `get_pdp_entry` and `get_pd_entry` with allocation; 0 when no frame is left. */
  ghost function EntryStep(m: Mem, f: nat, i: nat, flags: Flags): (Mem, nat) {
    if At(m.tables, f, i) != EMPTY then (m, At(m.tables, f, i).frame)
    else if m.free == [] || f !in m.place then (m, 0)
    else (Hung(m, f, i, flags), m.free[0])
  }

  lemma {:induction false} FreeIsNoTable(m: Mem)
    requires Good(m) && m.free != []
    ensures m.free[0] !in m.tables && UsableFrame(m.free[0]) && m.free[0] != 0
  {
    assert m.free[0] in m.free;
  }

  lemma {:induction false} EntryStepKeeps(m: Mem, f: nat, i: nat, flags: Flags)
    requires Good(m) && f in m.tables && i < 512 && IsLink(m.place[f], i)
    ensures var (n, g) := EntryStep(m, f, i, flags);
            && Good(n) && Moved(m, n) && SameWalks(m, n)
            && (forall h | h in m.tables && h != f :: n.tables[h] == m.tables[h])
            && (g == 0 ==> n.free == [])
            && (g != 0 ==>
                  && g in n.tables && n.place[g] == Place(m.place[f].root, m.place[f].path + [i])
                  && n.tables[f][i] != EMPTY && n.tables[f][i].frame == g)
  {
    hide Good, Moved, SameWalks, UsableFrame, Zeroed, PagingFlags;
    LinkLeads(m, f, i);
    ExtendsRefl(m);
    if m.tables[f][i] == EMPTY && m.free != [] {
      FreeIsNoTable(m);
      HungIsGood(m, f, i, flags);
      HungMoves(m, f, i, flags);
      HungLeads(m, f, i, flags);
    }
  }

  lemma {:induction false} LinkLeads(m: Mem, f: nat, i: nat)
    requires Good(m) && f in m.tables && i < 512 && IsLink(m.place[f], i)
    ensures |m.tables[f]| == 512 && f in m.place
    ensures var w := m.tables[f][i];
            w != EMPTY ==>
              && w.frame != 0 && w.frame in m.tables && w.frame in m.place
              && m.place[w.frame] == Place(m.place[f].root, m.place[f].path + [i])
  {
  }

  lemma {:induction false} HungLeads(m: Mem, f: nat, i: nat, flags: Flags)
    requires m.free != [] && f in m.tables && f in m.place && |m.tables[f]| == 512 && i < 512 && m.free[0] != 0
             && m.free[0] != f
    ensures var n := Hung(m, f, i, flags);
            var g := m.free[0];
            && g in n.tables && g in n.place && n.place[g] == Place(m.place[f].root, m.place[f].path + [i])
            && f in n.tables && |n.tables[f]| == 512 && n.tables[f][i] != EMPTY && n.tables[f][i].frame == g
            && (forall h | h in m.tables && h != f && h != g :: h in n.tables && n.tables[h] == m.tables[h])
  {
  }

  /** `vmm_arch_get_pt` from depth `d` on: the page table on the path `q`, or 0. */
  ghost function GetPt(m: Mem, f: nat, q: seq<nat>, d: nat, flags: Flags): (Mem, nat)
    requires d <= 3 && |q| == 4
    decreases 3 - d
  {
    if d == 3 then (m, f)
    else
      var (n, g) := EntryStep(m, f, q[d], flags);
      if g == 0 then (n, 0) else GetPt(n, g, q, d + 1, flags)
  }

  /** `n` is a good state after `m` that translates every user page as `m` does. */
  ghost predicate Extends(m: Mem, n: Mem) {
    Good(n) && Moved(m, n) && SameWalks(m, n)
  }

  lemma {:induction false} ExtendsRefl(m: Mem)
    requires Good(m)
    ensures Extends(m, m)
  {
    assert m.free[0..] == m.free;
  }

  lemma {:induction false} ExtendsTrans(l: Mem, m: Mem, n: Mem)
    requires Extends(l, m) && Extends(m, n)
    ensures Extends(l, n)
  {
    MovedTrans(l, m, n);
    SameWalksTrans(l, m, n);
  }

  /** One step of the descent: the next table lies on the path, one level down. */
  lemma {:induction false} StepDown(m: Mem, f: nat, q: seq<nat>, d: nat, flags: Flags)
    requires Good(m) && f in m.tables && d < 3 && UserPath(q) && m.place[f].path == q[..d]
    ensures var (n, g) := EntryStep(m, f, q[d], flags);
            && Extends(m, n)
            && (g == 0 ==> n.free == [])
            && (g != 0 ==> Good(n) && g in n.tables && g in n.place && n.place[g].path == q[..d + 1])
  {
    assert q[..d + 1] == q[..d] + [q[d]];
    EntryStepKeeps(m, f, q[d], flags);
  }

  lemma {:induction false} GetPtKeeps(m: Mem, f: nat, q: seq<nat>, d: nat, flags: Flags)
    requires Good(m) && f in m.tables && d <= 3 && UserPath(q) && m.place[f].path == q[..d]
    ensures var (n, g) := GetPt(m, f, q, d, flags);
            && Extends(m, n)
            && (g == 0 ==> n.free == [])
    decreases 3 - d
  {
    ExtendsRefl(m);
    hide Extends, EntryStep;
    if d < 3 {
      StepDown(m, f, q, d, flags);
      var (n, g) := EntryStep(m, f, q[d], flags);
      if g != 0 {
        GetPtKeeps(n, g, q, d + 1, flags);
        ExtendsTrans(m, n, GetPt(n, g, q, d + 1, flags).0);
      }
    }
  }

  /** The page table that is found or made is the one the walk reaches; tables above `f` are not written. */
  lemma {:induction false} GoodShape(m: Mem, f: nat)
    requires Good(m) && f in m.tables
    ensures f in m.place && |m.tables[f]| == 512 && |m.place[f].path| <= 3 && forall h | h in m.tables :: h in m.place
  {
  }

  lemma {:induction false} GetPtReaches(m: Mem, f: nat, q: seq<nat>, d: nat, flags: Flags)
    requires Good(m) && f in m.tables && d <= 3 && UserPath(q) && m.place[f].path == q[..d]
    ensures var (n, g) := GetPt(m, f, q, d, flags);
            && (forall h | h in m.tables && |m.place[h].path| < d :: h in n.tables && n.tables[h] == m.tables[h])
            && (g != 0 ==> g in n.tables && Reach(n.tables, f, q, d) == g)
    decreases 3 - d
  {
    hide SameWalks, EntryStep, Good;
    if d < 3 {
      GoodShape(m, f);
      EntryStepKeeps(m, f, q[d], flags);
      var (n, g) := EntryStep(m, f, q[d], flags);
      GoodShape(n, f);
      if g != 0 {
        assert q[..d + 1] == q[..d] + [q[d]];
        assert forall h | h in m.tables :: h in n.tables && n.place[h] == m.place[h];
        GetPtReaches(n, g, q, d + 1, flags);
      }
    }
  }

  /** Storing a leaf word of a page table. */
  ghost function Stored(m: Mem, pt: nat, i: nat, w: Word): Mem
  {
    m.(tables := Write(m.tables, pt, i, w))
  }

  /** A leaf word is read by the walks along one path of one address space only. */
  lemma {:induction false} StoredChangesOne(m: Mem, pt: nat, q: seq<nat>, w: Word)
    requires Good(m) && pt in m.tables && UserPath(q) && IsRoot(m, m.place[pt].root) && m.place[pt].path == q[..3]
    requires IsWord(w)
    ensures Good(Stored(m, pt, q[3], w)) && Moved(m, Stored(m, pt, q[3], w))
    ensures forall r, s | IsRoot(m, r) && UserPath(s) && !(r == m.place[pt].root && s == q) ::
              Leaf(Stored(m, pt, q[3], w).tables, r, s, 0) == Leaf(m.tables, r, s, 0)
  {
    hide AllWords, IsWord, LinksOpen;
    WriteWords(m.tables, pt, q[3], w);
    WriteLinks(m.tables, m.place, pt, q[3], w);
    var n := Stored(m, pt, q[3], w);
    forall r, s | IsRoot(m, r) && UserPath(s) && !(r == m.place[pt].root && s == q)
      ensures Leaf(n.tables, r, s, 0) == Leaf(m.tables, r, s, 0)
    {
      assert s == s[..3] + [s[3]] && q == q[..3] + [q[3]];
      WriteOffPath(m.tables, m.place, pt, q[3], w, r, r, s, 0);
    }
  }

  /** `vmm_arch_proc_map` */
  ghost function ProcMap(m: Mem, root: nat, p: nat, phys: nat, flags: Flags): (Mem, bool) {
    var q := PathOfPage(p);
    var (n, pt) := GetPt(m, root, q, 0, flags);
    if pt == 0 || At(n.tables, pt, q[3]) != EMPTY then (n, false)
    else (Stored(n, pt, q[3], LeafWord(phys, flags)), true)
  }

  /** No user page but, in address space `root`, page `p` is translated differently. */
  ghost predicate SameElsewhere(m: Mem, n: Mem, root: nat, p: nat) {
    forall r: nat, p': nat | IsRoot(m, r) && p' < USER_PAGES && !(r == root && p' == p) ::
      Walk(n.tables, r, p') == Walk(m.tables, r, p')
  }

  /**
   * A successful mapping translates exactly the mapped page of exactly this address space anew, and a
   * failing one translates nothing anew, whatever tables it left behind. It fails only on a page that
   * is mapped already or when the frames ran out.
   */
  lemma {:induction false} MapsExactlyOnePage(m: Mem, root: nat, p: nat, phys: nat, flags: Flags)
    requires Good(m) && IsRoot(m, root) && p < USER_PAGES && phys < ADDRESS_SPACE
    ensures var (n, ok) := ProcMap(m, root, p, phys, flags);
            && Good(n) && Moved(m, n) && SameElsewhere(m, n, root, p)
            && (ok ==> Walk(m.tables, root, p) == EMPTY && Walk(n.tables, root, p) == LeafWord(phys, flags))
            && (!ok ==> Walk(n.tables, root, p) == Walk(m.tables, root, p))
            && (!ok ==> Walk(m.tables, root, p) != EMPTY || n.free == [])
  {
    var q := PathOfPage(p);
    PathIsInjective(p, p);
    GetPtKeeps(m, root, q, 0, flags);
    GetPtReaches(m, root, q, 0, flags);
    var (l, pt) := GetPt(m, root, q, 0, flags);
    if pt != 0 {
      ReachedWord(l.tables, l.place, root, q, 0, EMPTY);
    }
    var (n, ok) := ProcMap(m, root, p, phys, flags);
    if ok {
      MapStores(m, root, p, phys, flags);
    }
    hide Good, Moved, Leaf;
    forall r: nat, p': nat | IsRoot(m, r) && p' < USER_PAGES && !(r == root && p' == p)
      ensures Walk(n.tables, r, p') == Walk(m.tables, r, p')
    {
      PathIsInjective(p', p);
    }
  }

  lemma {:induction false} MapStores(m: Mem, root: nat, p: nat, phys: nat, flags: Flags)
    requires Good(m) && IsRoot(m, root) && p < USER_PAGES && phys < ADDRESS_SPACE && ProcMap(m, root, p, phys, flags).1
    ensures var n := ProcMap(m, root, p, phys, flags).0;
            && Good(n) && Moved(m, n)
            && Walk(m.tables, root, p) == EMPTY && Walk(n.tables, root, p) == LeafWord(phys, flags)
            && (forall r, s | IsRoot(m, r) && UserPath(s) && !(r == root && s == PathOfPage(p)) ::
                  Leaf(n.tables, r, s, 0) == Leaf(m.tables, r, s, 0))
  {
    var q := PathOfPage(p);
    PathIsInjective(p, p);
    GetPtKeeps(m, root, q, 0, flags);
    GetPtReaches(m, root, q, 0, flags);
    var (l, pt) := GetPt(m, root, q, 0, flags);
    var w := LeafWord(phys, flags);
    LeafWordIsWord(phys, flags);
    var n := Stored(l, pt, q[3], w);
    ReachedWord(l.tables, l.place, root, q, 0, w);
    StoredChangesOne(l, pt, q, w);
    MovedTrans(m, l, n);
    forall r, s | IsRoot(m, r) && UserPath(s) && !(r == root && s == q)
      ensures Leaf(n.tables, r, s, 0) == Leaf(m.tables, r, s, 0)
    {
      assert IsRoot(l, r);
    }
  }

  /** A root table: empty below, the kernel's entries above. */
  ghost predicate RootRow(row: seq<Word>, kernel: seq<Word>) {
    && |row| == |kernel| == 512 && (forall i :: 0 <= i < 256 ==> row[i] == EMPTY) && SameKernelHalf(row, kernel)
    && (forall i :: 0 <= i < 512 ==> IsWord(row[i]))
  }

  /** The state with the next free frame as the root table of a new address space. */
  ghost function WithSpace(m: Mem, row: seq<Word>): Mem
    requires m.free != []
  {
    var p := m.free[0];
    Mem(m.free[1..], m.tables[p := row], m.place[p := Place(p, [])], m.data - {p})
  }

  /** A new address space maps no user page, has the kernel's upper half and disturbs no other one. */
  lemma {:induction false} NewSpaceIsEmpty(m: Mem, row: seq<Word>, kernel: seq<Word>)
    requires Good(m) && m.free != [] && RootRow(row, kernel)
    ensures var p := m.free[0];
            var n := WithSpace(m, row);
            && Good(n) && Moved(m, n) && SameWalks(m, n) && p !in m.tables && IsRoot(n, p)
            && (forall v: nat | v < USER_PAGES :: Walk(n.tables, p, v) == EMPTY)
  {
    hide AllWords, IsWord, Good, Moved, SameWalks, Walk;
    FreeIsNoTable(m);
    NewSpaceIsGood(m, row, kernel);
    NewSpaceMoves(m, row);
    NewSpaceWalks(m, row, kernel);
  }

  lemma {:induction false} NewSpaceIsGood(m: Mem, row: seq<Word>, kernel: seq<Word>)
    requires Good(m) && m.free != [] && RootRow(row, kernel)
    ensures Good(WithSpace(m, row))
  {
    hide AllWords, IsWord, SameKernelHalf, LinksOpen;
    FreeIsNoTable(m);
    AddWords(m.tables, m.free[0], row);
    AddLinks(m.tables, m.place, m.free[0], row, Place(m.free[0], []));
    assert forall f | f in m.free[1..] :: f in m.free && f != m.free[0];
  }

  lemma {:induction false} NewSpaceMoves(m: Mem, row: seq<Word>)
    requires Good(m) && m.free != []
    ensures Moved(m, WithSpace(m, row)) && IsRoot(WithSpace(m, row), m.free[0])
  {
    hide AllWords, UsableFrame;
    FreeIsNoTable(m);
    assert m.free[0] in m.free;
  }

  lemma {:induction false} NewSpaceWalks(m: Mem, row: seq<Word>, kernel: seq<Word>)
    requires Good(m) && m.free != [] && RootRow(row, kernel)
    ensures SameWalks(m, WithSpace(m, row))
    ensures forall v: nat | v < USER_PAGES :: Walk(WithSpace(m, row).tables, m.free[0], v) == EMPTY
  {
    hide AllWords, IsWord, SameKernelHalf, UsableFrame;
    var p := m.free[0];
    var n := WithSpace(m, row);
    FreeIsNoTable(m);
    forall r, q | IsRoot(m, r) && UserPath(q)
      ensures Leaf(n.tables, r, q, 0) == Leaf(m.tables, r, q, 0)
    {
      AddFrame(m.tables, m.place, p, row, r, r, q, 0);
    }
    forall v: nat | v < USER_PAGES
      ensures Walk(n.tables, p, v) == EMPTY
    {
      PathIsInjective(v, v);
    }
  }

  lemma {:induction false} ProcMapIsGood(m: Mem, root: nat, p: nat, phys: nat, flags: Flags)
    requires Good(m) && IsRoot(m, root) && p < USER_PAGES && phys < ADDRESS_SPACE
    ensures Good(ProcMap(m, root, p, phys, flags).0)
    ensures var (n, pt) := GetPt(m, root, PathOfPage(p), 0, flags); pt != 0 ==> pt in n.tables && |n.tables[pt]| == 512
  {
    var q := PathOfPage(p);
    PathIsInjective(p, p);
    GetPtKeeps(m, root, q, 0, flags);
    GetPtReaches(m, root, q, 0, flags);
    if ProcMap(m, root, p, phys, flags).1 {
      MapStores(m, root, p, phys, flags);
    }
  }

  // ------------------------------------------------------------------------------------- what a mapping leaves in
  // memory

  /** Of the numbers before and after a mapping: links stay as they were, and new ones are open as asked for. */
  predicate LinkMade(before: nat, after: nat, user: bool) {
    if before != 0 then after == before else HasAccess(after, true, user)
  }

  /** The number along the walk, in terms of words. */
  lemma {:induction false} AlongStep(t: Tables, f: nat, q: seq<nat>, d: nat, k: nat)
    requires AllWords(t) && d <= k < |q| == 4
    ensures var w := At(t, f, q[d]);
            NumberAlong(t, f, q, d, k) == if d == k then w.Raw()
              else if w == EMPTY then 0 else NumberAlong(t, w.frame, q, d + 1, k)
  {
    hide At, PageFloor, IsWord, AllWords;
    WordAt(t, f, q[d]);
    MaskedWord(At(t, f, q[d]));
  }

  /** One step of the descent makes at most one link, and from the table it leads to the numbers are as before. */
  lemma {:induction false} StepMakesLink(m: Mem, f: nat, q: seq<nat>, d: nat, flags: Flags, k: nat)
    requires Good(m) && f in m.tables && d <= k < 3 && UserPath(q) && m.place[f].path == q[..d]
    requires EntryStep(m, f, q[d], flags).1 != 0
    ensures var (n, g) := EntryStep(m, f, q[d], flags);
            && At(n.tables, f, q[d]).frame == g && At(n.tables, f, q[d]) != EMPTY
            && (d == k ==> LinkMade(At(m.tables, f, q[d]).Raw(), At(n.tables, f, q[d]).Raw(), flags.user))
            && (d < k ==> NumberAlong(m.tables, f, q, d, k) == NumberAlong(n.tables, g, q, d + 1, k))
  {
    hide Good, Tree, LinksOpen, HasAccess, AllWords, NumberAlong, Hung, EntryStep, At;
    GoodWords(m);
    GoodShape(m, f);
    StepCases(m, f, q[d], flags);
    AlongStep(m.tables, f, q, d, k);
    if At(m.tables, f, q[d]) == EMPTY {
      HungMakesLink(m, f, q, d, flags, k);
    } else {
      NonEmptyIsNumber(m.tables, f, q[d]);
    }
  }

  lemma {:induction false} StepCases(m: Mem, f: nat, i: nat, flags: Flags)
    requires Good(m) && f in m.tables && i < 512 && EntryStep(m, f, i, flags).1 != 0
    ensures f in m.place && At(m.tables, f, i) == m.tables[f][i]
    ensures EntryStep(m, f, i, flags) ==
            if At(m.tables, f, i) != EMPTY then (m, At(m.tables, f, i).frame)
            else if m.free == [] then (m, 0) else (Hung(m, f, i, flags), m.free[0])
  {
    hide Hung;
  }

  lemma {:induction false} HungMakesLink(m: Mem, f: nat, q: seq<nat>, d: nat, flags: Flags, k: nat)
    requires Good(m) && f in m.tables && d <= k < 3 && UserPath(q) && m.place[f].path == q[..d]
    requires m.tables[f][q[d]] == EMPTY && m.free != []
    ensures var n, g := Hung(m, f, q[d], flags), m.free[0];
            && At(n.tables, f, q[d]).frame == g && At(n.tables, f, q[d]) != EMPTY
            && HasAccess(At(n.tables, f, q[d]).Raw(), true, flags.user)
            && (d < k ==> NumberAlong(n.tables, g, q, d + 1, k) == 0)
  {
    hide Good, UsableFrame, PagingFlags, HasAccess, PageFloor, Tree, LinksOpen, AllWords, NumberAlong;
    GoodShape(m, f);
    FreeIsNoTable(m);
    FrameIsAligned(m);
    HungIsGood(m, f, q[d], flags);
    var n, g := Hung(m, f, q[d], flags), m.free[0];
    GoodWords(n);
    WordIsEntry(g, Flags(true, flags.user));
    assert n.tables[g] == Zeroed();
    if d < k {
      AlongStep(n.tables, g, q, d + 1, k);
    }
  }

  lemma {:induction false} FrameIsAligned(m: Mem)
    requires Good(m) && m.free != []
    ensures m.free[0] % PAGE_SIZE == 0
  {
    assert m.free[0] in m.free;
  }

  lemma {:induction false} NonEmptyIsNumber(t: Tables, f: nat, i: nat)
    requires AllWords(t)
    ensures At(t, f, i).Raw() == 0 <==> At(t, f, i) == EMPTY
  {
    hide IsWord, PageFloor;
    WordAt(t, f, i);
    MaskedWord(At(t, f, i));
  }

  /** On the way to a page table, links stay and missing ones are made. */
  lemma {:induction false} GetPtLinks(m: Mem, f: nat, q: seq<nat>, d: nat, flags: Flags, k: nat)
    requires Good(m) && f in m.tables && d <= k < 3 && UserPath(q) && m.place[f].path == q[..d]
    requires GetPt(m, f, q, d, flags).1 != 0
    ensures LinkMade(NumberAlong(m.tables, f, q, d, k), NumberAlong(GetPt(m, f, q, d, flags).0.tables, f, q, d, k),
                     flags.user)
    decreases 3 - d
  {
    hide Good, Tree, LinksOpen, SameWalks, LinkMade, EntryStep, AllWords, NumberAlong, Moved, Reach;
    GoodShape(m, f);
    GoodWords(m);
    var (l, g) := EntryStep(m, f, q[d], flags);
    var n := GetPt(m, f, q, d, flags).0;
    StepDown(m, f, q, d, flags);
    StepStays(m, f, q, d, flags);
    StepMakesLink(m, f, q, d, flags, k);
    GetPtKeeps(l, g, q, d + 1, flags);
    GetPtReaches(l, g, q, d + 1, flags);
    GoodWords(n);
    AlongStep(m.tables, f, q, d, k);
    AlongStep(n.tables, f, q, d, k);
    assert At(n.tables, f, q[d]) == At(l.tables, f, q[d]);
    if d < k {
      GetPtLinks(l, g, q, d + 1, flags, k);
    }
  }

  lemma {:induction false} GoodWords(m: Mem)
    requires Good(m)
    ensures AllWords(m.tables)
  {
  }

  lemma {:induction false} StepStays(m: Mem, f: nat, q: seq<nat>, d: nat, flags: Flags)
    requires Good(m) && f in m.tables && d < 3 && UserPath(q) && m.place[f].path == q[..d]
    ensures var n := EntryStep(m, f, q[d], flags).0;
            f in n.tables && f in n.place && n.place[f] == m.place[f]
  {
    hide Good, SameWalks, EntryStep;
    StepDown(m, f, q, d, flags);
  }

  /** Storing a leaf word changes no link. */
  lemma {:induction false} LeafKeepsLinks(t: Tables, place: map<nat, Place>, pt: nat, i: nat, w: Word,
                                          f: nat, q: seq<nat>, d: nat, k: nat)
    requires Tree(t, place) && AllWords(t) && IsWord(w) && pt in t && |place[pt].path| == 3 && i < 512
    requires f in t && d <= k < 3 && UserPath(q) && place[f].path == q[..d]
    ensures NumberAlong(Write(t, pt, i, w), f, q, d, k) == NumberAlong(t, f, q, d, k)
    decreases k - d
  {
    hide AllWords, IsWord, NumberAlong;
    WriteWords(t, pt, i, w);
    AlongStep(t, f, q, d, k);
    AlongStep(Write(t, pt, i, w), f, q, d, k);
    if d < k && t[f][q[d]] != EMPTY {
      assert q[..d + 1] == q[..d] + [q[d]];
      assert IsLink(place[f], q[d]);
      LeafKeepsLinks(t, place, pt, i, w, t[f][q[d]].frame, q, d + 1, k);
    }
  }

  /** Every link on the way to a user page is present and writable. */
  lemma {:induction false} LinksAlong(m: Mem, f: nat, q: seq<nat>, d: nat, k: nat)
    requires Good(m) && f in m.tables && d <= k < 3 && UserPath(q) && m.place[f].path == q[..d]
    ensures NumberAlong(m.tables, f, q, d, k) != 0 ==> IsOpen(NumberAlong(m.tables, f, q, d, k))
    decreases k - d
  {
    hide AllWords, IsWord, NumberAlong, IsOpen, UsableFrame;
    AlongStep(m.tables, f, q, d, k);
    assert IsLink(m.place[f], q[d]);
    NonEmptyIsNumber(m.tables, f, q[d]);
    if d < k && m.tables[f][q[d]] != EMPTY {
      assert q[..d + 1] == q[..d] + [q[d]];
      LinksAlong(m, m.tables[f][q[d]].frame, q, d + 1, k);
    }
  }

  /** The number that the walk ends on is the one at depth 3. */
  lemma {:induction false} WalkEndsAlong(t: Tables, f: nat, q: seq<nat>, d: nat)
    requires d < |q| == 4
    ensures NumberWalk(t, f, q, d) == NumberAlong(t, f, q, d, 3)
    decreases 4 - d
  {
    hide At, PageFloor;
    if d < 3 {
      WalkEndsAlong(t, PageFloor(At(t, f, q[d]).Raw()), q, d + 1);
    }
  }

  /**
   * The numbers that a successful mapping leaves in memory. The walk ends on a present entry whose access bits are
   * those asked for. The three links above it are present and writable; those there were before are as they were,
   * and new ones are open to user code exactly when that was asked for.
   */
  ghost predicate EntriesMade(t: Tables, t': Tables, root: nat, q: seq<nat>, phys: nat, flags: Flags)
    requires |q| == 4
  {
    && IsEntry(NumberWalk(t', root, q, 0), phys, flags)
    && forall k: nat | k < 3 :: IsOpen(NumberAlong(t', root, q, 0, k))
         && LinkMade(NumberAlong(t, root, q, 0, k), NumberAlong(t', root, q, 0, k), flags.user)
  }

  /** The page table that a successful mapping stores in. */
  lemma {:induction false} MapFindsTable(m: Mem, root: nat, p: nat, phys: nat, flags: Flags)
    requires Good(m) && IsRoot(m, root) && p < USER_PAGES && phys < ADDRESS_SPACE && ProcMap(m, root, p, phys, flags).1
    ensures var (l, pt) := GetPt(m, root, PathOfPage(p), 0, flags);
            && Good(l) && IsRoot(l, root) && pt != 0 && pt in l.tables && pt in l.place && |l.place[pt].path| == 3
            && ProcMap(m, root, p, phys, flags).0 == Stored(l, pt, PathOfPage(p)[3], LeafWord(phys, flags))
  {
    hide Good, SameWalks, Tree, Leaf;
    var q := PathOfPage(p);
    PathIsInjective(p, p);
    GetPtKeeps(m, root, q, 0, flags);
    GetPtReaches(m, root, q, 0, flags);
    TableReached(GetPt(m, root, q, 0, flags).0, root, q);
  }

  lemma {:induction false} TableReached(m: Mem, root: nat, q: seq<nat>)
    requires Good(m) && IsRoot(m, root) && UserPath(q) && Reach(m.tables, root, q, 0) != 0
    ensures var pt := Reach(m.tables, root, q, 0);
            pt in m.tables && pt in m.place && |m.place[pt].path| == 3
  {
    ReachedWord(m.tables, m.place, root, q, 0, EMPTY);
  }

  lemma {:induction false} MapWritesNumbers(m: Mem, root: nat, p: nat, phys: nat, flags: Flags)
    requires Good(m) && IsRoot(m, root) && p < USER_PAGES && phys < ADDRESS_SPACE && ProcMap(m, root, p, phys, flags).1
    ensures EntriesMade(m.tables, ProcMap(m, root, p, phys, flags).0.tables, root, PathOfPage(p), phys, flags)
  {
    hide Good, LeafWord, IsEntry, LinkMade, IsOpen, NumberWalk, NumberAlong, Leaf, GetPt, IsWord, AllWords;
    var n := ProcMap(m, root, p, phys, flags).0;
    MapsExactlyOnePage(m, root, p, phys, flags);
    GoodWords(n);
    WalkIsNumberWalk(n.tables, root, PathOfPage(p), 0);
    LeafIsEntry(phys, flags);
    forall k: nat | k < 3
      ensures IsOpen(NumberAlong(n.tables, root, PathOfPage(p), 0, k))
      ensures LinkMade(NumberAlong(m.tables, root, PathOfPage(p), 0, k),
                       NumberAlong(n.tables, root, PathOfPage(p), 0, k), flags.user)
    {
      MapMakesLink(m, root, p, phys, flags, k);
    }
  }

  lemma {:induction false} MapMakesLink(m: Mem, root: nat, p: nat, phys: nat, flags: Flags, k: nat)
    requires Good(m) && IsRoot(m, root) && p < USER_PAGES && phys < ADDRESS_SPACE && k < 3
    requires ProcMap(m, root, p, phys, flags).1
    ensures var n := ProcMap(m, root, p, phys, flags).0;
            var q := PathOfPage(p);
            && IsOpen(NumberAlong(n.tables, root, q, 0, k))
            && LinkMade(NumberAlong(m.tables, root, q, 0, k), NumberAlong(n.tables, root, q, 0, k), flags.user)
  {
    hide LeafWord, LinkMade, IsOpen, NumberAlong, Leaf, GetPt, IsWord, AllWords, PathOfPage, LinksOpen, UsableFrame;
    var q := PathOfPage(p);
    var (l, pt) := GetPt(m, root, q, 0, flags);
    PathIsInjective(p, p);
    MapFindsTable(m, root, p, phys, flags);
    LeafWordIsWord(phys, flags);
    GetPtLinks(m, root, q, 0, flags, k);
    LeafKeepsLinks(l.tables, l.place, pt, q[3], LeafWord(phys, flags), root, q, 0, k);
    MadeIsThere(NumberAlong(m.tables, root, q, 0, k), NumberAlong(l.tables, root, q, 0, k), flags.user);
    LinksAlong(l, root, q, 0, k);
  }

  lemma {:induction false} MadeIsThere(before: nat, after: nat, user: bool)
    requires LinkMade(before, after, user)
    ensures after != 0
  {
  }

  class AddressSpaces {
    const pmm: Pmm
    /** The frames used as page tables. */
    var tables: Tables
    /** The bytes of every other frame of memory. */
    var data: map<nat, seq<byte>>
    ghost var place: map<nat, Place>

    ghost function Abs(): Mem
      reads this, pmm, pmm.table
    {
      Mem(pmm.FreePages(), tables, place, data)
    }

    ghost predicate Valid()
      reads this, pmm, pmm.table
    {
      pmm.Valid() && Good(Abs())
    }

    /** No address space yet; `data` is what memory holds. */
    constructor (pmm: Pmm, data: map<nat, seq<byte>>)
      requires pmm.Valid() && pmm.pages <= data.Keys
      requires forall f | f in data :: |data[f]| == PAGE_SIZE
      ensures Valid() && this.pmm == pmm && tables == map[] && this.data == data
    {
      this.pmm, this.data := pmm, data;
      tables, place := map[], map[];
      new;
      assert forall p | p in pmm.FreePages() :: p in Elements(pmm.FreePages()) && p in pmm.pages;
    }

    /** `get_pml4_entry`, `get_pdp_entry` and `get_pd_entry` with allocation. */
    method GetEntry(f: nat, i: nat, flags: Flags) returns (g: nat)
      requires Valid() && f in tables && i < 512 && IsLink(place[f], i)
      modifies this, pmm
      ensures Valid() && pmm.table == old(pmm.table)
      ensures (Abs(), g) == EntryStep(old(Abs()), f, i, flags)
    {
      hide Good, Moved, SameWalks, Conserved, UsableFrame, Zeroed, PagingFlags, Tree;
      LinkLeads(Abs(), f, i);
      EntryStepKeeps(Abs(), f, i, flags);
      g := tables[f][i].frame;
      if tables[f][i] == EMPTY {
        g := pmm.Alloc();
        if g != 0 {
          data := data - {g};
          place := place[g := Place(place[f].root, place[f].path + [i])];
          tables := Write(tables[g := Zeroed()], f, i, Word(g, PagingFlags(Flags(true, flags.user))));
        }
      }
    }

    /** `vmm_arch_get_pt` with allocation: the page table on the path of `virt`, or 0. */
    method GetPageTable(root: nat, virt: nat, flags: Flags) returns (pt: nat)
      requires Valid() && IsRoot(Abs(), root) && virt < USER_REGION_SIZE
      modifies this, pmm
      ensures Valid() && pmm.table == old(pmm.table)
      ensures UserPath(PathOfPage(virt / PAGE_SIZE))
              && (Abs(), pt) == GetPt(old(Abs()), root, PathOfPage(virt / PAGE_SIZE), 0, flags)
    {
      ghost var q := PathOfPage(virt / PAGE_SIZE);
      PathOfAddress(virt);
      PathIsInjective(virt / PAGE_SIZE, virt / PAGE_SIZE);
      assert q == PathOf(virt);
      assert q[..1] == [q[0]] && q[..2] == q[..1] + [q[1]] && q[..3] == q[..2] + [q[2]];
      EntryStepKeeps(Abs(), root, q[0], flags);
      var pdp := GetEntry(root, virt / 0x80_0000_0000 % 512, flags);
      if pdp == 0 {
        return 0;
      }
      EntryStepKeeps(Abs(), pdp, q[1], flags);
      var pd := GetEntry(pdp, virt / 0x4000_0000 % 512, flags);
      if pd == 0 {
        return 0;
      }
      EntryStepKeeps(Abs(), pd, q[2], flags);
      pt := GetEntry(pd, virt / 0x20_0000 % 512, flags);
    }

    /** `vmm_arch_proc_map` */
    method Map(root: nat, virt: nat, phys: nat, flags: Flags) returns (ok: bool)
      requires Valid() && IsRoot(Abs(), root) && virt < USER_REGION_SIZE && phys < ADDRESS_SPACE
      modifies this, pmm
      ensures Valid() && pmm.table == old(pmm.table)
      ensures (Abs(), ok) == ProcMap(old(Abs()), root, virt / PAGE_SIZE, phys, flags)
      ensures ok ==> EntriesMade(old(tables), tables, root, PathOf(virt), phys, flags)
    {
      hide Good, GetPt, LeafWord, Conserved, IsRoot, PathOfPage, UserPath, EntriesMade;
      PathOfAddress(virt);
      ProcMapIsGood(Abs(), root, virt / PAGE_SIZE, phys, flags);
      if ProcMap(Abs(), root, virt / PAGE_SIZE, phys, flags).1 {
        MapWritesNumbers(Abs(), root, virt / PAGE_SIZE, phys, flags);
      }
      var pt := GetPageTable(root, virt, flags);
      var i := virt / 0x1000 % 512;
      if pt == 0 {
        return false;
      }
      if tables[pt][i] != EMPTY {
        return false;
      }
      tables := Write(tables, pt, i, LeafWord(phys, flags));
      ok := true;
    }

    /** `vmm_arch_proc_translate`: the frame of a mapped page. */
    method Translate(root: nat, virt: nat) returns (ok: bool, phys: nat)
      requires Valid() && IsRoot(Abs(), root) && virt < USER_REGION_SIZE
      ensures ok <==> Walk(tables, root, virt / PAGE_SIZE) != EMPTY
      ensures ok ==> phys == Walk(tables, root, virt / PAGE_SIZE).frame
      ensures ok <==> NumberWalk(tables, root, PathOf(virt), 0) != 0
      ensures ok ==> phys == PageFloor(NumberWalk(tables, root, PathOf(virt), 0))
    {
      hide NumberWalk, PageFloor, AllWords, IsWord;
      TranslationIsMasked(tables, root, virt);
      ghost var q := PathOfPage(virt / PAGE_SIZE);
      PathOfAddress(virt);
      PathIsInjective(virt / PAGE_SIZE, virt / PAGE_SIZE);
      assert q == PathOf(virt);
      phys := 0;
      assert IsLink(place[root], q[0]);
      var w := tables[root][virt / 0x80_0000_0000 % 512];
      if w == EMPTY {
        return false, phys;
      }
      assert place[w.frame].path == [] + [q[0]] && IsLink(place[w.frame], q[1]);
      w := tables[w.frame][virt / 0x4000_0000 % 512];
      if w == EMPTY {
        return false, phys;
      }
      assert IsLink(place[w.frame], q[2]);
      w := tables[w.frame][virt / 0x20_0000 % 512];
      if w == EMPTY {
        return false, phys;
      }
      w := tables[w.frame][virt / 0x1000 % 512];
      ok, phys := w != EMPTY, w.frame;
    }

    /**
     * `process_arch_create` and `vmm_arch_init_process`: a new address space, or 0 when there is no memory for the
     * process record or no frame left.
     */
    method Create(kernel: seq<Word>, memory: bool) returns (root: nat)
      requires Valid() && |kernel| == 512 && forall i :: 0 <= i < 512 ==> IsWord(kernel[i])
      modifies this, pmm
      ensures Valid() && pmm.table == old(pmm.table)
      ensures root == 0 <==> !memory || old(pmm.FreePages()) == []
      ensures root == 0 ==> Abs() == old(Abs())
      ensures root != 0 ==>
                && root !in old(tables) && IsRoot(Abs(), root) && SameKernelHalf(tables[root], kernel)
                && Moved(old(Abs()), Abs()) && SameWalks(old(Abs()), Abs())
                && RootRow(tables[root], kernel) && Abs() == WithSpace(old(Abs()), tables[root])
                && forall v: nat | v < USER_PAGES :: Walk(tables, root, v) == EMPTY
    {
      if !memory {
        return 0;
      }
      if pmm.FreePages() != [] {
        FreeIsNoTable(Abs());
      }
      ghost var m := Abs();
      root := pmm.Alloc();
      if root == 0 {
        return;
      }
      var row := Zeroed();
      for i := 256 to 512
        invariant |row| == 512
        invariant forall j :: 0 <= j < 256 || i <= j < 512 ==> row[j] == EMPTY
        invariant forall j :: 256 <= j < i ==> row[j] == kernel[j]
      {
        row := row[i := kernel[i]];
      }
      NewSpaceIsEmpty(m, row, kernel);
      data := data - {root};
      place := place[root := Place(root, [])];
      tables := tables[root := row];
    }
  }
}
