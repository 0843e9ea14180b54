/** The slab allocator: objects of one size in pages of their own. */
module Slabs {
  import opened Options
  import opened Layout
  import opened PhysicalPages
  import opened Seqs

  const HEADER_SIZE: nat := 40
  const POINTER_SIZE: nat := 8

  /** The geometry of a cache: aligned object size and objects per slab. */
  datatype Shape = Shape(size: nat, count: nat)

  /** The object size aligned to the native pointer size. */
  function Aligned(objectSize: nat): nat {
    (objectSize + POINTER_SIZE - 1) / POINTER_SIZE * POINTER_SIZE
  }

  /** How many objects fit beside the header. */
  function ObjectsPerSlab(size: nat): nat
    requires size > 0
  {
    (PAGE_SIZE - HEADER_SIZE) / size
  }

  /** `slab_cache_init`; `None` where the kernel panics. */
  function Init(objectSize: nat): Option<Shape> {
    var size := Aligned(objectSize);
    if size < POINTER_SIZE then None
    else if ObjectsPerSlab(size) < 1 then None
    else Some(Shape(size, ObjectsPerSlab(size)))
  }

  ghost predicate Legal(s: Shape) {
    s.size > 0 && s.size % POINTER_SIZE == 0 && s.count > 0 && s.count * s.size <= PAGE_SIZE - HEADER_SIZE
  }

  /** A cache exists exactly for the object sizes that fit beside the header, and it wastes less than one object. */
  lemma {:induction false} InitIsLegal(objectSize: nat)
    ensures Init(objectSize).Some? <==> 0 < objectSize <= PAGE_SIZE - HEADER_SIZE
    ensures Init(objectSize).Some? ==>
              var s := Init(objectSize).value;
              Legal(s) && objectSize <= s.size < objectSize + POINTER_SIZE
                && PAGE_SIZE - HEADER_SIZE < (s.count + 1) * s.size
  {
    hide Aligned, ObjectsPerSlab;
    AlignedSize(objectSize);
    if Aligned(objectSize) > 0 {
      CountFits(Aligned(objectSize));
    }
  }

  lemma {:induction false} AlignedSize(n: nat)
    ensures Aligned(n) % POINTER_SIZE == 0 && n <= Aligned(n) < n + POINTER_SIZE && (n == 0 ==> Aligned(n) == 0)
    ensures n <= PAGE_SIZE - HEADER_SIZE <==> Aligned(n) <= PAGE_SIZE - HEADER_SIZE
    ensures Aligned(n) > 0 ==> Aligned(n) >= POINTER_SIZE
  {
  }

  lemma {:induction false} CountFits(size: nat)
    requires size > 0
    ensures var count := ObjectsPerSlab(size);
            count * size <= PAGE_SIZE - HEADER_SIZE < (count + 1) * size
              && (count >= 1 <==> size <= PAGE_SIZE - HEADER_SIZE)
  {
    DivisionBounds(PAGE_SIZE - HEADER_SIZE, size);
    var count := ObjectsPerSlab(size);
    if count >= 1 {
      MulMono(1, count, size);
    }
  }

  lemma {:induction false} DivisionBounds(a: nat, b: nat)
    requires b > 0
    ensures a / b * b <= a < (a / b + 1) * b
  {
  }

  /** The address of the slab header at the end of a page. */
  function HeaderOfPage(page: nat): nat {
    PHYS_MAP_BASE + page + PAGE_SIZE - HEADER_SIZE
  }

  /** The header that `slab_cache_free` computes from an object address by masking. */
  function HeaderOfObject(a: nat): nat {
    a - a % PAGE_SIZE + PAGE_SIZE - HEADER_SIZE
  }

  /** The start of the page with header `h`. */
  function PageStart(h: nat): nat {
    if h + HEADER_SIZE >= PAGE_SIZE then h + HEADER_SIZE - PAGE_SIZE else 0
  }

  /** The address of object `k` of the slab with header `h`. */
  function Object(s: Shape, h: nat, k: nat): nat {
    PageStart(h) + k * s.size
  }

  ghost predicate IsHeader(h: nat) {
    exists page: nat :: UsableFrame(page) && h == HeaderOfPage(page)
  }

  /** `slab_free` recovers the page that `slab_create` was given. */
  lemma {:induction false} HeaderRecoversPage(page: nat)
    requires UsableFrame(page)
    ensures ProvidePhys(page) == Some(PageStart(HeaderOfPage(page)))
    ensures RevertPhys(PageStart(HeaderOfPage(page))) == Some(page)
  {
  }

  /** Objects are pointer aligned, clear of the header, and masking their address finds the header. */
  lemma {:induction false} ObjectFits(s: Shape, h: nat, k: nat)
    requires Legal(s) && IsHeader(h) && k < s.count
    ensures var a := Object(s, h, k);
            a % POINTER_SIZE == 0 && a + s.size <= h && HeaderOfObject(a) == h
  {
    MulMono(k + 1, s.count, s.size);
    assert k * s.size + s.size == (k + 1) * s.size;
    MulMod(k, s.size);
    MaskFindsHeader(h, k * s.size);
  }

  lemma {:induction false} MaskFindsHeader(h: nat, x: nat)
    requires IsHeader(h) && x < PAGE_SIZE && x % POINTER_SIZE == 0
    ensures (PageStart(h) + x) % POINTER_SIZE == 0 && HeaderOfObject(PageStart(h) + x) == h
    ensures PageStart(h) + PAGE_SIZE - HEADER_SIZE == h
  {
    var page: nat :| UsableFrame(page) && h == HeaderOfPage(page);
    assert PageStart(h) == PHYS_MAP_BASE + page && PageStart(h) % PAGE_SIZE == 0;
    assert (PageStart(h) + x) % PAGE_SIZE == x;
  }

  /** Different objects of a slab do not overlap. */
  lemma {:induction false} ObjectsApart(s: Shape, h: nat, k: nat, k': nat)
    requires Legal(s) && k < k'
    ensures Object(s, h, k) + s.size <= Object(s, h, k')
  {
    MulMono(k + 1, k', s.size);
  }

  lemma {:induction false} MulMono(a: nat, b: nat, c: nat)
    requires a <= b
    ensures a * c <= b * c
  {
  }

  lemma {:induction false} MulMod(k: nat, c: nat)
    requires c % POINTER_SIZE == 0
    ensures k * c % POINTER_SIZE == 0
  {
    var d := c / POINTER_SIZE;
    assert k * c == k * d * POINTER_SIZE;
  }

  /** A slab header: its free list, the next object to be handed out first, and the free count. */
  datatype Slab = Slab(freeList: seq<nat>, freeCount: nat)

  /** A cache: the headers in memory and the two lists of slabs. */
  datatype Cache = Cache(slabs: map<nat, Slab>, full: seq<nat>, partial: seq<nat>)

  /** `a` is an object of the slab with header `h`. */
  ghost predicate IsObject(s: Shape, h: nat, a: nat) {
    exists k: nat :: k < s.count && a == Object(s, h, k)
  }

  /** Some object of the slab with header `h` is live. */
  ghost predicate InUse(s: Shape, h: nat, live: set<nat>) {
    exists a: nat :: a in live && IsObject(s, h, a)
  }

  /** The free objects of a slab are those of its objects that are not live, each listed once and counted. */
  ghost predicate SlabOk(s: Shape, h: nat, b: Slab, live: set<nat>) {
    && IsHeader(h)
    && b.freeCount == |b.freeList|
    && Distinct(b.freeList)
    && (forall a | a in b.freeList :: IsObject(s, h, a) && a !in live)
    && (forall a: nat | IsObject(s, h, a) && a !in live :: a in b.freeList)
  }

  ghost predicate Apart(x: seq<nat>, y: seq<nat>) {
    forall a | a in x :: a !in y
  }

  /** Every slab is in exactly one list, and the full list holds those without a free object. */
  ghost predicate Lists(c: Cache) {
    && Distinct(c.full) && Distinct(c.partial) && Apart(c.full, c.partial)
    && (forall h | h in c.slabs :: h in c.full || h in c.partial)
    && (forall h | h in c.full :: h in c.slabs && c.slabs[h].freeList == [])
    && (forall h | h in c.partial :: h in c.slabs && c.slabs[h].freeList != [])
  }

  /** Every live object belongs to a slab of the cache. */
  ghost predicate Homes(s: Shape, c: Cache, live: set<nat>) {
    forall a | a in live :: HeaderOfObject(a) in c.slabs && IsObject(s, HeaderOfObject(a), a)
  }

  ghost predicate Listed(s: Shape, c: Cache, live: set<nat>) {
    (forall h | h in c.slabs :: SlabOk(s, h, c.slabs[h], live)) && Lists(c) && Homes(s, c, live)
  }

  /** Moreover no slab is without a live object: between two calls no page is held in vain. */
  ghost predicate Inv(s: Shape, c: Cache, live: set<nat>) {
    Listed(s, c, live) && forall h | h in c.slabs :: |c.slabs[h].freeList| < s.count
  }

  /** The free list that `slab_create` builds from the first `n` objects: the last one comes first. */
  ghost function FreshList(s: Shape, h: nat, n: nat): seq<nat> {
    if n == 0 then [] else [Object(s, h, n - 1)] + FreshList(s, h, n - 1)
  }

  lemma {:induction false} FreshListIsAll(s: Shape, h: nat, n: nat)
    requires Legal(s) && IsHeader(h) && n <= s.count
    ensures |FreshList(s, h, n)| == n
    ensures forall a | a in FreshList(s, h, n)  :: exists k: nat :: k < n && a == Object(s, h, k)
    ensures forall k: nat | k < n :: Object(s, h, k) in FreshList(s, h, n)
    ensures forall i, j :: 0 <= i < j < n ==> FreshList(s, h, n)[i] != FreshList(s, h, n)[j]
  {
    if n > 0 {
      FreshListIsAll(s, h, n - 1);
      ObjectFits(s, h, n - 1);
      forall k: nat | k < n - 1
        ensures Object(s, h, k) != Object(s, h, n - 1)
      {
        ObjectsApart(s, h, k, n - 1);
      }
      var rest := FreshList(s, h, n - 1);
      forall i | 0 <= i < n - 1
        ensures rest[i] != Object(s, h, n - 1)
      {
        assert rest[i] in rest;
      }
    }
  }

  /** A slab all of whose objects are free lists as many as it has. */
  lemma {:induction false} AllFree(s: Shape, h: nat, list: seq<nat>)
    requires Legal(s) && IsHeader(h) && Distinct(list)
    requires forall a | a in list :: IsObject(s, h, a)
    ensures |list| <= s.count
    ensures |list| == s.count <==> forall a: nat | IsObject(s, h, a) :: a in list
  {
    var all := FreshList(s, h, s.count);
    FreshListIsAll(s, h, s.count);
    CountDistinct(all);
    CountDistinct(list);
    assert Elements(list) <= Elements(all);
    CountSubset(Elements(list), Elements(all));
    assert forall a: nat :: IsObject(s, h, a) <==> a in Elements(all);
    if |list| == s.count {
      forall a: nat | IsObject(s, h, a)
        ensures a in list
      {
        assert a in Elements(list);
      }
    }
    if forall a: nat | IsObject(s, h, a) :: a in list {
      assert Elements(all) == Elements(list);
    }
  }

  lemma {:induction false} CountSubset(x: set<nat>, y: set<nat>)
    requires x <= y
    ensures |x| <= |y| && (|x| == |y| ==> x == y)
  {
    assert y == x + (y - x);
    assert |y| == |x| + |y - x|;
  }

  /** `slab_create` when the partial list is empty. */
  ghost function Created(s: Shape, c: Cache, h: nat): Cache {
    Cache(c.slabs[h := Slab(FreshList(s, h, s.count), s.count)], c.full, [h])
  }

  /** Handing out the first free object of the first partial slab. */
  ghost function Taken(c: Cache): (Cache, nat)
    requires c.partial != [] && c.partial[0] in c.slabs && c.slabs[c.partial[0]].freeList != []
    requires c.slabs[c.partial[0]].freeCount > 0
  {
    var h := c.partial[0];
    var b := c.slabs[h];
    var slabs := c.slabs[h := Slab(b.freeList[1..], b.freeCount - 1)];
    if b.freeList[1..] == [] then (Cache(slabs, [h] + c.full, c.partial[1..]), b.freeList[0])
    else (Cache(slabs, c.full, c.partial), b.freeList[0])
  }

  /** A new slab has every object free; until the first one is taken it is the one slab without a live object. */
  lemma {:induction false} CreatedIsListed(s: Shape, c: Cache, live: set<nat>, h: nat)
    requires Legal(s) && Inv(s, c, live) && c.partial == [] && IsHeader(h) && h !in c.slabs
    ensures Listed(s, Created(s, c, h), live)
    ensures forall g | g in c.slabs :: Created(s, c, h).slabs[g] == c.slabs[g]
  {
    FreshListIsAll(s, h, s.count);
    forall k: nat | k < s.count
      ensures Object(s, h, k) !in live
    {
      ObjectFits(s, h, k);
    }
  }

  lemma {:induction false} HeaderIsUnique(s: Shape, h: nat, a: nat)
    requires Legal(s) && IsHeader(h) && IsObject(s, h, a)
    ensures HeaderOfObject(a) == h
  {
    var k: nat :| k < s.count && a == Object(s, h, k);
    ObjectFits(s, h, k);
  }

  /** Taking the first free object of a slab. */
  lemma {:induction false} SlabTake(s: Shape, h: nat, b: Slab, live: set<nat>)
    requires Legal(s) && SlabOk(s, h, b, live) && b.freeList != []
    ensures b.freeCount > 0
    ensures var a := b.freeList[0];
            && SlabOk(s, h, Slab(b.freeList[1..], b.freeCount - 1), live + {a})
            && a !in live && HeaderOfObject(a) == h && IsObject(s, h, a) && |b.freeList[1..]| < s.count
  {
    var a := b.freeList[0];
    assert a in b.freeList;
    HeaderIsUnique(s, h, a);
    AllFree(s, h, b.freeList);
    assert b.freeList == [a] + b.freeList[1..];
  }

  /** What happens to an object of one slab is nothing to another slab. */
  lemma {:induction false} SlabElsewhere(s: Shape, g: nat, b: Slab, live: set<nat>, live': set<nat>, a: nat)
    requires Legal(s) && SlabOk(s, g, b, live) && HeaderOfObject(a) != g
    requires live' == live + {a} || live' == live - {a}
    ensures SlabOk(s, g, b, live')
  {
    if IsObject(s, g, a) {
      HeaderIsUnique(s, g, a);
    }
  }

  /** An allocation hands out an object that was not live and keeps the invariant. */
  lemma {:induction false} TakenKeeps(s: Shape, c: Cache, live: set<nat>)
    requires Legal(s) && Listed(s, c, live) && c.partial != []
    requires forall h | h in c.slabs && h != c.partial[0] :: |c.slabs[h].freeList| < s.count
    ensures var h := c.partial[0];
            h in c.slabs && c.slabs[h].freeList != [] && c.slabs[h].freeCount > 0
    ensures var (d, a) := Taken(c);
            && Inv(s, d, live + {a}) && a !in live && d.slabs.Keys == c.slabs.Keys
            && HeaderOfObject(a) in d.slabs && IsObject(s, HeaderOfObject(a), a)
  {
    hide SlabOk, IsObject, Distinct, Apart;
    TakenLists(s, c, live);
    var h := c.partial[0];
    SlabTake(s, h, c.slabs[h], live);
    var (d, a) := Taken(c);
    forall g | g in d.slabs && g != h
      ensures SlabOk(s, g, d.slabs[g], live + {a})
    {
      SlabElsewhere(s, g, c.slabs[g], live, live + {a}, a);
    }
    hide Lists;
  }

  /** The lists after taking from the first partial slab. */
  lemma {:induction false} TakenLists(s: Shape, c: Cache, live: set<nat>)
    requires Lists(c) && c.partial != [] && (forall h | h in c.slabs :: SlabOk(s, h, c.slabs[h], live))
    ensures c.partial[0] in c.slabs && c.slabs[c.partial[0]].freeList != [] && c.slabs[c.partial[0]].freeCount > 0
    ensures Lists(Taken(c).0)
  {
    hide Distinct, IsHeader, IsObject;
    var h := c.partial[0];
    assert h in c.partial && h !in c.full;
    assert SlabOk(s, h, c.slabs[h], live);
    DistinctTail(c.partial);
    DistinctCons(h, c.full);
  }

  /** `slab_cache_free` on an object of a known slab; the second part says whether the page is given back. */
  ghost function Released(s: Shape, c: Cache, a: nat): (Cache, bool)
    requires HeaderOfObject(a) in c.slabs
  {
    var h := HeaderOfObject(a);
    var b := c.slabs[h];
    var wasFull := b.freeCount == 0;
    var isFree := b.freeCount + 1 == s.count;
    var full := if wasFull then Removed(c.full, h) else c.full;
    var partial := if !wasFull && isFree then Removed(c.partial, h) else c.partial;
    if isFree then (Cache(c.slabs - {h}, full, partial), true)
    else
      var slabs := c.slabs[h := Slab([a] + b.freeList, b.freeCount + 1)];
      (Cache(slabs, full, if wasFull then [h] + partial else partial), false)
  }

  /** Putting a live object back on the free list of its slab. */
  lemma {:induction false} SlabGive(s: Shape, h: nat, b: Slab, live: set<nat>, a: nat)
    requires Legal(s) && SlabOk(s, h, b, live) && a in live && IsObject(s, h, a)
    ensures SlabOk(s, h, Slab([a] + b.freeList, b.freeCount + 1), live - {a})
    ensures |b.freeList| + 1 <= s.count
    ensures |b.freeList| + 1 == s.count <==> !InUse(s, h, live - {a})
  {
    AllFree(s, h, [a] + b.freeList);
  }

  /**
   * Freeing a live object keeps the invariant; the page goes back exactly when no object of the slab is
   * live any more.
   */
  lemma {:induction false} ReleasedKeeps(s: Shape, c: Cache, live: set<nat>, a: nat)
    requires Legal(s) && Inv(s, c, live) && a in live
    ensures var h := HeaderOfObject(a);
            && h in c.slabs
            && Inv(s, Released(s, c, a).0, live - {a})
            && Released(s, c, a).0.slabs.Keys == (if Released(s, c, a).1 then c.slabs.Keys - {h} else c.slabs.Keys)
            && (Released(s, c, a).1 <==> !InUse(s, h, live - {a}))
  {
    hide SlabOk, IsObject, Lists, Removed;
    var h := HeaderOfObject(a);
    SlabGive(s, h, c.slabs[h], live, a);
    SlabCounts(s, h, c.slabs[h], live);
    ReleasedLists(s, c, a);
    forall g | g in c.slabs && g != h
      ensures SlabOk(s, g, c.slabs[g], live - {a})
    {
      SlabElsewhere(s, g, c.slabs[g], live, live - {a}, a);
    }
  }

  /** The lists after an object of slab `h` came back. */
  lemma {:induction false} ReleasedLists(s: Shape, c: Cache, a: nat)
    requires Lists(c) && HeaderOfObject(a) in c.slabs
    requires c.slabs[HeaderOfObject(a)].freeCount == |c.slabs[HeaderOfObject(a)].freeList|
    ensures Lists(Released(s, c, a).0)
  {
    hide Removed, Distinct, HeaderOfObject;
    var h := HeaderOfObject(a);
    RemovedOne(c.full, h);
    RemovedOne(c.partial, h);
    if c.slabs[h].freeCount == 0 {
      assert h in c.full && h !in c.partial;
      DistinctCons(h, c.partial);
    } else {
      assert h in c.partial && h !in c.full;
    }
  }

  lemma {:induction false} SlabCounts(s: Shape, h: nat, b: Slab, live: set<nat>)
    requires SlabOk(s, h, b, live)
    ensures b.freeCount == |b.freeList|
  {
  }

  /** When nothing is live, the cache holds no page. */
  lemma {:induction false} EmptyCacheHoldsNothing(s: Shape, c: Cache)
    requires Legal(s) && Inv(s, c, {})
    ensures c.slabs == map[] && c.full == [] && c.partial == []
  {
    forall h | h in c.slabs
      ensures false
    {
      AllFree(s, h, c.slabs[h].freeList);
    }
    NoElements(c.full);
    NoElements(c.partial);
  }

  lemma {:induction false} NoElements(l: seq<nat>)
    ensures l != [] ==> exists x :: x in l
  {
    if l != [] {
      assert l[0] in l;
    }
  }

  /** A page is held only for a live object of its own. */
  lemma {:induction false} HeldPageHasLiveObject(s: Shape, c: Cache, live: set<nat>, h: nat)
    requires Legal(s) && Inv(s, c, live) && h in c.slabs
    ensures InUse(s, h, live)
  {
    AllFree(s, h, c.slabs[h].freeList);
  }

  /** The page of the slab with header `h`. */
  function PageOfHeader(h: nat): nat {
    if h + HEADER_SIZE >= PAGE_SIZE + PHYS_MAP_BASE then h + HEADER_SIZE - PAGE_SIZE - PHYS_MAP_BASE else 0
  }

  /** The pages of the slabs of a cache. */
  ghost function PagesOf(c: Cache): set<nat> {
    set h | h in c.slabs :: PageOfHeader(h)
  }

  lemma {:induction false} PagesAfterTake(s: Shape, c: Cache, live: set<nat>)
    requires Legal(s) && Listed(s, c, live) && c.partial != []
    requires forall h | h in c.slabs && h != c.partial[0] :: |c.slabs[h].freeList| < s.count
    requires c.partial[0] in c.slabs && c.slabs[c.partial[0]].freeList != [] && c.slabs[c.partial[0]].freeCount > 0
    ensures PagesOf(Taken(c).0) == PagesOf(c)
  {
    hide Listed;
    assert Taken(c).0.slabs.Keys == c.slabs.Keys;
  }

  /** A fresh page becomes the page of the new slab, and the allocation that follows keeps the invariant. */
  lemma {:induction false} CreateKeeps(s: Shape, c: Cache, live: set<nat>, h: nat)
    requires Legal(s) && Inv(s, c, live) && c.partial == [] && IsHeader(h) && PageOfHeader(h) !in PagesOf(c)
    ensures var d := Created(s, c, h);
            && Listed(s, d, live) && (forall g | g in d.slabs && g != h :: |d.slabs[g].freeList| < s.count)
            && PagesOf(d) == PagesOf(c) + {PageOfHeader(h)}
  {
    hide Listed, IsHeader, PageOfHeader;
    CreatedIsListed(s, c, live, h);
    var d := Created(s, c, h);
    assert d.slabs.Keys == c.slabs.Keys + {h};
  }

  /** A page leaves the cache with its slab. */
  lemma {:induction false} PagesAfterRelease(s: Shape, c: Cache, live: set<nat>, a: nat)
    requires Legal(s) && Inv(s, c, live) && a in live && HeaderOfObject(a) in c.slabs
    ensures var h := HeaderOfObject(a);
            && RevertPhys(PageStart(h)) == Some(PageOfHeader(h)) && PageOfHeader(h) in PagesOf(c)
            && PagesOf(Released(s, c, a).0) ==
               if Released(s, c, a).1 then PagesOf(c) - {PageOfHeader(h)} else PagesOf(c)
  {
    hide IsObject, Removed, Homes, Lists, Distinct, HeaderOfObject;
    var h := HeaderOfObject(a);
    var d := Released(s, c, a).0;
    assert d.slabs.Keys == if Released(s, c, a).1 then c.slabs.Keys - {h} else c.slabs.Keys;
    forall g | g in c.slabs && g != h
      ensures PageOfHeader(g) != PageOfHeader(h)
    {
      assert SlabOk(s, g, c.slabs[g], live) && SlabOk(s, h, c.slabs[h], live);
    }
  }

  // ---------------------------------------------------------------------------------------------- runs

  /**
   * A cache beside the page allocator: the live objects, the free pages with the next one first, the pages that
   * are handed out, and those of them that somebody else has.
   */
  datatype Pool = Pool(cache: Cache, live: set<nat>, free: seq<nat>, out: set<nat>, others: set<nat>)

  /** What may happen: an allocation, a free of a live object, and other users taking and returning pages. */
  datatype Op = Take | Give(a: nat) | Borrow | Return(page: nat)

  /** A new slab, when no slab has a free object and there is a page. */
  ghost function GrowStep(s: Shape, p: Pool): Pool {
    if p.cache.partial != [] || p.free == [] then p
    else p.(cache := Created(s, p.cache, HeaderOfPage(p.free[0])), free := p.free[1..], out := p.out + {p.free[0]})
  }

  ghost predicate CanTake(c: Cache) {
    && c.partial != [] && c.partial[0] in c.slabs
    && c.slabs[c.partial[0]].freeList != [] && c.slabs[c.partial[0]].freeCount > 0
  }

  /** `slab_cache_alloc` */
  ghost function TakeStep(s: Shape, p: Pool): Pool {
    var g := GrowStep(s, p);
    if !CanTake(g.cache) then g else g.(cache := Taken(g.cache).0, live := g.live + {Taken(g.cache).1})
  }

  /** `slab_cache_free` */
  ghost function GiveStep(s: Shape, p: Pool, a: nat): Pool {
    if a !in p.live || HeaderOfObject(a) !in p.cache.slabs then p
    else
      var page := PageOfHeader(HeaderOfObject(a));
      var q := p.(cache := Released(s, p.cache, a).0, live := p.live - {a});
      if Released(s, p.cache, a).1 then q.(free := [page] + q.free, out := q.out - {page}) else q
  }

  ghost function PoolStep(s: Shape, p: Pool, op: Op): Pool {
    match op
    case Take => TakeStep(s, p)
    case Give(a) => GiveStep(s, p, a)
    case Borrow =>
      if p.free == [] then p
      else p.(free := p.free[1..], out := p.out + {p.free[0]}, others := p.others + {p.free[0]})
    case Return(page) =>
      if page !in p.others then p else p.(free := [page] + p.free, out := p.out - {page}, others := p.others - {page})
  }

  ghost function PoolRun(s: Shape, p: Pool, ops: seq<Op>): Pool
    decreases |ops|
  {
    if ops == [] then p else PoolRun(s, PoolStep(s, p, ops[0]), ops[1..])
  }

  /** The pages handed out are those of the cache and those of others, and no page is both. */
  ghost predicate Shared(p: Pool) {
    p.out == p.others + PagesOf(p.cache) && p.others !! PagesOf(p.cache)
  }

  ghost predicate PoolOk(s: Shape, pages: set<nat>, p: Pool) {
    Legal(s) && Inv(s, p.cache, p.live) && Conserved(pages, p.out, p.free) && Shared(p)
  }

  /** Between the growth and the allocation one slab may be without a live object. */
  ghost predicate Grown(s: Shape, pages: set<nat>, p: Pool) {
    && Legal(s) && Listed(s, p.cache, p.live) && Conserved(pages, p.out, p.free) && Shared(p)
    && (p.cache.partial != [] ==>
         forall h | h in p.cache.slabs && h != p.cache.partial[0] :: |p.cache.slabs[h].freeList| < s.count)
    && (p.cache.partial == [] ==> Inv(s, p.cache, p.live))
  }

  lemma {:induction false} HeaderOfUsable(page: nat)
    requires UsableFrame(page)
    ensures IsHeader(HeaderOfPage(page)) && PageOfHeader(HeaderOfPage(page)) == page
  {
  }

  lemma {:induction false} GrowKeeps(s: Shape, pages: set<nat>, p: Pool)
    requires PoolOk(s, pages, p)
    ensures Grown(s, pages, GrowStep(s, p))
  {
    hide SlabOk, Homes, Lists, UsableFrame, IsHeader, PageOfHeader, HeaderOfPage, PagesOf, Created;
    if p.cache.partial == [] && p.free != [] {
      TakePage(pages, p.out, p.free);
      FreeIsUsable(pages, p.out, p.free);
      HeaderOfUsable(p.free[0]);
      CreateKeeps(s, p.cache, p.live, HeaderOfPage(p.free[0]));
      CreatedPartial(s, p.cache, HeaderOfPage(p.free[0]));
    }
  }

  lemma {:induction false} CreatedPartial(s: Shape, c: Cache, h: nat)
    ensures Created(s, c, h).partial == [h]
  {
  }

  lemma {:induction false} FreeIsUsable(pages: set<nat>, out: set<nat>, free: seq<nat>)
    requires Conserved(pages, out, free) && free != []
    ensures UsableFrame(free[0]) && free[0] !in out
  {
    assert free[0] in Elements(free);
  }

  lemma {:induction false} TakeKeeps(s: Shape, pages: set<nat>, p: Pool)
    requires PoolOk(s, pages, p)
    ensures PoolOk(s, pages, TakeStep(s, p)) && TakeStep(s, p).others == p.others
  {
    hide Inv, Listed, PagesOf, Conserved, Taken, Created, HeaderOfObject, IsObject;
    GrowKeeps(s, pages, p);
    var g := GrowStep(s, p);
    if g.cache.partial != [] {
      TakenKeeps(s, g.cache, g.live);
      PagesAfterTake(s, g.cache, g.live);
    }
  }

  lemma {:induction false} GiveKeeps(s: Shape, pages: set<nat>, p: Pool, a: nat)
    requires PoolOk(s, pages, p)
    ensures PoolOk(s, pages, GiveStep(s, p, a)) && GiveStep(s, p, a).others == p.others
  {
    hide Inv, PagesOf, Conserved, Released, HeaderOfObject, PageOfHeader, InUse, RevertPhys, PageStart;
    if a in p.live && HeaderOfObject(a) in p.cache.slabs {
      ReleasedKeeps(s, p.cache, p.live, a);
      PagesAfterRelease(s, p.cache, p.live, a);
      if Released(s, p.cache, a).1 {
        GiveBackPage(pages, p.out, p.free, PageOfHeader(HeaderOfObject(a)));
      }
    }
  }

  lemma {:induction false} PoolStepKeeps(s: Shape, pages: set<nat>, p: Pool, op: Op)
    requires PoolOk(s, pages, p)
    ensures PoolOk(s, pages, PoolStep(s, p, op))
    ensures op.Take? || op.Give? ==> PoolStep(s, p, op).others == p.others
  {
    hide Inv, PagesOf, Conserved, TakeStep, GiveStep;
    match op
    case Take => TakeKeeps(s, pages, p);
    case Give(a) => GiveKeeps(s, pages, p, a);
    case Borrow =>
      if p.free != [] {
        TakePage(pages, p.out, p.free);
        FreeIsUsable(pages, p.out, p.free);
      }
    case Return(page) =>
      if page in p.others {
        GiveBackPage(pages, p.out, p.free, page);
      }
  }

  /**
   * Over any run of allocations and frees, mixed with other users of pages in any way: every page is free, or
   * somebody else's, or the cache's for one of its live objects. So once everything is freed, every page that
   * nobody else has is back with the page allocator.
   */
  lemma {:induction false} RunReturnsPages(s: Shape, pages: set<nat>, p: Pool, ops: seq<Op>)
    requires PoolOk(s, pages, p)
    ensures var q := PoolRun(s, p, ops);
            && PoolOk(s, pages, q)
            && pages == Elements(q.free) + q.others + PagesOf(q.cache)
            && ((forall op | op in ops :: op.Take? || op.Give?) ==> q.others == p.others)
            && (q.live == {} ==> PagesOf(q.cache) == {} && pages == Elements(q.free) + q.others)
    decreases |ops|
  {
    hide Inv, PagesOf, PoolStep;
    if ops == [] {
      NothingLive(s, p.cache, p.live);
    } else {
      PoolStepKeeps(s, pages, p, ops[0]);
      RunReturnsPages(s, pages, PoolStep(s, p, ops[0]), ops[1..]);
      assert ops == [ops[0]] + ops[1..];
    }
  }

  lemma {:induction false} NothingLive(s: Shape, c: Cache, live: set<nat>)
    requires Legal(s) && Inv(s, c, live)
    ensures live == {} ==> PagesOf(c) == {}
  {
    if live == {} {
      EmptyCacheHoldsNothing(s, c);
    }
  }

  // ---------------------------------------------------------------------------------------------- which object,
  // which page

  /** The free object that is handed out next: the first one of the first slab that has one. */
  ghost function FirstFree(c: Cache): nat {
    if CanTake(c) then c.slabs[c.partial[0]].freeList[0] else 0
  }

  /**
   * An allocation takes no page while a slab has a free object, and hands out the first free object of the first such
   * slab; otherwise it takes one page, the next free one, and hands out the last object that fits in it.
   */
  lemma {:induction false} TakeMeaning(s: Shape, pages: set<nat>, p: Pool)
    requires PoolOk(s, pages, p)
    ensures var q := TakeStep(s, p);
            && (p.cache.partial != [] ==>
                  && CanTake(p.cache) && q.free == p.free && q.out == p.out && q.live == p.live + {FirstFree(p.cache)}
                  && var h := p.cache.partial[0];
                     var rest := p.cache.slabs[h].freeList[1..];
                     && q.cache.slabs == p.cache.slabs[h := Slab(rest, |rest|)]
                     && q.cache.partial == (if rest == [] then p.cache.partial[1..] else p.cache.partial)
                     && q.cache.full == if rest == [] then [h] + p.cache.full else p.cache.full)
            && (p.cache.partial == [] && p.free != [] ==>
                  && q.free == p.free[1..] && q.out == p.out + {p.free[0]}
                  && q.live == p.live + {PHYS_MAP_BASE + p.free[0] + (s.count - 1) * s.size})
            && (p.cache.partial == [] && p.free == [] ==> q == p)
  {
    hide SlabOk, Homes, Conserved, PagesOf, UsableFrame, HeaderOfObject;
    if p.cache.partial != [] {
      PartialCanTake(s, p.cache, p.live);
      SlabCounts(s, p.cache.partial[0], p.cache.slabs[p.cache.partial[0]], p.live);
    } else if p.free != [] {
      var h := HeaderOfPage(p.free[0]);
      FreeIsUsable(pages, p.out, p.free);
      PageOfNew(p.free[0]);
      assert Created(s, p.cache, h).partial == [h];
      assert FreshList(s, h, s.count)[0] == Object(s, h, s.count - 1);
    }
  }

  lemma {:induction false} PartialCanTake(s: Shape, c: Cache, live: set<nat>)
    requires Inv(s, c, live) && c.partial != []
    ensures CanTake(c)
  {
    hide Homes, IsHeader, IsObject, Distinct;
    assert c.partial[0] in c.partial && SlabOk(s, c.partial[0], c.slabs[c.partial[0]], live);
  }

  lemma {:induction false} PageOfNew(page: nat)
    requires UsableFrame(page)
    ensures PageStart(HeaderOfPage(page)) == PHYS_MAP_BASE + page
  {
  }

  /** The header of an object lies at the end of the object's page. */
  ghost predicate InPage(h: nat, a: nat) {
    h == a / 0x1000 * 0x1000 + 0x1000 - 40
  }

  /**
   * A freed object becomes the first free one of its slab, and a slab that was full the first that has one; with no
   * other live object in it, the slab leaves the cache instead and the object's page is the next one to be handed out.
   */
  lemma {:induction false} GiveMeaning(s: Shape, pages: set<nat>, p: Pool, a: nat, h: nat)
    requires PoolOk(s, pages, p) && a in p.live && InPage(h, a)
    ensures h in p.cache.slabs
    ensures var q := GiveStep(s, p, a);
            var (c, d) := (p.cache, q.cache);
            var b := c.slabs[h];
            if b.freeCount + 1 == s.count then
              && d.slabs == c.slabs - {h} && h !in d.full && h !in d.partial
              && q.free != [] && q.free[1..] == p.free && q.out == p.out - {q.free[0]}
              && PHYS_MAP_BASE + q.free[0] == a / 0x1000 * 0x1000
            else
              && q.free == p.free && q.out == p.out
              && d.slabs == c.slabs[h := Slab([a] + b.freeList, b.freeCount + 1)]
              && d.partial == (if b.freeList == [] then [h] + c.partial else c.partial)
              && d.full == if b.freeList == [] then Removed(c.full, h) else c.full
  {
    hide SlabOk, Homes, Conserved, PagesOf, Removed, IsObject, PageOfHeader, InUse;
    MaskIsPage(a);
    ReleasedKeeps(s, p.cache, p.live, a);
    SlabCounts(s, h, p.cache.slabs[h], p.live);
    ReleasedLists(s, p.cache, a);
    PageOfObject(s, h, p.cache.slabs[h], p.live, a);
  }

  lemma {:induction false} PageOfObject(s: Shape, h: nat, b: Slab, live: set<nat>, a: nat)
    requires SlabOk(s, h, b, live) && InPage(h, a)
    ensures PHYS_MAP_BASE + PageOfHeader(h) == a / 0x1000 * 0x1000
  {
  }

  lemma {:induction false} MaskIsPage(a: nat)
    ensures InPage(HeaderOfObject(a), a)
  {
  }

  /** The search for the slab in its list, and its removal. */
  method Unlink(l: seq<nat>, h: nat) returns (r: seq<nat>)
    ensures r == Removed(l, h)
  {
    var i := 0;
    while i < |l|
      invariant i <= |l| && h !in l[..i]
    {
      if l[i] == h {
        RemovedAt(l, h, i);
        return l[..i] + l[i + 1..];
      }
      i := i + 1;
    }
    RemovedAbsent(l, h);
    return l;
  }

  class SlabCache {
    const shape: Shape
    const pmm: Pmm
    /** The slab headers by address. */
    var slabs: map<nat, Slab>
    /** The slabs without and with a free object. */
    var full: seq<nat>
    var partial: seq<nat>
    /** The objects that are handed out right now. */
    ghost var live: set<nat>

    ghost function Abs(): Cache
      reads this
    {
      Cache(slabs, full, partial)
    }

    ghost predicate Valid()
      reads this, pmm, pmm.table
    {
      pmm.Valid() && Legal(shape) && Inv(shape, Abs(), live) && PagesOf(Abs()) <= pmm.live
    }

    /** The cache beside its page allocator. */
    ghost function View(): Pool
      reads this, pmm, pmm.table
    {
      Pool(Abs(), live, pmm.FreePages(), pmm.live, pmm.live - PagesOf(Abs()))
    }

    lemma {:induction false} ViewIsOk()
      requires Valid()
      ensures PoolOk(shape, pmm.pages, View())
    {
      hide Inv, PagesOf;
    }

    /** From any state of the cache, whatever is then allocated, freed or done by others to the page allocator. */
    lemma {:induction false} ReturnsPages(ops: seq<Op>)
      requires Valid()
      ensures var q := PoolRun(shape, View(), ops);
              && pmm.pages == Elements(q.free) + q.others + PagesOf(q.cache)
              && (q.live == {} ==> PagesOf(q.cache) == {} && pmm.pages == Elements(q.free) + q.others)
    {
      hide Inv, PagesOf, PoolRun;
      ViewIsOk();
      RunReturnsPages(shape, pmm.pages, View(), ops);
    }

    constructor (shape: Shape, pmm: Pmm)
      requires Legal(shape) && pmm.Valid()
      ensures Valid() && this.shape == shape && this.pmm == pmm
      ensures Abs() == Cache(map[], [], []) && live == {}
    {
      this.shape, this.pmm := shape, pmm;
      slabs, full, partial, live := map[], [], [], {};
    }

    /** A page made into a slab all of whose objects are free; `None` when there is no page. */
    method SlabCreate() returns (s: Option<(nat, Slab)>)
      requires pmm.Valid()
      modifies pmm
      ensures pmm.Valid() && pmm.pages == old(pmm.pages) && pmm.table == old(pmm.table)
      ensures s.None? <==> old(pmm.FreePages()) == []
      ensures s.None? ==> pmm.live == old(pmm.live) && pmm.FreePages() == old(pmm.FreePages())
      ensures s.Some? ==>
                var (h, b) := s.value;
                && IsHeader(h) && b == Slab(FreshList(shape, h, shape.count), shape.count)
                && PageOfHeader(h) !in old(pmm.live) && pmm.live == old(pmm.live) + {PageOfHeader(h)}
                && h == HeaderOfPage(old(pmm.FreePages())[0]) && PageOfHeader(h) == old(pmm.FreePages())[0]
                && pmm.FreePages() == old(pmm.FreePages())[1..]
    {
      ghost var before := pmm.FreePages();
      assert before != [] ==> before[0] in Elements(before);
      var p := pmm.Alloc();
      if p == 0 {
        return None;
      }
      var virt := ProvidePhys(p);
      HeaderRecoversPage(p);
      var data := virt.value;
      var h := data + PAGE_SIZE - HEADER_SIZE;
      assert h == HeaderOfPage(p);
      var list := [];
      for i := 0 to shape.count
        invariant data == Object(shape, h, i)
        invariant list == FreshList(shape, h, i)
      {
        list := [data] + list;
        data := data + shape.size;
      }
      s := Some((h, Slab(list, shape.count)));
    }

    /** The first step of an allocation: a new slab when no slab has a free object. */
    method Provide() returns (ok: bool)
      requires Valid()
      modifies this, pmm
      ensures pmm.Valid() && pmm.pages == old(pmm.pages) && pmm.table == old(pmm.table)
      ensures live == old(live) && PagesOf(Abs()) <= pmm.live
      ensures Listed(shape, Abs(), live)
      ensures ok <==> old(partial) != [] || old(pmm.FreePages()) != []
      ensures ok ==> partial != [] && forall h | h in slabs && h != partial[0] :: |slabs[h].freeList| < shape.count
      ensures !ok ==> Abs() == old(Abs())
      ensures pmm.live == old(pmm.live) + PagesOf(Abs()) && PagesOf(Abs()) >= PagesOf(old(Abs()))
      ensures (PagesOf(Abs()) - PagesOf(old(Abs()))) !! old(pmm.live)
      ensures View() == GrowStep(shape, old(View()))
    {
      hide Legal, Listed, IsHeader, PageOfHeader, PagesOf, FreshList, HeaderOfPage, Homes, Lists, SlabOk, Conserved;
      if partial == [] {
        var created := SlabCreate();
        if created.None? {
          return false;
        }
        var (h, b) := created.value;
        CreateKeeps(shape, Abs(), live, h);
        slabs := slabs[h := b];
        partial := [h];
        assert View().others == old(View()).others;
      }
      ok := true;
    }

    /** The second step: the first free object of the first slab that has one. */
    method TakeFirst() returns (a: nat)
      requires CanTake(Abs())
      modifies `slabs, `partial, `full, `live
      ensures Abs() == Taken(old(Abs())).0 && a == Taken(old(Abs())).1 && live == old(live) + {a}
    {
      var h := partial[0];
      var b := slabs[h];
      a := b.freeList[0];
      var rest := Slab(b.freeList[1..], b.freeCount - 1);
      slabs := slabs[h := rest];
      if rest.freeList == [] {
        partial := partial[1..];
        full := [h] + full;
      }
      live := live + {a};
    }

    /**
     * Hands out an object that was not live before. The allocation fails exactly when every object of every
     * slab is live and no page is free.
     */
    method Alloc() returns (a: Option<nat>)
      requires Valid()
      modifies this, pmm
      ensures Valid() && pmm.pages == old(pmm.pages) && pmm.table == old(pmm.table)
      ensures a.None? <==> old(partial) == [] && old(pmm.FreePages()) == []
      ensures a.None? ==> Abs() == old(Abs()) && live == old(live)
      ensures a.Some? ==>
                && a.value !in old(live) && live == old(live) + {a.value}
                && HeaderOfObject(a.value) in slabs && IsObject(shape, HeaderOfObject(a.value), a.value)
      ensures pmm.live == old(pmm.live) + PagesOf(Abs()) && PagesOf(Abs()) >= PagesOf(old(Abs()))
      ensures (PagesOf(Abs()) - PagesOf(old(Abs()))) !! old(pmm.live)
      ensures View() == TakeStep(shape, old(View()))
      ensures old(partial) != [] ==>
                && a == Some(FirstFree(old(Abs())))
                && pmm.live == old(pmm.live) && pmm.FreePages() == old(pmm.FreePages())
      ensures old(partial) == [] && a.Some? ==>
                && a.value == PHYS_MAP_BASE + old(pmm.FreePages())[0] + (shape.count - 1) * shape.size
                && pmm.live == old(pmm.live) + {old(pmm.FreePages())[0]}
                && pmm.FreePages() == old(pmm.FreePages())[1..]
    {
      hide Legal, Listed, Inv, IsObject, HeaderOfObject, PagesOf, GrowStep, Taken, FirstFree;
      ViewIsOk();
      TakeMeaning(shape, pmm.pages, View());
      var ok := Provide();
      if !ok {
        return None;
      }
      TakenKeeps(shape, Abs(), live);
      PagesAfterTake(shape, Abs(), live);
      var first := TakeFirst();
      a := Some(first);
      assert first in live;
    }

    /**
     * Takes a live object back; its page goes back to the page allocator exactly when no other object of the
     * slab is live. The object's address leads to a slab of this cache, so the kernel does not panic.
     */
    method Free(a: nat)
      requires Valid() && a in live
      modifies this, pmm, pmm.table
      ensures Valid() && live == old(live) - {a} && pmm.pages == old(pmm.pages) && pmm.table == old(pmm.table)
      ensures var h := HeaderOfObject(a);
              h in old(slabs) &&
              pmm.live == if InUse(shape, h, live) then old(pmm.live) else old(pmm.live) - {PageOfHeader(h)}
      ensures PagesOf(Abs()) == PagesOf(old(Abs())) - (old(pmm.live) - pmm.live)
      ensures View() == GiveStep(shape, old(View()), a)
    {
      hide Legal, Inv, InUse, PageOfHeader, PageStart, RevertPhys, HeaderOfObject, PagesOf, Removed;
      ReleasedKeeps(shape, Abs(), live, a);
      PagesAfterRelease(shape, Abs(), live, a);
      ghost var released := Released(shape, Abs(), a);
      var h := HeaderOfObject(a);
      var b := slabs[h];
      var wasFull := b.freeCount == 0;
      b := Slab([a] + b.freeList, b.freeCount + 1);
      slabs := slabs[h := b];
      var isFree := b.freeCount == shape.count;
      if wasFull || isFree {
        if wasFull {
          full := Unlink(full, h);
        } else {
          partial := Unlink(partial, h);
        }
      }
      live := live - {a};
      if isFree {
        var phys := RevertPhys(PageStart(h));
        slabs := slabs - {h};
        var ok := pmm.Free(phys.value);
      } else if wasFull {
        partial := [h] + partial;
      }
      assert Abs() == released.0;
    }
  }
}
