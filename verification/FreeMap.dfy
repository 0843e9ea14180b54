/** The interval map of free regions. */
module FreeMap {
  import opened Layout
  import opened Seqs

  /** A free region: the addresses `base .. base + size`. */
  datatype Region = Region(base: nat, size: nat) {
    function End(): nat {
      base + size
    }

    predicate Has(a: int) {
      base <= a < base + size
    }
  }

  datatype Collision = Nothing | Begin | End | Inside | Overlap

  /** How `e` lies relative to the map entry `item`; both are non-empty. */
  function CheckCollision(item: Region, e: Region): Collision
    requires item.size > 0 && e.size > 0
  {
    var itemEnd, eEnd := item.base + item.size - 1, e.base + e.size - 1;
    if e.base <= item.base && itemEnd <= eEnd then Overlap
    else if e.base >= item.base && eEnd <= itemEnd then Inside
    else if e.base >= item.base && e.base <= itemEnd then Begin
    else if eEnd >= item.base && eEnd <= itemEnd then End
    else Nothing
  }

  /** The five answers in terms of shared addresses. */
  lemma {:induction false} CollisionMeaning(item: Region, e: Region)
    requires item.size > 0 && e.size > 0
    ensures CheckCollision(item, e) == Nothing <==> forall a :: !(item.Has(a) && e.Has(a))
    ensures CheckCollision(item, e) == Overlap <==> forall a :: item.Has(a) ==> e.Has(a)
    ensures CheckCollision(item, e) == Inside <==>
              (forall a :: e.Has(a) ==> item.Has(a)) && exists a :: item.Has(a) && !e.Has(a)
    ensures CheckCollision(item, e) == Begin <==> item.base < e.base < item.End() < e.End()
    ensures CheckCollision(item, e) == End <==> e.base < item.base < e.End() < item.End()
  {
    assert item.Has(item.base) && item.Has(item.End() - 1);
    assert e.Has(e.base) && e.Has(e.End() - 1);
  }

  /** The address `a` is free. */
  ghost predicate Covers(list: seq<Region>, a: int) {
    exists i :: 0 <= i < |list| && list[i].Has(a)
  }

  /** Regions are non-empty, ascending and pairwise disjoint. */
  ghost predicate Sorted(list: seq<Region>) {
    && (forall i :: 0 <= i < |list| ==> list[i].size > 0 && list[i].End() <= ADDRESS_SPACE)
    && (forall i, j :: 0 <= i < j < |list| ==> list[i].End() <= list[j].base)
  }

  /** Every region begins and ends on a point of `grid`. */
  ghost predicate OnGrid(list: seq<Region>, grid: iset<nat>) {
    forall i :: 0 <= i < |list| ==> list[i].base in grid && list[i].End() in grid
  }

  lemma {:induction false} CoversConcat(x: seq<Region>, y: seq<Region>, a: int)
    ensures Covers(x + y, a) <==> Covers(x, a) || Covers(y, a)
  {
    if Covers(x, a) {
      var i :| 0 <= i < |x| && x[i].Has(a);
      assert (x + y)[i].Has(a);
    }
    if Covers(y, a) {
      var i :| 0 <= i < |y| && y[i].Has(a);
      assert (x + y)[|x| + i].Has(a);
    }
  }

  /** What remains of one region without the addresses of `e`: up to two pieces. */
  function Minus(item: Region, e: Region): seq<Region> {
    var leftEnd := if item.End() <= e.base then item.End() else e.base;
    var rightBase := if item.base >= e.End() then item.base else e.End();
    (if item.base < e.base then [Region(item.base, leftEnd - item.base)] else [])
    + (if e.End() < item.End() then [Region(rightBase, item.End() - rightBase)] else [])
  }

  /** What remains of the first `n` entries. */
  function SubtractFirst(list: seq<Region>, n: nat, e: Region): seq<Region>
    requires n <= |list|
  {
    if n == 0 then [] else SubtractFirst(list, n - 1, e) + Minus(list[n - 1], e)
  }

  /** What remains of a whole map. */
  function Subtract(list: seq<Region>, e: Region): seq<Region> {
    SubtractFirst(list, |list|, e)
  }

  lemma {:induction false} MinusCovers(item: Region, e: Region, a: int)
    requires e.size > 0
    ensures Covers(Minus(item, e), a) <==> item.Has(a) && !e.Has(a)
  {
    var m := Minus(item, e);
    if item.Has(a) && a < e.base {
      assert m[0].Has(a);
    } else if item.Has(a) && e.End() <= a {
      assert m[|m| - 1].Has(a);
    }
  }

  lemma {:induction false} SubtractFirstCovers(list: seq<Region>, n: nat, e: Region, a: int)
    requires n <= |list| && e.size > 0
    ensures Covers(SubtractFirst(list, n, e), a) <==> !e.Has(a) && exists i :: 0 <= i < n && list[i].Has(a)
  {
    if n > 0 {
      SubtractFirstCovers(list, n - 1, e, a);
      MinusCovers(list[n - 1], e, a);
      CoversConcat(SubtractFirst(list, n - 1, e), Minus(list[n - 1], e), a);
    }
  }

  /** Excluding is set difference on addresses. */
  lemma {:induction false} SubtractIsDifference(list: seq<Region>, e: Region)
    requires e.size > 0
    ensures forall a :: Covers(Subtract(list, e), a) <==> Covers(list, a) && !e.Has(a)
  {
    forall a
      ensures Covers(Subtract(list, e), a) <==> Covers(list, a) && !e.Has(a)
    {
      SubtractFirstCovers(list, |list|, e, a);
    }
  }

  /** Excluding keeps the map sorted, disjoint and free of empty entries. */
  lemma {:induction false} SubtractSorted(list: seq<Region>, n: nat, e: Region)
    requires Sorted(list) && n <= |list| && e.size > 0
    ensures Sorted(SubtractFirst(list, n, e))
    ensures forall i :: 0 <= i < |SubtractFirst(list, n, e)| ==>
            n > 0 && SubtractFirst(list, n, e)[i].End() <= list[n - 1].End()
  {
    if n > 0 {
      SubtractSorted(list, n - 1, e);
      SortedConcat(SubtractFirst(list, n - 1, e), Minus(list[n - 1], e), list[n - 1].base);
    }
  }

  /** New boundaries can only be the two ends of the excluded range. */
  lemma {:induction false} SubtractOnGrid(list: seq<Region>, n: nat, e: Region, grid: iset<nat>)
    requires n <= |list| && OnGrid(list, grid) && e.base in grid && e.End() in grid
    ensures OnGrid(SubtractFirst(list, n, e), grid)
  {
    if n > 0 {
      SubtractOnGrid(list, n - 1, e, grid);
    }
  }

  predicate Apart(x: Region, e: Region) {
    x.End() <= e.base || e.End() <= x.base
  }

  /** What each collision leaves of the entry. */
  lemma {:induction false} MinusByCollision(item: Region, e: Region)
    requires item.size > 0 && e.size > 0
    ensures CheckCollision(item, e) == Nothing <==> Apart(item, e)
    ensures CheckCollision(item, e) == Nothing ==> Minus(item, e) == [item]
    ensures |Minus(item, e)| <= 2 && forall p :: p in Minus(item, e) ==> Apart(p, e) && p.size > 0
    ensures CheckCollision(item, e) == Overlap ==> Minus(item, e) == []
    ensures CheckCollision(item, e) == Begin ==> Minus(item, e) == [Region(item.base, e.base - item.base)]
    ensures CheckCollision(item, e) == End ==> Minus(item, e) == [Region(e.End(), item.size - (e.End() - item.base))]
  {
  }

  lemma {:induction false} SortedConcat(x: seq<Region>, y: seq<Region>, bound: nat)
    requires Sorted(x) && Sorted(y)
    requires forall i :: 0 <= i < |x| ==> x[i].End() <= bound
    requires forall i :: 0 <= i < |y| ==> bound <= y[i].base
    ensures Sorted(x + y)
  {
  }

  lemma {:induction false} InsertSorted(list: seq<Region>, i: nat, e: Region)
    requires Sorted(list) && i <= |list| && e.size > 0 && e.End() <= ADDRESS_SPACE
    requires forall k :: 0 <= k < i ==> list[k].End() <= e.base
    requires i < |list| ==> e.End() <= list[i].base
    ensures Sorted(list[..i] + [e] + list[i..])
  {
    SortedConcat(list[..i], [e], e.base);
    SortedConcat(list[..i] + [e], list[i..], e.End());
  }

  lemma {:induction false} InsertCovers(list: seq<Region>, i: nat, e: Region, a: int)
    requires i <= |list|
    ensures Covers(list[..i] + [e] + list[i..], a) <==> Covers(list, a) || e.Has(a)
  {
    assert list == list[..i] + list[i..];
    CoversConcat(list[..i] + [e], list[i..], a);
    CoversConcat(list[..i], [e], a);
    CoversConcat(list[..i], list[i..], a);
    assert e.Has(a) ==> [e][0].Has(a);
  }

  /** Inserting a region before entry `i`, where it fits. */
  lemma {:induction false} InsertFits(list: seq<Region>, i: nat, e: Region, grid: iset<nat>)
    requires Sorted(list) && i <= |list| && e.size > 0 && e.End() <= ADDRESS_SPACE
    requires forall k :: 0 <= k < i ==> list[k].End() <= e.base
    requires i < |list| ==> e.End() <= list[i].base
    ensures Sorted(list[..i] + [e] + list[i..])
    ensures forall a :: Covers(list[..i] + [e] + list[i..], a) <==> Covers(list, a) || e.Has(a)
    ensures forall a | e.Has(a) :: !Covers(list, a)
    ensures OnGrid(list, grid) && e.base in grid && e.End() in grid ==> OnGrid(list[..i] + [e] + list[i..], grid)
  {
    InsertSorted(list, i, e);
    forall a
      ensures Covers(list[..i] + [e] + list[i..], a) <==> Covers(list, a) || e.Has(a)
    {
      InsertCovers(list, i, e, a);
    }
  }

  lemma {:induction false} SubtractApart(list: seq<Region>, n: nat, e: Region)
    requires n <= |list|
    requires forall k :: 0 <= k < n ==> Apart(list[k], e) && list[k].size > 0
    ensures SubtractFirst(list, n, e) == list[..n]
    ensures n == |list| ==> Subtract(list, e) == list
  {
    if n > 0 {
      SubtractApart(list, n - 1, e);
      assert Minus(list[n - 1], e) == [list[n - 1]];
      assert list[..n] == list[..n - 1] + [list[n - 1]];
    }
  }

  lemma {:induction false} SubtractConcat(x: seq<Region>, y: seq<Region>, n: nat, e: Region)
    requires n <= |y|
    ensures SubtractFirst(x + y, |x| + n, e) == SubtractFirst(x, |x|, e) + SubtractFirst(y, n, e)
  {
    if n == 0 {
      SubtractPrefix(x, y, |x|, e);
    } else {
      SubtractConcat(x, y, n - 1, e);
      assert (x + y)[|x| + n - 1] == y[n - 1];
    }
  }

  lemma {:induction false} SubtractPrefix(x: seq<Region>, y: seq<Region>, n: nat, e: Region)
    requires n <= |x|
    ensures SubtractFirst(x + y, n, e) == SubtractFirst(x, n, e)
  {
    if n > 0 {
      SubtractPrefix(x, y, n - 1, e);
    }
  }

  lemma {:induction false} SubtractThree(x: seq<Region>, m: seq<Region>, y: seq<Region>, e: Region)
    ensures Subtract(x + m + y, e) == Subtract(x, e) + Subtract(m, e) + Subtract(y, e)
  {
    SubtractConcat(x + m, y, |y|, e);
    SubtractConcat(x, m, |m|, e);
  }

  lemma {:induction false} SubtractSingle(item: Region, e: Region)
    ensures Subtract([item], e) == Minus(item, e)
  {
    assert SubtractFirst([item], 0, e) + Minus(item, e) == Minus(item, e);
  }

  /** A range inside entry `i` leaves every other entry alone. */
  lemma {:induction false} SubtractInside(list: seq<Region>, i: nat, e: Region)
    requires Sorted(list) && i < |list| && e.size > 0
    requires list[i].base <= e.base && e.End() <= list[i].End()
    ensures Subtract(list, e) == list[..i] + Minus(list[i], e) + list[i + 1..]
  {
    Unsplice(list, i);
    SubtractThree(list[..i], [list[i]], list[i + 1..], e);
    SubtractApart(list[..i], i, e);
    SubtractApart(list[i + 1..], |list| - i - 1, e);
    SubtractSingle(list[i], e);
  }

  /** The first entry from `i` on of at least `size`, or the length of the list. */
  function FirstFitFrom(list: seq<Region>, size: nat, i: nat): (k: nat)
    requires i <= |list|
    ensures i <= k <= |list|
    ensures forall j :: i <= j < k ==> list[j].size < size
    ensures k < |list| ==> list[k].size >= size
    decreases |list| - i
  {
    if i == |list| || list[i].size >= size then i else FirstFitFrom(list, size, i + 1)
  }

  function FirstFit(list: seq<Region>, size: nat): nat {
    FirstFitFrom(list, size, 0)
  }

  /** The first fit is large enough, if there is one. */
  lemma {:induction false} FitsAt(list: seq<Region>, size: nat)
    ensures FirstFit(list, size) <= |list|
    ensures FirstFit(list, size) < |list| ==> list[FirstFit(list, size)].size >= size
  {
  }

  /** Of all single entries that could hold the request, the first fit has the lowest base. */
  lemma {:induction false} FirstFitIsLowest(list: seq<Region>, size: nat, i: nat)
    requires Sorted(list) && i < |list| && list[i].size >= size
    ensures FirstFit(list, size) < |list| && list[FirstFit(list, size)].base <= list[i].base
  {
  }

  /** Some entry contains the whole range. */
  ghost predicate Contained(list: seq<Region>, e: Region) {
    exists i :: 0 <= i < |list| && list[i].base <= e.base && e.End() <= list[i].End()
  }

  /** The range is strictly inside the entry, so cutting it out leaves two pieces. */
  predicate Around(item: Region, e: Region) {
    item.base < e.base && e.End() < item.End()
  }

  ghost predicate Splits(list: seq<Region>, e: Region) {
    exists i :: 0 <= i < |list| && Around(list[i], e)
  }

  /** Taking `size` addresses from the front of a larger entry. */
  lemma {:induction false} TakeFront(list: seq<Region>, i: nat, size: nat)
    requires Sorted(list) && i < |list| && 0 < size < list[i].size
    ensures Subtract(list, Region(list[i].base, size)) == list[i := Region(list[i].base + size, list[i].size - size)]
  {
    var rest := Region(list[i].base + size, list[i].size - size);
    SubtractInside(list, i, Region(list[i].base, size));
    UpdateAsConcat(list, i, rest);
  }

  /** Taking a whole entry. */
  lemma {:induction false} TakeWhole(list: seq<Region>, i: nat, e: Region)
    requires Sorted(list) && i < |list| && e == list[i]
    ensures Subtract(list, e) == list[..i] + list[i + 1..]
  {
    SubtractInside(list, i, e);
    EmptyMiddle(list[..i], Minus(list[i], e), list[i + 1..]);
  }

  lemma {:induction false} FirstFitAt(list: seq<Region>, size: nat, i: nat)
    requires i <= |list|
    requires forall k :: 0 <= k < i ==> list[k].size < size
    requires i < |list| ==> list[i].size >= size
    ensures FirstFit(list, size) == i
  {
    var k := FirstFit(list, size);
    assert !(k < i) && !(i < k);
  }

  /** What is left when `size` addresses are taken from the first entry `i` that has them. */
  lemma {:induction false} TakeFirstFit(list: seq<Region>, i: nat, size: nat)
    requires Sorted(list) && i < |list| && list[i].size >= size
    requires forall k :: 0 <= k < i ==> list[k].size < size
    ensures FirstFit(list, size) == i
    ensures list[i].size == size ==>
              Subtract(list, Region(list[i].base, size)) == list[..i] + list[i + 1..]
                && Sorted(list[..i] + list[i + 1..])
    ensures list[i].size > size ==>
              var rest := list[i := Region(list[i].base + size, list[i].size - size)];
              rest == (if size == 0 then list else Subtract(list, Region(list[i].base, size))) && Sorted(rest)
  {
    FirstFitAt(list, size, i);
    if size > 0 {
      SubtractSorted(list, |list|, Region(list[i].base, size));
      if list[i].size == size {
        TakeWhole(list, i, list[i]);
      } else {
        TakeFront(list, i, size);
      }
    }
  }

  ghost function Replaced(list: seq<Region>, i: nat, e: Region): seq<Region>
    requires i < |list|
  {
    list[..i] + Minus(list[i], e) + list[i + 1..]
  }

  lemma {:induction false} ReplaceSorted(list: seq<Region>, i: nat, e: Region)
    requires Sorted(list) && i < |list| && e.size > 0
    ensures Sorted(Replaced(list, i, e))
  {
    var m := Minus(list[i], e);
    assert forall k :: 0 <= k < |m| ==> list[i].base <= m[k].base && m[k].End() <= list[i].End();
    SortedConcat(list[..i], m, list[i].base);
    assert forall k :: 0 <= k < i ==> list[..i][k].End() <= list[i].End();
    SortedConcat(list[..i] + m, list[i + 1..], list[i].End());
  }

  lemma {:induction false} ReplaceSubtracts(list: seq<Region>, i: nat, e: Region)
    requires i < |list| && list[i].size > 0 && e.size > 0
    ensures Subtract(Replaced(list, i, e), e) == Subtract(list, e)
  {
    var m := Minus(list[i], e);
    MinusByCollision(list[i], e);
    Unsplice(list, i);
    SubtractThree(list[..i], [list[i]], list[i + 1..], e);
    SubtractThree(list[..i], m, list[i + 1..], e);
    assert Subtract(m, e) == m by {
      SubtractApart(m, |m|, e);
    }
    assert Subtract([list[i]], e) == m by {
      SubtractSingle(list[i], e);
    }
  }

  /** An entry that meets the range is the only one that can have it strictly inside. */
  lemma {:induction false} MeetsOne(list: seq<Region>, i: nat, e: Region)
    requires Sorted(list) && i < |list| && e.size > 0 && !Apart(list[i], e)
    ensures forall k :: 0 <= k < |list| && k != i ==> !Around(list[k], e)
  {
  }

  /** One step of the exclusion loop, on values. */
  lemma {:induction false} ReplaceKeeps(list: seq<Region>, i: nat, e: Region)
    requires Sorted(list) && i < |list| && e.size > 0
    ensures Sorted(Replaced(list, i, e))
    ensures Subtract(Replaced(list, i, e), e) == Subtract(list, e)
    ensures Apart(list[i], e) ==> Replaced(list, i, e) == list
    ensures !Apart(list[i], e) ==> !Splits(Replaced(list, i, e), e)
    ensures !Apart(list[i], e) && !Around(list[i], e) ==> !Splits(list, e)
    ensures |Minus(list[i], e)| > 0 ==> Apart(Replaced(list, i, e)[i], e)
  {
    ReplaceSorted(list, i, e);
    ReplaceSubtracts(list, i, e);
    MinusByCollision(list[i], e);
    if Apart(list[i], e) {
      Unsplice(list, i);
    } else {
      MeetsOne(list, i, e);
    }
  }

  lemma {:induction false} SharedAddress(list: seq<Region>, i: nat, e: Region)
    requires i < |list| && list[i].size > 0 && e.size > 0 && !Apart(list[i], e)
    ensures exists a :: e.Has(a) && Covers(list, a)
  {
    var a := if e.base >= list[i].base then e.base else list[i].base;
    assert list[i].Has(a) && e.Has(a);
    assert Covers(list, a);
  }

  /** `after` is `list` with `e` inserted somewhere. */
  ghost predicate Inserted(list: seq<Region>, after: seq<Region>, e: Region) {
    exists i :: 0 <= i <= |list| && after == list[..i] + [e] + list[i..]
  }

  class MemoryMap {
    /** The entries, in list order. */
    var list: seq<Region>
    /** How many more entries the entry allocator can hand out. */
    var spare: nat
    /** Whether that allocator reuses a freed entry: the slab one does, the early boot one does not. */
    const recycles: bool

    ghost predicate Valid()
      reads this
    {
      Sorted(list)
    }

    constructor (spare: nat, recycles: bool)
      ensures Valid() && list == [] && this.spare == spare && this.recycles == recycles
    {
      list, this.spare, this.recycles := [], spare, recycles;
    }

    method FreeEntry()
      modifies this`spare
      ensures spare == if recycles then old(spare) + 1 else old(spare)
    {
      if recycles {
        spare := spare + 1;
      }
    }

    /** Adds a region; it is refused when it shares an address with the map or no entry is left. */
    method Add(base: nat, size: nat, ghost grid: iset<nat>) returns (ok: bool)
      requires Valid() && size > 0 && base + size <= ADDRESS_SPACE
      modifies this
      ensures Valid()
      ensures ok <==> old(spare) > 0 && forall a | Region(base, size).Has(a) :: !Covers(old(list), a)
      ensures !ok ==> list == old(list)
      ensures ok ==> Inserted(old(list), list, Region(base, size))
      ensures ok ==> forall a :: Covers(list, a) <==> Covers(old(list), a) || Region(base, size).Has(a)
      ensures spare == if old(spare) == 0 then 0 else old(spare) - 1
      ensures OnGrid(old(list), grid) && base in grid && base + size in grid ==> OnGrid(list, grid)
    {
      hide OnGrid;
      if spare == 0 {
        return false;
      }
      spare := spare - 1;
      var e := Region(base, size);
      var i := 0;
      while i < |list|
        invariant 0 <= i <= |list| && list == old(list) && spare == old(spare) - 1
        invariant forall k :: 0 <= k < i ==> list[k].End() <= base
      {
        MinusByCollision(list[i], e);
        if CheckCollision(list[i], e) != Nothing {
          SharedAddress(list, i, e);
          return false;
        }
        if list[i].base > base {
          break;
        }
        i := i + 1;
      }
      InsertFits(list, i, e, grid);
      list := list[..i] + [e] + list[i..];
      ok := true;
    }

    /** Cuts `e` out of entry `i`, which contains it but is not equal to it. */
    method ExcludeInside(i: nat, e: Region) returns (ok: bool)
      requires i < |list| && list[i].size > 0 && e.size > 0
      requires CheckCollision(list[i], e) == Inside
      modifies this
      ensures ok <==> old(spare) > 0 || !Around(old(list[i]), e)
      ensures !ok ==> list == old(list) && spare == old(spare)
      ensures ok ==> list == old(list)[..i] + Minus(old(list)[i], e) + old(list)[i + 1..]
      ensures ok ==> spare == old(spare) - if Around(old(list)[i], e) then 1 else 0
    {
      var item := list[i];
      if item.base == e.base {
        // the truncation panics are unreachable: the entry is larger than the range
        assert item.size - e.size != 0;
        list := list[..i] + [Region(item.base + e.size, item.size - e.size)] + list[i + 1..];
      } else if item.base + item.size - 1 == e.base + e.size - 1 {
        assert item.size - e.size != 0;
        list := list[..i] + [Region(item.base, item.size - e.size)] + list[i + 1..];
      } else {
        if spare == 0 {
          return false;
        }
        spare := spare - 1;
        var tail := Region(e.base + e.size, item.size - (e.base + e.size - item.base));
        assert e.base - item.base != 0;
        list := list[..i] + [Region(item.base, e.base - item.base), tail] + list[i + 1..];
      }
      ok := true;
    }

    /** The switch of the exclusion loop: entry `i` is replaced by what `e` leaves of it. */
    method ExcludeAt(i: nat, e: Region) returns (removed: bool, ok: bool)
      requires i < |list| && list[i].size > 0 && e.size > 0
      modifies this
      ensures ok <==> old(spare) > 0 || !Around(old(list[i]), e)
      ensures ok ==> list == Replaced(old(list), i, e)
      ensures ok ==> removed == (Minus(old(list[i]), e) == [])
      ensures spare >= old(spare) - if Around(old(list[i]), e) then 1 else 0
      ensures ok && !recycles ==> spare == old(spare) - if Around(old(list[i]), e) then 1 else 0
      ensures !ok || Apart(old(list[i]), e) ==> list == old(list) && spare == old(spare)
    {
      var item := list[i];
      MinusByCollision(item, e);
      Unsplice(list, i);
      removed, ok := false, true;
      match CheckCollision(item, e) {
        case Begin =>
          assert e.base - item.base != 0;
          list := list[..i] + [Region(item.base, e.base - item.base)] + list[i + 1..];
        case End =>
          assert item.End() - e.End() != 0;
          list := list[..i] + [Region(e.base + e.size, item.size - (e.base + e.size - item.base))] + list[i + 1..];
        case Overlap =>
          EmptyMiddle(list[..i], Minus(item, e), list[i + 1..]);
          list := list[..i] + list[i + 1..];
          FreeEntry();
          removed := true;
        case Inside =>
          ok := ExcludeInside(i, e);
        case Nothing =>
      }
    }

    /** Removes every address of the range from the map. */
    method Exclude(base: nat, size: nat) returns (ok: bool)
      requires Valid() && size > 0 && base + size <= ADDRESS_SPACE
      modifies this
      ensures Valid()
      ensures ok <==> old(spare) > 0 || !Splits(old(list), Region(base, size))
      ensures ok ==> list == Subtract(old(list), Region(base, size))
      ensures !ok ==> list == old(list) && spare == old(spare)
      ensures spare >= old(spare) - 1
      ensures ok && !recycles ==> spare == old(spare) - if Splits(old(list), Region(base, size)) then 1 else 0
    {
      var e := Region(base, size);
      ghost var was := list;
      var i := 0;
      while i < |list|
        invariant 0 <= i <= |list| && Sorted(list)
        invariant Subtract(list, e) == Subtract(was, e)
        invariant forall k :: 0 <= k < i ==> Apart(list[k], e)
        invariant (list == was && spare == old(spare)) || (!Splits(list, e) && (old(spare) > 0 || !Splits(was, e)))
        invariant spare >= old(spare) - if Splits(list, e) then 0 else 1
        invariant !recycles ==> spare == old(spare) - if Splits(was, e) && !Splits(list, e) then 1 else 0
        decreases Splits(list, e), |list| - i
      {
        ReplaceKeeps(list, i, e);
        var removed, cut := ExcludeAt(i, e);
        if !cut {
          return false;
        }
        if !removed {
          i := i + 1;
        }
      }
      assert !Splits(list, e);
      assert Subtract(list, e) == list by {
        SubtractApart(list, |list|, e);
      }
      ok := true;
    }

    /** First fit; `fault` is the null dereference on an exact fit at the head of the list. */
    method Alloc(size: nat) returns (p: nat, fault: bool)
      requires Valid()
      modifies this
      ensures Valid()
      ensures fault <==> old(list) != [] && old(list)[0].size == size
      ensures fault || FirstFit(old(list), size) == |old(list)| ==> list == old(list) && spare == old(spare)
      ensures !fault ==>
                var k := FirstFit(old(list), size);
                p == if k == |old(list)| then 0 else old(list)[k].base
      ensures !fault && FirstFit(old(list), size) < |old(list)| ==>
                list == if size == 0 then old(list) else Subtract(old(list), Region(p, size))
    {
      hide Sorted, Subtract, FirstFit;
      p, fault := 0, false;
      var i := 0;
      while i < |list| && list[i].size < size
        invariant 0 <= i <= |list|
        invariant forall k :: 0 <= k < i ==> list[k].size < size
      {
        i := i + 1;
      }
      if i == |list| {
        FirstFitAt(list, size, i);
        return;
      }
      TakeFirstFit(list, i, size);
      var item := list[i];
      p := item.base;
      if item.size == size {
        if i == 0 {
          // the predecessor is still null here
          return p, true;
        }
        list := list[..i] + list[i + 1..];
        FreeEntry();
      } else {
        list := list[i := Region(item.base + size, item.size - size)];
      }
    }

    /** Takes exactly the given range, which must lie in one entry. */
    method AllocAt(base: nat, size: nat) returns (ok: bool)
      requires Valid() && size > 0 && base + size <= ADDRESS_SPACE
      modifies this
      ensures Valid()
      ensures ok <==>
                Contained(old(list), Region(base, size)) && (old(spare) > 0 || !Splits(old(list), Region(base, size)))
      ensures ok ==> list == Subtract(old(list), Region(base, size))
      ensures !ok ==> list == old(list) && spare == old(spare)
    {
      var e := Region(base, size);
      var i := 0;
      while i < |list|
        invariant 0 <= i <= |list| && list == old(list) && spare == old(spare)
        invariant forall k :: 0 <= k < i ==> Apart(list[k], e)
      {
        var item := list[i];
        match CheckCollision(item, e) {
          case Begin =>
            return false;
          case End =>
            return false;
          case Overlap =>
            if item.base == e.base && item.size == e.size {
              TakeWhole(list, i, e);
              SubtractSorted(list, |list|, e);
              list := list[..i] + list[i + 1..];
              FreeEntry();
              return true;
            }
            return false;
          case Inside =>
            SubtractInside(list, i, e);
            SubtractSorted(list, |list|, e);
            ok := ExcludeInside(i, e);
            return ok;
          case Nothing =>
        }
        i := i + 1;
      }
      ok := false;
    }
  }

  /** The null dereference happens: one region is added, and then exactly that much memory is asked for. */
  method ExactFitAtHead(base: nat, size: nat) returns (fault: bool)
    requires size > 0 && base + size <= ADDRESS_SPACE
    ensures fault
  {
    var m := new MemoryMap(1, true);
    var ok := m.Add(base, size, iset{});
    var p: nat;
    p, fault := m.Alloc(size);
  }
}
