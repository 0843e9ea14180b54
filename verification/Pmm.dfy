/** The physical page allocator: a table of free pages used as a stack. */
module PhysicalPages {
  import opened Layout
  import opened Seqs

  ghost function Elements(s: seq<nat>): set<nat> {
    set p | p in s
  }

  ghost function Without(s: seq<nat>, p: nat): (t: seq<nat>)
    requires p in s && Distinct(s)
    ensures Elements(t) == Elements(s) - {p} && Distinct(t) && |t| == |s| - 1
  {
    var k :| 0 <= k < |s| && s[k] == p;
    s[..k] + s[k + 1..]
  }

  lemma {:induction false} CountDistinct(s: seq<nat>)
    requires Distinct(s)
    ensures |Elements(s)| == |s|
  {
    if s != [] {
      var front, last := s[..|s| - 1], s[|s| - 1];
      CountDistinct(front);
      assert s == front + [last];
      assert Elements(s) == Elements(front) + {last};
    }
  }

  /** Free and live pages are distinct and together exactly the boot pages, which are all usable. */
  ghost predicate Conserved(pages: set<nat>, live: set<nat>, free: seq<nat>) {
    && Distinct(free)
    && live !! Elements(free)
    && pages == live + Elements(free)
    && (forall p :: p in pages ==> UsableFrame(p))
  }

  /** Handing out the next free page conserves the pages. */
  lemma {:induction false} TakePage(pages: set<nat>, live: set<nat>, free: seq<nat>)
    requires Conserved(pages, live, free) && free != []
    ensures Conserved(pages, live + {free[0]}, free[1..])
    ensures free[0] in pages && free[0] !in live && free[0] != 0
  {
    assert free[0] in Elements(free);
    assert Elements(free) == {free[0]} + Elements(free[1..]) by {
      assert free == [free[0]] + free[1..];
    }
  }

  /** Taking any live page back, in whatever order, conserves the pages. */
  lemma {:induction false} GiveBackPage(pages: set<nat>, live: set<nat>, free: seq<nat>, p: nat)
    requires Conserved(pages, live, free) && p in live
    ensures Conserved(pages, live - {p}, [p] + free)
    ensures UsableFrame(p)
  {
    assert Elements([p] + free) == {p} + Elements(free);
    assert p !in free;
  }

  class Pmm {
    /** `s_freeTable`: the slots from `used` on hold the free pages. */
    var table: array<nat>
    /** `s_freePageCount` */
    var count: nat
    /** `s_allocatedPageCount` */
    var used: nat

    /** The pages handed to the allocator at boot. */
    ghost var pages: set<nat>
    /** The pages that are handed out right now, and the same in some order. */
    ghost var live: set<nat>
    ghost var order: seq<nat>

    ghost predicate Valid()
      reads this, table
    {
      && used <= count <= table.Length
      && Conserved(pages, live, FreePages())
      && live == Elements(order) && Distinct(order) && |order| == used
    }

    /** The free pages, the next one to be handed out first. */
    ghost function FreePages(): seq<nat>
      reads this, table
    {
      if used <= count <= table.Length then table[used..count] else []
    }

    /** The allocator over a table that boot has filled with `table[..count]`: usable pages, if all goes well. */
    constructor (table: array<nat>, count: nat)
      requires count <= table.Length
      ensures this.table == table && live == {}
      ensures FreePages() == table[..count] && pages == Elements(table[..count])
      ensures Distinct(table[..count]) && (forall p | p in pages :: UsableFrame(p)) ==> Valid()
    {
      this.table, this.count, used := table, count, 0;
      live, order, pages := {}, [], Elements(table[..count]);
      new;
      assert table[0..count] == table[..count];
    }

    /** A free page, or 0 when there is none. */
    method Alloc() returns (p: nat)
      requires Valid()
      modifies this
      ensures Valid() && pages == old(pages) && table == old(table)
      ensures old(FreePages()) == [] ==> p == 0 && live == old(live) && FreePages() == []
      ensures old(FreePages()) != [] ==>
                && p == old(FreePages())[0] && p != 0 && FreePages() == old(FreePages())[1..]
                && live == old(live) + {p} && p !in old(live)
    {
      if used == count {
        p := 0;
      } else {
        p := table[used];
        TakePage(pages, live, FreePages());
        assert table[used + 1..count] == FreePages()[1..];
        used := used + 1;
        live, order := live + {p}, order + [p];
      }
    }

    /**
     * Takes a page back. The stack slot below the top is overwritten, whatever page it once held.
     * `ok` is false where the kernel panics; a page that is handed out never makes it panic.
     */
    method Free(p: nat) returns (ok: bool)
      requires Valid()
      modifies this, table
      ensures ok <==> p % PAGE_SIZE == 0 && old(used) > 0
      ensures p in old(live) ==>
                && ok && Valid() && pages == old(pages) && table == old(table)
                && live == old(live) - {p} && FreePages() == [p] + old(FreePages())
    {
      if p in live {
        GiveBackPage(pages, live, FreePages(), p);
      }
      if p % PAGE_SIZE != 0 || used == 0 {
        return false;
      }
      ghost var before := FreePages();
      used := used - 1;
      table[used] := p;
      if p in live {
        order := Without(order, p);
      }
      live := live - {p};
      assert FreePages() == [p] + before;
      ok := true;
    }

    /** The statistics system call: sizes in bytes. */
    method Statistics() returns (memorySize: nat, usedSize: nat)
      requires Valid()
      ensures memorySize == PAGE_SIZE * |pages|
      ensures usedSize == PAGE_SIZE * |live|
    {
      CountDistinct(FreePages());
      CountDistinct(order);
      assert |pages| == |live| + |Elements(FreePages())|;
      memorySize := count * PAGE_SIZE;
      usedSize := used * PAGE_SIZE;
    }
  }
}
