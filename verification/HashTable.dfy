/** The chained hash table that ports, servers and threads are registered in. */
module HashTables {
  import opened Seqs

  /** A table item: its key never changes while it is linked. */
  class Item<K> {
    const key: K
    var next: Item?<K>

    constructor (key: K)
      ensures this.key == key && next == null
    {
      this.key, next := key, null;
    }
  }

  /** Comparison is an equivalence, and equal keys have equal hashes. */
  ghost predicate Respects<K(!new)>(hash: K -> nat, compare: (K, K) -> bool) {
    && (forall a :: compare(a, a))
    && (forall a, b :: compare(a, b) ==> compare(b, a) && hash(a) == hash(b))
    && (forall a, b, c :: compare(a, b) && compare(b, c) ==> compare(a, c))
  }

  /** The newest item with a key, in a list that has the newest first. */
  ghost function Newest<K>(s: seq<Item<K>>, compare: (K, K) -> bool, key: K): Item?<K> {
    if s == [] then null else if compare(key, s[0].key) then s[0] else Newest(s[1..], compare, key)
  }

  /** The list without the newest item with a key. */
  ghost function Dropped<K>(s: seq<Item<K>>, compare: (K, K) -> bool, key: K): seq<Item<K>> {
    if s == [] then [] else if compare(key, s[0].key) then s[1..] else [s[0]] + Dropped(s[1..], compare, key)
  }

  /** All the items with a key, the newest first. */
  ghost function Stack<K>(s: seq<Item<K>>, compare: (K, K) -> bool, key: K): seq<Item<K>> {
    if s == [] then []
    else if compare(key, s[0].key) then [s[0]] + Stack(s[1..], compare, key) else Stack(s[1..], compare, key)
  }

  /** The items of one bucket, the newest first. */
  ghost function InBucket<K>(s: seq<Item<K>>, hash: K -> nat, size: nat, b: nat): seq<Item<K>>
    requires size > 0
  {
    if s == [] then []
    else
      var rest := InBucket(s[1..], hash, size, b);
      if hash(s[0].key) % size == b then [s[0]] + rest else rest
  }

  /** Looking a key up answers the top of its stack. */
  lemma {:induction false} NewestIsTop<K>(s: seq<Item<K>>, compare: (K, K) -> bool, key: K)
    ensures Newest(s, compare, key) == if Stack(s, compare, key) == [] then null else Stack(s, compare, key)[0]
  {
    if s != [] {
      NewestIsTop(s[1..], compare, key);
    }
  }

  /** Removing a key uncovers the item below the top of its stack and leaves every other key's stack as it is. */
  lemma {:induction false} RemoveUncovers<K(!new)>(s: seq<Item<K>>, hash: K -> nat, compare: (K, K) -> bool,
      key: K, other: K)
    requires Respects(hash, compare)
    ensures Stack(Dropped(s, compare, key), compare, other) ==
            var stack := Stack(s, compare, other);
            if compare(key, other) && stack != [] then stack[1..] else stack
  {
    if s != [] && !compare(key, s[0].key) {
      RemoveUncovers(s[1..], hash, compare, key, other);
      assert ([s[0]] + Dropped(s[1..], compare, key))[1..] == Dropped(s[1..], compare, key);
    }
  }

  /** A lookup may confine itself to the bucket of the key. */
  lemma {:induction false} NewestInBucket<K(!new)>(s: seq<Item<K>>, hash: K -> nat, compare: (K, K) -> bool,
      size: nat, key: K)
    requires size > 0 && Respects(hash, compare)
    ensures Newest(InBucket(s, hash, size, hash(key) % size), compare, key) == Newest(s, compare, key)
  {
    if s != [] {
      var b := hash(key) % size;
      NewestInBucket(s[1..], hash, compare, size, key);
      var rest := InBucket(s[1..], hash, size, b);
      assert ([s[0]] + rest)[1..] == rest;
    }
  }

  /** A removal may confine itself to the bucket of the key, and no other bucket notices. */
  lemma {:induction false} DroppedInBucket<K(!new)>(s: seq<Item<K>>, hash: K -> nat, compare: (K, K) -> bool,
      size: nat, key: K, b: nat)
    requires size > 0 && Respects(hash, compare)
    ensures InBucket(Dropped(s, compare, key), hash, size, b) ==
            if b == hash(key) % size then Dropped(InBucket(s, hash, size, b), compare, key)
              else InBucket(s, hash, size, b)
  {
    if s != [] {
      DroppedInBucket(s[1..], hash, compare, size, key, b);
      var rest := InBucket(s[1..], hash, size, b);
      assert ([s[0]] + rest)[1..] == rest;
      var left := Dropped(s[1..], compare, key);
      assert ([s[0]] + left)[1..] == left;
    }
  }

  lemma {:induction false} BucketHolds<K>(s: seq<Item<K>>, hash: K -> nat, size: nat, b: nat)
    requires size > 0
    ensures forall x | x in InBucket(s, hash, size, b) :: x in s && hash(x.key) % size == b
    ensures Distinct(s) ==> Distinct(InBucket(s, hash, size, b))
  {
    if s != [] {
      BucketHolds(s[1..], hash, size, b);
      assert Distinct(s) ==> s[0] !in s[1..];
    }
  }

  /** What the loops of lookup and removal compute once they have found the item, or have not. */
  lemma {:induction false} FoundAt<K>(s: seq<Item<K>>, compare: (K, K) -> bool, key: K, k: nat)
    requires k <= |s| && (forall j | 0 <= j < k :: !compare(key, s[j].key))
    requires k < |s| ==> compare(key, s[k].key)
    ensures Newest(s, compare, key) == (if k < |s| then s[k] else null)
    ensures Dropped(s, compare, key) == (if k < |s| then s[..k] + s[k + 1..] else s)
  {
    if k > 0 {
      FoundAt(s[1..], compare, key, k - 1);
    }
  }

  lemma {:induction false} DroppedOnce<K>(s: seq<Item<K>>, compare: (K, K) -> bool, key: K)
    requires Distinct(s)
    ensures Distinct(Dropped(s, compare, key))
    ensures Newest(s, compare, key) != null ==> Newest(s, compare, key) in s
    ensures forall x: Item<K> :: x in Dropped(s, compare, key) <==> x in s && x != Newest(s, compare, key)
    ensures |Dropped(s, compare, key)| == |s| - if Newest(s, compare, key) == null then 0 else 1
  {
    if s != [] {
      DroppedOnce(s[1..], compare, key);
      assert s == [s[0]] + s[1..] && s[0] !in s[1..];
    }
  }

  /** The item at a position of a chain, or null past its end. */
  ghost function Nth<K>(chain: seq<Item<K>>, i: nat): Item?<K> {
    if i < |chain| then chain[i] else null
  }

  /** The list of items hanging off `head` through the links is `chain`. */
  ghost predicate Linked<K>(head: Item?<K>, chain: seq<Item<K>>, owner: set<Item<K>>)
    reads owner
  {
    && (forall x | x in chain :: x in owner)
    && head == Nth(chain, 0)
    && forall j {:trigger chain[j]} :: 0 <= j < |chain| ==> chain[j].next == Nth(chain, j + 1)
  }

  /** The chains are the buckets of the contents. */
  ghost predicate Buckets<K>(s: seq<Item<K>>, hash: K -> nat, chains: seq<seq<Item<K>>>) {
    |chains| > 0 && forall b :: 0 <= b < |chains| ==> chains[b] == InBucket(s, hash, |chains|, b)
  }

  /** No item is in two chains, or twice in one. */
  ghost predicate Separate<K>(chains: seq<seq<Item<K>>>) {
    && (forall b :: 0 <= b < |chains| ==> Distinct(chains[b]))
    && (forall b, c, x | 0 <= b < |chains| && 0 <= c < |chains| && x in chains[b] && x in chains[c] :: b == c)
  }

  /** A chain without its `i`-th item. */
  lemma {:induction false} WithoutOne<K>(chain: seq<Item<K>>, i: nat)
    requires i < |chain|
    ensures var left := chain[..i] + chain[i + 1..];
            && |left| == |chain| - 1 && (forall x | x in left :: x in chain)
            && Nth(left, 0) == Nth(chain, if i == 0 then 1 else 0)
            && (forall j :: 0 <= j < |left| ==>
                  && left[j] == chain[if j < i then j else j + 1]
                  && Nth(left, j + 1) == Nth(chain, if j + 1 < i then j + 1 else j + 2))
  {
    var left := chain[..i] + chain[i + 1..];
    forall j: nat | j < |left|
      ensures left[j] == chain[if j < i then j else j + 1]
      ensures Nth(left, j + 1) == Nth(chain, if j + 1 < i then j + 1 else j + 2)
    {
      if j + 1 < |left| {
        assert left[j + 1] == chain[if j + 1 < i then j + 1 else j + 2];
      }
    }
    assert forall x | x in left :: x in chain;
  }

  lemma {:induction false} NotElsewhere<K>(chains: seq<seq<Item<K>>>, idx: nat)
    requires Separate(chains) && idx < |chains|
    ensures Distinct(chains[idx])
    ensures forall b, i, j | 0 <= b < |chains| && b != idx && 0 <= i < |chains[idx]| && 0 <= j < |chains[b]| ::
              chains[idx][i] != chains[b][j]
  {
    forall b, i, j | 0 <= b < |chains| && b != idx && 0 <= i < |chains[idx]| && 0 <= j < |chains[b]|
      ensures chains[idx][i] != chains[b][j]
    {
      assert chains[idx][i] in chains[idx] && chains[b][j] in chains[b];
    }
  }

  lemma {:induction false} BucketsAreSeparate<K>(s: seq<Item<K>>, hash: K -> nat, chains: seq<seq<Item<K>>>)
    requires Buckets(s, hash, chains) && Distinct(s)
    ensures Separate(chains)
    ensures forall b, x | 0 <= b < |chains| && x in chains[b] :: x in s
  {
    forall b | 0 <= b < |chains|
      ensures forall x | x in chains[b] :: x in s && hash(x.key) % |chains| == b
      ensures Distinct(chains[b])
    {
      BucketHolds(s, hash, |chains|, b);
    }
  }

  lemma {:induction false} AddToBuckets<K>(s: seq<Item<K>>, hash: K -> nat, chains: seq<seq<Item<K>>>, item: Item<K>)
    requires Buckets(s, hash, chains)
    ensures var b := hash(item.key) % |chains|;
            Buckets([item] + s, hash, chains[b := [item] + chains[b]])
  {
    assert ([item] + s)[1..] == s;
  }

  lemma {:induction false} RemoveFromBuckets<K(!new)>(
      s: seq<Item<K>>, hash: K -> nat, compare: (K, K) -> bool, chains: seq<seq<Item<K>>>, key: K, k: nat)
    requires Buckets(s, hash, chains) && Respects(hash, compare)
    requires var chain := chains[hash(key) % |chains|];
             k <= |chain| && (forall j | 0 <= j < k :: !compare(key, chain[j].key))
               && (k < |chain| ==> compare(key, chain[k].key))
    ensures var b := hash(key) % |chains|;
            && Newest(s, compare, key) == (if k < |chains[b]| then chains[b][k] else null)
            && (k == |chains[b]| ==> Dropped(s, compare, key) == s)
            && (k < |chains[b]| ==>
                  Buckets(Dropped(s, compare, key), hash, chains[b := chains[b][..k] + chains[b][k + 1..]]))
  {
    hide InBucket, Newest, Dropped;
    var b := hash(key) % |chains|;
    FoundAt(chains[b], compare, key, k);
    NewestInBucket(s, hash, compare, |chains|, key);
    forall c | 0 <= c < |chains|
      ensures InBucket(Dropped(s, compare, key), hash, |chains|, c) ==
              if c == b then Dropped(chains[b], compare, key) else chains[c]
    {
      DroppedInBucket(s, hash, compare, |chains|, key, c);
    }
    if k == |chains[b]| {
      NothingDropped(s, compare, key);
    }
  }

  lemma {:induction false} NothingDropped<K>(s: seq<Item<K>>, compare: (K, K) -> bool, key: K)
    requires Newest(s, compare, key) == null
    ensures Dropped(s, compare, key) == s
  {
    if s != [] {
      NothingDropped(s[1..], compare, key);
    }
  }

  class HashTable<K(!new)> {
    const table: array<Item?<K>>
    const hash: K -> nat
    const compare: (K, K) -> bool
    var items: nat

    /** The items in the table, the newest first. */
    ghost var contents: seq<Item<K>>
    /** The same, bucket by bucket. */
    ghost var chains: seq<seq<Item<K>>>
    /** How many items were ever removed. */
    ghost var removed: nat

    ghost function Members(): set<Item<K>>
      reads this
    {
      set x | x in contents
    }

    ghost predicate Valid()
      reads this, table, Members()
    {
      && |chains| == table.Length > 0 && Respects(hash, compare) && Distinct(contents)
           && Buckets(contents, hash, chains)
      && (forall b :: 0 <= b < |chains| ==> Linked(table[b], chains[b], Members()))
      && items == |contents| + removed
    }

    /** A table over a zeroed page of bucket heads. */
    constructor (table: array<Item?<K>>, hash: K -> nat, compare: (K, K) -> bool)
      requires table.Length > 0 && Respects(hash, compare)
      requires forall b :: 0 <= b < table.Length ==> table[b] == null
      ensures Valid() && contents == [] && this.table == table && this.hash == hash && this.compare == compare
    {
      this.table, this.hash, this.compare := table, hash, compare;
      items, contents, removed := 0, [], 0;
      chains := seq(table.Length, b => []);
    }

    /** Adds an item in front of all others. */
    method Add(item: Item<K>)
      requires Valid() && item !in contents
      modifies this, table, item
      ensures Valid() && contents == [item] + old(contents) && removed == old(removed)
    {
      hide Respects, InBucket, Buckets;
      BucketsAreSeparate(contents, hash, chains);
      AddToBuckets(contents, hash, chains, item);
      var idx := hash(item.key) % table.Length;
      item.next := table[idx];
      table[idx] := item;
      items := items + 1;
      contents := [item] + contents;
      chains := chains[idx := [item] + chains[idx]];
    }

    /** The newest item with the key, or null. */
    method Get(key: K) returns (r: Item?<K>)
      requires Valid()
      ensures r == Newest(contents, compare, key)
    {
      hide Respects, InBucket, Newest;
      var idx := hash(key) % table.Length;
      ghost var chain := chains[idx];
      var item := table[idx];
      ghost var i := 0;
      while item != null
        invariant i <= |chain| && item == Nth(chain, i)
        invariant forall j | 0 <= j < i :: !compare(key, chain[j].key)
        decreases |chain| - i
      {
        if compare(key, item.key) {
          RemoveFromBuckets(contents, hash, compare, chains, key, i);
          return item;
        }
        item := item.next;
        i := i + 1;
      }
      RemoveFromBuckets(contents, hash, compare, chains, key, i);
      return null;
    }

    /** Leads the link before position `i` of a chain around it. */
    method Bypass(idx: nat, prev: Item?<K>, item: Item<K>, ghost chain: seq<Item<K>>, ghost i: nat)
      requires idx < table.Length && i < |chain| && Distinct(chain) && Linked(table[idx], chain, Members())
      requires item == chain[i] && prev == if i > 0 then chain[i - 1] else null
      modifies table, prev
      ensures forall j :: 0 <= j < |chain| ==> chain[j].next == Nth(chain, if j + 1 == i then i + 1 else j + 1)
      ensures table[idx] == Nth(chain, if i == 0 then 1 else 0)
      ensures forall b :: 0 <= b < table.Length && b != idx ==> table[b] == old(table[b])
      ensures forall x | x in Members() && x != prev :: x.next == old(x.next)
    {
      if prev != null {
        prev.next := item.next;
      } else {
        table[idx] := item.next;
      }
    }

    /** Takes the item at a position of a chain out of it. */
    method Unlink(idx: nat, prev: Item?<K>, item: Item<K>, ghost i: nat)
      requires idx < table.Length == |chains| && i < |chains[idx]| && Separate(chains)
      requires item == chains[idx][i] && prev == if i > 0 then chains[idx][i - 1] else null
      requires forall b :: 0 <= b < |chains| ==> Linked(table[b], chains[b], Members())
      modifies table, prev, `chains
      ensures chains == old(chains)[idx := old(chains[idx])[..i] + old(chains[idx])[i + 1..]]
      ensures forall b :: 0 <= b < |chains| ==> Linked(table[b], chains[b], Members())
    {
      hide Separate;
      NotElsewhere(chains, idx);
      WithoutOne(chains[idx], i);
      Bypass(idx, prev, item, chains[idx], i);
      chains := chains[idx := chains[idx][..i] + chains[idx][i + 1..]];
    }

    /** Unlinks the newest item with the key and returns it; the item count stays as it is. */
    method Remove(key: K) returns (r: Item?<K>)
      requires Valid()
      modifies this, table, Members()
      ensures Valid()
      ensures r == Newest(old(contents), compare, key) && contents == Dropped(old(contents), compare, key)
      ensures items == old(items)
    {
      hide Respects, InBucket, Newest, Buckets, Dropped;
      BucketsAreSeparate(contents, hash, chains);
      DroppedOnce(contents, compare, key);
      var idx := hash(key) % table.Length;
      ghost var chain := chains[idx];
      var prev: Item?<K> := null;
      var item := table[idx];
      ghost var i := 0;
      while item != null
        invariant i <= |chain| && item == Nth(chain, i)
        invariant prev == if i > 0 then chain[i - 1] else null
        invariant forall j | 0 <= j < i :: !compare(key, chain[j].key)
        decreases |chain| - i
      {
        if compare(key, item.key) {
          RemoveFromBuckets(contents, hash, compare, chains, key, i);
          Unlink(idx, prev, item, i);
          contents := Dropped(contents, compare, key);
          removed := removed + 1;
          BucketsAreSeparate(contents, hash, chains);
          return item;
        }
        prev := item;
        item := item.next;
        i := i + 1;
      }
      RemoveFromBuckets(contents, hash, compare, chains, key, i);
      return null;
    }

    /** The table's size as the kernel reports it: the items ever added. */
    method Size() returns (n: nat)
      requires Valid()
      ensures n == |contents| + removed
    {
      n := items;
    }
  }
}
