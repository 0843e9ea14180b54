/** Facts about sequences that are cheaper to use than to rediscover. */
module Seqs {
  lemma {:induction false} UpdateAsConcat<T>(s: seq<T>, i: nat, x: T)
    requires i < |s|
    ensures s[i := x] == s[..i] + [x] + s[i + 1..]
  {
  }

  lemma {:induction false} Unsplice<T>(s: seq<T>, i: nat)
    requires i < |s|
    ensures s[..i] + [s[i]] + s[i + 1..] == s
    ensures s[..i + 1][..i] == s[..i]
    ensures s[..i + 1] == s[..i] + [s[i]]
    ensures s[i..] == [s[i]] + s[i + 1..]
  {
  }

  lemma {:induction false} EmptyMiddle<T>(x: seq<T>, m: seq<T>, y: seq<T>)
    requires m == []
    ensures x + m + y == x + y
  {
    assert x + m == x;
  }

  lemma {:induction false} AppendBehind<T>(a: seq<T>, b: seq<T>, c: seq<T>, x: T)
    ensures a + b + (c + [x]) == a + b + c + [x]
    ensures (a + b + c + [x])[|a + b + c|] == x && (a + b + c + [x])[..|a + b + c|] == a + b + c
  {
  }

  ghost predicate Distinct<T>(s: seq<T>) {
    forall i, j :: 0 <= i < j < |s| ==> s[i] != s[j]
  }

  /** A list without one of its elements. */
  function Removed<T(==)>(l: seq<T>, h: T): seq<T> {
    if l == [] then [] else if l[0] == h then l[1..] else [l[0]] + Removed(l[1..], h)
  }

  lemma {:induction false} RemovedAt<T>(l: seq<T>, h: T, k: nat)
    requires k < |l| && l[k] == h && h !in l[..k]
    ensures Removed(l, h) == l[..k] + l[k + 1..]
  {
    if k > 0 {
      assert l[0] in l[..k] && l[1..][..k - 1] == l[..k][1..];
      RemovedAt(l[1..], h, k - 1);
    }
  }

  lemma {:induction false} RemovedAbsent<T>(l: seq<T>, h: T)
    requires h !in l
    ensures Removed(l, h) == l
  {
    if l != [] {
      RemovedAbsent(l[1..], h);
    }
  }

  lemma {:induction false} RemovedOne<T>(l: seq<T>, h: T)
    requires Distinct(l)
    ensures Distinct(Removed(l, h))
    ensures forall x: T :: x in Removed(l, h) <==> x in l && x != h
  {
    hide Removed;
    if h in l {
      var k: nat :| k < |l| && l[k] == h;
      RemovedAt(l, h, k);
      assert l == l[..k] + [h] + l[k + 1..];
    } else {
      RemovedAbsent(l, h);
    }
  }

  lemma {:induction false} RemovedLength<T>(l: seq<T>, h: T)
    ensures |Removed(l, h)| == if h in l then |l| - 1 else |l|
  {
    if l != [] && l[0] != h {
      RemovedLength(l[1..], h);
      assert l == [l[0]] + l[1..];
    }
  }

  lemma {:induction false} DistinctCons<T>(h: T, l: seq<T>)
    requires Distinct(l) && h !in l
    ensures Distinct([h] + l)
  {
  }

  lemma {:induction false} DistinctTail<T>(l: seq<T>)
    requires Distinct(l) && l != []
    ensures Distinct(l[1..]) && l[0] !in l[1..]
    ensures forall x: T :: x in l <==> x == l[0] || x in l[1..]
  {
    assert l == [l[0]] + l[1..];
  }
}
