/** The linked request queue that device servers and their clients both keep, from its head to its tail. */
module RequestQueues {
  import opened Seqs

  class Request<P> {
    const params: P
    var next: Request?<P>

    constructor (params: P)
      ensures this.params == params
    {
      this.params, next := params, null;
    }
  }

  ghost function Nth<P>(chain: seq<Request<P>>, i: nat): Request?<P> {
    if i < |chain| then chain[i] else null
  }

  /** The linked list from `head` to `tail` is `chain`. */
  ghost predicate IsList<P>(head: Request?<P>, tail: Request?<P>, chain: seq<Request<P>>)
    reads chain`next
  {
    && Distinct(chain)
    && head == Nth(chain, 0) && tail == (if chain == [] then null else chain[|chain| - 1])
    && forall j {:trigger chain[j]} :: 0 <= j < |chain| ==> chain[j].next == Nth(chain, j + 1)
  }

  class RequestQueue<P> {
    var head: Request?<P>
    var tail: Request?<P>
    ghost var contents: seq<Request<P>>
    /** This queue and every request that was ever in it. */
    ghost var repr: set<object>

    ghost predicate Valid()
      reads this, repr
    {
      this in repr && (forall x | x in contents :: x in repr) && IsList(head, tail, contents)
    }

    constructor ()
      ensures Valid() && contents == [] && fresh(repr)
    {
      head, tail, contents, repr := null, null, [], {this};
    }

    /** Appends a request that is in no queue. */
    method Enqueue(req: Request<P>)
      requires Valid() && req !in repr
      modifies repr, req`next
      ensures Valid() && contents == old(contents) + [req] && repr == old(repr) + {req}
    {
      req.next := null;
      if tail != null {
        tail.next := req;
      }
      tail := req;
      if head == null {
        head := req;
      }
      contents, repr := contents + [req], repr + {req};
    }

    /** Removes the first request. */
    method Dequeue() returns (req: Request<P>)
      requires Valid() && contents != []
      modifies this
      ensures Valid() && old(contents) == [req] + contents && repr == old(repr)
    {
      req := head;
      head := req.next;
      if head == null {
        tail := null;
      }
      contents := contents[1..];
    }

    method IsEmpty() returns (empty: bool)
      requires Valid()
      ensures empty <==> contents == []
    {
      empty := head == null;
    }
  }
}
