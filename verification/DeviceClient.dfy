/** The asynchronous client side of the device protocol: one request under way and a queue behind it. */
module DeviceClient {
  import opened Options
  import opened Seqs
  import opened RequestQueues
  import P = DevicePipeline

  /** What a request asks for, and the caller's token for its callback. */
  datatype Params = Params(size: nat, p: int)

  /** What a read call asks for; `memory` tells whether a request object could be allocated. */
  datatype Call = Call(params: Params, memory: bool)

  /** A message to the server: connection, size, the client's token, and where the reply shall go. */
  datatype Message = Message(connection: nat, size: nat, token: nat, port: int)

  /** A callback that was run. */
  datatype Callback = Callback(result: int, p: int)

  class Connection {
    const connId: nat
    const token: nat
    const port: int
    var request: Request?<Params>
    /** The waiting requests. */
    const queue: RequestQueue<Params>
    /**
     * The messages handed to the kernel for the server and the callbacks run, so far. Whether the kernel accepted a
     * message is not asked.
     */
    var sent: seq<Message>
    var callbacks: seq<Callback>
    /** The calls that the n-th callback makes on this connection before it returns. */
    const script: nat -> seq<Call>

    /** All requests that were accepted, and those that are done. */
    ghost var submitted: seq<Request<Params>>
    ghost var completed: seq<Request<Params>>

    ghost function Repr(): set<object>
      reads this, queue
    {
      {this, queue} + queue.repr
    }

    /** The queue is sound and the connection's own. */
    ghost predicate Listed()
      reads queue, queue.repr
    {
      queue.Valid() && this !in queue.repr
    }

    /** Callbacks run in the order of submission, each with its own token. */
    ghost predicate CallbacksMatch()
      reads this`callbacks, this`completed
    {
      |callbacks| == |completed| && forall i :: 0 <= i < |callbacks| ==> callbacks[i].p == completed[i].params.p
    }

    function MessageOf(req: Request<Params>): Message {
      Message(connId, req.params.size, token, port)
    }

    /** One message went out for each request that is done or under way, in the order of submission. */
    ghost predicate SentMatch()
      reads this`sent, this`submitted
    {
      |sent| <= |submitted| && forall i :: 0 <= i < |sent| ==> sent[i] == MessageOf(submitted[i])
    }

    /** At most one request is under way, and no request waits unless one is. */
    ghost predicate Valid()
      reads this, queue, queue.repr
    {
      && Listed() && CallbacksMatch() && SentMatch()
      && (request == null ==> queue.contents == [])
      && submitted == completed + (if request == null then [] else [request]) + queue.contents
      && |sent| == |completed| + (if request == null then 0 else 1)
    }

    ghost function Pending(): Option<Request<Params>>
      reads this`request
    {
      if request == null then None
      else
        var r: Request<Params> := request;
        Some(r)
    }

    /** The connection in the terms of the pipeline. */
    ghost function View(device: nat): P.Connection<Request<Params>>
      reads this, queue
    {
      P.Connection(device, Pending(), queue.contents, submitted, completed)
    }

    constructor (connId: nat, token: nat, port: int, script: nat -> seq<Call>)
      ensures Valid() && submitted == [] && completed == [] && request == null && fresh(Repr())
      ensures this.connId == connId && this.token == token && this.port == port && this.script == script
    {
      this.connId, this.token, this.port, this.script := connId, token, port, script;
      request, sent, callbacks, submitted, completed := null, [], [], [], [];
      queue := new RequestQueue<Params>();
    }

    ghost method Accept(req: Request<Params>)
      requires SentMatch()
      modifies this`submitted
      ensures SentMatch() && submitted == old(submitted) + [req]
    {
      submitted := submitted + [req];
    }

    /** The callback of a request has run. */
    method CalledBack(req: Request<Params>, result: int)
      requires CallbacksMatch()
      modifies this`callbacks, this`completed
      ensures CallbacksMatch() && completed == old(completed) + [req]
      ensures callbacks == old(callbacks) + [Callback(result, req.params.p)]
    {
      callbacks := callbacks + [Callback(result, req.params.p)];
      completed := completed + [req];
    }

    /** Makes the request current and sends it. */
    method Perform(req: Request<Params>)
      requires SentMatch() && |sent| < |submitted| && submitted[|sent|] == req
      modifies this`request, this`sent
      ensures SentMatch() && request == req && sent == old(sent) + [MessageOf(req)]
    {
      request := req;
      sent := sent + [MessageOf(req)];
    }

    /** Puts a call behind the request under way, or performs it at once: the submission step of the pipeline. */
    method ReadAsync(call: Call) returns (result: int, ghost req: Request?<Params>)
      requires Valid()
      modifies Repr()
      ensures Valid() && completed == old(completed) && callbacks == old(callbacks) && fresh(Repr() - old(Repr()))
      ensures !call.memory ==> result == -1 && req == null && submitted == old(submitted) && sent == old(sent)
      ensures !call.memory ==> queue.contents == old(queue.contents) && request == old(request)
      ensures call.memory ==>
                && result == 0 && req != null && fresh(req) && req.params == call.params
                && submitted == old(submitted) + [req]
                && (old(request) != null ==>
                      request == old(request) && queue.contents == old(queue.contents) + [req] && sent == old(sent))
                && (old(request) == null ==>
                      && request == req && queue.contents == []
                      && sent == old(sent) + [Message(connId, req.params.size, token, port)])
    {
      hide CallbacksMatch, SentMatch, IsList;
      if !call.memory {
        return -1, null;
      }
      var r := new Request(call.params);
      Accept(r);
      if request != null {
        ghost var c, q := [request], queue.contents;
        queue.Enqueue(r);
        AppendBehind(completed, c, q, r);
      } else {
        assert submitted == completed + [r] + [];
        Perform(r);
      }
      return 0, r;
    }

    /** The end of a completion: the request is done and the first waiting one is sent. */
    method Advance(result: int)
      requires Valid() && request != null
      modifies this, queue
      ensures Valid() && completed == old(completed) + [old(request)] && queue.repr == old(queue.repr)
      ensures callbacks == old(callbacks) + [Callback(result, old(request).params.p)] && submitted == old(submitted)
      ensures if old(queue.contents) == [] then request == null && queue.contents == [] && sent == old(sent)
              else
                && old(queue.contents) == [request] + queue.contents && request != null
                && sent == old(sent) + [Message(connId, request.params.size, token, port)]
    {
      hide CallbacksMatch, SentMatch, IsList;
      var req: Request<Params> := request;
      CalledBack(req, result);
      var empty := queue.IsEmpty();
      if !empty {
        var next := queue.Dequeue();
        Perform(next);
      } else {
        request := null;
      }
    }

    /** The calls that a callback makes while its request is still under way: they all wait. */
    method RunCallback() returns (ghost more: seq<Request<Params>>)
      requires Valid() && request != null
      modifies Repr()
      ensures Valid() && completed == old(completed) && callbacks == old(callbacks) && fresh(Repr() - old(Repr()))
      ensures request == old(request) && sent == old(sent)
      ensures queue.contents == old(queue.contents) + more && submitted == old(submitted) + more
    {
      hide Valid, IsList;
      var calls := script(|callbacks|);
      more := [];
      for i := 0 to |calls|
        invariant Valid() && request == old(request) && completed == old(completed) && callbacks == old(callbacks)
        invariant sent == old(sent)
        invariant queue.contents == old(queue.contents) + more && submitted == old(submitted) + more
        invariant fresh(Repr() - old(Repr()))
      {
        var _, next := ReadAsync(calls[i]);
        if next != null {
          more := more + [next];
        }
      }
    }

    /**
     * A reply arrives: the callback of the request under way runs, and may submit further requests, which wait;
     * then the first waiting request is sent. This is the answer step of the pipeline.
     */
    method Complete(result: int) returns (ghost more: seq<Request<Params>>)
      requires Valid() && request != null
      modifies Repr()
      ensures Valid() && completed == old(completed) + [old(request)] && fresh(Repr() - old(Repr()))
      ensures callbacks == old(callbacks) + [Callback(result, old(request).params.p)]
      ensures submitted == old(submitted) + more
      ensures var waiting := old(queue.contents) + more;
              if waiting == [] then request == null && queue.contents == [] && sent == old(sent)
              else
                && waiting == [request] + queue.contents && request != null
                && sent == old(sent) + [Message(connId, request.params.size, token, port)]
    {
      hide Valid;
      more := RunCallback();
      Advance(result);
    }
  }
}
