/** The server side of the device protocol: one current request per device and a queue behind it. */
module DeviceServer {
  import opened Options
  import opened RequestQueues

  datatype Op = Read | Write

  /** What a request message asks for; the token is the client's own and is echoed. */
  datatype Params = Params(op: Op, port: int, size: nat, token: nat)

  /** A reply message. */
  datatype Reply = Reply(port: int, op: Op, result: int, token: nat)

  /** The reply answers the request: it goes to the port and carries the token that came with it. */
  ghost predicate Answers(reply: Reply, req: Params) {
    reply.port == req.port && reply.op == req.op && reply.token == req.token
  }

  class Device {
    var request: Request?<Params>
    /** The waiting requests. */
    const queue: RequestQueue<Params>
    /** What the handler does with the n-th request: finish it at once with a result, or leave it for later. */
    const handler: nat -> Option<int>
    /** How often the handler was called. */
    var calls: nat
    /** The reply messages handed to the kernel so far; whether it accepted them is not asked. */
    var replies: seq<Reply>

    /** All requests ever accepted, and those that were answered. */
    ghost var accepted: seq<Request<Params>>
    ghost var answered: seq<Request<Params>>

    ghost function Repr(): set<object>
      reads this, queue
    {
      {this, queue} + queue.repr
    }

    /** The queue is sound and the device's own. */
    ghost predicate Listed()
      reads queue, queue.repr
    {
      queue.Valid() && this !in queue.repr
    }

    /** Replies answer the answered requests one by one, with the handler's result where it finished at once. */
    ghost predicate RepliesMatch()
      reads this`replies, this`answered
    {
      && |replies| == |answered|
      && (forall i :: 0 <= i < |replies| ==> Answers(replies[i], answered[i].params))
      && (forall i :: 0 <= i < |replies| && handler(i).Some? ==> replies[i].result == handler(i).value)
    }

    /** The requests that the device has to serve, the current one first. */
    ghost function Line(): seq<Request<Params>>
      reads this`request, queue`contents
    {
      (if request == null then [] else [request]) + queue.contents
    }

    /**
     * A waiting request implies a current one; answers are a prefix of the accepted requests in order of arrival;
     * the handler was called once for each request that is answered or current, and has not finished the current one.
     */
    ghost predicate Valid()
      reads this, queue, queue.repr
    {
      && Listed() && RepliesMatch()
      && (request == null ==> queue.contents == [])
      && accepted == answered + Line()
      && calls == |answered| + (if request == null then 0 else 1)
      && (request != null ==> handler(calls - 1).None?)
    }

    /** Between two requests: `req` is next to be performed. */
    ghost predicate Between(req: Request<Params>)
      reads this, queue, queue.repr
    {
      Listed() && RepliesMatch() && accepted == answered + [req] + queue.contents && calls == |answered|
    }

    constructor (handler: nat -> Option<int>)
      ensures Valid() && this.handler == handler && accepted == [] && replies == [] && fresh(Repr())
    {
      this.handler := handler;
      request, calls, replies, accepted, answered := null, 0, [], [], [];
      queue := new RequestQueue<Params>();
    }

    /** The reply of the current request. */
    method Answer(req: Request<Params>, result: int)
      requires RepliesMatch() && (handler(|answered|).Some? ==> result == handler(|answered|).value)
      modifies this`replies, this`answered
      ensures RepliesMatch() && answered == old(answered) + [req]
      ensures replies == old(replies) + [Reply(req.params.port, req.params.op, result, req.params.token)]
    {
      replies := replies + [Reply(req.params.port, req.params.op, result, req.params.token)];
      answered := answered + [req];
    }

    /** Makes the request current and calls the handler, which may finish it before it returns. */
    method Perform(req: Request<Params>)
      requires Between(req)
      modifies this, queue
      ensures Valid() && accepted == old(accepted) && old(replies) <= replies && queue.repr == old(queue.repr)
      decreases |queue.contents|, 1
    {
      hide RepliesMatch, IsList;
      request := req;
      calls := calls + 1;
      if handler(calls - 1).Some? {
        Finished(req, handler(calls - 1).value);
      }
    }

    /** Answers the current request and goes on with the first waiting one. */
    method Finished(req: Request<Params>, result: int)
      requires Listed() && RepliesMatch() && request == req && accepted == answered + [req] + queue.contents
      requires calls == |answered| + 1 && (handler(calls - 1).Some? ==> result == handler(calls - 1).value)
      modifies this, queue
      ensures Valid() && accepted == old(accepted) && queue.repr == old(queue.repr)
      ensures old(replies) < replies
      ensures replies[|old(replies)|] == Reply(req.params.port, req.params.op, result, req.params.token)
      decreases |queue.contents|, 0
    {
      hide RepliesMatch, IsList;
      ghost var before := replies;
      Answer(req, result);
      assert before < replies && replies[|before|] == Reply(req.params.port, req.params.op, result, req.params.token);
      var empty := queue.IsEmpty();
      if !empty {
        var next := queue.Dequeue();
        Perform(next);
      } else {
        request := null;
      }
    }

    /**
     * A read or write message arrives. Without memory for it an error goes out, and the device does not learn of it.
     */
    method Arrive(params: Params, memory: bool) returns (misdirected: Option<nat>)
      requires Valid()
      modifies Repr()
      ensures Valid() && old(replies) <= replies && fresh(Repr() - old(Repr()))
      ensures memory ==>
                && misdirected == None && |accepted| == |old(accepted)| + 1
                     && accepted[..|old(accepted)|] == old(accepted)
                && fresh(accepted[|old(accepted)|]) && accepted[|old(accepted)|].params == params
      ensures !memory ==> misdirected == Some(params.token) && accepted == old(accepted) && replies == old(replies)
    {
      hide RepliesMatch, IsList;
      if !memory {
        return Some(params.token);
      }
      var req := new Request(params);
      accepted := accepted + [req];
      if request != null {
        queue.Enqueue(req);
      } else {
        Perform(req);
      }
      misdirected := None;
    }

    /** The driver finishes the current request later, from an interrupt or a message of its own. */
    method Complete(result: int)
      requires Valid() && request != null
      modifies this, queue
      ensures Valid() && accepted == old(accepted) && queue.repr == old(queue.repr)
      ensures old(replies) < replies
      ensures Answers(replies[|old(replies)|], old(request).params) && replies[|old(replies)|].result == result
    {
      hide RepliesMatch, IsList;
      Finished(request, result);
    }

    /** Nothing is answered twice or out of order, and an idle device has answered everything. */
    lemma {:induction false} AnswersInOrder()
      requires Valid()
      ensures |replies| <= |accepted| && accepted[|replies|..] == Line()
      ensures forall i :: 0 <= i < |replies| ==> Answers(replies[i], accepted[i].params)
      ensures request == null ==> |replies| == |accepted|
    {
    }
  }
}
