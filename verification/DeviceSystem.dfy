/** The device protocol on the objects of both ends: what they do to each other is a run of the pipeline. */
module DeviceSystem {
  import opened Options
  import opened RequestQueues
  import C = DeviceClient
  import P = DevicePipeline
  import S = DeviceServer

  type Packet = P.Packet<Request<C.Params>>
  type View = P.Connection<Request<C.Params>>
  type State = P.State<Request<C.Params>>
  type Label = P.Label<Request<C.Params>>

  // ---------------------------------------------------------------------------------------------- messages as packets

  /** The message that a packet of the pipeline stands for while it waits at the server. */
  ghost function MessageOf(p: Packet, port: int): C.Message {
    C.Message(p.conn, p.cause.params.size, p.conn, port)
  }

  /** What the device keeps of it. */
  function ParamsOf(m: C.Message): S.Params {
    S.Params(S.Read, m.port, m.size, m.token)
  }

  ghost predicate AreMessages(l: seq<C.Message>, ps: seq<Packet>, port: int) {
    |l| == |ps| && forall i :: 0 <= i < |l| ==> l[i] == MessageOf(ps[i], port)
  }

  ghost predicate AreRequests(l: seq<Request<S.Params>>, ps: seq<Packet>, port: int) {
    |l| == |ps| && forall i :: 0 <= i < |l| ==> l[i].params == ParamsOf(MessageOf(ps[i], port))
  }

  ghost predicate AreReplies(l: seq<S.Reply>, ps: seq<Packet>, port: int) {
    |l| == |ps| && forall i :: 0 <= i < |l| ==> S.Answers(l[i], ParamsOf(MessageOf(ps[i], port)))
  }

  /** A message that got nowhere: an error reply went to another port, or the kernel refused what was sent. */
  datatype Loss =
    | Misdirected(port: nat)
    | RefusedMessage(message: C.Message)
    | RefusedReply(reply: S.Reply)

  ghost predicate IsLoss(x: Loss, p: Packet, port: int) {
    match x
    case Misdirected(to) => to == p.conn
    case RefusedMessage(message) => message == MessageOf(p, port)
    case RefusedReply(reply) => S.Answers(reply, ParamsOf(MessageOf(p, port)))
  }

  ghost predicate AreLosses(l: seq<Loss>, ps: seq<Packet>, port: int) {
    |l| == |ps| && forall i :: 0 <= i < |l| ==> IsLoss(l[i], ps[i], port)
  }

  function Refused(replies: seq<S.Reply>): seq<Loss> {
    seq(|replies|, i requires 0 <= i < |replies| => RefusedReply(replies[i]))
  }

  /** What a device did with its line and a new request: it answered some requests from the front, in order. */
  ghost predicate Served(line: seq<Request<S.Params>>, rest: seq<Request<S.Params>>, news: seq<S.Reply>) {
    && |line| == |news| + |rest| && line[|news|..] == rest
    && forall i :: 0 <= i < |news| ==> S.Answers(news[i], line[i].params)
  }

  lemma {:induction false} ServedFrom(accepted: seq<Request<S.Params>>, more: seq<Request<S.Params>>,
                                      replies: seq<S.Reply>, replies': seq<S.Reply>)
    requires replies <= replies' && |replies| <= |accepted| && |replies'| <= |accepted + more|
    requires forall i :: 0 <= i < |replies'| ==> S.Answers(replies'[i], (accepted + more)[i].params)
    ensures Served(accepted[|replies|..] + more, (accepted + more)[|replies'|..], replies'[|replies|..])
  {
    var line, news := accepted[|replies|..] + more, replies'[|replies|..];
    assert line == (accepted + more)[|replies|..];
    forall i | 0 <= i < |news|
      ensures S.Answers(news[i], line[i].params)
    {
      assert news[i] == replies'[|replies| + i] && line[i] == (accepted + more)[|replies| + i];
    }
  }

  /** The requests that were answered and those that are left stand for the packets before and after the cut. */
  lemma {:induction false} ServedPackets(line: seq<Request<S.Params>>, rest: seq<Request<S.Params>>, news: seq<S.Reply>,
                                         ps: seq<Packet>, port: int)
    requires Served(line, rest, news) && AreRequests(line, ps, port)
    ensures |news| <= |ps| && AreRequests(rest, ps[|news|..], port) && AreReplies(news, ps[..|news|], port)
  {
  }

  lemma {:induction false} MoreReplies(l: seq<S.Reply>, ps: seq<Packet>, news: seq<S.Reply>, more: seq<Packet>,
      port: int)
    requires AreReplies(l, ps, port) && AreReplies(news, more, port)
    ensures AreReplies(l + news, ps + more, port)
  {
  }

  lemma {:induction false} MoreLosses(l: seq<Loss>, ps: seq<Packet>, news: seq<Loss>, more: seq<Packet>, port: int)
    requires AreLosses(l, ps, port) && AreLosses(news, more, port)
    ensures AreLosses(l + news, ps + more, port)
  {
  }

  /** Of the replies that a device sends, those that the kernel accepts and those that it refuses. */
  lemma {:induction false} ChosenReplies(news: seq<S.Reply>, ps: seq<Packet>, k: nat, sent: nat -> bool, port: int)
    requires |news| <= |ps| && AreReplies(news, ps[..|news|], port) && k <= |news|
    ensures AreReplies(P.Chosen(news, k, sent, true), P.Chosen(ps, k, sent, true), port)
    ensures AreLosses(Refused(P.Chosen(news, k, sent, false)), P.Chosen(ps, k, sent, false), port)
  {
    if k > 0 {
      ChosenReplies(news, ps, k - 1, sent, port);
      assert news[k - 1] == news[..k][k - 1] && ps[k - 1] == ps[..|news|][k - 1];
    }
  }

  function Dropped(messages: seq<C.Message>): seq<Loss> {
    seq(|messages|, i requires 0 <= i < |messages| => RefusedMessage(messages[i]))
  }

  /** The messages at the client's port and the lost ones after a device has answered. */
  lemma {:induction false} DeliverMessages(replies: seq<S.Reply>, losses: seq<Loss>, ps: seq<Packet>, lost: seq<Packet>,
      news: seq<S.Reply>, line: seq<Packet>, sent: nat -> bool, port: int)
    requires AreReplies(replies, ps, port) && AreLosses(losses, lost, port)
    requires |news| <= |line| && AreReplies(news, line[..|news|], port)
    ensures AreReplies(replies + P.Chosen(news, |news|, sent, true), ps + P.Chosen(line, |news|, sent, true), port)
    ensures AreLosses(losses + Refused(P.Chosen(news, |news|, sent, false)),
                      lost + P.Chosen(line, |news|, sent, false), port)
  {
    hide AreReplies, AreLosses, P.Chosen, Refused;
    ChosenReplies(news, line, |news|, sent, port);
    MoreReplies(replies, ps, P.Chosen(news, |news|, sent, true), P.Chosen(line, |news|, sent, true), port);
    MoreLosses(losses, lost, Refused(P.Chosen(news, |news|, sent, false)), P.Chosen(line, |news|, sent, false), port);
  }

  lemma {:induction false} OneLoss(losses: seq<Loss>, lost: seq<Packet>, p: Packet, port: int)
    requires AreLosses(losses, lost, port)
    ensures AreLosses(losses + [Misdirected(p.conn)], lost + [p], port)
  {
  }

  /** The oldest reply names the connection of the oldest packet. */
  lemma {:induction false} FirstReply(replies: seq<S.Reply>, ps: seq<Packet>, port: int)
    requires AreReplies(replies, ps, port) && replies != []
    ensures ps != [] && replies[0].token == ps[0].conn
  {
  }

  /** The messages after an answer step that sent `news`. */
  lemma {:induction false} AnswerMessages(inbox: seq<C.Message>, replies: seq<S.Reply>, losses: seq<Loss>, s: State,
                                          more: seq<Request<C.Params>>, news: seq<C.Message>, port: int, sent: bool)
    requires AreMessages(inbox, s.inbox, port) && AreReplies(replies, s.replies, port)
             && AreLosses(losses, s.lost, port)
    requires s.replies != [] && s.replies[0].conn < |s.conns| && s.conns[s.replies[0].conn].pending.Some?
    requires var c := s.replies[0].conn;
             var queue := s.conns[c].queue + more;
             news == if queue == [] then [] else [MessageOf(P.Packet(c, queue[0]), port)]
    ensures var t := P.AnswerStep(s, more, sent);
            && AreMessages(if sent then inbox + news else inbox, t.inbox, port)
            && AreReplies(replies[1..], t.replies, port)
            && AreLosses(if sent then losses else losses + Dropped(news), t.lost, port)
  {
  }

  // ---------------------------------------------------------------------------------------------- one party

  /** The connection is in the state that the pipeline has for it. */
  ghost predicate Shows(x: C.Connection, device: nat, v: View)
    reads x, x.queue, x.queue.repr
  {
    x.Valid() && x.View(device) == v
  }

  /** The device works on the packets that the pipeline has at it. */
  ghost predicate Serves(x: S.Device, ps: seq<Packet>, port: int)
    reads x, x.queue, x.queue.repr
  {
    x.Valid() && AreRequests(x.Line(), ps, port)
  }

  lemma {:induction false} PendingShown(x: C.Connection, device: nat, v: View)
    requires Shows(x, device, v)
    ensures v.pending.Some? <==> x.request != null
    ensures x.request != null ==> v.pending == Some(x.request)
  {
  }

  /** A submission on one connection. */
  method SubmitOn(x: C.Connection, call: C.Call, ghost device: nat, ghost v: View)
      returns (result: int, news: seq<C.Message>, ghost req: Request?<C.Params>)
    requires Shows(x, device, v)
    modifies x.Repr()
    ensures fresh(x.Repr() - old(x.Repr()))
    ensures result == if call.memory then 0 else -1
    ensures req == null <==> !call.memory
    ensures req == null ==> Shows(x, device, v) && news == []
    ensures req != null ==>
              && req.params == call.params
              && var w := v.(submitted := v.submitted + [req]);
                 if v.pending.Some? then news == [] && Shows(x, device, w.(queue := v.queue + [req]))
                 else news == [x.MessageOf(req)] && Shows(x, device, w.(pending := Some(req)))
  {
    var n := |x.sent|;
    result, req := x.ReadAsync(call);
    news := x.sent[n..];
  }

  /** A completion on one connection. */
  method CompleteOn(x: C.Connection, result: int, ghost device: nat, ghost v: View)
      returns (news: seq<C.Message>, ghost more: seq<Request<C.Params>>)
    requires Shows(x, device, v) && v.pending.Some?
    modifies x.Repr()
    ensures fresh(x.Repr() - old(x.Repr()))
    ensures x.callbacks == old(x.callbacks) + [C.Callback(result, v.pending.value.params.p)]
    ensures var queue := v.queue + more;
            var w := v.(submitted := v.submitted + more, completed := v.completed + [v.pending.value]);
            if queue == [] then news == [] && Shows(x, device, w.(pending := None, queue := []))
            else news == [x.MessageOf(queue[0])] && Shows(x, device, w.(pending := Some(queue[0]), queue := queue[1..]))
  {
    var n := |x.sent|;
    more := x.Complete(result);
    news := x.sent[n..];
  }

  /** The request of the message was accepted behind all others: a read of that size for that port, with its token. */
  ghost predicate Took(before: seq<Request<S.Params>>, after: seq<Request<S.Params>>, m: C.Message) {
    && |after| == |before| + 1 && after[..|before|] == before
    && after[|before|].params == S.Params(S.Read, m.port, m.size, m.token)
  }

  /** A message arrives at one device, which answers what it can from the front of its line. */
  method ArriveAt(x: S.Device, m: C.Message, memory: bool, ghost ps: seq<Packet>, ghost p: Packet, ghost port: int)
      returns (news: seq<S.Reply>, wrong: Option<nat>)
    requires Serves(x, ps, port) && m == MessageOf(p, port)
    modifies x.Repr()
    ensures fresh(x.Repr() - old(x.Repr()))
    ensures !memory ==> news == [] && wrong == Some(p.conn) && Serves(x, ps, port)
    ensures memory ==>
              && wrong == None && |news| <= |ps + [p]|
              && AreReplies(news, (ps + [p])[..|news|], port) && Serves(x, (ps + [p])[|news|..], port)
    ensures if memory then Took(old(x.accepted), x.accepted, m) else x.accepted == old(x.accepted)
  {
    var n := |x.replies|;
    x.AnswersInOrder();
    ghost var accepted, replies, line := x.accepted, x.replies, x.Line();
    wrong := x.Arrive(ParamsOf(m), memory);
    x.AnswersInOrder();
    news := x.replies[n..];
    if memory {
      ghost var more := x.accepted[|accepted|..];
      assert x.accepted == accepted + more;
      ServedFrom(accepted, more, replies, x.replies);
      ServedPackets(line + more, x.Line(), news, ps + [p], port);
    }
  }

  /** The driver of one device finishes its current request, and what follows at once. */
  method FinishAt(x: S.Device, result: int, ghost ps: seq<Packet>, ghost port: int) returns (news: seq<S.Reply>)
    requires Serves(x, ps, port) && x.request != null
    modifies x.Repr()
    ensures fresh(x.Repr() - old(x.Repr()))
    ensures 1 <= |news| <= |ps| && news[0].result == result
    ensures AreReplies(news, ps[..|news|], port) && Serves(x, ps[|news|..], port)
  {
    var n := |x.replies|;
    x.AnswersInOrder();
    ghost var accepted, replies, line := x.accepted, x.replies, x.Line();
    x.Complete(result);
    x.AnswersInOrder();
    news := x.replies[n..];
    assert accepted + [] == accepted && line + [] == line;
    ServedFrom(accepted, [], replies, x.replies);
    ServedPackets(line, x.Line(), news, ps, port);
  }

  // ---------------------------------------------------------------------------------------------- pipeline steps

  lemma {:induction false} RunMore(start: State, history: seq<Label>, more: seq<Label>)
    requires P.Opened(start)
    ensures P.Run(start, history + more) == P.Run(P.Run(start, history), more)
    ensures P.Inv(P.Run(start, history))
  {
    hide P.Run, P.Inv, P.Opened;
    P.RunConcat(start, history, more);
    P.EveryRun(start, history);
  }

  lemma {:induction false} RunOne(s: State, labels: seq<Label>)
    requires |labels| <= 1
    ensures P.Run(s, labels) == if labels == [] then s else P.Step(s, labels[0])
  {
    hide P.Step;
  }

  ghost predicate Waiting(s: State) {
    s.inbox != [] && s.inbox[0].conn < |s.conns| && s.conns[s.inbox[0].conn].device < |s.devices|
  }

  /** What the pipeline is after a device answered `k` requests. */
  ghost function Finished(s: State, d: nat, k: nat, sent: nat -> bool): State
    requires d < |s.devices| && k <= |s.devices[d]|
  {
    s.(devices := s.devices[d := s.devices[d][k..]],
       replies := s.replies + P.Chosen(s.devices[d], k, sent, true),
       lost := s.lost + P.Chosen(s.devices[d], k, sent, false))
  }

  /** What the pipeline is after a delivery and the answers that follow at once. */
  ghost function Delivered(s: State, memory: bool, k: nat, sent: nat -> bool): State
    requires Waiting(s)
    requires memory ==> k <= |s.devices[s.conns[s.inbox[0].conn].device]| + 1
  {
    var p := s.inbox[0];
    var d := s.conns[p.conn].device;
    if !memory then s.(inbox := s.inbox[1..], lost := s.lost + [p])
    else
      var line := s.devices[d] + [p];
      s.(inbox := s.inbox[1..], devices := s.devices[d := line[k..]],
         replies := s.replies + P.Chosen(line, k, sent, true), lost := s.lost + P.Chosen(line, k, sent, false))
  }

  lemma {:induction false} DeliverRun(s: State, memory: bool, k: nat, sent: nat -> bool)
    requires Waiting(s)
    requires if memory then k <= |s.devices[s.conns[s.inbox[0].conn].device]| + 1 else k == 0
    ensures P.Run(s, [P.Deliver(memory)] + P.Finishes(s.conns[s.inbox[0].conn].device, k, sent)) ==
            Delivered(s, memory, k, sent)
  {
    hide P.Run;
    var d := s.conns[s.inbox[0].conn].device;
    var t := P.DeliverStep(s, memory);
    RunOne(s, [P.Deliver(memory)]);
    P.RunConcat(s, [P.Deliver(memory)], P.Finishes(d, k, sent));
    P.FinishMany(t, d, k, sent);
    if memory {
      assert t.devices[d := t.devices[d][k..]] == s.devices[d := t.devices[d][k..]];
    } else {
      assert t.devices[d][0..] == t.devices[d] && t.devices[d := t.devices[d]] == t.devices;
      assert t.replies + [] == t.replies && t.lost + [] == t.lost;
    }
  }

  /** Whatever is under way names a connection that has a request under way. */
  lemma {:induction false} HeadsKnown(s: State)
    requires P.Inv(s)
    ensures s.inbox != [] ==> P.Caused(s.conns, s.inbox[0])
    ensures s.replies != [] ==> P.Caused(s.conns, s.replies[0])
  {
    hide P.Count, P.CountAll, P.InOrder;
  }

  // ---------------------------------------------------------------------------------------------- ownership

  ghost predicate AllApart(own: seq<set<object>>) {
    forall i, j :: 0 <= i < j < |own| ==> own[i] !! own[j]
  }

  lemma {:induction false} ApartFrom(own: seq<set<object>>, k: nat)
    requires AllApart(own) && k < |own|
    ensures forall i :: 0 <= i < |own| && i != k ==> own[i] !! own[k]
  {
  }

  lemma {:induction false} StayApart(own: seq<set<object>>, k: nat, mine: set<object>)
    requires AllApart(own) && k < |own|
    requires forall i :: 0 <= i < |own| ==> own[i] !! mine - own[k]
    ensures AllApart(own[k := mine])
  {
    var l := own[k := mine];
    forall i, j | 0 <= i < j < |own|
      ensures l[i] !! l[j]
    {
      assert own[i] !! own[j];
      assert mine <= own[k] + (mine - own[k]);
    }
  }

  // ---------------------------------------------------------------------------------------------- the system

  /** A connection's token and its identity at the server are both its number here. */
  ghost predicate Wired(conns: seq<C.Connection>, deviceOf: seq<nat>, devices: nat, port: int) {
    && |deviceOf| == |conns|
    && (forall c :: 0 <= c < |deviceOf| ==> deviceOf[c] < devices)
    && (forall c :: 0 <= c < |conns| ==> conns[c].connId == c && conns[c].token == c && conns[c].port == port)
  }

  /** The objects of each party are its own. */
  ghost predicate Apart(conns: seq<C.Connection>, devices: seq<S.Device>, own: seq<set<object>>)
    reads conns, devices, (set c | c in conns :: c.queue), (set d | d in devices :: d.queue)
  {
    && |own| == |conns| + |devices|
    && (forall i :: 0 <= i < |conns| ==> conns[i].Repr() == own[i])
    && (forall i :: 0 <= i < |devices| ==> devices[i].Repr() == own[|conns| + i])
    && AllApart(own)
  }

  ghost predicate ConnsMatch(conns: seq<C.Connection>, deviceOf: seq<nat>, s: State)
    reads conns, (set c | c in conns :: c.queue), (set c, o | c in conns && o in c.queue.repr :: o)
  {
    && |s.conns| == |conns| == |deviceOf|
    && forall c :: 0 <= c < |conns| ==> Shows(conns[c], deviceOf[c], s.conns[c])
  }

  ghost predicate DevicesMatch(devices: seq<S.Device>, port: int, s: State)
    reads devices, (set d | d in devices :: d.queue), (set d, o | d in devices && o in d.queue.repr :: o)
  {
    && |s.devices| == |devices|
    && forall d :: 0 <= d < |devices| ==> Serves(devices[d], s.devices[d], port)
  }

  ghost predicate Parties(conns: seq<C.Connection>, devices: seq<S.Device>, deviceOf: seq<nat>, port: int,
                          own: seq<set<object>>, s: State)
    reads conns, (set c | c in conns :: c.queue), (set c, o | c in conns && o in c.queue.repr :: o)
    reads devices, (set d | d in devices :: d.queue), (set d, o | d in devices && o in d.queue.repr :: o)
  {
    && Wired(conns, deviceOf, |devices|, port) && Apart(conns, devices, own)
    && ConnsMatch(conns, deviceOf, s) && DevicesMatch(devices, port, s)
  }

  lemma {:induction false} PartiesOwn(conns: seq<C.Connection>, devices: seq<S.Device>, deviceOf: seq<nat>, port: int,
                                      own: seq<set<object>>, s: State)
    requires Parties(conns, devices, deviceOf, port, own, s)
    ensures |own| == |conns| + |devices| && |s.conns| == |conns| == |deviceOf| && |s.devices| == |devices|
    ensures forall i :: 0 <= i < |conns| ==> conns[i].Repr() == own[i]
    ensures forall i :: 0 <= i < |conns| ==> s.conns[i].device == deviceOf[i] < |devices|
    ensures forall i :: 0 <= i < |devices| ==> devices[i].Repr() == own[|conns| + i]
  {
    hide AllApart, P.Run;
  }

  /** A submission on one connection, which no other party notices. */
  method SubmitTo(conns: seq<C.Connection>, ghost devices: seq<S.Device>, deviceOf: seq<nat>, ghost port: int,
                  c: nat, call: C.Call, ghost sent: bool, ghost own: seq<set<object>>, ghost s: State)
      returns (result: int, news: seq<C.Message>, ghost req: Request?<C.Params>)
    requires Parties(conns, devices, deviceOf, port, own, s) && c < |conns|
    modifies conns[c].Repr()
    ensures fresh(conns[c].Repr() - old(conns[c].Repr()))
    ensures result == if call.memory then 0 else -1
    ensures req == null <==> !call.memory
    ensures req == null ==> Parties(conns, devices, deviceOf, port, own[c := conns[c].Repr()], s) && news == []
    ensures req != null ==>
              && req.params == call.params
              && Parties(conns, devices, deviceOf, port, own[c := conns[c].Repr()], P.SubmitStep(s, c, req, sent))
              && news == if s.conns[c].pending.Some? then [] else [MessageOf(P.Packet(c, req), port)]
    ensures s.conns[c].pending.Some? <==> old(conns[c].request) != null
  {
    hide AllApart, Shows, Serves;
    assert Shows(conns[c], deviceOf[c], s.conns[c]);
    PendingShown(conns[c], deviceOf[c], s.conns[c]);
    ApartFrom(own, c);
    result, news, req := SubmitOn(conns[c], call, deviceOf[c], s.conns[c]);
    StayApart(own, c, conns[c].Repr());
  }

  /** A completion on one connection. */
  method CompleteTo(conns: seq<C.Connection>, ghost devices: seq<S.Device>, ghost deviceOf: seq<nat>, ghost port: int,
                    c: nat, result: int, ghost sent: bool, ghost own: seq<set<object>>, ghost s: State)
      returns (news: seq<C.Message>, ghost more: seq<Request<C.Params>>)
    requires Parties(conns, devices, deviceOf, port, own, s) && c < |conns|
    requires s.replies != [] && s.replies[0].conn == c && c < |s.conns| && s.conns[c].pending.Some?
    modifies conns[c].Repr()
    ensures fresh(conns[c].Repr() - old(conns[c].Repr()))
    ensures conns[c].callbacks == old(conns[c].callbacks) + [C.Callback(result, s.conns[c].pending.value.params.p)]
    ensures Parties(conns, devices, deviceOf, port, own[c := conns[c].Repr()], P.AnswerStep(s, more, sent))
    ensures var queue := s.conns[c].queue + more;
            news == if queue == [] then [] else [MessageOf(P.Packet(c, queue[0]), port)]
    ensures news ==
            if conns[c].request == null then [] else [C.Message(c, conns[c].request.params.size, c, port)]
  {
    hide AllApart, Shows, Serves;
    ApartFrom(own, c);
    news, more := CompleteOn(conns[c], result, deviceOf[c], s.conns[c]);
    PendingShown(conns[c], deviceOf[c], P.AnswerStep(s, more, sent).conns[c]);
    StayApart(own, c, conns[c].Repr());
  }

  /** A message arrives at one device. */
  method ArriveTo(ghost conns: seq<C.Connection>, devices: seq<S.Device>, ghost deviceOf: seq<nat>, ghost port: int,
                  d: nat, m: C.Message, memory: bool, ghost sent: nat -> bool, ghost own: seq<set<object>>,
                  ghost s: State)
      returns (news: seq<S.Reply>, wrong: Option<nat>)
    requires Parties(conns, devices, deviceOf, port, own, s) && d < |devices| && |own| == |conns| + |devices|
    requires Waiting(s) && d == s.conns[s.inbox[0].conn].device && m == MessageOf(s.inbox[0], port)
    modifies devices[d].Repr()
    ensures fresh(devices[d].Repr() - old(devices[d].Repr()))
    ensures !memory ==> news == [] && wrong == Some(s.inbox[0].conn)
    ensures memory ==> wrong == None && |news| <= |s.devices[d]| + 1
    ensures memory ==> AreReplies(news, (s.devices[d] + [s.inbox[0]])[..|news|], port)
    ensures Parties(conns, devices, deviceOf, port, own[|conns| + d := devices[d].Repr()],
            Delivered(s, memory, |news|, sent))
    ensures if memory then Took(old(devices[d].accepted), devices[d].accepted, m)
            else devices[d].accepted == old(devices[d].accepted)
  {
    hide AllApart, Shows, Serves, AreReplies, Took;
    ApartFrom(own, |conns| + d);
    news, wrong := ArriveAt(devices[d], m, memory, s.devices[d], s.inbox[0], port);
    StayApart(own, |conns| + d, devices[d].Repr());
  }

  /** The driver of one device finishes its current request. */
  method FinishTo(ghost conns: seq<C.Connection>, devices: seq<S.Device>, ghost deviceOf: seq<nat>, ghost port: int,
                  d: nat, result: int, ghost sent: nat -> bool, ghost own: seq<set<object>>, ghost s: State)
      returns (news: seq<S.Reply>)
    requires Parties(conns, devices, deviceOf, port, own, s) && d < |devices| && |own| == |conns| + |devices|
    requires d < |s.devices| && devices[d].request != null
    modifies devices[d].Repr()
    ensures fresh(devices[d].Repr() - old(devices[d].Repr()))
    ensures 1 <= |news| <= |s.devices[d]| && news[0].result == result
    ensures AreReplies(news, s.devices[d][..|news|], port)
    ensures Parties(conns, devices, deviceOf, port, own[|conns| + d := devices[d].Repr()], Finished(s, d, |news|, sent))
  {
    hide AllApart, Shows, Serves, AreReplies;
    ApartFrom(own, |conns| + d);
    news := FinishAt(devices[d], result, s.devices[d], port);
    StayApart(own, |conns| + d, devices[d].Repr());
  }

  /** Connections without requests, to idle devices. */
  ghost function Idle(deviceOf: seq<nat>, devices: nat): State {
    P.State(seq(|deviceOf|, c requires 0 <= c < |deviceOf| => P.Connection(deviceOf[c], None, [], [], [])), [],
            seq(devices, d => []), [], [])
  }

  class System {
    /** The client's reply port. */
    const port: int
    const conns: seq<C.Connection>
    const devices: seq<S.Device>
    /** The device behind each connection. */
    const deviceOf: seq<nat>
    /** Messages waiting at the server's port and at the client's reply port, and those that got to neither. */
    var inbox: seq<C.Message>
    var replies: seq<S.Reply>
    var losses: seq<Loss>

    /** The objects of each connection and then of each device. */
    ghost var own: seq<set<object>>
    /** The pipeline when the connections were opened, and the steps since. */
    ghost const start: State
    ghost var history: seq<Label>

    ghost function Abs(): State
      reads this`history
    {
      P.Run(start, history)
    }

    ghost predicate MessagesMatch(s: State)
      reads this`inbox, this`replies, this`losses
    {
      && AreMessages(inbox, s.inbox, port)
      && AreReplies(replies, s.replies, port)
      && AreLosses(losses, s.lost, port)
    }

    /** The connections, the devices and the messages between them are in the state that the run has reached. */
    ghost predicate Valid()
      reads this, conns, (set c | c in conns :: c.queue), (set c, o | c in conns && o in c.queue.repr :: o)
      reads devices, (set d | d in devices :: d.queue), (set d, o | d in devices && o in d.queue.repr :: o)
    {
      && P.Opened(start) && (forall i :: 0 <= i < |own| ==> this !in own[i])
      && Parties(conns, devices, deviceOf, port, own, Abs()) && MessagesMatch(Abs())
    }

    /** Connections that were just opened to devices that have just started. */
    constructor (conns: seq<C.Connection>, devices: seq<S.Device>, deviceOf: seq<nat>, port: int,
        ghost own: seq<set<object>>)
      requires Wired(conns, deviceOf, |devices|, port) && Apart(conns, devices, own)
      requires forall c :: 0 <= c < |conns| ==> conns[c].Valid() && conns[c].submitted == []
      requires forall d :: 0 <= d < |devices| ==> devices[d].Valid() && devices[d].accepted == []
      ensures Valid() && history == [] && this.conns == conns && this.devices == devices && this.deviceOf == deviceOf
    {
      hide AllApart;
      this.port, this.conns, this.devices, this.deviceOf, this.own := port, conns, devices, deviceOf, own;
      inbox, replies, losses, history := [], [], [], [];
      start := Idle(deviceOf, |devices|);
    }

    /** Records what a step did to the messages. */
    method Record(inbox: seq<C.Message>, replies: seq<S.Reply>, losses: seq<Loss>,
                  ghost own: seq<set<object>>, ghost more: seq<Label>)
      requires P.Opened(start) && Parties(conns, devices, deviceOf, port, own, P.Run(Abs(), more))
      requires forall i :: 0 <= i < |own| ==> this !in own[i]
      requires AreMessages(inbox, P.Run(Abs(), more).inbox, port)
      requires AreReplies(replies, P.Run(Abs(), more).replies, port)
      requires AreLosses(losses, P.Run(Abs(), more).lost, port)
      modifies this
      ensures Valid() && history == old(history) + more
      ensures this.inbox == inbox && this.replies == replies && this.losses == losses
    {
      hide P.Run, P.Inv, P.Opened, AreMessages, AreRequests, AreReplies, AreLosses, AllApart, Shows, Serves, Wired;
      RunMore(start, history, more);
      this.inbox, this.replies, this.losses, this.own, history := inbox, replies, losses, own, history + more;
    }

    /** A client submits a request; `sent` tells whether the kernel accepts its message, which nobody asks. */
    method Submit(c: nat, call: C.Call, sent: bool) returns (result: int, ghost req: Request?<C.Params>)
      requires Valid() && c < |conns|
      modifies this, conns[c].Repr()
      ensures Valid()
      ensures result == if call.memory then 0 else -1
      ensures !call.memory ==> history == old(history)
      ensures call.memory ==>
                req != null && req.params == call.params && history == old(history) + [P.Submit(c, req, sent)]
      ensures replies == old(replies)
      ensures inbox ==
              if call.memory && sent && old(conns[c].request) == null
              then old(inbox) + [C.Message(c, call.params.size, c, port)]
              else old(inbox)
    {
      hide P.Run, P.Inv, P.Opened, AreRequests, AreReplies, Parties;
      ghost var s := Abs();
      PartiesOwn(conns, devices, deviceOf, port, own, s);
      var news;
      result, news, req := SubmitTo(conns, devices, deviceOf, port, c, call, sent, own, s);
      ghost var more := if req == null then [] else [P.Submit(c, req, sent)];
      RunOne(s, more);
      Record(if sent then inbox + news else inbox, replies, if sent then losses else losses + Dropped(news),
             own[c := conns[c].Repr()], more);
    }

    /**
     * The server takes the next message and hands it to the device of its connection; `sent(i)` tells whether the
     * kernel accepts the `i`-th reply that is sent before the server returns.
     */
    method Deliver(memory: bool, sent: nat -> bool) returns (ghost d: nat, ghost k: nat)
      requires Valid() && inbox != []
      modifies this, set x, o | x in devices && o in x.Repr() :: o
      ensures Valid() && (!memory ==> k == 0)
      ensures history == old(history) + [P.Deliver(memory)] + P.Finishes(d, k, sent)
      ensures inbox == old(inbox)[1..] && old(replies) <= replies && (!memory ==> replies == old(replies))
      ensures old(inbox)[0].connection < |deviceOf| && d == deviceOf[old(inbox)[0].connection] < |devices|
      ensures memory ==>
                Took(old(devices[deviceOf[inbox[0].connection]].accepted), devices[d].accepted, old(inbox)[0])
    {
      hide P.Run, P.Inv, P.Opened, P.Finishes, P.Chosen, AreRequests, AreReplies, AreLosses, Parties, Refused,
        Took;
      ghost var s := Abs();
      PartiesOwn(conns, devices, deviceOf, port, own, s);
      RunMore(start, history, []);
      HeadsKnown(s);
      var m := inbox[0];
      var e := deviceOf[m.connection];
      d := e;
      var news, wrong := ArriveTo(conns, devices, deviceOf, port, e, m, memory, sent, own, s);
      k := |news|;
      DeliverRun(s, memory, k, sent);
      if memory {
        DeliverMessages(replies, losses, s.replies, s.lost, news, s.devices[e] + [s.inbox[0]], sent, port);
      } else {
        OneLoss(losses, s.lost, s.inbox[0], port);
      }
      Record(inbox[1..], if memory then replies + P.Chosen(news, |news|, sent, true) else replies,
             if memory then losses + Refused(P.Chosen(news, |news|, sent, false))
               else losses + [Misdirected(wrong.value)],
             own[|conns| + e := devices[e].Repr()], [P.Deliver(memory)] + P.Finishes(d, k, sent));
    }

    /** A driver finishes the request that its device works on; `sent` as above. */
    method Finish(d: nat, result: int, sent: nat -> bool) returns (ghost k: nat)
      requires Valid() && d < |devices| && devices[d].request != null
      modifies this, devices[d].Repr()
      ensures Valid() && k >= 1 && history == old(history) + P.Finishes(d, k, sent)
      ensures inbox == old(inbox) && old(replies) <= replies
    {
      hide P.Run, P.Inv, P.Opened, P.Finishes, P.Chosen, AreRequests, AreReplies, AreLosses, Parties, Refused;
      ghost var s := Abs();
      PartiesOwn(conns, devices, deviceOf, port, own, s);
      var news := FinishTo(conns, devices, deviceOf, port, d, result, sent, own, s);
      k := |news|;
      P.FinishMany(s, d, k, sent);
      DeliverMessages(replies, losses, s.replies, s.lost, news, s.devices[d], sent, port);
      Record(inbox, replies + P.Chosen(news, |news|, sent, true), losses + Refused(P.Chosen(news, |news|, sent, false)),
             own[|conns| + d := devices[d].Repr()], P.Finishes(d, k, sent));
    }

    /**
     * The client takes the next reply. Its token names a connection that has a request under way, so the code reads no
     * null pointer, and the callback that runs is the one of the request that the reply is for. `sent` tells whether
     * the kernel accepts the message of the next request.
     */
    method Answer(sent: bool) returns (ghost c: nat, ghost more: seq<Request<C.Params>>)
      requires Valid() && replies != []
      modifies this, set x, o | x in conns && o in x.Repr() :: o
      ensures Valid() && history == old(history) + [P.Answer(more, sent)]
      ensures c == old(replies[0].token) && c < |conns| && old(Abs()).replies != []
      ensures conns[c].callbacks ==
              old(conns[replies[0].token].callbacks)
              + [C.Callback(old(replies[0].result), old(Abs()).replies[0].cause.params.p)]
      ensures replies == old(replies)[1..]
      ensures inbox ==
              if sent && conns[c].request != null
              then old(inbox) + [C.Message(c, conns[c].request.params.size, c, port)]
              else old(inbox)
    {
      hide P.Run, P.Inv, P.Opened, AreRequests, AreMessages, AreReplies, AreLosses, MessageOf, Parties, P.AnswerStep;
      ghost var s := Abs();
      PartiesOwn(conns, devices, deviceOf, port, own, s);
      RunMore(start, history, []);
      HeadsKnown(s);
      FirstReply(replies, s.replies, port);
      var r := replies[0];
      c := r.token;
      var news;
      news, more := CompleteTo(conns, devices, deviceOf, port, r.token, r.result, sent, own, s);
      RunOne(s, [P.Answer(more, sent)]);
      AnswerMessages(inbox, replies, losses, s, more, news, port, sent);
      Record(if sent then inbox + news else inbox, replies[1..], if sent then losses else losses + Dropped(news),
             own[r.token := conns[r.token].Repr()], [P.Answer(more, sent)]);
    }

    /**
     * At any time, a connection with a request under way has exactly one message on its way, unless a step so far
     * lost one, and an idle connection has none. A connection that lost a message is never idle again.
     */
    lemma {:induction false} MessagesOf(c: nat)
      requires Valid() && c < |conns|
      ensures P.UnderWay(Abs(), c) == if conns[c].request != null && !P.Failed(start, history, c) then 1 else 0
      ensures P.Failed(start, history, c) ==> conns[c].request != null
    {
      hide P.Run, P.Opened, P.UnderWay, P.Failed, AreRequests, AllApart;
      P.OneOutstanding(start, history, c);
      assert Shows(conns[c], deviceOf[c], Abs().conns[c]);
    }
  }
}
