/**
 * The device protocol end to end: any number of connections, one server with its message queue, devices that
 * serve their requests in order, and one reply port. Both ends ignore it when the kernel refuses a message.
 */
module DevicePipeline {
  import opened Options

  /** A message under way: the connection that its token names, and the request that caused it. */
  datatype Packet<R> = Packet(conn: nat, cause: R)

  datatype Connection<R> = Connection(device: nat, pending: Option<R>, queue: seq<R>, submitted: seq<R>,
    completed: seq<R>)

  /**
   * `lost` holds the packets that are on no way any more: the kernel refused the message, or the server had no
   * memory for the request and its error reply went to a port that is not the client's.
   */
  datatype State<R> = State(
    conns: seq<Connection<R>>,
    inbox: seq<Packet<R>>,
    devices: seq<seq<Packet<R>>>,
    replies: seq<Packet<R>>,
    lost: seq<Packet<R>>)

  /** `sent` tells whether the kernel accepts the message that the step sends, if it sends one. */
  datatype Label<R> =
    | Submit(conn: nat, req: R, sent: bool)
    | Deliver(memory: bool)
    | Finish(device: nat, sent: bool)
    | Answer(calls: seq<R>, sent: bool)

  // ---------------------------------------------------------------------------------------------- the steps

  /** A client hands a message to the kernel for the server. */
  function Send<R>(s: State<R>, p: Packet<R>, sent: bool): State<R> {
    if sent then s.(inbox := s.inbox + [p]) else s.(lost := s.lost + [p])
  }

  function SubmitStep<R>(s: State<R>, c: nat, req: R, sent: bool): State<R> {
    if c >= |s.conns| then s
    else
      var x := s.conns[c].(submitted := s.conns[c].submitted + [req]);
      if x.pending.Some? then s.(conns := s.conns[c := x.(queue := x.queue + [req])])
      else Send(s.(conns := s.conns[c := x.(pending := Some(req))]), Packet(c, req), sent)
  }

  /** The server takes the next message; the first packet of a device is the one that it works on. */
  function DeliverStep<R>(s: State<R>, memory: bool): State<R> {
    if s.inbox == [] || s.inbox[0].conn >= |s.conns| then s
    else
      var p := s.inbox[0];
      var d := s.conns[p.conn].device;
      if !memory then s.(inbox := s.inbox[1..], lost := s.lost + [p])
      else if d >= |s.devices| then s
      else s.(inbox := s.inbox[1..], devices := s.devices[d := s.devices[d] + [p]])
  }

  function FinishStep<R>(s: State<R>, d: nat, sent: bool): State<R> {
    if d >= |s.devices| || s.devices[d] == [] then s
    else
      var s1 := s.(devices := s.devices[d := s.devices[d][1..]]);
      if sent then s1.(replies := s.replies + [s.devices[d][0]]) else s1.(lost := s.lost + [s.devices[d][0]])
  }

  /**
   * A client takes the next reply. It completes whatever request its connection has under way; the callback
   * makes the given calls, and then the first waiting request is sent.
   */
  function AnswerStep<R>(s: State<R>, calls: seq<R>, sent: bool): State<R> {
    if s.replies == [] || s.replies[0].conn >= |s.conns| || s.conns[s.replies[0].conn].pending.None? then s
    else
      var c := s.replies[0].conn;
      var x := s.conns[c];
      var queue := x.queue + calls;
      var y := x.(submitted := x.submitted + calls, completed := x.completed + [x.pending.value]);
      if queue == [] then s.(replies := s.replies[1..], conns := s.conns[c := y.(pending := None, queue := [])])
      else
        Send(s.(replies := s.replies[1..], conns := s.conns[c := y.(pending := Some(queue[0]), queue := queue[1..])]),
             Packet(c, queue[0]), sent)
  }

  function Step<R>(s: State<R>, l: Label<R>): State<R> {
    match l
    case Submit(c, req, sent) => SubmitStep(s, c, req, sent)
    case Deliver(memory) => DeliverStep(s, memory)
    case Finish(d, sent) => FinishStep(s, d, sent)
    case Answer(calls, sent) => AnswerStep(s, calls, sent)
  }

  function Run<R>(s: State<R>, labels: seq<Label<R>>): State<R>
    decreases |labels|
  {
    if labels == [] then s else Run(Step(s, labels[0]), labels[1..])
  }

  /** Packets join a list at its end and leave it at its front, one at a time. */
  ghost predicate InTurn<R>(x: seq<Packet<R>>, y: seq<Packet<R>>) {
    y == x || (x != [] && y == x[1..]) || (|y| == |x| + 1 && y[..|x|] == x)
  }

  /** The packet at the front of `x` went from there to the end of `z`. */
  ghost predicate Passed<R>(x: seq<Packet<R>>, y: seq<Packet<R>>, z: seq<Packet<R>>, z': seq<Packet<R>>) {
    x != [] && y == x[1..] && z' == z + [x[0]]
  }

  /**
   * Every step leaves the messages of each kind in their order. A delivered message goes to the device of its
   * connection or is lost, and what a device finishes goes to the client or is lost.
   */
  lemma {:induction false} StepKeepsOrder<R>(s: State<R>, l: Label<R>)
    ensures var t := Step(s, l);
            && InTurn(s.inbox, t.inbox) && InTurn(s.replies, t.replies) && InTurn(s.lost, t.lost)
            && |t.devices| == |s.devices|
            && (forall d :: 0 <= d < |s.devices| ==> InTurn(s.devices[d], t.devices[d]))
            && (l.Deliver? && t != s ==>
                  && s.inbox != [] && s.inbox[0].conn < |s.conns| && t.conns == s.conns && t.replies == s.replies
                  && var d := s.conns[s.inbox[0].conn].device;
                     if l.memory then
                       d < |s.devices| && Passed(s.inbox, t.inbox, s.devices[d], t.devices[d]) && t.lost == s.lost
                     else Passed(s.inbox, t.inbox, s.lost, t.lost) && t.devices == s.devices)
            && (l.Finish? && t != s ==>
                  && l.device < |s.devices| && t.conns == s.conns && t.inbox == s.inbox
                  && if l.sent then Passed(s.devices[l.device], t.devices[l.device], s.replies, t.replies)
                     else Passed(s.devices[l.device], t.devices[l.device], s.lost, t.lost))
  {
  }

  // ---------------------------------------------------------------------------------------------- the invariant

  ghost function Count<R>(l: seq<Packet<R>>, c: nat): nat {
    if l == [] then 0 else (if l[0].conn == c then 1 else 0) + Count(l[1..], c)
  }

  ghost function CountAll<R>(ls: seq<seq<Packet<R>>>, c: nat): nat {
    if ls == [] then 0 else Count(ls[0], c) + CountAll(ls[1..], c)
  }

  /** The messages that are under way for a connection. */
  ghost function UnderWay<R>(s: State<R>, c: nat): nat {
    Count(s.inbox, c) + CountAll(s.devices, c) + Count(s.replies, c)
  }

  /** The messages of a connection that were not answered, whether under way or lost. */
  ghost function Open<R>(s: State<R>, c: nat): nat {
    UnderWay(s, c) + Count(s.lost, c)
  }

  ghost predicate Caused<R>(conns: seq<Connection<R>>, p: Packet<R>) {
    p.conn < |conns| && conns[p.conn].pending == Some(p.cause)
  }

  /** Every message on the list was caused by the request that its connection has under way. */
  ghost predicate AllCaused<R>(conns: seq<Connection<R>>, l: seq<Packet<R>>) {
    forall i :: 0 <= i < |l| ==> Caused(conns, l[i])
  }

  ghost predicate InOrder<R>(x: Connection<R>) {
    && x.submitted == x.completed + (if x.pending.Some? then [x.pending.value] else []) + x.queue
    && (x.pending.None? ==> x.queue == [])
  }

  ghost predicate Inv<R>(s: State<R>) {
    && AllCaused(s.conns, s.inbox) && AllCaused(s.conns, s.replies) && AllCaused(s.conns, s.lost)
    && (forall d :: 0 <= d < |s.devices| ==> AllCaused(s.conns, s.devices[d]))
    && (forall c: nat :: c < |s.conns| ==>
          InOrder(s.conns[c]) && Open(s, c) == if s.conns[c].pending.Some? then 1 else 0)
  }

  // ---------------------------------------------------------------------------------------------- counting

  lemma {:induction false} CountSnoc<R>(l: seq<Packet<R>>, p: Packet<R>, c: nat)
    ensures Count(l + [p], c) == Count(l, c) + if p.conn == c then 1 else 0
  {
    if l == [] {
      assert l + [p] == [p] && [p][1..] == [];
    } else {
      assert (l + [p])[1..] == l[1..] + [p];
      CountSnoc(l[1..], p, c);
    }
  }

  lemma {:induction false} CountUpdate<R>(ls: seq<seq<Packet<R>>>, d: nat, l: seq<Packet<R>>, c: nat)
    requires d < |ls|
    ensures CountAll(ls[d := l], c) + Count(ls[d], c) == CountAll(ls, c) + Count(l, c)
  {
    if d == 0 {
      assert ls[0 := l][1..] == ls[1..];
    } else {
      assert ls[d := l][1..] == ls[1..][d - 1 := l];
      CountUpdate(ls[1..], d - 1, l, c);
    }
  }

  /** A connection with no message under way is named by none. */
  lemma {:induction false} CountZero<R>(l: seq<Packet<R>>, c: nat)
    ensures Count(l, c) == 0 <==> forall i :: 0 <= i < |l| ==> l[i].conn != c
  {
    if l != [] {
      CountZero(l[1..], c);
      assert forall i :: 0 <= i < |l[1..]| ==> l[1..][i] == l[i + 1];
    }
  }

  lemma {:induction false} CountAllZero<R>(ls: seq<seq<Packet<R>>>, c: nat)
    ensures CountAll(ls, c) == 0 <==> forall d :: 0 <= d < |ls| ==> Count(ls[d], c) == 0
  {
    if ls != [] {
      CountAllZero(ls[1..], c);
      assert forall d :: 0 <= d < |ls[1..]| ==> ls[1..][d] == ls[d + 1];
    }
  }

  // ---------------------------------------------------------------------------------------------- preservation

  /** When a connection without messages changes, all messages keep their cause. */
  lemma {:induction false} CausedElsewhere<R>(conns: seq<Connection<R>>, c: nat, x: Connection<R>, l: seq<Packet<R>>)
    requires c < |conns| && AllCaused(conns, l) && (Count(l, c) == 0 || x.pending == conns[c].pending)
    ensures AllCaused(conns[c := x], l)
  {
    CountZero(l, c);
    forall i | 0 <= i < |l|
      ensures Caused(conns[c := x], l[i])
    {
      assert Caused(conns, l[i]);
    }
  }

  lemma {:induction false} AllCausedElsewhere<R>(s: State<R>, c: nat, x: Connection<R>)
    requires Inv(s) && c < |s.conns| && (Open(s, c) == 0 || x.pending == s.conns[c].pending)
    ensures AllCaused(s.conns[c := x], s.inbox) && AllCaused(s.conns[c := x], s.replies)
            && AllCaused(s.conns[c := x], s.lost)
    ensures forall d :: 0 <= d < |s.devices| ==> AllCaused(s.conns[c := x], s.devices[d])
  {
    hide AllCaused, InOrder, Count;
    CausedElsewhere(s.conns, c, x, s.inbox);
    CausedElsewhere(s.conns, c, x, s.replies);
    CausedElsewhere(s.conns, c, x, s.lost);
    CountAllZero(s.devices, c);
    forall d | 0 <= d < |s.devices|
      ensures AllCaused(s.conns[c := x], s.devices[d])
    {
      CausedElsewhere(s.conns, c, x, s.devices[d]);
    }
  }

  lemma {:induction false} CausedSnoc<R>(conns: seq<Connection<R>>, l: seq<Packet<R>>, p: Packet<R>)
    requires AllCaused(conns, l) && Caused(conns, p)
    ensures AllCaused(conns, l + [p])
  {
  }

  lemma {:induction false} CausedHead<R>(conns: seq<Connection<R>>, l: seq<Packet<R>>)
    requires AllCaused(conns, l) && l != []
    ensures Caused(conns, l[0]) && AllCaused(conns, l[1..])
  {
  }

  lemma {:induction false} SubmitKeeps<R>(s: State<R>, c: nat, req: R, sent: bool)
    requires Inv(s)
    ensures Inv(SubmitStep(s, c, req, sent))
  {
    hide AllCaused, Count, CountAll;
    if c < |s.conns| {
      var d := SubmitStep(s, c, req, sent);
      AllCausedElsewhere(s, c, d.conns[c]);
      if s.conns[c].pending.None? {
        SendKeeps(d.conns, s.inbox, s.lost, Packet(c, req));
      }
    }
  }

  /** A message may be added to the inbox or to the lost ones when its connection has its cause under way. */
  lemma {:induction false} SendKeeps<R>(conns: seq<Connection<R>>, inbox: seq<Packet<R>>, lost: seq<Packet<R>>,
      p: Packet<R>)
    requires AllCaused(conns, inbox) && AllCaused(conns, lost) && Caused(conns, p)
    ensures AllCaused(conns, inbox + [p]) && AllCaused(conns, lost + [p])
    ensures forall c: nat :: Count(inbox + [p], c) == Count(inbox, c) + if p.conn == c then 1 else 0
    ensures forall c: nat :: Count(lost + [p], c) == Count(lost, c) + if p.conn == c then 1 else 0
  {
    hide Count, AllCaused;
    CausedSnoc(conns, inbox, p);
    CausedSnoc(conns, lost, p);
    forall c: nat
      ensures Count(inbox + [p], c) == Count(inbox, c) + if p.conn == c then 1 else 0
      ensures Count(lost + [p], c) == Count(lost, c) + if p.conn == c then 1 else 0
    {
      CountSnoc(inbox, p, c);
      CountSnoc(lost, p, c);
    }
  }

  lemma {:induction false} DeliverKeeps<R>(s: State<R>, memory: bool)
    requires Inv(s)
    ensures Inv(DeliverStep(s, memory))
  {
    hide AllCaused, InOrder, CountAll;
    if s.inbox != [] {
      CausedHead(s.conns, s.inbox);
      var p := s.inbox[0];
      var d := s.conns[p.conn].device;
      CausedSnoc(s.conns, s.lost, p);
      if d < |s.devices| {
        CausedSnoc(s.conns, s.devices[d], p);
      }
      forall c: nat
        ensures Open(DeliverStep(s, memory), c) == Open(s, c)
      {
        CountSnoc(s.lost, p, c);
        if d < |s.devices| {
          CountSnoc(s.devices[d], p, c);
          CountUpdate(s.devices, d, s.devices[d] + [p], c);
        }
      }
    }
  }

  lemma {:induction false} FinishKeeps<R>(s: State<R>, d: nat, sent: bool)
    requires Inv(s)
    ensures Inv(FinishStep(s, d, sent))
  {
    hide AllCaused, InOrder, CountAll;
    if d < |s.devices| && s.devices[d] != [] {
      CausedHead(s.conns, s.devices[d]);
      CausedSnoc(s.conns, s.replies, s.devices[d][0]);
      CausedSnoc(s.conns, s.lost, s.devices[d][0]);
      forall c: nat
        ensures Open(FinishStep(s, d, sent), c) == Open(s, c)
      {
        CountSnoc(s.replies, s.devices[d][0], c);
        CountSnoc(s.lost, s.devices[d][0], c);
        CountUpdate(s.devices, d, s.devices[d][1..], c);
      }
    }
  }

  /** The state once the reply is taken: nothing is under way for its connection. */
  lemma {:induction false} AnswerKeeps<R>(s: State<R>, calls: seq<R>, sent: bool)
    requires Inv(s)
    ensures Inv(AnswerStep(s, calls, sent))
  {
    hide AllCaused, Count, CountAll;
    if s.replies != [] {
      CausedHead(s.conns, s.replies);
      var c := s.replies[0].conn;
      var x := s.conns[c];
      var queue := x.queue + calls;
      var d := AnswerStep(s, calls, sent);
      ReplyGone(s, d.conns[c]);
      assert x.submitted + calls == x.completed + [x.pending.value] + queue;
      if queue != [] {
        SendKeeps(d.conns, s.inbox, s.lost, Packet(c, queue[0]));
        assert x.completed + [x.pending.value] + queue == x.completed + [x.pending.value] + [queue[0]] + queue[1..];
      }
    }
  }

  lemma {:induction false} ReplyGone<R>(s: State<R>, y: Connection<R>)
    requires Inv(s) && s.replies != [] && s.replies[0].conn < |s.conns|
    ensures var conns := s.conns[s.replies[0].conn := y];
            && AllCaused(conns, s.inbox) && AllCaused(conns, s.replies[1..]) && AllCaused(conns, s.lost)
            && (forall d :: 0 <= d < |s.devices| ==> AllCaused(conns, s.devices[d]))
    ensures forall c: nat :: Count(s.replies, c) == Count(s.replies[1..], c) + if s.replies[0].conn == c then 1 else 0
    ensures s.conns[s.replies[0].conn].pending.Some?
  {
    hide AllCaused, InOrder, CountAll;
    var c := s.replies[0].conn;
    CausedHead(s.conns, s.replies);
    CausedElsewhere(s.conns, c, y, s.inbox);
    CausedElsewhere(s.conns, c, y, s.replies[1..]);
    CausedElsewhere(s.conns, c, y, s.lost);
    CountAllZero(s.devices, c);
    forall d | 0 <= d < |s.devices|
      ensures AllCaused(s.conns[c := y], s.devices[d])
    {
      CausedElsewhere(s.conns, c, y, s.devices[d]);
    }
  }

  lemma {:induction false} StepKeeps<R>(s: State<R>, l: Label<R>)
    requires Inv(s)
    ensures Inv(Step(s, l))
  {
    hide Inv, SubmitStep, DeliverStep, FinishStep, AnswerStep;
    match l
    case Submit(c, req, sent) => SubmitKeeps(s, c, req, sent);
    case Deliver(memory) => DeliverKeeps(s, memory);
    case Finish(d, sent) => FinishKeeps(s, d, sent);
    case Answer(calls, sent) => AnswerKeeps(s, calls, sent);
  }

  // ---------------------------------------------------------------------------------------------- the results

  /** Connections that were just opened, each to one of the devices. */
  ghost predicate Opened<R>(s: State<R>) {
    && s.inbox == [] && s.replies == [] && s.lost == []
    && (forall d :: 0 <= d < |s.devices| ==> s.devices[d] == [])
    && (forall c: nat :: c < |s.conns| ==> s.conns[c] == Connection(s.conns[c].device, None, [], [], []))
    && Wired(s)
  }

  ghost predicate Wired<R>(s: State<R>) {
    forall c: nat :: c < |s.conns| ==> s.conns[c].device < |s.devices|
  }

  /** Whatever the clients submit, also from within callbacks, and however the parties take turns. */
  lemma {:induction false} EveryRun<R>(s: State<R>, labels: seq<Label<R>>)
    requires Opened(s)
    ensures Inv(Run(s, labels))
  {
    OpenedIsInv(s);
    RunKeeps(s, labels);
  }

  lemma {:induction false} OpenedIsInv<R>(s: State<R>)
    requires Opened(s)
    ensures Inv(s)
  {
    forall c: nat
      ensures Open(s, c) == 0
    {
      CountAllZero(s.devices, c);
    }
  }

  lemma {:induction false} RunKeeps<R>(s: State<R>, labels: seq<Label<R>>)
    requires Inv(s)
    ensures Inv(Run(s, labels))
    decreases |labels|
  {
    hide Inv, Step;
    if labels != [] {
      StepKeeps(s, labels[0]);
      RunKeeps(Step(s, labels[0]), labels[1..]);
    }
  }

  /** What the invariant says of one connection. */
  lemma {:induction false} InvOf<R>(s: State<R>, c: nat)
    requires Inv(s) && c < |s.conns|
    ensures Open(s, c) == if s.conns[c].pending.Some? then 1 else 0
    ensures InOrder(s.conns[c])
  {
    hide AllCaused, Count, CountAll;
  }

  // ---------------------------------------------------------------------------------------------- losses

  /** The step loses a message of the connection: the kernel refuses it, or the server has no memory for it. */
  ghost predicate Loses<R>(s: State<R>, l: Label<R>, c: nat) {
    match l
    case Submit(c2, _, sent) => !sent && c2 == c && c < |s.conns| && s.conns[c].pending.None?
    case Deliver(memory) => !memory && s.inbox != [] && s.inbox[0].conn == c
    case Finish(d, sent) => !sent && d < |s.devices| && s.devices[d] != [] && s.devices[d][0].conn == c
    case Answer(calls, sent) =>
      && !sent && s.replies != [] && s.replies[0].conn == c && c < |s.conns|
      && s.conns[c].queue + calls != []
  }

  /** Some step of the run loses a message of the connection. */
  ghost predicate Failed<R>(s: State<R>, labels: seq<Label<R>>, c: nat)
    decreases |labels|
  {
    labels != [] && (Loses(s, labels[0], c) || Failed(Step(s, labels[0]), labels[1..], c))
  }

  ghost predicate Lost<R>(s: State<R>, c: nat) {
    exists i :: 0 <= i < |s.lost| && s.lost[i].conn == c
  }

  lemma {:induction false} LostSnoc<R>(s: State<R>, d: State<R>, p: Packet<R>, c: nat)
    requires d.lost == s.lost + [p]
    ensures Lost(d, c) <==> Lost(s, c) || p.conn == c
  {
    if Lost(s, c) {
      var i :| 0 <= i < |s.lost| && s.lost[i].conn == c;
      assert d.lost[i].conn == c;
    }
    assert d.lost[|s.lost|] == p;
  }

  lemma {:induction false} LostStep<R>(s: State<R>, l: Label<R>, c: nat)
    requires Inv(s)
    ensures Lost(Step(s, l), c) <==> Lost(s, c) || Loses(s, l, c)
  {
    hide Lost, Count, CountAll, InOrder;
    var d := Step(s, l);
    if s.inbox != [] {
      CausedHead(s.conns, s.inbox);
    }
    if s.replies != [] {
      CausedHead(s.conns, s.replies);
    }
    if d.lost != s.lost {
      LostSnoc(s, d, d.lost[|s.lost|], c);
    } else {
      SameLost(s, d, c);
    }
  }

  lemma {:induction false} SameLost<R>(s: State<R>, d: State<R>, c: nat)
    requires d.lost == s.lost
    ensures Lost(d, c) <==> Lost(s, c)
  {
  }

  lemma {:induction false} LostRun<R>(s: State<R>, labels: seq<Label<R>>, c: nat)
    requires Inv(s)
    ensures Lost(Run(s, labels), c) <==> Lost(s, c) || Failed(s, labels, c)
    decreases |labels|
  {
    hide Inv, Step, Lost, Loses;
    if labels != [] {
      LostStep(s, labels[0], c);
      StepKeeps(s, labels[0]);
      LostRun(Step(s, labels[0]), labels[1..], c);
    }
  }

  /** A packet is in `lost` exactly when a step of the run lost it. */
  lemma {:induction false} LostMeansFailed<R>(s0: State<R>, labels: seq<Label<R>>, c: nat)
    requires Opened(s0)
    ensures Lost(Run(s0, labels), c) <==> Failed(s0, labels, c)
  {
    hide Inv, Run, Failed;
    OpenedIsInv(s0);
    LostRun(s0, labels, c);
  }

  // ---------------------------------------------------------------------------------------------- what a run promises

  /**
   * After any run a connection has exactly one message under way while a request is, unless a step of the run lost
   * it, and else none; a lost one leaves its request under way. Completion is in the order of submission.
   */
  lemma {:induction false} OneOutstanding<R>(s0: State<R>, labels: seq<Label<R>>, c: nat)
    requires Opened(s0) && c < |Run(s0, labels).conns|
    ensures var s := Run(s0, labels);
            && UnderWay(s, c) == (if s.conns[c].pending.Some? && !Failed(s0, labels, c) then 1 else 0)
            && (Failed(s0, labels, c) ==> s.conns[c].pending.Some?)
            && s.conns[c].completed <= s.conns[c].submitted
            && (s.conns[c].pending.Some? ==> s.conns[c].completed + [s.conns[c].pending.value] <= s.conns[c].submitted)
  {
    hide Inv, Run, Failed;
    EveryRun(s0, labels);
    InvOf(Run(s0, labels), c);
    LostMeansFailed(s0, labels, c);
    CountZero(Run(s0, labels).lost, c);
  }

  /** The head of the replies was caused by the request under way, so taking it completes that request. */
  lemma {:induction false} AnswerCompletes<R>(s: State<R>, calls: seq<R>, sent: bool)
    requires Inv(s) && s.replies != []
    ensures var p := s.replies[0];
            var d := AnswerStep(s, calls, sent);
            && p.conn < |s.conns| && |d.conns| == |s.conns| && d.replies == s.replies[1..]
            && d.conns[p.conn].completed == s.conns[p.conn].completed + [p.cause]
            && (forall c: nat :: c < |s.conns| && c != p.conn ==> d.conns[c] == s.conns[c])
  {
    hide Count, CountAll, InOrder;
    CausedHead(s.conns, s.replies);
  }

  /**
   * After any run, the reply that a client takes completes the very request that caused it, and no other connection
   * notices.
   */
  lemma {:induction false} ReplyCompletesItsCause<R>(s0: State<R>, labels: seq<Label<R>>, calls: seq<R>, sent: bool)
    requires Opened(s0) && Run(s0, labels).replies != []
    ensures var s := Run(s0, labels);
            var p := s.replies[0];
            var d := Step(s, Answer(calls, sent));
            && p.conn < |s.conns| && |d.conns| == |s.conns|
            && d.conns[p.conn].completed == s.conns[p.conn].completed + [p.cause]
            && (forall c: nat :: c < |s.conns| && c != p.conn ==> d.conns[c] == s.conns[c])
  {
    hide Inv, Run, AnswerStep;
    EveryRun(s0, labels);
    AnswerCompletes(Run(s0, labels), calls, sent);
  }

  /** The message of the request that the connection has under way waits at the server, a device or for the client. */
  ghost predicate Somewhere<R>(s: State<R>, c: nat)
    requires c < |s.conns| && s.conns[c].pending.Some?
  {
    var p := Packet(c, s.conns[c].pending.value);
    p in s.inbox || p in s.replies || exists d :: 0 <= d < |s.devices| && p in s.devices[d]
  }

  lemma {:induction false} PendingIsSomewhere<R>(s: State<R>, c: nat)
    requires Inv(s) && c < |s.conns| && s.conns[c].pending.Some? && !Lost(s, c)
    ensures Somewhere(s, c)
  {
    CountZero(s.lost, c);
    if Count(s.inbox, c) > 0 {
      Named(s.conns, s.inbox, c);
    } else if Count(s.replies, c) > 0 {
      Named(s.conns, s.replies, c);
    } else {
      CountAllZero(s.devices, c);
      var d :| 0 <= d < |s.devices| && Count(s.devices[d], c) > 0;
      Named(s.conns, s.devices[d], c);
    }
  }

  lemma {:induction false} Named<R>(conns: seq<Connection<R>>, l: seq<Packet<R>>, c: nat)
    requires AllCaused(conns, l) && Count(l, c) > 0
    ensures c < |conns| && conns[c].pending.Some? && Packet(c, conns[c].pending.value) in l
  {
    CountZero(l, c);
    var i :| 0 <= i < |l| && l[i].conn == c;
    assert Caused(conns, l[i]) && l[i] in l;
  }

  /** After any run, a request under way whose messages were all accepted is not forgotten. */
  lemma {:induction false} NothingForgotten<R>(s0: State<R>, labels: seq<Label<R>>, c: nat)
    requires Opened(s0) && c < |Run(s0, labels).conns|
    requires Run(s0, labels).conns[c].pending.Some? && !Failed(s0, labels, c)
    ensures Somewhere(Run(s0, labels), c)
  {
    hide Inv, Run, Failed;
    EveryRun(s0, labels);
    LostMeansFailed(s0, labels, c);
    PendingIsSomewhere(Run(s0, labels), c);
  }

  // ---------------------------------------------------------------------------------------------- stalled connections

  /** Once a message of a connection is lost, no reply ever comes for it. */
  lemma {:induction false} LostMeansNoReply<R>(s: State<R>, c: nat)
    requires Inv(s) && Lost(s, c)
    ensures c < |s.conns| && s.conns[c].pending.Some?
    ensures forall i :: 0 <= i < |s.replies| ==> s.replies[i].conn != c
  {
    CountZero(s.lost, c);
    CountZero(s.replies, c);
    var i :| 0 <= i < |s.lost| && s.lost[i].conn == c;
    assert Caused(s.conns, s.lost[i]);
    InvOf(s, c);
  }

  lemma {:induction false} StallStep<R>(s: State<R>, l: Label<R>, c: nat)
    requires Inv(s) && Lost(s, c)
    ensures var d := Step(s, l);
            && Lost(d, c) && c < |s.conns| && c < |d.conns|
            && d.conns[c].pending == s.conns[c].pending && d.conns[c].completed == s.conns[c].completed
  {
    LostStep(s, l, c);
    hide Inv, Lost;
    LostMeansNoReply(s, c);
  }

  /** In any further run the request stays under way and nothing completes. */
  lemma {:induction false} LostStallsConnection<R>(s: State<R>, labels: seq<Label<R>>, c: nat)
    requires Inv(s) && Lost(s, c)
    ensures var d := Run(s, labels);
            && Lost(d, c) && c < |s.conns| && c < |d.conns|
            && d.conns[c].pending == s.conns[c].pending && d.conns[c].completed == s.conns[c].completed
    decreases |labels|
  {
    hide Inv, Step, Lost;
    LostMeansNoReply(s, c);
    if labels != [] {
      StallStep(s, labels[0], c);
      StepKeeps(s, labels[0]);
      LostStallsConnection(Step(s, labels[0]), labels[1..], c);
    }
  }

  ghost function Completed<R>(s: State<R>, c: nat): seq<R> {
    if c < |s.conns| then s.conns[c].completed else []
  }

  lemma {:induction false} StepWired<R>(s: State<R>, l: Label<R>)
    requires Wired(s)
    ensures Wired(Step(s, l)) && |Step(s, l).conns| == |s.conns|
  {
  }

  lemma {:induction false} RunWired<R>(s: State<R>, labels: seq<Label<R>>)
    requires Wired(s)
    ensures Wired(Run(s, labels)) && |Run(s, labels).conns| == |s.conns|
    decreases |labels|
  {
    hide Wired, Step;
    if labels != [] {
      StepWired(s, labels[0]);
      RunWired(Step(s, labels[0]), labels[1..]);
    }
  }

  /** One more step in front of a run. */
  lemma {:induction false} RunCons<R>(s: State<R>, l: Label<R>, more: seq<Label<R>>)
    ensures Run(s, [l] + more) == Run(Step(s, l), more)
  {
    hide Step;
    assert ([l] + more)[1..] == more;
  }

  /** A reply at position `i` is taken after `i` others. */
  lemma {:induction false} ReplyComes<R>(s: State<R>, c: nat, i: nat) returns (more: seq<Label<R>>)
    requires Inv(s) && c < |s.conns| && i < |s.replies| && s.replies[i].conn == c
    ensures Completed(Run(s, more), c) != s.conns[c].completed
    decreases i
  {
    hide Inv, AnswerStep, Run;
    var l := Answer([], true);
    var d := Step(s, l);
    StepKeeps(s, l);
    AnswerCompletes(s, [], true);
    if s.replies[0].conn == c {
      more := [l];
      RunOne(s, l);
    } else {
      var rest := ReplyComes(d, c, i - 1);
      more := [l] + rest;
      RunCons(s, l, rest);
    }
  }

  lemma {:induction false} RunOne<R>(s: State<R>, l: Label<R>)
    ensures Run(s, [l]) == Step(s, l)
  {
    hide Step;
    assert [l][1..] == [];
  }

  /** The request at position `i` of a device is answered after `i` others. */
  lemma {:induction false} DeviceComes<R>(s: State<R>, c: nat, d: nat, i: nat) returns (more: seq<Label<R>>)
    requires Inv(s) && c < |s.conns| && d < |s.devices| && i < |s.devices[d]| && s.devices[d][i].conn == c
    ensures Completed(Run(s, more), c) != s.conns[c].completed
    decreases i
  {
    hide Inv, Run;
    var l := Finish(d, true);
    var s1 := Step(s, l);
    StepKeeps(s, l);
    var rest;
    if i == 0 {
      assert s1.replies[|s.replies|].conn == c;
      rest := ReplyComes(s1, c, |s.replies|);
    } else {
      rest := DeviceComes(s1, c, d, i - 1);
    }
    more := [l] + rest;
    RunCons(s, l, rest);
  }

  /** The message at position `i` of the server's port is delivered after `i` others. */
  lemma {:induction false} MessageComes<R>(s: State<R>, c: nat, i: nat) returns (more: seq<Label<R>>)
    requires Inv(s) && Wired(s) && c < |s.conns| && i < |s.inbox| && s.inbox[i].conn == c
    ensures Completed(Run(s, more), c) != s.conns[c].completed
    decreases i
  {
    hide Inv, Run;
    var l := Deliver(true);
    var s1 := Step(s, l);
    StepKeeps(s, l);
    InboxKnown(s);
    var rest;
    if i == 0 {
      var d := s.conns[c].device;
      assert s1.devices[d][|s.devices[d]|].conn == c;
      rest := DeviceComes(s1, c, d, |s.devices[d]|);
    } else {
      rest := MessageComes(s1, c, i - 1);
    }
    more := [l] + rest;
    RunCons(s, l, rest);
  }

  lemma {:induction false} InboxKnown<R>(s: State<R>)
    requires Inv(s) && s.inbox != []
    ensures s.inbox[0].conn < |s.conns|
  {
    hide Count, CountAll, InOrder;
    CausedHead(s.conns, s.inbox);
  }

  /** A request whose message is somewhere can be completed: let the parties work on in order, and the kernel accept. */
  lemma {:induction false} CanComplete<R>(s: State<R>, c: nat) returns (more: seq<Label<R>>)
    requires Inv(s) && Wired(s) && c < |s.conns| && s.conns[c].pending.Some? && Somewhere(s, c)
    ensures Completed(Run(s, more), c) != s.conns[c].completed
  {
    hide Inv, Wired, Run;
    var p := Packet(c, s.conns[c].pending.value);
    if p in s.inbox {
      var i :| 0 <= i < |s.inbox| && s.inbox[i] == p;
      more := MessageComes(s, c, i);
    } else if p in s.replies {
      var i :| 0 <= i < |s.replies| && s.replies[i] == p;
      more := ReplyComes(s, c, i);
    } else {
      var d :| 0 <= d < |s.devices| && p in s.devices[d];
      var i :| 0 <= i < |s.devices[d]| && s.devices[d][i] == p;
      more := DeviceComes(s, c, d, i);
    }
  }

  /**
   * A request under way is stalled for good exactly when some step of the run lost a message of its connection:
   * in no further run does the connection complete anything. Otherwise the parties can complete it.
   */
  lemma {:induction false} StalledIffFailed<R>(s0: State<R>, labels: seq<Label<R>>, c: nat)
    requires Opened(s0) && c < |Run(s0, labels).conns| && Run(s0, labels).conns[c].pending.Some?
    ensures Failed(s0, labels, c) <==>
              forall more: seq<Label<R>> ::
                Completed(Run(s0, labels + more), c) == Run(s0, labels).conns[c].completed
  {
    hide Inv, Opened, Run, Failed, Lost, Wired;
    var s := Run(s0, labels);
    EveryRun(s0, labels);
    LostMeansFailed(s0, labels, c);
    if Failed(s0, labels, c) {
      forall more: seq<Label<R>>
        ensures Completed(Run(s0, labels + more), c) == s.conns[c].completed
      {
        RunConcat(s0, labels, more);
        LostStallsConnection(s, more, c);
      }
    } else {
      OpenedWired(s0);
      RunWired(s0, labels);
      PendingIsSomewhere(s, c);
      var more := CanComplete(s, c);
      RunConcat(s0, labels, more);
    }
  }

  lemma {:induction false} OpenedWired<R>(s: State<R>)
    requires Opened(s)
    ensures Wired(s)
  {
  }

  /** Each kind of loss happens on a connection that was just opened. */
  lemma {:induction false} LossesHappen<R>(s: State<R>, c: nat, r: R, r2: R)
    requires Opened(s) && c < |s.conns|
    ensures var d := s.conns[c].device;
            && Failed(s, [Submit(c, r, false)], c)
            && Failed(s, [Submit(c, r, true), Deliver(false)], c)
            && Failed(s, [Submit(c, r, true), Deliver(true), Finish(d, false)], c)
            && Failed(s, [Submit(c, r, true), Deliver(true), Finish(d, true), Answer([r2], false)], c)
  {
    hide Opened;
    FirstSteps(s, c, r);
    var d := s.conns[c].device;
    var submit: Label<R>, deliver: Label<R> := Submit(c, r, true), Deliver(true);
    var s1 := Step(s, submit);
    var s2 := Step(s1, deliver);
    FailedFirst(s, Submit(c, r, false), c);
    FailedFirst(s1, Deliver(false), c);
    FailedCons(s, submit, [Deliver(false)], c);
    FailedFirst(s2, Finish(d, false), c);
    FailedCons(s1, deliver, [Finish(d, false)], c);
    FailedCons(s, submit, [deliver, Finish(d, false)], c);
    FailedFirst(Step(s2, Finish(d, true)), Answer([r2], false), c);
    FailedCons(s2, Finish(d, true), [Answer([r2], false)], c);
    FailedCons(s1, deliver, [Finish(d, true), Answer([r2], false)], c);
    FailedCons(s, submit, [deliver, Finish(d, true), Answer([r2], false)], c);
  }

  /** The message of a first request on its way to the client. */
  lemma {:induction false} FirstSteps<R>(s: State<R>, c: nat, r: R)
    requires Opened(s) && c < |s.conns|
    ensures var d := s.conns[c].device;
            var s1 := Step(s, Submit(c, r, true));
            var s2 := Step(s1, Deliver(true));
            var s3 := Step(s2, Finish(d, true));
            && d < |s.devices| && s.conns[c].pending.None?
            && s1.inbox == [Packet(c, r)]
            && |s2.devices| == |s.devices| && s2.devices[d] == [Packet(c, r)]
            && s3.replies == [Packet(c, r)] && |s3.conns| == |s.conns|
  {
  }

  lemma {:induction false} FailedFirst<R>(s: State<R>, l: Label<R>, c: nat)
    requires Loses(s, l, c)
    ensures Failed(s, [l], c)
  {
    hide Loses, Step;
  }

  lemma {:induction false} FailedCons<R>(s: State<R>, l: Label<R>, more: seq<Label<R>>, c: nat)
    requires Failed(Step(s, l), more, c)
    ensures Failed(s, [l] + more, c)
  {
    hide Loses, Step;
    assert ([l] + more)[1..] == more;
  }

  // ---------------------------------------------------------------------------------------------- several at once

  /** The device finishes `k` requests in a row; the kernel accepts the `i`-th reply when `sent(i)`. */
  ghost function Finishes<R>(d: nat, k: nat, sent: nat -> bool): (l: seq<Label<R>>)
    ensures |l| == k && forall i :: 0 <= i < k ==> l[i] == Finish(d, sent(i))
  {
    seq(k, i requires 0 <= i => Finish(d, sent(i)))
  }

  /** Those of the first `k` elements for which `sent` answers `which`. */
  function Chosen<T>(l: seq<T>, k: nat, sent: nat -> bool, which: bool): seq<T>
    requires k <= |l|
  {
    if k == 0 then []
    else Chosen(l, k - 1, sent, which) + if sent(k - 1) == which then [l[k - 1]] else []
  }

  /** Running them moves the first `k` packets of the device to the replies or to the lost ones, in their order. */
  lemma {:induction false} FinishMany<R>(s: State<R>, d: nat, k: nat, sent: nat -> bool)
    requires d < |s.devices| && k <= |s.devices[d]|
    ensures Run(s, Finishes(d, k, sent)) ==
            s.(devices := s.devices[d := s.devices[d][k..]],
               replies := s.replies + Chosen(s.devices[d], k, sent, true),
               lost := s.lost + Chosen(s.devices[d], k, sent, false))
    decreases k
  {
    if k == 0 {
      assert s.devices[d][0..] == s.devices[d] && s.devices[d := s.devices[d]] == s.devices;
      assert s.replies + [] == s.replies && s.lost + [] == s.lost;
    } else {
      var l: Label<R> := Finish(d, sent(k - 1));
      assert Finishes<R>(d, k, sent) == Finishes(d, k - 1, sent) + [l];
      RunConcat(s, Finishes(d, k - 1, sent), [l]);
      FinishMany(s, d, k - 1, sent);
      RunOne(Run(s, Finishes(d, k - 1, sent)), l);
      LastFinish(s, d, k, sent);
    }
  }

  lemma {:induction false} LastFinish<R>(s: State<R>, d: nat, k: nat, sent: nat -> bool)
    requires d < |s.devices| && 0 < k <= |s.devices[d]|
    ensures FinishStep(
              s.(devices := s.devices[d := s.devices[d][k - 1..]],
                 replies := s.replies + Chosen(s.devices[d], k - 1, sent, true),
                 lost := s.lost + Chosen(s.devices[d], k - 1, sent, false)), d, sent(k - 1)) ==
            s.(devices := s.devices[d := s.devices[d][k..]],
               replies := s.replies + Chosen(s.devices[d], k, sent, true),
               lost := s.lost + Chosen(s.devices[d], k, sent, false))
  {
    var l := s.devices[d];
    assert l[k - 1..][1..] == l[k..] && s.devices[d := l[k - 1..]][d := l[k..]] == s.devices[d := l[k..]];
    forall b: bool
      ensures Chosen(l, k, sent, b) == Chosen(l, k - 1, sent, b) + if sent(k - 1) == b then [l[k - 1]] else []
    {
    }
    var t, f := Chosen(l, k - 1, sent, true), Chosen(l, k - 1, sent, false);
    assert s.replies + (t + [l[k - 1]]) == s.replies + t + [l[k - 1]]
           && s.lost + (f + [l[k - 1]]) == s.lost + f + [l[k - 1]];
    assert t + [] == t && f + [] == f;
  }

  lemma {:induction false} RunConcat<R>(s: State<R>, x: seq<Label<R>>, y: seq<Label<R>>)
    ensures Run(s, x + y) == Run(Run(s, x), y)
    decreases |x|
  {
    hide Step;
    if x == [] {
      assert x + y == y;
    } else {
      assert (x + y)[0] == x[0] && (x + y)[1..] == x[1..] + y;
      RunConcat(Step(s, x[0]), x[1..], y);
    }
  }
}
