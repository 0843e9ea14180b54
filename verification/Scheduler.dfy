/** Threads linked into queues through their one link field, and the scheduler, mutexes and ports on top of them. */
module Scheduling {
  import opened Options
  import opened Seqs
  import M = Machine
  import G = Guarantees

  class Thread {
    var phase: M.Phase
    /** `sched_next`, shared by every queue that a thread can be in. */
    var schedNext: Thread?

    constructor ()
      ensures phase == M.Created
    {
      phase, schedNext := M.Created, null;
    }
  }

  ghost function Nth(chain: seq<Thread>, i: nat): Thread? {
    if i < |chain| then chain[i] else null
  }

  /** The queue holds the threads `chain`. */
  ghost predicate IsQueue(q: ThreadQueue, chain: seq<Thread>)
    reads q`first, q`last, chain`schedNext
  {
    && Distinct(chain)
    && q.first == Nth(chain, 0) && q.last == (if chain == [] then null else chain[|chain| - 1])
    && forall j {:trigger chain[j]} :: 0 <= j < |chain| ==> chain[j].schedNext == Nth(chain, j + 1)
  }

  ghost function LastOf(chain: seq<Thread>): (r: set<Thread>)
    ensures forall x | x in r :: x in chain
  {
    if chain == [] then {} else {chain[|chain| - 1]}
  }

  class ThreadQueue {
    var first: Thread?
    var last: Thread?

    constructor ()
      ensures IsQueue(this, [])
    {
      first, last := null, null;
    }

    /** Appends a thread. */
    method Add(t: Thread, ghost chain: seq<Thread>)
      requires IsQueue(this, chain) && t !in chain
      modifies this`first, this`last, t`schedNext, LastOf(chain)`schedNext
      ensures IsQueue(this, chain + [t])
    {
      t.schedNext := null;
      if last != null {
        last.schedNext := t;
      }
      last := t;
      if first == null {
        first := t;
      }
    }

    /** Removes the first thread, or answers null. */
    method Pop(ghost chain: seq<Thread>) returns (t: Thread?)
      requires IsQueue(this, chain)
      modifies this`first, this`last
      ensures t == Nth(chain, 0)
      ensures IsQueue(this, if chain == [] then [] else chain[1..])
    {
      t := first;
      if t != null {
        first := t.schedNext;
      }
      if first == null {
        last := null;
      }
    }

    method IsEmpty(ghost chain: seq<Thread>) returns (empty: bool)
      requires IsQueue(this, chain)
      ensures empty <==> chain == []
    {
      empty := first == null;
    }
  }

  class Mutex {
    var locker: Thread?
    const waiters: ThreadQueue

    /** `mutex_init` */
    constructor ()
      ensures locker == null && fresh(waiters) && IsQueue(waiters, [])
    {
      locker := null;
      waiters := new ThreadQueue();
    }
  }

  class Port {
    /** The list from `msg_first` to `msg_last`. */
    var messages: seq<M.Message>
    const waiters: ThreadQueue

    /** `ipc_port_create` */
    constructor ()
      ensures messages == [] && fresh(waiters) && IsQueue(waiters, [])
    {
      messages := [];
      waiters := new ThreadQueue();
    }
  }

  /** What becomes of a receiver. */
  datatype Reception = NoPort | Asleep | Received(message: M.Message)

  datatype Handle = MutexAt(m: Mutex) | PortAt(p: Port)

  function QueueOf(h: Handle): ThreadQueue {
    match h
    case MutexAt(m) => m.waiters
    case PortAt(p) => p.waiters
  }

  function BodyOf(h: Handle): object {
    match h
    case MutexAt(m) => m
    case PortAt(p) => p
  }

  ghost function OrNull(t: Option<Thread>): Thread? {
    match t
    case None => null
    case Some(x) => x
  }

  /** The object behind a handle is the object of the machine, but for its history. */
  ghost predicate Matches(h: Handle, b: M.Object<Thread>)
    reads (if h.MutexAt? then {h.m} else {})`locker, (if h.PortAt? then {h.p} else {})`messages
  {
    match h
    case MutexAt(m) => b.Mutex? && m.locker == OrNull(b.locker)
    case PortAt(p) => b.Port? && p.messages == b.messages
  }

  /** The threads, queues, mutexes and ports of a kernel are its own and distinct. */
  ghost predicate Belongs(k: object, repr: set<object>, ready: ThreadQueue, threads: set<Thread>,
      handles: seq<Handle>) {
    && k !in repr && ready in repr && (forall x | x in threads :: x in repr)
    && (forall o :: 0 <= o < |handles| ==>
          QueueOf(handles[o]) in repr && BodyOf(handles[o]) in repr && QueueOf(handles[o]) != ready)
    && (forall o, o2 :: 0 <= o < o2 < |handles| ==>
          QueueOf(handles[o]) != QueueOf(handles[o2]) && BodyOf(handles[o]) != BodyOf(handles[o2]))
  }

  lemma {:induction false} BelongsMore(
      k: object, repr: set<object>, ready: ThreadQueue, threads: set<Thread>, handles: seq<Handle>, h: Handle)
    requires Belongs(k, repr, ready, threads, handles) && QueueOf(h) !in repr && BodyOf(h) !in repr
    requires k != QueueOf(h) && k != BodyOf(h)
    ensures Belongs(k, repr + {QueueOf(h), BodyOf(h)}, ready, threads, handles + [h])
  {
  }

  /** The threads have the phases of the machine. */
  ghost predicate Phases(threads: map<Thread, M.Thread<Thread>>)
    reads threads.Keys`phase
  {
    forall x | x in threads :: x.phase == threads[x].phase
  }

  /** Only threads are in queues and on the processor. */
  ghost predicate Known(s: M.State<Thread>) {
    && (s.current.Some? ==> s.current.value in s.threads)
    && (forall x | x in s.ready :: x in s.threads)
    && (forall o, x | 0 <= o < |s.objects| && x in s.objects[o].waiters :: x in s.threads)
  }

  lemma {:induction false} KnownMore(s: M.State<Thread>, b: M.Object<Thread>)
    requires Known(s) && b.waiters == []
    ensures Known(s.(objects := s.objects + [b]))
  {
  }

  /** No thread is in two queues. */
  ghost predicate Apart(ready: seq<Thread>, objects: seq<M.Object<Thread>>) {
    && (forall o, x | 0 <= o < |objects| && x in objects[o].waiters :: x !in ready)
    && (forall o, o2, x | 0 <= o < |objects| && 0 <= o2 < |objects| && x in objects[o].waiters
         && x in objects[o2].waiters :: o == o2)
  }

  /** The thread is in no queue. */
  ghost predicate Free(s: M.State<Thread>, t: Thread) {
    t in s.threads && t !in s.ready && forall o :: 0 <= o < |s.objects| ==> t !in s.objects[o].waiters
  }

  /** The invariant of the machine gives what the queue operations need. */
  lemma {:induction false} CoreApart(s: M.State<Thread>, loose: set<Thread>)
    requires M.Core(s, loose)
    ensures Known(s) && Apart(s.ready, s.objects)
    ensures forall x | x in loose :: Free(s, x)
    ensures s.current.Some? && s.threads[s.current.value].phase == M.Running ==> Free(s, s.current.value)
  {
    hide M.LookupsOk, M.HeldOk, M.ThreadOk;
    assert forall o :: 0 <= o < |s.objects| ==> M.WaitersOk(s.threads, o, s.objects[o]);
    assert forall x | x in loose :: M.Loose(s, x);
  }

  lemma {:induction false} InvApart(s: M.State<Thread>)
    requires M.Inv(s)
    ensures M.Core(s, {}) && Known(s) && Apart(s.ready, s.objects)
    ensures s.current.Some? ==> s.threads[s.current.value].phase == M.Running && Free(s, s.current.value)
  {
    CoreApart(s, {});
  }

  /** The links that change when a thread joins the waiters of an object belong to no other queue. */
  lemma {:induction false} OnlyHere(s: M.State<Thread>, o: nat, t: Thread)
    requires Apart(s.ready, s.objects) && Free(s, t) && o < |s.objects|
    ensures t in s.threads && t !in s.objects[o].waiters
    ensures forall j :: 0 <= j < |s.ready| ==> s.ready[j] !in LastOf(s.objects[o].waiters) && s.ready[j] != t
    ensures forall o2, j | 0 <= o2 < |s.objects| && o2 != o && 0 <= j < |s.objects[o2].waiters| ::
              s.objects[o2].waiters[j] !in LastOf(s.objects[o].waiters) && s.objects[o2].waiters[j] != t
  {
    assert forall j :: 0 <= j < |s.ready| ==> s.ready[j] in s.ready;
    assert forall o2, j | 0 <= o2 < |s.objects| && 0 <= j < |s.objects[o2].waiters| ::
        s.objects[o2].waiters[j] in s.objects[o2].waiters;
  }

  /** The links that change when a thread joins the ready queue belong to no waiter. */
  lemma {:induction false} OnlyReady(s: M.State<Thread>, t: Thread)
    requires Apart(s.ready, s.objects) && Free(s, t)
    ensures t in s.threads && t !in s.ready
    ensures forall o, j | 0 <= o < |s.objects| && 0 <= j < |s.objects[o].waiters| ::
              s.objects[o].waiters[j] !in LastOf(s.ready) && s.objects[o].waiters[j] != t
  {
    assert forall o, j | 0 <= o < |s.objects| && 0 <= j < |s.objects[o].waiters| ::
        s.objects[o].waiters[j] in s.objects[o].waiters;
  }

  lemma {:induction false} QueueIsDistinct(q: ThreadQueue, chain: seq<Thread>)
    requires IsQueue(q, chain)
    ensures chain != [] ==> chain[0] in chain && chain[0] !in chain[1..]
  {
  }

  /** The states agree on everything that the kernel stores. */
  ghost predicate SameFields(s: M.State<Thread>, d: M.State<Thread>) {
    && d.current == s.current && d.ready == s.ready && d.lookups == s.lookups && d.servers == s.servers
    && d.panicked == s.panicked && d.threads.Keys == s.threads.Keys && |d.objects| == |s.objects|
    && (forall x | x in s.threads :: d.threads[x].phase == s.threads[x].phase)
    && (forall o :: 0 <= o < |s.objects| ==> SameFront(s.objects[o], d.objects[o]))
  }

  ghost predicate SameFront(b: M.Object<Thread>, d: M.Object<Thread>) {
    && b.waiters == d.waiters && b.Mutex? == d.Mutex?
    && if b.Mutex? then b.locker == d.locker else b.messages == d.messages
  }

  function WithWaiters(b: M.Object<Thread>, waiters: seq<Thread>): M.Object<Thread> {
    b.(waiters := waiters)
  }

  lemma {:induction false} Retied(h: Handle, b: M.Object<Thread>, waiters: seq<Thread>)
    requires Matches(h, b)
    ensures Matches(h, WithWaiters(b, waiters)) && WithWaiters(b, waiters).waiters == waiters
  {
  }

  lemma {:induction false} KnownAfter(s: M.State<Thread>, o: nat, waiters: seq<Thread>)
    requires Known(s) && o < |s.objects| && forall x | x in waiters :: x in s.threads
    ensures Known(s.(objects := s.objects[o := WithWaiters(s.objects[o], waiters)]))
  {
  }

  lemma {:induction false} KnownReady(s: M.State<Thread>, ready: seq<Thread>)
    requires Known(s) && forall x | x in ready :: x in s.threads
    ensures Known(s.(ready := ready))
  {
  }

  lemma {:induction false} WaitersKnown(s: M.State<Thread>, o: nat)
    requires Known(s) && o < |s.objects|
    ensures forall x | x in s.objects[o].waiters :: x in s.threads
  {
  }

  /** A new thread is in no queue. */
  lemma {:induction false} StepIsCreate(s: M.State<Thread>, t: Thread)
    requires M.Inv(s) && t !in s.threads
    ensures var d := M.Step(s, M.Create(t));
            d == s.(threads := s.threads[t := M.Thread(M.Created, M.User)]) && M.Inv(d) && Known(d)
  {
    hide M.Inv;
    M.StepKeeps(s, M.Create(t));
    InvApart(M.Step(s, M.Create(t)));
  }

  /** What falling asleep on an object changes in the fields that the kernel stores. */
  lemma {:induction false} BlockFields(s: M.State<Thread>, o: nat, c: Thread)
    requires M.Inv(s) && s.current == Some(c) && c in s.threads && o < |s.objects|
    requires s.threads[c].place == M.User || s.threads[c].place == M.Retry(o)
    ensures var b := s.objects[o];
            var s1 := s.(objects := s.objects[o := WithWaiters(b, b.waiters + [c])]);
            var d := M.Block(s, o, c);
            && SameFields(s1.(threads := s1.threads[c := s1.threads[c].(phase := M.Sleeping)]), d)
            && Apart(d.ready, d.objects) && d.current == Some(c) && c in d.threads && d.threads[c].phase == M.Sleeping
  {
    hide M.Core, Apart, Removed;
    InvApart(s);
    M.BlockKeeps(s, o, c);
    CoreApart(M.Block(s, o, c), {});
  }

  lemma {:induction false} StepIsUnlock(s: M.State<Thread>, o: nat, c: Thread)
    requires s.current == Some(c) && c in s.threads && s.threads[c].place == M.User
    ensures M.Step(s, M.Unlock(o)) == M.UnlockStep(s, o, c)
  {
    hide M.UnlockStep;
  }

  /** What releasing a mutex changes in the fields that the kernel stores. */
  lemma {:induction false} UnlockFields(s: M.State<Thread>, o: nat, c: Thread)
    requires M.Inv(s) && s.current == Some(c) && c in s.threads && s.threads[c].place == M.User
    requires o < |s.objects| && s.objects[o].Mutex?
    ensures var b := s.objects[o].(locker := None);
            var d := M.UnlockStep(s, o, c);
            && d == M.Step(s, M.Unlock(o)) && M.Inv(d) && d.current == Some(c) && c in d.threads
            && d.threads[c].place == (if b.waiters == [] then M.User else M.Waking(b.waiters[0]))
            && SameFields(s.(objects :=
                 s.objects[o := b][o := WithWaiters(b, if b.waiters == [] then b.waiters else b.waiters[1..])]), d)
  {
    hide M.Core, M.Step;
    StepIsUnlock(s, o, c);
    M.UnlockKeeps(s, o, c);
  }

  lemma {:induction false} StepIsReceive(s: M.State<Thread>, o: nat, c: Thread)
    requires s.current == Some(c) && c in s.threads
             && (s.threads[c].place == M.User || s.threads[c].place == M.Retry(o))
    ensures M.Step(s, M.Receive(o)) == M.ReceiveStep(s, o, c)
  {
    hide M.ReceiveStep;
  }

  lemma {:induction false} ReceiveNowhere(s: M.State<Thread>, o: nat, c: Thread)
    requires s.current == Some(c) && c in s.threads
             && (s.threads[c].place == M.User || s.threads[c].place == M.Retry(o))
    requires o >= |s.objects| || !s.objects[o].Port?
    ensures M.Step(s, M.Receive(o)) == s
  {
    StepIsReceive(s, o, c);
    hide M.Step;
  }

  /** What receiving a message changes in the fields that the kernel stores. */
  lemma {:induction false} ReceiveFields(s: M.State<Thread>, o: nat, c: Thread)
    requires M.Inv(s) && s.current == Some(c) && c in s.threads
             && (s.threads[c].place == M.User || s.threads[c].place == M.Retry(o))
    requires o < |s.objects| && s.objects[o].Port?
    ensures var b := s.objects[o];
            var d := M.ReceiveStep(s, o, c);
            && d == M.Step(s, M.Receive(o)) && M.Inv(d)
            && if b.messages == [] then d == M.Next(M.Block(s, o, c))
               else SameFields(s.(objects := s.objects[o := b.(messages := b.messages[1..])]), d)
  {
    hide M.Core, M.Step, M.Next, M.Block, Removed;
    StepIsReceive(s, o, c);
    M.ReceiveKeeps(s, o, c);
  }

  lemma {:induction false} StepIsLock(s: M.State<Thread>, o: nat, c: Thread)
    requires s.current == Some(c) && c in s.threads
             && (s.threads[c].place == M.User || s.threads[c].place == M.Retry(o))
    ensures M.Step(s, M.Lock(o)) == M.LockStep(s, o, c)
  {
    hide M.LockStep;
  }

  /** What a pass of the lock loop changes in the fields that the kernel stores. */
  lemma {:induction false} LockFields(s: M.State<Thread>, o: nat, c: Thread)
    requires M.Inv(s) && s.current == Some(c) && c in s.threads
             && (s.threads[c].place == M.User || s.threads[c].place == M.Retry(o))
    requires o < |s.objects| && s.objects[o].Mutex?
    ensures var b := s.objects[o];
            var d := M.LockStep(s, o, c);
            && d == M.Step(s, M.Lock(o)) && M.Inv(d)
            && if b.locker.Some? then d == M.Next(M.Block(s, o, c))
               else SameFields(s.(objects := s.objects[o := b.(locker := Some(c))]), d)
  {
    hide M.Core, M.Step, M.Next, M.Block, Removed;
    StepIsLock(s, o, c);
    M.LockKeeps(s, o, c);
  }

  /** What sending a message changes in the fields that the kernel stores, up to the wake-up. */
  lemma {:induction false} SendFields(s: M.State<Thread>, o: nat, message: M.Message)
    requires M.Inv(s) && o < |s.objects| && s.objects[o].Port?
    ensures var b := s.objects[o].(messages := s.objects[o].messages + [message]);
            var s1 := Sent(s, o, message);
            var d := M.Step(s, M.Send(o, message, true));
            && M.Inv(d)
            && SameFields(s.(objects :=
                 s.objects[o := b][o := WithWaiters(b, if b.waiters == [] then b.waiters else b.waiters[1..])]), s1)
            && if b.waiters == [] then d == s1
               else d == M.AddReady(s1, b.waiters[0]) && Free(s1, b.waiters[0]) && Apart(s1.ready, s1.objects)
  {
    hide M.Core, Apart, Free;
    M.SendKeeps(s, o, message, true);
    var b := s.objects[o];
    if b.waiters != [] {
      M.PopKeeps(s, o, Sent(s, o, message).objects[o]);
      CoreApart(Sent(s, o, message), {b.waiters[0]});
    }
  }

  /** The message is queued and the first waiter off the list. */
  ghost function Sent(s: M.State<Thread>, o: nat, message: M.Message): M.State<Thread>
    requires o < |s.objects| && s.objects[o].Port?
  {
    var b := s.objects[o];
    s.(objects := s.objects[o := M.Popped(b.(messages := b.messages + [message], sent := b.sent + [message]))])
  }

  // The list walk of a registration, one waiter at a time.

  lemma {:induction false} WakeAllSnoc(s: M.State<Thread>, l: seq<Thread>, t: Thread)
    ensures M.WakeAll(s, l + [t]) == M.AddReady(M.WakeAll(s, l), t)
    decreases |l|
  {
    if l == [] {
      assert l + [t] == [t] && [t][1..] == [];
      assert M.WakeAll(M.AddReady(s, t), []) == M.AddReady(s, t);
    } else {
      assert (l + [t])[0] == l[0] && (l + [t])[1..] == l[1..] + [t];
      WakeAllSnoc(M.AddReady(s, l[0]), l[1..], t);
    }
  }

  lemma {:induction false} WakeAllLookups(s: M.State<Thread>, l: seq<Thread>, lookups: seq<M.Waiter<Thread>>)
    ensures M.WakeAll(s.(lookups := lookups), l) == M.WakeAll(s, l).(lookups := lookups)
    decreases |l|
  {
    if l != [] {
      assert M.AddReady(s.(lookups := lookups), l[0]) == M.AddReady(s, l[0]).(lookups := lookups);
      WakeAllLookups(M.AddReady(s, l[0]), l[1..], lookups);
    }
  }

  lemma {:induction false} WakeAllFrame(s: M.State<Thread>, l: seq<Thread>)
    requires forall t | t in l :: t in s.threads
    ensures var d := M.WakeAll(s, l);
            && d.ready == s.ready + l && d.objects == s.objects && d.threads.Keys == s.threads.Keys
                 && d.lookups == s.lookups
    decreases |l|
  {
    if l != [] {
      assert l == [l[0]] + l[1..];
      WakeAllFrame(M.AddReady(s, l[0]), l[1..]);
      assert s.ready + [l[0]] + l[1..] == s.ready + l;
    }
  }

  lemma {:induction false} WalkSnoc(l: seq<M.Waiter<Thread>>, w: M.Waiter<Thread>, name: string)
    ensures M.Kept(l + [w], name) == M.Kept(l, name) + if w.name == name then [] else [w]
    ensures M.Matching(l + [w], name) == M.Matching(l, name) + if w.name == name then [w.thread] else []
    decreases |l|
  {
    if l == [] {
      assert l + [w] == [w] && [w][1..] == [];
    } else {
      assert (l + [w])[0] == l[0] && (l + [w])[1..] == l[1..] + [w];
      WalkSnoc(l[1..], w, name);
    }
  }

  lemma {:induction false} MatchingFrom(l: seq<M.Waiter<Thread>>, name: string)
    ensures forall t | t in M.Matching(l, name) :: exists i :: 0 <= i < |l| && l[i].thread == t
  {
    if l != [] {
      MatchingFrom(l[1..], name);
      assert forall i :: 0 <= i < |l[1..]| ==> l[1..][i] == l[i + 1];
    }
  }

  /** A waiter of the registry sleeps in a lookup, so it is in no queue. */
  lemma {:induction false} LookerIsFree(s: M.State<Thread>, i: nat)
    requires M.Inv(s) && i < |s.lookups|
    ensures Free(s, s.lookups[i].thread)
    ensures forall j :: 0 <= j < i ==> s.lookups[j].thread != s.lookups[i].thread
  {
    assert M.LookupOk(s.threads, s.lookups[i]);
    forall o | 0 <= o < |s.objects|
      ensures s.lookups[i].thread !in s.objects[o].waiters
    {
      assert M.WaitersOk(s.threads, o, s.objects[o]);
    }
  }

  /** The state in the middle of the walk: the first `i` waiters are dealt with. */
  ghost function Walked(s: M.State<Thread>, name: string, i: nat): M.State<Thread>
    requires i <= |s.lookups|
  {
    M.WakeAll(s.(lookups := M.Kept(s.lookups[..i], name) + s.lookups[i..]), M.Matching(s.lookups[..i], name))
  }

  /** In the middle of the walk the next waiter can be made ready. */
  lemma {:induction false} WalkedKeeps(s: M.State<Thread>, s0: M.State<Thread>, name: string, i: nat,
      l2: seq<M.Waiter<Thread>>)
    requires M.Inv(s0) && s == s0.(servers := s.servers) && i <= |s.lookups|
    ensures var d := Walked(s, name, i);
            Apart(d.ready, d.objects) && (i < |s.lookups| ==> Free(d.(lookups := l2), s.lookups[i].thread))
  {
    hide M.Inv, M.WakeAll, M.Kept;
    InvApart(s0);
    var l := M.Matching(s.lookups[..i], name);
    MatchingFrom(s.lookups[..i], name);
    forall t | t in l
      ensures Free(s0, t) && (i < |s.lookups| ==> t != s.lookups[i].thread)
    {
      var j :| 0 <= j < i && s.lookups[..i][j].thread == t;
      LookerIsFree(s0, j);
      if i < |s.lookups| {
        LookerIsFree(s0, i);
      }
    }
    WakeAllFrame(s.(lookups := M.Kept(s.lookups[..i], name) + s.lookups[i..]), l);
    if i < |s.lookups| {
      LookerIsFree(s0, i);
    }
  }

  /** One step of the walk. */
  lemma {:induction false} WalkedNext(s: M.State<Thread>, name: string, i: nat)
    requires i < |s.lookups|
    ensures var w := s.lookups[i];
            var lookups := M.Kept(s.lookups[..i + 1], name) + s.lookups[i + 1..];
            && Walked(s, name, i + 1) ==
               (if w.name == name then M.AddReady(Walked(s, name, i).(lookups := lookups), w.thread)
                 else Walked(s, name, i))
            && (w.name != name ==> lookups == M.Kept(s.lookups[..i], name) + s.lookups[i..])
  {
    hide M.WakeAll, M.Kept, M.Matching;
    var w := s.lookups[i];
    assert s.lookups[..i + 1] == s.lookups[..i] + [w] && s.lookups[i..] == [w] + s.lookups[i + 1..];
    WalkSnoc(s.lookups[..i], w, name);
    var kept := M.Kept(s.lookups[..i], name);
    var l := M.Matching(s.lookups[..i], name);
    var lookups := M.Kept(s.lookups[..i + 1], name) + s.lookups[i + 1..];
    if w.name == name {
      WakeAllSnoc(s.(lookups := lookups), l, w.thread);
      WakeAllLookups(s, l, lookups);
      WakeAllLookups(s, l, kept + s.lookups[i..]);
    } else {
      assert kept + [w] + s.lookups[i + 1..] == kept + s.lookups[i..];
      assert l + [] == l;
    }
  }

  /** The walk computes what the registration step of the machine does. */
  lemma {:induction false} RegisterIsWalk(s0: M.State<Thread>, name: string, port: int, memory: bool)
    requires s0.current.Some? && s0.current.value in s0.threads && s0.threads[s0.current.value].place == M.User
    ensures M.Kept(s0.lookups[..0], name) == []
    ensures !memory ==> M.Step(s0, M.Register(name, port, memory)) == s0
    ensures memory ==>
              var s := s0.(servers := s0.servers[M.Stored(name) := port]);
              M.Step(s0, M.Register(name, port, memory)) == Walked(s, name, |s.lookups|) && Walked(s, name, 0) == s
  {
    var l := s0.lookups;
    assert l[..|l|] == l && l[|l|..] == [] && l[..0] == [] && l[0..] == l;
    assert M.Kept(l, name) + [] == M.Kept(l, name);
    assert M.Kept<Thread>([], name) + l == l;
  }

  lemma {:induction false} StepIsLookup(s: M.State<Thread>, name: string, wait: bool, memory: bool, c: Thread)
    requires s.current == Some(c) && c in s.threads
    requires s.threads[c].place == M.User || (s.threads[c].place == M.LookupRetry(name) && wait)
    ensures M.Step(s, M.Lookup(name, wait, memory)) == M.LookupStep(s, name, wait, memory, c)
  {
    hide M.LookupStep;
  }

  /** The current thread listed in the registry, and asleep. */
  ghost function Listed(s: M.State<Thread>, name: string, c: Thread): M.State<Thread> {
    s.(lookups := [M.Waiter(M.Stored(name), c)] + s.lookups,
       threads := s.threads[c := M.Thread(M.Sleeping, M.LookupRetry(name))])
  }

  /** What a pass of the lookup loop changes in the fields that the kernel stores. */
  lemma {:induction false} LookupFields(s: M.State<Thread>, name: string, wait: bool, memory: bool, c: Thread)
    requires M.Inv(s) && s.current == Some(c) && c in s.threads
    requires s.threads[c].place == M.User || (s.threads[c].place == M.LookupRetry(name) && wait)
    ensures var d := M.LookupStep(s, name, wait, memory, c);
            && d == M.Step(s, M.Lookup(name, wait, memory)) && M.Inv(d)
            && if name in s.servers || !wait || !memory then SameFields(s, d)
               else
                 var s1 := s.(lookups := [M.Waiter(M.Stored(name), c)] + s.lookups);
                 && d == M.Next(Listed(s, name, c)) && Apart(Listed(s, name, c).ready, Listed(s, name, c).objects)
                 && SameFields(s1.(threads := s1.threads[c := s1.threads[c].(phase := M.Sleeping)]), Listed(s, name, c))
  {
    hide M.Core, M.Step, M.Next, Apart;
    StepIsLookup(s, name, wait, memory, c);
    M.LookupKeeps(s, name, wait, memory, c);
    InvApart(s);
  }

  lemma {:induction false} MatchesMutex(m: Mutex)
    requires m.locker == null
    ensures Matches(MutexAt(m), M.Mutex([], [], None, {}))
  {
  }

  lemma {:induction false} MatchesPort(p: Port)
    requires p.messages == []
    ensures Matches(PortAt(p), M.Port([], [], [], [], []))
  {
  }

  class Kernel {
    /** The thread on the processor; null while the idle thread runs. */
    var current: Thread?
    const ready: ThreadQueue
    var handles: seq<Handle>
    var lookups: seq<M.Waiter<Thread>>
    var servers: map<string, int>
    var panicked: bool
    /** The state of the machine that the fields and threads represent. */
    ghost var abs: M.State<Thread>

    /** The threads, queues, mutexes and ports. */
    ghost var repr: set<object>

    /** What the kernel's own fields say, and what belongs to it. */
    ghost predicate Owned()
      reads this
    {
      && Belongs(this, repr, ready, abs.threads.Keys, handles) && Known(abs) && |handles| == |abs.objects|
      && current == OrNull(abs.current) && lookups == abs.lookups && servers == abs.servers && panicked == abs.panicked
    }

    /** The threads, queues and objects are those of the machine. */
    ghost predicate Tied()
      requires Owned()
      reads this, repr
    {
      && Phases(abs.threads) && IsQueue(ready, abs.ready)
      && (forall o :: 0 <= o < |handles| ==> Matches(handles[o], abs.objects[o]))
      && (forall o :: 0 <= o < |handles| ==> IsQueue(QueueOf(handles[o]), abs.objects[o].waiters))
    }

    ghost predicate Valid()
      reads this, repr
    {
      Owned() && Tied()
    }

    constructor ()
      ensures Valid() && abs == M.Boot() && fresh(repr)
    {
      current, handles, lookups, servers, panicked, abs := null, [], [], map[], false, M.Boot();
      ready := new ThreadQueue();
      repr := {ready};
    }

    /** What the fields say of the machine. */
    lemma {:induction false} Mirrors()
      requires Valid()
      ensures current == OrNull(abs.current) && lookups == abs.lookups && servers == abs.servers
              && |handles| == |abs.objects|
      ensures forall x | x in abs.threads :: x in repr && x.phase == abs.threads[x].phase
      ensures this !in repr
    {
    }

    lemma {:induction false} BelongsThread(t: Thread)
      requires Owned() && t in abs.threads
      ensures t in repr
    {
    }

    /** The ready queue is the kernel's own and none of the others. */
    lemma {:induction false} ReadyBelongs()
      requires Owned()
      ensures ready in repr && forall o :: 0 <= o < |handles| ==> QueueOf(handles[o]) != ready
      ensures LastOf(abs.ready) <= abs.threads.Keys && forall x | x in LastOf(abs.ready) :: x in repr
    {
    }

    /** The queue of an object is the kernel's own and none of the others. */
    lemma {:induction false} QueueBelongs(o: nat)
      requires Owned() && o < |handles|
      ensures QueueOf(handles[o]) in repr && QueueOf(handles[o]) != ready && BodyOf(handles[o]) in repr
      ensures forall o2 :: 0 <= o2 < |handles| && o2 != o ==> QueueOf(handles[o2]) != QueueOf(handles[o])
      ensures forall o2 :: 0 <= o2 < |handles| && o2 != o ==> BodyOf(handles[o2]) != BodyOf(handles[o])
      ensures forall x | x in abs.objects[o].waiters :: x in repr
      ensures forall x | x in LastOf(abs.objects[o].waiters) :: x in repr
    {
    }

    /** Sets the state of a thread. */
    method SetPhase(t: Thread, phase: M.Phase)
      requires Valid() && t in abs.threads
      modifies this`abs, t`phase
      ensures Valid() && abs == old(abs).(threads := old(abs).threads[t := old(abs).threads[t].(phase := phase)])
    {
      hide IsQueue, Matches, Belongs, QueueOf, BodyOf;
      BelongsThread(t);
      t.phase := phase;
      abs := abs.(threads := abs.threads[t := abs.threads[t].(phase := phase)]);
      assert abs.threads.Keys == old(abs).threads.Keys;
    }

    method Enqueue(t: Thread)
      requires Valid() && Apart(abs.ready, abs.objects) && Free(abs, t)
      modifies this`abs, repr
      ensures Valid() && abs == old(abs).(ready := old(abs).ready + [t])
    {
      hide IsQueue, Matches, Belongs, LastOf, Apart, Free;
      OnlyReady(abs, t);
      BelongsThread(t);
      KnownReady(abs, abs.ready + [t]);
      ReadyBelongs();
      ready.Add(t, abs.ready);
      abs := abs.(ready := abs.ready + [t]);
    }

    method Dequeue() returns (t: Thread?)
      requires Valid()
      modifies this`abs, repr
      ensures Valid() && t == Nth(old(abs).ready, 0)
      ensures abs == if t == null then old(abs) else old(abs).(ready := old(abs).ready[1..])
      ensures t != null ==> t !in abs.ready
    {
      hide IsQueue, Matches, Belongs;
      QueueIsDistinct(ready, abs.ready);
      ReadyBelongs();
      t := ready.Pop(abs.ready);
      if t != null {
        abs := abs.(ready := abs.ready[1..]);
      }
    }

    /** `sched_add_ready` */
    method AddReady(t: Thread)
      requires Valid() && Apart(abs.ready, abs.objects) && Free(abs, t)
      modifies this`abs, repr
      ensures Valid() && abs == M.AddReady(old(abs), t) && Apart(abs.ready, abs.objects)
    {
      hide IsQueue, Matches;
      SetPhase(t, M.Ready);
      Enqueue(t);
    }

    lemma {:induction false} HeadIsThread()
      requires Valid()
      ensures abs.ready != [] ==> abs.ready[0] in abs.threads && abs.ready[0] in repr
    {
      assert abs.ready != [] ==> abs.ready[0] in abs.ready;
    }

    method SetCurrent(t: Option<Thread>)
      requires Valid() && (t.Some? ==> t.value in abs.threads)
      modifies this`abs, this`current
      ensures Valid() && abs == old(abs).(current := t)
    {
      hide IsQueue, Matches;
      match t {
        case None => current := null;
        case Some(x) => current := x;
      }
      abs := abs.(current := t);
    }

    /** The second half of `sched_next`. */
    method Dispatch()
      requires Valid() && Apart(abs.ready, abs.objects)
      modifies this`abs, this`current, repr
      ensures Valid() && abs == M.Dispatch(old(abs))
    {
      hide IsQueue, Matches, Apart, Known, Owned, Tied;
      HeadIsThread();
      var next := Dequeue();
      if next == null {
        SetCurrent(None);
      } else {
        SetPhase(next, M.Running);
        SetCurrent(Some(next));
      }
    }

    /** `sched_next` */
    method Next()
      requires Valid() && Apart(abs.ready, abs.objects)
               && (current != null && current.phase == M.Running ==> Free(abs, current))
      modifies this`abs, this`current, this`panicked, repr
      ensures Valid() && abs == M.Next(old(abs))
    {
      hide IsQueue, Matches, Apart, Free;
      if current != null {
        if current.phase == M.Running {
          AddReady(current);
        } else if current.phase != M.Sleeping && current.phase != M.Dead {
          panicked := true;
          abs := abs.(panicked := true);
        }
      }
      Dispatch();
    }

    /** The links of a thread that joins the waiters of an object; the machine follows in `EnqueueWaiter`. */
    method Link(o: nat, t: Thread)
      requires Valid() && Apart(abs.ready, abs.objects) && Free(abs, t) && o < |handles|
      modifies repr
      ensures Owned() && Phases(abs.threads) && IsQueue(ready, abs.ready)
      ensures IsQueue(QueueOf(handles[o]), abs.objects[o].waiters + [t])
      ensures forall o2 :: 0 <= o2 < |handles| && o2 != o ==> IsQueue(QueueOf(handles[o2]), abs.objects[o2].waiters)
      ensures forall o2 :: 0 <= o2 < |handles| ==> Matches(handles[o2], abs.objects[o2])
    {
      hide IsQueue, Matches, Apart, Free, LastOf, Known, BodyOf, Belongs;
      Mirrors();
      QueueBelongs(o);
      OnlyHere(abs, o, t);
      BelongsThread(t);
      QueueOf(handles[o]).Add(t, abs.objects[o].waiters);
    }

    method EnqueueWaiter(o: nat, t: Thread)
      requires Valid() && Apart(abs.ready, abs.objects) && Free(abs, t) && o < |handles|
      modifies this`abs, repr
      ensures Valid()
      ensures var b := old(abs).objects[o];
              abs == old(abs).(objects := old(abs).objects[o := WithWaiters(b, b.waiters + [t])])
    {
      hide IsQueue, Matches, Apart, LastOf, WithWaiters, Known, QueueOf, BodyOf, Belongs, Phases;
      Mirrors();
      ghost var b := abs.objects[o];
      WaitersKnown(abs, o);
      KnownAfter(abs, o, b.waiters + [t]);
      Link(o, t);
      Retied(handles[o], b, b.waiters + [t]);
      abs := abs.(objects := abs.objects[o := WithWaiters(b, b.waiters + [t])]);
    }

    method DequeueWaiter(o: nat) returns (t: Thread?)
      requires Valid() && Apart(abs.ready, abs.objects) && o < |handles|
      modifies this`abs, repr
      ensures Valid() && t == Nth(old(abs).objects[o].waiters, 0)
      ensures var b := old(abs).objects[o];
              abs == old(abs).(objects :=
                old(abs).objects[o := WithWaiters(b, if b.waiters == [] then b.waiters else b.waiters[1..])])
    {
      hide IsQueue, Matches, WithWaiters, Known, BodyOf, Belongs;
      QueueBelongs(o);
      ghost var b := abs.objects[o];
      WaitersKnown(abs, o);
      KnownAfter(abs, o, if b.waiters == [] then b.waiters else b.waiters[1..]);
      Retied(handles[o], b, if b.waiters == [] then b.waiters else b.waiters[1..]);
      t := QueueOf(handles[o]).Pop(b.waiters);
      abs := abs.(objects := abs.objects[o := WithWaiters(b, if b.waiters == [] then b.waiters else b.waiters[1..])]);
    }

    method SetLocker(o: nat, locker: Option<Thread>)
      requires Valid() && o < |handles| && handles[o].MutexAt?
      modifies this`abs, repr
      ensures Valid()
      ensures abs == old(abs).(objects := old(abs).objects[o := old(abs).objects[o].(locker := locker)])
      ensures old(Apart(abs.ready, abs.objects)) ==> Apart(abs.ready, abs.objects)
    {
      hide IsQueue, Belongs, Phases, QueueOf;
      QueueBelongs(o);
      match locker {
        case None => handles[o].m.locker := null;
        case Some(t) => handles[o].m.locker := t;
      }
      abs := abs.(objects := abs.objects[o := abs.objects[o].(locker := locker)]);
    }

    method SetMessages(o: nat, messages: seq<M.Message>)
      requires Valid() && o < |handles| && handles[o].PortAt?
      modifies this`abs, repr
      ensures Valid()
      ensures abs == old(abs).(objects := old(abs).objects[o := old(abs).objects[o].(messages := messages)])
      ensures old(Apart(abs.ready, abs.objects)) ==> Apart(abs.ready, abs.objects)
    {
      hide IsQueue, Belongs, Phases, QueueOf;
      QueueBelongs(o);
      handles[o].p.messages := messages;
      abs := abs.(objects := abs.objects[o := abs.objects[o].(messages := messages)]);
    }

    /** Keeps up what the kernel does not store: the history of the objects and the places of the threads. */
    ghost method Adopt(s: M.State<Thread>)
      requires Valid() && SameFields(abs, s)
      modifies this`abs
      ensures Valid() && abs == s
    {
      hide IsQueue;
      abs := s;
    }

    /** Falling asleep on an object: the current thread joins its waiters, and `thread_sleep` enters the scheduler. */
    method Block(o: nat)
      requires Valid() && M.Inv(abs) && current != null && o < |handles|
      requires var place := abs.threads[current].place; place == M.User || place == M.Retry(o)
      modifies this`abs, this`current, this`panicked, repr
      ensures Valid() && abs == M.Next(M.Block(old(abs), o, old(current)))
    {
      hide IsQueue, Matches, M.Inv, M.Core, M.Next, Apart, Free, Owned, Tied, SameFields, WithWaiters;
      Mirrors();
      InvApart(abs);
      var c: Thread := current;
      BlockFields(abs, o, c);
      ghost var d := M.Block(abs, o, c);
      hide M.Block;
      EnqueueWaiter(o, c);
      SetPhase(c, M.Sleeping);
      Adopt(d);
      Mirrors();
      Next();
    }

    lemma {:induction false} Front(o: nat)
      requires Valid() && o < |handles|
      ensures handles[o].MutexAt? <==> abs.objects[o].Mutex?
      ensures handles[o].MutexAt? ==> handles[o].m.locker == OrNull(abs.objects[o].locker)
      ensures handles[o].PortAt? ==> handles[o].p.messages == abs.objects[o].messages
    {
      assert Matches(handles[o], abs.objects[o]);
    }

    /** One pass of the loop of `mutex_lock`; afterwards the thread has the mutex or sleeps. */
    method LockPass(o: nat)
      requires Valid() && M.Inv(abs) && current != null && o < |handles| && handles[o].MutexAt?
      requires var place := abs.threads[current].place; place == M.User || place == M.Retry(o)
      modifies this`abs, this`current, this`panicked, repr
      ensures Valid() && M.Inv(abs) && abs == M.Step(old(abs), M.Lock(o))
    {
      hide IsQueue, Matches, M.Inv, M.Core, Apart, Free, M.Step, M.LockStep, SameFields, Owned, Tied;
      Mirrors();
      var c: Thread := current;
      InvApart(abs);
      Front(o);
      LockFields(abs, o, c);
      ghost var d := M.LockStep(abs, o, c);
      if handles[o].m.locker != null {
        Block(o);
      } else {
        SetLocker(o, Some(c));
        Adopt(d);
      }
    }

    /** `mutex_unlock` up to the wake-up of the first waiter, which is returned. Nobody asks who holds the mutex. */
    method UnlockPop(o: nat) returns (t: Thread?)
      requires Valid() && M.Inv(abs) && current != null && o < |handles| && handles[o].MutexAt?
      requires abs.threads[current].place == M.User
      modifies this`abs, this`current, this`panicked, repr
      ensures Valid() && M.Inv(abs) && abs == M.Step(old(abs), M.Unlock(o)) && current == old(current)
      ensures t == null <==> old(abs).objects[o].waiters == []
      ensures t != null ==> t == old(abs).objects[o].waiters[0]
      ensures t == null ==> abs.threads[current].place == M.User
      ensures t != null ==> abs.threads[current].place.Waking? && abs.threads[current].place.sleeper == t
    {
      hide IsQueue, Matches, M.Inv, M.Core, Apart, Free, M.Step, M.UnlockStep, SameFields, Owned, Tied;
      Mirrors();
      var c: Thread := current;
      InvApart(abs);
      Front(o);
      UnlockFields(abs, o, c);
      ghost var d := M.UnlockStep(abs, o, c);
      SetLocker(o, None);
      t := DequeueWaiter(o);
      Adopt(d);
    }

    /** The wake-up that ends `mutex_unlock`. */
    method WakeUp(t: Thread)
      requires Valid() && M.Inv(abs) && current != null && abs.threads[current].place == M.Waking(t)
      modifies this`abs, this`current, this`panicked, repr
      ensures Valid() && M.Inv(abs) && abs == M.Step(old(abs), M.WakeUp)
    {
      hide IsQueue, Matches, M.Inv, M.Core, Apart, Free, Owned, Tied;
      Mirrors();
      M.StepKeeps(abs, M.WakeUp);
      InvApart(abs);
      ghost var c: Thread := current;
      ghost var s := abs.(threads := abs.threads[c := M.Thread(M.Running, M.User)]);
      M.LetGoKeeps(abs, c, t);
      CoreApart(s, {t});
      Adopt(s);
      AddReady(t);
    }

    /** `ipc_port_send`, from a thread or an interrupt handler; `memory` tells whether a message could be allocated. */
    method Send(o: nat, message: M.Message, memory: bool) returns (ok: bool)
      requires Valid() && M.Inv(abs)
      modifies this`abs, this`current, this`panicked, repr
      ensures Valid() && M.Inv(abs) && abs == M.Step(old(abs), M.Send(o, message, memory))
      ensures ok <==> o < |handles| && handles[o].PortAt? && memory
    {
      hide IsQueue, Matches, M.Inv, M.Core, Apart, Free, SameFields, Sent, Owned, Tied;
      Mirrors();
      InvApart(abs);
      if o < |handles| {
        Front(o);
      }
      if o >= |handles| || !handles[o].PortAt? || !memory {
        return false;
      }
      hide M.Step;
      SendFields(abs, o, message);
      ghost var s := Sent(abs, o, message);
      SetMessages(o, handles[o].p.messages + [message]);
      var t := DequeueWaiter(o);
      Adopt(s);
      if t != null {
        AddReady(t);
      }
      ok := true;
    }

    /** `sys_ipc_port_receive` up to the next sleep: an error without such a port, or else a pass of the loop. */
    method ReceivePass(o: nat) returns (r: Reception)
      requires Valid() && M.Inv(abs) && current != null
      requires var place := abs.threads[current].place; place == M.User || place == M.Retry(o)
      modifies this`abs, this`current, this`panicked, repr
      ensures Valid() && M.Inv(abs) && abs == M.Step(old(abs), M.Receive(o))
      ensures r == NoPort <==> o >= |old(abs).objects| || !old(abs).objects[o].Port?
      ensures r == NoPort ==> abs == old(abs)
      ensures r != NoPort ==>
                var queued := old(abs).objects[o].messages;
                r == if queued == [] then Asleep else Received(queued[0])
    {
      hide IsQueue, Matches, M.Inv, M.Core, Apart, Free, M.Step, M.ReceiveStep, SameFields, Owned, Tied;
      Mirrors();
      var c: Thread := current;
      InvApart(abs);
      if o < |handles| {
        Front(o);
      }
      if o >= |handles| || !handles[o].PortAt? {
        ReceiveNowhere(abs, o, c);
        return NoPort;
      }
      ReceiveFields(abs, o, c);
      ghost var d := M.ReceiveStep(abs, o, c);
      var queued := handles[o].p.messages;
      if queued == [] {
        Block(o);
        r := Asleep;
      } else {
        SetMessages(o, queued[1..]);
        Adopt(d);
        r := Received(queued[0]);
      }
    }

    /** The timer interrupt. */
    method Preempt()
      requires Valid() && M.Inv(abs)
      modifies this`abs, this`current, this`panicked, repr
      ensures Valid() && M.Inv(abs) && abs == M.Step(old(abs), M.Preempt)
      ensures current == null ==> abs.ready == []
      ensures old(abs).ready == [] ==> current == old(current)
      ensures old(abs).ready != [] ==> current == old(abs).ready[0]
    {
      hide IsQueue, Matches, M.Inv, M.Core, Apart, Free, Owned, Tied;
      Mirrors();
      G.ReadyMoves(abs, M.Preempt);
      M.StepKeeps(abs, M.Preempt);
      InvApart(abs);
      Next();
      Mirrors();
    }

    /** A thread that was created is started. */
    method Start(t: Thread)
      requires Valid() && M.Inv(abs) && t in abs.threads && t.phase == M.Created
      modifies this`abs, this`current, this`panicked, repr
      ensures Valid() && M.Inv(abs) && abs == M.Step(old(abs), M.Start(t))
    {
      hide IsQueue, Matches, M.Inv, M.Core, Apart, Free, Owned, Tied;
      Mirrors();
      M.StepKeeps(abs, M.Start(t));
      InvApart(abs);
      M.CreatedIsLoose(abs, t);
      CoreApart(abs, {t});
      AddReady(t);
    }

    method SetLookups(l: seq<M.Waiter<Thread>>)
      requires Valid()
      modifies this`abs, this`lookups
      ensures Valid() && abs == old(abs).(lookups := l)
    {
      hide IsQueue, Matches;
      lookups := l;
      abs := abs.(lookups := l);
    }

    method SetServer(name: string, port: int)
      requires Valid()
      modifies this`abs, this`servers
      ensures Valid() && abs == old(abs).(servers := old(abs).servers[name := port])
    {
      hide IsQueue, Matches, Belongs, Phases;
      servers := servers[name := port];
      abs := abs.(servers := abs.servers[name := port]);
    }

    /**
     * `sys_ipc_server_register`: records the server and wakes up every waiter listed under the name, walking the
     * list once; `memory` tells whether an entry could be allocated.
     */
    method Register(name: string, port: int, memory: bool) returns (ok: bool)
      requires Valid() && M.Inv(abs) && current != null && abs.threads[current].place == M.User
      modifies this, repr
      ensures Valid() && M.Inv(abs) && abs == M.Step(old(abs), M.Register(name, port, memory)) && ok == memory
    {
      hide IsQueue, Matches, M.Inv, M.Core, Apart, Free, M.RegisterStep, M.WakeAll, M.Kept, M.Matching, Walked,
        Owned, Tied;
      Mirrors();
      M.StepKeeps(abs, M.Register(name, port, memory));
      InvApart(abs);
      if !memory {
        RegisterIsWalk(abs, name, port, memory);
        return false;
      }
      ghost var s0 := abs;
      ghost var s := abs.(servers := abs.servers[M.Stored(name) := port]);
      SetServer(M.Stored(name), port);
      var waiters := lookups;
      RegisterIsWalk(s0, name, port, memory);
      var kept := [];
      for i := 0 to |waiters|
        invariant Valid() && repr == old(repr) && waiters == s.lookups
        invariant kept == M.Kept(waiters[..i], name) && abs == Walked(s, name, i)
      {
        WalkedKeeps(s, s0, name, i, kept + waiters[i + 1..]);
        WalkedNext(s, name, i);
        assert waiters[..i + 1] == waiters[..i] + [waiters[i]];
        WalkSnoc(waiters[..i], waiters[i], name);
        Mirrors();
        if waiters[i].name == name {
          SetLookups(kept + waiters[i + 1..]);
          AddReady(waiters[i].thread);
        } else {
          kept := kept + [waiters[i]];
        }
      }
      ok := true;
    }

    /** One pass of the loop of `sys_ipc_server_lookup`; `asleep` when the thread waits for the server. */
    method LookupPass(name: string, wait: bool, memory: bool) returns (port: Option<int>, asleep: bool)
      requires Valid() && M.Inv(abs) && current != null
      requires var place := abs.threads[current].place; place == M.User || (place == M.LookupRetry(name) && wait)
      modifies this, repr
      ensures Valid() && M.Inv(abs) && abs == M.Step(old(abs), M.Lookup(name, wait, memory))
      ensures port == if name in old(abs).servers then Some(old(abs).servers[name]) else None
      ensures asleep <==> name !in old(abs).servers && wait && memory
    {
      hide IsQueue, Matches, M.Inv, M.Core, Apart, Free, M.Step, M.LookupStep, SameFields, M.Stored, Owned, Tied;
      Mirrors();
      var c: Thread := current;
      InvApart(abs);
      LookupFields(abs, name, wait, memory, c);
      ghost var d := M.LookupStep(abs, name, wait, memory, c);
      ghost var listed := Listed(abs, name, c);
      port := if name in servers then Some(servers[name]) else None;
      if port.Some? || !wait || !memory {
        Adopt(d);
        asleep := false;
      } else {
        SetLookups([M.Waiter(M.Stored(name), c)] + lookups);
        SetPhase(c, M.Sleeping);
        Adopt(listed);
        Mirrors();
        Next();
        asleep := true;
      }
    }

    /** `thread_create`; `memory` tells whether its page, its record and its context could be allocated. */
    method CreateThread(memory: bool) returns (t: Thread?)
      requires Valid() && M.Inv(abs)
      modifies this
      ensures Valid() && M.Inv(abs) && (t == null <==> !memory)
      ensures t == null ==> abs == old(abs) && repr == old(repr)
      ensures t != null ==> fresh(t) && abs == M.Step(old(abs), M.Create(t)) && repr == old(repr) + {t}
    {
      hide IsQueue, Matches, M.Inv, M.Step;
      if !memory {
        return null;
      }
      var n := new Thread();
      t := n;
      assert n !in abs.threads;
      StepIsCreate(abs, n);
      repr := repr + {n};
      abs := abs.(threads := abs.threads[n := M.Thread(M.Created, M.User)]);
    }

    method Install(h: Handle, ghost b: M.Object<Thread>)
      requires Valid() && Matches(h, b) && b.waiters == [] && IsQueue(QueueOf(h), [])
      requires QueueOf(h) !in repr && BodyOf(h) !in repr && BodyOf(h) != this
      modifies this`handles, this`repr, this`abs
      ensures Valid() && handles == old(handles) + [h] && repr == old(repr) + {QueueOf(h), BodyOf(h)}
      ensures abs == old(abs).(objects := old(abs).objects + [b])
    {
      hide IsQueue, Matches, Phases, Belongs, Known;
      BelongsMore(this, repr, ready, abs.threads.Keys, handles, h);
      KnownMore(abs, b);
      ghost var s := abs.(objects := abs.objects + [b]);
      var l := handles + [h];
      assert forall o :: 0 <= o < |l| ==> Matches(l[o], s.objects[o]) && IsQueue(QueueOf(l[o]), s.objects[o].waiters);
      handles, repr, abs := l, repr + {QueueOf(h), BodyOf(h)}, s;
    }

    method NewMutex() returns (o: nat)
      requires Valid() && M.Inv(abs)
      modifies this
      ensures Valid() && M.Inv(abs) && abs == M.Step(old(abs), M.NewMutex)
      ensures o == |old(handles)| < |handles| && handles[o].MutexAt? && fresh(repr - old(repr))
    {
      hide IsQueue, Matches, M.Inv;
      M.StepKeeps(abs, M.NewMutex);
      InvApart(abs);
      o := |handles|;
      var m := new Mutex();
      assert Matches(MutexAt(m), M.Mutex([], [], None, {})) by { MatchesMutex(m); }
      Install(MutexAt(m), M.Mutex([], [], None, {}));
    }

    /** Port creation: the new port gets the next id; `memory` tells whether a port could be allocated. */
    method NewPort(memory: bool) returns (id: Option<nat>)
      requires Valid() && M.Inv(abs)
      modifies this
      ensures Valid() && M.Inv(abs) && (id == None <==> !memory) && fresh(repr - old(repr))
      ensures id == None ==> abs == old(abs) && handles == old(handles)
      ensures id != None ==>
                && abs == M.Step(old(abs), M.NewPort)
                && id.value == |old(handles)| < |handles| && handles[id.value].PortAt?
    {
      hide IsQueue, Matches, M.Inv;
      if !memory {
        return None;
      }
      M.StepKeeps(abs, M.NewPort);
      InvApart(abs);
      id := Some(|handles|);
      var p := new Port();
      assert Matches(PortAt(p), M.Port([], [], [], [], [])) by { MatchesPort(p); }
      Install(PortAt(p), M.Port([], [], [], [], []));
    }
  }
}
