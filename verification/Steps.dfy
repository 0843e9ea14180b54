/** What each step of the thread machine changes, field by field, and what it leaves. */
module Steps {
  import opened Options
  import opened Seqs
  import opened Machine
  import opened Guarantees

  /** The current thread is in no kernel operation, or in this wait loop. */
  ghost predicate RunsIn<T>(s: State<T>, c: T, loop: Place<T>) {
    s.current == Some(c) && c in s.threads && (s.threads[c].place == User || s.threads[c].place == loop)
  }

  /** But for the threads of `changed`, every thread is as it was. */
  ghost predicate ThreadsStay<T>(s: State<T>, d: State<T>, changed: set<T>) {
    d.threads.Keys == s.threads.Keys && forall x | x in s.threads && x !in changed :: d.threads[x] == s.threads[x]
  }

  /** But for object `o`, every object is as it was. */
  ghost predicate ObjectsStay<T>(s: State<T>, d: State<T>, o: nat) {
    |d.objects| == |s.objects| && forall i :: 0 <= i < |s.objects| && i != o ==> d.objects[i] == s.objects[i]
  }

  ghost predicate RegistryStays<T>(s: State<T>, d: State<T>) {
    d.lookups == s.lookups && d.servers == s.servers
  }

  /** Where a thread is that the step puts to sleep. */
  ghost function Loop<T>(l: Label<T>, place: Place<T>): Place<T> {
    match l
    case Lock(o) => Retry(o)
    case Receive(o) => Retry(o)
    case Lookup(name, _, _) => LookupRetry(name)
    case _ => place
  }

  /**
   * Entering the scheduler makes one thread run, and makes the one that ran before ready or puts it to sleep; no other
   * thread notices.
   */
  lemma {:induction false} SwitchedThreads<T>(s: State<T>, l: Label<T>, x: T)
    requires Inv(s) && Switches(s, l) && x in s.threads
    ensures x in Step(s, l).threads
    ensures var d := Step(s, l);
            && d.threads[x].place == (if s.current == Some(x) then Loop(l, s.threads[x].place) else s.threads[x].place)
            && d.threads[x].phase ==
               if d.current == Some(x) then Running
               else if s.current == Some(x) then (if l.Preempt? then Ready else Sleeping)
               else s.threads[x].phase
  {
    hide Core, Removed;
    ReadyMoves(s, l);
    PhaseOf(s, x);
    if s.current.Some? {
      CurrentIsKnown(s, s.current.value);
    }
    if s.ready != [] {
      HeadIsKnown(s);
    }
  }

  lemma {:induction false} PhaseOf<T>(s: State<T>, x: T)
    requires Inv(s) && x in s.threads
    ensures x in s.ready <==> s.threads[x].phase == Ready
    ensures s.current == Some(x) <==> s.threads[x].phase == Running
  {
    hide Inv;
    QueuesOf(s);
  }

  /** `mutex_lock` takes a free mutex; for a held one the thread joins the waiters at the end. */
  lemma {:induction false} LockMeaning<T>(s: State<T>, o: nat, c: T)
    requires Inv(s) && RunsIn(s, c, Retry(o)) && o < |s.objects| && s.objects[o].Mutex?
    ensures var d := Step(s, Lock(o));
            var b := s.objects[o];
            && ObjectsStay(s, d, o) && d.objects[o].Mutex? && RegistryStays(s, d)
                 && (Switches(s, Lock(o)) <==> b.locker.Some?)
            && (b.locker.None? ==>
                  && d.objects[o].locker == Some(c) && d.objects[o].inside == b.inside + {c}
                  && d.objects[o].waiters == b.waiters
                  && d.current == s.current && d.ready == s.ready
                  && ThreadsStay(s, d, {c}) && d.threads[c] == Thread(Running, User))
            && (b.locker.Some? ==>
                  && d.objects[o].locker == b.locker && d.objects[o].inside == b.inside
                  && d.objects[o].waiters == b.waiters + [c])
  {
    hide Next, Removed, Core;
    NextObjects(Block(s, o, c));
  }

  /** `mutex_unlock` frees the mutex and takes the first waiter off the list, which it is then to wake up. */
  lemma {:induction false} UnlockMeaning<T>(s: State<T>, o: nat, c: T)
    requires Inv(s) && RunsIn(s, c, User) && o < |s.objects| && s.objects[o].Mutex?
    ensures var d := Step(s, Unlock(o));
            var b := s.objects[o];
            && ObjectsStay(s, d, o) && d.objects[o].Mutex? && RegistryStays(s, d)
            && d.objects[o].locker == None && d.objects[o].inside == b.inside - {c}
            && d.objects[o].waiters == (if b.waiters == [] then [] else b.waiters[1..])
            && d.current == s.current && d.ready == s.ready && ThreadsStay(s, d, {c})
            && d.threads[c] == Thread(Running, if b.waiters == [] then User else Waking(b.waiters[0]))
  {
    hide Core;
  }

  /** Then it wakes that waiter up, which goes to the end of the ready queue. */
  lemma {:induction false} WakeUpMeaning<T>(s: State<T>, c: T, t: T)
    requires Inv(s) && s.current == Some(c) && c in s.threads && s.threads[c].place == Waking(t)
    ensures t in s.threads && t != c
    ensures var d := Step(s, WakeUp);
            && d.objects == s.objects && RegistryStays(s, d) && d.current == s.current && d.ready == s.ready + [t]
            && ThreadsStay(s, d, {c, t}) && d.threads[c] == Thread(Running, User)
            && d.threads[t] == s.threads[t].(phase := Ready)
  {
    hide WaitersOk, LookupsOk, ReadyOk, ThreadOk;
  }

  /** `ipc_port_send` queues the message and wakes the first waiter up; without memory it does nothing. */
  lemma {:induction false} SendMeaning<T>(s: State<T>, o: nat, message: Message, memory: bool)
    requires Inv(s) && o < |s.objects| && s.objects[o].Port?
    ensures var d := Step(s, Send(o, message, memory));
            var b := s.objects[o];
            && (!memory ==> d == s)
            && (memory ==>
                  && ObjectsStay(s, d, o) && d.objects[o].Port? && RegistryStays(s, d) && d.current == s.current
                  && d.objects[o].messages == b.messages + [message] && d.objects[o].sent == b.sent + [message]
                  && d.objects[o].received == b.received
                  && d.objects[o].waiters == (if b.waiters == [] then [] else b.waiters[1..])
                  && d.ready == s.ready + (if b.waiters == [] then [] else [b.waiters[0]])
                  && ThreadsStay(s, d, if b.waiters == [] then {} else {b.waiters[0]})
                  && (b.waiters != [] ==>
                        b.waiters[0] in s.threads
                        && d.threads[b.waiters[0]] == s.threads[b.waiters[0]].(phase := Ready)))
  {
    hide HeldOk, LookupsOk, ReadyOk, ThreadOk;
    assert WaitersOk(s.threads, o, s.objects[o]);
    if s.objects[o].waiters != [] {
      assert s.objects[o].waiters[0] in s.objects[o].waiters;
    }
  }

  /** The receive call takes the oldest message; on an empty port the thread joins the waiters at the end. */
  lemma {:induction false} ReceiveMeaning<T>(s: State<T>, o: nat, c: T)
    requires Inv(s) && RunsIn(s, c, Retry(o)) && o < |s.objects| && s.objects[o].Port?
    ensures var d := Step(s, Receive(o));
            var b := s.objects[o];
            && ObjectsStay(s, d, o) && d.objects[o].Port? && RegistryStays(s, d)
            && (Switches(s, Receive(o)) <==> b.messages == [])
            && d.objects[o].sent == b.sent
            && (b.messages != [] ==>
                  && d.objects[o].messages == b.messages[1..] && d.objects[o].received == b.received + [b.messages[0]]
                  && d.objects[o].waiters == b.waiters
                  && d.current == s.current && d.ready == s.ready
                  && ThreadsStay(s, d, {c}) && d.threads[c] == Thread(Running, User))
            && (b.messages == [] ==>
                  && d.objects[o].messages == [] && d.objects[o].received == b.received
                  && d.objects[o].waiters == b.waiters + [c])
  {
    hide Next, Removed, Core;
    NextObjects(Block(s, o, c));
  }

  /**
   * A lookup of a registered name, or one that does not wait or finds no memory, changes nothing; any other lists the
   * thread in front of the waiters, under the name cut off at 31 characters.
   */
  lemma {:induction false} LookupMeaning<T>(s: State<T>, name: string, wait: bool, memory: bool, c: T)
    requires Inv(s) && RunsIn(s, c, LookupRetry(name))
    ensures var l := Lookup(name, wait, memory);
            var d := Step(s, l);
            && d.objects == s.objects && d.servers == s.servers
            && (Switches(s, l) <==> name !in s.servers && memory && (wait || s.threads[c].place == LookupRetry(name)))
            && (Switches(s, l) ==>
                  d.lookups == [Waiter(if |name| <= 31 then name else name[..31], c)] + s.lookups)
            && (!Switches(s, l) ==>
                  && d.lookups == s.lookups && d.current == s.current && d.ready == s.ready
                  && ThreadsStay(s, d, {c}) && d.threads[c] == Thread(Running, User))
  {
    hide Next, Core;
    NextObjects(s.(lookups := [Waiter(Stored(name), c)] + s.lookups,
                   threads := s.threads[c := Thread(Sleeping, LookupRetry(name))]));
  }

  /** How many of the first `i` waiters are listed under the name. */
  ghost function AskingBefore<T>(l: seq<Waiter<T>>, name: string, i: nat): (n: nat)
    requires i <= |l|
    ensures n <= i
  {
    if i == 0 then 0 else AskingBefore(l, name, i - 1) + if l[i - 1].name == name then 1 else 0
  }

  lemma {:induction false} AskingCons<T>(l: seq<Waiter<T>>, name: string, i: nat)
    requires l != [] && i < |l|
    ensures AskingBefore(l, name, i + 1) == AskingBefore(l[1..], name, i) + if l[0].name == name then 1 else 0
  {
    if i > 0 {
      AskingCons(l, name, i - 1);
    }
  }

  /** The waiters under the name come out in the order of the list, and the others stay in it. */
  lemma {:induction false} ListSplits<T>(l: seq<Waiter<T>>, name: string, i: nat)
    requires i < |l|
    ensures var n := AskingBefore(l, name, i);
            if l[i].name == name then n < |Matching(l, name)| && Matching(l, name)[n] == l[i].thread
            else i - n < |Kept(l, name)| && Kept(l, name)[i - n] == l[i]
    decreases |l|
  {
    if i > 0 {
      AskingCons(l, name, i - 1);
      ListSplits(l[1..], name, i - 1);
    }
  }

  lemma {:induction false} SplitSizes<T>(l: seq<Waiter<T>>, name: string)
    ensures |Matching(l, name)| == AskingBefore(l, name, |l|)
    ensures |Kept(l, name)| == |l| - AskingBefore(l, name, |l|)
    ensures forall t | t in Matching(l, name) :: exists i :: 0 <= i < |l| && l[i].name == name && l[i].thread == t
    decreases |l|
  {
    if l != [] {
      var rest := l[1..];
      SplitSizes(rest, name);
      AskingCons(l, name, |rest|);
      assert forall i :: 0 <= i < |rest| ==> rest[i] == l[i + 1];
    }
  }

  lemma {:induction false} WokenThreads<T>(s: State<T>, l: seq<T>)
    requires forall t | t in l :: t in s.threads
    ensures var d := WakeAll(s, l);
            && d.ready == s.ready + l && d.threads.Keys == s.threads.Keys
            && (forall x | x in s.threads ::
                  d.threads[x] == if x in l then s.threads[x].(phase := Ready) else s.threads[x])
    decreases |l|
  {
    if l != [] {
      WokenThreads(AddReady(s, l[0]), l[1..]);
      assert l == [l[0]] + l[1..];
    }
  }

  /**
   * A registration enters the port under the name cut off at 31 characters. The waiters listed under the name as given
   * leave the list and go to the end of the ready queue, in the order of the list; the others stay listed as they are.
   */
  lemma {:induction false} RegisterMeaning<T>(s: State<T>, name: string, port: int, memory: bool, c: T)
    requires Inv(s) && RunsIn(s, c, User)
    ensures var d := Step(s, Register(name, port, memory));
            var l := s.lookups;
            && (!memory ==> d == s)
            && (memory ==>
                  && d.objects == s.objects && d.current == s.current
                  && d.servers == s.servers[if |name| <= 31 then name else name[..31] := port]
                  && s.ready <= d.ready && |d.ready| == |s.ready| + AskingBefore(l, name, |l|)
                  && |d.lookups| == |l| - AskingBefore(l, name, |l|))
  {
    hide Core;
    ghost var r := s.(servers := s.servers[Stored(name) := port], lookups := Kept(s.lookups, name));
    WakeAllObjects(r, Matching(s.lookups, name));
    WakeAllRegistry(r, Matching(s.lookups, name));
    WakeAllOrder(r, Matching(s.lookups, name));
    MatchingIsKnown(s, name);
    WokenThreads(r, Matching(s.lookups, name));
    SplitSizes(s.lookups, name);
  }

  lemma {:induction false} MatchingIsKnown<T>(s: State<T>, name: string)
    requires Inv(s)
    ensures forall t | t in Matching(s.lookups, name) :: t in s.threads
  {
    hide WaitersOk, HeldOk, ReadyOk, ThreadOk, Matching;
    SplitSizes(s.lookups, name);
    assert forall i :: 0 <= i < |s.lookups| ==> LookupOk(s.threads, s.lookups[i]);
  }

  /** Each waiter of the registry either becomes ready or stays listed. */
  lemma {:induction false} RegisterWaiter<T>(s: State<T>, name: string, port: int, c: T, i: nat)
    requires Inv(s) && RunsIn(s, c, User) && i < |s.lookups|
    ensures var d := Step(s, Register(name, port, true));
            var (w, n) := (s.lookups[i], AskingBefore(s.lookups, name, i));
            if w.name == name then |s.ready| + n < |d.ready| && d.ready[|s.ready| + n] == w.thread
            else i - n < |d.lookups| && d.lookups[i - n] == w
  {
    hide Core, Kept, Matching, AskingBefore;
    ghost var r := s.(servers := s.servers[Stored(name) := port], lookups := Kept(s.lookups, name));
    WakeAllRegistry(r, Matching(s.lookups, name));
    MatchingIsKnown(s, name);
    WokenThreads(r, Matching(s.lookups, name));
    ListSplits(s.lookups, name, i);
  }

  /** The waiters under the name are ready afterwards; no other thread notices. */
  lemma {:induction false} RegisterThreads<T>(s: State<T>, name: string, port: int, c: T, x: T)
    requires Inv(s) && RunsIn(s, c, User) && x in s.threads
    ensures var d := Step(s, Register(name, port, true));
            && d.threads.Keys == s.threads.Keys
            && d.threads[x] == if exists i :: 0 <= i < |s.lookups| && s.lookups[i] == Waiter(name, x)
                               then s.threads[x].(phase := Ready) else s.threads[x]
  {
    hide Core, Kept, Matching;
    ghost var l := s.lookups;
    ghost var r := s.(servers := s.servers[Stored(name) := port], lookups := Kept(l, name));
    MatchingIsKnown(s, name);
    WokenThreads(r, Matching(l, name));
    SplitSizes(l, name);
    if x in Matching(l, name) {
      var i :| 0 <= i < |l| && l[i].name == name && l[i].thread == x;
      assert l[i] == Waiter(name, x);
    }
    if i :| 0 <= i < |l| && l[i] == Waiter(name, x) {
      ListSplits(l, name, i);
    }
  }

  /** Creating a thread, a mutex or a port adds one to those there are; starting a thread makes it ready. */
  lemma {:induction false} CreateMeaning<T>(s: State<T>, t: T)
    ensures Step(s, NewMutex) == s.(objects := s.objects + [Mutex([], [], None, {})])
    ensures Step(s, NewPort) == s.(objects := s.objects + [Port([], [], [], [], [])])
    ensures t !in s.threads ==> Step(s, Create(t)) == s.(threads := s.threads[t := Thread(Created, User)])
    ensures t in s.threads && s.threads[t].phase == Created ==>
              Step(s, Start(t)) ==
                s.(threads := s.threads[t := s.threads[t].(phase := Ready)], ready := s.ready + [t])
    ensures t in s.threads ==> Step(s, Create(t)) == s
    ensures !(t in s.threads && s.threads[t].phase == Created) ==> Step(s, Start(t)) == s
  {
  }

  /**
   * What a thread does in the middle of another operation, or on an object that is none of its kind, changes nothing.
   */
  ghost predicate Impossible<T>(s: State<T>, l: Label<T>) {
    match l
    case Lock(o) => !(AnyIn(s, Retry(o)) && o < |s.objects| && s.objects[o].Mutex?)
    case Unlock(o) => !(AnyIn(s, User) && o < |s.objects| && s.objects[o].Mutex?)
    case WakeUp => !(s.current.Some? && s.current.value in s.threads && s.threads[s.current.value].place.Waking?)
    case Send(o, _, memory) => !(memory && o < |s.objects| && s.objects[o].Port?)
    case Receive(o) => !(AnyIn(s, Retry(o)) && o < |s.objects| && s.objects[o].Port?)
    case Register(_, _, memory) => !(memory && AnyIn(s, User))
    case Lookup(name, _, _) => !AnyIn(s, LookupRetry(name))
    case _ => false
  }

  ghost predicate AnyIn<T>(s: State<T>, loop: Place<T>) {
    s.current.Some? && RunsIn(s, s.current.value, loop)
  }

  lemma {:induction false} ImpossibleIsNothing<T>(s: State<T>, l: Label<T>)
    requires Impossible(s, l)
    ensures Step(s, l) == s
  {
    hide Next, Block, WakeAll;
  }
}
