/**
 * Threads, mutexes, message ports and the server registry as a state machine. One step is one stretch of kernel
 * code that runs with interrupts off; between any two steps any other step may happen.
 */
module Machine {
  import opened Options
  import opened Seqs

  datatype Phase = Created | Sleeping | Ready | Running | Dead

  /** Where a thread stands when it is between two steps of a kernel operation. */
  datatype Place<T> =
    | User                         // in no kernel operation
    | Waking(sleeper: T)           // in mutex_unlock, after the pop and before the wake-up
    | Retry(at: nat)           // in the wait loop of mutex_lock or receive
    | LookupRetry(name: string)    // in the wait loop of the server lookup

  datatype Thread<T> = Thread(phase: Phase, place: Place<T>)

  datatype Message = Message(sender: int, data: seq<int>)

  /**
   * A kernel object that threads sleep on. `woken` lists the threads that were taken off `waiters` and have not
   * yet looked again; `inside`, `sent` and `received` record what happened so far.
   */
  datatype Object<T> =
    | Mutex(waiters: seq<T>, woken: seq<T>, locker: Option<T>, inside: set<T>)
    | Port(waiters: seq<T>, woken: seq<T>, messages: seq<Message>, sent: seq<Message>, received: seq<Message>)

  datatype Waiter<T> = Waiter(name: string, thread: T)

  /** `current` is `None` while the idle thread runs. */
  datatype State<T> = State(
    threads: map<T, Thread<T>>,
    current: Option<T>,
    ready: seq<T>,
    objects: seq<Object<T>>,
    lookups: seq<Waiter<T>>,
    servers: map<string, int>,
    panicked: bool)

  datatype Label<T> =
    | Preempt
    | Create(t: T)
    | Start(t: T)
    | NewMutex
    | NewPort
    | Lock(at: nat)
    | Unlock(at: nat)
    | WakeUp
    | Send(at: nat, message: Message, memory: bool)
    | Receive(at: nat)
    | Register(name: string, port: int, memory: bool)
    | Lookup(name: string, wait: bool, memory: bool)

  const SERVER_NAME_SIZE: nat := 32

  /** A name as the fixed-size field of a registry entry stores it. */
  function Stored(name: string): string {
    if |name| < SERVER_NAME_SIZE then name else name[..SERVER_NAME_SIZE - 1]
  }

  // ---------------------------------------------------------------------------------------------- the steps

  /** `sched_add_ready` */
  function AddReady<T(==)>(s: State<T>, t: T): State<T> {
    if t !in s.threads then s
    else s.(threads := s.threads[t := s.threads[t].(phase := Ready)], ready := s.ready + [t])
  }

  /** The second half of `sched_next`: the first ready thread becomes current, or else the idle thread. */
  function Dispatch<T(==)>(s: State<T>): State<T> {
    if s.ready == [] then s.(current := None)
    else
      var next := s.ready[0];
      if next !in s.threads then s
      else
        s.(threads := s.threads[next := s.threads[next].(phase := Running)], ready := s.ready[1..],
          current := Some(next))
  }

  /** `sched_next` */
  function Next<T(==)>(s: State<T>): State<T> {
    if s.current.None? || s.current.value !in s.threads then Dispatch(s)
    else
      match s.threads[s.current.value].phase
      case Running => Dispatch(AddReady(s, s.current.value))
      case Sleeping => Dispatch(s)
      case Dead => Dispatch(s)
      case _ => Dispatch(s.(panicked := true))
  }

  /** Gives the current thread a new record, and an object a new value. */
  function Write<T(==)>(s: State<T>, o: nat, b: Object<T>, thread: Thread<T>): State<T> {
    if s.current.None? || o >= |s.objects| then s
    else s.(objects := s.objects[o := b], threads := s.threads[s.current.value := thread])
  }

  /** The current thread joins the waiters of an object and falls asleep. */
  function Block<T(==)>(s: State<T>, o: nat, c: T): State<T> {
    if o >= |s.objects| then s
    else
      var b := s.objects[o];
      Write(s, o, b.(waiters := b.waiters + [c], woken := Removed(b.woken, c)), Thread(Sleeping, Retry(o)))
  }

  /** The object without its first waiter. */
  function Popped<T>(b: Object<T>): Object<T> {
    if b.waiters == [] then b else b.(waiters := b.waiters[1..], woken := b.woken + [b.waiters[0]])
  }

  /** One pass of the loop of `mutex_lock`. */
  function LockStep<T(==)>(s: State<T>, o: nat, c: T): State<T> {
    if o >= |s.objects| || !s.objects[o].Mutex? then s
    else
      var b := s.objects[o];
      if b.locker.Some? then Next(Block(s, o, c))
      else
        Write(s, o, b.(locker := Some(c), inside := b.inside + {c}, woken := Removed(b.woken, c)),
          Thread(Running, User))
  }

  /** `mutex_unlock` up to the wake-up. The code does not ask who holds the mutex. */
  function UnlockStep<T(==)>(s: State<T>, o: nat, c: T): State<T> {
    if o >= |s.objects| || !s.objects[o].Mutex? then s
    else
      var b := s.objects[o].(locker := None, inside := s.objects[o].inside - {c});
      Write(s, o, Popped(b), Thread(Running, if b.waiters == [] then User else Waking(b.waiters[0])))
  }

  /** The wake-up that ends `mutex_unlock`. */
  function WakeStep<T(==)>(s: State<T>, c: T, t: T): State<T> {
    AddReady(s.(threads := s.threads[c := Thread(Running, User)]), t)
  }

  /** `ipc_port_send` */
  function SendStep<T(==)>(s: State<T>, o: nat, message: Message, memory: bool): State<T> {
    if o >= |s.objects| || !s.objects[o].Port? || !memory then s
    else
      var b := s.objects[o].(messages := s.objects[o].messages + [message], sent := s.objects[o].sent + [message]);
      var s1 := s.(objects := s.objects[o := Popped(b)]);
      if b.waiters == [] then s1 else AddReady(s1, b.waiters[0])
  }

  /** One pass of the loop of `sys_ipc_port_receive`. */
  function ReceiveStep<T(==)>(s: State<T>, o: nat, c: T): State<T> {
    if o >= |s.objects| || !s.objects[o].Port? then s
    else
      var b := s.objects[o];
      if b.messages == [] then Next(Block(s, o, c))
      else
        Write(s, o,
              b.(messages := b.messages[1..], received := b.received + [b.messages[0]], woken := Removed(b.woken, c)),
              Thread(Running, User))
  }

  /** The registry waiters that a registration leaves listed. */
  function Kept<T>(l: seq<Waiter<T>>, name: string): seq<Waiter<T>> {
    if l == [] then [] else if l[0].name == name then Kept(l[1..], name) else [l[0]] + Kept(l[1..], name)
  }

  /** The threads that a registration wakes up, in this order. */
  function Matching<T>(l: seq<Waiter<T>>, name: string): seq<T> {
    if l == [] then [] else if l[0].name == name then [l[0].thread] + Matching(l[1..], name) else Matching(l[1..], name)
  }

  function WakeAll<T(==)>(s: State<T>, l: seq<T>): State<T>
    decreases |l|
  {
    if l == [] then s else WakeAll(AddReady(s, l[0]), l[1..])
  }

  /** `sys_ipc_server_register` */
  function RegisterStep<T(==)>(s: State<T>, name: string, port: int, memory: bool): State<T> {
    if !memory then s
    else
      var s1 := s.(servers := s.servers[Stored(name) := port], lookups := Kept(s.lookups, name));
      WakeAll(s1, Matching(s.lookups, name))
  }

  /** One pass of the loop of `sys_ipc_server_lookup`. */
  function LookupStep<T(==)>(s: State<T>, name: string, wait: bool, memory: bool, c: T): State<T> {
    if name in s.servers || !wait || !memory then s.(threads := s.threads[c := Thread(Running, User)])
    else
      Next(s.(lookups := [Waiter(Stored(name), c)] + s.lookups,
              threads := s.threads[c := Thread(Sleeping, LookupRetry(name))]))
  }

  /** One step. A label that is not possible in the state changes nothing. */
  function Step<T(==)>(s: State<T>, l: Label<T>): State<T> {
    match l
    case Preempt => Next(s)
    case Create(t) => if t in s.threads then s else s.(threads := s.threads[t := Thread(Created, User)])
    case Start(t) => if t in s.threads && s.threads[t].phase == Created then AddReady(s, t) else s
    case NewMutex => s.(objects := s.objects + [Mutex([], [], None, {})])
    case NewPort => s.(objects := s.objects + [Port([], [], [], [], [])])
    case Send(o, message, memory) => SendStep(s, o, message, memory)
    case _ => if s.current.Some? && s.current.value in s.threads then ThreadStep(s, l, s.current.value) else s
  }

  /** The steps that the current thread takes. */
  function ThreadStep<T(==)>(s: State<T>, l: Label<T>, c: T): State<T>
    requires c in s.threads
  {
    var place := s.threads[c].place;
    match l
    case Lock(o) => if place == User || place == Retry(o) then LockStep(s, o, c) else s
    case Unlock(o) => if place == User then UnlockStep(s, o, c) else s
    case WakeUp => if place.Waking? then WakeStep(s, c, place.sleeper) else s
    case Receive(o) => if place == User || place == Retry(o) then ReceiveStep(s, o, c) else s
    case Register(name, port, memory) => if place == User then RegisterStep(s, name, port, memory) else s
    case Lookup(name, wait, memory) =>
      if place == User then LookupStep(s, name, wait, memory, c)
      else if place == LookupRetry(name) then LookupStep(s, name, true, memory, c)
      else s
    case _ => s
  }

  function Boot<T>(): State<T> {
    State(map[], None, [], [], [], map[], false)
  }

  function Run<T(==)>(s: State<T>, labels: seq<Label<T>>): State<T>
    decreases |labels|
  {
    if labels == [] then s else Run(Step(s, labels[0]), labels[1..])
  }

  // ---------------------------------------------------------------------------------------------- the invariant

  ghost predicate IsLooking<T>(l: seq<Waiter<T>>, x: T) {
    exists i :: 0 <= i < |l| && l[i].thread == x
  }

  /** The ready queue holds READY threads, each once. */
  ghost predicate ReadyOk<T>(threads: map<T, Thread<T>>, ready: seq<T>) {
    Distinct(ready) && forall x | x in ready :: x in threads && threads[x].phase == Ready
  }

  /** The waiters of an object sleep in its wait loop, each listed once; the others in that loop are the woken ones. */
  ghost predicate WaitersOk<T>(threads: map<T, Thread<T>>, o: nat, b: Object<T>) {
    && Distinct(b.waiters) && Distinct(b.woken)
    && (forall x | x in b.waiters :: x in threads && threads[x] == Thread(Sleeping, Retry(o)) && x !in b.woken)
    && (forall x | x in b.woken :: x in threads && threads[x].place == Retry(o))
    && (forall x | x in threads && threads[x].place == Retry(o) :: x in b.waiters || x in b.woken)
  }

  /** The waiters of the registry sleep in a lookup of the name they are listed under. */
  ghost predicate LookupsOk<T>(threads: map<T, Thread<T>>, lookups: seq<Waiter<T>>) {
    && (forall i, j :: 0 <= i < j < |lookups| ==> lookups[i].thread != lookups[j].thread)
    && (forall i :: 0 <= i < |lookups| ==> LookupOk(threads, lookups[i]))
  }

  ghost predicate LookupOk<T>(threads: map<T, Thread<T>>, w: Waiter<T>) {
    && w.thread in threads && threads[w.thread].phase == Sleeping
    && threads[w.thread].place.LookupRetry? && w.name == Stored(threads[w.thread].place.name)
  }

  /** A thread that is in no list and about to be made ready. */
  ghost predicate Loose<T>(s: State<T>, t: T) {
    && t in s.threads && s.current != Some(t) && (s.threads[t].phase == Sleeping || s.threads[t].phase == Created)
    && (s.threads[t].place.Retry? ==>
          s.threads[t].place.at < |s.objects| && t !in s.objects[s.threads[t].place.at].waiters)
    && !IsLooking(s.lookups, t)
  }

  /** A thread that an unlocker is about to wake up sleeps in the wait loop of a mutex, off its list. */
  ghost predicate HeldOk<T>(s: State<T>, loose: set<T>) {
    && (forall u | u in s.threads && s.threads[u].place.Waking? ::
          var t := s.threads[u].place.sleeper;
          && Loose(s, t) && t !in loose && s.threads[t].phase == Sleeping && s.threads[t].place.Retry?
          && s.objects[s.threads[t].place.at].Mutex?)
    && (forall u, v | u in s.threads && v in s.threads && s.threads[u].place.Waking?
         && s.threads[u].place == s.threads[v].place :: u == v)
  }

  ghost predicate Held<T>(threads: map<T, Thread<T>>, x: T) {
    exists u :: u in threads && threads[u].place == Waking(x)
  }

  /** A sleeper is in the list that its place names, or an unlocker is about to wake it up. */
  ghost predicate Accounted<T>(s: State<T>, x: T)
    requires x in s.threads
  {
    match s.threads[x].place
    case Retry(o) => o < |s.objects| && (x in s.objects[o].waiters || Held(s.threads, x))
    case LookupRetry(_) => IsLooking(s.lookups, x)
    case _ => false
  }

  ghost predicate ThreadOk<T>(s: State<T>, loose: set<T>, x: T)
    requires x in s.threads
  {
    && (s.threads[x].place.Retry? ==> s.threads[x].place.at < |s.objects|)
    && match s.threads[x].phase
       case Created => s.threads[x].place == User
       case Sleeping => x in loose || Accounted(s, x)
       case Ready => x in s.ready
       case Running => s.current == Some(x)
       case Dead => false
  }

  /** Every thread is where its phase and place say, but for the threads `loose` that are about to be made ready. */
  ghost predicate Core<T>(s: State<T>, loose: set<T>) {
    && ReadyOk(s.threads, s.ready) && LookupsOk(s.threads, s.lookups) && HeldOk(s, loose)
    && (forall o :: 0 <= o < |s.objects| ==> WaitersOk(s.threads, o, s.objects[o]))
    && (forall x | x in s.threads :: ThreadOk(s, loose, x))
    && (forall x | x in loose :: Loose(s, x))
    && (s.current.Some? ==> s.current.value in s.threads && s.current.value !in loose)
  }

  /** Exactly-once delivery in order, and no lost wake-up. */
  ghost predicate ObjectOk<T>(b: Object<T>) {
    match b
    case Mutex(waiters, woken, locker, inside) =>
      waiters != [] ==> locker.Some? || woken != []
    case Port(waiters, woken, messages, sent, received) =>
      && sent == received + messages
      && (waiters != [] ==> |messages| <= |woken|)
  }

  ghost predicate ObjectsOk<T>(s: State<T>) {
    forall o :: 0 <= o < |s.objects| ==> ObjectOk(s.objects[o])
  }

  /** What holds between any two steps. */
  ghost predicate Inv<T>(s: State<T>) {
    && Core(s, {}) && ObjectsOk(s) && !s.panicked
    && (s.current.Some? ==> s.threads[s.current.value].phase == Running)
  }

  // ---------------------------------------------------------------------------------------------- preservation

  /** Nothing about the waiters changes when all places and the records of the waiters stay. */
  lemma {:induction false} WaitersSame<T>(threads: map<T, Thread<T>>, threads2: map<T, Thread<T>>, o: nat, b: Object<T>)
    requires WaitersOk(threads, o, b) && threads2.Keys == threads.Keys
    requires forall x | x in threads :: threads2[x].place == threads[x].place
    requires forall x | x in b.waiters :: threads2[x] == threads[x]
    ensures WaitersOk(threads2, o, b)
  {
  }

  /** A thread that is awake, or loose, is in no list of waiters. */
  lemma {:induction false} InNoList<T>(s: State<T>, loose: set<T>, t: T)
    requires Core(s, loose) && t in s.threads && (s.threads[t].phase != Sleeping || Loose(s, t))
    ensures !IsLooking(s.lookups, t)
    ensures forall o :: 0 <= o < |s.objects| ==> t !in s.objects[o].waiters
  {
    hide HeldOk, ReadyOk, ThreadOk;
  }

  lemma {:induction false} HeldSame<T>(threads: map<T, Thread<T>>, threads2: map<T, Thread<T>>)
    requires threads.Keys <= threads2.Keys
    requires forall u | u in threads && threads[u].place.Waking? :: threads2[u].place == threads[u].place
    ensures forall x | x in threads && Held(threads, x) :: Held(threads2, x)
  {
    forall x | x in threads && Held(threads, x)
      ensures Held(threads2, x)
    {
      var u :| u in threads && threads[u].place == Waking(x);
      assert u in threads2 && threads2[u].place == Waking(x);
    }
  }

  /** A thread in no list changes its phase, and no waiter notices. */
  lemma {:induction false} Rephased<T>(s: State<T>, loose: set<T>, t: T, phase: Phase, s2: State<T>)
    requires Core(s, loose) && t in s.threads && (s.threads[t].phase != Sleeping || Loose(s, t))
    requires s2.threads == s.threads[t := s.threads[t].(phase := phase)] && s2.objects == s.objects
             && s2.lookups == s.lookups
    ensures LookupsOk(s2.threads, s2.lookups) && forall o :: 0 <= o < |s.objects| ==>
            WaitersOk(s2.threads, o, s.objects[o])
    ensures forall x | x in s.threads && Held(s.threads, x) :: Held(s2.threads, x)
  {
    hide HeldOk, ReadyOk, ThreadOk, WaitersOk;
    InNoList(s, loose, t);
    forall o | 0 <= o < |s.objects|
      ensures WaitersOk(s2.threads, o, s.objects[o])
    {
      WaitersSame(s.threads, s2.threads, o, s.objects[o]);
    }
    forall i | 0 <= i < |s.lookups|
      ensures LookupOk(s2.threads, s.lookups[i])
    {
      assert LookupOk(s.threads, s.lookups[i]) && s.lookups[i].thread != t;
    }
    HeldSame(s.threads, s2.threads);
  }

  /** A loose thread is made ready. */
  lemma {:induction false} AddReadyKeeps<T>(s: State<T>, loose: set<T>, t: T)
    requires Core(s, loose) && t in loose
    ensures Core(AddReady(s, t), loose - {t})
  {
    hide WaitersOk, LookupsOk, IsLooking, Held;
    Rephased(s, loose, t, Ready, AddReady(s, t));
  }

  lemma {:induction false} AddReadyAlone<T>(s: State<T>, t: T)
    requires Core(s, {t})
    ensures t in s.threads && Core(AddReady(s, t), {})
    ensures s.current.Some? ==>
            s.current.value in s.threads && AddReady(s, t).threads[s.current.value] == s.threads[s.current.value]
  {
    hide ReadyOk, LookupsOk, HeldOk, WaitersOk, ThreadOk;
    assert {t} - {t} == {} && Loose(s, t);
    AddReadyKeeps(s, {t}, t);
  }

  /** The running thread is made ready. */
  lemma {:induction false} YieldKeeps<T>(s: State<T>, loose: set<T>, c: T)
    requires Core(s, loose) && s.current == Some(c) && s.threads[c].phase == Running
    ensures Core(AddReady(s, c), loose)
  {
    hide WaitersOk, LookupsOk, IsLooking, Held;
    Rephased(s, loose, c, Ready, AddReady(s, c));
  }

  lemma {:induction false} DispatchKeeps<T>(s: State<T>, loose: set<T>)
    requires Core(s, loose)
    requires s.current.Some? ==> s.threads[s.current.value].phase != Running
    ensures Core(Dispatch(s), loose)
    ensures var d := Dispatch(s); d.current.Some? ==> d.threads[d.current.value].phase == Running
  {
    hide WaitersOk, LookupsOk, IsLooking, Held;
    if s.ready != [] {
      DistinctTail(s.ready);
      hide Distinct;
      Rephased(s, loose, s.ready[0], Running, Dispatch(s));
    }
  }

  lemma {:induction false} WaitersElsewhere<T>(threads: map<T, Thread<T>>, c: T, thread: Thread<T>, o: nat,
      b: Object<T>)
    requires WaitersOk(threads, o, b) && (c in threads ==> threads[c].place != Retry(o)) && thread.place != Retry(o)
    ensures WaitersOk(threads[c := thread], o, b)
  {
  }

  /** The current thread, at home or in the wait loop of `o`, takes a new record and `o` a new value. */
  ghost predicate MayWrite<T>(s: State<T>, o: nat, c: T) {
    && s.current == Some(c) && c in s.threads && s.threads[c].phase == Running
    && (s.threads[c].place == User || s.threads[c].place == Retry(o)) && o < |s.objects|
  }

  /** No other object and no lookup notices. */
  lemma {:induction false} Written<T>(s: State<T>, o: nat, c: T, b: Object<T>, thread: Thread<T>)
    requires Core(s, {}) && MayWrite(s, o, c) && (thread.place.Retry? ==> thread.place == Retry(o))
    ensures var d := Write(s, o, b, thread);
            && LookupsOk(d.threads, d.lookups)
            && (WaitersOk(d.threads, o, b) ==> forall o2 :: 0 <= o2 < |d.objects| ==>
                 WaitersOk(d.threads, o2, d.objects[o2]))
    ensures forall x | x in s.threads && Held(s.threads, x) :: Held(Write(s, o, b, thread).threads, x)
  {
    hide HeldOk, ReadyOk, ThreadOk, WaitersOk;
    InNoList(s, {}, c);
    var d := Write(s, o, b, thread);
    forall o2 | 0 <= o2 < |s.objects| && o2 != o
      ensures WaitersOk(d.threads, o2, d.objects[o2])
    {
      WaitersElsewhere(s.threads, c, thread, o2, s.objects[o2]);
    }
    forall i | 0 <= i < |s.lookups|
      ensures LookupOk(d.threads, s.lookups[i])
    {
      assert LookupOk(s.threads, s.lookups[i]) && s.lookups[i].thread != c;
    }
    HeldSame(s.threads, d.threads);
  }

  lemma {:induction false} JoinWaiters<T>(threads: map<T, Thread<T>>, o: nat, b: Object<T>, c: T, b2: Object<T>)
    requires WaitersOk(threads, o, b) && c in threads && threads[c].phase == Running
    requires b2.waiters == b.waiters + [c] && b2.woken == Removed(b.woken, c)
    ensures WaitersOk(threads[c := Thread(Sleeping, Retry(o))], o, b2)
  {
    RemovedOne(b.woken, c);
    hide Removed;
  }

  lemma {:induction false} LeaveLoop<T>(threads: map<T, Thread<T>>, o: nat, b: Object<T>, c: T, b2: Object<T>)
    requires WaitersOk(threads, o, b) && c in threads && threads[c].phase == Running
    requires b2.waiters == b.waiters && b2.woken == Removed(b.woken, c)
    ensures WaitersOk(threads[c := Thread(Running, User)], o, b2)
  {
    RemovedOne(b.woken, c);
    hide Removed;
  }

  /** The threads about to be woken by an unlocker, and the ready ones, do not notice either. */
  lemma {:induction false} WrittenHeld<T>(s: State<T>, o: nat, c: T, b: Object<T>, thread: Thread<T>)
    requires Core(s, {}) && MayWrite(s, o, c) && !thread.place.Waking? && (s.objects[o].Mutex? ==> b.Mutex?)
    requires forall x | x in b.waiters :: x == c || x in s.objects[o].waiters
    ensures HeldOk(Write(s, o, b, thread), {}) && ReadyOk(s.threads[c := thread], s.ready)
  {
    hide WaitersOk, LookupsOk, ThreadOk, IsLooking;
  }

  /** Falling asleep on an object. */
  lemma {:induction false} BlockKeeps<T>(s: State<T>, o: nat, c: T)
    requires Core(s, {}) && MayWrite(s, o, c)
    ensures Core(Block(s, o, c), {})
  {
    hide WaitersOk, LookupsOk, IsLooking, Held, HeldOk, ReadyOk, Removed;
    var b := s.objects[o];
    var b2 := b.(waiters := b.waiters + [c], woken := Removed(b.woken, c));
    WrittenHeld(s, o, c, b2, Thread(Sleeping, Retry(o)));
    JoinWaiters(s.threads, o, b, c, b2);
    Written(s, o, c, b2, Thread(Sleeping, Retry(o)));
  }

  /** Leaving the wait loop of an object, or not having been in it. */
  lemma {:induction false} LeaveKeeps<T>(s: State<T>, o: nat, c: T, b2: Object<T>)
    requires Core(s, {}) && MayWrite(s, o, c)
    requires b2.waiters == s.objects[o].waiters && b2.woken == Removed(s.objects[o].woken, c)
             && (s.objects[o].Mutex? ==> b2.Mutex?)
    ensures Core(Write(s, o, b2, Thread(Running, User)), {})
  {
    hide WaitersOk, LookupsOk, IsLooking, Held, HeldOk, ReadyOk, Removed;
    WrittenHeld(s, o, c, b2, Thread(Running, User));
    LeaveLoop(s.threads, o, s.objects[o], c, b2);
    Written(s, o, c, b2, Thread(Running, User));
  }

  lemma {:induction false} PopWaiter<T>(threads: map<T, Thread<T>>, o: nat, b: Object<T>, b2: Object<T>)
    requires WaitersOk(threads, o, b) && b.waiters != []
    requires b2.waiters == b.waiters[1..] && b2.woken == b.woken + [b.waiters[0]]
    ensures WaitersOk(threads, o, b2)
  {
    DistinctTail(b.waiters);
  }

  lemma {:induction false} NotLooking<T>(s: State<T>, t: T)
    requires LookupsOk(s.threads, s.lookups) && t in s.threads && !s.threads[t].place.LookupRetry?
    ensures !IsLooking(s.lookups, t)
  {
  }

  /** The first waiter of an object, once it is off the list. */
  lemma {:induction false} FirstWaiter<T>(s: State<T>, loose: set<T>, o: nat, b2: Object<T>)
    requires Core(s, loose) && o < |s.objects|
    requires var w := s.objects[o].waiters;
             w != [] && b2.waiters == w[1..] && b2.woken == s.objects[o].woken + [w[0]]
    ensures var t := s.objects[o].waiters[0];
            && t in s.threads && s.threads[t] == Thread(Sleeping, Retry(o)) && t !in b2.waiters
            && !IsLooking(s.lookups, t)
            && (forall x | x in s.objects[o].waiters && x != t :: x in b2.waiters)
            && (forall x | x in b2.waiters :: x in s.objects[o].waiters)
    ensures WaitersOk(s.threads, o, b2)
  {
    hide HeldOk, ReadyOk, ThreadOk;
    var b := s.objects[o];
    assert b.waiters[0] in b.waiters;
    DistinctTail(b.waiters);
    NotLooking(s, b.waiters[0]);
    PopWaiter(s.threads, o, b, b2);
  }

  /** A mutex is released and its first waiter taken off the list; the unlocker will wake it up. */
  lemma {:induction false} ReleaseKeeps<T>(s: State<T>, o: nat, c: T, b2: Object<T>)
    requires Core(s, {}) && MayWrite(s, o, c) && s.threads[c].place == User && s.objects[o].Mutex? && b2.Mutex?
    requires var w := s.objects[o].waiters;
             w != [] && b2.waiters == w[1..] && b2.woken == s.objects[o].woken + [w[0]]
    ensures Core(Write(s, o, b2, Thread(Running, Waking(s.objects[o].waiters[0]))), {})
  {
    hide WaitersOk, LookupsOk, IsLooking, Held;
    var t := s.objects[o].waiters[0];
    var thread := Thread(Running, Waking(t));
    FirstWaiter(s, {}, o, b2);
    WaitersElsewhere(s.threads, c, thread, o, b2);
    Written(s, o, c, b2, thread);
    var d := Write(s, o, b2, thread);
    WakerHolds(d.threads, c, t);
  }

  lemma {:induction false} WakerHolds<T>(threads: map<T, Thread<T>>, u: T, t: T)
    requires u in threads && threads[u].place == Waking(t)
    ensures Held(threads, t)
  {
  }

  /** The first waiter is taken off the list of an object, to be made ready at once. */
  lemma {:induction false} PopKeeps<T>(s: State<T>, o: nat, b2: Object<T>)
    requires Core(s, {}) && o < |s.objects| && (s.objects[o].Mutex? ==> b2.Mutex?)
    requires s.current.Some? ==> s.threads[s.current.value].phase == Running
    requires var w := s.objects[o].waiters;
             w != [] && b2.waiters == w[1..] && b2.woken == s.objects[o].woken + [w[0]]
    ensures Core(s.(objects := s.objects[o := b2]), {s.objects[o].waiters[0]})
  {
    hide WaitersOk, LookupsOk, IsLooking, Held;
    FirstWaiter(s, {}, o, b2);
  }

  /** An object changes but for its lists. */
  lemma {:induction false} ContentKeeps<T>(s: State<T>, o: nat, b2: Object<T>)
    requires Core(s, {}) && o < |s.objects| && (s.objects[o].Mutex? ==> b2.Mutex?)
    requires b2.waiters == s.objects[o].waiters && b2.woken == s.objects[o].woken
    ensures Core(s.(objects := s.objects[o := b2]), {})
  {
    hide LookupsOk, IsLooking, Held;
  }

  /** The current thread takes a record that is not in the loop of an object, and the lookups may change with it. */
  lemma {:induction false} MovedElsewhere<T>(s: State<T>, c: T, thread: Thread<T>)
    requires Core(s, {}) && (c in s.threads ==> !s.threads[c].place.Retry?) && !thread.place.Retry?
    ensures forall o :: 0 <= o < |s.objects| ==> WaitersOk(s.threads[c := thread], o, s.objects[o])
  {
    hide HeldOk, ReadyOk, ThreadOk, WaitersOk, LookupsOk;
    forall o | 0 <= o < |s.objects|
      ensures WaitersOk(s.threads[c := thread], o, s.objects[o])
    {
      WaitersElsewhere(s.threads, c, thread, o, s.objects[o]);
    }
  }

  lemma {:induction false} LookupsElsewhere<T>(threads: map<T, Thread<T>>, lookups: seq<Waiter<T>>, c: T,
      thread: Thread<T>)
    requires LookupsOk(threads, lookups) && !IsLooking(lookups, c)
    ensures LookupsOk(threads[c := thread], lookups)
  {
    forall i | 0 <= i < |lookups|
      ensures LookupOk(threads[c := thread], lookups[i])
    {
      assert LookupOk(threads, lookups[i]) && lookups[i].thread != c;
    }
  }

  lemma {:induction false} HeldByOthers<T>(threads: map<T, Thread<T>>, c: T, thread: Thread<T>, t: T)
    requires c in threads && threads[c].place == Waking(t)
    ensures forall x | x in threads && x != t && Held(threads, x) :: Held(threads[c := thread], x)
  {
    forall x | x in threads && x != t && Held(threads, x)
      ensures Held(threads[c := thread], x)
    {
      var u :| u in threads && threads[u].place == Waking(x);
      assert threads[c := thread][u].place == Waking(x);
    }
  }

  /** The unlocker is done with its bookkeeping and the sleeper is about to be made ready. */
  lemma {:induction false} LetGoKeeps<T>(s: State<T>, c: T, t: T)
    requires Core(s, {}) && s.current == Some(c) && s.threads[c] == Thread(Running, Waking(t))
    ensures Core(s.(threads := s.threads[c := Thread(Running, User)]), {t})
  {
    hide WaitersOk, LookupsOk, IsLooking, Held;
    InNoList(s, {}, c);
    HeldByOthers(s.threads, c, Thread(Running, User), t);
    MovedElsewhere(s, c, Thread(Running, User));
    LookupsElsewhere(s.threads, s.lookups, c, Thread(Running, User));
  }

  /** A new thread. */
  lemma {:induction false} CreateKeeps<T>(s: State<T>, t: T)
    requires Core(s, {}) && t !in s.threads
    ensures Core(s.(threads := s.threads[t := Thread(Created, User)]), {})
  {
    hide WaitersOk, Held;
    MovedElsewhere(s, t, Thread(Created, User));
    HeldSame(s.threads, s.threads[t := Thread(Created, User)]);
  }

  /** A new object. */
  lemma {:induction false} NewObjectKeeps<T>(s: State<T>, b: Object<T>)
    requires Core(s, {}) && b.waiters == [] && b.woken == []
    ensures Core(s.(objects := s.objects + [b]), {})
  {
    hide Held, LookupsOk, IsLooking;
  }

  ghost predicate DistinctThreads<T>(l: seq<Waiter<T>>) {
    forall i, j :: 0 <= i < j < |l| ==> l[i].thread != l[j].thread
  }

  /** A registration splits the waiters into those it keeps and those it wakes up. */
  lemma {:induction false} KeptOrMatching<T>(l: seq<Waiter<T>>, name: string)
    requires DistinctThreads(l)
    ensures DistinctThreads(Kept(l, name)) && Distinct(Matching(l, name))
    ensures forall w | w in Kept(l, name) :: w in l && w.name != name
    ensures forall t | t in Matching(l, name) :: IsLooking(l, t) && !IsLooking(Kept(l, name), t)
    ensures forall t: T :: IsLooking(l, t) ==> t in Matching(l, name) || IsLooking(Kept(l, name), t)
  {
    if l != [] {
      var rest := l[1..];
      KeptOrMatching(rest, name);
      assert l == [l[0]] + rest;
      LookingCons(l[0], rest);
      LookingCons(l[0], Kept(rest, name));
      assert !IsLooking(rest, l[0].thread);
      hide IsLooking;
    }
  }

  lemma {:induction false} LookingCons<T>(w: Waiter<T>, rest: seq<Waiter<T>>)
    ensures forall t: T :: IsLooking([w] + rest, t) <==> t == w.thread || IsLooking(rest, t)
    ensures DistinctThreads([w] + rest) <==> DistinctThreads(rest) && !IsLooking(rest, w.thread)
  {
    var l := [w] + rest;
    assert l[0] == w && forall i :: 0 <= i < |rest| ==> rest[i] == l[i + 1];
  }

  /** A registration takes its waiters off the list, to be made ready at once. */
  lemma {:induction false} DropKeeps<T>(s: State<T>, name: string, loose: set<T>)
    requires Core(s, {}) && (s.current.Some? ==> s.threads[s.current.value].phase == Running)
    requires loose == set t | t in Matching(s.lookups, name)
    ensures Core(s.(lookups := Kept(s.lookups, name)), loose) && Distinct(Matching(s.lookups, name))
  {
    hide WaitersOk, Held, Kept, Matching, Distinct;
    KeptOrMatching(s.lookups, name);
    var d := s.(lookups := Kept(s.lookups, name));
    forall i | 0 <= i < |d.lookups|
      ensures LookupOk(d.threads, d.lookups[i]) && d.lookups[i] in s.lookups
    {
      assert d.lookups[i] in d.lookups;
    }
    assert forall x: T :: IsLooking(d.lookups, x) ==> IsLooking(s.lookups, x);
  }

  lemma {:induction false} Known<T>(s: State<T>, loose: set<T>, t: T)
    requires Core(s, loose) && (t in loose || s.current == Some(t))
    ensures t in s.threads && (t in loose ==> s.current != Some(t))
  {
    assert t in loose ==> Loose(s, t);
  }

  lemma {:induction false} WakeAllKeeps<T>(s: State<T>, loose: set<T>, l: seq<T>)
    requires Core(s, loose) && Distinct(l) && (forall t | t in l :: t in loose)
    ensures Core(WakeAll(s, l), loose - set t | t in l)
    ensures var d := WakeAll(s, l);
            && d.objects == s.objects && d.current == s.current && d.panicked == s.panicked
            && d.lookups == s.lookups && d.servers == s.servers && d.ready == s.ready + l
            && (d.current.Some? ==> d.threads[d.current.value].phase == s.threads[d.current.value].phase)
    decreases |l|
  {
    hide Loose, HeldOk, ThreadOk, LookupsOk, WaitersOk, ReadyOk;
    if l != [] {
      assert l == [l[0]] + l[1..];
      AddReadyKeeps(s, loose, l[0]);
      Known(s, loose, l[0]);
      WakeAllKeeps(AddReady(s, l[0]), loose - {l[0]}, l[1..]);
      assert loose - {l[0]} - (set t | t in l[1..]) == loose - set t | t in l;
      assert s.ready + [l[0]] + l[1..] == s.ready + l;
    } else {
      assert loose - (set t | t in l) == loose;
    }
  }

  /** The current thread joins the waiters of the registry and falls asleep. */
  lemma {:induction false} LookupBlockKeeps<T>(s: State<T>, name: string, c: T)
    requires Core(s, {}) && s.current == Some(c) && s.threads[c].phase == Running
    requires s.threads[c].place == User || s.threads[c].place == LookupRetry(name)
    ensures Core(s.(lookups := [Waiter(Stored(name), c)] + s.lookups,
                    threads := s.threads[c := Thread(Sleeping, LookupRetry(name))]), {})
  {
    hide WaitersOk, Held, IsLooking;
    var thread := Thread(Sleeping, LookupRetry(name));
    InNoList(s, {}, c);
    MovedElsewhere(s, c, thread);
    HeldSame(s.threads, s.threads[c := thread]);
    LookupsElsewhere(s.threads, s.lookups, c, thread);
    LookingCons(Waiter(Stored(name), c), s.lookups);
  }

  /** The current thread leaves the lookup. */
  lemma {:induction false} LookupLeaveKeeps<T>(s: State<T>, c: T)
    requires Core(s, {}) && s.current == Some(c) && s.threads[c].phase == Running
    requires s.threads[c].place == User || s.threads[c].place.LookupRetry?
    ensures Core(s.(threads := s.threads[c := Thread(Running, User)]), {})
  {
    hide WaitersOk, Held, IsLooking, LookupsOk;
    var thread := Thread(Running, User);
    InNoList(s, {}, c);
    MovedElsewhere(s, c, thread);
    HeldSame(s.threads, s.threads[c := thread]);
    LookupsElsewhere(s.threads, s.lookups, c, thread);
  }

  /** `sched_next` never sees a thread in an invalid state. */
  lemma {:induction false} NextKeeps<T>(s: State<T>)
    requires Core(s, {}) && ObjectsOk(s) && !s.panicked
    requires s.current.Some? ==>
             s.threads[s.current.value].phase == Running || s.threads[s.current.value].phase == Sleeping
    ensures Inv(Next(s))
  {
    hide ReadyOk, LookupsOk, HeldOk, WaitersOk, ThreadOk, Loose;
    if s.current.Some? && s.threads[s.current.value].phase == Running {
      YieldKeeps(s, {}, s.current.value);
      DispatchKeeps(AddReady(s, s.current.value), {});
    } else {
      DispatchKeeps(s, {});
    }
  }

  // ---------------------------------------------------------------------------------------------- every step

  lemma {:induction false} LockKeeps<T>(s: State<T>, o: nat, c: T)
    requires Inv(s) && s.current == Some(c) && (s.threads[c].place == User || s.threads[c].place == Retry(o))
    ensures Inv(LockStep(s, o, c))
  {
    hide Core, Removed;
    Known(s, {}, c);
    if o < |s.objects| && s.objects[o].Mutex? {
      var b := s.objects[o];
      if b.locker.Some? {
        BlockKeeps(s, o, c);
        NextKeeps(Block(s, o, c));
      } else {
        LeaveKeeps(s, o, c, b.(locker := Some(c), inside := b.inside + {c}, woken := Removed(b.woken, c)));
      }
    }
  }

  lemma {:induction false} UnlockKeeps<T>(s: State<T>, o: nat, c: T)
    requires Inv(s) && s.current == Some(c) && c in s.threads && s.threads[c].place == User
    ensures Inv(UnlockStep(s, o, c))
  {
    hide Core, Removed;
    if o < |s.objects| && s.objects[o].Mutex? {
      var b := s.objects[o].(locker := None, inside := s.objects[o].inside - {c});
      if b.waiters == [] {
        AtHome(s, o, c);
        LeaveKeeps(s, o, c, b);
      } else {
        ReleaseKeeps(s, o, c, Popped(b));
      }
    }
  }

  lemma {:induction false} AtHome<T>(s: State<T>, o: nat, c: T)
    requires Core(s, {}) && c in s.threads && s.threads[c].place == User && o < |s.objects|
    ensures Removed(s.objects[o].woken, c) == s.objects[o].woken
  {
    assert WaitersOk(s.threads, o, s.objects[o]);
    RemovedAbsent(s.objects[o].woken, c);
  }

  lemma {:induction false} WakeKeeps<T>(s: State<T>, c: T, t: T)
    requires Inv(s) && s.current == Some(c) && c in s.threads && s.threads[c].place == Waking(t)
    ensures Inv(WakeStep(s, c, t))
  {
    hide Core;
    LetGoKeeps(s, c, t);
    AddReadyAlone(s.(threads := s.threads[c := Thread(Running, User)]), t);
  }

  lemma {:induction false} SendKeeps<T>(s: State<T>, o: nat, message: Message, memory: bool)
    requires Inv(s)
    ensures Inv(SendStep(s, o, message, memory))
  {
    hide Core;
    if o < |s.objects| && s.objects[o].Port? && memory {
      var b := s.objects[o].(messages := s.objects[o].messages + [message], sent := s.objects[o].sent + [message]);
      var d := s.(objects := s.objects[o := Popped(b)]);
      if b.waiters == [] {
        ContentKeeps(s, o, b);
      } else {
        PopKeeps(s, o, Popped(b));
        AddReadyAlone(d, b.waiters[0]);
      }
    }
  }

  lemma {:induction false} ReceiveKeeps<T>(s: State<T>, o: nat, c: T)
    requires Inv(s) && s.current == Some(c) && c in s.threads
             && (s.threads[c].place == User || s.threads[c].place == Retry(o))
    ensures Inv(ReceiveStep(s, o, c))
  {
    hide Core, Removed;
    if o < |s.objects| && s.objects[o].Port? {
      var b := s.objects[o];
      if b.messages == [] {
        BlockKeeps(s, o, c);
        NextKeeps(Block(s, o, c));
      } else {
        RemovedLength(b.woken, c);
        LeaveKeeps(s, o, c,
          b.(messages := b.messages[1..], received := b.received + [b.messages[0]], woken := Removed(b.woken, c)));
      }
    }
  }

  lemma {:induction false} RegisterKeeps<T>(s: State<T>, name: string, port: int, memory: bool)
    requires Inv(s)
    ensures Inv(RegisterStep(s, name, port, memory))
  {
    hide Core;
    if memory {
      var l := Matching(s.lookups, name);
      var loose := set t | t in l;
      DropKeeps(s, name, loose);
      var d := s.(servers := s.servers[Stored(name) := port], lookups := Kept(s.lookups, name));
      ServersDoNotMatter(s.(lookups := Kept(s.lookups, name)), d, loose);
      WakeAllKeeps(d, loose, l);
      assert loose - (set t | t in l) == {};
    }
  }

  lemma {:induction false} ServersDoNotMatter<T>(s: State<T>, d: State<T>, loose: set<T>)
    requires Core(s, loose) && d == s.(servers := d.servers)
    ensures Core(d, loose)
  {
    hide WaitersOk, LookupsOk, ReadyOk, Held, IsLooking;
  }

  lemma {:induction false} LookupKeeps<T>(s: State<T>, name: string, wait: bool, memory: bool, c: T)
    requires Inv(s) && s.current == Some(c) && c in s.threads
    requires s.threads[c].place == User || s.threads[c].place == LookupRetry(name)
    ensures Inv(LookupStep(s, name, wait, memory, c))
  {
    hide Core;
    if name in s.servers || !wait || !memory {
      LookupLeaveKeeps(s, c);
    } else {
      LookupBlockKeeps(s, name, c);
      NextKeeps(s.(lookups := [Waiter(Stored(name), c)] + s.lookups,
                   threads := s.threads[c := Thread(Sleeping, LookupRetry(name))]));
    }
  }

  /** A thread that was created and not yet started. */
  lemma {:induction false} StartKeeps<T>(s: State<T>, t: T)
    requires Inv(s) && t in s.threads && s.threads[t].phase == Created
    ensures Inv(AddReady(s, t))
  {
    hide Core;
    CreatedIsLoose(s, t);
    AddReadyAlone(s, t);
  }

  lemma {:induction false} CreatedIsLoose<T>(s: State<T>, t: T)
    requires Inv(s) && t in s.threads && s.threads[t].phase == Created
    ensures Core(s, {t})
  {
    hide WaitersOk, Held, ReadyOk;
    InNoList(s, {}, t);
  }

  /** Every step, taken at any moment, keeps the invariant. */
  lemma {:induction false} StepKeeps<T>(s: State<T>, l: Label<T>)
    requires Inv(s)
    ensures Inv(Step(s, l))
  {
    hide Core;
    if s.current.Some? {
      CurrentIsKnown(s, s.current.value);
    }
    match l
    case Preempt => NextKeeps(s);
    case Create(t) => if t !in s.threads { CreateKeeps(s, t); }
    case Start(t) => if t in s.threads && s.threads[t].phase == Created { StartKeeps(s, t); }
    case NewMutex => NewObjectKeeps(s, Mutex([], [], None, {}));
    case NewPort => NewObjectKeeps(s, Port([], [], [], [], []));
    case Send(o, message, memory) => SendKeeps(s, o, message, memory);
    case _ =>
      if s.current.Some? {
        ThreadStepKeeps(s, l, s.current.value);
      }
  }

  lemma {:induction false} ThreadStepKeeps<T>(s: State<T>, l: Label<T>, c: T)
    requires Inv(s) && s.current == Some(c)
    ensures c in s.threads && Inv(ThreadStep(s, l, c))
  {
    hide Inv, LockStep, UnlockStep, WakeStep, ReceiveStep, RegisterStep, LookupStep;
    CurrentIsKnown(s, c);
    var place := s.threads[c].place;
    match l
    case Lock(o) => if place == User || place == Retry(o) { LockKeeps(s, o, c); }
    case Unlock(o) => if place == User { UnlockKeeps(s, o, c); }
    case WakeUp => if place.Waking? { WakeKeeps(s, c, place.sleeper); }
    case Receive(o) => if place == User || place == Retry(o) { ReceiveKeeps(s, o, c); }
    case Register(name, port, memory) => if place == User { RegisterKeeps(s, name, port, memory); }
    case Lookup(name, wait, memory) =>
      if place == User { LookupKeeps(s, name, wait, memory, c); }
      else if place == LookupRetry(name) { LookupKeeps(s, name, true, memory, c); }
    case _ =>
  }

  lemma {:induction false} CurrentIsKnown<T>(s: State<T>, c: T)
    requires Inv(s) && s.current == Some(c)
    ensures c in s.threads
  {
    Known(s, {}, c);
  }

  /** The invariant holds after every run from boot, whatever the threads do and however they are interleaved. */
  lemma {:induction false} EveryRun<T>(labels: seq<Label<T>>)
    ensures Inv(Run(Boot(), labels))
  {
    RunKeeps(Boot(), labels);
  }

  lemma {:induction false} RunKeeps<T>(s: State<T>, labels: seq<Label<T>>)
    requires Inv(s)
    ensures Inv(Run(s, labels))
    decreases |labels|
  {
    hide Inv, Step;
    if labels != [] {
      StepKeeps(s, labels[0]);
      RunKeeps(Step(s, labels[0]), labels[1..]);
    }
  }
}
