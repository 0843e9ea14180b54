/** What the invariant of the thread machine means for threads, messages, locks and the server registry. */
module Guarantees {
  import opened Options
  import opened Seqs
  import opened Machine

  // ---------------------------------------------------------------------------------------------- threads

  /** The places a thread can be in. */
  datatype Whereabouts = OnCpu | InReadyQueue | WaitingOn(o: nat) | InRegistry | AboutToBeWoken | NotStarted

  ghost predicate IsAt<T>(s: State<T>, w: Whereabouts, x: T) {
    match w
    case OnCpu => s.current == Some(x)
    case InReadyQueue => x in s.ready
    case WaitingOn(o) => o < |s.objects| && x in s.objects[o].waiters
    case InRegistry => IsLooking(s.lookups, x)
    case AboutToBeWoken => Held(s.threads, x)
    case NotStarted => x in s.threads && s.threads[x].phase == Created
  }

  /** The one place of a thread. */
  ghost function Home<T>(s: State<T>, x: T): Whereabouts
    requires x in s.threads
  {
    match s.threads[x].phase
    case Created => NotStarted
    case Running => OnCpu
    case Ready => InReadyQueue
    case _ =>
      match s.threads[x].place
      case Retry(o) => if o < |s.objects| && x in s.objects[o].waiters then WaitingOn(o) else AboutToBeWoken
      case _ => InRegistry
  }

  lemma {:induction false} IsAtHome<T>(s: State<T>, x: T)
    requires Inv(s) && x in s.threads
    ensures forall w :: IsAt(s, w, x) <==> w == Home(s, x)
  {
    assert ThreadOk(s, {}, x);
    forall w | IsAt(s, w, x)
      ensures w == Home(s, x)
    {
      PlaceIsHome(s, x, w);
    }
  }

  lemma {:induction false} PlaceIsHome<T>(s: State<T>, x: T, w: Whereabouts)
    requires Inv(s) && x in s.threads && IsAt(s, w, x)
    ensures w == Home(s, x)
  {
    match w
    case WaitingOn(o) => assert WaitersOk(s.threads, o, s.objects[o]);
    case AboutToBeWoken => HeldIsLoose(s, x);
    case InRegistry =>
      var i :| 0 <= i < |s.lookups| && s.lookups[i].thread == x;
      assert LookupOk(s.threads, s.lookups[i]);
    case _ =>
  }

  lemma {:induction false} HeldIsLoose<T>(s: State<T>, x: T)
    requires Inv(s) && Held(s.threads, x)
    ensures Loose(s, x) && s.threads[x].phase == Sleeping && s.threads[x].place.Retry?
  {
    hide WaitersOk, LookupsOk, ReadyOk, ThreadOk;
    var u :| u in s.threads && s.threads[u].place == Waking(x);
  }

  lemma {:induction false} QueuesOf<T>(s: State<T>)
    requires Inv(s)
    ensures Distinct(s.ready) && (forall o :: 0 <= o < |s.objects| ==> Distinct(s.objects[o].waiters))
    ensures forall x | x in s.threads :: x in s.ready <==> s.threads[x].phase == Ready
    ensures forall x | x in s.threads :: s.current == Some(x) <==> s.threads[x].phase == Running
    ensures !s.panicked
  {
    forall x | x in s.threads
      ensures (x in s.ready <==> s.threads[x].phase == Ready)
              && (s.current == Some(x) <==> s.threads[x].phase == Running)
    {
      assert ThreadOk(s, {}, x);
    }
    forall o | 0 <= o < |s.objects|
      ensures Distinct(s.objects[o].waiters)
    {
      assert WaitersOk(s.threads, o, s.objects[o]);
    }
  }

  // ---------------------------------------------------------------------------------------------- wake-ups

  /** `x` gets to run without anybody's help but the scheduler's. */
  ghost predicate OnItsWay<T>(s: State<T>, x: T) {
    s.current == Some(x) || x in s.ready
  }

  ghost predicate UnlockerOnItsWay<T>(s: State<T>, x: T) {
    exists u :: u in s.threads && s.threads[u].place == Waking(x) && OnItsWay(s, u)
  }

  lemma {:induction false} WokenMoves<T>(s: State<T>, o: nat, x: T)
    requires Inv(s) && o < |s.objects| && x in s.objects[o].woken
    ensures OnItsWay(s, x) || (!s.objects[o].Port? && UnlockerOnItsWay(s, x))
  {
    assert WaitersOk(s.threads, o, s.objects[o]);
    assert ThreadOk(s, {}, x);
    if s.threads[x].phase == Sleeping {
      var u :| u in s.threads && s.threads[u].place == Waking(x);
      assert ThreadOk(s, {}, u);
    }
  }

  lemma {:induction false} LockerOnItsWay<T>(s: State<T>, o: nat)
    requires Inv(s) && o < |s.objects| && s.objects[o].Mutex? && s.objects[o].waiters != [] && s.objects[o].locker.None?
    ensures exists x :: x in s.objects[o].woken && (OnItsWay(s, x) || UnlockerOnItsWay(s, x))
  {
    assert ObjectOk(s.objects[o]);
    var x := s.objects[o].woken[0];
    assert x in s.objects[o].woken;
    WokenMoves(s, o, x);
  }

  lemma {:induction false} ReceiversOnTheirWay<T>(s: State<T>, o: nat)
    requires Inv(s) && o < |s.objects| && s.objects[o].Port? && s.objects[o].waiters != []
    ensures var b := s.objects[o];
            && |b.messages| <= |b.woken| && Distinct(b.woken)
            && forall x | x in b.woken :: OnItsWay(s, x) && x in s.threads && s.threads[x].place == Retry(o)
  {
    assert ObjectOk(s.objects[o]) && WaitersOk(s.threads, o, s.objects[o]);
    forall x | x in s.objects[o].woken
      ensures OnItsWay(s, x)
    {
      WokenMoves(s, o, x);
    }
  }

  // ---------------------------------------------------------------------------------------------- objects in a step

  ghost predicate Continues<T>(b: Object<T>, b2: Object<T>) {
    && b.Port? == b2.Port?
    && (b.Port? ==> b.sent <= b2.sent && b.received <= b2.received)
  }

  /** The first waiter left, or the current thread joined at the end, or neither. */
  ghost predicate InTurn<T>(w: seq<T>, w2: seq<T>, current: Option<T>) {
    w2 == w || (w != [] && w2 == w[1..]) || (current.Some? && w2 == w + [current.value])
  }

  ghost predicate Moves<T>(s: State<T>, d: State<T>) {
    && |s.objects| <= |d.objects|
    && forall o :: 0 <= o < |s.objects| ==>
         Continues(s.objects[o], d.objects[o]) && InTurn(s.objects[o].waiters, d.objects[o].waiters, s.current)
  }

  lemma {:induction false} WakeAllObjects<T>(s: State<T>, l: seq<T>)
    ensures WakeAll(s, l).objects == s.objects
    decreases |l|
  {
    if l != [] {
      WakeAllObjects(AddReady(s, l[0]), l[1..]);
    }
  }

  lemma {:induction false} NextObjects<T>(s: State<T>)
    ensures Next(s).objects == s.objects && Next(s).lookups == s.lookups && Next(s).servers == s.servers
  {
    hide Dispatch, AddReady;
    DispatchObjects(s);
    DispatchObjects(s.(panicked := true));
    if s.current.Some? {
      DispatchObjects(AddReady(s, s.current.value));
      AddReadyObjects(s, s.current.value);
    }
  }

  lemma {:induction false} DispatchObjects<T>(s: State<T>)
    ensures Dispatch(s).objects == s.objects && Dispatch(s).lookups == s.lookups && Dispatch(s).servers == s.servers
  {
  }

  lemma {:induction false} AddReadyObjects<T>(s: State<T>, t: T)
    ensures AddReady(s, t).objects == s.objects && AddReady(s, t).lookups == s.lookups
            && AddReady(s, t).servers == s.servers
  {
  }

  lemma {:induction false} BlockMoves<T>(s: State<T>, o: nat, c: T)
    requires s.current == Some(c)
    ensures Moves(s, Next(Block(s, o, c)))
  {
    hide Next, Removed;
    NextObjects(Block(s, o, c));
  }

  lemma {:induction false} LockMoves<T>(s: State<T>, o: nat, c: T)
    requires s.current == Some(c)
    ensures Moves(s, LockStep(s, o, c))
  {
    hide Next, Block, Removed;
    BlockMoves(s, o, c);
  }

  lemma {:induction false} ReceiveMoves<T>(s: State<T>, o: nat, c: T)
    requires s.current == Some(c)
    ensures Moves(s, ReceiveStep(s, o, c))
  {
    hide Next, Block, Removed;
    BlockMoves(s, o, c);
  }

  lemma {:induction false} ThreadStepMoves<T>(s: State<T>, l: Label<T>, c: T)
    requires c in s.threads && s.current == Some(c)
    ensures Moves(s, ThreadStep(s, l, c))
  {
    hide Next, LockStep, ReceiveStep, WakeAll;
    match l
    case Lock(o) => LockMoves(s, o, c);
    case Receive(o) => ReceiveMoves(s, o, c);
    case Lookup(name, _, _) =>
      NextObjects(s.(lookups := [Waiter(Stored(name), c)] + s.lookups,
                     threads := s.threads[c := Thread(Sleeping, LookupRetry(name))]));
    case Register(name, port, _) =>
      WakeAllObjects(s.(servers := s.servers[Stored(name) := port], lookups := Kept(s.lookups, name)),
                     Matching(s.lookups, name));
    case _ =>
  }

  lemma {:induction false} StepMoves<T>(s: State<T>, l: Label<T>)
    ensures Moves(s, Step(s, l))
  {
    hide Next, ThreadStep;
    NextObjects(s);
    if s.current.Some? && s.current.value in s.threads {
      ThreadStepMoves(s, l, s.current.value);
    }
  }

  /** In every step, the waiters of an object are served in the order in which they came. */
  lemma {:induction false} WaitersAreFifo<T>(s: State<T>, l: Label<T>, o: nat)
    requires o < |s.objects|
    ensures o < |Step(s, l).objects|
    ensures var w, w2 := s.objects[o].waiters, Step(s, l).objects[o].waiters;
            w2 == w || (w != [] && w2 == w[1..]) || (s.current.Some? && w2 == w + [s.current.value])
  {
    hide Step;
    StepMoves(s, l);
  }

  // ---------------------------------------------------------------------------------------------- mutual exclusion

  /** Only the recorded owner is between lock and unlock. */
  ghost predicate Exclusive<T>(b: Object<T>) {
    b.Mutex? ==> b.inside == if b.locker.Some? then {b.locker.value} else {}
  }

  ghost predicate AllExclusive<T>(s: State<T>) {
    forall o :: 0 <= o < |s.objects| ==> Exclusive(s.objects[o])
  }

  /** The step releases no mutex that another thread holds. */
  ghost predicate ByOwner<T>(s: State<T>, l: Label<T>) {
    l.Unlock? && l.at < |s.objects| && s.objects[l.at].Mutex? && s.objects[l.at].locker.Some?
    ==> s.objects[l.at].locker == s.current
  }

  /** No step of the run releases a mutex that another thread holds. */
  ghost predicate OwnersUnlock<T>(s: State<T>, labels: seq<Label<T>>)
    decreases |labels|
  {
    labels == [] || (ByOwner(s, labels[0]) && OwnersUnlock(Step(s, labels[0]), labels[1..]))
  }

  lemma {:induction false} ThreadStepExclusive<T>(s: State<T>, l: Label<T>, c: T)
    requires c in s.threads && s.current == Some(c) && AllExclusive(s) && ByOwner(s, l)
    ensures AllExclusive(ThreadStep(s, l, c))
  {
    hide Next, Removed, WakeAll;
    match l
    case Lock(o) => NextObjects(Block(s, o, c));
    case Receive(o) => NextObjects(Block(s, o, c));
    case Lookup(name, _, _) =>
      NextObjects(s.(lookups := [Waiter(Stored(name), c)] + s.lookups,
                     threads := s.threads[c := Thread(Sleeping, LookupRetry(name))]));
    case Register(name, port, _) =>
      WakeAllObjects(s.(servers := s.servers[Stored(name) := port], lookups := Kept(s.lookups, name)),
                     Matching(s.lookups, name));
    case _ =>
  }

  lemma {:induction false} StepExclusive<T>(s: State<T>, l: Label<T>)
    requires AllExclusive(s) && ByOwner(s, l)
    ensures AllExclusive(Step(s, l))
  {
    hide Next, ThreadStep;
    NextObjects(s);
    if s.current.Some? && s.current.value in s.threads {
      ThreadStepExclusive(s, l, s.current.value);
    }
  }

  lemma {:induction false} RunExclusive<T>(s: State<T>, labels: seq<Label<T>>)
    requires AllExclusive(s) && OwnersUnlock(s, labels)
    ensures AllExclusive(Run(s, labels))
    decreases |labels|
  {
    hide Step, ByOwner, AllExclusive;
    if labels != [] {
      StepExclusive(s, labels[0]);
      RunExclusive(Step(s, labels[0]), labels[1..]);
    }
  }

  /** An unlock leaves only the recorded owner inside exactly when no other thread held the mutex. */
  lemma {:induction false} UnlockExclusive<T>(s: State<T>, o: nat, c: T)
    requires c in s.threads && s.threads[c].place == User && s.current == Some(c)
    requires o < |s.objects| && s.objects[o].Mutex? && Exclusive(s.objects[o])
    ensures |Step(s, Unlock(o)).objects| == |s.objects|
    ensures Exclusive(Step(s, Unlock(o)).objects[o]) <==> ByOwner(s, Unlock(o))
  {
    hide Next;
    var b := s.objects[o];
    if b.locker.Some? && b.locker.value != c {
      assert b.locker.value in b.inside - {c};
    }
  }

  lemma {:induction false} RunTwo<T>(s: State<T>, l: Label<T>, m: Label<T>)
    ensures Run(s, [l, m]) == Step(Step(s, l), m)
  {
    hide Step;
    assert [l, m][1..] == [m] && [m][1..] == [];
    assert Run(Step(s, l), [m]) == Run(Step(Step(s, l), m), []);
  }

  /** A thread that unlocks another's mutex and then locks it is inside together with the owner. */
  lemma {:induction false} StrayUnlock<T>(s: State<T>, o: nat, c: T, owner: T)
    requires c in s.threads && s.threads[c].place == User && s.current == Some(c) && c != owner
    requires o < |s.objects| && s.objects[o] == Mutex([], [], Some(owner), {owner})
    ensures |Run(s, [Unlock(o), Lock(o)]).objects| == |s.objects|
    ensures Run(s, [Unlock(o), Lock(o)]).objects[o].Mutex?
            && Run(s, [Unlock(o), Lock(o)]).objects[o].inside == {owner, c}
  {
    hide Next, Block;
    var d := Step(s, Unlock(o));
    assert d.objects[o] == Mutex([], [], None, {owner});
    RunTwo(s, Unlock(o), Lock(o));
  }

  const TWO_THREADS: seq<Label<nat>> := [Create(0), Create(1), Start(0), Start(1), NewMutex]

  lemma {:induction false} TwoThreads()
    ensures After(TWO_THREADS) ==
            State(map[0 := Thread(Ready, User), 1 := Thread(Ready, User)], None, [0, 1],
                  [Mutex([], [], None, {})], [], map[], false)
  {
    var s1 := Step(Boot<nat>(), Create(0));
    var s2 := Step(s1, Create(1));
    var s3 := Step(s2, Start(0));
    var s4 := Step(s3, Start(1));
    var s5 := Step(s4, NewMutex);
    assert s5.threads == map[0 := Thread(Ready, User), 1 := Thread(Ready, User)];
    assert Run(s5, []) == s5 && Run(s4, [NewMutex]) == s5 && Run(s3, [Start(1), NewMutex]) == s5;
    assert Run(s2, [Start(0), Start(1), NewMutex]) == s5;
    assert Run(s1, [Create(1), Start(0), Start(1), NewMutex]) == s5;
  }

  /** The first thread locks the mutex and is preempted. */
  lemma {:induction false} Contended(s: State<nat>)
    requires s.threads == map[0 := Thread(Ready, User), 1 := Thread(Ready, User)] && s.current == None
             && s.ready == [0, 1]
    requires s.objects == [Mutex([], [], None, {})]
    ensures var d := Run(s, [Preempt, Lock(0), Preempt]);
            && d.current == Some(1) && 1 in d.threads && d.threads[1].place == User
            && d.objects == [Mutex([], [], Some(0), {0})]
  {
    var s1 := Step(s, Preempt);
    var s2 := Step(s1, Lock(0));
    var s3 := Step(s2, Preempt);
    assert s1.threads[0] == Thread(Running, User) && s1.threads[1] == Thread(Ready, User) && s1.ready == [1];
    assert s1.objects[0].inside + {0} == {0} && s2.objects[0] == Mutex([], [], Some(0), {0});
    assert s2.objects == [Mutex([], [], Some(0), {0})] && s2.current == Some(0) && s2.ready == [1];
    assert s3.objects == s2.objects && s3.current == Some(1);
    var last: seq<Label<nat>> := [Preempt];
    RunConcat(s, [Preempt, Lock(0)], last);
    assert [Preempt, Lock(0)] + last == [Preempt, Lock(0), Preempt] && last[1..] == [];
    assert Run(s2, last) == Run(s3, []);
    RunTwo(s, Preempt, Lock(0));
  }

  /** A run from boot after which two threads are inside: the second one unlocks what the first one holds. */
  lemma {:induction false} StrayUnlockBreaks()
    ensures var s := After(TWO_THREADS + [Preempt, Lock(0), Preempt] + [Unlock(0), Lock(0)]);
            |s.objects| == 1 && s.objects[0].Mutex? && s.objects[0].inside == {0, 1}
  {
    hide Run, Step;
    TwoThreads();
    var s := After(TWO_THREADS);
    Contended(s);
    RunConcat(Boot<nat>(), TWO_THREADS, [Preempt, Lock(0), Preempt]);
    RunConcat(Boot<nat>(), TWO_THREADS + [Preempt, Lock(0), Preempt], [Unlock(0), Lock(0)]);
    StrayUnlock(Run(s, [Preempt, Lock(0), Preempt]), 0, 1, 0);
  }

  // ---------------------------------------------------------------------------------------------- messages

  lemma {:induction false} RunContinues<T>(s: State<T>, labels: seq<Label<T>>, o: nat)
    requires o < |s.objects|
    ensures o < |Run(s, labels).objects| && Continues(s.objects[o], Run(s, labels).objects[o])
    decreases |labels|
  {
    hide Step;
    if labels != [] {
      StepMoves(s, labels[0]);
      RunContinues(Step(s, labels[0]), labels[1..], o);
    }
  }

  lemma {:induction false} InOrderOnce<T>(s: State<T>, labels: seq<Label<T>>, o: nat)
    requires Inv(s) && o < |s.objects| && s.objects[o].Port?
    ensures o < |Run(s, labels).objects| && Run(s, labels).objects[o].Port?
    ensures var b, b2 := s.objects[o], Run(s, labels).objects[o];
            && b2.sent == b2.received + b2.messages && b.sent <= b2.sent && b.received <= b2.received
  {
    hide Inv, Run;
    RunContinues(s, labels, o);
    RunKeeps(s, labels);
    InvObject(Run(s, labels), o);
  }

  lemma {:induction false} InvObject<T>(s: State<T>, o: nat)
    requires Inv(s) && o < |s.objects|
    ensures ObjectOk(s.objects[o])
  {
  }

  // ---------------------------------------------------------------------------------------------- waiting time

  /** The step enters the scheduler. */
  ghost predicate Switches<T>(s: State<T>, l: Label<T>) {
    match l
    case Preempt => true
    case Lock(o) => Enters(s, Retry(o)) && o < |s.objects| && s.objects[o].Mutex? && s.objects[o].locker.Some?
    case Receive(o) => Enters(s, Retry(o)) && o < |s.objects| && s.objects[o].Port? && s.objects[o].messages == []
    case Lookup(name, wait, memory) =>
      Enters(s, LookupRetry(name)) && name !in s.servers && memory && (wait || s.threads[s.current.value].place != User)
    case _ => false
  }

  ghost predicate Enters<T>(s: State<T>, loop: Place<T>) {
    && s.current.Some? && s.current.value in s.threads
    && (s.threads[s.current.value].place == User || s.threads[s.current.value].place == loop)
  }

  ghost function Switched<T>(s: State<T>, labels: seq<Label<T>>): nat
    decreases |labels|
  {
    if labels == [] then 0 else (if Switches(s, labels[0]) then 1 else 0) + Switched(Step(s, labels[0]), labels[1..])
  }

  /** The threads that can run next: the ready ones, and behind them a thread that is preempted. */
  ghost function Runnable<T>(s: State<T>, l: Label<T>): seq<T> {
    if l.Preempt? && s.current.Some? then s.ready + [s.current.value] else s.ready
  }

  /**
   * Entering the scheduler runs the first thread that can run, and the idle thread only when there is none; so a thread
   * that is preempted alone goes on. Any other step only adds to the end of the ready queue.
   */
  lemma {:induction false} ReadyMoves<T>(s: State<T>, l: Label<T>)
    requires Inv(s)
    ensures var d := Step(s, l);
            if Switches(s, l) then
              if Runnable(s, l) == [] then d.current == None && d.ready == []
              else d.current == Some(Runnable(s, l)[0]) && d.ready == Runnable(s, l)[1..]
            else d.current == s.current && s.ready <= d.ready
  {
    hide Core, Removed;
    if s.current.Some? {
      CurrentIsKnown(s, s.current.value);
    }
    if s.ready != [] {
      HeadIsKnown(s);
    }
    if l.Register? {
      var d := s.(servers := s.servers[Stored(l.name) := l.port], lookups := Kept(s.lookups, l.name));
      WakeAllOrder(d, Matching(s.lookups, l.name));
    }
  }

  lemma {:induction false} HeadIsKnown<T>(s: State<T>)
    requires Inv(s) && s.ready != []
    ensures s.ready[0] in s.threads && s.threads[s.ready[0]].phase == Ready
  {
    assert s.ready[0] in s.ready;
  }

  lemma {:induction false} WakeAllOrder<T>(s: State<T>, l: seq<T>)
    ensures WakeAll(s, l).current == s.current && s.ready <= WakeAll(s, l).ready
    decreases |l|
  {
    if l != [] {
      WakeAllOrder(AddReady(s, l[0]), l[1..]);
    }
  }

  lemma {:induction false} RunsInTurn<T>(s: State<T>, labels: seq<Label<T>>, k: nat)
    requires Inv(s) && k < |s.ready|
    ensures var n := Switched(s, labels);
            var d := Run(s, labels);
            && (n <= k ==> k - n < |d.ready| && d.ready[k - n] == s.ready[k])
            && (n == k + 1 ==> d.current == Some(s.ready[k]))
    decreases |labels|
  {
    hide Inv, Step, Switches;
    if labels != [] {
      var d := Step(s, labels[0]);
      StepKeeps(s, labels[0]);
      ReadyMoves(s, labels[0]);
      if !Switches(s, labels[0]) {
        RunsInTurn(d, labels[1..], k);
      } else if k > 0 {
        assert d.ready[k - 1] == s.ready[1..][k - 1];
        RunsInTurn(d, labels[1..], k - 1);
      } else {
        StaysCurrent(d, labels[1..]);
      }
    }
  }

  lemma {:induction false} StaysCurrent<T>(s: State<T>, labels: seq<Label<T>>)
    requires Inv(s)
    ensures Switched(s, labels) == 0 ==> Run(s, labels).current == s.current
    decreases |labels|
  {
    hide Inv, Step, Switches;
    if labels != [] {
      StepKeeps(s, labels[0]);
      ReadyMoves(s, labels[0]);
      StaysCurrent(Step(s, labels[0]), labels[1..]);
    }
  }

  // ---------------------------------------------------------------------------------------------- the registry

  /** No thread waits for a name that is registered. */
  ghost predicate Served<T>(s: State<T>) {
    forall i :: 0 <= i < |s.lookups| ==> s.lookups[i].name !in s.servers
  }

  ghost predicate IsListed<T>(l: seq<Waiter<T>>, name: string) {
    exists i :: 0 <= i < |l| && l[i].name == name
  }

  /** Names in the list of waiters are stored names. */
  lemma {:induction false} ListedNamesAreStored<T>(s: State<T>, name: string)
    requires Inv(s) && |name| >= SERVER_NAME_SIZE
    ensures !IsListed(s.lookups, name)
  {
    hide WaitersOk, HeldOk, ReadyOk, ThreadOk;
    assert forall i :: 0 <= i < |s.lookups| ==> LookupOk(s.threads, s.lookups[i]);
  }

  lemma {:induction false} KeptNames<T>(l: seq<Waiter<T>>, name: string)
    ensures forall w | w in Kept(l, name) :: w in l && w.name != name
    ensures !IsListed(l, name) ==> Kept(l, name) == l
  {
    if l != [] {
      KeptNames(l[1..], name);
      assert l == [l[0]] + l[1..];
      assert forall i :: 0 <= i < |l[1..]| ==> l[1..][i] == l[i + 1];
    }
  }

  lemma {:induction false} WakeAllRegistry<T>(s: State<T>, l: seq<T>)
    ensures WakeAll(s, l).lookups == s.lookups && WakeAll(s, l).servers == s.servers
    decreases |l|
  {
    if l != [] {
      WakeAllRegistry(AddReady(s, l[0]), l[1..]);
    }
  }

  /**
   * A registration leaves no waiter under a registered name exactly when its name fits the entry, or nobody
   * waits under the cut-off name: the waiters are compared with the name as given, not as stored.
   */
  lemma {:induction false} RegisterServes<T>(s: State<T>, name: string, port: int)
    requires Inv(s) && Served(s)
    ensures Served(RegisterStep(s, name, port, true)) <==>
              |name| < SERVER_NAME_SIZE || !IsListed(s.lookups, Stored(name))
  {
    hide Inv;
    var d := s.(servers := s.servers[Stored(name) := port], lookups := Kept(s.lookups, name));
    WakeAllRegistry(d, Matching(s.lookups, name));
    KeptNames(s.lookups, name);
    if |name| < SERVER_NAME_SIZE {
      forall i | 0 <= i < |d.lookups|
        ensures d.lookups[i].name !in d.servers
      {
        var w := d.lookups[i];
        assert w in Kept(s.lookups, name) && w in s.lookups;
        var j :| 0 <= j < |s.lookups| && s.lookups[j] == w;
        assert s.lookups[j].name !in s.servers;
      }
    } else {
      ListedNamesAreStored(s, name);
    }
  }

  /**
   * A lookup that goes to sleep waits under an unregistered name exactly when its name fits, or the cut-off one is
   * not registered.
   */
  lemma {:induction false} LookupServes<T>(s: State<T>, name: string, c: T)
    requires Inv(s) && Served(s) && s.current == Some(c) && name !in s.servers
    requires c in s.threads && (s.threads[c].place == User || s.threads[c].place == LookupRetry(name))
    ensures Served(LookupStep(s, name, true, true, c)) <==> |name| < SERVER_NAME_SIZE || Stored(name) !in s.servers
  {
    hide Inv, Core;
    var d := s.(lookups := [Waiter(Stored(name), c)] + s.lookups,
      threads := s.threads[c := Thread(Sleeping, LookupRetry(name))]);
    assert d.lookups[0].name == Stored(name);
    assert forall i :: 1 <= i < |d.lookups| ==> d.lookups[i] == s.lookups[i - 1];
    assert LookupStep(s, name, true, true, c).lookups == d.lookups;
    assert LookupStep(s, name, true, true, c).servers == s.servers;
  }

  /** All names of a run fit the entries of the registry. */
  ghost predicate NamesFit<T>(l: Label<T>) {
    (l.Register? || l.Lookup?) ==> |l.name| < SERVER_NAME_SIZE
  }

  lemma {:induction false} RegistryStays<T>(s: State<T>, l: Label<T>)
    requires !l.Register? && !l.Lookup?
    ensures Step(s, l).lookups == s.lookups && Step(s, l).servers == s.servers
  {
    hide Next, ThreadStep;
    NextObjects(s);
    if s.current.Some? && s.current.value in s.threads {
      ThreadRegistryStays(s, l, s.current.value);
    }
  }

  lemma {:induction false} ThreadRegistryStays<T>(s: State<T>, l: Label<T>, c: T)
    requires !l.Register? && !l.Lookup? && c in s.threads
    ensures ThreadStep(s, l, c).lookups == s.lookups && ThreadStep(s, l, c).servers == s.servers
  {
    hide Next, Removed, Popped;
    match l
    case Lock(o) => NextObjects(Block(s, o, c));
    case Receive(o) => NextObjects(Block(s, o, c));
    case _ =>
  }

  lemma {:induction false} LookupKeepsServed<T>(s: State<T>, name: string, wait: bool, memory: bool, c: T)
    requires Inv(s) && Served(s) && s.current == Some(c) && |name| < SERVER_NAME_SIZE
    requires c in s.threads && (s.threads[c].place == User || s.threads[c].place == LookupRetry(name))
    ensures Served(LookupStep(s, name, wait, memory, c))
  {
    hide Inv, Next;
    if name !in s.servers {
      LookupServes(s, name, c);
    }
  }

  lemma {:induction false} StepServes<T>(s: State<T>, l: Label<T>)
    requires Inv(s) && Served(s) && NamesFit(l)
    ensures Served(Step(s, l))
  {
    hide Inv, LookupStep;
    if !l.Register? && !l.Lookup? {
      RegistryStays(s, l);
    } else if s.current.Some? {
      CurrentIsKnown(s, s.current.value);
      var c := s.current.value;
      match l
      case Register(name, port, memory) =>
        if memory {
          RegisterServes(s, name, port);
        }
      case Lookup(name, wait, memory) =>
        if s.threads[c].place == User {
          LookupKeepsServed(s, name, wait, memory, c);
        } else if s.threads[c].place == LookupRetry(name) {
          LookupKeepsServed(s, name, true, memory, c);
        }
    }
  }

  lemma {:induction false} RunServes<T>(s: State<T>, labels: seq<Label<T>>)
    requires Inv(s) && Served(s) && forall l | l in labels :: NamesFit(l)
    ensures Served(Run(s, labels))
    decreases |labels|
  {
    hide Inv, Step, Served, NamesFit;
    if labels != [] {
      assert labels[0] in labels;
      StepKeeps(s, labels[0]);
      StepServes(s, labels[0]);
      RunServes(Step(s, labels[0]), labels[1..]);
    }
  }

  /**
   * A server and a client that agree on a name of 32 characters or more: the client sleeps though the server is
   * registered.
   */
  lemma {:induction false} LongNamesStrand(name: string)
    requires |name| >= SERVER_NAME_SIZE
    ensures !Served(Run(Boot<nat>(), [Create(0), Start(0), Preempt, Register(name, 1, true), Lookup(name, true, true)]))
  {
    var s1 := Step(Boot<nat>(), Create(0));
    var s2 := Step(s1, Start(0));
    var s3 := Step(s2, Preempt);
    var s4 := Step(s3, Register(name, 1, true));
    var s5 := Step(s4, Lookup(name, true, true));
    assert s5.lookups[0].name in s5.servers;
    assert Run(s5, []) == s5;
    assert Run(s4, [Lookup(name, true, true)]) == s5;
    assert Run(s3, [Register(name, 1, true), Lookup(name, true, true)]) == s5;
    assert Run(s2, [Preempt, Register(name, 1, true), Lookup(name, true, true)]) == s5;
    assert Run(s1, [Start(0), Preempt, Register(name, 1, true), Lookup(name, true, true)]) == s5;
  }

  // ---------------------------------------------------------------------------------------------- over all runs

  /** The state after a run from boot. */
  ghost function After<T>(labels: seq<Label<T>>): State<T> {
    Run(Boot(), labels)
  }

  lemma {:induction false} RunConcat<T>(s: State<T>, x: seq<Label<T>>, y: seq<Label<T>>)
    ensures Run(s, x + y) == Run(Run(s, x), y)
    decreases |x|
  {
    hide Step;
    if x == [] {
      assert x + y == y;
    } else {
      assert (x + y)[0] == x[0] && (x + y)[1..] == x[1..] + y;
      RunConcat(Step(s, x[0]), x[1..], y);
    }
  }

  /**
   * No thread is lost and none is in two places: it runs, or waits in exactly one of the queues, or an unlocker
   * is about to wake it up, or it was never started. So one link field serves all queues.
   */
  lemma {:induction false} EveryThreadHasOnePlace<T>(labels: seq<Label<T>>, x: T)
    requires x in After(labels).threads
    ensures var s := After(labels); forall w :: IsAt(s, w, x) <==> w == Home(s, x)
  {
    hide Inv, Run, Home, IsAt;
    EveryRun(labels);
    IsAtHome(After(labels), x);
  }

  /** Every queue lists a thread at most once, the ready queue holds the READY threads, and only one thread runs. */
  lemma {:induction false} QueuesMatchPhases<T>(labels: seq<Label<T>>)
    ensures var s := After(labels);
            && Distinct(s.ready) && (forall o :: 0 <= o < |s.objects| ==> Distinct(s.objects[o].waiters))
            && (forall x | x in s.threads :: x in s.ready <==> s.threads[x].phase == Ready)
            && (forall x | x in s.threads :: s.current == Some(x) <==> s.threads[x].phase == Running)
            && !s.panicked
  {
    hide Run;
    EveryRun(labels);
    QueuesOf(After(labels));
  }

  /** A woken thread is on its way to look again, or the unlocker that will wake it is on its way. */
  lemma {:induction false} WokenIsOnItsWay<T>(labels: seq<Label<T>>, o: nat, x: T)
    requires o < |After(labels).objects| && x in After(labels).objects[o].woken
    ensures var s := After(labels); OnItsWay(s, x) || (!s.objects[o].Port? && UnlockerOnItsWay(s, x))
  {
    hide Inv, Run, OnItsWay, UnlockerOnItsWay;
    EveryRun(labels);
    WokenMoves(After(labels), o, x);
  }

  /**
   * No waiter of a mutex is stranded: while some thread waits, the mutex is locked, or a woken thread is on its
   * way to try again, or will be woken by an unlocker on its way.
   */
  lemma {:induction false} NoLockWaiterStranded<T>(labels: seq<Label<T>>, o: nat)
    requires o < |After(labels).objects| && After(labels).objects[o].Mutex? && After(labels).objects[o].waiters != []
    ensures var s := After(labels);
            s.objects[o].locker.Some? ||
            exists x :: x in s.objects[o].woken && (OnItsWay(s, x) || UnlockerOnItsWay(s, x))
  {
    hide Inv, Run, OnItsWay, UnlockerOnItsWay;
    EveryRun(labels);
    if After(labels).objects[o].locker.None? {
      LockerOnItsWay(After(labels), o);
    }
  }

  /**
   * No wake-up of a receiver is lost: while some thread waits on a port, every queued message has a receiver
   * of its own that was woken and is on its way to look for it.
   */
  lemma {:induction false} NoReceiverStranded<T>(labels: seq<Label<T>>, o: nat)
    requires o < |After(labels).objects| && After(labels).objects[o].Port? && After(labels).objects[o].waiters != []
    ensures var s := After(labels);
            var b := s.objects[o];
            && |b.messages| <= |b.woken| && Distinct(b.woken)
            && forall x | x in b.woken :: OnItsWay(s, x) && x in s.threads && s.threads[x].place == Retry(o)
  {
    hide Inv, Run, OnItsWay;
    EveryRun(labels);
    ReceiversOnTheirWay(After(labels), o);
  }

  /**
   * Unless a thread releases what another holds, at most one is between lock and unlock, and it is the recorded
   * owner.
   */
  lemma {:induction false} MutualExclusion<T>(labels: seq<Label<T>>, o: nat, x: T, y: T)
    requires OwnersUnlock(Boot(), labels)
    requires o < |After(labels).objects| && After(labels).objects[o].Mutex?
    requires x in After(labels).objects[o].inside && y in After(labels).objects[o].inside
    ensures x == y && After(labels).objects[o].locker == Some(x)
  {
    hide Run, OwnersUnlock;
    assert AllExclusive(Boot<T>());
    RunExclusive(Boot<T>(), labels);
    assert Exclusive(After(labels).objects[o]);
  }

  /**
   * Each message is received exactly once and in the order of sending: after any run, a port's receivers have got
   * a prefix of what was sent and the rest is queued; what was once received or sent stays so in any further run.
   */
  lemma {:induction false} FifoExactlyOnce<T>(labels: seq<Label<T>>, more: seq<Label<T>>, o: nat)
    requires o < |After(labels).objects| && After(labels).objects[o].Port?
    ensures o < |After(labels + more).objects| && After(labels + more).objects[o].Port?
    ensures var b, b2 := After(labels).objects[o], After(labels + more).objects[o];
            && b2.sent == b2.received + b2.messages && b.sent <= b2.sent && b.received <= b2.received
  {
    hide Inv, Run;
    EveryRun(labels);
    RunConcat(Boot<T>(), labels, more);
    InOrderOnce(After(labels), more, o);
  }

  /**
   * Bounded waiting: the thread at position `k` of the ready queue runs after exactly `k + 1` further entries of the
   * scheduler, whatever wake-ups, messages and new threads come in between.
   */
  lemma {:induction false} BoundedWaiting<T>(labels: seq<Label<T>>, more: seq<Label<T>>, k: nat)
    requires k < |After(labels).ready|
    ensures var n := Switched(After(labels), more);
            var s, d := After(labels), After(labels + more);
            && (n <= k ==> k - n < |d.ready| && d.ready[k - n] == s.ready[k])
            && (n == k + 1 ==> d.current == Some(s.ready[k]))
  {
    hide Inv, Run, Switched;
    EveryRun(labels);
    RunConcat(Boot<T>(), labels, more);
    RunsInTurn(After(labels), more, k);
  }

  lemma {:induction false} AfterOneMore<T>(labels: seq<Label<T>>, l: Label<T>)
    ensures After(labels + [l]) == Step(After(labels), l)
  {
    hide Step;
    RunConcat(Boot<T>(), labels, [l]);
    assert [l][1..] == [];
    assert Run(After(labels), [l]) == Run(Step(After(labels), l), []);
  }

  /**
   * The processor never idles while a thread could run: entering the scheduler leaves the idle thread running only with
   * an empty ready queue. When the queue was empty, a thread that is preempted runs on, and one that falls asleep
   * leaves
   * the processor to the idle thread.
   */
  lemma {:induction false} NeverIdleWhileReady<T>(labels: seq<Label<T>>, l: Label<T>)
    requires Switches(After(labels), l)
    ensures var s, d := After(labels), After(labels + [l]);
            && (d.current.None? ==> d.ready == [])
            && (s.ready != [] ==> d.current == Some(s.ready[0]))
            && (s.ready == [] && l.Preempt? ==> d.current == s.current && d.ready == [])
            && (s.ready == [] && !l.Preempt? ==> d.current == None && d.ready == [])
  {
    hide Inv, Run, Step, Switches;
    EveryRun(labels);
    AfterOneMore(labels, l);
    ReadyMoves(After(labels), l);
  }

  /** While all names fit, no lookup is ever stranded. */
  lemma {:induction false} NoLookupStranded<T>(labels: seq<Label<T>>)
    requires forall l | l in labels :: NamesFit(l)
    ensures Served(After(labels))
  {
    hide Run, NamesFit;
    assert Inv(Boot<T>()) && Served(Boot<T>());
    RunServes(Boot<T>(), labels);
  }
}
