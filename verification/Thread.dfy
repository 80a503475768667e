/**
 Threads, the ready list and semaphores (threads/thread, threads/scheduler,
 threads/synch) as a state machine. One event is what the kernel does between two
 points at which an interrupt or another thread can come in.
 */
module Threads {
  import I = Interrupts

  type Tid = nat

  datatype Status = JustCreated | Running | Ready | Blocked

  /**
   Where a thread goes on when it is next dispatched: at the start of its procedure, in
   its own code, at the test of the loop in P, or behind the switch in Yield. The last
   two keep the interrupt level to be restored.
   */
  datatype Place = Fresh | Code | InP(sem: nat, oldLevel: I.IntStatus) | InYield(oldLevel: I.IntStatus) | Done

  datatype Thread = Thread(status: Status, place: Place)

  datatype Semaphore = Semaphore(value: int, queue: seq<Tid>)

  /**
   `doomed` is `threadToBeDestroyed`, and `deleted` are the threads whose destructor has
   run. `dispatched` lists the threads that Scheduler::Run was given, in order.
   */
  datatype State = State(
    threads: seq<Thread>, current: Tid, ready: seq<Tid>, sems: seq<Semaphore>, level: I.IntStatus,
    doomed: set<Tid>, deleted: set<Tid>, dispatched: seq<Tid>)

  // ------------------------------------------------------- the operations

  function SetThread(s: State, t: Tid, th: Thread): State
    requires t < |s.threads|
  {
    s.(threads := s.threads[t := th])
  }

  function SetSem(s: State, k: nat, sem: Semaphore): State
    requires k < |s.sems|
  {
    s.(sems := s.sems[k := sem])
  }

  /** `Scheduler::ReadyToRun` */
  function MadeReady(s: State, t: Tid): State
    requires t < |s.threads|
  {
    SetThread(s, t, s.threads[t].(status := Ready)).(ready := s.ready + [t])
  }

  /** `Semaphore::V`, whoever calls it. */
  function Upped(s: State, k: nat): State
    requires k < |s.sems| && (s.sems[k].queue != [] ==> s.sems[k].queue[0] < |s.threads|)
  {
    var sem := s.sems[k].(value := s.sems[k].value + 1);
    if sem.queue == [] then SetSem(s, k, sem)
    else SetSem(MadeReady(s, sem.queue[0]), k, sem.(queue := sem.queue[1..]))
  }

  /** The loop test of `Semaphore::P`: the semaphore is taken, or the thread queues up and goes to sleep. */
  function Tried(s: State, k: nat, oldLevel: I.IntStatus): State
    requires k < |s.sems| && s.current < |s.threads|
  {
    var sem := s.sems[k];
    if sem.value == 0 then
      SetSem(SetThread(s, s.current, Thread(Blocked, InP(k, oldLevel))), k, sem.(queue := sem.queue + [s.current]))
        .(level := I.IntOff)
    else
      SetSem(SetThread(s, s.current, Thread(Running, Code)), k, sem.(value := sem.value - 1))
        .(level := oldLevel)
  }

  /**
   `Scheduler::Run`. A thread that has run before deletes the one that finished; a fresh
   one starts at its procedure instead, with interrupts on.
   */
  function Switched(s: State, next: Tid): State
    requires next < |s.threads|
  {
    var place := s.threads[next].place;
    var t := s.(current := next, dispatched := s.dispatched + [next]);
    match place
    case InP(_, _) => Reaped(SetThread(t, next, Thread(Running, place)))
    case InYield(oldLevel) => Reaped(SetThread(t, next, Thread(Running, Code))).(level := oldLevel)
    case _ => SetThread(t, next, Thread(Running, Code)).(level := I.IntOn)
  }

  /** `Scheduler::FindNextToRun` and `Scheduler::Run`: the first ready thread gets the processor. */
  function Dispatched(s: State): State
    requires s.ready != [] && s.ready[0] < |s.threads|
  {
    Switched(s.(ready := s.ready[1..]), s.ready[0])
  }

  function Reaped(s: State): State
  {
    s.(deleted := s.deleted + s.doomed, doomed := {})
  }

  /** The current thread joins the ready list, to go on behind the switch in Yield. */
  function Aside(s: State, oldLevel: I.IntStatus): State
    requires s.current < |s.threads|
  {
    MadeReady(SetThread(s, s.current, Thread(Running, InYield(oldLevel))), s.current).(level := I.IntOff)
  }

  /** `Thread::Yield` */
  function Yielded(s: State): State
    requires s.current < |s.threads| && (s.ready != [] ==> s.ready[0] < |s.threads|)
  {
    if s.ready == [] then s else Switched(Aside(s, s.level).(ready := s.ready[1..] + [s.current]), s.ready[0])
  }

  /** `Thread::Finish` up to its call of Sleep. */
  function Finished(s: State): State
    requires s.current < |s.threads|
  {
    SetThread(s, s.current, Thread(Blocked, Done)).(level := I.IntOff, doomed := {s.current})
  }

  // ---------------------------------------------------------------- events

  datatype Event =
    | NewThread
    | NewSemaphore(initial: nat)
    | Fork(thread: Tid)
    | Down(sem: nat)
    | Recheck
    | Up(sem: nat)
    | Yield
    | Finish
    | SetLevel(level: I.IntStatus)
    | Interrupt(sem: nat)
    | Dispatch

  ghost predicate Sleeping(s: State)
    requires s.current < |s.threads|
  {
    s.threads[s.current].status != Running
  }

  /**
   A thread in its own code may call any operation; one that was dispatched inside P
   re-checks. A handler's V comes in while interrupts are on, or while the current
   thread sleeps and the machine idles.
   */
  ghost predicate Enabled(s: State, e: Event)
    requires s.current < |s.threads|
  {
    var th := s.threads[s.current];
    match e
    case Recheck => th.status == Running && th.place.InP?
    case Dispatch => Sleeping(s) && s.ready != []
    case Interrupt(k) => k < |s.sems| && (Sleeping(s) || (th.place == Code && s.level == I.IntOn))
    case Fork(t) => th == Thread(Running, Code) && t < |s.threads| && s.threads[t].status == JustCreated
    case Down(k) => th == Thread(Running, Code) && k < |s.sems|
    case Up(k) => th == Thread(Running, Code) && k < |s.sems|
    case _ => th == Thread(Running, Code)
  }

  ghost function AfterV(s: State, k: nat): State
    requires Inv(s) && k < |s.sems|
  {
    InvBounds(s);
    Upped(s, k)
  }

  ghost function Next(s: State, e: Event): State
    requires Inv(s) && Enabled(s, e)
  {
    InvBounds(s);
    match e
    case NewThread => s.(threads := s.threads + [Thread(JustCreated, Fresh)])
    case NewSemaphore(initial) => s.(sems := s.sems + [Semaphore(initial, [])])
    case Fork(t) => MadeReady(s, t)
    case Down(k) => Tried(s, k, s.level)
    case Recheck => Tried(s, s.threads[s.current].place.sem, s.threads[s.current].place.oldLevel)
    case Up(k) => AfterV(s, k)
    case Yield => Yielded(s)
    case Finish => Finished(s)
    case SetLevel(level) => s.(level := level)
    case Interrupt(k) => AfterV(s, k)
    case Dispatch => Dispatched(s)
  }

  // ------------------------------------------------------------ invariants

  /** The status of a thread and the place where it goes on. */
  ghost predicate Fits(th: Thread, isCurrent: bool, sems: nat)
  {
    && (th.place.InP? ==> th.place.sem < sems)
    && match th.status
       case JustCreated => th.place == Fresh
       case Running => isCurrent && (th.place == Code || th.place.InP?)
       case Ready => th.place == Fresh || th.place.InYield? || th.place.InP?
       case Blocked => th.place == Done || th.place.InP?
  }

  ghost predicate IsReady(th: Thread)
  {
    th.status == Ready
  }

  ghost predicate WaitsOn(th: Thread, k: nat)
  {
    th.status == Blocked && th.place.InP? && th.place.sem == k
  }

  /** Taken off the queue by a V, and not at the test of P's loop again yet. */
  ghost predicate WokenOn(th: Thread, k: nat)
  {
    th.status != Blocked && th.place.InP? && th.place.sem == k
  }

  /** The ready list holds each READY thread once, and no other. */
  ghost predicate ReadyOnce(threads: seq<Thread>, ready: seq<Tid>)
  {
    forall t: Tid :: multiset(ready)[t] == if t < |threads| && IsReady(threads[t]) then 1 else 0
  }

  /** A semaphore's queue holds each thread that is blocked on it once, and no other. */
  ghost predicate WaitOnce(threads: seq<Thread>, queue: seq<Tid>, k: nat)
  {
    forall t: Tid :: multiset(queue)[t] == if t < |threads| && WaitsOn(threads[t], k) then 1 else 0
  }

  ghost function Woken(threads: seq<Thread>, k: nat): nat
  {
    if threads == [] then 0
    else (if WokenOn(threads[0], k) then 1 else 0) + Woken(threads[1..], k)
  }

  /** A waiter is passed over only for threads that have been woken. */
  ghost predicate Counts(sem: Semaphore, woken: nat)
  {
    sem.value >= 0 && (sem.queue != [] ==> sem.value <= woken)
  }

  ghost predicate SemInv(threads: seq<Thread>, sem: Semaphore, k: nat)
  {
    WaitOnce(threads, sem.queue, k) && Counts(sem, Woken(threads, k))
  }

  ghost predicate ThreadsInv(s: State)
  {
    && s.current < |s.threads|
    && (forall t | 0 <= t < |s.threads| :: Fits(s.threads[t], t == s.current, |s.sems|))
    && ReadyOnce(s.threads, s.ready)
    && (Sleeping(s) || s.threads[s.current].place.InP? ==> s.level == I.IntOff)
  }

  /** Only finished threads are deleted. */
  ghost predicate GravesInv(s: State)
  {
    forall t | t in s.doomed + s.deleted :: t < |s.threads| && s.threads[t].place == Done
  }

  ghost predicate Inv(s: State)
  {
    ThreadsInv(s) && GravesInv(s) && forall k | 0 <= k < |s.sems| :: SemInv(s.threads, s.sems[k], k)
  }

  // ---------------------------------------------------------- list lemmas

  lemma CountAppend(q: seq<Tid>, t: Tid)
    ensures multiset(q + [t]) == multiset(q) + multiset{t}
  {
  }

  lemma CountTail(q: seq<Tid>)
    requires q != []
    ensures multiset(q) == multiset(q[1..]) + multiset{q[0]}
  {
    assert q == [q[0]] + q[1..];
  }

  lemma InQueue(q: seq<Tid>, i: nat)
    requires i < |q|
    ensures multiset(q)[q[i]] > 0
  {
    assert q[i] in multiset(q);
  }

  /** What the lists hold are threads. */
  lemma InvBounds(s: State)
    requires Inv(s)
    ensures s.ready != [] ==> s.ready[0] < |s.threads| && s.threads[s.ready[0]].status == Ready
    ensures forall k | 0 <= k < |s.sems| && s.sems[k].queue != [] ::
              s.sems[k].queue[0] < |s.threads| && WaitsOn(s.threads[s.sems[k].queue[0]], k)
  {
    if s.ready != [] {
      InQueue(s.ready, 0);
    }
    forall k | 0 <= k < |s.sems| && s.sems[k].queue != []
      ensures s.sems[k].queue[0] < |s.threads| && WaitsOn(s.threads[s.sems[k].queue[0]], k)
    {
      assert SemInv(s.threads, s.sems[k], k);
      InQueue(s.sems[k].queue, 0);
    }
  }

  lemma {:induction false} WokenUpdate(threads: seq<Thread>, t: nat, th: Thread, k: nat)
    requires t < |threads|
    ensures Woken(threads[t := th], k) - (if WokenOn(th, k) then 1 else 0)
         == Woken(threads, k) - (if WokenOn(threads[t], k) then 1 else 0)
  {
    var after := threads[t := th];
    if t > 0 {
      assert after[1..] == threads[1..][t - 1 := th];
      WokenUpdate(threads[1..], t - 1, th, k);
    } else {
      assert after[1..] == threads[1..];
    }
  }

  lemma {:induction false} WokenAppend(threads: seq<Thread>, k: nat)
    ensures Woken(threads + [Thread(JustCreated, Fresh)], k) == Woken(threads, k)
  {
    if threads == [] {
    } else {
      WokenAppend(threads[1..], k);
      assert (threads + [Thread(JustCreated, Fresh)])[1..] == threads[1..] + [Thread(JustCreated, Fresh)];
    }
  }

  /** A woken thread exists when the count says so. */
  lemma {:induction false} WokenWitness(threads: seq<Thread>, k: nat) returns (t: nat)
    requires Woken(threads, k) > 0
    ensures t < |threads| && WokenOn(threads[t], k)
  {
    if WokenOn(threads[0], k) {
      t := 0;
    } else {
      t := WokenWitness(threads[1..], k);
      t := t + 1;
    }
  }

  // ------------------------------------------- what a change of one thread keeps

  lemma ReadySame(threads: seq<Thread>, ready: seq<Tid>, t: Tid, th: Thread)
    requires ReadyOnce(threads, ready) && t < |threads| && IsReady(threads[t]) == IsReady(th)
    ensures ReadyOnce(threads[t := th], ready)
  {
  }

  lemma ReadyAppend(threads: seq<Thread>, ready: seq<Tid>, t: Tid, th: Thread)
    requires ReadyOnce(threads, ready) && t < |threads| && !IsReady(threads[t]) && IsReady(th)
    ensures ReadyOnce(threads[t := th], ready + [t])
  {
    CountAppend(ready, t);
  }

  lemma ReadyTail(threads: seq<Thread>, ready: seq<Tid>, th: Thread)
    requires ReadyOnce(threads, ready) && ready != [] && ready[0] < |threads| && !IsReady(th)
    ensures ReadyOnce(threads[ready[0] := th], ready[1..])
  {
    CountTail(ready);
  }

  lemma WaitSame(threads: seq<Thread>, queue: seq<Tid>, k: nat, t: Tid, th: Thread)
    requires WaitOnce(threads, queue, k) && t < |threads| && WaitsOn(threads[t], k) == WaitsOn(th, k)
    ensures WaitOnce(threads[t := th], queue, k)
  {
  }

  lemma WaitAppend(threads: seq<Thread>, queue: seq<Tid>, k: nat, t: Tid, th: Thread)
    requires WaitOnce(threads, queue, k) && t < |threads| && !WaitsOn(threads[t], k) && WaitsOn(th, k)
    ensures WaitOnce(threads[t := th], queue + [t], k)
  {
    CountAppend(queue, t);
  }

  lemma WaitTail(threads: seq<Thread>, queue: seq<Tid>, k: nat, th: Thread)
    requires WaitOnce(threads, queue, k) && queue != [] && queue[0] < |threads| && !WaitsOn(th, k)
    ensures WaitOnce(threads[queue[0] := th], queue[1..], k)
  {
    CountTail(queue);
  }

  /** A semaphore that the thread has nothing to do with, before or after. */
  lemma OtherSem(threads: seq<Thread>, sem: Semaphore, k: nat, t: Tid, th: Thread)
    requires SemInv(threads, sem, k) && t < |threads|
    requires WaitsOn(threads[t], k) == WaitsOn(th, k) && WokenOn(threads[t], k) == WokenOn(th, k)
    ensures SemInv(threads[t := th], sem, k)
  {
    WaitSame(threads, sem.queue, k, t, th);
    WokenUpdate(threads, t, th, k);
  }

  lemma OtherSems(s: State, t: Tid, th: Thread)
    requires Inv(s) && t < |s.threads|
    requires th.place.InP? || s.threads[t].place.InP? ==> th.place == s.threads[t].place
    requires th.place.InP? ==> (th.status == Blocked <==> s.threads[t].status == Blocked)
    ensures forall k | 0 <= k < |s.sems| :: SemInv(s.threads[t := th], s.sems[k], k)
  {
    forall k | 0 <= k < |s.sems|
      ensures SemInv(s.threads[t := th], s.sems[k], k)
    {
      OtherSem(s.threads, s.sems[k], k, t, th);
    }
  }

  // -------------------------------------------------- every step keeps them

  lemma UppedWakes(s: State, k: nat)
    requires Inv(s) && k < |s.sems| && s.sems[k].queue != []
    ensures s.sems[k].queue[0] < |s.threads| && Inv(Upped(s, k))
  {
    InvBounds(s);
    var sem := s.sems[k];
    var t := sem.queue[0];
    var th := s.threads[t].(status := Ready);
    var u := Upped(s, k);
    assert SemInv(s.threads, sem, k);
    ReadyAppend(s.threads, s.ready, t, th);
    forall j | 0 <= j < |u.sems|
      ensures SemInv(u.threads, u.sems[j], j)
    {
      if j == k {
        WaitTail(s.threads, sem.queue, k, th);
        WokenUpdate(s.threads, t, th, k);
      } else {
        OtherSem(s.threads, s.sems[j], j, t, th);
      }
    }
  }

  lemma UppedKeeps(s: State, k: nat)
    requires Inv(s) && k < |s.sems|
    ensures s.sems[k].queue != [] ==> s.sems[k].queue[0] < |s.threads|
    ensures Inv(Upped(s, k))
  {
    if s.sems[k].queue != [] {
      UppedWakes(s, k);
    } else {
      var u := Upped(s, k);
      forall j | 0 <= j < |u.sems|
        ensures SemInv(u.threads, u.sems[j], j)
      {
        assert SemInv(s.threads, s.sems[j], j);
      }
    }
  }

  ghost predicate MayTry(s: State, k: nat, oldLevel: I.IntStatus)
    requires s.current < |s.threads|
  {
    && k < |s.sems| && s.threads[s.current].status == Running
    && (s.threads[s.current].place == Code || s.threads[s.current].place == InP(k, oldLevel))
  }

  lemma TriedKeeps(s: State, k: nat, oldLevel: I.IntStatus)
    requires Inv(s) && MayTry(s, k, oldLevel)
    ensures Inv(Tried(s, k, oldLevel))
  {
    var t, sem, u := s.current, s.sems[k], Tried(s, k, oldLevel);
    var th := u.threads[t];
    assert SemInv(s.threads, sem, k);
    ReadySame(s.threads, s.ready, t, th);
    forall j | 0 <= j < |u.sems|
      ensures SemInv(u.threads, u.sems[j], j)
    {
      if j != k {
        OtherSem(s.threads, s.sems[j], j, t, th);
      } else if sem.value == 0 {
        WaitAppend(s.threads, sem.queue, k, t, th);
      } else {
        WaitSame(s.threads, sem.queue, k, t, th);
        WokenUpdate(s.threads, t, th, k);
      }
    }
  }

  lemma MadeReadyKeeps(s: State, t: Tid)
    requires Inv(s) && t < |s.threads| && s.threads[t].status == JustCreated
    ensures Inv(MadeReady(s, t))
  {
    var th := s.threads[t].(status := Ready);
    ReadyAppend(s.threads, s.ready, t, th);
    OtherSems(s, t, th);
  }

  lemma DispatchedKeeps(s: State)
    requires Inv(s) && s.ready != [] && Sleeping(s)
    ensures s.ready[0] < |s.threads| && Inv(Dispatched(s))
    ensures Dispatched(s).current !in Dispatched(s).deleted
  {
    InvBounds(s);
    DispatchedThreads(s);
    DispatchedGraves(s);
    OtherSems(s, s.ready[0], Dispatched(s).threads[s.ready[0]]);
  }

  lemma DispatchedThreads(s: State)
    requires Inv(s) && s.ready != [] && Sleeping(s)
    ensures s.ready[0] < |s.threads| && ThreadsInv(Dispatched(s))
  {
    InvBounds(s);
    ReadyTail(s.threads, s.ready, Dispatched(s).threads[s.ready[0]]);
  }

  lemma DispatchedGraves(s: State)
    requires Inv(s) && s.ready != []
    ensures s.ready[0] < |s.threads| && GravesInv(Dispatched(s))
    ensures Dispatched(s).current !in Dispatched(s).deleted
  {
    InvBounds(s);
  }

  lemma FinishedKeeps(s: State)
    requires Inv(s) && s.threads[s.current] == Thread(Running, Code)
    ensures Inv(Finished(s))
  {
    var th := Thread(Blocked, Done);
    ReadySame(s.threads, s.ready, s.current, th);
    OtherSems(s, s.current, th);
  }

  /** Yielding is joining the ready list, as if asleep, and then a dispatch. */
  lemma AsideKeeps(s: State)
    requires Inv(s) && s.threads[s.current] == Thread(Running, Code)
    ensures Inv(Aside(s, s.level)) && Sleeping(Aside(s, s.level))
  {
    var th := Thread(Ready, InYield(s.level));
    ReadyAppend(s.threads, s.ready, s.current, th);
    OtherSems(s, s.current, th);
    assert Aside(s, s.level).threads == s.threads[s.current := th];
  }

  lemma YieldedKeeps(s: State)
    requires Inv(s) && s.threads[s.current] == Thread(Running, Code)
    ensures s.ready != [] ==> s.ready[0] < |s.threads|
    ensures Inv(Yielded(s))
  {
    InvBounds(s);
    if s.ready != [] {
      AsideKeeps(s);
      DispatchedKeeps(Aside(s, s.level));
      assert Aside(s, s.level).ready[1..] == s.ready[1..] + [s.current];
    }
  }

  lemma NewThreadKeeps(s: State)
    requires Inv(s)
    ensures Inv(s.(threads := s.threads + [Thread(JustCreated, Fresh)]))
  {
    var u := s.(threads := s.threads + [Thread(JustCreated, Fresh)]);
    forall k | 0 <= k < |s.sems|
      ensures SemInv(u.threads, u.sems[k], k)
    {
      assert SemInv(s.threads, s.sems[k], k);
      WokenAppend(s.threads, k);
    }
  }

  lemma NewSemaphoreKeeps(s: State, initial: nat)
    requires Inv(s)
    ensures Inv(s.(sems := s.sems + [Semaphore(initial, [])]))
  {
    var u := s.(sems := s.sems + [Semaphore(initial, [])]);
    forall k | 0 <= k < |u.sems|
      ensures SemInv(u.threads, u.sems[k], k)
    {
      if k < |s.sems| {
        assert SemInv(s.threads, s.sems[k], k);
      }
    }
  }

  lemma NextKeeps(s: State, e: Event)
    requires Inv(s) && Enabled(s, e)
    ensures Inv(Next(s, e))
  {
    match e
    case NewThread => NewThreadKeeps(s);
    case NewSemaphore(initial) => NewSemaphoreKeeps(s, initial);
    case Fork(t) => MadeReadyKeeps(s, t);
    case Down(k) => TriedKeeps(s, k, s.level);
    case Recheck => TriedKeeps(s, s.threads[s.current].place.sem, s.threads[s.current].place.oldLevel);
    case Up(k) => UppedKeeps(s, k);
    case Yield => YieldedKeeps(s);
    case Finish => FinishedKeeps(s);
    case SetLevel(_) =>
    case Interrupt(k) => UppedKeeps(s, k);
    case Dispatch => DispatchedKeeps(s);
  }

  // ------------------------------------------------------------ whole runs

  /** The events, each possible when it happens, lead from `s` to `t`. */
  ghost predicate Run(s: State, es: seq<Event>, t: State)
    requires Inv(s)
    decreases |es|
  {
    if es == [] then t == s
    else Enabled(s, es[0]) && (NextKeeps(s, es[0]); Run(Next(s, es[0]), es[1..], t))
  }

  /** At most one thread is dispatched, the first on the ready list, and threads join only behind the last. */
  ghost predicate InOrder(s: State, t: State)
  {
    && (t.dispatched == s.dispatched || (s.ready != [] && t.dispatched == s.dispatched + [s.ready[0]]))
    && s.dispatched + s.ready <= t.dispatched + t.ready
  }

  /** The ready list grew at its end, or its first thread was dispatched. */
  lemma QueueInOrder(s: State, t: State, more: seq<Tid>)
    requires || (t.dispatched == s.dispatched && t.ready == s.ready + more)
             || (s.ready != [] && t.dispatched == s.dispatched + [s.ready[0]] && t.ready == s.ready[1..] + more)
    ensures InOrder(s, t)
  {
    assert s.dispatched + s.ready + more == s.dispatched + (s.ready + more);
    if s.ready != [] {
      assert s.dispatched + s.ready + more == s.dispatched + [s.ready[0]] + (s.ready[1..] + more);
    }
  }

  lemma UppedOrder(s: State, k: nat)
    requires Inv(s) && k < |s.sems|
    ensures InOrder(s, AfterV(s, k))
  {
    InvBounds(s);
    QueueInOrder(s, AfterV(s, k), s.sems[k].queue[..if s.sems[k].queue == [] then 0 else 1]);
  }

  lemma YieldedOrder(s: State)
    requires Inv(s)
    ensures (InvBounds(s); InOrder(s, Yielded(s)))
  {
    InvBounds(s);
    QueueInOrder(s, Yielded(s), if s.ready == [] then [] else [s.current]);
  }

  lemma DispatchedOrder(s: State)
    requires Inv(s) && s.ready != []
    ensures (InvBounds(s); InOrder(s, Dispatched(s)))
  {
    InvBounds(s);
    assert s.ready[1..] + [] == s.ready[1..];
    QueueInOrder(s, Dispatched(s), []);
  }

  lemma NextOrder(s: State, e: Event)
    requires Inv(s) && Enabled(s, e)
    ensures InOrder(s, Next(s, e))
  {
    match e
    case Up(k) => UppedOrder(s, k);
    case Interrupt(k) => UppedOrder(s, k);
    case Yield => YieldedOrder(s);
    case Dispatch => DispatchedOrder(s);
    case Fork(t) => QueueInOrder(s, MadeReady(s, t), [t]);
    case _ =>
  }

  /** A finished thread is neither current and running, nor first on a list. */
  lemma DoneIsOut(s: State, x: Tid)
    requires Inv(s) && x < |s.threads| && s.threads[x].place == Done
    ensures s.threads[x].status == Blocked && (s.ready != [] ==> s.ready[0] != x)
    ensures forall k | 0 <= k < |s.sems| && s.sems[k].queue != [] :: s.sems[k].queue[0] != x
  {
    InvBounds(s);
    assert Fits(s.threads[x], x == s.current, |s.sems|);
  }

  ghost predicate Same(s: State, t: State, x: Tid)
  {
    x < |s.threads| <= |t.threads| && t.threads[x] == s.threads[x]
  }

  lemma UppedDone(s: State, k: nat, x: Tid)
    requires Inv(s) && k < |s.sems| && x < |s.threads| && s.threads[x].place == Done
    ensures Same(s, AfterV(s, k), x)
  {
    DoneIsOut(s, x);
  }

  lemma YieldedDone(s: State, x: Tid)
    requires Inv(s) && x < |s.threads| && s.threads[x].place == Done && s.threads[s.current].status == Running
    ensures (InvBounds(s); Same(s, Yielded(s), x))
  {
    DoneIsOut(s, x);
    InvBounds(s);
    if s.ready != [] {
      assert s.ready[0] != x && x != s.current;
    }
  }

  lemma DispatchedDone(s: State, x: Tid)
    requires Inv(s) && s.ready != [] && x < |s.threads| && s.threads[x].place == Done
    ensures (InvBounds(s); Same(s, Dispatched(s), x))
  {
    DoneIsOut(s, x);
  }

  lemma TriedDone(s: State, k: nat, oldLevel: I.IntStatus, x: Tid)
    requires Inv(s) && k < |s.sems| && x < |s.threads| && s.threads[x].place == Done
    requires s.threads[s.current].place != Done
    ensures Same(s, Tried(s, k, oldLevel), x)
  {
  }

  lemma NextDone(s: State, e: Event, x: Tid)
    requires Inv(s) && Enabled(s, e) && x < |s.threads| && s.threads[x].place == Done
    ensures Same(s, Next(s, e), x)
  {
    match e
    case Up(k) => UppedDone(s, k, x);
    case Interrupt(k) => UppedDone(s, k, x);
    case Yield => YieldedDone(s, x);
    case Dispatch => DispatchedDone(s, x);
    case Down(k) => TriedDone(s, k, s.level, x);
    case Recheck => TriedDone(s, s.threads[s.current].place.sem, s.threads[s.current].place.oldLevel, x);
    case Fork(t) => DoneIsOut(s, x);
    case _ =>
  }

  lemma {:induction false} RunKeeps(s: State, es: seq<Event>, t: State)
    requires Inv(s) && Run(s, es, t)
    ensures Inv(t)
    decreases |es|
  {
    if es != [] {
      NextKeeps(s, es[0]);
      RunKeeps(Next(s, es[0]), es[1..], t);
    }
  }

  lemma {:induction false} RunAppend(s: State, es: seq<Event>, t: State, fs: seq<Event>, u: State)
    requires Inv(s) && Run(s, es, t) && Inv(t) && Run(t, fs, u)
    ensures Run(s, es + fs, u)
    decreases |es|
  {
    if es == [] {
      assert es + fs == fs;
    } else {
      assert (es + fs)[0] == es[0] && (es + fs)[1..] == es[1..] + fs;
      NextKeeps(s, es[0]);
      RunAppend(Next(s, es[0]), es[1..], t, fs, u);
    }
  }

  lemma {:induction false} RunOrder(s: State, es: seq<Event>, t: State)
    requires Inv(s) && Run(s, es, t)
    ensures s.dispatched + s.ready <= t.dispatched + t.ready
    decreases |es|
  {
    if es != [] {
      NextKeeps(s, es[0]);
      NextOrder(s, es[0]);
      RunOrder(Next(s, es[0]), es[1..], t);
    }
  }

  /** The thread at position `k` of the ready list is the one dispatched after `k` others. */
  lemma FirstReadyFirstRun(s: State, es: seq<Event>, t: State, k: nat)
    requires Inv(s) && Run(s, es, t) && k < |s.ready| && |s.dispatched| + k < |t.dispatched|
    ensures t.dispatched[|s.dispatched| + k] == s.ready[k]
  {
    RunOrder(s, es, t);
    ServedInOrder(s, t, k);
  }

  lemma ServedInOrder(s: State, t: State, k: nat)
    requires s.dispatched + s.ready <= t.dispatched + t.ready
    requires k < |s.ready| && |s.dispatched| + k < |t.dispatched|
    ensures t.dispatched[|s.dispatched| + k] == s.ready[k]
  {
    var i := |s.dispatched| + k;
    assert (s.dispatched + s.ready)[i] == (t.dispatched + t.ready)[i];
  }

  /** A finished thread stays finished and is never dispatched again. */
  lemma {:induction false} DoneIsNotDispatched(s: State, es: seq<Event>, t: State, x: Tid)
    requires Inv(s) && Run(s, es, t) && x < |s.threads| && s.threads[x].place == Done
    ensures x < |t.threads| && t.threads[x].place == Done
    ensures s.dispatched <= t.dispatched && x !in t.dispatched[|s.dispatched|..]
    decreases |es|
  {
    if es != [] {
      NextKeeps(s, es[0]);
      var u := Next(s, es[0]);
      NextOrder(s, es[0]);
      NextDone(s, es[0], x);
      DoneIsOut(s, x);
      DoneIsNotDispatched(u, es[1..], t, x);
      NotInEither(s.dispatched, u.dispatched, t.dispatched, x);
    }
  }

  lemma NotInEither(a: seq<Tid>, b: seq<Tid>, c: seq<Tid>, x: Tid)
    requires a <= b <= c && x !in b[|a|..] && x !in c[|b|..]
    ensures x !in c[|a|..]
  {
    assert c[|a|..] == b[|a|..] + c[|b|..];
  }

  // ----------------------------------------------------- what Inv says

  /** How often a thread is on the queues of the semaphores. */
  ghost function OnQueues(sems: seq<Semaphore>, t: Tid): nat
  {
    if sems == [] then 0 else OnQueues(sems[..|sems| - 1], t) + multiset(sems[|sems| - 1].queue)[t]
  }

  lemma {:induction false} OnQueuesUpTo(s: State, t: Tid, n: nat)
    requires Inv(s) && t < |s.threads| && n <= |s.sems|
    ensures var th := s.threads[t];
            OnQueues(s.sems[..n], t) == if th.status == Blocked && th.place.InP? && th.place.sem < n then 1 else 0
  {
    if n > 0 {
      OnQueuesUpTo(s, t, n - 1);
      assert s.sems[..n][..n - 1] == s.sems[..n - 1];
      assert SemInv(s.threads, s.sems[n - 1], n - 1);
      assert multiset(s.sems[n - 1].queue)[t] == if WaitsOn(s.threads[t], n - 1) then 1 else 0;
    }
  }

  function One(b: bool): nat
  {
    if b then 1 else 0
  }

  /** A thread is in exactly one place: not started, running, finished, or once on one list. */
  lemma Partition(s: State, t: Tid)
    requires Inv(s) && t < |s.threads|
    ensures var th := s.threads[t];
            && multiset(s.ready)[t] == One(th.status == Ready)
            && OnQueues(s.sems, t) == One(th.status == Blocked && th.place != Done)
            && (th.status == Running ==> t == s.current)
            && One(th.status == JustCreated) + One(th.status == Running) + One(th.place == Done)
               + multiset(s.ready)[t] + OnQueues(s.sems, t) == 1
  {
    OnQueuesUpTo(s, t, |s.sems|);
    assert s.sems[..|s.sems|] == s.sems;
    assert Fits(s.threads[t], t == s.current, |s.sems|);
  }

  /** A positive value and a waiter mean that a woken thread is about to look at the value. */
  lemma NoLostWakeup(s: State, k: nat) returns (t: Tid)
    requires Inv(s) && k < |s.sems| && s.sems[k].queue != [] && s.sems[k].value > 0
    ensures t < |s.threads| && s.threads[t].place.InP? && s.threads[t].place.sem == k
    ensures t in s.ready || (t == s.current && s.threads[t].status == Running)
  {
    assert SemInv(s.threads, s.sems[k], k);
    t := WokenWitness(s.threads, k);
    assert Fits(s.threads[t], t == s.current, |s.sems|);
    if s.threads[t].status == Ready {
      assert multiset(s.ready)[t] == 1;
    }
  }

  /** When the machine idles, every semaphore with a waiter is at zero. */
  lemma IdleMeansNothingToTake(s: State, k: nat)
    requires Inv(s) && Sleeping(s) && s.ready == [] && k < |s.sems| && s.sems[k].queue != []
    ensures s.sems[k].value == 0
  {
    assert SemInv(s.threads, s.sems[k], k);
    if s.sems[k].value > 0 {
      var t := NoLostWakeup(s, k);
      assert false;
    }
  }

  /** The main thread runs, and interrupts are on. */
  function PowerOn(): State
  {
    State([Thread(Running, Code)], 0, [], [], I.IntOn, {}, {}, [])
  }

  lemma PowerOnGood()
    ensures Inv(PowerOn())
  {
  }

  /** The invariants hold in every state that the machine can reach. */
  lemma Reachable(es: seq<Event>, t: State, k: nat)
    requires (PowerOnGood(); Run(PowerOn(), es, t)) && k < |t.sems|
    ensures Inv(t)
    ensures t.sems[k].value >= 0 && (t.sems[k].queue != [] ==> t.sems[k].value <= Woken(t.threads, k))
    ensures Sleeping(t) ==> t.level == I.IntOff
  {
    PowerOnGood();
    RunKeeps(PowerOn(), es, t);
    assert SemInv(t.threads, t.sems[k], k);
  }

  // ---------------------------------------------------------- the ledger

  /** The event is a V on semaphore `k`. */
  predicate IsV(e: Event, k: nat)
  {
    e == Up(k) || e == Interrupt(k)
  }

  /** The event is the end of a P on semaphore `k`: the thread goes on in its own code. */
  ghost predicate EndsP(s: State, e: Event, k: nat)
    requires Inv(s) && Enabled(s, e)
  {
    && (e == Down(k) || (e == Recheck && s.threads[s.current].place.sem == k))
    && Next(s, e).threads[s.current].place == Code
  }

  /** The V's on `k` less the P's on it that were completed. */
  ghost function Balance(s: State, es: seq<Event>, t: State, k: nat): int
    requires Inv(s) && Run(s, es, t)
    decreases |es|
  {
    if es == [] then 0
    else
      NextKeeps(s, es[0]);
      Change(s, es[0], k) + Balance(Next(s, es[0]), es[1..], t, k)
  }

  /** What an event adds to the value of semaphore `k`. */
  ghost function Change(s: State, e: Event, k: nat): int
    requires Inv(s) && Enabled(s, e)
  {
    One(IsV(e, k)) - One(EndsP(s, e, k))
  }

  ghost predicate Balanced(s: State, e: Event, k: nat)
    requires Inv(s) && Enabled(s, e) && k < |s.sems|
  {
    k < |Next(s, e).sems| && Next(s, e).sems[k].value == s.sems[k].value + Change(s, e, k)
  }

  lemma UppedBalance(s: State, j: nat, k: nat)
    requires Inv(s) && j < |s.sems| && k < |s.sems|
    ensures |AfterV(s, j).sems| == |s.sems| && AfterV(s, j).sems[k].value == s.sems[k].value + One(j == k)
  {
  }

  lemma UpBalance(s: State, j: nat, k: nat)
    requires Inv(s) && Enabled(s, Up(j)) && k < |s.sems|
    ensures Balanced(s, Up(j), k)
  {
    UppedBalance(s, j, k);
  }

  lemma InterruptBalance(s: State, j: nat, k: nat)
    requires Inv(s) && Enabled(s, Interrupt(j)) && k < |s.sems|
    ensures Balanced(s, Interrupt(j), k)
  {
    UppedBalance(s, j, k);
  }

  lemma TriedBalance(s: State, j: nat, oldLevel: I.IntStatus, k: nat)
    requires s.current < |s.threads| && j < |s.sems| && k < |s.sems|
    ensures var t := Tried(s, j, oldLevel);
            && |t.sems| == |s.sems| && s.current < |t.threads|
            && t.sems[k].value == s.sems[k].value - One(j == k && t.threads[s.current].place == Code)
  {
  }

  lemma RecheckBalance(s: State, k: nat)
    requires Inv(s) && Enabled(s, Recheck) && k < |s.sems|
    ensures Balanced(s, Recheck, k)
  {
    TriedBalance(s, s.threads[s.current].place.sem, s.threads[s.current].place.oldLevel, k);
  }

  lemma DownBalance(s: State, j: nat, k: nat)
    requires Inv(s) && Enabled(s, Down(j)) && k < |s.sems|
    ensures Balanced(s, Down(j), k)
  {
    TriedBalance(s, j, s.level, k);
  }

  lemma YieldBalance(s: State, k: nat)
    requires Inv(s) && Enabled(s, Yield) && k < |s.sems|
    ensures Balanced(s, Yield, k)
  {
  }

  lemma DispatchBalance(s: State, k: nat)
    requires Inv(s) && Enabled(s, Dispatch) && k < |s.sems|
    ensures Balanced(s, Dispatch, k)
  {
  }

  lemma NextBalance(s: State, e: Event, k: nat)
    requires Inv(s) && Enabled(s, e) && k < |s.sems|
    ensures Balanced(s, e, k)
  {
    match e
    case Up(j) => UpBalance(s, j, k);
    case Interrupt(j) => InterruptBalance(s, j, k);
    case Down(j) => DownBalance(s, j, k);
    case Recheck => RecheckBalance(s, k);
    case Yield => YieldBalance(s, k);
    case Dispatch => DispatchBalance(s, k);
    case _ =>
  }

  lemma {:induction false} RunBalance(s: State, es: seq<Event>, t: State, k: nat)
    requires Inv(s) && Run(s, es, t) && k < |s.sems|
    ensures k < |t.sems| && t.sems[k].value == s.sems[k].value + Balance(s, es, t, k)
    decreases |es|
  {
    if es != [] {
      NextKeeps(s, es[0]);
      NextBalance(s, es[0], k);
      RunBalance(Next(s, es[0]), es[1..], t, k);
    }
  }

  /** Since a semaphore was made: value = initial value + V's - completed P's, and never negative. */
  lemma Ledger(s: State, initial: nat, es: seq<Event>, t: State)
    requires Inv(s) && Enabled(s, NewSemaphore(initial))
    requires (NextKeeps(s, NewSemaphore(initial)); Run(Next(s, NewSemaphore(initial)), es, t))
    ensures |s.sems| < |t.sems| && 0 <= t.sems[|s.sems|].value
    ensures t.sems[|s.sems|].value == initial
              + (NextKeeps(s, NewSemaphore(initial)); Balance(Next(s, NewSemaphore(initial)), es, t, |s.sems|))
  {
    var u := Next(s, NewSemaphore(initial));
    NextKeeps(s, NewSemaphore(initial));
    RunBalance(u, es, t, |s.sems|);
    RunKeeps(u, es, t);
    assert SemInv(t.threads, t.sems[|s.sems|], |s.sems|);
  }
}
