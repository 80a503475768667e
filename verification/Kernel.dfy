/**
 The operations of threads, scheduler and semaphores as they update the kernel's
 state, on the interrupt hardware. Code after a context switch runs when its thread is
 dispatched again, so an operation here ends where the processor changes hands: `Recheck`
 goes on with a P that slept, and `Run` with a Yield. A machine can idle without end, so
 an operation that sleeps is told for how many rounds of idling to watch it.
 */
module Kernels {
  import I = Interrupts
  import opened Lists
  import opened Threads
  import opened Systems
  import opened SystemRuns

  function Tids(cells: seq<Cell<Tid>>): seq<Tid>
  {
    seq(|cells|, i requires 0 <= i < |cells| => cells[i].item)
  }

  // --------------------------------------------------------- P, on the machine

  /** A thread that still runs does not sleep. */
  ghost function SleptIfAsleep(m: System, rounds: nat, script: I.Script): (System, Outcome)
    requires SystemInv(m, script)
  {
    if Sleeping(m.ker) then Slept(m, rounds, script) else (m, Resumed)
  }

  lemma TriedGood(m: System, k: nat, oldLevel: I.IntStatus, script: I.Script)
    requires SystemInv(m, script) && MayTry(m.ker, k, oldLevel)
    ensures SystemInv(WithKernel(m, Tried(m.ker, k, oldLevel)), script)
  {
    TriedKeeps(m.ker, k, oldLevel);
    WithKernelGood(m, Tried(m.ker, k, oldLevel), script);
  }

  lemma FinishedGood(m: System, script: I.Script)
    requires SystemInv(m, script) && Enabled(m.ker, Finish)
    ensures Asleep(WithKernel(m, Finished(m.ker)), script)
  {
    FinishedKeeps(m.ker);
    WithKernelGood(m, Finished(m.ker), script);
  }

  /** The test of P's loop, and the sleep that follows when the value is zero. */
  ghost function AfterTry(m: System, k: nat, oldLevel: I.IntStatus, rounds: nat, script: I.Script): (System, Outcome)
    requires SystemInv(m, script) && MayTry(m.ker, k, oldLevel)
  {
    TriedGood(m, k, oldLevel, script);
    SleptIfAsleep(WithKernel(m, Tried(m.ker, k, oldLevel)), rounds, script)
  }

  lemma SleptIfAsleepKeeps(m: System, rounds: nat, script: I.Script)
    requires SystemInv(m, script)
    ensures SystemInv(SleptIfAsleep(m, rounds, script).0, script)
  {
    if Sleeping(m.ker) {
      SleptKeeps(m, rounds, script);
    }
  }

  /** A thread that was interrupted by a tick is still running. */
  lemma TickedRuns(m: System, script: I.Script)
    requires SystemInv(m, script) && Possible(m, Tick)
    ensures Inv(Ticked(m, script).ker) && Enabled(Ticked(m, script).ker, Yield)
  {
  }

  /** The first ready thread is not one that has finished. */
  lemma HeadRuns(s: State)
    requires Inv(s) && s.ready != []
    ensures s.ready[0] < |s.threads| && s.ready[0] !in s.doomed
  {
    InvBounds(s);
  }

  /** One round of the loop in Sleep. */
  lemma WaitedOnce(m: System, rounds: nat, idle: Round, next: System, stop: bool)
    requires m.ker.ready == [] && rounds > 0 && idle(m) == (next, stop)
    ensures Waited(m, rounds, idle) == if stop then (next, Stopped) else Waited(next, rounds - 1, idle)
  {
  }

  // -------------------------------------------------------- V's one after another

  lemma {:induction false} HandledAppend(s: State, a: seq<nat>, b: seq<nat>)
    requires Open(s) && Below(a, |s.sems|) && Below(b, |s.sems|)
    ensures Below(a + b, |s.sems|) && Handled(s, a + b) == Handled(Handled(s, a), b)
    decreases |a|
  {
    if a == [] {
      assert a + b == b;
    } else {
      UppedOpen(s, a[0]);
      assert (a + b)[0] == a[0] && (a + b)[1..] == a[1..] + b;
      HandledAppend(Next(s, Interrupt(a[0])), a[1..], b);
    }
  }

  /** With the V's `ups` still to come, the kernel will be `goal`. */
  ghost predicate ToDo(s: State, ups: seq<nat>, goal: State)
  {
    Open(s) && Below(ups, |s.sems|) && Handled(s, ups) == goal
  }

  lemma ToDoOne(s: State, r: I.Request, rest: seq<I.Request>, goal: State)
    requires ToDo(s, Signals([r] + rest), goal)
    ensures if r.Signal? then r.sem < |s.sems| && ToDo(AfterV(s, r.sem), Signals(rest), goal)
            else ToDo(s, Signals(rest), goal)
  {
    assert ([r] + rest)[1..] == rest;
    if r.Signal? {
      var ups := Signals([r] + rest);
      assert ups[0] == r.sem && ups[1..] == Signals(rest);
      UppedOpen(s, r.sem);
    } else {
      assert Signals([r] + rest) == Signals(rest);
    }
  }

  /** The requests from number `i` on are still to come. */
  ghost predicate LeftToDo(s: State, rs: seq<I.Request>, i: nat, goal: State)
  {
    i <= |rs| && ToDo(s, Signals(rs[i..]), goal)
  }

  lemma ToDoFrom(s: State, rs: seq<I.Request>, i: nat, goal: State)
    requires i < |rs| && LeftToDo(s, rs, i, goal)
    ensures ToDo(s, Signals([rs[i]] + rs[i + 1..]), goal)
  {
    assert rs[i..] == [rs[i]] + rs[i + 1..];
  }

  lemma DoneAll(s: State, rs: seq<I.Request>, goal: State)
    requires LeftToDo(s, rs, |rs|, goal)
    ensures s == goal
  {
    assert rs[|rs|..] == [];
  }

  /** The V's of one handler come before those of the next. */
  lemma ToDoSplit(s: State, script: I.Script, log: seq<I.Firing>, k: nat, goal: State) returns (mid: State)
    requires k < |log| && ToDo(s, SignalsFrom(script, log, k), goal)
    ensures ToDo(s, Signals(script(k, log[k].interrupt)), mid) && ToDo(mid, SignalsFrom(script, log, k + 1), goal)
  {
    var a, b := Signals(script(k, log[k].interrupt)), SignalsFrom(script, log, k + 1);
    BelowSplit(a, b, |s.sems|);
    HandledAppend(s, a, b);
    mid := Handled(s, a);
  }

  lemma BelowSplit(a: seq<nat>, b: seq<nat>, n: nat)
    requires Below(a + b, n)
    ensures Below(a, n) && Below(b, n)
  {
    forall j | 0 <= j < |a|
      ensures a[j] < n
    {
      assert a[j] == (a + b)[j];
    }
    forall j | 0 <= j < |b|
      ensures b[j] < n
    {
      assert b[j] == (a + b)[|a| + j];
    }
  }

  // ------------------------------------------------------------- the class

  class Kernel {
    const interrupt: I.Interrupt
    const readyList: List<Tid>
    var threads: seq<Thread>
    var current: Tid
    var sems: seq<Semaphore>
    var doomed: set<Tid>
    ghost var deleted: set<Tid>
    ghost var dispatched: seq<Tid>

    ghost function ReadyTids(): seq<Tid>
      reads readyList
    {
      Tids(readyList.Contents())
    }

    /** The threads and semaphores. */
    ghost function Ker(): State
      reads this, readyList, interrupt
    {
      State(threads, current, ReadyTids(), sems, interrupt.level, doomed, deleted, dispatched)
    }

    /** The machine: hardware and kernel. */
    ghost function Value(): System
      reads this, readyList, interrupt, interrupt.pending
    {
      System(interrupt.Value(), Ker())
    }

    ghost predicate Linked()
      reads readyList, readyList.repr, interrupt, interrupt.pending, interrupt.pending.repr
    {
      readyList.Valid() && interrupt.Linked()
    }

    /** The main thread runs, interrupts are on, and nothing is scheduled. */
    constructor (handlers: I.Script)
      requires I.FutureScript(handlers)
      ensures Linked() && interrupt.script == handlers
      ensures fresh(interrupt) && fresh(interrupt.pending) && fresh(readyList)
      ensures Value() == System(I.PowerOn(I.IntOn), PowerOn())
    {
      interrupt := new I.Interrupt(handlers);
      readyList := new List<Tid>();
      threads, current, sems := [Thread(Running, Code)], 0, [];
      doomed, deleted, dispatched := {}, {}, [];
      new;
      interrupt.level := I.IntOn;
    }

    // Scheduler

    method ReadyToRun(t: Tid)
      requires readyList.Valid() && t < |threads|
      modifies this`threads, readyList, readyList.repr
      ensures readyList.Valid() && fresh(readyList.repr - old(readyList.repr))
      ensures Ker() == MadeReady(old(Ker()), t)
    {
      threads := threads[t := threads[t].(status := Ready)];
      readyList.Append(t);
    }

    /** Null, when no thread is ready, is the empty sequence. */
    method FindNextToRun() returns (next: seq<Tid>)
      requires readyList.Valid()
      modifies readyList
      ensures readyList.Valid() && readyList.repr == old(readyList.repr)
      ensures next + ReadyTids() == old(ReadyTids()) && (next == [] <==> old(ReadyTids()) == []) && |next| <= 1
    {
      var cells := readyList.SortedRemove();
      next := Tids(cells);
    }

    /** Interrupts are off when the processor changes hands, and the thread deleted is not the one that goes on. */
    method Run(next: Tid)
      requires next < |threads| && interrupt.level == I.IntOff && next !in doomed
      modifies this, interrupt`level
      ensures Ker() == Switched(old(Ker()), next)
    {
      current := next;
      dispatched := dispatched + [next];
      var place := threads[next].place;
      if !place.InP? {
        threads := threads[next := Thread(Running, Code)];
      } else {
        threads := threads[next := Thread(Running, place)];
      }
      if place.InP? || place.InYield? {
        deleted := deleted + doomed;
        doomed := {};
      }
      if place.InYield? {
        interrupt.level := place.oldLevel;
      } else if !place.InP? {
        interrupt.level := I.IntOn;
      }
    }

    // Threads

    method NewThread() returns (t: Tid)
      requires Inv(Ker()) && Enabled(Ker(), Event.NewThread)
      modifies this`threads
      ensures t == old(|threads|) && Ker() == Next(old(Ker()), Event.NewThread) && Inv(Ker())
    {
      NewThreadKeeps(Ker());
      t := |threads|;
      threads := threads + [Thread(JustCreated, Fresh)];
    }

    method Fork(t: Tid)
      requires readyList.Valid() && Inv(Ker()) && Enabled(Ker(), Event.Fork(t))
      modifies this, readyList, readyList.repr, interrupt`level
      ensures readyList.Valid() && fresh(readyList.repr - old(readyList.repr))
      ensures Ker() == Next(old(Ker()), Event.Fork(t)) && Inv(Ker())
    {
      NextKeeps(Ker(), Event.Fork(t));
      var oldLevel := interrupt.level;
      interrupt.level := I.IntOff;
      ReadyToRun(t);
      interrupt.level := oldLevel;
    }

    method Yield()
      requires readyList.Valid() && Inv(Ker()) && Enabled(Ker(), Event.Yield)
      modifies this, readyList, readyList.repr, interrupt`level
      ensures readyList.Valid() && fresh(readyList.repr - old(readyList.repr))
      ensures Ker() == Next(old(Ker()), Event.Yield) && Inv(Ker())
    {
      NextKeeps(Ker(), Event.Yield);
      if ReadyTids() != [] {
        HeadRuns(Ker());
      }
      LetNextRun();
    }

    method LetNextRun()
      requires readyList.Valid() && current < |threads|
      requires ReadyTids() != [] ==> ReadyTids()[0] < |threads| && ReadyTids()[0] !in doomed
      modifies this, readyList, readyList.repr, interrupt`level
      ensures readyList.Valid() && fresh(readyList.repr - old(readyList.repr))
      ensures Ker() == Yielded(old(Ker()))
    {
      ghost var ready := ReadyTids();
      var oldLevel := interrupt.level;
      interrupt.level := I.IntOff;
      var next := FindNextToRun();
      if next != [] {
        assert next[0] == ready[0] && ReadyTids() == ready[1..];
        GiveWay(next[0], oldLevel);
      } else {
        interrupt.level := oldLevel;
      }
    }

    method GiveWay(next: Tid, oldLevel: I.IntStatus)
      requires readyList.Valid()
      requires current < |threads| && next < |threads| && interrupt.level == I.IntOff && next !in doomed
      modifies this, readyList, readyList.repr, interrupt`level
      ensures readyList.Valid() && fresh(readyList.repr - old(readyList.repr))
      ensures Ker() == Switched(Aside(old(Ker()), oldLevel), next)
    {
      threads := threads[current := Thread(Running, InYield(oldLevel))];
      ReadyToRun(current);
      Run(next);
    }

    // Semaphores

    method NewSemaphore(initial: nat) returns (k: nat)
      requires Inv(Ker()) && Enabled(Ker(), Event.NewSemaphore(initial))
      modifies this`sems
      ensures k == old(|sems|) && Ker() == Next(old(Ker()), Event.NewSemaphore(initial)) && Inv(Ker())
    {
      NewSemaphoreKeeps(Ker(), initial);
      k := |sems|;
      sems := sems + [Semaphore(initial, [])];
    }

    /** Called by a thread, or by a handler that a thread or the idle machine is interrupted for. */
    method V(k: nat)
      requires readyList.Valid() && Inv(Ker()) && k < |sems|
      modifies this, readyList, readyList.repr, interrupt`level
      ensures readyList.Valid() && fresh(readyList.repr - old(readyList.repr))
      ensures Ker() == AfterV(old(Ker()), k) && Inv(Ker())
    {
      UppedKeeps(Ker(), k);
      Increment(k);
    }

    method Increment(k: nat)
      requires readyList.Valid() && k < |sems| && (sems[k].queue != [] ==> sems[k].queue[0] < |threads|)
      modifies this, readyList, readyList.repr, interrupt`level
      ensures readyList.Valid() && fresh(readyList.repr - old(readyList.repr))
      ensures Ker() == Upped(old(Ker()), k)
    {
      var oldLevel := interrupt.level;
      interrupt.level := I.IntOff;
      if sems[k].queue != [] {
        var thread := sems[k].queue[0];
        sems := sems[k := sems[k].(queue := sems[k].queue[1..])];
        ReadyToRun(thread);
      }
      sems := sems[k := sems[k].(value := sems[k].value + 1)];
      interrupt.level := oldLevel;
    }

    // Handlers, and the machine without a thread to run

    /** A request of a handler, as far as the kernel is concerned. */
    method DoSignal(r: I.Request, ghost rest: seq<I.Request>, ghost goal: State)
      requires readyList.Valid() && ToDo(Ker(), Signals([r] + rest), goal)
      modifies this, readyList, readyList.repr, interrupt`level
      ensures readyList.Valid() && fresh(readyList.repr - old(readyList.repr))
      ensures ToDo(Ker(), Signals(rest), goal)
    {
      ToDoOne(Ker(), r, rest, goal);
      if r.Signal? {
        V(r.sem);
      }
    }

    /** The V's of one handler. */
    method DoSignals(rs: seq<I.Request>, ghost goal: State)
      requires readyList.Valid() && ToDo(Ker(), Signals(rs), goal)
      modifies this, readyList, readyList.repr, interrupt`level
      ensures readyList.Valid() && fresh(readyList.repr - old(readyList.repr))
      ensures Ker() == goal
    {
      for i := 0 to |rs|
        invariant readyList.Valid() && fresh(readyList.repr - old(readyList.repr))
        invariant LeftToDo(Ker(), rs, i, goal)
      {
        ToDoFrom(Ker(), rs, i, goal);
        DoSignal(rs[i], rs[i + 1..], goal);
      }
      DoneAll(Ker(), rs, goal);
    }

    /** The V's of handler number `k`; those of later ones are still to come. */
    method DoHandler(k: nat, ghost goal: State)
      requires readyList.Valid() && k < |interrupt.fired|
      requires ToDo(Ker(), SignalsFrom(interrupt.script, interrupt.fired, k), goal)
      modifies this, readyList, readyList.repr, interrupt`level
      ensures readyList.Valid() && fresh(readyList.repr - old(readyList.repr))
      ensures ToDo(Ker(), SignalsFrom(interrupt.script, interrupt.fired, k + 1), goal)
    {
      ghost var mid := ToDoSplit(Ker(), interrupt.script, interrupt.fired, k, goal);
      DoSignals(interrupt.script(k, interrupt.fired[k].interrupt), mid);
    }

    /** The V's of the handlers from number `k` on that have run. */
    method DoHandlers(k: nat, ghost goal: State)
      requires readyList.Valid() && ToDo(Ker(), SignalsFrom(interrupt.script, interrupt.fired, k), goal)
      modifies this, readyList, readyList.repr, interrupt`level
      ensures readyList.Valid() && fresh(readyList.repr - old(readyList.repr))
      ensures Ker() == goal
      decreases |interrupt.fired| - k
    {
      if k < |interrupt.fired| {
        DoHandler(k, goal);
        DoHandlers(k + 1, goal);
      }
    }

    /** The hardware has gone from `m.hw` to where it is, and the handlers that ran do their V's. */
    method Serve(before: nat, ghost m: System)
      requires Linked() && SystemInv(m, interrupt.script) && Open(m.ker) && Ker() == m.ker && before == |m.hw.fired|
      modifies this, readyList, readyList.repr, interrupt`level
      ensures Linked() && fresh(readyList.repr - old(readyList.repr))
      ensures Value() == System(old(interrupt.Value()), WithHandlers(m, old(interrupt.Value()), interrupt.script))
    {
      ghost var h := interrupt.Value();
      WiredFrom(interrupt.script, interrupt.fired, before, |m.ker.sems|);
      DoHandlers(before, WithHandlers(m, h, interrupt.script));
      assert interrupt.Value() == h;
    }

    /** The hardware idles, and the handlers it has run do their V's. */
    method Idle() returns (stop: bool)
      requires Linked() && Asleep(Value(), interrupt.script)
      modifies this, readyList, readyList.repr, interrupt, interrupt.pending, interrupt.pending.repr
      ensures Linked() && fresh(readyList.repr - old(readyList.repr))
      ensures fresh(interrupt.pending.repr - old(interrupt.pending.repr))
      ensures Value() == Idled(old(Value()), interrupt.script).0 && stop == Idled(old(Value()), interrupt.script).1
    {
      ghost var m, script := Value(), interrupt.script;
      var before := |interrupt.fired|;
      I.IdleKeeps(m.hw, script);
      stop := interrupt.Idle();
      Serve(before, m);
    }

    /** The same, as a round of the loop in Sleep. */
    method IdleOnce(ghost idle: Round, ghost good: Kind) returns (stop: bool)
      requires Linked() && IsRound(idle, good, interrupt.script) && good(Value())
      modifies this, readyList, readyList.repr, interrupt, interrupt.pending, interrupt.pending.repr
      ensures Linked() && fresh(readyList.repr - old(readyList.repr))
      ensures fresh(interrupt.pending.repr - old(interrupt.pending.repr))
      ensures idle(old(Value())) == (Value(), stop) && good(Value())
    {
      assert Considered(Value());
      IdledKeeps(Value(), interrupt.script);
      stop := Idle();
      assert Considered(Value());
    }

    /** The test of the loop in Sleep. */
    method TakeNext(ghost t: System) returns (next: seq<Tid>)
      requires Linked() && Value() == t
      modifies readyList
      ensures Linked() && readyList.repr == old(readyList.repr) && Taken(t, next)
    {
      next := FindNextToRun();
      assert interrupt.Value() == t.hw;
    }

    /** The machine is `t`, but for the thread `next` that was taken off the ready list. */
    ghost predicate Taken(t: System, next: seq<Tid>)
      reads this, readyList, interrupt, interrupt.pending
    {
      && Value() == System(t.hw, t.ker.(ready := ReadyTids()))
      && |next| <= 1 && next + ReadyTids() == t.ker.ready && (next == [] ==> t.ker.ready == [])
    }

    /** A round of the loop in Sleep: the machine idles, and the ready list is looked at again unless it stops. */
    method IdleAndLook(ghost idle: Round, ghost good: Kind, ghost t: System, ghost left: nat)
      returns (stop: bool, next: seq<Tid>, ghost u: System)
      requires Linked() && IsRound(idle, good, interrupt.script) && good(t) && Taken(t, []) && left > 0
      modifies this, readyList, readyList.repr, interrupt, interrupt.pending, interrupt.pending.repr
      ensures Linked() && fresh(readyList.repr - old(readyList.repr))
      ensures fresh(interrupt.pending.repr - old(interrupt.pending.repr))
      ensures good(u) && if stop then Value() == u && next == [] else Taken(u, next)
      ensures Waited(t, left, idle) == if stop then (u, Stopped) else Waited(u, left - 1, idle)
    {
      assert Value() == t;
      stop := IdleOnce(idle, good);
      u, next := Value(), [];
      WaitedOnce(t, left, idle, u, stop);
      if !stop {
        next := TakeNext(u);
      }
    }

    /** The loop of Sleep; `t` is the machine before the next thread was taken off the ready list. */
    method Await(rounds: nat, ghost idle: Round, ghost good: Kind)
      returns (next: seq<Tid>, outcome: Outcome, ghost t: System)
      requires Linked() && IsRound(idle, good, interrupt.script) && good(Value())
      modifies this, readyList, readyList.repr, interrupt, interrupt.pending, interrupt.pending.repr
      ensures Linked() && fresh(readyList.repr - old(readyList.repr))
      ensures fresh(interrupt.pending.repr - old(interrupt.pending.repr))
      ensures Waited(old(Value()), rounds, idle) == (t, outcome) && good(t)
      ensures if outcome == Resumed then Taken(t, next) && next != [] else Value() == t
    {
      t := Value();
      next := TakeNext(t);
      var stop;
      ghost var left;
      stop, next, t, left := KeepIdling(rounds, idle, good, t, next);
      outcome := if stop then Stopped else if next == [] then Idling else Resumed;
    }

    /** Rounds of idling until a thread is ready, the machine stops, or no round is left. */
    method KeepIdling(rounds: nat, ghost idle: Round, ghost good: Kind, ghost start: System, first: seq<Tid>)
      returns (stop: bool, next: seq<Tid>, ghost t: System, ghost left: nat)
      requires Linked() && IsRound(idle, good, interrupt.script) && good(start) && Taken(start, first)
      modifies this, readyList, readyList.repr, interrupt, interrupt.pending, interrupt.pending.repr
      ensures Linked() && fresh(readyList.repr - old(readyList.repr))
      ensures fresh(interrupt.pending.repr - old(interrupt.pending.repr))
      ensures good(t) && if stop then Value() == t && next == [] else Taken(t, next)
      ensures Waited(start, rounds, idle) == if stop then (t, Stopped) else Waited(t, left, idle)
      ensures next != [] || stop || left == 0
    {
      var i := rounds;
      stop, next, t := false, first, start;
      while next == [] && !stop && i > 0
        invariant Linked() && fresh(readyList.repr - old(readyList.repr))
        invariant fresh(interrupt.pending.repr - old(interrupt.pending.repr))
        invariant good(t) && if stop then Value() == t && next == [] else Taken(t, next)
        invariant Waited(start, rounds, idle) == if stop then (t, Stopped) else Waited(t, i, idle)
      {
        stop, next, t := IdleAndLook(idle, good, t, i);
        i := i - 1;
      }
      left := i;
    }

    method Sleep(rounds: nat) returns (outcome: Outcome)
      requires Linked() && Asleep(Value(), interrupt.script)
      modifies this, readyList, readyList.repr, interrupt, interrupt.pending, interrupt.pending.repr
      ensures Linked() && fresh(readyList.repr - old(readyList.repr))
      ensures fresh(interrupt.pending.repr - old(interrupt.pending.repr))
      ensures (Value(), outcome) == Slept(old(Value()), rounds, interrupt.script)
    {
      var next;
      ghost var t;
      IdleRoundIsRound(interrupt.script);
      next, outcome, t := Await(rounds, IdleRound(interrupt.script), Sleepers(interrupt.script));
      if outcome == Resumed {
        SwitchTo(next, t);
      }
    }

    method SwitchTo(next: seq<Tid>, ghost t: System)
      requires Linked() && Asleep(t, interrupt.script) && Taken(t, next) && next != []
      modifies this, interrupt`level
      ensures Linked() && (Value(), Resumed) == Switch(t, interrupt.script)
    {
      HeadRuns(t.ker);
      assert t.ker.ready[0] == next[0] && t.ker.ready[1..] == ReadyTids();
      Run(next[0]);
    }

    /** The current thread is done, and another runs, the machine stops, or it idles. */
    method Finish(rounds: nat) returns (outcome: Outcome)
      requires Linked() && SystemInv(Value(), interrupt.script) && Enabled(Ker(), Event.Finish)
      modifies this, readyList, readyList.repr, interrupt, interrupt.pending, interrupt.pending.repr
      ensures Linked() && fresh(readyList.repr - old(readyList.repr))
      ensures fresh(interrupt.pending.repr - old(interrupt.pending.repr))
      ensures Asleep(WithKernel(old(Value()), Finished(old(Ker()))), interrupt.script)
      ensures (Value(), outcome) == Slept(WithKernel(old(Value()), Finished(old(Ker()))), rounds, interrupt.script)
      ensures SystemInv(Value(), interrupt.script)
    {
      ghost var m := Value();
      FinishedGood(m, interrupt.script);
      SleptKeeps(WithKernel(m, Finished(m.ker)), rounds, interrupt.script);
      outcome := EndAndSleep(rounds);
    }

    method EndAndSleep(rounds: nat) returns (outcome: Outcome)
      requires Linked() && current < |threads|
      requires Asleep(WithKernel(Value(), Finished(Ker())), interrupt.script)
      modifies this, readyList, readyList.repr, interrupt, interrupt.pending, interrupt.pending.repr
      ensures Linked() && fresh(readyList.repr - old(readyList.repr))
      ensures fresh(interrupt.pending.repr - old(interrupt.pending.repr))
      ensures (Value(), outcome) == Slept(WithKernel(old(Value()), Finished(old(Ker()))), rounds, interrupt.script)
    {
      End();
      outcome := Sleep(rounds);
    }

    /** The current thread is to be deleted. */
    method End()
      requires Linked() && current < |threads|
      modifies this, interrupt`level
      ensures Linked() && Value() == WithKernel(old(Value()), Finished(old(Ker())))
    {
      interrupt.level := I.IntOff;
      doomed := {current};
      threads := threads[current := Thread(Blocked, Done)];
      assert Ker() == Finished(old(Ker()));
    }

    method P(k: nat, rounds: nat) returns (outcome: Outcome)
      requires Linked() && SystemInv(Value(), interrupt.script) && Enabled(Ker(), Down(k))
      modifies this, readyList, readyList.repr, interrupt, interrupt.pending, interrupt.pending.repr
      ensures Linked() && fresh(readyList.repr - old(readyList.repr))
      ensures fresh(interrupt.pending.repr - old(interrupt.pending.repr))
      ensures (Value(), outcome) == AfterTry(old(Value()), k, old(interrupt.level), rounds, interrupt.script)
      ensures SystemInv(Value(), interrupt.script)
    {
      outcome := TryP(k, interrupt.level, rounds);
    }

    /** A thread that was dispatched inside P is back at the test of its loop. */
    method Recheck(rounds: nat) returns (outcome: Outcome)
      requires Linked() && SystemInv(Value(), interrupt.script) && Enabled(Ker(), Event.Recheck)
      modifies this, readyList, readyList.repr, interrupt, interrupt.pending, interrupt.pending.repr
      ensures Linked() && fresh(readyList.repr - old(readyList.repr))
      ensures fresh(interrupt.pending.repr - old(interrupt.pending.repr))
      ensures var place := old(threads[current].place);
              place.InP? &&
              (Value(), outcome) == AfterTry(old(Value()), place.sem, place.oldLevel, rounds, interrupt.script)
      ensures SystemInv(Value(), interrupt.script)
    {
      var place := threads[current].place;
      assert Fits(threads[current], true, |sems|);
      outcome := TryP(place.sem, place.oldLevel, rounds);
    }

    method TryP(k: nat, oldLevel: I.IntStatus, rounds: nat) returns (outcome: Outcome)
      requires Linked() && SystemInv(Value(), interrupt.script) && MayTry(Ker(), k, oldLevel)
      modifies this, readyList, readyList.repr, interrupt, interrupt.pending, interrupt.pending.repr
      ensures Linked() && fresh(readyList.repr - old(readyList.repr))
      ensures fresh(interrupt.pending.repr - old(interrupt.pending.repr))
      ensures (Value(), outcome) == AfterTry(old(Value()), k, oldLevel, rounds, interrupt.script)
      ensures SystemInv(Value(), interrupt.script)
    {
      ghost var m := Value();
      TriedGood(m, k, oldLevel, interrupt.script);
      SleptIfAsleepKeeps(WithKernel(m, Tried(m.ker, k, oldLevel)), rounds, interrupt.script);
      outcome := TestAndSleep(k, oldLevel, rounds);
    }

    method TestAndSleep(k: nat, oldLevel: I.IntStatus, rounds: nat) returns (outcome: Outcome)
      requires Linked() && Inv(Ker()) && MayTry(Ker(), k, oldLevel)
      requires SystemInv(WithKernel(Value(), Tried(Ker(), k, oldLevel)), interrupt.script)
      modifies this, readyList, readyList.repr, interrupt, interrupt.pending, interrupt.pending.repr
      ensures Linked() && fresh(readyList.repr - old(readyList.repr))
      ensures fresh(interrupt.pending.repr - old(interrupt.pending.repr))
      ensures var m := WithKernel(old(Value()), Tried(old(Ker()), k, oldLevel));
              (Value(), outcome) == SleptIfAsleep(m, rounds, interrupt.script)
    {
      var asleep := TestP(k, oldLevel);
      outcome := Resumed;
      if asleep {
        outcome := Sleep(rounds);
      }
    }

    /** The test in P's loop. */
    method TestP(k: nat, oldLevel: I.IntStatus) returns (asleep: bool)
      requires Linked() && Inv(Ker()) && MayTry(Ker(), k, oldLevel)
      modifies this, interrupt`level
      ensures Linked() && Value() == WithKernel(old(Value()), Tried(old(Ker()), k, oldLevel))
      ensures current < |threads| && asleep == Sleeping(Ker())
    {
      asleep := TakeOrQueue(k, oldLevel);
    }

    /** The thread takes the semaphore, or queues up. */
    method TakeOrQueue(k: nat, oldLevel: I.IntStatus) returns (asleep: bool)
      requires k < |sems| && current < |threads|
      modifies this, interrupt`level
      ensures Ker() == Tried(old(Ker()), k, oldLevel) && asleep == (old(sems[k].value) == 0)
    {
      interrupt.level := I.IntOff;
      asleep := sems[k].value == 0;
      if asleep {
        sems := sems[k := sems[k].(queue := sems[k].queue + [current])];
        threads := threads[current := Thread(Blocked, InP(k, oldLevel))];
      } else {
        sems := sems[k := sems[k].(value := sems[k].value - 1)];
        threads := threads[current := Thread(Running, Code)];
        interrupt.level := oldLevel;
      }
    }

    /** Time passes while a thread runs: handlers do their V's, and the thread yields if one asked for it. */
    method OneTick()
      requires Linked() && SystemInv(Value(), interrupt.script) && Possible(Value(), Tick)
      modifies this, readyList, readyList.repr, interrupt, interrupt.pending, interrupt.pending.repr
      ensures Linked() && fresh(readyList.repr - old(readyList.repr))
      ensures fresh(interrupt.pending.repr - old(interrupt.pending.repr))
      ensures Value() == AfterTick(old(Value()), interrupt.script)
    {
      TickedRuns(Value(), interrupt.script);
      var switch := TickHandlers();
      YieldOnReturn(switch);
    }

    method YieldOnReturn(switch: bool)
      requires Linked() && Inv(Ker()) && Enabled(Ker(), Event.Yield)
      modifies this, readyList, readyList.repr, interrupt`level, interrupt`status
      ensures Linked() && fresh(readyList.repr - old(readyList.repr))
      ensures Value() == if switch then YieldedFrom(old(Value())) else old(Value())
    {
      if switch {
        YieldInKernel();
      }
    }

    /** The yield is a kernel routine. The old mode is restored by the thread, when it goes on. */
    method YieldInKernel()
      requires Linked() && Inv(Ker()) && Enabled(Ker(), Event.Yield)
      modifies this, readyList, readyList.repr, interrupt`level, interrupt`status
      ensures Linked() && fresh(readyList.repr - old(readyList.repr))
      ensures Value() == YieldedFrom(old(Value()))
    {
      var oldStatus := interrupt.status;
      var alone := readyList.IsEmpty();
      assert alone <==> ReadyTids() == [];
      SetMode(I.SystemMode);
      YieldNow();
      if alone {
        SetMode(oldStatus);
      }
    }

    method SetMode(status: I.MachineStatus)
      requires Linked()
      modifies interrupt`status
      ensures Linked() && Value() == WithMode(old(Value()), status)
    {
      interrupt.status := status;
    }

    method TickHandlers() returns (switch: bool)
      requires Linked() && SystemInv(Value(), interrupt.script) && Possible(Value(), Tick)
      modifies this, readyList, readyList.repr, interrupt, interrupt.pending, interrupt.pending.repr
      ensures Linked() && fresh(readyList.repr - old(readyList.repr))
      ensures fresh(interrupt.pending.repr - old(interrupt.pending.repr))
      ensures Value() == Ticked(old(Value()), interrupt.script)
      ensures switch == I.TickYields(old(Value()).hw, interrupt.script)
    {
      ghost var m, script := Value(), interrupt.script;
      var before := |interrupt.fired|;
      I.OneTickKeeps(m.hw, script);
      switch := interrupt.OneTick();
      Serve(before, m);
    }

    method YieldNow()
      requires Linked() && Inv(Ker()) && Enabled(Ker(), Event.Yield)
      modifies this, readyList, readyList.repr, interrupt`level
      ensures Linked() && fresh(readyList.repr - old(readyList.repr))
      ensures Value() == WithKernel(old(Value()), Next(old(Ker()), Event.Yield))
    {
      if ReadyTids() != [] {
        HeadRuns(Ker());
      }
      LetNextRun();
    }
  }
}
