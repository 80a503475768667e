/**
 Whole runs of the kernel on its interrupt hardware: threads act, time ticks while
 interrupts are on, devices schedule interrupts, and the machine idles when no thread can
 run. What holds over every run of either half holds over every run of the machine.
 */
module SystemRuns {
  import I = Interrupts
  import IR = InterruptRuns
  import opened Threads
  import opened Systems

  /**
   What a thread does, a tick of the clock, a round of idling, an interrupt that kernel code
   schedules, or a change between user and system mode.
   */
  datatype Step = Do(event: Event) | Tick | Idle | Device(request: I.Request) | Mode(status: I.MachineStatus)

  ghost predicate Possible(m: System, e: Step)
    requires Inv(m.ker)
  {
    match e
    case Do(event) => !event.Interrupt? && Enabled(m.ker, event)
    case Tick =>
      m.ker.threads[m.ker.current] == Thread(Running, Code) && m.ker.level == I.IntOn && m.hw.status != I.IdleMode
    case Idle => Sleeping(m.ker) && m.ker.ready == [] && !I.NothingLeft(m.hw)
    case Device(r) => r.Schedule? && r.fromNow > 0
    case Mode(status) => m.ker.threads[m.ker.current] == Thread(Running, Code) && status != I.IdleMode
  }

  /** `Interrupt::OneTick` with the V's of the handlers it runs, up to the yield. */
  ghost function Ticked(m: System, script: I.Script): System
    requires SystemInv(m, script) && Possible(m, Tick)
  {
    var h := I.OneTicked(m.hw, script);
    System(h, WithHandlers(m, h, script))
  }

  /**
   The yield is made in system mode. The old mode is restored when the thread has the
   processor again: at once if no other was ready, and else in a step of its own.
   */
  ghost function AfterTick(m: System, script: I.Script): System
    requires SystemInv(m, script) && Possible(m, Tick)
  {
    if I.TickYields(m.hw, script) then YieldedFrom(Ticked(m, script)) else Ticked(m, script)
  }

  ghost function YieldedFrom(t: System): System
    requires Inv(t.ker) && Enabled(t.ker, Yield)
  {
    WithMode(WithKernel(t, Next(t.ker, Yield)), if t.ker.ready == [] then t.hw.status else I.SystemMode)
  }

  function WithMode(m: System, status: I.MachineStatus): System
  {
    m.(hw := m.hw.(status := status))
  }

  lemma WithModeGood(m: System, status: I.MachineStatus, script: I.Script)
    requires SystemInv(m, script)
    ensures SystemInv(WithMode(m, status), script)
  {
    I.SameHardware(m.hw, WithMode(m, status).hw);
  }

  ghost function After(m: System, e: Step, script: I.Script): System
    requires SystemInv(m, script) && Possible(m, e)
  {
    match e
    case Do(event) => WithKernel(m, Next(m.ker, event))
    case Tick => AfterTick(m, script)
    case Idle => Idled(m, script).0
    case Device(r) => m.(hw := I.Scheduled(m.hw, r))
    case Mode(status) => WithMode(m, status)
  }

  // -------------------------------------------------- every step keeps both halves

  lemma NextGrows(s: State, e: Event)
    requires Inv(s) && Enabled(s, e)
    ensures |s.sems| <= |Next(s, e).sems|
  {
    if |s.sems| > 0 {
      NextBalance(s, e, |s.sems| - 1);
    }
  }

  lemma DoKeeps(m: System, e: Event, script: I.Script)
    requires SystemInv(m, script) && Enabled(m.ker, e)
    ensures SystemInv(WithKernel(m, Next(m.ker, e)), script)
  {
    NextKeeps(m.ker, e);
    NextGrows(m.ker, e);
    WithKernelGood(m, Next(m.ker, e), script);
  }

  lemma TickedKeeps(m: System, script: I.Script)
    requires SystemInv(m, script) && Possible(m, Tick)
    ensures SystemInv(Ticked(m, script), script)
  {
    I.OneTickKeeps(m.hw, script);
  }

  lemma AfterKeeps(m: System, e: Step, script: I.Script)
    requires SystemInv(m, script) && Possible(m, e)
    ensures SystemInv(After(m, e, script), script)
  {
    match e
    case Do(event) => DoKeeps(m, event, script);
    case Tick => TickKeeps(m, script);
    case Idle => IdledKeeps(m, script);
    case Device(r) => I.ScheduledKeeps(m.hw, r);
    case Mode(status) => WithModeGood(m, status, script);
  }

  lemma TickKeeps(m: System, script: I.Script)
    requires SystemInv(m, script) && Possible(m, Tick)
    ensures SystemInv(AfterTick(m, script), script)
  {
    TickedKeeps(m, script);
    if I.TickYields(m.hw, script) {
      var t := Ticked(m, script);
      DoKeeps(t, Yield, script);
      WithModeGood(WithKernel(t, Next(t.ker, Yield)), AfterTick(m, script).hw.status, script);
    }
  }

  // ------------------------------------------------------------------ whole runs

  /** The steps, each possible when it happens, lead from `m` to `t`. */
  ghost predicate Reaches(m: System, es: seq<Step>, t: System, script: I.Script)
    requires SystemInv(m, script)
    decreases |es|
  {
    if es == [] then t == m
    else Possible(m, es[0]) && (AfterKeeps(m, es[0], script); Reaches(After(m, es[0], script), es[1..], t, script))
  }

  lemma {:induction false} ReachesKeeps(m: System, es: seq<Step>, t: System, script: I.Script)
    requires SystemInv(m, script) && Reaches(m, es, t, script)
    ensures SystemInv(t, script)
    decreases |es|
  {
    if es != [] {
      AfterKeeps(m, es[0], script);
      ReachesKeeps(After(m, es[0], script), es[1..], t, script);
    }
  }

  // ------------------------------------------------------------- the two halves

  /** The kernel goes from `m` to `t` by the events, in which handlers do the V's that the log of `t` calls for. */
  ghost predicate KernelDoes(m: System, es: seq<Event>, t: System, script: I.Script)
    requires Inv(m.ker)
  {
    && Run(m.ker, es, t.ker) && m.hw.fired <= t.hw.fired
    && HandlerVs(es) == SignalsFrom(script, t.hw.fired, |m.hw.fired|)
  }

  /** What a step is for the threads and the semaphores. */
  lemma KernelStep(m: System, e: Step, script: I.Script) returns (es: seq<Event>)
    requires SystemInv(m, script) && Possible(m, e)
    ensures KernelDoes(m, es, After(m, e, script), script)
  {
    match e
    case Do(event) =>
      es := OneEvent(m.ker, event);
    case Tick =>
      es := KernelTick(m, script);
    case Idle =>
      I.IdleKeeps(m.hw, script);
      es := KernelHandlers(m, I.Idled(m.hw, script).0, script);
    case Device(_) =>
      es := [];
    case Mode(_) =>
      es := [];
  }

  lemma OneEvent(s: State, e: Event) returns (es: seq<Event>)
    requires Inv(s) && Enabled(s, e)
    ensures Run(s, es, Next(s, e)) && (!e.Interrupt? ==> HandlerVs(es) == [])
  {
    es := [e];
    NextKeeps(s, e);
    assert es[1..] == [];
    assert Run(Next(s, e), [], Next(s, e));
  }

  lemma KernelHandlers(m: System, h: I.State, script: I.Script) returns (es: seq<Event>)
    requires SystemInv(m, script) && Open(m.ker)
    ensures Run(m.ker, es, WithHandlers(m, h, script))
    ensures HandlerVs(es) == SignalsFrom(script, h.fired, |m.hw.fired|)
  {
    WiredFrom(script, h.fired, |m.hw.fired|, |m.ker.sems|);
    var ups := SignalsFrom(script, h.fired, |m.hw.fired|);
    HandledRun(m.ker, ups);
    HandlerVsOf(ups);
    es := VsOf(ups);
  }

  lemma KernelTick(m: System, script: I.Script) returns (es: seq<Event>)
    requires SystemInv(m, script) && Possible(m, Tick)
    ensures KernelDoes(m, es, AfterTick(m, script), script)
  {
    var k := Ticked(m, script).ker;
    I.OneTickKeeps(m.hw, script);
    es := KernelHandlers(m, I.OneTicked(m.hw, script), script);
    if I.TickYields(m.hw, script) {
      var fs := OneEvent(k, Yield);
      RunAppend(m.ker, es, k, fs, Next(k, Yield));
      HandlerVsAppend(es, fs);
      es := es + fs;
    }
  }

  lemma KernelThen(m: System, es: seq<Event>, n: System, fs: seq<Event>, t: System, script: I.Script)
    requires Inv(m.ker) && Inv(n.ker) && KernelDoes(m, es, n, script) && KernelDoes(n, fs, t, script)
    ensures KernelDoes(m, es + fs, t, script)
  {
    RunAppend(m.ker, es, n.ker, fs, t.ker);
    HandlerVsAppend(es, fs);
    SignalsSplit(script, n.hw.fired, t.hw.fired, |m.hw.fired|);
  }

  /**
   A run of the machine is a run of threads, semaphores and handlers, so all that holds of
   those holds here; and every V that a handler asks for is done, in order, and no other.
   */
  lemma {:induction false} KernelRun(m: System, es: seq<Step>, t: System, script: I.Script) returns (fs: seq<Event>)
    requires SystemInv(m, script) && Reaches(m, es, t, script)
    ensures Run(m.ker, fs, t.ker)
    ensures m.hw.fired <= t.hw.fired && HandlerVs(fs) == SignalsFrom(script, t.hw.fired, |m.hw.fired|)
    decreases |es|
  {
    fs := [];
    if es != [] {
      var n := After(m, es[0], script);
      AfterKeeps(m, es[0], script);
      fs := KernelStep(m, es[0], script);
      var gs := KernelRun(n, es[1..], t, script);
      KernelThen(m, fs, n, gs, t, script);
      fs := fs + gs;
    }
  }

  lemma {:induction false} HardwareAppend(s: I.State, es: seq<I.Event>, t: I.State, fs: seq<I.Event>, u: I.State,
                                          script: I.Script)
    requires I.FutureScript(script) && I.Inv(s) && I.Run(s, es, t, script) && I.Inv(t) && I.Run(t, fs, u, script)
    ensures I.Run(s, es + fs, u, script)
    decreases |es|
  {
    if es == [] {
      assert es + fs == fs;
    } else {
      assert (es + fs)[0] == es[0] && (es + fs)[1..] == es[1..] + fs;
      I.NextKeeps(s, es[0], script);
      HardwareAppend(I.Next(s, es[0], script), es[1..], t, fs, u, script);
    }
  }

  lemma OneHardwareEvent(s: I.State, e: I.Event, script: I.Script) returns (es: seq<I.Event>)
    requires I.FutureScript(script) && I.Inv(s) && I.Possible(s, e)
    ensures I.Run(s, es, I.Next(s, e, script), script)
  {
    es := [e];
    I.NextKeeps(s, e, script);
    assert es[1..] == [];
    assert I.Run(I.Next(s, e, script), [], I.Next(s, e, script), script);
  }

  /** What a step is for the clock and the pending interrupts. */
  lemma HardwareStep(m: System, e: Step, script: I.Script) returns (es: seq<I.Event>)
    requires SystemInv(m, script) && Possible(m, e)
    ensures I.Run(m.hw, es, After(m, e, script).hw, script)
  {
    match e
    case Do(event) =>
      es := OneHardwareEvent(m.hw, I.SetLevel(Next(m.ker, event).level), script);
    case Tick =>
      es := HardwareTick(m, script);
    case Idle =>
      es := OneHardwareEvent(m.hw, I.Idle, script);
    case Device(r) =>
      es := OneHardwareEvent(m.hw, I.Device(r), script);
    case Mode(status) =>
      es := OneHardwareEvent(m.hw, I.SetStatus(status), script);
  }

  lemma HardwareTick(m: System, script: I.Script) returns (es: seq<I.Event>)
    requires SystemInv(m, script) && Possible(m, Tick)
    ensures I.Run(m.hw, es, AfterTick(m, script).hw, script)
  {
    var t := Ticked(m, script);
    es := OneHardwareEvent(m.hw, I.Tick, script);
    TickedKeeps(m, script);
    I.OneTickKeeps(m.hw, script);
    if I.TickYields(m.hw, script) {
      var fs := HardwareYield(t, script);
      HardwareAppend(m.hw, es, t.hw, fs, YieldedFrom(t).hw, script);
      es := es + fs;
    }
  }

  lemma HardwareYield(t: System, script: I.Script) returns (es: seq<I.Event>)
    requires SystemInv(t, script) && Enabled(t.ker, Yield) && t.hw.status != I.IdleMode
    ensures I.Run(t.hw, es, YieldedFrom(t).hw, script)
  {
    var level, u := Next(t.ker, Yield).level, YieldedFrom(t);
    es := OneHardwareEvent(t.hw, I.SetLevel(level), script);
    I.SameHardware(t.hw, t.hw.(level := level));
    var fs := OneHardwareEvent(t.hw.(level := level), I.SetStatus(u.hw.status), script);
    HardwareAppend(t.hw, es, t.hw.(level := level), fs, u.hw, script);
    es := es + fs;
  }

  /** A run of the machine is a run of the interrupt hardware. */
  lemma {:induction false} HardwareRun(m: System, es: seq<Step>, t: System, script: I.Script) returns (fs: seq<I.Event>)
    requires SystemInv(m, script) && Reaches(m, es, t, script)
    ensures I.Run(m.hw, fs, t.hw, script)
    decreases |es|
  {
    fs := [];
    if es != [] {
      var n := After(m, es[0], script);
      AfterKeeps(m, es[0], script);
      fs := HardwareStep(m, es[0], script);
      var gs := HardwareRun(n, es[1..], t, script);
      HardwareAppend(m.hw, fs, n.hw, gs, t.hw, script);
      fs := fs + gs;
    }
  }

  // ------------------------------------------------------- a sleep is such a run

  lemma {:induction false} ReachesAppend(m: System, es: seq<Step>, t: System, e: Step, script: I.Script)
    requires SystemInv(m, script) && Reaches(m, es, t, script) && SystemInv(t, script) && Possible(t, e)
    ensures Reaches(m, es + [e], After(t, e, script), script)
    decreases |es|
  {
    if es == [] {
      AfterKeeps(m, e, script);
      assert [e][1..] == [] && Reaches(After(m, e, script), [], After(m, e, script), script);
      assert es + [e] == [e];
    } else {
      assert (es + [e])[0] == es[0] && (es + [e])[1..] == es[1..] + [e];
      AfterKeeps(m, es[0], script);
      ReachesAppend(After(m, es[0], script), es[1..], t, e, script);
    }
  }

  lemma IdleIsPossible(m: System, idle: Round, good: Kind, script: I.Script)
    requires IsRound(idle, good, script) && good(m) && m.ker.ready == [] && !idle(m).1
    ensures Asleep(m, script) && Possible(m, Idle) && After(m, Idle, script) == idle(m).0 && good(idle(m).0)
  {
    assert Considered(m);
    IdledStops(m, script);
    IdledKeeps(m, script);
    assert Considered(idle(m).0);
  }

  lemma FirstIdle(m: System, fs: seq<Step>, t: System, script: I.Script)
    requires SystemInv(m, script) && Possible(m, Idle)
    requires SystemInv(After(m, Idle, script), script) && Reaches(After(m, Idle, script), fs, t, script)
    ensures Reaches(m, [Idle] + fs, t, script)
  {
    assert ([Idle] + fs)[1..] == fs;
  }

  /** A machine that reaches another by a run. */
  ghost predicate CanReach(m: System, t: System, script: I.Script)
  {
    SystemInv(m, script) && exists es :: Reaches(m, es, t, script)
  }

  lemma IdleThenReach(m: System, t: System, idle: Round, good: Kind, script: I.Script)
    requires IsRound(idle, good, script) && good(m) && m.ker.ready == [] && !idle(m).1
    requires CanReach(idle(m).0, t, script)
    ensures CanReach(m, t, script)
  {
    IdleIsPossible(m, idle, good, script);
    var fs :| Reaches(idle(m).0, fs, t, script);
    FirstIdle(m, fs, t, script);
  }

  lemma ReachesItself(m: System, idle: Round, good: Kind, script: I.Script)
    requires IsRound(idle, good, script) && good(m)
    ensures CanReach(m, m, script)
  {
    assert Considered(m);
    assert Reaches(m, [], m, script);
  }

  lemma {:induction false} IdlesToReaches(m: System, j: nat, t: System, idle: Round, good: Kind, script: I.Script)
    requires IsRound(idle, good, script) && good(m) && IdlesTo(m, j, t, idle)
    ensures CanReach(m, t, script) && good(t)
    decreases j
  {
    if j == 0 {
      ReachesItself(m, idle, good, script);
    } else {
      IdleIsPossible(m, idle, good, script);
      IdlesToReaches(idle(m).0, j - 1, t, idle, good, script);
      IdleThenReach(m, t, idle, good, script);
    }
  }

  lemma WaitedReaches(m: System, rounds: nat, idle: Round, good: Kind, script: I.Script) returns (t: System)
    requires IsRound(idle, good, script) && good(m)
    ensures CanReach(m, t, script) && good(t)
    ensures var (u, outcome) := Waited(m, rounds, idle);
            && (outcome == Resumed ==> t.ker.ready != [])
            && if outcome == Stopped then t.ker == u.ker else t == u
  {
    var j;
    j, t := WaitedEnds(m, rounds, idle);
    IdlesToReaches(m, j, t, idle, good, script);
    if Waited(m, rounds, idle).1 == Stopped {
      StopKeepsKernel(t, idle, good, script);
    }
  }

  lemma StopKeepsKernel(t: System, idle: Round, good: Kind, script: I.Script)
    requires IsRound(idle, good, script) && good(t) && idle(t).1
    ensures idle(t).0.ker == t.ker
  {
    assert Considered(t);
    IdledStops(t, script);
  }

  lemma DispatchReaches(m: System, es: seq<Step>, t: System, script: I.Script)
    requires SystemInv(m, script) && Reaches(m, es, t, script) && Asleep(t, script) && t.ker.ready != []
    ensures Reaches(m, es + [Do(Dispatch)], Switch(t, script).0, script)
  {
    ReachesAppend(m, es, t, Do(Dispatch), script);
  }

  /** A sleep is a run of rounds of idling and at most one dispatch; stopping leaves the kernel as it is. */
  lemma SleptReaches(m: System, rounds: nat, script: I.Script) returns (t: System)
    requires Asleep(m, script)
    ensures CanReach(m, t, script)
    ensures var (u, outcome) := Slept(m, rounds, script); if outcome == Stopped then t.ker == u.ker else t == u
  {
    IdleRoundIsRound(script);
    t := WaitedReaches(m, rounds, IdleRound(script), Sleepers(script), script);
    if Slept(m, rounds, script).1 == Resumed {
      var es :| Reaches(m, es, t, script);
      DispatchReaches(m, es, t, script);
      t := Switch(t, script).0;
    }
  }

  // --------------------------------------------------------------- from power-on

  /** Semaphores that were just made. */
  ghost predicate New(sems: seq<Semaphore>)
  {
    forall k | 0 <= k < |sems| :: sems[k].value >= 0 && sems[k].queue == []
  }

  /** The machine when the main thread starts, with the semaphores that handlers know. */
  ghost predicate Booted(m: System, script: I.Script)
  {
    && I.FutureScript(script) && Wired(script, |m.ker.sems|) && New(m.ker.sems)
    && m.hw == I.PowerOn(I.IntOn) && m.ker == PowerOn().(sems := m.ker.sems)
  }

  lemma NewSemsGood(sems: seq<Semaphore>)
    requires New(sems)
    ensures Inv(PowerOn().(sems := sems))
  {
    var s := PowerOn().(sems := sems);
    forall k | 0 <= k < |sems|
      ensures SemInv(s.threads, sems[k], k)
    {
      assert Woken(s.threads, k) == 0;
    }
    PowerOnGood();
  }

  /** The runs below start from any machine in order; a booted one is. */
  lemma BootGood(m: System, script: I.Script)
    requires Booted(m, script)
    ensures SystemInv(m, script) && IR.AtRest(m.hw)
  {
    I.PowerOnGood(I.IntOn);
    NewSemsGood(m.ker.sems);
  }

  /**
   In every state that the machine reaches, no wakeup is lost, no semaphore is negative, and
   a sleeping thread has interrupts off.
   */
  lemma Reachable(m: System, es: seq<Step>, t: System, script: I.Script, k: nat)
    requires SystemInv(m, script) && Reaches(m, es, t, script) && k < |t.ker.sems|
    ensures SystemInv(t, script)
    ensures var sem := t.ker.sems[k]; 0 <= sem.value && (sem.queue != [] ==> sem.value <= Woken(t.ker.threads, k))
    ensures Sleeping(t.ker) ==> t.hw.level == I.IntOff
  {
    ReachesKeeps(m, es, t, script);
    assert SemInv(t.ker.threads, t.ker.sems[k], k);
  }

  /** A tick makes the thread yield exactly if a handler that ran during it asked for that. */
  lemma YieldsIffAsked(m: System, es: seq<Step>, t: System, script: I.Script)
    requires SystemInv(m, script) && IR.AtRest(m.hw) && Reaches(m, es, t, script)
    requires SystemInv(t, script) && Possible(t, Tick)
    ensures AfterTick(t, script) ==
              if IR.Asked(script, Ticked(t, script).hw.fired, |t.hw.fired|)
              then YieldedFrom(Ticked(t, script)) else Ticked(t, script)
  {
    var fs := HardwareRun(m, es, t, script);
    IR.RunRests(m.hw, fs, t.hw, script);
    IR.YieldsIffAsked(t.hw, script);
  }

  /** After a tick the machine is in system mode if the processor has changed hands, and else in the mode it was in. */
  lemma ModeAfterTick(t: System, script: I.Script)
    requires SystemInv(t, script) && Possible(t, Tick)
    ensures AfterTick(t, script).hw.status ==
              if I.TickYields(t.hw, script) && Ticked(t, script).ker.ready != [] then I.SystemMode else t.hw.status
  {
    I.OneTickKeeps(t.hw, script);
  }
}
