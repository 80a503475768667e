/**
 The kernel on its interrupt hardware: the threads and semaphores of Thread and the
 clock and pending interrupts of Interrupt as one machine. Handlers do V's; a machine with
 no thread to run idles until a handler has made one ready.
 */
module Systems {
  import I = Interrupts
  import opened Threads

  datatype System = System(hw: I.State, ker: State)

  // ------------------------------------------------------------ handlers' V's

  /** The semaphores that a handler does a V on, in order. */
  function Signals(rs: seq<I.Request>): seq<nat>
  {
    if rs == [] then [] else (if rs[0].Signal? then [rs[0].sem] else []) + Signals(rs[1..])
  }

  /** Requests are taken one after another. */
  lemma {:induction false} SignalsAppend(rs: seq<I.Request>, r: I.Request)
    ensures Signals(rs + [r]) == Signals(rs) + if r.Signal? then [r.sem] else []
  {
    if rs == [] {
      assert [r][1..] == [];
      assert rs + [r] == [r];
    } else {
      assert (rs + [r])[0] == rs[0] && (rs + [r])[1..] == rs[1..] + [r];
      SignalsAppend(rs[1..], r);
    }
  }

  /** The V's of the handlers of the interrupts in the log, from number `a` on. */
  function SignalsFrom(script: I.Script, log: seq<I.Firing>, a: nat): seq<nat>
    decreases |log| - a
  {
    if a >= |log| then [] else Signals(script(a, log[a].interrupt)) + SignalsFrom(script, log, a + 1)
  }

  /** Handlers come one after another. */
  lemma {:induction false} SignalsLast(script: I.Script, log: seq<I.Firing>, f: I.Firing, a: nat)
    requires a <= |log|
    ensures SignalsFrom(script, log + [f], a) == SignalsFrom(script, log, a) + Signals(script(|log|, f.interrupt))
    decreases |log| - a
  {
    if a < |log| {
      SignalsLast(script, log, f, a + 1);
    } else {
      assert SignalsFrom(script, log + [f], a + 1) == [];
    }
  }

  lemma {:induction false} SignalsSplit(script: I.Script, log: seq<I.Firing>, more: seq<I.Firing>, a: nat)
    requires a <= |log| && log <= more
    ensures SignalsFrom(script, more, a) == SignalsFrom(script, log, a) + SignalsFrom(script, more, |log|)
    decreases |log| - a
  {
    if a < |log| {
      SignalsSplit(script, log, more, a + 1);
    }
  }

  ghost predicate Below(ks: seq<nat>, n: nat)
  {
    forall j | 0 <= j < |ks| :: ks[j] < n
  }

  /** Handlers only know semaphores that exist. */
  ghost predicate Wired(script: I.Script, n: nat)
  {
    forall k: nat, p :: Below(Signals(script(k, p)), n)
  }

  lemma {:induction false} WiredFrom(script: I.Script, log: seq<I.Firing>, a: nat, n: nat)
    requires Wired(script, n)
    ensures Below(SignalsFrom(script, log, a), n)
    decreases |log| - a
  {
    if a < |log| {
      WiredFrom(script, log, a + 1, n);
      assert Below(Signals(script(a, log[a].interrupt)), n);
    }
  }

  /** An interrupt may come in: the current thread sleeps, or runs its own code with interrupts on. */
  ghost predicate Open(s: State)
  {
    && Inv(s)
    && (Sleeping(s) || (s.threads[s.current].place == Code && s.level == I.IntOn))
  }

  /** Nothing changed that a V has no business with. */
  ghost predicate OnlyWoken(s: State, t: State)
    requires Inv(s)
  {
    && Open(t) && |t.sems| == |s.sems| && t.level == s.level && t.current == s.current
    && (Sleeping(t) <==> Sleeping(s)) && (!Sleeping(s) ==> t.threads[t.current] == s.threads[s.current])
  }

  lemma UppedOpen(s: State, k: nat)
    requires Open(s) && k < |s.sems|
    ensures Enabled(s, Interrupt(k)) && OnlyWoken(s, Next(s, Interrupt(k)))
  {
    NextKeeps(s, Interrupt(k));
    InvBounds(s);
  }

  /** Handlers do one V after another. */
  ghost function Handled(s: State, ups: seq<nat>): (t: State)
    requires Open(s) && Below(ups, |s.sems|)
    ensures OnlyWoken(s, t)
    decreases |ups|
  {
    if ups == [] then s
    else
      UppedOpen(s, ups[0]);
      Handled(Next(s, Interrupt(ups[0])), ups[1..])
  }

  /** The V's of handlers among the events, in order. */
  function HandlerVs(es: seq<Event>): seq<nat>
  {
    if es == [] then [] else (if es[0].Interrupt? then [es[0].sem] else []) + HandlerVs(es[1..])
  }

  lemma {:induction false} HandlerVsAppend(es: seq<Event>, fs: seq<Event>)
    ensures HandlerVs(es + fs) == HandlerVs(es) + HandlerVs(fs)
  {
    if es == [] {
      assert es + fs == fs;
    } else {
      assert (es + fs)[0] == es[0] && (es + fs)[1..] == es[1..] + fs;
      HandlerVsAppend(es[1..], fs);
    }
  }

  /** The V's as events. */
  function VsOf(ups: seq<nat>): seq<Event>
  {
    if ups == [] then [] else [Interrupt(ups[0])] + VsOf(ups[1..])
  }

  lemma {:induction false} HandlerVsOf(ups: seq<nat>)
    ensures HandlerVs(VsOf(ups)) == ups
  {
    if ups != [] {
      HandlerVsOf(ups[1..]);
      assert VsOf(ups)[1..] == VsOf(ups[1..]);
    }
  }

  lemma {:induction false} HandledRun(s: State, ups: seq<nat>)
    requires Open(s) && Below(ups, |s.sems|)
    ensures Run(s, VsOf(ups), Handled(s, ups))
    decreases |ups|
  {
    if ups != [] {
      UppedOpen(s, ups[0]);
      NextKeeps(s, Interrupt(ups[0]));
      HandledRun(Next(s, Interrupt(ups[0])), ups[1..]);
      assert VsOf(ups)[0] == Interrupt(ups[0]) && VsOf(ups)[1..] == VsOf(ups[1..]);
    }
  }

  // --------------------------------------------------------------- one machine

  /** Both halves are as they should be, and they agree on the interrupt level. */
  ghost predicate SystemInv(m: System, script: I.Script)
  {
    && I.FutureScript(script) && Wired(script, |m.ker.sems|)
    && I.Inv(m.hw) && Inv(m.ker) && m.hw.level == m.ker.level
  }

  /** The kernel after an operation, with the level it leaves. */
  function WithKernel(m: System, k: State): System
  {
    System(m.hw.(level := k.level), k)
  }

  lemma WithKernelGood(m: System, k: State, script: I.Script)
    requires SystemInv(m, script) && Inv(k) && |m.ker.sems| <= |k.sems|
    ensures SystemInv(WithKernel(m, k), script)
  {
    I.SameHardware(m.hw, WithKernel(m, k).hw);
    forall j: nat, p
      ensures Below(Signals(script(j, p)), |k.sems|)
    {
      assert Below(Signals(script(j, p)), |m.ker.sems|);
    }
  }

  /** The kernel once the handlers that ran while the hardware went from `m.hw` to `h` have done their V's. */
  ghost function WithHandlers(m: System, h: I.State, script: I.Script): (k: State)
    requires SystemInv(m, script) && Open(m.ker)
    ensures OnlyWoken(m.ker, k)
  {
    WiredFrom(script, h.fired, |m.hw.fired|, |m.ker.sems|);
    Handled(m.ker, SignalsFrom(script, h.fired, |m.hw.fired|))
  }

  // ------------------------------------------------------------------- idling

  /** `Interrupt::Idle` with the V's of the handlers it runs; the second part says whether the machine stops. */
  ghost function Idled(m: System, script: I.Script): (System, bool)
    requires Asleep(m, script)
  {
    var (h, stop) := I.Idled(m.hw, script);
    (System(h, WithHandlers(m, h, script)), stop)
  }

  /** The current thread sleeps. */
  ghost predicate Asleep(m: System, script: I.Script)
  {
    SystemInv(m, script) && Sleeping(m.ker)
  }

  lemma IdledKeeps(m: System, script: I.Script)
    requires Asleep(m, script)
    ensures Asleep(Idled(m, script).0, script)
    ensures |Idled(m, script).0.ker.sems| == |m.ker.sems|
  {
    I.IdleKeeps(m.hw, script);
  }

  lemma IdledStops(m: System, script: I.Script)
    requires Asleep(m, script)
    ensures Idled(m, script).1 <==> I.NothingLeft(m.hw)
    ensures Idled(m, script).1 ==> Idled(m, script).0.ker == m.ker && I.NothingLeft(Idled(m, script).0.hw)
  {
    I.IdleStops(m.hw, script);
  }

  /** A round of idling, as a step that can be repeated, and the machines it is for. */
  type Round = System -> (System, bool)
  type Kind = System -> bool

  ghost function IdleRound(script: I.Script): Round
  {
    (m: System) => if Asleep(m, script) then Idled(m, script) else (m, true)
  }

  ghost function Sleepers(script: I.Script): Kind
  {
    (m: System) => Asleep(m, script)
  }

  /** All that matters about a round of idling for how a sleep goes on. */
  ghost predicate IsIdling(idle: Round, good: Kind)
  {
    forall m | good(m) ::
      && good(idle(m).0) && (idle(m).1 <==> I.NothingLeft(m.hw))
      && (idle(m).1 ==> idle(m).0.ker == m.ker && I.NothingLeft(idle(m).0.hw))
  }

  lemma IdleRoundIdles(script: I.Script)
    ensures IsIdling(IdleRound(script), Sleepers(script))
  {
    forall m | Asleep(m, script)
      ensures IdlesWell(m, IdleRound(script)(m), script)
    {
      IdleRoundIs(m, script);
      IdledKeeps(m, script);
      IdledStops(m, script);
    }
  }

  ghost predicate IdlesWell(m: System, r: (System, bool), script: I.Script)
  {
    && Asleep(r.0, script) && (r.1 <==> I.NothingLeft(m.hw))
    && (r.1 ==> r.0.ker == m.ker && I.NothingLeft(r.0.hw))
  }

  lemma IdleRoundIs(m: System, script: I.Script)
    requires Asleep(m, script)
    ensures IdleRound(script)(m) == Idled(m, script)
  {
  }

  /** A machine for which it matters what a round of idling does. */
  ghost predicate Considered(m: System)
  {
    true
  }

  /** `idle` is a round of idling of the hardware with the handlers `script`, and `good` are the sleeping machines. */
  ghost predicate IsRound(idle: Round, good: Kind, script: I.Script)
  {
    forall m {:trigger Considered(m)} | Considered(m) ::
      (good(m) <==> Asleep(m, script)) && (good(m) ==> idle(m) == Idled(m, script))
  }

  lemma IdleRoundIsRound(script: I.Script)
    ensures IsRound(IdleRound(script), Sleepers(script), script)
  {
    forall m | Considered(m)
      ensures Sleepers(script)(m) <==> Asleep(m, script)
      ensures Asleep(m, script) ==> IdleRound(script)(m) == Idled(m, script)
    {
      if Asleep(m, script) {
        IdleRoundIs(m, script);
      }
    }
  }

  // ----------------------------------------------------------------- sleeping

  /** How a call of Sleep stands after some rounds of idling. */
  datatype Outcome = Resumed | Stopped | Idling

  /**
   The loop of `Thread::Sleep` for at most `rounds` rounds of idling: it ends with a thread
   ready, stops because there is nothing left to wait for, or is idling still.
   */
  ghost function Waited(m: System, rounds: nat, idle: Round): (System, Outcome)
    decreases rounds
  {
    if m.ker.ready != [] then (m, Resumed)
    else if rounds == 0 then (m, Idling)
    else
      var (next, stop) := idle(m);
      if stop then (next, Stopped) else Waited(next, rounds - 1, idle)
  }

  /** `j` rounds of idling lead from `m` to `t`; in none of them a thread was ready or the machine stopped. */
  ghost predicate IdlesTo(m: System, j: nat, t: System, idle: Round)
    decreases j
  {
    if j == 0 then t == m
    else m.ker.ready == [] && !idle(m).1 && IdlesTo(idle(m).0, j - 1, t, idle)
  }

  lemma {:induction false} IdlesToKeeps(m: System, j: nat, t: System, idle: Round, good: Kind)
    requires IsIdling(idle, good) && good(m) && IdlesTo(m, j, t, idle)
    ensures good(t)
    decreases j
  {
    if j > 0 {
      IdlesToKeeps(idle(m).0, j - 1, t, idle, good);
    }
  }

  lemma {:induction false} WaitedAfter(m: System, j: nat, t: System, rounds: nat, idle: Round)
    requires IdlesTo(m, j, t, idle) && j <= rounds
    ensures Waited(m, rounds, idle) == Waited(t, rounds - j, idle)
    decreases j
  {
    if j > 0 {
      WaitedAfter(idle(m).0, j - 1, t, rounds - 1, idle);
    }
  }

  /** Where a sleep ends: with a thread ready, with nothing left, or with no rounds left. */
  lemma {:induction false} WaitedEnds(m: System, rounds: nat, idle: Round) returns (j: nat, t: System)
    ensures j <= rounds && IdlesTo(m, j, t, idle)
    ensures match Waited(m, rounds, idle)
            case (u, Resumed) => u == t && t.ker.ready != []
            case (u, Stopped) => j < rounds && t.ker.ready == [] && idle(t) == (u, true)
            case (u, Idling) => j == rounds && u == t && t.ker.ready == []
    decreases rounds
  {
    j, t := 0, m;
    if m.ker.ready == [] && rounds > 0 && !idle(m).1 {
      j, t := WaitedEnds(idle(m).0, rounds - 1, idle);
      j := j + 1;
    }
  }

  /** Nobody is ready and nothing but the timer is pending. */
  ghost predicate AtRest(m: System)
  {
    m.ker.ready == [] && I.NothingLeft(m.hw)
  }

  ghost predicate ComesToRest(m: System, rounds: nat, idle: Round)
  {
    exists j: nat, t: System :: j < rounds && IdlesTo(m, j, t, idle) && AtRest(t)
  }

  ghost predicate ComesToReady(m: System, rounds: nat, idle: Round)
  {
    exists j: nat, t: System :: j <= rounds && IdlesTo(m, j, t, idle) && t.ker.ready != []
  }

  /**
   A sleep stops the machine exactly if idling leads to a point at which no thread is ready
   and nothing but the timer is pending, and it goes on with a thread exactly if idling
   leads to a point at which one is ready.
   */
  lemma SleepEndsIff(m: System, rounds: nat, idle: Round, good: Kind)
    requires IsIdling(idle, good) && good(m)
    ensures Waited(m, rounds, idle).1 == Stopped <==> ComesToRest(m, rounds, idle)
    ensures Waited(m, rounds, idle).1 == Resumed <==> ComesToReady(m, rounds, idle)
  {
    var j, t := WaitedEnds(m, rounds, idle);
    IdlesToKeeps(m, j, t, idle, good);
    if ComesToRest(m, rounds, idle) {
      var i: nat, u: System :| i < rounds && IdlesTo(m, i, u, idle) && AtRest(u);
      IdlesToKeeps(m, i, u, idle, good);
      WaitedAfter(m, i, u, rounds, idle);
    }
    if ComesToReady(m, rounds, idle) {
      var i: nat, u: System :| i <= rounds && IdlesTo(m, i, u, idle) && u.ker.ready != [];
      WaitedAfter(m, i, u, rounds, idle);
    }
  }

  /** When the machine stops, nobody was forgotten: every semaphore with a waiter is at zero. */
  lemma StoppedForGood(m: System, rounds: nat, script: I.Script, k: nat)
    requires Asleep(m, script) && Waited(m, rounds, IdleRound(script)).1 == Stopped
    ensures var t := Waited(m, rounds, IdleRound(script)).0;
            && Asleep(t, script) && AtRest(t)
            && (k < |t.ker.sems| && t.ker.sems[k].queue != [] ==> t.ker.sems[k].value == 0)
  {
    IdleRoundIdles(script);
    WaitedGood(m, rounds, IdleRound(script), Sleepers(script));
    var t := Waited(m, rounds, IdleRound(script)).0;
    if k < |t.ker.sems| && t.ker.sems[k].queue != [] {
      IdleMeansNothingToTake(t.ker, k);
    }
  }

  lemma {:induction false} WaitedGood(m: System, rounds: nat, idle: Round, good: Kind)
    requires IsIdling(idle, good) && good(m)
    ensures good(Waited(m, rounds, idle).0)
    ensures Waited(m, rounds, idle).1 == Stopped ==> AtRest(Waited(m, rounds, idle).0)
    ensures Waited(m, rounds, idle).1 == Resumed ==> Waited(m, rounds, idle).0.ker.ready != []
    decreases rounds
  {
    if m.ker.ready == [] && rounds > 0 && !idle(m).1 {
      WaitedGood(idle(m).0, rounds - 1, idle, good);
    }
  }

  /** The exact conditions for the rounds of idling of this machine. */
  lemma SleepOutcome(m: System, rounds: nat, script: I.Script)
    requires Asleep(m, script)
    ensures Waited(m, rounds, IdleRound(script)).1 == Stopped <==> ComesToRest(m, rounds, IdleRound(script))
    ensures Waited(m, rounds, IdleRound(script)).1 == Resumed <==> ComesToReady(m, rounds, IdleRound(script))
  {
    IdleRoundIdles(script);
    SleepEndsIff(m, rounds, IdleRound(script), Sleepers(script));
  }

  /** `Thread::Sleep` for at most `rounds` rounds of idling: the loop, and the switch to a thread that is ready. */
  ghost function Slept(m: System, rounds: nat, script: I.Script): (System, Outcome)
    requires Asleep(m, script)
  {
    IdleRoundIdles(script);
    WaitedGood(m, rounds, IdleRound(script), Sleepers(script));
    var (t, outcome) := Waited(m, rounds, IdleRound(script));
    if outcome == Resumed then Switch(t, script) else (t, outcome)
  }

  ghost function Switch(t: System, script: I.Script): (System, Outcome)
    requires Asleep(t, script) && t.ker.ready != []
  {
    InvBounds(t.ker);
    (WithKernel(t, Dispatched(t.ker)), Resumed)
  }

  lemma SwitchKeeps(t: System, script: I.Script)
    requires Asleep(t, script) && t.ker.ready != []
    ensures SystemInv(Switch(t, script).0, script) && !Sleeping(Switch(t, script).0.ker)
  {
    DispatchedKeeps(t.ker);
    WithKernelGood(t, Dispatched(t.ker), script);
  }

  /** Either half stays in order, and a thread runs afterwards exactly if one was found. */
  lemma SleptKeeps(m: System, rounds: nat, script: I.Script)
    requires Asleep(m, script)
    ensures var (t, outcome) := Slept(m, rounds, script);
            SystemInv(t, script) && (outcome == Resumed <==> !Sleeping(t.ker))
  {
    IdleRoundIdles(script);
    WaitedGood(m, rounds, IdleRound(script), Sleepers(script));
    var (t, outcome) := Waited(m, rounds, IdleRound(script));
    if outcome == Resumed {
      SwitchKeeps(t, script);
    }
  }

  // ------------------------------------------------------- idling without end

  lemma {:induction false} WaitedForever(m: System, rounds: nat, idle: Round, forever: Kind)
    requires forever(m)
    requires forall n | forever(n) :: n.ker.ready == [] && !idle(n).1 && forever(idle(n).0)
    ensures Waited(m, rounds, idle).1 == Idling
    decreases rounds
  {
    if rounds > 0 {
      WaitedForever(idle(m).0, rounds - 1, idle, forever);
    }
  }

  ghost predicate Silent(script: I.Script)
  {
    forall k, p :: Signals(script(k, p)) == []
  }

  lemma {:induction false} SilentFrom(script: I.Script, log: seq<I.Firing>, a: nat)
    requires Silent(script)
    ensures SignalsFrom(script, log, a) == []
    decreases |log| - a
  {
    if a < |log| {
      SilentFrom(script, log, a + 1);
    }
  }

  ghost predicate Stuck(m: System, script: I.Script, kind: I.IntType)
  {
    Asleep(m, script) && m.ker.ready == [] && I.Waits(m.hw.pending, kind)
  }

  lemma StuckIdles(m: System, script: I.Script, kind: I.IntType)
    requires I.Polling(script, kind) && Silent(script) && Stuck(m, script, kind)
    ensures !IdleRound(script)(m).1 && Stuck(IdleRound(script)(m).0, script, kind)
  {
    I.IdleWaits(m.hw, script, kind);
    SilentFrom(script, I.Idled(m.hw, script).0.fired, |m.hw.fired|);
    IdledKeeps(m, script);
    IdledStops(m, script);
  }

  /**
   With one device that polls and no handler that does a V, a sleeping machine neither stops
   nor goes on, however long it idles, and whatever else is pending.
   */
  lemma PollsForever(m: System, rounds: nat, script: I.Script, kind: I.IntType)
    requires I.Polling(script, kind) && Silent(script) && Stuck(m, script, kind)
    ensures Waited(m, rounds, IdleRound(script)).1 == Idling
  {
    StuckForever(script, kind);
    WaitedForever(m, rounds, IdleRound(script), StuckOnes(script, kind));
  }

  ghost function StuckOnes(script: I.Script, kind: I.IntType): Kind
  {
    (n: System) => Stuck(n, script, kind)
  }

  lemma StuckForever(script: I.Script, kind: I.IntType)
    requires I.Polling(script, kind) && Silent(script)
    ensures forall n | StuckOnes(script, kind)(n) ::
              n.ker.ready == [] && !IdleRound(script)(n).1 && StuckOnes(script, kind)(IdleRound(script)(n).0)
  {
    forall n | Stuck(n, script, kind)
      ensures n.ker.ready == [] && !IdleRound(script)(n).1 && Stuck(IdleRound(script)(n).0, script, kind)
    {
      StuckIdles(n, script, kind);
    }
  }
}
