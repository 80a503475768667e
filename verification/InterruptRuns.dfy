/**
 More about interrupts over whole runs, told from what handlers and devices ask for: a
 tick is followed by a context switch exactly if a handler asked for one, every interrupt is
 scheduled for the time that was asked for, and time passes as the mode says.
 */
module InterruptRuns {
  import opened Lists
  import opened Interrupts

  // ------------------------------------------------------ what handlers have asked for

  /** The handler of firing number `j` in the log asked for a context switch. */
  ghost predicate AsksAt(script: Script, log: seq<Firing>, j: nat)
  {
    j < |log| && YieldOnReturn in script(j, log[j].interrupt)
  }

  /** One of the handlers from number `a` on did. */
  ghost predicate Asked(script: Script, log: seq<Firing>, a: nat)
  {
    exists j: nat :: a <= j && AsksAt(script, log, j)
  }

  /** The interrupts that are asked for at time `now`. */
  function Made(rs: seq<Request>, now: int): seq<PendingInterrupt>
  {
    if rs == [] then []
    else
      var r := rs[0];
      (if r.Schedule? then [PendingInterrupt(r.handler, r.arg, now + r.fromNow, r.kind)] else []) + Made(rs[1..], now)
  }

  /** Those that the handlers from number `a` on asked for, each when it ran. */
  function MadeFrom(script: Script, log: seq<Firing>, a: nat): seq<PendingInterrupt>
    decreases |log| - a
  {
    if a >= |log| then [] else Made(script(a, log[a].interrupt), log[a].at) + MadeFrom(script, log, a + 1)
  }

  lemma {:induction false} RequestedDoes(s: State, rs: seq<Request>)
    ensures Requested(s, rs).yieldOnReturn <==> s.yieldOnReturn || YieldOnReturn in rs
    ensures Requested(s, rs).scheduled == s.scheduled + Made(rs, s.totalTicks)
    decreases |rs|
  {
    if rs != [] {
      var t := RequestedOne(s, rs[0]);
      RequestedDoes(t, rs[1..]);
      assert rs == [rs[0]] + rs[1..];
      if rs[0].Schedule? {
        assert t.scheduled + Made(rs[1..], s.totalTicks) == s.scheduled + Made(rs, s.totalTicks);
      }
    }
  }

  lemma {:induction false} RequestedSame(s: State, rs: seq<Request>)
    ensures var t := Requested(s, rs);
            && t.totalTicks == s.totalTicks && t.systemTicks == s.systemTicks && t.userTicks == s.userTicks
            && t.fired == s.fired && t.level == s.level
    decreases |rs|
  {
    if rs != [] {
      RequestedSame(RequestedOne(s, rs[0]), rs[1..]);
    }
  }

  /** From `s` to `t` handlers have run, and done what the log says. */
  ghost predicate Since(s: State, t: State, script: Script)
  {
    && s.fired <= t.fired && t.status == s.status && t.inHandler == s.inHandler
    && t.systemTicks == s.systemTicks && t.userTicks == s.userTicks
    && (t.yieldOnReturn <==> s.yieldOnReturn || Asked(script, t.fired, |s.fired|))
    && t.scheduled == s.scheduled + MadeFrom(script, t.fired, |s.fired|)
  }

  lemma NothingSince(s: State, t: State, script: Script)
    requires t.fired == s.fired && t.status == s.status && t.inHandler == s.inHandler
    requires t.systemTicks == s.systemTicks && t.userTicks == s.userTicks
    requires t.yieldOnReturn == s.yieldOnReturn && t.scheduled == s.scheduled
    ensures Since(s, t, script)
  {
    assert s.scheduled + [] == s.scheduled;
  }

  lemma FiredSince(s: State, p: PendingInterrupt, script: Script)
    requires !s.inHandler
    ensures Since(s, Fired(s, p, script), script)
  {
    var rs, t := script(|s.fired|, p), Fired(s, p, script);
    RequestedDoes(s.(inHandler := true, status := SystemMode), rs);
    RequestedSame(s.(inHandler := true, status := SystemMode), rs);
    assert t.fired[|s.fired|] == Firing(p, s.totalTicks);
    LastMade(script, t.fired);
    assert AsksAt(script, t.fired, |s.fired|) <==> YieldOnReturn in rs;
  }

  lemma LastMade(script: Script, log: seq<Firing>)
    requires log != []
    ensures var n := |log| - 1; MadeFrom(script, log, n) == Made(script(n, log[n].interrupt), log[n].at)
  {
    var n := |log| - 1;
    assert MadeFrom(script, log, n + 1) == [];
  }

  lemma {:induction false} MadeSplit(script: Script, log: seq<Firing>, more: seq<Firing>, a: nat)
    requires a <= |log| && log <= more
    ensures MadeFrom(script, more, a) == MadeFrom(script, log, a) + MadeFrom(script, more, |log|)
    decreases |log| - a
  {
    if a < |log| {
      MadeSplit(script, log, more, a + 1);
    }
  }

  lemma AskedSplit(script: Script, log: seq<Firing>, more: seq<Firing>, a: nat)
    requires a <= |log| && log <= more
    ensures Asked(script, more, a) <==> Asked(script, log, a) || Asked(script, more, |log|)
  {
    forall j: nat | j < |log|
      ensures AsksAt(script, more, j) <==> AsksAt(script, log, j)
    {
    }
    if Asked(script, more, a) {
      var j: nat :| a <= j && AsksAt(script, more, j);
      assert j < |log| ==> AsksAt(script, log, j);
    }
    if Asked(script, log, a) {
      var j: nat :| a <= j && AsksAt(script, log, j);
      assert AsksAt(script, more, j);
    }
    if Asked(script, more, |log|) {
      var j: nat :| |log| <= j && AsksAt(script, more, j);
      assert a <= j;
    }
  }

  lemma SinceThen(s: State, t: State, u: State, script: Script)
    requires Since(s, t, script) && Since(t, u, script)
    ensures Since(s, u, script)
  {
    MadeSplit(script, t.fired, u.fired, |s.fired|);
    AskedSplit(script, t.fired, u.fired, |s.fired|);
    assert s.scheduled + MadeFrom(script, t.fired, |s.fired|) + MadeFrom(script, u.fired, |t.fired|)
        == s.scheduled + (MadeFrom(script, t.fired, |s.fired|) + MadeFrom(script, u.fired, |t.fired|));
  }

  lemma CheckedSince(s: State, advanceClock: bool, script: Script)
    requires !s.inHandler
    ensures Since(s, Checked(s, advanceClock, script).0, script)
  {
    var (t, b) := Checked(s, advanceClock, script);
    if b {
      var u := HeadRemoved(s);
      NothingSince(s, u, script);
      FiredSince(u, s.pending[0].item, script);
      SinceThen(s, u, t, script);
    } else {
      NothingSince(s, t, script);
    }
  }

  /** The handlers that the loop runs all run at the time at which it runs. */
  ghost predicate AllAt(log: seq<Firing>, a: nat, now: int)
  {
    forall j | a <= j < |log| :: log[j].at == now
  }

  lemma CheckedAt(s: State, advanceClock: bool, script: Script)
    ensures var t := Checked(s, advanceClock, script).0; AllAt(t.fired, |s.fired|, t.totalTicks)
  {
    if Checked(s, advanceClock, script).1 {
      var u := HeadRemoved(s);
      RequestedSame(u.(inHandler := true, status := SystemMode), script(|s.fired|, s.pending[0].item));
    }
  }

  lemma {:induction false} DrainedSince(s: State, script: Script)
    requires FutureScript(script) && Inv(s) && !s.inHandler
    ensures Since(s, Drained(s, script), script)
    ensures AllAt(Drained(s, script).fired, |s.fired|, s.totalTicks)
    decreases Due(s.pending, s.totalTicks)
  {
    var t := Checked(s, false, script).0;
    CheckedSince(s, false, script);
    CheckedAt(s, false, script);
    CheckedKeeps(s, false, script);
    CheckedDue(s, script);
    if Checked(s, false, script).1 {
      DrainedSince(t, script);
      SinceThen(s, t, Drained(t, script), script);
    }
  }

  // ------------------------------------------------------------------ one tick

  /** A tick is followed by a context switch exactly if a handler that ran during it asked for one. */
  lemma YieldsIffAsked(s: State, script: Script)
    requires FutureScript(script) && Inv(s) && !s.inHandler && !s.yieldOnReturn
    ensures TickYields(s, script) <==> Asked(script, OneTicked(s, script).fired, |s.fired|)
  {
    var u := Ticked(s).(level := IntOff);
    TickedKeeps(s);
    SameHardware(Ticked(s), u);
    DrainedSince(u, script);
  }

  /** It takes ten ticks in system mode and one in user mode. */
  lemma TickTakes(s: State, script: Script)
    requires FutureScript(script) && Inv(s) && !s.inHandler
    ensures var t := OneTicked(s, script);
            && t.systemTicks == s.systemTicks + (if s.status == SystemMode then 10 else 0)
            && t.userTicks == s.userTicks + (if s.status == SystemMode then 0 else 1)
            && t.status == s.status && !t.inHandler && !t.yieldOnReturn
            && t.scheduled == s.scheduled + MadeFrom(script, t.fired, |s.fired|)
            && AllAt(t.fired, |s.fired|, t.totalTicks) && s.fired <= t.fired
  {
    var u := Ticked(s).(level := IntOff);
    TickedKeeps(s);
    SameHardware(Ticked(s), u);
    DrainedKeeps(u, script);
    DrainedSince(u, script);
  }

  /** Idling takes neither; it ends in system mode, unless the machine stops. */
  lemma IdleTakes(s: State, script: Script)
    requires FutureScript(script) && Inv(s) && !s.inHandler && !s.yieldOnReturn
    ensures var (t, stop) := Idled(s, script);
            && t.systemTicks == s.systemTicks && t.userTicks == s.userTicks
            && (t.status == if stop then IdleMode else SystemMode) && !t.inHandler && !t.yieldOnReturn
            && t.scheduled == s.scheduled + MadeFrom(script, t.fired, |s.fired|)
            && AllAt(t.fired, |s.fired|, t.totalTicks) && s.fired <= t.fired
  {
    var s0 := s.(status := IdleMode);
    var c := Checked(s0, true, script);
    SameHardware(s, s0);
    CheckedKeeps(s0, true, script);
    CheckedSince(s0, true, script);
    CheckedAt(s0, true, script);
    if c.1 {
      DrainedKeeps(c.0, script);
      DrainedSince(c.0, script);
      SinceThen(s0, c.0, Drained(c.0, script), script);
    } else {
      IdleStops(s, script);
      assert Asked(script, c.0.fired, |s.fired|) <==> c.0.yieldOnReturn;
    }
  }

  // ---------------------------------------------------------------- whole runs

  /** The interrupts asked for by an event: by the device, now, or by the handlers that run, each when it does. */
  ghost function MadeBy(s: State, e: Event, script: Script): seq<PendingInterrupt>
    requires FutureScript(script) && Inv(s) && Possible(s, e)
  {
    if e.Device? then Made([e.request], s.totalTicks) else MadeFrom(script, Next(s, e, script).fired, |s.fired|)
  }

  ghost function MadeIn(s: State, es: seq<Event>, script: Script): seq<PendingInterrupt>
    requires FutureScript(script) && Inv(s)
    decreases |es|
  {
    if es == [] || !Possible(s, es[0]) then []
    else
      NextKeeps(s, es[0], script);
      MadeBy(s, es[0], script) + MadeIn(Next(s, es[0], script), es[1..], script)
  }

  /** The number of ticks of the clock in a run that come in system mode, or in user mode. */
  ghost function TicksIn(s: State, es: seq<Event>, system: bool, script: Script): nat
    requires FutureScript(script) && Inv(s)
    decreases |es|
  {
    if es == [] || !Possible(s, es[0]) then 0
    else
      NextKeeps(s, es[0], script);
      (if es[0].Tick? && (s.status == SystemMode <==> system) then 1 else 0)
        + TicksIn(Next(s, es[0], script), es[1..], system, script)
  }

  /** Between events no handler runs, and no context switch is due. */
  ghost predicate AtRest(s: State)
  {
    !s.inHandler && !s.yieldOnReturn
  }

  /** What an event adds to the account of time and to the interrupts scheduled. */
  ghost predicate Accounted(s: State, e: Event, script: Script)
    requires FutureScript(script) && Inv(s) && Possible(s, e)
  {
    var t := Next(s, e, script);
    && AtRest(t) && t.scheduled == s.scheduled + MadeBy(s, e, script)
    && t.systemTicks == s.systemTicks + (if e.Tick? && s.status == SystemMode then 10 else 0)
    && t.userTicks == s.userTicks + (if e.Tick? && s.status != SystemMode then 1 else 0)
    && (e.Tick? || e.Idle? ==> s.fired <= t.fired && AllAt(t.fired, |s.fired|, t.totalTicks))
  }

  lemma EventAccounted(s: State, e: Event, script: Script)
    requires FutureScript(script) && Inv(s) && Possible(s, e) && AtRest(s)
    ensures Accounted(s, e, script)
  {
    match e
    case Tick => TickTakes(s, script);
    case Idle => IdleTakes(s, script);
    case Device(r) => OneMade(s, r);
    case _ => assert s.scheduled + [] == s.scheduled;
  }

  lemma OneMade(s: State, r: Request)
    requires r.Schedule?
    ensures Scheduled(s, r).scheduled == s.scheduled + Made([r], s.totalTicks)
  {
    assert Made([r][1..], s.totalTicks) == [];
  }

  /** Between the events of a run no handler runs, and no context switch is left over. */
  lemma {:induction false} RunRests(s: State, es: seq<Event>, t: State, script: Script)
    requires FutureScript(script) && Inv(s) && AtRest(s) && Run(s, es, t, script)
    ensures AtRest(t)
    decreases |es|
  {
    if es != [] {
      NextKeeps(s, es[0], script);
      EventAccounted(s, es[0], script);
      RunRests(Next(s, es[0], script), es[1..], t, script);
    }
  }

  /** Over every run each interrupt is scheduled for the time asked for, counted from when it was asked for. */
  lemma {:induction false} ScheduledOnTime(s: State, es: seq<Event>, t: State, script: Script)
    requires FutureScript(script) && Inv(s) && AtRest(s) && Run(s, es, t, script)
    ensures t.scheduled == s.scheduled + MadeIn(s, es, script)
    decreases |es|
  {
    if es == [] {
      assert s.scheduled + [] == s.scheduled;
    } else {
      var u := Next(s, es[0], script);
      NextKeeps(s, es[0], script);
      EventAccounted(s, es[0], script);
      ScheduledOnTime(u, es[1..], t, script);
      Longer(s.scheduled, MadeBy(s, es[0], script), MadeIn(u, es[1..], script));
    }
  }

  lemma Longer(a: seq<PendingInterrupt>, b: seq<PendingInterrupt>, c: seq<PendingInterrupt>)
    ensures a + b + c == a + (b + c)
  {
  }

  /** Over every run a tick of the clock takes ten in system mode, and one in user mode. */
  lemma {:induction false} TicksCounted(s: State, es: seq<Event>, t: State, script: Script)
    requires FutureScript(script) && Inv(s) && AtRest(s) && Run(s, es, t, script)
    ensures t.systemTicks == s.systemTicks + 10 * TicksIn(s, es, true, script)
    ensures t.userTicks == s.userTicks + TicksIn(s, es, false, script)
    decreases |es|
  {
    if es != [] {
      NextKeeps(s, es[0], script);
      EventAccounted(s, es[0], script);
      TicksCounted(Next(s, es[0], script), es[1..], t, script);
    }
  }

  /** From power-on, a tick is followed by a context switch exactly if a handler that ran during it asked for one. */
  lemma SwitchesIffAsked(level: IntStatus, es: seq<Event>, t: State, script: Script)
    requires FutureScript(script) && (PowerOnGood(level); Run(PowerOn(level), es, t, script))
    ensures Inv(t) && !t.yieldOnReturn && !t.inHandler
    ensures TickYields(t, script) <==> Asked(script, OneTicked(t, script).fired, |t.fired|)
  {
    PowerOnGood(level);
    RunKeeps(PowerOn(level), es, t, script);
    RunRests(PowerOn(level), es, t, script);
    YieldsIffAsked(t, script);
  }
}
