/**
 More about threads over whole runs, told from the events: in what order waiters are
 woken, what interrupt level a thread goes on with, and when a finished thread is deleted.
 */
module ThreadRuns {
  import I = Interrupts
  import opened Threads

  // ---------------------------------------------------------- first come, first woken

  /** The thread that goes to sleep on semaphore `k` by the event, if one does. */
  ghost function Joins(s: State, e: Event, k: nat): seq<Tid>
    requires Inv(s) && Enabled(s, e)
  {
    if (e == Down(k) || (e == Recheck && s.threads[s.current].place.sem == k)) && !EndsP(s, e, k) then [s.current]
    else []
  }

  /** The thread that a V on semaphore `k` makes ready, if it does one. */
  ghost function Wakes(s: State, e: Event, k: nat): seq<Tid>
    requires Inv(s) && Enabled(s, e)
  {
    if IsV(e, k) && |s.ready| <= |Next(s, e).ready| then Next(s, e).ready[|s.ready|..] else []
  }

  /** The queue gains at its end who joins, and loses at its front who is woken. */
  ghost predicate QueueMoves(s: State, e: Event, k: nat)
    requires Inv(s) && Enabled(s, e) && k < |s.sems|
  {
    && k < |Next(s, e).sems|
    && s.sems[k].queue + Joins(s, e, k) == Wakes(s, e, k) + Next(s, e).sems[k].queue
  }

  lemma UppedQueue(s: State, j: nat, k: nat)
    requires j < |s.sems| && k < |s.sems| && (s.sems[j].queue != [] ==> s.sems[j].queue[0] < |s.threads|)
    ensures var t := Upped(s, j);
            && |t.sems| == |s.sems| && |s.ready| <= |t.ready|
            && s.sems[k].queue == (if j == k then t.ready[|s.ready|..] else []) + t.sems[k].queue
  {
    var q := s.sems[j].queue;
    if q != [] {
      assert (s.ready + [q[0]])[|s.ready|..] == [q[0]];
      assert q == [q[0]] + q[1..];
    }
  }

  lemma TriedQueue(s: State, j: nat, oldLevel: I.IntStatus, k: nat)
    requires s.current < |s.threads| && j < |s.sems| && k < |s.sems|
    ensures var t := Tried(s, j, oldLevel);
            && |t.sems| == |s.sems| && s.current < |t.threads|
            && t.sems[k].queue ==
               s.sems[k].queue + if j == k && t.threads[s.current].place != Code then [s.current] else []
  {
  }

  lemma UppedMoves(s: State, e: Event, j: nat, k: nat)
    requires Inv(s) && Enabled(s, e) && k < |s.sems| && (e == Up(j) || e == Interrupt(j))
    ensures QueueMoves(s, e, k)
  {
    var t := NextOfV(s, e, j);
    UppedQueue(s, j, k);
    WakesByV(s, e, j, k, t);
    assert s.sems[k].queue + [] == s.sems[k].queue;
  }

  lemma NextOfV(s: State, e: Event, j: nat) returns (t: State)
    requires Inv(s) && Enabled(s, e) && (e == Up(j) || e == Interrupt(j))
    ensures s.sems[j].queue != [] ==> s.sems[j].queue[0] < |s.threads|
    ensures t == Next(s, e) == Upped(s, j)
  {
    InvBounds(s);
    t := Upped(s, j);
  }

  lemma WakesByV(s: State, e: Event, j: nat, k: nat, t: State)
    requires Inv(s) && Enabled(s, e) && (e == Up(j) || e == Interrupt(j)) && t == Next(s, e) && |s.ready| <= |t.ready|
    ensures Wakes(s, e, k) == (if j == k then t.ready[|s.ready|..] else []) && Joins(s, e, k) == []
  {
  }

  lemma DownMoves(s: State, j: nat, k: nat)
    requires Inv(s) && Enabled(s, Down(j)) && k < |s.sems|
    ensures QueueMoves(s, Down(j), k)
  {
    var t := Tried(s, j, s.level);
    TriedQueue(s, j, s.level, k);
    JoinsByTry(s, Down(j), j, k, t);
    assert [] + t.sems[k].queue == t.sems[k].queue;
  }

  lemma JoinsByTry(s: State, e: Event, j: nat, k: nat, t: State)
    requires Inv(s) && Enabled(s, e) && t == Next(s, e) && s.current < |t.threads|
    requires e == Down(j) || (e == Recheck && s.threads[s.current].place.sem == j)
    ensures Joins(s, e, k) == if j == k && t.threads[s.current].place != Code then [s.current] else []
    ensures Wakes(s, e, k) == []
  {
  }

  lemma RecheckMoves(s: State, k: nat)
    requires Inv(s) && Enabled(s, Recheck) && k < |s.sems|
    ensures QueueMoves(s, Recheck, k)
  {
    var place := s.threads[s.current].place;
    assert Fits(s.threads[s.current], true, |s.sems|);
    var t := Tried(s, place.sem, place.oldLevel);
    TriedQueue(s, place.sem, place.oldLevel, k);
    JoinsByTry(s, Recheck, place.sem, k, t);
    assert [] + t.sems[k].queue == t.sems[k].queue;
  }

  lemma SameMoves(s: State, e: Event, k: nat)
    requires Inv(s) && Enabled(s, e) && k < |s.sems| && !IsV(e, k) && !e.Down? && !e.Recheck?
    requires s.sems <= Next(s, e).sems
    ensures QueueMoves(s, e, k)
  {
  }

  lemma SwitchKeepsSems(s: State, e: Event)
    requires Inv(s) && Enabled(s, e) && (e == Yield || e == Dispatch)
    ensures Next(s, e).sems == s.sems
  {
    InvBounds(s);
  }

  lemma EventMoves(s: State, e: Event, k: nat)
    requires Inv(s) && Enabled(s, e) && k < |s.sems|
    ensures QueueMoves(s, e, k)
  {
    match e
    case Up(j) => UppedMoves(s, e, j, k);
    case Interrupt(j) => UppedMoves(s, e, j, k);
    case Down(j) => DownMoves(s, j, k);
    case Recheck => RecheckMoves(s, k);
    case Yield =>
      SwitchKeepsSems(s, e);
      SameMoves(s, e, k);
    case Dispatch =>
      SwitchKeepsSems(s, e);
      SameMoves(s, e, k);
    case _ => SameMoves(s, e, k);
  }

  /** All who went to sleep on `k` in a run, and all whom V's on `k` made ready, in order. */
  ghost function Joined(s: State, es: seq<Event>, k: nat): seq<Tid>
    requires Inv(s)
    decreases |es|
  {
    if es == [] || !Enabled(s, es[0]) then []
    else
      NextKeeps(s, es[0]);
      Joins(s, es[0], k) + Joined(Next(s, es[0]), es[1..], k)
  }

  ghost function WokenIn(s: State, es: seq<Event>, k: nat): seq<Tid>
    requires Inv(s)
    decreases |es|
  {
    if es == [] || !Enabled(s, es[0]) then []
    else
      NextKeeps(s, es[0]);
      Wakes(s, es[0], k) + WokenIn(Next(s, es[0]), es[1..], k)
  }

  /** Over every run, those who waited and those who came to wait are those woken and those who wait still, in order. */
  lemma {:induction false} FirstWaitsFirstWoken(s: State, es: seq<Event>, t: State, k: nat)
    requires Inv(s) && Run(s, es, t) && k < |s.sems|
    ensures k < |t.sems| && s.sems[k].queue + Joined(s, es, k) == WokenIn(s, es, k) + t.sems[k].queue
    decreases |es|
  {
    if es != [] {
      var u := Next(s, es[0]);
      NextKeeps(s, es[0]);
      EventMoves(s, es[0], k);
      FirstWaitsFirstWoken(u, es[1..], t, k);
      Shift(s.sems[k].queue, Joins(s, es[0], k), Wakes(s, es[0], k), u.sems[k].queue,
            Joined(u, es[1..], k), WokenIn(u, es[1..], k), t.sems[k].queue);
    }
  }

  lemma Shift(q: seq<Tid>, a: seq<Tid>, b: seq<Tid>, r: seq<Tid>, c: seq<Tid>, d: seq<Tid>, z: seq<Tid>)
    requires q + a == b + r && r + c == d + z
    ensures q + (a + c) == (b + d) + z
  {
    assert q + (a + c) == (q + a) + c && (b + r) + c == b + (r + c) && b + (d + z) == (b + d) + z;
  }

  /** So the thread at position `i` of a semaphore's queue is the one that is woken after `i` others. */
  lemma WaiterIsWoken(s: State, es: seq<Event>, t: State, k: nat, i: nat)
    requires Inv(s) && Run(s, es, t) && k < |s.sems| && i < |s.sems[k].queue| && i < |WokenIn(s, es, k)|
    ensures WokenIn(s, es, k)[i] == s.sems[k].queue[i]
  {
    FirstWaitsFirstWoken(s, es, t, k);
    SamePlace(s.sems[k].queue, Joined(s, es, k), WokenIn(s, es, k), t.sems[k].queue, i);
  }

  lemma SamePlace(q: seq<Tid>, a: seq<Tid>, b: seq<Tid>, r: seq<Tid>, i: nat)
    requires q + a == b + r && i < |q| && i < |b|
    ensures b[i] == q[i]
  {
    assert (q + a)[i] == (b + r)[i];
  }

  // ------------------------------------------------------------- who has the processor

  /** The processor changes hands only to the first ready thread, and the log of dispatches says so. */
  lemma HandedOver(s: State, e: Event)
    requires Inv(s) && Enabled(s, e)
    ensures var t := Next(s, e);
            || (t.current == s.current && t.dispatched == s.dispatched)
            || (s.ready != [] && t.current == s.ready[0] && t.dispatched == s.dispatched + [t.current])
  {
    InvBounds(s);
  }

  // ------------------------------------------------------------------ interrupt levels

  /** The thread waits in P or Yield, to go on with the level `level`. */
  ghost predicate Keeps(th: Thread, level: I.IntStatus)
  {
    (th.place.InP? || th.place.InYield?) && th.place.oldLevel == level
  }

  /** The thread has the processor, in its own code, with the level `level`. */
  ghost predicate HasLevel(s: State, x: Tid, level: I.IntStatus)
  {
    s.current == x < |s.threads| && s.threads[x] == Thread(Running, Code) && s.level == level
  }

  lemma TriedLevel(s: State, k: nat, x: Tid, level: I.IntStatus)
    requires k < |s.sems| && x < |s.threads| && s.current < |s.threads|
    requires Keeps(s.threads[x], level) || x == s.current
    ensures var t := Tried(s, k, level);
            x < |t.threads| && (Keeps(t.threads[x], level) || (x == s.current && HasLevel(t, x, level)))
  {
  }

  lemma SwitchedLevel(s: State, next: Tid, x: Tid, level: I.IntStatus)
    requires next < |s.threads| && x < |s.threads| && Keeps(s.threads[x], level)
    ensures var t := Switched(s, next);
            x < |t.threads| && (Keeps(t.threads[x], level) || HasLevel(t, x, level))
  {
  }

  /** Until it goes on, a thread keeps the level it is to go on with. */
  lemma LevelKept(s: State, e: Event, x: Tid, level: I.IntStatus)
    requires Inv(s) && Enabled(s, e) && x < |s.threads| && Keeps(s.threads[x], level)
    ensures var t := Next(s, e); x < |t.threads| && (Keeps(t.threads[x], level) || HasLevel(t, x, level))
  {
    InvBounds(s);
    assert Fits(s.threads[x], x == s.current, |s.sems|);
    match e
    case Down(k) => OtherTried(s, k, s.level, x, level);
    case Recheck =>
      var place := s.threads[s.current].place;
      if x == s.current {
        TriedLevel(s, place.sem, x, level);
      } else {
        OtherTried(s, place.sem, place.oldLevel, x, level);
      }
    case Yield =>
      if s.ready != [] {
        YieldedLevel(s, x, level);
      }
    case Dispatch => SwitchedLevel(s.(ready := s.ready[1..]), s.ready[0], x, level);
    case _ =>
  }

  lemma OtherTried(s: State, k: nat, oldLevel: I.IntStatus, x: Tid, level: I.IntStatus)
    requires k < |s.sems| && x < |s.threads| && s.current < |s.threads| && x != s.current && Keeps(s.threads[x], level)
    ensures var t := Tried(s, k, oldLevel); x < |t.threads| && Keeps(t.threads[x], level)
  {
  }

  lemma YieldedLevel(s: State, x: Tid, level: I.IntStatus)
    requires Inv(s) && Enabled(s, Yield) && s.ready != [] && x < |s.threads| && Keeps(s.threads[x], level)
    ensures (InvBounds(s); var t := Yielded(s);
             x < |t.threads| && (Keeps(t.threads[x], level) || HasLevel(t, x, level)))
  {
    InvBounds(s);
    SwitchedLevel(Aside(s, s.level).(ready := s.ready[1..] + [s.current]), s.ready[0], x, level);
  }

  /** At some point of the run the thread goes on with the level `level`. */
  ghost predicate GoesOn(s: State, es: seq<Event>, x: Tid, level: I.IntStatus)
    requires Inv(s)
    decreases |es|
  {
    && es != [] && Enabled(s, es[0])
    && (NextKeeps(s, es[0]); HasLevel(Next(s, es[0]), x, level) || GoesOn(Next(s, es[0]), es[1..], x, level))
  }

  lemma {:induction false} WaitsOrGoesOn(s: State, es: seq<Event>, t: State, x: Tid, level: I.IntStatus)
    requires Inv(s) && Run(s, es, t) && x < |s.threads| && Keeps(s.threads[x], level)
    ensures x < |t.threads|
    ensures Keeps(t.threads[x], level) || GoesOn(s, es, x, level)
    decreases |es|
  {
    if es != [] {
      NextKeeps(s, es[0]);
      LevelKept(s, es[0], x, level);
      var u := Next(s, es[0]);
      if Keeps(u.threads[x], level) {
        WaitsOrGoesOn(u, es[1..], t, x, level);
      } else {
        ThreadStays(u, es[1..], t, x);
      }
    }
  }

  lemma ThreadsStay(s: State, e: Event)
    requires Inv(s) && Enabled(s, e)
    ensures |s.threads| <= |Next(s, e).threads|
  {
    match e
    case Up(k) =>
      var _ := NextOfV(s, e, k);
    case Interrupt(k) =>
      var _ := NextOfV(s, e, k);
    case Yield => InvBounds(s);
    case Dispatch => InvBounds(s);
    case _ =>
  }

  lemma {:induction false} ThreadStays(s: State, es: seq<Event>, t: State, x: Tid)
    requires Inv(s) && Run(s, es, t) && x < |s.threads|
    ensures x < |t.threads|
    decreases |es|
  {
    if es != [] {
      NextKeeps(s, es[0]);
      ThreadsStay(s, es[0]);
      ThreadStays(Next(s, es[0]), es[1..], t, x);
    }
  }

  /**
   A thread that calls P or Yield at some level has that level when the call is over: at once,
   or when it goes on later in the run, unless it waits to the end of it.
   */
  lemma LevelGivenBack(s: State, e: Event, es: seq<Event>, t: State)
    requires Inv(s) && Enabled(s, e) && (e.Down? || e == Yield)
    requires (NextKeeps(s, e); Run(Next(s, e), es, t))
    ensures (NextKeeps(s, e);
             || HasLevel(Next(s, e), s.current, s.level)
             || GoesOn(Next(s, e), es, s.current, s.level)
             || (s.current < |t.threads| && Keeps(t.threads[s.current], s.level)))
  {
    NextKeeps(s, e);
    InvBounds(s);
    if e.Down? {
      TriedLevel(s, e.sem, s.current, s.level);
    }
    if !HasLevel(Next(s, e), s.current, s.level) {
      CallWaits(s, e);
      WaitsOrGoesOn(Next(s, e), es, t, s.current, s.level);
    }
  }

  lemma CallWaits(s: State, e: Event)
    requires Inv(s) && Enabled(s, e) && (e.Down? || e == Yield) && !HasLevel(Next(s, e), s.current, s.level)
    ensures s.current < |Next(s, e).threads| && Keeps(Next(s, e).threads[s.current], s.level)
  {
    InvBounds(s);
  }

  /** A thread that runs for the first time does so in its own code, with interrupts on. */
  lemma FreshStarts(s: State, e: Event)
    requires Inv(s) && Enabled(s, e) && (e == Dispatch || e == Yield) && s.ready != []
    requires (InvBounds(s); s.threads[s.ready[0]].place == Fresh)
    ensures HasLevel(Next(s, e), s.ready[0], I.IntOn)
  {
    InvBounds(s);
  }

  /** Making threads and semaphores, forking and V's leave the level as it is. */
  lemma OthersKeepLevel(s: State, e: Event)
    requires Inv(s) && Enabled(s, e)
    requires e.NewThread? || e.NewSemaphore? || e.Fork? || e.Up? || e.Interrupt?
    ensures Next(s, e).level == s.level
  {
  }

  // ------------------------------------------------------------- finished threads

  /** The processor goes to a thread that has run before, which is when a finished one is deleted. */
  ghost predicate Reaps(s: State, e: Event)
    requires Inv(s)
  {
    && (e == Dispatch || e == Yield) && s.ready != []
    && (InvBounds(s); s.threads[s.ready[0]].place.InP? || s.threads[s.ready[0]].place.InYield?)
  }

  ghost predicate Reaped(s: State, es: seq<Event>)
    requires Inv(s)
    decreases |es|
  {
    es != [] && Enabled(s, es[0]) && (Reaps(s, es[0]) || (NextKeeps(s, es[0]); Reaped(Next(s, es[0]), es[1..])))
  }

  /** What a switch to the thread `next` does to those to be deleted. */
  lemma SwitchedReaps(s: State, next: Tid)
    requires next < |s.threads|
    ensures var place, t := s.threads[next].place, Switched(s, next);
            if place.InP? || place.InYield? then t.doomed == {} && t.deleted == s.deleted + s.doomed
            else t.doomed == s.doomed && t.deleted == s.deleted
  {
  }

  ghost predicate ReapsWell(s: State, e: Event)
    requires Inv(s) && Enabled(s, e)
  {
    if Reaps(s, e) then Next(s, e).doomed == {} && Next(s, e).deleted == s.deleted + s.doomed
    else Next(s, e).doomed == s.doomed && Next(s, e).deleted == s.deleted
  }

  lemma YieldReaps(s: State)
    requires Inv(s) && Enabled(s, Yield)
    ensures ReapsWell(s, Yield)
  {
    InvBounds(s);
    if s.ready != [] {
      var u := Aside(s, s.level).(ready := s.ready[1..] + [s.current]);
      assert s.ready[0] != s.current && u.threads[s.ready[0]] == s.threads[s.ready[0]];
      SwitchedReaps(u, s.ready[0]);
    }
  }

  lemma DispatchReaps(s: State)
    requires Inv(s) && Enabled(s, Dispatch)
    ensures ReapsWell(s, Dispatch)
  {
    InvBounds(s);
    SwitchedReaps(s.(ready := s.ready[1..]), s.ready[0]);
  }

  lemma EventReaps(s: State, e: Event)
    requires Inv(s) && Enabled(s, e) && e != Finish
    ensures ReapsWell(s, e)
  {
    match e
    case Yield => YieldReaps(s);
    case Dispatch => DispatchReaps(s);
    case Up(k) => VReapsNone(s, e, k);
    case Interrupt(k) => VReapsNone(s, e, k);
    case Down(k) => TryReapsNone(s, e);
    case Recheck => TryReapsNone(s, e);
    case _ =>
  }

  lemma VReapsNone(s: State, e: Event, k: nat)
    requires Inv(s) && Enabled(s, e) && (e == Up(k) || e == Interrupt(k))
    ensures ReapsWell(s, e)
  {
    var _ := NextOfV(s, e, k);
  }

  lemma TryReapsNone(s: State, e: Event)
    requires Inv(s) && Enabled(s, e) && (e.Down? || e == Recheck)
    ensures ReapsWell(s, e)
  {
  }

  lemma {:induction false} DeletedStays(s: State, es: seq<Event>, t: State, x: Tid)
    requires Inv(s) && Run(s, es, t) && x in s.deleted && Finish !in es
    ensures x in t.deleted
    decreases |es|
  {
    if es != [] {
      NextKeeps(s, es[0]);
      EventReaps(s, es[0]);
      DeletedStays(Next(s, es[0]), es[1..], t, x);
    }
  }

  /** Until another finishes, a finished thread is deleted exactly if a thread that has run before is dispatched. */
  lemma {:induction false} DeletedIff(s: State, es: seq<Event>, t: State, x: Tid)
    requires Inv(s) && Run(s, es, t) && s.doomed == {x} && x !in s.deleted && Finish !in es
    ensures x in t.deleted <==> Reaped(s, es)
    ensures !Reaped(s, es) ==> t.doomed == {x}
    decreases |es|
  {
    if es != [] {
      NextKeeps(s, es[0]);
      EventReaps(s, es[0]);
      if Reaps(s, es[0]) {
        DeletedStays(Next(s, es[0]), es[1..], t, x);
      } else {
        DeletedIff(Next(s, es[0]), es[1..], t, x);
      }
    }
  }

  /** A thread that finishes is the one to be deleted, and has not been. */
  lemma FinishDooms(s: State)
    requires Inv(s) && Enabled(s, Finish)
    ensures Next(s, Finish).doomed == {s.current} && s.current !in Next(s, Finish).deleted
  {
  }
}
