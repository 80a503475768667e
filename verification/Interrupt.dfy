/**
 Simulated time and hardware interrupts (machine/interrupt): pending interrupts
 wait on a list sorted by time and fire when the clock reaches them.
 */
module Interrupts {
  import opened Lists

  const SYSTEM_TICK := 10
  const USER_TICK := 1

  datatype IntType = TimerInt | DiskInt | ConsoleWriteInt | ConsoleReadInt | NetworkSendInt | NetworkRecvInt

  datatype IntStatus = IntOff | IntOn

  datatype MachineStatus = IdleMode | SystemMode | UserMode

  /** An interrupt that is to occur at time `when`. */
  datatype PendingInterrupt = PendingInterrupt(handler: nat, arg: int, when: int, kind: IntType)

  /**
   What a handler does while it runs: it schedules another interrupt, asks for a context
   switch, or does a V. A V is the kernel's business and leaves the interrupt hardware alone.
   */
  datatype Request =
    | Schedule(handler: nat, arg: int, fromNow: int, kind: IntType)
    | YieldOnReturn
    | Signal(sem: nat)

  /** The requests made by the first, second, ... handler that runs, and the interrupt it serves; a run fixes them. */
  type Script = (nat, PendingInterrupt) -> seq<Request>

  /** Devices only schedule interrupts strictly in the future. */
  ghost predicate Future(rs: seq<Request>)
  {
    forall i | 0 <= i < |rs| && rs[i].Schedule? :: rs[i].fromNow > 0
  }

  ghost predicate FutureScript(script: Script)
  {
    forall k, p :: Future(script(k, p))
  }

  // ------------------------------------------------- the state as a value

  type Queue = seq<Cell<PendingInterrupt>>

  /** An interrupt that has fired, and the time at which it did. */
  datatype Firing = Firing(interrupt: PendingInterrupt, at: int)

  datatype State = State(
    pending: Queue, totalTicks: int, idleTicks: int, systemTicks: int, userTicks: int,
    level: IntStatus, inHandler: bool, yieldOnReturn: bool, status: MachineStatus,
    fired: seq<Firing>, scheduled: seq<PendingInterrupt>)

  function CellOf(p: PendingInterrupt): Cell<PendingInterrupt>
  {
    Cell(p, p.when)
  }

  /** `Interrupt::Schedule` */
  function Scheduled(s: State, r: Request): State
    requires r.Schedule?
  {
    var p := PendingInterrupt(r.handler, r.arg, s.totalTicks + r.fromNow, r.kind);
    s.(pending := Insert(s.pending, CellOf(p)), scheduled := s.scheduled + [p])
  }

  function Requested(s: State, rs: seq<Request>): State
    decreases |rs|
  {
    if rs == [] then s else Requested(RequestedOne(s, rs[0]), rs[1..])
  }

  function RequestedOne(s: State, r: Request): State
  {
    match r
    case Schedule(_, _, _, _) => Scheduled(s, r)
    case YieldOnReturn => s.(yieldOnReturn := true)
    case Signal(_) => s
  }

  /** The handler of `p` runs, with interrupts off and in the kernel. */
  function Fired(s: State, p: PendingInterrupt, script: Script): State
  {
    var s1 := Requested(s.(inHandler := true, status := SystemMode), script(|s.fired|, p));
    s1.(inHandler := false, status := s.status, fired := s.fired + [Firing(p, s.totalTicks)])
  }

  /** The first pending interrupt is taken off the list, and the clock moved up to it if need be. */
  function HeadRemoved(s: State): State
    requires s.pending != []
  {
    var when := s.pending[0].key;
    if when > s.totalTicks
    then s.(pending := s.pending[1..], idleTicks := s.idleTicks + (when - s.totalTicks), totalTicks := when)
    else s.(pending := s.pending[1..])
  }

  /** `Interrupt::CheckIfDue`: the new state, and whether an interrupt has fired. */
  function Checked(s: State, advanceClock: bool, script: Script): (State, bool)
  {
    if s.pending == [] then (s, false)
    else
      var p, rest := s.pending[0].item, s.pending[1..];
      var when := s.pending[0].key;
      if when > s.totalTicks && !advanceClock then
        (s.(pending := Insert(rest, CellOf(p))), false)
      else
        var t := HeadRemoved(s);
        if s.status == IdleMode && p.kind == TimerInt && rest == [] then
          (t.(pending := Insert(rest, CellOf(p))), false)
        else
          (Fired(t, p, script), true)
  }

  // ---------------------------------------------------------- invariants

  /** The list is sorted by time, and its keys are the interrupts' times. */
  ghost predicate GoodQueue(q: Queue)
  {
    Sorted(q) && KeyedByTime(q)
  }

  ghost predicate KeyedByTime(q: Queue)
  {
    forall i | 0 <= i < |q| :: q[i].key == q[i].item.when
  }

  /** What has fired did so in order of time and never early. */
  ghost predicate GoodLog(fired: seq<Firing>, now: int)
  {
    if fired == [] then true
    else
      var n := |fired| - 1;
      var f := fired[n];
      && f.interrupt.when <= f.at <= now
      && (n > 0 ==> fired[n - 1].interrupt.when <= f.interrupt.when)
      && GoodLog(fired[..n], f.at)
  }

  /** The same, for any two firings. */
  lemma {:induction false} LogInOrder(fired: seq<Firing>, now: int, i: nat, j: nat)
    requires GoodLog(fired, now) && i <= j < |fired|
    ensures fired[i].interrupt.when <= fired[j].interrupt.when
    ensures fired[i].interrupt.when <= fired[i].at <= fired[j].at <= now
    decreases |fired|
  {
    var n := |fired| - 1;
    var g := fired[..n];
    if i < j {
      LogInOrder(g, fired[n].at, i, if j < n then j else n - 1);
    } else if j < n {
      LogInOrder(g, fired[n].at, i, j);
    }
    if j < n {
      assert g[i] == fired[i] && g[j] == fired[j];
    } else if i < j {
      assert g[i] == fired[i] && g[n - 1] == fired[n - 1];
    }
  }

  lemma LogLater(fired: seq<Firing>, now: int, later: int)
    requires GoodLog(fired, now) && now <= later
    ensures GoodLog(fired, later)
  {
  }

  lemma LogExtended(fired: seq<Firing>, now: int, f: Firing)
    requires GoodLog(fired, now) && f.interrupt.when <= f.at == now
    requires fired != [] ==> fired[|fired| - 1].interrupt.when <= f.interrupt.when
    ensures GoodLog(fired + [f], now)
  {
    assert (fired + [f])[..|fired|] == fired;
  }

  /** No pending interrupt is earlier than one that has fired. */
  ghost predicate After(fired: seq<Firing>, q: Queue)
  {
    fired != [] ==> AtLeast(q, fired[|fired| - 1].interrupt.when)
  }

  function Items(q: Queue): seq<PendingInterrupt>
  {
    seq(|q|, i requires 0 <= i < |q| => q[i].item)
  }

  function FiredItems(fired: seq<Firing>): seq<PendingInterrupt>
  {
    seq(|fired|, i requires 0 <= i < |fired| => fired[i].interrupt)
  }

  ghost predicate Inv(s: State)
  {
    && GoodQueue(s.pending) && GoodLog(s.fired, s.totalTicks) && After(s.fired, s.pending)
    && s.totalTicks == s.idleTicks + s.systemTicks + s.userTicks
    && Conserved(s.scheduled, s.pending, s.fired)
  }

  /** Every interrupt that was scheduled is pending or has fired, once. */
  ghost predicate Conserved(scheduled: seq<PendingInterrupt>, q: Queue, fired: seq<Firing>)
  {
    multiset(scheduled) == multiset(Items(q)) + multiset(FiredItems(fired))
  }

  /** The mode, the level and the flags are not part of the invariant. */
  lemma SameHardware(s: State, t: State)
    requires Inv(s)
    requires t == s.(level := t.level, inHandler := t.inHandler, yieldOnReturn := t.yieldOnReturn, status := t.status)
    ensures Inv(t)
  {
  }

  lemma {:induction false} InsertItems(q: Queue, p: PendingInterrupt)
    ensures multiset(Items(Insert(q, CellOf(p)))) == multiset(Items(q)) + multiset{p}
  {
    if q != [] && CellOf(p).key >= q[0].key {
      InsertItems(q[1..], p);
      assert Items(q) == [q[0].item] + Items(q[1..]);
      assert Items(Insert(q, CellOf(p))) == [q[0].item] + Items(Insert(q[1..], CellOf(p)));
    } else {
      assert Items(Insert(q, CellOf(p))) == [p] + Items(q);
    }
  }

  lemma ScheduledKeeps(s: State, r: Request)
    requires Inv(s) && r.Schedule? && r.fromNow > 0
    ensures Inv(Scheduled(s, r))
  {
    var p := PendingInterrupt(r.handler, r.arg, s.totalTicks + r.fromNow, r.kind);
    InsertItems(s.pending, p);
    InsertGood(s.pending, p);
    InsertAfter(s.fired, s.pending, p);
  }

  lemma InsertGood(q: Queue, p: PendingInterrupt)
    requires GoodQueue(q)
    ensures GoodQueue(Insert(q, CellOf(p)))
  {
    InsertKeepsSorted(q, CellOf(p));
    InsertKeys(q, p);
  }

  lemma {:induction false} InsertKeys(q: Queue, p: PendingInterrupt)
    requires KeyedByTime(q)
    ensures KeyedByTime(Insert(q, CellOf(p)))
  {
    if q != [] && CellOf(p).key >= q[0].key {
      InsertKeys(q[1..], p);
      assert Insert(q, CellOf(p)) == [q[0]] + Insert(q[1..], CellOf(p));
    } else {
      assert Insert(q, CellOf(p)) == [CellOf(p)] + q;
    }
  }

  lemma InsertAfter(fired: seq<Firing>, q: Queue, p: PendingInterrupt)
    requires After(fired, q) && (fired != [] ==> fired[|fired| - 1].interrupt.when <= p.when)
    ensures After(fired, Insert(q, CellOf(p)))
  {
    if fired != [] {
      InsertKeepsBound(q, CellOf(p), fired[|fired| - 1].interrupt.when);
    }
  }

  /** A handler's request leaves the clock and the log alone, and makes nothing due. */
  ghost predicate OnlyLater(s: State, t: State)
  {
    && t.(pending := s.pending, scheduled := s.scheduled, yieldOnReturn := s.yieldOnReturn) == s
    && Due(t.pending, t.totalTicks) == Due(s.pending, s.totalTicks)
    && forall low | low <= s.totalTicks && AtLeast(s.pending, low) :: AtLeast(t.pending, low)
  }

  lemma RequestedOneKeeps(s: State, r: Request)
    requires Inv(s) && (r.Schedule? ==> r.fromNow > 0)
    ensures Inv(RequestedOne(s, r)) && OnlyLater(s, RequestedOne(s, r))
  {
    match r
    case Schedule(_, _, _, _) =>
      ScheduledKeeps(s, r);
      ScheduledLater(s, r);
    case YieldOnReturn => SameHardware(s, s.(yieldOnReturn := true));
    case Signal(_) =>
  }

  lemma ScheduledLater(s: State, r: Request)
    requires r.Schedule? && r.fromNow > 0
    ensures OnlyLater(s, Scheduled(s, r))
  {
    var p := PendingInterrupt(r.handler, r.arg, s.totalTicks + r.fromNow, r.kind);
    InsertDue(s.pending, p, s.totalTicks);
    forall low | low <= s.totalTicks && AtLeast(s.pending, low)
      ensures AtLeast(Insert(s.pending, CellOf(p)), low)
    {
      InsertKeepsBound(s.pending, CellOf(p), low);
    }
  }

  lemma {:induction false} RequestedKeeps(s: State, rs: seq<Request>)
    requires Inv(s) && Future(rs)
    ensures Inv(Requested(s, rs)) && OnlyLater(s, Requested(s, rs))
    decreases |rs|
  {
    if rs != [] {
      RequestedOneKeeps(s, rs[0]);
      RequestedKeeps(RequestedOne(s, rs[0]), rs[1..]);
    }
  }

  // ------------------------------------------------- how many are due

  /** The number of pending interrupts whose time has come. */
  function Due(q: Queue, now: int): nat
  {
    if q == [] then 0 else (if q[0].key <= now then 1 else 0) + Due(q[1..], now)
  }

  lemma {:induction false} InsertDue(q: Queue, p: PendingInterrupt, now: int)
    ensures Due(Insert(q, CellOf(p)), now) == Due(q, now) + if p.when <= now then 1 else 0
  {
    if q != [] && CellOf(p).key >= q[0].key {
      InsertDue(q[1..], p, now);
    } else {
      assert ([CellOf(p)] + q)[1..] == q;
    }
  }

  // --------------------------------------------------------- CheckIfDue

  /** `p` has just been taken off the list, and it is due. */
  ghost predicate Ready(s: State, p: PendingInterrupt)
  {
    && GoodQueue(s.pending) && GoodLog(s.fired, s.totalTicks) && After(s.fired, s.pending)
    && s.totalTicks == s.idleTicks + s.systemTicks + s.userTicks
    && ConservedBut(s.scheduled, s.pending, s.fired, p)
    && p.when <= s.totalTicks && AtLeast(s.pending, p.when)
    && (s.fired != [] ==> s.fired[|s.fired| - 1].interrupt.when <= p.when)
  }

  /** Every interrupt that was scheduled is pending or has fired, except `p`, which is in hand. */
  ghost predicate ConservedBut(scheduled: seq<PendingInterrupt>, q: Queue, fired: seq<Firing>, p: PendingInterrupt)
  {
    multiset(scheduled) == multiset(Items(q)) + multiset(FiredItems(fired)) + multiset{p}
  }

  /** Running the handler does not look at the log, so the firing may as well be written first. */
  function Logged(s: State, p: PendingInterrupt): State
  {
    s.(inHandler := true, status := SystemMode, fired := s.fired + [Firing(p, s.totalTicks)])
  }

  lemma LoggedGood(s: State, p: PendingInterrupt)
    requires Ready(s, p)
    ensures Inv(Logged(s, p))
  {
    LoggedConserved(s, p);
    LogExtended(s.fired, s.totalTicks, Firing(p, s.totalTicks));
    assert Logged(s, p).fired[|s.fired|].interrupt == p;
  }

  lemma LoggedConserved(s: State, p: PendingInterrupt)
    requires ConservedBut(s.scheduled, s.pending, s.fired, p)
    ensures Conserved(s.scheduled, s.pending, Logged(s, p).fired)
  {
    assert FiredItems(Logged(s, p).fired) == FiredItems(s.fired) + [p];
  }

  lemma FiredIsRequested(s: State, p: PendingInterrupt, script: Script)
    ensures Fired(s, p, script)
         == Requested(Logged(s, p), script(|s.fired|, p)).(inHandler := false, status := s.status)
  {
    RequestedIgnoresLog(s.(inHandler := true, status := SystemMode), script(|s.fired|, p), Logged(s, p).fired);
  }

  lemma FiredKeeps(s: State, p: PendingInterrupt, script: Script)
    requires FutureScript(script) && Ready(s, p)
    ensures var t := Fired(s, p, script);
            && Inv(t) && t.totalTicks == s.totalTicks && t.idleTicks == s.idleTicks
            && t.level == s.level && t.status == s.status && t.fired == s.fired + [Firing(p, s.totalTicks)]
            && Due(t.pending, t.totalTicks) == Due(s.pending, s.totalTicks)
  {
    var u := Requested(Logged(s, p), script(|s.fired|, p));
    LoggedGood(s, p);
    RequestedKeeps(Logged(s, p), script(|s.fired|, p));
    FiredIsRequested(s, p, script);
    SameHardware(u, Fired(s, p, script));
  }

  lemma {:induction false} RequestedIgnoresLog(s: State, rs: seq<Request>, log: seq<Firing>)
    ensures Requested(s.(fired := log), rs) == Requested(s, rs).(fired := log)
    decreases |rs|
  {
    if rs != [] {
      RequestedIgnoresLog(RequestedOne(s, rs[0]), rs[1..], log);
    }
  }

  /** The head of the list is the earliest interrupt; putting it back keeps the list good. */
  lemma PutBack(q: Queue)
    requires q != [] && GoodQueue(q)
    ensures q[0] == CellOf(q[0].item) && GoodQueue(q[1..]) && AtLeast(q, q[0].key) && AtLeast(q[1..], q[0].key)
    ensures var r := Insert(q[1..], CellOf(q[0].item));
            GoodQueue(r) && AtLeast(r, q[0].key) && multiset(Items(r)) == multiset(Items(q)) && r != []
    ensures multiset(Items(q)) == multiset(Items(q[1..])) + multiset{q[0].item}
    ensures |q| == 1 ==> Insert(q[1..], CellOf(q[0].item)) == q
  {
    SortedFromHead(q);
    InsertGood(q[1..], q[0].item);
    InsertKeepsBound(q[1..], CellOf(q[0].item), q[0].key);
    PutBackItems(q);
  }

  lemma PutBackItems(q: Queue)
    requires q != []
    ensures multiset(Items(Insert(q[1..], CellOf(q[0].item)))) == multiset(Items(q))
    ensures multiset(Items(q)) == multiset(Items(q[1..])) + multiset{q[0].item}
  {
    InsertItems(q[1..], q[0].item);
    assert Items(q) == [q[0].item] + Items(q[1..]);
  }

  /** The clock after a check: an idle machine moves it up to the earliest pending interrupt, and no further. */
  function ClockAfter(s: State, advanceClock: bool): int
  {
    if advanceClock && s.pending != [] && s.pending[0].key > s.totalTicks then s.pending[0].key else s.totalTicks
  }

  lemma TailGood(q: Queue)
    requires q != [] && GoodQueue(q)
    ensures GoodQueue(q[1..]) && AtLeast(q[1..], q[0].key) && q[0].key == q[0].item.when
  {
    SortedFromHead(q);
  }

  lemma TailConserved(scheduled: seq<PendingInterrupt>, q: Queue, fired: seq<Firing>)
    requires q != [] && Conserved(scheduled, q, fired)
    ensures ConservedBut(scheduled, q[1..], fired, q[0].item)
  {
    assert Items(q) == [q[0].item] + Items(q[1..]);
  }

  lemma TailAfter(fired: seq<Firing>, q: Queue)
    requires q != [] && After(fired, q)
    ensures After(fired, q[1..]) && (fired != [] ==> fired[|fired| - 1].interrupt.when <= q[0].key)
  {
  }

  lemma HeadReady(s: State)
    requires Inv(s) && s.pending != []
    ensures Ready(HeadRemoved(s), s.pending[0].item)
  {
    var q, t := s.pending, HeadRemoved(s);
    assert GoodQueue(t.pending) && AtLeast(t.pending, q[0].item.when) by {
      TailGood(q);
    }
    assert ConservedBut(t.scheduled, t.pending, t.fired, q[0].item) by {
      TailConserved(s.scheduled, q, s.fired);
    }
    TailAfter(s.fired, q);
    HeadClock(s);
  }

  lemma HeadClock(s: State)
    requires Inv(s) && s.pending != []
    ensures var t := HeadRemoved(s);
            && GoodLog(t.fired, t.totalTicks) && t.totalTicks == t.idleTicks + t.systemTicks + t.userTicks
            && s.pending[0].item.when <= t.totalTicks
  {
    assert s.pending[0].key == s.pending[0].item.when;
    LogLater(s.fired, s.totalTicks, HeadRemoved(s).totalTicks);
  }

  /** An interrupt put back after its removal. */
  lemma HeadPutBack(s: State, t: State)
    requires Inv(s) && s.pending != []
    requires t == s || t == HeadRemoved(s)
    ensures Inv(t.(pending := Insert(s.pending[1..], CellOf(s.pending[0].item))))
  {
    PutBack(s.pending);
    BackAfter(s.fired, s.pending, Insert(s.pending[1..], CellOf(s.pending[0].item)));
    LogLater(s.fired, s.totalTicks, t.totalTicks);
  }

  /** What a check that fires something, or nothing, comes to. */
  ghost predicate CheckOutcome(s: State, advanceClock: bool, t: State, b: bool)
  {
    && Inv(t) && t.totalTicks == ClockAfter(s, advanceClock)
    && t.level == s.level && t.status == s.status
    && s.fired <= t.fired && |t.fired| == |s.fired| + if b then 1 else 0
  }

  lemma CheckedFires(s: State, advanceClock: bool, script: Script)
    requires FutureScript(script) && Inv(s) && s.pending != []
    requires s.pending[0].key <= s.totalTicks || advanceClock
    ensures CheckOutcome(s, advanceClock, Fired(HeadRemoved(s), s.pending[0].item, script), true)
  {
    HeadReady(s);
    FiredKeeps(HeadRemoved(s), s.pending[0].item, script);
  }

  lemma CheckedKeeps(s: State, advanceClock: bool, script: Script)
    requires FutureScript(script) && Inv(s)
    ensures CheckOutcome(s, advanceClock, Checked(s, advanceClock, script).0, Checked(s, advanceClock, script).1)
  {
    if s.pending != [] {
      if s.pending[0].key > s.totalTicks && !advanceClock {
        HeadPutBack(s, s);
      } else if Checked(s, advanceClock, script).1 {
        CheckedFires(s, advanceClock, script);
      } else {
        HeadPutBack(s, HeadRemoved(s));
      }
    }
  }

  lemma BackAfter(fired: seq<Firing>, q: Queue, back: Queue)
    requires q != [] && After(fired, q) && AtLeast(back, q[0].key)
    ensures After(fired, back) && After(fired, q[1..])
  {
  }

  /** What a check that fires nothing, or something, says about what is due. */
  lemma CheckedDue(s: State, script: Script)
    requires FutureScript(script) && Inv(s)
    ensures var (t, b) := Checked(s, false, script);
            && (b ==> Due(t.pending, t.totalTicks) < Due(s.pending, s.totalTicks))
            && (!b ==> Settled(t))
  {
    if s.pending != [] {
      if s.pending[0].key <= s.totalTicks {
        DueFires(s, script);
      } else {
        PutBack(s.pending);
      }
    }
  }

  lemma DueFires(s: State, script: Script)
    requires FutureScript(script) && Inv(s) && s.pending != [] && s.pending[0].key <= s.totalTicks
    ensures var t := Fired(HeadRemoved(s), s.pending[0].item, script);
            Due(t.pending, t.totalTicks) == Due(s.pending, s.totalTicks) - 1
  {
    HeadReady(s);
    FiredKeeps(HeadRemoved(s), s.pending[0].item, script);
  }

  /** An idle machine with nothing but the time-slice timer left. */
  ghost predicate LoneTimer(s: State)
  {
    s.status == IdleMode && |s.pending| == 1 && s.pending[0].item.kind == TimerInt
  }

  /** Nothing is overdue, or only the timer that an idle machine ignores. */
  ghost predicate Settled(s: State)
  {
    AtLeast(s.pending, s.totalTicks + 1) || LoneTimer(s)
  }

  // ------------------------------------------------------ the drain loop

  /** `while (CheckIfDue(FALSE));` */
  ghost function Drained(s: State, script: Script): State
    requires FutureScript(script) && Inv(s)
    decreases Due(s.pending, s.totalTicks)
  {
    var (t, b) := Checked(s, false, script);
    CheckedKeeps(s, false, script);
    CheckedDue(s, script);
    if b then Drained(t, script) else t
  }

  lemma {:induction false} DrainedKeeps(s: State, script: Script)
    requires FutureScript(script) && Inv(s)
    ensures Inv(Drained(s, script)) && s.fired <= Drained(s, script).fired
    ensures var t := Drained(s, script); t.totalTicks == s.totalTicks && t.level == s.level && t.status == s.status
    decreases Due(s.pending, s.totalTicks)
  {
    CheckedKeeps(s, false, script);
    CheckedDue(s, script);
    if Checked(s, false, script).1 {
      DrainedKeeps(Checked(s, false, script).0, script);
    }
  }

  /** The loop ends with nothing overdue, unless the machine is idle and only the timer is left. */
  lemma {:induction false} DrainedAll(s: State, script: Script)
    requires FutureScript(script) && Inv(s)
    ensures var t := Drained(s, script); Settled(t)
    decreases Due(s.pending, s.totalTicks)
  {
    CheckedKeeps(s, false, script);
    CheckedDue(s, script);
    if Checked(s, false, script).1 {
      DrainedAll(Checked(s, false, script).0, script);
    }
  }

  // ------------------------------------------------------ ticks and idling

  function Ticked(s: State): State
  {
    if s.status == SystemMode
    then s.(totalTicks := s.totalTicks + SYSTEM_TICK, systemTicks := s.systemTicks + SYSTEM_TICK)
    else s.(totalTicks := s.totalTicks + USER_TICK, userTicks := s.userTicks + USER_TICK)
  }

  lemma TickedKeeps(s: State)
    requires Inv(s)
    ensures Inv(Ticked(s)) && Ticked(s).totalTicks > s.totalTicks
  {
    LogLater(s.fired, s.totalTicks, Ticked(s).totalTicks);
  }

  /** `Interrupt::OneTick` up to the yield that a handler may have asked for. */
  ghost function OneTicked(s: State, script: Script): State
    requires FutureScript(script) && Inv(s)
  {
    TickedKeeps(s);
    SameHardware(Ticked(s), Ticked(s).(level := IntOff));
    Drained(Ticked(s).(level := IntOff), script).(level := IntOn, yieldOnReturn := false)
  }

  /** Whether a handler that ran during the tick asked for a context switch. */
  ghost predicate TickYields(s: State, script: Script)
    requires FutureScript(script) && Inv(s)
  {
    TickedKeeps(s);
    SameHardware(Ticked(s), Ticked(s).(level := IntOff));
    Drained(Ticked(s).(level := IntOff), script).yieldOnReturn
  }

  lemma OneTickKeeps(s: State, script: Script)
    requires FutureScript(script) && Inv(s)
    ensures var t := OneTicked(s, script);
            Inv(t) && t.totalTicks == Ticked(s).totalTicks && t.status == s.status && s.fired <= t.fired
  {
    var s0 := Ticked(s).(level := IntOff);
    TickedKeeps(s);
    SameHardware(Ticked(s), s0);
    DrainedKeeps(s0, script);
    SameHardware(Drained(s0, script), OneTicked(s, script));
  }

  /** After a tick nothing is overdue. */
  lemma OneTickSettles(s: State, script: Script)
    requires FutureScript(script) && Inv(s) && s.status != IdleMode
    ensures AtLeast(OneTicked(s, script).pending, OneTicked(s, script).totalTicks + 1)
  {
    var s0 := Ticked(s).(level := IntOff);
    TickedKeeps(s);
    SameHardware(Ticked(s), s0);
    DrainedKeeps(s0, script);
    DrainedAll(s0, script);
  }

  /** `Interrupt::Idle`: the new state, and whether the machine stops. */
  ghost function Idled(s: State, script: Script): (State, bool)
    requires FutureScript(script) && Inv(s)
  {
    var (t, b) := Checked(s.(status := IdleMode), true, script);
    SameHardware(s, s.(status := IdleMode));
    CheckedKeeps(s.(status := IdleMode), true, script);
    if b then (Drained(t, script).(yieldOnReturn := false, status := SystemMode), false) else (t, true)
  }

  lemma IdleKeeps(s: State, script: Script)
    requires FutureScript(script) && Inv(s)
    ensures var t := Idled(s, script).0;
            Inv(t) && t.totalTicks == ClockAfter(s, true) && s.fired <= t.fired && t.level == s.level
  {
    var s0 := s.(status := IdleMode);
    SameHardware(s, s0);
    var c := Checked(s0, true, script);
    CheckedKeeps(s0, true, script);
    if c.1 {
      DrainedKeeps(c.0, script);
      SameHardware(Drained(c.0, script), Idled(s, script).0);
    }
  }

  /** There is no interrupt to wait for but the time-slice timer. */
  ghost predicate NothingLeft(s: State)
  {
    s.pending == [] || (|s.pending| == 1 && s.pending[0].item.kind == TimerInt)
  }

  /** The machine stops exactly if nothing is left, and then no interrupt has fired or gone. */
  lemma IdleStops(s: State, script: Script)
    requires FutureScript(script) && Inv(s)
    ensures var (t, stop) := Idled(s, script);
            (stop <==> NothingLeft(s)) && (stop ==> t.fired == s.fired && t.pending == s.pending)
  {
    if s.pending != [] {
      PutBack(s.pending);
    }
  }

  /** Idling moves the clock exactly to the earliest pending interrupt, if that is in the future, and fires it. */
  lemma IdleJump(s: State, script: Script)
    requires FutureScript(script) && Inv(s) && !NothingLeft(s)
    ensures var t := Idled(s, script).0;
            && AtLeast(s.pending, s.pending[0].key) && t.totalTicks == ClockAfter(s, true)
            && |t.fired| > |s.fired|
            && t.fired[|s.fired|] == Firing(s.pending[0].item, t.totalTicks)
  {
    var s0 := s.(status := IdleMode);
    var t := Fired(HeadRemoved(s0), s.pending[0].item, script);
    SameHardware(s, s0);
    IdleFires(s0, script);
    DrainedKeeps(t, script);
    SortedFromHead(s.pending);
  }

  lemma IdleFires(s: State, script: Script)
    requires FutureScript(script) && Inv(s) && s.pending != []
    ensures var t := Fired(HeadRemoved(s), s.pending[0].item, script);
            && Inv(t) && t.totalTicks == ClockAfter(s, true)
            && t.fired == s.fired + [Firing(s.pending[0].item, t.totalTicks)]
  {
    HeadReady(s);
    FiredKeeps(HeadRemoved(s), s.pending[0].item, script);
  }

  // ------------------------------------------------ devices that never rest

  /** A device of the kind `kind` has an interrupt pending. */
  ghost predicate Waits(q: Queue, kind: IntType)
  {
    exists c :: c in q && c.item.kind == kind
  }

  ghost predicate Reschedules(rs: seq<Request>, kind: IntType)
  {
    exists r :: r in rs && r.Schedule? && r.kind == kind
  }

  /** The handlers of one kind of device schedule its next interrupt, as the console does that polls for a key. */
  ghost predicate Polling(script: Script, kind: IntType)
  {
    kind != TimerInt && forall k, p: PendingInterrupt | p.kind == kind :: Reschedules(script(k, p), kind)
  }

  lemma InsertWaits(q: Queue, p: PendingInterrupt, kind: IntType)
    requires Waits(q, kind) || p.kind == kind
    ensures Waits(Insert(q, CellOf(p)), kind)
  {
    InsertKeepsCells(q, CellOf(p));
    if Waits(q, kind) {
      var c :| c in q && c.item.kind == kind;
      assert c in multiset(Insert(q, CellOf(p)));
    } else {
      assert CellOf(p) in multiset(Insert(q, CellOf(p)));
    }
  }

  lemma {:induction false} RequestedWaits(s: State, rs: seq<Request>, kind: IntType)
    requires Waits(s.pending, kind) || Reschedules(rs, kind)
    ensures Waits(Requested(s, rs).pending, kind)
    decreases |rs|
  {
    if rs != [] {
      var t := RequestedOne(s, rs[0]);
      if rs[0].Schedule? && (Waits(s.pending, kind) || rs[0].kind == kind) {
        InsertWaits(s.pending,
                    PendingInterrupt(rs[0].handler, rs[0].arg, s.totalTicks + rs[0].fromNow, rs[0].kind), kind);
      }
      if !Waits(t.pending, kind) {
        var r :| r in rs && r.Schedule? && r.kind == kind;
        assert r in rs[1..];
      }
      RequestedWaits(t, rs[1..], kind);
    }
  }

  lemma FiredWaits(s: State, p: PendingInterrupt, script: Script, kind: IntType)
    requires Polling(script, kind) && (Waits(s.pending, kind) || p.kind == kind)
    ensures Waits(Fired(s, p, script).pending, kind)
  {
    RequestedWaits(s.(inHandler := true, status := SystemMode), script(|s.fired|, p), kind);
  }

  /** The interrupt waited for is the first one, or is left when that is taken off. */
  lemma HeadOrRest(q: Queue, kind: IntType)
    requires Waits(q, kind)
    ensures q != [] && (q[0].item.kind == kind || Waits(q[1..], kind))
  {
    var c :| c in q && c.item.kind == kind;
    if c != q[0] {
      assert c in q[1..];
    }
  }

  lemma CheckedWaits(s: State, advanceClock: bool, script: Script, kind: IntType)
    requires Polling(script, kind) && Inv(s) && Waits(s.pending, kind)
    ensures Waits(Checked(s, advanceClock, script).0.pending, kind)
  {
    HeadOrRest(s.pending, kind);
    InsertWaits(s.pending[1..], s.pending[0].item, kind);
    FiredWaits(HeadRemoved(s), s.pending[0].item, script, kind);
  }

  lemma {:induction false} DrainedWaits(s: State, script: Script, kind: IntType)
    requires FutureScript(script) && Polling(script, kind) && Inv(s) && Waits(s.pending, kind)
    ensures Waits(Drained(s, script).pending, kind)
    decreases Due(s.pending, s.totalTicks)
  {
    CheckedKeeps(s, false, script);
    CheckedDue(s, script);
    CheckedWaits(s, false, script, kind);
    if Checked(s, false, script).1 {
      DrainedWaits(Checked(s, false, script).0, script, kind);
    }
  }

  /** A machine with a device that polls idles on and on. */
  lemma IdleWaits(s: State, script: Script, kind: IntType)
    requires FutureScript(script) && Polling(script, kind) && Inv(s) && Waits(s.pending, kind)
    ensures !NothingLeft(s) && Waits(Idled(s, script).0.pending, kind)
  {
    var s0 := s.(status := IdleMode);
    SameHardware(s, s0);
    CheckedKeeps(s0, true, script);
    CheckedWaits(s0, true, script, kind);
    if Checked(s0, true, script).1 {
      DrainedWaits(Checked(s0, true, script).0, script, kind);
    }
  }

  // ------------------------------------------------------------ whole runs

  /** What happens to the interrupt hardware, one step after another. */
  datatype Event =
    | Tick
    | Idle
    | Device(request: Request)
    | SetStatus(status: MachineStatus)
    | SetLevel(level: IntStatus)

  ghost function Next(s: State, e: Event, script: Script): State
    requires FutureScript(script) && Inv(s) && Possible(s, e)
  {
    match e
    case Tick => OneTicked(s, script)
    case Idle => Idled(s, script).0
    case Device(r) => Scheduled(s, r)
    case SetStatus(status) => s.(status := status)
    case SetLevel(level) => s.(level := level)
  }

  /** Kernel code schedules only in the future, and time does not tick while the machine idles. */
  ghost predicate Possible(s: State, e: Event)
  {
    && (e.Tick? ==> s.status != IdleMode)
    && (e.Device? ==> e.request.Schedule? && e.request.fromNow > 0)
    && (e.SetStatus? ==> e.status != IdleMode)
  }

  lemma NextKeeps(s: State, e: Event, script: Script)
    requires FutureScript(script) && Inv(s) && Possible(s, e)
    ensures Inv(Next(s, e, script)) && s.fired <= Next(s, e, script).fired
    ensures s.totalTicks <= Next(s, e, script).totalTicks
  {
    match e
    case Tick => OneTickKeeps(s, script);
    case Idle => IdleKeeps(s, script);
    case Device(r) => ScheduledKeeps(s, r);
    case SetStatus(status) => SameHardware(s, s.(status := status));
    case SetLevel(level) => SameHardware(s, s.(level := level));
  }

  /** The events, each possible when it happens, lead from `s` to `t`. */
  ghost predicate Run(s: State, es: seq<Event>, t: State, script: Script)
    requires FutureScript(script) && Inv(s)
    decreases |es|
  {
    if es == [] then t == s
    else Possible(s, es[0]) && (NextKeeps(s, es[0], script); Run(Next(s, es[0], script), es[1..], t, script))
  }

  lemma {:induction false} RunKeeps(s: State, es: seq<Event>, t: State, script: Script)
    requires FutureScript(script) && Inv(s) && Run(s, es, t, script)
    ensures Inv(t) && s.fired <= t.fired && s.totalTicks <= t.totalTicks
    decreases |es|
  {
    if es != [] {
      NextKeeps(s, es[0], script);
      RunKeeps(Next(s, es[0], script), es[1..], t, script);
    }
  }

  /** The state of the hardware when it is switched on, at level `level`. */
  function PowerOn(level: IntStatus): State
  {
    State([], 0, 0, 0, 0, level, false, false, SystemMode, [], [])
  }

  lemma PowerOnGood(level: IntStatus)
    ensures Inv(PowerOn(level))
  {
  }

  /**
   In every state that is reached: each interrupt that was scheduled is pending or has
   fired, once; the list is sorted; and every tick is accounted for.
   */
  lemma Reachable(level: IntStatus, es: seq<Event>, t: State, script: Script)
    requires FutureScript(script) && (PowerOnGood(level); Run(PowerOn(level), es, t, script))
    ensures multiset(t.scheduled) == multiset(Items(t.pending)) + multiset(FiredItems(t.fired))
    ensures Sorted(t.pending) && t.totalTicks == t.idleTicks + t.systemTicks + t.userTicks
  {
    PowerOnGood(level);
    RunKeeps(PowerOn(level), es, t, script);
  }

  /** Over every run interrupts fire in order of their times, and none before its time. */
  lemma FiredInOrder(s: State, es: seq<Event>, t: State, script: Script, i: nat, j: nat)
    requires FutureScript(script) && Inv(s) && Run(s, es, t, script) && i <= j < |t.fired|
    ensures t.fired[i].interrupt.when <= t.fired[j].interrupt.when
    ensures t.fired[i].interrupt.when <= t.fired[i].at <= t.fired[j].at <= t.totalTicks
  {
    RunKeeps(s, es, t, script);
    LogInOrder(t.fired, t.totalTicks, i, j);
  }

  // ------------------------------------------------------ order among ties

  /** How many cells at the front of `q` have the key `key`. */
  function Ties(q: Queue, key: int): (n: nat)
    ensures n <= |q| && (forall i | 0 <= i < n :: q[i].key == key) && (n < |q| ==> q[n].key != key)
  {
    if q == [] || q[0].key != key then 0 else 1 + Ties(q[1..], key)
  }

  /** A check that finds nothing due moves the first interrupt behind the others of its time. */
  lemma PutBackPlace(s: State, script: Script)
    requires GoodQueue(s.pending) && s.pending != [] && s.pending[0].key > s.totalTicks
    ensures var rest := s.pending[1..];
            var n := Ties(rest, s.pending[0].key);
            Checked(s, false, script) == (s.(pending := rest[..n] + [s.pending[0]] + rest[n..]), false)
  {
    var rest, head := s.pending[1..], s.pending[0];
    TailGood(s.pending);
    InsertAt(rest, head, Ties(rest, head.key));
  }

  /** The list is as before exactly if the first interrupt is equal to every other of its time. */
  lemma PutBackKeepsIff(s: State, script: Script)
    requires GoodQueue(s.pending) && s.pending != [] && s.pending[0].key > s.totalTicks
    ensures Checked(s, false, script).0.pending == s.pending <==>
              forall i | 0 < i <= Ties(s.pending[1..], s.pending[0].key) :: s.pending[i] == s.pending[0]
  {
    PutBackPlace(s, script);
    RotatedSame(s.pending, Ties(s.pending[1..], s.pending[0].key));
  }

  /** Moving the first of a sequence behind the next `n` changes nothing exactly if they are all equal to it. */
  lemma {:induction false} RotatedSame(q: Queue, n: nat)
    requires n < |q|
    ensures q[1..][..n] + [q[0]] + q[1..][n..] == q <==> forall i | 0 < i <= n :: q[i] == q[0]
  {
    var r := q[1..][..n] + [q[0]] + q[1..][n..];
    if r == q {
      RotatedEqual(q, n, n);
    } else {
      assert exists i | 0 <= i < |q| :: r[i] != q[i];
    }
  }

  lemma {:induction false} RotatedEqual(q: Queue, n: nat, k: nat)
    requires k <= n < |q| && q[1..][..n] + [q[0]] + q[1..][n..] == q
    ensures forall i | 0 < i <= k :: q[i] == q[0]
  {
    if k > 0 {
      RotatedEqual(q, n, k - 1);
      assert (q[1..][..n] + [q[0]] + q[1..][n..])[k - 1] == q[k];
    }
  }

  /** With no interrupt pending twice, the order is kept exactly if the first has its time to itself. */
  lemma OrderKeptIff(s: State, script: Script)
    requires GoodQueue(s.pending) && s.pending != [] && s.pending[0].key > s.totalTicks
    requires forall i, j | 0 <= i < j < |s.pending| :: s.pending[i] != s.pending[j]
    ensures Checked(s, false, script).0.pending == s.pending <==>
              |s.pending| == 1 || s.pending[0].key < s.pending[1].key
  {
    var rest, head := s.pending[1..], s.pending[0];
    PutBackKeepsIff(s, script);
    TailGood(s.pending);
    if rest != [] && Ties(rest, head.key) > 0 {
      assert s.pending[1] == rest[0] && s.pending[1] != head;
    }
  }

  /** Two interrupts of one time change places. */
  lemma PutBackReorders(p: PendingInterrupt, q: PendingInterrupt, s: State, script: Script)
    requires p.when == q.when > s.totalTicks && s.pending == [CellOf(p), CellOf(q)]
    ensures Checked(s, false, script).0.pending == [CellOf(q), CellOf(p)]
  {
    assert s.pending[1..] == [CellOf(q)];
    InsertAt([CellOf(q)], CellOf(p), 1);
  }

  lemma {:induction false} RequestedFrame(s: State, rs: seq<Request>)
    ensures Requested(s, rs).fired == s.fired && Requested(s, rs).totalTicks == s.totalTicks
    decreases |rs|
  {
    if rs != [] {
      RequestedFrame(RequestedOne(s, rs[0]), rs[1..]);
    }
  }

  lemma RequestedFrom(s: State, rs: seq<Request>, i: nat)
    requires i < |rs|
    ensures Requested(s, rs[i..]) == Requested(RequestedOne(s, rs[i]), rs[i + 1..])
  {
    assert rs[i..][1..] == rs[i + 1..];
  }

  // ------------------------------------------------------------ the class

  class Interrupt {
    const script: Script
    const pending: List<PendingInterrupt>
    var level: IntStatus
    var inHandler: bool
    var yieldOnReturn: bool
    var status: MachineStatus
    // the clock, kept by the statistics object
    var totalTicks: int
    var idleTicks: int
    var systemTicks: int
    var userTicks: int
    // the interrupts that have fired, whose handlers may have business with the kernel, and those scheduled
    var fired: seq<Firing>
    ghost var scheduled: seq<PendingInterrupt>

    ghost function Value(): State
      reads this, pending
    {
      State(pending.Contents(), totalTicks, idleTicks, systemTicks, userTicks,
            level, inHandler, yieldOnReturn, status, fired, scheduled)
    }

    ghost predicate Linked()
      reads this, pending, pending.repr
    {
      pending.Valid() && FutureScript(script)
    }

    ghost predicate Valid()
      reads this, pending, pending.repr
    {
      Linked() && Inv(Value())
    }

    constructor (handlers: Script)
      requires FutureScript(handlers)
      ensures Linked() && fresh(pending) && script == handlers
      ensures Value() == PowerOn(IntOff)
    {
      script := handlers;
      pending := new List<PendingInterrupt>();
      level, inHandler, yieldOnReturn, status := IntOff, false, false, SystemMode;
      totalTicks, idleTicks, systemTicks, userTicks := 0, 0, 0, 0;
      fired, scheduled := [], [];
    }

    method Schedule(r: Request)
      requires Linked() && r.Schedule? && r.fromNow > 0
      modifies this, pending, pending.repr
      ensures Linked() && fresh(pending.repr - old(pending.repr))
      ensures Value() == Scheduled(old(Value()), r)
    {
      ghost var s := Value();
      var toOccur := PendingInterrupt(r.handler, r.arg, totalTicks + r.fromNow, r.kind);
      pending.SortedInsert(toOccur, toOccur.when);
      scheduled := scheduled + [toOccur];
      assert pending.Contents() == Insert(s.pending, CellOf(toOccur));
    }

    /** The body of an interrupt handler, as far as the interrupt hardware can tell. */
    method RunHandler(rs: seq<Request>)
      requires Linked() && inHandler && Future(rs)
      modifies this, pending, pending.repr
      ensures Linked() && fresh(pending.repr - old(pending.repr))
      ensures Value() == Requested(old(Value()), rs)
    {
      for i := 0 to |rs|
        invariant Linked() && fresh(pending.repr - old(pending.repr))
        invariant Requested(Value(), rs[i..]) == Requested(old(Value()), rs)
      {
        RequestedFrom(Value(), rs, i);
        ghost var next := RequestedOne(Value(), rs[i]);
        Perform(rs[i]);
        assert Value() == next;
      }
      assert rs[|rs|..] == [];
    }

    method Perform(r: Request)
      requires Linked() && (r.Schedule? ==> r.fromNow > 0)
      modifies this, pending, pending.repr
      ensures Linked() && fresh(pending.repr - old(pending.repr))
      ensures Value() == RequestedOne(old(Value()), r)
    {
      match r {
        case Schedule(_, _, _, _) => Schedule(r);
        case YieldOnReturn => yieldOnReturn := true;
        case Signal(_) =>
      }
    }

    /** Runs the handler of an interrupt that has been taken off the list. */
    method Invoke(toOccur: PendingInterrupt)
      requires Linked()
      modifies this, pending, pending.repr
      ensures Linked() && fresh(pending.repr - old(pending.repr))
      ensures Value() == Fired(old(Value()), toOccur, script)
    {
      var oldStatus := status;
      Enter();
      var requests := script(|fired|, toOccur);
      RequestedFrame(Value(), requests);
      RunHandler(requests);
      Leave(toOccur, oldStatus);
    }

    method Enter()
      requires Linked()
      modifies this`inHandler, this`status
      ensures Linked() && Value() == old(Value()).(inHandler := true, status := SystemMode)
    {
      inHandler := true;
      status := SystemMode;
    }

    method Leave(toOccur: PendingInterrupt, oldStatus: MachineStatus)
      requires Linked()
      modifies this
      ensures Linked()
      ensures var s := old(Value());
              Value() == s.(inHandler := false, status := oldStatus, fired := s.fired + [Firing(toOccur, s.totalTicks)])
    {
      status := oldStatus;
      inHandler := false;
      fired := fired + [Firing(toOccur, totalTicks)];
    }

    /** Takes the first interrupt off the list and moves the clock up to it if it is in the future. */
    method RemoveHead() returns (toOccur: PendingInterrupt)
      requires Linked() && Value().pending != []
      modifies this, pending
      ensures Linked() && pending.repr == old(pending.repr)
      ensures toOccur == old(Value().pending[0].item) && Value() == HeadRemoved(old(Value()))
    {
      var head := pending.SortedRemove();
      toOccur := head[0].item;
      if head[0].key > totalTicks {
        idleTicks := idleTicks + (head[0].key - totalTicks);
        totalTicks := head[0].key;
      }
    }

    method PutHeadBack()
      requires Linked() && Value().pending != [] && Value().pending[0].key == Value().pending[0].item.when
      modifies this, pending, pending.repr
      ensures Linked() && fresh(pending.repr - old(pending.repr))
      ensures var s := old(Value());
              Value() == s.(pending := Insert(s.pending[1..], CellOf(s.pending[0].item)))
    {
      var head := pending.SortedRemove();
      pending.SortedInsert(head[0].item, head[0].key);
    }

    method CheckIfDue(advanceClock: bool) returns (b: bool)
      requires Valid() && level == IntOff
      modifies this, pending, pending.repr
      ensures Linked() && fresh(pending.repr - old(pending.repr))
      ensures b == Checked(old(Value()), advanceClock, script).1
      ensures Value() == Checked(old(Value()), advanceClock, script).0
    {
      ghost var s := Value();
      if pending.IsEmpty() {
        return false;
      }
      TailGood(s.pending);
      if pending.first.key > totalTicks && !advanceClock {
        PutHeadBack();
        return false;
      }
      var alone := pending.first == pending.last;
      var toOccur := RemoveHead();
      if status == IdleMode && toOccur.kind == TimerInt && alone {
        RestoreTimer(toOccur);
        return false;
      }
      Invoke(toOccur);
      return true;
    }

    method RestoreTimer(toOccur: PendingInterrupt)
      requires Linked()
      modifies this, pending, pending.repr
      ensures Linked() && fresh(pending.repr - old(pending.repr))
      ensures var s := old(Value()); Value() == s.(pending := Insert(s.pending, CellOf(toOccur)))
    {
      ghost var s := Value();
      pending.SortedInsert(toOccur, toOccur.when);
      assert Value().pending == Insert(s.pending, CellOf(toOccur));
    }

    /** Fires everything that is due; every pass of the loop leaves less that is due. */
    method Drain()
      requires Valid() && level == IntOff
      modifies this, pending, pending.repr
      ensures Linked() && fresh(pending.repr - old(pending.repr))
      ensures Value() == Drained(old(Value()), script)
    {
      ghost var s := Value();
      var b := true;
      while b
        invariant Valid() && level == IntOff && fresh(pending.repr - old(pending.repr))
        invariant Inv(s) && Drained(s, script) == if b then Drained(Value(), script) else Value()
        decreases b, Due(pending.Contents(), totalTicks)
      {
        CheckedKeeps(Value(), false, script);
        CheckedDue(Value(), script);
        b := CheckIfDue(false);
      }
    }

    /** Lets the time of one instruction pass and turns interrupts off. */
    method AdvanceClock()
      requires Linked()
      modifies this
      ensures Linked()
      ensures Value() == Ticked(old(Value())).(level := IntOff)
    {
      if status == SystemMode {
        totalTicks := totalTicks + SYSTEM_TICK;
        systemTicks := systemTicks + SYSTEM_TICK;
      } else {
        totalTicks := totalTicks + USER_TICK;
        userTicks := userTicks + USER_TICK;
      }
      level := IntOff;
    }

    /** The interrupts are served; what they ask for is left to the caller. */
    method Resume(on: IntStatus, mode: MachineStatus) returns (yield': bool)
      requires Linked()
      modifies this
      ensures Linked() && yield' == old(yieldOnReturn)
      ensures Value() == old(Value()).(level := on, yieldOnReturn := false, status := mode)
    {
      yield' := yieldOnReturn;
      level, yieldOnReturn, status := on, false, mode;
    }

    /** Returns whether a handler asked for a context switch, which the caller then makes. */
    method OneTick() returns (yield': bool)
      requires Valid()
      modifies this, pending, pending.repr
      ensures Linked() && fresh(pending.repr - old(pending.repr))
      ensures Value() == OneTicked(old(Value()), script) && yield' == TickYields(old(Value()), script)
    {
      ghost var s := Value();
      TickedKeeps(s);
      AdvanceClock();
      SameHardware(Ticked(s), Value());
      DrainedKeeps(Value(), script);
      Drain();
      yield' := Resume(IntOn, status);
    }

    /** Returns whether the machine stops, because nothing is left to wait for. */
    method Idle() returns (stop: bool)
      requires Valid() && level == IntOff
      modifies this, pending, pending.repr
      ensures Linked() && fresh(pending.repr - old(pending.repr))
      ensures stop == Idled(old(Value()), script).1 && Value() == Idled(old(Value()), script).0
    {
      ghost var s := Value().(status := IdleMode);
      SameHardware(Value(), s);
      CheckedKeeps(s, true, script);
      var b := LookAhead();
      if b {
        WakeUp();
      }
      stop := !b;
    }

    /** An idle machine moves the clock up to the first interrupt and fires it. */
    method LookAhead() returns (b: bool)
      requires Valid() && level == IntOff
      modifies this, pending, pending.repr
      ensures Linked() && fresh(pending.repr - old(pending.repr))
      ensures (Value(), b) == Checked(old(Value()).(status := IdleMode), true, script)
    {
      ghost var s := Value();
      status := IdleMode;
      SameHardware(s, Value());
      b := CheckIfDue(true);
    }

    /** Serves the interrupts that an idle machine has waited for. */
    method WakeUp()
      requires Valid() && level == IntOff
      modifies this, pending, pending.repr
      ensures Linked() && fresh(pending.repr - old(pending.repr))
      ensures Value() == Drained(old(Value()), script).(yieldOnReturn := false, status := SystemMode)
    {
      DrainedKeeps(Value(), script);
      Drain();
      var _ := Resume(IntOff, SystemMode);
    }

    /** The old level; turning interrupts on lets time pass. */
    method SetLevel(now: IntStatus) returns (oldLevel: IntStatus, yield': bool)
      requires Valid() && (now == IntOff || !inHandler)
      modifies this, pending, pending.repr
      ensures Linked() && fresh(pending.repr - old(pending.repr))
      ensures oldLevel == old(level) && level == now
      ensures var s := old(Value()).(level := now);
              Inv(s) &&
              if now == IntOn && oldLevel == IntOff
              then Value() == OneTicked(s, script) && yield' == TickYields(s, script)
              else Value() == s && !yield'
    {
      ghost var s := Value();
      oldLevel, yield' := level, false;
      level := now;
      assert Value() == s.(level := now);
      SameHardware(s, Value());
      if now == IntOn && oldLevel == IntOff {
        yield' := OneTick();
      }
    }
  }
}
