/**
 Code that uses semaphores, on the threads that run it. A client is a state machine whose
 steps say which semaphore they take or give; alone, it may take one when its value is
 positive. Here its steps are made by threads of the thread model, in which a P is a test
 that may put the thread to sleep.
 */
module SemaphoreClients {
  import T = Threads

  /** What a step does: nothing to a semaphore, a P or a V by a thread, or a V by a handler. */
  datatype Use = Own | Takes(thread: nat, sem: nat) | Gives(thread: nat, sem: nat) | Signals(sem: nat)

  function Change(u: Use, k: nat): int
  {
    if u.Own? || u.sem != k then 0 else if u.Takes? then -1 else 1
  }

  /** `ready` says that a step may come next but for its semaphore, and `value` what the client takes the values for. */
  datatype Client<!S, !E> = Client(
    ready: (S, E) -> bool, use: (S, E) -> Use, next: (S, E) -> S, value: (S, nat) -> int)

  /** The client's own rule: a P is possible when the value is positive. */
  ghost predicate May<S, E>(c: Client<S, E>, s: S, e: E)
  {
    c.ready(s, e) && (c.use(s, e).Takes? ==> c.value(s, c.use(s, e).sem) > 0)
  }

  /** The client uses the semaphores `sems` and no others, and keeps the account of their values. */
  ghost predicate IsClient<S(!new), E(!new)>(c: Client<S, E>, sems: set<nat>)
  {
    && (forall s, e | c.ready(s, e) && !c.use(s, e).Own? :: c.use(s, e).sem in sems)
    && (forall s, e, k | k in sems && May(c, s, e) ::
          c.value(c.next(s, e), k) == c.value(s, k) + Change(c.use(s, e), k))
  }

  ghost predicate ClientRun<S, E>(c: Client<S, E>, s: S, es: seq<E>, t: S)
    decreases |es|
  {
    if es == [] then t == s else May(c, s, es[0]) && ClientRun(c, c.next(s, es[0]), es[1..], t)
  }

  // --------------------------------------------------------- threads that run it

  datatype Joint<S> = Joint(ker: T.State, con: S)

  /** A kernel event that makes a step of the client, another kernel event, or a step without the kernel. */
  datatype Act<E> = Both(event: T.Event, step: E) | Other(event: T.Event) | Inside(step: E)

  /** The kernel event is the P or the V of the step, by the thread that makes it. */
  ghost predicate Performs(s: T.State, e: T.Event, u: Use)
    requires T.Inv(s) && T.Enabled(s, e)
  {
    match u
    case Own => false
    case Takes(t, k) => s.current == t && T.EndsP(s, e, k)
    case Gives(t, k) => s.current == t && e == T.Up(k)
    case Signals(k) => e == T.Interrupt(k)
  }

  /** The kernel event is no P and no V of the client's semaphores. */
  ghost predicate Foreign(s: T.State, e: T.Event, sems: set<nat>)
    requires T.Inv(s) && T.Enabled(s, e)
  {
    forall k | k in sems :: !T.IsV(e, k) && !T.EndsP(s, e, k)
  }

  /** The act is possible; nothing is said of the values that the client counts. */
  ghost predicate Can<S, E>(c: Client<S, E>, sems: set<nat>, j: Joint<S>, a: Act<E>)
    requires T.Inv(j.ker)
  {
    match a
    case Both(e, step) => T.Enabled(j.ker, e) && c.ready(j.con, step) && Performs(j.ker, e, c.use(j.con, step))
    case Other(e) => T.Enabled(j.ker, e) && Foreign(j.ker, e, sems)
    case Inside(step) => c.ready(j.con, step) && c.use(j.con, step).Own?
  }

  ghost function After<S, E>(c: Client<S, E>, sems: set<nat>, j: Joint<S>, a: Act<E>): Joint<S>
    requires T.Inv(j.ker) && Can(c, sems, j, a)
  {
    match a
    case Both(e, step) => Joint(T.Next(j.ker, e), c.next(j.con, step))
    case Other(e) => Joint(T.Next(j.ker, e), j.con)
    case Inside(step) => Joint(j.ker, c.next(j.con, step))
  }

  /** The client's account is right. */
  ghost predicate Agree<S, E>(c: Client<S, E>, sems: set<nat>, j: Joint<S>)
  {
    && T.Inv(j.ker)
    && forall k | k in sems :: k < |j.ker.sems| && j.ker.sems[k].value == c.value(j.con, k)
  }

  // ------------------------------------------------------------- P's and V's

  /** A thread at the test of P goes on exactly if the value is positive. */
  lemma EndsPIff(s: T.State, e: T.Event, k: nat)
    requires T.Inv(s) && T.Enabled(s, e) && k < |s.sems|
    requires e == T.Down(k) || (e == T.Recheck && s.threads[s.current].place.sem == k)
    ensures T.EndsP(s, e, k) <==> s.sems[k].value > 0
  {
    assert T.SemInv(s.threads, s.sems[k], k);
  }

  lemma EndsPTakes(s: T.State, e: T.Event, k: nat)
    requires T.Inv(s) && T.Enabled(s, e) && k < |s.sems| && T.EndsP(s, e, k)
    ensures s.sems[k].value > 0
  {
    EndsPIff(s, e, k);
  }

  /** An event that is the P or V of a step changes the values as the step says, and one that is foreign does not. */
  lemma PerformsChange(s: T.State, e: T.Event, u: Use, k: nat)
    requires T.Inv(s) && T.Enabled(s, e) && k < |s.sems| && Performs(s, e, u)
    ensures k < |T.Next(s, e).sems| && T.Next(s, e).sems[k].value == s.sems[k].value + Change(u, k)
  {
    T.NextBalance(s, e, k);
  }

  lemma ForeignChange(s: T.State, e: T.Event, sems: set<nat>, k: nat)
    requires T.Inv(s) && T.Enabled(s, e) && k < |s.sems| && k in sems && Foreign(s, e, sems)
    ensures k < |T.Next(s, e).sems| && T.Next(s, e).sems[k].value == s.sems[k].value
  {
    T.NextBalance(s, e, k);
  }

  /** A step that threads make is one that the client's own rule allows. */
  lemma BothMay<S(!new), E(!new)>(c: Client<S, E>, sems: set<nat>, j: Joint<S>, e: T.Event, step: E)
    requires IsClient(c, sems) && Agree(c, sems, j) && Can(c, sems, j, Both(e, step))
    ensures May(c, j.con, step)
  {
    var u := c.use(j.con, step);
    if u.Takes? {
      assert u.sem in sems;
      EndsPTakes(j.ker, e, u.sem);
    }
  }

  lemma BothAgrees<S(!new), E(!new)>(c: Client<S, E>, sems: set<nat>, j: Joint<S>, e: T.Event, step: E)
    requires IsClient(c, sems) && Agree(c, sems, j) && Can(c, sems, j, Both(e, step))
    ensures Agree(c, sems, After(c, sems, j, Both(e, step)))
  {
    BothMay(c, sems, j, e, step);
    T.NextKeeps(j.ker, e);
    forall k | k in sems
      ensures k < |T.Next(j.ker, e).sems| && T.Next(j.ker, e).sems[k].value == c.value(c.next(j.con, step), k)
    {
      PerformsChange(j.ker, e, c.use(j.con, step), k);
    }
  }

  lemma OtherAgrees<S, E>(c: Client<S, E>, sems: set<nat>, j: Joint<S>, e: T.Event)
    requires Agree(c, sems, j) && Can(c, sems, j, Other(e))
    ensures Agree(c, sems, After(c, sems, j, Other(e)))
  {
    T.NextKeeps(j.ker, e);
    forall k | k in sems
      ensures k < |T.Next(j.ker, e).sems| && T.Next(j.ker, e).sems[k].value == c.value(j.con, k)
    {
      ForeignChange(j.ker, e, sems, k);
    }
  }

  lemma AfterAgrees<S(!new), E(!new)>(c: Client<S, E>, sems: set<nat>, j: Joint<S>, a: Act<E>)
    requires IsClient(c, sems) && Agree(c, sems, j) && Can(c, sems, j, a)
    ensures Agree(c, sems, After(c, sems, j, a)) && (!a.Other? ==> May(c, j.con, a.step))
  {
    match a
    case Both(e, step) =>
      BothMay(c, sems, j, e, step);
      BothAgrees(c, sems, j, e, step);
    case Other(e) =>
      OtherAgrees(c, sems, j, e);
    case Inside(step) =>
      assert May(c, j.con, step);
  }

  // ------------------------------------------------------------- whole runs

  ghost predicate Run<S(!new), E(!new)>(c: Client<S, E>, sems: set<nat>, j: Joint<S>, acts: seq<Act<E>>, t: Joint<S>)
    requires IsClient(c, sems) && Agree(c, sems, j)
    decreases |acts|
  {
    if acts == [] then t == j
    else
      && Can(c, sems, j, acts[0])
      && (AfterAgrees(c, sems, j, acts[0]); Run(c, sems, After(c, sems, j, acts[0]), acts[1..], t))
  }

  /** The steps of the client, and the events of the kernel. */
  function StepsOf<E>(acts: seq<Act<E>>): seq<E>
  {
    if acts == [] then []
    else (if acts[0].Other? then [] else [acts[0].step]) + StepsOf(acts[1..])
  }

  function EventsOf<E>(acts: seq<Act<E>>): seq<T.Event>
  {
    if acts == [] then []
    else (if acts[0].Inside? then [] else [acts[0].event]) + EventsOf(acts[1..])
  }

  /** A run of threads that run the client is a run of the client by its own rule. */
  lemma {:induction false} RunOfClient<S(!new), E(!new)>(
    c: Client<S, E>, sems: set<nat>, j: Joint<S>, acts: seq<Act<E>>, t: Joint<S>)
    requires IsClient(c, sems) && Agree(c, sems, j) && Run(c, sems, j, acts, t)
    ensures ClientRun(c, j.con, StepsOf(acts), t.con) && Agree(c, sems, t)
    decreases |acts|
  {
    if acts != [] {
      AfterAgrees(c, sems, j, acts[0]);
      RunOfClient(c, sems, After(c, sems, j, acts[0]), acts[1..], t);
      if !acts[0].Other? {
        assert StepsOf(acts)[1..] == StepsOf(acts[1..]);
      } else {
        assert StepsOf(acts) == StepsOf(acts[1..]);
      }
    }
  }

  /** It is a run of the threads too. */
  lemma {:induction false} RunOfThreads<S(!new), E(!new)>(
    c: Client<S, E>, sems: set<nat>, j: Joint<S>, acts: seq<Act<E>>, t: Joint<S>)
    requires IsClient(c, sems) && Agree(c, sems, j) && Run(c, sems, j, acts, t)
    ensures T.Run(j.ker, EventsOf(acts), t.ker)
    decreases |acts|
  {
    if acts != [] {
      AfterAgrees(c, sems, j, acts[0]);
      RunOfThreads(c, sems, After(c, sems, j, acts[0]), acts[1..], t);
      if !acts[0].Inside? {
        assert EventsOf(acts)[1..] == EventsOf(acts[1..]);
      } else {
        assert EventsOf(acts) == EventsOf(acts[1..]);
      }
    }
  }
}

/** The two halves of the synchronous console are such clients. */
module ConsoleClients {
  import opened Words
  import opened SemaphoreClients
  import T = Threads
  import W = ConsoleWrites
  import R = ConsoleReads

  // ------------------------------------------------------------------ writing

  function WriteUse(line: nat, avail: nat, s: W.State, e: W.Event): Use
  {
    match e
    case Enter(_, _) => Own
    case Lock(t) => Takes(t, line)
    case Loop(t) =>
      if t < |s.places| && s.places[t].AtTest? && s.places[t].i >= |s.places[t].data| then Gives(t, line) else Own
    case Resume(t) => Takes(t, avail)
    case WriteDone => Signals(avail)
  }

  /** `SynchConsole::Write` with the semaphores `line` and `avail`. */
  function Writer(line: nat, avail: nat): Client<W.State, W.Event>
  {
    Client((s: W.State, e: W.Event) => W.Enabled(s.(lineBlock := 1, writeAvail := 1), e),
           (s: W.State, e: W.Event) => WriteUse(line, avail, s, e),
           (s: W.State, e: W.Event) => if W.Enabled(s, e) then W.Next(s, e) else s,
           (s: W.State, k: nat) => if k == line then s.lineBlock else s.writeAvail)
  }

  lemma WriterMay(line: nat, avail: nat, s: W.State, e: W.Event)
    requires line != avail
    ensures May(Writer(line, avail), s, e) <==> W.Enabled(s, e)
  {
  }

  lemma WriterIsClient(line: nat, avail: nat)
    requires line != avail
    ensures IsClient(Writer(line, avail), {line, avail})
  {
    var c := Writer(line, avail);
    forall s, e, k | k in {line, avail} && May(c, s, e)
      ensures c.value(c.next(s, e), k) == c.value(s, k) + Change(c.use(s, e), k)
    {
      WriterMay(line, avail, s, e);
    }
  }

  lemma {:induction false} WriterRuns(line: nat, avail: nat, s: W.State, es: seq<W.Event>, t: W.State)
    requires line != avail && ClientRun(Writer(line, avail), s, es, t)
    ensures W.Run(s, es, t)
    decreases |es|
  {
    if es != [] {
      WriterMay(line, avail, s, es[0]);
      WriterRuns(line, avail, W.Next(s, es[0]), es[1..], t);
    }
  }

  lemma WriterRunsFromStart(line: nat, avail: nat, ker: T.State, threads: nat, acts: seq<Act<W.Event>>,
                            t: Joint<W.State>)
    requires line != avail && line < |ker.sems| && avail < |ker.sems| && T.Inv(ker)
    requires ker.sems[line].value == 1 && ker.sems[avail].value == 0
    requires (WriterIsClient(line, avail);
              Run(Writer(line, avail), {line, avail}, Joint(ker, W.Start(threads)), acts, t))
    ensures W.Run(W.Start(threads), StepsOf(acts), t.con)
  {
    WriterIsClient(line, avail);
    RunOfClient(Writer(line, avail), {line, avail}, Joint(ker, W.Start(threads)), acts, t);
    WriterRuns(line, avail, W.Start(threads), StepsOf(acts), t.con);
  }

  /**
   Over every run of threads that write, on semaphores made with the values 1 and 0: the
   output is the bytes of the finished writes, each together and in order, and the first
   bytes of at most one other.
   */
  lemma WritesOnThreads(line: nat, avail: nat, ker: T.State, threads: nat, acts: seq<Act<W.Event>>, t: Joint<W.State>)
    returns (rest: seq<byte>)
    requires line != avail && line < |ker.sems| && avail < |ker.sems| && T.Inv(ker)
    requires ker.sems[line].value == 1 && ker.sems[avail].value == 0
    requires (WriterIsClient(line, avail);
              Run(Writer(line, avail), {line, avail}, Joint(ker, W.Start(threads)), acts, t))
    ensures t.con.out == W.Concat(t.con.done) + rest
    ensures forall k | 0 <= k < |t.con.done| ::
              W.IsAt(t.con.done[k].data, |W.Concat(t.con.done[..k])|, t.con.out)
    ensures rest == [] || exists u | 0 <= u < |t.con.places| ::
              W.Holds(t.con.places[u]) && rest <= t.con.places[u].data
  {
    WriterRunsFromStart(line, avail, ker, threads, acts, t);
    rest := W.WritesAreContiguous(threads, StepsOf(acts), t.con);
  }

  /** And the writes of each thread are those that it has called for, in order. */
  lemma WritesAsCalled(line: nat, avail: nat, ker: T.State, threads: nat, acts: seq<Act<W.Event>>,
                      t: Joint<W.State>, u: nat)
    requires line != avail && line < |ker.sems| && avail < |ker.sems| && T.Inv(ker) && u < threads
    requires ker.sems[line].value == 1 && ker.sems[avail].value == 0
    requires (WriterIsClient(line, avail);
              Run(Writer(line, avail), {line, avail}, Joint(ker, W.Start(threads)), acts, t))
    ensures |t.con.places| == threads
    ensures W.Entered(StepsOf(acts), u) == W.DoneBy(t.con.done, u) + W.Under(t.con.places[u])
  {
    WriterRunsFromStart(line, avail, ker, threads, acts, t);
    W.CallsFromStart(threads, StepsOf(acts), t.con, u);
  }

  // ------------------------------------------------------------------ reading

  function ReadUse(line: nat, avail: nat, s: R.State, e: R.Event): Use
  {
    match e
    case Enter(_, _, _) => Own
    case Lock(t) => Takes(t, line)
    case Loop(t) =>
      if t < |s.places| && s.places[t].AtTest? && (|s.places[t].got| >= s.places[t].n || s.places[t].eoln)
      then Gives(t, line) else Own
    case Take(t) => Takes(t, avail)
    case Get(_) => Own
    case Poll(_) => if s.incoming == R.EOF then Signals(avail) else Own
  }

  /** `SynchConsole::Read` with the semaphores `line` and `avail`. */
  function Reader(line: nat, avail: nat): Client<R.State, R.Event>
  {
    Client((s: R.State, e: R.Event) => R.Enabled(s.(lineBlock := 1, readAvail := 1), e),
           (s: R.State, e: R.Event) => ReadUse(line, avail, s, e),
           (s: R.State, e: R.Event) => if R.Enabled(s, e) then R.Next(s, e) else s,
           (s: R.State, k: nat) => if k == line then s.lineBlock else s.readAvail)
  }

  lemma ReaderMay(line: nat, avail: nat, s: R.State, e: R.Event)
    requires line != avail
    ensures May(Reader(line, avail), s, e) <==> R.Enabled(s, e)
  {
  }

  lemma ReaderIsClient(line: nat, avail: nat)
    requires line != avail
    ensures IsClient(Reader(line, avail), {line, avail})
  {
    var c := Reader(line, avail);
    forall s, e, k | k in {line, avail} && May(c, s, e)
      ensures c.value(c.next(s, e), k) == c.value(s, k) + Change(c.use(s, e), k)
    {
      ReaderMay(line, avail, s, e);
    }
  }

  lemma {:induction false} ReaderRuns(line: nat, avail: nat, s: R.State, es: seq<R.Event>, t: R.State)
    requires line != avail && ClientRun(Reader(line, avail), s, es, t)
    ensures R.Run(s, es, t)
    decreases |es|
  {
    if es != [] {
      ReaderMay(line, avail, s, es[0]);
      ReaderRuns(line, avail, R.Next(s, es[0]), es[1..], t);
    }
  }

  lemma ReaderRunsFromStart(line: nat, avail: nat, ker: T.State, threads: nat, acts: seq<Act<R.Event>>,
                            t: Joint<R.State>)
    requires line != avail && line < |ker.sems| && avail < |ker.sems| && T.Inv(ker)
    requires ker.sems[line].value == 1 && ker.sems[avail].value == 0
    requires (ReaderIsClient(line, avail);
              Run(Reader(line, avail), {line, avail}, Joint(ker, R.Start(threads)), acts, t))
    ensures R.Run(R.Start(threads), StepsOf(acts), t.con)
  {
    ReaderIsClient(line, avail);
    RunOfClient(Reader(line, avail), {line, avail}, Joint(ker, R.Start(threads)), acts, t);
    ReaderRuns(line, avail, R.Start(threads), StepsOf(acts), t.con);
  }

  /** Over every run of threads that read, nothing typed is lost, duplicated or reordered, and each call took a line. */
  lemma ReadsOnThreads(line: nat, avail: nat, ker: T.State, threads: nat, acts: seq<Act<R.Event>>, t: Joint<R.State>)
    returns (holder: R.Place)
    requires line != avail && line < |ker.sems| && avail < |ker.sems| && T.Inv(ker)
    requires ker.sems[line].value == 1 && ker.sems[avail].value == 0
    requires (ReaderIsClient(line, avail);
              Run(Reader(line, avail), {line, avail}, Joint(ker, R.Start(threads)), acts, t))
    ensures holder in t.con.places || holder == R.Away
    ensures R.NonEof(R.Typed(R.Start(threads), StepsOf(acts)))
         == R.Concat(t.con.done) + R.Taken(holder) + R.Buffered(t.con.incoming)
    ensures forall c | c in t.con.done :: R.OneLine(c)
  {
    ReaderRunsFromStart(line, avail, ker, threads, acts, t);
    holder := R.ReadsAreInOrder(threads, StepsOf(acts), t.con);
  }

  /** And the reads of each thread are those that it has called for, in order. */
  lemma ReadsAsCalled(line: nat, avail: nat, ker: T.State, threads: nat, acts: seq<Act<R.Event>>,
                      t: Joint<R.State>, u: nat)
    requires line != avail && line < |ker.sems| && avail < |ker.sems| && T.Inv(ker) && u < threads
    requires ker.sems[line].value == 1 && ker.sems[avail].value == 0
    requires (ReaderIsClient(line, avail);
              Run(Reader(line, avail), {line, avail}, Joint(ker, R.Start(threads)), acts, t))
    ensures |t.con.places| == threads
    ensures R.Entered(StepsOf(acts), u) == R.DoneBy(t.con.done, u) + R.Under(t.con.places[u])
  {
    ReaderRunsFromStart(line, avail, ker, threads, acts, t);
    R.CallsFromStart(threads, StepsOf(acts), t.con, u);
  }
}
