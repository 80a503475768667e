/**
 The synchronous console (threads/synchcons) over the one-character device
 (machine/console). Any number of threads call Write, and every interleaving of their
 steps with the device's interrupt is a run of the state machine. P is a step that is
 possible when the value is positive.
 */
module ConsoleWrites {
  import opened Words

  /**
   Where a thread is: outside, waiting for the line, at the test of the loop, or waiting
   for the character it has put to be written.
   */
  datatype Place =
    | Away
    | AtLock(data: seq<byte>)
    | AtTest(data: seq<byte>, i: nat)
    | AtDone(data: seq<byte>, i: nat)

  /** A call of Write that has returned. */
  datatype Call = Call(thread: nat, data: seq<byte>)

  /**
   `scheduled` counts the write-done interrupts to come, `out` is what the device was
   given, and `done` the calls that have returned, in the order in which they did.
   */
  datatype State = State(
    places: seq<Place>, lineBlock: int, writeAvail: int,
    putBusy: bool, scheduled: nat, out: seq<byte>, done: seq<Call>)

  datatype Event = Enter(t: nat, data: seq<byte>) | Lock(t: nat) | Loop(t: nat) | Resume(t: nat) | WriteDone

  predicate Enabled(s: State, e: Event)
  {
    match e
    case Enter(t, _) => t < |s.places| && s.places[t].Away?
    case Lock(t) => t < |s.places| && s.places[t].AtLock? && s.lineBlock > 0
    case Loop(t) => t < |s.places| && s.places[t].AtTest?
    case Resume(t) => t < |s.places| && s.places[t].AtDone? && s.writeAvail > 0
    case WriteDone => s.scheduled > 0
  }

  function Move(s: State, t: nat, place: Place): State
    requires t < |s.places|
  {
    s.(places := s.places[t := place])
  }

  /** `Console::PutChar` */
  function PutChar(s: State, ch: byte): State
  {
    s.(out := s.out + [ch], putBusy := true, scheduled := s.scheduled + 1)
  }

  function Next(s: State, e: Event): State
    requires Enabled(s, e)
  {
    match e
    case Enter(t, data) => Move(s, t, AtLock(data))
    case Lock(t) => Move(s, t, AtTest(s.places[t].data, 0)).(lineBlock := s.lineBlock - 1)
    case Loop(t) =>
      var data, i := s.places[t].data, s.places[t].i;
      if i < |data| then PutChar(Move(s, t, AtDone(data, i)), data[i])
      else Move(s, t, Away).(lineBlock := s.lineBlock + 1, done := s.done + [Call(t, data)])
    case Resume(t) => Move(s, t, AtTest(s.places[t].data, s.places[t].i + 1)).(writeAvail := s.writeAvail - 1)
    case WriteDone => s.(putBusy := false, scheduled := s.scheduled - 1, writeAvail := s.writeAvail + 1)
  }

  // ------------------------------------------------------------ invariant

  /** The bytes of the calls, one call after another. */
  function Concat(calls: seq<Call>): seq<byte>
  {
    if calls == [] then [] else Concat(calls[..|calls| - 1]) + calls[|calls| - 1].data
  }

  predicate Holds(place: Place)
  {
    place.AtTest? || place.AtDone?
  }

  /** How far the thread that holds the line has got. */
  ghost predicate Progress(s: State, place: Place)
  {
    match place
    case AtTest(data, i) =>
      i <= |data| && !s.putBusy && s.writeAvail == 0 && s.scheduled == 0 && s.out == Concat(s.done) + data[..i]
    case AtDone(data, i) =>
      && i < |data| && 0 <= s.writeAvail == 1 - s.scheduled && (s.putBusy <==> s.scheduled == 1)
      && s.out == Concat(s.done) + data[..i + 1]
    case _ => true
  }

  ghost predicate Inv(s: State)
  {
    && 0 <= s.lineBlock <= 1
    && (s.lineBlock == 1 ==> !s.putBusy && s.writeAvail == 0 && s.scheduled == 0 && s.out == Concat(s.done))
    && (s.lineBlock == 0 <==> exists t | 0 <= t < |s.places| :: Holds(s.places[t]))
    && (forall t, u | 0 <= t < |s.places| && 0 <= u < |s.places| && Holds(s.places[t]) && Holds(s.places[u]) :: t == u)
    && (forall t | 0 <= t < |s.places| :: Progress(s, s.places[t]))
  }

  lemma NextKeeps(s: State, e: Event)
    requires Inv(s) && Enabled(s, e)
    ensures Inv(Next(s, e))
  {
    match e
    case Enter(t, data) =>
      if s.lineBlock == 0 {
        var u :| 0 <= u < |s.places| && Holds(s.places[u]);
        assert Holds(Next(s, e).places[u]);
      }
    case Lock(t) =>
      assert Holds(Next(s, e).places[t]);
    case Loop(t) =>
      LoopKeeps(s, t);
    case Resume(t) =>
      assert Holds(s.places[t]) && Holds(Next(s, e).places[t]);
    case WriteDone =>
      DoneKeeps(s);
  }

  lemma DoneKeeps(s: State)
    requires Inv(s) && Enabled(s, WriteDone)
    ensures Inv(Next(s, WriteDone))
  {
    forall t | 0 <= t < |s.places|
      ensures Progress(Next(s, WriteDone), s.places[t])
    {
      assert Progress(s, s.places[t]);
    }
  }

  lemma LoopKeeps(s: State, t: nat)
    requires Inv(s) && Enabled(s, Loop(t))
    ensures Inv(Next(s, Loop(t)))
  {
    var u := Next(s, Loop(t));
    var data, i := s.places[t].data, s.places[t].i;
    assert Holds(s.places[t]) && Progress(s, s.places[t]);
    if i < |data| {
      assert Holds(u.places[t]);
      assert data[..i] + [data[i]] == data[..i + 1];
    } else {
      assert u.done[..|s.done|] == s.done;
      assert data[..i] == data;
    }
  }

  // ------------------------------------------------------------ whole runs

  /** The events, each possible when it happens, lead from `s` to `t`. */
  ghost predicate Run(s: State, es: seq<Event>, t: State)
    decreases |es|
  {
    if es == [] then t == s else Enabled(s, es[0]) && Run(Next(s, es[0]), es[1..], t)
  }

  lemma {:induction false} RunKeeps(s: State, es: seq<Event>, t: State)
    requires Inv(s) && Run(s, es, t)
    ensures Inv(t)
    decreases |es|
  {
    if es != [] {
      NextKeeps(s, es[0]);
      RunKeeps(Next(s, es[0]), es[1..], t);
    }
  }

  function Start(threads: nat): State
  {
    State(seq(threads, _ => Away), 1, 0, false, 0, [], [])
  }

  /** The busy assertion of PutChar holds whenever the loop puts a character. */
  lemma NeverBusy(threads: nat, es: seq<Event>, s: State, t: nat)
    requires Run(Start(threads), es, s) && Enabled(s, Loop(t)) && s.places[t].i < |s.places[t].data|
    ensures !s.putBusy
  {
    RunKeeps(Start(threads), es, s);
    assert Progress(s, s.places[t]);
  }

  /** `data` stands in `out` at position `p`. */
  ghost predicate IsAt(data: seq<byte>, p: nat, out: seq<byte>)
  {
    p + |data| <= |out| && out[p..p + |data|] == data
  }

  lemma {:induction false} ConcatAt(calls: seq<Call>, k: nat)
    requires k < |calls|
    ensures IsAt(calls[k].data, |Concat(calls[..k])|, Concat(calls))
  {
    var n := |calls| - 1;
    var front := calls[..n];
    if k < n {
      ConcatAt(front, k);
      assert front[..k] == calls[..k];
    } else {
      assert front == calls[..k];
    }
  }

  /**
   What the device was given is the bytes of the calls that returned, each call's
   together and in order, and the first bytes of at most one call in progress.
   */
  lemma WritesAreContiguous(threads: nat, es: seq<Event>, s: State) returns (rest: seq<byte>)
    requires Run(Start(threads), es, s)
    ensures s.out == Concat(s.done) + rest
    ensures forall k | 0 <= k < |s.done| :: IsAt(s.done[k].data, |Concat(s.done[..k])|, s.out)
    ensures rest == [] || exists t | 0 <= t < |s.places| :: Holds(s.places[t]) && rest <= s.places[t].data
  {
    RunKeeps(Start(threads), es, s);
    rest := InProgress(s);
    DoneContiguous(s, rest);
  }

  /** What a call in progress has written. */
  lemma InProgress(s: State) returns (rest: seq<byte>)
    requires Inv(s)
    ensures s.out == Concat(s.done) + rest
    ensures rest == [] || exists t | 0 <= t < |s.places| :: Holds(s.places[t]) && rest <= s.places[t].data
  {
    rest := [];
    if s.lineBlock == 0 {
      var t :| 0 <= t < |s.places| && Holds(s.places[t]);
      assert Progress(s, s.places[t]);
      rest := s.places[t].data[..if s.places[t].AtTest? then s.places[t].i else s.places[t].i + 1];
    }
  }

  lemma DoneContiguous(s: State, rest: seq<byte>)
    requires s.out == Concat(s.done) + rest
    ensures forall k | 0 <= k < |s.done| :: IsAt(s.done[k].data, |Concat(s.done[..k])|, s.out)
  {
    forall k | 0 <= k < |s.done|
      ensures IsAt(s.done[k].data, |Concat(s.done[..k])|, s.out)
    {
      ConcatAt(s.done, k);
    }
  }

  // ------------------------------------------------------------ calls and returns

  /** The data that the thread `t` has called Write with, in order. */
  function Entered(es: seq<Event>, t: nat): seq<seq<byte>>
  {
    if es == [] then []
    else (if es[0].Enter? && es[0].t == t then [es[0].data] else []) + Entered(es[1..], t)
  }

  /** Those of its calls that have returned, and of the one it is in. */
  function DoneBy(calls: seq<Call>, t: nat): seq<seq<byte>>
  {
    if calls == [] then []
    else
      var c := calls[|calls| - 1];
      DoneBy(calls[..|calls| - 1], t) + if c.thread == t then [c.data] else []
  }

  function Under(place: Place): seq<seq<byte>>
  {
    if place.Away? then [] else [place.data]
  }

  /** Calls that have returned and the call a thread is in. */
  function CallsOf(s: State, t: nat): seq<seq<byte>>
    requires t < |s.places|
  {
    DoneBy(s.done, t) + Under(s.places[t])
  }

  lemma DoneMore(calls: seq<Call>, c: Call, t: nat)
    ensures DoneBy(calls + [c], t) == DoneBy(calls, t) + if c.thread == t then [c.data] else []
  {
    assert (calls + [c])[..|calls|] == calls;
  }

  /** The thread comes in, goes out with a call that is then done, or stays in the call it is in. */
  lemma NextUnder(s: State, e: Event, t: nat)
    requires Enabled(s, e) && t < |s.places|
    ensures var u := Next(s, e);
            && |u.places| == |s.places|
            && if e.Enter? && e.t == t
               then u.done == s.done && Under(s.places[t]) == [] && Under(u.places[t]) == [e.data]
               else if u.done == s.done then Under(u.places[t]) == Under(s.places[t])
               else
                 && |u.done| == |s.done| + 1 && u.done == s.done + [u.done[|s.done|]]
                 && Under(s.places[t]) == (if u.done[|s.done|].thread == t then [u.done[|s.done|].data] else [])
                                          + Under(u.places[t])
  {
    match e
    case Loop(x) =>
    case _ =>
  }

  lemma NextCalls(s: State, e: Event, t: nat)
    requires Enabled(s, e) && t < |s.places|
    ensures |Next(s, e).places| == |s.places|
    ensures CallsOf(Next(s, e), t) == CallsOf(s, t) + if e.Enter? && e.t == t then [e.data] else []
  {
    NextUnder(s, e, t);
    var u := Next(s, e);
    if u.done != s.done {
      DoneMore(s.done, u.done[|s.done|], t);
    }
  }

  /** Over every run the calls of a thread return one after another, each with its data. */
  lemma {:induction false} CallsReturn(s: State, es: seq<Event>, u: State, t: nat)
    requires Run(s, es, u) && t < |s.places|
    ensures |u.places| == |s.places| && CallsOf(u, t) == CallsOf(s, t) + Entered(es, t)
    decreases |es|
  {
    if es == [] {
      assert CallsOf(s, t) + [] == CallsOf(s, t);
    } else {
      NextCalls(s, es[0], t);
      CallsReturn(Next(s, es[0]), es[1..], u, t);
      OneMore(CallsOf(s, t), if es[0].Enter? && es[0].t == t then [es[0].data] else [], Entered(es[1..], t));
    }
  }

  lemma OneMore(a: seq<seq<byte>>, b: seq<seq<byte>>, c: seq<seq<byte>>)
    ensures a + b + c == a + (b + c)
  {
  }

  lemma CallsFromStart(threads: nat, es: seq<Event>, s: State, t: nat)
    requires Run(Start(threads), es, s) && t < threads
    ensures |s.places| == threads && Entered(es, t) == DoneBy(s.done, t) + Under(s.places[t])
  {
    CallsReturn(Start(threads), es, s, t);
    assert CallsOf(Start(threads), t) == [];
    assert [] + Entered(es, t) == Entered(es, t);
  }
}

/** The reading half: any number of threads call Read while the device polls the keyboard. */
module ConsoleReads {
  import opened Words

  /** What `incoming` holds when it holds nothing: EOF as a character. */
  const EOF: byte := 255
  const NEWLINE: byte := 10
  const CONTROL_A: byte := 1

  predicate EndsLine(ch: byte)
  {
    ch == NEWLINE || ch == CONTROL_A
  }

  /**
   Where a thread is: outside, waiting for the line, at the test of the outer loop,
   waiting for a character, or about to get it. `got` is what is in the caller's buffer
   and `ch` the local variable, which starts with whatever was on the stack.
   */
  datatype Place =
    | Away
    | AtLock(n: int, ch: byte)
    | AtTest(n: int, got: seq<byte>, ch: byte, eoln: bool)
    | AtAvail(n: int, got: seq<byte>)
    | AtGet(n: int, got: seq<byte>)

  /** A call of Read that has returned: `taken` are the characters it took from the device. */
  datatype Call = Call(thread: nat, n: int, got: seq<byte>, taken: seq<byte>, result: int)

  /** `typed` is what the device has read from the keyboard. */
  datatype State = State(
    places: seq<Place>, lineBlock: int, readAvail: int, incoming: byte, typed: seq<byte>, done: seq<Call>)

  datatype Event =
    | Enter(t: nat, n: int, ch: byte)
    | Lock(t: nat)
    | Loop(t: nat)
    | Take(t: nat)
    | Get(t: nat)
    | Poll(typed: byte)

  predicate Enabled(s: State, e: Event)
  {
    match e
    case Enter(t, _, _) => t < |s.places| && s.places[t].Away?
    case Lock(t) => t < |s.places| && s.places[t].AtLock? && s.lineBlock > 0
    case Loop(t) => t < |s.places| && s.places[t].AtTest?
    case Take(t) => t < |s.places| && s.places[t].AtAvail? && s.readAvail > 0
    case Get(t) => t < |s.places| && s.places[t].AtGet?
    case Poll(_) => true
  }

  function Move(s: State, t: nat, place: Place): State
    requires t < |s.places|
  {
    s.(places := s.places[t := place])
  }

  /** The characters a thread has taken so far in its call. */
  function Taken(place: Place): seq<byte>
  {
    match place
    case AtTest(_, got, ch, eoln) => if eoln then got + [ch] else got
    case AtAvail(_, got) => got
    case AtGet(_, got) => got
    case _ => []
  }

  /** The loops of `SynchConsole::Read` with the character that `Console::GetChar` returned. */
  function Received(place: Place, ch: byte): Place
    requires place.AtGet?
  {
    if ch == EOF then AtAvail(place.n, place.got)
    else if EndsLine(ch) then AtTest(place.n, place.got, ch, true)
    else AtTest(place.n, place.got + [ch], ch, false)
  }

  /** `Console::CheckCharAvail` when the keyboard has a character: it stays there while one is buffered. */
  function Polled(s: State, ch: byte): State
  {
    if s.incoming != EOF then s
    else s.(incoming := ch, typed := s.typed + [ch], readAvail := s.readAvail + 1)
  }

  function Returned(t: nat, place: Place): Call
    requires place.AtTest?
  {
    Call(t, place.n, place.got, Taken(place), if place.ch == CONTROL_A then -1 else |place.got|)
  }

  function Next(s: State, e: Event): State
    requires Enabled(s, e)
  {
    match e
    case Enter(t, n, ch) => Move(s, t, AtLock(n, ch))
    case Lock(t) => Move(s, t, AtTest(s.places[t].n, [], s.places[t].ch, false)).(lineBlock := s.lineBlock - 1)
    case Loop(t) =>
      var place := s.places[t];
      if |place.got| < place.n && !place.eoln then Move(s, t, AtAvail(place.n, place.got))
      else Move(s, t, Away).(lineBlock := s.lineBlock + 1, done := s.done + [Returned(t, place)])
    case Take(t) => Move(s, t, AtGet(s.places[t].n, s.places[t].got)).(readAvail := s.readAvail - 1)
    case Get(t) => Move(s, t, Received(s.places[t], s.incoming)).(incoming := EOF)
    case Poll(ch) => Polled(s, ch)
  }

  // ------------------------------------------------------------ invariant

  /** A stream without the characters that cannot be told from an empty buffer. */
  function NonEof(stream: seq<byte>): seq<byte>
  {
    if stream == [] then []
    else
      var n := |stream| - 1;
      NonEof(stream[..n]) + if stream[n] == EOF then [] else [stream[n]]
  }

  function Buffered(incoming: byte): seq<byte>
  {
    if incoming == EOF then [] else [incoming]
  }

  function Concat(calls: seq<Call>): seq<byte>
  {
    if calls == [] then [] else Concat(calls[..|calls| - 1]) + calls[|calls| - 1].taken
  }

  predicate Holds(place: Place)
  {
    place.AtTest? || place.AtAvail? || place.AtGet?
  }

  /** Characters that belong in a buffer. */
  ghost predicate Text(got: seq<byte>)
  {
    forall ch | ch in got :: ch != EOF && !EndsLine(ch)
  }

  function AtLeastZero(n: int): nat
  {
    if n < 0 then 0 else n
  }

  ghost predicate Sane(place: Place)
  {
    match place
    case AtTest(n, got, ch, eoln) =>
      && Text(got) && |got| <= AtLeastZero(n)
      && (if eoln then EndsLine(ch) && |got| < n else got != [] ==> ch == got[|got| - 1])
    case AtAvail(n, got) => Text(got) && |got| < n
    case AtGet(n, got) => Text(got) && |got| < n
    case _ => true
  }

  /**
   One Read took a run of text up to and including a newline or a Control-A, or a full
   buffer of it, and says how long the text is, or -1 for Control-A.
   */
  ghost predicate OneLine(c: Call)
  {
    && Text(c.got) && |c.got| <= AtLeastZero(c.n)
    && (|| (c.taken == c.got && |c.got| == AtLeastZero(c.n) && (c.n > 0 ==> c.result == |c.got|))
        || (c.taken == c.got + [NEWLINE] && |c.got| < c.n && c.result == |c.got|)
        || (c.taken == c.got + [CONTROL_A] && |c.got| < c.n && c.result == -1))
  }

  /** What was typed is what has been taken, by calls that returned and the one in progress, and what is buffered. */
  ghost predicate InOrder(s: State, place: Place)
  {
    NonEof(s.typed) == Concat(s.done) + Taken(place) + Buffered(s.incoming)
  }

  ghost predicate Inv(s: State)
  {
    && 0 <= s.lineBlock <= 1 && 0 <= s.readAvail
    && (s.lineBlock == 1 ==> InOrder(s, Away) && (s.incoming != EOF ==> s.readAvail > 0))
    && (s.lineBlock == 0 <==> exists t | 0 <= t < |s.places| :: Holds(s.places[t]))
    && (forall t, u | 0 <= t < |s.places| && 0 <= u < |s.places| && Holds(s.places[t]) && Holds(s.places[u]) :: t == u)
    && (forall t | 0 <= t < |s.places| :: Holder(s, s.places[t]))
    && (forall c | c in s.done :: OneLine(c))
  }

  /** About the thread that holds the line; a buffered character has a V that nobody has used up. */
  ghost predicate Holder(s: State, place: Place)
  {
    && Sane(place)
    && (Holds(place) ==> InOrder(s, place) && (s.incoming != EOF ==> s.readAvail > 0 || place.AtGet?))
  }

  lemma NextKeeps(s: State, e: Event)
    requires Inv(s) && Enabled(s, e)
    ensures Inv(Next(s, e))
  {
    match e
    case Enter(t, _, _) =>
      if s.lineBlock == 0 {
        var u :| 0 <= u < |s.places| && Holds(s.places[u]);
        assert Holds(Next(s, e).places[u]);
      }
    case Lock(t) => LockKeeps(s, t);
    case Loop(t) => LoopKeeps(s, t);
    case Take(t) => TakeKeeps(s, t);
    case Get(t) => GetKeeps(s, t);
    case Poll(ch) => PollKeeps(s, ch);
  }

  lemma LockKeeps(s: State, t: nat)
    requires Inv(s) && Enabled(s, Lock(t))
    ensures Inv(Next(s, Lock(t)))
  {
    assert Holds(Next(s, Lock(t)).places[t]);
  }

  lemma LoopKeeps(s: State, t: nat)
    requires Inv(s) && Enabled(s, Loop(t))
    ensures Inv(Next(s, Loop(t)))
  {
    var u := Next(s, Loop(t));
    var place := s.places[t];
    assert Holds(place) && Holder(s, place);
    if |place.got| < place.n && !place.eoln {
      assert Holds(u.places[t]);
    } else {
      assert u.done[..|s.done|] == s.done;
      ReturnedOneLine(t, place);
    }
  }

  lemma ReturnedOneLine(t: nat, place: Place)
    requires place.AtTest? && Sane(place) && (|place.got| >= place.n || place.eoln)
    ensures OneLine(Returned(t, place))
  {
    if !place.eoln && place.got != [] {
      assert place.ch in place.got;
    }
  }

  lemma TakeKeeps(s: State, t: nat)
    requires Inv(s) && Enabled(s, Take(t))
    ensures Inv(Next(s, Take(t)))
  {
    assert Holds(s.places[t]) && Holder(s, s.places[t]);
    assert Holds(Next(s, Take(t)).places[t]);
  }

  lemma GetKeeps(s: State, t: nat)
    requires Inv(s) && Enabled(s, Get(t))
    ensures Inv(Next(s, Get(t)))
  {
    assert Holds(s.places[t]) && Holder(s, s.places[t]);
    assert Holds(Next(s, Get(t)).places[t]);
  }

  lemma PollKeeps(s: State, ch: byte)
    requires Inv(s)
    ensures Inv(Polled(s, ch))
  {
    if s.incoming == EOF {
      var u := Polled(s, ch);
      assert u.typed[..|s.typed|] == s.typed;
      forall t | 0 <= t < |s.places|
        ensures Holder(u, u.places[t])
      {
        assert Holder(s, s.places[t]);
      }
    }
  }

  // ------------------------------------------------------------ whole runs

  ghost predicate Run(s: State, es: seq<Event>, t: State)
    decreases |es|
  {
    if es == [] then t == s else Enabled(s, es[0]) && Run(Next(s, es[0]), es[1..], t)
  }

  lemma {:induction false} RunKeeps(s: State, es: seq<Event>, t: State)
    requires Inv(s) && Run(s, es, t)
    ensures Inv(t)
    decreases |es|
  {
    if es != [] {
      NextKeeps(s, es[0]);
      RunKeeps(Next(s, es[0]), es[1..], t);
    }
  }

  function Start(threads: nat): State
  {
    State(seq(threads, _ => Away), 1, 0, EOF, [], [])
  }

  /** The characters that the device takes from the keyboard in a run: those it finds with its buffer empty. */
  function Typed(s: State, es: seq<Event>): seq<byte>
    decreases |es|
  {
    if es == [] || !Enabled(s, es[0]) then []
    else (if es[0].Poll? && s.incoming == EOF then [es[0].typed] else []) + Typed(Next(s, es[0]), es[1..])
  }

  lemma {:induction false} TypedIs(s: State, es: seq<Event>, t: State)
    requires Run(s, es, t)
    ensures t.typed == s.typed + Typed(s, es)
    decreases |es|
  {
    if es != [] {
      TypedIs(Next(s, es[0]), es[1..], t);
    }
  }

  /**
   Nothing typed is lost, duplicated or reordered: the calls that returned, in order, one
   call in progress and the device's buffer together hold exactly what was typed. Every
   call took one line, and no buffered character is left without a pending V.
   */
  lemma ReadsAreInOrder(threads: nat, es: seq<Event>, s: State) returns (holder: Place)
    requires Run(Start(threads), es, s)
    ensures holder in s.places || holder == Away
    ensures NonEof(Typed(Start(threads), es)) == Concat(s.done) + Taken(holder) + Buffered(s.incoming)
    ensures forall c | c in s.done :: OneLine(c)
    ensures s.incoming != EOF ==> s.readAvail > 0 || holder.AtGet?
  {
    RunKeeps(Start(threads), es, s);
    TypedIs(Start(threads), es, s);
    assert [] + Typed(Start(threads), es) == Typed(Start(threads), es);
    holder := Away;
    if s.lineBlock == 0 {
      var t :| 0 <= t < |s.places| && Holds(s.places[t]);
      assert Holder(s, s.places[t]);
      holder := s.places[t];
    }
  }

  /** A Read of no bytes takes nothing, and reports the end of the stream exactly if its uninitialised `ch` says so. */
  lemma EmptyRead(s: State, t: nat, n: int, ch: byte)
    requires n <= 0 && s.lineBlock > 0 && t < |s.places| && s.places[t] == AtLock(n, ch)
    ensures Enabled(s, Lock(t)) && Enabled(Next(s, Lock(t)), Loop(t))
    ensures var u := Next(Next(s, Lock(t)), Loop(t));
            u.done == s.done + [Call(t, n, [], [], if ch == CONTROL_A then -1 else 0)] && u.incoming == s.incoming
  {
  }

  /** The result says how many characters were read, or -1 if the line ended with Control-A. */
  ghost predicate RightResult(c: Call)
  {
    c.result == if c.taken == c.got + [CONTROL_A] then -1 else |c.got|
  }

  /** Whatever the threads, the keyboard and the memory do, a Read of `n` bytes returns the right result. */
  ghost predicate AlwaysRight(n: int)
  {
    forall threads: nat, es, s, c | Run(Start(threads), es, s) && c in s.done && c.n == n :: RightResult(c)
  }

  lemma WrongRead(n: int) returns (es: seq<Event>, s: State, c: Call)
    requires n <= 0
    ensures Run(Start(1), es, s) && c in s.done && c.n == n && !RightResult(c)
  {
    var s1 := Next(Start(1), Enter(0, n, CONTROL_A));
    var s2 := Next(s1, Lock(0));
    EmptyRead(s1, 0, n, CONTROL_A);
    s := Next(s2, Loop(0));
    es := [Enter(0, n, CONTROL_A), Lock(0), Loop(0)];
    assert es[1..] == [Lock(0), Loop(0)] && es[1..][1..] == [Loop(0)] && es[1..][1..][1..] == [];
    assert Run(s, [], s) && Run(s2, [Loop(0)], s) && Run(s1, [Lock(0), Loop(0)], s);
    c := Call(0, n, [], [], -1);
    assert s.done[|s.done| - 1] == c;
  }

  /** A Read returns the right result in every run exactly if it is asked for at least one byte. */
  lemma RightIff(n: int)
    ensures AlwaysRight(n) <==> n > 0
  {
    if n > 0 {
      forall threads: nat, es, s, c | Run(Start(threads), es, s) && c in s.done && c.n == n
        ensures RightResult(c)
      {
        var _ := ReadsAreInOrder(threads, es, s);
        assert OneLine(c);
        assert (c.got + [NEWLINE])[|c.got|] != (c.got + [CONTROL_A])[|c.got|];
      }
    } else {
      var es, s, c := WrongRead(n);
      assert !AlwaysRight(n);
    }
  }

  // ------------------------------------------------------------ calls and returns

  /** The numbers of bytes that the thread `t` has called Read with, in order. */
  function Entered(es: seq<Event>, t: nat): seq<int>
  {
    if es == [] then []
    else (if es[0].Enter? && es[0].t == t then [es[0].n] else []) + Entered(es[1..], t)
  }

  /** Those of its calls that have returned, and of the one it is in. */
  function DoneBy(calls: seq<Call>, t: nat): seq<int>
  {
    if calls == [] then []
    else
      var c := calls[|calls| - 1];
      DoneBy(calls[..|calls| - 1], t) + if c.thread == t then [c.n] else []
  }

  function Under(place: Place): seq<int>
  {
    if place.Away? then [] else [place.n]
  }

  /** Calls that have returned and the call a thread is in. */
  function CallsOf(s: State, t: nat): seq<int>
    requires t < |s.places|
  {
    DoneBy(s.done, t) + Under(s.places[t])
  }

  lemma DoneMore(calls: seq<Call>, c: Call, t: nat)
    ensures DoneBy(calls + [c], t) == DoneBy(calls, t) + if c.thread == t then [c.n] else []
  {
    assert (calls + [c])[..|calls|] == calls;
  }

  /** The thread comes in, goes out with a call that is then done, or stays in the call it is in. */
  lemma NextUnder(s: State, e: Event, t: nat)
    requires Enabled(s, e) && t < |s.places|
    ensures var u := Next(s, e);
            && |u.places| == |s.places|
            && if e.Enter? && e.t == t
               then u.done == s.done && Under(s.places[t]) == [] && Under(u.places[t]) == [e.n]
               else if u.done == s.done then Under(u.places[t]) == Under(s.places[t])
               else
                 && |u.done| == |s.done| + 1 && u.done == s.done + [u.done[|s.done|]]
                 && Under(s.places[t]) == (if u.done[|s.done|].thread == t then [u.done[|s.done|].n] else [])
                                          + Under(u.places[t])
  {
    match e
    case Loop(x) =>
    case _ =>
  }

  lemma NextCalls(s: State, e: Event, t: nat)
    requires Enabled(s, e) && t < |s.places|
    ensures |Next(s, e).places| == |s.places|
    ensures CallsOf(Next(s, e), t) == CallsOf(s, t) + if e.Enter? && e.t == t then [e.n] else []
  {
    NextUnder(s, e, t);
    var u := Next(s, e);
    if u.done != s.done {
      DoneMore(s.done, u.done[|s.done|], t);
    }
  }

  /** Over every run the calls of a thread return one after another, each with the number of bytes asked for. */
  lemma {:induction false} CallsReturn(s: State, es: seq<Event>, u: State, t: nat)
    requires Run(s, es, u) && t < |s.places|
    ensures |u.places| == |s.places| && CallsOf(u, t) == CallsOf(s, t) + Entered(es, t)
    decreases |es|
  {
    if es == [] {
      assert CallsOf(s, t) + [] == CallsOf(s, t);
    } else {
      NextCalls(s, es[0], t);
      CallsReturn(Next(s, es[0]), es[1..], u, t);
      OneMore(CallsOf(s, t), if es[0].Enter? && es[0].t == t then [es[0].n] else [], Entered(es[1..], t));
    }
  }

  lemma OneMore(a: seq<int>, b: seq<int>, c: seq<int>)
    ensures a + b + c == a + (b + c)
  {
  }

  lemma CallsFromStart(threads: nat, es: seq<Event>, s: State, t: nat)
    requires Run(Start(threads), es, s) && t < threads
    ensures |s.places| == threads && Entered(es, t) == DoneBy(s.done, t) + Under(s.places[t])
  {
    CallsReturn(Start(threads), es, s, t);
    assert CallsOf(Start(threads), t) == [];
    assert [] + Entered(es, t) == Entered(es, t);
  }
}
