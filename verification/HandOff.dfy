/**
 How the programs test/main.c, test/sinhvien.c and test/voinuoc.c hand each other the
 right to work on the files, by semaphores named after the program that waits on them.
 Every choice that depends on a file or on the data is left open.
 */
module HandOff {

  /** Setting up, writing a line for the students, waiting for the answer, or gone. */
  datatype MainPlace = Setup | Writing | AwaitMain | Gone

  /**
   Not started, waiting for a line, opening the files, reading the line, waiting for the
   taps, opening the file for the next student, or gone.
   */
  datatype StudentPlace = Unborn | AwaitLine | Opening | Reading | AwaitTap | Reopening | Quit

  /** Not started, waiting for a student, pouring, or gone. */
  datatype TapPlace = NotBorn | AwaitStudent | Pouring | Dead

  /** A semaphore of the table by its value, or none. */
  datatype Entry = Missing | Semaphore(value: int)

  /**
   The three programs and the three semaphores. A failure to create either of the first two
   ends main, but the result of creating "voinuoc" is compared with and not assigned to the
   variable that is tested. So the third may be missing, because the table was full, or be
   an older one of that name, with any value.
   */
  datatype State = State(
    main: MainPlace, student: StudentPlace, tap: TapPlace,
    mainSem: int, studentSem: int, tapSem: Entry, halted: bool)

  datatype Event =
    | ExecStudent | ExecTap | MainStarts | MainGivesUp | MainUp | MainDown | MainHalts
    | StudentDown | StudentOpens | StudentFails | StudentUpTap | StudentDownTap | StudentReopens | StudentLineDone
    | TapDown | TapUp | TapFails

  /** Down on a semaphore that does not exist returns at once. */
  predicate MayPass(entry: Entry)
  {
    entry.Missing? || entry.value > 0
  }

  function AfterDown(entry: Entry): Entry
  {
    if entry.Missing? then entry else Semaphore(entry.value - 1)
  }

  /** Up on a semaphore that does not exist does nothing. */
  function AfterUp(entry: Entry): Entry
  {
    if entry.Missing? then entry else Semaphore(entry.value + 1)
  }

  predicate Enabled(s: State, e: Event)
  {
    && !s.halted
    && match e
       case ExecStudent => s.main == Setup && s.student == Unborn
       case ExecTap => s.main == Setup && s.student != Unborn && s.tap == NotBorn
       case MainStarts => s.main == Setup && s.student != Unborn && s.tap != NotBorn
       case MainGivesUp => s.main == Setup || s.main == Writing
       case MainUp => s.main == Writing
       case MainDown => s.main == AwaitMain && s.mainSem > 0
       case MainHalts => s.main == Writing
       case StudentDown => s.student == AwaitLine && s.studentSem > 0
       case StudentOpens => s.student == Opening
       case StudentFails => s.student == Opening || s.student == Reading || s.student == Reopening
       case StudentUpTap => s.student == Reading
       case StudentDownTap => s.student == AwaitTap && s.studentSem > 0
       case StudentReopens => s.student == Reopening
       case StudentLineDone => s.student == Reading
       case TapDown => s.tap == AwaitStudent && MayPass(s.tapSem)
       case TapUp => s.tap == Pouring
       case TapFails => s.tap == Pouring
  }

  function Next(s: State, e: Event): State
    requires Enabled(s, e)
  {
    match e
    case ExecStudent => s.(student := AwaitLine)
    case ExecTap => s.(tap := AwaitStudent)
    case MainStarts => s.(main := Writing)
    case MainGivesUp => s.(main := Gone)
    case MainUp => s.(main := AwaitMain, studentSem := s.studentSem + 1)
    case MainDown => s.(main := Writing, mainSem := s.mainSem - 1)
    case MainHalts => s.(main := Gone, halted := true)
    case StudentDown => s.(student := Opening, studentSem := s.studentSem - 1)
    case StudentOpens => s.(student := Reading)
    case StudentFails => s.(student := Quit, mainSem := s.mainSem + 1)
    case StudentUpTap => s.(student := AwaitTap, tapSem := AfterUp(s.tapSem))
    case StudentDownTap => s.(student := Reopening, studentSem := s.studentSem - 1)
    case StudentReopens => s.(student := Reading)
    case StudentLineDone => s.(student := AwaitLine, mainSem := s.mainSem + 1)
    case TapDown => s.(tap := Pouring, tapSem := AfterDown(s.tapSem))
    case TapUp => s.(tap := AwaitStudent, studentSem := s.studentSem + 1)
    case TapFails => s.(tap := Dead, studentSem := s.studentSem + 1)
  }

  /** The first two semaphores were created with value 0. */
  function Start(third: Entry): State
  {
    State(Setup, Unborn, NotBorn, 0, 0, third, false)
  }

  ghost predicate Run(s: State, es: seq<Event>, t: State)
    decreases |es|
  {
    if es == [] then t == s else Enabled(s, es[0]) && Run(Next(s, es[0]), es[1..], t)
  }

  // ------------------------------------------------------------- one token

  function One(b: bool): nat
  {
    if b then 1 else 0
  }

  /** The programs that work on files. A main that gave up takes the token with it. */
  predicate MainWorks(s: State)
  {
    s.main == Setup || s.main == Writing
  }

  predicate StudentWorks(s: State)
  {
    s.student == Opening || s.student == Reading || s.student == Reopening
  }

  predicate TapWorks(s: State)
  {
    s.tap == Pouring
  }

  predicate Exclusive(s: State)
  {
    One(MainWorks(s)) + One(StudentWorks(s)) + One(TapWorks(s)) <= 1
  }

  /** The semaphores and the programs together hold exactly one token. */
  ghost predicate OneToken(s: State)
  {
    && s.tapSem.Semaphore?
    && s.mainSem >= 0 && s.studentSem >= 0 && s.tapSem.value >= 0
    && s.mainSem + s.studentSem + s.tapSem.value
       + One(MainWorks(s) || s.main == Gone) + One(StudentWorks(s)) + One(TapWorks(s)) == 1
  }

  /** A cup is filled only while the student and main wait for it. */
  ghost predicate Inv(s: State)
  {
    && OneToken(s)
    && (s.mainSem == 1 || StudentWorks(s) ==> s.main == AwaitMain)
    && (s.tapSem.value == 1 || TapWorks(s) ==> s.student == AwaitTap)
    && (s.student == AwaitTap ==> s.main == AwaitMain && s.mainSem == 0)
  }

  lemma NextKeeps(s: State, e: Event)
    requires Inv(s) && Enabled(s, e)
    ensures Inv(Next(s, e))
  {
  }

  lemma {:induction false} RunKeeps(s: State, es: seq<Event>, t: State)
    requires Inv(s) && Run(s, es, t)
    ensures Inv(t)
    decreases |es|
  {
    if es != [] {
      NextKeeps(s, es[0]);
      RunKeeps(Next(s, es[0]), es[1..], t);
    }
  }

  /** In every run in which "voinuoc" was created, error exits included. */
  lemma OneTokenAlways(es: seq<Event>, t: State)
    requires Run(Start(Semaphore(0)), es, t)
    ensures OneToken(t) && Exclusive(t)
    ensures TapWorks(t) ==> t.student == AwaitTap && t.main == AwaitMain
  {
    RunKeeps(Start(Semaphore(0)), es, t);
  }

  // ----------------------------------------------- what has been handed over

  /** The state agrees with how often each thing has happened. */
  ghost predicate Tallied(s: State, c: multiset<Event>)
  {
    && s.tapSem.Semaphore?
    && c[StudentUpTap] == c[TapDown] + s.tapSem.value
    && c[TapDown] == c[TapUp] + c[TapFails] + One(TapWorks(s))
    && c[StudentUpTap] == c[StudentDownTap] + One(s.student == AwaitTap)
    && c[StudentDown] == c[StudentLineDone] + c[StudentFails] + One(StudentWorks(s) || s.student == AwaitTap)
    && c[MainUp] == c[MainDown] + One(s.main == AwaitMain)
    && c[StudentLineDone] + c[StudentFails] == c[MainDown] + s.mainSem
    && c[MainUp] + c[TapUp] + c[TapFails] == c[StudentDown] + c[StudentDownTap] + s.studentSem
  }

  lemma NextTallied(s: State, e: Event, c: multiset<Event>)
    requires Enabled(s, e) && Tallied(s, c)
    ensures Tallied(Next(s, e), c + multiset{e})
  {
    TapTallied(s, e, c);
    LineTallied(s, e, c);
  }

  lemma TapTallied(s: State, e: Event, c: multiset<Event>)
    requires Enabled(s, e) && Tallied(s, c)
    ensures var t, d := Next(s, e), c + multiset{e};
            && t.tapSem.Semaphore? && d[StudentUpTap] == d[TapDown] + t.tapSem.value
            && d[TapDown] == d[TapUp] + d[TapFails] + One(TapWorks(t))
            && d[StudentUpTap] == d[StudentDownTap] + One(t.student == AwaitTap)
  {
  }

  lemma LineTallied(s: State, e: Event, c: multiset<Event>)
    requires Enabled(s, e) && Tallied(s, c)
    ensures var t, d := Next(s, e), c + multiset{e};
            && d[StudentDown] == d[StudentLineDone] + d[StudentFails] + One(StudentWorks(t) || t.student == AwaitTap)
            && d[MainUp] == d[MainDown] + One(t.main == AwaitMain)
            && d[StudentLineDone] + d[StudentFails] == d[MainDown] + t.mainSem
            && d[MainUp] + d[TapUp] + d[TapFails] == d[StudentDown] + d[StudentDownTap] + t.studentSem
  {
  }

  lemma {:induction false} RunTallied(s: State, es: seq<Event>, t: State, c: multiset<Event>)
    requires Tallied(s, c) && Run(s, es, t)
    ensures Tallied(t, c + multiset(es))
    decreases |es|
  {
    if es == [] {
      assert c + multiset(es) == c;
    } else {
      NextTallied(s, es[0], c);
      RunTallied(Next(s, es[0]), es[1..], t, c + multiset{es[0]});
      assert es == [es[0]] + es[1..];
      assert c + multiset{es[0]} + multiset(es[1..]) == c + multiset(es);
    }
  }

  /**
   Nobody goes on before the answer is there: while the students' program works, every cup
   it has asked for has been dealt with, and while main does, every line it has handed over.
   */
  lemma AnsweredFirst(es: seq<Event>, t: State)
    requires Run(Start(Semaphore(0)), es, t)
    ensures var c := multiset(es);
            && (StudentWorks(t) ==> c[StudentUpTap] == c[TapUp] + c[TapFails] == c[StudentDownTap])
            && (MainWorks(t) ==> c[MainUp] == c[StudentLineDone] + c[StudentFails] == c[MainDown])
            && c[TapUp] + c[TapFails] <= c[TapDown] <= c[StudentUpTap]
            && c[StudentLineDone] + c[StudentFails] <= c[StudentDown] <= c[MainUp]
  {
    RunKeeps(Start(Semaphore(0)), es, t);
    RunTallied(Start(Semaphore(0)), es, t, multiset{});
    assert multiset{} + multiset(es) == multiset(es);
  }

  // -------------------------------------------------- the unnoticed failure

  /** With "voinuoc" missing, or left over with a token in it, the tap program works while main is still setting up. */
  lemma TapTooEarly(third: Entry) returns (es: seq<Event>, t: State)
    requires MayPass(third)
    ensures Run(Start(third), es, t) && !Exclusive(t) && MainWorks(t) && TapWorks(t)
  {
    var s1 := Next(Start(third), ExecStudent);
    var s2 := Next(s1, ExecTap);
    t := Next(s2, TapDown);
    es := [ExecStudent, ExecTap, TapDown];
    assert es[1..] == [ExecTap, TapDown] && es[1..][1..] == [TapDown] && es[1..][1..][1..] == [];
    assert Run(t, [], t) && Run(s2, [TapDown], t) && Run(s1, [ExecTap, TapDown], t);
  }

  ghost predicate Reachable(third: Entry, t: State)
  {
    exists es :: Run(Start(third), es, t)
  }

  /** No two programs ever work on the files at once exactly if "voinuoc" exists and holds nothing. */
  lemma ExclusiveIff(third: Entry)
    requires third.Semaphore? ==> third.value >= 0
    ensures (forall t | Reachable(third, t) :: Exclusive(t)) <==> third == Semaphore(0)
  {
    if third == Semaphore(0) {
      forall t | Reachable(third, t)
        ensures Exclusive(t)
      {
        var es :| Run(Start(third), es, t);
        OneTokenAlways(es, t);
      }
    } else {
      var es, t := TapTooEarly(third);
      assert Reachable(third, t);
    }
  }
}
