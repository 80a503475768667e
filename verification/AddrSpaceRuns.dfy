/**
 Address spaces and memory over whole runs: frames are never shared, so programs do not
 see each other's stores; they see each other's loading exactly if a segment is put beside
 the frames of its own program.
 */
module AddrSpaceRuns {
  import opened Chains
  import opened Words
  import opened BitMaps
  import opened FileHeaders
  import opened OpenFiles
  import opened Translation
  import opened Loading
  import opened AddrSpaces

  /** The marked frames, the page tables of the live address spaces, and the memory. */
  datatype Pool = Pool(marked: set<nat>, spaces: map<nat, Table>, memory: seq<byte>)

  datatype Event =
    | Create(id: nat, file: seq<byte>)
    | Destroy(id: nat)
    | Load(id: nat, addr: int32, size: int)
    | Store(id: nat, addr: int32, size: int, value: int32)

  ghost function ClearFrames(p: Pool): set<nat>
  {
    set f: nat | f < 256 && f !in p.marked
  }

  /** One event leads from `p` to `q`; one of a program that is not there, or is there already, does nothing. */
  ghost predicate Step(p: Pool, e: Event, q: Pool)
  {
    if e.Create? <==> e.id in p.spaces then q == p
    else
      match e
      case Create(id, file) => IsNoff(file) && Created(p, id, file, q)
      case Destroy(id) => q == p.(marked := p.marked - Frames(p.spaces[id]), spaces := p.spaces - {id})
      case Load(id, addr, size) =>
        q == if Check(p.spaces[id], ToWord(addr), size, false) == NoException
             then p.(spaces := p.spaces[id := Touched(p.spaces[id], ToWord(addr), false)]) else p
      case Store(id, addr, size, value) => IsSize(size) && StoredBy(p, id, ToWord(addr), StoreBytes(value, size), q)
  }

  ghost predicate Created(p: Pool, id: nat, file: seq<byte>, q: Pool)
    requires IsNoff(file)
  {
    && AddedTo(p, id, PagesFor(DecodeNoff(file)), q)
    && q.memory == Written(p.memory, LoaderWrites(q.spaces[id], file))
  }

  ghost predicate AddedTo(p: Pool, id: nat, pages: nat, q: Pool)
  {
    && id in q.spaces && q.spaces == p.spaces[id := q.spaces[id]]
    && Allocated(ClearFrames(p), p.marked, pages, q.spaces[id], q.marked)
  }

  ghost predicate StoredBy(p: Pool, id: nat, addr: word, bytes: seq<byte>, q: Pool)
    requires id in p.spaces && IsSize(|bytes|)
  {
    if Check(p.spaces[id], addr, |bytes|, true) == NoException then
      var place := PhysAddr(p.spaces[id], addr);
      && 0 <= place && place + |bytes| <= |p.memory|
      && q == p.(spaces := p.spaces[id := Touched(p.spaces[id], addr, true)], memory := Stored(p.memory, place, bytes))
    else q == p
  }

  // ------------------------------------------------------------ invariant

  /** The table uses each of its frames once, and all are marked. */
  ghost predicate GoodTable(table: Table, marked: set<nat>)
  {
    Injective(table) && forall i | 0 <= i < |table| :: table[i].physicalPage >= 0 && table[i].physicalPage in marked
  }

  ghost predicate Owned(spaces: map<nat, Table>, f: nat)
  {
    exists id | id in spaces :: f in Frames(spaces[id])
  }

  /** Every live space uses its own frames, and a frame is marked exactly if some space uses it. */
  ghost predicate Inv(p: Pool)
  {
    && IsMemory(p.memory) && (forall f | f in p.marked :: f < 256)
    && (forall id | id in p.spaces :: GoodTable(p.spaces[id], p.marked))
    && (forall a, b | a in p.spaces && b in p.spaces && a != b :: Disjoint(p.spaces[a], p.spaces[b]))
    && (forall f | f in p.marked :: Owned(p.spaces, f))
  }

  lemma CreateKeeps(p: Pool, id: nat, pages: nat, q: Pool)
    requires Inv(p) && id !in p.spaces && AddedTo(p, id, pages, q) && IsMemory(q.memory)
    ensures Inv(q)
  {
    if pages <= |ClearFrames(p)| {
      var table := q.spaces[id];
      NewTableFacts(ClearFrames(p), table);
      forall i | 0 <= i < |table|
        ensures table[i].physicalPage in q.marked && table[i].physicalPage !in p.marked
      {
        InFrames(table, i);
      }
    }
    forall f | f in q.marked
      ensures Owned(q.spaces, f)
    {
      if f in p.marked {
        var owner :| owner in p.spaces && f in Frames(p.spaces[owner]);
        assert owner in q.spaces && q.spaces[owner] == p.spaces[owner];
      }
    }
  }

  lemma DestroyKeeps(p: Pool, id: nat, q: Pool)
    requires Inv(p) && id in p.spaces && Step(p, Destroy(id), q)
    ensures Inv(q)
  {
    var gone := p.spaces[id];
    forall other | other in q.spaces
      ensures GoodTable(q.spaces[other], q.marked)
    {
      var table := p.spaces[other];
      assert GoodTable(table, p.marked) && Disjoint(gone, table);
      forall i | 0 <= i < |table|
        ensures table[i].physicalPage in q.marked
      {
        NotInFrames(gone, table, i);
      }
    }
    forall f | f in q.marked
      ensures Owned(q.spaces, f)
    {
      var owner :| owner in p.spaces && f in Frames(p.spaces[owner]);
      assert owner in q.spaces;
    }
  }

  lemma NotInFrames(gone: Table, table: Table, i: nat)
    requires Disjoint(gone, table) && i < |table| && table[i].physicalPage >= 0
    ensures table[i].physicalPage !in Frames(gone)
  {
  }

  /** Setting use and dirty bits does not change frames. */
  lemma TouchedFrames(table: Table, addr: word, writing: bool)
    requires addr / 512 < |table|
    ensures var touched := Touched(table, addr, writing);
            && |touched| == |table| && Frames(touched) == Frames(table)
            && (forall i | 0 <= i < |table| :: touched[i].physicalPage == table[i].physicalPage)
  {
    assert FrameList(Touched(table, addr, writing)) == FrameList(table);
  }

  lemma TouchKeeps(p: Pool, id: nat, addr: word, writing: bool)
    requires Inv(p) && id in p.spaces && addr / 512 < |p.spaces[id]|
    ensures Inv(p.(spaces := p.spaces[id := Touched(p.spaces[id], addr, writing)]))
  {
    TouchedFrames(p.spaces[id], addr, writing);
    SameFramesKeep(p, id, Touched(p.spaces[id], addr, writing));
  }

  lemma SameFramesKeep(p: Pool, id: nat, table: Table)
    requires Inv(p) && id in p.spaces && |table| == |p.spaces[id]| && Frames(table) == Frames(p.spaces[id])
    requires forall i | 0 <= i < |table| :: table[i].physicalPage == p.spaces[id][i].physicalPage
    ensures Inv(p.(spaces := p.spaces[id := table]))
  {
    var spaces := p.spaces[id := table];
    assert GoodTable(p.spaces[id], p.marked);
    forall f | f in p.marked
      ensures Owned(spaces, f)
    {
      var owner :| owner in p.spaces && f in Frames(p.spaces[owner]);
      assert owner in spaces && f in Frames(spaces[owner]);
    }
  }

  lemma StepKeeps(p: Pool, e: Event, q: Pool)
    requires Inv(p) && Step(p, e, q)
    ensures Inv(q)
  {
    if q != p {
      match e
      case Create(id, file) => CreateKeeps(p, id, PagesFor(DecodeNoff(file)), q);
      case Destroy(id) => DestroyKeeps(p, id, q);
      case Load(id, addr, size) => TouchKeeps(p, id, ToWord(addr), false);
      case Store(id, addr, size, value) => TouchKeeps(p, id, ToWord(addr), true);
    }
  }

  // ------------------------------------------------------------ isolation

  /** The two pools show the same memory to the space `id`. */
  ghost predicate SameView(p: Pool, q: Pool, id: nat)
  {
    && id in p.spaces && id in q.spaces && IsMemory(p.memory) && IsMemory(q.memory)
    && (forall a: word :: Mapped(p.spaces[id], a) == Mapped(q.spaces[id], a))
    && (forall a: word | Mapped(p.spaces[id], a) ::
          ByteAt(p.memory, p.spaces[id], a) == ByteAt(q.memory, q.spaces[id], a))
  }

  /** A program is made by the event. */
  ghost predicate Creates(p: Pool, e: Event)
  {
    e.Create? && e.id !in p.spaces
  }

  /** No program but its own is written to when a program is loaded: the guard that the loader does not have. */
  ghost predicate Spares(p: Pool, e: Event, q: Pool, id: nat)
  {
    Creates(p, e) ==>
      && IsNoff(e.file) && e.id in q.spaces && id in p.spaces
      && Misses(LoaderWrites(q.spaces[e.id], e.file), p.spaces[id])
  }

  /** Nothing that another program does changes what a program sees, but for the loading of one. */
  lemma StepIsolated(p: Pool, e: Event, q: Pool, id: nat)
    requires Inv(p) && Step(p, e, q) && id in p.spaces && e.id != id && Spares(p, e, q, id)
    ensures SameView(p, q, id)
  {
    if Creates(p, e) {
      MissedUnseen(p.memory, LoaderWrites(q.spaces[e.id], e.file), p.spaces[id]);
    } else if e.Store? && e.id in p.spaces {
      StoreIsolated(p, e, q, id);
    }
  }

  lemma StoreIsolated(p: Pool, e: Event, q: Pool, id: nat)
    requires Inv(p) && Step(p, e, q) && id in p.spaces && e.id != id && e.Store? && e.id in p.spaces
    ensures SameView(p, q, id)
  {
    if Check(p.spaces[e.id], ToWord(e.addr), e.size, true) == NoException {
      forall a: word | Mapped(p.spaces[id], a)
        ensures ByteAt(q.memory, p.spaces[id], a) == ByteAt(p.memory, p.spaces[id], a)
      {
        StoreNotSeen(p.memory, p.spaces[e.id], ToWord(e.addr), StoreBytes(e.value, e.size), p.spaces[id], a);
      }
    }
  }

  /** The segments of the program that is made are sure to be loaded into its own frames. */
  ghost predicate TameStep(p: Pool, e: Event, q: Pool)
  {
    Creates(p, e) ==>
      && IsNoff(e.file) && e.id in q.spaces
      && Tame(q.spaces[e.id], DecodeNoff(e.file).code, e.file)
      && Tame(q.spaces[e.id], DecodeNoff(e.file).initData, e.file)
  }

  lemma TameSpares(p: Pool, e: Event, q: Pool, id: nat)
    requires Inv(p) && Step(p, e, q) && TameStep(p, e, q) && id in p.spaces
    ensures Spares(p, e, q, id)
  {
    if Creates(p, e) {
      StepKeeps(p, e, q);
      assert GoodTable(q.spaces[e.id], q.marked) && Disjoint(q.spaces[e.id], q.spaces[id]);
      TameWithin(q.spaces[e.id], e.file);
      WithinMisses(LoaderWrites(q.spaces[e.id], e.file), q.spaces[e.id], p.spaces[id]);
    }
  }

  /** A program's own store changes exactly the bytes it writes. */
  lemma StoreIsUpdate(p: Pool, id: nat, addr: int32, size: int, value: int32, q: Pool, a: word)
    requires Inv(p) && id in p.spaces && Step(p, Store(id, addr, size, value), q) && Mapped(p.spaces[id], a)
    ensures id in q.spaces && Mapped(q.spaces[id], a) && IsMemory(q.memory)
    ensures var start := ToWord(addr);
            ByteAt(q.memory, q.spaces[id], a) ==
              if Check(p.spaces[id], start, size, true) == NoException && start <= a < start + size
              then ByteOf(ToWord(value), a - start) else ByteAt(p.memory, p.spaces[id], a)
  {
    var table, start := p.spaces[id], ToWord(addr);
    if Check(table, start, size, true) == NoException {
      StoreSeen(p.memory, table, start, StoreBytes(value, size), a);
      TouchedSame(table, start, true, a, 1, false);
    }
  }

  // ------------------------------------------------------------ whole runs

  ghost function PoolStep(): Relation<Pool, Event>
  {
    (p: Pool, e: Event, q: Pool) => Step(p, e, q)
  }

  /** The pools follow one another by the events. */
  ghost predicate IsRun(ps: seq<Pool>, es: seq<Event>)
  {
    IsChain(ps, es, PoolStep())
  }

  ghost predicate Leads(p: Pool, es: seq<Event>, ps: seq<Pool>, q: Pool)
  {
    IsRun(ps, es) && ps[0] == p && ps[|es|] == q
  }

  /** The program `id` takes no part. */
  ghost predicate NoneOf(es: seq<Event>, id: nat)
  {
    forall e | e in es :: e.id != id
  }

  lemma StepsKeep()
    ensures forall p, e, q | Inv(p) && PoolStep()(p, e, q) :: Inv(q)
  {
    forall p, e, q | Inv(p) && PoolStep()(p, e, q)
      ensures Inv(q)
    {
      StepKeeps(p, e, q);
    }
  }

  lemma RunKeeps(ps: seq<Pool>, es: seq<Event>, k: nat)
    requires IsRun(ps, es) && Inv(ps[0]) && k < |ps|
    ensures Inv(ps[k])
  {
    StepsKeep();
    ChainKeeps(ps, es, k, PoolStep(), p => Inv(p));
  }

  /** `q` is in order and shows the program `id` what `p` does. */
  ghost predicate Unseen(p: Pool, q: Pool, id: nat)
  {
    Inv(q) && SameView(p, q, id)
  }

  /** A new program finds its segments at their addresses, if they start at zero or its frames follow one another. */
  lemma CreatedSees(p: Pool, id: nat, file: seq<byte>, q: Pool, v: word)
    requires Inv(p) && id !in p.spaces && Step(p, Create(id, file), q) && Mapped(q.spaces[id], v)
    requires Placed(q.spaces[id], DecodeNoff(file).code) && Placed(q.spaces[id], DecodeNoff(file).initData)
    ensures IsMemory(q.memory)
    ensures ByteAt(q.memory, q.spaces[id], v)
         == ProgramByte(DecodeNoff(file).code, DecodeNoff(file).initData, |q.spaces[id]|, file, v,
                        ByteAt(p.memory, q.spaces[id], v))
  {
    StepKeeps(p, Create(id, file), q);
    assert GoodTable(q.spaces[id], q.marked);
    LoadedProgram(p.memory, q.spaces[id], file, v);
  }

  /** Steps in which the loading of others spares the program `id`. */
  ghost function SparingStep(id: nat): Relation<Pool, Event>
  {
    (p: Pool, e: Event, q: Pool) => Step(p, e, q) && Spares(p, e, q, id)
  }

  lemma StepUnseen(p: Pool, q: Pool, e: Event, r: Pool, id: nat)
    requires Unseen(p, q, id) && Step(q, e, r) && Spares(q, e, r, id) && e.id != id
    ensures Unseen(p, r, id)
  {
    StepKeeps(q, e, r);
    StepIsolated(q, e, r, id);
  }

  lemma StepsUnseen(p: Pool, es: seq<Event>, id: nat)
    requires NoneOf(es, id)
    ensures forall q, e, r | e in es && Unseen(p, q, id) && SparingStep(id)(q, e, r) :: Unseen(p, r, id)
  {
    forall q, e, r | e in es && Unseen(p, q, id) && SparingStep(id)(q, e, r)
      ensures Unseen(p, r, id)
    {
      StepUnseen(p, q, e, r, id);
    }
  }

  /** Every program that is made in the run spares the program `id`. */
  ghost predicate AllSpare(ps: seq<Pool>, es: seq<Event>, id: nat)
    requires |ps| == |es| + 1
  {
    forall i | 0 <= i < |es| :: Spares(ps[i], es[i], ps[i + 1], id)
  }

  /** While only other programs run, come and go, a program's memory stays as it was, if loading them spares it. */
  lemma RunIsolated(ps: seq<Pool>, es: seq<Event>, id: nat, k: nat)
    requires IsRun(ps, es) && Inv(ps[0]) && k < |ps| && id in ps[0].spaces && NoneOf(es, id) && AllSpare(ps, es, id)
    ensures SameView(ps[0], ps[k], id)
  {
    var p := ps[0];
    StepsUnseen(p, es, id);
    assert IsChain(ps, es, SparingStep(id));
    ChainKeeps(ps, es, k, SparingStep(id), q => Unseen(p, q, id));
  }

  ghost function TamePoolStep(): Relation<Pool, Event>
  {
    (p: Pool, e: Event, q: Pool) => Step(p, e, q) && TameStep(p, e, q)
  }

  lemma TameStepUnseen(p: Pool, q: Pool, e: Event, r: Pool, id: nat)
    requires Unseen(p, q, id) && Step(q, e, r) && TameStep(q, e, r) && e.id != id
    ensures Unseen(p, r, id)
  {
    TameSpares(q, e, r, id);
    StepUnseen(p, q, e, r, id);
  }

  /** It does if every segment starts at address zero, or lies in frames that follow one another and hold it. */
  lemma TameRunIsolated(ps: seq<Pool>, es: seq<Event>, id: nat, k: nat)
    requires IsChain(ps, es, TamePoolStep()) && Inv(ps[0]) && k < |ps| && id in ps[0].spaces && NoneOf(es, id)
    ensures SameView(ps[0], ps[k], id)
  {
    var p := ps[0];
    forall q, e, r | e in es && Unseen(p, q, id) && TamePoolStep()(q, e, r)
      ensures Unseen(p, r, id)
    {
      TameStepUnseen(p, q, e, r, id);
    }
    ChainKeeps(ps, es, k, TamePoolStep(), q => Unseen(p, q, id));
  }

  // --------------------------------------------------------- use and dirty bits

  /** The event is an access of the program `id` to its page `i` that is let through. */
  ghost predicate Touches(p: Pool, e: Event, id: nat, i: nat, writing: bool)
  {
    && id in p.spaces && e.id == id && (e.Store? || (e.Load? && !writing))
    && ToWord(e.addr) / 512 == i && Check(p.spaces[id], ToWord(e.addr), e.size, e.Store?) == NoException
  }

  /** The page `i` of the program is there. */
  ghost predicate HasPage(p: Pool, id: nat, i: nat)
  {
    id in p.spaces && i < |p.spaces[id]|
  }

  lemma StepTouches(p: Pool, e: Event, q: Pool, id: nat, i: nat)
    requires Step(p, e, q) && HasPage(p, id, i) && e != Destroy(id)
    ensures HasPage(q, id, i)
    ensures q.spaces[id][i].use <==> p.spaces[id][i].use || Touches(p, e, id, i, false)
    ensures q.spaces[id][i].dirty <==> p.spaces[id][i].dirty || Touches(p, e, id, i, true)
  {
  }

  /** Some access in the first `k` events of the run touches the page. */
  ghost predicate TouchedIn(ps: seq<Pool>, es: seq<Event>, id: nat, i: nat, writing: bool, k: nat)
    requires k <= |es| < |ps|
  {
    exists j | 0 <= j < k :: Touches(ps[j], es[j], id, i, writing)
  }

  /** Over every run a page is marked as used, or as written, exactly if it was before or has been since. */
  lemma {:induction false} MarkedAsTouched(ps: seq<Pool>, es: seq<Event>, id: nat, i: nat, k: nat)
    requires IsRun(ps, es) && k <= |es| && HasPage(ps[0], id, i) && Destroy(id) !in es
    ensures HasPage(ps[k], id, i)
    ensures ps[k].spaces[id][i].use <==> ps[0].spaces[id][i].use || TouchedIn(ps, es, id, i, false, k)
    ensures ps[k].spaces[id][i].dirty <==> ps[0].spaces[id][i].dirty || TouchedIn(ps, es, id, i, true, k)
  {
    if k > 0 {
      MarkedAsTouched(ps, es, id, i, k - 1);
      assert PoolStep()(ps[k - 1], es[k - 1], ps[k]) && es[k - 1] in es;
      StepTouches(ps[k - 1], es[k - 1], ps[k], id, i);
      TouchedOnce(ps, es, id, i, false, k);
      TouchedOnce(ps, es, id, i, true, k);
    }
  }

  lemma TouchedOnce(ps: seq<Pool>, es: seq<Event>, id: nat, i: nat, writing: bool, k: nat)
    requires 0 < k <= |es| < |ps|
    ensures TouchedIn(ps, es, id, i, writing, k) <==>
              TouchedIn(ps, es, id, i, writing, k - 1) || Touches(ps[k - 1], es[k - 1], id, i, writing)
  {
  }

  // ------------------------------------------- exactly when others are not seen

  ghost predicate SameTables(p: Pool, q: Pool)
  {
    q == p.(memory := q.memory) && IsMemory(q.memory)
  }

  /** The same events happen to the same tables, whatever the memory holds. */
  lemma StepReplay(p: Pool, e: Event, q: Pool, p': Pool) returns (q': Pool)
    requires Inv(p) && Step(p, e, q) && SameTables(p, p')
    ensures Step(p', e, q') && SameTables(q, q')
  {
    if e.Create? <==> e.id in p.spaces {
      q' := p';
    } else if e.Create? {
      q' := q.(memory := Written(p'.memory, LoaderWrites(q.spaces[e.id], e.file)));
      assert ClearFrames(p') == ClearFrames(p);
    } else if e.Store? && Check(p.spaces[e.id], ToWord(e.addr), e.size, true) == NoException {
      AccessInside(p.spaces[e.id], ToWord(e.addr), e.size, true);
      var place := PhysAddr(p.spaces[e.id], ToWord(e.addr));
      q' := q.(memory := Stored(p'.memory, place, StoreBytes(e.value, e.size)));
    } else {
      q' := q.(memory := p'.memory);
    }
  }

  /** Another memory with the same run of events and tables. */
  ghost predicate Replays(ps: seq<Pool>, qs: seq<Pool>)
  {
    |qs| == |ps| && forall i | 0 <= i < |ps| :: SameTables(ps[i], qs[i])
  }

  lemma {:induction false} RunReplay(ps: seq<Pool>, es: seq<Event>, mem: seq<byte>) returns (qs: seq<Pool>)
    requires IsRun(ps, es) && Inv(ps[0]) && IsMemory(mem)
    ensures IsRun(qs, es) && Replays(ps, qs) && qs[0].memory == mem
    decreases |es|
  {
    if es == [] {
      qs := [ps[0].(memory := mem)];
    } else {
      var n := |es| - 1;
      ChainFront(ps, es, PoolStep());
      qs := RunReplay(ps[..n + 1], es[..n], mem);
      RunKeeps(ps, es, n);
      assert PoolStep()(ps[n], es[n], ps[n + 1]) && ps[..n + 1][n] == ps[n];
      var q := StepReplay(ps[n], es[n], ps[n + 1], qs[n]);
      qs := ReplayNext(ps, es, qs, q);
    }
  }

  lemma ReplayNext(ps: seq<Pool>, es: seq<Event>, qs: seq<Pool>, q: Pool) returns (rs: seq<Pool>)
    requires es != [] && |ps| == |es| + 1 && IsRun(qs, es[..|es| - 1]) && Replays(ps[..|es|], qs)
    requires Step(qs[|es| - 1], es[|es| - 1], q) && SameTables(ps[|es|], q)
    ensures IsRun(rs, es) && Replays(ps, rs) && rs[0] == qs[0]
  {
    var n := |es| - 1;
    assert es[..n] + [es[n]] == es;
    ChainThen(qs, es[..n], PoolStep(), es[n], q);
    rs := qs + [q];
    forall i | 0 <= i < |ps|
      ensures SameTables(ps[i], rs[i])
    {
      if i <= n {
        assert ps[..|es|][i] == ps[i];
      }
    }
  }

  /** Whatever the memory holds at first, the program `id` sees the same in every state of the run. */
  ghost predicate NeverSees(ps: seq<Pool>, es: seq<Event>, id: nat)
  {
    forall qs, k | IsRun(qs, es) && Replays(ps, qs) && 0 <= k < |qs| :: SameView(qs[0], qs[k], id)
  }

  lemma SparesReplayed(p: Pool, e: Event, q: Pool, p': Pool, q': Pool, id: nat)
    requires SameTables(p, p') && SameTables(q, q')
    ensures Spares(p, e, q, id) == Spares(p', e, q', id)
  {
  }

  lemma SparedNeverSees(ps: seq<Pool>, es: seq<Event>, id: nat)
    requires IsRun(ps, es) && Inv(ps[0]) && id in ps[0].spaces && NoneOf(es, id) && AllSpare(ps, es, id)
    ensures NeverSees(ps, es, id)
  {
    forall qs, k | IsRun(qs, es) && Replays(ps, qs) && 0 <= k < |qs|
      ensures SameView(qs[0], qs[k], id)
    {
      forall i | 0 <= i < |es|
        ensures Spares(qs[i], es[i], qs[i + 1], id)
      {
        SparesReplayed(ps[i], es[i], ps[i + 1], qs[i], qs[i + 1], id);
      }
      MemoryIsFree(ps[0], qs[0]);
      RunIsolated(qs, es, id, k);
    }
  }

  lemma MemoryIsFree(p: Pool, q: Pool)
    requires Inv(p) && SameTables(p, q)
    ensures Inv(q)
  {
  }

  /** One creation that does not spare the program is seen, in a memory that holds something else. */
  lemma HitSees(ps: seq<Pool>, es: seq<Event>, id: nat, i: nat)
    requires IsRun(ps, es) && Inv(ps[0]) && i < |es| && es[i].id != id
    requires !Spares(ps[i], es[i], ps[i + 1], id)
    ensures !NeverSees(ps, es, id)
  {
    var p, e, q := ps[i], es[i], ps[i + 1];
    assert PoolStep()(p, e, q);
    if NeverSees(ps, es, id) {
      StillThere(ps, es, id, i);
      var ws, v, c := HitAt(p, e, q, id);
      var qs := RunReplay(ps, es, seq(65536, _ => c));
      assert PoolStep()(qs[i], e, qs[i + 1]) && SameView(qs[0], qs[i], id);
      CreationSeen(qs[0], qs[i], e, qs[i + 1], id, ws, v, c);
    }
  }

  lemma StillThere(ps: seq<Pool>, es: seq<Event>, id: nat, i: nat)
    requires IsRun(ps, es) && Inv(ps[0]) && i < |ps| && NeverSees(ps, es, id)
    ensures id in ps[i].spaces
  {
    var qs := RunReplay(ps, es, seq(65536, _ => 0));
    assert SameView(qs[0], qs[i], id);
  }

  /** Where a creation hits the program, and a byte that is not there afterwards if it was before. */
  lemma HitAt(p: Pool, e: Event, q: Pool, id: nat) returns (ws: seq<Write>, v: word, c: byte)
    requires Step(p, e, q) && id in p.spaces && !Spares(p, e, q, id)
    ensures Creates(p, e) && IsNoff(e.file) && e.id in q.spaces
    ensures ws == LoaderWrites(q.spaces[e.id], e.file) && Mapped(p.spaces[id], v)
    ensures forall mem | IsMemory(mem) && ByteAt(mem, p.spaces[id], v) == c ::
              ByteAt(Written(mem, ws), p.spaces[id], v) != c
  {
    ws := LoaderWrites(q.spaces[e.id], e.file);
    var w: Write;
    w, v :| w in ws && Mapped(p.spaces[id], v) && Covers(w, PhysAddr(p.spaces[id], v));
    c := HitSeen(ws, w, p.spaces[id], v);
  }

  lemma CreationSeen(start: Pool, p: Pool, e: Event, q: Pool, id: nat, ws: seq<Write>, v: word, c: byte)
    requires SameView(start, p, id) && Step(p, e, q) && Creates(p, e) && e.id != id && IsMemory(q.memory)
    requires ws == LoaderWrites(q.spaces[e.id], e.file) && Mapped(p.spaces[id], v)
    requires ByteAt(p.memory, p.spaces[id], v) == c
    requires forall mem | IsMemory(mem) && ByteAt(mem, p.spaces[id], v) == c ::
               ByteAt(Written(mem, ws), p.spaces[id], v) != c
    ensures !SameView(start, q, id)
  {
    assert q.spaces[id] == p.spaces[id] && ByteAt(start.memory, start.spaces[id], v) == c;
  }

  /**
   Over a run of others a program sees no change, whatever the memory held, exactly if
   no program that is made in the run is loaded over a byte of it.
   */
  lemma RunIsolatedIff(ps: seq<Pool>, es: seq<Event>, id: nat)
    requires IsRun(ps, es) && Inv(ps[0]) && id in ps[0].spaces && NoneOf(es, id)
    ensures NeverSees(ps, es, id) <==> AllSpare(ps, es, id)
  {
    if AllSpare(ps, es, id) {
      SparedNeverSees(ps, es, id);
    } else {
      var i :| 0 <= i < |es| && !Spares(ps[i], es[i], ps[i + 1], id);
      assert es[i] in es;
      HitSees(ps, es, id, i);
    }
  }

  /** No program, no frame marked, and any memory. */
  lemma StartGood(memory: seq<byte>)
    requires IsMemory(memory)
    ensures Inv(Pool({}, map[], memory))
  {
  }

  /** In every state that is reached from there, frames are marked and used once. */
  lemma Reachable(memory: seq<byte>, ps: seq<Pool>, es: seq<Event>, k: nat)
    requires IsMemory(memory) && IsRun(ps, es) && ps[0] == Pool({}, map[], memory) && k < |ps|
    ensures forall id | id in ps[k].spaces :: Injective(ps[k].spaces[id])
    ensures forall a, b | a in ps[k].spaces && b in ps[k].spaces && a != b :: Disjoint(ps[k].spaces[a], ps[k].spaces[b])
    ensures forall f :: f in ps[k].marked <==> Owned(ps[k].spaces, f)
  {
    StartGood(memory);
    RunKeeps(ps, es, k);
    forall f | Owned(ps[k].spaces, f)
      ensures f in ps[k].marked
    {
      var id :| id in ps[k].spaces && f in Frames(ps[k].spaces[id]);
      assert GoodTable(ps[k].spaces[id], ps[k].marked);
    }
  }

  // ------------------------------------------------- the code takes such steps

  lemma ClearFramesAre(ws: seq<word>, p: Pool)
    requires |ws| >= 8 && p.marked == Marked(ws, 256)
    ensures ClearFrames(p) == Unmarked(ws, 256)
  {
    forall f: nat
      ensures f in ClearFrames(p) <==> f in Unmarked(ws, 256)
    {
      InMarked(ws, 256, f);
    }
  }

  /** The outcome of a load: an exception, or the value of the bytes at the translated address. */
  ghost predicate LoadedFrom(mem: seq<byte>, table: Table, addr: word, size: int, exception: ExceptionType,
                             value: int32)
  {
    && IsMemory(mem) && IsSize(size) && exception == Check(table, addr, size, false)
    && (exception == NoException ==>
          (AccessInside(table, addr, size, false);
           value == LoadValue(mem[PhysAddr(table, addr)..PhysAddr(table, addr) + size])))
  }

  ghost predicate Loaded(p: Pool, id: nat, addr: word, size: int, exception: ExceptionType, value: int32)
  {
    id in p.spaces && LoadedFrom(p.memory, p.spaces[id], addr, size, exception, value)
  }

  /** The table of a program after an access. */
  ghost function UsedTable(p: Pool, id: nat, addr: word, writing: bool, exception: ExceptionType): Table
    requires id in p.spaces && (exception == NoException ==> addr / 512 < |p.spaces[id]|)
  {
    if exception == NoException then Touched(p.spaces[id], addr, writing) else p.spaces[id]
  }

  lemma LoadIsStep(p: Pool, id: nat, addr: int32, size: int, exception: ExceptionType, value: int32, q: Pool)
    requires Inv(p) && Loaded(p, id, ToWord(addr), size, exception, value)
    requires q == p.(spaces := p.spaces[id := UsedTable(p, id, ToWord(addr), false, exception)])
    ensures Inv(q) && Step(p, Load(id, addr, size), q)
  {
    if exception != NoException {
      assert q.spaces == p.spaces;
    }
    StepKeeps(p, Load(id, addr, size), q);
  }

  /** Accesses are of one, two or four bytes. */
  predicate Sized(e: Event)
  {
    e.Load? || e.Store? ==> IsSize(e.size)
  }

  /** The file that a program is made of is open. */
  ghost predicate Opened(e: Event, executable: OpenFile)
    reads executable.disk, executable.hdr
  {
    e.Create? ==> executable.Valid() && executable.Contents() == e.file && IsNoff(e.file)
  }

  ghost predicate CanRun(es: seq<Event>, executables: seq<OpenFile>)
    reads set x | x in executables :: x.disk, set x | x in executables :: x.hdr
  {
    |executables| == |es| && forall i | 0 <= i < |es| :: Sized(es[i]) && Opened(es[i], executables[i])
  }

  lemma CanRunLast(es: seq<Event>, executables: seq<OpenFile>)
    requires CanRun(es, executables) && es != []
    ensures var n := |es| - 1;
            && es[..n] + [es[n]] == es && CanRun(es[..n], executables[..n])
            && Sized(es[n]) && Opened(es[n], executables[n])
  {
  }

  /** The page tables of the spaces, as values. */
  ghost function TablesOf(spaces: map<nat, AddrSpace>): map<nat, Table>
    reads Arrays(spaces)
  {
    map id | id in spaces :: spaces[id].pageTable[..]
  }

  ghost function Arrays(spaces: map<nat, AddrSpace>): set<array<TranslationEntry>>
  {
    set id | id in spaces :: spaces[id].pageTable
  }

  /** The machine, the map of frames, and the address spaces of the programs that are there. */
  class Programs {
    const machine: Machine
    const frames: BitMap
    var spaces: map<nat, AddrSpace>

    ghost function Value(): Pool
      requires frames.Valid()
      reads this, frames.words, machine.mainMemory, Arrays(spaces)
    {
      Pool(frames.Bits(), TablesOf(spaces), machine.mainMemory[..])
    }

    /** Every program has a table of its own. */
    ghost predicate Separate()
      reads this
    {
      && machine.Valid() && frames.Valid() && frames.numBits == 256
      && (forall id | id in spaces :: spaces[id].numPages == spaces[id].pageTable.Length)
      && forall a, b | a in spaces && b in spaces && a != b :: spaces[a].pageTable != spaces[b].pageTable
    }

    ghost predicate Valid()
      reads this, frames.words, machine.mainMemory, Arrays(spaces)
    {
      Separate() && Inv(Value())
    }

    constructor ()
      ensures Valid() && fresh(machine) && fresh(frames) && spaces == map[]
      ensures Value().marked == {} && Value().spaces == map[]
    {
      machine := new Machine();
      frames := new BitMap(256);
      spaces := map[];
      new;
      StartGood(machine.mainMemory[..]);
      assert Value() == Pool({}, map[], machine.mainMemory[..]);
    }

    method Create(id: nat, executable: OpenFile)
      requires Valid() && id !in spaces && executable.Valid() && IsNoff(executable.Contents())
      modifies this, frames.words, machine.mainMemory
      ensures Valid() && fresh(Arrays(spaces) - old(Arrays(spaces)))
      ensures Step(old(Value()), Event.Create(id, executable.Contents()), Value())
    {
      ghost var p := Value();
      ClearFramesAre(frames.words[..], p);
      Add(id, executable);
      CreateKeeps(p, id, PagesFor(DecodeNoff(executable.Contents())), Value());
    }

    method Add(id: nat, executable: OpenFile)
      requires Separate() && id !in spaces && executable.Valid() && IsNoff(executable.Contents())
      modifies this, frames.words, machine.mainMemory
      ensures Separate() && fresh(Arrays(spaces) - old(Arrays(spaces)))
      ensures id in spaces && spaces[id].pageTable !in old(Arrays(spaces))
      ensures Value().spaces == old(Value()).spaces[id := Value().spaces[id]]
      ensures Allocated(old(frames.ClearBits()), old(frames.Bits()), PagesFor(DecodeNoff(executable.Contents())),
                        Value().spaces[id], frames.Bits())
      ensures Value().memory == Written(old(Value()).memory, LoaderWrites(Value().spaces[id], executable.Contents()))
    {
      var space := new AddrSpace(frames, machine, executable);
      Register(id, space);
    }

    method Register(id: nat, space: AddrSpace)
      requires Separate() && space.numPages == space.pageTable.Length && space.pageTable !in Arrays(spaces)
      modifies this
      ensures Separate() && spaces == old(spaces)[id := space]
      ensures Arrays(spaces) <= old(Arrays(spaces)) + {space.pageTable}
      ensures TablesOf(spaces) == old(TablesOf(spaces))[id := space.pageTable[..]]
    {
      spaces := spaces[id := space];
    }

    method Destroy(id: nat)
      requires Valid() && id in spaces
      modifies this, frames.words
      ensures Valid() && Arrays(spaces) <= old(Arrays(spaces))
      ensures Step(old(Value()), Event.Destroy(id), Value())
    {
      ghost var p := Value();
      assert GoodTable(p.spaces[id], p.marked);
      spaces[id].Destroy(frames);
      spaces := spaces - {id};
      assert TablesOf(spaces) == p.spaces - {id};
      DestroyKeeps(p, id, Value());
    }

    method Load(id: nat, addr: int32, size: int) returns (exception: ExceptionType, value: int32)
      requires Valid() && id in spaces && IsSize(size)
      modifies machine`pageTable, spaces[id].pageTable
      ensures Valid() && Step(old(Value()), Event.Load(id, addr, size), Value())
      ensures Loaded(old(Value()), id, ToWord(addr), size, exception, value)
    {
      ghost var p := Value();
      exception, value := LoadIn(id, addr, size);
      LoadIsStep(p, id, addr, size, exception, value, Value());
    }

    method LoadIn(id: nat, addr: int32, size: int) returns (exception: ExceptionType, value: int32)
      requires Separate() && id in spaces && IsSize(size)
      modifies machine`pageTable, spaces[id].pageTable
      ensures Separate() && spaces == old(spaces) && Loaded(old(Value()), id, ToWord(addr), size, exception, value)
      ensures Value() == old(Value()).(spaces := old(Value()).spaces[id := spaces[id].pageTable[..]])
      ensures spaces[id].pageTable[..] == UsedTable(old(Value()), id, ToWord(addr), false, exception)
    {
      ghost var p := Value();
      exception, value := LoadFrom(spaces[id], addr, size);
      assert TablesOf(spaces) == p.spaces[id := spaces[id].pageTable[..]];
    }

    method LoadFrom(space: AddrSpace, addr: int32, size: int) returns (exception: ExceptionType, value: int32)
      requires machine.Valid() && IsSize(size)
      modifies machine`pageTable, space.pageTable
      ensures var table := old(space.pageTable[..]);
              && LoadedFrom(machine.mainMemory[..], table, ToWord(addr), size, exception, value)
              && space.pageTable[..] ==
                 if exception == NoException then Touched(table, ToWord(addr), false) else table
    {
      space.RestoreState(machine);
      ghost var p := if Check(space.pageTable[..], ToWord(addr), size, false) == NoException
                     then PhysAddr(space.pageTable[..], ToWord(addr)) else 0;
      exception, value := machine.ReadMem(addr, size);
      assert exception == NoException ==> machine.mainMemory[p..p + size] == machine.mainMemory[..][p..p + size];
    }

    method Store(id: nat, addr: int32, size: int, value: int32) returns (exception: ExceptionType)
      requires Valid() && id in spaces && IsSize(size)
      modifies machine`pageTable, machine.mainMemory, spaces[id].pageTable
      ensures Valid() && Step(old(Value()), Event.Store(id, addr, size, value), Value())
      ensures exception == Check(old(Value()).spaces[id], ToWord(addr), size, true)
    {
      ghost var p := Value();
      exception := StoreIn(id, addr, size, value);
      StepKeeps(p, Event.Store(id, addr, size, value), Value());
    }

    method StoreIn(id: nat, addr: int32, size: int, value: int32) returns (exception: ExceptionType)
      requires Separate() && id in spaces && IsSize(size)
      modifies machine`pageTable, machine.mainMemory, spaces[id].pageTable
      ensures Separate() && spaces == old(spaces)
      ensures exception == Check(old(Value()).spaces[id], ToWord(addr), size, true)
      ensures StoredBy(old(Value()), id, ToWord(addr), StoreBytes(value, size), Value())
    {
      ghost var p := Value();
      exception := StoreTo(spaces[id], addr, size, value);
      assert TablesOf(spaces) == p.spaces[id := spaces[id].pageTable[..]];
    }

    method StoreTo(space: AddrSpace, addr: int32, size: int, value: int32) returns (exception: ExceptionType)
      requires machine.Valid() && IsSize(size)
      modifies machine`pageTable, machine.mainMemory, space.pageTable
      ensures var table, a, mem := old(space.pageTable[..]), ToWord(addr), old(machine.mainMemory[..]);
              && exception == Check(table, a, size, true)
              && if exception == NoException
                 then
                   && PhysAddr(table, a) >= 0 && PhysAddr(table, a) + size <= 65536
                   && machine.mainMemory[..] == Stored(mem, PhysAddr(table, a), StoreBytes(value, size))
                   && space.pageTable[..] == Touched(table, a, true)
                 else space.pageTable[..] == table && machine.mainMemory[..] == mem
    {
      space.RestoreState(machine);
      exception := machine.WriteMem(addr, size, value);
    }

    method Perform(e: Event, executable: OpenFile)
      requires Valid() && Sized(e) && Opened(e, executable)
      modifies this, machine`pageTable, machine.mainMemory, frames.words, Arrays(spaces)
      ensures Valid() && fresh(Arrays(spaces) - old(Arrays(spaces))) && Step(old(Value()), e, Value())
    {
      if e.Create? <==> e.id in spaces {
        return;
      }
      match e
      case Create(id, file) => Create(id, executable);
      case Destroy(id) => Destroy(id);
      case Load(id, addr, size) => var _, _ := Load(id, addr, size);
      case Store(id, addr, size, value) => var _ := Store(id, addr, size, value);
    }

    /** One more event of a run. */
    method PerformNext(e: Event, executable: OpenFile, ghost ps: seq<Pool>, ghost es: seq<Event>, ghost p: Pool)
      returns (ghost qs: seq<Pool>)
      requires Valid() && Sized(e) && Opened(e, executable) && Leads(p, es, ps, Value())
      modifies this, machine`pageTable, machine.mainMemory, frames.words, Arrays(spaces)
      ensures Valid() && fresh(Arrays(spaces) - old(Arrays(spaces))) && Leads(p, es + [e], qs, Value())
    {
      Perform(e, executable);
      ChainThen(ps, es, PoolStep(), e, Value());
      qs := ps + [Value()];
    }

    /** Any sequence of events, as the code runs them, is such a run. */
    method RunAll(es: seq<Event>, executables: seq<OpenFile>) returns (ghost ps: seq<Pool>)
      requires Valid() && CanRun(es, executables)
      modifies this, machine`pageTable, machine.mainMemory, frames.words, Arrays(spaces)
      ensures Valid() && fresh(Arrays(spaces) - old(Arrays(spaces))) && Leads(old(Value()), es, ps, Value())
      decreases |es|
    {
      ghost var p := Value();
      if es == [] {
        ps := [p];
      } else {
        ps := RunMost(es, executables);
      }
    }

    method RunMost(es: seq<Event>, executables: seq<OpenFile>) returns (ghost ps: seq<Pool>)
      requires Valid() && CanRun(es, executables) && es != []
      modifies this, machine`pageTable, machine.mainMemory, frames.words, Arrays(spaces)
      ensures Valid() && fresh(Arrays(spaces) - old(Arrays(spaces))) && Leads(old(Value()), es, ps, Value())
      decreases |es|, 0
    {
      ghost var p := Value();
      var n := |es| - 1;
      CanRunLast(es, executables);
      ps := RunAll(es[..n], executables[..n]);
      ps := PerformNext(es[n], executables[n], ps, es[..n], p);
    }

    /** A program that takes no part in it sees no change in any state, if loading the others spares it. */
    method PerformAll(es: seq<Event>, executables: seq<OpenFile>) returns (ghost ps: seq<Pool>)
      requires Valid() && CanRun(es, executables)
      modifies this, machine`pageTable, machine.mainMemory, frames.words, Arrays(spaces)
      ensures Valid() && IsRun(ps, es) && ps[0] == old(Value()) && ps[|es|] == Value()
      ensures forall id, k | id in old(spaces) && NoneOf(es, id) && AllSpare(ps, es, id) && 0 <= k < |ps| ::
                SameView(old(Value()), ps[k], id)
    {
      ps := RunAll(es, executables);
      forall id, k | id in old(spaces) && NoneOf(es, id) && AllSpare(ps, es, id) && 0 <= k < |ps|
        ensures SameView(ps[0], ps[k], id)
      {
        RunIsolated(ps, es, id, k);
      }
    }
  }
}
