/**
 A run in which one program is loaded over another: a first program leaves a gap in
 front of a second, a third gets frames on both sides of the second, and its data, which
 lie inside its own space, go into the second program's first page.
 */
module LoaderSpill {
  import opened Words
  import opened FileHeaders
  import opened Chains
  import opened Translation
  import opened Loading
  import opened AddrSpaces
  import opened AddrSpaceRuns

  /** A program without code and data: two pages of stack. */
  ghost predicate Plain(h: NoffHeader)
  {
    PagesFor(h) == 2 && h.code.size == 0 && h.initData.size == 0
  }

  ghost predicate IsPlain(file: seq<byte>)
  {
    IsNoff(file) && Plain(DecodeNoff(file))
  }

  /** A program with data at address 1024, in the last of its three pages. */
  ghost predicate Late(h: NoffHeader)
  {
    PagesFor(h) == 3 && h.code.size == 0 && h.initData == Segment(1024, 40, 4)
  }

  ghost predicate HasData(file: seq<byte>)
  {
    IsNoff(file) && |file| > 40 && Late(DecodeNoff(file))
  }

  lemma MakeFile(h: NoffHeader, rest: seq<byte>) returns (file: seq<byte>)
    requires h.noffMagic == NOFF_MAGIC && Loadable(h.code) && Loadable(h.initData)
    ensures IsNoff(file) && DecodeNoff(file) == h && |file| == 40 + |rest| && file[40..] == rest
  {
    file := EncodeNoff(h) + rest;
    DecodeEncodeNoff(h, rest);
  }

  lemma MakeHeaders() returns (plain: NoffHeader, late: NoffHeader)
    ensures plain.noffMagic == NOFF_MAGIC && Plain(plain)
    ensures late.noffMagic == NOFF_MAGIC && Late(late)
  {
    var none := Segment(0, 40, 0);
    plain := NoffHeader(NOFF_MAGIC, none, none, none);
    late := NoffHeader(NOFF_MAGIC, none, Segment(1024, 40, 4), none);
  }

  lemma MakeFiles() returns (plain: seq<byte>, data: seq<byte>)
    ensures IsPlain(plain) && HasData(data) && data[40] == 1
  {
    var h, g := MakeHeaders();
    plain := MakeFile(h, []);
    data := MakeFile(g, [1, 1, 1, 1]);
    assert data[40] == data[40..][0];
  }

  function TableOver(fs: seq<int32>): Table
    requires |fs| < 256
  {
    seq(|fs|, i requires 0 <= i < |fs| => TranslationEntry(i, fs[i], true, false, false, false))
  }

  lemma {:induction false} DistinctFit(clear: set<nat>, fs: seq<int>)
    requires forall i | 0 <= i < |fs| :: fs[i] in clear
    requires forall i, j | 0 <= i < j < |fs| :: fs[i] < fs[j]
    ensures |fs| <= |clear|
  {
    if fs != [] {
      var n := |fs| - 1;
      DistinctFit(clear - {fs[n]}, fs[..n]);
    }
  }

  ghost function WithProgram(p: Pool, id: nat, file: seq<byte>, fs: seq<int32>): Pool
    requires IsNoff(file) && |fs| < 256
  {
    Pool(p.marked + Elems(fs), p.spaces[id := TableOver(fs)], Written(p.memory, LoaderWrites(TableOver(fs), file)))
  }

  /** A program goes into the lowest clear frames. */
  lemma Creation(p: Pool, id: nat, file: seq<byte>, fs: seq<int32>)
    requires IsNoff(file) && |fs| == PagesFor(DecodeNoff(file)) < 256 && LowestOf(ClearFrames(p), fs) && id !in p.spaces
    ensures Step(p, Create(id, file), WithProgram(p, id, file, fs))
  {
    DistinctFit(ClearFrames(p), fs);
    TableIsNew(ClearFrames(p), fs, TableOver(fs));
  }

  lemma PlainStep(p: Pool, id: nat, file: seq<byte>, fs: seq<int32>)
    requires IsPlain(file) && |fs| == 2 && LowestOf(ClearFrames(p), fs) && id !in p.spaces
    ensures Step(p, Create(id, file), Pool(p.marked + Elems(fs), p.spaces[id := TableOver(fs)], p.memory))
  {
    Creation(p, id, file, fs);
    WrittenNone(p.memory);
  }

  /** The first two programs, and the second, alone in frames 2 and 3. */
  ghost function Both(memory: seq<byte>): Pool
  {
    Pool({0, 1, 2, 3}, map[0 := TableOver([0, 1]), 1 := TableOver([2, 3])], memory)
  }

  ghost function First(memory: seq<byte>): Pool
  {
    Pool({0, 1}, map[0 := TableOver([0, 1])], memory)
  }

  ghost function Alone(memory: seq<byte>): Pool
  {
    Pool({2, 3}, map[1 := TableOver([2, 3])], memory)
  }

  lemma FirstStep(memory: seq<byte>, file: seq<byte>)
    requires IsPlain(file)
    ensures Step(Pool({}, map[], memory), Create(0, file), First(memory))
  {
    var start := Pool({}, map[], memory);
    PlainStep(start, 0, file, [0, 1]);
    assert start.marked + Elems([0, 1]) == {0, 1};
  }

  lemma SecondStep(memory: seq<byte>, file: seq<byte>)
    requires IsPlain(file)
    ensures Step(First(memory), Create(1, file), Both(memory))
  {
    PlainStep(First(memory), 1, file, [2, 3]);
    assert First(memory).marked + Elems([2, 3]) == {0, 1, 2, 3};
  }

  lemma ThirdStep(memory: seq<byte>)
    ensures Step(Both(memory), Destroy(0), Alone(memory))
  {
    var p := Both(memory);
    assert FrameList(TableOver([0, 1])) == [0, 1];
    assert p.marked - Frames(p.spaces[0]) == {2, 3};
    assert p.spaces - {0} == map[1 := TableOver([2, 3])];
  }

  lemma FirstThree(memory: seq<byte>, file: seq<byte>) returns (ps: seq<Pool>, es: seq<Event>)
    requires IsPlain(file)
    ensures Leads(Pool({}, map[], memory), es, ps, Alone(memory)) && |es| == 3
  {
    FirstStep(memory, file);
    SecondStep(memory, file);
    ThirdStep(memory);
    es := [Create(0, file), Create(1, file), Destroy(0)];
    ps := [Pool({}, map[], memory), First(memory), Both(memory), Alone(memory)];
  }

  /** The third program's data go to address 1024 of the memory, where the second program's first byte is. */
  lemma SpillByte(file: seq<byte>, b: byte)
    requires HasData(file)
    ensures LastByte(LoaderWrites(TableOver([0, 1, 4]), file), 1024, b) == file[40]
  {
    var table, seg := TableOver([0, 1, 4]), DecodeNoff(file).initData;
    var first, rest := PageWrite(table, seg, file, 0), [PageWrite(table, seg, file, 1), PageWrite(table, seg, file, 2)];
    assert LoaderWrites(table, file) == [first] + rest;
    LastByteAppend([first], rest, 1024, b);
    OneWrite(first, 1024, b);
    MissedByte(rest, 1024, LastByte([first], 1024, b));
  }

  lemma DataSpills(memory: seq<byte>, file: seq<byte>) returns (q: Pool)
    requires IsMemory(memory) && HasData(file) && memory[1024] != file[40]
    ensures Step(Alone(memory), Create(2, file), q) && 2 in q.spaces && |q.spaces[2]| == 3
    ensures !SameView(Alone(memory), q, 1)
  {
    var p := Alone(memory);
    q := WithProgram(p, 2, file, [0, 1, 4]);
    Creation(p, 2, file, [0, 1, 4]);
    SpillByte(file, memory[1024]);
    FirstByteSeen(p, q, 1);
  }

  /** A program in frames 2 and 3 sees a change of the byte at 1024. */
  lemma FirstByteSeen(p: Pool, q: Pool, id: nat)
    requires id in p.spaces && p.spaces[id] == TableOver([2, 3]) && id in q.spaces && q.spaces[id] == p.spaces[id]
    requires IsMemory(p.memory) && IsMemory(q.memory) && p.memory[1024] != q.memory[1024]
    ensures !SameView(p, q, id)
  {
    assert PhysAddr(p.spaces[id], 0) == 1024;
    assert ByteAt(p.memory, p.spaces[id], 0) != ByteAt(q.memory, q.spaces[id], 0);
  }

  /** From an empty machine with a memory of zeros, a program sees a change that another's creation makes. */
  lemma LoadedOver() returns (ps: seq<Pool>, es: seq<Event>)
    ensures IsRun(ps, es) && |es| == 4 && ps[0] == Pool({}, map[], seq(65536, _ => 0))
    ensures Creates(ps[3], es[3]) && es[3].id != 1 && 1 in ps[3].spaces && !SameView(ps[3], ps[4], 1)
    ensures HasData(es[3].file) && es[3].id in ps[4].spaces && |ps[4].spaces[es[3].id]| == 3
  {
    var memory := seq(65536, _ => 0);
    var plain, data := MakeFiles();
    ps, es := FirstThree(memory, plain);
    var q := DataSpills(memory, data);
    ChainThen(ps, es, PoolStep(), Create(2, data), q);
    ps, es := ps + [q], es + [Create(2, data)];
  }
}
