/**
 Whole runs of the file system: any sequence of creations, removals and writes
 refines a map from names to contents together with a count of free sectors.
 */
module FileSystemRuns {
  import opened Chains
  import opened Words
  import opened BitMaps
  import opened SynchDisks
  import opened FileHeaders
  import opened OpenFiles
  import opened Directories
  import opened Volumes
  import opened VolumeSteps
  import opened FileSystems

  datatype FileOp =
    | CreateOp(name: seq<byte>, size: int)
    | RemoveOp(name: seq<byte>)
    | WriteOp(name: seq<byte>, position: nat, data: seq<byte>)

  /** The data that a write of `data` at `position` transfers to a file of `length` bytes. */
  function Clipped(length: nat, position: nat, data: seq<byte>): seq<byte>
  {
    data[..Clip(length, |data|, position)]
  }

  /** What one operation does to a consistent disk, failures included. */
  ghost predicate Step(d: Disk, op: FileOp, d': Disk)
    requires Consistent(d)
  {
    var key := KeyOf(op.name);
    match op
    case CreateOp(_, size) =>
      if CanCreate(d, key, size) then exists s, h :: Created(d, d', key, size, s, h) else d' == d
    case RemoveOp(_) =>
      if key in Files(d) then RemoveTo(d, d', key) else d' == d
    case WriteOp(_, position, data) =>
      if key in Files(d) then WriteTo(d, d', key, position, Clipped(|Files(d)[key]|, position, data)) else d' == d
  }

  // ----------------------------------------------- the abstract machine

  datatype Store = Store(files: map<Key, seq<byte>>, free: nat)

  ghost function StoreOf(d: Disk): Store
    requires Consistent(d)
  {
    Store(Files(d), |FreeSectors(d)|)
  }

  /** The sectors a file of `length` bytes takes, its header included. */
  function Cost(length: int): int
  {
    1 + Max(0, SectorsFor(length))
  }

  ghost predicate AbstractStep(a: Store, op: FileOp, a': Store)
  {
    var key := KeyOf(op.name);
    match op
    case CreateOp(_, size) =>
      if key !in a.files && |a.files| < NUM_DIR_ENTRIES && Cost(size) <= a.free then
        && key in a'.files && |a'.files[key]| == Max(0, size)
        && a'.files == a.files[key := a'.files[key]]
        && a'.free == a.free - Cost(size)
      else a' == a
    case RemoveOp(_) =>
      if key in a.files then a'.files == a.files - {key} && a'.free == a.free + Cost(|a.files[key]|) else a' == a
    case WriteOp(_, position, data) =>
      if key in a.files then
        && key in a'.files && a'.files == a.files[key := a'.files[key]]
        && Overwritten(a.files[key], position, data, a'.files[key])
        && a'.free == a.free
      else a' == a
  }

  // ------------------------------------------------- counting the sectors

  lemma {:induction false} ElemsCount(ss: seq<int>)
    requires forall i | 0 <= i < |ss| :: ss[i] >= 0
    requires forall i, j | 0 <= i < j < |ss| :: ss[i] != ss[j]
    ensures |Elems(ss)| == |ss|
  {
    if ss != [] {
      var n := |ss| - 1;
      ElemsCount(ss[..n]);
      assert ss == ss[..n] + [ss[n]];
      ElemsAppend(ss[..n], ss[n]);
    }
  }

  lemma SpaceCount(n: Inode)
    requires GoodInode(n)
    ensures |Space(n)| == 1 + |Blocks(n.hdr)|
  {
    ElemsCount(Blocks(n.hdr));
  }

  lemma JustCoversUnique(k: int, size: int)
    requires JustCovers(k, size)
    ensures Max(0, k) == Max(0, SectorsFor(size)) == Max(0, SectorsFor(Max(0, size)))
  {
    SectorsForCovers(size);
    SectorsForCovers(Max(0, size));
  }

  /** The free sectors are counted by the marked ones. */
  lemma FreeCount(d: Disk)
    requires Readable(d)
    ensures |MarkedSectors(d)| + |FreeSectors(d)| == NUM_SECTORS
  {
    MarkedCount(MapWords(d), NUM_SECTORS);
  }

  // ---------------------------------------------------------- refinement

  lemma CreateCount(d: Disk, d': Disk, key: Key, s: nat, h: Header)
    requires CreateTo(d, d', key, s, h)
    ensures Readable(d') && |FreeSectors(d')| == |FreeSectors(d)| - Cost(h.numBytes)
  {
    SystemStepReads(d, d', {s}, MarkedSectors(d) + Space(Inode(s, h)), Dir(d)[key := s]);
    FreeCount(d);
    FreeCount(d');
    SpaceCount(Inode(s, h));
    JustCoversUnique(h.numSectors, h.numBytes);
  }

  lemma RemoveCount(d: Disk, d': Disk, key: Key)
    requires RemoveTo(d, d', key)
    ensures key in Files(d) && Readable(d') && |FreeSectors(d')| == |FreeSectors(d)| + Cost(|Files(d)[key]|)
  {
    SystemStepReads(d, d', {}, MarkedSectors(d) - SpaceOf(d, key), Dir(d) - {key});
    FreeCount(d);
    FreeCount(d');
    ListedInode(d, key);
    var h := HeaderOfFile(d, key);
    SpaceCount(Inode(Dir(d)[key], h));
    JustCoversUnique(h.numSectors, h.numBytes);
  }

  lemma StepRefines(d: Disk, op: FileOp, d': Disk)
    requires Consistent(d) && Step(d, op, d')
    ensures Consistent(d') && AbstractStep(StoreOf(d), op, StoreOf(d'))
  {
    var key := KeyOf(op.name);
    match op
    case CreateOp(_, size) =>
      if CanCreate(d, key, size) {
        var s, h :| Created(d, d', key, size, s, h);
        CreateKeeps(d, d', key, s, h);
        CreateCount(d, d', key, s, h);
      }
    case RemoveOp(_) =>
      if key in Files(d) {
        RemoveKeeps(d, d', key);
        RemoveCount(d, d', key);
      }
    case WriteOp(_, position, data) =>
      if key in Files(d) {
        WriteRefines(d, d', key, position, data);
      }
  }

  lemma WriteRefines(d: Disk, d': Disk, key: Key, position: nat, data: seq<byte>)
    requires Consistent(d) && key in Files(d)
    requires WriteTo(d, d', key, position, Clipped(|Files(d)[key]|, position, data))
    ensures Consistent(d') && |FreeSectors(d')| == |FreeSectors(d)|
    ensures key in Files(d') && Files(d') == Files(d)[key := Files(d')[key]]
    ensures Overwritten(Files(d)[key], position, data, Files(d')[key])
  {
    var file := Files(d)[key];
    WriteKeeps(d, d', key, position, Clipped(|file|, position, data));
    SpliceOverwrites(file, position, data, Clip(|file|, |data|, position));
  }

  /** The step an operation takes, which says nothing unless the disk is consistent. */
  ghost predicate StepFrom(d: Disk, op: FileOp, d': Disk)
  {
    Consistent(d) ==> Step(d, op, d')
  }

  ghost function FileStep(): Relation<Disk, FileOp>
  {
    (d: Disk, op: FileOp, d': Disk) => StepFrom(d, op, d')
  }

  /** The disks of a run follow one another by the operations `ops`. */
  ghost predicate IsRun(ds: seq<Disk>, ops: seq<FileOp>)
  {
    IsChain(ds, ops, FileStep())
  }

  ghost function StoreStep(): Relation<Store, FileOp>
  {
    (a: Store, op: FileOp, a': Store) => AbstractStep(a, op, a')
  }

  ghost predicate IsAbstractRun(ss: seq<Store>, ops: seq<FileOp>)
  {
    IsChain(ss, ops, StoreStep())
  }

  /** What a disk stands for, if it is consistent. */
  ghost function StoreAt(d: Disk): Store
  {
    if Consistent(d) then StoreOf(d) else Store(map[], 0)
  }

  lemma StepFromRefines(d: Disk, op: FileOp, d': Disk)
    requires Consistent(d) && StepFrom(d, op, d')
    ensures Consistent(d') && AbstractStep(StoreAt(d), op, StoreAt(d'))
  {
    StepRefines(d, op, d');
  }

  /** `step` keeps disks consistent, and is a step of the abstract machine. */
  ghost predicate Refines(step: Relation<Disk, FileOp>, good: Disk -> bool, value: Disk -> Store)
  {
    forall d, op, d' | good(d) && step(d, op, d') :: good(d') && StoreStep()(value(d), op, value(d'))
  }

  lemma FileStepRefines()
    ensures Refines(FileStep(), d => Consistent(d), StoreAt)
  {
    forall d, op, d' | Consistent(d) && FileStep()(d, op, d')
      ensures Consistent(d') && StoreStep()(StoreAt(d), op, StoreAt(d'))
    {
      StepFromRefines(d, op, d');
    }
  }

  /** The stores of a run: what its disks stand for. */
  ghost function Stores(ds: seq<Disk>, value: Disk -> Store): (ss: seq<Store>)
    ensures |ss| == |ds| && forall i | 0 <= i < |ds| :: ss[i] == value(ds[i])
  {
    seq(|ds|, i requires 0 <= i < |ds| => value(ds[i]))
  }

  lemma ChainRefines(ds: seq<Disk>, ops: seq<FileOp>, step: Relation<Disk, FileOp>, good: Disk -> bool,
                     value: Disk -> Store)
    requires IsChain(ds, ops, step) && good(ds[0]) && Refines(step, good, value)
    ensures IsAbstractRun(Stores(ds, value), ops) && forall i | 0 <= i < |ds| :: good(ds[i])
  {
    forall i | 0 <= i < |ds|
      ensures good(ds[i])
    {
      ChainKeeps(ds, ops, i, step, good);
    }
  }

  /**
   Every disk that a run reaches from a consistent one is consistent, and the run is a run of
   the abstract machine on what its disks stand for.
   */
  lemma RunRefines(ds: seq<Disk>, ops: seq<FileOp>)
    requires IsRun(ds, ops) && Consistent(ds[0])
    ensures IsAbstractRun(Stores(ds, StoreAt), ops) && forall i | 0 <= i < |ds| :: Consistent(ds[i])
  {
    FileStepRefines();
    ChainRefines(ds, ops, FileStep(), d => Consistent(d), StoreAt);
  }

  // ------------------------------------------------ the code takes such steps

  /** A size that a header has room for. */
  ghost predicate Fits(op: FileOp)
  {
    op.CreateOp? ==> -0x8000_0000 <= op.size < 0x8000_0000 && SectorsFor(op.size) <= NUM_DIRECT
  }

  method WriteFile(fs: FileSystem, name: seq<byte>, position: nat, data: seq<byte>)
    requires fs.Valid()
    modifies fs.disk
    ensures fs.Valid() && Step(old(fs.disk.sectors), WriteOp(name, position, data), fs.disk.sectors)
  {
    var file := fs.Open(name);
    if file != null {
      WriteOpened(fs, file, name, position, data);
    }
  }

  method WriteOpened(fs: FileSystem, file: OpenFile, ghost name: seq<byte>, position: nat, data: seq<byte>)
    requires fs.Valid() && file.disk == fs.disk && file.Valid() && KeyOf(name) in Dir(fs.disk.sectors)
    requires file.hdr.Value() == HeaderOfFile(fs.disk.sectors, KeyOf(name))
    modifies fs.disk
    ensures fs.Valid() && Step(old(fs.disk.sectors), WriteOp(name, position, data), fs.disk.sectors)
  {
    ghost var d, h := fs.disk.sectors, file.hdr.Value();
    WriteThrough(file, position, data);
    WriteIsStep(d, fs.disk.sectors, h, name, position, data);
  }

  /** What a write through a handle does to the disk. */
  method WriteThrough(file: OpenFile, position: nat, data: seq<byte>)
    requires file.Valid()
    modifies file.disk
    ensures file.Valid()
    ensures var d, d', h := old(file.disk.sectors), file.disk.sectors, file.hdr.Value();
            && OnlyBlocksChange(d, d', h)
            && FileBytes(d', h) == Splice(FileBytes(d, h), position, data[..Clip(h.numBytes, |data|, position)])
  {
    var _ := file.WriteAt(data, |data|, position);
  }

  lemma WriteIsStep(d: Disk, d': Disk, h: Header, name: seq<byte>, position: nat, data: seq<byte>)
    requires IsDisk(d) && IsDisk(d') && GoodHeader(h) && OnlyBlocksChange(d, d', h)
    requires FileBytes(d', h) == Splice(FileBytes(d, h), position, data[..Clip(h.numBytes, |data|, position)])
    requires Consistent(d) && KeyOf(name) in Dir(d) && h == HeaderOfFile(d, KeyOf(name))
    ensures Step(d, WriteOp(name, position, data), d')
    ensures Consistent(d') && MapHeader(d') == MapHeader(d) && DirHeader(d') == DirHeader(d)
  {
    var key := KeyOf(name);
    assert WriteTo(d, d', key, position, Clipped(|Files(d)[key]|, position, data));
    WriteKeeps(d, d', key, position, Clipped(|Files(d)[key]|, position, data));
  }

  method Perform(fs: FileSystem, op: FileOp)
    requires fs.Valid() && Fits(op)
    modifies fs.disk
    ensures fs.Valid() && Step(old(fs.disk.sectors), op, fs.disk.sectors)
  {
    match op
    case CreateOp(name, size) => var _ := fs.Create(name, size);
    case RemoveOp(name) => var _ := fs.Remove(name);
    case WriteOp(name, position, data) => WriteFile(fs, name, position, data);
  }

  /** One more operation of a run. */
  method PerformNext(fs: FileSystem, op: FileOp, ghost ds: seq<Disk>, ghost ops: seq<FileOp>)
    returns (ghost es: seq<Disk>)
    requires fs.Valid() && Fits(op) && IsRun(ds, ops) && ds[|ops|] == fs.disk.sectors
    modifies fs.disk
    ensures fs.Valid() && IsRun(es, ops + [op]) && es[0] == ds[0] && es[|ops| + 1] == fs.disk.sectors
  {
    Perform(fs, op);
    RunThen(ds, ops, op, fs.disk.sectors);
    es := ds + [fs.disk.sectors];
  }

  lemma RunThen(ds: seq<Disk>, ops: seq<FileOp>, op: FileOp, d': Disk)
    requires IsRun(ds, ops) && StepFrom(ds[|ops|], op, d')
    ensures IsRun(ds + [d'], ops + [op])
  {
    ChainThen(ds, ops, FileStep(), op, d');
  }

  /** Any sequence of operations, as the file system runs them, is such a run. */
  method RunAll(fs: FileSystem, ops: seq<FileOp>) returns (ghost ds: seq<Disk>)
    requires fs.Valid() && forall i | 0 <= i < |ops| :: Fits(ops[i])
    modifies fs.disk
    ensures fs.Valid() && IsRun(ds, ops) && ds[0] == old(fs.disk.sectors) && ds[|ops|] == fs.disk.sectors
    decreases |ops|
  {
    if ops == [] {
      ds := [fs.disk.sectors];
    } else {
      var n := |ops| - 1;
      assert ops[..n] + [ops[n]] == ops;
      ds := RunAll(fs, ops[..n]);
      ds := PerformNext(fs, ops[n], ds, ops[..n]);
    }
  }

  /** So the code refines the abstract machine. */
  method PerformAll(fs: FileSystem, ops: seq<FileOp>) returns (ghost ss: seq<Store>)
    requires fs.Valid() && forall i | 0 <= i < |ops| :: Fits(ops[i])
    modifies fs.disk
    ensures fs.Valid() && IsAbstractRun(ss, ops)
    ensures ss[0] == StoreOf(old(fs.disk.sectors)) && ss[|ops|] == StoreOf(fs.disk.sectors)
  {
    ghost var ds := RunAll(fs, ops);
    RunRefines(ds, ops);
    ss := Stores(ds, StoreAt);
  }

  /** Nothing is kept but on the disk: a restart between two runs goes unnoticed. */
  method PerformAcrossRestart(fs: FileSystem, ops: seq<FileOp>, more: seq<FileOp>)
    returns (restarted: FileSystem, ghost ss: seq<Store>)
    requires fs.Valid() && (forall i | 0 <= i < |ops| :: Fits(ops[i])) && forall i | 0 <= i < |more| :: Fits(more[i])
    modifies fs.disk
    ensures restarted.Valid() && restarted.disk == fs.disk && IsAbstractRun(ss, ops + more)
    ensures ss[0] == StoreOf(old(fs.disk.sectors)) && ss[|ops| + |more|] == StoreOf(fs.disk.sectors)
  {
    ghost var ds := RunAll(fs, ops);
    restarted := new FileSystem.OnFormatted(fs.disk);
    ghost var rest := RunAll(restarted, more);
    ss := JoinedRun(ds, ops, rest, more);
  }

  lemma JoinedRun(ds: seq<Disk>, ops: seq<FileOp>, rest: seq<Disk>, more: seq<FileOp>) returns (ss: seq<Store>)
    requires IsRun(ds, ops) && IsRun(rest, more) && rest[0] == ds[|ops|] && Consistent(ds[0])
    ensures IsAbstractRun(ss, ops + more) && Consistent(rest[|more|])
    ensures ss[0] == StoreOf(ds[0]) && ss[|ops| + |more|] == StoreOf(rest[|more|])
  {
    ChainAppend(ds, ops, rest, more, FileStep());
    var all := ds + rest[1..];
    assert all[|ops| + |more|] == rest[|more|];
    RunRefines(all, ops + more);
    ss := Stores(all, StoreAt);
  }

  // ------------------------------------------------ create, then remove

  /** The sectors of a newly created file. */
  lemma CreatedSpace(d: Disk, d1: Disk, key: Key, s: nat, h: Header)
    requires CreateTo(d, d1, key, s, h)
    ensures Consistent(d1) && key in Dir(d1) && SpaceOf(d1, key) == Space(Inode(s, h))
    ensures MarkedSectors(d1) == MarkedSectors(d) + Space(Inode(s, h))
  {
    CreateKeeps(d, d1, key, s, h);
    SystemStepReads(d, d1, {s}, MarkedSectors(d) + Space(Inode(s, h)), Dir(d)[key := s]);
    DecodeEncodeHeader(h);
  }

  /** Creating a file and removing it again restores the map on the disk word for word, and the files. */
  lemma CreateRemoveRestores(d: Disk, d1: Disk, d2: Disk, key: Key, s: nat, h: Header)
    requires CreateTo(d, d1, key, s, h) && RemoveTo(d1, d2, key)
    ensures Consistent(d2) && MapWords(d2) == MapWords(d) && Files(d2) == Files(d)
  {
    CreatedSpace(d, d1, key, s, h);
    RemovedMarks(d1, d2, key);
    SameMap(d, d2);
    CreateKeeps(d, d1, key, s, h);
    RestoredFiles(Files(d), key, FileBytes(d, h));
  }

  lemma RemovedMarks(d: Disk, d': Disk, key: Key)
    requires RemoveTo(d, d', key)
    ensures Consistent(d') && MarkedSectors(d') == MarkedSectors(d) - SpaceOf(d, key)
    ensures Files(d') == Files(d) - {key}
  {
    RemoveKeeps(d, d', key);
    SystemStepReads(d, d', {}, MarkedSectors(d) - SpaceOf(d, key), Dir(d) - {key});
  }

  lemma SameMap(d: Disk, d': Disk)
    requires Readable(d) && Readable(d') && MarkedSectors(d') == MarkedSectors(d)
    ensures MapWords(d') == MapWords(d)
  {
    MarkedDetermines(MapWords(d'), MapWords(d));
  }

  lemma RestoredFiles(files: map<Key, seq<byte>>, key: Key, b: seq<byte>)
    requires key !in files
    ensures files[key := b] - {key} == files
  {
  }

  // -------------------------------------------------------- open handles

  /** A handle opened under `key` on `d` is as good on `d'`. */
  ghost predicate SameHandle(d: Disk, d': Disk, key: Key)
    requires Consistent(d) && key in Dir(d)
  {
    && Readable(d') && key in Dir(d') && Dir(d')[key] == Dir(d)[key]
    && HeadersOf(d')[Dir(d)[key]] == HeaderOfFile(d, key)
  }

  lemma SystemKeepsHeader(d: Disk, hs: Headers, d': Disk, hs': Headers, unused: set<nat>, dir: map<Key, int>, key: Key)
    requires SystemUpdate(d, hs, d', hs', unused)
    requires InRange(dir) && Exclusive(LayoutFor(hs, dir)) && unused !! Covered(LayoutFor(hs, dir))
    requires key in dir
    ensures hs'[dir[key]] == hs[dir[key]]
  {
    SystemFrame(hs, dir, unused, Named(key));
  }

  lemma SystemStepKeepsHandle(d: Disk, d': Disk, unused: set<nat>, marked: set<nat>, dir: map<Key, int>, key: Key)
    requires Consistent(d) && IsDisk(d') && SystemStep(d, d', unused, marked, dir)
    requires key in Dir(d) && key in dir && dir[key] == Dir(d)[key]
    ensures SameHandle(d, d', key)
  {
    SystemStepReads(d, d', unused, marked, dir);
    SystemKeepsHeader(d, HeadersOf(d), d', HeadersOf(d'), unused, Dir(d), key);
  }

  lemma WriteKeepsEntries(d: Disk, d': Disk, name: Key, position: nat, data: seq<byte>)
    requires WriteTo(d, d', name, position, data)
    ensures Readable(d') && Dir(d') == Dir(d)
  {
    WriteKeeps(d, d', name, position, data);
  }

  lemma WriteKeepsHandle(d: Disk, d': Disk, name: Key, position: nat, data: seq<byte>, key: Key)
    requires WriteTo(d, d', name, position, data) && key in Dir(d)
    ensures SameHandle(d, d', key)
  {
    WriteKeepsEntries(d, d', name, position, data);
    WriteKeepsHeaderOf(d, d', name, key);
  }

  lemma WriteKeepsHeaderOf(d: Disk, d': Disk, name: Key, key: Key)
    requires Consistent(d) && IsDisk(d') && name in Dir(d) && key in Dir(d)
    requires OnlyBlocksChange(d, d', HeaderOfFile(d, name))
    ensures HeadersOf(d')[Dir(d)[key]] == HeaderOfFile(d, key)
  {
    HeadersAgree(d, d', Elems(Blocks(HeaderOfFile(d, name))));
    WriteKeepsHeader(HeadersOf(d), HeadersOf(d'), Dir(d), name, key);
  }

  lemma WriteKeepsHeader(hs: Headers, hs': Headers, dir: map<Key, int>, name: Key, key: Key)
    requires InRange(dir) && Exclusive(LayoutFor(hs, dir)) && name in dir && key in dir && GoodHeader(hs[dir[name]])
    requires AgreeOutside(hs, hs', Elems(Blocks(hs[dir[name]])))
    ensures hs'[dir[key]] == hs[dir[key]]
  {
    WriteFrame(hs, dir, name, Named(key));
  }

  lemma CreateKeepsHandle(d: Disk, d': Disk, name: Key, s: nat, h: Header, key: Key)
    requires CreateTo(d, d', name, s, h) && key in Dir(d)
    ensures SameHandle(d, d', key)
  {
    SystemStepKeepsHandle(d, d', {s}, MarkedSectors(d) + Space(Inode(s, h)), Dir(d)[name := s], key);
  }

  lemma RemoveKeepsHandle(d: Disk, d': Disk, name: Key, key: Key)
    requires RemoveTo(d, d', name) && key in Dir(d) && key != name
    ensures SameHandle(d, d', key)
  {
    SystemStepKeepsHandle(d, d', {}, MarkedSectors(d) - SpaceOf(d, name), Dir(d) - {name}, key);
  }

  /** A file that is open stays where it is: no step but its removal changes its header. */
  lemma HandleSurvives(d: Disk, op: FileOp, d': Disk, key: Key)
    requires Consistent(d) && Step(d, op, d') && key in Dir(d)
    requires op.RemoveOp? ==> KeyOf(op.name) != key
    ensures SameHandle(d, d', key)
  {
    var name := KeyOf(op.name);
    match op
    case CreateOp(_, size) =>
      if CanCreate(d, name, size) {
        var s, h :| Created(d, d', name, size, s, h);
        CreateKeepsHandle(d, d', name, s, h, key);
      }
    case RemoveOp(_) =>
      if name in Files(d) {
        RemoveKeepsHandle(d, d', name, key);
      }
    case WriteOp(_, position, data) =>
      if name in Files(d) {
        WriteKeepsHandle(d, d', name, position, Clipped(|Files(d)[name]|, position, data), key);
      }
  }

  /** No operation removes the file `key`. */
  ghost predicate Spares(ops: seq<FileOp>, key: Key)
  {
    forall i | 0 <= i < |ops| && ops[i].RemoveOp? :: KeyOf(ops[i].name) != key
  }

  lemma SameHandleTwice(d: Disk, m: Disk, d': Disk, key: Key)
    requires Consistent(d) && key in Dir(d) && SameHandle(d, m, key)
    requires Consistent(m) && key in Dir(m) && SameHandle(m, d', key)
    ensures SameHandle(d, d', key)
  {
  }

  lemma HandleStep(d: Disk, m: Disk, op: FileOp, d': Disk, key: Key)
    requires Consistent(d) && key in Dir(d) && Consistent(m) && SameHandle(d, m, key) && StepFrom(m, op, d')
    requires op.RemoveOp? ==> KeyOf(op.name) != key
    ensures Consistent(d') && SameHandle(d, d', key)
  {
    StepFromRefines(m, op, d');
    HandleSurvives(m, op, d', key);
    SameHandleTwice(d, m, d', key);
  }

  ghost predicate Held(d: Disk, d': Disk, key: Key)
  {
    Consistent(d) && key in Dir(d) && Consistent(d') && SameHandle(d, d', key)
  }

  lemma HeldThroughout(d: Disk, ops: seq<FileOp>, key: Key)
    requires Spares(ops, key)
    ensures forall m, op, d' | op in ops && Held(d, m, key) && FileStep()(m, op, d') :: Held(d, d', key)
  {
    forall m, op, d' | op in ops && Held(d, m, key) && FileStep()(m, op, d')
      ensures Held(d, d', key)
    {
      HandleStep(d, m, op, d', key);
    }
  }

  /** Over every run that does not remove it, an open file stays where it is. */
  lemma HandleSurvivesRun(ds: seq<Disk>, ops: seq<FileOp>, k: nat, key: Key)
    requires IsRun(ds, ops) && k < |ds| && Consistent(ds[0]) && key in Dir(ds[0]) && Spares(ops, key)
    ensures Held(ds[0], ds[k], key)
  {
    var d := ds[0];
    HeldThroughout(d, ops, key);
    ChainKeeps(ds, ops, k, FileStep(), m => Held(d, m, key));
  }

  /** So the handle still shows the contents of the file. */
  lemma SameHandleShows(d: Disk, d': Disk, key: Key)
    requires Consistent(d) && key in Dir(d) && Consistent(d') && SameHandle(d, d', key)
    ensures HeaderOfFile(d', key) == HeaderOfFile(d, key) && Files(d')[key] == FileBytes(d', HeaderOfFile(d, key))
  {
  }

  /** A file is opened, anything but its removal happens, and a write through the handle is a write to the file. */
  method WriteHeld(fs: FileSystem, name: seq<byte>, ops: seq<FileOp>, position: nat, data: seq<byte>)
    returns (ghost ds: seq<Disk>)
    requires fs.Valid() && forall i | 0 <= i < |ops| :: Fits(ops[i])
    requires KeyOf(name) in Files(fs.disk.sectors) && Spares(ops, KeyOf(name))
    modifies fs.disk
    ensures fs.Valid() && IsRun(ds, ops + [WriteOp(name, position, data)])
    ensures ds[0] == old(fs.disk.sectors) && ds[|ops| + 1] == fs.disk.sectors
  {
    var file := fs.Open(name);
    ds := RunAll(fs, ops);
    HandleSurvivesRun(ds, ops, |ops|, KeyOf(name));
    SameHandleShows(ds[0], ds[|ops|], KeyOf(name));
    WriteOpened(fs, file, name, position, data);
    RunThen(ds, ops, WriteOp(name, position, data), fs.disk.sectors);
    ds := ds + [fs.disk.sectors];
  }
}
