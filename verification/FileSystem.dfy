/**
 The file system (filesys/filesys): formatting a disk, and creating, opening and
 removing files. The free map and the directory are files on the same disk; each
 operation reads them into memory, changes them there, and writes them back only
 if it succeeds.
 */
module FileSystems {
  import opened Words
  import opened BitMaps
  import opened SynchDisks
  import opened FileHeaders
  import opened OpenFiles
  import opened Directories
  import opened Volumes
  import opened VolumeSteps

  // ------------------------------------------------ the operations' effect

  /** What `Create` checks: a new name, a free directory entry, and room for the header and the data. */
  ghost predicate CanCreate(d: Disk, key: Key, size: int)
    requires Consistent(d)
  {
    && key !in Files(d)
    && |Files(d)| < NUM_DIR_ENTRIES
    && 1 + Max(0, SectorsFor(size)) <= |FreeSectors(d)|
  }

  lemma CanCreateWhen(d: Disk, key: Key, size: int)
    requires Consistent(d)
    ensures CanCreate(d, key, size) <==>
            key !in Dir(d) && |Dir(d)| < NUM_DIR_ENTRIES && 1 + Max(0, SectorsFor(size)) <= |FreeSectors(d)|
  {
    var dir := Dir(d);
    assert FilesFor(d, HeadersOf(d), dir).Keys == dir.Keys;
  }

  /** A file of `size` bytes has been added, in the lowest free sectors. */
  ghost predicate Created(d: Disk, d': Disk, key: Key, size: int, s: nat, h: Header)
  {
    && CreateTo(d, d', key, s, h)
    && h.numBytes == size
    && LowestOf(FreeSectors(d), [s as int] + Blocks(h))
  }

  // ----------------------------------------------- stored maps, directories

  method FetchBitMap(m: BitMap, file: OpenFile)
    requires file.Valid()
    modifies m.words
    ensures var n := Clip(file.hdr.numBytes, 4 * m.words.Length, 0);
            m.words[..] == DecodeWords(file.Contents()[..n] + EncodeWords(old(m.words[..]))[n..])
  {
    var raw := ReadOver(file, EncodeWords(m.words[..]));
    SetWords(m.words, DecodeWords(raw));
  }

  /** A file as long as what is read over leaves nothing of it. */
  lemma WholeRead(contents: seq<byte>, memory: seq<byte>)
    requires |contents| == |memory|
    ensures contents[..|memory|] + memory[|memory|..] == contents
  {
  }

  method SetWords(words: array<word>, ws: seq<word>)
    requires words.Length == |ws|
    modifies words
    ensures words[..] == ws
  {
    forall i | 0 <= i < words.Length {
      words[i] := ws[i];
    }
  }

  method WriteBackBitMap(m: BitMap, file: OpenFile)
    requires file.Valid()
    modifies file.disk
    ensures file.Valid()
    ensures var n := Clip(file.hdr.numBytes, 4 * m.words.Length, 0);
            file.Contents() == Splice(old(file.Contents()), 0, EncodeWords(m.words[..])[..n])
    ensures OnlyBlocksChange(old(file.disk.sectors), file.disk.sectors, file.hdr.Value())
  {
    var _ := file.WriteAt(EncodeWords(m.words[..]), 4 * m.words.Length, 0);
  }

  lemma WholeSplice<T>(s: seq<T>, data: seq<T>)
    requires |s| == |data|
    ensures Splice(s, 0, data[..|s|]) == data
  {
    assert data[..|s|] == data;
  }

  /** Open files that hold exactly the directory and the free map. */
  ghost predicate SystemFiles(dirFile: OpenFile, mapFile: OpenFile, directory: Directory, freeMap: BitMap)
    reads dirFile.disk, dirFile.hdr, mapFile.hdr
  {
    && dirFile.disk == mapFile.disk && dirFile.disk.Valid()
    && GoodHeader(dirFile.hdr.Value()) && dirFile.hdr.numBytes == 200 && directory.table.Length == NUM_DIR_ENTRIES
    && GoodHeader(mapFile.hdr.Value()) && mapFile.hdr.numBytes == 128 && freeMap.words.Length == 32
  }

  method FlushDirectoryThenMap(dirFile: OpenFile, mapFile: OpenFile, directory: Directory, freeMap: BitMap)
    returns (ghost between: Disk)
    requires SystemFiles(dirFile, mapFile, directory, freeMap)
    modifies dirFile.disk
    ensures SystemFiles(dirFile, mapFile, directory, freeMap) && IsDisk(between)
    ensures OnlyBlocksChange(old(dirFile.disk.sectors), between, dirFile.hdr.Value())
    ensures FileBytes(between, dirFile.hdr.Value()) == EncodeTable(directory.table[..])
    ensures OnlyBlocksChange(between, dirFile.disk.sectors, mapFile.hdr.Value())
    ensures FileBytes(dirFile.disk.sectors, mapFile.hdr.Value()) == EncodeWords(freeMap.words[..])
  {
    directory.WriteBack(dirFile);
    between := dirFile.disk.sectors;
    WholeSplice(EncodeTable(directory.table[..]), EncodeTable(directory.table[..]));
    WriteBackBitMap(freeMap, mapFile);
    WholeSplice(EncodeWords(freeMap.words[..]), EncodeWords(freeMap.words[..]));
  }

  method FlushMapThenDirectory(dirFile: OpenFile, mapFile: OpenFile, directory: Directory, freeMap: BitMap)
    returns (ghost between: Disk)
    requires SystemFiles(dirFile, mapFile, directory, freeMap)
    modifies dirFile.disk
    ensures SystemFiles(dirFile, mapFile, directory, freeMap) && IsDisk(between)
    ensures OnlyBlocksChange(old(dirFile.disk.sectors), between, mapFile.hdr.Value())
    ensures FileBytes(between, mapFile.hdr.Value()) == EncodeWords(freeMap.words[..])
    ensures OnlyBlocksChange(between, dirFile.disk.sectors, dirFile.hdr.Value())
    ensures FileBytes(dirFile.disk.sectors, dirFile.hdr.Value()) == EncodeTable(directory.table[..])
  {
    WriteBackBitMap(freeMap, mapFile);
    between := dirFile.disk.sectors;
    WholeSplice(EncodeWords(freeMap.words[..]), EncodeWords(freeMap.words[..]));
    directory.WriteBack(dirFile);
    WholeSplice(EncodeTable(directory.table[..]), EncodeTable(directory.table[..]));
  }

  /** Two files without a common sector have been written, one after the other. */
  lemma TwoWrites(a: Disk, b: Disk, c: Disk, h: Header, g: Header)
    requires IsDisk(a) && IsDisk(b) && IsDisk(c) && GoodHeader(h) && GoodHeader(g)
    requires OnlyBlocksChange(a, b, h) && OnlyBlocksChange(b, c, g)
    requires Elems(Blocks(h)) !! Elems(Blocks(g))
    ensures AgreeOutside(a, c, Elems(Blocks(h)) + Elems(Blocks(g)))
    ensures FileBytes(c, h) == FileBytes(b, h)
  {
    SameContents(b, c, h, Elems(Blocks(g)));
  }

  lemma SystemDisjoint(hs: Headers, dir: map<Key, int>)
    requires InRange(dir) && Exclusive(LayoutFor(hs, dir))
    ensures GoodHeader(hs[FREE_MAP_SECTOR]) && GoodHeader(hs[DIRECTORY_SECTOR])
    ensures Elems(Blocks(hs[FREE_MAP_SECTOR])) !! Elems(Blocks(hs[DIRECTORY_SECTOR]))
    ensures Elems(Blocks(hs[FREE_MAP_SECTOR])) + Elems(Blocks(hs[DIRECTORY_SECTOR])) <= Covered(LayoutFor(hs, dir))
  {
    var l := LayoutFor(hs, dir);
    SystemInodes(hs, dir);
    forall x | x in Elems(Blocks(hs[FREE_MAP_SECTOR]))
      ensures x !in Elems(Blocks(hs[DIRECTORY_SECTOR])) && x in Covered(l)
    {
      UsesBounded(l, MapFile, x);
      if x in Elems(Blocks(hs[DIRECTORY_SECTOR])) {
        assert Uses(l, MapFile, x) && Uses(l, DirFile, x);
      }
    }
    forall x | x in Elems(Blocks(hs[DIRECTORY_SECTOR]))
      ensures x in Covered(l)
    {
      UsesBounded(l, DirFile, x);
    }
  }

  /** Writing back the header, the directory and the map, in this order, completes a creation. */
  lemma CommitCreate(d: Disk, d2: Disk, d3: Disk, key: Key, s: nat, h: Header, t: seq<Entry>, ws: seq<word>)
    requires Consistent(d) && key !in Dir(d)
    requires GoodInode(Inode(s, h)) && Space(Inode(s, h)) !! MarkedSectors(d)
    requires IsDisk(d2) && OnlyBlocksChange(d[s := EncodeHeader(h)], d2, DirHeader(d))
    requires IsDisk(d3) && OnlyBlocksChange(d2, d3, MapHeader(d))
    requires |t| == NUM_DIR_ENTRIES && UniqueNames(t) && DirMap(t) == Dir(d)[key := s]
    requires FileBytes(d2, DirHeader(d)) == EncodeTable(t)
    requires |ws| == 32 && Marked(ws, NUM_SECTORS) == MarkedSectors(d) + Space(Inode(s, h))
    requires FileBytes(d3, MapHeader(d)) == EncodeWords(ws)
    ensures CreateTo(d, d3, key, s, h)
  {
    assert s in Space(Inode(s, h));
    CommitBytes(d, d2, d3, HeadersOf(d), Dir(d), s, EncodeHeader(h));
    DecodeEncodeTable(t);
    DecodeEncodeWords(ws);
  }

  lemma CommitBytes(d: Disk, d2: Disk, d3: Disk, hs: Headers, dir: map<Key, int>, s: nat, b: seq<byte>)
    requires IsDisk(d) && IsDisk(d2) && IsDisk(d3) && s < NUM_SECTORS && |b| == 512
    requires InRange(dir) && Exclusive(LayoutFor(hs, dir)) && s !in Covered(LayoutFor(hs, dir))
    requires GoodHeader(hs[FREE_MAP_SECTOR]) && GoodHeader(hs[DIRECTORY_SECTOR])
    requires OnlyBlocksChange(d[s := b], d2, hs[DIRECTORY_SECTOR])
    requires OnlyBlocksChange(d2, d3, hs[FREE_MAP_SECTOR])
    ensures AgreeOutside(d, d3, SystemSpace(hs, {s})) && d3[s] == b
    ensures FileBytes(d3, hs[DIRECTORY_SECTOR]) == FileBytes(d2, hs[DIRECTORY_SECTOR])
  {
    SystemDisjoint(hs, dir);
    TwoWrites(d[s := b], d2, d3, hs[DIRECTORY_SECTOR], hs[FREE_MAP_SECTOR]);
  }

  /** Writing back the map and the directory, in this order, completes a removal. */
  lemma CommitRemove(d: Disk, d1: Disk, d2: Disk, key: Key, t: seq<Entry>, ws: seq<word>)
    requires Consistent(d) && key in Dir(d)
    requires IsDisk(d1) && OnlyBlocksChange(d, d1, MapHeader(d))
    requires IsDisk(d2) && OnlyBlocksChange(d1, d2, DirHeader(d))
    requires |ws| == 32 && Marked(ws, NUM_SECTORS) == MarkedSectors(d) - SpaceOf(d, key)
    requires FileBytes(d1, MapHeader(d)) == EncodeWords(ws)
    requires |t| == NUM_DIR_ENTRIES && UniqueNames(t) && DirMap(t) == Dir(d) - {key}
    requires FileBytes(d2, DirHeader(d)) == EncodeTable(t)
    ensures RemoveTo(d, d2, key)
  {
    SystemDisjoint(HeadersOf(d), Dir(d));
    TwoWrites(d, d1, d2, MapHeader(d), DirHeader(d));
    DecodeEncodeTable(t);
    DecodeEncodeWords(ws);
    assert AgreeOutside(d, d2, SystemSpace(HeadersOf(d), {}));
  }

  lemma LowestCons(clear: set<nat>, s: nat, ss: seq<int>)
    requires s in clear && (forall c | c in clear :: s <= c) && LowestOf(clear - {s}, ss)
    ensures s !in ss && LowestOf(clear, [s as int] + ss)
  {
    var tt := [s as int] + ss;
    forall i, c | 0 <= i < |tt| && c in clear && c !in tt
      ensures tt[i] < c
    {
      assert tt[0] == s;
      if i > 0 {
        assert c in clear - {s} && c !in ss && tt[i] == ss[i - 1];
      }
    }
  }

  /** The sectors taken for a new file make a good header. */
  lemma AllocatedInode(clear: set<nat>, s: nat, h: Header)
    requires forall c | c in clear :: c < NUM_SECTORS
    requires s in clear && (forall c | c in clear :: s <= c)
    requires |h.dataSectors| == NUM_DIRECT && h.numSectors == SectorsFor(h.numBytes) <= NUM_DIRECT
    requires LowestOf(clear - {s}, Blocks(h))
    ensures GoodInode(Inode(s, h)) && Space(Inode(s, h)) <= clear
    ensures LowestOf(clear, [s as int] + Blocks(h))
  {
    SectorsForCovers(h.numBytes);
    forall i | 0 <= i < h.numSectors
      ensures h.dataSectors[i] in clear
    {
      assert Blocks(h)[i] == h.dataSectors[i];
    }
    forall i, j | 0 <= i < j < h.numSectors
      ensures h.dataSectors[i] != h.dataSectors[j]
    {
      assert Blocks(h)[i] == h.dataSectors[i] && Blocks(h)[j] == h.dataSectors[j];
    }
    LowestCons(clear, s, Blocks(h));
  }

  /** The part of `Create` that works in memory: a header sector, a directory entry, the data sectors. */
  method PlanCreate(directory: Directory, freeMap: BitMap, name: seq<byte>, size: int32)
    returns (ok: bool, sector: nat, hdr: FileHeader)
    requires UniqueNames(directory.table[..]) && InRange(DirMap(directory.table[..]))
    requires freeMap.Valid() && freeMap.numBits == NUM_SECTORS
    requires Fits(DirMap(directory.table[..]), directory.table.Length, KeyOf(name), |freeMap.ClearBits()|, size)
             ==> SectorsFor(size) <= NUM_DIRECT
    modifies directory.table, freeMap.words
    ensures ok <==>
              old(Fits(DirMap(directory.table[..]), directory.table.Length, KeyOf(name), |freeMap.ClearBits()|, size))
    ensures ok ==>
              && fresh(hdr) && hdr.numBytes == size
              && GoodInode(Inode(sector, hdr.Value())) && Space(Inode(sector, hdr.Value())) <= old(freeMap.ClearBits())
              && LowestOf(old(freeMap.ClearBits()), [sector as int] + Blocks(hdr.Value()))
              && UniqueNames(directory.table[..])
              && DirMap(directory.table[..]) == old(DirMap(directory.table[..]))[KeyOf(name) := sector]
              && freeMap.Bits() == old(freeMap.Bits()) + Space(Inode(sector, hdr.Value()))
  {
    hdr := new FileHeader();
    sector := 0;
    SectorsForBound(size);
    ghost var clear := freeMap.ClearBits();
    MarkedOrUnmarked(freeMap.words[..], NUM_SECTORS);
    var s := ReserveEntry(directory, freeMap, name);
    if s == -1 {
      return false, sector, hdr;
    }
    sector := s;
    ok := hdr.Allocate(freeMap, size);
    if ok {
      AllocatedInode(clear, sector, hdr.Value());
      assert freeMap.Bits() == old(freeMap.Bits()) + {sector} + Elems(Blocks(hdr.Value()));
      SpaceJoined(old(freeMap.Bits()), sector, hdr.Value());
    }
  }

  lemma SpaceJoined(bits: set<nat>, s: nat, h: Header)
    requires GoodHeader(h)
    ensures bits + {s} + Elems(Blocks(h)) == bits + Space(Inode(s, h))
  {
  }

  /** A new name, a free entry, and room for the header sector and the data sectors. */
  ghost predicate Fits(dir: map<Key, int>, entries: nat, key: Key, free: nat, size: int)
  {
    key !in dir && |dir| < entries && 1 + Max(0, SectorsFor(size)) <= free
  }

  /** Takes a sector for the header of a new file and lists it, or returns -1. */
  method ReserveEntry(directory: Directory, freeMap: BitMap, name: seq<byte>) returns (sector: int)
    requires UniqueNames(directory.table[..]) && InRange(DirMap(directory.table[..]))
    requires freeMap.Valid() && freeMap.numBits == NUM_SECTORS
    modifies directory.table, freeMap.words
    ensures sector == -1 || 0 <= sector
    ensures sector >= 0 <==>
            && KeyOf(name) !in old(DirMap(directory.table[..]))
            && |old(DirMap(directory.table[..]))| < directory.table.Length
            && old(freeMap.ClearBits()) != {}
    ensures sector >= 0 ==>
              && sector in old(freeMap.ClearBits()) && (forall c | c in old(freeMap.ClearBits()) :: sector <= c)
              && freeMap.ClearBits() == old(freeMap.ClearBits()) - {sector}
              && freeMap.Bits() == old(freeMap.Bits()) + {sector}
              && UniqueNames(directory.table[..])
              && DirMap(directory.table[..]) == old(DirMap(directory.table[..]))[KeyOf(name) := sector]
  {
    var existing := directory.Find(name);
    if existing != -1 {
      return -1;
    }
    sector := freeMap.Find();
    if sector == -1 {
      return -1;
    }
    var added := directory.Add(name, sector);
    if !added {
      return -1;
    }
  }

  /** The part of `Remove` that works in memory: the file's data sectors and header sector become free. */
  method ReleaseFile(sector: nat, fileHdr: FileHeader, freeMap: BitMap)
    requires GoodInode(Inode(sector, fileHdr.Value()))
    requires freeMap.Valid() && freeMap.numBits == NUM_SECTORS
    // each data sector ought to be marked
    requires Space(Inode(sector, fileHdr.Value())) <= freeMap.Bits()
    modifies freeMap.words
    ensures freeMap.Bits() == old(freeMap.Bits()) - Space(Inode(sector, fileHdr.Value()))
  {
    forall i | 0 <= i < |Blocks(fileHdr.Value())|
      ensures Blocks(fileHdr.Value())[i] in freeMap.Bits()
    {
      assert Blocks(fileHdr.Value())[i] == fileHdr.dataSectors[i];
      assert Blocks(fileHdr.Value())[i] in Elems(Blocks(fileHdr.Value()));
    }
    fileHdr.Deallocate(freeMap);
    freeMap.Clear(sector);
  }

  /** A listed file has a good header, and its sectors are marked. */
  lemma ListedInode(d: Disk, key: Key)
    requires Consistent(d) && key in Dir(d)
    ensures 0 <= Dir(d)[key] < NUM_SECTORS && HeadersOf(d)[Dir(d)[key]] == DecodeHeader(d[Dir(d)[key]])
    ensures GoodInode(Inode(Dir(d)[key], HeadersOf(d)[Dir(d)[key]]))
    ensures SpaceOf(d, key) == Space(Inode(Dir(d)[key], HeadersOf(d)[Dir(d)[key]])) <= MarkedSectors(d)
  {
    var l := LayoutFor(HeadersOf(d), Dir(d));
    assert Named(key) in l;
    forall x | x in SpaceOf(d, key)
      ensures x in Covered(l)
    {
      UsesBounded(l, Named(key), x);
    }
  }

  /** In memory, the directory and the map are as they are to be once the file is gone. */
  ghost predicate ReadyToRemove(d: Disk, key: Key, directory: Directory, freeMap: BitMap)
    requires Consistent(d) && key in Dir(d)
    reads directory.table, freeMap.words
  {
    && directory.table.Length == NUM_DIR_ENTRIES && UniqueNames(directory.table[..])
    && DirMap(directory.table[..]) == Dir(d) - {key}
    && freeMap.Valid() && freeMap.numBits == NUM_SECTORS && freeMap.words.Length == 32
    && freeMap.Bits() == MarkedSectors(d) - SpaceOf(d, key)
  }

  /** Takes the first sectors of the disk for the two system files. */
  method PlanFormat() returns (freeMap: BitMap, mapHdr: FileHeader, dirHdr: FileHeader)
    ensures fresh(freeMap) && fresh(freeMap.words) && fresh(mapHdr) && fresh(dirHdr)
    ensures freeMap.Valid() && freeMap.numBits == NUM_SECTORS && freeMap.words.Length == 32
    ensures SystemPlan(mapHdr.Value(), dirHdr.Value(), freeMap.Bits())
  {
    freeMap := new BitMap(NUM_SECTORS);
    freeMap.Mark(FREE_MAP_SECTOR);
    freeMap.Mark(DIRECTORY_SECTOR);
    mapHdr := TakeOneSector(freeMap, 128);
    dirHdr := TakeOneSector(freeMap, 200);
    ghost var s0: nat, s1: nat := mapHdr.dataSectors[0], dirHdr.dataSectors[0];
    FourMembers(s0, s1);
    FourSectors(mapHdr.Value(), dirHdr.Value(), s0, s1, freeMap.Bits());
  }

  lemma FourMembers(s0: nat, s1: nat)
    ensures {} + {0} + {1} + {s0} + {s1} == {0, 1, s0, s1}
  {
  }

  lemma FourSectors(h0: Header, h1: Header, s0: nat, s1: nat, marked: set<nat>)
    requires GoodHeader(h0) && h0.numBytes == 128 && s0 == h0.dataSectors[0] && Elems(Blocks(h0)) == {s0}
    requires GoodHeader(h1) && h1.numBytes == 200 && s1 == h1.dataSectors[0] && Elems(Blocks(h1)) == {s1}
    requires s0 !in {0, 1} && s1 !in {0, 1, s0} && marked == {0, 1, s0, s1}
    ensures SystemPlan(h0, h1, marked)
  {
    SystemInode(FREE_MAP_SECTOR, h0, s0);
    SystemInode(DIRECTORY_SECTOR, h1, s1);
  }

  lemma SystemInode(sector: nat, h: Header, s: nat)
    requires sector < NUM_SECTORS && GoodHeader(h) && 0 < h.numBytes <= 512
    requires s == h.dataSectors[0] && Elems(Blocks(h)) == {s} && s != sector
    ensures GoodInode(Inode(sector, h)) && Space(Inode(sector, h)) == {sector, s}
  {
    assert Blocks(h) == [h.dataSectors[0]];
  }

  /** Allocates the one sector of a small file; there is room as long as few sectors are marked. */
  method TakeOneSector(freeMap: BitMap, size: int32) returns (hdr: FileHeader)
    requires freeMap.Valid() && freeMap.numBits == NUM_SECTORS && |freeMap.Bits()| < NUM_SECTORS
    requires 0 < size <= 512
    modifies freeMap.words
    ensures fresh(hdr) && hdr.numBytes == size && GoodHeader(hdr.Value())
    ensures Elems(Blocks(hdr.Value())) == {hdr.dataSectors[0] as int} && hdr.dataSectors[0] !in old(freeMap.Bits())
    ensures freeMap.Bits() == old(freeMap.Bits()) + {hdr.dataSectors[0]}
  {
    hdr := new FileHeader();
    MarkedCount(freeMap.words[..], NUM_SECTORS);
    MarkedOrUnmarked(freeMap.words[..], NUM_SECTORS);
    ghost var clear := freeMap.ClearBits();
    var ok := hdr.Allocate(freeMap, size);
    assert ok;
    OneSector(clear, hdr.Value());
  }

  /** The headers of the two system files, and the sectors marked for them. */
  ghost predicate SystemPlan(h0: Header, h1: Header, marked: set<nat>)
  {
    && GoodInode(Inode(FREE_MAP_SECTOR, h0)) && h0.numBytes == 128
    && GoodInode(Inode(DIRECTORY_SECTOR, h1)) && h1.numBytes == 200
    && Space(Inode(FREE_MAP_SECTOR, h0)) !! Space(Inode(DIRECTORY_SECTOR, h1))
    && marked == Space(Inode(FREE_MAP_SECTOR, h0)) + Space(Inode(DIRECTORY_SECTOR, h1))
    && |marked| == 4
  }

  method WriteHeaders(d: SynchDisk, mapHdr: FileHeader, dirHdr: FileHeader)
    requires d.Valid() && |mapHdr.dataSectors| == NUM_DIRECT && |dirHdr.dataSectors| == NUM_DIRECT
    modifies d
    ensures d.Valid()
    ensures DecodeHeader(d.sectors[FREE_MAP_SECTOR]) == mapHdr.Value()
    ensures DecodeHeader(d.sectors[DIRECTORY_SECTOR]) == dirHdr.Value()
  {
    mapHdr.WriteBack(d, FREE_MAP_SECTOR);
    dirHdr.WriteBack(d, DIRECTORY_SECTOR);
    DecodeEncodeHeader(mapHdr.Value());
    DecodeEncodeHeader(dirHdr.Value());
  }

  /** The headers of the two system files are on the disk, and the files are open. */
  ghost predicate LaidOut(mapFile: OpenFile, dirFile: OpenFile, freeMap: BitMap, directory: Directory)
    reads mapFile.disk, mapFile.hdr, dirFile.hdr, freeMap.words, directory.table
  {
    && mapFile.disk == dirFile.disk && mapFile.disk.Valid() && freeMap.words.Length == 32
    && SystemPlan(mapFile.hdr.Value(), dirFile.hdr.Value(), Marked(freeMap.words[..], NUM_SECTORS))
    && DecodeHeader(mapFile.disk.sectors[FREE_MAP_SECTOR]) == mapFile.hdr.Value()
    && DecodeHeader(mapFile.disk.sectors[DIRECTORY_SECTOR]) == dirFile.hdr.Value()
    && directory.table.Length == NUM_DIR_ENTRIES
    && forall i | 0 <= i < NUM_DIR_ENTRIES :: !directory.table[i].inUse
  }

  method LayOut(d: SynchDisk) returns (freeMap: BitMap, directory: Directory, mapFile: OpenFile, dirFile: OpenFile)
    requires d.Valid()
    modifies d
    ensures fresh(mapFile) && fresh(mapFile.hdr) && fresh(dirFile) && fresh(dirFile.hdr)
    ensures fresh(freeMap.words) && fresh(directory.table) && mapFile.disk == d
    ensures LaidOut(mapFile, dirFile, freeMap, directory)
  {
    var mapHdr, dirHdr;
    freeMap, mapHdr, dirHdr := PlanFormat();
    directory := new Directory(NUM_DIR_ENTRIES);
    WriteHeaders(d, mapHdr, dirHdr);
    mapFile := new OpenFile(d, FREE_MAP_SECTOR);
    dirFile := new OpenFile(d, DIRECTORY_SECTOR);
  }

  /** Writes the first versions of the map and the directory, once their headers are on the disk. */
  method InstallSystem(mapFile: OpenFile, dirFile: OpenFile, freeMap: BitMap, directory: Directory)
    requires LaidOut(mapFile, dirFile, freeMap, directory)
    modifies mapFile.disk
    ensures Consistent(mapFile.disk.sectors)
    ensures MapHeader(mapFile.disk.sectors) == mapFile.hdr.Value()
    ensures DirHeader(mapFile.disk.sectors) == dirFile.hdr.Value()
    ensures Files(mapFile.disk.sectors) == map[] && |FreeSectors(mapFile.disk.sectors)| == NUM_SECTORS - 4
  {
    ghost var d0, h0, h1 := mapFile.disk.sectors, mapFile.hdr.Value(), dirFile.hdr.Value();
    ghost var d1 := FlushMapThenDirectory(dirFile, mapFile, directory, freeMap);
    FormatResult(d0, d1, mapFile.disk.sectors, h0, h1, directory.table[..], freeMap.words[..]);
  }

  lemma OneSector(clear: set<nat>, h: Header)
    requires forall c | c in clear :: c < NUM_SECTORS
    requires |h.dataSectors| == NUM_DIRECT && 0 < h.numBytes <= 512 && h.numSectors == SectorsFor(h.numBytes)
    requires LowestOf(clear, Blocks(h))
    ensures GoodHeader(h) && Blocks(h) == [h.dataSectors[0]]
    ensures h.dataSectors[0] in clear && Elems(Blocks(h)) == {h.dataSectors[0]}
  {
    assert Blocks(h)[0] == h.dataSectors[0];
  }

  /** With nothing listed, the two system files are all there is. */
  lemma FormatSound(hs: Headers, h0: Header, h1: Header, marked: set<nat>)
    requires SystemPlan(h0, h1, marked)
    requires hs[FREE_MAP_SECTOR] == h0 && hs[DIRECTORY_SECTOR] == h1
    ensures Sound(hs, marked, map[])
  {
    TwoInodes(Inode(FREE_MAP_SECTOR, h0), Inode(DIRECTORY_SECTOR, h1));
    EmptyLayout(hs);
  }

  lemma TwoInodes(n0: Inode, n1: Inode)
    requires GoodInode(n0) && GoodInode(n1) && Space(n0) !! Space(n1)
    ensures var l := map[MapFile := n0, DirFile := n1];
            Exclusive(l) && Covered(l) == Space(n0) + Space(n1)
  {
    var none: Layout := map[];
    assert Covered(none) == {};
    ExclusiveAdd(none, MapFile, n0);
    ExclusiveAdd(none[MapFile := n0], DirFile, n1);
    assert none[MapFile := n0][DirFile := n1] == map[MapFile := n0, DirFile := n1];
  }

  lemma EmptyLayout(hs: Headers)
    ensures LayoutFor(hs, map[]) == map[MapFile := Inode(FREE_MAP_SECTOR, hs[FREE_MAP_SECTOR]),
                                        DirFile := Inode(DIRECTORY_SECTOR, hs[DIRECTORY_SECTOR])]
  {
    assert Owners(map[]) == {MapFile, DirFile};
  }

  lemma {:induction false} NothingListed(t: seq<Entry>)
    requires forall i | 0 <= i < |t| :: !t[i].inUse
    ensures DirMap(t) == map[]
  {
    if t != [] {
      NothingListed(t[..|t| - 1]);
    }
  }

  lemma FormatResult(d0: Disk, d1: Disk, d2: Disk, h0: Header, h1: Header, t: seq<Entry>, ws: seq<word>)
    requires IsDisk(d0) && IsDisk(d1) && IsDisk(d2)
    requires |ws| == 32 && SystemPlan(h0, h1, Marked(ws, NUM_SECTORS))
    requires DecodeHeader(d0[FREE_MAP_SECTOR]) == h0 && DecodeHeader(d0[DIRECTORY_SECTOR]) == h1
    requires OnlyBlocksChange(d0, d1, h0) && FileBytes(d1, h0) == EncodeWords(ws)
    requires |t| == NUM_DIR_ENTRIES && forall i | 0 <= i < |t| :: !t[i].inUse
    requires OnlyBlocksChange(d1, d2, h1) && FileBytes(d2, h1) == EncodeTable(t)
    ensures Consistent(d2) && MapHeader(d2) == h0 && DirHeader(d2) == h1
    ensures Files(d2) == map[] && |FreeSectors(d2)| == NUM_SECTORS - 4
  {
    FormatFrame(d0, d1, d2, h0, h1, Marked(ws, NUM_SECTORS));
    assert MapHeader(d2) == h0 && DirHeader(d2) == h1;
    StoredSystem(d2, h0, h1, t, ws);
    NothingListed(t);
    FormatConsistent(d2, Marked(ws, NUM_SECTORS));
    MarkedCount(ws, NUM_SECTORS);
  }

  lemma FormatConsistent(d: Disk, marked: set<nat>)
    requires Readable(d) && UniqueNames(Entries(d)) && MarkedSectors(d) == marked && Dir(d) == map[]
    requires SystemPlan(MapHeader(d), DirHeader(d), marked)
    ensures Consistent(d) && Files(d) == map[]
  {
    FormatSound(HeadersOf(d), MapHeader(d), DirHeader(d), marked);
  }

  lemma StoredSystem(d: Disk, h0: Header, h1: Header, t: seq<Entry>, ws: seq<word>)
    requires IsDisk(d) && MapHeader(d) == h0 && DirHeader(d) == h1
    requires GoodHeader(h0) && h0.numBytes == 128 && GoodHeader(h1) && h1.numBytes == 200
    requires |ws| == 32 && FileBytes(d, h0) == EncodeWords(ws)
    requires |t| == NUM_DIR_ENTRIES && FileBytes(d, h1) == EncodeTable(t)
    ensures Readable(d) && MapWords(d) == ws && Entries(d) == t
  {
    DecodeEncodeWords(ws);
    DecodeEncodeTable(t);
  }

  lemma FormatFrame(d0: Disk, d1: Disk, d2: Disk, h0: Header, h1: Header, marked: set<nat>)
    requires IsDisk(d0) && IsDisk(d1) && IsDisk(d2) && SystemPlan(h0, h1, marked)
    requires OnlyBlocksChange(d0, d1, h0) && OnlyBlocksChange(d1, d2, h1)
    ensures d2[FREE_MAP_SECTOR] == d0[FREE_MAP_SECTOR] && d2[DIRECTORY_SECTOR] == d0[DIRECTORY_SECTOR]
    ensures FileBytes(d2, h0) == FileBytes(d1, h0)
  {
    assert FREE_MAP_SECTOR in Space(Inode(FREE_MAP_SECTOR, h0));
    assert DIRECTORY_SECTOR in Space(Inode(DIRECTORY_SECTOR, h1));
    TwoWrites(d0, d1, d2, h0, h1);
  }

  /** In memory, the header, the directory and the map are as they are to be on the disk. */
  ghost predicate ReadyToCreate(d: Disk, key: Key, sector: nat, hdr: FileHeader, directory: Directory, freeMap: BitMap)
    requires Consistent(d)
    reads hdr, directory.table, freeMap.words
  {
    && key !in Dir(d)
    && GoodInode(Inode(sector, hdr.Value())) && Space(Inode(sector, hdr.Value())) !! MarkedSectors(d)
    && directory.table.Length == NUM_DIR_ENTRIES && UniqueNames(directory.table[..])
    && DirMap(directory.table[..]) == Dir(d)[key := sector]
    && freeMap.Valid() && freeMap.numBits == NUM_SECTORS && freeMap.words.Length == 32
    && freeMap.Bits() == MarkedSectors(d) + Space(Inode(sector, hdr.Value()))
  }

  // ------------------------------------------------------------ the class

  class FileSystem {
    const disk: SynchDisk
    const freeMapFile: OpenFile
    const directoryFile: OpenFile

    /** The disk is consistent and the two system files are open. */
    ghost predicate Valid()
      reads disk, freeMapFile.hdr, directoryFile.hdr
    {
      && Consistent(disk.sectors)
      && freeMapFile.disk == disk && freeMapFile.hdr.Value() == MapHeader(disk.sectors)
      && directoryFile.disk == disk && directoryFile.hdr.Value() == DirHeader(disk.sectors)
    }

    constructor OnFormatted(d: SynchDisk)
      requires d.Valid() && Consistent(d.sectors)
      ensures disk == d && Valid()
      ensures fresh(freeMapFile) && fresh(freeMapFile.hdr) && fresh(directoryFile) && fresh(directoryFile.hdr)
    {
      disk := d;
      freeMapFile := new OpenFile(d, FREE_MAP_SECTOR);
      directoryFile := new OpenFile(d, DIRECTORY_SECTOR);
    }

    /** Formats the disk: an empty directory, and a map that marks the sectors of the two system files. */
    constructor Format(d: SynchDisk)
      requires d.Valid()
      modifies d
      ensures disk == d && Valid()
      ensures Files(d.sectors) == map[]
      ensures |FreeSectors(d.sectors)| == NUM_SECTORS - 4
    {
      disk := d;
      var freeMap, directory, mapFile, dirFile := LayOut(d);
      freeMapFile, directoryFile := mapFile, dirFile;
      new;
      InstallSystem(freeMapFile, directoryFile, freeMap, directory);
    }

    method FetchDirectory() returns (directory: Directory)
      requires Valid()
      ensures fresh(directory) && fresh(directory.table)
      ensures directory.table[..] == Entries(disk.sectors)
      ensures UniqueNames(directory.table[..]) && DirMap(directory.table[..]) == Dir(disk.sectors)
    {
      directory := FetchEntries();
    }

    method FetchEntries() returns (directory: Directory)
      requires Valid()
      ensures fresh(directory) && fresh(directory.table)
      ensures directory.table[..] == Entries(disk.sectors)
    {
      directory := new Directory(NUM_DIR_ENTRIES);
      ghost var junk := directory.table[..];
      directory.FetchFrom(directoryFile);
      WholeRead(directoryFile.Contents(), EncodeTable(junk));
    }

    method FetchFreeMap() returns (freeMap: BitMap)
      requires Valid()
      ensures fresh(freeMap) && fresh(freeMap.words)
      ensures freeMap.Valid() && freeMap.numBits == NUM_SECTORS
      ensures freeMap.words.Length == 32
      ensures freeMap.Bits() == MarkedSectors(disk.sectors) && freeMap.ClearBits() == FreeSectors(disk.sectors)
    {
      freeMap := new BitMap(NUM_SECTORS);
      ghost var junk := freeMap.words[..];
      FetchBitMap(freeMap, freeMapFile);
      WholeRead(freeMapFile.Contents(), EncodeWords(junk));
    }

    method FetchSystemFiles() returns (directory: Directory, freeMap: BitMap)
      requires Valid()
      ensures fresh(directory) && fresh(directory.table) && directory.table.Length == NUM_DIR_ENTRIES
      ensures UniqueNames(directory.table[..]) && DirMap(directory.table[..]) == Dir(disk.sectors)
      ensures fresh(freeMap) && fresh(freeMap.words) && freeMap.words.Length == 32
      ensures freeMap.Valid() && freeMap.numBits == NUM_SECTORS
      ensures freeMap.Bits() == MarkedSectors(disk.sectors) && freeMap.ClearBits() == FreeSectors(disk.sectors)
    {
      directory := FetchDirectory();
      freeMap := FetchFreeMap();
    }

    method Open(name: seq<byte>) returns (openFile: OpenFile?)
      requires Valid()
      ensures openFile == null <==> KeyOf(name) !in Files(disk.sectors)
      ensures openFile != null ==>
                && fresh(openFile) && openFile.disk == disk && openFile.seekPosition == 0
                && openFile.hdr.Value() == HeaderOfFile(disk.sectors, KeyOf(name))
                && openFile.Valid() && openFile.Contents() == Files(disk.sectors)[KeyOf(name)]
    {
      var directory := FetchDirectory();
      var sector := directory.Find(name);
      openFile := null;
      if sector >= 0 {
        openFile := new OpenFile(disk, sector);
      }
    }

    method Create(name: seq<byte>, initialSize: int32) returns (ok: bool)
      requires Valid()
      // the source never compares the size with the length of the header's table
      requires CanCreate(disk.sectors, KeyOf(name), initialSize) ==> SectorsFor(initialSize) <= NUM_DIRECT
      modifies disk
      ensures Valid()
      ensures ok <==> CanCreate(old(disk.sectors), KeyOf(name), initialSize)
      ensures !ok ==> disk.sectors == old(disk.sectors)
      ensures ok ==> exists s, h :: Created(old(disk.sectors), disk.sectors, KeyOf(name), initialSize, s, h)
    {
      ghost var d := disk.sectors;
      var planned, sector, hdr, directory, freeMap := PrepareCreate(name, initialSize);
      if !planned {
        return false;
      }
      FinishCreate(KeyOf(name), sector, hdr, directory, freeMap);
      assert Created(d, disk.sectors, KeyOf(name), initialSize, sector, hdr.Value());
      return true;
    }

    /** The checks, and the changes to the directory and the map in memory. */
    method PrepareCreate(name: seq<byte>, size: int32)
      returns (ok: bool, sector: nat, hdr: FileHeader, directory: Directory, freeMap: BitMap)
      requires Valid()
      requires CanCreate(disk.sectors, KeyOf(name), size) ==> SectorsFor(size) <= NUM_DIRECT
      ensures ok <==> CanCreate(disk.sectors, KeyOf(name), size)
      ensures ok ==>
                && hdr.numBytes == size && fresh(hdr)
                && ReadyToCreate(disk.sectors, KeyOf(name), sector, hdr, directory, freeMap)
                && LowestOf(FreeSectors(disk.sectors), [sector as int] + Blocks(hdr.Value()))
    {
      CanCreateWhen(disk.sectors, KeyOf(name), size);
      MarkedOrUnmarked(MapWords(disk.sectors), NUM_SECTORS);
      directory, freeMap := FetchSystemFiles();
      ok, sector, hdr := PlanCreate(directory, freeMap, name, size);
    }

    /** Everything worked: flush all changes back to disk. */
    method FinishCreate(ghost key: Key, sector: nat, hdr: FileHeader, directory: Directory, freeMap: BitMap)
      requires Valid()
      requires ReadyToCreate(disk.sectors, key, sector, hdr, directory, freeMap)
      modifies disk
      ensures Valid()
      ensures CreateTo(old(disk.sectors), disk.sectors, key, sector, hdr.Value())
    {
      ghost var d := disk.sectors;
      hdr.WriteBack(disk, sector);
      ghost var d2 := FlushDirectoryThenMap(directoryFile, freeMapFile, directory, freeMap);
      CommitCreate(d, d2, disk.sectors, key, sector, hdr.Value(), directory.table[..], freeMap.words[..]);
      CreateKeeps(d, disk.sectors, key, sector, hdr.Value());
    }

    method Remove(name: seq<byte>) returns (ok: bool)
      requires Valid()
      modifies disk
      ensures Valid()
      ensures ok <==> KeyOf(name) in old(Files(disk.sectors))
      ensures !ok ==> disk.sectors == old(disk.sectors)
      ensures ok ==> RemoveTo(old(disk.sectors), disk.sectors, KeyOf(name))
    {
      var found, directory, freeMap := PrepareRemove(name);
      if !found {
        return false;
      }
      FinishRemove(KeyOf(name), directory, freeMap);
      return true;
    }

    /** Finds the file, and releases its sectors and its directory entry in memory. */
    method PrepareRemove(name: seq<byte>) returns (found: bool, directory: Directory, freeMap: BitMap)
      requires Valid()
      ensures found <==> KeyOf(name) in Dir(disk.sectors)
      ensures found ==> ReadyToRemove(disk.sectors, KeyOf(name), directory, freeMap)
    {
      directory, freeMap := FetchSystemFiles();
      var sector := directory.Find(name);
      if sector == -1 {
        return false, directory, freeMap;
      }
      ReleaseListed(KeyOf(name), sector, freeMap);
      found := directory.Remove(name);
    }

    /** Returns a listed file's sectors to the map, as its header on the disk names them. */
    method ReleaseListed(ghost key: Key, sector: int, freeMap: BitMap)
      requires Valid() && key in Dir(disk.sectors) && sector == Dir(disk.sectors)[key]
      requires freeMap.Valid() && freeMap.numBits == NUM_SECTORS && freeMap.Bits() == MarkedSectors(disk.sectors)
      modifies freeMap.words
      ensures freeMap.Bits() == old(freeMap.Bits()) - SpaceOf(disk.sectors, key)
    {
      ListedInode(disk.sectors, key);
      var fileHdr := new FileHeader();
      fileHdr.FetchFrom(disk, sector);
      ReleaseFile(sector, fileHdr, freeMap);
    }

    /** Write the map and the directory without the file back to disk. */
    method FinishRemove(ghost key: Key, directory: Directory, freeMap: BitMap)
      requires Valid() && key in Dir(disk.sectors)
      requires ReadyToRemove(disk.sectors, key, directory, freeMap)
      modifies disk
      ensures Valid()
      ensures RemoveTo(old(disk.sectors), disk.sectors, key)
    {
      ghost var d := disk.sectors;
      ghost var d1 := FlushMapThenDirectory(directoryFile, freeMapFile, directory, freeMap);
      CommitRemove(d, d1, disk.sectors, key, directory.table[..], freeMap.words[..]);
      RemoveKeeps(d, disk.sectors, key);
    }
  }
}
