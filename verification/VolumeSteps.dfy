/**
 What creating, removing and writing files does to a disk image, and why each of
 them takes a consistent disk to a consistent disk and acts as one update of the
 map from names to contents.
 */
module VolumeSteps {
  import opened Words
  import opened BitMaps
  import opened SynchDisks
  import opened FileHeaders
  import opened OpenFiles
  import opened Directories
  import opened Volumes

  // ------------------------------------------------------------- create

  lemma LayoutExtended(hs: Headers, hs': Headers, dir: map<Key, int>, key: Key, s: nat)
    requires InRange(dir) && s < NUM_SECTORS && key !in dir
    requires forall o | o in Owners(dir) :: hs'[Place(dir, o)] == hs[Place(dir, o)]
    ensures LayoutFor(hs', dir[key := s]) == LayoutFor(hs, dir)[Named(key) := Inode(s, hs'[s])]
  {
    assert Owners(dir[key := s]) == Owners(dir) + {Named(key)};
    assert Place(dir[key := s], Named(key)) == s;
    assert forall o | o in Owners(dir) :: Place(dir[key := s], o) == Place(dir, o);
  }

  /** A new file starts out with whatever its sectors held. */
  lemma NewContents(d: Disk, hs: Headers, d': Disk, hs': Headers, dir: map<Key, int>, s: nat, h: Header)
    requires SystemUpdate(d, hs, d', hs', {s}) && InRange(dir) && Exclusive(LayoutFor(hs, dir))
    requires GoodInode(Inode(s, h)) && Space(Inode(s, h)) !! Covered(LayoutFor(hs, dir))
    ensures FileBytes(d', h) == FileBytes(d, h)
  {
    var l := LayoutFor(hs, dir);
    SystemInodes(hs, dir);
    forall x | x in Elems(Blocks(h))
      ensures x !in SystemSpace(hs, {s})
    {
      assert x in Space(Inode(s, h));
      if x in Elems(Blocks(hs[FREE_MAP_SECTOR])) {
        UsesBounded(l, MapFile, x);
      } else if x in Elems(Blocks(hs[DIRECTORY_SECTOR])) {
        UsesBounded(l, DirFile, x);
      }
    }
    SameContents(d, d', h, SystemSpace(hs, {s}));
  }

  lemma CreateSound(d: Disk, hs: Headers, d': Disk, hs': Headers, marked: set<nat>, dir: map<Key, int>,
                    key: Key, s: nat, h: Header)
    requires Sound(hs, marked, dir) && SystemUpdate(d, hs, d', hs', {s})
    requires key !in dir && GoodInode(Inode(s, h)) && Space(Inode(s, h)) !! marked
    requires hs'[s] == h
    ensures Sound(hs', marked + Space(Inode(s, h)), dir[key := s])
    ensures FilesFor(d', hs', dir[key := s]) == FilesFor(d, hs, dir)[key := FileBytes(d, h)]
  {
    SystemKeepsHeaders(d, hs, d', hs', {s}, dir);
    LayoutExtended(hs, hs', dir, key, s);
    ExclusiveAdd(LayoutFor(hs, dir), Named(key), Inode(s, h));
    NewContents(d, hs, d', hs', dir, s, h);
    SystemKeepsFiles(d, hs, d', hs', {s}, dir);
    FilesExtended(d, hs, d', hs', dir, key, s);
  }

  lemma FilesExtended(d: Disk, hs: Headers, d': Disk, hs': Headers, dir: map<Key, int>, key: Key, s: nat)
    requires InRange(dir) && s < NUM_SECTORS && FilesFor(d', hs', dir) == FilesFor(d, hs, dir)
    requires key !in dir
    ensures FilesFor(d', hs', dir[key := s]) == FilesFor(d, hs, dir)[key := ContentsOf(d', hs'[s])]
  {
    forall k | k in dir
      ensures FilesFor(d', hs', dir[key := s])[k] == FilesFor(d, hs, dir)[k]
    {
      assert FilesFor(d', hs', dir)[k] == ContentsOf(d', hs'[dir[k]]);
    }
  }

  // ------------------------------------------------------------- remove

  lemma LayoutReduced(hs: Headers, hs': Headers, dir: map<Key, int>, key: Key)
    requires InRange(dir) && key in dir
    requires forall o | o in Owners(dir) :: hs'[Place(dir, o)] == hs[Place(dir, o)]
    ensures LayoutFor(hs', dir - {key}) == LayoutFor(hs, dir) - {Named(key)}
  {
    assert Owners(dir - {key}) == Owners(dir) - {Named(key)};
    assert forall o | o in Owners(dir - {key}) :: Place(dir - {key}, o) == Place(dir, o);
  }

  lemma RemoveSound(d: Disk, hs: Headers, d': Disk, hs': Headers, marked: set<nat>, dir: map<Key, int>, key: Key)
    requires Sound(hs, marked, dir) && SystemUpdate(d, hs, d', hs', {})
    requires key in dir
    ensures GoodInode(Inode(dir[key], hs[dir[key]]))
    ensures Sound(hs', marked - Space(Inode(dir[key], hs[dir[key]])), dir - {key})
    ensures FilesFor(d', hs', dir - {key}) == FilesFor(d, hs, dir) - {key}
  {
    assert Named(key) in LayoutFor(hs, dir);
    SystemKeepsHeaders(d, hs, d', hs', {}, dir);
    LayoutReduced(hs, hs', dir, key);
    ExclusiveRemove(LayoutFor(hs, dir), Named(key));
    SystemKeepsFiles(d, hs, d', hs', {}, dir);
    FilesReduced(d, hs, d', hs', dir, key);
  }

  lemma FilesReduced(d: Disk, hs: Headers, d': Disk, hs': Headers, dir: map<Key, int>, key: Key)
    requires InRange(dir) && FilesFor(d', hs', dir) == FilesFor(d, hs, dir)
    ensures FilesFor(d', hs', dir - {key}) == FilesFor(d, hs, dir) - {key}
  {
    forall k | k in dir && k != key
      ensures FilesFor(d', hs', dir - {key})[k] == FilesFor(d, hs, dir)[k]
    {
      assert FilesFor(d', hs', dir)[k] == ContentsOf(d', hs'[dir[k]]);
    }
  }

  // -------------------------------------------------------------- write

  /** The data sectors of the file listed under `key` hold no header and no part of another file. */
  lemma WriteFrame(hs: Headers, dir: map<Key, int>, key: Key, o: Owner)
    requires InRange(dir) && Exclusive(LayoutFor(hs, dir)) && key in dir && o in Owners(dir)
    ensures GoodHeader(hs[dir[key]]) && GoodHeader(hs[Place(dir, o)])
    ensures Place(dir, o) !in Blocks(hs[dir[key]])
    ensures o != Named(key) ==> Elems(Blocks(hs[Place(dir, o)])) !! Elems(Blocks(hs[dir[key]]))
  {
    var l := LayoutFor(hs, dir);
    assert Named(key) in l && o in l;
    forall x | x in Space(l[o]) && x in Elems(Blocks(hs[dir[key]]))
      ensures o == Named(key) && x != l[o].sector
    {
      assert Uses(l, o, x) && Uses(l, Named(key), x);
    }
    assert l[o].sector in Space(l[o]);
  }

  lemma WriteKeepsHeaders(hs: Headers, hs': Headers, dir: map<Key, int>, key: Key)
    requires InRange(dir) && Exclusive(LayoutFor(hs, dir)) && key in dir && GoodHeader(hs[dir[key]])
    requires AgreeOutside(hs, hs', Elems(Blocks(hs[dir[key]])))
    ensures forall o | o in Owners(dir) :: hs'[Place(dir, o)] == hs[Place(dir, o)]
  {
    forall o | o in Owners(dir)
      ensures hs'[Place(dir, o)] == hs[Place(dir, o)]
    {
      WriteFrame(hs, dir, key, o);
    }
  }

  lemma SameLayout(hs: Headers, hs': Headers, dir: map<Key, int>)
    requires InRange(dir) && forall o | o in Owners(dir) :: hs'[Place(dir, o)] == hs[Place(dir, o)]
    ensures LayoutFor(hs', dir) == LayoutFor(hs, dir)
    ensures forall key | key in dir :: hs'[dir[key]] == hs[dir[key]]
  {
    forall key | key in dir
      ensures hs'[dir[key]] == hs[dir[key]]
    {
      assert Named(key) in Owners(dir) && Place(dir, Named(key)) == dir[key];
    }
  }

  lemma WriteKeepsFiles(d: Disk, hs: Headers, d': Disk, hs': Headers, dir: map<Key, int>, key: Key)
    requires InRange(dir) && Exclusive(LayoutFor(hs, dir)) && IsDisk(d) && IsDisk(d') && key in dir
    requires GoodHeader(hs[dir[key]])
    requires AgreeOutside(d, d', Elems(Blocks(hs[dir[key]])))
    requires forall k | k in dir :: hs'[dir[k]] == hs[dir[k]]
    ensures FilesFor(d', hs', dir) == FilesFor(d, hs, dir)[key := FileBytes(d', hs[dir[key]])]
  {
    forall k | k in dir && k != key
      ensures ContentsOf(d', hs'[dir[k]]) == ContentsOf(d, hs[dir[k]])
    {
      WriteFrame(hs, dir, key, Named(k));
      SameContents(d, d', hs[dir[k]], Elems(Blocks(hs[dir[key]])));
    }
  }

  lemma WriteSound(d: Disk, hs: Headers, d': Disk, hs': Headers, marked: set<nat>, dir: map<Key, int>, key: Key)
    requires Sound(hs, marked, dir) && IsDisk(d) && IsDisk(d') && key in dir
    requires GoodHeader(hs[dir[key]])
    requires AgreeOutside(d, d', Elems(Blocks(hs[dir[key]])))
    requires AgreeOutside(hs, hs', Elems(Blocks(hs[dir[key]])))
    ensures Sound(hs', marked, dir)
    ensures FilesFor(d', hs', dir) == FilesFor(d, hs, dir)[key := FileBytes(d', hs[dir[key]])]
  {
    WriteKeepsHeaders(hs, hs', dir, key);
    SameLayout(hs, hs', dir);
    WriteKeepsFiles(d, hs, d', hs', dir, key);
  }

  // ------------------------------------------- the steps on disk images

  /** Only the map, the directory and unused sectors differ; the map marks `marked` and the directory is `dir`. */
  ghost predicate SystemStep(d: Disk, d': Disk, unused: set<nat>, marked: set<nat>, dir: map<Key, int>)
    requires Consistent(d) && IsDisk(d')
  {
    var t := DecodeTable(FileBytes(d', DirHeader(d)), NUM_DIR_ENTRIES);
    && unused !! MarkedSectors(d)
    && AgreeOutside(d, d', SystemSpace(HeadersOf(d), unused))
    && Marked(DecodeWords(FileBytes(d', MapHeader(d))), NUM_SECTORS) == marked
    && UniqueNames(t) && DirMap(t) == dir
  }

  lemma SystemStepReads(d: Disk, d': Disk, unused: set<nat>, marked: set<nat>, dir: map<Key, int>)
    requires Consistent(d) && IsDisk(d') && SystemStep(d, d', unused, marked, dir)
    ensures SystemUpdate(d, HeadersOf(d), d', HeadersOf(d'), unused)
    ensures MapHeader(d') == MapHeader(d) && DirHeader(d') == DirHeader(d)
    ensures Readable(d') && UniqueNames(Entries(d')) && MarkedSectors(d') == marked && Dir(d') == dir
  {
    HeadersAgree(d, d', SystemSpace(HeadersOf(d), unused));
    SystemFrame(HeadersOf(d), Dir(d), unused, MapFile);
    SystemFrame(HeadersOf(d), Dir(d), unused, DirFile);
  }

  /** A file with header `h` in sector `s` has been added under `key`. */
  ghost predicate CreateTo(d: Disk, d': Disk, key: Key, s: nat, h: Header)
  {
    && Consistent(d) && IsDisk(d')
    && key !in Dir(d)
    && GoodInode(Inode(s, h)) && Space(Inode(s, h)) !! MarkedSectors(d)
    && d'[s] == EncodeHeader(h)
    && SystemStep(d, d', {s}, MarkedSectors(d) + Space(Inode(s, h)), Dir(d)[key := s])
  }

  lemma CreateKeeps(d: Disk, d': Disk, key: Key, s: nat, h: Header)
    requires CreateTo(d, d', key, s, h)
    ensures Consistent(d') && MapHeader(d') == MapHeader(d) && DirHeader(d') == DirHeader(d)
    ensures Files(d') == Files(d)[key := FileBytes(d, h)]
  {
    SystemStepReads(d, d', {s}, MarkedSectors(d) + Space(Inode(s, h)), Dir(d)[key := s]);
    DecodeEncodeHeader(h);
    CreateSound(d, HeadersOf(d), d', HeadersOf(d'), MarkedSectors(d), Dir(d), key, s, h);
  }

  /** The sectors of the file listed under `key`. */
  ghost function SpaceOf(d: Disk, key: Key): set<nat>
    requires Consistent(d) && key in Dir(d)
  {
    assert Named(key) in LayoutFor(HeadersOf(d), Dir(d));
    Space(Inode(Dir(d)[key], HeadersOf(d)[Dir(d)[key]]))
  }

  /** The file listed under `key` has been removed. */
  ghost predicate RemoveTo(d: Disk, d': Disk, key: Key)
  {
    && Consistent(d) && IsDisk(d')
    && key in Dir(d)
    && SystemStep(d, d', {}, MarkedSectors(d) - SpaceOf(d, key), Dir(d) - {key})
  }

  lemma RemoveKeeps(d: Disk, d': Disk, key: Key)
    requires RemoveTo(d, d', key)
    ensures Consistent(d') && MapHeader(d') == MapHeader(d) && DirHeader(d') == DirHeader(d)
    ensures Files(d') == Files(d) - {key}
  {
    SystemStepReads(d, d', {}, MarkedSectors(d) - SpaceOf(d, key), Dir(d) - {key});
    RemoveSound(d, HeadersOf(d), d', HeadersOf(d'), MarkedSectors(d), Dir(d), key);
  }

  ghost function HeaderOfFile(d: Disk, key: Key): (h: Header)
    requires Consistent(d) && key in Dir(d)
    ensures GoodHeader(h) && Files(d)[key] == FileBytes(d, h)
  {
    assert Named(key) in LayoutFor(HeadersOf(d), Dir(d));
    HeadersOf(d)[Dir(d)[key]]
  }

  /** Bytes of the file listed under `key` have been overwritten in place. */
  ghost predicate WriteTo(d: Disk, d': Disk, key: Key, position: nat, data: seq<byte>)
  {
    && Consistent(d) && IsDisk(d')
    && key in Dir(d)
    && (data == [] || position + |data| <= |Files(d)[key]|)
    && OnlyBlocksChange(d, d', HeaderOfFile(d, key))
    && FileBytes(d', HeaderOfFile(d, key)) == Splice(Files(d)[key], position, data)
  }

  /** A write changes one file; the map, the directory and every header stay as they are. */
  lemma WriteKeeps(d: Disk, d': Disk, key: Key, position: nat, data: seq<byte>)
    requires WriteTo(d, d', key, position, data)
    ensures Consistent(d') && MapHeader(d') == MapHeader(d) && DirHeader(d') == DirHeader(d)
    ensures MapWords(d') == MapWords(d) && Entries(d') == Entries(d)
    ensures Files(d') == Files(d)[key := Splice(Files(d)[key], position, data)]
  {
    var h := HeaderOfFile(d, key);
    var changed := Elems(Blocks(h));
    assert AgreeOutside(d, d', changed);
    HeadersAgree(d, d', changed);
    WriteSystem(d, HeadersOf(d), d', HeadersOf(d'), Dir(d), key);
    WriteSound(d, HeadersOf(d), d', HeadersOf(d'), MarkedSectors(d), Dir(d), key);
  }

  lemma WriteSystem(d: Disk, hs: Headers, d': Disk, hs': Headers, dir: map<Key, int>, key: Key)
    requires InRange(dir) && Exclusive(LayoutFor(hs, dir)) && IsDisk(d) && IsDisk(d') && key in dir
    requires GoodHeader(hs[dir[key]])
    requires AgreeOutside(d, d', Elems(Blocks(hs[dir[key]])))
    requires AgreeOutside(hs, hs', Elems(Blocks(hs[dir[key]])))
    ensures hs'[FREE_MAP_SECTOR] == hs[FREE_MAP_SECTOR] && hs'[DIRECTORY_SECTOR] == hs[DIRECTORY_SECTOR]
    ensures GoodHeader(hs[FREE_MAP_SECTOR]) && GoodHeader(hs[DIRECTORY_SECTOR])
    ensures FileBytes(d', hs[FREE_MAP_SECTOR]) == FileBytes(d, hs[FREE_MAP_SECTOR])
    ensures FileBytes(d', hs[DIRECTORY_SECTOR]) == FileBytes(d, hs[DIRECTORY_SECTOR])
  {
    WriteFrame(hs, dir, key, MapFile);
    WriteFrame(hs, dir, key, DirFile);
    SameContents(d, d', hs[FREE_MAP_SECTOR], Elems(Blocks(hs[dir[key]])));
    SameContents(d, d', hs[DIRECTORY_SECTOR], Elems(Blocks(hs[dir[key]])));
  }
}
