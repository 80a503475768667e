/**
 What a formatted disk means: which sectors belong to which file, what the free
 map and the directory on the disk say, and the map from names to contents that
 the disk represents. Everything here is about disk images, not about the
 operations that change them.
 */
module Volumes {
  import opened Words
  import opened BitMaps
  import opened SynchDisks
  import opened FileHeaders
  import opened OpenFiles
  import opened Directories

  const FREE_MAP_SECTOR := 0
  const DIRECTORY_SECTOR := 1
  const NUM_DIR_ENTRIES := 10

  /** Whose sectors they are: the free map's, the directory's, or a listed file's. */
  datatype Owner = MapFile | DirFile | Named(key: Key)

  datatype Inode = Inode(sector: int, hdr: Header)

  type Layout = map<Owner, Inode>

  /** The header sector and the data sectors of a file. */
  ghost function Space(n: Inode): set<nat>
    requires n.sector >= 0 && GoodHeader(n.hdr)
  {
    {n.sector} + Elems(Blocks(n.hdr))
  }

  ghost predicate GoodInode(n: Inode)
  {
    0 <= n.sector < NUM_SECTORS && GoodHeader(n.hdr) && n.sector !in Blocks(n.hdr)
  }

  /** Sector `x` is part of `o`'s file. */
  ghost predicate Uses(l: Layout, o: Owner, x: nat)
  {
    o in l && GoodInode(l[o]) && x in Space(l[o])
  }

  /** No sector is used twice. */
  ghost predicate Exclusive(l: Layout)
  {
    && (forall o | o in l :: GoodInode(l[o]))
    && (forall o, p, x | Uses(l, o, x) && Uses(l, p, x) :: o == p)
  }

  ghost predicate Used(l: Layout, x: nat)
  {
    exists o :: Uses(l, o, x)
  }

  /** The sectors in use. */
  ghost function Covered(l: Layout): set<nat>
  {
    set x: nat | x < NUM_SECTORS && Used(l, x)
  }

  lemma UsesBounded(l: Layout, o: Owner, x: nat)
    requires Uses(l, o, x)
    ensures x in Covered(l)
  {
    if x != l[o].sector {
      var i :| 0 <= i < |Blocks(l[o].hdr)| && Blocks(l[o].hdr)[i] == x;
    }
  }

  lemma ExclusiveAdd(l: Layout, o: Owner, n: Inode)
    requires Exclusive(l) && o !in l && GoodInode(n)
    requires Space(n) !! Covered(l)
    ensures Exclusive(l[o := n]) && Covered(l[o := n]) == Covered(l) + Space(n)
  {
    var l' := l[o := n];
    forall p, x: nat
      ensures Uses(l', p, x) <==> Uses(l, p, x) || (p == o && x in Space(n))
    {
    }
    forall p, x | Uses(l, p, x)
      ensures x !in Space(n) && x in Covered(l')
    {
      UsesBounded(l, p, x);
      UsesBounded(l', p, x);
    }
    forall x | x in Space(n)
      ensures x in Covered(l')
    {
      UsesBounded(l', o, x);
    }
  }

  lemma ExclusiveRemove(l: Layout, o: Owner)
    requires Exclusive(l) && o in l
    ensures Exclusive(l - {o}) && Covered(l - {o}) == Covered(l) - Space(l[o])
  {
    var l' := l - {o};
    forall p, x: nat
      ensures Uses(l', p, x) <==> Uses(l, p, x) && p != o
    {
    }
    forall x | x in Covered(l)
      ensures x in Covered(l') <==> x !in Space(l[o])
    {
      var p :| Uses(l, p, x);
      assert x in Space(l[o]) ==> Uses(l, o, x);
    }
  }

  // ---------------------------------------- headers, directory, layout

  /** The headers found in the sectors of a disk, whether or not a sector holds one. */
  type Headers = hs: seq<Header> | |hs| == NUM_SECTORS witness seq(NUM_SECTORS, _ => Header(0, 0, []))

  ghost predicate InRange(dir: map<Key, int>)
  {
    forall key | key in dir :: 0 <= dir[key] < NUM_SECTORS
  }

  ghost function Owners(dir: map<Key, int>): set<Owner>
  {
    {MapFile, DirFile} + set key | key in dir :: Named(key)
  }

  ghost function Place(dir: map<Key, int>, o: Owner): (s: int)
    requires InRange(dir) && o in Owners(dir)
    ensures 0 <= s < NUM_SECTORS
  {
    match o
    case MapFile => FREE_MAP_SECTOR
    case DirFile => DIRECTORY_SECTOR
    case Named(key) => dir[key]
  }

  /** Where each file lies according to the directory `dir`. */
  ghost function LayoutFor(hs: Headers, dir: map<Key, int>): Layout
    requires InRange(dir)
  {
    map o | o in Owners(dir) :: Inode(Place(dir, o), hs[Place(dir, o)])
  }

  /** With the directory `dir`, the sectors `marked` are exactly the ones in use, and none is used twice. */
  ghost predicate Sound(hs: Headers, marked: set<nat>, dir: map<Key, int>)
  {
    InRange(dir) && Exclusive(LayoutFor(hs, dir)) && marked == Covered(LayoutFor(hs, dir))
  }

  /** The contents of the file with header `h`. */
  ghost function ContentsOf(d: Disk, h: Header): seq<byte>
  {
    if IsDisk(d) && GoodHeader(h) then FileBytes(d, h) else []
  }

  /** The files of the directory `dir`, by name. */
  ghost function FilesFor(d: Disk, hs: Headers, dir: map<Key, int>): map<Key, seq<byte>>
    requires InRange(dir)
  {
    map key | key in dir :: ContentsOf(d, hs[dir[key]])
  }

  // ------------------------------------------------------ reading a disk

  ghost function HeadersOf(d: Disk): Headers
    requires IsDisk(d)
  {
    seq(NUM_SECTORS, s requires 0 <= s < NUM_SECTORS => DecodeHeader(d[s]))
  }

  ghost function MapHeader(d: Disk): Header
    requires IsDisk(d)
  {
    HeadersOf(d)[FREE_MAP_SECTOR]
  }

  ghost function DirHeader(d: Disk): Header
    requires IsDisk(d)
  {
    HeadersOf(d)[DIRECTORY_SECTOR]
  }

  /** The free map and the directory can be found: 1024 bits and ten entries of 20 bytes. */
  ghost predicate Readable(d: Disk)
  {
    && IsDisk(d)
    && GoodHeader(MapHeader(d)) && MapHeader(d).numBytes == 128
    && GoodHeader(DirHeader(d)) && DirHeader(d).numBytes == 200
  }

  ghost function MapWords(d: Disk): (ws: seq<word>)
    requires Readable(d)
    ensures |ws| == 32
  {
    DecodeWords(FileBytes(d, MapHeader(d)))
  }

  ghost function MarkedSectors(d: Disk): set<nat>
    requires Readable(d)
  {
    Marked(MapWords(d), NUM_SECTORS)
  }

  ghost function FreeSectors(d: Disk): set<nat>
    requires Readable(d)
  {
    Unmarked(MapWords(d), NUM_SECTORS)
  }

  ghost function Entries(d: Disk): (t: seq<Entry>)
    requires Readable(d)
    ensures |t| == NUM_DIR_ENTRIES
  {
    DecodeTable(FileBytes(d, DirHeader(d)), NUM_DIR_ENTRIES)
  }

  ghost function Dir(d: Disk): map<Key, int>
    requires Readable(d)
  {
    DirMap(Entries(d))
  }

  /**
   The invariant of a formatted disk. A bit of the map on the disk is set exactly
   when its sector is one of the two fixed header sectors, the header of a listed
   file, or a data sector of a listed file, of the map or of the directory; and no
   sector has two such uses.
   */
  ghost predicate Consistent(d: Disk)
  {
    Readable(d) && UniqueNames(Entries(d)) && Sound(HeadersOf(d), MarkedSectors(d), Dir(d))
  }

  /** The abstract value of a disk: the files by name. */
  ghost function Files(d: Disk): map<Key, seq<byte>>
    requires Consistent(d)
  {
    FilesFor(d, HeadersOf(d), Dir(d))
  }

  // ------------------------------------------------------- frame lemmas

  ghost predicate AgreeOutside<T>(d: seq<T>, d': seq<T>, changed: set<nat>)
    requires |d| == |d'| == NUM_SECTORS
  {
    forall s: nat | s < NUM_SECTORS && s !in changed :: d'[s] == d[s]
  }

  lemma HeadersAgree(d: Disk, d': Disk, changed: set<nat>)
    requires IsDisk(d) && IsDisk(d') && AgreeOutside(d, d', changed)
    ensures AgreeOutside(HeadersOf(d), HeadersOf(d'), changed)
  {
  }

  lemma {:induction false} SameBlocks(d: Disk, d': Disk, h: Header, n: nat)
    requires IsDisk(d) && IsDisk(d') && GoodHeader(h) && n <= Max(0, h.numSectors)
    requires forall i | 0 <= i < h.numSectors :: d'[h.dataSectors[i]] == d[h.dataSectors[i]]
    ensures Concatenated(d', h, n) == Concatenated(d, h, n)
  {
    if n > 0 {
      SameBlocks(d, d', h, n - 1);
    }
  }

  /** A file none of whose sectors changed still has its contents. */
  lemma SameContents(d: Disk, d': Disk, h: Header, changed: set<nat>)
    requires IsDisk(d) && IsDisk(d') && GoodHeader(h)
    requires AgreeOutside(d, d', changed) && Elems(Blocks(h)) !! changed
    ensures FileBytes(d', h) == FileBytes(d, h)
  {
    forall i | 0 <= i < h.numSectors
      ensures d'[h.dataSectors[i]] == d[h.dataSectors[i]]
    {
      assert Blocks(h)[i] == h.dataSectors[i];
      assert h.dataSectors[i] in Elems(Blocks(h));
    }
    SameBlocks(d, d', h, Max(0, h.numSectors));
  }

  // ------------------------------- rewriting the map and the directory

  /** The sectors changed when the map, the directory and unused sectors are rewritten. */
  ghost function SystemSpace(hs: Headers, unused: set<nat>): set<nat>
    requires GoodHeader(hs[FREE_MAP_SECTOR]) && GoodHeader(hs[DIRECTORY_SECTOR])
  {
    unused + Elems(Blocks(hs[FREE_MAP_SECTOR])) + Elems(Blocks(hs[DIRECTORY_SECTOR]))
  }

  lemma SystemInodes(hs: Headers, dir: map<Key, int>)
    requires InRange(dir) && Exclusive(LayoutFor(hs, dir))
    ensures var l := LayoutFor(hs, dir);
            && MapFile in l && l[MapFile] == Inode(FREE_MAP_SECTOR, hs[FREE_MAP_SECTOR]) && GoodInode(l[MapFile])
            && DirFile in l && l[DirFile] == Inode(DIRECTORY_SECTOR, hs[DIRECTORY_SECTOR]) && GoodInode(l[DirFile])
  {
  }

  /** Such a rewrite touches no header, and no sector of a listed file. */
  lemma SystemFrame(hs: Headers, dir: map<Key, int>, unused: set<nat>, o: Owner)
    requires InRange(dir) && Exclusive(LayoutFor(hs, dir)) && unused !! Covered(LayoutFor(hs, dir))
    requires o in Owners(dir)
    ensures GoodHeader(hs[FREE_MAP_SECTOR]) && GoodHeader(hs[DIRECTORY_SECTOR]) && GoodHeader(hs[Place(dir, o)])
    ensures Place(dir, o) !in SystemSpace(hs, unused)
    ensures o.Named? ==> Elems(Blocks(hs[Place(dir, o)])) !! SystemSpace(hs, unused)
  {
    var l := LayoutFor(hs, dir);
    SystemInodes(hs, dir);
    forall x | x in Space(l[o])
      ensures x !in unused
      ensures x in Elems(Blocks(hs[FREE_MAP_SECTOR])) ==> o == MapFile
      ensures x in Elems(Blocks(hs[DIRECTORY_SECTOR])) ==> o == DirFile
    {
      assert Uses(l, o, x);
      UsesBounded(l, o, x);
      assert x in Elems(Blocks(hs[FREE_MAP_SECTOR])) ==> Uses(l, MapFile, x);
      assert x in Elems(Blocks(hs[DIRECTORY_SECTOR])) ==> Uses(l, DirFile, x);
    }
    assert l[o].sector in Space(l[o]);
  }

  /** The map, the directory and unused sectors of a disk have been rewritten. */
  ghost predicate SystemUpdate(d: Disk, hs: Headers, d': Disk, hs': Headers, unused: set<nat>)
  {
    && IsDisk(d) && IsDisk(d')
    && GoodHeader(hs[FREE_MAP_SECTOR]) && GoodHeader(hs[DIRECTORY_SECTOR])
    && AgreeOutside(d, d', SystemSpace(hs, unused))
    && AgreeOutside(hs, hs', SystemSpace(hs, unused))
  }

  lemma SystemKeepsHeaders(d: Disk, hs: Headers, d': Disk, hs': Headers, unused: set<nat>, dir: map<Key, int>)
    requires SystemUpdate(d, hs, d', hs', unused)
    requires InRange(dir) && Exclusive(LayoutFor(hs, dir)) && unused !! Covered(LayoutFor(hs, dir))
    ensures forall o | o in Owners(dir) :: hs'[Place(dir, o)] == hs[Place(dir, o)]
  {
    forall o | o in Owners(dir)
      ensures hs'[Place(dir, o)] == hs[Place(dir, o)]
    {
      SystemFrame(hs, dir, unused, o);
    }
  }

  lemma SystemKeepsFiles(d: Disk, hs: Headers, d': Disk, hs': Headers, unused: set<nat>, dir: map<Key, int>)
    requires SystemUpdate(d, hs, d', hs', unused)
    requires InRange(dir) && Exclusive(LayoutFor(hs, dir)) && unused !! Covered(LayoutFor(hs, dir))
    ensures FilesFor(d', hs', dir) == FilesFor(d, hs, dir)
  {
    forall key | key in dir
      ensures ContentsOf(d', hs'[dir[key]]) == ContentsOf(d, hs[dir[key]])
    {
      SystemFrame(hs, dir, unused, Named(key));
      SameContents(d, d', hs[dir[key]], SystemSpace(hs, unused));
    }
  }
}
