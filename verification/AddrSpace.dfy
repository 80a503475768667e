/**
 Address spaces (userprog/addrspace): each takes its frames from the shared map of 256
 bits, loads its program into memory, and gives the frames back when it goes away.
 */
module AddrSpaces {
  import opened Words
  import opened BitMaps
  import opened FileHeaders
  import opened OpenFiles
  import opened Translation
  import opened Loading

  /** A new entry: valid, and neither used nor protected. */
  ghost predicate IsNew(e: TranslationEntry, page: int, frame: int)
  {
    e.virtualPage == page && e.physicalPage == frame && e.valid && !e.readOnly && !e.use && !e.dirty
  }

  ghost predicate AllNew(table: Table, fs: seq<int>)
  {
    |table| == |fs| && forall i | 0 <= i < |table| :: IsNew(table[i], i, fs[i])
  }

  /** A new table over the lowest clear frames. */
  ghost predicate NewTable(clear: set<nat>, table: Table)
  {
    LowestOf(clear, FrameList(table)) && AllNew(table, FrameList(table))
  }

  lemma NewTableFacts(clear: set<nat>, table: Table)
    requires NewTable(clear, table)
    ensures Injective(table) && Frames(table) <= clear
    ensures forall i | 0 <= i < |table| :: table[i].physicalPage >= 0 && table[i].physicalPage in clear
  {
    var fs := FrameList(table);
    forall i | 0 <= i < |table|
      ensures fs[i] == table[i].physicalPage && table[i].physicalPage in clear
    {
    }
  }

  // ------------------------------------------------------------- the class

  class AddrSpace {
    const pageTable: array<TranslationEntry>
    const numPages: nat

    /** A program that needs more frames than are clear gets no pages, and the map and the memory stay as they are. */
    constructor (frames: BitMap, machine: Machine, executable: OpenFile)
      requires frames.Valid() && frames.numBits < 0x8000_0000
      requires executable.Valid() && IsNoff(executable.Contents())
      modifies frames.words, machine.mainMemory
      ensures fresh(pageTable) && numPages == pageTable.Length
      ensures Allocated(old(frames.ClearBits()), old(frames.Bits()), PagesFor(DecodeNoff(executable.Contents())),
                        pageTable[..], frames.Bits())
      ensures PagesFor(DecodeNoff(executable.Contents())) > |old(frames.ClearBits())| ==>
                frames.words[..] == old(frames.words[..])
      ensures machine.mainMemory[..] ==
                Written(old(machine.mainMemory[..]), LoaderWrites(pageTable[..], executable.Contents()))
    {
      var h := ReadHeader(executable);
      var table := Allocate(frames, PagesFor(h));
      LoadProgram(machine.mainMemory, table, h, executable);
      numPages := table.Length;
      pageTable := table;
    }

    /** The machine translates through this table from now on: its accesses reach only this space's frames. */
    method RestoreState(machine: Machine)
      modifies machine`pageTable
      ensures machine.pageTable == pageTable
      ensures forall a: word | Mapped(machine.pageTable[..], a) ::
                PhysAddr(machine.pageTable[..], a) / 512 in Frames(pageTable[..])
    {
      machine.pageTable := pageTable;
      forall a: word | Mapped(pageTable[..], a)
        ensures PhysAddr(pageTable[..], a) / 512 in Frames(pageTable[..])
      {
        AccessInside(pageTable[..], a, 1, false);
        InFrames(pageTable[..], a / 512);
      }
    }

    /** Gives the frames back. */
    method Destroy(frames: BitMap)
      requires frames.Valid() && numPages == pageTable.Length && Injective(pageTable[..])
      requires forall i | 0 <= i < numPages ::
                 pageTable[i].physicalPage >= 0 && pageTable[i].physicalPage in frames.Bits()
      modifies frames.words
      ensures frames.Bits() == old(frames.Bits()) - Frames(pageTable[..])
    {
      ghost var fs := FrameList(pageTable[..]);
      for i := 0 to numPages
        invariant frames.Bits() == old(frames.Bits()) - Elems(fs[..i])
      {
        InMarked(old(frames.words[..]), frames.numBits, pageTable[i].physicalPage);
        frames.Clear(pageTable[i].physicalPage);
        assert fs[..i + 1] == fs[..i] + [fs[i]];
        ElemsAppend(fs[..i], fs[i]);
      }
      assert fs[..numPages] == fs;
    }
  }

  /** The table has the lowest clear frames if there are enough, and else none. */
  ghost predicate Allocated(clear: set<nat>, bits: set<nat>, pages: nat, table: Table, after: set<nat>)
  {
    if pages > |clear| then table == [] && after == bits
    else |table| == pages && NewTable(clear, table) && after == bits + Frames(table)
  }

  method Allocate(frames: BitMap, pages: nat) returns (table: array<TranslationEntry>)
    requires frames.Valid() && frames.numBits < 0x8000_0000
    modifies frames.words
    ensures fresh(table)
    ensures Allocated(old(frames.ClearBits()), old(frames.Bits()), pages, table[..], frames.Bits())
    ensures pages > |old(frames.ClearBits())| ==> frames.words[..] == old(frames.words[..])
  {
    var clear := frames.NumClear();
    if pages > clear {
      table := new TranslationEntry[0];
    } else {
      table := TakeFrames(frames, pages);
    }
  }

  /** Fills a table with the lowest clear frames; there are enough. */
  method TakeFrames(frames: BitMap, pages: nat) returns (table: array<TranslationEntry>)
    requires frames.Valid() && frames.numBits < 0x8000_0000 && pages <= |frames.ClearBits()|
    modifies frames.words
    ensures fresh(table) && table.Length == pages
    ensures NewTable(old(frames.ClearBits()), table[..])
    ensures frames.Bits() == old(frames.Bits()) + Frames(table[..])
  {
    ghost var clear0, bits0 := frames.ClearBits(), frames.Bits();
    ghost var fs: seq<int32>, entries: Table := [], [];
    MarkedCount(frames.words[..], frames.numBits);
    TakenNone(clear0, bits0);
    table := new TranslationEntry[pages];
    for i := 0 to pages
      invariant |fs| == i && Taken(clear0, bits0, frames.ClearBits(), frames.Bits(), fs)
      invariant table[..i] == entries && AllNew(entries, fs)
    {
      var f := TakeFrame(frames, clear0, bits0, fs);
      var e := TranslationEntry(i, f, true, false, false, false);
      SetEntry(table, i, e);
      fs, entries := fs + [f], entries + [e];
    }
    assert table[..] == entries;
    TableIsNew(clear0, fs, table[..]);
  }

  method SetEntry(table: array<TranslationEntry>, i: nat, e: TranslationEntry)
    requires i < table.Length
    modifies table
    ensures table[..i + 1] == old(table[..i]) + [e]
  {
    table[i] := e;
  }

  lemma TableIsNew(clear: set<nat>, fs: seq<int>, table: Table)
    requires LowestOf(clear, fs) && AllNew(table, fs)
    ensures NewTable(clear, table) && Frames(table) == Elems(fs)
  {
    assert FrameList(table) == fs;
  }

  method TakeFrame(frames: BitMap, ghost clear0: set<nat>, ghost bits0: set<nat>, ghost fs: seq<int>) returns (f: int32)
    requires frames.Valid() && frames.numBits < 0x8000_0000 && |fs| < |clear0|
    requires Taken(clear0, bits0, frames.ClearBits(), frames.Bits(), fs)
    modifies frames.words
    ensures Taken(clear0, bits0, frames.ClearBits(), frames.Bits(), fs + [f])
  {
    ghost var clear, bits := frames.ClearBits(), frames.Bits();
    assert clear != {};
    f := frames.Find();
    TakeOne(clear0, bits0, clear, bits, fs, f);
  }
}
