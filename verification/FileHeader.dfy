/**
 The file header (filesys/filehdr), which fills exactly one sector: the length of
 the file, the number of its data sectors, and a fixed table of their numbers.
 */
module FileHeaders {
  import opened Words
  import opened BitMaps
  import opened SynchDisks

  const NUM_DIRECT := 126

  datatype Header = Header(numBytes: int32, numSectors: int32, dataSectors: seq<int32>)

  /** The number of sectors for a file of `size` bytes, counted sector by sector. */
  function SectorsFor(size: int): int
    decreases if size < 0 then -size else size
  {
    if size > 0 then
      if size <= 512 then 1 else 1 + SectorsFor(size - 512)
    else if size <= -512 then SectorsFor(size + 512) - 1
    else 0
  }

  /** It is what `divRoundUp` computes with the host's division, which truncates toward zero. */
  lemma {:induction false} SectorsForIsDivRoundUp(size: int)
    ensures SectorsFor(size) ==
            if size >= 0 then size / 512 + (if size % 512 > 0 then 1 else 0) else -(-size / 512)
    decreases if size < 0 then -size else size
  {
    if size > 512 {
      SectorsForIsDivRoundUp(size - 512);
    } else if size <= -512 {
      SectorsForIsDivRoundUp(size + 512);
    }
  }

  lemma {:induction false} SectorsForBound(size: int)
    ensures if size >= 0 then 0 <= SectorsFor(size) <= size else size <= SectorsFor(size) <= 0
    decreases if size < 0 then -size else size
  {
    if size > 512 {
      SectorsForBound(size - 512);
    } else if size <= -512 {
      SectorsForBound(size + 512);
    }
  }

  function Max(x: int, y: int): int
  {
    if x < y then y else x
  }

  /** The data sectors a header refers to, in file order. */
  function Blocks(h: Header): seq<int32>
    requires h.numSectors <= |h.dataSectors|
  {
    h.dataSectors[..Max(0, h.numSectors)]
  }

  /** `sectors` sectors hold `size` bytes and one sector less would not. */
  ghost predicate JustCovers(sectors: int, size: int)
  {
    if size <= 0 then sectors <= 0 else (sectors - 1) * 512 < size <= sectors * 512
  }

  lemma {:induction false} SectorsForCovers(size: int)
    ensures JustCovers(SectorsFor(size), size)
    decreases if size < 0 then -size else size
  {
    if size > 512 {
      SectorsForCovers(size - 512);
    } else if size <= -512 {
      SectorsForCovers(size + 512);
    }
  }

  ghost predicate GoodHeader(h: Header)
  {
    && |h.dataSectors| == NUM_DIRECT
    && h.numSectors <= NUM_DIRECT && JustCovers(h.numSectors, h.numBytes)
    && (forall i | 0 <= i < h.numSectors :: 0 <= h.dataSectors[i] < NUM_SECTORS)
    && (forall i, j | 0 <= i < j < h.numSectors :: h.dataSectors[i] != h.dataSectors[j])
  }

  // ------------------------------------------------------- sector format

  function HeaderWords(h: Header): (ws: seq<word>)
    ensures |ws| == 2 + |h.dataSectors|
  {
    [ToWord(h.numBytes), ToWord(h.numSectors)]
    + seq(|h.dataSectors|, i requires 0 <= i < |h.dataSectors| => ToWord(h.dataSectors[i]))
  }

  /** The sector a header is stored as. */
  function EncodeHeader(h: Header): (b: seq<byte>)
    requires |h.dataSectors| == NUM_DIRECT
    ensures |b| == 512
  {
    EncodeWords(HeaderWords(h))
  }

  function DecodeHeader(b: seq<byte>): (h: Header)
    requires |b| == 512
    ensures |h.dataSectors| == NUM_DIRECT
  {
    var ws := DecodeWords(b);
    Header(ToInt(ws[0]), ToInt(ws[1]), seq(NUM_DIRECT, i requires 0 <= i < NUM_DIRECT => ToInt(ws[2 + i])))
  }

  /** On the disk the length comes first, then the number of sectors, then the table. */
  lemma HeaderLayout(h: Header, i: nat)
    requires |h.dataSectors| == NUM_DIRECT && i < NUM_DIRECT
    ensures WordAt(EncodeHeader(h), 0) == ToWord(h.numBytes) && WordAt(EncodeHeader(h), 1) == ToWord(h.numSectors)
    ensures WordAt(EncodeHeader(h), 2 + i) == ToWord(h.dataSectors[i])
  {
    WordAtEncoded(HeaderWords(h), 0);
    WordAtEncoded(HeaderWords(h), 1);
    WordAtEncoded(HeaderWords(h), 2 + i);
  }

  lemma DecodeEncodeHeader(h: Header)
    requires |h.dataSectors| == NUM_DIRECT
    ensures DecodeHeader(EncodeHeader(h)) == h
  {
    DecodeEncodeWords(HeaderWords(h));
  }

  /** The numbers listed in a sequence. */
  ghost function Elems(ss: seq<int>): set<nat>
  {
    set s: nat | s in ss
  }

  lemma ElemsAppend(ss: seq<int>, s: nat)
    ensures Elems(ss + [s]) == Elems(ss) + {s}
  {
  }

  lemma PrefixUpdate<T>(xs: seq<T>, i: nat, x: T)
    requires i < |xs|
    ensures xs[i := x][..i + 1] == xs[..i] + [x]
  {
  }

  // ---------------------------------------------------- lowest clear bits

  /** `ss` lists, in increasing order, the lowest members of `clear`. */
  ghost predicate LowestOf(clear: set<nat>, ss: seq<int>)
  {
    && (forall i | 0 <= i < |ss| :: ss[i] in clear)
    && (forall i, j | 0 <= i < j < |ss| :: ss[i] < ss[j])
    && (forall i, c | 0 <= i < |ss| && c in clear && c !in ss :: ss[i] < c)
  }

  /** A choice of that many lowest members is unique. */
  lemma {:induction false} LowestUnique(clear: set<nat>, ss: seq<int>, tt: seq<int>)
    requires LowestOf(clear, ss) && LowestOf(clear, tt) && |ss| == |tt|
    ensures ss == tt
  {
    if ss != [] {
      var n := |ss| - 1;
      LowestPrefix(clear, ss);
      LowestPrefix(clear, tt);
      LowestUnique(clear, ss[..n], tt[..n]);
      LastAtMost(clear, ss, tt);
      LastAtMost(clear, tt, ss);
      assert ss == ss[..n] + [ss[n]] && tt == tt[..n] + [tt[n]];
    }
  }

  lemma LastAtMost(clear: set<nat>, ss: seq<int>, tt: seq<int>)
    requires LowestOf(clear, ss) && LowestOf(clear, tt) && |ss| == |tt| > 0
    requires ss[..|ss| - 1] == tt[..|ss| - 1]
    ensures ss[|ss| - 1] <= tt[|ss| - 1]
  {
    var n := |ss| - 1;
    forall i | 0 <= i < n
      ensures ss[i] == tt[i]
    {
      assert ss[i] == ss[..n][i] && tt[i] == tt[..n][i];
    }
  }

  lemma LowestPrefix(clear: set<nat>, ss: seq<int>)
    requires LowestOf(clear, ss) && ss != []
    ensures LowestOf(clear, ss[..|ss| - 1])
  {
    var n := |ss| - 1;
    forall i, c | 0 <= i < n && c in clear && c !in ss[..n]
      ensures ss[i] < c
    {
      if c in ss {
        assert c == ss[n];
      }
    }
  }

  lemma LowestExtend(clear: set<nat>, ss: seq<int>, r: int)
    requires LowestOf(clear, ss)
    requires r >= 0 && r in clear && r !in ss
    requires forall c | c in clear && c !in ss :: r <= c
    ensures LowestOf(clear, ss + [r])
  {
    var tt := ss + [r];
    forall i, c | 0 <= i < |tt| && c in clear && c !in tt
      ensures tt[i] < c
    {
      assert c !in ss && tt[|ss|] == r;
    }
  }

  /** Marking the sectors `ss` one by one has led from one pair of sets to another. */
  ghost predicate Taken(clear0: set<nat>, bits0: set<nat>, clear: set<nat>, bits: set<nat>, ss: seq<int>)
  {
    && LowestOf(clear0, ss)
    && clear == clear0 - Elems(ss)
    && bits == bits0 + Elems(ss)
    && |clear| == |clear0| - |ss|
  }

  lemma TakenNone(clear: set<nat>, bits: set<nat>)
    ensures Taken(clear, bits, clear, bits, [])
  {
  }

  lemma TakeOne(clear0: set<nat>, bits0: set<nat>, clear: set<nat>, bits: set<nat>, ss: seq<int>, r: nat)
    requires Taken(clear0, bits0, clear, bits, ss)
    requires r in clear && forall c | c in clear :: r <= c
    ensures Taken(clear0, bits0, clear - {r}, bits + {r}, ss + [r])
  {
    ElemsAppend(ss, r);
    forall c | c in clear0 && c !in ss
      ensures r <= c
    {
      assert c in clear;
    }
    LowestExtend(clear0, ss, r);
  }

  // ------------------------------------------------------------ the class

  class FileHeader {
    var numBytes: int32
    var numSectors: int32
    var dataSectors: seq<int32>

    function Value(): Header
      reads this
    {
      Header(numBytes, numSectors, dataSectors)
    }

    /** There is no initialisation: the fields hold whatever the memory held. */
    constructor ()
      ensures |dataSectors| == NUM_DIRECT
    {
      var memory := new int32[NUM_DIRECT];
      dataSectors := memory[..];
    }

    /** Takes the data sectors of a new file out of the map of free sectors. */
    method Allocate(freeMap: BitMap, fileSize: int32) returns (ok: bool)
      requires freeMap.Valid() && freeMap.numBits < 0x8000_0000
      requires |dataSectors| == NUM_DIRECT
      requires SectorsFor(fileSize) <= NUM_DIRECT || |freeMap.ClearBits()| < SectorsFor(fileSize)
      modifies this, freeMap.words
      ensures numBytes == fileSize && numSectors == SectorsFor(fileSize)
      ensures |dataSectors| == NUM_DIRECT
      ensures ok <==> SectorsFor(fileSize) <= |old(freeMap.ClearBits())|
      ensures !ok ==> freeMap.words[..] == old(freeMap.words[..]) && dataSectors == old(dataSectors)
      ensures ok ==>
                && LowestOf(old(freeMap.ClearBits()), Blocks(Value()))
                && freeMap.Bits() == old(freeMap.Bits()) + Elems(Blocks(Value()))
                && |freeMap.ClearBits()| == |old(freeMap.ClearBits())| - |Blocks(Value())|
    {
      SectorsForBound(fileSize);
      numBytes := fileSize;
      numSectors := SectorsFor(fileSize);
      var clear := freeMap.NumClear();
      if clear < numSectors {
        return false;
      }
      TakeSectors(freeMap, Max(0, numSectors));
      return true;
    }

    /** The first `n` entries of the table become the lowest clear sectors. */
    method TakeSectors(freeMap: BitMap, n: nat)
      requires freeMap.Valid() && freeMap.numBits < 0x8000_0000
      requires n <= |dataSectors| && n <= |freeMap.ClearBits()|
      modifies this, freeMap.words
      ensures numBytes == old(numBytes) && numSectors == old(numSectors) && |dataSectors| == old(|dataSectors|)
      ensures Taken(old(freeMap.ClearBits()), old(freeMap.Bits()),
                    freeMap.ClearBits(), freeMap.Bits(), dataSectors[..n])
    {
      TakenNone(freeMap.ClearBits(), freeMap.Bits());
      assert dataSectors[..0] == [];
      for i := 0 to n
        invariant numBytes == old(numBytes) && numSectors == old(numSectors) && |dataSectors| == old(|dataSectors|)
        invariant Taken(old(freeMap.ClearBits()), old(freeMap.Bits()),
                        freeMap.ClearBits(), freeMap.Bits(), dataSectors[..i])
      {
        TakeSector(freeMap, i, old(freeMap.ClearBits()), old(freeMap.Bits()));
      }
    }

    /** Entry `i` of the table becomes the lowest clear sector. */
    method TakeSector(freeMap: BitMap, i: nat, ghost clear0: set<nat>, ghost bits0: set<nat>)
      requires freeMap.Valid() && freeMap.numBits < 0x8000_0000
      requires i < |dataSectors| && i < |clear0|
      requires Taken(clear0, bits0, freeMap.ClearBits(), freeMap.Bits(), dataSectors[..i])
      modifies this, freeMap.words
      ensures numBytes == old(numBytes) && numSectors == old(numSectors) && |dataSectors| == old(|dataSectors|)
      ensures Taken(clear0, bits0, freeMap.ClearBits(), freeMap.Bits(), dataSectors[..i + 1])
    {
      ghost var clear, bits := freeMap.ClearBits(), freeMap.Bits();
      assert clear != {};
      var s := freeMap.Find();
      TakeOne(clear0, bits0, clear, bits, dataSectors[..i], s);
      PrefixUpdate(dataSectors, i, s);
      dataSectors := dataSectors[i := s];
    }

    /** Returns the data sectors to the map of free sectors. */
    method Deallocate(freeMap: BitMap)
      requires freeMap.Valid() && GoodHeader(Value())
      // the assertion on every iteration: the sector ought to be marked
      requires forall i | 0 <= i < |Blocks(Value())| :: Blocks(Value())[i] in freeMap.Bits()
      modifies freeMap.words
      ensures freeMap.Bits() == old(freeMap.Bits()) - Elems(Blocks(Value()))
    {
      ghost var blocks := Blocks(Value());
      for i := 0 to Max(0, numSectors)
        invariant freeMap.Bits() == old(freeMap.Bits()) - Elems(blocks[..i])
      {
        assert dataSectors[i] == blocks[i] && blocks[i] !in blocks[..i];
        InMarked(freeMap.words[..], freeMap.numBits, dataSectors[i]);
        var marked := freeMap.Test(dataSectors[i]);
        assert marked;
        freeMap.Clear(dataSectors[i]);
        assert blocks[..i + 1] == blocks[..i] + [blocks[i]];
        ElemsAppend(blocks[..i], blocks[i]);
      }
      assert blocks[..|blocks|] == blocks;
    }

    method FetchFrom(disk: SynchDisk, sector: int)
      requires disk.Valid() && 0 <= sector < NUM_SECTORS
      modifies this
      ensures Value() == DecodeHeader(disk.sectors[sector])
    {
      var raw := new byte[512];
      disk.ReadSector(sector, raw, 0);
      assert raw[..] == disk.sectors[sector];
      var h := DecodeHeader(raw[..]);
      numBytes, numSectors, dataSectors := h.numBytes, h.numSectors, h.dataSectors;
    }

    method WriteBack(disk: SynchDisk, sector: int)
      requires disk.Valid() && 0 <= sector < NUM_SECTORS
      requires |dataSectors| == NUM_DIRECT
      modifies disk
      ensures disk.Valid()
      ensures disk.sectors == old(disk.sectors)[sector := EncodeHeader(Value())]
    {
      var bytes := EncodeHeader(Value());
      var raw := new byte[512](j requires 0 <= j < 512 => bytes[j]);
      assert raw[0..512] == bytes;
      disk.WriteSector(sector, raw, 0);
    }

    function ByteToSector(offset: nat): int32
      requires offset / 512 < |dataSectors|
      reads this
    {
      dataSectors[offset / 512]
    }
  }
}
