/**
 Executables (bin/noff.h) and how an address space loads one (userprog/addrspace). For
 each page the loader reads 512 bytes of the file to the segment's virtual address plus the
 start of the page's frame, which is the place of those bytes only if the frames follow
 one another or the segment starts at address zero.
 */
module Loading {
  import opened Words
  import opened FileHeaders
  import opened OpenFiles
  import opened Translation

  const NOFF_MAGIC := 0xbadfad
  const USER_STACK_SIZE := 1024

  // ------------------------------------------------------------ executables

  datatype Segment = Segment(virtualAddr: int32, inFileAddr: int32, size: int32)

  datatype NoffHeader = NoffHeader(noffMagic: int32, code: Segment, initData: Segment, uninitData: Segment)

  function SegmentAt(ws: seq<word>, i: nat): Segment
    requires i + 3 <= |ws|
  {
    Segment(ToInt(ws[i]), ToInt(ws[i + 1]), ToInt(ws[i + 2]))
  }

  function DecodeNoff(file: seq<byte>): NoffHeader
    requires |file| >= 40
  {
    var ws := DecodeWords(file[..40]);
    NoffHeader(ToInt(ws[0]), SegmentAt(ws, 1), SegmentAt(ws, 4), SegmentAt(ws, 7))
  }

  function SegmentWords(seg: Segment): seq<word>
  {
    [ToWord(seg.virtualAddr), ToWord(seg.inFileAddr), ToWord(seg.size)]
  }

  function NoffWords(h: NoffHeader): (ws: seq<word>)
    ensures |ws| == 10
  {
    [ToWord(h.noffMagic)] + SegmentWords(h.code) + SegmentWords(h.initData) + SegmentWords(h.uninitData)
  }

  function EncodeNoff(h: NoffHeader): (file: seq<byte>)
    ensures |file| == 40
  {
    EncodeWords(NoffWords(h))
  }

  lemma DecodeEncodeNoff(h: NoffHeader, rest: seq<byte>)
    ensures DecodeNoff(EncodeNoff(h) + rest) == h
  {
    var ws := NoffWords(h);
    assert (EncodeNoff(h) + rest)[..40] == EncodeNoff(h);
    DecodeEncodeWords(ws);
    assert SegmentAt(ws, 1) == h.code && SegmentAt(ws, 4) == h.initData && SegmentAt(ws, 7) == h.uninitData;
  }

  /** The words of a header: the magic number, and for each segment its virtual address, place in the file and size. */
  lemma NoffLayout(file: seq<byte>, i: nat)
    requires |file| >= 40 && i < 3
    ensures ToWord(DecodeNoff(file).noffMagic) == WordAt(file, 0)
    ensures var h := DecodeNoff(file);
            var seg := if i == 0 then h.code else if i == 1 then h.initData else h.uninitData;
            && ToWord(seg.virtualAddr) == WordAt(file, 1 + 3 * i)
            && ToWord(seg.inFileAddr) == WordAt(file, 2 + 3 * i)
            && ToWord(seg.size) == WordAt(file, 3 + 3 * i)
  {
    forall k: nat | k < 10
      ensures DecodeWords(file[..40])[k] == WordAt(file, k)
    {
    }
  }

  predicate Loadable(seg: Segment)
  {
    seg.size > 0 ==> seg.inFileAddr >= 0
  }

  /** What the loader takes for granted: a whole header with the magic number, and segments that are in the file. */
  predicate IsNoff(file: seq<byte>)
  {
    && |file| >= 40 && DecodeNoff(file).noffMagic == NOFF_MAGIC
    && Loadable(DecodeNoff(file).code) && Loadable(DecodeNoff(file).initData)
  }

  /** The segments and the stack, in pages; sizes are added as unsigned numbers. */
  function PagesFor(h: NoffHeader): nat
  {
    var size := (h.code.size + h.initData.size + h.uninitData.size + USER_STACK_SIZE) % 0x1_0000_0000;
    size / 512 + if size % 512 > 0 then 1 else 0
  }

  /** The pages hold the three segments and the stack, and one fewer would not. */
  lemma PagesHold(h: NoffHeader)
    requires h.code.size >= 0 && h.initData.size >= 0 && h.uninitData.size >= 0
    requires h.code.size + h.initData.size + h.uninitData.size + 1024 < 0x1_0000_0000
    ensures var bytes := h.code.size + h.initData.size + h.uninitData.size + 1024;
            512 * (PagesFor(h) - 1) < bytes <= 512 * PagesFor(h)
  {
    var bytes := h.code.size + h.initData.size + h.uninitData.size + 1024;
    assert bytes == 512 * (bytes / 512) + bytes % 512;
  }

  // ------------------------------------------------------------------ frames

  ghost function FrameList(table: Table): seq<int>
  {
    seq(|table|, i requires 0 <= i < |table| => table[i].physicalPage)
  }

  ghost function Frames(table: Table): set<nat>
  {
    Elems(FrameList(table))
  }

  lemma InFrames(table: Table, i: nat)
    requires i < |table| && table[i].physicalPage >= 0
    ensures table[i].physicalPage in Frames(table)
  {
    assert FrameList(table)[i] == table[i].physicalPage;
  }

  /** The frames follow one another. */
  ghost predicate Contiguous(table: Table)
  {
    forall i | 0 <= i < |table| :: table[i].physicalPage == table[0].physicalPage + i
  }

  ghost predicate RealFrames(table: Table)
  {
    forall i | 0 <= i < |table| :: table[i].physicalPage >= 0
  }

  // ------------------------------------------------------------------ writes

  /** Bytes that are put into memory from address `at` on. */
  datatype Write = Write(at: int, bytes: seq<byte>)

  predicate Covers(w: Write, a: int)
  {
    w.at <= a < w.at + |w.bytes|
  }

  /** What is at address `a` after the writes, if `b` was there before. */
  function LastByte(ws: seq<Write>, a: int, b: byte): byte
  {
    if ws == [] then b
    else
      var w := ws[|ws| - 1];
      if Covers(w, a) then w.bytes[a - w.at] else LastByte(ws[..|ws| - 1], a, b)
  }

  /** The memory after the writes; bytes written beside it are lost. */
  function Written(mem: seq<byte>, ws: seq<Write>): (after: seq<byte>)
    ensures |after| == |mem|
  {
    seq(|mem|, a requires 0 <= a < |mem| => LastByte(ws, a, mem[a]))
  }

  /** 512 bytes of a segment's part of the file, or what there is of them. */
  function PageBytes(seg: Segment, file: seq<byte>, i: nat): seq<byte>
    requires seg.inFileAddr >= 0
  {
    var position := seg.inFileAddr + i * 512;
    Slice(file, position, Clip(|file|, 512, position))
  }

  function PageWrite(table: Table, seg: Segment, file: seq<byte>, i: nat): Write
    requires seg.inFileAddr >= 0 && i < |table|
  {
    Write(seg.virtualAddr + table[i].physicalPage * 512, PageBytes(seg, file, i))
  }

  function SegmentWrites(table: Table, seg: Segment, file: seq<byte>): seq<Write>
    requires Loadable(seg)
  {
    if seg.size <= 0 then [] else seq(|table|, i requires 0 <= i < |table| => PageWrite(table, seg, file, i))
  }

  function LoaderWrites(table: Table, file: seq<byte>): seq<Write>
    requires IsNoff(file)
  {
    SegmentWrites(table, DecodeNoff(file).code, file) + SegmentWrites(table, DecodeNoff(file).initData, file)
  }

  lemma {:induction false} LastByteAppend(ws: seq<Write>, vs: seq<Write>, a: int, b: byte)
    ensures LastByte(ws + vs, a, b) == LastByte(vs, a, LastByte(ws, a, b))
  {
    if vs == [] {
      assert ws + vs == ws;
    } else {
      var n := |vs| - 1;
      assert (ws + vs)[..|ws + vs| - 1] == ws + vs[..n];
      LastByteAppend(ws, vs[..n], a, b);
    }
  }

  lemma WrittenAppend(mem: seq<byte>, ws: seq<Write>, vs: seq<Write>)
    ensures Written(Written(mem, ws), vs) == Written(mem, ws + vs)
  {
    forall a | 0 <= a < |mem|
      ensures LastByte(ws + vs, a, mem[a]) == LastByte(vs, a, LastByte(ws, a, mem[a]))
    {
      LastByteAppend(ws, vs, a, mem[a]);
    }
  }

  // --------------------------------------------------- what a program sees of it

  /** No byte that is written is one of the program's. */
  ghost predicate Misses(ws: seq<Write>, table: Table)
  {
    forall w, v: word | w in ws && Mapped(table, v) :: !Covers(w, PhysAddr(table, v))
  }

  /** A program sees the same in both memories. */
  ghost predicate SameBytes(mem: seq<byte>, after: seq<byte>, table: Table)
    requires IsMemory(mem) && IsMemory(after)
  {
    forall v: word | Mapped(table, v) :: ByteAt(after, table, v) == ByteAt(mem, table, v)
  }

  lemma {:induction false} MissedByte(ws: seq<Write>, a: int, b: byte)
    requires forall w | w in ws :: !Covers(w, a)
    ensures LastByte(ws, a, b) == b
  {
    if ws != [] {
      MissedByte(ws[..|ws| - 1], a, b);
    }
  }

  /** Once an address is written, it does not matter what was there. */
  lemma {:induction false} HitByte(ws: seq<Write>, w: Write, a: int, b: byte, c: byte)
    requires w in ws && Covers(w, a)
    ensures LastByte(ws, a, b) == LastByte(ws, a, c)
  {
    if !Covers(ws[|ws| - 1], a) {
      HitByte(ws[..|ws| - 1], w, a, b, c);
    }
  }

  lemma MissedUnseen(mem: seq<byte>, ws: seq<Write>, table: Table)
    requires IsMemory(mem) && Misses(ws, table)
    ensures SameBytes(mem, Written(mem, ws), table)
  {
    forall v: word | Mapped(table, v)
      ensures ByteAt(Written(mem, ws), table, v) == ByteAt(mem, table, v)
    {
      AccessInside(table, v, 1, false);
      MissedByte(ws, PhysAddr(table, v), mem[PhysAddr(table, v)]);
    }
  }

  /** A memory in which one byte cannot have been there already. */
  lemma HitSeen(ws: seq<Write>, w: Write, table: Table, v: word) returns (c: byte)
    requires w in ws && Mapped(table, v) && Covers(w, PhysAddr(table, v))
    ensures forall mem | IsMemory(mem) && ByteAt(mem, table, v) == c :: ByteAt(Written(mem, ws), table, v) != c
  {
    var a := PhysAddr(table, v);
    AccessInside(table, v, 1, false);
    c := (LastByte(ws, a, 0) + 1) % 256;
    HitByte(ws, w, a, 0, c);
  }

  /** Whatever the memory holds, a program sees nothing of the writes exactly if they all miss it. */
  lemma UnseenIff(ws: seq<Write>, table: Table)
    ensures Misses(ws, table) <==> forall mem | IsMemory(mem) :: SameBytes(mem, Written(mem, ws), table)
  {
    if Misses(ws, table) {
      forall mem | IsMemory(mem)
        ensures SameBytes(mem, Written(mem, ws), table)
      {
        MissedUnseen(mem, ws, table);
      }
    } else {
      var w, v: word :| w in ws && Mapped(table, v) && Covers(w, PhysAddr(table, v));
      var c := HitSeen(ws, w, table, v);
      AccessInside(table, v, 1, false);
      var mem := seq(65536, _ => c);
      assert !SameBytes(mem, Written(mem, ws), table);
    }
  }

  // -------------------------------------------------- segments in their own frames

  /** Every byte that is written is in one of the frames. */
  ghost predicate Within(ws: seq<Write>, frames: set<nat>)
  {
    forall w, a: int | w in ws && Covers(w, a) :: 0 <= a && a / 512 in frames
  }

  lemma WithinMisses(ws: seq<Write>, own: Table, other: Table)
    requires Within(ws, Frames(own)) && Disjoint(own, other)
    ensures Misses(ws, other)
  {
    forall w, v: word | w in ws && Mapped(other, v)
      ensures !Covers(w, PhysAddr(other, v))
    {
      AccessInside(other, v, 1, false);
      assert other[v / 512].physicalPage !in Frames(own);
    }
  }

  /** How much of a file of `length` bytes, from the segment's start on, goes into `n` pages. */
  function Length(seg: Segment, n: nat, length: nat): nat
    requires Loadable(seg)
  {
    if seg.size <= 0 || length <= seg.inFileAddr then 0
    else if length - seg.inFileAddr < n * 512 then length - seg.inFileAddr
    else n * 512
  }

  /** What is read for the segment, to the end of the file or of the space, fits behind its virtual address. */
  ghost predicate Fits(seg: Segment, n: nat, file: seq<byte>)
    requires Loadable(seg)
  {
    Length(seg, n, |file|) == 0 || (0 <= seg.virtualAddr && seg.virtualAddr + Length(seg, n, |file|) <= n * 512)
  }

  /** A segment at address zero goes into its own frames, wherever they are. */
  lemma AnchoredWithin(table: Table, seg: Segment, file: seq<byte>)
    requires Loadable(seg) && RealFrames(table) && seg.virtualAddr == 0
    ensures Within(SegmentWrites(table, seg, file), Frames(table))
  {
    var ws := SegmentWrites(table, seg, file);
    forall w, a: int | w in ws && Covers(w, a)
      ensures 0 <= a && a / 512 in Frames(table)
    {
      var i :| 0 <= i < |table| && w == PageWrite(table, seg, file, i);
      InFrames(table, i);
      assert a / 512 == table[i].physicalPage;
    }
  }

  /** In frames that follow one another, the pages of a segment make up one stretch of the file. */
  lemma StretchByte(table: Table, seg: Segment, file: seq<byte>, i: nat, a: int)
    requires seg.size > 0 && seg.inFileAddr >= 0 && Contiguous(table) && i < |table|
    ensures var x := a - table[0].physicalPage * 512 - seg.virtualAddr;
            var w := PageWrite(table, seg, file, i);
            && (Covers(w, a) <==> i * 512 <= x < (i + 1) * 512 && x < Length(seg, |table|, |file|))
            && (Covers(w, a) ==> w.bytes[a - w.at] == file[seg.inFileAddr + x])
  {
    assert table[i].physicalPage == table[0].physicalPage + i;
  }

  lemma SegmentCovers(table: Table, seg: Segment, file: seq<byte>, x: int)
    requires seg.size > 0 && seg.inFileAddr >= 0 && Contiguous(table) && 0 <= x < Length(seg, |table|, |file|)
    ensures exists w :: w in SegmentWrites(table, seg, file)
                     && Covers(w, table[0].physicalPage * 512 + seg.virtualAddr + x)
  {
    var i := x / 512;
    var ws := SegmentWrites(table, seg, file);
    assert i * 512 <= x < (i + 1) * 512;
    StretchByte(table, seg, file, i, table[0].physicalPage * 512 + seg.virtualAddr + x);
    assert ws[i] in ws;
  }

  /** There it stays in its own frames exactly if it fits. */
  lemma ContiguousWithinIff(table: Table, seg: Segment, file: seq<byte>)
    requires Loadable(seg) && RealFrames(table) && Contiguous(table)
    ensures Within(SegmentWrites(table, seg, file), Frames(table)) <==> Fits(seg, |table|, file)
  {
    if seg.size > 0 {
      if Fits(seg, |table|, file) {
        FittingWithin(table, seg, file);
      } else {
        SpillsOver(table, seg, file);
      }
    }
  }

  lemma FrameOf(table: Table, a: int)
    requires RealFrames(table) && Contiguous(table) && table != []
    ensures a >= 0 && a / 512 in Frames(table) <==>
              table[0].physicalPage * 512 <= a < (table[0].physicalPage + |table|) * 512
  {
    var i := a / 512 - table[0].physicalPage;
    if 0 <= i < |table| {
      assert table[i].physicalPage == a / 512;
      InFrames(table, i);
    }
  }

  lemma FittingWithin(table: Table, seg: Segment, file: seq<byte>)
    requires seg.size > 0 && seg.inFileAddr >= 0 && RealFrames(table) && Contiguous(table) && Fits(seg, |table|, file)
    ensures Within(SegmentWrites(table, seg, file), Frames(table))
  {
    var ws := SegmentWrites(table, seg, file);
    forall w, a: int | w in ws && Covers(w, a)
      ensures 0 <= a && a / 512 in Frames(table)
    {
      var i :| 0 <= i < |table| && w == PageWrite(table, seg, file, i);
      StretchByte(table, seg, file, i, a);
      FrameOf(table, a);
    }
  }

  lemma SpillsOver(table: Table, seg: Segment, file: seq<byte>)
    requires seg.size > 0 && seg.inFileAddr >= 0 && RealFrames(table) && Contiguous(table) && !Fits(seg, |table|, file)
    ensures !Within(SegmentWrites(table, seg, file), Frames(table))
  {
    var x := if seg.virtualAddr < 0 then 0 else Length(seg, |table|, |file|) - 1;
    var a := table[0].physicalPage * 512 + seg.virtualAddr + x;
    SegmentCovers(table, seg, file, x);
    FrameOf(table, a);
    var w :| w in SegmentWrites(table, seg, file) && Covers(w, a);
  }

  /** A segment of an executable that is sure to be loaded into the program's own frames. */
  ghost predicate Tame(table: Table, seg: Segment, file: seq<byte>)
    requires Loadable(seg)
  {
    seg.virtualAddr == 0 || (Contiguous(table) && Fits(seg, |table|, file))
  }

  lemma TameWithin(table: Table, file: seq<byte>)
    requires IsNoff(file) && RealFrames(table)
    requires Tame(table, DecodeNoff(file).code, file) && Tame(table, DecodeNoff(file).initData, file)
    ensures Within(LoaderWrites(table, file), Frames(table))
  {
    TameSegment(table, DecodeNoff(file).code, file);
    TameSegment(table, DecodeNoff(file).initData, file);
  }

  lemma TameSegment(table: Table, seg: Segment, file: seq<byte>)
    requires Loadable(seg) && RealFrames(table) && Tame(table, seg, file)
    ensures Within(SegmentWrites(table, seg, file), Frames(table))
  {
    if seg.virtualAddr == 0 {
      AnchoredWithin(table, seg, file);
    } else {
      ContiguousWithinIff(table, seg, file);
    }
  }

  // ---------------------------------------------------- what the program itself sees

  /** The virtual address is one at which the loader puts a byte of the segment. */
  predicate InSegment(seg: Segment, n: nat, file: seq<byte>, v: int)
    requires Loadable(seg)
  {
    seg.virtualAddr <= v < seg.virtualAddr + Length(seg, n, |file|)
  }

  lemma {:induction false} StretchLast(table: Table, seg: Segment, file: seq<byte>, n: nat, a: int, b: byte)
    requires seg.size > 0 && seg.inFileAddr >= 0 && Contiguous(table) && n <= |table| && table != []
    ensures var x := a - table[0].physicalPage * 512 - seg.virtualAddr;
            LastByte(SegmentWrites(table, seg, file)[..n], a, b) ==
              if 0 <= x < n * 512 && x < Length(seg, |table|, |file|) then file[seg.inFileAddr + x] else b
  {
    var ws := SegmentWrites(table, seg, file);
    if n > 0 {
      assert ws[..n][..n - 1] == ws[..n - 1] && ws[..n][n - 1] == PageWrite(table, seg, file, n - 1);
      StretchByte(table, seg, file, n - 1, a);
      StretchLast(table, seg, file, n - 1, a, b);
    }
  }

  lemma SegmentByte(table: Table, seg: Segment, file: seq<byte>, v: int, b: byte)
    requires Loadable(seg) && Contiguous(table) && table != []
    ensures LastByte(SegmentWrites(table, seg, file), table[0].physicalPage * 512 + v, b) ==
              if InSegment(seg, |table|, file, v) then file[seg.inFileAddr + (v - seg.virtualAddr)] else b
  {
    if seg.size > 0 {
      var ws := SegmentWrites(table, seg, file);
      assert ws[..|table|] == ws;
      StretchLast(table, seg, file, |table|, table[0].physicalPage * 512 + v, b);
    }
  }

  /** What a program ought to find at an address: its initialised data, else its code, else what was there. */
  function ProgramByte(code: Segment, data: Segment, n: nat, file: seq<byte>, v: int, b: byte): byte
    requires Loadable(code) && Loadable(data)
  {
    if InSegment(data, n, file, v) then file[data.inFileAddr + (v - data.virtualAddr)]
    else if InSegment(code, n, file, v) then file[code.inFileAddr + (v - code.virtualAddr)]
    else b
  }

  /** In scattered frames, page `i` of a segment at address zero is in the frame of page `i` of the space. */
  lemma {:induction false} AnchoredLast(table: Table, seg: Segment, file: seq<byte>, n: nat, v: nat, b: byte)
    requires seg.size > 0 && seg.inFileAddr >= 0 && seg.virtualAddr == 0
    requires Injective(table) && v / 512 < |table| && n <= |table|
    ensures LastByte(SegmentWrites(table, seg, file)[..n], table[v / 512].physicalPage * 512 + v % 512, b) ==
              if v / 512 < n && v < Length(seg, |table|, |file|) then file[seg.inFileAddr + v] else b
  {
    var ws := SegmentWrites(table, seg, file);
    if n > 0 {
      assert ws[..n][..n - 1] == ws[..n - 1] && ws[..n][n - 1] == PageWrite(table, seg, file, n - 1);
      AnchoredByte(table, seg, file, n - 1, v);
      AnchoredLast(table, seg, file, n - 1, v, b);
    }
  }

  lemma AnchoredByte(table: Table, seg: Segment, file: seq<byte>, i: nat, v: nat)
    requires seg.size > 0 && seg.inFileAddr >= 0 && seg.virtualAddr == 0
    requires Injective(table) && v / 512 < |table| && i < |table|
    ensures var w, a := PageWrite(table, seg, file, i), table[v / 512].physicalPage * 512 + v % 512;
            && (Covers(w, a) <==> v / 512 == i && v < Length(seg, |table|, |file|))
            && (Covers(w, a) ==> w.bytes[a - w.at] == file[seg.inFileAddr + v])
  {
    assert v == 512 * (v / 512) + v % 512;
    if v / 512 != i {
      assert table[v / 512].physicalPage != table[i].physicalPage;
    }
  }

  /** The segment is not there, starts at address zero, or is loaded into frames that follow one another. */
  ghost predicate Placed(table: Table, seg: Segment)
  {
    seg.size <= 0 || seg.virtualAddr == 0 || Contiguous(table)
  }

  lemma PlacedByte(table: Table, seg: Segment, file: seq<byte>, v: word, b: byte)
    requires Loadable(seg) && Injective(table) && Placed(table, seg) && Mapped(table, v)
    ensures LastByte(SegmentWrites(table, seg, file), PhysAddr(table, v), b) ==
              if InSegment(seg, |table|, file, v) then file[seg.inFileAddr + (v - seg.virtualAddr)] else b
  {
    AccessInside(table, v, 1, false);
    if seg.size > 0 && seg.virtualAddr == 0 {
      var ws := SegmentWrites(table, seg, file);
      assert ws[..|table|] == ws;
      AnchoredLast(table, seg, file, |table|, v, b);
    } else if seg.size > 0 {
      ContiguousPlace(table, v);
      SegmentByte(table, seg, file, v, b);
    }
  }

  lemma LoadedSegments(mem: seq<byte>, table: Table, code: Segment, data: Segment, file: seq<byte>, v: word)
    requires IsMemory(mem) && Loadable(code) && Loadable(data) && Injective(table) && Mapped(table, v)
    requires Placed(table, code) && Placed(table, data)
    ensures ByteAt(Written(mem, SegmentWrites(table, code, file) + SegmentWrites(table, data, file)), table, v)
         == ProgramByte(code, data, |table|, file, v, ByteAt(mem, table, v))
  {
    var a, ws := PhysAddr(table, v), SegmentWrites(table, code, file);
    AccessInside(table, v, 1, false);
    LastByteAppend(ws, SegmentWrites(table, data, file), a, mem[a]);
    PlacedByte(table, code, file, v, mem[a]);
    PlacedByte(table, data, file, v, LastByte(ws, a, mem[a]));
  }

  /** A program whose segments start at address zero, or whose frames follow one another, finds what it ought to. */
  lemma LoadedProgram(mem: seq<byte>, table: Table, file: seq<byte>, v: word)
    requires IsMemory(mem) && IsNoff(file) && Injective(table) && Mapped(table, v)
    requires Placed(table, DecodeNoff(file).code) && Placed(table, DecodeNoff(file).initData)
    ensures ByteAt(Written(mem, LoaderWrites(table, file)), table, v)
         == ProgramByte(DecodeNoff(file).code, DecodeNoff(file).initData, |table|, file, v, ByteAt(mem, table, v))
  {
    LoadedSegments(mem, table, DecodeNoff(file).code, DecodeNoff(file).initData, file, v);
  }

  lemma ContiguousPlace(table: Table, v: word)
    requires Contiguous(table) && Mapped(table, v)
    ensures PhysAddr(table, v) == table[0].physicalPage * 512 + v
  {
    AccessInside(table, v, 1, false);
    assert table[v / 512].physicalPage == table[0].physicalPage + v / 512;
    assert v == 512 * (v / 512) + v % 512;
  }

  // --------------------------------------- exactly when a segment is where it belongs

  /** Where byte `x` of a segment is put. */
  function Place(table: Table, seg: Segment, x: nat): int
    requires x / 512 < |table|
  {
    seg.virtualAddr + table[x / 512].physicalPage * 512 + x % 512
  }

  /** The pages that a byte is put by and looked for in are as far apart as their frames. */
  ghost predicate Meets(table: Table, seg: Segment, length: nat)
    requires Loadable(seg)
  {
    forall x: nat | x < Length(seg, |table|, length) && Looked(table, seg, x) ::
      Place(table, seg, x) == PhysAddr(table, seg.virtualAddr + x)
  }

  /** The program can look for byte `x` of the segment. */
  ghost predicate Looked(table: Table, seg: Segment, x: nat)
  {
    0 <= seg.virtualAddr + x < 0x1_0000_0000 && Mapped(table, seg.virtualAddr + x)
  }

  /** The program finds the bytes of the segment at their addresses. */
  ghost predicate Finds(mem: seq<byte>, table: Table, seg: Segment, file: seq<byte>)
    requires IsMemory(mem) && Loadable(seg)
  {
    forall x: nat | x < Length(seg, |table|, |file|) && Looked(table, seg, x) :: FindsByte(mem, table, seg, file, x)
  }

  ghost predicate FindsByte(mem: seq<byte>, table: Table, seg: Segment, file: seq<byte>, x: nat)
    requires IsMemory(mem) && Loadable(seg) && x < Length(seg, |table|, |file|) && Looked(table, seg, x)
  {
    ByteAt(Written(mem, SegmentWrites(table, seg, file)), table, seg.virtualAddr + x) == file[seg.inFileAddr + x]
  }

  lemma PageCovers(table: Table, seg: Segment, file: seq<byte>, i: nat, a: int)
    requires seg.size > 0 && seg.inFileAddr >= 0 && i < |table|
    ensures var w := PageWrite(table, seg, file, i);
            Covers(w, a) ==>
              var x := i * 512 + (a - w.at);
              && i * 512 <= x < (i + 1) * 512 && x < Length(seg, |table|, |file|)
              && Place(table, seg, x) == a && w.bytes[a - w.at] == file[seg.inFileAddr + x]
  {
    var w := PageWrite(table, seg, file, i);
    if Covers(w, a) {
      var x := i * 512 + (a - w.at);
      assert x / 512 == i && x % 512 == a - w.at;
    }
  }

  lemma PlaceUnique(table: Table, seg: Segment, x: nat, y: nat)
    requires Injective(table) && x / 512 < |table| && y / 512 < |table| && Place(table, seg, x) == Place(table, seg, y)
    ensures x == y
  {
    assert x == 512 * (x / 512) + x % 512 && y == 512 * (y / 512) + y % 512;
  }

  /** Byte `x` is put by the page that it is in, and by no other page. */
  lemma PlacedBy(table: Table, seg: Segment, file: seq<byte>, i: nat, x: nat)
    requires Loadable(seg) && Injective(table) && x < Length(seg, |table|, |file|) && i < |table|
    ensures var w, a := PageWrite(table, seg, file, i), Place(table, seg, x);
            && (Covers(w, a) <==> i == x / 512)
            && (Covers(w, a) ==> w.bytes[a - w.at] == file[seg.inFileAddr + x])
  {
    var w, a := PageWrite(table, seg, file, i), Place(table, seg, x);
    assert x == 512 * (x / 512) + x % 512;
    PageCovers(table, seg, file, i, a);
    if Covers(w, a) {
      PlaceUnique(table, seg, x, i * 512 + (a - w.at));
    }
  }

  lemma {:induction false} PlacedLast(table: Table, seg: Segment, file: seq<byte>, n: nat, x: nat, b: byte)
    requires Loadable(seg) && Injective(table) && x < Length(seg, |table|, |file|) && x / 512 < n <= |table|
    ensures LastByte(SegmentWrites(table, seg, file)[..n], Place(table, seg, x), b) == file[seg.inFileAddr + x]
  {
    var ws := SegmentWrites(table, seg, file);
    assert ws[..n][..n - 1] == ws[..n - 1] && ws[..n][n - 1] == PageWrite(table, seg, file, n - 1);
    PlacedBy(table, seg, file, n - 1, x);
    if n - 1 != x / 512 {
      PlacedLast(table, seg, file, n - 1, x, b);
    }
  }

  lemma FoundByte(mem: seq<byte>, table: Table, seg: Segment, file: seq<byte>, x: nat)
    requires IsMemory(mem) && Loadable(seg) && Injective(table) && x < Length(seg, |table|, |file|)
    requires Looked(table, seg, x) && Place(table, seg, x) == PhysAddr(table, seg.virtualAddr + x)
    ensures FindsByte(mem, table, seg, file, x)
  {
    var ws := SegmentWrites(table, seg, file);
    AccessInside(table, seg.virtualAddr + x, 1, false);
    assert ws[..|table|] == ws;
    PlacedLast(table, seg, file, |table|, x, mem[Place(table, seg, x)]);
  }

  lemma MeetsFinds(mem: seq<byte>, table: Table, seg: Segment, file: seq<byte>)
    requires IsMemory(mem) && Loadable(seg) && Injective(table) && Meets(table, seg, |file|)
    ensures Finds(mem, table, seg, file)
  {
    forall x: nat | x < Length(seg, |table|, |file|) && Looked(table, seg, x)
      ensures FindsByte(mem, table, seg, file, x)
    {
      FoundByte(mem, table, seg, file, x);
    }
  }

  /** If all bytes but `x` are the same, another cannot be told from what was there. */
  lemma {:induction false} OtherLast(table: Table, seg: Segment, file: seq<byte>, n: nat, a: int, b: byte, x: nat)
    requires seg.size > 0 && seg.inFileAddr >= 0 && n <= |table|
    requires x < Length(seg, |table|, |file|) && Place(table, seg, x) != a
    requires forall i | 0 <= i < |file| && i != seg.inFileAddr + x :: file[i] == b
    ensures LastByte(SegmentWrites(table, seg, file)[..n], a, b) == b
  {
    var ws := SegmentWrites(table, seg, file);
    if n > 0 {
      assert ws[..n][..n - 1] == ws[..n - 1] && ws[..n][n - 1] == PageWrite(table, seg, file, n - 1);
      PageCovers(table, seg, file, n - 1, a);
      OtherLast(table, seg, file, n - 1, a, b, x);
    }
  }

  /** A file and a memory in which a byte that is not put where it belongs is not found. */
  lemma NotFound(table: Table, seg: Segment, length: nat, x: nat) returns (file: seq<byte>, mem: seq<byte>)
    requires Loadable(seg) && x < Length(seg, |table|, length) && Looked(table, seg, x)
    requires Place(table, seg, x) != PhysAddr(table, seg.virtualAddr + x)
    ensures |file| == length && IsMemory(mem) && !Finds(mem, table, seg, file)
  {
    file := seq(length, i requires 0 <= i < length => if i == seg.inFileAddr + x then 1 else 0);
    mem := seq(65536, _ => 0);
    var ws, a := SegmentWrites(table, seg, file), PhysAddr(table, seg.virtualAddr + x);
    AccessInside(table, seg.virtualAddr + x, 1, false);
    assert ws[..|table|] == ws;
    OtherLast(table, seg, file, |table|, a, 0, x);
    assert LastByte(ws, a, 0) == 0 && file[seg.inFileAddr + x] == 1;
    assert !FindsByte(mem, table, seg, file, x);
  }

  /**
   Whatever the file and the memory hold, a program finds the segment loaded last at its
   addresses exactly if frames are as far apart as the pages between which it is moved.
   */
  lemma FindsIff(table: Table, seg: Segment, length: nat)
    requires Loadable(seg) && Injective(table)
    ensures Meets(table, seg, length) <==>
              forall mem, file | IsMemory(mem) && |file| == length :: Finds(mem, table, seg, file)
  {
    if Meets(table, seg, length) {
      forall mem, file | IsMemory(mem) && |file| == length
        ensures Finds(mem, table, seg, file)
      {
        MeetsFinds(mem, table, seg, file);
      }
    } else {
      var x: nat :| x < Length(seg, |table|, length) && Looked(table, seg, x)
                 && Place(table, seg, x) != PhysAddr(table, seg.virtualAddr + x);
      var file, mem := NotFound(table, seg, length, x);
    }
  }

  // ------------------------------------------------------------------ the code

  /** Reads a page of a segment into memory. */
  method LoadPage(memory: array<byte>, table: array<TranslationEntry>, seg: Segment, executable: OpenFile, i: nat)
    requires executable.Valid() && seg.inFileAddr >= 0 && i < table.Length
    modifies memory
    ensures memory[..] == Written(old(memory[..]), [PageWrite(table[..], seg, executable.Contents(), i)])
  {
    var buffer := new byte[512];
    var n := executable.ReadAt(buffer, 0, 512, seg.inFileAddr + i * 512);
    Put(memory, seg.virtualAddr + table[i].physicalPage * 512, buffer[..n]);
  }

  method Put(memory: array<byte>, at: int, bytes: seq<byte>)
    modifies memory
    ensures memory[..] == Written(old(memory[..]), [Write(at, bytes)])
  {
    forall a | 0 <= a < memory.Length && at <= a < at + |bytes| {
      memory[a] := bytes[a - at];
    }
    forall a | 0 <= a < memory.Length
      ensures memory[a] == LastByte([Write(at, bytes)], a, old(memory[a]))
    {
      OneWrite(Write(at, bytes), a, old(memory[a]));
    }
  }

  lemma OneWrite(w: Write, a: int, b: byte)
    ensures LastByte([w], a, b) == if Covers(w, a) then w.bytes[a - w.at] else b
  {
    assert [w][..0] == [];
  }

  method LoadSegment(memory: array<byte>, table: array<TranslationEntry>, seg: Segment, executable: OpenFile)
    requires executable.Valid() && Loadable(seg)
    modifies memory
    ensures memory[..] == Written(old(memory[..]), SegmentWrites(table[..], seg, executable.Contents()))
  {
    ghost var ws := SegmentWrites(table[..], seg, executable.Contents());
    WrittenNone(memory[..]);
    if seg.size > 0 {
      for i := 0 to table.Length
        invariant memory[..] == Written(old(memory[..]), ws[..i])
      {
        LoadPage(memory, table, seg, executable, i);
        WrittenAppend(old(memory[..]), ws[..i], [ws[i]]);
        assert ws[..i + 1] == ws[..i] + [ws[i]];
      }
      assert ws[..table.Length] == ws;
    }
  }

  lemma WrittenNone(mem: seq<byte>)
    ensures Written(mem, []) == mem
  {
  }

  method LoadProgram(memory: array<byte>, table: array<TranslationEntry>, h: NoffHeader, executable: OpenFile)
    requires executable.Valid() && IsNoff(executable.Contents()) && h == DecodeNoff(executable.Contents())
    modifies memory
    ensures memory[..] == Written(old(memory[..]), LoaderWrites(table[..], executable.Contents()))
  {
    LoadSegment(memory, table, h.code, executable);
    LoadSegment(memory, table, h.initData, executable);
    WrittenAppend(old(memory[..]), SegmentWrites(table[..], h.code, executable.Contents()),
                  SegmentWrites(table[..], h.initData, executable.Contents()));
  }

  method ReadHeader(executable: OpenFile) returns (h: NoffHeader)
    requires executable.Valid() && IsNoff(executable.Contents())
    ensures h == DecodeNoff(executable.Contents())
  {
    var raw := new byte[40];
    var n := executable.ReadAt(raw, 0, 40, 0);
    assert raw[..] == executable.Contents()[..40];
    h := DecodeNoff(raw[..]);
  }
}
