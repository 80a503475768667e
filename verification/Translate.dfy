/**
 Address translation and the main memory of the simulated machine (machine/translate):
 pages and frames of 512 bytes, 128 frames, and a page table for the running program.
 */
module Translation {
  import opened Words

  datatype TranslationEntry = TranslationEntry(
    virtualPage: int32, physicalPage: int32, valid: bool, readOnly: bool, use: bool, dirty: bool)

  type Table = seq<TranslationEntry>

  datatype ExceptionType =
    | NoException
    | SyscallException
    | PageFaultException
    | ReadOnlyException
    | BusErrorException
    | AddressErrorException
    | OverflowException
    | IllegalInstrException

  ghost predicate IsMemory(mem: seq<byte>)
  {
    |mem| == 65536
  }

  // ------------------------------------------------------------ translation

  /** `Machine::Translate` without its effects; `addr` is a virtual address taken as unsigned. */
  function Check(table: Table, addr: word, size: int, writing: bool): ExceptionType
  {
    var vpn := addr / 512;
    if (size == 4 && addr % 4 != 0) || (size == 2 && addr % 2 != 0) then AddressErrorException
    else if vpn >= |table| then AddressErrorException
    else if !table[vpn].valid then PageFaultException
    else if table[vpn].readOnly && writing then ReadOnlyException
    else if ToWord(table[vpn].physicalPage) >= 128 then BusErrorException
    else NoException
  }

  /** Each outcome of a translation by its condition. */
  lemma CheckIff(table: Table, addr: word, size: int, writing: bool)
    requires IsSize(size)
    ensures Check(table, addr, size, writing) == AddressErrorException <==> addr % size != 0 || addr >= 512 * |table|
    ensures addr % size == 0 && addr < 512 * |table| ==>
              var e, got := table[addr / 512], Check(table, addr, size, writing);
              && (got == PageFaultException <==> !e.valid)
              && (got == ReadOnlyException <==> e.valid && e.readOnly && writing)
              && (got == BusErrorException <==> e.valid && !(e.readOnly && writing) && !(0 <= e.physicalPage < 128))
              && (got == NoException <==> e.valid && !(e.readOnly && writing) && 0 <= e.physicalPage < 128)
  {
    assert addr == 512 * (addr / 512) + addr % 512;
  }

  /** Where a byte of virtual memory is kept. */
  function PhysAddr(table: Table, addr: word): int
    requires addr / 512 < |table|
  {
    ToWord(table[addr / 512].physicalPage) * 512 + addr % 512
  }

  /** The table with the use and dirty bits of one page set. */
  function Touched(table: Table, addr: word, writing: bool): Table
    requires addr / 512 < |table|
  {
    var entry := table[addr / 512];
    table[addr / 512 := entry.(use := true, dirty := entry.dirty || writing)]
  }

  predicate IsSize(size: int)
  {
    size == 1 || size == 2 || size == 4
  }

  /** The virtual address belongs to the program and is backed by a frame. */
  predicate Mapped(table: Table, addr: word)
  {
    Check(table, addr, 1, false) == NoException
  }

  /** An access that is let through stays in one page, one frame and the memory. */
  lemma AccessInside(table: Table, addr: word, size: int, writing: bool)
    requires IsSize(size) && Check(table, addr, size, writing) == NoException
    ensures 0 <= PhysAddr(table, addr) && PhysAddr(table, addr) + size <= 65536
    ensures (PhysAddr(table, addr) + size - 1) / 512 == PhysAddr(table, addr) / 512 == table[addr / 512].physicalPage
  {
    Aligned(addr, size);
  }

  /** Its bytes belong to the program too, and follow one another in the memory. */
  lemma NextByte(table: Table, addr: word, size: int, writing: bool, j: nat)
    requires IsSize(size) && Check(table, addr, size, writing) == NoException && j < size
    ensures addr + j < 0x1_0000_0000
    ensures Mapped(table, addr + j) && PhysAddr(table, addr + j) == PhysAddr(table, addr) + j
  {
    var vpn, offset := addr / 512, addr % 512;
    Aligned(addr, size);
    assert addr + j == 512 * vpn + (offset + j);
  }

  lemma Aligned(addr: word, size: int)
    requires IsSize(size) && addr % size == 0
    ensures addr % 512 + size <= 512
  {
    var offset := addr - 512 * (addr / 512);
    assert offset == addr % 512;
    if size == 4 {
      assert offset == 4 * (addr / 4 - 128 * (addr / 512));
    } else if size == 2 {
      assert offset == 2 * (addr / 2 - 256 * (addr / 512));
    }
  }

  lemma TouchedSame(table: Table, addr: word, writing: bool, a: word, size: int, w: bool)
    requires addr / 512 < |table|
    ensures Check(Touched(table, addr, writing), a, size, w) == Check(table, a, size, w)
    ensures Mapped(table, a) ==> PhysAddr(Touched(table, addr, writing), a) == PhysAddr(table, a)
  {
  }

  // -------------------------------------------------------- virtual memory

  /** No two pages of a table share a frame. */
  ghost predicate Injective(table: Table)
  {
    forall i, j | 0 <= i < j < |table| :: table[i].physicalPage != table[j].physicalPage
  }

  ghost predicate Disjoint(s: Table, t: Table)
  {
    forall i, j | 0 <= i < |s| && 0 <= j < |t| :: s[i].physicalPage != t[j].physicalPage
  }

  /** A byte of a program's memory, as the program sees it. */
  function ByteAt(mem: seq<byte>, table: Table, addr: word): byte
    requires |mem| == 65536 && Mapped(table, addr)
  {
    AccessInside(table, addr, 1, false);
    mem[PhysAddr(table, addr)]
  }

  lemma SameByte(table: Table, a: word, b: word)
    requires Injective(table) && Mapped(table, a) && Mapped(table, b) && PhysAddr(table, a) == PhysAddr(table, b)
    ensures a == b
  {
    AccessInside(table, a, 1, false);
    AccessInside(table, b, 1, false);
    assert a == 512 * (a / 512) + a % 512 && b == 512 * (b / 512) + b % 512;
  }

  /** The bytes that a store writes, and the value that a load makes of bytes. */
  function StoreBytes(value: int32, size: int): seq<byte>
    requires IsSize(size)
  {
    seq(size, j requires 0 <= j < size => ByteOf(ToWord(value), j))
  }

  /** A single byte is a signed char, two are an unsigned short, and four an int. */
  function LoadValue(bytes: seq<byte>): int32
    requires IsSize(|bytes|)
  {
    if |bytes| == 1 then (if bytes[0] < 128 then bytes[0] else bytes[0] - 256)
    else if |bytes| == 2 then bytes[0] + 256 * bytes[1]
    else ToInt(Join(bytes[0], bytes[1], bytes[2], bytes[3]))
  }

  function Stored(mem: seq<byte>, p: nat, bytes: seq<byte>): seq<byte>
    requires p + |bytes| <= |mem|
  {
    mem[..p] + bytes + mem[p + |bytes|..]
  }

  /** An address of the program at which a store leaves its bytes is one that it names. */
  lemma StoreReaches(table: Table, addr: word, size: int, b: word)
    requires IsSize(size) && Check(table, addr, size, true) == NoException && Injective(table) && Mapped(table, b)
    ensures PhysAddr(table, addr) <= PhysAddr(table, b) < PhysAddr(table, addr) + size <==> addr <= b < addr + size
    ensures addr <= b < addr + size ==> PhysAddr(table, b) == PhysAddr(table, addr) + (b - addr)
  {
    var p, q := PhysAddr(table, addr), PhysAddr(table, b);
    if addr <= b < addr + size {
      NextByte(table, addr, size, true, b - addr);
    }
    if p <= q < p + size {
      NextByte(table, addr, size, true, q - p);
      SameByte(table, addr + (q - p), b);
    }
  }

  /** What a store through a table does to the program's memory: it changes the bytes written, and no other. */
  lemma StoreSeen(mem: seq<byte>, table: Table, addr: word, bytes: seq<byte>, b: word)
    requires IsMemory(mem) && IsSize(|bytes|) && Check(table, addr, |bytes|, true) == NoException
    requires Injective(table) && Mapped(table, b)
    ensures PhysAddr(table, addr) >= 0 && PhysAddr(table, addr) + |bytes| <= |mem|
    ensures ByteAt(Stored(mem, PhysAddr(table, addr), bytes), table, b)
         == if addr <= b < addr + |bytes| then bytes[b - addr] else ByteAt(mem, table, b)
  {
    AccessInside(table, addr, |bytes|, true);
    AccessInside(table, b, 1, false);
    StoreReaches(table, addr, |bytes|, b);
  }

  /** A store through one table does not change what is seen through a table with other frames. */
  lemma StoreNotSeen(mem: seq<byte>, table: Table, addr: word, bytes: seq<byte>, other: Table, b: word)
    requires IsMemory(mem) && IsSize(|bytes|) && Check(table, addr, |bytes|, true) == NoException
    requires Disjoint(table, other) && Mapped(other, b)
    ensures PhysAddr(table, addr) >= 0 && PhysAddr(table, addr) + |bytes| <= |mem|
    ensures ByteAt(Stored(mem, PhysAddr(table, addr), bytes), other, b) == ByteAt(mem, other, b)
  {
    AccessInside(table, addr, |bytes|, true);
    AccessInside(other, b, 1, false);
    assert PhysAddr(table, addr) / 512 != PhysAddr(other, b) / 512;
  }

  /** Loading what was stored gives the low bytes of the value, by size. */
  lemma LoadStored(value: int32, size: int)
    requires IsSize(size)
    ensures LoadValue(StoreBytes(value, size)) ==
              if size == 4 then value
              else if size == 2 then ToWord(value) % 65536
              else if ToWord(value) % 256 < 128 then ToWord(value) % 256 else ToWord(value) % 256 - 256
  {
    if size == 4 {
      BytesJoin(ToWord(value));
    } else if size == 2 {
      HalfWord(ToWord(value));
    }
  }

  /** A single byte of what was stored is that digit of the value, the least significant one first. */
  lemma ByteOfStored(value: int32, size: int, j: nat)
    requires IsSize(size) && j < size
    ensures var place := if j == 0 then 1 else if j == 1 then 0x100 else if j == 2 then 0x1_0000 else 0x100_0000;
            var digit := ToWord(value) / place % 256;
            LoadValue([StoreBytes(value, size)[j]]) == if digit < 128 then digit else digit - 256
  {
    var w := ToWord(value);
    assert w / 0x100 / 0x100 == w / 0x1_0000 && w / 0x1_0000 / 0x100 == w / 0x100_0000;
  }

  /** A load of more than one byte takes them as digits, the least significant one first. */
  lemma ValueOfBytes(bytes: seq<byte>)
    requires |bytes| == 2 || |bytes| == 4
    ensures ToWord(LoadValue(bytes)) == Digits(bytes)
  {
    if |bytes| == 4 {
      FourDigits(bytes);
    } else {
      assert bytes[1..][1..] == [] && Digits(bytes[1..]) == bytes[1] as int;
    }
  }

  lemma HalfWord(w: word)
    ensures w % 256 + 256 * (w / 256 % 256) == w % 65536
  {
    var v := w / 256;
    assert w == w % 256 + 256 * v;
    assert v == v % 256 + 256 * (v / 256);
    assert w == (w % 256 + 256 * (v % 256)) + 65536 * (v / 256);
  }

  // ------------------------------------------------------------- the class

  class Machine {
    const mainMemory: array<byte>
    var pageTable: array<TranslationEntry>

    ghost predicate Valid()
    {
      mainMemory.Length == 65536
    }

    constructor ()
      ensures Valid() && fresh(mainMemory) && fresh(pageTable) && pageTable.Length == 0
    {
      mainMemory := new byte[65536];
      pageTable := new TranslationEntry[0];
    }

    method Translate(virtAddr: int32, size: int, writing: bool) returns (exception: ExceptionType, physAddr: int)
      requires Valid() && IsSize(size)
      modifies pageTable
      ensures var a := ToWord(virtAddr);
              && exception == Check(old(pageTable[..]), a, size, writing)
              && if exception == NoException
                 then physAddr == PhysAddr(old(pageTable[..]), a) && 0 <= physAddr <= 65536 - size
                      && pageTable[..] == Touched(old(pageTable[..]), a, writing)
                 else pageTable[..] == old(pageTable[..])
    {
      physAddr := 0;
      var addr := ToWord(virtAddr);
      if (size == 4 && addr % 4 != 0) || (size == 2 && addr % 2 != 0) {
        return AddressErrorException, 0;
      }
      var vpn, offset := addr / 512, addr % 512;
      if vpn >= pageTable.Length {
        return AddressErrorException, 0;
      } else if !pageTable[vpn].valid {
        return PageFaultException, 0;
      }
      if pageTable[vpn].readOnly && writing {
        return ReadOnlyException, 0;
      }
      var pageFrame := ToWord(pageTable[vpn].physicalPage);
      if pageFrame >= 128 {
        return BusErrorException, 0;
      }
      AccessInside(pageTable[..], addr, size, writing);
      pageTable[vpn] := pageTable[vpn].(use := true);
      if writing {
        pageTable[vpn] := pageTable[vpn].(dirty := true);
      }
      return NoException, pageFrame * 512 + offset;
    }

    /** The exception is left to the caller to raise. */
    method ReadMem(addr: int32, size: int) returns (exception: ExceptionType, value: int32)
      requires Valid() && IsSize(size)
      modifies pageTable
      ensures var a, table := ToWord(addr), old(pageTable[..]);
              && exception == Check(table, a, size, false)
              && (exception == NoException ==>
                    && PhysAddr(table, a) >= 0 && PhysAddr(table, a) + size <= 65536
                    && value == LoadValue(mainMemory[PhysAddr(table, a)..PhysAddr(table, a) + size])
                    && pageTable[..] == Touched(table, a, false))
              && (exception != NoException ==> pageTable[..] == table)
    {
      var p;
      value := 0;
      exception, p := Translate(addr, size, false);
      if exception == NoException {
        var low: int := mainMemory[p];
        if size == 1 {
          value := if low < 128 then low else low - 256;
        } else if size == 2 {
          var high: int := mainMemory[p + 1];
          value := low + 256 * high;
        } else {
          value := ToInt(Join(mainMemory[p], mainMemory[p + 1], mainMemory[p + 2], mainMemory[p + 3]));
        }
      }
    }

    method WriteMem(addr: int32, size: int, value: int32) returns (exception: ExceptionType)
      requires Valid() && IsSize(size)
      modifies pageTable, mainMemory
      ensures var a, table := ToWord(addr), old(pageTable[..]);
              && exception == Check(table, a, size, true)
              && (exception == NoException ==>
                    && PhysAddr(table, a) >= 0 && PhysAddr(table, a) + size <= 65536
                    && mainMemory[..] == Stored(old(mainMemory[..]), PhysAddr(table, a), StoreBytes(value, size))
                    && pageTable[..] == Touched(table, a, true))
              && (exception != NoException ==> pageTable[..] == table && mainMemory[..] == old(mainMemory[..]))
    {
      var p;
      exception, p := Translate(addr, size, true);
      if exception == NoException {
        var w := ToWord(value);
        mainMemory[p] := ByteOf(w, 0);
        if size >= 2 {
          mainMemory[p + 1] := ByteOf(w, 1);
        }
        if size == 4 {
          mainMemory[p + 2], mainMemory[p + 3] := ByteOf(w, 2), ByteOf(w, 3);
        }
      }
    }
  }
}
