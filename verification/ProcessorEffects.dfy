/**
 What an instruction leaves behind: the program counters, the exact result of additions and
 subtractions, what loads read and stores write, and why it traps.
 */
module ProcessorEffects {
  import opened Words
  import opened Translation
  import opened Processors

  /** `i` is the instruction that the program counter points to; fetching it marks its page as used. */
  ghost predicate Fetches(g: Logic, c: Cpu, i: Instruction, d: Cpu)
    requires Boundary(c)
  {
    var r := Read(c, c.regs[34], 4);
    r.0 == NoException && i == g.decode(ToWord(r.1)) && d == r.2
  }

  ghost function Ended(o: Outcome): Step
    requires o.Go? || o.Raise? ==> |o.cpu.regs| == 40 && 0 <= o.cpu.regs[37] < 40
  {
    match o
    case Go(d, loadReg, loadValue, pcAfter) => Completed(Advanced(d, loadReg, loadValue, pcAfter))
    case Raise(d, which, bad) => Exception(Trapped(d, bad), which)
    case Abort => Aborted
  }

  lemma CycleIs(g: Logic, c: Cpu, i: Instruction, d: Cpu)
    requires Boundary(c) && Fetches(g, c, i, d)
    ensures d.regs == c.regs && d.mem == c.mem && Kept(c, Execute(g, i, d))
    ensures Cycle(g, c) == Ended(Execute(g, i, d))
  {
    FetchedKeeps(g, c);
  }

  // ------------------------------------------------------------ program counters

  /** The address `q` is four bytes behind `p`, as addresses go round. */
  predicate FourOn(p: int, q: int)
  {
    (q - p) % 0x1_0000_0000 == 4
  }

  lemma WrapsFourOn(p: int32)
    ensures FourOn(p, Wrap((p as int) + 4))
  {
  }

  /** The next instruction but one is four bytes behind the next, unless this one jumps. */
  lemma NextButOne(g: Logic, c: Cpu, i: Instruction, d: Cpu)
    requires Boundary(c) && Fetches(g, c, i, d) && !IsJump(i.op) && Cycle(g, c).Completed?
    ensures IsFile(Cycle(g, c).cpu.regs) && FourOn(c.regs[35], Cycle(g, c).cpu.regs[35])
  {
    CycleIs(g, c, i, d);
    GoesStraight(g, i, d);
    WrapsFourOn(c.regs[35]);
  }

  lemma GoesStraight(g: Logic, i: Instruction, d: Cpu)
    requires |d.regs| == 40 && IsMemory(d.mem) && 0 <= d.regs[37] < 40 && !IsJump(i.op) && Execute(g, i, d).Go?
    ensures Execute(g, i, d).pcAfter == Wrap((d.regs[35] as int) + 4)
  {
  }

  /** A jump that links leaves the address behind its delay slot, and goes where the registers then say. */
  lemma Jumps(g: Logic, c: Cpu, i: Instruction, d: Cpu)
    requires Boundary(c) && Fetches(g, c, i, d) && IsJump(i.op)
    ensures Cycle(g, c).Completed? && IsFile(Cycle(g, c).cpu.regs)
    ensures var back := if i.op.JumpRegister? then i.rd else 31;
            var linked := if i.op.link then c.regs[back := Wrap((c.regs[35] as int) + 4)] else c.regs;
            && Cycle(g, c).cpu.regs[35] == g.target(i, linked)
            && forall r | 0 < r < 34 :: Cycle(g, c).cpu.regs[r] == if r == c.regs[37] then c.regs[38] else linked[r]
  {
    CycleIs(g, c, i, d);
  }

  // --------------------------------------------------------- sums and differences

  /** The exact result of an addition or a subtraction, and the register it goes to. */
  function Exact(i: Instruction, regs: Registers): int
    requires |regs| == 40
  {
    if i.op.Subtract? then (regs[i.rs] as int) - regs[i.rt]
    else (regs[i.rs] as int) + if i.op.Add? then regs[i.rt] else i.extra
  }

  function Target(i: Instruction): Reg
  {
    if i.op.AddImmediate? then i.rt else i.rd
  }

  predicate Fits(x: int)
  {
    -0x8000_0000 <= x < 0x8000_0000
  }

  lemma ExactOrTrap(g: Logic, i: Instruction, c: Cpu)
    requires |c.regs| == 40 && (i.op.Add? || i.op.AddImmediate? || i.op.Subtract?)
    ensures var x := Exact(i, c.regs);
            ExecuteArithmetic(g, i, c) ==
              if Fits(x) then Go(Put(c, Target(i), x), 0, 0, PcAfter(c.regs)) else Raise(c, OverflowException, 0)
  {
    var rs, rt := c.regs[i.rs], c.regs[i.rt];
    OverflowExact(rs, rt);
    OverflowExact(rs, i.extra);
    UnderflowExact(rs, rt);
    if Fits(Exact(i, c.regs)) {
      WrapFits(Exact(i, c.regs));
    }
  }

  lemma WrapFits(x: int)
    requires Fits(x)
    ensures Wrap(x) == x
  {
  }

  /**
   A trapping addition or subtraction leaves the exact result in its register if that fits,
   and else traps; a load that was pending still reaches its own register.
   */
  lemma ArithmeticExact(g: Logic, c: Cpu, i: Instruction, d: Cpu)
    requires Boundary(c) && Fetches(g, c, i, d) && (i.op.Add? || i.op.AddImmediate? || i.op.Subtract?)
    ensures var x, s := Exact(i, c.regs), Cycle(g, c);
            if Fits(x) then
              && s.Completed? && IsFile(s.cpu.regs)
              && forall r | 0 < r < 34 ::
                   s.cpu.regs[r] == if r == c.regs[37] then c.regs[38] else if r == Target(i) then x else c.regs[r]
            else s.Exception? && s.which == OverflowException && IsFile(s.cpu.regs) && s.cpu.regs[39] == 0
  {
    CycleIs(g, c, i, d);
    ExactOrTrap(g, i, d);
  }

  /** Other computations leave their result in the register they name, or in the two special ones. */
  lemma ComputedResult(g: Logic, c: Cpu, i: Instruction, d: Cpu)
    requires Boundary(c) && Fetches(g, c, i, d) && (i.op.Compute? || i.op.HiLo?)
    ensures Cycle(g, c).Completed? && IsFile(Cycle(g, c).cpu.regs)
    ensures i.op.Compute? ==>
              var to := if i.op.toRd then i.rd else i.rt;
              forall r | 0 < r < 34 ::
                Cycle(g, c).cpu.regs[r] ==
                  if r == c.regs[37] then c.regs[38] else if r == to then g.compute(i, c.regs) else c.regs[r]
    ensures i.op.HiLo? ==>
              && (Cycle(g, c).cpu.regs[32], Cycle(g, c).cpu.regs[33]) == g.special(i, c.regs)
              && forall r | 0 < r < 32 ::
                   Cycle(g, c).cpu.regs[r] == if r == c.regs[37] then c.regs[38] else c.regs[r]
  {
    CycleIs(g, c, i, d);
  }

  // ------------------------------------------------------------- loads and stores

  function SizeOf(op: Op): int
  {
    if op.LoadByte? || op.StoreByte? then 1 else if op.LoadHalf? || op.StoreHalf? then 2 else 4
  }

  /** The address that a load or a store names: a register plus an offset. */
  ghost predicate Names(i: Instruction, regs: Registers, addr: word)
    requires |regs| == 40
  {
    (addr - ((regs[i.rs] as int) + i.extra)) % 0x1_0000_0000 == 0
  }

  lemma AddressIs(i: Instruction, regs: Registers, addr: word)
    requires |regs| == 40 && Names(i, regs, addr)
    ensures ToWord(Address(i, regs)) == addr
  {
    var x := (regs[i.rs] as int) + i.extra;
    assert x % 0x1_0000_0000 == addr;
  }

  /** The bytes that the program has from an address on. */
  ghost function BytesAt(mem: seq<byte>, table: Table, addr: word, size: int): seq<byte>
    requires IsMemory(mem) && IsSize(size) && Check(table, addr, size, false) == NoException
  {
    seq(size, j requires 0 <= j < size => ByteSeen(mem, table, addr, size, j))
  }

  ghost function ByteSeen(mem: seq<byte>, table: Table, addr: word, size: int, j: nat): byte
    requires IsMemory(mem) && IsSize(size) && Check(table, addr, size, false) == NoException && j < size
  {
    NextByte(table, addr, size, false, j);
    ByteAt(mem, table, addr + j)
  }

  lemma ReadsBytes(c: Cpu, addr: int32, size: int)
    requires IsMemory(c.mem) && IsSize(size) && Read(c, addr, size).0 == NoException
    ensures Read(c, addr, size).1 == LoadValue(BytesAt(c.mem, c.table, ToWord(addr), size))
  {
    var a := ToWord(addr);
    var p := PhysAddr(c.table, a);
    AccessInside(c.table, a, size, false);
    forall j | 0 <= j < size
      ensures c.mem[p..p + size][j] == BytesAt(c.mem, c.table, a, size)[j]
    {
      NextByte(c.table, a, size, false, j);
    }
    assert c.mem[p..p + size] == BytesAt(c.mem, c.table, a, size);
  }

  /** What a load leaves pending is made of the bytes that the program has at the address named. */
  lemma LoadReads(g: Logic, c: Cpu, i: Instruction, d: Cpu, addr: word)
    requires Boundary(c) && Fetches(g, c, i, d) && IsLoad(i.op) && Names(i, c.regs, addr) && Cycle(g, c).Completed?
    ensures Check(d.table, addr, SizeOf(i.op), false) == NoException && IsFile(Cycle(g, c).cpu.regs)
    ensures var before := if c.regs[37] == i.rt then c.regs[38] else c.regs[i.rt];
            Cycle(g, c).cpu.regs[38] ==
              g.merge(i, before, LoadValue(BytesAt(c.mem, d.table, addr, SizeOf(i.op))))
  {
    CycleIs(g, c, i, d);
    AddressIs(i, c.regs, addr);
    ReadsBytes(d, Address(i, c.regs), SizeOf(i.op));
  }

  /** What a store leaves in memory: the register, or for part of a word the register merged with what is there. */
  ghost function StoreData(g: Logic, i: Instruction, c: Cpu, table: Table, addr: word): int32
    requires IsMemory(c.mem) && |c.regs| == 40
    requires i.op.StorePart? ==> Check(table, addr, 4, false) == NoException
  {
    if i.op.StorePart? then g.merge(i, c.regs[i.rt], LoadValue(BytesAt(c.mem, table, addr, 4))) else c.regs[i.rt]
  }

  lemma WriteSeen(c: Cpu, addr: int32, size: int, value: int32, b: word)
    requires IsMemory(c.mem) && IsSize(size) && Injective(c.table) && Mapped(c.table, b)
    requires Write(c, addr, size, value).0 == NoException
    ensures var e, a := Write(c, addr, size, value).1, ToWord(addr);
            && IsMemory(e.mem) && Mapped(e.table, b)
            && ByteAt(e.mem, e.table, b) ==
               if a <= b < a + size then ByteOf(ToWord(value), b - a) else ByteAt(c.mem, c.table, b)
  {
    StoreSeen(c.mem, c.table, ToWord(addr), StoreBytes(value, size), b);
    TouchedSame(c.table, ToWord(addr), true, b, 1, false);
  }

  /** Reading marks a page as used and changes nothing that the program sees. */
  lemma ReadUnseen(c: Cpu, addr: int32, size: int, b: word)
    requires IsMemory(c.mem) && IsSize(size) && Injective(c.table) && Mapped(c.table, b)
    ensures var e := Read(c, addr, size).2;
            Injective(e.table) && Mapped(e.table, b) && ByteAt(e.mem, e.table, b) == ByteAt(c.mem, c.table, b)
  {
    if Read(c, addr, size).0 == NoException {
      TouchedSame(c.table, ToWord(addr), false, b, 1, false);
    }
  }

  /** The store that an instruction ends with. */
  lemma StoreIs(g: Logic, i: Instruction, d: Cpu, addr: word) returns (start: Cpu)
    requires |d.regs| == 40 && IsMemory(d.mem) && IsStore(i.op) && Names(i, d.regs, addr) && ExecuteStore(g, i, d).Go?
    ensures i.op.StorePart? ==> Check(d.table, addr, 4, false) == NoException
    ensures start == if i.op.StorePart? then Read(d, Address(i, d.regs), 4).2 else d
    ensures ToWord(Address(i, d.regs)) == addr
    ensures var w := Write(start, Address(i, d.regs), SizeOf(i.op), StoreData(g, i, d, d.table, addr));
            w.0 == NoException && ExecuteStore(g, i, d).cpu == w.1
  {
    AddressIs(i, d.regs, addr);
    start := d;
    if i.op.StorePart? {
      ReadsBytes(d, Address(i, d.regs), 4);
      start := Read(d, Address(i, d.regs), 4).2;
    }
  }

  /** A store changes exactly the bytes of the program that it names. */
  lemma StoreWrites(g: Logic, c: Cpu, i: Instruction, d: Cpu, addr: word, b: word)
    requires Boundary(c) && Fetches(g, c, i, d) && IsStore(i.op) && Names(i, c.regs, addr)
    requires Cycle(g, c).Completed? && Injective(c.table) && Mapped(c.table, b)
    ensures i.op.StorePart? ==> Check(d.table, addr, 4, false) == NoException
    ensures var e := Cycle(g, c).cpu;
            && IsMemory(e.mem) && Mapped(e.table, b)
            && ByteAt(e.mem, e.table, b) ==
               if addr <= b < addr + SizeOf(i.op) then ByteOf(ToWord(StoreData(g, i, d, d.table, addr)), b - addr)
               else ByteAt(c.mem, c.table, b)
  {
    CycleIs(g, c, i, d);
    ReadUnseen(c, c.regs[34], 4, b);
    StoreFrom(g, i, d, addr, b);
  }

  lemma StoreFrom(g: Logic, i: Instruction, d: Cpu, addr: word, b: word)
    requires |d.regs| == 40 && IsMemory(d.mem) && IsStore(i.op) && Names(i, d.regs, addr) && ExecuteStore(g, i, d).Go?
    requires Injective(d.table) && Mapped(d.table, b)
    ensures i.op.StorePart? ==> Check(d.table, addr, 4, false) == NoException
    ensures var e := ExecuteStore(g, i, d).cpu;
            && IsMemory(e.mem) && Mapped(e.table, b)
            && ByteAt(e.mem, e.table, b) ==
               if addr <= b < addr + SizeOf(i.op) then ByteOf(ToWord(StoreData(g, i, d, d.table, addr)), b - addr)
               else ByteAt(d.mem, d.table, b)
  {
    var start := StoreIs(g, i, d, addr);
    if i.op.StorePart? {
      ReadUnseen(d, Address(i, d.regs), 4, b);
    }
    WriteSeen(start, Address(i, d.regs), SizeOf(i.op), StoreData(g, i, d, d.table, addr), b);
  }

  // ----------------------------------------------------------------------- traps

  /** An instruction that cannot be fetched traps for the reason that its address gives. */
  lemma FetchTraps(g: Logic, c: Cpu)
    requires Boundary(c) && Check(c.table, ToWord(c.regs[34]), 4, false) != NoException
    ensures var s := Cycle(g, c);
            && s.Exception? && s.which == Check(c.table, ToWord(c.regs[34]), 4, false)
            && IsFile(s.cpu.regs) && s.cpu.regs[39] == c.regs[34]
  {
    FetchedKeeps(g, c);
  }

  /** A load or a store traps exactly if its address is not allowed, for that reason and with that address noted. */
  lemma AccessTraps(g: Logic, c: Cpu, i: Instruction, d: Cpu, addr: word)
    requires Boundary(c) && Fetches(g, c, i, d) && Names(i, c.regs, addr)
    requires IsLoad(i.op) || (IsStore(i.op) && !i.op.StorePart?)
    ensures var s, got := Cycle(g, c), Check(d.table, addr, SizeOf(i.op), IsStore(i.op));
            if i.op.LoadPart? && addr % 4 != 0 then s.Aborted?
            else if got == NoException then s.Completed?
            else s.Exception? && s.which == got && IsFile(s.cpu.regs) && ToWord(s.cpu.regs[39]) == addr
  {
    CycleIs(g, c, i, d);
    AddressIs(i, c.regs, addr);
  }

  /** A system call and an unknown operation trap as such, and jumps and other computations never do. */
  lemma OtherTraps(g: Logic, c: Cpu, i: Instruction, d: Cpu)
    requires Boundary(c) && Fetches(g, c, i, d)
    ensures i.op.Syscall? ==> Cycle(g, c).Exception? && Cycle(g, c).which == SyscallException
    ensures i.op.Illegal? ==> Cycle(g, c).Exception? && Cycle(g, c).which == IllegalInstrException
    ensures i.op.Syscall? || i.op.Illegal? ==> IsFile(Cycle(g, c).cpu.regs) && Cycle(g, c).cpu.regs[39] == 0
    ensures IsJump(i.op) || i.op.Compute? || i.op.HiLo? ==> Cycle(g, c).Completed?
  {
    CycleIs(g, c, i, d);
  }
}
