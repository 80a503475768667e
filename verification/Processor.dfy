/**
 The instruction cycle of the simulated processor (machine/mipssim, machine/machine):
 fetching, traps, delayed loads and the program counters. What an instruction computes
 without touching memory or trapping is a parameter, so the results hold for every
 such computation.
 */
module Processors {
  import opened Words
  import opened Translation

  // The register file: 0 to 31 are general registers, 32 Hi, 33 Lo, 34 PC, 35 NextPC, 36 PrevPC, 37 the
  // target of the pending load, 38 its value, and 39 the bad virtual address of an exception.
  const R31 := 31

  type Reg = r: int | 0 <= r < 32

  /** Instructions by what they do to the state of the machine. */
  datatype Op =
    | Add | AddImmediate | Subtract      // these trap on overflow
    | Compute(toRd: bool)                // the result goes to rd or to rt
    | HiLo                               // the result goes to both special registers
    | Branch(link: bool) | Jump(link: bool) | JumpRegister(link: bool)
    | LoadByte | LoadHalf | LoadWord | LoadPart
    | StoreByte | StoreHalf | StoreWord | StorePart
    | Syscall | Illegal

  predicate IsArithmetic(op: Op)
  {
    op.Add? || op.AddImmediate? || op.Subtract? || op.Compute? || op.HiLo?
  }

  predicate IsJump(op: Op)
  {
    op.Branch? || op.Jump? || op.JumpRegister?
  }

  predicate IsLoad(op: Op)
  {
    op.LoadByte? || op.LoadHalf? || op.LoadWord? || op.LoadPart?
  }

  predicate IsStore(op: Op)
  {
    op.StoreByte? || op.StoreHalf? || op.StoreWord? || op.StorePart?
  }

  datatype Instruction = Instruction(op: Op, rs: Reg, rt: Reg, rd: Reg, extra: int32)

  type Registers = seq<int32>

  ghost predicate IsFile(regs: Registers)
  {
    |regs| == 40
  }

  /**
   Decoding, results of computations, targets of branches, and how a partial word is
   merged or a byte extended.
   */
  datatype Logic = Logic(
    decode: word -> Instruction,
    compute: (Instruction, Registers) -> int32,
    special: (Instruction, Registers) -> (int32, int32),
    target: (Instruction, Registers) -> int32,
    merge: (Instruction, int32, int32) -> int32)

  /** `Machine::DelayedLoad` */
  function Drained(regs: Registers, nextReg: Reg, nextValue: int32): Registers
    requires |regs| == 40 && 0 <= regs[37] < 40
  {
    regs[regs[37] := regs[38]][37 := nextReg][38 := nextValue][0 := 0]
  }

  // ------------------------------------------------------------- execution

  /** The state that instructions work on. */
  datatype Cpu = Cpu(regs: Registers, mem: seq<byte>, table: Table)

  /** At the end of an instruction: register 0 is zero, and the pending load has a general register for target. */
  ghost predicate Boundary(c: Cpu)
  {
    IsFile(c.regs) && c.regs[0] == 0 && 0 <= c.regs[37] < 32 && IsMemory(c.mem)
  }

  /** How the switch in OneInstruction ends: it goes on, raises an exception, or an assertion fails. */
  datatype Outcome =
    | Go(cpu: Cpu, loadReg: Reg, loadValue: int32, pcAfter: int32)
    | Raise(cpu: Cpu, which: ExceptionType, badVAddr: int32)
    | Abort

  /** `Machine::ReadMem`, up to the exception it raises. */
  function Read(c: Cpu, addr: int32, size: int): (r: (ExceptionType, int32, Cpu))
    requires |c.mem| == 65536 && IsSize(size)
    ensures r.2.regs == c.regs && r.2.mem == c.mem
  {
    var e := Check(c.table, ToWord(addr), size, false);
    if e != NoException then (e, 0, c)
    else
      AccessInside(c.table, ToWord(addr), size, false);
      var p := PhysAddr(c.table, ToWord(addr));
      (e, LoadValue(c.mem[p..p + size]), c.(table := Touched(c.table, ToWord(addr), false)))
  }

  /** `Machine::WriteMem`, up to the exception it raises. */
  function Write(c: Cpu, addr: int32, size: int, value: int32): (r: (ExceptionType, Cpu))
    requires |c.mem| == 65536 && IsSize(size)
    ensures r.1.regs == c.regs && |r.1.mem| == 65536 && (r.0 != NoException ==> r.1 == c)
  {
    var e := Check(c.table, ToWord(addr), size, true);
    if e != NoException then (e, c)
    else
      AccessInside(c.table, ToWord(addr), size, true);
      var p := PhysAddr(c.table, ToWord(addr));
      (e, c.(mem := Stored(c.mem, p, StoreBytes(value, size)), table := Touched(c.table, ToWord(addr), true)))
  }

  function Put(c: Cpu, r: Reg, value: int32): Cpu
    requires |c.regs| == 40
  {
    c.(regs := c.regs[r := value])
  }

  function PcAfter(regs: Registers): int32
    requires |regs| == 40
  {
    Wrap((regs[35] as int) + 4)
  }

  function Address(i: Instruction, regs: Registers): int32
    requires |regs| == 40
  {
    Wrap(regs[i.rs] + i.extra)
  }

  /** A sum whose operands have one sign and whose result has the other. */
  predicate Overflows(a: int32, b: int32, sum: int32)
  {
    (a < 0) == (b < 0) && (a < 0) != (sum < 0)
  }

  lemma OverflowExact(a: int32, b: int32)
    ensures Overflows(a, b, Wrap(a + b)) <==> !(-0x8000_0000 <= a + b < 0x8000_0000)
  {
  }

  lemma UnderflowExact(a: int32, b: int32)
    ensures ((a < 0) != (b < 0) && (a < 0) != (Wrap(a - b) < 0)) <==> !(-0x8000_0000 <= a - b < 0x8000_0000)
  {
  }

  function ExecuteArithmetic(g: Logic, i: Instruction, c: Cpu): Outcome
    requires |c.regs| == 40 && IsArithmetic(i.op)
  {
    var after := PcAfter(c.regs);
    var rs, rt := c.regs[i.rs], c.regs[i.rt];
    match i.op
    case Add =>
      if Overflows(rs, rt, Wrap(rs + rt)) then Raise(c, OverflowException, 0)
      else Go(Put(c, i.rd, Wrap(rs + rt)), 0, 0, after)
    case AddImmediate =>
      if Overflows(rs, i.extra, Wrap(rs + i.extra)) then Raise(c, OverflowException, 0)
      else Go(Put(c, i.rt, Wrap(rs + i.extra)), 0, 0, after)
    case Subtract =>
      if (rs < 0) != (rt < 0) && (rs < 0) != (Wrap(rs - rt) < 0) then Raise(c, OverflowException, 0)
      else Go(Put(c, i.rd, Wrap(rs - rt)), 0, 0, after)
    case Compute(toRd) => Go(Put(c, if toRd then i.rd else i.rt, g.compute(i, c.regs)), 0, 0, after)
    case HiLo =>
      var (hi, lo) := g.special(i, c.regs);
      Go(c.(regs := c.regs[32 := hi][33 := lo]), 0, 0, after)
  }

  /** A linking branch writes its return address before the condition or the target is looked at. */
  function ExecuteJump(g: Logic, i: Instruction, c: Cpu): Outcome
    requires |c.regs| == 40 && IsJump(i.op)
  {
    var back := PcAfter(c.regs);
    var linked :=
      if !i.op.link then c
      else Put(c, if i.op.JumpRegister? then i.rd else R31, back);
    Go(linked, 0, 0, g.target(i, linked.regs))
  }

  /** Loads check their alignment here or, for bytes, not at all; the value goes to the pending load. */
  function ExecuteLoad(g: Logic, i: Instruction, c: Cpu): Outcome
    requires |c.regs| == 40 && |c.mem| == 65536 && 0 <= c.regs[37] < 40
    requires IsLoad(i.op)
  {
    var addr := Address(i, c.regs);
    var size := if i.op.LoadByte? then 1 else if i.op.LoadHalf? then 2 else 4;
    if (i.op.LoadHalf? && ToWord(addr) % 2 != 0) || (i.op.LoadWord? && ToWord(addr) % 4 != 0) then
      Raise(c, AddressErrorException, addr)
    else if i.op.LoadPart? && ToWord(addr) % 4 != 0 then Abort
    else
      var (e, value, d) := Read(c, addr, size);
      if e != NoException then Raise(d, e, addr)
      else
        var before := if c.regs[37] == i.rt then c.regs[38] else c.regs[i.rt];
        Go(d, i.rt, g.merge(i, before, value), PcAfter(c.regs))
  }

  function ExecuteStore(g: Logic, i: Instruction, c: Cpu): Outcome
    requires |c.regs| == 40 && |c.mem| == 65536
    requires IsStore(i.op)
  {
    var addr := Address(i, c.regs);
    var size := if i.op.StoreByte? then 1 else if i.op.StoreHalf? then 2 else 4;
    if i.op.StorePart? && ToWord(addr) % 4 != 0 then Abort
    else
      var (e, value, d) := if i.op.StorePart? then Read(c, addr, 4) else (NoException, 0, c);
      if e != NoException then Raise(d, e, addr)
      else
        var data := if i.op.StorePart? then g.merge(i, c.regs[i.rt], value) else c.regs[i.rt];
        var (e', d') := Write(d, addr, size, data);
        if e' != NoException then Raise(d', e', addr) else Go(d', 0, 0, PcAfter(c.regs))
  }

  function Execute(g: Logic, i: Instruction, c: Cpu): Outcome
    requires |c.regs| == 40 && |c.mem| == 65536 && 0 <= c.regs[37] < 40
  {
    if IsLoad(i.op) then ExecuteLoad(g, i, c)
    else if IsStore(i.op) then ExecuteStore(g, i, c)
    else if IsJump(i.op) then ExecuteJump(g, i, c)
    else if IsArithmetic(i.op) then ExecuteArithmetic(g, i, c)
    else if i.op.Syscall? then Raise(c, SyscallException, 0)
    else Raise(c, IllegalInstrException, 0)
  }

  function Fetched(g: Logic, c: Cpu): Outcome
    requires |c.regs| == 40 && |c.mem| == 65536 && 0 <= c.regs[37] < 40
  {
    var (e, raw, d) := Read(c, c.regs[34], 4);
    if e != NoException then Raise(d, e, c.regs[34]) else Execute(g, g.decode(ToWord(raw)), d)
  }

  /** The pending load is done, the new one is noted, and the program counters advance. */
  function Advanced(c: Cpu, loadReg: Reg, loadValue: int32, pcAfter: int32): Cpu
    requires |c.regs| == 40 && 0 <= c.regs[37] < 40
  {
    var r := Drained(c.regs, loadReg, loadValue);
    c.(regs := r[36 := r[34]][34 := r[35]][35 := pcAfter])
  }

  /** `Machine::RaiseException` up to the handler. */
  function Trapped(c: Cpu, badVAddr: int32): Cpu
    requires |c.regs| == 40 && 0 <= c.regs[37] < 40
  {
    c.(regs := Drained(c.regs[39 := badVAddr], 0, 0))
  }

  /** One call of `Machine::OneInstruction`, up to the handler if there is an exception. */
  datatype Step = Completed(cpu: Cpu) | Exception(cpu: Cpu, which: ExceptionType) | Aborted

  function Cycle(g: Logic, c: Cpu): Step
    requires |c.regs| == 40 && |c.mem| == 65536 && 0 <= c.regs[37] < 40
  {
    FetchedKeeps(g, c);
    match Fetched(g, c)
    case Go(d, loadReg, loadValue, pcAfter) => Completed(Advanced(d, loadReg, loadValue, pcAfter))
    case Raise(d, which, bad) => Exception(Trapped(d, bad), which)
    case Abort => Aborted
  }

  // ------------------------------------------------------------ properties

  /** Equal but for the bits that say whether a page was used. */
  ghost predicate SameTable(t: Table, u: Table)
  {
    |t| == |u| && forall i | 0 <= i < |t| :: u[i] == t[i].(use := u[i].use, dirty := u[i].dirty)
  }

  /**
   What the switch leaves alone: everything but use bits when it raises an exception; the
   program counters and the pending load when it goes on.
   */
  ghost predicate Kept(c: Cpu, o: Outcome)
    requires IsFile(c.regs)
  {
    match o
    case Go(d, _, _, _) =>
      && IsFile(d.regs) && IsMemory(d.mem) && SameTable(c.table, d.table)
      && forall r | 34 <= r < 40 :: d.regs[r] == c.regs[r]
    case Raise(d, which, _) => d.regs == c.regs && d.mem == c.mem && SameTable(c.table, d.table) && which != NoException
    case Abort => true
  }

  lemma SameTableAfter(t: Table, u: Table, addr: word, writing: bool)
    requires SameTable(t, u) && addr / 512 < |u|
    ensures SameTable(t, Touched(u, addr, writing))
  {
  }

  lemma ExecuteLoadKeeps(g: Logic, i: Instruction, c: Cpu, start: Cpu)
    requires IsFile(c.regs) && IsMemory(c.mem) && 0 <= c.regs[37] < 40
    requires start.regs == c.regs && start.mem == c.mem && SameTable(start.table, c.table)
    requires IsLoad(i.op)
    ensures Kept(start, ExecuteLoad(g, i, c))
  {
    var addr := ToWord(Address(i, c.regs));
    if addr / 512 < |c.table| {
      SameTableAfter(start.table, c.table, addr, false);
    }
  }

  lemma ExecuteStoreKeeps(g: Logic, i: Instruction, c: Cpu, start: Cpu)
    requires IsFile(c.regs) && IsMemory(c.mem) && 0 <= c.regs[37] < 40
    requires start.regs == c.regs && start.mem == c.mem && SameTable(start.table, c.table)
    requires IsStore(i.op)
    ensures Kept(start, ExecuteStore(g, i, c))
  {
    var addr := ToWord(Address(i, c.regs));
    if addr / 512 < |c.table| {
      SameTableAfter(start.table, c.table, addr, false);
      SameTableAfter(start.table, c.table, addr, true);
      SameTableAfter(start.table, Touched(c.table, addr, false), addr, true);
    }
  }

  lemma ExecuteKeeps(g: Logic, i: Instruction, c: Cpu, start: Cpu)
    requires IsFile(c.regs) && IsMemory(c.mem) && 0 <= c.regs[37] < 40
    requires start.regs == c.regs && start.mem == c.mem && SameTable(start.table, c.table)
    ensures Kept(start, Execute(g, i, c))
  {
    if IsLoad(i.op) {
      ExecuteLoadKeeps(g, i, c, start);
    } else if IsStore(i.op) {
      ExecuteStoreKeeps(g, i, c, start);
    }
  }

  lemma FetchedKeeps(g: Logic, c: Cpu)
    requires IsFile(c.regs) && IsMemory(c.mem) && 0 <= c.regs[37] < 40
    ensures Kept(c, Fetched(g, c))
  {
    var (e, raw, d) := Read(c, c.regs[34], 4);
    if e == NoException {
      SameTableAfter(c.table, c.table, ToWord(c.regs[34]), false);
      ExecuteKeeps(g, g.decode(ToWord(raw)), d, c);
    }
  }

  /** Every instruction, completed or not, ends at a boundary. */
  lemma BoundaryKept(g: Logic, c: Cpu)
    requires Boundary(c)
    ensures var s := Cycle(g, c); !s.Aborted? ==> Boundary(s.cpu) && SameTable(c.table, s.cpu.table)
    ensures Cycle(g, c).Completed? ==>
              var d := Cycle(g, c).cpu;
              d.regs[34] == c.regs[35] && d.regs[36] == c.regs[34]
  {
    FetchedKeeps(g, c);
  }

  /**
   An exception finds the program as it was before the instruction: program counters,
   memory, special and general registers, but for the load that was pending.
   */
  lemma TrapIsClean(g: Logic, c: Cpu, r: nat)
    requires Boundary(c) && Cycle(g, c).Exception? && r < 37
    ensures var d := Cycle(g, c).cpu;
            && IsFile(d.regs) && d.mem == c.mem && d.regs[37] == 0 && d.regs[38] == 0
            && d.regs[r] == if r == c.regs[37] && r != 0 then c.regs[38] else c.regs[r]
  {
    FetchedKeeps(g, c);
  }

  /** Whatever the next instruction does, and even if it traps, a pending load is done when it ends. */
  lemma LoadArrives(g: Logic, c: Cpu)
    requires Boundary(c) && c.regs[37] != 0 && !Cycle(g, c).Aborted?
    ensures IsFile(Cycle(g, c).cpu.regs) && Cycle(g, c).cpu.regs[c.regs[37]] == c.regs[38]
  {
    FetchedKeeps(g, c);
  }

  /** A load leaves its target alone for one instruction: the value is pending and not there yet. */
  lemma LoadIsDelayed(g: Logic, i: Instruction, c: Cpu)
    requires Boundary(c) && IsLoad(i.op)
    requires ExecuteLoad(g, i, c).Go?
    ensures var o := ExecuteLoad(g, i, c);
            var d := Advanced(o.cpu, o.loadReg, o.loadValue, o.pcAfter);
            && d.regs[37] == i.rt && d.mem == c.mem
            && forall r | 0 < r < 34 :: d.regs[r] == if r == c.regs[37] then c.regs[38] else c.regs[r]
  {
  }

  // ------------------------------------------------------------- whole runs

  /** An instruction, a register written by the kernel, or a switch to another page table. */
  datatype Event = Instruct | KernelWrites(num: nat, value: int32) | KernelLoads(table: Table, mem: seq<byte>)

  /** The kernel leaves register 0 at zero and the target of the pending load a general register. */
  ghost predicate Possible(g: Logic, c: Cpu, e: Event)
    requires Boundary(c)
  {
    match e
    case Instruct => !Cycle(g, c).Aborted?
    case KernelWrites(num, value) => num < 40 && (num == 0 ==> value == 0) && (num == 37 ==> 0 <= value < 32)
    case KernelLoads(table, mem) => IsMemory(mem)
  }

  ghost function Next(g: Logic, c: Cpu, e: Event): (d: Cpu)
    requires Boundary(c) && Possible(g, c, e)
    ensures Boundary(d)
  {
    match e
    case Instruct =>
      BoundaryKept(g, c);
      Cycle(g, c).cpu
    case KernelWrites(num, value) => c.(regs := c.regs[num := value])
    case KernelLoads(table, mem) => c.(table := table, mem := mem)
  }

  ghost predicate Run(g: Logic, c: Cpu, es: seq<Event>, d: Cpu)
    requires Boundary(c)
    decreases |es|
  {
    if es == [] then d == c else Possible(g, c, es[0]) && Run(g, Next(g, c, es[0]), es[1..], d)
  }

  /** In every sequence of instructions and kernel actions. */
  lemma {:induction false} RunKeeps(g: Logic, c: Cpu, es: seq<Event>, d: Cpu)
    requires Boundary(c) && Run(g, c, es, d)
    ensures |d.regs| == 40 && d.regs[0] == 0 && 0 <= d.regs[37] < 32
    decreases |es|
  {
    if es != [] {
      RunKeeps(g, Next(g, c, es[0]), es[1..], d);
    }
  }

  // ------------------------------------------------------------- the class

  /** How the switch ends, apart from the state it leaves. */
  datatype Switch =
    | Proceed(loadReg: Reg, loadValue: int32, pcAfter: int32)
    | Raised(which: ExceptionType, bad: int32)
    | Failed

  ghost predicate Matches(w: Switch, now: Cpu, o: Outcome)
  {
    match o
    case Go(d, loadReg, loadValue, pcAfter) => w == Proceed(loadReg, loadValue, pcAfter) && now == d
    case Raise(d, which, bad) => w == Raised(which, bad) && now == d
    case Abort => w == Failed
  }

  class Processor {
    const machine: Machine
    const registers: array<int32>
    const logic: Logic

    ghost predicate Valid()
      reads this, machine
    {
      machine.Valid() && registers.Length == 40
    }

    ghost function Value(): Cpu
      reads this, machine, machine.mainMemory, machine.pageTable, registers
    {
      Cpu(registers[..], machine.mainMemory[..], machine.pageTable[..])
    }

    constructor (m: Machine, logic: Logic)
      requires m.Valid()
      ensures Valid() && machine == m && fresh(registers) && this.logic == logic
      ensures forall i | 0 <= i < 40 :: registers[i] == 0
    {
      machine, this.logic := m, logic;
      registers := new int32[40](_ => 0);
    }

    method DelayedLoad(nextReg: Reg, nextValue: int32)
      requires Valid() && 0 <= registers[37] < 40
      modifies registers
      ensures registers[..] == Drained(old(registers[..]), nextReg, nextValue)
    {
      registers[registers[37]] := registers[38];
      registers[37] := nextReg;
      registers[38] := nextValue;
      registers[0] := 0;
    }

    method RaiseException(badVAddr: int32)
      requires Valid() && 0 <= registers[37] < 40
      modifies registers
      ensures Value() == Trapped(old(Value()), badVAddr)
    {
      registers[39] := badVAddr;
      DelayedLoad(0, 0);
    }

    method ReadMem(addr: int32, size: int) returns (e: ExceptionType, value: int32)
      requires Valid() && IsSize(size)
      modifies machine.pageTable
      ensures var r := Read(old(Value()), addr, size);
              e == r.0 && Value() == r.2 && (e == NoException ==> value == r.1)
    {
      e, value := machine.ReadMem(addr, size);
    }

    method WriteMem(addr: int32, size: int, value: int32) returns (e: ExceptionType)
      requires Valid() && IsSize(size)
      modifies machine.pageTable, machine.mainMemory
      ensures var r := Write(old(Value()), addr, size, value); e == r.0 && Value() == r.1
    {
      e := machine.WriteMem(addr, size, value);
    }

    method SetRegister(r: Reg, value: int32)
      requires Valid()
      modifies registers
      ensures Value() == Put(old(Value()), r, value)
    {
      registers[r] := value;
    }

    method DoArithmetic(i: Instruction) returns (w: Switch)
      requires Valid() && IsArithmetic(i.op)
      modifies registers
      ensures Matches(w, Value(), ExecuteArithmetic(logic, i, old(Value())))
    {
      var rs: int, rt: int, extra: int := registers[i.rs], registers[i.rt], i.extra;
      w := Proceed(0, 0, PcAfter(registers[..]));
      match i.op {
        case Add =>
          if Overflows(rs, rt, Wrap(rs + rt)) {
            return Raised(OverflowException, 0);
          }
          SetRegister(i.rd, Wrap(rs + rt));
        case AddImmediate =>
          if Overflows(rs, extra, Wrap(rs + extra)) {
            return Raised(OverflowException, 0);
          }
          SetRegister(i.rt, Wrap(rs + extra));
        case Subtract =>
          if (rs < 0) != (rt < 0) && (rs < 0) != (Wrap(rs - rt) < 0) {
            return Raised(OverflowException, 0);
          }
          SetRegister(i.rd, Wrap(rs - rt));
        case Compute(toRd) =>
          SetRegister(if toRd then i.rd else i.rt, logic.compute(i, registers[..]));
        case HiLo =>
          var (hi, lo) := logic.special(i, registers[..]);
          registers[32] := hi;
          registers[33] := lo;
      }
    }

    method DoJump(i: Instruction) returns (w: Switch)
      requires Valid() && IsJump(i.op)
      modifies registers
      ensures Matches(w, Value(), ExecuteJump(logic, i, old(Value())))
    {
      if i.op.link {
        SetRegister(if i.op.JumpRegister? then i.rd else R31, PcAfter(registers[..]));
      }
      return Proceed(0, 0, logic.target(i, registers[..]));
    }

    method DoLoad(i: Instruction) returns (w: Switch)
      requires Valid() && 0 <= registers[37] < 40
      requires IsLoad(i.op)
      modifies machine.pageTable
      ensures Matches(w, Value(), ExecuteLoad(logic, i, old(Value())))
    {
      var addr := Address(i, registers[..]);
      if (i.op.LoadHalf? && ToWord(addr) % 2 != 0) || (i.op.LoadWord? && ToWord(addr) % 4 != 0) {
        return Raised(AddressErrorException, addr);
      }
      if i.op.LoadPart? && ToWord(addr) % 4 != 0 {
        return Failed;
      }
      var e, value := ReadMem(addr, if i.op.LoadByte? then 1 else if i.op.LoadHalf? then 2 else 4);
      if e != NoException {
        return Raised(e, addr);
      }
      var before := if registers[37] == i.rt then registers[38] else registers[i.rt];
      return Proceed(i.rt, logic.merge(i, before, value), PcAfter(registers[..]));
    }

    method DoStore(i: Instruction) returns (w: Switch)
      requires Valid()
      requires IsStore(i.op)
      modifies machine.pageTable, machine.mainMemory
      ensures Matches(w, Value(), ExecuteStore(logic, i, old(Value())))
    {
      var addr, data := Address(i, registers[..]), registers[i.rt];
      var e;
      if i.op.StorePart? {
        if ToWord(addr) % 4 != 0 {
          return Failed;
        }
        var value;
        e, value := ReadMem(addr, 4);
        if e != NoException {
          return Raised(e, addr);
        }
        data := logic.merge(i, data, value);
      }
      e := WriteMem(addr, if i.op.StoreByte? then 1 else if i.op.StoreHalf? then 2 else 4, data);
      if e != NoException {
        return Raised(e, addr);
      }
      return Proceed(0, 0, PcAfter(registers[..]));
    }

    method Dispatch(i: Instruction) returns (w: Switch)
      requires Valid() && 0 <= registers[37] < 40
      modifies registers, machine.pageTable, machine.mainMemory
      ensures Matches(w, Value(), Execute(logic, i, old(Value())))
    {
      if IsLoad(i.op) {
        w := DoLoad(i);
      } else if IsStore(i.op) {
        w := DoStore(i);
      } else if IsJump(i.op) {
        w := DoJump(i);
      } else if IsArithmetic(i.op) {
        w := DoArithmetic(i);
      } else {
        w := Raised(if i.op.Syscall? then SyscallException else IllegalInstrException, 0);
      }
    }

    method FetchAndExecute() returns (w: Switch)
      requires Valid() && 0 <= registers[37] < 40
      modifies registers, machine.pageTable, machine.mainMemory
      ensures Matches(w, Value(), Fetched(logic, old(Value())))
    {
      var pc := registers[34];
      var e, raw := ReadMem(pc, 4);
      if e != NoException {
        return Raised(e, pc);
      }
      w := Dispatch(logic.decode(ToWord(raw)));
    }

    /** Returns the exception that the handler is called for, if any; an assertion that fails stops the machine. */
    method OneInstruction() returns (trap: ExceptionType, aborted: bool)
      requires Valid() && Boundary(Value())
      modifies registers, machine.pageTable, machine.mainMemory
      ensures match Cycle(logic, old(Value()))
              case Completed(d) => trap == NoException && !aborted && Value() == d && Boundary(d)
              case Exception(d, which) => trap == which && !aborted && Value() == d && Boundary(d)
              case Aborted => aborted
    {
      FetchedKeeps(logic, Value());
      BoundaryKept(logic, Value());
      var w := FetchAndExecute();
      match w
      case Proceed(loadReg, loadValue, pcAfter) =>
        Advance(loadReg, loadValue, pcAfter);
        return NoException, false;
      case Raised(which, bad) =>
        RaiseException(bad);
        return which, false;
      case Failed => return NoException, true;
    }

    method Advance(loadReg: Reg, loadValue: int32, pcAfter: int32)
      requires Valid() && 0 <= registers[37] < 40
      modifies registers
      ensures Value() == Advanced(old(Value()), loadReg, loadValue, pcAfter)
    {
      DelayedLoad(loadReg, loadValue);
      registers[36] := registers[34];
      registers[34] := registers[35];
      registers[35] := pcAfter;
    }
  }
}
