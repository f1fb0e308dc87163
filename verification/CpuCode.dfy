/** The CPU as the emulator executes it: an object whose methods update registers, flags, the operand
    latch and the cycle counter one memory access at a time (emu/core/cpu.cpp,
    emu/core/instructions.cpp). Each method is proved to take the state where `CpuModel` says. */
module CpuCode {
  import opened Words
  import opened Isa
  import opened CpuModel

  class CPU<M> {
    const bus: Device<M>
    var mem: M

    var pc: Word
    var regs: Regs
    var lines: Lines
    var opLow: Byte
    var opHigh: Byte
    var cycles: nat

    constructor (bus: Device<M>, mem: M)
      ensures this.bus == bus
      ensures State() == Sys(Cpu(0, Regs(0, 0, 0, 0, CLEAR_FLAGS), QUIET_LINES, 0, 0, 0), mem)
    {
      this.bus, this.mem := bus, mem;
      pc, regs, lines, opLow, opHigh, cycles := 0, Regs(0, 0, 0, 0, CLEAR_FLAGS), QUIET_LINES, 0, 0, 0;
    }

    ghost function State(): Sys<M>
      reads this
    {
      Sys(Cpu(pc, regs, lines, opLow, opHigh, cycles), mem)
    }

    // ----- Bus access, stack, polling -----

    method Cycle()
      modifies this`cycles
      ensures cycles == old(cycles) + 1
    {
      cycles := cycles + 1;
    }

    method ReadMem(addr: Word) returns (b: Byte)
      modifies this`cycles, this`mem
      ensures cycles == old(cycles) + 1
      ensures b == bus.peek(old(mem), addr) && mem == bus.touch(old(mem), addr)
    {
      Cycle();
      b := bus.peek(mem, addr);
      mem := bus.touch(mem, addr);
    }

    method WriteMem(addr: Word, data: Byte)
      modifies this`cycles, this`mem
      ensures cycles == old(cycles) + 1
      ensures mem == bus.poke(old(mem), addr, data)
    {
      Cycle();
      mem := bus.poke(mem, addr, data);
    }

    /** `fetch` and `fetchop`: they differ only in what they tell the debugger. */
    method FetchOp() returns (b: Byte)
      modifies this`cycles, this`mem, this`pc
      ensures cycles == old(cycles) + 1 && pc == Next(old(pc))
      ensures b == bus.peek(old(mem), old(pc)) && mem == bus.touch(old(mem), old(pc))
    {
      Cycle();
      b := bus.peek(mem, pc);
      mem := bus.touch(mem, pc);
      pc := Next(pc);
    }

    /** Both operand bytes. */
    method FetchOperand()
      modifies this`cycles, this`mem, this`pc, this`opLow, this`opHigh
      ensures cycles == old(cycles) + 2 && pc == Next(Next(old(pc)))
      ensures opLow == bus.peek(old(mem), old(pc))
      ensures opHigh == bus.peek(bus.touch(old(mem), old(pc)), Next(old(pc)))
      ensures mem == bus.touch(bus.touch(old(mem), old(pc)), Next(old(pc)))
    {
      opLow := FetchOp();
      opHigh := FetchOp();
    }

    /** The low and then the high byte of a pointer. */
    method ReadPointer(addr: Word) returns (w: Word)
      requires addr < 0xFFFF
      modifies this`cycles, this`mem
      ensures cycles == old(cycles) + 2
      ensures w == Pointer(bus, old(mem), addr) && mem == AfterPointer(bus, old(mem), addr)
    {
      var low := ReadMem(addr);
      var high := ReadMem(addr + 1);
      w := Join(low, high);
    }

    method CycleIf(crossed: bool)
      modifies this`cycles
      ensures cycles == old(cycles) + if crossed then 1 else 0
    {
      if crossed {
        Cycle();
      }
    }

    method Push(val: Byte)
      modifies this`cycles, this`mem, this`regs
      ensures cycles == old(cycles) + 1
      ensures mem == Pushed(bus, old(mem), old(regs.sp), val)
      ensures regs == old(regs).(sp := Down(old(regs.sp)))
    {
      WriteMem(StackAddr(regs.sp), val);
      regs := regs.(sp := Down(regs.sp));
    }

    method Pull() returns (b: Byte)
      modifies this`cycles, this`mem, this`regs
      ensures cycles == old(cycles) + 1
      ensures b == Pulled(bus, old(mem), old(regs.sp))
      ensures mem == AfterPull(bus, old(mem), old(regs.sp))
      ensures regs == old(regs).(sp := Up(old(regs.sp)))
    {
      regs := regs.(sp := Up(regs.sp));
      b := ReadMem(StackAddr(regs.sp));
    }

    method NmiPoll()
      modifies this`lines
      ensures lines == old(lines).(execNmi := old(lines.execNmi) || old(lines.nmiPending))
    {
      if !lines.execNmi && lines.nmiPending {
        lines := lines.(execNmi := true);
      }
    }

    method IrqPoll()
      modifies this`lines
      ensures lines == old(lines).(execIrq := old(lines.execIrq) || (!regs.flags.intdis && old(lines.irqPending)))
    {
      if !lines.execIrq && !regs.flags.intdis && lines.irqPending {
        lines := lines.(execIrq := true);
      }
    }

    method LastCycle()
      modifies this`lines
      ensures lines == Poll(old(lines), regs.flags.intdis)
    {
      NmiPoll();
      IrqPoll();
    }

    // ----- Instruction functions called through a member pointer -----

    method SetZeroNeg(v: Byte)
      modifies this`regs
      ensures regs == old(regs).(flags := Judge(old(regs.flags), v))
    {
      regs := regs.(flags := regs.flags.(zero := v == 0));
      regs := regs.(flags := regs.flags.(neg := v >= 0x80));
    }

    method InstrCompare(reg: Byte, val: Byte)
      modifies this`regs
      ensures regs == old(regs).(flags := Compare(old(regs.flags), reg, val))
    {
      var res := reg - val;
      regs := regs.(flags := regs.flags.(zero := res == 0));
      regs := regs.(flags := regs.flags.(neg := ToByte(res) >= 0x80));
      regs := regs.(flags := regs.flags.(carry := res >= 0));
    }

    method InstrAdd(addend: Byte, val: Byte)
      modifies this`regs
      ensures regs == AddWithCarry(old(regs), addend, val)
    {
      var acc, f := regs.acc, regs.flags;
      var sum := Sum(regs, addend);
      var res := ToByte(sum);
      f := f.(zero := res == 0);
      f := f.(neg := Negative(res));
      f := f.(carry := sum > 0xFF);
      f := f.(ov := SignFlipped(acc, val, res));
      regs := regs.(flags := f);
      regs := regs.(acc := res);
    }

    method InstrBit(val: Byte)
      modifies this`regs
      ensures regs == old(regs).(flags := BitTest(old(regs.flags), old(regs.acc), val))
    {
      regs := regs.(flags := regs.flags.(neg := BitAnd(regs.acc, val) == 0));
      regs := regs.(flags := regs.flags.(zero := val == 0));
      regs := regs.(flags := regs.flags.(ov := val / 64 % 2 == 1));
    }

    method LoadRegister(r: Register, val: Byte)
      modifies this`regs
      ensures regs == Load(old(regs), r, val)
    {
      match r {
        case RegA => regs := regs.(acc := val);
        case RegX => regs := regs.(x := val);
        case RegY => regs := regs.(y := val);
        case RegSp => regs := regs.(sp := val);
      }
      SetZeroNeg(val);
    }

    method CallRead(f: ReadOp, val: Byte)
      modifies this`regs
      ensures regs == ReadEffect(f, old(regs), val)
    {
      match f
      case Lda => LoadRegister(RegA, val);
      case Ldx => LoadRegister(RegX, val);
      case Ldy => LoadRegister(RegY, val);
      case Cmp => InstrCompare(regs.acc, val);
      case Cpx => InstrCompare(regs.x, val);
      case Cpy => InstrCompare(regs.y, val);
      case Adc => InstrAdd(val, val);
      case Sbc => InstrAdd(0xFF - val, val);
      case Ora => LoadRegister(RegA, BitOr(regs.acc, val));
      case And => LoadRegister(RegA, BitAnd(regs.acc, val));
      case Eor => LoadRegister(RegA, BitXor(regs.acc, val));
      case Bit => InstrBit(val);
    }

    /** The new value and carry of INC, DEC and the shifts. */
    method Shift(f: ModifyOp, c: bool, val: Byte) returns (r: Byte, carry: bool)
      ensures r == ModifyResult(f, c, val) && carry == ModifyCarry(f, c, val)
    {
      carry := c;
      match f
      case Inc => r := ToByte(val + 1);
      case Dec => r := ToByte(val - 1);
      case Asl => carry := val >= 0x80; r := ToByte(2 * val);
      case Lsr => carry := val % 2 == 1; r := val / 2;
      case Rol => carry := val >= 0x80; r := ToByte(2 * val + (if c then 1 else 0));
      case Ror => carry := val % 2 == 1; r := val / 2 + (if c then 0x80 else 0);
    }

    method CallModify(f: ModifyOp, val: Byte) returns (r: Byte)
      modifies this`regs
      ensures regs == old(regs).(flags := ModifyFlags(f, old(regs.flags), val))
      ensures r == ModifyResult(f, old(regs.flags.carry), val)
    {
      hide ModifyResult, ModifyCarry;
      var carry;
      r, carry := Shift(f, regs.flags.carry, val);
      regs := regs.(flags := regs.flags.(carry := carry));
      SetZeroNeg(r);
    }

    // ----- Addressing functions that read -----

    method ImmRead(f: ReadOp)
      modifies this
      ensures State() == PerformRead(bus, old(State()), f, Immediate)
    {
      hide ReadEffect, Poll;
      opLow := FetchOp();
      CallRead(f, opLow);
      LastCycle();
    }

    method ZeroRead(f: ReadOp)
      modifies this
      ensures State() == PerformRead(bus, old(State()), f, ZeroPage)
    {
      hide ReadEffect, Poll;
      opLow := FetchOp();
      var v := ReadMem(opLow);
      CallRead(f, v);
      LastCycle();
    }

    method ZeroXRead(f: ReadOp)
      modifies this
      ensures State() == PerformRead(bus, old(State()), f, ZeroPageX)
    {
      hide ReadEffect, Poll;
      opLow := FetchOp();
      var v := ReadMem(Offset(opLow, regs.x));
      CallRead(f, v);
      Cycle();
      LastCycle();
    }

    method ZeroYRead(f: ReadOp)
      modifies this
      ensures State() == PerformRead(bus, old(State()), f, ZeroPageY)
    {
      hide ReadEffect, Poll;
      opLow := FetchOp();
      var v := ReadMem(Offset(opLow, regs.y));
      CallRead(f, v);
      Cycle();
      LastCycle();
    }

    method AbsRead(f: ReadOp)
      modifies this
      ensures State() == PerformRead(bus, old(State()), f, Absolute)
    {
      hide ReadEffect, Poll;
      FetchOperand();
      var v := ReadMem(Join(opLow, opHigh));
      CallRead(f, v);
      LastCycle();
    }

    method AbsXRead(f: ReadOp)
      modifies this
      ensures State() == PerformRead(bus, old(State()), f, AbsoluteX)
    {
      hide ReadEffect, Poll;
      FetchOperand();
      var res := ReadMem(ToWord(Join(opLow, opHigh) + regs.x));
      CallRead(f, res);
      CycleIf(opHigh != High(res));
      LastCycle();
    }

    method AbsYRead(f: ReadOp)
      modifies this
      ensures State() == PerformRead(bus, old(State()), f, AbsoluteY)
    {
      hide ReadEffect, Poll;
      FetchOperand();
      var res := ReadMem(ToWord(Join(opLow, opHigh) + regs.y));
      CallRead(f, res);
      CycleIf(opHigh != High(res));
      LastCycle();
    }

    method IndXRead(f: ReadOp)
      modifies this
      ensures State() == PerformRead(bus, old(State()), f, IndirectX)
    {
      hide ReadEffect, Poll;
      opLow := FetchOp();
      Cycle();
      var res := ReadPointer(Offset(opLow, regs.x));
      var v := ReadMem(res);
      CallRead(f, v);
      LastCycle();
    }

    method IndYRead(f: ReadOp)
      modifies this
      ensures State() == PerformRead(bus, old(State()), f, IndirectY)
    {
      hide ReadEffect, Poll;
      opLow := FetchOp();
      var res := ReadPointer(opLow);
      res := ToWord(res + regs.y);
      var v := ReadMem(res);
      CallRead(f, v);
      CycleIf(opHigh != High(res));
      LastCycle();
    }

    // ----- Addressing functions that modify -----

    method AccumModify(f: ModifyOp)
      modifies this
      ensures State() == PerformModify(bus, old(State()), f, Accumulator)
    {
      hide ModifyFlags, ModifyResult, Poll;
      Cycle();
      var v := CallModify(f, regs.acc);
      regs := regs.(acc := v);
      LastCycle();
    }

    method ZeroModify(f: ModifyOp)
      modifies this
      ensures State() == PerformModify(bus, old(State()), f, ZeroPage)
    {
      hide ModifyFlags, ModifyResult, Poll;
      opLow := FetchOp();
      var v := ReadMem(opLow);
      var res := CallModify(f, v);
      Cycle();
      WriteMem(opLow, res);
      LastCycle();
    }

    method ZeroXModify(f: ModifyOp)
      modifies this
      ensures State() == PerformModify(bus, old(State()), f, ZeroPageX)
    {
      hide ModifyFlags, ModifyResult, Poll;
      opLow := FetchOp();
      Cycle();
      var v := ReadMem(Offset(opLow, regs.x));
      var res := CallModify(f, v);
      Cycle();
      WriteMem(Offset(opLow, regs.x), res);
      LastCycle();
    }

    method AbsModify(f: ModifyOp)
      modifies this
      ensures State() == PerformModify(bus, old(State()), f, Absolute)
    {
      hide ModifyFlags, ModifyResult, Poll;
      FetchOperand();
      var v := ReadMem(Join(opLow, opHigh));
      var res := CallModify(f, v);
      Cycle();
      WriteMem(Join(opLow, opHigh), res);
      LastCycle();
    }

    method AbsXModify(f: ModifyOp)
      modifies this
      ensures State() == PerformModify(bus, old(State()), f, AbsoluteX)
    {
      hide ModifyFlags, ModifyResult, Poll;
      FetchOperand();
      var v := ReadMem(ToWord(Join(opLow, opHigh) + regs.x));
      var res := CallModify(f, v);
      Cycle();
      Cycle();
      WriteMem(ToWord(Join(opLow, opHigh) + regs.x), res);
      LastCycle();
    }

    // ----- Addressing functions that write -----

    method ZeroWrite(val: Byte)
      modifies this
      ensures State() == PerformWrite(bus, old(State()), val, ZeroPage)
    {
      hide Poll;
      opLow := FetchOp();
      WriteMem(opLow, val);
      LastCycle();
    }

    method ZeroXWrite(val: Byte)
      modifies this
      ensures State() == PerformWrite(bus, old(State()), val, ZeroPageX)
    {
      hide Poll;
      opLow := FetchOp();
      Cycle();
      WriteMem(Offset(opLow, regs.x), val);
      LastCycle();
    }

    method ZeroYWrite(val: Byte)
      modifies this
      ensures State() == PerformWrite(bus, old(State()), val, ZeroPageY)
    {
      hide Poll;
      opLow := FetchOp();
      Cycle();
      WriteMem(Offset(opLow, regs.y), val);
      LastCycle();
    }

    method AbsWrite(val: Byte)
      modifies this
      ensures State() == PerformWrite(bus, old(State()), val, Absolute)
    {
      hide Poll;
      FetchOperand();
      WriteMem(Join(opLow, opHigh), val);
      LastCycle();
    }

    method AbsXWrite(val: Byte)
      modifies this
      ensures State() == PerformWrite(bus, old(State()), val, AbsoluteX)
    {
      hide Poll;
      FetchOperand();
      Cycle();
      WriteMem(ToWord(Join(opLow, opHigh) + regs.x), val);
      LastCycle();
    }

    method AbsYWrite(val: Byte)
      modifies this
      ensures State() == PerformWrite(bus, old(State()), val, AbsoluteY)
    {
      hide Poll;
      FetchOperand();
      Cycle();
      WriteMem(ToWord(Join(opLow, opHigh) + regs.y), val);
      LastCycle();
    }

    method IndXWrite(val: Byte)
      modifies this
      ensures State() == PerformWrite(bus, old(State()), val, IndirectX)
    {
      hide Poll;
      opLow := FetchOp();
      Cycle();
      var res := ReadPointer(Offset(opLow, regs.x));
      WriteMem(res, val);
      LastCycle();
    }

    method IndYWrite(val: Byte)
      modifies this
      ensures State() == PerformWrite(bus, old(State()), val, IndirectY)
    {
      hide Poll;
      opLow := FetchOp();
      var res := ReadPointer(opLow);
      res := ToWord(res + regs.y);
      Cycle();
      WriteMem(res, val);
      LastCycle();
    }

    // ----- Instructions called directly -----

    method InstrBranch(take: bool)
      modifies this
      ensures State() == PerformBranch(bus, old(State()), take)
    {
      LastCycle();
      opLow := FetchOp();
      var tmp := pc;
      if !take {
        return;
      }
      Cycle();
      pc := ToWord(pc + Signed(opLow));
      LastCycle();
      CycleIf(High(tmp) != High(pc));
    }

    method InstrFlag(flag: FlagName, v: bool)
      modifies this
      ensures State() == PerformSetFlag(old(State()), flag, v)
    {
      LastCycle();
      Cycle();
      regs := regs.(flags := WithFlag(regs.flags, flag, v));
    }

    method InstrTransfer(from: Byte, to: Register)
      modifies this
      ensures State() == PerformLoad(old(State()), to, from)
    {
      LastCycle();
      Cycle();
      LoadRegister(to, from);
    }

    method InstrInx()
      modifies this
      ensures State() == PerformLoad(old(State()), RegX, ToByte(old(regs.x) + 1))
    {
      Cycle();
      LoadRegister(RegX, ToByte(regs.x + 1));
      LastCycle();
    }

    method InstrIny()
      modifies this
      ensures State() == PerformLoad(old(State()), RegY, ToByte(old(regs.y) + 1))
    {
      Cycle();
      LoadRegister(RegY, ToByte(regs.y + 1));
      LastCycle();
    }

    method InstrDex()
      modifies this
      ensures State() == PerformLoad(old(State()), RegX, ToByte(old(regs.x) - 1))
    {
      Cycle();
      LoadRegister(RegX, ToByte(regs.x - 1));
      LastCycle();
    }

    method InstrDey()
      modifies this
      ensures State() == PerformLoad(old(State()), RegY, ToByte(old(regs.y) - 1))
    {
      Cycle();
      LoadRegister(RegY, ToByte(regs.y - 1));
      LastCycle();
    }

    method InstrPhp()
      modifies this
      ensures State() == PerformPush(bus, old(State()), Pack(old(regs.flags).(breakf := true)),
                                       old(regs.flags).(breakf := false))
    {
      Cycle();
      regs := regs.(flags := regs.flags.(breakf := true));
      Push(Pack(regs.flags));
      regs := regs.(flags := regs.flags.(breakf := false));
      LastCycle();
    }

    method InstrPha()
      modifies this
      ensures State() == PerformPush(bus, old(State()), old(regs.acc), old(regs.flags))
    {
      Cycle();
      Push(regs.acc);
      LastCycle();
    }

    method InstrPlp()
      modifies this
      ensures State() == PerformPlp(bus, old(State()))
    {
      Cycle();
      Cycle();
      LastCycle();
      var b := Pull();
      regs := regs.(flags := Unpack(b));
      regs := regs.(flags := regs.flags.(breakf := false));
    }

    method InstrPla()
      modifies this
      ensures State() == PerformPla(bus, old(State()))
    {
      Cycle();
      Cycle();
      var b := Pull();
      LoadRegister(RegA, b);
      LastCycle();
    }

    method InstrJsr()
      modifies this
      ensures State() == PerformJsr(bus, old(State()))
    {
      FetchOperand();
      pc := ToWord(pc - 1);
      Cycle();
      Push(High(pc));
      Push(Low(pc));
      pc := Join(opLow, opHigh);
      LastCycle();
    }

    method InstrJmp()
      modifies this
      ensures State() == PerformJmp(bus, old(State()))
    {
      FetchOperand();
      pc := Join(opLow, opHigh);
      LastCycle();
    }

    method InstrJmpIndirect()
      modifies this
      ensures State() == PerformJmpIndirect(bus, old(State()))
    {
      FetchOperand();
      var low := ReadMem(Join(opLow, opHigh));
      var high;
      if opLow == 0xFF {
        high := ReadMem(Join(0, opHigh));
      } else {
        high := ReadMem(Join(opLow, opHigh) + 1);
      }
      pc := Join(low, high);
      LastCycle();
    }

    method InstrRts()
      modifies this
      ensures State() == PerformRts(bus, old(State()))
    {
      Cycle();
      Cycle();
      var low := Pull();
      var high := Pull();
      pc := Next(Join(low, high));
      Cycle();
      LastCycle();
    }

    method InstrBrk()
      modifies this
      ensures State() == PerformBrk(bus, old(State()))
    {
      regs := regs.(flags := regs.flags.(breakf := true));
      InterruptSequence();
    }

    method InstrRti()
      modifies this
      ensures State() == PerformRti(bus, old(State()))
    {
      Cycle();
      Cycle();
      var b := Pull();
      regs := regs.(flags := Unpack(b));
      regs := regs.(flags := regs.flags.(breakf := false));
      var low := Pull();
      var high := Pull();
      pc := Join(low, high);
      LastCycle();
    }

    method InstrNop()
      modifies this
      ensures State() == PerformNop(old(State()))
    {
      Cycle();
      LastCycle();
    }

    // ----- Interrupts and stepping -----

    /** Interrupt hijacking: which request wins, and the withdrawal of that request. */
    method ChooseVector() returns (vec: Word)
      modifies this`lines
      ensures vec == Vector(old(lines)) && lines == Acknowledge(old(lines))
    {
      if lines.resetPending {
        lines := lines.(resetPending := false);
        vec := RESET_VECTOR;
      } else if lines.nmiPending {
        lines := lines.(nmiPending := false);
        vec := NMI_VECTOR;
      } else if lines.irqPending {
        lines := lines.(irqPending := false);
        vec := IRQ_BRK_VECTOR;
      } else {
        vec := IRQ_BRK_VECTOR;
      }
    }

    method InterruptSequence()
      modifies this
      ensures State() == Interrupt(bus, old(State()))
    {
      Cycle();
      Push(High(pc));
      Push(Low(pc));
      Push(Pack(regs.flags));
      regs := regs.(flags := regs.flags.(breakf := false));
      regs := regs.(flags := regs.flags.(intdis := true));
      var vec := ChooseVector();
      pc := ReadPointer(vec);
    }

    method ExecuteRead(f: ReadOp, mode: ReadMode)
      modifies this
      ensures State() == PerformRead(bus, old(State()), f, mode)
    {
      match mode
      case Immediate => ImmRead(f);
      case ZeroPage => ZeroRead(f);
      case ZeroPageX => ZeroXRead(f);
      case ZeroPageY => ZeroYRead(f);
      case Absolute => AbsRead(f);
      case AbsoluteX => AbsXRead(f);
      case AbsoluteY => AbsYRead(f);
      case IndirectX => IndXRead(f);
      case IndirectY => IndYRead(f);
    }

    method ExecuteModify(f: ModifyOp, mode: ModifyMode)
      modifies this
      ensures State() == PerformModify(bus, old(State()), f, mode)
    {
      match mode
      case Accumulator => AccumModify(f);
      case ZeroPage => ZeroModify(f);
      case ZeroPageX => ZeroXModify(f);
      case Absolute => AbsModify(f);
      case AbsoluteX => AbsXModify(f);
    }

    method ExecuteWrite(val: Byte, mode: WriteMode)
      modifies this
      ensures State() == PerformWrite(bus, old(State()), val, mode)
    {
      match mode
      case ZeroPage => ZeroWrite(val);
      case ZeroPageX => ZeroXWrite(val);
      case ZeroPageY => ZeroYWrite(val);
      case Absolute => AbsWrite(val);
      case AbsoluteX => AbsXWrite(val);
      case AbsoluteY => AbsYWrite(val);
      case IndirectX => IndXWrite(val);
      case IndirectY => IndYWrite(val);
    }

    method Execute(i: Instr)
      modifies this
      ensures State() == Perform(bus, old(State()), i)
    {
      hide PerformRead, PerformModify, PerformWrite, PerformBranch, PerformJsr, PerformRti, PerformRts, Interrupt;
      match i
      case Read(f, mode) => ExecuteRead(f, mode);
      case Modify(f, mode) => ExecuteModify(f, mode);
      case Write(r, mode) => ExecuteWrite(RegisterValue(regs, r), mode);
      case Branch(f, v) => InstrBranch(FlagValue(regs.flags, f) == v);
      case SetFlag(f, v) => InstrFlag(f, v);
      case Transfer(from, to) => InstrTransfer(RegisterValue(regs, from), to);
      case Inx => InstrInx();
      case Iny => InstrIny();
      case Dex => InstrDex();
      case Dey => InstrDey();
      case Php => InstrPhp();
      case Pha => InstrPha();
      case Plp => InstrPlp();
      case Pla => InstrPla();
      case Jsr => InstrJsr();
      case Jmp => InstrJmp();
      case JmpIndirect => InstrJmpIndirect();
      case Rts => InstrRts();
      case Brk => InstrBrk();
      case Rti => InstrRti();
      case Nop => InstrNop();
      case Unknown =>
    }

    method Step()
      modifies this
      ensures State() == Run(bus, old(State()))
    {
      hide Decode, Perform;
      if lines.execNmi {
        Cycle();
        InterruptSequence();
        lines := lines.(execNmi := false);
        return;
      }
      if lines.execIrq {
        Cycle();
        InterruptSequence();
        lines := lines.(execIrq := false);
        return;
      }
      var opcode := FetchOp();
      Execute(Decode(opcode));
    }

    method ResetSignal()
      modifies this
      ensures State() == Reset(bus, old(State()))
    {
      mem := bus.poke(mem, 0x4015, 0);
      lines := lines.(resetPending := true);
      InterruptSequence();
    }

    /** The loops of `power` that write zeros. */
    method FillZero(first: Word, end: Word)
      requires first <= end
      modifies this`mem
      ensures mem == ZeroFill(bus, old(mem), first, end)
    {
      var i := first;
      while i < end
        invariant first <= i <= end
        invariant ZeroFill(bus, mem, i, end) == ZeroFill(bus, old(mem), first, end)
      {
        mem := bus.poke(mem, i, 0);
        i := i + 1;
      }
    }

    method Power()
      modifies this
      ensures State() == PowerOn(bus, old(State()))
    {
      hide ZeroFill, Interrupt;
      regs := regs.(acc := 0, x := 0, y := 0);
      FillZero(0, 0x800);
      regs := regs.(flags := CLEAR_FLAGS);
      mem := bus.poke(mem, 0x4017, 0);
      mem := bus.poke(mem, 0x4015, 0);
      FillZero(0x4000, 0x4013);
      regs := regs.(sp := 0);
      lines := lines.(resetPending := true);
      InterruptSequence();
    }

    method RaiseNmi()
      modifies this
      ensures State() == FireNmi(old(State()))
    {
      lines := lines.(nmiPending := true);
    }

    method RaiseIrq()
      modifies this
      ensures State() == FireIrq(old(State()))
    {
      lines := lines.(irqPending := true);
    }
  }
}
