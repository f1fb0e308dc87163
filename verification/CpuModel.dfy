/** What one step of the CPU means, as a function from machine state to machine state.
    The stepwise code of emu/core/cpu.cpp and emu/core/instructions.cpp is in module `CpuCode` and is
    proved equal to these functions. Memory is any device: reads may have side effects, as they do for
    the memory-mapped PPU registers. */
module CpuModel {
  import opened Words
  import opened Isa

  const NMI_VECTOR: Word := 0xFFFA
  const RESET_VECTOR: Word := 0xFFFC
  const IRQ_BRK_VECTOR: Word := 0xFFFE
  const STACK_BASE: Word := 0x0100

  /** A bus seen from the CPU: the value a read returns, the effect a read has, the effect of a write. */
  datatype Device<!M> = Device(peek: (M, Word) -> Byte, touch: (M, Word) -> M, poke: (M, Word, Byte) -> M)

  datatype Flags = Flags(carry: bool, zero: bool, intdis: bool, decimal: bool,
                         breakf: bool, unused: bool, ov: bool, neg: bool)

  /** Registers an instruction computes with. */
  datatype Regs = Regs(acc: Byte, x: Byte, y: Byte, sp: Byte, flags: Flags)

  /** Interrupt requests and the ones found due by polling. */
  datatype Lines = Lines(nmiPending: bool, irqPending: bool, resetPending: bool, execNmi: bool, execIrq: bool)

  datatype Cpu = Cpu(pc: Word, regs: Regs, lines: Lines, opLow: Byte, opHigh: Byte, cycles: nat)

  const CLEAR_FLAGS := Flags(false, false, false, false, false, true, false, false)
  const QUIET_LINES := Lines(false, false, false, false, false)

  datatype Sys<M> = Sys(cpu: Cpu, mem: M)

  // ----- Processor status -----

  function Weight(flag: bool, w: Byte): Byte {
    if flag then w else 0
  }

  function Pack(f: Flags): Byte {
    Weight(f.carry, 1) + Weight(f.zero, 2) + Weight(f.intdis, 4) + Weight(f.decimal, 8) +
    Weight(f.breakf, 16) + Weight(f.unused, 32) + Weight(f.ov, 64) + Weight(f.neg, 128)
  }

  function Unpack(b: Byte): Flags {
    Flags(b % 2 == 1, b / 2 % 2 == 1, b / 4 % 2 == 1, b / 8 % 2 == 1,
          b / 16 % 2 == 1, b / 32 % 2 == 1, b / 64 % 2 == 1, b / 128 == 1)
  }

  predicate FlagValue(f: Flags, name: FlagName) {
    match name
    case CarryFlag => f.carry
    case ZeroFlag => f.zero
    case IntDisableFlag => f.intdis
    case DecimalFlag => f.decimal
    case OverflowFlag => f.ov
    case NegFlag => f.neg
  }

  function WithFlag(f: Flags, name: FlagName, v: bool): Flags {
    match name
    case CarryFlag => f.(carry := v)
    case ZeroFlag => f.(zero := v)
    case IntDisableFlag => f.(intdis := v)
    case DecimalFlag => f.(decimal := v)
    case OverflowFlag => f.(ov := v)
    case NegFlag => f.(neg := v)
  }

  function RegisterValue(r: Regs, name: Register): Byte {
    match name
    case RegA => r.acc
    case RegX => r.x
    case RegY => r.y
    case RegSp => r.sp
  }

  function WithRegister(r: Regs, name: Register, v: Byte): Regs {
    match name
    case RegA => r.(acc := v)
    case RegX => r.(x := v)
    case RegY => r.(y := v)
    case RegSp => r.(sp := v)
  }

  // ----- What the instruction functions compute -----

  /** Zero and negative flags of a result. */
  function Judge(f: Flags, v: Byte): Flags {
    f.(zero := v == 0, neg := Negative(v))
  }

  /** A register loaded with a judged result. */
  function Load(r: Regs, name: Register, v: Byte): Regs {
    WithRegister(r, name, v).(flags := Judge(r.flags, v))
  }

  /** Comparison: the register minus the operand, keeping only the flags. */
  function Compare(f: Flags, reg: Byte, v: Byte): Flags {
    Judge(f, ToByte(reg - v)).(carry := reg >= v)
  }

  /** `acc + addend + carry` before truncation. */
  function Sum(r: Regs, addend: Byte): (n: int)
    ensures 0 <= n < 0x200
  {
    r.acc + addend + (if r.flags.carry then 1 else 0)
  }

  /** The overflow formula of ADC and SBC: the sign changed although `acc` and `v` agreed in sign. */
  predicate SignFlipped(acc: Byte, v: Byte, res: Byte) {
    Negative(acc) != Negative(res) && Negative(acc) == Negative(v)
  }

  /** ADC, and SBC with the complemented operand as addend; `v` is the value the overflow formula looks at. */
  function AddWithCarry(r: Regs, addend: Byte, v: Byte): Regs {
    r.(acc := ToByte(Sum(r, addend)),
       flags := Judge(r.flags, ToByte(Sum(r, addend))).(
         carry := Sum(r, addend) > 0xFF, ov := SignFlipped(r.acc, v, ToByte(Sum(r, addend)))))
  }

  /** The `instr_*` functions that take a value. */
  function ReadEffect(op: ReadOp, r: Regs, v: Byte): Regs {
    match op
    case Lda => Load(r, RegA, v)
    case Ldx => Load(r, RegX, v)
    case Ldy => Load(r, RegY, v)
    case Cmp => r.(flags := Compare(r.flags, r.acc, v))
    case Cpx => r.(flags := Compare(r.flags, r.x, v))
    case Cpy => r.(flags := Compare(r.flags, r.y, v))
    case Adc => AddWithCarry(r, v, v)
    case Sbc => AddWithCarry(r, 0xFF - v, v)
    case Ora => Load(r, RegA, BitOr(r.acc, v))
    case And => Load(r, RegA, BitAnd(r.acc, v))
    case Eor => Load(r, RegA, BitXor(r.acc, v))
    case Bit => r.(flags := BitTest(r.flags, r.acc, v))
  }

  /** `instr_bit` as written: the negative flag reports an empty intersection, the zero flag a zero operand. */
  function BitTest(f: Flags, acc: Byte, v: Byte): Flags {
    f.(neg := BitAnd(acc, v) == 0, zero := v == 0, ov := v / 64 % 2 == 1)
  }

  /** Value produced by the `instr_*` functions that modify a value, given the carry flag. */
  function ModifyResult(op: ModifyOp, carry: bool, v: Byte): Byte {
    match op
    case Inc => ToByte(v + 1)
    case Dec => ToByte(v - 1)
    case Asl => ToByte(2 * v)
    case Lsr => v / 2
    case Rol => ToByte(2 * v + (if carry then 1 else 0))
    case Ror => v / 2 + (if carry then 0x80 else 0)
  }

  predicate ModifyCarry(op: ModifyOp, carry: bool, v: Byte) {
    match op
    case Inc => carry
    case Dec => carry
    case Asl => v >= 0x80
    case Rol => v >= 0x80
    case Lsr => v % 2 == 1
    case Ror => v % 2 == 1
  }

  function ModifyFlags(op: ModifyOp, f: Flags, v: Byte): Flags {
    Judge(f, ModifyResult(op, f.carry, v)).(carry := ModifyCarry(op, f.carry, v))
  }

  // ----- Interrupt polling, stack -----

  /** `last_cycle`: a pending NMI, or an unmasked pending IRQ, becomes due. */
  function Poll(l: Lines, masked: bool): Lines {
    l.(execNmi := l.execNmi || l.nmiPending,
       execIrq := l.execIrq || (!masked && l.irqPending))
  }

  function StackAddr(sp: Byte): Word {
    STACK_BASE + sp
  }

  function Pushed<M>(d: Device<M>, m: M, sp: Byte, v: Byte): M {
    d.poke(m, StackAddr(sp), v)
  }

  function Pulled<M>(d: Device<M>, m: M, sp: Byte): Byte {
    d.peek(m, StackAddr(Up(sp)))
  }

  function AfterPull<M>(d: Device<M>, m: M, sp: Byte): M {
    d.touch(m, StackAddr(Up(sp)))
  }

  // ----- Addressing -----

  /** Where an instruction's datum is, the operand bytes latched on the way, and the memory after the
      operand and pointer reads. */
  datatype Operand<M> = Operand(addr: Word, low: Byte, high: Byte, mem: M)

  function Locate<M>(d: Device<M>, c: Cpu, m: M, mode: ReadMode): Operand<M> {
    var low := d.peek(m, c.pc);
    var m1 := d.touch(m, c.pc);
    var high := d.peek(m1, Next(c.pc));
    var m2 := d.touch(m1, Next(c.pc));
    match mode
    case Immediate => Operand(c.pc, low, c.opHigh, m)
    case ZeroPage => Operand(low, low, c.opHigh, m1)
    case ZeroPageX => Operand(Offset(low, c.regs.x), low, c.opHigh, m1)
    case ZeroPageY => Operand(Offset(low, c.regs.y), low, c.opHigh, m1)
    case Absolute => Operand(Join(low, high), low, high, m2)
    case AbsoluteX => Operand(ToWord(Join(low, high) + c.regs.x), low, high, m2)
    case AbsoluteY => Operand(ToWord(Join(low, high) + c.regs.y), low, high, m2)
    case IndirectX =>
      Operand(Pointer(d, m1, Offset(low, c.regs.x)), low, c.opHigh, AfterPointer(d, m1, Offset(low, c.regs.x)))
    case IndirectY =>
      Operand(ToWord(Pointer(d, m1, low) + c.regs.y), low, c.opHigh, AfterPointer(d, m1, low))
  }

  /** The little-endian word at `a` and the memory after reading it. */
  function Pointer<M>(d: Device<M>, m: M, a: Word): Word {
    Join(d.peek(m, a), d.peek(d.touch(m, a), Next(a)))
  }

  function AfterPointer<M>(d: Device<M>, m: M, a: Word): M {
    d.touch(d.touch(m, a), Next(a))
  }

  function OperandBytes(mode: Mode): nat {
    match mode
    case Accumulator => 0
    case Implied => 0
    case Absolute => 2
    case AbsoluteX => 2
    case AbsoluteY => 2
    case Indirect => 2
    case _ => 1
  }

  /** The PC past the operand bytes. */
  function AfterOperand(pc: Word, mode: Mode): Word {
    match OperandBytes(mode)
    case 0 => pc
    case 1 => Next(pc)
    case _ => Next(Next(pc))
  }

  // ----- Cycle counts: the numbers documented beside each addressing function, less the opcode fetch -----

  function ReadCycles<M>(mode: ReadMode, o: Operand<M>): nat {
    match mode
    case Immediate => 1
    case ZeroPage => 2
    case ZeroPageX => 3
    case ZeroPageY => 3
    case Absolute => 3
    case AbsoluteX => if o.high != 0 then 4 else 3
    case AbsoluteY => if o.high != 0 then 4 else 3
    case IndirectX => 5
    case IndirectY => if o.high != High(o.addr) then 5 else 4
  }

  function ModifyCycles(mode: ModifyMode): nat {
    match mode
    case Accumulator => 1
    case ZeroPage => 4
    case ZeroPageX => 5
    case Absolute => 5
    case AbsoluteX => 6
  }

  function WriteCycles(mode: WriteMode): nat {
    match mode
    case ZeroPage => 2
    case ZeroPageX => 3
    case ZeroPageY => 3
    case Absolute => 3
    case AbsoluteX => 4
    case AbsoluteY => 4
    case IndirectX => 5
    case IndirectY => 5
  }

  // ----- Instructions -----

  /** The CPU after an instruction that polls last: new PC, registers and latched operand, cycles charged. */
  function Finish(c: Cpu, pc: Word, r: Regs, low: Byte, high: Byte, cycles: nat): Cpu {
    Cpu(pc, r, Poll(c.lines, r.flags.intdis), low, high, c.cycles + cycles)
  }

  function PerformRead<M>(d: Device<M>, s: Sys<M>, op: ReadOp, mode: ReadMode): Sys<M> {
    var o := Locate(d, s.cpu, s.mem, mode);
    var r := ReadEffect(op, s.cpu.regs, d.peek(o.mem, o.addr));
    Sys(Finish(s.cpu, AfterOperand(s.cpu.pc, mode), r, o.low, o.high, ReadCycles(mode, o)),
        d.touch(o.mem, o.addr))
  }

  function PerformAccumulator<M>(s: Sys<M>, op: ModifyOp): Sys<M> {
    var c := s.cpu;
    var r := c.regs.(acc := ModifyResult(op, c.regs.flags.carry, c.regs.acc),
                     flags := ModifyFlags(op, c.regs.flags, c.regs.acc));
    Sys(Finish(c, c.pc, r, c.opLow, c.opHigh, ModifyCycles(Accumulator)), s.mem)
  }

  function PerformModify<M>(d: Device<M>, s: Sys<M>, op: ModifyOp, mode: ModifyMode): Sys<M> {
    if mode == Accumulator then PerformAccumulator(s, op) else
    var o := Locate(d, s.cpu, s.mem, mode);
    var v := d.peek(o.mem, o.addr);
    var f := s.cpu.regs.flags;
    var r := s.cpu.regs.(flags := ModifyFlags(op, f, v));
    Sys(Finish(s.cpu, AfterOperand(s.cpu.pc, mode), r, o.low, o.high, ModifyCycles(mode)),
        d.poke(d.touch(o.mem, o.addr), o.addr, ModifyResult(op, f.carry, v)))
  }

  function PerformWrite<M>(d: Device<M>, s: Sys<M>, v: Byte, mode: WriteMode): Sys<M> {
    var o := Locate(d, s.cpu, s.mem, mode);
    Sys(Finish(s.cpu, AfterOperand(s.cpu.pc, mode), s.cpu.regs, o.low, o.high, WriteCycles(mode)),
        d.poke(o.mem, o.addr, v))
  }

  function PerformBranch<M>(d: Device<M>, s: Sys<M>, taken: bool): Sys<M> {
    var c := s.cpu;
    var low := d.peek(s.mem, c.pc);
    var next := Next(c.pc);
    var target := ToWord(next + Signed(low));
    Sys(if taken
        then Finish(c, target, c.regs, low, c.opHigh, if High(next) != High(target) then 3 else 2)
        else Finish(c, next, c.regs, low, c.opHigh, 1),
        d.touch(s.mem, c.pc))
  }

  /** Flag instructions poll before the flag changes. */
  function PerformSetFlag<M>(s: Sys<M>, f: FlagName, v: bool): Sys<M> {
    var c := Finish(s.cpu, s.cpu.pc, s.cpu.regs, s.cpu.opLow, s.cpu.opHigh, 1);
    s.(cpu := c.(regs := c.regs.(flags := WithFlag(c.regs.flags, f, v))))
  }

  /** Transfers, INX, INY, DEX, DEY: a register is loaded with a value found in the registers. */
  function PerformLoad<M>(s: Sys<M>, r: Register, v: Byte): Sys<M> {
    s.(cpu := Finish(s.cpu, s.cpu.pc, Load(s.cpu.regs, r, v), s.cpu.opLow, s.cpu.opHigh, 1))
  }

  function PerformNop<M>(s: Sys<M>): Sys<M> {
    s.(cpu := Finish(s.cpu, s.cpu.pc, s.cpu.regs, s.cpu.opLow, s.cpu.opHigh, 1))
  }

  function PerformJsr<M>(d: Device<M>, s: Sys<M>): Sys<M> {
    var o := Locate(d, s.cpu, s.mem, Absolute);
    var sp := s.cpu.regs.sp;
    var ret := Next(s.cpu.pc);
    Sys(Finish(s.cpu, o.addr, s.cpu.regs.(sp := Down(Down(sp))), o.low, o.high, 5),
        Pushed(d, Pushed(d, o.mem, sp, High(ret)), Down(sp), Low(ret)))
  }

  function PerformJmp<M>(d: Device<M>, s: Sys<M>): Sys<M> {
    var o := Locate(d, s.cpu, s.mem, Absolute);
    Sys(Finish(s.cpu, o.addr, s.cpu.regs, o.low, o.high, 2), o.mem)
  }

  /** The JMP (indirect) pointer does not carry into its high byte. */
  function PerformJmpIndirect<M>(d: Device<M>, s: Sys<M>): Sys<M> {
    var o := Locate(d, s.cpu, s.mem, Absolute);
    var second := Join(ToByte(o.low + 1), o.high);
    var m := d.touch(o.mem, o.addr);
    Sys(Finish(s.cpu, Join(d.peek(o.mem, o.addr), d.peek(m, second)), s.cpu.regs, o.low, o.high, 4),
        d.touch(m, second))
  }

  function PerformRts<M>(d: Device<M>, s: Sys<M>): Sys<M> {
    var c := s.cpu;
    var sp := c.regs.sp;
    var m := AfterPull(d, s.mem, sp);
    var ret := Join(Pulled(d, s.mem, sp), Pulled(d, m, Up(sp)));
    Sys(Finish(c, Next(ret), c.regs.(sp := Up(Up(sp))), c.opLow, c.opHigh, 5),
        AfterPull(d, m, Up(sp)))
  }

  function PerformRti<M>(d: Device<M>, s: Sys<M>): Sys<M> {
    var c := s.cpu;
    var sp := c.regs.sp;
    var m := AfterPull(d, s.mem, sp);
    var n := AfterPull(d, m, Up(sp));
    var f := Unpack(Pulled(d, s.mem, sp)).(breakf := false);
    Sys(Finish(c, Join(Pulled(d, m, Up(sp)), Pulled(d, n, Up(Up(sp)))),
               c.regs.(sp := Up(Up(Up(sp))), flags := f), c.opLow, c.opHigh, 5),
        AfterPull(d, n, Up(Up(sp))))
  }

  /** PHA and PHP: a byte is pushed, the flags end up as given. */
  function PerformPush<M>(d: Device<M>, s: Sys<M>, v: Byte, f: Flags): Sys<M> {
    var c := s.cpu;
    Sys(Finish(c, c.pc, c.regs.(sp := Down(c.regs.sp), flags := f), c.opLow, c.opHigh, 2),
        Pushed(d, s.mem, c.regs.sp, v))
  }

  function PerformPla<M>(d: Device<M>, s: Sys<M>): Sys<M> {
    var c := s.cpu;
    var r := c.regs.(sp := Up(c.regs.sp));
    Sys(Finish(c, c.pc, Load(r, RegA, Pulled(d, s.mem, c.regs.sp)), c.opLow, c.opHigh, 3),
        AfterPull(d, s.mem, c.regs.sp))
  }

  /** PLP polls before it pulls. */
  function PerformPlp<M>(d: Device<M>, s: Sys<M>): Sys<M> {
    var c := Finish(s.cpu, s.cpu.pc, s.cpu.regs, s.cpu.opLow, s.cpu.opHigh, 3);
    var sp := s.cpu.regs.sp;
    var f := Unpack(Pulled(d, s.mem, sp)).(breakf := false);
    Sys(c.(regs := s.cpu.regs.(sp := Up(sp), flags := f)), AfterPull(d, s.mem, sp))
  }

  /** The vector an interrupt sequence goes through: reset beats NMI beats IRQ/BRK. */
  function Vector(l: Lines): Word {
    if l.resetPending then RESET_VECTOR else if l.nmiPending then NMI_VECTOR else IRQ_BRK_VECTOR
  }

  /** The request an interrupt sequence answers is withdrawn. */
  function Acknowledge(l: Lines): Lines {
    if l.resetPending then l.(resetPending := false)
    else if l.nmiPending then l.(nmiPending := false)
    else l.(irqPending := false)
  }

  /** `interrupt`: save PC and status, mask interrupts, enter through the vector. */
  function Interrupt<M>(d: Device<M>, s: Sys<M>): Sys<M> {
    var c := s.cpu;
    var sp := c.regs.sp;
    var m := Pushed(d, Pushed(d, Pushed(d, s.mem, sp, High(c.pc)), Down(sp), Low(c.pc)),
                    Down(Down(sp)), Pack(c.regs.flags));
    var r := c.regs.(sp := Down(Down(Down(sp))), flags := c.regs.flags.(breakf := false, intdis := true));
    Sys(Cpu(Pointer(d, m, Vector(c.lines)), r, Acknowledge(c.lines), c.opLow, c.opHigh, c.cycles + 6),
        AfterPointer(d, m, Vector(c.lines)))
  }

  function PerformBrk<M>(d: Device<M>, s: Sys<M>): Sys<M> {
    Interrupt(d, s.(cpu := s.cpu.(regs := s.cpu.regs.(flags := s.cpu.regs.flags.(breakf := true)))))
  }

  /** `execute`, after the opcode fetch. */
  function Perform<M>(d: Device<M>, s: Sys<M>, i: Instr): Sys<M> {
    var r := s.cpu.regs;
    match i
    case Read(op, mode) => PerformRead(d, s, op, mode)
    case Modify(op, mode) => PerformModify(d, s, op, mode)
    case Write(source, mode) => PerformWrite(d, s, RegisterValue(r, source), mode)
    case Branch(f, v) => PerformBranch(d, s, FlagValue(r.flags, f) == v)
    case SetFlag(f, v) => PerformSetFlag(s, f, v)
    case Transfer(from, to) => PerformLoad(s, to, RegisterValue(r, from))
    case Inx => PerformLoad(s, RegX, ToByte(r.x + 1))
    case Iny => PerformLoad(s, RegY, ToByte(r.y + 1))
    case Dex => PerformLoad(s, RegX, ToByte(r.x - 1))
    case Dey => PerformLoad(s, RegY, ToByte(r.y - 1))
    case Php => PerformPush(d, s, Pack(r.flags.(breakf := true)), r.flags.(breakf := false))
    case Pha => PerformPush(d, s, r.acc, r.flags)
    case Plp => PerformPlp(d, s)
    case Pla => PerformPla(d, s)
    case Jsr => PerformJsr(d, s)
    case Jmp => PerformJmp(d, s)
    case JmpIndirect => PerformJmpIndirect(d, s)
    case Rts => PerformRts(d, s)
    case Brk => PerformBrk(d, s)
    case Rti => PerformRti(d, s)
    case Nop => PerformNop(s)
    case Unknown => s
  }

  // ----- Stepping -----

  function Fetched<M>(d: Device<M>, s: Sys<M>): Byte {
    d.peek(s.mem, s.cpu.pc)
  }

  function AfterFetch<M>(d: Device<M>, s: Sys<M>): Sys<M> {
    Sys(s.cpu.(pc := Next(s.cpu.pc), cycles := s.cpu.cycles + 1), d.touch(s.mem, s.cpu.pc))
  }

  /** An interrupt sequence run in place of an instruction. */
  function Serve<M>(d: Device<M>, s: Sys<M>): Sys<M> {
    Interrupt(d, s.(cpu := s.cpu.(cycles := s.cpu.cycles + 1)))
  }

  /** `run`: a due interrupt, or one instruction. */
  function Run<M>(d: Device<M>, s: Sys<M>): Sys<M> {
    if s.cpu.lines.execNmi then
      var t := Serve(d, s);
      t.(cpu := t.cpu.(lines := t.cpu.lines.(execNmi := false)))
    else if s.cpu.lines.execIrq then
      var t := Serve(d, s);
      t.(cpu := t.cpu.(lines := t.cpu.lines.(execIrq := false)))
    else
      Perform(d, AfterFetch(d, s), Decode(Fetched(d, s)))
  }

  /** `reset`: the APU is silenced and the reset sequence runs at once. */
  function Reset<M>(d: Device<M>, s: Sys<M>): Sys<M> {
    Interrupt(d, Sys(s.cpu.(lines := s.cpu.lines.(resetPending := true)), d.poke(s.mem, 0x4015, 0)))
  }

  /** Zeros written to addresses `first` up to `end`, in order. */
  function ZeroFill<M>(d: Device<M>, m: M, first: Word, end: Word): M
    requires first <= end
    decreases end - first
  {
    if first == end then m else ZeroFill(d, d.poke(m, first, 0), first + 1, end)
  }

  /** `power`: RAM and the APU registers cleared, registers set up, and the reset sequence run. */
  function PowerOn<M>(d: Device<M>, s: Sys<M>): Sys<M> {
    var m1 := ZeroFill(d, s.mem, 0, 0x800);
    var m2 := d.poke(d.poke(m1, 0x4017, 0), 0x4015, 0);
    var m3 := ZeroFill(d, m2, 0x4000, 0x4013);
    Interrupt(d, Sys(s.cpu.(regs := Regs(0, 0, 0, 0, CLEAR_FLAGS), lines := s.cpu.lines.(resetPending := true)), m3))
  }

  function FireNmi<M>(s: Sys<M>): Sys<M> {
    s.(cpu := s.cpu.(lines := s.cpu.lines.(nmiPending := true)))
  }

  function FireIrq<M>(s: Sys<M>): Sys<M> {
    s.(cpu := s.cpu.(lines := s.cpu.lines.(irqPending := true)))
  }
}
