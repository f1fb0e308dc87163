/** The debugger's next-address predictor (`CPU::nextaddr`) against execution, and the cycle cost of a step. */
module Predictor {
  import opened Words
  import opened Isa
  import opened CpuModel
  import opened FlatMemory

  // ----- The predictor -----

  /** `took_branch`. */
  predicate TookBranch(opcode: Byte, f: Flags) {
    match opcode
    case 0x10 => !f.neg
    case 0x30 => f.neg
    case 0x50 => !f.ov
    case 0x70 => f.ov
    case 0x90 => !f.carry
    case 0xB0 => f.carry
    case 0xD0 => !f.zero
    case 0xF0 => f.zero
    case _ => false
  }

  /** `branch_pointer`. */
  function BranchPointer(arg: Byte, pc: Word): Word {
    ToWord(pc + 2 + Signed(arg))
  }

  /** `nextaddr`. The stack addresses are sums of `int`s: they do not wrap at eight bits. */
  function NextAddr<M>(d: Device<M>, s: Sys<M>): Word {
    var c, m := s.cpu, s.mem;
    var low := d.peek(m, Next(c.pc));
    var high := d.peek(m, Next(Next(c.pc)));
    match d.peek(m, c.pc)
    case 0x00 => Vector(c.lines)
    case 0x20 => Join(low, high)
    case 0x4C => Join(low, high)
    case 0x6C =>
      Join(d.peek(m, Join(low, high)),
           d.peek(m, if low == 0xFF then Join(0, high) else Join(low, high) + 1))
    case 0x60 => Next(StackWord(d, m, c.regs.sp))
    case 0x40 => StackWord(d, m, c.regs.sp)
    case opcode =>
      if TookBranch(opcode, c.regs.flags) then BranchPointer(low, c.pc) else ToWord(c.pc + NumBytes(opcode))
  }

  function StackWord<M>(d: Device<M>, m: M, sp: Byte): Word {
    Join(d.peek(m, STACK_BASE + sp + 1), d.peek(m, STACK_BASE + sp + 2))
  }

  // ----- The two instruction tables -----

  /** What the disassembler's length and `took_branch` must say of an instruction. */
  ghost predicate Consistent(opcode: Byte, i: Instr, bytes: nat, f: Flags) {
    match i
    case Read(_, mode) => bytes == 1 + OperandBytes(mode) && !TookBranch(opcode, f) && !Redirects(opcode)
    case Modify(_, mode) => bytes == 1 + OperandBytes(mode) && !TookBranch(opcode, f) && !Redirects(opcode)
    case Write(_, mode) => bytes == 1 + OperandBytes(mode) && !TookBranch(opcode, f) && !Redirects(opcode)
    case Branch(flag, v) =>
      bytes == 2 && TookBranch(opcode, f) == (FlagValue(f, flag) == v) && !Redirects(opcode)
    case Jsr => opcode == 0x20
    case Jmp => opcode == 0x4C
    case JmpIndirect => opcode == 0x6C
    case Rts => opcode == 0x60
    case Rti => opcode == 0x40
    case Brk => opcode == 0x00
    case _ => bytes == 1 && !TookBranch(opcode, f) && !Redirects(opcode)
  }

  predicate Redirects(opcode: Byte) {
    opcode in {0x00, 0x20, 0x40, 0x4C, 0x60, 0x6C}
  }

  lemma Row00Agrees(opcode: Byte, f: Flags)
    requires 0x00 <= opcode < 0x20
    ensures Consistent(opcode, Decode00(opcode), ModeBytes(Listed00(opcode)), f)
  {
  }

  lemma Row20Agrees(opcode: Byte, f: Flags)
    requires 0x20 <= opcode < 0x40
    ensures Consistent(opcode, Decode20(opcode), ModeBytes(Listed20(opcode)), f)
  {
  }

  lemma Row40Agrees(opcode: Byte, f: Flags)
    requires 0x40 <= opcode < 0x60
    ensures Consistent(opcode, Decode40(opcode), ModeBytes(Listed40(opcode)), f)
  {
  }

  lemma Row60Agrees(opcode: Byte, f: Flags)
    requires 0x60 <= opcode < 0x80
    ensures Consistent(opcode, Decode60(opcode), ModeBytes(Listed60(opcode)), f)
  {
  }

  lemma Row80Agrees(opcode: Byte, f: Flags)
    requires 0x80 <= opcode < 0xA0
    ensures Consistent(opcode, Decode80(opcode), ModeBytes(Listed80(opcode)), f)
  {
  }

  lemma RowA0Agrees(opcode: Byte, f: Flags)
    requires 0xA0 <= opcode < 0xC0
    ensures Consistent(opcode, DecodeA0(opcode), ModeBytes(ListedA0(opcode)), f)
  {
  }

  lemma RowC0Agrees(opcode: Byte, f: Flags)
    requires 0xC0 <= opcode < 0xE0
    ensures Consistent(opcode, DecodeC0(opcode), ModeBytes(ListedC0(opcode)), f)
  {
  }

  lemma RowE0Agrees(opcode: Byte, f: Flags)
    requires 0xE0 <= opcode < 0x100
    ensures Consistent(opcode, DecodeE0(opcode), ModeBytes(ListedE0(opcode)), f)
  {
  }

  /** The executor's dispatch and the debugger's tables, entered separately, agree on all 256 opcodes. */
  lemma TablesAgree(opcode: Byte, f: Flags)
    ensures Consistent(opcode, Decode(opcode), NumBytes(opcode), f)
  {
    hide Consistent, ModeBytes;
    hide Decode00, Decode20, Decode40, Decode60, Decode80, DecodeA0, DecodeC0, DecodeE0;
    hide Listed00, Listed20, Listed40, Listed60, Listed80, ListedA0, ListedC0, ListedE0;
    if opcode < 0x20 {
      Row00Agrees(opcode, f);
    } else if opcode < 0x40 {
      Row20Agrees(opcode, f);
    } else if opcode < 0x60 {
      Row40Agrees(opcode, f);
    } else if opcode < 0x80 {
      Row60Agrees(opcode, f);
    } else if opcode < 0xA0 {
      Row80Agrees(opcode, f);
    } else if opcode < 0xC0 {
      RowA0Agrees(opcode, f);
    } else if opcode < 0xE0 {
      RowC0Agrees(opcode, f);
    } else {
      RowE0Agrees(opcode, f);
    }
  }

  // ----- Where each kind of instruction leaves the PC -----

  /** The PC after an instruction that is not a jump, call, return or BRK; `pc` is just past the opcode. */
  ghost function Fallthrough(pc: Word, i: Instr): Word {
    match i
    case Read(_, mode) => AfterOperand(pc, mode)
    case Modify(_, mode) => AfterOperand(pc, mode)
    case Write(_, mode) => AfterOperand(pc, mode)
    case Branch(_, _) => Next(pc)
    case _ => pc
  }

  lemma PlainPc<M>(d: Device<M>, s: Sys<M>, i: Instr)
    requires i !in {Jsr, Jmp, JmpIndirect, Rts, Rti, Brk}
    ensures Perform(d, s, i).cpu.pc ==
            if i.Branch? && FlagValue(s.cpu.regs.flags, i.tested) == i.when
            then ToWord(Next(s.cpu.pc) + Signed(d.peek(s.mem, s.cpu.pc)))
            else Fallthrough(s.cpu.pc, i)
  {
    hide ReadEffect, ModifyFlags, ModifyResult, Poll, Load, Locate, Unpack, Pack, WithFlag;
  }

  /** Reading address `a` has no side effect. */
  ghost predicate Inert<M>(d: Device<M>, m: M, a: Word) {
    d.touch(m, a) == m
  }

  ghost predicate Unarmed<M>(s: Sys<M>) {
    !s.cpu.lines.execNmi && !s.cpu.lines.execIrq
  }

  lemma PlainPrediction<M>(d: Device<M>, s: Sys<M>)
    requires Unarmed(s) && Inert(d, s.mem, s.cpu.pc) && !Redirects(Fetched(d, s))
    ensures NextAddr(d, s) == Run(d, s).cpu.pc
  {
    hide Perform, Decode, NumBytes;
    var t := AfterFetch(d, s);
    var i := Decode(Fetched(d, s));
    TablesAgree(Fetched(d, s), s.cpu.regs.flags);
    PlainPc(d, t, i);
    assert ToWord(Next(t.cpu.pc) + Signed(d.peek(s.mem, t.cpu.pc))) == BranchPointer(d.peek(s.mem, t.cpu.pc), s.cpu.pc);
    assert Fallthrough(t.cpu.pc, i) == ToWord(s.cpu.pc + NumBytes(Fetched(d, s)));
  }

  lemma JumpPrediction<M>(d: Device<M>, s: Sys<M>)
    requires Unarmed(s) && Inert(d, s.mem, s.cpu.pc) && Inert(d, s.mem, Next(s.cpu.pc))
    requires Fetched(d, s) in {0x20, 0x4C}
    ensures NextAddr(d, s) == Run(d, s).cpu.pc
  {
    hide Poll;
  }

  /** The operand word of the instruction at the PC. */
  function OperandWord<M>(d: Device<M>, s: Sys<M>): Word {
    Join(d.peek(s.mem, Next(s.cpu.pc)), d.peek(s.mem, Next(Next(s.cpu.pc))))
  }

  /** The page-wrap of JMP (indirect) is predicted too. */
  lemma IndirectPrediction<M>(d: Device<M>, s: Sys<M>)
    requires Unarmed(s) && Fetched(d, s) == 0x6C
    requires Inert(d, s.mem, s.cpu.pc) && Inert(d, s.mem, Next(s.cpu.pc)) && Inert(d, s.mem, Next(Next(s.cpu.pc)))
    requires Inert(d, s.mem, OperandWord(d, s))
    ensures NextAddr(d, s) == Run(d, s).cpu.pc
  {
    hide Poll;
    var low: Byte := d.peek(s.mem, Next(s.cpu.pc));
    var high: Byte := d.peek(s.mem, Next(Next(s.cpu.pc)));
    assert Join(ToByte(low + 1), high) == if low == 0xFF then Join(0, high) else Join(low, high) + 1;
  }

  lemma ReturnPrediction<M>(d: Device<M>, s: Sys<M>)
    requires Unarmed(s) && Inert(d, s.mem, s.cpu.pc) && Fetched(d, s) == 0x60
    requires s.cpu.regs.sp <= 0xFD && Inert(d, s.mem, StackAddr(Up(s.cpu.regs.sp)))
    ensures NextAddr(d, s) == Run(d, s).cpu.pc
  {
    hide Poll;
    var sp := s.cpu.regs.sp;
    assert StackAddr(Up(sp)) == STACK_BASE + sp + 1 && StackAddr(Up(Up(sp))) == STACK_BASE + sp + 2;
    assert Run(d, s) == PerformRts(d, AfterFetch(d, s));
  }

  /** No side effects where the predictor and the executor read code, pointer and stack bytes. */
  ghost predicate InertAround<M>(d: Device<M>, s: Sys<M>) {
    && Inert(d, s.mem, s.cpu.pc) && Inert(d, s.mem, Next(s.cpu.pc)) && Inert(d, s.mem, Next(Next(s.cpu.pc)))
    && Inert(d, s.mem, OperandWord(d, s))
    && Inert(d, s.mem, StackAddr(Up(s.cpu.regs.sp)))
  }

  /** On any device, for any registers and any opcode byte but BRK and RTI, with the stack pointer at most
      0xFD for RTS: the predicted address is the one execution reaches. */
  lemma PredictorAgrees<M>(d: Device<M>, s: Sys<M>)
    requires Unarmed(s) && InertAround(d, s)
    requires Fetched(d, s) !in {0x00, 0x40}
    requires Fetched(d, s) == 0x60 ==> s.cpu.regs.sp <= 0xFD
    ensures NextAddr(d, s) == Run(d, s).cpu.pc
  {
    hide Run, NextAddr;
    if !Redirects(Fetched(d, s)) {
      PlainPrediction(d, s);
    } else if Fetched(d, s) == 0x6C {
      IndirectPrediction(d, s);
    } else if Fetched(d, s) == 0x60 {
      ReturnPrediction(d, s);
    } else {
      JumpPrediction(d, s);
    }
  }

  // ----- Flat memory: exactly when the predictor is right -----

  ghost function FlatWord(m: Flat, a: Word): Word
    requires a < 0xFFFF
  {
    Join(m[a], m[a + 1])
  }

  /** What a debugger could test beforehand. RTS: the two bytes above the stack pointer do not straddle the
      end of the stack page, or the page's first bytes happen to match the bytes beyond it. RTI: the
      predictor looks one byte too low. BRK: it predicts the vector's own address. */
  ghost predicate Predictable(s: Sys<Flat>) {
    var m, sp := s.mem, s.cpu.regs.sp;
    match m[s.cpu.pc]
    case 0x60 => sp <= 0xFD || (m[0x200] == m[0x100] && (sp == 0xFF ==> m[0x201] == m[0x101]))
    case 0x40 => m[STACK_BASE + sp + 1] == m[StackAddr(Up(Up(sp)))] &&
                 m[STACK_BASE + sp + 2] == m[StackAddr(Up(Up(Up(sp))))]
    case 0x00 => FlatWord(m, Vector(s.cpu.lines)) == Vector(s.cpu.lines)
    case _ => true
  }

  lemma JoinInjective(a: Byte, b: Byte, c: Byte, e: Byte)
    ensures Join(a, b) == Join(c, e) <==> a == c && b == e
    ensures Next(Join(a, b)) == Next(Join(c, e)) <==> a == c && b == e
  {
  }

  lemma FlatReturn(s: Sys<Flat>)
    requires Unarmed(s) && s.mem[s.cpu.pc] == 0x60
    ensures NextAddr(FLAT, s) == Run(FLAT, s).cpu.pc <==> Predictable(s)
  {
    hide Poll;
    var m, sp := s.mem, s.cpu.regs.sp;
    JoinInjective(m[STACK_BASE + sp + 1], m[STACK_BASE + sp + 2], m[StackAddr(Up(sp))], m[StackAddr(Up(Up(sp)))]);
  }

  lemma FlatReturnFromInterrupt(s: Sys<Flat>)
    requires Unarmed(s) && s.mem[s.cpu.pc] == 0x40
    ensures NextAddr(FLAT, s) == Run(FLAT, s).cpu.pc <==> Predictable(s)
  {
    hide Poll, Unpack;
    var m, sp := s.mem, s.cpu.regs.sp;
    JoinInjective(m[STACK_BASE + sp + 1], m[STACK_BASE + sp + 2],
                  m[StackAddr(Up(Up(sp)))], m[StackAddr(Up(Up(Up(sp))))]);
  }

  lemma FlatBreak(s: Sys<Flat>)
    requires Unarmed(s) && s.mem[s.cpu.pc] == 0x00
    ensures NextAddr(FLAT, s) == Run(FLAT, s).cpu.pc <==> Predictable(s)
  {
    hide Pack;
  }

  /** The predictor on flat memory: for every register state, memory and opcode byte it is right if and only
      if `Predictable`. */
  lemma PredictorExact(s: Sys<Flat>)
    requires Unarmed(s)
    ensures NextAddr(FLAT, s) == Run(FLAT, s).cpu.pc <==> Predictable(s)
  {
    hide Run, NextAddr;
    var opcode := s.mem[s.cpu.pc];
    if opcode == 0x60 {
      FlatReturn(s);
    } else if opcode == 0x40 {
      FlatReturnFromInterrupt(s);
    } else if opcode == 0x00 {
      FlatBreak(s);
    } else {
      PredictorAgrees(FLAT, s);
    }
  }

  /** A state in which the prediction for RTS is wrong. */
  lemma ReturnMispredicted(m: Flat)
    requires m[0x8000] == 0x60 && m[0x100] != m[0x200]
    ensures var s := Sys(Cpu(0x8000, Regs(0, 0, 0, 0xFE, CLEAR_FLAGS), QUIET_LINES, 0, 0, 0), m);
            NextAddr(FLAT, s) != Run(FLAT, s).cpu.pc
  {
    PredictorExact(Sys(Cpu(0x8000, Regs(0, 0, 0, 0xFE, CLEAR_FLAGS), QUIET_LINES, 0, 0, 0), m));
  }

  // ----- Cycles -----

  lemma PerformCost<M>(d: Device<M>, s: Sys<M>, i: Instr)
    ensures s.cpu.cycles <= Perform(d, s, i).cpu.cycles <= s.cpu.cycles + 6
    ensures Perform(d, s, i).cpu.cycles == s.cpu.cycles <==> i == Unknown
  {
    hide ReadEffect, ModifyFlags, ModifyResult, Poll, Load, Locate, Unpack, Pack, WithFlag, Vector, Acknowledge;
  }

  /** Every step costs one to seven cycles, and only an undocumented opcode costs one. */
  lemma StepCost<M>(d: Device<M>, s: Sys<M>)
    ensures s.cpu.cycles + 1 <= Run(d, s).cpu.cycles <= s.cpu.cycles + 7
    ensures Run(d, s).cpu.cycles == s.cpu.cycles + 1 <==> Unarmed(s) && Decode(Fetched(d, s)) == Unknown
  {
    hide Perform, Decode;
    PerformCost(d, AfterFetch(d, s), Decode(Fetched(d, s)));
  }
}
