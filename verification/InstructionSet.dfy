/** What the instructions of emu/core/instructions.cpp do, stated on opcode bytes and flat memory: the address each
    column of the opcode matrix stands for, written out from operand bytes, X, Y and zero-page pointers, and the
    meaning of each operation on the byte found there. */
module InstructionSet {
  import opened Words
  import opened Bits
  import opened CpuModel
  import opened FlatMemory
  import Isa
  import C = CanonicalCode
  import BitReverse

  // ----- Operands -----

  /** No interrupt is due: the next step is the instruction at the PC. */
  ghost predicate Plain(s: Sys<Flat>) {
    !s.cpu.lines.execNmi && !s.cpu.lines.execIrq
  }

  ghost function Opcode(s: Sys<Flat>): Byte {
    s.mem[s.cpu.pc]
  }

  /** The byte `i` behind the opcode; the PC wraps at sixteen bits. */
  ghost function OperandByte(s: Sys<Flat>, i: nat): Byte {
    s.mem[(s.cpu.pc + i) % 0x10000]
  }

  ghost function WordOf(low: int, high: int): int {
    low + 256 * high
  }

  ghost function WordOperand(s: Sys<Flat>): Word {
    WordOf(OperandByte(s, 1), OperandByte(s, 2))
  }

  /** The little-endian word at `a`. */
  ghost function WordAt(m: Flat, a: nat): Word
    requires a < 0xFFFF
  {
    WordOf(m[a], m[a + 1])
  }

  /** The eight columns of the accumulator group: (zp,X), zp, #, abs, (zp),Y, zp,X, abs,Y, abs,X. The sums with a
      zero-page operand are not wrapped to the zero page. */
  ghost function Effective(s: Sys<Flat>, column: nat): Word
    requires column < 8
  {
    var x, y := s.cpu.regs.x, s.cpu.regs.y;
    match column
    case 0 => WordAt(s.mem, OperandByte(s, 1) + x)
    case 1 => OperandByte(s, 1)
    case 2 => (s.cpu.pc + 1) % 0x10000
    case 3 => WordOperand(s)
    case 4 => (WordAt(s.mem, OperandByte(s, 1)) + y) % 0x10000
    case 5 => OperandByte(s, 1) + x
    case 6 => (WordOperand(s) + y) % 0x10000
    case _ => (WordOperand(s) + x) % 0x10000
  }

  /** The columns of the other groups: #, zp, abs, and zp or abs with an index register. */
  ghost function Indexed(s: Sys<Flat>, column: nat, index: Byte): Word {
    match column
    case 0 => (s.cpu.pc + 1) % 0x10000
    case 1 => OperandByte(s, 1)
    case 3 => WordOperand(s)
    case 5 => OperandByte(s, 1) + index
    case _ => (WordOperand(s) + index) % 0x10000
  }

  // ----- Meanings -----

  ghost function Carry(f: Flags): nat {
    if f.carry then 1 else 0
  }

  /** Bit `k` of a byte. */
  ghost predicate BitSet(v: Byte, k: nat) {
    ShiftRight(v, k) % 2 == 1
  }

  /** Zero and negative flags of a result, the others as they were. */
  ghost function Judged(f: Flags, v: Byte): Flags {
    f.(zero := v == 0, neg := v >= 128)
  }

  /** The flags of a comparison: the register against the operand. */
  ghost function Compared(f: Flags, reg: Byte, v: Byte): Flags {
    f.(carry := reg >= v, zero := reg == v, neg := (reg - v) % 256 >= 128)
  }

  /** The accumulator group by row: ORA, AND, EOR, ADC, STA, LDA, CMP, SBC with the byte at `a`. */
  ghost predicate Accumulates(row: nat, s: Sys<Flat>, t: Sys<Flat>, a: Word) {
    var r, r', v := s.cpu.regs, t.cpu.regs, s.mem[a];
    var f := r.flags;
    match row
    case 0 =>
      && t.mem == s.mem && r' == r.(acc := r'.acc, flags := Judged(f, r'.acc))
      && (forall k: nat :: k < 8 ==> (BitSet(r'.acc, k) <==> BitSet(r.acc, k) || BitSet(v, k)))
    case 1 =>
      && t.mem == s.mem && r' == r.(acc := r'.acc, flags := Judged(f, r'.acc))
      && (forall k: nat :: k < 8 ==> (BitSet(r'.acc, k) <==> BitSet(r.acc, k) && BitSet(v, k)))
    case 2 =>
      && t.mem == s.mem && r' == r.(acc := r'.acc, flags := Judged(f, r'.acc))
      && (forall k: nat :: k < 8 ==> (BitSet(r'.acc, k) <==> BitSet(r.acc, k) != BitSet(v, k)))
    case 3 =>
      && t.mem == s.mem
      && r'.acc + 256 * Carry(r'.flags) == r.acc + v + Carry(f)
      && r' == r.(acc := r'.acc, flags := Judged(f, r'.acc).(carry := r'.flags.carry, ov := r'.flags.ov))
      && (r'.flags.ov <==> !(-128 <= Signed(r.acc) + Signed(v) + Carry(f) < 128))
    case 4 => t.mem == s.mem[a := r.acc] && r' == r
    case 5 => t.mem == s.mem && r' == r.(acc := v, flags := Judged(f, v))
    case 6 => t.mem == s.mem && r' == r.(flags := Compared(f, r.acc, v))
    case _ =>
      && t.mem == s.mem
      && r'.acc - 256 * (1 - Carry(r'.flags)) == r.acc - v - (1 - Carry(f))
      && r' == r.(acc := r'.acc, flags := Judged(f, r'.acc).(carry := r'.flags.carry, ov := r'.flags.ov))
  }

  /** The modifying group by row: ASL, ROL, LSR, ROR, then DEC and INC; `v` becomes `w`, flags `f` become `f'`. */
  ghost predicate Modifies(row: nat, v: Byte, w: Byte, f: Flags, f': Flags) {
    && f' == Judged(f, w).(carry := f'.carry)
    && match row
       case 0 => w + 256 * Carry(f') == 2 * v
       case 1 => w + 256 * Carry(f') == 2 * v + Carry(f)
       case 2 => 2 * w + Carry(f') == v
       case 3 => 2 * w + Carry(f') == v + 256 * Carry(f)
       case 6 => w == (v - 1) % 256 && f'.carry == f.carry
       case _ => w == (v + 1) % 256 && f'.carry == f.carry
  }

  // ----- The rows of the matrix -----

  function ColumnMode(column: nat): Isa.ReadMode {
    match column
    case 0 => Isa.IndirectX
    case 1 => Isa.ZeroPage
    case 2 => Isa.Immediate
    case 3 => Isa.Absolute
    case 4 => Isa.IndirectY
    case 5 => Isa.ZeroPageX
    case 6 => Isa.AbsoluteY
    case _ => Isa.AbsoluteX
  }

  function RowOp(row: nat): Isa.ReadOp {
    match row
    case 0 => Isa.Ora
    case 1 => Isa.And
    case 2 => Isa.Eor
    case 3 => Isa.Adc
    case 5 => Isa.Lda
    case 6 => Isa.Cmp
    case _ => Isa.Sbc
  }

  lemma AccumulatorRow0(op: Byte)
    requires op < 0x20 && op % 4 == 1
    ensures Isa.Decode00(op) == Isa.Read(Isa.Ora, ColumnMode(op / 4 % 8))
  {
  }

  lemma AccumulatorRow1(op: Byte)
    requires 0x20 <= op < 0x40 && op % 4 == 1
    ensures Isa.Decode20(op) == Isa.Read(Isa.And, ColumnMode(op / 4 % 8))
  {
  }

  lemma AccumulatorRow2(op: Byte)
    requires 0x40 <= op < 0x60 && op % 4 == 1
    ensures Isa.Decode40(op) == Isa.Read(Isa.Eor, ColumnMode(op / 4 % 8))
  {
  }

  lemma AccumulatorRow3(op: Byte)
    requires 0x60 <= op < 0x80 && op % 4 == 1
    ensures Isa.Decode60(op) == Isa.Read(Isa.Adc, ColumnMode(op / 4 % 8))
  {
  }

  lemma AccumulatorRow4(op: Byte)
    requires 0x80 <= op < 0xA0 && op % 4 == 1 && op != 0x89
    ensures op / 4 % 8 != 2 && Isa.Decode80(op) == Isa.Write(Isa.RegA, ColumnMode(op / 4 % 8))
  {
  }

  lemma AccumulatorRow5(op: Byte)
    requires 0xA0 <= op < 0xC0 && op % 4 == 1
    ensures Isa.DecodeA0(op) == Isa.Read(Isa.Lda, ColumnMode(op / 4 % 8))
  {
  }

  lemma AccumulatorRow6(op: Byte)
    requires 0xC0 <= op < 0xE0 && op % 4 == 1
    ensures Isa.DecodeC0(op) == Isa.Read(Isa.Cmp, ColumnMode(op / 4 % 8))
  {
  }

  lemma AccumulatorRow7(op: Byte)
    requires 0xE0 <= op < 0x100 && op % 4 == 1
    ensures Isa.DecodeE0(op) == Isa.Read(Isa.Sbc, ColumnMode(op / 4 % 8))
  {
  }

  lemma AccumulatorRows(op: Byte)
    requires op % 4 == 1 && op != 0x89
    ensures var row, column := op / 32, op / 4 % 8;
            && (row == 4 ==> column != 2)
            && Isa.Decode(op) == if row == 4 then Isa.Write(Isa.RegA, ColumnMode(column))
                                 else Isa.Read(RowOp(row), ColumnMode(column))
  {
    hide ColumnMode, Isa.Decode00, Isa.Decode20, Isa.Decode40, Isa.Decode60, Isa.Decode80, Isa.DecodeA0, Isa.DecodeC0,
         Isa.DecodeE0;
    if op < 0x20 {
      AccumulatorRow0(op);
    } else if op < 0x40 {
      AccumulatorRow1(op);
    } else if op < 0x60 {
      AccumulatorRow2(op);
    } else if op < 0x80 {
      AccumulatorRow3(op);
    } else if op < 0xA0 {
      AccumulatorRow4(op);
    } else if op < 0xC0 {
      AccumulatorRow5(op);
    } else if op < 0xE0 {
      AccumulatorRow6(op);
    } else {
      AccumulatorRow7(op);
    }
  }

  // ----- Unfolding a step -----

  /** A step replaced registers and memory and moved the PC past the instruction. */
  ghost predicate Steps(s: Sys<Flat>, t: Sys<Flat>, r: Regs, m: Flat, bytes: nat) {
    t.cpu.regs == r && t.mem == m && t.cpu.pc == (s.cpu.pc + bytes) % 0x10000
  }

  lemma RunIs(s: Sys<Flat>, i: Isa.Instr)
    requires Plain(s) && Isa.Decode(Opcode(s)) == i
    ensures Run(FLAT, s) == Perform(FLAT, AfterFetch(FLAT, s), i)
  {
    hide Perform, Isa.Decode, AfterFetch, Serve;
  }

  ghost function ModeAddr(s: Sys<Flat>, mode: Isa.ReadMode): Word {
    match mode
    case Immediate => (s.cpu.pc + 1) % 0x10000
    case ZeroPage => OperandByte(s, 1)
    case ZeroPageX => OperandByte(s, 1) + s.cpu.regs.x
    case ZeroPageY => OperandByte(s, 1) + s.cpu.regs.y
    case Absolute => WordOperand(s)
    case AbsoluteX => (WordOperand(s) + s.cpu.regs.x) % 0x10000
    case AbsoluteY => (WordOperand(s) + s.cpu.regs.y) % 0x10000
    case IndirectX => WordAt(s.mem, OperandByte(s, 1) + s.cpu.regs.x)
    case IndirectY => (WordAt(s.mem, OperandByte(s, 1)) + s.cpu.regs.y) % 0x10000
  }

  lemma NextIs(pc: Word)
    ensures Next(pc) == (pc + 1) % 0x10000 && Next(Next(pc)) == (pc + 2) % 0x10000
  {
  }

  lemma ToWordIs(n: int)
    requires 0 <= n < 0x20000
    ensures ToWord(n) == n % 0x10000
  {
  }

  lemma LocateFlat(c: Cpu, m: Flat, mode: Isa.ReadMode)
    ensures Locate(FLAT, c, m, mode).mem == m
    ensures Locate(FLAT, c, m, mode).addr == FlatAddr(c, m, mode)
  {
    hide Next, ToWord, Join, Offset;
  }

  ghost function FlatAddr(c: Cpu, m: Flat, mode: Isa.ReadMode): Word {
    var low, high := m[c.pc], m[Next(c.pc)];
    match mode
    case Immediate => c.pc
    case ZeroPage => low
    case ZeroPageX => Offset(low, c.regs.x)
    case ZeroPageY => Offset(low, c.regs.y)
    case Absolute => Join(low, high)
    case AbsoluteX => ToWord(Join(low, high) + c.regs.x)
    case AbsoluteY => ToWord(Join(low, high) + c.regs.y)
    case IndirectX => FlatWord(m, Offset(low, c.regs.x))
    case IndirectY => ToWord(FlatWord(m, low) + c.regs.y)
  }

  ghost function FlatWord(m: Flat, a: Word): Word {
    Join(m[a], m[Next(a)])
  }

  lemma FlatWordIs(m: Flat, a: Word)
    requires a < 0xFFFF
    ensures FlatWord(m, a) == WordAt(m, a)
  {
  }

  /** Direct, indexed and indirect addresses are written out from the operand bytes. */
  lemma LocateIs(s: Sys<Flat>, mode: Isa.ReadMode)
    ensures Locate(FLAT, AfterFetch(FLAT, s).cpu, s.mem, mode).addr == ModeAddr(s, mode)
    ensures Locate(FLAT, AfterFetch(FLAT, s).cpu, s.mem, mode).mem == s.mem
  {
    hide Next, ToWord, WordAt, FlatWord, Locate;
    var low, x, y := OperandByte(s, 1), s.cpu.regs.x, s.cpu.regs.y;
    LocateFlat(AfterFetch(FLAT, s).cpu, s.mem, mode);
    NextIs(s.cpu.pc);
    match mode
    case IndirectX =>
      FlatWordIs(s.mem, Offset(low, x));
    case IndirectY =>
      FlatWordIs(s.mem, low);
      ToWordIs(WordAt(s.mem, low) + y);
    case AbsoluteX =>
      ToWordIs(WordOperand(s) + x);
    case AbsoluteY =>
      ToWordIs(WordOperand(s) + y);
    case _ =>
  }

  lemma AfterOperandIs(pc: Word, mode: Isa.Mode)
    ensures AfterOperand(Next(pc), mode) == (pc + 1 + OperandBytes(mode)) % 0x10000
  {
  }

  lemma ReadRun(s: Sys<Flat>, op: Isa.ReadOp, mode: Isa.ReadMode)
    requires Plain(s) && Isa.Decode(Opcode(s)) == Isa.Read(op, mode)
    ensures Steps(s, Run(FLAT, s), ReadEffect(op, s.cpu.regs, s.mem[ModeAddr(s, mode)]), s.mem, 1 + OperandBytes(mode))
  {
    hide ReadEffect, ReadCycles, Poll, OperandBytes, AfterOperand, Isa.Decode, Locate, ModeAddr, Run;
    RunIs(s, Isa.Read(op, mode));
    LocateIs(s, mode);
    AfterOperandIs(s.cpu.pc, mode);
  }

  lemma WriteRun(s: Sys<Flat>, reg: Isa.Register, mode: Isa.WriteMode)
    requires Plain(s) && Isa.Decode(Opcode(s)) == Isa.Write(reg, mode)
    ensures Steps(s, Run(FLAT, s), s.cpu.regs, s.mem[ModeAddr(s, mode) := RegisterValue(s.cpu.regs, reg)],
                  1 + OperandBytes(mode))
  {
    hide WriteCycles, Poll, OperandBytes, AfterOperand, Isa.Decode, Locate, ModeAddr, Run;
    RunIs(s, Isa.Write(reg, mode));
    LocateIs(s, mode);
    AfterOperandIs(s.cpu.pc, mode);
  }

  lemma ModifyRun(s: Sys<Flat>, op: Isa.ModifyOp, mode: Isa.ModifyMode)
    requires Plain(s) && Isa.Decode(Opcode(s)) == Isa.Modify(op, mode) && mode != Isa.Accumulator
    ensures var a, r := ModeAddr(s, mode), s.cpu.regs;
            Steps(s, Run(FLAT, s), r.(flags := ModifyFlags(op, r.flags, s.mem[a])),
                  s.mem[a := ModifyResult(op, r.flags.carry, s.mem[a])], 1 + OperandBytes(mode))
  {
    hide ModifyFlags, ModifyResult, ModifyCycles, Poll, OperandBytes, AfterOperand, Isa.Decode, Locate, ModeAddr, Run;
    RunIs(s, Isa.Modify(op, mode));
    LocateIs(s, mode);
    AfterOperandIs(s.cpu.pc, mode);
  }

  lemma AccumulatorRun(s: Sys<Flat>, op: Isa.ModifyOp)
    requires Plain(s) && Isa.Decode(Opcode(s)) == Isa.Modify(op, Isa.Accumulator)
    ensures var r := s.cpu.regs;
            Steps(s, Run(FLAT, s), r.(acc := ModifyResult(op, r.flags.carry, r.acc),
                                      flags := ModifyFlags(op, r.flags, r.acc)), s.mem, 1)
  {
    hide ModifyFlags, ModifyResult, ModifyCycles, Poll, Isa.Decode, Run;
    RunIs(s, Isa.Modify(op, Isa.Accumulator));
  }

  // ----- Meanings of the operations -----

  lemma {:induction false} BitOfXor(a: nat, b: nat, k: nat)
    ensures C.BitAt(Xor(a, b), k) == if C.BitAt(a, k) != C.BitAt(b, k) then 1 else 0
  {
    hide Xor;
    XorStep(a, b);
    if k > 0 {
      C.BitOfHalf(Xor(a, b), k);
      C.BitOfHalf(a, k);
      C.BitOfHalf(b, k);
      BitOfXor(a / 2, b / 2, k - 1);
    }
  }

  lemma BitwiseMeans(a: Byte, b: Byte, k: nat)
    ensures BitSet(BitOr(a, b), k) <==> BitSet(a, k) || BitSet(b, k)
    ensures BitSet(BitAnd(a, b), k) <==> BitSet(a, k) && BitSet(b, k)
    ensures BitSet(BitXor(a, b), k) <==> BitSet(a, k) != BitSet(b, k)
  {
    hide Or, Xor, Bits.And, ShiftRight;
    BitReverse.BitOfOr(a, b, k);
    BitReverse.BitOfAnd(a, b, k);
    BitOfXor(a, b, k);
  }

  lemma AddMeans(r: Regs, addend: Byte, v: Byte)
    ensures var r' := AddWithCarry(r, addend, v);
            && r'.acc + 256 * Carry(r'.flags) == r.acc + addend + Carry(r.flags)
            && r' == r.(acc := r'.acc, flags := Judged(r.flags, r'.acc).(carry := r'.flags.carry, ov := r'.flags.ov))
            && (addend == v ==> (r'.flags.ov <==> !(-128 <= Signed(r.acc) + Signed(v) + Carry(r.flags) < 128)))
  {
  }

  lemma OraMeans(s: Sys<Flat>, t: Sys<Flat>, a: Word)
    requires t.mem == s.mem && t.cpu.regs == ReadEffect(Isa.Ora, s.cpu.regs, s.mem[a])
    ensures Accumulates(0, s, t, a)
  {
    hide BitOr, BitSet;
    var r, v := s.cpu.regs, s.mem[a];
    forall k: nat | k < 8
      ensures BitSet(t.cpu.regs.acc, k) <==> BitSet(r.acc, k) || BitSet(v, k)
    {
      BitwiseMeans(r.acc, v, k);
    }
  }

  lemma AndMeans(s: Sys<Flat>, t: Sys<Flat>, a: Word)
    requires t.mem == s.mem && t.cpu.regs == ReadEffect(Isa.And, s.cpu.regs, s.mem[a])
    ensures Accumulates(1, s, t, a)
  {
    hide BitAnd, BitSet;
    var r, v := s.cpu.regs, s.mem[a];
    forall k: nat | k < 8
      ensures BitSet(t.cpu.regs.acc, k) <==> BitSet(r.acc, k) && BitSet(v, k)
    {
      BitwiseMeans(r.acc, v, k);
    }
  }

  lemma EorMeans(s: Sys<Flat>, t: Sys<Flat>, a: Word)
    requires t.mem == s.mem && t.cpu.regs == ReadEffect(Isa.Eor, s.cpu.regs, s.mem[a])
    ensures Accumulates(2, s, t, a)
  {
    hide BitXor, BitSet;
    var r, v := s.cpu.regs, s.mem[a];
    forall k: nat | k < 8
      ensures BitSet(t.cpu.regs.acc, k) <==> BitSet(r.acc, k) != BitSet(v, k)
    {
      BitwiseMeans(r.acc, v, k);
    }
  }

  lemma CmpMeans(f: Flags, reg: Byte, v: Byte)
    ensures Compare(f, reg, v) == Compared(f, reg, v)
  {
  }

  lemma ReadMeans(row: nat, s: Sys<Flat>, t: Sys<Flat>, a: Word)
    requires row < 8 && row != 4 && t.mem == s.mem
    requires t.cpu.regs == ReadEffect(RowOp(row), s.cpu.regs, s.mem[a])
    ensures Accumulates(row, s, t, a)
  {
    if row < 3 {
      hide ReadEffect, Accumulates;
      match row
      case 0 => OraMeans(s, t, a);
      case 1 => AndMeans(s, t, a);
      case _ => EorMeans(s, t, a);
    } else {
      hide BitOr, BitAnd, BitXor, BitSet, AddWithCarry, Compare, Compared;
      var r, v := s.cpu.regs, s.mem[a];
      AddMeans(r, v, v);
      AddMeans(r, 0xFF - v, v);
      CmpMeans(r.flags, r.acc, v);
    }
  }

  // ----- Theorems -----

  /** ORA, AND, EOR, ADC, STA, LDA, CMP and SBC in every addressing mode. */
  lemma GroupOne(s: Sys<Flat>)
    requires Plain(s) && Opcode(s) % 4 == 1 && Opcode(s) != 0x89
    ensures Accumulates(Opcode(s) / 32, s, Run(FLAT, s), Effective(s, Opcode(s) / 4 % 8))
    ensures Run(FLAT, s).cpu.pc == (s.cpu.pc + Length(Opcode(s) / 4 % 8)) % 0x10000
  {
    hide Run, Isa.Decode, Accumulates, ReadEffect, RowOp;
    var row, column := Opcode(s) / 32, Opcode(s) / 4 % 8;
    AccumulatorRows(Opcode(s));
    if row == 4 {
      WriteRun(s, Isa.RegA, ColumnMode(column));
      StoreMeans(s, Run(FLAT, s), Effective(s, column));
    } else {
      ReadRun(s, RowOp(row), ColumnMode(column));
      ReadMeans(row, s, Run(FLAT, s), Effective(s, column));
    }
  }

  lemma StoreMeans(s: Sys<Flat>, t: Sys<Flat>, a: Word)
    requires t.mem == s.mem[a := s.cpu.regs.acc] && t.cpu.regs == s.cpu.regs
    ensures Accumulates(4, s, t, a)
  {
  }

  /** Bytes of an instruction by its column: three with an absolute operand, otherwise two. */
  ghost function Length(column: nat): nat {
    if column == 3 || column >= 6 then 3 else 2
  }

  // ----- The zero page does not wrap -----

  /** The processor drops the carry of zp,X; the code does the same if and only if there is none. */
  lemma ZeroPageExact(s: Sys<Flat>)
    ensures Effective(s, 5) == (OperandByte(s, 1) + s.cpu.regs.x) % 256 <==> OperandByte(s, 1) + s.cpu.regs.x < 256
  {
  }

  /** $FF,X with X = 1 goes to 0x100. */
  lemma ZeroPageWrong(s: Sys<Flat>)
    requires OperandByte(s, 1) == 0xFF && s.cpu.regs.x == 1
    ensures Effective(s, 5) == 0x100
  {
  }

  /** The pointer of (zp,X) and (zp),Y at `z`: the processor takes both bytes from the zero page; on every memory the
      code does the same if and only if both lie there. */
  lemma PointerExact(z: nat)
    requires z < 0x200
    ensures (forall m: Flat :: WordAt(m, z) == WordOf(m[z % 256], m[(z + 1) % 256])) <==> z < 255
  {
    if z >= 255 {
      var zeros: seq<Byte> := seq(0x10000, _ => 0);
      var m: Flat := zeros[z + 1 := 1];
      assert WordAt(m, z) == 256 && WordOf(m[z % 256], m[(z + 1) % 256]) == 0;
    }
  }
}
