/** The instructions outside the accumulator group, on opcode bytes and flat memory: shifts and counts in memory, the
    index registers, transfers and flags, the stack, and the instructions that set the PC. */
module InstructionGroups {
  import opened Words
  import opened Bits
  import opened CpuModel
  import opened FlatMemory
  import opened InstructionSet
  import opened Stack
  import Isa

  // ----- Shifts, rotations and counts -----

  function RowModify(row: nat): Isa.ModifyOp {
    match row
    case 0 => Isa.Asl
    case 1 => Isa.Rol
    case 2 => Isa.Lsr
    case 3 => Isa.Ror
    case 6 => Isa.Dec
    case _ => Isa.Inc
  }

  function ModifyColumn(column: nat): Isa.ModifyMode {
    match column
    case 1 => Isa.ZeroPage
    case 3 => Isa.Absolute
    case 5 => Isa.ZeroPageX
    case _ => Isa.AbsoluteX
  }

  lemma ShiftOpcodes(column: nat)
    requires column in {1, 3, 5, 7}
    ensures Isa.Decode(0x02 + 4 * column) == Isa.Modify(Isa.Asl, ModifyColumn(column))
    ensures Isa.Decode(0x22 + 4 * column) == Isa.Modify(Isa.Rol, ModifyColumn(column))
    ensures Isa.Decode(0x42 + 4 * column) == Isa.Modify(Isa.Lsr, ModifyColumn(column))
    ensures Isa.Decode(0x62 + 4 * column) == Isa.Modify(Isa.Ror, ModifyColumn(column))
  {
    if column == 1 {
    } else if column == 3 {
    } else if column == 5 {
    } else {
      assert column == 7;
    }
  }

  lemma CountOpcodes(column: nat)
    requires column in {1, 3, 5, 7}
    ensures Isa.Decode(0xC2 + 4 * column) == Isa.Modify(Isa.Dec, ModifyColumn(column))
    ensures Isa.Decode(0xE2 + 4 * column) == Isa.Modify(Isa.Inc, ModifyColumn(column))
  {
    if column == 1 {
    } else if column == 3 {
    } else if column == 5 {
    } else {
      assert column == 7;
    }
  }

  ghost predicate ModifiesMemory(op: Byte) {
    op % 4 == 2 && op / 4 % 2 == 1 && op / 32 != 4 && op / 32 != 5
  }

  lemma ModifyOpcode(op: Byte)
    requires ModifiesMemory(op)
    ensures op / 4 % 8 in {1, 3, 5, 7}
    ensures Isa.Decode(op) == Isa.Modify(RowModify(op / 32), ModifyColumn(op / 4 % 8))
  {
    hide Isa.Decode, ModifyColumn;
    var row, column := op / 32, op / 4 % 8;
    assert op == 32 * row + 4 * column + 2;
    ShiftOpcodes(column);
    CountOpcodes(column);
  }

  lemma ModifyMeans(row: nat, f: Flags, v: Byte)
    requires row in {0, 1, 2, 3, 6, 7}
    ensures Modifies(row, v, ModifyResult(RowModify(row), f.carry, v), f, ModifyFlags(RowModify(row), f, v))
  {
  }

  lemma ModifyAddr(s: Sys<Flat>, column: nat)
    requires column in {1, 3, 5, 7}
    ensures ModeAddr(s, ModifyColumn(column)) == Indexed(s, column, s.cpu.regs.x)
    ensures 1 + OperandBytes(ModifyColumn(column)) == Length(column) && ModifyColumn(column) != Isa.Accumulator
  {
  }

  /** ASL, ROL, LSR, ROR, DEC and INC on memory: the cell at the address, the flags, and nothing else. */
  lemma ModifyGroup(s: Sys<Flat>)
    requires Plain(s) && ModifiesMemory(Opcode(s))
    ensures var row, column, r, t := Opcode(s) / 32, Opcode(s) / 4 % 8, s.cpu.regs, Run(FLAT, s);
            var a := Indexed(s, column, r.x);
            && Steps(s, t, r.(flags := t.cpu.regs.flags), s.mem[a := t.mem[a]], Length(column))
            && Modifies(row, s.mem[a], t.mem[a], r.flags, t.cpu.regs.flags)
  {
    hide Run, Isa.Decode, Indexed, ModeAddr, Modifies, ModifyResult, ModifyFlags, OperandBytes, RowModify, ModifyColumn,
         Length;
    var row, column, f := Opcode(s) / 32, Opcode(s) / 4 % 8, s.cpu.regs.flags;
    ModifyOpcode(Opcode(s));
    ModifyAddr(s, column);
    ModifyRun(s, RowModify(row), ModifyColumn(column));
    ModifyMeans(row, f, s.mem[Indexed(s, column, s.cpu.regs.x)]);
  }

  /** ASL, ROL, LSR and ROR on the accumulator. */
  lemma ModifyAccumulator(s: Sys<Flat>)
    requires Plain(s) && Opcode(s) in {0x0A, 0x2A, 0x4A, 0x6A}
    ensures var r, t := s.cpu.regs, Run(FLAT, s);
            var r' := t.cpu.regs;
            && Steps(s, t, r.(acc := r'.acc, flags := r'.flags), s.mem, 1)
            && Modifies(Opcode(s) / 32, r.acc, r'.acc, r.flags, r'.flags)
  {
    hide Run, Modifies, ModifyResult, ModifyFlags, RowModify;
    var row := Opcode(s) / 32;
    AccumulatorOpcodes();
    AccumulatorRun(s, RowModify(row));
    ModifyMeans(row, s.cpu.regs.flags, s.cpu.regs.acc);
  }

  lemma AccumulatorOpcodes()
    ensures Isa.Decode(0x0A) == Isa.Modify(RowModify(0), Isa.Accumulator)
    ensures Isa.Decode(0x2A) == Isa.Modify(RowModify(1), Isa.Accumulator)
    ensures Isa.Decode(0x4A) == Isa.Modify(RowModify(2), Isa.Accumulator)
    ensures Isa.Decode(0x6A) == Isa.Modify(RowModify(3), Isa.Accumulator)
  {
  }

  /** INC and DEC at one address undo each other, in either order. */
  lemma CountsUndo(s: Sys<Flat>)
    requires Plain(s) && ModifiesMemory(Opcode(s)) && Opcode(s) >= 0xC0
    ensures var t := Run(FLAT, s);
            Plain(t) && ModifiesMemory(Opcode(t)) && Opcode(t) >= 0xC0 && Opcode(t) / 32 != Opcode(s) / 32 &&
            Indexed(t, Opcode(t) / 4 % 8, t.cpu.regs.x) == Indexed(s, Opcode(s) / 4 % 8, s.cpu.regs.x)
            ==> Run(FLAT, t).mem == s.mem
  {
    hide Run, Indexed, Length, Plain, Modifies, Opcode, ModifiesMemory;
    var t := Run(FLAT, s);
    var a := Indexed(s, Opcode(s) / 4 % 8, s.cpu.regs.x);
    ModifyGroup(s);
    if Plain(t) && ModifiesMemory(Opcode(t)) && Opcode(t) >= 0xC0 && Opcode(t) / 32 != Opcode(s) / 32 &&
       Indexed(t, Opcode(t) / 4 % 8, t.cpu.regs.x) == a
    {
      ModifyGroup(t);
      var u := Run(FLAT, t);
      CountRows(Opcode(s), Opcode(t));
      CountBack(Opcode(s) / 32, Opcode(t) / 32, s.mem[a], t.mem[a], u.mem[a], s.cpu.regs.flags, t.cpu.regs.flags,
                u.cpu.regs.flags);
      assert u.mem == s.mem[a := t.mem[a]][a := u.mem[a]];
    }
  }

  lemma CountRows(op: Byte, op': Byte)
    requires op >= 0xC0 && op' >= 0xC0 && op / 32 != op' / 32
    ensures {op / 32, op' / 32} == {6, 7}
  {
  }

  lemma CountBack(row: nat, row': nat, a: Byte, b: Byte, c: Byte, f: Flags, f': Flags, f'': Flags)
    requires {row, row'} == {6, 7} && Modifies(row, a, b, f, f') && Modifies(row', b, c, f', f'')
    ensures c == a
  {
    assert row == 6 || row == 7;
    assert row' == 13 - row by {
      assert row' in {row, row'} && 6 in {row, row'} && 7 in {row, row'};
    }
  }

  // ----- Index registers -----

  /** LDX and STX index with Y, LDY and STY with X. */
  ghost function IndexAddr(s: Sys<Flat>): Word {
    Indexed(s, Opcode(s) / 4 % 8, if Opcode(s) % 4 == 2 then s.cpu.regs.y else s.cpu.regs.x)
  }

  ghost predicate LoadsX(op: Byte) {
    op in {0xA2, 0xA6, 0xAE, 0xB6, 0xBE}
  }

  ghost predicate LoadsY(op: Byte) {
    op in {0xA0, 0xA4, 0xAC, 0xB4, 0xBC}
  }

  function IndexMode(op: Byte): Isa.ReadMode {
    match op / 4 % 8
    case 0 => Isa.Immediate
    case 1 => Isa.ZeroPage
    case 3 => Isa.Absolute
    case 5 => if op % 4 == 2 then Isa.ZeroPageY else Isa.ZeroPageX
    case _ => if op % 4 == 2 then Isa.AbsoluteY else Isa.AbsoluteX
  }

  lemma IndexAddrIs(s: Sys<Flat>)
    requires Opcode(s) / 4 % 8 in {0, 1, 3, 5, 7}
    ensures ModeAddr(s, IndexMode(Opcode(s))) == IndexAddr(s)
    ensures 1 + OperandBytes(IndexMode(Opcode(s))) == Length(Opcode(s) / 4 % 8)
  {
  }

  lemma LoadOpcodes(op: Byte)
    ensures LoadsX(op) ==> Isa.Decode(op) == Isa.Read(Isa.Ldx, IndexMode(op))
    ensures LoadsY(op) ==> Isa.Decode(op) == Isa.Read(Isa.Ldy, IndexMode(op))
  {
  }

  /** LDX loads X and LDY loads Y from the byte at the address; no other register changes. */
  lemma IndexLoads(s: Sys<Flat>)
    requires Plain(s) && (LoadsX(Opcode(s)) || LoadsY(Opcode(s)))
    ensures var r, v := s.cpu.regs, s.mem[IndexAddr(s)];
            var r' := if LoadsX(Opcode(s)) then r.(x := v) else r.(y := v);
            Steps(s, Run(FLAT, s), r'.(flags := Judged(r.flags, v)), s.mem, Length(Opcode(s) / 4 % 8))
  {
    hide Run, Isa.Decode, IndexMode, IndexAddr, ModeAddr, OperandBytes, Length;
    LoadOpcodes(Opcode(s));
    IndexAddrIs(s);
    ReadRun(s, if LoadsX(Opcode(s)) then Isa.Ldx else Isa.Ldy, IndexMode(Opcode(s)));
  }

  ghost predicate StoresIndex(op: Byte) {
    op in {0x84, 0x8C, 0x94, 0x86, 0x8E, 0x96}
  }

  lemma StoreOpcodes(op: Byte)
    requires StoresIndex(op)
    ensures IndexMode(op) != Isa.Immediate
    ensures Isa.Decode(op) == Isa.Write(if op % 4 == 2 then Isa.RegX else Isa.RegY, IndexMode(op))
  {
  }

  /** STX stores X and STY stores Y at the address; nothing else changes. */
  lemma IndexStores(s: Sys<Flat>)
    requires Plain(s) && StoresIndex(Opcode(s))
    ensures var v := if Opcode(s) % 4 == 2 then s.cpu.regs.x else s.cpu.regs.y;
            Steps(s, Run(FLAT, s), s.cpu.regs, s.mem[IndexAddr(s) := v], Length(Opcode(s) / 4 % 8))
  {
    hide Run, Isa.Decode, IndexMode, IndexAddr, ModeAddr, OperandBytes, Length;
    StoreOpcodes(Opcode(s));
    IndexAddrIs(s);
    WriteRun(s, if Opcode(s) % 4 == 2 then Isa.RegX else Isa.RegY, IndexMode(Opcode(s)));
  }

  ghost predicate ComparesIndex(op: Byte) {
    op in {0xC0, 0xC4, 0xCC, 0xE0, 0xE4, 0xEC}
  }

  lemma CompareOpcodes(op: Byte)
    requires ComparesIndex(op)
    ensures Isa.Decode(op) == Isa.Read(if op < 0xE0 then Isa.Cpy else Isa.Cpx, IndexMode(op))
  {
  }

  /** CPY and CPX: carry iff the register is not below the operand, zero iff they are equal. */
  lemma IndexCompares(s: Sys<Flat>)
    requires Plain(s) && ComparesIndex(Opcode(s))
    ensures var r, v := s.cpu.regs, s.mem[IndexAddr(s)];
            Steps(s, Run(FLAT, s), r.(flags := Compared(r.flags, if Opcode(s) < 0xE0 then r.y else r.x, v)), s.mem,
                  Length(Opcode(s) / 4 % 8))
  {
    hide Run, Isa.Decode, IndexMode, IndexAddr, ModeAddr, OperandBytes, Length, Compare, Compared;
    CompareOpcodes(Opcode(s));
    IndexAddrIs(s);
    ReadRun(s, if Opcode(s) < 0xE0 then Isa.Cpy else Isa.Cpx, IndexMode(Opcode(s)));
    CmpMeans(s.cpu.regs.flags, s.cpu.regs.x, s.mem[IndexAddr(s)]);
    CmpMeans(s.cpu.regs.flags, s.cpu.regs.y, s.mem[IndexAddr(s)]);
  }

  lemma BitOpcodes(op: Byte)
    requires op in {0x24, 0x2C}
    ensures Isa.Decode(op) == Isa.Read(Isa.Bit, IndexMode(op))
  {
  }

  ghost predicate Share(a: Byte, b: Byte) {
    exists k: nat :: k < 8 && BitSet(a, k) && BitSet(b, k)
  }

  /** BIT as the code has it: N reports that accumulator and operand share no bit, Z a zero operand, V bit 6. */
  lemma BitTests(s: Sys<Flat>)
    requires Plain(s) && Opcode(s) in {0x24, 0x2C}
    ensures var r, v := s.cpu.regs, s.mem[IndexAddr(s)];
            Steps(s, Run(FLAT, s), r.(flags := r.flags.(neg := !Share(r.acc, v), zero := v == 0, ov := BitSet(v, 6))),
                  s.mem, Length(Opcode(s) / 4 % 8))
  {
    hide Run, Isa.Decode, IndexMode, IndexAddr, ModeAddr, OperandBytes, Length, BitAnd, BitSet, Share;
    BitOpcodes(Opcode(s));
    IndexAddrIs(s);
    ReadRun(s, Isa.Bit, IndexMode(Opcode(s)));
    ShareIsAnd(s.cpu.regs.acc, s.mem[IndexAddr(s)]);
    BitSix(s.mem[IndexAddr(s)]);
  }

  lemma ShiftOnce(n: nat, k: nat)
    ensures ShiftRight(n, k + 1) == ShiftRight(n / 2, k)
  {
  }

  lemma ShiftNone(n: nat)
    ensures ShiftRight(n, 0) == n
  {
  }

  lemma BitSix(v: Byte)
    ensures BitSet(v, 6) <==> v / 64 % 2 == 1
  {
    hide ShiftRight;
    Shifts(v);
    ShiftOnce(v, 5);
    ShiftOnce(v / 2, 4);
    ShiftOnce(v / 4, 3);
    ShiftOnce(v / 8, 2);
    ShiftOnce(v / 16, 1);
    ShiftOnce(v / 32, 0);
    ShiftNone(v / 64);
  }

  lemma {:induction false} ClearIsZero(n: nat, w: nat)
    requires n < Pow2(w) && forall k: nat :: k < w ==> ShiftRight(n, k) % 2 == 0
    ensures n == 0
  {
    if w > 0 {
      assert ShiftRight(n, 0) % 2 == 0;
      forall k: nat | k < w - 1
        ensures ShiftRight(n / 2, k) % 2 == 0
      {
        assert ShiftRight(n, k + 1) % 2 == 0;
      }
      ClearIsZero(n / 2, w - 1);
    }
  }

  lemma {:induction false} ZeroIsClear(k: nat)
    ensures ShiftRight(0, k) == 0
  {
    if k > 0 {
      ZeroIsClear(k - 1);
    }
  }

  lemma ShareIsAnd(a: Byte, b: Byte)
    ensures Share(a, b) <==> BitAnd(a, b) != 0
  {
    hide BitAnd, ShiftRight;
    if Share(a, b) {
      var k: nat :| k < 8 && BitSet(a, k) && BitSet(b, k);
      BitwiseMeans(a, b, k);
      ZeroIsClear(k);
    } else {
      forall k: nat | k < 8
        ensures ShiftRight(BitAnd(a, b), k) % 2 == 0
      {
        BitwiseMeans(a, b, k);
      }
      WordPowers();
      ClearIsZero(BitAnd(a, b), 8);
    }
  }

  // ----- Transfers, counts and flags -----

  ghost predicate OneByte(op: Byte) {
    op in {0x8A, 0x98, 0x9A, 0xA8, 0xAA, 0xBA, 0xE8, 0xC8, 0xCA, 0x88, 0x18, 0x38, 0x58, 0x78, 0xB8, 0xD8, 0xF8, 0xEA}
  }

  /** The registers after an instruction of one byte that touches neither memory nor stack: TXA, TYA, TXS, TAY, TAX,
      TSX, INX, INY, DEX, DEY, CLC, SEC, CLI, SEI, CLV, CLD, SED, NOP. TXS judges its value here. */
  ghost function AfterOneByte(op: Byte, r: Regs): Regs {
    var f := r.flags;
    match op
    case 0x8A => r.(acc := r.x, flags := Judged(f, r.x))
    case 0x98 => r.(acc := r.y, flags := Judged(f, r.y))
    case 0x9A => r.(sp := r.x, flags := Judged(f, r.x))
    case 0xA8 => r.(y := r.acc, flags := Judged(f, r.acc))
    case 0xAA => r.(x := r.acc, flags := Judged(f, r.acc))
    case 0xBA => r.(x := r.sp, flags := Judged(f, r.sp))
    case 0xE8 => r.(x := (r.x + 1) % 256, flags := Judged(f, (r.x + 1) % 256))
    case 0xC8 => r.(y := (r.y + 1) % 256, flags := Judged(f, (r.y + 1) % 256))
    case 0xCA => r.(x := (r.x - 1) % 256, flags := Judged(f, (r.x - 1) % 256))
    case 0x88 => r.(y := (r.y - 1) % 256, flags := Judged(f, (r.y - 1) % 256))
    case 0x18 => r.(flags := f.(carry := false))
    case 0x38 => r.(flags := f.(carry := true))
    case 0x58 => r.(flags := f.(intdis := false))
    case 0x78 => r.(flags := f.(intdis := true))
    case 0xB8 => r.(flags := f.(ov := false))
    case 0xD8 => r.(flags := f.(decimal := false))
    case 0xF8 => r.(flags := f.(decimal := true))
    case _ => r
  }

  lemma MovesOpcodes()
    ensures Isa.Decode(0x8A) == Isa.Transfer(Isa.RegX, Isa.RegA) && Isa.Decode(0x98) == Isa.Transfer(Isa.RegY, Isa.RegA)
    ensures Isa.Decode(0x9A) == Isa.Transfer(Isa.RegX, Isa.RegSp)
    ensures Isa.Decode(0xA8) == Isa.Transfer(Isa.RegA, Isa.RegY) && Isa.Decode(0xAA) == Isa.Transfer(Isa.RegA, Isa.RegX)
    ensures Isa.Decode(0xBA) == Isa.Transfer(Isa.RegSp, Isa.RegX)
    ensures Isa.Decode(0xE8) == Isa.Inx && Isa.Decode(0xC8) == Isa.Iny
    ensures Isa.Decode(0xCA) == Isa.Dex && Isa.Decode(0x88) == Isa.Dey
  {
  }

  lemma FlagsOpcodes()
    ensures Isa.Decode(0x18) == Isa.SetFlag(Isa.CarryFlag, false)
    ensures Isa.Decode(0x38) == Isa.SetFlag(Isa.CarryFlag, true)
    ensures Isa.Decode(0x58) == Isa.SetFlag(Isa.IntDisableFlag, false)
    ensures Isa.Decode(0x78) == Isa.SetFlag(Isa.IntDisableFlag, true)
    ensures Isa.Decode(0xB8) == Isa.SetFlag(Isa.OverflowFlag, false)
    ensures Isa.Decode(0xD8) == Isa.SetFlag(Isa.DecimalFlag, false)
    ensures Isa.Decode(0xF8) == Isa.SetFlag(Isa.DecimalFlag, true)
    ensures Isa.Decode(0xEA) == Isa.Nop
  {
  }

  lemma TransferRun(s: Sys<Flat>, from: Isa.Register, to: Isa.Register)
    requires Plain(s) && Isa.Decode(Opcode(s)) == Isa.Transfer(from, to)
    ensures Steps(s, Run(FLAT, s), Load(s.cpu.regs, to, RegisterValue(s.cpu.regs, from)), s.mem, 1)
  {
    hide Isa.Decode, Poll, Run, Load, RegisterValue;
    RunIs(s, Isa.Transfer(from, to));
  }

  lemma CountRun(s: Sys<Flat>, reg: Isa.Register, up: bool)
    requires Plain(s) && reg in {Isa.RegX, Isa.RegY}
    requires Isa.Decode(Opcode(s)) == if reg == Isa.RegX then (if up then Isa.Inx else Isa.Dex)
                                      else if up then Isa.Iny else Isa.Dey
    ensures var v := (RegisterValue(s.cpu.regs, reg) + if up then 1 else -1) % 256;
            Steps(s, Run(FLAT, s), Load(s.cpu.regs, reg, v), s.mem, 1)
  {
    hide Isa.Decode, Poll, Run, Load;
    RunIs(s, Isa.Decode(Opcode(s)));
  }

  lemma FlagRun(s: Sys<Flat>, name: Isa.FlagName, v: bool)
    requires Plain(s) && Isa.Decode(Opcode(s)) == Isa.SetFlag(name, v)
    ensures Steps(s, Run(FLAT, s), s.cpu.regs.(flags := WithFlag(s.cpu.regs.flags, name, v)), s.mem, 1)
  {
    hide Isa.Decode, Poll, Run, WithFlag;
    RunIs(s, Isa.SetFlag(name, v));
  }

  lemma NopRun(s: Sys<Flat>)
    requires Plain(s) && Opcode(s) == 0xEA
    ensures Steps(s, Run(FLAT, s), s.cpu.regs, s.mem, 1)
  {
    hide Poll, Run;
    RunIs(s, Isa.Nop);
  }

  lemma OneByteMoves(s: Sys<Flat>)
    requires Plain(s) && Opcode(s) in {0x8A, 0x98, 0x9A, 0xA8, 0xAA, 0xBA}
    ensures Steps(s, Run(FLAT, s), AfterOneByte(Opcode(s), s.cpu.regs), s.mem, 1)
  {
    hide Isa.Decode, Plain, Run, Steps;
    MovesOpcodes();
    match Opcode(s)
    case 0x8A => TransferRun(s, Isa.RegX, Isa.RegA);
    case 0x98 => TransferRun(s, Isa.RegY, Isa.RegA);
    case 0x9A => TransferRun(s, Isa.RegX, Isa.RegSp);
    case 0xA8 => TransferRun(s, Isa.RegA, Isa.RegY);
    case 0xAA => TransferRun(s, Isa.RegA, Isa.RegX);
    case 0xBA => TransferRun(s, Isa.RegSp, Isa.RegX);
  }

  lemma OneByteCounts(s: Sys<Flat>)
    requires Plain(s) && Opcode(s) in {0xE8, 0xC8, 0xCA, 0x88}
    ensures Steps(s, Run(FLAT, s), AfterOneByte(Opcode(s), s.cpu.regs), s.mem, 1)
  {
    hide Isa.Decode, Plain, Run, Steps;
    MovesOpcodes();
    CountRun(s, if Opcode(s) in {0xE8, 0xCA} then Isa.RegX else Isa.RegY, Opcode(s) in {0xE8, 0xC8});
  }

  lemma OneByteFlags(s: Sys<Flat>)
    requires Plain(s) && Opcode(s) in {0x18, 0x38, 0x58, 0x78, 0xB8, 0xD8, 0xF8}
    ensures Steps(s, Run(FLAT, s), AfterOneByte(Opcode(s), s.cpu.regs), s.mem, 1)
  {
    hide Isa.Decode, Plain, Run, Steps;
    FlagsOpcodes();
    match Opcode(s)
    case 0x18 => FlagRun(s, Isa.CarryFlag, false);
    case 0x38 => FlagRun(s, Isa.CarryFlag, true);
    case 0x58 => FlagRun(s, Isa.IntDisableFlag, false);
    case 0x78 => FlagRun(s, Isa.IntDisableFlag, true);
    case 0xB8 => FlagRun(s, Isa.OverflowFlag, false);
    case 0xD8 => FlagRun(s, Isa.DecimalFlag, false);
    case 0xF8 => FlagRun(s, Isa.DecimalFlag, true);
  }

  /** Transfers, counts in registers, flag instructions and NOP. */
  lemma OneByteGroup(s: Sys<Flat>)
    requires Plain(s) && OneByte(Opcode(s))
    ensures Steps(s, Run(FLAT, s), AfterOneByte(Opcode(s), s.cpu.regs), s.mem, 1)
  {
    hide Run, AfterOneByte, Steps;
    if Opcode(s) == 0xEA {
      NopIs(s.cpu.regs);
      NopRun(s);
    } else if Opcode(s) in {0x18, 0x38, 0x58, 0x78, 0xB8, 0xD8, 0xF8} {
      OneByteFlags(s);
    } else if Opcode(s) in {0xE8, 0xC8, 0xCA, 0x88} {
      OneByteCounts(s);
    } else {
      OneByteMoves(s);
    }
  }

  lemma NopIs(r: Regs)
    ensures AfterOneByte(0xEA, r) == r
  {
  }

  // ----- Stack -----

  /** The status byte of the flags: C, Z, I, D, B, unused, V, N from bit 0 up. */
  ghost function StatusByte(f: Flags): int {
    Bit(f.carry) + 2 * Bit(f.zero) + 4 * Bit(f.intdis) + 8 * Bit(f.decimal) +
    16 * Bit(f.breakf) + 32 * Bit(f.unused) + 64 * Bit(f.ov) + 128 * Bit(f.neg)
  }

  lemma PackIs(f: Flags)
    ensures Pack(f) == StatusByte(f)
  {
  }

  lemma UnpackIs(v: Byte)
    ensures StatusByte(Unpack(v).(breakf := false)) == v - 16 * (v / 16 % 2)
  {
    Shifts(v);
    var h1, h2, h3, h4, h5, h6, h7 := v / 2, v / 4, v / 8, v / 16, v / 32, v / 64, v / 128;
    assert v == v % 2 + 2 * h1 && h1 == h1 % 2 + 2 * h2 && h2 == h2 % 2 + 2 * h3 && h3 == h3 % 2 + 2 * h4;
    assert h4 == h4 % 2 + 2 * h5 && h5 == h5 % 2 + 2 * h6 && h6 == h6 % 2 + 2 * h7 && 0 <= h7 <= 1;
    UnpackBits(v);
  }

  lemma UnpackBits(v: Byte)
    ensures var f := Unpack(v);
            && Bit(f.carry) == v % 2 && Bit(f.zero) == v / 2 % 2 && Bit(f.intdis) == v / 4 % 2
            && Bit(f.decimal) == v / 8 % 2 && Bit(f.breakf) == v / 16 % 2 && Bit(f.unused) == v / 32 % 2
            && Bit(f.ov) == v / 64 % 2 && Bit(f.neg) == v / 128
  {
  }

  lemma StackOpcodes()
    ensures Isa.Decode(0x08) == Isa.Php && Isa.Decode(0x28) == Isa.Plp
    ensures Isa.Decode(0x48) == Isa.Pha && Isa.Decode(0x68) == Isa.Pla
  {
  }

  /** PHA and PHP store at 0x100 plus the stack pointer and step it down; PHP stores the status with B set and clears
      B. */
  lemma PushGroup(s: Sys<Flat>)
    requires Plain(s) && Opcode(s) in {0x08, 0x48}
    ensures var r := s.cpu.regs;
            var v := if Opcode(s) == 0x48 then r.acc else StatusByte(r.flags.(breakf := true));
            var f := if Opcode(s) == 0x48 then r.flags else r.flags.(breakf := false);
            && 0 <= v < 256
            && Steps(s, Run(FLAT, s), r.(sp := (r.sp - 1) % 256, flags := f), s.mem[0x100 + r.sp := v], 1)
  {
    hide Isa.Decode, Poll, Run, Pack, StatusByte;
    StackOpcodes();
    PackIs(s.cpu.regs.flags.(breakf := true));
    RunIs(s, Isa.Decode(Opcode(s)));
  }

  /** PLA and PLP step the stack pointer up and take the byte there; PLP takes all flags from it except B, which it
      clears. */
  lemma PullGroup(s: Sys<Flat>)
    requires Plain(s) && Opcode(s) in {0x28, 0x68}
    ensures var r, t := s.cpu.regs, Run(FLAT, s);
            var sp := (r.sp + 1) % 256;
            var v := s.mem[0x100 + sp];
            if Opcode(s) == 0x68 then Steps(s, t, r.(sp := sp, acc := v, flags := Judged(r.flags, v)), s.mem, 1)
            else Steps(s, t, r.(sp := sp, flags := t.cpu.regs.flags), s.mem, 1) &&
                 StatusByte(t.cpu.regs.flags) == v - 16 * (v / 16 % 2)
  {
    hide Isa.Decode, Poll, Run, Unpack, StatusByte;
    StackOpcodes();
    UnpackIs(s.mem[0x100 + Up(s.cpu.regs.sp)]);
    RunIs(s, Isa.Decode(Opcode(s)));
  }

  // ----- The PC -----

  /** The condition of a branch by its row: N, V, C, Z, each clear and then set. */
  ghost predicate Taken(row: nat, f: Flags) {
    match row
    case 0 => !f.neg
    case 1 => f.neg
    case 2 => !f.ov
    case 3 => f.ov
    case 4 => !f.carry
    case 5 => f.carry
    case 6 => !f.zero
    case _ => f.zero
  }

  lemma BranchOpcodes()
    ensures Isa.Decode(0x10) == Isa.Branch(Isa.NegFlag, false) && Isa.Decode(0x30) == Isa.Branch(Isa.NegFlag, true)
    ensures Isa.Decode(0x50) == Isa.Branch(Isa.OverflowFlag, false)
    ensures Isa.Decode(0x70) == Isa.Branch(Isa.OverflowFlag, true)
    ensures Isa.Decode(0x90) == Isa.Branch(Isa.CarryFlag, false) && Isa.Decode(0xB0) == Isa.Branch(Isa.CarryFlag, true)
    ensures Isa.Decode(0xD0) == Isa.Branch(Isa.ZeroFlag, false) && Isa.Decode(0xF0) == Isa.Branch(Isa.ZeroFlag, true)
  {
  }

  /** The PC behind a branch, with its signed operand added when it is taken. */
  ghost function Branched(s: Sys<Flat>, taken: bool): int {
    (s.cpu.pc + 2 + if taken then Signed(OperandByte(s, 1)) else 0) % 0x10000
  }

  lemma BranchRun(s: Sys<Flat>, flag: Isa.FlagName, v: bool)
    requires Plain(s) && Isa.Decode(Opcode(s)) == Isa.Branch(flag, v)
    ensures var t := Run(FLAT, s);
            && t.cpu.regs == s.cpu.regs && t.mem == s.mem
            && t.cpu.pc == Branched(s, FlagValue(s.cpu.regs.flags, flag) == v)
  {
    hide Isa.Decode, Poll, Run, FlagValue, High;
    RunIs(s, Isa.Branch(flag, v));
  }

  /** A branch adds its signed operand to the PC behind it when its condition holds; registers and memory stay. */
  lemma BranchGroup(s: Sys<Flat>)
    requires Plain(s) && Opcode(s) % 32 == 16
    ensures var t := Run(FLAT, s);
            && t.cpu.regs == s.cpu.regs && t.mem == s.mem
            && t.cpu.pc == Branched(s, Taken(Opcode(s) / 32, s.cpu.regs.flags))
  {
    hide Isa.Decode, Plain, Run, Branched;
    BranchOpcodes();
    match Opcode(s) / 32
    case 0 => BranchRun(s, Isa.NegFlag, false);
    case 1 => BranchRun(s, Isa.NegFlag, true);
    case 2 => BranchRun(s, Isa.OverflowFlag, false);
    case 3 => BranchRun(s, Isa.OverflowFlag, true);
    case 4 => BranchRun(s, Isa.CarryFlag, false);
    case 5 => BranchRun(s, Isa.CarryFlag, true);
    case 6 => BranchRun(s, Isa.ZeroFlag, false);
    case _ => BranchRun(s, Isa.ZeroFlag, true);
  }

  lemma JumpOpcodes()
    ensures Isa.Decode(0x4C) == Isa.Jmp && Isa.Decode(0x6C) == Isa.JmpIndirect
    ensures Isa.Decode(0x20) == Isa.Jsr && Isa.Decode(0x60) == Isa.Rts
    ensures Isa.Decode(0x40) == Isa.Rti && Isa.Decode(0x00) == Isa.Brk
  {
  }

  /** JMP goes to its operand; JMP (indirect) to the word at its operand, whose high byte is taken from the same
      page. */
  lemma JumpGroup(s: Sys<Flat>)
    requires Plain(s) && Opcode(s) in {0x4C, 0x6C}
    ensures var t, a := Run(FLAT, s), WordOperand(s);
            && t.cpu.regs == s.cpu.regs && t.mem == s.mem
            && t.cpu.pc == if Opcode(s) == 0x4C then a
                           else WordOf(s.mem[a], s.mem[WordOf((OperandByte(s, 1) + 1) % 256, OperandByte(s, 2))])
  {
    hide Isa.Decode, Perform, Run, PerformJmp, PerformJmpIndirect;
    JumpOpcodes();
    RunIs(s, Isa.Decode(Opcode(s)));
    if Opcode(s) == 0x4C {
      JmpGoes(s);
    } else {
      JmpIndirectGoes(s);
    }
  }

  lemma AbsoluteOperand(s: Sys<Flat>)
    ensures var o := Locate(FLAT, AfterFetch(FLAT, s).cpu, s.mem, Isa.Absolute);
            o.addr == WordOperand(s) && o.low == OperandByte(s, 1) && o.high == OperandByte(s, 2) && o.mem == s.mem
  {
    hide Next;
    NextIs(s.cpu.pc);
  }

  lemma JmpGoes(s: Sys<Flat>)
    ensures var t := Perform(FLAT, AfterFetch(FLAT, s), Isa.Jmp);
            t.cpu.regs == s.cpu.regs && t.mem == s.mem && t.cpu.pc == WordOperand(s)
  {
    hide Locate, Poll, WordOperand, OperandByte;
    AbsoluteOperand(s);
  }

  lemma JmpIndirectGoes(s: Sys<Flat>)
    ensures var t, a := Perform(FLAT, AfterFetch(FLAT, s), Isa.JmpIndirect), WordOperand(s);
            && t.cpu.regs == s.cpu.regs && t.mem == s.mem
            && t.cpu.pc == WordOf(s.mem[a], s.mem[WordOf((OperandByte(s, 1) + 1) % 256, OperandByte(s, 2))])
  {
    hide Locate, Poll, WordOperand, OperandByte;
    AbsoluteOperand(s);
  }

  /** JSR pushes the address of its last byte, high byte first, and goes to its operand. */
  lemma CallGroup(s: Sys<Flat>)
    requires Plain(s) && Opcode(s) == 0x20
    ensures var t, r := Run(FLAT, s), s.cpu.regs;
            var back := (s.cpu.pc + 2) % 0x10000;
            && t.cpu.pc == WordOperand(s) && t.cpu.regs == r.(sp := (r.sp - 2) % 256)
            && t.mem == s.mem[0x100 + r.sp := back / 256][0x100 + (r.sp - 1) % 256 := back % 256]
  {
    hide Isa.Decode, Poll, Run, Next;
    JumpOpcodes();
    NextIs(s.cpu.pc);
    RunIs(s, Isa.Jsr);
  }

  /** The `i`th byte above the stack pointer, which wraps at eight bits. */
  ghost function StackByte(s: Sys<Flat>, i: nat): Byte {
    s.mem[0x100 + (s.cpu.regs.sp + i) % 256]
  }

  lemma UpIs(sp: Byte)
    ensures Up(sp) == (sp + 1) % 256 && Up(Up(sp)) == (sp + 2) % 256 && Up(Up(Up(sp))) == (sp + 3) % 256
  {
  }

  lemma PullsAre(s: Sys<Flat>)
    ensures var m, sp := s.mem, s.cpu.regs.sp;
            && Pulled(FLAT, m, sp) == StackByte(s, 1) && AfterPull(FLAT, m, sp) == m
            && Pulled(FLAT, m, Up(sp)) == StackByte(s, 2) && AfterPull(FLAT, m, Up(sp)) == m
            && Pulled(FLAT, m, Up(Up(sp))) == StackByte(s, 3) && AfterPull(FLAT, m, Up(Up(sp))) == m
  {
    hide Up;
    UpIs(s.cpu.regs.sp);
  }

  /** RTS goes one past the word pulled from the stack. */
  lemma ReturnGroup(s: Sys<Flat>)
    requires Plain(s) && Opcode(s) == 0x60
    ensures var t, r := Run(FLAT, s), s.cpu.regs;
            && t.cpu.pc == (WordOf(StackByte(s, 1), StackByte(s, 2)) + 1) % 0x10000
            && t.cpu.regs == r.(sp := (r.sp + 2) % 256) && t.mem == s.mem
  {
    hide Isa.Decode, Poll, Run, Next, Up, Pulled, AfterPull, StackByte;
    JumpOpcodes();
    UpIs(s.cpu.regs.sp);
    PullsAre(s);
    NextIs(WordOf(StackByte(s, 1), StackByte(s, 2)));
    RunIs(s, Isa.Rts);
  }

  /** RTI pulls the status, without B, and the PC. */
  lemma InterruptReturnGroup(s: Sys<Flat>)
    requires Plain(s) && Opcode(s) == 0x40
    ensures var t, r, v := Run(FLAT, s), s.cpu.regs, StackByte(s, 1);
            && t.cpu.pc == WordOf(StackByte(s, 2), StackByte(s, 3))
            && t.cpu.regs == r.(sp := (r.sp + 3) % 256, flags := t.cpu.regs.flags) && t.mem == s.mem
            && StatusByte(t.cpu.regs.flags) == v - 16 * (v / 16 % 2)
  {
    hide Isa.Decode, Poll, Run, Unpack, StatusByte, Up, Next, Pulled, AfterPull, StackByte;
    JumpOpcodes();
    UpIs(s.cpu.regs.sp);
    PullsAre(s);
    UnpackIs(StackByte(s, 1));
    RunIs(s, Isa.Rti);
  }

  /** The address an interrupt sequence reads its target from: reset before NMI before IRQ and BRK. */
  ghost function VectorAddr(l: Lines): Word {
    if l.resetPending then 0xFFFC else if l.nmiPending then 0xFFFA else 0xFFFE
  }

  /** An interrupt sequence on flat memory: PC and status go to the stack, high byte first, I is set, and the PC is the
      word at the vector. */
  ghost predicate Enters(s: Sys<Flat>, t: Sys<Flat>, back: Word, status: int) {
    var r, a := s.cpu.regs, VectorAddr(s.cpu.lines);
    && 0 <= status < 256
    && t.mem == s.mem[0x100 + r.sp := back / 256][0x100 + (r.sp - 1) % 256 := back % 256]
                     [0x100 + (r.sp - 2) % 256 := status]
    && t.cpu.regs == r.(sp := (r.sp - 3) % 256, flags := r.flags.(breakf := false, intdis := true))
    && t.cpu.pc == WordOf(s.mem[a], s.mem[a + 1])
  }

  lemma InterruptEnters(s: Sys<Flat>)
    ensures Enters(s, Interrupt(FLAT, s), s.cpu.pc, StatusByte(s.cpu.regs.flags))
  {
    hide Pack, StatusByte;
    PackIs(s.cpu.regs.flags);
  }

  /** BRK saves the address behind it and the status with B set. */
  lemma BreakGroup(s: Sys<Flat>)
    requires Plain(s) && Opcode(s) == 0x00
    ensures Enters(s, Run(FLAT, s), (s.cpu.pc + 1) % 0x10000, StatusByte(s.cpu.regs.flags.(breakf := true)))
  {
    hide Isa.Decode, Run, Perform, Interrupt, StatusByte, Enters;
    JumpOpcodes();
    RunIs(s, Isa.Brk);
    var x := BreakState(s);
    BreakIs(s);
    InterruptEnters(x);
    EntersFrom(s, x, Interrupt(FLAT, x));
  }

  /** The state in which BRK starts its sequence: behind the opcode, B set. */
  ghost function BreakState(s: Sys<Flat>): Sys<Flat> {
    var r := s.cpu.regs;
    Sys(s.cpu.(pc := (s.cpu.pc + 1) % 0x10000, cycles := s.cpu.cycles + 1,
               regs := r.(flags := r.flags.(breakf := true))), s.mem)
  }

  lemma BreakIs(s: Sys<Flat>)
    ensures Perform(FLAT, AfterFetch(FLAT, s), Isa.Brk) == Interrupt(FLAT, BreakState(s))
  {
    hide Interrupt, Next;
    NextIs(s.cpu.pc);
  }

  lemma EntersFrom(s: Sys<Flat>, x: Sys<Flat>, t: Sys<Flat>)
    requires x == BreakState(s) && Enters(x, t, x.cpu.pc, StatusByte(x.cpu.regs.flags))
    ensures Enters(s, t, (s.cpu.pc + 1) % 0x10000, StatusByte(s.cpu.regs.flags.(breakf := true)))
  {
    hide StatusByte, WordOf;
  }

  // ----- Bytes that are no instruction -----

  ghost predicate Defined(op: Byte) {
    || (op % 4 == 1 && op != 0x89)
    || ModifiesMemory(op) || op in {0x0A, 0x2A, 0x4A, 0x6A}
    || LoadsX(op) || LoadsY(op) || StoresIndex(op) || ComparesIndex(op) || op in {0x24, 0x2C}
    || OneByte(op) || op in {0x08, 0x48, 0x28, 0x68}
    || op % 32 == 16 || op in {0x00, 0x4C, 0x6C, 0x20, 0x60, 0x40}
  }

  /** Every other byte only moves the PC. */
  lemma UndefinedGroup(s: Sys<Flat>)
    requires Plain(s) && !Defined(Opcode(s))
    ensures Steps(s, Run(FLAT, s), s.cpu.regs, s.mem, 1)
  {
    hide Isa.Decode, Run, Defined;
    UndefinedOpcode(Opcode(s));
    RunIs(s, Isa.Unknown);
  }

  lemma Defined00(op: Byte)
    requires 0x00 <= op < 0x20 && Isa.Decode00(op) != Isa.Unknown
    ensures Defined(op)
  {
  }

  lemma Defined20(op: Byte)
    requires 0x20 <= op < 0x40 && Isa.Decode20(op) != Isa.Unknown
    ensures Defined(op)
  {
  }

  lemma Defined40(op: Byte)
    requires 0x40 <= op < 0x60 && Isa.Decode40(op) != Isa.Unknown
    ensures Defined(op)
  {
  }

  lemma Defined60(op: Byte)
    requires 0x60 <= op < 0x80 && Isa.Decode60(op) != Isa.Unknown
    ensures Defined(op)
  {
  }

  lemma Defined80(op: Byte)
    requires 0x80 <= op < 0xA0 && Isa.Decode80(op) != Isa.Unknown
    ensures Defined(op)
  {
  }

  lemma DefinedA0(op: Byte)
    requires 0xA0 <= op < 0xC0 && Isa.DecodeA0(op) != Isa.Unknown
    ensures Defined(op)
  {
  }

  lemma DefinedC0(op: Byte)
    requires 0xC0 <= op < 0xE0 && Isa.DecodeC0(op) != Isa.Unknown
    ensures Defined(op)
  {
  }

  lemma DefinedE0(op: Byte)
    requires 0xE0 <= op < 0x100 && Isa.DecodeE0(op) != Isa.Unknown
    ensures Defined(op)
  {
  }

  lemma UndefinedOpcode(op: Byte)
    requires !Defined(op)
    ensures Isa.Decode(op) == Isa.Unknown
  {
    hide Defined, Isa.Decode00, Isa.Decode20, Isa.Decode40, Isa.Decode60, Isa.Decode80, Isa.DecodeA0, Isa.DecodeC0,
         Isa.DecodeE0;
    if Isa.Decode(op) != Isa.Unknown {
      match op / 32
      case 0 => Defined00(op);
      case 1 => Defined20(op);
      case 2 => Defined40(op);
      case 3 => Defined60(op);
      case 4 => Defined80(op);
      case 5 => DefinedA0(op);
      case 6 => DefinedC0(op);
      case _ => DefinedE0(op);
    }
  }

  lemma SinglesDefined(op: Byte)
    requires OneByte(op) || op in {0x0A, 0x2A, 0x4A, 0x6A, 0x08, 0x48, 0x28, 0x68, 0x00, 0x4C, 0x6C, 0x20, 0x60, 0x40}
    ensures Isa.Decode(op) != Isa.Unknown
  {
    hide Isa.Decode;
    AccumulatorOpcodes();
    MovesOpcodes();
    FlagsOpcodes();
    StackOpcodes();
    JumpOpcodes();
  }

  lemma BranchesDefined(op: Byte)
    requires op % 32 == 16
    ensures Isa.Decode(op) != Isa.Unknown
  {
    hide Isa.Decode;
    BranchOpcodes();
    match op / 32
    case 0 =>
    case 1 =>
    case 2 =>
    case 3 =>
    case 4 =>
    case 5 =>
    case 6 =>
    case _ =>
  }

  lemma DefinedOpcode(op: Byte)
    requires Defined(op)
    ensures Isa.Decode(op) != Isa.Unknown
  {
    hide Isa.Decode, ModifiesMemory, LoadsX, LoadsY, StoresIndex, ComparesIndex, OneByte;
    if op % 4 == 1 && op != 0x89 {
      AccumulatorRows(op);
    } else if ModifiesMemory(op) {
      ModifyOpcode(op);
    } else if LoadsX(op) || LoadsY(op) {
      LoadOpcodes(op);
    } else if StoresIndex(op) {
      StoreOpcodes(op);
    } else if ComparesIndex(op) {
      CompareOpcodes(op);
    } else if op in {0x24, 0x2C} {
      BitOpcodes(op);
    } else if op % 32 == 16 {
      BranchesDefined(op);
    } else {
      SinglesDefined(op);
    }
  }
}
