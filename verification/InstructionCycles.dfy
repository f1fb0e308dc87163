/** What every instruction costs, on opcode bytes and flat memory: the cycle counts of the processor's documentation
    but for the extra cycle of indexed reads, which emu/core/instructions.cpp charges by other conditions. */
module InstructionCycles {
  import opened Words
  import opened CpuModel
  import opened FlatMemory
  import opened InstructionSet
  import opened InstructionGroups
  import Isa

  ghost function Spent(s: Sys<Flat>): int {
    Run(FLAT, s).cpu.cycles - s.cpu.cycles
  }

  // ----- The documented counts -----

  /** Reads of the accumulator group by column. The extra cycle of abs,X and abs,Y is charged for a nonzero high operand
      byte, that of (zp),Y when the latched high byte is not that of the address. */
  ghost function ReadCost(s: Sys<Flat>, column: nat): nat
    requires column < 8
  {
    match column
    case 0 => 6
    case 1 => 3
    case 2 => 2
    case 3 => 4
    case 4 => if s.cpu.opHigh != Effective(s, 4) / 256 then 6 else 5
    case 5 => 4
    case _ => if OperandByte(s, 2) != 0 then 5 else 4
  }

  ghost function StoreCost(column: nat): nat {
    match column
    case 0 => 6
    case 1 => 3
    case 3 => 4
    case 4 => 6
    case 5 => 4
    case _ => 5
  }

  ghost function ModifyCost(column: nat): nat {
    match column
    case 1 => 5
    case 3 => 6
    case 5 => 6
    case _ => 7
  }

  /** Reads by the index registers and BIT. */
  ghost function IndexCost(s: Sys<Flat>, column: nat): nat {
    match column
    case 0 => 2
    case 1 => 3
    case 3 => 4
    case 5 => 4
    case _ => if OperandByte(s, 2) != 0 then 5 else 4
  }

  /** A branch: one more when taken, another when the target is on another page. */
  ghost function BranchCost(s: Sys<Flat>): nat {
    var next := (s.cpu.pc + 2) % 0x10000;
    var target := (next + Signed(OperandByte(s, 1))) % 0x10000;
    if !Taken(Opcode(s) / 32, s.cpu.regs.flags) then 2 else if next / 256 == target / 256 then 3 else 4
  }

  // ----- Unfolding -----

  lemma LatchedHigh(s: Sys<Flat>, mode: Isa.ReadMode)
    ensures var o := Locate(FLAT, AfterFetch(FLAT, s).cpu, s.mem, mode);
            o.high == if mode in {Isa.Absolute, Isa.AbsoluteX, Isa.AbsoluteY} then OperandByte(s, 2) else s.cpu.opHigh
  {
    hide Next, ToWord, Join, Offset, Pointer, AfterPointer;
    NextIs(s.cpu.pc);
  }

  ghost function ReadModeCost(s: Sys<Flat>, mode: Isa.ReadMode): nat {
    match mode
    case Immediate => 2
    case ZeroPage => 3
    case ZeroPageX => 4
    case ZeroPageY => 4
    case Absolute => 4
    case AbsoluteX => if OperandByte(s, 2) != 0 then 5 else 4
    case AbsoluteY => if OperandByte(s, 2) != 0 then 5 else 4
    case IndirectX => 6
    case IndirectY => if s.cpu.opHigh != ModeAddr(s, mode) / 256 then 6 else 5
  }

  lemma ReadSpends(s: Sys<Flat>, op: Isa.ReadOp, mode: Isa.ReadMode)
    requires Plain(s) && Isa.Decode(Opcode(s)) == Isa.Read(op, mode)
    ensures Spent(s) == ReadModeCost(s, mode)
  {
    hide ReadEffect, Poll, AfterOperand, Isa.Decode, Locate, ModeAddr, Run;
    RunIs(s, Isa.Read(op, mode));
    LocateIs(s, mode);
    LatchedHigh(s, mode);
  }

  lemma WriteSpends(s: Sys<Flat>, reg: Isa.Register, mode: Isa.WriteMode)
    requires Plain(s) && Isa.Decode(Opcode(s)) == Isa.Write(reg, mode)
    ensures Spent(s) == 1 + WriteCycles(mode)
  {
    hide Poll, AfterOperand, Isa.Decode, Locate, Run, WriteCycles;
    RunIs(s, Isa.Write(reg, mode));
  }

  lemma ModifySpends(s: Sys<Flat>, op: Isa.ModifyOp, mode: Isa.ModifyMode)
    requires Plain(s) && Isa.Decode(Opcode(s)) == Isa.Modify(op, mode)
    ensures Spent(s) == 1 + ModifyCycles(mode)
  {
    hide Poll, AfterOperand, Isa.Decode, Locate, Run, ModifyCycles, ModifyResult, ModifyFlags;
    RunIs(s, Isa.Modify(op, mode));
  }

  // ----- The theorems -----

  lemma GroupOneCycles(s: Sys<Flat>)
    requires Plain(s) && Opcode(s) % 4 == 1 && Opcode(s) != 0x89
    ensures var row, column := Opcode(s) / 32, Opcode(s) / 4 % 8;
            Spent(s) == if row == 4 then StoreCost(column) else ReadCost(s, column)
  {
    hide Spent, Isa.Decode, RowOp;
    var row, column := Opcode(s) / 32, Opcode(s) / 4 % 8;
    AccumulatorRows(Opcode(s));
    if row == 4 {
      WriteSpends(s, Isa.RegA, ColumnMode(column));
    } else {
      ReadSpends(s, RowOp(row), ColumnMode(column));
    }
  }

  lemma ModifyGroupCycles(s: Sys<Flat>)
    requires Plain(s) && ModifiesMemory(Opcode(s))
    ensures Spent(s) == ModifyCost(Opcode(s) / 4 % 8)
  {
    hide Spent, Isa.Decode, RowModify;
    ModifyOpcode(Opcode(s));
    ModifySpends(s, RowModify(Opcode(s) / 32), ModifyColumn(Opcode(s) / 4 % 8));
  }

  lemma IndexGroupCycles(s: Sys<Flat>)
    requires Plain(s)
    ensures var op := Opcode(s);
            LoadsX(op) || LoadsY(op) || ComparesIndex(op) || op in {0x24, 0x2C} ==>
            Spent(s) == IndexCost(s, op / 4 % 8)
    ensures StoresIndex(Opcode(s)) ==> Spent(s) == StoreCost(Opcode(s) / 4 % 8)
  {
    hide Spent, Isa.Decode, IndexMode;
    var op := Opcode(s);
    if LoadsX(op) || LoadsY(op) {
      LoadOpcodes(op);
      ReadSpends(s, if LoadsX(op) then Isa.Ldx else Isa.Ldy, IndexMode(op));
      IndexModeCost(s);
    } else if ComparesIndex(op) {
      CompareOpcodes(op);
      ReadSpends(s, if op < 0xE0 then Isa.Cpy else Isa.Cpx, IndexMode(op));
      IndexModeCost(s);
    } else if op in {0x24, 0x2C} {
      BitOpcodes(op);
      ReadSpends(s, Isa.Bit, IndexMode(op));
      IndexModeCost(s);
    } else if StoresIndex(op) {
      StoreOpcodes(op);
      WriteSpends(s, if op % 4 == 2 then Isa.RegX else Isa.RegY, IndexMode(op));
      IndexStoreCost(op);
    }
  }

  lemma IndexModeCost(s: Sys<Flat>)
    requires Opcode(s) / 4 % 8 in {0, 1, 3, 5, 7}
    ensures ReadModeCost(s, IndexMode(Opcode(s))) == IndexCost(s, Opcode(s) / 4 % 8)
  {
  }

  lemma IndexStoreCost(op: Byte)
    requires StoresIndex(op) && IndexMode(op) != Isa.Immediate
    ensures 1 + WriteCycles(IndexMode(op)) == StoreCost(op / 4 % 8)
  {
  }

  /** Everything else: two cycles for an instruction of one byte, and the fixed counts of stack and jumps. */
  lemma OtherCycles(s: Sys<Flat>)
    requires Plain(s)
    ensures OneByte(Opcode(s)) || Opcode(s) in {0x0A, 0x2A, 0x4A, 0x6A} ==> Spent(s) == 2
    ensures Opcode(s) in {0x08, 0x48, 0x4C} ==> Spent(s) == 3
    ensures Opcode(s) in {0x28, 0x68} ==> Spent(s) == 4
    ensures Opcode(s) == 0x6C ==> Spent(s) == 5
    ensures Opcode(s) in {0x20, 0x60, 0x40} ==> Spent(s) == 6
    ensures Opcode(s) == 0x00 ==> Spent(s) == 7
    ensures !Defined(Opcode(s)) ==> Spent(s) == 1
  {
    hide Spent, Defined;
    if OneByte(Opcode(s)) {
      OneByteCycles(s);
    } else if Opcode(s) in {0x0A, 0x2A, 0x4A, 0x6A} {
      AccumulatorCycles(s);
    } else if Opcode(s) in {0x08, 0x48, 0x28, 0x68} {
      StackCycles(s);
    } else if Opcode(s) in {0x4C, 0x6C, 0x20, 0x60, 0x40, 0x00} {
      JumpCycles(s);
    }
    DefinedSingles(Opcode(s));
    if !Defined(Opcode(s)) {
      UndefinedCycles(s);
    }
  }

  lemma DefinedSingles(op: Byte)
    ensures OneByte(op) || op in {0x0A, 0x2A, 0x4A, 0x6A, 0x08, 0x48, 0x28, 0x68, 0x4C, 0x6C, 0x20, 0x60, 0x40, 0x00}
            ==> Defined(op)
  {
    hide ModifiesMemory, LoadsX, LoadsY, StoresIndex, ComparesIndex;
  }

  lemma OneByteCycles(s: Sys<Flat>)
    requires Plain(s) && OneByte(Opcode(s))
    ensures Spent(s) == 2
  {
    hide Isa.Decode, Poll, Run, Load, RegisterValue, WithFlag;
    MovesOpcodes();
    FlagsOpcodes();
    RunIs(s, Isa.Decode(Opcode(s)));
  }

  lemma AccumulatorCycles(s: Sys<Flat>)
    requires Plain(s) && Opcode(s) in {0x0A, 0x2A, 0x4A, 0x6A}
    ensures Spent(s) == 2
  {
    hide Spent, Isa.Decode, RowModify;
    AccumulatorOpcodes();
    ModifySpends(s, RowModify(Opcode(s) / 32), Isa.Accumulator);
  }

  lemma StackCycles(s: Sys<Flat>)
    requires Plain(s) && Opcode(s) in {0x08, 0x48, 0x28, 0x68}
    ensures Spent(s) == if Opcode(s) in {0x08, 0x48} then 3 else 4
  {
    hide Isa.Decode, Poll, Run, Pack, Unpack, Load, Pushed, Pulled, AfterPull;
    StackOpcodes();
    RunIs(s, Isa.Decode(Opcode(s)));
  }

  lemma JumpCycles(s: Sys<Flat>)
    requires Plain(s) && Opcode(s) in {0x4C, 0x6C, 0x20, 0x60, 0x40, 0x00}
    ensures Spent(s) == match Opcode(s) case 0x4C => 3 case 0x6C => 5 case 0x00 => 7 case _ => 6
  {
    hide Isa.Decode, Poll, Run, Pack, Unpack, Locate, Pushed, Pulled, AfterPull, Pointer, AfterPointer, Acknowledge,
         Vector;
    JumpOpcodes();
    RunIs(s, Isa.Decode(Opcode(s)));
  }

  lemma UndefinedCycles(s: Sys<Flat>)
    requires Plain(s) && !Defined(Opcode(s))
    ensures Spent(s) == 1
  {
    hide Isa.Decode, Run, Defined;
    UndefinedOpcode(Opcode(s));
    RunIs(s, Isa.Unknown);
  }

  lemma BranchSpends(s: Sys<Flat>, flag: Isa.FlagName, v: bool)
    requires Plain(s) && Isa.Decode(Opcode(s)) == Isa.Branch(flag, v)
    ensures var next := (s.cpu.pc + 2) % 0x10000;
            var target := (next + Signed(OperandByte(s, 1))) % 0x10000;
            Spent(s) == if FlagValue(s.cpu.regs.flags, flag) != v then 2
                        else if next / 256 == target / 256 then 3
                        else 4
  {
    hide Isa.Decode, Poll, Run, FlagValue, Next, ToWord, Signed;
    NextIs(s.cpu.pc);
    TargetIs((s.cpu.pc + 2) % 0x10000, OperandByte(s, 1));
    RunIs(s, Isa.Branch(flag, v));
  }

  lemma TargetIs(next: Word, offset: Byte)
    ensures ToWord(next + Signed(offset)) == (next + Signed(offset)) % 0x10000
  {
  }

  lemma BranchCycles(s: Sys<Flat>)
    requires Plain(s) && Opcode(s) % 32 == 16
    ensures Spent(s) == BranchCost(s)
  {
    hide Isa.Decode, Plain, Spent, Signed, OperandByte;
    BranchOpcodes();
    match Opcode(s) / 32
    case 0 => BranchSpends(s, Isa.NegFlag, false);
    case 1 => BranchSpends(s, Isa.NegFlag, true);
    case 2 => BranchSpends(s, Isa.OverflowFlag, false);
    case 3 => BranchSpends(s, Isa.OverflowFlag, true);
    case 4 => BranchSpends(s, Isa.CarryFlag, false);
    case 5 => BranchSpends(s, Isa.CarryFlag, true);
    case 6 => BranchSpends(s, Isa.ZeroFlag, false);
    case _ => BranchSpends(s, Isa.ZeroFlag, true);
  }
}
