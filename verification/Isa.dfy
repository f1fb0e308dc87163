/** The instruction set as the emulator lists it, twice: once in the dispatch of
    `CPU::execute` (emu/core/cpu.cpp) and once, independently, in the disassembler's
    table (emu/core/instrinfo.cpp). */
module Isa {
  import opened Words

  datatype Mode =
    | Immediate | ZeroPage | ZeroPageX | ZeroPageY | Absolute | AbsoluteX | AbsoluteY | IndirectX | IndirectY
    | Accumulator | Implied | Relative | Indirect

  /** Modes for which an `addrmode_*_read`, `addrmode_*_modify` or `addrmode_*_write` function exists. */
  type ReadMode = m: Mode |
    m in {Immediate, ZeroPage, ZeroPageX, ZeroPageY, Absolute, AbsoluteX, AbsoluteY, IndirectX, IndirectY}
    witness Immediate
  type ModifyMode = m: Mode | m in {Accumulator, ZeroPage, ZeroPageX, Absolute, AbsoluteX} witness ZeroPage
  type WriteMode = m: Mode |
    m in {ZeroPage, ZeroPageX, ZeroPageY, Absolute, AbsoluteX, AbsoluteY, IndirectX, IndirectY}
    witness ZeroPage

  datatype Register = RegA | RegX | RegY | RegSp

  datatype FlagName = CarryFlag | ZeroFlag | IntDisableFlag | DecimalFlag | OverflowFlag | NegFlag

  datatype ReadOp = Lda | Ldx | Ldy | Cmp | Cpx | Cpy | Adc | Sbc | Ora | And | Eor | Bit

  datatype ModifyOp = Inc | Dec | Asl | Lsr | Rol | Ror

  datatype Instr =
    | Read(readOp: ReadOp, readMode: ReadMode)
    | Modify(modifyOp: ModifyOp, modifyMode: ModifyMode)
    | Write(source: Register, writeMode: WriteMode)
    | Branch(tested: FlagName, when: bool)
    | SetFlag(flag: FlagName, value: bool)
    | Transfer(from: Register, to: Register)
    | Inx | Iny | Dex | Dey
    | Php | Pha | Plp | Pla
    | Jsr | Jmp | JmpIndirect | Rts | Brk | Rti
    | Nop
    | Unknown

  // ----- The dispatch of `CPU::execute`, in rows of 32 opcodes; bytes without a case are `Unknown` -----

  function Decode00(opcode: Byte): Instr {
    match opcode
    case 0x00 => Brk
    case 0x01 => Read(Ora, IndirectX)
    case 0x05 => Read(Ora, ZeroPage)
    case 0x06 => Modify(Asl, ZeroPage)
    case 0x08 => Php
    case 0x09 => Read(Ora, Immediate)
    case 0x0A => Modify(Asl, Accumulator)
    case 0x0D => Read(Ora, Absolute)
    case 0x0E => Modify(Asl, Absolute)
    case 0x10 => Branch(NegFlag, false)
    case 0x11 => Read(Ora, IndirectY)
    case 0x15 => Read(Ora, ZeroPageX)
    case 0x16 => Modify(Asl, ZeroPageX)
    case 0x18 => SetFlag(CarryFlag, false)
    case 0x19 => Read(Ora, AbsoluteY)
    case 0x1D => Read(Ora, AbsoluteX)
    case 0x1E => Modify(Asl, AbsoluteX)
    case _ => Unknown
  }

  function Decode20(opcode: Byte): Instr {
    match opcode
    case 0x20 => Jsr
    case 0x21 => Read(And, IndirectX)
    case 0x24 => Read(Bit, ZeroPage)
    case 0x25 => Read(And, ZeroPage)
    case 0x26 => Modify(Rol, ZeroPage)
    case 0x28 => Plp
    case 0x29 => Read(And, Immediate)
    case 0x2A => Modify(Rol, Accumulator)
    case 0x2C => Read(Bit, Absolute)
    case 0x2D => Read(And, Absolute)
    case 0x2E => Modify(Rol, Absolute)
    case 0x30 => Branch(NegFlag, true)
    case 0x31 => Read(And, IndirectY)
    case 0x35 => Read(And, ZeroPageX)
    case 0x36 => Modify(Rol, ZeroPageX)
    case 0x38 => SetFlag(CarryFlag, true)
    case 0x39 => Read(And, AbsoluteY)
    case 0x3D => Read(And, AbsoluteX)
    case 0x3E => Modify(Rol, AbsoluteX)
    case _ => Unknown
  }

  function Decode40(opcode: Byte): Instr {
    match opcode
    case 0x40 => Rti
    case 0x41 => Read(Eor, IndirectX)
    case 0x45 => Read(Eor, ZeroPage)
    case 0x46 => Modify(Lsr, ZeroPage)
    case 0x48 => Pha
    case 0x49 => Read(Eor, Immediate)
    case 0x4A => Modify(Lsr, Accumulator)
    case 0x4C => Jmp
    case 0x4D => Read(Eor, Absolute)
    case 0x4E => Modify(Lsr, Absolute)
    case 0x50 => Branch(OverflowFlag, false)
    case 0x51 => Read(Eor, IndirectY)
    case 0x55 => Read(Eor, ZeroPageX)
    case 0x56 => Modify(Lsr, ZeroPageX)
    case 0x58 => SetFlag(IntDisableFlag, false)
    case 0x59 => Read(Eor, AbsoluteY)
    case 0x5D => Read(Eor, AbsoluteX)
    case 0x5E => Modify(Lsr, AbsoluteX)
    case _ => Unknown
  }

  function Decode60(opcode: Byte): Instr {
    match opcode
    case 0x60 => Rts
    case 0x61 => Read(Adc, IndirectX)
    case 0x65 => Read(Adc, ZeroPage)
    case 0x66 => Modify(Ror, ZeroPage)
    case 0x68 => Pla
    case 0x69 => Read(Adc, Immediate)
    case 0x6A => Modify(Ror, Accumulator)
    case 0x6C => JmpIndirect
    case 0x6D => Read(Adc, Absolute)
    case 0x6E => Modify(Ror, Absolute)
    case 0x70 => Branch(OverflowFlag, true)
    case 0x71 => Read(Adc, IndirectY)
    case 0x75 => Read(Adc, ZeroPageX)
    case 0x76 => Modify(Ror, ZeroPageX)
    case 0x78 => SetFlag(IntDisableFlag, true)
    case 0x79 => Read(Adc, AbsoluteY)
    case 0x7D => Read(Adc, AbsoluteX)
    case 0x7E => Modify(Ror, AbsoluteX)
    case _ => Unknown
  }

  function Decode80(opcode: Byte): Instr {
    match opcode
    case 0x81 => Write(RegA, IndirectX)
    case 0x84 => Write(RegY, ZeroPage)
    case 0x85 => Write(RegA, ZeroPage)
    case 0x86 => Write(RegX, ZeroPage)
    case 0x88 => Dey
    case 0x8A => Transfer(RegX, RegA)
    case 0x8C => Write(RegY, Absolute)
    case 0x8D => Write(RegA, Absolute)
    case 0x8E => Write(RegX, Absolute)
    case 0x90 => Branch(CarryFlag, false)
    case 0x91 => Write(RegA, IndirectY)
    case 0x94 => Write(RegY, ZeroPageX)
    case 0x95 => Write(RegA, ZeroPageX)
    case 0x96 => Write(RegX, ZeroPageY)
    case 0x98 => Transfer(RegY, RegA)
    case 0x99 => Write(RegA, AbsoluteY)
    case 0x9A => Transfer(RegX, RegSp)
    case 0x9D => Write(RegA, AbsoluteX)
    case _ => Unknown
  }

  function DecodeA0(opcode: Byte): Instr {
    match opcode
    case 0xA0 => Read(Ldy, Immediate)
    case 0xA1 => Read(Lda, IndirectX)
    case 0xA2 => Read(Ldx, Immediate)
    case 0xA4 => Read(Ldy, ZeroPage)
    case 0xA5 => Read(Lda, ZeroPage)
    case 0xA6 => Read(Ldx, ZeroPage)
    case 0xA8 => Transfer(RegA, RegY)
    case 0xA9 => Read(Lda, Immediate)
    case 0xAA => Transfer(RegA, RegX)
    case 0xAC => Read(Ldy, Absolute)
    case 0xAD => Read(Lda, Absolute)
    case 0xAE => Read(Ldx, Absolute)
    case 0xB0 => Branch(CarryFlag, true)
    case 0xB1 => Read(Lda, IndirectY)
    case 0xB4 => Read(Ldy, ZeroPageX)
    case 0xB5 => Read(Lda, ZeroPageX)
    case 0xB6 => Read(Ldx, ZeroPageY)
    case 0xB8 => SetFlag(OverflowFlag, false)
    case 0xB9 => Read(Lda, AbsoluteY)
    case 0xBA => Transfer(RegSp, RegX)
    case 0xBC => Read(Ldy, AbsoluteX)
    case 0xBD => Read(Lda, AbsoluteX)
    case 0xBE => Read(Ldx, AbsoluteY)
    case _ => Unknown
  }

  function DecodeC0(opcode: Byte): Instr {
    match opcode
    case 0xC0 => Read(Cpy, Immediate)
    case 0xC1 => Read(Cmp, IndirectX)
    case 0xC4 => Read(Cpy, ZeroPage)
    case 0xC5 => Read(Cmp, ZeroPage)
    case 0xC6 => Modify(Dec, ZeroPage)
    case 0xC8 => Iny
    case 0xC9 => Read(Cmp, Immediate)
    case 0xCA => Dex
    case 0xCC => Read(Cpy, Absolute)
    case 0xCD => Read(Cmp, Absolute)
    case 0xCE => Modify(Dec, Absolute)
    case 0xD0 => Branch(ZeroFlag, false)
    case 0xD1 => Read(Cmp, IndirectY)
    case 0xD5 => Read(Cmp, ZeroPageX)
    case 0xD6 => Modify(Dec, ZeroPageX)
    case 0xD8 => SetFlag(DecimalFlag, false)
    case 0xD9 => Read(Cmp, AbsoluteY)
    case 0xDD => Read(Cmp, AbsoluteX)
    case 0xDE => Modify(Dec, AbsoluteX)
    case _ => Unknown
  }

  function DecodeE0(opcode: Byte): Instr {
    match opcode
    case 0xE0 => Read(Cpx, Immediate)
    case 0xE1 => Read(Sbc, IndirectX)
    case 0xE4 => Read(Cpx, ZeroPage)
    case 0xE5 => Read(Sbc, ZeroPage)
    case 0xE6 => Modify(Inc, ZeroPage)
    case 0xE8 => Inx
    case 0xE9 => Read(Sbc, Immediate)
    case 0xEA => Nop
    case 0xEC => Read(Cpx, Absolute)
    case 0xED => Read(Sbc, Absolute)
    case 0xEE => Modify(Inc, Absolute)
    case 0xF0 => Branch(ZeroFlag, true)
    case 0xF1 => Read(Sbc, IndirectY)
    case 0xF5 => Read(Sbc, ZeroPageX)
    case 0xF6 => Modify(Inc, ZeroPageX)
    case 0xF8 => SetFlag(DecimalFlag, true)
    case 0xF9 => Read(Sbc, AbsoluteY)
    case 0xFD => Read(Sbc, AbsoluteX)
    case 0xFE => Modify(Inc, AbsoluteX)
    case _ => Unknown
  }

  function Decode(opcode: Byte): Instr {
    if opcode < 0x20 then Decode00(opcode)
    else if opcode < 0x40 then Decode20(opcode)
    else if opcode < 0x60 then Decode40(opcode)
    else if opcode < 0x80 then Decode60(opcode)
    else if opcode < 0xA0 then Decode80(opcode)
    else if opcode < 0xC0 then DecodeA0(opcode)
    else if opcode < 0xE0 then DecodeC0(opcode)
    else DecodeE0(opcode)
  }

  // ----- The mode column of the disassembler's table, in the same rows -----

  function Listed00(opcode: Byte): Option<Mode> {
    match opcode
    case 0x00 => Some(Implied)
    case 0x01 => Some(IndirectX)
    case 0x05 => Some(ZeroPage)
    case 0x06 => Some(ZeroPage)
    case 0x08 => Some(Implied)
    case 0x09 => Some(Immediate)
    case 0x0A => Some(Accumulator)
    case 0x0D => Some(Absolute)
    case 0x0E => Some(Absolute)
    case 0x10 => Some(Relative)
    case 0x11 => Some(IndirectY)
    case 0x15 => Some(ZeroPageX)
    case 0x16 => Some(ZeroPageX)
    case 0x18 => Some(Implied)
    case 0x19 => Some(AbsoluteY)
    case 0x1D => Some(AbsoluteX)
    case 0x1E => Some(AbsoluteX)
    case _ => None
  }

  function Listed20(opcode: Byte): Option<Mode> {
    match opcode
    case 0x20 => Some(Absolute)
    case 0x21 => Some(IndirectX)
    case 0x24 => Some(ZeroPage)
    case 0x25 => Some(ZeroPage)
    case 0x26 => Some(ZeroPage)
    case 0x28 => Some(Implied)
    case 0x29 => Some(Immediate)
    case 0x2A => Some(Accumulator)
    case 0x2C => Some(Absolute)
    case 0x2D => Some(Absolute)
    case 0x2E => Some(Absolute)
    case 0x30 => Some(Relative)
    case 0x31 => Some(IndirectY)
    case 0x35 => Some(ZeroPageX)
    case 0x36 => Some(ZeroPageX)
    case 0x38 => Some(Implied)
    case 0x39 => Some(AbsoluteY)
    case 0x3D => Some(AbsoluteX)
    case 0x3E => Some(AbsoluteX)
    case _ => None
  }

  function Listed40(opcode: Byte): Option<Mode> {
    match opcode
    case 0x40 => Some(Implied)
    case 0x41 => Some(IndirectX)
    case 0x45 => Some(ZeroPage)
    case 0x46 => Some(ZeroPage)
    case 0x48 => Some(Implied)
    case 0x49 => Some(Immediate)
    case 0x4A => Some(Accumulator)
    case 0x4C => Some(Absolute)
    case 0x4D => Some(Absolute)
    case 0x4E => Some(Absolute)
    case 0x50 => Some(Relative)
    case 0x51 => Some(IndirectY)
    case 0x55 => Some(ZeroPageX)
    case 0x56 => Some(ZeroPageX)
    case 0x58 => Some(Implied)
    case 0x59 => Some(AbsoluteY)
    case 0x5D => Some(AbsoluteX)
    case 0x5E => Some(AbsoluteX)
    case _ => None
  }

  function Listed60(opcode: Byte): Option<Mode> {
    match opcode
    case 0x60 => Some(Implied)
    case 0x61 => Some(IndirectX)
    case 0x65 => Some(ZeroPage)
    case 0x66 => Some(ZeroPage)
    case 0x68 => Some(Implied)
    case 0x69 => Some(Immediate)
    case 0x6A => Some(Accumulator)
    case 0x6C => Some(Indirect)
    case 0x6D => Some(Absolute)
    case 0x6E => Some(Absolute)
    case 0x70 => Some(Relative)
    case 0x71 => Some(IndirectY)
    case 0x75 => Some(ZeroPageX)
    case 0x76 => Some(ZeroPageX)
    case 0x78 => Some(Implied)
    case 0x79 => Some(AbsoluteY)
    case 0x7D => Some(AbsoluteX)
    case 0x7E => Some(AbsoluteX)
    case _ => None
  }

  function Listed80(opcode: Byte): Option<Mode> {
    match opcode
    case 0x81 => Some(IndirectX)
    case 0x84 => Some(ZeroPage)
    case 0x85 => Some(ZeroPage)
    case 0x86 => Some(ZeroPage)
    case 0x88 => Some(Implied)
    case 0x8A => Some(Implied)
    case 0x8C => Some(Absolute)
    case 0x8D => Some(Absolute)
    case 0x8E => Some(Absolute)
    case 0x90 => Some(Relative)
    case 0x91 => Some(IndirectY)
    case 0x94 => Some(ZeroPageX)
    case 0x95 => Some(ZeroPageX)
    case 0x96 => Some(ZeroPageY)
    case 0x98 => Some(Implied)
    case 0x99 => Some(AbsoluteY)
    case 0x9A => Some(Implied)
    case 0x9D => Some(AbsoluteX)
    case _ => None
  }

  function ListedA0(opcode: Byte): Option<Mode> {
    match opcode
    case 0xA0 => Some(Immediate)
    case 0xA1 => Some(IndirectX)
    case 0xA2 => Some(Immediate)
    case 0xA4 => Some(ZeroPage)
    case 0xA5 => Some(ZeroPage)
    case 0xA6 => Some(ZeroPage)
    case 0xA8 => Some(Implied)
    case 0xA9 => Some(Immediate)
    case 0xAA => Some(Implied)
    case 0xAC => Some(Absolute)
    case 0xAD => Some(Absolute)
    case 0xAE => Some(Absolute)
    case 0xB0 => Some(Relative)
    case 0xB1 => Some(IndirectY)
    case 0xB4 => Some(ZeroPageX)
    case 0xB5 => Some(ZeroPageX)
    case 0xB6 => Some(ZeroPageY)
    case 0xB8 => Some(Implied)
    case 0xB9 => Some(AbsoluteY)
    case 0xBA => Some(Implied)
    case 0xBC => Some(AbsoluteX)
    case 0xBD => Some(AbsoluteX)
    case 0xBE => Some(AbsoluteY)
    case _ => None
  }

  function ListedC0(opcode: Byte): Option<Mode> {
    match opcode
    case 0xC0 => Some(Immediate)
    case 0xC1 => Some(IndirectX)
    case 0xC4 => Some(ZeroPage)
    case 0xC5 => Some(ZeroPage)
    case 0xC6 => Some(ZeroPage)
    case 0xC8 => Some(Implied)
    case 0xC9 => Some(Immediate)
    case 0xCA => Some(Implied)
    case 0xCC => Some(Absolute)
    case 0xCD => Some(Absolute)
    case 0xCE => Some(Absolute)
    case 0xD0 => Some(Relative)
    case 0xD1 => Some(IndirectY)
    case 0xD5 => Some(ZeroPageX)
    case 0xD6 => Some(ZeroPageX)
    case 0xD8 => Some(Implied)
    case 0xD9 => Some(AbsoluteY)
    case 0xDD => Some(AbsoluteX)
    case 0xDE => Some(AbsoluteX)
    case _ => None
  }

  function ListedE0(opcode: Byte): Option<Mode> {
    match opcode
    case 0xE0 => Some(Immediate)
    case 0xE1 => Some(IndirectX)
    case 0xE4 => Some(ZeroPage)
    case 0xE5 => Some(ZeroPage)
    case 0xE6 => Some(ZeroPage)
    case 0xE8 => Some(Implied)
    case 0xE9 => Some(Immediate)
    case 0xEA => Some(Implied)
    case 0xEC => Some(Absolute)
    case 0xED => Some(Absolute)
    case 0xEE => Some(Absolute)
    case 0xF0 => Some(Relative)
    case 0xF1 => Some(IndirectY)
    case 0xF5 => Some(ZeroPageX)
    case 0xF6 => Some(ZeroPageX)
    case 0xF9 => Some(AbsoluteY)
    case 0xFD => Some(AbsoluteX)
    case 0xFE => Some(AbsoluteX)
    case _ => None
  }

  function ListedMode(opcode: Byte): Option<Mode> {
    if opcode < 0x20 then Listed00(opcode)
    else if opcode < 0x40 then Listed20(opcode)
    else if opcode < 0x60 then Listed40(opcode)
    else if opcode < 0x80 then Listed60(opcode)
    else if opcode < 0xA0 then Listed80(opcode)
    else if opcode < 0xC0 then ListedA0(opcode)
    else if opcode < 0xE0 then ListedC0(opcode)
    else ListedE0(opcode)
  }

  function ModeBytes(mode: Option<Mode>): (n: nat)
    ensures 1 <= n <= 3
  {
    match mode
    case None => 1
    case Some(Implied) => 1
    case Some(Accumulator) => 1
    case Some(Absolute) => 3
    case Some(AbsoluteX) => 3
    case Some(AbsoluteY) => 3
    case Some(Indirect) => 3
    case Some(_) => 2
  }

  /** `num_bytes`: the instruction length the debugger uses. */
  function NumBytes(opcode: Byte): nat {
    ModeBytes(ListedMode(opcode))
  }
}
