/** Where emu/core/instructions.cpp departs from the 6502: what the processor does, exactly when the code does the same,
    and an input for which it does not. */
module Departures {
  import opened Words
  import opened Isa
  import opened CpuModel

  // ----- BIT -----

  /** N is bit 7 of the operand, Z tells an empty intersection with the accumulator. */
  ghost predicate BitAsDocumented(f: Flags, acc: Byte, v: Byte) {
    f.neg == Negative(v) && f.zero == (BitAnd(acc, v) == 0)
  }

  lemma AndWithZero(acc: Byte)
    ensures BitAnd(acc, 0) == 0
  {
  }

  lemma BitExact(f: Flags, acc: Byte, v: Byte)
    ensures BitAsDocumented(BitTest(f, acc, v), acc, v) <==> v < 0x80 && BitAnd(acc, v) != 0
  {
    hide BitAnd;
    AndWithZero(acc);
  }

  /** A nonzero operand against a clear accumulator: the zero flag stays clear. */
  lemma BitWrong(f: Flags, v: Byte)
    requires v != 0
    ensures !BitTest(f, 0, v).zero && !BitAsDocumented(BitTest(f, 0, v), 0, v)
  {
    hide BitAnd;
    ZeroWith(v);
  }

  lemma ZeroWith(v: Byte)
    ensures BitAnd(0, v) == 0
  {
  }

  // ----- TXS -----

  /** TXS sets no flags on the processor; here it leaves them alone exactly when they already judge X. */
  lemma TxsExact<M>(d: Device<M>, s: Sys<M>)
    ensures var f, x := s.cpu.regs.flags, s.cpu.regs.x;
            Perform(d, s, Transfer(RegX, RegSp)).cpu.regs.flags == f <==> f.zero == (x == 0) && f.neg == Negative(x)
  {
  }

  lemma TxsWrong<M>(d: Device<M>, s: Sys<M>)
    requires s.cpu.regs.x == 0 && !s.cpu.regs.flags.zero
    ensures Perform(d, s, Transfer(RegX, RegSp)).cpu.regs.flags.zero
  {
  }

  // ----- The extra cycle of an indexed read -----

  /** The index carried into the high byte of the address. */
  ghost predicate Crosses(base: Word, addr: Word) {
    High(base) != High(addr)
  }

  lemma CrossingIsCarry(base: Word, index: Byte)
    ensures Crosses(base, ToWord(base + index)) <==> Low(base) + index > 0xFF
    ensures High(ToWord(base + index)) == if Low(base) + index > 0xFF then (High(base) + 1) % 256 else High(base)
  {
  }

  function IndexOf(r: Regs, mode: ReadMode): Byte
    requires mode in {AbsoluteX, AbsoluteY}
  {
    if mode == AbsoluteX then r.x else r.y
  }

  /** Cycles of a read after its opcode fetch. */
  ghost function Charged<M>(d: Device<M>, s: Sys<M>, op: ReadOp, mode: ReadMode): int {
    PerformRead(d, s, op, mode).cpu.cycles - s.cpu.cycles
  }

  /** abs,X and abs,Y: the code charges for a nonzero high byte, the processor for a crossed page. */
  lemma IndexedExact<M>(d: Device<M>, s: Sys<M>, op: ReadOp, mode: ReadMode)
    requires mode in {AbsoluteX, AbsoluteY}
    ensures var low := d.peek(s.mem, s.cpu.pc);
            var high := d.peek(d.touch(s.mem, s.cpu.pc), Next(s.cpu.pc));
            var index := IndexOf(s.cpu.regs, mode);
            var crossed := Crosses(Join(low, high), ToWord(Join(low, high) + index));
            Charged(d, s, op, mode) == (if crossed then 4 else 3) <==> ((high != 0) == (low + index > 0xFF))
  {
    hide ReadEffect, Poll, High, ToWord;
    var low, high := d.peek(s.mem, s.cpu.pc), d.peek(d.touch(s.mem, s.cpu.pc), Next(s.cpu.pc));
    CrossingIsCarry(Join(low, high), IndexOf(s.cpu.regs, mode));
    JoinLow(low, high);
  }

  lemma JoinLow(low: Byte, high: Byte)
    ensures Low(Join(low, high)) == low && High(Join(low, high)) == high
  {
  }

  /** $0200,X with X = 0 is charged for a page it does not cross. */
  lemma IndexedWrong<M>(d: Device<M>, s: Sys<M>, op: ReadOp)
    requires d.peek(s.mem, s.cpu.pc) == 0 && d.peek(d.touch(s.mem, s.cpu.pc), Next(s.cpu.pc)) == 2 && s.cpu.regs.x == 0
    ensures Charged(d, s, op, AbsoluteX) == 4 && !Crosses(0x200, ToWord(0x200 + s.cpu.regs.x))
  {
    hide ReadEffect, Poll;
  }

  /** (ind),Y: the code compares with the high operand byte of an earlier instruction, the processor with the
      pointer's. */
  lemma IndirectYExact<M>(d: Device<M>, s: Sys<M>, op: ReadOp)
    ensures var base := Pointer(d, d.touch(s.mem, s.cpu.pc), d.peek(s.mem, s.cpu.pc));
            var y := s.cpu.regs.y;
            var crossed := Crosses(base, ToWord(base + y));
            Charged(d, s, op, IndirectY) == (if crossed then 5 else 4)
            <==> (if Low(base) + y > 0xFF then s.cpu.opHigh != (High(base) + 1) % 256 else s.cpu.opHigh == High(base))
  {
    hide ReadEffect, Poll, High, ToWord, Low, Pointer, AfterPointer;
    CrossingIsCarry(Pointer(d, d.touch(s.mem, s.cpu.pc), d.peek(s.mem, s.cpu.pc)), s.cpu.regs.y);
  }

  /** With Y = 0 nothing crosses, and an old operand byte that differs is charged for. */
  lemma IndirectYWrong<M>(d: Device<M>, s: Sys<M>, op: ReadOp)
    requires s.cpu.regs.y == 0 && s.cpu.opHigh != High(Pointer(d, d.touch(s.mem, s.cpu.pc), d.peek(s.mem, s.cpu.pc)))
    ensures Charged(d, s, op, IndirectY) == 5
  {
    hide ReadEffect, Poll, Pointer, AfterPointer;
  }
}
