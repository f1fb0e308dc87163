/** The IRQ side of the interrupt protocol (emu/core/cpu.cpp): when a request is polled, which mask it is polled under,
    and that a masked request is never served. */
module IrqProtocol {
  import opened Words
  import opened CpuModel
  import opened InstructionGroups
  import opened Interrupts
  import Isa

  // ----- Polling -----

  /** Nothing is due. */
  ghost predicate Idle(l: Lines) {
    !l.execNmi && !l.execIrq
  }

  /** CLC, SEC, CLI, SEI, CLV, CLD, SED and PLP poll before they change the flags. */
  ghost predicate PollsEarly(op: Byte) {
    op in {0x18, 0x38, 0x58, 0x78, 0xB8, 0xD8, 0xF8, 0x28}
  }

  /** The interrupt-disable flag an instruction polls under. */
  ghost predicate Masked<M>(d: Device<M>, s: Sys<M>) {
    if PollsEarly(Fetched(d, s)) then s.cpu.regs.flags.intdis else Run(d, s).cpu.regs.flags.intdis
  }

  /** The lines after an instruction that polls: a pending NMI is due, and so is a pending IRQ that is not masked. */
  ghost function Polled(l: Lines, masked: bool): Lines {
    l.(execNmi := l.nmiPending, execIrq := l.irqPending && !masked)
  }

  /** The lines after BRK, which answers a request in its place. */
  ghost function Answered(l: Lines): Lines {
    if l.resetPending then l.(resetPending := false)
    else if l.nmiPending then l.(nmiPending := false)
    else l.(irqPending := false)
  }

  lemma EarlyOpcodes(op: Byte)
    requires PollsEarly(op)
    ensures Isa.Decode(op) == Isa.Plp || Isa.Decode(op).SetFlag?
  {
  }

  lemma LateOpcodes(op: Byte)
    requires Isa.Decode(op) == Isa.Plp || Isa.Decode(op).SetFlag?
    ensures PollsEarly(op)
  {
    if op < 0x20 {
    } else if op < 0x40 {
    } else if op < 0x60 {
    } else if op < 0x80 {
    }
  }

  lemma BreakOpcode(op: Byte)
    ensures op == 0 <==> Isa.Decode(op) == Isa.Brk
  {
  }

  lemma EarlyLines<M>(d: Device<M>, s: Sys<M>, i: Isa.Instr)
    requires i == Isa.Plp || i.SetFlag?
    ensures Perform(d, s, i).cpu.lines == Poll(s.cpu.lines, s.cpu.regs.flags.intdis)
  {
    hide Poll, Unpack, WithFlag, Pulled, AfterPull;
  }

  lemma LateLines<M>(d: Device<M>, s: Sys<M>, i: Isa.Instr)
    requires !i.SetFlag? && i !in {Isa.Plp, Isa.Unknown, Isa.Brk}
    ensures Perform(d, s, i).cpu.lines == Poll(s.cpu.lines, Perform(d, s, i).cpu.regs.flags.intdis)
  {
    hide Poll, ReadEffect, ModifyFlags, ModifyResult, Load, Locate, Unpack, Pack, Pushed, Pulled, AfterPull, ReadCycles,
         WriteCycles, ModifyCycles;
  }

  lemma PollIs(l: Lines, masked: bool)
    requires Idle(l)
    ensures Poll(l, masked) == Polled(l, masked)
  {
  }

  /** Every instruction but BRK polls, under the mask before it if it is one of the early ones and after it otherwise; a
      byte that is no instruction polls nothing, and BRK answers a request. */
  lemma StepPolls<M>(d: Device<M>, s: Sys<M>)
    requires Idle(s.cpu.lines)
    ensures var op, l := Fetched(d, s), s.cpu.lines;
            Run(d, s).cpu.lines == if !Defined(op) then l
                                   else if op == 0 then Answered(l)
                                   else Polled(l, Masked(d, s))
  {
    hide Isa.Decode, Perform, Poll, Defined, PollsEarly;
    var op := Fetched(d, s);
    var i, t := Isa.Decode(op), AfterFetch(d, s);
    assert Run(d, s) == Perform(d, t, i);
    BreakOpcode(op);
    UndefinedIs(op);
    if i == Isa.Unknown || i == Isa.Brk {
      OtherLines(d, t, i);
    } else if i == Isa.Plp || i.SetFlag? {
      LateOpcodes(op);
      EarlyLines(d, t, i);
      PollIs(s.cpu.lines, s.cpu.regs.flags.intdis);
    } else {
      if PollsEarly(op) {
        EarlyOpcodes(op);
      }
      LateLines(d, t, i);
      PollIs(s.cpu.lines, Run(d, s).cpu.regs.flags.intdis);
    }
  }

  lemma UndefinedIs(op: Byte)
    ensures Defined(op) <==> Isa.Decode(op) != Isa.Unknown
  {
    hide Isa.Decode, Defined;
    if !Defined(op) {
      UndefinedOpcode(op);
    } else {
      DefinedOpcode(op);
    }
  }

  lemma OtherLines<M>(d: Device<M>, s: Sys<M>, i: Isa.Instr)
    requires i == Isa.Unknown || i == Isa.Brk
    ensures Perform(d, s, i).cpu.lines == if i == Isa.Unknown then s.cpu.lines else Answered(s.cpu.lines)
  {
    hide Pack, Pushed, Pointer, AfterPointer;
  }

  // ----- Masked requests -----

  /** The interrupt-disable flag is set at every moment of a run of steps, resets and requests. */
  ghost predicate AlwaysMasked<M>(d: Device<M>, s: Sys<M>, es: seq<Event>)
    decreases |es|
  {
    s.cpu.regs.flags.intdis && (es == [] || AlwaysMasked(d, After(d, s, es[0]), es[1..]))
  }

  lemma MaskedStep<M>(d: Device<M>, s: Sys<M>, e: Event)
    requires !s.cpu.lines.execIrq && s.cpu.regs.flags.intdis && After(d, s, e).cpu.regs.flags.intdis
    ensures !After(d, s, e).cpu.lines.execIrq
  {
    hide Run, Isa.Decode, Defined, PollsEarly, Fetched;
    if e == StepEvent {
      if s.cpu.lines.execNmi {
        StepLines(d, s);
      } else {
        StepPolls(d, s);
      }
    } else if e == ResetEvent {
      ResetLines(d, s);
    }
  }

  lemma ResetLines<M>(d: Device<M>, s: Sys<M>)
    ensures Reset(d, s).cpu.lines.execIrq == s.cpu.lines.execIrq
  {
    hide Pack, Pushed, Pointer, AfterPointer;
  }

  /** However often it is requested, an IRQ does not become due while interrupts are disabled. */
  lemma {:induction false} MaskedNeverDue<M>(d: Device<M>, s: Sys<M>, es: seq<Event>)
    requires !s.cpu.lines.execIrq && AlwaysMasked(d, s, es)
    ensures !Play(d, s, es).cpu.lines.execIrq
    decreases |es|
  {
    hide After;
    if es != [] {
      MaskedStep(d, s, es[0]);
      MaskedNeverDue(d, After(d, s, es[0]), es[1..]);
    }
  }

  // ----- Unmasked requests -----

  /** A pending IRQ without a pending NMI: an instruction that polls unmasked makes it due, the next step enters through
      0xFFFE with PC and status saved, interrupts disabled and the request withdrawn. */
  lemma IrqServed<M>(d: Device<M>, s: Sys<M>)
    requires Coherent(s.cpu.lines) && Idle(s.cpu.lines) && s.cpu.lines.irqPending && !s.cpu.lines.nmiPending
    requires Defined(Fetched(d, s)) && Fetched(d, s) != 0 && !Masked(d, s)
    ensures var t := Run(d, s);
            && t.cpu.lines.execIrq && !t.cpu.lines.execNmi
            && var u := Run(d, t);
               && u.cpu.pc == Pointer(d, Saved(d, t.mem, t.cpu.regs.sp, t.cpu.pc, t.cpu.regs.flags), 0xFFFE)
               && u.cpu.regs.flags.intdis && Idle(u.cpu.lines) && !u.cpu.lines.irqPending
  {
    hide Isa.Decode, Perform, Defined, PollsEarly, Masked, Fetched;
    StepPolls(d, s);
    DueEnters(d, Run(d, s));
  }

  lemma DueEnters<M>(d: Device<M>, s: Sys<M>)
    requires s.cpu.lines.execIrq && !s.cpu.lines.execNmi && !s.cpu.lines.nmiPending && !s.cpu.lines.resetPending
    ensures var u := Run(d, s);
            && u.cpu.pc == Pointer(d, Saved(d, s.mem, s.cpu.regs.sp, s.cpu.pc, s.cpu.regs.flags), 0xFFFE)
            && u.cpu.regs.flags.intdis && Idle(u.cpu.lines) && !u.cpu.lines.irqPending
  {
    hide Pack, Perform, Isa.Decode, Pointer;
  }

  /** SEI lets a pending IRQ in once more, and CLI keeps it out once more: both poll under the old flag. */
  lemma EarlyPolls<M>(d: Device<M>, s: Sys<M>)
    requires Idle(s.cpu.lines) && s.cpu.lines.irqPending && Fetched(d, s) in {0x58, 0x78}
    ensures Run(d, s).cpu.lines.execIrq == !s.cpu.regs.flags.intdis
  {
    hide Run, Isa.Decode;
    StepPolls(d, s);
  }
}
