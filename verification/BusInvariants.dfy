/** Facts about memory that every bus access keeps are kept by every step of the CPU. */
module BusInvariants {
  import opened Words
  import opened Isa
  import opened CpuModel

  /** No read or write of the device breaks `inv`. */
  ghost predicate Kept<M(!new)>(d: Device<M>, inv: M -> bool) {
    && (forall m: M, a: Word :: inv(m) ==> inv(d.touch(m, a)))
    && (forall m: M, a: Word, v: Byte :: inv(m) ==> inv(d.poke(m, a, v)))
  }

  lemma TouchKeeps<M(!new)>(d: Device<M>, m: M, a: Word, inv: M -> bool)
    requires Kept(d, inv) && inv(m)
    ensures inv(d.touch(m, a))
  {
  }

  lemma PokeKeeps<M(!new)>(d: Device<M>, m: M, a: Word, v: Byte, inv: M -> bool)
    requires Kept(d, inv) && inv(m)
    ensures inv(d.poke(m, a, v))
  {
  }

  lemma PointerKeeps<M(!new)>(d: Device<M>, m: M, a: Word, inv: M -> bool)
    requires Kept(d, inv) && inv(m)
    ensures inv(AfterPointer(d, m, a))
  {
    hide Kept;
    TouchKeeps(d, m, a, inv);
    TouchKeeps(d, d.touch(m, a), Next(a), inv);
  }

  lemma LocateKeeps<M(!new)>(d: Device<M>, c: Cpu, m: M, mode: ReadMode, inv: M -> bool)
    requires Kept(d, inv) && inv(m)
    ensures inv(Locate(d, c, m, mode).mem)
  {
    hide Kept, AfterPointer;
    TouchKeeps(d, m, c.pc, inv);
    var m1 := d.touch(m, c.pc);
    TouchKeeps(d, m1, Next(c.pc), inv);
    var low := d.peek(m, c.pc);
    PointerKeeps(d, m1, Offset(low, c.regs.x), inv);
    PointerKeeps(d, m1, low, inv);
  }

  lemma InterruptKeeps<M(!new)>(d: Device<M>, s: Sys<M>, inv: M -> bool)
    requires Kept(d, inv) && inv(s.mem)
    ensures inv(Interrupt(d, s).mem)
  {
    hide Kept, AfterPointer, Pack;
    var c := s.cpu;
    var sp := c.regs.sp;
    PokeKeeps(d, s.mem, StackAddr(sp), High(c.pc), inv);
    var m1 := Pushed(d, s.mem, sp, High(c.pc));
    PokeKeeps(d, m1, StackAddr(Down(sp)), Low(c.pc), inv);
    var m2 := Pushed(d, m1, Down(sp), Low(c.pc));
    PokeKeeps(d, m2, StackAddr(Down(Down(sp))), Pack(c.regs.flags), inv);
    PointerKeeps(d, Pushed(d, m2, Down(Down(sp)), Pack(c.regs.flags)), Vector(c.lines), inv);
  }

  lemma PullsKeep<M(!new)>(d: Device<M>, m: M, sp: Byte, inv: M -> bool)
    requires Kept(d, inv) && inv(m)
    ensures var m1 := AfterPull(d, m, sp);
            var m2 := AfterPull(d, m1, Up(sp));
            inv(m1) && inv(m2) && inv(AfterPull(d, m2, Up(Up(sp))))
  {
    hide Kept;
    var m1 := AfterPull(d, m, sp);
    TouchKeeps(d, m, StackAddr(Up(sp)), inv);
    TouchKeeps(d, m1, StackAddr(Up(Up(sp))), inv);
    TouchKeeps(d, AfterPull(d, m1, Up(sp)), StackAddr(Up(Up(Up(sp)))), inv);
  }

  /** Instructions whose datum is located in memory. */
  lemma AccessKeeps<M(!new)>(d: Device<M>, s: Sys<M>, i: Instr, inv: M -> bool)
    requires Kept(d, inv) && inv(s.mem) && (i.Read? || i.Modify? || i.Write?)
    ensures inv(Perform(d, s, i).mem)
  {
    hide Kept, Locate, ReadEffect, ModifyResult, ModifyFlags, Finish;
    match i
    case Read(_, mode) =>
      LocateKeeps(d, s.cpu, s.mem, mode, inv);
      var o := Locate(d, s.cpu, s.mem, mode);
      TouchKeeps(d, o.mem, o.addr, inv);
    case Modify(op, mode) =>
      if mode != Accumulator {
        LocateKeeps(d, s.cpu, s.mem, mode, inv);
        var o := Locate(d, s.cpu, s.mem, mode);
        TouchKeeps(d, o.mem, o.addr, inv);
        PokeKeeps(d, d.touch(o.mem, o.addr), o.addr,
                  ModifyResult(op, s.cpu.regs.flags.carry, d.peek(o.mem, o.addr)), inv);
      }
    case Write(r, mode) =>
      LocateKeeps(d, s.cpu, s.mem, mode, inv);
      var o := Locate(d, s.cpu, s.mem, mode);
      PokeKeeps(d, o.mem, o.addr, RegisterValue(s.cpu.regs, r), inv);
  }

  lemma JumpKeeps<M(!new)>(d: Device<M>, s: Sys<M>, i: Instr, inv: M -> bool)
    requires Kept(d, inv) && inv(s.mem) && i in {Jsr, Jmp, JmpIndirect}
    ensures inv(Perform(d, s, i).mem)
  {
    hide Kept, Locate, Finish;
    LocateKeeps(d, s.cpu, s.mem, Absolute, inv);
    var o := Locate(d, s.cpu, s.mem, Absolute);
    var sp, ret := s.cpu.regs.sp, Next(s.cpu.pc);
    PokeKeeps(d, o.mem, StackAddr(sp), High(ret), inv);
    PokeKeeps(d, Pushed(d, o.mem, sp, High(ret)), StackAddr(Down(sp)), Low(ret), inv);
    TouchKeeps(d, o.mem, o.addr, inv);
    TouchKeeps(d, d.touch(o.mem, o.addr), Join(ToByte(o.low + 1), o.high), inv);
  }

  lemma OtherKeeps<M(!new)>(d: Device<M>, s: Sys<M>, i: Instr, inv: M -> bool)
    requires Kept(d, inv) && inv(s.mem)
    requires !(i.Read? || i.Modify? || i.Write?) && i !in {Jsr, Jmp, JmpIndirect}
    ensures inv(Perform(d, s, i).mem)
  {
    hide Kept, Finish, Pack, Unpack, Interrupt, WithFlag, Load;
    var r := s.cpu.regs;
    match i
    case Branch(_, _) => TouchKeeps(d, s.mem, s.cpu.pc, inv);
    case Pha => PokeKeeps(d, s.mem, StackAddr(r.sp), r.acc, inv);
    case Php => PokeKeeps(d, s.mem, StackAddr(r.sp), Pack(r.flags.(breakf := true)), inv);
    case Brk => InterruptKeeps(d, s.(cpu := s.cpu.(regs := r.(flags := r.flags.(breakf := true)))), inv);
    case _ => PullsKeep(d, s.mem, r.sp, inv);
  }

  /** One step of the CPU, whatever it executes. */
  lemma RunKeeps<M(!new)>(d: Device<M>, s: Sys<M>, inv: M -> bool)
    requires Kept(d, inv) && inv(s.mem)
    ensures inv(Run(d, s).mem)
  {
    hide Kept, Perform, Decode, Interrupt;
    InterruptKeeps(d, s.(cpu := s.cpu.(cycles := s.cpu.cycles + 1)), inv);
    TouchKeeps(d, s.mem, s.cpu.pc, inv);
    var t, i := AfterFetch(d, s), Decode(Fetched(d, s));
    if i.Read? || i.Modify? || i.Write? {
      AccessKeeps(d, t, i, inv);
    } else if i in {Jsr, Jmp, JmpIndirect} {
      JumpKeeps(d, t, i, inv);
    } else {
      OtherKeeps(d, t, i, inv);
    }
  }

  lemma ResetKeeps<M(!new)>(d: Device<M>, s: Sys<M>, inv: M -> bool)
    requires Kept(d, inv) && inv(s.mem)
    ensures inv(Reset(d, s).mem)
  {
    hide Kept, Interrupt;
    PokeKeeps(d, s.mem, 0x4015, 0, inv);
    InterruptKeeps(d, Sys(s.cpu.(lines := s.cpu.lines.(resetPending := true)), d.poke(s.mem, 0x4015, 0)), inv);
  }

  lemma {:induction false} ZeroFillKeeps<M(!new)>(d: Device<M>, m: M, first: Word, end: Word, inv: M -> bool)
    requires Kept(d, inv) && inv(m) && first <= end
    ensures inv(ZeroFill(d, m, first, end))
    decreases end - first
  {
    hide Kept;
    if first < end {
      PokeKeeps(d, m, first, 0, inv);
      ZeroFillKeeps(d, d.poke(m, first, 0), first + 1, end, inv);
    }
  }

  lemma PowerKeeps<M(!new)>(d: Device<M>, s: Sys<M>, inv: M -> bool)
    requires Kept(d, inv) && inv(s.mem)
    ensures inv(PowerOn(d, s).mem)
  {
    hide Kept, Interrupt, ZeroFill;
    var m1 := ZeroFill(d, s.mem, 0, 0x800);
    ZeroFillKeeps(d, s.mem, 0, 0x800, inv);
    PokeKeeps(d, m1, 0x4017, 0, inv);
    PokeKeeps(d, d.poke(m1, 0x4017, 0), 0x4015, 0, inv);
    var m2 := d.poke(d.poke(m1, 0x4017, 0), 0x4015, 0);
    ZeroFillKeeps(d, m2, 0x4000, 0x4013, inv);
    var m3 := ZeroFill(d, m2, 0x4000, 0x4013);
    InterruptKeeps(d,
                   Sys(s.cpu.(regs := Regs(0, 0, 0, 0, CLEAR_FLAGS), lines := s.cpu.lines.(resetPending := true)),
                       m3), inv);
  }
}
