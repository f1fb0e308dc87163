/** Where execution starts: memory, registers and PC after power-up and reset, on flat memory and on the console; what
    the console's addresses reach, and the bytes program ROM shows at the top of the address space. */
module PowerUp {
  import opened Words
  import opened CpuModel
  import opened FlatMemory
  import opened InstructionSet
  import opened InstructionGroups
  import opened Console

  // ----- Flat memory -----

  /** `reset` saves PC and status, masks interrupts and goes to the word at 0xFFFC; the APU register is cleared. */
  lemma ResetStarts(s: Sys<Flat>)
    ensures var t, r, back := Reset(FLAT, s), s.cpu.regs, s.cpu.pc;
            && t.cpu.pc == WordOf(s.mem[0xFFFC], s.mem[0xFFFD])
            && t.cpu.regs == r.(sp := (r.sp - 3) % 256, flags := r.flags.(breakf := false, intdis := true))
            && 0 <= StatusByte(r.flags) < 256
            && t.mem == s.mem[0x4015 := 0][0x100 + r.sp := back / 256][0x100 + (r.sp - 1) % 256 := back % 256]
                             [0x100 + (r.sp - 2) % 256 := StatusByte(r.flags)]
  {
    hide Interrupt, StatusByte;
    InterruptEnters(Sys(s.cpu.(lines := s.cpu.lines.(resetPending := true)), s.mem[0x4015 := 0]));
  }

  lemma {:induction false} FlatFill(m: Flat, first: Word, end: Word) returns (z: Flat)
    requires first <= end
    ensures z == ZeroFill(FLAT, m, first, end)
    ensures forall a: nat :: a < 0x10000 ==> z[a] == if first <= a < end then 0 else m[a]
    decreases end - first
  {
    if first < end {
      var m' := FlatPoke(m, first, 0);
      assert ZeroFill(FLAT, m, first, end) == ZeroFill(FLAT, m', first + 1, end);
      z := FlatFill(m', first + 1, end);
    } else {
      z := m;
    }
  }

  /** The status byte `power` leaves on the stack: only the unused bit. */
  lemma ClearStatus()
    ensures StatusByte(CLEAR_FLAGS) == 0x20
  {
  }

  /** What `power` leaves at RAM address `a` when the PC was `back`. */
  ghost function PoweredByte(back: Word, a: Word): Byte {
    if a == 0x100 then back / 256 else if a == 0x1FF then back % 256 else if a == 0x1FE then 0x20 else 0
  }

  /** After `power` the 2 KiB of RAM are zero but for the three bytes of the reset sequence, pushed from stack pointer
      0; the APU registers are clear, other memory is as it was, and the PC is the word at 0xFFFC. */
  lemma PowerStarts(s: Sys<Flat>)
    ensures var t := PowerOn(FLAT, s);
            && t.cpu.pc == WordOf(s.mem[0xFFFC], s.mem[0xFFFD])
            && t.cpu.regs == Regs(0, 0, 0, 0xFD, CLEAR_FLAGS.(intdis := true))
            && (forall a: nat :: a < 0x10000 ==>
                 t.mem[a] == if a < 0x800 then PoweredByte(s.cpu.pc, a)
                             else if 0x4000 <= a < 0x4013 || a == 0x4015 || a == 0x4017 then 0
                             else s.mem[a])
  {
    hide Interrupt, ZeroFill, StatusByte;
    var m1 := FlatFill(s.mem, 0, 0x800);
    var m2 := FlatPoke(FlatPoke(m1, 0x4017, 0), 0x4015, 0);
    var m3 := FlatFill(m2, 0x4000, 0x4013);
    ClearStatus();
    var c := s.cpu.(regs := Regs(0, 0, 0, 0, CLEAR_FLAGS), lines := s.cpu.lines.(resetPending := true));
    assert PowerOn(FLAT, s) == Interrupt(FLAT, Sys(c, m3));
    InterruptEnters(Sys(c, m3));
  }

  // ----- The console -----

  lemma {:induction false} RamFill(w: World, first: Word, end: Word)
    requires first <= end <= 0x800
    ensures var z := ZeroFill(NES, w, first, end);
            && z == w.(ram := z.ram)
            && forall a: nat :: a < 0x800 ==> z.ram[a] == if first <= a < end then 0 else w.ram[a]
    decreases end - first
  {
    if first < end {
      RamFill(w.(ram := w.ram[first := 0]), first + 1, end);
    }
  }

  lemma {:induction false} ApuFill(w: World, first: Word, end: Word)
    requires 0x4000 <= first <= end
    ensures ZeroFill(NES, w, first, end) == w
    decreases end - first
  {
    if first < end {
      ApuFill(w, first + 1, end);
    }
  }

  lemma ConsoleEnters(s: Sys<World>)
    requires s.cpu.lines.resetPending
    ensures var t, r, back := Interrupt(NES, s), s.cpu.regs, s.cpu.pc;
            && t.cpu.pc == WordOf(PrgRead(s.mem.prg, 0xFFFC), PrgRead(s.mem.prg, 0xFFFD))
            && 0 <= StatusByte(r.flags) < 256
            && t.mem == s.mem.(ram := s.mem.ram[0x100 + r.sp := back / 256][0x100 + (r.sp - 1) % 256 := back % 256]
                                               [0x100 + (r.sp - 2) % 256 := StatusByte(r.flags)])
  {
    hide Pack, StatusByte, PrgRead, Peek, Touch, Poke, High, Low;
    var sp, pc := s.cpu.regs.sp, s.cpu.pc;
    PackIs(s.cpu.regs.flags);
    var m1 := PushedInRam(s.mem, sp, High(pc));
    var m2 := PushedInRam(m1, Down(sp), Low(pc));
    var m3 := PushedInRam(m2, Down(Down(sp)), Pack(s.cpu.regs.flags));
    TopIsRom(m3);
    HalvesOf(pc);
  }

  lemma HalvesOf(pc: Word)
    ensures High(pc) == pc / 256 && Low(pc) == pc % 256
  {
  }

  lemma PushedInRam(w: World, sp: Byte, v: Byte) returns (u: World)
    ensures u == NES.poke(w, StackAddr(sp), v) && u == w.(ram := w.ram[0x100 + sp := v])
  {
    hide P.WriteReg;
    u := w.(ram := w.ram[0x100 + sp := v]);
  }

  /** Reading the reset vector reads program ROM and has no effect. */
  lemma TopIsRom(w: World)
    ensures NES.touch(w, 0xFFFC) == w && NES.touch(w, 0xFFFD) == w
    ensures NES.peek(w, 0xFFFC) == PrgRead(w.prg, 0xFFFC) && NES.peek(w, 0xFFFD) == PrgRead(w.prg, 0xFFFD)
  {
    hide P.ReadReg, PrgRead;
  }

  /** On the console: execution starts at the word program ROM shows at 0xFFFC, in RAM cleared but for the three
      bytes. */
  lemma ConsoleStarts(s: Sys<World>)
    ensures var t := PowerOn(NES, s);
            && t.cpu.pc == WordOf(PrgRead(s.mem.prg, 0xFFFC), PrgRead(s.mem.prg, 0xFFFD))
            && t.mem == s.mem.(ram := t.mem.ram)
            && forall a: nat :: a < 0x800 ==> t.mem.ram[a] == PoweredByte(s.cpu.pc, a)
  {
    hide Interrupt, ZeroFill, StatusByte, PrgRead;
    var m1 := ZeroFill(NES, s.mem, 0, 0x800);
    RamFill(s.mem, 0, 0x800);
    ApuFill(m1, 0x4000, 0x4013);
    ClearStatus();
    ConsoleEnters(Sys(s.cpu.(regs := Regs(0, 0, 0, 0, CLEAR_FLAGS), lines := s.cpu.lines.(resetPending := true)), m1));
  }

  /** `reset` keeps RAM but for the three bytes and starts at the same word. */
  lemma ConsoleRestarts(s: Sys<World>)
    ensures var t, r, back := Reset(NES, s), s.cpu.regs, s.cpu.pc;
            && t.cpu.pc == WordOf(PrgRead(s.mem.prg, 0xFFFC), PrgRead(s.mem.prg, 0xFFFD))
            && 0 <= StatusByte(r.flags) < 256
            && t.mem == s.mem.(ram := s.mem.ram[0x100 + r.sp := back / 256][0x100 + (r.sp - 1) % 256 := back % 256]
                                               [0x100 + (r.sp - 2) % 256 := StatusByte(r.flags)])
  {
    hide Interrupt, StatusByte, PrgRead;
    ConsoleEnters(Sys(s.cpu.(lines := s.cpu.lines.(resetPending := true)), s.mem));
  }

  // ----- The address space -----

  /** RAM shows at four places: a byte written at `a` is read at every address 0x800 apart, and no other byte
      changes. */
  lemma RamMirrored(w: World, a: Word, v: Byte, b: Word)
    requires a < 0x2000 && b < 0x2000
    ensures Peek(Poke(w, a, v), b) == if (a - b) % 0x800 == 0 then v else Peek(w, b)
    ensures Touch(w, a) == w
  {
    SameCell(a, b);
  }

  lemma SameCell(a: Word, b: Word)
    ensures a % 0x800 == b % 0x800 <==> (a - b) % 0x800 == 0
  {
  }

  /** The eight PPU registers repeat up to 0x3FFF. */
  lemma RegistersMirrored(w: World, a: Word, v: Byte)
    requires 0x2000 <= a < 0x4000
    ensures var r := 0x2000 + a % 8;
            Peek(w, a) == Peek(w, r) && Touch(w, a) == Touch(w, r) && Poke(w, a, v) == Poke(w, r, v)
    ensures Poke(w, a, v).ram == w.ram && Touch(w, a).ram == w.ram
  {
    hide P.ReadReg, P.WriteReg;
    assert (0x2000 + a % 8) % 8 == a % 8;
  }

  /** Above them nothing is written and reading has no effect; below program ROM zero is read. */
  lemma UpperFixed(w: World, a: Word, v: Byte)
    requires a >= 0x4000
    ensures Poke(w, a, v) == w && Touch(w, a) == w
    ensures a < 0x8000 ==> Peek(w, a) == 0
  {
    hide P.ReadReg, P.WriteReg;
  }

  // ----- Program ROM -----

  /** A ROM of 32 KiB lies at 0x8000 byte for byte. */
  lemma RomInPlace(prg: seq<Byte>, i: nat)
    requires |prg| == 0x8000 && i < 0x8000
    ensures PrgRead(prg, 0x8000 + i) == prg[i]
  {
  }

  /** The ROM ends at the top of the address space. */
  ghost predicate EndsAtTop(prg: seq<Byte>) {
    forall a: Word :: 0x8000 <= a && 0x10000 - a <= |prg| ==> PrgRead(prg, a) == prg[|prg| - (0x10000 - a)]
  }

  /** That holds of every ROM up to 64 KiB, shorter ones included; a larger one loses it to the 16-bit sum. */
  lemma EndsAtTopExact(size: nat)
    ensures (forall prg: seq<Byte> :: |prg| == size ==> EndsAtTop(prg)) <==> size <= 0x10000
  {
    if size <= 0x10000 {
      forall prg: seq<Byte> | |prg| == size
        ensures EndsAtTop(prg)
      {
      }
    } else {
      var prg: seq<Byte> := seq(size, i => if i == size - 1 then 1 else 0);
      LargeRom(prg, 0xFFFF);
      assert !EndsAtTop(prg);
    }
  }

  /** A ROM above 64 KiB is read within its first 64 KiB only. */
  lemma LargeRom(prg: seq<Byte>, a: Word)
    requires |prg| > 0x10000 && a >= 0x8000
    ensures PrgRead(prg, a) == prg[(|prg| - (0x10000 - a)) % 0x10000]
  {
  }
}
