/** The whole machine: CPU, PPU and the CPU bus between them, `Emulator::run` at three dots per cycle and
    `Emulator::run_frame` (emu/core/emulator.cpp, emu/core/emulator.hpp, and the bus mappings of
    emu/core/cpu.cpp, emu/core/ppu.cpp and emu/core/cartridge.cpp). */
module Console {
  import opened Words
  import opened Isa
  import opened CpuModel
  import P = PpuModel
  import R = PpuRaster
  import Interrupts
  import Predictor
  import Stack
  import PpuPort
  import opened BusInvariants
  import CpuCode
  import PpuCode

  // ----- The CPU bus -----

  type Ram = m: seq<Byte> | |m| == 0x800 ghost witness seq(0x800, _ => 0)

  /** Everything the CPU reaches: 2 KiB of RAM, the PPU behind its registers, and program ROM. */
  datatype World = World(ram: Ram, ppu: P.Ppu, prg: seq<Byte>)

  /** `read_prgrom`: the ROM's last 32 KiB, by 16-bit arithmetic; out of range is undefined there, zero here. */
  function PrgRead(prg: seq<Byte>, a: Word): Byte
    requires a >= 0x8000
  {
    var i := (|prg| - 0x8000 + (a - 0x8000)) % 0x10000;
    if i < |prg| then prg[i] else 0
  }

  function Peek(w: World, a: Word): Byte {
    if a < 0x2000 then w.ram[a % 0x800]
    else if a < 0x4000 then P.ReadReg(w.ppu, a % 8).port.latch
    else if a < 0x8000 then 0
    else PrgRead(w.prg, a)
  }

  function Touch(w: World, a: Word): World {
    if 0x2000 <= a < 0x4000 then w.(ppu := P.ReadReg(w.ppu, a % 8)) else w
  }

  function Poke(w: World, a: Word, v: Byte): World {
    if a < 0x2000 then w.(ram := w.ram[a % 0x800 := v])
    else if a < 0x4000 then w.(ppu := P.WriteReg(w.ppu, a % 8, v))
    else w
  }

  const NES: Device<World> := Device(Peek, Touch, Poke)

  /** The console's stack page is a stack: everything in module Stack holds of it. */
  lemma ConsoleStackRam()
    ensures Stack.StackRam(NES)
  {
    hide P.ReadReg, P.WriteReg, Poke, Peek, Touch, StackAddr;
    forall w: World, p: Byte, q: Byte, v: Byte
      ensures NES.peek(NES.poke(w, StackAddr(p), v), StackAddr(q)) == if p == q then v else NES.peek(w, StackAddr(q))
    {
      StackCell(w, p, q, v);
    }
    forall w: World, a: Word, q: Byte
      ensures NES.peek(NES.touch(w, a), StackAddr(q)) == NES.peek(w, StackAddr(q))
    {
      StackUntouched(w, a, q);
    }
  }

  lemma StackCell(w: World, p: Byte, q: Byte, v: Byte)
    ensures Peek(Poke(w, StackAddr(p), v), StackAddr(q)) == if p == q then v else Peek(w, StackAddr(q))
  {
    hide P.ReadReg, P.WriteReg, PrgRead;
    var a, b := StackAddr(p), StackAddr(q);
    assert a % 0x800 == a && b % 0x800 == b && a < 0x800 && b < 0x800;
  }

  lemma StackUntouched(w: World, a: Word, q: Byte)
    ensures Peek(Touch(w, a), StackAddr(q)) == Peek(w, StackAddr(q))
  {
    hide P.ReadReg, P.WriteReg, PrgRead;
  }

  // ----- CPU activity and the raster -----

  lemma RegistersKeepRaster(p: P.Ppu, reg: nat, v: Byte)
    ensures P.ReadReg(p, reg).raster == p.raster && P.WriteReg(p, reg, v).raster == p.raster
  {
    hide P.VideoRead, P.VideoWrite, P.With, P.StatusLatch, P.BitOf;
  }

  /** No register access moves the raster, sets bit 15 of the temporary address, or changes the cartridge. */
  ghost predicate Unmoved(r: P.Raster, prg: seq<Byte>, w: World) {
    w.ppu.raster == r && w.prg == prg && PpuPort.TopClear(w.ppu)
  }

  lemma BusKeepsUnmoved(r: P.Raster, prg: seq<Byte>)
    ensures Kept(NES, (w: World) => Unmoved(r, prg, w))
  {
    hide P.ReadReg, P.WriteReg, PpuPort.TopClear;
    forall w: World, a: Word, v: Byte | Unmoved(r, prg, w)
      ensures Unmoved(r, prg, NES.touch(w, a)) && Unmoved(r, prg, NES.poke(w, a, v))
    {
      RegistersKeepRaster(w.ppu, a % 8, v);
      PpuPort.TopClearAlways(w.ppu, a % 8, v);
    }
    assert forall w: World, a: Word :: Unmoved(r, prg, w) ==> Unmoved(r, prg, NES.touch(w, a)) by {
      forall w: World, a: Word | Unmoved(r, prg, w) ensures Unmoved(r, prg, NES.touch(w, a)) {
        RegistersKeepRaster(w.ppu, a % 8, 0);
        PpuPort.TopClearAlways(w.ppu, a % 8, 0);
      }
    }
  }

  // ----- The emulator -----

  /** CPU, memory and PPU; the CPU cycle the PPU has caught up with; and the frame flag. */
  datatype Emu = Emu(sys: Sys<World>, cycle: nat, nmi: bool)

  function RasterOf(e: Emu): P.Raster {
    e.sys.mem.ppu.raster
  }

  /** CPU cycles the PPU is behind: six per power-up or reset since the last run. */
  ghost function Backlog(e: Emu): int {
    e.sys.cpu.cycles - e.cycle
  }

  ghost predicate Inv(e: Emu) {
    && R.Valid(RasterOf(e))
    && Backlog(e) >= 0
    && Interrupts.Coherent(e.sys.cpu.lines)
    && PpuPort.TopClear(e.sys.mem.ppu)
  }

  /** `n` dots of the PPU; the start of vertical blanking raises the CPU's NMI. */
  function CatchUp(s: Sys<World>, n: nat): Sys<World> {
    var t := s.(mem := s.mem.(ppu := P.Dots(s.mem.ppu, n)));
    if R.Vblanks(s.mem.ppu.raster, n) > 0 then FireNmi(t) else t
  }

  function DotsDue(e: Emu): (n: nat)
    requires e.cycle <= e.sys.cpu.cycles
    ensures n == 3 * (Run(NES, e.sys).cpu.cycles - e.cycle) && n >= 3
  {
    Predictor.StepCost(NES, e.sys);
    3 * (Run(NES, e.sys).cpu.cycles - e.cycle)
  }

  /** `Emulator::run`. */
  function EmuRun(e: Emu): Emu
    requires e.cycle <= e.sys.cpu.cycles
  {
    var s, n := Run(NES, e.sys), DotsDue(e);
    Emu(CatchUp(s, n), s.cpu.cycles, e.nmi || R.Vblanks(s.mem.ppu.raster, n) > 0)
  }

  lemma {:induction false} DotsMoveRaster(p: P.Ppu, n: nat)
    ensures P.Dots(p, n).raster == R.RasterDots(p.raster, n)
    ensures PpuPort.TopClear(p) ==> PpuPort.TopClear(P.Dots(p, n))
    decreases n
  {
    hide P.RasterDot, P.ScrollDot, P.FetchCycle, P.StatusDot;
    if n > 0 {
      DotsMoveRaster(P.Dot(p), n - 1);
    }
  }

  lemma StepLeavesRaster(s: Sys<World>)
    requires PpuPort.TopClear(s.mem.ppu)
    ensures Unmoved(s.mem.ppu.raster, s.mem.prg, Run(NES, s).mem)
  {
    hide Run;
    var inv := (w: World) => Unmoved(s.mem.ppu.raster, s.mem.prg, w);
    BusKeepsUnmoved(s.mem.ppu.raster, s.mem.prg);
    RunKeeps(NES, s, inv);
  }

  /** One run: the raster advances by three dots per CPU cycle, the PPU is caught up, and blanking raises both
      the CPU's NMI and the frame flag. */
  lemma RunAdvances(e: Emu)
    requires Inv(e)
    ensures var f, n := EmuRun(e), DotsDue(e);
            && Inv(f) && Backlog(f) == 0
            && RasterOf(f) == R.RasterDots(RasterOf(e), n)
            && 3 * (Backlog(e) + 1) <= n == 3 * (f.cycle - e.cycle) <= 3 * (Backlog(e) + 7)
            && f.nmi == (e.nmi || R.Vblanks(RasterOf(e), n) > 0)
            && (R.Vblanks(RasterOf(e), n) > 0 ==> f.sys.cpu.lines.nmiPending)
  {
    hide Run, P.Dots, R.Vblanks, R.RasterDots, R.Valid, PpuPort.TopClear;
    Predictor.StepCost(NES, e.sys);
    StepLeavesRaster(e.sys);
    var s := Run(NES, e.sys);
    Interrupts.EventKeepsCoherence(NES, e.sys, Interrupts.StepEvent);
    assert Interrupts.After(NES, e.sys, Interrupts.StepEvent) == s;
    DotsMoveRaster(s.mem.ppu, DotsDue(e));
    R.RunCounts(RasterOf(e), DotsDue(e));
  }

  // ----- run_frame -----

  ghost function DotsLeft(e: Emu): nat
    requires Inv(e)
  {
    if e.nmi then 0 else R.DotsToVblank(RasterOf(e))
  }

  lemma RunApproachesVblank(e: Emu)
    requires Inv(e) && !e.nmi
    ensures Inv(EmuRun(e))
    ensures EmuRun(e).nmi <==> DotsDue(e) >= DotsLeft(e)
    ensures DotsLeft(EmuRun(e)) < DotsLeft(e)
    ensures !EmuRun(e).nmi ==> DotsLeft(EmuRun(e)) == DotsLeft(e) - DotsDue(e)
  {
    hide EmuRun, DotsDue, R.Vblanks, R.RasterDots;
    RunAdvances(e);
    var r, n := RasterOf(e), DotsDue(e);
    R.VblankReached(r, n);
    if n < R.DotsToVblank(r) {
      QuietDots(r, n);
    }
  }

  /** Short of blanking, dots to it count down one by one. */
  lemma {:induction false} QuietDots(r: P.Raster, n: nat)
    requires R.Valid(r) && n < R.DotsToVblank(r)
    ensures R.Valid(R.RasterDots(r, n)) && R.DotsToVblank(R.RasterDots(r, n)) == R.DotsToVblank(r) - n
    decreases n
  {
    hide P.RasterDot;
    if n > 0 {
      R.DotKeepsValid(r);
      QuietDots(P.RasterDot(r), n - 1);
    }
  }

  /** `Emulator::run_frame`: run until the frame flag is up, then lower it. It always ends. */
  ghost function Frame(e: Emu): Emu
    requires Inv(e)
    decreases DotsLeft(e)
  {
    if e.nmi then e.(nmi := false)
    else
      RunApproachesVblank(e);
      Frame(EmuRun(e))
  }

  /** Beginnings of vertical blanking during `run_frame`. */
  ghost function FrameVblanks(e: Emu): nat
    requires Inv(e)
    decreases DotsLeft(e)
  {
    if e.nmi then 0
    else
      RunApproachesVblank(e);
      R.Vblanks(RasterOf(e), DotsDue(e)) + FrameVblanks(EmuRun(e))
  }

  /** Dots and CPU cycles spent in `run_frame`. */
  ghost function FrameDots(e: Emu): nat
    requires Inv(e)
    decreases DotsLeft(e)
  {
    if e.nmi then 0
    else
      RunApproachesVblank(e);
      DotsDue(e) + FrameDots(EmuRun(e))
  }

  /** A frame that is not already flagged crosses the start of blanking exactly once, unless the first run has to
      make up for so many resets that it crosses several by itself. */
  lemma {:induction false} FrameCrossesVblankOnce(e: Emu)
    requires Inv(e)
    ensures Inv(Frame(e)) && !Frame(e).nmi
    ensures FrameVblanks(e) == if e.nmi then 0 else Max(1, R.Vblanks(RasterOf(e), DotsDue(e)))
    ensures !e.nmi && 3 * (Backlog(e) + 7) <= 89341 ==> FrameVblanks(e) == 1
    decreases DotsLeft(e)
  {
    hide EmuRun, R.Vblanks, R.RasterDots, R.Valid, R.DotsToVblank;
    if !e.nmi {
      RunAdvances(e);
      RunApproachesVblank(e);
      var f := EmuRun(e);
      FrameCrossesVblankOnce(f);
      if !f.nmi {
        RunAdvances(f);
        R.AtMostOne(RasterOf(f), DotsDue(f));
      }
      if 3 * (Backlog(e) + 7) <= 89341 {
        R.AtMostOne(RasterOf(e), DotsDue(e));
      }
    }
  }

  function Max(a: int, b: int): int {
    if a >= b then a else b
  }

  /** Over a frame the PPU makes exactly three dots per CPU cycle, just enough to reach blanking, give or take the
      last instruction. */
  lemma {:induction false} FrameLength(e: Emu)
    requires Inv(e) && !e.nmi
    ensures FrameDots(e) == 3 * (Frame(e).cycle - e.cycle)
    ensures DotsLeft(e) <= FrameDots(e) <= Max(DotsLeft(e) + 20, DotsDue(e))
    decreases DotsLeft(e)
  {
    hide EmuRun, R.Vblanks, R.RasterDots, R.Valid, R.DotsToVblank;
    RunAdvances(e);
    RunApproachesVblank(e);
    var f := EmuRun(e);
    if !f.nmi {
      FrameLength(f);
      RunAdvances(f);
    }
  }

  // ----- Power, reset, and every reachable state -----

  /** `Emulator::power`: the CPU first, then the PPU. */
  function EmuPower(e: Emu): Emu {
    var s := PowerOn(NES, e.sys);
    e.(sys := s.(mem := s.mem.(ppu := P.Power(s.mem.ppu))))
  }

  /** `Emulator::reset`. */
  function EmuReset(e: Emu): Emu {
    var s := Reset(NES, e.sys);
    e.(sys := s.(mem := s.mem.(ppu := P.Reset(s.mem.ppu))))
  }

  /** No bus access changes the cartridge. */
  lemma BusKeepsCartridge(prg: seq<Byte>)
    ensures Kept(NES, (w: World) => w.prg == prg)
  {
    hide P.ReadReg, P.WriteReg;
  }

  /** Power-up establishes the invariant from any memory contents, owing the PPU the six cycles it took, and keeps the
      cartridge. */
  lemma PowerEstablishes(e: Emu)
    requires Backlog(e) >= 0 && Interrupts.Coherent(e.sys.cpu.lines)
    ensures Inv(EmuPower(e)) && Backlog(EmuPower(e)) == Backlog(e) + 6 && EmuPower(e).nmi == e.nmi
    ensures EmuPower(e).sys.mem.prg == e.sys.mem.prg
  {
    hide ZeroFill, Pointer, AfterPointer, Pack, Pushed, Poke;
    BusKeepsCartridge(e.sys.mem.prg);
    PowerKeeps(NES, e.sys, (w: World) => w.prg == e.sys.mem.prg);
  }

  lemma ResetKeepsInv(e: Emu)
    requires Inv(e)
    ensures Inv(EmuReset(e)) && Backlog(EmuReset(e)) == Backlog(e) + 6 && EmuReset(e).nmi == e.nmi
  {
    hide Pointer, AfterPointer, Pack, Pushed, Poke, PpuPort.TopClear;
    var r, prg := RasterOf(e), e.sys.mem.prg;
    BusKeepsUnmoved(r, prg);
    ResetKeeps(NES, e.sys, (w: World) => Unmoved(r, prg, w));
    PpuPort.TopClearAlways(Reset(NES, e.sys).mem.ppu, 0, 0);
  }

  datatype Control = RunCall | FrameCall | PowerCall | ResetCall

  ghost function Controlled(e: Emu, c: Control): Emu
    requires Inv(e)
  {
    match c
    case RunCall => EmuRun(e)
    case FrameCall => Frame(e)
    case PowerCall => EmuPower(e)
    case ResetCall => EmuReset(e)
  }

  /** Dots the PPU makes during a call. */
  ghost function ControlDots(e: Emu, c: Control): nat
    requires Inv(e)
  {
    match c
    case RunCall => DotsDue(e)
    case FrameCall => FrameDots(e)
    case PowerCall => 0
    case ResetCall => 0
  }

  lemma ControlKeepsInv(e: Emu, c: Control)
    requires Inv(e)
    ensures Inv(Controlled(e, c))
    ensures ControlDots(e, c) == 3 * (Controlled(e, c).cycle - e.cycle)
    ensures c in {RunCall, FrameCall} && (c == FrameCall ==> !e.nmi) ==> Backlog(Controlled(e, c)) == 0
  {
    hide EmuRun, EmuPower, EmuReset;
    match c
    case RunCall => RunAdvances(e);
    case FrameCall =>
      FrameCrossesVblankOnce(e);
      if !e.nmi {
        FrameLength(e);
        FrameSynced(e);
      }
    case PowerCall => PowerEstablishes(e); PowerKeepsCycle(e);
    case ResetCall => ResetKeepsInv(e); PowerKeepsCycle(e);
  }

  lemma PowerKeepsCycle(e: Emu)
    ensures EmuPower(e).cycle == e.cycle && EmuReset(e).cycle == e.cycle
  {
    hide PowerOn, Reset, P.Power, P.Reset;
  }

  lemma {:induction false} FrameSynced(e: Emu)
    requires Inv(e) && !e.nmi
    ensures Backlog(Frame(e)) == 0
    decreases DotsLeft(e)
  {
    hide EmuRun, R.DotsToVblank;
    RunAdvances(e);
    RunApproachesVblank(e);
    if !EmuRun(e).nmi {
      FrameSynced(EmuRun(e));
    }
  }

  ghost function Session(e: Emu, cs: seq<Control>): Emu
    requires Inv(e)
    decreases |cs|
  {
    if cs == [] then e
    else
      ControlKeepsInv(e, cs[0]);
      Session(Controlled(e, cs[0]), cs[1..])
  }

  ghost function SessionDots(e: Emu, cs: seq<Control>): nat
    requires Inv(e)
    decreases |cs|
  {
    if cs == [] then 0
    else
      ControlKeepsInv(e, cs[0]);
      ControlDots(e, cs[0]) + SessionDots(Controlled(e, cs[0]), cs[1..])
  }

  /** Through any sequence of calls the invariant holds and dots stay at three per accounted CPU cycle. */
  lemma {:induction false} SessionKeepsInv(e: Emu, cs: seq<Control>)
    requires Inv(e)
    ensures Inv(Session(e, cs))
    ensures SessionDots(e, cs) == 3 * (Session(e, cs).cycle - e.cycle)
    decreases |cs|
  {
    hide Controlled, ControlDots, Inv;
    if cs != [] {
      ControlKeepsInv(e, cs[0]);
      SessionKeepsInv(Controlled(e, cs[0]), cs[1..]);
    }
  }

  // ----- From the raster to the handler -----

  /** When a run crosses the start of blanking, the CPU's next run enters the NMI handler if an interrupt was due
      or the next opcode is BRK, and otherwise the one after does, provided the next opcode is documented. */
  lemma VblankReachesHandler(e: Emu)
    requires Inv(e) && R.Vblanks(RasterOf(e), DotsDue(e)) > 0
    ensures var f := EmuRun(e);
            var opcode := Decode(Fetched(NES, f.sys));
            && f.cycle <= f.sys.cpu.cycles
            && (Interrupts.RunsSequence(NES, f.sys) ==> Interrupts.EntersNmi(NES, f.sys))
            && (!Interrupts.RunsSequence(NES, f.sys) && opcode != Unknown ==> Interrupts.EntersNmi(NES, EmuRun(f).sys))
  {
    hide EmuRun, Run, Decode, R.Vblanks;
    RunAdvances(e);
    var f := EmuRun(e);
    if !Interrupts.RunsSequence(NES, f.sys) && Decode(Fetched(NES, f.sys)) != Unknown {
      Interrupts.PendingPersists(NES, f.sys);
      DotsKeepLines(f);
    }
  }

  lemma DotsKeepLines(e: Emu)
    requires Inv(e) && Run(NES, e.sys).cpu.lines.execNmi && Run(NES, e.sys).cpu.lines.nmiPending
    requires !Run(NES, e.sys).cpu.lines.resetPending
    ensures EmuRun(e).sys.cpu.lines == Run(NES, e.sys).cpu.lines
  {
    hide Run, P.Dots, R.Vblanks;
  }

  // ----- The object -----

  class Emulator {
    const cpu: CpuCode.CPU<World>
    var cycle: nat
    var nmi: bool

    constructor (world: World)
      ensures fresh(cpu) && cpu.bus == NES
      ensures cpu.State().mem == world && cycle == 0 && !nmi
    {
      cpu := new CpuCode.CPU(NES, world);
      cycle, nmi := 0, false;
    }

    ghost function State(): Emu
      reads this, cpu
    {
      Emu(cpu.State(), cycle, nmi)
    }

    ghost predicate Valid()
      reads this, cpu
    {
      cpu.bus == NES && Inv(State())
    }

    /** The PPU is handed its state, runs its dots, and hands it back. */
    method RunPpu(dots: nat)
      requires cpu.bus == NES
      modifies this`nmi, cpu
      ensures cpu.State() == CatchUp(old(cpu.State()), dots)
      ensures nmi == (old(nmi) || R.Vblanks(old(cpu.State()).mem.ppu.raster, dots) > 0)
    {
      hide P.Dot, P.RasterDot, P.Fires;
      ghost var start := cpu.State();
      var p0 := cpu.mem.ppu;
      var ppu := new PpuCode.PPU(p0);
      ghost var fired := 0;
      for i := 0 to dots
        invariant P.Dots(ppu.State(), dots - i) == P.Dots(p0, dots)
        invariant fired + R.Vblanks(ppu.State().raster, dots - i) == R.Vblanks(p0.raster, dots)
        invariant fresh(ppu)
        invariant fired >= 0 && nmi == (old(nmi) || fired > 0)
        invariant cpu.State() == if fired > 0 then FireNmi(start) else start
      {
        DotRaster(ppu.State());
        var fires := ppu.Run();
        if fires {
          nmi := true;
          cpu.RaiseNmi();
          fired := fired + 1;
        }
      }
      var end := ppu.Snapshot();
      cpu.mem := cpu.mem.(ppu := end);
    }

    method Run()
      requires Valid()
      modifies this, cpu
      ensures Valid() && State() == EmuRun(old(State()))
    {
      hide CpuModel.Run, CatchUp, P.Dots, R.Vblanks;
      RunAdvances(State());
      cpu.Step();
      var current := cpu.cycles;
      Predictor.StepCost(NES, old(cpu.State()));
      var difference := current - cycle;
      RunPpu(difference * 3);
      cycle := current;
    }

    method RunFrame(debuggerHasQuit: bool)
      requires Valid()
      modifies this, cpu
      ensures Valid()
      ensures State() == if debuggerHasQuit then old(State()) else Frame(old(State()))
    {
      hide EmuRun, Inv, R.DotsToVblank;
      if debuggerHasQuit {
        return;
      }
      while !nmi
        invariant Valid() && Frame(State()) == Frame(old(State()))
        decreases DotsLeft(State())
      {
        RunApproachesVblank(State());
        Run();
      }
      FrameCrossesVblankOnce(State());
      nmi := false;
    }
  }

  lemma DotRaster(p: P.Ppu)
    ensures P.Dot(p).raster == P.RasterDot(p.raster)
  {
    hide P.RasterDot, P.ScrollDot, P.FetchCycle, P.StatusDot;
  }
}
