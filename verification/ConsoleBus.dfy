/** The CPU bus as the emulator wires it (emu/core/cpu.cpp, emu/core/ppu.cpp, emu/core/cartridge.cpp): after the five
    `map` calls the table dispatches every address to the handler that the console's memory functions model. */
module ConsoleBus {
  import opened Words
  import opened BusTable
  import opened Console
  import P = PpuModel

  datatype Handler = RamHandler | SoundHandler | PpuHandler | ExpansionHandler | ProgramHandler

  /** What each pair of lambdas does. */
  function ReadBy(h: Handler, w: World, a: Word): Byte
    requires h == ProgramHandler ==> a >= 0x8000
  {
    match h
    case RamHandler => w.ram[a % 0x800]
    case SoundHandler => 0
    case PpuHandler => P.ReadReg(w.ppu, a % 8).port.latch
    case ExpansionHandler => 0
    case ProgramHandler => PrgRead(w.prg, a)
  }

  function AfterReadBy(h: Handler, w: World, a: Word): World {
    if h == PpuHandler then w.(ppu := P.ReadReg(w.ppu, a % 8)) else w
  }

  function AfterWriteBy(h: Handler, w: World, a: Word, v: Byte): World {
    match h
    case RamHandler => w.(ram := w.ram[a % 0x800 := v])
    case PpuHandler => w.(ppu := P.WriteReg(w.ppu, a % 8, v))
    case _ => w
  }

  /** The mappings in the order of the calls: CPU, PPU, cartridge. */
  function Wiring(): seq<Area<Handler, Handler>> {
    [Area(0x0000, 0x2000, RamHandler, RamHandler), Area(0x4000, 0x4020, SoundHandler, SoundHandler),
     Area(0x2000, 0x4000, PpuHandler, PpuHandler),
     Area(0x4020, 0x8000, ExpansionHandler, ExpansionHandler), Area(0x8000, 0x10000, ProgramHandler, ProgramHandler)]
  }

  /** The calls themselves. */
  method Connect() returns (bus: Bus<Handler, Handler>)
    ensures bus.Valid() && bus.areas == Wiring() && bus.lookup.Length == 0x10000
  {
    bus := new Bus(0x10000);
    bus.Map(0x0000, 0x2000, RamHandler, RamHandler);
    bus.Map(0x4000, 0x4020, SoundHandler, SoundHandler);
    bus.Map(0x2000, 0x4000, PpuHandler, PpuHandler);
    bus.Map(0x4020, 0x8000, ExpansionHandler, ExpansionHandler);
    bus.Map(0x8000, 0x10000, ProgramHandler, ProgramHandler);
  }

  function AreaOf(a: Word): nat {
    if a < 0x2000 then 0 else if a < 0x4000 then 2 else if a < 0x4020 then 1 else if a < 0x8000 then 3 else 4
  }

  /** The five areas cover every address once. */
  lemma WiringAt(a: Word)
    ensures Covered(Wiring(), a) && Latest(Wiring(), a) == AreaOf(a)
  {
    hide Latest;
    LatestUnique(Wiring(), a, AreaOf(a));
  }

  /** Dispatch through the table is what `Peek`, `Touch` and `Poke` say, at every address. */
  lemma TableIsBus(w: World, a: Word, v: Byte)
    ensures Covered(Wiring(), a)
    ensures var (reader, writer) := Handlers(Wiring(), a);
            && (reader == ProgramHandler ==> a >= 0x8000)
            && NES.peek(w, a) == ReadBy(reader, w, a)
            && NES.touch(w, a) == AfterReadBy(reader, w, a)
            && NES.poke(w, a, v) == AfterWriteBy(writer, w, a, v)
  {
    hide Latest, P.ReadReg, P.WriteReg, PrgRead;
    WiringAt(a);
  }
}
