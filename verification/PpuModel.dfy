/** What the PPU of emu/core/ppu.cpp and emu/core/ppumain.cpp does per raster dot and per register access, as
    functions. Pixel output and the shift registers are not part of this model. */
module PpuModel {
  import opened Words
  import opened Bits

  // ----- State -----

  datatype Raster = Raster(cycles: nat, lines: nat, oddFrame: bool)

  datatype Ctrl = Ctrl(vramInc: bool, spPtAddr: bool, bgPtAddr: bool, spSize: bool, extBusDir: bool, nmiEnabled: bool)

  datatype MaskReg = MaskReg(grey: bool, bgShowLeft: bool, spShowLeft: bool, bgShow: bool, spShow: bool,
                             red: bool, green: bool, blue: bool)

  datatype Status = Status(spOverflow: bool, spZeroHit: bool, vblank: bool)

  datatype Port = Port(latch: Byte, oamAddr: Byte, scrollLatch: bool, dataBuf: Byte)

  /** The address registers: `vram.addr`, `vram.tmp` and fine X. */
  datatype Scroll = Scroll(v: Word, t: Word, fineX: Byte)

  datatype Tile = Tile(nt: Byte, attr: Byte, low: Byte, high: Byte)

  datatype Mirroring = Vert | Horz

  type Vram = m: seq<Byte> | |m| == 0x800 ghost witness seq(0x800, _ => 0)
  type Palette = m: seq<Byte> | |m| == 0x20 ghost witness seq(0x20, _ => 0)

  /** What the PPU bus reaches: nametable memory under the cartridge's mirroring, palette, pattern ROM. */
  datatype Video = Video(vram: Vram, pal: Palette, chr: seq<Byte>, mirroring: Mirroring)

  datatype Ppu = Ppu(raster: Raster, ctrl: Ctrl, mask: MaskReg, status: Status, port: Port, scroll: Scroll,
                     tile: Tile, video: Video)

  // ----- Fields of the VRAM address: FFFNNYYYYYXXXXX -----

  function CoarseX(v: nat): nat {
    Get(v, 0, 5)
  }

  function CoarseY(v: nat): nat {
    Get(v, 5, 5)
  }

  function Nt(v: nat): nat {
    Get(v, 10, 2)
  }

  function FineY(v: nat): nat {
    Get(v, 12, 3)
  }

  /** `v` with `k` bits at `b` replaced. */
  function With(v: Word, b: nat, k: nat, d: nat): Word
    requires b + k <= 16
  {
    WordPowers();
    PutStaysInWord(16, v, b, k, d);
    Put(v, b, k, d)
  }

  function WithCoarseX(v: Word, d: nat): Word {
    With(v, 0, 5, d)
  }

  function WithCoarseY(v: Word, d: nat): Word {
    With(v, 5, 5, d)
  }

  function WithNt(v: Word, d: nat): Word {
    With(v, 10, 2, d)
  }

  function WithFineY(v: Word, d: nat): Word {
    With(v, 12, 3, d)
  }

  /** `n ^ 1` and `n ^ 2` for a two-bit `n`. */
  function FlipLow(n: nat): nat {
    if n % 2 == 0 then n + 1 else n - 1
  }

  function FlipHigh(n: nat): nat {
    if n / 2 % 2 == 0 then n + 2 else n - 2
  }

  /** `setbit(n, 0, b & 1)` and `setbit(n, 1, b >> 1 & 1)` for two-bit values. */
  function LowFrom(n: nat, b: nat): nat {
    n - n % 2 + b % 2
  }

  function HighFrom(n: nat, b: nat): nat {
    n % 2 + 2 * (b / 2 % 2)
  }

  // ----- Scrolling -----

  function IncHorz(v: Word): Word {
    if CoarseX(v) == 31 then WithNt(WithCoarseX(v, 0), FlipLow(Nt(v))) else WithCoarseX(v, CoarseX(v) + 1)
  }

  function IncVert(v: Word): Word {
    if FineY(v) < 7 then WithFineY(v, FineY(v) + 1)
    else
      var w := WithFineY(v, 0);
      if CoarseY(v) == 29 then WithCoarseY(WithNt(w, FlipHigh(Nt(v))), 0)
      else if CoarseY(v) == 31 then WithCoarseY(w, 0)
      else WithCoarseY(w, CoarseY(v) + 1)
  }

  function CopyHorz(v: Word, t: Word): Word {
    var w := WithCoarseX(v, t);
    WithNt(w, LowFrom(Nt(w), Nt(t)))
  }

  /** The source's bit fields are assigned whole: the value stored is the low bits of `t`, not its field. */
  function CopyVert(v: Word, t: Word): Word {
    var w := WithFineY(WithCoarseY(v, t), t);
    WithNt(w, HighFrom(Nt(w), Nt(t)))
  }

  predicate Rendering(line: nat) {
    line < 240 || line == 261
  }

  predicate Fetching(cycle: nat) {
    1 <= cycle <= 256 || 321 <= cycle <= 340
  }

  /** `v` after one entry of the cycle table, background shown. */
  function ScrollCycle(v: Word, t: Word, cycle: nat): Word {
    if cycle == 256 then IncVert(v)
    else if cycle == 257 then CopyHorz(v, t)
    else if Fetching(cycle) && cycle % 8 == 0 then IncHorz(v)
    else v
  }

  /** `v` after the dot at (line, cycle), background shown. */
  function ScrollDot(v: Word, t: Word, line: nat, cycle: nat): Word {
    if line == 261 && 280 <= cycle <= 304 then CopyVert(v, t)
    else if Rendering(line) then ScrollCycle(v, t, cycle)
    else v
  }

  // ----- The PPU bus -----

  /** Nametable address to VRAM cell, by the cartridge's wiring. */
  function Mirror(m: Mirroring, addr: Word): (cell: nat)
    ensures cell < 0x800
  {
    match m
    case Vert => addr % 0x800
    case Horz => addr % 0x400 + 0x400 * (addr / 0x800 % 2)
  }

  /** Outside the mapped 16 KiB, and past the end of pattern ROM, the source's access is undefined; here it
      reads zero and writes nothing. */
  function VideoRead(m: Video, addr: Word): Byte {
    if addr < 0x2000 then (if addr < |m.chr| then m.chr[addr] else 0)
    else if addr < 0x3F00 then m.vram[Mirror(m.mirroring, addr)]
    else if addr < 0x4000 then m.pal[addr % 0x20]
    else 0
  }

  function VideoWrite(m: Video, addr: Word, data: Byte): Video {
    if 0x2000 <= addr < 0x3F00 then m.(vram := m.vram[Mirror(m.mirroring, addr) := data])
    else if 0x3F00 <= addr < 0x4000 then m.(pal := m.pal[addr % 0x20 := data])
    else m
  }

  // ----- Tile fetches -----

  function NtAddr(v: Word): Word {
    0x2000 + v % 0x1000
  }

  function AttrAddr(v: Word): Word {
    GetBounded(v, 10, 2);
    GetBounded(v, 5, 5);
    GetBounded(v, 0, 5);
    0x23C0 + 0x400 * Nt(v) + 8 * (CoarseY(v) / 4) + CoarseX(v) / 4
  }

  function PatternAddr(bgPtAddr: bool, nt: Byte, high: bool, v: Word): Word {
    GetBounded(v, 12, 3);
    (if bgPtAddr then 0x1000 else 0) + 16 * nt + (if high then 8 else 0) + FineY(v)
  }

  /** The tile latches after one entry of the cycle table; each of the four fetches completes on an even cycle. */
  function FetchCycle(t: Tile, m: Video, bgPtAddr: bool, v: Word, cycle: nat): Tile {
    if !Fetching(cycle) then t
    else if cycle % 8 == 2 then t.(nt := VideoRead(m, NtAddr(v)))
    else if cycle % 8 == 4 then t.(attr := VideoRead(m, AttrAddr(v)))
    else if cycle % 8 == 6 then t.(low := VideoRead(m, PatternAddr(bgPtAddr, t.nt, false, v)))
    else if cycle % 8 == 0 then t.(high := VideoRead(m, PatternAddr(bgPtAddr, t.nt, true, v)))
    else t
  }

  // ----- One dot -----

  function LineOf(r: Raster): nat {
    r.lines % 262
  }

  function CycleOf(r: Raster): nat {
    r.cycles % 341
  }

  /** `begin_frame` on the last dot of the pre-render line. */
  function BeginFrame(r: Raster): Raster {
    if r.oddFrame then Raster(0, 0, false) else r.(oddFrame := true)
  }

  function RasterDot(r: Raster): Raster {
    var s := if LineOf(r) == 261 && CycleOf(r) == 340 then BeginFrame(r) else r;
    var c := s.cycles + 1;
    Raster(c, if c % 341 == 0 then s.lines + 1 else s.lines, s.oddFrame)
  }

  /** The dot on which vertical blanking begins and the NMI line is pulled. */
  predicate Fires(r: Raster) {
    LineOf(r) == 241 && CycleOf(r) == 1
  }

  function StatusDot(s: Status, line: nat, cycle: nat): Status {
    if line == 241 && cycle == 1 then s.(vblank := true)
    else if line == 261 && cycle == 1 then Status(false, false, false)
    else s
  }

  function Dot(p: Ppu): Ppu {
    var line, cycle := LineOf(p.raster), CycleOf(p.raster);
    p.(raster := RasterDot(p.raster),
       status := StatusDot(p.status, line, cycle),
       tile := if Rendering(line) then FetchCycle(p.tile, p.video, p.ctrl.bgPtAddr, p.scroll.v, cycle) else p.tile,
       scroll := if p.mask.bgShow then p.scroll.(v := ScrollDot(p.scroll.v, p.scroll.t, line, cycle)) else p.scroll)
  }

  function Dots(p: Ppu, n: nat): Ppu
    decreases n
  {
    if n == 0 then p else Dots(Dot(p), n - 1)
  }

  // ----- Registers -----

  predicate BitOf(data: Byte, weight: Byte)
    requires weight > 0
  {
    data / weight % 2 == 1
  }

  /** The status bits ORed into the latch by a read of $2002. */
  function StatusLatch(latch: Byte, s: Status): Byte {
    latch % 0x20
    + (if s.vblank || BitOf(latch, 0x80) then 0x80 else 0)
    + (if s.spZeroHit || BitOf(latch, 0x40) then 0x40 else 0)
    + (if s.spOverflow || BitOf(latch, 0x20) then 0x20 else 0)
  }

  function AddrStep(c: Ctrl): nat {
    if c.vramInc then 32 else 1
  }

  /** Register `reg` of 0x2000 to 0x2007; the value read is the latch afterwards. */
  function ReadReg(p: Ppu, reg: nat): Ppu {
    match reg
    case 2 => p.(port := p.port.(latch := StatusLatch(p.port.latch, p.status), scrollLatch := false),
                 status := p.status.(vblank := false))
    case 4 => p.(port := p.port.(latch := 0))
    case 7 =>
      var v := p.scroll.v;
      var byte := VideoRead(p.video, v);
      p.(port := if v < 0x3F00 then p.port.(latch := p.port.dataBuf, dataBuf := byte) else p.port.(latch := byte),
         scroll := p.scroll.(v := ToWord(v + AddrStep(p.ctrl))))
    case _ => p
  }

  function WriteCtrl(p: Ppu, data: Byte): Ppu {
    p.(scroll := p.scroll.(t := WithNt(p.scroll.t, data % 4)),
       ctrl := Ctrl(BitOf(data, 4), BitOf(data, 8), BitOf(data, 16),
                    BitOf(data, 32), BitOf(data, 64), BitOf(data, 128)))
  }

  function WriteMask(p: Ppu, data: Byte): Ppu {
    p.(mask := MaskReg(BitOf(data, 1), BitOf(data, 2), BitOf(data, 4), BitOf(data, 8), BitOf(data, 16),
                       BitOf(data, 32), BitOf(data, 64), BitOf(data, 128)))
  }

  function WriteScroll(p: Ppu, data: Byte): Ppu {
    var q := p.(port := p.port.(scrollLatch := !p.port.scrollLatch));
    if !p.port.scrollLatch
    then q.(scroll := p.scroll.(t := WithCoarseX(p.scroll.t, data / 8), fineX := data % 8))
    else q.(scroll := p.scroll.(t := WithFineY(WithCoarseY(p.scroll.t, data / 8), data % 8)))
  }

  function WriteAddr(p: Ppu, data: Byte): Ppu {
    var q := p.(port := p.port.(scrollLatch := !p.port.scrollLatch));
    if !p.port.scrollLatch
    then q.(scroll := p.scroll.(t := With(With(p.scroll.t, 8, 6, data % 0x40), 14, 1, 0)))
    else
      var t := With(p.scroll.t, 0, 8, data);
      q.(scroll := p.scroll.(t := t, v := t))
  }

  function WriteData(p: Ppu, data: Byte): Ppu {
    p.(video := VideoWrite(p.video, p.scroll.v, data),
       scroll := p.scroll.(v := ToWord(p.scroll.v + AddrStep(p.ctrl))))
  }

  function WriteReg(p0: Ppu, reg: nat, data: Byte): Ppu {
    var p := p0.(port := p0.port.(latch := data));
    match reg
    case 0 => WriteCtrl(p, data)
    case 1 => WriteMask(p, data)
    case 3 => p.(port := p.port.(oamAddr := data))
    case 4 => p.(port := p.port.(oamAddr := ToByte(p.port.oamAddr + 1)))
    case 5 => WriteScroll(p, data)
    case 6 => WriteAddr(p, data)
    case 7 => WriteData(p, data)
    case _ => p
  }

  // ----- Power and reset -----

  const CTRL_OFF := Ctrl(false, false, false, false, false, false)
  const MASK_OFF := MaskReg(false, false, false, false, false, false, false, false)

  /** `power`. The latch, the tile latches and the pattern ROM are left as they are. */
  function Power(p: Ppu): Ppu {
    p.(raster := Raster(0, 0, false), ctrl := CTRL_OFF, mask := MASK_OFF, status := Status(true, false, true),
       port := Port(p.port.latch, 0, false, 0), scroll := Scroll(0, 0, 0),
       video := p.video.(vram := seq(0x800, _ => 0), pal := seq(0x20, _ => 0)))
  }

  /** `reset`. */
  function Reset(p: Ppu): Ppu {
    p.(raster := Raster(0, 0, false), ctrl := CTRL_OFF, mask := MASK_OFF,
       status := Status(false, false, p.status.vblank),
       port := p.port.(scrollLatch := false, dataBuf := 0), scroll := p.scroll.(fineX := 0))
  }
}
