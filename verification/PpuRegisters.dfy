/** How a program sets the scroll position and the modes: $2000, $2001, $2002 and $2005 of emu/core/ppu.cpp, with any
    dots between the accesses and the background on or off. */
module PpuRegisters {
  import opened Words
  import opened Bits
  import opened PpuModel
  import opened PpuCode
  import opened PpuScroll
  import opened PpuPort
  import R = PpuRaster

  /** Dots, whatever is shown, leave everything a program has written alone but the address register. */
  lemma {:induction false} DotsKeepWritten(p: Ppu, n: nat)
    ensures var q := Dots(p, n);
            && q.ctrl == p.ctrl && q.mask == p.mask && q.port == p.port && q.video == p.video
            && q.scroll.t == p.scroll.t && q.scroll.fineX == p.scroll.fineX
    decreases n
  {
    hide FetchCycle, RasterDot, StatusDot, ScrollDot;
    if n > 0 {
      DotsKeepWritten(Dot(p), n - 1);
    }
  }

  // ----- $2005 -----

  /** Read $2002, write `x` to $2005, write `y` to $2005. */
  function SetScroll(p: Ppu, x: Byte, y: Byte, g: Gaps): Ppu {
    var a := ReadReg(Dots(p, g.first), 2);
    var b := WriteReg(Dots(a, g.second), 5, x);
    WriteReg(Dots(b, g.third), 5, y)
  }

  /** The position in pixels that the scroll registers spell. */
  ghost predicate Scrolled(s: Scroll, x: Byte, y: Byte) {
    && CoarseX(s.t) == x / 8 && s.fineX == x % 8
    && CoarseY(s.t) == y / 8 && FineY(s.t) == y % 8
  }

  lemma ScrollFields(t: Word, x: Byte, y: Byte)
    ensures var a := WithCoarseX(t, x / 8);
            var b := WithFineY(WithCoarseY(a, y / 8), y % 8);
            && CoarseX(b) == x / 8 && CoarseY(b) == y / 8 && FineY(b) == y % 8 && Nt(b) == Nt(t)
  {
    hide CoarseX, CoarseY, FineY, Nt, WithCoarseX, WithCoarseY, WithFineY, WithNt, Get;
    FieldsIndependent(t, x / 8);
    SmallFits(x / 8);
    var a := WithCoarseX(t, x / 8);
    FieldsIndependent(a, y / 8);
    SmallFits(y / 8);
    FieldsIndependent(WithCoarseY(a, y / 8), y % 8);
    SmallFits(y % 8);
  }

  /** From any state of the write latch: the first write is the column, the second the row, in pixels; the nametable
      stays. */
  lemma ScrollSet(p: Ppu, x: Byte, y: Byte, g: Gaps)
    ensures var q := SetScroll(p, x, y, g);
            && Scrolled(q.scroll, x, y) && Nt(q.scroll.t) == Nt(p.scroll.t)
            && q.ctrl == p.ctrl && q.mask == p.mask && q.video == p.video
  {
    hide WithCoarseX, WithCoarseY, WithFineY, Dots, StatusLatch, CoarseX, CoarseY, FineY, Nt;
    DotsKeepWritten(p, g.first);
    var a := ReadReg(Dots(p, g.first), 2);
    DotsKeepWritten(a, g.second);
    var b := WriteReg(Dots(a, g.second), 5, x);
    DotsKeepWritten(b, g.third);
    ScrollFields(p.scroll.t, x, y);
  }

  // ----- $2000 and $2001 -----

  /** Bits 0 and 1 of $2000 choose the nametable, bit 2 the address step, bits 3 and 4 the pattern tables of sprites and
      background, bit 5 the sprite size, bit 7 the NMI enable; the position stays. */
  lemma CtrlSet(p: Ppu, data: Byte)
    ensures var q := WriteReg(p, 0, data);
            && Nt(q.scroll.t) == data % 4
            && CoarseX(q.scroll.t) == CoarseX(p.scroll.t) && CoarseY(q.scroll.t) == CoarseY(p.scroll.t)
            && FineY(q.scroll.t) == FineY(p.scroll.t) && q.scroll == p.scroll.(t := q.scroll.t)
            && AddrStep(q.ctrl) == (if data / 4 % 2 == 1 then 32 else 1)
            && (q.ctrl.spPtAddr <==> data / 8 % 2 == 1) && (q.ctrl.bgPtAddr <==> data / 16 % 2 == 1)
            && (q.ctrl.spSize <==> data / 32 % 2 == 1) && (q.ctrl.extBusDir <==> data / 64 % 2 == 1)
            && (q.ctrl.nmiEnabled <==> data >= 128)
            && q.mask == p.mask && q.video == p.video
  {
    hide CoarseX, CoarseY, FineY, Nt, WithNt, WithCoarseX, WithCoarseY, WithFineY, Get, BitOf;
    CtrlBits(data);
    FieldsIndependent(p.scroll.t, data % 4);
    SmallFits(data % 4);
  }

  lemma CtrlBits(data: Byte)
    ensures BitOf(data, 4) <==> data / 4 % 2 == 1
    ensures BitOf(data, 8) <==> data / 8 % 2 == 1
    ensures BitOf(data, 16) <==> data / 16 % 2 == 1
    ensures BitOf(data, 32) <==> data / 32 % 2 == 1
    ensures BitOf(data, 64) <==> data / 64 % 2 == 1
    ensures BitOf(data, 128) <==> data >= 128
  {
  }

  /** Bit 3 of $2001 shows the background; nothing else a program has written changes. */
  lemma MaskSet(p: Ppu, data: Byte)
    ensures var q := WriteReg(p, 1, data);
            && (q.mask.bgShow <==> data / 8 % 2 == 1) && (q.mask.spShow <==> data / 16 % 2 == 1)
            && (q.mask.grey <==> data % 2 == 1)
            && (q.mask.bgShowLeft <==> data / 2 % 2 == 1) && (q.mask.spShowLeft <==> data / 4 % 2 == 1)
            && (q.mask.red <==> data / 32 % 2 == 1) && (q.mask.green <==> data / 64 % 2 == 1)
            && (q.mask.blue <==> data >= 128)
            && q == p.(mask := q.mask, port := p.port.(latch := data))
  {
  }

  /** A program that chooses a nametable with $2000, a position with $2005 and switches the background on or off with
      $2001, with any dots between: the scroll registers hold that nametable and position. */
  lemma ProgramScrolls(p: Ppu, ctrl: Byte, x: Byte, y: Byte, mask: Byte, g: Gaps, before: nat, after: nat)
    ensures var q := SetScroll(WriteReg(Dots(p, before), 0, ctrl), x, y, g);
            var r := WriteReg(Dots(q, after), 1, mask);
            && Scrolled(r.scroll, x, y) && Nt(r.scroll.t) == ctrl % 4
            && (r.mask.bgShow <==> mask / 8 % 2 == 1) && (r.ctrl.bgPtAddr <==> ctrl / 16 % 2 == 1)
            && H(r.scroll.t) == 32 * (ctrl % 2) + x / 8
            && V(r.scroll.t) == 240 * (ctrl / 2 % 2) + y
  {
    hide Dots, WriteReg, SetScroll, CoarseX, CoarseY, FineY, Nt, AddrStep;
    PixelParts(ctrl, y);
    var p' := Dots(p, before);
    CtrlSet(p', ctrl);
    var q := SetScroll(WriteReg(p', 0, ctrl), x, y, g);
    ScrollSet(WriteReg(p', 0, ctrl), x, y, g);
    DotsKeepWritten(q, after);
    MaskSet(Dots(q, after), mask);
  }

  lemma PixelParts(ctrl: Byte, y: Byte)
    ensures ctrl % 4 % 2 == ctrl % 2 && ctrl % 4 / 2 == ctrl / 2 % 2 && 8 * (y / 8) + y % 8 == y
  {
  }

  // ----- $2002 -----

  /** The value a read of $2002 returns. */
  ghost function StatusRead(p: Ppu): Byte {
    ReadReg(p, 2).port.latch
  }

  /** The flags are ORed into the latch, which holds the last byte moved over the registers: bits 7 to 5 report
      vertical blanking, sprite hit and overflow, or what the latch had there; bits 4 to 0 are the latch's. Blanking
      and the write latch are cleared. */
  lemma StatusValue(p: Ppu)
    ensures var r, l, q := StatusRead(p), p.port.latch, ReadReg(p, 2);
            && (r >= 128 <==> p.status.vblank || l >= 128)
            && (r / 64 % 2 == 1 <==> p.status.spZeroHit || l / 64 % 2 == 1)
            && (r / 32 % 2 == 1 <==> p.status.spOverflow || l / 32 % 2 == 1)
            && r % 32 == l % 32
            && !q.status.vblank && !q.port.scrollLatch
  {
    StatusBits(p.port.latch, p.status);
  }

  lemma StatusBits(l: Byte, s: Status)
    ensures var r := StatusLatch(l, s);
            && (r >= 128 <==> s.vblank || l >= 128)
            && (r / 64 % 2 == 1 <==> s.spZeroHit || l / 64 % 2 == 1)
            && (r / 32 % 2 == 1 <==> s.spOverflow || l / 32 % 2 == 1)
            && r % 32 == l % 32
  {
  }

  /** Bit 7 of the value read tells whether blanking has begun if and only if it has, or bit 7 of the latch is clear. */
  lemma StatusExact(p: Ppu)
    ensures (StatusRead(p) >= 128 <==> p.status.vblank) <==> p.status.vblank || p.port.latch < 128
  {
    StatusValue(p);
  }

  /** After a read that reports blanking, a second read reports it again, however many dots later, although the first
      cleared the flag: the latch still holds bit 7. */
  lemma StatusStale(p: Ppu, n: nat)
    requires p.status.vblank
    ensures !ReadReg(p, 2).status.vblank && StatusRead(Dots(ReadReg(p, 2), n)) >= 128
  {
    hide Dots, StatusLatch;
    StatusValue(p);
    DotsKeepWritten(ReadReg(p, 2), n);
    StatusValue(Dots(ReadReg(p, 2), n));
  }

  // ----- The blanking flag over dots -----

  /** The flag is set by the dot at which blanking begins; dot 1 of the pre-render line clears it with the sprite flags;
      no other dot touches them. */
  lemma VblankDot(p: Ppu)
    ensures var line, cycle, q := LineOf(p.raster), CycleOf(p.raster), Dot(p);
            q.status == if line == 241 && cycle == 1 then p.status.(vblank := true)
                        else if line == 261 && cycle == 1 then Status(false, false, false)
                        else p.status
  {
    hide FetchCycle, RasterDot, ScrollDot;
  }

  /** Left unread, the flag stays set for the twenty lines of blanking. */
  lemma {:induction false} VblankHeld(p: Ppu, n: nat)
    requires R.Valid(p.raster) && Fires(p.raster) && 1 <= n <= 20 * 341
    ensures var q := Dots(p, n);
            q.status.vblank && R.Valid(q.raster) && 341 * LineOf(q.raster) + CycleOf(q.raster) == 341 * 241 + 1 + n
  {
    hide Dots, Dot, R.Valid;
    if n == 1 {
      OneDot(p);
      PositionAfter(p);
      VblankDot(p);
    } else {
      VblankHeld(p, n - 1);
      var q := Dots(p, n - 1);
      DotsSplit(p, n - 1, 1);
      OneDot(q);
      PositionAfter(q);
      VblankDot(q);
    }
  }

  lemma OneDot(p: Ppu)
    ensures Dots(p, 1) == Dot(p)
  {
    hide Dot;
    assert Dots(p, 1) == Dots(Dot(p), 0);
  }

  lemma PositionAfter(p: Ppu)
    requires R.Valid(p.raster) && 341 * LineOf(p.raster) + CycleOf(p.raster) < 341 * 262 - 1
    ensures var q := Dot(p);
            && R.Valid(q.raster) && LineOf(p.raster) <= 261 && CycleOf(p.raster) <= 340
            && LineOf(q.raster) <= 261 && CycleOf(q.raster) <= 340
            && 341 * LineOf(q.raster) + CycleOf(q.raster) == 341 * LineOf(p.raster) + CycleOf(p.raster) + 1
  {
    hide FetchCycle, StatusDot, ScrollDot, RasterDot, R.Valid;
    R.DotKeepsValid(p.raster);
    R.RasterOrder(p.raster);
    R.Position(p.raster);
    R.Position(Dot(p).raster);
  }

  /** The pre-render line clears it. */
  lemma VblankEnds(p: Ppu)
    requires R.Valid(p.raster) && Fires(p.raster)
    ensures !Dots(p, 20 * 341 + 1).status.vblank
  {
    hide Dots, Dot, R.Valid;
    var q := Dots(p, 20 * 341);
    VblankHeld(p, 20 * 341);
    DotsSplit(p, 20 * 341, 1);
    OneDot(q);
    R.Position(q.raster);
    VblankDot(q);
  }

  // ----- Sprite memory address, palette and pattern ROM -----

  /** $2003 sets the sprite memory address, $2004 steps it and reads zero. */
  lemma OamSet(p: Ppu, a: Byte, b: Byte)
    ensures WriteReg(p, 3, a).port == p.port.(latch := a, oamAddr := a)
    ensures WriteReg(p, 4, b).port == p.port.(latch := b, oamAddr := (p.port.oamAddr + 1) % 256)
    ensures ReadReg(p, 4).port.latch == 0
  {
  }

  /** A palette byte is read back at once, at every address 32 apart, and no other palette byte changes. */
  lemma PaletteRoundTrip(p: Ppu, d: Byte, a: Word)
    requires 0x3F00 <= p.scroll.v < 0x4000 && 0x3F00 <= a < 0x4000
    ensures var q := WriteReg(p, 7, d);
            && VideoRead(q.video, a) == (if (a - p.scroll.v) % 32 == 0 then d else VideoRead(p.video, a))
            && q.video == p.video.(pal := q.video.pal)
            && ReadReg(q.(scroll := q.scroll.(v := a)), 7).port.latch == VideoRead(q.video, a)
  {
    hide WithNt, Mirror;
    SameSlot(a, p.scroll.v);
  }

  lemma SameSlot(a: Word, b: Word)
    ensures a % 32 == b % 32 <==> (a - b) % 32 == 0
  {
  }

  /** Pattern ROM reads its own bytes and ignores writes. */
  lemma PatternRom(p: Ppu, d: Byte)
    requires p.scroll.v < 0x2000
    ensures WriteReg(p, 7, d).video == p.video
    ensures p.scroll.v < |p.video.chr| ==> ReadReg(p, 7).port.dataBuf == p.video.chr[p.scroll.v]
  {
  }

  /** Offset `o` of nametable `n`: vertical mirroring shows tables 0 and 2 alike and 1 and 3 alike, horizontal
      mirroring 0 and 1 alike and 2 and 3 alike. */
  lemma NametablesShared(m: Video, n: nat, o: nat)
    requires n < 4 && o < 0x400
    ensures var half := if m.mirroring == Vert then n % 2 else n / 2;
            VideoRead(m, 0x2000 + 0x400 * n + o) == m.vram[0x400 * half + o]
  {
  }

  // ----- Power-up and reset, as a program finds them -----

  /** The PPU is as if zero had been written to $2000 and $2001; the next write to $2005 or $2006 is a first one, fine
      x is zero, the first read of $2007 returns zero, and blanking begins at the 82183rd dot. */
  ghost predicate Restarted(q: Ppu) {
    && q.ctrl == WriteReg(q, 0, 0).ctrl && q.mask == WriteReg(q, 1, 0).mask
    && !q.port.scrollLatch && q.scroll.fineX == 0 && q.port.dataBuf == 0
    && R.Valid(q.raster) && forall n: nat :: R.Vblanks(q.raster, n) == 0 <==> n < 82183
  }

  lemma RestartRaster(r: Raster)
    requires r == Raster(0, 0, false)
    ensures R.Valid(r) && forall n: nat :: R.Vblanks(r, n) == 0 <==> n < 82183
  {
    hide R.Vblanks;
    forall n: nat
      ensures R.Vblanks(r, n) == 0 <==> n < 82183
    {
      R.VblankReached(r, n);
    }
  }

  lemma ZerosWritten(p: Ppu)
    ensures WriteReg(p, 0, 0).ctrl == CTRL_OFF && WriteReg(p, 1, 0).mask == MASK_OFF
  {
    hide WithNt;
  }

  /** After power-up: position and memory are zero, and the first read of $2002 reports blanking and sprite overflow. */
  lemma PowerObserved(p: Ppu, a: Word)
    ensures var q := Power(p);
            && Restarted(q) && Scrolled(q.scroll, 0, 0) && Nt(q.scroll.t) == 0 && q.scroll.v == 0
            && q.port.oamAddr == 0 && q.port.latch == p.port.latch
            && (0x2000 <= a < 0x4000 ==> VideoRead(q.video, a) == 0)
            && (a < 0x2000 ==> VideoRead(q.video, a) == VideoRead(p.video, a))
            && StatusRead(q) >= 128 && StatusRead(q) / 32 % 2 == 1
            && (StatusRead(q) / 64 % 2 == 1 <==> p.port.latch / 64 % 2 == 1)
  {
    hide WriteReg, ReadReg, R.Valid, R.Vblanks, Mirror;
    RestartRaster(Raster(0, 0, false));
    ZerosWritten(Power(p));
    StatusValue(Power(p));
    GetZero(0, 5);
    GetZero(5, 5);
    GetZero(10, 2);
    GetZero(12, 3);
  }

  /** Reset keeps the address registers, the memory and the blanking flag, and clears the sprite flags. */
  lemma ResetObserved(p: Ppu)
    ensures var q := Reset(p);
            && Restarted(q) && q.scroll.v == p.scroll.v && q.scroll.t == p.scroll.t && q.video == p.video
            && q.status == Status(false, false, p.status.vblank)
            && q.port.latch == p.port.latch && q.port.oamAddr == p.port.oamAddr
  {
    hide WriteReg, R.Valid, R.Vblanks;
    RestartRaster(Raster(0, 0, false));
    ZerosWritten(Reset(p));
  }
}
