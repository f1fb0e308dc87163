/** The PPU as an object: dispatch through the line and cycle tables, the address-register updates written with
    the bit-field routines, and the register file (emu/core/ppumain.cpp, emu/core/ppu.cpp). */
module PpuCode {
  import opened Words
  import opened Bits
  import opened PpuModel

  // ----- Bit fields of a 16-bit register, as the source stores and loads them -----

  function StoreField(v: Word, b: nat, k: nat, d: nat): (w: Word)
    requires b + k <= 16
    ensures w == With(v, b, k, d)
  {
    WordFits();
    SetBitsIsPut(64, v, b, k, d);
    PutStaysInWord(16, v, b, k, d);
    SetBits(64, v, b, k, d)
  }

  function LoadField(v: Word, b: nat, k: nat): (n: nat)
    ensures n == Get(v, b, k)
  {
    ReadFieldIsGet(v, b, k);
    ReadField(v, b, k)
  }

  lemma WordFits()
    ensures Pow2(16) == 0x10000 && Pow2(16) <= Pow2(64)
  {
    WordPowers();
    PowerMonotone(16, 64);
  }

  /** Every address field is unaffected by stores to the others. */
  lemma FieldsIndependent(v: Word, d: nat)
    ensures var w := WithCoarseX(v, d);
            CoarseX(w) == Get(d, 0, 5) && CoarseY(w) == CoarseY(v) && Nt(w) == Nt(v) && FineY(w) == FineY(v)
    ensures var w := WithCoarseY(v, d);
            CoarseX(w) == CoarseX(v) && CoarseY(w) == Get(d, 0, 5) && Nt(w) == Nt(v) && FineY(w) == FineY(v)
    ensures var w := WithNt(v, d);
            CoarseX(w) == CoarseX(v) && CoarseY(w) == CoarseY(v) && Nt(w) == Get(d, 0, 2) && FineY(w) == FineY(v)
    ensures var w := WithFineY(v, d);
            CoarseX(w) == CoarseX(v) && CoarseY(w) == CoarseY(v) && Nt(w) == Nt(v) && FineY(w) == Get(d, 0, 3)
  {
    hide Get, Put;
    GetPut(v, 0, 5, d);
    GetPut(v, 5, 5, d);
    GetPut(v, 10, 2, d);
    GetPut(v, 12, 3, d);
    GetPutDisjoint(v, 0, 5, d, 5, 5);
    GetPutDisjoint(v, 0, 5, d, 10, 2);
    GetPutDisjoint(v, 0, 5, d, 12, 3);
    GetPutDisjoint(v, 5, 5, d, 0, 5);
    GetPutDisjoint(v, 5, 5, d, 10, 2);
    GetPutDisjoint(v, 5, 5, d, 12, 3);
    GetPutDisjoint(v, 10, 2, d, 0, 5);
    GetPutDisjoint(v, 10, 2, d, 5, 5);
    GetPutDisjoint(v, 10, 2, d, 12, 3);
    GetPutDisjoint(v, 12, 3, d, 0, 5);
    GetPutDisjoint(v, 12, 3, d, 5, 5);
    GetPutDisjoint(v, 12, 3, d, 10, 2);
  }

  /** The four fields partition bits 0 to 14. */
  lemma FieldsPartition(v: nat)
    requires v < 0x8000
    ensures v == CoarseX(v) + 0x20 * CoarseY(v) + 0x400 * Nt(v) + 0x1000 * FineY(v)
  {
    hide Get;
    GetsJoin(v, 5, 5);
    GetsJoin(v, 10, 2);
    GetsJoin(v, 12, 3);
    WordPowers();
    assert Pow2(15) == 0x8000;
    GetWhole(v, 15);
    ShiftLeftValue(CoarseY(v), 5);
    ShiftLeftValue(Nt(v), 10);
    ShiftLeftValue(FineY(v), 12);
    assert Pow2(10) == 0x400 && Pow2(12) == 0x1000;
  }

  // ----- Mirroring, as the source decodes addresses -----

  /** The decode lambdas of `set_mirroring`. */
  function DecodeNt(m: Mirroring, addr: Word): nat {
    match m
    case Vert => And(addr, 0x7FF)
    case Horz =>
      var tmp := And(addr, 0xFFF);
      AndAtMost(addr, 0xFFF);
      WordFits();
      SetBits(64, tmp, 10, 2, ShiftRight(GetBits(tmp, 10, 2), 1))
  }

  lemma LowBits(addr: nat, k: nat)
    ensures And(addr, Mask(k)) == Get(addr, 0, k) < Pow2(k)
    ensures addr == Get(addr, 0, k) + ShiftRight(addr, k) * Pow2(k)
  {
    hide Get;
    AndMask(addr, k);
    SplitAt(addr, k);
    GetBounded(addr, 0, k);
    ShiftLeftValue(ShiftRight(addr, k), k);
  }

  /** Bit 1 of a two-bit field, moved to bit 0: the effect of masking with the count 2. */
  lemma UpperOfTwo(n: nat)
    ensures ShiftRight(And(n, 2), 1) == n / 2 % 2
  {
    AndStep(n, 2);
    AndStep(n / 2, 1);
    AndStep(n / 2 / 2, 0);
  }

  lemma {:induction false} ShiftRightGet(n: nat, b: nat, k: nat)
    ensures ShiftRight(Get(n, 0, b + k), b) == Get(n, b, k)
    decreases b
  {
    if b > 0 {
      ShiftRightGet(n / 2, b - 1, k);
    }
  }

  lemma {:induction false} GetOfGet(n: nat, b: nat, k: nat)
    ensures Get(Get(n, 0, b + k), 0, b) == Get(n, 0, b)
    decreases b
  {
    if b > 0 {
      GetOfGet(n / 2, b - 1, k);
    }
  }

  lemma TwoBits(n: nat)
    ensures Get(n, 0, 2) == n % 2 + 2 * (n / 2 % 2)
    ensures n <= 1 ==> Get(n, 0, 2) == n
  {
    assert Get(n / 2 / 2, 0, 0) == 0;
    assert Get(n / 2, 0, 1) == n / 2 % 2;
  }

  /** The decoded address is the cell the mirroring says, although `getbits` masks with its bit count. */
  lemma DecodeIsMirror(m: Mirroring, addr: Word)
    ensures DecodeNt(m, addr) == Mirror(m, addr)
  {
    hide Get, Put, And, SetBits, Pow2, ShiftRight;
    WordPowers();
    if m == Vert {
      LowBits(addr, 11);
      Quotient800Rest(ShiftRight(addr, 11), Get(addr, 0, 11));
    } else {
      LowBits(addr, 12);
      var tmp := Get(addr, 0, 12);
      var n := Get(addr, 10, 2);
      ShiftRightGet(addr, 10, 2);
      UpperOfTwo(n);
      GetBounded(addr, 10, 2);
      var bit := ShiftRight(GetBits(tmp, 10, 2), 1);
      WordFits();
      SetBitsIsPut(64, tmp, 10, 2, bit);
      HorzCell(addr, tmp, bit);
      HorzBit(addr, n);
    }
  }

  lemma FieldParts(addr: nat, low: nat, n: nat, high: nat)
    requires addr == low + 0x400 * n + 0x1000 * high && low < 0x400 && n < 4
    ensures low == addr % 0x400 && n / 2 == addr / 0x800 % 2
  {
    Quotient400(n + 4 * high, low);
    var half, odd := n / 2, n % 2;
    Quotient800(half + 2 * high, 0x400 * odd + low);
    TwiceAndBit(high, half);
  }

  lemma Quotient400(q: nat, r: nat)
    requires r < 0x400
    ensures (0x400 * q + r) % 0x400 == r
  {
  }

  lemma Quotient800(q: nat, r: nat)
    requires r < 0x800
    ensures (0x800 * q + r) / 0x800 == q
  {
  }

  lemma Quotient800Rest(q: nat, r: nat)
    requires r < 0x800
    ensures (r + q * 0x800) % 0x800 == r
  {
  }

  lemma TwiceAndBit(high: nat, bit: nat)
    requires bit < 2
    ensures (bit + 2 * high) % 2 == bit
  {
  }

  lemma HorzBit(addr: Word, n: nat)
    requires n == Get(addr, 10, 2)
    ensures Get(addr, 0, 10) == addr % 0x400 && n / 2 == addr / 0x800 % 2
  {
    hide Get, Pow2, ShiftRight, And;
    WordPowers();
    GetBounded(addr, 10, 2);
    GetBounded(addr, 0, 10);
    GetsJoin(addr, 10, 2);
    ShiftLeftValue(n, 10);
    LowBits(addr, 12);
    FieldParts(addr, Get(addr, 0, 10), n, ShiftRight(addr, 12));
  }

  lemma HorzCell(addr: nat, tmp: nat, bit: nat)
    requires tmp == Get(addr, 0, 12) && bit <= 1
    ensures Put(tmp, 10, 2, bit) == Get(addr, 0, 10) + 0x400 * bit
  {
    hide Get, Put;
    var r := Put(tmp, 10, 2, bit);
    GetBounded(addr, 0, 12);
    PutStaysInWord(12, tmp, 10, 2, bit);
    GetWhole(r, 12);
    GetsJoin(r, 10, 2);
    GetPut(tmp, 10, 2, bit);
    GetPutDisjoint(tmp, 10, 2, bit, 0, 10);
    GetOfGet(addr, 10, 2);
    TwoBits(bit);
    ShiftLeftValue(bit, 10);
    WordPowers();
    assert Pow2(10) == 0x400;
  }

  // ----- The object -----

  class PPU {
    var cycles: nat
    var lines: nat
    var oddFrame: bool
    var ctrl: Ctrl
    var mask: MaskReg
    var status: Status
    var port: Port
    var v: Word
    var t: Word
    var fineX: Byte
    var tile: Tile
    var video: Video

    constructor (p: Ppu)
      ensures State() == p
    {
      cycles, lines, oddFrame := p.raster.cycles, p.raster.lines, p.raster.oddFrame;
      ctrl, mask, status, port := p.ctrl, p.mask, p.status, p.port;
      v, t, fineX := p.scroll.v, p.scroll.t, p.scroll.fineX;
      tile, video := p.tile, p.video;
    }

    ghost function State(): Ppu
      reads this
    {
      Ppu(Raster(cycles, lines, oddFrame), ctrl, mask, status, port, Scroll(v, t, fineX), tile, video)
    }

    method Snapshot() returns (p: Ppu)
      ensures p == State()
    {
      p := Ppu(Raster(cycles, lines, oddFrame), ctrl, mask, status, port, Scroll(v, t, fineX), tile, video);
    }

    // ----- Address registers -----

    method IncVHorzPos()
      modifies this`v
      ensures v == if mask.bgShow then IncHorz(old(v)) else old(v)
    {
      hide Get, Put;
      if !mask.bgShow {
        return;
      }
      if LoadField(v, 0, 5) == 31 {
        FieldsIndependent(v, 0);
        v := StoreField(v, 0, 5, 0);
        v := StoreField(v, 10, 2, FlipLow(LoadField(v, 10, 2)));
      } else {
        v := StoreField(v, 0, 5, LoadField(v, 0, 5) + 1);
      }
    }

    method IncVVertPos()
      modifies this`v
      ensures v == if mask.bgShow then IncVert(old(v)) else old(v)
    {
      hide Get, Put;
      if !mask.bgShow {
        return;
      }
      if LoadField(v, 12, 3) < 7 {
        v := StoreField(v, 12, 3, LoadField(v, 12, 3) + 1);
      } else {
        FieldsIndependent(v, 0);
        v := StoreField(v, 12, 3, 0);
        var y := LoadField(v, 5, 5);
        if y == 29 {
          y := 0;
          v := StoreField(v, 10, 2, FlipHigh(LoadField(v, 10, 2)));
        } else if y == 31 {
          y := 0;
        } else {
          y := y + 1;
        }
        v := StoreField(v, 5, 5, y);
      }
    }

    method CopyVHorzPos()
      modifies this`v
      ensures v == if mask.bgShow then CopyHorz(old(v), t) else old(v)
    {
      hide Get, Put;
      if !mask.bgShow {
        return;
      }
      v := StoreField(v, 0, 5, t);
      v := StoreField(v, 10, 2, LowFrom(LoadField(v, 10, 2), LoadField(t, 10, 2)));
    }

    /** Assigning a bit field to a bit field of the same type passes the whole word of the source. */
    method CopyVVertPos()
      modifies this`v
      ensures v == if mask.bgShow then CopyVert(old(v), t) else old(v)
    {
      hide Get, Put;
      if !mask.bgShow {
        return;
      }
      v := StoreField(v, 5, 5, t);
      v := StoreField(v, 12, 3, t);
      v := StoreField(v, 10, 2, HighFrom(LoadField(v, 10, 2), LoadField(t, 10, 2)));
    }

    // ----- Dispatch -----

    method BackgroundCycle(cycle: nat)
      requires Fetching(cycle)
      modifies this`tile
      ensures tile == FetchCycle(old(tile), video, ctrl.bgPtAddr, v, cycle)
    {
      hide VideoRead, NtAddr, AttrAddr, PatternAddr;
      match cycle % 8
      case 2 => tile := tile.(nt := VideoRead(video, NtAddr(v)));
      case 4 => tile := tile.(attr := VideoRead(video, AttrAddr(v)));
      case 6 => tile := tile.(low := VideoRead(video, PatternAddr(ctrl.bgPtAddr, tile.nt, false, v)));
      case 0 => tile := tile.(high := VideoRead(video, PatternAddr(ctrl.bgPtAddr, tile.nt, true, v)));
      case _ =>
    }

    method Ccycle(cycle: nat)
      requires 1 <= cycle <= 257 || 321 <= cycle <= 340
      modifies this`tile, this`v
      ensures tile == FetchCycle(old(tile), video, ctrl.bgPtAddr, old(v), cycle)
      ensures v == if mask.bgShow then ScrollCycle(old(v), t, cycle) else old(v)
    {
      hide IncHorz, IncVert, CopyHorz, VideoRead, NtAddr, AttrAddr, PatternAddr;
      if 1 <= cycle <= 256 || 321 <= cycle <= 340 {
        BackgroundCycle(cycle);
        if cycle % 8 == 0 && cycle != 256 {
          IncVHorzPos();
        }
        if cycle == 256 {
          IncVVertPos();
        }
      }
      if cycle == 257 {
        CopyVHorzPos();
      }
    }

    /** `cycletab`: idle on cycle 0 and on the sprite fetch cycles. */
    method CycleTab(cycle: nat)
      requires cycle <= 340
      modifies this`tile, this`v
      ensures tile == FetchCycle(old(tile), video, ctrl.bgPtAddr, old(v), cycle)
      ensures v == if mask.bgShow then ScrollCycle(old(v), t, cycle) else old(v)
    {
      hide IncHorz, IncVert, CopyHorz, VideoRead, NtAddr, AttrAddr, PatternAddr;
      if cycle != 0 && !(258 <= cycle <= 320) {
        Ccycle(cycle);
      }
    }

    method BeginFrameDot()
      requires lines % 262 == 261 && cycles % 341 == 340
      modifies this`cycles, this`lines, this`oddFrame
      ensures Raster(cycles, lines, oddFrame) == BeginFrame(old(Raster(cycles, lines, oddFrame)))
    {
      if oddFrame {
        lines := 0;
        cycles := 0;
      }
      oddFrame := !oddFrame;
    }

    /** `lcycle`; `nmi` is the call of the NMI callback. */
    method Lcycle(line: nat, cycle: nat) returns (nmi: bool)
      requires line == lines % 262 && cycle == cycles % 341
      modifies this`tile, this`v, this`status, this`cycles, this`lines, this`oddFrame
      ensures nmi == (line == 241 && cycle == 1)
      ensures status == StatusDot(old(status), line, cycle)
      ensures tile == if Rendering(line) then FetchCycle(old(tile), video, ctrl.bgPtAddr, old(v), cycle) else old(tile)
      ensures v == if mask.bgShow then ScrollDot(old(v), t, line, cycle) else old(v)
      ensures Raster(cycles, lines, oddFrame) ==
              if line == 261 && cycle == 340 then BeginFrame(old(Raster(cycles, lines, oddFrame)))
              else old(Raster(cycles, lines, oddFrame))
    {
      hide IncHorz, IncVert, CopyHorz, CopyVert, FetchCycle, BeginFrame;
      nmi := false;
      if line < 240 {
        CycleTab(cycle);
      }
      if line == 241 && cycle == 1 {
        status := status.(vblank := true);
        nmi := true;
      }
      if line == 261 {
        CycleTab(cycle);
        if cycle == 1 {
          status := Status(false, false, false);
        }
        if 280 <= cycle <= 304 {
          CopyVVertPos();
        }
        if cycle == 340 {
          BeginFrameDot();
        }
      }
    }

    method Run() returns (nmi: bool)
      modifies this`tile, this`v, this`status, this`cycles, this`lines, this`oddFrame
      ensures State() == Dot(old(State()))
      ensures nmi == Fires(old(State()).raster)
    {
      hide ScrollDot, FetchCycle, StatusDot, BeginFrame;
      nmi := Lcycle(lines % 262, cycles % 341);
      cycles := cycles + 1;
      lines := lines + if cycles % 341 == 0 then 1 else 0;
    }

    // ----- Registers -----

    method Read(reg: nat) returns (b: Byte)
      modifies this`port, this`status, this`v
      ensures State() == ReadReg(old(State()), reg)
      ensures b == State().port.latch
    {
      hide VideoRead, StatusLatch;
      match reg {
        case 2 =>
          port := port.(latch := StatusLatch(port.latch, status));
          status := status.(vblank := false);
          port := port.(scrollLatch := false);
        case 4 =>
          port := port.(latch := 0);
        case 7 =>
          if v < 0x3F00 {
            port := port.(latch := port.dataBuf);
            port := port.(dataBuf := VideoRead(video, v));
          } else {
            port := port.(latch := VideoRead(video, v));
          }
          v := ToWord(v + AddrStep(ctrl));
        case _ =>
      }
      b := port.latch;
    }

    method WriteScrollReg(data: Byte)
      modifies this`port, this`t, this`fineX
      ensures State() == WriteScroll(old(State()), data)
    {
      hide Put;
      if !port.scrollLatch {
        t := StoreField(t, 0, 5, data / 8);
        fineX := data % 8;
      } else {
        t := StoreField(t, 5, 5, data / 8);
        t := StoreField(t, 12, 3, data % 8);
      }
      port := port.(scrollLatch := !port.scrollLatch);
    }

    method WriteAddrReg(data: Byte)
      modifies this`port, this`t, this`v
      ensures State() == WriteAddr(old(State()), data)
    {
      hide Put;
      if !port.scrollLatch {
        t := StoreField(t, 8, 6, data % 0x40);
        t := StoreField(t, 14, 1, 0);
      } else {
        t := StoreField(t, 0, 8, data);
        v := t;
      }
      port := port.(scrollLatch := !port.scrollLatch);
    }

    method WriteCtrlReg(data: Byte)
      modifies this`ctrl, this`t
      ensures State() == WriteCtrl(old(State()), data)
    {
      hide Put, BitOf;
      t := StoreField(t, 10, 2, data % 4);
      ctrl := Ctrl(BitOf(data, 4), BitOf(data, 8), BitOf(data, 16), BitOf(data, 32), BitOf(data, 64), BitOf(data, 128));
    }

    method Write(reg: nat, data: Byte)
      modifies this`port, this`ctrl, this`mask, this`v, this`t, this`fineX, this`video
      ensures State() == WriteReg(old(State()), reg, data)
    {
      hide VideoWrite, WriteCtrl, WriteScroll, WriteAddr, BitOf;
      port := port.(latch := data);
      match reg
      case 0 => WriteCtrlReg(data);
      case 1 =>
        mask := MaskReg(BitOf(data, 1), BitOf(data, 2), BitOf(data, 4), BitOf(data, 8), BitOf(data, 16),
                        BitOf(data, 32), BitOf(data, 64), BitOf(data, 128));
      case 3 => port := port.(oamAddr := data);
      case 4 => port := port.(oamAddr := ToByte(port.oamAddr + 1));
      case 5 => WriteScrollReg(data);
      case 6 => WriteAddrReg(data);
      case 7 =>
        video := VideoWrite(video, v, data);
        v := ToWord(v + AddrStep(ctrl));
      case _ =>
    }
  }
}
