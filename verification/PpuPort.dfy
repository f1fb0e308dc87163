/** The VRAM port: addressing through $2006 and moving bytes through $2007 (emu/core/ppu.cpp), with any number of
    raster dots between the accesses, while the background is off. */
module PpuPort {
  import opened Words
  import opened Bits
  import opened PpuModel

  // ----- Dots leave the port alone -----

  /** Everything a CPU program can reach through the registers, apart from the status flags. */
  ghost predicate SamePort(p: Ppu, q: Ppu) {
    p.ctrl == q.ctrl && p.mask == q.mask && p.port == q.port && p.scroll == q.scroll && p.video == q.video
  }

  lemma {:induction false} DotsKeepPort(p: Ppu, n: nat)
    requires !p.mask.bgShow
    ensures SamePort(p, Dots(p, n))
    decreases n
  {
    hide FetchCycle, RasterDot, StatusDot, ScrollDot;
    if n > 0 {
      DotsKeepPort(Dot(p), n - 1);
    }
  }

  // ----- Bit 15 of the temporary address is never set -----

  ghost predicate TopClear(p: Ppu) {
    p.scroll.t < 0x8000
  }

  lemma WithKeepsTopClear(t: Word, b: nat, k: nat, d: nat)
    requires t < 0x8000 && b + k <= 15
    ensures With(t, b, k, d) < 0x8000
  {
    WordPowers();
    PutStaysInWord(15, t, b, k, d);
  }

  /** Power-up clears it and no access or dot sets it. */
  lemma TopClearAlways(p: Ppu, reg: nat, data: Byte)
    ensures TopClear(Power(p))
    ensures TopClear(p) ==> TopClear(Reset(p)) && TopClear(ReadReg(p, reg))
    ensures TopClear(p) ==> TopClear(WriteReg(p, reg, data)) && TopClear(Dot(p))
  {
    hide With, FetchCycle, RasterDot, StatusDot, ScrollDot, VideoRead, VideoWrite, BitOf, StatusLatch;
    if TopClear(p) {
      var t := p.scroll.t;
      WithKeepsTopClear(t, 10, 2, data % 4);
      WithKeepsTopClear(t, 0, 5, data / 8);
      WithKeepsTopClear(t, 5, 5, data / 8);
      WithKeepsTopClear(With(t, 5, 5, data / 8), 12, 3, data % 8);
      WithKeepsTopClear(t, 8, 6, data % 0x40);
      WithKeepsTopClear(With(t, 8, 6, data % 0x40), 14, 1, 0);
      WithKeepsTopClear(t, 0, 8, data);
    }
  }

  // ----- Two writes to $2006 -----

  /** The address spelled by a high and a low byte: fourteen bits. */
  function PortAddress(hi: Byte, lo: Byte): Word {
    0x100 * (hi % 0x40) + lo
  }

  /** The address register after the high and the low write. */
  lemma AddressValue(t: Word, hi: Byte, lo: Byte)
    requires t < 0x8000
    ensures With(With(With(t, 8, 6, hi % 0x40), 14, 1, 0), 0, 8, lo) == PortAddress(hi, lo)
  {
    hide Get, Put, Pow2;
    WordPowers();
    var a := Put(t, 8, 6, hi % 0x40);
    var b := Put(a, 14, 1, 0);
    var c := Put(b, 0, 8, lo);
    PutStaysInWord(15, t, 8, 6, hi % 0x40);
    PutStaysInWord(15, a, 14, 1, 0);
    PutStaysInWord(15, b, 0, 8, lo);
    GetWhole(c, 15);
    GetsJoin(c, 14, 1);
    GetsJoin(c, 8, 6);
    GetPut(b, 0, 8, lo);
    GetWhole(lo, 8);
    GetPutDisjoint(b, 0, 8, lo, 8, 6);
    GetPutDisjoint(b, 0, 8, lo, 14, 1);
    GetPutDisjoint(a, 14, 1, 0, 8, 6);
    GetPut(a, 14, 1, 0);
    GetPut(t, 8, 6, hi % 0x40);
    GetWhole(hi % 0x40, 6);
    GetZero(0, 1);
    ShiftLeftValue(hi % 0x40, 8);
    ShiftLeftValue(0, 14);
  }

  /** Gaps in dots before each of the three accesses that set an address. */
  datatype Gaps = Gaps(first: nat, second: nat, third: nat)

  /** Read $2002, write the high byte, write the low byte. */
  function SetAddress(p: Ppu, hi: Byte, lo: Byte, g: Gaps): Ppu {
    var a := ReadReg(Dots(p, g.first), 2);
    var b := WriteReg(Dots(a, g.second), 6, hi);
    WriteReg(Dots(b, g.third), 6, lo)
  }

  /** Whatever the write latch was, the address register ends up as written; data and buffer stay. */
  lemma AddressSet(p: Ppu, hi: Byte, lo: Byte, g: Gaps)
    requires !p.mask.bgShow && TopClear(p)
    ensures var q := SetAddress(p, hi, lo, g);
            && q.scroll.v == PortAddress(hi, lo)
            && q.ctrl == p.ctrl && q.mask == p.mask && q.video == p.video && q.port.dataBuf == p.port.dataBuf
            && TopClear(q)
  {
    hide With, Dots, StatusLatch;
    var p1 := Dots(p, g.first);
    DotsKeepPort(p, g.first);
    var a := ReadReg(p1, 2);
    var a1 := Dots(a, g.second);
    DotsKeepPort(a, g.second);
    var b := WriteReg(a1, 6, hi);
    DotsKeepPort(b, g.third);
    var b1 := Dots(b, g.third);
    assert b1.scroll.t == With(With(p.scroll.t, 8, 6, hi % 0x40), 14, 1, 0) && b1.port.scrollLatch;
    AddressValue(p.scroll.t, hi, lo);
  }

  // ----- Moving bytes -----

  /** Write bytes to $2007; `gap` gives the dots that pass before each. */
  function WriteBytes(p: Ppu, ds: seq<Byte>, gap: nat -> nat): Ppu
    decreases |ds|
  {
    if ds == [] then p else WriteBytes(WriteReg(Dots(p, gap(|ds|)), 7, ds[0]), ds[1..], gap)
  }

  /** The values of `n` reads of $2007. */
  function ReadBytes(p: Ppu, n: nat, gap: nat -> nat): (bs: seq<Byte>)
    ensures |bs| == n
    decreases n
  {
    if n == 0 then []
    else
      var q := ReadReg(Dots(p, gap(n)), 7);
      [q.port.latch] + ReadBytes(q, n - 1, gap)
  }

  /** The address of the `i`-th access. */
  ghost function Place(a: nat, step: nat, i: nat): nat {
    a + i * step
  }

  lemma Places(a: nat, step: nat, i: nat)
    ensures Place(a, step, 0) == a && Place(a, step, 1) == a + step
    ensures Place(a + step, step, i) == Place(a, step, i + 1)
  {
    assert (i + 1) * step == i * step + step;
  }

  /** `n` accesses from `a` on, `step` apart, stay in one nametable, and the next address is still not palette. */
  ghost predicate InNametable(a: nat, step: nat, n: nat) {
    && 0x2000 <= a && a + n * step < 0x3F00
    && (n > 0 ==> a % 0x400 + (n - 1) * step < 0x400)
  }

  /** Within a nametable, mirrored cells are as far apart as addresses. */
  lemma MirrorShift(m: Mirroring, a: Word, x: nat)
    requires a % 0x400 + x < 0x400 && a + x < 0x10000
    ensures Mirror(m, a + x) == Mirror(m, a) + x
  {
    assert (a + x) / 0x400 == a / 0x400;
    assert (a + x) / 0x800 == a / 0x800;
  }

  lemma StepsSplit(n: nat, step: nat)
    requires n > 0
    ensures n * step == (n - 1) * step + step && (n - 1) * step >= 0
  {
  }

  lemma OffsetOn(a: nat, x: nat)
    requires a % 0x400 + x < 0x400
    ensures (a + x) % 0x400 == a % 0x400 + x
  {
  }

  lemma InNametableRest(a: nat, step: nat, n: nat)
    requires InNametable(a, step, n) && n > 0
    ensures InNametable(a + step, step, n - 1)
    ensures 0x2000 <= a < 0x3F00
  {
    StepsSplit(n, step);
    if n > 1 {
      StepsSplit(n - 1, step);
      OffsetOn(a, step);
    }
  }

  /** One write to $2007. */
  lemma WriteOne(p: Ppu, d: Byte, gap: nat)
    requires !p.mask.bgShow && 0x2000 <= p.scroll.v < 0x3F00 && TopClear(p)
    ensures var q := WriteReg(Dots(p, gap), 7, d);
            && q.ctrl == p.ctrl && q.mask == p.mask && q.port.dataBuf == p.port.dataBuf && TopClear(q)
            && q.scroll.v == p.scroll.v + AddrStep(p.ctrl)
            && q.video == p.video.(vram := p.video.vram[Mirror(p.video.mirroring, p.scroll.v) := d])
  {
    hide Dots, Mirror;
    DotsKeepPort(p, gap);
  }

  /** The cell of the `i`-th access. */
  ghost function CellAt(m: Mirroring, a: nat, step: nat, i: nat): nat {
    if Place(a, step, i) < 0x10000 then Mirror(m, Place(a, step, i)) else 0
  }

  /** One of `n` accesses goes to cell `c`. */
  ghost predicate Accessed(m: Mirroring, a: nat, step: nat, n: nat, c: nat) {
    exists i: nat :: i < n && CellAt(m, a, step, i) == c
  }

  lemma AccessedLater(m: Mirroring, a: nat, step: nat, n: nat, c: nat)
    requires n > 0 && Accessed(m, a + step, step, n - 1, c)
    ensures Accessed(m, a, step, n, c)
  {
    hide Mirror, Place;
    var i: nat :| i < n - 1 && CellAt(m, a + step, step, i) == c;
    Places(a, step, i);
    assert CellAt(m, a, step, i + 1) == c;
  }

  lemma AccessedFirst(m: Mirroring, a: Word, step: nat, n: nat)
    requires n > 0
    ensures Accessed(m, a, step, n, Mirror(m, a))
  {
    hide Mirror, Place;
    Places(a, step, 0);
    assert CellAt(m, a, step, 0) == Mirror(m, a);
  }

  /** Later accesses in a nametable go to other cells than the first. */
  lemma FirstApart(m: Mirroring, a: Word, step: nat, n: nat)
    requires n > 0 && step > 0 && InNametable(a, step, n)
    ensures !Accessed(m, a + step, step, n - 1, Mirror(m, a))
  {
    hide Mirror, InNametable, Place;
    if Accessed(m, a + step, step, n - 1, Mirror(m, a)) {
      var i: nat :| i < n - 1 && CellAt(m, a + step, step, i) == Mirror(m, a);
      Places(a, step, i);
      AddressInside(a, step, n, i + 1);
      LaterCell(m, a, step, n, i + 1);
    }
  }

  lemma LaterCell(m: Mirroring, a: Word, step: nat, n: nat, i: nat)
    requires 0 < i < n && step > 0 && InNametable(a, step, n) && Place(a, step, i) < 0x10000
    ensures Mirror(m, Place(a, step, i)) != Mirror(m, a)
  {
    hide Mirror;
    InsideStep(i, n - 1, step);
    MirrorShift(m, a, i * step);
  }

  lemma InsideStep(i: nat, n: nat, step: nat)
    requires 1 <= i <= n && step > 0
    ensures 0 < i * step <= n * step
  {
  }

  /** After writing from `a` on, byte i is at a + i * step, and every other cell is as it was. */
  lemma {:induction false} WrittenBytes(p: Ppu, ds: seq<Byte>, gap: nat -> nat)
    requires !p.mask.bgShow && TopClear(p) && InNametable(p.scroll.v, AddrStep(p.ctrl), |ds|)
    ensures var q := WriteBytes(p, ds, gap);
            && q.ctrl == p.ctrl && q.mask == p.mask && q.port.dataBuf == p.port.dataBuf && TopClear(q)
            && q.video == p.video.(vram := q.video.vram)
            && (forall i: nat :: i < |ds| ==> HasByte(q.video, Place(p.scroll.v, AddrStep(p.ctrl), i), ds[i]))
            && (forall c | 0 <= c < 0x800 && !Accessed(p.video.mirroring, p.scroll.v, AddrStep(p.ctrl), |ds|, c) ::
                  q.video.vram[c] == p.video.vram[c])
    decreases |ds|
  {
    hide Dots, Mirror, WriteReg, Place, InNametable, AddrStep, Accessed, TopClear;
    if ds != [] {
      var a, step, m := p.scroll.v, AddrStep(p.ctrl), p.video.mirroring;
      InNametableRest(a, step, |ds|);
      StepPositive(p.ctrl);
      WriteOne(p, ds[0], gap(|ds|));
      var p' := WriteReg(Dots(p, gap(|ds|)), 7, ds[0]);
      WrittenBytes(p', ds[1..], gap);
      var q := WriteBytes(p, ds, gap);
      FirstApart(m, a, step, |ds|);
      assert q.video.vram[Mirror(m, a)] == ds[0];
      forall c | 0 <= c < 0x800 && !Accessed(m, a, step, |ds|, c)
        ensures q.video.vram[c] == p.video.vram[c]
      {
        AccessedFirst(m, a, step, |ds|);
        if Accessed(m, a + step, step, |ds| - 1, c) {
          AccessedLater(m, a, step, |ds|, c);
        }
      }
      forall i: nat | i < |ds|
        ensures HasByte(q.video, Place(a, step, i), ds[i])
      {
        if i > 0 {
          Places(a, step, i - 1);
          assert ds[i] == ds[1..][i - 1];
        } else {
          Places(a, step, 0);
        }
      }
    }
  }

  /** A byte that a read of an address below the palette finds. */
  ghost predicate HasByte(v: Video, a: nat, b: Byte) {
    a < 0x3F00 && VideoRead(v, a) == b
  }

  lemma StepPositive(c: Ctrl)
    ensures AddrStep(c) > 0
  {
  }

  lemma AddressInside(a: nat, step: nat, n: nat, i: nat)
    requires InNametable(a, step, n) && i <= n
    ensures 0x2000 <= Place(a, step, i) < 0x3F00
  {
    assert i * step <= n * step;
  }

  /** The first read returns the buffer, each later one the byte before it. */
  lemma {:induction false} ReadBack(p: Ppu, n: nat, gap: nat -> nat, bytes: seq<Byte>)
    requires !p.mask.bgShow && |bytes| == n && Place(p.scroll.v, AddrStep(p.ctrl), n) < 0x3F00
    requires forall i: nat :: i < n ==> HasByte(p.video, Place(p.scroll.v, AddrStep(p.ctrl), i), bytes[i])
    ensures ReadBytes(p, n + 1, gap) == [p.port.dataBuf] + bytes
    decreases n
  {
    hide Dots, VideoRead, Place, AddrStep, ReadReg;
    var a, step := p.scroll.v, AddrStep(p.ctrl);
    Places(a, step, 0);
    assert n > 0 ==> HasByte(p.video, Place(a, step, 0), bytes[0]);
    var q := ReadReg(Dots(p, gap(n + 1)), 7);
    ReadOne(p, gap(n + 1));
    if n > 0 {
      NextInside(a, step, n);
      Places(a, step, n - 1);
      forall i: nat | i < n - 1
        ensures HasByte(q.video, Place(q.scroll.v, step, i), bytes[1..][i])
      {
        Places(a, step, i);
        assert HasByte(p.video, Place(a, step, i + 1), bytes[i + 1]);
      }
      ReadBack(q, n - 1, gap, bytes[1..]);
      assert bytes == [bytes[0]] + bytes[1..];
    } else {
      assert ReadBytes(q, 0, gap) == [];
      assert bytes == [];
    }
  }

  lemma NextInside(a: nat, step: nat, n: nat)
    requires n > 0 && Place(a, step, n) < 0x3F00
    ensures a + step < 0x3F00
  {
    assert n * step == (n - 1) * step + step;
  }

  /** One read of $2007 below the palette. */
  lemma ReadOne(p: Ppu, gap: nat)
    requires !p.mask.bgShow && p.scroll.v < 0x3F00
    ensures var q := ReadReg(Dots(p, gap), 7);
            && q.port.latch == p.port.dataBuf && q.port.dataBuf == VideoRead(p.video, p.scroll.v)
            && q.ctrl == p.ctrl && q.mask == p.mask && q.video == p.video
            && (p.scroll.v + AddrStep(p.ctrl) < 0x10000 ==> q.scroll.v == p.scroll.v + AddrStep(p.ctrl))
  {
    hide Dots, VideoRead;
    DotsKeepPort(p, gap);
  }

  /** Bytes written through the port are read back through it after one buffered byte: for both mirrorings and
      both address steps, from any state of the write latch, whatever dots pass in between. */
  lemma PortRoundTrip(p: Ppu, hi: Byte, lo: Byte, ds: seq<Byte>, g: Gaps, h: Gaps, wgap: nat -> nat, rgap: nat -> nat)
    requires !p.mask.bgShow && TopClear(p)
    requires InNametable(PortAddress(hi, lo), AddrStep(p.ctrl), |ds|)
    ensures var written := WriteBytes(SetAddress(p, hi, lo, g), ds, wgap);
            ReadBytes(SetAddress(written, hi, lo, h), |ds| + 1, rgap) == [p.port.dataBuf] + ds
  {
    hide SetAddress, WriteBytes, ReadBytes, VideoRead, PortAddress, InNametable, AddrStep, Mirror, TopClear, Place,
         Accessed;
    AddressSet(p, hi, lo, g);
    var q := SetAddress(p, hi, lo, g);
    WrittenBytes(q, ds, wgap);
    var w := WriteBytes(q, ds, wgap);
    AddressSet(w, hi, lo, h);
    var r := SetAddress(w, hi, lo, h);
    AddressInside(r.scroll.v, AddrStep(r.ctrl), |ds|, |ds|);
    ReadBack(r, |ds|, rgap, ds);
  }
}
