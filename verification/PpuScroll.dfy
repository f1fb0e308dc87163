/** Scrolling over lines and frames: the address register `v` as two counters, driven by the dots of
    emu/core/ppumain.cpp through the updates of emu/core/ppu.cpp. */
module PpuScroll {
  import opened Words
  import opened Bits
  import opened PpuModel
  import opened PpuCode
  import opened PpuRaster

  /** Tile column over two nametables side by side. */
  function H(v: nat): nat {
    32 * (Nt(v) % 2) + CoarseX(v)
  }

  /** Pixel row over two nametables of 240 rows, one above the other. */
  function V(v: nat): nat {
    240 * (Nt(v) / 2) + 8 * CoarseY(v) + FineY(v)
  }

  lemma FieldBounds(v: nat)
    ensures CoarseX(v) < 32 && CoarseY(v) < 32 && Nt(v) < 4 && FineY(v) < 8
  {
    hide Get;
    WordPowers();
    GetBounded(v, 0, 5);
    GetBounded(v, 5, 5);
    GetBounded(v, 10, 2);
    GetBounded(v, 12, 3);
  }

  lemma SmallFits(d: nat)
    ensures d < 32 ==> Get(d, 0, 5) == d
    ensures d < 4 ==> Get(d, 0, 2) == d
    ensures d < 8 ==> Get(d, 0, 3) == d
  {
    hide Get;
    WordPowers();
    if d < 32 { GetWhole(d, 5); }
    if d < 4 { GetWhole(d, 2); }
    if d < 8 { GetWhole(d, 3); }
  }

  // ----- The four updates -----

  /** One column right, wrapping over both nametables; rows untouched. */
  lemma HorzStep(v: Word)
    ensures H(IncHorz(v)) == (H(v) + 1) % 64
    ensures V(IncHorz(v)) == V(v) && CoarseY(IncHorz(v)) == CoarseY(v)
  {
    hide Get, Put, With;
    FieldBounds(v);
    FieldsIndependent(v, 0);
    FieldsIndependent(v, CoarseX(v) + 1);
    SmallFits(0);
    SmallFits(CoarseX(v) + 1);
    FieldsIndependent(WithCoarseX(v, 0), FlipLow(Nt(v)));
    SmallFits(FlipLow(Nt(v)));
  }

  lemma VertStepLow(v: Word)
    requires FineY(v) < 7
    ensures H(IncVert(v)) == H(v) && CoarseY(IncVert(v)) == CoarseY(v)
    ensures Nt(IncVert(v)) == Nt(v) && FineY(IncVert(v)) == FineY(v) + 1
  {
    hide Get, Put, With;
    FieldsIndependent(v, FineY(v) + 1);
    SmallFits(FineY(v) + 1);
  }

  lemma VertStepHigh(v: Word)
    requires FineY(v) == 7
    ensures H(IncVert(v)) == H(v) && FineY(IncVert(v)) == 0
    ensures Nt(IncVert(v)) == if CoarseY(v) == 29 then FlipHigh(Nt(v)) else Nt(v)
    ensures CoarseY(IncVert(v)) == if CoarseY(v) in {29, 31} then 0 else CoarseY(v) + 1
  {
    hide Get, Put, With;
    FieldBounds(v);
    var w := WithFineY(v, 0);
    FieldsIndependent(v, 0);
    SmallFits(0);
    FieldsIndependent(w, 0);
    FieldsIndependent(w, CoarseY(v) + 1);
    SmallFits(CoarseY(v) + 1);
    var f := FlipHigh(Nt(v));
    FieldsIndependent(w, f);
    SmallFits(f);
    FieldsIndependent(WithNt(w, f), 0);
  }

  /** One row down, wrapping after two nametables; columns untouched. */
  lemma VertStep(v: Word)
    ensures H(IncVert(v)) == H(v)
    ensures CoarseY(v) <= 29 ==> V(IncVert(v)) == (V(v) + 1) % 480 && CoarseY(IncVert(v)) <= 29
  {
    hide IncVert, CoarseX, CoarseY, Nt, FineY;
    FieldBounds(v);
    if FineY(v) < 7 {
      VertStepLow(v);
    } else {
      VertStepHigh(v);
    }
  }

  lemma HorzCopy(v: Word, t: Word)
    ensures H(CopyHorz(v, t)) == H(t)
    ensures V(CopyHorz(v, t)) == V(v) && CoarseY(CopyHorz(v, t)) == CoarseY(v)
  {
    hide Get, Put, With;
    FieldBounds(v);
    FieldBounds(t);
    var w := WithCoarseX(v, t);
    FieldsIndependent(v, t);
    var n := LowFrom(Nt(w), Nt(t));
    FieldsIndependent(w, n);
    SmallFits(n);
  }

  lemma LowThree(t: nat)
    ensures Get(t, 0, 3) == CoarseX(t) % 8
  {
    hide Get, And, ShiftRight, Pow2;
    WordPowers();
    GetOfGet(t, 3, 2);
    LowBits(CoarseX(t), 3);
  }

  /** What `copy_v_vertpos` leaves: both vertical fields from the low bits of `t`, that is from its column. */
  lemma VertCopy(v: Word, t: Word)
    ensures var w := CopyVert(v, t);
            && H(w) == H(v)
            && CoarseY(w) == CoarseX(t) && FineY(w) == CoarseX(t) % 8 && Nt(w) / 2 == Nt(t) / 2
  {
    hide CoarseX, CoarseY, Nt, FineY, WithCoarseX, WithCoarseY, WithNt, WithFineY, Get;
    var a := WithCoarseY(v, t);
    FieldsIndependent(v, t);
    var b := WithFineY(a, t);
    FieldsIndependent(a, t);
    FieldBounds(b);
    FieldBounds(t);
    var n := HighFrom(Nt(b), Nt(t));
    FieldsIndependent(b, n);
    SmallFits(n);
    LowThree(t);
    LowFive(t);
  }

  lemma LowFive(t: nat)
    ensures Get(t, 0, 5) == CoarseX(t)
  {
  }

  /** It copies the vertical position if and only if `t`'s row fields equal what its column fields spell. */
  lemma VertCopyExact(v: Word, t: Word)
    ensures V(CopyVert(v, t)) == V(t) && CoarseY(CopyVert(v, t)) == CoarseY(t)
            <==> CoarseY(t) == CoarseX(t) && FineY(t) == CoarseX(t) % 8
  {
    hide CopyVert, CoarseX, CoarseY, Nt, FineY;
    VertCopy(v, t);
  }

  // ----- One line -----

  /** `v` after the first `c` dots of a line. */
  function LineScroll(v: Word, t: Word, line: nat, c: nat): Word
    decreases c
  {
    if c == 0 then v else ScrollDot(LineScroll(v, t, line, c - 1), t, line, c - 1)
  }

  /** Column increments among the first `c` dots, before the copy at 257. */
  function ColumnSteps(c: nat): nat {
    if c == 0 then 0 else if c > 248 then 31 else (c - 1) / 8
  }

  /** Column increments after the copy: two tiles are fetched ahead for the next line. */
  function LateSteps(c: nat): nat {
    if c > 336 then 2 else if c > 328 then 1 else 0
  }

  function ColumnAt(v: Word, t: Word, c: nat): nat {
    if c <= 257 then (H(v) + ColumnSteps(c)) % 64
    else (H(t) + LateSteps(c)) % 64
  }

  /** Within the first 256 dots one column per eight. */
  lemma StepsAdvance(c: nat)
    ensures c <= 255 && c % 8 == 0 && c > 0 ==> ColumnSteps(c + 1) == ColumnSteps(c) + 1
    ensures (c % 8 != 0 || c == 0 || c >= 249) ==> ColumnSteps(c + 1) == ColumnSteps(c)
  {
  }

  lemma ModStep(h: nat)
    ensures (h + 1) % 64 == (h % 64 + 1) % 64
  {
  }

  lemma ColumnAdvance(v: Word, t: Word, c: nat)
    requires c <= 340
    ensures (Fetching(c) && c % 8 == 0 && c != 256) ==> ColumnAt(v, t, c + 1) == (ColumnAt(v, t, c) + 1) % 64
    ensures !(Fetching(c) && c % 8 == 0) && c != 257 ==> ColumnAt(v, t, c + 1) == ColumnAt(v, t, c)
    ensures c == 256 ==> ColumnAt(v, t, c + 1) == ColumnAt(v, t, c)
    ensures c == 257 ==> ColumnAt(v, t, c + 1) == H(t) % 64
  {
    hide H, ColumnSteps, LateSteps;
    if c <= 256 {
      StepsAdvance(c);
      ModStep(H(v) + ColumnSteps(c));
    } else {
      LateAdvance(c);
      ModStep(H(t) + LateSteps(c));
    }
  }

  lemma LateAdvance(c: nat)
    requires 257 <= c <= 340
    ensures Fetching(c) && c % 8 == 0 ==> LateSteps(c + 1) == LateSteps(c) + 1
    ensures !(Fetching(c) && c % 8 == 0) ==> LateSteps(c + 1) == LateSteps(c)
    ensures LateSteps(258) == 0
  {
  }

  lemma ColumnBound(v: nat)
    ensures H(v) < 64
  {
    FieldBounds(v);
  }

  /** Row reached after `c` dots of rendering line `line`. */
  function RowAt(v: Word, t: Word, line: nat, c: nat): nat {
    if line == 261 && c > 280 then TopRow(t) else if c > 256 then (V(v) + 1) % 480 else V(v)
  }

  /** Row at which the next frame starts, given `t`. */
  function TopRow(t: Word): nat {
    240 * (Nt(t) / 2) + 8 * CoarseX(t) + CoarseX(t) % 8
  }

  lemma {:induction false} LinePosition(v: Word, t: Word, line: nat, c: nat)
    requires Rendering(line) && c <= 341 && CoarseY(v) <= 29 && (line == 261 ==> CoarseX(t) <= 29)
    ensures var w := LineScroll(v, t, line, c);
            && H(w) == ColumnAt(v, t, c)
            && V(w) == RowAt(v, t, line, c)
            && CoarseY(w) <= 29
    decreases c
  {
    hide H, V, ScrollDot, CoarseX, CoarseY, ColumnAt, RowAt;
    if c == 0 {
      FirstColumn(v, t);
      FirstRow(v, t, line);
    } else {
      LinePosition(v, t, line, c - 1);
      var w := LineScroll(v, t, line, c - 1);
      DotColumn(v, w, t, line, c - 1);
      DotRow(v, w, t, line, c - 1);
    }
  }

  lemma FirstRow(v: Word, t: Word, line: nat)
    ensures RowAt(v, t, line, 0) == V(v)
  {
    hide V;
  }

  lemma DotColumn(v: Word, w: Word, t: Word, line: nat, c: nat)
    requires Rendering(line) && c <= 340 && H(w) == ColumnAt(v, t, c)
    ensures H(ScrollDot(w, t, line, c)) == ColumnAt(v, t, c + 1)
  {
    hide H, V, IncHorz, IncVert, CopyHorz, CopyVert, CoarseX, CoarseY, ColumnAt, TopRow;
    ColumnAdvance(v, t, c);
    ColumnBound(t);
    HorzStep(w);
    VertStep(w);
    HorzCopy(w, t);
    VertCopyRow(w, t);
  }

  lemma DotRow(v: Word, w: Word, t: Word, line: nat, c: nat)
    requires Rendering(line) && c <= 340 && V(w) == RowAt(v, t, line, c) && CoarseY(w) <= 29
    requires line == 261 ==> CoarseX(t) <= 29
    ensures V(ScrollDot(w, t, line, c)) == RowAt(v, t, line, c + 1) && CoarseY(ScrollDot(w, t, line, c)) <= 29
  {
    hide H, V, IncHorz, IncVert, CopyHorz, CopyVert, CoarseX, CoarseY, TopRow;
    HorzStep(w);
    VertStep(w);
    HorzCopy(w, t);
    VertCopyRow(w, t);
  }

  lemma FirstColumn(v: Word, t: Word)
    ensures ColumnAt(v, t, 0) == H(v)
  {
    ColumnBound(v);
  }

  lemma VertCopyRow(w: Word, t: Word)
    ensures H(CopyVert(w, t)) == H(w) && V(CopyVert(w, t)) == TopRow(t) && CoarseY(CopyVert(w, t)) == CoarseX(t)
  {
    hide CopyVert;
    VertCopy(w, t);
  }

  // ----- Lines and frames of dots, with the background shown and no register access -----

  ghost predicate At(p: Ppu, line: nat, cycle: nat) {
    Valid(p.raster) && p.mask.bgShow && LineOf(p.raster) == line && CycleOf(p.raster) == cycle
  }

  /** The position after the dot at (line, cycle); the first dot of a frame is skipped after an odd one. */
  ghost predicate AtNextLine(p: Ppu, line: nat) {
    if line < 261 then At(p, line + 1, 0) else At(p, 0, 0) || At(p, 0, 1)
  }

  lemma DotMoves(p: Ppu, line: nat, cycle: nat)
    requires At(p, line, cycle)
    ensures line <= 261 && cycle <= 340
    ensures if cycle < 340 then At(Dot(p), line, cycle + 1) else AtNextLine(Dot(p), line)
    ensures Dot(p).scroll == p.scroll.(v := ScrollDot(p.scroll.v, p.scroll.t, line, cycle))
  {
    hide ScrollDot, FetchCycle, StatusDot, RasterDot, Valid;
    DotKeepsValid(p.raster);
    RasterOrder(p.raster);
    Position(p.raster);
  }

  lemma {:induction false} DotsMove(p: Ppu, v: Word, line: nat, c: nat, k: nat)
    requires At(p, line, c) && c + k <= 341 && p.scroll.v == LineScroll(v, p.scroll.t, line, c)
    ensures var q := Dots(p, k);
            && q.scroll == p.scroll.(v := LineScroll(v, p.scroll.t, line, c + k))
            && (if c + k < 341 then At(q, line, c + k) else k > 0 ==> AtNextLine(q, line))
    decreases k
  {
    hide ScrollDot, Dot, At;
    if k > 0 {
      DotMoves(p, line, c);
      if c + 1 < 341 {
        DotsMove(Dot(p), v, line, c + 1, k - 1);
      }
    }
  }

  lemma LineEnds(v: Word, t: Word, line: nat)
    requires Rendering(line) && CoarseY(v) <= 29 && (line == 261 ==> CoarseX(t) <= 29)
    ensures var w := LineScroll(v, t, line, 341);
            && H(w) == (H(t) + 2) % 64
            && V(w) == (if line == 261 then TopRow(t) else (V(v) + 1) % 480)
            && CoarseY(w) <= 29
  {
    hide H, V, TopRow, CoarseX, CoarseY, LineScroll;
    LinePosition(v, t, line, 341);
  }

  lemma LineStart(v: Word, t: Word, line: nat, c: nat)
    requires c <= 1
    ensures LineScroll(v, t, line, c) == v
  {
    hide IncHorz, IncVert, CopyHorz, CopyVert;
    if c == 1 {
      assert LineScroll(v, t, line, 1) == ScrollDot(LineScroll(v, t, line, 0), t, line, 0);
    }
  }

  /** A whole rendering line from its first or second dot. */
  lemma LineDots(p: Ppu, line: nat, c: nat)
    requires At(p, line, c) && c <= 1 && Rendering(line)
    requires CoarseY(p.scroll.v) <= 29 && (line == 261 ==> CoarseX(p.scroll.t) <= 29)
    ensures var q := Dots(p, 341 - c);
            && AtNextLine(q, line)
            && q.scroll.t == p.scroll.t
            && H(q.scroll.v) == (H(p.scroll.t) + 2) % 64
            && V(q.scroll.v) == (if line == 261 then TopRow(p.scroll.t) else (V(p.scroll.v) + 1) % 480)
            && CoarseY(q.scroll.v) <= 29
  {
    hide *;
    var v, t := p.scroll.v, p.scroll.t;
    LineStart(v, t, line, c);
    DotsMove(p, v, line, c, 341 - c);
    LineEnds(v, t, line);
  }

  lemma {:induction false} DotsSplit(p: Ppu, a: nat, b: nat)
    ensures Dots(p, a + b) == Dots(Dots(p, a), b)
    decreases a
  {
    hide Dot;
    if a > 0 {
      DotsSplit(Dot(p), a - 1, b);
    }
  }

  /** Dots from the first dot of a frame (which may be missing) to the start of visible line `n`. */
  function ToLine(c: nat, n: nat): nat
    requires c <= 1
  {
    if n == 0 then 0 else 341 * n - c
  }

  /** From the top of the picture, the row at the start of visible line n is V0 + n modulo 480, and every line
      but the first starts at column H(t) + 2 modulo 64. */
  lemma {:induction false} VisibleLines(p: Ppu, c: nat, n: nat)
    requires At(p, 0, c) && c <= 1 && n <= 240
    requires CoarseY(p.scroll.v) <= 29
    ensures var q := Dots(p, ToLine(c, n));
            && At(q, n, if n == 0 then c else 0)
            && q.scroll.t == p.scroll.t
            && V(q.scroll.v) == (V(p.scroll.v) + n) % 480 && CoarseY(q.scroll.v) <= 29
            && (n > 0 ==> H(q.scroll.v) == (H(p.scroll.t) + 2) % 64)
    decreases n
  {
    hide H, V, CoarseX, CoarseY, Dot, At, Dots;
    if n == 0 {
      NoDots(p);
      RowBound(p.scroll.v);
    } else {
      RowAfter(V(p.scroll.v) + n - 1);
      VisibleLines(p, c, n - 1);
      var q := Dots(p, ToLine(c, n - 1));
      var c' := if n == 1 then c else 0;
      LineDots(q, n - 1, c');
      DotsSplit(p, ToLine(c, n - 1), 341 - c');
    }
  }

  lemma NoDots(p: Ppu)
    ensures Dots(p, 0) == p
  {
  }

  /** A frame from its pre-render line: the picture starts at the row `TopRow` of `t` and runs down from there. */
  lemma FrameScroll(p: Ppu, n: nat)
    requires At(p, 261, 0) && n <= 240
    requires CoarseY(p.scroll.v) <= 29 && CoarseX(p.scroll.t) <= 29
    ensures var top := Dots(p, 341);
            var c := CycleOf(top.raster);
            c <= 1 &&
            var q := Dots(top, ToLine(c, n));
            && LineOf(q.raster) == n
            && V(q.scroll.v) == (TopRow(p.scroll.t) + n) % 480
            && H(q.scroll.v) == (H(p.scroll.t) + 2) % 64
  {
    hide H, V, TopRow, CoarseX, CoarseY, Dot, Dots;
    LineDots(p, 261, 0);
    var top := Dots(p, 341);
    VisibleLines(top, CycleOf(top.raster), n);
    if n == 0 {
      NoDots(top);
    }
  }

  // ----- Exactly when the row law holds -----

  function Rows(v: Word, n: nat): Word
    decreases n
  {
    if n == 0 then v else IncVert(Rows(v, n - 1))
  }

  lemma {:induction false} RowsWithinNametable(v: Word, n: nat)
    requires CoarseY(v) <= 29
    ensures V(Rows(v, n)) == (V(v) + n) % 480 && CoarseY(Rows(v, n)) <= 29
    decreases n
  {
    hide IncVert, CoarseY, V;
    if n == 0 {
      RowBound(v);
    } else {
      RowsWithinNametable(v, n - 1);
      VertStep(Rows(v, n - 1));
      RowAfter(V(v) + n - 1);
    }
  }

  lemma RowBound(v: nat)
    ensures CoarseY(v) <= 29 ==> V(v) < 480
  {
    FieldBounds(v);
  }

  lemma RowAfter(row: nat)
    ensures (row % 480 + 1) % 480 == (row + 1) % 480
  {
  }

  /** Rows 30 and 31 of a nametable: counting runs on to 31, then back to 0 in the same nametable. */
  lemma {:induction false} RowsBelowNametable(v: Word, n: nat)
    requires CoarseY(v) >= 30 && 8 * CoarseY(v) + FineY(v) + n <= 256
    ensures var w := Rows(v, n);
            && Nt(w) == Nt(v)
            && 8 * CoarseY(w) + FineY(w) ==
               if 8 * CoarseY(v) + FineY(v) + n == 256 then 0 else 8 * CoarseY(v) + FineY(v) + n
    decreases n
  {
    hide IncVert, CoarseX, CoarseY, Nt, FineY;
    FieldBounds(v);
    if n > 0 {
      RowsBelowNametable(v, n - 1);
      var w := Rows(v, n - 1);
      FieldBounds(w);
      if FineY(w) < 7 {
        VertStepLow(w);
      } else {
        VertStepHigh(w);
      }
    }
  }

  /** The row counter is V0 + n modulo 480 on every line if and only if it starts inside a nametable. */
  lemma RowLawExact(v: Word)
    ensures (forall n: nat :: V(Rows(v, n)) == (V(v) + n) % 480) <==> CoarseY(v) <= 29
  {
    hide Rows, CoarseY, Nt, FineY;
    if CoarseY(v) <= 29 {
      forall n: nat
        ensures V(Rows(v, n)) == (V(v) + n) % 480
      {
        RowsWithinNametable(v, n);
      }
    } else {
      FieldBounds(v);
      var n := 256 - 8 * CoarseY(v) - FineY(v);
      RowsBelowNametable(v, n);
      assert V(Rows(v, n)) != (V(v) + n) % 480;
    }
  }
}
