/** The raster counters of emu/core/ppumain.cpp over whole runs: one frame is 262 lines of 341 dots, every second
    frame is one dot shorter, and vertical blanking begins once per frame. */
module PpuRaster {
  import opened PpuModel

  const FRAME: nat := 262 * 341
  /** Dots in an even and an odd frame together: the counters start over. */
  const PERIOD: nat := 2 * FRAME - 1

  const EVEN_VBLANK: nat := 241 * 341 + 1
  const ODD_VBLANK: nat := FRAME + EVEN_VBLANK

  /** The counters agree with each other. */
  ghost predicate Valid(r: Raster) {
    && r.lines == r.cycles / 341
    && (r.oddFrame <==> r.cycles >= FRAME)
    && r.cycles <= PERIOD
  }

  function Advance(cycles: nat): nat {
    if cycles == PERIOD then 1 else cycles + 1
  }

  /** Line and cycle within the frame. */
  lemma Position(r: Raster)
    requires Valid(r)
    ensures 341 * LineOf(r) + CycleOf(r) == if r.cycles < FRAME then r.cycles else r.cycles - FRAME
    ensures LineOf(r) <= 261 && CycleOf(r) <= 340
  {
  }

  lemma DotKeepsValid(r: Raster)
    requires Valid(r)
    ensures Valid(RasterDot(r)) && RasterDot(r).cycles == Advance(r.cycles)
    ensures Fires(r) <==> r.cycles in {EVEN_VBLANK, ODD_VBLANK}
  {
    Position(r);
  }

  /** Positions follow raster order; only (0, 0) is skipped, and only after an odd frame. */
  lemma RasterOrder(r: Raster)
    requires Valid(r)
    ensures var line, cycle, s := LineOf(r), CycleOf(r), RasterDot(r);
            (LineOf(s), CycleOf(s)) ==
              if cycle < 340 then (line, cycle + 1)
              else if line < 261 then (line + 1, 0)
              else if r.oddFrame then (0, 1) else (0, 0)
  {
    DotKeepsValid(r);
    Position(r);
    Position(RasterDot(r));
  }

  // ----- Runs -----

  function RasterDots(r: Raster, n: nat): Raster
    decreases n
  {
    if n == 0 then r else RasterDots(RasterDot(r), n - 1)
  }

  function Count(b: bool): nat {
    if b then 1 else 0
  }

  /** How often vertical blanking begins during the next `n` dots. */
  function Vblanks(r: Raster, n: nat): nat
    decreases n
  {
    if n == 0 then 0 else Count(Fires(r)) + Vblanks(RasterDot(r), n - 1)
  }

  /** Multiples of the period, shifted to the blanking dots, below `x`. */
  function VblanksBefore(x: nat): nat {
    (x + PERIOD - 1 - EVEN_VBLANK) / PERIOD + (x + PERIOD - 1 - ODD_VBLANK) / PERIOD
  }

  lemma CountStep(x: nat)
    requires x <= PERIOD
    ensures VblanksBefore(x + 1) == VblanksBefore(x) + Count(x in {EVEN_VBLANK, ODD_VBLANK})
  {
  }

  lemma CountPeriod(x: nat)
    ensures VblanksBefore(x + PERIOD) == VblanksBefore(x) + 2
  {
    OneMore(x + PERIOD - 1 - EVEN_VBLANK);
    OneMore(x + PERIOD - 1 - ODD_VBLANK);
  }

  lemma OneMore(y: nat)
    ensures (y + PERIOD) / PERIOD == y / PERIOD + 1
  {
  }

  /** The invariant holds along every run and blanking is counted in closed form. */
  lemma {:induction false} RunCounts(r: Raster, n: nat)
    requires Valid(r)
    ensures Valid(RasterDots(r, n))
    ensures Vblanks(r, n) == VblanksBefore(r.cycles + n) - VblanksBefore(r.cycles)
    decreases n
  {
    hide RasterDot, Fires, Valid, VblanksBefore;
    if n > 0 {
      DotKeepsValid(r);
      RunCounts(RasterDot(r), n - 1);
      CyclesBounded(r);
      CountStep(r.cycles);
      if r.cycles == PERIOD {
        CountPeriod(1);
        CountPeriod(n);
      }
    }
  }

  lemma CyclesBounded(r: Raster)
    requires Valid(r)
    ensures r.cycles <= PERIOD
  {
  }

  lemma {:induction false} CyclesAfter(r: Raster, n: nat)
    requires Valid(r) && r.cycles + n <= PERIOD
    ensures RasterDots(r, n).cycles == r.cycles + n
    decreases n
  {
    hide RasterDot, Valid;
    if n > 0 {
      DotKeepsValid(r);
      CyclesAfter(RasterDot(r), n - 1);
    }
  }

  lemma {:induction false} RasterSplit(r: Raster, a: nat, b: nat)
    ensures RasterDots(r, a + b) == RasterDots(RasterDots(r, a), b)
    decreases a
  {
    if a > 0 {
      RasterSplit(RasterDot(r), a - 1, b);
    }
  }

  /** Crossing the restart of the counters once. */
  lemma CyclesAround(r: Raster, n: nat)
    requires Valid(r) && r.cycles + n > PERIOD && n <= PERIOD
    ensures RasterDots(r, n).cycles == r.cycles + n - PERIOD
  {
    hide RasterDot, Valid, VblanksBefore, Vblanks, RasterDots, Fires;
    CyclesBounded(r);
    var left := PERIOD - r.cycles;
    RunCounts(r, left);
    CyclesAfter(r, left);
    RasterSplit(r, left, n - left);
    var end := RasterDots(r, left);
    DotKeepsValid(end);
    FirstDot(end, n - left);
    CyclesAfter(RasterDot(end), n - left - 1);
  }

  lemma FirstDot(r: Raster, n: nat)
    requires n > 0
    ensures RasterDots(r, n) == RasterDots(RasterDot(r), n - 1)
  {
    hide RasterDot;
  }

  /** Dots from one beginning of blanking to the next: 89342 in an even frame, 89341 in an odd one, in turn. */
  lemma VblankIntervals(r: Raster)
    requires Valid(r) && Fires(r)
    ensures var gap := if r.oddFrame then 89341 else 89342;
            var next := RasterDots(r, gap);
            && Valid(next) && Fires(next) && next.oddFrame != r.oddFrame
            && Vblanks(r, gap) == 1
  {
    hide RasterDot, Fires, VblanksBefore, Vblanks, RasterDots;
    DotKeepsValid(r);
    var gap := if r.oddFrame then 89341 else 89342;
    RunCounts(r, gap);
    CountTable(r.cycles);
    CountTable(r.cycles + gap);
    if r.oddFrame {
      CyclesAround(r, gap);
    } else {
      CyclesAfter(r, gap);
    }
    DotKeepsValid(RasterDots(r, gap));
  }

  lemma CountTable(x: nat)
    ensures x <= EVEN_VBLANK ==> VblanksBefore(x) == 0
    ensures EVEN_VBLANK < x <= ODD_VBLANK ==> VblanksBefore(x) == 1
    ensures ODD_VBLANK < x <= PERIOD + EVEN_VBLANK ==> VblanksBefore(x) == 2
    ensures PERIOD + EVEN_VBLANK < x <= PERIOD + ODD_VBLANK ==> VblanksBefore(x) == 3
    ensures EVEN_VBLANK < x ==> VblanksBefore(x) >= 1
    ensures ODD_VBLANK < x ==> VblanksBefore(x) >= 2
    ensures PERIOD + EVEN_VBLANK < x ==> VblanksBefore(x) >= 3
  {
  }

  /** Fewer dots than the shorter interval see blanking begin at most once. */
  lemma AtMostOne(r: Raster, n: nat)
    requires Valid(r) && n <= 89341
    ensures Vblanks(r, n) <= 1
  {
    hide RasterDot, Fires, VblanksBefore;
    RunCounts(r, n);
    CountTable(r.cycles);
    CountTable(r.cycles + n);
  }

  /** Dots up to and including the next beginning of blanking. */
  function DotsToVblank(r: Raster): nat
    requires r.cycles <= PERIOD
  {
    if r.cycles <= EVEN_VBLANK then EVEN_VBLANK + 1 - r.cycles
    else if r.cycles <= ODD_VBLANK then ODD_VBLANK + 1 - r.cycles
    else PERIOD + EVEN_VBLANK + 1 - r.cycles
  }

  /** That many dots are needed and enough. */
  lemma VblankReached(r: Raster, n: nat)
    requires Valid(r)
    ensures Vblanks(r, n) == 0 <==> n < DotsToVblank(r)
  {
    hide RasterDot, Fires, VblanksBefore;
    RunCounts(r, n);
    CountTable(r.cycles);
    CountTable(r.cycles + n);
  }
}
