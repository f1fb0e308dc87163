/** The coefficient order of the JPEG reader (`stbi__jpeg_dezigzag` in external/stb/stb_image.h) is the diagonal walk of
    figure 5 of ITU-T T.81. */
module JpegZigzag {
  import opened JpegModel

  // ----- The walk -----

  /** A place of the 8 by 8 block by row and column. */
  datatype Cell = Cell(row: nat, col: nat)

  ghost predicate Inside(c: Cell) {
    c.row < 8 && c.col < 8
  }

  ghost function PlaceOf(c: Cell): nat {
    8 * c.row + c.col
  }

  ghost function CellOf(p: nat): Cell {
    Cell(p / 8, p % 8)
  }

  /** Upwards along even diagonals and downwards along odd ones; at an edge on to the next diagonal. */
  ghost function StepOn(c: Cell): Cell {
    if (c.row + c.col) % 2 == 0 then
      if c.col == 7 then Cell(c.row + 1, c.col)
      else if c.row == 0 then Cell(c.row, c.col + 1)
      else Cell(c.row - 1, c.col + 1)
    else
      if c.row == 7 then Cell(c.row, c.col + 1)
      else if c.col == 0 then Cell(c.row + 1, c.col)
      else Cell(c.row + 1, c.col - 1)
  }

  /** The cell reached after `k` steps from the upper left corner. */
  ghost function Walk(k: nat): Cell {
    if k == 0 then Cell(0, 0) else StepOn(Walk(k - 1))
  }

  // ----- The table -----

  /** The place one step on. */
  ghost function PlaceAfter(p: nat): nat {
    PlaceOf(StepOn(CellOf(p)))
  }

  lemma Goes(row: nat, col: nat, row': nat, col': nat)
    requires row < 8 && col < 8 && StepOn(Cell(row, col)) == Cell(row', col')
    ensures PlaceAfter(8 * row + col) == 8 * row' + col'
  {
    assert CellOf(8 * row + col) == Cell(row, col);
    hide StepOn;
  }

  lemma Entries0()
    ensures ZIGZAG[0] == 0 && ZIGZAG[1] == 1 && ZIGZAG[2] == 8 && ZIGZAG[3] == 16
    ensures ZIGZAG[4] == 9 && ZIGZAG[5] == 2 && ZIGZAG[6] == 3 && ZIGZAG[7] == 10
  {
  }

  lemma Entries8()
    ensures ZIGZAG[8] == 17 && ZIGZAG[9] == 24 && ZIGZAG[10] == 32 && ZIGZAG[11] == 25
    ensures ZIGZAG[12] == 18 && ZIGZAG[13] == 11 && ZIGZAG[14] == 4 && ZIGZAG[15] == 5
  {
  }

  lemma Entries16()
    ensures ZIGZAG[16] == 12 && ZIGZAG[17] == 19 && ZIGZAG[18] == 26 && ZIGZAG[19] == 33
    ensures ZIGZAG[20] == 40 && ZIGZAG[21] == 48 && ZIGZAG[22] == 41 && ZIGZAG[23] == 34
  {
  }

  lemma Entries24()
    ensures ZIGZAG[24] == 27 && ZIGZAG[25] == 20 && ZIGZAG[26] == 13 && ZIGZAG[27] == 6
    ensures ZIGZAG[28] == 7 && ZIGZAG[29] == 14 && ZIGZAG[30] == 21 && ZIGZAG[31] == 28
  {
  }

  lemma Entries32()
    ensures ZIGZAG[32] == 35 && ZIGZAG[33] == 42 && ZIGZAG[34] == 49 && ZIGZAG[35] == 56
    ensures ZIGZAG[36] == 57 && ZIGZAG[37] == 50 && ZIGZAG[38] == 43 && ZIGZAG[39] == 36
  {
  }

  lemma Entries40()
    ensures ZIGZAG[40] == 29 && ZIGZAG[41] == 22 && ZIGZAG[42] == 15 && ZIGZAG[43] == 23
    ensures ZIGZAG[44] == 30 && ZIGZAG[45] == 37 && ZIGZAG[46] == 44 && ZIGZAG[47] == 51
  {
  }

  lemma Entries48()
    ensures ZIGZAG[48] == 58 && ZIGZAG[49] == 59 && ZIGZAG[50] == 52 && ZIGZAG[51] == 45
    ensures ZIGZAG[52] == 38 && ZIGZAG[53] == 31 && ZIGZAG[54] == 39 && ZIGZAG[55] == 46
  {
  }

  lemma Entries56()
    ensures ZIGZAG[56] == 53 && ZIGZAG[57] == 60 && ZIGZAG[58] == 61 && ZIGZAG[59] == 54
    ensures ZIGZAG[60] == 47 && ZIGZAG[61] == 55 && ZIGZAG[62] == 62 && ZIGZAG[63] == 63
  {
  }

  lemma Steps0()
    ensures PlaceAfter(0) == 1 && PlaceAfter(1) == 8 && PlaceAfter(8) == 16 && PlaceAfter(16) == 9
    ensures PlaceAfter(9) == 2 && PlaceAfter(2) == 3 && PlaceAfter(3) == 10 && PlaceAfter(10) == 17
  {
    hide PlaceAfter;
    Goes(0, 0, 0, 1);
    Goes(0, 1, 1, 0);
    Goes(1, 0, 2, 0);
    Goes(2, 0, 1, 1);
    Goes(1, 1, 0, 2);
    Goes(0, 2, 0, 3);
    Goes(0, 3, 1, 2);
    Goes(1, 2, 2, 1);
  }

  lemma Steps8()
    ensures PlaceAfter(17) == 24 && PlaceAfter(24) == 32 && PlaceAfter(32) == 25 && PlaceAfter(25) == 18
    ensures PlaceAfter(18) == 11 && PlaceAfter(11) == 4 && PlaceAfter(4) == 5 && PlaceAfter(5) == 12
  {
    hide PlaceAfter;
    Goes(2, 1, 3, 0);
    Goes(3, 0, 4, 0);
    Goes(4, 0, 3, 1);
    Goes(3, 1, 2, 2);
    Goes(2, 2, 1, 3);
    Goes(1, 3, 0, 4);
    Goes(0, 4, 0, 5);
    Goes(0, 5, 1, 4);
  }

  lemma Steps16()
    ensures PlaceAfter(12) == 19 && PlaceAfter(19) == 26 && PlaceAfter(26) == 33 && PlaceAfter(33) == 40
    ensures PlaceAfter(40) == 48 && PlaceAfter(48) == 41 && PlaceAfter(41) == 34 && PlaceAfter(34) == 27
  {
    hide PlaceAfter;
    Goes(1, 4, 2, 3);
    Goes(2, 3, 3, 2);
    Goes(3, 2, 4, 1);
    Goes(4, 1, 5, 0);
    Goes(5, 0, 6, 0);
    Goes(6, 0, 5, 1);
    Goes(5, 1, 4, 2);
    Goes(4, 2, 3, 3);
  }

  lemma Steps24()
    ensures PlaceAfter(27) == 20 && PlaceAfter(20) == 13 && PlaceAfter(13) == 6 && PlaceAfter(6) == 7
    ensures PlaceAfter(7) == 14 && PlaceAfter(14) == 21 && PlaceAfter(21) == 28 && PlaceAfter(28) == 35
  {
    hide PlaceAfter;
    Goes(3, 3, 2, 4);
    Goes(2, 4, 1, 5);
    Goes(1, 5, 0, 6);
    Goes(0, 6, 0, 7);
    Goes(0, 7, 1, 6);
    Goes(1, 6, 2, 5);
    Goes(2, 5, 3, 4);
    Goes(3, 4, 4, 3);
  }

  lemma Steps32()
    ensures PlaceAfter(35) == 42 && PlaceAfter(42) == 49 && PlaceAfter(49) == 56 && PlaceAfter(56) == 57
    ensures PlaceAfter(57) == 50 && PlaceAfter(50) == 43 && PlaceAfter(43) == 36 && PlaceAfter(36) == 29
  {
    hide PlaceAfter;
    Goes(4, 3, 5, 2);
    Goes(5, 2, 6, 1);
    Goes(6, 1, 7, 0);
    Goes(7, 0, 7, 1);
    Goes(7, 1, 6, 2);
    Goes(6, 2, 5, 3);
    Goes(5, 3, 4, 4);
    Goes(4, 4, 3, 5);
  }

  lemma Steps40()
    ensures PlaceAfter(29) == 22 && PlaceAfter(22) == 15 && PlaceAfter(15) == 23 && PlaceAfter(23) == 30
    ensures PlaceAfter(30) == 37 && PlaceAfter(37) == 44 && PlaceAfter(44) == 51 && PlaceAfter(51) == 58
  {
    hide PlaceAfter;
    Goes(3, 5, 2, 6);
    Goes(2, 6, 1, 7);
    Goes(1, 7, 2, 7);
    Goes(2, 7, 3, 6);
    Goes(3, 6, 4, 5);
    Goes(4, 5, 5, 4);
    Goes(5, 4, 6, 3);
    Goes(6, 3, 7, 2);
  }

  lemma Steps48()
    ensures PlaceAfter(58) == 59 && PlaceAfter(59) == 52 && PlaceAfter(52) == 45 && PlaceAfter(45) == 38
    ensures PlaceAfter(38) == 31 && PlaceAfter(31) == 39 && PlaceAfter(39) == 46 && PlaceAfter(46) == 53
  {
    hide PlaceAfter;
    Goes(7, 2, 7, 3);
    Goes(7, 3, 6, 4);
    Goes(6, 4, 5, 5);
    Goes(5, 5, 4, 6);
    Goes(4, 6, 3, 7);
    Goes(3, 7, 4, 7);
    Goes(4, 7, 5, 6);
    Goes(5, 6, 6, 5);
  }

  lemma Steps56()
    ensures PlaceAfter(53) == 60 && PlaceAfter(60) == 61 && PlaceAfter(61) == 54 && PlaceAfter(54) == 47
    ensures PlaceAfter(47) == 55 && PlaceAfter(55) == 62 && PlaceAfter(62) == 63
  {
    hide PlaceAfter;
    Goes(6, 5, 7, 4);
    Goes(7, 4, 7, 5);
    Goes(7, 5, 6, 6);
    Goes(6, 6, 5, 7);
    Goes(5, 7, 6, 7);
    Goes(6, 7, 7, 6);
    Goes(7, 6, 7, 7);
  }

  lemma Walks0(k: nat)
    requires 0 <= k < 8
    ensures ZIGZAG[k + 1] == PlaceAfter(ZIGZAG[k])
  {
    hide ZIGZAG, PlaceAfter;
    LengthIs();
    Entries0();
    Entries8();
    Steps0();
  }

  lemma Walks8(k: nat)
    requires 8 <= k < 16
    ensures ZIGZAG[k + 1] == PlaceAfter(ZIGZAG[k])
  {
    hide ZIGZAG, PlaceAfter;
    LengthIs();
    Entries8();
    Entries16();
    Steps8();
  }

  lemma Walks16(k: nat)
    requires 16 <= k < 24
    ensures ZIGZAG[k + 1] == PlaceAfter(ZIGZAG[k])
  {
    hide ZIGZAG, PlaceAfter;
    LengthIs();
    Entries16();
    Entries24();
    Steps16();
  }

  lemma Walks24(k: nat)
    requires 24 <= k < 32
    ensures ZIGZAG[k + 1] == PlaceAfter(ZIGZAG[k])
  {
    hide ZIGZAG, PlaceAfter;
    LengthIs();
    Entries24();
    Entries32();
    Steps24();
  }

  lemma Walks32(k: nat)
    requires 32 <= k < 40
    ensures ZIGZAG[k + 1] == PlaceAfter(ZIGZAG[k])
  {
    hide ZIGZAG, PlaceAfter;
    LengthIs();
    Entries32();
    Entries40();
    Steps32();
  }

  lemma Walks40(k: nat)
    requires 40 <= k < 48
    ensures ZIGZAG[k + 1] == PlaceAfter(ZIGZAG[k])
  {
    hide ZIGZAG, PlaceAfter;
    LengthIs();
    Entries40();
    Entries48();
    Steps40();
  }

  lemma Walks48(k: nat)
    requires 48 <= k < 56
    ensures ZIGZAG[k + 1] == PlaceAfter(ZIGZAG[k])
  {
    hide ZIGZAG, PlaceAfter;
    LengthIs();
    Entries48();
    Entries56();
    Steps48();
  }

  lemma Walks56(k: nat)
    requires 56 <= k < 63
    ensures ZIGZAG[k + 1] == PlaceAfter(ZIGZAG[k])
  {
    hide ZIGZAG, PlaceAfter;
    LengthIs();
    Entries56();
    Steps56();
  }

  lemma LengthIs()
    ensures |ZIGZAG| == 79
  {
  }

  lemma Padding(k: nat)
    requires 63 <= k < 79
    ensures |ZIGZAG| == 79 && ZIGZAG[k] == 63
  {
  }

  lemma TableSteps(k: nat)
    requires k < 63
    ensures |ZIGZAG| == 79 && ZIGZAG[0] == 0 && ZIGZAG[k + 1] == PlaceAfter(ZIGZAG[k])
  {
    hide ZIGZAG, PlaceAfter;
    LengthIs();
    Entries0();
    match k / 8
    case 0 => Walks0(k);
    case 1 => Walks8(k);
    case 2 => Walks16(k);
    case 3 => Walks24(k);
    case 4 => Walks32(k);
    case 5 => Walks40(k);
    case 6 => Walks48(k);
    case _ => Walks56(k);
  }

  lemma CellPlace(c: Cell)
    requires Inside(c)
    ensures PlaceOf(c) < 64 && CellOf(PlaceOf(c)) == c
  {
  }

  lemma StepInside(c: Cell)
    requires Inside(c) && c != Cell(7, 7)
    ensures Inside(StepOn(c))
  {
  }

  // ----- The walk counts the cells -----

  /** Cells on the diagonals before `d`, in the upper left half. */
  ghost function Before(d: nat): nat {
    if d == 0 then 0 else Before(d - 1) + d
  }

  /** The number of a cell in the upper left half: those on earlier diagonals, and those before it on its own. */
  ghost function UpperIndex(c: Cell): nat {
    Before(c.row + c.col) + if (c.row + c.col) % 2 == 0 then c.col else c.row
  }

  /** The number of a cell; the lower right half is the upper left one turned about. */
  ghost function Index(c: Cell): int
    requires Inside(c)
  {
    if c.row + c.col <= 7 then UpperIndex(c) else 63 - UpperIndex(Cell(7 - c.row, 7 - c.col))
  }

  lemma Triangles()
    ensures Before(0) == 0 && Before(1) == 1 && Before(2) == 3 && Before(3) == 6 && Before(4) == 10
    ensures Before(5) == 15 && Before(6) == 21 && Before(7) == 28
  {
    assert Before(4) == 10;
  }

  lemma DiagonalGrows(d: nat)
    ensures Before(d + 1) == Before(d) + d + 1
  {
  }

  lemma IndexUpper(c: Cell)
    requires Inside(c) && c.row + c.col < 7
    ensures Inside(StepOn(c)) && Index(StepOn(c)) == Index(c) + 1
  {
    hide Before;
    DiagonalGrows(c.row + c.col);
  }

  lemma IndexMiddle(c: Cell)
    requires Inside(c) && c.row + c.col == 7
    ensures Inside(StepOn(c)) && Index(StepOn(c)) == Index(c) + 1
  {
    hide Before;
    Triangles();
  }

  lemma IndexLowerEven(c: Cell)
    requires Inside(c) && c.row + c.col > 7 && c != Cell(7, 7) && (c.row + c.col) % 2 == 0
    ensures Inside(StepOn(c)) && Index(StepOn(c)) == Index(c) + 1
  {
    hide Before;
    var d := 14 - c.row - c.col;
    DiagonalGrows(d - 1);
    assert d % 2 == 0;
    assert Index(c) == 63 - (Before(d) + (7 - c.col));
    if c.col == 7 {
      assert Index(StepOn(c)) == 63 - (Before(d - 1) + (6 - c.row));
    } else {
      assert Index(StepOn(c)) == 63 - (Before(d) + (6 - c.col));
    }
  }

  lemma IndexLowerOdd(c: Cell)
    requires Inside(c) && c.row + c.col > 7 && (c.row + c.col) % 2 == 1
    ensures Inside(StepOn(c)) && Index(StepOn(c)) == Index(c) + 1
  {
    hide Before;
    var d := 14 - c.row - c.col;
    DiagonalGrows(d - 1);
    assert d % 2 == 1;
    assert Index(c) == 63 - (Before(d) + (7 - c.row));
    if c.row == 7 {
      assert Index(StepOn(c)) == 63 - (Before(d - 1) + (6 - c.col));
    } else {
      assert Index(StepOn(c)) == 63 - (Before(d) + (6 - c.row));
    }
  }

  /** Each step goes to the cell with the next number. */
  lemma IndexSteps(c: Cell)
    requires Inside(c) && c != Cell(7, 7)
    ensures Inside(StepOn(c)) && Index(StepOn(c)) == Index(c) + 1
  {
    hide Index, StepOn;
    if c.row + c.col < 7 {
      IndexUpper(c);
    } else if c.row + c.col == 7 {
      IndexMiddle(c);
    } else if (c.row + c.col) % 2 == 0 {
      IndexLowerEven(c);
    } else {
      IndexLowerOdd(c);
    }
  }

  lemma DiagonalsBounded(d: nat)
    requires d <= 7
    ensures Before(d) + d <= 35
  {
    hide Before;
    Triangles();
  }

  lemma LastIndex(c: Cell)
    requires Inside(c)
    ensures Index(Cell(7, 7)) == 63 && Index(Cell(0, 0)) == 0 && 0 <= Index(c) <= 63
  {
    hide Before;
    Triangles();
    DiagonalsBounded(if c.row + c.col <= 7 then c.row + c.col else 14 - c.row - c.col);
  }

  lemma {:induction false} WalkCounts(k: nat)
    requires k < 64
    ensures Inside(Walk(k)) && Index(Walk(k)) == k
  {
    hide Index, StepOn;
    LastIndex(Cell(0, 0));
    if k > 0 {
      WalkCounts(k - 1);
      IndexSteps(Walk(k - 1));
    }
  }

  /** The step that leads to a cell, taken back. */
  ghost function StepBack(c: Cell): Cell {
    if (c.row + c.col) % 2 == 0 then
      if c.row == 7 then if c.col > 0 then Cell(c.row, c.col - 1) else c
      else if c.col == 0 then if c.row > 0 then Cell(c.row - 1, c.col) else c
      else Cell(c.row + 1, c.col - 1)
    else
      if c.row == 0 then if c.col > 0 then Cell(c.row, c.col - 1) else c
      else if c.col == 7 then Cell(c.row - 1, c.col)
      else Cell(c.row - 1, c.col + 1)
  }

  lemma BackAndOnEven(c: Cell)
    requires Inside(c) && c != Cell(0, 0) && (c.row + c.col) % 2 == 0
    ensures Inside(StepBack(c)) && StepBack(c) != Cell(7, 7) && StepOn(StepBack(c)) == c
  {
    assert c.row == 7 ==> c.col > 0;
    assert c.col == 0 ==> c.row > 0;
  }

  lemma BackAndOnOdd(c: Cell)
    requires Inside(c) && (c.row + c.col) % 2 == 1
    ensures Inside(StepBack(c)) && StepBack(c) != Cell(7, 7) && StepOn(StepBack(c)) == c
  {
    assert c.row == 0 ==> c.col > 0;
    assert c.col == 7 ==> c.row % 2 == 0;
  }

  lemma BackAndOn(c: Cell)
    requires Inside(c) && c != Cell(0, 0)
    ensures Inside(StepBack(c)) && StepBack(c) != Cell(7, 7) && StepOn(StepBack(c)) == c
  {
    hide StepBack, StepOn;
    if (c.row + c.col) % 2 == 0 {
      BackAndOnEven(c);
    } else {
      BackAndOnOdd(c);
    }
  }

  /** Every cell is reached, after as many steps as its number. */
  lemma {:induction false} WalkReaches(c: Cell, k: nat)
    requires Inside(c) && Index(c) == k
    ensures Walk(k) == c
    decreases k
  {
    hide Index, StepOn, StepBack;
    LastIndex(c);
    if c != Cell(0, 0) {
      var b := StepBack(c);
      BackAndOn(c);
      IndexSteps(b);
      LastIndex(b);
      WalkReaches(b, k - 1);
    }
  }

  // ----- The theorems -----

  /** The first 64 entries are the walk, the rest repeat its end. */
  lemma {:induction false} ZigzagIsWalk(k: nat)
    requires k < 79
    ensures |ZIGZAG| == 79 && ZIGZAG[k] == if k < 64 then PlaceOf(Walk(k)) else 63
  {
    hide ZIGZAG, PlaceOf, CellOf, StepOn, Index;
    Padding(63);
    if k >= 64 {
      Padding(k);
    } else if k == 0 {
      TableSteps(0);
      CornerPlace();
    } else {
      ZigzagIsWalk(k - 1);
      TableSteps(k - 1);
      WalkCounts(k - 1);
      CellPlace(Walk(k - 1));
    }
  }

  lemma CornerPlace()
    ensures Walk(0) == Cell(0, 0) && PlaceOf(Cell(0, 0)) == 0
  {
  }

  /** A permutation of the 64 places: place `p` is entry `k` exactly when `k` is its number. */
  lemma ZigzagPermutes(k: nat, p: nat)
    requires k < 64 && p < 64
    ensures |ZIGZAG| == 79 && Inside(CellOf(p))
    ensures ZIGZAG[k] == p <==> k == Index(CellOf(p))
    ensures 0 <= Index(CellOf(p)) < 64
  {
    hide ZIGZAG, Index, Walk;
    ZigzagIsWalk(k);
    WalkCounts(k);
    CellPlace(Walk(k));
    var c := CellOf(p);
    assert Inside(c);
    LastIndex(c);
    WalkReaches(c, Index(c));
  }

  /** From one entry to the next the diagonal stays or is the next one; within it the row moves by one, up on even
      diagonals and down on odd ones. */
  lemma ZigzagMoves(k: nat)
    requires k < 63
    ensures |ZIGZAG| == 79
    ensures var a, b := CellOf(ZIGZAG[k]), CellOf(ZIGZAG[k + 1]);
            var d, e := a.row + a.col, b.row + b.col;
            && (e == d || e == d + 1)
            && (e == d ==> b.row == if d % 2 == 0 then a.row - 1 else a.row + 1)
            && (e > d ==> (a.row == 0 || a.row == 7 || a.col == 0 || a.col == 7))
  {
    hide ZIGZAG, Index, Walk, CellOf, PlaceOf;
    ZigzagIsWalk(k);
    ZigzagIsWalk(k + 1);
    WalkCounts(k);
    WalkCounts(k + 1);
    CellPlace(Walk(k));
    CellPlace(Walk(k + 1));
    WalkStep(k);
  }

  lemma WalkStep(k: nat)
    ensures Walk(k + 1) == StepOn(Walk(k))
  {
  }
}
