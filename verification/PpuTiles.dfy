/** Which bytes the tile fetches of emu/core/ppu.cpp and emu/core/ppumain.cpp bring in: over eight dots the nametable
    byte, the attribute byte and the two pattern bytes of one tile row, and over a line the tiles of the scrolled
    picture. */
module PpuTiles {
  import opened Words
  import opened Bits
  import opened PpuModel
  import opened PpuCode
  import opened PpuRaster
  import opened PpuScroll

  // ----- Addresses of a tile in the picture of two by two nametables -----

  /** The nametable that shows tile column `h` of 64 at pixel row `r` of 480. */
  ghost function TableOf(h: nat, r: nat): nat {
    h / 32 + 2 * (r / 240)
  }

  /** Its byte: 32 tiles to a row of tiles, a row of tiles every eight pixel rows. */
  ghost function TileAddr(h: nat, r: nat): nat {
    0x2000 + 0x400 * TableOf(h, r) + 32 * (r % 240 / 8) + h % 32
  }

  /** The attribute byte of its four by four tiles, behind the 960 tile bytes. */
  ghost function BlockAddr(h: nat, r: nat): nat {
    0x2000 + 0x400 * TableOf(h, r) + 960 + 8 * (r % 240 / 32) + h % 32 / 4
  }

  /** The byte of a pattern's row and plane: sixteen bytes a tile, eight rows a plane. */
  ghost function PlaneAddr(second: bool, tile: Byte, plane: nat, r: nat): nat {
    (if second then 0x1000 else 0) + 16 * tile + 8 * plane + r % 8
  }

  /** The four bytes of the tile at column `h` and row `r`. */
  ghost function TileBytes(m: Video, second: bool, h: nat, r: nat): Tile
    requires h < 64 && r < 480
  {
    var nt := VideoRead(m, TileAddr(h, r));
    Tile(nt, VideoRead(m, BlockAddr(h, r)), VideoRead(m, PlaneAddr(second, nt, 0, r)),
         VideoRead(m, PlaneAddr(second, nt, 1, r)))
  }

  lemma FieldsOf(v: Word)
    requires CoarseY(v) <= 29
    ensures H(v) < 64 && V(v) < 480
    ensures H(v) / 32 == Nt(v) % 2 && H(v) % 32 == CoarseX(v)
    ensures V(v) / 240 == Nt(v) / 2 && V(v) % 240 / 8 == CoarseY(v) && V(v) % 8 == FineY(v)
    ensures V(v) % 240 / 32 == CoarseY(v) / 4
  {
    hide Nt, CoarseX, CoarseY, FineY;
    FieldBounds(v);
    var row := 8 * CoarseY(v) + FineY(v);
    assert V(v) == 240 * (Nt(v) / 2) + row && row < 240;
    RowParts(Nt(v) / 2, row);
  }

  lemma RowParts(n: nat, row: nat)
    requires row < 240
    ensures (240 * n + row) / 240 == n && (240 * n + row) % 240 == row && (240 * n + row) % 8 == row % 8
  {
  }

  lemma LowTwelve(v: Word)
    ensures v % 0x1000 == CoarseX(v) + 0x20 * CoarseY(v) + 0x400 * Nt(v)
  {
    hide Get, Pow2, ShiftLeft, ShiftRight;
    WordPowers();
    GetsJoin(v, 5, 5);
    GetsJoin(v, 10, 2);
    ShiftLeftValue(CoarseY(v), 5);
    ShiftLeftValue(Nt(v), 10);
    SplitAt(v, 12);
    GetBounded(v, 0, 12);
    ShiftLeftValue(ShiftRight(v, 12), 12);
  }

  /** The fetch addresses of the code are those of the picture. */
  lemma AddressesAre(v: Word, second: bool, nt: Byte)
    requires CoarseY(v) <= 29
    ensures H(v) < 64 && V(v) < 480
    ensures NtAddr(v) == TileAddr(H(v), V(v)) && AttrAddr(v) == BlockAddr(H(v), V(v))
    ensures PatternAddr(second, nt, false, v) == PlaneAddr(second, nt, 0, V(v))
    ensures PatternAddr(second, nt, true, v) == PlaneAddr(second, nt, 1, V(v))
  {
    hide Nt, CoarseX, CoarseY, FineY, H, V;
    FieldBounds(v);
    FieldsOf(v);
    LowTwelve(v);
  }

  /** Two tiles have one nametable byte only if they are the same tile, and one attribute byte exactly when they are in
      one nametable and one block of four by four; attribute bytes lie behind the tile bytes. */
  lemma AddressesApart(h: nat, r: nat, h': nat, r': nat)
    requires h < 64 && r < 480 && h' < 64 && r' < 480
    ensures TileAddr(h, r) == TileAddr(h', r') <==> h == h' && r / 8 == r' / 8
    ensures BlockAddr(h, r) == BlockAddr(h', r') <==>
            TableOf(h, r) == TableOf(h', r') && h % 32 / 4 == h' % 32 / 4 && r % 240 / 32 == r' % 240 / 32
    ensures TileAddr(h, r) != BlockAddr(h', r')
  {
    hide TableOf;
    var n, n' := TableOf(h, r), TableOf(h', r');
    var y, y', x, x' := r % 240 / 8, r' % 240 / 8, h % 32, h' % 32;
    var b, b', a, a' := r % 240 / 32, r' % 240 / 32, h % 32 / 4, h' % 32 / 4;
    assert y < 30 && y' < 30 && b < 8 && b' < 8 && a < 8 && a' < 8;
    TilesApart(n, y, x, n', y', x');
    BlocksApart(n, b, a, n', b', a');
    TileNotBlock(n, y, x, n', b', a');
    TileRows(h, r, h', r');
  }

  lemma TilesApart(n: nat, y: nat, x: nat, n': nat, y': nat, x': nat)
    requires y < 30 && y' < 30 && x < 32 && x' < 32
    ensures 0x400 * n + 32 * y + x == 0x400 * n' + 32 * y' + x' <==> n == n' && y == y' && x == x'
  {
  }

  lemma BlocksApart(n: nat, y: nat, x: nat, n': nat, y': nat, x': nat)
    requires y < 8 && y' < 8 && x < 8 && x' < 8
    ensures 0x400 * n + 960 + 8 * y + x == 0x400 * n' + 960 + 8 * y' + x' <==> n == n' && y == y' && x == x'
  {
  }

  lemma TileNotBlock(n: nat, y: nat, x: nat, n': nat, y': nat, x': nat)
    requires y < 30 && x < 32 && y' < 8 && x' < 8
    ensures 0x400 * n + 32 * y + x != 0x400 * n' + 960 + 8 * y' + x'
  {
  }

  lemma TileRows(h: nat, r: nat, h': nat, r': nat)
    requires h < 64 && r < 480 && h' < 64 && r' < 480
    ensures h == h' && r / 8 == r' / 8 <==>
            TableOf(h, r) == TableOf(h', r') && r % 240 / 8 == r' % 240 / 8 && h % 32 == h' % 32
  {
    RowOfTiles(r);
    RowOfTiles(r');
    assert h == 32 * (h / 32) + h % 32 && h' == 32 * (h' / 32) + h' % 32;
  }

  lemma RowOfTiles(r: nat)
    ensures r / 8 == 30 * (r / 240) + r % 240 / 8 && r % 240 / 8 < 30
  {
  }

  // ----- Eight dots -----

  ghost predicate On(p: Ppu, line: nat, cycle: nat) {
    Valid(p.raster) && LineOf(p.raster) == line && CycleOf(p.raster) == cycle
  }

  /** A dot inside a fetch moves on and leaves the address alone. */
  lemma FetchDot(p: Ppu, line: nat, c: nat)
    requires On(p, line, c) && Rendering(line) && Fetching(c) && c % 8 != 0 && c < 340
    ensures On(Dot(p), line, c + 1) && Dot(p).tile == FetchCycle(p.tile, p.video, p.ctrl.bgPtAddr, p.scroll.v, c)
    ensures Dot(p).scroll == p.scroll && Dot(p).video == p.video && Dot(p).ctrl == p.ctrl
  {
    hide FetchCycle, StatusDot, RasterDot, Valid, IncHorz, IncVert, CopyHorz, CopyVert;
    DotKeepsValid(p.raster);
    RasterOrder(p.raster);
  }

  ghost predicate Group(c: nat) {
    c % 8 == 1 && (c <= 249 || 321 <= c <= 329)
  }

  /** Two dots of a fetch: the first only moves on. */
  lemma FetchPair(p: Ppu, line: nat, c: nat)
    requires On(p, line, c) && Rendering(line) && Fetching(c) && c % 8 in {1, 3, 5} && c < 336
    ensures var q, m, bg, v := Dot(Dot(p)), p.video, p.ctrl.bgPtAddr, p.scroll.v;
            && On(q, line, c + 2) && q.scroll == p.scroll && q.video == m && q.ctrl == p.ctrl
            && q.tile == match c % 8
                         case 1 => p.tile.(nt := VideoRead(m, NtAddr(v)))
                         case 3 => p.tile.(attr := VideoRead(m, AttrAddr(v)))
                         case _ => p.tile.(low := VideoRead(m, PatternAddr(bg, p.tile.nt, false, v)))
  {
    hide Dot, VideoRead, NtAddr, AttrAddr, PatternAddr, On;
    FetchDot(p, line, c);
    FetchDot(Dot(p), line, c + 1);
  }

  /** The last dot brings in the second plane; the address moves on behind it. */
  lemma LastDot(p: Ppu, line: nat, c: nat)
    requires On(p, line, c) && Rendering(line) && Fetching(c) && c % 8 == 7 && c < 336
    ensures var q := Dot(Dot(p));
            q.tile == p.tile.(high := VideoRead(p.video, PatternAddr(p.ctrl.bgPtAddr, p.tile.nt, true, p.scroll.v)))
  {
    hide VideoRead, PatternAddr, ScrollDot, RasterDot, StatusDot, Valid, NtAddr, AttrAddr;
    FetchDot(p, line, c);
  }

  lemma DotsEight(p: Ppu)
    ensures Dots(p, 8) == Dot(Dot(Dot(Dot(Dot(Dot(Dot(Dot(p))))))))
  {
    hide Dot;
    DotsSplit(p, 4, 4);
    DotsFour(p);
    DotsFour(Dots(p, 4));
  }

  lemma DotsFour(p: Ppu)
    ensures Dots(p, 4) == Dot(Dot(Dot(Dot(p))))
  {
    hide Dot;
    assert Dots(p, 4) == Dots(Dot(p), 3) == Dots(Dot(Dot(p)), 2) == Dots(Dot(Dot(Dot(p))), 1);
  }

  /** Eight dots from the start of a fetch, with the background shown or not. */
  lemma EightDots(p: Ppu, line: nat, c: nat)
    requires On(p, line, c) && Rendering(line) && Group(c)
    ensures var m, bg, v := p.video, p.ctrl.bgPtAddr, p.scroll.v;
            var nt := VideoRead(m, NtAddr(v));
            Dots(p, 8).tile == Tile(nt, VideoRead(m, AttrAddr(v)), VideoRead(m, PatternAddr(bg, nt, false, v)),
                                    VideoRead(m, PatternAddr(bg, nt, true, v)))
  {
    hide Dot, Dots, VideoRead, NtAddr, AttrAddr, PatternAddr, On;
    DotsEight(p);
    FetchPair(p, line, c);
    var p2 := Dot(Dot(p));
    FetchPair(p2, line, c + 2);
    var p4 := Dot(Dot(p2));
    FetchPair(p4, line, c + 4);
    LastDot(Dot(Dot(p4)), line, c + 6);
  }

  /** The same by column and row of the picture. */
  lemma TileFetched(p: Ppu, line: nat, c: nat)
    requires On(p, line, c) && Rendering(line) && Group(c) && CoarseY(p.scroll.v) <= 29
    ensures H(p.scroll.v) < 64 && V(p.scroll.v) < 480
    ensures Dots(p, 8).tile == TileBytes(p.video, p.ctrl.bgPtAddr, H(p.scroll.v), V(p.scroll.v))
  {
    hide Dots, VideoRead, NtAddr, AttrAddr, PatternAddr, On, TileAddr, BlockAddr, PlaneAddr, H, V, CoarseY;
    EightDots(p, line, c);
    AddressesAre(p.scroll.v, p.ctrl.bgPtAddr, VideoRead(p.video, NtAddr(p.scroll.v)));
  }

  /** The four dots behind the last tile bring in its neighbour's nametable and attribute bytes, and no pattern. */
  lemma LineTail(p: Ppu, line: nat)
    requires On(p, line, 337) && Rendering(line)
    ensures var m, v := p.video, p.scroll.v;
            Dots(p, 4).tile == p.tile.(nt := VideoRead(m, NtAddr(v)), attr := VideoRead(m, AttrAddr(v)))
  {
    hide Dots, VideoRead, NtAddr, AttrAddr, PatternAddr, ScrollDot, RasterDot, StatusDot, Valid;
    DotsFour(p);
    FetchDot(p, line, 337);
    var p1 := Dot(p);
    FetchDot(p1, line, 338);
    FetchDot(Dot(p1), line, 339);
  }

  /** Between the picture and the pre-render line, at dot 0, from 257 to 320, and at every other odd dot, nothing is
      fetched. */
  lemma NothingFetched(p: Ppu)
    requires var line, cycle := LineOf(p.raster), CycleOf(p.raster);
             240 <= line < 261 || cycle == 0 || 257 <= cycle <= 320 || cycle % 2 == 1
    ensures Dot(p).tile == p.tile
  {
    hide ScrollDot, RasterDot, StatusDot, VideoRead, NtAddr, AttrAddr, PatternAddr;
  }

  /** Between the picture and the pre-render line the scroll registers rest. */
  lemma NothingScrolled(p: Ppu)
    requires 240 <= LineOf(p.raster) < 261
    ensures Dot(p).scroll == p.scroll
  {
    hide RasterDot, StatusDot, FetchCycle;
  }

  // ----- A line -----

  lemma {:induction false} DotsKeepVideo(p: Ppu, n: nat)
    ensures Dots(p, n).video == p.video && Dots(p, n).ctrl == p.ctrl
    decreases n
  {
    hide FetchCycle, RasterDot, StatusDot, ScrollDot;
    if n > 0 {
      DotsKeepVideo(Dot(p), n - 1);
    }
  }

  /** Column of the `k`th tile fetched on a line: 32 tiles from the column of `v`, then two of the next line from the
      column of `t`. */
  ghost function TileColumn(v: Word, t: Word, k: nat): nat {
    if k < 32 then (H(v) + k) % 64 else (H(t) + k - 32) % 64
  }

  /** The dot that begins it. */
  ghost function TileDot(k: nat): nat {
    if k < 32 then 8 * k + 1 else 8 * (k - 32) + 321
  }

  /** The row it is fetched for: the line's own, and for the last two the next line's. */
  ghost function TileRow(v: Word, t: Word, line: nat, k: nat): nat {
    if k < 32 then V(v) else if line == 261 then TopRow(t) else (V(v) + 1) % 480
  }

  lemma TilePosition(v: Word, t: Word, line: nat, k: nat)
    requires Rendering(line) && k < 34 && CoarseY(v) <= 29 && (line == 261 ==> CoarseX(t) <= 29)
    ensures Group(TileDot(k))
    ensures var w := LineScroll(v, t, line, TileDot(k));
            H(w) == TileColumn(v, t, k) && V(w) == TileRow(v, t, line, k) && CoarseY(w) <= 29
  {
    hide H, V, CoarseY, CoarseX, LineScroll, TopRow;
    LinePosition(v, t, line, TileDot(k));
  }

  /** Every tile of a rendering line, from the line's first or second dot: after its eight dots the latches hold the
      bytes the picture has at its column and row. */
  lemma LineTiles(p: Ppu, line: nat, c: nat, k: nat)
    requires At(p, line, c) && c <= 1 && Rendering(line) && k < 34
    requires CoarseY(p.scroll.v) <= 29 && (line == 261 ==> CoarseX(p.scroll.t) <= 29)
    ensures var h, r := TileColumn(p.scroll.v, p.scroll.t, k), TileRow(p.scroll.v, p.scroll.t, line, k);
            && h < 64 && r < 480
            && Dots(p, TileDot(k) - c + 8).tile == TileBytes(p.video, p.ctrl.bgPtAddr, h, r)
  {
    hide *;
    var v, t := p.scroll.v, p.scroll.t;
    TileDotBounds(k);
    TilePosition(v, t, line, k);
    LineStart(v, t, line, c);
    DotsMove(p, v, line, c, TileDot(k) - c);
    var q := Dots(p, TileDot(k) - c);
    AtIsOn(q, line, TileDot(k));
    DotsKeepVideo(p, TileDot(k) - c);
    TileFetched(q, line, TileDot(k));
    DotsSplit(p, TileDot(k) - c, 8);
  }

  lemma TileDotBounds(k: nat)
    requires k < 34
    ensures 1 <= TileDot(k) <= 329
  {
  }

  lemma AtIsOn(p: Ppu, line: nat, c: nat)
    requires At(p, line, c)
    ensures On(p, line, c)
  {
  }
}
