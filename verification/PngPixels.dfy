/** Pixels of a picture stored row by row. */
module PngPixels {
  import opened Words
  import opened PngFilter

  lemma {:induction false} TimesAdd(a: nat, b: nat, n: nat)
    ensures Times(a + b, n) == Times(a, n) + Times(b, n)
  {
    if b > 0 {
      TimesAdd(a, b - 1, n);
    }
  }

  lemma {:induction false} TimesTimes(y: nat, x: nat, n: nat)
    ensures Times(Times(y, x), n) == Times(y, Times(x, n))
  {
    if y > 0 {
      TimesTimes(y - 1, x, n);
      TimesAdd(Times(y - 1, x), x, n);
    }
  }

  /** Pixel number `q` of `o` bytes. */
  ghost function Pixel(s: seq<Byte>, o: nat, q: nat): seq<Byte> {
    if Times(q, o) + o <= |s| then s[Times(q, o)..Times(q, o) + o] else []
  }

  /** The pixel in column `i` of row `j` of a picture `x` pixels wide. */
  ghost function Cell(s: seq<Byte>, o: nat, x: nat, i: nat, j: nat): seq<Byte> {
    Pixel(s, o, Times(j, x) + i)
  }

  /** Two places of a picture never share a number. */
  lemma {:induction false} CellsApart(x: nat, i: nat, j: nat, i': nat, j': nat)
    requires i < x && i' < x && Times(j, x) + i == Times(j', x) + i'
    ensures i == i' && j == j'
  {
    if j < j' {
      TimesMonotone(j, j', x);
    } else if j' < j {
      TimesMonotone(j', j, x);
    }
  }

  lemma CellFits(x: nat, y: nat, i: nat, j: nat, o: nat)
    requires i < x && j < y
    ensures Times(j, x) + i < Times(y, x)
    ensures Times(Times(j, x) + i, o) + o <= Times(Times(y, x), o)
  {
    hide Times;
    TimesMonotone(j, y, x);
    TimesMonotone(Times(j, x) + i, Times(y, x), o);
  }

  /** The bytes of pixel `i` of a row. */
  ghost function PixelOf(row: seq<Byte>, n: nat, i: nat): seq<Byte> {
    if Times(i, n) + n <= |row| then row[Times(i, n)..Times(i, n) + n] else []
  }

  lemma CellOfRow(s: seq<Byte>, o: nat, x: nat, i: nat, j: nat)
    requires i < x && Times(j, Times(x, o)) + Times(x, o) <= |s|
    ensures Cell(s, o, x, i, j) == Pixel(s[Times(j, Times(x, o))..Times(j, Times(x, o)) + Times(x, o)], o, i)
  {
    hide Times;
    var w := Times(x, o);
    TimesAdd(Times(j, x), i, o);
    TimesTimes(j, x, o);
    TimesMonotone(i, x, o);
    SubSlice(s, Times(j, w), Times(j, w) + w, Times(i, o), Times(i, o) + o);
  }

  lemma SliceJoin(s: seq<Byte>, a: nat, b: nat, c: nat)
    requires a <= b <= c <= |s|
    ensures s[a..c] == s[a..b] + s[b..c]
  {
  }

  lemma SpreadPixel(row: seq<Byte>, n: nat, e: nat, x: nat, i: nat)
    requires i < x && |row| == Times(x, n)
    ensures Pixel(Spread(row, n, e, x), n + e, i) == PixelOf(row, n, i) + Opaque(e)
  {
    hide Times, Spread, Opaque;
    SpreadAt(row, n, e, x, i);
    var s, at, end := Spread(row, n, e, x), Times(i, n + e), Times(i, n + e) + (n + e);
    SliceJoin(s, at, at + n, end);
    assert Pixel(s, n + e, i) == s[at..end];
    assert PixelOf(row, n, i) == s[at..at + n];
  }

  /** A picture holds each pixel of each row, with its added bytes. */
  lemma PictureCell(rows: seq<seq<Byte>>, n: nat, e: nat, x: nat, i: nat, j: nat)
    requires i < x && j < |rows| && forall row :: row in rows ==> |row| == Times(x, n)
    ensures Cell(Picture(rows, n, e, x), n + e, x, i, j) == PixelOf(rows[j], n, i) + Opaque(e)
  {
    hide Times, Spread, Picture, Opaque, Cell, Pixel, PixelOf;
    PictureRow(rows, n, e, x, j);
    SpreadPixel(rows[j], n, e, x, i);
    CellOfRow(Picture(rows, n, e, x), n + e, x, i, j);
  }

  /** Pictures of the same size with the same pixels are the same. */
  lemma {:induction false} SamePixels(s: seq<Byte>, t: seq<Byte>, o: nat, count: nat)
    requires |s| == |t| == Times(count, o)
    requires forall q: nat :: q < count ==> Pixel(s, o, q) == Pixel(t, o, q)
    ensures s == t
    decreases count
  {
    if count > 0 {
      var last := count - 1;
      var at := Times(last, o);
      forall q: nat | q < last
        ensures Pixel(s[..at], o, q) == Pixel(t[..at], o, q)
      {
        TimesMonotone(q, last, o);
        assert Pixel(s[..at], o, q) == Pixel(s, o, q) && Pixel(t[..at], o, q) == Pixel(t, o, q);
      }
      SamePixels(s[..at], t[..at], o, last);
      assert Pixel(s, o, last) == Pixel(t, o, last);
      assert s == s[..at] + s[at..at + o] && t == t[..at] + t[at..at + o];
    }
  }

  /** Every pixel number is a place of the picture. */
  lemma {:induction false} PlaceOf(x: nat, y: nat, q: nat) returns (i: nat, j: nat)
    requires q < Times(y, x)
    ensures i < x && j < y && q == Times(j, x) + i
  {
    if q >= Times(y - 1, x) {
      i, j := q - Times(y - 1, x), y - 1;
    } else {
      i, j := PlaceOf(x, y - 1, q);
    }
  }

  lemma SameCells(s: seq<Byte>, t: seq<Byte>, o: nat, x: nat, y: nat)
    requires |s| == |t| == Times(Times(y, x), o)
    requires forall i: nat, j: nat :: i < x && j < y ==> Cell(s, o, x, i, j) == Cell(t, o, x, i, j)
    ensures s == t
  {
    hide Pixel, Times;
    forall q: nat | q < Times(y, x)
      ensures Pixel(s, o, q) == Pixel(t, o, q)
    {
      var i, j := PlaceOf(x, y, q);
      assert Cell(s, o, x, i, j) == Cell(t, o, x, i, j);
    }
    SamePixels(s, t, o, Times(y, x));
  }
}
