/** Decoding an interlaced PNG image gives back the image that was encoded, for every image and every choice of filters:
    Adam7 de-interlacing and unfiltering (external/stb/stb_image.h) together. */
module PngRoundTrip {
  import opened Words
  import opened PngFilter
  import opened PngPixels
  import opened Adam7
  import opened Adam7Code

  // ----- Scanlines with more data behind them -----

  lemma FirstScanline(raw: seq<Byte>, w: nat, y: nat)
    requires y > 0 && |raw| == Size(w, y) && FiltersOk(raw, w, y)
    ensures |raw| == w + 1 + Size(w, y - 1) && raw[0] <= 4 && FiltersOk(raw[w + 1..], w, y - 1)
  {
  }

  lemma {:induction false} RowsAhead(raw: seq<Byte>, tail: seq<Byte>, prior: seq<Byte>, w: nat, n: nat, y: nat)
    requires n >= 1 && |prior| == w && |raw| == Size(w, y) && FiltersOk(raw, w, y)
    ensures FiltersOk(raw + tail, w, y) && Rows(raw + tail, prior, w, n, y) == Rows(raw, prior, w, n, y)
    decreases y
  {
    hide Recon, Rows, FiltersOk, Size;
    if y == 0 {
      NoRows(raw, prior, w, n);
      NoRows(raw + tail, prior, w, n);
    } else {
      FirstScanline(raw, w, y);
      var data, rest := raw[1..w + 1], raw[w + 1..];
      RowsAhead(rest, tail, Recon(raw[0], data, prior, n, w), w, n, y - 1);
      RowsStep(raw[0], data, rest, prior, w, n, y - 1);
      RowsStep(raw[0], data, rest + tail, prior, w, n, y - 1);
      assert raw == [raw[0]] + data + rest;
      assert raw + tail == [raw[0]] + data + (rest + tail);
    }
  }

  // ----- An encoder -----

  /** A picture of `H` rows of `W` pixels. */
  ghost predicate Image(rows: seq<seq<Byte>>, W: nat, H: nat, n: nat) {
    |rows| == H && forall r :: r in rows ==> |r| == Times(W, n)
  }

  /** Where the `i`-th position of a pass lies on an axis. */
  ghost function Position(orig: nat, spc: nat, i: nat): nat {
    i * spc + orig
  }

  /** Every `spc`-th pixel of a row from `orig`, `k` of them. */
  ghost function Gather(row: seq<Byte>, n: nat, orig: nat, spc: nat, k: nat): seq<Byte> {
    if k == 0 then [] else Gather(row, n, orig, spc, k - 1) + PixelOf(row, n, Position(orig, spc, k - 1))
  }

  lemma PixelOfAppend(front: seq<Byte>, last: seq<Byte>, n: nat, m: nat, i: nat)
    requires |front| == Times(m, n) && |last| == n && i <= m
    ensures PixelOf(front + last, n, i) == if i < m then PixelOf(front, n, i) else last
  {
    hide Times;
    TimesMonotone(i, m, n);
    if i < m {
      InFront(front, last, Times(i, n), Times(i, n) + n);
    } else {
      Behind(front, last, 0, n);
    }
  }

  lemma PixelOfFull(row: seq<Byte>, n: nat, W: nat, X: nat)
    requires |row| == Times(W, n) && X < W
    ensures |PixelOf(row, n, X)| == n
  {
    TimesMonotone(X, W, n);
  }

  lemma {:induction false} GatheredSize(row: seq<Byte>, n: nat, p: nat, W: nat, k: nat)
    requires p < 7 && W >= 1 && |row| == Times(W, n) && k <= PassWidth(p, W)
    ensures |Gather(row, n, XOrig(p), XSpc(p), k)| == Times(k, n)
  {
    hide XOrig, XSpc, PassWidth, PixelOf, Position;
    if k > 0 {
      GatheredSize(row, n, p, W, k - 1);
      InRange(p, W, k - 1);
      PixelOfFull(row, n, W, Position(XOrig(p), XSpc(p), k - 1));
    }
  }

  lemma {:induction false} Gathered(row: seq<Byte>, n: nat, p: nat, W: nat, k: nat, i: nat)
    requires p < 7 && W >= 1 && |row| == Times(W, n) && i < k <= PassWidth(p, W)
    ensures PixelOf(Gather(row, n, XOrig(p), XSpc(p), k), n, i) == PixelOf(row, n, Position(XOrig(p), XSpc(p), i))
    decreases k
  {
    hide XOrig, XSpc, PassWidth, Times, PixelOf, Position;
    var last := Position(XOrig(p), XSpc(p), k - 1);
    InRange(p, W, k - 1);
    PixelOfFull(row, n, W, last);
    GatheredSize(row, n, p, W, k - 1);
    PixelOfAppend(Gather(row, n, XOrig(p), XSpc(p), k - 1), PixelOf(row, n, last), n, k - 1, i);
    if i < k - 1 {
      Gathered(row, n, p, W, k - 1, i);
    }
  }

  lemma InRange(p: nat, W: nat, i: nat)
    requires p < 7 && W >= 1 && i < PassWidth(p, W)
    ensures Position(XOrig(p), XSpc(p), i) < W
  {
    hide Aligned;
    Spacings(p);
    PositionOf(W, XOrig(p), XSpc(p), i);
  }

  lemma InRangeY(p: nat, H: nat, j: nat)
    requires p < 7 && H >= 1 && j < PassHeight(p, H)
    ensures Position(YOrig(p), YSpc(p), j) < H
  {
    hide Aligned;
    Spacings(p);
    PositionOf(H, YOrig(p), YSpc(p), j);
  }

  /** The first `k` rows of the sub-image of pass `p`. */
  ghost function SubRows(rows: seq<seq<Byte>>, p: nat, W: nat, n: nat, k: nat): (sub: seq<seq<Byte>>)
    requires p < 7 && W >= 1
    ensures |sub| == k
  {
    if k == 0 then []
    else
      var Y := Position(YOrig(p), YSpc(p), k - 1);
      SubRows(rows, p, W, n, k - 1)
      + [Gather(if Y < |rows| then rows[Y] else [], n, XOrig(p), XSpc(p), PassWidth(p, W))]
  }

  ghost function SubImage(rows: seq<seq<Byte>>, p: nat, W: nat, H: nat, n: nat): (sub: seq<seq<Byte>>)
    requires p < 7 && W >= 1 && H >= 1
    ensures |sub| == if Empty(p, W, H) then 0 else PassHeight(p, H)
  {
    if Empty(p, W, H) then [] else SubRows(rows, p, W, n, PassHeight(p, H))
  }

  lemma {:induction false} SubRowAt(rows: seq<seq<Byte>>, p: nat, W: nat, H: nat, n: nat, k: nat, j: nat)
    requires p < 7 && W >= 1 && H >= 1 && Image(rows, W, H, n) && j < k <= PassHeight(p, H)
    ensures var Y := Position(YOrig(p), YSpc(p), j);
            && Y < H && |rows[Y]| == Times(W, n)
            && SubRows(rows, p, W, n, k)[j] == Gather(rows[Y], n, XOrig(p), XSpc(p), PassWidth(p, W))
            && |SubRows(rows, p, W, n, k)[j]| == PassBytes(p, W, n)
    decreases k
  {
    hide XOrig, XSpc, YOrig, YSpc, PassWidth, PassHeight, Gather, Times, Position;
    InRangeY(p, H, k - 1);
    if j < k - 1 {
      SubRowAt(rows, p, W, H, n, k - 1, j);
    } else {
      GatheredSize(rows[Position(YOrig(p), YSpc(p), j)], n, p, W, PassWidth(p, W));
    }
  }

  /** The sub-image of pass `p` holds the pixels of the image that `p` transmits. */
  lemma SubImagePixel(rows: seq<seq<Byte>>, p: nat, W: nat, H: nat, n: nat, X: nat, Y: nat)
    requires p < 7 && W >= 1 && H >= 1 && Image(rows, W, H, n) && X < W && Y < H && PassOf(X, Y) == p
    ensures var sub := SubImage(rows, p, W, H, n);
            RowOf(p, Y) < |sub| && PixelOf(sub[RowOf(p, Y)], n, ColumnOf(p, X)) == PixelOf(rows[Y], n, X)
  {
    hide XOrig, XSpc, YOrig, YSpc, PassWidth, PassHeight, Gather, Times, PixelOf, PassOf;
    var i, j := ColumnOf(p, X), RowOf(p, Y);
    ExactlyOnce(p, i, j, X, Y, W, H);
    SubRowAt(rows, p, W, H, n, PassHeight(p, H), j);
    Gathered(rows[Y], n, p, W, PassWidth(p, W), i);
  }

  lemma SubImageRows(rows: seq<seq<Byte>>, p: nat, W: nat, H: nat, n: nat)
    requires p < 7 && W >= 1 && H >= 1 && Image(rows, W, H, n)
    ensures forall r :: r in SubImage(rows, p, W, H, n) ==> |r| == PassBytes(p, W, n)
  {
    hide PassWidth, PassHeight, Times, SubRows, Image;
    var sub := SubImage(rows, p, W, H, n);
    forall r | r in sub
      ensures |r| == PassBytes(p, W, n)
    {
      var j :| 0 <= j < |sub| && sub[j] == r;
      SubRowAt(rows, p, W, H, n, PassHeight(p, H), j);
    }
  }

  /** One filter choice per row of each pass. */
  ghost predicate Choices(filters: seq<seq<nat>>, W: nat, H: nat)
    requires W >= 1 && H >= 1
  {
    && |filters| == 7
    && forall p :: 0 <= p < 7 ==>
         |filters[p]| == (if Empty(p, W, H) then 0 else PassHeight(p, H)) && forall f :: f in filters[p] ==> f <= 4
  }

  ghost function PassData(rows: seq<seq<Byte>>, filters: seq<seq<nat>>, W: nat, H: nat, n: nat, p: nat): seq<Byte>
    requires W >= 1 && H >= 1 && n >= 1 && p < 7 && Image(rows, W, H, n) && Choices(filters, W, H)
  {
    SubImageRows(rows, p, W, H, n);
    Scanlines(SubImage(rows, p, W, H, n), filters[p], Zeros(PassBytes(p, W, n)), PassBytes(p, W, n), n)
  }

  /** The interlaced, filtered data of passes `p` to 6. */
  ghost function Interlaced(rows: seq<seq<Byte>>, filters: seq<seq<nat>>, W: nat, H: nat, n: nat, p: nat): seq<Byte>
    requires W >= 1 && H >= 1 && n >= 1 && p <= 7 && Image(rows, W, H, n) && Choices(filters, W, H)
    decreases 7 - p
  {
    if p == 7 then [] else PassData(rows, filters, W, H, n, p) + Interlaced(rows, filters, W, H, n, p + 1)
  }

  /** One pass is read back, whatever follows it. */
  lemma PassReadBack(rows: seq<seq<Byte>>, filters: seq<seq<nat>>, W: nat, H: nat, n: nat, p: nat, tail: seq<Byte>)
    requires W >= 1 && H >= 1 && n >= 1 && p < 7 && Image(rows, W, H, n) && Choices(filters, W, H)
    ensures var data := PassData(rows, filters, W, H, n, p);
            && |data| == PassSize(p, W, H, n)
            && PassOk(data + tail, p, W, H, n)
            && PassRows(data + tail, p, W, H, n) == SubImage(rows, p, W, H, n)
  {
    hide PassWidth, PassHeight, Times, SubRows, Image, Recon, Filter, Rows, FiltersOk, Size;
    var data, sub, w := PassData(rows, filters, W, H, n, p), SubImage(rows, p, W, H, n), PassBytes(p, W, n);
    SubImageRows(rows, p, W, H, n);
    if Empty(p, W, H) {
      assert data == [];
    } else {
      UnfilterUndoesFilter(sub, filters[p], Zeros(w), w, n);
      RowsAhead(data, tail, Zeros(w), w, n, PassHeight(p, H));
    }
  }

  ghost function SubImages(rows: seq<seq<Byte>>, W: nat, H: nat, n: nat, p: nat): (subs: seq<seq<seq<Byte>>>)
    requires W >= 1 && H >= 1 && p <= 7
  {
    seq(7 - p, k requires 0 <= k < 7 - p => SubImage(rows, p + k, W, H, n))
  }

  lemma NoPasses(data: seq<Byte>, W: nat, H: nat, n: nat)
    requires W >= 1 && H >= 1 && n >= 1
    ensures Passes(data, 7, W, H, n) == Some([])
  {
  }

  lemma NoSubImages(rows: seq<seq<Byte>>, W: nat, H: nat, n: nat)
    requires W >= 1 && H >= 1
    ensures SubImages(rows, W, H, n, 7) == []
  {
  }

  lemma SubImagesFrom(rows: seq<seq<Byte>>, W: nat, H: nat, n: nat, p: nat)
    requires W >= 1 && H >= 1 && p < 7
    ensures SubImages(rows, W, H, n, p) == [SubImage(rows, p, W, H, n)] + SubImages(rows, W, H, n, p + 1)
  {
    hide SubImage;
    var all, later := SubImages(rows, W, H, n, p), SubImages(rows, W, H, n, p + 1);
    forall k | 0 <= k < |all|
      ensures all[k] == ([SubImage(rows, p, W, H, n)] + later)[k]
    {
      if k > 0 {
        assert later[k - 1] == SubImage(rows, p + 1 + (k - 1), W, H, n);
      }
    }
  }

  lemma {:induction false} PassesReadBack(rows: seq<seq<Byte>>, filters: seq<seq<nat>>, W: nat, H: nat, n: nat, p: nat)
    requires W >= 1 && H >= 1 && n >= 1 && p <= 7 && Image(rows, W, H, n) && Choices(filters, W, H)
    ensures Passes(Interlaced(rows, filters, W, H, n, p), p, W, H, n) == Some(SubImages(rows, W, H, n, p))
    decreases 7 - p
  {
    hide PassData, PassOk, PassRows, PassSize, SubImage, SubImages, Image, Choices, Passes;
    if p == 7 {
      NoSubImages(rows, W, H, n);
      NoPasses(Interlaced(rows, filters, W, H, n, p), W, H, n);
    } else {
      var tail := Interlaced(rows, filters, W, H, n, p + 1);
      PassReadBack(rows, filters, W, H, n, p, tail);
      PassesReadBack(rows, filters, W, H, n, p + 1);
      var data := PassData(rows, filters, W, H, n, p);
      assert (data + tail)[PassSize(p, W, H, n)..] == tail;
      PassesUnfold(data + tail, p, W, H, n);
      SubImagesFrom(rows, W, H, n, p);
    }
  }

  /** Whatever `Deinterlace` leaves in its output for the data of an image is that image. */
  lemma InterlacedRoundTrip(rows: seq<seq<Byte>>, filters: seq<seq<nat>>, W: nat, H: nat, n: nat, e: nat, s: seq<Byte>)
    requires W >= 1 && H >= 1 && n >= 1 && Image(rows, W, H, n) && Choices(filters, W, H)
    ensures var data := Interlaced(rows, filters, W, H, n, 0);
            && Passes(data, 0, W, H, n).Some?
            && (|s| == Times(Times(H, W), n + e) && InPlace(s, Passes(data, 0, W, H, n).value, n, e, W, H)
                <==> s == Picture(rows, n, e, W))
  {
    hide PassOf, Passes, Interlaced, Times, Cell, SubImage, PixelOf, Opaque, Picture, Choices;
    PassesReadBack(rows, filters, W, H, n, 0);
    var subs := SubImages(rows, W, H, n, 0);
    var image := Picture(rows, n, e, W);
    PictureSize(rows, n, e, W);
    forall X: nat, Y: nat | X < W && Y < H
      ensures PassOf(X, Y) < 7 && Cell(image, n + e, W, X, Y) == Sent(subs, n, X, Y) + Opaque(e)
    {
      PassBelow7(X, Y);
      SubImagePixel(rows, PassOf(X, Y), W, H, n, X, Y);
      PictureCell(rows, n, e, W, X, Y);
    }
    if |s| == Times(Times(H, W), n + e) && InPlace(s, subs, n, e, W, H) {
      var o := n + e;
      forall X: nat, Y: nat | X < W && Y < H
        ensures Cell(s, o, W, X, Y) == Cell(image, o, W, X, Y)
      {
        PassBelow7(X, Y);
      }
      SameCells(s, image, n + e, W, H);
    }
  }

  lemma PassBelow7(X: nat, Y: nat)
    ensures PassOf(X, Y) < 7
  {
  }
}
