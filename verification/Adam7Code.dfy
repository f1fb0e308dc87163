/** The de-interlacing loops of `stbi__create_png_image` (external/stb/stb_image.h). */
module Adam7Code {
  import opened Words
  import opened PngFilter
  import opened PngPixels
  import opened PngCode
  import opened Adam7

  // ----- Copying one pixel -----

  lemma PixelsKept(was: seq<Byte>, s: seq<Byte>, o: nat, q: nat, r: nat)
    requires |s| == |was| && Times(q, o) + o <= |s| && r != q
    requires s[..Times(q, o)] == was[..Times(q, o)] && s[Times(q, o) + o..] == was[Times(q, o) + o..]
    ensures Pixel(s, o, r) == Pixel(was, o, r)
  {
    hide Times;
    var at, end := Times(r, o), Times(q, o) + o;
    if r < q {
      TimesMonotone(r, q, o);
      SameFront(s, was, Times(q, o), at, at + o);
    } else if at + o <= |s| {
      TimesMonotone(q, r, o);
      SameBack(s, was, end, at, at + o);
    }
  }

  /** `memcpy` of one pixel. */
  method CopyPixel(final: array<Byte>, q: nat, out: array<Byte>, from: nat, o: nat)
    requires final != out && Times(q, o) + o <= final.Length && Times(from, o) + o <= out.Length
    modifies final
    ensures Pixel(final[..], o, q) == Pixel(out[..], o, from)
    ensures forall r: nat :: r != q ==> Pixel(final[..], o, r) == Pixel(old(final[..]), o, r)
  {
    TimesIsProduct(q, o);
    TimesIsProduct(from, o);
    hide Times;
    var at, src, k := q * o, from * o, 0;
    ghost var was := final[..];
    while k < o
      invariant 0 <= k <= o
      invariant final[..at] == was[..at] && final[at + k..] == was[at + k..]
      invariant final[at..at + k] == out[src..src + k]
    {
      final[at + k] := out[src + k];
      k := k + 1;
    }
    forall r: nat | r != q
      ensures Pixel(final[..], o, r) == Pixel(was, o, r)
    {
      PixelsKept(was, final[..], o, q, r);
    }
  }

  // ----- Copying one pass -----

  ghost function ColumnOf(p: nat, X: nat): nat
    requires p < 7
  {
    X / XSpc(p)
  }

  ghost function RowOf(p: nat, Y: nat): nat
    requires p < 7
  {
    Y / YSpc(p)
  }

  /** Place (c, r) comes before (i, j) in the loops. */
  ghost predicate Earlier(c: nat, r: nat, i: nat, j: nat) {
    r < j || (r == j && c < i)
  }

  ghost predicate Taken(p: nat, X: nat, Y: nat, i: nat, j: nat)
    requires p < 7
  {
    PassOf(X, Y) == p && Earlier(ColumnOf(p, X), RowOf(p, Y), i, j)
  }

  /** The places of pass `p` before (i, j) are copied and nothing else is changed. */
  ghost predicate CopiedTo(was: seq<Byte>, s: seq<Byte>, out: seq<Byte>, p: nat, W: nat, H: nat, x: nat, o: nat,
                           i: nat, j: nat)
    requires p < 7
  {
    forall X: nat, Y: nat :: X < W && Y < H ==>
      Cell(s, o, W, X, Y) ==
        if Taken(p, X, Y, i, j) then Cell(out, o, x, ColumnOf(p, X), RowOf(p, Y))
        else Cell(was, o, W, X, Y)
  }

  lemma CopiedNone(was: seq<Byte>, out: seq<Byte>, p: nat, W: nat, H: nat, x: nat, o: nat)
    requires p < 7
    ensures CopiedTo(was, was, out, p, W, H, x, o, 0, 0)
  {
  }

  lemma CopiedPixel(was: seq<Byte>, s: seq<Byte>, s': seq<Byte>, out: seq<Byte>, p: nat, W: nat, H: nat, x: nat,
                    o: nat, i: nat, j: nat)
    requires p < 7 && W >= 1 && H >= 1 && x == PassWidth(p, W) && i < x && j < PassHeight(p, H)
    requires CopiedTo(was, s, out, p, W, H, x, o, i, j)
    requires var q := Times(j * YSpc(p) + YOrig(p), W) + (i * XSpc(p) + XOrig(p));
             && Pixel(s', o, q) == Cell(out, o, x, i, j)
             && forall r: nat :: r != q ==> Pixel(s', o, r) == Pixel(s, o, r)
    ensures CopiedTo(was, s', out, p, W, H, x, o, i + 1, j)
  {
    hide Times, Pixel, PassOf, PassWidth, PassHeight, XSpc, XOrig, YSpc, YOrig;
    var X0, Y0 := i * XSpc(p) + XOrig(p), j * YSpc(p) + YOrig(p);
    ExactlyOnce(p, i, j, X0, Y0, W, H);
    forall X: nat, Y: nat | X < W && Y < H
      ensures Cell(s', o, W, X, Y) ==
              if Taken(p, X, Y, i + 1, j) then Cell(out, o, x, ColumnOf(p, X), RowOf(p, Y)) else Cell(was, o, W, X, Y)
    {
      assert Cell(s, o, W, X, Y) ==
             if Taken(p, X, Y, i, j) then Cell(out, o, x, ColumnOf(p, X), RowOf(p, Y)) else Cell(was, o, W, X, Y);
      if X != X0 || Y != Y0 {
        ExactlyOnce(p, i, j, X, Y, W, H);
        if Times(Y, W) + X == Times(Y0, W) + X0 {
          CellsApart(W, X, Y, X0, Y0);
        }
      }
    }
  }

  lemma CopiedRow(was: seq<Byte>, s: seq<Byte>, out: seq<Byte>, p: nat, W: nat, H: nat, x: nat, o: nat, j: nat)
    requires p < 7 && W >= 1 && H >= 1 && x == PassWidth(p, W)
    requires CopiedTo(was, s, out, p, W, H, x, o, x, j)
    ensures CopiedTo(was, s, out, p, W, H, x, o, 0, j + 1)
  {
    hide Times, Cell, PassOf, PassWidth, PassHeight, XSpc, XOrig, YSpc, YOrig;
    forall X: nat, Y: nat | X < W && Y < H
      ensures Cell(s, o, W, X, Y) ==
              if Taken(p, X, Y, 0, j + 1) then Cell(out, o, x, ColumnOf(p, X), RowOf(p, Y)) else Cell(was, o, W, X, Y)
    {
      if PassOf(X, Y) == p {
        ExactlyOnce(p, ColumnOf(p, X), RowOf(p, Y), X, Y, W, H);
      }
      assert Taken(p, X, Y, 0, j + 1) == Taken(p, X, Y, x, j);
    }
  }

  /** The double loop of pass `p`, which is not empty. */
  method CopyPass(final: array<Byte>, out: array<Byte>, p: nat, W: nat, H: nat, x: nat, y: nat, o: nat)
    requires p < 7 && W >= 1 && H >= 1 && x == PassWidth(p, W) && y == PassHeight(p, H)
    requires final != out && final.Length == Times(Times(H, W), o) && out.Length == Times(Times(y, x), o)
    modifies final
    ensures CopiedTo(old(final[..]), final[..], out[..], p, W, H, x, o, 0, y)
  {
    hide Times, Pixel, PassOf, PassWidth, PassHeight, XSpc, XOrig, YSpc, YOrig, CopiedTo;
    ghost var was := final[..];
    CopiedNone(was, out[..], p, W, H, x, o);
    var j := 0;
    while j < y
      invariant 0 <= j <= y
      invariant CopiedTo(was, final[..], out[..], p, W, H, x, o, 0, j)
    {
      var i := 0;
      while i < x
        invariant 0 <= i <= x
        invariant CopiedTo(was, final[..], out[..], p, W, H, x, o, i, j)
      {
        var outY := j * YSpc(p) + YOrig(p);
        var outX := i * XSpc(p) + XOrig(p);
        ghost var s := final[..];
        ExactlyOnce(p, i, j, outX, outY, W, H);
        CellFits(W, H, outX, outY, o);
        CellFits(x, y, i, j, o);
        TimesIsProduct(outY, W);
        TimesIsProduct(j, x);
        CopyPixel(final, outY * W + outX, out, j * x + i, o);
        CopiedPixel(was, s, final[..], out[..], p, W, H, x, o, i, j);
        i := i + 1;
      }
      CopiedRow(was, final[..], out[..], p, W, H, x, o, j);
      j := j + 1;
    }
  }

  // ----- All passes -----

  ghost predicate Empty(p: nat, W: nat, H: nat)
    requires p < 7 && W >= 1 && H >= 1
  {
    PassWidth(p, W) == 0 || PassHeight(p, H) == 0
  }

  /** Bytes in a row of pass `p`. */
  ghost function PassBytes(p: nat, W: nat, n: nat): nat
    requires p < 7 && W >= 1
  {
    Times(PassWidth(p, W), n)
  }

  ghost function PassSize(p: nat, W: nat, H: nat, n: nat): nat
    requires p < 7 && W >= 1 && H >= 1
  {
    if Empty(p, W, H) then 0 else Size(PassBytes(p, W, n), PassHeight(p, H))
  }

  ghost predicate PassOk(data: seq<Byte>, p: nat, W: nat, H: nat, n: nat)
    requires p < 7 && W >= 1 && H >= 1
  {
    |data| >= PassSize(p, W, H, n)
    && (!Empty(p, W, H) ==> FiltersOk(data, PassBytes(p, W, n), PassHeight(p, H)))
  }

  /** The rows of pass `p` at the front of `data`; none when the pass is empty. */
  ghost function PassRows(data: seq<Byte>, p: nat, W: nat, H: nat, n: nat): (rows: seq<seq<Byte>>)
    requires p < 7 && W >= 1 && H >= 1 && n >= 1 && PassOk(data, p, W, H, n)
    ensures !Empty(p, W, H) ==> |rows| == PassHeight(p, H)
    ensures forall r :: r in rows ==> |r| == PassBytes(p, W, n)
  {
    if Empty(p, W, H) then []
    else Rows(data, Zeros(PassBytes(p, W, n)), PassBytes(p, W, n), n, PassHeight(p, H))
  }

  /** The sub-images of passes `p` to 6 in `data`, or none if the data is short or a filter byte is wrong. */
  ghost function Passes(data: seq<Byte>, p: nat, W: nat, H: nat, n: nat): (r: Option<seq<seq<seq<Byte>>>>)
    requires p <= 7 && W >= 1 && H >= 1 && n >= 1
    ensures r.Some? ==> |r.value| == 7 - p
    decreases 7 - p
  {
    if p == 7 then Some([])
    else if !PassOk(data, p, W, H, n) then None
    else
      match Passes(data[PassSize(p, W, H, n)..], p + 1, W, H, n)
      case None => None
      case Some(rest) => Some([PassRows(data, p, W, H, n)] + rest)
  }

  /** Pixel (X, Y) as its pass transmits it. */
  ghost function Sent(subs: seq<seq<seq<Byte>>>, n: nat, X: nat, Y: nat): seq<Byte>
    requires PassOf(X, Y) < |subs| <= 7
  {
    var p := PassOf(X, Y);
    if RowOf(p, Y) < |subs[p]| then PixelOf(subs[p][RowOf(p, Y)], n, ColumnOf(p, X)) else []
  }

  /** Pixels of the passes done so far are in place. */
  ghost predicate InPlace(s: seq<Byte>, subs: seq<seq<seq<Byte>>>, n: nat, e: nat, W: nat, H: nat) {
    |subs| <= 7 && forall X: nat, Y: nat :: X < W && Y < H && PassOf(X, Y) < |subs| ==>
      Cell(s, n + e, W, X, Y) == Sent(subs, n, X, Y) + Opaque(e)
  }

  lemma InPlaceSkip(s: seq<Byte>, subs: seq<seq<seq<Byte>>>, n: nat, e: nat, W: nat, H: nat)
    requires W >= 1 && H >= 1 && |subs| < 7 && Empty(|subs|, W, H) && InPlace(s, subs, n, e, W, H)
    ensures InPlace(s, subs + [[]], n, e, W, H)
  {
    hide Cell, PassOf, PassWidth, PassHeight, XSpc, XOrig, YSpc, YOrig;
    var p := |subs|;
    forall X: nat, Y: nat | X < W && Y < H && PassOf(X, Y) < p + 1
      ensures Cell(s, n + e, W, X, Y) == Sent(subs + [[]], n, X, Y) + Opaque(e)
    {
      ExactlyOnce(p, ColumnOf(p, X), RowOf(p, Y), X, Y, W, H);
      assert Sent(subs + [[]], n, X, Y) == Sent(subs, n, X, Y);
    }
  }

  lemma InPlacePass(was: seq<Byte>, s: seq<Byte>, subs: seq<seq<seq<Byte>>>, rows: seq<seq<Byte>>, n: nat, e: nat,
                    W: nat, H: nat)
    requires W >= 1 && H >= 1 && |subs| < 7 && InPlace(was, subs, n, e, W, H)
    requires |rows| == PassHeight(|subs|, H) && forall r :: r in rows ==> |r| == Times(PassWidth(|subs|, W), n)
    requires CopiedTo(was, s, Picture(rows, n, e, PassWidth(|subs|, W)), |subs|, W, H,
                      PassWidth(|subs|, W), n + e, 0, |rows|)
    ensures InPlace(s, subs + [rows], n, e, W, H)
  {
    hide Cell, PassOf, PassWidth, PassHeight, XSpc, XOrig, YSpc, YOrig, Times, Picture, PixelOf, Opaque;
    var p := |subs|;
    forall X: nat, Y: nat | X < W && Y < H && PassOf(X, Y) < p + 1
      ensures Cell(s, n + e, W, X, Y) == Sent(subs + [rows], n, X, Y) + Opaque(e)
    {
      if PassOf(X, Y) == p {
        ExactlyOnce(p, ColumnOf(p, X), RowOf(p, Y), X, Y, W, H);
        PictureCell(rows, n, e, PassWidth(p, W), ColumnOf(p, X), RowOf(p, Y));
      } else {
        assert Sent(subs + [rows], n, X, Y) == Sent(subs, n, X, Y);
      }
    }
  }

  /** `rest` is what remains of `data` after the sub-images `subs`. */
  ghost predicate PassProgress(data: seq<Byte>, rest: seq<Byte>, subs: seq<seq<seq<Byte>>>, W: nat, H: nat, n: nat) {
    && W >= 1 && H >= 1 && n >= 1 && |subs| <= 7
    && match Passes(rest, |subs|, W, H, n)
       case None => Passes(data, 0, W, H, n) == None
       case Some(later) => Passes(data, 0, W, H, n) == Some(subs + later)
  }

  lemma PassesUnfold(data: seq<Byte>, p: nat, W: nat, H: nat, n: nat)
    requires W >= 1 && H >= 1 && n >= 1 && p < 7
    ensures !PassOk(data, p, W, H, n) ==> Passes(data, p, W, H, n) == None
    ensures PassOk(data, p, W, H, n) ==>
              && |data| >= PassSize(p, W, H, n)
              && Passes(data, p, W, H, n) == (match Passes(data[PassSize(p, W, H, n)..], p + 1, W, H, n)
                                              case None => None
                                              case Some(rest) => Some([PassRows(data, p, W, H, n)] + rest))
  {
    hide PassRows, PassSize, Empty, FiltersOk;
  }

  lemma PassProgressStep(data: seq<Byte>, rest: seq<Byte>, subs: seq<seq<seq<Byte>>>, W: nat, H: nat, n: nat)
    requires PassProgress(data, rest, subs, W, H, n) && |subs| < 7
    ensures !PassOk(rest, |subs|, W, H, n) ==> Passes(data, 0, W, H, n) == None
    ensures PassOk(rest, |subs|, W, H, n) ==>
              PassProgress(data, rest[PassSize(|subs|, W, H, n)..], subs + [PassRows(rest, |subs|, W, H, n)], W, H, n)
  {
    hide PassOk, PassRows, PassSize, Passes;
    var p := |subs|;
    PassesUnfold(rest, p, W, H, n);
    if PassOk(rest, p, W, H, n) {
      var tail := Passes(rest[PassSize(p, W, H, n)..], p + 1, W, H, n);
      if tail.Some? {
        assert subs + ([PassRows(rest, p, W, H, n)] + tail.value) == (subs + [PassRows(rest, p, W, H, n)]) + tail.value;
      }
    }
  }

  /** De-interlacing fails exactly when some pass is short or has a wrong filter byte; otherwise every output pixel is
      the matching pixel of its pass. */
  method Deinterlace(data: seq<Byte>, W: nat, H: nat, n: nat, alpha: bool) returns (ok: bool, final: array<Byte>)
    requires W >= 1 && H >= 1 && n >= 1
    ensures ok <==> Passes(data, 0, W, H, n).Some?
    ensures ok ==> final.Length == Times(Times(H, W), n + Extra(alpha))
    ensures ok ==> InPlace(final[..], Passes(data, 0, W, H, n).value, n, Extra(alpha), W, H)
  {
    hide Times, PassOf, PassWidth, PassHeight, Passes, PassRows, PassSize, PassOk, InPlace, Empty, PassProgress, Sent;
    var e := Extra(alpha);
    TimesIsProduct(H, W);
    TimesIsProduct(H * W, n + e);
    final := new Byte[H * W * (n + e)];
    ghost var subs: seq<seq<seq<Byte>>> := [];
    var rest, p := data, 0;
    ok := true;
    PassesStart(data, final[..], W, H, n, e);
    while ok && p < 7
      invariant 0 <= p == |subs| <= 7
      invariant ok ==> PassProgress(data, rest, subs, W, H, n) && InPlace(final[..], subs, n, e, W, H)
      invariant !ok ==> Passes(data, 0, W, H, n) == None
      decreases ok, 7 - p
    {
      PassProgressStep(data, rest, subs, W, H, n);
      ok, rest, subs := OnePass(final, rest, p, W, H, n, alpha, subs);
      p := p + 1;
    }
    if ok {
      PassesEnd(data, rest, subs, W, H, n);
    }
  }

  lemma PassesStart(data: seq<Byte>, s: seq<Byte>, W: nat, H: nat, n: nat, e: nat)
    requires W >= 1 && H >= 1 && n >= 1
    ensures PassProgress(data, data, [], W, H, n) && InPlace(s, [], n, e, W, H)
  {
    hide PassOk, PassRows, PassSize;
    var all := Passes(data, 0, W, H, n);
    if all.Some? {
      assert [] + all.value == all.value;
    }
  }

  lemma PassesEnd(data: seq<Byte>, rest: seq<Byte>, subs: seq<seq<seq<Byte>>>, W: nat, H: nat, n: nat)
    requires PassProgress(data, rest, subs, W, H, n) && |subs| == 7
    ensures W >= 1 && H >= 1 && n >= 1 && Passes(data, 0, W, H, n) == Some(subs)
  {
    assert subs + [] == subs;
  }

  /** One round of the loop over the passes. */
  method OnePass(final: array<Byte>, data: seq<Byte>, p: nat, W: nat, H: nat, n: nat, alpha: bool,
                 ghost subs: seq<seq<seq<Byte>>>)
    returns (ok: bool, rest: seq<Byte>, ghost subs': seq<seq<seq<Byte>>>)
    requires W >= 1 && H >= 1 && n >= 1 && p == |subs| < 7
    requires final.Length == Times(Times(H, W), n + Extra(alpha))
    requires InPlace(final[..], subs, n, Extra(alpha), W, H)
    modifies final
    ensures ok <==> PassOk(data, p, W, H, n)
    ensures |subs'| == p + 1
    ensures ok ==> rest == data[PassSize(p, W, H, n)..]
    ensures ok ==> subs' == subs + [PassRows(data, p, W, H, n)]
    ensures ok ==> InPlace(final[..], subs', n, Extra(alpha), W, H)
  {
    hide Times, PassOf, PassWidth, PassHeight, FiltersOk, Rows, InPlace, Sent, Size, Picture, CopiedTo;
    var e := Extra(alpha);
    var x, y := PassWidth(p, W), PassHeight(p, H);
    subs' := subs + [[]];
    if x == 0 || y == 0 {
      InPlaceSkip(final[..], subs, n, e, W, H);
      ok, rest := true, data;
    } else {
      var out;
      ok, out := CreateRaw(data, x, y, n, alpha);
      rest := data;
      if ok {
        ghost var was, rows := final[..], PassRows(data, p, W, H, n);
        SizeIsProduct(Times(x, n), y);
        TimesIsProduct(x, n);
        PictureSize(rows, n, e, x);
        CopyPass(final, out, p, W, H, x, y, n + e);
        InPlacePass(was, final[..], subs, rows, n, e, W, H);
        subs' := subs + [rows];
        rest := data[(n * x + 1) * y..];
      }
    }
  }

  lemma PictureSize(rows: seq<seq<Byte>>, n: nat, e: nat, x: nat)
    requires forall row :: row in rows ==> |row| == Times(x, n)
    ensures |Picture(rows, n, e, x)| == Times(Times(|rows|, x), n + e)
  {
    hide Times, Picture;
    TimesTimes(|rows|, x, n + e);
  }
}
