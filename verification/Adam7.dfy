/** The Adam7 passes of `stbi__create_png_image` (external/stb/stb_image.h) against section 2.6 of RFC 2083. */
module Adam7 {

  // ----- The pattern of the standard -----

  /** The 8 by 8 pattern, passes counted from 0:
          0 5 3 5 1 5 3 5
          6 6 6 6 6 6 6 6
          4 5 4 5 4 5 4 5
          6 6 6 6 6 6 6 6
          2 5 3 5 2 5 3 5
          6 6 6 6 6 6 6 6
          4 5 4 5 4 5 4 5
          6 6 6 6 6 6 6 6 */
  function Pattern(c: nat, r: nat): nat {
    match r
    case 0 => (match c case 0 => 0 case 1 => 5 case 2 => 3 case 3 => 5 case 4 => 1 case 5 => 5 case 6 => 3 case _ => 5)
    case 2 => (match c case 0 => 4 case 1 => 5 case 2 => 4 case 3 => 5 case 4 => 4 case 5 => 5 case 6 => 4 case _ => 5)
    case 4 => (match c case 0 => 2 case 1 => 5 case 2 => 3 case 3 => 5 case 4 => 2 case 5 => 5 case 6 => 3 case _ => 5)
    case 6 => (match c case 0 => 4 case 1 => 5 case 2 => 4 case 3 => 5 case 4 => 4 case 5 => 5 case 6 => 4 case _ => 5)
    case _ => 6
  }

  /** The pass that transmits pixel (X, Y). */
  function PassOf(X: nat, Y: nat): nat {
    Pattern(X % 8, Y % 8)
  }

  // ----- The source's tables -----

  function XOrig(p: nat): nat
    requires p < 7
  {
    match p case 0 => 0 case 1 => 4 case 2 => 0 case 3 => 2 case 4 => 0 case 5 => 1 case _ => 0
  }

  function YOrig(p: nat): nat
    requires p < 7
  {
    match p case 0 => 0 case 1 => 0 case 2 => 4 case 3 => 0 case 4 => 2 case 5 => 0 case _ => 1
  }

  function XSpc(p: nat): (n: nat)
    requires p < 7
    ensures n > XOrig(p)
  {
    match p case 0 => 8 case 1 => 8 case 2 => 4 case 3 => 4 case 4 => 2 case 5 => 2 case _ => 1
  }

  function YSpc(p: nat): (n: nat)
    requires p < 7
    ensures n > YOrig(p)
  {
    match p case 0 => 8 case 1 => 8 case 2 => 8 case 3 => 4 case 4 => 4 case 5 => 2 case _ => 2
  }

  /** How many of the positions below `size` a pass has on one axis. */
  function Count(size: nat, orig: nat, spc: nat): (n: nat)
    requires size >= 1 && orig < spc
  {
    (size - orig + spc - 1) / spc
  }

  function PassWidth(p: nat, W: nat): nat
    requires p < 7 && W >= 1
  {
    Count(W, XOrig(p), XSpc(p))
  }

  function PassHeight(p: nat, H: nat): nat
    requires p < 7 && H >= 1
  {
    Count(H, YOrig(p), YSpc(p))
  }

  // ----- Each pixel in exactly one place of one pass -----

  predicate Spacing(orig: nat, spc: nat) {
    orig < spc && (spc == 1 || spc == 2 || spc == 4 || spc == 8)
  }

  predicate Aligned(v: nat, orig: nat, spc: nat)
    requires spc >= 1
  {
    v >= orig && (v - orig) % spc == 0
  }

  /** On one axis, the `i`-th position of a pass is below the size exactly when `i` is below the count. */
  lemma PositionOf(size: nat, orig: nat, spc: nat, i: nat)
    requires size >= 1 && Spacing(orig, spc)
    ensures i < Count(size, orig, spc) <==> i * spc + orig < size
    ensures Aligned(i * spc + orig, orig, spc) && (i * spc + orig) / spc == i
  {
    hide Aligned, Count;
    if spc == 8 {
      Position8(size, orig, i);
    } else if spc == 4 {
      Position4(size, orig, i);
    } else if spc == 2 {
      Position2(size, orig, i);
    } else {
      Position1(size, i);
    }
  }

  lemma Position8(size: nat, orig: nat, i: nat)
    requires size >= 1 && orig < 8
    ensures i < Count(size, orig, 8) <==> i * 8 + orig < size
    ensures Aligned(i * 8 + orig, orig, 8) && (i * 8 + orig) / 8 == i
  {
  }

  lemma Position4(size: nat, orig: nat, i: nat)
    requires size >= 1 && orig < 4
    ensures i < Count(size, orig, 4) <==> i * 4 + orig < size
    ensures Aligned(i * 4 + orig, orig, 4) && (i * 4 + orig) / 4 == i
  {
  }

  lemma Position2(size: nat, orig: nat, i: nat)
    requires size >= 1 && orig < 2
    ensures i < Count(size, orig, 2) <==> i * 2 + orig < size
    ensures Aligned(i * 2 + orig, orig, 2) && (i * 2 + orig) / 2 == i
  {
  }

  lemma Position1(size: nat, i: nat)
    requires size >= 1
    ensures i < Count(size, 0, 1) <==> i * 1 + 0 < size
    ensures Aligned(i * 1 + 0, 0, 1) && (i * 1 + 0) / 1 == i
  {
  }

  lemma PositionBack(orig: nat, spc: nat, v: nat)
    requires Spacing(orig, spc) && Aligned(v, orig, spc)
    ensures v == (v / spc) * spc + orig
  {
    hide Aligned;
    if spc == 8 {
      Back8(orig, v);
    } else if spc == 4 {
      Back4(orig, v);
    } else if spc == 2 {
      Back2(orig, v);
    }
  }

  lemma Back8(orig: nat, v: nat)
    requires orig < 8 && Aligned(v, orig, 8)
    ensures v == (v / 8) * 8 + orig
  {
  }

  lemma Back4(orig: nat, v: nat)
    requires orig < 4 && Aligned(v, orig, 4)
    ensures v == (v / 4) * 4 + orig
  {
  }

  lemma Back2(orig: nat, v: nat)
    requires orig < 2 && Aligned(v, orig, 2)
    ensures v == (v / 2) * 2 + orig
  {
  }

  lemma Aligned8(v: nat, orig: nat)
    requires orig < 8
    ensures Aligned(v, orig, 8) == Aligned(v % 8, orig, 8)
  {
  }

  lemma Aligned4(v: nat, orig: nat)
    requires orig < 4
    ensures Aligned(v, orig, 4) == Aligned(v % 8, orig, 4)
  {
    Quarter(2 * (v / 8), v % 8 - orig);
    assert v - orig == 4 * (2 * (v / 8)) + (v % 8 - orig);
  }

  lemma Quarter(m: nat, d: int)
    ensures (4 * m + d) % 4 == d % 4
  {
  }

  lemma Parity(m: nat, d: int)
    ensures (2 * m + d) % 2 == d % 2
  {
  }

  lemma Aligned2(v: nat, orig: nat)
    requires orig < 2
    ensures Aligned(v, orig, 2) == Aligned(v % 8, orig, 2)
  {
    Parity(4 * (v / 8), v % 8 - orig);
    assert v - orig == 2 * (4 * (v / 8)) + (v % 8 - orig);
  }

  lemma AlignedMod8(v: nat, orig: nat, spc: nat)
    requires Spacing(orig, spc)
    ensures Aligned(v, orig, spc) == Aligned(v % 8, orig, spc)
  {
    if spc == 8 {
      Aligned8(v, orig);
    } else if spc == 4 {
      Aligned4(v, orig);
    } else if spc == 2 {
      Aligned2(v, orig);
    }
  }

  lemma Spacings(p: nat)
    requires p < 7
    ensures Spacing(XOrig(p), XSpc(p)) && Spacing(YOrig(p), YSpc(p))
  {
  }

  /** Pass `p` has a pixel at (X, Y). */
  predicate Hits(p: nat, X: nat, Y: nat)
    requires p < 7
  {
    Aligned(X, XOrig(p), XSpc(p)) && Aligned(Y, YOrig(p), YSpc(p))
  }

  /** The places of pass `p` in the 8 by 8 square. */
  predicate Stands(p: nat, X: nat, Y: nat)
    requires p < 7
  {
    match p
    case 0 => X == 0 && Y == 0
    case 1 => X == 4 && Y == 0
    case 2 => (X == 0 || X == 4) && Y == 4
    case 3 => (X == 2 || X == 6) && (Y == 0 || Y == 4)
    case 4 => (X == 0 || X == 2 || X == 4 || X == 6) && (Y == 2 || Y == 6)
    case 5 => (X == 1 || X == 3 || X == 5 || X == 7) && (Y == 0 || Y == 2 || Y == 4 || Y == 6)
    case _ => Y == 1 || Y == 3 || Y == 5 || Y == 7
  }

  lemma PatternStands(p: nat, X: nat, Y: nat)
    requires p < 7 && X < 8 && Y < 8
    ensures Stands(p, X, Y) <==> Pattern(X, Y) == p
  {
  }

  /** The alignments that occur, below 8. */
  lemma AlignedBelow8(v: nat)
    requires v < 8
    ensures Aligned(v, 0, 8) == (v == 0) && Aligned(v, 4, 8) == (v == 4)
    ensures Aligned(v, 0, 4) == (v == 0 || v == 4) && Aligned(v, 2, 4) == (v == 2 || v == 6)
    ensures Aligned(v, 0, 2) == (v == 0 || v == 2 || v == 4 || v == 6)
    ensures Aligned(v, 1, 2) == (v == 1 || v == 3 || v == 5 || v == 7)
    ensures Aligned(v, 0, 1)
  {
  }

  lemma AlignedX(p: nat, X: nat)
    requires p < 7
    ensures Aligned(X, XOrig(p), XSpc(p)) == match p
              case 0 => Aligned(X, 0, 8)
              case 1 => Aligned(X, 4, 8) case 2 => Aligned(X, 0, 4) case 3 => Aligned(X, 2, 4)
              case 4 => Aligned(X, 0, 2) case 5 => Aligned(X, 1, 2) case _ => Aligned(X, 0, 1)
  {
    hide Aligned;
  }

  lemma AlignedY(p: nat, Y: nat)
    requires p < 7
    ensures Aligned(Y, YOrig(p), YSpc(p)) == match p
              case 0 => Aligned(Y, 0, 8)
              case 1 => Aligned(Y, 0, 8) case 2 => Aligned(Y, 4, 8) case 3 => Aligned(Y, 0, 4)
              case 4 => Aligned(Y, 2, 4) case 5 => Aligned(Y, 0, 2) case _ => Aligned(Y, 1, 2)
  {
    hide Aligned;
  }

  lemma HitsStands(p: nat, X: nat, Y: nat)
    requires p < 7 && X < 8 && Y < 8
    ensures Hits(p, X, Y) <==> Stands(p, X, Y)
  {
    hide Aligned, XOrig, YOrig, XSpc, YSpc;
    AlignedX(p, X);
    AlignedY(p, Y);
    AlignedBelow8(X);
    AlignedBelow8(Y);
  }

  lemma Pattern8(p: nat, X: nat, Y: nat)
    requires p < 7 && X < 8 && Y < 8
    ensures Hits(p, X, Y) <==> Pattern(X, Y) == p
  {
    hide Hits, Pattern, Stands;
    HitsStands(p, X, Y);
    PatternStands(p, X, Y);
  }

  /** The seven grids are the pattern of the standard: each pixel lies in exactly one of them. */
  lemma PatternIsPasses(p: nat, X: nat, Y: nat)
    requires p < 7
    ensures Hits(p, X, Y) <==> PassOf(X, Y) == p
  {
    hide Aligned, Pattern, Spacing;
    Spacings(p);
    AlignedMod8(X, XOrig(p), XSpc(p));
    AlignedMod8(Y, YOrig(p), YSpc(p));
    Pattern8(p, X % 8, Y % 8);
  }

  /** Position (i, j) of pass `p` is output pixel (X, Y). */
  predicate Places(p: nat, i: nat, j: nat, X: nat, Y: nat)
    requires p < 7
  {
    X == i * XSpc(p) + XOrig(p) && Y == j * YSpc(p) + YOrig(p)
  }

  /** Every output pixel comes from exactly one place of exactly one pass, and every place of a pass is an output
      pixel. */
  lemma ExactlyOnce(p: nat, i: nat, j: nat, X: nat, Y: nat, W: nat, H: nat)
    requires p < 7 && W >= 1 && H >= 1
    ensures i < PassWidth(p, W) && j < PassHeight(p, H) && Places(p, i, j, X, Y)
       <==> X < W && Y < H && p == PassOf(X, Y) && i == X / XSpc(p) && j == Y / YSpc(p)
  {
    hide Aligned, Spacing, Count, PassOf;
    Spacings(p);
    PatternIsPasses(p, X, Y);
    PositionOf(W, XOrig(p), XSpc(p), i);
    PositionOf(H, YOrig(p), YSpc(p), j);
    if Hits(p, X, Y) {
      PositionBack(XOrig(p), XSpc(p), X);
      PositionBack(YOrig(p), YSpc(p), Y);
    }
  }
}
