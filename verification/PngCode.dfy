/** The unfiltering loops of `stbi__create_png_image_raw` (external/stb/stb_image.h), in place on the output array. */
module PngCode {
  import opened Words
  import opened PngFilter

  // ----- A row, byte by byte -----

  lemma {:induction false} ReconPrefix(filter: nat, raw: seq<Byte>, prior: seq<Byte>, n: nat, k: nat, w: nat)
    requires filter <= 4 && n >= 1 && k <= w <= |raw| == |prior|
    ensures Recon(filter, raw, prior, n, w)[..k] == Recon(filter, raw, prior, n, k)
    decreases w
  {
    hide Predict;
    if k < w {
      ReconPrefix(filter, raw, prior, n, k, w - 1);
      assert Recon(filter, raw, prior, n, w)[..w - 1] == Recon(filter, raw, prior, n, w - 1);
      assert Recon(filter, raw, prior, n, w)[..k] == Recon(filter, raw, prior, n, w - 1)[..k];
    }
  }

  /** Each byte of the row is what the switches compute from the bytes already there. */
  lemma ReconAt(filter: nat, firstRow: bool, raw: seq<Byte>, prior: seq<Byte>, n: nat, k: nat, w: nat)
    requires filter <= 4 && n >= 1 && k < w <= |raw| == |prior|
    requires firstRow ==> prior == Zeros(|prior|)
    ensures var row := Recon(filter, raw, prior, n, w);
            var code := RowFilter(filter, firstRow);
            && (k < n ==> row[k] == FirstPixelByte(code, raw[k], prior[k]))
            && (k >= n ==> row[k] == LaterByte(code, raw[k], row[k - n], prior[k], prior[k - n]))
  {
    hide Predict, FirstPixelByte, LaterByte, RowFilter, FirstRowFilter;
    var row := Recon(filter, raw, prior, n, w);
    ReconPrefix(filter, raw, prior, n, k, w);
    ReconPrefix(filter, raw, prior, n, k + 1, w);
    assert row[k] == row[..k + 1][k];
    assert k >= n ==> row[k - n] == row[..k][k - n];
    SwitchesPredict(filter, firstRow, raw[k], LeftOf(row[..k], k, n), prior[k], LeftOf(prior, k, n));
  }

  /** `n` bytes of `s` are `n` bytes of `row`. */
  ghost predicate Holds(s: seq<Byte>, from: int, row: seq<Byte>, r: int, n: nat) {
    0 <= from && from + n <= |s| && 0 <= r && r + n <= |row| && s[from..from + n] == row[r..r + n]
  }

  lemma HoldsAt(s: seq<Byte>, from: int, row: seq<Byte>, r: int, n: nat, k: nat)
    requires Holds(s, from, row, r, n) && k < n
    ensures 0 <= from && from + n <= |s| && 0 <= r && r + n <= |row| && s[from + k] == row[r + k]
  {
    assert s[from..from + n][k] == row[r..r + n][k];
  }

  lemma HoldsIntro(s: seq<Byte>, from: nat, row: seq<Byte>, r: nat, n: nat)
    requires from + n <= |s| && r + n <= |row| && s[from..from + n] == row[r..r + n]
    ensures Holds(s, from, row, r, n)
  {
  }

  /** One byte written behind what is already there. */
  method PutByte(out: array<Byte>, at: nat, v: Byte)
    requires at < out.Length
    modifies out
    ensures out[..at] == old(out[..at])
    ensures out[..at + 1] == old(out[..at]) + [v]
  {
    out[at] := v;
  }

  /** The first pixel of a row without added alpha. The first-row filters never use the row above. */
  method FirstPlain(out: array<Byte>, base: nat, raw: seq<Byte>, filter: nat, firstRow: bool, n: nat,
                    ghost prior: seq<Byte>)
    requires filter <= 4 && 1 <= n <= |raw| == |prior| && base + |raw| <= out.Length
    requires firstRow ==> prior == Zeros(|raw|)
    requires !firstRow ==> base >= |raw| && Holds(out[..base], base - |raw|, prior, 0, |raw|)
    modifies out
    ensures out[..base + n] == old(out[..base]) + Recon(filter, raw, prior, n, |raw|)[..n]
  {
    hide Predict, FirstPixelByte, LaterByte, RowFilter, FirstRowFilter, Recon, Holds;
    var code, w := RowFilter(filter, firstRow), |raw|;
    ghost var row, head := Recon(filter, raw, prior, n, w), out[..base];
    var k := 0;
    while k < n
      invariant 0 <= k <= n
      invariant out[..base + k] == head + row[..k]
    {
      ReconAt(filter, firstRow, raw, prior, n, k, w);
      if !firstRow {
        HoldsAt(head, base - w, prior, 0, w, k);
        assert out[base - w + k] == out[..base + k][base - w + k] == head[base - w + k];
      }
      var up := if firstRow then 0 else out[base - w + k];
      PutByte(out, base + k, FirstPixelByte(code, raw[k], up));
      k := k + 1;
    }
  }

  /** The rest of the row. */
  method LaterPlain(out: array<Byte>, base: nat, raw: seq<Byte>, filter: nat, firstRow: bool, n: nat,
                    ghost prior: seq<Byte>,
                    ghost head: seq<Byte>)
    requires filter <= 4 && 1 <= n <= |raw| == |prior| && |head| == base && base + |raw| <= out.Length
    requires firstRow ==> prior == Zeros(|raw|)
    requires !firstRow ==> base >= |raw| && Holds(head, base - |raw|, prior, 0, |raw|)
    requires out[..base + n] == head + Recon(filter, raw, prior, n, |raw|)[..n]
    modifies out
    ensures out[..base + |raw|] == head + Recon(filter, raw, prior, n, |raw|)
  {
    hide Predict, FirstPixelByte, LaterByte, RowFilter, FirstRowFilter, Recon, Holds;
    var code, w := RowFilter(filter, firstRow), |raw|;
    ghost var row := Recon(filter, raw, prior, n, w);
    var k := n;
    while k < w
      invariant n <= k <= w
      invariant out[..base + k] == head + row[..k]
    {
      ReconAt(filter, firstRow, raw, prior, n, k, w);
      assert out[base + k - n] == out[..base + k][base + k - n] == row[k - n];
      if !firstRow {
        HoldsAt(head, base - w, prior, 0, w, k);
        HoldsAt(head, base - w, prior, 0, w, k - n);
        assert out[base - w + k] == out[..base + k][base - w + k] == head[base - w + k];
        assert out[base - w + (k - n)] == out[..base + k][base - w + (k - n)] == head[base - w + (k - n)];
      }
      var up := if firstRow then 0 else out[base - w + k];
      var upLeft := if firstRow then 0 else out[base - w + (k - n)];
      PutByte(out, base + k, LaterByte(code, raw[k], out[base + k - n], up, upLeft));
      k := k + 1;
    }
    assert row[..w] == row;
  }

  /** `img_n == out_n`: the first pixel, then the rest of the row. */
  method PlainRow(out: array<Byte>, base: nat, raw: seq<Byte>, filter: nat, firstRow: bool, n: nat, w: nat,
                  ghost prior: seq<Byte>)
    requires filter <= 4 && 1 <= n <= w && |raw| == |prior| == w && base + w <= out.Length
    requires firstRow ==> prior == Zeros(w)
    requires !firstRow ==> base >= w && out[base - w..base] == prior
    modifies out
    ensures out[..base] == old(out[..base])
    ensures out[base..base + w] == Recon(filter, raw, prior, n, w)
  {
    hide Recon, Holds, Zeros;
    ghost var head, row := out[..base], Recon(filter, raw, prior, n, w);
    if !firstRow {
      assert head[base - w..base - w + w] == prior[0..0 + w];
      HoldsIntro(head, base - w, prior, 0, w);
    }
    FirstPlain(out, base, raw, filter, firstRow, n, prior);
    LaterPlain(out, base, raw, filter, firstRow, n, prior, head);
    assert out[..base] == out[..base + w][..base] && out[base..base + w] == out[..base + w][base..];
  }

  // ----- Added alpha: `out_n == img_n + 1` -----

  /** The first pixel of a row and its alpha byte. */
  method FirstAlphaPixel(out: array<Byte>, base: nat, stride: nat, raw: seq<Byte>, filter: nat, firstRow: bool, n: nat,
                         ghost prior: seq<Byte>)
    requires filter <= 4 && 1 <= n <= |raw| == |prior| && n < stride && base + n < out.Length
    requires firstRow ==> prior == Zeros(|prior|)
    requires !firstRow ==> Holds(out[..], base - stride, prior, 0, n)
    modifies out
    ensures out[..base] == old(out[..base])
    ensures Holds(out[..], base, Recon(filter, raw, prior, n, |raw|), 0, n) && out[base + n] == 255
  {
    hide Predict, FirstPixelByte, LaterByte, RowFilter, FirstRowFilter, Recon, Holds;
    var code := RowFilter(filter, firstRow);
    ghost var row := Recon(filter, raw, prior, n, |raw|);
    ghost var was := out[..];
    var k := 0;
    while k < n
      invariant 0 <= k <= n
      invariant out[..base] == was[..base]
      invariant out[base..base + k] == row[..k]
    {
      ReconAt(filter, firstRow, raw, prior, n, k, |raw|);
      if !firstRow {
        HoldsAt(was, base - stride, prior, 0, n, k);
      }
      var up := if firstRow then 0 else out[base - stride + k];
      out[base + k] := FirstPixelByte(code, raw[k], up);
      k := k + 1;
    }
    out[base + n] := 255;
    HoldsIntro(out[..], base, row, 0, n);
  }

  lemma Kept(s: seq<Byte>, head: seq<Byte>, tail: seq<Byte>, i: nat)
    requires s == head + tail && i < |head|
    ensures s[i] == head[i]
  {
  }

  lemma PixelDone(s: seq<Byte>, head: seq<Byte>, row: seq<Byte>, r: nat, n: nat)
    requires r + n <= |row| && |head| + n < |s| && s[..|head| + n + 1] == head + row[r..r + n] + [255]
    ensures s[..|head|] == head && Holds(s, |head|, row, r, n) && s[|head| + n] == 255
  {
    var at, t := |head|, s[..|head| + n + 1];
    assert s[0..at + n + 1] == t;
    SubSlice(s, 0, at + n + 1, 0, at);
    SubSlice(s, 0, at + n + 1, at, at + n);
    assert t == head + (row[r..r + n] + [255]);
    InFront(head, row[r..r + n] + [255], 0, at);
    Behind(head, row[r..r + n] + [255], 0, n);
    assert s[..at] == s[0..at] && t[0..at] == head[0..at] == head;
    assert s[at + n] == t[at + n];
  }

  /** One byte of a later pixel. */
  method AlphaByte(out: array<Byte>, at: nat, stride: nat, raw: seq<Byte>, r: nat, filter: nat, firstRow: bool, n: nat,
                   k: nat,
                   ghost prior: seq<Byte>, ghost was: seq<Byte>)
    requires filter <= 4 && k < n <= r && r + n <= |raw| == |prior| && at + n < out.Length == |was| && n < stride
    requires firstRow ==> prior == Zeros(|prior|)
    requires Holds(was, at - n - 1, Recon(filter, raw, prior, n, |raw|), r - n, n)
    requires !firstRow ==> Holds(was, at - stride, prior, r, n)
    requires !firstRow ==> Holds(was, at - n - 1 - stride, prior, r - n, n)
    requires out[..at + k] == was[..at] + Recon(filter, raw, prior, n, |raw|)[r..r + k]
    modifies out
    ensures out[..at + k + 1] == was[..at] + Recon(filter, raw, prior, n, |raw|)[r..r + k + 1]
  {
    hide Predict, FirstPixelByte, LaterByte, RowFilter, FirstRowFilter, Recon, Holds, Zeros;
    var code := RowFilter(filter, firstRow);
    ghost var row := Recon(filter, raw, prior, n, |raw|);
    ghost var now, tail := out[..at + k], row[r..r + k];
    ReconAt(filter, firstRow, raw, prior, n, r + k, |raw|);
    HoldsAt(was, at - n - 1, row, r - n, n, k);
    Kept(now, was[..at], tail, at - n - 1 + k);
    var left := out[at - n - 1 + k];
    var up, upLeft := 0, 0;
    if !firstRow {
      HoldsAt(was, at - stride, prior, r, n, k);
      HoldsAt(was, at - n - 1 - stride, prior, r - n, n, k);
      Kept(now, was[..at], tail, at - stride + k);
      Kept(now, was[..at], tail, at - n - 1 - stride + k);
      up, upLeft := out[at - stride + k], out[at - n - 1 - stride + k];
    } else {
      ZeroRow(prior, r, k, n);
    }
    PutByte(out, at + k, LaterByte(code, raw[r + k], left, up, upLeft));
    assert row[r..r + k + 1] == tail + [row[r + k]];
  }

  lemma ZeroRow(prior: seq<Byte>, r: nat, k: nat, n: nat)
    requires prior == Zeros(|prior|) && n <= r && r + k < |prior|
    ensures prior[r + k] == 0 && prior[r + k - n] == 0
  {
  }

  /** A later pixel: `at` is its place in the output, `r` its place in the row. */
  method LaterAlphaPixel(out: array<Byte>, at: nat, stride: nat, raw: seq<Byte>, r: nat, filter: nat, firstRow: bool,
                         n: nat, ghost prior: seq<Byte>)
    requires filter <= 4 && 1 <= n <= r && r + n <= |raw| == |prior| && at + n < out.Length && n < stride
    requires firstRow ==> prior == Zeros(|prior|)
    requires Holds(out[..], at - n - 1, Recon(filter, raw, prior, n, |raw|), r - n, n)
    requires !firstRow ==> Holds(out[..], at - stride, prior, r, n)
    requires !firstRow ==> Holds(out[..], at - n - 1 - stride, prior, r - n, n)
    modifies out
    ensures out[..at] == old(out[..at])
    ensures Holds(out[..], at, Recon(filter, raw, prior, n, |raw|), r, n) && out[at + n] == 255
  {
    hide Predict, FirstPixelByte, LaterByte, RowFilter, FirstRowFilter, Recon, Holds;
    var code := RowFilter(filter, firstRow);
    ghost var row := Recon(filter, raw, prior, n, |raw|);
    ghost var was := out[..];
    var k := 0;
    while k < n
      invariant 0 <= k <= n
      invariant out[..at + k] == was[..at] + row[r..r + k]
    {
      AlphaByte(out, at, stride, raw, r, filter, firstRow, n, k, prior, was);
      k := k + 1;
    }
    PutByte(out, at + n, 255);
    PixelDone(out[..], was[..at], row, r, n);
  }

  /** Pixel `i` of a spread row that lies at `base`. */
  lemma SpreadHolds(s: seq<Byte>, base: nat, row: seq<Byte>, n: nat, e: nat, x: nat, i: nat)
    requires |row| >= Times(x, n) && i < x && base + Times(x, n + e) <= |s|
    requires s[base..base + Times(x, n + e)] == Spread(row, n, e, x)
    ensures Holds(s, base + Times(i, n + e), row, Times(i, n), n)
  {
    hide Spread, Times, Opaque;
    SpreadAt(row, n, e, x, i);
    SubSlice(s, base, base + Times(x, n + e), Times(i, n + e), Times(i, n + e) + n);
  }

  lemma SpreadNext(row: seq<Byte>, n: nat, i: nat, s: seq<Byte>, base: nat)
    requires |row| >= Times(i + 1, n) && base + Times(i, n + 1) + n + 1 <= |s|
    requires |row| >= Times(i, n) && s[base..base + Times(i, n + 1)] == Spread(row, n, 1, i)
    requires Holds(s, base + Times(i, n + 1), row, Times(i, n), n) && s[base + Times(i, n + 1) + n] == 255
    ensures Times(i + 1, n + 1) == Times(i, n + 1) + n + 1
    ensures s[base..base + Times(i + 1, n + 1)] == Spread(row, n, 1, i + 1)
  {
    hide Spread, Times;
    SpreadUnfolds(row, n, 1, i + 1);
    var at := base + Times(i, n + 1);
    assert s[base..at + n + 1] == s[base..at] + (s[at..at + n] + [s[at + n]]);
    assert Opaque(1) == [255];
  }

  /** Row `row` of `x` pixels: pixels before `i` are out, behind the spread row above. */
  ghost predicate PixelsOut(s: seq<Byte>, base: nat, row: seq<Byte>, prior: seq<Byte>, firstRow: bool, n: nat, x: nat,
                            i: nat) {
    && i <= x && |row| == |prior| == Times(x, n) && Times(i, n) <= |row| && |s| >= base + Times(i, n + 1)
    && (firstRow ==> prior == Zeros(|prior|))
    && (!firstRow ==> base >= Times(x, n + 1) && s[base - Times(x, n + 1)..base] == Spread(prior, n, 1, x))
    && s[base..base + Times(i, n + 1)] == Spread(row, n, 1, i)
  }

  lemma TimesStep(i: nat, n: nat)
    requires i > 0
    ensures Times(i, n) == Times(i - 1, n) + n
  {
  }

  lemma TimesBase(n: nat)
    ensures Times(0, n) == 0 && Times(1, n) == n
  {
    assert Times(1, n) == Times(0, n) + n;
  }

  lemma PixelsNone(s: seq<Byte>, base: nat, row: seq<Byte>, prior: seq<Byte>, firstRow: bool, n: nat, x: nat)
    requires |row| == |prior| == Times(x, n) && |s| >= base && (firstRow ==> prior == Zeros(|prior|))
    requires !firstRow ==> base >= Times(x, n + 1) && s[base - Times(x, n + 1)..base] == Spread(prior, n, 1, x)
    ensures PixelsOut(s, base, row, prior, firstRow, n, x, 0)
  {
  }

  lemma RowOut(s: seq<Byte>, base: nat, row: seq<Byte>, prior: seq<Byte>, firstRow: bool, n: nat, x: nat)
    requires PixelsOut(s, base, row, prior, firstRow, n, x, x)
    ensures |row| >= Times(x, n) && base + Times(x, n + 1) <= |s|
    ensures s[base..base + Times(x, n + 1)] == Spread(row, n, 1, x)
  {
  }

  /** What the next pixel reads is where the loop looks for it. */
  lemma Neighbours(s: seq<Byte>, base: nat, row: seq<Byte>, prior: seq<Byte>, firstRow: bool, n: nat, x: nat, i: nat)
    requires PixelsOut(s, base, row, prior, firstRow, n, x, i) && i < x
    ensures var at := base + Times(i, n + 1);
            var stride := Times(x, n + 1);
            var r := Times(i, n);
            && at + n + 1 <= base + stride && r + n <= |row|
            && (i > 0 ==> r >= n && Holds(s, at - n - 1, row, r - n, n))
            && (!firstRow ==> Holds(s, at - stride, prior, r, n))
            && (i > 0 && !firstRow ==> Holds(s, at - n - 1 - stride, prior, r - n, n))
  {
    hide Spread, Times, Holds, Opaque, Zeros;
    var stride := Times(x, n + 1);
    SpreadAt(row, n, 1, x, i);
    if i > 0 {
      TimesStep(i, n);
      TimesStep(i, n + 1);
      SpreadHolds(s, base, row, n, 1, i, i - 1);
    }
    if !firstRow {
      SpreadHolds(s, base - stride, prior, n, 1, x, i);
      if i > 0 {
        SpreadHolds(s, base - stride, prior, n, 1, x, i - 1);
      }
    }
  }

  lemma PixelsNext(was: seq<Byte>, s: seq<Byte>, base: nat, row: seq<Byte>, prior: seq<Byte>, firstRow: bool, n: nat,
                   x: nat, i: nat)
    requires PixelsOut(was, base, row, prior, firstRow, n, x, i) && i < x
    requires var at := base + Times(i, n + 1);
             && |s| > at + n && at <= |was| && s[..at] == was[..at]
             && Holds(s, at, row, Times(i, n), n) && s[at + n] == 255
    ensures PixelsOut(s, base, row, prior, firstRow, n, x, i + 1)
  {
    hide Spread, Holds;
    var at, stride := base + Times(i, n + 1), Times(x, n + 1);
    SpreadAt(row, n, 1, x, i);
    SameFront(s, was, at, base, at);
    if !firstRow {
      SameFront(s, was, at, base - stride, base);
    }
    SpreadNext(row, n, i, s, base);
  }

  method AlphaRow(out: array<Byte>, base: nat, raw: seq<Byte>, filter: nat, firstRow: bool, n: nat, x: nat,
                  ghost prior: seq<Byte>)
    requires filter <= 4 && n >= 1 && x >= 1 && |raw| == |prior| == Times(x, n) && base + Times(x, n + 1) <= out.Length
    requires firstRow ==> prior == Zeros(Times(x, n))
    requires !firstRow ==> base >= Times(x, n + 1) && out[base - Times(x, n + 1)..base] == Spread(prior, n, 1, x)
    modifies out
    ensures out[..base] == old(out[..base])
    ensures out[base..base + Times(x, n + 1)] == Spread(Recon(filter, raw, prior, n, Times(x, n)), n, 1, x)
  {
    hide Recon, Spread, Holds, PixelsOut, Times, Zeros;
    ghost var row := Recon(filter, raw, prior, n, |raw|);
    ghost var was := out[..];
    TimesIsProduct(x, n + 1);
    var stride := x * (n + 1);
    TimesBase(n);
    TimesBase(n + 1);
    PixelsNone(was, base, row, prior, firstRow, n, x);
    Neighbours(was, base, row, prior, firstRow, n, x, 0);
    FirstAlphaPixel(out, base, stride, raw, filter, firstRow, n, prior);
    PixelsNext(was, out[..], base, row, prior, firstRow, n, x, 0);
    var i, r, at := 1, n, base + n + 1;
    while i < x
      invariant 1 <= i <= x && r == Times(i, n) && at == base + Times(i, n + 1)
      invariant out[..base] == old(out[..base])
      invariant PixelsOut(out[..], base, row, prior, firstRow, n, x, i)
    {
      i, r, at := AlphaStep(out, base, stride, raw, filter, firstRow, n, x, i, r, at, prior);
    }
    RowOut(out[..], base, row, prior, firstRow, n, x);
  }

  /** One round of the row loop. */
  method AlphaStep(out: array<Byte>, base: nat, stride: nat, raw: seq<Byte>, filter: nat, firstRow: bool, n: nat,
                   x: nat,
                   i: nat, r: nat, at: nat, ghost prior: seq<Byte>) returns (i': nat, r': nat, at': nat)
    requires filter <= 4 && n >= 1 && 1 <= i < x && |raw| == |prior| == Times(x, n)
    requires stride == Times(x, n + 1) && base + stride <= out.Length
    requires r == Times(i, n) && at == base + Times(i, n + 1)
    requires firstRow ==> prior == Zeros(|prior|)
    requires PixelsOut(out[..], base, Recon(filter, raw, prior, n, |raw|), prior, firstRow, n, x, i)
    modifies out
    ensures i' == i + 1 && r' == Times(i', n) && at' == base + Times(i', n + 1)
    ensures out[..base] == old(out[..base])
    ensures PixelsOut(out[..], base, Recon(filter, raw, prior, n, |raw|), prior, firstRow, n, x, i')
  {
    hide Recon, Spread, Holds, PixelsOut, Times, Zeros;
    ghost var was, row := out[..], Recon(filter, raw, prior, n, |raw|);
    Neighbours(was, base, row, prior, firstRow, n, x, i);
    LaterAlphaPixel(out, at, stride, raw, r, filter, firstRow, n, prior);
    PixelsNext(was, out[..], base, row, prior, firstRow, n, x, i);
    TimesStep(i + 1, n);
    TimesStep(i + 1, n + 1);
    assert out[..base] == out[..at][..base] == was[..at][..base];
    i', r', at' := i + 1, r + n, at + n + 1;
  }

  // ----- The image -----

  function Extra(alpha: bool): nat {
    if alpha then 1 else 0
  }

  /** One row in either layout. */
  method Row(out: array<Byte>, base: nat, raw: seq<Byte>, filter: nat, firstRow: bool, n: nat, x: nat, alpha: bool,
             ghost prior: seq<Byte>)
    requires filter <= 4 && n >= 1 && x >= 1 && |raw| == |prior| == Times(x, n)
    requires base + Times(x, n + Extra(alpha)) <= out.Length
    requires firstRow ==> prior == Zeros(|prior|)
    requires !firstRow ==> base >= Times(x, n + Extra(alpha))
                           && out[base - Times(x, n + Extra(alpha))..base] == Spread(prior, n, Extra(alpha), x)
    modifies out
    ensures out[..base] == old(out[..base])
    ensures out[base..base + Times(x, n + Extra(alpha))] ==
            Spread(Recon(filter, raw, prior, n, |raw|), n, Extra(alpha), x)
  {
    hide Recon, Spread, Times;
    if alpha {
      AlphaRow(out, base, raw, filter, firstRow, n, x, prior);
    } else {
      ghost var row := Recon(filter, raw, prior, n, |raw|);
      SpreadPlain(prior, n, x);
      SpreadPlain(row, n, x);
      assert prior[..|raw|] == prior && row[..|raw|] == row;
      TimesBase(n);
      TimesMonotone(1, x, n);
      PlainRow(out, base, raw, filter, firstRow, n, |raw|, prior);
    }
  }

  /** The row above the next one. */
  ghost function Last(rows: seq<seq<Byte>>, w: nat): seq<Byte> {
    if rows == [] then Zeros(w) else rows[|rows| - 1]
  }

  /** `rest` is what remains of `raw` after `rows`. */
  ghost predicate Progress(raw: seq<Byte>, rest: seq<Byte>, rows: seq<seq<Byte>>, w: nat, n: nat, y: nat,
                           prior: seq<Byte>) {
    && n >= 1 && |rows| <= y && |prior| == w
    && (forall r :: r in rows ==> |r| == w)
    && prior == Last(rows, w)
    && |raw| >= Size(w, y) && |rest| >= Size(w, y - |rows|)
    && FiltersOk(raw, w, y) == FiltersOk(rest, w, y - |rows|)
    && (FiltersOk(raw, w, y) ==> Rows(raw, Zeros(w), w, n, y) == rows + Rows(rest, prior, w, n, y - |rows|))
  }

  lemma ProgressStart(raw: seq<Byte>, w: nat, n: nat, y: nat)
    requires n >= 1 && |raw| >= Size(w, y)
    ensures Progress(raw, raw, [], w, n, y, Zeros(w))
  {
  }

  lemma ProgressStep(raw: seq<Byte>, rest: seq<Byte>, rows: seq<seq<Byte>>, w: nat, n: nat, y: nat, prior: seq<Byte>)
    requires Progress(raw, rest, rows, w, n, y, prior) && |rows| < y
    ensures |rest| > w && |prior| == w && n >= 1 && |raw| >= Size(w, y)
    ensures rest[0] > 4 ==> !FiltersOk(raw, w, y)
    ensures rest[0] <= 4 ==>
              var row := Recon(rest[0], rest[1..w + 1], prior, n, w);
              Progress(raw, rest[w + 1..], rows + [row], w, n, y, row)
  {
    hide Recon, Rows, FiltersOk, Size, Zeros;
    var left := y - |rows|;
    ScanlineFirst(rest, w, left);
    if rest[0] <= 4 {
      var row := Recon(rest[0], rest[1..w + 1], prior, n, w);
      assert Last(rows + [row], w) == row;
      if FiltersOk(rest, w, left) {
        var tail := Rows(rest[w + 1..], row, w, n, left - 1);
        RowsStep(rest[0], rest[1..w + 1], rest[w + 1..], prior, w, n, left - 1);
        assert rest == [rest[0]] + rest[1..w + 1] + rest[w + 1..];
        assert rows + ([row] + tail) == (rows + [row]) + tail;
      }
    }
  }

  lemma ScanlineFirst(rest: seq<Byte>, w: nat, left: nat)
    requires left > 0 && |rest| >= Size(w, left)
    ensures Size(w, left) == w + 1 + Size(w, left - 1) && |rest| > w
    ensures FiltersOk(rest, w, left) <==> rest[0] <= 4 && FiltersOk(rest[w + 1..], w, left - 1)
  {
  }

  lemma ProgressEnd(raw: seq<Byte>, rest: seq<Byte>, rows: seq<seq<Byte>>, w: nat, n: nat, y: nat, prior: seq<Byte>)
    requires Progress(raw, rest, rows, w, n, y, prior) && |rows| == y
    ensures n >= 1 && |raw| >= Size(w, y) && FiltersOk(raw, w, y) && Rows(raw, Zeros(w), w, n, y) == rows
  {
  }

  /** The rows so far are at the front of the output. */
  ghost predicate Shown(s: seq<Byte>, rows: seq<seq<Byte>>, n: nat, e: nat, x: nat) {
    && (forall r :: r in rows ==> |r| == Times(x, n))
    && Times(|rows|, Times(x, n + e)) <= |s|
    && s[..Times(|rows|, Times(x, n + e))] == Picture(rows, n, e, x)
  }

  lemma RowAbove(s: seq<Byte>, rows: seq<seq<Byte>>, n: nat, e: nat, x: nat)
    requires Shown(s, rows, n, e, x) && rows != []
    ensures var stride := Times(x, n + e);
            var base := Times(|rows|, stride);
            && stride <= base <= |s| && |rows[|rows| - 1]| == Times(x, n)
            && s[base - stride..base] == Spread(rows[|rows| - 1], n, e, x)
  {
    hide Spread, Times, Picture;
    var j, stride := |rows| - 1, Times(x, n + e);
    PictureRow(rows, n, e, x, j);
    TimesStep(|rows|, stride);
    InFront(s[..Times(|rows|, stride)], s[Times(|rows|, stride)..], Times(j, stride), Times(|rows|, stride));
    assert s[..Times(|rows|, stride)] + s[Times(|rows|, stride)..] == s;
  }

  lemma RowShown(was: seq<Byte>, s: seq<Byte>, rows: seq<seq<Byte>>, row: seq<Byte>, n: nat, e: nat, x: nat)
    requires Shown(was, rows, n, e, x) && |row| == Times(x, n)
    requires var base := Times(|rows|, Times(x, n + e));
             && base + Times(x, n + e) <= |s| && s[..base] == was[..base]
             && s[base..base + Times(x, n + e)] == Spread(row, n, e, x)
    ensures Shown(s, rows + [row], n, e, x)
    ensures Times(|rows| + 1, Times(x, n + e)) == Times(|rows|, Times(x, n + e)) + Times(x, n + e)
  {
    hide Spread, Times, Picture;
    PictureAppend(rows, row, n, e, x);
    var base := Times(|rows|, Times(x, n + e));
    assert s[..base + Times(x, n + e)] == s[..base] + s[base..base + Times(x, n + e)];
  }

  lemma NothingShown(s: seq<Byte>, n: nat, e: nat, x: nat)
    ensures Shown(s, [], n, e, x)
  {
  }

  lemma AllShown(s: seq<Byte>, rows: seq<seq<Byte>>, n: nat, e: nat, x: nat)
    requires Shown(s, rows, n, e, x) && |s| == Times(|rows|, Times(x, n + e))
    ensures (forall r :: r in rows ==> |r| == Times(x, n)) && s == Picture(rows, n, e, x)
  {
  }

  /** Fails exactly when bytes are missing or a filter byte is above 4; otherwise the output is the unfiltered
      picture. */
  method CreateRaw(raw: seq<Byte>, x: nat, y: nat, n: nat, alpha: bool) returns (ok: bool, out: array<Byte>)
    requires x >= 1 && n >= 1
    ensures fresh(out)
    ensures ok <==> |raw| >= Size(Times(x, n), y) && FiltersOk(raw, Times(x, n), y)
    ensures ok ==> out[..] == Picture(Rows(raw, Zeros(Times(x, n)), Times(x, n), n, y), n, Extra(alpha), x)
  {
    hide Recon, Spread, Times, Picture, Rows, FiltersOk, Progress, Shown, Size, Zeros;
    var e := Extra(alpha);
    var w, stride := x * n, x * (n + e);
    TimesIsProduct(x, n);
    TimesIsProduct(x, n + e);
    TimesIsProduct(y, stride);
    SizeIsProduct(w, y);
    out := new Byte[y * stride];
    ok := |raw| >= (w + 1) * y;
    if ok {
      var j, rest := 0, raw;
      ghost var rows, prior := [], Zeros(w);
      ProgressStart(raw, w, n, y);
      NothingShown(out[..], n, e, x);
      while ok && j < y
        invariant j == |rows| <= y
        invariant ok ==> Progress(raw, rest, rows, w, n, y, prior) && Shown(out[..], rows, n, e, x)
        invariant !ok ==> !FiltersOk(raw, w, y)
        invariant prior == Last(rows, w)
        decreases ok, y - j
      {
        ProgressStep(raw, rest, rows, w, n, y, prior);
        var filter := rest[0];
        if filter > 4 {
          ok := false;
        } else {
          prior, rows := NextRow(out, j, rest[1..w + 1], filter, n, x, y, alpha, w, stride, prior, rows);
          rest := rest[w + 1..];
          j := j + 1;
        }
      }
      if ok {
        ProgressEnd(raw, rest, rows, w, n, y, prior);
        AllShown(out[..], rows, n, e, x);
      }
    }
  }

  /** One round of the image loop. */
  method NextRow(out: array<Byte>, j: nat, raw: seq<Byte>, filter: nat, n: nat, x: nat, y: nat, alpha: bool, w: nat,
                 stride: nat,
                 ghost prior: seq<Byte>, ghost rows: seq<seq<Byte>>)
    returns (ghost prior': seq<Byte>, ghost rows': seq<seq<Byte>>)
    requires filter <= 4 && n >= 1 && x >= 1 && w == Times(x, n) == |raw| == |prior|
    requires stride == Times(x, n + Extra(alpha))
    requires j == |rows| < y && out.Length == Times(y, stride)
    requires prior == Last(rows, w)
    requires Shown(out[..], rows, n, Extra(alpha), x)
    modifies out
    ensures prior' == Recon(filter, raw, prior, n, w) && rows' == rows + [prior']
    ensures Shown(out[..], rows', n, Extra(alpha), x)
  {
    hide Recon, Spread, Times, Picture, Shown, Zeros;
    ghost var was, row := out[..], Recon(filter, raw, prior, n, w);
    TimesIsProduct(j, stride);
    TimesMonotone(j, y, stride);
    var base := stride * j;
    if j > 0 {
      RowAbove(was, rows, n, Extra(alpha), x);
    }
    Row(out, base, raw, filter, j == 0, n, x, alpha, prior);
    RowShown(was, out[..], rows, row, n, Extra(alpha), x);
    prior', rows' := row, rows + [row];
  }
}
