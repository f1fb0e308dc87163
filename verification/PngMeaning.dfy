/** What the PNG filters of external/stb/stb_image.h mean, without naming their code: section 6 of RFC 2083 as
    conditions on the bytes of the reconstructed image. */
module PngMeaning {
  import opened Words
  import opened PngFilter

  /** Distance of `v` from the initial estimate left + up - upLeft. */
  ghost function Gap(left: Byte, up: Byte, upLeft: Byte, v: int): nat {
    var d := left + up - upLeft - v;
    if d < 0 then -d else d
  }

  /** The neighbour nearest to the estimate; ties go to the left, then to the upper one. */
  ghost predicate Nearest(left: Byte, up: Byte, upLeft: Byte, v: int) {
    var gl, gu, gc := Gap(left, up, upLeft, left), Gap(left, up, upLeft, up), Gap(left, up, upLeft, upLeft);
    && (v == left || v == up || v == upLeft)
    && Gap(left, up, upLeft, v) <= gl && Gap(left, up, upLeft, v) <= gu && Gap(left, up, upLeft, v) <= gc
    && (gl <= gu && gl <= gc ==> v == left)
    && (gu < gl && gu <= gc ==> v == up)
  }

  lemma PaethNearest(a: Byte, b: Byte, c: Byte)
    ensures Nearest(a, b, c, Paeth(a, b, c))
  {
  }

  /** The conditions leave one choice. */
  lemma NearestUnique(a: Byte, b: Byte, c: Byte, v: Byte)
    ensures Nearest(a, b, c, v) <==> v == Paeth(a, b, c)
  {
    PaethNearest(a, b, c);
  }

  /** What a filter adds to a stored byte: nothing, the left byte, the upper byte, the floor of their mean, or the
      nearest neighbour. */
  ghost predicate Adds(filter: nat, v: int, left: Byte, up: Byte, upLeft: Byte) {
    match filter
    case 0 => v == 0
    case 1 => v == left
    case 2 => v == up
    case 3 => 2 * v <= left + up < 2 * v + 2
    case _ => Nearest(left, up, upLeft, v)
  }

  lemma PredictAdds(filter: nat, a: Byte, b: Byte, c: Byte)
    requires filter <= 4
    ensures Adds(filter, Predict(filter, a, b, c), a, b, c)
  {
    hide Nearest, Paeth;
    PaethNearest(a, b, c);
  }

  /** The difference of two bytes modulo 256. */
  ghost function Minus(a: int, b: int): int {
    (a - b) % 256
  }

  lemma Difference(raw: Byte, p: Byte)
    ensures Minus(ToByte(raw + p), raw) == p
  {
  }

  lemma {:induction false} ReconPrefix(filter: nat, raw: seq<Byte>, prior: seq<Byte>, n: nat, i: nat, k: nat)
    requires filter <= 4 && n >= 1 && i <= k <= |raw| == |prior|
    ensures Recon(filter, raw, prior, n, k)[..i] == Recon(filter, raw, prior, n, i)
    decreases k
  {
    hide Predict, LeftOf;
    if i < k {
      ReconPrefix(filter, raw, prior, n, i, k - 1);
    }
  }

  /** Byte `k` of a reconstructed row minus the stored byte is, modulo 256, what its filter adds for the neighbours
      already in the row and in the row above; neighbours left of the row count as zero. */
  lemma ReconMeans(filter: nat, raw: seq<Byte>, prior: seq<Byte>, n: nat, k: nat)
    requires filter <= 4 && n >= 1 && k < |raw| == |prior|
    ensures var row := Recon(filter, raw, prior, n, |raw|);
            var left: Byte := if k >= n then row[k - n] else 0;
            var upLeft: Byte := if k >= n then prior[k - n] else 0;
            Adds(filter, Minus(row[k], raw[k]), left, prior[k], upLeft)
  {
    hide Predict, Adds, Recon;
    var row, front := Recon(filter, raw, prior, n, |raw|), Recon(filter, raw, prior, n, k);
    ReconPrefix(filter, raw, prior, n, k + 1, |raw|);
    ReconPrefix(filter, raw, prior, n, k, |raw|);
    ReconStep(filter, raw, prior, n, k);
    var left: Byte := if k >= n then row[k - n] else 0;
    var upLeft: Byte := if k >= n then prior[k - n] else 0;
    assert LeftOf(front, k, n) == left;
    var p := Predict(filter, left, prior[k], upLeft);
    assert row[k] == Recon(filter, raw, prior, n, k + 1)[k];
    Difference(raw[k], p);
    PredictAdds(filter, left, prior[k], upLeft);
  }

  lemma ReconStep(filter: nat, raw: seq<Byte>, prior: seq<Byte>, n: nat, k: nat)
    requires filter <= 4 && n >= 1 && k < |raw| == |prior|
    ensures var row := Recon(filter, raw, prior, n, k);
            Recon(filter, raw, prior, n, k + 1) ==
            row + [ToByte(raw[k] + Predict(filter, LeftOf(row, k, n), prior[k], LeftOf(prior, k, n)))]
  {
    hide Predict, LeftOf;
  }

  lemma {:induction false} ScanlineInside(raw: seq<Byte>, w: nat, y: nat, j: nat)
    requires j < y && |raw| >= Size(w, y) && FiltersOk(raw, w, y)
    ensures Size(w, j) + w < Size(w, y) && raw[Size(w, j)] <= 4
    decreases y
  {
    if j > 0 {
      ScanlineInside(raw[w + 1..], w, y - 1, j - 1);
    }
  }

  /** Row `j` of an image comes from its own scanline and the row above. */
  lemma {:induction false} RowFromScanline(raw: seq<Byte>, prior: seq<Byte>, w: nat, n: nat, y: nat, j: nat)
    requires n >= 1 && |prior| == w && |raw| >= Size(w, y) && FiltersOk(raw, w, y) && j < y
    ensures Size(w, j) + w < Size(w, y) && raw[Size(w, j)] <= 4
    ensures var rows, at := Rows(raw, prior, w, n, y), Size(w, j);
            var above := if j == 0 then prior else rows[j - 1];
            |above| == w && rows[j] == Recon(raw[at], raw[at + 1..at + 1 + w], above, n, w)
    decreases y
  {
    hide Recon, Rows, FiltersOk, Size;
    ScanlineInside(raw, w, y, j);
    RowsUnfold(raw, prior, w, n, y);
    SizeUnfolds(w, j);
    if j > 0 {
      var rest, row, at := raw[w + 1..], Recon(raw[0], raw[1..w + 1], prior, n, w), Size(w, j - 1);
      RowFromScanline(rest, row, w, n, y - 1, j - 1);
      assert rest == raw[w + 1..|raw|];
      SubSlice(raw, w + 1, |raw|, at + 1, at + 1 + w);
    }
  }

  lemma SizeUnfolds(w: nat, j: nat)
    ensures Size(w, j) == if j == 0 then 0 else w + 1 + Size(w, j - 1)
  {
  }

  lemma RowsUnfold(raw: seq<Byte>, prior: seq<Byte>, w: nat, n: nat, y: nat)
    requires n >= 1 && |prior| == w && y > 0 && |raw| >= Size(w, y) && FiltersOk(raw, w, y)
    ensures |raw| > w && raw[0] <= 4 && |raw[w + 1..]| >= Size(w, y - 1) && FiltersOk(raw[w + 1..], w, y - 1)
    ensures var row := Recon(raw[0], raw[1..w + 1], prior, n, w);
            Rows(raw, prior, w, n, y) == [row] + Rows(raw[w + 1..], row, w, n, y - 1)
  {
    hide Recon;
  }

  /** Every byte of an image minus its stored byte is what the filter byte of its row prescribes for its neighbours. */
  lemma ImageMeans(raw: seq<Byte>, prior: seq<Byte>, w: nat, n: nat, y: nat, j: nat, k: nat)
    requires n >= 1 && |prior| == w && |raw| >= Size(w, y) && FiltersOk(raw, w, y) && j < y && k < w
    ensures Size(w, j) + w < Size(w, y)
    ensures var rows, at := Rows(raw, prior, w, n, y), Size(w, j);
            var above := if j == 0 then prior else rows[j - 1];
            |rows[j]| == |above| == w &&
            var left: Byte := if k >= n then rows[j][k - n] else 0;
            var upLeft: Byte := if k >= n then above[k - n] else 0;
            Adds(raw[at], Minus(rows[j][k], raw[at + 1 + k]), left, above[k], upLeft)
  {
    hide Recon, Rows, Adds, FiltersOk, Size;
    RowFromScanline(raw, prior, w, n, y, j);
    var rows, at := Rows(raw, prior, w, n, y), Size(w, j);
    var above := if j == 0 then prior else rows[j - 1];
    ReconMeans(raw[at], raw[at + 1..at + 1 + w], above, n, k);
  }
}
