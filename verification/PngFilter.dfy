/** PNG unfiltering in external/stb/stb_image.h (`stbi__create_png_image_raw`, byte samples) against the filters of
    section 6 of RFC 2083. */
module PngFilter {
  import opened Words

  // ----- The filters, as the standard defines them -----

  function Abs(n: int): nat {
    if n < 0 then -n else n
  }

  /** `stbi__paeth`: the neighbour closest to a + b - c; ties prefer a, then b. */
  function Paeth(a: Byte, b: Byte, c: Byte): Byte {
    var p := a + b - c;
    var pa, pb, pc := Abs(p - a), Abs(p - b), Abs(p - c);
    if pa <= pb && pa <= pc then a else if pb <= pc then b else c
  }

  /** Left neighbour `a`, upper `b`, upper left `c`. */
  function Predict(filter: nat, a: Byte, b: Byte, c: Byte): Byte
    requires filter <= 4
  {
    match filter
    case 0 => 0
    case 1 => a
    case 2 => b
    case 3 => (a + b) / 2
    case _ => Paeth(a, b, c)
  }

  /** Byte `k` back by one pixel of `n` bytes, zero left of the row. */
  function LeftOf(row: seq<Byte>, k: nat, n: nat): Byte
    requires k <= |row| && n >= 1
  {
    if k >= n then row[k - n] else 0
  }

  /** The first `k` bytes of the reconstructed row. */
  function Recon(filter: nat, raw: seq<Byte>, prior: seq<Byte>, n: nat, k: nat): (row: seq<Byte>)
    requires filter <= 4 && n >= 1 && k <= |raw| == |prior|
    ensures |row| == k
  {
    if k == 0 then []
    else
      var row := Recon(filter, raw, prior, n, k - 1);
      row + [ToByte(raw[k - 1] + Predict(filter, LeftOf(row, k - 1, n), prior[k - 1], LeftOf(prior, k - 1, n)))]
  }

  /** What an encoder stores for a row. */
  function Filter(filter: nat, row: seq<Byte>, prior: seq<Byte>, n: nat): (raw: seq<Byte>)
    requires filter <= 4 && n >= 1 && |row| == |prior|
    ensures |raw| == |row|
  {
    seq(|row|, k requires 0 <= k < |row| =>
      ToByte(row[k] - Predict(filter, LeftOf(row, k, n), prior[k], LeftOf(prior, k, n))))
  }

  lemma {:induction false} ReconUndoesFilter(filter: nat, row: seq<Byte>, prior: seq<Byte>, n: nat, k: nat)
    requires filter <= 4 && n >= 1 && k <= |row| == |prior|
    ensures Recon(filter, Filter(filter, row, prior, n), prior, n, k) == row[..k]
  {
    hide Predict;
    if k > 0 {
      ReconUndoesFilter(filter, row, prior, n, k - 1);
      assert LeftOf(row[..k - 1], k - 1, n) == LeftOf(row, k - 1, n);
      assert row[..k] == row[..k - 1] + [row[k - 1]];
    }
  }

  // ----- Images -----

  function Zeros(w: nat): seq<Byte> {
    seq(w, _ => 0)
  }

  /** `img_len`: scanlines of `w` bytes and a filter byte each. */
  function Size(w: nat, y: nat): nat {
    if y == 0 then 0 else w + 1 + Size(w, y - 1)
  }

  lemma {:induction false} SizeIsProduct(w: nat, y: nat)
    ensures Size(w, y) == (w + 1) * y
  {
    if y > 0 {
      SizeIsProduct(w, y - 1);
    }
  }

  ghost predicate FiltersOk(raw: seq<Byte>, w: nat, y: nat)
    requires |raw| >= Size(w, y)
    decreases y
  {
    y == 0 || (raw[0] <= 4 && FiltersOk(raw[w + 1..], w, y - 1))
  }

  /** The rows of `y` filtered scanlines of `w` bytes, each behind its filter byte. */
  ghost function Rows(raw: seq<Byte>, prior: seq<Byte>, w: nat, n: nat, y: nat): (rows: seq<seq<Byte>>)
    requires n >= 1 && |prior| == w && |raw| >= Size(w, y) && FiltersOk(raw, w, y)
    ensures |rows| == y && forall r :: r in rows ==> |r| == w
    decreases y
  {
    if y == 0 then []
    else
      var row := Recon(raw[0], raw[1..w + 1], prior, n, w);
      [row] + Rows(raw[w + 1..], row, w, n, y - 1)
  }

  /** An encoder's scanlines for an image and one filter choice per row. */
  ghost function Scanlines(rows: seq<seq<Byte>>, filters: seq<nat>, prior: seq<Byte>, w: nat, n: nat): seq<Byte>
    requires n >= 1 && |rows| == |filters| && |prior| == w
    requires forall r :: r in rows ==> |r| == w
    requires forall f :: f in filters ==> f <= 4
    decreases |rows|
  {
    if rows == [] then []
    else
      assert rows[0] in rows && filters[0] in filters;
      assert forall r :: r in rows[1..] ==> r in rows;
      assert forall f :: f in filters[1..] ==> f in filters;
      [filters[0] as Byte] + Filter(filters[0], rows[0], prior, n) + Scanlines(rows[1..], filters[1..], rows[0], w, n)
  }

  /** One scanline in front of others. */
  lemma RowsStep(filter: Byte, data: seq<Byte>, rest: seq<Byte>, prior: seq<Byte>, w: nat, n: nat, y: nat)
    requires filter <= 4 && n >= 1 && |data| == |prior| == w
    requires |rest| >= Size(w, y) && FiltersOk(rest, w, y)
    ensures var raw := [filter] + data + rest;
            var row := Recon(filter, data, prior, n, w);
            && |raw| >= Size(w, y + 1) && FiltersOk(raw, w, y + 1)
            && Rows(raw, prior, w, n, y + 1) == [row] + Rows(rest, row, w, n, y)
  {
    hide Recon;
    var raw := [filter] + data + rest;
    assert raw[0] == filter && raw[1..w + 1] == data && raw[w + 1..] == rest;
  }

  lemma NoRows(raw: seq<Byte>, prior: seq<Byte>, w: nat, n: nat)
    requires n >= 1 && |prior| == w
    ensures |raw| >= Size(w, 0) && FiltersOk(raw, w, 0) && Rows(raw, prior, w, n, 0) == []
  {
  }

  /** For every image and every choice of filters, unfiltering gives the image back. */
  lemma {:induction false} UnfilterUndoesFilter(rows: seq<seq<Byte>>, filters: seq<nat>, prior: seq<Byte>, w: nat,
                                                n: nat)
    requires n >= 1 && |rows| == |filters| && |prior| == w
    requires forall r :: r in rows ==> |r| == w
    requires forall f :: f in filters ==> f <= 4
    ensures var raw := Scanlines(rows, filters, prior, w, n);
            && |raw| == Size(w, |rows|)
            && FiltersOk(raw, w, |rows|)
            && Rows(raw, prior, w, n, |rows|) == rows
    decreases |rows|
  {
    hide Predict, Recon, Filter, Rows, FiltersOk;
    if rows == [] {
      NoRows([], prior, w, n);
    } else {
      assert rows[0] in rows && filters[0] in filters;
      assert forall r :: r in rows[1..] ==> r in rows;
      assert forall f :: f in filters[1..] ==> f in filters;
      UnfilterUndoesFilter(rows[1..], filters[1..], rows[0], w, n);
      RowsStep(filters[0], Filter(filters[0], rows[0], prior, n), Scanlines(rows[1..], filters[1..], rows[0], w, n),
               prior, w, n, |rows| - 1);
      ReconUndoesFilter(filters[0], rows[0], prior, n, w);
      assert rows[0][..w] == rows[0];
      assert rows == [rows[0]] + rows[1..];
    }
  }

  // ----- The source's per-byte switches, with the synthetic filters of the first row -----

  /** `first_row_filter`: 5 and 6 are the average and Paeth filters without a row above. */
  function FirstRowFilter(filter: nat): nat
    requires filter <= 4
  {
    match filter
    case 0 => 0
    case 1 => 1
    case 2 => 0
    case 3 => 5
    case _ => 6
  }

  /** The switch for the first pixel of a row. */
  function FirstPixelByte(filter: nat, raw: Byte, prior: Byte): Byte {
    match filter
    case 2 => ToByte(raw + prior)
    case 3 => ToByte(raw + prior / 2)
    case 4 => ToByte(raw + Paeth(0, prior, 0))
    case _ => raw
  }

  /** The switch for the rest of the row. */
  function LaterByte(filter: nat, raw: Byte, left: Byte, prior: Byte, priorLeft: Byte): Byte {
    match filter
    case 1 => ToByte(raw + left)
    case 2 => ToByte(raw + prior)
    case 3 => ToByte(raw + (prior + left) / 2)
    case 4 => ToByte(raw + Paeth(left, prior, priorLeft))
    case 5 => ToByte(raw + left / 2)
    case 6 => ToByte(raw + Paeth(left, 0, 0))
    case _ => raw
  }

  /** The filter code used on row `j`. */
  function RowFilter(filter: nat, firstRow: bool): nat
    requires filter <= 4
  {
    if firstRow then FirstRowFilter(filter) else filter
  }

  /** Both switches add the standard's predictor; on the first row as if the row above were zero. */
  lemma SwitchesPredict(filter: nat, firstRow: bool, raw: Byte, left: Byte, up: Byte, upLeft: Byte)
    requires filter <= 4 && (firstRow ==> up == 0 && upLeft == 0)
    ensures FirstPixelByte(RowFilter(filter, firstRow), raw, up) == ToByte(raw + Predict(filter, 0, up, 0))
    ensures LaterByte(RowFilter(filter, firstRow), raw, left, up, upLeft) ==
            ToByte(raw + Predict(filter, left, up, upLeft))
  {
  }

  // ----- The output layout -----

  function Opaque(e: nat): seq<Byte> {
    seq(e, _ => 255)
  }

  /** `x` blocks of `n` bytes. */
  function Times(x: nat, n: nat): nat {
    if x == 0 then 0 else Times(x - 1, n) + n
  }

  lemma {:induction false} TimesIsProduct(x: nat, n: nat)
    ensures Times(x, n) == x * n
  {
    if x > 0 {
      TimesIsProduct(x - 1, n);
    }
  }

  lemma {:induction false} TimesMonotone(i: nat, x: nat, n: nat)
    requires i <= x
    ensures Times(i, n) <= Times(x, n)
    ensures i < x ==> Times(i, n) + n <= Times(x, n)
    decreases x
  {
    if i < x {
      TimesMonotone(i, x - 1, n);
    }
  }

  /** The first `x` pixels of a row of `n`-byte pixels, `e` bytes of 255 behind each. */
  function Spread(row: seq<Byte>, n: nat, e: nat, x: nat): (r: seq<Byte>)
    requires |row| >= Times(x, n)
    ensures |r| == Times(x, n + e)
  {
    if x == 0 then []
    else
      Spread(row, n, e, x - 1) + row[Times(x - 1, n)..Times(x, n)] + Opaque(e)
  }

  /** Rows one below the other. */
  function Picture(rows: seq<seq<Byte>>, n: nat, e: nat, x: nat): (r: seq<Byte>)
    requires forall row :: row in rows ==> |row| == Times(x, n)
    ensures |r| == Times(|rows|, Times(x, n + e))
  {
    if rows == [] then []
    else
      var last := |rows| - 1;
      assert rows[last] in rows;
      assert forall row :: row in rows[..last] ==> row in rows;
      Picture(rows[..last], n, e, x) + Spread(rows[last], n, e, x)
  }

  lemma SubSlice(s: seq<Byte>, from: nat, end: nat, a: nat, b: nat)
    requires from <= end <= |s| && a <= b <= end - from
    ensures s[from..end][a..b] == s[from + a..from + b]
  {
    assert forall k :: 0 <= k < b - a ==> s[from..end][a..b][k] == s[from + a..from + b][k];
  }

  lemma SameFront(s: seq<Byte>, t: seq<Byte>, n: nat, a: nat, b: nat)
    requires n <= |s| && n <= |t| && s[..n] == t[..n] && a <= b <= n
    ensures s[a..b] == t[a..b]
  {
    assert s[0..n] == s[..n] == t[..n] == t[0..n];
    SubSlice(s, 0, n, a, b);
    SubSlice(t, 0, n, a, b);
  }

  lemma SameBack(s: seq<Byte>, t: seq<Byte>, n: nat, a: nat, b: nat)
    requires n <= a <= b <= |s| == |t| && s[n..] == t[n..]
    ensures s[a..b] == t[a..b]
  {
    assert s[n..|s|] == s[n..] == t[n..] == t[n..|t|];
    SubSlice(s, n, |s|, a - n, b - n);
    SubSlice(t, n, |t|, a - n, b - n);
  }

  lemma InFront(s: seq<Byte>, t: seq<Byte>, lo: nat, hi: nat)
    requires lo <= hi <= |s|
    ensures (s + t)[lo..hi] == s[lo..hi]
  {
  }

  lemma Behind(s: seq<Byte>, t: seq<Byte>, lo: nat, hi: nat)
    requires lo <= hi <= |t|
    ensures (s + t)[|s| + lo..|s| + hi] == t[lo..hi]
  {
  }

  lemma SpreadUnfolds(row: seq<Byte>, n: nat, e: nat, x: nat)
    requires x > 0 && |row| >= Times(x, n)
    ensures Times(x, n) == Times(x - 1, n) + n && Times(x, n + e) == Times(x - 1, n + e) + n + e
    ensures Spread(row, n, e, x) == Spread(row, n, e, x - 1) + (row[Times(x - 1, n)..Times(x, n)] + Opaque(e))
  {
  }

  /** Every pixel keeps its bytes and is followed by 255s. */
  lemma {:induction false} SpreadAt(row: seq<Byte>, n: nat, e: nat, x: nat, i: nat)
    requires |row| >= Times(x, n) && i < x
    ensures Times(i, n) + n <= Times(x, n) && Times(i, n + e) + n + e <= Times(x, n + e)
    ensures Spread(row, n, e, x)[Times(i, n + e)..Times(i, n + e) + n] == row[Times(i, n)..Times(i, n) + n]
    ensures Spread(row, n, e, x)[Times(i, n + e) + n..Times(i, n + e) + n + e] == Opaque(e)
    decreases x
  {
    hide Spread, Times, Opaque;
    SpreadUnfolds(row, n, e, x);
    var at, before, pixel := Times(i, n + e), Spread(row, n, e, x - 1), row[Times(x - 1, n)..Times(x, n)];
    if i < x - 1 {
      SpreadAt(row, n, e, x - 1, i);
      InFront(before, pixel + Opaque(e), at, at + n);
      InFront(before, pixel + Opaque(e), at + n, at + n + e);
    } else {
      Behind(before, pixel + Opaque(e), 0, n);
      Behind(before, pixel + Opaque(e), n, n + e);
    }
  }

  /** Without added bytes the row is unchanged. */
  lemma {:induction false} SpreadPlain(row: seq<Byte>, n: nat, x: nat)
    requires |row| >= Times(x, n)
    ensures Spread(row, n, 0, x) == row[..Times(x, n)]
  {
    if x > 0 {
      SpreadPlain(row, n, x - 1);
    }
  }

  lemma PictureAppend(rows: seq<seq<Byte>>, row: seq<Byte>, n: nat, e: nat, x: nat)
    requires |row| == Times(x, n) && forall r :: r in rows ==> |r| == Times(x, n)
    ensures Picture(rows + [row], n, e, x) == Picture(rows, n, e, x) + Spread(row, n, e, x)
    ensures Times(|rows| + 1, Times(x, n + e)) == Times(|rows|, Times(x, n + e)) + Times(x, n + e)
  {
    hide Spread;
    assert (rows + [row])[..|rows|] == rows;
  }

  /** Row `j` of the picture. */
  lemma {:induction false} PictureRow(rows: seq<seq<Byte>>, n: nat, e: nat, x: nat, j: nat)
    requires j < |rows| && forall row :: row in rows ==> |row| == Times(x, n)
    ensures var w := Times(x, n + e);
            && |rows[j]| == Times(x, n)
            && Times(j, w) + w <= Times(|rows|, w)
            && Picture(rows, n, e, x)[Times(j, w)..Times(j, w) + w] == Spread(rows[j], n, e, x)
    decreases |rows|
  {
    hide Spread, Times, Picture;
    var last, w := |rows| - 1, Times(x, n + e);
    var front, row := rows[..last], rows[last];
    assert rows == front + [row];
    PictureAppend(front, row, n, e, x);
    var before := Picture(front, n, e, x);
    if j < last {
      PictureRow(front, n, e, x, j);
      InFront(before, Spread(row, n, e, x), Times(j, w), Times(j, w) + w);
    } else {
      Behind(before, Spread(row, n, e, x), 0, w);
    }
  }
}
