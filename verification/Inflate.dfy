/** `stbi__parse_huffman_block` and `stbi__zexpand` of external/stb/stb_image.h: a block decoded into a growing
    buffer is the LZ77 expansion (section 3.2.3 of RFC 1951) of the tokens its bits spell. */
module Inflate {
  import opened Words
  import opened Bits
  import C = CanonicalCode
  import opened ZHuffman
  import opened ZStream
  import T = ZTail

  const LENGTH_BASE: seq<nat> :=
    [3, 4, 5, 6, 7, 8, 9, 10, 11, 13, 15, 17, 19, 23, 27, 31, 35, 43, 51, 59, 67, 83, 99, 115, 131, 163, 195, 227,
     258, 0, 0]
  const LENGTH_EXTRA: seq<nat> :=
    [0, 0, 0, 0, 0, 0, 0, 0, 1, 1, 1, 1, 2, 2, 2, 2, 3, 3, 3, 3, 4, 4, 4, 4, 5, 5, 5, 5, 0, 0, 0]
  const DIST_BASE: seq<nat> :=
    [1, 2, 3, 4, 5, 7, 9, 13, 17, 25, 33, 49, 65, 97, 129, 193, 257, 385, 513, 769, 1025, 1537, 2049, 3073, 4097,
     6145, 8193, 12289, 16385, 24577, 0, 0]
  const DIST_EXTRA: seq<nat> :=
    [0, 0, 0, 0, 1, 1, 2, 2, 3, 3, 4, 4, 5, 5, 6, 6, 7, 7, 8, 8, 9, 9, 10, 10, 11, 11, 12, 12, 13, 13, 0, 0]

  lemma TableBounds()
    ensures |LENGTH_BASE| == |LENGTH_EXTRA| == 31 && |DIST_BASE| == |DIST_EXTRA| == 32
    ensures forall i :: 0 <= i < 31 ==> LENGTH_EXTRA[i] <= 5 && LENGTH_BASE[i] <= 258
    ensures forall i :: 0 <= i < 32 ==> DIST_EXTRA[i] <= 13
    ensures forall i :: 0 <= i < 30 ==> DIST_BASE[i] >= 1
  {
    LengthBounds();
    DistBounds();
    hide LENGTH_BASE, LENGTH_EXTRA, DIST_BASE, DIST_EXTRA;
  }

  lemma LengthBounds()
    ensures |LENGTH_BASE| == |LENGTH_EXTRA| == 31
    ensures forall i :: 0 <= i < 31 ==> LENGTH_EXTRA[i] <= 5 && LENGTH_BASE[i] <= 258
  {
    hide DIST_BASE, DIST_EXTRA;
  }

  lemma DistBounds()
    ensures |DIST_BASE| == |DIST_EXTRA| == 32
    ensures forall i :: 0 <= i < 32 ==> DIST_EXTRA[i] <= 13
    ensures forall i :: 0 <= i < 30 ==> DIST_BASE[i] >= 1
  {
    hide LENGTH_BASE, LENGTH_EXTRA;
  }

  // ----- Tokens and their expansion -----

  /** A literal byte, or a length/distance pair with the symbols and extra bits that spell it. */
  datatype Token = Literal(byte: Byte) | Match(lsym: nat, lextra: nat, dsym: nat, dextra: nat)

  ghost predicate WellFormed(t: Token) {
    t.Match? ==> 257 <= t.lsym < 288 && t.dsym < 32
  }

  ghost function Length(t: Token): nat
    requires WellFormed(t) && t.Match?
  {
    TableBounds();
    LENGTH_BASE[t.lsym - 257] + t.lextra
  }

  ghost function Distance(t: Token): nat
    requires WellFormed(t) && t.Match?
  {
    TableBounds();
    DIST_BASE[t.dsym] + t.dextra
  }

  /** `len` bytes copied from `dist` back, one by one: the copy may read what it wrote. */
  ghost function Copy(out: seq<Byte>, len: nat, dist: nat): (r: seq<Byte>)
    requires 1 <= dist <= |out|
    ensures |r| == |out| + len
    decreases len
  {
    if len == 0 then out else Copy(out + [out[|out| - dist]], len - 1, dist)
  }

  /** The copy made position by position. */
  lemma {:induction false} CopyAt(out: seq<Byte>, len: nat, dist: nat, k: nat)
    requires 1 <= dist <= |out| && k < |out| + len
    ensures Copy(out, len, dist)[k] == if k < |out| then out[k] else Copy(out, len, dist)[k - dist]
    decreases len
  {
    if len > 0 {
      var next := out + [out[|out| - dist]];
      CopyAt(next, len - 1, dist, k);
      if k == |out| {
        CopyAt(next, len - 1, dist, k - dist);
      }
    }
  }

  /** Positions determine the copy. */
  lemma {:induction false} CopyDetermined(out: seq<Byte>, len: nat, dist: nat, r: seq<Byte>)
    requires 1 <= dist <= |out| && |r| == |out| + len && r[..|out|] == out
    requires forall k :: |out| <= k < |r| ==> r[k] == r[k - dist]
    ensures r == Copy(out, len, dist)
    decreases len
  {
    if len > 0 {
      var next := out + [out[|out| - dist]];
      assert r[|out|] == r[|out| - dist] == out[|out| - dist];
      assert r[..|next|] == next;
      CopyDetermined(next, len - 1, dist, r);
    } else {
      assert r == r[..|out|];
    }
  }

  /** A run of one byte is the copy at distance one. */
  lemma RunIsCopy(out: seq<Byte>, len: nat, r: seq<Byte>)
    requires 1 <= |out| && |r| == |out| + len && r[..|out|] == out
    requires forall k :: |out| <= k < |r| ==> r[k] == out[|out| - 1]
    ensures r == Copy(out, len, 1)
  {
    forall k | |out| <= k < |r|
      ensures r[k] == r[k - 1]
    {
      assert k == |out| ==> r[k - 1] == r[..|out|][k - 1];
    }
    CopyDetermined(out, len, 1, r);
  }

  /** A match never reaches back past the start of the output. */
  ghost predicate Expandable(out: seq<Byte>, ts: seq<Token>)
    decreases |ts|, 0
  {
    ts == [] ||
    var init, t := ts[..|ts| - 1], ts[|ts| - 1];
    && Expandable(out, init)
    && WellFormed(t)
    && (t.Match? ==> 1 <= Distance(t) <= |Expand(out, init)|)
  }

  /** The LZ77 meaning of a token sequence. */
  ghost function Expand(out: seq<Byte>, ts: seq<Token>): seq<Byte>
    requires Expandable(out, ts)
    decreases |ts|, 1
  {
    if ts == [] then out
    else
      var done := Expand(out, ts[..|ts| - 1]);
      match ts[|ts| - 1]
      case Literal(b) => done + [b]
      case Match(_, _, _, _) => Copy(done, Length(ts[|ts| - 1]), Distance(ts[|ts| - 1]))
  }

  // ----- The bits of a token -----

  ghost predicate Codes(ll: seq<nat>, ld: seq<nat>) {
    C.Lengths(ll) && C.Lengths(ld) && |ld| <= 32
  }

  /** The stream begins with the token: its symbols' codes and its extra bits, in order. */
  ghost predicate Begins(ll: seq<nat>, ld: seq<nat>, w: nat, t: Token)
    requires Codes(ll, ld)
  {
    WellFormed(t) &&
    match t
    case Literal(b) => C.Matches(ll, b, w)
    case Match(ls, le, ds, de) =>
      && C.Matches(ll, ls, w)
      && (TableBounds(); le == Get(ShiftRight(w, ll[ls]), 0, LENGTH_EXTRA[ls - 257]))
      && C.Matches(ld, ds, DistanceAt(ll, w, ls))
      && de == Get(ShiftRight(DistanceAt(ll, w, ls), ld[ds]), 0, DIST_EXTRA[ds])
  }

  /** Where the distance code starts. */
  ghost function DistanceAt(ll: seq<nat>, w: nat, ls: nat): nat
    requires 257 <= ls < 288 && ls < |ll|
  {
    TableBounds();
    ShiftRight(ShiftRight(w, ll[ls]), LENGTH_EXTRA[ls - 257])
  }

  /** The stream after the token. */
  ghost function Rest(ll: seq<nat>, ld: seq<nat>, w: nat, t: Token): nat
    requires Codes(ll, ld) && Begins(ll, ld, w, t)
  {
    match t
    case Literal(b) => ShiftRight(w, ll[b])
    case Match(ls, _, ds, _) => ShiftRight(ShiftRight(DistanceAt(ll, w, ls), ld[ds]), DIST_EXTRA[ds])
  }

  ghost predicate Reads(ll: seq<nat>, ld: seq<nat>, w: nat, ts: seq<Token>)
    requires Codes(ll, ld)
    decreases |ts|, 0
  {
    ts == [] || (Reads(ll, ld, w, ts[..|ts| - 1]) && Begins(ll, ld, After(ll, ld, w, ts[..|ts| - 1]), ts[|ts| - 1]))
  }

  ghost function After(ll: seq<nat>, ld: seq<nat>, w: nat, ts: seq<Token>): nat
    requires Codes(ll, ld) && Reads(ll, ld, w, ts)
    decreases |ts|, 1
  {
    if ts == [] then w else Rest(ll, ld, After(ll, ld, w, ts[..|ts| - 1]), ts[|ts| - 1])
  }

  lemma BeginsOneWay(ll: seq<nat>, ld: seq<nat>, w: nat, t: Token, u: Token)
    requires Codes(ll, ld) && Begins(ll, ld, w, t) && Begins(ll, ld, w, u)
    ensures t == u
  {
    hide ShiftRight, Get;
    C.MatchUnique(ll, if t.Literal? then t.byte else t.lsym, if u.Literal? then u.byte else u.lsym, w);
    if t.Match? {
      C.MatchUnique(ld, t.dsym, u.dsym, DistanceAt(ll, w, t.lsym));
    }
  }

  /** The bits determine the tokens. */
  lemma {:induction false} TokensOneWay(ll: seq<nat>, ld: seq<nat>, w: nat, ts: seq<Token>, us: seq<Token>)
    requires Codes(ll, ld) && Reads(ll, ld, w, ts) && Reads(ll, ld, w, us) && |ts| == |us|
    ensures ts == us
    decreases |ts|
  {
    hide Begins, Rest;
    if ts != [] {
      var n := |ts| - 1;
      TokensOneWay(ll, ld, w, ts[..n], us[..n]);
      BeginsOneWay(ll, ld, After(ll, ld, w, ts[..n]), ts[n], us[n]);
      assert ts == ts[..n] + [ts[n]] && us == us[..n] + [us[n]];
    }
  }

  // ----- The output buffer -----

  const UINT_MAX: nat := 0xFFFF_FFFF

  class OutBuf {
    var data: array<Byte>
    var len: nat
    const expandable: bool

    constructor (capacity: nat, expandable: bool)
      ensures Valid() && Contents() == [] && data.Length == capacity && fresh(data) && this.expandable == expandable
    {
      data := new Byte[capacity];
      len := 0;
      this.expandable := expandable;
    }

    ghost predicate Valid()
      reads this
    {
      len <= data.Length
    }

    ghost function Contents(): seq<Byte>
      requires Valid()
      reads this, data
    {
      data[..len]
    }

    /** `stbi__zexpand`: room for `n` more bytes, or failure; what was written stays. A zero limit would never
        grow (`ZeroNeverGrows`). */
    method Reserve(n: nat) returns (ok: bool)
      requires Valid() && 0 < data.Length <= UINT_MAX
      modifies this`data
      ensures Valid() && Contents() == old(Contents()) && 0 < data.Length <= UINT_MAX
      ensures data != old(data) ==> fresh(data)
      ensures ok ==> len + n <= data.Length && expandable
      ensures !ok ==> data == old(data)
      ensures !ok <==> !expandable || len + n > UINT_MAX || Doubled(old(data.Length), len + n) > UINT_MAX
    {
      if !expandable {
        return false;
      }
      if UINT_MAX - len < n {
        return false;
      }
      var limit := data.Length;
      while len + n > limit
        invariant 0 < limit <= UINT_MAX
        invariant Doubled(limit, len + n) == Doubled(data.Length, len + n)
        decreases len + n - limit
      {
        if limit > UINT_MAX / 2 {
          DoubledGrows(2 * limit, len + n);
          return false;
        }
        limit := limit * 2;
      }
      var grown := new Byte[limit];
      forall i | 0 <= i < len {
        grown[i] := data[i];
      }
      assert grown[..len] == data[..len];
      data := grown;
      return true;
    }

    method Append(b: Byte)
      requires Valid() && len < data.Length
      modifies this`len, data
      ensures Valid() && Contents() == old(Contents()) + [b]
    {
      data[len] := b;
      len := len + 1;
      assert data[..len] == old(data[..len]) + [b];
    }

    /** The two copy loops of a match. Distance zero (only symbols 30 and 31 spell it) copies cells onto
        themselves, whatever they hold. */
    method CopyMatch(n: nat, dist: nat)
      requires Valid() && dist <= len && len + n <= data.Length
      modifies this`len, data
      ensures Valid() && len == old(len) + n
      ensures dist >= 1 ==> Contents() == Copy(old(Contents()), n, dist)
    {
      ghost var out := Contents();
      var start := len;
      if dist == 1 {
        var v := data[len - 1];
        while len < start + n
          invariant start <= len <= start + n
          invariant data[..start] == out
          invariant forall k :: start <= k < len ==> data[k] == v
        {
          data[len] := v;
          len := len + 1;
        }
        assert v == out[|out| - 1];
        RunIsCopy(out, n, data[..len]);
      } else {
        var p := len - dist;
        while len < start + n
          invariant start <= len <= start + n && p == len - dist
          invariant data[..start] == out
          invariant forall k :: start <= k < len ==> data[k] == data[k - dist]
        {
          data[len] := data[p];
          p := p + 1;
          len := len + 1;
        }
        assert data[..len][..start] == out;
        if dist >= 1 {
          CopyDetermined(out, n, dist, data[..len]);
        }
      }
    }
  }

  /** The limit after doubling until it is enough. */
  ghost function Doubled(limit: nat, need: nat): (r: nat)
    requires limit > 0
    ensures r >= need && r >= limit
    decreases need - limit
  {
    if need <= limit then limit else Doubled(2 * limit, need)
  }

  /** The limit after `n` rounds of doubling. */
  ghost function DoublingRounds(limit: nat, n: nat): nat {
    if n == 0 then limit else 2 * DoublingRounds(limit, n - 1)
  }

  /** A zero limit stays zero: the loop would ask for room for ever. */
  lemma {:induction false} ZeroNeverGrows(n: nat, need: nat)
    requires need > 0
    ensures DoublingRounds(0, n) == 0 < need && DoublingRounds(0, n) <= UINT_MAX / 2
  {
    if n > 0 {
      ZeroNeverGrows(n - 1, need);
    }
  }

  lemma DoubledGrows(limit: nat, need: nat)
    requires limit > UINT_MAX
    ensures Doubled(limit, need) > UINT_MAX
  {
  }

  // ----- The block loop -----

  /** Tokens decoded so far: the stream began with them, and unless one of them had distance zero the output is
      their expansion. */
  ghost predicate Decoded(ll: seq<nat>, ld: seq<nat>, w: nat, start: seq<Byte>, ts: seq<Token>, out: seq<Byte>)
    requires Codes(ll, ld)
  {
    && Reads(ll, ld, w, ts)
    && ((forall t :: t in ts ==> WellFormed(t) && (t.Match? ==> Distance(t) >= 1)) ==>
          Expandable(start, ts) && out == Expand(start, ts))
  }

  /** The same, and `rest` is what is left of the stream. */
  ghost predicate DecodedTo(ll: seq<nat>, ld: seq<nat>, w: nat, start: seq<Byte>, ts: seq<Token>, out: seq<Byte>,
                            rest: nat)
    requires Codes(ll, ld)
  {
    Decoded(ll, ld, w, start, ts, out) && rest == After(ll, ld, w, ts)
  }

  lemma DecodedLiteral(ll: seq<nat>, ld: seq<nat>, w: nat, start: seq<Byte>, ts: seq<Token>, out: seq<Byte>, b: Byte)
    requires Codes(ll, ld) && Decoded(ll, ld, w, start, ts, out) && Begins(ll, ld, After(ll, ld, w, ts), Literal(b))
    ensures Decoded(ll, ld, w, start, ts + [Literal(b)], out + [b])
    ensures After(ll, ld, w, ts + [Literal(b)]) == Rest(ll, ld, After(ll, ld, w, ts), Literal(b))
  {
    hide Begins, Rest;
    var all := ts + [Literal(b)];
    assert all[..|all| - 1] == ts;
    assert forall t :: t in ts ==> t in all;
  }

  lemma DecodedMatch(ll: seq<nat>, ld: seq<nat>, w: nat, start: seq<Byte>, ts: seq<Token>, out: seq<Byte>, t: Token,
                     out': seq<Byte>)
    requires Codes(ll, ld) && Decoded(ll, ld, w, start, ts, out) && t.Match? && Begins(ll, ld, After(ll, ld, w, ts), t)
    requires Distance(t) <= |out|
    requires Distance(t) >= 1 ==> out' == Copy(out, Length(t), Distance(t))
    ensures Decoded(ll, ld, w, start, ts + [t], out')
    ensures After(ll, ld, w, ts + [t]) == Rest(ll, ld, After(ll, ld, w, ts), t)
  {
    hide Rest, Length, Distance, Copy;
    var all := ts + [t];
    assert all[..|all| - 1] == ts;
    assert forall u :: u in ts ==> u in all;
    assert t in all;
  }

  lemma DecodedToken(ll: seq<nat>, ld: seq<nat>, w: nat, start: seq<Byte>, ts: seq<Token>, out: seq<Byte>, rest: nat,
                     t: Token, out': seq<Byte>)
    requires Codes(ll, ld) && DecodedTo(ll, ld, w, start, ts, out, rest) && Begins(ll, ld, rest, t)
    requires Written(out, t, out')
    ensures DecodedTo(ll, ld, w, start, ts + [t], out', Rest(ll, ld, rest, t))
  {
    hide Begins, Rest, Length, Distance, Copy, Reads, After, Expand, Expandable;
    match t
    case Literal(b) => DecodedLiteral(ll, ld, w, start, ts, out, b);
    case Match(_, _, _, _) => DecodedMatch(ll, ld, w, start, ts, out, t, out');
  }

  /** Base value plus extra bits, when there are any. */
  method ReadExtra(z: ZBuf, base: nat, extra: nat) returns (n: nat)
    requires z.Valid() && extra <= 13
    modifies z
    ensures z.Valid() && n == base + Get(old(z.Stream()), 0, extra) && z.Stream() == ShiftRight(old(z.Stream()), extra)
    ensures z.Avail() >= old(z.Avail()) - extra && z.numBits == Topped(old(z.numBits), extra) - extra
    ensures z.pos >= old(z.pos) && (z.pos == old(z.pos) < |z.input| ==> z.numBits == old(z.numBits) - extra)
  {
    hide LittleEndian, ShiftLeft, Pow2;
    n := base;
    if extra != 0 {
      var k := z.Receive(extra);
      n := n + k;
    }
  }

  lemma MatchBegins(ll: seq<nat>, ld: seq<nat>, w: nat, ls: nat, ds: nat) returns (t: Token)
    requires Codes(ll, ld) && 257 <= ls < 288 && C.Matches(ll, ls, w) && C.Matches(ld, ds, DistanceAt(ll, w, ls))
    ensures t.Match? && t.lsym == ls && t.dsym == ds && Begins(ll, ld, w, t)
    ensures |LENGTH_BASE| == |LENGTH_EXTRA| == 31 && |DIST_BASE| == |DIST_EXTRA| == 32
    ensures Length(t) == LENGTH_BASE[ls - 257] + Get(ShiftRight(w, ll[ls]), 0, LENGTH_EXTRA[ls - 257])
    ensures Distance(t) == DIST_BASE[ds] + Get(ShiftRight(DistanceAt(ll, w, ls), ld[ds]), 0, DIST_EXTRA[ds])
    ensures Rest(ll, ld, w, t) == ShiftRight(ShiftRight(DistanceAt(ll, w, ls), ld[ds]), DIST_EXTRA[ds])
    ensures TokenBits(ll, ld, t) == ll[ls] + LENGTH_EXTRA[ls - 257] + ld[ds] + DIST_EXTRA[ds]
  {
    TableBounds();
    hide LENGTH_BASE, LENGTH_EXTRA, DIST_BASE, DIST_EXTRA, Get, ShiftRight, DistanceAt;
    t := Match(ls, Get(ShiftRight(w, ll[ls]), 0, LENGTH_EXTRA[ls - 257]),
               ds, Get(ShiftRight(DistanceAt(ll, w, ls), ld[ds]), 0, DIST_EXTRA[ds]));
  }

  /** Bits a token takes. */
  ghost function TokenBits(ll: seq<nat>, ld: seq<nat>, t: Token): nat {
    TableBounds();
    match t
    case Literal(b) => if b < |ll| then ll[b] else 0
    case Match(ls, _, ds, _) =>
      if 257 <= ls < 288 && ls < |ll| && ds < 32 && ds < |ld|
      then ll[ls] + LENGTH_EXTRA[ls - 257] + ld[ds] + DIST_EXTRA[ds]
      else 0
  }

  ghost function TotalBits(ll: seq<nat>, ld: seq<nat>, ts: seq<Token>): nat {
    if ts == [] then 0 else TotalBits(ll, ld, ts[..|ts| - 1]) + TokenBits(ll, ld, ts[|ts| - 1])
  }

  lemma TotalBitsNext(ll: seq<nat>, ld: seq<nat>, ts: seq<Token>, t: Token)
    ensures TotalBits(ll, ld, ts + [t]) == TotalBits(ll, ld, ts) + TokenBits(ll, ld, t)
  {
    assert (ts + [t])[..|ts|] == ts;
  }

  /** The bit counts before and after a distance, at the end of the input. */
  ghost predicate DistanceCount(ld: seq<nat>, d: nat, x: nat, x': nat) {
    TableBounds();
    d < 32 && d < |ld| && ld[d] <= x && x' == Topped(x - ld[d], DIST_EXTRA[d]) - DIST_EXTRA[d]
  }

  ghost function ExtraOf(ls: nat): nat {
    TableBounds();
    if 257 <= ls < 288 then LENGTH_EXTRA[ls - 257] else 0
  }

  lemma LongSymbols(lsym: nat)
    requires 286 <= lsym < 288
    ensures |LENGTH_EXTRA| == |LENGTH_BASE| == 31 && LENGTH_EXTRA[lsym - 257] == 0 && LENGTH_BASE[lsym - 257] == 0
  {
  }

  /** The distance symbol and its extra bits. */
  method ReadDistance(z: ZBuf, hd: Tables, ghost ld: seq<nat>) returns (ok: bool, d: nat, dist: nat)
    requires z.Valid() && C.Lengths(ld) && |ld| <= 32 && hd.Describe(ld)
    modifies z
    ensures z.Valid() && z.pos >= old(z.pos)
    ensures |DIST_BASE| == |DIST_EXTRA| == 32
    ensures ok ==> d < |ld| && C.Matches(ld, d, old(z.Stream()))
    ensures ok ==> dist == DIST_BASE[d] + Get(ShiftRight(old(z.Stream()), ld[d]), 0, DIST_EXTRA[d])
    ensures ok ==> z.Stream() == ShiftRight(ShiftRight(old(z.Stream()), ld[d]), DIST_EXTRA[d])
    ensures ok ==> z.Avail() >= old(z.Avail()) - ld[d] - DIST_EXTRA[d]
    ensures ok && z.pos == old(z.pos) < |z.input| ==> z.numBits == old(z.numBits) - ld[d] - DIST_EXTRA[d]
    ensures !ok && z.Halt() == Some(old(z.Stream())) ==>
              old(z.Avail()) < 16 || forall d: nat :: !C.Matches(ld, d, old(z.Stream()))
    ensures !ok && z.Halt() != Some(old(z.Stream())) ==> forall d: nat :: !C.Matches(ld, d, old(z.Stream()))
    ensures old(z.pos) == |z.input| ==>
              (ok <==> old(z.numBits) >= 16 && exists d: nat :: C.Matches(ld, d, old(z.Stream())))
    ensures ok && old(z.pos) == |z.input| ==> DistanceCount(ld, d, old(z.numBits), z.numBits)
  {
    TableBounds();
    hide DIST_BASE, DIST_EXTRA, C.Matches, C.Accepted, Get, ShiftRight, LittleEndian, ShiftLeft,
         Pow2, Filled, Tables.Describe;
    ghost var w := z.Stream();
    d, dist := 0, 0;
    var sym := z.Decode(hd, ld);
    ok := sym != -1;
    if ok {
      MatchInRange(ld, sym, w);
      d := sym;
      dist := ReadExtra(z, DIST_BASE[d], DIST_EXTRA[d]);
    }
  }

  /** The rest of a match after its length symbol. */
  method ReadMatch(z: ZBuf, hd: Tables, ghost ll: seq<nat>, ghost ld: seq<nat>, lsym: nat, ghost w: nat)
      returns (ok: bool, len: nat, dist: nat, ghost t: Token)
    requires z.Valid() && Codes(ll, ld) && hd.Describe(ld)
    requires 257 <= lsym < 288 && C.Matches(ll, lsym, w) && z.Stream() == ShiftRight(w, ll[lsym])
    modifies z
    ensures z.Valid() && z.pos >= old(z.pos)
    ensures ok ==> t.Match? && t.lsym == lsym && Begins(ll, ld, w, t) && z.Stream() == Rest(ll, ld, w, t)
    ensures ok ==> len == Length(t) && dist == Distance(t)
    ensures ok ==> z.Avail() >= old(z.Avail()) + ll[lsym] - TokenBits(ll, ld, t)
    ensures !ok && z.Halt() == Some(DistanceAt(ll, w, lsym)) ==>
              old(z.Avail()) < 16 + ExtraOf(lsym) || forall d: nat :: !C.Matches(ld, d, DistanceAt(ll, w, lsym))
    ensures !ok && z.Halt() != Some(DistanceAt(ll, w, lsym)) ==>
              forall d: nat :: !C.Matches(ld, d, DistanceAt(ll, w, lsym))
    ensures ok && z.pos == old(z.pos) < |z.input| ==> z.numBits < old(z.numBits)
    ensures lsym >= 286 && old(z.pos) == |z.input| ==>
              (ok <==> old(z.numBits) >= 16 && exists d: nat :: C.Matches(ld, d, old(z.Stream())))
    ensures ok && lsym >= 286 && old(z.pos) == |z.input| ==> DistanceCount(ld, t.dsym, old(z.numBits), z.numBits)
  {
    TableBounds();
    if lsym >= 286 {
      LongSymbols(lsym);
    }
    MatchInRange(ll, lsym, w);
    hide LENGTH_BASE, LENGTH_EXTRA, DIST_BASE, DIST_EXTRA, Get, ShiftRight, Begins, Rest, Length, Distance,
         TokenBits, LittleEndian, ShiftLeft, Pow2, Filled, Tables.Describe, DistanceCount, C.CodeOf, C.Prefix;
    len := ReadExtra(z, LENGTH_BASE[lsym - 257], LENGTH_EXTRA[lsym - 257]);
    ghost var w2 := z.Stream();
    assert w2 == DistanceAt(ll, w, lsym);
    if lsym >= 286 {
      NoExtra(old(z.Stream()));
    }
    t := Literal(0);
    var d;
    ok, d, dist := ReadDistance(z, hd, ld);
    if ok {
      t := MatchBegins(ll, ld, w, lsym, d);
    }
  }

  lemma NoExtra(w: nat)
    ensures ShiftRight(w, 0) == w
  {
  }

  lemma MatchInRange(lens: seq<nat>, i: nat, w: nat)
    requires C.Matches(lens, i, w)
    ensures i < |lens| && lens[i] > 0
  {
  }

  ghost predicate Ready(z: ZBuf, hl: Tables, hd: Tables, ll: seq<nat>, ld: seq<nat>, out: OutBuf)
    reads z, out, hl.fast, hl.firstcode, hl.maxcode, hl.firstsymbol, hl.size, hl.value,
          hd.fast, hd.firstcode, hd.maxcode, hd.firstsymbol, hd.size, hd.value
  {
    && z.Valid() && Codes(ll, ld) && hl.Describe(ll) && hd.Describe(ld)
    && out.Valid() && 0 < out.data.Length <= UINT_MAX
    && out.data as object !in {hl.fast, hl.firstcode, hl.maxcode, hl.firstsymbol, hl.size, hl.value,
                               hd.fast, hd.firstcode, hd.maxcode, hd.firstsymbol, hd.size, hd.value}
  }

  /** `n` more bytes neither fit nor can be made to fit. */
  ghost predicate NoRoom(capacity: nat, expandable: bool, len: nat, n: nat)
    requires capacity > 0
  {
    len + n > capacity && (!expandable || len + n > UINT_MAX || Doubled(capacity, len + n) > UINT_MAX)
  }

  /** One literal: room is made when the buffer is full. */
  method PutLiteral(out: OutBuf, b: Byte) returns (ok: bool)
    requires out.Valid() && 0 < out.data.Length <= UINT_MAX
    modifies out, out.data
    ensures out.Valid() && 0 < out.data.Length <= UINT_MAX
    ensures out.data != old(out.data) ==> fresh(out.data)
    ensures out.Contents() == if ok then old(out.Contents()) + [b] else old(out.Contents())
    ensures out.len == old(out.len) + if ok then 1 else 0
    ensures !ok <==> NoRoom(old(out.data.Length), out.expandable, old(out.len), 1)
    ensures !ok ==> out.data == old(out.data)
  {
    ok := true;
    if out.len >= out.data.Length {
      ok := out.Reserve(1);
    }
    if ok {
      out.Append(b);
    }
  }

  /** One match: refused when it reaches back too far or no room can be made. */
  method PutMatch(out: OutBuf, len: nat, dist: nat) returns (ok: bool)
    requires out.Valid() && 0 < out.data.Length <= UINT_MAX
    modifies out, out.data
    ensures out.Valid() && 0 < out.data.Length <= UINT_MAX
    ensures out.data != old(out.data) ==> fresh(out.data)
    ensures ok ==> dist <= old(out.len)
    ensures !ok ==> out.Contents() == old(out.Contents())
    ensures ok && dist >= 1 ==> out.Contents() == Copy(old(out.Contents()), len, dist)
    ensures out.len == old(out.len) + if ok then len else 0
    ensures !ok <==> dist > old(out.len) || NoRoom(old(out.data.Length), out.expandable, old(out.len), len)
    ensures !ok ==> out.data == old(out.data)
  {
    hide Copy;
    ok := out.len >= dist;
    if ok && out.len + len > out.data.Length {
      ok := out.Reserve(len);
    }
    if ok {
      out.CopyMatch(len, dist);
    }
  }

  /** The input ended at the length symbol or at the distance symbol of the next token: the reader halts there, and
      fewer than sixteen bits were left for that symbol. */
  ghost predicate Starved(ll: seq<nat>, w: nat, halt: Option<nat>, avail: int) {
    || (halt == Some(w) && avail < 16)
    || exists ls: nat :: 257 <= ls < 288 && C.Matches(ll, ls, w)
                         && halt == Some(DistanceAt(ll, w, ls)) && avail < 16 + ll[ls] + ExtraOf(ls)
  }

  /** Why a block cannot go on: the input ended at a symbol, no code begins the stream, or the next token reaches back
      too far or has no room. */
  ghost predicate Blocked(ll: seq<nat>, ld: seq<nat>, w: nat, halt: Option<nat>, avail: int, len: nat, capacity: nat,
                          expandable: bool)
    requires Codes(ll, ld) && capacity > 0
  {
    || Starved(ll, w, halt, avail)
    || (!C.Matches(ll, 256, w) && forall t :: !Begins(ll, ld, w, t))
    || exists t :: Begins(ll, ld, w, t) && Refused(t, len, capacity, expandable)
  }

  ghost predicate Refused(t: Token, len: nat, capacity: nat, expandable: bool)
    requires capacity > 0
  {
    WellFormed(t) &&
    match t
    case Literal(_) => NoRoom(capacity, expandable, len, 1)
    case Match(_, _, _, _) => Distance(t) > len || NoRoom(capacity, expandable, len, Length(t))
  }

  lemma NoSymbol(ll: seq<nat>, ld: seq<nat>, w: nat)
    requires Codes(ll, ld) && forall i: nat :: !C.Matches(ll, i, w)
    ensures !C.Matches(ll, 256, w) && forall t :: !Begins(ll, ld, w, t)
  {
    hide C.Matches;
  }

  lemma NoDistance(ll: seq<nat>, ld: seq<nat>, w: nat, ls: nat)
    requires Codes(ll, ld) && 257 <= ls < 288 && C.Matches(ll, ls, w)
    requires forall d: nat :: !C.Matches(ld, d, DistanceAt(ll, w, ls))
    ensures !C.Matches(ll, 256, w) && forall t :: !Begins(ll, ld, w, t)
  {
    if C.Matches(ll, 256, w) {
      C.MatchUnique(ll, 256, ls, w);
    }
    forall t | Begins(ll, ld, w, t)
      ensures false
    {
      C.MatchUnique(ll, if t.Literal? then t.byte else t.lsym, ls, w);
    }
  }

  datatype Round = PutToken | EndOfBlock | Failed

  /** The output after one token; distance zero leaves it open. */
  ghost predicate Written(before: seq<Byte>, t: Token, out: seq<Byte>) {
    WellFormed(t) &&
    match t
    case Literal(b) => out == before + [b]
    case Match(_, _, _, _) =>
      Distance(t) <= |before| && (Distance(t) >= 1 ==> out == Copy(before, Length(t), Distance(t)))
  }

  lemma BlockedBySymbol(ll: seq<nat>, ld: seq<nat>, w: nat, halt: Option<nat>, avail: int, len: nat, capacity: nat,
                        expandable: bool)
    requires Codes(ll, ld) && capacity > 0
    requires (halt == Some(w) && avail < 16) || forall i: nat :: !C.Matches(ll, i, w)
    ensures Blocked(ll, ld, w, halt, avail, len, capacity, expandable)
  {
    hide C.Matches, Begins;
    if halt != Some(w) || avail >= 16 {
      NoSymbol(ll, ld, w);
    }
  }

  lemma BlockedByDistance(ll: seq<nat>, ld: seq<nat>, w: nat, ls: nat, halt: Option<nat>, avail: int, len: nat,
                          capacity: nat, expandable: bool)
    requires Codes(ll, ld) && capacity > 0 && 257 <= ls < 288 && C.Matches(ll, ls, w)
    requires (halt == Some(DistanceAt(ll, w, ls)) && avail < 16 + ll[ls] + ExtraOf(ls))
             || forall d: nat :: !C.Matches(ld, d, DistanceAt(ll, w, ls))
    ensures Blocked(ll, ld, w, halt, avail, len, capacity, expandable)
  {
    hide Begins, DistanceAt, ExtraOf;
    if halt != Some(DistanceAt(ll, w, ls)) || avail >= 16 + ll[ls] + ExtraOf(ls) {
      NoDistance(ll, ld, w, ls);
    }
  }

  // ----- Matches of length zero -----

  ghost function BaseOf(d: nat): nat {
    TableBounds();
    if d < 32 then DIST_BASE[d] else 0
  }

  lemma {:induction false} ZeroShifted(n: nat)
    ensures ShiftRight(0, n) == 0
  {
    if n > 0 {
      ZeroShifted(n - 1);
    }
  }

  lemma {:induction false} ShiftShrinks(w: nat, n: nat)
    ensures ShiftRight(w, n) <= w && (w > 0 && n > 0 ==> ShiftRight(w, n) < w)
    decreases n
  {
    if n > 0 {
      ShiftShrinks(w / 2, n - 1);
    }
  }

  /** Only the last two length symbols spell length zero. */
  lemma ZeroLength(t: Token)
    requires WellFormed(t) && t.Match?
    ensures t.lsym < 286 ==> Length(t) >= 3
    ensures t.lsym >= 286 ==> Length(t) == t.lextra
  {
    LengthsAtLeastThree();
    if t.lsym >= 286 {
      LongSymbols(t.lsym);
    }
    hide LENGTH_BASE;
  }

  lemma LengthsAtLeastThree()
    ensures |LENGTH_BASE| == 31 && forall i :: 0 <= i < 29 ==> LENGTH_BASE[i] >= 3
  {
    hide LENGTH_EXTRA, DIST_BASE, DIST_EXTRA;
  }

  lemma {:induction false} GetNothing(k: nat)
    ensures Get(0, 0, k) == 0
  {
    if k > 0 {
      GetNothing(k - 1);
    }
  }

  /** The token that begins the stream of zeros: its symbols have the zero codes, and its extra bits are zero. */
  lemma ZeroMatch(ll: seq<nat>, ld: seq<nat>, w: nat, t: Token)
    requires Codes(ll, ld) && Begins(ll, ld, w, t) && t.Match?
    ensures t.lsym >= 286 ==> Length(t) == 0
    ensures w == 0 ==> C.Matches(ll, t.lsym, 0) && C.Matches(ld, t.dsym, 0)
    ensures w == 0 ==> Distance(t) == BaseOf(t.dsym) && Rest(ll, ld, w, t) == 0
    ensures w > 0 ==> Rest(ll, ld, w, t) < w
  {
    TableBounds();
    ZeroLength(t);
    if t.lsym >= 286 {
      LongSymbols(t.lsym);
    }
    hide LENGTH_BASE, LENGTH_EXTRA, DIST_BASE, DIST_EXTRA, Get, ShiftRight, C.CodeOf, C.Prefix;
    var le, de := LENGTH_EXTRA[t.lsym - 257], DIST_EXTRA[t.dsym];
    var w1 := ShiftRight(w, ll[t.lsym]);
    var w2 := ShiftRight(w1, le);
    var w3 := ShiftRight(w2, ld[t.dsym]);
    GetZeroBits(w1);
    if w == 0 {
      ZeroShifted(ll[t.lsym]);
      ZeroShifted(le);
      ZeroShifted(ld[t.dsym]);
      ZeroShifted(de);
      GetNothing(de);
    } else {
      ShiftShrinks(w, ll[t.lsym]);
      ShiftShrinks(w1, le);
      ShiftShrinks(w2, ld[t.dsym]);
      ShiftShrinks(w3, de);
    }
  }

  lemma ZeroFits(capacity: nat, expandable: bool, len: nat)
    requires 0 < capacity && len <= capacity
    ensures !NoRoom(capacity, expandable, len, 0)
  {
  }

  lemma OneZeroCode(lens: seq<nat>, i: nat)
    requires C.Matches(lens, i, 0)
    ensures forall d: nat :: C.Matches(lens, d, 0) ==> d == i
  {
    hide C.Matches;
    forall d: nat | C.Matches(lens, d, 0)
      ensures d == i
    {
      C.MatchUnique(lens, d, i, 0);
    }
  }

  lemma GetZeroBits(w: nat)
    ensures Get(w, 0, 0) == 0
  {
  }

  /** One match token, from its length symbol on. */
  method ParseMatch(z: ZBuf, hd: Tables, ghost ll: seq<nat>, ghost ld: seq<nat>, lsym: nat, ghost w: nat, out: OutBuf)
      returns (ok: bool, ghost t: Token)
    requires z.Valid() && Codes(ll, ld) && hd.Describe(ld) && out.Valid() && 0 < out.data.Length <= UINT_MAX
    requires out.data as object !in {hd.fast, hd.firstcode, hd.maxcode, hd.firstsymbol, hd.size, hd.value}
    requires 257 <= lsym < 288 && C.Matches(ll, lsym, w) && z.Stream() == ShiftRight(w, ll[lsym])
    modifies z, out, out.data
    ensures z.Valid() && out.Valid() && 0 < out.data.Length <= UINT_MAX
    ensures (out.data != old(out.data) ==> fresh(out.data))
    ensures ok ==> Begins(ll, ld, w, t) && z.Stream() == Rest(ll, ld, w, t)
    ensures ok ==> Written(old(out.Contents()), t, out.Contents())
    ensures ok ==> z.Avail() >= old(z.Avail()) + ll[lsym] - TokenBits(ll, ld, t)
    ensures !ok ==> out.Contents() == old(out.Contents())
    ensures !ok ==>
              Blocked(ll, ld, w, z.Halt(), old(z.Avail()) + ll[lsym], out.len, out.data.Length, out.expandable)
    ensures z.pos >= old(z.pos) && (ok && z.pos == old(z.pos) < |z.input| ==> z.numBits < old(z.numBits))
    ensures ok ==> t.Match? && t.lsym == lsym && out.len == old(out.len) + Length(t)
    ensures ok && lsym >= 286 && old(z.pos) == |z.input| ==>
              old(z.numBits) >= 16 && DistanceCount(ld, t.dsym, old(z.numBits), z.numBits)
    ensures lsym >= 286 && old(z.pos) == |z.input| && w == 0 && old(z.numBits) >= 16 ==>
              forall d: nat :: C.Matches(ld, d, 0) && BaseOf(d) <= old(out.len) ==> ok
  {
    hide C.Matches, C.Accepted, ShiftRight, ShiftLeft, LittleEndian, Pow2, Begins, Rest, Copy, Length, Distance,
         TokenBits, NoRoom,
         DistanceAt;
    MatchInRange(ll, lsym, w);
    ZeroShifted(ll[lsym]);
    var len, dist;
    ok, len, dist, t := ReadMatch(z, hd, ll, ld, lsym, w);
    if ok {
      BeginsWell(ll, ld, w, t);
      ZeroMatch(ll, ld, w, t);
      ZeroFits(out.data.Length, out.expandable, out.len);
      if w == 0 {
        OneZeroCode(ld, t.dsym);
      }
      ok := PutMatch(out, len, dist);
      assert !ok ==> Refused(t, out.len, out.data.Length, out.expandable);
    } else {
      BlockedByDistance(ll, ld, w, lsym, z.Halt(), old(z.Avail()) + ll[lsym], out.len, out.data.Length,
                        out.expandable);
    }
  }

  /** The last two length symbols and a distance symbol whose codes are all zeros. */
  ghost predicate ZeroPair(ll: seq<nat>, ld: seq<nat>, s: nat, d: nat) {
    286 <= s && s < |ll| && d < |ld| && C.Matches(ll, s, 0) && C.Matches(ld, d, 0)
  }

  /** The bit count after that match at the end of the input. */
  ghost function TailNext(ll: seq<nat>, ld: seq<nat>, s: nat, d: nat, x: nat): Option<nat> {
    TableBounds();
    if s < |ll| && d < |ld| && d < 32 && ld[d] <= 15 then T.Next(ll[s], ld[d], DIST_EXTRA[d], x) else None
  }

  ghost predicate TailLasts(ll: seq<nat>, ld: seq<nat>, s: nat, d: nat, x: nat, n: nat) {
    TableBounds();
    s < |ll| && d < |ld| && d < 32 && ld[d] <= 15 && T.Lasts(ll[s], ld[d], DIST_EXTRA[d], x, n)
  }

  ghost function TailLeft(ll: seq<nat>, ld: seq<nat>, s: nat, d: nat, x: nat): nat {
    TableBounds();
    if s < |ll| && d < |ld| && d < 32 && ld[d] <= 15 then T.RoundsLeft(ll[s], ld[d], DIST_EXTRA[d], x, 18) else 0
  }

  /** From some bit count, matches of length zero go on for eighteen rounds and so for ever. */
  ghost predicate Endless(ll: seq<nat>, ld: seq<nat>) {
    exists s: nat, d: nat, x: nat :: ZeroPair(ll, ld, s, d) && x <= 32 && TailLasts(ll, ld, s, d, x, 18)
  }

  /** Bytes a token adds. */
  ghost function Grown(t: Token): nat
    requires WellFormed(t)
  {
    if t.Literal? then 1 else Length(t)
  }

  /** What a token uses up: input bytes, or bits while there is input, or a round of the tail; and what it adds. */
  ghost predicate Progress(ll: seq<nat>, ld: seq<nat>, t: Token, size: nat, pos: nat, pos': nat, x: nat, x': nat,
                           len: nat, len': nat) {
    && WellFormed(t) && len' == len + Grown(t)
    && pos <= pos' && (pos' == pos < size ==> x' < x)
    && (pos == size && t.Match? && t.lsym >= 286 ==> TailNext(ll, ld, t.lsym, t.dsym, x) == Some(x'))
  }

  lemma LiteralProgress(ll: seq<nat>, ld: seq<nat>, b: Byte, size: nat, pos: nat, pos': nat, x: nat, x': nat, len: nat,
                        len': nat)
    requires len' == len + 1 && pos <= pos' && (pos' == pos < size ==> x' < x)
    ensures Progress(ll, ld, Literal(b), size, pos, pos', x, x', len, len')
  {
  }

  lemma MatchProgress(ll: seq<nat>, ld: seq<nat>, t: Token, size: nat, pos: nat, p1: nat, pos': nat, x: nat, x1: nat,
                      x': nat, len: nat, len': nat)
    requires Codes(ll, ld) && WellFormed(t) && t.Match? && t.lsym < |ll| && len' == len + Length(t)
    requires pos <= p1 <= pos' <= size && (p1 == pos < size ==> x1 <= x) && (pos' == p1 < size ==> x' < x1)
    requires pos == size ==> x >= 16 && x1 == x - ll[t.lsym]
    requires pos == size && t.lsym >= 286 ==> x1 >= 16 && DistanceCount(ld, t.dsym, x1, x')
    ensures Progress(ll, ld, t, size, pos, pos', x, x', len, len')
  {
    hide Length, Topped, LENGTH_BASE, LENGTH_EXTRA, DIST_BASE, DIST_EXTRA;
  }

  /** The zero codes allow one more match of length zero. */
  ghost predicate Spins(ll: seq<nat>, ld: seq<nat>, x: nat, len: nat) {
    exists s: nat, d: nat :: ZeroPair(ll, ld, s, d) && TailNext(ll, ld, s, d, x).Some? && BaseOf(d) <= len
  }

  lemma SpinsOn(ll: seq<nat>, ld: seq<nat>, x: nat, len: nat)
    requires Spins(ll, ld, x, len)
    ensures x >= 16 && (exists i: nat :: C.Matches(ll, i, 0))
    ensures exists d: nat :: C.Matches(ld, d, 0) && BaseOf(d) <= len
  {
    hide C.Matches, DIST_EXTRA, DIST_BASE, BaseOf;
    var s: nat, d: nat :| ZeroPair(ll, ld, s, d) && TailNext(ll, ld, s, d, x).Some? && BaseOf(d) <= len;
    assert C.Matches(ld, d, 0);
  }

  lemma SpinSymbol(ll: seq<nat>, ld: seq<nat>, x: nat, len: nat, sym: nat)
    requires Spins(ll, ld, x, len) && C.Matches(ll, sym, 0)
    ensures sym >= 286 && sym < |ll| && x >= 16 + ll[sym]
  {
    hide DIST_EXTRA, DIST_BASE, BaseOf, C.CodeOf, C.Prefix;
    var s: nat, d: nat :| ZeroPair(ll, ld, s, d) && TailNext(ll, ld, s, d, x).Some? && BaseOf(d) <= len;
    C.MatchUnique(ll, s, sym, 0);
  }

  lemma ZeroPairIs(ll: seq<nat>, ld: seq<nat>, t: Token)
    requires t.Match? && t.lsym >= 286 && C.Matches(ll, t.lsym, 0) && C.Matches(ld, t.dsym, 0)
    ensures ZeroPair(ll, ld, t.lsym, t.dsym)
  {
  }

  /** One literal token. */
  method ParseLiteral(ghost ll: seq<nat>, ghost ld: seq<nat>, ghost w: nat, b: Byte, ghost halt: Option<nat>,
                      ghost avail: int, out: OutBuf)
      returns (ok: bool)
    requires Codes(ll, ld) && C.Matches(ll, b, w) && out.Valid() && 0 < out.data.Length <= UINT_MAX
    modifies out, out.data
    ensures out.Valid() && 0 < out.data.Length <= UINT_MAX && (out.data != old(out.data) ==> fresh(out.data))
    ensures b < |ll| && Begins(ll, ld, w, Literal(b)) && Rest(ll, ld, w, Literal(b)) == ShiftRight(w, ll[b])
    ensures TokenBits(ll, ld, Literal(b)) == ll[b]
    ensures ok ==> Written(old(out.Contents()), Literal(b), out.Contents()) && out.len == old(out.len) + 1
    ensures !ok ==> out.Contents() == old(out.Contents())
    ensures !ok ==> Blocked(ll, ld, w, halt, avail, out.len, out.data.Length, out.expandable)
  {
    MatchInRange(ll, b, w);
    hide C.Matches, ShiftRight, Begins, Rest, TokenBits, Blocked, NoRoom;
    LiteralBegins(ll, ld, w, b);
    ok := PutLiteral(out, b);
    if !ok {
      BlockedByRoom(ll, ld, w, b, halt, avail, out.len, out.data.Length, out.expandable);
    }
  }

  /** One round of the loop. */
  method ParseToken(z: ZBuf, hl: Tables, hd: Tables, ghost ll: seq<nat>, ghost ld: seq<nat>, out: OutBuf)
      returns (round: Round, ghost t: Token)
    requires Ready(z, hl, hd, ll, ld, out)
    modifies z, out, out.data
    ensures Ready(z, hl, hd, ll, ld, out) && (out.data != old(out.data) ==> fresh(out.data))
    ensures round == PutToken ==> Begins(ll, ld, old(z.Stream()), t) && z.Stream() == Rest(ll, ld, old(z.Stream()), t)
    ensures round == PutToken ==> Written(old(out.Contents()), t, out.Contents())
    ensures round == PutToken ==> z.Avail() >= old(z.Avail()) - TokenBits(ll, ld, t)
    ensures round != PutToken ==> out.Contents() == old(out.Contents())
    ensures round == EndOfBlock ==>
              C.Matches(ll, 256, old(z.Stream())) && z.Stream() == ShiftRight(old(z.Stream()), ll[256])
    ensures round == Failed ==>
              Blocked(ll, ld, old(z.Stream()), z.Halt(), old(z.Avail()), out.len, out.data.Length, out.expandable)
    ensures round == PutToken ==>
              Progress(ll, ld, t, |z.input|, old(z.pos), z.pos, old(z.numBits), z.numBits, old(out.len), out.len)
    ensures old(z.pos) == |z.input| && old(z.Stream()) == 0 && Spins(ll, ld, old(z.numBits), old(out.len)) ==>
              round == PutToken && t.Match? && ZeroPair(ll, ld, t.lsym, t.dsym)
  {
    hide C.Matches, C.Accepted, ShiftRight, ShiftLeft, LittleEndian, Pow2, Begins, Rest, Copy, Length, Distance,
         TokenBits, Blocked,
         Written, NoRoom, Tables.Describe, DistanceCount, TailNext, Progress, ZeroPair, Spins;
    ghost var w := z.Stream();
    t := Literal(0);
    var sym := z.Decode(hl, ll);
    ghost var spins := old(z.pos) == |z.input| && w == 0 && Spins(ll, ld, old(z.numBits), old(out.len));
    if spins {
      SpinsOn(ll, ld, old(z.numBits), old(out.len));
    }
    if sym == -1 {
      BlockedBySymbol(ll, ld, w, z.Halt(), old(z.Avail()), out.len, out.data.Length, out.expandable);
      return Failed, t;
    }
    MatchInRange(ll, sym, w);
    if spins {
      SpinSymbol(ll, ld, old(z.numBits), old(out.len), sym);
    }
    if sym == 256 {
      return EndOfBlock, t;
    }
    var ok;
    if sym < 256 {
      t := Literal(sym);
      ok := ParseLiteral(ll, ld, w, sym, z.Halt(), old(z.Avail()), out);
      if ok {
        LiteralProgress(ll, ld, sym, |z.input|, old(z.pos), z.pos, old(z.numBits), z.numBits, old(out.len), out.len);
      }
    } else {
      ghost var left, p1, x1 := z.Avail(), z.pos, z.numBits;
      ok, t := ParseMatch(z, hd, ll, ld, sym, w, out);
      if ok {
        BeginsWell(ll, ld, w, t);
        MatchProgress(ll, ld, t, |z.input|, old(z.pos), p1, z.pos, old(z.numBits), x1, z.numBits, old(out.len),
                      out.len);
        ZeroMatch(ll, ld, w, t);
        if spins {
          ZeroPairIs(ll, ld, t);
        }
      }
      if !ok {
        BlockedEarlier(ll, ld, w, z.Halt(), old(z.Avail()), left + ll[sym], out.len, out.data.Length, out.expandable);
      }
    }
    return if ok then PutToken else Failed, t;
  }

  lemma BlockedByRoom(ll: seq<nat>, ld: seq<nat>, w: nat, b: Byte, halt: Option<nat>, avail: int, len: nat,
                      capacity: nat, expandable: bool)
    requires Codes(ll, ld) && capacity > 0 && Begins(ll, ld, w, Literal(b)) && NoRoom(capacity, expandable, len, 1)
    ensures Blocked(ll, ld, w, halt, avail, len, capacity, expandable)
  {
    hide Begins, NoRoom;
    assert Refused(Literal(b), len, capacity, expandable);
  }

  lemma BlockedEarlier(ll: seq<nat>, ld: seq<nat>, w: nat, halt: Option<nat>, a: int, a': int, len: nat, capacity: nat,
                       expandable: bool)
    requires Codes(ll, ld) && capacity > 0 && a <= a' && Blocked(ll, ld, w, halt, a', len, capacity, expandable)
    ensures Blocked(ll, ld, w, halt, a, len, capacity, expandable)
  {
  }

  lemma BeginsWell(ll: seq<nat>, ld: seq<nat>, w: nat, t: Token)
    requires Codes(ll, ld) && Begins(ll, ld, w, t)
    ensures WellFormed(t)
  {
  }

  lemma LiteralBegins(ll: seq<nat>, ld: seq<nat>, w: nat, b: Byte)
    requires Codes(ll, ld) && C.Matches(ll, b, w)
    ensures Begins(ll, ld, w, Literal(b)) && Rest(ll, ld, w, Literal(b)) == ShiftRight(w, ll[b])
    ensures TokenBits(ll, ld, Literal(b)) == ll[b]
  {
  }
}
