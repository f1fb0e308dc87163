/** A block of tokens encoded as section 3.2.3 of RFC 1951 prescribes is what `stbi__parse_huffman_block` of
    external/stb/stb_image.h expands: it reads exactly these tokens and does not fail while there is input and room. */
module InflateRoundTrip {
  import opened Words
  import opened Bits
  import opened ZStream
  import opened Inflate
  import opened InflateBlock
  import JpegBits
  import C = CanonicalCode

  // ----- The encoder -----

  /** The code has these symbols, and the extra bits fit. */
  ghost predicate Encodable(ll: seq<nat>, ld: seq<nat>, t: Token) {
    match t
    case Literal(b) => b < |ll| && ll[b] > 0
    case Match(ls, le, ds, de) =>
      && 257 <= ls < 288 && ls < |ll| && ll[ls] > 0 && ds < 32 && ds < |ld| && ld[ds] > 0
      && |LENGTH_EXTRA| == 31 && |DIST_EXTRA| == 32
      && le < Pow2(LENGTH_EXTRA[ls - 257]) && de < Pow2(DIST_EXTRA[ds])
  }

  /** `n` bits as they are, lowest first, before `rest`. */
  ghost function PlainBits(v: nat, n: nat, rest: nat): nat {
    ShiftLeft(rest, n) + v
  }

  /** The bits of a token before `rest`: codes from their top bit, extra bits from their lowest. */
  ghost function EncodeToken(ll: seq<nat>, ld: seq<nat>, t: Token, rest: nat): nat
    requires Encodable(ll, ld, t)
  {
    match t
    case Literal(b) => EncodeSymbol(ll, b, rest)
    case Match(ls, le, ds, de) =>
      EncodeSymbol(ll, ls, PlainBits(le, LENGTH_EXTRA[ls - 257],
        EncodeSymbol(ld, ds, PlainBits(de, DIST_EXTRA[ds], rest))))
  }

  ghost predicate AllEncodable(ll: seq<nat>, ld: seq<nat>, ts: seq<Token>) {
    forall t :: t in ts ==> Encodable(ll, ld, t)
  }

  ghost function EncodeTokens(ll: seq<nat>, ld: seq<nat>, ts: seq<Token>, rest: nat): nat
    requires AllEncodable(ll, ld, ts)
    decreases |ts|
  {
    if ts == [] then rest
    else EncodeTokens(ll, ld, ts[..|ts| - 1], EncodeToken(ll, ld, ts[|ts| - 1], rest))
  }

  /** A whole block: its tokens and the end-of-block symbol. */
  ghost function EncodeBlock(ll: seq<nat>, ld: seq<nat>, ts: seq<Token>, rest: nat): nat
    requires AllEncodable(ll, ld, ts) && |ll| > 256 && ll[256] > 0
  {
    EncodeTokens(ll, ld, ts, EncodeSymbol(ll, 256, rest))
  }

  // ----- It is read back -----

  ghost predicate Coded(ll: seq<nat>, ld: seq<nat>) {
    Codes(ll, ld) && C.Accepted(ll) && C.Accepted(ld)
  }

  lemma PlainBitsBack(v: nat, n: nat, rest: nat)
    requires v < Pow2(n)
    ensures Get(PlainBits(v, n, rest), 0, n) == v && ShiftRight(PlainBits(v, n, rest), n) == rest
  {
    hide Get, ShiftRight, ShiftLeft, Pow2;
    JpegBits.GetLowPart(rest, n, v);
    ShiftRightOfSum(v, rest, n, n);
    ShiftRightBounded(v, n, n);
    Unshifted(rest);
  }

  lemma Unshifted(n: nat)
    ensures ShiftLeft(n, 0) == n && Pow2(0) == 1
  {
  }

  lemma TokenBack(ll: seq<nat>, ld: seq<nat>, t: Token, rest: nat)
    requires Coded(ll, ld) && Encodable(ll, ld, t)
    ensures var w := EncodeToken(ll, ld, t, rest);
            Begins(ll, ld, w, t) && Rest(ll, ld, w, t) == rest
  {
    hide LENGTH_BASE, LENGTH_EXTRA, DIST_BASE, DIST_EXTRA, Get, ShiftRight, C.Matches, EncodeSymbol, PlainBits, Pow2,
         C.Accepted;
    match t
    case Literal(b) => EncodedMatches(ll, b, rest);
    case Match(ls, le, ds, de) =>
      var behind := PlainBits(de, DIST_EXTRA[ds], rest);
      var dist := EncodeSymbol(ld, ds, behind);
      var extra := PlainBits(le, LENGTH_EXTRA[ls - 257], dist);
      EncodedMatches(ll, ls, extra);
      PlainBitsBack(le, LENGTH_EXTRA[ls - 257], dist);
      EncodedMatches(ld, ds, behind);
      PlainBitsBack(de, DIST_EXTRA[ds], rest);
  }

  lemma {:induction false} TokensBack(ll: seq<nat>, ld: seq<nat>, ts: seq<Token>, rest: nat)
    requires Coded(ll, ld) && AllEncodable(ll, ld, ts)
    ensures var w := EncodeTokens(ll, ld, ts, rest);
            Reads(ll, ld, w, ts) && After(ll, ld, w, ts) == rest
    decreases |ts|
  {
    hide EncodeToken, Begins, Rest, Coded, Encodable;
    CodedParts(ll, ld);
    if ts != [] {
      var n := |ts| - 1;
      TokensBack(ll, ld, ts[..n], EncodeToken(ll, ld, ts[n], rest));
      TokenBack(ll, ld, ts[n], rest);
    }
  }

  lemma CodedParts(ll: seq<nat>, ld: seq<nat>)
    requires Coded(ll, ld)
    ensures Codes(ll, ld)
  {
  }

  /** Some beginning of what is read is read. */
  lemma {:induction false} ReadsFront(ll: seq<nat>, ld: seq<nat>, w: nat, ts: seq<Token>, n: nat)
    requires Codes(ll, ld) && Reads(ll, ld, w, ts) && n <= |ts|
    ensures Reads(ll, ld, w, ts[..n])
    ensures n < |ts| ==> Begins(ll, ld, After(ll, ld, w, ts[..n]), ts[n])
    decreases |ts|
  {
    hide Begins, Rest;
    if n == |ts| {
      assert ts[..n] == ts;
    } else {
      var init := ts[..|ts| - 1];
      ReadsFront(ll, ld, w, init, n);
      assert init[..n] == ts[..n];
      if n == |ts| - 1 {
        assert ts[..n] == init;
      }
    }
  }

  /** A token is no end of block. */
  lemma NotBoth(ll: seq<nat>, ld: seq<nat>, w: nat, t: Token)
    requires Codes(ll, ld) && Begins(ll, ld, w, t)
    ensures !C.Matches(ll, 256, w)
  {
    hide LENGTH_BASE, LENGTH_EXTRA, DIST_BASE, DIST_EXTRA, Get, ShiftRight, DistanceAt;
    if C.Matches(ll, 256, w) {
      C.MatchUnique(ll, 256, if t.Literal? then t.byte else t.lsym, w);
    }
  }

  /** Whatever is read of a stream that ends a block behind `ts` is a beginning of `ts`. */
  lemma ReadsNoFurther(ll: seq<nat>, ld: seq<nat>, w: nat, ts: seq<Token>, rest: nat, us: seq<Token>)
    requires Codes(ll, ld) && Ends(ll, ld, w, ts, rest) && Reads(ll, ld, w, us)
    ensures |us| <= |ts| && us == ts[..|us|]
  {
    hide Reads, After, Begins, ShiftRight, C.Matches;
    if |us| > |ts| {
      ReadsFront(ll, ld, w, us, |ts|);
      TokensOneWay(ll, ld, w, ts, us[..|ts|]);
      NotBoth(ll, ld, After(ll, ld, w, ts), us[|ts|]);
    } else {
      ReadsFront(ll, ld, w, ts, |us|);
      TokensOneWay(ll, ld, w, us, ts[..|us|]);
    }
  }

  lemma BlockEnds(ll: seq<nat>, ld: seq<nat>, ts: seq<Token>, rest: nat)
    requires Coded(ll, ld) && AllEncodable(ll, ld, ts) && |ll| > 256 && ll[256] > 0
    ensures Ends(ll, ld, EncodeBlock(ll, ld, ts, rest), ts, rest)
  {
    hide EncodeTokens, Reads, After, ShiftRight, C.Matches, EncodeSymbol, C.Accepted;
    TokensBack(ll, ld, ts, EncodeSymbol(ll, 256, rest));
    EncodedMatches(ll, 256, rest);
  }

  /** A block that is read to its end gives back its tokens, and what lies behind it. */
  lemma BlockRoundTrip(ll: seq<nat>, ld: seq<nat>, ts: seq<Token>, rest: nat, us: seq<Token>, behind: nat)
    requires Coded(ll, ld) && AllEncodable(ll, ld, ts) && |ll| > 256 && ll[256] > 0
    requires Ends(ll, ld, EncodeBlock(ll, ld, ts, rest), us, behind)
    ensures us == ts && behind == rest
  {
    hide EncodeBlock, Reads, After, ShiftRight, C.Matches, Coded;
    CodedParts(ll, ld);
    var w := EncodeBlock(ll, ld, ts, rest);
    BlockEnds(ll, ld, ts, rest);
    ReadsNoFurther(ll, ld, w, ts, rest, us);
    ReadsNoFurther(ll, ld, w, us, behind, ts);
    assert ts[..|ts|] == ts;
  }

  // ----- It does not fail -----

  lemma {:induction false} BitsOfFront(ll: seq<nat>, ld: seq<nat>, ts: seq<Token>, n: nat)
    requires n <= |ts|
    ensures TotalBits(ll, ld, ts[..n]) + (if n < |ts| then TokenBits(ll, ld, ts[n]) else 0) <= TotalBits(ll, ld, ts)
    decreases |ts|
  {
    hide TokenBits;
    if n == |ts| {
      assert ts[..n] == ts;
    } else {
      BitsOfFront(ll, ld, ts[..|ts| - 1], n);
      assert ts[..|ts| - 1][..n] == ts[..n];
    }
  }

  lemma {:induction false} DoublingFits(limit: nat, need: nat)
    requires 0 < limit <= UINT_MAX && need <= 0x8000_0000
    ensures Doubled(limit, need) <= UINT_MAX
    decreases need - limit
  {
    if need > limit {
      DoublingFits(2 * limit, need);
    }
  }

  lemma RoomEnough(capacity: nat, len: nat, n: nat)
    requires 0 < capacity <= UINT_MAX && len + n <= 0x8000_0000
    ensures !NoRoom(capacity, true, len, n)
  {
    DoublingFits(capacity, len + n);
  }

  /** The input does not end at a symbol of the next token. */
  lemma NotStarved(ll: seq<nat>, ld: seq<nat>, w: nat, t: Token, halt: Option<nat>, avail: int)
    requires Codes(ll, ld) && Begins(ll, ld, w, t) && avail >= TokenBits(ll, ld, t) + 16
    ensures !Starved(ll, w, halt, avail)
  {
    TableBounds();
    hide LENGTH_BASE, LENGTH_EXTRA, DIST_BASE, DIST_EXTRA, Get, ShiftRight, DistanceAt;
    forall ls: nat | 257 <= ls < 288 && C.Matches(ll, ls, w)
      ensures avail >= 16 + ll[ls] + ExtraOf(ls)
    {
      C.MatchUnique(ll, if t.Literal? then t.byte else t.lsym, ls, w);
    }
  }

  lemma EndNotStarved(ll: seq<nat>, ld: seq<nat>, w: nat, halt: Option<nat>, avail: int)
    requires Codes(ll, ld) && C.Matches(ll, 256, w) && avail >= 16
    ensures !Starved(ll, w, halt, avail)
  {
    forall ls: nat | 257 <= ls < 288 && C.Matches(ll, ls, w)
      ensures false
    {
      C.MatchUnique(ll, 256, ls, w);
    }
  }

  /** The output only grows. */
  lemma {:induction false} ExpandGrows(start: seq<Byte>, ts: seq<Token>, n: nat)
    requires Expandable(start, ts) && n <= |ts|
    ensures Expandable(start, ts[..n]) && |Expand(start, ts[..n])| <= |Expand(start, ts)|
    ensures n < |ts| ==> WellFormed(ts[n]) && (ts[n].Match? ==> 1 <= Distance(ts[n]) <= |Expand(start, ts[..n])|)
    ensures n < |ts| ==>
              |Expand(start, ts[..n])| + (if ts[n].Match? then Length(ts[n]) else 1) <= |Expand(start, ts)|
    decreases |ts|
  {
    hide Length, Distance, Copy;
    if n == |ts| {
      assert ts[..n] == ts;
    } else {
      var init := ts[..|ts| - 1];
      ExpandGrows(start, init, n);
      assert init[..n] == ts[..n];
      if n == |ts| - 1 {
        assert ts[..n] == init;
      }
    }
  }

  lemma NextNotBlocked(ll: seq<nat>, ld: seq<nat>, w: nat, t: Token, halt: Option<nat>, avail: int, len: nat,
                       capacity: nat)
    requires Codes(ll, ld) && Begins(ll, ld, w, t) && avail >= TokenBits(ll, ld, t) + 16 && 0 < capacity <= UINT_MAX
    requires WellFormed(t) && (t.Match? ==> Distance(t) <= len)
    requires len + (if t.Match? then Length(t) else 1) <= 0x8000_0000
    ensures !Blocked(ll, ld, w, halt, avail, len, capacity, true)
  {
    hide Begins, Starved, Length, Distance, NoRoom, TokenBits;
    NotStarved(ll, ld, w, t, halt, avail);
    forall u | Begins(ll, ld, w, u)
      ensures !Refused(u, len, capacity, true)
    {
      BeginsOneWay(ll, ld, w, t, u);
      RoomEnough(capacity, len, if t.Match? then Length(t) else 1);
    }
  }

  lemma EndNotBlocked(ll: seq<nat>, ld: seq<nat>, w: nat, halt: Option<nat>, avail: int, len: nat, capacity: nat)
    requires Codes(ll, ld) && C.Matches(ll, 256, w) && avail >= 16 && 0 < capacity
    ensures !Blocked(ll, ld, w, halt, avail, len, capacity, true)
  {
    hide Begins, Starved, C.Matches;
    EndNotStarved(ll, ld, w, halt, avail);
    forall u | Begins(ll, ld, w, u)
      ensures false
    {
      NotBoth(ll, ld, w, u);
    }
  }

  /** With sixteen bits of input behind the tokens, a buffer that may grow and at most 2 GiB of output, nothing stops
      the loop before the end of the block: no state it can be in is one in which it gives up. */
  lemma BlockNotStuck(ll: seq<nat>, ld: seq<nat>, ts: seq<Token>, rest: nat, start: seq<Byte>, us: seq<Token>,
                      out: seq<Byte>, halt: Option<nat>, avail: int, capacity: nat)
    requires Coded(ll, ld) && AllEncodable(ll, ld, ts) && |ll| > 256 && ll[256] > 0
    requires Expandable(start, ts) && |Expand(start, ts)| <= 0x8000_0000
    requires avail >= TotalBits(ll, ld, ts) + 16 && 0 < capacity <= UINT_MAX
    requires Decoded(ll, ld, EncodeBlock(ll, ld, ts, rest), start, us, out)
    ensures !Stuck(ll, ld, EncodeBlock(ll, ld, ts, rest), us, halt, avail - TotalBits(ll, ld, us), |out|, capacity,
                   true)
  {
    hide EncodeBlock, Reads, After, ShiftRight, C.Matches, Coded, Begins, Blocked, TotalBits, TokenBits, Expand,
         Expandable, Length, Distance;
    CodedParts(ll, ld);
    var w, n := EncodeBlock(ll, ld, ts, rest), |us|;
    BlockEnds(ll, ld, ts, rest);
    ReadsNoFurther(ll, ld, w, ts, rest, us);
    ReadsFront(ll, ld, w, ts, n);
    BitsOfFront(ll, ld, ts, n);
    ExpandGrows(start, ts, n);
    DistancesPositive(start, ts, n);
    if n < |ts| {
      NextNotBlocked(ll, ld, After(ll, ld, w, us), ts[n], halt, avail - TotalBits(ll, ld, us), |out|, capacity);
    } else {
      assert us == ts;
      EndNotBlocked(ll, ld, After(ll, ld, w, us), halt, avail - TotalBits(ll, ld, us), |out|, capacity);
    }
  }

  lemma DistancesPositive(start: seq<Byte>, ts: seq<Token>, n: nat)
    requires Expandable(start, ts) && n <= |ts|
    ensures forall t :: t in ts[..n] ==> WellFormed(t) && (t.Match? ==> Distance(t) >= 1)
  {
    hide Expandable, Expand, Distance;
    forall i: nat | i < n
      ensures WellFormed(ts[i]) && (ts[i].Match? ==> Distance(ts[i]) >= 1)
    {
      ExpandGrows(start, ts, i);
    }
  }
}
