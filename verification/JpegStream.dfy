/** The bits the JPEG reader of external/stb/stb_image.h has still to deliver, wherever they are: in its buffer, in the
    data behind stuffed zeros, or past the end, where it reads zeros. Refilling leaves them alone and decoding drops
    them from the front. */
module JpegStream {
  import opened Words
  import opened Bits
  import opened JpegBits
  import opened JpegModel
  import JpegAc
  import JpegHuffman
  import BitReverse
  import C = CanonicalCode

  // ----- The data without its stuffing -----

  datatype Source = Ends | Gives(b: Byte, pos: nat)

  /** The next byte of the entropy-coded data: 0xFF counts when zero follows it, otherwise a marker ends the data. */
  ghost function Pull(data: seq<Byte>, pos: nat): Source {
    var j := Jpeg(data, pos, 0, 0, false, 0);
    var b, j1 := Get8(j), Skip8(j);
    if b != 0xFF then Gives(b, j1.pos)
    else
      var j2 := SkipFill(j1);
      if Get8(j2) != 0 then Ends else Gives(b, Skip8(j2).pos)
  }

  /** Bit `i` of the data from `pos` on, top bit of each byte first, zeros past a marker. */
  ghost function DataBit(data: seq<Byte>, pos: nat, i: nat): nat
    decreases i
  {
    match Pull(data, pos)
    case Ends => 0
    case Gives(b, next) => if i < 8 then Bit(8, b, i) else DataBit(data, next, i - 8)
  }

  // ----- Unread bits -----

  ghost function BufferBit(j: Jpeg, k: nat): nat {
    if k < 32 then Bit(32, j.buf, k) else 0
  }

  /** Bit `k` of what the reader will deliver. */
  ghost function Unread(j: Jpeg, k: nat): nat {
    if j.nomore || k < j.bits then BufferBit(j, k) else DataBit(j.data, j.pos, k - j.bits)
  }

  /** Nothing but zeros lies in the buffer behind the valid bits. */
  ghost predicate Clean(j: Jpeg) {
    && j.bits <= 32 && (j.nomore || j.bits >= 0)
    && forall k: nat :: j.bits <= k < 32 ==> Bit(32, j.buf, k) == 0
  }

  /** `q` delivers what `j` does after its first `n` bits. */
  ghost predicate Follows(j: Jpeg, n: nat, q: Jpeg) {
    forall k: nat :: Unread(q, k) == Unread(j, n + k)
  }

  // ----- Refilling -----

  lemma {:induction false} SkipFillSame(a: Jpeg, b: Jpeg)
    requires a.data == b.data && a.pos == b.pos
    ensures SkipFill(a).pos == SkipFill(b).pos
    decreases |a.data| - a.pos
  {
    if Get8(a) == 0xFF {
      SkipFillSame(Skip8(a), Skip8(b));
    }
  }

  lemma GrowUnfolds(j: Jpeg)
    requires j.bits <= 24 && !j.nomore
    ensures var b, j1 := Get8(j), Skip8(j);
            var j2 := SkipFill(j1);
            AddByte(j1, b).bits == AddByte(Skip8(j2), b).bits == j.bits + 8 &&
            Grow(j) == if b != 0xFF then Again(AddByte(j1, b), j)
                       else if Get8(j2) != 0 then Skip8(j2).(marker := Get8(j2), nomore := true)
                       else Again(AddByte(Skip8(j2), b), j)
  {
    hide Again, Or, ShiftUp, SkipFill;
  }

  lemma PullUnfolds(j: Jpeg)
    ensures var b, j1 := Get8(j), Skip8(j);
            var j2 := SkipFill(j1);
            Pull(j.data, j.pos) == if b != 0xFF then Gives(b, j1.pos) else if Get8(j2) != 0 then Ends
                                   else Gives(b, Skip8(j2).pos)
  {
    hide SkipFill;
    SkipFillSame(Skip8(j), Skip8(Jpeg(j.data, j.pos, 0, 0, false, 0)));
  }

  lemma SkipsMove(j: Jpeg)
    ensures Skip8(j) == j.(pos := Skip8(j).pos)
    ensures Skip8(SkipFill(j)) == j.(pos := Skip8(SkipFill(j)).pos)
  {
    hide SkipFill;
  }

  /** A round of the refill loop takes the next byte or meets the marker. */
  lemma GrowPulls(j: Jpeg)
    requires j.bits <= 24 && !j.nomore
    ensures match Pull(j.data, j.pos)
            case Ends => Grow(j) == j.(pos := Grow(j).pos, marker := Grow(j).marker, nomore := true)
            case Gives(b, next) => AddByte(j.(pos := next), b).bits == j.bits + 8 &&
                                   Grow(j) == Again(AddByte(j.(pos := next), b), j)
  {
    hide Again, AddByte, Grow, Pull, Get8, Skip8, SkipFill;
    GrowUnfolds(j);
    PullUnfolds(j);
    SkipsMove(j);
    SkipsMove(Skip8(j));
  }

  lemma {:induction false} UpIsLeft(b: Byte, n: nat)
    requires n <= 24
    ensures b < Pow2(32) && ShiftUp(32, b, n) == ShiftLeft(b, n) < Pow2(8 + n)
  {
    WordPowers();
    ByteFits(b);
    if n > 0 {
      UpIsLeft(b, n - 1);
      PowerMonotone(7 + n, 31);
    }
  }

  lemma {:induction false} BitPast(b: nat, w: nat, k: nat)
    requires b < Pow2(w) && w <= k
    ensures C.BitAt(b, k) == 0
  {
    ShiftedOut(b, w);
    ShiftRightTwice(b, w, k - w);
    ZeroShifted(k - w);
  }

  lemma {:induction false} ZeroShifted(n: nat)
    ensures ShiftRight(0, n) == 0
  {
    if n > 0 {
      ZeroShifted(n - 1);
    }
  }

  lemma ByteBitsAt(b: Byte, m: nat, k: nat)
    requires m <= 24 && k < 32
    ensures b < Pow2(32)
    ensures Bit(32, ShiftUp(32, b, m), k) == if 24 - m <= k < 32 - m then Bit(8, b, k - (24 - m)) else 0
  {
    hide ShiftUp, ShiftLeft, ShiftRight, Pow2;
    WordPowers();
    UpIsLeft(b, m);
    BitReverse.BitOfLeft(b, m, 31 - k);
    if k < 24 - m {
      BitPast(b, 8, 31 - k - m);
    }
  }

  lemma AddByteBits(j: Jpeg, b: Byte, k: nat)
    requires Clean(j) && 0 <= j.bits <= 24 && k < 32
    ensures Bit(32, AddByte(j, b).buf, k) ==
            if k < j.bits then Bit(32, j.buf, k) else if k < j.bits + 8 then Bit(8, b, k - j.bits) else 0
  {
    hide Or, ShiftUp, ShiftRight, Pow2;
    assert k >= j.bits ==> Bit(32, j.buf, k) == 0;
    ByteFits(b);
    ByteBitsAt(b, 24 - j.bits, k);
    BitReverse.BitOfOr(j.buf, ShiftUp(32, b, 24 - j.bits), 31 - k);
    if k < j.bits {
      BitReverse.OneOrZero(j.buf, 31 - k);
    } else if k < j.bits + 8 {
      BitReverse.OneOrZero(b, 7 - (k - j.bits));
    }
  }

  lemma PullKeeps(j: Jpeg, b: Byte, next: nat)
    requires Clean(j) && j.bits <= 24 && !j.nomore && Pull(j.data, j.pos) == Gives(b, next)
    ensures var q := AddByte(j.(pos := next), b);
            Clean(q) && Follows(j, 0, q)
  {
    hide Bit, Or, ShiftUp, Pow2, Pull;
    var q := AddByte(j.(pos := next), b);
    forall k: nat | k < 32
      ensures Bit(32, q.buf, k) ==
              if k < j.bits then Bit(32, j.buf, k) else if k < j.bits + 8 then Bit(8, b, k - j.bits) else 0
    {
      AddByteBits(j.(pos := next), b, k);
    }
  }

  lemma MarkerKeeps(j: Jpeg, q: Jpeg)
    requires Clean(j) && !j.nomore && Pull(j.data, j.pos) == Ends
    requires q == j.(pos := q.pos, marker := q.marker, nomore := true)
    ensures Clean(q) && Follows(j, 0, q)
  {
    hide Bit, Pull;
  }

  lemma ZeroByte(j: Jpeg)
    requires j.bits <= 24
    ensures AddByte(j, 0) == j.(bits := j.bits + 8)
  {
    hide Or, ShiftUp;
    JpegAc.ZeroBits(24 - j.bits);
    JpegAc.OrZero(j.buf);
  }

  lemma GrowPads(j: Jpeg)
    requires j.bits <= 24 && j.nomore
    ensures Grow(j) == Again(AddByte(j, 0), j)
  {
    hide Again, AddByte;
  }

  lemma {:induction false} AgainKeeps(q: Jpeg, before: Jpeg, j: Jpeg)
    requires q.bits == before.bits + 8 && before.bits <= 24 && Clean(q) && Follows(j, 0, q)
    ensures Clean(Again(q, before)) && Follows(j, 0, Again(q, before))
    decreases 24 - before.bits, 0
  {
    hide Clean, Unread, Grow;
    if q.bits <= 24 {
      GrowKeeps(q);
      assert forall k: nat :: Unread(Grow(q), k) == Unread(q, 0 + k) == Unread(j, 0 + k);
    }
  }

  /** Refilling changes nothing about the bits to come. */
  lemma {:induction false} GrowKeeps(j: Jpeg)
    requires Clean(j) && j.bits <= 24
    ensures Clean(Grow(j)) && Follows(j, 0, Grow(j))
    decreases 24 - j.bits, 1
  {
    hide Again, AddByte, Grow, Pull;
    if j.nomore {
      ZeroByte(j);
      GrowPads(j);
      AgainKeeps(j.(bits := j.bits + 8), j, j);
    } else {
      GrowPulls(j);
      match Pull(j.data, j.pos)
      case Ends => MarkerKeeps(j, Grow(j));
      case Gives(b, next) =>
        PullKeeps(j, b, next);
        AddedBits(j.(pos := next), b);
        AgainKeeps(AddByte(j.(pos := next), b), j, j);
    }
  }

  lemma AddedBits(j: Jpeg, b: Byte)
    requires j.bits <= 24
    ensures AddByte(j, b).bits == j.bits + 8
  {
  }

  lemma RefillKeeps(j: Jpeg, n: nat)
    requires Clean(j) && n <= 16
    ensures Clean(Refill(j, n)) && Follows(j, 0, Refill(j, n))
    ensures Refill(j, n).bits >= n || Refill(j, n).nomore
  {
    hide Grow, Unread, Clean;
    if j.bits < n {
      GrowKeeps(j);
      JpegAc.GrowFillsOrEnds(j);
    }
  }

  /** Fill bytes up to position `m`. */
  lemma {:induction false} FillSkipped(j: Jpeg, m: nat)
    requires j.pos <= m < |j.data| && j.data[m] != 0xFF && forall i :: j.pos <= i < m ==> j.data[i] == 0xFF
    ensures SkipFill(j).pos == m
    decreases m - j.pos
  {
    if j.pos < m {
      FillSkipped(Skip8(j), m);
    }
  }

  /** A marker: 0xFF, any number of fill bytes, and its code at position `m`. Refilling stops behind it, notes the code,
      and what is still delivered is the rest of the buffer and zeros. */
  lemma MarkerEnds(j: Jpeg, m: nat)
    requires Clean(j) && j.bits <= 24 && !j.nomore && j.pos < m < |j.data| && j.data[m] != 0xFF && j.data[m] != 0
    requires forall i :: j.pos <= i < m ==> j.data[i] == 0xFF
    ensures Grow(j) == j.(pos := m + 1, marker := j.data[m], nomore := true)
    ensures forall k: nat :: Unread(j, k) == if k < j.bits then BufferBit(j, k) else 0
  {
    hide Again, AddByte, Grow, SkipFill, Bit, Pull;
    FillSkipped(Skip8(j), m);
    GrowUnfolds(j);
    PullUnfolds(j);
  }

  /** Data that ends without a marker goes on with zeros. */
  lemma {:induction false} DataEnds(data: seq<Byte>, pos: nat, i: nat)
    requires pos >= |data|
    ensures DataBit(data, pos, i) == 0
    decreases i
  {
    hide Bit;
    assert Pull(data, pos) == Gives(0, pos);
    if i < 8 {
      BitOfZero(i);
    } else {
      DataEnds(data, pos, i - 8);
    }
  }

  lemma BitOfZero(i: nat)
    requires i < 8
    ensures Bit(8, 0, i) == 0
  {
    ZeroShifted(7 - i);
  }

  // ----- Reading from the front -----

  /** The first `n` unread bits as a number. */
  ghost function Front(j: Jpeg, n: nat): nat {
    if n == 0 then 0 else 2 * Front(j, n - 1) + Unread(j, n - 1)
  }

  lemma {:induction false} FrontIsReceived(j: Jpeg, n: nat)
    requires n <= 32 && (j.nomore || n <= j.bits)
    ensures Front(j, n) == Receive(32, j.buf, 0, n)
  {
    hide Bit;
    if n > 0 {
      FrontIsReceived(j, n - 1);
    }
  }

  lemma {:induction false} FrontSame(j: Jpeg, q: Jpeg, n: nat)
    requires Follows(j, 0, q)
    ensures Front(q, n) == Front(j, n)
  {
    hide Unread;
    if n > 0 {
      FrontSame(j, q, n - 1);
      assert Unread(q, n - 1) == Unread(j, 0 + (n - 1));
    }
  }

  lemma ShiftedIn(b: Buffer, n: nat, k: nat)
    requires n <= 32 && k < 32 <= n + k
    ensures Bit(32, ShiftUp(32, b, n), k) == 0
  {
    hide ShiftUp, ShiftLeft, ShiftRight, Pow2;
    var a := ShiftUpEnds(32, b, n);
    BitReverse.BitOfLeft(a, n, 31 - k);
  }

  lemma ConsumeKeeps(j: Jpeg, n: nat)
    requires Clean(j) && n <= 32 && (j.nomore || n <= j.bits)
    ensures Clean(Consume(j, n)) && Follows(j, n, Consume(j, n))
  {
    hide Bit, ShiftUp;
    forall k: nat | k < 32
      ensures Bit(32, ShiftUp(32, j.buf, n), k) == if n + k < 32 then Bit(32, j.buf, n + k) else 0
    {
      if n + k < 32 {
        BitOfShiftUp(32, j.buf, n, k);
      } else {
        ShiftedIn(j.buf, n, k);
      }
    }
  }

  lemma FollowsBoth(j: Jpeg, m: nat, q: Jpeg, n: nat, r: Jpeg)
    requires Follows(j, m, q) && Follows(q, n, r)
    ensures Follows(j, m + n, r)
  {
    hide Unread;
    forall k: nat
      ensures Unread(r, k) == Unread(j, m + n + k)
    {
      assert Unread(r, k) == Unread(q, n + k);
      assert Unread(q, n + k) == Unread(j, m + (n + k));
    }
  }

  /** The code of symbol `i`, of `CodeLength(counts, i)` bits. */
  ghost function CodeWord(counts: seq<nat>, i: nat): nat
    requires |counts| == 16 && i < |JpegHuffman.Sizes(counts, 16)|
  {
    JpegHuffman.CodeIs(counts, i);
    C.CodeOf(JpegHuffman.Sizes(counts, 16), i)
  }

  ghost function CodeLength(counts: seq<nat>, i: nat): (n: nat)
    requires |counts| == 16 && i < |JpegHuffman.Sizes(counts, 16)|
    ensures 1 <= n <= 16
  {
    JpegHuffman.CodeIs(counts, i);
    JpegHuffman.Sizes(counts, 16)[i]
  }

  /** A symbol whose code comes next is decoded, and exactly its bits are dropped. */
  lemma SymbolRead(j: Jpeg, h: Huffman, counts: seq<nat>, i: nat)
    requires JpegHuffman.Describes(h, counts) && Clean(j) && (j.bits >= 16 || j.nomore)
    requires |counts| == 16 && i < |JpegHuffman.Sizes(counts, 16)| && (i < 255 || CodeLength(counts, i) > 9)
    requires Front(j, CodeLength(counts, i)) == CodeWord(counts, i)
    ensures Shaped(h) && i < 256
    ensures var d := HuffDecode(j, h);
            d.value == h.values[i] && Clean(d.j) && Follows(j, CodeLength(counts, i), d.j)
  {
    hide JpegHuffman.Sizes, JpegHuffman.Start, C.CodeOf, C.Prefix, Refill, Lookup, Clean, Follows,
         JpegHuffman.Describes, Consume, Receive, Front, ShiftRight;
    DescribesParts(h, counts);
    var lens := JpegHuffman.Sizes(counts, 16);
    JpegHuffman.CodeIs(counts, i);
    var s, q := lens[i], Refill(j, 16);
    RefillKeeps(j, 16);
    JpegAc.RefilledEnough(j);
    FrontSame(j, q, s);
    FrontIsReceived(q, s);
    JpegHuffman.PrefixIsReceived(q.buf, s);
    JpegHuffman.MatchDecoded(h, counts, q, i);
    ConsumeKeeps(q, s);
    FollowsBoth(j, 0, q, s, Consume(q, s));
  }

  lemma DescribesParts(h: Huffman, counts: seq<nat>)
    requires JpegHuffman.Describes(h, counts)
    ensures Shaped(h) && |counts| == 16 && |JpegHuffman.Sizes(counts, 16)| <= 256
    ensures JpegHuffman.Accepted(JpegHuffman.Sizes(counts, 16))
  {
    hide JpegHuffman.Sizes;
  }

  /** The bits of a coefficient are received and extended. */
  lemma CoefficientRead(j: Jpeg, n: nat)
    requires Clean(j) && 1 <= n <= 15
    ensures var d := ExtendReceive(j, n);
            d.value == Extend(Front(j, n), n) && Clean(d.j) && Follows(j, n, d.j)
  {
    hide Refill, Received, Receive, Consume, Extend, Clean, Follows, Front;
    var q := Refill(j, n);
    RefillKeeps(j, n);
    ReceivedIsExtended(q, n);
    FrontSame(j, q, n);
    FrontIsReceived(q, n);
    ConsumeKeeps(q, n);
    FollowsBoth(j, 0, q, n, Consume(q, n));
  }
}
