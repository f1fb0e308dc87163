/** The AC coefficients of a block, encoded as section F.1.2.2 of ITU-T T.81 prescribes, are what the loop of
    `stbi__jpeg_decode_block` in external/stb/stb_image.h reads back. */
module JpegRoundTrip {
  import opened Words
  import opened Bits
  import opened JpegBits
  import opened JpegModel
  import opened JpegStream
  import opened JpegZigzag
  import JpegAc
  import JpegHuffman

  // ----- The encoder -----

  /** A coefficient behind `run` zeros. */
  datatype Coef = Coef(run: nat, v: int)

  /** The `n` low bits of a number, highest first. */
  ghost function BitsOf(v: nat, n: nat): (s: seq<nat>)
    ensures |s| == n
  {
    if n == 0 then [] else BitsOf(v / 2, n - 1) + [v % 2]
  }

  ghost function Magnitude(v: int): nat {
    if v < 0 then -v else v
  }

  /** Bits of a magnitude: the category of the coefficient. */
  ghost function Category(n: nat): nat {
    if n == 0 then 0 else 1 + Category(n / 2)
  }

  ghost function SizeOf(v: int): nat {
    Category(Magnitude(v))
  }

  /** The bits behind the symbol: a positive value itself, a negative one less one in as many bits. */
  ghost function Offset(v: int): int {
    if v > 0 then v else v + Pow2(SizeOf(v)) - 1
  }

  /** Code of the symbol at index `i` of the table. */
  ghost function SymbolBits(counts: seq<nat>, i: nat): seq<nat>
    requires |counts| == 16 && i < |JpegHuffman.Sizes(counts, 16)|
  {
    BitsOf(CodeWord(counts, i), CodeLength(counts, i))
  }

  /** Index `i` of the table stands for symbol `rs`, and is not the one index the decoder cannot name. */
  ghost predicate Usable(h: Huffman, counts: seq<nat>, i: nat, rs: nat) {
    && |counts| == 16 && |h.values| == 256 && i < 256 && i < |JpegHuffman.Sizes(counts, 16)|
    && h.values[i] == rs && (i < 255 || CodeLength(counts, i) > 9)
  }

  ghost function RunSize(c: Coef): nat {
    16 * c.run + SizeOf(c.v)
  }

  /** Sixteen zeros fewer before the first coefficient. */
  ghost function Later(coefs: seq<Coef>): seq<Coef>
    requires coefs != [] && coefs[0].run >= 16
  {
    [Coef(coefs[0].run - 16, coefs[0].v)] + coefs[1..]
  }

  ghost function FirstRun(coefs: seq<Coef>): nat {
    if coefs == [] then 0 else coefs[0].run
  }

  /** The coefficients fit in the block from place `k` on and the table has the symbols they need; `sym` gives the index
      of each symbol. */
  ghost predicate Codable(h: Huffman, counts: seq<nat>, sym: nat -> nat, coefs: seq<Coef>, k: nat)
    decreases |coefs|, FirstRun(coefs)
  {
    if coefs == [] then k <= 64 && (k < 64 ==> Usable(h, counts, sym(0), 0))
    else
      var c := coefs[0];
      && c.v != 0 && SizeOf(c.v) <= 15 && k + c.run < 64
      && if c.run >= 16 then
           Usable(h, counts, sym(0xF0), 0xF0) && Codable(h, counts, sym, Later(coefs), k + 16)
         else
           Usable(h, counts, sym(RunSize(c)), RunSize(c)) && Codable(h, counts, sym, coefs[1..], k + c.run + 1)
  }

  /** The bits of the block: 0xF0 for each sixteen zeros before a coefficient, run and category with the coefficient's
      bits, and the end-of-block symbol unless the last place is taken. */
  ghost function Encode(h: Huffman, counts: seq<nat>, sym: nat -> nat, coefs: seq<Coef>, k: nat): seq<nat>
    requires Codable(h, counts, sym, coefs, k)
    decreases |coefs|, FirstRun(coefs)
  {
    if coefs == [] then if k < 64 then SymbolBits(counts, sym(0)) else []
    else
      var c := coefs[0];
      if c.run >= 16 then SymbolBits(counts, sym(0xF0)) + Encode(h, counts, sym, Later(coefs), k + 16)
      else
        CoefBits(counts, sym(RunSize(c)), c) + Encode(h, counts, sym, coefs[1..], k + c.run + 1)
  }

  /** A coefficient's symbol and bits. */
  ghost function CoefBits(counts: seq<nat>, i: nat, c: Coef): seq<nat>
    requires |counts| == 16 && i < |JpegHuffman.Sizes(counts, 16)| && c.v != 0
  {
    SizeFits(c.v);
    SymbolBits(counts, i) + BitsOf(Offset(c.v), SizeOf(c.v))
  }

  lemma CoefUnfolds(h: Huffman, counts: seq<nat>, sym: nat -> nat, coefs: seq<Coef>, k: nat)
    requires Codable(h, counts, sym, coefs, k) && coefs != [] && coefs[0].run < 16
    ensures var c := coefs[0];
            && c.v != 0 && SizeOf(c.v) <= 15 && k + c.run < 64 && Usable(h, counts, sym(RunSize(c)), RunSize(c))
            && Codable(h, counts, sym, coefs[1..], k + c.run + 1)
            && |counts| == 16 && sym(RunSize(c)) < |JpegHuffman.Sizes(counts, 16)|
            && |CoefBits(counts, sym(RunSize(c)), c)| == |SymbolBits(counts, sym(RunSize(c)))| + SizeOf(c.v)
            && Encode(h, counts, sym, coefs, k) ==
               CoefBits(counts, sym(RunSize(c)), c) + Encode(h, counts, sym, coefs[1..], k + c.run + 1)
  {
    hide SymbolBits, BitsOf, SizeOf, Offset, CodeLength;
  }

  lemma {:induction false} CategoryFits(n: nat)
    ensures n < Pow2(Category(n)) && (n > 0 ==> Category(n) >= 1 && Pow2(Category(n) - 1) <= n)
  {
    if n > 1 {
      CategoryFits(n / 2);
    }
  }

  lemma SizeFits(v: int)
    requires v != 0
    ensures SizeOf(v) >= 1 && 0 <= Offset(v) < Pow2(SizeOf(v)) && Extend(Offset(v), SizeOf(v)) == v
  {
    hide Category, Pow2;
    CategoryFits(Magnitude(v));
    PowerStep(SizeOf(v));
  }

  lemma PowerStep(n: nat)
    requires n >= 1
    ensures Pow2(n) == 2 * Pow2(n - 1)
  {
  }

  // ----- Where the coefficients belong -----

  /** The coefficient counted to place `n` of the walk, if any, when the first one is counted from `k`. */
  ghost function ValueAt(coefs: seq<Coef>, k: nat, n: nat): Option<int> {
    if coefs == [] then None
    else if n < k + coefs[0].run then None
    else if n == k + coefs[0].run then Some(coefs[0].v)
    else ValueAt(coefs[1..], k + coefs[0].run + 1, n)
  }

  /** Each coefficient times its quantiser at the place of the diagonal walk its runs count to, every other place as it
      was. */
  ghost predicate Placed(out: seq<int>, data: seq<int>, coefs: seq<Coef>, k: nat, dequant: seq<nat>) {
    && |out| == |data| == |dequant| == 64
    && forall n: nat :: n < 64 ==> PlacedAt(out, data, coefs, k, dequant, n)
  }

  ghost predicate PlacedAt(out: seq<int>, data: seq<int>, coefs: seq<Coef>, k: nat, dequant: seq<nat>, n: nat)
    requires |out| == |data| == |dequant| == 64
  {
    var p := PlaceOf(Walk(n));
    p < 64 && out[p] == match ValueAt(coefs, k, n)
                        case None => data[p]
                        case Some(v) => ToShort(v * dequant[p])
  }

  /** The cast keeps what fits in sixteen bits and is congruent to the rest. */
  lemma ShortKeeps(v: int)
    ensures -0x8000 <= ToShort(v) < 0x8000 && (v - ToShort(v)) % 0x1_0000 == 0
    ensures -0x8000 <= v < 0x8000 ==> ToShort(v) == v
  {
  }

  lemma WalkPlaces(n: nat, m: nat)
    requires n < 64 && m < 64
    ensures PlaceOf(Walk(n)) < 64 && |ZIGZAG| == 79 && ZIGZAG[n] == PlaceOf(Walk(n))
    ensures PlaceOf(Walk(n)) == PlaceOf(Walk(m)) <==> n == m
  {
    hide Walk, PlaceOf, Index, ZIGZAG;
    ZigzagIsWalk(n);
    WalkCounts(n);
    WalkCounts(m);
    CellPlace(Walk(n));
    CellPlace(Walk(m));
  }

  lemma NothingPlaced(data: seq<int>, k: nat, dequant: seq<nat>)
    requires |data| == |dequant| == 64
    ensures Placed(data, data, [], k, dequant)
  {
    hide Walk, PlaceOf;
    forall n: nat | n < 64
      ensures PlacedAt(data, data, [], k, dequant, n)
    {
      WalkPlaces(n, n);
    }
  }

  lemma LaterPlaced(out: seq<int>, data: seq<int>, coefs: seq<Coef>, k: nat, dequant: seq<nat>)
    requires coefs != [] && coefs[0].run >= 16 && Placed(out, data, Later(coefs), k + 16, dequant)
    ensures Placed(out, data, coefs, k, dequant)
  {
    hide Walk, PlaceOf;
    assert Later(coefs)[1..] == coefs[1..];
    forall n: nat | n < 64
      ensures PlacedAt(out, data, coefs, k, dequant, n)
    {
      assert PlacedAt(out, data, Later(coefs), k + 16, dequant, n);
      assert ValueAt(Later(coefs), k + 16, n) == ValueAt(coefs, k, n);
    }
  }

  lemma FirstPlaced(out: seq<int>, data: seq<int>, coefs: seq<Coef>, k: nat, dequant: seq<nat>)
    requires coefs != [] && k + coefs[0].run < 64 && |data| == |dequant| == 64
    requires Placed(out, Store(data, k + coefs[0].run, coefs[0].v, dequant), coefs[1..], k + coefs[0].run + 1, dequant)
    ensures Placed(out, data, coefs, k, dequant)
  {
    hide Walk, PlaceOf, ZIGZAG, ToShort;
    var at, v, rest := k + coefs[0].run, coefs[0].v, coefs[1..];
    var stored := Store(data, at, v, dequant);
    forall n: nat | n < 64
      ensures PlacedAt(out, data, coefs, k, dequant, n)
    {
      assert PlacedAt(out, stored, rest, at + 1, dequant, n);
      WalkPlaces(at, n);
      WalkPlaces(n, at);
      assert n <= at ==> ValueAt(rest, at + 1, n) == None;
    }
  }

  // ----- Reading the bits back -----

  /** The unread bits begin with `es`. */
  ghost predicate Spelled(j: Jpeg, es: seq<nat>) {
    forall i: nat :: i < |es| ==> Unread(j, i) == es[i]
  }

  lemma SpelledFront(j: Jpeg, a: seq<nat>, b: seq<nat>)
    requires Spelled(j, a + b)
    ensures Spelled(j, a)
  {
    hide Unread;
    forall i: nat | i < |a|
      ensures Unread(j, i) == a[i]
    {
      assert Unread(j, i) == (a + b)[i];
    }
  }

  lemma SpelledRest(j: Jpeg, a: seq<nat>, b: seq<nat>, q: Jpeg)
    requires Spelled(j, a + b) && Follows(j, |a|, q)
    ensures Spelled(q, b)
  {
    hide Unread;
    forall i: nat | i < |b|
      ensures Unread(q, i) == b[i]
    {
      assert Unread(q, i) == Unread(j, |a| + i);
      assert (a + b)[|a| + i] == b[i];
    }
  }

  lemma SpelledSame(j: Jpeg, es: seq<nat>, q: Jpeg)
    requires Spelled(j, es) && Follows(j, 0, q)
    ensures Spelled(q, es)
  {
    assert [] + es == es;
    SpelledRest(j, [], es, q);
  }

  lemma {:induction false} BitsAreFront(j: Jpeg, v: nat, n: nat)
    requires Spelled(j, BitsOf(v, n)) && v < Pow2(n)
    ensures Front(j, n) == v
  {
    hide Unread;
    if n > 0 {
      SpelledFront(j, BitsOf(v / 2, n - 1), [v % 2]);
      BitsAreFront(j, v / 2, n - 1);
      assert Unread(j, n - 1) == BitsOf(v, n)[n - 1];
    }
  }

  /** A usable symbol at the front is decoded. */
  lemma SymbolBack(j: Jpeg, h: Huffman, counts: seq<nat>, i: nat, rs: nat)
    requires JpegHuffman.Describes(h, counts) && Usable(h, counts, i, rs) && Clean(j) && (j.bits >= 16 || j.nomore)
    requires Spelled(j, SymbolBits(counts, i))
    ensures Shaped(h)
    ensures var d := HuffDecode(j, h); d.value == rs && Clean(d.j) && Follows(j, |SymbolBits(counts, i)|, d.j)
  {
    hide JpegHuffman.Describes, JpegHuffman.Sizes, BitsOf, Front, Clean, Follows, HuffDecode, Spelled, CodeWord,
         CodeLength, Pow2;
    CodeWordFits(h, counts, i);
    BitsAreFront(j, CodeWord(counts, i), CodeLength(counts, i));
    SymbolRead(j, h, counts, i);
  }

  lemma CodeWordFits(h: Huffman, counts: seq<nat>, i: nat)
    requires JpegHuffman.Describes(h, counts) && |counts| == 16 && i < |JpegHuffman.Sizes(counts, 16)|
    ensures CodeWord(counts, i) < Pow2(CodeLength(counts, i))
  {
    hide JpegHuffman.Sizes, Pow2;
    DescribesParts(h, counts);
    JpegHuffman.CodeBelow(counts, i);
  }

  /** One round of the loop, refill included, for each kind of symbol. */
  lemma EndBack(j: Jpeg, h: Huffman, counts: seq<nat>, i: nat, rs: nat)
    requires JpegHuffman.Describes(h, counts) && Usable(h, counts, i, rs) && rs in {0, 0xF0} && Clean(j)
    requires Spelled(j, SymbolBits(counts, i))
    ensures Shaped(h)
    ensures var s := OneStep(Refill(j, 16), h, []);
            (if rs == 0 then s.End? else s.Skip?) && Clean(s.j) && Follows(j, |SymbolBits(counts, i)|, s.j)
  {
    hide JpegHuffman.Describes, SymbolBits, Clean, Follows, HuffDecode, Spelled, CodeLength, JpegHuffman.Sizes, Refill;
    var q := Refill(j, 16);
    RefillKeeps(j, 16);
    SpelledSame(j, SymbolBits(counts, i), q);
    SymbolBack(q, h, counts, i, rs);
    FollowsBoth(j, 0, q, |SymbolBits(counts, i)|, HuffDecode(q, h).j);
  }

  lemma CoefBack(j: Jpeg, h: Huffman, counts: seq<nat>, i: nat, c: Coef)
    requires JpegHuffman.Describes(h, counts) && Clean(j)
    requires c.run < 16 && c.v != 0 && SizeOf(c.v) <= 15 && Usable(h, counts, i, RunSize(c))
    requires Spelled(j, CoefBits(counts, i, c))
    ensures Shaped(h)
    ensures var s := OneStep(Refill(j, 16), h, []);
            && s.Coefficient? && s.run == c.run && s.v == c.v
            && Clean(s.j) && Follows(j, |SymbolBits(counts, i)| + SizeOf(c.v), s.j)
  {
    hide JpegHuffman.Describes, SymbolBits, Clean, Follows, HuffDecode, Spelled, CodeLength, JpegHuffman.Sizes, Refill,
         BitsOf, SizeOf, Offset, ExtendReceive, Extend, Front, Pow2;
    SizeFits(c.v);
    var a, b, n := SymbolBits(counts, i), BitsOf(Offset(c.v), SizeOf(c.v)), SizeOf(c.v);
    var q := Refill(j, 16);
    RefillKeeps(j, 16);
    SpelledSame(j, a + b, q);
    SpelledFront(q, a, b);
    SymbolBack(q, h, counts, i, RunSize(c));
    var r := HuffDecode(q, h).j;
    SpelledRest(q, a, b, r);
    BitsAreFront(r, Offset(c.v), n);
    CoefficientRead(r, n);
    FollowsBoth(j, 0, q, |a|, r);
    FollowsBoth(j, |a|, r, n, ExtendReceive(r, n).j);
  }

  // ----- The block -----

  /** What reading an encoded block must give. */
  ghost predicate ReadsBack(b: Block, j: Jpeg, n: nat, data: seq<int>, coefs: seq<Coef>, k: nat, dequant: seq<nat>) {
    b.Done? && Clean(b.j) && Follows(j, n, b.j) && Placed(b.data, data, coefs, k, dequant)
  }

  /** For any table a builder describes, any coefficients it can code, any reader and anything behind them: the loop
      reads the coefficients to their places and stops exactly behind their bits. */
  lemma {:induction false} BlockRoundTrip(j: Jpeg, k: nat, data: seq<int>, h: Huffman, counts: seq<nat>,
                                          sym: nat -> nat, coefs: seq<Coef>, dequant: seq<nat>)
    requires JpegHuffman.Describes(h, counts) && Clean(j) && |data| == |dequant| == 64 && k < 64
    requires Codable(h, counts, sym, coefs, k) && Spelled(j, Encode(h, counts, sym, coefs, k))
    ensures Shaped(h)
    ensures ReadsBack(AcLoop(j, k, data, h, [], dequant), j, |Encode(h, counts, sym, coefs, k)|, data, coefs, k,
                      dequant)
    decreases |coefs|, FirstRun(coefs), 1
  {
    hide JpegHuffman.Describes, SymbolBits, Clean, Follows, Spelled, CodeLength, JpegHuffman.Sizes, Refill, BitsOf,
         SizeOf, Offset, OneStep, Store, Placed;
    if coefs == [] {
      EndBack(j, h, counts, sym(0), 0);
      NothingPlaced(data, k, dequant);
    } else if coefs[0].run >= 16 {
      var a, b := SymbolBits(counts, sym(0xF0)), Encode(h, counts, sym, Later(coefs), k + 16);
      SpelledFront(j, a, b);
      EndBack(j, h, counts, sym(0xF0), 0xF0);
      var q := OneStep(Refill(j, 16), h, []).j;
      SpelledRest(j, a, b, q);
      BlockRoundTrip(q, k + 16, data, h, counts, sym, Later(coefs), dequant);
      var out := AcLoop(q, k + 16, data, h, [], dequant);
      FollowsBoth(j, |a|, q, |b|, out.j);
      LaterPlaced(out.data, data, coefs, k, dequant);
    } else {
      CoefRoundTrip(j, k, data, h, counts, sym, coefs, dequant);
    }
  }

  /** The round that reads the first coefficient, and the reader behind it. */
  lemma CoefRound(j: Jpeg, k: nat, h: Huffman, counts: seq<nat>, sym: nat -> nat, coefs: seq<Coef>)
      returns (q: Jpeg, m: nat)
    requires JpegHuffman.Describes(h, counts) && Clean(j) && coefs != [] && coefs[0].run < 16
    requires Codable(h, counts, sym, coefs, k) && Spelled(j, Encode(h, counts, sym, coefs, k))
    ensures Shaped(h) && k + coefs[0].run < 64 && Codable(h, counts, sym, coefs[1..], k + coefs[0].run + 1)
    ensures OneStep(Refill(j, 16), h, []) == Coefficient(q, coefs[0].run, coefs[0].v)
    ensures var rest := Encode(h, counts, sym, coefs[1..], k + coefs[0].run + 1);
            Spelled(q, rest) && |Encode(h, counts, sym, coefs, k)| == m + |rest|
    ensures Clean(q) && Follows(j, m, q)
  {
    hide JpegHuffman.Describes, SymbolBits, Clean, Follows, Spelled, Usable, Refill, SizeOf, OneStep, Codable, Encode,
         CoefBits, Shaped, RunSize, JpegHuffman.Sizes;
    var c := coefs[0];
    var i := sym(RunSize(c));
    CoefUnfolds(h, counts, sym, coefs, k);
    var a, rest := CoefBits(counts, i, c), Encode(h, counts, sym, coefs[1..], k + c.run + 1);
    SpelledFront(j, a, rest);
    CoefBack(j, h, counts, i, c);
    q, m := OneStep(Refill(j, 16), h, []).j, |a|;
    SpelledRest(j, a, rest, q);
  }

  lemma CoefRoundTrip(j: Jpeg, k: nat, data: seq<int>, h: Huffman, counts: seq<nat>, sym: nat -> nat,
                      coefs: seq<Coef>, dequant: seq<nat>)
    requires JpegHuffman.Describes(h, counts) && Clean(j) && |data| == |dequant| == 64 && k < 64
    requires Codable(h, counts, sym, coefs, k) && Spelled(j, Encode(h, counts, sym, coefs, k))
    requires coefs != [] && coefs[0].run < 16
    ensures Shaped(h)
    ensures ReadsBack(AcLoop(j, k, data, h, [], dequant), j, |Encode(h, counts, sym, coefs, k)|, data, coefs, k,
                      dequant)
    decreases |coefs|, FirstRun(coefs), 0
  {
    hide JpegHuffman.Describes, Clean, Follows, Spelled, Refill, OneStep, Store, Placed, AcLoop, Codable, Encode,
         Shaped, FirstRun, ReadsBack;
    var c := coefs[0];
    var q, m := CoefRound(j, k, h, counts, sym, coefs);
    CoefLoop(j, k, data, h, dequant);
    var stored, next := Store(data, k + c.run, c.v, dequant), k + c.run + 1;
    if next < 64 {
      BlockRoundTrip(q, next, stored, h, counts, sym, coefs[1..], dequant);
    } else {
      LastCoef(h, counts, sym, coefs[1..], next);
      CoefLast(q, stored, dequant);
    }
    CoefBefore(if next < 64 then AcLoop(q, next, stored, h, [], dequant) else Done(q, stored), j, m, q,
               |Encode(h, counts, sym, coefs[1..], next)|, data, coefs, k, dequant);
  }

  lemma CoefLast(q: Jpeg, stored: seq<int>, dequant: seq<nat>)
    requires Clean(q) && |stored| == |dequant| == 64
    ensures forall k: nat :: ReadsBack(Done(q, stored), q, 0, stored, [], k, dequant)
  {
    hide Clean, Unread, Placed;
    forall k: nat
      ensures Placed(stored, stored, [], k, dequant)
    {
      NothingPlaced(stored, k, dequant);
    }
  }

  /** What is read behind the first coefficient, seen from before it. */
  lemma CoefBefore(out: Block, j: Jpeg, m: nat, q: Jpeg, n: nat, data: seq<int>, coefs: seq<Coef>, k: nat,
                   dequant: seq<nat>)
    requires coefs != [] && k + coefs[0].run < 64 && |data| == |dequant| == 64 && Follows(j, m, q)
    requires ReadsBack(out, q, n, Store(data, k + coefs[0].run, coefs[0].v, dequant), coefs[1..], k + coefs[0].run + 1,
                       dequant)
    ensures ReadsBack(out, j, m + n, data, coefs, k, dequant)
  {
    hide Clean, Follows, Placed, Store;
    FollowsBoth(j, m, q, n, out.j);
    FirstPlaced(out.data, data, coefs, k, dequant);
  }

  lemma CoefLoop(j: Jpeg, k: nat, data: seq<int>, h: Huffman, dequant: seq<nat>)
    requires Shaped(h) && |data| == |dequant| == 64 && k < 64
    ensures var s := OneStep(Refill(j, 16), h, []);
            s.Coefficient? && k + s.run < 64 ==>
            var stored, next := Store(data, k + s.run, s.v, dequant), k + s.run + 1;
            AcLoop(j, k, data, h, [], dequant) ==
            if next < 64 then AcLoop(s.j, next, stored, h, [], dequant) else Done(s.j, stored)
  {
    hide OneStep, Refill, Store, Shaped;
  }

  /** Behind the last place nothing is coded. */
  lemma LastCoef(h: Huffman, counts: seq<nat>, sym: nat -> nat, coefs: seq<Coef>, k: nat)
    requires Codable(h, counts, sym, coefs, k) && k >= 64
    ensures coefs == [] && Encode(h, counts, sym, coefs, k) == []
  {
  }

  // ----- From the bytes of the file -----

  /** Entropy-coded bytes as they are stored: a zero behind every 0xFF (section B.1.1.5 of ITU-T T.81). */
  ghost function Stuffed(bytes: seq<Byte>): seq<Byte> {
    if bytes == [] then [] else Escaped(bytes[0]) + Stuffed(bytes[1..])
  }

  ghost function Escaped(b: Byte): seq<Byte> {
    if b == 0xFF then [0xFF, 0] else [b]
  }

  lemma StuffedSplits(bytes: seq<Byte>, behind: seq<Byte>)
    requires bytes != []
    ensures Stuffed(bytes) + behind == Escaped(bytes[0]) + (Stuffed(bytes[1..]) + behind)
  {
    hide Escaped;
  }

  lemma PullPlain(data: seq<Byte>, pos: nat)
    requires pos < |data| && data[pos] != 0xFF
    ensures Pull(data, pos) == Gives(data[pos], pos + 1)
  {
  }

  lemma PullEscaped(data: seq<Byte>, pos: nat)
    requires pos + 1 < |data| && data[pos] == 0xFF && data[pos + 1] == 0
    ensures Pull(data, pos) == Gives(0xFF, pos + 2)
  {
  }

  lemma Advanced(data: seq<Byte>, pos: nat, first: seq<Byte>, rest: seq<Byte>)
    requires pos <= |data| && data[pos..] == first + rest
    ensures pos + |first| <= |data| && data[pos + |first|..] == rest
    ensures forall i :: 0 <= i < |first| ==> data[pos + i] == first[i]
  {
    assert |data| - pos == |first| + |rest|;
    forall i | 0 <= i < |first|
      ensures data[pos + i] == first[i]
    {
      assert data[pos + i] == data[pos..][i];
    }
    assert data[pos + |first|..] == data[pos..][|first|..];
  }

  lemma PullStuffed(data: seq<Byte>, pos: nat, bytes: seq<Byte>, behind: seq<Byte>)
    requires pos <= |data| && data[pos..] == Stuffed(bytes) + behind && bytes != []
    ensures var next := pos + if bytes[0] == 0xFF then 2 else 1;
            && Pull(data, pos) == Gives(bytes[0], next)
            && next <= |data| && data[next..] == Stuffed(bytes[1..]) + behind
  {
    hide Pull, Stuffed;
    var first := Escaped(bytes[0]);
    StuffedSplits(bytes, behind);
    Advanced(data, pos, first, Stuffed(bytes[1..]) + behind);
    assert data[pos + 0] == first[0];
    if bytes[0] == 0xFF {
      assert data[pos + 1] == first[1];
      PullEscaped(data, pos);
    } else {
      PullPlain(data, pos);
    }
  }

  /** Bit `i` of a byte string, top bit of each byte first. */
  ghost function ByteBit(bytes: seq<Byte>, i: nat): nat
    requires i < 8 * |bytes|
  {
    Bit(8, bytes[i / 8], i % 8)
  }

  /** Unstuffing gives the bytes back. */
  lemma {:induction false} StuffedBits(data: seq<Byte>, pos: nat, bytes: seq<Byte>, behind: seq<Byte>, i: nat)
    requires pos <= |data| && data[pos..] == Stuffed(bytes) + behind && i < 8 * |bytes|
    ensures DataBit(data, pos, i) == ByteBit(bytes, i)
    decreases i
  {
    hide Bit, Stuffed, Pull;
    PullStuffed(data, pos, bytes, behind);
    if i >= 8 {
      StuffedBits(data, pos + if bytes[0] == 0xFF then 2 else 1, bytes[1..], behind, i - 8);
      assert bytes[1..][(i - 8) / 8] == bytes[i / 8];
    }
  }

  /** The reader at the start of a scan. */
  ghost function Fresh(data: seq<Byte>, pos: nat): Jpeg {
    Jpeg(data, pos, 0, 0, false, 0xFF)
  }

  lemma FreshIsClean(data: seq<Byte>, pos: nat)
    ensures Clean(Fresh(data, pos))
  {
    forall k: nat | k < 32
      ensures Bit(32, 0, k) == 0
    {
      ZeroShifted(31 - k);
    }
  }

  /** From the file to the block, with the combined table: any bytes that begin with the encoding, stuffed anywhere in
      the data and followed by anything, give the coefficients at their places. */
  lemma FileRoundTrip(data: seq<Byte>, pos: nat, bytes: seq<Byte>, behind: seq<Byte>, block: seq<int>, h: Huffman,
                      fac: seq<int>, counts: seq<nat>, sym: nat -> nat, coefs: seq<Coef>, dequant: seq<nat>)
    requires JpegHuffman.Describes(h, counts) && JpegAc.IsFastAc(h, fac) && |block| == |dequant| == 64
    requires Codable(h, counts, sym, coefs, 1)
    requires var es := Encode(h, counts, sym, coefs, 1);
             |es| <= 8 * |bytes| && forall i: nat :: i < |es| ==> ByteBit(bytes, i) == es[i]
    requires pos <= |data| && data[pos..] == Stuffed(bytes) + behind
    ensures var b := AcLoop(Fresh(data, pos), 1, block, h, fac, dequant);
            b.Done? && Placed(b.data, block, coefs, 1, dequant)
  {
    hide JpegHuffman.Describes, JpegAc.IsFastAc, Codable, Encode, Stuffed, ByteBit, DataBit, Clean, Follows, Placed,
         AcLoop;
    var j, es := Fresh(data, pos), Encode(h, counts, sym, coefs, 1);
    forall i: nat | i < |es|
      ensures Unread(j, i) == es[i]
    {
      StuffedBits(data, pos, bytes, behind, i);
    }
    FreshIsClean(data, pos);
    BlockRoundTrip(j, 1, block, h, counts, sym, coefs, dequant);
    FastSize(h, fac);
    JpegAc.BlocksAlike(j, j, 1, block, h, fac, dequant);
  }

  lemma FastSize(h: Huffman, fac: seq<int>)
    requires JpegAc.IsFastAc(h, fac)
    ensures Shaped(h) && |fac| == 512
  {
  }
}
