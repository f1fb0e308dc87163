/** The zlib bit reader and Huffman decoder of external/stb/stb_image.h on whole streams: the unread input is one
    number, read from its lowest bit, and refilling the bit buffer does not change it. */
module ZStream {
  import opened Words
  import opened Bits
  import C = CanonicalCode
  import opened ZHuffman
  import opened BitReverse

  // ----- Streams as numbers -----

  function LittleEndian(bs: seq<Byte>): nat {
    if bs == [] then 0 else bs[0] + 256 * LittleEndian(bs[1..])
  }

  lemma {:induction false} ShiftLeftAdds(a: nat, b: nat, n: nat)
    ensures ShiftLeft(a + b, n) == ShiftLeft(a, n) + ShiftLeft(b, n)
  {
    if n > 0 {
      ShiftLeftAdds(a, b, n - 1);
    }
  }

  lemma {:induction false} ShiftLeftTwice(a: nat, m: nat, n: nat)
    ensures ShiftLeft(a, m + n) == ShiftLeft(ShiftLeft(a, m), n)
  {
    if n > 0 {
      ShiftLeftTwice(a, m, n - 1);
    }
  }

  lemma ShiftLeftByte(a: nat)
    ensures ShiftLeft(a, 8) == 256 * a
  {
    ShiftLeftValue(a, 8);
    WordPowers();
  }

  /** OR with bits above the buffer's is addition. */
  lemma {:induction false} OrAbove(a: nat, b: nat, n: nat)
    requires a < Pow2(n)
    ensures Or(a, ShiftLeft(b, n)) == a + ShiftLeft(b, n)
    decreases n
  {
    if n > 0 {
      OrStep(a, ShiftLeft(b, n));
      OrAbove(a / 2, b, n - 1);
    }
  }

  lemma {:induction false} LowIsGet(w: nat, s: nat)
    ensures C.Low(w, s) == Get(w, 0, s)
  {
    if s > 0 {
      C.LowFromFirst(w, s);
      LowIsGet(w / 2, s - 1);
    }
  }

  lemma HalfOfSum(a: nat, b: nat, n: nat)
    requires n > 0
    ensures (a + ShiftLeft(b, n)) % 2 == a % 2 && (a + ShiftLeft(b, n)) / 2 == a / 2 + ShiftLeft(b, n - 1)
  {
    var x := ShiftLeft(b, n - 1);
    assert ShiftLeft(b, n) == 2 * x;
    hide ShiftLeft;
    assert a == 2 * (a / 2) + a % 2;
  }

  lemma NoLowBits(w: nat)
    ensures C.Low(w, 0) == 0
  {
  }

  /** Bits above position `n` do not show in the first `s <= n`. */
  lemma {:induction false} LowOfSum(a: nat, b: nat, n: nat, s: nat)
    requires s <= n
    ensures C.Low(a + ShiftLeft(b, n), s) == C.Low(a, s)
    decreases s
  {
    hide C.Low, ShiftLeft;
    if s > 0 {
      HalfOfSum(a, b, n);
      C.LowFromFirst(a + ShiftLeft(b, n), s);
      C.LowFromFirst(a, s);
      LowOfSum(a / 2, b, n - 1, s - 1);
    } else {
      NoLowBits(a + ShiftLeft(b, n));
      NoLowBits(a);
    }
  }

  lemma {:induction false} LowNarrows(a: nat, b: nat, n: nat, s: nat)
    requires s <= n && C.Low(a, n) == C.Low(b, n)
    ensures C.Low(a, s) == C.Low(b, s)
    decreases n
  {
    if s < n {
      C.LowBounded(a, n - 1);
      C.LowBounded(b, n - 1);
      LowNarrows(a, b, n - 1, s);
    }
  }

  lemma PrefixAgrees(a: nat, b: nat, n: nat, s: nat)
    requires s <= n && C.Low(a, n) == C.Low(b, n)
    ensures C.Prefix(a, s) == C.Prefix(b, s)
  {
    LowNarrows(a, b, n, s);
    C.PrefixDecidesLow(a, b, s);
  }

  lemma {:induction false} ShiftRightOfSum(a: nat, b: nat, n: nat, s: nat)
    requires s <= n
    ensures ShiftRight(a + ShiftLeft(b, n), s) == ShiftRight(a, s) + ShiftLeft(b, n - s)
    decreases s
  {
    if s > 0 {
      ShiftRightOfSum(a / 2, b, n - 1, s - 1);
    }
  }

  lemma {:induction false} ShiftRightBounded(a: nat, n: nat, s: nat)
    requires s <= n && a < Pow2(n)
    ensures ShiftRight(a, s) < Pow2(n - s)
    decreases s
  {
    if s > 0 {
      ShiftRightBounded(a / 2, n - 1, s - 1);
    }
  }

  // ----- Decoding facts -----

  /** The preshifted comparison of the slow path. */
  lemma {:induction false} PreshiftedCompare(w: nat, s: nat, n: nat, e: nat)
    ensures C.Prefix(w, s + n) < ShiftLeft(e, n) <==> C.Prefix(w, s) < e
    decreases n
  {
    if n > 0 {
      PreshiftedCompare(w, s, n - 1, e);
    }
  }

  /** If no code of up to `n` bits begins the stream, its prefix is past the end of all those lengths. */
  lemma {:induction false} NoShortMatch(lens: seq<nat>, w: nat, n: nat)
    requires forall i: nat :: i < |lens| && lens[i] <= n ==> !C.Matches(lens, i, w)
    ensures forall t :: 1 <= t <= n ==> C.Prefix(w, t) >= C.EndCode(lens, t)
    decreases n
  {
    hide C.Prefix, C.EndCode, C.Matches;
    if n > 0 {
      NoShortMatch(lens, w, n - 1);
      if C.Prefix(w, n) < C.EndCode(lens, n) {
        assert C.Resolves(lens, w, n);
        var i := C.ResolvedMatches(lens, w, n);
      }
    }
  }

  lemma NoMatchAtAll(lens: seq<nat>, w: nat)
    requires C.Lengths(lens)
    requires forall t :: 1 <= t <= 15 ==> C.Prefix(w, t) >= C.EndCode(lens, t)
    ensures forall i: nat :: !C.Matches(lens, i, w)
  {
    hide C.Prefix, C.EndCode;
    forall i: nat
      ensures !C.Matches(lens, i, w)
    {
      if C.Matches(lens, i, w) {
        C.MatchResolves(lens, i, w);
      }
    }
  }

  /** Matching looks only at the bits of the code. */
  lemma MatchAgrees(lens: seq<nat>, i: nat, a: nat, b: nat, n: nat)
    requires C.Low(a, n) == C.Low(b, n) && i < |lens| && lens[i] <= n
    ensures C.Matches(lens, i, a) <==> C.Matches(lens, i, b)
  {
    PrefixAgrees(a, b, n, lens[i]);
  }

  // ----- Encoding, and the round trip -----

  /** A stream that starts with symbol `i`'s code and continues with `rest`. */
  function EncodeSymbol(lens: seq<nat>, i: nat, rest: nat): nat
    requires i < |lens| && lens[i] > 0
  {
    C.Prefix(C.CodeOf(lens, i), lens[i]) + ShiftLeft(rest, lens[i])
  }

  lemma EncodedMatches(lens: seq<nat>, i: nat, rest: nat)
    requires C.Lengths(lens) && C.Accepted(lens) && i < |lens| && lens[i] > 0
    ensures C.Matches(lens, i, EncodeSymbol(lens, i, rest))
    ensures ShiftRight(EncodeSymbol(lens, i, rest), lens[i]) == rest
  {
    var s, code := lens[i], C.CodeOf(lens, i);
    var p, w := C.Prefix(code, s), EncodeSymbol(lens, i, rest);
    CodeFits(lens, i);
    C.PrefixBounded(code, s);
    LowOfSum(p, rest, s, s);
    C.SmallIsLow(p, s);
    CodeHits(w, code, s);
    ShiftRightOfSum(p, rest, s, s);
    ShiftRightBounded(p, s, s);
  }

  function EncodeSymbols(lens: seq<nat>, syms: seq<nat>, rest: nat): nat
    requires forall k :: 0 <= k < |syms| ==> syms[k] < |lens| && lens[syms[k]] > 0
  {
    if syms == [] then rest else EncodeSymbol(lens, syms[0], EncodeSymbols(lens, syms[1..], rest))
  }

  /** Taking the code off the front of the stream again and again yields these symbols and leaves `rest`. */
  ghost predicate Decodes(lens: seq<nat>, w: nat, syms: seq<nat>, rest: nat)
    decreases |syms|
  {
    if syms == [] then w == rest
    else C.Matches(lens, syms[0], w) && Decodes(lens, ShiftRight(w, lens[syms[0]]), syms[1..], rest)
  }

  /** Every sequence of symbols survives encoding and decoding, whatever follows it. */
  lemma {:induction false} SymbolRoundTrip(lens: seq<nat>, syms: seq<nat>, rest: nat)
    requires C.Lengths(lens) && C.Accepted(lens)
    requires forall k :: 0 <= k < |syms| ==> syms[k] < |lens| && lens[syms[k]] > 0
    ensures Decodes(lens, EncodeSymbols(lens, syms, rest), syms, rest)
    decreases |syms|
  {
    hide EncodeSymbol, C.Matches, C.Accepted;
    if syms != [] {
      EncodedMatches(lens, syms[0], EncodeSymbols(lens, syms[1..], rest));
      SymbolRoundTrip(lens, syms[1..], rest);
    }
  }

  /** A stream decodes to one sequence of a given length only. */
  lemma {:induction false} DecodesOneWay(lens: seq<nat>, w: nat, a: seq<nat>, b: seq<nat>, ra: nat, rb: nat)
    requires Decodes(lens, w, a, ra) && Decodes(lens, w, b, rb) && |a| == |b|
    ensures a == b && ra == rb
    decreases |a|
  {
    if a != [] {
      C.MatchUnique(lens, a[0], b[0], w);
      DecodesOneWay(lens, ShiftRight(w, lens[a[0]]), a[1..], b[1..], ra, rb);
      assert a == [a[0]] + a[1..] && b == [b[0]] + b[1..];
    }
  }

  // ----- The reader -----

  /** The bit count after a refill: whole bytes until there are more than 24 bits. */
  function Filled(n: nat): (r: nat)
    requires n <= 24
    ensures 24 < r <= 32
    decreases 24 - n
  {
    if n + 8 > 24 then n + 8 else Filled(n + 8)
  }

  /** The bit count when `n` bits are wanted. */
  function Topped(x: nat, n: nat): (r: nat)
    requires n <= 16
    ensures r >= n && (x <= 32 ==> r <= 32)
  {
    if x < n then Filled(x) else x
  }

  class ZBuf {
    const input: seq<Byte>
    var pos: nat
    var numBits: nat
    var codeBuffer: nat

    constructor (input: seq<Byte>)
      ensures Valid() && this.input == input && Stream() == LittleEndian(input) && numBits == 0
    {
      this.input := input;
      pos, numBits, codeBuffer := 0, 0, 0;
      new;
      assert input[0..] == input;
      assert ShiftLeft(LittleEndian(input), 0) == LittleEndian(input);
    }

    ghost predicate Valid()
      reads this
    {
      pos <= |input| && numBits <= 32 && codeBuffer < Pow2(numBits)
    }

    /** Everything unread, as one number whose lowest bit comes next. */
    ghost function Stream(): nat
      requires pos <= |input|
      reads this
    {
      codeBuffer + ShiftLeft(LittleEndian(input[pos..]), numBits)
    }

    /** Bits in the buffer and the unread input. */
    ghost function Avail(): int
      reads this
    {
      numBits + 8 * (|input| - pos)
    }

    /** Where the reader stands when a symbol can no longer be decoded: at the end of the input, fewer than sixteen bits
        in the buffer. */
    ghost function Halt(): Option<nat>
      requires pos <= |input|
      reads this
    {
      if pos == |input| && numBits < 16 then Some(Stream()) else None
    }

    method Get8() returns (b: Byte)
      requires pos <= |input|
      modifies this`pos
      ensures pos == if old(pos) < |input| then old(pos) + 1 else old(pos)
      ensures old(LittleEndian(input[pos..])) == b + 256 * LittleEndian(input[pos..])
    {
      if pos >= |input| {
        b := 0;
      } else {
        b := input[pos];
        pos := pos + 1;
        assert input[old(pos)..][1..] == input[pos..];
      }
    }

    /** One byte moved into the buffer: the stream stays the same number. */
    method FillByte()
      requires Valid() && numBits <= 24
      modifies this
      ensures Valid() && numBits == old(numBits) + 8 && Stream() == old(Stream()) && Avail() >= old(Avail())
      ensures pos == if old(pos) < |input| then old(pos) + 1 else old(pos)
    {
      ghost var rest := LittleEndian(input[pos..]);
      var b := Get8();
      ghost var rest' := LittleEndian(input[pos..]);
      hide LittleEndian, ShiftLeft, Or, Pow2;
      OrAbove(codeBuffer, b, numBits);
      ShiftLeftAdds(b, 256 * rest', numBits);
      ShiftLeftByte(rest');
      ShiftLeftTwice(rest', 8, numBits);
      WordPowers();
      ShiftLeftBounded(b, 8, numBits);
      codeBuffer := Or(codeBuffer, ShiftLeft(b, numBits));
      numBits := numBits + 8;
    }

    /** `stbi__fill_bits`. A buffer with stray high bits is treated as the end of the input. */
    method FillBits()
      requires pos <= |input| && numBits <= 24
      modifies this
      ensures pos <= |input|
      ensures old(codeBuffer < Pow2(numBits)) ==>
                Valid() && numBits == Filled(old(numBits)) && Stream() == old(Stream()) && Avail() >= old(Avail())
      ensures pos >= old(pos) && (old(pos) < |input| ==> pos > old(pos))
      ensures pos == |input| || 8 * (pos - old(pos)) == numBits - old(numBits)
      ensures old(codeBuffer >= Pow2(numBits)) ==>
                pos == |input| && codeBuffer == old(codeBuffer) && numBits == old(numBits)
    {
      hide LittleEndian, ShiftLeft;
      var first := true;
      while first || numBits <= 24
        invariant pos <= |input|
        invariant first ==> pos == old(pos) && codeBuffer == old(codeBuffer) && numBits == old(numBits)
        invariant !first ==> old(codeBuffer < Pow2(numBits)) && Valid() && Stream() == old(Stream())
        invariant !first ==> Avail() >= old(Avail()) && pos >= old(pos) && (old(pos) < |input| ==> pos > old(pos))
        invariant pos == |input| || 8 * (pos - old(pos)) == numBits - old(numBits)
        invariant numBits <= 24 ==> Filled(numBits) == Filled(old(numBits))
        invariant numBits > 24 ==> numBits == Filled(old(numBits))
        decreases if first then 1 else 0, 32 - numBits
      {
        if codeBuffer >= Pow2(numBits) {
          pos := |input|;
          return;
        }
        FillByte();
        first := false;
      }
    }

    /** Bits dropped from the front. */
    method Consume(s: nat)
      requires Valid() && s <= numBits
      modifies this`codeBuffer, this`numBits
      ensures Valid() && Stream() == ShiftRight(old(Stream()), s) && numBits == old(numBits) - s
    {
      ShiftRightOfSum(codeBuffer, LittleEndian(input[pos..]), numBits, s);
      ShiftRightBounded(codeBuffer, numBits, s);
      codeBuffer := ShiftRight(codeBuffer, s);
      numBits := numBits - s;
    }

    /** `stbi__zreceive`: the next `n` bits as a number. */
    method Receive(n: nat) returns (k: nat)
      requires Valid() && n <= 16
      modifies this
      ensures Valid() && k == Get(old(Stream()), 0, n) && Stream() == ShiftRight(old(Stream()), n)
      ensures Avail() >= old(Avail()) - n && numBits == Topped(old(numBits), n) - n
      ensures pos >= old(pos) && (pos == old(pos) < |input| ==> numBits == old(numBits) - n)
      ensures pos == |input| || 8 * (pos - old(pos)) == numBits + n - old(numBits)
    {
      hide Get, ShiftLeft, ShiftRight, LittleEndian, C.Low;
      if numBits < n {
        FillBits();
      }
      AndMask(codeBuffer, n);
      LowOfSum(codeBuffer, LittleEndian(input[pos..]), numBits, n);
      LowIsGet(codeBuffer, n);
      LowIsGet(Stream(), n);
      k := And(codeBuffer, Mask(n));
      Consume(n);
    }

    /** `stbi__zhuffman_decode_slowpath`. */
    method DecodeSlow(h: Tables, ghost lens: seq<nat>) returns (sym: int)
      requires Valid() && numBits >= 16 && h.Describe(lens)
      requires forall i: nat :: i < |lens| && lens[i] <= FAST_BITS ==> !C.Matches(lens, i, Stream())
      modifies this`codeBuffer, this`numBits
      ensures Valid()
      ensures sym == -1 ==> Stream() == old(Stream()) && forall i: nat :: !C.Matches(lens, i, Stream())
      ensures sym != -1 ==> 0 <= sym && C.Matches(lens, sym, old(Stream()))
      ensures sym != -1 ==> Stream() == ShiftRight(old(Stream()), lens[sym])
      ensures sym != -1 ==> numBits == old(numBits) - lens[sym]
    {
      hide C.Prefix, C.EndCode, C.FirstCode, C.FirstSymbol, C.CountBefore, C.CountOf, ShiftLeft, ShiftRight, Pow2,
           C.Accepted, FastEntry, C.Low, LittleEndian;
      ghost var w := Stream();
      StreamPrefix();
      NoShortMatch(lens, w, FAST_BITS);
      var k := Reverse(codeBuffer, 16);
      Sentinel(codeBuffer);
      var s := FAST_BITS + 1;
      while k >= h.maxcode[s]
        invariant FAST_BITS < s <= 16 && numBits == old(numBits) && codeBuffer == old(codeBuffer)
        invariant forall t :: 1 <= t < s ==> C.Prefix(w, t) >= C.EndCode(lens, t)
        decreases 16 - s
      {
        PreshiftedCompare(w, s, 16 - s, C.EndCode(lens, s));
        s := s + 1;
      }
      sym := -1;
      if s >= 16 {
        NoMatchAtAll(lens, w);
      } else {
        PreshiftedCompare(w, s, 16 - s, C.EndCode(lens, s));
        assert C.Resolves(lens, w, s);
        ghost var i := C.ResolvedMatches(lens, w, s);
        ShiftedPrefix(codeBuffer, s, 16 - s);
        assert s + (16 - s) == 16 && ShiftRight(k, 16 - s) == C.Prefix(w, s);
        assert C.CodeOf(lens, i) == C.Prefix(w, s);
        var b := ShiftRight(k, 16 - s) - h.firstcode[s] + h.firstsymbol[s];
        assert b == C.Rank(lens, i);
        if 0 <= b < 288 && h.size[b] == s {
          Consume(s);
          sym := h.value[b];
        }
      }
    }

    /** The buffer's first bits are the stream's. */
    lemma StreamPrefix()
      requires Valid() && numBits >= 16
      ensures forall s: nat :: s <= 16 ==> C.Prefix(Stream(), s) == C.Prefix(codeBuffer, s)
      ensures C.Low(Stream(), 16) == C.Low(codeBuffer, 16)
    {
      hide C.Prefix, C.Low, ShiftLeft, LittleEndian;
      LowOfSum(codeBuffer, LittleEndian(input[pos..]), numBits, 16);
      forall s: nat | s <= 16
        ensures C.Prefix(Stream(), s) == C.Prefix(codeBuffer, s)
      {
        PrefixAgrees(Stream(), codeBuffer, 16, s);
      }
    }

    /** `stbi__zhuffman_decode`: at the end of the input it wants sixteen buffered bits; otherwise it returns the
        symbol whose canonical code begins the stream and drops that code, or -1 if there is none. */
    method Decode(h: Tables, ghost lens: seq<nat>) returns (sym: int)
      requires Valid() && h.Describe(lens)
      modifies this
      ensures Valid()
      ensures sym == -1 ==> Stream() == old(Stream())
      ensures old(Halt()).Some? ==> sym == -1 && Halt() == old(Halt())
      ensures old(Halt()).None? ==>
                (sym == -1 <==> forall i: nat :: !C.Matches(lens, i, old(Stream())))
      ensures sym != -1 ==> 0 <= sym && C.Matches(lens, sym, old(Stream()))
      ensures sym != -1 ==> Stream() == ShiftRight(old(Stream()), lens[sym])
      ensures sym != -1 ==> Avail() >= old(Avail()) - lens[sym] && numBits == Topped(old(numBits), 16) - lens[sym]
      ensures pos >= old(pos)
      ensures sym != -1 && pos == old(pos) < |input| ==> numBits == old(numBits) - lens[sym]
    {
      hide C.Prefix, C.Low, C.Matches, C.Accepted, FastEntry, ShiftRight, ShiftLeft, LittleEndian, And, Pow2;
      sym := -1;
      if numBits < 16 {
        if pos >= |input| {
          return;
        }
        FillBits();
      }
      ghost var w := Stream();
      StreamPrefix();
      var x := And(codeBuffer, FAST_SIZE - 1);
      FastIndex(codeBuffer, w);
      var b := h.fast[x];
      FastEntryMeans(lens, |lens|, x);
      ghost var i := b % FAST_SIZE;
      if b != 0 {
        var s := b / FAST_SIZE;
        MatchAgrees(lens, i, x, w, FAST_BITS);
        Consume(s);
        sym := b % FAST_SIZE;
      } else {
        forall i: nat | i < |lens| && lens[i] <= FAST_BITS
          ensures !C.Matches(lens, i, w)
        {
          MatchAgrees(lens, i, x, w, FAST_BITS);
        }
        sym := DecodeSlow(h, lens);
      }
    }
  }

  lemma Sentinel(w: nat)
    ensures C.Prefix(w, 16) < 0x10000
  {
    C.PrefixBounded(w, 16);
    WordPowers();
  }

  /** The fast index keeps the stream's first nine bits. */
  lemma FastIndex(buffer: nat, w: nat)
    requires C.Low(w, 16) == C.Low(buffer, 16)
    ensures And(buffer, FAST_SIZE - 1) < FAST_SIZE
    ensures C.Low(And(buffer, FAST_SIZE - 1), FAST_BITS) == C.Low(w, FAST_BITS)
  {
    hide C.Low, And, Get;
    assert Pow2(9) == 512 by { WordPowers(); }
    AndMask(buffer, 9);
    LowIsGet(buffer, 9);
    C.LowBounded(buffer, 9);
    C.SmallIsLow(C.Low(buffer, 9), 9);
    LowNarrows(w, buffer, 16, 9);
  }
}
