/** The JPEG Huffman tables of external/stb/stb_image.h: `stbi__build_huffman` and `stbi__jpeg_huff_decode` against the
    canonical code of Annex C of ITU-T T.81 (the code of CanonicalCode, on lengths in increasing order). */
module JpegHuffman {
  import opened Words
  import opened Bits
  import opened JpegBits
  import opened JpegModel
  import C = CanonicalCode

  // ----- Code lengths from counts -----

  /** Symbols shorter than `s` bits. */
  ghost function Start(counts: seq<nat>, s: nat): nat
    requires 1 <= s <= |counts| + 1
  {
    if s == 1 then 0 else Start(counts, s - 1) + counts[s - 2]
  }

  /** The lengths up to `s` bits, shortest first. */
  ghost function Sizes(counts: seq<nat>, s: nat): (lens: seq<nat>)
    requires s <= |counts|
    ensures |lens| == Start(counts, s + 1)
  {
    if s == 0 then [] else Sizes(counts, s - 1) + seq(counts[s - 1], _ => s)
  }

  lemma {:induction false} StartMonotone(counts: seq<nat>, s: nat, t: nat)
    requires 1 <= s <= t <= |counts| + 1
    ensures Start(counts, s) <= Start(counts, t)
  {
    if s < t {
      StartMonotone(counts, s, t - 1);
    }
  }

  /** Position `i` has length `s` exactly when it lies in that length's stretch. */
  lemma {:induction false} SizeAt(counts: seq<nat>, t: nat, i: nat, s: nat)
    requires t <= |counts| && i < |Sizes(counts, t)| && 1 <= s <= t
    ensures Sizes(counts, t)[i] == s <==> Start(counts, s) <= i < Start(counts, s + 1)
    ensures 1 <= Sizes(counts, t)[i] <= t
    decreases t
  {
    StartMonotone(counts, s + 1, t + 1);
    if i < Start(counts, t) {
      if t > 1 {
        SizeAt(counts, t - 1, i, if s < t then s else t - 1);
      }
    } else if s < t {
      StartMonotone(counts, s + 1, t);
    }
  }

  lemma {:induction false} CountIs(counts: seq<nat>, s: nat, n: nat)
    requires 1 <= s <= |counts| && n <= |Sizes(counts, |counts|)|
    ensures C.CountBefore(Sizes(counts, |counts|), s, n) ==
            if n <= Start(counts, s) then 0
            else if n <= Start(counts, s + 1) then n - Start(counts, s)
            else counts[s - 1]
    decreases n
  {
    if n > 0 {
      CountIs(counts, s, n - 1);
      SizeAt(counts, |counts|, n - 1, s);
    }
  }

  lemma CountOfIs(counts: seq<nat>, s: nat)
    requires 1 <= s <= |counts|
    ensures C.CountOf(Sizes(counts, |counts|), s) == counts[s - 1]
  {
    hide Sizes, C.CountBefore;
    StartMonotone(counts, s + 1, |counts| + 1);
    assert Start(counts, s + 1) == Start(counts, s) + counts[s - 1];
    hide Start;
    CountIs(counts, s, |Sizes(counts, |counts|)|);
  }

  /** In a sorted list a code is its length's first code plus the distance from the first symbol of that length. */
  lemma CodeIs(counts: seq<nat>, i: nat)
    requires i < |Sizes(counts, |counts|)|
    ensures var lens := Sizes(counts, |counts|);
            && 1 <= lens[i] <= |counts| && Start(counts, lens[i]) <= i < Start(counts, lens[i] + 1)
            && C.CodeOf(lens, i) == C.FirstCode(lens, lens[i]) + (i - Start(counts, lens[i]))
  {
    var lens := Sizes(counts, |counts|);
    hide C.FirstCode;
    if |counts| == 0 {
      assert false;
    }
    SizeAt(counts, |counts|, i, 1);
    SizeAt(counts, |counts|, i, lens[i]);
    CountIs(counts, lens[i], i);
  }

  /** Where a length is used its codes fit in that many bits. */
  ghost predicate Accepted(lens: seq<nat>) {
    forall s :: 1 <= s <= 16 && C.CountOf(lens, s) > 0 ==> C.EndCode(lens, s) <= Pow2(s)
  }

  lemma {:induction false} CodesFit(lens: seq<nat>, s: nat)
    requires Accepted(lens) && 1 <= s <= 16
    ensures C.EndCode(lens, s) <= Pow2(s)
  {
    if s > 1 {
      CodesFit(lens, s - 1);
    }
  }

  // ----- The stream in the buffer, first bit first -----

  /** The buffer's bits as a stream whose first bit is the lowest. */
  ghost function Stream(b: Buffer): nat {
    C.Prefix(b, 32)
  }

  lemma {:induction false} PrefixIsReceived(b: Buffer, s: nat)
    requires s <= 32
    ensures C.Prefix(Stream(b), s) == Receive(32, b, 0, s) == ShiftRight(b, 32 - s)
  {
    hide ShiftRight;
    TopIsReceived(32, b, s);
    if s > 0 {
      PrefixIsReceived(b, s - 1);
      C.ReversedBit(b, 32, s - 1);
    }
  }

  // ----- What the tables must hold -----

  lemma {:induction false} ShiftRange(x: nat, code: nat, t: nat)
    ensures ShiftLeft(code, t) <= x < ShiftLeft(code, t) + Pow2(t) <==> ShiftRight(x, t) == code
    decreases t
  {
    if t > 0 {
      ShiftRange(x / 2, code, t - 1);
    }
  }

  /** Fast-table entry `x` when the first `n` symbols have been entered; 255 means none, and symbol 255 looks the
      same. */
  ghost function FastEntry(lens: seq<nat>, n: nat, x: nat): nat
    requires n <= |lens|
  {
    if n == 0 then 255
    else if 1 <= lens[n - 1] <= 9 && ShiftRight(x, 9 - lens[n - 1]) == C.CodeOf(lens, n - 1) then n - 1
    else FastEntry(lens, n - 1, x)
  }

  ghost predicate Describes(h: Huffman, counts: seq<nat>) {
    && Shaped(h) && |counts| == 16
    && var lens := Sizes(counts, 16);
       && |lens| <= 256 && Accepted(lens)
       && (forall i :: 0 <= i < |lens| ==> h.size[i] == lens[i])
       && (forall x :: 0 <= x < 512 ==> h.fast[x] == FastEntry(lens, |lens|, x))
       && (forall s :: 1 <= s <= 16 ==> h.delta[s] == Start(counts, s) - C.FirstCode(lens, s))
       && (forall s :: 1 <= s <= 16 ==> h.maxcode[s] == ShiftLeft(C.EndCode(lens, s), 16 - s))
  }

  /** An entry below 255 names a short code the buffer begins with; 255 means no symbol below 255 has one. */
  lemma {:induction false} FastEntryMeans(lens: seq<nat>, n: nat, b: Buffer)
    requires n <= |lens| <= 256
    ensures var f := FastEntry(lens, n, ShiftRight(b, 23));
            && f <= 255
            && (f < 255 ==> f < n && 1 <= lens[f] <= 9 && C.Matches(lens, f, Stream(b)))
            && (f == 255 ==> forall i :: 0 <= i < n && i < 255 && lens[i] <= 9 ==> !C.Matches(lens, i, Stream(b)))
  {
    hide ShiftRight, C.Prefix, C.CodeOf;
    if n > 0 {
      FastEntryMeans(lens, n - 1, b);
      var s := lens[n - 1];
      if 1 <= s <= 9 {
        ShiftRightTwice(b, 23, 9 - s);
        PrefixIsReceived(b, s);
        if C.Matches(lens, n - 1, Stream(b)) {
          forall i | 0 <= i < n - 1 && C.Matches(lens, i, Stream(b))
            ensures false
          {
            C.MatchUnique(lens, i, n - 1, Stream(b));
          }
        }
      }
    }
  }

  // ----- The slow path -----

  lemma {:induction false} BelowShifted(x: nat, n: nat, t: nat)
    ensures x < ShiftLeft(n, t) <==> ShiftRight(x, t) < n
    decreases t
  {
    if t > 0 {
      BelowShifted(x / 2, n, t - 1);
    }
  }

  /** The comparison with the preshifted `maxcode` is the comparison of the prefix with the end of its length's
      codes. */
  lemma BelowMaxcode(h: Huffman, counts: seq<nat>, j: Jpeg, s: nat)
    requires Describes(h, counts) && 1 <= s <= 16
    ensures Top16(j) < h.maxcode[s] <==> C.Prefix(Stream(j.buf), s) < C.EndCode(Sizes(counts, 16), s)
  {
    hide ShiftRight, ShiftLeft, C.EndCode, C.Prefix, Sizes, Start, Shaped;
    BelowShifted(Top16(j), C.EndCode(Sizes(counts, 16), s), 16 - s);
    ShiftRightTwice(j.buf, 16, 16 - s);
    PrefixIsReceived(j.buf, s);
  }

  lemma {:induction false} LengthFound(h: Huffman, temp: nat, k: nat, s: nat)
    requires Shaped(h) && temp < 0x10000 && k <= s <= 17
    requires temp < h.maxcode[s] && forall t :: k <= t < s ==> temp >= h.maxcode[t]
    ensures LengthFrom(h, temp, k) == s
    decreases s - k
  {
    if k < s {
      LengthFound(h, temp, k + 1, s);
    }
  }

  /** The one symbol the fast table cannot name is present and short. */
  ghost predicate LastSymbolShort(counts: seq<nat>)
    requires |counts| == 16
  {
    |Sizes(counts, 16)| == 256 && Sizes(counts, 16)[255] <= 9
  }

  /** A short match is found by the fast table. */
  lemma ShortDecoded(h: Huffman, counts: seq<nat>, j: Jpeg, i: nat)
    requires Describes(h, counts) && j.bits >= 16 && C.Matches(Sizes(counts, 16), i, Stream(j.buf))
    requires h.fast[Peek9(j)] < 255
    ensures Lookup(j, h) == Decoded(h.values[i], Consume(j, Sizes(counts, 16)[i]))
  {
    hide ShiftRight, C.Prefix, C.CodeOf, Sizes, Start, ShiftUp, Accepted, FastEntry;
    var lens := Sizes(counts, 16);
    FastEntryMeans(lens, |lens|, j.buf);
    C.MatchUnique(lens, h.fast[Peek9(j)], i, Stream(j.buf));
  }

  /** A long match is found by the slow path. */
  lemma LongDecoded(h: Huffman, counts: seq<nat>, j: Jpeg, i: nat)
    requires Describes(h, counts) && j.bits >= 16 && C.Matches(Sizes(counts, 16), i, Stream(j.buf))
    requires h.fast[Peek9(j)] == 255
    requires Sizes(counts, 16)[i] > 9
    ensures Lookup(j, h) == Decoded(h.values[i], Consume(j, Sizes(counts, 16)[i]))
  {
    hide ShiftRight, C.Prefix, C.EndCode, C.FirstCode, C.CodeOf, Sizes, Start, ShiftUp, Accepted, FastEntry;
    var lens, w := Sizes(counts, 16), Stream(j.buf);
    var s := lens[i];
    CodeIs(counts, i);
    C.MatchResolves(lens, i, w);
    BelowMaxcode(h, counts, j, s);
    forall t | 10 <= t < s
      ensures Top16(j) >= h.maxcode[t]
    {
      BelowMaxcode(h, counts, j, t);
    }
    LengthFound(h, Top16(j), 10, s);
    PrefixIsReceived(j.buf, s);
  }

  /** A matched symbol below 255, or a long one, is returned and exactly its bits are consumed. */
  lemma MatchDecoded(h: Huffman, counts: seq<nat>, j: Jpeg, i: nat)
    requires Describes(h, counts) && j.bits >= 16 && C.Matches(Sizes(counts, 16), i, Stream(j.buf))
    requires i < 255 || Sizes(counts, 16)[i] > 9
    ensures Lookup(j, h) == Decoded(h.values[i], Consume(j, Sizes(counts, 16)[i]))
  {
    hide ShiftRight, C.Prefix, C.CodeOf, Sizes, Start, Lookup, Accepted, FastEntry;
    FastEntryMeans(Sizes(counts, 16), |Sizes(counts, 16)|, j.buf);
    if h.fast[Peek9(j)] < 255 {
      ShortDecoded(h, counts, j, i);
    } else {
      LongDecoded(h, counts, j, i);
    }
  }

  /** A stream that begins with no code is refused. */
  lemma NoMatchRefused(h: Huffman, counts: seq<nat>, j: Jpeg)
    requires Describes(h, counts)
    requires forall i :: 0 <= i < |Sizes(counts, 16)| ==> !C.Matches(Sizes(counts, 16), i, Stream(j.buf))
    ensures Lookup(j, h).value == -1
  {
    hide ShiftRight, C.Prefix, C.EndCode, C.FirstCode, Sizes, Start, ShiftUp;
    var lens, w := Sizes(counts, 16), Stream(j.buf);
    FastEntryMeans(lens, |lens|, j.buf);
    forall t | 1 <= t <= 16
      ensures Top16(j) >= h.maxcode[t]
    {
      BelowMaxcode(h, counts, j, t);
      if C.Prefix(w, t) < C.EndCode(lens, t) {
        var s := FirstBelow(lens, w, t);
        var i := C.ResolvedMatches(lens, w, s);
      }
    }
    LengthFound(h, Top16(j), 10, 17);
  }

  lemma {:induction false} FirstBelow(lens: seq<nat>, w: nat, t: nat) returns (s: nat)
    requires t >= 1 && C.Prefix(w, t) < C.EndCode(lens, t)
    ensures C.Resolves(lens, w, s)
    decreases t
  {
    hide C.Prefix, C.EndCode;
    if u :| 1 <= u < t && C.Prefix(w, u) < C.EndCode(lens, u) {
      s := FirstBelow(lens, w, u);
    } else {
      s := t;
    }
  }

  /** Symbol 255 with a short code is always read with ten bits. */
  lemma LastSymbolMisread(h: Huffman, counts: seq<nat>, j: Jpeg)
    requires Describes(h, counts) && LastSymbolShort(counts) && j.bits >= 16
    requires C.Matches(Sizes(counts, 16), 255, Stream(j.buf))
    ensures Lookup(j, h).j == Consume(j, 10)
  {
    hide ShiftRight, C.Prefix, C.EndCode, C.FirstCode, Sizes, Start, ShiftUp;
    var lens, w := Sizes(counts, 16), Stream(j.buf);
    FastEntryMeans(lens, |lens|, j.buf);
    var f := h.fast[Peek9(j)];
    if f < 255 {
      C.MatchUnique(lens, f, 255, w);
    }
    C.MatchResolves(lens, 255, w);
    C.LongerIsBelow(lens, w, lens[255], 10);
    FirstBelowEnd(lens, 10);
    BelowMaxcode(h, counts, j, 10);
    LengthFound(h, Top16(j), 10, 10);
  }

  lemma FirstBelowEnd(lens: seq<nat>, s: nat)
    requires s >= 1
    ensures C.FirstCode(lens, s) <= C.EndCode(lens, s)
  {
  }

  /** Every buffer that begins with a code is decoded to its symbol with exactly its bits. */
  ghost predicate DecodesEvery(h: Huffman, counts: seq<nat>)
    requires Shaped(h) && |counts| == 16 && |Sizes(counts, 16)| <= 256
  {
    forall j: Jpeg, i: nat :: j.bits >= 16 && C.Matches(Sizes(counts, 16), i, Stream(j.buf)) ==>
      Lookup(j, h) == Decoded(h.values[i], Consume(j, Sizes(counts, 16)[i]))
  }

  lemma {:induction false} ShiftedBack(code: nat, n: nat, t: nat)
    requires code < Pow2(n)
    ensures ShiftLeft(code, t) < Pow2(n + t) && ShiftRight(ShiftLeft(code, t), t) == code
    decreases t
  {
    if t > 0 {
      ShiftedBack(code, n, t - 1);
      ShiftRange(ShiftLeft(code, t), code, t);
    }
  }

  /** Some buffer begins with the code of symbol `i`. */
  lemma Encoded(counts: seq<nat>, i: nat) returns (b: Buffer)
    requires |counts| == 16 && i < |Sizes(counts, 16)| && Accepted(Sizes(counts, 16))
    ensures C.Matches(Sizes(counts, 16), i, Stream(b))
  {
    hide ShiftRight, ShiftLeft, C.Prefix, C.EndCode, C.FirstCode, Sizes, Start;
    var lens := Sizes(counts, 16);
    CodeIs(counts, i);
    C.CodeInRange(lens, i);
    CodesFit(lens, lens[i]);
    ShiftedBack(C.CodeOf(lens, i), lens[i], 32 - lens[i]);
    b := ShiftLeft(C.CodeOf(lens, i), 32 - lens[i]);
    PrefixIsReceived(b, lens[i]);
  }

  /** The decoder follows the canonical code exactly when symbol 255 is absent or its code is longer than nine bits. */
  lemma DecodesEveryExact(h: Huffman, counts: seq<nat>)
    requires Describes(h, counts)
    ensures DecodesEvery(h, counts) <==> !LastSymbolShort(counts)
  {
    hide Lookup, Sizes, Start, C.Prefix, C.CodeOf;
    var lens := Sizes(counts, 16);
    if LastSymbolShort(counts) {
      var b := Encoded(counts, 255);
      var j := Jpeg([], 0, b, 32, false, 0xFF);
      LastSymbolMisread(h, counts, j);
      assert Lookup(j, h) != Decoded(h.values[255], Consume(j, lens[255]));
    } else {
      forall j: Jpeg, i: nat | j.bits >= 16 && C.Matches(lens, i, Stream(j.buf))
        ensures Lookup(j, h) == Decoded(h.values[i], Consume(j, lens[i]))
      {
        MatchDecoded(h, counts, j, i);
      }
    }
  }

  lemma {:induction false} NoneShorter(counts: seq<nat>, s: nat)
    requires |counts| == 16 && 1 <= s <= 17 && forall t :: 0 <= t < s - 1 ==> counts[t] == 0
    ensures Start(counts, s) == 0 && C.FirstCode(Sizes(counts, 16), s) == 0
  {
    hide Sizes, Start, C.CountOf, C.FirstCode, C.EndCode;
    FirstIs(counts);
    if s > 1 {
      NoneShorter(counts, s - 1);
      NextIs(counts, s - 1);
    }
  }

  lemma {:induction false} NoneLonger(counts: seq<nat>, s: nat, t: nat)
    requires |counts| == 16 && 1 <= s <= t <= 17 && forall u :: s - 1 <= u < t - 1 ==> counts[u] == 0
    ensures Start(counts, t) == Start(counts, s)
  {
    if s < t {
      NoneLonger(counts, s, t - 1);
    }
  }

  /** 255 codes of eight bits and one of nine: accepted by the builder, and its last symbol is one the decoder
      misreads. */
  lemma LastSymbolShortHappens(counts: seq<nat>)
    requires |counts| == 16 && counts[7] == 255 && counts[8] == 1
    requires forall s :: 0 <= s < 16 && s != 7 && s != 8 ==> counts[s] == 0
    ensures Accepted(Sizes(counts, 16)) && LastSymbolShort(counts)
  {
    hide Sizes, Start, C.CountOf, C.FirstCode, C.EndCode, Pow2;
    FirstIs(counts);
    NoneShorter(counts, 8);
    NextIs(counts, 8);
    NextIs(counts, 9);
    NoneLonger(counts, 10, 17);
    WordPowers();
    NinePower();
    forall s | 1 <= s <= 16 && C.CountOf(Sizes(counts, 16), s) > 0
      ensures C.EndCode(Sizes(counts, 16), s) <= Pow2(s)
    {
      NextIs(counts, s);
    }
    SizeAt(counts, 16, 255, 9);
  }

  // ----- The builder -----

  class Tables {
    const fast: array<Byte>
    const code: array<nat>
    const values: array<Byte>
    const size: array<Byte>
    const maxcode: array<nat>
    const delta: array<int>

    constructor ()
      ensures Shape()
      ensures fresh(fast) && fresh(code) && fresh(values) && fresh(size) && fresh(maxcode) && fresh(delta)
    {
      fast := new Byte[512];
      code := new nat[256];
      values := new Byte[256];
      size := new Byte[257];
      maxcode := new nat[18];
      delta := new int[17];
    }

    ghost predicate Shape() {
      && fast.Length == 512 && code.Length == 256 && values.Length == 256 && size.Length == 257
      && maxcode.Length == 18 && delta.Length == 17
      && fast != values && fast != size && values != size && code != maxcode
    }

    /** The tables as a value. */
    function Value(): Huffman
      reads fast, size, values, maxcode, delta
    {
      Huffman(fast[..], size[..], values[..], maxcode[..], delta[..])
    }

    /** The first double loop: a length for each symbol, and a zero behind the last. */
    method FillSizes(counts: seq<nat>) returns (n: nat)
      requires Shape() && |counts| == 16 && Start(counts, 17) <= 256
      modifies size
      ensures n == |Sizes(counts, 16)| <= 256 && size[n] == 0
      ensures forall i :: 0 <= i < n ==> size[i] == Sizes(counts, 16)[i]
    {
      var k := 0;
      for i := 0 to 16
        invariant k == Start(counts, i + 1) <= 256
        invariant forall m :: 0 <= m < k ==> size[m] == Sizes(counts, i)[m]
      {
        StartMonotone(counts, i + 2, 17);
        ghost var first := k;
        for j := 0 to counts[i]
          invariant k == first + j
          invariant forall m :: 0 <= m < first ==> size[m] == Sizes(counts, i)[m]
          invariant forall m :: first <= m < k ==> size[m] == i + 1
        {
          size[k] := i + 1;
          k := k + 1;
        }
      }
      size[k] := 0;
      n := k;
    }

    ghost predicate Sized(counts: seq<nat>, n: nat)
      reads size
    {
      && Shape() && |counts| == 16 && n == |Sizes(counts, 16)| <= 256 && size[n] == 0
      && forall i :: 0 <= i < n ==> size[i] == Sizes(counts, 16)[i]
    }

    ghost predicate Coded(counts: seq<nat>, n: nat)
      requires Shape() && |counts| == 16 && n <= |Sizes(counts, 16)| <= 256
      reads code
    {
      forall i :: 0 <= i < n ==> Sizes(counts, 16)[i] > 0 && code[i] == C.CodeOf(Sizes(counts, 16), i)
    }

    /** The inner `while`: consecutive codes for the symbols of `s` bits. */
    method AssignLength(counts: seq<nat>, n: nat, s: nat, k0: nat, code0: nat) returns (k: nat, c: nat)
      requires Sized(counts, n) && 1 <= s <= 16 && k0 == Start(counts, s) <= n
      requires code0 == C.FirstCode(Sizes(counts, 16), s)
      requires Coded(counts, k0)
      modifies code
      ensures k == Start(counts, s + 1) <= n && c == C.EndCode(Sizes(counts, 16), s)
      ensures Coded(counts, k)
    {
      hide Sizes, C.CodeOf, C.FirstCode, C.EndCode, C.CountOf;
      StartMonotone(counts, s + 1, 17);
      assert Start(counts, s + 1) == Start(counts, s) + counts[s - 1];
      ghost var lens := Sizes(counts, 16);
      hide Start;
      k, c := k0, code0;
      while size[k] == s
        invariant k0 <= k <= Start(counts, s + 1) && c == code0 + (k - k0)
        invariant Coded(counts, k)
        decreases n - k
      {
        SizeAt(counts, 16, k, s);
        CodeIs(counts, k);
        code[k] := c;
        k, c := k + 1, c + 1;
      }
      if k < Start(counts, s + 1) {
        SizeAt(counts, 16, k, s);
      }
      CountOfIs(counts, s);
      EndIs(lens, s);
    }

    /** The second loop; `ok` is false when a used length runs past its last code. */
    method AssignCodes(counts: seq<nat>, n: nat) returns (ok: bool)
      requires Sized(counts, n)
      modifies code, maxcode, delta
      ensures ok <==> Accepted(Sizes(counts, 16))
      ensures ok ==> Coded(counts, n) && maxcode[17] == 0xFFFF_FFFF
      ensures ok ==> forall s :: 1 <= s <= 16 ==> delta[s] == Start(counts, s) - C.FirstCode(Sizes(counts, 16), s)
      ensures ok ==> forall s :: 1 <= s <= 16 ==> maxcode[s] == ShiftLeft(C.EndCode(Sizes(counts, 16), s), 16 - s)
    {
      hide Sizes, Start, C.CodeOf, C.FirstCode, C.EndCode, C.CountOf, ShiftLeft, Pow2;
      ghost var lens := Sizes(counts, 16);
      var k, c := 0, 0;
      FirstIs(counts);
      for j := 1 to 17
        invariant k == Start(counts, j) <= n && c == C.FirstCode(lens, j)
        invariant Coded(counts, k)
        invariant forall s :: 1 <= s < j ==> delta[s] == Start(counts, s) - C.FirstCode(lens, s)
        invariant forall s :: 1 <= s < j ==> maxcode[s] == ShiftLeft(C.EndCode(lens, s), 16 - s)
        invariant forall s :: 1 <= s < j && C.CountOf(lens, s) > 0 ==> C.EndCode(lens, s) <= Pow2(s)
      {
        delta[j] := k - c;
        var k', c' := AssignLength(counts, n, j, k, c);
        NextIs(counts, j);
        if k' > k && c' - 1 >= Pow2(j) {
          return false;
        }
        k, c := k', c';
        maxcode[j] := ShiftLeft(c, 16 - j);
        c := 2 * c;
      }
      maxcode[17] := 0xFFFF_FFFF;
      return true;
    }

    ghost predicate FastUpTo(lens: seq<nat>, n: nat)
      requires Shape() && n <= |lens|
      reads fast
    {
      forall x :: 0 <= x < 512 ==> fast[x] == FastEntry(lens, n, x)
    }

    /** The innermost loop: every nine bits that begin with a code of `s` bits. */
    method FillFast(code0: nat, s: nat, symbol: Byte)
      requires Shape() && 1 <= s <= 9 && code0 < Pow2(s)
      modifies fast
      ensures forall x :: 0 <= x < 512 ==> fast[x] == if ShiftRight(x, 9 - s) == code0 then symbol else old(fast[x])
    {
      var c, m := ShiftLeft(code0, 9 - s), Pow2(9 - s);
      BlockFits(code0, s);
      hide ShiftRight, ShiftLeft, Pow2;
      for j := 0 to m
        invariant forall x :: 0 <= x < 512 ==> fast[x] == if c <= x < c + j then symbol else old(fast[x])
      {
        fast[c + j] := symbol;
      }
      forall x | 0 <= x < 512
        ensures fast[x] == if ShiftRight(x, 9 - s) == code0 then symbol else old(fast[x])
      {
        ShiftRange(x, code0, 9 - s);
      }
    }

    /** The last loop. */
    method EnterSymbols(counts: seq<nat>, n: nat)
      requires Sized(counts, n) && Coded(counts, n) && Accepted(Sizes(counts, 16)) && FastUpTo(Sizes(counts, 16), 0)
      modifies fast
      ensures FastUpTo(Sizes(counts, 16), n)
      ensures Sized(counts, n)
    {
      hide Accepted, Sizes, Start, C.CodeOf, ShiftRight;
      ghost var lens := Sizes(counts, 16);
      for i := 0 to n
        invariant Sized(counts, n) && FastUpTo(lens, i)
      {
        var s := size[i];
        CodeBelow(counts, i);
        if s <= FAST_BITS {
          FillFast(code[i], s, i);
        }
      }
    }

    /** `stbi__build_huffman`: succeeds exactly when every used length's codes fit, and then describes the canonical
        code. */
    method Build(counts: seq<nat>) returns (ok: bool)
      requires Shape() && |counts| == 16 && Start(counts, 17) <= 256
      modifies fast, code, size, maxcode, delta
      ensures ok <==> Accepted(Sizes(counts, 16))
      ensures ok ==> Describes(Value(), counts)
    {
      hide Accepted, Sizes, Start, C.FirstCode, C.EndCode, ShiftLeft, FastEntry, C.CodeOf;
      var n := FillSizes(counts);
      ok := AssignCodes(counts, n);
      if ok {
        ClearFast(Sizes(counts, 16));
        EnterSymbols(counts, n);
        FastSizes(Value(), counts);
      }
    }

    method ClearFast(ghost lens: seq<nat>)
      requires Shape()
      modifies fast
      ensures FastUpTo(lens, 0)
    {
      for x := 0 to 512
        invariant forall y :: 0 <= y < x ==> fast[y] == 255
      {
        fast[x] := 255;
      }
    }
  }

  lemma BlockFits(code: nat, s: nat)
    requires s <= 9 && code < Pow2(s)
    ensures ShiftLeft(code, 9 - s) + Pow2(9 - s) <= 512
  {
    NinePower();
    ShiftLeftBounded(code, s, 9 - s);
  }

  lemma CodeBelow(counts: seq<nat>, i: nat)
    requires |counts| == 16 && i < |Sizes(counts, 16)| && Accepted(Sizes(counts, 16))
    ensures var lens := Sizes(counts, 16);
            1 <= lens[i] <= 16 && C.CodeOf(lens, i) < Pow2(lens[i])
  {
    hide C.FirstCode, C.EndCode, Sizes, Start, C.CodeOf;
    CodeIs(counts, i);
    C.CodeInRange(Sizes(counts, 16), i);
    CodesFit(Sizes(counts, 16), Sizes(counts, 16)[i]);
  }

  /** Entries below 255 name symbols of at most nine bits. */
  lemma FastSizes(h: Huffman, counts: seq<nat>)
    requires |h.fast| == 512 && |counts| == 16 && |h.size| == 257 && |Sizes(counts, 16)| <= 256
    requires forall i :: 0 <= i < |Sizes(counts, 16)| ==> h.size[i] == Sizes(counts, 16)[i]
    requires forall x :: 0 <= x < 512 ==> h.fast[x] == FastEntry(Sizes(counts, 16), |Sizes(counts, 16)|, x)
    ensures forall i :: 0 <= i < 512 && h.fast[i] < 255 ==> h.size[h.fast[i]] <= 9
  {
    hide Sizes, FastEntry;
    forall i | 0 <= i < 512 && h.fast[i] < 255
      ensures h.size[h.fast[i]] <= 9
    {
      EntryShort(Sizes(counts, 16), |Sizes(counts, 16)|, i);
    }
  }

  lemma {:induction false} EntryShort(lens: seq<nat>, n: nat, x: nat)
    requires n <= |lens| <= 256
    ensures var f := FastEntry(lens, n, x); f < 255 ==> f < n && lens[f] <= 9
  {
    hide ShiftRight, C.CodeOf;
    if n > 0 {
      EntryShort(lens, n - 1, x);
    }
  }

  lemma EndIs(lens: seq<nat>, s: nat)
    requires s >= 1
    ensures C.EndCode(lens, s) == C.FirstCode(lens, s) + C.CountOf(lens, s)
  {
  }

  lemma FirstIs(counts: seq<nat>)
    requires |counts| == 16
    ensures Start(counts, 1) == 0 && C.FirstCode(Sizes(counts, 16), 1) == 0
    ensures Start(counts, 17) == |Sizes(counts, 16)|
  {
  }

  lemma NextIs(counts: seq<nat>, s: nat)
    requires |counts| == 16 && 1 <= s <= 16
    ensures var lens := Sizes(counts, 16);
            && C.CountOf(lens, s) == counts[s - 1] && Start(counts, s + 1) == Start(counts, s) + counts[s - 1]
            && C.FirstCode(lens, s + 1) == 2 * C.EndCode(lens, s)
            && C.EndCode(lens, s) == C.FirstCode(lens, s) + counts[s - 1]
  {
    hide Sizes, C.CountOf;
    CountOfIs(counts, s);
  }
}
