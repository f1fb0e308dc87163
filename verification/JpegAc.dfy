/** The combined run, size and coefficient table of the JPEG reader (external/stb/stb_image.h) changes nothing: one
    round with it is Huffman decoding followed by RECEIVE and EXTEND (section F.2.2 of ITU-T T.81), and so is a whole
    block. */
module JpegAc {
  import opened Bits
  import opened JpegBits
  import opened JpegModel

  /** The table of `stbi__build_fast_ac`. */
  ghost predicate IsFastAc(h: Huffman, fac: seq<int>) {
    Shaped(h) && |fac| == 512 && forall i :: 0 <= i < 512 ==> fac[i] == FastAcEntry(h, i)
  }

  // ----- One round, sixteen bits valid -----

  /** The bits behind the code, cut out of the index, are the bits received after the code. */
  lemma TableBits(b: Buffer, len: nat, magbits: nat)
    requires len + magbits <= FAST_BITS
    ensures var i := ShiftRight(b, 23);
            ShiftRight(And(ShiftLeft(i, len), Mask(FAST_BITS)), FAST_BITS - magbits) ==
            Receive(32, ShiftUp(32, b, len), 0, magbits)
  {
    hide ShiftRight, And, ShiftLeft, Mask, Receive, ShiftUp, Pow2;
    var i := ShiftRight(b, 23);
    TopBounded(32, b, FAST_BITS);
    MaskedShift(FAST_BITS, i, len);
    TopIsReceived(FAST_BITS, ShiftUp(FAST_BITS, i, len), magbits);
    ReceiveAfter(FAST_BITS, i, len, 0, magbits);
    ReceiveFromTop(32, b, FAST_BITS, len, magbits);
    ReceiveAfter(32, b, len, 0, magbits);
  }

  /** What a nonzero entry packs. */
  lemma EntryMeans(j: Jpeg, h: Huffman)
    requires Shaped(h) && FastAcEntry(h, Peek9(j)) != 0
    ensures var r := FastAcEntry(h, Peek9(j));
            var f := h.fast[Peek9(j)];
            && f < 255
            && var len, magbits := h.size[f], h.values[f] % 16;
               && magbits != 0 && len + magbits <= FAST_BITS
               && r % 16 == len + magbits && r / 16 % 16 == h.values[f] / 16
               && r / 256 == Extend(Receive(32, ShiftUp(32, j.buf, len), 0, magbits), magbits)
  {
    hide ShiftRight, And, ShiftLeft, Mask, Receive, ShiftUp, Pow2;
    var f := h.fast[Peek9(j)];
    var len, magbits, run := h.size[f], h.values[f] % 16, h.values[f] / 16;
    TableBits(j.buf, len, magbits);
    Unpacked(Extend(Receive(32, ShiftUp(32, j.buf, len), 0, magbits), magbits), run, len + magbits);
  }

  lemma Unpacked(k: int, run: nat, size: nat)
    requires run < 16 && size < 16
    ensures var r := k * 256 + run * 16 + size;
            r % 16 == size && r / 16 % 16 == run && r / 256 == k
  {
    var r := k * 256 + run * 16 + size;
    assert r / 16 == k * 16 + run;
  }

  /** With sixteen valid bits the fast path and the two decoding steps give the same run, coefficient, buffer and
      count. */
  lemma FastIsSlow(j: Jpeg, h: Huffman)
    requires Shaped(h) && j.bits >= 16 && FastAcEntry(h, Peek9(j)) != 0
    ensures var r := FastAcEntry(h, Peek9(j));
            SlowStep(j, h) == Coefficient(Consume(j, r % 16), r / 16 % 16, r / 256)
  {
    hide FastAcEntry, Extend, Receive, Grow, LengthFrom, Received, ShiftUp;
    EntryMeans(j, h);
    var f := h.fast[Peek9(j)];
    var len, magbits := h.size[f], h.values[f] % 16;
    assert HuffDecode(j, h) == Decoded(h.values[f], Consume(j, len));
    ReceivedIsExtended(Consume(j, len), magbits);
    ShiftUpTwice(32, j.buf, len, magbits);
  }

  // ----- A whole block, for every stream -----

  /** The same stream; once a marker has ended the data, the count of valid bits no longer matters. */
  ghost predicate Alike(a: Jpeg, b: Jpeg) {
    a.(bits := b.bits) == b && (a.bits == b.bits || a.nomore)
  }

  ghost predicate AlikeSteps(a: Step, b: Step) {
    match a
    case Fail(j) => b.Fail? && Alike(j, b.j)
    case End(j) => b.End? && Alike(j, b.j)
    case Skip(j) => b.Skip? && Alike(j, b.j)
    case Coefficient(j, run, v) => b.Coefficient? && Alike(j, b.j) && b.run == run && b.v == v
  }

  lemma {:induction false} ZeroBits(n: nat)
    ensures Pow2(32) > 0 && ShiftUp(32, 0, n) == 0
  {
    if n > 0 {
      ZeroBits(n - 1);
    }
  }

  lemma OrZero(a: nat)
    ensures Or(a, 0) == a
  {
  }

  /** After a marker, refilling adds zeros. */
  lemma {:induction false} GrowAfterMarker(j: Jpeg)
    requires j.nomore && j.bits <= 24
    ensures Grow(j) == j.(bits := Grow(j).bits) && Grow(j).bits > 24
    decreases 24 - j.bits
  {
    hide Or, ShiftUp;
    ZeroBits(24 - j.bits);
    OrZero(j.buf);
    var next := AddByte(j, 0);
    assert next == j.(bits := j.bits + 8);
    if next.bits <= 24 {
      GrowAfterMarker(next);
    }
  }

  /** Refilling ends with more than 24 bits unless it meets a marker. */
  lemma {:induction false} GrowFillsOrEnds(j: Jpeg)
    requires j.bits <= 24
    ensures Grow(j).bits > 24 || Grow(j).nomore
    decreases 24 - j.bits
  {
    hide Or, ShiftUp, SkipFill;
    if j.nomore {
      GrowAfterMarker(j);
    } else {
      var b, j1 := Get8(j), Skip8(j);
      if b != 0xFF {
        var next := AddByte(j1, b);
        if next.bits <= 24 {
          GrowFillsOrEnds(next);
        }
      } else {
        var j2 := SkipFill(j1);
        if Get8(j2) == 0 {
          var next := AddByte(Skip8(j2), b);
          if next.bits <= 24 {
            GrowFillsOrEnds(next);
          }
        }
      }
    }
  }

  lemma RefillsAlike(a: Jpeg, b: Jpeg, n: nat)
    requires Alike(a, b) && n <= 16
    ensures Alike(Refill(a, n), Refill(b, n))
    ensures Refill(a, n).bits >= n || Refill(a, n).nomore
    ensures a.nomore ==> Refill(a, n).bits >= n
  {
    hide Grow;
    if a.bits < n {
      GrowFillsOrEnds(a);
    }
    if a.nomore {
      if a.bits < n {
        GrowAfterMarker(a);
      }
      if b.bits < n {
        GrowAfterMarker(b);
      }
    }
  }

  /** Two alike readers with sixteen valid bits decode alike. */
  lemma LookupsAlike(a: Jpeg, b: Jpeg, h: Huffman)
    requires Shaped(h) && Alike(a, b) && a.bits >= 16 && b.bits >= 16
    ensures Lookup(a, h).value == Lookup(b, h).value && Alike(Lookup(a, h).j, Lookup(b, h).j)
  {
    hide ShiftUp, ShiftRight, Pow2;
  }

  lemma SlowStepsAlike(a: Jpeg, b: Jpeg, h: Huffman)
    requires Shaped(h) && Alike(a, b) && (a.bits >= 16 || a.nomore)
    ensures AlikeSteps(SlowStep(a, h), SlowStep(b, h))
  {
    hide Lookup, Grow, Received, Refill;
    RefillsAlike(a, b, 16);
    RefillsAlike(b, a, 16);
    RefilledEnough(a);
    LookupsAlike(Refill(a, 16), Refill(b, 16), h);
    SymbolIsByte(a, h);
    var rs := HuffDecode(a, h).value;
    if rs >= 0 && rs % 16 != 0 {
      var a1, b1 := HuffDecode(a, h).j, HuffDecode(b, h).j;
      RefillsAlike(a1, b1, rs % 16);
      ReceivedsAlike(Refill(a1, rs % 16), Refill(b1, rs % 16), rs % 16);
    }
  }

  lemma RefilledEnough(j: Jpeg)
    requires j.bits >= 16 || j.nomore
    ensures Refill(j, 16).bits >= 16
  {
    hide Grow;
    if j.bits < 16 {
      GrowAfterMarker(j);
    }
  }

  lemma ReceivedsAlike(a: Jpeg, b: Jpeg, n: nat)
    requires Alike(a, b) && 1 <= n <= 15
    ensures Received(a, n).value == Received(b, n).value && Alike(Received(a, n).j, Received(b, n).j)
  {
    hide Rotate, And, Not, Mask, Bias, Pow2;
  }

  /** One round with the table and one without, on alike readers. */
  lemma StepsAlike(a: Jpeg, b: Jpeg, h: Huffman, fac: seq<int>)
    requires IsFastAc(h, fac) && Alike(a, b) && (a.bits >= 16 || a.nomore)
    ensures AlikeSteps(FastStep(a, h, fac), SlowStep(b, h))
  {
    hide FastAcEntry, SlowStep, ShiftUp, ShiftRight;
    var r := fac[Peek9(a)];
    if r == 0 {
      SlowStepsAlike(a, b, h);
    } else if a.bits >= 16 {
      FastIsSlow(a, h);
      SlowStepsAlike(a, b, h);
    } else {
      var full := a.(bits := 16);
      FastIsSlow(full, h);
      SlowStepsAlike(full, b, h);
    }
  }

  ghost predicate AlikeBlocks(a: Block, b: Block) {
    match a
    case Bad(j) => b.Bad? && Alike(j, b.j)
    case Done(j, data) => b.Done? && Alike(j, b.j) && b.data == data
  }

  /** For every table, stream and state of the reader, a block decoded with the combined table is the block decoded
      without: the same outcome, the same coefficients, and the same stream behind it. */
  lemma {:induction false} BlocksAlike(a: Jpeg, b: Jpeg, k: nat, data: seq<int>, h: Huffman, fac: seq<int>,
                                       dequant: seq<nat>)
    requires IsFastAc(h, fac) && |data| == |dequant| == 64 && k < 64 && Alike(a, b)
    ensures AlikeBlocks(AcLoop(a, k, data, h, fac, dequant), AcLoop(b, k, data, h, [], dequant))
    decreases 64 - k
  {
    hide SlowStep, FastStep, Refill, Store;
    RefillsAlike(a, b, 16);
    var a1, b1 := Refill(a, 16), Refill(b, 16);
    StepsAlike(a1, b1, h, fac);
    var step, other := FastStep(a1, h, fac), SlowStep(b1, h);
    match step
    case Fail(_) =>
    case End(_) =>
    case Skip(a2) =>
      if k + 16 < 64 {
        BlocksAlike(a2, other.j, k + 16, data, h, fac, dequant);
      }
    case Coefficient(a2, run, v) =>
      if k + run + 1 < 64 {
        BlocksAlike(a2, other.j, k + run + 1, Store(data, k + run, v, dequant), h, fac, dequant);
      }
  }
}
