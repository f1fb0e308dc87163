/** The JPEG bit reader and block loop of external/stb/stb_image.h, updating their fields and arrays in place. */
module JpegCode {
  import opened Words
  import opened Bits
  import opened JpegBits
  import opened JpegModel
  import opened JpegAc

  /** `stbi__build_fast_ac`. */
  method BuildFastAc(h: Huffman) returns (fac: array<int>)
    requires Shaped(h)
    ensures IsFastAc(h, fac[..])
    ensures forall i :: 0 <= i < fac.Length ==> -0x8000 <= fac[i] < 0x8000
  {
    hide ShiftRight, And, ShiftLeft, Mask, Pow2, Bias;
    fac := new int[512];
    for i := 0 to 512
      invariant fac.Length == 512
      invariant forall k :: 0 <= k < i ==> fac[k] == FastAcEntry(h, k) && -0x8000 <= fac[k] < 0x8000
    {
      var fast := h.fast[i];
      fac[i] := 0;
      if fast < 255 {
        var rs := h.values[fast];
        var run, magbits, len := rs / 16, rs % 16, h.size[fast];
        if magbits != 0 && len + magbits <= FAST_BITS {
          var k: int := ShiftRight(And(ShiftLeft(i, len), Mask(FAST_BITS)), FAST_BITS - magbits);
          if k < Pow2(magbits - 1) {
            k := k + Bias(magbits);
          }
          if -128 <= k <= 127 {
            fac[i] := k * 256 + run * 16 + (len + magbits);
          }
        }
      }
    }
  }

  lemma FastAcSize(h: Huffman, fac: seq<int>)
    requires IsFastAc(h, fac)
    ensures Shaped(h) && |fac| == 512
  {
  }

  class Reader {
    const data: seq<Byte>
    var pos: nat
    var buf: Buffer
    var bits: int
    var nomore: bool
    var marker: Byte

    constructor (data: seq<Byte>)
      ensures State() == Jpeg(data, 0, 0, 0, false, 0xFF)
    {
      this.data := data;
      pos, bits, nomore, marker := 0, 0, false, 0xFF;
      buf := 0;
    }

    function State(): Jpeg
      reads this
    {
      Jpeg(data, pos, buf, bits, nomore, marker)
    }

    /** `stbi__get8`. */
    method NextByte() returns (b: Byte)
      modifies this`pos
      ensures b == Get8(old(State())) && State() == Skip8(old(State()))
    {
      b := 0;
      if pos < |data| {
        b := data[pos];
        pos := pos + 1;
      }
    }

    /** The loop over fill bytes, and the byte behind them. */
    method AfterFill() returns (c: Byte)
      modifies this`pos
      ensures var j := SkipFill(old(State())); c == Get8(j) && State() == Skip8(j)
    {
      c := NextByte();
      ghost var last := old(State());
      while c == 0xFF
        invariant c == Get8(last) && State() == Skip8(last)
        invariant SkipFill(last) == SkipFill(old(State()))
        decreases |data| - last.pos
      {
        last := State();
        c := NextByte();
      }
    }

    /** `stbi__grow_buffer_unsafe`. */
    method GrowBuffer()
      requires bits <= 24
      modifies this
      ensures State() == Grow(old(State()))
    {
      hide Grow, Pow2;
      var more := true;
      while more
        invariant more ==> bits <= 24 && Grow(State()) == Grow(old(State()))
        invariant !more ==> State() == Grow(old(State()))
        decreases more, 24 - bits
      {
        more := GrowOnce();
      }
    }

    /** One round of the loop. */
    method GrowOnce() returns (more: bool)
      requires bits <= 24
      modifies this
      ensures more ==> old(bits) < bits <= 24
      ensures Grow(old(State())) == if more then Grow(State()) else State()
    {
      hide Or, ShiftUp, SkipFill, Pow2;
      var b: Byte := 0;
      if !nomore {
        b := NextByte();
      }
      if b == 0xFF {
        var c := AfterFill();
        if c != 0 {
          marker := c;
          nomore := true;
          return false;
        }
      }
      TakeByte(b);
      return bits <= 24;
    }

    /** `code_buffer |= b << (24 - code_bits)`. */
    method TakeByte(b: Byte)
      requires bits <= 24
      modifies this`buf, this`bits
      ensures State() == AddByte(old(State()), b)
    {
      hide Or, ShiftUp, Pow2;
      ByteFits(b);
      OrFits(32, buf, ShiftUp(32, b, 24 - bits));
      buf := Or(buf, ShiftUp(32, b, 24 - bits));
      bits := bits + 8;
    }

    /** `stbi__jpeg_huff_decode`. */
    method Symbol(h: Huffman) returns (value: int)
      requires Shaped(h)
      modifies this
      ensures HuffDecode(old(State()), h) == Decoded(value, State())
    {
      hide ShiftUp, ShiftRight, Grow, Pow2;
      if bits < 16 {
        GrowBuffer();
      }
      ghost var j := State();
      assert j == Refill(old(State()), 16);
      var c := Peek9(State());
      var k := h.fast[c];
      if k < 255 {
        var s := h.size[k];
        if s > bits {
          return -1;
        }
        buf := ShiftUp(32, buf, s);
        bits := bits - s;
        return h.values[k];
      }
      var temp := Top16(State());
      k := FAST_BITS + 1;
      while temp >= h.maxcode[k]
        invariant FAST_BITS + 1 <= k <= 17
        invariant LengthFrom(h, temp, k) == LengthFrom(h, temp, FAST_BITS + 1)
        decreases 17 - k
      {
        k := k + 1;
      }
      if k == 17 {
        bits := bits - 16;
        return -1;
      }
      if k > bits {
        return -1;
      }
      var id := ShiftRight(buf, 32 - k) + h.delta[k];
      bits := bits - k;
      buf := ShiftUp(32, buf, k);
      return if 0 <= id < 256 then h.values[id] else 0;
    }

    /** `stbi__extend_receive`. */
    method ReceiveExtend(n: nat) returns (value: int)
      requires 1 <= n <= 15
      modifies this
      ensures ExtendReceive(old(State()), n) == Decoded(value, State())
    {
      hide Rotate, And, Not, Mask, Grow, Pow2, Bias;
      if bits < n {
        GrowBuffer();
      }
      RotateSplits(32, buf, n);
      var negative := buf < Pow2(31);
      var k := Rotate(32, buf, n);
      buf := And(k, Not(32, Mask(n)));
      bits := bits - n;
      value := And(k, Mask(n)) + (if negative then Bias(n) else 0);
    }

    /** The AC loop of `stbi__jpeg_decode_block`. */
    method DecodeAc(out: array<int>, h: Huffman, fac: seq<int>, dequant: seq<nat>) returns (ok: bool)
      requires IsFastAc(h, fac) && out.Length == 64 && |dequant| == 64
      modifies this, out
      ensures AlikeBlocks(if ok then Done(State(), out[..]) else Bad(State()),
                          AcLoop(old(State()), 1, old(out[..]), h, [], dequant))
    {
      hide Grow, Lookup, Received, ShiftUp, ShiftRight, AcLoop, ToShort;
      BlocksAlike(State(), State(), 1, out[..], h, fac, dequant);
      ghost var goal := AcLoop(State(), 1, out[..], h, fac, dequant);
      var k: nat := 1;
      var more := true;
      ok := true;
      while more
        invariant out.Length == 64
        invariant more ==> ok && k < 64 && AcLoop(State(), k, out[..], h, fac, dequant) == goal
        invariant !more ==> goal == if ok then Done(State(), out[..]) else Bad(State())
        decreases more, 64 - k
      {
        ok, more, k := Round(out, k, h, fac, dequant);
      }
    }

    /** One round of the loop. */
    method Round(out: array<int>, k: nat, h: Huffman, fac: seq<int>, dequant: seq<nat>) returns (ok: bool, more: bool,
                                                                                                 next: nat)
      requires IsFastAc(h, fac) && out.Length == 64 && |dequant| == 64 && k < 64
      modifies this, out
      ensures more ==> ok && k < next < 64
      ensures var was := AcLoop(old(State()), k, old(out[..]), h, fac, dequant);
              if more then was == AcLoop(State(), next, out[..], h, fac, dequant)
              else was == if ok then Done(State(), out[..]) else Bad(State())
    {
      hide FastStep, Refill, ToShort, IsFastAc, Store;
      FastAcSize(h, fac);
      var step := ReadStep(h, fac);
      ok, more, next := true, false, k + 16;
      match step {
        case Fail(_) =>
          ok := false;
        case End(_) =>
        case Skip(_) =>
          more := next < 64;
        case Coefficient(_, run, v) =>
          StoreAt(out, k + run, v, dequant);
          next := k + run + 1;
          more := next < 64;
      }
    }

    /** The part of a round that reads from the stream. */
    method ReadStep(h: Huffman, fac: seq<int>) returns (s: Step)
      requires Shaped(h) && |fac| == 512
      modifies this
      ensures s == FastStep(Refill(old(State()), 16), h, fac) && s.j == State()
    {
      hide Grow, Lookup, Received, ShiftUp, ShiftRight, Shaped;
      if bits < 16 {
        GrowBuffer();
      }
      ghost var j := State();
      assert j == Refill(old(State()), 16);
      var c := Peek9(State());
      var r := fac[c];
      if r != 0 {
        buf := ShiftUp(32, buf, r % 16);
        bits := bits - r % 16;
        return Coefficient(State(), r / 16 % 16, r / 256);
      }
      var rs := Symbol(h);
      SymbolIsByte(j, h);
      if rs < 0 {
        return Fail(State());
      }
      if rs % 16 == 0 {
        return if rs != 0xF0 then End(State()) else Skip(State());
      }
      var v := ReceiveExtend(rs % 16);
      return Coefficient(State(), rs / 16, v);
    }

    method StoreAt(out: array<int>, k: nat, v: int, dequant: seq<nat>)
      requires out.Length == 64 && |dequant| == 64 && k < 79
      modifies out
      ensures out[..] == Store(old(out[..]), k, v, dequant)
    {
      var zig := ZIGZAG[k];
      out[zig] := ToShort(v * dequant[zig]);
    }
  }
}
