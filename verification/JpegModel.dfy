/** The entropy decoder of the JPEG reader in external/stb/stb_image.h as functions on values: refilling the bit buffer,
    the Huffman lookup, receive-and-extend, and the loop over the AC coefficients with and without the combined
    table. */
module JpegModel {
  import opened Words
  import opened Bits
  import opened JpegBits

  const FAST_BITS: nat := 9

  type Buffer = b: nat | b < Pow2(32) witness 0

  datatype Jpeg = Jpeg(data: seq<Byte>, pos: nat, buf: Buffer, bits: int, nomore: bool, marker: Byte)

  /** `stbi__huffman`; 255 in `fast` means not accelerated. */
  datatype Huffman = Huffman(fast: seq<Byte>, size: seq<Byte>, values: seq<Byte>, maxcode: seq<nat>, delta: seq<int>)

  ghost predicate Shaped(h: Huffman) {
    && |h.fast| == 512 && |h.size| == 257 && |h.values| == 256 && |h.maxcode| == 18 && |h.delta| == 17
    && h.maxcode[17] == 0xFFFF_FFFF
    && (forall i :: 0 <= i < 512 && h.fast[i] < 255 ==> h.size[h.fast[i]] <= 9)
  }

  // ----- Refilling -----

  /** `stbi__get8`: zero at the end of the data. */
  function Get8(j: Jpeg): Byte {
    if j.pos < |j.data| then j.data[j.pos] else 0
  }

  function Skip8(j: Jpeg): Jpeg {
    if j.pos < |j.data| then j.(pos := j.pos + 1) else j
  }

  /** Past the fill bytes: the next byte that is not 0xFF is current. */
  function SkipFill(j: Jpeg): (r: Jpeg)
    ensures r == j.(pos := r.pos) && r.pos >= j.pos && Get8(r) != 0xFF
    decreases |j.data| - j.pos
  {
    if Get8(j) == 0xFF then SkipFill(Skip8(j)) else j
  }

  /** `code_buffer |= b << (24 - code_bits)`. */
  function AddByte(j: Jpeg, b: Byte): Jpeg
    requires j.bits <= 24
  {
    ByteFits(b);
    OrFits(32, j.buf, ShiftUp(32, b, 24 - j.bits));
    j.(buf := Or(j.buf, ShiftUp(32, b, 24 - j.bits)), bits := j.bits + 8)
  }

  /** `stbi__grow_buffer_unsafe`. */
  function Grow(j: Jpeg): Jpeg
    requires j.bits <= 24
    decreases 24 - j.bits
  {
    var b := if j.nomore then 0 else Get8(j);
    var j1 := if j.nomore then j else Skip8(j);
    if b != 0xFF then Again(AddByte(j1, b), j)
    else
      var j2 := SkipFill(j1);
      var c := Get8(j2);
      if c != 0 then Skip8(j2).(marker := c, nomore := true)
      else Again(AddByte(Skip8(j2), b), j)
  }

  /** `while (code_bits <= 24)`. */
  function Again(j: Jpeg, before: Jpeg): Jpeg
    requires j.bits == before.bits + 8 && before.bits <= 24
    decreases 24 - before.bits, 0
  {
    if j.bits <= 24 then Grow(j) else j
  }

  function Refill(j: Jpeg, n: nat): Jpeg
    requires n <= 16
  {
    if j.bits < n then Grow(j) else j
  }

  function Consume(j: Jpeg, n: nat): Jpeg {
    j.(buf := ShiftUp(32, j.buf, n), bits := j.bits - n)
  }

  lemma ByteFits(b: Byte)
    ensures b < Pow2(32)
  {
    WordPowers();
    PowerMonotone(8, 32);
  }

  // ----- One symbol -----

  /** The top nine bits. */
  function Peek9(j: Jpeg): (c: nat)
    ensures c < 512
  {
    TopBounded(32, j.buf, FAST_BITS);
    NinePower();
    ShiftRight(j.buf, 32 - FAST_BITS)
  }

  lemma NinePower()
    ensures Pow2(9) == 512
  {
    WordPowers();
  }

  /** The first length from `k` up whose codes end above the buffer. */
  function LengthFrom(h: Huffman, temp: nat, k: nat): (r: nat)
    requires Shaped(h) && temp < 0x10000 && k <= 17
    ensures k <= r <= 17
    decreases 17 - k
  {
    if temp < h.maxcode[k] then k else LengthFrom(h, temp, k + 1)
  }

  function Top16(j: Jpeg): (t: nat)
    ensures t < 0x10000
  {
    TopBounded(32, j.buf, 16);
    WordPowers();
    ShiftRight(j.buf, 16)
  }

  datatype Decoded = Decoded(value: int, j: Jpeg)

  /** `stbi__jpeg_huff_decode` after its refill: a value or -1. */
  function Lookup(j: Jpeg, h: Huffman): Decoded
    requires Shaped(h)
  {
    var f := h.fast[Peek9(j)];
    if f < 255 then
      var s := h.size[f];
      if s > j.bits then Decoded(-1, j) else Decoded(h.values[f], Consume(j, s))
    else
      var k := LengthFrom(h, Top16(j), FAST_BITS + 1);
      if k == 17 then Decoded(-1, j.(bits := j.bits - 16))
      else if k > j.bits then Decoded(-1, j)
      else
        var c := ShiftRight(j.buf, 32 - k) + h.delta[k];
        Decoded(if 0 <= c < 256 then h.values[c] else 0, Consume(j, k))
  }

  function HuffDecode(j: Jpeg, h: Huffman): Decoded
    requires Shaped(h)
  {
    Lookup(Refill(j, 16), h)
  }

  /** `stbi__jbias`. */
  function Bias(n: nat): int {
    1 - Pow2(n)
  }

  /** `stbi__extend_receive` after its refill: rotate, mask, and add the bias unless the sign bit is set. */
  function Received(j: Jpeg, n: nat): Decoded
    requires 1 <= n <= 15
  {
    RotateSplits(32, j.buf, n);
    var k := Rotate(32, j.buf, n);
    Decoded(And(k, Mask(n)) + (if j.buf >= Pow2(31) then 0 else Bias(n)),
            j.(buf := And(k, Not(32, Mask(n))), bits := j.bits - n))
  }

  function ExtendReceive(j: Jpeg, n: nat): Decoded
    requires 1 <= n <= 15
  {
    Received(Refill(j, n), n)
  }

  /** `stbi__extend_receive` is RECEIVE followed by EXTEND, and drops the bits it received. */
  lemma ReceivedIsExtended(j: Jpeg, n: nat)
    requires 1 <= n <= 15
    ensures Received(j, n) == Decoded(Extend(Receive(32, j.buf, 0, n), n), Consume(j, n))
  {
    hide Rotate, And, Not, ShiftUp, Receive, Pow2;
    RotateSplits(32, j.buf, n);
    SignIsUpperHalf(32, j.buf, n);
  }

  // ----- The combined table -----

  /** The entry `stbi__build_fast_ac` computes for nine bits `i`. */
  function FastAcEntry(h: Huffman, i: nat): int
    requires Shaped(h) && i < 512
  {
    var f := h.fast[i];
    if f == 255 then 0
    else
      var rs := h.values[f];
      var run, magbits, len := rs / 16, rs % 16, h.size[f];
      if magbits != 0 && len + magbits <= FAST_BITS then
        var v := ShiftRight(And(ShiftLeft(i, len), Mask(FAST_BITS)), FAST_BITS - magbits);
        var k := if v < Pow2(magbits - 1) then v + Bias(magbits) else v;
        if -128 <= k <= 127 then k * 256 + run * 16 + (len + magbits) else 0
      else 0
  }

  // ----- The loop over the AC coefficients -----

  type Place = n: nat | n < 64

  /** `stbi__jpeg_dezigzag`, with its padding for runs past the end. */
  const ZIGZAG: seq<Place> :=
    [0, 1, 8, 16, 9, 2, 3, 10, 17, 24, 32, 25, 18, 11, 4, 5] +
    [12, 19, 26, 33, 40, 48, 41, 34, 27, 20, 13, 6, 7, 14, 21, 28] +
    [35, 42, 49, 56, 57, 50, 43, 36, 29, 22, 15, 23, 30, 37, 44, 51] +
    [58, 59, 52, 45, 38, 31, 39, 46, 53, 60, 61, 54, 47, 55, 62, 63] +
    [63, 63, 63, 63, 63, 63, 63, 63, 63, 63, 63, 63, 63, 63, 63]

  /** The cast to `short`. */
  function ToShort(v: int): int {
    (v + 0x8000) % 0x1_0000 - 0x8000
  }

  /** Stores a dequantised coefficient at place `k` of the zigzag order. */
  function Store(data: seq<int>, k: nat, v: int, dequant: seq<nat>): (r: seq<int>)
    requires |data| == |dequant| == 64 && k < 79
    ensures |r| == 64
  {
    var zig := ZIGZAG[k];
    data[zig := ToShort(v * dequant[zig])]
  }

  datatype Block = Bad(j: Jpeg) | Done(j: Jpeg, data: seq<int>)

  datatype Step = Fail(j: Jpeg) | End(j: Jpeg) | Skip(j: Jpeg) | Coefficient(j: Jpeg, run: nat, v: int)

  /** One round without the table: a run-size symbol, then the coefficient's bits. */
  function SlowStep(j: Jpeg, h: Huffman): (s: Step)
    requires Shaped(h)
    ensures s.Coefficient? ==> s.run < 16
  {
    var Decoded(rs, j1) := HuffDecode(j, h);
    if rs < 0 then Fail(j1)
    else
      SymbolIsByte(j, h);
      var s, r := rs % 16, rs / 16;
      if s == 0 then if rs != 0xF0 then End(j1) else Skip(j1)
      else
        var Decoded(v, j2) := ExtendReceive(j1, s);
        Coefficient(j2, r, v)
  }

  lemma SymbolIsByte(j: Jpeg, h: Huffman)
    requires Shaped(h)
    ensures -1 <= HuffDecode(j, h).value <= 255
  {
    hide Refill, Grow, ShiftRight, ShiftUp, LengthFrom;
  }

  /** One round with the table `fac`: a nonzero entry replaces both decoding steps. */
  function FastStep(j: Jpeg, h: Huffman, fac: seq<int>): (s: Step)
    requires Shaped(h) && |fac| == 512
    ensures s.Coefficient? ==> s.run < 16
  {
    var r := fac[Peek9(j)];
    if r != 0 then Coefficient(Consume(j, r % 16), r / 16 % 16, r / 256) else SlowStep(j, h)
  }

  function OneStep(j: Jpeg, h: Huffman, fac: seq<int>): (s: Step)
    requires Shaped(h) && (fac == [] || |fac| == 512)
    ensures s.Coefficient? ==> s.run < 16
  {
    if fac == [] then SlowStep(j, h) else FastStep(j, h, fac)
  }

  /** The `do` loop of `stbi__jpeg_decode_block` from place `k`; an empty `fac` is the loop without the table. */
  function AcLoop(j: Jpeg, k: nat, data: seq<int>, h: Huffman, fac: seq<int>, dequant: seq<nat>): Block
    requires Shaped(h) && (fac == [] || |fac| == 512) && |data| == |dequant| == 64 && k < 64
    decreases 64 - k
  {
    match OneStep(Refill(j, 16), h, fac)
    case Fail(j1) => Bad(j1)
    case End(j1) => Done(j1, data)
    case Skip(j1) => if k + 16 < 64 then AcLoop(j1, k + 16, data, h, fac, dequant) else Done(j1, data)
    case Coefficient(j1, run, v) =>
      var stored := Store(data, k + run, v, dequant);
      if k + run + 1 < 64 then AcLoop(j1, k + run + 1, stored, h, fac, dequant) else Done(j1, stored)
  }
}
