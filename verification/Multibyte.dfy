/** Multi-byte arithmetic by chained instructions: what the carry and overflow flags of
    emu/core/instructions.cpp add up to, for numbers of any length. */
module Multibyte {
  import opened Words
  import opened Isa
  import opened CpuModel

  function Pow256(n: nat): (p: nat)
    ensures p >= 1
  {
    if n == 0 then 1 else 256 * Pow256(n - 1)
  }

  /** A little-endian number. */
  function Value(xs: seq<Byte>): nat {
    if xs == [] then 0 else xs[0] + 256 * Value(xs[1..])
  }

  function Carry(c: bool): nat {
    if c then 1 else 0
  }

  /** A carry standing above `n` bytes. */
  function CarryAbove(n: nat, c: bool): nat {
    if c then Pow256(n) else 0
  }

  lemma {:induction false} ValueBounded(xs: seq<Byte>)
    ensures Value(xs) < Pow256(|xs|)
  {
    if xs != [] {
      ValueBounded(xs[1..]);
    }
  }

  // ----- Addition and subtraction -----

  predicate Adds(op: ReadOp) {
    op == Adc || op == Sbc
  }

  /** What the instruction adds for an operand byte: SBC adds the complement. */
  function Addend(op: ReadOp, y: Byte): Byte
    requires Adds(op)
  {
    if op == Adc then y else 0xFF - y
  }

  function Addends(op: ReadOp, ys: seq<Byte>): (zs: seq<Byte>)
    requires Adds(op)
    ensures |zs| == |ys|
  {
    if ys == [] then [] else [Addend(op, ys[0])] + Addends(op, ys[1..])
  }

  /** LDA x, then ADC or SBC y. */
  function AddByte(op: ReadOp, r: Regs, x: Byte, y: Byte): Regs {
    ReadEffect(op, Load(r, RegA, x), y)
  }

  /** The result bytes when every byte, from the lowest, goes through `AddByte`. */
  function Chain(op: ReadOp, r: Regs, xs: seq<Byte>, ys: seq<Byte>): (zs: seq<Byte>)
    requires |xs| == |ys|
    ensures |zs| == |xs|
    decreases |xs|
  {
    if xs == [] then []
    else
      var r' := AddByte(op, r, xs[0], ys[0]);
      [r'.acc] + Chain(op, r', xs[1..], ys[1..])
  }

  /** The registers after the last byte. */
  function ChainEnd(op: ReadOp, r: Regs, xs: seq<Byte>, ys: seq<Byte>): Regs
    requires |xs| == |ys|
    decreases |xs|
  {
    if xs == [] then r else ChainEnd(op, AddByte(op, r, xs[0], ys[0]), xs[1..], ys[1..])
  }

  lemma AddByteSum(op: ReadOp, r: Regs, x: Byte, y: Byte)
    requires Adds(op)
    ensures var r' := AddByte(op, r, x, y);
            r'.acc + 256 * Carry(r'.flags.carry) == x + Addend(op, y) + Carry(r.flags.carry)
  {
  }

  lemma {:induction false} ChainedSum(op: ReadOp, r: Regs, xs: seq<Byte>, ys: seq<Byte>)
    requires Adds(op) && |xs| == |ys|
    ensures Value(Chain(op, r, xs, ys)) + CarryAbove(|xs|, ChainEnd(op, r, xs, ys).flags.carry)
            == Value(xs) + Value(Addends(op, ys)) + Carry(r.flags.carry)
    decreases |xs|
  {
    hide AddByte;
    if xs != [] {
      var r' := AddByte(op, r, xs[0], ys[0]);
      AddByteSum(op, r, xs[0], ys[0]);
      ChainedSum(op, r', xs[1..], ys[1..]);
      assert Chain(op, r, xs, ys)[1..] == Chain(op, r', xs[1..], ys[1..]);
      assert Addends(op, ys)[1..] == Addends(op, ys[1..]);
    }
  }

  lemma {:induction false} AddendsValue(op: ReadOp, ys: seq<Byte>)
    requires Adds(op)
    ensures Value(Addends(op, ys)) == if op == Adc then Value(ys) else Pow256(|ys|) - 1 - Value(ys)
  {
    if ys != [] {
      AddendsValue(op, ys[1..]);
      assert Addends(op, ys)[1..] == Addends(op, ys[1..]);
    }
  }

  /** Chained ADC: A + B + c modulo 256^n, with the true carry out. */
  lemma ChainedAdc(r: Regs, xs: seq<Byte>, ys: seq<Byte>)
    requires |xs| == |ys|
    ensures var exact := Value(xs) + Value(ys) + Carry(r.flags.carry);
            var carry := ChainEnd(Adc, r, xs, ys).flags.carry;
            && (carry <==> exact >= Pow256(|xs|))
            && Value(Chain(Adc, r, xs, ys)) == if carry then exact - Pow256(|xs|) else exact
  {
    ChainedSum(Adc, r, xs, ys);
    AddendsValue(Adc, ys);
    ValueBounded(Chain(Adc, r, xs, ys));
  }

  /** Chained SBC: A - B - (1 - c), where a clear carry out is a borrow of 256^n. */
  lemma ChainedSbc(r: Regs, xs: seq<Byte>, ys: seq<Byte>)
    requires |xs| == |ys|
    ensures var exact := Value(xs) - Value(ys) - (1 - Carry(r.flags.carry));
            var noBorrow := ChainEnd(Sbc, r, xs, ys).flags.carry;
            && (noBorrow <==> exact >= 0)
            && Value(Chain(Sbc, r, xs, ys)) == if noBorrow then exact else exact + Pow256(|xs|)
  {
    ChainedSum(Sbc, r, xs, ys);
    AddendsValue(Sbc, ys);
    ValueBounded(Chain(Sbc, r, xs, ys));
    ValueBounded(xs);
  }

  // ----- Signed overflow -----

  /** Two's complement reading of a little-endian number. */
  function SignedValue(xs: seq<Byte>): int
    requires xs != []
  {
    Value(xs) - CarryAbove(|xs|, Negative(xs[|xs| - 1]))
  }

  lemma {:induction false} TopBitIsHalf(xs: seq<Byte>)
    requires xs != []
    ensures Negative(xs[|xs| - 1]) <==> 2 * Value(xs) >= Pow256(|xs|)
  {
    var low, rest := xs[0], xs[1..];
    assert Value(xs) == low + 256 * Value(rest) && Pow256(|xs|) == 256 * Pow256(|rest|);
    if |xs| == 1 {
      assert rest == [] && Value(rest) == 0 && Pow256(0) == 1;
    } else {
      TopBitIsHalf(rest);
      EvenPower(|rest|);
      hide Value, Pow256;
      HalfWithLow(low, Value(rest), Pow256(|rest|));
    }
  }

  lemma EvenPower(n: nat)
    requires n > 0
    ensures Pow256(n) % 2 == 0
  {
    var p := Pow256(n - 1);
    assert Pow256(n) == 2 * (128 * p);
    hide Pow256;
  }

  lemma HalfWithLow(low: Byte, rest: nat, p: nat)
    requires p % 2 == 0
    ensures 2 * rest >= p <==> 2 * (low + 256 * rest) >= 256 * p
  {
    var h := p / 2;
    assert p == 2 * h;
  }

  lemma TopByte(op: ReadOp, r: Regs, x: Byte, y: Byte)
    requires Adds(op)
    ensures var r' := AddByte(op, r, x, y);
            && r'.flags.ov == SignFlipped(x, y, r'.acc)
            && (op == Adc ==> (r'.flags.ov <==>
                 Carry(r'.flags.carry) + Carry(Negative(r'.acc)) != Carry(Negative(x)) + Carry(Negative(y))))
  {
  }

  lemma {:induction false} ChainTop(op: ReadOp, r: Regs, xs: seq<Byte>, ys: seq<Byte>)
    requires Adds(op) && |xs| == |ys| && xs != []
    ensures var z, e := Chain(op, r, xs, ys)[|xs| - 1], ChainEnd(op, r, xs, ys);
            var x, y := xs[|xs| - 1], ys[|xs| - 1];
            && e.flags.ov == SignFlipped(x, y, z)
            && (op == Adc ==> (e.flags.ov <==>
                 Carry(e.flags.carry) + Carry(Negative(z)) != Carry(Negative(x)) + Carry(Negative(y))))
    decreases |xs|
  {
    hide AddByte, SignFlipped, Negative;
    var r' := AddByte(op, r, xs[0], ys[0]);
    if |xs| == 1 {
      TopByte(op, r, xs[0], ys[0]);
    } else {
      ChainTop(op, r', xs[1..], ys[1..]);
    }
  }

  /** After chained ADC the V flag tells exactly whether the signed sum leaves the n-byte range. */
  lemma ChainedOverflow(r: Regs, xs: seq<Byte>, ys: seq<Byte>)
    requires |xs| == |ys| && xs != []
    ensures var sum := SignedValue(xs) + SignedValue(ys) + Carry(r.flags.carry);
            && (ChainEnd(Adc, r, xs, ys).flags.ov <==> !(0 <= 2 * sum + Pow256(|xs|) < 2 * Pow256(|xs|)))
            && (!ChainEnd(Adc, r, xs, ys).flags.ov ==> SignedValue(Chain(Adc, r, xs, ys)) == sum)
  {
    hide Chain, ChainEnd, Value, Negative;
    var zs := Chain(Adc, r, xs, ys);
    ChainedSum(Adc, r, xs, ys);
    AddendsValue(Adc, ys);
    ChainTop(Adc, r, xs, ys);
    ValueBounded(zs);
    TopBitIsHalf(zs);
  }

  /** SBC's V flag looks at the operand, not at what is added: with b = 1 - c it is the signed overflow of the
      subtraction if and only if A - (v + b) stays in the half of A it starts in, going around the circle of 256. */
  lemma SbcOverflowExact(r: Regs, v: Byte)
    ensures var b := 1 - Carry(r.flags.carry);
            var exact := Signed(r.acc) - Signed(v) - b;
            (ReadEffect(Sbc, r, v).flags.ov <==> !(-128 <= exact < 128))
            <==> (if r.acc < 128 then v + b <= r.acc || v + b > r.acc + 128 else v + b <= r.acc - 128 || v + b > r.acc)
  {
  }

  /** 0x50 - 0xB0 overflows (80 + 80 = 160) and the flag stays clear. */
  lemma SbcOverflowMissed()
    ensures var r := Regs(0x50, 0, 0, 0, CLEAR_FLAGS.(carry := true));
            !ReadEffect(Sbc, r, 0xB0).flags.ov && Signed(0x50) - Signed(0xB0) == 160
  {
  }

  // ----- Shifts -----

  /** ROL of each byte, from the lowest. */
  function RolChain(c: bool, xs: seq<Byte>): (zs: seq<Byte>)
    ensures |zs| == |xs|
    decreases |xs|
  {
    if xs == [] then [] else [ModifyResult(Rol, c, xs[0])] + RolChain(ModifyCarry(Rol, c, xs[0]), xs[1..])
  }

  predicate RolCarry(c: bool, xs: seq<Byte>)
    decreases |xs|
  {
    if xs == [] then c else RolCarry(ModifyCarry(Rol, c, xs[0]), xs[1..])
  }

  /** ASL of the lowest byte, then ROL upwards. */
  function LeftChain(c: bool, xs: seq<Byte>): (zs: seq<Byte>)
    requires xs != []
    ensures |zs| == |xs|
  {
    [ModifyResult(Asl, c, xs[0])] + RolChain(ModifyCarry(Asl, c, xs[0]), xs[1..])
  }

  predicate LeftCarry(c: bool, xs: seq<Byte>)
    requires xs != []
  {
    RolCarry(ModifyCarry(Asl, c, xs[0]), xs[1..])
  }

  /** ROR of each byte, from the highest. */
  function RorChain(c: bool, xs: seq<Byte>): (zs: seq<Byte>)
    ensures |zs| == |xs|
    decreases |xs|
  {
    if xs == [] then [] else [ModifyResult(Ror, RorCarry(c, xs[1..]), xs[0])] + RorChain(c, xs[1..])
  }

  predicate RorCarry(c: bool, xs: seq<Byte>)
    decreases |xs|
  {
    if xs == [] then c else ModifyCarry(Ror, RorCarry(c, xs[1..]), xs[0])
  }

  /** LSR of the highest byte, then ROR downwards. */
  function RightChain(c: bool, xs: seq<Byte>): (zs: seq<Byte>)
    requires xs != []
    ensures |zs| == |xs|
  {
    var top := |xs| - 1;
    RorChain(ModifyCarry(Lsr, c, xs[top]), xs[..top]) + [ModifyResult(Lsr, c, xs[top])]
  }

  predicate RightCarry(c: bool, xs: seq<Byte>)
    requires xs != []
  {
    RorCarry(ModifyCarry(Lsr, c, xs[|xs| - 1]), xs[..|xs| - 1])
  }

  lemma FirstShiftIsRotateFromClear(v: Byte, c: bool)
    ensures ModifyResult(Asl, c, v) == ModifyResult(Rol, false, v)
    ensures ModifyCarry(Asl, c, v) == ModifyCarry(Rol, false, v)
    ensures ModifyResult(Lsr, c, v) == ModifyResult(Ror, false, v)
    ensures ModifyCarry(Lsr, c, v) == ModifyCarry(Ror, false, v)
  {
  }

  /** Chained rotations left double the number, the carry entering below and leaving above. */
  lemma {:induction false} ChainedRol(c: bool, xs: seq<Byte>)
    ensures Value(RolChain(c, xs)) + CarryAbove(|xs|, RolCarry(c, xs)) == 2 * Value(xs) + Carry(c)
    decreases |xs|
  {
    if xs != [] {
      var c' := ModifyCarry(Rol, c, xs[0]);
      assert ModifyResult(Rol, c, xs[0]) + 256 * Carry(c') == 2 * xs[0] + Carry(c);
      ChainedRol(c', xs[1..]);
      assert RolChain(c, xs)[1..] == RolChain(c', xs[1..]);
    }
  }

  /** ASL and then ROL upwards doubles the number, whatever the carry was; what does not fit leaves in the carry. */
  lemma ChainedLeft(c: bool, xs: seq<Byte>)
    requires xs != []
    ensures Value(LeftChain(c, xs)) + CarryAbove(|xs|, LeftCarry(c, xs)) == 2 * Value(xs)
  {
    hide ModifyResult, ModifyCarry, Value, CarryAbove;
    FirstShiftIsRotateFromClear(xs[0], c);
    ChainedRol(false, xs);
  }

  /** Chained rotations right halve it, the carry entering above and the remainder leaving in the carry. */
  lemma {:induction false} ChainedRor(c: bool, xs: seq<Byte>)
    ensures 2 * Value(RorChain(c, xs)) + Carry(RorCarry(c, xs)) == Value(xs) + CarryAbove(|xs|, c)
    decreases |xs|
  {
    if xs != [] {
      var c' := RorCarry(c, xs[1..]);
      assert 2 * ModifyResult(Ror, c', xs[0]) + Carry(ModifyCarry(Ror, c', xs[0])) == xs[0] + 256 * Carry(c');
      ChainedRor(c, xs[1..]);
      assert RorChain(c, xs)[1..] == RorChain(c, xs[1..]);
    }
  }

  /** The highest byte first: the rest of the chain starts from its carry. */
  lemma {:induction false} RorFromTop(c: bool, xs: seq<Byte>, x: Byte)
    ensures RorChain(c, xs + [x]) == RorChain(ModifyCarry(Ror, c, x), xs) + [ModifyResult(Ror, c, x)]
    ensures RorCarry(c, xs + [x]) == RorCarry(ModifyCarry(Ror, c, x), xs)
    decreases |xs|
  {
    hide ModifyResult, ModifyCarry;
    var all := xs + [x];
    if xs == [] {
      assert all[1..] == [];
    } else {
      RorFromTop(c, xs[1..], x);
      assert all[1..] == xs[1..] + [x];
    }
  }

  /** LSR and then ROR downwards halves the number, whatever the carry was; the remainder leaves in the carry. */
  lemma ChainedRight(c: bool, xs: seq<Byte>)
    requires xs != []
    ensures 2 * Value(RightChain(c, xs)) + Carry(RightCarry(c, xs)) == Value(xs)
  {
    hide ModifyResult, ModifyCarry, Value;
    var top := |xs| - 1;
    FirstShiftIsRotateFromClear(xs[top], c);
    RorFromTop(false, xs[..top], xs[top]);
    assert xs[..top] + [xs[top]] == xs;
    ChainedRor(false, xs);
  }
}
