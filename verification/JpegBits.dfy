/** Bits of a machine word read from its top, as the JPEG bit buffer of external/stb/stb_image.h holds its stream. */
module JpegBits {
  import opened Bits

  /** Shift left by one in a word of `w` bits. */
  function Double(w: nat, b: nat): (r: nat)
    requires w >= 1 && b < Pow2(w)
    ensures r < Pow2(w)
  {
    if b < Pow2(w - 1) then 2 * b else 2 * b - Pow2(w)
  }

  /** `<<` in a word of `w` bits. */
  function ShiftUp(w: nat, b: nat, n: nat): (r: nat)
    requires w >= 1 && b < Pow2(w)
    ensures r < Pow2(w)
  {
    if n == 0 then b else Double(w, ShiftUp(w, b, n - 1))
  }

  /** Bit `k` from the top. */
  function Bit(w: nat, b: nat, k: nat): nat
    requires k < w
  {
    ShiftRight(b, w - 1 - k) % 2
  }

  /** RECEIVE of section F.2.2.4 of ITU-T T.81: `n` bits one after the other, starting at bit `from`. */
  function Receive(w: nat, b: nat, from: nat, n: nat): nat
    requires from + n <= w
  {
    if n == 0 then 0 else 2 * Receive(w, b, from, n - 1) + Bit(w, b, from + n - 1)
  }

  /** EXTEND of section F.2.2.1 of ITU-T T.81. */
  function Extend(v: nat, t: nat): int
    requires t >= 1
  {
    if v < Pow2(t - 1) then v - Pow2(t) + 1 else v
  }

  // ----- Shifts -----

  lemma {:induction false} ShiftRightTwice(b: nat, m: nat, n: nat)
    ensures ShiftRight(ShiftRight(b, m), n) == ShiftRight(b, m + n)
  {
    if m > 0 {
      ShiftRightTwice(b / 2, m - 1, n);
    }
  }

  lemma {:induction false} ShiftedOut(b: nat, w: nat)
    requires b < Pow2(w)
    ensures ShiftRight(b, w) == 0
  {
    if w > 0 {
      ShiftedOut(b / 2, w - 1);
    }
  }

  lemma ShiftRightStep(b: nat, n: nat)
    requires n >= 1
    ensures ShiftRight(b, n - 1) == 2 * ShiftRight(b, n) + ShiftRight(b, n - 1) % 2
  {
    ShiftRightTwice(b, n - 1, 1);
    assert ShiftRight(ShiftRight(b, n - 1), 1) == ShiftRight(ShiftRight(b, n - 1) / 2, 0);
  }

  /** Shifting the top `n` bits down is receiving them. */
  lemma {:induction false} TopIsReceived(w: nat, b: nat, n: nat)
    requires b < Pow2(w) && n <= w
    ensures ShiftRight(b, w - n) == Receive(w, b, 0, n)
  {
    if n == 0 {
      ShiftedOut(b, w);
    } else {
      TopIsReceived(w, b, n - 1);
      ShiftRightStep(b, w - n + 1);
    }
  }

  lemma {:induction false} ReceiveBounded(w: nat, b: nat, from: nat, n: nat)
    requires from + n <= w
    ensures Receive(w, b, from, n) < Pow2(n)
  {
    if n > 0 {
      ReceiveBounded(w, b, from, n - 1);
    }
  }

  lemma {:induction false} WithoutTop(b: nat, t: nat, m: nat)
    requires Pow2(t) <= b && m <= t
    ensures ShiftRight(b - Pow2(t), m) == ShiftRight(b, m) - Pow2(t - m)
  {
    if m > 0 {
      assert (b - Pow2(t)) / 2 == b / 2 - Pow2(t - 1);
      WithoutTop(b / 2, t - 1, m - 1);
    }
  }

  lemma ShiftRightFirst(x: nat, m: nat)
    ensures ShiftRight(x, m + 1) == ShiftRight(x / 2, m)
  {
  }

  lemma DoubleHalves(w: nat, b: nat)
    requires w >= 1 && b < Pow2(w)
    ensures Double(w, b) / 2 == if b < Pow2(w - 1) then b else b - Pow2(w - 1)
  {
    assert Pow2(w) == 2 * Pow2(w - 1);
    hide Pow2;
  }

  lemma EvenPower(t: nat, a: nat)
    requires t >= 1 && a >= Pow2(t)
    ensures (a - Pow2(t)) % 2 == a % 2
  {
    assert Pow2(t) == 2 * Pow2(t - 1);
    hide Pow2;
  }

  lemma BitOfDouble(w: nat, b: nat, k: nat)
    requires b < Pow2(w) && k + 1 < w
    ensures Bit(w, Double(w, b), k) == Bit(w, b, k + 1)
  {
    hide ShiftRight, Pow2, Double;
    var m := w - 2 - k;
    ShiftRightFirst(Double(w, b), m);
    DoubleHalves(w, b);
    if b >= Pow2(w - 1) {
      WithoutTop(b, w - 1, m);
      EvenPower(w - 1 - m, ShiftRight(b, m));
    }
  }

  lemma {:induction false} BitOfShiftUp(w: nat, b: nat, n: nat, k: nat)
    requires b < Pow2(w) && n + k < w
    ensures Bit(w, ShiftUp(w, b, n), k) == Bit(w, b, n + k)
    decreases n
  {
    hide Double, Bit;
    if n > 0 {
      BitOfDouble(w, ShiftUp(w, b, n - 1), k);
      BitOfShiftUp(w, b, n - 1, k + 1);
    }
  }

  /** After dropping `n` bits, what is received is what lay `n` bits further. */
  lemma {:induction false} ReceiveAfter(w: nat, b: nat, n: nat, from: nat, m: nat)
    requires b < Pow2(w) && n + from + m <= w && w >= 1
    ensures Receive(w, ShiftUp(w, b, n), from, m) == Receive(w, b, n + from, m)
    decreases m
  {
    hide Bit, ShiftUp;
    if m > 0 {
      ReceiveAfter(w, b, n, from, m - 1);
      BitOfShiftUp(w, b, n, from + m - 1);
    }
  }

  /** The top `t` bits, as a word of their own, hold the same stream. */
  lemma {:induction false} ReceiveFromTop(w: nat, b: nat, t: nat, from: nat, m: nat)
    requires b < Pow2(w) && from + m <= t <= w
    ensures Receive(t, ShiftRight(b, w - t), from, m) == Receive(w, b, from, m)
    decreases m
  {
    if m > 0 {
      ReceiveFromTop(w, b, t, from, m - 1);
      ShiftRightTwice(b, w - t, t - 1 - (from + m - 1));
    }
  }

  lemma {:induction false} TopBounded(w: nat, b: nat, t: nat)
    requires b < Pow2(w) && t <= w
    ensures ShiftRight(b, w - t) < Pow2(t)
  {
    TopIsReceived(w, b, t);
    ReceiveBounded(w, b, 0, t);
  }

  lemma {:induction false} ShiftUpTwice(w: nat, b: nat, m: nat, n: nat)
    requires w >= 1 && b < Pow2(w)
    ensures ShiftUp(w, ShiftUp(w, b, m), n) == ShiftUp(w, b, m + n)
    decreases n
  {
    if n > 0 {
      ShiftUpTwice(w, b, m, n - 1);
    }
  }

  /** The sign test: the top bit of the word is set exactly when a received value is in the upper half. */
  lemma {:induction false} SignIsUpperHalf(w: nat, b: nat, n: nat)
    requires b < Pow2(w) && 1 <= n <= w
    ensures b >= Pow2(w - 1) <==> Receive(w, b, 0, n) >= Pow2(n - 1)
    decreases n
  {
    if n == 1 {
      assert Receive(w, b, 0, 1) == 2 * Receive(w, b, 0, 0) + Bit(w, b, 0);
      TopBit(b, w - 1);
    } else {
      SignIsUpperHalf(w, b, n - 1);
    }
  }

  lemma {:induction false} TopBit(b: nat, t: nat)
    requires b < 2 * Pow2(t)
    ensures ShiftRight(b, t) == if b >= Pow2(t) then 1 else 0
  {
    if t > 0 {
      TopBit(b / 2, t - 1);
    }
  }

  // ----- Truncating and rotating -----

  lemma {:induction false} GetTop(x: nat, w: nat)
    requires w >= 1
    ensures Get(x, 0, w) == Get(x, 0, w - 1) || Get(x, 0, w) == Get(x, 0, w - 1) + Pow2(w - 1)
  {
    if w > 1 {
      GetTop(x / 2, w - 1);
    }
  }

  /** `(x << n) & mask` is the shift in the narrower word. */
  lemma {:induction false} MaskedShift(w: nat, x: nat, n: nat)
    requires w >= 1 && x < Pow2(w)
    ensures And(ShiftLeft(x, n), Mask(w)) == ShiftUp(w, x, n)
  {
    AndMask(ShiftLeft(x, n), w);
    MaskedGet(w, x, n);
  }

  lemma GetDoubled(w: nat, y: nat)
    requires w >= 1
    ensures Get(y, 0, w) < Pow2(w) && Get(2 * y, 0, w) == Double(w, Get(y, 0, w))
  {
    assert Get(2 * y, 0, w) == 2 * Get(y, 0, w - 1);
    assert Pow2(w) == 2 * Pow2(w - 1);
    hide Get, Pow2;
    GetTop(y, w);
    GetBounded(y, 0, w - 1);
    GetBounded(y, 0, w);
  }

  lemma {:induction false} MaskedGet(w: nat, x: nat, n: nat)
    requires w >= 1 && x < Pow2(w)
    ensures Get(ShiftLeft(x, n), 0, w) == ShiftUp(w, x, n)
    decreases n
  {
    if n == 0 {
      GetWhole(x, w);
    } else {
      var y := ShiftLeft(x, n - 1);
      assert ShiftLeft(x, n) == 2 * y;
      MaskedGet(w, x, n - 1);
      GetDoubled(w, y);
    }
  }

  /** A shifted word ends in zeros. */
  lemma {:induction false} ShiftUpEnds(w: nat, b: nat, n: nat) returns (a: nat)
    requires b < Pow2(w) && 1 <= w && n <= w
    ensures ShiftUp(w, b, n) == ShiftLeft(a, n) && a < Pow2(w - n)
  {
    if n == 0 {
      a := b;
    } else {
      a := ShiftUpEnds(w, b, n - 1);
      DoubleShifted(w, a, n);
      if a >= Pow2(w - n) {
        a := a - Pow2(w - n);
      }
    }
  }

  lemma {:induction false} DoubleShifted(w: nat, a: nat, n: nat)
    requires 1 <= n <= w && a < Pow2(w - n + 1) && ShiftLeft(a, n - 1) < Pow2(w)
    ensures Double(w, ShiftLeft(a, n - 1)) == ShiftLeft(if a < Pow2(w - n) then a else a - Pow2(w - n), n)
  {
    if n > 1 {
      ShiftLeftBelow(a, w - 1, n - 1);
      DoubleShifted(w - 1, a, n - 1);
    }
  }

  lemma {:induction false} ShiftLeftBelow(a: nat, w: nat, n: nat)
    requires 1 <= n <= w && a < Pow2(w - n + 1)
    ensures ShiftLeft(a, n - 1) < Pow2(w)
  {
    if n > 1 {
      ShiftLeftBelow(a, w - 1, n - 1);
    }
  }

  lemma {:induction false} OrBelow(a: nat, n: nat, low: nat)
    requires low < Pow2(n)
    ensures Or(ShiftLeft(a, n), low) == ShiftLeft(a, n) + low
  {
    if n > 0 {
      OrStep(ShiftLeft(a, n), low);
      OrBelow(a, n - 1, low / 2);
    }
  }

  lemma {:induction false} LowPart(a: nat, n: nat, low: nat)
    requires low < Pow2(n)
    ensures And(ShiftLeft(a, n) + low, Mask(n)) == low
  {
    AndMask(ShiftLeft(a, n) + low, n);
    GetLowPart(a, n, low);
  }

  lemma {:induction false} GetLowPart(a: nat, n: nat, low: nat)
    requires low < Pow2(n)
    ensures Get(ShiftLeft(a, n) + low, 0, n) == low
  {
    if n > 0 {
      GetLowPart(a, n - 1, low / 2);
      assert (ShiftLeft(a, n) + low) / 2 == ShiftLeft(a, n - 1) + low / 2;
    }
  }

  lemma NotMaskNone(w: nat)
    ensures Mask(0) < Pow2(w) && Not(w, Mask(0)) == Mask(w)
  {
  }

  lemma AndEven(x: nat, m: nat)
    requires m % 2 == 0
    ensures And(x, m) == 2 * And(x / 2, m / 2)
  {
  }

  lemma NotMaskHalves(w: nat, n: nat)
    requires 1 <= n <= w
    ensures Mask(n) < Pow2(w) && Mask(n - 1) < Pow2(w - 1)
    ensures Not(w, Mask(n)) % 2 == 0 && Not(w, Mask(n)) / 2 == Not(w - 1, Mask(n - 1))
  {
    PowerMonotone(n, w);
    PowerMonotone(n - 1, w - 1);
  }

  lemma {:induction false} HighPart(w: nat, a: nat, n: nat, low: nat)
    requires low < Pow2(n) && n <= w && a < Pow2(w - n)
    ensures Mask(n) < Pow2(w)
    ensures And(ShiftLeft(a, n) + low, Not(w, Mask(n))) == ShiftLeft(a, n)
  {
    hide And, Not, Mask;
    if n == 0 {
      NotMaskNone(w);
      AndMask(a, w);
      GetWhole(a, w);
    } else {
      HighPart(w - 1, a, n - 1, low / 2);
      assert (ShiftLeft(a, n) + low) / 2 == ShiftLeft(a, n - 1) + low / 2;
      NotMaskHalves(w, n);
      AndEven(ShiftLeft(a, n) + low, Not(w, Mask(n)));
    }
  }

  /** `stbi_lrot`: the shifted word with the bits that left it at the bottom. */
  function Rotate(w: nat, b: nat, n: nat): nat
    requires 1 <= w && b < Pow2(w) && n <= w
  {
    Or(ShiftUp(w, b, n), ShiftRight(b, w - n))
  }

  /** Masking a rotated word separates the bits received from the bits that remain. */
  lemma RotateSplits(w: nat, b: nat, n: nat)
    requires 1 <= w && b < Pow2(w) && n <= w
    ensures Mask(n) < Pow2(w)
    ensures And(Rotate(w, b, n), Mask(n)) == Receive(w, b, 0, n)
    ensures And(Rotate(w, b, n), Not(w, Mask(n))) == ShiftUp(w, b, n)
  {
    hide ShiftUp, And, Or, Mask, Not, ShiftLeft, ShiftRight, Pow2, Receive;
    var a := ShiftUpEnds(w, b, n);
    TopBounded(w, b, n);
    TopIsReceived(w, b, n);
    var low := ShiftRight(b, w - n);
    OrBelow(a, n, low);
    LowPart(a, n, low);
    HighPart(w, a, n, low);
  }
}
