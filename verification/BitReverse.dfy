/** `stbi__bitreverse16` and `stbi__bit_reverse` (external/stb/stb_image.h): four rounds of masked swaps reverse sixteen
    bits. */
module BitReverse {
  import opened Bits
  import opened CanonicalCode

  // ----- Bits of the operators -----

  lemma AndHalves(a: nat, b: nat)
    ensures And(a, b) % 2 == (if a % 2 == 1 && b % 2 == 1 then 1 else 0) && And(a, b) / 2 == And(a / 2, b / 2)
  {
    hide And;
    AndStep(a, b);
    BitProduct(a % 2, b % 2);
    Halves((a % 2) * (b % 2), And(a / 2, b / 2));
  }

  lemma BitProduct(x: nat, y: nat)
    requires x < 2 && y < 2
    ensures x * y == if x == 1 && y == 1 then 1 else 0
  {
    if x == 0 {
      assert x * y == 0;
    } else {
      assert x == 1;
    }
  }

  lemma Halves(bit: nat, rest: nat)
    requires bit < 2
    ensures (bit + 2 * rest) % 2 == bit && (bit + 2 * rest) / 2 == rest
  {
  }

  lemma {:induction false} BitOfAnd(a: nat, b: nat, k: nat)
    ensures BitAt(And(a, b), k) == if BitAt(a, k) == 1 && BitAt(b, k) == 1 then 1 else 0
  {
    hide And;
    AndHalves(a, b);
    if k > 0 {
      BitOfHalf(And(a, b), k);
      BitOfHalf(a, k);
      BitOfHalf(b, k);
      BitOfAnd(a / 2, b / 2, k - 1);
    }
  }

  lemma {:induction false} BitOfOr(a: nat, b: nat, k: nat)
    ensures BitAt(Or(a, b), k) == if BitAt(a, k) == 1 || BitAt(b, k) == 1 then 1 else 0
  {
    hide Or;
    OrStep(a, b);
    if k > 0 {
      BitOfHalf(Or(a, b), k);
      BitOfHalf(a, k);
      BitOfHalf(b, k);
      BitOfOr(a / 2, b / 2, k - 1);
    }
  }

  lemma {:induction false} BitOfLeft(a: nat, m: nat, k: nat)
    ensures BitAt(ShiftLeft(a, m), k) == if k < m then 0 else BitAt(a, k - m)
    decreases m
  {
    if m > 0 && k > 0 {
      BitOfHalf(ShiftLeft(a, m), k);
      BitOfLeft(a, m - 1, k - 1);
    }
  }

  lemma {:induction false} BitOfRight(a: nat, m: nat, k: nat)
    ensures BitAt(ShiftRight(a, m), k) == BitAt(a, m + k)
    decreases m
  {
    if m > 0 {
      BitOfRight(a / 2, m - 1, k);
      BitOfHalf(a, m + k);
    }
  }

  /** Numbers of `s` bits are equal when their bits are. */
  lemma {:induction false} SameBits(a: nat, b: nat, s: nat)
    requires forall k :: 0 <= k < s ==> BitAt(a, k) == BitAt(b, k)
    ensures Low(a, s) == Low(b, s)
  {
    if s > 0 {
      SameBits(a, b, s - 1);
    }
  }

  // ----- Masks -----

  /** Every other block of `m` bits below sixteen, the lowest block first. */
  ghost predicate Striped(mask: nat, m: nat)
    requires m >= 1
  {
    forall k: nat :: BitAt(mask, k) == if k < 16 && k / m % 2 == 0 then 1 else 0
  }

  lemma {:induction false} NoBitsAbove(x: nat, s: nat, k: nat)
    requires x < Pow2(s) && k >= s
    ensures BitAt(x, k) == 0
    decreases k
  {
    if k > 0 {
      BitOfHalf(x, k);
      NoBitsAbove(x / 2, if s > 0 then s - 1 else 0, k - 1);
    }
  }

  lemma TwoBytes(low: nat, high: nat, k: nat)
    requires low < 256 && high < 256
    ensures BitAt(low + 256 * high, k) == if k < 8 then BitAt(low, k) else if k < 16 then BitAt(high, k - 8) else 0
  {
    WordPowers();
    hide ShiftRight, Pow2;
    LowOfTwo(low, high, 8, k);
    if k >= 16 {
      NoBitsAbove(high, 8, k - 8);
    }
  }

  lemma {:induction false} LowOfTwo(low: nat, high: nat, s: nat, k: nat)
    requires low < Pow2(s)
    ensures BitAt(low + Pow2(s) * high, k) == if k < s then BitAt(low, k) else BitAt(high, k - s)
    decreases s
  {
    if s > 0 {
      var x := low + Pow2(s) * high;
      assert Pow2(s) * high == 2 * (Pow2(s - 1) * high);
      assert x / 2 == low / 2 + Pow2(s - 1) * high && x % 2 == low % 2;
      if k > 0 {
        BitOfHalf(x, k);
        BitOfHalf(low, k);
        LowOfTwo(low / 2, high, s - 1, k - 1);
      }
    } else {
      assert low == 0 && Pow2(0) * high == high;
    }
  }

  lemma NibbleBits(k: nat)
    requires k < 4
    ensures BitAt(5, k) == (if k % 2 == 0 then 1 else 0) && BitAt(3, k) == (if k / 2 == 0 then 1 else 0)
    ensures BitAt(15, k) == 1
  {
    match k
    case 0 =>
    case 1 => assert BitAt(5, 1) == 0 && BitAt(3, 1) == 1 && BitAt(15, 1) == 1;
    case 2 => assert BitAt(5, 2) == 1 && BitAt(3, 2) == 0 && BitAt(15, 2) == 1;
    case _ => assert BitAt(5, 3) == 0 && BitAt(3, 3) == 0 && BitAt(15, 3) == 1;
  }

  lemma ByteBits(k: nat)
    requires k < 8
    ensures BitAt(0x55, k) == (if k % 2 == 0 then 1 else 0) && BitAt(0x33, k) == (if k / 2 % 2 == 0 then 1 else 0)
    ensures BitAt(0x0F, k) == (if k / 4 % 2 == 0 then 1 else 0) && BitAt(0xFF, k) == 1
  {
    FourPower();
    hide BitAt, Pow2;
    LowOfTwo(5, 5, 4, k);
    LowOfTwo(3, 3, 4, k);
    LowOfTwo(15, 0, 4, k);
    LowOfTwo(15, 15, 4, k);
    NibbleBits(if k < 4 then k else k - 4);
    if k >= 4 {
      NoBits(k - 4);
    }
  }

  lemma FourPower()
    ensures Pow2(4) == 16
  {
  }

  lemma {:induction false} NoBits(k: nat)
    ensures BitAt(0, k) == 0
  {
    if k > 0 {
      NoBits(k - 1);
    }
  }

  lemma Masks()
    ensures Striped(0x5555, 1) && Striped(0x3333, 2) && Striped(0x0F0F, 4) && Striped(0x00FF, 8)
  {
    hide BitAt;
    forall k: nat
      ensures BitAt(0x5555, k) == if k < 16 && k / 1 % 2 == 0 then 1 else 0
      ensures BitAt(0x3333, k) == if k < 16 && k / 2 % 2 == 0 then 1 else 0
      ensures BitAt(0x0F0F, k) == if k < 16 && k / 4 % 2 == 0 then 1 else 0
      ensures BitAt(0x00FF, k) == if k < 16 && k / 8 % 2 == 0 then 1 else 0
    {
      TwoBytes(0x55, 0x55, k);
      TwoBytes(0x33, 0x33, k);
      TwoBytes(0x0F, 0x0F, k);
      TwoBytes(0xFF, 0x00, k);
      if k < 8 {
        ByteBits(k);
      } else if k < 16 {
        ByteBits(k - 8);
        NoBits(k - 8);
      }
    }
  }

  // ----- The network -----

  /** `((n & mask) >> m) | ((n & low) << m)`, where the first mask is the second one block up. */
  function SwapBlocks(n: nat, m: nat, low: nat): nat {
    Or(ShiftRight(And(n, ShiftLeft(low, m)), m), ShiftLeft(And(n, low), m))
  }

  /** The bit a block swap brings to place `k`. */
  function Partner(m: nat, k: nat): nat
    requires m >= 1
  {
    if k / m % 2 == 0 then k + m else if k >= m then k - m else 0
  }

  lemma BlockUp(m: nat, k: nat)
    requires m in {1, 2, 4, 8}
    ensures (k + m) / m == k / m + 1 && (k >= m ==> (k - m) / m == k / m - 1) && (k / m % 2 == 1 ==> k >= m)
    ensures k < 16 && k / m % 2 == 0 ==> k + m < 16
  {
  }

  lemma SwappedBit(n: nat, m: nat, low: nat, k: nat)
    requires m in {1, 2, 4, 8} && Striped(low, m)
    ensures BitAt(SwapBlocks(n, m, low), k) == if k < 16 then BitAt(n, Partner(m, k)) else 0
  {
    hide And, Or, ShiftLeft, ShiftRight, BitAt;
    BlockUp(m, k);
    var up, down := And(n, ShiftLeft(low, m)), And(n, low);
    BitOfOr(ShiftRight(up, m), ShiftLeft(down, m), k);
    BitOfRight(up, m, k);
    BitOfAnd(n, ShiftLeft(low, m), m + k);
    BitOfLeft(low, m, m + k);
    BitOfLeft(down, m, k);
    OneOrZero(n, k + m);
    if k >= m {
      BitOfAnd(n, low, k - m);
      OneOrZero(n, k - m);
    }
  }

  lemma OneOrZero(n: nat, k: nat)
    ensures BitAt(n, k) == 0 || BitAt(n, k) == 1
  {
  }

  /** `stbi__bitreverse16`. */
  function Network(n: nat): nat {
    var a := Or(ShiftRight(And(n, 0xAAAA), 1), ShiftLeft(And(n, 0x5555), 1));
    var b := Or(ShiftRight(And(a, 0xCCCC), 2), ShiftLeft(And(a, 0x3333), 2));
    var c := Or(ShiftRight(And(b, 0xF0F0), 4), ShiftLeft(And(b, 0x0F0F), 4));
    Or(ShiftRight(And(c, 0xFF00), 8), ShiftLeft(And(c, 0x00FF), 8))
  }

  lemma NetworkSwaps(n: nat)
    ensures Network(n) == SwapBlocks(SwapBlocks(SwapBlocks(SwapBlocks(n, 1, 0x5555), 2, 0x3333), 4, 0x0F0F), 8, 0x00FF)
  {
    assert ShiftLeft(0x5555, 1) == 0xAAAA && ShiftLeft(0x3333, 2) == 0xCCCC && ShiftLeft(0x0F0F, 4) == 0xF0F0;
    assert ShiftLeft(0x00FF, 8) == 0xFF00 by {
      ShiftLeftValue(0x00FF, 8);
      WordPowers();
    }
    hide And, Or, ShiftLeft, ShiftRight;
  }

  lemma Partners(k: nat)
    requires k < 16
    ensures var k8 := Partner(8, k); var k4 := Partner(4, k8); var k2 := Partner(2, k4);
            k8 < 16 && k4 < 16 && k2 < 16 && Partner(1, k2) == 15 - k
  {
  }

  lemma {:induction false} BitsBound(x: nat, s: nat)
    requires forall k: nat :: k >= s ==> BitAt(x, k) == 0
    ensures x < Pow2(s)
  {
    if s > 0 {
      forall k: nat | k >= s - 1
        ensures BitAt(x / 2, k) == 0
      {
        BitOfHalf(x, k + 1);
      }
      BitsBound(x / 2, s - 1);
    } else if x > 0 {
      var k := TopBitOf(x);
    }
  }

  lemma {:induction false} TopBitOf(x: nat) returns (k: nat)
    requires x > 0
    ensures BitAt(x, k) == 1
  {
    if x == 1 {
      k := 0;
    } else {
      k := TopBitOf(x / 2);
      BitOfHalf(x, k + 1);
      k := k + 1;
    }
  }

  /** The four swaps reverse the low sixteen bits of every number. */
  lemma NetworkReverses(n: nat)
    ensures Network(n) == Prefix(n, 16)
  {
    hide SwapBlocks, BitAt, Prefix, Network, Partner;
    Masks();
    NetworkSwaps(n);
    var a := SwapBlocks(n, 1, 0x5555);
    var b := SwapBlocks(a, 2, 0x3333);
    var c := SwapBlocks(b, 4, 0x0F0F);
    var r := SwapBlocks(c, 8, 0x00FF);
    forall k: nat
      ensures BitAt(r, k) == if k < 16 then BitAt(Prefix(n, 16), k) else 0
    {
      SwappedBit(c, 8, 0x00FF, k);
      if k < 16 {
        Partners(k);
        SwappedBit(b, 4, 0x0F0F, Partner(8, k));
        SwappedBit(a, 2, 0x3333, Partner(4, Partner(8, k)));
        SwappedBit(n, 1, 0x5555, Partner(2, Partner(4, Partner(8, k))));
        ReversedBit(n, 16, k);
      }
    }
    BitsBound(r, 16);
    PrefixBounded(n, 16);
    SameBits(r, Prefix(n, 16), 16);
    SmallIsLow(r, 16);
    SmallIsLow(Prefix(n, 16), 16);
  }

  lemma {:induction false} ShiftedPrefix(v: nat, s: nat, n: nat)
    ensures ShiftRight(Prefix(v, s + n), n) == Prefix(v, s)
    decreases n
  {
    if n > 0 {
      ShiftedPrefix(v, s, n - 1);
    }
  }

  /** `stbi__bit_reverse`: the low `bits` bits in reverse order. */
  function Reverse(v: nat, bits: nat): (r: nat)
    requires bits <= 16
    ensures r == Prefix(v, bits)
  {
    NetworkReverses(v);
    ShiftedPrefix(v, bits, 16 - bits);
    ShiftRight(Network(v), 16 - bits)
  }
}
