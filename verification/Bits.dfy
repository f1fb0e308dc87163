/** The bit-field routines of emu/util/bits.hpp, on naturals: `setbits` and `BitField` as written with `&`, `|`,
    `~` and shifts, against reading and writing a field one bit at a time. */
module Bits {

  function Pow2(n: nat): (p: nat)
    ensures p >= 1
  {
    if n == 0 then 1 else 2 * Pow2(n - 1)
  }

  lemma WordPowers()
    ensures Pow2(2) == 4 && Pow2(3) == 8 && Pow2(5) == 0x20 && Pow2(6) == 0x40 && Pow2(8) == 0x100
    ensures Pow2(10) == 0x400 && Pow2(11) == 0x800 && Pow2(12) == 0x1000 && Pow2(14) == 0x4000
    ensures Pow2(15) == 0x8000 && Pow2(16) == 0x10000
  {
    assert Pow2(4) == 0x10;
    assert Pow2(8) == 0x100;
    assert Pow2(12) == 0x1000;
  }

  // ----- Bitwise operators -----

  function And(a: nat, b: nat): nat {
    if a == 0 || b == 0 then 0 else (a % 2) * (b % 2) + 2 * And(a / 2, b / 2)
  }

  function Or(a: nat, b: nat): nat
    decreases a + b
  {
    if a == 0 then b else if b == 0 then a
    else (if a % 2 == 1 || b % 2 == 1 then 1 else 0) + 2 * Or(a / 2, b / 2)
  }

  function Xor(a: nat, b: nat): nat
    decreases a + b
  {
    if a == 0 then b else if b == 0 then a
    else (if a % 2 != b % 2 then 1 else 0) + 2 * Xor(a / 2, b / 2)
  }

  function ShiftLeft(n: nat, b: nat): nat {
    if b == 0 then n else 2 * ShiftLeft(n, b - 1)
  }

  function ShiftRight(n: nat, b: nat): nat {
    if b == 0 then n else ShiftRight(n / 2, b - 1)
  }

  /** Complement in a word of `w` bits. */
  function Not(w: nat, a: nat): nat
    requires a < Pow2(w)
  {
    Pow2(w) - 1 - a
  }

  /** `get_mask_nbits`. */
  function Mask(nbits: nat): nat {
    Pow2(nbits) - 1
  }

  /** `setbits` in a word of `w` bits (the source has w = 64). */
  function SetBits(w: nat, num: nat, bitno: nat, nbits: nat, data: nat): nat
    requires num < Pow2(w) && bitno + nbits <= w
  {
    MaskFits(w, bitno, nbits);
    Or(And(num, Not(w, ShiftLeft(Mask(nbits), bitno))), ShiftLeft(And(data, Mask(nbits)), bitno))
  }

  /** Reading a `BitField`: shift down and mask. */
  function ReadField(data: nat, bitno: nat, nbits: nat): nat {
    And(ShiftRight(data, bitno), Mask(nbits))
  }

  lemma {:induction false} MaskFits(w: nat, bitno: nat, nbits: nat)
    requires bitno + nbits <= w
    ensures ShiftLeft(Mask(nbits), bitno) < Pow2(w)
  {
    if bitno > 0 {
      MaskFits(w - 1, bitno - 1, nbits);
    } else {
      PowerMonotone(nbits, w);
    }
  }

  lemma {:induction false} PowerMonotone(a: nat, b: nat)
    requires a <= b
    ensures Pow2(a) <= Pow2(b)
  {
    if a < b {
      PowerMonotone(a, b - 1);
    }
  }

  // ----- Fields, bit by bit -----

  /** Bits `b` to `b + k - 1` of `n`. */
  function Get(n: nat, b: nat, k: nat): nat
    decreases b, k
  {
    if b > 0 then Get(n / 2, b - 1, k)
    else if k > 0 then n % 2 + 2 * Get(n / 2, 0, k - 1)
    else 0
  }

  /** `n` with those bits replaced by the low bits of `d`. */
  function Put(n: nat, b: nat, k: nat, d: nat): nat
    decreases b, k
  {
    if b > 0 then n % 2 + 2 * Put(n / 2, b - 1, k, d)
    else if k > 0 then d % 2 + 2 * Put(n / 2, 0, k - 1, d / 2)
    else n
  }

  // ----- The source's expressions are these fields -----

  lemma {:induction false} AndMask(a: nat, k: nat)
    ensures And(a, Mask(k)) == Get(a, 0, k)
    decreases k
  {
    if k > 0 {
      assert Mask(k) / 2 == Mask(k - 1) && Mask(k) % 2 == 1;
      AndMask(a / 2, k - 1);
      if a == 0 {
        GetZero(0, k);
      }
    }
  }

  lemma {:induction false} GetZero(b: nat, k: nat)
    ensures Get(0, b, k) == 0
    decreases b, k
  {
    if b > 0 {
      GetZero(b - 1, k);
    } else if k > 0 {
      GetZero(0, k - 1);
    }
  }

  lemma {:induction false} ShiftedGet(n: nat, b: nat, k: nat)
    ensures Get(ShiftRight(n, b), 0, k) == Get(n, b, k)
    decreases b
  {
    if b > 0 {
      ShiftedGet(n / 2, b - 1, k);
    }
  }

  /** A `BitField` read returns exactly its bits. */
  lemma ReadFieldIsGet(n: nat, b: nat, k: nat)
    ensures ReadField(n, b, k) == Get(n, b, k)
  {
    AndMask(ShiftRight(n, b), k);
    ShiftedGet(n, b, k);
  }

  lemma AndStep(a: nat, b: nat)
    ensures And(a, b) == (a % 2) * (b % 2) + 2 * And(a / 2, b / 2)
  {
  }

  lemma OrStep(a: nat, b: nat)
    ensures Or(a, b) == (if a % 2 == 1 || b % 2 == 1 then 1 else 0) + 2 * Or(a / 2, b / 2)
  {
  }

  lemma {:induction false} OrFits(w: nat, a: nat, b: nat)
    requires a < Pow2(w) && b < Pow2(w)
    ensures Or(a, b) < Pow2(w)
  {
    if w > 0 {
      OrStep(a, b);
      OrFits(w - 1, a / 2, b / 2);
    }
  }

  lemma XorStep(a: nat, b: nat)
    ensures Xor(a, b) == (if a % 2 != b % 2 then 1 else 0) + 2 * Xor(a / 2, b / 2)
  {
  }

  lemma {:induction false} XorFits(w: nat, a: nat, b: nat)
    requires a < Pow2(w) && b < Pow2(w)
    ensures Xor(a, b) < Pow2(w)
  {
    if w > 0 {
      XorStep(a, b);
      XorFits(w - 1, a / 2, b / 2);
    }
  }

  lemma {:induction false} GetWhole(n: nat, w: nat)
    requires n < Pow2(w)
    ensures Get(n, 0, w) == n
  {
    if w > 0 {
      GetWhole(n / 2, w - 1);
    }
  }

  lemma SetBitsAbove(w: nat, n: nat, b: nat, k: nat, d: nat)
    requires n < Pow2(w) && 0 < b && b + k <= w
    ensures n / 2 < Pow2(w - 1)
    ensures SetBits(w, n, b, k, d) == n % 2 + 2 * SetBits(w - 1, n / 2, b - 1, k, d)
  {
    hide And, Or;
    MaskFits(w, b, k);
    MaskFits(w - 1, b - 1, k);
    var hole, hole' := Not(w, ShiftLeft(Mask(k), b)), Not(w - 1, ShiftLeft(Mask(k), b - 1));
    assert hole == 1 + 2 * hole';
    AndStep(n, hole);
    OrStep(And(n, hole), ShiftLeft(And(d, Mask(k)), b));
  }

  lemma HoleHalves(w: nat, k: nat)
    requires 0 < k <= w
    ensures Pow2(w) == 2 * Pow2(w - 1) && Mask(k) < Pow2(w) && Mask(k - 1) < Pow2(w - 1)
    ensures Mask(k) / 2 == Mask(k - 1) && Mask(k) % 2 == 1
    ensures Not(w, Mask(k)) % 2 == 0 && Not(w, Mask(k)) / 2 == Not(w - 1, Mask(k - 1))
  {
    PowerMonotone(k, w);
  }

  lemma SetBitsBelow(w: nat, n: nat, k: nat, d: nat)
    requires n < Pow2(w) && 0 < k <= w
    ensures n / 2 < Pow2(w - 1)
    ensures SetBits(w, n, 0, k, d) == d % 2 + 2 * SetBits(w - 1, n / 2, 0, k - 1, d / 2)
  {
    HoleHalves(w, k);
    hide And, Or, Not, Mask, Pow2;
    var hole := Not(w, Mask(k));
    AndStep(n, hole);
    AndStep(d, Mask(k));
    OrStep(And(n, hole), And(d, Mask(k)));
  }

  /** `setbits` replaces exactly the bits of its field. */
  lemma {:induction false} SetBitsIsPut(w: nat, n: nat, b: nat, k: nat, d: nat)
    requires n < Pow2(w) && b + k <= w
    ensures SetBits(w, n, b, k, d) == Put(n, b, k, d)
    decreases b, k
  {
    if b > 0 {
      hide SetBits;
      SetBitsAbove(w, n, b, k, d);
      SetBitsIsPut(w - 1, n / 2, b - 1, k, d);
    } else if k > 0 {
      hide SetBits;
      SetBitsBelow(w, n, k, d);
      SetBitsIsPut(w - 1, n / 2, 0, k - 1, d / 2);
    } else {
      AndMask(n, w);
      GetWhole(n, w);
    }
  }

  // ----- Laws of fields -----

  lemma {:induction false} PutStaysInWord(w: nat, n: nat, b: nat, k: nat, d: nat)
    requires n < Pow2(w) && b + k <= w
    ensures Put(n, b, k, d) < Pow2(w)
    decreases b, k
  {
    if b > 0 {
      PutStaysInWord(w - 1, n / 2, b - 1, k, d);
    } else if k > 0 {
      PutStaysInWord(w - 1, n / 2, 0, k - 1, d / 2);
    }
  }

  /** What is written is read back, truncated to the field. */
  lemma {:induction false} GetPut(n: nat, b: nat, k: nat, d: nat)
    ensures Get(Put(n, b, k, d), b, k) == Get(d, 0, k)
    decreases b, k
  {
    hide Put, Get;
    PutParts(n, b, k, d);
    GetParts(Put(n, b, k, d), b, k);
    GetParts(d, 0, k);
    if b > 0 {
      GetPut(n / 2, b - 1, k, d);
    } else if k > 0 {
      GetPut(n / 2, 0, k - 1, d / 2);
    }
  }

  /** Writing back what was read changes nothing. */
  lemma {:induction false} PutGet(n: nat, b: nat, k: nat)
    ensures Put(n, b, k, Get(n, b, k)) == n
    decreases b, k
  {
    if b > 0 {
      PutGet(n / 2, b - 1, k);
    } else if k > 0 {
      PutGet(n / 2, 0, k - 1);
    }
  }

  /** A second write to the same field wins. */
  lemma {:induction false} PutPut(n: nat, b: nat, k: nat, d: nat, e: nat)
    ensures Put(Put(n, b, k, d), b, k, e) == Put(n, b, k, e)
    decreases b, k
  {
    hide Put;
    PutParts(n, b, k, d);
    PutParts(n, b, k, e);
    PutParts(Put(n, b, k, d), b, k, e);
    if b > 0 {
      PutPut(n / 2, b - 1, k, d, e);
    } else if k > 0 {
      PutPut(n / 2, 0, k - 1, d / 2, e / 2);
    }
  }

  ghost predicate Disjoint(b: nat, k: nat, c: nat, j: nat) {
    b + k <= c || c + j <= b
  }

  /** A write leaves every disjoint field alone. */
  lemma {:induction false} GetPutDisjoint(n: nat, b: nat, k: nat, d: nat, c: nat, j: nat)
    requires Disjoint(b, k, c, j)
    ensures Get(Put(n, b, k, d), c, j) == Get(n, c, j)
    decreases b, k, c, j
  {
    hide Get, Put;
    PutParts(n, b, k, d);
    GetParts(Put(n, b, k, d), c, j);
    GetParts(n, c, j);
    if b > 0 && c > 0 {
      GetPutDisjoint(n / 2, b - 1, k, d, c - 1, j);
    } else if b > 0 && j > 0 {
      GetPutDisjoint(n / 2, b - 1, k, d, 0, j - 1);
    } else if b == 0 && k > 0 && c > 0 {
      GetPutDisjoint(n / 2, 0, k - 1, d / 2, c - 1, j);
    }
  }

  lemma GetParts(n: nat, b: nat, k: nat)
    ensures b > 0 ==> Get(n, b, k) == Get(n / 2, b - 1, k)
    ensures b == 0 && k > 0 ==> Get(n, b, k) == n % 2 + 2 * Get(n / 2, 0, k - 1)
    ensures b == 0 && k == 0 ==> Get(n, b, k) == 0
  {
  }

  lemma PutParts(n: nat, b: nat, k: nat, d: nat)
    ensures b > 0 ==> Put(n, b, k, d) % 2 == n % 2 && Put(n, b, k, d) / 2 == Put(n / 2, b - 1, k, d)
    ensures b == 0 && k > 0 ==> Put(n, b, k, d) % 2 == d % 2 && Put(n, b, k, d) / 2 == Put(n / 2, 0, k - 1, d / 2)
    ensures b == 0 && k == 0 ==> Put(n, b, k, d) == n
  {
  }

  /** Writes to disjoint fields commute. */
  lemma {:induction false} PutsCommute(n: nat, b: nat, k: nat, d: nat, c: nat, j: nat, e: nat)
    requires Disjoint(b, k, c, j)
    ensures Put(Put(n, b, k, d), c, j, e) == Put(Put(n, c, j, e), b, k, d)
    decreases b, k, c, j
  {
    hide Put;
    PutParts(n, b, k, d);
    PutParts(n, c, j, e);
    PutParts(Put(n, b, k, d), c, j, e);
    PutParts(Put(n, c, j, e), b, k, d);
    if b > 0 && c > 0 {
      PutsCommute(n / 2, b - 1, k, d, c - 1, j, e);
    } else if b > 0 && j > 0 {
      PutsCommute(n / 2, b - 1, k, d, 0, j - 1, e / 2);
    } else if b == 0 && k > 0 && c > 0 {
      PutsCommute(n / 2, 0, k - 1, d / 2, c - 1, j, e);
    }
  }

  /** Adjacent fields make up the wider field. */
  lemma {:induction false} GetsJoin(n: nat, b: nat, k: nat)
    ensures Get(n, 0, b + k) == Get(n, 0, b) + ShiftLeft(Get(n, b, k), b)
    decreases b
  {
    if b > 0 {
      GetsJoin(n / 2, b - 1, k);
    }
  }

  lemma {:induction false} ShiftLeftValue(n: nat, b: nat)
    ensures ShiftLeft(n, b) == n * Pow2(b)
  {
    if b > 0 {
      ShiftLeftValue(n, b - 1);
    }
  }

  lemma {:induction false} ShiftLeftBounded(a: nat, m: nat, n: nat)
    requires a < Pow2(m)
    ensures ShiftLeft(a, n) + Pow2(n) <= Pow2(m + n)
  {
    if n > 0 {
      ShiftLeftBounded(a, m, n - 1);
    }
  }

  lemma {:induction false} SplitAt(n: nat, b: nat)
    ensures n == Get(n, 0, b) + ShiftLeft(ShiftRight(n, b), b)
    decreases b
  {
    if b > 0 {
      SplitAt(n / 2, b - 1);
    }
  }

  lemma {:induction false} GetBounded(n: nat, b: nat, k: nat)
    ensures Get(n, b, k) < Pow2(k)
    decreases b, k
  {
    if b > 0 {
      GetBounded(n / 2, b - 1, k);
    } else if k > 0 {
      GetBounded(n / 2, 0, k - 1);
    }
  }

  /** `getbits` masks with the bit count itself. */
  function GetBits(num: nat, bitno: nat, nbits: nat): nat {
    And(ShiftRight(num, bitno), nbits)
  }

  /** So it reads the field only for counts 0 and 1 (on all words); a two-bit read already loses bit 0. */
  lemma GetBitsExact(nbits: nat)
    ensures (forall num: nat, bitno: nat :: GetBits(num, bitno, nbits) == ReadField(num, bitno, nbits)) <==> nbits <= 1
  {
    if nbits <= 1 {
      assert nbits == Mask(nbits);
    } else {
      CountIsNotMask(nbits);
      var m := Mask(nbits);
      AndMask(m, nbits);
      GetWhole(m, nbits);
      AndAtMost(m, nbits);
      assert GetBits(m, 0, nbits) != ReadField(m, 0, nbits);
    }
  }

  lemma {:induction false} CountIsNotMask(nbits: nat)
    requires nbits >= 2
    ensures nbits < Mask(nbits)
  {
    if nbits > 2 {
      CountIsNotMask(nbits - 1);
    }
  }

  lemma {:induction false} AndAtMost(a: nat, b: nat)
    ensures And(a, b) <= b
  {
    if a != 0 && b != 0 {
      AndAtMost(a / 2, b / 2);
    }
  }
}
