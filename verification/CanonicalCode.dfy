/** The canonical Huffman code of section 3.2.2 of RFC 1951, read from a stream whose first bit is the lowest bit
    of a number. */
module CanonicalCode {
  import opened Bits

  // ----- Bits of a stream, first bit first -----

  function BitAt(w: nat, k: nat): nat {
    ShiftRight(w, k) % 2
  }

  /** The first `s` bits read as a code: the first bit is the most significant. */
  function Prefix(w: nat, s: nat): nat {
    if s == 0 then 0 else 2 * Prefix(w, s - 1) + BitAt(w, s - 1)
  }

  /** The first `s` bits as they lie in the number. */
  function Low(w: nat, s: nat): nat {
    if s == 0 then 0 else Low(w, s - 1) + (if BitAt(w, s - 1) == 1 then Pow2(s - 1) else 0)
  }

  lemma {:induction false} PrefixBounded(w: nat, s: nat)
    ensures Prefix(w, s) < Pow2(s)
  {
    if s > 0 {
      PrefixBounded(w, s - 1);
    }
  }

  lemma {:induction false} LowBounded(w: nat, s: nat)
    ensures Low(w, s) < Pow2(s)
  {
    if s > 0 {
      LowBounded(w, s - 1);
    }
  }

  lemma {:induction false} BitOfHalf(w: nat, k: nat)
    requires k > 0
    ensures BitAt(w, k) == BitAt(w / 2, k - 1)
  {
  }

  /** Reading a code reverses its bits. */
  lemma {:induction false} ReversedBit(b: nat, s: nat, k: nat)
    requires k < s
    ensures BitAt(Prefix(b, s), k) == BitAt(b, s - 1 - k)
  {
    if k > 0 {
      assert Prefix(b, s) / 2 == Prefix(b, s - 1);
      BitOfHalf(Prefix(b, s), k);
      ReversedBit(b, s - 1, k - 1);
    }
  }

  /** The same code read from the other end. */
  lemma {:induction false} PrefixFromFirst(w: nat, s: nat)
    requires s > 0
    ensures Prefix(w, s) == (if w % 2 == 1 then Pow2(s - 1) else 0) + Prefix(w / 2, s - 1)
  {
    if s > 1 {
      PrefixFromFirst(w, s - 1);
      BitOfHalf(w, s - 1);
    } else {
      assert Prefix(w, 1) == 2 * Prefix(w, 0) + BitAt(w, 0);
    }
  }

  /** Reversing twice gives the low bits back. */
  lemma {:induction false} ReverseTwice(w: nat, s: nat)
    ensures Prefix(Prefix(w, s), s) == Low(w, s)
  {
    if s > 0 {
      ReverseTwice(w, s - 1);
      PrefixFromFirst(Prefix(w, s), s);
    }
  }

  lemma {:induction false} SmallIsLow(w: nat, s: nat)
    requires w < Pow2(s)
    ensures Low(w, s) == w
  {
    if s > 0 {
      LowFromFirst(w, s);
      SmallIsLow(w / 2, s - 1);
    }
  }

  lemma {:induction false} LowFromFirst(w: nat, s: nat)
    requires s > 0
    ensures Low(w, s) == w % 2 + 2 * Low(w / 2, s - 1)
  {
    if s > 1 {
      LowFromFirst(w, s - 1);
      BitOfHalf(w, s - 1);
    } else {
      assert Low(w, 1) == Low(w, 0) + (if BitAt(w, 0) == 1 then Pow2(0) else 0);
    }
  }

  /** Codes agree exactly when the low bits do. */
  lemma {:induction false} PrefixDecidesLow(a: nat, b: nat, s: nat)
    ensures Prefix(a, s) == Prefix(b, s) <==> Low(a, s) == Low(b, s)
  {
    if s > 0 {
      PrefixDecidesLow(a, b, s - 1);
      LowBounded(a, s - 1);
      LowBounded(b, s - 1);
    }
  }

  // ----- Code lengths -----

  ghost predicate Lengths(lens: seq<nat>) {
    |lens| <= 288 && forall i :: 0 <= i < |lens| ==> lens[i] <= 15
  }

  /** Symbols of length `s` among the first `n`. */
  function CountBefore(lens: seq<nat>, s: nat, n: nat): nat
    requires n <= |lens|
  {
    if n == 0 then 0 else CountBefore(lens, s, n - 1) + (if lens[n - 1] == s then 1 else 0)
  }

  function CountOf(lens: seq<nat>, s: nat): nat {
    CountBefore(lens, s, |lens|)
  }

  /** The smallest code of each length. */
  function FirstCode(lens: seq<nat>, s: nat): nat
    requires s >= 1
    decreases s, 0
  {
    if s == 1 then 0 else 2 * EndCode(lens, s - 1)
  }

  /** One past the largest. */
  function EndCode(lens: seq<nat>, s: nat): nat
    requires s >= 1
    decreases s, 1
  {
    FirstCode(lens, s) + CountOf(lens, s)
  }

  /** The code of symbol `i`: symbols of one length get consecutive codes in order. */
  function CodeOf(lens: seq<nat>, i: nat): nat
    requires i < |lens| && lens[i] > 0
  {
    FirstCode(lens, lens[i]) + CountBefore(lens, lens[i], i)
  }

  /** Symbol `i`'s code is what the stream begins with. */
  ghost predicate Matches(lens: seq<nat>, i: nat, w: nat) {
    i < |lens| && lens[i] > 0 && Prefix(w, lens[i]) == CodeOf(lens, i)
  }

  // ----- Which length a stream begins with -----

  lemma {:induction false} CountMonotone(lens: seq<nat>, s: nat, m: nat, n: nat)
    requires m <= n <= |lens|
    ensures CountBefore(lens, s, m) <= CountBefore(lens, s, n)
  {
    if m < n {
      CountMonotone(lens, s, m, n - 1);
    }
  }

  lemma CodeInRange(lens: seq<nat>, i: nat)
    requires i < |lens| && lens[i] > 0
    ensures FirstCode(lens, lens[i]) <= CodeOf(lens, i) < EndCode(lens, lens[i])
  {
    CountMonotone(lens, lens[i], i + 1, |lens|);
  }

  /** Below the end at one length is below the start at every later length, and the other way round. */
  lemma {:induction false} LongerIsBelow(lens: seq<nat>, w: nat, s: nat, t: nat)
    requires 1 <= s < t
    ensures Prefix(w, s) < EndCode(lens, s) ==> Prefix(w, t) < FirstCode(lens, t)
    ensures Prefix(w, t) >= FirstCode(lens, t) ==> Prefix(w, s) >= EndCode(lens, s)
  {
    if s < t - 1 {
      LongerIsBelow(lens, w, s, t - 1);
    }
  }

  /** The first length whose codes end above the stream's prefix. */
  ghost predicate Resolves(lens: seq<nat>, w: nat, s: nat) {
    && s >= 1
    && Prefix(w, s) < EndCode(lens, s)
    && forall t :: 1 <= t < s ==> Prefix(w, t) >= EndCode(lens, t)
  }

  lemma ResolvedIsInRange(lens: seq<nat>, w: nat, s: nat)
    requires Resolves(lens, w, s)
    ensures FirstCode(lens, s) <= Prefix(w, s)
  {
    if s > 1 {
      assert Prefix(w, s - 1) >= EndCode(lens, s - 1);
    }
  }

  lemma MatchResolves(lens: seq<nat>, i: nat, w: nat)
    requires Matches(lens, i, w)
    ensures Resolves(lens, w, lens[i])
  {
    CodeInRange(lens, i);
    forall t | 1 <= t < lens[i]
      ensures Prefix(w, t) >= EndCode(lens, t)
    {
      LongerIsBelow(lens, w, t, lens[i]);
    }
  }

  lemma ResolvedOnce(lens: seq<nat>, w: nat, s: nat, t: nat)
    requires Resolves(lens, w, s) && Resolves(lens, w, t)
    ensures s == t
  {
  }

  /** The symbol of length `s` with `k` others of that length before it. */
  ghost function Nth(lens: seq<nat>, s: nat, k: nat, n: nat): (i: nat)
    requires n <= |lens| && k < CountBefore(lens, s, n)
    ensures i < n && lens[i] == s && CountBefore(lens, s, i) == k
  {
    if lens[n - 1] == s && CountBefore(lens, s, n - 1) == k then n - 1 else Nth(lens, s, k, n - 1)
  }

  /** A resolved stream begins with the code of some symbol of that length. */
  lemma ResolvedMatches(lens: seq<nat>, w: nat, s: nat) returns (i: nat)
    requires Resolves(lens, w, s)
    ensures Matches(lens, i, w) && lens[i] == s
  {
    ResolvedIsInRange(lens, w, s);
    i := Nth(lens, s, Prefix(w, s) - FirstCode(lens, s), |lens|);
  }

  lemma SameRankSameSymbol(lens: seq<nat>, i: nat, j: nat)
    requires i < |lens| && j < |lens| && lens[i] == lens[j]
    requires CountBefore(lens, lens[i], i) == CountBefore(lens, lens[i], j)
    ensures i == j
  {
    if i != j {
      var a, b := if i < j then i else j, if i < j then j else i;
      CountMonotone(lens, lens[i], a + 1, b);
    }
  }

  /** The code is prefix-free: a stream begins with the code of at most one symbol. */
  lemma MatchUnique(lens: seq<nat>, i: nat, j: nat, w: nat)
    requires Matches(lens, i, w) && Matches(lens, j, w)
    ensures i == j
  {
    MatchResolves(lens, i, w);
    MatchResolves(lens, j, w);
    ResolvedOnce(lens, w, lens[i], lens[j]);
    SameRankSameSymbol(lens, i, j);
  }

  // ----- Code lengths the table builder accepts -----

  /** No length is over-full, and where a length is used its codes fit in that many bits. */
  ghost predicate Accepted(lens: seq<nat>) {
    forall s :: 1 <= s <= 15 ==>
      CountOf(lens, s) <= Pow2(s) && (CountOf(lens, s) > 0 ==> EndCode(lens, s) <= Pow2(s))
  }

  lemma {:induction false} CodesFit(lens: seq<nat>, s: nat)
    requires Accepted(lens) && 1 <= s <= 15
    ensures EndCode(lens, s) <= Pow2(s)
  {
    if s > 1 {
      CodesFit(lens, s - 1);
    }
  }

  // ----- Canonical order -----

  /** Symbols with lengths 1 to s - 1. */
  function FirstSymbol(lens: seq<nat>, s: nat): nat
    requires s >= 1
  {
    if s == 1 then 0 else FirstSymbol(lens, s - 1) + CountOf(lens, s - 1)
  }

  /** Position of symbol `i` when symbols are sorted by length, then by number. */
  function Rank(lens: seq<nat>, i: nat): nat
    requires i < |lens| && lens[i] > 0
  {
    FirstSymbol(lens, lens[i]) + CountBefore(lens, lens[i], i)
  }

  lemma {:induction false} FirstSymbolMonotone(lens: seq<nat>, s: nat, t: nat)
    requires 1 <= s < t
    ensures FirstSymbol(lens, s) + CountOf(lens, s) <= FirstSymbol(lens, t)
  {
    if s < t - 1 {
      FirstSymbolMonotone(lens, s, t - 1);
    }
  }

  lemma RankInjective(lens: seq<nat>, i: nat, j: nat)
    requires i < |lens| && j < |lens| && lens[i] > 0 && lens[j] > 0 && Rank(lens, i) == Rank(lens, j)
    ensures i == j
  {
    CountMonotone(lens, lens[i], i + 1, |lens|);
    CountMonotone(lens, lens[j], j + 1, |lens|);
    if lens[i] < lens[j] {
      FirstSymbolMonotone(lens, lens[i], lens[j]);
    } else if lens[j] < lens[i] {
      FirstSymbolMonotone(lens, lens[j], lens[i]);
    } else {
      SameRankSameSymbol(lens, i, j);
    }
  }

  /** All lengths together: at most one entry per symbol. */
  lemma {:induction false} CountsAddUp(lens: seq<nat>, n: nat, s: nat)
    requires s >= 1 && n <= |lens|
    ensures PrefixCounts(lens, n, s) <= n
    decreases n, s
  {
    if n > 0 {
      CountsAddUp(lens, n - 1, s);
      PrefixCountsStep(lens, n, s);
    } else {
      PrefixCountsEmpty(lens, s);
    }
  }

  ghost function PrefixCounts(lens: seq<nat>, n: nat, s: nat): nat
    requires s >= 1 && n <= |lens|
  {
    if s == 1 then 0 else PrefixCounts(lens, n, s - 1) + CountBefore(lens, s - 1, n)
  }

  lemma {:induction false} PrefixCountsEmpty(lens: seq<nat>, s: nat)
    requires s >= 1
    ensures PrefixCounts(lens, 0, s) == 0
  {
    if s > 1 {
      PrefixCountsEmpty(lens, s - 1);
    }
  }

  lemma {:induction false} PrefixCountsStep(lens: seq<nat>, n: nat, s: nat)
    requires s >= 1 && 0 < n <= |lens|
    ensures PrefixCounts(lens, n, s) == PrefixCounts(lens, n - 1, s) + (if 1 <= lens[n - 1] < s then 1 else 0)
  {
    if s > 1 {
      PrefixCountsStep(lens, n, s - 1);
    }
  }

  lemma {:induction false} FirstSymbolIsPrefixCounts(lens: seq<nat>, s: nat)
    requires s >= 1
    ensures FirstSymbol(lens, s) == PrefixCounts(lens, |lens|, s)
  {
    if s > 1 {
      FirstSymbolIsPrefixCounts(lens, s - 1);
    }
  }

  /** Ranks are table positions. */
  lemma RankBounded(lens: seq<nat>, i: nat)
    requires i < |lens| && lens[i] > 0
    ensures Rank(lens, i) < |lens|
  {
    CountMonotone(lens, lens[i], i + 1, |lens|);
    FirstSymbolIsPrefixCounts(lens, lens[i] + 1);
    CountsAddUp(lens, |lens|, lens[i] + 1);
  }
}
