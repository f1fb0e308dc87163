/** The code of CanonicalCode is the one the standards describe (section 3.2.2 of RFC 1951, annex C of ITU-T T.81): in
    order of length and then of symbol, each code is the one before it plus one, lengthened by zeros. */
module CanonicalRules {
  import opened Bits
  import opened CanonicalCode

  /** Symbol `i` comes before symbol `j`: shorter, or equally long and listed first. */
  ghost predicate Precedes(lens: seq<nat>, i: nat, j: nat)
    requires i < |lens| && j < |lens|
  {
    lens[i] < lens[j] || (lens[i] == lens[j] && i < j)
  }

  /** `j` is the next symbol that has a code. */
  ghost predicate NextCoded(lens: seq<nat>, i: nat, j: nat) {
    && i < |lens| && j < |lens| && lens[i] > 0 && Precedes(lens, i, j)
    && forall k: nat :: k < |lens| && lens[k] > 0 && Precedes(lens, i, k) ==> k == j || Precedes(lens, j, k)
  }

  lemma {:induction false} NoneCounted(lens: seq<nat>, s: nat, m: nat, n: nat)
    requires m <= n <= |lens| && forall k: nat :: m <= k < n ==> lens[k] != s
    ensures CountBefore(lens, s, n) == CountBefore(lens, s, m)
    decreases n
  {
    if m < n {
      NoneCounted(lens, s, m, n - 1);
    }
  }

  /** Without codes in between, the first code is the end code lengthened. */
  lemma {:induction false} FirstIsLengthened(lens: seq<nat>, s: nat, t: nat)
    requires 1 <= s < t && forall u :: s < u < t ==> CountOf(lens, u) == 0
    ensures FirstCode(lens, t) == ShiftLeft(EndCode(lens, s), t - s)
    decreases t
  {
    hide CountOf;
    if s < t - 1 {
      FirstIsLengthened(lens, s, t - 1);
    }
  }

  lemma SameLength(lens: seq<nat>, i: nat, j: nat)
    requires NextCoded(lens, i, j) && lens[i] == lens[j]
    ensures CodeOf(lens, j) == CodeOf(lens, i) + 1
  {
    hide FirstCode;
    NoneCounted(lens, lens[i], i + 1, j);
  }

  lemma LongerLength(lens: seq<nat>, i: nat, j: nat)
    requires NextCoded(lens, i, j) && lens[i] < lens[j]
    ensures CodeOf(lens, j) == ShiftLeft(CodeOf(lens, i) + 1, lens[j] - lens[i])
  {
    hide FirstCode;
    var s, t := lens[i], lens[j];
    NoneCounted(lens, s, i + 1, |lens|);
    NoneCounted(lens, t, 0, j);
    forall u | s < u < t
      ensures CountOf(lens, u) == 0
    {
      NoneCounted(lens, u, 0, |lens|);
    }
    FirstIsLengthened(lens, s, t);
  }

  /** The rule that fixes every code from the one before it. */
  lemma NextCode(lens: seq<nat>, i: nat, j: nat)
    requires NextCoded(lens, i, j)
    ensures CodeOf(lens, j) == ShiftLeft(CodeOf(lens, i) + 1, lens[j] - lens[i])
  {
    hide CodeOf;
    if lens[i] == lens[j] {
      SameLength(lens, i, j);
    } else {
      LongerLength(lens, i, j);
    }
  }

  lemma {:induction false} NoneShorter(lens: seq<nat>, s: nat)
    requires s >= 1 && forall u :: 1 <= u < s ==> CountOf(lens, u) == 0
    ensures FirstCode(lens, s) == 0
  {
    hide CountOf;
    if s > 1 {
      NoneShorter(lens, s - 1);
    }
  }

  /** The first code is zero. */
  lemma FirstCodeIsZero(lens: seq<nat>, i: nat)
    requires i < |lens| && lens[i] > 0
    requires forall k: nat :: k < |lens| && lens[k] > 0 ==> k == i || Precedes(lens, i, k)
    ensures CodeOf(lens, i) == 0
  {
    hide FirstCode;
    NoneCounted(lens, lens[i], 0, i);
    forall u | 1 <= u < lens[i]
      ensures CountOf(lens, u) == 0
    {
      NoneCounted(lens, u, 0, |lens|);
    }
    NoneShorter(lens, lens[i]);
  }
}
