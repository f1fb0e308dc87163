/** The bit count of the zlib reader (external/stb/stb_image.h) past the end of its input: a match of length zero whose
    codes are all zeros takes `a` bits for its length symbol, `b` for its distance symbol and `e` extra bits, and only
    the extra bits are refilled there. */
module ZTail {
  import opened Words
  import opened ZStream

  /** The count after one such match; none when a symbol finds fewer than sixteen bits. */
  function Next(a: nat, b: nat, e: nat, x: nat): Option<nat>
    requires b <= 15 && e <= 13
  {
    if x < 16 + a then None else Some(Topped(x - a - b, e) - e)
  }

  /** `n` such matches follow one another from count `x` on. */
  ghost predicate Lasts(a: nat, b: nat, e: nat, x: nat, n: nat)
    requires b <= 15 && e <= 13
    decreases n
  {
    n == 0 || match Next(a, b, e, x) case None => false case Some(y) => Lasts(a, b, e, y, n - 1)
  }

  lemma {:induction false} LastsLess(a: nat, b: nat, e: nat, x: nat, m: nat, n: nat)
    requires b <= 15 && e <= 13 && m <= n && Lasts(a, b, e, x, n)
    ensures Lasts(a, b, e, x, m)
    decreases n
  {
    if m > 0 {
      LastsLess(a, b, e, Next(a, b, e, x).value, m - 1, n - 1);
    }
  }

  // ----- Eighteen rounds decide -----

  /** The counts from 16 to `n`. */
  ghost function Counts(n: nat): set<nat> {
    if n < 16 then {} else Counts(n - 1) + {n}
  }

  lemma {:induction false} CountsAre(n: nat)
    ensures forall x: nat :: x in Counts(n) <==> 16 <= x <= n
    ensures |Counts(n)| == if n < 16 then 0 else n - 15
  {
    if n >= 16 {
      CountsAre(n - 1);
      assert n !in Counts(n - 1);
    }
  }

  /** The counts from which `n` rounds are possible. */
  ghost function Alive(a: nat, b: nat, e: nat, n: nat): set<nat>
    requires b <= 15 && e <= 13
  {
    set x | x in Counts(32) && Lasts(a, b, e, x, n)
  }

  lemma NextBounded(a: nat, b: nat, e: nat, x: nat)
    requires b <= 15 && e <= 13 && x <= 32 && Next(a, b, e, x).Some?
    ensures Next(a, b, e, x).value <= 32
  {
    hide Topped;
  }

  lemma AliveNext(a: nat, b: nat, e: nat, k: nat, x: nat) returns (y: nat)
    requires b <= 15 && e <= 13 && k >= 1 && x in Alive(a, b, e, k + 1)
    ensures Next(a, b, e, x) == Some(y) && y in Alive(a, b, e, k)
  {
    hide Alive, Next, Lasts;
    AliveIs(a, b, e, k + 1, x);
    LastsNext(a, b, e, x, k);
    y := Next(a, b, e, x).value;
    NextBounded(a, b, e, x);
    CountIsEnough(a, b, e, y, k - 1);
    AliveIs(a, b, e, k, y);
  }

  lemma AliveIs(a: nat, b: nat, e: nat, n: nat, x: nat)
    requires b <= 15 && e <= 13
    ensures x in Alive(a, b, e, n) <==> 16 <= x <= 32 && Lasts(a, b, e, x, n)
  {
    hide Lasts, Counts;
    CountsAre(32);
  }

  lemma LastsNext(a: nat, b: nat, e: nat, x: nat, n: nat)
    requires b <= 15 && e <= 13 && Lasts(a, b, e, x, n + 1)
    ensures Next(a, b, e, x).Some? && Lasts(a, b, e, Next(a, b, e, x).value, n)
  {
    hide Next;
  }

  /** If a further round loses no count, none is ever lost. */
  lemma {:induction false} StableLasts(a: nat, b: nat, e: nat, k: nat, x: nat, m: nat)
    requires b <= 15 && e <= 13 && k >= 1 && Alive(a, b, e, k) == Alive(a, b, e, k + 1) && x in Alive(a, b, e, k)
    ensures Lasts(a, b, e, x, m)
    decreases m
  {
    if m > 0 {
      var y := AliveNext(a, b, e, k, x);
      StableLasts(a, b, e, k, y, m - 1);
      hide Alive;
    }
  }

  lemma SubsetSize(s: set<nat>, t: set<nat>)
    requires s <= t
    ensures |s| <= |t| && (s != t ==> |s| < |t|)
  {
    assert t == s + (t - s);
    assert s != t ==> t - s != {};
  }

  /** Round by round the counts settle or become fewer. */
  lemma {:induction false} Settles(a: nat, b: nat, e: nat, k: nat) returns (j: nat)
    requires b <= 15 && e <= 13 && k >= 1
    ensures 1 <= j <= k
    ensures Alive(a, b, e, j) == Alive(a, b, e, j + 1) || (j == k && |Alive(a, b, e, k)| <= 18 - k)
  {
    hide Lasts, Counts;
    if k == 1 {
      CountsAre(32);
      SubsetSize(Alive(a, b, e, 1), Counts(32));
      j := 1;
    } else {
      j := Settles(a, b, e, k - 1);
      if Alive(a, b, e, j) != Alive(a, b, e, j + 1) {
        forall x | x in Alive(a, b, e, k)
          ensures x in Alive(a, b, e, k - 1)
        {
          LastsLess(a, b, e, x, k - 1, k);
        }
        SubsetSize(Alive(a, b, e, k), Alive(a, b, e, k - 1));
        j := k;
      }
    }
  }

  /** What lasts eighteen rounds lasts for ever. */
  lemma LastsForever(a: nat, b: nat, e: nat, x: nat, m: nat)
    requires b <= 15 && e <= 13 && x <= 32 && Lasts(a, b, e, x, 18)
    ensures Lasts(a, b, e, x, m)
  {
    hide Lasts, Counts;
    CountsAre(32);
    CountIsEnough(a, b, e, x, 17);
    var j := Settles(a, b, e, 18);
    LastsLess(a, b, e, x, j, 18);
    assert x in Alive(a, b, e, 18) && x in Alive(a, b, e, j);
    StableLasts(a, b, e, j, x, m);
  }

  lemma CountIsEnough(a: nat, b: nat, e: nat, x: nat, n: nat)
    requires b <= 15 && e <= 13 && Lasts(a, b, e, x, n + 1)
    ensures x >= 16
  {
  }

  // ----- How many rounds are left -----

  /** Rounds possible from `x`, counted up to `n`. */
  ghost function RoundsLeft(a: nat, b: nat, e: nat, x: nat, n: nat): nat
    requires b <= 15 && e <= 13
    decreases n
  {
    if n == 0 then 0
    else match Next(a, b, e, x) case None => 0 case Some(y) => 1 + RoundsLeft(a, b, e, y, n - 1)
  }

  lemma {:induction false} CountedOut(a: nat, b: nat, e: nat, x: nat, n: nat)
    requires b <= 15 && e <= 13 && !Lasts(a, b, e, x, n)
    ensures RoundsLeft(a, b, e, x, n) == RoundsLeft(a, b, e, x, n + 1)
    decreases n
  {
    match Next(a, b, e, x)
    case None =>
    case Some(y) => CountedOut(a, b, e, y, n - 1);
  }

  /** A round uses one up, unless eighteen are possible. */
  lemma RoundUsed(a: nat, b: nat, e: nat, x: nat)
    requires b <= 15 && e <= 13 && !Lasts(a, b, e, x, 18) && Next(a, b, e, x).Some?
    ensures RoundsLeft(a, b, e, Next(a, b, e, x).value, 18) < RoundsLeft(a, b, e, x, 18)
  {
    CountedOut(a, b, e, Next(a, b, e, x).value, 17);
  }
}
