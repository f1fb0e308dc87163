/** The length and distance tables of external/stb/stb_image.h against section 3.2.5 of RFC 1951: each symbol's range
    begins where the one before it ends, so every length and distance is spelled. */
module InflateTables {
  import opened Bits
  import opened Inflate

  // ----- Extra bits, by closed form -----

  ghost function LengthExtra(i: nat): nat {
    if i < 8 || i >= 28 then 0 else (i - 4) / 4
  }

  ghost function DistExtra(i: nat): nat {
    if i < 4 || i >= 30 then 0 else (i - 2) / 2
  }

  lemma LengthExtraIs(i: nat)
    requires i < 31
    ensures |LENGTH_EXTRA| == 31 && LENGTH_EXTRA[i] == LengthExtra(i)
  {
    hide LENGTH_BASE, DIST_BASE, DIST_EXTRA;
  }

  lemma DistExtraIs(i: nat)
    requires i < 32
    ensures |DIST_EXTRA| == 32 && DIST_EXTRA[i] == DistExtra(i)
  {
    hide LENGTH_BASE, LENGTH_EXTRA, DIST_BASE;
  }

  // ----- Tiling -----

  lemma SmallPowers()
    ensures Pow2(0) == 1 && Pow2(1) == 2 && Pow2(2) == 4 && Pow2(3) == 8 && Pow2(4) == 16 && Pow2(5) == 32
    ensures Pow2(6) == 64 && Pow2(7) == 128 && Pow2(8) == 256 && Pow2(9) == 512 && Pow2(10) == 1024
    ensures Pow2(11) == 2048 && Pow2(12) == 4096 && Pow2(13) == 8192
  {
    assert Pow2(4) == 16;
    assert Pow2(8) == 256;
    assert Pow2(12) == 4096;
  }

  /** Lengths begin at 3; each symbol takes up where the one before it ends; symbol 285 is 258 alone; the two symbols
      behind it have no length. */
  lemma LengthsTile(i: nat)
    requires i < 27
    ensures |LENGTH_BASE| == |LENGTH_EXTRA| == 31
    ensures LENGTH_BASE[0] == 3 && LENGTH_BASE[i + 1] == LENGTH_BASE[i] + Pow2(LENGTH_EXTRA[i])
    ensures LENGTH_BASE[27] + Pow2(LENGTH_EXTRA[27]) == 259
    ensures LENGTH_BASE[28] == 258 && LENGTH_EXTRA[28] == 0 && LENGTH_BASE[29] == LENGTH_BASE[30] == 0
  {
    hide DIST_BASE, DIST_EXTRA, Pow2;
    SmallPowers();
  }

  /** Distances begin at 1 and are spelled up to 32768. */
  lemma DistancesTile(i: nat)
    requires i < 29
    ensures |DIST_BASE| == |DIST_EXTRA| == 32
    ensures DIST_BASE[0] == 1 && DIST_BASE[i + 1] == DIST_BASE[i] + Pow2(DIST_EXTRA[i])
    ensures DIST_BASE[29] + Pow2(DIST_EXTRA[29]) == 32769 && DIST_BASE[30] == DIST_BASE[31] == 0
  {
    hide LENGTH_BASE, LENGTH_EXTRA, Pow2;
    SmallPowers();
  }

  // ----- Every length and distance -----

  /** Extra bits that fit the symbol. */
  ghost predicate LengthBits(i: nat, extra: nat) {
    i < |LENGTH_EXTRA| && extra < Pow2(LENGTH_EXTRA[i])
  }

  ghost predicate DistBits(d: nat, extra: nat) {
    d < |DIST_EXTRA| && extra < Pow2(DIST_EXTRA[d])
  }

  lemma {:induction false} FindLength(len: nat, top: nat) returns (i: nat, extra: nat)
    requires top < 28 && |LENGTH_BASE| == |LENGTH_EXTRA| == 31
    requires 3 <= len < LENGTH_BASE[top] + Pow2(LENGTH_EXTRA[top])
    ensures i <= top && LengthBits(i, extra) && len == LENGTH_BASE[i] + extra
  {
    hide LENGTH_BASE, LENGTH_EXTRA, Pow2;
    if len >= LENGTH_BASE[top] {
      i, extra := top, len - LENGTH_BASE[top];
    } else {
      LengthsTile(if top == 0 then 0 else top - 1);
      i, extra := FindLength(len, top - 1);
    }
  }

  lemma {:induction false} FindDistance(dist: nat, top: nat) returns (d: nat, extra: nat)
    requires top < 30 && |DIST_BASE| == |DIST_EXTRA| == 32
    requires 1 <= dist < DIST_BASE[top] + Pow2(DIST_EXTRA[top])
    ensures d <= top && DistBits(d, extra) && dist == DIST_BASE[d] + extra
  {
    hide DIST_BASE, DIST_EXTRA, Pow2;
    if dist >= DIST_BASE[top] {
      d, extra := top, dist - DIST_BASE[top];
    } else {
      DistancesTile(if top == 0 then 0 else top - 1);
      d, extra := FindDistance(dist, top - 1);
    }
  }

  /** A token of the symbols RFC 1951 defines, with extra bits that fit. */
  ghost predicate Spells(t: Token, len: nat, dist: nat) {
    && t.Match? && WellFormed(t) && t.lsym < 286 && t.dsym < 30
    && LengthBits(t.lsym - 257, t.lextra) && DistBits(t.dsym, t.dextra)
    && Length(t) == len && Distance(t) == dist
  }

  /** Every length from 3 to 258 at every distance from 1 to 32768 is spelled, and no other. */
  lemma SpelledExactly(len: nat, dist: nat)
    ensures (exists t :: Spells(t, len, dist)) <==> 3 <= len <= 258 && 1 <= dist <= 32768
  {
    hide LENGTH_BASE, LENGTH_EXTRA, DIST_BASE, DIST_EXTRA, Pow2;
    LengthsTile(0);
    DistancesTile(0);
    if 3 <= len <= 258 && 1 <= dist <= 32768 {
      var i, e := FindLength(len, 27);
      var d, f := FindDistance(dist, 29);
      assert Spells(Match(i + 257, e, d, f), len, dist);
    }
    if t :| Spells(t, len, dist) {
      LengthInRange(t.lsym - 257, t.lextra);
      DistInRange(t.dsym, t.dextra);
    }
  }

  lemma LengthInRange(i: nat, extra: nat)
    requires i < 29 && LengthBits(i, extra)
    ensures |LENGTH_BASE| == 31 && 3 <= LENGTH_BASE[i] + extra <= 258
  {
    hide LENGTH_BASE, LENGTH_EXTRA, Pow2;
    LengthsTile(0);
    if i == 28 {
      SmallPowers();
    } else {
      LengthsRise(0, i);
      LengthsRise(i, 27);
    }
  }

  lemma DistInRange(d: nat, extra: nat)
    requires d < 30 && DistBits(d, extra)
    ensures |DIST_BASE| == 32 && 1 <= DIST_BASE[d] + extra <= 32768
  {
    hide DIST_BASE, DIST_EXTRA, Pow2;
    DistancesTile(0);
    DistancesRise(0, d);
    DistancesRise(d, 29);
  }

  lemma {:induction false} LengthsRise(i: nat, j: nat)
    requires i <= j < 28
    ensures |LENGTH_BASE| == |LENGTH_EXTRA| == 31
    ensures i < j ==> LENGTH_BASE[i] + Pow2(LENGTH_EXTRA[i]) <= LENGTH_BASE[j]
    ensures LENGTH_BASE[i] + Pow2(LENGTH_EXTRA[i]) <= LENGTH_BASE[j] + Pow2(LENGTH_EXTRA[j])
    ensures LENGTH_BASE[i] <= LENGTH_BASE[j]
    decreases j - i
  {
    hide LENGTH_BASE, LENGTH_EXTRA, Pow2;
    LengthsTile(if i < 27 then i else 0);
    if i < j {
      LengthsRise(i + 1, j);
    }
  }

  lemma {:induction false} DistancesRise(i: nat, j: nat)
    requires i <= j < 30
    ensures |DIST_BASE| == |DIST_EXTRA| == 32
    ensures i < j ==> DIST_BASE[i] + Pow2(DIST_EXTRA[i]) <= DIST_BASE[j]
    ensures DIST_BASE[i] + Pow2(DIST_EXTRA[i]) <= DIST_BASE[j] + Pow2(DIST_EXTRA[j])
    ensures DIST_BASE[i] <= DIST_BASE[j]
    decreases j - i
  {
    hide DIST_BASE, DIST_EXTRA, Pow2;
    DistancesTile(if i < 29 then i else 0);
    if i < j {
      DistancesRise(i + 1, j);
    }
  }

  /** One spelling each, except that length 258 also ends the range of symbol 284. */
  lemma SpelledOnce(t: Token, u: Token, len: nat, dist: nat)
    requires Spells(t, len, dist) && Spells(u, len, dist)
    ensures t.dsym == u.dsym && t.dextra == u.dextra
    ensures (t.lsym == u.lsym && t.lextra == u.lextra) || (len == 258 && {t.lsym, u.lsym} == {284, 285})
  {
    hide LENGTH_BASE, LENGTH_EXTRA, DIST_BASE, DIST_EXTRA, Pow2;
    if t.dsym <= u.dsym {
      DistancesRise(t.dsym, u.dsym);
    } else {
      DistancesRise(u.dsym, t.dsym);
    }
    LengthsTile(0);
    SmallPowers();
    if t.lsym < 285 && u.lsym < 285 {
      LengthOrder(t.lsym - 257, u.lsym - 257);
    } else if t.lsym < 285 {
      LengthsRise(t.lsym - 257, 27);
    } else if u.lsym < 285 {
      LengthsRise(u.lsym - 257, 27);
    }
  }

  lemma LengthOrder(i: nat, j: nat)
    requires i < 28 && j < 28
    ensures |LENGTH_BASE| == |LENGTH_EXTRA| == 31
    ensures i < j ==> LENGTH_BASE[i] + Pow2(LENGTH_EXTRA[i]) <= LENGTH_BASE[j]
    ensures j < i ==> LENGTH_BASE[j] + Pow2(LENGTH_EXTRA[j]) <= LENGTH_BASE[i]
  {
    hide LENGTH_BASE, LENGTH_EXTRA, Pow2;
    if i <= j {
      LengthsRise(i, j);
    } else {
      LengthsRise(j, i);
    }
  }
}
