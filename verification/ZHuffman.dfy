/** The zlib Huffman tables of external/stb/stb_image.h: the builder, the 9-bit fast table, the slow path behind
    it, and the bit reader, against the canonical code. */
module ZHuffman {
  import opened Bits
  import opened CanonicalCode
  import opened BitReverse

  const FAST_BITS: nat := 9
  const FAST_SIZE: nat := 512

  // ----- Residue classes of the fast table -----

  lemma {:induction false} LowPeriodic(x: nat, s: nat)
    ensures CanonicalCode.Low(x + Pow2(s), s) == CanonicalCode.Low(x, s)
  {
    if s > 0 {
      LowFromFirst(x, s);
      LowFromFirst(x + Pow2(s), s);
      LowPeriodic(x / 2, s - 1);
    }
  }

  lemma {:induction false} ResidueGap(x: nat, y: nat, s: nat)
    requires x < y && CanonicalCode.Low(x, s) == CanonicalCode.Low(y, s)
    ensures x + Pow2(s) <= y
  {
    if s > 0 {
      LowFromFirst(x, s);
      LowFromFirst(y, s);
      ResidueGap(x / 2, y / 2, s - 1);
    }
  }

  /** The entries that begin with a code are those whose low bits are the code reversed. */
  lemma CodeHits(x: nat, code: nat, s: nat)
    requires code < Pow2(s)
    ensures CanonicalCode.Low(x, s) == Prefix(code, s) <==> Prefix(x, s) == code
  {
    ReverseTwice(x, s);
    ReverseTwice(code, s);
    SmallIsLow(code, s);
    if CanonicalCode.Low(x, s) == Prefix(code, s) {
      LowBounded(x, s);
      SmallIsLow(CanonicalCode.Low(x, s), s);
      PrefixDecidesLow(x, CanonicalCode.Low(x, s), s);
    }
  }

  // ----- What the tables must hold -----

  /** Fast-table entry `x` when the first `n` symbols have been entered: length times 512 plus symbol, or zero. */
  ghost function FastEntry(lens: seq<nat>, n: nat, x: nat): nat
    requires n <= |lens|
  {
    if n == 0 then 0
    else if 1 <= lens[n - 1] <= FAST_BITS && Prefix(x, lens[n - 1]) == CodeOf(lens, n - 1)
    then lens[n - 1] * FAST_SIZE + (n - 1)
    else FastEntry(lens, n - 1, x)
  }

  /** A nonzero entry names the one short code the index begins with; zero means there is none. */
  lemma {:induction false} FastEntryMeans(lens: seq<nat>, n: nat, x: nat)
    requires Lengths(lens) && n <= |lens|
    ensures var b := FastEntry(lens, n, x);
            && (b != 0 ==>
                  && b % FAST_SIZE < n && lens[b % FAST_SIZE] == b / FAST_SIZE <= FAST_BITS
                  && Matches(lens, b % FAST_SIZE, x))
            && (b == 0 ==> forall i :: 0 <= i < n && lens[i] <= FAST_BITS ==> !Matches(lens, i, x))
  {
    hide Prefix, CodeOf;
    if n > 0 {
      FastEntryMeans(lens, n - 1, x);
      EntryParts(lens[n - 1], n - 1);
    }
  }

  lemma EntryParts(s: nat, i: nat)
    requires i < FAST_SIZE
    ensures (s * FAST_SIZE + i) / FAST_SIZE == s && (s * FAST_SIZE + i) % FAST_SIZE == i
  {
  }

  class Tables {
    const fast: array<int>
    const firstcode: array<int>
    const maxcode: array<int>
    const firstsymbol: array<int>
    const size: array<int>
    const value: array<int>

    constructor ()
      ensures Shape()
      ensures fresh(fast) && fresh(firstcode) && fresh(maxcode) && fresh(firstsymbol) && fresh(size) && fresh(value)
    {
      fast := new int[FAST_SIZE];
      firstcode := new int[16];
      maxcode := new int[17];
      firstsymbol := new int[16];
      size := new int[288];
      value := new int[288];
    }

    ghost predicate Shape() {
      && fast.Length == FAST_SIZE && firstcode.Length == 16 && maxcode.Length == 17 && firstsymbol.Length == 16
      && size.Length == 288 && value.Length == 288
      && fast != firstcode && fast != maxcode && fast != firstsymbol && fast != size && fast != value
      && firstcode != maxcode && firstcode != firstsymbol && firstcode != size && firstcode != value
      && maxcode != firstsymbol && maxcode != size && maxcode != value
      && firstsymbol != size && firstsymbol != value && size != value
    }

    /** Entries for lengths below `n`. */
    ghost predicate CodesUpTo(lens: seq<nat>, n: nat)
      requires Shape() && n <= 16
      reads firstcode, maxcode, firstsymbol
    {
      forall s :: 1 <= s < n ==>
        && firstcode[s] == FirstCode(lens, s)
        && maxcode[s] == ShiftLeft(EndCode(lens, s), 16 - s)
        && firstsymbol[s] == FirstSymbol(lens, s)
    }

    ghost predicate SymbolsUpTo(lens: seq<nat>, n: nat)
      requires Shape() && Lengths(lens) && n <= |lens|
      reads size, value
    {
      forall i :: 0 <= i < n && lens[i] > 0 ==>
        Rank(lens, i) < 288 && size[Rank(lens, i)] == lens[i] && value[Rank(lens, i)] == i
    }

    ghost predicate FastUpTo(lens: seq<nat>, n: nat)
      requires Shape() && n <= |lens|
      reads fast
    {
      forall x :: 0 <= x < FAST_SIZE ==> fast[x] == FastEntry(lens, n, x)
    }

    /** The tables describe the canonical code of `lens`. */
    ghost predicate Describe(lens: seq<nat>)
      reads fast, firstcode, maxcode, firstsymbol, size, value
    {
      && Shape() && Lengths(lens) && Accepted(lens)
      && CodesUpTo(lens, 16) && maxcode[16] == 0x10000
      && SymbolsUpTo(lens, |lens|)
      && FastUpTo(lens, |lens|)
    }

    // ----- The builder -----

    /** First loop of `stbi__zbuild_huffman`. */
    method CountSizes(lens: seq<nat>) returns (sizes: array<int>)
      requires Lengths(lens)
      ensures fresh(sizes) && sizes.Length == 17
      ensures forall s :: 1 <= s <= 15 ==> sizes[s] == CountOf(lens, s)
    {
      sizes := new int[17](_ => 0);
      for i := 0 to |lens|
        invariant forall s :: 0 <= s <= 15 ==> sizes[s] == CountBefore(lens, s, i)
      {
        sizes[lens[i]] := sizes[lens[i]] + 1;
      }
      sizes[0] := 0;
    }

    /** The over-full check. */
    method CheckSizes(sizes: array<int>) returns (ok: bool)
      requires sizes.Length == 17
      ensures ok <==> forall s :: 1 <= s <= 15 ==> sizes[s] <= Pow2(s)
    {
      hide Pow2;
      for i := 1 to 16
        invariant forall s :: 1 <= s < i ==> sizes[s] <= Pow2(s)
      {
        if sizes[i] > Pow2(i) {
          return false;
        }
      }
      return true;
    }

    /** The loop that assigns first codes; `ok` is false when a used length runs past its last code. */
    method AssignCodes(lens: seq<nat>, sizes: array<int>, nextcode: array<int>) returns (ok: bool)
      requires Shape() && Lengths(lens) && sizes.Length == 17 && nextcode.Length == 16
      requires forall s :: 1 <= s <= 15 ==> sizes[s] == CountOf(lens, s)
      requires {sizes, nextcode} !! {fast, firstcode, maxcode, firstsymbol, size, value} && sizes != nextcode
      modifies firstcode, maxcode, firstsymbol, nextcode
      ensures ok <==> forall s :: 1 <= s <= 15 && CountOf(lens, s) > 0 ==> EndCode(lens, s) <= Pow2(s)
      ensures ok ==> CodesUpTo(lens, 16) && maxcode[16] == 0x10000
      ensures ok ==> forall s :: 1 <= s <= 15 ==> nextcode[s] == FirstCode(lens, s)
    {
      hide CountOf, ShiftLeft, Pow2, FirstCode, FirstSymbol, EndCode;
      var code, k := 0, 0;
      FirstLength(lens);
      for i := 1 to 16
        invariant code == FirstCode(lens, i) && k == FirstSymbol(lens, i)
        invariant CodesUpTo(lens, i)
        invariant forall s :: 1 <= s < i ==> nextcode[s] == FirstCode(lens, s)
        invariant forall s :: 1 <= s < i && CountOf(lens, s) > 0 ==> EndCode(lens, s) <= Pow2(s)
      {
        NextLength(lens, i);
        nextcode[i] := code;
        firstcode[i] := code;
        firstsymbol[i] := k;
        code := code + sizes[i];
        if sizes[i] != 0 {
          if code - 1 >= Pow2(i) {
            return false;
          }
        }
        maxcode[i] := ShiftLeft(code, 16 - i);
        code := 2 * code;
        k := k + sizes[i];
      }
      maxcode[16] := 0x10000;
      return true;
    }

    /** The inner `while`: every index whose low `s` bits are `j0`. */
    method FillFast(j0: nat, s: nat, fastv: int)
      requires Shape() && j0 < Pow2(s) && s >= 1
      modifies fast
      ensures forall x :: 0 <= x < FAST_SIZE ==>
                fast[x] == if CanonicalCode.Low(x, s) == j0 then fastv else old(fast[x])
    {
      hide CanonicalCode.Low;
      SmallIsLow(j0, s);
      var j := j0;
      forall x: nat | x < j0
        ensures CanonicalCode.Low(x, s) != j0
      {
        if CanonicalCode.Low(x, s) == j0 {
          ResidueGap(x, j0, s);
        }
      }
      while j < FAST_SIZE
        invariant CanonicalCode.Low(j, s) == j0
        invariant forall x :: 0 <= x < FAST_SIZE ==>
                    fast[x] == if CanonicalCode.Low(x, s) == j0 && x < j then fastv else old(fast[x])
      {
        fast[j] := fastv;
        forall x: nat | j < x < j + Pow2(s)
          ensures CanonicalCode.Low(x, s) != j0
        {
          if CanonicalCode.Low(x, s) == j0 {
            ResidueGap(j, x, s);
          }
        }
        LowPeriodic(j, s);
        j := j + Pow2(s);
      }
    }

    /** The slot of a symbol in the sorted tables. */
    method EnterSorted(lens: seq<nat>, i: nat, c: int)
      requires Shape() && Lengths(lens) && i < |lens| && lens[i] > 0 && c == Rank(lens, i) && SymbolsUpTo(lens, i)
      modifies size, value
      ensures SymbolsUpTo(lens, i + 1)
    {
      hide Rank;
      RankBounded(lens, i);
      forall j | 0 <= j < i && lens[j] > 0
        ensures Rank(lens, j) != c
      {
        if Rank(lens, j) == c {
          RankInjective(lens, i, j);
        }
      }
      size[c] := lens[i];
      value[c] := i;
    }

    /** The entries of a short code in the fast table. */
    method EnterFast(lens: seq<nat>, i: nat, code: int)
      requires Shape() && Lengths(lens) && Accepted(lens) && i < |lens| && 1 <= lens[i] <= FAST_BITS
      requires code == CodeOf(lens, i) && FastUpTo(lens, i)
      modifies fast
      ensures FastUpTo(lens, i + 1)
    {
      hide CodeOf, Prefix, CanonicalCode.Low, Pow2, Accepted;
      var s := lens[i];
      CodeFits(lens, i);
      PrefixBounded(code, s);
      var j := Reverse(code, s);
      FillFast(j, s, s * FAST_SIZE + i);
      forall x | 0 <= x < FAST_SIZE
        ensures fast[x] == FastEntry(lens, i + 1, x)
      {
        CodeHits(x, code, s);
      }
    }

    /** One symbol of the last loop. */
    method EnterSymbol(lens: seq<nat>, i: nat, nextcode: array<int>)
      requires Shape() && Lengths(lens) && Accepted(lens) && i < |lens| && lens[i] > 0
      requires nextcode.Length == 16 && nextcode !in {fast, firstcode, maxcode, firstsymbol, size, value}
      requires CodesUpTo(lens, 16) && SymbolsUpTo(lens, i) && FastUpTo(lens, i)
      requires nextcode[lens[i]] == CodeOf(lens, i)
      modifies size, value, fast
      ensures SymbolsUpTo(lens, i + 1) && FastUpTo(lens, i + 1)
    {
      hide CountBefore, FirstCode, FirstSymbol, EndCode, Prefix, Accepted, ShiftLeft;
      var s := lens[i];
      var c := nextcode[s] - firstcode[s] + firstsymbol[s];
      EnterSorted(lens, i, c);
      if s <= FAST_BITS {
        EnterFast(lens, i, nextcode[s]);
      }
    }

    /** The last loop. */
    method EnterSymbols(lens: seq<nat>, nextcode: array<int>)
      requires Shape() && Lengths(lens) && Accepted(lens)
      requires nextcode.Length == 16 && nextcode !in {fast, firstcode, maxcode, firstsymbol, size, value}
      requires CodesUpTo(lens, 16)
      requires forall s :: 1 <= s <= 15 ==> nextcode[s] == FirstCode(lens, s)
      requires FastUpTo(lens, 0)
      modifies size, value, fast, nextcode
      ensures SymbolsUpTo(lens, |lens|) && FastUpTo(lens, |lens|)
    {
      hide Accepted, FirstCode, FirstSymbol, EndCode, FastEntry, ShiftLeft, CountBefore, Rank;
      NoCounts(lens);
      for i := 0 to |lens|
        invariant CodesUpTo(lens, 16)
        invariant SymbolsUpTo(lens, i) && FastUpTo(lens, i)
        invariant forall s :: 1 <= s <= 15 ==> nextcode[s] == FirstCode(lens, s) + CountBefore(lens, s, i)
      {
        var s := lens[i];
        CountsNext(lens, i);
        if s != 0 {
          EnterSymbol(lens, i, nextcode);
          nextcode[s] := nextcode[s] + 1;
        } else {
          SkippedSymbol(lens, i);
        }
      }
    }

    /** `stbi__zbuild_huffman`: succeeds exactly on acceptable lengths, and then describes their code. */
    method Build(lens: seq<nat>) returns (ok: bool)
      requires Shape() && Lengths(lens)
      modifies fast, firstcode, maxcode, firstsymbol, size, value
      ensures ok <==> Accepted(lens)
      ensures ok ==> Describe(lens)
    {
      hide CountOf, FirstCode, FirstSymbol, EndCode, FastEntry, Pow2, ShiftLeft;
      var sizes := CountSizes(lens);
      var nextcode := new int[16];
      ok := CheckSizes(sizes);
      if ok {
        ok := AssignCodes(lens, sizes, nextcode);
      }
      if ok {
        ClearFast(lens);
        EnterSymbols(lens, nextcode);
      }
    }

    method ClearFast(lens: seq<nat>)
      requires Shape()
      modifies fast
      ensures FastUpTo(lens, 0)
    {
      for x := 0 to FAST_SIZE
        invariant forall y :: 0 <= y < x ==> fast[y] == 0
      {
        fast[x] := 0;
      }
    }
  }

  lemma NoCounts(lens: seq<nat>)
    ensures forall s: nat :: CountBefore(lens, s, 0) == 0
  {
  }

  lemma CountsNext(lens: seq<nat>, i: nat)
    requires i < |lens|
    ensures forall s: nat :: CountBefore(lens, s, i + 1) == CountBefore(lens, s, i) + if lens[i] == s then 1 else 0
  {
  }

  lemma FirstLength(lens: seq<nat>)
    ensures FirstCode(lens, 1) == 0 && FirstSymbol(lens, 1) == 0
  {
  }

  lemma NextLength(lens: seq<nat>, s: nat)
    requires s >= 1
    ensures EndCode(lens, s) == FirstCode(lens, s) + CountOf(lens, s)
    ensures FirstCode(lens, s + 1) == 2 * EndCode(lens, s)
    ensures FirstSymbol(lens, s + 1) == FirstSymbol(lens, s) + CountOf(lens, s)
  {
    hide CountOf;
  }

  lemma CodeFits(lens: seq<nat>, i: nat)
    requires Lengths(lens) && Accepted(lens) && i < |lens| && lens[i] > 0
    ensures CodeOf(lens, i) < Pow2(lens[i])
  {
    CodeInRange(lens, i);
    CodesFit(lens, lens[i]);
  }

  lemma SkippedSymbol(lens: seq<nat>, i: nat)
    requires i < |lens| && lens[i] == 0
    ensures forall x: nat :: FastEntry(lens, i + 1, x) == FastEntry(lens, i, x)
  {
  }
}
