/** The loop of `stbi__parse_huffman_block` (external/stb/stb_image.h): what it leaves in the output, and exactly for
    which codes it always ends. */
module InflateBlock {
  import opened Words
  import opened Bits
  import C = CanonicalCode
  import opened ZHuffman
  import opened ZStream
  import opened Inflate
  import T = ZTail

  datatype Status = BlockDone | BlockError

  datatype Rounds = Finished(status: Status) | Open

  lemma EmptyBlock(ll: seq<nat>, ld: seq<nat>, w: nat, start: seq<Byte>)
    requires Codes(ll, ld)
    ensures DecodedTo(ll, ld, w, start, [], start, w) && Decoded(ll, ld, w, start, [], start)
    ensures TotalBits(ll, ld, []) == 0
  {
  }

  /** One round of the loop, with the tokens before it. */
  method BlockRound(z: ZBuf, hl: Tables, hd: Tables, ghost ll: seq<nat>, ghost ld: seq<nat>, out: OutBuf,
                    ghost w0: nat, ghost start: seq<Byte>, ghost avail: int, ghost ts: seq<Token>)
      returns (round: Round, ghost t: Token)
    requires Ready(z, hl, hd, ll, ld, out)
    requires DecodedTo(ll, ld, w0, start, ts, out.Contents(), z.Stream()) && z.Avail() >= avail - TotalBits(ll, ld, ts)
    modifies z, out, out.data
    ensures Ready(z, hl, hd, ll, ld, out) && (out.data != old(out.data) ==> fresh(out.data))
    ensures round == PutToken ==> DecodedTo(ll, ld, w0, start, ts + [t], out.Contents(), z.Stream())
    ensures round == PutToken ==> Decoded(ll, ld, w0, start, ts + [t], out.Contents())
    ensures round == PutToken ==> z.Avail() >= avail - TotalBits(ll, ld, ts + [t])
    ensures round == PutToken ==> Begins(ll, ld, old(z.Stream()), t) && z.Stream() == Rest(ll, ld, old(z.Stream()), t)
    ensures round == PutToken ==>
              Progress(ll, ld, t, |z.input|, old(z.pos), z.pos, old(z.numBits), z.numBits, old(out.len), out.len)
    ensures round != PutToken ==> Decoded(ll, ld, w0, start, ts, out.Contents())
    ensures round == EndOfBlock ==> Ends(ll, ld, w0, ts, z.Stream())
    ensures round == Failed ==>
              Stuck(ll, ld, w0, ts, z.Halt(), avail - TotalBits(ll, ld, ts), out.len, out.data.Length, out.expandable)
    ensures old(z.pos) == |z.input| && old(z.Stream()) == 0 && Spins(ll, ld, old(z.numBits), old(out.len)) ==>
              round == PutToken && t.Match? && ZeroPair(ll, ld, t.lsym, t.dsym)
  {
    hide C.Matches, C.Accepted, ShiftRight, ShiftLeft, LittleEndian, Pow2, Begins, Rest, TokenBits, TotalBits, Blocked,
         Decoded, Reads, After, Written, Progress, Spins, ZeroPair, Tables.Describe;
    ghost var before, w, left := out.Contents(), z.Stream(), z.Avail();
    round, t := ParseToken(z, hl, hd, ll, ld, out);
    if round == Failed {
      BlockedEarlier(ll, ld, w, z.Halt(), avail - TotalBits(ll, ld, ts), left, out.len, out.data.Length,
                     out.expandable);
      StuckIs(ll, ld, w0, start, ts, before, w, z.Halt(), avail - TotalBits(ll, ld, ts), out.len, out.data.Length,
              out.expandable);
    } else if round == EndOfBlock {
      EndsIs(ll, ld, w0, start, ts, before, w, z.Stream());
    } else {
      DecodedToken(ll, ld, w0, start, ts, before, w, t, out.Contents());
      TotalBitsNext(ll, ld, ts, t);
    }
  }

  /** After `ts` comes the end-of-block code, and `rest` behind it. */
  ghost predicate Ends(ll: seq<nat>, ld: seq<nat>, w0: nat, ts: seq<Token>, rest: nat)
    requires Codes(ll, ld)
  {
    Reads(ll, ld, w0, ts) && var w := After(ll, ld, w0, ts); C.Matches(ll, 256, w) && rest == ShiftRight(w, ll[256])
  }

  /** After `ts` there is no way on. */
  ghost predicate Stuck(ll: seq<nat>, ld: seq<nat>, w0: nat, ts: seq<Token>, halt: Option<nat>, avail: int,
                        len: nat, capacity: nat, expandable: bool)
    requires Codes(ll, ld) && capacity > 0
  {
    Reads(ll, ld, w0, ts) && Blocked(ll, ld, After(ll, ld, w0, ts), halt, avail, len, capacity, expandable)
  }

  lemma EndsIs(ll: seq<nat>, ld: seq<nat>, w0: nat, start: seq<Byte>, ts: seq<Token>, out: seq<Byte>, w: nat, rest: nat)
    requires Codes(ll, ld) && DecodedTo(ll, ld, w0, start, ts, out, w) && C.Matches(ll, 256, w)
    requires rest == ShiftRight(w, ll[256])
    ensures Ends(ll, ld, w0, ts, rest)
  {
    hide Reads, After, ShiftRight;
  }

  lemma StuckIs(ll: seq<nat>, ld: seq<nat>, w0: nat, start: seq<Byte>, ts: seq<Token>, out: seq<Byte>, w: nat,
                halt: Option<nat>, avail: int, len: nat, capacity: nat, expandable: bool)
    requires Codes(ll, ld) && DecodedTo(ll, ld, w0, start, ts, out, w)
    requires capacity > 0 && Blocked(ll, ld, w, halt, avail, len, capacity, expandable)
    ensures Stuck(ll, ld, w0, ts, halt, avail, len, capacity, expandable)
  {
    hide Reads, After, Blocked;
  }

  // ----- Codes for which the loop always ends -----

  /** Rounds of zero-length matches that the bits in the buffer still allow past the end of the input. */
  ghost function Patience(ll: seq<nat>, ld: seq<nat>, x: nat): nat {
    if s: nat, d: nat :| ZeroPair(ll, ld, s, d) then TailLeft(ll, ld, s, d, x) else 0
  }

  lemma OneZeroPair(ll: seq<nat>, ld: seq<nat>, s: nat, d: nat, x: nat)
    requires ZeroPair(ll, ld, s, d)
    ensures Patience(ll, ld, x) == TailLeft(ll, ld, s, d, x)
  {
    hide C.Matches, TailLeft;
    OneZeroCode(ll, s);
    OneZeroCode(ld, d);
  }

  lemma TailUsed(ll: seq<nat>, ld: seq<nat>, s: nat, d: nat, x: nat, x': nat)
    requires ZeroPair(ll, ld, s, d) && x <= 32 && !Endless(ll, ld) && TailNext(ll, ld, s, d, x) == Some(x')
    ensures Patience(ll, ld, x') < Patience(ll, ld, x)
  {
    OneZeroPair(ll, ld, s, d, x);
    OneZeroPair(ll, ld, s, d, x');
    TableBounds();
    hide DIST_EXTRA, Patience, ZeroPair, T.Lasts, T.RoundsLeft, T.Next;
    assert !TailLasts(ll, ld, s, d, x, 18);
    T.RoundUsed(ll[s], ld[d], DIST_EXTRA[d], x);
  }

  /** The last part of the measure: bits while there is input, rounds afterwards. */
  ghost function Tail(ll: seq<nat>, ld: seq<nat>, size: nat, pos: nat, x: nat): nat {
    if pos < size then x else Patience(ll, ld, x)
  }

  /** Every token adds output, or shortens the stream, or uses up input, bits or rounds. */
  lemma TokenDecreases(ll: seq<nat>, ld: seq<nat>, w: nat, t: Token, size: nat, pos: nat, pos': nat, x: nat, x': nat,
                       len: nat, len': nat)
    requires Codes(ll, ld) && !Endless(ll, ld) && Begins(ll, ld, w, t) && x <= 32 && pos' <= size
    requires Progress(ll, ld, t, size, pos, pos', x, x', len, len')
    ensures len' >= len && pos' >= pos
    ensures len' == len ==> Rest(ll, ld, w, t) <= w
    ensures len' == len && Rest(ll, ld, w, t) == w && pos' == pos ==>
              Tail(ll, ld, size, pos', x') < Tail(ll, ld, size, pos, x)
  {
    hide Begins, Rest, Endless, TailNext, Patience, ZeroPair, Length, Distance, C.Matches;
    if len' == len {
      ZeroLength(t);
      ZeroMatch(ll, ld, w, t);
      if Rest(ll, ld, w, t) == w && pos' == pos == size {
        ZeroPairIs(ll, ld, t);
        TailUsed(ll, ld, t.lsym, t.dsym, x, x');
      }
    }
  }

  /** `stbi__parse_huffman_block`: it ends; on success the stream began with the tokens and the end-of-block code, and
      the output is their expansion; an error means that input, codes, distance or room left no way on. */
  method ParseBlock(z: ZBuf, hl: Tables, hd: Tables, ghost ll: seq<nat>, ghost ld: seq<nat>, out: OutBuf)
      returns (status: Status, ghost ts: seq<Token>)
    requires Ready(z, hl, hd, ll, ld, out) && !Endless(ll, ld)
    modifies z, out, out.data
    ensures Ready(z, hl, hd, ll, ld, out)
    ensures Decoded(ll, ld, old(z.Stream()), old(out.Contents()), ts, out.Contents())
    ensures status == BlockDone ==> Ends(ll, ld, old(z.Stream()), ts, z.Stream())
    ensures status == BlockError ==>
              Stuck(ll, ld, old(z.Stream()), ts, z.Halt(), old(z.Avail()) - TotalBits(ll, ld, ts),
                    out.len, out.data.Length, out.expandable)
  {
    hide C.Matches, C.Accepted, ShiftRight, ShiftLeft, LittleEndian, Pow2, Begins, Rest, TotalBits, Ends, Stuck,
         Decoded, Reads, After, Progress, Spins, ZeroPair, Tail, Tables.Describe, DecodedTo, Codes, Endless;
    ts := [];
    ghost var w0, start, avail := z.Stream(), out.Contents(), z.Avail();
    EmptyBlock(ll, ld, w0, start);
    while true
      invariant Ready(z, hl, hd, ll, ld, out)
      invariant out.data != old(out.data) ==> fresh(out.data)
      invariant DecodedTo(ll, ld, w0, start, ts, out.Contents(), z.Stream())
      invariant z.Avail() >= avail - TotalBits(ll, ld, ts)
      decreases UINT_MAX - out.len, z.Stream(), |z.input| - z.pos, Tail(ll, ld, |z.input|, z.pos, z.numBits)
    {
      ghost var w, pos, x, len := z.Stream(), z.pos, z.numBits, out.len;
      var round;
      ghost var t;
      round, t := BlockRound(z, hl, hd, ll, ld, out, w0, start, avail, ts);
      if round == Failed {
        return BlockError, ts;
      } else if round == EndOfBlock {
        return BlockDone, ts;
      }
      TokenDecreases(ll, ld, w, t, |z.input|, pos, z.pos, x, z.numBits, len, out.len);
      ts := ts + [t];
    }
  }

  /** A condition a caller can see at a glance: the all-zero code does not belong to symbol 286 or 287. */
  lemma NoZeroCode(ll: seq<nat>, ld: seq<nat>)
    requires C.Lengths(ll) && !C.Matches(ll, 286, 0) && !C.Matches(ll, 287, 0)
    ensures !Endless(ll, ld)
  {
    hide C.Matches, TailLasts;
  }

  // ----- And only for those -----

  /** The loop cut after `budget` rounds. Past the end of an input of zeros it is still open when the bit count lasts
      that long. */
  method ParseRounds(z: ZBuf, hl: Tables, hd: Tables, ghost ll: seq<nat>, ghost ld: seq<nat>, out: OutBuf, budget: nat)
      returns (rounds: Rounds, ghost ts: seq<Token>)
    requires Ready(z, hl, hd, ll, ld, out)
    modifies z, out, out.data
    ensures Ready(z, hl, hd, ll, ld, out)
    ensures Decoded(ll, ld, old(z.Stream()), old(out.Contents()), ts, out.Contents())
    ensures rounds == Finished(BlockDone) ==> Ends(ll, ld, old(z.Stream()), ts, z.Stream())
    ensures rounds == Finished(BlockError) ==>
              Stuck(ll, ld, old(z.Stream()), ts, z.Halt(), old(z.Avail()) - TotalBits(ll, ld, ts),
                    out.len, out.data.Length, out.expandable)
    ensures rounds == Open ==> |ts| == budget
    ensures old(z.pos == |z.input| && z.Stream() == 0 && Lasting(ll, ld, z.numBits, out.len, budget)) ==> rounds == Open
  {
    hide C.Matches, C.Accepted, ShiftRight, ShiftLeft, LittleEndian, Pow2, Begins, Rest, TotalBits, Ends, Stuck,
         Decoded, Reads, After, Progress, Spins, ZeroPair, Lasting, Tables.Describe, DecodedTo, Codes;
    ts := [];
    ghost var w0, start, avail := z.Stream(), out.Contents(), z.Avail();
    ghost var lasting := z.pos == |z.input| && z.Stream() == 0 && Lasting(ll, ld, z.numBits, out.len, budget);
    EmptyBlock(ll, ld, w0, start);
    for count := 0 to budget
      invariant Ready(z, hl, hd, ll, ld, out)
      invariant out.data != old(out.data) ==> fresh(out.data)
      invariant |ts| == count && DecodedTo(ll, ld, w0, start, ts, out.Contents(), z.Stream())
      invariant Decoded(ll, ld, w0, start, ts, out.Contents())
      invariant z.Avail() >= avail - TotalBits(ll, ld, ts)
      invariant lasting ==> z.pos == |z.input| && z.Stream() == 0 && Lasting(ll, ld, z.numBits, out.len, budget - count)
    {
      ghost var w, pos, x, len := z.Stream(), z.pos, z.numBits, out.len;
      if lasting {
        LastingSpins(ll, ld, x, len, budget - count);
      }
      var round;
      ghost var t;
      round, t := BlockRound(z, hl, hd, ll, ld, out, w0, start, avail, ts);
      if round == Failed {
        return Finished(BlockError), ts;
      } else if round == EndOfBlock {
        return Finished(BlockDone), ts;
      }
      if lasting {
        LastingNext(ll, ld, t, |z.input|, pos, z.pos, x, z.numBits, len, out.len, budget - count);
        ZeroMatch(ll, ld, 0, t);
      }
      ts := ts + [t];
    }
    return Open, ts;
  }

  /** Zero-length matches can follow one another `n` times. */
  ghost predicate Lasting(ll: seq<nat>, ld: seq<nat>, x: nat, len: nat, n: nat) {
    exists s: nat, d: nat :: ZeroPair(ll, ld, s, d) && TailLasts(ll, ld, s, d, x, n) && BaseOf(d) <= len
  }

  lemma LastingSpins(ll: seq<nat>, ld: seq<nat>, x: nat, len: nat, n: nat)
    requires Lasting(ll, ld, x, len, n) && n > 0
    ensures Spins(ll, ld, x, len)
  {
    TableBounds();
    hide DIST_EXTRA, DIST_BASE, ZeroPair, BaseOf;
    var s: nat, d: nat :| ZeroPair(ll, ld, s, d) && TailLasts(ll, ld, s, d, x, n) && BaseOf(d) <= len;
    assert TailNext(ll, ld, s, d, x).Some?;
  }

  lemma LastingNext(ll: seq<nat>, ld: seq<nat>, t: Token, size: nat, pos: nat, pos': nat, x: nat, x': nat, len: nat,
                    len': nat, n: nat)
    requires Lasting(ll, ld, x, len, n) && n > 0 && t.Match? && ZeroPair(ll, ld, t.lsym, t.dsym) && pos == size >= pos'
    requires Progress(ll, ld, t, size, pos, pos', x, x', len, len')
    ensures pos' == pos && Lasting(ll, ld, x', len', n - 1)
  {
    TableBounds();
    hide DIST_EXTRA, DIST_BASE, BaseOf, C.Matches, Length;
    var s: nat, d: nat :| ZeroPair(ll, ld, s, d) && TailLasts(ll, ld, s, d, x, n) && BaseOf(d) <= len;
    OneZeroCode(ll, s);
    OneZeroCode(ld, d);
    assert t.lsym == s && t.dsym == d;
    assert TailLasts(ll, ld, s, d, x', n - 1);
  }

  /** For every other pair of codes there is a state the block loop never leaves: past the end of the input, with `x`
      bits left, it is open after any number of rounds. */
  method NeverEnds(hl: Tables, hd: Tables, ghost ll: seq<nat>, ghost ld: seq<nat>, ghost s: nat, ghost d: nat, x: nat,
                   budget: nat)
      returns (rounds: Rounds)
    requires Codes(ll, ld) && hl.Describe(ll) && hd.Describe(ld)
    requires ZeroPair(ll, ld, s, d) && x <= 32 && TailLasts(ll, ld, s, d, x, 18)
    ensures rounds == Open
  {
    TableBounds();
    BasesBounded();
    hide C.Matches, C.Accepted, LittleEndian, ShiftLeft, Tables.Describe, DIST_BASE, DIST_EXTRA,
         T.Lasts, ZeroPair, Pow2;
    var z := new ZBuf([]);
    EmptyStream(x);
    z.numBits := x;
    var out := new OutBuf(0x8000, false);
    out.len := 0x8000;
    T.LastsForever(ll[s], ld[d], DIST_EXTRA[d], x, budget);
    assert TailLasts(ll, ld, s, d, x, budget);
    ghost var ts;
    rounds, ts := ParseRounds(z, hl, hd, ll, ld, out, budget);
  }

  lemma BasesBounded()
    ensures forall d: nat :: BaseOf(d) <= 0x8000
  {
    hide LENGTH_BASE, LENGTH_EXTRA, DIST_EXTRA;
  }

  lemma EmptyStream(x: nat)
    ensures LittleEndian([]) == 0 && ShiftLeft(0, x) == 0
  {
    ShiftLeftValue(0, x);
  }

  /** Such codes exist: one bit for symbol 286 and ten for distance symbol 28, the only symbols; seventeen bits
      repeat. */
  lemma EndlessCodes(ll: seq<nat>, ld: seq<nat>)
    requires |ll| == 287 && ll[286] == 1 && forall i :: 0 <= i < 286 ==> ll[i] == 0
    requires |ld| == 29 && ld[28] == 10 && forall i :: 0 <= i < 28 ==> ld[i] == 0
    ensures Codes(ll, ld) && C.Accepted(ll) && C.Accepted(ld) && Endless(ll, ld)
  {
    LoneSymbol(ll, 286);
    LoneSymbol(ld, 28);
    Seventeen(18);
    TailOf28();
    assert ZeroPair(ll, ld, 286, 28) && TailLasts(ll, ld, 286, 28, 17, 18);
  }

  /** A run that comes there: four zero bytes of input of which a header takes fifteen bits, and 16385 bytes of earlier
      output. The block that follows with these codes is open after any number of rounds. */
  method EndlessRun(budget: nat) returns (rounds: Rounds)
    ensures rounds == Open
  {
    hide Codes, Tables.Describe, Endless, C.Accepted, C.Lengths;
    var ll, ld := LoneCode(287, 1), LoneCode(29, 10);
    EndlessCodes(ll, ld);
    CodesLengths(ll, ld);
    var hl := NewTables(ll);
    var hd := NewTables(ld);
    rounds := RunFromHeader(hl, hd, ll, ld, budget);
  }

  /** Code lengths of `n` symbols of which only the last has a code. */
  function LoneCode(n: nat, length: nat): (lens: seq<nat>)
    requires n > 0
    ensures |lens| == n && lens[n - 1] == length && forall i :: 0 <= i < n - 1 ==> lens[i] == 0
  {
    seq(n - 1, _ => 0) + [length]
  }

  method RunFromHeader(hl: Tables, hd: Tables, ghost ll: seq<nat>, ghost ld: seq<nat>, budget: nat)
      returns (rounds: Rounds)
    requires Codes(ll, ld) && hl.Describe(ll) && hd.Describe(ld)
    requires |ll| == 287 && ll[286] == 1 && forall i :: 0 <= i < 286 ==> ll[i] == 0
    requires |ld| == 29 && ld[28] == 10 && forall i :: 0 <= i < 28 ==> ld[i] == 0
    ensures rounds == Open
  {
    hide Codes, Tables.Describe, Lasting, LittleEndian, ShiftLeft, Pow2, Decoded, Ends, Stuck, TotalBits;
    var z := HeaderRead();
    var out := EarlierOutput();
    LastingRun(ll, ld, out.len, budget);
    ghost var ts;
    rounds, ts := ParseRounds(z, hl, hd, ll, ld, out, budget);
  }

  /** Tables as the builder leaves them. */
  method NewTables(lens: seq<nat>) returns (h: Tables)
    requires C.Lengths(lens) && C.Accepted(lens)
    ensures h.Describe(lens)
    ensures fresh(h.fast) && fresh(h.firstcode) && fresh(h.maxcode) && fresh(h.firstsymbol) && fresh(h.size)
    ensures fresh(h.value)
  {
    hide C.Accepted, Tables.Describe;
    h := new Tables();
    var built := h.Build(lens);
  }

  /** The reader after fifteen bits of four zero bytes. */
  method HeaderRead() returns (z: ZBuf)
    ensures fresh(z) && z.Valid() && z.pos == |z.input| && z.Stream() == 0 && z.numBits == 17
  {
    z := new ZBuf([0, 0, 0, 0]);
    ZeroBytes(z.input);
    FilledFromNothing();
    hide LittleEndian, ShiftLeft, ShiftRight, Pow2, Get, Filled;
    ZeroShifted(15);
    var header := z.Receive(15);
  }

  lemma {:induction false} ZeroBytes(bs: seq<Byte>)
    requires forall b :: b in bs ==> b == 0
    ensures LittleEndian(bs) == 0
  {
    if bs != [] {
      assert bs[0] in bs && forall b :: b in bs[1..] ==> b in bs;
      ZeroBytes(bs[1..]);
    }
  }

  /** Earlier output, byte by byte. */
  method EarlierOutput() returns (out: OutBuf)
    ensures fresh(out) && fresh(out.data) && out.Valid() && 0 < out.data.Length <= UINT_MAX && out.len == 16385
  {
    out := new OutBuf(0x8000, false);
    for i := 0 to 16385
      invariant fresh(out) && fresh(out.data) && out.Valid() && out.data.Length == 0x8000 && out.len == i
    {
      out.Append(0);
    }
  }

  lemma CodesLengths(ll: seq<nat>, ld: seq<nat>)
    requires Codes(ll, ld)
    ensures C.Lengths(ll) && C.Lengths(ld)
  {
  }

  lemma LastingRun(ll: seq<nat>, ld: seq<nat>, len: nat, n: nat)
    requires |ll| == 287 && ll[286] == 1 && forall i :: 0 <= i < 286 ==> ll[i] == 0
    requires |ld| == 29 && ld[28] == 10 && forall i :: 0 <= i < 28 ==> ld[i] == 0
    requires len >= 16385
    ensures Lasting(ll, ld, 17, len, n)
  {
    hide T.Lasts;
    LoneSymbol(ll, 286);
    LoneSymbol(ld, 28);
    Seventeen(n);
    TailOf28();
    BaseOf28();
    assert ZeroPair(ll, ld, 286, 28) && TailLasts(ll, ld, 286, 28, 17, n);
  }

  lemma BaseOf28()
    ensures BaseOf(28) == 16385
  {
    hide DIST_EXTRA, LENGTH_BASE, LENGTH_EXTRA;
  }

  lemma FilledFromNothing()
    ensures Filled(0) == 32
  {
    assert Filled(0) == Filled(8) == Filled(16) == Filled(24) == 32;
  }

  lemma TailOf28()
    ensures |DIST_EXTRA| == 32 && DIST_EXTRA[28] == 13
  {
  }

  lemma {:induction false} Seventeen(n: nat)
    ensures T.Lasts(1, 10, 13, 17, n)
  {
    if n > 0 {
      Seventeen(n - 1);
      assert Filled(6) == Filled(14) == Filled(22) == 30;
      assert T.Next(1, 10, 13, 17) == Some(17);
    }
  }

  lemma {:induction false} CountsOfLone(lens: seq<nat>, i: nat, s: nat, n: nat)
    requires i < |lens| && n <= |lens| && forall j :: 0 <= j < |lens| && j != i ==> lens[j] == 0
    requires s >= 1
    ensures C.CountBefore(lens, s, n) == if n > i && lens[i] == s then 1 else 0
  {
    if n > 0 {
      CountsOfLone(lens, i, s, n - 1);
    }
  }

  lemma {:induction false} EndOfLone(lens: seq<nat>, i: nat, s: nat)
    requires i < |lens| && lens[i] >= 1 && forall j :: 0 <= j < |lens| && j != i ==> lens[j] == 0
    requires 1 <= s
    ensures s <= lens[i] ==> C.FirstCode(lens, s) == 0
    ensures C.EndCode(lens, s) <= Pow2(s)
  {
    CountsOfLone(lens, i, s, |lens|);
    if s > 1 {
      EndOfLone(lens, i, s - 1);
      CountsOfLone(lens, i, s - 1, |lens|);
    }
  }

  /** The only symbol of a code has the all-zero code. */
  lemma LoneSymbol(lens: seq<nat>, i: nat)
    requires C.Lengths(lens) && i < |lens| && lens[i] >= 1 && forall j :: 0 <= j < |lens| && j != i ==> lens[j] == 0
    ensures C.Accepted(lens) && C.Matches(lens, i, 0)
  {
    hide C.EndCode, C.CountBefore, C.Prefix;
    EndOfLone(lens, i, lens[i]);
    CountsOfLone(lens, i, lens[i], i);
    ZeroPrefix(lens[i]);
    forall s | 1 <= s <= 15
      ensures C.CountOf(lens, s) <= Pow2(s) && C.EndCode(lens, s) <= Pow2(s)
    {
      EndOfLone(lens, i, s);
      CountsOfLone(lens, i, s, |lens|);
    }
  }

  lemma {:induction false} ZeroPrefix(s: nat)
    ensures C.Prefix(0, s) == 0
  {
    if s > 0 {
      ZeroPrefix(s - 1);
      ZeroShifted(s - 1);
    }
  }
}
