/** `disassemble_block` (emu/core/instrinfo.hpp): which addresses it lists, and that straight-line execution
    fetches its opcodes at exactly those addresses. */
module Disassembler {
  import opened Words
  import opened Isa
  import opened CpuModel
  import opened Predictor
  import Interrupts

  /** The addresses of consecutive instructions from `start` up to `end`, by the debugger's length table. */
  function Listing(read: Word -> Byte, start: nat, end: Word): seq<Word>
    requires end <= 0xFFFC
    decreases 0x10000 - start
  {
    if start > end then [] else [start as Word] + Listing(read, start + NumBytes(read(start)), end)
  }

  /** The block is listed in order from its start, each entry one instruction after the last, and the listing
      stops only past the end. */
  lemma {:induction false} ListingWalksBlock(read: Word -> Byte, start: nat, end: Word)
    requires end <= 0xFFFC
    ensures var l := Listing(read, start, end);
            && (start <= end ==> l != [] && l[0] == start && l[|l| - 1] + NumBytes(read(l[|l| - 1])) > end)
            && (forall k :: 0 <= k < |l| ==> start <= l[k] <= end)
            && (forall k :: 0 <= k < |l| - 1 ==> l[k + 1] == l[k] + NumBytes(read(l[k])))
    decreases 0x10000 - start
  {
    hide NumBytes;
    if start <= end {
      var next := start + NumBytes(read(start));
      LengthPositive(read(start));
      ListingWalksBlock(read, next, end);
      var l, rest := Listing(read, start, end), Listing(read, next, end);
      assert l == [start as Word] + rest;
      forall k | 0 <= k < |l| - 1
        ensures l[k + 1] == l[k] + NumBytes(read(l[k]))
      {
        assert l[k + 1] == rest[k];
        if k > 0 {
          assert l[k] == rest[k - 1];
        }
      }
    }
  }

  lemma LengthPositive(opcode: Byte)
    ensures 1 <= NumBytes(opcode) <= 3
  {
  }

  // ----- The loop, with its 16-bit address -----

  /** The address after `n` rounds. */
  function Walk(read: Word -> Byte, start: Word, n: nat): Word {
    if n == 0 then start
    else
      var at := Walk(read, start, n - 1);
      LengthPositive(read(at));
      ToWord(at + NumBytes(read(at)))
  }

  /** The address passes the end after exactly `n` rounds. */
  ghost predicate Leaves(read: Word -> Byte, start: Word, end: Word, n: nat) {
    Walk(read, start, n) > end && forall k :: 0 <= k < n ==> Walk(read, start, k) <= end
  }

  lemma WalkNext(read: Word -> Byte, start: Word, n: nat)
    ensures var at := Walk(read, start, n);
            1 <= NumBytes(read(at)) <= 3 && Walk(read, start, n + 1) == ToWord(at + NumBytes(read(at)))
  {
    hide NumBytes;
    LengthPositive(read(Walk(read, start, n)));
  }

  /** The loop hands the visited addresses to `process`, as many as it takes to pass the end. */
  method DisassembleBlock(read: Word -> Byte, start: Word, end: Word, ghost rounds: nat) returns (processed: seq<Word>)
    requires Leaves(read, start, end, rounds)
    ensures |processed| == rounds && forall k :: 0 <= k < rounds ==> processed[k] == Walk(read, start, k)
  {
    hide NumBytes, Walk;
    WalkStart(read, start);
    processed := [];
    var at := start;
    while at <= end
      invariant |processed| <= rounds && at == Walk(read, start, |processed|)
      invariant forall k :: 0 <= k < |processed| ==> processed[k] == Walk(read, start, k)
      decreases rounds - |processed|
    {
      var id := read(at);
      WalkNext(read, start, |processed|);
      processed := processed + [at];
      at := ToWord(at + NumBytes(id));
    }
  }

  lemma {:induction false} WalkFrom(read: Word -> Byte, start: Word, next: Word, n: nat)
    requires next == Walk(read, start, 1)
    ensures Walk(read, next, n) == Walk(read, start, n + 1)
  {
    hide NumBytes;
    if n > 0 {
      WalkFrom(read, start, next, n - 1);
    }
  }

  /** Up to 0xFFFC the address cannot wrap before it passes the end: the loop ends and visits the listing. */
  lemma {:induction false} LoopIsListing(read: Word -> Byte, start: Word, end: Word)
    requires end <= 0xFFFC
    ensures var l := Listing(read, start, end);
            Leaves(read, start, end, |l|) && forall k :: 0 <= k < |l| ==> l[k] == Walk(read, start, k)
    decreases 0x10000 - start
  {
    hide NumBytes, Walk;
    WalkStart(read, start);
    if start <= end {
      LengthPositive(read(start));
      var next: Word := start + NumBytes(read(start));
      LoopIsListing(read, next, end);
      var l, rest := Listing(read, start, end), Listing(read, next, end);
      assert l == [start] + rest;
      forall k | 0 <= k < |l|
        ensures l[k] == Walk(read, start, k) <= end
      {
        if k > 0 {
          WalkFrom(read, start, next, k - 1);
        }
      }
      WalkFrom(read, start, next, |rest|);
    }
  }

  lemma WalkStart(read: Word -> Byte, start: Word)
    ensures Walk(read, start, 0) == start
    ensures start + NumBytes(read(start)) < 0x10000 ==> Walk(read, start, 1) == start + NumBytes(read(start))
  {
    hide NumBytes;
    LengthPositive(read(start));
    assert Walk(read, start, 1) == ToWord(Walk(read, start, 0) + NumBytes(read(start)));
  }

  /** One-byte instructions up to `end`, where one sits whose length just reaches the end of memory. */
  function Wrapping(end: Word): Word -> Byte {
    a => if a != end then 0xEA else if end == 0xFFFE then 0xA9 else if end == 0xFFFD then 0x4C else 0xEA
  }

  /** Above 0xFFFC the address can wrap before it passes the end, and then the loop never ends. */
  lemma {:induction false} LoopNeedNotEnd(end: Word, n: nat)
    requires end > 0xFFFC
    ensures Walk(Wrapping(end), 0, n) <= end
  {
    hide Walk, NumBytes;
    if n == 0 {
      WalkStart(Wrapping(end), 0);
    } else {
      LoopNeedNotEnd(end, n - 1);
      WalkNext(Wrapping(end), 0, n - 1);
      WrappingLengths();
    }
  }

  lemma WrappingLengths()
    ensures NumBytes(0xEA) == 1 && NumBytes(0xA9) == 2 && NumBytes(0x4C) == 3
  {
  }

  /** Execution at `s` stays in straight-line code whose bytes are still what the disassembler reads. */
  ghost predicate Straight<M>(d: Device<M>, s: Sys<M>, read: Word -> Byte) {
    && Unarmed(s)
    && Inert(d, s.mem, s.cpu.pc)
    && Fetched(d, s) == read(s.cpu.pc)
    && !Redirects(Fetched(d, s))
    && !TookBranch(Fetched(d, s), s.cpu.regs.flags)
  }

  lemma StraightStep<M>(d: Device<M>, s: Sys<M>, read: Word -> Byte)
    requires Straight(d, s, read)
    ensures Run(d, s).cpu.pc == ToWord(s.cpu.pc + NumBytes(read(s.cpu.pc)))
  {
    hide Run, NumBytes;
    PlainPrediction(d, s);
  }

  /** While execution is straight and inside the block, step k fetches its opcode at the k-th listed address. */
  lemma {:induction false} ExecutionFollowsListing<M>(d: Device<M>, s: Sys<M>, read: Word -> Byte, end: Word, n: nat)
    requires end <= 0xFFFC
    requires forall k: nat :: k < n ==>
               Straight(d, Interrupts.Steps(d, s, k), read) && Interrupts.Steps(d, s, k).cpu.pc <= end
    ensures n <= |Listing(read, s.cpu.pc, end)|
    ensures forall k: nat :: k < n ==> Listing(read, s.cpu.pc, end)[k] == Interrupts.Steps(d, s, k).cpu.pc
    decreases n
  {
    hide Run, NumBytes, Straight;
    if n > 0 {
      assert Interrupts.Steps(d, s, 0) == s;
      StraightStep(d, s, read);
      LengthPositive(read(s.cpu.pc));
      var t := Run(d, s);
      forall k: nat | k < n - 1
        ensures Straight(d, Interrupts.Steps(d, t, k), read) && Interrupts.Steps(d, t, k).cpu.pc <= end
      {
        assert Interrupts.Steps(d, s, k + 1) == Interrupts.Steps(d, t, k);
      }
      ExecutionFollowsListing(d, t, read, end, n - 1);
      var l, rest := Listing(read, s.cpu.pc, end), Listing(read, t.cpu.pc, end);
      assert l == [s.cpu.pc] + rest;
      forall k: nat | k < n
        ensures l[k] == Interrupts.Steps(d, s, k).cpu.pc
      {
        if k > 0 {
          assert Interrupts.Steps(d, s, k) == Interrupts.Steps(d, t, k - 1);
        }
      }
    }
  }
}
