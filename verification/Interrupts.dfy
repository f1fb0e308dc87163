/** The interrupt protocol between `fire_nmi`, `fire_irq`, `reset`, polling and `run`, over every
    interleaving (emu/core/cpu.cpp). */
module Interrupts {
  import opened Words
  import opened Isa
  import opened CpuModel

  datatype Event = StepEvent | ResetEvent | NmiEvent | IrqEvent

  function After<M>(d: Device<M>, s: Sys<M>, e: Event): Sys<M> {
    match e
    case StepEvent => Run(d, s)
    case ResetEvent => Reset(d, s)
    case NmiEvent => FireNmi(s)
    case IrqEvent => FireIrq(s)
  }

  function Play<M>(d: Device<M>, s: Sys<M>, es: seq<Event>): Sys<M>
    decreases |es|
  {
    if es == [] then s else Play(d, After(d, s, es[0]), es[1..])
  }

  // ----- The invariant -----

  /** What is due was requested, and a reset never outlives the call that raised it. */
  ghost predicate Coherent(l: Lines) {
    && (l.execNmi ==> l.nmiPending)
    && (l.execIrq ==> l.irqPending)
    && !l.resetPending
  }

  /** Every documented instruction but BRK polls, under the mask before or after it; BRK acknowledges. */
  lemma PerformLines<M>(d: Device<M>, s: Sys<M>, i: Instr)
    ensures var l, l' := s.cpu.lines, Perform(d, s, i).cpu.lines;
            if i == Unknown then l' == l
            else if i == Brk then l' == Acknowledge(l)
            else l' == Poll(l, true) || l' == Poll(l, false)
  {
    hide ReadEffect, ModifyFlags, ModifyResult, Load, Locate, Unpack, Pack, WithFlag, Vector, Acknowledge;
  }

  /** The interrupt lines after one step, by what the step does. */
  lemma StepLines<M>(d: Device<M>, s: Sys<M>)
    ensures var l, l', i := s.cpu.lines, Run(d, s).cpu.lines, Decode(Fetched(d, s));
            if l.execNmi then l' == Acknowledge(l).(execNmi := false)
            else if l.execIrq then l' == Acknowledge(l).(execIrq := false)
            else if i == Unknown then l' == l
            else if i == Brk then l' == Acknowledge(l)
            else l' == Poll(l, true) || l' == Poll(l, false)
  {
    hide Perform, Decode, Pack;
    PerformLines(d, AfterFetch(d, s), Decode(Fetched(d, s)));
  }

  lemma EventKeepsCoherence<M>(d: Device<M>, s: Sys<M>, e: Event)
    requires Coherent(s.cpu.lines)
    ensures Coherent(After(d, s, e).cpu.lines)
  {
    hide Run, Decode, Pack;
    StepLines(d, s);
  }

  /** The invariant holds after every interleaving of steps, resets and requests. */
  lemma {:induction false} CoherentAlways<M>(d: Device<M>, s: Sys<M>, es: seq<Event>)
    requires Coherent(s.cpu.lines)
    ensures Coherent(Play(d, s, es).cpu.lines)
    decreases |es|
  {
    hide After;
    if es != [] {
      EventKeepsCoherence(d, s, es[0]);
      CoherentAlways(d, After(d, s, es[0]), es[1..]);
    }
  }

  // ----- NMIs are taken at most once each -----

  /** The step runs an interrupt sequence: a due one, or BRK. */
  ghost predicate RunsSequence<M>(d: Device<M>, s: Sys<M>) {
    s.cpu.lines.execNmi || s.cpu.lines.execIrq || Decode(Fetched(d, s)) == Brk
  }

  /** The step enters through the NMI vector, whatever started the sequence. */
  ghost predicate EntersNmi<M>(d: Device<M>, s: Sys<M>) {
    RunsSequence(d, s) && !s.cpu.lines.resetPending && s.cpu.lines.nmiPending
  }

  /** Saved state of an interrupt sequence, as the device holds it before the vector is read. */
  ghost function Saved<M>(d: Device<M>, m: M, sp: Byte, pc: Word, f: Flags): M {
    Pushed(d, Pushed(d, Pushed(d, m, sp, High(pc)), Down(sp), Low(pc)), Down(Down(sp)), Pack(f))
  }

  /** Entering means loading the PC from 0xFFFA with the interrupted address and status on the stack. */
  lemma EntryUsesVector<M>(d: Device<M>, s: Sys<M>)
    requires EntersNmi(d, s)
    ensures var due := s.cpu.lines.execNmi || s.cpu.lines.execIrq;
            var f := s.cpu.regs.flags;
            Run(d, s).cpu.pc == Pointer(d,
              if due then Saved(d, s.mem, s.cpu.regs.sp, s.cpu.pc, f)
              else Saved(d, d.touch(s.mem, s.cpu.pc), s.cpu.regs.sp, Next(s.cpu.pc), f.(breakf := true)),
              NMI_VECTOR)
    ensures Run(d, s).cpu.regs.flags.intdis && !Run(d, s).cpu.lines.nmiPending
  {
    hide Decode, Pack;
  }

  ghost function Count(b: bool): nat {
    if b then 1 else 0
  }

  ghost function NmiEntries<M>(d: Device<M>, s: Sys<M>, es: seq<Event>): nat
    decreases |es|
  {
    if es == [] then 0
    else Count(es[0] == StepEvent && EntersNmi(d, s)) + NmiEntries(d, After(d, s, es[0]), es[1..])
  }

  ghost function NmiRequests(es: seq<Event>): nat {
    if es == [] then 0 else Count(es[0] == NmiEvent) + NmiRequests(es[1..])
  }

  lemma EntryConsumes<M>(d: Device<M>, s: Sys<M>, e: Event)
    requires Coherent(s.cpu.lines)
    ensures Count(e == StepEvent && EntersNmi(d, s)) + Count(After(d, s, e).cpu.lines.nmiPending)
            <= Count(e == NmiEvent) + Count(s.cpu.lines.nmiPending)
  {
    hide Run, Decode, Pack;
    StepLines(d, s);
  }

  /** Over every interleaving, entries through the NMI vector never exceed the NMIs requested. */
  lemma {:induction false} NmiNeverInvented<M>(d: Device<M>, s: Sys<M>, es: seq<Event>)
    requires Coherent(s.cpu.lines)
    ensures NmiEntries(d, s, es) + Count(Play(d, s, es).cpu.lines.nmiPending)
            <= NmiRequests(es) + Count(s.cpu.lines.nmiPending)
    decreases |es|
  {
    hide After, EntersNmi;
    if es != [] {
      EntryConsumes(d, s, es[0]);
      EventKeepsCoherence(d, s, es[0]);
      NmiNeverInvented(d, After(d, s, es[0]), es[1..]);
    }
  }

  // ----- NMIs are not lost: the exact step at which a request is served -----

  ghost function Steps<M>(d: Device<M>, s: Sys<M>, n: nat): Sys<M>
    decreases n
  {
    if n == 0 then s else Steps(d, Run(d, s), n - 1)
  }

  lemma PendingPersists<M>(d: Device<M>, s: Sys<M>)
    requires Coherent(s.cpu.lines) && s.cpu.lines.nmiPending
    requires !s.cpu.lines.execNmi && !s.cpu.lines.execIrq
    ensures var i := Decode(Fetched(d, s));
            && (EntersNmi(d, s) <==> i == Brk)
            && (i == Unknown ==> Run(d, s).cpu.lines == s.cpu.lines)
            && (i !in {Unknown, Brk} ==> Run(d, s).cpu.lines.execNmi && EntersNmi(d, Run(d, s)))
    ensures Coherent(Run(d, s).cpu.lines)
  {
    hide Run, Decode;
    StepLines(d, s);
    EventKeepsCoherence(d, s, StepEvent);
    assert After(d, s, StepEvent) == Run(d, s);
  }

  /** Requests and resets, no step. */
  ghost predicate Between(es: seq<Event>) {
    StepEvent !in es
  }

  /** Before step `n`: the first gap, then a step and the next gap, `n` times. */
  ghost function Schedule(gaps: nat -> seq<Event>, n: nat): seq<Event> {
    if n == 0 then gaps(0) else Schedule(gaps, n - 1) + [StepEvent] + gaps(n)
  }

  /** The state in which step `n` starts. */
  ghost function Reached<M>(d: Device<M>, s: Sys<M>, gaps: nat -> seq<Event>, n: nat): Sys<M> {
    Play(d, s, Schedule(gaps, n))
  }

  lemma {:induction false} PlayAppend<M>(d: Device<M>, s: Sys<M>, a: seq<Event>, b: seq<Event>)
    ensures Play(d, s, a + b) == Play(d, Play(d, s, a), b)
    decreases |a|
  {
    hide After;
    if a == [] {
      assert a + b == b;
    } else {
      assert (a + b)[1..] == a[1..] + b;
      PlayAppend(d, After(d, s, a[0]), a[1..], b);
    }
  }

  lemma ReachedNext<M>(d: Device<M>, s: Sys<M>, gaps: nat -> seq<Event>, n: nat)
    ensures Reached(d, s, gaps, n + 1) == Play(d, Run(d, Reached(d, s, gaps, n)), gaps(n + 1))
  {
    hide Run;
    var before := Schedule(gaps, n);
    PlayAppend(d, s, before + [StepEvent], gaps(n + 1));
    PlayAppend(d, s, before, [StepEvent]);
    var t := Reached(d, s, gaps, n);
    assert Play(d, t, [StepEvent]) == Play(d, After(d, t, StepEvent), []);
  }

  lemma {:induction false} GapKeeps<M>(d: Device<M>, s: Sys<M>, es: seq<Event>)
    requires Coherent(s.cpu.lines) && s.cpu.lines.nmiPending && Between(es)
    ensures var l, l' := s.cpu.lines, Play(d, s, es).cpu.lines;
            Coherent(l') && l'.nmiPending && l'.execNmi == l.execNmi && l'.execIrq == l.execIrq
    decreases |es|
  {
    hide Run, Pack, Pushed, Pointer, AfterPointer;
    if es != [] {
      assert es[0] in es && forall e :: e in es[1..] ==> e in es;
      EventKeepsCoherence(d, s, es[0]);
      GapKeeps(d, After(d, s, es[0]), es[1..]);
    }
  }

  ghost predicate DueNow(l: Lines) {
    l.execNmi || l.execIrq
  }

  /** While only undocumented opcodes are stepped over, the request keeps waiting. */
  lemma {:induction false} Waiting<M>(d: Device<M>, s: Sys<M>, gaps: nat -> seq<Event>, k: nat)
    requires Coherent(s.cpu.lines) && s.cpu.lines.nmiPending && !DueNow(s.cpu.lines)
    requires forall j: nat :: Between(gaps(j))
    requires forall j: nat :: j < k ==> Decode(Fetched(d, Reached(d, s, gaps, j))) == Unknown
    ensures var l := Reached(d, s, gaps, k).cpu.lines; Coherent(l) && l.nmiPending && !DueNow(l)
  {
    hide Run, Decode, Play;
    if k == 0 {
      GapKeeps(d, s, gaps(0));
    } else {
      Waiting(d, s, gaps, k - 1);
      var t := Reached(d, s, gaps, k - 1);
      PendingPersists(d, t);
      ReachedNext(d, s, gaps, k - 1);
      GapKeeps(d, Run(d, t), gaps(k));
    }
  }

  /** How many steps pass before a pending NMI is entered, if the opcodes of steps 0 to k-1 are undocumented and that of
      step k is not: none when an interrupt is already due, otherwise k, plus one unless opcode k is BRK. */
  ghost function Latency<M>(d: Device<M>, s: Sys<M>, gaps: nat -> seq<Event>, k: nat): nat {
    if DueNow(s.cpu.lines) then 0 else if Decode(Fetched(d, Reached(d, s, gaps, k))) == Brk then k else k + 1
  }

  /** A pending NMI is entered after exactly `Latency` steps and not before, whatever requests and resets come between
      the steps; with a documented opcode next (k = 0) that is within two steps. */
  lemma NmiServed<M>(d: Device<M>, s: Sys<M>, gaps: nat -> seq<Event>, k: nat, n: nat)
    requires Coherent(s.cpu.lines) && s.cpu.lines.nmiPending
    requires forall j: nat :: Between(gaps(j))
    requires forall j: nat :: j < k ==> Decode(Fetched(d, Reached(d, s, gaps, j))) == Unknown
    requires Decode(Fetched(d, Reached(d, s, gaps, k))) != Unknown
    requires n <= Latency(d, s, gaps, k)
    ensures EntersNmi(d, Reached(d, s, gaps, n)) <==> n == Latency(d, s, gaps, k)
  {
    hide Run, Decode, Play, Fetched;
    if DueNow(s.cpu.lines) {
      GapKeeps(d, s, gaps(0));
    } else if n <= k {
      Waiting(d, s, gaps, n);
    } else {
      Waiting(d, s, gaps, k);
      var t := Reached(d, s, gaps, k);
      PendingPersists(d, t);
      ReachedNext(d, s, gaps, k);
      GapKeeps(d, Run(d, t), gaps(k + 1));
    }
  }

  /** When both kinds are due the NMI goes first and the IRQ right after it, although NMI entry set the
      interrupt-disable flag: a due IRQ is not polled again. */
  lemma DueIrqFollowsNmi<M>(d: Device<M>, s: Sys<M>)
    requires Coherent(s.cpu.lines) && s.cpu.lines.execNmi && s.cpu.lines.execIrq
    ensures EntersNmi(d, s) && Run(d, s).cpu.regs.flags.intdis
    ensures var t := Run(d, s);
            && t.cpu.lines.execIrq && !EntersNmi(d, t)
            && Run(d, t).cpu.pc ==
               Pointer(d, Saved(d, t.mem, t.cpu.regs.sp, t.cpu.pc, t.cpu.regs.flags), IRQ_BRK_VECTOR)
  {
    hide Decode, Perform, Pack;
  }
}
