/** The stack page as a stack: push and pull of emu/core/cpu.cpp and the instructions built on them
    (emu/core/instructions.cpp) against an unbounded-looking ideal stack, despite the 8-bit pointer. */
module Stack {
  import opened Words
  import opened Isa
  import opened CpuModel
  import opened FlatMemory
  import opened Interrupts

  /** Page 1 of the device is memory, and no read anywhere disturbs it. The console's RAM is such a page. */
  ghost predicate StackRam<M(!new)>(d: Device<M>) {
    && (forall m: M, p: Byte, q: Byte, v: Byte ::
          d.peek(d.poke(m, StackAddr(p), v), StackAddr(q)) == if p == q then v else d.peek(m, StackAddr(q)))
    && (forall m: M, a: Word, q: Byte :: d.peek(d.touch(m, a), StackAddr(q)) == d.peek(m, StackAddr(q)))
  }

  lemma FlatIsStackRam()
    ensures StackRam(FLAT)
  {
  }

  /** The slot of element `i` of a stack that was empty when the pointer was `base`. */
  function Slot(base: Byte, i: nat): Byte
    requires i <= 256
  {
    ToByte(base - i)
  }

  /** The machine's stack, seen from `base`, holds `st` (top last). */
  ghost predicate Holds<M>(d: Device<M>, m: M, base: Byte, sp: Byte, st: seq<Byte>) {
    && |st| <= 256
    && sp == Slot(base, |st|)
    && forall i :: 0 <= i < |st| ==> d.peek(m, StackAddr(Slot(base, i))) == st[i]
  }

  lemma PushHolds<M(!new)>(d: Device<M>, m: M, base: Byte, sp: Byte, st: seq<Byte>, v: Byte)
    requires StackRam(d) && Holds(d, m, base, sp, st) && |st| < 256
    ensures Holds(d, Pushed(d, m, sp, v), base, Down(sp), st + [v])
  {
    var m' := Pushed(d, m, sp, v);
    forall i | 0 <= i < |st + [v]|
      ensures d.peek(m', StackAddr(Slot(base, i))) == (st + [v])[i]
    {
      assert i < |st| ==> Slot(base, i) != sp;
    }
  }

  lemma PullHolds<M(!new)>(d: Device<M>, m: M, base: Byte, sp: Byte, st: seq<Byte>)
    requires StackRam(d) && Holds(d, m, base, sp, st) && st != []
    ensures Pulled(d, m, sp) == st[|st| - 1]
    ensures Holds(d, AfterPull(d, m, sp), base, Up(sp), st[..|st| - 1])
  {
    assert Up(sp) == Slot(base, |st| - 1);
  }

  lemma TouchHolds<M(!new)>(d: Device<M>, m: M, a: Word, base: Byte, sp: Byte, st: seq<Byte>)
    requires StackRam(d) && Holds(d, m, base, sp, st)
    ensures Holds(d, d.touch(m, a), base, sp, st)
  {
  }

  // ----- Any sequence of pushes and pulls -----

  datatype StackOp = PushOp(value: Byte) | PullOp

  datatype Machine<M> = Machine(mem: M, sp: Byte, pulled: seq<Byte>)

  function MachineOps<M>(d: Device<M>, k: Machine<M>, ops: seq<StackOp>): Machine<M>
    decreases |ops|
  {
    if ops == [] then k else
    var k' := match ops[0]
      case PushOp(v) => Machine(Pushed(d, k.mem, k.sp, v), Down(k.sp), k.pulled)
      case PullOp => Machine(AfterPull(d, k.mem, k.sp), Up(k.sp), k.pulled + [Pulled(d, k.mem, k.sp)]);
    MachineOps(d, k', ops[1..])
  }

  datatype Ideal = Ideal(stack: seq<Byte>, pulled: seq<Byte>)

  /** The stack never underflows and never holds more than a page. */
  ghost predicate Fits(depth: int, ops: seq<StackOp>)
    decreases |ops|
  {
    0 <= depth <= 256 &&
    (ops != [] ==> Fits(if ops[0].PushOp? then depth + 1 else depth - 1, ops[1..]))
  }

  ghost function IdealOps(k: Ideal, ops: seq<StackOp>): Ideal
    requires Fits(|k.stack|, ops)
    decreases |ops|
  {
    if ops == [] then k else
    match ops[0]
    case PushOp(v) => IdealOps(Ideal(k.stack + [v], k.pulled), ops[1..])
    case PullOp =>
      assert Fits(|k.stack| - 1, ops[1..]);
      IdealOps(Ideal(k.stack[..|k.stack| - 1], k.pulled + [k.stack[|k.stack| - 1]]), ops[1..])
  }

  /** From every stack pointer, through every sequence that fits, pulls return what the ideal stack returns
      and the page keeps holding the ideal stack. */
  lemma {:induction false} StackRefinesIdeal<M(!new)>(
      d: Device<M>, k: Machine<M>, base: Byte, st: seq<Byte>, ops: seq<StackOp>)
    requires StackRam(d) && Holds(d, k.mem, base, k.sp, st) && Fits(|st|, ops)
    ensures var k', ideal := MachineOps(d, k, ops), IdealOps(Ideal(st, k.pulled), ops);
            k'.pulled == ideal.pulled && Holds(d, k'.mem, base, k'.sp, ideal.stack)
    decreases |ops|
  {
    if ops != [] {
      hide StackRam, Holds;
      match ops[0]
      case PushOp(v) =>
        assert Fits(|st| + 1, ops[1..]);
        PushHolds(d, k.mem, base, k.sp, st, v);
        StackRefinesIdeal(d, Machine(Pushed(d, k.mem, k.sp, v), Down(k.sp), k.pulled), base, st + [v], ops[1..]);
      case PullOp =>
        assert Fits(|st| - 1, ops[1..]);
        PullHolds(d, k.mem, base, k.sp, st);
        StackRefinesIdeal(d, Machine(AfterPull(d, k.mem, k.sp), Up(k.sp), k.pulled + [Pulled(d, k.mem, k.sp)]),
                          base, st[..|st| - 1], ops[1..]);
    }
  }

  // ----- Status byte -----

  ghost function Bit(b: bool): int {
    if b then 1 else 0
  }

  lemma Halve(low: bool, rest: int)
    ensures (Bit(low) + 2 * rest) % 2 == Bit(low) && (Bit(low) + 2 * rest) / 2 == rest
  {
  }

  lemma Shifts(b: Byte)
    ensures b / 4 == b / 2 / 2 && b / 8 == b / 4 / 2 && b / 16 == b / 8 / 2 && b / 32 == b / 16 / 2
    ensures b / 64 == b / 32 / 2 && b / 128 == b / 64 / 2
  {
  }

  /** `operator uint8` and `operator=(uint8)` of the status register undo each other. */
  lemma StatusRoundTrip(f: Flags)
    ensures Unpack(Pack(f)) == f
  {
    var h6 := Bit(f.ov) + 2 * Bit(f.neg);
    var h5 := Bit(f.unused) + 2 * h6;
    var h4 := Bit(f.breakf) + 2 * h5;
    var h3 := Bit(f.decimal) + 2 * h4;
    var h2 := Bit(f.intdis) + 2 * h3;
    var h1 := Bit(f.zero) + 2 * h2;
    var b := Pack(f);
    assert b == Bit(f.carry) + 2 * h1;
    Halve(f.carry, h1);
    Halve(f.zero, h2);
    Halve(f.intdis, h3);
    Halve(f.decimal, h4);
    Halve(f.breakf, h5);
    Halve(f.unused, h6);
    Halve(f.ov, Bit(f.neg));
    Shifts(b);
  }

  // ----- Well-nested use by instructions and interrupts -----

  /** Pairs of steps that bracket a body. */
  datatype Bracket = Subroutine | SaveAcc | SaveStatus | Service | Break

  /** A run made of bracketed bodies and stretches of `n` steps without stack operations. */
  datatype Activity =
    | Other(n: nat)
    | Within(bracket: Bracket, body: Activity)
    | Then(first: Activity, second: Activity)

  ghost function Exec<M>(d: Device<M>, s: Sys<M>, a: Activity): Sys<M>
    decreases a
  {
    match a
    case Other(n) => Steps(d, s, n)
    case Within(_, body) => Run(d, Exec(d, Run(d, s), body))
    case Then(first, second) => Exec(d, Exec(d, s, first), second)
  }

  ghost predicate Due<M>(s: Sys<M>) {
    s.cpu.lines.execNmi || s.cpu.lines.execIrq
  }

  /** The next step opens the bracket: JSR, PHA, PHP, a due interrupt, BRK. */
  ghost predicate Opens<M>(d: Device<M>, s: Sys<M>, b: Bracket) {
    match b
    case Subroutine => !Due(s) && Decode(Fetched(d, s)) == Jsr
    case SaveAcc => !Due(s) && Decode(Fetched(d, s)) == Pha
    case SaveStatus => !Due(s) && Decode(Fetched(d, s)) == Php
    case Service => Due(s)
    case Break => !Due(s) && Decode(Fetched(d, s)) == Brk
  }

  /** The next step closes it: RTS, PLA, PLP, RTI. */
  ghost predicate Closes<M>(d: Device<M>, s: Sys<M>, b: Bracket) {
    !Due(s) &&
    match b
    case Subroutine => Decode(Fetched(d, s)) == Rts
    case SaveAcc => Decode(Fetched(d, s)) == Pla
    case SaveStatus => Decode(Fetched(d, s)) == Plp
    case Service => Decode(Fetched(d, s)) == Rti
    case Break => Decode(Fetched(d, s)) == Rti
  }

  /** Bytes pushed on opening, first pushed first. */
  ghost function Saved(c: Cpu, b: Bracket): seq<Byte> {
    var f := c.regs.flags;
    match b
    case Subroutine => [High(Next(Next(c.pc))), Low(Next(Next(c.pc)))]
    case SaveAcc => [c.regs.acc]
    case SaveStatus => [Pack(f.(breakf := true))]
    case Service => [High(c.pc), Low(c.pc), Pack(f)]
    case Break => [High(Next(c.pc)), Low(Next(c.pc)), Pack(f.(breakf := true))]
  }

  /** What closing must bring back. */
  ghost predicate Restored(before: Cpu, after: Cpu, b: Bracket) {
    var f := before.regs.flags.(breakf := false);
    match b
    case Subroutine => after.pc == Next(Next(Next(before.pc)))
    case SaveAcc => after.regs.acc == before.regs.acc
    case SaveStatus => after.regs.flags == f
    case Service => after.pc == before.pc && after.regs.flags == f
    case Break => after.pc == Next(before.pc) && after.regs.flags == f
  }

  // ----- Steps between -----

  /** A store to `a` does not reach a live slot. */
  ghost predicate Spares<M(!new)>(d: Device<M>, a: Word, base: Byte, st: seq<Byte>) {
    |st| <= 256 && forall m: M, v: Byte, k :: 0 <= k < |st| ==>
      d.peek(d.poke(m, a, v), StackAddr(Slot(base, k))) == d.peek(m, StackAddr(Slot(base, k)))
  }

  predicate UsesStack(i: Instr) {
    i in {Php, Pha, Plp, Pla, Jsr, Rts, Rti, Brk} || (i.Transfer? && i.to == RegSp)
  }

  /** The mode in which an instruction stores to memory. */
  predicate Stores(i: Instr) {
    i.Write? || (i.Modify? && i.modifyMode != Accumulator)
  }

  function StoreMode(i: Instr): ReadMode
    requires Stores(i)
  {
    if i.Write? then i.writeMode else i.modifyMode
  }

  /** The next step is an instruction that neither uses the stack nor stores into its live part. */
  ghost predicate Quiet<M(!new)>(d: Device<M>, s: Sys<M>, base: Byte, st: seq<Byte>) {
    var i, t := Decode(Fetched(d, s)), AfterFetch(d, s);
    && !Due(s) && !UsesStack(i)
    && (Stores(i) ==> Spares(d, Locate(d, t.cpu, t.mem, StoreMode(i)).addr, base, st))
  }

  lemma LocateHolds<M(!new)>(d: Device<M>, c: Cpu, m: M, mode: ReadMode, base: Byte, sp: Byte, st: seq<Byte>)
    requires StackRam(d) && Holds(d, m, base, sp, st)
    ensures Holds(d, Locate(d, c, m, mode).mem, base, sp, st)
  {
    hide StackRam, Holds, Offset;
    TouchHolds(d, m, c.pc, base, sp, st);
    var m1 := d.touch(m, c.pc);
    TouchHolds(d, m1, Next(c.pc), base, sp, st);
    var low := d.peek(m, c.pc);
    PointerHolds(d, m1, low, base, sp, st);
    PointerHolds(d, m1, Offset(low, c.regs.x), base, sp, st);
  }

  lemma StoreHolds<M(!new)>(d: Device<M>, m: M, a: Word, v: Byte, base: Byte, sp: Byte, st: seq<Byte>)
    requires Holds(d, m, base, sp, st) && Spares(d, a, base, st)
    ensures Holds(d, d.poke(m, a, v), base, sp, st)
  {
  }

  lemma QuietAccess<M(!new)>(d: Device<M>, s: Sys<M>, i: Instr, base: Byte, st: seq<Byte>)
    requires StackRam(d) && Holds(d, s.mem, base, s.cpu.regs.sp, st) && (i.Read? || i.Modify? || i.Write?)
    requires Stores(i) ==> Spares(d, Locate(d, s.cpu, s.mem, StoreMode(i)).addr, base, st)
    ensures Holds(d, Perform(d, s, i).mem, base, Perform(d, s, i).cpu.regs.sp, st)
  {
    hide StackRam, Holds, Spares, Locate, ReadEffect, ModifyFlags, ModifyResult, Poll, AfterOperand,
         ReadCycles, ModifyCycles,
         WriteCycles;
    var sp := s.cpu.regs.sp;
    match i
    case Read(op, mode) =>
      LocateHolds(d, s.cpu, s.mem, mode, base, sp, st);
      var o := Locate(d, s.cpu, s.mem, mode);
      TouchHolds(d, o.mem, o.addr, base, sp, st);
      ReadKeepsPointer(op, s.cpu.regs, d.peek(o.mem, o.addr));
    case Modify(op, mode) =>
      if mode != Accumulator {
        LocateHolds(d, s.cpu, s.mem, mode, base, sp, st);
        var o := Locate(d, s.cpu, s.mem, mode);
        TouchHolds(d, o.mem, o.addr, base, sp, st);
        var v := ModifyResult(op, s.cpu.regs.flags.carry, d.peek(o.mem, o.addr));
        StoreHolds(d, d.touch(o.mem, o.addr), o.addr, v, base, sp, st);
      }
    case Write(source, mode) =>
      LocateHolds(d, s.cpu, s.mem, mode, base, sp, st);
      var o := Locate(d, s.cpu, s.mem, mode);
      StoreHolds(d, o.mem, o.addr, RegisterValue(s.cpu.regs, source), base, sp, st);
  }

  lemma ReadKeepsPointer(op: ReadOp, r: Regs, v: Byte)
    ensures ReadEffect(op, r, v).sp == r.sp
  {
    hide BitAnd, BitOr, BitXor;
  }

  lemma QuietOther<M(!new)>(d: Device<M>, s: Sys<M>, i: Instr, base: Byte, st: seq<Byte>)
    requires StackRam(d) && Holds(d, s.mem, base, s.cpu.regs.sp, st) && !(i.Read? || i.Modify? || i.Write?)
    requires !UsesStack(i)
    ensures Holds(d, Perform(d, s, i).mem, base, Perform(d, s, i).cpu.regs.sp, st)
  {
    hide StackRam, Holds, Poll, WithFlag, Locate;
    var sp, pc := s.cpu.regs.sp, s.cpu.pc;
    TouchHolds(d, s.mem, pc, base, sp, st);
    if i in {Jmp, JmpIndirect} {
      LocateHolds(d, s.cpu, s.mem, Absolute, base, sp, st);
      var o := Locate(d, s.cpu, s.mem, Absolute);
      TouchHolds(d, o.mem, o.addr, base, sp, st);
      var m := d.touch(o.mem, o.addr);
      TouchHolds(d, m, Join(ToByte(o.low + 1), o.high), base, sp, st);
    }
  }

  lemma QuietKeeps<M(!new)>(d: Device<M>, s: Sys<M>, base: Byte, st: seq<Byte>)
    requires StackRam(d) && Holds(d, s.mem, base, s.cpu.regs.sp, st) && Quiet(d, s, base, st)
    ensures Holds(d, Run(d, s).mem, base, Run(d, s).cpu.regs.sp, st)
  {
    hide StackRam, Holds, Decode, Perform, Spares, Locate;
    var i, t := Decode(Fetched(d, s)), AfterFetch(d, s);
    TouchHolds(d, s.mem, s.cpu.pc, base, s.cpu.regs.sp, st);
    if i.Read? || i.Modify? || i.Write? {
      QuietAccess(d, t, i, base, st);
    } else {
      QuietOther(d, t, i, base, st);
    }
  }

  lemma {:induction false} QuietStretch<M(!new)>(d: Device<M>, s: Sys<M>, n: nat, base: Byte, st: seq<Byte>)
    requires StackRam(d) && Holds(d, s.mem, base, s.cpu.regs.sp, st)
    requires forall k: nat :: k < n ==> Quiet(d, Steps(d, s, k), base, st)
    ensures Holds(d, Steps(d, s, n).mem, base, Steps(d, s, n).cpu.regs.sp, st)
    decreases n
  {
    hide StackRam, Holds, Run, Quiet;
    if n > 0 {
      assert Steps(d, s, 0) == s;
      QuietKeeps(d, s, base, st);
      var t := Run(d, s);
      forall k: nat | k < n - 1
        ensures Quiet(d, Steps(d, t, k), base, st)
      {
        assert Steps(d, s, k + 1) == Steps(d, t, k);
      }
      QuietStretch(d, t, n - 1, base, st);
    }
  }

  /** Brackets are closed by their own kind and fit in the page, and the stretches between are quiet. */
  ghost predicate WellNested<M(!new)>(d: Device<M>, s: Sys<M>, a: Activity, base: Byte, st: seq<Byte>)
    decreases a
  {
    match a
    case Other(n) => forall k: nat :: k < n ==> Quiet(d, Steps(d, s, k), base, st)
    case Within(b, body) =>
      && Opens(d, s, b)
      && |st + Saved(s.cpu, b)| <= 256
      && WellNested(d, Run(d, s), body, base, st + Saved(s.cpu, b))
      && Closes(d, Exec(d, Run(d, s), body), b)
    case Then(first, second) =>
      && WellNested(d, s, first, base, st)
      && WellNested(d, Exec(d, s, first), second, base, st)
  }

  lemma PushTwo<M(!new)>(d: Device<M>, m: M, base: Byte, sp: Byte, st: seq<Byte>, u: Byte, v: Byte)
    requires StackRam(d) && Holds(d, m, base, sp, st) && |st| <= 254
    ensures Holds(d, Pushed(d, Pushed(d, m, sp, u), Down(sp), v), base, Down(Down(sp)), st + [u, v])
  {
    hide StackRam, Holds;
    PushHolds(d, m, base, sp, st, u);
    PushHolds(d, Pushed(d, m, sp, u), base, Down(sp), st + [u], v);
    assert st + [u] + [v] == st + [u, v];
  }

  lemma PushThree<M(!new)>(d: Device<M>, m: M, base: Byte, sp: Byte, st: seq<Byte>, u: Byte, v: Byte, w: Byte)
    requires StackRam(d) && Holds(d, m, base, sp, st) && |st| <= 253
    ensures Holds(d, Pushed(d, Pushed(d, Pushed(d, m, sp, u), Down(sp), v), Down(Down(sp)), w),
                  base, Down(Down(Down(sp))), st + [u, v, w])
  {
    hide StackRam, Holds;
    PushTwo(d, m, base, sp, st, u, v);
    PushHolds(d, Pushed(d, Pushed(d, m, sp, u), Down(sp), v), base, Down(Down(sp)), st + [u, v], w);
    assert st + [u, v] + [w] == st + [u, v, w];
  }

  lemma PullTwo<M(!new)>(d: Device<M>, m: M, base: Byte, sp: Byte, st: seq<Byte>, u: Byte, v: Byte)
    requires StackRam(d) && Holds(d, m, base, sp, st + [u, v])
    ensures var m1 := AfterPull(d, m, sp);
            && Pulled(d, m, sp) == v && Pulled(d, m1, Up(sp)) == u
            && Holds(d, AfterPull(d, m1, Up(sp)), base, Up(Up(sp)), st)
  {
    hide StackRam, Holds;
    var full := st + [u, v];
    PullHolds(d, m, base, sp, full);
    assert full[..|full| - 1] == st + [u];
    PullHolds(d, AfterPull(d, m, sp), base, Up(sp), st + [u]);
    assert (st + [u])[..|st|] == st;
  }

  lemma JoinSplit(w: Word)
    ensures Join(Low(w), High(w)) == w
  {
  }

  lemma CallHolds<M(!new)>(d: Device<M>, s: Sys<M>, base: Byte, st: seq<Byte>)
    requires StackRam(d) && Holds(d, s.mem, base, s.cpu.regs.sp, st) && |st| <= 254
    requires Opens(d, s, Subroutine)
    ensures Holds(d, Run(d, s).mem, base, Run(d, s).cpu.regs.sp, st + Saved(s.cpu, Subroutine))
  {
    hide StackRam, Holds, Decode, Poll;
    var pc, sp := s.cpu.pc, s.cpu.regs.sp;
    var m1 := d.touch(s.mem, pc);
    var m2 := d.touch(m1, Next(pc));
    var m3 := d.touch(m2, Next(Next(pc)));
    TouchHolds(d, s.mem, pc, base, sp, st);
    TouchHolds(d, m1, Next(pc), base, sp, st);
    TouchHolds(d, m2, Next(Next(pc)), base, sp, st);
    var ret := Next(Next(pc));
    PushTwo(d, m3, base, sp, st, High(ret), Low(ret));
  }

  lemma ReturnHolds<M(!new)>(d: Device<M>, s: Sys<M>, base: Byte, st: seq<Byte>, ret: Word)
    requires StackRam(d) && Holds(d, s.mem, base, s.cpu.regs.sp, st + [High(ret), Low(ret)])
    requires Closes(d, s, Subroutine)
    ensures Run(d, s).cpu.pc == Next(ret)
    ensures Holds(d, Run(d, s).mem, base, Run(d, s).cpu.regs.sp, st)
  {
    hide StackRam, Holds, Decode, Poll;
    var sp := s.cpu.regs.sp;
    TouchHolds(d, s.mem, s.cpu.pc, base, sp, st + [High(ret), Low(ret)]);
    PullTwo(d, d.touch(s.mem, s.cpu.pc), base, sp, st, High(ret), Low(ret));
    JoinSplit(ret);
  }

  lemma ByteSaveHolds<M(!new)>(d: Device<M>, s: Sys<M>, base: Byte, st: seq<Byte>, b: Bracket)
    requires StackRam(d) && Holds(d, s.mem, base, s.cpu.regs.sp, st) && |st| <= 255
    requires b in {SaveAcc, SaveStatus} && Opens(d, s, b)
    ensures Holds(d, Run(d, s).mem, base, Run(d, s).cpu.regs.sp, st + Saved(s.cpu, b))
  {
    hide StackRam, Holds, Decode, Poll, Pack;
    TouchHolds(d, s.mem, s.cpu.pc, base, s.cpu.regs.sp, st);
    PushHolds(d, d.touch(s.mem, s.cpu.pc), base, s.cpu.regs.sp, st, Saved(s.cpu, b)[0]);
  }

  lemma ByteRestoreHolds<M(!new)>(d: Device<M>, s: Sys<M>, base: Byte, st: seq<Byte>, v: Byte, b: Bracket)
    requires StackRam(d) && Holds(d, s.mem, base, s.cpu.regs.sp, st + [v])
    requires b in {SaveAcc, SaveStatus} && Closes(d, s, b)
    ensures b == SaveAcc ==> Run(d, s).cpu.regs.acc == v
    ensures b == SaveStatus ==> Run(d, s).cpu.regs.flags == Unpack(v).(breakf := false)
    ensures Holds(d, Run(d, s).mem, base, Run(d, s).cpu.regs.sp, st)
  {
    hide StackRam, Holds, Decode, Poll, Unpack;
    TouchHolds(d, s.mem, s.cpu.pc, base, s.cpu.regs.sp, st + [v]);
    PullHolds(d, d.touch(s.mem, s.cpu.pc), base, s.cpu.regs.sp, st + [v]);
    assert (st + [v])[..|st|] == st;
  }

  lemma PointerHolds<M(!new)>(d: Device<M>, m: M, a: Word, base: Byte, sp: Byte, st: seq<Byte>)
    requires StackRam(d) && Holds(d, m, base, sp, st)
    ensures Holds(d, AfterPointer(d, m, a), base, sp, st)
  {
    hide StackRam, Holds;
    TouchHolds(d, m, a, base, sp, st);
    TouchHolds(d, d.touch(m, a), Next(a), base, sp, st);
  }

  lemma InterruptHolds<M(!new)>(d: Device<M>, s: Sys<M>, base: Byte, st: seq<Byte>)
    requires StackRam(d) && Holds(d, s.mem, base, s.cpu.regs.sp, st) && |st| <= 253
    ensures var t := Interrupt(d, s);
            Holds(d, t.mem, base, t.cpu.regs.sp, st + [High(s.cpu.pc), Low(s.cpu.pc), Pack(s.cpu.regs.flags)])
  {
    hide StackRam, Holds, Pack, AfterPointer;
    var pc, sp, p := s.cpu.pc, s.cpu.regs.sp, Pack(s.cpu.regs.flags);
    PushThree(d, s.mem, base, sp, st, High(pc), Low(pc), p);
    PointerHolds(d, Pushed(d, Pushed(d, Pushed(d, s.mem, sp, High(pc)), Down(sp), Low(pc)), Down(Down(sp)), p),
                 Vector(s.cpu.lines), base, Down(Down(Down(sp))), st + [High(pc), Low(pc), p]);
  }

  lemma SequenceHolds<M(!new)>(d: Device<M>, s: Sys<M>, base: Byte, st: seq<Byte>, b: Bracket)
    requires StackRam(d) && Holds(d, s.mem, base, s.cpu.regs.sp, st) && |st| <= 253
    requires b in {Service, Break} && Opens(d, s, b)
    ensures Holds(d, Run(d, s).mem, base, Run(d, s).cpu.regs.sp, st + Saved(s.cpu, b))
  {
    hide StackRam, Holds, Decode, Pack, Interrupt;
    if b == Service {
      InterruptHolds(d, s.(cpu := s.cpu.(cycles := s.cpu.cycles + 1)), base, st);
    } else {
      TouchHolds(d, s.mem, s.cpu.pc, base, s.cpu.regs.sp, st);
      var t := AfterFetch(d, s);
      InterruptHolds(d, t.(cpu := t.cpu.(regs := t.cpu.regs.(flags := t.cpu.regs.flags.(breakf := true)))), base, st);
    }
  }

  lemma InterruptReturnHolds<M(!new)>(d: Device<M>, s: Sys<M>, base: Byte, st: seq<Byte>, pc: Word, p: Byte)
    requires StackRam(d) && Holds(d, s.mem, base, s.cpu.regs.sp, st + [High(pc), Low(pc), p])
    requires Closes(d, s, Service)
    ensures Run(d, s).cpu.pc == pc && Run(d, s).cpu.regs.flags == Unpack(p).(breakf := false)
    ensures Holds(d, Run(d, s).mem, base, Run(d, s).cpu.regs.sp, st)
  {
    hide StackRam, Holds, Decode, Poll, Unpack;
    var sp, m := s.cpu.regs.sp, d.touch(s.mem, s.cpu.pc);
    var full := st + [High(pc), Low(pc), p];
    TouchHolds(d, s.mem, s.cpu.pc, base, sp, full);
    PullHolds(d, m, base, sp, full);
    assert full[..|full| - 1] == st + [High(pc), Low(pc)];
    PullTwo(d, AfterPull(d, m, sp), base, Up(sp), st, High(pc), Low(pc));
    JoinSplit(pc);
  }

  lemma OpeningHolds<M(!new)>(d: Device<M>, s: Sys<M>, base: Byte, st: seq<Byte>, b: Bracket)
    requires StackRam(d) && Holds(d, s.mem, base, s.cpu.regs.sp, st)
    requires Opens(d, s, b) && |st + Saved(s.cpu, b)| <= 256
    ensures Holds(d, Run(d, s).mem, base, Run(d, s).cpu.regs.sp, st + Saved(s.cpu, b))
  {
    hide StackRam, Holds, Run, Opens, Pack;
    match b
    case Subroutine => CallHolds(d, s, base, st);
    case SaveAcc => ByteSaveHolds(d, s, base, st, b);
    case SaveStatus => ByteSaveHolds(d, s, base, st, b);
    case Service => SequenceHolds(d, s, base, st, b);
    case Break => SequenceHolds(d, s, base, st, b);
  }

  lemma ClosingRestores<M(!new)>(d: Device<M>, c: Cpu, u: Sys<M>, base: Byte, st: seq<Byte>, b: Bracket)
    requires StackRam(d) && Holds(d, u.mem, base, u.cpu.regs.sp, st + Saved(c, b)) && Closes(d, u, b)
    ensures Holds(d, Run(d, u).mem, base, Run(d, u).cpu.regs.sp, st)
    ensures Restored(c, Run(d, u).cpu, b)
  {
    hide StackRam, Holds, Run, Pack, Unpack, Decode, Low, High;
    var f := c.regs.flags;
    StatusRoundTrip(f);
    StatusRoundTrip(f.(breakf := true));
    match b
    case Subroutine => ReturnHolds(d, u, base, st, Next(Next(c.pc)));
    case SaveAcc => ByteRestoreHolds(d, u, base, st, c.regs.acc, b);
    case SaveStatus => ByteRestoreHolds(d, u, base, st, Pack(f.(breakf := true)), b);
    case Service => InterruptReturnHolds(d, u, base, st, c.pc, Pack(f));
    case Break => InterruptReturnHolds(d, u, base, st, Next(c.pc), Pack(f.(breakf := true)));
  }

  /** For every well-nested run, however deep: the stack pointer and the live stack come back, and each
      bracket restores what it saved (PC for JSR/RTS, A for PHA/PLA, flags without break for PHP/PLP, both
      for interrupts and BRK with RTI). */
  lemma {:induction false} NestingRestores<M(!new)>(d: Device<M>, s: Sys<M>, a: Activity, base: Byte, st: seq<Byte>)
    requires StackRam(d) && Holds(d, s.mem, base, s.cpu.regs.sp, st) && WellNested(d, s, a, base, st)
    ensures Holds(d, Exec(d, s, a).mem, base, Exec(d, s, a).cpu.regs.sp, st)
    ensures Exec(d, s, a).cpu.regs.sp == s.cpu.regs.sp
    ensures a.Within? ==> Restored(s.cpu, Exec(d, s, a).cpu, a.bracket)
    decreases a
  {
    hide StackRam, Run, Opens, Closes, Saved, Restored;
    match a
    case Other(n) => QuietStretch(d, s, n, base, st);
    case Within(b, body) =>
      OpeningHolds(d, s, base, st, b);
      NestingRestores(d, Run(d, s), body, base, st + Saved(s.cpu, b));
      ClosingRestores(d, s.cpu, Exec(d, Run(d, s), body), base, st, b);
    case Then(first, second) =>
      NestingRestores(d, s, first, base, st);
      NestingRestores(d, Exec(d, s, first), second, base, st);
  }
}
