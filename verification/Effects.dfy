// Calls and zero-clearing: the instructions that reach outside the evaluation stack, and what
// they leave alone.
module Effects {
  import opened Words
  import opened Memory
  import opened Ir
  import opened M68k
  import opened Select
  import opened Tiles
  import opened Simulate
  import opened SelectProof

  // ---- run-time helpers for *, / and % ---------------------------------------------

  lemma HelperStep(s: Cpu, m: Machine, op: Op, uns: bool, t: State)
    requires Loaded(m) && s.pc < |m.prog| && m.prog[s.pc] == JsrHelper(op, uns)
    requires StandsFor(s, t, m.env)
    ensures Reached(s, Run(s, m, 1), 1, W(BinVal(op, uns, s.d[0], s.d[1], m.env.undef)), t, m.env)
  {
    hide BinVal, Step, Scratch;
    var v, next := BinVal(op, uns, s.d[0], s.d[1], m.env.undef), s.(pc := s.pc + 1);
    ShortRun(s, m);
    HelperIs(s, m, op, uns);
    ScratchKeeps(next, m, 0, t);
    ResultLeavesRegs(Scratch(next, m, s.a[7]), v, t.regs);
  }

  lemma HelperIs(s: Cpu, m: Machine, op: Op, uns: bool)
    requires s.pc < |m.prog| && m.prog[s.pc] == JsrHelper(op, uns)
    ensures Step(s, m) == SetD(Scratch(s.(pc := s.pc + 1), m, s.a[7]), 0, BinVal(op, uns, s.d[0], s.d[1], m.env.undef))
  {
    hide BinVal, AluVal, ShiftVal, CallStep, Scratch, Insert, Narrow, CmpFlags, Target, Read, Write;
  }

  lemma ScratchKeeps(s: Cpu, m: Machine, k: nat, t: State)
    requires GoodEnv(m.env) && StandsFor(s, t, m.env)
    requires Sp(s) + 4 * k <= m.env.top
    ensures var u := Scratch(s, m, s.a[7] + 4 * k);
      Called(s, u, 0, k, Void, t, m.env) && u.d == s.d[1 := u.d[1]] && u.trace == s.trace && m.env.lo <= Sp(s)
  {}

  // ---- calls -------------------------------------------------------------------------

  lemma {:induction false} StackArgsKept(m1: Mem, m2: Mem, sp: int, n: nat, lo: int, hi: int)
    requires AgreeInside(m1, m2, lo, hi) && 0 <= lo <= sp && sp + 4 * n <= hi <= MODULUS
    ensures StackArgs(m1, sp, n) == StackArgs(m2, sp, n)
    decreases n
  {
    hide Read;
    if n > 0 {
      ReadInside(m1, m2, sp, 4, lo, hi);
      StackArgsKept(m1, m2, sp + 4, n - 1, lo, hi);
    }
  }

  // jsr with the arguments on the stack does what the IR says a call does.
  lemma CallStepOk(s: Cpu, m: Machine, target: Ea, f: Word, vals: seq<Word>, t: State)
    requires Loaded(m) && s.pc < |m.prog| && m.prog[s.pc] == Jsr(target, |vals|)
    requires f == MemAddr(target, s, m.env) && StandsFor(s, t, m.env)
    requires StackArgs(s.mem, s.a[7], |vals|) == vals && Sp(s) + 4 * |vals| <= m.env.top
    ensures var r := Invoke(f, vals, t, m.env);
      Called(s, Run(s, m, 1), 1, |vals|, r.v, r.st, m.env)
  {
    hide BinVal, AluVal, ShiftVal, Insert, Narrow, CmpFlags, Target, StackArgs, CallStep;
    assert Run(s, m, 1) == Step(s, m) == CallStep(f, |vals|, s.(pc := s.pc + 1), m);
    CalleeOk(s.(pc := s.pc + 1), m, f, vals, t);
  }

  lemma CalleeOk(s: Cpu, m: Machine, f: Word, vals: seq<Word>, t: State)
    requires GoodEnv(m.env) && StandsFor(s, t, m.env) && StackArgs(s.mem, s.a[7], |vals|) == vals
    requires Sp(s) + 4 * |vals| <= m.env.top
    ensures var r := Invoke(f, vals, t, m.env);
      Called(s, CallStep(f, |vals|, s, m), 0, |vals|, r.v, r.st, m.env)
  {
    hide StackArgs, Visible, Scratch, Overlay, Called, StandsFor, GoodEnv;
    var env, above := m.env, s.a[7] + 4 * |vals|;
    VisibleSame(s, t, env);
    ScratchKeeps(s, m, |vals|, t);
    var (r, mem) := env.call(f, vals, Visible(s.mem, env.lo, env.top), s.trace);
    CallReturns(s, Scratch(s, m, above), |vals|, r, mem, Call(f, vals), t, env);
  }

  lemma VisibleSame(s: Cpu, t: State, env: Env)
    requires StandsFor(s, t, env)
    ensures Visible(s.mem, env.lo, env.top) == Visible(t.mem, env.lo, env.top) && s.trace == t.trace
  {
    VisibleEqual(s.mem, t.mem, env.lo, env.top);
  }

  // What the callee returns on top of what it leaves of the caller's stack.
  lemma CallReturns(s: Cpu, after: Cpu, k: nat, r: Word, mem: Mem, e: Event, t: State, env: Env)
    requires Called(s, after, 0, k, Void, t, env) && env.lo <= Sp(s) && after.trace == s.trace
    ensures var u := after.(trace := s.trace + [e], mem := Overlay(mem, after.mem, env.lo, env.top));
      Called(s, SetD(u, 0, r), 0, k, W(r), t.(mem := mem, trace := t.trace + [e]), env)
  {
    hide Overlay, AgreeOutside, AgreeInside, InRegs;
    OverlayParts(mem, after.mem, env.lo, env.top);
    InsideToo(Overlay(mem, after.mem, env.lo, env.top), after.mem, s.mem, env.lo, Sp(s) + 4 * k, env.top);
    ResultLeavesRegs(after, r, t.regs);
  }

  lemma InsideToo(m1: Mem, m2: Mem, m3: Mem, lo: int, from: int, hi: int)
    requires AgreeInside(m1, m2, lo, hi) && AgreeInside(m2, m3, from, hi) && lo <= from
    ensures AgreeInside(m1, m3, from, hi)
  {}

  lemma ResultLeavesRegs(s: Cpu, v: Word, regs: RegFile)
    requires InRegs(s, regs)
    ensures forall mem, trace :: InRegs(SetD(s.(mem := mem, trace := trace), 0, v), regs)
  {}

  lemma OverlayParts(outer: Mem, inner: Mem, lo: int, hi: int)
    ensures AgreeOutside(Overlay(outer, inner, lo, hi), outer, lo, hi)
    ensures AgreeInside(Overlay(outer, inner, lo, hi), inner, lo, hi)
  {}

  lemma PopArgsOk(s: Cpu, m: Machine, k: nat, t: State) returns (n: nat)
    requires Loaded(m) && At(m.prog, s.pc, PopArgs(k)) && StandsFor(s, t, m.env)
    requires Sp(s) + 4 * k <= m.env.top
    ensures var u := Run(s, m, n);
      u.pc == s.pc + |PopArgs(k)| && StandsFor(u, t, m.env) && Sp(u) == Sp(s) + 4 * k
      && u.mem == s.mem && u.d[0] == s.d[0]
  {
    hide BinVal, AluVal, ShiftVal, CallStep, Scratch, Insert, Narrow, CmpFlags, Target;
    n := |PopArgs(k)|;
    if k > 0 {
      assert m.prog[s.pc + 0] == PopArgs(k)[0];
      SlotInRange(s.a[7], 4 * k);
      assert Run(s, m, 1) == Step(s, m);
    }
  }

  // ---- zero-clearing a frame slot ---------------------------------------------------------

  lemma {:induction false} WriteSameAddress(mem: Mem, a: int, b: int, n: nat, v: nat)
    requires Wrap(a) == Wrap(b)
    ensures Write(mem, a, n, v) == Write(mem, b, n, v)
  {
    if n > 0 {
      assert Slot(a, n - 1) == Slot(b, n - 1) by { SlotShift(a, n - 1); SlotShift(b, n - 1); }
      WriteSameAddress(mem, a, b, n - 1, v / 256);
    }
  }

  lemma SlotShift(a: int, i: int)
    ensures Slot(a, i) == Slot(Wrap(a), i)
  {
    WrapInside(a, i);
  }

  lemma SlotSum(base: int, off: int, i: int)
    ensures Wrap(Slot(base, off + i)) == Wrap(Slot(base, off) + i)
  {
    WrapInside(base + off, i);
  }

  lemma ClrStep(s: Cpu, m: Machine, size: Size, off: int)
    requires s.pc < |m.prog| && m.prog[s.pc] == Clr(size, Disp(off, 6))
    ensures var u := Run(s, m, 1);
      u == s.(pc := s.pc + 1, mem := Write(s.mem, Slot(s.a[6], off), Bytes(size), 0), f := u.f)
  {
    hide BinVal, AluVal, ShiftVal, CallStep, Scratch, Insert, Narrow, CmpFlags, Target, Write;
    assert Run(s, m, 1) == Step(s, m);
  }

  ghost predicate ClearedTo(s: Cpu, u: Cpu, len: nat, mem: Mem) {
    u == s.(pc := s.pc + len, mem := mem, f := u.f, d := s.d[1 := u.d[1]], a := s.a[0 := u.a[0]])
  }

  // clr.l, clr.w and clr.b after `done` bytes have been cleared finish the slot.
  lemma {:induction false} ClrRunOk(s: Cpu, m: Machine, off: int, done: nat, n: nat, base: Mem)
    requires At(m.prog, s.pc, ClrRun(off + done, n))
    requires s.mem == Zero(base, Slot(s.a[6], off), done)
    ensures ClearedTo(s, Run(s, m, |ClrRun(off + done, n)|), |ClrRun(off + done, n)|, Zero(base, Slot(s.a[6], off), done + n))
    decreases n
  {
    hide Step, Write, Zero, Run, ClrRun, Slot;
    var code := ClrRun(off + done, n);
    var a := Slot(s.a[6], off);
    if n == 0 {
      assert |code| == 0 by { NoClr(off + done); }
      ShortRun(s, m);
    } else {
      var k := if n >= 4 then 4 else if n >= 2 then 2 else 1;
      var size := if n >= 4 then L else if n >= 2 then H else B;
      ClrRunHead(off + done, n);
      assert code == [Clr(size, Disp(off + done, 6))] + ClrRun(off + (done + k), n - k);
      AtSplit(m.prog, s.pc, [Clr(size, Disp(off + done, 6))], ClrRun(off + (done + k), n - k));
      assert m.prog[s.pc + 0] == code[0];
      ClrStep(s, m, size, off + done);
      var s1 := Run(s, m, 1);
      SlotSum(s.a[6], off, done);
      WriteSameAddress(s.mem, Slot(s.a[6], off + done), a + done, k, 0);
      ZeroExtend(base, a, done, k);
      ClrRunOk(s1, m, off, done + k, n - k, base);
      RunAdd(s, m, 1, |code| - 1);
    }
  }

  lemma ClrIncStep(s: Cpu, m: Machine)
    requires s.pc < |m.prog| && m.prog[s.pc] == ClrInc(0)
    ensures var u := Run(s, m, 1);
      u == s.(pc := s.pc + 1, mem := Write(s.mem, s.a[0], 1, 0), f := u.f, a := s.a[0 := Slot(s.a[0], 1)])
  {
    hide BinVal, AluVal, ShiftVal, CallStep, Scratch, Insert, Narrow, CmpFlags, Target, Write;
    assert Run(s, m, 1) == Step(s, m);
  }

  lemma DbraStep(s: Cpu, m: Machine, l: Label, t: nat, k: nat)
    requires Loaded(m) && s.pc < |m.prog| && m.prog[s.pc] == Dbra(1, l)
    requires t < |m.prog| && m.prog[t] == Lab(l) && k < 65536 && s.d[1] % 65536 == k
    ensures var u := Run(s, m, 1);
      u == s.(pc := if k == 0 then s.pc + 1 else t, d := s.d[1 := u.d[1]])
      && (k > 0 ==> u.d[1] % 65536 == k - 1)
  {
    hide Step, Target;
    var low := (k + 65535) % 65536;
    assert k > 0 ==> low == k - 1;
    TargetIs(m.prog, l, t);
    ShortRun(s, m);
    DbraTo(s, m, l);
    InsertLow(s.d[1], low);
  }

  lemma DbraTo(s: Cpu, m: Machine, l: Label)
    requires s.pc < |m.prog| && m.prog[s.pc] == Dbra(1, l)
    ensures var low := (s.d[1] % 65536 + 65535) % 65536;
      Step(s, m) == s.(pc := if low == 65535 then s.pc + 1 else Target(m.prog, l), d := s.d[1 := Insert(s.d[1], H, low)])
  {
    hide BinVal, AluVal, ShiftVal, CallStep, Scratch, Narrow, CmpFlags, Insert, Target, Read, Write;
  }

  lemma InsertLow(x: Word, low: nat)
    requires low < 65536
    ensures Insert(x, H, low) % 65536 == low
  {}

  // The loop clears one byte per turn while the count in D1 runs down past zero.
  lemma {:induction false} ClearLoopOk(s: Cpu, m: Machine, l: Label, a: Word, done: nat, k: nat, base: Mem) returns (n: nat)
    requires Loaded(m) && s.pc + 2 < |m.prog| && m.prog[s.pc] == Lab(l)
    requires m.prog[s.pc + 1] == ClrInc(0) && m.prog[s.pc + 2] == Dbra(1, l)
    requires k < 65536 && s.d[1] % 65536 == k && s.a[0] == Slot(a, done) && s.mem == Zero(base, a, done)
    ensures ClearedTo(s, Run(s, m, n), 3, Zero(base, a, done + k + 1))
    decreases k
  {
    hide Step, Run, Write, Zero;
    LabelStep(s, m, l);
    var s1 := Run(s, m, 1);
    ClrIncStep(s1, m);
    var s2 := Run(s1, m, 1);
    WriteSameAddress(s.mem, s.a[0], a + done, 1, 0);
    ZeroExtend(base, a, done, 1);
    SlotShift(a + done, 1);
    DbraStep(s2, m, l, s.pc, k);
    RunAdd(s, m, 1, 1);
    RunAdd(s, m, 2, 1);
    n := 3;
    if k > 0 {
      var j := ClearLoopOk(Run(s, m, 3), m, l, a, done + 1, k - 1, base);
      RunAdd(s, m, 3, j);
      n := 3 + j;
    }
  }

  lemma LoopSetup(s: Cpu, m: Machine, off: int, size: nat)
    requires s.pc + 1 < |m.prog| && m.prog[s.pc] == LeaTo(Disp(off, 6), 0)
    requires m.prog[s.pc + 1] == Move(H, Imm(size - 1), Dn(1))
    ensures var u := Run(s, m, 2);
      ClearedTo(s, u, 2, s.mem) && u.a[0] == Slot(s.a[6], off) && u.d[1] % 65536 == (size - 1) % 65536
  {
    hide Step, Run;
    LeaA0Step(s, m, Disp(off, 6));
    HalfMoveStep(Run(s, m, 1), m, size - 1);
    RunAdd(s, m, 1, 1);
    LowHalf(size - 1);
  }

  lemma HalfMoveStep(s: Cpu, m: Machine, c: int)
    requires s.pc < |m.prog| && m.prog[s.pc] == Move(H, Imm(c), Dn(1))
    ensures var u := Run(s, m, 1);
      u == s.(pc := s.pc + 1, d := s.d[1 := u.d[1]], f := u.f) && u.d[1] % 65536 == Wrap(c) % 65536
  {
    hide BinVal, AluVal, ShiftVal, CallStep, Scratch, Narrow, CmpFlags, Target;
    assert Run(s, m, 1) == Step(s, m);
  }

  lemma LowHalf(x: int)
    ensures Wrap(x) % 65536 == x % 65536
  {
    var q := x / MODULUS;
    assert x == q * MODULUS + Wrap(x);
    ModAddMultiple(Wrap(x), q * 65536, 65536);
    assert q * 65536 * 65536 == q * MODULUS;
  }

  lemma ZeroNothing(mem: Mem, base: Word, off: int)
    ensures var a := Slot(base, off); Zero(mem, a, 0) == mem && Slot(a, 0) == a
  {}

  // Whatever the size, the code clears exactly BytesCleared bytes at the slot.
  lemma MemzeroClears(s: Cpu, m: Machine, off: int, size: nat, u: nat) returns (n: nat)
    requires Loaded(m) && At(m.prog, s.pc, MemzeroCode(0, off, size, u).code)
    ensures ClearedTo(s, Run(s, m, n), |MemzeroCode(0, off, size, u).code|,
                      Zero(s.mem, Slot(s.a[6], off), BytesCleared(off, size)))
  {
    hide Step, Run, Write, Zero, ClrRun, Slot;
    ZeroNothing(s.mem, s.a[6], off);
    var code := MemzeroCode(0, off, size, u).code;
    if size <= 16 && off % 2 == 0 {
      n := |code|;
      ClrRunOk(s, m, off, 0, size, s.mem);
    } else {
      assert m.prog[s.pc + 0] == code[0] && m.prog[s.pc + 1] == code[1] && m.prog[s.pc + 2] == code[2];
      assert m.prog[s.pc + 3] == code[3] && m.prog[s.pc + 4] == code[4];
      LoopSetup(s, m, off, size);
      var a := Slot(s.a[6], off);
      var j := ClearLoopOk(Run(s, m, 2), m, Lbl("L_memzero_", u), a, 0, (size - 1) % 65536, s.mem);
      RunAdd(s, m, 2, j);
      n := 2 + j;
    }
  }

  // The loop's limit, beyond the frames that 16-bit displacements reach: of a local of 70000 bytes
  // it would clear 4464.
  lemma LargeLocal(s: Cpu, m: Machine, u: nat) returns (n: nat)
    requires Loaded(m) && At(m.prog, s.pc, MemzeroCode(0, -70000, 70000, u).code)
    ensures ClearedTo(s, Run(s, m, n), |MemzeroCode(0, -70000, 70000, u).code|, Zero(s.mem, Slot(s.a[6], -70000), 4464))
  {
    hide MemzeroCode, ClearedTo, Zero, Run;
    n := MemzeroClears(s, m, -70000, 70000, u);
    assert BytesCleared(-70000, 70000) == 4464;
  }

  lemma MemzeroOk(e: IrExpr, u: nat, s: Cpu, m: Machine, t: State) returns (n: nat)
    requires e.Memzero? && Ready(e, s, m, t) && Eval(e, t, m.env).Ok?
    requires At(m.prog, s.pc, ExprCode(e, m.env.ra, u).code)
    ensures Reached(s, Run(s, m, n), |ExprCode(e, m.env.ra, u).code|, Void, Eval(e, t, m.env).st, m.env)
  {
    hide ExprCode, Eval, Run, Reached;
    if RegOf(m.env.ra, e.v) != 0 {
      n := 1;
      ClearRegOk(e, u, s, m, t);
    } else {
      n := ClearFrameOk(e, u, s, m, t);
    }
  }

  lemma ClearRegOk(e: IrExpr, u: nat, s: Cpu, m: Machine, t: State)
    requires e.Memzero? && Ready(e, s, m, t) && Eval(e, t, m.env).Ok? && RegOf(m.env.ra, e.v) != 0
    requires At(m.prog, s.pc, ExprCode(e, m.env.ra, u).code)
    ensures Reached(s, Run(s, m, 1), |ExprCode(e, m.env.ra, u).code|, Void, Eval(e, t, m.env).st, m.env)
  {
    hide Step, Run;
    assert m.prog[s.pc + 0] == ExprCode(e, m.env.ra, u).code[0];
    StoreRegStep(s, m, Imm(0), RegOf(m.env.ra, e.v), t);
  }

  lemma ClearFrameOk(e: IrExpr, u: nat, s: Cpu, m: Machine, t: State) returns (n: nat)
    requires e.Memzero? && Ready(e, s, m, t) && Eval(e, t, m.env).Ok? && RegOf(m.env.ra, e.v) == 0
    requires At(m.prog, s.pc, ExprCode(e, m.env.ra, u).code)
    ensures Reached(s, Run(s, m, n), |ExprCode(e, m.env.ra, u).code|, Void, Eval(e, t, m.env).st, m.env)
  {
    hide Step, Run, Zero, MemzeroCode;
    n := MemzeroClears(s, m, e.off, e.size, u);
    ClearsExactlyIff(e.off, e.size);
    var a := Wrap(m.env.a6 + e.off);
    ZeroAgree(s.mem, t.mem, a, e.size, m.env.lo, m.env.top);
    ZeroKeepsInside(s.mem, a, e.size, m.env.lo, m.env.top);
  }
}
