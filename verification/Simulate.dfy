// How machine states stand for IR states, and the machine steps that move values
// between registers, the stack and memory.
module Simulate {
  import opened Words
  import opened Memory
  import opened Ir
  import opened M68k
  import opened Select
  import opened Tiles

  function Sp(s: Cpu): int { s.a[7] }

  ghost predicate InRegs(s: Cpu, regs: RegFile) {
    && (forall r | 2 <= r <= 7 :: s.d[r] == regs[r])
    && (forall r | 2 <= r <= 5 :: s.a[r] == regs[r + 8])
  }

  // Same observable memory, promoted registers, call trace and frame pointer; SP is
  // inside the reserved stack space.
  ghost predicate StandsFor(s: Cpu, t: State, env: Env) {
    && AgreeOutside(s.mem, t.mem, env.lo, env.top)
    && InRegs(s, t.regs)
    && s.trace == t.trace
    && s.a[6] == env.a6
    && env.lo <= Sp(s) <= env.top
  }

  // From `s` the machine came to index `pc`, standing for `t`; SP and everything on
  // the stack above it are as before.
  ghost predicate Arrived(s: Cpu, u: Cpu, pc: nat, t: State, env: Env) {
    && u.pc == pc
    && StandsFor(u, t, env)
    && Sp(u) == Sp(s)
    && AgreeInside(u.mem, s.mem, Sp(s), env.top)
  }

  // It fell through `len` lines and left the value `v`, if there is one, in D0.
  ghost predicate Reached(s: Cpu, u: Cpu, len: nat, v: Val, t: State, env: Env) {
    Arrived(s, u, s.pc + len, t, env) && (v.W? ==> u.d[0] == v.w)
  }

  // The same after a call: its `k` argument slots on top of the stack may have changed.
  ghost predicate Called(s: Cpu, u: Cpu, len: nat, k: nat, v: Val, t: State, env: Env) {
    && u.pc == s.pc + len && StandsFor(u, t, env) && Sp(u) == Sp(s) && (v.W? ==> u.d[0] == v.w)
    && AgreeInside(u.mem, s.mem, Sp(s) + 4 * k, env.top)
  }

  lemma ReachedThen(s: Cpu, u: Cpu, len: nat, v: Val, t: State, w: Cpu, len2: nat, v2: Val, t2: State, env: Env)
    requires Reached(s, u, len, v, t, env) && Reached(u, w, len2, v2, t2, env)
    ensures Reached(s, w, len + len2, v2, t2, env)
  {}

  lemma ReachedNow(s: Cpu, v: Val, t: State, env: Env)
    requires StandsFor(s, t, env) && (v.W? ==> s.d[0] == v.w)
    ensures Reached(s, s, 0, v, t, env)
  {}

  // A computation on D0 after an evaluation.
  lemma ReachedComputed(s: Cpu, u: Cpu, len: nat, v: Val, t: State, w: Cpu, len2: nat, x: Word, env: Env)
    requires Reached(s, u, len, v, t, env) && Computed(u, w, len2, x)
    ensures Reached(s, w, len + len2, W(x), t, env)
  {}

  lemma Composed(s: Cpu, m: Machine, i: nat, len: nat, v: Val, t: State, j: nat, len2: nat, x: Word)
    requires Reached(s, Run(s, m, i), len, v, t, m.env)
    requires Computed(Run(s, m, i), Run(Run(s, m, i), m, j), len2, x)
    ensures Reached(s, Run(s, m, i + j), len + len2, W(x), t, m.env)
  {
    hide Step, Run;
    RunAdd(s, m, i, j);
  }

  lemma Joined(s: Cpu, m: Machine, i: nat, len: nat, v: Val, t: State, j: nat, len2: nat, v2: Val, t2: State)
    requires Reached(s, Run(s, m, i), len, v, t, m.env)
    requires Reached(Run(s, m, i), Run(Run(s, m, i), m, j), len2, v2, t2, m.env)
    ensures Reached(s, Run(s, m, i + j), len + len2, v2, t2, m.env)
  {
    hide Step, Run;
    RunAdd(s, m, i, j);
  }

  lemma JoinedAt(s: Cpu, m: Machine, i: nat, pc: nat, t: State, j: nat, pc2: nat, t2: State)
    requires Arrived(s, Run(s, m, i), pc, t, m.env)
    requires Arrived(Run(s, m, i), Run(Run(s, m, i), m, j), pc2, t2, m.env)
    ensures Arrived(s, Run(s, m, i + j), pc2, t2, m.env)
    ensures Run(s, m, i + j) == Run(Run(s, m, i), m, j)
  {
    hide Step, Run;
    RunAdd(s, m, i, j);
  }

  // ---- promoted registers --------------------------------------------------------

  function RegVal(s: Cpu, r: Reg): Word { if IsAddrReg(r) then s.a[r - 8] else s.d[r] }

  lemma LoadRegStep(s: Cpu, m: Machine, r: Reg)
    requires r != 0 && s.pc < |m.prog| && m.prog[s.pc] == Move(L, RegEa(r), Dn(0))
    ensures Computed(s, Run(s, m, 1), 1, RegVal(s, r))
    ensures Run(s, m, 1).d[1] == s.d[1]
  {
    hide Step, Run;
    MoveStep(s, m, RegEa(r), 0);
  }

  // A longword store to a promoted register, from D0 or an immediate.
  lemma StoreRegStep(s: Cpu, m: Machine, src: Ea, r: Reg, t: State)
    requires r != 0 && s.pc < |m.prog| && m.prog[s.pc] == Move(L, src, RegEa(r)) && src != PopSp
    requires StandsFor(s, t, m.env)
    ensures Reached(s, Run(s, m, 1), 1, W(s.d[0]), SetReg(r, ReadEa(src, L, s, m.env), t), m.env)
  {
    hide Step, ReadEa;
    ShortRun(s, m);
    StoreRegIs(s, m, src, r);
  }

  lemma StoreRegIs(s: Cpu, m: Machine, src: Ea, r: Reg)
    requires r != 0 && s.pc < |m.prog| && m.prog[s.pc] == Move(L, src, RegEa(r)) && src != PopSp
    ensures var v, u := ReadEa(src, L, s, m.env), Step(s, m);
      u == s.(pc := s.pc + 1, f := u.f, d := if r < 8 then s.d[r := v] else s.d, a := if r < 8 then s.a else s.a[r - 8 := v])
  {
    hide AluVal, ShiftVal, CallStep, Scratch, BinVal, Narrow, CmpFlags, Target, Read, Write;
  }

  // ---- addresses, loads and stores -------------------------------------------------

  lemma LeaA0Step(s: Cpu, m: Machine, ea: Ea)
    requires s.pc < |m.prog| && m.prog[s.pc] == LeaTo(ea, 0)
    ensures Run(s, m, 1) == s.(pc := s.pc + 1, a := s.a[0 := MemAddr(ea, s, m.env)])
  {
    hide BinVal, AluVal, ShiftVal, CallStep, Scratch, Narrow, CmpFlags, Target, Insert;
    assert Run(s, m, 1) == Step(s, m);
  }

  lemma LeaSteps(s: Cpu, m: Machine, p: Place, t: State)
    requires s.pc + 1 < |m.prog| && m.prog[s.pc] == LeaTo(PlaceEa(p), 0) && m.prog[s.pc + 1] == Move(L, An(0), Dn(0))
    requires StandsFor(s, t, m.env)
    ensures Reached(s, Run(s, m, 2), 2, W(PlaceAddr(p, m.env)), t, m.env)
    ensures Run(s, m, 2).d[1] == s.d[1]
  {
    hide Step, Run;
    LeaA0Step(s, m, PlaceEa(p));
    MoveStep(Run(s, m, 1), m, An(0), 0);
    RunAdd(s, m, 1, 1);
  }

  // movea.l d0,a0 followed by the extending load from (a0).
  lemma A0Step(s: Cpu, m: Machine, t: State)
    requires s.pc < |m.prog| && m.prog[s.pc] == D0ToA0 && StandsFor(s, t, m.env)
    ensures Reached(s, Run(s, m, 1), 1, W(s.d[0]), t, m.env) && Run(s, m, 1).a[0] == s.d[0]
    ensures Run(s, m, 1).d == s.d && Run(s, m, 1).mem == s.mem
  {
    hide AluVal, ShiftVal, CallStep, Scratch, BinVal, Insert, Narrow, CmpFlags, Target;
    assert Run(s, m, 1) == Step(s, m);
  }

  lemma ByteMoveStep(s: Cpu, m: Machine, size: Size)
    requires s.pc < |m.prog| && m.prog[s.pc] == Move(size, Ind(0), Dn(0))
    ensures Computed(s, Run(s, m, 1), 1, Insert(s.d[0], size, ReadEa(Ind(0), size, s, m.env)))
    ensures Run(s, m, 1).d[1] == s.d[1]
  {
    assert Run(s, m, 1) == Step(s, m);
  }

  lemma ExtWStep(s: Cpu, m: Machine)
    requires s.pc < |m.prog| && m.prog[s.pc] == ExtW(0)
    ensures Computed(s, Run(s, m, 1), 1, Insert(s.d[0], H, Narrow(1, false, s.d[0])))
    ensures Run(s, m, 1).d[1] == s.d[1]
  {
    assert Run(s, m, 1) == Step(s, m);
  }

  lemma ExtLStep(s: Cpu, m: Machine)
    requires s.pc < |m.prog| && m.prog[s.pc] == ExtL(0)
    ensures Computed(s, Run(s, m, 1), 1, Narrow(2, false, s.d[0]))
    ensures Run(s, m, 1).d[1] == s.d[1]
  {
    assert Run(s, m, 1) == Step(s, m);
  }

  lemma ExtTwice(x: Word)
    ensures Narrow(2, false, Insert(x, H, Narrow(1, false, x))) == Narrow(1, false, x)
  {
    var b := Narrow(1, false, x);
    assert Insert(x, H, b) % 65536 == b % 65536;
  }

  lemma NarrowInsert(x: Word, v: Word, uns: bool)
    ensures v < 256 ==> Narrow(1, uns, Insert(x, B, v)) == Narrow(1, uns, v)
    ensures v < 65536 ==> Narrow(2, uns, Insert(x, H, v)) == Narrow(2, uns, v)
    ensures v < 256 ==> Insert(0, B, v) == v == Narrow(1, true, v)
    ensures v < 65536 ==> Insert(0, H, v) == v == Narrow(2, true, v)
  {}

  lemma SignExtendByte(s: Cpu, m: Machine)
    requires s.pc + 1 < |m.prog| && m.prog[s.pc] == ExtW(0) && m.prog[s.pc + 1] == ExtL(0)
    ensures Computed(s, Run(s, m, 2), 2, Narrow(1, false, s.d[0]))
    ensures Run(s, m, 2).d[1] == s.d[1]
  {
    hide Step, Run, Insert;
    ExtWStep(s, m);
    ExtLStep(Run(s, m, 1), m);
    ExtTwice(s.d[0]);
    Chain(s, m, 1, 1, Run(s, m, 1).d[0], 1, 1, Narrow(1, false, s.d[0]));
  }

  lemma NarrowOk(s: Cpu, m: Machine, size: nat, uns: bool) returns (n: nat)
    requires Loaded(m) && At(m.prog, s.pc, NarrowCode(size, uns))
    ensures Computed(s, Run(s, m, n), |NarrowCode(size, uns)|, Narrow(size, uns, s.d[0]))
    ensures Run(s, m, n).d[1] == s.d[1]
  {
    hide Step, Run, And, Insert;
    var code := NarrowCode(size, uns);
    n := |code|;
    if size == 1 || size == 2 {
      assert m.prog[s.pc + 0] == code[0];
      if uns {
        AluStep(s, m, AluAnd, code[0].src);
        ByteMasks(s.d[0]);
      } else if size == 1 {
        assert m.prog[s.pc + 1] == code[1];
        SignExtendByte(s, m);
      } else {
        ExtLStep(s, m);
      }
    } else {
      ShortRun(s, m);
    }
  }

  lemma ByteMasks(x: Word)
    ensures And(x, 255) == x % 256 && And(x, 65535) == x % 65536
  {
    assert Pow2(8) == 256;
    Pow2Add(8, 8);
    AndMask(x, 8);
    AndMask(x, 16);
  }

  lemma LoadFromA0Ok(s: Cpu, m: Machine, size: nat, uns: bool, x: Word) returns (n: nat)
    requires Loaded(m) && At(m.prog, s.pc, LoadFromA0(size, uns))
    requires x == ReadEa(Ind(0), StoreSize(size), s, m.env)
    ensures Computed(s, Run(s, m, n), |LoadFromA0(size, uns)|, Narrow(size, uns, x))
    ensures Run(s, m, n).d[1] == s.d[1]
  {
    hide Step, Run, Insert, ReadEa;
    if size != 1 && size != 2 {
      n := 1;
      assert m.prog[s.pc + 0] == LoadFromA0(size, uns)[0];
      LongLoad(s, m);
    } else if uns {
      n := 2;
      ShortLoadUnsigned(s, m, size, x);
    } else {
      n := ShortLoadSigned(s, m, size, x);
    }
  }

  lemma ShortLoadUnsigned(s: Cpu, m: Machine, size: nat, x: Word)
    requires Loaded(m) && (size == 1 || size == 2) && At(m.prog, s.pc, LoadFromA0(size, true))
    requires x == ReadEa(Ind(0), StoreSize(size), s, m.env)
    ensures Computed(s, Run(s, m, 2), 2, Narrow(size, true, x)) && Run(s, m, 2).d[1] == s.d[1]
  {
    hide Step, Run, Insert, Narrow;
    var code := LoadFromA0(size, true);
    assert m.prog[s.pc + 0] == code[0] && m.prog[s.pc + 1] == code[1];
    ReadIsWord(s.mem, s.a[0], Bytes(StoreSize(size)));
    MoveStep(s, m, Imm(0), 0);
    ByteMoveStep(Run(s, m, 1), m, StoreSize(size));
    NarrowInsert(0, x, true);
    Chain(s, m, 1, 1, 0, 1, 1, Narrow(size, true, x));
  }

  lemma ShortLoadSigned(s: Cpu, m: Machine, size: nat, x: Word) returns (n: nat)
    requires Loaded(m) && (size == 1 || size == 2) && At(m.prog, s.pc, LoadFromA0(size, false))
    requires x == ReadEa(Ind(0), StoreSize(size), s, m.env)
    ensures Computed(s, Run(s, m, n), |LoadFromA0(size, false)|, Narrow(size, false, x)) && Run(s, m, n).d[1] == s.d[1]
  {
    hide Step, Run, Insert, Narrow;
    var code := LoadFromA0(size, false);
    assert m.prog[s.pc + 0] == code[0];
    ReadIsWord(s.mem, s.a[0], Bytes(StoreSize(size)));
    ByteMoveStep(s, m, StoreSize(size));
    NarrowInsert(s.d[0], x, false);
    assert code == [code[0]] + NarrowCode(size, false);
    AtSplit(m.prog, s.pc, [code[0]], NarrowCode(size, false));
    var k := NarrowOk(Run(s, m, 1), m, size, false);
    n := 1 + k;
    Chain(s, m, 1, 1, Run(s, m, 1).d[0], k, |code| - 1, Narrow(size, false, x));
  }

  lemma LongLoad(s: Cpu, m: Machine)
    requires s.pc < |m.prog| && m.prog[s.pc] == Move(L, Ind(0), Dn(0))
    ensures Computed(s, Run(s, m, 1), 1, ReadEa(Ind(0), L, s, m.env))
    ensures Run(s, m, 1).d[1] == s.d[1]
  {
    MoveStep(s, m, Ind(0), 0);
  }

  // A store of D0 outside the reserved stack space.
  lemma StoreStep(s: Cpu, m: Machine, size: nat, ea: Ea, p: Word, t: State)
    requires Loaded(m) && s.pc < |m.prog| && m.prog[s.pc] == Move(StoreSize(size), Dn(0), ea)
    requires (ea.Ind? || ea.Disp? || ea.Abs?) && p == MemAddr(ea, s, m.env)
    requires StandsFor(s, t, m.env) && StoreTo(p, size, s.d[0], t, m.env).Ok?
    ensures Reached(s, Run(s, m, 1), 1, W(s.d[0]), StoreTo(p, size, s.d[0], t, m.env).st, m.env)
  {
    hide Write;
    var env := m.env;
    var low := Low(s.d[0], StoreSize(size));
    WriteLow(s.mem, p, size, s.d[0]);
    WriteAgree(s.mem, t.mem, p, Width(size), s.d[0], env.lo, env.top);
    WriteKeepsInside(s.mem, p, Width(size), s.d[0], env.lo, env.top);
    assert Run(s, m, 1) == Step(s, m);
    assert Run(s, m, 1).mem == Write(s.mem, p, Width(size), low);
  }

  lemma {:induction false} WriteTruncates(mem: Mem, p: int, n: nat, v: nat, w: nat)
    requires v % Base256(n) == w % Base256(n)
    ensures Write(mem, p, n, v) == Write(mem, p, n, w)
  {
    if n > 0 {
      ModBase(v, 256, Base256(n - 1));
      ModBase(w, 256, Base256(n - 1));
      WriteTruncates(mem, p, n - 1, v / 256, w / 256);
    }
  }

  lemma WriteLow(mem: Mem, p: Word, size: nat, v: Word)
    ensures Write(mem, p, Width(size), Low(v, StoreSize(size))) == Write(mem, p, Width(size), v)
  {
    hide Write;
    assert Base256(1) == 256 && Base256(2) == 65536;
    WriteTruncates(mem, p, Width(size), Low(v, StoreSize(size)), v);
  }

  // ---- the evaluation stack -------------------------------------------------------------

  ghost predicate Pushed(s: Cpu, u: Cpu, x: Word, t: State, env: Env) {
    && u.pc == s.pc + 1
    && StandsFor(u, t, env)
    && Sp(u) == Sp(s) - 4
    && Read(u.mem, Sp(u), 4) == x
    && AgreeInside(u.mem, s.mem, Sp(s), env.top)
  }

  lemma PushStep(s: Cpu, m: Machine, t: State)
    requires Loaded(m) && s.pc < |m.prog| && m.prog[s.pc] == PushD0 && StandsFor(s, t, m.env)
    requires Sp(s) - 4 >= m.env.lo
    ensures Pushed(s, Run(s, m, 1), s.d[0], t, m.env)
  {
    hide Write, Read;
    var sp := Sp(s) - 4;
    SlotInRange(Sp(s), -4);
    WriteInside(s.mem, sp, 4, s.d[0], m.env.lo, m.env.top);
    ReadBackWord(s.mem, sp, s.d[0]);
    assert Run(s, m, 1) == Step(s, m);
    assert Run(s, m, 1).mem == Write(s.mem, sp, 4, s.d[0]);
  }

  // Pop the word `x` pushed earlier into D1 or A1.
  lemma PopStep(s: Cpu, m: Machine, dst: Ea, x: Word, t: State)
    requires Loaded(m) && s.pc < |m.prog| && m.prog[s.pc] == Move(L, PopSp, dst) && (dst == Dn(1) || dst == An(1))
    requires StandsFor(s, t, m.env) && Sp(s) + 4 <= m.env.top && Read(s.mem, Sp(s), 4) == x
    ensures var u := Run(s, m, 1);
      && u.pc == s.pc + 1 && StandsFor(u, t, m.env) && Sp(u) == Sp(s) + 4 && u.mem == s.mem
      && u.d[0] == s.d[0] && (if dst == Dn(1) then u.d[1] else u.a[1]) == x
  {
    hide Read;
    SlotInRange(Sp(s), 4);
    assert Run(s, m, 1) == Step(s, m);
  }

  // A value pushed, another evaluated above it, and the first one popped.
  lemma PushedThenPopped(s: Cpu, p: Cpu, m: Machine, x: Word, t: State, e: Cpu, len: nat, v: Val, t2: State, dst: Ea)
    requires Loaded(m) && StandsFor(s, t, m.env) && Pushed(s, p, x, t, m.env) && Reached(p, e, len, v, t2, m.env)
    requires e.pc < |m.prog| && m.prog[e.pc] == Move(L, PopSp, dst) && (dst == Dn(1) || dst == An(1))
    ensures var u := Run(e, m, 1);
      Reached(s, u, len + 2, v, t2, m.env) && (if dst == Dn(1) then u.d[1] else u.a[1]) == x
  {
    hide Read, Step, Run;
    ReadInside(e.mem, p.mem, Sp(p), 4, Sp(p), m.env.top);
    PopStep(e, m, dst, x, t2);
  }
}
