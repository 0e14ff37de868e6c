// Each fixed instruction sequence computes the operator it was chosen for: additions, shifts,
// strength-reduced multiplication, division and remainder, and comparisons.
module Tiles {
  import opened Words
  import opened Memory
  import opened Ir
  import opened M68k
  import opened Select

  // `code` sits at index `pc` of the program.
  ghost predicate At(p: seq<Instr>, pc: nat, code: seq<Instr>) {
    pc + |code| <= |p| && forall i | 0 <= i < |code| :: p[pc + i] == code[i]
  }

  lemma AtSplit(p: seq<Instr>, pc: nat, x: seq<Instr>, y: seq<Instr>)
    requires At(p, pc, x + y)
    ensures At(p, pc, x) && At(p, pc + |x|, y)
  {
    assert forall i | 0 <= i < |x| :: (x + y)[i] == x[i];
    forall i | 0 <= i < |y| ensures p[pc + |x| + i] == y[i] {
      assert (x + y)[|x| + i] == y[i];
    }
  }

  lemma AtSplit3(p: seq<Instr>, pc: nat, x: seq<Instr>, y: seq<Instr>, z: seq<Instr>)
    requires At(p, pc, x + y + z)
    ensures At(p, pc, x) && At(p, pc + |x|, y) && At(p, pc + |x| + |y|, z) && At(p, pc + |x|, y + z)
  {
    AtSplit(p, pc, x + y, z);
    AtSplit(p, pc, x, y);
    assert x + y + z == x + (y + z);
    AtSplit(p, pc, x, y + z);
  }

  ghost predicate Loaded(m: Machine) { UniqueLabels(m.prog) && GoodEnv(m.env) }

  // From `s` to `t` control moved past `len` lines, D0 became `v`, and nothing but
  // D0, D1 and the condition codes changed.
  ghost predicate Computed(s: Cpu, t: Cpu, len: nat, v: Word) {
    t.pc == s.pc + len && t.d == s.d[0 := v][1 := t.d[1]]
    && t.a == s.a && t.mem == s.mem && t.trace == s.trace
  }

  // ---- condition codes ---------------------------------------------------------

  // The branch and set conditions after cmp mean the relation they are named for.
  lemma CmpMeans(d: Word, s: Word)
    ensures var f := CmpFlags(d, s);
      && (Holds(EQ, f) <==> d == s) && (Holds(NE, f) <==> d != s)
      && (Holds(LT, f) <==> Signed(d) < Signed(s)) && (Holds(LE, f) <==> Signed(d) <= Signed(s))
      && (Holds(GT, f) <==> Signed(d) > Signed(s)) && (Holds(GE, f) <==> Signed(d) >= Signed(s))
      && (Holds(CS, f) <==> d < s) && (Holds(LS, f) <==> d <= s)
      && (Holds(HI, f) <==> d > s) && (Holds(CC, f) <==> d >= s)
  {
    var r := SubW(d, s);
    assert r == if d >= s then d - s else d - s + MODULUS;
  }

  // ---- shifts and immediate additions ------------------------------------------

  lemma AluStep(s: Cpu, m: Machine, op: AluOp, src: Ea)
    requires s.pc < |m.prog| && m.prog[s.pc] == Alu(op, src, 0)
    ensures Computed(s, Run(s, m, 1), 1, AluVal(op, s.d[0], ReadEa(src, L, s, m.env)))
    ensures Run(s, m, 1).d[1] == s.d[1]
  {
    assert Run(s, m, 1) == Step(s, m);
  }

  lemma SccStep(s: Cpu, m: Machine, cc: Cc)
    requires s.pc < |m.prog| && m.prog[s.pc] == Scc(cc, 0)
    ensures Computed(s, Run(s, m, 1), 1, Insert(s.d[0], B, if Holds(cc, s.f) then 255 else 0))
    ensures Run(s, m, 1).d[1] == s.d[1]
  {
    assert Run(s, m, 1) == Step(s, m);
  }

  lemma InsertLowBit(x: Word, b: bool)
    ensures And(Insert(x, B, if b then 255 else 0), 1) == Truth(b)
  {
    AndOne(Insert(x, B, if b then 255 else 0));
  }

  lemma SetBoolOk(s: Cpu, m: Machine, cc: Cc)
    requires Loaded(m) && At(m.prog, s.pc, SetBool(cc))
    ensures Computed(s, Run(s, m, 2), 2, Truth(Holds(cc, s.f)))
    ensures Run(s, m, 2).d[1] == s.d[1]
  {
    assert m.prog[s.pc + 0] == SetBool(cc)[0] && m.prog[s.pc + 1] == SetBool(cc)[1];
    SccStep(s, m, cc);
    var s1 := Run(s, m, 1);
    AluStep(s1, m, AluAnd, Imm(1));
    InsertLowBit(s.d[0], Holds(cc, s.f));
    Chain(s, m, 1, 1, s1.d[0], 1, 1, Truth(Holds(cc, s.f)));
  }

  lemma SubIsAddNegative(x: Word, c: Int32)
    requires -8 <= c <= -1
    ensures SubW(x, Wrap(0 - c)) == AddW(x, Wrap(c))
  {}

  lemma AddImmOk(s: Cpu, m: Machine, c: Int32) returns (n: nat)
    requires Loaded(m) && At(m.prog, s.pc, AddImm(c))
    ensures Computed(s, Run(s, m, n), |AddImm(c)|, AddW(s.d[0], Wrap(c)))
  {
    if c == 0 {
      n := 0;
    } else {
      n := 1;
      assert m.prog[s.pc + 0] == AddImm(c)[0];
      if -8 <= c <= -1 {
        AluStep(s, m, AluSub, Imm(-c));
        SubIsAddNegative(s.d[0], c);
      } else {
        AluStep(s, m, AluAdd, Imm(c));
      }
    }
  }

  lemma ShiftStep(s: Cpu, m: Machine, op: ShiftOp, count: Ea)
    requires s.pc < |m.prog| && m.prog[s.pc] == Shift(op, count, 0)
    ensures Computed(s, Run(s, m, 1), 1, ShiftVal(op, s.d[0], ReadEa(count, L, s, m.env)))
    ensures Run(s, m, 1).d[1] == s.d[1]
  {
    hide Asl, Lsr, Asr;
    assert Run(s, m, 1) == Step(s, m);
  }

  lemma ShiftByZero(op: ShiftOp, x: Word)
    ensures ShiftVal(op, x, 0) == x
  {
    assert Pow2(0) == 1;
  }

  // Two sequences on D0, one after the other.
  lemma Chain(s: Cpu, m: Machine, i: nat, k: nat, v: Word, j: nat, l: nat, w: Word)
    requires Computed(s, Run(s, m, i), k, v)
    requires Computed(Run(s, m, i), Run(Run(s, m, i), m, j), l, w)
    ensures Computed(s, Run(s, m, i + j), k + l, w)
    ensures Run(s, m, i + j) == Run(Run(s, m, i), m, j)
  {
    RunAdd(s, m, i, j);
  }

  lemma ShiftByOk(s: Cpu, m: Machine, op: ShiftOp, k: nat) returns (n: nat)
    requires Loaded(m) && At(m.prog, s.pc, ShiftBy(op, k)) && k < 32
    ensures Computed(s, Run(s, m, n), |ShiftBy(op, k)|, ShiftVal(op, s.d[0], k))
  {
    hide Step, Run, Asl, Lsr, Asr;
    if k == 0 {
      n := 0;
      ShortRun(s, m);
      ShiftByZero(op, s.d[0]);
    } else if k <= 8 {
      n := 1;
      assert m.prog[s.pc + 0] == ShiftBy(op, k)[0];
      ShiftStep(s, m, op, Imm(k));
    } else {
      n := 2;
      var code := ShiftBy(op, k);
      assert m.prog[s.pc + 0] == code[0] && m.prog[s.pc + 1] == code[1];
      LongShift(s, m, op, k);
    }
  }

  lemma LongShift(s: Cpu, m: Machine, op: ShiftOp, k: Word)
    requires s.pc + 1 < |m.prog| && m.prog[s.pc] == Move(L, Imm(k), Dn(1)) && m.prog[s.pc + 1] == Shift(op, Dn(1), 0)
    ensures Computed(s, Run(s, m, 2), 2, ShiftVal(op, s.d[0], k))
  {
    hide Step, Run, Asl, Lsr, Asr;
    var s1 := Run(s, m, 1);
    MoveStep(s, m, Imm(k), 1);
    ShiftStep(s1, m, op, Dn(1));
    Chain(s, m, 1, 1, s1.d[0], 1, 1, ShiftVal(op, s.d[0], k));
  }

  // A longword move into D0 or D1.
  lemma MoveStep(s: Cpu, m: Machine, src: Ea, n: nat)
    requires s.pc < |m.prog| && m.prog[s.pc] == Move(L, src, Dn(n)) && n <= 1 && src != PopSp
    ensures var v := ReadEa(src, L, s, m.env); var t := Run(s, m, 1);
      t.d[n] == v && Computed(s, t, 1, if n == 0 then v else s.d[0])
    ensures n == 0 ==> Run(s, m, 1).d[1] == s.d[1]
  {
    assert Run(s, m, 1) == Step(s, m);
  }

  // ---- arithmetic behind strength reduction --------------------------------------

  lemma MulWrap(x: Word, c: Int32)
    ensures MulW(x, Wrap(c)) == Wrap(x * c)
  {
    if c < 0 {
      assert x * (c + MODULUS) == x * c + x * MODULUS;
      ModAddMultiple(x * c, x, MODULUS);
    }
  }

  lemma ModAddMultiple(a: int, q: int, m: int)
    requires m > 0
    ensures (a + q * m) % m == a % m
  {
    var r, k := a % m, a / m;
    assert a + q * m == (k + q) * m + r by { assert a == k * m + r; assert (k + q) * m == k * m + q * m; }
    ModUnique(a + q * m, m, k + q, r);
  }

  // (a * 2^k) +- a, each step truncated, is a * (2^k +- 1) truncated.
  lemma ShiftAddSub(x: Word, p: nat)
    requires p >= 1
    ensures AddW(Wrap(x * p), x) == Wrap(x * (p + 1))
    ensures SubW(Wrap(x * p), x) == Wrap(x * (p - 1))
  {
    var t := x * p;
    assert x * (p + 1) == t + x;
    assert x * (p - 1) == t - x;
    WrapInside(t, x);
    WrapInside(t, -(x as int));
  }

  lemma WrapInside(t: int, d: int)
    ensures Wrap(Wrap(t) + d) == Wrap(t + d)
  {
    ModAddMultiple(Wrap(t) + d, t / MODULUS, MODULUS);
  }

  // Rounding a negative dividend up before the arithmetic shift truncates toward zero.
  lemma BiasedShift(a: int, p: nat)
    requires p >= 1 && a < 0
    ensures (a + p - 1) / p == TruncDiv(a, p)
    ensures TruncMod(a, p) == -((-a) % p)
  {
    var q, r := (-a) / p, (-a) % p;
    assert -a == q * p + r;
    assert a + p - 1 == (-q) * p + (p - 1 - r) by { assert (-q) * p == -(q * p); }
    ModUnique(a + p - 1, p, -q, p - 1 - r);
    assert TruncDiv(a, p) == -q;
    assert p * (-q) == -(q * p);
  }

  // ---- compare-and-set ----------------------------------------------------------

  lemma CmpStep(s: Cpu, m: Machine, src: Ea)
    requires s.pc < |m.prog| && m.prog[s.pc] == Cmp(src, 0)
    ensures var t := Run(s, m, 1);
      Computed(s, t, 1, s.d[0]) && t.f == CmpFlags(s.d[0], ReadEa(src, L, s, m.env))
  {
    assert Run(s, m, 1) == Step(s, m);
  }

  lemma TstStep(s: Cpu, m: Machine)
    requires s.pc < |m.prog| && m.prog[s.pc] == Tst(0)
    ensures var t := Run(s, m, 1);
      Computed(s, t, 1, s.d[0]) && t.f == ValueFlags(s.d[0])
    ensures Run(s, m, 1).d[1] == s.d[1]
  {
    assert Run(s, m, 1) == Step(s, m);
  }

  lemma CompareSetOk(s: Cpu, m: Machine, src: Ea, cc: Cc, v: Word)
    requires Loaded(m) && At(m.prog, s.pc, [Cmp(src, 0)] + SetBool(cc))
    requires v == Truth(Holds(cc, CmpFlags(s.d[0], ReadEa(src, L, s, m.env))))
    ensures Computed(s, Run(s, m, 3), 3, v)
  {
    AtSplit(m.prog, s.pc, [Cmp(src, 0)], SetBool(cc));
    assert m.prog[s.pc + 0] == [Cmp(src, 0)][0];
    CmpStep(s, m, src);
    var s1 := Run(s, m, 1);
    SetBoolOk(s1, m, cc);
    Chain(s, m, 1, 1, s.d[0], 2, 2, v);
  }

  lemma RelationSet(op: Op, uns: bool, a: Word, b: Word, undef: (Op, bool, Word, Word) -> Word)
    requires IsRelation(op)
    ensures Truth(Holds(RelCc(op, uns), CmpFlags(a, b))) == BinVal(op, uns, a, b, undef)
  {
    CmpMeans(a, b);
  }

  // ---- constant operands -----------------------------------------------------------

  lemma NegStep(s: Cpu, m: Machine)
    requires s.pc < |m.prog| && m.prog[s.pc] == M68k.Neg(0)
    ensures Computed(s, Run(s, m, 1), 1, NegW(s.d[0]))
  {
    assert Run(s, m, 1) == Step(s, m);
  }

  lemma LabelStep(s: Cpu, m: Machine, l: Label)
    requires s.pc < |m.prog| && m.prog[s.pc] == Lab(l)
    ensures Run(s, m, 1) == s.(pc := s.pc + 1)
  {
    assert Run(s, m, 1) == Step(s, m);
  }

  lemma BranchStep(s: Cpu, m: Machine, l: Label, t: nat)
    requires Loaded(m) && s.pc < |m.prog| && m.prog[s.pc] == Bra(l)
    requires t < |m.prog| && m.prog[t] == Lab(l)
    ensures Run(s, m, 1) == s.(pc := t)
  {
    TargetIs(m.prog, l, t);
    assert Run(s, m, 1) == Step(s, m);
  }

  lemma BccStep(s: Cpu, m: Machine, cc: Cc, l: Label, t: nat)
    requires Loaded(m) && s.pc < |m.prog| && m.prog[s.pc] == Bcc(cc, l)
    requires t < |m.prog| && m.prog[t] == Lab(l)
    ensures Run(s, m, 1) == if Holds(cc, s.f) then s.(pc := t) else s.(pc := s.pc + 1)
  {
    TargetIs(m.prog, l, t);
    assert Run(s, m, 1) == Step(s, m);
  }

  lemma MulTailOk(s: Cpu, m: Machine, c: Int32) returns (n: nat)
    requires Loaded(m) && MulTail(c).Some? && At(m.prog, s.pc, MulTail(c).value)
    ensures Computed(s, Run(s, m, n), |MulTail(c).value|, MulW(s.d[0], Wrap(c)))
  {
    hide And, Ctz, Pow2, ShiftVal, Step, Run, ShiftBy;
    var code := MulTail(c).value;
    var uc := Wrap(c);
    MulWrap(s.d[0], c);
    if c == 0 {
      n := 1;
      assert m.prog[s.pc + 0] == code[0];
      MoveStep(s, m, Imm(0), 0);
    } else if c == -1 {
      n := 1;
      assert m.prog[s.pc + 0] == code[0];
      NegStep(s, m);
    } else if c == 1 {
      n := 0;
      ShortRun(s, m);
    } else if IsPow2(uc) {
      Pow2Test(uc);
      n := ShiftByOk(s, m, AslOp, Ctz(uc));
      AslIsTimes(s.d[0], uc);
    } else {
      n := 3;
      var add := IsPow2(uc - 1) && Ctz(uc - 1) <= 8;
      var p := if add then uc - 1 else uc + 1;
      Pow2Test(p);
      SmallPower(p);
      MulAround(s, m, Ctz(p), if add then AluAdd else AluSub);
    }
  }

  lemma AslIsTimes(x: Word, p: Word)
    requires p > 0 && Ctz(p) < 32 && p == Pow2(Ctz(p))
    ensures ShiftVal(AslOp, x, Ctz(p)) == MulW(x, p)
  {
    hide Pow2, Ctz;
    assert Ctz(p) % 64 == Ctz(p);
  }

  lemma SmallPower(p: Word)
    requires p >= 2 && p == Pow2(Ctz(p))
    ensures Ctz(p) >= 1
  {}

  // x*(2^k + 1) and x*(2^k - 1) by a shift and one addition or subtraction.
  lemma MulAround(s: Cpu, m: Machine, k: nat, op: AluOp)
    requires Loaded(m) && 1 <= k <= 8 && (op == AluAdd || op == AluSub)
    requires At(m.prog, s.pc, [Move(L, Dn(0), Dn(1)), Shift(AslOp, Imm(k), 0), Alu(op, Dn(1), 0)])
    ensures Computed(s, Run(s, m, 3), 3, Wrap(s.d[0] * (Pow2(k) + (if op == AluAdd then 1 else -1))))
  {
    hide Pow2, Step;
    var code := [Move(L, Dn(0), Dn(1)), Shift(AslOp, Imm(k), 0), Alu(op, Dn(1), 0)];
    assert m.prog[s.pc + 0] == code[0] && m.prog[s.pc + 1] == code[1] && m.prog[s.pc + 2] == code[2];
    LongestShift(s, m, k);
    var s2 := Run(s, m, 2);
    AluStep(s2, m, op, Dn(1));
    Pow2Positive(k);
    ShiftAddSub(s.d[0], Pow2(k));
    Chain(s, m, 2, 2, s2.d[0], 1, 1, AluVal(op, s2.d[0], s.d[0]));
  }

  lemma LongestShift(s: Cpu, m: Machine, k: nat)
    requires s.pc + 1 < |m.prog| && 1 <= k <= 8
    requires m.prog[s.pc] == Move(L, Dn(0), Dn(1)) && m.prog[s.pc + 1] == Shift(AslOp, Imm(k), 0)
    ensures Computed(s, Run(s, m, 2), 2, Wrap(s.d[0] * Pow2(k))) && Run(s, m, 2).d[1] == s.d[0]
  {
    hide Pow2, Step;
    var s1 := Run(s, m, 1);
    MoveStep(s, m, Dn(0), 1);
    ShiftStep(s1, m, AslOp, Imm(k));
    assert ReadEa(Imm(k), L, s1, m.env) == k;
    Chain(s, m, 1, 1, s1.d[0], 1, 1, Wrap(s.d[0] * Pow2(k)));
    RunAdd(s, m, 1, 1);
  }

  // Signed division by 2^k, k >= 1: bias a negative dividend, then shift.
  lemma DivTailOk(s: Cpu, m: Machine, c: Int32, k: nat, lc: nat) returns (n: nat)
    requires Loaded(m) && c >= 2 && k < 32 && c == Pow2(k)
    requires At(m.prog, s.pc, SignedDivTail(c, k, lc))
    ensures Computed(s, Run(s, m, n), |SignedDivTail(c, k, lc)|, Wrap(TruncDiv(Signed(s.d[0]), c)))
  {
    hide Pow2, Step, TruncDiv, AddImm, ShiftBy, Run, ShiftVal;
    var skip := Lbl("L_sdiv_", lc);
    var bias, shift := AddImm(c - 1), ShiftBy(AsrOp, k);
    var v := if s.d[0] < SIGN then s.d[0] else AddW(s.d[0], c - 1);
    AtSplit(m.prog, s.pc, [Tst(0), Bcc(PL, skip)] + bias + [Lab(skip)], shift);
    n := DivBias(s, m, c, skip);
    SignedShift(s.d[0], v, c, k);
    var j := ShiftByOk(Run(s, m, n), m, AsrOp, k);
    Chain(s, m, n, 3 + |bias|, v, j, |shift|, Wrap(TruncDiv(Signed(s.d[0]), c)));
    n := n + j;
  }

  lemma DivBias(s: Cpu, m: Machine, c: Int32, skip: Label) returns (n: nat)
    requires Loaded(m) && c >= 2
    requires At(m.prog, s.pc, [Tst(0), Bcc(PL, skip)] + AddImm(c - 1) + [Lab(skip)])
    ensures Computed(s, Run(s, m, n), 3 + |AddImm(c - 1)|,
                     if s.d[0] < SIGN then s.d[0] else AddW(s.d[0], c - 1))
  {
    hide Step, AddImm, Run;
    var head, bias := [Tst(0), Bcc(PL, skip)], AddImm(c - 1);
    AtSplit(m.prog, s.pc, head + bias, [Lab(skip)]);
    AtSplit(m.prog, s.pc, head, bias);
    assert m.prog[s.pc + 0] == head[0] && m.prog[s.pc + 1] == head[1];
    var at := s.pc + 2 + |bias|;
    assert m.prog[at + 0] == [Lab(skip)][0];
    n := SignBranch(s, m, skip, at);
    var v := s.d[0];
    if s.d[0] >= SIGN {
      var k := AddImmOk(Run(s, m, n), m, c - 1);
      v := AddW(s.d[0], c - 1);
      Chain(s, m, n, 2, s.d[0], k, |bias|, v);
      n := n + k;
    }
    LabelStep(Run(s, m, n), m, skip);
    RunAdd(s, m, n, 1);
    n := n + 1;
  }

  lemma SignedShift(x: Word, v: Word, c: Int32, k: nat)
    requires c >= 2 && k < 32 && c == Pow2(k)
    requires v == if x < SIGN then x else AddW(x, c - 1)
    ensures ShiftVal(AsrOp, v, k) == Wrap(TruncDiv(Signed(x), c))
  {
    hide Pow2, TruncDiv;
    if x >= SIGN {
      BiasedShift(Signed(x), c);
      assert v < SIGN ==> x + c - 1 >= MODULUS;
      assert Signed(v) == Signed(x) + c - 1;
    } else {
      TruncDivPositive(x, c);
    }
  }

  lemma TruncDivPositive(a: nat, c: nat)
    requires c > 0
    ensures TruncDiv(a, c) == a / c
  {}

  // tst.l d0 / bpl: control goes to the label when the value is not negative.
  lemma SignBranch(s: Cpu, m: Machine, l: Label, at: nat) returns (n: nat)
    requires Loaded(m) && s.pc + 1 < |m.prog| && m.prog[s.pc] == Tst(0) && m.prog[s.pc + 1] == Bcc(PL, l)
    requires at >= s.pc + 2 && at < |m.prog| && m.prog[at] == Lab(l)
    ensures Computed(s, Run(s, m, n), if s.d[0] < SIGN then at - s.pc else 2, s.d[0])
  {
    n := 2;
    TstStep(s, m);
    var s1 := Run(s, m, 1);
    BccStep(s1, m, PL, l, at);
    RunAdd(s, m, 1, 1);
  }

  lemma ModTailOk(s: Cpu, m: Machine, c: Int32, k: nat, lc: nat) returns (n: nat)
    requires Loaded(m) && c >= 2 && k < 32 && c == Pow2(k)
    requires At(m.prog, s.pc, SignedModTail(c, lc))
    ensures Computed(s, Run(s, m, n), |SignedModTail(c, lc)|, Wrap(TruncMod(Signed(s.d[0]), c)))
  {
    hide Pow2, Step, TruncMod, Run, And, Computed;
    var pos, end := Lbl("L_smod_", lc), Lbl("L_smodx_", lc);
    ModTailLines(m.prog, s.pc, c, lc);
    hide SignedModTail, At;
    n := SignBranch(s, m, pos, s.pc + 6);
    var x := s.d[0];
    var v := Wrap(TruncMod(Signed(x), c));
    MaskedRemainder(x, c, k);
    if x >= SIGN {
      ModNegative(Run(s, m, n), m, c, end, s.pc + 8);
      Chain(s, m, n, 2, x, 4, 6, v);
      n := n + 4;
    } else {
      ModPositive(Run(s, m, n), m, c, pos);
      Chain(s, m, n, 6, x, 2, 2, v);
      n := n + 2;
    }
    LabelStep(Run(s, m, n), m, end);
    Chain(s, m, n, 8, v, 1, 1, v);
    n := n + 1;
  }

  lemma ModTailLines(p: seq<Instr>, at: nat, c: Int32, lc: nat)
    requires At(p, at, SignedModTail(c, lc)) && c >= 1
    ensures var pos, end := Lbl("L_smod_", lc), Lbl("L_smodx_", lc);
      && |SignedModTail(c, lc)| == 9 && at + 9 <= |p|
      && p[at] == Tst(0) && p[at + 1] == Bcc(PL, pos)
      && p[at + 2] == M68k.Neg(0) && p[at + 3] == Alu(AluAnd, Imm(c - 1), 0) && p[at + 4] == M68k.Neg(0)
      && p[at + 5] == Bra(end) && p[at + 6] == Lab(pos) && p[at + 7] == Alu(AluAnd, Imm(c - 1), 0) && p[at + 8] == Lab(end)
  {
    var code := SignedModTail(c, lc);
    forall i | 0 <= i < 9 ensures p[at + i] == code[i] {}
    assert p[at + 0] == code[0] && p[at + 1] == code[1] && p[at + 2] == code[2] && p[at + 3] == code[3];
    assert p[at + 4] == code[4] && p[at + 5] == code[5] && p[at + 6] == code[6] && p[at + 7] == code[7];
    assert p[at + 8] == code[8];
  }

  lemma ModPositive(s: Cpu, m: Machine, c: Int32, pos: Label)
    requires s.pc + 1 < |m.prog| && m.prog[s.pc] == Lab(pos) && c >= 1
    requires m.prog[s.pc + 1] == Alu(AluAnd, Imm(c - 1), 0)
    ensures Computed(s, Run(s, m, 2), 2, And(s.d[0], c - 1))
  {
    hide Step, Run, And;
    LabelStep(s, m, pos);
    AluStep(Run(s, m, 1), m, AluAnd, Imm(c - 1));
    Chain(s, m, 1, 1, s.d[0], 1, 1, And(s.d[0], c - 1));
  }

  lemma ModNegative(s: Cpu, m: Machine, c: Int32, end: Label, at: nat)
    requires Loaded(m) && s.pc + 3 < |m.prog| && m.prog[s.pc] == M68k.Neg(0) && c >= 1
    requires m.prog[s.pc + 1] == Alu(AluAnd, Imm(c - 1), 0) && m.prog[s.pc + 2] == M68k.Neg(0)
    requires m.prog[s.pc + 3] == Bra(end) && at == s.pc + 6 && at < |m.prog| && m.prog[at] == Lab(end)
    ensures Computed(s, Run(s, m, 4), 6, NegW(And(NegW(s.d[0]), c - 1)))
  {
    hide Step, Run, And;
    var x := s.d[0];
    NegStep(s, m);
    AluStep(Run(s, m, 1), m, AluAnd, Imm(c - 1));
    Chain(s, m, 1, 1, NegW(x), 1, 1, And(NegW(x), c - 1));
    NegStep(Run(s, m, 2), m);
    Chain(s, m, 2, 2, And(NegW(x), c - 1), 1, 1, NegW(And(NegW(x), c - 1)));
    BranchStep(Run(s, m, 3), m, end, at);
    RunAdd(s, m, 3, 1);
  }

  lemma MaskedRemainder(x: Word, c: Int32, k: nat)
    requires c >= 2 && k < 32 && c == Pow2(k)
    ensures x >= SIGN ==> NegW(And(NegW(x), c - 1)) == Wrap(TruncMod(Signed(x), c))
    ensures x < SIGN ==> And(x, c - 1) == Wrap(TruncMod(Signed(x), c))
  {
    hide Pow2, And;
    if x >= SIGN {
      AndMask(NegW(x), k);
      BiasedShift(Signed(x), c);
      assert NegW(x) == -(Signed(x) as int);
    } else {
      AndMask(x, k);
      assert x == c * (x / c) + x % c;
    }
  }

  lemma UnsignedPow2(x: Word, c: Word, undef: (Op, bool, Word, Word) -> Word)
    requires IsPow2(c)
    ensures Ctz(c) < 32
    ensures ShiftVal(LsrOp, x, Ctz(c)) == BinVal(Op.Div, true, x, c, undef)
    ensures And(x, c - 1) == BinVal(Op.Mod, true, x, c, undef)
  {
    hide And, Pow2, Ctz;
    Pow2Test(c);
    AndMask(x, Ctz(c));
    DivBound(x, c);
  }

  lemma DivModTailOk(s: Cpu, m: Machine, op: Op, uns: bool, c: Int32, lc: nat) returns (n: nat)
    requires Loaded(m) && (op == Op.Div || op == Op.Mod) && ConstTail(op, uns, c, lc).Some?
    requires At(m.prog, s.pc, ConstTail(op, uns, c, lc).value.code)
    ensures Computed(s, Run(s, m, n), |ConstTail(op, uns, c, lc).value.code|,
                     BinVal(op, uns, s.d[0], Wrap(c), m.env.undef))
  {
    hide And, Pow2, Ctz, Step, Run, AddImm, ShiftBy, SignedDivTail, SignedModTail, Lsr, TruncDiv, TruncMod;
    if uns {
      UnsignedPow2(s.d[0], Wrap(c), m.env.undef);
      if op == Op.Div {
        n := ShiftByOk(s, m, LsrOp, Ctz(Wrap(c)));
      } else {
        n := 1;
        assert m.prog[s.pc + 0] == ConstTail(op, uns, c, lc).value.code[0];
        AluStep(s, m, AluAnd, Imm(Wrap(c) - 1));
      }
    } else {
      Pow2Test(c);
      if op == Op.Div {
        n := DivTailOk(s, m, c, Ctz(c), lc);
      } else {
        n := ModTailOk(s, m, c, Ctz(c), lc);
      }
    }
  }

  // The specialized code for `x op c` leaves exactly that value in D0.
  lemma ConstTailOk(s: Cpu, m: Machine, op: Op, uns: bool, c: Int32, lc: nat) returns (n: nat)
    requires Loaded(m) && ConstTail(op, uns, c, lc).Some?
    requires At(m.prog, s.pc, ConstTail(op, uns, c, lc).value.code)
    ensures Computed(s, Run(s, m, n), |ConstTail(op, uns, c, lc).value.code|,
                     BinVal(op, uns, s.d[0], Wrap(c), m.env.undef))
  {
    hide And, Or, Xor, Pow2, Ctz, Step, Run, AddImm, ShiftBy, MulTail, Asl, Lsr, Asr;
    if op == Op.Div || op == Op.Mod {
      n := DivModTailOk(s, m, op, uns, c, lc);
      return;
    }
    var code := ConstTail(op, uns, c, lc).value.code;
    match op {
      case Add => n := AddImmOk(s, m, c);
      case Sub =>
        n := AddImmOk(s, m, Signed(Wrap(0 - c)));
        SubIsAdd(s.d[0], c);
      case BitAnd => n := 1; assert m.prog[s.pc + 0] == code[0]; AluStep(s, m, AluAnd, Imm(c));
      case BitOr => n := 1; assert m.prog[s.pc + 0] == code[0]; AluStep(s, m, AluOr, Imm(c));
      case BitXor => n := 1; assert m.prog[s.pc + 0] == code[0]; AluStep(s, m, AluEor, Imm(c));
      case Eq | Ne | Lt | Le =>
        n := 3;
        RelationSet(op, uns, s.d[0], Wrap(c), m.env.undef);
        CompareSetOk(s, m, Imm(c), RelCc(op, uns), BinVal(op, uns, s.d[0], Wrap(c), m.env.undef));
      case Shl => n := ShiftByOk(s, m, AslOp, c);
      case Shr => n := ShiftByOk(s, m, if uns then LsrOp else AsrOp, c);
      case Mul => n := MulTailOk(s, m, c);
    }
  }

  lemma SubIsAdd(x: Word, c: Int32)
    ensures AddW(x, Wrap(Signed(Wrap(0 - c)))) == SubW(x, Wrap(c))
  {
    WrapPeriod(x - c);
    if 0 < c {
      assert Wrap(0 - c) == MODULUS - c && Wrap(c) == c;
    } else {
      assert Wrap(0 - c) == 0 - c;
      assert c < 0 ==> Wrap(c) == c + MODULUS;
      WrapPeriod(x - c - MODULUS);
    }
  }

  lemma WrapPeriod(y: int)
    ensures Wrap(y + MODULUS) == Wrap(y)
  {}

  // ---- which constants have a tile -----------------------------------------------------------

  // v is a power of two up to 2^n.
  ghost predicate PowerTo(v: int, n: nat) { exists k: nat :: k <= n && v == Pow2(k) }

  // Multipliers that are powers of two modulo 2^32, 0, -1, or next to one up to 256; divisors that
  // are powers of two, from 2 on if signed; shift counts from 1 to 31; and every constant of the
  // other operators.
  lemma SpecializedIff(op: Op, uns: bool, c: Int32, lc: nat)
    ensures ConstTail(op, uns, c, lc).Some?
       <==> match op
            case Add | Sub | BitAnd | BitOr | BitXor | Eq | Ne | Lt | Le => true
            case Shl | Shr => 1 <= c <= 31
            case Mul => c == 0 || c == -1 || PowerTo(Wrap(c), 31) || (c >= 3 && (PowerTo(c - 1, 8) || PowerTo(c + 1, 8)))
            case Div | Mod => (uns || c >= 2) && PowerTo(Wrap(c), 31)
  {
    hide AddImm, ShiftBy, SetBool, RelCc, SignedDivTail, SignedModTail, IsPow2, PowerTo;
    PowerTest(Wrap(c));
    if c >= 3 {
      PowerTest(c - 1);
      PowerTest(c + 1);
    }
    if c == 1 { OneIsPower(); }
  }

  lemma PowerTest(v: Word)
    ensures IsPow2(v) <==> PowerTo(v, 31)
    ensures IsPow2(v) ==> v > 0
    ensures IsPow2(v) && Ctz(v) <= 8 <==> PowerTo(v, 8)
  {
    hide IsPow2, Ctz, Pow2, PowerTo;
    Pow2Test(v);
    PowerIff(v, 31);
    PowerIff(v, 8);
  }

  lemma OneIsPower()
    ensures PowerTo(1, 31)
  {
    var k: nat := 0;
    assert Pow2(k) == 1;
  }

  lemma PowerIff(v: Word, n: nat)
    requires n <= 31
    ensures IsPow2(v) ==> v > 0
    ensures PowerTo(v, n) <==> IsPow2(v) && Ctz(v) <= n
  {
    hide Ctz, Pow2;
    assert IsPow2(v) ==> v > 0;
    hide IsPow2;
    Pow2Test(v);
    if PowerTo(v, n) {
      var k: nat :| k <= n && v == Pow2(k);
      CtzOfPower(k);
    }
    if IsPow2(v) { assert v == Pow2(Ctz(v)); }
  }

  lemma {:induction false} CtzOfPower(k: nat)
    ensures Pow2(k) > 0 && Ctz(Pow2(k)) == k
  {
    Pow2Positive(k);
    if k > 0 { CtzOfPower(k - 1); }
  }
}
