// Selected code computes its expression.
module Selection {
  import opened Words
  import opened Memory
  import opened Ir
  import opened M68k
  import opened Select
  import opened Tiles
  import opened Simulate
  import opened SelectProof
  import opened Effects

  // Running the code for `e` from any loaded program leaves its value in D0, has the
  // same effect on memory, promoted registers and the call trace, and restores SP.
  lemma {:induction false} ExprOk(e: IrExpr, u: nat, s: Cpu, m: Machine, t: State) returns (n: nat)
    requires Ready(e, s, m, t) && Eval(e, t, m.env).Ok?
    requires At(m.prog, s.pc, ExprCode(e, m.env.ra, u).code)
    ensures var r := Eval(e, t, m.env);
      Reached(s, Run(s, m, n), |ExprCode(e, m.env.ra, u).code|, r.v, r.st, m.env)
    decreases e, 4
  {
    hide Step, Run, Reached, Computed, StackNeed, Eval, ExprCode, WellTyped;
    match e {
      case Nop => n := 0; NopOk(e, u, s, m, t);
      case Num(_, _, _) => n := 1; NumOk(e, u, s, m, t);
      case Lea(_) => n := 2; LeaCodeOk(e, u, s, m, t); LeaLength(e, u, s, m, t);
      case Load(_, _, _) => n := LoadOk(e, u, s, m, t);
      case Store(_, _, _) => n := StoreOk(e, u, s, m, t);
      case Binop(_, _, _, _, _, _) => n := BinopOk(e, u, s, m, t);
      case Unary(_, _, _, _) => n := UnaryOk(e, u, s, m, t);
      case LogAnd(_, _) => n := ShortCircuitOk(e, u, s, m, t);
      case LogOr(_, _) => n := ShortCircuitOk(e, u, s, m, t);
      case Cond(_, _, _) => n := CondExprOk(e, u, s, m, t);
      case Comma(_, _) => n := CommaOk(e, u, s, m, t);
      case Cast(_, _, _, _, _, _) => n := CastOk(e, u, s, m, t);
      case CallDirect(_, _) => n := CallDirectOk(e, u, s, m, t);
      case CallIndirect(_, _) => n := CallIndirectOk(e, u, s, m, t);
      case Memzero(_, _, _) => n := MemzeroOk(e, u, s, m, t); MemzeroVoid(e, t, m.env);
      case Vdef(_, _) => n := VdefOk(e, u, s, m, t);
      case Vuse(_) => n := VuseOk(e, u, s, m, t);
    }
  }

  lemma NopOk(e: IrExpr, u: nat, s: Cpu, m: Machine, t: State)
    requires e.Nop? && Ready(e, s, m, t)
    ensures Reached(s, Run(s, m, 0), |ExprCode(e, m.env.ra, u).code|, Eval(e, t, m.env).v, Eval(e, t, m.env).st, m.env)
  {}

  lemma NumOk(e: IrExpr, u: nat, s: Cpu, m: Machine, t: State)
    requires e.Num? && Ready(e, s, m, t) && At(m.prog, s.pc, ExprCode(e, m.env.ra, u).code)
    ensures Reached(s, Run(s, m, 1), |ExprCode(e, m.env.ra, u).code|, Eval(e, t, m.env).v, Eval(e, t, m.env).st, m.env)
  {
    hide Step, Run;
    assert m.prog[s.pc + 0] == ExprCode(e, m.env.ra, u).code[0];
    MoveStep(s, m, Imm(e.val), 0);
    ReachedNow(s, Void, t, m.env);
    ReachedComputed(s, s, 0, Void, t, Run(s, m, 1), 1, Wrap(e.val), m.env);
  }

  lemma LeaLength(e: IrExpr, u: nat, s: Cpu, m: Machine, t: State)
    requires e.Lea?
    ensures |ExprCode(e, m.env.ra, u).code| == 2 && Eval(e, t, m.env).st == t
  {}

  lemma MemzeroVoid(e: IrExpr, t: State, env: Env)
    requires e.Memzero? && Eval(e, t, env).Ok?
    ensures Eval(e, t, env).v == Void
  {}

  lemma LoadOk(e: IrExpr, u: nat, s: Cpu, m: Machine, t: State) returns (n: nat)
    requires e.Load? && Ready(e, s, m, t) && Eval(e, t, m.env).Ok?
    requires At(m.prog, s.pc, ExprCode(e, m.env.ra, u).code)
    ensures var r := Eval(e, t, m.env);
      Reached(s, Run(s, m, n), |ExprCode(e, m.env.ra, u).code|, r.v, r.st, m.env)
    decreases e, 3
  {
    hide Step, Run, Read, Narrow, Eval, ExprCode, Ready;
    if e.a.Lea? {
      LoadHasValue(e, t, m.env);
      n := LoadVarOk(e, u, s, m, t);
    } else if IsIndexedLoad(e) {
      n := IndexedOk(e, u, s, m, t);
    } else {
      n := LoadThroughOk(e, u, s, m, t);
    }
  }

  lemma LoadHasValue(e: IrExpr, t: State, env: Env)
    requires e.Load? && Eval(e, t, env).Ok?
    ensures HasValue(Eval(e, t, env))
  {}

  lemma LoadThroughParts(e: IrExpr, ra: map<nat, Reg>, u: nat, t: State, env: Env)
    requires e.Load? && !e.a.Lea? && !IsIndexedLoad(e) && env.ra == ra && WellTyped(e) && Eval(e, t, env).Ok?
    ensures WellTyped(e.a) && StackNeed(e.a) <= StackNeed(e) && HasValue(Eval(e.a, t, env))
    ensures var va := Eval(e.a, t, env); Eval(e, t, env) == LoadFrom(va.v.w, e.size, e.uns, va.st, env)
    ensures ExprCode(e, ra, u).code == ExprCode(e.a, ra, u).code + [D0ToA0] + LoadFromA0(e.size, e.uns)
  {
    hide LoadFrom, LoadFromA0;
  }

  // The address, then the load through A0.
  lemma LoadThroughOk(e: IrExpr, u: nat, s: Cpu, m: Machine, t: State) returns (n: nat)
    requires e.Load? && !e.a.Lea? && !IsIndexedLoad(e) && Ready(e, s, m, t) && Eval(e, t, m.env).Ok?
    requires At(m.prog, s.pc, ExprCode(e, m.env.ra, u).code)
    ensures var r := Eval(e, t, m.env);
      Reached(s, Run(s, m, n), |ExprCode(e, m.env.ra, u).code|, r.v, r.st, m.env)
    decreases e, 2
  {
    hide Step, Run, Read, Narrow, Eval, ExprCode, WellTyped, StackNeed, LoadFromA0;
    LoadThroughParts(e, m.env.ra, u, t, m.env);
    var addr, tail := ExprCode(e.a, m.env.ra, u).code, LoadFromA0(e.size, e.uns);
    AtSplit3(m.prog, s.pc, addr, [D0ToA0], tail);
    n := ExprOk(e.a, u, s, m, t);
    var va := Eval(e.a, t, m.env);
    var k := LoadTailOk(Run(s, m, n), m, e.size, e.uns, va.st);
    Joined(s, m, n, |addr|, va.v, va.st, k, 1 + |tail|, Eval(e, t, m.env).v, va.st);
    n := n + k;
  }

  // *(base + index): the index waits in D1 while the base goes to A0.
  lemma IndexedOk(e: IrExpr, u: nat, s: Cpu, m: Machine, t: State) returns (n: nat)
    requires e.Load? && IsIndexedLoad(e) && Ready(e, s, m, t) && Eval(e, t, m.env).Ok?
    requires At(m.prog, s.pc, ExprCode(e, m.env.ra, u).code)
    ensures var r := Eval(e, t, m.env);
      Reached(s, Run(s, m, n), |ExprCode(e, m.env.ra, u).code|, r.v, r.st, m.env)
    decreases e, 2
  {
    hide Step, Run, Read, Narrow, ReadsRightLast, StackNeed, WellTyped, Eval, LoadFrom, ExprCode;
    IndexedCode(e, m.env.ra, u);
    IndexedReady(e, s, m, t);
    IndexedValues(e, s, m, t);
    var base, index := e.a.a, e.a.b;
    var ri := Eval(index, t, m.env);
    var rb := Eval(base, ri.st, m.env);
    var xi := ExprCode(index, m.env.ra, u);
    var xb := ExprCode(base, m.env.ra, xi.uid).code;
    var tail := [D0ToA0, Move(L, Indexed, Dn(0))];
    AtSplit3(m.prog, s.pc, xi.code + [Move(L, Dn(0), Dn(1))], xb, tail);
    n := IndexToD1(e, u, s, m, t);
    var s2 := Run(s, m, n);
    var k := SimpleBaseOk(base, xi.uid, s2, m, ri.st);
    Joined(s, m, n, |xi.code| + 1, ri.v, ri.st, k, |xb|, rb.v, ri.st);
    RunAdd(s, m, n, k);
    n := n + k;
    var s3 := Run(s, m, n);
    assert m.prog[s3.pc + 0] == tail[0] && m.prog[s3.pc + 1] == tail[1];
    IndexedMeaning(e, t, m.env, rb.v.w, ri.v.w, ri.st);
    IndexedTailOk(s3, m, rb.v.w, ri.v.w, e.uns, ri.st);
    Joined(s, m, n, |xi.code| + 1 + |xb|, rb.v, ri.st, 2, 2, Eval(e, t, m.env).v, ri.st);
    n := n + 2;
  }

  lemma IndexedCode(e: IrExpr, ra: map<nat, Reg>, u: nat)
    requires e.Load? && IsIndexedLoad(e)
    ensures var index := ExprCode(e.a.b, ra, u); var base := ExprCode(e.a.a, ra, index.uid);
      ExprCode(e, ra, u).code
      == index.code + [Move(L, Dn(0), Dn(1))] + base.code + [D0ToA0, Move(L, Indexed, Dn(0))]
  {
    assert LeaReg(e.a, ra) == 0;
  }

  lemma IndexToD1(e: IrExpr, u: nat, s: Cpu, m: Machine, t: State) returns (n: nat)
    requires e.Load? && IsIndexedLoad(e) && Ready(e.a.b, s, m, t) && HasValue(Eval(e.a.b, t, m.env))
    requires At(m.prog, s.pc, ExprCode(e.a.b, m.env.ra, u).code + [Move(L, Dn(0), Dn(1))])
    ensures var r := Eval(e.a.b, t, m.env);
      Reached(s, Run(s, m, n), |ExprCode(e.a.b, m.env.ra, u).code| + 1, r.v, r.st, m.env)
      && Run(s, m, n).d[1] == r.v.w
    decreases e, 0
  {
    hide Step, Run, Eval, ExprCode, StackNeed, WellTyped;
    var x := ExprCode(e.a.b, m.env.ra, u).code;
    var r := Eval(e.a.b, t, m.env);
    AtSplit(m.prog, s.pc, x, [Move(L, Dn(0), Dn(1))]);
    n := ExprOk(e.a.b, u, s, m, t);
    var s1 := Run(s, m, n);
    assert m.prog[s1.pc + 0] == [Move(L, Dn(0), Dn(1))][0];
    MoveStep(s1, m, Dn(0), 1);
    Composed(s, m, n, |x|, r.v, r.st, 1, 1, r.v.w);
    RunAdd(s, m, n, 1);
    n := n + 1;
  }

  lemma IndexedReady(e: IrExpr, s: Cpu, m: Machine, t: State)
    requires e.Load? && IsIndexedLoad(e) && Ready(e, s, m, t)
    ensures Ready(e.a.a, s, m, t) && Ready(e.a.b, s, m, t)
  {
    assert WellTyped(e.a) && StackNeed(e) == StackNeed(e.a);
    assert StackNeed(e.a) >= StackNeed(e.a.a) && StackNeed(e.a) >= StackNeed(e.a.b);
  }

  // The base has no effect, so either operand order gives the same address.
  lemma IndexedValues(e: IrExpr, s: Cpu, m: Machine, t: State)
    requires e.Load? && IsIndexedLoad(e) && Ready(e, s, m, t) && Eval(e, t, m.env).Ok?
    ensures var ri := Eval(e.a.b, t, m.env); HasValue(ri) && HasValue(Eval(e.a.a, ri.st, m.env))
    ensures var ri := Eval(e.a.b, t, m.env); var rb := Eval(e.a.a, ri.st, m.env);
      rb.st == ri.st && Eval(e.a, t, m.env) == Ok(W(AddW(rb.v.w, ri.v.w)), ri.st)
  {
    hide Read, Narrow, StackNeed, WellTyped, BinVal;
    var add := e.a;
    IndexedReady(e, s, m, t);
    LoadMeaning(e, t, m.env);
    BinopMeaning(add, t, m.env);
    AddMeaning(add.uns, m.env.undef);
    if m.env.leftFirst(add) {
      SimpleBaseQuiet(add.a, t, m.env);
      SimpleOperandQuiet(add.b, t, m.env);
    } else {
      SimpleBaseQuiet(add.a, Eval(add.b, t, m.env).st, m.env);
    }
  }

  lemma AddMeaning(uns: bool, undef: (Op, bool, Word, Word) -> Word)
    ensures forall a: Word, b: Word :: BinVal(Op.Add, uns, a, b, undef) == AddW(a, b)
  {}

  lemma LoadMeaning(e: IrExpr, t: State, env: Env)
    requires e.Load? && LeaReg(e.a, env.ra) == 0 && Eval(e, t, env).Ok?
    ensures HasValue(Eval(e.a, t, env))
  {}

  lemma BinopMeaning(e: IrExpr, t: State, env: Env)
    requires e.Binop? && Eval(e, t, env).Ok?
    ensures env.leftFirst(e) ==> HasValue(Eval(e.a, t, env)) && HasValue(Eval(e.b, Eval(e.a, t, env).st, env))
    ensures env.leftFirst(e) ==>
      var va := Eval(e.a, t, env);
      var vb := Eval(e.b, va.st, env);
      Eval(e, t, env) == Ok(W(BinVal(e.op, e.uns, va.v.w, vb.v.w, env.undef)), vb.st)
    ensures !env.leftFirst(e) ==> HasValue(Eval(e.b, t, env)) && HasValue(Eval(e.a, Eval(e.b, t, env).st, env))
    ensures !env.leftFirst(e) ==>
      var vb := Eval(e.b, t, env);
      var va := Eval(e.a, vb.st, env);
      Eval(e, t, env) == Ok(W(BinVal(e.op, e.uns, va.v.w, vb.v.w, env.undef)), va.st)
  {
    hide BinVal;
  }

  lemma {:induction false} SimpleBaseQuiet(e: IrExpr, t: State, env: Env)
    requires SimpleVarBase(e) && Eval(e, t, env).Ok?
    ensures Eval(e, t, env).st == t
  {
    hide Read, Narrow;
    match e {
      case Cast(_, _, _, _, _, a) => SimpleBaseQuiet(a, t, env);
      case _ =>
    }
  }

  lemma IndexedMeaning(e: IrExpr, t: State, env: Env, base: Word, index: Word, t2: State)
    requires e.Load? && IsIndexedLoad(e) && Eval(e.a, t, env) == Ok(W(AddW(base, index)), t2)
    ensures Eval(e, t, env) == LoadFrom(AddW(base, index), 4, e.uns, t2, env)
    ensures Eval(e, t, env).Ok? ==> Eval(e, t, env).st == t2
  {}

  lemma IndexedTailOk(s: Cpu, m: Machine, base: Word, index: Word, uns: bool, t: State)
    requires Loaded(m) && s.pc + 1 < |m.prog| && m.prog[s.pc] == D0ToA0 && m.prog[s.pc + 1] == Move(L, Indexed, Dn(0))
    requires StandsFor(s, t, m.env) && s.d[0] == base && s.d[1] == index
    requires LoadFrom(AddW(base, index), 4, uns, t, m.env).Ok?
    ensures Reached(s, Run(s, m, 2), 2, LoadFrom(AddW(base, index), 4, uns, t, m.env).v, t, m.env)
  {
    hide Step, Run, Read;
    A0Step(s, m, t);
    var s1 := Run(s, m, 1);
    MoveStep(s1, m, Indexed, 0);
    ReadAgree(s.mem, t.mem, AddW(base, index), 4, m.env.lo, m.env.top);
    assert AddW(base, index) == Slot(base, index);
    Composed(s, m, 1, 1, W(base), t, 1, 1, Run(s1, m, 1).d[0]);
  }

  lemma StoreOk(e: IrExpr, u: nat, s: Cpu, m: Machine, t: State) returns (n: nat)
    requires e.Store? && Ready(e, s, m, t) && Eval(e, t, m.env).Ok?
    requires At(m.prog, s.pc, ExprCode(e, m.env.ra, u).code)
    ensures var r := Eval(e, t, m.env);
      Reached(s, Run(s, m, n), |ExprCode(e, m.env.ra, u).code|, r.v, r.st, m.env)
    decreases e, 3
  {
    if LeaReg(e.a, m.env.ra) != 0 || (e.a.Lea? && e.size <= 4) {
      n := StoreVarOk(e, u, s, m, t);
    } else {
      n := StoreThroughOk(e, u, s, m, t);
    }
  }

  // To a promoted variable, or directly to a named one.
  lemma StoreVarOk(e: IrExpr, u: nat, s: Cpu, m: Machine, t: State) returns (n: nat)
    requires e.Store? && Ready(e, s, m, t) && Eval(e, t, m.env).Ok?
    requires LeaReg(e.a, m.env.ra) != 0 || (e.a.Lea? && e.size <= 4)
    requires At(m.prog, s.pc, ExprCode(e, m.env.ra, u).code)
    ensures var r := Eval(e, t, m.env);
      Reached(s, Run(s, m, n), |ExprCode(e, m.env.ra, u).code|, r.v, r.st, m.env)
    decreases e, 2
  {
    hide Step, Run, Write, ExprCode, Eval, WellTyped, StackNeed;
    var env := m.env;
    var r := LeaReg(e.a, env.ra);
    var vb := Eval(e.b, t, env);
    var x := ExprCode(e.b, env.ra, u).code;
    var last := if r != 0 then Move(L, Dn(0), RegEa(r)) else Move(StoreSize(e.size), Dn(0), PlaceEa(e.a.place));
    StoreVarParts(e, t, env);
    StoreCode(e, env.ra, u);
    AtSplit(m.prog, s.pc, x, [last]);
    n := ExprOk(e.b, u, s, m, t);
    var s1 := Run(s, m, n);
    assert m.prog[s1.pc + 0] == [last][0];
    if r != 0 {
      StoreRegStep(s1, m, Dn(0), r, vb.st);
    } else {
      StoreStep(s1, m, e.size, PlaceEa(e.a.place), PlaceAddr(e.a.place, env), vb.st);
    }
    Joined(s, m, n, |x|, vb.v, vb.st, 1, 1, Eval(e, t, env).v, Eval(e, t, env).st);
    n := n + 1;
  }

  lemma StoreVarParts(e: IrExpr, t: State, env: Env)
    requires e.Store? && WellTyped(e) && Eval(e, t, env).Ok? && GoodEnv(env)
    requires LeaReg(e.a, env.ra) != 0 || (e.a.Lea? && e.size <= 4)
    ensures WellTyped(e.b) && StackNeed(e.b) <= StackNeed(e) && HasValue(Eval(e.b, t, env))
    ensures var vb := Eval(e.b, t, env); var r := LeaReg(e.a, env.ra);
      Eval(e, t, env)
      == if r != 0 then Ok(vb.v, SetReg(r, vb.v.w, vb.st)) else StoreTo(PlaceAddr(e.a.place, env), e.size, vb.v.w, vb.st, env)
  {
    hide Write;
  }

  lemma StoreThroughParts(e: IrExpr, ra: map<nat, Reg>, u: nat, t: State, env: Env)
    requires e.Store? && LeaReg(e.a, ra) == 0 && !(e.a.Lea? && e.size <= 4) && env.ra == ra
    requires WellTyped(e) && Eval(e, t, env).Ok?
    ensures WellTyped(e.a) && WellTyped(e.b) && StackNeed(e.a) <= StackNeed(e) && 1 + StackNeed(e.b) <= StackNeed(e)
    ensures HasValue(Eval(e.a, t, env)) && HasValue(Eval(e.b, Eval(e.a, t, env).st, env))
    ensures var va := Eval(e.a, t, env);
      var vb := Eval(e.b, va.st, env);
      Eval(e, t, env) == StoreTo(va.v.w, e.size, vb.v.w, vb.st, env) && Eval(e, t, env).v == vb.v
    ensures var x := ExprCode(e.a, ra, u);
      ExprCode(e, ra, u).code
      == x.code + [PushD0] + ExprCode(e.b, ra, x.uid).code + [PopA1] + [Move(StoreSize(e.size), Dn(0), Ind(1))]
  {
    hide Write;
    var x := ExprCode(e.a, ra, u);
    var last := Move(StoreSize(e.size), Dn(0), Ind(1));
    assert [PopA1, last] == [PopA1] + [last];
  }

  // The address waits on the stack while the value is computed.
  lemma StoreThroughOk(e: IrExpr, u: nat, s: Cpu, m: Machine, t: State) returns (n: nat)
    requires e.Store? && Ready(e, s, m, t) && Eval(e, t, m.env).Ok?
    requires LeaReg(e.a, m.env.ra) == 0 && !(e.a.Lea? && e.size <= 4)
    requires At(m.prog, s.pc, ExprCode(e, m.env.ra, u).code)
    ensures var r := Eval(e, t, m.env);
      Reached(s, Run(s, m, n), |ExprCode(e, m.env.ra, u).code|, r.v, r.st, m.env)
    decreases e, 2
  {
    hide Step, Run, Write, Eval, ExprCode, WellTyped, StackNeed, StoreTo;
    StoreThroughParts(e, m.env.ra, u, t, m.env);
    var env := m.env;
    var va := Eval(e.a, t, env);
    var vb := Eval(e.b, va.st, env);
    var xa := ExprCode(e.a, env.ra, u);
    var xb := ExprCode(e.b, env.ra, xa.uid).code;
    var last := Move(StoreSize(e.size), Dn(0), Ind(1));
    var code := xa.code + [PushD0] + xb + [PopA1];
    AtSplit(m.prog, s.pc, code, [last]);
    n := TwoOnStack(e, e.a, e.b, An(1), u, s, m, t);
    var s4 := Run(s, m, n);
    assert m.prog[s4.pc + 0] == [last][0];
    StoreStep(s4, m, e.size, Ind(1), va.v.w, vb.st);
    Joined(s, m, n, |code|, vb.v, vb.st, 1, 1, Eval(e, t, env).v, Eval(e, t, env).st);
    n := n + 1;
  }

  // One value waits on the stack while another is computed, then goes to D1 or A1.
  lemma TwoOnStack(e: IrExpr, p: IrExpr, q: IrExpr, dst: Ea, u: nat, s: Cpu, m: Machine, t: State) returns (n: nat)
    requires p < e && q < e && (dst == Dn(1) || dst == An(1))
    requires Ready(p, s, m, t) && WellTyped(q) && Sp(s) - 4 - 4 * StackNeed(q) >= m.env.lo
    requires HasValue(Eval(p, t, m.env)) && HasValue(Eval(q, Eval(p, t, m.env).st, m.env))
    requires var x := ExprCode(p, m.env.ra, u);
      At(m.prog, s.pc, x.code + [PushD0] + ExprCode(q, m.env.ra, x.uid).code + [Move(L, PopSp, dst)])
    ensures var x := ExprCode(p, m.env.ra, u); var y := ExprCode(q, m.env.ra, x.uid);
      var vp := Eval(p, t, m.env); var vq := Eval(q, vp.st, m.env); var r := Run(s, m, n);
      Reached(s, r, |x.code| + |y.code| + 2, vq.v, vq.st, m.env)
      && (if dst == Dn(1) then r.d[1] else r.a[1]) == vp.v.w
    decreases e, 0
  {
    hide Step, Run, Eval, ExprCode, StackNeed, WellTyped, Read;
    var x := ExprCode(p, m.env.ra, u);
    var y := ExprCode(q, m.env.ra, x.uid).code;
    var vp := Eval(p, t, m.env);
    var vq := Eval(q, vp.st, m.env);
    AtSplit3(m.prog, s.pc, x.code + [PushD0], y, [Move(L, PopSp, dst)]);
    AtSplit(m.prog, s.pc, x.code, [PushD0]);
    n := ExprOk(p, u, s, m, t);
    var s1 := Run(s, m, n);
    assert m.prog[s1.pc + 0] == [PushD0][0];
    PushStep(s1, m, vp.st);
    var s2 := Run(s1, m, 1);
    var k := ExprOk(q, x.uid, s2, m, vp.st);
    var s3 := Run(s2, m, k);
    assert m.prog[s3.pc + 0] == [Move(L, PopSp, dst)][0];
    PushedThenPopped(s1, s2, m, vp.v.w, vp.st, s3, |y|, vq.v, vq.st, dst);
    ReachedThen(s, s1, |x.code|, vp.v, vp.st, Run(s3, m, 1), |y| + 2, vq.v, vq.st, m.env);
    RunAdd(s, m, n, 1);
    RunAdd(s, m, n + 1, k);
    RunAdd(s, m, n + 1 + k, 1);
    n := n + 1 + k + 1;
  }

  lemma UnaryParts(e: IrExpr, ra: map<nat, Reg>, u: nat, t: State, env: Env)
    requires e.Unary? && WellTyped(e) && Eval(e, t, env).Ok?
    ensures WellTyped(e.a) && StackNeed(e.a) <= StackNeed(e)
    ensures var va := Eval(e.a, t, env);
      HasValue(va) && Eval(e, t, env) == Ok(W(UnVal(e.uop, va.v.w)), va.st)
    ensures ExprCode(e, ra, u).code == ExprCode(e.a, ra, u).code + UnaryTail(e.uop)
  {}

  lemma UnaryOk(e: IrExpr, u: nat, s: Cpu, m: Machine, t: State) returns (n: nat)
    requires e.Unary? && Ready(e, s, m, t) && Eval(e, t, m.env).Ok?
    requires At(m.prog, s.pc, ExprCode(e, m.env.ra, u).code)
    ensures var r := Eval(e, t, m.env);
      Reached(s, Run(s, m, n), |ExprCode(e, m.env.ra, u).code|, r.v, r.st, m.env)
    decreases e, 3
  {
    hide Step, Run, NegW, Words.Not, Eval, ExprCode, WellTyped, StackNeed;
    UnaryParts(e, m.env.ra, u, t, m.env);
    var va := Eval(e.a, t, m.env);
    var x := ExprCode(e.a, m.env.ra, u).code;
    var tail := UnaryTail(e.uop);
    AtSplit(m.prog, s.pc, x, tail);
    n := ExprOk(e.a, u, s, m, t);
    var s1 := Run(s, m, n);
    assert m.prog[s1.pc + 0] == tail[0];
    match e.uop {
      case Neg => NegStep(s1, m);
      case BitNot => NotStep(s1, m);
      case LogNot => TestSetOk(s1, m, EQ);
    }
    Composed(s, m, n, |x|, va.v, va.st, |tail|, |tail|, Eval(e, t, m.env).v.w);
    n := n + |tail|;
  }

  lemma NotStep(s: Cpu, m: Machine)
    requires s.pc < |m.prog| && m.prog[s.pc] == NotL(0)
    ensures Computed(s, Run(s, m, 1), 1, Words.Not(s.d[0]))
  {
    hide AluVal, ShiftVal, CallStep, Scratch, BinVal, Insert, Narrow, CmpFlags, Target;
    assert Run(s, m, 1) == Step(s, m);
  }

  lemma CommaParts(e: IrExpr, ra: map<nat, Reg>, u: nat, t: State, env: Env)
    requires e.Comma? && WellTyped(e) && Eval(e, t, env).Ok?
    ensures WellTyped(e.a) && WellTyped(e.b) && StackNeed(e.a) <= StackNeed(e) && StackNeed(e.b) <= StackNeed(e)
    ensures var va := Eval(e.a, t, env); va.Ok? && Eval(e, t, env) == Eval(e.b, va.st, env)
    ensures var x := ExprCode(e.a, ra, u); ExprCode(e, ra, u).code == x.code + ExprCode(e.b, ra, x.uid).code
  {}

  lemma CommaOk(e: IrExpr, u: nat, s: Cpu, m: Machine, t: State) returns (n: nat)
    requires e.Comma? && Ready(e, s, m, t) && Eval(e, t, m.env).Ok?
    requires At(m.prog, s.pc, ExprCode(e, m.env.ra, u).code)
    ensures var r := Eval(e, t, m.env);
      Reached(s, Run(s, m, n), |ExprCode(e, m.env.ra, u).code|, r.v, r.st, m.env)
    decreases e, 3
  {
    hide Step, Run, Eval, ExprCode, WellTyped, StackNeed;
    CommaParts(e, m.env.ra, u, t, m.env);
    var va := Eval(e.a, t, m.env);
    var x := ExprCode(e.a, m.env.ra, u);
    var y := ExprCode(e.b, m.env.ra, x.uid).code;
    AtSplit(m.prog, s.pc, x.code, y);
    n := ExprOk(e.a, u, s, m, t);
    var k := ExprOk(e.b, x.uid, Run(s, m, n), m, va.st);
    Joined(s, m, n, |x.code|, va.v, va.st, k, |y|, Eval(e, t, m.env).v, Eval(e, t, m.env).st);
    n := n + k;
  }

  lemma CastOk(e: IrExpr, u: nat, s: Cpu, m: Machine, t: State) returns (n: nat)
    requires e.Cast? && Ready(e, s, m, t) && Eval(e, t, m.env).Ok?
    requires At(m.prog, s.pc, ExprCode(e, m.env.ra, u).code)
    ensures var r := Eval(e, t, m.env);
      Reached(s, Run(s, m, n), |ExprCode(e, m.env.ra, u).code|, r.v, r.st, m.env)
    decreases e, 3
  {
    hide Step, Run, CastVal;
    var va := Eval(e.a, t, m.env);
    var x := ExprCode(e.a, m.env.ra, u).code;
    var tail := CastTail(e.to, e.size, e.uns);
    AtSplit(m.prog, s.pc, x, tail);
    n := ExprOk(e.a, u, s, m, t);
    if e.to != TyVoid {
      var k := CastTailOk(Run(s, m, n), m, e.to, e.size, e.uns);
      Composed(s, m, n, |x|, va.v, va.st, k, |tail|, Eval(e, t, m.env).v.w);
      n := n + k;
    }
  }

  lemma VdefOk(e: IrExpr, u: nat, s: Cpu, m: Machine, t: State) returns (n: nat)
    requires e.Vdef? && Ready(e, s, m, t) && Eval(e, t, m.env).Ok?
    requires At(m.prog, s.pc, ExprCode(e, m.env.ra, u).code)
    ensures var r := Eval(e, t, m.env);
      Reached(s, Run(s, m, n), |ExprCode(e, m.env.ra, u).code|, r.v, r.st, m.env)
    decreases e, 3
  {
    hide Step, Run;
    var va := Eval(e.a, t, m.env);
    var x := ExprCode(e.a, m.env.ra, u).code;
    AtSplit(m.prog, s.pc, x, if e.reg != 0 then [Move(L, Dn(0), RegEa(e.reg))] else []);
    n := ExprOk(e.a, u, s, m, t);
    if e.reg != 0 {
      var last := Move(L, Dn(0), RegEa(e.reg));
      var s1 := Run(s, m, n);
      assert m.prog[s1.pc + 0] == [last][0];
      StoreRegStep(s1, m, Dn(0), e.reg, va.st);
      Joined(s, m, n, |x|, va.v, va.st, 1, 1, va.v, Eval(e, t, m.env).st);
      n := n + 1;
    }
  }

  lemma VuseOk(e: IrExpr, u: nat, s: Cpu, m: Machine, t: State) returns (n: nat)
    requires e.Vuse? && Ready(e, s, m, t) && Eval(e, t, m.env).Ok?
    requires At(m.prog, s.pc, ExprCode(e, m.env.ra, u).code)
    ensures var r := Eval(e, t, m.env);
      Reached(s, Run(s, m, n), |ExprCode(e, m.env.ra, u).code|, r.v, r.st, m.env)
  {
    hide Step, Run;
    n := 0;
    ShortRun(s, m);
    if e.reg != 0 {
      n := 1;
      assert m.prog[s.pc + 0] == ExprCode(e, m.env.ra, u).code[0];
      LoadRegStep(s, m, e.reg);
      ReachedNow(s, Void, t, m.env);
      ReachedComputed(s, s, 0, Void, t, Run(s, m, 1), 1, RegVal(s, e.reg), m.env);
    }
  }

  // ---- short-circuit operators and ?: -----------------------------------------------

  // tst.l d0 and a branch on zero or not zero.
  lemma TestBranchOk(s: Cpu, m: Machine, cc: Cc, l: Label, at: nat, t: State)
    requires Loaded(m) && (cc == EQ || cc == NE) && At(m.prog, s.pc, [Tst(0), Bcc(cc, l)])
    requires at < |m.prog| && m.prog[at] == Lab(l) && StandsFor(s, t, m.env)
    ensures Arrived(s, Run(s, m, 2), if (s.d[0] == 0) == (cc == EQ) then at else s.pc + 2, t, m.env)
  {
    hide Step, Run;
    var code := [Tst(0), Bcc(cc, l)];
    assert m.prog[s.pc + 0] == code[0] && m.prog[s.pc + 1] == code[1];
    TstStep(s, m);
    BccStep(Run(s, m, 1), m, cc, l, at);
    RunAdd(s, m, 1, 1);
  }

  // The two ways into the end of && and ||: through the first line, or at the label.
  lemma BoolTailOk(s: Cpu, m: Machine, hi: Word, lo: Word, no: Label, end: Label, q: nat, t: State)
    requires Loaded(m) && StandsFor(s, t, m.env) && (s.pc == q || s.pc == q + 2)
    requires At(m.prog, q, [Move(L, Imm(hi), Dn(0)), Bra(end), Lab(no), Move(L, Imm(lo), Dn(0)), Lab(end)])
    ensures var r := Run(s, m, 3);
      Arrived(s, r, q + 5, t, m.env) && r.d[0] == if s.pc == q then hi else lo
  {
    hide Run, Arrived;
    var code := [Move(L, Imm(hi), Dn(0)), Bra(end), Lab(no), Move(L, Imm(lo), Dn(0)), Lab(end)];
    assert m.prog[q + 0] == code[0] && m.prog[q + 1] == code[1] && m.prog[q + 2] == code[2];
    assert m.prog[q + 3] == code[3] && m.prog[q + 4] == code[4];
    if s.pc == q { OverTail(s, m, hi, end, q, t); } else { ThroughTail(s, m, lo, no, q, t); }
    LastLabel(s, m, end, q + 4, t, if s.pc == q then hi else lo);
  }

  lemma OverTail(s: Cpu, m: Machine, hi: Word, end: Label, q: nat, t: State)
    requires Loaded(m) && StandsFor(s, t, m.env) && s.pc == q && q + 4 < |m.prog|
    requires m.prog[q] == Move(L, Imm(hi), Dn(0)) && m.prog[q + 1] == Bra(end) && m.prog[q + 4] == Lab(end)
    ensures var r := Run(Run(s, m, 1), m, 1); Arrived(s, r, q + 4, t, m.env) && r.d[0] == hi
  {
    hide Step, Run;
    MoveStep(s, m, Imm(hi), 0);
    BranchStep(Run(s, m, 1), m, end, q + 4);
  }

  lemma ThroughTail(s: Cpu, m: Machine, lo: Word, no: Label, q: nat, t: State)
    requires Loaded(m) && StandsFor(s, t, m.env) && s.pc == q + 2 && q + 3 < |m.prog|
    requires m.prog[q + 2] == Lab(no) && m.prog[q + 3] == Move(L, Imm(lo), Dn(0))
    ensures var r := Run(Run(s, m, 1), m, 1); Arrived(s, r, q + 4, t, m.env) && r.d[0] == lo
  {
    hide Step, Run;
    LabelStep(s, m, no);
    MoveStep(Run(s, m, 1), m, Imm(lo), 0);
  }

  lemma LastLabel(s: Cpu, m: Machine, end: Label, at: nat, t: State, v: Word)
    requires Loaded(m) && at < |m.prog| && m.prog[at] == Lab(end)
    requires var u := Run(Run(s, m, 1), m, 1); Arrived(s, u, at, t, m.env) && u.d[0] == v
    ensures var r := Run(s, m, 3); Arrived(s, r, at + 1, t, m.env) && r.d[0] == v
  {
    hide Step, Run;
    RunAdd(s, m, 1, 1);
    LabelStep(Run(s, m, 2), m, end);
    RunAdd(s, m, 2, 1);
  }

  lemma PairReady(e: IrExpr)
    requires (e.LogAnd? || e.LogOr?) && WellTyped(e)
    ensures WellTyped(e.a) && WellTyped(e.b) && StackNeed(e.a) <= StackNeed(e) && StackNeed(e.b) <= StackNeed(e)
  {}

  lemma ShortCircuitMeaning(e: IrExpr, t: State, env: Env)
    requires (e.LogAnd? || e.LogOr?) && Eval(e, t, env).Ok?
    ensures HasValue(Eval(e.a, t, env))
    ensures var va := Eval(e.a, t, env);
      if (va.v.w == 0) == e.LogAnd? then Eval(e, t, env) == Ok(W(Truth(e.LogOr?)), va.st)
      else
        var vb := Eval(e.b, va.st, env);
        HasValue(vb) && Eval(e, t, env) == Ok(W(Truth(vb.v.w != 0)), vb.st)
  {}

  lemma ShortCircuitOk(e: IrExpr, u: nat, s: Cpu, m: Machine, t: State) returns (n: nat)
    requires (e.LogAnd? || e.LogOr?) && Ready(e, s, m, t) && Eval(e, t, m.env).Ok?
    requires At(m.prog, s.pc, ExprCode(e, m.env.ra, u).code)
    ensures var r := Eval(e, t, m.env);
      Reached(s, Run(s, m, n), |ExprCode(e, m.env.ra, u).code|, r.v, r.st, m.env)
    decreases e, 3
  {
    hide Step, Run, Eval, WellTyped, StackNeed, ExprCode, Arrived, StandsFor;
    PairReady(e);
    ShortCircuitMeaning(e, t, m.env);
    var isAnd := e.LogAnd?;
    var cc := if isAnd then EQ else NE;
    var no, end := Lbl(if isAnd then "L_false_" else "L_true_", u), Lbl("L_end_", u);
    var hi: Word, lo: Word := Truth(isAnd), Truth(!isAnd);
    var test := [Tst(0), Bcc(cc, no)];
    var tail := [Move(L, Imm(hi), Dn(0)), Bra(end), Lab(no), Move(L, Imm(lo), Dn(0)), Lab(end)];
    var x := ExprCode(e.a, m.env.ra, u + 1);
    var y := ExprCode(e.b, m.env.ra, x.uid).code;
    ShortCircuitCode(e, m.env.ra, u);
    AtSplit3(m.prog, s.pc, x.code + test + y, test, tail);
    AtSplit3(m.prog, s.pc, x.code, test, y);
    var q := s.pc + |x.code| + |y| + 4;
    assert m.prog[q + 2] == tail[2];
    var va := Eval(e.a, t, m.env);
    var stop := (va.v.w == 0) == isAnd;
    var st := Eval(e, t, m.env).st;
    n := TestedOk(e, e.a, u + 1, s, m, t, cc, no, q + 2);
    var at := q + 2;
    if !stop {
      var s2 := Run(s, m, n);
      var vb := Eval(e.b, va.st, m.env);
      ArrivedReady(s, s2, m, s.pc + |x.code| + 2, va.st, e.b);
      var k := TestedOk(e, e.b, x.uid, s2, m, va.st, cc, no, q + 2);
      at := if (vb.v.w == 0) == isAnd then q + 2 else q;
      JoinedAt(s, m, n, s2.pc, va.st, k, at, st);
      n := n + k;
    }
    var s4 := Run(s, m, n);
    ArrivedStands(s, s4, at, st, m.env);
    BoolTailOk(s4, m, hi, lo, no, end, q, st);
    JoinedAt(s, m, n, at, st, 3, q + 5, st);
    n := n + 3;
  }

  // Evaluate an operand and branch on its truth.
  lemma TestedOk(e: IrExpr, x: IrExpr, u: nat, s: Cpu, m: Machine, t: State, cc: Cc, no: Label, at: nat)
    returns (n: nat)
    requires x < e && Ready(x, s, m, t) && HasValue(Eval(x, t, m.env)) && (cc == EQ || cc == NE)
    requires At(m.prog, s.pc, ExprCode(x, m.env.ra, u).code) 
    requires At(m.prog, s.pc + |ExprCode(x, m.env.ra, u).code|, [Tst(0), Bcc(cc, no)])
    requires at < |m.prog| && m.prog[at] == Lab(no)
    ensures var v := Eval(x, t, m.env);
      Arrived(s, Run(s, m, n),
              if (v.v.w == 0) == (cc == EQ) then at else s.pc + |ExprCode(x, m.env.ra, u).code| + 2, v.st, m.env)
    decreases e, 0
  {
    hide Step, Run, Eval, ExprCode, WellTyped, StackNeed;
    var v := Eval(x, t, m.env);
    n := ExprOk(x, u, s, m, t);
    var s1 := Run(s, m, n);
    TestBranchOk(s1, m, cc, no, at, v.st);
    JoinedAt(s, m, n, s1.pc, v.st, 2, Run(s1, m, 2).pc, v.st);
    n := n + 2;
  }

  lemma CondExprParts(e: IrExpr, t: State, env: Env)
    requires e.Cond? && WellTyped(e) && Eval(e, t, env).Ok?
    ensures WellTyped(e.a) && WellTyped(e.b) && WellTyped(e.c)
    ensures StackNeed(e.a) <= StackNeed(e) && StackNeed(e.b) <= StackNeed(e) && StackNeed(e.c) <= StackNeed(e)
    ensures var va := Eval(e.a, t, env);
      HasValue(va) && Eval(e, t, env) == if va.v.w != 0 then Eval(e.b, va.st, env) else Eval(e.c, va.st, env)
  {}

  lemma CondExprOk(e: IrExpr, u: nat, s: Cpu, m: Machine, t: State) returns (n: nat)
    requires e.Cond? && Ready(e, s, m, t) && Eval(e, t, m.env).Ok?
    requires At(m.prog, s.pc, ExprCode(e, m.env.ra, u).code)
    ensures var r := Eval(e, t, m.env);
      Reached(s, Run(s, m, n), |ExprCode(e, m.env.ra, u).code|, r.v, r.st, m.env)
    decreases e, 3
  {
    hide Step, Run, Eval, WellTyped, StackNeed, ExprCode, CondCode;
    CondExprCode(e, m.env.ra, u);
    CondExprParts(e, t, m.env);
    var els, end := Lbl("L_else_", u), Lbl("L_end_", u);
    var x := CondCode(e.a, els, false, m.env.ra, u + 1);
    var y := ExprCode(e.b, m.env.ra, x.uid);
    var z := ExprCode(e.c, m.env.ra, y.uid).code;
    var mid := [Bra(end), Lab(els)];
    AtSplit3(m.prog, s.pc, x.code + y.code + mid, z, [Lab(end)]);
    AtSplit3(m.prog, s.pc, x.code, y.code, mid);
    var q := s.pc + |x.code| + |y.code|;
    var last := q + 2 + |z|;
    assert m.prog[q + 0] == mid[0] && m.prog[q + 1] == mid[1] && m.prog[last + 0] == [Lab(end)][0];
    var va := Eval(e.a, t, m.env);
    n := CondOk(e.a, els, q + 1, false, u + 1, s, m, t);
    var s1 := Run(s, m, n);
    var k;
    if va.v.w != 0 {
      k := ThenArmOk(e, e.b, x.uid, s1, m, va.st, end, last);
    } else {
      k := ElseArmOk(e, e.c, y.uid, s1, m, va.st, els, end, last);
    }
    RunAdd(s, m, n, k);
    n := n + k;
  }

  // The first arm, the jump over the second one, and the end label.
  lemma ThenArmOk(e: IrExpr, x: IrExpr, u: nat, s: Cpu, m: Machine, t: State, end: Label, last: nat) returns (n: nat)
    requires x < e && Ready(x, s, m, t) && Eval(x, t, m.env).Ok? && At(m.prog, s.pc, ExprCode(x, m.env.ra, u).code)
    requires var q := s.pc + |ExprCode(x, m.env.ra, u).code|; q < last < |m.prog| && m.prog[q] == Bra(end)
    requires m.prog[last] == Lab(end)
    ensures var r := Eval(x, t, m.env);
      Reached(s, Run(s, m, n), last + 1 - s.pc, r.v, r.st, m.env)
    decreases e, 0
  {
    hide Step, Run, Eval, ExprCode, WellTyped, StackNeed;
    n := ExprOk(x, u, s, m, t);
    BranchStep(Run(s, m, n), m, end, last);
    RunAdd(s, m, n, 1);
    LabelStep(Run(s, m, n + 1), m, end);
    RunAdd(s, m, n + 1, 1);
    n := n + 2;
  }

  lemma ElseArmOk(e: IrExpr, x: IrExpr, u: nat, s: Cpu, m: Machine, t: State, els: Label, end: Label, last: nat)
    returns (n: nat)
    requires x < e && Ready(x, s, m, t) && Eval(x, t, m.env).Ok? && s.pc < |m.prog| && m.prog[s.pc] == Lab(els)
    requires At(m.prog, s.pc + 1, ExprCode(x, m.env.ra, u).code)
    requires last == s.pc + 1 + |ExprCode(x, m.env.ra, u).code| && last < |m.prog| && m.prog[last] == Lab(end)
    ensures var r := Eval(x, t, m.env);
      Reached(s, Run(s, m, n), last + 1 - s.pc, r.v, r.st, m.env)
    decreases e, 0
  {
    hide Step, Run, Eval, ExprCode, WellTyped, StackNeed;
    LabelStep(s, m, els);
    var k := ExprOk(x, u, Run(s, m, 1), m, t);
    RunAdd(s, m, 1, k);
    LabelStep(Run(s, m, 1 + k), m, end);
    RunAdd(s, m, 1 + k, 1);
    n := 1 + k + 1;
  }

  // Control reaches the label exactly when the truth of the expression equals `when`,
  // and the end of the code otherwise.
  lemma {:induction false} CondOk(e: IrExpr, target: Label, at: nat, when: bool, u: nat, s: Cpu, m: Machine, t: State)
    returns (n: nat)
    requires Ready(e, s, m, t) && HasValue(Eval(e, t, m.env))
    requires At(m.prog, s.pc, CondCode(e, target, when, m.env.ra, u).code)
    requires at < |m.prog| && m.prog[at] == Lab(target)
    ensures var r := Eval(e, t, m.env);
      Arrived(s, Run(s, m, n),
              if (r.v.w != 0) == when then at else s.pc + |CondCode(e, target, when, m.env.ra, u).code|,
              r.st, m.env)
    decreases e, 7
  {
    hide Step, Run, Eval, CondCode, WellTyped, StackNeed;
    if e.Unary? && e.uop == LogNot {
      UnaryParts(e, m.env.ra, u, t, m.env);
      CondNotCode(e, target, when, m.env.ra, u);
      n := CondOk(e.a, target, at, !when, u, s, m, t);
    } else if e.LogAnd? || e.LogOr? {
      n := CondPairOk(e, target, at, when, u, s, m, t);
    } else if e.Binop? && IsRelation(e.op) {
      n := CondRelationOk(e, target, at, when, u, s, m, t);
    } else {
      n := CondValueOk(e, target, at, when, u, s, m, t);
    }
  }

  lemma CondPairOk(e: IrExpr, target: Label, at: nat, when: bool, u: nat, s: Cpu, m: Machine, t: State)
    returns (n: nat)
    requires (e.LogAnd? || e.LogOr?) && Ready(e, s, m, t) && HasValue(Eval(e, t, m.env))
    requires At(m.prog, s.pc, CondCode(e, target, when, m.env.ra, u).code)
    requires at < |m.prog| && m.prog[at] == Lab(target)
    ensures var r := Eval(e, t, m.env);
      Arrived(s, Run(s, m, n),
              if (r.v.w != 0) == when then at else s.pc + |CondCode(e, target, when, m.env.ra, u).code|,
              r.st, m.env)
    decreases e, 6
  {
    hide Step, Run, Eval, WellTyped, StackNeed, CondCode, Arrived, StandsFor;
    PairReady(e);
    ShortCircuitMeaning(e, t, m.env);
    var va := Eval(e.a, t, m.env);
    var r := Eval(e, t, m.env);
    var direct := e.LogAnd? != when;
    var first := if direct then u else u + 1;
    var skip := if direct then target else Lbl("L_condskip_", u);
    var x := CondCode(e.a, skip, when == direct, m.env.ra, first);
    var y := CondCode(e.b, target, when, m.env.ra, x.uid).code;
    var tail := if direct then [] else [Lab(skip)];
    var end := s.pc + |x.code| + |y|;
    CondPairCode(e, target, when, m.env.ra, u);
    AtSplit3(m.prog, s.pc, x.code, y, tail);
    if !direct { assert m.prog[end + 0] == tail[0]; }
    n := CondOk(e.a, skip, if direct then at else end, when == direct, first, s, m, t);
    if (va.v.w != 0) == (e.LogAnd?) {
      ArrivedReady(s, Run(s, m, n), m, s.pc + |x.code|, va.st, e.b);
      var k := CondOk(e.b, target, at, when, x.uid, Run(s, m, n), m, va.st);
      JoinedAt(s, m, n, s.pc + |x.code|, va.st, k, if (r.v.w != 0) == when then at else end, r.st);
      n := n + k;
    }
    if !direct && !((r.v.w != 0) == when) {
      LabelAfter(s, Run(s, m, n), m, skip, end, r.st);
      RunAdd(s, m, n, 1);
      n := n + 1;
    }
  }

  lemma ArrivedReady(s: Cpu, s1: Cpu, m: Machine, pc: nat, t: State, e: IrExpr)
    requires Arrived(s, s1, pc, t, m.env) && Loaded(m) && FollowsTiles(m.env)
    requires WellTyped(e) && Sp(s) - 4 * StackNeed(e) >= m.env.lo
    ensures Ready(e, s1, m, t) && s1.pc == pc
  {}

  lemma ArrivedStands(s: Cpu, u: Cpu, pc: nat, t: State, env: Env)
    requires Arrived(s, u, pc, t, env)
    ensures StandsFor(u, t, env) && u.pc == pc
  {}

  lemma LabelAfter(s: Cpu, s1: Cpu, m: Machine, l: Label, pc: nat, t: State)
    requires Arrived(s, s1, pc, t, m.env) && pc < |m.prog| && m.prog[pc] == Lab(l)
    ensures Arrived(s, Run(s1, m, 1), pc + 1, t, m.env)
  {
    hide Run;
    LabelStep(s1, m, l);
  }

  lemma CondValueOk(e: IrExpr, target: Label, at: nat, when: bool, u: nat, s: Cpu, m: Machine, t: State)
    returns (n: nat)
    requires Ready(e, s, m, t) && HasValue(Eval(e, t, m.env))
    requires !(e.Unary? && e.uop == LogNot) && !e.LogAnd? && !e.LogOr? && !(e.Binop? && IsRelation(e.op))
    requires At(m.prog, s.pc, CondCode(e, target, when, m.env.ra, u).code)
    requires at < |m.prog| && m.prog[at] == Lab(target)
    ensures var r := Eval(e, t, m.env);
      Arrived(s, Run(s, m, n),
              if (r.v.w != 0) == when then at else s.pc + |CondCode(e, target, when, m.env.ra, u).code|,
              r.st, m.env)
    decreases e, 6
  {
    hide Step, Run, Eval, ExprCode;
    var r := Eval(e, t, m.env);
    var x := ExprCode(e, m.env.ra, u).code;
    var cc := if when then NE else EQ;
    AtSplit(m.prog, s.pc, x, [Tst(0), Bcc(cc, target)]);
    n := ExprOk(e, u, s, m, t);
    var s1 := Run(s, m, n);
    TestBranchOk(s1, m, cc, target, at, r.st);
    JoinedAt(s, m, n, s1.pc, r.st, 2, if (r.v.w != 0) == when then at else s1.pc + 2, r.st);
    n := n + 2;
  }

  lemma CondRelationOk(e: IrExpr, target: Label, at: nat, when: bool, u: nat, s: Cpu, m: Machine, t: State)
    returns (n: nat)
    requires e.Binop? && IsRelation(e.op) && Ready(e, s, m, t) && HasValue(Eval(e, t, m.env))
    requires At(m.prog, s.pc, CondCode(e, target, when, m.env.ra, u).code)
    requires at < |m.prog| && m.prog[at] == Lab(target)
    ensures var r := Eval(e, t, m.env);
      Arrived(s, Run(s, m, n),
              if (r.v.w != 0) == when then at else s.pc + |CondCode(e, target, when, m.env.ra, u).code|,
              r.st, m.env)
    decreases e, 6
  {
    hide Step, Run, Eval, CompareCode, CondCode, Holds, BranchCc, StackNeed, WellTyped, BinVal, CmpFlags, Arrived, StandsFor;
    var r := Eval(e, t, m.env);
    var x := CompareCode(e, m.env.ra, u).code;
    var swapped := ConstOf(e.b).None? && ConstOf(e.a).Some?;
    var rel := if swapped then RelSwap(RelOf(e.op)) else RelOf(e.op);
    var cc := BranchCc(if when then rel else RelNegate(rel), e.uns);
    CondRelationCode(e, target, when, m.env.ra, u);
    AtSplit(m.prog, s.pc, x, [Bcc(cc, target)]);
    assert m.prog[s.pc + |x| + 0] == [Bcc(cc, target)][0];
    var a, b;
    n, a, b := CompareOk(e, u, s, m, t);
    BccAfter(s, Run(s, m, n), m, cc, target, at, s.pc + |x|, r.st);
    RelationBranch(e.op, e.uns, a, b, swapped, when, m.env.undef);
    RunAdd(s, m, n, 1);
    n := n + 1;
  }

  lemma BccAfter(s: Cpu, s1: Cpu, m: Machine, cc: Cc, l: Label, at: nat, pc: nat, t: State)
    requires Loaded(m) && Arrived(s, s1, pc, t, m.env) && pc < |m.prog| && m.prog[pc] == Bcc(cc, l)
    requires at < |m.prog| && m.prog[at] == Lab(l)
    ensures Arrived(s, Run(s1, m, 1), if Holds(cc, s1.f) then at else pc + 1, t, m.env)
  {
    hide Run, Holds;
    BccStep(s1, m, cc, l, at);
  }

  // The chosen branch condition holds exactly when the relation's truth equals `when`.
  lemma RelationBranch(op: Op, uns: bool, a: Word, b: Word, swapped: bool, when: bool,
                       undef: (Op, bool, Word, Word) -> Word)
    requires IsRelation(op)
    ensures var rel := if swapped then RelSwap(RelOf(op)) else RelOf(op);
      Holds(BranchCc(if when then rel else RelNegate(rel), uns), if swapped then CmpFlags(b, a) else CmpFlags(a, b))
      <==> (BinVal(op, uns, a, b, undef) != 0) == when
  {
    CmpMeans(a, b);
    CmpMeans(b, a);
  }

  // ---- operators -----------------------------------------------------------------------

  // Right operand, push, left operand, pop: the left value is in D0 and the right one in D1.
  lemma BothOk(e: IrExpr, u: nat, s: Cpu, m: Machine, t: State) returns (n: nat)
    requires e.Binop? && !ReadsRightLast(e, m.env.ra) && Ready(e, s, m, t) && Eval(e, t, m.env).Ok?
    requires var y := ExprCode(e.b, m.env.ra, u); var x := ExprCode(e.a, m.env.ra, y.uid);
      At(m.prog, s.pc, y.code + [PushD0] + x.code + [PopD1])
    ensures var vb := Eval(e.b, t, m.env);
      HasValue(vb) && HasValue(Eval(e.a, vb.st, m.env))
    ensures var y := ExprCode(e.b, m.env.ra, u); var x := ExprCode(e.a, m.env.ra, y.uid);
      var vb := Eval(e.b, t, m.env); var va := Eval(e.a, vb.st, m.env);
      Reached(s, Run(s, m, n), |y.code| + |x.code| + 2, va.v, va.st, m.env) && Run(s, m, n).d[1] == vb.v.w
      && Eval(e, t, m.env) == Ok(W(BinVal(e.op, e.uns, va.v.w, vb.v.w, m.env.undef)), va.st)
    decreases e, 1
  {
    hide Step, Run, BinVal, Eval, ExprCode;
    BinopMeaning(e, t, m.env);
    n := TwoOnStack(e, e.b, e.a, Dn(1), u, s, m, t);
  }

  lemma CompareOk(e: IrExpr, u: nat, s: Cpu, m: Machine, t: State) returns (n: nat, a: Word, b: Word)
    requires e.Binop? && IsRelation(e.op) && Ready(e, s, m, t) && Eval(e, t, m.env).Ok?
    requires At(m.prog, s.pc, CompareCode(e, m.env.ra, u).code)
    ensures var r := Eval(e, t, m.env); var c := Run(s, m, n);
      && r.v == W(BinVal(e.op, e.uns, a, b, m.env.undef))
      && Arrived(s, c, s.pc + |CompareCode(e, m.env.ra, u).code|, r.st, m.env)
      && c.f == if ConstOf(e.b).None? && ConstOf(e.a).Some? then CmpFlags(b, a) else CmpFlags(a, b)
    decreases e, 3
  {
    hide Step, Run, BinVal, CmpFlags, Eval, ExprCode, ConstOf, SimpleOperand, StackNeed, WellTyped;
    if ConstOf(e.b).Some? || ConstOf(e.a).Some? || SimpleOperand(e.b, m.env.ra).Some? {
      n, a, b := CompareOneOk(e, u, s, m, t);
    } else {
      var y := ExprCode(e.b, m.env.ra, u);
      var x := ExprCode(e.a, m.env.ra, y.uid).code;
      var code := y.code + [PushD0] + x + [PopD1];
      assert CompareCode(e, m.env.ra, u).code == code + [Cmp(Dn(1), 0)];
      AtSplit(m.prog, s.pc, code, [Cmp(Dn(1), 0)]);
      n := BothOk(e, u, s, m, t);
      var s1 := Run(s, m, n);
      assert m.prog[s1.pc + 0] == [Cmp(Dn(1), 0)][0];
      CmpStep(s1, m, Dn(1));
      var vb := Eval(e.b, t, m.env);
      var va := Eval(e.a, vb.st, m.env);
      a, b := va.v.w, vb.v.w;
      Composed(s, m, n, |code|, va.v, va.st, 1, 1, a);
      RunAdd(s, m, n, 1);
      n := n + 1;
    }
  }

  lemma CompareOneOk(e: IrExpr, u: nat, s: Cpu, m: Machine, t: State) returns (n: nat, a: Word, b: Word)
    requires e.Binop? && IsRelation(e.op) && Ready(e, s, m, t) && Eval(e, t, m.env).Ok?
    requires ConstOf(e.b).Some? || ConstOf(e.a).Some? || SimpleOperand(e.b, m.env.ra).Some?
    requires At(m.prog, s.pc, CompareCode(e, m.env.ra, u).code)
    ensures var r := Eval(e, t, m.env); var c := Run(s, m, n);
      && r.v == W(BinVal(e.op, e.uns, a, b, m.env.undef))
      && Arrived(s, c, s.pc + |CompareCode(e, m.env.ra, u).code|, r.st, m.env)
      && c.f == if ConstOf(e.b).None? && ConstOf(e.a).Some? then CmpFlags(b, a) else CmpFlags(a, b)
    decreases e, 2
  {
    hide Step, Run, BinVal, CmpFlags, Eval, ExprCode, ConstOf, SimpleOperand, StackNeed, WellTyped;
    var one := if ConstOf(e.b).None? && ConstOf(e.a).Some? then e.b else e.a;
    var src := if ConstOf(e.b).Some? then Imm(ConstOf(e.b).value)
               else if ConstOf(e.a).Some? then Imm(ConstOf(e.a).value) else SimpleOperand(e.b, m.env.ra).value;
    var x := ExprCode(one, m.env.ra, u).code;
    assert CompareCode(e, m.env.ra, u).code == x + [Cmp(src, 0)];
    AtSplit(m.prog, s.pc, x, [Cmp(src, 0)]);
    a, b := OneOperand(e, s, m, t);
    n := ExprOk(one, u, s, m, t);
    var s1 := Run(s, m, n);
    assert m.prog[s1.pc + 0] == [Cmp(src, 0)][0];
    CmpStep(s1, m, src);
    var v1 := Eval(one, t, m.env);
    if ConstOf(e.b).None? && ConstOf(e.a).None? { LastOperand(e, s1, m, t); }
    Composed(s, m, n, |x|, v1.v, v1.st, 1, 1, v1.v.w);
    RunAdd(s, m, n, 1);
    n := n + 1;
  }

  // When one side is a constant or a folded variable, only the other side is evaluated.
  lemma OneOperand(e: IrExpr, s: Cpu, m: Machine, t: State) returns (a: Word, b: Word)
    requires e.Binop? && Ready(e, s, m, t) && Eval(e, t, m.env).Ok?
    requires ConstOf(e.b).Some? || ConstOf(e.a).Some? || ReadsRightLast(e, m.env.ra)
    ensures var one := if ConstOf(e.b).None? && ConstOf(e.a).Some? then e.b else e.a;
      var v1 := Eval(one, t, m.env);
      && HasValue(v1) && Ready(one, s, m, t)
      && Eval(e, t, m.env) == Ok(W(BinVal(e.op, e.uns, a, b, m.env.undef)), v1.st)
      && v1.v.w == (if one == e.a then a else b)
      && (ConstOf(e.b).Some? ==> b == Wrap(ConstOf(e.b).value) && one == e.a)
      && (ConstOf(e.b).None? && ConstOf(e.a).Some? ==> a == Wrap(ConstOf(e.a).value) && v1.v.w == b)
      && (ConstOf(e.b).None? && ConstOf(e.a).None? ==> Eval(e.b, v1.st, m.env) == Ok(W(b), v1.st))
  {
    hide BinVal, Eval;
    var env := m.env;
    BinopMeaning(e, t, env);
    if ConstOf(e.b).Some? {
      ConstOk(e.b, t, env);
      a, b := Eval(e.a, t, env).v.w, Wrap(ConstOf(e.b).value);
    } else if ConstOf(e.a).Some? {
      ConstOk(e.a, t, env);
      ConstOk(e.a, Eval(e.b, t, env).st, env);
      a, b := Wrap(ConstOf(e.a).value), Eval(e.b, t, env).v.w;
    } else {
      assert env.leftFirst(e);
      var va := Eval(e.a, t, env);
      SimpleOperandQuiet(e.b, va.st, env);
      a, b := va.v.w, Eval(e.b, va.st, env).v.w;
    }
  }

  lemma {:induction false} SimpleOperandQuiet(e: IrExpr, t: State, env: Env)
    requires SimpleOperand(e, env.ra).Some? && Eval(e, t, env).Ok?
    ensures Eval(e, t, env).st == t
  {
    match e {
      case Cast(_, _, _, _, _, a) => SimpleOperandQuiet(a, t, env);
      case _ =>
    }
  }

  // The folded operand read by the machine after the left side is the value it has there.
  lemma LastOperand(e: IrExpr, s1: Cpu, m: Machine, t: State)
    requires Loaded(m) && FollowsTiles(m.env) && WellTyped(e) && ReadsRightLast(e, m.env.ra)
    requires HasValue(Eval(e.a, t, m.env)) && StandsFor(s1, Eval(e.a, t, m.env).st, m.env) && Eval(e, t, m.env).Ok?
    ensures var va := Eval(e.a, t, m.env);
      Eval(e.b, va.st, m.env) == Ok(W(ReadEa(SimpleOperand(e.b, m.env.ra).value, L, s1, m.env)), va.st)
  {
    hide ReadEa;
    assert m.env.leftFirst(e);
    SimpleOperandOk(e.b, s1, m, Eval(e.a, t, m.env).st);
  }

  lemma BinopOk(e: IrExpr, u: nat, s: Cpu, m: Machine, t: State) returns (n: nat)
    requires e.Binop? && Ready(e, s, m, t) && Eval(e, t, m.env).Ok?
    requires At(m.prog, s.pc, ExprCode(e, m.env.ra, u).code)
    ensures var r := Eval(e, t, m.env);
      Reached(s, Run(s, m, n), |ExprCode(e, m.env.ra, u).code|, r.v, r.st, m.env)
    decreases e, 3
  {
    hide Step, Run, BinVal, ConstTail, ConstTailLeft, MemTail, GenericTail, Reached, Computed;
    var ra := m.env.ra;
    var ca, cb := ConstOf(e.a), ConstOf(e.b);
    if cb.Some? && ConstTail(e.op, e.uns, cb.value, u).Some? {
      n := BinopConstRightOk(e, u, s, m, t);
    } else if ca.Some? && ConstTailLeft(e.op, e.uns, ca.value, u).Some? {
      n := BinopConstLeftOk(e, u, s, m, t);
    } else if ReadsRightLast(e, ra) {
      n := BinopMemoryOk(e, u, s, m, t);
    } else {
      n := BinopGenericOk(e, u, s, m, t);
    }
  }

  lemma BinopConstRightOk(e: IrExpr, u: nat, s: Cpu, m: Machine, t: State) returns (n: nat)
    requires e.Binop? && Ready(e, s, m, t) && Eval(e, t, m.env).Ok?
    requires At(m.prog, s.pc, ExprCode(e, m.env.ra, u).code)
    requires ConstOf(e.b).Some? && ConstTail(e.op, e.uns, ConstOf(e.b).value, u).Some?
    ensures var r := Eval(e, t, m.env);
      Reached(s, Run(s, m, n), |ExprCode(e, m.env.ra, u).code|, r.v, r.st, m.env)
    decreases e, 2
  {
    hide Step, Run, BinVal, ConstTail, Computed, Eval;
    var c := ConstOf(e.b).value;
    var tail := ConstTail(e.op, e.uns, c, u).value;
    var x := ExprCode(e.a, m.env.ra, tail.uid).code;
    AtSplit(m.prog, s.pc, x, tail.code);
    var a, b := OneOperand(e, s, m, t);
    var va := Eval(e.a, t, m.env);
    n := ExprOk(e.a, tail.uid, s, m, t);
    var k := ConstTailOk(Run(s, m, n), m, e.op, e.uns, c, u);
    Composed(s, m, n, |x|, va.v, va.st, k, |tail.code|, BinVal(e.op, e.uns, a, b, m.env.undef));
    n := n + k;
  }

  lemma ConstLeftMeaning(e: IrExpr, s: Cpu, m: Machine, t: State)
    requires e.Binop? && Ready(e, s, m, t) && Eval(e, t, m.env).Ok? && ConstOf(e.a).Some?
    ensures Ready(e.b, s, m, t)
    ensures var vb := Eval(e.b, t, m.env);
      HasValue(vb) && Eval(e, t, m.env)
        == Ok(W(BinVal(e.op, e.uns, Wrap(ConstOf(e.a).value), vb.v.w, m.env.undef)), vb.st)
  {
    hide BinVal, Eval;
    BinopMeaning(e, t, m.env);
    ConstOk(e.a, t, m.env);
    ConstOk(e.a, Eval(e.b, t, m.env).st, m.env);
  }

  lemma BinopConstLeftOk(e: IrExpr, u: nat, s: Cpu, m: Machine, t: State) returns (n: nat)
    requires e.Binop? && Ready(e, s, m, t) && Eval(e, t, m.env).Ok?
    requires At(m.prog, s.pc, ExprCode(e, m.env.ra, u).code)
    requires !(ConstOf(e.b).Some? && ConstTail(e.op, e.uns, ConstOf(e.b).value, u).Some?)
    requires ConstOf(e.a).Some? && ConstTailLeft(e.op, e.uns, ConstOf(e.a).value, u).Some?
    ensures var r := Eval(e, t, m.env);
      Reached(s, Run(s, m, n), |ExprCode(e, m.env.ra, u).code|, r.v, r.st, m.env)
    decreases e, 2
  {
    hide Step, Run, BinVal, ConstTail, ConstTailLeft, Computed, Eval, StackNeed, WellTyped;
    var env := m.env;
    var c := ConstOf(e.a).value;
    var tail := ConstTailLeft(e.op, e.uns, c, u).value;
    var y := ExprCode(e.b, env.ra, tail.uid).code;
    AtSplit(m.prog, s.pc, y, tail.code);
    ConstLeftMeaning(e, s, m, t);
    var vb := Eval(e.b, t, env);
    n := ExprOk(e.b, tail.uid, s, m, t);
    var k := ConstTailLeftOk(Run(s, m, n), m, e.op, e.uns, c, u);
    Composed(s, m, n, |y|, vb.v, vb.st, k, |tail.code|, BinVal(e.op, e.uns, Wrap(c), vb.v.w, env.undef));
    n := n + k;
  }

  lemma ConstTailLeftOk(s: Cpu, m: Machine, op: Op, uns: bool, c: Int32, lc: nat) returns (n: nat)
    requires Loaded(m) && ConstTailLeft(op, uns, c, lc).Some?
    requires At(m.prog, s.pc, ConstTailLeft(op, uns, c, lc).value.code)
    ensures Computed(s, Run(s, m, n), |ConstTailLeft(op, uns, c, lc).value.code|,
                     BinVal(op, uns, Wrap(c), s.d[0], m.env.undef))
  {
    hide Step, Run, ConstTail, Computed, And, Or, Xor;
    var x, k := s.d[0], Wrap(c);
    if IsCommutative(op) {
      n := ConstTailOk(s, m, op, uns, c, lc);
      Commutes(op, uns, x, k, m.env.undef);
    } else {
      n := 3;
      var cc := if op == Op.Lt then (if uns then HI else GT) else (if uns then CC else GE);
      CmpMeans(x, k);
      CompareSetOk(s, m, Imm(c), cc, BinVal(op, uns, k, x, m.env.undef));
    }
  }

  lemma Commutes(op: Op, uns: bool, x: Word, y: Word, undef: (Op, bool, Word, Word) -> Word)
    requires IsCommutative(op)
    ensures BinVal(op, uns, x, y, undef) == BinVal(op, uns, y, x, undef)
  {
    hide And, Or, Xor;
    BitwiseCommute(x, y);
    assert x * y == y * x;
  }

  lemma BinopMemoryOk(e: IrExpr, u: nat, s: Cpu, m: Machine, t: State) returns (n: nat)
    requires e.Binop? && Ready(e, s, m, t) && Eval(e, t, m.env).Ok? && ReadsRightLast(e, m.env.ra)
    requires At(m.prog, s.pc, ExprCode(e, m.env.ra, u).code)
    requires !(ConstOf(e.b).Some? && ConstTail(e.op, e.uns, ConstOf(e.b).value, u).Some?)
    requires !(ConstOf(e.a).Some? && ConstTailLeft(e.op, e.uns, ConstOf(e.a).value, u).Some?)
    ensures var r := Eval(e, t, m.env);
      Reached(s, Run(s, m, n), |ExprCode(e, m.env.ra, u).code|, r.v, r.st, m.env)
    decreases e, 2
  {
    hide Step, Run, BinVal, ConstTail, ConstTailLeft, Computed, MemTail, ReadEa;
    var ea := SimpleOperand(e.b, m.env.ra).value;
    var x := ExprCode(e.a, m.env.ra, u).code;
    var tail := MemTail(e.op, e.uns, ea);
    AtSplit(m.prog, s.pc, x, tail);
    assert m.env.leftFirst(e);
    var va := Eval(e.a, t, m.env);
    n := ExprOk(e.a, u, s, m, t);
    var s1 := Run(s, m, n);
    LastOperand(e, s1, m, t);
    var k := MemTailOk(s1, m, e.op, e.uns, ea);
    Composed(s, m, n, |x|, va.v, va.st, k, |tail|, Eval(e, t, m.env).v.w);
    n := n + k;
  }

  lemma MemTailOk(s: Cpu, m: Machine, op: Op, uns: bool, ea: Ea) returns (n: nat)
    requires Loaded(m) && HasMemoryForm(op) && At(m.prog, s.pc, MemTail(op, uns, ea))
    ensures Computed(s, Run(s, m, n), |MemTail(op, uns, ea)|,
                     BinVal(op, uns, s.d[0], ReadEa(ea, L, s, m.env), m.env.undef))
  {
    hide Step, Run, And, Or, ReadEa;
    var code := MemTail(op, uns, ea);
    assert m.prog[s.pc + 0] == code[0];
    if IsRelation(op) {
      n := 3;
      var y := ReadEa(ea, L, s, m.env);
      RelationSet(op, uns, s.d[0], y, m.env.undef);
      CompareSetOk(s, m, ea, RelCc(op, uns), BinVal(op, uns, s.d[0], y, m.env.undef));
    } else {
      n := 1;
      AluStep(s, m, code[0].op, ea);
    }
  }

  lemma BinopGenericOk(e: IrExpr, u: nat, s: Cpu, m: Machine, t: State) returns (n: nat)
    requires e.Binop? && Ready(e, s, m, t) && Eval(e, t, m.env).Ok? && !ReadsRightLast(e, m.env.ra)
    requires At(m.prog, s.pc, ExprCode(e, m.env.ra, u).code)
    requires !(ConstOf(e.b).Some? && ConstTail(e.op, e.uns, ConstOf(e.b).value, u).Some?)
    requires !(ConstOf(e.a).Some? && ConstTailLeft(e.op, e.uns, ConstOf(e.a).value, u).Some?)
    ensures var r := Eval(e, t, m.env);
      Reached(s, Run(s, m, n), |ExprCode(e, m.env.ra, u).code|, r.v, r.st, m.env)
    decreases e, 2
  {
    hide Step, Run, BinVal, ConstTail, ConstTailLeft, GenericTail, Eval, Reached, ExprCode, At, StandsFor, WellTyped, StackNeed;
    BinopGenericCode(e, m.env.ra, u);
    var y := ExprCode(e.b, m.env.ra, u);
    var x := ExprCode(e.a, m.env.ra, y.uid).code;
    var code := y.code + [PushD0] + x + [PopD1];
    AtSplit(m.prog, s.pc, code, GenericTail(e.op, e.uns));
    n := BothOk(e, u, s, m, t);
    var vb := Eval(e.b, t, m.env);
    var va := Eval(e.a, vb.st, m.env);
    var r := Eval(e, t, m.env);
    var k := GenericTailAfter(s, Run(s, m, n), m, e.op, e.uns, |code|, va.v.w, vb.v.w, va.st);
    RunAdd(s, m, n, k);
    n := n + k;
  }

  lemma GenericTailAfter(s: Cpu, s1: Cpu, m: Machine, op: Op, uns: bool, len: nat, a: Word, b: Word, t: State)
    returns (k: nat)
    requires Loaded(m) && Reached(s, s1, len, W(a), t, m.env) && s1.d[1] == b
    requires At(m.prog, s.pc + len, GenericTail(op, uns))
    ensures Reached(s, Run(s1, m, k), len + |GenericTail(op, uns)|, W(BinVal(op, uns, a, b, m.env.undef)), t, m.env)
  {
    hide Run, BinVal, At, GenericTail;
    match op {
      case Mul | Div | Mod => k := HelperTail(s, s1, m, op, uns, len, a, b, t);
      case Eq | Ne | Lt | Le => k := RelationTail(s, s1, m, op, uns, len, a, b, t);
      case Shl | Shr => k := ShiftTail(s, s1, m, op, uns, len, a, b, t);
      case Add | Sub | BitAnd | BitOr | BitXor => k := AluTail(s, s1, m, op, uns, len, a, b, t);
    }
  }

  lemma HelperTail(s: Cpu, s1: Cpu, m: Machine, op: Op, uns: bool, len: nat, a: Word, b: Word, t: State) returns (k: nat)
    requires op.Mul? || op.Div? || op.Mod?
    requires Loaded(m) && Reached(s, s1, len, W(a), t, m.env) && s1.d[1] == b
    requires At(m.prog, s.pc + len, GenericTail(op, uns))
    ensures Reached(s, Run(s1, m, k), len + |GenericTail(op, uns)|, W(BinVal(op, uns, a, b, m.env.undef)), t, m.env)
  {
    hide Step, Run, BinVal;
    k := 1;
    assert m.prog[s1.pc + 0] == GenericTail(op, uns)[0];
    HelperStep(s1, m, op, uns, t);
    ReachedThen(s, s1, len, W(a), t, Run(s1, m, 1), 1, W(BinVal(op, uns, a, b, m.env.undef)), t, m.env);
  }

  lemma RelationTail(s: Cpu, s1: Cpu, m: Machine, op: Op, uns: bool, len: nat, a: Word, b: Word, t: State) returns (k: nat)
    requires op.Eq? || op.Ne? || op.Lt? || op.Le?
    requires Loaded(m) && Reached(s, s1, len, W(a), t, m.env) && s1.d[1] == b
    requires At(m.prog, s.pc + len, GenericTail(op, uns))
    ensures Reached(s, Run(s1, m, k), len + |GenericTail(op, uns)|, W(BinVal(op, uns, a, b, m.env.undef)), t, m.env)
  {
    hide Step, Run, BinVal, Holds, CmpFlags;
    k := 3;
    var v := BinVal(op, uns, a, b, m.env.undef);
    RelationSet(op, uns, a, b, m.env.undef);
    CompareSetOk(s1, m, Dn(1), RelCc(op, uns), v);
    ReachedComputed(s, s1, len, W(a), t, Run(s1, m, 3), 3, v, m.env);
  }

  lemma ShiftTail(s: Cpu, s1: Cpu, m: Machine, op: Op, uns: bool, len: nat, a: Word, b: Word, t: State) returns (k: nat)
    requires op.Shl? || op.Shr?
    requires Loaded(m) && Reached(s, s1, len, W(a), t, m.env) && s1.d[1] == b
    requires At(m.prog, s.pc + len, GenericTail(op, uns))
    ensures Reached(s, Run(s1, m, k), len + |GenericTail(op, uns)|, W(BinVal(op, uns, a, b, m.env.undef)), t, m.env)
  {
    hide Step, Run, Asl, Lsr, Asr;
    k := 1;
    var code := GenericTail(op, uns);
    assert m.prog[s1.pc + 0] == code[0];
    ShiftStep(s1, m, code[0].sop, Dn(1));
    ReachedComputed(s, s1, len, W(a), t, Run(s1, m, 1), 1, BinVal(op, uns, a, b, m.env.undef), m.env);
  }

  lemma AluTail(s: Cpu, s1: Cpu, m: Machine, op: Op, uns: bool, len: nat, a: Word, b: Word, t: State) returns (k: nat)
    requires op.Add? || op.Sub? || op.BitAnd? || op.BitOr? || op.BitXor?
    requires Loaded(m) && Reached(s, s1, len, W(a), t, m.env) && s1.d[1] == b
    requires At(m.prog, s.pc + len, GenericTail(op, uns))
    ensures Reached(s, Run(s1, m, k), len + |GenericTail(op, uns)|, W(BinVal(op, uns, a, b, m.env.undef)), t, m.env)
  {
    hide Step, Run, And, Or, Xor;
    k := 1;
    var code := GenericTail(op, uns);
    assert m.prog[s1.pc + 0] == code[0];
    AluStep(s1, m, code[0].op, Dn(1));
    ReachedComputed(s, s1, len, W(a), t, Run(s1, m, 1), 1, BinVal(op, uns, a, b, m.env.undef), m.env);
  }

  // ---- calls ------------------------------------------------------------------------------

  // After the argument pushes the stack holds the argument values in order.
  lemma {:induction false} ArgsOk(args: seq<IrExpr>, u: nat, s: Cpu, m: Machine, t: State) returns (n: nat)
    requires Loaded(m) && FollowsTiles(m.env) && (forall x | x in args :: WellTyped(x))
    requires StandsFor(s, t, m.env) && Sp(s) - 4 * ArgsNeed(args) >= m.env.lo
    requires EvalArgs(args, t, m.env).ArgsOk?
    requires At(m.prog, s.pc, ArgsCode(args, m.env.ra, u).code)
    ensures var r := EvalArgs(args, t, m.env); var c := Run(s, m, n);
      && |r.vals| == |args|
      && c.pc == s.pc + |ArgsCode(args, m.env.ra, u).code|
      && StandsFor(c, r.st, m.env)
      && Sp(c) == Sp(s) - 4 * |args|
      && StackArgs(c.mem, Sp(c), |args|) == r.vals
      && AgreeInside(c.mem, s.mem, Sp(s), m.env.top)
    decreases args, 0, 1
  {
    hide Step, Run, Read, Eval, ExprCode, WellTyped, StackNeed, StackArgs;
    var env := m.env;
    if args == [] {
      n := 0;
      ShortRun(s, m);
      NoArgs(s);
    } else {
      var rest := ArgsCode(args[1..], env.ra, u);
      var x := ExprCode(args[0], env.ra, rest.uid).code;
      AtSplit3(m.prog, s.pc, rest.code, x, [PushD0]);
      n := ArgsOk(args[1..], u, s, m, t);
      var s1 := Run(s, m, n);
      var r1 := EvalArgs(args[1..], t, env);
      assert args[0] in args;
      var k := OneArgOk(args, rest.uid, s1, m, r1.st, r1.vals);
      RunAdd(s, m, n, k);
      n := n + k;
    }
  }

  lemma NoArgs(s: Cpu)
    ensures StackArgs(s.mem, Sp(s), 0) == []
  {}

  lemma OneArgOk(args: seq<IrExpr>, u: nat, s: Cpu, m: Machine, t: State, vals: seq<Word>) returns (n: nat)
    requires args != [] && Loaded(m) && FollowsTiles(m.env) && WellTyped(args[0])
    requires StandsFor(s, t, m.env) && HasValue(Eval(args[0], t, m.env))
    requires Sp(s) - 4 * Max(StackNeed(args[0]), 1) >= m.env.lo
    requires |vals| == |args| - 1 && Sp(s) + 4 * |vals| <= m.env.top && StackArgs(s.mem, Sp(s), |vals|) == vals
    requires At(m.prog, s.pc, ExprCode(args[0], m.env.ra, u).code + [PushD0])
    ensures var v := Eval(args[0], t, m.env); var c := Run(s, m, n);
      && c.pc == s.pc + |ExprCode(args[0], m.env.ra, u).code| + 1
      && StandsFor(c, v.st, m.env)
      && Sp(c) == Sp(s) - 4
      && StackArgs(c.mem, Sp(c), |args|) == [v.v.w] + vals
      && AgreeInside(c.mem, s.mem, Sp(s), m.env.top)
    decreases args, 0, 0
  {
    hide Step, Run, Read, Eval, ExprCode, WellTyped, StackNeed, StackArgs;
    var x := ExprCode(args[0], m.env.ra, u).code;
    AtSplit(m.prog, s.pc, x, [PushD0]);
    var v := Eval(args[0], t, m.env);
    var k := ExprOk(args[0], u, s, m, t);
    var s2 := Run(s, m, k);
    assert m.prog[s2.pc + 0] == [PushD0][0];
    PushStep(s2, m, v.st);
    var s3 := Run(s2, m, 1);
    StackArgsKept(s3.mem, s.mem, Sp(s), |vals|, Sp(s), m.env.top);
    RunAdd(s, m, k, 1);
    n := k + 1;
    ArgsStack(s3, Sp(s3), |args|, v.v.w, vals);
  }

  lemma ArgsStack(s: Cpu, sp: int, n: nat, v: Word, vals: seq<Word>)
    requires n > 0 && Read(s.mem, sp, 4) == v && StackArgs(s.mem, sp + 4, n - 1) == vals
    ensures StackArgs(s.mem, sp, n) == [v] + vals
  {
    hide Read;
  }

  lemma CallDirectOk(e: IrExpr, u: nat, s: Cpu, m: Machine, t: State) returns (n: nat)
    requires e.CallDirect? && Ready(e, s, m, t) && Eval(e, t, m.env).Ok?
    requires At(m.prog, s.pc, ExprCode(e, m.env.ra, u).code)
    ensures var r := Eval(e, t, m.env);
      Reached(s, Run(s, m, n), |ExprCode(e, m.env.ra, u).code|, r.v, r.st, m.env)
    decreases e, 3
  {
    hide Step, Run, StackArgs, Invoke, PopArgs, Called, Reached, Eval, StackNeed, WellTyped;
    CallDirectParts(e, m.env.ra, u, s, m, t);
    var k := |e.args|;
    var x := ArgsCode(e.args, m.env.ra, u).code;
    var jsr := Jsr(Abs(e.name), k);
    AtSplit3(m.prog, s.pc, x, [jsr], PopArgs(k));
    n := ArgsOk(e.args, u, s, m, t);
    var rs := EvalArgs(e.args, t, m.env);
    var s1 := Run(s, m, n);
    assert m.prog[s1.pc + 0] == [jsr][0];
    CallStepOk(s1, m, Abs(e.name), m.env.sym(e.name), rs.vals, rs.st);
    var r := Eval(e, t, m.env);
    CalledPc(s1, Run(s1, m, 1), 1, k, r.v, r.st, m.env);
    var j := AfterCall(s, s1, Run(s1, m, 1), m, k, 1, r);
    RunAdd3(s, m, n, 1, j);
    n := n + 1 + j;
  }

  lemma CallDirectParts(e: IrExpr, ra: map<nat, Reg>, u: nat, s: Cpu, m: Machine, t: State)
    requires e.CallDirect? && Ready(e, s, m, t) && Eval(e, t, m.env).Ok?
    ensures (forall x | x in e.args :: WellTyped(x)) && ArgsNeed(e.args) <= StackNeed(e)
    ensures var rs := EvalArgs(e.args, t, m.env);
      rs.ArgsOk? && Eval(e, t, m.env) == Invoke(m.env.sym(e.name), rs.vals, rs.st, m.env)
    ensures ExprCode(e, ra, u).code == ArgsCode(e.args, ra, u).code + [Jsr(Abs(e.name), |e.args|)] + PopArgs(|e.args|)
  {
    hide Invoke;
  }

  lemma RunAdd3(s: Cpu, m: Machine, i: nat, j: nat, k: nat)
    ensures Run(Run(Run(s, m, i), m, j), m, k) == Run(s, m, i + j + k)
  {
    hide Run;
    RunAdd(s, m, i, j);
    RunAdd(s, m, i + j, k);
  }

  // Dropping the arguments restores SP; the stack above them was not touched.
  lemma AfterCall(s: Cpu, s1: Cpu, s2: Cpu, m: Machine, k: nat, len: nat, r: Result) returns (n: nat)
    requires Loaded(m) && r.Ok? && s1.pc >= s.pc
    requires Sp(s1) == Sp(s) - 4 * k && AgreeInside(s1.mem, s.mem, Sp(s), m.env.top) && Sp(s) <= m.env.top
    requires Called(s1, s2, len, k, r.v, r.st, m.env)
    requires At(m.prog, s2.pc, PopArgs(k))
    ensures Reached(s, Run(s2, m, n), s1.pc - s.pc + len + |PopArgs(k)|, r.v, r.st, m.env)
  {
    hide Step, Run, PopArgs;
    n := PopArgsOk(s2, m, k, r.st);
  }

  lemma CallIndirectOk(e: IrExpr, u: nat, s: Cpu, m: Machine, t: State) returns (n: nat)
    requires e.CallIndirect? && Ready(e, s, m, t) && Eval(e, t, m.env).Ok?
    requires At(m.prog, s.pc, ExprCode(e, m.env.ra, u).code)
    ensures var r := Eval(e, t, m.env);
      Reached(s, Run(s, m, n), |ExprCode(e, m.env.ra, u).code|, r.v, r.st, m.env)
    decreases e, 3
  {
    hide Step, Run, StackArgs, Invoke, PopArgs, Eval, StackNeed, WellTyped, Called, Reached, ExprCode, ArgsCode;
    CallIndirectParts(e, s, m, t);
    var k := |e.args|;
    var x := ArgsCode(e.args, m.env.ra, u);
    var f := ExprCode(e.a, m.env.ra, x.uid).code;
    var jsr := [D0ToA0, Jsr(Ind(0), k)];
    CallIndirectCode(e, m.env.ra, u);
    AtSplit3(m.prog, s.pc, x.code + f, jsr, PopArgs(k));
    AtSplit(m.prog, s.pc, x.code, f);
    n := ArgsOk(e.args, u, s, m, t);
    var s1 := Run(s, m, n);
    var i := CalleeCallOk(e, x.uid, s1, m, t);
    var s2 := Run(s1, m, i);
    CalledPc(s1, s2, |f| + 2, k, Eval(e, t, m.env).v, Eval(e, t, m.env).st, m.env);
    var j := AfterCall(s, s1, s2, m, k, |f| + 2, Eval(e, t, m.env));
    RunAdd3(s, m, n, i, j);
    n := n + i + j;
  }

  lemma CalledPc(s: Cpu, u: Cpu, len: nat, k: nat, v: Val, t: State, env: Env)
    requires Called(s, u, len, k, v, t, env)
    ensures u.pc == s.pc + len
  {}

  lemma CallIndirectCode(e: IrExpr, ra: map<nat, Reg>, u: nat)
    requires e.CallIndirect?
    ensures var x := ArgsCode(e.args, ra, u);
      ExprCode(e, ra, u).code
      == x.code + ExprCode(e.a, ra, x.uid).code + [D0ToA0, Jsr(Ind(0), |e.args|)] + PopArgs(|e.args|)
  {}

  lemma CallIndirectParts(e: IrExpr, s: Cpu, m: Machine, t: State)
    requires e.CallIndirect? && Ready(e, s, m, t) && Eval(e, t, m.env).Ok?
    ensures WellTyped(e.a) && (forall x | x in e.args :: WellTyped(x))
    ensures ArgsNeed(e.args) <= StackNeed(e) && |e.args| + StackNeed(e.a) <= StackNeed(e)
    ensures EvalArgs(e.args, t, m.env).ArgsOk? && HasValue(Eval(e.a, EvalArgs(e.args, t, m.env).st, m.env))
    ensures var rs := EvalArgs(e.args, t, m.env);
      var va := Eval(e.a, rs.st, m.env);
      Eval(e, t, m.env) == Invoke(va.v.w, rs.vals, va.st, m.env)
  {
    hide Invoke;
  }

  lemma InvokeReturns(f: Word, args: seq<Word>, st: State, env: Env)
    ensures Invoke(f, args, st, env).Ok? && Invoke(f, args, st, env).v.W?
  {}

  // With the arguments on the stack, compute the function's address and call it.
  lemma CalleeCallOk(e: IrExpr, u: nat, s: Cpu, m: Machine, t: State) returns (n: nat)
    requires e.CallIndirect? && Loaded(m) && FollowsTiles(m.env) && WellTyped(e.a)
    requires EvalArgs(e.args, t, m.env).ArgsOk?
    requires var rs := EvalArgs(e.args, t, m.env);
      && |rs.vals| == |e.args| && StandsFor(s, rs.st, m.env) && Sp(s) - 4 * StackNeed(e.a) >= m.env.lo
      && Sp(s) + 4 * |e.args| <= m.env.top && StackArgs(s.mem, Sp(s), |e.args|) == rs.vals
      && HasValue(Eval(e.a, rs.st, m.env))
      && Eval(e, t, m.env) == Invoke(Eval(e.a, rs.st, m.env).v.w, rs.vals, Eval(e.a, rs.st, m.env).st, m.env)
    requires At(m.prog, s.pc, ExprCode(e.a, m.env.ra, u).code)
    requires At(m.prog, s.pc + |ExprCode(e.a, m.env.ra, u).code|, [D0ToA0, Jsr(Ind(0), |e.args|)])
    ensures var r := Eval(e, t, m.env);
      r.Ok? && Called(s, Run(s, m, n), |ExprCode(e.a, m.env.ra, u).code| + 2, |e.args|, r.v, r.st, m.env)
    decreases e, 2
  {
    hide Step, Run, StackArgs, Eval, EvalArgs, Invoke, StackNeed, WellTyped, ExprCode;
    var rs := EvalArgs(e.args, t, m.env);
    var f := ExprCode(e.a, m.env.ra, u).code;
    var va := Eval(e.a, rs.st, m.env);
    n := ExprOk(e.a, u, s, m, rs.st);
    var s2 := Run(s, m, n);
    InvokeReturns(va.v.w, rs.vals, va.st, m.env);
    ThroughA0(s, s2, m, |f|, va.v.w, rs.vals, va.st);
    RunAdd(s, m, n, 2);
    n := n + 2;
  }

  // The call itself, with the address in D0.
  lemma ThroughA0(s: Cpu, s2: Cpu, m: Machine, len: nat, f: Word, vals: seq<Word>, t: State)
    requires Loaded(m) && Reached(s, s2, len, W(f), t, m.env) && At(m.prog, s2.pc, [D0ToA0, Jsr(Ind(0), |vals|)])
    requires StackArgs(s.mem, Sp(s), |vals|) == vals && m.env.lo <= Sp(s) && Sp(s) + 4 * |vals| <= m.env.top
    ensures var r := Invoke(f, vals, t, m.env);
      r.Ok? && Called(s, Run(s2, m, 2), len + 2, |vals|, r.v, r.st, m.env)
  {
    hide Step, Run, StackArgs, Invoke;
    var jsr := [D0ToA0, Jsr(Ind(0), |vals|)];
    assert m.prog[s2.pc + 0] == jsr[0] && m.prog[s2.pc + 1] == jsr[1];
    A0Step(s2, m, t);
    var s3 := Run(s2, m, 1);
    StackArgsKept(s3.mem, s.mem, Sp(s), |vals|, Sp(s), m.env.top);
    CallStepOk(s3, m, Ind(0), f, vals, t);
    InvokeReturns(f, vals, t, m.env);
    RunAdd(s2, m, 1, 1);
  }
}
