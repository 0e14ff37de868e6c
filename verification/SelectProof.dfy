// Constants, operands and short sequences.
module SelectProof {
  import opened Words
  import opened Memory
  import opened Ir
  import opened M68k
  import opened Select
  import opened Tiles
  import opened Simulate

  // What typing guarantees of the tree: _Bool has size 1. A cleared frame
  // slot must be one the clearing code handles completely (see ClearsExactly).
  predicate WellTyped(e: IrExpr)
    decreases e
  {
    match e
    case Load(a, _, _) => WellTyped(a)
    case Store(a, b, _) => WellTyped(a) && WellTyped(b)
    case Binop(_, _, _, _, a, b) => WellTyped(a) && WellTyped(b)
    case Unary(_, _, _, a) => WellTyped(a)
    case LogAnd(a, b) => WellTyped(a) && WellTyped(b)
    case LogOr(a, b) => WellTyped(a) && WellTyped(b)
    case Cond(a, b, c) => WellTyped(a) && WellTyped(b) && WellTyped(c)
    case Comma(a, b) => WellTyped(a) && WellTyped(b)
    case Cast(to, size, _, _, _, a) => (to == TyBool ==> size == 1) && WellTyped(a)
    case CallDirect(_, args) => forall x | x in args :: WellTyped(x)
    case CallIndirect(a, args) => WellTyped(a) && forall x | x in args :: WellTyped(x)
    case Memzero(_, off, size) => ClearsExactly(off, size)
    case Vdef(_, a) => WellTyped(a)
    case _ => true
  }

  // The clearing loop counts a 16-bit register down from size - 1.
  function BytesCleared(off: int, size: nat): nat {
    if size <= 16 && off % 2 == 0 then size else (size - 1) % 65536 + 1
  }

  predicate ClearsExactly(off: int, size: nat) {
    (size <= 16 && off % 2 == 0) || 1 <= size <= 65536
  }

  lemma ClearsExactlyIff(off: int, size: nat)
    ensures BytesCleared(off, size) == size <==> ClearsExactly(off, size)
  {}

  // Longwords of stack the code for `e` may push.
  function StackNeed(e: IrExpr): nat
    decreases e, 1
  {
    match e
    case Load(a, _, _) => StackNeed(a)
    case Store(a, b, _) => Max(StackNeed(a), 1 + StackNeed(b))
    case Binop(_, _, _, _, a, b) => Max(1 + StackNeed(a), StackNeed(b))
    case Unary(_, _, _, a) => StackNeed(a)
    case LogAnd(a, b) => Max(StackNeed(a), StackNeed(b))
    case LogOr(a, b) => Max(StackNeed(a), StackNeed(b))
    case Cond(a, b, c) => Max(StackNeed(a), Max(StackNeed(b), StackNeed(c)))
    case Comma(a, b) => Max(StackNeed(a), StackNeed(b))
    case Cast(_, _, _, _, _, a) => StackNeed(a)
    case CallDirect(_, args) => ArgsNeed(args)
    case CallIndirect(a, args) => Max(ArgsNeed(args), |args| + StackNeed(a))
    case Vdef(_, a) => StackNeed(a)
    case _ => 0
  }

  function ArgsNeed(args: seq<IrExpr>): nat
    decreases args, 0
  {
    if args == [] then 0
    else Max(ArgsNeed(args[1..]), |args| - 1 + Max(StackNeed(args[0]), 1))
  }

  function Max(a: nat, b: nat): nat { if a < b then b else a }

  // The order of operand evaluation the tiles realize.
  ghost predicate FollowsTiles(env: Env) {
    forall e :: env.leftFirst(e) <==> ReadsRightLast(e, env.ra)
  }

  ghost predicate Ready(e: IrExpr, s: Cpu, m: Machine, t: State) {
    && Loaded(m) && FollowsTiles(m.env)
    && WellTyped(e)
    && StandsFor(s, t, m.env)
    && Sp(s) - 4 * StackNeed(e) >= m.env.lo
  }

  // ---- shapes ---------------------------------------------------------------------------

  lemma {:induction false} ConstOk(e: IrExpr, t: State, env: Env)
    requires ConstOf(e).Some? && WellTyped(e)
    ensures Eval(e, t, env) == Ok(W(Wrap(ConstOf(e).value)), t)
    ensures SimpleOperand(e, env.ra).None?
  {
    match e {
      case Cast(_, _, _, _, _, a) => ConstOk(a, t, env);
      case Num(val, _, _) => assert Wrap(Signed(Wrap(val))) == Wrap(val);
      case _ =>
    }
  }

  lemma {:induction false} SimpleOperandOk(e: IrExpr, s: Cpu, m: Machine, t: State)
    requires Loaded(m) && SimpleOperand(e, m.env.ra).Some? && WellTyped(e)
    requires StandsFor(s, t, m.env) && Eval(e, t, m.env).Ok?
    ensures Eval(e, t, m.env) == Ok(W(ReadEa(SimpleOperand(e, m.env.ra).value, L, s, m.env)), t)
  {
    hide Read;
    match e {
      case Cast(_, _, _, _, _, a) => SimpleOperandOk(a, s, m, t);
      case Load(a, size, uns) =>
        if LeaReg(a, m.env.ra) == 0 {
          var p := PlaceAddr(a.place, m.env);
          ReadAgree(s.mem, t.mem, p, 4, m.env.lo, m.env.top);
        }
      case _ =>
    }
  }

  // A simple base touches only D0 and A0, so an index in D1 survives it.
  lemma {:induction false} SimpleBaseOk(e: IrExpr, u: nat, s: Cpu, m: Machine, t: State) returns (n: nat)
    requires SimpleVarBase(e) && Ready(e, s, m, t) && HasValue(Eval(e, t, m.env))
    requires At(m.prog, s.pc, ExprCode(e, m.env.ra, u).code)
    ensures Eval(e, t, m.env).st == t
    ensures var r := Run(s, m, n);
      Reached(s, r, |ExprCode(e, m.env.ra, u).code|, Eval(e, t, m.env).v, t, m.env) && r.d[1] == s.d[1]
  {
    hide Step, Run, Read, CastTail, CastVal, Computed;
    match e {
      case Cast(to, size, uns, _, _, a) =>
        var x := ExprCode(a, m.env.ra, u).code;
        AtSplit(m.prog, s.pc, x, CastTail(to, size, uns));
        n := SimpleBaseOk(a, u, s, m, t);
        var k := CastTailOk(Run(s, m, n), m, to, size, uns);
        Composed(s, m, n, |x|, Eval(a, t, m.env).v, t, k, |CastTail(to, size, uns)|, Eval(e, t, m.env).v.w);
        RunAdd(s, m, n, k);
        n := n + k;
      case Lea(p) =>
        n := 2;
        LeaCodeOk(e, u, s, m, t);
      case Load(a, size, uns) =>
        n := LoadVarOk(e, u, s, m, t);
    }
  }

  lemma CastTailOk(s: Cpu, m: Machine, to: TypeKind, size: nat, uns: bool) returns (n: nat)
    requires Loaded(m) && to != TyVoid && At(m.prog, s.pc, CastTail(to, size, uns))
    ensures Computed(s, Run(s, m, n), |CastTail(to, size, uns)|, CastVal(to, size, uns, s.d[0]))
    ensures Run(s, m, n).d[1] == s.d[1]
  {
    hide Step, Run, Narrow;
    if to == TyBool {
      n := 3;
      TestSetOk(s, m, NE);
    } else {
      n := NarrowOk(s, m, size, uns);
    }
  }

  // tst.l d0 followed by a set on zero or not zero.
  lemma TestSetOk(s: Cpu, m: Machine, cc: Cc)
    requires Loaded(m) && (cc == EQ || cc == NE) && At(m.prog, s.pc, [Tst(0)] + SetBool(cc))
    ensures Computed(s, Run(s, m, 3), 3, Truth((s.d[0] == 0) == (cc == EQ)))
    ensures Run(s, m, 3).d[1] == s.d[1]
  {
    hide Step, Run;
    AtSplit(m.prog, s.pc, [Tst(0)], SetBool(cc));
    assert m.prog[s.pc + 0] == [Tst(0)][0];
    TstStep(s, m);
    SetBoolOk(Run(s, m, 1), m, cc);
    Chain(s, m, 1, 1, s.d[0], 2, 2, Truth((s.d[0] == 0) == (cc == EQ)));
  }

  lemma LeaCodeOk(e: IrExpr, u: nat, s: Cpu, m: Machine, t: State)
    requires e.Lea? && Ready(e, s, m, t) && At(m.prog, s.pc, ExprCode(e, m.env.ra, u).code)
    ensures Reached(s, Run(s, m, 2), 2, Eval(e, t, m.env).v, t, m.env) && Run(s, m, 2).d[1] == s.d[1]
  {
    hide Step, Run;
    var code := ExprCode(e, m.env.ra, u).code;
    assert m.prog[s.pc + 0] == code[0] && m.prog[s.pc + 1] == code[1];
    LeaSteps(s, m, e.place, t);
  }

  lemma LoadVarOk(e: IrExpr, u: nat, s: Cpu, m: Machine, t: State) returns (n: nat)
    requires e.Load? && e.a.Lea? && Ready(e, s, m, t) && HasValue(Eval(e, t, m.env))
    requires At(m.prog, s.pc, ExprCode(e, m.env.ra, u).code)
    ensures Eval(e, t, m.env).st == t
    ensures var r := Run(s, m, n);
      Reached(s, r, |ExprCode(e, m.env.ra, u).code|, Eval(e, t, m.env).v, t, m.env) && r.d[1] == s.d[1]
  {
    hide Step, Run, Read;
    var code := ExprCode(e, m.env.ra, u).code;
    var r := LeaReg(e.a, m.env.ra);
    if r != 0 {
      n := 1;
      assert m.prog[s.pc + 0] == code[0];
      LoadRegStep(s, m, r);
      ReachedNow(s, Void, t, m.env);
      ReachedComputed(s, s, 0, Void, t, Run(s, m, 1), 1, RegVal(s, r), m.env);
    } else {
      var addr := ExprCode(e.a, m.env.ra, u).code;
      AtSplit3(m.prog, s.pc, addr, [D0ToA0], LoadFromA0(e.size, e.uns));
      LeaCodeOk(e.a, u, s, m, t);
      var k := LoadTailOk(Run(s, m, 2), m, e.size, e.uns, t);
      Joined(s, m, 2, 2, Eval(e.a, t, m.env).v, t, k, 1 + |LoadFromA0(e.size, e.uns)|, Eval(e, t, m.env).v, t);
      n := 2 + k;
      RunAdd(s, m, 2, k);
    }
  }

  // movea.l d0,a0 and a load through it.
  lemma LoadTailOk(s: Cpu, m: Machine, size: nat, uns: bool, t: State) returns (n: nat)
    requires Loaded(m) && StandsFor(s, t, m.env) && LoadFrom(s.d[0], size, uns, t, m.env).Ok?
    requires At(m.prog, s.pc, [D0ToA0] + LoadFromA0(size, uns))
    ensures Reached(s, Run(s, m, n), 1 + |LoadFromA0(size, uns)|, LoadFrom(s.d[0], size, uns, t, m.env).v, t, m.env)
    ensures Run(s, m, n).d[1] == s.d[1]
  {
    hide Step, Run, Read, Narrow;
    AtSplit(m.prog, s.pc, [D0ToA0], LoadFromA0(size, uns));
    assert m.prog[s.pc + 0] == [D0ToA0][0];
    A0Step(s, m, t);
    var s1 := Run(s, m, 1);
    var p := s.d[0];
    ReadAgree(s.mem, t.mem, p, Width(size), m.env.lo, m.env.top);
    ReadIsWord(t.mem, p, Width(size));
    var x := Read(t.mem, p, Width(size));
    var k := LoadFromA0Ok(s1, m, size, uns, x);
    Composed(s, m, 1, 1, W(s.d[0]), t, k, |LoadFromA0(size, uns)|, Narrow(size, uns, x));
    n := 1 + k;
    RunAdd(s, m, 1, k);
  }
}
