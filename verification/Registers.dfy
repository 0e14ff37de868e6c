// Which promoted registers an expression may change.
module Registers {
  import opened Words
  import opened Memory
  import opened Ir
  import opened M68k
  import opened Select
  import opened Tiles
  import opened Simulate
  import opened SelectProof
  import opened Selection

  function NonZero(r: Reg): set<Reg> { if r == 0 then {} else {r} }

  // Registers of promoted variables that `e` stores or clears, and of the value
  // temporaries it defines.
  function Written(e: IrExpr, ra: map<nat, Reg>): set<Reg>
    decreases e, 1
  {
    match e
    case Nop | Num(_, _, _) | Lea(_) | Vuse(_) => {}
    case Load(a, _, _) => Written(a, ra)
    case Store(a, b, _) => NonZero(LeaReg(a, ra)) + Written(a, ra) + Written(b, ra)
    case Binop(_, _, _, _, a, b) => Written(a, ra) + Written(b, ra)
    case Unary(_, _, _, a) => Written(a, ra)
    case LogAnd(a, b) => Written(a, ra) + Written(b, ra)
    case LogOr(a, b) => Written(a, ra) + Written(b, ra)
    case Cond(a, b, c) => Written(a, ra) + Written(b, ra) + Written(c, ra)
    case Comma(a, b) => Written(a, ra) + Written(b, ra)
    case Cast(_, _, _, _, _, a) => Written(a, ra)
    case CallDirect(_, args) => ArgsWritten(args, ra)
    case CallIndirect(a, args) => ArgsWritten(args, ra) + Written(a, ra)
    case Memzero(v, _, _) => NonZero(RegOf(ra, v))
    case Vdef(reg, a) => NonZero(reg) + Written(a, ra)
  }

  function ArgsWritten(args: seq<IrExpr>, ra: map<nat, Reg>): set<Reg>
    decreases args, 0
  {
    if args == [] then {} else Written(args[0], ra) + ArgsWritten(args[1..], ra)
  }

  ghost predicate Keeps(t: State, t2: State, r: Reg) { t2.regs[r] == t.regs[r] }

  lemma {:induction false} EvalKeeps(e: IrExpr, t: State, env: Env, r: Reg)
    requires r !in Written(e, env.ra) && Eval(e, t, env).Ok?
    ensures Keeps(t, Eval(e, t, env).st, r)
    decreases e, 1
  {
    hide Read, Write, BinVal, Narrow, CastVal, UnVal;
    match e {
      case Nop | Num(_, _, _) | Lea(_) | Vuse(_) | Memzero(_, _, _) =>
      case Load(a, _, _) => if LeaReg(a, env.ra) == 0 { EvalKeeps(a, t, env, r); }
      case Store(_, _, _) => StoreKeeps(e, t, env, r);
      case Binop(_, _, _, _, _, _) | LogAnd(_, _) | LogOr(_, _) | Cond(_, _, _) | Comma(_, _) => PairKeeps(e, t, env, r);
      case Unary(_, _, _, a) => EvalKeeps(a, t, env, r);
      case Cast(_, _, _, _, _, a) => EvalKeeps(a, t, env, r);
      case CallDirect(_, args) => ArgsKeep(args, t, env, r);
      case CallIndirect(a, args) => ArgsKeep(args, t, env, r); EvalKeeps(a, EvalArgs(args, t, env).st, env, r);
      case Vdef(_, a) => EvalKeeps(a, t, env, r);
    }
  }

  lemma StoreKeeps(e: IrExpr, t: State, env: Env, r: Reg)
    requires e.Store? && r !in Written(e, env.ra) && Eval(e, t, env).Ok?
    ensures Keeps(t, Eval(e, t, env).st, r)
    decreases e, 0
  {
    hide Write;
    if LeaReg(e.a, env.ra) != 0 {
      EvalKeeps(e.b, t, env, r);
    } else {
      EvalKeeps(e.a, t, env, r);
      EvalKeeps(e.b, Eval(e.a, t, env).st, env, r);
    }
  }

  lemma PairKeeps(e: IrExpr, t: State, env: Env, r: Reg)
    requires (e.Binop? || e.LogAnd? || e.LogOr? || e.Cond? || e.Comma?) && r !in Written(e, env.ra) && Eval(e, t, env).Ok?
    ensures Keeps(t, Eval(e, t, env).st, r)
    decreases e, 0
  {
    hide BinVal;
    if e.Binop? && !env.leftFirst(e) {
      EvalKeeps(e.b, t, env, r);
      EvalKeeps(e.a, Eval(e.b, t, env).st, env, r);
    } else {
      var va := Eval(e.a, t, env);
      EvalKeeps(e.a, t, env, r);
      if e.Binop? || e.Comma? || (va.v.w != 0) != e.LogOr? { EvalKeeps(e.b, va.st, env, r); }
      else if e.Cond? { EvalKeeps(e.c, va.st, env, r); }
    }
  }

  lemma ArgsKeep(args: seq<IrExpr>, t: State, env: Env, r: Reg)
    requires r !in ArgsWritten(args, env.ra) && EvalArgs(args, t, env).ArgsOk?
    ensures Keeps(t, EvalArgs(args, t, env).st, r)
    decreases args, 0
  {
    hide Eval, Written;
    if args != [] {
      ArgsKeep(args[1..], t, env, r);
      EvalKeeps(args[0], EvalArgs(args[1..], t, env).st, env, r);
    }
  }

  // The emitted code changes no D2-D7 or A2-A5 register but those.
  lemma CodeKeeps(e: IrExpr, u: nat, s: Cpu, m: Machine, t: State, r: Reg) returns (n: nat)
    requires Ready(e, s, m, t) && Eval(e, t, m.env).Ok?
    requires At(m.prog, s.pc, ExprCode(e, m.env.ra, u).code)
    requires r != 0 && r !in Written(e, m.env.ra)
    ensures Run(s, m, n).pc == s.pc + |ExprCode(e, m.env.ra, u).code|
    ensures RegVal(Run(s, m, n), r) == RegVal(s, r)
  {
    hide Step, Run, Eval, ExprCode, Written, Ready;
    n := ExprOk(e, u, s, m, t);
    EvalKeeps(e, t, m.env, r);
    ReadyStands(e, s, m, t);
  }

  lemma ReadyStands(e: IrExpr, s: Cpu, m: Machine, t: State)
    requires Ready(e, s, m, t)
    ensures InRegs(s, t.regs)
  {}
}
