// Folding keeps value and effects.
module FoldProof {
  import opened Words
  import opened Memory
  import opened Ir
  import opened Select
  import opened Fold

  // Operators evaluate their right operand first, as the generic code does.
  ghost predicate RightFirst(env: Env) { forall e :: !env.leftFirst(e) }

  // A promoted variable occurs only as the target of a load or store.
  predicate AddressSafe(e: IrExpr, ra: map<nat, Reg>)
    decreases e
  {
    match e
    case Lea(_) => LeaReg(e, ra) == 0
    case Load(a, _, _) => a.Lea? || AddressSafe(a, ra)
    case Store(a, b, _) => (a.Lea? || AddressSafe(a, ra)) && AddressSafe(b, ra)
    case Binop(_, _, _, _, a, b) => AddressSafe(a, ra) && AddressSafe(b, ra)
    case Unary(_, _, _, a) => AddressSafe(a, ra)
    case LogAnd(a, b) => AddressSafe(a, ra) && AddressSafe(b, ra)
    case LogOr(a, b) => AddressSafe(a, ra) && AddressSafe(b, ra)
    case Cond(a, b, c) => AddressSafe(a, ra) && AddressSafe(b, ra) && AddressSafe(c, ra)
    case Comma(a, b) => AddressSafe(a, ra) && AddressSafe(b, ra)
    case Cast(_, _, _, _, _, a) => AddressSafe(a, ra)
    case CallDirect(_, args) => forall x | x in args :: AddressSafe(x, ra)
    case CallIndirect(a, args) => AddressSafe(a, ra) && forall x | x in args :: AddressSafe(x, ra)
    case Vdef(_, a) => AddressSafe(a, ra)
    case Nop | Num(_, _, _) | Memzero(_, _, _) | Vuse(_) => true
  }

  lemma {:induction false} PureQuiet(e: IrExpr, t: State, env: Env)
    requires IePure(e) && Eval(e, t, env).Ok?
    ensures Eval(e, t, env).st == t
    decreases e
  {
    hide Read, BinVal, CastVal, Narrow;
    match e {
      case Load(a, _, _) => if LeaReg(a, env.ra) == 0 { PureQuiet(a, t, env); }
      case Binop(_, _, _, _, a, b) =>
        if env.leftFirst(e) { PureQuiet(a, t, env); PureQuiet(b, t, env); }
        else { PureQuiet(b, t, env); PureQuiet(a, t, env); }
      case Unary(_, _, _, a) => PureQuiet(a, t, env);
      case LogAnd(a, b) => PureQuiet(a, t, env); if Eval(a, t, env).v.w != 0 { PureQuiet(b, t, env); }
      case LogOr(a, b) => PureQuiet(a, t, env); if Eval(a, t, env).v.w == 0 { PureQuiet(b, t, env); }
      case Cond(a, b, c) =>
        PureQuiet(a, t, env);
        if Eval(a, t, env).v.w != 0 { PureQuiet(b, t, env); } else { PureQuiet(c, t, env); }
      case Comma(a, b) => PureQuiet(a, t, env); PureQuiet(b, t, env);
      case Cast(_, _, _, _, _, a) => PureQuiet(a, t, env);
      case Nop | Num(_, _, _) | Lea(_) | Vuse(_) =>
    }
  }

  lemma {:induction false} TrivialPure(e: IrExpr)
    requires IeTrivial(e)
    ensures IePure(e)
    decreases e
  {
    match e {
      case Binop(_, _, _, _, a, b) => TrivialPure(a); TrivialPure(b);
      case Unary(_, _, _, a) => TrivialPure(a);
      case LogAnd(a, b) => TrivialPure(a); TrivialPure(b);
      case LogOr(a, b) => TrivialPure(a); TrivialPure(b);
      case Cond(a, b, c) => TrivialPure(a); TrivialPure(b); TrivialPure(c);
      case Comma(a, b) => TrivialPure(a); TrivialPure(b);
      case Cast(_, _, _, _, _, a) => TrivialPure(a);
      case Nop | Num(_, _, _) | Lea(_) =>
    }
  }

  // Structurally equal expressions have the same meaning everywhere.
  lemma {:induction false} EqualMeaning(x: IrExpr, y: IrExpr, t: State, env: Env)
    requires RightFirst(env) && IeEqual(x, y)
    ensures Eval(x, t, env) == Eval(y, t, env)
    decreases x
  {
    hide Read, BinVal, CastVal, Narrow, LoadFrom;
    match x {
      case Load(a, _, _) => EqualMeaning(a, y.a, t, env);
      case Cast(_, _, _, _, _, a) => EqualMeaning(a, y.a, t, env);
      case Unary(_, _, _, a) => EqualMeaning(a, y.a, t, env);
      case Binop(_, _, _, _, a, b) =>
        assert !env.leftFirst(x) && !env.leftFirst(y);
        EqualMeaning(b, y.b, t, env);
        if HasValue(Eval(b, t, env)) { EqualMeaning(a, y.a, Eval(b, t, env).st, env); }
      case Num(_, _, _) | Lea(_) =>
    }
  }

  // ---- one node ----------------------------------------------------------------------

  lemma NumMeaning(v: int, size: nat, uns: bool, t: State, env: Env)
    ensures Eval(NumNew(v, size, uns), t, env) == Ok(W(Wrap(v)), t)
  {}

  lemma IeNumMeaning(e: IrExpr, t: State, env: Env)
    requires IeNum(e).Some?
    ensures Eval(e, t, env) == Ok(W(Wrap(IeNum(e).value)), t)
    ensures Signed(Wrap(IeNum(e).value)) == IeNum(e).value
  {}

  lemma SignedBack(w: Word)
    ensures Wrap(Signed(w)) == w
  {}

  lemma Signs(a: Int32)
    ensures Signed(Wrap(a)) == a
  {}

  lemma FoldDivisionOk(op: Op, uns: bool, a: Int32, b: Int32, undef: (Op, bool, Word, Word) -> Word)
    requires (op == Op.Div || op == Op.Mod) && FoldBinop(op, uns, a, b).Some?
    ensures Wrap(FoldBinop(op, uns, a, b).value) == BinVal(op, uns, Wrap(a), Wrap(b), undef)
  {
    hide TruncDiv, TruncMod;
    Signs(a);
    Signs(b);
    assert DivDefined(uns, Wrap(a), Wrap(b));
    SignedBack(BinVal(op, uns, Wrap(a), Wrap(b), undef));
  }

  lemma FoldShiftOk(op: Op, uns: bool, a: Int32, b: Int32, undef: (Op, bool, Word, Word) -> Word)
    requires (op == Op.Shl || op == Op.Shr) && FoldBinop(op, uns, a, b).Some?
    ensures Wrap(FoldBinop(op, uns, a, b).value) == BinVal(op, uns, Wrap(a), Wrap(b), undef)
  {
    hide Pow2;
    Signs(a);
    assert Wrap(b) == b && Wrap(b) % 64 == b;
    Pow2Positive(b);
    SignedBack(BinVal(op, uns, Wrap(a), Wrap(b), undef));
    if op == Op.Shr && uns { DivBound(Wrap(a), Pow2(b)); SmallWrap(Wrap(a) / Pow2(b)); }
  }

  lemma SmallWrap(x: Word)
    ensures Wrap(x) == x
  {}

  // Folding an operator on two constants gives the operator's value.
  lemma FoldBinopOk(op: Op, uns: bool, a: Int32, b: Int32, undef: (Op, bool, Word, Word) -> Word)
    requires FoldBinop(op, uns, a, b).Some?
    ensures Wrap(FoldBinop(op, uns, a, b).value) == BinVal(op, uns, Wrap(a), Wrap(b), undef)
  {
    hide And, Or, Xor;
    if op == Op.Div || op == Op.Mod {
      FoldDivisionOk(op, uns, a, b, undef);
    } else if op == Op.Shl || op == Op.Shr {
      FoldShiftOk(op, uns, a, b, undef);
    } else {
      Signs(a);
      Signs(b);
      SignedBack(BinVal(op, uns, Wrap(a), Wrap(b), undef));
    }
  }

  // The algebra behind the identities.
  lemma IdentityValues(op: Op, uns: bool, x: Word, undef: (Op, bool, Word, Word) -> Word)
    ensures op == Op.Add || op == Op.Sub || op == Op.BitOr || op == Op.BitXor || op == Op.Shl || op == Op.Shr ==>
      BinVal(op, uns, x, 0, undef) == x
    ensures op == Op.Add || op == Op.BitOr || op == Op.BitXor ==> BinVal(op, uns, 0, x, undef) == x
    ensures op == Op.Mul ==> BinVal(op, uns, x, 1, undef) == x && BinVal(op, uns, 1, x, undef) == x
    ensures op == Op.BitAnd ==>
      BinVal(op, uns, x, MODULUS - 1, undef) == x && BinVal(op, uns, MODULUS - 1, x, undef) == x
    ensures op == Op.Mul || op == Op.BitAnd ==>
      BinVal(op, uns, x, 0, undef) == 0 && BinVal(op, uns, 0, x, undef) == 0
    ensures BinVal(Op.Add, uns, x, x, undef) == BinVal(Op.Shl, uns, x, 1, undef)
  {
    hide And, Or, Xor;
    assert Pow2(0) == 1 && Pow2(1) == 2;
    AndIdentities(x);
    OrXorIdentities(x);
    BitwiseCommute(x, 0);
    BitwiseCommute(x, MODULUS - 1);
    assert x * 1 == x && 1 * x == x && x * 0 == 0 && 0 * x == 0;
  }

  lemma BinopMeaning(e: IrExpr, t: State, env: Env)
    requires RightFirst(env) && e.Binop? && Eval(e, t, env).Ok?
    ensures HasValue(Eval(e.b, t, env)) && HasValue(Eval(e.a, Eval(e.b, t, env).st, env))
    ensures var vb := Eval(e.b, t, env);
      var va := Eval(e.a, vb.st, env);
      Eval(e, t, env) == Ok(W(BinVal(e.op, e.uns, va.v.w, vb.v.w, env.undef)), va.st)
  {
    hide BinVal;
    assert !env.leftFirst(e);
  }

  lemma IdentityOk(e: IrExpr, t: State, env: Env)
    requires RightFirst(env) && e.Binop? && Eval(e, t, env).Ok?
    requires !(IeNum(e.a).Some? && IeNum(e.b).Some?)
    ensures Eval(BinopIdentity(e), t, env) == Eval(e, t, env)
  {
    hide BinVal, Eval, IeTrivial, IePure, IeEqual;
    BinopMeaning(e, t, env);
    var vb := Eval(e.b, t, env);
    var va := Eval(e.a, vb.st, env);
    if IeNum(e.b).Some? {
      IeNumMeaning(e.b, t, env);
      IdentityValues(e.op, e.uns, va.v.w, env.undef);
      if IeTrivial(e.a) { TrivialPure(e.a); PureQuiet(e.a, t, env); }
    } else if IeNum(e.a).Some? {
      IeNumMeaning(e.a, vb.st, env);
      IdentityValues(e.op, e.uns, vb.v.w, env.undef);
      if IeTrivial(e.b) { TrivialPure(e.b); PureQuiet(e.b, t, env); }
    }
    NumMeaning(0, e.size, e.uns, t, env);
    if e.op == Op.Add && IePure(e.a) && IeEqual(e.a, e.b) {
      DoubleOk(e, t, env);
    }
  }

  lemma DoubleOk(e: IrExpr, t: State, env: Env)
    requires RightFirst(env) && e.Binop? && e.op == Op.Add && Eval(e, t, env).Ok?
    requires IePure(e.a) && IeEqual(e.a, e.b)
    ensures Eval(Shl1(e, e.a), t, env) == Eval(e, t, env)
  {
    hide BinVal;
    BinopMeaning(e, t, env);
    EqualMeaning(e.a, e.b, t, env);
    PureQuiet(e.a, t, env);
    IdentityValues(Op.Add, e.uns, Eval(e.a, t, env).v.w, env.undef);
    assert !env.leftFirst(Shl1(e, e.a));
  }

  lemma FoldUnaryOk(uop: UnOp, c: Int32)
    ensures Wrap(match uop
                 case Neg => Signed(NegW(Wrap(c)))
                 case BitNot => -1 - (c as int)
                 case LogNot => if c == 0 then 1 else 0) == UnVal(uop, Wrap(c))
  {
    SignedBack(NegW(Wrap(c)));
  }

  lemma FoldNodeOk(e: IrExpr, t: State, env: Env)
    requires RightFirst(env) && Eval(e, t, env).Ok?
    ensures Eval(FoldNode(e), t, env) == Eval(e, t, env)
  {
    hide Eval, FoldNode;
    match e {
      case Cast(_, _, _, _, _, _) | Unary(_, _, _, _) => FoldOneOk(e, t, env);
      case Binop(_, _, _, _, _, _) => FoldTwoOk(e, t, env);
      case Cond(_, _, _) | LogAnd(_, _) | LogOr(_, _) => FoldChoiceOk(e, t, env);
      case Nop | Num(_, _, _) | Lea(_) | Load(_, _, _) | Store(_, _, _) | Comma(_, _) | CallDirect(_, _)
         | CallIndirect(_, _) | Memzero(_, _, _) | Vdef(_, _) | Vuse(_) => FoldsNot(e);
    }
  }

  lemma FoldsNot(e: IrExpr)
    requires !e.Cast? && !e.Unary? && !e.Binop? && !e.Cond? && !e.LogAnd? && !e.LogOr?
    ensures FoldNode(e) == e
  {}

  lemma FoldOneOk(e: IrExpr, t: State, env: Env)
    requires (e.Cast? || e.Unary?) && Eval(e, t, env).Ok?
    ensures Eval(FoldNode(e), t, env) == Eval(e, t, env)
  {
    hide BinVal, Narrow;
    if IeNum(e.a).Some? {
      var c := IeNum(e.a).value;
      IeNumMeaning(e.a, t, env);
      if e.Cast? { SignedBack(Narrow(e.size, e.uns, Wrap(c))); } else { FoldUnaryOk(e.uop, c); }
    }
  }

  lemma FoldTwoOk(e: IrExpr, t: State, env: Env)
    requires e.Binop? && RightFirst(env) && Eval(e, t, env).Ok?
    ensures Eval(FoldNode(e), t, env) == Eval(e, t, env)
  {
    hide BinVal, BinopIdentity, FoldBinop, Eval, IeNum;
    if IeNum(e.a).Some? && IeNum(e.b).Some? {
      var a, b := IeNum(e.a).value, IeNum(e.b).value;
      BinopMeaning(e, t, env);
      IeNumMeaning(e.b, t, env);
      IeNumMeaning(e.a, t, env);
      if FoldBinop(e.op, e.uns, a, b).Some? {
        FoldBinopOk(e.op, e.uns, a, b, env.undef);
        NumMeans(FoldNode(e), t, env);
      }
    } else {
      IdentityOk(e, t, env);
    }
  }

  lemma NumMeans(e: IrExpr, t: State, env: Env)
    requires e.Num?
    ensures Eval(e, t, env) == Ok(W(Wrap(e.val)), t)
  {}

  lemma FoldChoiceOk(e: IrExpr, t: State, env: Env)
    requires (e.Cond? || e.LogAnd? || e.LogOr?) && Eval(e, t, env).Ok?
    ensures Eval(FoldNode(e), t, env) == Eval(e, t, env)
  {
    hide IeFold;
    if IeNum(e.a).Some? {
      IeNumMeaning(e.a, t, env);
      if !e.Cond? && IeNum(e.b).Some? { IeNumMeaning(e.b, t, env); }
    }
  }


  // ---- the whole tree --------------------------------------------------------------------

  // A store or load of a promoted variable keeps its shape; folding creates no new one.
  lemma {:induction false} FoldAddressSafe(e: IrExpr, ra: map<nat, Reg>)
    requires AddressSafe(e, ra)
    ensures AddressSafe(IeFold(e), ra)
    decreases e, 2
  {
    FoldKidsSafe(e, ra);
    FoldNodeSafe(FoldKids(e), ra);
  }

  lemma FoldNodeSafe(e: IrExpr, ra: map<nat, Reg>)
    requires AddressSafe(e, ra)
    ensures AddressSafe(FoldNode(e), ra)
  {
    hide FoldBinop, IePure, IeEqual, IeTrivial;
  }

  lemma FoldKidsSafe(e: IrExpr, ra: map<nat, Reg>)
    requires AddressSafe(e, ra)
    ensures AddressSafe(FoldKids(e), ra)
    decreases e, 1
  {
    hide FoldNode, IeFold;
    match e {
      case Load(_, _, _) | Store(_, _, _) => FoldAccessSafe(e, ra);
      case Binop(_, _, _, _, _, _) | LogAnd(_, _) | LogOr(_, _) | Cond(_, _, _) | Comma(_, _) => FoldPairSafe(e, ra);
      case Unary(_, _, _, a) => FoldAddressSafe(a, ra);
      case Cast(_, _, _, _, _, a) => FoldAddressSafe(a, ra);
      case CallDirect(_, args) => FoldArgsSafe(args, ra);
      case CallIndirect(a, args) => FoldAddressSafe(a, ra); FoldArgsSafe(args, ra);
      case Vdef(_, a) => FoldAddressSafe(a, ra);
      case Nop | Num(_, _, _) | Lea(_) | Memzero(_, _, _) | Vuse(_) =>
    }
  }

  lemma FoldPairSafe(e: IrExpr, ra: map<nat, Reg>)
    requires (e.Binop? || e.LogAnd? || e.LogOr? || e.Cond? || e.Comma?) && AddressSafe(e, ra)
    ensures AddressSafe(FoldKids(e), ra)
    decreases e, 0
  {
    hide FoldNode, IeFold;
    FoldAddressSafe(e.a, ra);
    FoldAddressSafe(e.b, ra);
    if e.Cond? { FoldAddressSafe(e.c, ra); }
  }

  lemma FoldAccessSafe(e: IrExpr, ra: map<nat, Reg>)
    requires (e.Load? || e.Store?) && AddressSafe(e, ra)
    ensures AddressSafe(FoldKids(e), ra)
    decreases e, 0
  {
    hide FoldNode, IeFold;
    if e.a.Lea? { LeaFolds(e.a); } else { FoldAddressSafe(e.a, ra); }
    if e.Store? { FoldAddressSafe(e.b, ra); }
  }

  lemma FoldArgsSafe(args: seq<IrExpr>, ra: map<nat, Reg>)
    requires forall x | x in args :: AddressSafe(x, ra)
    ensures forall x | x in FoldArgs(args) :: AddressSafe(x, ra)
    decreases args, 0
  {
    if args != [] {
      FoldAddressSafe(args[0], ra);
      FoldArgsSafe(args[1..], ra);
    }
  }

  lemma {:induction false} FoldOk(e: IrExpr, t: State, env: Env)
    requires RightFirst(env) && AddressSafe(e, env.ra) && Eval(e, t, env).Ok?
    ensures Eval(IeFold(e), t, env) == Eval(e, t, env)
    decreases e, 2
  {
    hide Eval, FoldNode, FoldKids;
    FoldKidsOk(e, t, env);
    FoldNodeOk(FoldKids(e), t, env);
  }

  lemma FoldedLea(a: IrExpr, ra: map<nat, Reg>)
    requires a.Lea? || AddressSafe(a, ra)
    ensures LeaReg(IeFold(a), ra) == LeaReg(a, ra)
    ensures a.Lea? ==> IeFold(a) == a
  {
    hide FoldNode;
    if !a.Lea? {
      FoldAddressSafe(a, ra);
    } else {
      assert FoldNode(a) == a by { LeaFolds(a); }
    }
  }

  lemma LeaFolds(a: IrExpr)
    requires a.Lea?
    ensures FoldNode(a) == a == IeFold(a)
  {}

  lemma FoldKidsOk(e: IrExpr, t: State, env: Env)
    requires RightFirst(env) && AddressSafe(e, env.ra) && Eval(e, t, env).Ok?
    ensures Eval(FoldKids(e), t, env) == Eval(e, t, env)
    decreases e, 1
  {
    hide IeFold, FoldNode, BinVal, Narrow, Read, LoadFrom, StoreTo, Invoke, CastVal, UnVal;
    match e {
      case Load(_, _, _) | Store(_, _, _) => FoldAccessOk(e, t, env);
      case Binop(_, _, _, _, _, _) | Comma(_, _) => FoldPairOk(e, t, env);
      case Unary(_, _, _, a) => FoldOk(a, t, env);
      case LogAnd(_, _) | LogOr(_, _) | Cond(_, _, _) => FoldBranchesOk(e, t, env);
      case Cast(_, _, _, _, _, a) => FoldOk(a, t, env);
      case CallDirect(_, _) | CallIndirect(_, _) => FoldCallOk(e, t, env);
      case Vdef(_, a) => FoldOk(a, t, env);
      case Nop | Num(_, _, _) | Lea(_) | Memzero(_, _, _) | Vuse(_) =>
    }
  }

  lemma FoldPairOk(e: IrExpr, t: State, env: Env)
    requires (e.Binop? || e.Comma?) && RightFirst(env) && AddressSafe(e, env.ra) && Eval(e, t, env).Ok?
    ensures Eval(FoldKids(e), t, env) == Eval(e, t, env)
    decreases e, 0
  {
    hide IeFold, FoldNode, BinVal;
    if e.Binop? {
      assert !env.leftFirst(e) && !env.leftFirst(FoldKids(e));
      FoldOk(e.b, t, env);
      FoldOk(e.a, Eval(e.b, t, env).st, env);
    } else {
      FoldOk(e.a, t, env);
      FoldOk(e.b, Eval(e.a, t, env).st, env);
    }
  }

  lemma FoldBranchesOk(e: IrExpr, t: State, env: Env)
    requires (e.LogAnd? || e.LogOr? || e.Cond?) && RightFirst(env) && AddressSafe(e, env.ra) && Eval(e, t, env).Ok?
    ensures Eval(FoldKids(e), t, env) == Eval(e, t, env)
    decreases e, 0
  {
    hide IeFold, FoldNode;
    var va := Eval(e.a, t, env);
    FoldOk(e.a, t, env);
    if (va.v.w != 0) != e.LogOr? { FoldOk(e.b, va.st, env); } else if e.Cond? { FoldOk(e.c, va.st, env); }
  }

  lemma FoldCallOk(e: IrExpr, t: State, env: Env)
    requires (e.CallDirect? || e.CallIndirect?) && RightFirst(env) && AddressSafe(e, env.ra) && Eval(e, t, env).Ok?
    ensures Eval(FoldKids(e), t, env) == Eval(e, t, env)
    decreases e, 0
  {
    hide IeFold, FoldNode, Invoke, FoldArgs;
    FoldArgsOk(e.args, t, env);
    if e.CallIndirect? { FoldOk(e.a, EvalArgs(e.args, t, env).st, env); }
  }

  lemma FoldAccessOk(e: IrExpr, t: State, env: Env)
    requires e.Load? || e.Store?
    requires RightFirst(env) && AddressSafe(e, env.ra) && Eval(e, t, env).Ok?
    ensures Eval(FoldKids(e), t, env) == Eval(e, t, env)
    decreases e, 0
  {
    hide IeFold, FoldNode, BinVal, Narrow, Read, LoadFrom, StoreTo, Invoke, CastVal, UnVal;
    var a := e.a;
    FoldedLea(a, env.ra);
    if LeaReg(a, env.ra) == 0 && !a.Lea? { FoldOk(a, t, env); }
    if e.Store? { FoldOk(e.b, if LeaReg(a, env.ra) != 0 then t else Eval(a, t, env).st, env); }
  }

  lemma FoldArgsOk(args: seq<IrExpr>, t: State, env: Env)
    requires RightFirst(env) && (forall x | x in args :: AddressSafe(x, env.ra)) && EvalArgs(args, t, env).ArgsOk?
    ensures EvalArgs(FoldArgs(args), t, env) == EvalArgs(args, t, env)
    decreases args, 0
  {
    hide Eval, IeFold, AddressSafe;
    if args != [] {
      FoldArgsOk(args[1..], t, env);
      FoldOk(args[0], EvalArgs(args[1..], t, env).st, env);
      assert FoldArgs(args)[1..] == FoldArgs(args[1..]);
    }
  }
}
