// Folding leaves nothing to fold: what no folded tree holds, and that folding it again changes nothing.
module FoldSettles {
  import opened Words
  import opened Memory
  import opened Ir
  import opened Fold

  // The value of a constant as a signed 32-bit number.
  function NumValue(e: IrExpr): Int32
    requires e.Num?
  { Signed(Wrap(e.val)) }

  predicate Const(e: IrExpr, c: Int32) { e.Num? && NumValue(e) == c }

  // Division by zero, the one quotient that overflows, and shift counts out of range are left to
  // the code generator.
  predicate LeftAlone(op: Op, uns: bool, a: Int32, b: Int32) {
    if op.Div? || op.Mod? then b == 0 || (!uns && a == -0x8000_0000 && b == -1)
    else (op.Shl? || op.Shr?) && !(0 <= b <= 31)
  }

  // An operator with an operand that makes it the other operand, or zero.
  predicate Identity(op: Op, a: IrExpr, b: IrExpr) {
    match op
    case Add => Const(a, 0) || Const(b, 0) || (IePure(a) && IeEqual(a, b))
    case Sub | Shl | Shr => Const(b, 0)
    case Mul => Const(a, 1) || Const(b, 1) || (Const(b, 0) && IeTrivial(a)) || (Const(a, 0) && IeTrivial(b))
    case BitAnd => Const(a, -1) || Const(b, -1) || (Const(b, 0) && IeTrivial(a)) || (Const(a, 0) && IeTrivial(b))
    case BitOr | BitXor => Const(a, 0) || Const(b, 0)
    case Div | Mod | Eq | Ne | Lt | Le => false
  }

  // What folding leaves of a node: no operator on constants that has a result, no identity, and
  // no choice that a constant decides.
  predicate SettledNode(e: IrExpr) {
    match e
    case Binop(op, uns, _, _, a, b) =>
      if a.Num? && b.Num? then LeftAlone(op, uns, NumValue(a), NumValue(b)) else !Identity(op, a, b)
    case Unary(_, _, _, a) => !a.Num?
    case Cast(to, _, _, _, _, a) => a.Num? ==> to.TyVoid? || to.TyPtr?
    case Cond(a, _, _) => !a.Num?
    case LogAnd(a, b) => a.Num? ==> NumValue(a) != 0 && !b.Num?
    case LogOr(a, b) => a.Num? ==> NumValue(a) == 0 && !b.Num?
    case _ => true
  }

  predicate Settled(e: IrExpr)
    decreases e, 1
  {
    SettledNode(e) && SettledKids(e)
  }

  predicate SettledKids(e: IrExpr)
    decreases e, 0
  {
    match e
    case Load(a, _, _) => Settled(a)
    case Store(a, b, _) => Settled(a) && Settled(b)
    case Binop(_, _, _, _, a, b) => Settled(a) && Settled(b)
    case Unary(_, _, _, a) => Settled(a)
    case LogAnd(a, b) => Settled(a) && Settled(b)
    case LogOr(a, b) => Settled(a) && Settled(b)
    case Cond(a, b, c) => Settled(a) && Settled(b) && Settled(c)
    case Comma(a, b) => Settled(a) && Settled(b)
    case Cast(_, _, _, _, _, a) => Settled(a)
    case CallDirect(_, args) => forall i | 0 <= i < |args| :: Settled(args[i])
    case CallIndirect(a, args) => Settled(a) && forall i | 0 <= i < |args| :: Settled(args[i])
    case Vdef(_, a) => Settled(a)
    case Nop | Num(_, _, _) | Lea(_) | Memzero(_, _, _) | Vuse(_) => true
  }

  // Folding settles every node of every tree.
  lemma {:induction false} TreeSettles(e: IrExpr)
    ensures Settled(IeFold(e))
    decreases e, 1
  {
    hide FoldNode, SettledNode;
    KidsSettle(e);
    NodeSettles(FoldKids(e));
  }

  lemma {:induction false} KidsSettle(e: IrExpr)
    ensures SettledKids(FoldKids(e))
    decreases e, 0
  {
    hide IeFold, Settled, FoldArgs;
    match e
    case Load(a, _, _) => TreeSettles(a);
    case Store(a, b, _) => TreeSettles(a); TreeSettles(b);
    case Binop(_, _, _, _, a, b) => TreeSettles(a); TreeSettles(b);
    case Unary(_, _, _, a) => TreeSettles(a);
    case LogAnd(a, b) => TreeSettles(a); TreeSettles(b);
    case LogOr(a, b) => TreeSettles(a); TreeSettles(b);
    case Cond(a, b, c) => TreeSettles(a); TreeSettles(b); TreeSettles(c);
    case Comma(a, b) => TreeSettles(a); TreeSettles(b);
    case Cast(_, _, _, _, _, a) => TreeSettles(a);
    case CallDirect(_, args) => ArgsSettle(args);
    case CallIndirect(a, args) => TreeSettles(a); ArgsSettle(args);
    case Vdef(_, a) => TreeSettles(a);
    case Nop | Num(_, _, _) | Lea(_) | Memzero(_, _, _) | Vuse(_) => {}
  }

  lemma {:induction false} ArgsSettle(args: seq<IrExpr>)
    ensures forall i | 0 <= i < |args| :: Settled(FoldArgs(args)[i])
    decreases args, 0
  {
    hide IeFold, Settled;
    if args != [] {
      TreeSettles(args[0]);
      ArgsSettle(args[1..]);
    }
  }

  lemma NumSettled(v: int, size: nat, uns: bool)
    ensures Settled(NumNew(v, size, uns))
  {}

  lemma NodeSettles(e: IrExpr)
    requires SettledKids(e)
    ensures Settled(FoldNode(e))
  {
    hide FoldBinop, BinopIdentity, Narrow, Identity, NumNew;
    match e
    case Cast(to, size, uns, _, _, a) =>
      if a.Num? {
        NumSettled(if IeNum(a).value != 0 then 1 else 0, size, uns);
        NumSettled(Signed(Narrow(size, uns, Wrap(IeNum(a).value))), size, uns);
      }
    case Unary(uop, size, uns, a) => UnarySettles(uop, size, uns, a);
    case Binop(op, uns, _, size, a, b) =>
      if a.Num? && b.Num? { ConstantsSettle(e); } else { IdentitySettles(e); }
    case LogAnd(a, b) => LogSettles(a, b);
    case LogOr(a, b) => LogSettles(a, b);
    case Cond(_, _, _) | Nop | Num(_, _, _) | Lea(_) | Load(_, _, _) | Store(_, _, _) | Comma(_, _) | CallDirect(_, _)
       | CallIndirect(_, _) | Memzero(_, _, _) | Vdef(_, _) | Vuse(_) => {}
  }

  lemma UnarySettles(uop: UnOp, size: nat, uns: bool, a: IrExpr)
    requires Settled(a)
    ensures Settled(FoldNode(Unary(uop, size, uns, a)))
  {
    hide NumNew;
    if a.Num? {
      NumSettled(Signed(NegW(Wrap(IeNum(a).value))), size, uns);
      NumSettled(-1 - IeNum(a).value, size, uns);
      NumSettled(if IeNum(a).value == 0 then 1 else 0, 4, false);
    }
  }

  lemma LogSettles(a: IrExpr, b: IrExpr)
    requires Settled(a) && Settled(b)
    ensures Settled(FoldNode(LogAnd(a, b))) && Settled(FoldNode(LogOr(a, b)))
  {
    hide NumNew;
    NumSettled(0, 4, false);
    NumSettled(1, 4, false);
  }

  lemma ConstantsSettle(e: IrExpr)
    requires e.Binop? && e.a.Num? && e.b.Num?
    ensures Settled(FoldNode(e))
  {
    hide NumNew, FoldBinop, Settled;
    var r := FoldBinop(e.op, e.uns, NumValue(e.a), NumValue(e.b));
    LeftAloneIff(e.op, e.uns, NumValue(e.a), NumValue(e.b));
    if r.Some? {
      NumSettled(r.value, e.size, e.uns);
    } else {
      assert FoldNode(e) == e;
      SettledIs(e);
      SettledIs(e.a);
      SettledIs(e.b);
    }
  }

  lemma LeftAloneIff(op: Op, uns: bool, a: Int32, b: Int32)
    ensures FoldBinop(op, uns, a, b).None? <==> LeftAlone(op, uns, a, b)
  {}

  lemma IdentitySettles(e: IrExpr)
    requires e.Binop? && !(e.a.Num? && e.b.Num?) && SettledKids(e)
    ensures Settled(BinopIdentity(e))
  {
    hide NumNew, IeEqual, IePure, IeTrivial;
    NumSettled(0, e.size, e.uns);
    if e.op.Add? && IePure(e.a) && IeEqual(e.a, e.b) { ShiftSettled(e); }
  }

  // Equal operands are both constants or neither is.
  lemma ShiftSettled(e: IrExpr)
    requires e.Binop? && !(e.a.Num? && e.b.Num?) && Settled(e.a) && IeEqual(e.a, e.b)
    ensures Settled(Shl1(e, e.a))
  {
    hide Settled;
    NumSettled(1, 4, false);
    assert !e.a.Num?;
    assert Settled(Shl1(e, e.a)) by { SettledIs(Shl1(e, e.a)); }
  }

  lemma SettledIs(e: IrExpr)
    ensures Settled(e) <==> SettledNode(e) && SettledKids(e)
  {}

  // A tree is settled exactly when folding it changes nothing; so folding twice is folding once.
  lemma {:induction false} SettledIff(e: IrExpr)
    ensures Settled(e) <==> IeFold(e) == e
    ensures IeFold(IeFold(e)) == IeFold(e)
  {
    hide Settled, IeFold;
    TreeSettles(e);
    FoldSame(IeFold(e));
    if Settled(e) { FoldSame(e); }
  }

  lemma {:induction false} FoldSame(e: IrExpr)
    requires Settled(e)
    ensures IeFold(e) == e
    decreases e, 1
  {
    hide FoldNode;
    KidsSame(e);
    NodeSame(e);
  }

  lemma {:induction false} KidsSame(e: IrExpr)
    requires SettledKids(e)
    ensures FoldKids(e) == e
    decreases e, 0
  {
    hide IeFold, Settled, FoldArgs;
    match e
    case Load(a, _, _) => FoldSame(a);
    case Store(a, b, _) => FoldSame(a); FoldSame(b);
    case Binop(_, _, _, _, a, b) => FoldSame(a); FoldSame(b);
    case Unary(_, _, _, a) => FoldSame(a);
    case LogAnd(a, b) => FoldSame(a); FoldSame(b);
    case LogOr(a, b) => FoldSame(a); FoldSame(b);
    case Cond(a, b, c) => FoldSame(a); FoldSame(b); FoldSame(c);
    case Comma(a, b) => FoldSame(a); FoldSame(b);
    case Cast(_, _, _, _, _, a) => FoldSame(a);
    case CallDirect(_, args) => ArgsSame(args);
    case CallIndirect(a, args) => FoldSame(a); ArgsSame(args);
    case Vdef(_, a) => FoldSame(a);
    case Nop | Num(_, _, _) | Lea(_) | Memzero(_, _, _) | Vuse(_) => {}
  }

  lemma {:induction false} ArgsSame(args: seq<IrExpr>)
    requires forall i | 0 <= i < |args| :: Settled(args[i])
    ensures FoldArgs(args) == args
    decreases args, 0
  {
    hide IeFold, Settled;
    if args != [] {
      FoldSame(args[0]);
      ArgsSame(args[1..]);
    }
  }

  lemma NodeSame(e: IrExpr)
    requires SettledNode(e)
    ensures FoldNode(e) == e
  {
    hide FoldBinop, IePure, IeTrivial, IeEqual;
    if e.Binop? && e.a.Num? && e.b.Num? { LeftAloneIff(e.op, e.uns, NumValue(e.a), NumValue(e.b)); }
  }
}
