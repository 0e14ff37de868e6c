// Constant folding, algebraic identities and the purity tests that justify them.
module Fold {
  import opened Words
  import opened Memory
  import opened Ir
  import opened Select

  // A bare integer constant as its 32-bit value.
  function IeNum(e: IrExpr): Option<Int32> {
    if e.Num? then Some(Signed(Wrap(e.val))) else None
  }

  function NumNew(v: int, size: nat, uns: bool): IrExpr {
    Num(v, if size != 0 then size else 4, uns)
  }

  // No call, store, zero-clear or temporary definition anywhere.
  predicate IePure(e: IrExpr)
    decreases e
  {
    match e
    case Nop | Num(_, _, _) | Lea(_) | Vuse(_) => true
    case Load(a, _, _) => IePure(a)
    case Binop(_, _, _, _, a, b) => IePure(a) && IePure(b)
    case Unary(_, _, _, a) => IePure(a)
    case LogAnd(a, b) => IePure(a) && IePure(b)
    case LogOr(a, b) => IePure(a) && IePure(b)
    case Cond(a, b, c) => IePure(a) && IePure(b) && IePure(c)
    case Comma(a, b) => IePure(a) && IePure(b)
    case Cast(_, _, _, _, _, a) => IePure(a)
    case Store(_, _, _) | CallDirect(_, _) | CallIndirect(_, _) | Memzero(_, _, _) | Vdef(_, _) => false
  }

  // Pure and reading no memory and no temporary either.
  predicate IeTrivial(e: IrExpr)
    decreases e
  {
    match e
    case Nop | Num(_, _, _) | Lea(_) => true
    case Binop(_, _, _, _, a, b) => IeTrivial(a) && IeTrivial(b)
    case Unary(_, _, _, a) => IeTrivial(a)
    case LogAnd(a, b) => IeTrivial(a) && IeTrivial(b)
    case LogOr(a, b) => IeTrivial(a) && IeTrivial(b)
    case Cond(a, b, c) => IeTrivial(a) && IeTrivial(b) && IeTrivial(c)
    case Comma(a, b) => IeTrivial(a) && IeTrivial(b)
    case Cast(_, _, _, _, _, a) => IeTrivial(a)
    case Load(_, _, _) | Store(_, _, _) | CallDirect(_, _) | CallIndirect(_, _) | Memzero(_, _, _)
       | Vdef(_, _) | Vuse(_) => false
  }

  // Structural equality on the shapes the x + x reduction cares about.
  predicate IeEqual(x: IrExpr, y: IrExpr)
    decreases x
  {
    match x
    case Num(val, _, _) => y.Num? && val == y.val
    case Lea(p) => y.Lea? && p == y.place
    case Load(a, size, uns) => y.Load? && size == y.size && uns == y.uns && IeEqual(a, y.a)
    case Cast(to, size, uns, fsize, funs, a) =>
      y.Cast? && to == y.to && size == y.size && uns == y.uns && fsize == y.fsize && funs == y.funs && IeEqual(a, y.a)
    case Unary(op, _, _, a) => y.Unary? && op == y.uop && IeEqual(a, y.a)
    case Binop(op, uns, _, size, a, b) =>
      y.Binop? && op == y.op && size == y.size && uns == y.uns && IeEqual(a, y.a) && IeEqual(b, y.b)
    case _ => false
  }

  // A constant operator's 32-bit result; None where the code generator's own
  // division or shift must decide.
  function FoldBinop(op: Op, uns: bool, a: Int32, b: Int32): Option<Int32> {
    var ua, ub := Wrap(a), Wrap(b);
    match op
    case Add => Some(Signed(Wrap(ua + ub)))
    case Sub => Some(Signed(Wrap(ua as int - ub)))
    case Mul => Some(Signed(Wrap(ua * ub)))
    case BitAnd => Some(Signed(And(ua, ub)))
    case BitOr => Some(Signed(Or(ua, ub)))
    case BitXor => Some(Signed(Xor(ua, ub)))
    case Div =>
      if b == 0 || (!uns && a == -0x8000_0000 && b == -1) then None
      else if uns then Some(Signed(Wrap(ua / ub))) else Some(Signed(Wrap(TruncDiv(a, b))))
    case Mod =>
      if b == 0 || (!uns && a == -0x8000_0000 && b == -1) then None
      else if uns then Some(Signed(Wrap(ua % ub))) else Some(Signed(Wrap(TruncMod(a, b))))
    case Shl => if b < 0 || b > 31 then None else Some(Signed(Wrap(ua * Pow2(b))))
    case Shr =>
      if b < 0 || b > 31 then None
      else Pow2Positive(b); if uns then Some(Signed(Wrap(ua / Pow2(b)))) else Some(Signed(Wrap(a / Pow2(b))))
    case Eq => Some(if a == b then 1 else 0)
    case Ne => Some(if a != b then 1 else 0)
    case Lt => Some(if (if uns then ua < ub else a < b) then 1 else 0)
    case Le => Some(if (if uns then ua <= ub else a <= b) then 1 else 0)
  }

  // x + x becomes x << 1.
  function Shl1(e: IrExpr, x: IrExpr): IrExpr
    requires e.Binop?
  {
    Binop(Op.Shl, e.uns, false, e.size, x, NumNew(1, 4, false))
  }

  // Algebraic identities for an operator with at most one constant operand.
  function BinopIdentity(e: IrExpr): IrExpr
    requires e.Binop?
  {
    var ca, cb := IeNum(e.a), IeNum(e.b);
    match e.op
    case Add =>
      if cb == Some(0) then e.a
      else if ca == Some(0) then e.b
      else if IePure(e.a) && IeEqual(e.a, e.b) then Shl1(e, e.a)
      else e
    case Sub => if cb == Some(0) then e.a else e
    case Mul =>
      if cb == Some(1) then e.a
      else if ca == Some(1) then e.b
      else if (cb == Some(0) && IeTrivial(e.a)) || (ca == Some(0) && IeTrivial(e.b)) then NumNew(0, e.size, e.uns)
      else e
    case BitAnd =>
      if cb == Some(-1) then e.a
      else if ca == Some(-1) then e.b
      else if (cb == Some(0) && IeTrivial(e.a)) || (ca == Some(0) && IeTrivial(e.b)) then NumNew(0, e.size, e.uns)
      else e
    case BitOr | BitXor => if cb == Some(0) then e.a else if ca == Some(0) then e.b else e
    case Shl | Shr => if cb == Some(0) then e.a else e
    case Div | Mod | Eq | Ne | Lt | Le => e
  }

  // The rewrite at a node whose kids are already folded.
  function FoldNode(e: IrExpr): IrExpr {
    match e
    case Cast(to, size, uns, _, _, a) =>
      if IeNum(a).None? then e
      else if to == TyBool then NumNew(if IeNum(a).value != 0 then 1 else 0, size, uns)
      else if TkIsInteger(to) then NumNew(Signed(Narrow(size, uns, Wrap(IeNum(a).value))), size, uns)
      else e
    case Unary(uop, size, uns, a) =>
      if IeNum(a).None? then e
      else
        match uop {
          case Neg => NumNew(Signed(NegW(Wrap(IeNum(a).value))), size, uns)
          case BitNot => NumNew(-1 - IeNum(a).value, size, uns)
          case LogNot => NumNew(if IeNum(a).value == 0 then 1 else 0, 4, false)
        }
    case Binop(op, uns, _, size, a, b) =>
      if IeNum(a).Some? && IeNum(b).Some? then
        var r := FoldBinop(op, uns, IeNum(a).value, IeNum(b).value);
        if r.Some? then NumNew(r.value, size, uns) else e
      else BinopIdentity(e)
    case Cond(a, b, c) =>
      if IeNum(a).None? then e else if IeNum(a).value != 0 then b else c
    case LogAnd(a, b) =>
      if IeNum(a).None? then e
      else if IeNum(a).value == 0 then NumNew(0, 4, false)
      else if IeNum(b).Some? then NumNew(if IeNum(b).value != 0 then 1 else 0, 4, false)
      else e
    case LogOr(a, b) =>
      if IeNum(a).None? then e
      else if IeNum(a).value != 0 then NumNew(1, 4, false)
      else if IeNum(b).Some? then NumNew(if IeNum(b).value != 0 then 1 else 0, 4, false)
      else e
    case _ => e
  }

  // Bottom-up folding.
  function IeFold(e: IrExpr): IrExpr
    decreases e, 1
  {
    FoldNode(FoldKids(e))
  }

  function FoldKids(e: IrExpr): IrExpr
    decreases e, 0
  {
    match e
    case Load(a, size, uns) => Load(IeFold(a), size, uns)
    case Store(a, b, size) => Store(IeFold(a), IeFold(b), size)
    case Binop(op, uns, ptradd, size, a, b) => Binop(op, uns, ptradd, size, IeFold(a), IeFold(b))
    case Unary(uop, size, uns, a) => Unary(uop, size, uns, IeFold(a))
    case LogAnd(a, b) => LogAnd(IeFold(a), IeFold(b))
    case LogOr(a, b) => LogOr(IeFold(a), IeFold(b))
    case Cond(a, b, c) => Cond(IeFold(a), IeFold(b), IeFold(c))
    case Comma(a, b) => Comma(IeFold(a), IeFold(b))
    case Cast(to, size, uns, fsize, funs, a) => Cast(to, size, uns, fsize, funs, IeFold(a))
    case CallDirect(name, args) => CallDirect(name, FoldArgs(args))
    case CallIndirect(a, args) => CallIndirect(IeFold(a), FoldArgs(args))
    case Vdef(reg, a) => Vdef(reg, IeFold(a))
    case Nop | Num(_, _, _) | Lea(_) | Memzero(_, _, _) | Vuse(_) => e
  }

  function FoldArgs(args: seq<IrExpr>): (r: seq<IrExpr>)
    ensures |r| == |args|
    decreases args, 0
  {
    if args == [] then [] else [IeFold(args[0])] + FoldArgs(args[1..])
  }
}
