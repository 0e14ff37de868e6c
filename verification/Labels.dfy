// Labels of the selected code: every expression defines its own, drawn from the range
// of numbers it takes from the counter.
module Labels {
  import opened Words
  import opened Ir
  import opened M68k
  import opened Select

  ghost predicate Numbered(code: seq<Instr>, lo: nat, hi: nat) {
    forall i | 0 <= i < |code| && code[i].Lab? :: code[i].l.Lbl? && lo <= code[i].l.id < hi
  }

  // All labels defined in `code` are different and numbered in [lo, hi).
  ghost predicate Own(code: seq<Instr>, lo: nat, hi: nat) {
    lo <= hi && Numbered(code, lo, hi) && UniqueLabels(code)
  }

  ghost predicate NoLabel(code: seq<Instr>) {
    forall i | 0 <= i < |code| :: !code[i].Lab?
  }

  lemma NoneOwn(code: seq<Instr>, u: nat, v: nat)
    requires NoLabel(code) && u <= v
    ensures Own(code, u, v)
  {}

  lemma Apart(x: seq<Instr>, y: seq<Instr>)
    requires UniqueLabels(x) && UniqueLabels(y)
    requires forall i, j | 0 <= i < |x| && 0 <= j < |y| && x[i].Lab? :: x[i] != y[j]
    ensures UniqueLabels(x + y)
  {}

  lemma Glue(x: seq<Instr>, y: seq<Instr>, lo: nat, mid: nat, hi: nat)
    requires Own(x, lo, mid) && Own(y, mid, hi)
    ensures Own(x + y, lo, hi)
  {
    Apart(x, y);
  }

  lemma GluePlain(x: seq<Instr>, y: seq<Instr>, lo: nat, hi: nat)
    requires Own(x, lo, hi) && NoLabel(y)
    ensures Own(x + y, lo, hi) && Own(y + x, lo, hi)
  {
    Apart(x, y);
    Apart(y, x);
  }

  // Labels with the reserved number u around code numbered from u + 1.
  lemma GlueReserved(x: seq<Instr>, y: seq<Instr>, u: nat, hi: nat)
    requires Own(x, u + 1, hi) && UniqueLabels(y) && Numbered(y, u, u + 1)
    ensures Own(x + y, u, hi)
  {
    Apart(x, y);
  }

  lemma ConstTailLabels(op: Op, uns: bool, c: Int32, u: nat)
    requires ConstTail(op, uns, c, u).Some?
    ensures var t := ConstTail(op, uns, c, u).value;
      u <= t.uid <= u + 1 && UniqueLabels(t.code) && Numbered(t.code, u, t.uid)
  {
    hide AddImm, ShiftBy, MulTail, And, Ctz;
    PlainParts(c);
    if op == Op.Div && !uns && ConstTail(op, uns, c, u).value.uid == u + 1 {
      SignedDivLabels(c, Ctz(Wrap(c)), u);
    } else if op == Op.Mod && !uns {
      SignedModLabels(c, u);
    } else if op == Op.Sub {
      PlainParts(Signed(Wrap(0 - c)));
      PlainOwn(ConstTail(op, uns, c, u).value.code);
    } else if op == Op.Div {
      PlainShift(LsrOp, Ctz(Wrap(c)));
    } else if op == Op.Shl || op == Op.Shr {
      PlainShift(if op == Op.Shl then AslOp else if uns then LsrOp else AsrOp, c);
    }
  }

  lemma PlainOwn(code: seq<Instr>)
    requires NoLabel(code)
    ensures UniqueLabels(code)
  {}

  lemma PlainShift(op: ShiftOp, k: nat)
    ensures NoLabel(ShiftBy(op, k))
  {}

  lemma PlainParts(c: Int32)
    ensures NoLabel(AddImm(c))
    ensures MulTail(c).Some? ==> NoLabel(MulTail(c).value)
  {
    hide IsPow2, Ctz;
  }

  lemma SignedDivLabels(c: Int32, k: nat, u: nat)
    requires c >= 2
    ensures UniqueLabels(SignedDivTail(c, k, u)) && Numbered(SignedDivTail(c, k, u), u, u + 1)
  {
    hide AddImm, ShiftBy;
    PlainParts(c - 1);
    PlainShift(AsrOp, k);
    var skip := Lbl("L_sdiv_", u);
    var front := [Tst(0), Bcc(PL, skip)] + AddImm(c - 1);
    Apart(front, [Lab(skip)]);
    Apart(front + [Lab(skip)], ShiftBy(AsrOp, k));
  }

  lemma SignedModLabels(c: Int32, u: nat)
    ensures UniqueLabels(SignedModTail(c, u)) && Numbered(SignedModTail(c, u), u, u + 1)
  {
    assert |"L_smod_"| != |"L_smodx_"|;
  }

  lemma PlainTails(op: Op, uns: bool, to: TypeKind, size: nat, uop: UnOp, n: nat, ea: Ea)
    ensures NoLabel(GenericTail(op, uns)) && NoLabel(CastTail(to, size, uns)) && NoLabel(LoadFromA0(size, uns))
    ensures NoLabel(UnaryTail(uop)) && NoLabel(PopArgs(n))
    ensures HasMemoryForm(op) ==> NoLabel(MemTail(op, uns, ea))
  {}

  lemma {:induction false} PlainClr(off: int, n: nat)
    ensures NoLabel(ClrRun(off, n))
    decreases n
  {
    if n >= 4 { PlainClr(off + 4, n - 4); }
  }

  // The code of an expression owns the labels in the range it takes.
  lemma {:induction false} ExprLabels(e: IrExpr, ra: map<nat, Reg>, u: nat)
    ensures Own(ExprCode(e, ra, u).code, u, ExprCode(e, ra, u).uid)
    decreases e, 2
  {
    hide Own, NoLabel, LoadFromA0, UnaryTail, CastTail, PopArgs, BinopCode, ClrRun;
    match e {
      case Nop | Num(_, _, _) | Lea(_) | Vuse(_) => LeafLabels(e, ra, u);
      case Load(_, _, _) => LoadLabels(e, ra, u);
      case Store(_, _, _) => StoreLabels(e, ra, u);
      case Binop(_, _, _, _, _, _) => BinopLabels(e, ra, u);
      case Unary(uop, _, _, a) =>
        ExprLabels(a, ra, u);
        PlainTails(Op.Add, false, TyInt, 4, uop, 0, Ind(0));
        GluePlain(ExprCode(a, ra, u).code, UnaryTail(uop), u, ExprCode(a, ra, u).uid);
      case LogAnd(_, _) => ShortLabels(e, ra, u);
      case LogOr(_, _) => ShortLabels(e, ra, u);
      case Cond(_, _, _) => CondExprLabels(e, ra, u);
      case Comma(a, b) =>
        ExprLabels(a, ra, u);
        var x := ExprCode(a, ra, u);
        ExprLabels(b, ra, x.uid);
        Glue(x.code, ExprCode(b, ra, x.uid).code, u, x.uid, ExprCode(b, ra, x.uid).uid);
      case Cast(to, size, uns, _, _, a) =>
        ExprLabels(a, ra, u);
        PlainTails(Op.Add, uns, to, size, UnOp.Neg, 0, Ind(0));
        GluePlain(ExprCode(a, ra, u).code, CastTail(to, size, uns), u, ExprCode(a, ra, u).uid);
      case CallDirect(_, _) => CallLabels(e, ra, u);
      case CallIndirect(_, _) => CallLabels(e, ra, u);
      case Memzero(_, _, _) => MemzeroLabels(e, ra, u);
      case Vdef(reg, a) =>
        ExprLabels(a, ra, u);
        OneLine(Move(L, Dn(0), RegEa(reg)));
        GluePlain(ExprCode(a, ra, u).code, if reg != 0 then [Move(L, Dn(0), RegEa(reg))] else [], u, ExprCode(a, ra, u).uid);
    }
  }

  lemma OneLine(i: Instr)
    ensures !i.Lab? ==> NoLabel([i])
    ensures NoLabel([])
  {}

  lemma LeafLabels(e: IrExpr, ra: map<nat, Reg>, u: nat)
    requires e.Nop? || e.Num? || e.Lea? || e.Vuse?
    ensures Own(ExprCode(e, ra, u).code, u, ExprCode(e, ra, u).uid)
  {}

  lemma MemzeroLabels(e: IrExpr, ra: map<nat, Reg>, u: nat)
    requires e.Memzero?
    ensures Own(ExprCode(e, ra, u).code, u, ExprCode(e, ra, u).uid)
  {
    PlainClr(e.off, e.size);
  }

  lemma LoadLabels(e: IrExpr, ra: map<nat, Reg>, u: nat)
    requires e.Load?
    ensures Own(ExprCode(e, ra, u).code, u, ExprCode(e, ra, u).uid)
    decreases e, 1
  {
    hide Own, NoLabel, LoadFromA0;
    PlainTails(Op.Add, e.uns, TyInt, e.size, UnOp.Neg, 0, Ind(0));
    OneLine(D0ToA0);
    if LeaReg(e.a, ra) != 0 {
      OneLine(Move(L, RegEa(LeaReg(e.a, ra)), Dn(0)));
      NoneOwn([Move(L, RegEa(LeaReg(e.a, ra)), Dn(0))], u, u);
    } else if IsIndexedLoad(e) {
      var x := ExprCode(e.a.b, ra, u);
      var y := ExprCode(e.a.a, ra, x.uid);
      ExprLabels(e.a.b, ra, u);
      ExprLabels(e.a.a, ra, x.uid);
      OneLine(Move(L, Dn(0), Dn(1)));
      GluePlain(x.code, [Move(L, Dn(0), Dn(1))], u, x.uid);
      Glue(x.code + [Move(L, Dn(0), Dn(1))], y.code, u, x.uid, y.uid);
      TwoLines(D0ToA0, Move(L, Indexed, Dn(0)));
      GluePlain(x.code + [Move(L, Dn(0), Dn(1))] + y.code, [D0ToA0, Move(L, Indexed, Dn(0))], u, y.uid);
    } else {
      var x := ExprCode(e.a, ra, u);
      ExprLabels(e.a, ra, u);
      GluePlain(x.code, [D0ToA0], u, x.uid);
      GluePlain(x.code + [D0ToA0], LoadFromA0(e.size, e.uns), u, x.uid);
    }
  }

  lemma TwoLines(i: Instr, j: Instr)
    requires !i.Lab? && !j.Lab?
    ensures NoLabel([i, j])
  {}

  lemma StoreLabels(e: IrExpr, ra: map<nat, Reg>, u: nat)
    requires e.Store?
    ensures Own(ExprCode(e, ra, u).code, u, ExprCode(e, ra, u).uid)
    decreases e, 1
  {
    hide Own, NoLabel;
    var r := LeaReg(e.a, ra);
    if r != 0 || (e.a.Lea? && e.size <= 4) {
      var last := if r != 0 then Move(L, Dn(0), RegEa(r)) else Move(StoreSize(e.size), Dn(0), PlaceEa(e.a.place));
      ExprLabels(e.b, ra, u);
      OneLine(last);
      GluePlain(ExprCode(e.b, ra, u).code, [last], u, ExprCode(e.b, ra, u).uid);
    } else {
      var x := ExprCode(e.a, ra, u);
      var y := ExprCode(e.b, ra, x.uid);
      ExprLabels(e.a, ra, u);
      ExprLabels(e.b, ra, x.uid);
      OneLine(PushD0);
      GluePlain(x.code, [PushD0], u, x.uid);
      Glue(x.code + [PushD0], y.code, u, x.uid, y.uid);
      TwoLines(PopA1, Move(StoreSize(e.size), Dn(0), Ind(1)));
      GluePlain(x.code + [PushD0] + y.code, [PopA1, Move(StoreSize(e.size), Dn(0), Ind(1))], u, y.uid);
    }
  }

  lemma ShortLabels(e: IrExpr, ra: map<nat, Reg>, u: nat)
    requires e.LogAnd? || e.LogOr?
    ensures Own(ExprCode(e, ra, u).code, u, ExprCode(e, ra, u).uid)
    decreases e, 1
  {
    hide Own, NoLabel, ExprCode;
    ShortCircuitCode(e, ra, u);
    var isAnd := e.LogAnd?;
    var no, end := Lbl(if isAnd then "L_false_" else "L_true_", u), Lbl("L_end_", u);
    var test := [Tst(0), Bcc(if isAnd then EQ else NE, no)];
    var tail := [Move(L, Imm(Truth(isAnd)), Dn(0)), Bra(end), Lab(no), Move(L, Imm(Truth(!isAnd)), Dn(0)), Lab(end)];
    var x := ExprCode(e.a, ra, u + 1);
    var y := ExprCode(e.b, ra, x.uid);
    ExprLabels(e.a, ra, u + 1);
    ExprLabels(e.b, ra, x.uid);
    TwoLines(test[0], test[1]);
    GluePlain(x.code, test, u + 1, x.uid);
    Glue(x.code + test, y.code, u + 1, x.uid, y.uid);
    GluePlain(x.code + test + y.code, test, u + 1, y.uid);
    BoolTailLabels(isAnd, u);
    GlueReserved(x.code + test + y.code + test, tail, u, y.uid);
  }

  lemma BoolTailLabels(isAnd: bool, u: nat)
    ensures var no, end := Lbl(if isAnd then "L_false_" else "L_true_", u), Lbl("L_end_", u);
      var tail := [Move(L, Imm(Truth(isAnd)), Dn(0)), Bra(end), Lab(no), Move(L, Imm(Truth(!isAnd)), Dn(0)), Lab(end)];
      UniqueLabels(tail) && Numbered(tail, u, u + 1)
  {
    assert |"L_false_"| == 8 && |"L_true_"| == 7 && |"L_end_"| == 6;
  }

  lemma CondExprLabels(e: IrExpr, ra: map<nat, Reg>, u: nat)
    requires e.Cond?
    ensures Own(ExprCode(e, ra, u).code, u, ExprCode(e, ra, u).uid)
    decreases e, 1
  {
    hide NoLabel, ExprCode, CondCode;
    CondExprCode(e, ra, u);
    var els, end := Lbl("L_else_", u), Lbl("L_end_", u);
    var x := CondCode(e.a, els, false, ra, u + 1);
    var y := ExprCode(e.b, ra, x.uid);
    var z := ExprCode(e.c, ra, y.uid);
    CondLabels(e.a, els, false, ra, u + 1);
    ExprLabels(e.b, ra, x.uid);
    ExprLabels(e.c, ra, y.uid);
    Glue(x.code, y.code, u + 1, x.uid, y.uid);
    assert |"L_else_"| == 7 && |"L_end_"| == 6;
    Apart(x.code + y.code, [Bra(end), Lab(els)]);
    Apart(x.code + y.code + [Bra(end), Lab(els)], z.code);
    Apart(x.code + y.code + [Bra(end), Lab(els)] + z.code, [Lab(end)]);
  }

  lemma CallLabels(e: IrExpr, ra: map<nat, Reg>, u: nat)
    requires e.CallDirect? || e.CallIndirect?
    ensures Own(ExprCode(e, ra, u).code, u, ExprCode(e, ra, u).uid)
    decreases e, 1
  {
    hide Own, NoLabel, PopArgs;
    var k := |e.args|;
    PlainTails(Op.Add, false, TyInt, 4, UnOp.Neg, k, Ind(0));
    ArgsLabels(e.args, ra, u);
    var x := ArgsCode(e.args, ra, u);
    if e.CallDirect? {
      OneLine(Jsr(Abs(e.name), k));
      GluePlain(x.code, [Jsr(Abs(e.name), k)], u, x.uid);
      GluePlain(x.code + [Jsr(Abs(e.name), k)], PopArgs(k), u, x.uid);
    } else {
      var f := ExprCode(e.a, ra, x.uid);
      ExprLabels(e.a, ra, x.uid);
      Glue(x.code, f.code, u, x.uid, f.uid);
      TwoLines(D0ToA0, Jsr(Ind(0), k));
      GluePlain(x.code + f.code, [D0ToA0, Jsr(Ind(0), k)], u, f.uid);
      GluePlain(x.code + f.code + [D0ToA0, Jsr(Ind(0), k)], PopArgs(k), u, f.uid);
    }
  }

  lemma ArgsLabels(args: seq<IrExpr>, ra: map<nat, Reg>, u: nat)
    ensures Own(ArgsCode(args, ra, u).code, u, ArgsCode(args, ra, u).uid)
    decreases args, 0
  {
    hide Own, NoLabel, ExprCode;
    if args == [] {
      OneLine(PushD0);
      NoneOwn([], u, u);
    } else {
      var rest := ArgsCode(args[1..], ra, u);
      var x := ExprCode(args[0], ra, rest.uid);
      ArgsLabels(args[1..], ra, u);
      ExprLabels(args[0], ra, rest.uid);
      Glue(rest.code, x.code, u, rest.uid, x.uid);
      OneLine(PushD0);
      GluePlain(rest.code + x.code, [PushD0], u, x.uid);
    }
  }

  // Operand code with a constant tail: the tail's number comes first.
  lemma WithTail(x: IrExpr, e: IrExpr, ra: map<nat, Reg>, u: nat, tail: Out)
    requires x < e && u <= tail.uid <= u + 1 && UniqueLabels(tail.code) && Numbered(tail.code, u, tail.uid)
    ensures Own(ExprCode(x, ra, tail.uid).code + tail.code, u, ExprCode(x, ra, tail.uid).uid)
    decreases e, 0
  {
    hide ExprCode;
    ExprLabels(x, ra, tail.uid);
    Apart(ExprCode(x, ra, tail.uid).code, tail.code);
  }

  lemma BinopLabels(e: IrExpr, ra: map<nat, Reg>, u: nat)
    requires e.Binop?
    ensures Own(ExprCode(e, ra, u).code, u, ExprCode(e, ra, u).uid)
    decreases e, 1
  {
    hide Own, NoLabel, ConstTail, MemTail, GenericTail, SimpleOperand, UniqueLabels, Numbered;
    var ca, cb := ConstOf(e.a), ConstOf(e.b);
    if cb.Some? && ConstTail(e.op, e.uns, cb.value, u).Some? {
      ConstTailLabels(e.op, e.uns, cb.value, u);
      WithTail(e.a, e, ra, u, ConstTail(e.op, e.uns, cb.value, u).value);
    } else if ca.Some? && ConstTailLeft(e.op, e.uns, ca.value, u).Some? {
      LeftTailLabels(e.op, e.uns, ca.value, u);
      WithTail(e.b, e, ra, u, ConstTailLeft(e.op, e.uns, ca.value, u).value);
    } else if ReadsRightLast(e, ra) {
      var ea := SimpleOperand(e.b, ra).value;
      PlainTails(e.op, e.uns, TyInt, 4, UnOp.Neg, 0, ea);
      ExprLabels(e.a, ra, u);
      GluePlain(ExprCode(e.a, ra, u).code, MemTail(e.op, e.uns, ea), u, ExprCode(e.a, ra, u).uid);
    } else {
      PlainTails(e.op, e.uns, TyInt, 4, UnOp.Neg, 0, Ind(0));
      BothLabels(e, ra, u);
      var y := ExprCode(e.b, ra, u);
      var x := ExprCode(e.a, ra, y.uid);
      GluePlain(y.code + [PushD0] + x.code + [PopD1], GenericTail(e.op, e.uns), u, x.uid);
    }
  }

  lemma BothLabels(e: IrExpr, ra: map<nat, Reg>, u: nat)
    requires e.Binop?
    ensures var y := ExprCode(e.b, ra, u); var x := ExprCode(e.a, ra, y.uid);
      Own(y.code + [PushD0] + x.code + [PopD1], u, x.uid)
    decreases e, 0
  {
    hide Own, NoLabel, ExprCode;
    var y := ExprCode(e.b, ra, u);
    var x := ExprCode(e.a, ra, y.uid);
    ExprLabels(e.b, ra, u);
    ExprLabels(e.a, ra, y.uid);
    OneLine(PushD0);
    OneLine(PopD1);
    GluePlain(y.code, [PushD0], u, y.uid);
    Glue(y.code + [PushD0], x.code, u, y.uid, x.uid);
    GluePlain(y.code + [PushD0] + x.code, [PopD1], u, x.uid);
  }

  lemma LeftTailLabels(op: Op, uns: bool, c: Int32, u: nat)
    requires ConstTailLeft(op, uns, c, u).Some?
    ensures var t := ConstTailLeft(op, uns, c, u).value;
      u <= t.uid <= u + 1 && UniqueLabels(t.code) && Numbered(t.code, u, t.uid)
  {
    hide ConstTail;
    if IsCommutative(op) { ConstTailLabels(op, uns, c, u); }
  }

  lemma {:induction false} CondLabels(e: IrExpr, target: Label, when: bool, ra: map<nat, Reg>, u: nat)
    ensures Own(CondCode(e, target, when, ra, u).code, u, CondCode(e, target, when, ra, u).uid)
    decreases e, 3
  {
    hide Own, NoLabel, ExprCode, CompareCode;
    if e.Unary? && e.uop == LogNot {
      CondLabels(e.a, target, !when, ra, u);
    } else if (e.LogAnd? && !when) || (e.LogOr? && when) {
      var x := CondCode(e.a, target, when, ra, u);
      CondLabels(e.a, target, when, ra, u);
      CondLabels(e.b, target, when, ra, x.uid);
      Glue(x.code, CondCode(e.b, target, when, ra, x.uid).code, u, x.uid, CondCode(e.b, target, when, ra, x.uid).uid);
    } else if e.LogAnd? || e.LogOr? {
      var skip := Lbl("L_condskip_", u);
      var x := CondCode(e.a, skip, !when, ra, u + 1);
      var y := CondCode(e.b, target, when, ra, x.uid);
      CondLabels(e.a, skip, !when, ra, u + 1);
      CondLabels(e.b, target, when, ra, x.uid);
      Glue(x.code, y.code, u + 1, x.uid, y.uid);
      GlueReserved(x.code + y.code, [Lab(skip)], u, y.uid);
    } else if e.Binop? && IsRelation(e.op) {
      var rel := if ConstOf(e.b).None? && ConstOf(e.a).Some? then RelSwap(RelOf(e.op)) else RelOf(e.op);
      var last := Bcc(BranchCc(if when then rel else RelNegate(rel), e.uns), target);
      CompareLabels(e, ra, u);
      OneLine(last);
      GluePlain(CompareCode(e, ra, u).code, [last], u, CompareCode(e, ra, u).uid);
    } else {
      ExprLabels(e, ra, u);
      TwoLines(Tst(0), Bcc(if when then NE else EQ, target));
      GluePlain(ExprCode(e, ra, u).code, [Tst(0), Bcc(if when then NE else EQ, target)], u, ExprCode(e, ra, u).uid);
    }
  }

  lemma CompareLabels(e: IrExpr, ra: map<nat, Reg>, u: nat)
    requires e.Binop?
    ensures Own(CompareCode(e, ra, u).code, u, CompareCode(e, ra, u).uid)
    decreases e, 1
  {
    hide Own, NoLabel, ExprCode, ConstOf, SimpleOperand;
    if ConstOf(e.b).Some? || ConstOf(e.a).Some? || SimpleOperand(e.b, ra).Some? {
      var one := if ConstOf(e.b).None? && ConstOf(e.a).Some? then e.b else e.a;
      var src := if ConstOf(e.b).Some? then Imm(ConstOf(e.b).value)
                 else if ConstOf(e.a).Some? then Imm(ConstOf(e.a).value) else SimpleOperand(e.b, ra).value;
      ExprLabels(one, ra, u);
      OneLine(Cmp(src, 0));
      GluePlain(ExprCode(one, ra, u).code, [Cmp(src, 0)], u, ExprCode(one, ra, u).uid);
    } else {
      var y := ExprCode(e.b, ra, u);
      var x := ExprCode(e.a, ra, y.uid);
      BothLabels(e, ra, u);
      OneLine(Cmp(Dn(1), 0));
      GluePlain(y.code + [PushD0] + x.code + [PopD1], [Cmp(Dn(1), 0)], u, x.uid);
      assert y.code + [PushD0] + x.code + [PopD1, Cmp(Dn(1), 0)] == y.code + [PushD0] + x.code + [PopD1] + [Cmp(Dn(1), 0)];
    }
  }
}
