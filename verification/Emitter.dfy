// The code generator as the source has it: methods that append lines to one output
// buffer, draw label numbers from one counter and track the evaluation-stack depth.
// Each is tied to the code functions of module Select.
module Emitter {
  import opened Words
  import opened Ir
  import opened M68k
  import opened Select

  class Codegen {
    var outbuf: seq<Instr>
    var uid: nat
    var depth: int
    const ra: map<nat, Reg>

    constructor (ra: map<nat, Reg>)
      ensures outbuf == [] && uid == 1 && depth == 0 && this.ra == ra
    {
      outbuf, uid, depth := [], 1, 0;
      this.ra := ra;
    }

    // `out` was appended, label numbers up to out.uid are taken, depth is unchanged.
    twostate predicate Emitted(out: Out)
      reads this
    {
      outbuf == old(outbuf) + out.code && uid == out.uid && depth == old(depth)
    }

    method Emit(i: Instr)
      modifies this`outbuf
      ensures outbuf == old(outbuf) + [i]
    {
      outbuf := outbuf + [i];
    }

    method NewId() returns (c: nat)
      modifies this`uid
      ensures c == old(uid) && uid == old(uid) + 1
    {
      c := uid;
      uid := uid + 1;
    }

    method Push()
      modifies this`outbuf, this`depth
      ensures outbuf == old(outbuf) + [PushD0] && depth == old(depth) + 1
    {
      Emit(PushD0);
      depth := depth + 1;
    }

    method Pop(dst: Ea)
      modifies this`outbuf, this`depth
      ensures outbuf == old(outbuf) + [Move(L, PopSp, dst)] && depth == old(depth) - 1
    {
      Emit(Move(L, PopSp, dst));
      depth := depth - 1;
    }

    method EmitAddImm(c: Int32)
      modifies this`outbuf
      ensures outbuf == old(outbuf) + AddImm(c)
    {
      if c == 0 { return; }
      if 1 <= c <= 8 {
        Emit(Alu(AluAdd, Imm(c), 0));
      } else if -8 <= c <= -1 {
        Emit(Alu(AluSub, Imm(-c), 0));
      } else {
        Emit(Alu(AluAdd, Imm(c), 0));
      }
    }

    method EmitShiftBy(op: ShiftOp, count: nat)
      modifies this`outbuf
      ensures outbuf == old(outbuf) + ShiftBy(op, count)
    {
      if count == 0 { return; }
      if count <= 8 {
        Emit(Shift(op, Imm(count), 0));
      } else {
        Emit(Move(L, Imm(count), Dn(1)));
        Emit(Shift(op, Dn(1), 0));
      }
    }

    method EmitAll(lines: seq<Instr>)
      modifies this`outbuf
      ensures outbuf == old(outbuf) + lines
    {
      var i := 0;
      while i < |lines|
        invariant i <= |lines| && outbuf == old(outbuf) + lines[..i]
      {
        assert lines[..i + 1] == lines[..i] + [lines[i]];
        Emit(lines[i]);
        i := i + 1;
      }
      assert lines[..i] == lines;
    }

    // ir_const_binop: false, with nothing emitted, when the operator is not specialized.
    method ConstBinop(e: IrExpr, operand: IrExpr, c: Int32) returns (done: bool)
      requires e.Binop? && operand < e
      modifies this
      ensures var t := ConstTail(e.op, e.uns, c, old(uid)); done == t.Some?
      ensures var t := ConstTail(e.op, e.uns, c, old(uid));
        if t.None? then unchanged(this)
        else var x := ExprCode(operand, ra, t.value.uid); Emitted(Out(x.code + t.value.code, x.uid))
      decreases e, 1
    {
      hide ExprCode, ConstTail, MulTail;
      if e.op == Op.Shl || e.op == Op.Shr {
        done := ConstShift(e, operand, c);
      } else if e.op == Op.Mul {
        ConstTailCases(e.op, e.uns, c, uid);
        done := ConstMul(e, operand, c);
      } else if e.op == Op.Div || e.op == Op.Mod {
        done := ConstDivMod(e, operand, c);
      } else {
        ConstTailCases(e.op, e.uns, c, uid);
        IrExpr(operand);
        EmitConstTail(e.op, e.uns, c);
        done := true;
      }
    }

    lemma ConstTailCases(op: Op, uns: bool, c: Int32, u: nat)
      ensures op == Op.Mul ==> ConstTail(op, uns, c, u) == if MulTail(c).None? then None else Some(Out(MulTail(c).value, u))
      ensures op != Op.Mul && op != Op.Div && op != Op.Mod && op != Op.Shl && op != Op.Shr ==>
        ConstTail(op, uns, c, u).Some? && ConstTail(op, uns, c, u).value.uid == u
        && forall k: nat :: ConstTail(op, uns, c, k).value.code == ConstTail(op, uns, c, u).value.code
    {
      hide MulTail, AddImm, SetBool, ShiftBy, SignedDivTail, SignedModTail, IsPow2;
    }

    // The operators specialized for every constant.
    method EmitConstTail(op: Op, uns: bool, c: Int32)
      requires op != Op.Mul && op != Op.Div && op != Op.Mod && op != Op.Shl && op != Op.Shr
      modifies this`outbuf
      ensures ConstTail(op, uns, c, uid).Some?
      ensures outbuf == old(outbuf) + ConstTail(op, uns, c, uid).value.code
    {
      if op == Op.Add {
        EmitAddImm(c);
      } else if op == Op.Sub {
        EmitAddImm(Signed(Wrap(0 - c)));
      } else if op == Op.BitAnd {
        Emit(Alu(AluAnd, Imm(c), 0));
      } else if op == Op.BitOr {
        Emit(Alu(AluOr, Imm(c), 0));
      } else if op == Op.BitXor {
        Emit(Alu(AluEor, Imm(c), 0));
      } else {
        Emit(Cmp(Imm(c), 0));
        EmitAll(SetBool(RelCc(op, uns)));
      }
    }

    method ConstShift(e: IrExpr, operand: IrExpr, c: Int32) returns (done: bool)
      requires e.Binop? && operand < e && (e.op == Op.Shl || e.op == Op.Shr)
      modifies this
      ensures var t := ConstTail(e.op, e.uns, c, old(uid)); done == t.Some?
      ensures var t := ConstTail(e.op, e.uns, c, old(uid));
        if t.None? then unchanged(this)
        else var x := ExprCode(operand, ra, t.value.uid); Emitted(Out(x.code + t.value.code, x.uid))
      decreases e, 0
    {
      if c < 1 || c > 31 { return false; }
      IrExpr(operand);
      EmitShiftBy(if e.op == Op.Shl then AslOp else if e.uns then LsrOp else AsrOp, c);
      return true;
    }

    method ConstDivMod(e: IrExpr, operand: IrExpr, c: Int32) returns (done: bool)
      requires e.Binop? && operand < e && (e.op == Op.Div || e.op == Op.Mod)
      modifies this
      ensures var t := ConstTail(e.op, e.uns, c, old(uid)); done == t.Some?
      ensures var t := ConstTail(e.op, e.uns, c, old(uid));
        if t.None? then unchanged(this)
        else var x := ExprCode(operand, ra, t.value.uid); Emitted(Out(x.code + t.value.code, x.uid))
      decreases e, 0
    {
      hide And, Ctz, ExprCode;
      var uc := Wrap(c);
      if e.uns && IsPow2(uc) {
        IrExpr(operand);
        if e.op == Op.Div {
          var k := CountTrailingZeros(uc);
          EmitShiftBy(LsrOp, k);
        } else {
          Emit(Alu(AluAnd, Imm(uc - 1), 0));
        }
        return true;
      }
      if !e.uns && c >= 2 && IsPow2(uc) {
        var lc := NewId();
        IrExpr(operand);
        if e.op == Op.Div {
          var k := CountTrailingZeros(uc);
          EmitSignedDiv(c, k, lc);
        } else {
          EmitAll(SignedModTail(c, lc));
        }
        return true;
      }
      return false;
    }

    method EmitSignedDiv(c: Int32, k: nat, lc: nat)
      requires c >= 2
      modifies this`outbuf
      ensures outbuf == old(outbuf) + SignedDivTail(c, k, lc)
    {
      Emit(Tst(0));
      Emit(Bcc(PL, Lbl("L_sdiv_", lc)));
      EmitAddImm(c - 1);
      Emit(Lab(Lbl("L_sdiv_", lc)));
      EmitShiftBy(AsrOp, k);
    }

    method ConstMul(e: IrExpr, operand: IrExpr, c: Int32) returns (done: bool)
      requires e.Binop? && operand < e
      modifies this
      ensures done == MulTail(c).Some?
      ensures if MulTail(c).None? then unchanged(this)
        else var x := ExprCode(operand, ra, old(uid)); Emitted(Out(x.code + MulTail(c).value, x.uid))
      decreases e, 0
    {
      hide ExprCode, IsPow2, ShiftBy;
      var uc := Wrap(c);
      if c == 0 || c == 1 || c == -1 || IsPow2(uc) {
        IrExpr(operand);
        if c == 0 {
          Emit(Move(L, Imm(0), Dn(0)));
        } else if c == -1 {
          Emit(M68k.Neg(0));
        } else if c != 1 {
          var k := CountTrailingZeros(uc);
          EmitShiftBy(AslOp, k);
        }
        return true;
      }
      if c >= 3 {
        if IsPow2(uc - 1) && Ctz(uc - 1) <= 8 {
          IrExpr(operand);
          EmitAround(Ctz(uc - 1), AluAdd);
          return true;
        }
        if IsPow2(uc + 1) && Ctz(uc + 1) <= 8 {
          IrExpr(operand);
          EmitAround(Ctz(uc + 1), AluSub);
          return true;
        }
      }
      return false;
    }

    method EmitAround(k: nat, op: AluOp)
      modifies this`outbuf
      ensures outbuf == old(outbuf) + [Move(L, Dn(0), Dn(1)), Shift(AslOp, Imm(k), 0), Alu(op, Dn(1), 0)]
    {
      Emit(Move(L, Dn(0), Dn(1)));
      Emit(Shift(AslOp, Imm(k), 0));
      Emit(Alu(op, Dn(1), 0));
    }

    // ir_binop: constant right, constant left, memory operand, then the generic form.
    method IrBinop(e: IrExpr)
      requires e.Binop?
      modifies this
      ensures Emitted(BinopCode(e, ra, old(uid)))
      decreases e, 3
    {
      hide And, Ctz, ExprCode, ConstTail, SetBool, GenericTail, MemTail, SimpleOperand, ConstOf;
      var done := false;
      var cb := ConstOf(e.b);
      if cb.Some? {
        done := ConstBinop(e, e.a, cb.value);
        if done { return; }
      }
      var ca := ConstOf(e.a);
      if ca.Some? {
        done := ConstBinopLeft(e, ca.value);
        if done { return; }
      }
      var ea := SimpleOperand(e.b, ra);
      if ea.Some? && HasMemoryForm(e.op) {
        IrExpr(e.a);
        EmitAll(MemTail(e.op, e.uns, ea.value));
        return;
      }
      IrGeneric(e);
    }

    // Right operand pushed, left operand in D0, right operand popped into D1.
    method IrGeneric(e: IrExpr)
      requires e.Binop?
      modifies this
      ensures var y := ExprCode(e.b, ra, old(uid)); var x := ExprCode(e.a, ra, y.uid);
        Emitted(Out(y.code + [PushD0] + x.code + [PopD1] + GenericTail(e.op, e.uns), x.uid))
      decreases e, 2
    {
      hide ExprCode, GenericTail;
      IrExpr(e.b);
      Push();
      IrExpr(e.a);
      Pop(Dn(1));
      EmitAll(GenericTail(e.op, e.uns));
    }

    method ConstBinopLeft(e: IrExpr, c: Int32) returns (done: bool)
      requires e.Binop?
      modifies this
      ensures var t := ConstTailLeft(e.op, e.uns, c, old(uid)); done == t.Some?
      ensures var t := ConstTailLeft(e.op, e.uns, c, old(uid));
        if t.None? then unchanged(this)
        else var x := ExprCode(e.b, ra, t.value.uid); Emitted(Out(x.code + t.value.code, x.uid))
      decreases e, 2
    {
      hide ExprCode, ConstTail, SetBool;
      if IsCommutative(e.op) {
        done := ConstBinop(e, e.b, c);
      } else if e.op == Op.Lt || e.op == Op.Le {
        IrExpr(e.b);
        Emit(Cmp(Imm(c), 0));
        EmitAll(SetBool(if e.op == Op.Lt then (if e.uns then HI else GT) else (if e.uns then CC else GE)));
        done := true;
      } else {
        done := false;
      }
    }

    method PushArgs(args: seq<IrExpr>)
      modifies this
      ensures var x := ArgsCode(args, ra, old(uid));
        outbuf == old(outbuf) + x.code && uid == x.uid && depth == old(depth) + |args|
      decreases args, 0
    {
      if args != [] {
        PushArgs(args[1..]);
        IrExpr(args[0]);
        Push();
      }
    }

    method IrCall(e: IrExpr)
      requires e.CallDirect? || e.CallIndirect?
      modifies this
      ensures Emitted(ExprCode(e, ra, old(uid)))
      decreases e, 2
    {
      CallCode(e, ra, uid);
      hide ExprCode, ArgsCode;
      PushArgs(e.args);
      EmitTarget(e);
      DropArgs(|e.args|);
    }

    method DropArgs(n: nat)
      modifies this`outbuf, this`depth
      ensures outbuf == old(outbuf) + PopArgs(n) && depth == old(depth) - n
    {
      if n > 0 {
        Emit(AddSp(4 * n));
        depth := depth - n;
      }
    }

    // The call itself, through the callee's address when it has no name.
    method EmitTarget(e: IrExpr)
      requires e.CallDirect? || e.CallIndirect?
      modifies this
      ensures e.CallDirect? ==> Emitted(Out([Jsr(Abs(e.name), |e.args|)], old(uid)))
      ensures e.CallIndirect? ==>
        var x := ExprCode(e.a, ra, old(uid)); Emitted(Out(x.code + [D0ToA0, Jsr(Ind(0), |e.args|)], x.uid))
      decreases e, 1
    {
      hide ExprCode;
      if e.CallDirect? {
        Emit(Jsr(Abs(e.name), |e.args|));
      } else {
        IrExpr(e.a);
        Emit(D0ToA0);
        Emit(Jsr(Ind(0), |e.args|));
      }
    }

    method IrMemzero(e: IrExpr)
      requires e.Memzero?
      modifies this
      ensures Emitted(ExprCode(e, ra, old(uid)))
    {
      var r := RegOf(ra, e.v);
      if r != 0 {
        Emit(Move(L, Imm(0), RegEa(r)));
        return;
      }
      if e.size <= 16 && e.off % 2 == 0 {
        EmitClrRun(e.off, e.size);
        return;
      }
      var c := NewId();
      Emit(LeaTo(Disp(e.off, 6), 0));
      Emit(Move(H, Imm(e.size - 1), Dn(1)));
      Emit(Lab(Lbl("L_memzero_", c)));
      Emit(ClrInc(0));
      Emit(Dbra(1, Lbl("L_memzero_", c)));
    }

    method EmitClrRun(off: int, size: nat)
      modifies this`outbuf
      ensures outbuf == old(outbuf) + ClrRun(off, size)
    {
      hide ClrRun;
      var p := 0;
      ghost var done := [];
      while size - p >= 4
        invariant p <= size
        invariant outbuf == old(outbuf) + done && done + ClrRun(off + p, size - p) == ClrRun(off, size)
      {
        ClrRunHead(off + p, size - p);
        Emit(Clr(L, Disp(off + p, 6)));
        done := done + [Clr(L, Disp(off + p, 6))];
        p := p + 4;
      }
      if size > p { ClrRunHead(off + p, size - p); }
      if size - p >= 2 {
        Emit(Clr(H, Disp(off + p, 6)));
        p := p + 2;
        if size > p { ClrRunHead(off + p, size - p); }
      }
      if size - p >= 1 {
        Emit(Clr(B, Disp(off + p, 6)));
      }
      NoClr(off + size);
    }

    // ir_expr.
    method IrExpr(e: IrExpr)
      modifies this
      ensures Emitted(ExprCode(e, ra, old(uid)))
      decreases e, 4
    {
      hide BinopCode, CondCode, ArgsCode, PopArgs, MemzeroCode, UnaryTail, CastTail, LoadFromA0, PlaceEa, RegEa, LeaReg;
      match e {
        case Nop =>
        case Num(val, _, _) => Emit(Move(L, Imm(val), Dn(0)));
        case Lea(p) =>
          Emit(LeaTo(PlaceEa(p), 0));
          Emit(Move(L, An(0), Dn(0)));
        case Load(_, _, _) => IrLoad(e);
        case Store(_, _, _) => IrStore(e);
        case Binop(_, _, _, _, _, _) => IrBinop(e);
        case Unary(uop, _, _, a) =>
          IrExpr(a);
          EmitAll(UnaryTail(uop));
        case LogAnd(a, b) => IrShortCircuit(e, EQ, "L_false_", 1, 0);
        case LogOr(a, b) => IrShortCircuit(e, NE, "L_true_", 0, 1);
        case Cond(_, _, _) => IrCondExpr(e);
        case Comma(a, b) =>
          IrExpr(a);
          IrExpr(b);
        case Cast(to, size, uns, _, _, a) =>
          IrExpr(a);
          EmitAll(CastTail(to, size, uns));
        case CallDirect(_, _) => IrCall(e);
        case CallIndirect(_, _) => IrCall(e);
        case Memzero(_, _, _) => IrMemzero(e);
        case Vdef(reg, a) =>
          IrExpr(a);
          if reg != 0 { Emit(Move(L, Dn(0), RegEa(reg))); }
        case Vuse(reg) =>
          if reg != 0 { Emit(Move(L, RegEa(reg), Dn(0))); }
      }
    }

    method IrCondExpr(e: IrExpr)
      requires e.Cond?
      modifies this
      ensures Emitted(ExprCode(e, ra, old(uid)))
      decreases e, 2
    {
      hide ExprCode, CondCode;
      CondExprCode(e, ra, uid);
      var n := NewId();
      IrCond(e.a, Lbl("L_else_", n), false);
      IrExpr(e.b);
      Emit(Bra(Lbl("L_end_", n)));
      Emit(Lab(Lbl("L_else_", n)));
      IrExpr(e.c);
      Emit(Lab(Lbl("L_end_", n)));
    }

    method IrLoad(e: IrExpr)
      requires e.Load?
      modifies this
      ensures Emitted(ExprCode(e, ra, old(uid)))
      decreases e, 2
    {
      hide ExprCode, LoadFromA0;
      LoadCode(e, ra, uid);
      var r := LeaReg(e.a, ra);
      if r != 0 {
        Emit(Move(L, RegEa(r), Dn(0)));
      } else if IsIndexedLoad(e) {
        IrExpr(e.a.b);
        Emit(Move(L, Dn(0), Dn(1)));
        IrExpr(e.a.a);
        Emit(D0ToA0);
        Emit(Move(L, Indexed, Dn(0)));
      } else {
        IrExpr(e.a);
        Emit(D0ToA0);
        EmitAll(LoadFromA0(e.size, e.uns));
      }
    }

    method IrStore(e: IrExpr)
      requires e.Store?
      modifies this
      ensures Emitted(ExprCode(e, ra, old(uid)))
      decreases e, 2
    {
      hide ExprCode, StoreSize, PlaceEa;
      StoreCode(e, ra, uid);
      var r := LeaReg(e.a, ra);
      if r != 0 {
        IrExpr(e.b);
        Emit(Move(L, Dn(0), RegEa(r)));
      } else if e.a.Lea? && e.size <= 4 {
        IrExpr(e.b);
        Emit(Move(StoreSize(e.size), Dn(0), PlaceEa(e.a.place)));
      } else {
        IrExpr(e.a);
        Push();
        IrExpr(e.b);
        Pop(An(1));
        Emit(Move(StoreSize(e.size), Dn(0), Ind(1)));
      }
    }

    method IrShortCircuit(e: IrExpr, cc: Cc, kind: string, hi: Word, lo: Word)
      requires (e.LogAnd? && cc == EQ && kind == "L_false_" && hi == 1 && lo == 0)
            || (e.LogOr? && cc == NE && kind == "L_true_" && hi == 0 && lo == 1)
      modifies this
      ensures Emitted(ExprCode(e, ra, old(uid)))
      decreases e, 2
    {
      hide ExprCode;
      ShortCircuitCode(e, ra, uid);
      var c := NewId();
      var out, end := Lbl(kind, c), Lbl("L_end_", c);
      IrExpr(e.a);
      EmitTest(cc, out);
      IrExpr(e.b);
      EmitTest(cc, out);
      EmitBoolTail(hi, lo, out, end);
    }

    method EmitTest(cc: Cc, out: Label)
      modifies this`outbuf
      ensures outbuf == old(outbuf) + [Tst(0), Bcc(cc, out)]
    {
      Emit(Tst(0));
      Emit(Bcc(cc, out));
    }

    method EmitBoolTail(hi: Word, lo: Word, out: Label, end: Label)
      modifies this`outbuf
      ensures outbuf == old(outbuf)
        + [Move(L, Imm(hi), Dn(0)), Bra(end), Lab(out), Move(L, Imm(lo), Dn(0)), Lab(end)]
    {
      Emit(Move(L, Imm(hi), Dn(0)));
      Emit(Bra(end));
      Emit(Lab(out));
      Emit(Move(L, Imm(lo), Dn(0)));
      Emit(Lab(end));
    }

    // ir_cond.
    method IrCond(e: IrExpr, target: Label, when: bool)
      modifies this
      ensures Emitted(CondCode(e, target, when, ra, old(uid)))
      decreases e, 6
    {
      hide ExprCode, CompareCode, BranchCc, RelOf, ConstOf;
      if e.Unary? && e.uop == LogNot {
        IrCond(e.a, target, !when);
      } else if (e.LogAnd? && !when) || (e.LogOr? && when) {
        IrCond(e.a, target, when);
        IrCond(e.b, target, when);
      } else if e.LogAnd? || e.LogOr? {
        var c := NewId();
        IrCond(e.a, Lbl("L_condskip_", c), !when);
        IrCond(e.b, target, when);
        Emit(Lab(Lbl("L_condskip_", c)));
      } else if e.Binop? && IsRelation(e.op) {
        IrRelation(e, target, when);
      } else {
        IrExpr(e);
        Emit(Tst(0));
        Emit(Bcc(if when then NE else EQ, target));
      }
    }

    method IrRelation(e: IrExpr, target: Label, when: bool)
      requires e.Binop? && IsRelation(e.op)
      modifies this
      ensures Emitted(CondCode(e, target, when, ra, old(uid)))
      decreases e, 5
    {
      hide ExprCode, CondCode, BranchCc, ConstOf, SimpleOperand, RelOf, RelSwap, RelNegate, IsRelation;
      CondRelationCode(e, target, when, ra, uid);
      var base := RelOf(e.op);
      var ca, cb, ea := ConstOf(e.a), ConstOf(e.b), SimpleOperand(e.b, ra);
      if cb.Some? {
        IrExpr(e.a);
        Emit(Cmp(Imm(cb.value), 0));
      } else if ca.Some? {
        IrExpr(e.b);
        Emit(Cmp(Imm(ca.value), 0));
        base := RelSwap(base);
      } else if ea.Some? {
        IrExpr(e.a);
        Emit(Cmp(ea.value, 0));
      } else {
        IrExpr(e.b);
        Push();
        IrExpr(e.a);
        Pop(Dn(1));
        Emit(Cmp(Dn(1), 0));
      }
      Emit(Bcc(BranchCc(if when then base else RelNegate(base), e.uns), target));
    }
  }
}
