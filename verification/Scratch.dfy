// In the selected code A0 is scratch: every fragment writes it before reading it, and
// nothing reads it after a direct load.
module Scratch {
  import opened Words
  import opened Ir
  import opened M68k
  import opened Select
  import opened Peephole
  import opened PeepholeProof
  import opened Items
  import opened Labels
  import opened Function

  // A0 is in use at the clearing loop's label only.
  predicate InUse(l: Label) { l.Lbl? && l.kind == "L_memzero_" }

  predicate ControlOnly(i: Instr) {
    i.LeaTo? ==> i.src.Ind? || i.src.Disp? || i.src.Indexed? || i.src.Abs?
  }

  // Line i of a fragment after which A0 is dead.
  predicate LineNeat(code: seq<Instr>, dead: seq<bool>, i: nat)
    requires i < |code| == |dead|
  {
    && ControlOnly(code[i])
    && (code[i].Lab? && !InUse(code[i].l) ==> dead[i])
    && (code[i] == LOAD_A0 && !(i + 1 < |code| && Mentions(code[i + 1])) ==> DeadAt(dead, i + 1))
    && (dead[i] ==>
          && !ReadsA0(code[i])
          && (WritesA0(code[i])
              || ((Peephole.IsTransfer(code[i]) || DeadAt(dead, i + 1))
                  && (JumpLabel(code[i]).Some? ==> !InUse(JumpLabel(code[i]).value)))))
  }

  predicate NeatBy(code: seq<Instr>, dead: seq<bool>) {
    |dead| == |code| && (|code| > 0 ==> dead[0]) && forall i | 0 <= i < |code| :: LineNeat(code, dead, i)
  }

  ghost predicate Neat(code: seq<Instr>) { exists dead :: NeatBy(code, dead) }

  lemma JoinNeat(x: seq<Instr>, y: seq<Instr>)
    requires Neat(x) && Neat(y)
    ensures Neat(x + y)
  {
    hide LineNeat;
    if x == [] {
      assert x + y == y;
    } else {
      var dx :| NeatBy(x, dx);
      var dy :| NeatBy(y, dy);
      forall i | 0 <= i < |x + y| ensures LineNeat(x + y, dx + dy, i) {
        if i < |x| { NeatLeft(x, y, dx, dy, i); } else { NeatRight(x, y, dx, dy, i - |x|); }
      }
      assert NeatBy(x + y, dx + dy);
    }
  }

  lemma NeatLeft(x: seq<Instr>, y: seq<Instr>, dx: seq<bool>, dy: seq<bool>, i: nat)
    requires |dx| == |x| && |dy| == |y| && (|y| > 0 ==> dy[0]) && i < |x| && LineNeat(x, dx, i)
    ensures LineNeat(x + y, dx + dy, i)
  {
    hide ReadsA0, WritesA0, Mentions, ControlOnly;
  }

  lemma NeatRight(x: seq<Instr>, y: seq<Instr>, dx: seq<bool>, dy: seq<bool>, i: nat)
    requires |dx| == |x| && |dy| == |y| && i < |y| && LineNeat(y, dy, i)
    ensures LineNeat(x + y, dx + dy, |x| + i)
  {
    hide ReadsA0, WritesA0, Mentions, ControlOnly;
  }

  // Lines that have nothing to do with A0.
  predicate Plain(i: Instr) {
    ControlOnly(i) && !ReadsA0(i) && i != LOAD_A0 && (JumpLabel(i).Some? ==> !InUse(JumpLabel(i).value))
  }

  lemma PlainNeat(code: seq<Instr>)
    requires forall i | 0 <= i < |code| :: Plain(code[i])
    ensures Neat(code)
  {
    hide ReadsA0, WritesA0, Mentions, ControlOnly;
    assert NeatBy(code, seq(|code|, i => true));
  }

  lemma One(i: Instr)
    requires Plain(i)
    ensures Neat([i])
  {
    PlainNeat([i]);
  }

  lemma Empty()
    ensures Neat([])
  {
    PlainNeat([]);
  }

  lemma Two(i: Instr, j: Instr)
    requires Plain(i) && Plain(j)
    ensures Neat([i, j])
  {
    PlainNeat([i, j]);
  }

  // ---- fixed fragments --------------------------------------------------------------------

  lemma TailsNeat(op: Op, uns: bool, to: TypeKind, size: nat, uop: UnOp, n: nat, ea: Ea)
    requires !EaReads(ea)
    ensures Neat(GenericTail(op, uns)) && Neat(CastTail(to, size, uns)) && Neat(UnaryTail(uop)) && Neat(PopArgs(n))
    ensures HasMemoryForm(op) ==> Neat(MemTail(op, uns, ea))
  {
    hide Neat;
    GenericNeat(op, uns);
    PlainNeat(CastTail(to, size, uns));
    PlainNeat(UnaryTail(uop));
    PlainNeat(PopArgs(n));
    if HasMemoryForm(op) { MemNeat(op, uns, ea); }
  }

  lemma MemNeat(op: Op, uns: bool, ea: Ea)
    requires HasMemoryForm(op) && !EaReads(ea)
    ensures Neat(MemTail(op, uns, ea))
  {
    hide Neat;
    PlainNeat(MemTail(op, uns, ea));
  }

  lemma GenericNeat(op: Op, uns: bool)
    ensures Neat(GenericTail(op, uns))
  {
    hide Neat;
    PlainNeat(GenericTail(op, uns));
  }

  lemma LoadTailNeat(size: nat, uns: bool)
    ensures Neat([D0ToA0] + LoadFromA0(size, uns))
  {
    var code := [D0ToA0] + LoadFromA0(size, uns);
    if size != 1 && size != 2 { assert NeatBy(code, [true, false]); }
    else if uns { assert NeatBy(code, [true, false, false]); }
    else if size == 1 { assert NeatBy(code, [true, false, true, true]); }
    else { assert NeatBy(code, [true, false, true]); }
  }

  lemma AddressNeat(p: Place)
    ensures Neat([LeaTo(PlaceEa(p), 0), Move(L, An(0), Dn(0))])
  {
    assert NeatBy([LeaTo(PlaceEa(p), 0), Move(L, An(0), Dn(0))], [true, false]);
  }

  lemma IndexedNeat()
    ensures Neat([D0ToA0, Move(L, Indexed, Dn(0))])
  {
    assert NeatBy([D0ToA0, Move(L, Indexed, Dn(0))], [true, false]);
  }

  lemma IndirectCallNeat(n: nat)
    ensures Neat([D0ToA0, Jsr(Ind(0), n)])
  {
    assert NeatBy([D0ToA0, Jsr(Ind(0), n)], [true, false]);
  }

  lemma {:induction false} ClrRunNeat(off: int, n: nat)
    ensures Neat(ClrRun(off, n))
    decreases n
  {
    if n >= 4 {
      ClrRunNeat(off + 4, n - 4);
      One(Clr(L, Disp(off, 6)));
      JoinNeat([Clr(L, Disp(off, 6))], ClrRun(off + 4, n - 4));
    } else {
      PlainNeat(ClrRun(off, n));
    }
  }

  lemma MemzeroNeat(r: Reg, off: int, size: nat, u: nat)
    ensures Neat(MemzeroCode(r, off, size, u).code)
  {
    if r != 0 {
      One(Move(L, Imm(0), RegEa(r)));
    } else if size <= 16 && off % 2 == 0 {
      ClrRunNeat(off, size);
    } else {
      assert NeatBy(MemzeroCode(r, off, size, u).code, [true, false, false, false, false]);
    }
  }

  lemma ShiftPlain(op: ShiftOp, k: nat)
    ensures forall i | 0 <= i < |ShiftBy(op, k)| :: Plain(ShiftBy(op, k)[i])
  {}

  lemma ImmPlain(c: Int32)
    ensures forall i | 0 <= i < |AddImm(c)| :: Plain(AddImm(c)[i])
    ensures MulTail(c).Some? ==> forall i | 0 <= i < |MulTail(c).value| :: Plain(MulTail(c).value[i])
  {
    hide IsPow2, Ctz;
  }

  lemma DivPlain(c: Int32, k: nat, u: nat)
    requires c >= 2
    ensures Neat(SignedDivTail(c, k, u)) && Neat(SignedModTail(c, u))
  {
    hide ShiftBy, AddImm, Neat, Plain, InUse;
    ImmPlain(c - 1);
    ShiftPlain(AsrOp, k);
    NotMemzero(u);
    var skip := Lbl("L_sdiv_", u);
    BranchPlain(skip);
    PlainNeat([Tst(0), Bcc(PL, skip)]);
    PlainNeat(AddImm(c - 1));
    PlainNeat([Lab(skip)]);
    PlainNeat(ShiftBy(AsrOp, k));
    JoinNeat([Tst(0), Bcc(PL, skip)], AddImm(c - 1));
    JoinNeat([Tst(0), Bcc(PL, skip)] + AddImm(c - 1), [Lab(skip)]);
    JoinNeat([Tst(0), Bcc(PL, skip)] + AddImm(c - 1) + [Lab(skip)], ShiftBy(AsrOp, k));
    ModPlain(c, u);
  }

  lemma BranchPlain(l: Label)
    requires !InUse(l)
    ensures Plain(Tst(0)) && Plain(Bcc(PL, l)) && Plain(Lab(l))
  {}

  lemma ModPlain(c: Int32, u: nat)
    ensures Neat(SignedModTail(c, u))
  {
    hide InUse, Neat;
    NotMemzero(u);
    PlainNeat(SignedModTail(c, u));
  }

  lemma NotMemzero(u: nat)
    ensures !InUse(Lbl("L_sdiv_", u)) && !InUse(Lbl("L_smod_", u)) && !InUse(Lbl("L_smodx_", u))
    ensures !InUse(Lbl("L_false_", u)) && !InUse(Lbl("L_true_", u)) && !InUse(Lbl("L_end_", u))
    ensures !InUse(Lbl("L_else_", u)) && !InUse(Lbl("L_condskip_", u))
  {
    assert "L_smodx_"[2] != "L_memzero_"[2];
    assert |"L_condskip_"| == 11 && |"L_memzero_"| == 10;
  }

  lemma ConstTailNeat(op: Op, uns: bool, c: Int32, u: nat)
    requires ConstTail(op, uns, c, u).Some?
    ensures Neat(ConstTail(op, uns, c, u).value.code)
  {
    hide AddImm, ShiftBy, MulTail, And, Ctz, Plain, SignedDivTail, SignedModTail;
    var code := ConstTail(op, uns, c, u).value.code;
    ImmPlain(c);
    ImmPlain(Signed(Wrap(0 - c)));
    SetPlain(op, uns, c);
    if op == Op.Div && !uns {
      DivPlain(c, Ctz(Wrap(c)), u);
    } else if op == Op.Mod && !uns {
      DivPlain(c, 0, u);
    } else {
      if op == Op.Div { ShiftPlain(LsrOp, Ctz(Wrap(c))); }
      if op == Op.Shl || op == Op.Shr {
        ShiftPlain(if op == Op.Shl then AslOp else if uns then LsrOp else AsrOp, c);
      }
      PlainNeat(code);
    }
  }

  lemma SetPlain(op: Op, uns: bool, c: int)
    ensures Plain(Cmp(Imm(c), 0)) && forall cc :: Plain(Scc(cc, 0)) && Plain(Alu(AluAnd, Imm(1), 0))
    ensures forall a, k :: Plain(Alu(a, Imm(k), 0))
  {}

  lemma LeftTailNeat(op: Op, uns: bool, c: Int32, u: nat)
    requires ConstTailLeft(op, uns, c, u).Some?
    ensures Neat(ConstTailLeft(op, uns, c, u).value.code)
  {
    hide ConstTail;
    if IsCommutative(op) {
      ConstTailNeat(op, uns, c, u);
    } else {
      PlainNeat(ConstTailLeft(op, uns, c, u).value.code);
    }
  }

  lemma {:induction false} SimplePlain(e: IrExpr, ra: map<nat, Reg>)
    requires SimpleOperand(e, ra).Some?
    ensures !EaReads(SimpleOperand(e, ra).value)
  {
    match e {
      case Cast(_, _, _, _, _, a) => SimplePlain(a, ra);
      case Load(_, _, _) =>
    }
  }

  // ---- expressions ------------------------------------------------------------------------

  lemma {:induction false} ExprNeat(e: IrExpr, ra: map<nat, Reg>, u: nat)
    ensures Neat(ExprCode(e, ra, u).code)
    decreases e, 2
  {
    hide Neat, Plain, LoadFromA0, UnaryTail, CastTail, PopArgs, BinopCode, MemzeroCode;
    match e {
      case Nop => Empty();
      case Num(_, _, _) => LeafNeat(e, ra, u);
      case Lea(p) => AddressNeat(p);
      case Vuse(_) => LeafNeat(e, ra, u);
      case Load(_, _, _) => LoadNeat(e, ra, u);
      case Store(_, _, _) => StoreNeat(e, ra, u);
      case Binop(_, _, _, _, _, _) => BinopNeat(e, ra, u);
      case Unary(uop, _, _, a) =>
        ExprNeat(a, ra, u);
        TailsNeat(Op.Add, false, TyInt, 4, uop, 0, Dn(0));
        JoinNeat(ExprCode(a, ra, u).code, UnaryTail(uop));
      case LogAnd(_, _) => ShortNeat(e, ra, u);
      case LogOr(_, _) => ShortNeat(e, ra, u);
      case Cond(_, _, _) => CondExprNeat(e, ra, u);
      case Comma(a, b) =>
        ExprNeat(a, ra, u);
        ExprNeat(b, ra, ExprCode(a, ra, u).uid);
        JoinNeat(ExprCode(a, ra, u).code, ExprCode(b, ra, ExprCode(a, ra, u).uid).code);
      case Cast(to, size, uns, _, _, a) =>
        ExprNeat(a, ra, u);
        TailsNeat(Op.Add, uns, to, size, UnOp.Neg, 0, Dn(0));
        JoinNeat(ExprCode(a, ra, u).code, CastTail(to, size, uns));
      case CallDirect(_, _) => CallNeat(e, ra, u);
      case CallIndirect(_, _) => CallNeat(e, ra, u);
      case Memzero(v, off, size) => MemzeroNeat(RegOf(ra, v), off, size, u);
      case Vdef(reg, a) =>
        ExprNeat(a, ra, u);
        VdefNeat(reg);
        JoinNeat(ExprCode(a, ra, u).code, if reg != 0 then [Move(L, Dn(0), RegEa(reg))] else []);
    }
  }

  lemma VdefNeat(reg: Reg)
    ensures Neat(if reg != 0 then [Move(L, Dn(0), RegEa(reg))] else [])
    ensures Neat(if reg != 0 then [Move(L, RegEa(reg), Dn(0))] else [])
  {
    if reg == 0 { Empty(); } else { One(Move(L, Dn(0), RegEa(reg))); One(Move(L, RegEa(reg), Dn(0))); }
  }

  lemma LeafNeat(e: IrExpr, ra: map<nat, Reg>, u: nat)
    requires e.Num? || e.Vuse?
    ensures Neat(ExprCode(e, ra, u).code)
  {
    if e.Num? { One(Move(L, Imm(e.val), Dn(0))); } else { VdefNeat(e.reg); }
  }

  lemma LoadNeat(e: IrExpr, ra: map<nat, Reg>, u: nat)
    requires e.Load?
    ensures Neat(ExprCode(e, ra, u).code)
    decreases e, 1
  {
    hide Neat, LoadFromA0;
    var r := LeaReg(e.a, ra);
    if r != 0 {
      VdefNeat(r);
    } else if IsIndexedLoad(e) {
      var x := ExprCode(e.a.b, ra, u);
      var y := ExprCode(e.a.a, ra, x.uid);
      ExprNeat(e.a.b, ra, u);
      ExprNeat(e.a.a, ra, x.uid);
      One(Move(L, Dn(0), Dn(1)));
      JoinNeat(x.code, [Move(L, Dn(0), Dn(1))]);
      JoinNeat(x.code + [Move(L, Dn(0), Dn(1))], y.code);
      IndexedNeat();
      JoinNeat(x.code + [Move(L, Dn(0), Dn(1))] + y.code, [D0ToA0, Move(L, Indexed, Dn(0))]);
    } else {
      var x := ExprCode(e.a, ra, u);
      ExprNeat(e.a, ra, u);
      LoadTailNeat(e.size, e.uns);
      JoinNeat(x.code, [D0ToA0] + LoadFromA0(e.size, e.uns));
      assert x.code + [D0ToA0] + LoadFromA0(e.size, e.uns) == x.code + ([D0ToA0] + LoadFromA0(e.size, e.uns));
    }
  }

  lemma StoreNeat(e: IrExpr, ra: map<nat, Reg>, u: nat)
    requires e.Store?
    ensures Neat(ExprCode(e, ra, u).code)
    decreases e, 1
  {
    hide Neat;
    var r := LeaReg(e.a, ra);
    if r != 0 || (e.a.Lea? && e.size <= 4) {
      var last := if r != 0 then Move(L, Dn(0), RegEa(r)) else Move(StoreSize(e.size), Dn(0), PlaceEa(e.a.place));
      ExprNeat(e.b, ra, u);
      One(last);
      JoinNeat(ExprCode(e.b, ra, u).code, [last]);
    } else {
      StoreThroughNeat(e, ra, u);
    }
  }

  lemma StoreThroughNeat(e: IrExpr, ra: map<nat, Reg>, u: nat)
    requires e.Store? && LeaReg(e.a, ra) == 0 && !(e.a.Lea? && e.size <= 4)
    ensures Neat(ExprCode(e, ra, u).code)
    decreases e, 0
  {
    hide Neat;
    var x := ExprCode(e.a, ra, u);
    var y := ExprCode(e.b, ra, x.uid);
    var last := [PopA1, Move(StoreSize(e.size), Dn(0), Ind(1))];
    assert ExprCode(e, ra, u).code == x.code + [PushD0] + y.code + last;
    hide ExprCode;
    ExprNeat(e.a, ra, u);
    ExprNeat(e.b, ra, x.uid);
    One(PushD0);
    JoinNeat(x.code, [PushD0]);
    JoinNeat(x.code + [PushD0], y.code);
    Two(PopA1, Move(StoreSize(e.size), Dn(0), Ind(1)));
    JoinNeat(x.code + [PushD0] + y.code, last);
  }

  lemma ShortNeat(e: IrExpr, ra: map<nat, Reg>, u: nat)
    requires e.LogAnd? || e.LogOr?
    ensures Neat(ExprCode(e, ra, u).code)
    decreases e, 1
  {
    hide Neat, ExprCode, InUse;
    ShortCircuitCode(e, ra, u);
    NotMemzero(u);
    var isAnd := e.LogAnd?;
    var no, end := Lbl(if isAnd then "L_false_" else "L_true_", u), Lbl("L_end_", u);
    var test := [Tst(0), Bcc(if isAnd then EQ else NE, no)];
    var tail := [Move(L, Imm(Truth(isAnd)), Dn(0)), Bra(end), Lab(no), Move(L, Imm(Truth(!isAnd)), Dn(0)), Lab(end)];
    var x := ExprCode(e.a, ra, u + 1);
    var y := ExprCode(e.b, ra, x.uid);
    ExprNeat(e.a, ra, u + 1);
    ExprNeat(e.b, ra, x.uid);
    Two(test[0], test[1]);
    PlainNeat(tail);
    JoinNeat(x.code, test);
    JoinNeat(x.code + test, y.code);
    JoinNeat(x.code + test + y.code, test);
    JoinNeat(x.code + test + y.code + test, tail);
  }

  lemma CondExprNeat(e: IrExpr, ra: map<nat, Reg>, u: nat)
    requires e.Cond?
    ensures Neat(ExprCode(e, ra, u).code)
    decreases e, 1
  {
    hide Neat, ExprCode, CondCode, InUse;
    CondExprCode(e, ra, u);
    NotMemzero(u);
    var els, end := Lbl("L_else_", u), Lbl("L_end_", u);
    var x := CondCode(e.a, els, false, ra, u + 1);
    var y := ExprCode(e.b, ra, x.uid);
    var z := ExprCode(e.c, ra, y.uid);
    CondNeat(e.a, els, false, ra, u + 1);
    ExprNeat(e.b, ra, x.uid);
    ExprNeat(e.c, ra, y.uid);
    Two(Bra(end), Lab(els));
    One(Lab(end));
    JoinNeat(x.code, y.code);
    JoinNeat(x.code + y.code, [Bra(end), Lab(els)]);
    JoinNeat(x.code + y.code + [Bra(end), Lab(els)], z.code);
    JoinNeat(x.code + y.code + [Bra(end), Lab(els)] + z.code, [Lab(end)]);
  }

  lemma CallNeat(e: IrExpr, ra: map<nat, Reg>, u: nat)
    requires e.CallDirect? || e.CallIndirect?
    ensures Neat(ExprCode(e, ra, u).code)
    decreases e, 1
  {
    hide Neat, PopArgs;
    var k := |e.args|;
    TailsNeat(Op.Add, false, TyInt, 4, UnOp.Neg, k, Dn(0));
    ArgsNeat(e.args, ra, u);
    var x := ArgsCode(e.args, ra, u);
    if e.CallDirect? {
      One(Jsr(Abs(e.name), k));
      JoinNeat(x.code, [Jsr(Abs(e.name), k)]);
      JoinNeat(x.code + [Jsr(Abs(e.name), k)], PopArgs(k));
    } else {
      var f := ExprCode(e.a, ra, x.uid);
      ExprNeat(e.a, ra, x.uid);
      IndirectCallNeat(k);
      JoinNeat(x.code, f.code);
      JoinNeat(x.code + f.code, [D0ToA0, Jsr(Ind(0), k)]);
      JoinNeat(x.code + f.code + [D0ToA0, Jsr(Ind(0), k)], PopArgs(k));
    }
  }

  lemma ArgsNeat(args: seq<IrExpr>, ra: map<nat, Reg>, u: nat)
    ensures Neat(ArgsCode(args, ra, u).code)
    decreases args, 0
  {
    hide Neat, ExprCode;
    if args == [] {
      Empty();
    } else {
      var rest := ArgsCode(args[1..], ra, u);
      var x := ExprCode(args[0], ra, rest.uid);
      ArgsNeat(args[1..], ra, u);
      ExprNeat(args[0], ra, rest.uid);
      One(PushD0);
      JoinNeat(rest.code, x.code);
      JoinNeat(rest.code + x.code, [PushD0]);
    }
  }

  lemma BinopNeat(e: IrExpr, ra: map<nat, Reg>, u: nat)
    requires e.Binop?
    ensures Neat(ExprCode(e, ra, u).code)
    decreases e, 1
  {
    hide Neat, ConstTail, MemTail, GenericTail, SimpleOperand, EaReads;
    var ca, cb := ConstOf(e.a), ConstOf(e.b);
    if cb.Some? && ConstTail(e.op, e.uns, cb.value, u).Some? {
      var tail := ConstTail(e.op, e.uns, cb.value, u).value;
      ConstTailNeat(e.op, e.uns, cb.value, u);
      ExprNeat(e.a, ra, tail.uid);
      JoinNeat(ExprCode(e.a, ra, tail.uid).code, tail.code);
    } else if ca.Some? && ConstTailLeft(e.op, e.uns, ca.value, u).Some? {
      var tail := ConstTailLeft(e.op, e.uns, ca.value, u).value;
      LeftTailNeat(e.op, e.uns, ca.value, u);
      ExprNeat(e.b, ra, tail.uid);
      JoinNeat(ExprCode(e.b, ra, tail.uid).code, tail.code);
    } else if ReadsRightLast(e, ra) {
      var ea := SimpleOperand(e.b, ra).value;
      SimplePlain(e.b, ra);
      TailsNeat(e.op, e.uns, TyInt, 4, UnOp.Neg, 0, ea);
      ExprNeat(e.a, ra, u);
      JoinNeat(ExprCode(e.a, ra, u).code, MemTail(e.op, e.uns, ea));
    } else {
      assert !EaReads(Dn(0)) by { DnPlain(); }
      TailsNeat(e.op, e.uns, TyInt, 4, UnOp.Neg, 0, Dn(0));
      BothNeat(e, ra, u);
      var y := ExprCode(e.b, ra, u);
      var x := ExprCode(e.a, ra, y.uid);
      JoinNeat(y.code + [PushD0] + x.code + [PopD1], GenericTail(e.op, e.uns));
    }
  }

  lemma DnPlain()
    ensures !EaReads(Dn(0))
  {}

  lemma BothNeat(e: IrExpr, ra: map<nat, Reg>, u: nat)
    requires e.Binop?
    ensures var y := ExprCode(e.b, ra, u); Neat(y.code + [PushD0] + ExprCode(e.a, ra, y.uid).code + [PopD1])
    decreases e, 0
  {
    hide Neat, ExprCode;
    var y := ExprCode(e.b, ra, u);
    var x := ExprCode(e.a, ra, y.uid);
    ExprNeat(e.b, ra, u);
    ExprNeat(e.a, ra, y.uid);
    One(PushD0);
    One(PopD1);
    JoinNeat(y.code, [PushD0]);
    JoinNeat(y.code + [PushD0], x.code);
    JoinNeat(y.code + [PushD0] + x.code, [PopD1]);
  }

  lemma {:induction false} CondNeat(e: IrExpr, target: Label, when: bool, ra: map<nat, Reg>, u: nat)
    requires !InUse(target)
    ensures Neat(CondCode(e, target, when, ra, u).code)
    decreases e, 3
  {
    hide Neat, ExprCode, CompareCode, InUse;
    if e.Unary? && e.uop == LogNot {
      CondNeat(e.a, target, !when, ra, u);
    } else if (e.LogAnd? && !when) || (e.LogOr? && when) {
      var x := CondCode(e.a, target, when, ra, u);
      CondNeat(e.a, target, when, ra, u);
      CondNeat(e.b, target, when, ra, x.uid);
      JoinNeat(x.code, CondCode(e.b, target, when, ra, x.uid).code);
    } else if e.LogAnd? || e.LogOr? {
      var skip := Lbl("L_condskip_", u);
      NotMemzero(u);
      var x := CondCode(e.a, skip, !when, ra, u + 1);
      var y := CondCode(e.b, target, when, ra, x.uid);
      CondNeat(e.a, skip, !when, ra, u + 1);
      CondNeat(e.b, target, when, ra, x.uid);
      One(Lab(skip));
      JoinNeat(x.code, y.code);
      JoinNeat(x.code + y.code, [Lab(skip)]);
    } else if e.Binop? && IsRelation(e.op) {
      CondRelationCode(e, target, when, ra, u);
      var rel := if ConstOf(e.b).None? && ConstOf(e.a).Some? then RelSwap(RelOf(e.op)) else RelOf(e.op);
      var last := Bcc(BranchCc(if when then rel else RelNegate(rel), e.uns), target);
      CompareNeat(e, ra, u);
      One(last);
      JoinNeat(CompareCode(e, ra, u).code, [last]);
    } else {
      ExprNeat(e, ra, u);
      Two(Tst(0), Bcc(if when then NE else EQ, target));
      JoinNeat(ExprCode(e, ra, u).code, [Tst(0), Bcc(if when then NE else EQ, target)]);
    }
  }

  lemma CompareNeat(e: IrExpr, ra: map<nat, Reg>, u: nat)
    requires e.Binop?
    ensures Neat(CompareCode(e, ra, u).code)
    decreases e, 1
  {
    hide Neat, ExprCode, ConstOf, SimpleOperand;
    if ConstOf(e.b).Some? || ConstOf(e.a).Some? || SimpleOperand(e.b, ra).Some? {
      var one := if ConstOf(e.b).None? && ConstOf(e.a).Some? then e.b else e.a;
      var src := if ConstOf(e.b).Some? then Imm(ConstOf(e.b).value)
                 else if ConstOf(e.a).Some? then Imm(ConstOf(e.a).value) else SimpleOperand(e.b, ra).value;
      if SimpleOperand(e.b, ra).Some? { SimplePlain(e.b, ra); }
      ExprNeat(one, ra, u);
      One(Cmp(src, 0));
      JoinNeat(ExprCode(one, ra, u).code, [Cmp(src, 0)]);
    } else {
      var y := ExprCode(e.b, ra, u);
      var x := ExprCode(e.a, ra, y.uid);
      BothNeat(e, ra, u);
      One(Cmp(Dn(1), 0));
      JoinNeat(y.code + [PushD0] + x.code + [PopD1], [Cmp(Dn(1), 0)]);
      assert y.code + [PushD0] + x.code + [PopD1, Cmp(Dn(1), 0)] == y.code + [PushD0] + x.code + [PopD1] + [Cmp(Dn(1), 0)];
    }
  }

  // ---- bodies -----------------------------------------------------------------------------

  // Item labels are not the clearing loop's.
  predicate ItemLabelsApart(items: seq<Item>) {
    forall i | i in items :: match i
      case ILabel(l) => !InUse(l)
      case IJmp(l) => !InUse(l)
      case ICbr(_, l, _) => !InUse(l)
      case IEval(_) | IRet(_) | INop => true
  }

  lemma ItemNeat(i: Item, ret: Label, ra: map<nat, Reg>, u: nat)
    requires ItemLabelsApart([i]) && !InUse(ret)
    ensures Neat(ItemCode(i, ret, ra, u).code)
  {
    hide Neat, ExprCode, CondCode, InUse;
    assert i in [i];
    match i {
      case ILabel(l) => One(Lab(l));
      case INop => Empty();
      case IJmp(l) => One(Bra(l));
      case ICbr(e, l, when) => CondNeat(e, l, when, ra, u);
      case IEval(e) => ExprNeat(e, ra, u);
      case IRet(None) => One(Bra(ret));
      case IRet(Some(e)) =>
        ExprNeat(e, ra, u);
        One(Bra(ret));
        JoinNeat(ExprCode(e, ra, u).code, [Bra(ret)]);
    }
  }

  lemma {:induction false} PrefixNeat(items: seq<Item>, n: nat, ret: Label, ra: map<nat, Reg>, u: nat)
    requires n <= |items| && ItemLabelsApart(items) && !InUse(ret)
    ensures Neat(PrefixCode(items, n, ret, ra, u).code)
    decreases n
  {
    hide Neat, ItemCode, InUse;
    if n == 0 {
      Empty();
    } else {
      PrefixNeat(items, n - 1, ret, ra, u);
      var x := PrefixCode(items, n - 1, ret, ra, u);
      assert items[n - 1] in items;
      ItemNeat(items[n - 1], ret, ra, x.uid);
      JoinNeat(x.code, ItemCode(items[n - 1], ret, ra, x.uid).code);
    }
  }

  // Neat code with unique labels meets the peephole's condition.
  lemma NeatScratch(code: seq<Instr>)
    requires Neat(code) && UniqueLabels(code)
    ensures ScratchA0(code)
  {
    hide ReadsA0, WritesA0, Mentions;
    var dead :| NeatBy(code, dead);
    forall i | 0 <= i < |code| && dead[i] ensures DeadHere(code, dead, i) {
      assert LineNeat(code, dead, i);
      if JumpLabel(code[i]).Some? && Target(code, JumpLabel(code[i]).value) < |code| {
        assert LineNeat(code, dead, Target(code, JumpLabel(code[i]).value));
      }
    }
    forall i | 0 <= i < |code|
      ensures ControlOnly(code[i])
      ensures code[i] == LOAD_A0 && !(i + 1 < |code| && Mentions(code[i + 1])) ==> DeadAt(dead, i + 1)
    {
      assert LineNeat(code, dead, i);
    }
    assert ScratchBy(code, dead);
  }

  // The emitted body does.
  lemma BodyScratch(items: seq<Item>, ret: Label, ra: map<nat, Reg>, u: nat)
    requires ItemLabelsApart(items) && GoodItemLabels(items, u) && ret.Named?
    requires forall i | 0 <= i < |items| :: items[i] != ILabel(ret)
    ensures ScratchA0(BodyCode(items, ret, ra, u))
  {
    hide Neat, PrefixCode, GoodItemLabels;
    PrefixNeat(items, |items|, ret, ra, u);
    Two(Lab(ret), Exit);
    JoinNeat(PrefixCode(items, |items|, ret, ra, u).code, [Lab(ret), Exit]);
    BodyUnique(items, ret, ra, u);
    NeatScratch(BodyCode(items, ret, ra, u));
  }
}
