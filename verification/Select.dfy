// Instruction selection: the tiles that turn an IR expression into 68000 code.
// `ra` gives each promoted variable its register; `u` is the next label number.
module Select {
  import opened Words
  import opened Ir
  import opened M68k

  datatype Out = Out(code: seq<Instr>, uid: nat)

  // ---- shapes the tiles match ------------------------------------------------

  predicate TkIsInteger(k: TypeKind) {
    k == TyBool || k == TyChar || k == TyShort || k == TyInt || k == TyLong || k == TyEnum
  }

  // An integer constant behind width-preserving casts.
  function ConstOf(e: IrExpr): Option<Int32> {
    match e
    case Cast(to, size, _, _, _, a) =>
      if TkIsInteger(to) && size >= 4 then ConstOf(a) else None
    case Num(val, size, _) => if size < 4 then None else Some(Signed(Wrap(val)))
    case _ => None
  }

  // The operand text of a size-4 scalar variable, when an ALU instruction can take it.
  function SimpleOperand(e: IrExpr, ra: map<nat, Reg>): Option<Ea> {
    match e
    case Cast(to, size, _, _, _, a) =>
      if TkIsInteger(to) && size == 4 then SimpleOperand(a, ra) else None
    case Load(a, size, _) =>
      if !a.Lea? || IsAddrReg(LeaReg(a, ra)) || size != 4 then None
      else if LeaReg(a, ra) != 0 then Some(Dn(LeaReg(a, ra)))
      else Some(PlaceEa(a.place))
    case _ => None
  }

  function PlaceEa(p: Place): Ea {
    match p
    case Local(_, off) => Disp(off, 6)
    case Global(name) => Abs(name)
  }

  predicate SimpleVarBase(e: IrExpr) {
    match e
    case Cast(_, _, _, _, _, a) => SimpleVarBase(a)
    case Lea(_) => true
    case Load(a, _, _) => a.Lea?
    case _ => false
  }

  predicate HasMemoryForm(op: Op) {
    op == Add || op == Sub || op == BitAnd || op == BitOr || IsRelation(op)
  }

  predicate IsRelation(op: Op) { op == Eq || op == Ne || op == Lt || op == Le }

  predicate IsCommutative(op: Op) {
    op == Add || op == Mul || op == BitAnd || op == BitOr || op == BitXor || op == Eq || op == Ne
  }

  // The memory-operand tile reads its right operand after evaluating the left one.
  predicate ReadsRightLast(e: IrExpr, ra: map<nat, Reg>) {
    e.Binop? && HasMemoryForm(e.op) && SimpleOperand(e.b, ra).Some?
  }

  // ---- short fixed sequences on D0 -------------------------------------------

  function RegEa(r: Reg): Ea { if IsAddrReg(r) then An(r - 8) else Dn(r) }

  function AddImm(c: Int32): seq<Instr> {
    if c == 0 then []
    else if 1 <= c <= 8 then [Alu(AluAdd, Imm(c), 0)]
    else if -8 <= c <= -1 then [Alu(AluSub, Imm(-c), 0)]
    else [Alu(AluAdd, Imm(c), 0)]
  }

  function ShiftBy(op: ShiftOp, count: nat): seq<Instr> {
    if count == 0 then []
    else if count <= 8 then [Shift(op, Imm(count), 0)]
    else [Move(L, Imm(count), Dn(1)), Shift(op, Dn(1), 0)]
  }

  // Set D0 to 0 or 1 from the condition codes.
  function SetBool(cc: Cc): seq<Instr> { [Scc(cc, 0), Alu(AluAnd, Imm(1), 0)] }

  function RelCc(op: Op, uns: bool): Cc
    requires IsRelation(op)
  {
    if op == Op.Eq then EQ else if op == Op.Ne then NE
    else if op == Op.Lt then (if uns then CS else LT) else (if uns then LS else LE)
  }

  function NarrowCode(size: nat, uns: bool): seq<Instr> {
    if size == 1 then (if uns then [Alu(AluAnd, Imm(255), 0)] else [ExtW(0), ExtL(0)])
    else if size == 2 then (if uns then [Alu(AluAnd, Imm(65535), 0)] else [ExtL(0)])
    else []
  }

  function LoadFromA0(size: nat, uns: bool): seq<Instr> {
    if size == 1 then
      if uns then [Move(L, Imm(0), Dn(0)), Move(B, Ind(0), Dn(0))]
      else [Move(B, Ind(0), Dn(0)), ExtW(0), ExtL(0)]
    else if size == 2 then
      if uns then [Move(L, Imm(0), Dn(0)), Move(H, Ind(0), Dn(0))]
      else [Move(H, Ind(0), Dn(0)), ExtL(0)]
    else [Move(L, Ind(0), Dn(0))]
  }

  function StoreSize(size: nat): Size { if size == 1 then B else if size == 2 then H else L }

  // ---- constant operand ------------------------------------------------------

  function MulTail(c: Int32): Option<seq<Instr>> {
    var uc := Wrap(c);
    if c == 0 || c == 1 || c == -1 || IsPow2(uc) then
      Some(if c == 0 then [Move(L, Imm(0), Dn(0))]
           else if c == -1 then [M68k.Neg(0)]
           else if c == 1 then []
           else ShiftBy(AslOp, Ctz(uc)))
    else if c >= 3 && IsPow2(uc - 1) && Ctz(uc - 1) <= 8 then
      Some([Move(L, Dn(0), Dn(1)), Shift(AslOp, Imm(Ctz(uc - 1)), 0), Alu(AluAdd, Dn(1), 0)])
    else if c >= 3 && IsPow2(uc + 1) && Ctz(uc + 1) <= 8 then
      Some([Move(L, Dn(0), Dn(1)), Shift(AslOp, Imm(Ctz(uc + 1)), 0), Alu(AluSub, Dn(1), 0)])
    else None
  }

  // Signed division by c = 2^k: bias a negative dividend by c - 1, then shift.
  function SignedDivTail(c: Int32, k: nat, lc: nat): seq<Instr>
    requires c >= 2
  {
    var skip := Lbl("L_sdiv_", lc);
    [Tst(0), Bcc(PL, skip)] + AddImm(c - 1) + [Lab(skip)] + ShiftBy(AsrOp, k)
  }

  function SignedModTail(c: Int32, lc: nat): seq<Instr> {
    var pos, end := Lbl("L_smod_", lc), Lbl("L_smodx_", lc);
    [Tst(0), Bcc(PL, pos), M68k.Neg(0), Alu(AluAnd, Imm(c - 1), 0), M68k.Neg(0), Bra(end),
     Lab(pos), Alu(AluAnd, Imm(c - 1), 0), Lab(end)]
  }

  // What follows the evaluation of `x` in the code for `x op c`, and the next
  // label number; None when the operator is not specialized for `c`.
  function ConstTail(op: Op, uns: bool, c: Int32, lc: nat): Option<Out> {
    var uc := Wrap(c);
    match op
    case Add => Some(Out(AddImm(c), lc))
    case Sub => Some(Out(AddImm(Signed(Wrap(0 - c))), lc))
    case BitAnd => Some(Out([Alu(AluAnd, Imm(c), 0)], lc))
    case BitOr => Some(Out([Alu(AluOr, Imm(c), 0)], lc))
    case BitXor => Some(Out([Alu(AluEor, Imm(c), 0)], lc))
    case Eq | Ne | Lt | Le => Some(Out([Cmp(Imm(c), 0)] + SetBool(RelCc(op, uns)), lc))
    case Shl => if c < 1 || c > 31 then None else Some(Out(ShiftBy(AslOp, c), lc))
    case Shr => if c < 1 || c > 31 then None else Some(Out(ShiftBy(if uns then LsrOp else AsrOp, c), lc))
    case Mul => if MulTail(c).None? then None else Some(Out(MulTail(c).value, lc))
    case Div =>
      if uns && IsPow2(uc) then Some(Out(ShiftBy(LsrOp, Ctz(uc)), lc))
      else if !uns && c >= 2 && IsPow2(uc) then Some(Out(SignedDivTail(c, Ctz(uc), lc), lc + 1))
      else None
    case Mod =>
      if uns && IsPow2(uc) then Some(Out([Alu(AluAnd, Imm(uc - 1), 0)], lc))
      else if !uns && c >= 2 && IsPow2(uc) then Some(Out(SignedModTail(c, lc), lc + 1))
      else None
  }

  // `c op x` for a constant left operand.
  function ConstTailLeft(op: Op, uns: bool, c: Int32, lc: nat): Option<Out> {
    if IsCommutative(op) then ConstTail(op, uns, c, lc)
    else if op == Op.Lt || op == Op.Le then
      var cc := if op == Op.Lt then (if uns then HI else GT) else (if uns then CC else GE);
      Some(Out([Cmp(Imm(c), 0)] + SetBool(cc), lc))
    else None
  }

  function MemTail(op: Op, uns: bool, ea: Ea): seq<Instr>
    requires HasMemoryForm(op)
  {
    match op
    case Add => [Alu(AluAdd, ea, 0)]
    case Sub => [Alu(AluSub, ea, 0)]
    case BitAnd => [Alu(AluAnd, ea, 0)]
    case BitOr => [Alu(AluOr, ea, 0)]
    case _ => [Cmp(ea, 0)] + SetBool(RelCc(op, uns))
  }

  // Left operand in D0, right operand popped into D1.
  function GenericTail(op: Op, uns: bool): seq<Instr> {
    match op
    case Add => [Alu(AluAdd, Dn(1), 0)]
    case Sub => [Alu(AluSub, Dn(1), 0)]
    case Mul | Div | Mod => [JsrHelper(op, uns)]
    case BitAnd => [Alu(AluAnd, Dn(1), 0)]
    case BitOr => [Alu(AluOr, Dn(1), 0)]
    case BitXor => [Alu(AluEor, Dn(1), 0)]
    case Eq | Ne | Lt | Le => [Cmp(Dn(1), 0)] + SetBool(RelCc(op, uns))
    case Shl => [Shift(AslOp, Dn(1), 0)]
    case Shr => [Shift(if uns then LsrOp else AsrOp, Dn(1), 0)]
  }

  // ---- relations in a condition ----------------------------------------------

  datatype Rel = RLT | RLE | REQ | RNE | RGT | RGE

  function RelOf(op: Op): Rel {
    if op == Op.Lt then RLT else if op == Op.Le then RLE else if op == Op.Eq then REQ else RNE
  }

  function RelNegate(r: Rel): Rel {
    match r case RLT => RGE case RGE => RLT case RLE => RGT case RGT => RLE case REQ => RNE case RNE => REQ
  }

  function RelSwap(r: Rel): Rel {
    match r case RLT => RGT case RGT => RLT case RLE => RGE case RGE => RLE case REQ => REQ case RNE => RNE
  }

  function BranchCc(r: Rel, uns: bool): Cc {
    match r
    case REQ => EQ
    case RNE => NE
    case RLT => if uns then CS else LT
    case RLE => if uns then LS else LE
    case RGT => if uns then HI else GT
    case RGE => if uns then CC else GE
  }

  // ---- zero-clearing a frame slot ----------------------------------------------

  function ClrRun(off: int, n: nat): seq<Instr>
    decreases n
  {
    if n >= 4 then [Clr(L, Disp(off, 6))] + ClrRun(off + 4, n - 4)
    else
      var half := if n >= 2 then [Clr(H, Disp(off, 6))] else [];
      var rest := if n % 2 == 1 then [Clr(B, Disp(off + n / 2 * 2, 6))] else [];
      half + rest
  }

  function MemzeroCode(r: Reg, off: int, size: nat, u: nat): Out {
    if r != 0 then Out([Move(L, Imm(0), RegEa(r))], u)
    else if size <= 16 && off % 2 == 0 then Out(ClrRun(off, size), u)
    else
      var again := Lbl("L_memzero_", u);
      Out([LeaTo(Disp(off, 6), 0), Move(H, Imm(size - 1), Dn(1)), Lab(again), ClrInc(0), Dbra(1, again)], u + 1)
  }

  // ---- expressions -----------------------------------------------------------

  const PushD0: Instr := Move(L, Dn(0), PushSp)
  const PopD1: Instr := Move(L, PopSp, Dn(1))
  const PopA1: Instr := Move(L, PopSp, An(1))
  const D0ToA0: Instr := Move(L, Dn(0), An(0))

  predicate IsIndexedLoad(e: IrExpr) {
    e.Load? && e.size == 4 && e.a.Binop? && e.a.op == Op.Add && e.a.ptradd && SimpleVarBase(e.a.a)
  }

  // Code that leaves the value of `e` in D0.
  function ExprCode(e: IrExpr, ra: map<nat, Reg>, u: nat): Out
    decreases e, 2
  {
    match e
    case Nop => Out([], u)
    case Num(val, _, _) => Out([Move(L, Imm(val), Dn(0))], u)
    case Lea(p) => Out([LeaTo(PlaceEa(p), 0), Move(L, An(0), Dn(0))], u)
    case Load(a, size, uns) =>
      if LeaReg(a, ra) != 0 then Out([Move(L, RegEa(LeaReg(a, ra)), Dn(0))], u)
      else if IsIndexedLoad(e) then
        var index := ExprCode(a.b, ra, u);
        var base := ExprCode(a.a, ra, index.uid);
        Out(index.code + [Move(L, Dn(0), Dn(1))] + base.code + [D0ToA0, Move(L, Indexed, Dn(0))], base.uid)
      else
        var addr := ExprCode(a, ra, u);
        Out(addr.code + [D0ToA0] + LoadFromA0(size, uns), addr.uid)
    case Store(a, b, size) =>
      if LeaReg(a, ra) != 0 then
        var v := ExprCode(b, ra, u);
        Out(v.code + [Move(L, Dn(0), RegEa(LeaReg(a, ra)))], v.uid)
      else if a.Lea? && size <= 4 then
        var v := ExprCode(b, ra, u);
        Out(v.code + [Move(StoreSize(size), Dn(0), PlaceEa(a.place))], v.uid)
      else
        var addr := ExprCode(a, ra, u);
        var v := ExprCode(b, ra, addr.uid);
        Out(addr.code + [PushD0] + v.code + [PopA1, Move(StoreSize(size), Dn(0), Ind(1))], v.uid)
    case Binop(_, _, _, _, _, _) => BinopCode(e, ra, u)
    case Unary(uop, _, _, a) =>
      var v := ExprCode(a, ra, u);
      Out(v.code + UnaryTail(uop), v.uid)
    case LogAnd(a, b) =>
      var no, end := Lbl("L_false_", u), Lbl("L_end_", u);
      var x := ExprCode(a, ra, u + 1);
      var y := ExprCode(b, ra, x.uid);
      Out(x.code + [Tst(0), Bcc(EQ, no)] + y.code + [Tst(0), Bcc(EQ, no)]
          + [Move(L, Imm(1), Dn(0)), Bra(end), Lab(no), Move(L, Imm(0), Dn(0)), Lab(end)], y.uid)
    case LogOr(a, b) =>
      var yes, end := Lbl("L_true_", u), Lbl("L_end_", u);
      var x := ExprCode(a, ra, u + 1);
      var y := ExprCode(b, ra, x.uid);
      Out(x.code + [Tst(0), Bcc(NE, yes)] + y.code + [Tst(0), Bcc(NE, yes)]
          + [Move(L, Imm(0), Dn(0)), Bra(end), Lab(yes), Move(L, Imm(1), Dn(0)), Lab(end)], y.uid)
    case Cond(a, b, c) =>
      var els, end := Lbl("L_else_", u), Lbl("L_end_", u);
      var x := CondCode(a, els, false, ra, u + 1);
      var y := ExprCode(b, ra, x.uid);
      var z := ExprCode(c, ra, y.uid);
      Out(x.code + y.code + [Bra(end), Lab(els)] + z.code + [Lab(end)], z.uid)
    case Comma(a, b) =>
      var x := ExprCode(a, ra, u);
      var y := ExprCode(b, ra, x.uid);
      Out(x.code + y.code, y.uid)
    case Cast(to, size, uns, _, _, a) =>
      var x := ExprCode(a, ra, u);
      Out(x.code + CastTail(to, size, uns), x.uid)
    case CallDirect(name, args) =>
      var x := ArgsCode(args, ra, u);
      Out(x.code + [Jsr(Abs(name), |args|)] + PopArgs(|args|), x.uid)
    case CallIndirect(a, args) =>
      var x := ArgsCode(args, ra, u);
      var f := ExprCode(a, ra, x.uid);
      Out(x.code + f.code + [D0ToA0, Jsr(Ind(0), |args|)] + PopArgs(|args|), f.uid)
    case Memzero(v, off, size) => MemzeroCode(RegOf(ra, v), off, size, u)
    case Vdef(reg, a) =>
      var x := ExprCode(a, ra, u);
      Out(x.code + (if reg != 0 then [Move(L, Dn(0), RegEa(reg))] else []), x.uid)
    case Vuse(reg) => Out(if reg != 0 then [Move(L, RegEa(reg), Dn(0))] else [], u)
  }

  function UnaryTail(op: UnOp): seq<Instr> {
    match op
    case Neg => [M68k.Neg(0)]
    case BitNot => [NotL(0)]
    case LogNot => [Tst(0)] + SetBool(EQ)
  }

  function CastTail(to: TypeKind, size: nat, uns: bool): seq<Instr> {
    if to == TyVoid then []
    else if to == TyBool then [Tst(0)] + SetBool(NE)
    else NarrowCode(size, uns)
  }

  function PopArgs(n: nat): seq<Instr> { if n == 0 then [] else [AddSp(4 * n)] }

  // Push the arguments from the last to the first.
  function ArgsCode(args: seq<IrExpr>, ra: map<nat, Reg>, u: nat): Out
    decreases args, 0
  {
    if args == [] then Out([], u)
    else
      var rest := ArgsCode(args[1..], ra, u);
      var x := ExprCode(args[0], ra, rest.uid);
      Out(rest.code + x.code + [PushD0], x.uid)
  }

  function BinopCode(e: IrExpr, ra: map<nat, Reg>, u: nat): Out
    requires e.Binop?
    decreases e, 1
  {
    var ca, cb := ConstOf(e.a), ConstOf(e.b);
    if cb.Some? && ConstTail(e.op, e.uns, cb.value, u).Some? then
      var tail := ConstTail(e.op, e.uns, cb.value, u).value;
      var x := ExprCode(e.a, ra, tail.uid);
      Out(x.code + tail.code, x.uid)
    else if ca.Some? && ConstTailLeft(e.op, e.uns, ca.value, u).Some? then
      var tail := ConstTailLeft(e.op, e.uns, ca.value, u).value;
      var x := ExprCode(e.b, ra, tail.uid);
      Out(x.code + tail.code, x.uid)
    else if ReadsRightLast(e, ra) then
      var x := ExprCode(e.a, ra, u);
      Out(x.code + MemTail(e.op, e.uns, SimpleOperand(e.b, ra).value), x.uid)
    else
      var y := ExprCode(e.b, ra, u);
      var x := ExprCode(e.a, ra, y.uid);
      Out(y.code + [PushD0] + x.code + [PopD1] + GenericTail(e.op, e.uns), x.uid)
  }

  // Code that jumps to `target` when the truth of `e` equals `when` and falls through otherwise.
  function CondCode(e: IrExpr, target: Label, when: bool, ra: map<nat, Reg>, u: nat): Out
    decreases e, 3
  {
    if e.Unary? && e.uop == LogNot then CondCode(e.a, target, !when, ra, u)
    else if (e.LogAnd? && !when) || (e.LogOr? && when) then
      var x := CondCode(e.a, target, when, ra, u);
      var y := CondCode(e.b, target, when, ra, x.uid);
      Out(x.code + y.code, y.uid)
    else if e.LogAnd? || e.LogOr? then
      var skip := Lbl("L_condskip_", u);
      var x := CondCode(e.a, skip, !when, ra, u + 1);
      var y := CondCode(e.b, target, when, ra, x.uid);
      Out(x.code + y.code + [Lab(skip)], y.uid)
    else if e.Binop? && IsRelation(e.op) then
      var x := CompareCode(e, ra, u);
      var rel := if ConstOf(e.b).None? && ConstOf(e.a).Some? then RelSwap(RelOf(e.op)) else RelOf(e.op);
      Out(x.code + [Bcc(BranchCc(if when then rel else RelNegate(rel), e.uns), target)], x.uid)
    else
      var x := ExprCode(e, ra, u);
      Out(x.code + [Tst(0), Bcc(if when then NE else EQ, target)], x.uid)
  }

  // Compare the operands of a relation, leaving the result in the condition codes.
  function CompareCode(e: IrExpr, ra: map<nat, Reg>, u: nat): Out
    requires e.Binop?
    decreases e, 0
  {
    if ConstOf(e.b).Some? then
      var x := ExprCode(e.a, ra, u);
      Out(x.code + [Cmp(Imm(ConstOf(e.b).value), 0)], x.uid)
    else if ConstOf(e.a).Some? then
      var x := ExprCode(e.b, ra, u);
      Out(x.code + [Cmp(Imm(ConstOf(e.a).value), 0)], x.uid)
    else if SimpleOperand(e.b, ra).Some? then
      var x := ExprCode(e.a, ra, u);
      Out(x.code + [Cmp(SimpleOperand(e.b, ra).value, 0)], x.uid)
    else
      var y := ExprCode(e.b, ra, u);
      var x := ExprCode(e.a, ra, y.uid);
      Out(y.code + [PushD0] + x.code + [PopD1, Cmp(Dn(1), 0)], x.uid)
  }

  // ---- the code of composite nodes, spelled out ------------------------------------

  lemma LoadCode(e: IrExpr, ra: map<nat, Reg>, u: nat)
    requires e.Load?
    ensures ExprCode(e, ra, u)
      == if LeaReg(e.a, ra) != 0 then Out([Move(L, RegEa(LeaReg(e.a, ra)), Dn(0))], u)
         else if IsIndexedLoad(e) then
           var index := ExprCode(e.a.b, ra, u);
           var base := ExprCode(e.a.a, ra, index.uid);
           Out(index.code + [Move(L, Dn(0), Dn(1))] + base.code + [D0ToA0, Move(L, Indexed, Dn(0))], base.uid)
         else
           var addr := ExprCode(e.a, ra, u);
           Out(addr.code + [D0ToA0] + LoadFromA0(e.size, e.uns), addr.uid)
  {
    hide LoadFromA0, BinopCode;
  }

  lemma StoreCode(e: IrExpr, ra: map<nat, Reg>, u: nat)
    requires e.Store?
    ensures var r := LeaReg(e.a, ra);
      ExprCode(e, ra, u)
      == if r != 0 || (e.a.Lea? && e.size <= 4) then
           var v := ExprCode(e.b, ra, u);
           var dst := if r != 0 then Move(L, Dn(0), RegEa(r)) else Move(StoreSize(e.size), Dn(0), PlaceEa(e.a.place));
           Out(v.code + [dst], v.uid)
         else
           var addr := ExprCode(e.a, ra, u);
           var v := ExprCode(e.b, ra, addr.uid);
           Out(addr.code + [PushD0] + v.code + [PopA1, Move(StoreSize(e.size), Dn(0), Ind(1))], v.uid)
  {
    hide BinopCode;
  }

  lemma ShortCircuitCode(e: IrExpr, ra: map<nat, Reg>, u: nat)
    requires e.LogAnd? || e.LogOr?
    ensures var isAnd := e.LogAnd?;
      var no, end := Lbl(if isAnd then "L_false_" else "L_true_", u), Lbl("L_end_", u);
      var test := [Tst(0), Bcc(if isAnd then EQ else NE, no)];
      var x := ExprCode(e.a, ra, u + 1);
      ExprCode(e, ra, u).code == x.code + test + ExprCode(e.b, ra, x.uid).code + test
        + [Move(L, Imm(Truth(isAnd)), Dn(0)), Bra(end), Lab(no), Move(L, Imm(Truth(!isAnd)), Dn(0)), Lab(end)]
      && ExprCode(e, ra, u).uid == ExprCode(e.b, ra, x.uid).uid
  {}

  lemma CondExprCode(e: IrExpr, ra: map<nat, Reg>, u: nat)
    requires e.Cond?
    ensures var els, end := Lbl("L_else_", u), Lbl("L_end_", u);
      var x := CondCode(e.a, els, false, ra, u + 1);
      var y := ExprCode(e.b, ra, x.uid);
      ExprCode(e, ra, u).code
      == x.code + y.code + [Bra(end), Lab(els)] + ExprCode(e.c, ra, y.uid).code + [Lab(end)]
      && ExprCode(e, ra, u).uid == ExprCode(e.c, ra, y.uid).uid
  {
    hide CondCode;
  }

  lemma CondNotCode(e: IrExpr, target: Label, when: bool, ra: map<nat, Reg>, u: nat)
    requires e.Unary? && e.uop == LogNot
    ensures CondCode(e, target, when, ra, u) == CondCode(e.a, target, !when, ra, u)
  {}

  lemma CondPairCode(e: IrExpr, target: Label, when: bool, ra: map<nat, Reg>, u: nat)
    requires e.LogAnd? || e.LogOr?
    ensures var direct := e.LogAnd? != when;
      var skip := if direct then target else Lbl("L_condskip_", u);
      var x := CondCode(e.a, skip, when == direct, ra, if direct then u else u + 1);
      CondCode(e, target, when, ra, u).code
      == x.code + CondCode(e.b, target, when, ra, x.uid).code + (if direct then [] else [Lab(skip)])
  {}

  lemma CondRelationCode(e: IrExpr, target: Label, when: bool, ra: map<nat, Reg>, u: nat)
    requires e.Binop? && IsRelation(e.op)
    ensures var rel := if ConstOf(e.b).None? && ConstOf(e.a).Some? then RelSwap(RelOf(e.op)) else RelOf(e.op);
      CondCode(e, target, when, ra, u).code
      == CompareCode(e, ra, u).code + [Bcc(BranchCc(if when then rel else RelNegate(rel), e.uns), target)]
      && CondCode(e, target, when, ra, u).uid == CompareCode(e, ra, u).uid
  {
    hide CompareCode, BranchCc;
  }

  lemma BinopGenericCode(e: IrExpr, ra: map<nat, Reg>, u: nat)
    requires e.Binop? && !ReadsRightLast(e, ra)
    requires !(ConstOf(e.b).Some? && ConstTail(e.op, e.uns, ConstOf(e.b).value, u).Some?)
    requires !(ConstOf(e.a).Some? && ConstTailLeft(e.op, e.uns, ConstOf(e.a).value, u).Some?)
    ensures var y := ExprCode(e.b, ra, u); var x := ExprCode(e.a, ra, y.uid);
      ExprCode(e, ra, u).code == y.code + [PushD0] + x.code + [PopD1] + GenericTail(e.op, e.uns)
  {
    hide ConstTail, ConstTailLeft, GenericTail;
  }

  lemma CallCode(e: IrExpr, ra: map<nat, Reg>, u: nat)
    requires e.CallDirect? || e.CallIndirect?
    ensures var x := ArgsCode(e.args, ra, u);
      ExprCode(e, ra, u)
      == if e.CallDirect? then Out(x.code + [Jsr(Abs(e.name), |e.args|)] + PopArgs(|e.args|), x.uid)
         else
           var f := ExprCode(e.a, ra, x.uid);
           Out(x.code + f.code + [D0ToA0, Jsr(Ind(0), |e.args|)] + PopArgs(|e.args|), f.uid)
  {}

  lemma NoClr(off: int)
    ensures ClrRun(off, 0) == []
  {}

  lemma ClrRunHead(off: int, n: nat)
    requires n > 0
    ensures var k := if n >= 4 then 4 else if n >= 2 then 2 else 1;
      var size := if n >= 4 then L else if n >= 2 then H else B;
      ClrRun(off, n) == [Clr(size, Disp(off, 6))] + ClrRun(off + k, n - k)
  {
    assert n == 3 ==> ClrRun(off + 2, 1) == [Clr(B, Disp(off + 2, 6))];
    assert n <= 2 ==> ClrRun(off + n, 0) == [];
    assert n == 3 ==> n / 2 * 2 == 2;
    assert n == 1 ==> n / 2 * 2 == 0;
  }
}
