// The expression trees of the IR back end and their big-step meaning over
// 32-bit words, memory, promoted registers and the trace of calls.
module Ir {
  import opened Words
  import opened Memory

  datatype Op = Add | Sub | Mul | Div | Mod | BitAnd | BitOr | BitXor | Shl | Shr
              | Eq | Ne | Lt | Le

  datatype UnOp = Neg | BitNot | LogNot

  datatype TypeKind = TyVoid | TyBool | TyChar | TyShort | TyInt | TyLong | TyEnum | TyPtr

  // Register codes: 2..7 are D2-D7, 10..13 are A2-A5, 0 means "in memory".
  type Reg = r: nat | r == 0 || 2 <= r <= 7 || 10 <= r <= 13

  predicate IsAddrReg(r: Reg) { r >= 8 }

  datatype Place = Local(v: nat, off: int) | Global(name: string)

  datatype IrExpr =
    | Nop
    | Num(val: int, size: nat, uns: bool)
    | Lea(place: Place)
    | Load(a: IrExpr, size: nat, uns: bool)
    | Store(a: IrExpr, b: IrExpr, size: nat)
    | Binop(op: Op, uns: bool, ptradd: bool, size: nat, a: IrExpr, b: IrExpr)
    | Unary(uop: UnOp, size: nat, uns: bool, a: IrExpr)
    | LogAnd(a: IrExpr, b: IrExpr)
    | LogOr(a: IrExpr, b: IrExpr)
    | Cond(a: IrExpr, b: IrExpr, c: IrExpr)
    | Comma(a: IrExpr, b: IrExpr)
    | Cast(to: TypeKind, size: nat, uns: bool, fsize: nat, funs: bool, a: IrExpr)
    | CallDirect(name: string, args: seq<IrExpr>)
    | CallIndirect(a: IrExpr, args: seq<IrExpr>)
    | Memzero(v: nat, off: int, size: nat)
    | Vdef(reg: Reg, a: IrExpr)
    | Vuse(reg: Reg)

  datatype Event = Call(callee: Word, args: seq<Word>)

  type RegFile = s: seq<Word> | |s| == 14 witness [0, 0, 0, 0, 0, 0, 0, 0, 0, 0, 0, 0, 0, 0]

  // A value, or nothing for expressions evaluated only for their effects.
  datatype Val = Void | W(w: Word)

  // Values of variables that are private to a run.
  type Vars = nat -> Word

  datatype State = State(mem: Mem, regs: RegFile, trace: seq<Event>, vars: Vars)

  datatype Result = Fail | Ok(v: Val, st: State)

  // What a function body runs against: its frame, the stack space reserved for
  // the generated code, the linker's symbols, the promoted registers, the rest of
  // the program, the choice of which operand an operator node evaluates first, and
  // whether promoted variables are private instead of sharing their registers.
  datatype Env = Env(
    a6: Word,
    lo: nat,
    top: nat,
    sym: string -> Word,
    ra: map<nat, Reg>,
    call: (Word, seq<Word>, Mem, seq<Event>) -> (Word, Mem),
    undef: (Op, bool, Word, Word) -> Word,
    leftFirst: IrExpr -> bool,
    private: bool)

  // An environment the machine can provide: variables share the registers.
  ghost predicate GoodEnv(env: Env) { env.lo <= env.top < MODULUS && !env.private }

  function RegOf(ra: map<nat, Reg>, v: nat): Reg { if v in ra then ra[v] else 0 }

  // The register holding the variable `e` is the address of, or 0.
  function LeaReg(e: IrExpr, ra: map<nat, Reg>): Reg {
    if e.Lea? && e.place.Local? then RegOf(ra, e.place.v) else 0
  }

  function PlaceAddr(p: Place, env: Env): Word {
    match p
    case Local(_, off) => Wrap(env.a6 + off)
    case Global(name) => env.sym(name)
  }

  function LessThan(uns: bool, a: Word, b: Word): bool {
    if uns then a < b else Signed(a) < Signed(b)
  }

  // Division has a C meaning except by zero and for INT_MIN / -1.
  predicate DivDefined(uns: bool, a: Word, b: Word) {
    b != 0 && (uns || !(a == SIGN && b == MODULUS - 1))
  }

  function BinVal(op: Op, uns: bool, a: Word, b: Word, undef: (Op, bool, Word, Word) -> Word): Word {
    match op
    case Add => AddW(a, b)
    case Sub => SubW(a, b)
    case Mul => MulW(a, b)
    case Div =>
      if !DivDefined(uns, a, b) then undef(op, uns, a, b)
      else if uns then Wrap(a / b) else Wrap(TruncDiv(Signed(a), Signed(b)))
    case Mod =>
      if !DivDefined(uns, a, b) then undef(op, uns, a, b)
      else if uns then Wrap(a % b) else Wrap(TruncMod(Signed(a), Signed(b)))
    case BitAnd => And(a, b)
    case BitOr => Or(a, b)
    case BitXor => Xor(a, b)
    case Shl => Asl(a, b)
    case Shr => if uns then Lsr(a, b) else Asr(a, b)
    case Eq => Truth(a == b)
    case Ne => Truth(a != b)
    case Lt => Truth(LessThan(uns, a, b))
    case Le => Truth(!LessThan(uns, b, a))
  }

  function UnVal(op: UnOp, a: Word): Word {
    match op
    case Neg => NegW(a)
    case BitNot => Not(a)
    case LogNot => Truth(a == 0)
  }

  function CastVal(to: TypeKind, size: nat, uns: bool, a: Word): Word {
    if to == TyBool then Truth(a != 0) else Narrow(size, uns, a)
  }

  // Bytes moved by a load or store of the given size: 1, 2, otherwise a longword.
  function Width(size: nat): nat { if size == 1 then 1 else if size == 2 then 2 else 4 }

  ghost function LoadFrom(p: Word, size: nat, uns: bool, st: State, env: Env): Result {
    if !Avoids(p, Width(size), env.lo, env.top) then Fail
    else
      ReadIsWord(st.mem, p, Width(size));
      Ok(W(Narrow(size, uns, Read(st.mem, p, Width(size)))), st)
  }

  ghost function StoreTo(p: Word, size: nat, v: Word, st: State, env: Env): Result {
    if !Avoids(p, Width(size), env.lo, env.top) then Fail
    else Ok(W(v), st.(mem := Write(st.mem, p, Width(size), v)))
  }

  function SetReg(r: Reg, v: Word, st: State): State
    requires r != 0
  {
    st.(regs := st.regs[r := v])
  }

  function SetVar(vars: Vars, v: nat, w: Word): Vars { u => if u == v then w else vars(u) }

  // A promoted variable is in its register, or is private.
  function Fetched(v: nat, st: State, env: Env): Word {
    if env.private then st.vars(v) else st.regs[RegOf(env.ra, v)]
  }

  function Assigned(v: nat, w: Word, st: State, env: Env): State
    requires RegOf(env.ra, v) != 0
  {
    if env.private then st.(vars := SetVar(st.vars, v, w)) else SetReg(RegOf(env.ra, v), w, st)
  }

  // The rest of the program sees only memory outside the reserved stack space.
  ghost function Invoke(f: Word, args: seq<Word>, st: State, env: Env): Result {
    var (r, m) := env.call(f, args, Visible(st.mem, env.lo, env.top), st.trace);
    Ok(W(r), st.(mem := m, trace := st.trace + [Call(f, args)]))
  }

  // Big-step meaning. `Fail` marks uses of a missing value and accesses to the
  // stack space reserved for generated code.
  ghost function Eval(e: IrExpr, st: State, env: Env): Result
    decreases e, 1
  {
    match e
    case Nop => Ok(Void, st)
    case Num(val, _, _) => Ok(W(Wrap(val)), st)
    case Lea(p) => Ok(W(PlaceAddr(p, env)), st)
    case Load(a, size, uns) =>
      if LeaReg(a, env.ra) != 0 then Ok(W(Fetched(a.place.v, st, env)), st)
      else
        var ra := Eval(a, st, env);
        if !HasValue(ra) then Fail else LoadFrom(ra.v.w, size, uns, ra.st, env)
    case Store(a, b, size) =>
      if LeaReg(a, env.ra) != 0 then
        var rb := Eval(b, st, env);
        if !HasValue(rb) then Fail else Ok(rb.v, Assigned(a.place.v, rb.v.w, rb.st, env))
      else
        var ra := Eval(a, st, env);
        if !HasValue(ra) then Fail
        else
          var rb := Eval(b, ra.st, env);
          if !HasValue(rb) then Fail else StoreTo(ra.v.w, size, rb.v.w, rb.st, env)
    case Binop(op, uns, _, _, a, b) =>
      if env.leftFirst(e) then
        var ra := Eval(a, st, env);
        if !HasValue(ra) then Fail
        else
          var rb := Eval(b, ra.st, env);
          if !HasValue(rb) then Fail else Ok(W(BinVal(op, uns, ra.v.w, rb.v.w, env.undef)), rb.st)
      else
        var rb := Eval(b, st, env);
        if !HasValue(rb) then Fail
        else
          var ra := Eval(a, rb.st, env);
          if !HasValue(ra) then Fail else Ok(W(BinVal(op, uns, ra.v.w, rb.v.w, env.undef)), ra.st)
    case Unary(uop, _, _, a) =>
      var ra := Eval(a, st, env);
      if !HasValue(ra) then Fail else Ok(W(UnVal(uop, ra.v.w)), ra.st)
    case LogAnd(a, b) =>
      var ra := Eval(a, st, env);
      if !HasValue(ra) then Fail
      else if ra.v.w == 0 then Ok(W(0), ra.st)
      else
        var rb := Eval(b, ra.st, env);
        if !HasValue(rb) then Fail else Ok(W(Truth(rb.v.w != 0)), rb.st)
    case LogOr(a, b) =>
      var ra := Eval(a, st, env);
      if !HasValue(ra) then Fail
      else if ra.v.w != 0 then Ok(W(1), ra.st)
      else
        var rb := Eval(b, ra.st, env);
        if !HasValue(rb) then Fail else Ok(W(Truth(rb.v.w != 0)), rb.st)
    case Cond(a, b, c) =>
      var ra := Eval(a, st, env);
      if !HasValue(ra) then Fail
      else if ra.v.w != 0 then Eval(b, ra.st, env) else Eval(c, ra.st, env)
    case Comma(a, b) =>
      var ra := Eval(a, st, env);
      if ra.Fail? then Fail else Eval(b, ra.st, env)
    case Cast(to, size, uns, _, _, a) =>
      var ra := Eval(a, st, env);
      if ra.Fail? then Fail
      else if to == TyVoid then Ok(Void, ra.st)
      else if !HasValue(ra) then Fail
      else Ok(W(CastVal(to, size, uns, ra.v.w)), ra.st)
    case CallDirect(name, args) =>
      var rs := EvalArgs(args, st, env);
      if rs.ArgsFail? then Fail else Invoke(env.sym(name), rs.vals, rs.st, env)
    case CallIndirect(a, args) =>
      var rs := EvalArgs(args, st, env);
      if rs.ArgsFail? then Fail
      else
        var ra := Eval(a, rs.st, env);
        if !HasValue(ra) then Fail else Invoke(ra.v.w, rs.vals, ra.st, env)
    case Memzero(v, off, size) =>
      if RegOf(env.ra, v) != 0 then Ok(Void, Assigned(v, 0, st, env))
      else if !Avoids(Wrap(env.a6 + off), size, env.lo, env.top) then Fail
      else Ok(Void, st.(mem := Zero(st.mem, Wrap(env.a6 + off), size)))
    case Vdef(reg, a) =>
      var ra := Eval(a, st, env);
      if !HasValue(ra) then Fail
      else if reg == 0 then ra else Ok(ra.v, SetReg(reg, ra.v.w, ra.st))
    case Vuse(reg) =>
      if reg == 0 then Ok(Void, st) else Ok(W(st.regs[reg]), st)
  }

  predicate HasValue(r: Result) { r.Ok? && r.v.W? }

  datatype ArgsResult = ArgsFail | ArgsOk(vals: seq<Word>, st: State)

  // Arguments are evaluated from the last to the first.
  ghost function EvalArgs(args: seq<IrExpr>, st: State, env: Env): ArgsResult
    decreases args, 0
  {
    if args == [] then ArgsOk([], st)
    else
      var rest := EvalArgs(args[1..], st, env);
      if rest.ArgsFail? then ArgsFail
      else
        var r := Eval(args[0], rest.st, env);
        if !HasValue(r) then ArgsFail else ArgsOk([r.v.w] + rest.vals, r.st)
  }
}
