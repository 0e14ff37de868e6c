// The part of the 68000 that the generated code uses: D0-D7, A0-A7, condition
// codes, big-endian memory and a program of instructions and labels.
module M68k {
  import opened Words
  import opened Memory
  import opened Ir

  datatype Label = Lbl(kind: string, id: nat) | Named(name: string)

  datatype Size = B | H | L

  datatype Ea =
    | Dn(n: nat) | An(n: nat) | Imm(val: int)
    | Ind(n: nat)               // (an)
    | Disp(off: int, n: nat)    // off(an)
    | Indexed                   // (a0,d1.l)
    | Abs(name: string)
    | PushSp | PopSp            // -(sp), (sp)+

  datatype Cc = EQ | NE | LT | LE | GT | GE | CS | LS | HI | CC | PL

  datatype AluOp = AluAdd | AluSub | AluAnd | AluOr | AluEor

  datatype ShiftOp = AslOp | LsrOp | AsrOp

  datatype Instr =
    | Lab(l: Label)
    | Bra(l: Label)
    | Bcc(cc: Cc, l: Label)
    | Move(size: Size, src: Ea, dst: Ea)
    | LeaTo(src: Ea, n: nat)
    | Alu(op: AluOp, src: Ea, n: nat)
    | Cmp(src: Ea, n: nat)
    | Tst(n: nat)
    | Neg(n: nat)
    | NotL(n: nat)
    | ExtW(n: nat)
    | ExtL(n: nat)
    | Scc(cc: Cc, n: nat)
    | Shift(sop: ShiftOp, count: Ea, n: nat)
    | Clr(size: Size, dst: Ea)
    | ClrInc(n: nat)            // clr.b (an)+
    | Dbra(n: nat, l: Label)
    | Jsr(target: Ea, nargs: nat)
    | JsrHelper(hop: Op, uns: bool)
    | AddSp(bytes: nat)
    | Exit                      // jmp, rts: control leaves the code in hand
    | Directive                 // a line that assembles to no instruction

  datatype Flags = Flags(n: bool, z: bool, v: bool, c: bool)

  type Regs8 = s: seq<Word> | |s| == 8 witness [0, 0, 0, 0, 0, 0, 0, 0]

  datatype Cpu = Cpu(pc: nat, d: Regs8, a: Regs8, f: Flags, mem: Mem, trace: seq<Event>)

  // What the model leaves to the hardware or the callee: condition codes after
  // instructions whose codes no branch reads, and a callee's scratch registers
  // and use of the stack below SP and of its argument slots.
  datatype Chaos = Chaos(d1: Word, a0: Word, a1: Word, f: Flags, stack: Mem)

  datatype Machine = Machine(env: Env, prog: seq<Instr>, chaos: Cpu -> Chaos)

  function Bytes(s: Size): nat { match s case B => 1 case H => 2 case L => 4 }

  // ---- labels ---------------------------------------------------------------

  ghost predicate UniqueLabels(p: seq<Instr>) {
    forall i, j | 0 <= i < |p| && 0 <= j < |p| && p[i].Lab? && p[i] == p[j] :: i == j
  }

  // The index of label `l`, or the end of the program when it is not defined.
  function Target(p: seq<Instr>, l: Label): (t: nat)
    ensures t <= |p|
    ensures t < |p| ==> p[t] == Lab(l)
  {
    if p == [] then 0 else if p[0] == Lab(l) then 0 else 1 + Target(p[1..], l)
  }

  lemma {:induction false} TargetIs(p: seq<Instr>, l: Label, i: nat)
    requires UniqueLabels(p) && i < |p| && p[i] == Lab(l)
    ensures Target(p, l) == i
  {
    if i > 0 {
      assert p[0] != p[i];
      TargetIs(p[1..], l, i - 1);
    }
  }

  // ---- one instruction ------------------------------------------------------

  function ValueFlags(v: Word): Flags { Flags(v >= SIGN, v == 0, false, false) }

  // cmp s,d: the codes of d - s.
  function CmpFlags(d: Word, s: Word): Flags {
    var r := SubW(d, s);
    Flags(r >= SIGN, r == 0,
          (d >= SIGN) != (s >= SIGN) && (r >= SIGN) != (d >= SIGN),
          d < s)
  }

  predicate Holds(cc: Cc, f: Flags) {
    match cc
    case EQ => f.z
    case NE => !f.z
    case LT => f.n != f.v
    case GE => f.n == f.v
    case LE => f.z || f.n != f.v
    case GT => !f.z && f.n == f.v
    case CS => f.c
    case CC => !f.c
    case LS => f.c || f.z
    case HI => !f.c && !f.z
    case PL => !f.n
  }

  function D(s: Cpu, n: nat): Word { if n < 8 then s.d[n] else 0 }
  function A(s: Cpu, n: nat): Word { if n < 8 then s.a[n] else 0 }

  function SetD(s: Cpu, n: nat, v: Word): Cpu { if n < 8 then s.(d := s.d[n := v]) else s }
  function SetA(s: Cpu, n: nat, v: Word): Cpu { if n < 8 then s.(a := s.a[n := v]) else s }

  // Replace the low `size` bytes of a register.
  function Insert(prev: Word, size: Size, v: nat): Word {
    match size
    case B => prev / 256 * 256 + v % 256
    case H => prev / 65536 * 65536 + v % 65536
    case L => v % MODULUS
  }

  function Low(v: Word, size: Size): Word {
    match size case B => v % 256 case H => v % 65536 case L => v
  }

  function MemAddr(ea: Ea, s: Cpu, env: Env): Word {
    match ea
    case Ind(n) => A(s, n)
    case Disp(off, n) => Slot(A(s, n), off)
    case Indexed => Slot(s.a[0], s.d[1])
    case Abs(name) => env.sym(name)
    case PushSp => Slot(s.a[7], -4)
    case PopSp => s.a[7]
    case _ => 0
  }

  function ReadEa(ea: Ea, size: Size, s: Cpu, env: Env): Word {
    match ea
    case Dn(n) => Low(D(s, n), size)
    case An(n) => Low(A(s, n), size)
    case Imm(val) => Wrap(val)
    case _ => ReadIsWord(s.mem, MemAddr(ea, s, env), Bytes(size)); Read(s.mem, MemAddr(ea, s, env), Bytes(size))
  }

  function AluVal(op: AluOp, d: Word, s: Word): Word {
    match op
    case AluAdd => AddW(d, s)
    case AluSub => SubW(d, s)
    case AluAnd => And(d, s)
    case AluOr => Or(d, s)
    case AluEor => Xor(d, s)
  }

  function ShiftVal(op: ShiftOp, x: Word, count: Word): Word {
    match op
    case AslOp => Asl(x, count)
    case LsrOp => Lsr(x, count)
    case AsrOp => Asr(x, count)
  }

  // Store to an effective address; moves to an address register leave the codes alone.
  function WriteEa(ea: Ea, size: Size, v: Word, s: Cpu, env: Env): Cpu {
    match ea
    case Dn(n) => SetD(s, n, Insert(D(s, n), size, v)).(f := SizeFlags(size, v))
    case An(n) => SetA(s, n, v)
    case PushSp =>
      SetA(s, 7, Slot(s.a[7], -4)).(mem := Write(s.mem, Slot(s.a[7], -4), Bytes(size), v), f := SizeFlags(size, v))
    case _ =>
      s.(mem := Write(s.mem, MemAddr(ea, s, env), Bytes(size), v), f := SizeFlags(size, v))
  }

  function SizeFlags(size: Size, v: Word): Flags {
    match size
    case B => Flags(v % 256 >= 128, v % 256 == 0, false, false)
    case H => Flags(v % 65536 >= 32768, v % 65536 == 0, false, false)
    case L => ValueFlags(v)
  }

  function StackArgs(m: Mem, sp: int, n: nat): seq<Word>
    decreases n
  {
    if n == 0 then [] else
      ReadIsWord(m, sp, 4);
      [Read(m, sp, 4)] + StackArgs(m, sp + 4, n - 1)
  }

  // A call of C code: the result is in D0; D0, D1, A0, A1, the condition codes, the
  // stack below SP and the argument slots are the callee's to use, and it sees every
  // other memory byte outside the caller's reserved stack space.
  ghost function CallStep(f: Word, nargs: nat, s: Cpu, m: Machine): Cpu {
    var args := StackArgs(s.mem, s.a[7], nargs);
    var (r, mem) := m.env.call(f, args, Visible(s.mem, m.env.lo, m.env.top), s.trace);
    var after := Scratch(s, m, s.a[7] + 4 * nargs).(trace := s.trace + [Call(f, args)]);
    SetD(after.(mem := Overlay(mem, after.mem, m.env.lo, m.env.top)), 0, r)
  }

  // The callee's registers, and the stack below `above`, hold anything.
  ghost function Scratch(s: Cpu, m: Machine, above: int): Cpu {
    var x := m.chaos(s);
    SetA(SetA(SetD(s, 1, x.d1), 0, x.a0), 1, x.a1)
      .(f := x.f, mem := Overlay(s.mem, x.stack, m.env.lo, above))
  }

  ghost function Step(s: Cpu, m: Machine): Cpu {
    if s.pc >= |m.prog| then s
    else
      var env := m.env;
      var next := s.(pc := s.pc + 1);
      match m.prog[s.pc]
      case Lab(_) => next
      case Directive => next
      case Exit => s
      case Bra(l) => s.(pc := Target(m.prog, l))
      case Bcc(cc, l) => if Holds(cc, s.f) then s.(pc := Target(m.prog, l)) else next
      case Move(size, src, dst) =>
        var v := ReadEa(src, size, s, env);
        var popped := if src == PopSp then SetA(next, 7, Slot(s.a[7], 4)) else next;
        WriteEa(dst, size, v, popped, env)
      case LeaTo(src, n) => SetA(next, n, MemAddr(src, s, env))
      case Alu(op, src, n) =>
        var v := AluVal(op, D(s, n), ReadEa(src, L, s, env));
        SetD(next, n, v).(f := m.chaos(s).f)
      case Cmp(src, n) => next.(f := CmpFlags(D(s, n), ReadEa(src, L, s, env)))
      case Tst(n) => next.(f := ValueFlags(D(s, n)))
      case Neg(n) => SetD(next, n, NegW(D(s, n))).(f := m.chaos(s).f)
      case NotL(n) => SetD(next, n, Words.Not(D(s, n))).(f := m.chaos(s).f)
      case ExtW(n) =>
        SetD(next, n, Insert(D(s, n), H, Narrow(1, false, D(s, n)))).(f := m.chaos(s).f)
      case ExtL(n) => SetD(next, n, Narrow(2, false, D(s, n))).(f := m.chaos(s).f)
      case Scc(cc, n) =>
        SetD(next, n, Insert(D(s, n), B, if Holds(cc, s.f) then 255 else 0))
      case Shift(sop, count, n) =>
        SetD(next, n, ShiftVal(sop, D(s, n), ReadEa(count, L, s, env))).(f := m.chaos(s).f)
      case Clr(size, dst) => WriteEa(dst, size, 0, next, env)
      case ClrInc(n) =>
        SetA(next.(mem := Write(s.mem, A(s, n), 1, 0), f := ValueFlags(0)), n, Slot(A(s, n), 1))
      case Dbra(n, l) =>
        var low := (D(s, n) % 65536 + 65535) % 65536;
        var t := SetD(next, n, Insert(D(s, n), H, low));
        if low == 65535 then t else t.(pc := Target(m.prog, l))
      case Jsr(target, nargs) =>
        CallStep(MemAddr(target, s, env), nargs, next, m)
      case JsrHelper(hop, uns) =>
        var v := BinVal(hop, uns, s.d[0], s.d[1], env.undef);
        SetD(Scratch(next, m, s.a[7]), 0, v)
      case AddSp(bytes) => SetA(next, 7, Slot(s.a[7], bytes))
  }

  ghost function Run(s: Cpu, m: Machine, n: nat): Cpu
    decreases n
  {
    if n == 0 then s else Run(Step(s, m), m, n - 1)
  }

  lemma ShortRun(s: Cpu, m: Machine)
    ensures Run(s, m, 0) == s
  {}

  lemma {:induction false} RunAdd(s: Cpu, m: Machine, i: nat, j: nat)
    ensures Run(s, m, i + j) == Run(Run(s, m, i), m, j)
    decreases i
  {
    hide Step;
    if i > 0 { RunAdd(Step(s, m), m, i - 1, j); }
  }
}
