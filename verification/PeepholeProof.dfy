// The peephole keeps the meaning of lines in which A0 is scratch after a direct load.
module PeepholeProof {
  import opened Words
  import opened Memory
  import opened Ir
  import opened M68k
  import opened Peephole

  // ---- uses of A0 --------------------------------------------------------------------------

  predicate EaReads(ea: Ea) { ea == An(0) || ea == Ind(0) || ea == Indexed || (ea.Disp? && ea.n == 0) }

  predicate ReadsA0(i: Instr) {
    match i
    case Move(_, src, dst) => EaReads(src) || (dst != An(0) && EaReads(dst))
    case LeaTo(src, _) => EaReads(src)
    case Alu(_, src, _) => EaReads(src)
    case Cmp(src, _) => EaReads(src)
    case Shift(_, count, _) => EaReads(count)
    case Clr(_, dst) => EaReads(dst)
    case ClrInc(n) => n == 0
    case Jsr(target, _) => EaReads(target)
    case Lab(_) | Bra(_) | Bcc(_, _) | Tst(_) | Neg(_) | NotL(_) | ExtW(_) | ExtL(_) | Scc(_, _) | Dbra(_, _)
       | JsrHelper(_, _) | AddSp(_) | Exit | Directive => false
  }

  predicate WritesA0(i: Instr) {
    match i
    case Move(_, _, dst) => dst == An(0)
    case LeaTo(_, n) => n == 0
    case Jsr(_, _) | JsrHelper(_, _) => true
    case _ => false
  }

  function JumpLabel(i: Instr): Option<Label> {
    match i
    case Bra(l) => Some(l)
    case Bcc(_, l) => Some(l)
    case Dbra(_, l) => Some(l)
    case _ => None
  }

  // dead[i]: A0 is not read from line i on before it is written.
  predicate DeadAt(dead: seq<bool>, pc: nat) { pc >= |dead| || dead[pc] }

  ghost predicate DeadHere(p: seq<Instr>, dead: seq<bool>, i: nat)
    requires i < |p|
  {
    && !ReadsA0(p[i])
    && (WritesA0(p[i])
        || ((IsTransfer(p[i]) || DeadAt(dead, i + 1))
            && (JumpLabel(p[i]).Some? ==> DeadAt(dead, Target(p, JumpLabel(p[i]).value)))))
  }

  ghost predicate Closed(p: seq<Instr>, dead: seq<bool>) {
    |dead| == |p| && forall i | 0 <= i < |p| && dead[i] :: DeadHere(p, dead, i)
  }

  // After a load through A0 whose next line does not mention (a0), A0 is dead.
  ghost predicate Guarded(p: seq<Instr>, dead: seq<bool>) {
    forall i | 0 <= i < |p| && p[i] == LOAD_A0 && !(LineAt(p, i + 1).Some? && Mentions(p[i + 1])) :: DeadAt(dead, i + 1)
  }

  // lea takes a control addressing mode.
  predicate LeasControl(p: seq<Instr>) {
    forall i | 0 <= i < |p| && p[i].LeaTo? :: p[i].src.Ind? || p[i].src.Disp? || p[i].src.Indexed? || p[i].src.Abs?
  }

  ghost predicate ScratchBy(p: seq<Instr>, dead: seq<bool>) {
    UniqueLabels(p) && LeasControl(p) && Closed(p, dead) && Guarded(p, dead)
  }

  ghost predicate ScratchA0(p: seq<Instr>) { exists dead :: ScratchBy(p, dead) }

  // ---- positions before and after a rewrite ---------------------------------------------------

  function Map(pc: nat, k: nat): nat { if pc <= k then pc else pc - 1 }

  // Where line j of the rewritten program comes from.
  function Origin(j: nat, k: nat, r: Rule): nat { if j < k then j else if j == k && r != R4 then k else j + 1 }

  lemma RewrittenLines(p: seq<Instr>, k: nat)
    requires RuleAt(p, k).Some?
    ensures var q := Rewritten(p, k); var r := RuleAt(p, k).value;
      && |q| == |p| - 1
      && (forall j | 0 <= j < k :: q[j] == p[j])
      && (forall j | k < j < |q| :: q[j] == p[j + 1])
      && q[k] == Replacement(r, p[k], p[k + 1])
  {
    hide RuleFor, Replacement;
  }

  // Facts about the two lines of each rule.
  ghost predicate RuleFacts(p: seq<Instr>, k: nat, r: Rule) {
    && k + 1 < |p| && !p[k].Lab? && (r != R4 ==> !p[k + 1].Lab?)
    && match r
       case R1 => p[k] == A0_TO_D0 && p[k + 1] == D0_TO_A0
       case R2 => p[k] == A0_TO_D0 && KillsD0(p[k + 1])
       case R3 => p[k].LeaTo? && p[k].n == 0 && p[k + 1] == LOAD_A0 && !(LineAt(p, k + 2).Some? && Mentions(p[k + 2]))
       case R4 => p[k].Bra? && p[k + 1] == Lab(p[k].l)
       case R5 => IsTransfer(p[k]) && IsInstruction(p[k + 1])
  }

  lemma RuleMeans(p: seq<Instr>, k: nat)
    requires RuleAt(p, k).Some?
    ensures RuleFacts(p, k, RuleAt(p, k).value)
    ensures Replacement(RuleAt(p, k).value, p[k], p[k + 1])
         == match RuleAt(p, k).value
            case R1 | R5 => p[k]
            case R2 | R4 => p[k + 1]
            case R3 => Move(L, p[k].src, Dn(0))
  {}

  lemma {:induction false} NoTarget(p: seq<Instr>, l: Label)
    requires forall i | 0 <= i < |p| :: p[i] != Lab(l)
    ensures Target(p, l) == |p|
  {
    if p != [] { NoTarget(p[1..], l); }
  }

  lemma TargetMoves(p: seq<Instr>, k: nat, l: Label)
    requires RuleAt(p, k).Some? && UniqueLabels(p)
    ensures UniqueLabels(Rewritten(p, k))
    ensures Target(Rewritten(p, k), l) == Map(Target(p, l), k)
    ensures Target(p, l) == k + 1 ==> RuleAt(p, k).value == R4
  {
    hide RuleFor, Replacement, Rewritten, KillsD0, Mentions;
    var q, r := Rewritten(p, k), RuleAt(p, k).value;
    RewrittenLines(p, k);
    RuleMeans(p, k);
    forall i, j | 0 <= i < |q| && 0 <= j < |q| && q[i].Lab? && q[i] == q[j] ensures i == j {
      assert p[Origin(i, k, r)] == q[i] && p[Origin(j, k, r)] == q[j];
    }
    var t := Target(p, l);
    if t < |p| {
      assert q[Map(t, k)] == Lab(l);
      TargetIs(q, l, Map(t, k));
    } else {
      forall j | 0 <= j < |q| ensures q[j] != Lab(l) {
        if q[j].Lab? {
          assert p[Origin(j, k, r)] == q[j];
          if q[j] == Lab(l) { TargetIs(p, l, Origin(j, k, r)); }
        }
      }
      NoTarget(q, l);
    }
  }

  // ---- the condition is kept ---------------------------------------------------------------------

  function DeadAfter(dead: seq<bool>, k: nat, r: Rule): seq<bool>
    requires k + 1 < |dead|
  {
    dead[..k] + [if r == R4 then dead[k + 1] else dead[k]] + dead[k + 2..]
  }

  lemma DeadMoves(dead: seq<bool>, k: nat, r: Rule, pc: nat)
    requires k + 1 < |dead| && (r == R4 ==> dead[k] ==> dead[k + 1])
    requires pc == k + 1 ==> r == R4
    ensures |DeadAfter(dead, k, r)| == |dead| - 1
    ensures DeadAt(dead, pc) ==> DeadAt(DeadAfter(dead, k, r), Map(pc, k))
  {}

  lemma RewriteKeepsScratch(p: seq<Instr>, k: nat, dead: seq<bool>)
    requires ScratchBy(p, dead) && RuleAt(p, k).Some?
    ensures ScratchBy(Rewritten(p, k), DeadAfter(dead, k, RuleAt(p, k).value))
  {
    hide RuleFor, Replacement, Rewritten, KillsD0, Mentions, DeadAfter, DeadHere, ReadsA0, WritesA0;
    var q, r := Rewritten(p, k), RuleAt(p, k).value;
    RewrittenLines(p, k);
    RuleMeans(p, k);
    TargetMoves(p, k, Named(""));
    JumpDead(p, k, dead);
    var after := DeadAfter(dead, k, r);
    DeadMoves(dead, k, r, 0);
    forall j | 0 <= j < |q| && after[j] ensures DeadHere(q, after, j) { DeadLine(p, k, dead, j); }
    forall j | 0 <= j < |q| && q[j] == LOAD_A0 && !(LineAt(q, j + 1).Some? && Mentions(q[j + 1]))
      ensures DeadAt(after, j + 1)
    {
      GuardedLine(p, k, dead, j);
    }
  }

  // In rule R4, A0 is dead at the label if it is dead at the branch.
  lemma JumpDead(p: seq<Instr>, k: nat, dead: seq<bool>)
    requires ScratchBy(p, dead) && RuleAt(p, k).Some?
    ensures k + 1 < |dead| == |p|
    ensures RuleAt(p, k).value == R4 ==> dead[k] ==> dead[k + 1]
    ensures RuleAt(p, k).value == R1 || RuleAt(p, k).value == R2 ==> !dead[k]
    ensures RuleAt(p, k).value == R3 ==> DeadAt(dead, k + 2)
  {
    hide RuleFor, Mentions, KillsD0;
    RuleMeans(p, k);
    if dead[k] { assert DeadHere(p, dead, k); }
    if RuleAt(p, k).value == R4 { TargetIs(p, p[k].l, k + 1); }
  }

  lemma DeadLine(p: seq<Instr>, k: nat, dead: seq<bool>, j: nat)
    requires ScratchBy(p, dead) && RuleAt(p, k).Some?
    requires k + 1 < |dead| == |p| && j + 1 < |p| && |DeadAfter(dead, k, RuleAt(p, k).value)| == |p| - 1 == |Rewritten(p, k)|
    requires DeadAfter(dead, k, RuleAt(p, k).value)[j]
    ensures DeadHere(Rewritten(p, k), DeadAfter(dead, k, RuleAt(p, k).value), j)
  {
    hide RuleFor, Replacement, Rewritten, KillsD0, Mentions, Guarded, Target;
    var q, r := Rewritten(p, k), RuleAt(p, k).value;
    RewrittenLines(p, k);
    RuleMeans(p, k);
    JumpDead(p, k, dead);
    var o := Origin(j, k, r);
    assert dead[o] && DeadHere(p, dead, o);
    DeadMoves(dead, k, r, if o + 1 == k + 1 then k + 2 else o + 1);
    if JumpLabel(p[o]).Some? {
      var l := JumpLabel(p[o]).value;
      TargetMoves(p, k, l);
      DeadMoves(dead, k, r, Target(p, l));
    }
  }

  lemma GuardedLine(p: seq<Instr>, k: nat, dead: seq<bool>, j: nat)
    requires ScratchBy(p, dead) && RuleAt(p, k).Some?
    requires k + 1 < |dead| == |p| && j < |Rewritten(p, k)| && Rewritten(p, k)[j] == LOAD_A0
    requires !(LineAt(Rewritten(p, k), j + 1).Some? && Mentions(Rewritten(p, k)[j + 1]))
    ensures DeadAt(DeadAfter(dead, k, RuleAt(p, k).value), j + 1)
  {
    hide RuleFor, Replacement, Rewritten, Closed, Target;
    var q, r := Rewritten(p, k), RuleAt(p, k).value;
    RewrittenLines(p, k);
    RuleMeans(p, k);
    JumpDead(p, k, dead);
    if j < k {
      if j + 1 == k {
        assert r == R3 ==> Mentions(q[k]) == Mentions(p[k]);
      }
      assert DeadAt(dead, j + 1);
      DeadMoves(dead, k, r, j + 1);
    } else {
      assert DeadAt(dead, j + 2);
      DeadMoves(dead, k, r, j + 2);
    }
  }

  // ---- one instruction in two programs ---------------------------------------------------------

  // Equal but for the program counter and A0.
  ghost predicate SameRest(s: Cpu, u: Cpu) { u == s.(pc := u.pc, a := s.a[0 := u.a[0]]) }

  // The same run-time world around another program.
  ghost predicate SameWorld(m: Machine, w: Machine) { m.env == w.env && m.chaos == w.chaos }

  // What is left to chance depends on neither the program counter nor A0.
  ghost predicate Oblivious(m: Machine) { forall s, u | SameRest(s, u) :: m.chaos(s) == m.chaos(u) }

  // How both went on: to the next line, or to the same label.
  ghost predicate WentOn(i: Instr, pc: nat, pc2: nat, p: seq<Instr>, qc: nat, qc2: nat, q: seq<Instr>) {
    || (pc2 == pc + 1 && qc2 == qc + 1 && !IsTransfer(i))
    || (JumpLabel(i).Some? && pc2 == Target(p, JumpLabel(i).value) && qc2 == Target(q, JumpLabel(i).value))
  }

  ghost predicate BothAt(s: Cpu, u: Cpu, m: Machine, w: Machine, i: Instr) {
    && SameWorld(m, w) && Oblivious(m)
    && s.pc < |m.prog| && m.prog[s.pc] == i && u.pc < |w.prog| && w.prog[u.pc] == i
    && SameRest(s, u) && (s.a[0] == u.a[0] || !ReadsA0(i))
  }

  ghost predicate BothStepped(s: Cpu, u: Cpu, s2: Cpu, u2: Cpu, m: Machine, w: Machine, i: Instr) {
    && SameRest(s2, u2)
    && (s.a[0] == u.a[0] || WritesA0(i) ==> s2.a[0] == u2.a[0])
    && WentOn(i, s.pc, s2.pc, m.prog, u.pc, u2.pc, w.prog)
  }

  lemma SameOperand(ea: Ea, size: Size, s: Cpu, u: Cpu, env: Env)
    requires SameRest(s, u) && (s.a[0] == u.a[0] || !EaReads(ea))
    ensures MemAddr(ea, s, env) == MemAddr(ea, u, env) && ReadEa(ea, size, s, env) == ReadEa(ea, size, u, env)
  {
    hide Read;
  }

  lemma SameWrite(ea: Ea, size: Size, v: Word, s: Cpu, u: Cpu, env: Env)
    requires SameRest(s, u) && (s.a[0] == u.a[0] || ea == An(0) || !EaReads(ea))
    ensures var s2, u2 := WriteEa(ea, size, v, s, env), WriteEa(ea, size, v, u, env);
      SameRest(s2, u2) && s2.pc == s.pc && u2.pc == u.pc && (s.a[0] == u.a[0] || ea == An(0) ==> s2.a[0] == u2.a[0])
  {
    hide Read, Write, Insert, SizeFlags;
  }

  lemma BothMove(s: Cpu, u: Cpu, m: Machine, w: Machine, i: Instr)
    requires BothAt(s, u, m, w, i) && i.Move?
    ensures BothStepped(s, u, Step(s, m), Step(u, w), m, w, i)
  {
    hide ReadEa, WriteEa, SizeFlags, Popped, Step;
    var env := m.env;
    SameOperand(i.src, i.size, s, u, env);
    SamePopped(i.src, s, u);
    SameWrite(i.dst, i.size, ReadEa(i.src, i.size, s, env), Popped(i.src, s), Popped(i.src, u), env);
    MoveIs(s, m, i);
    MoveIs(u, w, i);
  }

  function Popped(src: Ea, s: Cpu): Cpu {
    var next := s.(pc := s.pc + 1);
    if src == PopSp then SetA(next, 7, Slot(s.a[7], 4)) else next
  }

  lemma SamePopped(src: Ea, s: Cpu, u: Cpu)
    requires SameRest(s, u)
    ensures SameRest(Popped(src, s), Popped(src, u))
    ensures Popped(src, s).pc == s.pc + 1 && Popped(src, u).pc == u.pc + 1
    ensures Popped(src, s).a[0] == s.a[0] && Popped(src, u).a[0] == u.a[0]
  {}

  lemma MoveIs(s: Cpu, m: Machine, i: Instr)
    requires s.pc < |m.prog| && m.prog[s.pc] == i && i.Move?
    ensures Step(s, m) == WriteEa(i.dst, i.size, ReadEa(i.src, i.size, s, m.env), Popped(i.src, s), m.env)
  {
    hide ReadEa, WriteEa;
  }

  lemma BothClear(s: Cpu, u: Cpu, m: Machine, w: Machine, i: Instr)
    requires BothAt(s, u, m, w, i) && i.Clr?
    ensures BothStepped(s, u, Step(s, m), Step(u, w), m, w, i)
  {
    hide WriteEa, SizeFlags;
    SameWrite(i.dst, i.size, 0, s.(pc := s.pc + 1), u.(pc := u.pc + 1), m.env);
  }

  lemma BothRead(s: Cpu, u: Cpu, m: Machine, w: Machine, i: Instr)
    requires BothAt(s, u, m, w, i) && (i.LeaTo? || i.Alu? || i.Cmp? || i.Shift?)
    ensures BothStepped(s, u, Step(s, m), Step(u, w), m, w, i)
  {
    hide ReadEa, MemAddr, AluVal, ShiftVal, CmpFlags;
    match i {
      case LeaTo(src, _) => SameOperand(src, L, s, u, m.env);
      case Alu(_, src, _) => SameOperand(src, L, s, u, m.env);
      case Cmp(src, _) => SameOperand(src, L, s, u, m.env);
      case Shift(_, count, _) => SameOperand(count, L, s, u, m.env);
    }
  }

  lemma SameScratch(s: Cpu, u: Cpu, m: Machine, w: Machine, above: int)
    requires SameRest(s, u) && SameWorld(m, w) && Oblivious(m)
    ensures var s2, u2 := Scratch(s, m, above), Scratch(u, w, above);
      SameRest(s2, u2) && s2.pc == s.pc && u2.pc == u.pc && s2.a[0] == u2.a[0]
  {
    hide Overlay;
    assert m.chaos(s) == w.chaos(u);
  }

  lemma BothCall(s: Cpu, u: Cpu, m: Machine, w: Machine, i: Instr)
    requires BothAt(s, u, m, w, i) && (i.Jsr? || i.JsrHelper?)
    ensures BothStepped(s, u, Step(s, m), Step(u, w), m, w, i)
  {
    hide MemAddr, BinVal, Overlay, Visible, StackArgs, Scratch;
    SameScratch(s.(pc := s.pc + 1), u.(pc := u.pc + 1), m, w, s.a[7] + if i.Jsr? then 4 * i.nargs else 0);
    if i.Jsr? { SameOperand(i.target, L, s, u, m.env); }
  }

  lemma BothPlain(s: Cpu, u: Cpu, m: Machine, w: Machine, i: Instr)
    requires BothAt(s, u, m, w, i) && !i.Exit?
    requires !i.Move? && !i.Clr? && !i.LeaTo? && !i.Alu? && !i.Cmp? && !i.Shift? && !i.Jsr? && !i.JsrHelper?
    ensures BothStepped(s, u, Step(s, m), Step(u, w), m, w, i)
  {
    hide MemAddr, ReadEa, WriteEa, AluVal, ShiftVal, CmpFlags, BinVal, Insert, Narrow, Words.Not, NegW, ValueFlags,
         CallStep, Scratch, Write, Target;
    assert m.chaos(s) == w.chaos(u);
  }

  lemma BothStep(s: Cpu, u: Cpu, m: Machine, w: Machine, i: Instr)
    requires BothAt(s, u, m, w, i) && !i.Exit?
    ensures BothStepped(s, u, Step(s, m), Step(u, w), m, w, i)
  {
    hide BothAt, BothStepped, Step;
    if i.Move? { BothMove(s, u, m, w, i); }
    else if i.Clr? { BothClear(s, u, m, w, i); }
    else if i.LeaTo? || i.Alu? || i.Cmp? || i.Shift? { BothRead(s, u, m, w, i); }
    else if i.Jsr? || i.JsrHelper? { BothCall(s, u, m, w, i); }
    else { BothPlain(s, u, m, w, i); }
  }

  // ---- the rewritten program follows the original -----------------------------------------------

  ghost predicate Rel(s: Cpu, u: Cpu, k: nat, r: Rule, dead: seq<bool>) {
    && u.pc == Map(s.pc, k) && (s.pc == k + 1 ==> r == R4)
    && SameRest(s, u) && (s.a[0] == u.a[0] || DeadAt(dead, s.pc))
  }

  // m runs lines of which w runs the rewriting at k.
  ghost predicate Rewriting(m: Machine, w: Machine, k: nat, dead: seq<bool>) {
    && SameWorld(m, w) && Oblivious(m) && ScratchBy(m.prog, dead)
    && RuleAt(m.prog, k).Some? && w.prog == Rewritten(m.prog, k)
  }

  // A step at a line that both programs have.
  lemma SharedStep(s: Cpu, u: Cpu, m: Machine, w: Machine, k: nat, dead: seq<bool>, r: Rule)
    requires Rewriting(m, w, k, dead) && r == RuleAt(m.prog, k).value && Rel(s, u, k, r, dead)
    requires s.pc != k || r == R5
    ensures Rel(Step(s, m), Step(u, w), k, r, dead)
  {
    hide RuleFor, Replacement, Rewritten, Step, KillsD0, Mentions, Target, UniqueLabels, Guarded, ReadsA0, WritesA0;
    var p, q := m.prog, w.prog;
    RewrittenLines(p, k);
    RuleMeans(p, k);
    JumpDead(p, k, dead);
    if s.pc >= |p| {
      AtRest(s, m);
      AtRest(u, w);
    } else {
      var i := p[s.pc];
      assert q[u.pc] == i;
      if i.Exit? {
        AtRest(s, m);
        AtRest(u, w);
      } else {
        if s.a[0] != u.a[0] { assert DeadHere(p, dead, s.pc); }
        BothStep(s, u, m, w, i);
        if JumpLabel(i).Some? { TargetMoves(p, k, JumpLabel(i).value); }
      }
    }
  }

  lemma AtRest(s: Cpu, m: Machine)
    requires s.pc >= |m.prog| || m.prog[s.pc].Exit?
    ensures Step(s, m) == s
  {}

  lemma TwoSteps(s: Cpu, m: Machine)
    ensures Run(s, m, 1) == Step(s, m) && Run(s, m, 2) == Step(Step(s, m), m)
  {
    hide Step;
    assert Run(s, m, 2) == Run(Step(s, m), m, 1);
  }

  // R1: the second move puts back what A0 holds.
  lemma R1Step(s: Cpu, u: Cpu, m: Machine, w: Machine, k: nat, dead: seq<bool>)
    requires Rewriting(m, w, k, dead) && RuleAt(m.prog, k) == Some(R1) && Rel(s, u, k, R1, dead) && s.pc == k
    ensures Rel(Step(Step(s, m), m), Step(u, w), k, R1, dead)
  {
    hide RuleFor, Replacement, Rewritten, ScratchBy, Step, KillsD0, Mentions;
    RewrittenLines(m.prog, k);
    RuleMeans(m.prog, k);
    JumpDead(m.prog, k, dead);
    MoveA0D0(s, m);
    MoveA0D0(u, w);
    MoveD0A0(Step(s, m), m);
  }

  function A0InD0(s: Cpu): Cpu { s.(pc := s.pc + 1, d := s.d[0 := s.a[0]], f := ValueFlags(s.a[0])) }

  lemma MoveA0D0(s: Cpu, m: Machine)
    requires s.pc < |m.prog| && m.prog[s.pc] == A0_TO_D0
    ensures Step(s, m) == A0InD0(s)
  {}

  lemma MoveD0A0(s: Cpu, m: Machine)
    requires s.pc < |m.prog| && m.prog[s.pc] == D0_TO_A0
    ensures Step(s, m) == s.(pc := s.pc + 1, a := s.a[0 := s.d[0]])
  {}

  // R2: the second line sets D0 and the codes whatever the first put there.
  lemma R2Step(s: Cpu, u: Cpu, m: Machine, w: Machine, k: nat, dead: seq<bool>)
    requires Rewriting(m, w, k, dead) && RuleAt(m.prog, k) == Some(R2) && Rel(s, u, k, R2, dead) && s.pc == k
    ensures Rel(Step(Step(s, m), m), Step(u, w), k, R2, dead)
  {
    hide RuleFor, Replacement, Rewritten, ScratchBy, KillsD0, Step, Killed, ReadEa, Mentions, ValueFlags;
    RewrittenLines(m.prog, k);
    RuleMeans(m.prog, k);
    JumpDead(m.prog, k, dead);
    MoveA0D0(s, m);
    KillStep(Step(s, m), m);
    KillStep(u, w);
    SameKilled(s, u, m.prog[k + 1], m.env);
  }

  // The value a killing line loads does not depend on D0.
  function Killed(i: Instr, s: Cpu, env: Env): Word
    requires i.Move?
  {
    ReadEa(i.src, L, s, env)
  }

  lemma KillStep(s: Cpu, m: Machine)
    requires s.pc < |m.prog| && KillsD0(m.prog[s.pc])
    ensures var v := Killed(m.prog[s.pc], s, m.env);
      Step(s, m) == s.(pc := s.pc + 1, d := s.d[0 := v], f := ValueFlags(v))
  {
    hide Read;
  }

  lemma SameKilled(s: Cpu, u: Cpu, i: Instr, env: Env)
    requires KillsD0(i) && SameRest(s, u) && s.a[0] == u.a[0]
    ensures Killed(i, A0InD0(s), env) == Killed(i, u, env)
  {
    hide Read;
  }

  // R3: the load reads the same address; A0 differs and is dead.
  lemma R3Step(s: Cpu, u: Cpu, m: Machine, w: Machine, k: nat, dead: seq<bool>)
    requires Rewriting(m, w, k, dead) && RuleAt(m.prog, k) == Some(R3) && Rel(s, u, k, R3, dead) && s.pc == k
    ensures Rel(Step(Step(s, m), m), Step(u, w), k, R3, dead)
  {
    hide RuleFor, Replacement, Rewritten, KillsD0, Mentions, Guarded, UniqueLabels, MemAddr, Step;
    RewrittenLines(m.prog, k);
    RuleMeans(m.prog, k);
    JumpDead(m.prog, k, dead);
    var ea := m.prog[k].src;
    if s.a[0] != u.a[0] { assert DeadHere(m.prog, dead, k); }
    LeaStep(s, m, ea);
    LoadA0Step(Step(s, m), m);
    DirectStep(u, w, ea);
    SameOperand(ea, L, s, u, m.env);
  }

  lemma LeaStep(s: Cpu, m: Machine, ea: Ea)
    requires s.pc < |m.prog| && m.prog[s.pc] == LeaTo(ea, 0)
    ensures Step(s, m) == s.(pc := s.pc + 1, a := s.a[0 := MemAddr(ea, s, m.env)])
  {
    hide MemAddr;
  }

  function Fetched(s: Cpu, p: Word): Cpu {
    ReadIsWord(s.mem, p, 4);
    s.(pc := s.pc + 1, d := s.d[0 := Read(s.mem, p, 4)], f := ValueFlags(Read(s.mem, p, 4)))
  }

  lemma LoadA0Step(s: Cpu, m: Machine)
    requires s.pc < |m.prog| && m.prog[s.pc] == LOAD_A0
    ensures Step(s, m) == Fetched(s, s.a[0])
  {
    hide Read;
    ReadIsWord(s.mem, s.a[0], 4);
  }

  lemma DirectStep(s: Cpu, m: Machine, ea: Ea)
    requires s.pc < |m.prog| && m.prog[s.pc] == Move(L, ea, Dn(0))
    requires ea.Ind? || ea.Disp? || ea.Indexed? || ea.Abs?
    ensures Step(s, m) == Fetched(s, MemAddr(ea, s, m.env))
  {
    hide Read, MemAddr;
    ReadIsWord(s.mem, MemAddr(ea, s, m.env), 4);
  }

  // R4: the branch goes to the label behind it.
  lemma R4Step(s: Cpu, u: Cpu, m: Machine, w: Machine, k: nat, dead: seq<bool>)
    requires Rewriting(m, w, k, dead) && RuleAt(m.prog, k) == Some(R4) && Rel(s, u, k, R4, dead) && s.pc == k
    ensures Rel(Step(s, m), u, k, R4, dead) && Step(s, m).pc == k + 1
  {
    hide RuleFor, Replacement, Rewritten, Guarded, DeadHere;
    RuleMeans(m.prog, k);
    JumpDead(m.prog, k, dead);
    TargetIs(m.prog, m.prog[k].l, k + 1);
  }

  // One step of the rewritten program is one or two of the original.
  lemma TrackStep(s: Cpu, u: Cpu, m: Machine, w: Machine, k: nat, dead: seq<bool>, r: Rule) returns (n: nat)
    requires Rewriting(m, w, k, dead) && r == RuleAt(m.prog, k).value && Rel(s, u, k, r, dead)
    ensures n > 0 && Rel(Run(s, m, n), Step(u, w), k, r, dead)
  {
    hide RuleAt, ScratchBy, Oblivious, Rewritten, Step, Run, Rel, DeadAt;
    TwoSteps(s, m);
    if s.pc != k || r == R5 {
      n := 1;
      SharedStep(s, u, m, w, k, dead, r);
    } else {
      n := 2;
      match r {
        case R1 => R1Step(s, u, m, w, k, dead);
        case R2 => R2Step(s, u, m, w, k, dead);
        case R3 => R3Step(s, u, m, w, k, dead);
        case R4 => R4Step(s, u, m, w, k, dead); SharedStep(Step(s, m), u, m, w, k, dead, r);
      }
    }
  }

  lemma {:induction false} TrackRun(s: Cpu, u: Cpu, m: Machine, w: Machine, k: nat, dead: seq<bool>, r: Rule, steps: nat)
    returns (n: nat)
    requires Rewriting(m, w, k, dead) && r == RuleAt(m.prog, k).value && Rel(s, u, k, r, dead)
    ensures n >= steps && Rel(Run(s, m, n), Run(u, w, steps), k, r, dead)
    decreases steps
  {
    hide RuleAt, Rewriting, Step, Rel;
    n := 0;
    if steps > 0 {
      var i := TrackStep(s, u, m, w, k, dead, r);
      var j := TrackRun(Run(s, m, i), Step(u, w), m, w, k, dead, r, steps - 1);
      RunAdd(s, m, i, j);
      n := i + j;
    }
  }

  // ---- the whole pass ----------------------------------------------------------------------------

  ghost predicate AtExit(s: Cpu, m: Machine) { s.pc < |m.prog| && m.prog[s.pc].Exit? }

  // Everything but A0 and the position is the same, and both have left the code or neither.
  ghost predicate Meets(s: Cpu, u: Cpu, m: Machine, w: Machine) {
    SameRest(s, u) && (AtExit(s, m) <==> AtExit(u, w))
  }

  // The start of the program, or one of its labels.
  function Entry(p: seq<Instr>, l: Option<Label>): nat { if l.Some? then Target(p, l.value) else 0 }

  lemma RelMeets(s: Cpu, u: Cpu, m: Machine, w: Machine, k: nat, dead: seq<bool>, r: Rule)
    requires Rewriting(m, w, k, dead) && r == RuleAt(m.prog, k).value && Rel(s, u, k, r, dead)
    ensures Meets(s, u, m, w)
  {
    hide RuleFor, Replacement, Rewritten, ScratchBy, DeadAt;
    RewrittenLines(m.prog, k);
    RuleMeans(m.prog, k);
  }

  lemma EntryRel(s: Cpu, m: Machine, w: Machine, k: nat, dead: seq<bool>, r: Rule, l: Option<Label>)
    requires Rewriting(m, w, k, dead) && r == RuleAt(m.prog, k).value
    ensures Rel(s.(pc := Entry(m.prog, l)), s.(pc := Entry(w.prog, l)), k, r, dead)
  {
    hide RuleFor, Rewritten, Closed, Guarded, DeadAt;
    if l.Some? { TargetMoves(m.prog, k, l.value); }
  }

  // Every state the rewritten lines come to, the original lines come to as well, after
  // at least as many steps.
  lemma {:induction false} PassTracks(p: seq<Instr>, q: seq<Instr>, n: nat, m: Machine, w: Machine, l: Option<Label>, s: Cpu,
                                      steps: nat) returns (k: nat)
    requires Rewrites(p, q, n) && ScratchA0(p) && Oblivious(m) && SameWorld(m, w) && m.prog == p && w.prog == q
    ensures k >= steps
    ensures Meets(Run(s.(pc := Entry(p, l)), m, k), Run(s.(pc := Entry(q, l)), w, steps), m, w)
    decreases n
  {
    hide Run, Rewritten, RuleAt, ScratchBy, Oblivious, Rel, AtExit, Entry, SameRest;
    if n == 0 {
      k := steps;
      SelfMeets(Run(s.(pc := Entry(p, l)), m, k), m, w);
    } else {
      var i: nat :| RuleAt(p, i).Some? && Rewrites(Rewritten(p, i), q, n - 1);
      var dead :| ScratchBy(p, dead);
      var r := RuleAt(p, i).value;
      RewriteKeepsScratch(p, i, dead);
      var mid := m.(prog := Rewritten(p, i));
      SameOblivious(m, mid);
      var j := PassTracks(mid.prog, q, n - 1, mid, w, l, s, steps);
      EntryRel(s, m, mid, i, dead, r, l);
      k := TrackRun(s.(pc := Entry(p, l)), s.(pc := Entry(mid.prog, l)), m, mid, i, dead, r, j);
      RelMeets(Run(s.(pc := Entry(p, l)), m, k), Run(s.(pc := Entry(mid.prog, l)), mid, j), m, mid, i, dead, r);
      MeetsTrans(Run(s.(pc := Entry(p, l)), m, k), Run(s.(pc := Entry(mid.prog, l)), mid, j),
                 Run(s.(pc := Entry(q, l)), w, steps), m, mid, w);
    }
  }

  lemma SelfMeets(s: Cpu, m: Machine, w: Machine)
    requires m.prog == w.prog && SameWorld(m, w)
    ensures Meets(s, s, m, w) && m == w
  {}

  lemma SameOblivious(m: Machine, w: Machine)
    requires Oblivious(m) && w == m.(prog := w.prog)
    ensures Oblivious(w)
  {}

  lemma MeetsTrans(s: Cpu, t: Cpu, u: Cpu, m: Machine, v: Machine, w: Machine)
    requires Meets(s, t, m, v) && Meets(t, u, v, w)
    ensures Meets(s, u, m, w)
  {}

  lemma {:induction false} ExitStays(s: Cpu, m: Machine, n: nat)
    requires AtExit(s, m)
    ensures Run(s, m, n) == s
  {
    if n > 0 { ExitStays(s, m, n - 1); }
  }

  ghost predicate Leaves(s: Cpu, m: Machine) { exists i: nat :: AtExit(Run(s, m, i), m) }

  // The result of the pass leaves the code exactly when the original does, no later,
  // with the same registers but A0, the same memory and the same call trace.
  lemma PeepholeKeepsMeaning(p: seq<Instr>, q: seq<Instr>, n: nat, m: Machine, w: Machine, l: Option<Label>, s: Cpu)
    requires Rewrites(p, q, n) && ScratchA0(p) && Oblivious(m) && SameWorld(m, w) && m.prog == p && w.prog == q
    ensures forall i: nat :: AtExit(Run(s.(pc := Entry(p, l)), m, i), m) ==>
      AtExit(Run(s.(pc := Entry(q, l)), w, i), w)
      && SameRest(Run(s.(pc := Entry(p, l)), m, i), Run(s.(pc := Entry(q, l)), w, i))
    ensures Leaves(s.(pc := Entry(q, l)), w) <==> Leaves(s.(pc := Entry(p, l)), m)
  {
    hide Run, Rewrites, ScratchA0, Oblivious, AtExit, Entry, SameRest;
    var s0, u0 := s.(pc := Entry(p, l)), s.(pc := Entry(q, l));
    forall i: nat
      ensures AtExit(Run(s0, m, i), m) ==> AtExit(Run(u0, w, i), w) && SameRest(Run(s0, m, i), Run(u0, w, i))
    {
      var k := PassTracks(p, q, n, m, w, l, s, i);
      if AtExit(Run(s0, m, i), m) {
        ExitStays(Run(s0, m, i), m, k - i);
        RunAdd(s0, m, i, k - i);
      }
    }
    if Leaves(u0, w) {
      var i: nat :| AtExit(Run(u0, w, i), w);
      var k := PassTracks(p, q, n, m, w, l, s, i);
      assert AtExit(Run(s0, m, k), m);
    }
    if Leaves(s0, m) {
      var i: nat :| AtExit(Run(s0, m, i), m);
      assert AtExit(Run(u0, w, i), w);
    }
  }

  // The condition is needed: here A0 is read two lines after the load, R3 applies, and
  // D0 ends as x's address or as whatever A0 held before.
  lemma ScratchNeeded(m: Machine, w: Machine, s: Cpu, x: string)
    requires m.prog == [LeaTo(Abs(x), 0), LOAD_A0, Tst(0), A0_TO_D0, Exit]
    requires w == m.(prog := Rewritten(m.prog, 0)) && s.pc == 0
    ensures RuleAt(m.prog, 0) == Some(R3) && !ScratchA0(m.prog)
    ensures AtExit(Run(s, m, 4), m) && Run(s, m, 4).d[0] == m.env.sym(x)
    ensures AtExit(Run(s, w, 3), w) && Run(s, w, 3).d[0] == s.a[0]
  {
    hide RuleAt, Run, Rewritten;
    R3Applies(m.prog, x);
    RewrittenLines(m.prog, 0);
    RuleMeans(m.prog, 0);
    assert w.prog == [Move(L, Abs(x), Dn(0)), Tst(0), A0_TO_D0, Exit];
    AddressThrough(m, s, x);
    AddressLost(w, s, x);
    forall dead ensures !ScratchBy(m.prog, dead) { ReadTooLate(m.prog, x, dead); }
  }

  lemma AddressThrough(m: Machine, s: Cpu, x: string)
    requires m.prog == [LeaTo(Abs(x), 0), LOAD_A0, Tst(0), A0_TO_D0, Exit] && s.pc == 0
    ensures AtExit(Run(s, m, 4), m) && Run(s, m, 4).d[0] == m.env.sym(x)
  {
    hide Step, Run;
    LeaStep(s, m, Abs(x));
    var m1 := Step(s, m);
    LoadA0Step(m1, m);
    TestStep(Step(m1, m), m);
    MoveA0D0(Step(Step(m1, m), m), m);
    TwoSteps(s, m);
    TwoSteps(Step(m1, m), m);
    RunAdd(s, m, 2, 2);
  }

  lemma AddressLost(w: Machine, s: Cpu, x: string)
    requires w.prog == [Move(L, Abs(x), Dn(0)), Tst(0), A0_TO_D0, Exit] && s.pc == 0
    ensures AtExit(Run(s, w, 3), w) && Run(s, w, 3).d[0] == s.a[0]
  {
    hide Step, Run;
    DirectStep(s, w, Abs(x));
    var w1 := Step(s, w);
    TestStep(w1, w);
    MoveA0D0(Step(w1, w), w);
    TwoSteps(s, w);
    TwoSteps(w1, w);
    RunAdd(s, w, 1, 2);
  }

  lemma ReadTooLate(p: seq<Instr>, x: string, dead: seq<bool>)
    requires p == [LeaTo(Abs(x), 0), LOAD_A0, Tst(0), A0_TO_D0, Exit]
    ensures !(Closed(p, dead) && Guarded(p, dead))
  {
    assert p[1] == LOAD_A0 && p[2] == Tst(0);
    assert DeadHere(p, dead, 2) ==> DeadAt(dead, 3);
    assert !DeadHere(p, dead, 3);
  }

  lemma R3Applies(p: seq<Instr>, x: string)
    requires p == [LeaTo(Abs(x), 0), LOAD_A0, Tst(0), A0_TO_D0, Exit]
    ensures RuleAt(p, 0) == Some(R3)
  {}

  lemma TestStep(s: Cpu, m: Machine)
    requires s.pc < |m.prog| && m.prog[s.pc] == Tst(0)
    ensures Step(s, m) == s.(pc := s.pc + 1, f := ValueFlags(s.d[0]))
  {}
}
