// From a structured body to the lines that are left after the peephole.
module Pipeline {
  import opened Words
  import opened Memory
  import opened Ir
  import opened M68k
  import opened Simulate
  import opened SelectProof
  import opened Items
  import opened Lower
  import opened LowerProof
  import opened Optimize
  import opened OptimizeProof
  import opened Function
  import opened Order
  import opened Compile
  import opened Peephole
  import opened PeepholeProof
  import opened Scratch

  lemma KindsApart(u: nat)
    ensures !InUse(Lbl("L_else_", u)) && !InUse(Lbl("L_end_", u)) && !InUse(Lbl("L_begin_", u))
  {
    assert |"L_begin_"| == 8 && |"L_memzero_"| == 10;
  }

  lemma ApartJoin(x: seq<Item>, y: seq<Item>)
    requires ItemLabelsApart(x) && ItemLabelsApart(y)
    ensures ItemLabelsApart(x + y)
  {}

  // No lowered item uses the clearing loop's label.
  lemma {:induction false} LoweredApart(s: Stmt, u: nat, labels: set<Label>)
    requires FreshNames(LoopLabels(s)) && Scoped(s, labels) && forall l | l in labels :: !InUse(l)
    ensures ItemLabelsApart(LowerStmt(s, u).items)
    decreases s, 1
  {
    hide ItemLabelsApart, FreshNames, InUse;
    match s {
      case Block(body) => SeqApart(body, u, labels);
      case If(_, _, _) => IfApart(s, u, labels);
      case For(_, _, _, _, _, _) => ForApart(s, u, labels);
      case Do(_, _, _, _) => DoApart(s, u, labels);
      case NullStmt => LeafApart(s, u, labels);
      case ExprStmt(_) => LeafApart(s, u, labels);
      case Return(_) => LeafApart(s, u, labels);
      case Goto(_) => LeafApart(s, u, labels);
    }
  }

  lemma LeafApart(s: Stmt, u: nat, labels: set<Label>)
    requires s.NullStmt? || s.ExprStmt? || s.Return? || s.Goto?
    requires Scoped(s, labels) && forall l | l in labels :: !InUse(l)
    ensures ItemLabelsApart(LowerStmt(s, u).items)
  {}

  lemma SeqApart(body: seq<Stmt>, u: nat, labels: set<Label>)
    requires FreshNames(SeqLabels(body)) && (forall x | x in body :: Scoped(x, labels)) && forall l | l in labels :: !InUse(l)
    ensures ItemLabelsApart(LowerSeq(body, u).items)
    decreases body, 0
  {
    hide FreshNames, InUse;
    if body != [] {
      FreshParts(LoopLabels(body[0]), SeqLabels(body[1..]));
      LoweredApart(body[0], u, labels);
      SeqApart(body[1..], LowerStmt(body[0], u).uid, labels);
      ApartJoin(LowerStmt(body[0], u).items, LowerSeq(body[1..], LowerStmt(body[0], u).uid).items);
    }
  }

  lemma IfApart(s: Stmt, u: nat, labels: set<Label>)
    requires s.If? && FreshNames(LoopLabels(s)) && Scoped(s, labels) && forall l | l in labels :: !InUse(l)
    ensures ItemLabelsApart(LowerStmt(s, u).items)
    decreases s, 0
  {
    hide FreshNames, InUse;
    FreshParts(LoopLabels(s.thn), if s.els.Some? then LoopLabels(s.els.value) else []);
    LoweredApart(s.thn, u + 1, labels);
    if s.els.Some? { LoweredApart(s.els.value, LowerStmt(s.thn, u + 1).uid, labels); }
    KindsApart(u);
  }

  lemma LoopNames(s: Stmt)
    requires (s.For? || s.Do?) && FreshNames(LoopLabels(s))
    ensures !InUse(s.brk) && !InUse(s.cont) && FreshNames(LoopLabels(s.loop))
    ensures s.For? && s.init.Some? ==> FreshNames(LoopLabels(s.init.value))
  {
    hide FreshNames;
    var x := if s.For? && s.init.Some? then LoopLabels(s.init.value) else [];
    assert LoopLabels(s) == x + LoopLabels(s.loop) + [s.cont, s.brk];
    FreshParts(x + LoopLabels(s.loop), [s.cont, s.brk]);
    FreshParts(x, LoopLabels(s.loop));
    TwoNames(s.cont, s.brk);
  }

  lemma ForApart(s: Stmt, u: nat, labels: set<Label>)
    requires s.For? && FreshNames(LoopLabels(s)) && Scoped(s, labels) && forall l | l in labels :: !InUse(l)
    ensures ItemLabelsApart(LowerStmt(s, u).items)
    decreases s, 0
  {
    hide FreshNames, InUse;
    LoopNames(s);
    KindsApart(u);
    var x := if s.init.Some? then LowerStmt(s.init.value, u + 1) else Lowered([], u + 1);
    if s.init.Some? { LoweredApart(s.init.value, u + 1, labels); }
    LoweredApart(s.loop, x.uid, labels + {s.brk, s.cont});
    assert ItemLabelsApart(x.items);
    assert ItemLabelsApart(ForHead(s.test, Lbl("L_begin_", u), s.brk));
    assert ItemLabelsApart(ForTail(s.inc, Lbl("L_begin_", u), s.brk, s.cont));
  }

  lemma DoApart(s: Stmt, u: nat, labels: set<Label>)
    requires s.Do? && FreshNames(LoopLabels(s)) && Scoped(s, labels) && forall l | l in labels :: !InUse(l)
    ensures ItemLabelsApart(LowerStmt(s, u).items)
    decreases s, 0
  {
    hide FreshNames, InUse;
    LoopNames(s);
    KindsApart(u);
    LoweredApart(s.loop, u + 1, labels + {s.brk, s.cont});
  }

  lemma OptimizedApart(before: seq<Item>, after: seq<Item>, folded: seq<Item>, cut: seq<Item>, live: seq<Item>,
                       blocks: seq<Block>)
    requires Optimized(before, after, folded, cut, live, blocks) && ItemLabelsApart(before)
    ensures ItemLabelsApart(after)
  {
    hide Optimized, InUse;
    SameLength(before, after, folded, cut, live, blocks);
    forall i | i in after
      ensures match i
        case ILabel(l) => !InUse(l)
        case IJmp(l) => !InUse(l)
        case ICbr(_, l, _) => !InUse(l)
        case IEval(_) | IRet(_) | INop => true
    {
      var k :| 0 <= k < |after| && after[k] == i;
      OptimizedItem(before, after, folded, cut, live, blocks, k);
      assert before[k] in before;
    }
  }

  lemma BuiltApart(before: seq<Item>, after: seq<Item>, blocks: seq<Block>)
    requires Built(before, after, blocks) && ItemLabelsApart(before)
    ensures ItemLabelsApart(after)
  {
    hide Optimized, ItemLabelsApart, IsCfg;
    if after != before || !IsCfg(before, blocks) {
      var folded, cut, live :| Optimized(before, after, folded, cut, live, blocks);
      OptimizedApart(before, after, folded, cut, live, blocks);
    }
  }

  // Lowering, optimization, emission and the peephole together. Whenever the body
  // finishes by its big-step meaning, the machine running the remaining lines leaves
  // the code with the returned value in D0, the same memory, promoted registers and
  // call trace, and SP where it was.
  lemma PipelineOk(s: Stmt, u: nat, ret: Label, after: seq<Item>, blocks: seq<Block>, u2: nat, lines: seq<Instr>,
                   passes: nat, w: Machine, env: Env, cpu: Cpu, t: State, fuel: nat) returns (k: nat)
    requires Compilable(s, u, ret, env.ra, Sp(cpu) - env.lo) && LowerStmt(s, u).uid <= u2
    requires Built(LowerStmt(s, u).items, after, blocks)
    requires Rewrites(BodyCode(after, ret, env.ra, u2), lines, passes)
    requires GoodEnv(w.env) && SameButOrder(env, w.env) && w.prog == lines && Oblivious(w)
    requires cpu.pc == 0 && StandsFor(cpu, t, env)
    requires Finish(Exec(s, t, env, fuel)) != Stuck
    requires forall j: nat :: RunUndisturbed(AtItem(0, t), after, env, j)
    ensures var r := Run(cpu, w, k);
      AtExit(r, w) && Delivers(r, Finish(Exec(s, t, env, fuel)), env, Sp(cpu))
  {
    hide Step, Run, Exec, LowerStmt, Compilable, Built, BodyCode, Rewrites, Oblivious, ScratchA0, RunUndisturbed,
         ReachesEpilogue, AtExit, StandsFor, Finish, SameRest, Delivers;
    var p := BodyCode(after, ret, env.ra, u2);
    var m := w.(prog := p);
    SameOblivious(w, m);
    var i := CompileOk(s, u, ret, after, blocks, u2, m, env, cpu, t, fuel);
    PipelineScratch(s, u, ret, after, blocks, env.ra, Sp(cpu) - env.lo, u2);
    var c := Finish(Exec(s, t, env, fuel));
    EpilogueExits(cpu, Run(cpu, m, i), m, ret, c, env);
    RunAdd(cpu, m, i, 1);
    PeepholeKeepsMeaning(p, lines, passes, m, w, None, cpu);
    k := i + 1;
    assert cpu.(pc := Entry(p, None)) == cpu && cpu.(pc := Entry(lines, None)) == cpu;
    RestDelivers(Run(cpu, m, k), Run(cpu, w, k), c, env, Sp(cpu));
  }

  ghost predicate Delivers(r: Cpu, c: Conf, env: Env, sp: int) {
    c.Left? && StandsFor(r, c.st, env) && Sp(r) == sp && (c.v.W? ==> r.d[0] == c.v.w)
  }

  lemma EpilogueExits(cpu: Cpu, r: Cpu, m: Machine, ret: Label, c: Conf, env: Env)
    requires ReachesEpilogue(cpu, r, m, ret, c, env)
    ensures AtExit(Run(r, m, 1), m) && Delivers(Run(r, m, 1), c, env, Sp(cpu))
  {
    TwoSteps(r, m);
  }

  lemma RestDelivers(r: Cpu, q: Cpu, c: Conf, env: Env, sp: int)
    requires Delivers(r, c, env, sp) && SameRest(r, q)
    ensures Delivers(q, c, env, sp)
  {}

  lemma PipelineScratch(s: Stmt, u: nat, ret: Label, after: seq<Item>, blocks: seq<Block>, ra: map<nat, Reg>, room: int, u2: nat)
    requires Compilable(s, u, ret, ra, room) && LowerStmt(s, u).uid <= u2
    requires Built(LowerStmt(s, u).items, after, blocks)
    ensures ScratchA0(BodyCode(after, ret, ra, u2))
  {
    hide LowerStmt, Built, BodyCode, ScratchA0, ItemReady, AllSafe, ItemLabelsApart, Scoped;
    var before := LowerStmt(s, u).items;
    LoweredApart(s, u, {});
    BuiltApart(before, after, blocks);
    LoweredOnce(s, u);
    BuiltLabels(before, after, blocks);
    BodyScratch(after, ret, ra, u2);
  }
}
