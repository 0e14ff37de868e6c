// The machine runs coloured code as private runs.
module ColoredCode {
  import opened Words
  import opened Memory
  import opened Ir
  import opened M68k
  import opened Simulate
  import opened SelectProof
  import opened Items
  import opened Optimize
  import opened Lower
  import opened LowerProof
  import opened Order
  import opened Function
  import opened Compile
  import opened Peephole
  import opened PeepholeProof
  import opened Scratch
  import opened Pipeline
  import opened Liveness
  import opened RegAlloc
  import opened Sharing
  import opened Promotion
  import opened PromotedRuns
  import opened Coloring

  // The machine came to the epilogue with the value, memory and calls of a private run.
  ghost predicate EpilogueAs(cpu: Cpu, r: Cpu, m: Machine, ret: Label, v: Val, o: State) {
    && r.pc + 2 == |m.prog| && m.prog[r.pc] == Lab(ret) && m.prog[r.pc + 1] == Exit
    && AgreeOutside(r.mem, o.mem, m.env.lo, m.env.top) && r.trace == o.trace && Sp(r) == Sp(cpu)
    && (v.W? ==> r.d[0] == v.w)
  }

  // A body built, in registers that keep apart what meets: whenever its run with private
  // variables returns, so does the machine, with the same value, memory and calls.
  lemma ColoredCodeOk(s: Stmt, u: nat, ret: Label, after: seq<Item>, blocks: seq<Block>, u2: nat, m: Machine, cpu: Cpu,
                      cands: seq<Cand>, reg: seq<Reg>, t: State, o: State, n: nat)
    returns (k: nat)
    requires Compilable(s, u, ret, m.env.ra, Sp(cpu) - m.env.lo) && LowerStmt(s, u).uid <= u2
    requires Built(LowerStmt(s, u).items, after, blocks)
    requires GoodEnv(m.env) && FollowsTiles(m.env) && m.prog == BodyCode(after, ret, m.env.ra, u2)
    requires cpu.pc == 0 && StandsFor(cpu, t, m.env)
    requires Tied(m.env, cands, reg) && AllTempsApart(after, reg)
    requires RunsApart(after, blocks, cands, m.env, reg)
    requires Entered(t, o, blocks, Performed(after, blocks, cands, m.env), cands, reg)
    requires ItemRun(AtItem(0, o), after, Own(m.env), n).Left?
    ensures var w := ItemRun(AtItem(0, o), after, Own(m.env), n); EpilogueAs(cpu, Run(cpu, m, k), m, ret, w.v, w.st)
  {
    hide Step, Run, ItemStep, ItemRun, LowerStmt, Compilable, Built, BodyCode, LoadedBody, Own;
    hide RunsApart, Entered, Tied, AllTempsApart, FlowsIn;
    CompiledLoads(s, u, ret, after, blocks, u2, m, Sp(cpu) - m.env.lo);
    BuiltFlows(LowerStmt(s, u).items, after, blocks);
    PromotionOk(after, blocks, m.env, cands, reg, t, o, n);
    assert Offset(after, 0, ret, m.env.ra, u2) == 0;
    k := BodyRunOk(after, ret, u2, m, AtItem(0, t), cpu, Sp(cpu), n);
    EpilogueAt(after, ret, m.env.ra, u2);
  }

  // What leaves the code with the value, memory and calls of a private run.
  ghost predicate LeavesAs(cpu: Cpu, r: Cpu, w: Machine, v: Val, o: State) {
    && AtExit(r, w) && AgreeOutside(r.mem, o.mem, w.env.lo, w.env.top) && r.trace == o.trace && Sp(r) == Sp(cpu)
    && (v.W? ==> r.d[0] == v.w)
  }

  // And so do the lines that the peephole leaves of that code.
  lemma ColoredLinesOk(s: Stmt, u: nat, ret: Label, after: seq<Item>, blocks: seq<Block>, u2: nat, lines: seq<Instr>,
                       passes: nat, w: Machine, cpu: Cpu, cands: seq<Cand>, reg: seq<Reg>, t: State, o: State, n: nat)
    returns (k: nat)
    requires Compilable(s, u, ret, w.env.ra, Sp(cpu) - w.env.lo) && LowerStmt(s, u).uid <= u2
    requires Built(LowerStmt(s, u).items, after, blocks)
    requires Rewrites(BodyCode(after, ret, w.env.ra, u2), lines, passes)
    requires GoodEnv(w.env) && FollowsTiles(w.env) && w.prog == lines && Oblivious(w)
    requires cpu.pc == 0 && StandsFor(cpu, t, w.env)
    requires Tied(w.env, cands, reg) && AllTempsApart(after, reg)
    requires RunsApart(after, blocks, cands, w.env, reg)
    requires Entered(t, o, blocks, Performed(after, blocks, cands, w.env), cands, reg)
    requires ItemRun(AtItem(0, o), after, Own(w.env), n).Left?
    ensures var r := ItemRun(AtItem(0, o), after, Own(w.env), n); LeavesAs(cpu, Run(cpu, w, k), w, r.v, r.st)
  {
    hide M68k.Step, Run, ItemRun, LowerStmt, Compilable, Built, BodyCode, Rewrites, Oblivious, ScratchA0, StandsFor, AtExit,
         RunsApart, Entered, Tied, AllTempsApart, SameRest, EpilogueAs, LeavesAs, Own;
    var p := BodyCode(after, ret, w.env.ra, u2);
    var m := w.(prog := p);
    SameOblivious(w, m);
    var i := ColoredCodeOk(s, u, ret, after, blocks, u2, m, cpu, cands, reg, t, o, n);
    PipelineScratch(s, u, ret, after, blocks, w.env.ra, Sp(cpu) - w.env.lo, u2);
    var r := ItemRun(AtItem(0, o), after, Own(w.env), n);
    EpilogueLeaves(cpu, Run(cpu, m, i), m, ret, r.v, r.st);
    RunAdd(cpu, m, i, 1);
    PeepholeKeepsMeaning(p, lines, passes, m, w, None, cpu);
    k := i + 1;
    assert cpu.(pc := Entry(p, None)) == cpu && cpu.(pc := Entry(lines, None)) == cpu;
    RestLeaves(cpu, Run(cpu, m, k), Run(cpu, w, k), m, w, r.v, r.st);
  }

  lemma EpilogueLeaves(cpu: Cpu, r: Cpu, m: Machine, ret: Label, v: Val, o: State)
    requires EpilogueAs(cpu, r, m, ret, v, o)
    ensures LeavesAs(cpu, Run(r, m, 1), m, v, o)
  {
    TwoSteps(r, m);
  }

  lemma RestLeaves(cpu: Cpu, r: Cpu, q: Cpu, m: Machine, w: Machine, v: Val, o: State)
    requires LeavesAs(cpu, r, m, v, o) && SameRest(r, q) && AtExit(q, w) && w.env == m.env
    ensures LeavesAs(cpu, q, w, v, o)
  {}

  // The whole back end. Whenever a body finishes by its big-step meaning with every promoted
  // variable private to it, the machine running the lines left of it, lowered, optimized, in
  // shared registers, emitted and peepholed, leaves them with the same value, memory and calls.
  lemma PrivateOk(s: Stmt, u: nat, ret: Label, after: seq<Item>, blocks: seq<Block>, u2: nat, lines: seq<Instr>,
                  passes: nat, w: Machine, env: Env, cpu: Cpu, cands: seq<Cand>, reg: seq<Reg>, t: State, o: State,
                  fuel: nat)
    returns (k: nat)
    requires Compilable(s, u, ret, env.ra, Sp(cpu) - env.lo) && LowerStmt(s, u).uid <= u2
    requires Built(LowerStmt(s, u).items, after, blocks)
    requires Rewrites(BodyCode(after, ret, env.ra, u2), lines, passes)
    requires GoodEnv(w.env) && SameButOrder(env, w.env) && w.prog == lines && Oblivious(w)
    requires cpu.pc == 0 && StandsFor(cpu, t, env)
    requires Tied(env, cands, reg) && AllTempsApart(after, reg)
    requires RunsApart(after, blocks, cands, w.env, reg)
    requires Entered(t, o, blocks, Performed(after, blocks, cands, w.env), cands, reg)
    requires Finish(Exec(s, o, Own(env), fuel)) != Stuck
    requires forall j: nat :: RunUndisturbed(AtItem(0, o), after, Own(env), j)
    ensures var c := Finish(Exec(s, o, Own(env), fuel)); c.Left? && LeavesAs(cpu, Run(cpu, w, k), w, c.v, c.st)
  {
    hide Run, ItemRun, Exec, LowerStmt, Compilable, Built, BodyCode, Rewrites, Oblivious, RunsApart, Entered,
         AllTempsApart, LeavesAs, RunUndisturbed;
    var n := BuiltRuns(s, u, ret, after, blocks, Own(env), Own(w.env), Sp(cpu) - env.lo, o, fuel);
    k := ColoredLinesOk(s, u, ret, after, blocks, u2, lines, passes, w, cpu, cands, reg, t, o, n);
  }
}
