// One function through the back end.
module Build {
  import opened Words
  import opened Memory
  import opened Ir
  import opened M68k
  import opened Select
  import opened Emitter
  import opened Items
  import opened Optimize
  import opened Lower
  import opened Function
  import opened Peephole
  import opened Liveness
  import opened RegAlloc
  import opened Sharing
  import opened SelectProof
  import opened Simulate
  import opened PeepholeProof
  import opened LowerProof
  import opened Order
  import opened Compile
  import opened Promotion
  import opened PromotedRuns
  import opened Coloring
  import opened ColoredCode

  // The registers of the variables, as the allocator leaves them with each.
  function RegsOf(cands: seq<Cand>, reg: seq<Reg>): map<nat, Reg>
    requires |reg| == |cands|
  {
    if cands == [] then map[] else RegsOf(cands[1..], reg[1..])[cands[0].v := reg[0]]
  }

  ghost predicate Distinct(cands: seq<Cand>) { forall i, j | 0 <= i < j < |cands| :: cands[i].v != cands[j].v }

  lemma {:induction false} RegsAre(cands: seq<Cand>, reg: seq<Reg>, v: nat)
    requires |reg| == |cands|
    ensures RegOf(RegsOf(cands, reg), v) == var i := CandIndex(cands, v); if i.Some? then reg[i.value] else 0
  {
    if cands != [] { RegsAre(cands[1..], reg[1..], v); }
  }

  // They are what the theorems about coloured code ask for.
  lemma RegsTied(env: Env, cands: seq<Cand>, reg: seq<Reg>)
    requires Distinct(cands) && OnlyColorable(cands, reg) && !env.private && env.ra == RegsOf(cands, reg)
    ensures Tied(env, cands, reg)
  {
    forall v: nat ensures RegOf(env.ra, v) == var c := CandOfVar(cands, v); if c.Some? then reg[c.value] else 0 {
      RegsAre(cands, reg, v);
    }
  }

  // The items and blocks of ir_build_body: lowered, cut into blocks, optimized at -O3.
  method BuildItems(s: Stmt, u: nat, level: nat) returns (items: seq<Item>, blocks: seq<Block>, uid: nat)
    ensures uid == LowerStmt(s, u).uid
    ensures Built(LowerStmt(s, u).items, items, blocks)
    ensures level < 3 ==> items == LowerStmt(s, u).items
    ensures level >= 3 ==> exists folded, cut, live :: Optimized(LowerStmt(s, u).items, items, folded, cut, live, blocks)
  {
    hide IsCfg, Optimized, LowerStmt;
    var builder := new Builder(u);
    builder.Stmt(s);
    var fn := new IrFunction();
    fn.items := builder.items;
    assert fn.items == LowerStmt(s, u).items;
    fn.BuildCfg();
    if level >= 3 {
      ghost var folded, cut, live := fn.IrOptimize();
      assert Optimized(LowerStmt(s, u).items, fn.items, folded, cut, live, fn.blocks);
    }
    items, blocks, uid := fn.items, fn.blocks, builder.uid;
  }

  // Emission of the built items, then the peephole.
  method EmitLines(items: seq<Item>, ret: Label, ra: map<nat, Reg>, uid: nat)
    returns (lines: seq<Instr>, ghost passes: nat)
    ensures Rewrites(BodyCode(items, ret, ra, uid), lines, passes) && Settled(lines)
  {
    hide Rewrites, Settled, PrefixCode;
    var gen := new Codegen(ra);
    gen.uid := uid;
    EmitItems(gen, items, ret);
    gen.Emit(Lab(ret));
    gen.Emit(Exit);
    assert gen.outbuf == BodyCode(items, ret, ra, uid);
    var code := gen.outbuf;
    var data := new Line[|code|](i requires 0 <= i < |code| => Some(code[i]));
    AllLines(code, data[..]);
    passes := Peephole.Peephole(data);
    lines := Lines(data[..]);
  }

  lemma {:induction false} AllLines(lines: seq<Instr>, data: seq<Line>)
    requires |data| == |lines| && forall i | 0 <= i < |lines| :: data[i] == Some(lines[i])
    ensures Lines(data) == lines
  {
    if lines != [] {
      AllLines(lines[1..], data[1..]);
      assert lines == [lines[0]] + lines[1..];
    }
  }

  // Every variable has its own register, or the listed conflicts do not share one.
  ghost predicate Coloured(items: seq<Item>, blocks: seq<Block>, cands: seq<Cand>, reg: seq<Reg>) {
    AllApart(reg)
    || exists ins, outs :: var evs := ListedIn(items, blocks, cands);
         Solved(blocks, evs, ins, outs) && NoClash(evs, ins, outs, reg)
  }

  // Coloured by liveness: nothing that conflicts shares a register, and each variable that may
  // leave memory has the lowest register that one ahead of it does not deny it.
  ghost predicate ByLiveness(items: seq<Item>, blocks: seq<Block>, cands: seq<Cand>, reg: seq<Reg>)
    requires |reg| == |cands|
  {
    exists ins, outs :: var evs := ListedIn(items, blocks, cands);
      |evs| == |ins| == |outs| && Solved(blocks, evs, ins, outs) && NoClash(evs, ins, outs, reg)
      && forall c: nat, r: Reg | c < |cands| && cands[c].loopUses >= 1 && !cands[c].addrTaken
                                 && r != 0 && (reg[c] == 0 || r < reg[c]) :: DeniedAhead(cands, reg, c, r, evs, ins, outs)
  }

  // ir_build_body and ir_emit_built, which the compiler calls from -O2 on, with the peephole
  // behind them.
  method BuildBody(s: Stmt, u: nat, ret: Label, cands: seq<Cand>, level: nat, regalloc: bool, userJump: bool)
    returns (hi: nat, items: seq<Item>, blocks: seq<Block>, reg: seq<Reg>, uid: nat, lines: seq<Instr>, ghost passes: nat)
    requires level >= 2
    ensures Built(LowerStmt(s, u).items, items, blocks) && uid == LowerStmt(s, u).uid
    ensures level < 3 ==> items == LowerStmt(s, u).items
    ensures level >= 3 ==> exists folded, cut, live :: Optimized(LowerStmt(s, u).items, items, folded, cut, live, blocks)
    ensures |reg| == |cands| && forall c | 0 <= c < |cands| && reg[c] != 0 :: cands[c].loopUses >= 1 && !cands[c].addrTaken
    ensures !regalloc ==> hi == 0 && forall c | 0 <= c < |cands| :: reg[c] == 0
    ensures forall c | 0 <= c < |cands| && reg[c] <= 7 :: reg[c] <= hi
    ensures hi == 0 || exists c :: 0 <= c < |cands| && reg[c] == hi && 2 <= reg[c] <= 7
    ensures OnlyColorable(cands, reg) && Coloured(items, blocks, cands, reg)
    ensures regalloc && level >= 3 && !userJump ==> ByLiveness(items, blocks, cands, reg)
    ensures regalloc && (level < 3 || userJump) ==>
      forall c: nat, r: Reg | c < |cands| && cands[c].loopUses >= 1 && !cands[c].addrTaken
                              && r != 0 && (reg[c] == 0 || r < reg[c]) :: TakenAhead(cands, reg, c, r)
    ensures !(regalloc && level >= 3 && !userJump) ==> AllApart(reg)
    ensures Rewrites(BodyCode(items, ret, RegsOf(cands, reg), uid), lines, passes) && Settled(lines)
  {
    hide Solved, NoClash, AllApart, Built, Optimized, Rewrites, Settled, LowerStmt, BodyCode, TakenAhead, DeniedAhead;
    items, blocks, uid := BuildItems(s, u, level);
    BuiltBlocks(LowerStmt(s, u).items, items, blocks);
    var ra := new RegAllocator(items, blocks, cands);
    ghost var ins, outs;
    hi, ins, outs := ColorRegs(ra, regalloc, level >= 3 && !userJump);
    ListedAre(ra);
    reg := ra.reg[..];
    assert forall c | 0 <= c < |cands| :: ra.reg[c] == reg[c];
    lines, passes := EmitLines(items, ret, RegsOf(cands, reg), uid);
  }

  lemma ColouredApart(items: seq<Item>, blocks: seq<Block>, cands: seq<Cand>, env: Env, reg: seq<Reg>)
    requires GoodBlocks(items, blocks) && Coloured(items, blocks, cands, reg)
    requires AllApart(reg) || AllListedOk(items, cands, env)
    ensures RunsApart(items, blocks, cands, env, reg)
  {
    hide LiveIn, NoClash, AllApart, AllListedOk, RunsApart;
    if AllApart(reg) {
      OwnApart(items, blocks, cands, env, reg);
    } else {
      var ins, outs :| var evs := ListedIn(items, blocks, cands);
        Solved(blocks, evs, ins, outs) && NoClash(evs, ins, outs, reg);
      ListedApart(items, blocks, ins, outs, cands, env, reg);
    }
  }

  // And what it leaves means what the statement means with private variables, where the tree
  // tests on operand order hold: no left operand changes a folded variable, and, if variables
  // share registers, no right operand a candidate that the left one uses.
  lemma BodyMeans(s: Stmt, u: nat, ret: Label, cands: seq<Cand>, items: seq<Item>, blocks: seq<Block>, reg: seq<Reg>,
                  uid: nat, lines: seq<Instr>, passes: nat, w: Machine, env: Env, cpu: Cpu, t: State, o: State, fuel: nat)
    returns (k: nat)
    requires Built(LowerStmt(s, u).items, items, blocks) && uid == LowerStmt(s, u).uid
    requires OnlyColorable(cands, reg) && Coloured(items, blocks, cands, reg)
    requires Rewrites(BodyCode(items, ret, RegsOf(cands, reg), uid), lines, passes)
    requires Distinct(cands) && env.ra == RegsOf(cands, reg) && Compilable(s, u, ret, env.ra, Sp(cpu) - env.lo)
    requires GoodEnv(w.env) && SameButOrder(env, w.env) && w.prog == lines && Oblivious(w)
    requires AllTempsApart(items, reg) && (AllApart(reg) || AllListedOk(items, cands, w.env))
    requires forall i | 0 <= i < |items| :: ItemLeftsClear(items[i], env.ra)
    requires cpu.pc == 0 && StandsFor(cpu, t, env)
    requires Entered(t, o, blocks, Performed(items, blocks, cands, w.env), cands, reg)
    requires Finish(Exec(s, o, Own(env), fuel)) != Stuck
    ensures var c := Finish(Exec(s, o, Own(env), fuel)); c.Left? && LeavesAs(cpu, Run(cpu, w, k), w, c.v, c.st)
  {
    hide Solved, NoClash, AllApart, Built, Rewrites, LowerStmt, BodyCode, Compilable, Oblivious, AllTempsApart, AllListedOk,
         ItemLeftsClear, Entered, RunUndisturbed, Exec, Run, LeavesAs, RunsApart, StandsFor, RegsOf, Coloured;
    RegsTied(env, cands, reg);
    BuiltBlocks(LowerStmt(s, u).items, items, blocks);
    ColouredApart(items, blocks, cands, w.env, reg);
    forall j: nat ensures RunUndisturbed(AtItem(0, o), items, Own(env), j) { ClearLeftsRun(AtItem(0, o), items, Own(env), j); }
    k := PrivateOk(s, u, ret, items, blocks, uid, lines, passes, w, env, cpu, cands, reg, t, o, fuel);
  }
}
