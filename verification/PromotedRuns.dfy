// Coloured runs are private-variable runs.
module PromotedRuns {
  import opened Words
  import opened Memory
  import opened Ir
  import opened M68k
  import opened Items
  import opened Optimize
  import opened OptimizeProof
  import opened Liveness
  import opened RegAlloc
  import opened Sharing
  import opened ExactSharing
  import opened EventOrder
  import opened Promotion

  // ---- steps and edges -------------------------------------------------------------------------------

  // From pc in block b to the next item of the block, or along an edge to a block's start.
  ghost predicate Hop(blocks: seq<Block>, b: nat, pc: nat, to: nat)
    requires b < |blocks|
  {
    (to == pc + 1 && to < blocks[b].end)
    || (pc + 1 == blocks[b].end && exists b2: nat :: b2 < |blocks| && b2 in blocks[b].succ && to == blocks[b2].start)
  }

  // Where item pc can go.
  predicate Goes(items: seq<Item>, pc: nat, to: nat)
    requires pc < |items|
  {
    var i := items[pc];
    to < |items|
    && ((to == pc + 1 && !i.IJmp? && !i.IRet?) || ((i.IJmp? || i.ICbr?) && to == FindLabel(items, i.l)))
  }

  ghost predicate FlowsIn(items: seq<Item>, blocks: seq<Block>) {
    && (|items| > 0 ==> |blocks| > 0 && blocks[0].start == 0)
    && (forall b: nat | b < |blocks| :: blocks[b].start < blocks[b].end <= |items|)
    && forall b: nat, pc: nat, to: nat | b < |blocks| && Reachable(blocks, b) && InBlock(blocks, b, pc) && Goes(items, pc, to) ::
         Hop(blocks, b, pc, to)
  }

  // The optimizer's blocks still carry the flow of the items it leaves.
  lemma OptimizedFlows(cut: seq<Item>, live: seq<Item>, after: seq<Item>, blocks: seq<Block>)
    requires IsCfg(cut, blocks) && UnreachableRemoved(cut, live, blocks) && Mapped(live, after, DropDeadEval)
    ensures FlowsIn(after, blocks)
  {
    hide Reachable, Edges, Leader;
    forall b: nat, pc: nat, to: nat
      | b < |blocks| && Reachable(blocks, b) && InBlock(blocks, b, pc) && Goes(after, pc, to)
      ensures Hop(blocks, b, pc, to)
    {
      OptimizedHop(cut, live, after, blocks, b, pc, to);
    }
  }

  // So do the blocks built for items that are left as they are.
  lemma CfgFlows(items: seq<Item>, blocks: seq<Block>)
    requires IsCfg(items, blocks)
    ensures FlowsIn(items, blocks)
  {
    hide Reachable, Edges, Leader, FindLabel;
    CfgRanges(items, blocks);
    forall b: nat, pc: nat, to: nat
      | b < |blocks| && Reachable(blocks, b) && InBlock(blocks, b, pc) && Goes(items, pc, to)
      ensures Hop(blocks, b, pc, to)
    {
      var i := items[pc];
      if to == pc + 1 && !i.IJmp? && !i.IRet? { NextHop(items, blocks, b, pc); } else { JumpHop(items, blocks, b, pc, i.l); }
    }
  }

  lemma BuiltFlows(before: seq<Item>, after: seq<Item>, blocks: seq<Block>)
    requires Built(before, after, blocks)
    ensures FlowsIn(after, blocks)
  {
    hide FlowsIn, IsCfg, UnreachableRemoved, Mapped;
    if after == before && IsCfg(before, blocks) {
      CfgFlows(before, blocks);
    } else {
      var folded, cut, live :| Optimized(before, after, folded, cut, live, blocks);
      OptimizedFlows(cut, live, after, blocks);
    }
  }

  lemma OptimizedHop(cut: seq<Item>, live: seq<Item>, after: seq<Item>, blocks: seq<Block>, b: nat, pc: nat, to: nat)
    requires IsCfg(cut, blocks) && UnreachableRemoved(cut, live, blocks) && Mapped(live, after, DropDeadEval)
    requires b < |blocks| && Reachable(blocks, b) && InBlock(blocks, b, pc) && Goes(after, pc, to)
    ensures Hop(blocks, b, pc, to)
  {
    hide Reachable, Edges, Leader, FindLabel, IsCfg;
    CfgRanges(cut, blocks);
    assert live[pc] == cut[pc] && after[pc] == DropDeadEval(cut[pc]);
    var i := after[pc];
    if to == pc + 1 && !i.IJmp? && !i.IRet? {
      NextHop(cut, blocks, b, pc);
    } else {
      assert cut[pc] == i;
      if FindLabel(cut, i.l) < |cut| {
        KeptLabel(cut, live, blocks, b, pc, i.l);
        SameLabels(live, after, i.l);
        JumpHop(cut, blocks, b, pc, i.l);
      } else {
        LabelKept(cut, live, after, blocks, to, i.l);
      }
    }
  }

  lemma CfgRanges(cut: seq<Item>, blocks: seq<Block>)
    requires IsCfg(cut, blocks)
    ensures forall b: nat | b < |blocks| :: blocks[b].start < blocks[b].end <= |cut|
  {
    hide Edges, Leader;
  }

  // A label of the items left is one of the items before.
  lemma LabelKept(cut: seq<Item>, live: seq<Item>, after: seq<Item>, blocks: seq<Block>, to: nat, l: Label)
    requires IsCfg(cut, blocks) && UnreachableRemoved(cut, live, blocks) && Mapped(live, after, DropDeadEval)
    requires FindLabel(cut, l) >= |cut| && to < |after|
    ensures after[to] != ILabel(l)
  {
    hide Edges, Leader, Reachable;
    KeptOrCleared(cut, live, blocks, to);
    assert after[to] == DropDeadEval(live[to]);
  }

  lemma NextHop(cut: seq<Item>, blocks: seq<Block>, b: nat, pc: nat)
    requires IsCfg(cut, blocks) && InBlock(blocks, b, pc) && pc + 1 < |cut| && !cut[pc].IJmp? && !cut[pc].IRet?
    ensures Hop(blocks, b, pc, pc + 1)
  {
    hide Leader;
    if pc + 1 == blocks[b].end {
      assert b + 1 < |blocks|;
      assert b + 1 in Edges(cut, blocks, b) && blocks[b + 1].start == pc + 1;
    }
  }

  lemma JumpHop(cut: seq<Item>, blocks: seq<Block>, b: nat, pc: nat, l: Label)
    requires IsCfg(cut, blocks) && InBlock(blocks, b, pc) && FindLabel(cut, l) < |cut|
    requires cut[pc] == IJmp(l) || (cut[pc].ICbr? && cut[pc].l == l)
    ensures Hop(blocks, b, pc, FindLabel(cut, l))
  {
    hide Edges, FindLabel;
    var b2 := JumpFollowsEdge(cut, blocks, b, pc, l);
    TransferEndsBlock(cut, blocks, b, pc);
    var t := FindLabel(cut, l);
    assert Leader(cut, t);
    assert t == blocks[b2].start;
  }

  // ---- an allocation that is right everywhere ----------------------------------------------------------

  predicate ItemTempsApart(i: Item, reg: seq<Reg>) { ItemExpr(i).Some? ==> TempsApart(ItemExpr(i).value, reg) }

  // What stays to be performed in block b from pc on.
  function Rest(items: seq<Item>, blocks: seq<Block>, b: nat, pc: nat, cands: seq<Cand>, env: Env): seq<RaEv>
    requires b < |blocks| && pc <= blocks[b].end <= |items|
  {
    RunFrom(items, pc, blocks[b].end, cands, env.leftFirst)
  }

  ghost predicate Allocated(items: seq<Item>, blocks: seq<Block>, outs: seq<set<nat>>, env: Env, cands: seq<Cand>, reg: seq<Reg>) {
    && FlowsIn(items, blocks) && |outs| == |blocks| && Tied(env, cands, reg)
    && (forall i | 0 <= i < |items| :: ItemTempsApart(items[i], reg))
    && (forall b: nat, pc: nat | b < |blocks| && Reachable(blocks, b) && InBlock(blocks, b, pc) ::
          Compatible(Rest(items, blocks, b, pc, cands, env), outs[b], reg))
    && (forall b: nat, b2: nat | b < |blocks| && b2 < |blocks| && b2 in blocks[b].succ ::
          Before(Rest(items, blocks, b2, blocks[b2].start, cands, env), outs[b2]) <= outs[b])
  }

  // At pc of a reachable block, agreeing on what the rest of the block needs.
  ghost predicate Here(b: nat, pc: nat, t: State, o: State, items: seq<Item>, blocks: seq<Block>,
                       outs: seq<set<nat>>, env: Env, cands: seq<Cand>, reg: seq<Reg>) {
    && |outs| == |blocks| && InBlock(blocks, b, pc) && blocks[b].end <= |items| && Reachable(blocks, b)
    && Tracks(Before(Rest(items, blocks, b, pc, cands, env), outs[b]), t, o, cands, reg)
  }

  ghost predicate SameEffects(t: State, o: State) { t.mem == o.mem && t.trace == o.trace }

  // The two runs are at the same place, or have left with the same value, with the same
  // memory and calls.
  ghost predicate SameConf(c: Conf, o: Conf) {
    match o
    case Stuck => c.Stuck?
    case Left(v, st) => c.Left? && c.v == v && SameEffects(c.st, st)
    case AtItem(pc, st) => c.AtItem? && c.pc == pc && SameEffects(c.st, st)
  }

  ghost predicate Together(c: Conf, o: Conf, items: seq<Item>, blocks: seq<Block>, outs: seq<set<nat>>, env: Env,
                           cands: seq<Cand>, reg: seq<Reg>) {
    SameConf(c, o)
    && (o.AtItem? && o.pc < |items| ==> exists b :: Here(b, o.pc, c.st, o.st, items, blocks, outs, env, cands, reg))
  }

  // Arriving after item pc of block b.
  lemma Arrives(b: nat, pc: nat, to: nat, t: State, o: State, items: seq<Item>, blocks: seq<Block>,
                outs: seq<set<nat>>, env: Env, cands: seq<Cand>, reg: seq<Reg>)
    requires Allocated(items, blocks, outs, env, cands, reg)
    requires b < |blocks| && Reachable(blocks, b) && InBlock(blocks, b, pc) && Goes(items, pc, to)
    requires Tracks(Before(Rest(items, blocks, b, pc + 1, cands, env), outs[b]), t, o, cands, reg)
    ensures exists c :: Here(c, to, t, o, items, blocks, outs, env, cands, reg)
  {
    hide Reachable, Goes, Tracks, Compatible, Before, Tied, ItemTempsApart, RunFrom;
    assert Hop(blocks, b, pc, to);
    if to == pc + 1 && to < blocks[b].end {
      assert Here(b, to, t, o, items, blocks, outs, env, cands, reg);
    } else {
      var b2: nat :| b2 < |blocks| && b2 in blocks[b].succ && to == blocks[b2].start;
      AtEnd(items, blocks, b, outs[b], cands, env);
      Weaker(outs[b], Before(Rest(items, blocks, b2, to, cands, env), outs[b2]), t, o, cands, reg);
      ReachableStep(blocks, b, b2);
      assert Here(b2, to, t, o, items, blocks, outs, env, cands, reg);
    }
  }

  lemma AtEnd(items: seq<Item>, blocks: seq<Block>, b: nat, live: set<nat>, cands: seq<Cand>, env: Env)
    requires b < |blocks| && blocks[b].end <= |items|
    ensures Before(Rest(items, blocks, b, blocks[b].end, cands, env), live) == live
  {}

  // The item's own events come off the front of what is left of its block.
  lemma ItemFirst(b: nat, pc: nat, t: State, o: State, items: seq<Item>, blocks: seq<Block>,
                  outs: seq<set<nat>>, env: Env, cands: seq<Cand>, reg: seq<Reg>)
    requires Allocated(items, blocks, outs, env, cands, reg)
    requires Here(b, pc, t, o, items, blocks, outs, env, cands, reg)
    ensures var after := Before(Rest(items, blocks, b, pc + 1, cands, env), outs[b]);
      Primed(RunItem(items[pc], cands, env.leftFirst), after, t, o, cands, reg)
  {
    hide FlowsIn, Reachable, Tracks, Compatible, Before, Tied, ItemTempsApart, RunItem;
    var x, y := RunItem(items[pc], cands, env.leftFirst), Rest(items, blocks, b, pc + 1, cands, env);
    assert Rest(items, blocks, b, pc, cands, env) == x + y;
    assert Primed(x + y, outs[b], t, o, cands, reg);
    PrimedSplit(x, y, outs[b], t, o, cands, reg);
  }

  lemma ItemTracks(b: nat, pc: nat, e: IrExpr, t: State, o: State, items: seq<Item>, blocks: seq<Block>,
                   outs: seq<set<nat>>, env: Env, cands: seq<Cand>, reg: seq<Reg>)
    requires Allocated(items, blocks, outs, env, cands, reg)
    requires Here(b, pc, t, o, items, blocks, outs, env, cands, reg) && ItemExpr(items[pc]) == Some(e)
    ensures var after := Before(Rest(items, blocks, b, pc + 1, cands, env), outs[b]);
      SameResult(Eval(e, t, env), Eval(e, o, Own(env)), after, cands, reg)
  {
    hide FlowsIn, Reachable, Tracks, Compatible, Before, Tied, RunWalk, Rest, Eval, TempsApart;
    ItemFirst(b, pc, t, o, items, blocks, outs, env, cands, reg);
    assert ItemTempsApart(items[pc], reg);
    EvalTracks(e, false, Before(Rest(items, blocks, b, pc + 1, cands, env), outs[b]), t, o, env, cands, reg);
  }

  lemma ItemQuiet(b: nat, pc: nat, t: State, o: State, items: seq<Item>, blocks: seq<Block>,
                  outs: seq<set<nat>>, env: Env, cands: seq<Cand>, reg: seq<Reg>)
    requires Allocated(items, blocks, outs, env, cands, reg)
    requires Here(b, pc, t, o, items, blocks, outs, env, cands, reg) && ItemExpr(items[pc]).None?
    ensures Tracks(Before(Rest(items, blocks, b, pc + 1, cands, env), outs[b]), t, o, cands, reg)
  {
    hide FlowsIn, Reachable, Tracks, Compatible, Before, Tied, ItemTempsApart, Rest;
    ItemFirst(b, pc, t, o, items, blocks, outs, env, cands, reg);
    NothingBefore(Before(Rest(items, blocks, b, pc + 1, cands, env), outs[b]));
  }

  // Going on from pc to another item, or off the end.
  lemma GoesOn(b: nat, pc: nat, to: nat, t: State, o: State, items: seq<Item>, blocks: seq<Block>,
               outs: seq<set<nat>>, env: Env, cands: seq<Cand>, reg: seq<Reg>)
    requires Allocated(items, blocks, outs, env, cands, reg)
    requires b < |blocks| && Reachable(blocks, b) && InBlock(blocks, b, pc) && (to < |items| ==> Goes(items, pc, to))
    requires Tracks(Before(Rest(items, blocks, b, pc + 1, cands, env), outs[b]), t, o, cands, reg)
    ensures Together(AtItem(to, t), AtItem(to, o), items, blocks, outs, env, cands, reg)
  {
    hide FlowsIn, Reachable, Goes, Here, Compatible, Before, Tied, ItemTempsApart, Rest;
    if to < |items| { Arrives(b, pc, to, t, o, items, blocks, outs, env, cands, reg); }
  }

  lemma StepTogether(c: Conf, o: Conf, items: seq<Item>, blocks: seq<Block>, outs: seq<set<nat>>, env: Env,
                     cands: seq<Cand>, reg: seq<Reg>)
    requires Allocated(items, blocks, outs, env, cands, reg) && Together(c, o, items, blocks, outs, env, cands, reg)
    ensures Together(ItemStep(c, items, env), ItemStep(o, items, Own(env)), items, blocks, outs, env, cands, reg)
  {
    hide Allocated, Here, Eval, Tracks, Before, Rest;
    if o.AtItem? && o.pc < |items| {
      var b :| Here(b, o.pc, c.st, o.st, items, blocks, outs, env, cands, reg);
      HereFacts(b, o.pc, c.st, o.st, items, blocks, outs, env, cands, reg);
      if ItemExpr(items[o.pc]).Some? {
        ItemTracks(b, o.pc, ItemExpr(items[o.pc]).value, c.st, o.st, items, blocks, outs, env, cands, reg);
        ExprStep(b, c, o, items, blocks, outs, env, cands, reg);
      } else {
        ItemQuiet(b, o.pc, c.st, o.st, items, blocks, outs, env, cands, reg);
        QuietStep(b, c, o, items, blocks, outs, env, cands, reg);
      }
    }
  }

  lemma HereFacts(b: nat, pc: nat, t: State, o: State, items: seq<Item>, blocks: seq<Block>,
                  outs: seq<set<nat>>, env: Env, cands: seq<Cand>, reg: seq<Reg>)
    requires Here(b, pc, t, o, items, blocks, outs, env, cands, reg)
    ensures |outs| == |blocks| && b < |blocks| && Reachable(blocks, b) && InBlock(blocks, b, pc)
    ensures pc + 1 <= blocks[b].end <= |items|
  {}

  lemma ExprStep(b: nat, c: Conf, o: Conf, items: seq<Item>, blocks: seq<Block>, outs: seq<set<nat>>, env: Env,
                 cands: seq<Cand>, reg: seq<Reg>)
    requires Allocated(items, blocks, outs, env, cands, reg) && o.AtItem? && c.AtItem? && c.pc == o.pc < |items|
    requires |outs| == |blocks| && b < |blocks| && Reachable(blocks, b) && InBlock(blocks, b, c.pc) && blocks[b].end <= |items|
    requires var e := ItemExpr(items[c.pc]);
      e.Some? && SameResult(Eval(e.value, c.st, env), Eval(e.value, o.st, Own(env)),
                            Before(Rest(items, blocks, b, c.pc + 1, cands, env), outs[b]), cands, reg)
    ensures Together(ItemStep(c, items, env), ItemStep(o, items, Own(env)), items, blocks, outs, env, cands, reg)
  {
    hide Allocated, Here, Eval, Before, Rest, Reachable;
    var e := ItemExpr(items[c.pc]).value;
    var r, w := Eval(e, c.st, env), Eval(e, o.st, Own(env));
    if w.Ok? && !items[c.pc].IRet? {
      GoesOn(b, c.pc, c.pc + 1, r.st, w.st, items, blocks, outs, env, cands, reg);
      if items[c.pc].ICbr? && FindLabel(items, items[c.pc].l) < |items| {
        GoesOn(b, c.pc, FindLabel(items, items[c.pc].l), r.st, w.st, items, blocks, outs, env, cands, reg);
      }
    }
  }

  lemma QuietStep(b: nat, c: Conf, o: Conf, items: seq<Item>, blocks: seq<Block>, outs: seq<set<nat>>, env: Env,
                  cands: seq<Cand>, reg: seq<Reg>)
    requires Allocated(items, blocks, outs, env, cands, reg) && o.AtItem? && c.AtItem? && c.pc == o.pc < |items|
    requires |outs| == |blocks| && b < |blocks| && Reachable(blocks, b) && InBlock(blocks, b, c.pc) && blocks[b].end <= |items|
    requires SameEffects(c.st, o.st) && ItemExpr(items[c.pc]).None?
    requires Tracks(Before(Rest(items, blocks, b, c.pc + 1, cands, env), outs[b]), c.st, o.st, cands, reg)
    ensures Together(ItemStep(c, items, env), ItemStep(o, items, Own(env)), items, blocks, outs, env, cands, reg)
  {
    hide Allocated, Here, Eval, Tracks, Before, Rest, Reachable;
    var i := items[c.pc];
    if i.IJmp? {
      if FindLabel(items, i.l) < |items| {
        GoesOn(b, c.pc, FindLabel(items, i.l), c.st, o.st, items, blocks, outs, env, cands, reg);
      }
    } else if !i.IRet? {
      GoesOn(b, c.pc, c.pc + 1, c.st, o.st, items, blocks, outs, env, cands, reg);
    }
  }

  lemma {:induction false} RunTogether(c: Conf, o: Conf, items: seq<Item>, blocks: seq<Block>, outs: seq<set<nat>>,
                                       env: Env, cands: seq<Cand>, reg: seq<Reg>, n: nat)
    requires Allocated(items, blocks, outs, env, cands, reg) && Together(c, o, items, blocks, outs, env, cands, reg)
    ensures SameConf(ItemRun(c, items, env, n), ItemRun(o, items, Own(env), n))
    decreases n
  {
    hide Allocated, ItemStep, Here;
    if n > 0 {
      StepTogether(c, o, items, blocks, outs, env, cands, reg);
      RunTogether(ItemStep(c, items, env), ItemStep(o, items, Own(env)), items, blocks, outs, env, cands, reg, n - 1);
    }
  }

  // ---- the allocator's result is such an allocation ------------------------------------------------------

  lemma {:induction false} RestCompatible(items: seq<Item>, blocks: seq<Block>, b: nat, pc: nat, live: set<nat>, env: Env,
                                          cands: seq<Cand>, reg: seq<Reg>)
    requires b < |blocks| && blocks[b].start <= pc <= blocks[b].end <= |items|
    requires Compatible(Rest(items, blocks, b, blocks[b].start, cands, env), live, reg)
    ensures Compatible(Rest(items, blocks, b, pc, cands, env), live, reg)
    decreases pc
  {
    hide Clobbers, RunItem;
    if pc > blocks[b].start {
      RestCompatible(items, blocks, b, pc - 1, live, env, cands, reg);
      var x, y := RunItem(items[pc - 1], cands, env.leftFirst), Rest(items, blocks, b, pc, cands, env);
      assert Rest(items, blocks, b, pc - 1, cands, env) == x + y;
      forall i: nat, j: nat | i != j && Clobbers(y, live, i, j) ensures LocOf(i, reg) != LocOf(j, reg) {
        ClobbersJoin(x, y, live, i, j);
      }
    }
  }

  // The events each block performs.
  function Performed(items: seq<Item>, blocks: seq<Block>, cands: seq<Cand>, env: Env): (r: seq<seq<RaEv>>)
    ensures |r| == |blocks|
    ensures forall b: nat | b < |blocks| && blocks[b].start <= blocks[b].end <= |items| ::
              r[b] == Rest(items, blocks, b, blocks[b].start, cands, env)
    ensures forall b: nat | b < |blocks| :: InRange(r[b], |cands|)
  {
    seq(|blocks|, b requires 0 <= b < |blocks| =>
      if blocks[b].start <= blocks[b].end <= |items| then Rest(items, blocks, b, blocks[b].start, cands, env) else [])
  }

  ghost predicate AllTempsApart(items: seq<Item>, reg: seq<Reg>) { forall i | 0 <= i < |items| :: ItemTempsApart(items[i], reg) }

  lemma KeptCompatible(blocks: seq<Block>, runs: seq<seq<RaEv>>, ins: seq<set<nat>>, outs: seq<set<nat>>, reg: seq<Reg>, b: nat)
    requires |blocks| == |runs| == |ins| == |outs| && AllKeptApart(blocks, runs, ins, outs, reg)
    requires b < |blocks| && Reachable(blocks, b)
    ensures Compatible(runs[b], outs[b], reg)
  {
    hide Clobbers, Reachable, LocOf;
    forall i: nat, j: nat | i != j && Clobbers(runs[b], outs[b], i, j) ensures LocOf(i, reg) != LocOf(j, reg) {
      assert Meets(blocks, runs, ins, outs, i, j);
    }
  }

  lemma IsAllocated(items: seq<Item>, blocks: seq<Block>, ins: seq<set<nat>>, outs: seq<set<nat>>, env: Env,
                    cands: seq<Cand>, reg: seq<Reg>)
    requires FlowsIn(items, blocks) && Tied(env, cands, reg) && AllTempsApart(items, reg)
    requires var runs := Performed(items, blocks, cands, env);
      Solved(blocks, runs, ins, outs) && AllKeptApart(blocks, runs, ins, outs, reg)
    ensures Allocated(items, blocks, outs, env, cands, reg)
  {
    hide Solved, AllKeptApart, Compatible, Before, Rest, Reachable, Hop, Goes, Tied, ItemTempsApart;
    var runs := Performed(items, blocks, cands, env);
    SolvedSizes(blocks, runs, ins, outs);
    forall b: nat, pc: nat | b < |blocks| && Reachable(blocks, b) && InBlock(blocks, b, pc)
      ensures Compatible(Rest(items, blocks, b, pc, cands, env), outs[b], reg)
    {
      KeptCompatible(blocks, runs, ins, outs, reg, b);
      RestCompatible(items, blocks, b, pc, outs[b], env, cands, reg);
    }
    forall b: nat, b2: nat | b < |blocks| && b2 < |blocks| && b2 in blocks[b].succ
      ensures Before(Rest(items, blocks, b2, blocks[b2].start, cands, env), outs[b2]) <= outs[b]
    {
      SolvedBefore(blocks, runs, ins, outs, b2);
      EntersOut(blocks, runs, ins, outs, b, b2);
    }
  }

  // Entry loads what is live into the first block.
  ghost predicate Entered(t: State, o: State, blocks: seq<Block>, runs: seq<seq<RaEv>>, cands: seq<Cand>, reg: seq<Reg>) {
    && SameEffects(t, o) && |reg| == |cands|
    && (forall r: Reg | r !in reg :: t.regs[r] == o.regs[r])
    && (forall c: nat | c < |cands| && reg[c] != 0 && LiveIn(blocks, runs, 0, c) :: t.regs[reg[c]] == o.vars(cands[c].v))
  }

  // What meets as these items perform their events is in different places.
  ghost predicate RunsApart(items: seq<Item>, blocks: seq<Block>, cands: seq<Cand>, env: Env, reg: seq<Reg>) {
    exists ins, outs :: var runs := Performed(items, blocks, cands, env);
      Solved(blocks, runs, ins, outs) && AllKeptApart(blocks, runs, ins, outs, reg)
  }

  // That is: in every order of blocks, every use finds the variable's own value.
  lemma RunsApartIff(items: seq<Item>, blocks: seq<Block>, cands: seq<Cand>, env: Env, reg: seq<Reg>,
                     ins: seq<set<nat>>, outs: seq<set<nat>>)
    requires Solved(blocks, Performed(items, blocks, cands, env), ins, outs)
    ensures RunsApart(items, blocks, cands, env, reg) <==> SafeEverywhere(blocks, Performed(items, blocks, cands, env), reg)
  {
    hide LiveIn, AllKeptApart, SafeEverywhere;
    var runs := Performed(items, blocks, cands, env);
    SafeIff(blocks, runs, ins, outs, reg);
    if RunsApart(items, blocks, cands, env, reg) {
      var i, o :| Solved(blocks, runs, i, o) && AllKeptApart(blocks, runs, i, o, reg);
      SafeIff(blocks, runs, i, o, reg);
    }
  }

  // Sharing registers preserves meaning: with the registers assigned, every run is the run
  // with private variables, stuck or not.
  lemma PromotionOk(items: seq<Item>, blocks: seq<Block>, env: Env, cands: seq<Cand>, reg: seq<Reg>, t: State, o: State, n: nat)
    requires FlowsIn(items, blocks) && Tied(env, cands, reg) && AllTempsApart(items, reg)
    requires RunsApart(items, blocks, cands, env, reg) && Entered(t, o, blocks, Performed(items, blocks, cands, env), cands, reg)
    ensures SameConf(ItemRun(AtItem(0, t), items, env, n), ItemRun(AtItem(0, o), items, Own(env), n))
  {
    hide AllKeptApart, Allocated, Tied, AllTempsApart, Hop, Goes, Reachable, LiveIn, Before, Rest;
    var runs := Performed(items, blocks, cands, env);
    var ins, outs :| Solved(blocks, runs, ins, outs) && AllKeptApart(blocks, runs, ins, outs, reg);
    IsAllocated(items, blocks, ins, outs, env, cands, reg);
    if |items| > 0 {
      SolvedBefore(blocks, runs, ins, outs, 0);
      EntryReachable(blocks);
      assert Here(0, 0, t, o, items, blocks, outs, env, cands, reg);
    }
    RunTogether(AtItem(0, t), AtItem(0, o), items, blocks, outs, env, cands, reg, n);
  }
}
