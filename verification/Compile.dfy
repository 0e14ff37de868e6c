// A structured function body, lowered, optimized, emitted and run on the machine.
module Compile {
  import opened Words
  import opened Memory
  import opened Ir
  import opened M68k
  import opened Select
  import opened Tiles
  import opened Simulate
  import opened SelectProof
  import opened Fold
  import opened FoldProof
  import opened Items
  import opened Optimize
  import opened OptimizeProof
  import opened Lower
  import opened LowerProof
  import opened Order
  import opened Function

  // ---- operand order along a run ----------------------------------------------------------

  ghost predicate ItemUndisturbed(i: Item, t: State, env: Env) {
    match i
    case ICbr(e, _, _) => Undisturbed(e, t, env)
    case IEval(e) => Undisturbed(e, t, env)
    case IRet(Some(e)) => Undisturbed(e, t, env)
    case ILabel(_) | IJmp(_) | IRet(None) | INop => true
  }

  // At every item the run comes to, no left operand changes a folded variable.
  ghost predicate RunUndisturbed(c: Conf, items: seq<Item>, env: Env, n: nat)
    decreases n
  {
    n == 0
    || ((c.AtItem? && c.pc < |items| ==> ItemUndisturbed(items[c.pc], c.st, env))
        && RunUndisturbed(ItemStep(c, items, env), items, env, n - 1))
  }

  lemma StepOrderOk(c: Conf, items: seq<Item>, env: Env, tiles: Env)
    requires SameButOrder(env, tiles) && (c.AtItem? && c.pc < |items| ==> ItemUndisturbed(items[c.pc], c.st, env))
    requires ItemStep(c, items, env) != Stuck
    ensures ItemStep(c, items, tiles) == ItemStep(c, items, env)
  {
    hide Eval, Undisturbed;
    if c.AtItem? && c.pc < |items| {
      match items[c.pc] {
        case ICbr(e, _, _) => OrderOk(e, c.st, env, tiles);
        case IEval(e) => OrderOk(e, c.st, env, tiles);
        case IRet(Some(e)) => OrderOk(e, c.st, env, tiles);
        case ILabel(_) | IJmp(_) | IRet(None) | INop =>
      }
    }
  }

  lemma {:induction false} RunOrderOk(c: Conf, items: seq<Item>, env: Env, tiles: Env, n: nat)
    requires SameButOrder(env, tiles) && RunUndisturbed(c, items, env, n)
    requires ItemRun(c, items, env, n) != Stuck
    ensures ItemRun(c, items, tiles, n) == ItemRun(c, items, env, n)
    decreases n
  {
    hide ItemStep;
    if n > 0 {
      var d := ItemStep(c, items, env);
      if d == Stuck { StuckStays(items, env, n - 1); }
      StepOrderOk(c, items, env, tiles);
      RunOrderOk(d, items, env, tiles, n - 1);
    }
  }

  predicate ItemLeftsClear(i: Item, ra: map<nat, Reg>) {
    match i
    case ICbr(e, _, _) => LeftsClear(e, ra)
    case IEval(e) => LeftsClear(e, ra)
    case IRet(Some(e)) => LeftsClear(e, ra)
    case ILabel(_) | IJmp(_) | IRet(None) | INop => true
  }

  // A test on the items alone that covers every run.
  lemma {:induction false} ClearLeftsRun(c: Conf, items: seq<Item>, env: Env, n: nat)
    requires forall i | 0 <= i < |items| :: ItemLeftsClear(items[i], env.ra)
    ensures RunUndisturbed(c, items, env, n)
    decreases n
  {
    hide ItemStep, Undisturbed, LeftsClear;
    if n > 0 {
      if c.AtItem? && c.pc < |items| {
        assert ItemLeftsClear(items[c.pc], env.ra);
        match items[c.pc] {
          case ICbr(e, _, _) => ClearLeftsUndisturbed(e, c.st, env);
          case IEval(e) => ClearLeftsUndisturbed(e, c.st, env);
          case IRet(Some(e)) => ClearLeftsUndisturbed(e, c.st, env);
          case ILabel(_) | IJmp(_) | IRet(None) | INop =>
        }
      }
      ClearLeftsRun(ItemStep(c, items, env), items, env, n - 1);
    }
  }

  // ---- folding keeps what emission needs ----------------------------------------------------

  lemma {:induction false} FoldFits(e: IrExpr)
    requires WellTyped(e)
    ensures WellTyped(IeFold(e)) && StackNeed(IeFold(e)) <= StackNeed(e)
    decreases e, 2
  {
    hide WellTyped, StackNeed, FoldNode, FoldKids;
    FoldKidsFit(e);
    FoldNodeFits(FoldKids(e));
  }

  lemma FoldNodeFits(e: IrExpr)
    requires WellTyped(e)
    ensures WellTyped(FoldNode(e)) && StackNeed(FoldNode(e)) <= StackNeed(e)
  {
    hide FoldBinop, IePure, IeEqual, IeTrivial;
  }

  lemma FoldKidsFit(e: IrExpr)
    requires WellTyped(e)
    ensures WellTyped(FoldKids(e)) && StackNeed(FoldKids(e)) <= StackNeed(e)
    decreases e, 1
  {
    hide IeFold, ClearsExactly, ArgsNeed, FoldArgs;
    match e {
      case Load(a, _, _) => FoldFits(a);
      case Store(_, _, _) | Binop(_, _, _, _, _, _) | LogAnd(_, _) | LogOr(_, _) | Comma(_, _) => FoldPairFits(e);
      case Unary(_, _, _, a) => FoldFits(a);
      case Cond(a, b, c) => FoldFits(a); FoldFits(b); FoldFits(c);
      case Cast(_, _, _, _, _, a) => FoldFits(a);
      case CallDirect(_, _) | CallIndirect(_, _) => FoldCallFits(e);
      case Vdef(_, a) => FoldFits(a);
      case Nop | Num(_, _, _) | Lea(_) | Memzero(_, _, _) | Vuse(_) =>
    }
  }

  lemma FoldPairFits(e: IrExpr)
    requires (e.Store? || e.Binop? || e.LogAnd? || e.LogOr? || e.Comma?) && WellTyped(e)
    ensures WellTyped(FoldKids(e)) && StackNeed(FoldKids(e)) <= StackNeed(e)
    decreases e, 0
  {
    hide IeFold, ClearsExactly, ArgsNeed, FoldArgs;
    FoldFits(e.a);
    FoldFits(e.b);
  }

  lemma FoldCallFits(e: IrExpr)
    requires (e.CallDirect? || e.CallIndirect?) && WellTyped(e)
    ensures WellTyped(FoldKids(e)) && StackNeed(FoldKids(e)) <= StackNeed(e)
    decreases e, 0
  {
    hide IeFold;
    FoldArgsFit(e.args);
    if e.CallIndirect? { FoldFits(e.a); }
  }

  lemma FoldArgsFit(args: seq<IrExpr>)
    requires forall x | x in args :: WellTyped(x)
    ensures forall x | x in FoldArgs(args) :: WellTyped(x)
    ensures ArgsNeed(FoldArgs(args)) <= ArgsNeed(args)
    decreases args, 0
  {
    hide IeFold, WellTyped, StackNeed;
    if args != [] {
      FoldFits(args[0]);
      FoldArgsFit(args[1..]);
      assert FoldArgs(args)[1..] == FoldArgs(args[1..]);
    }
  }

  lemma PassesFit(i: Item, room: int)
    requires ItemReady(i, room)
    ensures ItemReady(DropDeadEval(FoldBranch(FoldItem(i))), room) && ItemReady(INop, room)
  {
    hide IeFold, WellTyped, StackNeed;
    match i {
      case ICbr(e, _, _) => FoldFits(e);
      case IEval(e) => FoldFits(e);
      case IRet(Some(e)) => FoldFits(e);
      case ILabel(_) | IJmp(_) | IRet(None) | INop =>
    }
  }

  // Each optimized item is a no-op or the rewritten original.
  lemma OptimizedItem(before: seq<Item>, after: seq<Item>, folded: seq<Item>, cut: seq<Item>, live: seq<Item>,
                      blocks: seq<Block>, i: nat)
    requires Optimized(before, after, folded, cut, live, blocks) && i < |before|
    ensures |after| == |before|
    ensures after[i] == INop || after[i] == DropDeadEval(FoldBranch(FoldItem(before[i])))
  {
    hide FoldItem, FoldBranch, DropDeadEval;
    KeptOrCleared(cut, live, blocks, i);
    assert folded[i] == FoldItem(before[i]) && cut[i] == FoldBranch(folded[i]) && after[i] == DropDeadEval(live[i]);
    assert DropDeadEval(INop) == INop by { NopStays(); }
  }

  lemma NopStays()
    ensures DropDeadEval(INop) == INop
  {}

  lemma OptimizedReady(before: seq<Item>, after: seq<Item>, folded: seq<Item>, cut: seq<Item>, live: seq<Item>,
                       blocks: seq<Block>, room: int)
    requires Optimized(before, after, folded, cut, live, blocks)
    requires forall i | 0 <= i < |before| :: ItemReady(before[i], room)
    ensures |after| == |before| && forall i | 0 <= i < |after| :: ItemReady(after[i], room)
  {
    hide Optimized, FoldItem, FoldBranch, DropDeadEval, ItemReady;
    forall i | 0 <= i < |before| ensures |after| == |before| && ItemReady(after[i], room) {
      OptimizedItem(before, after, folded, cut, live, blocks, i);
      PassesFit(before[i], room);
    }
    SameLength(before, after, folded, cut, live, blocks);
  }

  lemma SameLength(before: seq<Item>, after: seq<Item>, folded: seq<Item>, cut: seq<Item>, live: seq<Item>,
                   blocks: seq<Block>)
    requires Optimized(before, after, folded, cut, live, blocks)
    ensures |before| == |after| == |folded| == |cut| == |live|
  {}

  lemma BuiltReady(before: seq<Item>, after: seq<Item>, blocks: seq<Block>, room: int)
    requires Built(before, after, blocks) && forall i | 0 <= i < |before| :: ItemReady(before[i], room)
    ensures |after| == |before| && forall i | 0 <= i < |after| :: ItemReady(after[i], room)
  {
    hide Optimized, ItemReady, IsCfg;
    if after != before || !IsCfg(before, blocks) {
      var folded, cut, live :| Optimized(before, after, folded, cut, live, blocks);
      OptimizedReady(before, after, folded, cut, live, blocks, room);
    }
  }

  // ---- labels and jump targets -----------------------------------------------------------------

  predicate HasTarget(i: Item) { i.IJmp? || i.ICbr? }

  // Every jump names a label of these items or one of `labels`.
  ghost predicate TargetsWithin(items: seq<Item>, labels: set<Label>) {
    forall i | 0 <= i < |items| && HasTarget(items[i]) :: items[i].l in labels || ILabel(items[i].l) in items
  }

  lemma TargetsAppend(x: seq<Item>, y: seq<Item>, labels: set<Label>, more: set<Label>)
    requires TargetsWithin(x, labels + more) && TargetsWithin(y, labels + more)
    requires forall l | l in more :: ILabel(l) in x + y
    ensures TargetsWithin(x + y, labels)
  {
    forall i | 0 <= i < |x + y| && HasTarget((x + y)[i])
      ensures (x + y)[i].l in labels || ILabel((x + y)[i].l) in x + y
    {
      if i < |x| { assert (x + y)[i] == x[i]; } else { assert (x + y)[i] == y[i - |x|]; }
    }
  }

  lemma MoreLabels(x: seq<Item>, labels: set<Label>, more: set<Label>)
    requires TargetsWithin(x, labels) && labels <= more
    ensures TargetsWithin(x, more)
  {}

  // break, continue, and the labels a statement makes for itself all have targets.
  lemma {:induction false} LoweredTargets(s: Stmt, u: nat, labels: set<Label>)
    requires Scoped(s, labels)
    ensures TargetsWithin(LowerStmt(s, u).items, labels)
    decreases s, 1
  {
    hide TargetsWithin;
    match s {
      case Block(body) => SeqTargets(body, u, labels);
      case If(_, _, _) => IfTargets(s, u, labels);
      case For(_, _, _, _, _, _) => ForTargets(s, u, labels);
      case Do(_, _, _, _) => DoTargets(s, u, labels);
      case NullStmt => OneTarget(s, u, labels);
      case ExprStmt(_) => OneTarget(s, u, labels);
      case Return(_) => OneTarget(s, u, labels);
      case Goto(_) => OneTarget(s, u, labels);
    }
  }

  lemma OneTarget(s: Stmt, u: nat, labels: set<Label>)
    requires Scoped(s, labels) && (s.NullStmt? || s.ExprStmt? || s.Return? || s.Goto?)
    ensures TargetsWithin(LowerStmt(s, u).items, labels)
  {}

  lemma SeqTargets(body: seq<Stmt>, u: nat, labels: set<Label>)
    requires forall x | x in body :: Scoped(x, labels)
    ensures TargetsWithin(LowerSeq(body, u).items, labels)
    decreases body, 0
  {
    if body != [] {
      var x := LowerStmt(body[0], u);
      LoweredTargets(body[0], u, labels);
      SeqTargets(body[1..], x.uid, labels);
      assert labels + {} == labels;
      TargetsAppend(x.items, LowerSeq(body[1..], x.uid).items, labels, {});
    }
  }

  lemma IfTargets(s: Stmt, u: nat, labels: set<Label>)
    requires s.If? && Scoped(s, labels)
    ensures TargetsWithin(LowerStmt(s, u).items, labels)
    decreases s, 0
  {
    var lelse, lend := Lbl("L_else_", u), Lbl("L_end_", u);
    var own := {lelse, lend};
    var x := LowerStmt(s.thn, u + 1);
    var y := if s.els.Some? then LowerStmt(s.els.value, x.uid) else Lowered([], x.uid);
    LoweredTargets(s.thn, u + 1, labels);
    if s.els.Some? { LoweredTargets(s.els.value, x.uid, labels); }
    IfPieces(s.cond, x.items, y.items, u, labels);
  }

  lemma IfPieces(cond: IrExpr, x: seq<Item>, y: seq<Item>, u: nat, labels: set<Label>)
    requires TargetsWithin(x, labels) && TargetsWithin(y, labels)
    ensures var lelse, lend := Lbl("L_else_", u), Lbl("L_end_", u);
      TargetsWithin([ICbr(cond, lelse, false)] + x + [IJmp(lend), ILabel(lelse)] + y + [ILabel(lend)], labels)
  {
    hide TargetsWithin;
    var lelse, lend := Lbl("L_else_", u), Lbl("L_end_", u);
    var own := {lelse, lend};
    var all := labels + own;
    assert all + {} == all;
    MoreLabels(x, labels, all);
    MoreLabels(y, labels, all);
    FewTargets([ICbr(cond, lelse, false)], all);
    FewTargets([IJmp(lend), ILabel(lelse)], all);
    FewTargets([ILabel(lend)], all);
    TargetsAppend([ICbr(cond, lelse, false)], x, all, {});
    TargetsAppend([ICbr(cond, lelse, false)] + x, [IJmp(lend), ILabel(lelse)], all, {});
    var front := [ICbr(cond, lelse, false)] + x + [IJmp(lend), ILabel(lelse)];
    TargetsAppend(front, y, all, {});
    assert front[1 + |x| + 1] == ILabel(lelse);
    assert (front + y)[1 + |x| + 1] == ILabel(lelse);
    assert (front + y + [ILabel(lend)])[1 + |x| + 1] == ILabel(lelse);
    TargetsAppend(front + y, [ILabel(lend)], labels, own);
  }

  lemma FewTargets(x: seq<Item>, labels: set<Label>)
    requires forall i | i in x && HasTarget(i) :: i.l in labels
    ensures TargetsWithin(x, labels)
  {}

  lemma ForTargets(s: Stmt, u: nat, labels: set<Label>)
    requires s.For? && Scoped(s, labels)
    ensures TargetsWithin(LowerStmt(s, u).items, labels)
    decreases s, 0
  {
    var x := if s.init.Some? then LowerStmt(s.init.value, u + 1) else Lowered([], u + 1);
    if s.init.Some? { LoweredTargets(s.init.value, u + 1, labels); }
    LoweredTargets(s.loop, x.uid, labels + {s.brk, s.cont});
    LoopPieces(x.items, ForHead(s.test, Lbl("L_begin_", u), s.brk), LowerStmt(s.loop, x.uid).items,
               ForTail(s.inc, Lbl("L_begin_", u), s.brk, s.cont), Lbl("L_begin_", u), s.brk, s.cont, labels);
  }

  lemma DoTargets(s: Stmt, u: nat, labels: set<Label>)
    requires s.Do? && Scoped(s, labels)
    ensures TargetsWithin(LowerStmt(s, u).items, labels)
    decreases s, 0
  {
    var lbegin := Lbl("L_begin_", u);
    var x := LowerStmt(s.loop, u + 1).items;
    LoweredTargets(s.loop, u + 1, labels + {s.brk, s.cont});
    var tail := [ILabel(s.cont), ICbr(s.cond, lbegin, true), ILabel(s.brk)];
    LoopPieces([], [ILabel(lbegin)], x, tail, lbegin, s.brk, s.cont, labels);
    assert [] + [ILabel(lbegin)] + x + tail == [ILabel(lbegin)] + x + tail;
  }

  lemma LoopPieces(init: seq<Item>, head: seq<Item>, body: seq<Item>, tail: seq<Item>,
                   lbegin: Label, brk: Label, cont: Label, labels: set<Label>)
    requires TargetsWithin(init, labels) && TargetsWithin(body, labels + {brk, cont})
    requires forall i | i in head + tail && HasTarget(i) :: i.l == lbegin || i.l == brk
    requires |head| > 0 && head[0] == ILabel(lbegin) && ILabel(brk) in tail && ILabel(cont) in tail
    ensures TargetsWithin(init + head + body + tail, labels)
  {
    hide TargetsWithin;
    var own := {lbegin, brk, cont};
    var all := labels + own;
    assert all + {} == all;
    MoreLabels(init, labels, all);
    MoreLabels(body, labels + {brk, cont}, all);
    forall i | i in head ensures i in head + tail {}
    forall i | i in tail ensures i in head + tail {}
    FewTargets(head, all);
    FewTargets(tail, all);
    TargetsAppend(init, head, all, {});
    TargetsAppend(init + head, body, all, {});
    var whole := init + head + body + tail;
    assert whole[|init|] == ILabel(lbegin);
    TargetsAppend(init + head + body, tail, labels, own);
  }

  lemma WithinDefined(items: seq<Item>)
    requires TargetsWithin(items, {})
    ensures TargetsDefined(items)
  {}

  // Jumps that survive optimization still have their labels.
  lemma OptimizedTargets(before: seq<Item>, after: seq<Item>, folded: seq<Item>, cut: seq<Item>, live: seq<Item>,
                         blocks: seq<Block>)
    requires Optimized(before, after, folded, cut, live, blocks) && TargetsDefined(before)
    ensures TargetsDefined(after)
  {
    hide IsCfg, UnreachableRemoved, IeFold;
    SameLength(before, after, folded, cut, live, blocks);
    forall i | 0 <= i < |after| && HasTarget(after[i]) ensures FindLabel(after, after[i].l) < |after| {
      var l := after[i].l;
      assert after[i] == live[i];
      LiveTarget(cut, live, blocks, i);
      assert cut[i] == FoldBranch(folded[i]) && folded[i] == FoldItem(before[i]);
      SameLabels(before, folded, l);
      SameLabels(folded, cut, l);
      SameLabels(live, after, l);
    }
  }

  lemma LiveTarget(cut: seq<Item>, live: seq<Item>, blocks: seq<Block>, i: nat)
    requires IsCfg(cut, blocks) && UnreachableRemoved(cut, live, blocks) && i < |cut| && HasTarget(live[i])
    ensures live[i] == cut[i]
    ensures FindLabel(cut, cut[i].l) < |cut| ==> FindLabel(live, cut[i].l) == FindLabel(cut, cut[i].l)
  {
    hide Reachable, Leader, Edges;
    var b := FindBlock(cut, blocks, i, 0);
    assert Reachable(blocks, b);
    if FindLabel(cut, cut[i].l) < |cut| { KeptLabel(cut, live, blocks, b, i, cut[i].l); }
  }

  lemma BuiltTargets(before: seq<Item>, after: seq<Item>, blocks: seq<Block>)
    requires Built(before, after, blocks) && TargetsDefined(before)
    ensures TargetsDefined(after)
  {
    hide Optimized, TargetsDefined, IsCfg;
    if after != before || !IsCfg(before, blocks) {
      var folded, cut, live :| Optimized(before, after, folded, cut, live, blocks);
      OptimizedTargets(before, after, folded, cut, live, blocks);
    }
  }

  // No label is new.
  lemma BuiltLabels(before: seq<Item>, after: seq<Item>, blocks: seq<Block>)
    requires Built(before, after, blocks)
    ensures |after| == |before| && forall i | 0 <= i < |after| :: after[i].ILabel? ==> after[i] == before[i]
  {
    hide Optimized, IsCfg;
    if after != before || !IsCfg(before, blocks) {
      var folded, cut, live :| Optimized(before, after, folded, cut, live, blocks);
      SameLength(before, after, folded, cut, live, blocks);
      forall i | 0 <= i < |after| ensures after[i].ILabel? ==> after[i] == before[i] {
        OptimizedItem(before, after, folded, cut, live, blocks, i);
      }
    }
  }

  lemma BuiltKeepsRuns(before: seq<Item>, after: seq<Item>, blocks: seq<Block>, env: Env, st: State, n: nat)
    requires RightFirst(env) && AllSafe(before, env.ra) && Built(before, after, blocks)
    requires ItemRun(AtItem(0, st), before, env, n) != Stuck
    ensures ItemRun(AtItem(0, st), after, env, n) == ItemRun(AtItem(0, st), before, env, n)
  {
    hide Optimized, ItemRun, AllSafe, RightFirst, IsCfg;
    if after != before || !IsCfg(before, blocks) {
      var folded, cut, live :| Optimized(before, after, folded, cut, live, blocks);
      OptimizeKeepsRuns(before, after, folded, cut, live, blocks, env, st, n);
    }
  }

  // ---- the whole compilation --------------------------------------------------------------------

  // A body the back end takes: scoped jumps, names from the parser, promoted variables
  // used only through loads and stores, and room on the stack for every expression.
  ghost predicate Compilable(s: Stmt, u: nat, ret: Label, ra: map<nat, Reg>, room: int) {
    && FreshNames(LoopLabels(s)) && Scoped(s, {})
    && ret.Named? && ret !in LoopLabels(s)
    && AllSafe(LowerStmt(s, u).items, ra)
    && forall i | 0 <= i < |LowerStmt(s, u).items| :: ItemReady(LowerStmt(s, u).items[i], room)
  }

  lemma CompiledLabels(s: Stmt, u: nat, ret: Label, after: seq<Item>, blocks: seq<Block>, ra: map<nat, Reg>, u2: nat)
    requires FreshNames(LoopLabels(s)) && ret.Named? && ret !in LoopLabels(s) && LowerStmt(s, u).uid <= u2
    requires Built(LowerStmt(s, u).items, after, blocks)
    ensures UniqueLabels(BodyCode(after, ret, ra, u2))
  {
    hide Built, LowerStmt, BodyCode;
    LoweredOnce(s, u);
    BuiltLabels(LowerStmt(s, u).items, after, blocks);
    BodyUnique(after, ret, ra, u2);
  }

  lemma CompiledLoads(s: Stmt, u: nat, ret: Label, after: seq<Item>, blocks: seq<Block>, u2: nat, m: Machine, room: int)
    requires Compilable(s, u, ret, m.env.ra, room) && LowerStmt(s, u).uid <= u2
    requires Built(LowerStmt(s, u).items, after, blocks)
    requires GoodEnv(m.env) && FollowsTiles(m.env) && m.prog == BodyCode(after, ret, m.env.ra, u2)
    ensures LoadedBody(after, ret, u2, m, room)
  {
    hide Built, LowerStmt, BodyCode, TargetsDefined, ItemReady, AllSafe, LoopLabels, Scoped, FreshNames;
    var before := LowerStmt(s, u).items;
    CompiledLabels(s, u, ret, after, blocks, m.env.ra, u2);
    LoweredTargets(s, u, {});
    WithinDefined(before);
    BuiltTargets(before, after, blocks);
    BuiltReady(before, after, blocks, room);
  }

  // The machine came to the epilogue in the state, and with the value, of `c`.
  ghost predicate ReachesEpilogue(cpu: Cpu, r: Cpu, m: Machine, ret: Label, c: Conf, env: Env) {
    && r.pc + 2 == |m.prog| && m.prog[r.pc] == Lab(ret) && m.prog[r.pc + 1] == Exit
    && c.Left? && StandsFor(r, c.st, env) && Sp(r) == Sp(cpu)
    && (c.v.W? ==> r.d[0] == c.v.w)
  }

  // The main theorem of the back end. Whenever the body, by its big-step meaning,
  // finishes, the machine running the code emitted for the items built from it comes to
  // the epilogue with the returned value in D0, the same memory, promoted registers
  // and call trace, and SP where it was.
  lemma CompileOk(s: Stmt, u: nat, ret: Label, after: seq<Item>, blocks: seq<Block>, u2: nat, m: Machine, env: Env,
                  cpu: Cpu, t: State, fuel: nat)
    returns (k: nat)
    requires Compilable(s, u, ret, env.ra, Sp(cpu) - env.lo) && LowerStmt(s, u).uid <= u2
    requires Built(LowerStmt(s, u).items, after, blocks)
    requires GoodEnv(m.env) && SameButOrder(env, m.env) && m.prog == BodyCode(after, ret, env.ra, u2)
    requires cpu.pc == 0 && StandsFor(cpu, t, env)
    requires Finish(Exec(s, t, env, fuel)) != Stuck
    requires forall j: nat :: RunUndisturbed(AtItem(0, t), after, env, j)
    ensures ReachesEpilogue(cpu, Run(cpu, m, k), m, ret, Finish(Exec(s, t, env, fuel)), env)
  {
    hide Step, Run, ItemStep, ItemRun, Exec, LowerStmt, Compilable, Built, BodyCode, LoadedBody;
    var n := BuiltRuns(s, u, ret, after, blocks, env, m.env, Sp(cpu) - env.lo, t, fuel);
    CompiledLoads(s, u, ret, after, blocks, u2, m, Sp(cpu) - env.lo);
    assert Offset(after, 0, ret, m.env.ra, u2) == 0;
    k := BodyRunOk(after, ret, u2, m, AtItem(0, t), cpu, Sp(cpu), n);
    EpilogueAt(after, ret, m.env.ra, u2);
  }

  // The items left for emission, in the order of the tiles, run to the statement's end.
  lemma BuiltRuns(s: Stmt, u: nat, ret: Label, after: seq<Item>, blocks: seq<Block>, env: Env, tiles: Env, room: int,
                  t: State, fuel: nat)
    returns (n: nat)
    requires Compilable(s, u, ret, env.ra, room) && Built(LowerStmt(s, u).items, after, blocks)
    requires SameButOrder(env, tiles) && Finish(Exec(s, t, env, fuel)) != Stuck
    requires forall j: nat :: RunUndisturbed(AtItem(0, t), after, env, j)
    ensures ItemRun(AtItem(0, t), after, tiles, n) == Finish(Exec(s, t, env, fuel))
  {
    hide ItemStep, ItemRun, Exec, LowerStmt, Compilable, Built;
    CompileFacts(s, u, ret, env.ra, room);
    n := BodyOk(s, u, env, t, fuel);
    BuiltKeepsRuns(LowerStmt(s, u).items, after, blocks, env, t, n);
    RunOrderOk(AtItem(0, t), after, env, tiles, n);
  }

  lemma CompileFacts(s: Stmt, u: nat, ret: Label, ra: map<nat, Reg>, room: int)
    requires Compilable(s, u, ret, ra, room)
    ensures FreshNames(LoopLabels(s)) && Scoped(s, {}) && AllSafe(LowerStmt(s, u).items, ra)
  {}

  lemma EpilogueAt(items: seq<Item>, ret: Label, ra: map<nat, Reg>, u: nat)
    ensures var end := Offset(items, |items|, ret, ra, u);
      var code := BodyCode(items, ret, ra, u);
      end + 2 == |code| && code[end] == Lab(ret) && code[end + 1] == Exit
  {
    hide PrefixCode;
  }
}
