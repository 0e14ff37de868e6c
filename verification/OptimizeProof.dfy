// Every optimizer pass keeps every run.
module OptimizeProof {
  import opened Words
  import opened Ir
  import opened M68k
  import opened Items
  import opened Fold
  import opened FoldProof
  import opened FoldSettles
  import opened Optimize

  ghost predicate ItemSafe(i: Item, ra: map<nat, Reg>) {
    match i
    case ICbr(e, _, _) => AddressSafe(e, ra)
    case IEval(e) => AddressSafe(e, ra)
    case IRet(Some(e)) => AddressSafe(e, ra)
    case ILabel(_) | IJmp(_) | IRet(None) | INop => true
  }

  ghost predicate AllSafe(items: seq<Item>, ra: map<nat, Reg>) {
    forall i | 0 <= i < |items| :: ItemSafe(items[i], ra)
  }

  // `after` makes every step that `before` can make from configuration `c`.
  ghost predicate SameStep(before: seq<Item>, after: seq<Item>, env: Env, c: Conf) {
    ItemStep(c, before, env) != Stuck ==> ItemStep(c, after, env) == ItemStep(c, before, env)
  }

  lemma {:induction false} SameLabels(before: seq<Item>, after: seq<Item>, l: Label)
    requires |before| == |after| && forall i | 0 <= i < |before| :: before[i] == ILabel(l) <==> after[i] == ILabel(l)
    ensures FindLabel(before, l) == FindLabel(after, l)
  {
    if before != [] {
      assert forall i | 0 <= i < |before| - 1 :: before[1..][i] == before[i + 1] && after[1..][i] == after[i + 1];
      SameLabels(before[1..], after[1..], l);
    }
  }

  lemma FoldStep(before: seq<Item>, after: seq<Item>, env: Env, c: Conf)
    requires RightFirst(env) && AllSafe(before, env.ra) && Mapped(before, after, FoldItem)
    ensures SameStep(before, after, env, c)
  {
    hide Eval, IeFold, AddressSafe;
    if c.AtItem? && c.pc < |before| && ItemStep(c, before, env) != Stuck {
      assert after[c.pc] == FoldItem(before[c.pc]);
      match before[c.pc] {
        case ICbr(e, l, _) => FoldOk(e, c.st, env); SameLabels(before, after, l);
        case IEval(e) => FoldOk(e, c.st, env);
        case IRet(Some(e)) => FoldOk(e, c.st, env);
        case IJmp(l) => SameLabels(before, after, l);
        case ILabel(_) | IRet(None) | INop =>
      }
    }
  }

  lemma BranchStep(before: seq<Item>, after: seq<Item>, env: Env, c: Conf)
    requires Mapped(before, after, FoldBranch)
    ensures SameStep(before, after, env, c)
  {
    hide Eval;
    if c.AtItem? && c.pc < |before| && ItemStep(c, before, env) != Stuck {
      assert after[c.pc] == FoldBranch(before[c.pc]);
      match before[c.pc] {
        case ICbr(e, l, _) =>
          if IeNum(e).Some? { IeNumMeaning(e, c.st, env); }
          SameLabels(before, after, l);
        case IJmp(l) => SameLabels(before, after, l);
        case IEval(_) | IRet(_) | ILabel(_) | INop =>
      }
    }
  }

  lemma DeadStep(before: seq<Item>, after: seq<Item>, env: Env, c: Conf)
    requires Mapped(before, after, DropDeadEval)
    ensures SameStep(before, after, env, c)
  {
    hide Eval;
    if c.AtItem? && c.pc < |before| && ItemStep(c, before, env) != Stuck {
      assert after[c.pc] == DropDeadEval(before[c.pc]);
      match before[c.pc] {
        case ICbr(_, l, _) => SameLabels(before, after, l);
        case IJmp(l) => SameLabels(before, after, l);
        case IEval(e) => if IeTrivial(e) { TrivialPure(e); PureQuiet(e, c.st, env); }
        case IRet(_) | ILabel(_) | INop =>
      }
    }
  }

  // A configuration in a block the entry reaches, or past the last item, or finished.
  ghost predicate Live(blocks: seq<Block>, n: nat, c: Conf) {
    c.AtItem? && c.pc < n ==> exists b :: InBlock(blocks, b, c.pc) && Reachable(blocks, b)
  }

  lemma LiveStep(items: seq<Item>, blocks: seq<Block>, env: Env, c: Conf)
    requires IsCfg(items, blocks) && Live(blocks, |items|, c)
    ensures Live(blocks, |items|, ItemStep(c, items, env))
  {
    hide ItemStep, IsCfg, Reachable;
    var d := ItemStep(c, items, env);
    if c.AtItem? && c.pc < |items| && d.AtItem? && d.pc < |items| {
      var b :| InBlock(blocks, b, c.pc) && Reachable(blocks, b);
      var b2 := StepFollowsEdges(items, blocks, c, env, b);
      if b2 != b { ReachableStep(blocks, b, b2); }
    } else if !(c.AtItem? && c.pc < |items|) {
      Finished(c, items, env);
    }
  }

  lemma Finished(c: Conf, items: seq<Item>, env: Env)
    requires !(c.AtItem? && c.pc < |items|)
    ensures !ItemStep(c, items, env).AtItem?
  {}

  // The first definition of a label that a live branch names is itself live.
  lemma KeptLabel(before: seq<Item>, after: seq<Item>, blocks: seq<Block>, b: nat, pc: nat, l: Label)
    requires IsCfg(before, blocks) && UnreachableRemoved(before, after, blocks)
    requires InBlock(blocks, b, pc) && Reachable(blocks, b) && FindLabel(before, l) < |before|
    requires before[pc] == IJmp(l) || (before[pc].ICbr? && before[pc].l == l)
    ensures FindLabel(after, l) == FindLabel(before, l)
  {
    hide Reachable, Leader, Edges, FindLabel;
    var t := FindLabel(before, l);
    var b2 := JumpFollowsEdge(before, blocks, b, pc, l);
    ReachableStep(blocks, b, b2);
    assert after[t] == before[t];
    forall k | 0 <= k < t ensures after[k] != ILabel(l) { KeptOrCleared(before, after, blocks, k); }
    FirstLabel(after, l, t);
  }

  lemma KeptOrCleared(before: seq<Item>, after: seq<Item>, blocks: seq<Block>, k: nat)
    requires Partition(before, blocks, |before|) && UnreachableRemoved(before, after, blocks) && k < |before|
    ensures after[k] == before[k] || after[k] == INop
  {
    hide Reachable, Leader;
    var b := FindBlock(before, blocks, k, 0);
  }

  lemma {:induction false} FirstLabel(items: seq<Item>, l: Label, t: nat)
    requires t < |items| && items[t] == ILabel(l) && forall k | 0 <= k < t :: items[k] != ILabel(l)
    ensures FindLabel(items, l) == t
  {
    if t > 0 {
      assert items[0] != ILabel(l);
      FirstLabel(items[1..], l, t - 1);
    }
  }

  lemma UnreachableStep(before: seq<Item>, after: seq<Item>, blocks: seq<Block>, env: Env, c: Conf)
    requires IsCfg(before, blocks) && UnreachableRemoved(before, after, blocks) && Live(blocks, |before|, c)
    ensures SameStep(before, after, env, c)
  {
    hide Eval, IsCfg, Reachable, Jump;
    if c.AtItem? && c.pc < |before| && ItemStep(c, before, env) != Stuck {
      var b :| InBlock(blocks, b, c.pc) && Reachable(blocks, b);
      assert after[c.pc] == before[c.pc];
      if before[c.pc].IJmp? || before[c.pc].ICbr? {
        var l := before[c.pc].l;
        if FindLabel(before, l) < |before| {
          KeptLabel(before, after, blocks, b, c.pc, l);
          SameJump(before, after, l, c.st);
          if before[c.pc].ICbr? && HasValue(Eval(before[c.pc].e, c.st, env)) {
            SameJump(before, after, l, Eval(before[c.pc].e, c.st, env).st);
          }
        } else {
          NoJump(before, l, c.st);
          if before[c.pc].ICbr? && HasValue(Eval(before[c.pc].e, c.st, env)) {
            NoJump(before, l, Eval(before[c.pc].e, c.st, env).st);
          }
        }
      }
    }
  }

  lemma SameJump(before: seq<Item>, after: seq<Item>, l: Label, st: State)
    requires |before| == |after| && FindLabel(before, l) == FindLabel(after, l)
    ensures Jump(before, l, st) == Jump(after, l, st)
  {}

  lemma NoJump(items: seq<Item>, l: Label, st: State)
    requires FindLabel(items, l) >= |items|
    ensures Jump(items, l, st) == Stuck
  {}

  // All passes together, from the same live configuration.
  lemma OptimizedStep(before: seq<Item>, after: seq<Item>, folded: seq<Item>, cut: seq<Item>, live: seq<Item>,
                      blocks: seq<Block>, env: Env, c: Conf)
    requires RightFirst(env) && AllSafe(before, env.ra)
    requires Optimized(before, after, folded, cut, live, blocks) && Live(blocks, |cut|, c)
    requires ItemStep(c, before, env) != Stuck
    ensures ItemStep(c, after, env) == ItemStep(c, before, env)
    ensures Live(blocks, |cut|, ItemStep(c, after, env))
  {
    hide ItemStep, Live, IsCfg, UnreachableRemoved;
    FoldStep(before, folded, env, c);
    BranchStep(folded, cut, env, c);
    UnreachableStep(cut, live, blocks, env, c);
    DeadStep(live, after, env, c);
    LiveStep(cut, blocks, env, c);
  }

  lemma {:induction false} OptimizedRun(before: seq<Item>, after: seq<Item>, folded: seq<Item>, cut: seq<Item>,
                                        live: seq<Item>, blocks: seq<Block>, env: Env, c: Conf, n: nat)
    requires RightFirst(env) && AllSafe(before, env.ra)
    requires Optimized(before, after, folded, cut, live, blocks) && Live(blocks, |cut|, c)
    requires ItemRun(c, before, env, n) != Stuck
    ensures ItemRun(c, after, env, n) == ItemRun(c, before, env, n)
    decreases n
  {
    hide ItemStep, Live, Optimized;
    if n > 0 {
      var d := ItemStep(c, before, env);
      if d == Stuck { StuckStays(before, env, n - 1); }
      OptimizedStep(before, after, folded, cut, live, blocks, env, c);
      OptimizedRun(before, after, folded, cut, live, blocks, env, d, n - 1);
    }
  }

  // ir_optimize keeps every run of a function from its entry: after any number of
  // steps that the original takes without getting stuck, the optimized items are at
  // the same place with the same memory, registers, call trace and returned value.
  lemma OptimizeKeepsRuns(before: seq<Item>, after: seq<Item>, folded: seq<Item>, cut: seq<Item>, live: seq<Item>,
                          blocks: seq<Block>, env: Env, st: State, n: nat)
    requires RightFirst(env) && AllSafe(before, env.ra)
    requires Optimized(before, after, folded, cut, live, blocks)
    requires ItemRun(AtItem(0, st), before, env, n) != Stuck
    ensures ItemRun(AtItem(0, st), after, env, n) == ItemRun(AtItem(0, st), before, env, n)
  {
    if |cut| > 0 {
      EntryReachable(blocks);
      assert InBlock(blocks, 0, 0);
    }
    OptimizedRun(before, after, folded, cut, live, blocks, env, AtItem(0, st), n);
  }

  // The optimizer leaves only settled expressions, no branch on a constant, no evaluation of a
  // trivial expression, and nothing at all in a block that no path reaches.
  lemma OptimizeSettles(before: seq<Item>, after: seq<Item>, folded: seq<Item>, cut: seq<Item>, live: seq<Item>,
                        blocks: seq<Block>, i: nat)
    requires Optimized(before, after, folded, cut, live, blocks) && i < |after|
    ensures match after[i]
            case ICbr(e, _, _) => Settled(e) && !e.Num?
            case IEval(e) => Settled(e) && !IeTrivial(e)
            case IRet(Some(e)) => Settled(e)
            case _ => true
    ensures |after| == |before|
    ensures forall b | 0 <= b < |blocks| && blocks[b].start <= i < blocks[b].end && !Reachable(blocks, b) :: after[i] == INop
  {
    hide Edges, Reachable, Settled, IeFold, IeTrivial;
    match before[i] {
      case ICbr(e, _, _) => TreeSettles(e);
      case IEval(e) => TreeSettles(e);
      case IRet(Some(e)) => TreeSettles(e);
      case ILabel(_) | IJmp(_) | IRet(None) | INop => {}
    }
    var b := FindBlock(cut, blocks, i, 0);
  }
}
