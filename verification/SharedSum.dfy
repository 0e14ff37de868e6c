// A function the allocator miscolours.
module SharedSum {
  import opened Words
  import opened Memory
  import opened Ir
  import opened M68k
  import opened Items
  import opened Lower
  import opened Fold
  import opened Optimize
  import opened Select
  import opened SelectProof
  import opened Liveness
  import opened RegAlloc
  import opened Sharing
  import opened ExactSharing
  import opened EventOrder
  import opened Promotion
  import opened PromotedRuns
  import opened Coloring

  // do { x = 1; y = x; } while (!y); return y + (x = 5);
  const X: IrExpr := Lea(Local(0, -4))
  const Y: IrExpr := Lea(Local(1, -8))
  const GET_X: IrExpr := Load(X, 4, false)
  const GET_Y: IrExpr := Load(Y, 4, false)
  const SET_ONE: IrExpr := IrExpr.Store(X, Num(1, 4, false), 4)
  const COPY: IrExpr := IrExpr.Store(Y, GET_X, 4)
  const AGAIN: IrExpr := Unary(LogNot, 4, false, GET_Y)
  const SUM: IrExpr := Binop(Op.Add, false, false, 4, GET_Y, IrExpr.Store(X, Num(5, 4, false), 4))
  const BEGIN: Label := Lbl("L_begin_", 0)
  const CONT: Label := Named("cont")
  const BRK: Label := Named("brk")

  const BODY: Stmt :=
    Stmt.Block([Do(Stmt.Block([ExprStmt(SET_ONE), ExprStmt(COPY)]), AGAIN, BRK, CONT), Return(Some(SUM))])

  const ITEMS: seq<Item> :=
    [ILabel(BEGIN), IEval(SET_ONE), IEval(COPY), ILabel(CONT), ICbr(AGAIN, BEGIN, true), ILabel(BRK), IRet(Some(SUM))]

  const BLOCKS: seq<Items.Block> :=
    [Items.Block(0, 3, [1], [1]), Items.Block(3, 5, [0, 2], [0]), Items.Block(5, 7, [], [1])]

  // Three references each, two of them in the loop.
  const CANDS: seq<Cand> := [Cand(0, 3, 2, false), Cand(1, 3, 2, false)]

  // ---- the function is lowered to these items and blocks -------------------------------------------

  lemma Lowers()
    ensures LowerStmt(BODY, 0).items == ITEMS
  {
    var loop := Stmt.Block([ExprStmt(SET_ONE), ExprStmt(COPY)]);
    SeqOfTwo(ExprStmt(SET_ONE), ExprStmt(COPY), 1);
    assert LowerStmt(loop, 1).items == [IEval(SET_ONE), IEval(COPY)];
    var first := Do(loop, AGAIN, BRK, CONT);
    assert LowerStmt(first, 0).items
      == [ILabel(BEGIN), IEval(SET_ONE), IEval(COPY), ILabel(CONT), ICbr(AGAIN, BEGIN, true), ILabel(BRK)];
    SeqOfTwo(first, Return(Some(SUM)), 0);
  }

  lemma SeqOfTwo(a: Stmt, b: Stmt, u: nat)
    ensures var x := LowerStmt(a, u);
      LowerStmt(Stmt.Block([a, b]), u).items == x.items + LowerStmt(b, x.uid).items
  {
    var body := [a, b];
    assert body[1..] == [b] && body[1..][1..] == [];
    var x := LowerStmt(a, u);
    var y := LowerStmt(b, x.uid);
    assert LowerSeq([b], x.uid).items == y.items + [];
  }

  lemma HasPartition()
    ensures Partition(ITEMS, BLOCKS, 7)
  {}

  lemma HasCfg()
    ensures IsCfg(ITEMS, BLOCKS)
  {
    HasPartition();
    hide Partition;
    BeginIsFirst();
    hide BlockOfLabel;
    assert LabelEdge(ITEMS, BLOCKS, BEGIN) == [0];
    assert Edges(ITEMS, BLOCKS, 0) == [1] && Edges(ITEMS, BLOCKS, 1) == [0] + [2] && Edges(ITEMS, BLOCKS, 2) == [];
    HasPreds();
  }

  lemma BeginIsFirst()
    ensures BlockOfLabel(ITEMS, BLOCKS, BEGIN) == 0
  {
    assert ITEMS[0] == ILabel(BEGIN) && BLOCKS[0].start <= 0 < BLOCKS[0].end;
  }

  lemma HasPreds()
    ensures forall b: nat, p: nat | b < 3 && p < 3 :: p in BLOCKS[b].pred <==> b in BLOCKS[p].succ
    ensures forall b: nat, p: nat | b < 3 && p in BLOCKS[b].pred :: p < 3
  {}

  // The optimizer finds nothing to change.
  lemma Unchanged()
    ensures Optimized(ITEMS, ITEMS, ITEMS, ITEMS, ITEMS, BLOCKS)
  {
    HasCfg();
    NothingFolds();
    hide IsCfg, IeFold;
    forall i | 0 <= i < 7 ensures FoldItem(ITEMS[i]) == ITEMS[i] == FoldBranch(ITEMS[i]) == DropDeadEval(ITEMS[i]) {}
    AllReached();
    hide Reachable;
    assert UnreachableRemoved(ITEMS, ITEMS, BLOCKS);
  }

  lemma NothingFolds()
    ensures IeFold(SET_ONE) == SET_ONE && IeFold(COPY) == COPY && IeFold(AGAIN) == AGAIN && IeFold(SUM) == SUM
  {
    GetsFold();
    StoresFold();
    hide IeFold;
    assert IeFold(AGAIN) == FoldNode(FoldKids(AGAIN)) by { FoldIs(AGAIN); }
    assert IeFold(SUM) == FoldNode(FoldKids(SUM)) by { FoldIs(SUM); }
  }

  lemma FoldIs(e: IrExpr)
    ensures IeFold(e) == FoldNode(FoldKids(e))
  {}

  lemma GetsFold()
    ensures IeFold(GET_X) == GET_X && IeFold(GET_Y) == GET_Y
  {}

  lemma StoresFold()
    ensures IeFold(SET_ONE) == SET_ONE && IeFold(COPY) == COPY && IeFold(SUM.b) == SUM.b
  {
    GetsFold();
  }

  lemma AllReached()
    ensures Reachable(BLOCKS, 0) && Reachable(BLOCKS, 1) && Reachable(BLOCKS, 2)
  {
    EntryReachable(BLOCKS);
    ReachableStep(BLOCKS, 0, 1);
    ReachableStep(BLOCKS, 1, 2);
  }

  // ---- its events and live sets ----------------------------------------------------------------------

  const LISTED: seq<seq<RaEv>> :=
    [[RaEv(0, MustDef), RaEv(0, Use), RaEv(1, MustDef)], [RaEv(1, Use)], [RaEv(1, Use), RaEv(0, MustDef)]]

  lemma Candidates()
    ensures CandOfVar(CANDS, 0) == Some(0) && CandOfVar(CANDS, 1) == Some(1)
  {
    assert CandIndex(CANDS[1..], 1) == Some(0);
  }

  lemma ItemsList()
    ensures ItemEvents(ITEMS[1], CANDS) == [RaEv(0, MustDef)]
    ensures ItemEvents(ITEMS[2], CANDS) == [RaEv(0, Use), RaEv(1, MustDef)]
    ensures ItemEvents(ITEMS[4], CANDS) == [RaEv(1, Use)]
    ensures ItemEvents(ITEMS[6], CANDS) == [RaEv(1, Use), RaEv(0, MustDef)]
    ensures ItemEvents(ITEMS[0], CANDS) == ItemEvents(ITEMS[3], CANDS) == ItemEvents(ITEMS[5], CANDS) == []
  {
    GetsList();
    SetsList();
    hide EvWalk;
    assert EvWalk(AGAIN, false, CANDS) == EvWalk(GET_Y, false, CANDS) by { WalkOver(AGAIN); }
    assert EvWalk(SUM, false, CANDS) == [RaEv(1, Use)] + [RaEv(0, MustDef)] by { WalkOver(SUM); }
  }

  lemma WalkOver(e: IrExpr)
    ensures e.Unary? ==> EvWalk(e, false, CANDS) == EvWalk(e.a, false, CANDS)
    ensures e.Binop? ==> EvWalk(e, false, CANDS) == EvWalk(e.a, false, CANDS) + EvWalk(e.b, false, CANDS)
  {}

  lemma GetsList()
    ensures EvWalk(GET_X, false, CANDS) == [RaEv(0, Use)] && EvWalk(GET_Y, false, CANDS) == [RaEv(1, Use)]
  {
    Candidates();
    hide CandOfVar;
  }

  lemma SetsList()
    ensures EvWalk(SET_ONE, false, CANDS) == EvWalk(SUM.b, false, CANDS) == [RaEv(0, MustDef)]
    ensures EvWalk(COPY, false, CANDS) == [RaEv(0, Use), RaEv(1, MustDef)]
  {
    GetsList();
    Candidates();
    hide CandOfVar;
    assert EvWalk(Num(1, 4, false), false, CANDS) == [] && EvWalk(Num(5, 4, false), false, CANDS) == [];
    assert [] + [RaEv(0, MustDef)] == [RaEv(0, MustDef)];
    assert EvWalk(COPY, false, CANDS) == [RaEv(0, Use)] + [RaEv(1, MustDef)];
  }

  // The operands of the sum do not swap.
  lemma NotListed(leftFirst: IrExpr -> bool)
    requires !leftFirst(SUM)
    ensures !ListedOk(SUM, false, CANDS, leftFirst)
  {
    GetsList();
    SetsList();
    hide EvWalk;
    assert [RaEv(0, MustDef)][0] in [RaEv(0, MustDef)];
  }

  lemma BlocksList()
    ensures ListedIn(ITEMS, BLOCKS, CANDS) == LISTED
  {
    ItemsList();
    hide ItemEvents;
    assert EventsFrom(ITEMS, 3, 3, CANDS) == [] && EventsFrom(ITEMS, 5, 5, CANDS) == [] && EventsFrom(ITEMS, 7, 7, CANDS) == [];
    assert EventsFrom(ITEMS, 2, 3, CANDS) == [RaEv(0, Use), RaEv(1, MustDef)] + [];
    assert EventsFrom(ITEMS, 1, 3, CANDS) == [RaEv(0, MustDef)] + [RaEv(0, Use), RaEv(1, MustDef)];
    assert EventsFrom(ITEMS, 0, 3, CANDS) == [] + [RaEv(0, MustDef), RaEv(0, Use), RaEv(1, MustDef)];
    assert EventsFrom(ITEMS, 4, 5, CANDS) == [RaEv(1, Use)] + [];
    assert EventsFrom(ITEMS, 3, 5, CANDS) == [] + [RaEv(1, Use)];
    assert EventsFrom(ITEMS, 6, 7, CANDS) == [RaEv(1, Use), RaEv(0, MustDef)] + [];
    assert EventsFrom(ITEMS, 5, 7, CANDS) == [] + [RaEv(1, Use), RaEv(0, MustDef)];
    hide EventsFrom;
    var evs := ListedIn(ITEMS, BLOCKS, CANDS);
    assert evs[0] == LISTED[0] && evs[1] == LISTED[1] && evs[2] == LISTED[2];
  }

  // x is never live into a block: the only use of it follows its definition.
  lemma NeverLive(b: nat)
    ensures !LiveIn(BLOCKS, LISTED, b, 0)
  {
    forall k | 0 <= k < 3 ensures !Exposes(LISTED[k], 0) { NotExposed(k); }
    hide Exposes, Kills;
  }

  lemma NotExposed(k: nat)
    requires k < 3
    ensures !Exposes(LISTED[k], 0)
  {
    var s := LISTED[k];
    if k == 0 { assert s[..1] == [RaEv(0, MustDef)]; }
    forall m | 0 <= m < |s| && s[m] == RaEv(0, Use) ensures RaEv(0, MustDef) in s[..m] {
      assert k == 0 && m == 1;
    }
  }

  // In the listed order neither is defined while the other lives.
  lemma NoConflict(ins: seq<set<nat>>, outs: seq<set<nat>>)
    requires Solved(BLOCKS, LISTED, ins, outs)
    ensures |ins| == |outs| == |LISTED| && !Conflict(LISTED, ins, outs, 0, 1) && !Conflict(LISTED, ins, outs, 1, 0)
  {
    hide LiveIn;
    NeverLive(0);
    NeverLive(1);
    NeverLive(2);
    forall b: nat | b < 3 ensures 0 !in outs[b] && 0 !in ins[b] {}
    assert outs[2] == {} by { assert BLOCKS[2].succ == []; }
    FirstBlock(outs[0]);
    SecondBlock(outs[1]);
    ThirdBlock();
  }

  lemma FirstBlock(out: set<nat>)
    requires 0 !in out
    ensures !Clobbers(LISTED[0], out, 0, 1) && !Clobbers(LISTED[0], out, 1, 0)
  {
    var s := LISTED[0];
    assert s[1..] == [RaEv(0, Use), RaEv(1, MustDef)] && s[1..][1..] == [RaEv(1, MustDef)] && s[1..][1..][1..] == [];
    assert Before([], out) == out;
    assert Before([RaEv(1, MustDef)], out) == out - {1} by { assert [RaEv(1, MustDef)][1..] == []; }
    assert Before(s[1..], out) == out - {1} + {0};
    assert !Clobbers([], out, 0, 1) && !Clobbers([], out, 1, 0);
    assert !Clobbers(s[1..][1..], out, 0, 1) && !Clobbers(s[1..][1..], out, 1, 0);
    assert !Clobbers(s[1..], out, 0, 1) && !Clobbers(s[1..], out, 1, 0);
  }

  lemma SecondBlock(out: set<nat>)
    ensures !Clobbers(LISTED[1], out, 0, 1) && !Clobbers(LISTED[1], out, 1, 0)
  {
    assert LISTED[1][1..] == [];
  }

  lemma ThirdBlock()
    ensures !Clobbers(LISTED[2], {}, 0, 1) && !Clobbers(LISTED[2], {}, 1, 0)
  {
    var s := LISTED[2];
    assert s[1..] == [RaEv(0, MustDef)] && s[1..][1..] == [];
    assert Before([], {}) == {};
    assert !Clobbers(s[1..], {}, 0, 1) && !Clobbers(s[1..], {}, 1, 0);
  }

  // ---- the registers it gets ------------------------------------------------------------------------------

  lemma BothGetTwo(order: seq<nat>, conf: seq<set<nat>>, reg: seq<Reg>)
    requires Ranked(CANDS, order) && Colored(order, conf, reg) && |reg| == |conf| == 2
    requires 0 !in conf[1] && 1 !in conf[0] && 0 !in conf[0] && 1 !in conf[1]
    ensures reg == [2, 2]
  {
    forall c: nat | c < 2 ensures reg[c] == 2 {
      assert Colorable(CANDS[c]);
      var k: nat :| k < |order| && order[k] == c;
      assert FirstFree(order, k, conf, reg);
      var earlier := order[..k];
      forall m | 0 <= m < |earlier| ensures earlier[m] !in conf[c] { assert earlier[m] == order[m] < 2; }
      assert !Held(earlier, c, conf, reg, POOL[0]);
      var p :| FreeAt(earlier, c, conf, reg, p) && reg[c] == Pool(p);
    }
  }

  lemma GoodSum()
    ensures GoodBlocks(ITEMS, BLOCKS)
  {}

  // The allocator, run on the function, puts x and y in D2.
  method Allocate() returns (ra: RegAllocator, hi: nat)
    ensures ra.items == ITEMS && ra.blocks == BLOCKS && ra.cands == CANDS && ra.reg[..] == [2, 2] && hi == 2
  {
    hide Solved, Colored, Ranked, Conflict;
    GoodSum();
    ra := new RegAllocator(ITEMS, BLOCKS, CANDS);
    ghost var order, ins, outs;
    hi, order, ins, outs := ra.ColorGlobal();
    BlocksList();
    ListedAre(ra);
    NoConflict(ins, outs);
    assert !ra.Interfere(0, 1) && !ra.Interfere(1, 0);
    NotItself(ins, outs);
    BothGetTwo(order, ra.conf[..], ra.reg[..]);
    assert Highest([2, 2]) == 2 by { assert [2 as Reg, 2][1..] == [2] && [2 as Reg][1..] == []; }
  }

  lemma NotItself(ins: seq<set<nat>>, outs: seq<set<nat>>)
    requires |LISTED| == |ins| == |outs|
    ensures !Conflict(LISTED, ins, outs, 0, 0) && !Conflict(LISTED, ins, outs, 1, 1)
  {}

  // ---- and what then goes wrong -----------------------------------------------------------------------------

  // Registers as allocated: the function returns 10. With private variables the statement means
  // 6, and so do its items.
  lemma WrongSum(t: State, o: State, env: Env, fuel: nat)
    requires FollowsTiles(env) && Tied(env, CANDS, [2, 2]) && fuel > 0
    ensures ItemRun(AtItem(0, t), ITEMS, env, 7).Left? && ItemRun(AtItem(0, t), ITEMS, env, 7).v == W(10)
    ensures ItemRun(AtItem(0, o), ITEMS, Own(env), 7).Left? && ItemRun(AtItem(0, o), ITEMS, Own(env), 7).v == W(6)
    ensures Exec(BODY, o, Own(env), fuel).Returned? && Exec(BODY, o, Own(env), fuel).v == W(6)
  {
    BothInTwo(env);
    assert !env.leftFirst(SUM);
    hide FollowsTiles, Tied, Exec;
    SharedSteps(t, env);
    OwnSteps(o, Own(env));
    MeansSix(o, Own(env), fuel);
  }

  lemma BothInTwo(env: Env)
    requires Tied(env, CANDS, [2, 2])
    ensures RegOf(env.ra, 0) == 2 && RegOf(env.ra, 1) == 2 && !env.private
  {
    Candidates();
    hide CandOfVar;
  }

  lemma SharedSteps(t: State, env: Env)
    requires !env.leftFirst(SUM) && RegOf(env.ra, 0) == 2 && RegOf(env.ra, 1) == 2 && !env.private
    ensures ItemRun(AtItem(0, t), ITEMS, env, 7).Left? && ItemRun(AtItem(0, t), ITEMS, env, 7).v == W(10)
  {
    var t1 := SetReg(2, 1, t);
    assert Eval(SET_ONE.b, t, env) == Ok(W(1), t);
    assert Eval(SET_ONE, t, env) == Ok(W(1), t1);
    assert Eval(COPY.b, t1, env) == Ok(W(1), t1);
    assert SetReg(2, 1, t1) == t1;
    assert Eval(COPY, t1, env) == Ok(W(1), t1);
    assert Eval(GET_Y, t1, env) == Ok(W(1), t1);
    assert Eval(AGAIN, t1, env) == Ok(W(0), t1);
    var t5 := SetReg(2, 5, t1);
    assert Eval(SUM.b.b, t1, env) == Ok(W(5), t1);
    assert Eval(SUM.b, t1, env) == Ok(W(5), t5);
    assert Eval(SUM.a, t5, env) == Ok(W(5), t5);
    assert Eval(SUM, t1, env) == Ok(W(10), t5);
    hide Eval;
    SevenSteps(AtItem(0, t), env);
  }

  lemma OwnSteps(o: State, env: Env)
    requires !env.leftFirst(SUM) && RegOf(env.ra, 0) == 2 && RegOf(env.ra, 1) == 2 && env.private
    ensures ItemRun(AtItem(0, o), ITEMS, env, 7).Left? && ItemRun(AtItem(0, o), ITEMS, env, 7).v == W(6)
  {
    var o1, o2, o5 := OwnValues(o, env);
    hide Eval;
    SevenSteps(AtItem(0, o), env);
  }

  // Each expression of the function in turn.
  lemma OwnValues(o: State, env: Env) returns (o1: State, o2: State, o5: State)
    requires !env.leftFirst(SUM) && RegOf(env.ra, 0) == 2 && RegOf(env.ra, 1) == 2 && env.private
    ensures Eval(SET_ONE, o, env) == Ok(W(1), o1) && Eval(COPY, o1, env) == Ok(W(1), o2)
    ensures Eval(AGAIN, o2, env) == Ok(W(0), o2) && Eval(SUM, o2, env) == Ok(W(6), o5)
  {
    o1 := Assigned(0, 1, o, env);
    o2 := Assigned(1, 1, o1, env);
    assert Eval(SET_ONE.b, o, env) == Ok(W(1), o);
    assert Eval(COPY.b, o1, env) == Ok(W(1), o1);
    assert Eval(GET_Y, o2, env) == Ok(W(1), o2);
    o5 := Assigned(0, 5, o2, env);
    assert Eval(SUM.b.b, o2, env) == Ok(W(5), o2);
    assert Eval(SUM.b, o2, env) == Ok(W(5), o5);
    assert Eval(SUM.a, o5, env) == Ok(W(1), o5);
  }

  lemma MeansSix(o: State, env: Env, fuel: nat)
    requires !env.leftFirst(SUM) && RegOf(env.ra, 0) == 2 && RegOf(env.ra, 1) == 2 && env.private && fuel > 0
    ensures Exec(BODY, o, env, fuel).Returned? && Exec(BODY, o, env, fuel).v == W(6)
  {
    var o1, o2, o5 := OwnValues(o, env);
    hide Eval;
    var first := Do(Stmt.Block([ExprStmt(SET_ONE), ExprStmt(COPY)]), AGAIN, BRK, CONT);
    ExecTwo(ExprStmt(SET_ONE), ExprStmt(COPY), o, env, fuel);
    assert Exec(first.loop, o, env, fuel) == Normal(o2);
    assert Exec(first, o, env, fuel) == DoTurns(first, o, env, fuel) == Normal(o2);
    ExecTwo(first, Return(Some(SUM)), o, env, fuel);
  }

  lemma ExecTwo(a: Stmt, b: Stmt, o: State, env: Env, fuel: nat)
    ensures var x := Exec(a, o, env, fuel);
      Exec(Stmt.Block([a, b]), o, env, fuel) == if x.Normal? then Exec(b, x.st, env, fuel) else x
  {
    ExecBlock([a, b], o, env, fuel);
    hide Exec;
    SeqFirst([a, b], o, env, fuel);
    assert [a, b][1..] == [b] && [b][1..] == [];
    var x := Exec(a, o, env, fuel);
    if x.Normal? { SeqFirst([b], x.st, env, fuel); }
  }

  lemma ExecBlock(body: seq<Stmt>, o: State, env: Env, fuel: nat)
    ensures Exec(Stmt.Block(body), o, env, fuel) == ExecSeq(body, o, env, fuel)
  {
    hide ExecSeq;
  }

  lemma SeqFirst(body: seq<Stmt>, o: State, env: Env, fuel: nat)
    requires body != []
    ensures var x := Exec(body[0], o, env, fuel);
      ExecSeq(body, o, env, fuel) == if x.Normal? then ExecSeq(body[1..], x.st, env, fuel) else x
    ensures forall st :: ExecSeq([], st, env, fuel) == Normal(st)
  {
    hide Exec;
  }

  lemma SevenSteps(c: Conf, env: Env)
    ensures ItemRun(c, ITEMS, env, 7)
      == ItemStep(ItemStep(ItemStep(ItemStep(ItemStep(ItemStep(ItemStep(c, ITEMS, env), ITEMS, env), ITEMS, env), ITEMS, env), ITEMS, env), ITEMS, env), ITEMS, env)
  {
    hide ItemStep;
  }
}
