// Assigning registers to a built function.
module Coloring {
  import opened Words
  import opened Memory
  import opened Ir
  import opened M68k
  import opened Items
  import opened Optimize
  import opened Liveness
  import opened RegAlloc
  import opened Sharing
  import opened ExactSharing
  import opened EventOrder
  import opened Promotion
  import opened PromotedRuns

  // ---- what each assignment establishes ---------------------------------------------------------

  // No two variables share a register.
  ghost predicate AllApart(reg: seq<Reg>) { forall i: nat, j: nat | i != j :: LocOf(i, reg) != LocOf(j, reg) }

  lemma SelectedApart(cands: seq<Cand>, order: seq<nat>, reg: seq<Reg>)
    requires Ranked(cands, order) && Selected(order, reg) && |reg| == |cands|
    ensures AllApart(reg)
  {
    PoolAscends();
    RankedRange(cands, order);
    forall i: nat, j: nat | i != j ensures LocOf(i, reg) != LocOf(j, reg) {
      if i < |reg| && j < |reg| && reg[i] != 0 && reg[j] != 0 {
        assert i in order && j in order;
        var k: nat :| k < |order| && order[k] == i;
        var l: nat :| l < |order| && order[l] == j;
        assert reg[order[k]] == Pool(k) && reg[order[l]] == Pool(l);
      }
    }
  }

  // The built blocks suit the allocator, whatever the optimizer left in them.
  lemma BuiltBlocks(before: seq<Item>, after: seq<Item>, blocks: seq<Block>)
    requires Built(before, after, blocks)
    ensures GoodBlocks(after, blocks)
  {
    hide IsCfg, Reachable;
    if after == before && IsCfg(before, blocks) {
      CfgBlocks(before, after, blocks);
    } else {
      var folded, cut, live :| Optimized(before, after, folded, cut, live, blocks);
      CfgBlocks(cut, after, blocks);
    }
  }

  lemma CfgBlocks(cut: seq<Item>, after: seq<Item>, blocks: seq<Block>)
    requires IsCfg(cut, blocks) && |after| == |cut|
    ensures GoodBlocks(after, blocks)
  {
    hide Leader, Edges;
    EdgesInRange(cut, blocks);
    forall b, k | 0 <= b < |blocks| && 0 <= k < |blocks[b].succ| ensures blocks[b].succ[k] < |blocks| {
      assert blocks[b].succ[k] in blocks[b].succ;
    }
  }

  // Only variables used in a loop whose address is not taken leave memory.
  ghost predicate OnlyColorable(cands: seq<Cand>, reg: seq<Reg>) {
    |reg| == |cands| && forall c: nat | c < |cands| && reg[c] != 0 :: cands[c].loopUses >= 1 && !cands[c].addrTaken
  }

  // A candidate ahead of c - used more, or as much and declared earlier - holds r.
  ghost predicate TakenAhead(cands: seq<Cand>, reg: seq<Reg>, c: nat, r: Reg)
    requires c < |cands| == |reg|
  {
    exists d: nat ::
      d < |cands| && reg[d] == r
      && (cands[d].uses > cands[c].uses || (cands[d].uses == cands[c].uses && d < c))
  }

  // And one that conflicts with c.
  ghost predicate DeniedAhead(cands: seq<Cand>, reg: seq<Reg>, c: nat, r: Reg, evs: seq<seq<RaEv>>, ins: seq<set<nat>>,
                              outs: seq<set<nat>>)
    requires c < |cands| == |reg| && |evs| == |ins| == |outs|
  {
    exists d: nat ::
      d < |cands| && reg[d] == r && Conflict(evs, ins, outs, c, d)
      && (cands[d].uses > cands[c].uses || (cands[d].uses == cands[c].uses && d < c))
  }

  // ir_color_regs: nothing, colouring by liveness, or the most used candidates in turn. Each
  // variable that may leave memory gets the lowest register it can.
  method ColorRegs(ra: RegAllocator, regalloc: bool, byLiveness: bool)
    returns (hi: nat, ghost ins: seq<set<nat>>, ghost outs: seq<set<nat>>)
    requires ra.Sized() && GoodBlocks(ra.items, ra.blocks) && forall i | 0 <= i < |ra.cands| :: ra.reg[i] == 0
    modifies ra.conf, ra.reg, ra`ev
    ensures forall c | 0 <= c < |ra.cands| && ra.reg[c] != 0 :: ra.cands[c].loopUses >= 1 && !ra.cands[c].addrTaken
    ensures !regalloc ==> hi == 0 && forall c | 0 <= c < |ra.cands| :: ra.reg[c] == 0
    ensures regalloc && byLiveness ==>
      |ra.AllEvents()| == |ins| == |outs| && Solved(ra.blocks, ra.AllEvents(), ins, outs)
      && NoClash(ra.AllEvents(), ins, outs, ra.reg[..])
      && forall c: nat, r: Reg | c < |ra.cands| && ra.cands[c].loopUses >= 1 && !ra.cands[c].addrTaken
                                 && r != 0 && (ra.reg[c] == 0 || r < ra.reg[c]) ::
           DeniedAhead(ra.cands, ra.reg[..], c, r, ra.AllEvents(), ins, outs)
    ensures !regalloc || !byLiveness ==> AllApart(ra.reg[..])
    ensures regalloc && !byLiveness ==>
      forall c: nat, r: Reg | c < |ra.cands| && ra.cands[c].loopUses >= 1 && !ra.cands[c].addrTaken
                              && r != 0 && (ra.reg[c] == 0 || r < ra.reg[c]) :: TakenAhead(ra.cands, ra.reg[..], c, r)
    ensures forall c | 0 <= c < |ra.cands| && ra.reg[c] <= 7 :: ra.reg[c] <= hi
    ensures hi == 0 || exists c :: 0 <= c < |ra.cands| && ra.reg[c] == hi && 2 <= ra.reg[c] <= 7
    ensures OnlyColorable(ra.cands, ra.reg[..])
  {
    hide Solved, Conflict, Ranked, Colored, Selected, NoClash, AllApart, Highest, DeniedAhead, TakenAhead;
    ins, outs := [], [];
    if !regalloc {
      hi := 0;
      NothingColored(ra.cands, ra.reg[..]);
    } else if byLiveness {
      ghost var chosen;
      hi, chosen, ins, outs := ra.ColorGlobal();
      SolvedSizes(ra.blocks, ra.AllEvents(), ins, outs);
      assert forall x: nat, y: nat | x < |ra.cands| && y < |ra.cands| ::
          y in ra.conf[..][x] <==> ra.Interfere(x, y);
      ColoredNoClash(ra.cands, chosen, ra.conf[..], ra.reg[..], ra.AllEvents(), ins, outs);
      ColoredOnly(ra.cands, chosen, ra.conf[..], ra.reg[..]);
      ColoredLowest(ra.cands, chosen, ra.conf[..], ra.reg[..], ra.AllEvents(), ins, outs);
    } else {
      ghost var order := RankedOrder(ra.cands);
      hi := ra.SelectByUse(order);
      SelectedApart(ra.cands, order, ra.reg[..]);
      SelectedOnly(ra.cands, order, ra.reg[..]);
      SelectedLowest(ra.cands, order, ra.reg[..]);
    }
    ghost var reg := ra.reg[..];
    HighestIs(reg);
    assert forall c | 0 <= c < |ra.cands| :: ra.reg[c] == reg[c];
  }

  lemma ColoredLowest(cands: seq<Cand>, order: seq<nat>, conf: seq<set<nat>>, reg: seq<Reg>, evs: seq<seq<RaEv>>,
                      ins: seq<set<nat>>, outs: seq<set<nat>>)
    requires Ranked(cands, order) && Colored(order, conf, reg) && |reg| == |cands| == |conf| && |evs| == |ins| == |outs|
    requires forall x: nat, y: nat | x < |cands| && y < |cands| :: y in conf[x] <==> Conflict(evs, ins, outs, x, y)
    ensures forall c: nat, r: Reg | c < |cands| && cands[c].loopUses >= 1 && !cands[c].addrTaken
                                    && r != 0 && (reg[c] == 0 || r < reg[c]) :: DeniedAhead(cands, reg, c, r, evs, ins, outs)
  {
    hide Ranked, Colored, Conflict;
    forall c: nat, r: Reg | c < |cands| && cands[c].loopUses >= 1 && !cands[c].addrTaken
                            && r != 0 && (reg[c] == 0 || r < reg[c])
      ensures DeniedAhead(cands, reg, c, r, evs, ins, outs)
    {
      MemoryWhenFull(cands, order, conf, reg, c, r);
    }
  }

  lemma SelectedLowest(cands: seq<Cand>, order: seq<nat>, reg: seq<Reg>)
    requires Ranked(cands, order) && Selected(order, reg) && |reg| == |cands|
    ensures forall c: nat, r: Reg | c < |cands| && cands[c].loopUses >= 1 && !cands[c].addrTaken
                                    && r != 0 && (reg[c] == 0 || r < reg[c]) :: TakenAhead(cands, reg, c, r)
  {
    hide Ranked, Selected;
    forall c: nat, r: Reg | c < |cands| && cands[c].loopUses >= 1 && !cands[c].addrTaken
                            && r != 0 && (reg[c] == 0 || r < reg[c])
      ensures TakenAhead(cands, reg, c, r)
    {
      SelectedInTurn(cands, order, reg, c, r);
    }
  }

  lemma NothingColored(cands: seq<Cand>, reg: seq<Reg>)
    requires |reg| == |cands| && forall i | 0 <= i < |reg| :: reg[i] == 0
    ensures AllApart(reg) && OnlyColorable(cands, reg) && Highest(reg) == 0
  {
    NoHighest(reg);
  }

  lemma ColoredOnly(cands: seq<Cand>, order: seq<nat>, conf: seq<set<nat>>, reg: seq<Reg>)
    requires Ranked(cands, order) && Colored(order, conf, reg) && |reg| == |cands|
    ensures OnlyColorable(cands, reg)
  {
    hide FirstFree;
    assert order[..|order|] == order;
  }

  lemma SelectedOnly(cands: seq<Cand>, order: seq<nat>, reg: seq<Reg>)
    requires Ranked(cands, order) && Selected(order, reg) && |reg| == |cands|
    ensures OnlyColorable(cands, reg)
  {}

  // Candidates can be ranked.
  lemma RankedOrder(cands: seq<Cand>) returns (order: seq<nat>)
    ensures Ranked(cands, order)
  {
    var all := set i: nat | i < |cands| && Colorable(cands[i]);
    order := RankedFrom(cands, all);
    forall k | 0 <= k < |order| ensures order[k] < |cands| && Colorable(cands[order[k]]) { assert order[k] in all; }
  }

  lemma {:induction false} RankedFrom(cands: seq<Cand>, rest: set<nat>) returns (order: seq<nat>)
    requires forall i | i in rest :: i < |cands|
    ensures forall i: nat :: i in order <==> i in rest
    ensures forall k | 0 <= k < |order| :: order[k] < |cands|
    ensures forall k, l | 0 <= k < l < |order| :: Ahead(cands, order[k], order[l])
    decreases |rest|
  {
    if rest == {} {
      order := [];
    } else {
      var first := MostAhead(cands, rest);
      var more := RankedFrom(cands, rest - {first});
      order := [first] + more;
      forall k | 0 <= k < |order| ensures order[k] < |cands| {}
      forall k, l | 0 <= k < l < |order| ensures Ahead(cands, order[k], order[l]) {
        assert order[l] == more[l - 1] && more[l - 1] in more;
      }
    }
  }

  lemma {:induction false} MostAhead(cands: seq<Cand>, rest: set<nat>) returns (first: nat)
    requires rest != {} && forall i | i in rest :: i < |cands|
    ensures first in rest && forall i | i in rest && i != first :: Ahead(cands, first, i)
    decreases |rest|
  {
    var i :| i in rest;
    first := i;
    var others := rest - {i};
    if others != {} {
      var best := MostAhead(cands, others);
      if Ahead(cands, best, i) { first := best; }
      forall j | j in rest && j != first ensures Ahead(cands, first, j) {
        if j != i && j != best { assert j in others; }
      }
    } else {
      assert rest == {i};
    }
  }

  // ---- the listed events stand for the performed ones -----------------------------------------------

  // The events the allocator lists in each block.
  function ListedIn(items: seq<Item>, blocks: seq<Block>, cands: seq<Cand>): (r: seq<seq<RaEv>>)
    ensures |r| == |blocks|
    ensures forall b: nat | b < |blocks| && blocks[b].start <= blocks[b].end <= |items| ::
              r[b] == EventsFrom(items, blocks[b].start, blocks[b].end, cands)
  {
    seq(|blocks|, b requires 0 <= b < |blocks| =>
      if blocks[b].start <= blocks[b].end <= |items| then EventsFrom(items, blocks[b].start, blocks[b].end, cands) else [])
  }

  lemma ListedAre(ra: RegAllocator)
    requires GoodBlocks(ra.items, ra.blocks)
    ensures ra.AllEvents() == ListedIn(ra.items, ra.blocks, ra.cands)
  {}

  ghost predicate AllListedOk(items: seq<Item>, cands: seq<Cand>, env: Env) {
    forall i | 0 <= i < |items| :: ItemListedOk(items[i], cands, env.leftFirst)
  }

  lemma ListedMild(items: seq<Item>, blocks: seq<Block>, cands: seq<Cand>, env: Env)
    requires forall b: nat | b < |blocks| :: blocks[b].start <= blocks[b].end <= |items|
    requires AllListedOk(items, cands, env)
    ensures MildAll(Performed(items, blocks, cands, env), ListedIn(items, blocks, cands))
  {
    hide Milder, ItemListedOk;
    forall b: nat | b < |blocks|
      ensures Milder(Performed(items, blocks, cands, env)[b], ListedIn(items, blocks, cands)[b])
    {
      RunFromMilder(items, blocks[b].start, blocks[b].end, cands, env.leftFirst);
    }
  }

  // Milder events live and clobber no more: their live sets are the listed ones.
  lemma MildSolved(blocks: seq<Block>, evs: seq<seq<RaEv>>, runs: seq<seq<RaEv>>, ins: seq<set<nat>>, outs: seq<set<nat>>, n: nat)
    requires Solved(blocks, evs, ins, outs) && MildAll(runs, evs)
    requires forall b: nat | b < |runs| :: InRange(runs[b], n)
    ensures Solved(blocks, runs, ins, outs)
  {
    hide Solved, Milder, LiveIn, Before, Exposes, Kills, InRange;
    SolvedSizes(blocks, evs, ins, outs);
    var pins, pouts := SolutionExists(blocks, runs, n);
    SolvedSizes(blocks, runs, pins, pouts);
    MildIncludes(blocks, evs, runs, ins, outs);
    forall b: nat | b < |evs| ensures Before(evs[b], pouts[b]) == Before(runs[b], pouts[b]) {
      MildBefore(runs[b], evs[b], pouts[b]);
    }
    SameIncludes(blocks, runs, evs, pins, pouts);
    SolvedIns(blocks, runs, pins, pouts);
    SameSolution(blocks, evs, runs, ins, outs);
  }

  lemma SolvedIns(blocks: seq<Block>, evs: seq<seq<RaEv>>, ins: seq<set<nat>>, outs: seq<set<nat>>)
    requires Solved(blocks, evs, ins, outs)
    ensures forall b: nat, c: nat | b < |blocks| :: c in ins[b] <==> LiveIn(blocks, evs, b, c)
  {
    hide LiveIn;
  }

  // What lives in the milder events is in a listed solution.
  lemma MildIncludes(blocks: seq<Block>, evs: seq<seq<RaEv>>, runs: seq<seq<RaEv>>, ins: seq<set<nat>>, outs: seq<set<nat>>)
    requires Solved(blocks, evs, ins, outs) && MildAll(runs, evs)
    ensures |runs| == |ins| == |blocks| && forall b: nat, c: nat | b < |blocks| && LiveIn(blocks, runs, b, c) :: c in ins[b]
  {
    hide Solved, Milder, LiveIn, Before;
    SolvedSizes(blocks, evs, ins, outs);
    forall b: nat | b < |runs| ensures Before(runs[b], outs[b]) == Before(evs[b], outs[b]) {
      MildBefore(runs[b], evs[b], outs[b]);
    }
    SameIncludes(blocks, evs, runs, ins, outs);
  }

  // With the transfer of the events a solution is for, other events live no more.
  lemma SameIncludes(blocks: seq<Block>, evs: seq<seq<RaEv>>, runs: seq<seq<RaEv>>, ins: seq<set<nat>>, outs: seq<set<nat>>)
    requires Solved(blocks, evs, ins, outs) && |runs| == |evs| == |outs|
    requires forall b: nat | b < |runs| :: Before(runs[b], outs[b]) == Before(evs[b], outs[b])
    ensures |ins| == |blocks| && forall b: nat, c: nat | b < |blocks| && LiveIn(blocks, runs, b, c) :: c in ins[b]
  {
    hide Solved, Before, Exposes, Kills;
    SolvedSizes(blocks, evs, ins, outs);
    forall b, c | 0 <= b < |blocks| && Exposes(runs[b], c) ensures c in ins[b] {
      BeforeIs(runs[b], outs[b], c);
      SolvedBefore(blocks, evs, ins, outs, b);
    }
    forall b, s: nat, c | 0 <= b < |blocks| && s in blocks[b].succ && s < |blocks| && c in ins[s] && !Kills(runs[b], c)
      ensures c in ins[b]
    {
      EntersOut(blocks, evs, ins, outs, b, s);
      BeforeIs(runs[b], outs[b], c);
      SolvedBefore(blocks, evs, ins, outs, b);
    }
    assert Closed(blocks, runs, ins);
    forall b: nat, c: nat | b < |blocks| && LiveIn(blocks, runs, b, c) ensures c in ins[b] {
      LiveIsIn(blocks, runs, ins, b, c);
    }
  }

  lemma SameSolution(blocks: seq<Block>, evs: seq<seq<RaEv>>, runs: seq<seq<RaEv>>, ins: seq<set<nat>>, outs: seq<set<nat>>)
    requires Solved(blocks, evs, ins, outs) && |runs| == |blocks|
    requires forall b: nat, c: nat | b < |blocks| && LiveIn(blocks, runs, b, c) :: c in ins[b]
    requires forall b: nat, c: nat | b < |blocks| && LiveIn(blocks, evs, b, c) :: LiveIn(blocks, runs, b, c)
    ensures Solved(blocks, runs, ins, outs)
  {
    hide LiveIn;
  }

  lemma MildEnough(blocks: seq<Block>, evs: seq<seq<RaEv>>, runs: seq<seq<RaEv>>, ins: seq<set<nat>>, outs: seq<set<nat>>, n: nat)
    requires Solved(blocks, evs, ins, outs) && MildAll(runs, evs)
    requires forall b: nat | b < |runs| :: InRange(runs[b], n)
    ensures |ins| == |outs| == |runs| == |blocks| == |evs| && Solved(blocks, runs, ins, outs)
    ensures forall i: nat, j: nat | Meets(blocks, runs, ins, outs, i, j) :: Conflict(evs, ins, outs, i, j)
  {
    hide Solved, Clobbers, Before, InRange, Reachable;
    SolvedSizes(blocks, evs, ins, outs);
    MildSolved(blocks, evs, runs, ins, outs, n);
  }

  // The listed conflicts hold every pair of variables that meets as the code performs events.
  ghost predicate ListedEnough(items: seq<Item>, blocks: seq<Block>, ins: seq<set<nat>>, outs: seq<set<nat>>,
                               pins: seq<set<nat>>, pouts: seq<set<nat>>, cands: seq<Cand>, env: Env)
    requires |ins| == |outs| == |pins| == |pouts| == |blocks|
  {
    forall i: nat, j: nat | Meets(blocks, Performed(items, blocks, cands, env), pins, pouts, i, j) ::
      Conflict(ListedIn(items, blocks, cands), ins, outs, i, j)
  }

  // Where right operands only use candidates that left ones do not define, they do.
  lemma ListedOkEnough(items: seq<Item>, blocks: seq<Block>, ins: seq<set<nat>>, outs: seq<set<nat>>, cands: seq<Cand>, env: Env)
    requires forall b: nat | b < |blocks| :: blocks[b].start <= blocks[b].end <= |items|
    requires AllListedOk(items, cands, env) && Solved(blocks, ListedIn(items, blocks, cands), ins, outs)
    ensures |ins| == |outs| == |blocks|
    ensures Solved(blocks, Performed(items, blocks, cands, env), ins, outs)
    ensures ListedEnough(items, blocks, ins, outs, ins, outs, cands, env)
  {
    hide Solved, AllListedOk, Meets, Conflict, MildAll;
    var runs := Performed(items, blocks, cands, env);
    ListedMild(items, blocks, cands, env);
    MildEnough(blocks, ListedIn(items, blocks, cands), runs, ins, outs, |cands|);
  }

  // An assignment without clashes then keeps apart what meets as the code performs events.
  lemma ListedKept(items: seq<Item>, blocks: seq<Block>, ins: seq<set<nat>>, outs: seq<set<nat>>,
                   pins: seq<set<nat>>, pouts: seq<set<nat>>, cands: seq<Cand>, env: Env, reg: seq<Reg>)
    requires |ins| == |outs| == |pins| == |pouts| == |blocks|
    requires NoClash(ListedIn(items, blocks, cands), ins, outs, reg)
    requires ListedEnough(items, blocks, ins, outs, pins, pouts, cands, env)
    ensures AllKeptApart(blocks, Performed(items, blocks, cands, env), pins, pouts, reg)
  {
    hide NoClash, Meets, Conflict, LocOf;
    var evs, runs := ListedIn(items, blocks, cands), Performed(items, blocks, cands, env);
    forall i: nat, j: nat | Meets(blocks, runs, pins, pouts, i, j) ensures LocOf(i, reg) != LocOf(j, reg) {
      ClashDiffers(evs, ins, outs, reg, i, j);
    }
  }

  // So colouring by liveness keeps every run where the listed conflicts are enough.
  lemma ColoredRuns(items: seq<Item>, blocks: seq<Block>, ins: seq<set<nat>>, outs: seq<set<nat>>,
                    pins: seq<set<nat>>, pouts: seq<set<nat>>, env: Env,
                    cands: seq<Cand>, reg: seq<Reg>, t: State, o: State, n: nat)
    requires FlowsIn(items, blocks) && Tied(env, cands, reg) && AllTempsApart(items, reg)
    requires var evs := ListedIn(items, blocks, cands); Solved(blocks, evs, ins, outs) && NoClash(evs, ins, outs, reg)
    requires var runs := Performed(items, blocks, cands, env);
      Solved(blocks, runs, pins, pouts) && Entered(t, o, blocks, runs, cands, reg)
    requires ListedEnough(items, blocks, ins, outs, pins, pouts, cands, env)
    ensures RunsApart(items, blocks, cands, env, reg)
    ensures SameConf(ItemRun(AtItem(0, t), items, env, n), ItemRun(AtItem(0, o), items, Own(env), n))
  {
    hide Solved, NoClash, Entered, Tied, AllTempsApart, ListedEnough, AllKeptApart;
    SolvedSizes(blocks, ListedIn(items, blocks, cands), ins, outs);
    SolvedSizes(blocks, Performed(items, blocks, cands, env), pins, pouts);
    ListedKept(items, blocks, ins, outs, pins, pouts, cands, env, reg);
    PromotionOk(items, blocks, env, cands, reg, t, o, n);
  }

  // An assignment without clashes is right where every operand order is harmless.
  lemma ListedApart(items: seq<Item>, blocks: seq<Block>, ins: seq<set<nat>>, outs: seq<set<nat>>, cands: seq<Cand>,
                    env: Env, reg: seq<Reg>)
    requires forall b: nat | b < |blocks| :: blocks[b].start <= blocks[b].end <= |items|
    requires AllListedOk(items, cands, env)
    requires var evs := ListedIn(items, blocks, cands); Solved(blocks, evs, ins, outs) && NoClash(evs, ins, outs, reg)
    ensures RunsApart(items, blocks, cands, env, reg)
  {
    hide Solved, NoClash, AllListedOk, ListedEnough, AllKeptApart;
    ListedOkEnough(items, blocks, ins, outs, cands, env);
    ListedKept(items, blocks, ins, outs, ins, outs, cands, env, reg);
  }

  // ---- registers of their own ------------------------------------------------------------------------

  ghost function LiveSet(blocks: seq<Block>, evs: seq<seq<RaEv>>, b: nat, n: nat): set<nat> {
    set c | 0 <= c < n && LiveIn(blocks, evs, b, c)
  }

  ghost function LiveOut(blocks: seq<Block>, ins: seq<set<nat>>, b: nat, n: nat): set<nat>
    requires b < |blocks| && |ins| == |blocks|
  {
    set c | 0 <= c < n && InSome(blocks, ins, b, c)
  }

  ghost predicate InSome(blocks: seq<Block>, ins: seq<set<nat>>, b: nat, c: nat)
    requires b < |blocks| && |ins| == |blocks|
  {
    exists s: nat :: s in blocks[b].succ && s < |blocks| && c in ins[s]
  }

  // Events have a solution.
  lemma SolutionExists(blocks: seq<Block>, evs: seq<seq<RaEv>>, n: nat) returns (ins: seq<set<nat>>, outs: seq<set<nat>>)
    requires |evs| == |blocks| && forall b: nat | b < |evs| :: InRange(evs[b], n)
    ensures Solved(blocks, evs, ins, outs)
  {
    hide LiveIn;
    ins := seq(|blocks|, b requires 0 <= b < |blocks| => LiveSet(blocks, evs, b, n));
    outs := seq(|blocks|, b requires 0 <= b < |blocks| => LiveOut(blocks, ins, b, n));
    forall b: nat, c: nat | b < |blocks| && LiveIn(blocks, evs, b, c) ensures c < n { LiveRange(blocks, evs, b, c, n); }
  }

  lemma LiveRange(blocks: seq<Block>, evs: seq<seq<RaEv>>, b: nat, c: nat, n: nat)
    requires |evs| == |blocks| && (forall b: nat | b < |evs| :: InRange(evs[b], n)) && LiveIn(blocks, evs, b, c)
    ensures c < n
  {
    var path :| LivePath(blocks, evs, path, c) && path[0] == b;
    var last := evs[path[|path| - 1]];
    var k :| 0 <= k < |last| && last[k] == RaEv(c, Use) && RaEv(c, MustDef) !in last[..k];
    assert last[k] in last;
  }

  // With a register of its own for every promoted variable, in whatever order events
  // are performed or listed.
  lemma ApartRuns(items: seq<Item>, blocks: seq<Block>, env: Env, cands: seq<Cand>, reg: seq<Reg>, t: State, o: State, n: nat)
    requires FlowsIn(items, blocks) && Tied(env, cands, reg) && AllTempsApart(items, reg) && AllApart(reg)
    requires Entered(t, o, blocks, Performed(items, blocks, cands, env), cands, reg)
    ensures RunsApart(items, blocks, cands, env, reg)
    ensures SameConf(ItemRun(AtItem(0, t), items, env, n), ItemRun(AtItem(0, o), items, Own(env), n))
  {
    hide Entered, Tied, AllTempsApart, AllApart, RunsApart, LocOf;
    OwnApart(items, blocks, cands, env, reg);
    PromotionOk(items, blocks, env, cands, reg, t, o, n);
  }

  lemma OwnApart(items: seq<Item>, blocks: seq<Block>, cands: seq<Cand>, env: Env, reg: seq<Reg>)
    requires AllApart(reg)
    ensures RunsApart(items, blocks, cands, env, reg)
  {
    hide Solved, AllApart, AllKeptApart, RunFrom;
    var runs := Performed(items, blocks, cands, env);
    var ins, outs := SolutionExists(blocks, runs, |cands|);
    SolvedSizes(blocks, runs, ins, outs);
    AllKept(blocks, runs, ins, outs, reg);
  }

  lemma AllKept(blocks: seq<Block>, runs: seq<seq<RaEv>>, ins: seq<set<nat>>, outs: seq<set<nat>>, reg: seq<Reg>)
    requires |blocks| == |runs| == |ins| == |outs| && AllApart(reg)
    ensures AllKeptApart(blocks, runs, ins, outs, reg)
  {
    hide Clobbers, Reachable, LocOf;
  }
}
