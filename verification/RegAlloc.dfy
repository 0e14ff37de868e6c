// The register allocator.
module RegAlloc {
  import opened Words
  import opened Ir
  import opened M68k
  import opened Items
  import opened Liveness

  const POOL: seq<Reg> := [2, 3, 4, 5, 6, 7, 10, 11, 12, 13]

  // i comes before j: more uses, ties in declaration order.
  predicate Ahead(cands: seq<Cand>, i: nat, j: nat)
    requires i < |cands| && j < |cands|
  {
    cands[i].uses > cands[j].uses || (cands[i].uses == cands[j].uses && i < j)
  }

  // The colourable candidates, in priority order.
  ghost predicate Ranked(cands: seq<Cand>, order: seq<nat>) {
    && (forall k | 0 <= k < |order| :: order[k] < |cands| && Colorable(cands[order[k]]))
    && (forall i: nat | i < |cands| && Colorable(cands[i]) :: i in order)
    && (forall k, l | 0 <= k < l < |order| :: Ahead(cands, order[k], order[l]))
  }

  ghost predicate Listed(cands: seq<Cand>, order: seq<nat>) {
    && (forall k | 0 <= k < |order| :: order[k] < |cands| && Colorable(cands[order[k]]))
    && (forall i: nat | i < |cands| && Colorable(cands[i]) :: i in order)
  }

  // One of `earlier` that conflicts with c holds register r.
  ghost predicate Held(earlier: seq<nat>, c: nat, conf: seq<set<nat>>, reg: seq<Reg>, r: Reg)
    requires c < |conf| && Fits(earlier, |reg|)
  {
    exists m :: 0 <= m < |earlier| && reg[earlier[m]] == r && earlier[m] in conf[c]
  }

  function Pool(p: nat): Reg { if p < |POOL| then POOL[p] else 0 }

  // Conflicting earlier candidates hold the first p pool registers but not the next.
  ghost predicate FreeAt(earlier: seq<nat>, c: nat, conf: seq<set<nat>>, reg: seq<Reg>, p: nat)
    requires c < |conf| && Fits(earlier, |reg|)
  {
    && p <= |POOL|
    && (forall q | 0 <= q < p :: Held(earlier, c, conf, reg, POOL[q]))
    && (p < |POOL| ==> !Held(earlier, c, conf, reg, POOL[p]))
  }

  // Candidate order[k] has the first pool register that no earlier conflicting
  // candidate holds, or none when those hold all ten.
  ghost predicate FirstFree(order: seq<nat>, k: nat, conf: seq<set<nat>>, reg: seq<Reg>)
    requires k < |order| && |conf| == |reg| && Fits(order, |reg|)
  {
    exists p :: FreeAt(order[..k], order[k], conf, reg, p) && reg[order[k]] == Pool(p)
  }

  // The first k candidates of the order are coloured, the others are in memory.
  ghost predicate ColoredTo(order: seq<nat>, k: nat, conf: seq<set<nat>>, reg: seq<Reg>) {
    && |conf| == |reg| && Fits(order, |reg|) && k <= |order|
    && (forall i, j | 0 <= i < j < |order| :: order[i] != order[j])
    && (forall i | 0 <= i < k :: FirstFree(order, i, conf, reg))
    && (forall i: nat | i < |reg| && i !in order[..k] :: reg[i] == 0)
  }

  ghost predicate Colored(order: seq<nat>, conf: seq<set<nat>>, reg: seq<Reg>) {
    ColoredTo(order, |order|, conf, reg)
  }

  // The k-th candidate has the k-th pool register.
  ghost predicate SelectedTo(order: seq<nat>, k: nat, reg: seq<Reg>) {
    && Fits(order, |reg|)
    && (forall i | 0 <= i < |order| :: reg[order[i]] == if i < k then Pool(i) else 0)
    && (forall i: nat | i < |reg| && i !in order :: reg[i] == 0)
  }

  ghost predicate Selected(order: seq<nat>, reg: seq<Reg>) { SelectedTo(order, |POOL|, reg) }

  // `best` comes first among the colourable candidates without a register.
  ghost predicate Best(cands: seq<Cand>, reg: seq<Reg>, best: int)
    requires |reg| == |cands|
  {
    && -1 <= best < |cands|
    && (best >= 0 ==> reg[best] == 0 && Colorable(cands[best]))
    && forall c: nat | c < |cands| && reg[c] == 0 && Colorable(cands[c]) ::
         best >= 0 && (c == best || Ahead(cands, best, c))
  }

  // Highest data register in use, or 0.
  function Highest(reg: seq<Reg>): nat {
    if reg == [] then 0
    else
      var h := Highest(reg[1..]);
      if 2 <= reg[0] <= 7 && reg[0] > h then reg[0] else h
  }

  ghost predicate GoodBlocks(items: seq<Item>, blocks: seq<Block>) {
    && (forall b | 0 <= b < |blocks| :: blocks[b].start <= blocks[b].end <= |items|)
    && (forall b | 0 <= b < |blocks| :: Fits(blocks[b].succ, |blocks|))
  }

  class RegAllocator {
    const items: seq<Item>
    const blocks: seq<Block>
    const cands: seq<Cand>
    var ev: seq<RaEv>
    const conf: array<set<nat>>
    const reg: array<Reg>

    // ir_prep_regs leaves every register field 0.
    constructor (items: seq<Item>, blocks: seq<Block>, cands: seq<Cand>)
      ensures this.items == items && this.blocks == blocks && this.cands == cands
      ensures Sized() && fresh(conf) && fresh(reg)
      ensures forall i | 0 <= i < |cands| :: reg[i] == 0
    {
      this.items, this.blocks, this.cands := items, blocks, cands;
      ev := [];
      conf := new set<nat>[|cands|](_ => {});
      reg := new Reg[|cands|](_ => 0);
    }

    predicate Sized() { conf.Length == |cands| == reg.Length }

    ghost function BlockEvents(b: nat): (r: seq<RaEv>)
      requires GoodBlocks(items, blocks) && b < |blocks|
      ensures InRange(r, |cands|)
    {
      EventsFrom(items, blocks[b].start, blocks[b].end, cands)
    }

    ghost function AllEvents(): (r: seq<seq<RaEv>>)
      requires GoodBlocks(items, blocks)
      ensures |r| == |blocks| && forall b | 0 <= b < |blocks| :: r[b] == BlockEvents(b)
    {
      seq(|blocks|, b requires 0 <= b < |blocks| => BlockEvents(b))
    }

    // ---- events ---------------------------------------------------------------------

    method EvPush(c: Option<nat>, kind: Kind)
      requires |ev| <= EVENT_CAP
      modifies this`ev
      ensures ev == Capped(old(ev) + EventOf(c, kind))
    {
      if c.Some? && |ev| < EVENT_CAP {
        ev := ev + [RaEv(c.value, kind)];
      }
    }

    method Walk(e: IrExpr, cond: bool)
      requires |ev| <= EVENT_CAP
      modifies this`ev
      ensures ev == Capped(old(ev) + EvWalk(e, cond, cands))
      decreases e, 1
    {
      hide Capped, CandOfLea, CandOfVar, EvArgs, EventOf, DefKind;
      CapBound(ev);
      ghost var was := ev;
      match e {
        case Load(a, _, _) =>
          var c := CandOfLea(a, cands);
          if c.Some? { EvPush(c, Use); } else { Walk(a, cond); }
        case Store(a, b, _) =>
          var c := CandOfLea(a, cands);
          if c.Some? {
            Walk(b, cond);
            CapTwice(was, EvWalk(b, cond, cands), EventOf(c, DefKind(cond)));
            EvPush(c, DefKind(cond));
          } else {
            WalkTwo(e, a, cond, b, cond);
          }
        case Memzero(v, _, _) => EvPush(CandOfVar(cands, v), DefKind(cond));
        case Cond(a, b, c) =>
          WalkTwo(e, a, cond, b, true);
          CapTwice(was, EvWalk(a, cond, cands) + EvWalk(b, true, cands), EvWalk(c, true, cands));
          Walk(c, true);
        case LogAnd(a, b) => WalkTwo(e, a, cond, b, true);
        case LogOr(a, b) => WalkTwo(e, a, cond, b, true);
        case Vdef(_, a) => Walk(a, cond);
        case CallDirect(_, args) => WalkArgs(args, cond);
        case CallIndirect(a, args) =>
          Walk(a, cond);
          CapTwice(was, EvWalk(a, cond, cands), EvArgs(args, cond, cands));
          WalkArgs(args, cond);
        case Binop(_, _, _, _, a, b) => WalkTwo(e, a, cond, b, cond);
        case Unary(_, _, _, a) => Walk(a, cond);
        case Comma(a, b) => WalkTwo(e, a, cond, b, cond);
        case Cast(_, _, _, _, _, a) => Walk(a, cond);
        case Nop | Num(_, _, _) | Lea(_) | Vuse(_) => assert was + [] == was;
      }
    }

    // The operands of e in turn.
    method WalkTwo(ghost e: IrExpr, a: IrExpr, condA: bool, b: IrExpr, condB: bool)
      requires |ev| <= EVENT_CAP && a < e && b < e
      modifies this`ev
      ensures ev == Capped(old(ev) + (EvWalk(a, condA, cands) + EvWalk(b, condB, cands)))
      decreases e, 0
    {
      hide Capped, EvWalk;
      CapBound(ev);
      CapTwice(ev, EvWalk(a, condA, cands), EvWalk(b, condB, cands));
      CapBound(ev + EvWalk(a, condA, cands));
      Walk(a, condA);
      Walk(b, condB);
    }

    method WalkArgs(args: seq<IrExpr>, cond: bool)
      requires |ev| <= EVENT_CAP
      modifies this`ev
      ensures ev == Capped(old(ev) + EvArgs(args, cond, cands))
      decreases args, 0
    {
      hide Capped, EvArgs, EvWalk;
      CapBound(ev);
      ghost var was := ev;
      NoArgs(cond, cands);
      assert args[..0] == [] && was + [] == was;
      var i := 0;
      while i < |args|
        invariant i <= |args| && |ev| <= EVENT_CAP
        invariant ev == Capped(was + EvArgs(args[..i], cond, cands))
      {
        Walk(args[i], cond);
        CapTwice(was, EvArgs(args[..i], cond, cands), EvWalk(args[i], cond, cands));
        ArgsSnoc(args, i, cond, cands);
        CapBound(was + EvArgs(args[..i + 1], cond, cands));
        i := i + 1;
      }
      assert args[..i] == args;
    }

    method WalkItem(i: nat)
      requires i < |items|
      modifies this`ev
      ensures ev == ItemEvents(items[i], cands)
      ensures var e := ItemExpr(items[i]); var all := if e.None? then [] else EvWalk(e.value, false, cands);
        ev == if |all| > 4096 then all[..4096] else all
    {
      ev := [];
      var e := ItemExpr(items[i]);
      if e.Some? {
        Walk(e.value, false);
        assert [] + EvWalk(e.value, false, cands) == EvWalk(e.value, false, cands);
      }
    }

    // ---- liveness ---------------------------------------------------------------------

    // The upward-exposed uses and must-kills of one block.
    method BlockUseDef(b: nat) returns (use: set<nat>, def: set<nat>)
      requires GoodBlocks(items, blocks) && b < |blocks|
      modifies this`ev
      ensures UseDef(BlockEvents(b), use, def)
    {
      hide UseDef, EventsFrom, ItemEvents;
      use, def := {}, {};
      NoEvents();
      EmptyRange(items, blocks[b].start, cands);
      ghost var seen: seq<RaEv> := [];
      var i := blocks[b].start;
      while i < blocks[b].end
        invariant blocks[b].start <= i <= blocks[b].end
        invariant seen == EventsFrom(items, blocks[b].start, i, cands) && UseDef(seen, use, def)
      {
        WalkItem(i);
        ghost var was := seen;
        var k := 0;
        while k < |ev|
          invariant ev == ItemEvents(items[i], cands)
          invariant k <= |ev| && seen == was + ev[..k] && UseDef(seen, use, def)
        {
          var c := ev[k].ci;
          UseDefStep(seen, use, def, ev[k]);
          if ev[k].kind == Use {
            if c !in def { use := use + {c}; }
          } else if ev[k].kind == MustDef {
            def := def + {c};
          }
          assert ev[..k + 1] == ev[..k] + [ev[k]];
          seen := seen + [ev[k]];
          k := k + 1;
        }
        assert ev[..k] == ev;
        EventsSnoc(items, blocks[b].start, i, cands);
        i := i + 1;
      }
    }

    // One backward sweep over the blocks.
    method Sweep(use: array<set<nat>>, def: array<set<nat>>, ins: array<set<nat>>, outs: array<set<nat>>)
      returns (changed: bool)
      requires GoodBlocks(items, blocks)
      requires use.Length == def.Length == ins.Length == outs.Length == |blocks|
      requires ins != outs && ins != use && ins != def && outs != use && outs != def
      requires UseDefs(AllEvents(), use[..], def[..]) && OnlyLive(blocks, AllEvents(), ins[..])
      modifies ins, outs
      ensures OnlyLive(blocks, AllEvents(), ins[..])
      ensures forall b | 0 <= b < |blocks| :: old(ins[b]) <= ins[b]
      ensures changed <==> ins[..] != old(ins[..])
      ensures !changed ==> forall b | 0 <= b < |blocks| :: Balanced(blocks, use[..], def[..], ins[..], outs[..], b)
    {
      hide UseDefs, OnlyLive, Balanced, BalancedFrom;
      changed := false;
      NoneBalanced(blocks, use[..], def[..], ins[..], outs[..]);
      var b: nat := |blocks|;
      while b > 0
        invariant b <= |blocks| && OnlyLive(blocks, AllEvents(), ins[..])
        invariant use[..] == old(use[..]) && def[..] == old(def[..])
        invariant forall c | 0 <= c < |blocks| :: old(ins[c]) <= ins[c]
        invariant changed <==> ins[..] != old(ins[..])
        invariant !changed ==> BalancedFrom(blocks, use[..], def[..], ins[..], outs[..], b)
      {
        b := b - 1;
        var o := OutOf(b, ins);
        ghost var ins0, outs0 := ins[..], outs[..];
        outs[b] := o;
        var ni := (o - def[b]) + use[b];
        SweepKeepsLive(blocks, AllEvents(), use[..], def[..], ins0, b, ni);
        if !(ni <= ins[b]) {
          changed := true;
          ghost var c :| c in ni && c !in ins[b];
          ins[b] := ins[b] + ni;
          assert ins[..] == ins0[b := ins0[b] + ni];
          assert c !in old(ins[b]) && c in ins[..][b];
        } else {
          assert ins0[b] + ni == ins0[b];
        }
        if !changed {
          assert outs[..] == outs0[b := o];
          SweepBalances(blocks, use[..], def[..], ins[..], outs0, o, b);
        }
      }
      EachBalanced(blocks, use[..], def[..], ins[..], outs[..]);
    }

    method OutOf(b: nat, ins: array<set<nat>>) returns (o: set<nat>)
      requires GoodBlocks(items, blocks) && b < |blocks| && ins.Length == |blocks|
      ensures o == Union(ins[..], blocks[b].succ)
    {
      o := {};
      var s := 0;
      var succ := blocks[b].succ;
      while s < |succ|
        invariant s <= |succ| && o == Union(ins[..], succ[..s])
      {
        assert succ[..s + 1][..s] == succ[..s];
        o := o + ins[succ[s]];
        s := s + 1;
      }
      assert succ[..s] == succ;
    }

    // To the fixpoint: live bits only grow.
    method Solve(use: array<set<nat>>, def: array<set<nat>>, ins: array<set<nat>>, outs: array<set<nat>>)
      requires GoodBlocks(items, blocks)
      requires use.Length == def.Length == ins.Length == outs.Length == |blocks|
      requires ins != outs && ins != use && ins != def && outs != use && outs != def
      requires UseDefs(AllEvents(), use[..], def[..])
      requires forall b | 0 <= b < |blocks| :: ins[b] == {} && outs[b] == {}
      modifies ins, outs
      ensures Solved(blocks, AllEvents(), ins[..], outs[..])
    {
      hide UseDefs, OnlyLive, Balanced, Solved;
      ghost var all := Below(|cands|);
      NothingLive(blocks, AllEvents(), ins[..]);
      var changed := true;
      while changed
        invariant use[..] == old(use[..]) && def[..] == old(def[..])
        invariant OnlyLive(blocks, AllEvents(), ins[..])
        invariant !changed ==> forall b | 0 <= b < |blocks| :: Balanced(blocks, use[..], def[..], ins[..], outs[..], b)
        decreases |blocks| * |all| - Total(ins[..]) + if changed then 1 else 0
      {
        ghost var ins0 := ins[..];
        changed := Sweep(use, def, ins, outs);
        LiveTotal(blocks, AllEvents(), ins[..], |cands|, all);
        TotalGrows(ins0, ins[..]);
      }
      FixpointSolves(blocks, AllEvents(), use[..], def[..], ins[..], outs[..]);
    }

    // ---- interference ------------------------------------------------------------------

    ghost predicate Interfere(i: nat, j: nat)
      requires i < conf.Length
      reads conf
    {
      j in conf[i]
    }

    method ConfAdd(i: nat, j: nat)
      requires i < conf.Length && j < conf.Length
      modifies conf
      ensures forall x: nat, y: nat | x < conf.Length ::
        Interfere(x, y) <==> old(Interfere(x, y)) || (i != j && ((x == i && y == j) || (x == j && y == i)))
    {
      if i != j {
        conf[i] := conf[i] + {j};
        conf[j] := conf[j] + {i};
      }
    }

    // A definition of c clobbers every live candidate.
    method Clobber(c: nat, live: set<nat>)
      requires Sized() && c < |cands|
      modifies conf
      ensures forall x: nat, y: nat | x < |cands| && y < |cands| ::
        Interfere(x, y) <==> old(Interfere(x, y)) || (x != y && ((x == c && y in live) || (y == c && x in live)))
    {
      var j := 0;
      while j < |cands|
        invariant j <= |cands|
        invariant forall x: nat, y: nat | x < |cands| && y < |cands| ::
          Interfere(x, y) <==>
          old(Interfere(x, y)) || (x != y && ((x == c && y < j && y in live) || (y == c && x < j && x in live)))
      {
        if j != c && j in live {
          ConfAdd(c, j);
        }
        j := j + 1;
      }
    }

    // One event, `seen` being the block's later ones.
    method EventConflicts(e: RaEv, live: set<nat>, ghost seen: seq<RaEv>, ghost out: set<nat>) returns (before: set<nat>)
      requires Sized() && e.ci < |cands| && live == Before(seen, out)
      modifies conf
      ensures before == Before([e] + seen, out)
      ensures forall x: nat, y: nat | x < |cands| && y < |cands| && !BothWays(seen, out, x, y) ::
        Interfere(x, y) <==> old(Interfere(x, y)) || BothWays([e] + seen, out, x, y)
      ensures forall x: nat, y: nat | x < |cands| && y < |cands| && BothWays(seen, out, x, y) ::
        BothWays([e] + seen, out, x, y) && (old(Interfere(x, y)) ==> Interfere(x, y))
    {
      hide BothWays, Before;
      ConsClobbers(e, seen, out, |cands|);
      before := live;
      if e.kind == Use {
        before := before + {e.ci};
      } else {
        Clobber(e.ci, live);
        if e.kind == MustDef { before := before - {e.ci}; }
      }
    }

    // Walk one item's events backward over the live set.
    method ItemConflicts(i: nat, live: set<nat>, ghost after: seq<RaEv>, ghost out: set<nat>) returns (before: set<nat>)
      requires Sized() && i < |items| && live == Before(after, out)
      requires forall x: nat, y: nat | x < |cands| && y < |cands| && BothWays(after, out, x, y) :: Interfere(x, y)
      modifies conf, this`ev
      ensures before == Before(ItemEvents(items[i], cands) + after, out)
      ensures forall x: nat, y: nat | x < |cands| && y < |cands| ::
        && (Interfere(x, y) <==> old(Interfere(x, y)) || BothWays(ItemEvents(items[i], cands) + after, out, x, y))
        && (BothWays(after, out, x, y) ==> BothWays(ItemEvents(items[i], cands) + after, out, x, y))
    {
      hide BothWays, ItemEvents, Before;
      WalkItem(i);
      ghost var events, seen := ev, after;
      before := live;
      var k := |ev|;
      assert ev[k..] + after == after;
      while k > 0
        invariant k <= |ev| && ev == events && seen == ev[k..] + after && before == Before(seen, out)
        invariant forall x: nat, y: nat | x < |cands| && y < |cands| ::
          && (Interfere(x, y) <==> old(Interfere(x, y)) || BothWays(seen, out, x, y))
          && (BothWays(after, out, x, y) ==> BothWays(seen, out, x, y))
      {
        k := k - 1;
        assert ev[k] in events;
        before := EventConflicts(ev[k], before, seen, out);
        seen := [ev[k]] + seen;
        assert ev[k..] == [ev[k]] + ev[k + 1..];
      }
      assert ev[k..] == ev;
    }

    // Walk one block backward over its live set.
    method BlockConflicts(b: nat, out: set<nat>)
      requires Sized() && GoodBlocks(items, blocks) && b < |blocks|
      modifies conf, this`ev
      ensures forall x: nat, y: nat | x < |cands| && y < |cands| ::
        Interfere(x, y) <==> old(Interfere(x, y)) || BothWays(BlockEvents(b), out, x, y)
    {
      hide BothWays, EventsFrom, ItemEvents, Before;
      EmptyRange(items, blocks[b].end, cands);
      NoneClobber(out);
      ghost var seen: seq<RaEv> := [];
      var live := out;
      var i := blocks[b].end;
      while i > blocks[b].start
        invariant blocks[b].start <= i <= blocks[b].end
        invariant seen == EventsFrom(items, i, blocks[b].end, cands) && live == Before(seen, out)
        invariant forall x: nat, y: nat | x < |cands| && y < |cands| ::
          Interfere(x, y) <==> old(Interfere(x, y)) || BothWays(seen, out, x, y)
      {
        i := i - 1;
        live := ItemConflicts(i, live, seen, out);
        FromCons(items, i, blocks[b].end, cands);
        seen := ItemEvents(items[i], cands) + seen;
      }
    }

    // Everything live at function entry coexists.
    method EntryConflicts(live: set<nat>)
      requires Sized()
      modifies conf
      ensures forall x: nat, y: nat | x < |cands| && y < |cands| ::
        Interfere(x, y) <==> old(Interfere(x, y)) || (x != y && x in live && y in live)
    {
      var i := 0;
      while i < |cands|
        invariant i <= |cands|
        invariant forall x: nat, y: nat | x < |cands| && y < |cands| ::
          Interfere(x, y) <==> old(Interfere(x, y)) || (x != y && x in live && y in live && (x < i || y < i))
      {
        if i in live {
          var j := i + 1;
          while j < |cands|
            invariant i < j <= |cands|
            invariant forall x: nat, y: nat | x < |cands| && y < |cands| ::
              Interfere(x, y) <==>
              old(Interfere(x, y))
              || (x != y && x in live && y in live && (x < i || y < i || (x == i && y < j) || (y == i && x < j)))
          {
            if j in live { ConfAdd(i, j); }
            j := j + 1;
          }
        }
        i := i + 1;
      }
    }

    // ra_liveness: the interference matrix is exactly the conflict relation of the
    // exact liveness sets.
    method RaLiveness() returns (ghost ins: seq<set<nat>>, ghost outs: seq<set<nat>>)
      requires Sized() && GoodBlocks(items, blocks)
      modifies conf, this`ev
      ensures Solved(blocks, AllEvents(), ins, outs)
      ensures forall x: nat, y: nat | x < |cands| && y < |cands| ::
        Interfere(x, y) <==> Conflict(AllEvents(), ins, outs, x, y)
    {
      hide UseDefs, Solved, BothWays, EventsFrom;
      var n := |blocks|;
      var use := new set<nat>[n](_ => {});
      var def := new set<nat>[n](_ => {});
      var insA := new set<nat>[n](_ => {});
      var outsA := new set<nat>[n](_ => {});
      BlockSets(use, def);
      Solve(use, def, insA, outsA);
      ins, outs := insA[..], outsA[..];
      ClearConf();
      var b := 0;
      while b < n
        invariant b <= n && insA[..] == ins && outsA[..] == outs
        invariant forall x: nat, y: nat | x < |cands| && y < |cands| ::
          Interfere(x, y) <==> exists c: nat :: c < b && BothWays(BlockEvents(c), outs[c], x, y)
      {
        BlockConflicts(b, outsA[b]);
        b := b + 1;
      }
      if n > 0 {
        EntryConflicts(insA[0]);
      }
      ConflictIs(AllEvents(), ins, outs);
    }

    method BlockSets(use: array<set<nat>>, def: array<set<nat>>)
      requires GoodBlocks(items, blocks) && use.Length == def.Length == |blocks| && use != def && use != conf && def != conf
      modifies use, def, this`ev
      ensures UseDefs(AllEvents(), use[..], def[..])
    {
      hide UseDef;
      var b := 0;
      while b < |blocks|
        invariant b <= |blocks|
        invariant forall c | 0 <= c < b :: UseDef(AllEvents()[c], use[c], def[c])
      {
        use[b], def[b] := BlockUseDef(b);
        b := b + 1;
      }
    }

    method ClearConf()
      requires Sized()
      modifies conf
      ensures forall x: nat, y: nat | x < |cands| :: !Interfere(x, y)
    {
      var i := 0;
      while i < |cands|
        invariant i <= |cands| && forall x: nat, y: nat | x < i :: !Interfere(x, y)
      {
        conf[i] := {};
        i := i + 1;
      }
    }

    // ---- colouring ---------------------------------------------------------------------

    // The colourable candidates in declaration order.
    method Collect() returns (order: array<nat>, no: nat)
      ensures fresh(order) && no <= order.Length == |cands| && Listed(cands, order[..no])
      ensures forall k, l | 0 <= k < l < no :: order[k] < order[l]
    {
      order := new nat[|cands|];
      no := 0;
      var i := 0;
      while i < |cands|
        invariant no <= i <= |cands|
        invariant forall k | 0 <= k < no :: order[k] < i && Colorable(cands[order[k]])
        invariant forall c: nat | c < i && Colorable(cands[c]) :: c in order[..no]
        invariant forall k, l | 0 <= k < l < no :: order[k] < order[l]
      {
        if Colorable(cands[i]) {
          ghost var was := order[..no];
          order[no] := i;
          no := no + 1;
          assert order[..no] == was + [i];
        }
        i := i + 1;
      }
    }

    // Move order[a] left past every entry with fewer uses.
    method Insert(order: array<nat>, a: nat) returns (ghost at: nat)
      requires a < order.Length && forall k | 0 <= k <= a :: order[k] < |cands|
      modifies order
      ensures at <= a
      ensures order[..] == MovedTo(old(order[..]), a, at)
      ensures forall k | at <= k < a :: cands[old(order[k])].uses < cands[old(order[a])].uses
      ensures at > 0 ==> cands[old(order[at - 1])].uses >= cands[old(order[a])].uses
    {
      var cur, j: int := order[a], a - 1;
      while j >= 0 && cands[order[j]].uses < cands[cur].uses
        invariant -1 <= j < a
        invariant forall k | 0 <= k <= j || a < k < order.Length :: order[k] == old(order[k])
        invariant forall k | j + 2 <= k <= a :: order[k] == old(order[k - 1])
        invariant forall k | j < k < a :: cands[old(order[k])].uses < cands[cur].uses
      {
        order[j + 1] := order[j];
        j := j - 1;
      }
      order[j + 1] := cur;
      at := j + 1;
      ghost var was := old(order[..]);
      assert forall k | 0 <= k < order.Length :: was[k] == old(order[k]);
      assert forall k | 0 <= k < order.Length :: order[..][k] == MovedTo(was, a, at)[k];
    }

    // Stable insertion sort by uses, descending.
    method Rank() returns (order: array<nat>, no: nat)
      ensures fresh(order) && no <= order.Length == |cands| && Ranked(cands, order[..no])
    {
      hide Listed, Ranked, SortedTo, MovedTo;
      order, no := Collect();
      var a := 1;
      ListedRange(cands, order[..no]);
      ShortSorted(cands, order[..no]);
      while a < no
        invariant no <= order.Length && (a <= no || no == 0)
        invariant Listed(cands, order[..no]) && SortedTo(cands, order[..no], a)
      {
        ghost var all, was := order[..], order[..no];
        ListedRange(cands, was);
        assert forall k | 0 <= k < no :: order[k] == was[k];
        ghost var at := Insert(order, a);
        MovedPrefix(all, no, a, at);
        assert order[..no] == order[..][..no];
        InsertSorted(cands, was, a, at);
        a := a + 1;
      }
      SortedIsRanked(cands, order[..no], a);
    }

    // The first pool register no earlier conflicting candidate holds.
    method Choose(order: array<nat>, k: nat) returns (chosen: Reg)
      requires Sized() && k < order.Length && forall m | 0 <= m <= k :: order[m] < |cands|
      ensures exists p :: FreeAt(order[..k], order[k], conf[..], reg[..], p) && chosen == Pool(p)
    {
      var used := new bool[14](_ => false);
      var ci := order[k];
      var m := 0;
      while m < k
        invariant m <= k
        invariant forall r: Reg | r != 0 :: used[r] <==> Held(order[..m], ci, conf[..], reg[..], r)
      {
        var cj := order[m];
        assert order[..m + 1] == order[..m] + [cj];
        if reg[cj] != 0 && cj in conf[ci] {
          used[reg[cj]] := true;
        }
        m := m + 1;
      }
      chosen := 0;
      var p := 0;
      while p < |POOL|
        invariant p <= |POOL| && forall q | 0 <= q < p :: used[POOL[q]]
      {
        if !used[POOL[p]] {
          chosen := POOL[p];
          break;
        }
        p := p + 1;
      }
      assert FreeAt(order[..k], ci, conf[..], reg[..], p);
    }

    // ra_color_global.
    method ColorGlobal() returns (hi: nat, ghost order: seq<nat>, ghost ins: seq<set<nat>>, ghost outs: seq<set<nat>>)
      requires Sized() && GoodBlocks(items, blocks) && forall i | 0 <= i < |cands| :: reg[i] == 0
      modifies conf, reg, this`ev
      ensures Solved(blocks, AllEvents(), ins, outs)
      ensures forall x: nat, y: nat | x < |cands| && y < |cands| ::
        Interfere(x, y) <==> Conflict(AllEvents(), ins, outs, x, y)
      ensures Ranked(cands, order) && Colored(order, conf[..], reg[..]) && hi == Highest(reg[..])
    {
      hide Solved, Conflict, Ranked, Colored;
      ins, outs := RaLiveness();
      var ord, no := Rank();
      order := ord[..no];
      hi := ColorAll(ord, no);
    }

    method ColorAll(order: array<nat>, no: nat) returns (hi: nat)
      requires Sized() && no <= order.Length && Ranked(cands, order[..no])
      requires forall i | 0 <= i < |cands| :: reg[i] == 0
      modifies reg
      ensures Colored(order[..no], conf[..], reg[..]) && hi == Highest(reg[..])
    {
      hide Ranked, Colored, FreeAt;
      hi := 0;
      RankedRange(cands, order[..no]);
      NothingColored(order[..no], conf[..], reg[..]);
      var k := 0;
      while k < no
        invariant k <= no && order[..no] == old(order[..no])
        invariant ColoredTo(order[..no], k, conf[..], reg[..]) && hi == Highest(reg[..])
      {
        ghost var was := reg[..];
        assert forall m | 0 <= m < no :: order[m] == order[..no][m];
        var chosen: Reg := Choose(order, k);
        assert order[..no][..k] == order[..k];
        ColorOne(order[..no], k, conf[..], was, chosen);
        HighestUpdate(was, order[k], chosen);
        reg[order[k]] := chosen;
        assert reg[..] == was[order[k] := chosen];
        if 2 <= chosen <= 7 && chosen > hi { hi := chosen; }
        k := k + 1;
      }
      AllColored(order[..no], conf[..], reg[..]);
    }

    // The selection without liveness: the most used free candidate gets the next register.
    method SelectByUse(ghost order: seq<nat>) returns (hi: nat)
      requires Sized() && Ranked(cands, order) && forall i | 0 <= i < |cands| :: reg[i] == 0
      modifies reg
      ensures Selected(order, reg[..]) && hi == Highest(reg[..])
    {
      hide Ranked, Selected, Highest;
      hi := 0;
      NothingSelected(cands, order, reg[..]);
      PoolAscends();
      var k := 0;
      while k < |POOL|
        invariant k <= |POOL| && SelectedTo(order, k, reg[..]) && hi == Highest(reg[..])
        invariant hi == if k == 0 then 0 else if POOL[k - 1] <= 7 then POOL[k - 1] else 7
      {
        var best := MostUsed();
        if best < 0 {
          NoneLeft(cands, order, k, reg[..]);
          break;
        }
        BestIsNext(cands, order, k, reg[..], best);
        ghost var was := reg[..];
        HighestUpdate(was, best, POOL[k]);
        reg[best] := POOL[k];
        assert reg[..] == was[best := POOL[k]];
        if POOL[k] <= 7 { hi := POOL[k]; }
        k := k + 1;
      }
      SelectionDone(cands, order, k, reg[..]);
    }

    method MostUsed() returns (best: int)
      requires Sized()
      ensures Best(cands, reg[..], best)
    {
      best := -1;
      var i := 0;
      while i < |cands|
        invariant i <= |cands| && -1 <= best < i
        invariant best >= 0 ==> reg[best] == 0 && Colorable(cands[best])
        invariant forall c: nat | c < i && reg[c] == 0 && Colorable(cands[c]) ::
          best >= 0 && (c == best || Ahead(cands, best, c))
      {
        if reg[i] == 0 && Colorable(cands[i]) && (best < 0 || cands[i].uses > cands[best].uses) {
          best := i;
        }
        i := i + 1;
      }
    }
  }

  lemma CapTwice(s: seq<RaEv>, x: seq<RaEv>, y: seq<RaEv>)
    ensures Capped(Capped(s + x) + y) == Capped(s + (x + y)) && s + (x + y) == s + x + y
    ensures |Capped(s + x)| <= EVENT_CAP
  {}

  lemma CapBound(s: seq<RaEv>)
    ensures |Capped(s)| <= EVENT_CAP && (|s| <= EVENT_CAP ==> Capped(s) == s)
  {}

  lemma NoArgs(cond: bool, cands: seq<Cand>)
    ensures EvArgs([], cond, cands) == []
  {}

  lemma {:induction false} ArgsSnoc(args: seq<IrExpr>, i: nat, cond: bool, cands: seq<Cand>)
    requires i < |args|
    ensures EvArgs(args[..i + 1], cond, cands) == EvArgs(args[..i], cond, cands) + EvWalk(args[i], cond, cands)
  {
    hide EvWalk;
    if i == 0 {
      assert args[..1] == [args[0]] && args[..1][1..] == [] && args[..0] == [];
    } else {
      ArgsSnoc(args[1..], i - 1, cond, cands);
      assert args[..i + 1][1..] == args[1..][..i] && args[..i][1..] == args[1..][..i - 1];
    }
  }

  // use and def are what the events expose and kill.
  ghost predicate UseDef(s: seq<RaEv>, use: set<nat>, def: set<nat>) {
    forall c: nat :: (c in use <==> Exposes(s, c)) && (c in def <==> Kills(s, c))
  }

  lemma NoEvents()
    ensures UseDef([], {}, {})
  {}

  lemma EmptyRange(items: seq<Item>, i: nat, cands: seq<Cand>)
    requires i <= |items|
    ensures EventsFrom(items, i, i, cands) == []
  {}

  lemma UseDefStep(s: seq<RaEv>, use: set<nat>, def: set<nat>, e: RaEv)
    requires UseDef(s, use, def)
    ensures match e.kind
            case Use => UseDef(s + [e], if e.ci in def then use else use + {e.ci}, def)
            case MustDef => UseDef(s + [e], use, def + {e.ci})
            case MayDef => UseDef(s + [e], use, def)
  {
    hide Exposes;
    forall c: nat
      ensures Exposes(s + [e], c) <==> Exposes(s, c) || (e == RaEv(c, Use) && !Kills(s, c))
    {
      ExposesSnoc(s, e, c);
    }
  }

  ghost predicate UseDefs(evs: seq<seq<RaEv>>, use: seq<set<nat>>, def: seq<set<nat>>) {
    |evs| == |use| == |def| && forall b | 0 <= b < |evs| :: UseDef(evs[b], use[b], def[b])
  }

  ghost predicate OnlyLive(blocks: seq<Block>, evs: seq<seq<RaEv>>, ins: seq<set<nat>>) {
    |blocks| == |evs| == |ins| && forall b: nat, c: nat | b < |ins| && c in ins[b] :: LiveIn(blocks, evs, b, c)
  }

  // The equations at block b.
  ghost predicate Balanced(blocks: seq<Block>, use: seq<set<nat>>, def: seq<set<nat>>, ins: seq<set<nat>>,
                           outs: seq<set<nat>>, b: nat)
  {
    && |blocks| == |use| == |def| == |ins| == |outs| && b < |blocks|
    && Fits(blocks[b].succ, |ins|)
    && outs[b] == Union(ins, blocks[b].succ)
    && use[b] <= ins[b] && outs[b] - def[b] <= ins[b]
  }

  ghost predicate BalancedFrom(blocks: seq<Block>, use: seq<set<nat>>, def: seq<set<nat>>, ins: seq<set<nat>>,
                               outs: seq<set<nat>>, b: nat)
  {
    forall c: nat | b <= c < |blocks| :: Balanced(blocks, use, def, ins, outs, c)
  }

  lemma SweepKeepsLive(blocks: seq<Block>, evs: seq<seq<RaEv>>, use: seq<set<nat>>, def: seq<set<nat>>,
                       ins: seq<set<nat>>, b: nat, ni: set<nat>)
    requires b < |blocks| && UseDefs(evs, use, def) && OnlyLive(blocks, evs, ins)
    requires Fits(blocks[b].succ, |ins|)
    requires ni == (Union(ins, blocks[b].succ) - def[b]) + use[b]
    ensures OnlyLive(blocks, evs, ins[b := ins[b] + ni])
  {
    hide Exposes, Kills, LiveIn, Union;
    forall c: nat | c in ni ensures LiveIn(blocks, evs, b, c) {
      assert UseDef(evs[b], use[b], def[b]);
      if c in use[b] {
        LiveHere(blocks, evs, b, c);
      } else {
        UnionIs(ins, blocks[b].succ, c);
        var s: nat :| s in blocks[b].succ && c in ins[s];
        LiveThrough(blocks, evs, b, s, c);
      }
    }
  }

  lemma SweepBalances(blocks: seq<Block>, use: seq<set<nat>>, def: seq<set<nat>>, ins: seq<set<nat>>,
                      outs0: seq<set<nat>>, o: set<nat>, b: nat)
    requires |blocks| == |use| == |def| == |ins| == |outs0| && b < |blocks|
    requires Fits(blocks[b].succ, |ins|)
    requires o == Union(ins, blocks[b].succ) && (o - def[b]) + use[b] <= ins[b]
    requires BalancedFrom(blocks, use, def, ins, outs0, b + 1)
    ensures BalancedFrom(blocks, use, def, ins, outs0[b := o], b)
  {
    var outs := outs0[b := o];
    forall c: nat | b <= c < |blocks| ensures Balanced(blocks, use, def, ins, outs, c) {
      if c > b { assert Balanced(blocks, use, def, ins, outs0, c); }
    }
  }

  lemma NoneBalanced(blocks: seq<Block>, use: seq<set<nat>>, def: seq<set<nat>>, ins: seq<set<nat>>, outs: seq<set<nat>>)
    ensures BalancedFrom(blocks, use, def, ins, outs, |blocks|)
  {}

  lemma EachBalanced(blocks: seq<Block>, use: seq<set<nat>>, def: seq<set<nat>>, ins: seq<set<nat>>, outs: seq<set<nat>>)
    ensures BalancedFrom(blocks, use, def, ins, outs, 0) ==>
      forall b | 0 <= b < |blocks| :: Balanced(blocks, use, def, ins, outs, b)
  {}

  lemma NothingLive(blocks: seq<Block>, evs: seq<seq<RaEv>>, ins: seq<set<nat>>)
    requires |blocks| == |evs| == |ins| && forall b | 0 <= b < |ins| :: ins[b] == {}
    ensures OnlyLive(blocks, evs, ins)
  {}

  lemma LiveTotal(blocks: seq<Block>, evs: seq<seq<RaEv>>, ins: seq<set<nat>>, n: nat, all: set<nat>)
    requires OnlyLive(blocks, evs, ins) && (forall b | 0 <= b < |evs| :: InRange(evs[b], n))
    requires forall c: nat :: c in all <==> c < n
    ensures Total(ins) <= |blocks| * |all|
  {
    hide Exposes;
    forall b, c: nat | 0 <= b < |ins| && c in ins[b] ensures c in all {
      var path :| LivePath(blocks, evs, path, c) && path[0] == b;
      ExposedInRange(evs[path[|path| - 1]], c, n);
    }
    TotalBound(ins, all);
  }

  lemma ExposedInRange(s: seq<RaEv>, c: nat, n: nat)
    requires Exposes(s, c) && InRange(s, n)
    ensures c < n
  {
    var k :| 0 <= k < |s| && s[k] == RaEv(c, Use) && RaEv(c, MustDef) !in s[..k];
    assert s[k] in s;
  }

  // A sweep that changes nothing has found exactly the live sets.
  lemma FixpointSolves(blocks: seq<Block>, evs: seq<seq<RaEv>>, use: seq<set<nat>>, def: seq<set<nat>>,
                       ins: seq<set<nat>>, outs: seq<set<nat>>)
    requires |blocks| == |outs| && UseDefs(evs, use, def) && OnlyLive(blocks, evs, ins)
    requires forall b | 0 <= b < |blocks| :: Balanced(blocks, use, def, ins, outs, b)
    ensures Solved(blocks, evs, ins, outs)
  {
    hide Exposes, Kills, Union, LivePath;
    forall b: nat, c: nat | b < |blocks|
      ensures c in outs[b] <==> exists s: nat :: s in blocks[b].succ && s < |blocks| && c in ins[s]
    {
      assert Balanced(blocks, use, def, ins, outs, b);
      UnionIs(ins, blocks[b].succ, c);
    }
    assert Closed(blocks, evs, ins) by {
      forall b, c: nat | 0 <= b < |blocks| && Exposes(evs[b], c) ensures c in ins[b] {
        assert UseDef(evs[b], use[b], def[b]) && Balanced(blocks, use, def, ins, outs, b);
      }
      forall b, s: nat, c: nat | 0 <= b < |blocks| && s in blocks[b].succ && s < |blocks| && c in ins[s] && !Kills(evs[b], c)
        ensures c in ins[b]
      {
        assert UseDef(evs[b], use[b], def[b]) && Balanced(blocks, use, def, ins, outs, b);
        assert c in outs[b];
      }
    }
    forall b: nat, c: nat | b < |blocks| && LiveIn(blocks, evs, b, c) ensures c in ins[b] {
      LiveIsIn(blocks, evs, ins, b, c);
    }
  }

  lemma LiveIsIn(blocks: seq<Block>, evs: seq<seq<RaEv>>, ins: seq<set<nat>>, b: nat, c: nat)
    requires Closed(blocks, evs, ins) && b < |blocks| && LiveIn(blocks, evs, b, c)
    ensures c in ins[b]
  {
    hide Exposes, Kills, Closed;
    var path :| LivePath(blocks, evs, path, c) && path[0] == b;
    LiveInSolution(blocks, evs, ins, path, c);
  }

  ghost predicate BothWays(s: seq<RaEv>, live: set<nat>, i: nat, j: nat) {
    i != j && (Clobbers(s, live, i, j) || Clobbers(s, live, j, i))
  }

  lemma NoneClobber(live: set<nat>)
    ensures Before([], live) == live && forall x: nat, y: nat :: !BothWays([], live, x, y)
  {}

  lemma FromCons(items: seq<Item>, i: nat, end: nat, cands: seq<Cand>)
    requires i < end <= |items|
    ensures EventsFrom(items, i, end, cands) == ItemEvents(items[i], cands) + EventsFrom(items, i + 1, end, cands)
  {}

  lemma ConsClobbers(e: RaEv, s: seq<RaEv>, live: set<nat>, n: nat)
    ensures Before([e] + s, live)
         == match e.kind
            case Use => Before(s, live) + {e.ci}
            case MustDef => Before(s, live) - {e.ci}
            case MayDef => Before(s, live)
    ensures forall x: nat, y: nat | x < n && y < n ::
      BothWays([e] + s, live, x, y) <==>
      BothWays(s, live, x, y)
      || (e.kind != Use && x != y && ((x == e.ci && y in Before(s, live)) || (y == e.ci && x in Before(s, live))))
  {
    hide Before;
    assert Before([e] + s, live)
        == match e.kind
           case Use => Before(s, live) + {e.ci}
           case MustDef => Before(s, live) - {e.ci}
           case MayDef => Before(s, live) by { BeforeCons(e, s, live); }
    forall x: nat, y: nat
      ensures Clobbers([e] + s, live, x, y) <==>
        Clobbers(s, live, x, y) || (e.kind != Use && x == e.ci && y in Before(s, live))
    {
      ClobbersCons(e, s, live, x, y);
    }
  }

  lemma BeforeCons(e: RaEv, s: seq<RaEv>, live: set<nat>)
    ensures Before([e] + s, live)
         == match e.kind
            case Use => Before(s, live) + {e.ci}
            case MustDef => Before(s, live) - {e.ci}
            case MayDef => Before(s, live)
  {
    assert ([e] + s)[1..] == s;
  }

  lemma ClobbersCons(e: RaEv, s: seq<RaEv>, live: set<nat>, x: nat, y: nat)
    ensures Clobbers([e] + s, live, x, y) <==>
      Clobbers(s, live, x, y) || (e.kind != Use && x == e.ci && y in Before(s, live))
  {
    hide Before;
    assert ([e] + s)[1..] == s;
  }

  lemma ConflictIs(evs: seq<seq<RaEv>>, ins: seq<set<nat>>, outs: seq<set<nat>>)
    requires |evs| == |ins| == |outs|
    ensures forall x: nat, y: nat :: Conflict(evs, ins, outs, x, y) <==>
      (exists c: nat :: c < |evs| && BothWays(evs[c], outs[c], x, y))
      || (|ins| > 0 && x != y && x in ins[0] && y in ins[0])
  {
    hide Clobbers;
  }

  lemma PoolAscends()
    ensures forall i, j | 0 <= i < j < |POOL| :: POOL[i] < POOL[j]
    ensures forall i | 0 <= i < |POOL| :: 2 <= POOL[i] && (POOL[i] > 7 ==> i > 0 && POOL[i - 1] >= 7)
  {}

  // ---- order ---------------------------------------------------------------------------

  ghost predicate SortedTo(cands: seq<Cand>, s: seq<nat>, a: nat) {
    && Fits(s, |cands|)
    && (forall k, l | 0 <= k < l < |s| && l < a :: Ahead(cands, s[k], s[l]))
    && (forall k, l | 0 <= k < l < |s| && l >= a :: s[k] < s[l])
  }

  lemma ListedRange(cands: seq<Cand>, s: seq<nat>)
    requires Listed(cands, s)
    ensures Fits(s, |cands|)
  {}

  lemma RankedRange(cands: seq<Cand>, s: seq<nat>)
    requires Ranked(cands, s)
    ensures Fits(s, |cands|) && forall i, j | 0 <= i < j < |s| :: s[i] != s[j]
  {
    forall i, j | 0 <= i < j < |s| ensures s[i] != s[j] { assert Ahead(cands, s[i], s[j]); }
  }

  lemma ShortSorted(cands: seq<Cand>, s: seq<nat>)
    requires Fits(s, |cands|) && forall k, l | 0 <= k < l < |s| :: s[k] < s[l]
    ensures SortedTo(cands, s, 1)
  {}

  // The sequence with entry a moved left to position `at`.
  function MovedTo(s: seq<nat>, a: nat, at: nat): (t: seq<nat>)
    requires at <= a < |s|
    ensures |t| == |s| && forall k | 0 <= k < |t| :: t[k] == s[Source(a, at, k)]
  {
    seq(|s|, k requires 0 <= k < |s| => s[Source(a, at, k)])
  }

  function Source(a: nat, at: nat, k: nat): nat
    requires at <= a
  {
    if k < at || k > a then k else if k == at then a else k - 1
  }

  // All candidates that may leave memory, once each: more uses first, ties as declared.
  lemma RankedIs(cands: seq<Cand>, order: seq<nat>)
    requires Ranked(cands, order)
    ensures forall c: nat | c < |cands| :: c in order <==> cands[c].loopUses >= 1 && !cands[c].addrTaken
    ensures forall k, l | 0 <= k < l < |order| ::
      order[k] < |cands| && order[l] < |cands|
      && (cands[order[k]].uses > cands[order[l]].uses || (cands[order[k]].uses == cands[order[l]].uses && order[k] < order[l]))
  {}

  lemma MovedPrefix(all: seq<nat>, no: nat, a: nat, at: nat)
    requires at <= a < no <= |all|
    ensures MovedTo(all, a, at)[..no] == MovedTo(all[..no], a, at)
  {}

  lemma InsertSorted(cands: seq<Cand>, s: seq<nat>, a: nat, at: nat)
    requires at <= a < |s| && Listed(cands, s) && SortedTo(cands, s, a)
    requires forall k | at <= k < a :: cands[s[k]].uses < cands[s[a]].uses
    requires at > 0 ==> cands[s[at - 1]].uses >= cands[s[a]].uses
    ensures Listed(cands, MovedTo(s, a, at)) && SortedTo(cands, MovedTo(s, a, at), a + 1)
  {
    hide Ahead, Listed;
    MovedListed(cands, s, a, at);
    var t := MovedTo(s, a, at);
    forall k | 0 <= k < at ensures Ahead(cands, s[k], s[a]) { AheadOfNew(cands, s, a, at, k); }
    forall k | at <= k < a ensures Ahead(cands, s[a], s[k]) { MoreUses(cands, s[a], s[k]); }
  }

  lemma MoreUses(cands: seq<Cand>, i: nat, j: nat)
    requires i < |cands| && j < |cands| && cands[i].uses > cands[j].uses
    ensures Ahead(cands, i, j)
  {}

  lemma AheadOfNew(cands: seq<Cand>, s: seq<nat>, a: nat, at: nat, k: nat)
    requires k < at <= a < |s| && SortedTo(cands, s, a) && cands[s[at - 1]].uses >= cands[s[a]].uses
    ensures Ahead(cands, s[k], s[a])
  {
    if k < at - 1 { assert Ahead(cands, s[k], s[at - 1]); }
  }

  lemma MovedListed(cands: seq<Cand>, s: seq<nat>, a: nat, at: nat)
    requires at <= a < |s| && Listed(cands, s)
    ensures Listed(cands, MovedTo(s, a, at)) && Fits(MovedTo(s, a, at), |cands|)
  {
    var t := MovedTo(s, a, at);
    forall c | c in s ensures c in t {
      var k: nat :| k < |s| && s[k] == c;
      var d := if k < at || k > a then k else if k == a then at else k + 1;
      assert Source(a, at, d) == k && t[d] == c;
    }
  }

  lemma SortedIsRanked(cands: seq<Cand>, s: seq<nat>, a: nat)
    requires Listed(cands, s) && SortedTo(cands, s, a) && a >= |s|
    ensures Ranked(cands, s)
  {}

  // ---- colouring -----------------------------------------------------------------------

  lemma NothingColored(order: seq<nat>, conf: seq<set<nat>>, reg: seq<Reg>)
    requires |conf| == |reg| && Fits(order, |reg|) && forall i, j | 0 <= i < j < |order| :: order[i] != order[j]
    requires forall i | 0 <= i < |reg| :: reg[i] == 0
    ensures ColoredTo(order, 0, conf, reg) && Highest(reg) == 0
  {
    NoHighest(reg);
  }

  lemma {:induction false} NoHighest(reg: seq<Reg>)
    requires forall i | 0 <= i < |reg| :: reg[i] == 0
    ensures Highest(reg) == 0
  {
    if reg != [] { NoHighest(reg[1..]); }
  }

  lemma {:induction false} HighestIs(reg: seq<Reg>)
    ensures forall c | 0 <= c < |reg| && reg[c] <= 7 :: reg[c] <= Highest(reg)
    ensures Highest(reg) == 0 || exists c :: 0 <= c < |reg| && reg[c] == Highest(reg) && 2 <= reg[c] <= 7
  {
    if reg != [] {
      HighestIs(reg[1..]);
      forall c | 0 <= c < |reg| && reg[c] <= 7 ensures reg[c] <= Highest(reg) { if c > 0 { assert reg[c] == reg[1..][c - 1]; } }
      if Highest(reg) == Highest(reg[1..]) != 0 {
        var c :| 0 <= c < |reg| - 1 && reg[1..][c] == Highest(reg) && 2 <= reg[1..][c] <= 7;
        assert reg[c + 1] == reg[1..][c];
      }
    }
  }

  lemma {:induction false} HighestUpdate(reg: seq<Reg>, c: nat, r: Reg)
    requires c < |reg| && reg[c] == 0
    ensures Highest(reg[c := r]) == if 2 <= r <= 7 && r > Highest(reg) then r else Highest(reg)
  {
    var t := reg[c := r];
    if c == 0 { assert t[1..] == reg[1..]; } else {
      assert t[1..] == reg[1..][c - 1 := r];
      HighestUpdate(reg[1..], c - 1, r);
    }
  }

  lemma ColorOne(order: seq<nat>, k: nat, conf: seq<set<nat>>, reg: seq<Reg>, chosen: Reg)
    requires k < |order| && ColoredTo(order, k, conf, reg)
    requires exists p :: FreeAt(order[..k], order[k], conf, reg, p) && chosen == Pool(p)
    ensures ColoredTo(order, k + 1, conf, reg[order[k] := chosen])
  {
    hide FreeAt;
    var t := reg[order[k] := chosen];
    var p :| FreeAt(order[..k], order[k], conf, reg, p) && chosen == Pool(p);
    SameFree(order[..k], order[k], conf, reg, t, p);
    forall i | 0 <= i < k ensures FirstFree(order, i, conf, t) {
      assert FirstFree(order, i, conf, reg);
      var q :| FreeAt(order[..i], order[i], conf, reg, q) && reg[order[i]] == Pool(q);
      SameFree(order[..i], order[i], conf, reg, t, q);
    }
    assert order[..k + 1] == order[..k] + [order[k]];
  }

  // What is free depends only on the earlier candidates' registers.
  lemma SameFree(earlier: seq<nat>, c: nat, conf: seq<set<nat>>, reg: seq<Reg>, t: seq<Reg>, p: nat)
    requires c < |conf| && Fits(earlier, |reg|) && |t| == |reg| && forall m | 0 <= m < |earlier| :: t[earlier[m]] == reg[earlier[m]]
    requires FreeAt(earlier, c, conf, reg, p)
    ensures FreeAt(earlier, c, conf, t, p)
  {
    forall r: Reg ensures Held(earlier, c, conf, reg, r) <==> Held(earlier, c, conf, t, r) {}
  }

  lemma AllColored(order: seq<nat>, conf: seq<set<nat>>, reg: seq<Reg>)
    requires ColoredTo(order, |order|, conf, reg)
    ensures Colored(order, conf, reg)
  {}

  lemma NothingSelected(cands: seq<Cand>, order: seq<nat>, reg: seq<Reg>)
    requires Ranked(cands, order) && |reg| == |cands| && forall i | 0 <= i < |reg| :: reg[i] == 0
    ensures SelectedTo(order, 0, reg) && Highest(reg) == 0
  {
    NoHighest(reg);
  }

  lemma BestIsNext(cands: seq<Cand>, order: seq<nat>, k: nat, reg: seq<Reg>, best: nat)
    requires Ranked(cands, order) && k < |POOL| && |reg| == |cands| && SelectedTo(order, k, reg) && Best(cands, reg, best)
    ensures k < |order| && best == order[k]
    ensures SelectedTo(order, k + 1, reg[best := POOL[k]])
  {
    RankedRange(cands, order);
    var i :| 0 <= i < |order| && order[i] == best;
    assert i >= k;
  }

  lemma NoneLeft(cands: seq<Cand>, order: seq<nat>, k: nat, reg: seq<Reg>)
    requires Ranked(cands, order) && k <= |POOL| && |reg| == |cands| && SelectedTo(order, k, reg) && Best(cands, reg, -1)
    ensures |order| <= k
  {
    if k < |order| {
      NextIsFree(cands, order, k, reg);
      assert false;
    }
  }

  lemma NextIsFree(cands: seq<Cand>, order: seq<nat>, k: nat, reg: seq<Reg>)
    requires Ranked(cands, order) && k < |order| && |reg| == |cands| && SelectedTo(order, k, reg)
    ensures order[k] < |cands| && reg[order[k]] == 0 && Colorable(cands[order[k]])
  {}

  lemma SelectionDone(cands: seq<Cand>, order: seq<nat>, k: nat, reg: seq<Reg>)
    requires SelectedTo(order, k, reg) && k <= |POOL| && (k < |POOL| ==> |order| <= k)
    ensures Selected(order, reg)
  {}
}
