// Listed and performed orders of events.
module EventOrder {
  import opened Words
  import opened Ir
  import opened M68k
  import opened Items
  import opened Liveness
  import opened RegAlloc
  import opened Sharing
  import opened Optimize

  // Events of an expression in the order its evaluation performs them: right operand
  // first, except where `leftFirst` says so; arguments last to first, then the callee.
  function RunWalk(e: IrExpr, cond: bool, cands: seq<Cand>, leftFirst: IrExpr -> bool): (r: seq<RaEv>)
    ensures InRange(r, |cands|)
    decreases e, 1
  {
    match e
    case Load(a, _, _) =>
      if CandOfLea(a, cands).Some? then EventOf(CandOfLea(a, cands), Use) else RunWalk(a, cond, cands, leftFirst)
    case Store(a, b, _) =>
      if CandOfLea(a, cands).Some? then RunWalk(b, cond, cands, leftFirst) + EventOf(CandOfLea(a, cands), DefKind(cond))
      else RunWalk(a, cond, cands, leftFirst) + RunWalk(b, cond, cands, leftFirst)
    case Memzero(v, _, _) => EventOf(CandOfVar(cands, v), DefKind(cond))
    case Cond(a, b, c) =>
      RunWalk(a, cond, cands, leftFirst) + RunWalk(b, true, cands, leftFirst) + RunWalk(c, true, cands, leftFirst)
    case LogAnd(a, b) => RunWalk(a, cond, cands, leftFirst) + RunWalk(b, true, cands, leftFirst)
    case LogOr(a, b) => RunWalk(a, cond, cands, leftFirst) + RunWalk(b, true, cands, leftFirst)
    case Vdef(_, a) => RunWalk(a, cond, cands, leftFirst)
    case CallDirect(_, args) => RunArgs(args, cond, cands, leftFirst)
    case CallIndirect(a, args) => RunArgs(args, cond, cands, leftFirst) + RunWalk(a, cond, cands, leftFirst)
    case Binop(_, _, _, _, a, b) =>
      if leftFirst(e) then RunWalk(a, cond, cands, leftFirst) + RunWalk(b, cond, cands, leftFirst)
      else RunWalk(b, cond, cands, leftFirst) + RunWalk(a, cond, cands, leftFirst)
    case Unary(_, _, _, a) => RunWalk(a, cond, cands, leftFirst)
    case Comma(a, b) => RunWalk(a, cond, cands, leftFirst) + RunWalk(b, cond, cands, leftFirst)
    case Cast(_, _, _, _, _, a) => RunWalk(a, cond, cands, leftFirst)
    case Nop | Num(_, _, _) | Lea(_) | Vuse(_) => []
  }

  function RunArgs(args: seq<IrExpr>, cond: bool, cands: seq<Cand>, leftFirst: IrExpr -> bool): (r: seq<RaEv>)
    ensures InRange(r, |cands|)
    decreases args, 0
  {
    if args == [] then [] else RunArgs(args[1..], cond, cands, leftFirst) + RunWalk(args[0], cond, cands, leftFirst)
  }

  // Listed a then b, performed b then a: harmless when a has no events, or when b only
  // uses candidates and none that a defines.
  predicate Swaps(a: seq<RaEv>, b: seq<RaEv>) {
    a == [] || forall y | y in b :: y.kind == Use && forall x | x in a && x.kind != Use :: x.ci != y.ci
  }

  // Everywhere the performed order departs from the listed one, the two swap.
  predicate ListedOk(e: IrExpr, cond: bool, cands: seq<Cand>, leftFirst: IrExpr -> bool)
    decreases e, 1
  {
    match e
    case Load(a, _, _) => CandOfLea(a, cands).Some? || ListedOk(a, cond, cands, leftFirst)
    case Store(a, b, _) =>
      (CandOfLea(a, cands).Some? || ListedOk(a, cond, cands, leftFirst)) && ListedOk(b, cond, cands, leftFirst)
    case Cond(a, b, c) =>
      ListedOk(a, cond, cands, leftFirst) && ListedOk(b, true, cands, leftFirst) && ListedOk(c, true, cands, leftFirst)
    case LogAnd(a, b) => ListedOk(a, cond, cands, leftFirst) && ListedOk(b, true, cands, leftFirst)
    case LogOr(a, b) => ListedOk(a, cond, cands, leftFirst) && ListedOk(b, true, cands, leftFirst)
    case Vdef(_, a) => ListedOk(a, cond, cands, leftFirst)
    case CallDirect(_, args) => ArgsListedOk(args, cond, cands, leftFirst)
    case CallIndirect(a, args) =>
      && ListedOk(a, cond, cands, leftFirst) && ArgsListedOk(args, cond, cands, leftFirst)
      && Swaps(EvWalk(a, cond, cands), EvArgs(args, cond, cands))
    case Binop(_, _, _, _, a, b) =>
      && ListedOk(a, cond, cands, leftFirst) && ListedOk(b, cond, cands, leftFirst)
      && (leftFirst(e) || Swaps(EvWalk(a, cond, cands), EvWalk(b, cond, cands)))
    case Unary(_, _, _, a) => ListedOk(a, cond, cands, leftFirst)
    case Comma(a, b) => ListedOk(a, cond, cands, leftFirst) && ListedOk(b, cond, cands, leftFirst)
    case Cast(_, _, _, _, _, a) => ListedOk(a, cond, cands, leftFirst)
    case Nop | Num(_, _, _) | Lea(_) | Vuse(_) | Memzero(_, _, _) => true
  }

  predicate ArgsListedOk(args: seq<IrExpr>, cond: bool, cands: seq<Cand>, leftFirst: IrExpr -> bool)
    decreases args, 0
  {
    args == []
    || (ListedOk(args[0], cond, cands, leftFirst) && ArgsListedOk(args[1..], cond, cands, leftFirst)
        && Swaps(EvWalk(args[0], cond, cands), EvArgs(args[1..], cond, cands)))
  }

  // ---- joining and swapping -----------------------------------------------------------------------

  lemma {:induction false} BeforeJoin(x: seq<RaEv>, y: seq<RaEv>, live: set<nat>)
    ensures Before(x + y, live) == Before(x, Before(y, live))
  {
    if x == [] { assert x + y == y; } else { assert (x + y)[1..] == x[1..] + y; BeforeJoin(x[1..], y, live); }
  }

  lemma {:induction false} ClobbersJoin(x: seq<RaEv>, y: seq<RaEv>, live: set<nat>, i: nat, j: nat)
    ensures Clobbers(x + y, live, i, j) <==> Clobbers(x, Before(y, live), i, j) || Clobbers(y, live, i, j)
  {
    if x == [] {
      assert x + y == y;
    } else {
      assert (x + y)[1..] == x[1..] + y;
      BeforeJoin(x[1..], y, live);
      ClobbersJoin(x[1..], y, live, i, j);
    }
  }

  lemma {:induction false} ClobbersMono(s: seq<RaEv>, live: set<nat>, more: set<nat>, i: nat, j: nat)
    requires live <= more
    ensures Before(s, live) <= Before(s, more)
    ensures Clobbers(s, live, i, j) ==> Clobbers(s, more, i, j)
  {
    if s != [] { ClobbersMono(s[1..], live, more, i, j); BeforeGrows(s[1..], live, more); }
  }

  lemma {:induction false} BeforeGrows(s: seq<RaEv>, live: set<nat>, more: set<nat>)
    requires live <= more
    ensures Before(s, live) <= Before(s, more)
  {
    if s != [] { BeforeGrows(s[1..], live, more); }
  }

  // Uses alone add their candidates and define nothing.
  lemma {:induction false} UsesOnly(s: seq<RaEv>, live: set<nat>, i: nat, j: nat)
    requires forall y | y in s :: y.kind == Use
    ensures Before(s, live) == live + (set y | y in s :: y.ci) && !Clobbers(s, live, i, j)
  {
    if s != [] {
      assert s == [s[0]] + s[1..];
      UsesOnly(s[1..], live, i, j);
    }
  }

  lemma {:induction false} BeforeAdds(s: seq<RaEv>, live: set<nat>, more: set<nat>)
    requires forall x | x in s && x.kind != Use :: x.ci !in more
    ensures Before(s, live + more) == Before(s, live) + more
  {
    if s != [] {
      assert s == [s[0]] + s[1..];
      BeforeAdds(s[1..], live, more);
    }
  }

  ghost predicate SameEvents(r: seq<RaEv>, s: seq<RaEv>) { forall x :: x in r <==> x in s }

  lemma MilderSelf(s: seq<RaEv>)
    ensures Milder(s, s)
  {}

  lemma MilderJoin(r1: seq<RaEv>, r2: seq<RaEv>, s1: seq<RaEv>, s2: seq<RaEv>)
    requires Milder(r1, s1) && Milder(r2, s2)
    ensures Milder(r1 + r2, s1 + s2)
  {
    hide Before, Clobbers;
    forall live ensures Before(r1 + r2, live) == Before(s1 + s2, live) {
      BeforeJoin(r1, r2, live);
      BeforeJoin(s1, s2, live);
    }
    forall live, i: nat, j: nat | Clobbers(r1 + r2, live, i, j) ensures Clobbers(s1 + s2, live, i, j) {
      ClobbersJoin(r1, r2, live, i, j);
      ClobbersJoin(s1, s2, live, i, j);
    }
  }

  lemma MilderSwap(ra: seq<RaEv>, rb: seq<RaEv>, sa: seq<RaEv>, sb: seq<RaEv>)
    requires Milder(ra, sa) && Milder(rb, sb) && SameEvents(ra, sa) && SameEvents(rb, sb) && Swaps(sa, sb)
    ensures Milder(rb + ra, sa + sb)
  {
    hide Before, Clobbers, Milder;
    if sa == [] {
      if ra != [] { SomeEvents(ra); }
      assert rb + ra == rb && sa + sb == sb;
    } else {
      MilderJoin(rb, ra, sb, sa);
      UsesFirst(sa, sb);
      MilderTrans(rb + ra, sb + sa, sa + sb);
    }
  }

  lemma SomeEvents(r: seq<RaEv>)
    requires r != []
    ensures !SameEvents(r, [])
  {
    assert r[0] in r;
  }

  lemma MilderTrans(r: seq<RaEv>, s: seq<RaEv>, t: seq<RaEv>)
    requires Milder(r, s) && Milder(s, t)
    ensures Milder(r, t)
  {
    hide Before, Clobbers;
  }

  lemma UsesFirst(a: seq<RaEv>, b: seq<RaEv>)
    requires a != [] && Swaps(a, b)
    ensures Milder(b + a, a + b)
  {
    hide Before, Clobbers;
    var uses := set y | y in b :: y.ci;
    forall live ensures Before(b + a, live) == Before(a + b, live) {
      BeforeJoin(b, a, live);
      BeforeJoin(a, b, live);
      UsesOnly(b, live, 0, 0);
      UsesOnly(b, Before(a, live), 0, 0);
      BeforeAdds(a, live, uses);
    }
    forall live, i: nat, j: nat | Clobbers(b + a, live, i, j) ensures Clobbers(a + b, live, i, j) {
      ClobbersJoin(b, a, live, i, j);
      ClobbersJoin(a, b, live, i, j);
      UsesOnly(b, live, i, j);
      UsesOnly(b, Before(a, live), i, j);
      ClobbersMono(a, live, Before(b, live), i, j);
    }
  }

  // ---- expressions, blocks ------------------------------------------------------------------------

  lemma {:induction false} RunMilder(e: IrExpr, cond: bool, cands: seq<Cand>, leftFirst: IrExpr -> bool)
    requires ListedOk(e, cond, cands, leftFirst)
    ensures Milder(RunWalk(e, cond, cands, leftFirst), EvWalk(e, cond, cands))
    ensures SameEvents(RunWalk(e, cond, cands, leftFirst), EvWalk(e, cond, cands))
    decreases e, 1
  {
    hide Milder, Swaps, CandOfLea, CandOfVar;
    MilderSelf(EvWalk(e, cond, cands));
    match e {
      case Load(a, _, _) => if CandOfLea(a, cands).None? { RunMilder(a, cond, cands, leftFirst); }
      case Store(a, b, _) =>
        RunMilder(b, cond, cands, leftFirst);
        if CandOfLea(a, cands).None? {
          RunMilder(a, cond, cands, leftFirst);
          Joined(a, b, cond, cond, cands, leftFirst);
        } else {
          var d := EventOf(CandOfLea(a, cands), DefKind(cond));
          MilderSelf(d);
          MilderJoin(RunWalk(b, cond, cands, leftFirst), d, EvWalk(b, cond, cands), d);
        }
      case Cond(a, b, c) =>
        RunMilder(a, cond, cands, leftFirst);
        RunMilder(b, true, cands, leftFirst);
        RunMilder(c, true, cands, leftFirst);
        Joined(a, b, cond, true, cands, leftFirst);
        MilderJoin(RunWalk(a, cond, cands, leftFirst) + RunWalk(b, true, cands, leftFirst), RunWalk(c, true, cands, leftFirst),
                   EvWalk(a, cond, cands) + EvWalk(b, true, cands), EvWalk(c, true, cands));
      case LogAnd(a, b) =>
        RunMilder(a, cond, cands, leftFirst);
        RunMilder(b, true, cands, leftFirst);
        Joined(a, b, cond, true, cands, leftFirst);
      case LogOr(a, b) =>
        RunMilder(a, cond, cands, leftFirst);
        RunMilder(b, true, cands, leftFirst);
        Joined(a, b, cond, true, cands, leftFirst);
      case Vdef(_, a) => RunMilder(a, cond, cands, leftFirst);
      case CallDirect(_, args) => RunArgsMilder(args, cond, cands, leftFirst);
      case CallIndirect(a, args) =>
        RunMilder(a, cond, cands, leftFirst);
        RunArgsMilder(args, cond, cands, leftFirst);
        MilderSwap(RunWalk(a, cond, cands, leftFirst), RunArgs(args, cond, cands, leftFirst),
                   EvWalk(a, cond, cands), EvArgs(args, cond, cands));
      case Binop(_, _, _, _, a, b) =>
        RunMilder(a, cond, cands, leftFirst);
        RunMilder(b, cond, cands, leftFirst);
        if leftFirst(e) {
          Joined(a, b, cond, cond, cands, leftFirst);
        } else {
          MilderSwap(RunWalk(a, cond, cands, leftFirst), RunWalk(b, cond, cands, leftFirst),
                     EvWalk(a, cond, cands), EvWalk(b, cond, cands));
        }
      case Unary(_, _, _, a) => RunMilder(a, cond, cands, leftFirst);
      case Comma(a, b) =>
        RunMilder(a, cond, cands, leftFirst);
        RunMilder(b, cond, cands, leftFirst);
        Joined(a, b, cond, cond, cands, leftFirst);
      case Cast(_, _, _, _, _, a) => RunMilder(a, cond, cands, leftFirst);
      case Nop | Num(_, _, _) | Lea(_) | Vuse(_) | Memzero(_, _, _) =>
    }
  }

  lemma Joined(a: IrExpr, b: IrExpr, ca: bool, cb: bool, cands: seq<Cand>, leftFirst: IrExpr -> bool)
    requires Milder(RunWalk(a, ca, cands, leftFirst), EvWalk(a, ca, cands))
    requires Milder(RunWalk(b, cb, cands, leftFirst), EvWalk(b, cb, cands))
    ensures Milder(RunWalk(a, ca, cands, leftFirst) + RunWalk(b, cb, cands, leftFirst),
                   EvWalk(a, ca, cands) + EvWalk(b, cb, cands))
  {
    hide RunWalk, EvWalk;
    MilderJoin(RunWalk(a, ca, cands, leftFirst), RunWalk(b, cb, cands, leftFirst), EvWalk(a, ca, cands), EvWalk(b, cb, cands));
  }

  lemma RunArgsMilder(args: seq<IrExpr>, cond: bool, cands: seq<Cand>, leftFirst: IrExpr -> bool)
    requires ArgsListedOk(args, cond, cands, leftFirst)
    ensures Milder(RunArgs(args, cond, cands, leftFirst), EvArgs(args, cond, cands))
    ensures SameEvents(RunArgs(args, cond, cands, leftFirst), EvArgs(args, cond, cands))
    decreases args, 0
  {
    hide Milder, Swaps, RunWalk, EvWalk, ListedOk;
    MilderSelf([]);
    if args != [] {
      RunMilder(args[0], cond, cands, leftFirst);
      RunArgsMilder(args[1..], cond, cands, leftFirst);
      MilderSwap(RunWalk(args[0], cond, cands, leftFirst), RunArgs(args[1..], cond, cands, leftFirst),
                 EvWalk(args[0], cond, cands), EvArgs(args[1..], cond, cands));
    }
  }

  function RunItem(i: Item, cands: seq<Cand>, leftFirst: IrExpr -> bool): (r: seq<RaEv>)
    ensures InRange(r, |cands|)
  {
    if ItemExpr(i).Some? then RunWalk(ItemExpr(i).value, false, cands, leftFirst) else []
  }

  // Events of items [i, end) as performed.
  function RunFrom(items: seq<Item>, i: nat, end: nat, cands: seq<Cand>, leftFirst: IrExpr -> bool): (r: seq<RaEv>)
    requires i <= end <= |items|
    ensures InRange(r, |cands|)
    decreases end - i
  {
    if i == end then [] else RunItem(items[i], cands, leftFirst) + RunFrom(items, i + 1, end, cands, leftFirst)
  }

  // The item's events fit the buffer and their listed order can be trusted.
  predicate ItemListedOk(i: Item, cands: seq<Cand>, leftFirst: IrExpr -> bool) {
    ItemExpr(i).Some? ==>
      |EvWalk(ItemExpr(i).value, false, cands)| <= EVENT_CAP && ListedOk(ItemExpr(i).value, false, cands, leftFirst)
  }

  lemma {:induction false} RunFromMilder(items: seq<Item>, i: nat, end: nat, cands: seq<Cand>, leftFirst: IrExpr -> bool)
    requires i <= end <= |items| && forall k | i <= k < end :: ItemListedOk(items[k], cands, leftFirst)
    ensures Milder(RunFrom(items, i, end, cands, leftFirst), EventsFrom(items, i, end, cands))
    decreases end - i
  {
    hide Milder, ListedOk, RunWalk, EvWalk;
    MilderSelf([]);
    if i < end {
      if ItemExpr(items[i]).Some? { RunMilder(ItemExpr(items[i]).value, false, cands, leftFirst); }
      RunFromMilder(items, i + 1, end, cands, leftFirst);
      MilderJoin(RunItem(items[i], cands, leftFirst), RunFrom(items, i + 1, end, cands, leftFirst),
                 ItemEvents(items[i], cands), EventsFrom(items, i + 1, end, cands));
    }
  }
}
