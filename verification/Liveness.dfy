// Events and exact liveness of items.
module Liveness {
  import opened Words
  import opened Ir
  import opened M68k
  import opened Items
  import opened Sets

  datatype Kind = Use | MustDef | MayDef

  datatype RaEv = RaEv(ci: nat, kind: Kind)

  // A register candidate: a variable and its reference counts.
  datatype Cand = Cand(v: nat, uses: nat, loopUses: nat, addrTaken: bool)

  const EVENT_CAP := 4096

  predicate Colorable(c: Cand) { c.loopUses >= 1 && !c.addrTaken }

  function CandIndex(cands: seq<Cand>, v: nat): (r: Option<nat>)
    ensures r.Some? ==> r.value < |cands| && cands[r.value].v == v
    ensures r.None? ==> forall c | c in cands :: c.v != v
  {
    if cands == [] then None
    else if cands[0].v == v then Some(0)
    else
      var r := CandIndex(cands[1..], v);
      if r.Some? then Some(r.value + 1) else None
  }

  // The colourable candidate for variable `v`.
  function CandOfVar(cands: seq<Cand>, v: nat): (r: Option<nat>)
    ensures r.Some? ==> r.value < |cands| && cands[r.value].v == v && Colorable(cands[r.value])
  {
    var i := CandIndex(cands, v);
    if i.Some? && Colorable(cands[i.value]) then i else None
  }

  function CandOfLea(e: IrExpr, cands: seq<Cand>): (r: Option<nat>)
    ensures r.Some? ==> r.value < |cands|
  {
    if e.Lea? && e.place.Local? then CandOfVar(cands, e.place.v) else None
  }

  function DefKind(cond: bool): Kind { if cond then MayDef else MustDef }

  function EventOf(c: Option<nat>, kind: Kind): seq<RaEv> {
    if c.Some? then [RaEv(c.value, kind)] else []
  }

  predicate InRange(s: seq<RaEv>, n: nat) { forall e | e in s :: e.ci < n }

  // Events of an expression in the order the allocator lists them.
  function EvWalk(e: IrExpr, cond: bool, cands: seq<Cand>): (r: seq<RaEv>)
    ensures InRange(r, |cands|)
    decreases e, 1
  {
    match e
    case Load(a, _, _) =>
      if CandOfLea(a, cands).Some? then EventOf(CandOfLea(a, cands), Use) else EvWalk(a, cond, cands)
    case Store(a, b, _) =>
      if CandOfLea(a, cands).Some? then EvWalk(b, cond, cands) + EventOf(CandOfLea(a, cands), DefKind(cond))
      else EvWalk(a, cond, cands) + EvWalk(b, cond, cands)
    case Memzero(v, _, _) => EventOf(CandOfVar(cands, v), DefKind(cond))
    case Cond(a, b, c) => EvWalk(a, cond, cands) + EvWalk(b, true, cands) + EvWalk(c, true, cands)
    case LogAnd(a, b) => EvWalk(a, cond, cands) + EvWalk(b, true, cands)
    case LogOr(a, b) => EvWalk(a, cond, cands) + EvWalk(b, true, cands)
    case Vdef(_, a) => EvWalk(a, cond, cands)
    case CallDirect(_, args) => EvArgs(args, cond, cands)
    case CallIndirect(a, args) => EvWalk(a, cond, cands) + EvArgs(args, cond, cands)
    case Binop(_, _, _, _, a, b) => EvWalk(a, cond, cands) + EvWalk(b, cond, cands)
    case Unary(_, _, _, a) => EvWalk(a, cond, cands)
    case Comma(a, b) => EvWalk(a, cond, cands) + EvWalk(b, cond, cands)
    case Cast(_, _, _, _, _, a) => EvWalk(a, cond, cands)
    case Nop | Num(_, _, _) | Lea(_) | Vuse(_) => []
  }

  function EvArgs(args: seq<IrExpr>, cond: bool, cands: seq<Cand>): (r: seq<RaEv>)
    ensures InRange(r, |cands|)
    decreases args, 0
  {
    if args == [] then [] else EvWalk(args[0], cond, cands) + EvArgs(args[1..], cond, cands)
  }

  // The event buffer holds EVENT_CAP events; later ones are dropped.
  function Capped(s: seq<RaEv>): seq<RaEv> { if |s| <= EVENT_CAP then s else s[..EVENT_CAP] }

  function ItemExpr(i: Item): Option<IrExpr> {
    match i
    case ICbr(e, _, _) => Some(e)
    case IEval(e) => Some(e)
    case IRet(r) => r
    case ILabel(_) | IJmp(_) | INop => None
  }

  function ItemEvents(i: Item, cands: seq<Cand>): (r: seq<RaEv>)
    ensures InRange(r, |cands|)
  {
    if ItemExpr(i).Some? then Capped(EvWalk(ItemExpr(i).value, false, cands)) else []
  }

  // Events of items [i, end).
  function EventsFrom(items: seq<Item>, i: nat, end: nat, cands: seq<Cand>): (r: seq<RaEv>)
    requires i <= end <= |items|
    ensures InRange(r, |cands|)
    decreases end - i
  {
    if i == end then [] else ItemEvents(items[i], cands) + EventsFrom(items, i + 1, end, cands)
  }

  lemma {:induction false} EventsSnoc(items: seq<Item>, i: nat, end: nat, cands: seq<Cand>)
    requires i <= end < |items|
    ensures EventsFrom(items, i, end + 1, cands) == EventsFrom(items, i, end, cands) + ItemEvents(items[end], cands)
    decreases end - i
  {
    if i < end {
      EventsSnoc(items, i + 1, end, cands);
    } else {
      assert EventsFrom(items, end + 1, end + 1, cands) == [];
    }
  }

  // ---- liveness of one block ------------------------------------------------------------------

  // A use of c before any must-def of it.
  ghost predicate Exposes(s: seq<RaEv>, c: nat) {
    exists k :: 0 <= k < |s| && s[k] == RaEv(c, Use) && RaEv(c, MustDef) !in s[..k]
  }

  predicate Kills(s: seq<RaEv>, c: nat) { RaEv(c, MustDef) in s }

  // Backward transfer: what is live before the events, given what is live after them.
  function Before(s: seq<RaEv>, live: set<nat>): set<nat> {
    if s == [] then live
    else
      var l := Before(s[1..], live);
      match s[0].kind
      case Use => l + {s[0].ci}
      case MustDef => l - {s[0].ci}
      case MayDef => l
  }

  lemma {:induction false} BeforeIs(s: seq<RaEv>, live: set<nat>, c: nat)
    ensures c in Before(s, live) <==> Exposes(s, c) || (c in live && !Kills(s, c))
  {
    if s != [] {
      BeforeIs(s[1..], live, c);
      ExposesCons(s, c);
      assert s == [s[0]] + s[1..];
    }
  }

  lemma ExposesCons(s: seq<RaEv>, c: nat)
    requires s != []
    ensures Exposes(s, c) <==> s[0] == RaEv(c, Use) || (s[0] != RaEv(c, MustDef) && Exposes(s[1..], c))
  {
    if Exposes(s, c) {
      var k :| 0 <= k < |s| && s[k] == RaEv(c, Use) && RaEv(c, MustDef) !in s[..k];
      if k > 0 {
        assert s[..k] == [s[0]] + s[1..][..k - 1];
        assert s[1..][k - 1] == RaEv(c, Use);
      }
    }
    if s[0] == RaEv(c, Use) {
      assert s[..0] == [];
    } else if s[0] != RaEv(c, MustDef) && Exposes(s[1..], c) {
      var k :| 0 <= k < |s[1..]| && s[1..][k] == RaEv(c, Use) && RaEv(c, MustDef) !in s[1..][..k];
      assert s[..k + 1] == [s[0]] + s[1..][..k];
      assert s[k + 1] == RaEv(c, Use);
    }
  }

  lemma ExposesSnoc(s: seq<RaEv>, e: RaEv, c: nat)
    ensures Exposes(s + [e], c) <==> Exposes(s, c) || (e == RaEv(c, Use) && !Kills(s, c))
  {
    var t := s + [e];
    if Exposes(t, c) {
      var k :| 0 <= k < |t| && t[k] == RaEv(c, Use) && RaEv(c, MustDef) !in t[..k];
      if k < |s| { assert t[..k] == s[..k]; } else { assert t[..k] == s; }
    }
    if Exposes(s, c) {
      var k :| 0 <= k < |s| && s[k] == RaEv(c, Use) && RaEv(c, MustDef) !in s[..k];
      assert t[..k] == s[..k] && t[k] == s[k];
    }
    if e == RaEv(c, Use) && !Kills(s, c) {
      assert t[..|s|] == s && t[|s|] == e;
    }
  }

  // ---- liveness over the graph -----------------------------------------------------------------

  // A path along which c is not killed before the last block, which exposes a use of it.
  ghost predicate LivePath(blocks: seq<Block>, evs: seq<seq<RaEv>>, path: seq<nat>, c: nat) {
    && |evs| == |blocks| && |path| > 0
    && (forall i | 0 <= i < |path| :: path[i] < |blocks|)
    && (forall i | 0 <= i < |path| - 1 :: path[i + 1] in blocks[path[i]].succ && !Kills(evs[path[i]], c))
    && Exposes(evs[path[|path| - 1]], c)
  }

  // c is live into b: some path from b comes to a use of c with no earlier must-def.
  ghost predicate LiveIn(blocks: seq<Block>, evs: seq<seq<RaEv>>, b: nat, c: nat) {
    exists path :: LivePath(blocks, evs, path, c) && path[0] == b
  }

  lemma LiveHere(blocks: seq<Block>, evs: seq<seq<RaEv>>, b: nat, c: nat)
    requires |evs| == |blocks| && b < |blocks| && Exposes(evs[b], c)
    ensures LiveIn(blocks, evs, b, c)
  {
    assert LivePath(blocks, evs, [b], c) && [b][0] == b;
  }

  lemma LiveThrough(blocks: seq<Block>, evs: seq<seq<RaEv>>, b: nat, s: nat, c: nat)
    requires |evs| == |blocks| && b < |blocks| && s in blocks[b].succ && !Kills(evs[b], c)
    requires LiveIn(blocks, evs, s, c)
    ensures LiveIn(blocks, evs, b, c)
  {
    var path :| LivePath(blocks, evs, path, c) && path[0] == s;
    var longer := [b] + path;
    forall i | 0 <= i < |longer| - 1
      ensures longer[i + 1] in blocks[longer[i]].succ && !Kills(evs[longer[i]], c)
    {
      if i > 0 { assert longer[i] == path[i - 1] && longer[i + 1] == path[i - 1 + 1]; }
    }
    assert LivePath(blocks, evs, longer, c) && longer[0] == b;
  }

  // The data-flow equations, as inclusions.
  ghost predicate Closed(blocks: seq<Block>, evs: seq<seq<RaEv>>, ins: seq<set<nat>>) {
    && |evs| == |blocks| == |ins|
    && (forall b, c | 0 <= b < |blocks| && Exposes(evs[b], c) :: c in ins[b])
    && (forall b, s: nat, c | 0 <= b < |blocks| && s in blocks[b].succ && s < |blocks| && c in ins[s] && !Kills(evs[b], c) ::
          c in ins[b])
  }

  // Everything live is in any solution of the equations.
  lemma {:induction false} LiveInSolution(blocks: seq<Block>, evs: seq<seq<RaEv>>, ins: seq<set<nat>>, path: seq<nat>, c: nat)
    requires Closed(blocks, evs, ins) && LivePath(blocks, evs, path, c)
    ensures c in ins[path[0]]
    decreases |path|
  {
    hide Exposes;
    if |path| > 1 {
      var rest := path[1..];
      forall i | 0 <= i < |rest| - 1
        ensures rest[i + 1] in blocks[rest[i]].succ && !Kills(evs[rest[i]], c)
      {
        assert rest[i] == path[i + 1] && rest[i + 1] == path[i + 1 + 1];
      }
      LiveInSolution(blocks, evs, ins, rest, c);
      assert path[0 + 1] in blocks[path[0]].succ;
    }
  }

  predicate Fits(succ: seq<nat>, n: nat) { forall k | 0 <= k < |succ| :: succ[k] < n }

  // Union of the sets of a block's successors.
  function Union(ins: seq<set<nat>>, succ: seq<nat>): set<nat>
    requires Fits(succ, |ins|)
  {
    if succ == [] then {} else Union(ins, succ[..|succ| - 1]) + ins[succ[|succ| - 1]]
  }

  lemma {:induction false} UnionIs(ins: seq<set<nat>>, succ: seq<nat>, c: nat)
    requires Fits(succ, |ins|)
    ensures c in Union(ins, succ) <==> exists s: nat :: s in succ && c in ins[s]
  {
    if succ != [] {
      var front := succ[..|succ| - 1];
      UnionIs(ins, front, c);
      assert succ == front + [succ[|succ| - 1]];
    }
  }

  // Total number of members, the loop's progress measure.
  function Total(ins: seq<set<nat>>): nat { if ins == [] then 0 else |ins[0]| + Total(ins[1..]) }

  lemma {:induction false} TotalGrows(x: seq<set<nat>>, y: seq<set<nat>>)
    requires |x| == |y| && forall b | 0 <= b < |x| :: x[b] <= y[b]
    ensures Total(x) <= Total(y) && (x != y ==> Total(x) < Total(y))
  {
    if x != [] {
      TotalGrows(x[1..], y[1..]);
      SubsetSize(x[0], y[0]);
      if x[1..] == y[1..] { assert x == [x[0]] + x[1..] && y == [y[0]] + y[1..]; }
    }
  }

  lemma {:induction false} TotalBound(x: seq<set<nat>>, all: set<nat>)
    requires forall b | 0 <= b < |x| :: x[b] <= all
    ensures Total(x) <= |x| * |all|
  {
    if x != [] {
      TotalBound(x[1..], all);
      SubsetSize(x[0], all);
      assert |x| * |all| == |all| + (|x| - 1) * |all|;
    }
  }

  function Below(n: nat): (r: set<nat>)
    ensures forall c: nat :: c in r <==> c < n
  {
    if n == 0 then {} else Below(n - 1) + {n - 1}
  }

  // ---- interference -----------------------------------------------------------------------------

  // At some definition of i in these events, j is live afterwards.
  ghost predicate Clobbers(s: seq<RaEv>, live: set<nat>, i: nat, j: nat) {
    s != []
    && ((s[0].ci == i && s[0].kind != Use && j in Before(s[1..], live)) || Clobbers(s[1..], live, i, j))
  }

  // i and j cannot share a register.
  ghost predicate Conflict(evs: seq<seq<RaEv>>, ins: seq<set<nat>>, outs: seq<set<nat>>, i: nat, j: nat)
    requires |evs| == |ins| == |outs|
  {
    i != j
    && ((exists b :: 0 <= b < |evs| && (Clobbers(evs[b], outs[b], i, j) || Clobbers(evs[b], outs[b], j, i)))
        || (|ins| > 0 && i in ins[0] && j in ins[0]))
  }

  // What ra_liveness has to establish.
  ghost predicate Solved(blocks: seq<Block>, evs: seq<seq<RaEv>>, ins: seq<set<nat>>, outs: seq<set<nat>>) {
    && |blocks| == |evs| == |ins| == |outs|
    && (forall b: nat, c: nat | b < |blocks| :: c in ins[b] <==> LiveIn(blocks, evs, b, c))
    && (forall b: nat, c: nat | b < |blocks| ::
          c in outs[b] <==> exists s: nat :: s in blocks[b].succ && s < |blocks| && c in ins[s])
  }
}
