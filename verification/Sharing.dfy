// Sharing registers is safe on every path.
module Sharing {
  import opened Words
  import opened Memory
  import opened Ir
  import opened M68k
  import opened Items
  import opened FoldProof
  import opened Liveness
  import opened RegAlloc

  // ---- runs of event lists -----------------------------------------------------------------

  datatype Act = Fetch(c: nat) | Assign(c: nat, v: int)

  // Where a candidate lives: its register, or its own frame slot.
  datatype Loc = InReg(r: Reg) | InSlot(c: nat)

  function LocOf(c: nat, reg: seq<Reg>): Loc {
    if c < |reg| && reg[c] != 0 then InReg(reg[c]) else InSlot(c)
  }

  predicate Performs(e: RaEv, a: Act) { a.c == e.ci && (a.Fetch? <==> e.kind == Use) }

  // The actions perform a sub-list of the events that keeps every must-def.
  ghost predicate Keeps(s: seq<RaEv>, acts: seq<Act>) {
    if s == [] then acts == []
    else
      || (acts != [] && Performs(s[0], acts[0]) && Keeps(s[1..], acts[1..]))
      || (s[0].kind != MustDef && Keeps(s[1..], acts))
  }

  function Put<T(==)>(f: T -> int, x: T, v: int): T -> int { y => if y == x then v else f(y) }

  // Private slots, and the shared world of registers and frame slots, after the actions.
  function Slots(acts: seq<Act>, slots: nat -> int): nat -> int {
    if acts == [] then slots
    else if acts[0].Assign? then Slots(acts[1..], Put<nat>(slots, acts[0].c, acts[0].v))
    else Slots(acts[1..], slots)
  }

  function World(acts: seq<Act>, world: Loc -> int, reg: seq<Reg>): Loc -> int {
    if acts == [] then world
    else if acts[0].Assign? then World(acts[1..], Put(world, LocOf(acts[0].c, reg), acts[0].v), reg)
    else World(acts[1..], world, reg)
  }

  // Every fetch finds in the shared world what the candidate's private slot holds.
  predicate FetchesOwn(acts: seq<Act>, slots: nat -> int, world: Loc -> int, reg: seq<Reg>) {
    acts == []
    || (match acts[0]
        case Fetch(c) => world(LocOf(c, reg)) == slots(c) && FetchesOwn(acts[1..], slots, world, reg)
        case Assign(c, v) => FetchesOwn(acts[1..], Put<nat>(slots, c, v), Put(world, LocOf(c, reg), v), reg))
  }

  ghost predicate Agree(live: set<nat>, slots: nat -> int, world: Loc -> int, reg: seq<Reg>) {
    forall c | c in live :: world(LocOf(c, reg)) == slots(c)
  }

  lemma {:induction false} RunsJoin(x: seq<Act>, y: seq<Act>, slots: nat -> int, world: Loc -> int, reg: seq<Reg>)
    requires FetchesOwn(x, slots, world, reg) && FetchesOwn(y, Slots(x, slots), World(x, world, reg), reg)
    ensures FetchesOwn(x + y, slots, world, reg)
  {
    if x == [] {
      assert x + y == y;
    } else {
      assert (x + y)[1..] == x[1..] + y;
      match x[0] {
        case Fetch(c) => RunsJoin(x[1..], y, slots, world, reg);
        case Assign(c, v) => RunsJoin(x[1..], y, Put<nat>(slots, c, v), Put(world, LocOf(c, reg), v), reg);
      }
    }
  }

  // ---- one block -----------------------------------------------------------------------------

  // Candidates that share a register never clobber each other in these events.
  ghost predicate Compatible(s: seq<RaEv>, live: set<nat>, reg: seq<Reg>) {
    forall i: nat, j: nat | i != j && Clobbers(s, live, i, j) :: LocOf(i, reg) != LocOf(j, reg)
  }

  lemma {:induction false} BlockSafe(s: seq<RaEv>, live: set<nat>, acts: seq<Act>, slots: nat -> int, world: Loc -> int,
                                     reg: seq<Reg>)
    requires Keeps(s, acts) && Compatible(s, live, reg) && Agree(Before(s, live), slots, world, reg)
    ensures FetchesOwn(acts, slots, world, reg)
    ensures Agree(live, Slots(acts, slots), World(acts, world, reg), reg)
    decreases |s|
  {
    if s != [] {
      var e, l := s[0], Before(s[1..], live);
      assert Compatible(s[1..], live, reg) by {
        forall i: nat, j: nat | i != j && Clobbers(s[1..], live, i, j) ensures LocOf(i, reg) != LocOf(j, reg) {
          assert Clobbers(s, live, i, j);
        }
      }
      if acts != [] && Performs(e, acts[0]) && Keeps(s[1..], acts[1..]) {
        if e.kind == Use {
          BlockSafe(s[1..], live, acts[1..], slots, world, reg);
        } else {
          var a := acts[0];
          AssignAgrees(s, live, a, slots, world, reg);
          BlockSafe(s[1..], live, acts[1..], Put<nat>(slots, a.c, a.v), Put(world, LocOf(a.c, reg), a.v), reg);
        }
      } else {
        BlockSafe(s[1..], live, acts, slots, world, reg);
      }
    }
  }

  lemma AssignAgrees(s: seq<RaEv>, live: set<nat>, a: Act, slots: nat -> int, world: Loc -> int, reg: seq<Reg>)
    requires s != [] && s[0].kind != Use && a.Assign? && a.c == s[0].ci
    requires Compatible(s, live, reg) && Agree(Before(s, live), slots, world, reg)
    ensures Agree(Before(s[1..], live), Put<nat>(slots, a.c, a.v), Put(world, LocOf(a.c, reg), a.v), reg)
  {
    forall c | c in Before(s[1..], live)
      ensures Put(world, LocOf(a.c, reg), a.v)(LocOf(c, reg)) == Put<nat>(slots, a.c, a.v)(c)
    {
      if c != a.c { assert Clobbers(s, live, a.c, c); }
    }
  }

  // ---- whole runs -----------------------------------------------------------------------------

  // Blocks visited, with the actions performed in each.
  ghost predicate Runs(blocks: seq<Block>, evs: seq<seq<RaEv>>, path: seq<nat>, acts: seq<seq<Act>>) {
    && |evs| == |blocks| && |acts| == |path|
    && (forall i | 0 <= i < |path| :: path[i] < |blocks| && Keeps(evs[path[i]], acts[i]))
    && (forall i | 0 <= i < |path| - 1 :: path[i + 1] in blocks[path[i]].succ)
  }

  // Events r stand in for events s: the same transfer, and no definition of one
  // candidate where another lives that s does not have.
  ghost predicate Milder(r: seq<RaEv>, s: seq<RaEv>) {
    && (forall live :: Before(r, live) == Before(s, live))
    && (forall live, i: nat, j: nat | Clobbers(r, live, i, j) :: Clobbers(s, live, i, j))
  }

  ghost predicate MildAll(runs: seq<seq<RaEv>>, evs: seq<seq<RaEv>>) {
    |runs| == |evs| && forall b | 0 <= b < |evs| :: Milder(runs[b], evs[b])
  }

  function Flat(acts: seq<seq<Act>>): seq<Act> { if acts == [] then [] else acts[0] + Flat(acts[1..]) }

  // No two candidates in conflict share a register.
  ghost predicate NoClash(evs: seq<seq<RaEv>>, ins: seq<set<nat>>, outs: seq<set<nat>>, reg: seq<Reg>)
    requires |evs| == |ins| == |outs|
  {
    forall i: nat, j: nat | Conflict(evs, ins, outs, i, j) :: LocOf(i, reg) != LocOf(j, reg)
  }

  lemma SolvedBefore(blocks: seq<Block>, evs: seq<seq<RaEv>>, ins: seq<set<nat>>, outs: seq<set<nat>>, b: nat)
    requires Solved(blocks, evs, ins, outs) && b < |blocks|
    ensures Before(evs[b], outs[b]) <= ins[b]
  {
    hide Exposes, Kills, LiveIn;
    forall c | c in Before(evs[b], outs[b]) ensures c in ins[b] {
      BeforeIs(evs[b], outs[b], c);
      if Exposes(evs[b], c) {
        LiveHere(blocks, evs, b, c);
      } else {
        var s: nat :| s in blocks[b].succ && s < |blocks| && c in ins[s];
        LiveThrough(blocks, evs, b, s, c);
      }
    }
  }

  lemma ClashFree(evs: seq<seq<RaEv>>, ins: seq<set<nat>>, outs: seq<set<nat>>, reg: seq<Reg>, b: nat)
    requires |evs| == |ins| == |outs| && b < |evs| && NoClash(evs, ins, outs, reg)
    ensures Compatible(evs[b], outs[b], reg)
  {
    hide Clobbers;
    forall i: nat, j: nat | i != j && Clobbers(evs[b], outs[b], i, j) ensures LocOf(i, reg) != LocOf(j, reg) {
      assert Conflict(evs, ins, outs, i, j);
    }
  }

  // At the k-th block of a path sharing does not show, and what the next one needs leaves it.
  ghost predicate SafeAt(blocks: seq<Block>, runs: seq<seq<RaEv>>, ins: seq<set<nat>>, outs: seq<set<nat>>, path: seq<nat>,
                       k: nat, reg: seq<Reg>)
    requires k < |path| && |runs| == |ins| == |outs| && forall i | 0 <= i < |path| :: path[i] < |runs|
  {
    var b := path[k];
    && Compatible(runs[b], outs[b], reg) && Before(runs[b], outs[b]) <= ins[b]
    && (k + 1 < |path| ==> ins[path[k + 1]] <= outs[b])
  }

  // From a block into which every live candidate arrives with its own value, every
  // fetch of the rest of the run is right.
  lemma {:induction false} PathSafe(blocks: seq<Block>, runs: seq<seq<RaEv>>, ins: seq<set<nat>>, outs: seq<set<nat>>,
                                    path: seq<nat>, acts: seq<seq<Act>>, slots: nat -> int, world: Loc -> int, reg: seq<Reg>)
    requires |blocks| == |ins| == |outs| && Runs(blocks, runs, path, acts)
    requires forall k | 0 <= k < |path| :: SafeAt(blocks, runs, ins, outs, path, k, reg)
    requires |path| > 0 ==> Agree(ins[path[0]], slots, world, reg)
    ensures FetchesOwn(Flat(acts), slots, world, reg)
    decreases |path|
  {
    hide Compatible, FetchesOwn, Slots, World, Before, Keeps;
    if |path| == 0 {
      NoFetch(slots, world, reg);
    } else {
      var b := path[0];
      assert SafeAt(blocks, runs, ins, outs, path, 0, reg);
      BlockSafe(runs[b], outs[b], acts[0], slots, world, reg);
      var rest := path[1..];
      forall i | 0 <= i < |rest| - 1 ensures rest[i + 1] in blocks[rest[i]].succ {
        assert rest[i] == path[i + 1] && rest[i + 1] == path[i + 1 + 1];
      }
      forall k | 0 <= k < |rest| ensures SafeAt(blocks, runs, ins, outs, rest, k, reg) {
        assert SafeAt(blocks, runs, ins, outs, path, k + 1, reg);
      }
      PathSafe(blocks, runs, ins, outs, rest, acts[1..], Slots(acts[0], slots), World(acts[0], world, reg), reg);
      RunsJoin(acts[0], Flat(acts[1..]), slots, world, reg);
    }
  }

  lemma SolvedStep(blocks: seq<Block>, evs: seq<seq<RaEv>>, ins: seq<set<nat>>, outs: seq<set<nat>>, path: seq<nat>, k: nat)
    requires Solved(blocks, evs, ins, outs) && k < |path| && forall i | 0 <= i < |path| :: path[i] < |blocks|
    requires forall i | 0 <= i < |path| - 1 :: path[i + 1] in blocks[path[i]].succ
    ensures |ins| == |outs| == |evs| == |blocks| && Before(evs[path[k]], outs[path[k]]) <= ins[path[k]]
    ensures k + 1 < |path| ==> ins[path[k + 1]] <= outs[path[k]]
  {
    hide Solved, Before;
    SolvedSizes(blocks, evs, ins, outs);
    SolvedBefore(blocks, evs, ins, outs, path[k]);
    if k + 1 < |path| { EntersOut(blocks, evs, ins, outs, path[k], path[k + 1]); }
  }

  lemma RunSafe(blocks: seq<Block>, evs: seq<seq<RaEv>>, runs: seq<seq<RaEv>>, ins: seq<set<nat>>, outs: seq<set<nat>>,
                path: seq<nat>, acts: seq<seq<Act>>, slots: nat -> int, world: Loc -> int, reg: seq<Reg>)
    requires Solved(blocks, evs, ins, outs) && NoClash(evs, ins, outs, reg)
    requires MildAll(runs, evs) && Runs(blocks, runs, path, acts)
    requires |path| > 0 ==> Agree(ins[path[0]], slots, world, reg)
    ensures FetchesOwn(Flat(acts), slots, world, reg)
  {
    hide Solved, NoClash, Compatible, FetchesOwn, Before, Milder, Flat;
    SolvedSizes(blocks, evs, ins, outs);
    forall k | 0 <= k < |path| ensures SafeAt(blocks, runs, ins, outs, path, k, reg) {
      SolvedStep(blocks, evs, ins, outs, path, k);
      ClashFree(evs, ins, outs, reg, path[k]);
      MildFits(runs[path[k]], evs[path[k]], outs[path[k]], reg);
    }
    PathSafe(blocks, runs, ins, outs, path, acts, slots, world, reg);
  }

  lemma MildBefore(r: seq<RaEv>, s: seq<RaEv>, live: set<nat>)
    requires Milder(r, s)
    ensures Before(r, live) == Before(s, live)
  {
    hide Before, Clobbers;
  }

  lemma MildFits(r: seq<RaEv>, s: seq<RaEv>, live: set<nat>, reg: seq<Reg>)
    requires Milder(r, s) && Compatible(s, live, reg)
    ensures Before(r, live) == Before(s, live) && Compatible(r, live, reg)
  {
    hide Before, Clobbers;
  }

  lemma NoFetch(slots: nat -> int, world: Loc -> int, reg: seq<Reg>)
    ensures FetchesOwn([], slots, world, reg)
  {}

  lemma SolvedSizes(blocks: seq<Block>, evs: seq<seq<RaEv>>, ins: seq<set<nat>>, outs: seq<set<nat>>)
    requires Solved(blocks, evs, ins, outs)
    ensures |blocks| == |evs| == |ins| == |outs|
  {}

  lemma EntersOut(blocks: seq<Block>, evs: seq<seq<RaEv>>, ins: seq<set<nat>>, outs: seq<set<nat>>, b: nat, s: nat)
    requires Solved(blocks, evs, ins, outs) && b < |blocks| && s < |blocks| && s in blocks[b].succ
    ensures ins[s] <= outs[b]
  {
    hide LiveIn;
  }

  // Entry loads the candidates of a list from their slots, one after the other.
  function Loaded(list: seq<nat>, slots: nat -> int, world: Loc -> int, reg: seq<Reg>): Loc -> int {
    if list == [] then world
    else Put(Loaded(list[1..], slots, world, reg), LocOf(list[0], reg), slots(list[0]))
  }

  lemma {:induction false} LoadsAgree(list: seq<nat>, slots: nat -> int, world: Loc -> int, reg: seq<Reg>)
    requires forall i, j | i in list && j in list && i != j :: LocOf(i, reg) != LocOf(j, reg)
    ensures forall c | c in list :: Loaded(list, slots, world, reg)(LocOf(c, reg)) == slots(c)
  {
    if list != [] { LoadsAgree(list[1..], slots, world, reg); }
  }

  // Distinct candidates in distinct places unless they share a register.
  lemma ColoredNoClash(cands: seq<Cand>, order: seq<nat>, conf: seq<set<nat>>, reg: seq<Reg>, evs: seq<seq<RaEv>>,
                       ins: seq<set<nat>>, outs: seq<set<nat>>)
    requires Ranked(cands, order) && Colored(order, conf, reg) && |reg| == |cands|
    requires |evs| == |ins| == |outs|
    requires forall x: nat, y: nat | x < |cands| && y < |cands| :: y in conf[x] <==> Conflict(evs, ins, outs, x, y)
    ensures NoClash(evs, ins, outs, reg)
  {
    hide Ranked, Conflict, FreeAt;
    forall i: nat, j: nat | Conflict(evs, ins, outs, i, j) ensures LocOf(i, reg) != LocOf(j, reg) {
      ConflictSymmetric(evs, ins, outs, i, j);
      if i < |reg| && j < |reg| && reg[i] != 0 && reg[j] != 0 {
        assert i in order[..|order|] && j in order[..|order|];
        var k: nat :| k < |order| && order[k] == i;
        var l: nat :| l < |order| && order[l] == j;
        if k < l { EarlierDiffers(order, conf, reg, k, l); } else { EarlierDiffers(order, conf, reg, l, k); }
      }
    }
  }

  lemma ConflictSymmetric(evs: seq<seq<RaEv>>, ins: seq<set<nat>>, outs: seq<set<nat>>, i: nat, j: nat)
    requires |evs| == |ins| == |outs| && Conflict(evs, ins, outs, i, j)
    ensures i != j && Conflict(evs, ins, outs, j, i)
  {}

  lemma EarlierDiffers(order: seq<nat>, conf: seq<set<nat>>, reg: seq<Reg>, k: nat, l: nat)
    requires Colored(order, conf, reg) && k < l < |order| && order[k] in conf[order[l]] && reg[order[l]] != 0
    ensures reg[order[k]] != reg[order[l]]
  {
    assert FirstFree(order, l, conf, reg);
    var p :| FreeAt(order[..l], order[l], conf, reg, p) && reg[order[l]] == Pool(p);
    assert order[..l][k] == order[k];
  }

  // The allocator's safety. On every path from the entry, whichever sub-list of its
  // events each block performs, as long as the must-defs are all performed, every use
  // reads what the candidate's own slot would hold. The events performed may be the
  // listed ones or any milder ones.
  lemma SharingSafe(cands: seq<Cand>, blocks: seq<Block>, evs: seq<seq<RaEv>>, runs: seq<seq<RaEv>>,
                    ins: seq<set<nat>>, outs: seq<set<nat>>, order: seq<nat>, conf: seq<set<nat>>, reg: seq<Reg>,
                    path: seq<nat>, acts: seq<seq<Act>>, slots: nat -> int, world: Loc -> int, list: seq<nat>)
    requires Solved(blocks, evs, ins, outs) && MildAll(runs, evs)
    requires |conf| == |cands| == |reg|
    requires forall x: nat, y: nat | x < |cands| && y < |cands| :: y in conf[x] <==> Conflict(evs, ins, outs, x, y)
    requires Ranked(cands, order) && Colored(order, conf, reg)
    requires Path(blocks, path) && Runs(blocks, runs, path, acts)
    requires forall c: nat :: c in list <==> LiveIn(blocks, evs, 0, c)
    ensures FetchesOwn(Flat(acts), slots, Loaded(list, slots, world, reg), reg)
  {
    hide Solved, Ranked, Colored, NoClash, Clobbers, Flat, FetchesOwn, Runs, LiveIn, MildAll;
    SolvedSizes(blocks, evs, ins, outs);
    EntryIs(blocks, evs, ins, outs);
    ColoredNoClash(cands, order, conf, reg, evs, ins, outs);
    forall i, j | i in list && j in list && i != j ensures LocOf(i, reg) != LocOf(j, reg) {
      assert Conflict(evs, ins, outs, i, j);
      ClashDiffers(evs, ins, outs, reg, i, j);
    }
    LoadsAgree(list, slots, world, reg);
    RunSafe(blocks, evs, runs, ins, outs, path, acts, slots, Loaded(list, slots, world, reg), reg);
  }

  lemma EntryIs(blocks: seq<Block>, evs: seq<seq<RaEv>>, ins: seq<set<nat>>, outs: seq<set<nat>>)
    requires Solved(blocks, evs, ins, outs) && |blocks| > 0
    ensures forall c: nat :: c in ins[0] <==> LiveIn(blocks, evs, 0, c)
  {
    hide LiveIn;
  }

  lemma ClashDiffers(evs: seq<seq<RaEv>>, ins: seq<set<nat>>, outs: seq<set<nat>>, reg: seq<Reg>, i: nat, j: nat)
    requires |evs| == |ins| == |outs| && NoClash(evs, ins, outs, reg) && Conflict(evs, ins, outs, i, j)
    ensures LocOf(i, reg) != LocOf(j, reg)
  {}

  // ---- when a candidate stays in memory ---------------------------------------------------------

  // Every register below the one a candidate gets, or every one if it stays in memory, is held
  // by a candidate in conflict with it that is used more, or as much and declared earlier.
  lemma MemoryWhenFull(cands: seq<Cand>, order: seq<nat>, conf: seq<set<nat>>, reg: seq<Reg>, c: nat, r: Reg)
    requires Ranked(cands, order) && Colored(order, conf, reg) && |reg| == |cands| && c < |cands|
    requires cands[c].loopUses >= 1 && !cands[c].addrTaken
    requires r != 0 && (reg[c] == 0 || r < reg[c])
    ensures exists d: nat ::
              d < |cands| && d in conf[c] && reg[d] == r
              && (cands[d].uses > cands[c].uses || (cands[d].uses == cands[c].uses && d < c))
  {
    hide FreeAt, Pool;
    var k: nat :| k < |order| && order[k] == c;
    assert FirstFree(order, k, conf, reg);
    var p :| FreeAt(order[..k], order[k], conf, reg, p) && reg[order[k]] == Pool(p);
    var m := HolderOf(order[..k], c, conf, reg, p, r);
    assert order[..k][m] == order[m];
  }

  lemma HolderOf(earlier: seq<nat>, c: nat, conf: seq<set<nat>>, reg: seq<Reg>, p: nat, r: Reg) returns (m: nat)
    requires c < |conf| && Fits(earlier, |reg|) && FreeAt(earlier, c, conf, reg, p)
    requires r != 0 && (Pool(p) == 0 || r < Pool(p))
    ensures m < |earlier| && reg[earlier[m]] == r && earlier[m] in conf[c]
  {
    PoolAscends();
    var q := PoolHas(r);
    assert Held(earlier, c, conf, reg, POOL[q]);
    m :| 0 <= m < |earlier| && reg[earlier[m]] == r && earlier[m] in conf[c];
  }

  // The pool is every register there is.
  lemma PoolHas(r: Reg) returns (q: nat)
    requires r != 0
    ensures q < |POOL| && POOL[q] == r
  {
    q := if r <= 7 then r - 2 else r - 4;
  }

  // The same without liveness: whatever the candidates' conflicts.
  lemma SelectedInTurn(cands: seq<Cand>, order: seq<nat>, reg: seq<Reg>, c: nat, r: Reg)
    requires Ranked(cands, order) && Selected(order, reg) && |reg| == |cands| && c < |cands|
    requires cands[c].loopUses >= 1 && !cands[c].addrTaken
    requires r != 0 && (reg[c] == 0 || r < reg[c])
    ensures exists d: nat ::
              d < |cands| && reg[d] == r
              && (cands[d].uses > cands[c].uses || (cands[d].uses == cands[c].uses && d < c))
  {
    PoolAscends();
    var k: nat :| k < |order| && order[k] == c;
    var q := PoolHas(r);
    assert reg[order[k]] == if k < |POOL| then Pool(k) else 0;
    assert q < k;
    assert reg[order[q]] == Pool(q);
  }

  // ---- everything interferes ----------------------------------------------------------------------

  lemma {:induction false} RankUnique(cands: seq<Cand>, x: seq<nat>, y: seq<nat>, k: nat)
    requires Ranked(cands, x) && Ranked(cands, y) && k <= |x|
    ensures k <= |y| && x[..k] == y[..k]
  {
    if k > 0 {
      RankUnique(cands, x, y, k - 1);
      NextSame(cands, x, y, k - 1);
      assert x[..k] == x[..k - 1] + [x[k - 1]] && y[..k] == y[..k - 1] + [y[k - 1]];
    }
  }

  lemma NextSame(cands: seq<Cand>, x: seq<nat>, y: seq<nat>, k: nat)
    requires Ranked(cands, x) && Ranked(cands, y) && k < |x| && k <= |y| && x[..k] == y[..k]
    ensures k < |y| && x[k] == y[k]
  {
    RankedRange(cands, x);
    RankedRange(cands, y);
    var l := LaterPlace(cands, x, y, k);
    var n := LaterPlace(cands, y, x, k);
    if l > k && n > k {
      RankedAhead(cands, y, k, l);
      RankedAhead(cands, x, k, n);
      assert false;
    }
  }

  lemma RankedAhead(cands: seq<Cand>, x: seq<nat>, k: nat, l: nat)
    requires Ranked(cands, x) && k < l < |x|
    ensures x[k] < |cands| && x[l] < |cands| && Ahead(cands, x[k], x[l])
  {}

  // x[k] is in y, not before k.
  lemma LaterPlace(cands: seq<Cand>, x: seq<nat>, y: seq<nat>, k: nat) returns (l: nat)
    requires Ranked(cands, x) && Ranked(cands, y) && k < |x| && k <= |y| && x[..k] == y[..k]
    ensures k <= l < |y| && y[l] == x[k]
  {
    RankedRange(cands, x);
    assert x[k] in y;
    l :| l < |y| && y[l] == x[k];
    assert forall m | 0 <= m < k :: x[m] == x[..k][m] == y[..k][m] == y[m];
  }

  // If all colourable candidates interfere pairwise, colouring and plain selection
  // give every variable the same register and return the same highest data register.
  lemma AllInterfere(cands: seq<Cand>, x: seq<nat>, y: seq<nat>, conf: seq<set<nat>>, reg: seq<Reg>, plain: seq<Reg>)
    requires Ranked(cands, x) && Colored(x, conf, reg) && |reg| == |cands|
    requires Ranked(cands, y) && Selected(y, plain) && |plain| == |cands|
    requires forall i: nat, j: nat | i < |cands| && j < |cands| && i != j && cands[i].loopUses >= 1 && !cands[i].addrTaken
      && cands[j].loopUses >= 1 && !cands[j].addrTaken :: j in conf[i]
    ensures reg == plain && Highest(reg) == Highest(plain)
  {
    hide Ranked, Highest;
    RankUnique(cands, x, y, |x|);
    RankUnique(cands, y, x, |y|);
    assert x[..|x|] == x && y[..|y|] == y;
    forall k | 0 <= k < |x| ensures reg[x[k]] == Pool(k) { KthColor(cands, x, conf, reg, k); }
    forall i: nat | i < |reg| ensures reg[i] == plain[i] {
      if i in x { var k: nat :| k < |x| && x[k] == i; } else { assert i !in x[..|x|]; }
    }
  }

  lemma {:induction false} KthColor(cands: seq<Cand>, x: seq<nat>, conf: seq<set<nat>>, reg: seq<Reg>, k: nat)
    requires Ranked(cands, x) && Colored(x, conf, reg) && |reg| == |cands| && k < |x|
    requires forall i: nat, j: nat | i < |cands| && j < |cands| && i != j && Colorable(cands[i]) && Colorable(cands[j]) ::
      j in conf[i]
    ensures reg[x[k]] == Pool(k)
    decreases k
  {
    forall m | 0 <= m < k ensures reg[x[m]] == Pool(m) && x[m] in conf[x[k]] {
      KthColor(cands, x, conf, reg, m);
      RankedRange(cands, x);
    }
    assert FirstFree(x, k, conf, reg);
    PoolIsKth(x, k, conf, reg);
  }

  lemma PoolIsKth(x: seq<nat>, k: nat, conf: seq<set<nat>>, reg: seq<Reg>)
    requires k < |x| && |conf| == |reg| && Fits(x, |reg|) && FirstFree(x, k, conf, reg)
    requires forall m | 0 <= m < k :: reg[x[m]] == Pool(m) && x[m] in conf[x[k]]
    ensures reg[x[k]] == Pool(k)
  {
    PoolAscends();
    var p: nat :| FreeAt(x[..k], x[k], conf, reg, p) && reg[x[k]] == Pool(p);
    assert forall m | 0 <= m < k :: x[..k][m] == x[m];
  }
}
