// When listed conflicts are enough, exactly.
module ExactSharing {
  import opened Words
  import opened Ir
  import opened Items
  import opened Liveness
  import opened RegAlloc
  import opened Sharing

  // i and j cannot share a register while the events `runs` are performed: one is defined in a
  // block the entry reaches while the other lives, or both live on entry.
  ghost predicate Meets(blocks: seq<Block>, runs: seq<seq<RaEv>>, ins: seq<set<nat>>, outs: seq<set<nat>>, i: nat, j: nat)
    requires |blocks| == |runs| == |ins| == |outs|
  {
    i != j
    && ((exists b :: 0 <= b < |blocks| && Reachable(blocks, b)
                     && (Clobbers(runs[b], outs[b], i, j) || Clobbers(runs[b], outs[b], j, i)))
        || (|ins| > 0 && i in ins[0] && j in ins[0]))
  }

  // Variables that meet as the events are performed are in different places.
  ghost predicate AllKeptApart(blocks: seq<Block>, runs: seq<seq<RaEv>>, ins: seq<set<nat>>, outs: seq<set<nat>>, reg: seq<Reg>)
    requires |blocks| == |runs| == |ins| == |outs|
  {
    forall i: nat, j: nat | Meets(blocks, runs, ins, outs, i, j) :: LocOf(i, reg) != LocOf(j, reg)
  }

  // Every path, from an entry that loads what is live there, finds each candidate's own value.
  ghost predicate Right(blocks: seq<Block>, runs: seq<seq<RaEv>>, path: seq<nat>, acts: seq<seq<Act>>, slots: nat -> int,
                        world: Loc -> int, list: seq<nat>, reg: seq<Reg>) {
    Path(blocks, path) && Runs(blocks, runs, path, acts) && (forall c: nat :: c in list <==> LiveIn(blocks, runs, 0, c)) ==>
      FetchesOwn(Flat(acts), slots, Loaded(list, slots, world, reg), reg)
  }

  ghost predicate SafeEverywhere(blocks: seq<Block>, runs: seq<seq<RaEv>>, reg: seq<Reg>) {
    forall path, acts, slots: nat -> int, world: Loc -> int, list :: Right(blocks, runs, path, acts, slots, world, list, reg)
  }

  // ---- enough --------------------------------------------------------------------------------------

  lemma {:induction false} PathReaches(blocks: seq<Block>, path: seq<nat>, k: nat)
    requires Path(blocks, path) && k < |path|
    ensures Reachable(blocks, path[k])
  {
    var front := path[..k + 1];
    assert Path(blocks, front) && front[|front| - 1] == path[k];
  }

  lemma ApartIsSafe(blocks: seq<Block>, runs: seq<seq<RaEv>>, ins: seq<set<nat>>, outs: seq<set<nat>>, reg: seq<Reg>)
    requires Solved(blocks, runs, ins, outs) && AllKeptApart(blocks, runs, ins, outs, reg)
    ensures SafeEverywhere(blocks, runs, reg)
  {
    hide Solved, FetchesOwn, Clobbers, LiveIn, Loaded, Flat, LocOf;
    forall path, acts, slots: nat -> int, world: Loc -> int, list
      ensures Right(blocks, runs, path, acts, slots, world, list, reg)
    {
      if Path(blocks, path) && Runs(blocks, runs, path, acts) && forall c: nat :: c in list <==> LiveIn(blocks, runs, 0, c) {
        ApartRun(blocks, runs, ins, outs, path, acts, slots, world, list, reg);
      }
    }
  }

  lemma ApartRun(blocks: seq<Block>, runs: seq<seq<RaEv>>, ins: seq<set<nat>>, outs: seq<set<nat>>,
                 path: seq<nat>, acts: seq<seq<Act>>, slots: nat -> int, world: Loc -> int, list: seq<nat>, reg: seq<Reg>)
    requires Solved(blocks, runs, ins, outs) && AllKeptApart(blocks, runs, ins, outs, reg)
    requires Path(blocks, path) && Runs(blocks, runs, path, acts)
    requires forall c: nat :: c in list <==> LiveIn(blocks, runs, 0, c)
    ensures FetchesOwn(Flat(acts), slots, Loaded(list, slots, world, reg), reg)
  {
    hide Solved, FetchesOwn, Clobbers, LiveIn, Loaded, Flat, LocOf, Before;
    SolvedSizes(blocks, runs, ins, outs);
    EntryIs(blocks, runs, ins, outs);
    forall i, j | i in list && j in list && i != j ensures LocOf(i, reg) != LocOf(j, reg) {
      assert Meets(blocks, runs, ins, outs, i, j);
    }
    LoadsAgree(list, slots, world, reg);
    forall k | 0 <= k < |path| ensures SafeAt(blocks, runs, ins, outs, path, k, reg) {
      PathReaches(blocks, path, k);
      SolvedStep(blocks, runs, ins, outs, path, k);
      forall i: nat, j: nat | i != j && Clobbers(runs[path[k]], outs[path[k]], i, j) ensures LocOf(i, reg) != LocOf(j, reg) {
        assert Meets(blocks, runs, ins, outs, i, j);
      }
    }
    PathSafe(blocks, runs, ins, outs, path, acts, slots, Loaded(list, slots, world, reg), reg);
  }

  // ---- needed: a run that reads the wrong value --------------------------------------------------------

  // The must-defs alone; j is given 0, every other candidate 1.
  function Musts(s: seq<RaEv>, j: nat): seq<Act> {
    if s == [] then []
    else if s[0].kind == MustDef then [Assign(s[0].ci, if s[0].ci == j then 0 else 1)] + Musts(s[1..], j)
    else Musts(s[1..], j)
  }

  lemma {:induction false} MustsKept(s: seq<RaEv>, j: nat)
    ensures Keeps(s, Musts(s, j))
  {
    if s != [] { MustsKept(s[1..], j); }
  }

  lemma {:induction false} KeepsJoin(s: seq<RaEv>, x: seq<Act>, t: seq<RaEv>, y: seq<Act>)
    requires Keeps(s, x) && Keeps(t, y)
    ensures Keeps(s + t, x + y)
    decreases |s|
  {
    if s == [] {
      assert s + t == t && x + y == y;
    } else {
      assert (s + t)[1..] == s[1..] + t;
      if x != [] && Performs(s[0], x[0]) && Keeps(s[1..], x[1..]) {
        assert (x + y)[1..] == x[1..] + y;
        KeepsJoin(s[1..], x[1..], t, y);
      } else {
        KeepsJoin(s[1..], x, t, y);
      }
    }
  }

  // One event performed, or the rest of a list after it.
  lemma KeepsOne(e: RaEv, a: Act)
    requires Performs(e, a)
    ensures Keeps([e], [a])
  {
    assert [e][1..] == [] && [a][1..] == [];
  }

  // Where j lives is 1; its own value is 0.
  ghost predicate Wrong(slots: nat -> int, world: Loc -> int, reg: seq<Reg>, j: nat) {
    slots(j) == 0 && world(LocOf(j, reg)) == 1
  }

  ghost predicate SamePlace(reg: seq<Reg>, i: nat, j: nat) { i != j && LocOf(i, reg) == LocOf(j, reg) }

  lemma {:induction false} OwnStays(x: seq<Act>, slots: nat -> int, j: nat)
    requires slots(j) == 0 && forall a | a in x && a.Assign? && a.c == j :: a.v == 0
    ensures Slots(x, slots)(j) == 0
  {
    if x != [] {
      assert x[0] in x;
      OwnStays(x[1..], if x[0].Assign? then Put<nat>(slots, x[0].c, x[0].v) else slots, j);
    }
  }

  lemma {:induction false} MustsValues(s: seq<RaEv>, j: nat)
    ensures forall a | a in Musts(s, j) :: a.Assign? && a.v == (if a.c == j then 0 else 1) && RaEv(a.c, MustDef) in s
  {
    if s != [] { MustsValues(s[1..], j); }
  }

  // Assignments to others than j keep the wrong value where it is.
  lemma {:induction false} WrongStays(x: seq<Act>, slots: nat -> int, world: Loc -> int, reg: seq<Reg>, j: nat)
    requires Wrong(slots, world, reg, j)
    requires forall a | a in x :: a.Assign? && a.c != j && a.v == 1
    ensures Wrong(Slots(x, slots), World(x, world, reg), reg, j)
  {
    if x != [] {
      assert x[0] in x;
      WrongStays(x[1..], Put<nat>(slots, x[0].c, 1), Put(world, LocOf(x[0].c, reg), 1), reg, j);
    }
  }

  lemma {:induction false} FetchesRest(x: seq<Act>, y: seq<Act>, slots: nat -> int, world: Loc -> int, reg: seq<Reg>)
    requires FetchesOwn(x + y, slots, world, reg)
    ensures FetchesOwn(y, Slots(x, slots), World(x, world, reg), reg)
  {
    if x == [] {
      assert x + y == y;
    } else {
      assert (x + y)[0] == x[0] && (x + y)[1..] == x[1..] + y;
      match x[0] {
        case Fetch(_) => FetchesRest(x[1..], y, slots, world, reg);
        case Assign(c, v) => FetchesRest(x[1..], y, Put<nat>(slots, c, v), Put(world, LocOf(c, reg), v), reg);
      }
    }
  }

  lemma {:induction false} SlotsJoin(x: seq<Act>, y: seq<Act>, slots: nat -> int)
    ensures Slots(x + y, slots) == Slots(y, Slots(x, slots))
  {
    if x == [] {
      assert x + y == y;
    } else {
      assert (x + y)[0] == x[0] && (x + y)[1..] == x[1..] + y;
      SlotsJoin(x[1..], y, if x[0].Assign? then Put<nat>(slots, x[0].c, x[0].v) else slots);
    }
  }

  lemma {:induction false} WorldJoin(x: seq<Act>, y: seq<Act>, world: Loc -> int, reg: seq<Reg>)
    ensures World(x + y, world, reg) == World(y, World(x, world, reg), reg)
  {
    if x == [] {
      assert x + y == y;
    } else {
      assert (x + y)[0] == x[0] && (x + y)[1..] == x[1..] + y;
      WorldJoin(x[1..], y, if x[0].Assign? then Put(world, LocOf(x[0].c, reg), x[0].v) else world, reg);
    }
  }

  // Events that use j before any must-def of it read the wrong value.
  lemma UseFails(s: seq<RaEv>, reg: seq<Reg>, j: nat) returns (acts: seq<Act>)
    requires Exposes(s, j)
    ensures Keeps(s, acts)
    ensures forall slots: nat -> int, world: Loc -> int, more |
      Wrong(slots, world, reg, j) :: !FetchesOwn(acts + more, slots, world, reg)
  {
    hide FetchesOwn, Keeps, Wrong, Slots, World;
    var m :| 0 <= m < |s| && s[m] == RaEv(j, Use) && RaEv(j, MustDef) !in s[..m];
    var x, y := Musts(s[..m], j), Musts(s[m + 1..], j);
    MustsKept(s[..m], j);
    MustsKept(s[m + 1..], j);
    KeepsOne(s[m], Fetch(j));
    KeepsJoin(s[..m], x, [s[m]], [Fetch(j)]);
    KeepsJoin(s[..m] + [s[m]], x + [Fetch(j)], s[m + 1..], y);
    assert s[..m] + [s[m]] + s[m + 1..] == s;
    acts := x + [Fetch(j)] + y;
    MustsValues(s[..m], j);
    forall slots: nat -> int, world: Loc -> int, more | Wrong(slots, world, reg, j)
      ensures !FetchesOwn(acts + more, slots, world, reg)
    {
      WrongStays(x, slots, world, reg, j);
      assert acts + more == x + ([Fetch(j)] + (y + more));
      if FetchesOwn(acts + more, slots, world, reg) {
        FetchesRest(x, [Fetch(j)] + (y + more), slots, world, reg);
        FetchFails(y + more, Slots(x, slots), World(x, world, reg), reg, j);
        assert false;
      }
    }
  }

  lemma FetchFails(more: seq<Act>, slots: nat -> int, world: Loc -> int, reg: seq<Reg>, j: nat)
    requires Wrong(slots, world, reg, j)
    ensures !FetchesOwn([Fetch(j)] + more, slots, world, reg)
  {
    assert ([Fetch(j)] + more)[0] == Fetch(j);
  }

  lemma {:induction false} FlatJoin(x: seq<seq<Act>>, y: seq<seq<Act>>)
    ensures Flat(x + y) == Flat(x) + Flat(y)
  {
    if x == [] {
      assert x + y == y && [] + Flat(y) == Flat(y);
    } else {
      assert (x + y)[1..] == x[1..] + y;
      FlatJoin(x[1..], y);
      assert x[0] + (Flat(x[1..]) + Flat(y)) == x[0] + Flat(x[1..]) + Flat(y);
    }
  }

  ghost predicate KeepsAll(runs: seq<seq<RaEv>>, path: seq<nat>, acts: seq<seq<Act>>) {
    |acts| == |path| && forall k | 0 <= k < |path| :: path[k] < |runs| && Keeps(runs[path[k]], acts[k])
  }

  // Along a path on which j lives, the wrong value is kept until it is used.
  lemma {:induction false} LiveFails(blocks: seq<Block>, runs: seq<seq<RaEv>>, path: seq<nat>, reg: seq<Reg>, j: nat)
    returns (acts: seq<seq<Act>>)
    requires LivePath(blocks, runs, path, j)
    ensures KeepsAll(runs, path, acts)
    ensures forall slots: nat -> int, world: Loc -> int | Wrong(slots, world, reg, j) :: !FetchesOwn(Flat(acts), slots, world, reg)
    decreases |path|
  {
    hide FetchesOwn, Keeps, Wrong, Slots, World, Exposes;
    var s := runs[path[0]];
    if |path| == 1 {
      var last := UseFails(s, reg, j);
      acts := [last];
      assert Flat(acts) == last + [] by { assert acts[1..] == []; }
    } else {
      var rest := path[1..];
      forall k | 0 <= k < |rest| - 1
        ensures rest[k + 1] in blocks[rest[k]].succ && !Kills(runs[rest[k]], j)
      {
        assert rest[k] == path[k + 1] && rest[k + 1] == path[k + 1 + 1];
      }
      var more := LiveFails(blocks, runs, rest, reg, j);
      var x := Musts(s, j);
      MustsKept(s, j);
      MustsValues(s, j);
      acts := [x] + more;
      assert Flat(acts) == x + Flat(more) by { assert acts[1..] == more; }
      forall k | 0 <= k < |path| ensures path[k] < |runs| && Keeps(runs[path[k]], acts[k]) {
        if k > 0 { assert path[k] == rest[k - 1] && acts[k] == more[k - 1]; }
      }
      forall slots: nat -> int, world: Loc -> int | Wrong(slots, world, reg, j)
        ensures !FetchesOwn(Flat(acts), slots, world, reg)
      {
        assert path[0 + 1] in blocks[path[0]].succ && !Kills(s, j);
        WrongStays(x, slots, world, reg, j);
        if FetchesOwn(Flat(acts), slots, world, reg) { FetchesRest(x, Flat(more), slots, world, reg); }
      }
    }
  }

  lemma {:induction false} ClobberAt(s: seq<RaEv>, live: set<nat>, i: nat, j: nat) returns (k: nat)
    requires Clobbers(s, live, i, j)
    ensures k < |s| && s[k].ci == i && s[k].kind != Use && j in Before(s[k + 1..], live)
  {
    if s[0].ci == i && s[0].kind != Use && j in Before(s[1..], live) {
      k := 0;
    } else {
      k := ClobberAt(s[1..], live, i, j);
      k := k + 1;
      assert s[k + 1..] == s[1..][k..];
    }
  }

  // A block in which i is defined while j lives: it reads the wrong value, or leaves it.
  lemma BlockFails(s: seq<RaEv>, live: set<nat>, reg: seq<Reg>, i: nat, j: nat) returns (acts: seq<Act>, used: bool)
    requires Clobbers(s, live, i, j) && SamePlace(reg, i, j)
    ensures Keeps(s, acts) && (!used ==> j in live)
    ensures forall slots: nat -> int, world: Loc -> int, more | used && slots(j) == 0 ::
      !FetchesOwn(acts + more, slots, world, reg)
    ensures forall slots: nat -> int, world: Loc -> int | !used && slots(j) == 0 ::
      Wrong(Slots(acts, slots), World(acts, world, reg), reg, j)
  {
    hide FetchesOwn, Keeps, Wrong, Slots, World, Exposes, Clobbers;
    var k := ClobberAt(s, live, i, j);
    var head, tail := s[..k], s[k + 1..];
    BeforeIs(tail, live, j);
    used := Exposes(tail, j);
    var x, y := Musts(head, j), Musts(tail, j);
    MustsKept(head, j);
    MustsKept(tail, j);
    MustsValues(head, j);
    MustsValues(tail, j);
    if used { y := UseFails(tail, reg, j); }
    KeepsOne(s[k], Assign(i, 1));
    KeepsJoin(head, x, [s[k]], [Assign(i, 1)]);
    KeepsJoin(head + [s[k]], x + [Assign(i, 1)], tail, y);
    assert head + [s[k]] + tail == s;
    var front := x + [Assign(i, 1)];
    acts := front + y;
    forall slots: nat -> int, world: Loc -> int | slots(j) == 0
      ensures Wrong(Slots(front, slots), World(front, world, reg), reg, j)
    {
      SetWrong(x, slots, world, reg, i, j);
    }
    forall slots: nat -> int, world: Loc -> int, more | used && slots(j) == 0
      ensures !FetchesOwn(acts + more, slots, world, reg)
    {
      assert acts + more == front + (y + more);
      assert Wrong(Slots(front, slots), World(front, world, reg), reg, j);
      if FetchesOwn(acts + more, slots, world, reg) { FetchesRest(front, y + more, slots, world, reg); }
    }
    forall slots: nat -> int, world: Loc -> int | !used && slots(j) == 0
      ensures Wrong(Slots(acts, slots), World(acts, world, reg), reg, j)
    {
      SlotsJoin(front, y, slots);
      WorldJoin(front, y, world, reg);
      assert !Kills(tail, j);
      WrongStays(y, Slots(front, slots), World(front, world, reg), reg, j);
    }
  }

  lemma SetWrong(x: seq<Act>, slots: nat -> int, world: Loc -> int, reg: seq<Reg>, i: nat, j: nat)
    requires SamePlace(reg, i, j) && slots(j) == 0 && forall a | a in x && a.Assign? && a.c == j :: a.v == 0
    ensures var front := x + [Assign(i, 1)]; Wrong(Slots(front, slots), World(front, world, reg), reg, j)
  {
    OwnStays(x, slots, j);
    SlotsJoin(x, [Assign(i, 1)], slots);
    WorldJoin(x, [Assign(i, 1)], world, reg);
    var one := [Assign(i, 1)];
    assert one[1..] == [];
    assert World(one, World(x, world, reg), reg) == Put(World(x, world, reg), LocOf(i, reg), 1);
    assert Slots(one, Slots(x, slots)) == Put<nat>(Slots(x, slots), i, 1);
  }

  // The must-defs of whole blocks.
  function MustsAll(runs: seq<seq<RaEv>>, path: seq<nat>, j: nat): (acts: seq<seq<Act>>)
    requires forall k | 0 <= k < |path| :: path[k] < |runs|
    ensures |acts| == |path|
  {
    if path == [] then [] else [Musts(runs[path[0]], j)] + MustsAll(runs, path[1..], j)
  }

  lemma {:induction false} MustsAllKept(runs: seq<seq<RaEv>>, path: seq<nat>, j: nat)
    requires forall k | 0 <= k < |path| :: path[k] < |runs|
    ensures KeepsAll(runs, path, MustsAll(runs, path, j))
    ensures forall a | a in Flat(MustsAll(runs, path, j)) :: a.Assign? && a.v == (if a.c == j then 0 else 1)
  {
    hide Keeps;
    if path != [] {
      MustsAllKept(runs, path[1..], j);
      MustsKept(runs[path[0]], j);
      MustsValues(runs[path[0]], j);
      assert MustsAll(runs, path, j)[1..] == MustsAll(runs, path[1..], j);
      forall k | 0 < k < |path| ensures Keeps(runs[path[k]], MustsAll(runs, path, j)[k]) { assert path[k] == path[1..][k - 1]; }
    }
  }

  lemma {:induction false} Listing(s: set<nat>) returns (list: seq<nat>)
    ensures forall c: nat :: c in list <==> c in s
    decreases |s|
  {
    list := [];
    if s != {} {
      var c :| c in s;
      list := Listing(s - {c});
      list := [c] + list;
    }
  }

  // A run that comes to block b, defines i there while j lives, and goes on to a use of j.
  lemma ClobberedRun(blocks: seq<Block>, runs: seq<seq<RaEv>>, ins: seq<set<nat>>, outs: seq<set<nat>>, b: nat,
                     reg: seq<Reg>, i: nat, j: nat, front: seq<nat>) returns (path: seq<nat>, acts: seq<seq<Act>>)
    requires Solved(blocks, runs, ins, outs) && SamePlace(reg, i, j) && b < |blocks| && Clobbers(runs[b], outs[b], i, j)
    requires Path(blocks, front) && front[|front| - 1] == b
    ensures Path(blocks, path) && KeepsAll(runs, path, acts)
    ensures forall slots: nat -> int, world: Loc -> int | slots(j) == 0 :: !FetchesOwn(Flat(acts), slots, world, reg)
  {
    hide Solved, FetchesOwn, Keeps, Wrong, Slots, World, Clobbers, LivePath, Flat;
    SolvedSizes(blocks, runs, ins, outs);
    var before := front[..|front| - 1];
    var x := MustsAll(runs, before, j);
    MustsAllKept(runs, before, j);
    var here, used := BlockFails(runs[b], outs[b], reg, i, j);
    path, acts := front, x + [here];
    FlatJoin(x, [here]);
    FlatOne(here);
    assert front == before + [b];
    var more: seq<seq<Act>> := [];
    if !used {
      var rest := LeavesLive(blocks, runs, ins, outs, b, j);
      LiveIsPath(blocks, runs, rest, j);
      more := LiveFails(blocks, runs, rest, reg, j);
      path, acts := front + rest, x + [here] + more;
      FlatJoin(x + [here], more);
      JoinPaths(blocks, front, rest);
    }
    forall slots: nat -> int, world: Loc -> int | slots(j) == 0 ensures !FetchesOwn(Flat(acts), slots, world, reg) {
      OwnStays(Flat(x), slots, j);
      var slots1, world1 := Slots(Flat(x), slots), World(Flat(x), world, reg);
      if used {
        assert here + [] == here && Flat(acts) == Flat(x) + (here + []);
        assert !FetchesOwn(here + [], slots1, world1, reg);
        if FetchesOwn(Flat(acts), slots, world, reg) { FetchesRest(Flat(x), here + [], slots, world, reg); }
      } else {
        assert Flat(acts) == Flat(x) + (here + Flat(more));
        assert Wrong(Slots(here, slots1), World(here, world1, reg), reg, j);
        assert !FetchesOwn(Flat(more), Slots(here, slots1), World(here, world1, reg), reg);
        if FetchesOwn(Flat(acts), slots, world, reg) {
          FetchesRest(Flat(x), here + Flat(more), slots, world, reg);
          FetchesRest(here, Flat(more), slots1, world1, reg);
        }
      }
    }
  }

  lemma FlatOne(x: seq<Act>)
    ensures Flat([x]) == x
  {
    assert [x][1..] == [] && x + [] == x;
  }

  lemma LeavesLive(blocks: seq<Block>, runs: seq<seq<RaEv>>, ins: seq<set<nat>>, outs: seq<set<nat>>, b: nat, j: nat)
    returns (rest: seq<nat>)
    requires Solved(blocks, runs, ins, outs) && b < |blocks| && j in outs[b]
    ensures LivePath(blocks, runs, rest, j) && rest[0] in blocks[b].succ
  {
    var s: nat :| s in blocks[b].succ && s < |blocks| && j in ins[s];
    assert LiveIn(blocks, runs, s, j);
    rest :| LivePath(blocks, runs, rest, j) && rest[0] == s;
  }

  lemma LiveIsPath(blocks: seq<Block>, runs: seq<seq<RaEv>>, path: seq<nat>, j: nat)
    requires LivePath(blocks, runs, path, j)
    ensures |path| > 0 && (forall k | 0 <= k < |path| :: path[k] < |blocks|)
    ensures forall k | 0 <= k < |path| - 1 :: path[k + 1] in blocks[path[k]].succ
  {}

  lemma JoinPaths(blocks: seq<Block>, front: seq<nat>, rest: seq<nat>)
    requires Path(blocks, front) && |rest| > 0 && rest[0] in blocks[front[|front| - 1]].succ
    requires forall k | 0 <= k < |rest| :: rest[k] < |blocks|
    requires forall k | 0 <= k < |rest| - 1 :: rest[k + 1] in blocks[rest[k]].succ
    ensures Path(blocks, front + rest)
  {
    var all := front + rest;
    forall k | 0 <= k < |all| - 1 ensures all[k + 1] in blocks[all[k]].succ {
      if k + 1 < |front| {
        assert all[k] == front[k] && all[k + 1] == front[k + 1];
      } else if k >= |front| {
        assert all[k] == rest[k - |front|] && all[k + 1] == rest[k - |front| + 1];
      }
    }
  }

  // ---- the two directions together -----------------------------------------------------------------------

  function Marks(j: nat): nat -> int { c => if c == j then 0 else 1 }

  lemma MeetsIsUnsafe(blocks: seq<Block>, runs: seq<seq<RaEv>>, ins: seq<set<nat>>, outs: seq<set<nat>>, reg: seq<Reg>,
                      i: nat, j: nat)
    requires Solved(blocks, runs, ins, outs) && Meets(blocks, runs, ins, outs, i, j) && SamePlace(reg, i, j)
    ensures !SafeEverywhere(blocks, runs, reg)
  {
    hide Solved, FetchesOwn, Clobbers, Keeps, LiveIn, Flat, Loaded;
    SolvedSizes(blocks, runs, ins, outs);
    if |ins| > 0 && i in ins[0] && j in ins[0] {
      EntryIs(blocks, runs, ins, outs);
      EntryUnsafe(blocks, runs, ins, reg, i, j);
    } else {
      var b :| 0 <= b < |blocks| && Reachable(blocks, b)
               && (Clobbers(runs[b], outs[b], i, j) || Clobbers(runs[b], outs[b], j, i));
      var front :| Path(blocks, front) && front[|front| - 1] == b;
      var path, acts, c;
      if Clobbers(runs[b], outs[b], i, j) {
        c := j;
        path, acts := ClobberedRun(blocks, runs, ins, outs, b, reg, i, j, front);
      } else {
        c := i;
        path, acts := ClobberedRun(blocks, runs, ins, outs, b, reg, j, i, front);
      }
      var list := Listing(ins[0]);
      EntryIs(blocks, runs, ins, outs);
      IsRun(blocks, runs, path, acts);
      var world: Loc -> int := _ => 0;
      assert !FetchesOwn(Flat(acts), Marks(c), Loaded(list, Marks(c), world, reg), reg);
      assert !Right(blocks, runs, path, acts, Marks(c), world, list, reg);
    }
  }

  lemma IsRun(blocks: seq<Block>, runs: seq<seq<RaEv>>, path: seq<nat>, acts: seq<seq<Act>>)
    requires |runs| == |blocks| && Path(blocks, path) && KeepsAll(runs, path, acts)
    ensures Runs(blocks, runs, path, acts)
  {
    hide Keeps;
  }

  lemma EntryUnsafe(blocks: seq<Block>, runs: seq<seq<RaEv>>, ins: seq<set<nat>>, reg: seq<Reg>, i: nat, j: nat)
    requires |runs| == |blocks| == |ins| > 0 && SamePlace(reg, i, j) && i in ins[0] && j in ins[0]
    requires forall c: nat :: c in ins[0] <==> LiveIn(blocks, runs, 0, c)
    ensures !SafeEverywhere(blocks, runs, reg)
  {
    hide FetchesOwn, Keeps, Flat;
    var path :| LivePath(blocks, runs, path, j) && path[0] == 0;
    LiveIsPath(blocks, runs, path, j);
    var acts := LiveFails(blocks, runs, path, reg, j);
    var others := Listing(ins[0]);
    var list := [i] + others;
    var world: Loc -> int := _ => 0;
    assert list[1..] == others;
    assert Loaded(list, Marks(j), world, reg) == Put(Loaded(others, Marks(j), world, reg), LocOf(i, reg), Marks(j)(i));
    assert Wrong(Marks(j), Loaded(list, Marks(j), world, reg), reg, j);
    IsRun(blocks, runs, path, acts);
    assert !Right(blocks, runs, path, acts, Marks(j), world, list, reg);
  }

  lemma MeetsDiffer(blocks: seq<Block>, runs: seq<seq<RaEv>>, ins: seq<set<nat>>, outs: seq<set<nat>>, i: nat, j: nat)
    requires |blocks| == |runs| == |ins| == |outs| && Meets(blocks, runs, ins, outs, i, j)
    ensures i != j
  {}

  // An assignment of registers is right on every path, in the order in which events are
  // performed, if and only if it keeps every pair that meets in that order apart.
  lemma SafeIff(blocks: seq<Block>, runs: seq<seq<RaEv>>, ins: seq<set<nat>>, outs: seq<set<nat>>, reg: seq<Reg>)
    requires Solved(blocks, runs, ins, outs)
    ensures |blocks| == |runs| == |ins| == |outs|
    ensures SafeEverywhere(blocks, runs, reg) <==> AllKeptApart(blocks, runs, ins, outs, reg)
  {
    hide Solved, SafeEverywhere, Meets, LocOf;
    SolvedSizes(blocks, runs, ins, outs);
    if AllKeptApart(blocks, runs, ins, outs, reg) {
      ApartIsSafe(blocks, runs, ins, outs, reg);
    } else {
      var i: nat, j: nat :| Meets(blocks, runs, ins, outs, i, j) && LocOf(i, reg) == LocOf(j, reg);
      MeetsDiffer(blocks, runs, ins, outs, i, j);
      MeetsIsUnsafe(blocks, runs, ins, outs, reg, i, j);
    }
  }

  lemma SharersNoClash(evs: seq<seq<RaEv>>, ins: seq<set<nat>>, outs: seq<set<nat>>, i: nat, j: nat) returns (reg: seq<Reg>)
    requires |evs| == |ins| == |outs| && i != j && !Conflict(evs, ins, outs, i, j)
    ensures SamePlace(reg, i, j) && NoClash(evs, ins, outs, reg)
  {
    hide Conflict;
    var n := if i < j then j else i;
    reg := seq(n + 1, c requires 0 <= c < n + 1 => if c == i || c == j then 2 as Reg else 0);
    forall x: nat, y: nat | Conflict(evs, ins, outs, x, y) ensures LocOf(x, reg) != LocOf(y, reg) {
      ConflictSymmetric(evs, ins, outs, x, y);
    }
  }

  // Every assignment that keeps the listed conflicts apart is right on every path, in the order
  // in which events are performed, if and only if they hold every pair that meets in that order.
  lemma ListedEnoughIff(blocks: seq<Block>, evs: seq<seq<RaEv>>, runs: seq<seq<RaEv>>,
                        ins: seq<set<nat>>, outs: seq<set<nat>>, pins: seq<set<nat>>, pouts: seq<set<nat>>)
    requires Solved(blocks, evs, ins, outs) && Solved(blocks, runs, pins, pouts)
    ensures |blocks| == |evs| == |runs| == |ins| == |outs| == |pins| == |pouts|
    ensures (forall reg | NoClash(evs, ins, outs, reg) :: SafeEverywhere(blocks, runs, reg))
      <==> (forall i: nat, j: nat | Meets(blocks, runs, pins, pouts, i, j) :: Conflict(evs, ins, outs, i, j))
  {
    hide Solved, NoClash, SafeEverywhere, Conflict, Meets, LocOf;
    SolvedSizes(blocks, evs, ins, outs);
    SolvedSizes(blocks, runs, pins, pouts);
    if forall i: nat, j: nat | Meets(blocks, runs, pins, pouts, i, j) :: Conflict(evs, ins, outs, i, j) {
      forall reg | NoClash(evs, ins, outs, reg) ensures SafeEverywhere(blocks, runs, reg) {
        forall i: nat, j: nat | Meets(blocks, runs, pins, pouts, i, j) ensures LocOf(i, reg) != LocOf(j, reg) {
          ClashDiffers(evs, ins, outs, reg, i, j);
        }
        SafeIff(blocks, runs, pins, pouts, reg);
      }
    } else {
      var i: nat, j: nat :| Meets(blocks, runs, pins, pouts, i, j) && !Conflict(evs, ins, outs, i, j);
      MeetsDiffer(blocks, runs, pins, pouts, i, j);
      var reg := SharersNoClash(evs, ins, outs, i, j);
      SafeIff(blocks, runs, pins, pouts, reg);
    }
  }
}
