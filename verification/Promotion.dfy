// Shared registers against private variables.
module Promotion {
  import opened Words
  import opened Memory
  import opened Ir
  import opened M68k
  import opened Items
  import opened Optimize
  import opened OptimizeProof
  import opened Liveness
  import opened RegAlloc
  import opened Sharing
  import opened EventOrder

  // The same world with private variables.
  function Own(env: Env): Env { env.(private := true) }

  // The variable whose promoted register `e` is the address of.
  predicate Promoted(e: IrExpr, ra: map<nat, Reg>) { LeaReg(e, ra) != 0 }

  // ---- when the two agree --------------------------------------------------------------------------

  // One candidate a variable; the promoted variables share the candidates' registers.
  ghost predicate Tied(env: Env, cands: seq<Cand>, reg: seq<Reg>) {
    && !env.private && |reg| == |cands| && (forall i, j | 0 <= i < j < |cands| :: cands[i].v != cands[j].v)
    && forall v: nat :: RegOf(env.ra, v) == var c := CandOfVar(cands, v); if c.Some? then reg[c.value] else 0
  }

  // Value temporaries have registers that no candidate has.
  predicate TempsApart(e: IrExpr, reg: seq<Reg>)
    decreases e, 1
  {
    match e
    case Nop | Num(_, _, _) | Lea(_) | Memzero(_, _, _) => true
    case Vuse(r) => r !in reg
    case Vdef(r, a) => r !in reg && TempsApart(a, reg)
    case Load(a, _, _) => TempsApart(a, reg)
    case Store(a, b, _) => TempsApart(a, reg) && TempsApart(b, reg)
    case Binop(_, _, _, _, a, b) => TempsApart(a, reg) && TempsApart(b, reg)
    case Unary(_, _, _, a) => TempsApart(a, reg)
    case LogAnd(a, b) => TempsApart(a, reg) && TempsApart(b, reg)
    case LogOr(a, b) => TempsApart(a, reg) && TempsApart(b, reg)
    case Cond(a, b, c) => TempsApart(a, reg) && TempsApart(b, reg) && TempsApart(c, reg)
    case Comma(a, b) => TempsApart(a, reg) && TempsApart(b, reg)
    case Cast(_, _, _, _, _, a) => TempsApart(a, reg)
    case CallDirect(_, args) => ArgsTempsApart(args, reg)
    case CallIndirect(a, args) => TempsApart(a, reg) && ArgsTempsApart(args, reg)
  }

  predicate ArgsTempsApart(args: seq<IrExpr>, reg: seq<Reg>)
    decreases args, 0
  {
    args == [] || (TempsApart(args[0], reg) && ArgsTempsApart(args[1..], reg))
  }

  // Same memory, trace and value temporaries; live promoted variables have their values.
  ghost predicate Tracks(live: set<nat>, t: State, o: State, cands: seq<Cand>, reg: seq<Reg>) {
    && t.mem == o.mem && t.trace == o.trace
    && (forall r: Reg | r !in reg :: t.regs[r] == o.regs[r])
    && (forall c: nat | c in live && c < |cands| && c < |reg| && reg[c] != 0 :: t.regs[reg[c]] == o.vars(cands[c].v))
  }

  // Ready to perform the events and arrive with `live`.
  ghost predicate Primed(s: seq<RaEv>, live: set<nat>, t: State, o: State, cands: seq<Cand>, reg: seq<Reg>) {
    Compatible(s, live, reg) && Tracks(Before(s, live), t, o, cands, reg)
  }

  lemma PrimedSplit(x: seq<RaEv>, y: seq<RaEv>, live: set<nat>, t: State, o: State, cands: seq<Cand>,
                    reg: seq<Reg>)
    requires Primed(x + y, live, t, o, cands, reg)
    ensures Primed(x, Before(y, live), t, o, cands, reg) && Compatible(y, live, reg)
  {
    hide Before, Clobbers, Tracks;
    BeforeJoin(x, y, live);
    forall i: nat, j: nat | i != j && Clobbers(x, Before(y, live), i, j) ensures LocOf(i, reg) != LocOf(j, reg) {
      ClobbersJoin(x, y, live, i, j);
    }
    forall i: nat, j: nat | i != j && Clobbers(y, live, i, j) ensures LocOf(i, reg) != LocOf(j, reg) {
      ClobbersJoin(x, y, live, i, j);
    }
  }

  lemma Weaker(more: set<nat>, live: set<nat>, t: State, o: State, cands: seq<Cand>, reg: seq<Reg>)
    requires live <= more && Tracks(more, t, o, cands, reg)
    ensures Tracks(live, t, o, cands, reg)
  {}

  // Events without a must-def keep everything live alive.
  lemma {:induction false} KeepsLive(s: seq<RaEv>, live: set<nat>)
    requires forall x | x in s :: x.kind != MustDef
    ensures live <= Before(s, live)
  {
    if s != [] { KeepsLive(s[1..], live); }
  }

  lemma {:induction false} NoMust(e: IrExpr, cands: seq<Cand>, leftFirst: IrExpr -> bool)
    ensures forall x | x in RunWalk(e, true, cands, leftFirst) :: x.kind != MustDef
    decreases e, 1
  {
    hide CandOfLea, CandOfVar;
    match e {
      case Load(a, _, _) => NoMust(a, cands, leftFirst);
      case Store(a, b, _) => NoMust(a, cands, leftFirst); NoMust(b, cands, leftFirst);
      case Cond(a, b, c) => NoMust(a, cands, leftFirst); NoMust(b, cands, leftFirst); NoMust(c, cands, leftFirst);
      case LogAnd(a, b) => NoMust(a, cands, leftFirst); NoMust(b, cands, leftFirst);
      case LogOr(a, b) => NoMust(a, cands, leftFirst); NoMust(b, cands, leftFirst);
      case Vdef(_, a) => NoMust(a, cands, leftFirst);
      case CallDirect(_, args) => NoMustArgs(args, cands, leftFirst);
      case CallIndirect(a, args) => NoMust(a, cands, leftFirst); NoMustArgs(args, cands, leftFirst);
      case Binop(_, _, _, _, a, b) => NoMust(a, cands, leftFirst); NoMust(b, cands, leftFirst);
      case Unary(_, _, _, a) => NoMust(a, cands, leftFirst);
      case Comma(a, b) => NoMust(a, cands, leftFirst); NoMust(b, cands, leftFirst);
      case Cast(_, _, _, _, _, a) => NoMust(a, cands, leftFirst);
      case Nop | Num(_, _, _) | Lea(_) | Vuse(_) | Memzero(_, _, _) =>
    }
  }

  lemma NoMustArgs(args: seq<IrExpr>, cands: seq<Cand>, leftFirst: IrExpr -> bool)
    ensures forall x | x in RunArgs(args, true, cands, leftFirst) :: x.kind != MustDef
    decreases args, 0
  {
    if args != [] {
      NoMust(args[0], cands, leftFirst);
      NoMustArgs(args[1..], cands, leftFirst);
    }
  }

  // A conditional operand that is skipped.
  lemma Skipped(e: IrExpr, live: set<nat>, t: State, o: State, cands: seq<Cand>, reg: seq<Reg>,
                leftFirst: IrExpr -> bool)
    requires Tracks(Before(RunWalk(e, true, cands, leftFirst), live), t, o, cands, reg)
    ensures Tracks(live, t, o, cands, reg)
  {
    hide RunWalk, Before;
    NoMust(e, cands, leftFirst);
    KeepsLive(RunWalk(e, true, cands, leftFirst), live);
    Weaker(Before(RunWalk(e, true, cands, leftFirst), live), live, t, o, cands, reg);
  }

  // ---- one access of a promoted variable ------------------------------------------------------------

  lemma FetchTracks(v: nat, live: set<nat>, t: State, o: State, env: Env, cands: seq<Cand>, reg: seq<Reg>)
    requires Tied(env, cands, reg)
    requires Tracks(Before(EventOf(CandOfVar(cands, v), Use), live), t, o, cands, reg)
    ensures Tracks(live, t, o, cands, reg)
    ensures RegOf(env.ra, v) != 0 ==> t.regs[RegOf(env.ra, v)] == o.vars(v)
  {
    var c := CandOfVar(cands, v);
    if c.Some? { assert Before([RaEv(c.value, Use)], live) == live + {c.value}; }
  }

  lemma AssignTracks(v: nat, w: Word, kind: Kind, live: set<nat>, t: State, o: State, env: Env,
                     cands: seq<Cand>, reg: seq<Reg>)
    requires Tied(env, cands, reg) && kind != Use && RegOf(env.ra, v) != 0
    requires Primed(EventOf(CandOfVar(cands, v), kind), live, t, o, cands, reg)
    ensures Tracks(live, Assigned(v, w, t, env), Assigned(v, w, o, Own(env)), cands, reg)
  {
    var i := CandOfVar(cands, v).value;
    var s := [RaEv(i, kind)];
    assert Before(s[1..], live) == live;
    forall c: nat | c in live && c < |cands| && reg[c] != 0
      ensures SetReg(reg[i], w, t).regs[reg[c]] == SetVar(o.vars, v, w)(cands[c].v)
    {
      if c != i {
        assert Clobbers(s, live, i, c);
        assert LocOf(i, reg) != LocOf(c, reg);
        assert c in Before(s, live);
      }
    }
  }

  // ---- expressions ------------------------------------------------------------------------------------

  ghost predicate SameResult(r: Result, w: Result, live: set<nat>, cands: seq<Cand>, reg: seq<Reg>) {
    (r.Ok? <==> w.Ok?) && (w.Ok? ==> r.v == w.v && Tracks(live, r.st, w.st, cands, reg))
  }

  // Performing an expression's events among registers that do not clash, both
  // meanings give the same value and effects, and go on agreeing on what is live.
  lemma {:induction false} EvalTracks(e: IrExpr, cond: bool, live: set<nat>, t: State, o: State, env: Env,
                                      cands: seq<Cand>, reg: seq<Reg>)
    requires Tied(env, cands, reg) && TempsApart(e, reg)
    requires Primed(RunWalk(e, cond, cands, env.leftFirst), live, t, o, cands, reg)
    ensures SameResult(Eval(e, t, env), Eval(e, o, Own(env)), live, cands, reg)
    decreases e, 3
  {
    hide CandOfVar, Before, Tracks, Tied, Eval, SameResult;
    match e {
      case Nop | Num(_, _, _) | Lea(_) | Vuse(_) =>
        NothingBefore(live);
        LeafTracks(e, live, t, o, env, cands, reg);
      case Memzero(_, _, _) => ClearTracks(e, cond, live, t, o, env, cands, reg);
      case Load(_, _, _) => LoadTracks(e, cond, live, t, o, env, cands, reg);
      case Store(_, _, _) => StoreTracks(e, cond, live, t, o, env, cands, reg);
      case Binop(_, _, _, _, _, _) | Comma(_, _) => TwoTrack(e, cond, live, t, o, env, cands, reg);
      case Unary(_, _, _, _) | Cast(_, _, _, _, _, _) | Vdef(_, _) =>
        OperandTracks(e, cond, live, t, o, env, cands, reg);
      case LogAnd(_, _) | LogOr(_, _) => LogicTracks(e, cond, live, t, o, env, cands, reg);
      case Cond(_, _, _) => ChoiceTracks(e, cond, live, t, o, env, cands, reg);
      case CallDirect(_, _) => DirectTracks(e, cond, live, t, o, env, cands, reg);
      case CallIndirect(_, _) => IndirectTracks(e, cond, live, t, o, env, cands, reg);
    }
  }

  // The nodes with two.
  lemma TwoTrack(e: IrExpr, cond: bool, live: set<nat>, t: State, o: State, env: Env, cands: seq<Cand>, reg: seq<Reg>)
    requires (e.Binop? || e.Comma?) && Tied(env, cands, reg) && TempsApart(e, reg)
    requires Primed(RunWalk(e, cond, cands, env.leftFirst), live, t, o, cands, reg)
    ensures SameResult(Eval(e, t, env), Eval(e, o, Own(env)), live, cands, reg)
    decreases e, 1
  {
    hide BinVal, Compatible, Before, Tracks, Tied;
    if e.Comma? || env.leftFirst(e) {
      PairTracks(e, e.a, e.b, cond, cond, live, t, o, env, cands, reg);
    } else {
      PairTracks(e, e.b, e.a, cond, cond, live, t, o, env, cands, reg);
    }
  }

  lemma LogicTracks(e: IrExpr, cond: bool, live: set<nat>, t: State, o: State, env: Env, cands: seq<Cand>, reg: seq<Reg>)
    requires (e.LogAnd? || e.LogOr?) && Tied(env, cands, reg) && TempsApart(e, reg)
    requires Primed(RunWalk(e, cond, cands, env.leftFirst), live, t, o, cands, reg)
    ensures SameResult(Eval(e, t, env), Eval(e, o, Own(env)), live, cands, reg)
    decreases e, 2
  {
    hide Compatible, Before, Tracks, Tied;
    ShortTracks(e, e.a, e.b, cond, live, t, o, env, cands, reg);
  }

  // The nodes with one operand.
  lemma OperandTracks(e: IrExpr, cond: bool, live: set<nat>, t: State, o: State, env: Env, cands: seq<Cand>,
                      reg: seq<Reg>)
    requires (e.Unary? || e.Cast? || e.Vdef?) && Tied(env, cands, reg) && TempsApart(e, reg)
    requires Primed(RunWalk(e, cond, cands, env.leftFirst), live, t, o, cands, reg)
    ensures SameResult(Eval(e, t, env), Eval(e, o, Own(env)), live, cands, reg)
    decreases e, 1
  {
    hide UnVal, CastVal, Compatible, Before, Tracks, Tied;
    EvalTracks(e.a, cond, live, t, o, env, cands, reg);
    if e.Vdef? {
      var wa := Eval(e.a, o, Own(env));
      if HasValue(wa) && e.reg != 0 { TempTracks(e.reg, wa.v.w, live, Eval(e.a, t, env).st, wa.st, cands, reg); }
    }
  }

  // x, then y after it.
  lemma PairTracks(e: IrExpr, x: IrExpr, y: IrExpr, cx: bool, cy: bool, live: set<nat>, t: State, o: State,
                   env: Env, cands: seq<Cand>, reg: seq<Reg>)
    requires x < e && y < e && Tied(env, cands, reg) && TempsApart(x, reg) && TempsApart(y, reg)
    requires Primed(RunWalk(x, cx, cands, env.leftFirst) + RunWalk(y, cy, cands, env.leftFirst), live, t, o, cands, reg)
    ensures var rx, wx := Eval(x, t, env), Eval(x, o, Own(env));
      && SameResult(rx, wx, Before(RunWalk(y, cy, cands, env.leftFirst), live), cands, reg)
      && (wx.Ok? ==> SameResult(Eval(y, rx.st, env), Eval(y, wx.st, Own(env)), live, cands, reg))
    decreases e, 0
  {
    hide Eval, RunWalk, Before, Compatible, Tracks, Tied, TempsApart;
    var s := RunWalk(y, cy, cands, env.leftFirst);
    PrimedSplit(RunWalk(x, cx, cands, env.leftFirst), s, live, t, o, cands, reg);
    EvalTracks(x, cx, Before(s, live), t, o, env, cands, reg);
    var wx := Eval(x, o, Own(env));
    if wx.Ok? { EvalTracks(y, cy, live, Eval(x, t, env).st, wx.st, env, cands, reg); }
  }

  // x, then y perhaps.
  lemma ShortTracks(e: IrExpr, x: IrExpr, y: IrExpr, cond: bool, live: set<nat>, t: State, o: State,
                    env: Env, cands: seq<Cand>, reg: seq<Reg>)
    requires x < e && y < e && Tied(env, cands, reg) && TempsApart(x, reg) && TempsApart(y, reg)
    requires Primed(RunWalk(x, cond, cands, env.leftFirst) + RunWalk(y, true, cands, env.leftFirst), live, t, o, cands, reg)
    ensures var rx, wx := Eval(x, t, env), Eval(x, o, Own(env));
      && SameResult(rx, wx, live, cands, reg)
      && (wx.Ok? ==> SameResult(Eval(y, rx.st, env), Eval(y, wx.st, Own(env)), live, cands, reg))
    decreases e, 1
  {
    hide Eval, RunWalk, Before, Primed, Tracks, Tied, TempsApart;
    PairTracks(e, x, y, cond, true, live, t, o, env, cands, reg);
    var rx, wx := Eval(x, t, env), Eval(x, o, Own(env));
    if wx.Ok? { Skipped(y, live, rx.st, wx.st, cands, reg, env.leftFirst); }
  }

  lemma ChoiceTracks(e: IrExpr, cond: bool, live: set<nat>, t: State, o: State, env: Env, cands: seq<Cand>,
                     reg: seq<Reg>)
    requires e.Cond? && Tied(env, cands, reg) && TempsApart(e, reg)
    requires Primed(RunWalk(e, cond, cands, env.leftFirst), live, t, o, cands, reg)
    ensures SameResult(Eval(e, t, env), Eval(e, o, Own(env)), live, cands, reg)
    decreases e, 0
  {
    hide Before, Compatible, Tracks, Tied, CandOfVar, RegOf;
    var sa, sb := RunWalk(e.a, cond, cands, env.leftFirst), RunWalk(e.b, true, cands, env.leftFirst);
    var sc := RunWalk(e.c, true, cands, env.leftFirst);
    assert RunWalk(e, cond, cands, env.leftFirst) == sa + sb + sc == sa + (sb + sc);
    hide RunWalk;
    PrimedSplit(sa, sb + sc, live, t, o, cands, reg);
    EvalTracks(e.a, cond, Before(sb + sc, live), t, o, env, cands, reg);
    var ra, wa := Eval(e.a, t, env), Eval(e.a, o, Own(env));
    if HasValue(wa) {
      PrimedSplit(sb, sc, live, ra.st, wa.st, cands, reg);
      if wa.v.w != 0 {
        EvalTracks(e.b, true, Before(sc, live), ra.st, wa.st, env, cands, reg);
        var rb, wb := Eval(e.b, ra.st, env), Eval(e.b, wa.st, Own(env));
        if wb.Ok? { Skipped(e.c, live, rb.st, wb.st, cands, reg, env.leftFirst); }
      } else {
        Skipped(e.b, Before(sc, live), ra.st, wa.st, cands, reg, env.leftFirst);
        EvalTracks(e.c, true, live, ra.st, wa.st, env, cands, reg);
      }
    }
  }

  lemma LeafTracks(e: IrExpr, live: set<nat>, t: State, o: State, env: Env, cands: seq<Cand>, reg: seq<Reg>)
    requires e.Nop? || e.Num? || e.Lea? || e.Vuse?
    requires TempsApart(e, reg) && Tracks(live, t, o, cands, reg)
    ensures SameResult(Eval(e, t, env), Eval(e, o, Own(env)), live, cands, reg)
  {}

  lemma ClearTracks(e: IrExpr, cond: bool, live: set<nat>, t: State, o: State, env: Env, cands: seq<Cand>,
                    reg: seq<Reg>)
    requires e.Memzero? && Tied(env, cands, reg)
    requires Primed(EventOf(CandOfVar(cands, e.v), DefKind(cond)), live, t, o, cands, reg)
    ensures SameResult(Eval(e, t, env), Eval(e, o, Own(env)), live, cands, reg)
  {
    hide Zero, Avoids, CandOfVar, Compatible, Before;
    if RegOf(env.ra, e.v) != 0 {
      AssignTracks(e.v, 0, DefKind(cond), live, t, o, env, cands, reg);
    } else {
      UncolouredDef(e.v, DefKind(cond), live, t, o, env, cands, reg);
    }
  }

  // An event of a candidate in memory changes nothing that is tracked.
  lemma UncolouredDef(v: nat, kind: Kind, live: set<nat>, t: State, o: State, env: Env,
                      cands: seq<Cand>, reg: seq<Reg>)
    requires Tied(env, cands, reg) && RegOf(env.ra, v) == 0
    requires Tracks(Before(EventOf(CandOfVar(cands, v), kind), live), t, o, cands, reg)
    ensures Tracks(live, t, o, cands, reg)
  {
    var c := CandOfVar(cands, v);
    if c.Some? {
      assert [RaEv(c.value, kind)][1..] == [];
      assert live - {c.value} <= Before([RaEv(c.value, kind)], live);
    }
  }

  lemma LoadTracks(e: IrExpr, cond: bool, live: set<nat>, t: State, o: State, env: Env, cands: seq<Cand>,
                   reg: seq<Reg>)
    requires e.Load? && Tied(env, cands, reg) && TempsApart(e, reg)
    requires Primed(RunWalk(e, cond, cands, env.leftFirst), live, t, o, cands, reg)
    ensures SameResult(Eval(e, t, env), Eval(e, o, Own(env)), live, cands, reg)
    decreases e, 0
  {
    hide Compatible, Before, Tracks, CandOfVar, LoadFrom;
    var a := e.a;
    if CandOfLea(a, cands).Some? {
      FetchTracks(a.place.v, live, t, o, env, cands, reg);
      LeafTracks(a, live, t, o, env, cands, reg);
    } else {
      EvalTracks(a, cond, live, t, o, env, cands, reg);
    }
    if !Promoted(a, env.ra) {
      var r, w := Eval(a, t, env), Eval(a, o, Own(env));
      if HasValue(w) { ReadTracks(w.v.w, e.size, e.uns, live, r.st, w.st, env, cands, reg); }
    }
  }

  lemma ReadTracks(p: Word, size: nat, uns: bool, live: set<nat>, t: State, o: State, env: Env,
                   cands: seq<Cand>, reg: seq<Reg>)
    requires Tracks(live, t, o, cands, reg)
    ensures SameResult(LoadFrom(p, size, uns, t, env), LoadFrom(p, size, uns, o, Own(env)), live, cands, reg)
  {
    hide Read, Narrow;
  }

  lemma WriteTracks(p: Word, size: nat, v: Word, live: set<nat>, t: State, o: State, env: Env,
                    cands: seq<Cand>, reg: seq<Reg>)
    requires Tracks(live, t, o, cands, reg)
    ensures SameResult(StoreTo(p, size, v, t, env), StoreTo(p, size, v, o, Own(env)), live, cands, reg)
  {
    hide Write;
  }

  lemma StoreTracks(e: IrExpr, cond: bool, live: set<nat>, t: State, o: State, env: Env, cands: seq<Cand>,
                    reg: seq<Reg>)
    requires e.Store? && Tied(env, cands, reg) && TempsApart(e, reg)
    requires Primed(RunWalk(e, cond, cands, env.leftFirst), live, t, o, cands, reg)
    ensures SameResult(Eval(e, t, env), Eval(e, o, Own(env)), live, cands, reg)
    decreases e, 1
  {
    hide Compatible, Before, Tracks, CandOfVar, StoreTo;
    var a, b := e.a, e.b;
    if CandOfLea(a, cands).Some? {
      var d := EventOf(CandOfLea(a, cands), DefKind(cond));
      PrimedSplit(RunWalk(b, cond, cands, env.leftFirst), d, live, t, o, cands, reg);
      EvalTracks(b, cond, Before(d, live), t, o, env, cands, reg);
      var r, w := Eval(b, t, env), Eval(b, o, Own(env));
      if HasValue(w) { StoredTracks(a, e.size, w.v.w, cond, live, r.st, w.st, env, cands, reg); }
    } else {
      PairTracks(e, a, b, cond, cond, live, t, o, env, cands, reg);
      var ra, wa := Eval(a, t, env), Eval(a, o, Own(env));
      if HasValue(wa) {
        var rb, wb := Eval(b, ra.st, env), Eval(b, wa.st, Own(env));
        if HasValue(wb) { WriteTracks(wa.v.w, e.size, wb.v.w, live, rb.st, wb.st, env, cands, reg); }
      }
    }
  }

  // The store itself, to a candidate.
  lemma StoredTracks(a: IrExpr, size: nat, x: Word, cond: bool, live: set<nat>, t: State, o: State, env: Env,
                     cands: seq<Cand>, reg: seq<Reg>)
    requires a.Lea? && a.place.Local? && Tied(env, cands, reg)
    requires Primed(EventOf(CandOfVar(cands, a.place.v), DefKind(cond)), live, t, o, cands, reg)
    ensures Promoted(a, env.ra) ==> Tracks(live, Assigned(a.place.v, x, t, env), Assigned(a.place.v, x, o, Own(env)), cands, reg)
    ensures var p := PlaceAddr(a.place, env);
      !Promoted(a, env.ra) ==> SameResult(StoreTo(p, size, x, t, env), StoreTo(p, size, x, o, Own(env)), live, cands, reg)
  {
    hide Tracks, StoreTo, Compatible, Before, CandOfVar;
    var v := a.place.v;
    if Promoted(a, env.ra) {
      AssignTracks(v, x, DefKind(cond), live, t, o, env, cands, reg);
    } else {
      UncolouredDef(v, DefKind(cond), live, t, o, env, cands, reg);
      WriteTracks(PlaceAddr(a.place, env), size, x, live, t, o, env, cands, reg);
    }
  }

  ghost predicate SameArgs(r: ArgsResult, w: ArgsResult, live: set<nat>, cands: seq<Cand>, reg: seq<Reg>) {
    (r.ArgsOk? <==> w.ArgsOk?) && (w.ArgsOk? ==> r.vals == w.vals && Tracks(live, r.st, w.st, cands, reg))
  }

  lemma ArgsTrack(args: seq<IrExpr>, cond: bool, live: set<nat>, t: State, o: State, env: Env,
                  cands: seq<Cand>, reg: seq<Reg>)
    requires Tied(env, cands, reg) && ArgsTempsApart(args, reg)
    requires Primed(RunArgs(args, cond, cands, env.leftFirst), live, t, o, cands, reg)
    ensures SameArgs(EvalArgs(args, t, env), EvalArgs(args, o, Own(env)), live, cands, reg)
    decreases args, 0
  {
    hide Eval, RunWalk, Before, Compatible, Tracks, Tied, TempsApart;
    if args == [] {
      assert Before([], live) == live by { NothingBefore(live); }
    } else {
      var s := RunWalk(args[0], cond, cands, env.leftFirst);
      PrimedSplit(RunArgs(args[1..], cond, cands, env.leftFirst), s, live, t, o, cands, reg);
      ArgsTrack(args[1..], cond, Before(s, live), t, o, env, cands, reg);
      var rest, own := EvalArgs(args[1..], t, env), EvalArgs(args[1..], o, Own(env));
      if own.ArgsOk? { EvalTracks(args[0], cond, live, rest.st, own.st, env, cands, reg); }
    }
  }

  lemma NothingBefore(live: set<nat>)
    ensures Before([], live) == live
  {}

  lemma CallTracks(f: Word, vals: seq<Word>, live: set<nat>, t: State, o: State, env: Env, cands: seq<Cand>,
                   reg: seq<Reg>)
    requires Tracks(live, t, o, cands, reg)
    ensures SameResult(Invoke(f, vals, t, env), Invoke(f, vals, o, Own(env)), live, cands, reg)
  {
    hide Visible;
  }

  lemma DirectTracks(e: IrExpr, cond: bool, live: set<nat>, t: State, o: State, env: Env, cands: seq<Cand>,
                     reg: seq<Reg>)
    requires e.CallDirect? && Tied(env, cands, reg) && TempsApart(e, reg)
    requires Primed(RunWalk(e, cond, cands, env.leftFirst), live, t, o, cands, reg)
    ensures SameResult(Eval(e, t, env), Eval(e, o, Own(env)), live, cands, reg)
    decreases e, 0
  {
    hide Before, Compatible, Tracks, Tied, Invoke, CandOfVar, RegOf;
    ArgsTrack(e.args, cond, live, t, o, env, cands, reg);
    var ws := EvalArgs(e.args, o, Own(env));
    if ws.ArgsOk? {
      CallTracks(env.sym(e.name), ws.vals, live, EvalArgs(e.args, t, env).st, ws.st, env, cands, reg);
    }
  }

  lemma IndirectTracks(e: IrExpr, cond: bool, live: set<nat>, t: State, o: State, env: Env, cands: seq<Cand>,
                       reg: seq<Reg>)
    requires e.CallIndirect? && Tied(env, cands, reg) && TempsApart(e, reg)
    requires Primed(RunWalk(e, cond, cands, env.leftFirst), live, t, o, cands, reg)
    ensures SameResult(Eval(e, t, env), Eval(e, o, Own(env)), live, cands, reg)
    decreases e, 0
  {
    hide Before, Compatible, Tracks, Tied, Invoke, CandOfVar, RegOf;
    var s := RunWalk(e.a, cond, cands, env.leftFirst);
    PrimedSplit(RunArgs(e.args, cond, cands, env.leftFirst), s, live, t, o, cands, reg);
    ArgsTrack(e.args, cond, Before(s, live), t, o, env, cands, reg);
    var rs, ws := EvalArgs(e.args, t, env), EvalArgs(e.args, o, Own(env));
    if ws.ArgsOk? {
      EvalTracks(e.a, cond, live, rs.st, ws.st, env, cands, reg);
      var ra, wa := Eval(e.a, rs.st, env), Eval(e.a, ws.st, Own(env));
      if HasValue(wa) { CallTracks(wa.v.w, ws.vals, live, ra.st, wa.st, env, cands, reg); }
    }
  }

  // Defining a value temporary.
  lemma TempTracks(r: Reg, x: Word, live: set<nat>, t: State, o: State, cands: seq<Cand>, reg: seq<Reg>)
    requires r != 0 && r !in reg && Tracks(live, t, o, cands, reg)
    ensures Tracks(live, SetReg(r, x, t), SetReg(r, x, o), cands, reg)
  {}
}
