// Lowered items keep a statement's meaning.
module LowerProof {
  import opened Words
  import opened Ir
  import opened M68k
  import opened Items
  import opened Lower

  ghost predicate ItemsAt(p: seq<Item>, pc: nat, x: seq<Item>) {
    pc + |x| <= |p| && forall i | 0 <= i < |x| :: p[pc + i] == x[i]
  }

  lemma ItemsAtSplit(p: seq<Item>, pc: nat, x: seq<Item>, y: seq<Item>)
    requires ItemsAt(p, pc, x + y)
    ensures ItemsAt(p, pc, x) && ItemsAt(p, pc + |x|, y)
  {
    assert forall i | 0 <= i < |x| :: (x + y)[i] == x[i];
    forall i | 0 <= i < |y| ensures p[pc + |x| + i] == y[i] {
      assert (x + y)[|x| + i] == y[i];
    }
  }

  // Every label is defined once.
  ghost predicate DefinedOnce(p: seq<Item>) {
    forall i, j | 0 <= i < |p| && 0 <= j < |p| && p[i].ILabel? && p[i] == p[j] :: i == j
  }

  lemma FindIs(p: seq<Item>, l: Label, i: nat)
    requires DefinedOnce(p) && i < |p| && p[i] == ILabel(l)
    ensures FindLabel(p, l) == i
  {
    var f := FindLabel(p, l);
    assert f <= i;
    assert p[f] == p[i];
  }

  // After `n` steps from item `pc` the run is where the outcome says; a computation
  // out of fuel is still running after at least `fuel` steps.
  ghost predicate Matches(p: seq<Item>, env: Env, c: Conf, end: nat, o: Outcome, fuel: nat, n: nat) {
    match o
    case Normal(st) => ItemRun(c, p, env, n) == AtItem(end, st)
    case Jumped(l, st) => ItemRun(c, p, env, n) == Jump(p, l, st)
    case Returned(v, st) => ItemRun(c, p, env, n) == Left(v, st)
    case Wrong => ItemRun(c, p, env, n) == Stuck
    case OutOfFuel => n >= fuel && ItemRun(c, p, env, n).AtItem?
  }

  // Prefix a run with `i` steps that led to configuration `d`.
  lemma After(p: seq<Item>, env: Env, c: Conf, i: nat, d: Conf, end: nat, o: Outcome, fuel: nat, fuel2: nat, n: nat)
    requires ItemRun(c, p, env, i) == d && Matches(p, env, d, end, o, fuel2, n)
    requires fuel <= fuel2 + i
    ensures Matches(p, env, c, end, o, fuel, i + n)
  {
    hide ItemStep, ItemRun;
    ItemRunAdd(c, p, env, i, n);
  }

  lemma OneStep(p: seq<Item>, env: Env, c: Conf)
    ensures ItemRun(c, p, env, 1) == ItemStep(c, p, env) && ItemRun(c, p, env, 0) == c
  {
    hide ItemStep;
  }

  lemma LabelPasses(p: seq<Item>, env: Env, pc: nat, st: State)
    requires pc < |p| && p[pc].ILabel?
    ensures ItemRun(AtItem(pc, st), p, env, 1) == AtItem(pc + 1, st)
  {
    OneStep(p, env, AtItem(pc, st));
  }

  lemma JumpGoes(p: seq<Item>, env: Env, pc: nat, st: State, l: Label, t: nat)
    requires pc < |p| && p[pc] == IJmp(l) && DefinedOnce(p) && t < |p| && p[t] == ILabel(l)
    ensures ItemRun(AtItem(pc, st), p, env, 1) == AtItem(t, st)
  {
    FindIs(p, l, t);
    OneStep(p, env, AtItem(pc, st));
  }

  lemma JumpTo(p: seq<Item>, l: Label, st: State, t: nat)
    requires DefinedOnce(p) && t < |p| && p[t] == ILabel(l)
    ensures Jump(p, l, st) == AtItem(t, st)
  {
    FindIs(p, l, t);
  }

  lemma CbrGoes(p: seq<Item>, env: Env, pc: nat, st: State, t: nat)
    requires pc < |p| && p[pc].ICbr? && DefinedOnce(p) && t < |p| && p[t] == ILabel(p[pc].l)
    ensures var r := Eval(p[pc].e, st, env);
      ItemRun(AtItem(pc, st), p, env, 1)
      == if !HasValue(r) then Stuck else if (r.v.w != 0) == p[pc].when then AtItem(t, r.st) else AtItem(pc + 1, r.st)
  {
    hide Eval;
    FindIs(p, p[pc].l, t);
    OneStep(p, env, AtItem(pc, st));
  }

  lemma EvalGoes(p: seq<Item>, env: Env, pc: nat, st: State)
    requires pc < |p| && p[pc].IEval?
    ensures var r := Eval(p[pc].e, st, env);
      ItemRun(AtItem(pc, st), p, env, 1) == if r.Fail? then Stuck else AtItem(pc + 1, r.st)
  {
    hide Eval;
    OneStep(p, env, AtItem(pc, st));
  }

  lemma {:induction false} StmtOk(s: Stmt, u: nat, p: seq<Item>, env: Env, pc: nat, st: State, fuel: nat) returns (n: nat)
    requires DefinedOnce(p) && ItemsAt(p, pc, LowerStmt(s, u).items)
    ensures Matches(p, env, AtItem(pc, st), pc + |LowerStmt(s, u).items|, Exec(s, st, env, fuel), fuel, n)
    decreases fuel, s, 2
  {
    hide ItemStep, ItemRun, Eval, Matches;
    match s {
      case Block(body) => n := SeqOk(body, u, p, env, pc, st, fuel); SameBlock(s, u, st, env, fuel);
      case NullStmt => n := LeafOk(s, u, p, env, pc, st, fuel);
      case ExprStmt(_) => n := LeafOk(s, u, p, env, pc, st, fuel);
      case Return(_) => n := LeafOk(s, u, p, env, pc, st, fuel);
      case Goto(_) => n := LeafOk(s, u, p, env, pc, st, fuel);
      case If(_, _, _) => n := IfOk(s, u, p, env, pc, st, fuel);
      case For(_, _, _, _, _, _) => n := ForOk(s, u, p, env, pc, st, fuel);
      case Do(_, _, _, _) => n := DoOk(s, u, p, env, pc, st, fuel); SameDo(s, st, env, fuel);
    }
  }

  lemma SameBlock(s: Stmt, u: nat, st: State, env: Env, fuel: nat)
    requires s.Block?
    ensures LowerStmt(s, u) == LowerSeq(s.body, u) && Exec(s, st, env, fuel) == ExecSeq(s.body, st, env, fuel)
  {}

  lemma SameDo(s: Stmt, st: State, env: Env, fuel: nat)
    requires s.Do?
    ensures Exec(s, st, env, fuel) == DoTurns(s, st, env, fuel)
  {}

  lemma LeafOk(s: Stmt, u: nat, p: seq<Item>, env: Env, pc: nat, st: State, fuel: nat) returns (n: nat)
    requires s.NullStmt? || s.ExprStmt? || s.Return? || s.Goto?
    requires ItemsAt(p, pc, LowerStmt(s, u).items)
    ensures Matches(p, env, AtItem(pc, st), pc + |LowerStmt(s, u).items|, Exec(s, st, env, fuel), fuel, n)
  {
    hide Eval, Jump;
    n := if s.NullStmt? then 0 else 1;
    OneStep(p, env, AtItem(pc, st));
    if !s.NullStmt? { assert p[pc + 0] == LowerStmt(s, u).items[0]; }
  }

  lemma SeqOk(body: seq<Stmt>, u: nat, p: seq<Item>, env: Env, pc: nat, st: State, fuel: nat) returns (n: nat)
    requires DefinedOnce(p) && ItemsAt(p, pc, LowerSeq(body, u).items)
    ensures Matches(p, env, AtItem(pc, st), pc + |LowerSeq(body, u).items|, ExecSeq(body, st, env, fuel), fuel, n)
    decreases fuel, body, 1
  {
    hide ItemStep, ItemRun;
    if body == [] {
      n := 0;
      OneStep(p, env, AtItem(pc, st));
    } else {
      var x := LowerStmt(body[0], u);
      var y := LowerSeq(body[1..], x.uid);
      ItemsAtSplit(p, pc, x.items, y.items);
      n := StmtOk(body[0], u, p, env, pc, st, fuel);
      var o := Exec(body[0], st, env, fuel);
      if o.Normal? {
        var k := SeqOk(body[1..], x.uid, p, env, pc + |x.items|, o.st, fuel);
        After(p, env, AtItem(pc, st), n, AtItem(pc + |x.items|, o.st), pc + |x.items| + |y.items|,
              ExecSeq(body[1..], o.st, env, fuel), fuel, fuel, k);
        n := n + k;
      }
    }
  }

  lemma IfOk(s: Stmt, u: nat, p: seq<Item>, env: Env, pc: nat, st: State, fuel: nat) returns (n: nat)
    requires s.If? && DefinedOnce(p) && ItemsAt(p, pc, LowerStmt(s, u).items)
    ensures Matches(p, env, AtItem(pc, st), pc + |LowerStmt(s, u).items|, Exec(s, st, env, fuel), fuel, n)
    decreases fuel, s, 1
  {
    hide ItemStep, ItemRun, Eval, Matches;
    var lelse, lend := Lbl("L_else_", u), Lbl("L_end_", u);
    var x := LowerStmt(s.thn, u + 1);
    var y := if s.els.Some? then LowerStmt(s.els.value, x.uid) else Lowered([], x.uid);
    var head, mid := [ICbr(s.cond, lelse, false)], [IJmp(lend), ILabel(lelse)];
    ItemsAtSplit(p, pc, head + x.items + mid + y.items, [ILabel(lend)]);
    ItemsAtSplit(p, pc, head + x.items + mid, y.items);
    ItemsAtSplit(p, pc, head + x.items, mid);
    ItemsAtSplit(p, pc, head, x.items);
    var q := pc + 1 + |x.items|;
    var end := q + 2 + |y.items|;
    assert p[pc + 0] == head[0] && p[q + 0] == mid[0] && p[q + 1] == mid[1] && p[end + 0] == [ILabel(lend)][0];
    var c := AtItem(pc, st);
    CbrGoes(p, env, pc, st, q + 1);
    var r := Eval(s.cond, st, env);
    var o := Exec(s, st, env, fuel);
    if !HasValue(r) {
      n := 1;
      Stops(p, env, c, end + 1, fuel);
    } else if r.v.w != 0 {
      var k := StmtOk(s.thn, u + 1, p, env, pc + 1, r.st, fuel);
      var j := ThenEnd(p, env, pc + 1, r.st, q, lend, end, o, fuel, k);
      After(p, env, c, 1, AtItem(pc + 1, r.st), end + 1, o, fuel, fuel, j);
      n := 1 + j;
    } else {
      LabelPasses(p, env, q + 1, r.st);
      ItemRunAdd(c, p, env, 1, 1);
      var j := ElseEnd(s, x.uid, p, env, q + 2, r.st, end, fuel);
      After(p, env, c, 2, AtItem(q + 2, r.st), end + 1, o, fuel, fuel, j);
      n := 2 + j;
    }
  }

  lemma Stops(p: seq<Item>, env: Env, c: Conf, end: nat, fuel: nat)
    requires ItemRun(c, p, env, 1) == Stuck
    ensures Matches(p, env, c, end, Wrong, fuel, 1)
  {}

  // The first arm ended normally: jump over the second arm and pass the end label.
  lemma ThenEnd(p: seq<Item>, env: Env, pc: nat, st: State, q: nat, lend: Label, end: nat, o: Outcome, fuel: nat, k: nat)
    returns (n: nat)
    requires DefinedOnce(p) && Matches(p, env, AtItem(pc, st), q, o, fuel, k)
    requires q < |p| && p[q] == IJmp(lend) && end < |p| && p[end] == ILabel(lend)
    ensures Matches(p, env, AtItem(pc, st), end + 1, o, fuel, n)
  {
    hide ItemStep, ItemRun;
    n := k;
    if o.Normal? {
      JumpGoes(p, env, q, o.st, lend, end);
      LabelPasses(p, env, end, o.st);
      ItemRunAdd(AtItem(pc, st), p, env, k, 1);
      ItemRunAdd(AtItem(pc, st), p, env, k + 1, 1);
      n := k + 2;
    }
  }

  lemma ElseEnd(s: Stmt, u: nat, p: seq<Item>, env: Env, pc: nat, st: State, end: nat, fuel: nat) returns (n: nat)
    requires s.If? && DefinedOnce(p) && end < |p| && p[end].ILabel?
    requires var y := if s.els.Some? then LowerStmt(s.els.value, u).items else [];
      ItemsAt(p, pc, y) && end == pc + |y|
    ensures var o := if s.els.Some? then Exec(s.els.value, st, env, fuel) else Normal(st);
      Matches(p, env, AtItem(pc, st), end + 1, o, fuel, n)
    decreases fuel, s, 0
  {
    hide ItemStep, ItemRun;
    OneStep(p, env, AtItem(pc, st));
    var o := Normal(st);
    n := 0;
    if s.els.Some? {
      n := StmtOk(s.els.value, u, p, env, pc, st, fuel);
      o := Exec(s.els.value, st, env, fuel);
    }
    if o.Normal? {
      LabelPasses(p, env, end, o.st);
      ItemRunAdd(AtItem(pc, st), p, env, n, 1);
      n := n + 1;
    }
  }

  // ---- loops -------------------------------------------------------------------------------

  // The parts of a lowered for loop, from its begin label on.
  ghost predicate ForParts(s: Stmt, u: nat, p: seq<Item>, lbegin: Label, at: nat, body: nat, end: nat) {
    && s.For?
    && ItemsAt(p, at, ForHead(s.test, lbegin, s.brk))
    && body == at + |ForHead(s.test, lbegin, s.brk)|
    && ItemsAt(p, body, LowerStmt(s.loop, u).items)
    && ItemsAt(p, body + |LowerStmt(s.loop, u).items|, ForTail(s.inc, lbegin, s.brk, s.cont))
    && end == body + |LowerStmt(s.loop, u).items| + |ForTail(s.inc, lbegin, s.brk, s.cont)|
  }

  lemma ForOk(s: Stmt, u: nat, p: seq<Item>, env: Env, pc: nat, st: State, fuel: nat) returns (n: nat)
    requires s.For? && DefinedOnce(p) && ItemsAt(p, pc, LowerStmt(s, u).items)
    ensures Matches(p, env, AtItem(pc, st), pc + |LowerStmt(s, u).items|, Exec(s, st, env, fuel), fuel, n)
    decreases fuel, s, 1
  {
    hide ItemStep, ItemRun, Eval;
    var lbegin := Lbl("L_begin_", u);
    var x := if s.init.Some? then LowerStmt(s.init.value, u + 1) else Lowered([], u + 1);
    var y := LowerStmt(s.loop, x.uid).items;
    var head, tail := ForHead(s.test, lbegin, s.brk), ForTail(s.inc, lbegin, s.brk, s.cont);
    ItemsAtSplit(p, pc, x.items + head + y, tail);
    ItemsAtSplit(p, pc, x.items + head, y);
    ItemsAtSplit(p, pc, x.items, head);
    var at := pc + |x.items|;
    var end := at + |head| + |y| + |tail|;
    OneStep(p, env, AtItem(pc, st));
    n := 0;
    var o := Normal(st);
    if s.init.Some? {
      n := StmtOk(s.init.value, u + 1, p, env, pc, st, fuel);
      o := Exec(s.init.value, st, env, fuel);
    }
    if o.Normal? {
      var k := ForTurnsOk(s, x.uid, p, env, lbegin, at, at + |head|, end, o.st, fuel);
      After(p, env, AtItem(pc, st), n, AtItem(at, o.st), end, ForTurns(s, o.st, env, fuel), fuel, fuel, k);
      n := n + k;
    }
  }

  lemma ForTurnsOk(s: Stmt, u: nat, p: seq<Item>, env: Env, lbegin: Label, at: nat, body: nat, end: nat, st: State,
                   fuel: nat) returns (n: nat)
    requires s.For? && DefinedOnce(p) && ForParts(s, u, p, lbegin, at, body, end)
    ensures Matches(p, env, AtItem(at, st), end, ForTurns(s, st, env, fuel), fuel, n)
    decreases fuel, s, 0
  {
    hide ItemStep, ItemRun, Eval, LowerStmt, Exec, ForParts;
    var c := AtItem(at, st);
    if fuel == 0 {
      n := 0;
      OneStep(p, env, c);
      return;
    }
    var o1, i := ForTest(s, u, p, env, lbegin, at, body, end, st);
    if !o1.Normal? {
      n := i;
      return;
    }
    var r := if s.test.Some? then Eval(s.test.value, st, env) else Ok(W(1), st);
    if r.v.w == 0 {
      n := i;
      return;
    }
    ForBody(s, u, p, lbegin, at, body, end);
    var k := StmtOk(s.loop, u, p, env, body, r.st, fuel);
    var o := Exec(s.loop, r.st, env, fuel);
    After(p, env, c, i, AtItem(body, r.st), body + |LowerStmt(s.loop, u).items|, o, fuel, fuel, k);
    n := i + k;
    if o.Normal? || (o.Jumped? && o.l == s.cont) {
      var j := ForContinues(s, u, p, env, lbegin, at, body, end, c, n, o);
      n := n + j;
      var inc := if s.inc.Some? then Eval(s.inc.value, o.st, env) else Ok(Void, o.st);
      if inc.Ok? {
        var t := ForTurnsOk(s, u, p, env, lbegin, at, body, end, inc.st, fuel - 1);
        After(p, env, c, n, AtItem(at, inc.st), end, ForTurns(s, inc.st, env, fuel - 1), fuel, fuel - 1, t);
        n := n + t;
      }
    } else if o.Jumped? && o.l == s.brk {
      ForLeaves(s, u, p, env, lbegin, at, body, end, c, n, o.st);
      n := n + 1;
    }
  }

  lemma ForBody(s: Stmt, u: nat, p: seq<Item>, lbegin: Label, at: nat, body: nat, end: nat)
    requires ForParts(s, u, p, lbegin, at, body, end)
    ensures ItemsAt(p, body, LowerStmt(s.loop, u).items)
  {}

  // After the body: to its end or to `continue`, the increment, and back to the begin label.
  lemma ForContinues(s: Stmt, u: nat, p: seq<Item>, env: Env, lbegin: Label, at: nat, body: nat, end: nat, c: Conf, n: nat,
                     o: Outcome) returns (j: nat)
    requires s.For? && DefinedOnce(p) && ForParts(s, u, p, lbegin, at, body, end)
    requires o.Normal? || (o.Jumped? && o.l == s.cont)
    requires Matches(p, env, c, body + |LowerStmt(s.loop, u).items|, o, 0, n)
    ensures var i := if s.inc.Some? then Eval(s.inc.value, o.st, env) else Ok(Void, o.st);
      j >= 1 && ItemRun(c, p, env, n + j) == if i.Fail? then Stuck else AtItem(at, i.st)
  {
    hide ItemStep, ItemRun, Eval, LowerStmt;
    var q := body + |LowerStmt(s.loop, u).items|;
    assert p[at + 0] == ForHead(s.test, lbegin, s.brk)[0];
    j := ForNext(s, p, env, lbegin, at, q, end, o.st);
    if o.Jumped? { assert p[q + 0] == ForTail(s.inc, lbegin, s.brk, s.cont)[0]; JumpTo(p, s.cont, o.st, q); }
    ItemRunAdd(c, p, env, n, j);
  }

  // `break` goes to the loop's last label and past it.
  lemma ForLeaves(s: Stmt, u: nat, p: seq<Item>, env: Env, lbegin: Label, at: nat, body: nat, end: nat, c: Conf, n: nat,
                  st: State)
    requires s.For? && DefinedOnce(p) && ForParts(s, u, p, lbegin, at, body, end)
    requires ItemRun(c, p, env, n) == Jump(p, s.brk, st)
    ensures ItemRun(c, p, env, n + 1) == AtItem(end, st)
  {
    hide ItemStep, ItemRun, LowerStmt;
    var q := body + |LowerStmt(s.loop, u).items|;
    var tail := ForTail(s.inc, lbegin, s.brk, s.cont);
    assert p[q + (|tail| - 1)] == tail[|tail| - 1];
    JumpTo(p, s.brk, st, end - 1);
    LabelPasses(p, env, end - 1, st);
    ItemRunAdd(c, p, env, n, 1);
  }

  // From the begin label through the test: into the body, past the end, or stuck.
  lemma ForTest(s: Stmt, u: nat, p: seq<Item>, env: Env, lbegin: Label, at: nat, body: nat, end: nat, st: State)
    returns (o: Outcome, n: nat)
    requires s.For? && DefinedOnce(p) && ForParts(s, u, p, lbegin, at, body, end)
    ensures var r := if s.test.Some? then Eval(s.test.value, st, env) else Ok(W(1), st);
      && n >= 1
      && (o == if HasValue(r) then Normal(r.st) else Wrong)
      && ItemRun(AtItem(at, st), p, env, n)
         == if !HasValue(r) then Stuck else if r.v.w != 0 then AtItem(body, r.st) else AtItem(end, r.st)
  {
    hide ItemStep, ItemRun, Eval, LowerStmt;
    var c := AtItem(at, st);
    var head, tail := ForHead(s.test, lbegin, s.brk), ForTail(s.inc, lbegin, s.brk, s.cont);
    var q := body + |LowerStmt(s.loop, u).items|;
    assert p[at + 0] == head[0];
    LabelPasses(p, env, at, st);
    var r := if s.test.Some? then Eval(s.test.value, st, env) else Ok(W(1), st);
    o := if HasValue(r) then Normal(r.st) else Wrong;
    n := 1;
    if s.test.Some? {
      assert p[at + 1] == head[1];
      assert p[q + (|tail| - 1)] == tail[|tail| - 1];
      CbrGoes(p, env, at + 1, st, end - 1);
      ItemRunAdd(c, p, env, 1, 1);
      n := 2;
      if HasValue(r) && r.v.w == 0 {
        LabelPasses(p, env, end - 1, r.st);
        ItemRunAdd(c, p, env, 2, 1);
        n := 3;
      }
    }
  }

  // From the continue label through the increment back to the begin label.
  lemma ForNext(s: Stmt, p: seq<Item>, env: Env, lbegin: Label, at: nat, q: nat, end: nat, st: State) returns (n: nat)
    requires s.For? && DefinedOnce(p) && ItemsAt(p, q, ForTail(s.inc, lbegin, s.brk, s.cont))
    requires at < |p| && p[at] == ILabel(lbegin)
    ensures var i := if s.inc.Some? then Eval(s.inc.value, st, env) else Ok(Void, st);
      n >= 1 && ItemRun(AtItem(q, st), p, env, n) == if i.Fail? then Stuck else AtItem(at, i.st)
  {
    hide ItemStep, ItemRun, Eval;
    var tail := ForTail(s.inc, lbegin, s.brk, s.cont);
    var c := AtItem(q, st);
    assert p[q + 0] == tail[0] && p[q + 1] == tail[1];
    LabelPasses(p, env, q, st);
    n := 1;
    var i := if s.inc.Some? then Eval(s.inc.value, st, env) else Ok(Void, st);
    if s.inc.Some? {
      EvalGoes(p, env, q + 1, st);
      ItemRunAdd(c, p, env, 1, 1);
      n := 2;
      assert p[q + 2] == tail[2];
    }
    if i.Ok? {
      JumpGoes(p, env, q + n, i.st, lbegin, at);
      ItemRunAdd(c, p, env, n, 1);
      n := n + 1;
    }
  }

  lemma DoOk(s: Stmt, u: nat, p: seq<Item>, env: Env, pc: nat, st: State, fuel: nat) returns (n: nat)
    requires s.Do? && DefinedOnce(p) && ItemsAt(p, pc, LowerStmt(s, u).items)
    ensures Matches(p, env, AtItem(pc, st), pc + |LowerStmt(s, u).items|, DoTurns(s, st, env, fuel), fuel, n)
    decreases fuel, s, 1
  {
    hide ItemStep, ItemRun, Eval, Exec;
    var lbegin := Lbl("L_begin_", u);
    var x := LowerStmt(s.loop, u + 1).items;
    var tail := [ILabel(s.cont), ICbr(s.cond, lbegin, true), ILabel(s.brk)];
    ItemsAtSplit(p, pc, [ILabel(lbegin)] + x, tail);
    ItemsAtSplit(p, pc, [ILabel(lbegin)], x);
    var q := pc + 1 + |x|;
    var end := q + 3;
    assert p[pc + 0] == [ILabel(lbegin)][0] && p[q + 0] == tail[0] && p[q + 1] == tail[1] && p[q + 2] == tail[2];
    var c := AtItem(pc, st);
    if fuel == 0 {
      n := 0;
      OneStep(p, env, c);
      return;
    }
    LabelPasses(p, env, pc, st);
    var k := StmtOk(s.loop, u + 1, p, env, pc + 1, st, fuel);
    var o := Exec(s.loop, st, env, fuel);
    After(p, env, c, 1, AtItem(pc + 1, st), q, o, fuel, fuel, k);
    n := 1 + k;
    if o.Normal? || (o.Jumped? && o.l == s.cont) {
      if o.Jumped? { JumpTo(p, s.cont, o.st, q); }
      var j := DoTest(s, p, env, lbegin, pc, q, o.st);
      ItemRunAdd(c, p, env, n, j);
      n := n + j;
      var r := Eval(s.cond, o.st, env);
      if HasValue(r) && r.v.w != 0 {
        var t := DoOk(s, u, p, env, pc, r.st, fuel - 1);
        After(p, env, c, n, AtItem(pc, r.st), end, DoTurns(s, r.st, env, fuel - 1), fuel, fuel - 1, t);
        n := n + t;
      }
    } else if o.Jumped? && o.l == s.brk {
      JumpTo(p, s.brk, o.st, q + 2);
      LabelPasses(p, env, q + 2, o.st);
      ItemRunAdd(c, p, env, n, 1);
      n := n + 1;
    }
  }

  // From the continue label of a do loop: back to its begin label, past its end, or stuck.
  lemma DoTest(s: Stmt, p: seq<Item>, env: Env, lbegin: Label, at: nat, q: nat, st: State) returns (n: nat)
    requires s.Do? && DefinedOnce(p) && at < |p| && p[at] == ILabel(lbegin)
    requires q + 2 < |p| && p[q].ILabel? && p[q + 1] == ICbr(s.cond, lbegin, true) && p[q + 2].ILabel?
    ensures var r := Eval(s.cond, st, env);
      ItemRun(AtItem(q, st), p, env, n)
      == if !HasValue(r) then Stuck else if r.v.w != 0 then AtItem(at, r.st) else AtItem(q + 3, r.st)
  {
    hide ItemStep, ItemRun, Eval;
    var c := AtItem(q, st);
    LabelPasses(p, env, q, st);
    CbrGoes(p, env, q + 1, st, at);
    ItemRunAdd(c, p, env, 1, 1);
    n := 2;
    var r := Eval(s.cond, st, env);
    if HasValue(r) && r.v.w == 0 {
      LabelPasses(p, env, q + 2, r.st);
      ItemRunAdd(c, p, env, 2, 1);
      n := 3;
    }
  }

  // ---- labels of a lowered body are defined once -----------------------------------------

  // The break and continue labels a statement defines, in the order it defines them.
  function LoopLabels(s: Stmt): seq<Label>
    decreases s, 1
  {
    match s
    case Block(body) => SeqLabels(body)
    case If(_, thn, els) => LoopLabels(thn) + if els.Some? then LoopLabels(els.value) else []
    case For(init, _, _, loop, brk, cont) =>
      (if init.Some? then LoopLabels(init.value) else []) + LoopLabels(loop) + [cont, brk]
    case Do(loop, _, brk, cont) => LoopLabels(loop) + [cont, brk]
    case NullStmt | ExprStmt(_) | Return(_) | Goto(_) => []
  }

  function SeqLabels(body: seq<Stmt>): seq<Label>
    decreases body, 0
  {
    if body == [] then [] else LoopLabels(body[0]) + SeqLabels(body[1..])
  }

  // The parser's names: all different, and unlike the labels drawn from the counter.
  ghost predicate FreshNames(ls: seq<Label>) {
    && (forall i | 0 <= i < |ls| :: ls[i].Named?)
    && (forall i, j | 0 <= i < j < |ls| :: ls[i] != ls[j])
  }

  // Labels defined in `items`: counter labels in [lo, hi), or names in `names`.
  ghost predicate LabelsFrom(items: seq<Item>, lo: nat, hi: nat, names: seq<Label>) {
    forall i | 0 <= i < |items| && items[i].ILabel? ::
      (items[i].l.Lbl? && lo <= items[i].l.id < hi) || (items[i].l.Named? && items[i].l in names)
  }

  lemma FreshParts(x: seq<Label>, y: seq<Label>)
    requires FreshNames(x + y)
    ensures FreshNames(x) && FreshNames(y) && forall l | l in x :: l !in y
  {
    forall i | 0 <= i < |x| ensures (x + y)[i] == x[i] {}
    forall i | 0 <= i < |y| ensures (x + y)[|x| + i] == y[i] {}
    forall i, j | 0 <= i < |x| && 0 <= j < |y| ensures x[i] != y[j] {
      assert (x + y)[i] != (x + y)[|x| + j];
    }
    forall i, j | 0 <= i < j < |x| ensures x[i] != x[j] { assert (x + y)[i] != (x + y)[j]; }
    forall i, j | 0 <= i < j < |y| ensures y[i] != y[j] { assert (x + y)[|x| + i] != (x + y)[|x| + j]; }
  }

  // Two pieces with disjoint labels.
  lemma OnceAppend(x: seq<Item>, y: seq<Item>)
    requires DefinedOnce(x) && DefinedOnce(y)
    requires forall i, j | 0 <= i < |x| && 0 <= j < |y| && x[i].ILabel? :: x[i] != y[j]
    ensures DefinedOnce(x + y)
  {}

  lemma Disjoint(x: seq<Item>, y: seq<Item>, lo: nat, mid: nat, hi: nat, nx: seq<Label>, ny: seq<Label>)
    requires DefinedOnce(x) && DefinedOnce(y) && lo <= mid <= hi
    requires LabelsFrom(x, lo, mid, nx) && LabelsFrom(y, mid, hi, ny)
    requires forall l | l in nx :: l !in ny
    ensures DefinedOnce(x + y) && LabelsFrom(x + y, lo, hi, nx + ny)
  {
    OnceAppend(x, y);
  }

  // A lowered statement defines each label once: its own, from the counter, and its loops' names.
  lemma {:induction false} LoweredOnce(s: Stmt, u: nat)
    requires FreshNames(LoopLabels(s))
    ensures u <= LowerStmt(s, u).uid
    ensures DefinedOnce(LowerStmt(s, u).items) && LabelsFrom(LowerStmt(s, u).items, u, LowerStmt(s, u).uid, LoopLabels(s))
    decreases s, 1
  {
    hide DefinedOnce, LabelsFrom, FreshNames;
    match s {
      case Block(body) => SeqOnce(body, u);
      case If(_, _, _) => IfOnce(s, u);
      case For(_, _, _, _, _, _) => ForOnce(s, u);
      case Do(_, _, _, _) => DoOnce(s, u);
      case NullStmt | ExprStmt(_) | Return(_) | Goto(_) => NoLabels(LowerStmt(s, u).items, u, u, []);
    }
  }

  lemma NoLabels(items: seq<Item>, lo: nat, hi: nat, names: seq<Label>)
    requires forall i | 0 <= i < |items| :: !items[i].ILabel?
    ensures DefinedOnce(items) && LabelsFrom(items, lo, hi, names)
  {}

  lemma SeqOnce(body: seq<Stmt>, u: nat)
    requires FreshNames(SeqLabels(body))
    ensures u <= LowerSeq(body, u).uid
    ensures DefinedOnce(LowerSeq(body, u).items) && LabelsFrom(LowerSeq(body, u).items, u, LowerSeq(body, u).uid, SeqLabels(body))
    decreases body, 0
  {
    hide DefinedOnce, LabelsFrom, FreshNames;
    if body == [] {
      NoLabels([], u, u, []);
    } else {
      var x := LowerStmt(body[0], u);
      FreshParts(LoopLabels(body[0]), SeqLabels(body[1..]));
      LoweredOnce(body[0], u);
      SeqOnce(body[1..], x.uid);
      Disjoint(x.items, LowerSeq(body[1..], x.uid).items, u, x.uid, LowerSeq(body, u).uid,
               LoopLabels(body[0]), SeqLabels(body[1..]));
    }
  }

  lemma IfOnce(s: Stmt, u: nat)
    requires s.If? && FreshNames(LoopLabels(s))
    ensures u <= LowerStmt(s, u).uid
    ensures DefinedOnce(LowerStmt(s, u).items) && LabelsFrom(LowerStmt(s, u).items, u, LowerStmt(s, u).uid, LoopLabels(s))
    decreases s, 0
  {
    hide FreshNames, DefinedOnce, LabelsFrom;
    var lelse, lend := Lbl("L_else_", u), Lbl("L_end_", u);
    var nx := LoopLabels(s.thn);
    var ny := if s.els.Some? then LoopLabels(s.els.value) else [];
    FreshParts(nx, ny);
    var x := LowerStmt(s.thn, u + 1);
    LoweredOnce(s.thn, u + 1);
    var y := if s.els.Some? then LowerStmt(s.els.value, x.uid) else Lowered([], x.uid);
    if s.els.Some? { LoweredOnce(s.els.value, x.uid); } else { NoLabels([], x.uid, x.uid, []); }
    IfPieces(ICbr(s.cond, lelse, false), x.items, IJmp(lend), y.items, u, x.uid, y.uid, nx, ny);
  }

  lemma IfPieces(cbr: Item, x: seq<Item>, jmp: Item, y: seq<Item>, u: nat, mid: nat, hi: nat, nx: seq<Label>, ny: seq<Label>)
    requires !cbr.ILabel? && !jmp.ILabel? && u + 1 <= mid <= hi
    requires DefinedOnce(x) && DefinedOnce(y) && (forall l | l in nx :: l !in ny)
    requires LabelsFrom(x, u + 1, mid, nx) && LabelsFrom(y, mid, hi, ny)
    ensures var lelse, lend := ILabel(Lbl("L_else_", u)), ILabel(Lbl("L_end_", u));
      var all := [cbr] + x + [jmp, lelse] + y + [lend];
      DefinedOnce(all) && LabelsFrom(all, u, hi, nx + ny)
  {
    var lelse, lend := ILabel(Lbl("L_else_", u)), ILabel(Lbl("L_end_", u));
    assert "L_else_"[2] != "L_end_"[3] || |"L_else_"| != |"L_end_"|;
    OnceAppend([cbr], x);
    OnceAppend([cbr] + x, [jmp, lelse]);
    OnceAppend([cbr] + x + [jmp, lelse], y);
    OnceAppend([cbr] + x + [jmp, lelse] + y, [lend]);
  }

  lemma ForOnce(s: Stmt, u: nat)
    requires s.For? && FreshNames(LoopLabels(s))
    ensures u <= LowerStmt(s, u).uid
    ensures DefinedOnce(LowerStmt(s, u).items) && LabelsFrom(LowerStmt(s, u).items, u, LowerStmt(s, u).uid, LoopLabels(s))
    decreases s, 0
  {
    hide FreshNames, DefinedOnce, LabelsFrom;
    var lbegin := Lbl("L_begin_", u);
    var nx := if s.init.Some? then LoopLabels(s.init.value) else [];
    var ny := LoopLabels(s.loop);
    FreshParts(nx + ny, [s.cont, s.brk]);
    FreshParts(nx, ny);
    var x := if s.init.Some? then LowerStmt(s.init.value, u + 1) else Lowered([], u + 1);
    if s.init.Some? { LoweredOnce(s.init.value, u + 1); } else { NoLabels([], u + 1, u + 1, []); }
    LoweredOnce(s.loop, x.uid);
    var y := LowerStmt(s.loop, x.uid);
    ForPieces(s.test, s.inc, x.items, y.items, s.brk, s.cont, u, x.uid, y.uid, nx, ny);
  }

  lemma ForPieces(test: Option<IrExpr>, inc: Option<IrExpr>, x: seq<Item>, y: seq<Item>, brk: Label, cont: Label,
                  u: nat, mid: nat, hi: nat, nx: seq<Label>, ny: seq<Label>)
    requires u + 1 <= mid <= hi && DefinedOnce(x) && DefinedOnce(y) && (forall l | l in nx :: l !in ny)
    requires LabelsFrom(x, u + 1, mid, nx) && LabelsFrom(y, mid, hi, ny)
    requires FreshNames([cont, brk]) && (forall l | l in nx + ny :: l !in [cont, brk])
    ensures var lbegin := Lbl("L_begin_", u);
      var all := x + ForHead(test, lbegin, brk) + y + ForTail(inc, lbegin, brk, cont);
      DefinedOnce(all) && LabelsFrom(all, u, hi, nx + ny + [cont, brk])
  {
    var lbegin := Lbl("L_begin_", u);
    var head, tail := ForHead(test, lbegin, brk), ForTail(inc, lbegin, brk, cont);
    assert [cont, brk][0] != [cont, brk][1] && [cont, brk][0].Named? && [cont, brk][1].Named?;
    OnceAppend(x, head);
    OnceAppend(x + head, y);
    assert forall l | l in nx :: l in nx + ny;
    assert forall l | l in ny :: l in nx + ny;
    OnceAppend(x + head + y, tail);
  }

  lemma DoOnce(s: Stmt, u: nat)
    requires s.Do? && FreshNames(LoopLabels(s))
    ensures u <= LowerStmt(s, u).uid
    ensures DefinedOnce(LowerStmt(s, u).items) && LabelsFrom(LowerStmt(s, u).items, u, LowerStmt(s, u).uid, LoopLabels(s))
    decreases s, 0
  {
    hide FreshNames;
    var nx := LoopLabels(s.loop);
    FreshParts(nx, [s.cont, s.brk]);
    LoweredOnce(s.loop, u + 1);
    var lbegin := Lbl("L_begin_", u);
    var x := LowerStmt(s.loop, u + 1).items;
    var tail := [ILabel(s.cont), ICbr(s.cond, lbegin, true), ILabel(s.brk)];
    TwoNames(s.cont, s.brk);
    OnceAppend([ILabel(lbegin)], x);
    OnceAppend([ILabel(lbegin)] + x, tail);
  }

  lemma TwoNames(a: Label, b: Label)
    requires FreshNames([a, b])
    ensures a.Named? && b.Named? && a != b
  {
    assert [a, b][0] != [a, b][1] && [a, b][0].Named? && [a, b][1].Named?;
  }

  // ---- whole bodies ---------------------------------------------------------------------------

  // A body that finishes, by a return or by falling off its end.
  ghost function Finish(o: Outcome): Conf {
    match o
    case Normal(st) => Left(Void, st)
    case Returned(v, st) => Left(v, st)
    case Jumped(_, _) | Wrong | OutOfFuel => Stuck
  }

  // Break and continue only to loops around them.
  predicate Scoped(s: Stmt, labels: set<Label>)
    decreases s
  {
    match s
    case Block(body) => forall x | x in body :: Scoped(x, labels)
    case If(_, thn, els) => Scoped(thn, labels) && (els.Some? ==> Scoped(els.value, labels))
    case For(init, _, _, loop, brk, cont) =>
      (init.Some? ==> Scoped(init.value, labels)) && Scoped(loop, labels + {brk, cont})
    case Do(loop, _, brk, cont) => Scoped(loop, labels + {brk, cont})
    case Goto(l) => l in labels
    case NullStmt | ExprStmt(_) | Return(_) => true
  }

  lemma {:induction false} ScopedOutcome(s: Stmt, labels: set<Label>, st: State, env: Env, fuel: nat)
    requires Scoped(s, labels)
    ensures Exec(s, st, env, fuel).Jumped? ==> Exec(s, st, env, fuel).l in labels
    decreases fuel, s, 1
  {
    hide Eval;
    match s {
      case Block(body) => ScopedSeq(body, labels, st, env, fuel);
      case If(cond, thn, els) =>
        var r := Eval(cond, st, env);
        if HasValue(r) {
          ScopedOutcome(thn, labels, r.st, env, fuel);
          if els.Some? { ScopedOutcome(els.value, labels, r.st, env, fuel); }
        }
      case For(init, _, _, _, _, _) =>
        if init.Some? { ScopedOutcome(init.value, labels, st, env, fuel); }
        var o := if init.Some? then Exec(init.value, st, env, fuel) else Normal(st);
        if o.Normal? { ScopedTurns(s, labels, o.st, env, fuel); }
      case Do(_, _, _, _) => ScopedTurns(s, labels, st, env, fuel);
      case Goto(_) | NullStmt | ExprStmt(_) | Return(_) =>
    }
  }

  lemma ScopedSeq(body: seq<Stmt>, labels: set<Label>, st: State, env: Env, fuel: nat)
    requires forall x | x in body :: Scoped(x, labels)
    ensures ExecSeq(body, st, env, fuel).Jumped? ==> ExecSeq(body, st, env, fuel).l in labels
    decreases fuel, body, 0
  {
    if body != [] {
      ScopedOutcome(body[0], labels, st, env, fuel);
      var o := Exec(body[0], st, env, fuel);
      if o.Normal? { ScopedSeq(body[1..], labels, o.st, env, fuel); }
    }
  }

  lemma ScopedTurns(s: Stmt, labels: set<Label>, st: State, env: Env, fuel: nat)
    requires (s.For? || s.Do?) && Scoped(s, labels)
    ensures var o := if s.For? then ForTurns(s, st, env, fuel) else DoTurns(s, st, env, fuel);
      o.Jumped? ==> o.l in labels
    decreases fuel, s, 0
  {
    hide Eval;
    if fuel > 0 {
      var r := if s.For? && s.test.Some? then Eval(s.test.value, st, env) else Ok(W(1), st);
      if HasValue(r) {
        ScopedOutcome(s.loop, labels + {s.brk, s.cont}, r.st, env, fuel);
        var o := Exec(s.loop, r.st, env, fuel);
        if o.Normal? || (o.Jumped? && o.l == s.cont) {
          var i := if s.Do? then Eval(s.cond, o.st, env) else if s.inc.Some? then Eval(s.inc.value, o.st, env) else Ok(Void, o.st);
          if i.Ok? { ScopedTurns(s, labels, i.st, env, fuel - 1); }
        }
      }
    }
  }

  // The lowered body reaches exactly the big-step result.
  lemma BodyOk(s: Stmt, u: nat, env: Env, st: State, fuel: nat) returns (n: nat)
    requires FreshNames(LoopLabels(s)) && Scoped(s, {})
    requires Exec(s, st, env, fuel) != OutOfFuel
    ensures ItemRun(AtItem(0, st), LowerStmt(s, u).items, env, n) == Finish(Exec(s, st, env, fuel))
  {
    hide ItemStep, ItemRun, Exec, LowerStmt;
    var p := LowerStmt(s, u).items;
    LoweredOnce(s, u);
    n := StmtOk(s, u, p, env, 0, st, fuel);
    ScopedOutcome(s, {}, st, env, fuel);
    var o := Exec(s, st, env, fuel);
    if o.Normal? {
      PastEnd(p, env, o.st);
      ItemRunAdd(AtItem(0, st), p, env, n, 1);
      n := n + 1;
    }
  }

  lemma PastEnd(p: seq<Item>, env: Env, st: State)
    ensures ItemRun(AtItem(|p|, st), p, env, 1) == Left(Void, st)
  {
    OneStep(p, env, AtItem(|p|, st));
  }

  lemma {:induction false} DoneStays(c: Conf, p: seq<Item>, env: Env, n: nat)
    requires !c.AtItem?
    ensures ItemRun(c, p, env, n) == c
  {
    if n > 0 { DoneStays(c, p, env, n - 1); }
  }

  // The items stop exactly when the statement does: if they stop after n steps, then
  // fuel n + 1 is enough for the big-step meaning.
  lemma BodyStops(s: Stmt, u: nat, env: Env, st: State, n: nat)
    requires FreshNames(LoopLabels(s)) && Scoped(s, {})
    requires !ItemRun(AtItem(0, st), LowerStmt(s, u).items, env, n).AtItem?
    ensures Exec(s, st, env, n + 1) != OutOfFuel
    ensures ItemRun(AtItem(0, st), LowerStmt(s, u).items, env, n) == Finish(Exec(s, st, env, n + 1))
  {
    hide ItemStep, ItemRun, Exec, LowerStmt;
    var p := LowerStmt(s, u).items;
    var c := AtItem(0, st);
    LoweredOnce(s, u);
    var k := StmtOk(s, u, p, env, 0, st, n + 1);
    if Exec(s, st, env, n + 1) == OutOfFuel {
      ItemRunAdd(c, p, env, n, k - n);
      DoneStays(ItemRun(c, p, env, n), p, env, k - n);
      assert false;
    }
    var j := BodyOk(s, u, env, st, n + 1);
    if j <= n {
      ItemRunAdd(c, p, env, j, n - j);
      DoneStays(ItemRun(c, p, env, j), p, env, n - j);
    } else {
      ItemRunAdd(c, p, env, n, j - n);
      DoneStays(ItemRun(c, p, env, n), p, env, j - n);
    }
  }
}
