// Structured statements, their big-step meaning, and their lowering to items.
module Lower {
  import opened Words
  import opened Ir
  import opened M68k
  import opened Items

  // break and continue are jumps to the enclosing loop's labels.
  datatype Stmt =
    | Block(body: seq<Stmt>)
    | NullStmt
    | ExprStmt(e: IrExpr)
    | Return(r: Option<IrExpr>)
    | If(cond: IrExpr, thn: Stmt, els: Option<Stmt>)
    | For(init: Option<Stmt>, test: Option<IrExpr>, inc: Option<IrExpr>, loop: Stmt, brk: Label, cont: Label)
    | Do(loop: Stmt, cond: IrExpr, brk: Label, cont: Label)
    | Goto(l: Label)

  datatype Outcome =
    | Normal(st: State)
    | Jumped(l: Label, st: State)
    | Returned(v: Val, st: State)
    | Wrong
    | OutOfFuel

  // ---- big-step meaning; `fuel` bounds the turns of any one loop ---------------------

  ghost function Exec(s: Stmt, st: State, env: Env, fuel: nat): Outcome
    decreases fuel, s, 1
  {
    match s
    case Block(body) => ExecSeq(body, st, env, fuel)
    case NullStmt => Normal(st)
    case ExprStmt(e) =>
      var r := Eval(e, st, env);
      if r.Fail? then Wrong else Normal(r.st)
    case Return(None) => Returned(Void, st)
    case Return(Some(e)) =>
      var r := Eval(e, st, env);
      if r.Fail? then Wrong else Returned(r.v, r.st)
    case If(cond, thn, els) =>
      var r := Eval(cond, st, env);
      if !HasValue(r) then Wrong
      else if r.v.w != 0 then Exec(thn, r.st, env, fuel)
      else if els.Some? then Exec(els.value, r.st, env, fuel)
      else Normal(r.st)
    case For(init, _, _, _, _, _) =>
      var o := if init.Some? then Exec(init.value, st, env, fuel) else Normal(st);
      if o.Normal? then ForTurns(s, o.st, env, fuel) else o
    case Do(_, _, _, _) => DoTurns(s, st, env, fuel)
    case Goto(l) => Jumped(l, st)
  }

  ghost function ExecSeq(body: seq<Stmt>, st: State, env: Env, fuel: nat): Outcome
    decreases fuel, body, 0
  {
    if body == [] then Normal(st)
    else
      var o := Exec(body[0], st, env, fuel);
      if o.Normal? then ExecSeq(body[1..], o.st, env, fuel) else o
  }

  ghost function ForTurns(s: Stmt, st: State, env: Env, fuel: nat): Outcome
    requires s.For?
    decreases fuel, s, 0
  {
    if fuel == 0 then OutOfFuel
    else
      var r := if s.test.Some? then Eval(s.test.value, st, env) else Ok(W(1), st);
      if !HasValue(r) then Wrong
      else if r.v.w == 0 then Normal(r.st)
      else
        var o := Exec(s.loop, r.st, env, fuel);
        if o.Normal? || (o.Jumped? && o.l == s.cont) then
          var i := if s.inc.Some? then Eval(s.inc.value, o.st, env) else Ok(Void, o.st);
          if i.Fail? then Wrong else ForTurns(s, i.st, env, fuel - 1)
        else if o.Jumped? && o.l == s.brk then Normal(o.st)
        else o
  }

  ghost function DoTurns(s: Stmt, st: State, env: Env, fuel: nat): Outcome
    requires s.Do?
    decreases fuel, s, 0
  {
    if fuel == 0 then OutOfFuel
    else
      var o := Exec(s.loop, st, env, fuel);
      if o.Normal? || (o.Jumped? && o.l == s.cont) then
        var r := Eval(s.cond, o.st, env);
        if !HasValue(r) then Wrong
        else if r.v.w != 0 then DoTurns(s, r.st, env, fuel - 1)
        else Normal(r.st)
      else if o.Jumped? && o.l == s.brk then Normal(o.st)
      else o
  }

  // ---- lowering -------------------------------------------------------------------------

  datatype Lowered = Lowered(items: seq<Item>, uid: nat)

  function LowerStmt(s: Stmt, u: nat): Lowered
    decreases s, 1
  {
    match s
    case Block(body) => LowerSeq(body, u)
    case NullStmt => Lowered([], u)
    case ExprStmt(e) => Lowered([IEval(e)], u)
    case Return(r) => Lowered([IRet(r)], u)
    case If(cond, thn, els) =>
      var lelse, lend := Lbl("L_else_", u), Lbl("L_end_", u);
      var x := LowerStmt(thn, u + 1);
      var y := if els.Some? then LowerStmt(els.value, x.uid) else Lowered([], x.uid);
      Lowered([ICbr(cond, lelse, false)] + x.items + [IJmp(lend), ILabel(lelse)] + y.items + [ILabel(lend)], y.uid)
    case For(init, test, inc, loop, brk, cont) =>
      var lbegin := Lbl("L_begin_", u);
      var x := if init.Some? then LowerStmt(init.value, u + 1) else Lowered([], u + 1);
      var y := LowerStmt(loop, x.uid);
      Lowered(x.items + ForHead(test, lbegin, brk) + y.items + ForTail(inc, lbegin, brk, cont), y.uid)
    case Do(loop, cond, brk, cont) =>
      var lbegin := Lbl("L_begin_", u);
      var x := LowerStmt(loop, u + 1);
      Lowered([ILabel(lbegin)] + x.items + [ILabel(cont), ICbr(cond, lbegin, true), ILabel(brk)], x.uid)
    case Goto(l) => Lowered([IJmp(l)], u)
  }

  function LowerMaybe(s: Option<Stmt>, u: nat): Lowered
    decreases s, 2
  {
    if s.Some? then LowerStmt(s.value, u) else Lowered([], u)
  }

  lemma IfShape(s: Stmt, u: nat)
    requires s.If?
    ensures var lelse, lend := Lbl("L_else_", u), Lbl("L_end_", u);
      var x := LowerStmt(s.thn, u + 1);
      var y := LowerMaybe(s.els, x.uid);
      LowerStmt(s, u)
      == Lowered([ICbr(s.cond, lelse, false)] + x.items + [IJmp(lend), ILabel(lelse)] + y.items + [ILabel(lend)], y.uid)
  {}

  lemma ForShape(s: Stmt, u: nat)
    requires s.For?
    ensures var lbegin := Lbl("L_begin_", u);
      var x := LowerMaybe(s.init, u + 1);
      var y := LowerStmt(s.loop, x.uid);
      LowerStmt(s, u) == Lowered(x.items + ForHead(s.test, lbegin, s.brk) + y.items + ForTail(s.inc, lbegin, s.brk, s.cont), y.uid)
  {
    hide ForHead, ForTail;
  }

  function ForHead(test: Option<IrExpr>, lbegin: Label, brk: Label): seq<Item> {
    [ILabel(lbegin)] + if test.Some? then [ICbr(test.value, brk, false)] else []
  }

  function ForTail(inc: Option<IrExpr>, lbegin: Label, brk: Label, cont: Label): seq<Item> {
    [ILabel(cont)] + (if inc.Some? then [IEval(inc.value)] else []) + [IJmp(lbegin), ILabel(brk)]
  }

  function LowerSeq(body: seq<Stmt>, u: nat): Lowered
    decreases body, 0
  {
    if body == [] then Lowered([], u)
    else
      var x := LowerStmt(body[0], u);
      var y := LowerSeq(body[1..], x.uid);
      Lowered(x.items + y.items, y.uid)
  }

  // lower_stmt as the source has it: append to the item list, draw labels from one counter.
  class Builder {
    var items: seq<Item>
    var uid: nat

    constructor (uid: nat)
      ensures items == [] && this.uid == uid
    {
      items := [];
      this.uid := uid;
    }

    method AddItem(i: Item)
      modifies this`items
      ensures items == old(items) + [i]
    {
      items := items + [i];
    }

    method LowerBody(body: seq<Stmt>)
      modifies this
      ensures items == old(items) + LowerSeq(body, old(uid)).items && uid == LowerSeq(body, old(uid)).uid
      decreases body, 0
    {
      if body != [] {
        Stmt(body[0]);
        LowerBody(body[1..]);
      }
    }

    method Stmt(s: Stmt)
      modifies this
      ensures items == old(items) + LowerStmt(s, old(uid)).items && uid == LowerStmt(s, old(uid)).uid
      decreases s, 1
    {
      match s {
        case Block(body) => LowerBody(body);
        case NullStmt =>
        case ExprStmt(e) => AddItem(IEval(e));
        case Return(r) => AddItem(IRet(r));
        case If(_, _, _) => IfStmt(s);
        case For(_, _, _, _, _, _) => ForStmt(s);
        case Do(loop, cond, brk, cont) =>
          var c := uid;
          uid := uid + 1;
          AddItem(ILabel(Lbl("L_begin_", c)));
          Stmt(loop);
          AddItem(ILabel(cont));
          AddItem(ICbr(cond, Lbl("L_begin_", c), true));
          AddItem(ILabel(brk));
        case Goto(l) => AddItem(IJmp(l));
      }
    }

    method IfStmt(s: Stmt)
      requires s.If?
      modifies this
      ensures items == old(items) + LowerStmt(s, old(uid)).items && uid == LowerStmt(s, old(uid)).uid
      decreases s, 0
    {
      hide LowerMaybe;
      IfShape(s, uid);
      hide LowerStmt;
      var c := uid;
      uid := uid + 1;
      AddItem(ICbr(s.cond, Lbl("L_else_", c), false));
      Stmt(s.thn);
      AddItem(IJmp(Lbl("L_end_", c)));
      AddItem(ILabel(Lbl("L_else_", c)));
      MaybeStmt(s.els);
      AddItem(ILabel(Lbl("L_end_", c)));
    }

    method ForStmt(s: Stmt)
      requires s.For?
      modifies this
      ensures items == old(items) + LowerStmt(s, old(uid)).items && uid == LowerStmt(s, old(uid)).uid
      decreases s, 0
    {
      hide ForHead, ForTail, LowerMaybe;
      ForShape(s, uid);
      hide LowerStmt;
      var c := uid;
      uid := uid + 1;
      var lbegin := Lbl("L_begin_", c);
      MaybeStmt(s.init);
      AddForHead(s.test, lbegin, s.brk);
      Stmt(s.loop);
      AddForTail(s.inc, lbegin, s.brk, s.cont);
    }

    // A statement that may be absent.
    method MaybeStmt(s: Option<Stmt>)
      modifies this
      ensures items == old(items) + LowerMaybe(s, old(uid)).items && uid == LowerMaybe(s, old(uid)).uid
      decreases s, 2
    {
      if s.Some? { Stmt(s.value); }
    }

    method AddForHead(test: Option<IrExpr>, lbegin: Label, brk: Label)
      modifies this`items
      ensures items == old(items) + ForHead(test, lbegin, brk)
    {
      AddItem(ILabel(lbegin));
      if test.Some? { AddItem(ICbr(test.value, brk, false)); }
    }

    method AddForTail(inc: Option<IrExpr>, lbegin: Label, brk: Label, cont: Label)
      modifies this`items
      ensures items == old(items) + ForTail(inc, lbegin, brk, cont)
    {
      AddItem(ILabel(cont));
      if inc.Some? { AddItem(IEval(inc.value)); }
      AddItem(IJmp(lbegin));
      AddItem(ILabel(brk));
    }
  }
}
