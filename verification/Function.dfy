// A whole function body: emission of its items, and its runs on the machine.
module Function {
  import opened Words
  import opened Memory
  import opened Ir
  import opened M68k
  import opened Select
  import opened Tiles
  import opened Simulate
  import opened SelectProof
  import opened Selection
  import opened Items
  import opened Labels
  import opened Emitter

  // ir_emit_item: `ret` is the label of the function's epilogue.
  function ItemCode(i: Item, ret: Label, ra: map<nat, Reg>, u: nat): Out {
    match i
    case ILabel(l) => Out([Lab(l)], u)
    case INop => Out([], u)
    case IJmp(l) => Out([Bra(l)], u)
    case ICbr(e, l, when) => CondCode(e, l, when, ra, u)
    case IEval(e) => ExprCode(e, ra, u)
    case IRet(None) => Out([Bra(ret)], u)
    case IRet(Some(e)) =>
      var x := ExprCode(e, ra, u);
      Out(x.code + [Bra(ret)], x.uid)
  }

  // The code of the first `n` items.
  function PrefixCode(items: seq<Item>, n: nat, ret: Label, ra: map<nat, Reg>, u: nat): Out
    requires n <= |items|
  {
    if n == 0 then Out([], u)
    else
      var x := PrefixCode(items, n - 1, ret, ra, u);
      var y := ItemCode(items[n - 1], ret, ra, x.uid);
      Out(x.code + y.code, y.uid)
  }

  // The body, then the epilogue label (what follows it is not part of this model).
  function BodyCode(items: seq<Item>, ret: Label, ra: map<nat, Reg>, u: nat): seq<Instr> {
    PrefixCode(items, |items|, ret, ra, u).code + [Lab(ret), Exit]
  }

  // ir_emit_built: item by item through the code generator.
  method EmitItems(gen: Codegen, items: seq<Item>, ret: Label)
    modifies gen
    ensures var x := PrefixCode(items, |items|, ret, gen.ra, old(gen.uid));
      gen.outbuf == old(gen.outbuf) + x.code && gen.uid == x.uid && gen.depth == old(gen.depth)
  {
    hide ItemCode;
    var i := 0;
    while i < |items|
      invariant i <= |items|
      invariant var x := PrefixCode(items, i, ret, gen.ra, old(gen.uid));
        gen.outbuf == old(gen.outbuf) + x.code && gen.uid == x.uid && gen.depth == old(gen.depth)
    {
      EmitItem(gen, items[i], ret);
      i := i + 1;
    }
  }

  method EmitItem(gen: Codegen, i: Item, ret: Label)
    modifies gen
    ensures var x := ItemCode(i, ret, gen.ra, old(gen.uid));
      gen.outbuf == old(gen.outbuf) + x.code && gen.uid == x.uid && gen.depth == old(gen.depth)
  {
    match i {
      case ILabel(l) => gen.Emit(Lab(l));
      case INop =>
      case IJmp(l) => gen.Emit(Bra(l));
      case ICbr(e, l, when) => gen.IrCond(e, l, when);
      case IEval(e) => gen.IrExpr(e);
      case IRet(r) =>
        if r.Some? { gen.IrExpr(r.value); }
        gen.Emit(Bra(ret));
    }
  }

  // ---- runs ---------------------------------------------------------------------------

  ghost predicate ItemReady(i: Item, room: int) {
    match i
    case ICbr(e, _, _) => WellTyped(e) && 4 * StackNeed(e) <= room
    case IEval(e) => WellTyped(e) && 4 * StackNeed(e) <= room
    case IRet(Some(e)) => WellTyped(e) && 4 * StackNeed(e) <= room
    case ILabel(_) | IJmp(_) | IRet(None) | INop => true
  }

  // Jumps and branches name labels of this body.
  predicate TargetsDefined(items: seq<Item>) {
    forall i | 0 <= i < |items| && (items[i].IJmp? || items[i].ICbr?) :: FindLabel(items, items[i].l) < |items|
  }

  // The body's code sits at the start of a program with unique labels, and the
  // reserved stack space has room for every expression.
  ghost predicate LoadedBody(items: seq<Item>, ret: Label, u: nat, m: Machine, room: int) {
    && Loaded(m) && FollowsTiles(m.env)
    && At(m.prog, 0, BodyCode(items, ret, m.env.ra, u))
    && TargetsDefined(items)
    && forall i | 0 <= i < |items| :: ItemReady(items[i], room)
  }

  function Offset(items: seq<Item>, n: nat, ret: Label, ra: map<nat, Reg>, u: nat): nat
    requires n <= |items|
  {
    |PrefixCode(items, n, ret, ra, u).code|
  }

  // Machine state `s` is where item configuration `c` says.
  ghost predicate Follows(s: Cpu, c: Conf, items: seq<Item>, ret: Label, u: nat, m: Machine, sp: int) {
    && Sp(s) == sp
    && match c
       case AtItem(pc, st) =>
         pc <= |items| && StandsFor(s, st, m.env) && s.pc == Offset(items, pc, ret, m.env.ra, u)
       case Left(v, st) =>
         StandsFor(s, st, m.env) && s.pc == Offset(items, |items|, ret, m.env.ra, u) && (v.W? ==> s.d[0] == v.w)
       case Stuck => true
  }

  lemma {:induction false} PrefixSplits(items: seq<Item>, n: nat, k: nat, ret: Label, ra: map<nat, Reg>, u: nat)
    returns (rest: seq<Instr>)
    requires n <= k <= |items|
    ensures PrefixCode(items, k, ret, ra, u).code == PrefixCode(items, n, ret, ra, u).code + rest
    ensures n < k ==>
      exists more :: rest == ItemCode(items[n], ret, ra, PrefixCode(items, n, ret, ra, u).uid).code + more
    decreases k
  {
    hide ItemCode;
    if n == k {
      rest := [];
    } else {
      var x := PrefixSplits(items, n, k - 1, ret, ra, u);
      var y := ItemCode(items[k - 1], ret, ra, PrefixCode(items, k - 1, ret, ra, u).uid).code;
      assert PrefixCode(items, k, ret, ra, u).code == PrefixCode(items, k - 1, ret, ra, u).code + y;
      rest := x + y;
      hide PrefixCode;
      var first := ItemCode(items[n], ret, ra, PrefixCode(items, n, ret, ra, u).uid).code;
      if n == k - 1 {
        assert rest == first + [];
      } else {
        var more :| x == first + more;
        assert rest == first + (more + y);
      }
    }
  }

  // Each item's code is at its offset, and the epilogue label is after the last one.
  lemma ItemLoaded(items: seq<Item>, ret: Label, u: nat, m: Machine, room: int, n: nat)
    requires LoadedBody(items, ret, u, m, room) && n < |items|
    ensures var x := PrefixCode(items, n, ret, m.env.ra, u);
      var y := ItemCode(items[n], ret, m.env.ra, x.uid).code;
      At(m.prog, |x.code|, y) && Offset(items, n + 1, ret, m.env.ra, u) == |x.code| + |y|
  {
    hide ItemCode;
    var ra := m.env.ra;
    var x := PrefixCode(items, n, ret, ra, u);
    var y := ItemCode(items[n], ret, ra, x.uid).code;
    var rest := PrefixSplits(items, n, |items|, ret, ra, u);
    var more :| rest == y + more;
    assert BodyCode(items, ret, ra, u) == x.code + (y + (more + [Lab(ret), Exit]));
    AtSplit(m.prog, 0, x.code, y + (more + [Lab(ret), Exit]));
    AtSplit(m.prog, |x.code|, y, more + [Lab(ret), Exit]);
  }

  lemma EndLoaded(items: seq<Item>, ret: Label, u: nat, m: Machine, room: int)
    requires LoadedBody(items, ret, u, m, room)
    ensures var end := Offset(items, |items|, ret, m.env.ra, u);
      end + 1 < |m.prog| && m.prog[end] == Lab(ret) && m.prog[end + 1] == Exit
  {
    var x := PrefixCode(items, |items|, ret, m.env.ra, u).code;
    AtSplit(m.prog, 0, x, [Lab(ret), Exit]);
    assert m.prog[|x| + 0] == [Lab(ret), Exit][0] && m.prog[|x| + 1] == [Lab(ret), Exit][1];
  }

  lemma LabelLoaded(items: seq<Item>, ret: Label, u: nat, m: Machine, room: int, l: Label)
    requires LoadedBody(items, ret, u, m, room) && FindLabel(items, l) < |items|
    ensures var at := Offset(items, FindLabel(items, l), ret, m.env.ra, u);
      at < |m.prog| && m.prog[at] == Lab(l)
  {
    var t := FindLabel(items, l);
    ItemLoaded(items, ret, u, m, room, t);
    var x := PrefixCode(items, t, ret, m.env.ra, u).code;
    assert m.prog[|x| + 0] == [Lab(l)][0];
  }

  // One item step is some machine steps.
  lemma ItemOk(items: seq<Item>, ret: Label, u: nat, m: Machine, c: Conf, s: Cpu, sp: int) returns (n: nat)
    requires LoadedBody(items, ret, u, m, sp - m.env.lo) && Follows(s, c, items, ret, u, m, sp)
    ensures Follows(Run(s, m, n), ItemStep(c, items, m.env), items, ret, u, m, sp)
  {
    hide Step, Run, Eval, ItemCode, PrefixCode;
    ShortRun(s, m);
    n := 0;
    if c.AtItem? && c.pc < |items| && ItemStep(c, items, m.env) != Stuck {
      ItemLoaded(items, ret, u, m, sp - m.env.lo, c.pc);
      var k := PrefixCode(items, c.pc, ret, m.env.ra, u).uid;
      match items[c.pc] {
        case ILabel(l) => n := SimpleItemOk(items, ret, u, m, c, s, sp);
        case INop => n := SimpleItemOk(items, ret, u, m, c, s, sp);
        case IJmp(l) => n := JumpItemOk(items, ret, u, m, c, s, sp);
        case ICbr(e, l, when) => n := BranchItemOk(items, ret, u, m, c, s, sp);
        case IEval(e) => n := EvalItemOk(items, ret, u, m, c, s, sp);
        case IRet(r) => n := ReturnItemOk(items, ret, u, m, c, s, sp);
      }
    }
  }

  ghost predicate Stepping(items: seq<Item>, ret: Label, u: nat, m: Machine, c: Conf, s: Cpu, sp: int) {
    && LoadedBody(items, ret, u, m, sp - m.env.lo) && Follows(s, c, items, ret, u, m, sp)
    && c.AtItem? && c.pc < |items| && ItemStep(c, items, m.env) != Stuck
    && At(m.prog, s.pc, ItemCode(items[c.pc], ret, m.env.ra, PrefixCode(items, c.pc, ret, m.env.ra, u).uid).code)
    && Offset(items, c.pc + 1, ret, m.env.ra, u)
       == s.pc + |ItemCode(items[c.pc], ret, m.env.ra, PrefixCode(items, c.pc, ret, m.env.ra, u).uid).code|
  }

  lemma SimpleItemOk(items: seq<Item>, ret: Label, u: nat, m: Machine, c: Conf, s: Cpu, sp: int) returns (n: nat)
    requires Stepping(items, ret, u, m, c, s, sp) && (items[c.pc].ILabel? || items[c.pc].INop?)
    ensures Follows(Run(s, m, n), ItemStep(c, items, m.env), items, ret, u, m, sp)
  {
    hide Step, Run, PrefixCode;
    n := 0;
    ShortRun(s, m);
    if items[c.pc].ILabel? {
      n := 1;
      assert m.prog[s.pc + 0] == [Lab(items[c.pc].l)][0];
      LabelStep(s, m, items[c.pc].l);
    }
  }

  lemma JumpItemOk(items: seq<Item>, ret: Label, u: nat, m: Machine, c: Conf, s: Cpu, sp: int) returns (n: nat)
    requires Stepping(items, ret, u, m, c, s, sp) && items[c.pc].IJmp?
    ensures Follows(Run(s, m, n), ItemStep(c, items, m.env), items, ret, u, m, sp)
  {
    hide Step, Run, PrefixCode;
    n := 1;
    var l := items[c.pc].l;
    assert m.prog[s.pc + 0] == [Bra(l)][0];
    LabelLoaded(items, ret, u, m, sp - m.env.lo, l);
    BranchStep(s, m, l, Offset(items, FindLabel(items, l), ret, m.env.ra, u));
  }

  lemma BranchItemOk(items: seq<Item>, ret: Label, u: nat, m: Machine, c: Conf, s: Cpu, sp: int) returns (n: nat)
    requires Stepping(items, ret, u, m, c, s, sp) && items[c.pc].ICbr?
    ensures Follows(Run(s, m, n), ItemStep(c, items, m.env), items, ret, u, m, sp)
  {
    hide Step, Run, PrefixCode, Eval, CondCode;
    var e, l, when := items[c.pc].e, items[c.pc].l, items[c.pc].when;
    var k := PrefixCode(items, c.pc, ret, m.env.ra, u).uid;
    LabelLoaded(items, ret, u, m, sp - m.env.lo, l);
    n := CondOk(e, l, Offset(items, FindLabel(items, l), ret, m.env.ra, u), when, k, s, m, c.st);
  }

  lemma EvalItemOk(items: seq<Item>, ret: Label, u: nat, m: Machine, c: Conf, s: Cpu, sp: int) returns (n: nat)
    requires Stepping(items, ret, u, m, c, s, sp) && items[c.pc].IEval?
    ensures Follows(Run(s, m, n), ItemStep(c, items, m.env), items, ret, u, m, sp)
  {
    hide Step, Run, PrefixCode, Eval, ExprCode;
    n := ExprOk(items[c.pc].e, PrefixCode(items, c.pc, ret, m.env.ra, u).uid, s, m, c.st);
  }

  lemma ReturnItemOk(items: seq<Item>, ret: Label, u: nat, m: Machine, c: Conf, s: Cpu, sp: int) returns (n: nat)
    requires Stepping(items, ret, u, m, c, s, sp) && items[c.pc].IRet?
    ensures Follows(Run(s, m, n), ItemStep(c, items, m.env), items, ret, u, m, sp)
  {
    hide Step, Run, PrefixCode, Eval, ExprCode;
    var k := PrefixCode(items, c.pc, ret, m.env.ra, u).uid;
    EndLoaded(items, ret, u, m, sp - m.env.lo);
    var end := Offset(items, |items|, ret, m.env.ra, u);
    ShortRun(s, m);
    n := 0;
    var r := items[c.pc].r;
    if r.Some? {
      AtSplit(m.prog, s.pc, ExprCode(r.value, m.env.ra, k).code, [Bra(ret)]);
      n := ExprOk(r.value, k, s, m, c.st);
    }
    var s1 := Run(s, m, n);
    assert m.prog[s1.pc + 0] == [Bra(ret)][0];
    BranchStep(s1, m, ret, end);
    RunAdd(s, m, n, 1);
    n := n + 1;
  }

  // A whole run: if the items leave the function with a value, so does the machine,
  // at the epilogue, with that value in D0, the same memory, call trace and SP.
  lemma {:induction false} BodyRunOk(items: seq<Item>, ret: Label, u: nat, m: Machine, c: Conf, s: Cpu, sp: int, k: nat)
    returns (n: nat)
    requires LoadedBody(items, ret, u, m, sp - m.env.lo) && Follows(s, c, items, ret, u, m, sp)
    ensures Follows(Run(s, m, n), ItemRun(c, items, m.env, k), items, ret, u, m, sp)
    decreases k
  {
    hide Step, Run, ItemStep, Follows, LoadedBody;
    ShortRun(s, m);
    n := 0;
    if k > 0 {
      var i := ItemOk(items, ret, u, m, c, s, sp);
      var j := BodyRunOk(items, ret, u, m, ItemStep(c, items, m.env), Run(s, m, i), sp, k - 1);
      RunAdd(s, m, i, j);
      n := i + j;
    }
  }

  // ---- the body's labels are unique --------------------------------------------------------

  // Labels of the code of the first n items: labels of those items, or the code's own.
  ghost predicate PrefixLabels(items: seq<Item>, n: nat, code: seq<Instr>, u: nat, hi: nat)
    requires n <= |items|
  {
    && u <= hi && UniqueLabels(code)
    && forall i | 0 <= i < |code| && code[i].Lab? ::
         (code[i].l.Lbl? && u <= code[i].l.id < hi) || (exists k :: 0 <= k < n && items[k] == ILabel(code[i].l))
  }

  // Item labels come from the counter before `u`, or are names; each is defined once.
  ghost predicate GoodItemLabels(items: seq<Item>, u: nat) {
    && (forall i | 0 <= i < |items| && items[i].ILabel? :: items[i].l.Lbl? ==> items[i].l.id < u)
    && (forall i, j | 0 <= i < j < |items| && items[i].ILabel? :: items[i] != items[j])
  }

  lemma {:induction false} PrefixUnique(items: seq<Item>, n: nat, ret: Label, ra: map<nat, Reg>, u: nat)
    requires n <= |items| && GoodItemLabels(items, u)
    ensures PrefixLabels(items, n, PrefixCode(items, n, ret, ra, u).code, u, PrefixCode(items, n, ret, ra, u).uid)
  {
    hide ItemCode, GoodItemLabels, PrefixLabels;
    if n == 0 {
      NothingUnique(items, u);
    } else {
      PrefixUnique(items, n - 1, ret, ra, u);
      var x := PrefixCode(items, n - 1, ret, ra, u);
      var y := ItemCode(items[n - 1], ret, ra, x.uid);
      if items[n - 1].ILabel? {
        assert y == Out([Lab(items[n - 1].l)], x.uid) by { LabelCode(items[n - 1], ret, ra, x.uid); }
        AddItemLabel(items, n, x.code, u, x.uid);
      } else {
        ItemOwn(items[n - 1], ret, ra, x.uid);
        AddOwn(items, n, x.code, y.code, u, x.uid, y.uid);
      }
    }
  }

  lemma NothingUnique(items: seq<Item>, u: nat)
    ensures PrefixLabels(items, 0, [], u, u)
  {}

  lemma LabelCode(i: Item, ret: Label, ra: map<nat, Reg>, u: nat)
    requires i.ILabel?
    ensures ItemCode(i, ret, ra, u) == Out([Lab(i.l)], u)
  {}

  lemma ItemOwn(i: Item, ret: Label, ra: map<nat, Reg>, u: nat)
    requires !i.ILabel?
    ensures Own(ItemCode(i, ret, ra, u).code, u, ItemCode(i, ret, ra, u).uid)
  {
    hide ExprCode, CondCode;
    match i {
      case ICbr(e, l, when) => CondLabels(e, l, when, ra, u);
      case IEval(e) => ExprLabels(e, ra, u);
      case IRet(Some(e)) => ExprLabels(e, ra, u); GluePlain(ExprCode(e, ra, u).code, [Bra(ret)], u, ExprCode(e, ra, u).uid);
      case IJmp(_) | IRet(None) | INop =>
    }
  }

  lemma AddItemLabel(items: seq<Item>, n: nat, code: seq<Instr>, u: nat, hi: nat)
    requires 0 < n <= |items| && items[n - 1].ILabel? && GoodItemLabels(items, u)
    requires PrefixLabels(items, n - 1, code, u, hi)
    ensures PrefixLabels(items, n, code + [Lab(items[n - 1].l)], u, hi)
  {
    Apart(code, [Lab(items[n - 1].l)]);
  }

  lemma AddOwn(items: seq<Item>, n: nat, x: seq<Instr>, y: seq<Instr>, u: nat, mid: nat, hi: nat)
    requires 0 < n <= |items| && GoodItemLabels(items, u)
    requires PrefixLabels(items, n - 1, x, u, mid) && Own(y, mid, hi)
    ensures PrefixLabels(items, n, x + y, u, hi)
  {
    Apart(x, y);
  }

  // The emitted body defines every label once.
  lemma BodyUnique(items: seq<Item>, ret: Label, ra: map<nat, Reg>, u: nat)
    requires GoodItemLabels(items, u) && ret.Named? && forall i | 0 <= i < |items| :: items[i] != ILabel(ret)
    ensures UniqueLabels(BodyCode(items, ret, ra, u))
  {
    hide PrefixCode;
    PrefixUnique(items, |items|, ret, ra, u);
    Apart(PrefixCode(items, |items|, ret, ra, u).code, [Lab(ret), Exit]);
  }
}
