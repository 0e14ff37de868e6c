// When the order of operands matters.
module Order {
  import opened Words
  import opened Memory
  import opened Ir
  import opened M68k
  import opened Select
  import opened SelectProof
  import opened Fold
  import opened FoldProof

  // Along the right-first evaluation of `e`, no left operand changes the value of a
  // variable that its operator reads as a memory operand.
  ghost predicate Undisturbed(e: IrExpr, t: State, env: Env)
    decreases e, 1
  {
    match e
    case Load(a, _, _) => LeaReg(a, env.ra) != 0 || Undisturbed(a, t, env)
    case Store(a, b, _) =>
      if LeaReg(a, env.ra) != 0 then Undisturbed(b, t, env)
      else Undisturbed(a, t, env) && ThenUndisturbed(Eval(a, t, env), e, b, env)
    case Binop(_, _, _, _, a, b) =>
      && Undisturbed(b, t, env)
      && ThenUndisturbed(Eval(b, t, env), e, a, env)
      && (ReadsRightLast(e, env.ra) && HasValue(Eval(b, t, env)) ==>
            var va := Eval(a, Eval(b, t, env).st, env);
            va.Ok? ==> Eval(b, va.st, env) == Ok(Eval(b, t, env).v, va.st))
    case Unary(_, _, _, a) => Undisturbed(a, t, env)
    case LogAnd(a, b) =>
      && Undisturbed(a, t, env)
      && (HasValue(Eval(a, t, env)) && Eval(a, t, env).v.w != 0 ==> ThenUndisturbed(Eval(a, t, env), e, b, env))
    case LogOr(a, b) =>
      && Undisturbed(a, t, env)
      && (HasValue(Eval(a, t, env)) && Eval(a, t, env).v.w == 0 ==> ThenUndisturbed(Eval(a, t, env), e, b, env))
    case Cond(a, b, c) =>
      && Undisturbed(a, t, env)
      && (HasValue(Eval(a, t, env)) ==>
            ThenUndisturbed(Eval(a, t, env), e, if Eval(a, t, env).v.w != 0 then b else c, env))
    case Comma(a, b) => Undisturbed(a, t, env) && ThenUndisturbed(Eval(a, t, env), e, b, env)
    case Cast(_, _, _, _, _, a) => Undisturbed(a, t, env)
    case CallDirect(_, args) => ArgsUndisturbed(args, t, env)
    case CallIndirect(a, args) =>
      && ArgsUndisturbed(args, t, env)
      && (EvalArgs(args, t, env).ArgsOk? ==> Undisturbed(a, EvalArgs(args, t, env).st, env))
    case Vdef(_, a) => Undisturbed(a, t, env)
    case Nop | Num(_, _, _) | Lea(_) | Memzero(_, _, _) | Vuse(_) => true
  }

  ghost predicate ThenUndisturbed(r: Result, e: IrExpr, next: IrExpr, env: Env)
    requires next < e
    decreases e, 0
  {
    r.Ok? ==> Undisturbed(next, r.st, env)
  }

  ghost predicate ArgsUndisturbed(args: seq<IrExpr>, t: State, env: Env)
    decreases args, 0
  {
    args == []
    || (ArgsUndisturbed(args[1..], t, env)
        && (EvalArgs(args[1..], t, env).ArgsOk? ==> Undisturbed(args[0], EvalArgs(args[1..], t, env).st, env)))
  }

  // The same run-time world with the tiles' operand order.
  ghost predicate SameButOrder(env: Env, tiles: Env) {
    && RightFirst(env) && FollowsTiles(tiles)
    && tiles == env.(leftFirst := tiles.leftFirst)
  }

  lemma {:induction false} OperandOrderFree(e: IrExpr, t: State, env: Env, tiles: Env)
    requires SameButOrder(env, tiles) && SimpleOperand(e, env.ra).Some?
    ensures Eval(e, t, tiles) == Eval(e, t, env)
  {
    hide Read, Narrow;
    match e {
      case Cast(_, _, _, _, _, a) => OperandOrderFree(a, t, env, tiles);
      case Load(a, _, _) => assert a.Lea?;
    }
  }

  // Where no left operand disturbs a folded variable, the tiles' order gives the
  // right-first meaning.
  lemma {:induction false} OrderOk(e: IrExpr, t: State, env: Env, tiles: Env)
    requires SameButOrder(env, tiles) && Undisturbed(e, t, env) && Eval(e, t, env).Ok?
    ensures Eval(e, t, tiles) == Eval(e, t, env)
    decreases e, 1
  {
    hide BinVal, Narrow, Read, Write, CastVal, UnVal, ReadsRightLast;
    match e {
      case Load(a, _, _) => if LeaReg(a, env.ra) == 0 { OrderOk(a, t, env, tiles); }
      case Store(_, _, _) => StoreOrderOk(e, t, env, tiles);
      case Binop(_, _, _, _, _, _) => BinopOrderOk(e, t, env, tiles);
      case Unary(_, _, _, a) => OrderOk(a, t, env, tiles);
      case LogAnd(_, _) | LogOr(_, _) | Cond(_, _, _) | Comma(_, _) => ChoiceOrderOk(e, t, env, tiles);
      case Cast(_, _, _, _, _, a) => OrderOk(a, t, env, tiles);
      case CallDirect(_, _) | CallIndirect(_, _) => CallOrderOk(e, t, env, tiles);
      case Vdef(_, a) => OrderOk(a, t, env, tiles);
      case Nop | Num(_, _, _) | Lea(_) | Memzero(_, _, _) | Vuse(_) =>
    }
  }

  lemma StoreOrderOk(e: IrExpr, t: State, env: Env, tiles: Env)
    requires e.Store? && SameButOrder(env, tiles) && Undisturbed(e, t, env) && Eval(e, t, env).Ok?
    ensures Eval(e, t, tiles) == Eval(e, t, env)
    decreases e, 0
  {
    hide Write;
    if LeaReg(e.a, env.ra) != 0 {
      OrderOk(e.b, t, env, tiles);
    } else {
      OrderOk(e.a, t, env, tiles);
      OrderOk(e.b, Eval(e.a, t, env).st, env, tiles);
    }
  }

  lemma ChoiceOrderOk(e: IrExpr, t: State, env: Env, tiles: Env)
    requires e.LogAnd? || e.LogOr? || e.Cond? || e.Comma?
    requires SameButOrder(env, tiles) && Undisturbed(e, t, env) && Eval(e, t, env).Ok?
    ensures Eval(e, t, tiles) == Eval(e, t, env)
    decreases e, 0
  {
    var va := Eval(e.a, t, env);
    OrderOk(e.a, t, env, tiles);
    if e.Comma? || (va.v.w != 0) != e.LogOr? { OrderOk(e.b, va.st, env, tiles); }
    else if e.Cond? { OrderOk(e.c, va.st, env, tiles); }
  }

  lemma CallOrderOk(e: IrExpr, t: State, env: Env, tiles: Env)
    requires e.CallDirect? || e.CallIndirect?
    requires SameButOrder(env, tiles) && Undisturbed(e, t, env) && Eval(e, t, env).Ok?
    ensures Eval(e, t, tiles) == Eval(e, t, env)
    decreases e, 0
  {
    ArgsOrderOk(e.args, t, env, tiles);
    if e.CallIndirect? { OrderOk(e.a, EvalArgs(e.args, t, env).st, env, tiles); }
  }

  lemma BinopOrderOk(e: IrExpr, t: State, env: Env, tiles: Env)
    requires e.Binop? && SameButOrder(env, tiles) && Undisturbed(e, t, env) && Eval(e, t, env).Ok?
    ensures Eval(e, t, tiles) == Eval(e, t, env)
    decreases e, 0
  {
    hide BinVal;
    FoldProof.BinopMeaning(e, t, env);
    var vb := Eval(e.b, t, env);
    var va := Eval(e.a, vb.st, env);
    OrderOk(e.a, vb.st, env, tiles);
    if tiles.leftFirst(e) {
      QuietOperand(e.b, t, env);
      OperandOrderFree(e.b, va.st, env, tiles);
    } else {
      OrderOk(e.b, t, env, tiles);
    }
  }

  lemma {:induction false} QuietOperand(e: IrExpr, t: State, env: Env)
    requires SimpleOperand(e, env.ra).Some? && Eval(e, t, env).Ok?
    ensures Eval(e, t, env).st == t
  {
    match e {
      case Cast(_, _, _, _, _, a) => QuietOperand(a, t, env);
      case Load(a, _, _) => assert a.Lea?;
    }
  }

  lemma ArgsOrderOk(args: seq<IrExpr>, t: State, env: Env, tiles: Env)
    requires SameButOrder(env, tiles) && ArgsUndisturbed(args, t, env) && EvalArgs(args, t, env).ArgsOk?
    ensures EvalArgs(args, t, tiles) == EvalArgs(args, t, env)
    decreases args, 0
  {
    hide Eval;
    if args != [] {
      ArgsOrderOk(args[1..], t, env, tiles);
      OrderOk(args[0], EvalArgs(args[1..], t, env).st, env, tiles);
    }
  }

  // The two orders apply the operator to the folded operand's value after and before the
  // left operand.
  lemma OrdersCompare(e: IrExpr, t: State, env: Env, tiles: Env)
    requires e.Binop? && SameButOrder(env, tiles) && ReadsRightLast(e, env.ra)
    requires Undisturbed(e.a, t, env) && HasValue(Eval(e.a, t, env))
    requires HasValue(Eval(e.b, t, env)) && HasValue(Eval(e.b, Eval(e.a, t, env).st, env))
    ensures var va := Eval(e.a, t, env);
      Eval(e, t, tiles) == Eval(e, t, env) <==>
      BinVal(e.op, e.uns, va.v.w, Eval(e.b, va.st, env).v.w, env.undef)
      == BinVal(e.op, e.uns, va.v.w, Eval(e.b, t, env).v.w, env.undef)
  {
    hide BinVal;
    assert tiles.leftFirst(e) && !env.leftFirst(e);
    QuietOperand(e.b, t, env);
    OrderOk(e.a, t, env, tiles);
    var va := Eval(e.a, t, env);
    QuietOperand(e.b, va.st, env);
    OperandOrderFree(e.b, va.st, env, tiles);
  }

  // (x = 5) + x, with x in D2: 10 by the tiles, 5 + x right-first.
  lemma OrderMatters(t: State, env: Env, tiles: Env)
    requires SameButOrder(env, tiles) && env.ra == map[0 := 2 as Reg]
    requires Fetched(0, t, env) != 5
    ensures var x := Lea(Local(0, -4));
      var e := Binop(Op.Add, false, false, 4, Store(x, Num(5, 4, false), 4), Load(x, 4, false));
      && Eval(e, t, tiles).v == W(10)
      && Eval(e, t, env).v == W(AddW(5, Fetched(0, t, env)))
      && Eval(e, t, tiles).v != Eval(e, t, env).v
  {
    var x := Lea(Local(0, -4));
    var e := Binop(Op.Add, false, false, 4, Store(x, Num(5, 4, false), 4), Load(x, 4, false));
    assert ReadsRightLast(e, env.ra);
    assert tiles.leftFirst(e) && !env.leftFirst(e);
    var st := Assigned(0, 5, t, env);
    assert Eval(e.a, t, tiles) == Ok(W(5), st) == Eval(e.a, t, env);
    assert Eval(e.b, st, tiles) == Ok(W(5), st);
    assert Eval(e.b, t, env) == Ok(W(Fetched(0, t, env)), t);
  }

  // ---- the place a folded operand reads ------------------------------------------------------

  // The variable under the casts of a folded operand.
  function FoldedPlace(e: IrExpr): Option<Place> {
    match e
    case Cast(_, _, _, _, _, a) => FoldedPlace(a)
    case Load(a, _, _) => if a.Lea? then Some(a.place) else None
    case _ => None
  }

  function PlaceReg(p: Place, ra: map<nat, Reg>): Reg { LeaReg(Lea(p), ra) }

  // What a longword variable holds.
  ghost function PlaceVal(p: Place, t: State, env: Env): Word {
    if PlaceReg(p, env.ra) != 0 then Fetched(p.v, t, env)
    else
      ReadIsWord(t.mem, PlaceAddr(p, env), 4);
      Read(t.mem, PlaceAddr(p, env), 4)
  }

  lemma {:induction false} FoldedReads(e: IrExpr, t: State, env: Env)
    requires SimpleOperand(e, env.ra).Some? && WellTyped(e) && Eval(e, t, env).Ok?
    ensures FoldedPlace(e).Some? && Eval(e, t, env) == Ok(W(PlaceVal(FoldedPlace(e).value, t, env)), t)
  {
    hide Read;
    if e.Cast? { FoldedReads(e.a, t, env); }
  }

  // The operand's value depends on the variable alone.
  lemma {:induction false} SameRead(e: IrExpr, t: State, t2: State, env: Env)
    requires SimpleOperand(e, env.ra).Some? && FoldedPlace(e).Some? && HasValue(Eval(e, t, env))
    requires PlaceVal(FoldedPlace(e).value, t2, env) == PlaceVal(FoldedPlace(e).value, t, env)
    ensures Eval(e, t2, env) == Ok(Eval(e, t, env).v, t2)
  {
    hide Read, CastVal;
    if e.Cast? { SameRead(e.a, t, t2, env); }
  }

  lemma {:induction false} FoldedHasPlace(e: IrExpr, ra: map<nat, Reg>)
    requires SimpleOperand(e, ra).Some?
    ensures FoldedPlace(e).Some?
  {
    if e.Cast? { FoldedHasPlace(e.a, ra); }
  }

  // For an operator that tells its right operands apart, the two orders agree in a state if
  // and only if the left operand leaves the folded variable with the value it had.
  lemma OrdersAgreeIff(e: IrExpr, t: State, env: Env, tiles: Env)
    requires e.Binop? && (e.op == Op.Add || e.op == Op.Sub) && WellTyped(e)
    requires SameButOrder(env, tiles) && ReadsRightLast(e, env.ra) && Undisturbed(e.a, t, env)
    requires HasValue(Eval(e.a, t, env)) && HasValue(Eval(e.b, t, env))
    ensures FoldedPlace(e.b).Some?
    ensures var p := FoldedPlace(e.b).value;
      Eval(e, t, tiles) == Eval(e, t, env) <==> PlaceVal(p, Eval(e.a, t, env).st, env) == PlaceVal(p, t, env)
  {
    hide Eval, PlaceVal, Undisturbed, FoldedPlace;
    var va := Eval(e.a, t, env);
    FoldedHasPlace(e.b, env.ra);
    FoldedReads(e.b, t, env);
    SameRange(e.b, t, va.st, env);
    FoldedReads(e.b, va.st, env);
    OrdersCompare(e, t, env, tiles);
    ApartBy(va.v.w, PlaceVal(FoldedPlace(e.b).value, va.st, env), PlaceVal(FoldedPlace(e.b).value, t, env));
  }

  // Whether a variable can be read does not depend on the state.
  lemma {:induction false} SameRange(e: IrExpr, t: State, t2: State, env: Env)
    requires SimpleOperand(e, env.ra).Some? && HasValue(Eval(e, t, env))
    ensures HasValue(Eval(e, t2, env))
  {
    hide Read, CastVal;
    if e.Cast? { SameRange(e.a, t, t2, env); }
  }

  lemma ApartBy(a: Word, x: Word, y: Word)
    ensures AddW(a, x) == AddW(a, y) <==> x == y
    ensures SubW(a, x) == SubW(a, y) <==> x == y
  {}

  // ---- a test on the tree alone ------------------------------------------------------------

  // Objects of n and 4 bytes at frame offsets that cannot meet; symbols may be anywhere.
  predicate MayMeet(q: Place, n: nat, p: Place) {
    !(q.Local? && p.Local?
      && (if q.off <= p.off then q.off + n <= p.off && p.off + 4 <= q.off + MODULUS
          else p.off + 4 <= q.off && q.off + n <= p.off + MODULUS))
  }

  // Evaluating e may change the longword variable at p: a store to it, to memory through a
  // pointer, a call, or the definition of a value temporary in its register.
  predicate Touches(e: IrExpr, p: Place, ra: map<nat, Reg>)
    decreases e
  {
    match e
    case Nop | Num(_, _, _) | Lea(_) | Vuse(_) => false
    case Load(a, _, _) => Touches(a, p, ra)
    case Store(a, b, size) =>
      || Touches(a, p, ra) || Touches(b, p, ra)
      || (if LeaReg(a, ra) != 0 then LeaReg(a, ra) == PlaceReg(p, ra)
          else PlaceReg(p, ra) == 0 && (a.Lea? ==> MayMeet(a.place, Width(size), p)))
    case Memzero(v, off, size) =>
      if RegOf(ra, v) != 0 then RegOf(ra, v) == PlaceReg(p, ra)
      else PlaceReg(p, ra) == 0 && MayMeet(Local(v, off), size, p)
    case CallDirect(_, args) => PlaceReg(p, ra) == 0 || exists x | x in args :: Touches(x, p, ra)
    case CallIndirect(a, args) => PlaceReg(p, ra) == 0 || Touches(a, p, ra) || exists x | x in args :: Touches(x, p, ra)
    case Vdef(r, a) => (r != 0 && r == PlaceReg(p, ra)) || Touches(a, p, ra)
    case Binop(_, _, _, _, a, b) => Touches(a, p, ra) || Touches(b, p, ra)
    case Unary(_, _, _, a) => Touches(a, p, ra)
    case LogAnd(a, b) => Touches(a, p, ra) || Touches(b, p, ra)
    case LogOr(a, b) => Touches(a, p, ra) || Touches(b, p, ra)
    case Cond(a, b, c) => Touches(a, p, ra) || Touches(b, p, ra) || Touches(c, p, ra)
    case Comma(a, b) => Touches(a, p, ra) || Touches(b, p, ra)
    case Cast(_, _, _, _, _, a) => Touches(a, p, ra)
  }

  lemma {:induction false} ReadOther(m: Mem, a: int, n: nat, v: nat, b: int, k: nat)
    requires forall i, j | 0 <= i < n && 0 <= j < k :: Slot(a, i) != Slot(b, j)
    ensures Read(Write(m, a, n, v), b, k) == Read(m, b, k)
  {
    if k > 0 {
      ReadOther(m, a, n, v, b, k - 1);
      WriteFrame(m, a, n, v, Slot(b, k - 1));
    }
  }

  lemma {:induction false} ReadUncleared(m: Mem, a: int, n: nat, b: int, k: nat)
    requires forall i, j | 0 <= i < n && 0 <= j < k :: Slot(a, i) != Slot(b, j)
    ensures Read(Zero(m, a, n), b, k) == Read(m, b, k)
    decreases k
  {
    if k > 0 {
      ReadUncleared(m, a, n, b, k - 1);
      PeekUncleared(m, a, n, Slot(b, k - 1));
    }
  }

  lemma {:induction false} PeekUncleared(m: Mem, a: int, n: nat, b: int)
    requires forall i | 0 <= i < n :: Slot(a, i) != b
    ensures Peek(Zero(m, a, n), b) == Peek(m, b)
  {
    if n > 0 {
      assert Slot(a, n - 1) != b;
      PeekUncleared(m, a, n - 1, b);
    }
  }

  lemma NeverMeet(q: Place, n: nat, p: Place, env: Env)
    requires !MayMeet(q, n, p)
    ensures forall i, j | 0 <= i < n && 0 <= j < 4 :: Slot(PlaceAddr(q, env), i) != Slot(PlaceAddr(p, env), j)
  {
    forall i, j | 0 <= i < n && 0 <= j < 4 ensures Slot(PlaceAddr(q, env), i) != Slot(PlaceAddr(p, env), j) {
      SlotApart(env.a6, q.off, i, p.off, j);
    }
  }

  lemma SlotApart(base: int, x: int, i: int, y: int, j: int)
    requires 0 < y + j - x - i < MODULUS || 0 < x + i - y - j < MODULUS
    ensures Slot(Wrap(base + x), i) != Slot(Wrap(base + y), j)
  {
    WrapTwice(base + x, i);
    WrapTwice(base + y, j);
    if x + i > y + j { WrapApart(base + x + i, base + y + j); } else { WrapApart(base + y + j, base + x + i); }
  }

  lemma WrapApart(u: int, w: int)
    requires 0 < u - w < MODULUS
    ensures Wrap(u) != Wrap(w)
  {
    var k, r := w / MODULUS, w % MODULUS;
    assert w == k * MODULUS + r;
    if r + (u - w) < MODULUS { ModUnique(u, MODULUS, k, r + (u - w)); }
    else { ModUnique(u, MODULUS, k + 1, r + (u - w) - MODULUS); }
  }

  lemma WrapTwice(x: int, i: int)
    ensures Wrap(Wrap(x) + i) == Wrap(x + i)
  {
    var q := x / MODULUS;
    var k := Wrap(x) + i;
    assert x + i == q * MODULUS + k;
    ModUnique(x + i, MODULUS, q + k / MODULUS, k % MODULUS);
  }

  // What does not touch a variable leaves its value alone, in every state.
  lemma {:induction false} Untouched(e: IrExpr, p: Place, t: State, env: Env)
    requires !Touches(e, p, env.ra) && Eval(e, t, env).Ok?
    ensures PlaceVal(p, Eval(e, t, env).st, env) == PlaceVal(p, t, env)
    decreases e, 1
  {
    hide Read, Write, Zero, BinVal, Narrow, CastVal, UnVal, MayMeet, PlaceVal, Assigned, Fetched;
    match e {
      case Nop | Num(_, _, _) | Lea(_) | Vuse(_) =>
      case Memzero(_, _, _) => ClearUntouched(e, p, t, env);
      case Load(a, _, _) => if LeaReg(a, env.ra) == 0 { Untouched(a, p, t, env); }
      case Store(_, _, _) => StoreUntouched(e, p, t, env);
      case Binop(_, _, _, _, _, _) | LogAnd(_, _) | LogOr(_, _) | Cond(_, _, _) | Comma(_, _) => PairUntouched(e, p, t, env);
      case Unary(_, _, _, a) => Untouched(a, p, t, env);
      case Cast(_, _, _, _, _, a) => Untouched(a, p, t, env);
      case CallDirect(_, _) | CallIndirect(_, _) => CallUntouched(e, p, t, env);
      case Vdef(_, _) => VdefUntouched(e, p, t, env);
    }
  }

  lemma PairUntouched(e: IrExpr, p: Place, t: State, env: Env)
    requires (e.Binop? || e.LogAnd? || e.LogOr? || e.Cond? || e.Comma?) && !Touches(e, p, env.ra) && Eval(e, t, env).Ok?
    ensures PlaceVal(p, Eval(e, t, env).st, env) == PlaceVal(p, t, env)
    decreases e, 0
  {
    hide BinVal, PlaceVal;
    if e.Binop? && !env.leftFirst(e) {
      Untouched(e.b, p, t, env);
      Untouched(e.a, p, Eval(e.b, t, env).st, env);
    } else {
      var va := Eval(e.a, t, env);
      Untouched(e.a, p, t, env);
      if e.Binop? || e.Comma? || (va.v.w != 0 && !e.LogOr?) || (va.v.w == 0 && e.LogOr?) {
        Untouched(e.b, p, va.st, env);
      } else if e.Cond? {
        Untouched(e.c, p, va.st, env);
      }
    }
  }

  lemma CallUntouched(e: IrExpr, p: Place, t: State, env: Env)
    requires (e.CallDirect? || e.CallIndirect?) && !Touches(e, p, env.ra) && Eval(e, t, env).Ok?
    ensures PlaceVal(p, Eval(e, t, env).st, env) == PlaceVal(p, t, env)
    decreases e, 0
  {
    ArgsUntouched(e.args, p, t, env);
    if e.CallIndirect? { Untouched(e.a, p, EvalArgs(e.args, t, env).st, env); }
  }

  lemma VdefUntouched(e: IrExpr, p: Place, t: State, env: Env)
    requires e.Vdef? && !Touches(e, p, env.ra) && Eval(e, t, env).Ok?
    ensures PlaceVal(p, Eval(e, t, env).st, env) == PlaceVal(p, t, env)
    decreases e, 0
  {
    Untouched(e.a, p, t, env);
  }

  lemma ClearUntouched(e: IrExpr, p: Place, t: State, env: Env)
    requires e.Memzero? && !Touches(e, p, env.ra) && Eval(e, t, env).Ok?
    ensures PlaceVal(p, Eval(e, t, env).st, env) == PlaceVal(p, t, env)
  {
    hide Read, Zero, MayMeet;
    if RegOf(env.ra, e.v) == 0 && PlaceReg(p, env.ra) == 0 {
      NeverMeet(Local(e.v, e.off), e.size, p, env);
      ReadUncleared(t.mem, PlaceAddr(Local(e.v, e.off), env), e.size, PlaceAddr(p, env), 4);
    }
  }

  lemma StoreUntouched(e: IrExpr, p: Place, t: State, env: Env)
    requires e.Store? && !Touches(e, p, env.ra) && Eval(e, t, env).Ok?
    ensures PlaceVal(p, Eval(e, t, env).st, env) == PlaceVal(p, t, env)
    decreases e, 0
  {
    hide Read, Write, MayMeet;
    if LeaReg(e.a, env.ra) != 0 {
      Untouched(e.b, p, t, env);
    } else {
      var va := Eval(e.a, t, env);
      Untouched(e.a, p, t, env);
      var vb := Eval(e.b, va.st, env);
      Untouched(e.b, p, va.st, env);
      if PlaceReg(p, env.ra) == 0 {
        NeverMeet(e.a.place, Width(e.size), p, env);
        ReadOther(vb.st.mem, va.v.w, Width(e.size), vb.v.w, PlaceAddr(p, env), 4);
      }
    }
  }

  lemma ArgsUntouched(args: seq<IrExpr>, p: Place, t: State, env: Env)
    requires (forall x | x in args :: !Touches(x, p, env.ra)) && EvalArgs(args, t, env).ArgsOk?
    ensures PlaceVal(p, EvalArgs(args, t, env).st, env) == PlaceVal(p, t, env)
    decreases args, 0
  {
    hide Eval, Touches, PlaceVal;
    if args != [] {
      ArgsUntouched(args[1..], p, t, env);
      Untouched(args[0], p, EvalArgs(args[1..], t, env).st, env);
    }
  }

  // Every operator that folds its right operand has a left operand that does not touch the
  // folded variable.
  predicate LeftsClear(e: IrExpr, ra: map<nat, Reg>)
    decreases e
  {
    match e
    case Load(a, _, _) => LeftsClear(a, ra)
    case Store(a, b, _) => LeftsClear(a, ra) && LeftsClear(b, ra)
    case Binop(_, _, _, _, a, b) =>
      && LeftsClear(a, ra) && LeftsClear(b, ra)
      && (ReadsRightLast(e, ra) && FoldedPlace(b).Some? ==> !Touches(a, FoldedPlace(b).value, ra))
    case Unary(_, _, _, a) => LeftsClear(a, ra)
    case LogAnd(a, b) => LeftsClear(a, ra) && LeftsClear(b, ra)
    case LogOr(a, b) => LeftsClear(a, ra) && LeftsClear(b, ra)
    case Cond(a, b, c) => LeftsClear(a, ra) && LeftsClear(b, ra) && LeftsClear(c, ra)
    case Comma(a, b) => LeftsClear(a, ra) && LeftsClear(b, ra)
    case Cast(_, _, _, _, _, a) => LeftsClear(a, ra)
    case CallDirect(_, args) => forall x | x in args :: LeftsClear(x, ra)
    case CallIndirect(a, args) => LeftsClear(a, ra) && forall x | x in args :: LeftsClear(x, ra)
    case Vdef(_, a) => LeftsClear(a, ra)
    case Nop | Num(_, _, _) | Lea(_) | Memzero(_, _, _) | Vuse(_) => true
  }

  // In every state, then, the order of operands does not show.
  lemma {:induction false} ClearLeftsUndisturbed(e: IrExpr, t: State, env: Env)
    requires LeftsClear(e, env.ra)
    ensures Undisturbed(e, t, env)
    decreases e, 1
  {
    hide Eval, ReadsRightLast, Touches;
    match e {
      case Load(a, _, _) => ClearLeftsUndisturbed(a, t, env);
      case Store(a, b, _) =>
        ClearLeftsUndisturbed(a, t, env);
        ClearLeftsUndisturbed(b, t, env);
        if Eval(a, t, env).Ok? { ClearLeftsUndisturbed(b, Eval(a, t, env).st, env); }
      case Binop(_, _, _, _, _, _) => ClearBinopUndisturbed(e, t, env);
      case Unary(_, _, _, a) => ClearLeftsUndisturbed(a, t, env);
      case LogAnd(a, b) =>
        ClearLeftsUndisturbed(a, t, env);
        if Eval(a, t, env).Ok? { ClearLeftsUndisturbed(b, Eval(a, t, env).st, env); }
      case LogOr(a, b) =>
        ClearLeftsUndisturbed(a, t, env);
        if Eval(a, t, env).Ok? { ClearLeftsUndisturbed(b, Eval(a, t, env).st, env); }
      case Cond(a, b, c) =>
        ClearLeftsUndisturbed(a, t, env);
        if Eval(a, t, env).Ok? {
          ClearLeftsUndisturbed(b, Eval(a, t, env).st, env);
          ClearLeftsUndisturbed(c, Eval(a, t, env).st, env);
        }
      case Comma(a, b) =>
        ClearLeftsUndisturbed(a, t, env);
        if Eval(a, t, env).Ok? { ClearLeftsUndisturbed(b, Eval(a, t, env).st, env); }
      case Cast(_, _, _, _, _, a) => ClearLeftsUndisturbed(a, t, env);
      case CallDirect(_, args) => ClearArgsUndisturbed(args, t, env);
      case CallIndirect(a, args) =>
        ClearArgsUndisturbed(args, t, env);
        if EvalArgs(args, t, env).ArgsOk? { ClearLeftsUndisturbed(a, EvalArgs(args, t, env).st, env); }
      case Vdef(_, a) => ClearLeftsUndisturbed(a, t, env);
      case Nop | Num(_, _, _) | Lea(_) | Memzero(_, _, _) | Vuse(_) =>
    }
  }

  lemma ClearBinopUndisturbed(e: IrExpr, t: State, env: Env)
    requires e.Binop? && LeftsClear(e, env.ra)
    ensures Undisturbed(e, t, env)
    decreases e, 0
  {
    hide Eval, Touches, PlaceVal;
    var vb := Eval(e.b, t, env);
    ClearLeftsUndisturbed(e.b, t, env);
    if vb.Ok? {
      ClearLeftsUndisturbed(e.a, vb.st, env);
      if ReadsRightLast(e, env.ra) && HasValue(vb) {
        FoldedHasPlace(e.b, env.ra);
        QuietOperand(e.b, t, env);
        var va := Eval(e.a, vb.st, env);
        if va.Ok? {
          Untouched(e.a, FoldedPlace(e.b).value, t, env);
          SameRead(e.b, t, va.st, env);
        }
      }
    }
  }

  lemma ClearArgsUndisturbed(args: seq<IrExpr>, t: State, env: Env)
    requires forall x | x in args :: LeftsClear(x, env.ra)
    ensures ArgsUndisturbed(args, t, env)
    decreases args, 0
  {
    hide Eval, LeftsClear;
    if args != [] {
      ClearArgsUndisturbed(args[1..], t, env);
      if EvalArgs(args[1..], t, env).ArgsOk? {
        ClearLeftsUndisturbed(args[0], EvalArgs(args[1..], t, env).st, env);
      }
    }
  }

  // The test is needed where the left operand stores to the folded variable itself: the orders
  // then agree exactly in the states where the value stored is the one it holds.
  lemma StoreToFolded(op: Op, uns: bool, size: nat, p: Place, y: IrExpr, un: bool, t: State, env: Env, tiles: Env)
    requires op == Op.Add || op == Op.Sub
    requires SameButOrder(env, tiles) && Undisturbed(y, t, env) && !IsAddrReg(PlaceReg(p, env.ra))
    requires PlaceAddr(p, env) + 4 <= MODULUS
    requires var e := Binop(op, uns, false, size, Store(Lea(p), y, 4), Load(Lea(p), 4, un));
      WellTyped(e) && Eval(e, t, env).Ok?
    ensures var e := Binop(op, uns, false, size, Store(Lea(p), y, 4), Load(Lea(p), 4, un));
      HasValue(Eval(y, t, env))
      && (Eval(e, t, tiles) == Eval(e, t, env) <==> Eval(y, t, env).v.w == PlaceVal(p, t, env))
  {
    var e := Binop(op, uns, false, size, Store(Lea(p), y, 4), Load(Lea(p), 4, un));
    StoredValue(p, y, t, env);
    hide PlaceVal;
    FoldProof.BinopMeaning(e, t, env);
    QuietOperand(e.b, t, env);
    OrdersAgreeIff(e, t, env, tiles);
  }

  lemma StoredValue(p: Place, y: IrExpr, t: State, env: Env)
    requires PlaceAddr(p, env) + 4 <= MODULUS && Eval(Store(Lea(p), y, 4), t, env).Ok?
    ensures HasValue(Eval(y, t, env)) && HasValue(Eval(Store(Lea(p), y, 4), t, env))
    ensures PlaceVal(p, Eval(Store(Lea(p), y, 4), t, env).st, env) == Eval(y, t, env).v.w
  {
    hide Read, Write;
    var vy := Eval(y, t, env);
    assert Eval(Lea(p), t, env) == Ok(W(PlaceAddr(p, env)), t);
    if PlaceReg(p, env.ra) == 0 && HasValue(vy) { ReadBackWord(vy.st.mem, PlaceAddr(p, env), vy.v.w); }
  }
}
