// Linear IR items with a stepped meaning, and their control-flow graph.
module Items {
  import opened Words
  import opened Memory
  import opened Ir
  import opened M68k

  datatype Item =
    | ILabel(l: Label)
    | IJmp(l: Label)
    | ICbr(e: IrExpr, l: Label, when: bool)
    | IEval(e: IrExpr)
    | IRet(r: Option<IrExpr>)
    | INop

  // A run is at an item, has left the function with a value or none, or is stuck.
  datatype Conf = AtItem(pc: nat, st: State) | Left(v: Val, st: State) | Stuck

  // Index of the first definition of `l`, or |items| when there is none.
  function FindLabel(items: seq<Item>, l: Label): (i: nat)
    ensures i <= |items|
    ensures i < |items| ==> items[i] == ILabel(l)
    ensures forall k | 0 <= k < i :: items[k] != ILabel(l)
  {
    if items == [] then 0
    else if items[0] == ILabel(l) then 0
    else 1 + FindLabel(items[1..], l)
  }

  function Jump(items: seq<Item>, l: Label, st: State): Conf {
    var t := FindLabel(items, l);
    if t < |items| then AtItem(t, st) else Stuck
  }

  // Falling off the end reaches the epilogue, like a return without a value.
  ghost function ItemStep(c: Conf, items: seq<Item>, env: Env): Conf {
    if !c.AtItem? then c
    else if c.pc >= |items| then Left(Void, c.st)
    else
      match items[c.pc]
      case ILabel(_) => AtItem(c.pc + 1, c.st)
      case INop => AtItem(c.pc + 1, c.st)
      case IJmp(l) => Jump(items, l, c.st)
      case ICbr(e, l, when) =>
        var r := Eval(e, c.st, env);
        if !HasValue(r) then Stuck
        else if (r.v.w != 0) == when then Jump(items, l, r.st) else AtItem(c.pc + 1, r.st)
      case IEval(e) =>
        var r := Eval(e, c.st, env);
        if r.Fail? then Stuck else AtItem(c.pc + 1, r.st)
      case IRet(None) => Left(Void, c.st)
      case IRet(Some(e)) =>
        var r := Eval(e, c.st, env);
        if r.Fail? then Stuck else Left(r.v, r.st)
  }

  ghost function ItemRun(c: Conf, items: seq<Item>, env: Env, n: nat): Conf
    decreases n
  {
    if n == 0 then c else ItemRun(ItemStep(c, items, env), items, env, n - 1)
  }

  lemma {:induction false} ItemRunAdd(c: Conf, items: seq<Item>, env: Env, i: nat, j: nat)
    ensures ItemRun(c, items, env, i + j) == ItemRun(ItemRun(c, items, env, i), items, env, j)
    decreases i
  {
    hide ItemStep;
    if i > 0 { ItemRunAdd(ItemStep(c, items, env), items, env, i - 1, j); }
  }

  lemma {:induction false} StuckStays(items: seq<Item>, env: Env, n: nat)
    ensures ItemRun(Stuck, items, env, n) == Stuck
  {
    if n > 0 { StuckStays(items, env, n - 1); }
  }

  // ---- control-flow graph -----------------------------------------------------------

  datatype Block = Block(start: nat, end: nat, succ: seq<nat>, pred: seq<nat>)

  predicate IsTransfer(i: Item) { i.IJmp? || i.ICbr? || i.IRet? }

  // The first item, every label, and the item after any transfer.
  predicate Leader(items: seq<Item>, i: nat)
    requires i < |items|
  {
    i == 0 || items[i].ILabel? || IsTransfer(items[i - 1])
  }

  // Contiguous non-empty blocks that cover the items and start exactly at the leaders.
  ghost predicate Partition(items: seq<Item>, blocks: seq<Block>, n: nat) {
    && n <= |items|
    && (|blocks| == 0 <==> n == 0)
    && (n > 0 ==> blocks[0].start == 0 && blocks[|blocks| - 1].end == n)
    && (forall b | 0 <= b < |blocks| :: blocks[b].start < blocks[b].end <= n)
    && (forall b | 0 <= b < |blocks| - 1 :: blocks[b].end == blocks[b + 1].start)
    && (forall b | 0 <= b < |blocks| :: Leader(items, blocks[b].start))
    && (forall b, i | 0 <= b < |blocks| && blocks[b].start < i < blocks[b].end :: !Leader(items, i))
  }

  // Block containing the first definition of `l`; -1 when `l` is not defined.
  function BlockOfLabel(items: seq<Item>, blocks: seq<Block>, l: Label): int
    requires forall b | 0 <= b < |blocks| :: blocks[b].start <= blocks[b].end <= |items|
  {
    if blocks == [] then -1
    else if exists i | blocks[0].start <= i < blocks[0].end :: items[i] == ILabel(l) then 0
    else
      var r := BlockOfLabel(items, blocks[1..], l);
      if r < 0 then -1 else 1 + r
  }

  function Edges(items: seq<Item>, blocks: seq<Block>, b: nat): seq<nat>
    requires b < |blocks| && forall c | 0 <= c < |blocks| :: blocks[c].start < blocks[c].end <= |items|
  {
    var last := items[blocks[b].end - 1];
    var next := if b + 1 < |blocks| then [b + 1] else [];
    match last
    case IJmp(l) => LabelEdge(items, blocks, l)
    case IRet(_) => []
    case ICbr(_, l, _) => LabelEdge(items, blocks, l) + next
    case ILabel(_) => next
    case IEval(_) => next
    case INop => next
  }

  function LabelEdge(items: seq<Item>, blocks: seq<Block>, l: Label): seq<nat>
    requires forall c | 0 <= c < |blocks| :: blocks[c].start < blocks[c].end <= |items|
  {
    var t := BlockOfLabel(items, blocks, l);
    if t >= 0 then [t] else []
  }

  // What ir_build_cfg establishes.
  ghost predicate IsCfg(items: seq<Item>, blocks: seq<Block>) {
    && Partition(items, blocks, |items|)
    && (forall b | 0 <= b < |blocks| :: blocks[b].succ == Edges(items, blocks, b))
    && (forall b: nat, p: nat | b < |blocks| && p < |blocks| :: p in blocks[b].pred <==> b in blocks[p].succ)
    && (forall b: nat, p: nat | b < |blocks| && p in blocks[b].pred :: p < |blocks|)
  }

  ghost predicate InBlock(blocks: seq<Block>, b: nat, pc: nat) {
    b < |blocks| && blocks[b].start <= pc < blocks[b].end
  }

  lemma {:induction false} BlockOfLabelIs(items: seq<Item>, blocks: seq<Block>, l: Label, i: nat, b: nat)
    requires forall c | 0 <= c < |blocks| :: blocks[c].start < blocks[c].end <= |items|
    requires forall c, d | 0 <= c < d < |blocks| :: blocks[c].end <= blocks[d].start
    requires i < |items| && items[i] == ILabel(l) && (forall k | 0 <= k < i :: items[k] != ILabel(l))
    requires InBlock(blocks, b, i)
    ensures BlockOfLabel(items, blocks, l) == b
  {
    if b > 0 {
      assert blocks[0].end <= blocks[b].start;
      BlockOfLabelIs(items, blocks[1..], l, i, b - 1);
    }
  }

  lemma {:induction false} BlocksOrdered(items: seq<Item>, blocks: seq<Block>, c: nat, d: nat)
    requires Partition(items, blocks, |items|) && c < d < |blocks|
    ensures blocks[c].end <= blocks[d].start
    decreases d
  {
    if c + 1 < d { BlocksOrdered(items, blocks, c, d - 1); }
  }

  // Every item is in some block.
  lemma {:induction false} FindBlock(items: seq<Item>, blocks: seq<Block>, pc: nat, k: nat) returns (b: nat)
    requires Partition(items, blocks, |items|) && pc < |items| && k < |blocks| && blocks[k].start <= pc
    ensures InBlock(blocks, b, pc)
    decreases |blocks| - k
  {
    if pc < blocks[k].end { b := k; } else { b := FindBlock(items, blocks, pc, k + 1); }
  }

  // Blocks start at the first item, at labels and behind transfers, and nowhere else.
  lemma BlockStarts(items: seq<Item>, blocks: seq<Block>, i: nat)
    requires IsCfg(items, blocks) && i < |items|
    ensures (exists b :: 0 <= b < |blocks| && blocks[b].start == i)
       <==> i == 0 || items[i].ILabel? || items[i - 1].IJmp? || items[i - 1].ICbr? || items[i - 1].IRet?
  {
    hide Edges;
    var b := FindBlock(items, blocks, i, 0);
    if Leader(items, i) { assert blocks[b].start == i; }
  }

  // A block's successors are the next one, unless it ends in a jump or a return, and the block
  // that starts at the label it jumps to; its predecessors are the blocks it succeeds.
  lemma BlockEdges(items: seq<Item>, blocks: seq<Block>, b: nat, c: nat)
    requires IsCfg(items, blocks) && b < |blocks| && c < |blocks|
    ensures blocks[b].end <= |items| && blocks[b].end > 0
    ensures var last := items[blocks[b].end - 1];
      c in blocks[b].succ
      <==> (c == b + 1 && !last.IJmp? && !last.IRet?)
           || ((last.IJmp? || last.ICbr?) && FindLabel(items, last.l) == blocks[c].start)
    ensures b in blocks[c].pred <==> c in blocks[b].succ
  {
    hide Leader, BlockOfLabel;
    var last := items[blocks[b].end - 1];
    if last.IJmp? || last.ICbr? { LabelBlock(items, blocks, last.l, c); }
  }

  lemma LabelBlock(items: seq<Item>, blocks: seq<Block>, l: Label, c: nat)
    requires IsCfg(items, blocks) && c < |blocks|
    ensures BlockOfLabel(items, blocks, l) == c <==> FindLabel(items, l) == blocks[c].start
  {
    hide BlockOfLabel, Edges;
    var i := FindLabel(items, l);
    if i < |items| {
      var b := FindBlock(items, blocks, i, 0);
      LabelStarts(items, blocks, l, i, b);
      if b < c { BlocksOrdered(items, blocks, b, c); } else if c < b { BlocksOrdered(items, blocks, c, b); }
    } else {
      NoBlockOfLabel(items, blocks, l);
    }
  }

  lemma LabelStarts(items: seq<Item>, blocks: seq<Block>, l: Label, i: nat, b: nat)
    requires IsCfg(items, blocks) && i == FindLabel(items, l) < |items| && InBlock(blocks, b, i)
    ensures BlockOfLabel(items, blocks, l) == b && blocks[b].start == i
  {
    hide BlockOfLabel, Edges;
    forall c, d | 0 <= c < d < |blocks| ensures blocks[c].end <= blocks[d].start { BlocksOrdered(items, blocks, c, d); }
    assert Leader(items, i);
    BlockOfLabelIs(items, blocks, l, i, b);
  }

  lemma {:induction false} NoBlockOfLabel(items: seq<Item>, blocks: seq<Block>, l: Label)
    requires forall c | 0 <= c < |blocks| :: blocks[c].start < blocks[c].end <= |items|
    requires FindLabel(items, l) == |items|
    ensures BlockOfLabel(items, blocks, l) == -1
  {
    if blocks != [] { NoBlockOfLabel(items, blocks[1..], l); }
  }

  // A step stays in its block or follows one of the block's edges to a block's start.
  lemma StepFollowsEdges(items: seq<Item>, blocks: seq<Block>, c: Conf, env: Env, b: nat) returns (b2: nat)
    requires IsCfg(items, blocks) && c.AtItem? && InBlock(blocks, b, c.pc)
    requires ItemStep(c, items, env).AtItem? && ItemStep(c, items, env).pc < |items|
    ensures InBlock(blocks, b2, ItemStep(c, items, env).pc)
    ensures b2 == b || b2 in blocks[b].succ
  {
    hide ItemStep, Leader;
    var it := items[c.pc];
    var next := StepIsNext(items, c, env);
    if next {
      if c.pc + 1 < blocks[b].end {
        b2 := b;
      } else {
        assert b + 1 < |blocks|;
        b2 := b + 1;
        assert b2 in Edges(items, blocks, b);
      }
    } else {
      b2 := JumpFollowsEdge(items, blocks, b, c.pc, it.l);
    }
  }

  // A step goes to the next item, or to the label of a jump or branch.
  lemma StepIsNext(items: seq<Item>, c: Conf, env: Env) returns (next: bool)
    requires c.AtItem? && c.pc < |items| && ItemStep(c, items, env).AtItem?
    ensures var it := items[c.pc]; var d := ItemStep(c, items, env);
      if next then d.pc == c.pc + 1 && !it.IJmp? && !it.IRet?
      else (it.IJmp? || it.ICbr?) && d.pc == FindLabel(items, it.l) < |items|
  {
    hide Eval;
    var it := items[c.pc];
    next := !it.IJmp? && !(it.ICbr? && (Eval(it.e, c.st, env).v.w != 0) == it.when);
  }

  lemma JumpFollowsEdge(items: seq<Item>, blocks: seq<Block>, b: nat, pc: nat, l: Label) returns (b2: nat)
    requires IsCfg(items, blocks) && InBlock(blocks, b, pc) && FindLabel(items, l) < |items|
    requires items[pc] == IJmp(l) || (items[pc].ICbr? && items[pc].l == l)
    ensures InBlock(blocks, b2, FindLabel(items, l)) && b2 in blocks[b].succ
  {
    hide Leader;
    b2 := FindBlock(items, blocks, FindLabel(items, l), 0);
    TransferEndsBlock(items, blocks, b, pc);
    forall x, y | 0 <= x < y < |blocks| ensures blocks[x].end <= blocks[y].start { BlocksOrdered(items, blocks, x, y); }
    BlockOfLabelIs(items, blocks, l, FindLabel(items, l), b2);
    assert LabelEdge(items, blocks, l) == [b2];
    assert b2 in Edges(items, blocks, b);
  }

  lemma TransferEndsBlock(items: seq<Item>, blocks: seq<Block>, b: nat, pc: nat)
    requires Partition(items, blocks, |items|) && InBlock(blocks, b, pc) && IsTransfer(items[pc])
    ensures pc == blocks[b].end - 1
  {
    if pc + 1 < blocks[b].end { assert Leader(items, pc + 1); }
  }

  // ---- reachability ---------------------------------------------------------------------

  ghost predicate Path(blocks: seq<Block>, path: seq<nat>) {
    && |path| > 0 && path[0] == 0
    && (forall i | 0 <= i < |path| :: path[i] < |blocks|)
    && (forall i | 0 <= i < |path| - 1 :: path[i + 1] in blocks[path[i]].succ)
  }

  ghost predicate Reachable(blocks: seq<Block>, b: nat) {
    exists path :: Path(blocks, path) && path[|path| - 1] == b
  }

  lemma ReachableStep(blocks: seq<Block>, b: nat, b2: nat)
    requires Reachable(blocks, b) && b < |blocks| && b2 < |blocks| && b2 in blocks[b].succ
    ensures Reachable(blocks, b2)
  {
    var path :| Path(blocks, path) && path[|path| - 1] == b;
    assert Path(blocks, path + [b2]) && (path + [b2])[|path|] == b2;
  }

  lemma EntryReachable(blocks: seq<Block>)
    requires |blocks| > 0
    ensures Reachable(blocks, 0)
  {
    assert Path(blocks, [0]) && [0][0] == 0;
  }

  // A set that holds the entry and is closed under edges holds every reachable block.
  lemma {:induction false} ClosedHoldsPath(blocks: seq<Block>, seen: set<nat>, path: seq<nat>)
    requires 0 in seen && (forall b, s | b in seen && b < |blocks| && s in blocks[b].succ :: s in seen)
    requires Path(blocks, path)
    ensures path[|path| - 1] in seen
    decreases |path|
  {
    if |path| > 1 {
      var front := path[..|path| - 1];
      assert Path(blocks, front);
      ClosedHoldsPath(blocks, seen, front);
      assert path[|path| - 2 + 1] in blocks[path[|path| - 2]].succ;
    }
  }
}
