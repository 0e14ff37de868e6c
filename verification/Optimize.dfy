// The global optimizations over items and CFG: folding, constant branches,
// unreachable blocks and dead evaluations.
module Optimize {
  import opened Words
  import opened Ir
  import opened M68k
  import opened Items
  import opened Fold
  import opened Sets
  import opened FoldProof

  // ---- what each pass does to one item -----------------------------------------------

  function FoldItem(i: Item): Item {
    match i
    case ICbr(e, l, when) => ICbr(IeFold(e), l, when)
    case IEval(e) => IEval(IeFold(e))
    case IRet(Some(e)) => IRet(Some(IeFold(e)))
    case ILabel(_) | IJmp(_) | IRet(None) | INop => i
  }

  // A branch on a constant is always or never taken.
  function FoldBranch(i: Item): Item {
    if i.ICbr? && IeNum(i.e).Some? then
      if (IeNum(i.e).value != 0) == i.when then IJmp(i.l) else INop
    else i
  }

  function DropDeadEval(i: Item): Item {
    if i.IEval? && IeTrivial(i.e) then INop else i
  }

  ghost predicate Mapped(before: seq<Item>, after: seq<Item>, f: Item -> Item) {
    |after| == |before| && forall i | 0 <= i < |before| :: after[i] == f(before[i])
  }

  // Items of blocks that no path from the entry reaches became no-ops.
  ghost predicate UnreachableRemoved(before: seq<Item>, after: seq<Item>, blocks: seq<Block>) {
    && |after| == |before|
    && forall b, i | 0 <= b < |blocks| && blocks[b].start <= i < blocks[b].end && i < |before| ::
         after[i] == if Reachable(blocks, b) then before[i] else INop
  }

  // The relation between the items before and after ir_optimize.
  ghost predicate Optimized(before: seq<Item>, after: seq<Item>, folded: seq<Item>, cut: seq<Item>, live: seq<Item>,
                            blocks: seq<Block>) {
    && Mapped(before, folded, FoldItem)
    && Mapped(folded, cut, FoldBranch)
    && IsCfg(cut, blocks)
    && UnreachableRemoved(cut, live, blocks)
    && Mapped(live, after, DropDeadEval)
  }

  // What is left for emission: the optimizer's items at -O3, the lowered ones below it.
  ghost predicate Built(before: seq<Item>, after: seq<Item>, blocks: seq<Block>) {
    (after == before && IsCfg(before, blocks))
    || exists folded, cut, live :: Optimized(before, after, folded, cut, live, blocks)
  }

  // ---- the function under compilation -----------------------------------------------------

  class IrFunction {
    var items: seq<Item>
    var blocks: seq<Block>

    constructor ()
      ensures items == [] && blocks == []
    {
      items, blocks := [], [];
    }

    method AddItem(i: Item)
      modifies this`items
      ensures items == old(items) + [i]
    {
      items := items + [i];
    }

    method FindBlockOfLabel(l: Label) returns (b: int)
      requires forall c | 0 <= c < |blocks| :: blocks[c].start <= blocks[c].end <= |items|
      ensures b == BlockOfLabel(items, blocks, l)
    {
      b := 0;
      while b < |blocks|
        invariant 0 <= b <= |blocks|
        invariant BlockOfLabel(items, blocks, l)
               == var r := BlockOfLabel(items, blocks[b..], l); if r < 0 then -1 else b + r
      {
        var i := blocks[b].start;
        while i < blocks[b].end
          invariant blocks[b].start <= i <= blocks[b].end
          invariant forall k | blocks[b].start <= k < i :: items[k] != ILabel(l)
        {
          if items[i] == ILabel(l) {
            assert blocks[b..][0] == blocks[b];
            return;
          }
          i := i + 1;
        }
        assert blocks[b..][0] == blocks[b] && blocks[b..][1..] == blocks[b + 1..];
        b := b + 1;
      }
      b := -1;
    }

    // ir_build_cfg.
    method BuildCfg()
      modifies this`blocks
      ensures IsCfg(items, blocks)
    {
      blocks := [];
      if |items| == 0 { return; }
      var lead := MarkLeaders();
      PartitionItems(lead);
      AddSuccessors();
      AddPredecessors();
    }

    method MarkLeaders() returns (lead: array<bool>)
      requires |items| > 0
      ensures fresh(lead) && lead.Length == |items|
      ensures forall i | 0 <= i < |items| :: lead[i] == Leader(items, i)
    {
      lead := new bool[|items|](_ => false);
      lead[0] := true;
      var i := 0;
      while i < |items|
        invariant i <= |items|
        invariant forall k | 0 <= k < |items| :: lead[k] == LeaderSoFar(items, i, k)
      {
        if items[i].ILabel? {
          lead[i] := true;
        }
        if IsTransfer(items[i]) && i + 1 < |items| {
          lead[i + 1] := true;
        }
        i := i + 1;
      }
    }

    method PartitionItems(lead: array<bool>)
      requires |items| > 0 && lead.Length == |items|
      requires forall i | 0 <= i < |items| :: lead[i] == Leader(items, i)
      modifies this`blocks
      ensures Partition(items, blocks, |items|)
      ensures forall b | 0 <= b < |blocks| :: blocks[b].succ == [] && blocks[b].pred == []
    {
      blocks := [];
      var i := 0;
      while i < |items|
        invariant i <= |items| && (i < |items| ==> Leader(items, i))
        invariant Partition(items, blocks, i)
        invariant forall b | 0 <= b < |blocks| :: blocks[b].succ == [] && blocks[b].pred == []
      {
        var j := i + 1;
        while j < |items| && !lead[j]
          invariant i < j <= |items| && forall k | i < k < j :: !Leader(items, k)
        {
          j := j + 1;
        }
        ExtendPartition(items, blocks, Block(i, j, [], []));
        blocks := blocks + [Block(i, j, [], [])];
        i := j;
      }
    }

    // The edges of one block, from its last item.
    method Successors(b: nat) returns (out: seq<nat>)
      requires b < |blocks| && forall c | 0 <= c < |blocks| :: blocks[c].start < blocks[c].end <= |items|
      ensures out == Edges(items, blocks, b)
    {
      out := [];
      var last := items[blocks[b].end - 1];
      if last.IJmp? || last.ICbr? {
        var t := FindBlockOfLabel(last.l);
        if t >= 0 { out := out + [t]; }
      }
      if !last.IJmp? && !last.IRet? && b + 1 < |blocks| {
        out := out + [b + 1];
      }
    }

    method AddSuccessors()
      requires Partition(items, blocks, |items|)
      modifies this`blocks
      ensures Partition(items, blocks, |items|) && |blocks| == |old(blocks)|
      ensures forall b | 0 <= b < |blocks| ::
        blocks[b].succ == Edges(items, blocks, b) && blocks[b].pred == old(blocks)[b].pred
    {
      hide Edges, Leader, Partition;
      ghost var was := blocks;
      PartitionRanges(items, was);
      var b := 0;
      while b < |blocks|
        invariant b <= |blocks| && SameRanges(was, blocks)
        invariant forall c | 0 <= c < |blocks| :: blocks[c].pred == was[c].pred
        invariant forall c | 0 <= c < b :: blocks[c].succ == Edges(items, was, c)
      {
        var out := Successors(b);
        SameEdges(items, was, blocks, b);
        blocks := blocks[b := blocks[b].(succ := out)];
        b := b + 1;
      }
      SamePartition(items, was, blocks);
      forall c | 0 <= c < |blocks| ensures Edges(items, was, c) == Edges(items, blocks, c) {
        SameEdges(items, was, blocks, c);
      }
    }

    // Record block p as a predecessor of each of its successors.
    method AddPredecessor(p: nat)
      requires p < |blocks| && forall s | s in blocks[p].succ :: s < |blocks|
      modifies this`blocks
      ensures SameRanges(old(blocks), blocks)
      ensures forall c | 0 <= c < |blocks| :: blocks[c].succ == old(blocks)[c].succ
      ensures forall c | 0 <= c < |blocks| ::
        PredSet(blocks[c]) == PredSet(old(blocks)[c]) + if c in blocks[p].succ then {p} else {}
    {
      ghost var was := blocks;
      var out := blocks[p].succ;
      var k := 0;
      while k < |out|
        invariant k <= |out| && SameRanges(was, blocks)
        invariant forall c | 0 <= c < |blocks| :: blocks[c].succ == was[c].succ
        invariant forall c | 0 <= c < |blocks| ::
          PredSet(blocks[c]) == PredSet(was[c]) + if c in out[..k] then {p} else {}
      {
        var s := out[k];
        assert s in out && out[..k + 1] == out[..k] + [s];
        PredSetAppend(blocks[s], p);
        blocks := blocks[s := blocks[s].(pred := blocks[s].pred + [p])];
        k := k + 1;
      }
      assert out[..k] == out;
    }

    method AddPredecessors()
      requires Partition(items, blocks, |items|)
      requires forall b | 0 <= b < |blocks| :: blocks[b].succ == Edges(items, blocks, b) && blocks[b].pred == []
      modifies this`blocks
      ensures IsCfg(items, blocks)
    {
      hide Edges, Leader, PredSet;
      ghost var was := blocks;
      EdgesInRange(items, was);
      forall c | 0 <= c < |blocks| ensures PredSet(blocks[c]) == {} { NoPred(blocks[c]); }
      var p := 0;
      while p < |blocks|
        invariant p <= |blocks| && SameRanges(was, blocks)
        invariant forall c | 0 <= c < |blocks| :: blocks[c].succ == was[c].succ
        invariant forall c | 0 <= c < |blocks| :: PredSet(blocks[c]) == Into(was, p, c)
      {
        assert blocks[p].succ == was[p].succ;
        AddPredecessor(p);
        p := p + 1;
      }
      SamePartition(items, was, blocks);
      CfgFromParts(items, was, blocks);
    }

    // op6_fold_exprs.
    method FoldExprs()
      modifies this`items
      ensures Mapped(old(items), items, FoldItem)
    {
      ghost var was := items;
      var i := 0;
      while i < |items|
        invariant i <= |items| == |was|
        invariant forall k | 0 <= k < |was| :: items[k] == if k < i then FoldItem(was[k]) else was[k]
      {
        items := items[i := FoldItem(items[i])];
        i := i + 1;
      }
    }

    // op6_fold_branches.
    method FoldBranches()
      modifies this`items
      ensures Mapped(old(items), items, FoldBranch)
      ensures forall i | 0 <= i < |items| :: items[i].ICbr? ==> !items[i].e.Num?
    {
      ghost var was := items;
      var i := 0;
      while i < |items|
        invariant i <= |items| == |was|
        invariant forall k | 0 <= k < |was| :: items[k] == if k < i then FoldBranch(was[k]) else was[k]
      {
        if items[i].ICbr? {
          var c := IeNum(items[i].e);
          if c.Some? {
            var taken := (c.value != 0) == items[i].when;
            items := items[i := if taken then IJmp(items[i].l) else INop];
          }
        }
        i := i + 1;
      }
    }

    method ClearBlock(b: nat)
      requires b < |blocks| && blocks[b].start <= blocks[b].end <= |items|
      modifies this`items
      ensures |items| == |old(items)|
      ensures forall k | 0 <= k < |items| ::
        items[k] == if blocks[b].start <= k < blocks[b].end then INop else old(items)[k]
    {
      ghost var was := items;
      var i := blocks[b].start;
      while i < blocks[b].end
        invariant blocks[b].start <= i <= blocks[b].end && |items| == |was|
        invariant forall k | 0 <= k < |items| :: items[k] == if blocks[b].start <= k < i then INop else was[k]
      {
        items := items[i := INop];
        i := i + 1;
      }
    }

    // op6_dce_unreachable: mark blocks with a work stack, then clear the unmarked ones.
    method DceUnreachable()
      requires IsCfg(items, blocks)
      modifies this`items
      ensures UnreachableRemoved(old(items), items, blocks)
    {
      hide Edges, Leader, Reachable, IsCfg;
      if |blocks| == 0 { return; }
      var seen := MarkReachable();
      ghost var was := items;
      BlocksInOrder(was, blocks);
      var b := 0;
      while b < |blocks|
        invariant b <= |blocks| && |items| == |was|
        invariant forall c, k | 0 <= c < b && blocks[c].start <= k < blocks[c].end ::
          items[k] == if c in seen then was[k] else INop
        invariant forall k | 0 <= k < |items| && b < |blocks| && blocks[b].start <= k :: items[k] == was[k]
      {
        if b !in seen {
          ClearBlock(b);
        }
        b := b + 1;
      }
    }

    // Push the unseen successors of block b.
    method Visit(b: nat, seen: set<nat>, stack: seq<nat>) returns (seen2: set<nat>, stack2: seq<nat>)
      requires b < |blocks| && forall s | s in blocks[b].succ :: s < |blocks|
      ensures seen2 == seen + set s | s in blocks[b].succ
      ensures forall x | x in stack :: x in stack2
      ensures forall x | x in stack2 :: x in stack || x in seen2
      ensures forall x | x in seen2 && x !in seen :: x in stack2
      ensures seen2 == seen ==> stack2 == stack
    {
      seen2, stack2 := seen, stack;
      var out := blocks[b].succ;
      var k := 0;
      while k < |out|
        invariant k <= |out| && seen2 == seen + set s | s in out[..k]
        invariant forall x | x in stack :: x in stack2
        invariant forall x | x in stack2 :: x in stack || x in seen2
        invariant forall x | x in seen2 && x !in seen :: x in stack2
        invariant seen2 == seen ==> stack2 == stack
      {
        assert out[..k + 1] == out[..k] + [out[k]];
        if out[k] !in seen2 {
          seen2 := seen2 + {out[k]};
          stack2 := stack2 + [out[k]];
        }
        k := k + 1;
      }
      assert out[..k] == out;
    }

    method MarkReachable() returns (seen: set<nat>)
      requires IsCfg(items, blocks) && |blocks| > 0
      ensures forall b | 0 <= b < |blocks| :: b in seen <==> Reachable(blocks, b)
    {
      hide Edges, Leader, Reachable;
      EdgesInRange(items, blocks);
      EntryReachable(blocks);
      ghost var all := UpTo(|blocks|);
      seen := {0};
      var stack := [0];
      while |stack| > 0
        invariant seen <= all && 0 in seen
        invariant forall b | b in seen :: Reachable(blocks, b)
        invariant forall x | x in stack :: x in seen
        invariant forall b, s | b in seen && b !in stack && s in blocks[b].succ :: s in seen
        decreases |all - seen|, |stack|
      {
        var b := stack[|stack| - 1];
        assert b in stack;
        assert stack == stack[..|stack| - 1] + [b];
        var seen2, stack2 := Visit(b, seen, stack[..|stack| - 1]);
        forall s | s in blocks[b].succ ensures Reachable(blocks, s) { ReachableStep(blocks, b, s); }
        if seen2 != seen { SmallerRest(all, seen, seen2); }
        seen, stack := seen2, stack2;
      }
      forall b | 0 <= b < |blocks| && Reachable(blocks, b) ensures b in seen {
        SeenIfClosed(blocks, seen, b);
      }
    }

    // op6_dce_dead_eval.
    method DceDeadEval()
      modifies this`items
      ensures Mapped(old(items), items, DropDeadEval)
    {
      ghost var was := items;
      var i := 0;
      while i < |items|
        invariant i <= |items| == |was|
        invariant forall k | 0 <= k < |was| :: items[k] == if k < i then DropDeadEval(was[k]) else was[k]
      {
        if items[i].IEval? && IeTrivial(items[i].e) {
          items := items[i := INop];
        }
        i := i + 1;
      }
    }

    // ir_optimize.
    method IrOptimize() returns (ghost folded: seq<Item>, ghost cut: seq<Item>, ghost live: seq<Item>)
      modifies this
      ensures Optimized(old(items), items, folded, cut, live, blocks)
    {
      FoldExprs();
      folded := items;
      FoldBranches();
      cut := items;
      BuildCfg();
      DceUnreachable();
      live := items;
      DceDeadEval();
    }
  }

  // ---- facts the CFG methods use --------------------------------------------------------------

  ghost predicate SameRanges(x: seq<Block>, y: seq<Block>) {
    |x| == |y| && forall b | 0 <= b < |x| :: x[b].start == y[b].start && x[b].end == y[b].end
  }

  lemma {:induction false} SameBlockOfLabel(items: seq<Item>, x: seq<Block>, y: seq<Block>, l: Label)
    requires SameRanges(x, y) && forall b | 0 <= b < |x| :: x[b].start <= x[b].end <= |items|
    ensures forall b | 0 <= b < |y| :: y[b].start <= y[b].end <= |items|
    ensures BlockOfLabel(items, x, l) == BlockOfLabel(items, y, l)
  {
    if x != [] { SameBlockOfLabel(items, x[1..], y[1..], l); }
  }

  lemma SameEdges(items: seq<Item>, x: seq<Block>, y: seq<Block>, b: nat)
    requires SameRanges(x, y) && b < |x| && forall c | 0 <= c < |x| :: x[c].start < x[c].end <= |items|
    ensures forall c | 0 <= c < |y| :: y[c].start < y[c].end <= |items|
    ensures Edges(items, x, b) == Edges(items, y, b)
  {
    var last := items[x[b].end - 1];
    if last.IJmp? || last.ICbr? { SameBlockOfLabel(items, x, y, last.l); }
  }

  lemma {:induction false} BlockOfLabelRange(items: seq<Item>, blocks: seq<Block>, l: Label)
    requires forall b | 0 <= b < |blocks| :: blocks[b].start <= blocks[b].end <= |items|
    ensures -1 <= BlockOfLabel(items, blocks, l) < |blocks|
  {
    if blocks != [] { BlockOfLabelRange(items, blocks[1..], l); }
  }

  lemma EdgesInRange(items: seq<Item>, blocks: seq<Block>)
    requires Partition(items, blocks, |items|)
    requires forall b | 0 <= b < |blocks| :: blocks[b].succ == Edges(items, blocks, b)
    ensures forall b, s | 0 <= b < |blocks| && s in blocks[b].succ :: s < |blocks|
  {
    forall b, s | 0 <= b < |blocks| && s in blocks[b].succ ensures s < |blocks| {
      var last := items[blocks[b].end - 1];
      if last.IJmp? || last.ICbr? { BlockOfLabelRange(items, blocks, last.l); }
    }
  }

  function PredSet(b: Block): set<nat> { set q | q in b.pred }

  lemma PredSetAppend(b: Block, p: nat)
    ensures PredSet(b.(pred := b.pred + [p])) == PredSet(b) + {p}
  {}

  lemma NoPred(b: Block)
    requires b.pred == []
    ensures PredSet(b) == {}
  {}

  // The blocks below p that have an edge to c.
  function Into(blocks: seq<Block>, p: nat, c: nat): (r: set<nat>)
    requires p <= |blocks|
    ensures forall q: nat :: q in r <==> q < p && c in blocks[q].succ
  {
    if p == 0 then {} else Into(blocks, p - 1, c) + if c in blocks[p - 1].succ then {p - 1} else {}
  }

  lemma CfgFromParts(items: seq<Item>, was: seq<Block>, blocks: seq<Block>)
    requires SameRanges(was, blocks) && Partition(items, was, |items|) && Partition(items, blocks, |items|)
    requires forall c | 0 <= c < |blocks| :: blocks[c].succ == was[c].succ == Edges(items, was, c)
    requires forall c | 0 <= c < |blocks| :: PredSet(blocks[c]) == Into(was, |was|, c)
    ensures IsCfg(items, blocks)
  {
    hide Edges, Leader;
    forall c | 0 <= c < |blocks| ensures Edges(items, was, c) == Edges(items, blocks, c) {
      SameEdges(items, was, blocks, c);
    }
    forall c: nat, q: nat | c < |blocks|
      ensures q in blocks[c].pred <==> q in Into(was, |was|, c)
    {
      assert q in blocks[c].pred <==> q in PredSet(blocks[c]);
    }
  }

  lemma ExtendPartition(items: seq<Item>, blocks: seq<Block>, x: Block)
    requires x.start < x.end <= |items| && Partition(items, blocks, x.start) && Leader(items, x.start)
    requires forall k | x.start < k < x.end :: !Leader(items, k)
    ensures Partition(items, blocks + [x], x.end)
  {
    hide Leader;
  }

  lemma BlocksInOrder(items: seq<Item>, blocks: seq<Block>)
    requires IsCfg(items, blocks)
    ensures forall b | 0 <= b < |blocks| :: blocks[b].start < blocks[b].end <= |items|
    ensures forall c, b | 0 <= c < b < |blocks| :: blocks[c].end <= blocks[b].start
  {
    hide Edges, Leader;
    forall c, b | 0 <= c < b < |blocks| ensures blocks[c].end <= blocks[b].start { BlocksOrdered(items, blocks, c, b); }
  }

  lemma PartitionRanges(items: seq<Item>, blocks: seq<Block>)
    requires Partition(items, blocks, |items|)
    ensures forall b | 0 <= b < |blocks| :: blocks[b].start < blocks[b].end <= |items|
  {
    hide Leader;
  }

  lemma SamePartition(items: seq<Item>, x: seq<Block>, y: seq<Block>)
    requires SameRanges(x, y) && Partition(items, x, |items|)
    ensures Partition(items, y, |items|)
  {
    hide Leader;
  }

  predicate LeaderSoFar(items: seq<Item>, i: nat, k: nat)
    requires k < |items|
  {
    k == 0 || (k < i && items[k].ILabel?) || (k <= i && IsTransfer(items[k - 1]))
  }

  function UpTo(n: nat): (r: set<nat>)
    ensures forall x: nat :: x in r <==> x < n
  {
    if n == 0 then {} else UpTo(n - 1) + {n - 1}
  }

  lemma SeenIfClosed(blocks: seq<Block>, seen: set<nat>, b: nat)
    requires 0 in seen && (forall c, s | c in seen && c < |blocks| && s in blocks[c].succ :: s in seen)
    requires Reachable(blocks, b)
    ensures b in seen
  {
    var path :| Path(blocks, path) && path[|path| - 1] == b;
    ClosedHoldsPath(blocks, seen, path);
  }

  lemma SmallerRest(all: set<nat>, before: set<nat>, after: set<nat>)
    requires before < after <= all
    ensures |all - after| < |all - before|
  {
    var x :| x in after && x !in before;
    assert all - after <= (all - before) - {x};
    SubsetSize(all - after, (all - before) - {x});
  }

}
