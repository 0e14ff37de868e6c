// The peephole pass over emitted lines, rewritten in place to a fixpoint.
module Peephole {
  import opened Words
  import opened Ir
  import opened M68k

  const A0_TO_D0: Instr := Move(L, An(0), Dn(0))
  const D0_TO_A0: Instr := Move(L, Dn(0), An(0))
  const LOAD_A0: Instr := Move(L, Ind(0), Dn(0))

  // ---- what the rules look at ------------------------------------------------------------

  // Overwrites all of D0 without reading it.
  predicate KillsD0(i: Instr) {
    i == LOAD_A0 || i == Move(L, Imm(0), Dn(0)) || i == Move(L, Indexed, Dn(0))
  }

  // The operand's text contains "(a0)"; the indexed form "(a0,d1.l)" does not.
  predicate EaMentions(ea: Ea) { ea == Ind(0) || (ea.Disp? && ea.n == 0) }

  predicate Mentions(i: Instr) {
    match i
    case Move(_, src, dst) => EaMentions(src) || EaMentions(dst)
    case LeaTo(src, _) => EaMentions(src)
    case Alu(_, src, _) => EaMentions(src)
    case Cmp(src, _) => EaMentions(src)
    case Shift(_, count, _) => EaMentions(count)
    case Clr(_, dst) => EaMentions(dst)
    case ClrInc(n) => n == 0
    case Jsr(target, _) => EaMentions(target)
    case Lab(_) | Bra(_) | Bcc(_, _) | Tst(_) | Neg(_) | NotL(_) | ExtW(_) | ExtL(_) | Scc(_, _) | Dbra(_, _)
       | JsrHelper(_, _) | AddSp(_) | Exit | Directive => false
  }

  // Nothing falls through these.
  predicate IsTransfer(i: Instr) { i.Bra? || i.Exit? }

  predicate IsInstruction(i: Instr) { !i.Lab? && !i.Directive? }

  datatype Rule = R1 | R2 | R3 | R4 | R5

  // The rule that applies to adjacent lines a, b; `after` is the line after them.
  function RuleFor(a: Instr, b: Instr, after: Option<Instr>): Option<Rule> {
    if a == A0_TO_D0 && b == D0_TO_A0 then Some(R1)
    else if a == A0_TO_D0 && KillsD0(b) then Some(R2)
    else if a.LeaTo? && b == LOAD_A0 && a.n == 0 && !(after.Some? && Mentions(after.value)) then Some(R3)
    else if a.Bra? && b == Lab(a.l) then Some(R4)
    else if IsTransfer(a) && IsInstruction(b) then Some(R5)
    else None
  }

  // What replaces the two lines.
  function Replacement(r: Rule, a: Instr, b: Instr): Instr {
    match r
    case R1 => a
    case R2 => b
    case R3 => if a.LeaTo? then Move(L, a.src, Dn(0)) else a
    case R4 => b
    case R5 => a
  }

  function LineAt(p: seq<Instr>, k: nat): Option<Instr> { if k < |p| then Some(p[k]) else None }

  function RuleAt(p: seq<Instr>, k: nat): Option<Rule> {
    if k + 1 < |p| then RuleFor(p[k], p[k + 1], LineAt(p, k + 2)) else None
  }

  // One rewrite, at line k.
  function Rewritten(p: seq<Instr>, k: nat): seq<Instr>
    requires RuleAt(p, k).Some?
  {
    p[..k] + [Replacement(RuleAt(p, k).value, p[k], p[k + 1])] + p[k + 2..]
  }

  // No rule applies anywhere.
  ghost predicate Settled(p: seq<Instr>) { forall k: nat :: RuleAt(p, k).None? }

  // p turns into q by n rewrites.
  ghost predicate Rewrites(p: seq<Instr>, q: seq<Instr>, n: nat)
    decreases n
  {
    if n == 0 then p == q else exists k: nat :: RuleAt(p, k).Some? && Rewrites(Rewritten(p, k), q, n - 1)
  }

  lemma {:induction false} RewriteMore(p: seq<Instr>, q: seq<Instr>, n: nat, k: nat)
    requires Rewrites(p, q, n) && RuleAt(q, k).Some?
    ensures Rewrites(p, Rewritten(q, k), n + 1)
    decreases n
  {
    hide RuleFor, Rewritten;
    if n == 0 {
      assert Rewrites(Rewritten(p, k), Rewritten(q, k), 0);
    } else {
      var j: nat :| RuleAt(p, j).Some? && Rewrites(Rewritten(p, j), q, n - 1);
      RewriteMore(Rewritten(p, j), q, n - 1, k);
    }
  }

  // ---- the buffer: deleted lines are None -----------------------------------------------------

  type Line = Option<Instr>

  // The lines that are left, in order.
  function Lines(s: seq<Line>): seq<Instr> {
    if s == [] then [] else (if s[0].Some? then [s[0].value] else []) + Lines(s[1..])
  }

  lemma {:induction false} LinesJoin(x: seq<Line>, y: seq<Line>)
    ensures Lines(x + y) == Lines(x) + Lines(y)
  {
    if x == [] { assert x + y == y; } else {
      assert (x + y)[1..] == x[1..] + y;
      LinesJoin(x[1..], y);
    }
  }

  lemma {:induction false} NoLines(x: seq<Line>)
    requires forall i | 0 <= i < |x| :: x[i].None?
    ensures Lines(x) == []
  {
    if x != [] { NoLines(x[1..]); }
  }

  // The buffer around a live line i and the next live line j.
  lemma SplitAt(s: seq<Line>, i: nat, j: nat)
    requires i < j < |s| && s[i].Some? && s[j].Some? && forall k | i < k < j :: s[k].None?
    ensures Lines(s) == Lines(s[..i]) + [s[i].value, s[j].value] + Lines(s[j + 1..])
    ensures var k := |Lines(s[..i])|; var p := Lines(s);
      k + 1 < |p| && p[..k] == Lines(s[..i]) && p[k] == s[i].value && p[k + 1] == s[j].value && p[k + 2..] == Lines(s[j + 1..])
  {
    assert s == s[..i] + ([s[i]] + (s[i + 1..j] + ([s[j]] + s[j + 1..])));
    LinesJoin(s[..i], [s[i]] + (s[i + 1..j] + ([s[j]] + s[j + 1..])));
    LinesJoin([s[i]], s[i + 1..j] + ([s[j]] + s[j + 1..]));
    LinesJoin(s[i + 1..j], [s[j]] + s[j + 1..]);
    LinesJoin([s[j]], s[j + 1..]);
    NoLines(s[i + 1..j]);
  }

  // A live line i with nothing live behind it.
  lemma LastAt(s: seq<Line>, i: nat)
    requires i < |s| && s[i].Some? && forall k | i < k < |s| :: s[k].None?
    ensures Lines(s) == Lines(s[..i]) + [s[i].value]
  {
    assert s == s[..i] + ([s[i]] + s[i + 1..]);
    LinesJoin(s[..i], [s[i]] + s[i + 1..]);
    LinesJoin([s[i]], s[i + 1..]);
    NoLines(s[i + 1..]);
  }

  // Deleting line i or j and leaving the single line `c` in the other's place.
  lemma ReplaceBoth(s: seq<Line>, i: nat, j: nat, t: seq<Line>, c: Instr)
    requires i < j < |s| && (forall k | i < k < j :: s[k].None?)
    requires t == s[i := Some(c)][j := None] || t == s[i := None][j := Some(c)]
    ensures Lines(t) == Lines(s[..i]) + [c] + Lines(s[j + 1..])
  {
    hide Lines;
    var mid := t[i + 1..j];
    assert t == s[..i] + ([t[i]] + (mid + ([t[j]] + s[j + 1..])));
    LinesJoin(s[..i], [t[i]] + (mid + ([t[j]] + s[j + 1..])));
    LinesJoin([t[i]], mid + ([t[j]] + s[j + 1..]));
    LinesJoin(mid, [t[j]] + s[j + 1..]);
    LinesJoin([t[j]], s[j + 1..]);
    NoLines(mid);
    OneLine(t[i]);
    OneLine(t[j]);
  }

  lemma OneLine(l: Line)
    ensures Lines([l]) == if l.Some? then [l.value] else []
  {}

  lemma NoRewrite(p: seq<Instr>)
    ensures Rewrites(p, p, 0)
  {}

  lemma {:induction false} Chained(p: seq<Instr>, q: seq<Instr>, r: seq<Instr>, n: nat, m: nat) returns (sum: nat)
    requires Rewrites(p, q, n) && Rewrites(q, r, m)
    ensures sum == n + m && Rewrites(p, r, sum)
    decreases n
  {
    hide RuleFor, Rewritten;
    sum := n + m;
    if n > 0 {
      var k: nat :| RuleAt(p, k).Some? && Rewrites(Rewritten(p, k), q, n - 1);
      var _ := Chained(Rewritten(p, k), q, r, n - 1, m);
    }
  }

  // The buffer changed by the rule for its lines i and j.
  lemma RewrittenTo(s: seq<Line>, i: nat, j: nat, t: seq<Line>, c: Instr, from: seq<Instr>, steps: nat) returns (n: nat)
    requires i < j < |s| && s[i].Some? && s[j].Some? && (forall k | i < k < j :: s[k].None?)
    requires t == s[i := Some(c)][j := None] || t == s[i := None][j := Some(c)]
    requires Rewrites(from, Lines(s), steps) && RuleAt(Lines(s), |Lines(s[..i])|).Some?
    requires Replacement(RuleAt(Lines(s), |Lines(s[..i])|).value, s[i].value, s[j].value) == c
    ensures n == steps + 1 && Rewrites(from, Lines(t), n) && |Lines(t)| + 1 == |Lines(s)|
  {
    hide Rewrites, Lines, RuleFor, Replacement;
    SplitAt(s, i, j);
    ReplaceBoth(s, i, j, t, c);
    RewriteMore(from, Lines(s), steps, |Lines(s[..i])|);
    n := steps + 1;
  }

  // The line after lines i and j of the buffer is its next live line.
  lemma NextLine(s: seq<Line>, i: nat, j: nat, k: int)
    requires i < j < |s| && s[i].Some? && s[j].Some? && (forall l | i < l < j :: s[l].None?)
    requires k == -1 || (j < k < |s| && s[k].Some?)
    requires forall l | j < l < (if k < 0 then |s| else k) :: s[l].None?
    ensures LineAt(Lines(s), |Lines(s[..i])| + 2) == if k < 0 then None else s[k]
  {
    hide Lines;
    SplitAt(s, i, j);
    if k < 0 {
      NoLines(s[j + 1..]);
    } else {
      SplitAt(s, j, k);
      LastAt(s[..j], i);
      assert s[..j][..i] == s[..i];
    }
  }

  // No rule applies at the live lines before i.
  ghost predicate SettledTo(s: seq<Line>, i: nat)
    requires i <= |s|
  {
    forall a | 0 <= a < i && s[a].Some? :: RuleAt(Lines(s), |Lines(s[..a])|).None?
  }

  lemma LastSettled(s: seq<Line>, i: nat)
    requires i < |s| && s[i].Some? && (forall k | i < k < |s| :: s[k].None?) && SettledTo(s, i)
    ensures Settled(Lines(s))
  {
    LastAt(s, i);
    AllSettled(s);
  }

  lemma AllSettled(s: seq<Line>)
    requires SettledTo(s, |s|)
    ensures Settled(Lines(s))
  {
    hide RuleFor;
    forall k: nat ensures RuleAt(Lines(s), k).None? {
      if k < |Lines(s)| { var a := FindLine(s, k); }
    }
  }

  lemma {:induction false} FindLine(s: seq<Line>, k: nat) returns (a: nat)
    requires k < |Lines(s)|
    ensures a < |s| && s[a].Some? && |Lines(s[..a])| == k
  {
    if s[0].Some? && k == 0 {
      a := 0;
    } else {
      var b := FindLine(s[1..], if s[0].Some? then k - 1 else k);
      a := b + 1;
      assert s[..a] == [s[0]] + s[1..][..b];
    }
  }

  // ---- the pass -------------------------------------------------------------------------------

  // Index of the next live line after i, or -1.
  method PeepNext(data: array<Line>, i: nat) returns (j: int)
    requires i < data.Length
    ensures j == -1 || (i < j < data.Length && data[j].Some?)
    ensures forall k | i < k < (if j < 0 then data.Length else j) :: data[k].None?
  {
    j := i + 1;
    while j < data.Length
      invariant i < j <= data.Length && forall k | i < k < j :: data[k].None?
    {
      if data[j].Some? { return; }
      j := j + 1;
    }
    j := -1;
  }

  // Delete the instructions behind the transfer at line i, up to a label or directive.
  method DropDead(data: array<Line>, i: nat) returns (did: bool, ghost n: nat)
    requires i < data.Length && data[i].Some? && IsTransfer(data[i].value)
    modifies data
    ensures Rewrites(old(Lines(data[..])), Lines(data[..]), n) && (did <==> n > 0)
    ensures |Lines(data[..])| + n == |old(Lines(data[..]))|
    ensures data[i] == old(data[i])
    ensures !did ==> data[..] == old(data[..])
    ensures !did ==> forall j | i < j < data.Length && data[j].Some? && (forall k | i < k < j :: data[k].None?) ::
      !IsInstruction(data[j].value)
  {
    hide Rewrites;
    did, n := false, 0;
    NoRewrite(Lines(data[..]));
    var k := i + 1;
    while k < data.Length
      invariant i < k <= data.Length && data[i] == old(data[i])
      invariant forall m | i < m < k :: data[m].None?
      invariant Rewrites(old(Lines(data[..])), Lines(data[..]), n) && (did <==> n > 0)
      invariant |Lines(data[..])| + n == |old(Lines(data[..]))|
      invariant !did ==> data[..] == old(data[..])
    {
      var m := data[k];
      if m.Some? {
        if !IsInstruction(m.value) { break; }
        ghost var was := data[..];
        SplitAt(was, i, k);
        data[k] := None;
        assert data[..] == was[i := Some(data[i].value)][k := None];
        n := RewrittenTo(was, i, k, data[..], data[i].value, old(Lines(data[..])), n);
        did := true;
      }
      k := k + 1;
    }
  }

  // One pass over the buffer.
  method PeepPass(data: array<Line>) returns (changed: bool, ghost n: nat)
    modifies data
    ensures Rewrites(old(Lines(data[..])), Lines(data[..]), n) && (changed <==> n > 0)
    ensures |Lines(data[..])| + n == |old(Lines(data[..]))|
    ensures !changed ==> Settled(Lines(data[..]))
  {
    hide Rewrites, RuleFor;
    changed, n := false, 0;
    NoRewrite(Lines(data[..]));
    var i := 0;
    while i < data.Length
      invariant i <= data.Length
      invariant Rewrites(old(Lines(data[..])), Lines(data[..]), n) && (changed <==> n > 0)
      invariant |Lines(data[..])| + n == |old(Lines(data[..]))|
      invariant !changed ==> SettledTo(data[..], i)
    {
      if data[i].Some? {
        var j := PeepNext(data, i);
        if j < 0 {
          if !changed { LastSettled(data[..], i); }
          break;
        }
        ghost var steps := n;
        var did;
        did, n := PeepLine(data, i, j, old(Lines(data[..])), n);
        if did { changed := true; }
      }
      i := i + 1;
    }
    if !changed && i == data.Length { AllSettled(data[..]); }
  }

  // The rules for a live line i and the next live line j.
  method PeepLine(data: array<Line>, i: nat, j: nat, ghost from: seq<Instr>, ghost steps: nat)
    returns (did: bool, ghost n: nat)
    requires i < j < data.Length && data[i].Some? && data[j].Some? && forall k | i < k < j :: data[k].None?
    requires Rewrites(from, Lines(data[..]), steps) && |Lines(data[..])| + steps == |from|
    modifies data
    ensures Rewrites(from, Lines(data[..]), n) && n >= steps && (did <==> n > steps)
    ensures |Lines(data[..])| + n == |from|
    ensures !did ==> data[..] == old(data[..])
    ensures !did ==> RuleAt(Lines(data[..]), |Lines(data[..i])|).None?
  {
    hide Rewrites, Lines, Mentions, KillsD0;
    did, n := false, steps;
    var a, b := data[i].value, data[j].value;
    ghost var was := data[..];
    SplitAt(was, i, j);
    if a == A0_TO_D0 && b == D0_TO_A0 {
      data[j] := None;
      assert data[..] == was[i := Some(a)][j := None];
      n := RewrittenTo(was, i, j, data[..], a, from, steps);
      return true, n;
    }
    if a == A0_TO_D0 && KillsD0(b) {
      data[i] := None;
      assert data[..] == was[i := None][j := Some(b)];
      n := RewrittenTo(was, i, j, data[..], b, from, steps);
      return true, n;
    }
    if a.LeaTo? && b == LOAD_A0 {
      var k := PeepNext(data, j);
      NextLine(was, i, j, k);
      var reused := k >= 0 && Mentions(data[k].value);
      if !reused && a.n == 0 {
        data[j] := Some(Move(L, a.src, Dn(0)));
        data[i] := None;
        assert data[..] == was[i := None][j := Some(Move(L, a.src, Dn(0)))];
        n := RewrittenTo(was, i, j, data[..], Move(L, a.src, Dn(0)), from, steps);
        return true, n;
      }
    }
    if a.Bra? && b == Lab(a.l) {
      data[i] := None;
      assert data[..] == was[i := None][j := Some(b)];
      n := RewrittenTo(was, i, j, data[..], b, from, steps);
      return true, n;
    }
    if IsTransfer(a) {
      ghost var more;
      did, more := DropDead(data, i);
      n := Chained(from, Lines(was), Lines(data[..]), steps, more);
    }
  }

  // peephole: passes until nothing changes.
  method Peephole(data: array<Line>) returns (ghost n: nat)
    modifies data
    ensures Rewrites(old(Lines(data[..])), Lines(data[..]), n) && Settled(Lines(data[..]))
    ensures |Lines(data[..])| + n == |old(Lines(data[..]))|
  {
    hide Rewrites, Settled, Lines;
    n := 0;
    NoRewrite(Lines(data[..]));
    var changed := true;
    while changed
      invariant Rewrites(old(Lines(data[..])), Lines(data[..]), n)
      invariant |Lines(data[..])| + n == |old(Lines(data[..]))|
      invariant !changed ==> Settled(Lines(data[..]))
      decreases |Lines(data[..])|, changed
    {
      ghost var was := Lines(data[..]);
      ghost var more;
      changed, more := PeepPass(data);
      n := Chained(old(Lines(data[..])), was, Lines(data[..]), n, more);
    }
  }
}
