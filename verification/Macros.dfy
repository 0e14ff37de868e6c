// Expansion of object-like macros with hidesets.
module Macros {
  import opened Words
  import opened Sets

  // A token: whether it is an identifier, its text, the macros it came from, and how it
  // is spaced. A list ends where the source's end-of-file token is.
  datatype Tok = Tok(ident: bool, text: string, hideset: seq<string>, atBol: bool, hasSpace: bool)

  // Names and replacement lists of the object-like macros in force.
  type Table = map<string, seq<Tok>>

  predicate IsHash(t: Tok) { t.atBol && t.text == "#" }

  // The token is replaced: it names a macro that is not in its own hideset.
  predicate Expands(t: Tok, table: Table) { t.text !in t.hideset && t.ident && t.text in table }

  function AddHideset(ts: seq<Tok>, hs: seq<string>): (r: seq<Tok>)
    ensures |r| == |ts|
    ensures forall i | 0 <= i < |ts| :: r[i] == ts[i].(hideset := ts[i].hideset + hs)
  {
    if ts == [] then [] else [ts[0].(hideset := ts[0].hideset + hs)] + AddHideset(ts[1..], hs)
  }

  // The replacement list of t, marked with t's hideset and its own name.
  function Body(t: Tok, table: Table): seq<Tok>
    requires Expands(t, table)
  {
    AddHideset(table[t.text], t.hideset + [t.text])
  }

  // The first token takes over the macro token's spacing; it is the token behind the
  // macro when the replacement list is empty.
  function Spaced(ts: seq<Tok>, t: Tok): seq<Tok> {
    if ts == [] then [] else [ts[0].(atBol := t.atBol, hasSpace := t.hasSpace)] + ts[1..]
  }

  function Replaced(ts: seq<Tok>, table: Table): seq<Tok>
    requires ts != [] && Expands(ts[0], table)
  {
    Spaced(Body(ts[0], table) + ts[1..], ts[0])
  }

  // ---- how much expansion is left ----------------------------------------------------------

  // Macros absent from the token's hideset.
  function Fresh(t: Tok, table: Table): set<string> { set m | m in table && m !in t.hideset }

  function Rank(t: Tok, table: Table): nat { |Fresh(t, table)| }

  function MaxRank(ts: seq<Tok>, table: Table): (r: nat)
    ensures forall t | t in ts :: Rank(t, table) <= r
    ensures r == 0 || exists t :: t in ts && Rank(t, table) == r
  {
    if ts == [] then 0
    else
      var r := MaxRank(ts[1..], table);
      if Rank(ts[0], table) > r then Rank(ts[0], table) else r
  }

  // Every token of a replacement list has fewer macros left than the token replaced.
  lemma BodyRank(t: Tok, table: Table)
    requires Expands(t, table)
    ensures Rank(t, table) > 0 && forall b | b in Body(t, table) :: Rank(b, table) < Rank(t, table)
  {
    assert t.text in Fresh(t, table);
    SubsetSize({}, Fresh(t, table));
    forall b | b in Body(t, table) ensures Rank(b, table) < Rank(t, table) {
      assert t.text !in Fresh(b, table);
      SubsetSize(Fresh(b, table), Fresh(t, table));
    }
  }

  function Power(b: nat, n: nat): (r: nat)
    ensures b > 0 ==> r > 0
  {
    if n == 0 then 1 else b * Power(b, n - 1)
  }

  lemma {:induction false} PowerMono(b: nat, m: nat, n: nat)
    requires b > 0 && m <= n
    ensures Power(b, m) <= Power(b, n)
    decreases n
  {
    if m < n {
      PowerMono(b, m, n - 1);
      assert b * Power(b, n - 1) >= Power(b, n - 1);
    }
  }

  // A token weighs (longest + 1) to the power of the macros absent from its hideset.
  function Weight(ts: seq<Tok>, table: Table, longest: nat): nat {
    if ts == [] then 0 else Power(longest + 1, Rank(ts[0], table)) + Weight(ts[1..], table, longest)
  }

  ghost predicate Bounds(table: Table, longest: nat) { forall m | m in table :: |table[m]| <= longest }

  lemma {:induction false} SomeBound(table: Table, names: set<string>) returns (n: nat)
    requires names <= table.Keys
    ensures forall m | m in names :: |table[m]| <= n
    decreases |names|
  {
    n := 0;
    if names != {} {
      var m :| m in names;
      var k := SomeBound(table, names - {m});
      n := if |table[m]| > k then |table[m]| else k;
    }
  }

  lemma {:induction false} WeightJoin(x: seq<Tok>, y: seq<Tok>, table: Table, longest: nat)
    ensures Weight(x + y, table, longest) == Weight(x, table, longest) + Weight(y, table, longest)
  {
    if x == [] { assert x + y == y; } else {
      assert (x + y)[1..] == x[1..] + y;
      WeightJoin(x[1..], y, table, longest);
    }
  }

  lemma {:induction false} WeightBelow(ts: seq<Tok>, table: Table, longest: nat, r: nat)
    requires forall t | t in ts :: Rank(t, table) <= r
    ensures Weight(ts, table, longest) <= |ts| * Power(longest + 1, r)
  {
    hide Rank, Power;
    if ts != [] {
      WeightBelow(ts[1..], table, longest, r);
      PowerMono(longest + 1, Rank(ts[0], table), r);
      OneMoreTimes(|ts|, Power(longest + 1, r));
    }
  }

  lemma OneMoreTimes(n: nat, p: nat)
    requires n > 0
    ensures n * p == p + (n - 1) * p
  {}

  lemma SameWeight(ts: seq<Tok>, t: Tok, table: Table, longest: nat)
    ensures Weight(Spaced(ts, t), table, longest) == Weight(ts, table, longest)
  {
    if ts != [] { assert Spaced(ts, t)[1..] == ts[1..] && Fresh(Spaced(ts, t)[0], table) == Fresh(ts[0], table); }
  }

  // Replacing a macro makes the list lighter, whatever the macros' bodies mention.
  lemma ReplacedLighter(ts: seq<Tok>, table: Table, longest: nat)
    requires ts != [] && Expands(ts[0], table) && Bounds(table, longest)
    ensures Weight(Replaced(ts, table), table, longest) < Weight(ts, table, longest)
  {
    hide Rank, Weight, Power, Body;
    var t, body := ts[0], Body(ts[0], table);
    BodyRank(t, table);
    var r := Rank(t, table) - 1;
    SameWeight(body + ts[1..], t, table, longest);
    WeightJoin(body, ts[1..], table, longest);
    WeightBelow(body, table, longest, r);
    FirstWeight(ts, table, longest, r);
    BodySize(t, table);
    Lighter(Weight(body, table, longest), |body|, longest, Power(longest + 1, r));
  }

  lemma FirstWeight(ts: seq<Tok>, table: Table, longest: nat, r: nat)
    requires ts != [] && Rank(ts[0], table) == r + 1
    ensures Weight(ts, table, longest) == (longest + 1) * Power(longest + 1, r) + Weight(ts[1..], table, longest)
    ensures Power(longest + 1, r) > 0
  {
    hide Rank;
  }

  lemma BodySize(t: Tok, table: Table)
    requires Expands(t, table)
    ensures |Body(t, table)| == |table[t.text]|
  {}

  lemma Lighter(w: nat, n: nat, longest: nat, p: nat)
    requires w <= n * p && n <= longest && p > 0
    ensures w < (longest + 1) * p
  {
    MulMono(n, longest, p);
    assert (longest + 1) * p == longest * p + p;
  }

  // ---- what expansion means --------------------------------------------------------------------

  // Token by token, without looking at what follows.
  function ExpandTok(t: Tok, table: Table): seq<Tok>
    decreases Rank(t, table), 0
  {
    if !Expands(t, table) then [t]
    else
      BodyRank(t, table);
      ExpandAll(Body(t, table), table)
  }

  function ExpandAll(ts: seq<Tok>, table: Table): seq<Tok>
    decreases MaxRank(ts, table), |ts|
  {
    if ts == [] then [] else ExpandTok(ts[0], table) + ExpandAll(ts[1..], table)
  }

  lemma {:induction false} ExpandJoin(x: seq<Tok>, y: seq<Tok>, table: Table)
    ensures ExpandAll(x + y, table) == ExpandAll(x, table) + ExpandAll(y, table)
  {
    hide ExpandTok;
    if x == [] { assert x + y == y; } else {
      assert (x + y)[1..] == x[1..] + y;
      ExpandJoin(x[1..], y, table);
    }
  }

  // A token without its spacing.
  function Bare(t: Tok): Tok { t.(atBol := false, hasSpace := false) }

  function BareAll(ts: seq<Tok>): (r: seq<Tok>)
    ensures |r| == |ts| && forall i | 0 <= i < |ts| :: r[i] == Bare(ts[i])
  {
    seq(|ts|, i requires 0 <= i < |ts| => Bare(ts[i]))
  }

  lemma SpacingAside(ts: seq<Tok>, t: Tok, table: Table)
    ensures BareAll(ExpandAll(Spaced(ts, t), table)) == BareAll(ExpandAll(ts, table))
  {
    hide ExpandAll;
    if ts == [] {
    } else {
      var u := Spaced(ts, t)[0];
      assert Spaced(ts, t)[1..] == ts[1..];
      OneMore(Spaced(ts, t), table);
      OneMore(ts, table);
      assert BareAll(ExpandTok(u, table)) == BareAll(ExpandTok(ts[0], table)) by { SameBody(u, ts[0], table); }
      BareJoin(ExpandTok(u, table), ExpandAll(ts[1..], table));
      BareJoin(ExpandTok(ts[0], table), ExpandAll(ts[1..], table));
    }
  }

  lemma OneMore(ts: seq<Tok>, table: Table)
    requires ts != []
    ensures ExpandAll(ts, table) == ExpandTok(ts[0], table) + ExpandAll(ts[1..], table)
  {}

  lemma SameBody(t: Tok, u: Tok, table: Table)
    requires Bare(t) == Bare(u)
    ensures BareAll(ExpandTok(t, table)) == BareAll(ExpandTok(u, table))
  {
    if Expands(t, table) { assert Body(t, table) == Body(u, table); }
  }

  lemma BareJoin(x: seq<Tok>, y: seq<Tok>)
    ensures BareAll(x + y) == BareAll(x) + BareAll(y)
  {}

  // Replacing the first token does not change the whole expansion.
  lemma ReplacedMeans(ts: seq<Tok>, table: Table)
    requires ts != [] && Expands(ts[0], table)
    ensures BareAll(ExpandAll(Replaced(ts, table), table)) == BareAll(ExpandAll(ts, table))
  {
    hide ExpandAll;
    SpacingAside(Body(ts[0], table) + ts[1..], ts[0], table);
    ExpandJoin(Body(ts[0], table), ts[1..], table);
    OneMore(ts, table);
  }

  // ---- the spacing of what is written -------------------------------------------------------------

  // The place of a token: at the start of a line, behind a space.
  datatype Space = Space(bol: bool, sp: bool)

  function SpaceOf(t: Tok): Space { Space(t.atBol, t.hasSpace) }

  // The list with the given spacing for its first token.
  function Placed(ts: seq<Tok>, s: Option<Space>): seq<Tok> {
    if s.None? || ts == [] then ts else [ts[0].(atBol := s.value.bol, hasSpace := s.value.sp)] + ts[1..]
  }

  // What a token comes to at the place s, and the place, if any, that it hands to the token
  // behind it: it is written there, or its replacement is.
  function WriteTok(t: Tok, s: Space, table: Table): (seq<Tok>, Option<Space>)
    decreases Rank(t, table), 0
  {
    if !Expands(t, table) then ([t.(atBol := s.bol, hasSpace := s.sp)], None)
    else
      BodyRank(t, table);
      WriteAll(Body(t, table), s, table)
  }

  function WriteAll(ts: seq<Tok>, s: Space, table: Table): (seq<Tok>, Option<Space>)
    decreases MaxRank(ts, table), |ts|
  {
    if ts == [] then ([], Some(s))
    else
      var (x, p) := WriteTok(ts[0], s, table);
      if |ts| == 1 then (x, p)
      else
        var (y, q) := WriteAll(ts[1..], Next(p, ts[1]), table);
        (x + y, q)
  }

  function Next(p: Option<Space>, t: Tok): Space { if p.Some? then p.value else SpaceOf(t) }

  // The expansion of a list, token by token, with its spacing.
  function Written(ts: seq<Tok>, table: Table): seq<Tok> {
    if ts == [] then [] else WriteAll(ts, SpaceOf(ts[0]), table).0
  }

  // Tokens that no macro touches are written as they are.
  lemma {:induction false} WrittenAsIs(ts: seq<Tok>, table: Table)
    requires forall t | t in ts :: !t.ident || t.text !in table || t.text in t.hideset
    ensures Written(ts, table) == ts
  {
    if ts != [] {
      WrittenAsIs(ts[1..], table);
      WritePasses(ts, table);
    }
  }

  // The first token of an expansion stands where the macro's name stood. An empty one leaves
  // that place to the token behind it.
  lemma {:induction false} WrittenInPlace(t: Tok, s: Space, table: Table)
    ensures var (x, p) := WriteTok(t, s, table);
      (x != [] ==> SpaceOf(x[0]) == s) && (x == [] ==> p == Some(s))
    decreases Rank(t, table), 0
  {
    hide Rank;
    if Expands(t, table) {
      BodyRank(t, table);
      ListInPlace(Body(t, table), s, table, Rank(t, table));
    }
  }

  lemma ListInPlace(ts: seq<Tok>, s: Space, table: Table, r: nat)
    requires forall t | t in ts :: Rank(t, table) < r
    ensures var (x, p) := WriteAll(ts, s, table);
      (x != [] ==> SpaceOf(x[0]) == s) && (x == [] ==> p == Some(s))
    decreases r, -1, |ts|
  {
    hide WriteTok, Rank;
    if ts != [] {
      WrittenInPlace(ts[0], s, table);
      FirstWritten(ts, s, table);
      if |ts| > 1 { ListInPlace(ts[1..], Next(WriteTok(ts[0], s, table).1, ts[1]), table, r); }
    }
  }

  lemma FirstWritten(ts: seq<Tok>, s: Space, table: Table)
    requires ts != []
    ensures var (x, p) := WriteTok(ts[0], s, table);
      WriteAll(ts, s, table)
      == if |ts| == 1 then (x, p)
         else var (y, q) := WriteAll(ts[1..], Next(p, ts[1]), table); (x + y, q)
  {
    hide WriteTok;
  }

  lemma {:induction false} WriteJoin(x: seq<Tok>, y: seq<Tok>, s: Space, table: Table)
    requires x != [] && y != []
    ensures var (a, p) := WriteAll(x, s, table);
      var (b, q) := WriteAll(y, Next(p, y[0]), table);
      WriteAll(x + y, s, table) == (a + b, q)
    decreases |x|
  {
    hide WriteTok, WriteAll;
    var all := x + y;
    assert all[0] == x[0] && all[1..] == x[1..] + y;
    FirstWritten(all, s, table);
    FirstWritten(x, s, table);
    if |x| == 1 {
      assert x[1..] + y == y && all[1] == y[0];
    } else {
      assert all[1] == x[1];
      var p := WriteTok(x[0], s, table).1;
      WriteJoin(x[1..], y, Next(p, x[1]), table);
      var (a, p2) := WriteAll(x[1..], Next(p, x[1]), table);
      var b := WriteAll(y, Next(p2, y[0]), table).0;
      assert WriteTok(x[0], s, table).0 + (a + b) == WriteTok(x[0], s, table).0 + a + b;
    }
  }

  // Only the place given counts for the first token.
  lemma WritePlaced(ts: seq<Tok>, s: Space, p: Option<Space>, table: Table)
    ensures WriteAll(Placed(ts, p), s, table) == WriteAll(ts, s, table)
  {
    hide WriteAll;
    if ts != [] {
      var u := Placed(ts, p);
      assert u[1..] == ts[1..] && |u| == |ts| && (|ts| > 1 ==> u[1] == ts[1]);
      SameWritten(u[0], ts[0], s, table);
      FirstWritten(u, s, table);
      FirstWritten(ts, s, table);
    }
  }

  lemma SameWritten(t: Tok, u: Tok, s: Space, table: Table)
    requires Bare(t) == Bare(u)
    ensures WriteTok(t, s, table) == WriteTok(u, s, table)
  {
    hide WriteAll;
    if Expands(t, table) { assert Body(t, table) == Body(u, table); }
  }

  lemma WritePasses(ts: seq<Tok>, table: Table)
    requires ts != [] && !Expands(ts[0], table)
    ensures Written(ts, table) == [ts[0]] + Written(ts[1..], table)
  {
    hide WriteAll;
    FirstWritten(ts, SpaceOf(ts[0]), table);
    assert WriteTok(ts[0], SpaceOf(ts[0]), table) == ([ts[0]], None);
  }

  // Replacing the first token does not change what is written.
  lemma WriteReplaced(ts: seq<Tok>, table: Table)
    requires ts != [] && Expands(ts[0], table)
    ensures Written(Replaced(ts, table), table) == Written(ts, table)
  {
    hide WriteAll, WriteTok, Body;
    var t, body, tail := ts[0], Body(ts[0], table), ts[1..];
    var s := SpaceOf(t);
    FirstWritten(ts, s, table);
    BodyWritten(t, s, table);
    if body == [] {
      assert Replaced(ts, table) == Placed(tail, Some(s)) by { assert body + tail == tail; }
      WritePlaced(tail, s, Some(s), table);
    } else {
      var first := Placed(body, Some(s));
      assert Replaced(ts, table) == first + tail;
      WritePlaced(body, s, Some(s), table);
      if tail == [] { assert first + tail == first; } else { WriteJoin(first, tail, s, table); }
    }
  }

  lemma BodyWritten(t: Tok, s: Space, table: Table)
    requires Expands(t, table)
    ensures WriteTok(t, s, table) == WriteAll(Body(t, table), s, table)
    ensures WriteAll([], s, table) == ([], Some(s))
  {}

  // Spacing aside, what is written is the expansion.
  lemma {:induction false} WrittenIsExpansion(t: Tok, s: Space, table: Table)
    ensures BareAll(WriteTok(t, s, table).0) == BareAll(ExpandTok(t, table))
    decreases Rank(t, table), 0
  {
    hide Rank;
    if Expands(t, table) {
      BodyRank(t, table);
      ListIsExpansion(Body(t, table), s, table, Rank(t, table));
    }
  }

  lemma ListIsExpansion(ts: seq<Tok>, s: Space, table: Table, r: nat)
    requires forall t | t in ts :: Rank(t, table) < r
    ensures BareAll(WriteAll(ts, s, table).0) == BareAll(ExpandAll(ts, table))
    decreases r, -1, |ts|
  {
    hide WriteTok, Rank, ExpandTok, ExpandAll, WriteAll;
    if ts == [] {
      NoneWritten(s, table);
    } else {
      WrittenIsExpansion(ts[0], s, table);
      FirstWritten(ts, s, table);
      OneMore(ts, table);
      var (x, p) := WriteTok(ts[0], s, table);
      BareJoin(ExpandTok(ts[0], table), ExpandAll(ts[1..], table));
      if |ts| == 1 {
        assert ts[1..] == [];
        NoneWritten(s, table);
      } else {
        var next := Next(p, ts[1]);
        ListIsExpansion(ts[1..], next, table, r);
        BareJoin(x, WriteAll(ts[1..], next, table).0);
      }
    }
  }

  lemma NoneWritten(s: Space, table: Table)
    ensures WriteAll([], s, table).0 == [] == ExpandAll([], table)
  {}

  lemma WrittenBare(ts: seq<Tok>, table: Table)
    ensures BareAll(Written(ts, table)) == BareAll(ExpandAll(ts, table))
  {
    hide WriteAll, ExpandAll, Rank;
    if ts == [] {
      NoneWritten(Space(false, false), table);
    } else {
      ListIsExpansion(ts, SpaceOf(ts[0]), table, MaxRank(ts, table) + 1);
    }
  }

  // ---- the preprocessor's loop -------------------------------------------------------------------

  method HidesetContains(hs: seq<string>, s: string) returns (r: bool)
    ensures r <==> s in hs
  {
    var i := 0;
    while i < |hs|
      invariant i <= |hs| && s !in hs[..i]
    {
      if hs[i] == s { return true; }
      assert hs[..i + 1] == hs[..i] + [hs[i]];
      i := i + 1;
    }
    assert hs[..i] == hs;
    r := false;
  }

  // Copies the first list and ends in the second.
  method HidesetUnion(x: seq<string>, y: seq<string>) returns (r: seq<string>)
    ensures r == x + y && forall m :: m in r <==> m in x || m in y
  {
    r := [];
    var i := 0;
    while i < |x|
      invariant i <= |x| && r == x[..i]
    {
      r := r + [x[i]];
      i := i + 1;
    }
    r := r + y;
  }

  method MarkAll(ts: seq<Tok>, hs: seq<string>) returns (r: seq<Tok>)
    ensures r == AddHideset(ts, hs)
  {
    r := [];
    var i := 0;
    while i < |ts|
      invariant i <= |ts| && |r| == i && forall j | 0 <= j < i :: r[j] == ts[j].(hideset := ts[j].hideset + hs)
    {
      var u := HidesetUnion(ts[i].hideset, hs);
      r := r + [ts[i].(hideset := u)];
      i := i + 1;
    }
  }

  class Preprocessor {
    const macros: Table

    constructor (macros: Table)
      ensures this.macros == macros
    {
      this.macros := macros;
    }

    // expand_macro: the list after the first token is replaced, if it is.
    method ExpandMacro(ts: seq<Tok>) returns (done: bool, rest: seq<Tok>)
      requires ts != []
      ensures done <==> ts[0].ident && ts[0].text in macros && ts[0].text !in ts[0].hideset
      ensures done <==> Expands(ts[0], macros)
      ensures rest == if done then Replaced(ts, macros) else ts
      ensures done ==> var b, hs := macros[ts[0].text], ts[0].hideset + [ts[0].text];
        && |rest| == |b| + |ts| - 1
        && (rest != [] ==> rest[0].atBol == ts[0].atBol && rest[0].hasSpace == ts[0].hasSpace)
        && forall i | 0 <= i < |rest| ::
             var u := if i < |b| then b[i].(hideset := b[i].hideset + hs) else ts[i - |b| + 1];
             if i > 0 then rest[i] == u else Bare(rest[i]) == Bare(u)
    {
      var t := ts[0];
      rest := ts;
      done := HidesetContains(t.hideset, t.text);
      if done { return false, ts; }
      if !t.ident || t.text !in macros { return false, ts; }
      var hs := HidesetUnion(t.hideset, [t.text]);
      var body := MarkAll(macros[t.text], hs);
      rest := body + ts[1..];
      if rest != [] {
        rest := [rest[0].(atBol := t.atBol, hasSpace := t.hasSpace)] + rest[1..];
      }
      done := true;
    }

    // preprocess2, up to the first directive: `rest` starts at it. The loop ends for every
    // table, and what it writes is the token-by-token expansion.
    method Preprocess2(ts: seq<Tok>) returns (out: seq<Tok>, rest: seq<Tok>)
      ensures rest == [] || (rest[0].atBol && rest[0].text == "#")
      ensures out + Written(rest, macros) == Written(ts, macros)
      ensures BareAll(out) + BareAll(ExpandAll(rest, macros)) == BareAll(ExpandAll(ts, macros))
      ensures forall t | t in out :: !Expands(t, macros) && !(t.atBol && t.text == "#")
      ensures forall t | t in out && t.ident && t.text in macros :: t.text in t.hideset
      ensures forall longest | Bounds(macros, longest) :: rest == Remaining(ts, macros, longest)
    {
      hide ExpandAll, ExpandTok, Weight, Replaced, Written;
      ghost var longest := SomeBound(macros, macros.Keys);
      out, rest := [], ts;
      while rest != []
        invariant out + Written(rest, macros) == Written(ts, macros)
        invariant forall t | t in out :: !Expands(t, macros) && !IsHash(t)
        invariant forall n | Bounds(macros, n) :: Remaining(rest, macros, n) == Remaining(ts, macros, n)
        decreases Weight(rest, macros, longest)
      {
        var done, next := ExpandMacro(rest);
        if done {
          ReplacedLighter(rest, macros, longest);
          WriteReplaced(rest, macros);
          rest := next;
        } else {
          if IsHash(rest[0]) { break; }
          Passed(rest, macros, longest);
          WritePasses(rest, macros);
          assert out + ([rest[0]] + Written(rest[1..], macros)) == out + [rest[0]] + Written(rest[1..], macros);
          out := out + [rest[0]];
          rest := rest[1..];
        }
      }
      WrittenBare(ts, macros);
      WrittenBare(rest, macros);
      BareJoin(out, Written(rest, macros));
    }
  }

  lemma Nothing(table: Table)
    ensures ExpandAll([], table) == []
  {}

  lemma Passed(ts: seq<Tok>, table: Table, longest: nat)
    requires ts != [] && !Expands(ts[0], table)
    ensures ExpandAll(ts, table) == [ts[0]] + ExpandAll(ts[1..], table)
    ensures Weight(ts[1..], table, longest) < Weight(ts, table, longest)
  {
    OneMore(ts, table);
  }

  // ---- hidesets and nested replacement ---------------------------------------------------------

  function SetOf(hs: seq<string>): set<string> { set m | m in hs }

  // Section 6.10.3.4 of C11, for object-like macros: a name met while its own replacement
  // list is being rescanned, however deeply, is left alone.
  function Nested(text: string, ident: bool, active: set<string>, table: Table): seq<string>
    decreases |table.Keys - active|, 0
  {
    if !ident || text in active || text !in table then [text]
    else
      assert text in table.Keys - active && text !in table.Keys - (active + {text});
      SubsetSize(table.Keys - (active + {text}), table.Keys - active);
      NestedAll(table[text], active + {text}, table)
  }

  function NestedAll(body: seq<Tok>, active: set<string>, table: Table): seq<string>
    decreases |table.Keys - active|, |body|
  {
    if body == [] then [] else Nested(body[0].text, body[0].ident, active, table) + NestedAll(body[1..], active, table)
  }

  function Texts(ts: seq<Tok>): (r: seq<string>)
    ensures |r| == |ts| && forall i | 0 <= i < |ts| :: r[i] == ts[i].text
  {
    seq(|ts|, i requires 0 <= i < |ts| => ts[i].text)
  }

  // Replacement lists as #define leaves them: no hidesets.
  ghost predicate Unmarked(table: Table) {
    forall m, t | m in table && t in table[m] :: t.hideset == []
  }

  // The hideset of a token acts as the set of macros being replaced around it.
  lemma {:induction false} HidesetsNest(t: Tok, table: Table)
    requires Unmarked(table)
    ensures Texts(ExpandTok(t, table)) == Nested(t.text, t.ident, SetOf(t.hideset), table)
    decreases Rank(t, table), 0
  {
    if Expands(t, table) {
      BodyRank(t, table);
      var hs := t.hideset + [t.text];
      assert SetOf(hs) == SetOf(t.hideset) + {t.text};
      ListsNest(table[t.text], hs, table, Rank(t, table));
    }
  }

  lemma ListsNest(body: seq<Tok>, hs: seq<string>, table: Table, r: nat)
    requires Unmarked(table) && (forall t | t in body :: t.hideset == [])
    requires forall t | t in AddHideset(body, hs) :: Rank(t, table) < r
    ensures Texts(ExpandAll(AddHideset(body, hs), table)) == NestedAll(body, SetOf(hs), table)
    decreases r, -1, |body|
  {
    hide ExpandTok, Rank;
    if body != [] {
      var ts := AddHideset(body, hs);
      assert ts[0].hideset == [] + hs == hs && ts[1..] == AddHideset(body[1..], hs);
      HidesetsNest(ts[0], table);
      ListsNest(body[1..], hs, table, r);
      OneMore(ts, table);
      TextsJoin(ExpandTok(ts[0], table), ExpandAll(ts[1..], table));
    }
  }

  lemma TextsJoin(x: seq<Tok>, y: seq<Tok>)
    ensures Texts(x + y) == Texts(x) + Texts(y)
  {}

  // ---- spacing and directives --------------------------------------------------------------------

  // Directives start at the same tokens of two lists.
  predicate SameStarts(x: seq<Tok>, y: seq<Tok>) { |x| == |y| && forall k | 0 <= k < |x| :: IsHash(x[k]) <==> IsHash(y[k]) }

  // One replacement leaves every token behind it a directive or not, as it was, if and only
  // if its list is not empty or the next token is no "#" or has the macro's place in its line.
  lemma ReplacementKeepsDirectives(ts: seq<Tok>, table: Table)
    requires ts != [] && Expands(ts[0], table)
    ensures var n := |Body(ts[0], table)|;
      |Replaced(ts, table)| == n + |ts| - 1
      && (SameStarts(Replaced(ts, table)[n..], ts[1..])
          <==> n > 0 || |ts| == 1 || ts[1].text != "#" || ts[1].atBol == ts[0].atBol)
  {
    var body, rest := Body(ts[0], table), ts[1..];
    var next := Replaced(ts, table);
    forall k | 0 <= k < |rest| && (|body| > 0 || k > 0) ensures next[|body|..][k] == rest[k] {}
    if body == [] && rest != [] {
      assert next[|body|..][0] == rest[0].(atBol := ts[0].atBol, hasSpace := ts[0].hasSpace);
      assert IsHash(next[|body|..][0]) <==> ts[0].atBol && rest[0].text == "#";
      assert IsHash(rest[0]) <==> rest[0].atBol && rest[0].text == "#";
    }
  }

  // ---- where the loop stops -----------------------------------------------------------------------

  // What scanning a token, and the lists that replace it, comes to: a "#" at the start of a
  // line, or the spacing, if any, that it hands to the token behind it.
  datatype Scanned = Hits | Hands(next: Option<Space>)

  function ScanTok(t: Tok, s: Space, table: Table): Scanned
    decreases Rank(t, table), 0
  {
    if !Expands(t, table) then (if s.bol && t.text == "#" then Hits else Hands(None))
    else
      BodyRank(t, table);
      ScanAll(Body(t, table), s, table)
  }

  function ScanAll(ts: seq<Tok>, s: Space, table: Table): Scanned
    decreases MaxRank(ts, table), |ts|
  {
    if ts == [] then Hands(Some(s))
    else
      var h := ScanTok(ts[0], s, table);
      if h.Hits? || |ts| == 1 then h
      else ScanAll(ts[1..], if h.next.Some? then h.next.value else SpaceOf(ts[1]), table)
  }

  // The list at which the loop stops.
  ghost function Remaining(ts: seq<Tok>, table: Table, longest: nat): seq<Tok>
    requires Bounds(table, longest)
    decreases Weight(ts, table, longest)
  {
    if ts == [] then []
    else if Expands(ts[0], table) then
      ReplacedLighter(ts, table, longest);
      Remaining(Replaced(ts, table), table, longest)
    else if IsHash(ts[0]) then ts
    else
      Passed(ts, table, longest);
      Remaining(ts[1..], table, longest)
  }

  lemma PlacedWeight(ts: seq<Tok>, s: Option<Space>, table: Table, longest: nat)
    ensures Weight(Placed(ts, s), table, longest) == Weight(ts, table, longest)
  {
    if s.Some? && ts != [] {
      var t := ts[0].(atBol := s.value.bol, hasSpace := s.value.sp);
      assert Placed(ts, s) == Spaced(ts, t);
      SameWeight(ts, t, table, longest);
    }
  }

  // Only the spacing given counts for the first token.
  lemma ScanPlaced(ts: seq<Tok>, s: Space, p: Option<Space>, table: Table)
    ensures ScanAll(Placed(ts, p), s, table) == ScanAll(ts, s, table)
  {
    if ts != [] {
      var u := Placed(ts, p);
      assert u[1..] == ts[1..];
      if Expands(ts[0], table) { assert Body(u[0], table) == Body(ts[0], table); }
      assert ScanTok(u[0], s, table) == ScanTok(ts[0], s, table);
    }
  }

  // The loop over x + y: it stops in what replaces x, or comes to y with the spacing handed on.
  lemma {:induction false} LoopOver(x: seq<Tok>, y: seq<Tok>, s: Space, table: Table, longest: nat)
    requires x != [] && SpaceOf(x[0]) == s && Bounds(table, longest)
    ensures match ScanAll(x, s, table)
            case Hits => exists z :: z != [] && Remaining(x + y, table, longest) == z + y
            case Hands(next) => Remaining(x + y, table, longest) == Remaining(Placed(y, next), table, longest)
    decreases Weight(x + y, table, longest), |x|
  {
    hide Weight, Rank, Expands;
    if Expands(x[0], table) {
      LoopReplaces(x, y, s, table, longest);
    } else {
      LoopPasses(x, y, s, table, longest);
    }
  }

  lemma LoopPasses(x: seq<Tok>, y: seq<Tok>, s: Space, table: Table, longest: nat)
    requires x != [] && SpaceOf(x[0]) == s && Bounds(table, longest) && !Expands(x[0], table)
    ensures match ScanAll(x, s, table)
            case Hits => exists z :: z != [] && Remaining(x + y, table, longest) == z + y
            case Hands(next) => Remaining(x + y, table, longest) == Remaining(Placed(y, next), table, longest)
    decreases Weight(x + y, table, longest), |x|, 0
  {
    hide Weight, Rank, Expands;
    assert (x + y)[0] == x[0] && (x + y)[1..] == x[1..] + y;
    FirstScan(x, s, table);
    hide ScanAll;
    if IsHash(x[0]) {
      assert Remaining(x + y, table, longest) == x + y;
    } else {
      Passed(x + y, table, longest);
      assert Remaining(x + y, table, longest) == Remaining(x[1..] + y, table, longest);
      if |x| > 1 { LoopOver(x[1..], y, SpaceOf(x[1]), table, longest); } else { assert x[1..] + y == y; }
    }
  }

  lemma LoopReplaces(x: seq<Tok>, y: seq<Tok>, s: Space, table: Table, longest: nat)
    requires x != [] && SpaceOf(x[0]) == s && Bounds(table, longest) && Expands(x[0], table)
    ensures match ScanAll(x, s, table)
            case Hits => exists z :: z != [] && Remaining(x + y, table, longest) == z + y
            case Hands(next) => Remaining(x + y, table, longest) == Remaining(Placed(y, next), table, longest)
    decreases Weight(x + y, table, longest), |x|, 0
  {
    hide Weight, Rank, Expands, Body, ScanAll, Remaining;
    var t, body, tail := x[0], Body(x[0], table), x[1..];
    var all := x + y;
    assert all[0] == t && all[1..] == tail + y;
    StepReplaces(all, table, longest);
    ReplacedLighter(all, table, longest);
    FirstScan(x, s, table);
    BodyScan(t, s, table);
    Lightens(x, y, table, longest);
    var h := ScanAll(body, s, table);
    if body == [] {
      assert Replaced(all, table) == Placed(tail + y, Some(s)) by { assert body + all[1..] == tail + y; }
      LoopGoesOn(x, y, Some(s), s, table, longest);
    } else {
      var first := Placed(body, Some(s));
      assert Replaced(all, table) == first + (tail + y) by { assert body + all[1..] == body + (tail + y); }
      ScanPlaced(body, s, Some(s), table);
      LoopOver(first, tail + y, s, table, longest);
      if h.Hits? {
        var z :| z != [] && Remaining(first + (tail + y), table, longest) == z + (tail + y);
        assert z + (tail + y) == (z + tail) + y;
      } else {
        LoopGoesOn(x, y, h.next, s, table, longest);
      }
    }
  }

  lemma StepReplaces(ts: seq<Tok>, table: Table, longest: nat)
    requires ts != [] && Expands(ts[0], table) && Bounds(table, longest)
    ensures Remaining(ts, table, longest) == Remaining(Replaced(ts, table), table, longest)
  {
    hide Replaced;
  }

  lemma FirstScan(x: seq<Tok>, s: Space, table: Table)
    requires x != []
    ensures var h := ScanTok(x[0], s, table);
      ScanAll(x, s, table) == if h.Hits? || |x| == 1 then h
                              else ScanAll(x[1..], if h.next.Some? then h.next.value else SpaceOf(x[1]), table)
  {}

  lemma BodyScan(t: Tok, s: Space, table: Table)
    requires Expands(t, table)
    ensures ScanTok(t, s, table) == ScanAll(Body(t, table), s, table)
    ensures Body(t, table) == [] ==> ScanTok(t, s, table) == Hands(Some(s))
  {}

  lemma Lightens(x: seq<Tok>, y: seq<Tok>, table: Table, longest: nat)
    requires x != []
    ensures Weight(x[1..] + y, table, longest) < Weight(x + y, table, longest)
  {
    assert (x + y)[1..] == x[1..] + y;
  }

  // Behind the first token of x, with the spacing it handed on.
  lemma LoopGoesOn(x: seq<Tok>, y: seq<Tok>, p: Option<Space>, s: Space, table: Table, longest: nat)
    requires x != [] && Bounds(table, longest) && ScanTok(x[0], s, table) == Hands(p)
    ensures var rest := Remaining(Placed(x[1..] + y, p), table, longest);
      match ScanAll(x, s, table)
      case Hits => exists z :: z != [] && rest == z + y
      case Hands(next) => rest == Remaining(Placed(y, next), table, longest)
    decreases Weight(x + y, table, longest), 0, 0
  {
    hide Weight, Rank, Remaining, ScanTok, ScanAll;
    FirstScan(x, s, table);
    Lightens(x, y, table, longest);
    var tail := x[1..];
    if tail == [] {
      assert tail + y == y;
    } else {
      var next := if p.Some? then p.value else SpaceOf(x[1]);
      var placed := Placed(tail, p);
      assert Placed(tail + y, p) == placed + y;
      PlacedWeight(tail + y, p, table, longest);
      ScanPlaced(tail, next, p, table);
      LoopOver(placed, y, next, table, longest);
    }
  }

  // Replaced tokens are marked: a stop at an unmarked token is a stop at what was behind them.
  lemma {:induction false} RemainingShape(m: seq<Tok>, y: seq<Tok>, table: Table, longest: nat)
    requires Bounds(table, longest) && forall t | t in m :: t.hideset != []
    ensures var r := Remaining(m + y, table, longest); r == [] || r[0].hideset != [] || |r| <= |y|
    decreases Weight(m + y, table, longest)
  {
    hide Weight, Rank, Expands;
    var ts := m + y;
    if ts != [] {
      var m2, y2 := if m == [] then m else m[1..], if m == [] then y[1..] else y;
      assert ts[1..] == m2 + y2;
      if Expands(ts[0], table) {
        ReplacedLighter(ts, table, longest);
        RemarkedShape(ts, m2, y2, table, longest);
      } else if !IsHash(ts[0]) {
        Passed(ts, table, longest);
        RemainingShape(m2, y2, table, longest);
      }
    }
  }

  lemma RemarkedShape(ts: seq<Tok>, m: seq<Tok>, y: seq<Tok>, table: Table, longest: nat)
    requires ts != [] && Expands(ts[0], table) && ts[1..] == m + y && Bounds(table, longest)
    requires forall t | t in m :: t.hideset != []
    ensures var r := Remaining(Replaced(ts, table), table, longest); r == [] || r[0].hideset != [] || |r| <= |y|
    decreases Weight(ts, table, longest), 0
  {
    hide Weight, Rank, Expands, Remaining;
    var t, body := ts[0], Body(ts[0], table);
    ReplacedLighter(ts, table, longest);
    var all := body + m;
    assert body + ts[1..] == all + y;
    forall u | u in body ensures u.hideset != [] {}
    if all == [] {
      assert Replaced(ts, table) == [] + Spaced(y, t);
      RemainingShape([], Spaced(y, t), table, longest);
    } else {
      assert Replaced(ts, table) == Spaced(all, t) + y;
      assert forall u | u in Spaced(all, t) :: u.hideset != [];
      RemainingShape(Spaced(all, t), y, table, longest);
    }
  }

  // The first directive of a list, or its length.
  function FirstHash(ts: seq<Tok>): (i: nat)
    ensures i <= |ts| && (i < |ts| ==> IsHash(ts[i])) && forall k | 0 <= k < i :: !IsHash(ts[k])
  {
    if ts == [] || IsHash(ts[0]) then 0 else 1 + FirstHash(ts[1..])
  }

  // The loop's stop is at token i of the list, or at the end when i is its length.
  predicate StopsAtToken(rest: seq<Tok>, ts: seq<Tok>, i: nat)
    requires i <= |ts|
  {
    |rest| == |ts| - i && (rest != [] ==> rest[1..] == ts[i + 1..] && Bare(rest[0]) == Bare(ts[i]))
  }

  // Scanning what is in front of the first directive hits no "#" and hands it no spacing, or
  // one that keeps it at the start of its line.
  predicate KeepsFirst(ts: seq<Tok>, table: Table) {
    var i := FirstHash(ts);
    i == 0
    || var h := ScanAll(ts[..i], SpaceOf(ts[0]), table);
       h.Hands? && (i < |ts| && h.next.Some? ==> h.next.value.bol)
  }

  // The loop stops at the first directive of the list it is given if and only if no macro in
  // front of it starts one of its own, and none with an empty list, or with one at the end of
  // its list, takes the directive off the start of its line.
  lemma StopsAtFirstIff(ts: seq<Tok>, table: Table, longest: nat)
    requires Bounds(table, longest)
    requires forall t | t in ts && IsHash(t) :: t.hideset == [] && !t.ident
    ensures StopsAtToken(Remaining(ts, table, longest), ts, FirstHash(ts)) <==> KeepsFirst(ts, table)
  {
    hide Weight, Rank, ScanAll, Remaining;
    var i := FirstHash(ts);
    var x, y := ts[..i], ts[i..];
    assert ts == x + y;
    if i == 0 {
      assert x + y == y;
      AtHash(ts, table, longest);
    } else {
      var h := ScanAll(x, SpaceOf(ts[0]), table);
      LoopOver(x, y, SpaceOf(ts[0]), table, longest);
      if h.Hands? {
        if y == [] {
          NothingRemains(table, longest);
        } else {
          BehindHash(y, h.next, table, longest);
        }
      }
    }
  }

  lemma NothingRemains(table: Table, longest: nat)
    requires Bounds(table, longest)
    ensures Remaining([], table, longest) == []
  {}

  lemma AtHash(ts: seq<Tok>, table: Table, longest: nat)
    requires Bounds(table, longest) && (ts != [] ==> IsHash(ts[0]) && !ts[0].ident)
    ensures Remaining(ts, table, longest) == ts
  {}

  // The directive itself: kept at the start of its line, or passed over.
  lemma BehindHash(y: seq<Tok>, p: Option<Space>, table: Table, longest: nat)
    requires Bounds(table, longest) && y != [] && IsHash(y[0]) && !y[0].ident && y[0].hideset == []
    ensures StopsAtToken(Remaining(Placed(y, p), table, longest), y, 0) <==> (p.Some? ==> p.value.bol)
  {
    var u := Placed(y, p);
    assert u[1..] == y[1..];
    if p.Some? && !p.value.bol {
      Passed(u, table, longest);
      assert [] + y[1..] == y[1..];
      RemainingShape([], y[1..], table, longest);
    }
  }

  // ---- two concrete inputs, after #define E with nothing behind it -------------------------------

  const NOTHING: Table := map["E" := []]

  function Plain(text: string, ident: bool, bol: bool): Tok { Tok(ident, text, [], bol, !bol) }

  const X: Tok := Plain("x", true, true)
  const DEFINE: seq<Tok> := [Plain("define", true, false), Plain("Y", true, false)]

  // A macro with an empty list hands its place on to the token behind it.
  lemma EmptyMacroHidesDirective(e: Tok, hash: Tok, more: seq<Tok>, table: Table)
    requires Expands(e, table) && table[e.text] == []
    ensures Replaced([e, hash] + more, table) == [hash.(atBol := e.atBol, hasSpace := e.hasSpace)] + more
    ensures ExpandAll([e, hash] + more, table) == ExpandAll([hash] + more, table)
  {
    hide ExpandAll, ExpandTok, Expands, Body;
    NoBody(e, table);
    assert ([e, hash] + more)[1..] == [hash] + more && [] + ([hash] + more) == [hash] + more && ([hash] + more)[1..] == more;
    OneMore([e, hash] + more, table);
  }

  lemma NoBody(e: Tok, table: Table)
    requires Expands(e, table) && table[e.text] == []
    ensures Body(e, table) == [] && ExpandTok(e, table) == []
  {
    Nothing(table);
    hide ExpandAll;
    assert Body(e, table) == [];
  }

  // "# define Y" as tokens no macro touches.
  lemma DefineStays(hash: Tok, longest: nat)
    requires hash.text == "#" && !hash.ident && Bounds(NOTHING, longest)
    ensures ExpandAll([hash] + DEFINE, NOTHING) == [hash] + DEFINE
    ensures Remaining([hash] + DEFINE, NOTHING, longest) == if hash.atBol then [hash] + DEFINE else []
  {
    hide ExpandAll;
    var y := DEFINE[1..];
    assert DEFINE == [DEFINE[0]] + y && ([hash] + DEFINE)[1..] == DEFINE && y[1..] == [];
    Passed([hash] + DEFINE, NOTHING, longest);
    Passed(DEFINE, NOTHING, longest);
    Passed(y, NOTHING, longest);
    Nothing(NOTHING);
    NothingRemains(NOTHING, longest);
    assert Remaining(y, NOTHING, longest) == [] && Remaining(DEFINE, NOTHING, longest) == [];
  }

  // "x E", and "# define Y" on the next line: the directive is passed through as text.
  method LostDirective() returns (out: seq<Tok>, rest: seq<Tok>)
    ensures rest == [] && BareAll(out) == BareAll([X, Plain("#", false, false)] + DEFINE)
  {
    hide ExpandAll, Remaining, BareAll, Replaced;
    var e, hash := Plain("E", true, false), Plain("#", false, true);
    var ts := [X] + ([e, hash] + DEFINE);
    var cpp := new Preprocessor(NOTHING);
    out, rest := cpp.Preprocess2(ts);
    LostRest(e, hash);
    assert rest == Remaining(ts, NOTHING, 0);
    Nothing(NOTHING);
    BareNothing(out);
  }

  lemma LostRest(e: Tok, hash: Tok)
    requires e == Plain("E", true, false) && hash == Plain("#", false, true)
    ensures Bounds(NOTHING, 0) && Remaining([X] + ([e, hash] + DEFINE), NOTHING, 0) == []
    ensures BareAll(ExpandAll([X] + ([e, hash] + DEFINE), NOTHING)) == BareAll([X, Plain("#", false, false)] + DEFINE)
  {
    hide ExpandAll, Replaced;
    var list := [e, hash] + DEFINE;
    var moved := hash.(atBol := false, hasSpace := true);
    assert ([X] + list)[1..] == list && list[0] == e;
    Passed([X] + list, NOTHING, 0);
    EmptyMacroHidesDirective(e, hash, DEFINE, NOTHING);
    DefineStays(moved, 0);
    DefineStays(hash, 0);
    assert Remaining(list, NOTHING, 0) == Remaining(Replaced(list, NOTHING), NOTHING, 0);
    assert [X] + ([hash] + DEFINE) == [X, hash] + DEFINE;
  }

  lemma BareNothing(out: seq<Tok>)
    ensures BareAll(out) + BareAll([]) == BareAll(out)
  {}

  // "E # define Y" on one line: it becomes a directive.
  method MadeDirective() returns (out: seq<Tok>, rest: seq<Tok>)
    ensures out == [] && rest == [Plain("#", false, true)] + DEFINE && IsHash(rest[0])
  {
    hide ExpandAll, Remaining, Replaced;
    var e, hash := Plain("E", true, true), Plain("#", false, false);
    var ts := [e, hash] + DEFINE;
    var cpp := new Preprocessor(NOTHING);
    out, rest := cpp.Preprocess2(ts);
    MadeRest(e, hash);
    assert rest == Remaining(ts, NOTHING, 0);
    DefineStays(Plain("#", false, true), 0);
    DefineStays(hash, 0);
    assert |BareAll(ExpandAll(rest, NOTHING))| == |BareAll(ExpandAll(ts, NOTHING))|;
    assert |BareAll(out)| == 0;
  }

  lemma MadeRest(e: Tok, hash: Tok)
    requires e == Plain("E", true, true) && hash == Plain("#", false, false)
    ensures Bounds(NOTHING, 0) && Remaining([e, hash] + DEFINE, NOTHING, 0) == [Plain("#", false, true)] + DEFINE
    ensures ExpandAll([e, hash] + DEFINE, NOTHING) == ExpandAll([hash] + DEFINE, NOTHING)
  {
    hide ExpandAll, Replaced;
    EmptyMacroHidesDirective(e, hash, DEFINE, NOTHING);
    DefineStays(hash.(atBol := true, hasSpace := false), 0);
    assert ([e, hash] + DEFINE)[0] == e;
  }
}
