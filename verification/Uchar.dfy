// The restartable conversions between UTF-8 and UTF-16 or UTF-32.
module Uchar {
  import opened Words
  import opened Utf8

  // ---- one character, byte by byte ---------------------------------------------------------

  lemma DecodeNone()
    ensures Decode([]) == Incomplete
  {}

  // A byte that cannot lead, or cannot follow, makes the sequence malformed.
  lemma DecodeStops(b: seq<Byte8>, i: nat)
    requires i < |b| && (if i == 0 then U8Len(b[0]) == 0 else i < U8Len(b[0]) && !Continues(b[i]))
    ensures Decode(b) == Malformed
  {
    hide U8Len, Combine, Continues;
  }

  lemma DecodeShort(b: seq<Byte8>)
    requires b != [] && |b| < U8Len(b[0]) && forall i | 1 <= i < |b| :: Continues(b[i])
    ensures Decode(b) == Incomplete
  {
    hide U8Len, Combine, Continues;
  }

  lemma DecodeWhole(b: seq<Byte8>)
    requires b != [] && 1 <= U8Len(b[0]) <= |b| && U8Len(b[0]) <= 4
    requires forall i | 1 <= i < U8Len(b[0]) :: Continues(b[i])
    ensures var v := Combine(b[..U8Len(b[0])]);
      Decode(b) == if v.None? then Malformed else Got(v.value, U8Len(b[0]))
  {
    hide U8Len, Combine, Continues;
  }

  // What a conversion returns: (size_t)-1, -2, -3, or a count.
  datatype Ret = Illegal | NeedMore | Again | Count(n: nat)

  class MbState {
    var nbytes: nat
    var explen: nat
    var pending: nat
    const buf: array<Byte8>

    constructor ()
      ensures Valid() && fresh(buf) && Held() == [] && pending == 0
    {
      nbytes, explen, pending := 0, 0, 0;
      buf := new Byte8[4](_ => 0);
    }

    // The buffered bytes start a character whose length is explen.
    ghost predicate Valid()
      reads this, buf
    {
      && buf.Length == 4 && nbytes < 4
      && (nbytes > 0 ==> explen == U8Len(buf[0]) && IsPartial(buf[..nbytes]))
    }

    ghost function Held(): seq<Byte8>
      requires Valid()
      reads this, buf
    {
      buf[..nbytes]
    }

    // decode_stream: what the held bytes and the input together decide.
    method DecodeStream(s: seq<Byte8>) returns (r: Ret, cp: nat)
      requires Valid()
      modifies this`nbytes, this`explen, buf
      ensures Valid()
      ensures match Decode(old(Held()) + s)
              case Incomplete => r == NeedMore && Held() == old(Held()) + s
              case Malformed => r == Illegal && Held() == []
              case Got(v, len) => cp == v && |old(Held())| < len && r == Count(len - |old(Held())|) && Held() == []
    {
      hide Combine, U8Len, Decode, Continues;
      DecodeNone();
      ghost var held, all := Held(), Held() + s;
      cp := 0;
      var used := 0;
      if nbytes == 0 {
        assert all == s;
        if |s| == 0 { return NeedMore, 0; }
        var b0 := s[0];
        var len := U8Len(b0);
        LenBound(b0);
        if len == 0 {
          DecodeStops(all, 0);
          return Illegal, 0;
        }
        buf[0] := b0;
        nbytes, explen := 1, len;
        used := 1;
        assert buf[..1] == all[..1];
      } else {
        assert all[..nbytes] == held;
        LenBound(buf[0]);
      }
      while nbytes < explen
        invariant 0 < nbytes <= explen <= 4 && explen == U8Len(all[0]) && buf.Length == 4
        invariant used <= |s| && nbytes == |held| + used && buf[..nbytes] == all[..nbytes]
        invariant forall i | 1 <= i < nbytes :: Continues(all[i])
      {
        if used == |s| {
          assert all[..nbytes] == all;
          DecodeShort(all);
          return NeedMore, 0;
        }
        var b := s[used];
        assert b == all[nbytes];
        if !Continues(b) {
          DecodeStops(all, nbytes);
          nbytes := 0;
          return Illegal, 0;
        }
        buf[nbytes] := b;
        nbytes := nbytes + 1;
        assert buf[..nbytes] == buf[..nbytes - 1] + [b] && all[..nbytes] == all[..nbytes - 1] + [b];
        used := used + 1;
      }
      assert all[..explen] == buf[..explen];
      DecodeWhole(all);
      var v := Combine(buf[..explen]);
      nbytes := 0;
      if v.None? { return Illegal, 0; }
      r, cp := Count(used), v.value;
    }

    // mbrtoc32. A null string resets the state.
    method Mbrtoc32(s: Option<seq<Byte8>>) returns (r: Ret, cp: nat)
      requires Valid()
      modifies this, buf
      ensures Valid() && pending == if s.None? then 0 else old(pending)
      ensures s.None? ==> r == Count(0) && Held() == []
      ensures s.Some? ==>
        match Decode(old(Held()) + s.value)
        case Incomplete => r == NeedMore && Held() == old(Held()) + s.value
        case Malformed => r == Illegal && Held() == []
        case Got(v, len) =>
          cp == v && |old(Held())| < len && Held() == []
          && r == Count(if v == 0 then 0 else len - |old(Held())|)
    {
      if s.None? {
        nbytes, pending := 0, 0;
        return Count(0), 0;
      }
      r, cp := DecodeStream(s.value);
      if r.Count? && cp == 0 { r := Count(0); }
    }

    // mbrtoc16: a second unit, when there is one, is kept for the next call, whatever its
    // string. Otherwise a null string resets the state.
    method Mbrtoc16(s: Option<seq<Byte8>>) returns (r: Ret, unit: nat)
      requires Valid()
      modifies this, buf
      ensures Valid()
      ensures old(pending) != 0 ==> r == Again && unit == old(pending) && pending == 0 && Held() == old(Held())
      ensures old(pending) == 0 && s.None? ==> r == Count(0) && Held() == [] && pending == 0
      ensures old(pending) == 0 && s.Some? ==>
        match Decode(old(Held()) + s.value)
        case Incomplete => r == NeedMore && Held() == old(Held()) + s.value && pending == 0
        case Malformed => r == Illegal && Held() == [] && pending == 0
        case Got(v, len) =>
          |old(Held())| < len && Held() == [] && unit == Utf16(v)[0]
          && pending == (if v > 0xFFFF then Utf16(v)[1] else 0)
          && r == Count(if v == 0 then 0 else len - |old(Held())|)
    {
      if pending != 0 {
        unit, pending := pending, 0;
        return Again, unit;
      }
      if s.None? {
        nbytes := 0;
        return Count(0), 0;
      }
      var cp;
      r, cp := DecodeStream(s.value);
      unit := 0;
      if r.Count? {
        if cp > 0xFFFF {
          cp := cp - 0x10000;
          unit, pending := 0xD800 + cp / 1024, 0xDC00 + cp % 1024;
        } else {
          unit := cp;
          if cp == 0 { r := Count(0); }
        }
      }
    }

    // c32rtomb; `nobuf` when there is no buffer.
    method C32rtomb(nobuf: bool, c32: nat) returns (r: Ret, s: seq<Byte8>)
      ensures nobuf ==> r == Count(1) && s == []
      ensures !nobuf && IsScalar(c32) ==> s == EncodeUtf8(c32) && r == Count(|s|)
      ensures !nobuf && !IsScalar(c32) ==> r == Illegal && s == []
    {
      if nobuf { return Count(1), []; }
      if c32 > 0x10FFFF || (0xD800 <= c32 <= 0xDFFF) { return Illegal, []; }
      s := EncodeUtf8(c32);
      r := Count(|s|);
    }

    // c16rtomb: a high surrogate is held; `Step16` says what each unit does. Without a
    // buffer the state is reset.
    method C16rtomb(nobuf: bool, c16: nat) returns (r: Ret, s: seq<Byte8>)
      requires c16 <= 0xFFFF && (pending == 0 || IsHigh(pending))
      modifies this`pending
      ensures nobuf ==> pending == 0 && r == Count(1) && s == []
      ensures var (p, out) := Step16(old(pending), c16);
        !nobuf ==> pending == p && (if out.None? then r == Illegal && s == [] else s == out.value && r == Count(|s|))
    {
      s := [];
      if nobuf {
        pending := 0;
        return Count(1), [];
      }
      if 0xD800 <= c16 <= 0xDBFF {
        pending := c16;
        return Count(0), [];
      }
      if 0xDC00 <= c16 <= 0xDFFF {
        if pending < 0xD800 || pending > 0xDBFF { return Illegal, []; }
        var cp := 0x10000 + (pending - 0xD800) * 1024 + (c16 - 0xDC00);
        pending := 0;
        s := EncodeUtf8(cp);
        return Count(|s|), s;
      }
      if pending != 0 { return Illegal, []; }
      s := EncodeUtf8(c16);
      r := Count(|s|);
    }
  }

  // ---- streams in chunks -------------------------------------------------------------------------

  function Concat(chunks: seq<seq<Byte8>>): seq<Byte8> { if chunks == [] then [] else chunks[0] + Concat(chunks[1..]) }

  // Feeding a byte string to mbrtoc32 in any chunks gives the code points and the verdict
  // of the whole string. Input stops at the first error.
  method DecodeChunks(chunks: seq<seq<Byte8>>) returns (cps: seq<nat>, end: End)
    ensures (cps, end) == DecodeAll(Concat(chunks))
  {
    hide Decode;
    var ps := new MbState();
    cps := [];
    var i := 0;
    assert chunks[0..] == chunks && ps.Held() + Concat(chunks) == Concat(chunks);
    assert [] + DecodeAll(Concat(chunks)).0 == DecodeAll(Concat(chunks)).0;
    while i < |chunks|
      invariant i <= |chunks| && ps.Valid() && fresh(ps) && fresh(ps.buf)
      invariant Prefixed(cps, DecodeAll(ps.Held() + Concat(chunks[i..]))) == DecodeAll(Concat(chunks))
    {
      assert chunks[i..][0] == chunks[i] && chunks[i..][1..] == chunks[i + 1..];
      ghost var later := Concat(chunks[i + 1..]);
      assert ps.Held() + (chunks[i] + later) == ps.Held() + chunks[i] + later;
      var stop;
      cps, stop := FeedChunk(ps, chunks[i], cps, later);
      if stop { return cps, Error; }
      i := i + 1;
    }
    assert chunks[i..] == [] && ps.Held() + Concat([]) == ps.Held();
    PartialIs(ps.Held());
    end := if ps.nbytes == 0 then Clean else Partial;
    assert ps.nbytes == 0 <==> ps.Held() == [];
    LastPiece(ps.Held(), cps);
  }

  // One chunk, in as many calls as it takes; `later` is the input still to come.
  method FeedChunk(ps: MbState, s: seq<Byte8>, cps0: seq<nat>, ghost later: seq<Byte8>) returns (cps: seq<nat>, stop: bool)
    requires ps.Valid()
    modifies ps, ps.buf
    ensures ps.Valid()
    ensures !stop ==>
      Prefixed(cps, DecodeAll(ps.Held() + later)) == Prefixed(cps0, DecodeAll(old(ps.Held()) + s + later))
    ensures stop ==> (cps, Error) == Prefixed(cps0, DecodeAll(old(ps.Held()) + s + later))
  {
    hide Decode, DecodeAll;
    cps, stop := cps0, false;
    var rest := s;
    ghost var goal := Prefixed(cps0, DecodeAll(ps.Held() + s + later));
    while |rest| > 0 && !stop
      invariant ps.Valid()
      invariant !stop ==> Prefixed(cps, DecodeAll(ps.Held() + rest + later)) == goal
      invariant stop ==> (cps, Error) == goal
      decreases |rest|, !stop
    {
      ghost var held := ps.Held();
      ghost var all := held + rest;
      assert held == [] || IsPartial(held);
      var r, cp := ps.Mbrtoc32(Some(rest));
      if r.Illegal? {
        DecodePrefix(all, later);
        ErrorEnds(all + later, cps);
        stop := true;
      } else if r.NeedMore? {
        assert ps.Held() + [] + later == all + later;
        rest := [];
      } else {
        // NUL is reported as 0 bytes and is one byte long.
        GotFits(all);
        NulIsOne(all);
        if held != [] { HeldIsNotNul(held, rest); }
        var used := if cp == 0 then 1 else r.n;
        DecodePrefix(all, later);
        TakeOne(all + later, cps);
        cps := cps + [cp];
        assert (all + later)[Decode(all).len..] == rest[used..] + later;
        rest := rest[used..];
        assert ps.Held() + rest + later == rest + later;
      }
    }
    if !stop { assert ps.Held() + [] + later == ps.Held() + later; }
  }

  function Prefixed(cps: seq<nat>, d: (seq<nat>, End)): (seq<nat>, End) { (cps + d.0, d.1) }

  lemma ErrorEnds(b: seq<Byte8>, cps: seq<nat>)
    requires Decode(b).Malformed?
    ensures Prefixed(cps, DecodeAll(b)) == (cps, Error)
  {
    assert b != [];
    assert cps + [] == cps;
  }

  lemma TakeOne(b: seq<Byte8>, cps: seq<nat>)
    requires Decode(b).Got?
    ensures 0 < Decode(b).len <= |b|
    ensures Prefixed(cps, DecodeAll(b)) == Prefixed(cps + [Decode(b).cp], DecodeAll(b[Decode(b).len..]))
  {
    hide Decode;
    GotFits(b);
    var rest := DecodeAll(b[Decode(b).len..]).0;
    assert b != [];
    assert cps + ([Decode(b).cp] + rest) == cps + [Decode(b).cp] + rest;
  }

  lemma LastPiece(b: seq<Byte8>, cps: seq<nat>)
    requires Decode(b).Incomplete?
    ensures Prefixed(cps, DecodeAll(b)) == (cps, if b == [] then Clean else Partial)
  {
    assert cps + [] == cps;
  }

  lemma NulIsOne(b: seq<Byte8>)
    requires Decode(b).Got?
    ensures Decode(b).cp == 0 ==> Decode(b).len == 1
  {
    hide IsUtf8Char, Decode;
    GotFits(b);
    AcceptsGrammar(b, Decode(b).len);
  }

  lemma HeldIsNotNul(held: seq<Byte8>, s: seq<Byte8>)
    requires held != [] && IsPartial(held) && Decode(held + s).Got?
    ensures Decode(held + s).cp != 0
  {
    NulIsOne(held + s);
    assert (held + s)[0] == held[0];
  }

  // ---- UTF-16 streams --------------------------------------------------------------------------------

  // One unit: the surrogate held afterwards, and the bytes written, or an error.
  function Step16(pending: nat, c16: nat): (nat, Option<seq<Byte8>>)
    requires c16 <= 0xFFFF && (pending == 0 || IsHigh(pending))
  {
    if IsHigh(c16) then (c16, Some([]))
    else if IsLow(c16) then
      if pending == 0 then (pending, None)
      else
        PairIsScalar(pending, c16);
        (0, Some(EncodeUtf8(FromPair(pending, c16))))
    else if pending != 0 then (pending, None)
    else (0, Some(EncodeUtf8(c16)))
  }

  predicate Units(us: seq<nat>) { forall i | 0 <= i < |us| :: us[i] <= 0xFFFF }

  // A run of c16rtomb from `pending` over all units: the bytes, or None at an error, or at
  // the end with a surrogate still held.
  function Bytes16(us: seq<nat>, pending: nat): Option<seq<Byte8>>
    requires Units(us) && (pending == 0 || IsHigh(pending))
  {
    if us == [] then (if pending == 0 then Some([]) else None)
    else
      var (p, out) := Step16(pending, us[0]);
      if out.None? then None
      else
        var rest := Bytes16(us[1..], p);
        if rest.None? then None else Some(out.value + rest.value)
  }

  lemma UnitsOf(cp: nat)
    requires IsScalar(cp)
    ensures Units(Utf16(cp))
    ensures cp > 0xFFFF ==> IsHigh(Utf16(cp)[0]) && IsLow(Utf16(cp)[1]) && FromPair(Utf16(cp)[0], Utf16(cp)[1]) == cp
    ensures cp <= 0xFFFF ==> !IsHigh(cp) && !IsLow(cp)
  {
    if cp > 0xFFFF { PairInverse(cp); }
  }

  // Through surrogate pairs and back to bytes.
  lemma {:induction false} UnitsRebuildBytes(cps: seq<nat>)
    requires AllScalar(cps)
    ensures Units(Utf16All(cps)) && Bytes16(Utf16All(cps), 0) == Some(EncodeAll(cps))
  {
    hide EncodeUtf8, FromPair, Bytes16, Utf16, IsHigh, IsLow;
    if cps == [] {
      NoUnits();
    } else {
      assert AllScalar(cps[1..]);
      UnitsRebuildBytes(cps[1..]);
      UnitsOf(cps[0]);
      OneScalar(cps[0], Utf16All(cps[1..]), EncodeAll(cps[1..]));
    }
  }

  lemma NoUnits()
    ensures Bytes16([], 0) == Some([])
  {}

  // One code point in front of units that give the bytes `more`.
  lemma OneScalar(cp: nat, rest: seq<nat>, more: seq<Byte8>)
    requires IsScalar(cp) && Units(rest) && Bytes16(rest, 0) == Some(more)
    ensures Units(Utf16(cp) + rest) && Bytes16(Utf16(cp) + rest, 0) == Some(EncodeUtf8(cp) + more)
  {
    hide EncodeUtf8, FromPair;
    UnitsOf(cp);
    var us := Utf16(cp);
    var all := us + rest;
    if cp > 0xFFFF {
      assert all[0] == us[0] && all[1..] == [us[1]] + rest && all[1..][1..] == rest;
      var e := EncodeUtf8(cp);
      assert Bytes16(all[1..], us[0]) == Some(e + more);
      assert [] + (e + more) == e + more;
    } else {
      assert all[0] == us[0] && all[1..] == rest;
    }
  }

  // A well-formed UTF-16 string: every high surrogate is followed by a low one, every low
  // one follows a high one.
  predicate WellFormed16(us: seq<nat>) {
    us == []
    || (if IsHigh(us[0]) then |us| > 1 && IsLow(us[1]) && WellFormed16(us[2..])
        else !IsLow(us[0]) && WellFormed16(us[1..]))
  }

  predicate HighPair(us: seq<nat>, i: nat)
    requires i + 1 < |us|
  {
    IsHigh(us[i]) && IsHigh(us[i + 1])
  }

  predicate NoTwoHighs(us: seq<nat>) { forall i: nat | i + 1 < |us| :: !HighPair(us, i) }

  // The string without the high surrogates that another one follows.
  function Collapse(us: seq<nat>): seq<nat> {
    if |us| < 2 then us
    else if IsHigh(us[0]) && IsHigh(us[1]) then Collapse(us[1..])
    else [us[0]] + Collapse(us[1..])
  }

  lemma {:induction false} CollapseUnits(us: seq<nat>)
    requires Units(us)
    ensures Units(Collapse(us)) && (us != [] ==> Collapse(us) != [] && (IsHigh(Collapse(us)[0]) <==> IsHigh(us[0])))
    ensures us != [] && !IsHigh(us[0]) ==> Collapse(us)[0] == us[0]
  {
    if |us| >= 2 { CollapseUnits(us[1..]); }
  }

  // A high surrogate that another one follows is dropped, without an error.
  lemma {:induction false} Dropped(us: seq<nat>, pending: nat)
    requires Units(us) && (pending == 0 || IsHigh(pending))
    ensures Units(Collapse(us)) && Bytes16(us, pending) == Bytes16(Collapse(us), pending)
    decreases |us|
  {
    hide EncodeUtf8, FromPair;
    CollapseUnits(us);
    if |us| >= 2 {
      if IsHigh(us[0]) && IsHigh(us[1]) {
        TwoHighs(us, pending);
        Dropped(us[1..], pending);
      } else {
        var tail := Collapse(us[1..]);
        assert ([us[0]] + tail)[1..] == tail;
        StepHigh(pending, us[0]);
        Dropped(us[1..], Step16(pending, us[0]).0);
      }
    }
  }

  lemma TwoHighs(us: seq<nat>, pending: nat)
    requires Units(us) && (pending == 0 || IsHigh(pending)) && |us| >= 2 && HighPair(us, 0)
    ensures Bytes16(us, pending) == Bytes16(us[1..], pending)
  {
    hide EncodeUtf8, FromPair;
    var rest := Bytes16(us[1..][1..], us[1]);
    if rest.Some? { assert [] + ([] + rest.value) == [] + rest.value; }
  }

  // What is accepted is what is well-formed once those are dropped, whatever the string.
  lemma {:induction false} AcceptsCollapsed(us: seq<nat>, pending: nat)
    requires Units(us) && (pending == 0 || IsHigh(pending))
    ensures Bytes16(us, pending).Some? <==> WellFormed16(Collapse(if pending == 0 then us else [pending] + us))
    decreases |us|
  {
    hide EncodeUtf8, FromPair;
    var all := [pending] + us;
    assert all[1..] == us;
    if us != [] {
      CollapseUnits(us);
      var a, rest := us[0], us[1..];
      assert us == [a] + rest;
      StepHigh(pending, a);
      AcceptsCollapsed(rest, Step16(pending, a).0);
      CollapseHead(us);
      if pending != 0 { CollapseHead(all); }
    }
  }

  lemma CollapseHead(us: seq<nat>)
    requires Units(us) && us != []
    ensures IsHigh(us[0]) && |us| > 1 && IsLow(us[1]) ==>
      (WellFormed16(Collapse(us)) <==> WellFormed16(Collapse(us[2..])))
    ensures IsHigh(us[0]) && (|us| == 1 || !(IsHigh(us[1]) || IsLow(us[1]))) ==> !WellFormed16(Collapse(us))
    ensures IsHigh(us[0]) && |us| > 1 && IsHigh(us[1]) ==> Collapse(us) == Collapse(us[1..])
    ensures IsLow(us[0]) ==> !WellFormed16(Collapse(us))
    ensures !IsHigh(us[0]) && !IsLow(us[0]) ==> (WellFormed16(Collapse(us)) <==> WellFormed16(Collapse(us[1..])))
  {
    if |us| > 1 {
      CollapseUnits(us[1..]);
      var tail := Collapse(us[1..]);
      if !HighPair(us, 0) {
        assert ([us[0]] + tail)[1..] == tail && ([us[0]] + tail)[2..] == tail[1..];
        if IsHigh(us[0]) && IsLow(us[1]) {
          if |us| > 2 { assert us[1..][1..] == us[2..]; } else { assert us[2..] == [] && tail[1..] == []; }
        }
      }
    }
  }

  lemma {:induction false} CollapseKeeps(us: seq<nat>)
    ensures NoTwoHighs(us) ==> Collapse(us) == us
    ensures !NoTwoHighs(us) ==> !WellFormed16(us)
    decreases |us|
  {
    if |us| >= 2 {
      CollapseKeeps(us[1..]);
      PairsInTail(us);
      if |us| >= 3 {
        CollapseKeeps(us[2..]);
        assert us[1..][1..] == us[2..];
        PairsInTail(us[1..]);
      }
    }
  }

  lemma PairsInTail(us: seq<nat>)
    requires |us| >= 2
    ensures NoTwoHighs(us) <==> !HighPair(us, 0) && NoTwoHighs(us[1..])
  {
    forall i: nat | i + 1 < |us[1..]| ensures HighPair(us[1..], i) <==> HighPair(us, i + 1) {}
    if !HighPair(us, 0) && NoTwoHighs(us[1..]) {
      forall i: nat | i + 1 < |us| ensures !HighPair(us, i) { if i > 0 { assert !HighPair(us[1..], i - 1); } }
    }
  }

  // c16rtomb accepts exactly well-formed UTF-16 on a string if and only if no two high
  // surrogates meet in it, or it is ill-formed even without those that another one follows.
  lemma AcceptsWellFormedIff(us: seq<nat>)
    requires Units(us)
    ensures (Bytes16(us, 0).Some? <==> WellFormed16(us)) <==> NoTwoHighs(us) || !WellFormed16(Collapse(us))
  {
    hide EncodeUtf8, FromPair;
    AcceptsCollapsed(us, 0);
    CollapseKeeps(us);
  }

  // "A", two high surrogates and a low one: accepted as "A" and the pair.
  lemma StrayHighAccepted()
    ensures var us := [0x41, 0xD800, 0xD801, 0xDC00];
      Units(us) && !WellFormed16(us) && Bytes16(us, 0) == Some([0x41] + EncodeUtf8(0x10400))
  {
    var us, cps := [0x41, 0xD800, 0xD801, 0xDC00], [0x41, 0x10400];
    assert EncodeUtf8(0x41) == [0x41];
    hide EncodeUtf8;
    Dropped(us, 0);
    assert us[1..] == [0xD800, 0xD801, 0xDC00] && us[1..][1..] == [0xD801, 0xDC00];
    assert Collapse([0xD801, 0xDC00]) == [0xD801, 0xDC00] by { assert [0xD801, 0xDC00][1..] == [0xDC00]; }
    assert Collapse(us) == [0x41, 0xD801, 0xDC00];
    UnitsRebuildBytes(cps);
    assert cps[1..] == [0x10400] && cps[1..][1..] == [];
    assert Utf16(0x10400) == [0xD801, 0xDC00] && Utf16(0x41) == [0x41];
    assert Utf16All(cps) == [0x41, 0xD801, 0xDC00];
    assert EncodeAll(cps) == [0x41] + EncodeUtf8(0x10400);
  }

  // mbrtoc16 over a whole string, then c16rtomb over its units, rebuilds the string.
  method Through16(b: seq<Byte8>) returns (us: seq<nat>, back: seq<Byte8>)
    requires DecodeAll(b).1 == Clean
    ensures us == Utf16All(DecodeAll(b).0) && back == b
  {
    hide Decode, Utf16, EncodeUtf8;
    EncodeAllInverts(b);
    us := ToUnits(b);
    UnitsRebuildBytes(DecodeAll(b).0);
    back := FromUnits(us);
  }

  method ToUnits(b: seq<Byte8>) returns (us: seq<nat>)
    requires DecodeAll(b).1 == Clean
    ensures us == Utf16All(DecodeAll(b).0)
  {
    hide Decode, Utf16;
    var ps := new MbState();
    us := [];
    var rest := b;
    while |rest| > 0 || ps.pending != 0
      invariant ps.Valid() && fresh(ps) && fresh(ps.buf) && ps.Held() == []
      invariant DecodeAll(rest).1 == Clean
      invariant us + (if ps.pending != 0 then [ps.pending] else []) + Utf16All(DecodeAll(rest).0) == Utf16All(DecodeAll(b).0)
      decreases |rest|, ps.pending
    {
      assert [] + rest == rest;
      ghost var waiting := ps.pending;
      if waiting == 0 { CleanGot(rest); NulIsOne(rest); UnitShape(Decode(rest).cp); }
      var r, unit := ps.Mbrtoc16(Some(rest));
      us := us + [unit];
      if r.Count? {
        rest := rest[if unit == 0 && r.n == 0 then 1 else r.n..];
      }
    }
  }

  lemma CleanGot(b: seq<Byte8>)
    requires b != [] && DecodeAll(b).1 == Clean
    ensures Decode(b).Got? && 0 < Decode(b).len <= |b| && DecodeAll(b[Decode(b).len..]).1 == Clean
    ensures IsScalar(Decode(b).cp)
    ensures Utf16All(DecodeAll(b).0) == Utf16(Decode(b).cp) + Utf16All(DecodeAll(b[Decode(b).len..]).0)
  {
    hide Decode, Utf16;
    if Decode(b).Got? { GotFits(b); AcceptsGrammar(b, Decode(b).len); }
    var rest := DecodeAll(b[Decode(b).len..]).0;
    assert ([Decode(b).cp] + rest)[1..] == rest;
  }

  lemma UnitShape(cp: nat)
    requires IsScalar(cp)
    ensures Utf16(cp) == if cp > 0xFFFF then [Utf16(cp)[0], Utf16(cp)[1]] else [Utf16(cp)[0]]
    ensures cp > 0xFFFF ==> Utf16(cp)[1] > 0 && Utf16(cp)[0] > 0
    ensures cp <= 0xFFFF ==> Utf16(cp)[0] == cp
  {}

  method FromUnits(us: seq<nat>) returns (b: seq<Byte8>)
    requires Units(us) && Bytes16(us, 0).Some?
    ensures Bytes16(us, 0) == Some(b)
  {
    hide EncodeUtf8, Step16;
    var ps := new MbState();
    b := [];
    var i := 0;
    assert us[0..] == us;
    while i < |us|
      invariant i <= |us| && fresh(ps) && (ps.pending == 0 || IsHigh(ps.pending))
      invariant Bytes16(us[i..], ps.pending).Some?
      invariant b + Bytes16(us[i..], ps.pending).value == Bytes16(us, 0).value
    {
      assert us[i..][0] == us[i] && us[i..][1..] == us[i + 1..];
      StepHigh(ps.pending, us[i]);
      var r, s := ps.C16rtomb(false, us[i]);
      b := b + s;
      i := i + 1;
    }
    assert us[i..] == [];
    LastUnits(ps.pending);
    assert b + [] == b;
  }

  lemma LastUnits(pending: nat)
    requires pending == 0 || IsHigh(pending)
    ensures Bytes16([], pending).Some? ==> Bytes16([], pending).value == []
  {}

  lemma StepHigh(pending: nat, c16: nat)
    requires c16 <= 0xFFFF && (pending == 0 || IsHigh(pending))
    ensures Step16(pending, c16).0 == 0 || IsHigh(Step16(pending, c16).0)
  {
    hide EncodeUtf8;
  }

  // E0 80: more is asked for, and nothing that could follow makes a character.
  method HopelessHeld() returns (r: Ret)
    ensures r == NeedMore && forall c: seq<Byte8> :: !Decode([0xE0, 0x80] + c).Got?
  {
    hide Decode;
    var held: seq<Byte8> := [0xE0, 0x80];
    HopelessPair(held);
    PotentialIff(held);
    var ps := new MbState();
    var cp;
    assert ps.Held() + held == held;
    r, cp := ps.Mbrtoc32(Some(held));
  }

  lemma HopelessPair(b: seq<Byte8>)
    requires b == [0xE0, 0x80]
    ensures Decode(b).Incomplete? && Hopeless(b)
  {
    PartialIs(b);
  }
}
