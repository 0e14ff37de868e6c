// UTF-8 and UTF-16 code sequences, the library's encoder and sequence decoder, and the
// grammar of section 4 of RFC 3629.
module Utf8 {
  import opened Words

  type Byte8 = b: nat | b < 256

  // Code points that have an encoding.
  predicate IsScalar(cp: nat) { cp <= 0x10FFFF && !(0xD800 <= cp <= 0xDFFF) }

  predicate IsTail(b: Byte8) { 0x80 <= b <= 0xBF }

  // One character by the grammar of section 4 of RFC 3629.
  predicate IsUtf8Char(b: seq<Byte8>) {
    || (|b| == 1 && b[0] <= 0x7F)
    || (|b| == 2 && 0xC2 <= b[0] <= 0xDF && IsTail(b[1]))
    || (|b| == 3 && IsTail(b[2])
        && ((b[0] == 0xE0 && 0xA0 <= b[1] <= 0xBF)
            || (0xE1 <= b[0] <= 0xEC && IsTail(b[1]))
            || (b[0] == 0xED && 0x80 <= b[1] <= 0x9F)
            || (0xEE <= b[0] <= 0xEF && IsTail(b[1]))))
    || (|b| == 4 && IsTail(b[2]) && IsTail(b[3])
        && ((b[0] == 0xF0 && 0x90 <= b[1] <= 0xBF)
            || (0xF1 <= b[0] <= 0xF3 && IsTail(b[1]))
            || (b[0] == 0xF4 && 0x80 <= b[1] <= 0x8F)))
  }

  // ---- the library ---------------------------------------------------------------------------

  // Sequence length from the lead byte; 0 for a byte that cannot lead. The masks of the
  // source are the high bits of the byte.
  function U8Len(b: Byte8): nat {
    if b < 0x80 then 1 else if b / 32 == 6 then 2 else if b / 16 == 14 then 3 else if b / 8 == 30 then 4 else 0
  }

  predicate Continues(b: Byte8) { b / 64 == 2 }

  // The bits of a byte below 2^k = m.
  function Low(b: Byte8, m: nat): nat
    requires m > 0
  {
    b % m
  }

  // The value of a full sequence, before it is checked.
  function Value(b: seq<Byte8>): nat
    requires 1 <= |b| <= 4
  {
    if |b| == 1 then b[0]
    else if |b| == 2 then Low(b[0], 32) * 64 + Low(b[1], 64)
    else if |b| == 3 then Low(b[0], 16) * 4096 + Low(b[1], 64) * 64 + Low(b[2], 64)
    else Low(b[0], 8) * 262144 + Low(b[1], 64) * 4096 + Low(b[2], 64) * 64 + Low(b[3], 64)
  }

  function MinValue(len: nat): nat { if len == 2 then 0x80 else if len == 3 then 0x800 else if len == 4 then 0x10000 else 0 }

  function Combine(b: seq<Byte8>): Option<nat>
    requires 1 <= |b| <= 4
  {
    var v := Value(b);
    if v < MinValue(|b|) || v > 0x10FFFF || 0xD800 <= v <= 0xDFFF then None else Some(v)
  }

  function EncodeUtf8(cp: nat): seq<Byte8>
    requires cp <= 0x10FFFF
  {
    if cp < 0x80 then [cp]
    else if cp < 0x800 then [0xC0 + cp / 64, 0x80 + cp % 64]
    else if cp < 0x10000 then [0xE0 + cp / 4096, 0x80 + cp / 64 % 64, 0x80 + cp % 64]
    else [0xF0 + cp / 262144, 0x80 + cp / 4096 % 64, 0x80 + cp / 64 % 64, 0x80 + cp % 64]
  }

  // ---- what the decoder sees from the first byte of a character --------------------------------

  datatype Decoded = Incomplete | Malformed | Got(cp: nat, len: nat)

  // Bytes 1, 2, ... of a sequence of length `len` that have arrived continue it.
  predicate TailsOk(b: seq<Byte8>, len: nat) { forall i | 1 <= i < |b| && i < len :: Continues(b[i]) }

  // A lead byte and as many continuation bytes as have arrived of those it announces.
  predicate IsPartial(b: seq<Byte8>) { b == [] || (|b| < U8Len(b[0]) && TailsOk(b, |b|)) }

  function Decode(b: seq<Byte8>): Decoded {
    if b == [] then Incomplete
    else
      var len := U8Len(b[0]);
      if len == 0 || !TailsOk(b, len) then Malformed
      else if |b| < len then Incomplete
      else
        var v := Combine(b[..len]);
        if v.None? then Malformed else Got(v.value, len)
  }

  // ---- the decoder accepts exactly the grammar, and inverts the encoder -----------------------------

  lemma LeadBits(b: Byte8)
    ensures Continues(b) <==> IsTail(b)
    ensures U8Len(b) == if b < 0x80 then 1 else if b < 0xC0 then 0 else if b < 0xE0 then 2 else if b < 0xF0 then 3
                        else if b < 0xF8 then 4 else 0
  {}

  // A number from its digits to the base 64, and back.
  lemma Digits(x: nat, y: nat, z: nat, w: nat)
    requires y < 64 && z < 64 && w < 64
    ensures var v := x * 262144 + y * 4096 + z * 64 + w;
      v / 262144 == x && v / 4096 % 64 == y && v / 64 % 64 == z && v % 64 == w && v / 4096 == x * 64 + y
  {
    var v := x * 262144 + y * 4096 + z * 64 + w;
    assert v / 64 == x * 4096 + y * 64 + z;
    assert v / 4096 == x * 64 + y;
  }

  lemma FromDigits(v: nat)
    ensures v == v / 262144 * 262144 + v / 4096 % 64 * 4096 + v / 64 % 64 * 64 + v % 64
    ensures v / 4096 == v / 262144 * 64 + v / 4096 % 64
  {
    assert v / 64 / 64 == v / 4096;
    assert v / 4096 / 64 == v / 262144;
  }

  lemma ShortForms(b: seq<Byte8>)
    requires 1 <= |b| <= 2 && U8Len(b[0]) == |b| && TailsOk(b, |b|)
    ensures Combine(b).Some? <==> IsUtf8Char(b)
    ensures Combine(b).Some? ==> IsScalar(Value(b)) && EncodeUtf8(Value(b)) == b
  {
    LeadBits(b[0]);
    if |b| == 2 { LeadBits(b[1]); }
  }

  lemma LowBits(b: Byte8, m: nat, x: nat)
    requires (m == 8 && b == 0xF0 + x && x < 8) || (m == 16 && b == 0xE0 + x && x < 16) || (m == 64 && b == 0x80 + x && x < 64)
    ensures Low(b, m) == x
  {}

  lemma ThreeByteForms(b: seq<Byte8>)
    requires |b| == 3 && U8Len(b[0]) == 3 && TailsOk(b, 3)
    ensures Combine(b).Some? <==> IsUtf8Char(b)
    ensures Combine(b).Some? ==> IsScalar(Value(b)) && EncodeUtf8(Value(b)) == b
  {
    hide Low, U8Len, Continues;
    LeadBits(b[0]);
    LeadBits(b[1]);
    LeadBits(b[2]);
    var x: int, y: int, z: int := b[0] - 0xE0, b[1] - 0x80, b[2] - 0x80;
    LowBits(b[0], 16, x);
    LowBits(b[1], 64, y);
    LowBits(b[2], 64, z);
    assert Value(b) == x * 4096 + y * 64 + z;
    Digits(0, x, y, z);
  }

  lemma FourByteForms(b: seq<Byte8>)
    requires |b| == 4 && U8Len(b[0]) == 4 && TailsOk(b, 4)
    ensures Combine(b).Some? <==> IsUtf8Char(b)
    ensures Combine(b).Some? ==> IsScalar(Value(b)) && EncodeUtf8(Value(b)) == b
  {
    hide Low, U8Len, Continues;
    LeadBits(b[0]);
    LeadBits(b[1]);
    LeadBits(b[2]);
    LeadBits(b[3]);
    var x: int, y: int, z: int, w: int := b[0] - 0xF0, b[1] - 0x80, b[2] - 0x80, b[3] - 0x80;
    LowBits(b[0], 8, x);
    LowBits(b[1], 64, y);
    LowBits(b[2], 64, z);
    LowBits(b[3], 64, w);
    assert Value(b) == x * 262144 + y * 4096 + z * 64 + w;
    Digits(x, y, z, w);
  }

  lemma CharShape(b: seq<Byte8>)
    requires IsUtf8Char(b)
    ensures 1 <= |b| <= 4 && U8Len(b[0]) == |b| && TailsOk(b, |b|)
  {
    LeadBits(b[0]);
    forall i | 1 <= i < |b| ensures Continues(b[i]) { LeadBits(b[i]); }
  }

  // A character is decoded from the front of `b` exactly when its bytes are one by the
  // grammar; its value is a scalar whose encoding is those bytes.
  lemma AcceptsGrammar(b: seq<Byte8>, n: nat)
    requires n <= |b|
    ensures (Decode(b).Got? && Decode(b).len == n) <==> IsUtf8Char(b[..n])
    ensures Decode(b).Got? ==> Decode(b).len <= |b| && IsScalar(Decode(b).cp) && EncodeUtf8(Decode(b).cp) == b[..Decode(b).len]
  {
    hide IsUtf8Char, Combine, EncodeUtf8, U8Len, Value;
    if b != [] {
      var len := U8Len(b[0]);
      LenBound(b[0]);
      if 0 < len <= |b| && TailsOk(b, len) {
        var c := b[..len];
        assert U8Len(c[0]) == len && TailsOk(c, len);
        Forms(c);
        if Combine(c).Some? { CombineIs(c); }
      }
      if IsUtf8Char(b[..n]) {
        CharShape(b[..n]);
        assert b[..n][0] == b[0];
        forall i | 1 <= i < n ensures b[i] == b[..n][i] {}
      }
    } else {
      NoChar();
      assert b[..n] == [];
    }
  }

  lemma NoChar()
    ensures !IsUtf8Char([])
  {}

  lemma LenBound(b: Byte8)
    ensures U8Len(b) <= 4
  {}

  lemma CombineIs(b: seq<Byte8>)
    requires 1 <= |b| <= 4 && Combine(b).Some?
    ensures Combine(b).value == Value(b)
  {}

  lemma Forms(b: seq<Byte8>)
    requires 1 <= |b| <= 4 && U8Len(b[0]) == |b| && TailsOk(b, |b|)
    ensures Combine(b).Some? <==> IsUtf8Char(b)
    ensures Combine(b).Some? ==> IsScalar(Value(b)) && EncodeUtf8(Value(b)) == b
  {
    hide IsUtf8Char, Combine, EncodeUtf8, U8Len, Value;
    if |b| <= 2 { ShortForms(b); } else if |b| == 3 { ThreeByteForms(b); } else { FourByteForms(b); }
  }

  // Every scalar's encoding is one character by the grammar and decodes to it.
  lemma EncodesGrammar(cp: nat)
    requires IsScalar(cp)
    ensures IsUtf8Char(EncodeUtf8(cp)) && Value(EncodeUtf8(cp)) == cp
  {
    hide IsUtf8Char, Value;
    FromDigits(cp);
    if cp < 0x800 {
      TwoParts(cp);
    } else if cp >= 0x10000 {
      FourParts(cp / 262144, cp / 4096 % 64, cp / 64 % 64, cp % 64);
    } else {
      ThreeParts(cp / 4096, cp / 64 % 64, cp % 64);
    }
  }

  lemma TwoParts(cp: nat)
    requires cp < 0x800
    ensures IsUtf8Char(EncodeUtf8(cp)) && Value(EncodeUtf8(cp)) == cp
  {}

  lemma ThreeParts(a: nat, b: nat, c: nat)
    requires a < 16 && b < 64 && c < 64 && (a == 0 ==> b >= 32) && (a == 13 ==> b < 32)
    ensures IsUtf8Char([0xE0 + a, 0x80 + b, 0x80 + c]) && Value([0xE0 + a, 0x80 + b, 0x80 + c]) == a * 4096 + b * 64 + c
  {}

  lemma FourParts(a: nat, b: nat, c: nat, d: nat)
    requires a < 5 && b < 64 && c < 64 && d < 64 && (a == 0 ==> b >= 16) && (a == 4 ==> b < 16)
    ensures IsUtf8Char([0xF0 + a, 0x80 + b, 0x80 + c, 0x80 + d])
    ensures Value([0xF0 + a, 0x80 + b, 0x80 + c, 0x80 + d]) == a * 262144 + b * 4096 + c * 64 + d
  {}

  lemma DecodesEncoded(cp: nat, more: seq<Byte8>)
    requires IsScalar(cp)
    ensures Decode(EncodeUtf8(cp) + more) == Got(cp, |EncodeUtf8(cp)|)
  {
    hide IsUtf8Char, EncodeUtf8, Decode, Value;
    var e := EncodeUtf8(cp);
    EncodesGrammar(cp);
    AcceptsGrammar(e + more, |e|);
    assert (e + more)[..|e|] == e;
    var v := Decode(e + more).cp;
    assert EncodeUtf8(v) == e;
    EncodesGrammar(v);
  }

  // ---- chunks ----------------------------------------------------------------------------------------

  // More input does not change what a prefix already decides.
  lemma DecodePrefix(b: seq<Byte8>, more: seq<Byte8>)
    requires !Decode(b).Incomplete?
    ensures Decode(b + more) == Decode(b)
  {
    hide U8Len, Combine;
    var len := U8Len(b[0]);
    assert (b + more)[0] == b[0];
    forall i | 0 <= i < |b| ensures (b + more)[i] == b[i] {}
    if TailsOk(b, len) && len <= |b| { assert (b + more)[..len] == b[..len]; }
    if len != 0 && !TailsOk(b, len) {
      var i :| 1 <= i < |b| && i < len && !Continues(b[i]);
      assert !Continues((b + more)[i]);
    }
  }

  lemma PartialIs(b: seq<Byte8>)
    ensures Decode(b).Incomplete? <==> IsPartial(b)
  {
    if b != [] { LenBound(b[0]); }
  }

  // Beginnings that no continuation makes a character: the leads C0, C1 and F5 to F7, and second
  // bytes that make the value too small, a surrogate or beyond the last code point.
  predicate Hopeless(b: seq<Byte8>)
    requires b != []
  {
    || 0xC0 <= b[0] <= 0xC1 || b[0] >= 0xF5
    || (|b| > 1
        && ((b[0] == 0xE0 && b[1] < 0xA0) || (b[0] == 0xED && b[1] > 0x9F)
            || (b[0] == 0xF0 && b[1] < 0x90) || (b[0] == 0xF4 && b[1] > 0x8F)))
  }

  // The decoder asks for more of every beginning that can become a character, and of the
  // hopeless ones too.
  lemma PotentialIff(b: seq<Byte8>)
    requires b != [] && Decode(b).Incomplete?
    ensures (exists c: seq<Byte8> :: Decode(b + c).Got?) <==> !Hopeless(b)
  {
    hide Decode, IsUtf8Char, Hopeless;
    PartialIs(b);
    if Hopeless(b) {
      forall c: seq<Byte8> ensures !Decode(b + c).Got? {
        if Decode(b + c).Got? {
          GotFits(b + c);
          var n := Decode(b + c).len;
          AcceptsGrammar(b + c, n);
          StaysHopeless(b, c, n);
        }
      }
    } else {
      var c := Completion(b);
      AcceptsGrammar(b + c, |b + c|);
      assert (b + c)[..|b + c|] == b + c;
    }
  }

  lemma StaysHopeless(b: seq<Byte8>, c: seq<Byte8>, n: nat)
    requires b != [] && IsPartial(b) && n <= |b + c|
    ensures Hopeless(b) ==> !IsUtf8Char((b + c)[..n])
  {
    LeadBits(b[0]);
  }

  // Bytes that complete a beginning.
  lemma Completion(b: seq<Byte8>) returns (c: seq<Byte8>)
    requires b != [] && IsPartial(b) && !Hopeless(b)
    ensures IsUtf8Char(b + c)
  {
    LeadBits(b[0]);
    forall i | 1 <= i < |b| ensures IsTail(b[i]) { LeadBits(b[i]); }
    var second: Byte8 := if b[0] == 0xE0 then 0xA0 else if b[0] == 0xF0 then 0x90 else 0x80;
    var full: seq<Byte8> := if |b| == 1 then b + [second] else b;
    var len := U8Len(b[0]);
    full := if |full| < len then full + [0x80] else full;
    full := if |full| < len then full + [0x80] else full;
    c := full[|b|..];
    assert b + c == full;
  }

  // All characters of a byte string: the code points, and whether it ended cleanly, in the
  // middle of a character, or in an error.
  datatype End = Clean | Partial | Error

  function DecodeAll(b: seq<Byte8>): (seq<nat>, End)
    decreases |b|
  {
    if b == [] then ([], Clean)
    else
      match Decode(b)
      case Incomplete => ([], Partial)
      case Malformed => ([], Error)
      case Got(cp, len) =>
        GotFits(b);
        var (cps, end) := DecodeAll(b[len..]);
        ([cp] + cps, end)
  }

  lemma GotFits(b: seq<Byte8>)
    requires Decode(b).Got?
    ensures 0 < Decode(b).len <= |b|
  {}

  predicate AllScalar(cps: seq<nat>) { forall i | 0 <= i < |cps| :: IsScalar(cps[i]) }

  function EncodeAll(cps: seq<nat>): seq<Byte8>
    requires AllScalar(cps)
  {
    if cps == [] then [] else EncodeUtf8(cps[0]) + EncodeAll(cps[1..])
  }

  lemma {:induction false} DecodeAllInverts(cps: seq<nat>)
    requires AllScalar(cps)
    ensures DecodeAll(EncodeAll(cps)) == (cps, Clean)
  {
    hide Decode, EncodeUtf8;
    if cps != [] {
      assert AllScalar(cps[1..]);
      var e, rest := EncodeUtf8(cps[0]), EncodeAll(cps[1..]);
      EncodedSize(cps[0]);
      DecodesEncoded(cps[0], rest);
      assert (e + rest)[|e|..] == rest;
      DecodeAllInverts(cps[1..]);
      assert EncodeAll(cps) == e + rest && [cps[0]] + cps[1..] == cps;
    }
  }

  lemma EncodedSize(cp: nat)
    requires IsScalar(cp)
    ensures |EncodeUtf8(cp)| > 0
  {}

  // And a cleanly decoded string is the encoding of its code points.
  lemma {:induction false} EncodeAllInverts(b: seq<Byte8>)
    requires DecodeAll(b).1.Clean?
    ensures AllScalar(DecodeAll(b).0)
    ensures EncodeAll(DecodeAll(b).0) == b
    decreases |b|
  {
    hide IsScalar, Decode, EncodeUtf8;
    if b != [] {
      var d := Decode(b);
      GotFits(b);
      AcceptsGrammar(b, d.len);
      EncodeAllInverts(b[d.len..]);
      assert b == b[..d.len] + b[d.len..];
    }
  }

  // ---- UTF-16: section 2 of RFC 2781 --------------------------------------------------------------------

  predicate IsHigh(u: nat) { 0xD800 <= u <= 0xDBFF }

  predicate IsLow(u: nat) { 0xDC00 <= u <= 0xDFFF }

  function Utf16(cp: nat): seq<nat> {
    if cp > 0xFFFF then [0xD800 + (cp - 0x10000) / 1024, 0xDC00 + (cp - 0x10000) % 1024] else [cp]
  }

  function FromPair(high: nat, low: nat): nat
    requires IsHigh(high) && IsLow(low)
  {
    0x10000 + (high - 0xD800) * 1024 + (low - 0xDC00)
  }

  lemma PairInverse(cp: nat)
    requires 0xFFFF < cp <= 0x10FFFF
    ensures var u := Utf16(cp); IsHigh(u[0]) && IsLow(u[1]) && FromPair(u[0], u[1]) == cp
  {}

  lemma PairIsScalar(high: nat, low: nat)
    requires IsHigh(high) && IsLow(low)
    ensures IsScalar(FromPair(high, low)) && Utf16(FromPair(high, low)) == [high, low]
  {}

  function Utf16All(cps: seq<nat>): seq<nat> { if cps == [] then [] else Utf16(cps[0]) + Utf16All(cps[1..]) }
}
