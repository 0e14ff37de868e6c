// Hexadecimal floating-point text: its digits, rounding to fewer of them, the layout of %a
// output and its reading back.
module HexFloat {
  import opened Words

  // ---- hexadecimal digits ---------------------------------------------------------------------

  type Nibble = d: nat | d < 16

  function Pow16(n: nat): (p: nat)
    ensures p > 0
  {
    if n == 0 then 1 else 16 * Pow16(n - 1)
  }

  // The number that digits spell, most significant first.
  function FromHex(ds: seq<Nibble>): nat { if ds == [] then 0 else FromHex(ds[..|ds| - 1]) * 16 + ds[|ds| - 1] }

  // The digits after a leading one, read as a single integer.
  function Whole(lead: nat, ds: seq<Nibble>): nat { lead * Pow16(|ds|) + FromHex(ds) }

  lemma {:induction false} HexJoin(x: seq<Nibble>, y: seq<Nibble>)
    ensures FromHex(x + y) == FromHex(x) * Pow16(|y|) + FromHex(y)
  {
    hide FromHex, Pow16;
    NoDigits();
    if y == [] {
      assert x + y == x;
    } else {
      var front, d := y[..|y| - 1], y[|y| - 1];
      assert x + y == (x + front) + [d] && y == front + [d];
      Snoc(x + front, d);
      Snoc(front, d);
      HexJoin(x, front);
      OnePlace(|y|);
      Carried16(FromHex(x), Pow16(|front|), FromHex(front), d);
    }
  }

  lemma Carried16(a: nat, p: nat, b: nat, d: nat)
    ensures a * (16 * p) + (b * 16 + d) == (a * p + b) * 16 + d
  {
    Times16(a, p);
  }

  lemma Times16(a: nat, p: nat)
    ensures a * (16 * p) == a * p * 16
  {}

  lemma {:induction false} HexBound(ds: seq<Nibble>)
    ensures FromHex(ds) < Pow16(|ds|)
  {
    if ds != [] { HexBound(ds[..|ds| - 1]); }
  }

  lemma {:induction false} HexZeros(ds: seq<Nibble>)
    requires forall i | 0 <= i < |ds| :: ds[i] == 0
    ensures FromHex(ds) == 0
  {
    if ds != [] { HexZeros(ds[..|ds| - 1]); }
  }

  // The 13 digits of a 52-bit fraction held as 20 and 32 bits.
  predicate IsFraction(fhi: nat, lo: nat) { fhi < 0x10_0000 && lo < 0x1_0000_0000 }

  function Digits(fhi: nat, lo: nat): (ds: seq<Nibble>)
    requires IsFraction(fhi, lo)
    ensures |ds| == 13
  {
    [fhi / 0x1_0000 % 16, fhi / 0x1000 % 16, fhi / 0x100 % 16, fhi / 16 % 16, fhi % 16]
    + [lo / 0x1000_0000 % 16, lo / 0x100_0000 % 16, lo / 0x10_0000 % 16, lo / 0x1_0000 % 16, lo / 0x1000 % 16,
       lo / 0x100 % 16, lo / 16 % 16, lo % 16]
  }

  lemma FiveDigits(a: Nibble, b: Nibble, c: Nibble, d: Nibble, e: Nibble)
    ensures FromHex([a, b, c, d, e]) == (((a * 16 + b) * 16 + c) * 16 + d) * 16 + e
  {
    var none: seq<Nibble> := [];
    assert [a, b, c, d, e] == none + [a] + [b] + [c] + [d] + [e];
    Snoc(none, a);
    Snoc(none + [a], b);
    Snoc(none + [a] + [b], c);
    Snoc(none + [a] + [b] + [c], d);
    Snoc(none + [a] + [b] + [c] + [d], e);
  }

  lemma Snoc(x: seq<Nibble>, d: Nibble)
    ensures FromHex(x + [d]) == FromHex(x) * 16 + d
  {
    assert (x + [d])[..|x|] == x;
  }

  lemma OneDigit(d: Nibble)
    ensures FromHex([d]) == d
  {
    assert [d][..0] == [];
  }

  lemma ThreeDigits(a: Nibble, b: Nibble, c: Nibble)
    ensures FromHex([a, b, c]) == (a * 16 + b) * 16 + c
  {
    var none: seq<Nibble> := [];
    assert [a, b, c] == none + [a] + [b] + [c];
    Snoc(none, a);
    Snoc(none + [a], b);
    Snoc(none + [a] + [b], c);
  }

  lemma DigitsSpell(fhi: nat, lo: nat)
    requires IsFraction(fhi, lo)
    ensures FromHex(Digits(fhi, lo)) == fhi * 0x1_0000_0000 + lo
  {
    hide FromHex;
    var h := Digits(fhi, lo)[..5];
    var l := [lo / 0x1000_0000 % 16, lo / 0x100_0000 % 16, lo / 0x10_0000 % 16, lo / 0x1_0000 % 16, lo / 0x1000 % 16];
    var r := [lo / 0x100 % 16, lo / 16 % 16, lo % 16];
    assert Digits(fhi, lo) == h + (l + r);
    HexJoin(h, l + r);
    HexJoin(l, r);
    HighDigits(fhi);
    HighDigits(lo / 0x1000);
    LowDigits(lo);
    assert Pow16(3) == 0x1000 && Pow16(8) == 0x1_0000_0000 by { assert Pow16(4) == 0x1_0000; }
  }

  lemma HighDigits(x: nat)
    requires x < 0x10_0000
    ensures FromHex([x / 0x1_0000 % 16, x / 0x1000 % 16, x / 0x100 % 16, x / 16 % 16, x % 16]) == x
  {
    hide FromHex;
    FiveDigits(x / 0x1_0000 % 16, x / 0x1000 % 16, x / 0x100 % 16, x / 16 % 16, x % 16);
    FivePlaces(x);
  }

  lemma FivePlaces(x: nat)
    requires x < 0x10_0000
    ensures (((x / 0x1_0000 % 16 * 16 + x / 0x1000 % 16) * 16 + x / 0x100 % 16) * 16 + x / 16 % 16) * 16 + x % 16 == x
  {
    Place(x, 16);
    Place(x, 0x100);
    Place(x, 0x1000);
    assert x / 0x1_0000 < 16;
  }

  lemma Place(x: nat, b: nat)
    requires b > 0
    ensures x / b == x / (b * 16) * 16 + x / b % 16
  {
    DivProduct(x, b, 16);
  }

  lemma LowDigits(lo: nat)
    requires lo < 0x1_0000_0000
    ensures FromHex([lo / 0x100 % 16, lo / 16 % 16, lo % 16]) == lo % 0x1000
    ensures var x := lo / 0x1000;
      x < 0x10_0000 && x / 0x1_0000 % 16 == lo / 0x1000_0000 % 16 && x / 0x1000 % 16 == lo / 0x100_0000 % 16
      && x / 0x100 % 16 == lo / 0x10_0000 % 16 && x / 16 % 16 == lo / 0x1_0000 % 16 && x % 16 == lo / 0x1000 % 16
  {
    hide FromHex;
    ThreeDigits(lo / 0x100 % 16, lo / 16 % 16, lo % 16);
    LastThree(lo);
    Shifted(lo, 0x1_0000, 0x1000_0000);
    Shifted(lo, 0x1000, 0x100_0000);
    Shifted(lo, 0x100, 0x10_0000);
    Shifted(lo, 16, 0x1_0000);
  }

  lemma Shifted(lo: nat, b: nat, c: nat)
    requires b > 0 && c == 0x1000 * b
    ensures lo / 0x1000 / b == lo / c
  {
    DivProduct(lo, 0x1000, b);
  }

  lemma LastThree(lo: nat)
    ensures (lo / 0x100 % 16 * 16 + lo / 16 % 16) * 16 + lo % 16 == lo % 0x1000
  {
    var a := lo / 16;
    DivProduct(lo, 16, 16);
    assert lo / 0x100 == a / 16;
    var q, r := a / 16 / 16, a / 16 % 16;
    assert a == (q * 16 + r) * 16 + a % 16;
    ModUnique(lo, 0x1000, q, (r * 16 + a % 16) * 16 + lo % 16);
  }

  lemma DivProduct(x: nat, a: nat, b: nat)
    requires a > 0 && b > 0
    ensures x / (a * b) == x / a / b
  {
    var q, r := x / a / b, x / a % b;
    assert x / a == q * b + r;
    var t := x % a;
    assert x == (q * b + r) * a + t;
    Spread2(q, b, r, a);
    MulMono(r + 1, b, a);
    ModUnique(x, a * b, q, r * a + t);
  }

  lemma Spread2(q: nat, b: nat, r: nat, a: nat)
    ensures (q * b + r) * a == q * (a * b) + r * a && (r + 1) * a == r * a + a && b * a == a * b
  {
    assert (q * b + r) * a == (q * b) * a + r * a;
    assert (q * b) * a == q * (a * b);
  }

  // ---- rounding ----------------------------------------------------------------------------------

  // Keep n of the digits: up when the rest is more than half a unit of the last kept
  // place, or exactly half and the last kept digit is odd.
  predicate RoundsUp(ds: seq<Nibble>, lead: nat, n: nat)
    requires n < |ds|
  {
    ds[n] > 8
    || (ds[n] == 8
        && ((exists i | n + 1 <= i < |ds| :: ds[i] != 0) || (if n > 0 then ds[n - 1] else lead) % 2 == 1))
  }

  // The kept number, with the leading digit, after rounding.
  function Rounded(ds: seq<Nibble>, lead: nat, n: nat): nat
    requires n < |ds|
  {
    lead * Pow16(n) + FromHex(ds[..n]) + if RoundsUp(ds, lead, n) then 1 else 0
  }

  lemma TailSize(ds: seq<Nibble>, n: nat)
    requires n < |ds|
    ensures FromHex(ds[n..]) == ds[n] * Pow16(|ds| - n - 1) + FromHex(ds[n + 1..]) && FromHex(ds[n + 1..]) < Pow16(|ds| - n - 1)
  {
    assert ds[n..] == [ds[n]] + ds[n + 1..];
    HexJoin([ds[n]], ds[n + 1..]);
    HexBound(ds[n + 1..]);
    assert [ds[n]][..0] == [];
  }

  lemma {:induction false} NonZeroTail(ds: seq<Nibble>)
    ensures FromHex(ds) == 0 <==> forall i | 0 <= i < |ds| :: ds[i] == 0
  {
    if ds != [] { NonZeroTail(ds[..|ds| - 1]); }
  }

  // Rounding gives the nearest number of that many digits; halfway cases go to the even one.
  lemma NearestEven(ds: seq<Nibble>, lead: nat, n: nat)
    requires n < |ds|
    ensures var unit := Pow16(|ds| - n); var v := lead * Pow16(|ds|) + FromHex(ds); var k := Rounded(ds, lead, n);
      && 2 * v <= 2 * (k * unit) + unit && 2 * (k * unit) <= 2 * v + unit
      && (2 * v == 2 * (k * unit) + unit || 2 * (k * unit) == 2 * v + unit ==> k % 2 == 0)
  {
    hide FromHex, Pow16;
    var unit, p := Pow16(|ds| - n), Pow16(|ds| - n - 1);
    assert unit == 16 * p by { OnePlace(|ds| - n); }
    var rest, kept := FromHex(ds[n..]), FromHex(ds[..n]);
    assert ds == ds[..n] + ds[n..];
    HexJoin(ds[..n], ds[n..]);
    PowSplit(n, |ds| - n);
    TailSize(ds, n);
    NonZeroTail(ds[n + 1..]);
    assert (exists i | n + 1 <= i < |ds| :: ds[i] != 0) <==> FromHex(ds[n + 1..]) != 0 by {
      if i :| n + 1 <= i < |ds| && ds[i] != 0 { assert ds[n + 1..][i - n - 1] != 0; }
    }
    var base := lead * Pow16(n) + kept;
    assert lead * Pow16(|ds|) + FromHex(ds) == base * unit + rest by { Spread(lead, Pow16(n), kept, unit); }
    LastDigit(ds, lead, n);
    RestBounds(ds[n], p, FromHex(ds[n + 1..]), rest);
    assert (base + 1) * unit == base * unit + unit;
  }

  lemma OnePlace(n: nat)
    requires n > 0
    ensures Pow16(n) == 16 * Pow16(n - 1)
  {}

  lemma {:induction false} PowSplit(m: nat, n: nat)
    ensures Pow16(m + n) == Pow16(m) * Pow16(n)
  {
    if m > 0 {
      PowSplit(m - 1, n);
      Times16(Pow16(n), Pow16(m - 1));
    }
  }

  lemma Spread(lead: nat, p: nat, kept: nat, unit: nat)
    ensures lead * (p * unit) + kept * unit == (lead * p + kept) * unit
  {}

  // The parity of the kept number is that of its last digit.
  lemma LastDigit(ds: seq<Nibble>, lead: nat, n: nat)
    requires n < |ds|
    ensures (lead * Pow16(n) + FromHex(ds[..n])) % 2 == (if n > 0 then ds[n - 1] else lead) % 2
  {
    if n > 0 {
      assert ds[..n][..n - 1] == ds[..n - 1];
      EvenRest(lead, Pow16(n - 1), FromHex(ds[..n - 1]), ds[n - 1]);
    } else {
      assert ds[..0] == [];
    }
  }

  lemma EvenRest(lead: nat, a: nat, b: nat, d: nat)
    ensures (lead * (16 * a) + (b * 16 + d)) % 2 == d % 2
  {
    Times16(lead, a);
    assert lead * (16 * a) + (b * 16 + d) == 2 * (8 * (lead * a + b)) + d;
  }

  lemma RestBounds(d: Nibble, p: nat, low: nat, rest: nat)
    requires p > 0 && low < p && rest == d * p + low
    ensures d > 8 ==> 2 * rest > 16 * p && rest < 16 * p
    ensures d < 8 ==> 2 * rest < 16 * p
    ensures d == 8 ==> 2 * rest == 16 * p + 2 * low
  {
    if d > 8 { MulMono(9, d, p); MulMono(d, 15, p); } else if d < 8 { MulMono(d, 7, p); }
  }

  // ---- the printed text ------------------------------------------------------------------------------

  function DigitChar(d: Nibble, upper: bool): char {
    if d < 10 then ('0' as int + d) as char else if upper then ('A' as int + d - 10) as char else ('a' as int + d - 10) as char
  }

  function HexText(ds: seq<Nibble>, upper: bool): (s: string)
    ensures |s| == |ds| && forall i | 0 <= i < |ds| :: s[i] == DigitChar(ds[i], upper)
  {
    seq(|ds|, i requires 0 <= i < |ds| => DigitChar(ds[i], upper))
  }

  function DecText(n: nat): string {
    if n < 10 then [('0' as int + n) as char] else DecText(n / 10) + [('0' as int + n % 10) as char]
  }

  // "0xH.HHHp±D".
  function Text(lead: nat, ds: seq<Nibble>, binexp: int, upper: bool): (s: string)
    requires lead < 10
    ensures |s| >= 3
  {
    ['0', if upper then 'X' else 'x', ('0' as int + lead) as char]
    + (if ds == [] then "" else "." + HexText(ds, upper))
    + [if upper then 'P' else 'p', if binexp < 0 then '-' else '+']
    + DecText(if binexp < 0 then -binexp else binexp)
  }

  // What every such text looks like, with n digits after the point: the prefix, a leading 0 or
  // 1, a point exactly when digits follow, letters of one case, a sign behind the p, and an
  // exponent without leading zeros that is no -0.
  predicate Laid(s: string, n: nat, upper: bool) {
    var p := if n == 0 then 3 else 4 + n;
    && p + 2 < |s| && s[0] == '0' && s[1] == (if upper then 'X' else 'x') && (s[2] == '0' || s[2] == '1')
    && (n > 0 ==> s[3] == '.')
    && (forall i | 4 <= i < p :: HexChar(s[i], upper))
    && s[p] == (if upper then 'P' else 'p') && (s[p + 1] == '+' || s[p + 1] == '-')
    && (forall i | p + 2 <= i < |s| :: '0' <= s[i] <= '9')
    && (s[p + 2] == '0' ==> |s| == p + 3 && s[p + 1] == '+')
  }

  lemma {:induction false} DecimalDigits(n: nat)
    ensures var s := DecText(n);
      s != "" && (forall i | 0 <= i < |s| :: '0' <= s[i] <= '9') && (s[0] == '0' ==> n == 0 && |s| == 1)
  {
    if n >= 10 { DecimalDigits(n / 10); }
  }

  predicate HexChar(c: char, upper: bool) { '0' <= c <= '9' || if upper then 'A' <= c <= 'F' else 'a' <= c <= 'f' }

  lemma TextLaid(lead: nat, ds: seq<Nibble>, binexp: int, upper: bool)
    requires lead <= 1
    ensures Laid(Text(lead, ds, binexp, upper), |ds|, upper)
    ensures var s := Text(lead, ds, binexp, upper);
      ds != [] ==> 3 + |ds| < |s| && s[3 + |ds|] == DigitChar(ds[|ds| - 1], upper)
  {
    hide DecText, DigitChar, Laid, HexText;
    var n := if binexp < 0 then -binexp else binexp;
    var frac := if ds == [] then "" else "." + HexText(ds, upper);
    DecimalDigits(n);
    FractionText(ds, upper);
    PartsLaid(['0', if upper then 'X' else 'x', ('0' as int + lead) as char], frac,
              [if upper then 'P' else 'p', if binexp < 0 then '-' else '+'], DecText(n), upper);
  }

  lemma FractionText(ds: seq<Nibble>, upper: bool)
    ensures var frac := "." + HexText(ds, upper);
      frac[0] == '.' && (forall i | 1 <= i < |frac| :: HexChar(frac[i], upper))
      && (ds != [] ==> frac[|ds|] == DigitChar(ds[|ds| - 1], upper))
  {
    hide DigitChar;
    forall i | 0 <= i < |ds| ensures HexChar(HexText(ds, upper)[i], upper) { DigitRange(ds[i], upper); }
  }

  lemma PartsLaid(head: string, frac: string, sign: string, e: string, upper: bool)
    requires |head| == 3 && head[0] == '0' && head[1] == (if upper then 'X' else 'x') && (head[2] == '0' || head[2] == '1')
    requires frac != "" ==> |frac| > 1 && frac[0] == '.' && forall i | 1 <= i < |frac| :: HexChar(frac[i], upper)
    requires |sign| == 2 && sign[0] == (if upper then 'P' else 'p') && (sign[1] == '+' || sign[1] == '-')
    requires e != "" && (forall i | 0 <= i < |e| :: '0' <= e[i] <= '9') && (e[0] == '0' ==> |e| == 1 && sign[1] == '+')
    ensures var s := head + frac + sign + e;
      Laid(s, if frac == "" then 0 else |frac| - 1, upper) && (frac != "" ==> s[2 + |frac|] == frac[|frac| - 1])
  {
    var s, p := head + frac + sign + e, 3 + |frac|;
    forall i | 0 <= i < |s|
      ensures s[i] == if i < 3 then head[i] else if i < p then frac[i - 3] else if i < p + 2 then sign[i - p] else e[i - p - 2] {}
    forall i | 4 <= i < p ensures HexChar(s[i], upper) { assert s[i] == frac[i - 3]; }
  }

  lemma DigitRange(d: Nibble, upper: bool)
    ensures HexChar(DigitChar(d, upper), upper)
  {}

  // ---- reading it -----------------------------------------------------------------------------------

  // c | 0x20.
  function SetBit5(c: int): int { if c / 32 % 2 == 1 then c else c + 32 }

  function DigitOf(c: char): Option<Nibble> {
    if '0' <= c <= '9' then Some(c as int - '0' as int)
    else
      var lc := SetBit5(c as int);
      if 'a' as int <= lc <= 'f' as int then Some(lc - 'a' as int + 10) else None
  }

  // Digits and points up to the first other character: mantissa, fraction digits, rest.
  function ReadMant(s: string, mant: nat, frac: nat, dot: bool): (nat, nat, string) {
    if s == "" then (mant, frac, s)
    else if s[0] == '.' then ReadMant(s[1..], mant, frac, true)
    else
      var d := DigitOf(s[0]);
      if d.None? then (mant, frac, s)
      else ReadMant(s[1..], mant * 16 + d.value, if dot then frac + 1 else frac, dot)
  }

  function ReadDec(s: string, n: nat): nat {
    if s == "" || !('0' <= s[0] <= '9') then n else ReadDec(s[1..], n * 10 + (s[0] as int - '0' as int))
  }

  function ReadExp(s: string): int {
    if s == "" || (s[0] != 'p' && s[0] != 'P') then 0
    else
      var t := s[1..];
      if t != "" && t[0] == '+' then ReadDec(t[1..], 0)
      else if t != "" && t[0] == '-' then -(ReadDec(t[1..], 0) as int)
      else ReadDec(t, 0)
  }

  // Sign, integer mantissa and power of two that the token denotes.
  datatype Read = Read(neg: bool, mant: nat, exp: int)

  function ReadToken(s: string): Read
    requires |s| >= 3
  {
    var signed := s[0] == '+' || s[0] == '-';
    var (mant, frac, rest) := ReadMant(s[if signed then 3 else 2..], 0, 0, false);
    Read(s[0] == '-', mant, ReadExp(rest) - 4 * frac)
  }

  // A sign in front of a token without one: '-' negates it and '+' changes nothing.
  lemma SignInFront(s: string)
    requires |s| >= 3 && s[0] != '+' && s[0] != '-'
    ensures var r := ReadToken(s);
      !r.neg && ReadToken("+" + s) == r && ReadToken("-" + s) == Read(true, r.mant, r.exp)
  {
    hide ReadMant, ReadExp;
    assert ("+" + s)[3..] == s[2..] && ("-" + s)[3..] == s[2..];
  }

  // The exponent, from position start on.
  method ScanExp(s: string, start: nat) returns (binexp: int)
    requires start <= |s|
    ensures binexp == ReadExp(s[start..])
  {
    var i := start;
    var esign := 1;
    binexp := 0;
    if i < |s| && (s[i] == 'p' || s[i] == 'P') {
      i := i + 1;
      assert s[start..][1..] == s[i..];
      if i < |s| && s[i] == '+' {
        i := i + 1;
        assert s[start..][1..][1..] == s[i..];
      } else if i < |s| && s[i] == '-' {
        esign := -1;
        i := i + 1;
        assert s[start..][1..][1..] == s[i..];
      }
      ghost var digits := s[i..];
      while i < |s| && '0' <= s[i] <= '9'
        invariant i <= |s| && binexp >= 0 && ReadDec(digits, 0) == ReadDec(s[i..], binexp)
      {
        assert s[i..][0] == s[i] && s[i..][1..] == s[i + 1..];
        binexp := binexp * 10 + (s[i] as int - '0' as int);
        i := i + 1;
      }
      binexp := binexp * esign;
    }
  }

  method ScHexfloat(s: string) returns (r: Read)
    requires |s| >= 3
    ensures r == ReadToken(s)
  {
    hide DigitOf, ReadExp;
    var i, neg := 0, false;
    if s[0] == '+' {
      i := 1;
    } else if s[0] == '-' {
      neg := true;
      i := 1;
    }
    i := i + 2;
    ghost var body := s[i..];
    var mant: nat, frac: nat, dot := 0, 0, false;
    while i < |s|
      invariant i <= |s| && ReadMant(body, 0, 0, false) == ReadMant(s[i..], mant, frac, dot)
    {
      assert s[i..][0] == s[i] && s[i..][1..] == s[i + 1..];
      if s[i] == '.' {
        dot := true;
      } else {
        var d := DigitOf(s[i]);
        if d.None? { break; }
        mant := mant * 16 + d.value;
        if dot { frac := frac + 1; }
      }
      i := i + 1;
    }
    assert ReadMant(s[i..], mant, frac, dot) == (mant, frac, s[i..]);
    var binexp := ScanExp(s, i);
    r := Read(neg, mant, binexp - 4 * frac);
  }

  // ---- reading inverts printing --------------------------------------------------------------------

  lemma DigitBack(d: Nibble, upper: bool)
    ensures DigitChar(d, upper) != '.' && DigitOf(DigitChar(d, upper)) == Some(d)
  {}

  lemma {:induction false} MantBack(ds: seq<Nibble>, upper: bool, rest: string, mant: nat, frac: nat, dot: bool)
    ensures ReadMant(HexText(ds, upper) + rest, mant, frac, dot)
         == ReadMant(rest, mant * Pow16(|ds|) + FromHex(ds), if dot then frac + |ds| else frac, dot)
    decreases |ds|
  {
    hide DigitOf, DigitChar, FromHex, Pow16;
    var s := HexText(ds, upper) + rest;
    if ds == [] {
      assert s == rest;
      NoDigits();
    } else {
      var text := HexText(ds[1..], upper) + rest;
      assert s == [DigitChar(ds[0], upper)] + text;
      OneBack(ds[0], upper, text, mant, frac, dot);
      MantBack(ds[1..], upper, rest, mant * 16 + ds[0], if dot then frac + 1 else frac, dot);
      FirstDigit(ds, mant);
    }
  }

  lemma OneBack(d: Nibble, upper: bool, text: string, mant: nat, frac: nat, dot: bool)
    ensures ReadMant([DigitChar(d, upper)] + text, mant, frac, dot)
         == ReadMant(text, mant * 16 + d, if dot then frac + 1 else frac, dot)
  {
    hide DigitOf, DigitChar;
    DigitBack(d, upper);
    assert ([DigitChar(d, upper)] + text)[1..] == text;
  }

  lemma FirstDigit(ds: seq<Nibble>, mant: nat)
    requires ds != []
    ensures mant * Pow16(|ds|) + FromHex(ds) == (mant * 16 + ds[0]) * Pow16(|ds| - 1) + FromHex(ds[1..])
  {
    hide FromHex, Pow16;
    assert ds == [ds[0]] + ds[1..];
    HexJoin([ds[0]], ds[1..]);
    OneDigit(ds[0]);
    OnePlace(|ds|);
    Carried(mant, ds[0], Pow16(|ds| - 1));
  }

  lemma Carried(mant: nat, d: nat, p: nat)
    ensures (mant * 16 + d) * p == mant * (16 * p) + d * p
  {}

  lemma {:induction false} DecDigits(n: nat, rest: string)
    ensures ReadDec(DecText(n) + rest, 0) == ReadDec(rest, n)
    decreases n
  {
    if n < 10 {
      var s := DecText(n) + rest;
      assert s[0] == ('0' as int + n) as char && s[1..] == rest;
    } else {
      var last := [('0' as int + n % 10) as char];
      assert DecText(n) + rest == DecText(n / 10) + (last + rest);
      DecDigits(n / 10, last + rest);
      assert (last + rest)[0] == last[0] && (last + rest)[1..] == rest;
    }
  }

  // What a token without a sign means: all its digits, of either case, as one integer, scaled by
  // the exponent and by the digits behind the point.
  lemma TokenMeans(pre: string, a: seq<Nibble>, b: seq<Nibble>, point: bool, upper: bool, tail: string)
    requires |pre| == 2 && pre[0] != '+' && pre[0] != '-' && (b != [] ==> point)
    requires tail == "" || tail[0] == 'p' || tail[0] == 'P'
    requires a != [] || point || tail != ""
    ensures var s := pre + (HexText(a, upper) + ((if point then "." + HexText(b, upper) else "") + tail));
      |s| >= 3 && ReadToken(s) == Read(false, FromHex(a + b), ReadExp(tail) - 4 * |b|)
  {
    hide HexText, FromHex, Pow16, DigitOf, ReadMant, ReadExp;
    var more := (if point then "." + HexText(b, upper) else "") + tail;
    var s := pre + (HexText(a, upper) + more);
    assert s[2..] == HexText(a, upper) + more && s[0] == pre[0];
    MantBack(a, upper, more, 0, 0, false);
    HexJoin(a, b);
    NoDigits();
    if point {
      assert more == "." + (HexText(b, upper) + tail);
      PointBack(HexText(b, upper) + tail, FromHex(a));
      MantBack(b, upper, tail, FromHex(a), 0, true);
    } else {
      assert more == tail && a + b == a;
    }
    StopsAtTail(tail, FromHex(a + b), |b|, point);
  }

  lemma PointBack(more: string, mant: nat)
    ensures ReadMant("." + more, mant, 0, false) == ReadMant(more, mant, 0, true)
  {
    assert ("." + more)[1..] == more;
  }

  lemma StopsAtTail(s: string, mant: nat, frac: nat, dot: bool)
    requires s == "" || s[0] == 'p' || s[0] == 'P'
    ensures ReadMant(s, mant, frac, dot) == (mant, frac, s)
  {}

  // What the end of a token adds to the exponent: nothing when there is none, and plus where no
  // sign is written.
  lemma ExponentMeans(p: char, n: nat)
    requires p == 'p' || p == 'P'
    ensures ReadExp("") == 0 && ReadExp([p]) == 0
    ensures ReadExp([p] + DecText(n)) == n && ReadExp([p, '+'] + DecText(n)) == n && ReadExp([p, '-'] + DecText(n)) == -(n as int)
  {
    hide DecText;
    DecDigits(n, "");
    DecimalDigits(n);
    assert DecText(n) + "" == DecText(n);
    assert ([p] + DecText(n))[1..] == DecText(n);
    assert ([p, '+'] + DecText(n))[1..][1..] == DecText(n) && ([p, '-'] + DecText(n))[1..][1..] == DecText(n);
  }

  // Reading the printed text gives the printed digits as one integer, and its exponent.
  lemma ReadsBack(lead: nat, ds: seq<Nibble>, binexp: int, upper: bool)
    requires lead < 10
    ensures ReadToken(Text(lead, ds, binexp, upper)) == Read(false, Whole(lead, ds), binexp - 4 * |ds|)
  {
    hide HexText, DigitOf, DecText, ReadMant, ReadExp, ReadToken, FromHex, Pow16;
    var n: nat := if binexp < 0 then -binexp else binexp;
    var p := if upper then 'P' else 'p';
    var tail := [p, if binexp < 0 then '-' else '+'] + DecText(n);
    var frac := if ds == [] then "" else "." + HexText(ds, upper);
    var c := ('0' as int + lead) as char;
    var pre := ['0', if upper then 'X' else 'x'];
    assert HexText([lead], upper) == [c] by { LeadText(lead, upper); }
    assert Text(lead, ds, binexp, upper) == pre + ([c] + (frac + tail));
    TokenMeans(pre, [lead], ds, ds != [], upper, tail);
    ExponentMeans(p, n);
    HexJoin([lead], ds);
    OneDigit(lead);
  }

  lemma LeadText(lead: Nibble, upper: bool)
    requires lead < 10
    ensures HexText([lead], upper) == [('0' as int + lead) as char]
  {}

  lemma NoDigits()
    ensures FromHex([]) == 0 && Pow16(0) == 1
  {}
}
