// Printing a double in hexadecimal: the digits chosen, the text laid out, and what reading
// that text back denotes.
module FloatPrint {
  import opened Words
  import opened HexFloat

  // ---- the number held by the two words of a double --------------------------------------------

  function Biased(hi: Word): nat { hi / 0x10_0000 % 2048 }

  predicate Finite(hi: Word) { Biased(hi) != 2047 && hi < SIGN }

  function Fraction(hi: Word, lo: Word): (ds: seq<Nibble>)
    ensures |ds| == 13
  {
    Digits(hi % 0x10_0000, lo)
  }

  function Lead(hi: Word): nat { if Biased(hi) == 0 then 0 else 1 }

  // The value is Mantissa times two to the Exponent, as the binary64 format defines it.
  function Mantissa(hi: Word, lo: Word): nat {
    Lead(hi) * 0x10_0000_0000_0000 + hi % 0x10_0000 * 0x1_0000_0000 + lo
  }

  function Exponent(hi: Word): int { if Biased(hi) == 0 then -1074 else Biased(hi) - 1075 }

  predicate SameValue(m1: nat, e1: int, m2: nat, e2: int) {
    if e1 >= e2 then m1 * Pow2(e1 - e2) == m2 else m1 == m2 * Pow2(e2 - e1)
  }

  lemma MantissaDigits(hi: Word, lo: Word)
    ensures Mantissa(hi, lo) == Whole(Lead(hi), Fraction(hi, lo))
  {
    hide FromHex, Pow16;
    DigitsSpell(hi % 0x10_0000, lo);
    Thirteen();
  }

  // ---- what is printed ---------------------------------------------------------------------------

  datatype Shown = Shown(lead: nat, ds: seq<Nibble>, binexp: int)

  function BinExp(hi: Word, lo: Word): int {
    if Biased(hi) == 0 then (if hi % 0x10_0000 == 0 && lo == 0 then 0 else -1022) else Biased(hi) - 1023
  }

  function Zeros(n: nat): (ds: seq<Nibble>)
    ensures |ds| == n && FromHex(ds) == 0
  {
    var ds := seq(n, i requires 0 <= i < n => 0 as Nibble);
    HexZeros(ds);
    ds
  }

  // The n low hexadecimal digits of k.
  function HexOf(k: nat, n: nat): (ds: seq<Nibble>)
    ensures |ds| == n
  {
    if n == 0 then [] else HexOf(k / 16, n - 1) + [k % 16]
  }

  function Trim(ds: seq<Nibble>): (r: seq<Nibble>)
    ensures |r| <= |ds| && r == ds[..|r|] && (r != [] ==> r[|r| - 1] != 0)
    ensures forall i | |r| <= i < |ds| :: ds[i] == 0
  {
    if ds != [] && ds[|ds| - 1] == 0 then Trim(ds[..|ds| - 1]) else ds
  }

  // k units of 16^-n: 2.0 becomes 1.0 with the next exponent.
  function Normal(k: nat, n: nat, binexp: int): (p: Shown)
    ensures p.lead <= 1
  {
    if k >= 2 * Pow16(n) then Shown(1, Zeros(n), binexp + 1)
    else Shown(if k < Pow16(n) then 0 else 1, HexOf(k, n), binexp)
  }

  function Printed(hi: Word, lo: Word, prec: int): (p: Shown)
    ensures p.lead <= 1
  {
    var ds := Fraction(hi, lo);
    if prec < 0 then Shown(Lead(hi), Trim(ds), BinExp(hi, lo))
    else if prec < 13 then Normal(Rounded(ds, Lead(hi), prec), prec, BinExp(hi, lo))
    else Shown(Lead(hi), ds + Zeros((if prec > 50 then 50 else prec) - 13), BinExp(hi, lo))
  }

  lemma {:induction false} HexOfBack(k: nat, n: nat)
    ensures FromHex(HexOf(k, n)) == k % Pow16(n)
  {
    hide FromHex, Pow16;
    NoDigits();
    if n > 0 {
      HexOfBack(k / 16, n - 1);
      Snoc(HexOf(k / 16, n - 1), k % 16);
      OnePlace(n);
      SplitLow(k, Pow16(n - 1));
    }
  }

  lemma SplitLow(k: nat, p: nat)
    requires p > 0
    ensures k % (16 * p) == k / 16 % p * 16 + k % 16
  {
    var q := k / 16;
    assert q == q / p * p + q % p;
    ModBound(q, p);
    LowPart(k, q / p, q % p, p);
  }

  lemma ModBound(q: nat, p: nat)
    requires p > 0
    ensures q % p < p
  {}

  lemma LowPart(k: nat, a: nat, b: nat, p: nat)
    requires p > 0 && k / 16 == a * p + b && b < p
    ensures k % (16 * p) == b * 16 + k % 16
  {
    Times16(a, p);
    ModUnique(k, 16 * p, a, b * 16 + k % 16);
  }

  lemma {:induction false} HexOfUnique(ds: seq<Nibble>, k: nat, n: nat)
    requires k == FromHex(ds) && n == |ds|
    ensures HexOf(k, n) == ds
  {
    if ds != [] {
      var front := ds[..n - 1];
      assert k == FromHex(front) * 16 + ds[n - 1];
      HexOfUnique(front, k / 16, n - 1);
      assert ds == front + [ds[n - 1]];
    }
  }

  // ---- printing ------------------------------------------------------------------------------------

  // The new digits, with the carry before them, are the old ones plus one.
  predicate OneMore(carry: nat, ds: seq<Nibble>, was: seq<Nibble>) {
    |ds| == |was| && carry * Pow16(|ds|) + FromHex(ds) == FromHex(was) + 1
  }

  // Adds one to the number in nib[..ndig]; what overflows is the carry.
  method AddOne(nib: array<Nibble>, ndig: nat) returns (carry: nat)
    requires ndig <= nib.Length
    modifies nib
    ensures nib[ndig..] == old(nib[ndig..]) && carry <= 1
    ensures OneMore(carry, nib[..ndig], old(nib[..ndig]))
  {
    hide OneMore;
    ghost var was := nib[..];
    var i := ndig - 1;
    carry := 1;
    ghost var tail: seq<Nibble> := [];
    OneFromNone();
    while i >= 0 && carry != 0
      invariant -1 <= i < ndig && carry <= 1
      invariant forall j | 0 <= j <= i || ndig <= j < nib.Length :: nib[j] == was[j]
      invariant tail == nib[i + 1..ndig] && OneMore(carry, tail, was[i + 1..ndig])
    {
      var sum: nat := nib[i] as nat + 1;
      if sum >= 16 {
        nib[i] := sum - 16;
      } else {
        nib[i] := sum;
        carry := 0;
      }
      CarryStep(nib[i], was[i], carry, tail, was[i + 1..ndig]);
      tail := [nib[i]] + tail;
      assert was[i..ndig] == [was[i]] + was[i + 1..ndig];
      i := i - 1;
    }
    CarryDone(was[..i + 1], carry, tail, was[i + 1..ndig]);
    assert nib[..ndig] == was[..i + 1] + tail;
    assert was[..ndig] == was[..i + 1] + was[i + 1..ndig];
    assert nib[ndig..] == was[ndig..];
  }

  lemma OneFromNone()
    ensures OneMore(1, [], [])
  {}

  lemma CarryDone(front: seq<Nibble>, carry: nat, tail: seq<Nibble>, old_tail: seq<Nibble>)
    requires OneMore(carry, tail, old_tail) && (front == [] || carry == 0)
    ensures OneMore(carry, front + tail, front + old_tail)
  {
    hide FromHex, Pow16;
    HexJoin(front, tail);
    HexJoin(front, old_tail);
    assert front == [] ==> |front + tail| == |tail|;
  }

  lemma CarryStep(d: Nibble, was: Nibble, carry: nat, tail: seq<Nibble>, old_tail: seq<Nibble>)
    requires OneMore(1, tail, old_tail)
    requires (was == 15 && d == 0 && carry == 1) || (d == was + 1 && carry == 0)
    ensures OneMore(carry, [d] + tail, [was] + old_tail)
  {
    hide FromHex;
    HexJoin([d], tail);
    HexJoin([was], old_tail);
    OneDigit(d);
    OneDigit(was);
    var p := Pow16(|tail|);
    if carry == 0 { assert (was + 1) * p == was * p + p; }
  }

  // Rounds nib, after the leading digit, to ndig digits.
  method RoundTo(nib: array<Nibble>, ndig: nat, lead0: nat, binexp0: int) returns (lead: nat, binexp: int)
    requires nib.Length == 13 && ndig < 13 && lead0 <= 1
    modifies nib
    ensures Shown(lead, nib[..ndig], binexp) == Normal(Rounded(old(nib[..]), lead0, ndig), ndig, binexp0)
  {
    hide FromHex, Pow16, Rounded, Normal, Zeros, OneMore;
    lead, binexp := lead0, binexp0;
    var first, roundup := nib[ndig], false;
    if first > 8 {
      roundup := true;
    } else if first == 8 {
      var rest, i := false, ndig + 1;
      while i < 13
        invariant ndig < i <= 13 && !rest && forall j | ndig < j < i :: nib[j] == 0
      {
        if nib[i] != 0 {
          rest := true;
          break;
        }
        i := i + 1;
      }
      var lastkept := if ndig > 0 then nib[ndig - 1] else lead;
      assert rest ==> nib[..][i] != 0;
      roundup := rest || lastkept % 2 == 1;
    }
    assert roundup == RoundsUp(nib[..], lead, ndig);
    ghost var kept := nib[..ndig];
    assert nib[..][..ndig] == kept;
    if !roundup {
      KeptDigits(nib[..], lead, ndig, binexp);
    } else {
      var carry := AddOne(nib, ndig);
      UppedDigits(old(nib[..]), lead, ndig, binexp, carry, nib[..ndig]);
      if carry != 0 {
        lead := lead + 1;
        if lead >= 2 {
          lead := 1;
          binexp := binexp + 1;
          var k := 0;
          while k < ndig
            invariant k <= ndig && forall j | 0 <= j < k :: nib[j] == 0
          {
            nib[k] := 0;
            k := k + 1;
          }
          AllZero(nib[..ndig]);
        }
      }
    }
  }

  lemma AllZero(ds: seq<Nibble>)
    requires forall i | 0 <= i < |ds| :: ds[i] == 0
    ensures ds == Zeros(|ds|)
  {}

  lemma KeptDigits(ds: seq<Nibble>, lead: nat, n: nat, binexp: int)
    requires |ds| == 13 && n < 13 && lead <= 1 && !RoundsUp(ds, lead, n)
    ensures Normal(Rounded(ds, lead, n), n, binexp) == Shown(lead, ds[..n], binexp)
  {
    hide FromHex, Pow16;
    HexBound(ds[..n]);
    Denoted(lead, ds[..n], n, binexp);
  }

  lemma UppedDigits(ds: seq<Nibble>, lead: nat, n: nat, binexp: int, carry: nat, up: seq<Nibble>)
    requires |ds| == 13 && n < 13 && lead <= 1 && carry <= 1 && RoundsUp(ds, lead, n) && |up| == n
    requires OneMore(carry, up, ds[..n])
    ensures Normal(Rounded(ds, lead, n), n, binexp)
         == if lead + carry >= 2 then Shown(1, Zeros(n), binexp + 1) else Shown(lead + carry, up, binexp)
  {
    hide FromHex, Pow16;
    HexBound(up);
    assert Rounded(ds, lead, n) == (lead + carry) * Pow16(n) + FromHex(up);
    if lead + carry < 2 { Denoted(lead + carry, up, n, binexp); }
  }

  lemma Denoted(lead: nat, ds: seq<Nibble>, n: nat, binexp: int)
    requires |ds| == n && lead <= 1
    ensures Normal(lead * Pow16(n) + FromHex(ds), n, binexp) == Shown(lead, ds, binexp)
  {
    hide FromHex, Pow16;
    var k, p := lead * Pow16(n) + FromHex(ds), Pow16(n);
    HexBound(ds);
    ModUnique(k, p, lead, FromHex(ds));
    HexOfBack(k, n);
    HexOfMod(k, n, HexOf(k, n));
    HexOfUnique(ds, FromHex(ds), n);
    assert k < 2 * p;
  }

  // Only the low digits matter.
  lemma HexOfMod(k: nat, n: nat, ds: seq<Nibble>)
    requires ds == HexOf(k, n)
    ensures HexOf(k % Pow16(n), n) == ds
  {
    HexOfBack(k, n);
    HexOfUnique(ds, k % Pow16(n), n);
  }

  function Rev(t: string): string { if t == "" then "" else [t[|t| - 1]] + Rev(t[..|t| - 1]) }

  lemma NoText(upper: bool)
    ensures HexText([], upper) == ""
  {}

  lemma MoreText(ds: seq<Nibble>, i: nat, upper: bool)
    requires i < |ds|
    ensures HexText(ds[..i + 1], upper) == HexText(ds[..i], upper) + [DigitChar(ds[i], upper)]
  {}

  method Put(buf: array<char>, n: nat, c: char) returns (m: nat)
    requires n < buf.Length
    modifies buf
    ensures m == n + 1 && buf[..m] == old(buf[..n]) + [c]
    ensures forall i | m <= i < buf.Length :: buf[i] == old(buf[i])
  {
    buf[n] := c;
    m := n + 1;
  }

  lemma NoDigit()
    ensures DecText(0) == "0" && Rev("0") == "0" && Rev("") == ""
  {}

  lemma OneMoreDigit(ae: nat, t: string, d: char)
    requires ae > 0 && d == ('0' as int + ae % 10) as char
    ensures DecText(ae) + Rev(t) == (if ae / 10 > 0 then DecText(ae / 10) else "") + Rev(t + [d])
  {
    assert (t + [d])[..|t|] == t;
    assert Rev(t + [d]) == [d] + Rev(t);
  }

  // The decimal digits of ae0, lowest first.
  method ExpDigits(ae0: nat) returns (etmp: array<char>, et: nat)
    requires ae0 < 10000
    ensures fresh(etmp) && 1 <= et <= 4 <= etmp.Length && Rev(etmp[..et]) == DecText(ae0)
  {
    hide DecText, Rev;
    NoDigit();
    var ae := ae0;
    etmp := new char[8];
    et := 0;
    if ae == 0 {
      etmp[0] := '0';
      et := 1;
      assert etmp[..1] == "0";
    } else {
      assert etmp[..0] == "";
    }
    while ae > 0
      invariant et <= 4 && (et == 0 ==> 0 < ae < 10000) && (et == 1 ==> ae < 1000) && (et == 2 ==> ae < 100)
      invariant (et == 3 ==> ae < 10) && (et == 4 ==> ae == 0)
      invariant DecText(ae0) == (if ae > 0 then DecText(ae) else "") + Rev(etmp[..et])
    {
      ghost var t := etmp[..et];
      var d := ('0' as int + ae % 10) as char;
      etmp[et] := d;
      et := et + 1;
      assert etmp[..et] == t + [d];
      OneMoreDigit(ae, t, d);
      ae := ae / 10;
    }
  }

  method PutExp(buf: array<char>, n0: nat, ae0: nat) returns (n: nat)
    requires ae0 < 10000 && n0 + 4 < buf.Length
    modifies buf
    ensures n0 < n <= n0 + 4 && buf[..n] == old(buf[..n0]) + DecText(ae0)
    ensures forall i | n <= i < buf.Length :: buf[i] == old(buf[i])
  {
    hide DecText;
    var etmp, et := ExpDigits(ae0);
    n := n0;
    while et > 0
      invariant et <= 4 <= etmp.Length && n0 <= n && n + et <= n0 + 4 && (n == n0 ==> et > 0)
      invariant buf[..n] + Rev(etmp[..et]) == old(buf[..n0]) + DecText(ae0)
      invariant forall i | n <= i < buf.Length :: buf[i] == old(buf[i])
    {
      assert etmp[..et][..et - 1] == etmp[..et - 1];
      ghost var done := buf[..n];
      n := Put(buf, n, etmp[et - 1]);
      assert buf[..n] == done + [etmp[et - 1]];
      et := et - 1;
    }
    assert etmp[..0] == "";
  }

  lemma FractionPlace(hi: Word, lo: Word, i: nat)
    requires i < 8
    ensures Fraction(hi, lo)[5 + i] == lo / Pow16(7 - i) % 16
  {
    assert Pow16(0) == 1 && Pow16(1) == 16 && Pow16(2) == 0x100 && Pow16(3) == 0x1000;
    assert Pow16(4) == 0x1_0000 && Pow16(5) == 0x10_0000 && Pow16(6) == 0x100_0000 && Pow16(7) == 0x1000_0000;
  }

  // The thirteen digits of the fraction.
  method Nibbles(hi: Word, lo: Word) returns (nib: array<Nibble>)
    ensures fresh(nib) && nib[..] == Fraction(hi, lo)
  {
    hide Pow16;
    var fhi := hi % 0x10_0000;
    nib := new Nibble[13](i => 0);
    nib[0] := fhi / 0x1_0000 % 16;
    nib[1] := fhi / 0x1000 % 16;
    nib[2] := fhi / 0x100 % 16;
    nib[3] := fhi / 16 % 16;
    nib[4] := fhi % 16;
    for i := 0 to 8
      invariant forall j | 0 <= j < 5 + i :: nib[j] == Fraction(hi, lo)[j]
    {
      FractionPlace(hi, lo, i);
      nib[5 + i] := lo / Pow16(7 - i) % 16;
    }
  }

  // The digits kept, rounded when some of the thirteen are dropped.
  method ChooseDigits(nib: array<Nibble>, prec: int, lead0: nat, binexp0: int) returns (ndig: nat, lead: nat, binexp: int)
    requires nib.Length == 13 && lead0 <= 1
    modifies nib
    ensures ndig <= 50 && (ndig > 13 ==> nib[..] == old(nib[..]))
    ensures var ds := old(nib[..]);
      Shown(lead, if ndig <= 13 then nib[..ndig] else nib[..] + Zeros(ndig - 13), binexp)
      == if prec < 0 then Shown(lead0, Trim(ds), binexp0)
         else if prec < 13 then Normal(Rounded(ds, lead0, prec), prec, binexp0)
         else Shown(lead0, ds + Zeros((if prec > 50 then 50 else prec) - 13), binexp0)
  {
    hide FromHex, Pow16, Rounded, Normal;
    ndig, lead, binexp := 13, lead0, binexp0;
    if prec < 0 {
      while ndig > 0 && nib[ndig - 1] == 0
        invariant ndig <= 13 && Trim(nib[..ndig]) == Trim(nib[..])
      {
        assert nib[..ndig][..ndig - 1] == nib[..ndig - 1];
        ndig := ndig - 1;
      }
    } else {
      ndig := prec;
      if ndig < 13 {
        lead, binexp := RoundTo(nib, ndig, lead, binexp);
      }
      if ndig > 50 {
        ndig := 50;
      }
      assert ndig == 13 ==> nib[..ndig] == nib[..] + Zeros(0);
    }
  }

  // '.' and the digits, when there are any; zeros beyond the thirteenth.
  method PutDigits(buf: array<char>, n0: nat, nib: array<Nibble>, ndig: nat, upper: bool) returns (n: nat)
    requires nib.Length == 13 && ndig <= 50 && n0 + 51 < buf.Length
    modifies buf
    ensures n <= n0 + 51 && forall i | n <= i < buf.Length :: buf[i] == old(buf[i])
    ensures var ds := if ndig <= 13 then nib[..ndig] else nib[..] + Zeros(ndig - 13);
      buf[..n] == old(buf[..n0]) + if ds == [] then "" else "." + HexText(ds, upper)
  {
    hide HexText, FromHex, Zeros, DigitChar;
    n := n0;
    if ndig > 0 {
      ghost var ds := if ndig <= 13 then nib[..ndig] else nib[..] + Zeros(ndig - 13);
      DigitsAre(nib[..], ndig, ds);
      n := Put(buf, n, '.');
      ghost var front := buf[..n];
      NoText(upper);
      assert ds[..0] == [];
      for i := 0 to ndig
        invariant n == n0 + 1 + i && forall j | n <= j < buf.Length :: buf[j] == old(buf[j])
        invariant buf[..n] == front + HexText(ds[..i], upper)
      {
        MoreText(ds, i, upper);
        n := Put(buf, n, DigitChar(if i < 13 then nib[i] else 0, upper));
      }
      assert ds[..ndig] == ds;
    }
  }

  lemma DigitsAre(kept: seq<Nibble>, ndig: nat, ds: seq<Nibble>)
    requires |kept| == 13 && ds == if ndig <= 13 then kept[..ndig] else kept + Zeros(ndig - 13)
    ensures |ds| == ndig && forall i | 0 <= i < ndig :: ds[i] == if i < 13 then kept[i] else 0
  {}

  // The whole text and the terminator after it.
  method PutText(buf: array<char>, lead: nat, nib: array<Nibble>, ndig: nat, binexp: int, upper: bool) returns (n: nat)
    requires buf.Length >= 64 && lead <= 1 && nib.Length == 13 && ndig <= 50 && -10000 < binexp < 10000
    modifies buf
    ensures n < 64 && buf[n] == 0 as char && forall i | n < i < buf.Length :: buf[i] == old(buf[i])
    ensures var ds := if ndig <= 13 then nib[..ndig] else nib[..] + Zeros(ndig - 13); buf[..n] == Text(lead, ds, binexp, upper)
  {
    hide HexText, FromHex, DecText;
    ghost var ds := if ndig <= 13 then nib[..ndig] else nib[..] + Zeros(ndig - 13);
    n := Put(buf, 0, '0');
    n := Put(buf, n, if upper then 'X' else 'x');
    n := Put(buf, n, ('0' as int + lead) as char);
    ghost var head := buf[..n];
    assert head == ['0', if upper then 'X' else 'x', ('0' as int + lead) as char];
    n := PutDigits(buf, n, nib, ndig, upper);
    ghost var mid := buf[..n];
    n := Put(buf, n, if upper then 'P' else 'p');
    n := Put(buf, n, if binexp < 0 then '-' else '+');
    assert buf[..n] == mid + [if upper then 'P' else 'p', if binexp < 0 then '-' else '+'];
    n := PutExp(buf, n, if binexp < 0 then -binexp else binexp);
    ghost var text := buf[..n];
    assert text == Text(lead, ds, binexp, upper);
    buf[n] := 0 as char;
    assert buf[..n] == text;
  }

  // The text has the shape Laid with that many digits behind the point.
  method FmtHex(hi: Word, lo: Word, prec: int, upper: bool, buf: array<char>) returns (n: nat, ghost digits: nat)
    requires buf.Length >= 64
    modifies buf
    ensures n < 64 && buf[n] == 0 as char && forall i | n < i < buf.Length :: buf[i] == old(buf[i])
    ensures Laid(buf[..n], digits, upper)
    ensures prec >= 0 ==> digits == if prec > 50 then 50 else prec
    ensures prec < 0 ==> digits <= 13 && (digits > 0 ==> 3 + digits < n && buf[3 + digits] != '0')
    ensures var p := Printed(hi, lo, prec); buf[..n] == Text(p.lead, p.ds, p.binexp, upper)
  {
    hide Fraction, HexText, FromHex, Pow16, DecText, Normal, Rounded, Text, Trim, Laid;
    var nib := Nibbles(hi, lo);
    var ndig, lead, binexp := ChooseDigits(nib, prec, Lead(hi), BinExp(hi, lo));
    ExpRange(hi, lo, prec);
    ghost var p := Printed(hi, lo, prec);
    assert p == Shown(lead, if ndig <= 13 then nib[..ndig] else nib[..] + Zeros(ndig - 13), binexp);
    n := PutText(buf, lead, nib, ndig, binexp, upper);
    digits := |p.ds|;
    PrintedDigits(hi, lo, prec);
    LaidLast(p, upper);
    if digits > 0 { assert buf[3 + digits] == buf[..n][3 + digits]; }
  }

  lemma LaidLast(p: Shown, upper: bool)
    requires p.lead <= 1
    ensures var s := Text(p.lead, p.ds, p.binexp, upper);
      Laid(s, |p.ds|, upper)
      && (p.ds != [] ==> 3 + |p.ds| < |s| && (p.ds[|p.ds| - 1] != 0 ==> s[3 + |p.ds|] != '0'))
  {
    hide Text;
    TextLaid(p.lead, p.ds, p.binexp, upper);
  }

  // How many digits are printed; in exact mode the last one is not zero.
  lemma PrintedDigits(hi: Word, lo: Word, prec: int)
    ensures var ds := Printed(hi, lo, prec).ds;
      if prec < 0 then |ds| <= 13 && (ds != [] ==> ds[|ds| - 1] != 0) else |ds| == if prec > 50 then 50 else prec
  {
    hide Fraction, Rounded, FromHex, Pow16;
  }

  lemma ExpRange(hi: Word, lo: Word, prec: int)
    ensures -1022 <= Printed(hi, lo, prec).binexp <= 1025
  {
    hide FromHex, Pow16, Rounded, HexOf, Fraction;
  }

  // ---- what the text denotes ----------------------------------------------------------------------

  lemma {:induction false} Pow16Is(n: nat)
    ensures Pow16(n) == Pow2(4 * n)
  {
    if n > 0 {
      Pow16Is(n - 1);
      Pow2Add(4, 4 * n - 4);
      assert Pow2(4) == 16;
    }
  }

  // What reading the printed text gives.
  function ReadBack(hi: Word, lo: Word, prec: int, upper: bool): Read {
    var p := Printed(hi, lo, prec);
    ReadToken(Text(p.lead, p.ds, p.binexp, upper))
  }

  lemma ReadBackIs(hi: Word, lo: Word, prec: int, upper: bool)
    ensures var p := Printed(hi, lo, prec);
      ReadBack(hi, lo, prec, upper) == Read(false, Whole(p.lead, p.ds), p.binexp - 4 * |p.ds|)
  {
    hide Printed, Text, ReadToken, Whole;
    var p := Printed(hi, lo, prec);
    ReadsBack(p.lead, p.ds, p.binexp, upper);
  }

  lemma NormalDenotes(k: nat, n: nat, binexp: int)
    requires k <= 2 * Pow16(n)
    ensures var p := Normal(k, n, binexp);
      |p.ds| == n && (p.binexp == binexp || p.binexp == binexp + 1)
      && k == Whole(p.lead, p.ds) * (if p.binexp == binexp then 1 else 2)
  {
    hide FromHex, Pow16;
    HexOfBack(k, n);
    var w := Pow16(n);
    if k < w { ModUnique(k, w, 0, k); } else if k < 2 * w { ModUnique(k, w, 1, k - w); }
  }

  // A printed precision below 13 digits: the number read back is the nearest one to the
  // value with that many digits after the leading one; halfway values go to the even one.
  lemma PrintsNearest(hi: Word, lo: Word, prec: nat, upper: bool)
    requires prec < 13
    ensures var r := ReadBack(hi, lo, prec, upper);
      var carry := r.exp + 4 * prec - if Mantissa(hi, lo) == 0 then 0 else Exponent(hi) + 52;
      var k := r.mant * (if carry == 0 then 1 else 2); var v, unit := Mantissa(hi, lo), Pow2(52 - 4 * prec);
      && (carry == 0 || carry == 1) && r.mant < 2 * Pow16(prec)
      && 2 * v <= 2 * (k * unit) + unit && 2 * (k * unit) <= 2 * v + unit
      && (2 * v == 2 * (k * unit) + unit || 2 * (k * unit) == 2 * v + unit ==> k % 2 == 0)
  {
    hide FromHex, Pow16, Fraction, Rounded, Normal, Pow2, ReadBack, Mantissa;
    ReadBackIs(hi, lo, prec, upper);
    var ds := Fraction(hi, lo);
    MantissaDigits(hi, lo);
    NearestEven(ds, Lead(hi), prec);
    Pow16Is(13 - prec);
    RoundedBound(ds, Lead(hi), prec);
    ZeroExponent(hi, lo);
    NormalDenotes(Rounded(ds, Lead(hi), prec), prec, BinExp(hi, lo));
    var p := Printed(hi, lo, prec);
    HexBound(p.ds);
  }

  lemma RoundedBound(ds: seq<Nibble>, lead: nat, n: nat)
    requires n < |ds| && lead <= 1
    ensures Rounded(ds, lead, n) <= 2 * Pow16(n)
  {
    HexBound(ds[..n]);
  }

  // Exact mode, and any precision of 13 or more: the text denotes the value itself, with the
  // exponent that puts the leading bit before the point, 0 for zero; in exact mode it ends in a
  // digit other than zero and its mantissa fits in 53 bits.
  lemma ExactReadsBack(hi: Word, lo: Word, prec: int, upper: bool)
    requires prec < 0 || prec >= 13
    ensures var r := ReadBack(hi, lo, prec, upper);
      && SameValue(r.mant, r.exp, Mantissa(hi, lo), Exponent(hi))
      && (prec < 0 ==> r.mant < 0x20_0000_0000_0000)
    ensures var ds := Printed(hi, lo, prec).ds;
      && (prec < 0 && ds != [] ==> ds[|ds| - 1] != 0)
      && ReadBack(hi, lo, prec, upper).exp == (if Mantissa(hi, lo) == 0 then 0 else Exponent(hi) + 52) - 4 * |ds|
  {
    hide Whole, Fraction, ReadBack, Mantissa, Trim, SameValue;
    var ds, p := Fraction(hi, lo), Printed(hi, lo, prec);
    ReadBackIs(hi, lo, prec, upper);
    ZeroExponent(hi, lo);
    if prec < 0 {
      assert ds == p.ds + ds[|p.ds|..];
      Shorter(hi, lo, p.ds, ds[|p.ds|..]);
      SmallMantissa(p.lead, p.ds);
    } else {
      Longer(hi, lo, p.ds[13..]);
      assert p.ds == ds + p.ds[13..];
    }
  }

  lemma Shorter(hi: Word, lo: Word, ds: seq<Nibble>, zeros: seq<Nibble>)
    requires ds + zeros == Fraction(hi, lo) && forall i | 0 <= i < |zeros| :: zeros[i] == 0
    ensures SameValue(Whole(Lead(hi), ds), BinExp(hi, lo) - 4 * |ds|, Mantissa(hi, lo), Exponent(hi))
  {
    hide FromHex, Pow16, Whole, Fraction, Pow2, Mantissa, Exponent, BinExp, Lead;
    MantissaDigits(hi, lo);
    HexZeros(zeros);
    Padded(Lead(hi), ds, zeros);
    Pow16Is(|zeros|);
    ZeroExponent(hi, lo);
    Aligned(Whole(Lead(hi), ds), BinExp(hi, lo) - 4 * |ds|, Mantissa(hi, lo), Exponent(hi), 4 * |zeros|);
  }

  lemma Longer(hi: Word, lo: Word, zeros: seq<Nibble>)
    requires FromHex(zeros) == 0
    ensures var ds := Fraction(hi, lo) + zeros;
      SameValue(Whole(Lead(hi), ds), BinExp(hi, lo) - 4 * |ds|, Mantissa(hi, lo), Exponent(hi))
  {
    hide FromHex, Pow16, Whole, Fraction, Pow2, Mantissa, Exponent, BinExp, Lead;
    var ds := Fraction(hi, lo);
    MantissaDigits(hi, lo);
    Padded(Lead(hi), ds, zeros);
    Pow16Is(|zeros|);
    ZeroExponent(hi, lo);
    var m := Whole(Lead(hi), ds + zeros);
    Aligned2(m, BinExp(hi, lo) - 4 * |ds + zeros|, Mantissa(hi, lo), Exponent(hi), 4 * |zeros|);
  }

  lemma Aligned(m: nat, e: int, n: nat, f: int, d: nat)
    requires m * Pow2(d) == n && (e == f + d || n == 0)
    ensures SameValue(m, e, n, f)
  {
    if n == 0 {
      Pow2Positive(d);
      if m > 0 { Positive(m, Pow2(d)); }
      assert m == 0;
    }
  }

  lemma Aligned2(m: nat, e: int, n: nat, f: int, d: nat)
    requires m == n * Pow2(d) && (f == e + d || n == 0)
    ensures SameValue(m, e, n, f)
  {
    if n != 0 && d == 0 { assert Pow2(0) == 1; }
  }

  lemma Positive(a: nat, b: nat)
    requires a > 0 && b > 0
    ensures a * b > 0
  {}

  lemma Padded(l: nat, ds: seq<Nibble>, zeros: seq<Nibble>)
    requires FromHex(zeros) == 0
    ensures Whole(l, ds + zeros) == Whole(l, ds) * Pow16(|zeros|)
  {
    hide FromHex, Pow16;
    HexJoin(ds, zeros);
    PowSplit(|ds|, |zeros|);
    Spread(l, Pow16(|ds|), FromHex(ds), Pow16(|zeros|));
  }

  lemma ZeroExponent(hi: Word, lo: Word)
    ensures BinExp(hi, lo) == if Mantissa(hi, lo) == 0 then 0 else Exponent(hi) + 52
  {}

  lemma SmallMantissa(l: nat, ds: seq<Nibble>)
    requires l <= 1 && |ds| <= 13
    ensures Whole(l, ds) < 0x20_0000_0000_0000
  {
    hide FromHex, Pow16, Pow2;
    HexBound(ds);
    Pow16Is(|ds|);
    Pow16Is(13);
    Pow2Mono(4 * |ds|, 52);
    Thirteen();
    assert l == 1 ==> l * Pow16(|ds|) == Pow16(|ds|);
    assert l == 0 ==> l * Pow16(|ds|) == 0;
  }

  lemma Thirteen()
    ensures Pow16(13) == 0x10_0000_0000_0000
  {
    assert Pow16(5) == 0x10_0000;
    assert Pow16(9) == 0x10_0000_0000;
  }

  // A finite double is determined by its value, so the exact text determines the double.
  lemma ValueDetermines(hi1: Word, lo1: Word, hi2: Word, lo2: Word)
    requires Finite(hi1) && Finite(hi2)
    requires SameValue(Mantissa(hi1, lo1), Exponent(hi1), Mantissa(hi2, lo2), Exponent(hi2))
    ensures hi1 == hi2 && lo1 == lo2
  {
    hide Pow2;
    var e1, e2 := Exponent(hi1), Exponent(hi2);
    if e1 > e2 {
      TooLarge(Mantissa(hi1, lo1), e1 - e2);
    } else if e2 > e1 {
      TooLarge(Mantissa(hi2, lo2), e2 - e1);
    } else {
      assert Pow2(0) == 1 by { Unit(); }
    }
  }

  lemma Unit()
    ensures Pow2(0) == 1
  {}

  lemma TooLarge(m: nat, d: nat)
    requires m >= 0x10_0000_0000_0000 && d > 0
    ensures m * Pow2(d) >= 0x20_0000_0000_0000
  {
    Pow2Mono(1, d);
    assert Pow2(1) == 2;
    MulLe(m, 2, Pow2(d));
  }

  // Two finite doubles with the same exact text are the same double.
  lemma ExactTextsDiffer(hi1: Word, lo1: Word, hi2: Word, lo2: Word, upper: bool)
    requires Finite(hi1) && Finite(hi2)
    requires var p, q := Printed(hi1, lo1, -1), Printed(hi2, lo2, -1);
      Text(p.lead, p.ds, p.binexp, upper) == Text(q.lead, q.ds, q.binexp, upper)
    ensures hi1 == hi2 && lo1 == lo2
  {
    hide FromHex, Pow16, Fraction, Pow2, Mantissa, Text, Printed, SameValue, Exponent, Finite;
    ExactReadsBack(hi1, lo1, -1, upper);
    ExactReadsBack(hi2, lo2, -1, upper);
    var r := ReadBack(hi1, lo1, -1, upper);
    assert r == ReadBack(hi2, lo2, -1, upper);
    SameTrans(r.mant, r.exp, Mantissa(hi1, lo1), Exponent(hi1), Mantissa(hi2, lo2), Exponent(hi2));
    ValueDetermines(hi1, lo1, hi2, lo2);
  }

  lemma SameTrans(m: nat, e: int, m1: nat, e1: int, m2: nat, e2: int)
    requires SameValue(m, e, m1, e1) && SameValue(m, e, m2, e2)
    ensures SameValue(m1, e1, m2, e2)
  {
    var low := if e <= e1 && e <= e2 then e else if e1 <= e2 then e1 else e2;
    Lowered(m, e, m1, e1, low);
    Lowered(m, e, m2, e2, low);
    Raised(m1, e1, m2, e2, low);
  }

  lemma Lowered(m: nat, e: int, n: nat, f: int, low: int)
    requires SameValue(m, e, n, f) && low <= e && low <= f
    ensures m * Pow2(e - low) == n * Pow2(f - low)
  {
    hide Pow2;
    if e >= f {
      Pow2Add(e - f, f - low);
      Assoc(m, Pow2(e - f), Pow2(f - low));
    } else {
      Pow2Add(f - e, e - low);
      Assoc(n, Pow2(f - e), Pow2(e - low));
    }
  }

  lemma Assoc(a: nat, b: nat, c: nat)
    ensures a * (b * c) == a * b * c
  {}

  lemma Raised(m: nat, e: int, n: nat, f: int, low: int)
    requires low <= e && low <= f && m * Pow2(e - low) == n * Pow2(f - low)
    ensures SameValue(m, e, n, f)
  {
    hide Pow2;
    if e >= f {
      Pow2Add(e - f, f - low);
      Assoc(m, Pow2(e - f), Pow2(f - low));
      Pow2Positive(f - low);
      Cancel(m * Pow2(e - f), n, Pow2(f - low));
    } else {
      Pow2Add(f - e, e - low);
      Assoc(n, Pow2(f - e), Pow2(e - low));
      Pow2Positive(e - low);
      Cancel(m, n * Pow2(f - e), Pow2(e - low));
    }
  }

  lemma Cancel(a: nat, b: nat, c: nat)
    requires c > 0 && a * c == b * c
    ensures a == b
  {
    ModUnique(a * c, c, a, 0);
    ModUnique(b * c, c, b, 0);
  }
}
