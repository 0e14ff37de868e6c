// 32-bit machine words as integers below 2^32, with the two's-complement view,
// bitwise operations and shifts that both the IR meaning and the 68000 model use.
module Words {

  const MODULUS: int := 0x1_0000_0000
  const SIGN: int := 0x8000_0000

  type Word = x: int | 0 <= x < 0x1_0000_0000
  type Int32 = x: int | -0x8000_0000 <= x < 0x8000_0000
  type Byte = x: int | 0 <= x < 256

  datatype Option<+T> = None | Some(value: T)

  // Truncation of a mathematical integer to 32 bits.
  function Wrap(x: int): Word { x % MODULUS }

  // The two's-complement value of a word.
  function Signed(w: Word): Int32 {
    if w < SIGN then w else w - MODULUS
  }

  function Pow2(n: nat): nat {
    if n == 0 then 1 else 2 * Pow2(n - 1)
  }

  function Truth(b: bool): Word { if b then 1 else 0 }

  // ---- bitwise operations -------------------------------------------------

  datatype BitOp = BAnd | BOr | BXor

  function BitOf(op: BitOp, x: nat, y: nat): nat
    requires x < 2 && y < 2
    ensures BitOf(op, x, y) < 2
  {
    match op
    case BAnd => if x == 1 && y == 1 then 1 else 0
    case BOr => if x == 1 || y == 1 then 1 else 0
    case BXor => if x != y then 1 else 0
  }

  // The low `n` bits of `a op b`.
  function Bits(op: BitOp, a: nat, b: nat, n: nat): (r: nat)
    ensures r < Pow2(n)
    decreases n, a, b
  {
    if n == 0 then 0 else BitOf(op, a % 2, b % 2) + 2 * Bits(op, a / 2, b / 2, n - 1)
  }

  lemma Pow2Is32()
    ensures Pow2(32) == MODULUS
  {
    assert Pow2(8) == 256;
    Pow2Add(8, 8);
    Pow2Add(16, 16);
  }

  lemma {:induction false} Pow2Add(m: nat, n: nat)
    ensures Pow2(m + n) == Pow2(m) * Pow2(n)
  {
    if m > 0 {
      Pow2Add(m - 1, n);
      DoubleProduct(Pow2(m - 1), Pow2(n));
    }
  }

  lemma DoubleProduct(a: nat, b: nat)
    ensures 2 * (a * b) == 2 * a * b
  {}

  function And(a: Word, b: Word): Word { Pow2Is32(); Bits(BAnd, a, b, 32) }
  function Or(a: Word, b: Word): Word { Pow2Is32(); Bits(BOr, a, b, 32) }
  function Xor(a: Word, b: Word): Word { Pow2Is32(); Bits(BXor, a, b, 32) }
  function Not(a: Word): Word { MODULUS - 1 - a }

  lemma {:induction false} BitsCommute(op: BitOp, a: nat, b: nat, n: nat)
    ensures Bits(op, a, b, n) == Bits(op, b, a, n)
  {
    if n > 0 { BitsCommute(op, a / 2, b / 2, n - 1); }
  }

  // Masking with 2^k - 1 keeps exactly the remainder modulo 2^k.
  lemma {:induction false} BitsMask(a: nat, k: nat, n: nat)
    requires k <= n
    ensures Pow2(k) >= 1
    ensures Bits(BAnd, a, Pow2(k) - 1, n) == a % Pow2(k)
  {
    if n == 0 {
    } else if k == 0 {
      BitsMask(a / 2, 0, n - 1);
    } else {
      BitsMask(a / 2, k - 1, n - 1);
      var p := Pow2(k - 1);
      assert (2 * p - 1) % 2 == 1 && (2 * p - 1) / 2 == p - 1;
      ModBase(a, 2, p);
    }
  }

  lemma ModBase(v: nat, b: nat, p: nat)
    requires b > 0 && p > 0
    ensures b * p > 0 && v % (b * p) == b * ((v / b) % p) + v % b
  {
    var h := v / b;
    var q, r := h / p, h % p;
    assert h == q * p + r;
    assert v == b * h + v % b;
    assert b * h == q * (b * p) + b * r by { assert b * (q * p) == q * (b * p); }
    assert b * r + v % b < b * p by { MulLe(b, r + 1, p); }
    MulAtLeast(b, p);
    ModUnique(v, b * p, q, b * r + v % b);
  }

  lemma MulMono(x: nat, y: nat, p: nat)
    requires x <= y
    ensures x * p <= y * p
  {}

  lemma MulLe(b: nat, x: nat, y: nat)
    requires x <= y
    ensures b * x <= b * y
  {}

  lemma MulAtLeast(m: int, d: int)
    requires m > 0 && d >= 1
    ensures m * d >= m
  {}

  lemma ModUnique(a: int, m: int, q: int, r: int)
    requires m > 0 && 0 <= r < m && a == q * m + r
    ensures a % m == r && a / m == q
  {
    var q2, r2 := a / m, a % m;
    assert a == q2 * m + r2;
    var d := q - q2;
    assert d * m == q * m - q2 * m;
    if d >= 1 { MulAtLeast(m, d); assert false; }
    if d <= -1 { MulAtLeast(m, -d); assert false; }
  }

  lemma AndMask(a: Word, k: nat)
    requires k <= 32
    ensures 1 <= Pow2(k) <= MODULUS
    ensures k < 32 ==> Pow2(k) < MODULUS
    ensures And(a, Pow2(k) - 1) == a % Pow2(k)
  {
    Pow2Bound(k);
    BitsMask(a, k, 32);
  }

  lemma Pow2Bound(k: nat)
    requires k <= 32
    ensures 1 <= Pow2(k) <= MODULUS
    ensures k < 32 ==> 2 * Pow2(k) <= MODULUS
  {
    Pow2Is32();
    Pow2Mono(k, 32);
    if k < 32 { Pow2Mono(k + 1, 32); }
  }

  lemma {:induction false} Pow2Positive(k: nat)
    ensures Pow2(k) >= 1
  {
    if k > 0 { Pow2Positive(k - 1); }
  }

  lemma {:induction false} Pow2Mono(k: nat, n: nat)
    requires k <= n
    ensures 1 <= Pow2(k) <= Pow2(n)
    decreases n - k
  {
    Pow2Positive(k);
    if k < n { Pow2Mono(k + 1, n); }
  }

  lemma AndOne(a: Word)
    ensures And(a, 1) == a % 2
  {
    AndMask(a, 1);
  }

  // Neutral and absorbing constants of the bitwise operations.
  lemma {:induction false} BitsZero(a: nat, n: nat)
    requires a < Pow2(n)
    ensures Bits(BAnd, a, 0, n) == 0
    ensures Bits(BOr, a, 0, n) == a
    ensures Bits(BXor, a, 0, n) == a
  {
    if n > 0 { BitsZero(a / 2, n - 1); }
  }

  lemma AndIdentities(a: Word)
    ensures And(a, MODULUS - 1) == a && And(a, 0) == 0
  {
    Pow2Is32();
    BitsMask(a, 32, 32);
    BitsZero(a, 32);
  }

  lemma OrXorIdentities(a: Word)
    ensures Or(a, 0) == a && Xor(a, 0) == a
  {
    Pow2Is32();
    BitsZero(a, 32);
  }

  lemma BitwiseCommute(a: Word, b: Word)
    ensures And(a, b) == And(b, a)
    ensures Or(a, b) == Or(b, a)
    ensures Xor(a, b) == Xor(b, a)
  {
    BitsCommute(BAnd, a, b, 32);
    BitsCommute(BOr, a, b, 32);
    BitsCommute(BXor, a, b, 32);
  }

  // ---- arithmetic, shifts, narrowing --------------------------------------

  function AddW(a: Word, b: Word): Word { Wrap(a + b) }
  function SubW(a: Word, b: Word): Word { Wrap(a - b) }
  function MulW(a: Word, b: Word): Word { Wrap(a * b) }
  function NegW(a: Word): Word { Wrap(0 - a) }

  // A 68000 register shift takes its count modulo 64.
  function Asl(x: Word, count: Word): Word { Wrap(x * Pow2(count % 64)) }
  function Lsr(x: Word, count: Word): Word {
    Pow2Mono(0, count % 64); DivBound(x, Pow2(count % 64)); x / Pow2(count % 64)
  }
  function Asr(x: Word, count: Word): Word {
    Pow2Mono(0, count % 64); Wrap(Signed(x) / Pow2(count % 64))
  }

  lemma DivBound(x: nat, d: nat)
    requires d >= 1
    ensures 0 <= x / d <= x
  {
    var q := x / d;
    assert x == d * q + x % d;
    if q >= 1 { MulAtLeast(q, d); assert q * d == d * q; }
  }

  // C division truncates toward zero; only called where it is defined.
  function TruncDiv(a: int, b: int): int
    requires b != 0
  {
    var q := (if a < 0 then -a else a) / (if b < 0 then -b else b);
    if (a < 0) == (b < 0) then q else -q
  }

  function TruncMod(a: int, b: int): int
    requires b != 0
  {
    a - b * TruncDiv(a, b)
  }

  // The value of the low 8 or 16 bits, sign- or zero-extended back to a word.
  function Narrow(size: nat, uns: bool, x: Word): Word {
    if size == 1 then
      var b := x % 256; if uns || b < 128 then b else b + (MODULUS - 256)
    else if size == 2 then
      var h := x % 65536; if uns || h < 32768 then h else h + (MODULUS - 65536)
    else x
  }

  // ---- powers of two, as the back end recognizes them -----------------------

  predicate IsPow2(v: Word) { v != 0 && And(v, v - 1) == 0 }

  function Ctz(v: nat): (n: nat)
    requires v > 0
  {
    if v % 2 == 1 then 0 else 1 + Ctz(v / 2)
  }

  lemma {:induction false} BitsSelf(a: nat, n: nat)
    requires a < Pow2(n)
    ensures Bits(BAnd, a, a, n) == a
  {
    if n > 0 { BitsSelf(a / 2, n - 1); }
  }

  lemma {:induction false} SingleBit(v: nat, n: nat)
    requires 0 < v < Pow2(n) && Bits(BAnd, v, v - 1, n) == 0
    ensures Ctz(v) < n && v == Pow2(Ctz(v))
  {
    if v % 2 == 1 {
      assert (v - 1) / 2 == v / 2;
      BitsSelf(v / 2, n - 1);
    } else {
      assert (v - 1) / 2 == v / 2 - 1;
      SingleBit(v / 2, n - 1);
    }
  }

  // A word passes the test exactly when it is 2 to the number of its trailing zeros.
  lemma {:induction false} PowerHasOneBit(k: nat, n: nat)
    requires k < n
    ensures 0 < Pow2(k) && Bits(BAnd, Pow2(k), Pow2(k) - 1, n) == 0
    ensures Ctz(Pow2(k)) == k
  {
    Pow2Positive(k);
    BitsMask(Pow2(k), k, n);
    assert Pow2(k) % Pow2(k) == 0 by { ModUnique(Pow2(k), Pow2(k), 1, 0); }
    if k > 0 { PowerHasOneBit(k - 1, n); }
  }

  lemma Pow2Test(v: Word)
    ensures IsPow2(v) <==> exists k: nat :: k < 32 && v == Pow2(k)
    ensures IsPow2(v) ==> Ctz(v) < 32 && v == Pow2(Ctz(v))
  {
    Pow2Is32();
    if IsPow2(v) { SingleBit(v, 32); }
    if k: nat :| k < 32 && v == Pow2(k) { PowerHasOneBit(k, 32); }
  }

  // The trailing-zero count as the source computes it, shifting right in a loop.
  method CountTrailingZeros(v: Word) returns (n: nat)
    requires v != 0
    ensures n == Ctz(v)
  {
    n := 0;
    var w := v;
    while w % 2 == 0
      invariant 0 < w && Ctz(v) == n + Ctz(w)
      decreases w
    {
      w, n := w / 2, n + 1;
    }
  }
}
