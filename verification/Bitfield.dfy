// Bit-field loads and stores: the emitted instructions, run on the machine, against the
// bits of big-endian memory.
module Bitfield {
  import opened Words
  import opened Memory
  import opened Ir
  import opened M68k
  import opened Tiles
  import opened Layout

  // ---- bits of words -----------------------------------------------------------------------

  function BitAt(x: nat, i: nat): nat { if i == 0 then x % 2 else BitAt(x / 2, i - 1) }

  lemma {:induction false} BitRange(x: nat, i: nat)
    ensures BitAt(x, i) < 2
  {
    if i > 0 { BitRange(x / 2, i - 1); }
  }

  lemma {:induction false} BitsBit(op: BitOp, a: nat, b: nat, n: nat, i: nat)
    requires i < n
    ensures BitAt(a, i) < 2 && BitAt(b, i) < 2 && BitAt(Bits(op, a, b, n), i) == BitOf(op, BitAt(a, i), BitAt(b, i))
  {
    hide Bits;
    BitRange(a, i);
    BitRange(b, i);
    BitsStep(op, a, b, n);
    if i > 0 { BitsBit(op, a / 2, b / 2, n - 1, i - 1); }
  }

  lemma BitsStep(op: BitOp, a: nat, b: nat, n: nat)
    requires n > 0
    ensures Bits(op, a, b, n) % 2 == BitOf(op, a % 2, b % 2) && Bits(op, a, b, n) / 2 == Bits(op, a / 2, b / 2, n - 1)
  {
    BitsUnfold(op, a, b, n);
    hide Bits;
    LowAndRest(Bits(op, a, b, n), BitOf(op, a % 2, b % 2), Bits(op, a / 2, b / 2, n - 1));
  }

  lemma BitsUnfold(op: BitOp, a: nat, b: nat, n: nat)
    requires n > 0
    ensures Bits(op, a, b, n) == BitOf(op, a % 2, b % 2) + 2 * Bits(op, a / 2, b / 2, n - 1)
  {}

  lemma LowAndRest(x: nat, low: nat, rest: nat)
    requires low < 2 && x == low + 2 * rest
    ensures x % 2 == low && x / 2 == rest
  {}

  lemma {:induction false} MaskBit(k: nat, i: nat)
    ensures Pow2(k) >= 1 && BitAt(Pow2(k) - 1, i) == if i < k then 1 else 0
    decreases k, i
  {
    Pow2Positive(k);
    if k == 0 {
      ZeroBit(i);
    } else {
      Pow2Positive(k - 1);
      LowAndRest(Pow2(k) - 1, 1, Pow2(k - 1) - 1);
      if i > 0 { MaskBit(k - 1, i - 1); }
    }
  }

  lemma {:induction false} ZeroBit(i: nat)
    ensures BitAt(0, i) == 0
  {
    if i > 0 { ZeroBit(i - 1); }
  }

  lemma {:induction false} ShiftedBit(x: nat, k: nat, i: nat)
    ensures BitAt(x * Pow2(k), i) == if i < k then 0 else BitAt(x, i - k)
    decreases k
  {
    if k > 0 {
      assert x * Pow2(k) == 2 * (x * Pow2(k - 1));
      if i > 0 { ShiftedBit(x, k - 1, i - 1); }
    }
  }

  function Drop(x: nat, k: nat): nat {
    Pow2Positive(k);
    DivBound(x, Pow2(k));
    x / Pow2(k)
  }

  lemma {:induction false} DroppedBit(x: nat, k: nat, i: nat)
    ensures BitAt(Drop(x, k), i) == BitAt(x, i + k)
    decreases k
  {
    if k > 0 {
      DroppedBit(x / 2, k - 1, i);
      Pow2Positive(k - 1);
      DivTwice(x, Pow2(k - 1));
      assert BitAt(x, i + k) == BitAt(x / 2, i + (k - 1));
    } else {
      assert x / 1 == x;
    }
  }

  lemma DivTwice(x: nat, p: nat)
    requires p > 0
    ensures x / (2 * p) == x / 2 / p
  {
    var q, r := x / 2 / p, x / 2 % p;
    assert x / 2 == q * p + r;
    assert x == q * (2 * p) + (2 * r + x % 2);
    ModUnique(x, 2 * p, q, 2 * r + x % 2);
  }

  lemma {:induction false} LowBitsOf(x: nat, n: nat, i: nat)
    ensures Pow2(n) > 0 && BitAt(x % Pow2(n), i) == if i < n then BitAt(x, i) else 0
    decreases n
  {
    Pow2Positive(n);
    if n == 0 {
      ZeroBit(i);
    } else {
      Pow2Positive(n - 1);
      LowHalves(x, Pow2(n - 1));
      if i > 0 { LowBitsOf(x / 2, n - 1, i - 1); }
    }
  }

  lemma LowHalves(x: nat, p: nat)
    requires p > 0
    ensures 2 * p > 0 && x % (2 * p) % 2 == x % 2 && x % (2 * p) / 2 == x / 2 % p
  {
    ModBase(x, 2, p);
    LowAndRest(x % (2 * p), x % 2, x / 2 % p);
  }

  // Numbers below 2^n are their bits.
  lemma {:induction false} SameBits(a: nat, b: nat, n: nat)
    requires a < Pow2(n) && b < Pow2(n) && forall i | 0 <= i < n :: BitAt(a, i) == BitAt(b, i)
    ensures a == b
    decreases n
  {
    if n > 0 {
      assert BitAt(a, 0) == BitAt(b, 0);
      forall i | 0 <= i < n - 1 ensures BitAt(a / 2, i) == BitAt(b / 2, i) {
        assert BitAt(a, i + 1) == BitAt(b, i + 1);
      }
      SameBits(a / 2, b / 2, n - 1);
    }
  }

  lemma {:induction false} NotBit(x: nat, n: nat, i: nat)
    requires i < n && x < Pow2(n)
    ensures BitAt(Pow2(n) - 1 - x, i) == 1 - BitAt(x, i)
    decreases n
  {
    var y := Pow2(n) - 1 - x;
    assert y % 2 == 1 - x % 2 && y / 2 == Pow2(n - 1) - 1 - x / 2;
    if i > 0 { NotBit(x / 2, n - 1, i - 1); }
  }

  // ---- extract and merge -----------------------------------------------------------------------

  // The low `width` bits.
  function FieldMask(width: nat): Word
    requires width <= 32
  {
    Pow2Bound(width);
    Pow2(width) - 1
  }

  // The unit u with the field of v in place.
  function Merge(u: Word, v: Word, width: nat, off: nat): Word
    requires width <= 32 && off <= 32
  {
    Or(Kept(u, width, off), Put(v, width, off))
  }

  function Kept(u: Word, width: nat, off: nat): Word
    requires width <= 32
  {
    And(u, Not(Wrap(FieldMask(width) * Pow2(off))))
  }

  function Put(v: Word, width: nat, off: nat): Word
    requires width <= 32 && off <= 32
  {
    Asl(And(v, FieldMask(width)), off)
  }

  lemma MergeBits(u: Word, v: Word, width: nat, off: nat, i: nat)
    requires 1 <= width && width + off <= 32 && i < 32
    ensures BitAt(Merge(u, v, width, off), i) == if off <= i < off + width then BitAt(v, i - off) else BitAt(u, i)
  {
    hide BitAt, Bits, Kept, Put;
    KeptBit(u, width, off, i);
    PutBit(v, width, off, i);
    BitRange(u, i);
    if i >= off { BitRange(v, i - off); }
    BitsBit(BOr, Kept(u, width, off), Put(v, width, off), 32, i);
  }

  lemma KeptBit(u: Word, width: nat, off: nat, i: nat)
    requires 1 <= width && width + off <= 32 && i < 32
    ensures BitAt(Kept(u, width, off), i) == if off <= i < off + width then 0 else BitAt(u, i)
  {
    hide BitAt, Bits, Pow2, Wrap;
    var place := FieldMask(width) * Pow2(off);
    MaskFits(width, off);
    Pow2Is32();
    BitRange(u, i);
    BitsBit(BAnd, u, Not(place), 32, i);
    NotBit(place, 32, i);
    ShiftedBit(FieldMask(width), off, i);
    if i >= off { MaskBit(width, i - off); }
  }

  lemma PutBit(v: Word, width: nat, off: nat, i: nat)
    requires 1 <= width && width + off <= 32 && i < 32
    ensures BitAt(Put(v, width, off), i) == if off <= i < off + width then BitAt(v, i - off) else 0
  {
    hide BitAt, Bits, Pow2, And, Wrap;
    FieldFits(v, width, off);
    ShiftedBit(v % Pow2(width), off, i);
    if i >= off { LowBitsOf(v, width, i - off); }
  }

  lemma MaskFits(width: nat, off: nat)
    requires 1 <= width && width + off <= 32
    ensures FieldMask(width) * Pow2(off) < MODULUS && Wrap(FieldMask(width) * Pow2(off)) == FieldMask(width) * Pow2(off)
  {
    hide Pow2;
    Pow2Add(width, off);
    Pow2Bound(width + off);
    Pow2Positive(off);
    LessOne(Pow2(width), Pow2(off));
  }

  lemma LessOne(p: int, q: int)
    ensures (p - 1) * q == p * q - q
  {}

  lemma FieldFits(v: Word, width: nat, off: nat)
    requires 1 <= width && width + off <= 32
    ensures Pow2(width) > 0 && And(v, FieldMask(width)) == v % Pow2(width)
    ensures v % Pow2(width) * Pow2(off) < MODULUS && Put(v, width, off) == v % Pow2(width) * Pow2(off)
  {
    hide Pow2, And, Wrap, Put, FieldMask;
    AndMask(v, width);
    MaskIs(width);
    MaskFits(width, off);
    Pow2Positive(width);
    FieldSmall(v, Pow2(width), FieldMask(width), Pow2(off));
    PutIs(v, width, off);
  }

  lemma FieldSmall(v: nat, p: nat, mask: nat, q: nat)
    requires p > 0 && mask == p - 1 && mask * q < MODULUS
    ensures v % p * q < MODULUS && Wrap(v % p * q) == v % p * q
  {
    ModBelow(v, p);
    MulMono(v % p, mask, q);
    WrapIs(v % p * q);
  }

  lemma MaskIs(width: nat)
    requires 1 <= width <= 32
    ensures FieldMask(width) == Pow2(width) - 1
  {}

  lemma PutIs(v: Word, width: nat, off: nat)
    requires 1 <= width && width + off <= 32
    ensures Put(v, width, off) == Wrap(And(v, FieldMask(width)) * Pow2(off))
  {
    hide Pow2, And, Wrap;
    assert off % 64 == off;
  }

  lemma WrapIs(x: nat)
    requires x < MODULUS
    ensures Wrap(x) == x
  {}

  lemma ModBelow(v: nat, p: nat)
    requires p > 0
    ensures v % p <= p - 1
  {}

  // A field's bits as the value of its type.
  function Extend(f: nat, width: nat, uns: bool): Word
    requires 1 <= width <= 32 && f < Pow2(width)
  {
    Pow2Bound(width);
    if uns || f < Pow2(width - 1) then f % MODULUS else Wrap(f - Pow2(width))
  }

  // Shifting the field up to bit 31 and back down isolates and extends it.
  function Isolate(x: Word, width: nat, off: nat, uns: bool): Word
    requires 1 <= width && width + off <= 32
  {
    var up := Asl(x, 32 - width - off);
    if uns then Lsr(up, 32 - width) else Asr(up, 32 - width)
  }

  function FieldOf(x: nat, width: nat, off: nat): (f: nat)
    ensures f < Pow2(width)
  {
    Pow2Positive(width);
    Drop(x, off) % Pow2(width)
  }

  lemma IsolateIs(x: Word, width: nat, off: nat, uns: bool)
    requires 1 <= width && width + off <= 32
    ensures Isolate(x, width, off, uns) == Extend(FieldOf(x, width, off), width, uns)
  {
    hide Pow2, Lsr, Asr, Wrap, Extend;
    var a, b, c, d := Pow2(32 - width - off), Pow2(off), Pow2(width), Pow2(32 - width);
    Pow2Positive(off);
    Pow2Positive(width);
    Pow2Positive(32 - width - off);
    Pow2Add(32 - width - off, off);
    Pow2Add(32 - width, width);
    Pow2Is32();
    var f, lo, hi := FieldOf(x, width, off), x % b, x / b / c;
    DivMod(x, b);
    DivMod(x / b, c);
    TopBits(x, a, b, c, f, lo, hi);
    assert (32 - width - off) % 64 == 32 - width - off;
    DivideDown(f, lo, a, b, c, d, width, uns, Asl(x, 32 - width - off));
  }

  lemma DivMod(x: nat, b: nat)
    requires b > 0
    ensures x == x / b * b + x % b && x % b < b
  {}

  // x = hi*c*b + f*b + lo, multiplied by a where a*b*c = 2^32.
  lemma TopBits(x: nat, a: nat, b: nat, c: nat, f: nat, lo: nat, hi: nat)
    requires a > 0 && b > 0 && c > 0 && a * b * c == MODULUS
    requires x == (hi * c + f) * b + lo && f < c && lo < b
    ensures Wrap(x * a) == f * (a * b) + lo * a && lo * a < a * b
  {
    MulLess(lo, b, a);
    MulStep(f, c, a * b);
    assert x * a == hi * (a * b * c) + (f * (a * b) + lo * a) by {
      assert (hi * c + f) * b * a == (hi * c) * (a * b) + f * (a * b) by { Distribute(hi * c, f, b, a); }
      assert (hi * c) * (a * b) == hi * (a * b * c) by { Regroup(hi, c, a * b); }
      assert x * a == (hi * c + f) * b * a + lo * a by { Distribute1((hi * c + f) * b, lo, a); }
    }
    assert a * b * c == c * (a * b);
    ModUnique(x * a, MODULUS, hi, f * (a * b) + lo * a);
  }

  lemma Distribute(x: int, y: int, b: int, a: int)
    ensures (x + y) * b * a == x * (a * b) + y * (a * b)
  {
    assert (x + y) * b * a == (x + y) * (a * b);
  }

  lemma Distribute1(x: int, y: int, a: int)
    ensures (x + y) * a == x * a + y * a
  {}

  lemma Regroup(hi: int, c: int, d: int)
    ensures (hi * c) * d == hi * (d * c)
  {
    assert (hi * c) * d == hi * (c * d);
  }

  lemma MulLess(x: nat, y: nat, a: nat)
    requires x < y && a > 0
    ensures x * a < a * y
  {
    MulMono(x + 1, y, a);
    assert (x + 1) * a == x * a + a;
  }

  lemma MulStep(f: nat, c: nat, d: nat)
    requires f < c
    ensures f * d + d <= c * d
  {
    MulMono(f + 1, c, d);
    assert (f + 1) * d == f * d + d;
  }

  lemma DivideDown(f: nat, lo: nat, a: nat, b: nat, c: nat, d: nat, width: nat, uns: bool, up: Word)
    requires 1 <= width <= 32 && c == Pow2(width) && d == Pow2(32 - width) && d == a * b && MODULUS == d * c
    requires f < c && lo * a < d && up == f * d + lo * a
    ensures (if uns then Lsr(up, 32 - width) else Asr(up, 32 - width)) == Extend(f, width, uns)
  {
    hide Pow2, Wrap;
    Pow2Bound(width);
    assert (32 - width) % 64 == 32 - width;
    ModUnique(up, d, f, lo * a);
    if !uns { SignedDown(f, lo * a, c, d, width, up); } else { SmallField(f, c); }
  }

  lemma SmallField(f: nat, c: nat)
    requires f < c <= MODULUS
    ensures f % MODULUS == f
  {}

  lemma HalfPow(width: nat)
    requires width >= 1
    ensures Pow2(width) == 2 * Pow2(width - 1)
  {}

  lemma SignedDown(f: nat, lo: nat, c: nat, d: nat, width: nat, up: Word)
    requires 1 <= width <= 32 && c == Pow2(width) && d == Pow2(32 - width) > 0 && MODULUS == d * c
    requires f < c && lo < d && up == f * d + lo
    ensures Asr(up, 32 - width) == Extend(f, width, false)
  {
    hide Pow2;
    Pow2Bound(width);
    HalfPow(width);
    assert (32 - width) % 64 == 32 - width;
    var half: int := Pow2(width - 1);
    TwiceHalf(half, d);
    if f < half {
      MulStep(f, half, d);
      ModUnique(up, d, f, lo);
    } else {
      MulMono(half, f, d);
      Distribute1(f, 0 - c, d);
      NegMul(c, d);
      ModUnique(up - MODULUS, d, f - c, lo);
    }
  }

  lemma TwiceHalf(half: int, d: int)
    ensures d * (2 * half) == 2 * (half * d)
  {}

  lemma NegMul(c: int, d: int)
    ensures (0 - c) * d == 0 - c * d
  {}

  // ---- bits of memory --------------------------------------------------------------------------------

  // Bit k of the object at p, most significant bit of the first byte first.
  function MemBit(m: Mem, p: int, k: nat): nat { BitAt(Peek(m, p + k / 8), 7 - k % 8) }

  lemma {:induction false} ByteBits(hi: nat, lo: nat, i: nat)
    requires lo < 256
    ensures BitAt(hi * 256 + lo, i) == if i < 8 then BitAt(lo, i) else BitAt(hi, i - 8)
  {
    hide BitAt;
    assert Pow2(8) == 256;
    ModUnique(hi * 256 + lo, 256, hi, lo);
    if i < 8 { LowBitsOf(hi * 256 + lo, 8, i); } else { DroppedBit(hi * 256 + lo, 8, i - 8); }
  }

  lemma {:induction false} ReadBit(m: Mem, p: int, n: nat, k: nat)
    requires 0 <= p && p + n <= MODULUS && k < 8 * n
    ensures BitAt(Read(m, p, n), 8 * n - 1 - k) == MemBit(m, p, k)
    decreases n
  {
    hide BitAt, Peek;
    SlotInRange(p, n - 1);
    ByteBits(Read(m, p, n - 1), Peek(m, p + n - 1), 8 * n - 1 - k);
    if k < 8 * (n - 1) { ReadBit(m, p, n - 1, k); }
  }

  lemma {:induction false} WriteBit(m: Mem, p: int, n: nat, v: nat, k: nat)
    requires 0 <= p && p + n <= MODULUS && k < 8 * n
    ensures MemBit(Write(m, p, n, v), p, k) == BitAt(v, 8 * n - 1 - k)
    decreases n
  {
    SlotInRange(p, n - 1);
    assert v == v / 256 * 256 + v % 256;
    ByteBits(v / 256, v % 256, 8 * n - 1 - k);
    if k < 8 * (n - 1) {
      WriteBit(m, p, n - 1, v / 256, k);
      assert p + k / 8 != p + n - 1;
    }
  }

  // ---- the stored field, as bits of the struct ----------------------------------------------------------

  // Memory after the unit at p is rewritten with v's field.
  function StoreField(m: Mem, p: int, size: nat, v: Word, width: nat, off: nat): Mem
    requires (size == 1 || size == 2 || size == 4) && width <= 32 && off <= 32
  {
    ReadIsWord(m, p, size);
    Write(m, p, size, Merge(Read(m, p, size), v, width, off))
  }

  ghost predicate FieldShape(base: int, start: nat, offset: nat, size: nat, width: nat, off: nat) {
    && (size == 1 || size == 2 || size == 4) && 1 <= width && width + off <= 8 * size
    && start == 8 * offset + (8 * size - off - width)
    && 0 <= base && base + offset + size <= MODULUS
  }

  // The bits of the field become v's, and no other bit of memory changes.
  lemma StoreFieldBits(m: Mem, base: int, v: Word, start: nat, offset: nat, size: nat, width: nat, off: nat, k: nat)
    requires FieldShape(base, start, offset, size, width, off) && base + k / 8 < MODULUS
    ensures MemBit(StoreField(m, base + offset, size, v, width, off), base, k)
         == if start <= k < start + width then BitAt(v, start + width - 1 - k) else MemBit(m, base, k)
  {
    hide Write, Read, Merge, BitAt, MemBit;
    var p := base + offset;
    ReadIsWord(m, p, size);
    var u := Read(m, p, size);
    if 8 * offset <= k < 8 * (offset + size) {
      var j := k - 8 * offset;
      Rebase(m, base, offset, k);
      Rebase(StoreField(m, p, size, v, width, off), base, offset, k);
      WriteBit(m, p, size, Merge(u, v, width, off), j);
      ReadBit(m, p, size, j);
      MergeBits(u, v, width, off, 8 * size - 1 - j);
    } else {
      SameByte(m, p, size, Merge(u, v, width, off), base, k);
    }
  }

  lemma Rebase(m: Mem, base: int, offset: nat, k: nat)
    requires k >= 8 * offset
    ensures MemBit(m, base, k) == MemBit(m, base + offset, k - 8 * offset)
  {
    assert k / 8 == offset + (k - 8 * offset) / 8 && k % 8 == (k - 8 * offset) % 8;
  }

  lemma SameByte(m: Mem, p: int, size: nat, x: Word, base: int, k: nat)
    requires 0 <= p && p + size <= MODULUS && !(p <= base + k / 8 < p + size)
    ensures MemBit(Write(m, p, size, x), base, k) == MemBit(m, base, k)
  {
    WriteElsewhere(m, p, size, x, base + k / 8);
  }

  // What a load of the field gives: its bits, extended as its type says.
  function LoadField(m: Mem, p: int, size: nat, width: nat, off: nat, uns: bool): Word
    requires (size == 1 || size == 2 || size == 4) && 1 <= width && width + off <= 8 * size
  {
    Extend(FieldOf(Read(m, p, size), width, off), width, uns)
  }

  // Bit i of a field, counted from the least significant, is a bit of the struct.
  lemma FieldBit(m: Mem, base: int, start: nat, offset: nat, size: nat, width: nat, off: nat, i: nat)
    requires FieldShape(base, start, offset, size, width, off) && i < width
    ensures BitAt(FieldOf(Read(m, base + offset, size), width, off), i) == MemBit(m, base, start + width - 1 - i)
  {
    hide Read, BitAt, MemBit, Pow2;
    Pow2Positive(off);
    Pow2Positive(width);
    var u := Read(m, base + offset, size);
    LowBitsOf(Drop(u, off), width, i);
    DroppedBit(u, off, i);
    var k := 8 * size - 1 - (i + off);
    ReadBit(m, base + offset, size, k);
    Rebase(m, base, offset, k + 8 * offset);
  }

  // Loading a field just stored gives the value truncated to its width and extended.
  lemma StoreThenLoad(m: Mem, base: int, v: Word, start: nat, offset: nat, size: nat, width: nat, off: nat, uns: bool)
    requires FieldShape(base, start, offset, size, width, off)
    ensures Pow2(width) > 0
    ensures LoadField(StoreField(m, base + offset, size, v, width, off), base + offset, size, width, off, uns)
         == Extend(v % Pow2(width), width, uns)
  {
    hide Read, Write, BitAt, MemBit, StoreField;
    Pow2Positive(width);
    var m2 := StoreField(m, base + offset, size, v, width, off);
    var f := FieldOf(Read(m2, base + offset, size), width, off);
    forall i | 0 <= i < width ensures BitAt(f, i) == BitAt(v % Pow2(width), i) {
      FieldBit(m2, base, start, offset, size, width, off, i);
      var k := start + width - 1 - i;
      StoreFieldBits(m, base, v, start, offset, size, width, off, k);
      LowBitsOf(v, width, i);
    }
    SameBits(f, v % Pow2(width), width);
  }

  // A store to one field leaves what every other member loads alone.
  lemma OtherFieldKept(m: Mem, base: int, v: Word, start: nat, offset: nat, size: nat, width: nat, off: nat,
                       start2: nat, offset2: nat, size2: nat, width2: nat, off2: nat, uns2: bool)
    requires FieldShape(base, start, offset, size, width, off) && FieldShape(base, start2, offset2, size2, width2, off2)
    requires start + width <= start2 || start2 + width2 <= start
    ensures var m2 := StoreField(m, base + offset, size, v, width, off);
      LoadField(m2, base + offset2, size2, width2, off2, uns2) == LoadField(m, base + offset2, size2, width2, off2, uns2)
  {
    hide Read, Write, BitAt, MemBit, StoreField;
    var m2 := StoreField(m, base + offset, size, v, width, off);
    var f, g := FieldOf(Read(m2, base + offset2, size2), width2, off2), FieldOf(Read(m, base + offset2, size2), width2, off2);
    forall i | 0 <= i < width2 ensures BitAt(f, i) == BitAt(g, i) {
      FieldBit(m2, base, start2, offset2, size2, width2, off2, i);
      FieldBit(m, base, start2, offset2, size2, width2, off2, i);
      StoreFieldBits(m, base, v, start, offset, size, width, off, start2 + width2 - 1 - i);
    }
    SameBits(f, g, width2);
  }

  // ---- struct members ------------------------------------------------------------------------------------------

  // The members struct_decl lays out: a store to one bit-field changes no bit of another
  // member, bit-field or not.
  lemma MembersIndependent(ds: seq<Decl>, i: nat, j: nat, offset: nat, off: nat, m: Mem, base: int, v: Word, k: nat)
    requires GoodDecls(ds) && i < |ds| && j < |ds| && i != j && ds[i].isBitfield && ds[i].width > 0
    requires Places(ds[i], offset, off, Starts(ds, 0)[i]) && 0 <= base && base + offset + ds[i].size <= MODULUS
    requires Starts(ds, 0)[j] <= k < Starts(ds, 0)[j] + BitLength(ds[j]) && base + k / 8 < MODULUS
    ensures MemBit(StoreField(m, base + offset, ds[i].size, v, ds[i].width, off), base, k) == MemBit(m, base, k)
  {
    hide StoreField, MemBit, Starts;
    if i < j { MembersDisjoint(ds, i, j, 0); } else { MembersDisjoint(ds, j, i, 0); }
    StoreFieldBits(m, base, v, Starts(ds, 0)[i], offset, ds[i].size, ds[i].width, off, k);
  }
}
