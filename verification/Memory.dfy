// Byte-addressed big-endian memory. Addresses not yet written read as zero.
module Memory {
  import opened Words

  type Mem = imap<int, Byte>

  function Peek(m: Mem, a: int): Byte { if a in m then m[a] else 0 }

  // Address of the i-th byte of an object at `a`.
  function Slot(a: int, i: int): Word { Wrap(a + i) }

  // The `n` bytes at `a`, most significant first; addresses wrap at 2^32.
  function Read(m: Mem, a: int, n: nat): nat {
    if n == 0 then 0 else Read(m, a, n - 1) * 256 + Peek(m, Slot(a, n - 1))
  }

  function Write(m: Mem, a: int, n: nat, v: nat): Mem {
    if n == 0 then m else Poke(Write(m, a, n - 1, v / 256), Slot(a, n - 1), v % 256)
  }

  function Poke(m: Mem, x: int, v: Byte): Mem { m[x := v] }

  function Base256(n: nat): (b: nat)
    ensures b > 0
  {
    if n == 0 then 1 else 256 * Base256(n - 1)
  }

  // Zero `n` bytes starting at `a`.
  function Zero(m: Mem, a: int, n: nat): Mem {
    if n == 0 then m else Poke(Zero(m, a, n - 1), Slot(a, n - 1), 0)
  }

  // No byte of [a, a + n) falls in [lo, hi).
  ghost predicate Avoids(a: int, n: int, lo: int, hi: int) {
    forall i | 0 <= i < n :: !(lo <= Slot(a, i) < hi)
  }

  ghost predicate AgreeOutside(m1: Mem, m2: Mem, lo: int, hi: int) {
    forall a :: 0 <= a < MODULUS && !(lo <= a < hi) ==> Peek(m1, a) == Peek(m2, a)
  }

  ghost predicate AgreeInside(m1: Mem, m2: Mem, lo: int, hi: int) {
    forall a :: lo <= a < hi ==> Peek(m1, a) == Peek(m2, a)
  }

  // The memory a program can observe: everything outside [lo, hi), as one canonical value.
  ghost function Visible(m: Mem, lo: int, hi: int): Mem {
    imap a: int | true :: if 0 <= a < MODULUS && !(lo <= a < hi) then Peek(m, a) else 0
  }

  // Memory of `outer` outside [lo, hi) and of `inner` inside it.
  ghost function Overlay(outer: Mem, inner: Mem, lo: int, hi: int): Mem {
    imap a: int | true :: if lo <= a < hi then Peek(inner, a) else Peek(outer, a)
  }

  lemma {:induction false} ReadBound(m: Mem, a: int, n: nat)
    ensures Read(m, a, n) < Base256(n)
  {
    if n > 0 { ReadBound(m, a, n - 1); }
  }

  lemma ReadIsWord(m: Mem, a: int, n: nat)
    requires n <= 4
    ensures Read(m, a, n) < MODULUS
    ensures n == 1 ==> Read(m, a, n) < 256
    ensures n == 2 ==> Read(m, a, n) < 65536
  {
    ReadBound(m, a, n);
    assert Base256(1) == 256 && Base256(2) == 65536 && Base256(4) == MODULUS;
    assert n == 3 ==> Base256(n) <= MODULUS;
  }

  lemma {:induction false} ReadAgree(m1: Mem, m2: Mem, a: int, n: nat, lo: int, hi: int)
    requires AgreeOutside(m1, m2, lo, hi) && Avoids(a, n, lo, hi)
    ensures Read(m1, a, n) == Read(m2, a, n)
  {
    if n > 0 {
      assert !(lo <= Slot(a, n - 1) < hi);
      ReadAgree(m1, m2, a, n - 1, lo, hi);
    }
  }

  lemma {:induction false} ReadInside(m1: Mem, m2: Mem, a: int, n: nat, lo: int, hi: int)
    requires AgreeInside(m1, m2, lo, hi) && 0 <= lo <= a && a + n <= hi <= MODULUS
    ensures Read(m1, a, n) == Read(m2, a, n)
  {
    if n > 0 {
      SlotInRange(a, n - 1);
      ReadInside(m1, m2, a, n - 1, lo, hi);
    }
  }

  // What a write leaves alone.
  lemma {:induction false} WriteFrame(m: Mem, a: int, n: nat, v: nat, b: int)
    requires forall i | 0 <= i < n :: Slot(a, i) != b
    ensures Peek(Write(m, a, n, v), b) == Peek(m, b)
  {
    if n > 0 {
      assert Slot(a, n - 1) != b;
      WriteFrame(m, a, n - 1, v / 256, b);
    }
  }

  lemma PokeAgree(m1: Mem, m2: Mem, x: int, v: Byte, lo: int, hi: int)
    requires AgreeOutside(m1, m2, lo, hi)
    ensures AgreeOutside(Poke(m1, x, v), Poke(m2, x, v), lo, hi)
  {
    forall b | 0 <= b < MODULUS && !(lo <= b < hi)
      ensures Peek(Poke(m1, x, v), b) == Peek(Poke(m2, x, v), b)
    {
      assert Peek(m1, b) == Peek(m2, b);
    }
  }

  lemma {:induction false} WriteAgree(m1: Mem, m2: Mem, a: int, n: nat, v: nat, lo: int, hi: int)
    requires AgreeOutside(m1, m2, lo, hi)
    ensures AgreeOutside(Write(m1, a, n, v), Write(m2, a, n, v), lo, hi)
  {
    if n > 0 {
      WriteAgree(m1, m2, a, n - 1, v / 256, lo, hi);
      PokeAgree(Write(m1, a, n - 1, v / 256), Write(m2, a, n - 1, v / 256), Slot(a, n - 1), v % 256, lo, hi);
    }
  }

  lemma WriteKeepsInside(m: Mem, a: int, n: nat, v: nat, lo: int, hi: int)
    requires Avoids(a, n, lo, hi)
    ensures AgreeInside(Write(m, a, n, v), m, lo, hi)
  {
    forall b | lo <= b < hi ensures Peek(Write(m, a, n, v), b) == Peek(m, b) {
      WriteFrame(m, a, n, v, b);
    }
  }

  // A write inside [lo, hi) is invisible outside it and leaves the rest of it alone.
  lemma WriteInside(m: Mem, a: int, n: nat, v: nat, lo: int, hi: int)
    requires 0 <= lo <= a && a + n <= hi <= MODULUS
    ensures AgreeOutside(Write(m, a, n, v), m, lo, hi)
    ensures AgreeInside(Write(m, a, n, v), m, a + n, hi)
    ensures AgreeInside(Write(m, a, n, v), m, lo, a)
  {
    forall b | (0 <= b < MODULUS || lo <= b < hi) && !(a <= b < a + n)
      ensures Peek(Write(m, a, n, v), b) == Peek(m, b)
    {
      WriteElsewhere(m, a, n, v, b);
    }
  }

  lemma WriteElsewhere(m: Mem, a: int, n: nat, v: nat, b: int)
    requires 0 <= a && a + n <= MODULUS && !(a <= b < a + n)
    ensures Peek(Write(m, a, n, v), b) == Peek(m, b)
  {
    forall i | 0 <= i < n ensures Slot(a, i) != b { SlotInRange(a, i); }
    WriteFrame(m, a, n, v, b);
  }

  lemma SlotInRange(a: int, i: int)
    requires 0 <= a + i < MODULUS
    ensures Slot(a, i) == a + i
  {}

  lemma {:induction false} ReadBack(m: Mem, a: int, n: nat, v: nat)
    requires 0 <= a && a + n <= MODULUS
    ensures Read(Write(m, a, n, v), a, n) == v % Base256(n)
  {
    if n > 0 {
      ReadBack(m, a, n - 1, v / 256);
      var inner := Write(m, a, n - 1, v / 256);
      assert AgreeInside(Write(m, a, n, v), inner, a, a + n - 1);
      ReadInside(Write(m, a, n, v), inner, a, n - 1, a, a + n - 1);
      ModBase(v, 256, Base256(n - 1));
    }
  }

  lemma ReadBackWord(m: Mem, a: int, v: Word)
    requires 0 <= a && a + 4 <= MODULUS
    ensures Read(Write(m, a, 4, v), a, 4) == v
  {
    ReadBack(m, a, 4, v);
    assert Base256(4) == MODULUS;
  }

  lemma {:induction false} ZeroAgree(m1: Mem, m2: Mem, a: int, n: nat, lo: int, hi: int)
    requires AgreeOutside(m1, m2, lo, hi)
    ensures AgreeOutside(Zero(m1, a, n), Zero(m2, a, n), lo, hi)
  {
    if n > 0 {
      ZeroAgree(m1, m2, a, n - 1, lo, hi);
      PokeAgree(Zero(m1, a, n - 1), Zero(m2, a, n - 1), Slot(a, n - 1), 0, lo, hi);
    }
  }

  lemma {:induction false} ZeroKeepsInside(m: Mem, a: int, n: nat, lo: int, hi: int)
    requires Avoids(a, n, lo, hi)
    ensures AgreeInside(Zero(m, a, n), m, lo, hi)
  {
    if n > 0 {
      assert !(lo <= Slot(a, n - 1) < hi);
      assert Avoids(a, n - 1, lo, hi);
      ZeroKeepsInside(m, a, n - 1, lo, hi);
    }
  }

  // Clearing n bytes and then k more with zero writes is clearing n + k bytes.
  lemma {:induction false} ZeroExtend(m: Mem, a: int, n: nat, k: nat)
    ensures Write(Zero(m, a, n), a + n, k, 0) == Zero(m, a, n + k)
  {
    if k > 0 { ZeroExtend(m, a, n, k - 1); }
  }

  lemma VisibleEqual(m1: Mem, m2: Mem, lo: int, hi: int)
    requires AgreeOutside(m1, m2, lo, hi)
    ensures Visible(m1, lo, hi) == Visible(m2, lo, hi)
  {}
}
