// Placement of struct members and bit-fields.
module Layout {
  import opened Words

  // A member's declaration: size and alignment of its type, and for a bit-field its width.
  datatype Decl = Decl(isBitfield: bool, width: nat, size: nat, align: nat)

  // Units the code generator reads and writes; alignments are positive. Other members may
  // be empty, as a flexible array is.
  predicate GoodDecl(d: Decl) {
    && d.align > 0
    && (d.isBitfield ==> (d.size == 1 || d.size == 2 || d.size == 4) && d.width <= 8 * d.size)
  }

  function AlignTo(n: nat, align: nat): nat
    requires align > 0
  {
    (n + align - 1) / align * align
  }

  // Rounds n - align + 1 up; C's division truncates a negative one to zero.
  function AlignDown(n: nat, align: nat): int
    requires align > 0
  {
    TruncDiv(n - align + 1 + align - 1, align) * align
  }

  // Where a member starts, counting bits from the start of the struct, most significant
  // first; and the first bit behind it.
  function StartBit(d: Decl, bits: nat): nat
    requires GoodDecl(d)
  {
    if !d.isBitfield then AlignTo(bits, d.align * 8)
    else if d.width == 0 then bits
    else if bits / (d.size * 8) != (bits + d.width - 1) / (d.size * 8) then AlignTo(bits, d.size * 8)
    else bits
  }

  function EndBit(d: Decl, bits: nat): nat
    requires GoodDecl(d)
  {
    if !d.isBitfield then StartBit(d, bits) + d.size * 8
    else if d.width == 0 then AlignTo(bits, d.size * 8)
    else StartBit(d, bits) + d.width
  }

  lemma AlignUp(n: nat, align: nat)
    requires align > 0
    ensures n <= AlignTo(n, align) < n + align && AlignTo(n, align) % align == 0
  {
    var q, r := (n + align - 1) / align, (n + align - 1) % align;
    assert n + align - 1 == q * align + r;
    ModUnique(q * align, align, q, 0);
  }

  lemma AlignDownIs(n: nat, align: nat)
    requires align > 0
    ensures AlignDown(n, align) == n / align * align
  {}

  predicate GoodDecls(ds: seq<Decl>) { forall k | 0 <= k < |ds| :: GoodDecl(ds[k]) }

  // First bits of the members, in order, from bit `bits` on.
  function Starts(ds: seq<Decl>, bits: nat): (r: seq<nat>)
    requires GoodDecls(ds)
    ensures |r| == |ds|
  {
    if ds == [] then [] else [StartBit(ds[0], bits)] + Starts(ds[1..], EndBit(ds[0], bits))
  }

  function TotalBits(ds: seq<Decl>, bits: nat): nat
    requires GoodDecls(ds)
  {
    if ds == [] then bits else TotalBits(ds[1..], EndBit(ds[0], bits))
  }

  function BitLength(d: Decl): nat { if d.isBitfield then d.width else d.size * 8 }

  lemma StartsAfter(d: Decl, bits: nat)
    requires GoodDecl(d)
    ensures bits <= StartBit(d, bits) && StartBit(d, bits) + BitLength(d) <= EndBit(d, bits)
  {
    AlignUp(bits, d.align * 8);
    if d.isBitfield { AlignUp(bits, d.size * 8); }
  }

  lemma {:induction false} StartFrom(ds: seq<Decl>, i: nat, bits: nat)
    requires i < |ds| && GoodDecls(ds)
    ensures bits <= Starts(ds, bits)[i]
    decreases i
  {
    hide StartBit, EndBit;
    StartsAfter(ds[0], bits);
    if i > 0 { StartFrom(ds[1..], i - 1, EndBit(ds[0], bits)); }
  }

  // Members occupy disjoint ranges of bits, in order of declaration.
  lemma {:induction false} MembersDisjoint(ds: seq<Decl>, i: nat, j: nat, bits: nat)
    requires i < j < |ds| && GoodDecls(ds)
    ensures Starts(ds, bits)[i] + BitLength(ds[i]) <= Starts(ds, bits)[j]
    decreases i
  {
    hide StartBit, EndBit, BitLength;
    StartsAfter(ds[0], bits);
    if i == 0 {
      StartFrom(ds[1..], j - 1, EndBit(ds[0], bits));
    } else {
      MembersDisjoint(ds[1..], i - 1, j - 1, EndBit(ds[0], bits));
    }
  }

  // ---- offsets ------------------------------------------------------------------------------

  // A bit-field's unit and its shift from the least significant bit place it at `start`.
  predicate Places(d: Decl, offset: int, bitOffset: int, start: nat)
    requires d.isBitfield ==> d.size > 0
  {
    && offset >= 0
    && (if d.isBitfield then
          && offset % d.size == 0 && 0 <= bitOffset && bitOffset + d.width <= 8 * d.size
          && 8 * offset + (8 * d.size - bitOffset - d.width) == start
        else 8 * offset == start)
  }

  lemma FieldPlaced(d: Decl, bits: nat)
    requires GoodDecl(d) && d.isBitfield && d.width > 0
    ensures var start := StartBit(d, bits); var unit := d.size * 8;
      Places(d, AlignDown(start / 8, d.size), unit - start % unit - d.width, start)
  {
    hide StartBit, AlignDown;
    var start := StartBit(d, bits);
    AlignDownIs(start / 8, d.size);
    FitsUnit(d, bits);
    UnitPlaces(start, d.size, d.width);
  }

  lemma UnitPlaces(start: nat, size: nat, width: nat)
    requires size == 1 || size == 2 || size == 4
    requires start % (size * 8) + width <= size * 8
    ensures var off, bo := start / 8 / size * size, size * 8 - start % (size * 8) - width;
      off >= 0 && off % size == 0 && bo >= 0 && 8 * off + (8 * size - bo - width) == start
  {
    if size == 1 {
    } else if size == 2 {
    } else {
    }
  }

  // After the straddling test the field lies in one unit.
  lemma FitsUnit(d: Decl, bits: nat)
    requires GoodDecl(d) && d.isBitfield && d.width > 0
    ensures StartBit(d, bits) % (d.size * 8) + d.width <= d.size * 8
  {
    AlignUp(bits, d.size * 8);
  }

  class Member {
    const decl: Decl
    var offset: int
    var bitOffset: int

    constructor (decl: Decl)
      ensures this.decl == decl && offset == 0 && bitOffset == 0
    {
      this.decl := decl;
      offset, bitOffset := 0, 0;
    }
  }

  function Decls(ms: seq<Member>): (ds: seq<Decl>)
    ensures |ds| == |ms| && forall i | 0 <= i < |ms| :: ds[i] == ms[i].decl
  {
    seq(|ms|, i requires 0 <= i < |ms| => ms[i].decl)
  }

  // Where a member goes when what precedes it ends at bit `before`, and where it ends. An
  // ordinary member has the least offset that suits its alignment. A bit-field begins at the
  // next bit, or at the next unit if it would straddle two; one of no width only ends a unit.
  ghost predicate Follows(d: Decl, offset: int, bitOffset: int, before: nat, after: nat) {
    if !d.isBitfield then
      && d.align > 0 && offset >= 0 && offset % d.align == 0
      && before <= 8 * offset < before + 8 * d.align && after == 8 * (offset + d.size)
    else
      var unit := 8 * d.size;
      if d.width == 0 then unit > 0 && after % unit == 0 && before <= after < before + unit
      else
        var start := after - d.width;
        && unit > 0 && offset >= 0 && offset % d.size == 0 && 0 <= bitOffset <= unit - d.width
        && start == 8 * offset + (unit - bitOffset - d.width)
        && (if before % unit + d.width <= unit then start == before
            else start % unit == 0 && before <= start < before + unit)
  }

  // struct_decl of a struct that is not packed. `marks` are the bits at which the members end.
  method StructDecl(ms: seq<Member>, align0: nat) returns (size: nat, align: nat, ghost marks: seq<nat>)
    requires align0 > 0 && GoodDecls(Decls(ms))
    requires forall i, j | 0 <= i < j < |ms| :: ms[i] != ms[j]
    modifies ms
    ensures |marks| == |ms| + 1 && marks[0] == 0
    ensures forall i | 0 <= i < |ms| :: Follows(ms[i].decl, ms[i].offset, ms[i].bitOffset, marks[i], marks[i + 1])
    ensures align >= align0 && (forall i | 0 <= i < |ms| :: align >= ms[i].decl.align)
    ensures align == align0 || exists i :: 0 <= i < |ms| && align == ms[i].decl.align
    ensures size % align == 0 && marks[|ms|] <= size * 8 < marks[|ms|] + align * 8
    ensures forall i | 0 <= i < |ms| && (ms[i].decl.isBitfield ==> ms[i].decl.width > 0) ::
      Places(ms[i].decl, ms[i].offset, ms[i].bitOffset, Starts(Decls(ms), 0)[i])
    ensures marks[|ms|] == TotalBits(Decls(ms), 0)
  {
    hide StartBit, EndBit, Places, TotalBits, Starts, Follows;
    ghost var ds := Decls(ms);
    ghost var starts := Starts(ds, 0);
    align, marks := align0, [0];
    var bits := 0;
    var i := 0;
    assert ds[0..] == ds;
    while i < |ms|
      invariant i <= |ms| && align >= align0 && forall k | 0 <= k < i :: align >= ms[k].decl.align
      invariant align == align0 || exists k :: 0 <= k < i && align == ms[k].decl.align
      invariant |marks| == i + 1 && marks[0] == 0 && marks[i] == bits
      invariant forall k | 0 <= k < i :: Follows(ms[k].decl, ms[k].offset, ms[k].bitOffset, marks[k], marks[k + 1])
      invariant TotalBits(ds[i..], bits) == TotalBits(ds, 0)
      invariant Starts(ds[i..], bits) == starts[i..]
      invariant forall k | 0 <= k < i && (ms[k].decl.isBitfield ==> ms[k].decl.width > 0) ::
        Places(ms[k].decl, ms[k].offset, ms[k].bitOffset, starts[k])
    {
      var d := ms[i].decl;
      NextMember(ds, i, bits);
      assert starts[i..][0] == starts[i] && starts[i..][1..] == starts[i + 1..];
      bits := PlaceMember(ms[i], bits, starts[i]);
      marks := marks + [bits];
      if align < d.align { align := d.align; }
      i := i + 1;
    }
    assert ds[i..] == [];
    NoMoreBits(bits);
    AlignUp(bits, align * 8);
    WholeBytes(AlignTo(bits, align * 8), align);
    size := AlignTo(bits, align * 8) / 8;
  }

  lemma NoMoreBits(bits: nat)
    ensures TotalBits([], bits) == bits
  {}

  lemma WholeBytes(n: nat, align: nat)
    requires align > 0 && n % (align * 8) == 0
    ensures n / 8 % align == 0 && n / 8 * 8 == n
  {
    var q := n / (align * 8);
    assert n == q * (align * 8) == (q * align) * 8;
    ModUnique(q * align, align, q, 0);
  }

  lemma NextMember(ds: seq<Decl>, i: nat, bits: nat)
    requires i < |ds| && GoodDecls(ds)
    ensures Starts(ds[i..], bits) == [StartBit(ds[i], bits)] + Starts(ds[i + 1..], EndBit(ds[i], bits))
    ensures TotalBits(ds[i..], bits) == TotalBits(ds[i + 1..], EndBit(ds[i], bits))
  {
    hide StartBit, EndBit;
    assert ds[i..][0] == ds[i] && ds[i..][1..] == ds[i + 1..];
  }

  // The body of struct_decl's loop.
  method PlaceMember(mem: Member, bits0: nat, ghost start: nat) returns (bits: nat)
    requires GoodDecl(mem.decl) && start == StartBit(mem.decl, bits0)
    modifies mem
    ensures Follows(mem.decl, mem.offset, mem.bitOffset, bits0, bits)
    ensures bits == EndBit(mem.decl, bits0)
    ensures (mem.decl.isBitfield ==> mem.decl.width > 0) ==> Places(mem.decl, mem.offset, mem.bitOffset, start)
  {
    hide Follows, AlignTo, AlignDown;
    bits := bits0;
    var d := mem.decl;
    if d.isBitfield && d.width == 0 {
      bits := AlignTo(bits, d.size * 8);
      EmptyFollows(d, mem.offset, mem.bitOffset, bits0);
    } else if d.isBitfield {
      var sz := d.size;
      if bits / (sz * 8) != (bits + d.width - 1) / (sz * 8) {
        bits := AlignTo(bits, sz * 8);
      }
      FieldPlaced(d, bits0);
      FieldFollows(d, AlignDown(bits / 8, sz), sz * 8 - bits % (sz * 8) - d.width, bits0);
      mem.offset := AlignDown(bits / 8, sz);
      mem.bitOffset := sz * 8 - bits % (sz * 8) - d.width;
      bits := bits + d.width;
    } else {
      bits := AlignTo(bits, d.align * 8);
      AlignUp(bits0, d.align * 8);
      WholeBytes(bits, d.align);
      mem.offset := bits / 8;
      bits := bits + d.size * 8;
      PlainFollows(d, mem.offset, mem.bitOffset, bits0);
    }
  }

  lemma EmptyFollows(d: Decl, offset: int, bitOffset: int, bits: nat)
    requires GoodDecl(d) && d.isBitfield && d.width == 0
    ensures Follows(d, offset, bitOffset, bits, AlignTo(bits, d.size * 8))
  {
    hide AlignTo;
    AlignUp(bits, d.size * 8);
  }

  lemma PlainFollows(d: Decl, offset: int, bitOffset: int, bits: nat)
    requires d.align > 0 && !d.isBitfield && offset == AlignTo(bits, d.align * 8) / 8
    ensures Follows(d, offset, bitOffset, bits, AlignTo(bits, d.align * 8) + d.size * 8)
  {
    hide AlignTo;
    AlignUp(bits, d.align * 8);
    WholeBytes(AlignTo(bits, d.align * 8), d.align);
  }

  lemma FieldFollows(d: Decl, offset: int, bitOffset: int, bits: nat)
    requires GoodDecl(d) && d.isBitfield && d.width > 0 && Places(d, offset, bitOffset, StartBit(d, bits))
    ensures Follows(d, offset, bitOffset, bits, StartBit(d, bits) + d.width)
  {
    hide AlignTo;
    Straddles(bits, d.width, d.size * 8);
    AlignUp(bits, d.size * 8);
  }

  // The source's test for bits of two units.
  lemma Straddles(bits: nat, width: nat, unit: nat)
    requires 0 < width <= unit
    ensures bits / unit == (bits + width - 1) / unit <==> bits % unit + width <= unit
  {
    var q, r := bits / unit, bits % unit;
    assert bits == q * unit + r;
    if r + width <= unit {
      ModUnique(bits + width - 1, unit, q, r + width - 1);
    } else {
      assert (q + 1) * unit == q * unit + unit;
      ModUnique(bits + width - 1, unit, q + 1, r + width - 1 - unit);
    }
  }
}
