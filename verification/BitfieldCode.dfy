// The instructions emitted for bit-field accesses, run on the machine: they load and store
// the field the layout describes.
module BitfieldCode {
  import opened Words
  import opened Memory
  import opened Ir
  import opened M68k
  import opened Select
  import opened Tiles
  import opened Simulate
  import opened Layout
  import opened Bitfield

  // ---- the emitted lines --------------------------------------------------------------------

  // shift_by for any register, larger counts through a scratch register.
  function ShiftReg(op: ShiftOp, count: nat, reg: nat, scratch: nat): seq<Instr> {
    if count == 0 then []
    else if count <= 8 then [Shift(op, Imm(count), reg)]
    else [Move(L, Imm(count), Dn(scratch)), Shift(op, Dn(scratch), reg)]
  }

  // After the address is in D0: load the unit, shift the field up and back down.
  function LoadCode(size: nat, width: nat, off: nat, uns: bool): seq<Instr>
    requires 1 <= width && width + off <= 32
  {
    [Move(L, Dn(0), An(0))] + LoadFromA0(size, uns) + ShiftReg(AslOp, 32 - width - off, 0, 1)
    + ShiftReg(if uns then LsrOp else AsrOp, 32 - width, 0, 1)
  }

  // The value in D0, the address on the stack: load, modify and store the unit.
  function PositionCode(width: nat, off: nat): seq<Instr>
    requires width <= 32
  {
    [Move(L, Dn(0), Dn(3)), Move(L, Dn(0), Dn(1)), Alu(AluAnd, Imm(FieldMask(width)), 1)] + ShiftReg(AslOp, off, 1, 0)
  }

  function UnitCode(size: nat): seq<Instr> {
    [Move(L, PopSp, An(1))]
    + (if size == 1 || size == 2 then [Move(L, Imm(0), Dn(2)), Move(StoreSize(size), Ind(1), Dn(2))]
       else [Move(L, Ind(1), Dn(2))])
  }

  function ModifyCode(size: nat, width: nat, off: nat): seq<Instr>
    requires width <= 32
  {
    [Alu(AluAnd, Imm(Not(Wrap(FieldMask(width) * Pow2(off)))), 2), Alu(AluOr, Dn(1), 2),
     Move(StoreSize(size), Dn(2), Ind(1)), Move(L, Dn(3), Dn(0))]
  }

  function ResultCode(width: nat, uns: bool): seq<Instr>
    requires width <= 32
  {
    ShiftReg(AslOp, 32 - width, 0, 1) + ShiftReg(if uns then LsrOp else AsrOp, 32 - width, 0, 1)
  }

  function StoreCode(size: nat, width: nat, off: nat, uns: bool): seq<Instr>
    requires width <= 32
  {
    PositionCode(width, off) + UnitCode(size) + ModifyCode(size, width, off) + ResultCode(width, uns)
  }

  // ---- single lines on data registers ---------------------------------------------------------

  // `len` lines further; only the data registers `d` and the condition codes changed.
  ghost predicate Went(s: Cpu, u: Cpu, len: nat, d: Regs8) {
    u.pc == s.pc + len && u.d == d && u.a == s.a && u.mem == s.mem && u.trace == s.trace
  }

  lemma MoveToD(s: Cpu, m: Machine, src: Ea, n: nat)
    requires s.pc < |m.prog| && m.prog[s.pc] == Move(L, src, Dn(n)) && src != PopSp && n < 8
    ensures Went(s, Run(s, m, 1), 1, s.d[n := ReadEa(src, L, s, m.env)])
  {
    hide Read, ReadEa;
    assert Run(s, m, 1) == Step(s, m);
  }

  lemma AluToD(s: Cpu, m: Machine, op: AluOp, src: Ea, n: nat)
    requires s.pc < |m.prog| && m.prog[s.pc] == Alu(op, src, n) && n < 8
    ensures Went(s, Run(s, m, 1), 1, s.d[n := AluVal(op, s.d[n], ReadEa(src, L, s, m.env))])
  {
    hide Read, ReadEa, AluVal;
    assert Run(s, m, 1) == Step(s, m);
  }

  lemma ShiftOnD(s: Cpu, m: Machine, op: ShiftOp, count: Ea, n: nat)
    requires s.pc < |m.prog| && m.prog[s.pc] == Shift(op, count, n) && n < 8
    ensures Went(s, Run(s, m, 1), 1, s.d[n := ShiftVal(op, s.d[n], ReadEa(count, L, s, m.env))])
  {
    hide Read, ReadEa, ShiftVal;
    assert Run(s, m, 1) == Step(s, m);
  }

  lemma WentOn(s: Cpu, m: Machine, i: nat, d: Regs8, j: nat, k: nat, l: nat, e: Regs8)
    requires Went(s, Run(s, m, i), k, d) && Went(Run(s, m, i), Run(Run(s, m, i), m, j), l, e)
    ensures Went(s, Run(s, m, i + j), k + l, e) && Run(s, m, i + j) == Run(Run(s, m, i), m, j)
  {
    hide Step, Run;
    RunAdd(s, m, i, j);
  }

  // The shifted register; the scratch register may have changed.
  ghost predicate Shifted(s: Cpu, u: Cpu, len: nat, reg: nat, scratch: nat, v: Word)
    requires reg < 8 && scratch < 8
  {
    Went(s, u, len, s.d[scratch := u.d[scratch]][reg := v])
  }

  lemma ShiftRegOk(s: Cpu, m: Machine, op: ShiftOp, count: nat, reg: nat, scratch: nat) returns (n: nat)
    requires At(m.prog, s.pc, ShiftReg(op, count, reg, scratch)) && count < 32 && reg < 8 && scratch < 8 && reg != scratch
    ensures Shifted(s, Run(s, m, n), |ShiftReg(op, count, reg, scratch)|, reg, scratch, ShiftVal(op, s.d[reg], count))
  {
    hide Step, Run, ShiftVal;
    var code := ShiftReg(op, count, reg, scratch);
    n := |code|;
    if count == 0 {
      ShortRun(s, m);
      assert ShiftVal(op, s.d[reg], 0) == s.d[reg] by { ShiftByZero(op, s.d[reg]); }
    } else if count <= 8 {
      assert m.prog[s.pc + 0] == code[0];
      ShiftOnD(s, m, op, Imm(count), reg);
    } else {
      assert m.prog[s.pc + 0] == code[0] && m.prog[s.pc + 1] == code[1];
      MoveToD(s, m, Imm(count), scratch);
      var s1 := Run(s, m, 1);
      ShiftOnD(s1, m, op, Dn(scratch), reg);
      WentOn(s, m, 1, s1.d, 1, 1, 1, Run(s1, m, 1).d);
    }
  }

  // Up to bit 31 and back down isolates the field.
  lemma IsolateOk(s: Cpu, m: Machine, width: nat, off: nat, uns: bool) returns (n: nat)
    requires 1 <= width && width + off <= 32
    requires At(m.prog, s.pc, ShiftReg(AslOp, 32 - width - off, 0, 1) + ShiftReg(if uns then LsrOp else AsrOp, 32 - width, 0, 1))
    ensures Shifted(s, Run(s, m, n),
                    |ShiftReg(AslOp, 32 - width - off, 0, 1)| + |ShiftReg(if uns then LsrOp else AsrOp, 32 - width, 0, 1)|,
                    0, 1, Extend(FieldOf(s.d[0], width, off), width, uns))
  {
    hide Step, Run, ShiftReg, Asl, Lsr, Asr, Extend, FieldOf;
    var x, y := ShiftReg(AslOp, 32 - width - off, 0, 1), ShiftReg(if uns then LsrOp else AsrOp, 32 - width, 0, 1);
    AtSplit(m.prog, s.pc, x, y);
    var i := ShiftRegOk(s, m, AslOp, 32 - width - off, 0, 1);
    var s1 := Run(s, m, i);
    var j := ShiftRegOk(s1, m, if uns then LsrOp else AsrOp, 32 - width, 0, 1);
    IsolateIs(s.d[0], width, off, uns);
    WentOn(s, m, i, s1.d, j, |x|, |y|, Run(s1, m, j).d);
    n := i + j;
  }

  // ---- load -----------------------------------------------------------------------------------

  // Sign extension does not touch the bits of the unit.
  lemma NarrowKeepsField(x: Word, size: nat, uns: bool, width: nat, off: nat)
    requires (size == 1 || size == 2 || size == 4) && 1 <= width && width + off <= 8 * size
    ensures FieldOf(Narrow(size, uns, x), width, off) == FieldOf(x, width, off)
  {
    hide Drop, BitAt;
    var y := Narrow(size, uns, x);
    assert Pow2(8) == 256;
    Pow2Add(8, 8);
    Pow2Is32();
    assert y % Pow2(8 * size) == x % Pow2(8 * size) by { NarrowMod(x, size, uns); }
    forall i | 0 <= i < width ensures BitAt(FieldOf(y, width, off), i) == BitAt(FieldOf(x, width, off), i) {
      FieldBits(x, width, off, i);
      FieldBits(y, width, off, i);
      LowBitsOf(x, 8 * size, i + off);
      LowBitsOf(y, 8 * size, i + off);
    }
    SameBits(FieldOf(y, width, off), FieldOf(x, width, off), width);
  }

  lemma NarrowMod(x: Word, size: nat, uns: bool)
    requires size == 1 || size == 2 || size == 4
    ensures Pow2(8 * size) > 0 && Narrow(size, uns, x) % Pow2(8 * size) == x % Pow2(8 * size)
  {
    UnitSizes();
    hide Pow2;
    if size == 1 { LowPart(x, 0x100); } else if size == 2 { LowPart(x, 0x1_0000); }
  }

  lemma UnitSizes()
    ensures Pow2(8) == 0x100 && Pow2(16) == 0x1_0000 && Pow2(32) == MODULUS
  {
    Pow2Add(8, 8);
    Pow2Is32();
  }

  // Extending the low part to a word does not change it.
  lemma LowPart(x: Word, p: nat)
    requires p == 0x100 || p == 0x1_0000
    ensures x % p % p == x % p && (MODULUS - p + x % p) % p == x % p
  {}

  lemma FieldBits(x: nat, width: nat, off: nat, i: nat)
    requires i < width
    ensures BitAt(FieldOf(x, width, off), i) == BitAt(x, i + off)
  {
    hide Drop, BitAt;
    LowBitsOf(Drop(x, off), width, i);
    DroppedBit(x, off, i);
  }

  lemma AddressToA0(s: Cpu, m: Machine)
    requires s.pc < |m.prog| && m.prog[s.pc] == Move(L, Dn(0), An(0))
    ensures Run(s, m, 1) == s.(pc := s.pc + 1, a := s.a[0 := s.d[0]])
  {
    assert Run(s, m, 1) == Step(s, m);
  }

  // The load leaves the field's value in D0 and memory as it was.
  lemma LoadOk(s: Cpu, m: Machine, size: nat, width: nat, off: nat, uns: bool) returns (n: nat)
    requires (size == 1 || size == 2 || size == 4) && 1 <= width && width + off <= 8 * size
    requires Loaded(m) && At(m.prog, s.pc, LoadCode(size, width, off, uns))
    ensures var u := Run(s, m, n);
      && u.pc == s.pc + |LoadCode(size, width, off, uns)| && u.mem == s.mem && u.trace == s.trace
      && u.a == s.a[0 := s.d[0]] && (forall r | 2 <= r < 8 :: u.d[r] == s.d[r])
      && u.d[0] == LoadField(s.mem, s.d[0], size, width, off, uns)
  {
    hide Step, Run, Extend, FieldOf, Narrow, ShiftReg, Read, LoadFromA0;
    var up, down := ShiftReg(AslOp, 32 - width - off, 0, 1), ShiftReg(if uns then LsrOp else AsrOp, 32 - width, 0, 1);
    var load := LoadFromA0(size, uns);
    assert LoadCode(size, width, off, uns) == [Move(L, Dn(0), An(0))] + load + (up + down);
    AtSplit3(m.prog, s.pc, [Move(L, Dn(0), An(0))], load, up + down);
    assert m.prog[s.pc + 0] == [Move(L, Dn(0), An(0))][0];
    AddressToA0(s, m);
    var s1 := Run(s, m, 1);
    ReadIsWord(s.mem, s.d[0], size);
    var x := Read(s.mem, s.d[0], size);
    var i := LoadFromA0Ok(s1, m, size, uns, x);
    var s2 := Run(s1, m, i);
    var j := IsolateOk(s2, m, width, off, uns);
    NarrowKeepsField(x, size, uns, width, off);
    RunAdd(s, m, 1, i);
    RunAdd(s, m, 1 + i, j);
    n := 1 + i + j;
  }

  // ---- store ----------------------------------------------------------------------------------

  lemma PositionOk(s: Cpu, m: Machine, width: nat, off: nat) returns (n: nat)
    requires 1 <= width && width + off <= 32 && At(m.prog, s.pc, PositionCode(width, off))
    ensures var u := Run(s, m, n);
      && Went(s, u, |PositionCode(width, off)|, u.d)
      && u.d[3] == s.d[0] && u.d[1] == Put(s.d[0], width, off) && forall r | 4 <= r < 8 :: u.d[r] == s.d[r]
  {
    hide Step, Run, ShiftReg, Asl, And, FieldMask;
    var front := [Move(L, Dn(0), Dn(3)), Move(L, Dn(0), Dn(1)), Alu(AluAnd, Imm(FieldMask(width)), 1)];
    AtSplit(m.prog, s.pc, front, ShiftReg(AslOp, off, 1, 0));
    assert m.prog[s.pc + 0] == front[0] && m.prog[s.pc + 1] == front[1] && m.prog[s.pc + 2] == front[2];
    MoveToD(s, m, Dn(0), 3);
    var s1 := Run(s, m, 1);
    MoveToD(s1, m, Dn(0), 1);
    WentOn(s, m, 1, s1.d, 1, 1, 1, Run(s1, m, 1).d);
    var s2 := Run(s, m, 2);
    AluToD(s2, m, AluAnd, Imm(FieldMask(width)), 1);
    WentOn(s, m, 2, s2.d, 1, 2, 1, Run(s2, m, 1).d);
    var s3 := Run(s, m, 3);
    var i := ShiftRegOk(s3, m, AslOp, off, 1, 0);
    WentOn(s, m, 3, s3.d, i, 3, |ShiftReg(AslOp, off, 1, 0)|, Run(s3, m, i).d);
    n := 3 + i;
  }

  lemma PopA1Step(s: Cpu, m: Machine)
    requires s.pc < |m.prog| && m.prog[s.pc] == Move(L, PopSp, An(1))
    ensures Read(s.mem, s.a[7], 4) < MODULUS
    ensures Run(s, m, 1) == s.(pc := s.pc + 1, a := s.a[7 := Slot(s.a[7], 4)][1 := Read(s.mem, s.a[7], 4)])
  {
    hide Read;
    ReadIsWord(s.mem, s.a[7], 4);
    assert Run(s, m, 1) == Step(s, m);
  }

  lemma PartLoad(s: Cpu, m: Machine, size: nat)
    requires s.pc < |m.prog| && m.prog[s.pc] == Move(StoreSize(size), Ind(1), Dn(2)) && (size == 1 || size == 2)
    requires s.d[2] == 0
    ensures Read(s.mem, s.a[1], size) < MODULUS
    ensures Went(s, Run(s, m, 1), 1, s.d[2 := Read(s.mem, s.a[1], size)])
  {
    hide Read;
    ReadIsWord(s.mem, s.a[1], size);
    assert Run(s, m, 1) == Step(s, m);
  }

  lemma UnitOk(s: Cpu, m: Machine, size: nat) returns (n: nat)
    requires (size == 1 || size == 2 || size == 4) && At(m.prog, s.pc, UnitCode(size))
    ensures var u := Run(s, m, n); var p := Read(s.mem, s.a[7], 4);
      && p < MODULUS && Read(s.mem, p, size) < MODULUS
      && u.pc == s.pc + |UnitCode(size)| && u.mem == s.mem && u.trace == s.trace
      && u.a == s.a[7 := Slot(s.a[7], 4)][1 := p] && u.d == s.d[2 := Read(s.mem, p, size)]
  {
    hide Step, Run, Read;
    var code := UnitCode(size);
    assert m.prog[s.pc + 0] == code[0] && m.prog[s.pc + 1] == code[1];
    PopA1Step(s, m);
    var s1 := Run(s, m, 1);
    ReadIsWord(s.mem, s1.a[1], size);
    if size == 4 {
      n := 2;
      MoveToD(s1, m, Ind(1), 2);
      RunAdd(s, m, 1, 1);
    } else {
      n := 3;
      assert m.prog[s.pc + 2] == code[2];
      MoveToD(s1, m, Imm(0), 2);
      var s2 := Run(s1, m, 1);
      PartLoad(s2, m, size);
      RunAdd(s, m, 1, 1);
      RunAdd(s, m, 2, 1);
    }
  }

  lemma StoreUnit(s: Cpu, m: Machine, size: nat)
    requires s.pc < |m.prog| && m.prog[s.pc] == Move(StoreSize(size), Dn(2), Ind(1)) && (size == 1 || size == 2 || size == 4)
    ensures var u := Run(s, m, 1);
      u.pc == s.pc + 1 && u.d == s.d && u.a == s.a && u.trace == s.trace && u.mem == Write(s.mem, s.a[1], size, s.d[2])
  {
    hide Write;
    WriteLow(s.mem, s.a[1], size, s.d[2]);
    assert Run(s, m, 1) == Step(s, m);
  }

  lemma ModifyOk(s: Cpu, m: Machine, size: nat, v: Word, width: nat, off: nat)
    requires (size == 1 || size == 2 || size == 4) && width <= 32 && off <= 32 && At(m.prog, s.pc, ModifyCode(size, width, off))
    requires s.d[1] == Put(v, width, off)
    ensures var u := Run(s, m, 4);
      && u.pc == s.pc + 4 && u.a == s.a && u.trace == s.trace
      && u.mem == Write(s.mem, s.a[1], size, Merge(s.d[2], v, width, off))
      && u.d[0] == s.d[3] && forall r | 4 <= r < 8 :: u.d[r] == s.d[r]
  {
    hide Step, Run, Write, And, Or, FieldMask, Put, Pow2;
    var code := ModifyCode(size, width, off);
    assert m.prog[s.pc + 0] == code[0] && m.prog[s.pc + 1] == code[1] && m.prog[s.pc + 2] == code[2] && m.prog[s.pc + 3] == code[3];
    var clr := Not(Wrap(FieldMask(width) * Pow2(off)));
    AluToD(s, m, AluAnd, Imm(clr), 2);
    assert Wrap(clr) == clr by { WrapIs(clr); }
    var s1 := Run(s, m, 1);
    AluToD(s1, m, AluOr, Dn(1), 2);
    var s2 := Run(s1, m, 1);
    StoreUnit(s2, m, size);
    var s3 := Run(s2, m, 1);
    MoveToD(s3, m, Dn(3), 0);
    RunAdd(s, m, 1, 1);
    RunAdd(s, m, 2, 1);
    RunAdd(s, m, 3, 1);
  }

  // The store rewrites the unit with the field in place, and leaves the field's value,
  // truncated and extended, in D0.
  lemma StoreOk(s: Cpu, m: Machine, size: nat, width: nat, off: nat, uns: bool) returns (n: nat)
    requires (size == 1 || size == 2 || size == 4) && 1 <= width && width + off <= 8 * size
    requires At(m.prog, s.pc, StoreCode(size, width, off, uns))
    ensures Pow2(width) > 0
    ensures var u := Run(s, m, n); var p := Read(s.mem, s.a[7], 4);
      && u.pc == s.pc + |StoreCode(size, width, off, uns)| && u.trace == s.trace
      && u.a[7] == Slot(s.a[7], 4) && (forall r | 0 <= r < 7 && r != 1 :: u.a[r] == s.a[r])
      && (forall r | 4 <= r < 8 :: u.d[r] == s.d[r])
      && u.mem == StoreField(s.mem, p, size, s.d[0], width, off)
      && u.d[0] == Extend(s.d[0] % Pow2(width), width, uns)
  {
    hide Step, Run, Read, Write, Extend, FieldOf, Merge, Put, Pow2, ShiftReg, PositionCode, UnitCode, ModifyCode;
    Pow2Positive(width);
    var a, b, c, d := PositionCode(width, off), UnitCode(size), ModifyCode(size, width, off), ResultCode(width, uns);
    AtSplit(m.prog, s.pc, a + b + c, d);
    AtSplit3(m.prog, s.pc, a, b, c);
    var i := PositionOk(s, m, width, off);
    var s1 := Run(s, m, i);
    var j := UnitOk(s1, m, size);
    var s2 := Run(s1, m, j);
    ModifyOk(s2, m, size, s.d[0], width, off);
    var s3 := Run(s2, m, 4);
    assert |c| == 4 by { ModifyLength(size, width, off); }
    assert d == ShiftReg(AslOp, 32 - width - 0, 0, 1) + ShiftReg(if uns then LsrOp else AsrOp, 32 - width, 0, 1);
    var k := IsolateOk(s3, m, width, 0, uns);
    WholeField(s.d[0], width);
    RunAdd(s, m, i, j);
    RunAdd(s, m, i + j, 4);
    RunAdd(s, m, i + j + 4, k);
    n := i + j + 4 + k;
  }

  lemma ModifyLength(size: nat, width: nat, off: nat)
    requires width <= 32
    ensures |ModifyCode(size, width, off)| == 4
  {}

  lemma WholeField(x: nat, width: nat)
    ensures Pow2(width) > 0 && FieldOf(x, width, 0) == x % Pow2(width)
  {
    Pow2Positive(width);
    assert Pow2(0) == 1 && x / 1 == x;
  }

  // ---- the two together -----------------------------------------------------------------------

  // Bit-field i of a struct at `base`, where struct_decl puts it.
  ghost predicate FieldAt(ds: seq<Decl>, i: nat, base: int, offset: nat, off: nat) {
    && GoodDecls(ds) && i < |ds| && ds[i].isBitfield && ds[i].width > 0
    && Places(ds[i], offset, off, Starts(ds, 0)[i]) && 0 <= base && base + offset + ds[i].size <= MODULUS
  }

  lemma FieldHasShape(ds: seq<Decl>, i: nat, base: int, offset: nat, off: nat)
    requires FieldAt(ds, i, base, offset, off)
    ensures FieldShape(base, Starts(ds, 0)[i], offset, ds[i].size, ds[i].width, off)
  {
    hide Starts;
  }

  // The emitted store of one bit-field, then at any later state with that memory the emitted
  // load of the same or another: the value stored, truncated and extended, or what the other
  // held before.
  lemma StoredThenLoaded(ds: seq<Decl>, i: nat, j: nat, base: int, offset: nat, off: nat, offset2: nat, off2: nat,
                         uns: bool, uns2: bool, m: Machine, s: Cpu, w: Cpu) returns (n: nat, k: nat)
    requires FieldAt(ds, i, base, offset, off) && FieldAt(ds, j, base, offset2, off2)
    requires i == j ==> offset2 == offset && off2 == off
    requires Loaded(m) && At(m.prog, s.pc, StoreCode(ds[i].size, ds[i].width, off, uns))
    requires Read(s.mem, s.a[7], 4) == base + offset
    requires At(m.prog, w.pc, LoadCode(ds[j].size, ds[j].width, off2, uns2)) && w.d[0] == base + offset2
    ensures Pow2(ds[i].width) > 0
    ensures w.mem == Run(s, m, n).mem ==>
      Run(w, m, k).d[0] == if i == j then Extend(s.d[0] % Pow2(ds[i].width), ds[i].width, uns2)
                           else LoadField(s.mem, base + offset2, ds[j].size, ds[j].width, off2, uns2)
  {
    hide Run, Step, Read, LoadField, StoreField, Extend, Pow2, Starts, StoreCode, LoadCode;
    Pow2Positive(ds[i].width);
    FieldHasShape(ds, i, base, offset, off);
    FieldHasShape(ds, j, base, offset2, off2);
    n := StoreOk(s, m, ds[i].size, ds[i].width, off, uns);
    k := LoadOk(w, m, ds[j].size, ds[j].width, off2, uns2);
    var start, start2 := Starts(ds, 0)[i], Starts(ds, 0)[j];
    if i == j {
      StoreThenLoad(s.mem, base, s.d[0], start, offset, ds[i].size, ds[i].width, off, uns2);
    } else {
      if i < j { MembersDisjoint(ds, i, j, 0); } else { MembersDisjoint(ds, j, i, 0); }
      OtherFieldKept(s.mem, base, s.d[0], start, offset, ds[i].size, ds[i].width, off,
                     start2, offset2, ds[j].size, ds[j].width, off2, uns2);
    }
  }
}
