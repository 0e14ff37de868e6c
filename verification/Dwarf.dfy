// DWARF line tables, written and read back.
module Dwarf {
  import opened Words

  type Byte8 = b: nat | b < 256

  // ---- little-endian base 128 ----------------------------------------------------------------

  function Uleb(v: nat): seq<Byte8> {
    if v < 128 then [v] else [v % 128 + 128] + Uleb(v / 128)
  }

  function Sleb(v: int): seq<Byte8>
    decreases if v >= 0 then v else -1 - v
  {
    var byte, w := v % 128, v / 128;
    if (w == 0 && byte < 64) || (w == -1 && byte >= 64) then [byte] else [byte + 128] + Sleb(w)
  }

  // Section 7.6: the value at the start of `b`, and what follows it.
  function ReadUleb(b: seq<Byte8>): Option<(nat, seq<Byte8>)> {
    if b == [] then None
    else if b[0] < 128 then Some((b[0], b[1..]))
    else
      var r := ReadUleb(b[1..]);
      if r.None? then None else Some((b[0] as int - 128 + 128 * r.value.0, r.value.1))
  }

  function ReadSleb(b: seq<Byte8>): Option<(int, seq<Byte8>)> {
    if b == [] then None
    else if b[0] < 128 then Some((if b[0] >= 64 then b[0] as int - 128 else b[0], b[1..]))
    else
      var r := ReadSleb(b[1..]);
      if r.None? then None else Some((b[0] as int - 128 + 128 * r.value.0, r.value.1))
  }

  lemma {:induction false} UlebRoundTrip(v: nat, more: seq<Byte8>)
    ensures ReadUleb(Uleb(v) + more) == Some((v, more))
  {
    var b := Uleb(v) + more;
    if v < 128 {
      assert b == [v] + more && b[1..] == more;
    } else {
      UlebRoundTrip(v / 128, more);
      assert b == [v % 128 + 128] + (Uleb(v / 128) + more);
      assert b[1..] == Uleb(v / 128) + more;
    }
  }

  lemma {:induction false} SlebRoundTrip(v: int, more: seq<Byte8>)
    ensures ReadSleb(Sleb(v) + more) == Some((v, more))
    decreases if v >= 0 then v else -1 - v
  {
    var b := Sleb(v) + more;
    var byte, w := v % 128, v / 128;
    if (w == 0 && byte < 64) || (w == -1 && byte >= 64) {
      assert b == [byte] + more && b[1..] == more;
    } else {
      SlebRoundTrip(w, more);
      assert b == [byte + 128] + (Sleb(w) + more);
      assert b[1..] == Sleb(w) + more;
    }
  }

  // The examples of section 7.6.
  lemma LebExamples()
    ensures Uleb(2) == [2] && Uleb(127) == [127] && Uleb(128) == [0x80, 1] && Uleb(129) == [0x81, 1]
    ensures Uleb(12857) == [0x39 + 0x80, 100]
    ensures Sleb(2) == [2] && Sleb(-2) == [0x7e] && Sleb(127) == [0xff, 0] && Sleb(-127) == [0x81, 0x7f]
    ensures Sleb(128) == [0x80, 1] && Sleb(-128) == [0x80, 0x7f] && Sleb(129) == [0x81, 1] && Sleb(-129) == [0xff, 0x7e]
  {
    assert Uleb(100) == [100] && Uleb(1) == [1];
    assert Sleb(0) == [0] && Sleb(-1) == [0x7f] && Sleb(1) == [1] && Sleb(-2) == [0x7e];
  }

  // ---- fixed-size values -----------------------------------------------------------------------

  function Be16(v: nat): seq<Byte8> { [v / 256 % 256, v % 256] }

  function Be32(v: nat): seq<Byte8> { [v / 0x100_0000 % 256, v / 0x1_0000 % 256, v / 256 % 256, v % 256] }

  function Read16(b: seq<Byte8>): nat
    requires |b| >= 2
  {
    b[0] as int * 256 + b[1] as int
  }

  function Read32(b: seq<Byte8>): nat
    requires |b| >= 4
  {
    b[0] as int * 0x100_0000 + b[1] as int * 0x1_0000 + b[2] as int * 256 + b[3] as int
  }

  lemma Be32Back(v: nat, more: seq<Byte8>)
    requires v < 0x1_0000_0000
    ensures Read32(Be32(v) + more) == v
  {
    FourBytes(v);
  }

  lemma FourBytes(v: nat)
    requires v < 0x1_0000_0000
    ensures v / 0x100_0000 % 256 * 0x100_0000 + v / 0x1_0000 % 256 * 0x1_0000 + v / 256 % 256 * 256 + v % 256 == v
  {
    var a, b, c := v / 256, v / 0x1_0000, v / 0x100_0000;
    assert v == a * 256 + v % 256;
    assert a == b * 256 + a % 256;
    assert b == c * 256 + b % 256;
    assert c % 256 == c;
  }

  // ---- the state machine of section 6.2 -----------------------------------------------------------

  datatype Row = Row(address: nat, line: int, file: nat, column: nat, isStmt: bool, endSequence: bool)

  // The header fields the machine uses (section 6.2.4).
  datatype Header = Header(minInst: nat, defaultIsStmt: bool, lineBase: int, lineRange: nat, opcodeBase: nat)

  datatype Regs = Regs(address: nat, line: int, file: nat, column: nat, isStmt: bool)

  function Start(h: Header): Regs { Regs(0, 1, 1, 0, h.defaultIsStmt) }

  function RowOf(r: Regs, end: bool): Row { Row(r.address, r.line, r.file, r.column, r.isStmt, end) }

  // The rows that the opcodes append; None for a malformed program.
  function Execute(b: seq<Byte8>, h: Header, r: Regs): Option<seq<Row>>
    decreases |b|, 1
  {
    if b == [] then Some([])
    else if b[0] >= h.opcodeBase then
      if h.lineRange == 0 then None
      else
        var adj := b[0] - h.opcodeBase;
        var next := r.(address := r.address + adj / h.lineRange * h.minInst,
                       line := r.line + h.lineBase + adj % h.lineRange);
        Append(RowOf(next, false), Execute(b[1..], h, next))
    else if b[0] == 0 then Extended(b[1..], h, r)
    else Standard(b, h, r)
  }

  function Append(row: Row, rows: Option<seq<Row>>): Option<seq<Row>> {
    if rows.None? then None else Some([row] + rows.value)
  }

  function Standard(b: seq<Byte8>, h: Header, r: Regs): Option<seq<Row>>
    requires b != []
    decreases |b|, 0
  {
    var rest := b[1..];
    var u, s := ReadUleb(rest), ReadSleb(rest);
    ReadShorter(rest);
    match b[0]
    case 1 => Append(RowOf(r, false), Execute(rest, h, r))
    case 2 => if u.None? then None else Execute(u.value.1, h, r.(address := r.address + u.value.0 * h.minInst))
    case 3 => if s.None? then None else Execute(s.value.1, h, r.(line := r.line + s.value.0))
    case 4 => if u.None? then None else Execute(u.value.1, h, r.(file := u.value.0))
    case 5 => if u.None? then None else Execute(u.value.1, h, r.(column := u.value.0))
    case 6 => Execute(rest, h, r.(isStmt := !r.isStmt))
    case 7 => Execute(rest, h, r)
    case 8 =>
      if h.lineRange == 0 || h.opcodeBase > 255 then None
      else Execute(rest, h, r.(address := r.address + (255 - h.opcodeBase) / h.lineRange * h.minInst))
    case 9 => if |rest| < 2 then None else Execute(rest[2..], h, r.(address := r.address + Read16(rest)))
    case 10 => Execute(rest, h, r)
    case 11 => Execute(rest, h, r)
    case 12 => if u.None? then None else Execute(u.value.1, h, r)
    case _ => None
  }

  function Extended(b: seq<Byte8>, h: Header, r: Regs): Option<seq<Row>>
    decreases |b|, 2
  {
    var u := ReadUleb(b);
    ReadShorter(b);
    if u.None? || u.value.0 == 0 || u.value.0 > |u.value.1| then None
    else
      var n, body := u.value.0, u.value.1;
      if body[0] == 1 then Append(RowOf(r, true), Execute(body[n..], h, Start(h)))
      else if body[0] == 2 then
        if n != 5 then None else Execute(body[n..], h, r.(address := Read32(body[1..])))
      else Execute(body[n..], h, r)
  }

  lemma {:induction false} ReadShorter(b: seq<Byte8>)
    ensures ReadUleb(b).Some? ==> |ReadUleb(b).value.1| < |b|
    ensures ReadSleb(b).Some? ==> |ReadSleb(b).value.1| < |b|
  {
    if b != [] && b[0] >= 128 { ReadShorter(b[1..]); }
  }

  // A whole unit: lengths, header and program (section 6.2.4, 32-bit DWARF).
  function ReadUnit(b: seq<Byte8>): Option<seq<Row>> {
    if |b| < 4 || Read32(b) + 4 > |b| || Read32(b) < 6 then None else ReadBody(b[4..Read32(b) + 4])
  }

  function ReadBody(unit: seq<Byte8>): Option<seq<Row>>
    requires |unit| >= 6
  {
    var hlen := Read32(unit[2..]);
    if Read16(unit) != 4 || hlen < 6 || 6 + hlen > |unit| then None
    else
      var h := ReadHeader(unit[6..]);
      Execute(unit[6 + hlen..], h, Start(h))
  }

  function ReadHeader(f: seq<Byte8>): Header
    requires |f| >= 6
  {
    Header(f[0], f[2] != 0, if f[3] >= 128 then f[3] as int - 256 else f[3], f[4], f[5])
  }

  // ---- the header's tables (section 6.2.4) -----------------------------------------------------

  datatype File = File(name: seq<Byte8>, dir: nat, mtime: nat, length: nat)

  // How many LEB128 operands each standard opcode has, and the two lists of names.
  datatype Tables = Tables(lengths: seq<Byte8>, dirs: seq<seq<Byte8>>, files: seq<File>)

  // The bytes up to the next zero, and what follows it.
  function ReadString(b: seq<Byte8>): Option<(seq<Byte8>, seq<Byte8>)> {
    if b == [] then None
    else if b[0] == 0 then Some(([], b[1..]))
    else
      var r := ReadString(b[1..]);
      if r.None? then None else Some(([b[0]] + r.value.0, r.value.1))
  }

  // Names up to an empty one.
  function ReadDirs(b: seq<Byte8>): Option<(seq<seq<Byte8>>, seq<Byte8>)>
    decreases |b|
  {
    var s := ReadString(b);
    StringShorter(b);
    if s.None? then None
    else if s.value.0 == [] then Some(([], s.value.1))
    else
      var r := ReadDirs(s.value.1);
      if r.None? then None else Some(([s.value.0] + r.value.0, r.value.1))
  }

  // Entries up to one with an empty name.
  function ReadFiles(b: seq<Byte8>): Option<(seq<File>, seq<Byte8>)>
    decreases |b|
  {
    var s := ReadString(b);
    StringShorter(b);
    if s.None? then None
    else if s.value.0 == [] then Some(([], s.value.1))
    else
      var f := ReadFile(s.value.0, s.value.1);
      if f.None? then None
      else
        var r := ReadFiles(f.value.1);
        if r.None? then None else Some(([f.value.0] + r.value.0, r.value.1))
  }

  function ReadFile(name: seq<Byte8>, b: seq<Byte8>): (f: Option<(File, seq<Byte8>)>)
    ensures f.Some? ==> |f.value.1| < |b|
  {
    ReadShorter(b);
    var dir := ReadUleb(b);
    if dir.None? then None
    else
      ReadShorter(dir.value.1);
      var time := ReadUleb(dir.value.1);
      if time.None? then None
      else
        ReadShorter(time.value.1);
        var len := ReadUleb(time.value.1);
        if len.None? then None else Some((File(name, dir.value.0, time.value.0, len.value.0), len.value.1))
  }

  lemma {:induction false} StringShorter(b: seq<Byte8>)
    ensures ReadString(b).Some? ==> |ReadString(b).value.1| < |b|
  {
    if b != [] && b[0] != 0 { StringShorter(b[1..]); }
  }

  // The tables that fill the header from standard_opcode_lengths to its end.
  function ReadTables(f: seq<Byte8>): Option<Tables>
    requires |f| >= 6
  {
    var base: nat := f[5];
    if base == 0 || |f| < 5 + base then None
    else
      var dirs := ReadDirs(f[5 + base..]);
      if dirs.None? then None
      else
        var files := ReadFiles(dirs.value.1);
        if files.None? || files.value.1 != [] then None
        else Some(Tables(f[6..5 + base], dirs.value.0, files.value.0))
  }

  // The tables of a whole unit.
  function ReadUnitTables(b: seq<Byte8>): Option<Tables> {
    if |b| < 16 || Read32(b[6..]) < 6 || |b| < 10 + Read32(b[6..]) then None
    else ReadTables(b[10..10 + Read32(b[6..])])
  }

  // ---- the emitted unit ------------------------------------------------------------------------------

  datatype LineRow = LineRow(addr: nat, line: int)

  function RowCode(row: LineRow, addr: nat, line: int): seq<Byte8>
    requires addr <= row.addr
  {
    (if row.addr != addr then [2] + Uleb(row.addr - addr) else [])
    + (if row.line != line then [3] + Sleb(row.line - line) else [])
    + [1]
  }

  // Addresses grow strictly, from `addr` on, up to `end`.
  predicate Ascending(rows: seq<LineRow>, addr: nat, end: nat) {
    if rows == [] then addr <= end
    else addr <= rows[0].addr && (forall i | 0 < i < |rows| :: rows[0].addr < rows[i].addr)
         && Ascending(rows[1..], rows[0].addr, end)
  }

  function RowsCode(rows: seq<LineRow>, addr: nat, line: int, end: nat): seq<Byte8>
    requires Ascending(rows, addr, end)
  {
    if rows == [] then (if end > addr then [2] + Uleb(end - addr) else []) + [0] + Uleb(1) + [1]
    else RowCode(rows[0], addr, line) + RowsCode(rows[1..], rows[0].addr, rows[0].line, end)
  }

  const OPCODE_LENGTHS: seq<Byte8> := [0, 1, 1, 1, 1, 0, 0, 0, 1, 0, 0, 1]

  // From minimum_instruction_length to the end of file_names.
  function HeaderBytes(name: seq<Byte8>): seq<Byte8> {
    [1, 1, 1, 251, 14, 13] + OPCODE_LENGTHS + [0] + FileBytes(name)
  }

  function FileBytes(name: seq<Byte8>): seq<Byte8> { name + [0] + Uleb(0) + Uleb(0) + Uleb(0) + [0] }

  // Set the address to `base` (0 until it is relocated), then the rows.
  function ProgramBytes(rows: seq<LineRow>, end: nat, base: nat): seq<Byte8>
    requires Ascending(rows, 0, end)
  {
    [0] + Uleb(5) + [2] + Be32(base) + RowsCode(rows, 0, 1, end)
  }

  function UnitBytes(name: seq<Byte8>, rows: seq<LineRow>, end: nat, base: nat): seq<Byte8>
    requires Ascending(rows, 0, end)
  {
    var h, p := HeaderBytes(name), ProgramBytes(rows, end, base);
    Be32(6 + |h| + |p|) + Be16(4) + Be32(|h|) + h + p
  }

  // The rows a consumer should see.
  function TableRows(rows: seq<LineRow>, line: int, end: nat, base: nat): seq<Row> {
    if rows == [] then [Row(base + end, line, 1, 0, true, true)]
    else [Row(base + rows[0].addr, rows[0].line, 1, 0, true, false)] + TableRows(rows[1..], rows[0].line, end, base)
  }

  const HDR: Header := Header(1, true, -5, 14, 13)

  lemma StandardOpcode(b: seq<Byte8>, r: Regs)
    requires b != [] && 0 < b[0] < 13
    ensures Execute(b, HDR, r) == Standard(b, HDR, r)
  {
    hide Standard, Extended;
  }

  lemma AdvancePc(n: nat, more: seq<Byte8>, r: Regs)
    ensures Execute([2] + Uleb(n) + more, HDR, r) == Execute(more, HDR, r.(address := r.address + n))
  {
    hide Execute, Uleb, ReadUleb, ReadSleb;
    UlebRoundTrip(n, more);
    var b := [2] + Uleb(n) + more;
    StandardOpcode(b, r);
    assert b[0] == 2 && b[1..] == Uleb(n) + more;
  }

  lemma AdvanceLine(n: int, more: seq<Byte8>, r: Regs)
    ensures Execute([3] + Sleb(n) + more, HDR, r) == Execute(more, HDR, r.(line := r.line + n))
  {
    hide Execute, Sleb, ReadUleb, ReadSleb;
    SlebRoundTrip(n, more);
    var b := [3] + Sleb(n) + more;
    StandardOpcode(b, r);
    assert b[0] == 3 && b[1..] == Sleb(n) + more;
  }

  lemma CopyRow(more: seq<Byte8>, r: Regs)
    ensures Execute([1] + more, HDR, r) == Append(RowOf(r, false), Execute(more, HDR, r))
  {
    hide Execute, ReadUleb, ReadSleb;
    StandardOpcode([1] + more, r);
    assert ([1] + more)[1..] == more;
  }

  lemma EndSequence(r: Regs)
    ensures Execute([0] + Uleb(1) + [1], HDR, r) == Some([RowOf(r, true)])
  {
    var b := [0] + Uleb(1) + [1];
    UlebRoundTrip(1, [1]);
    assert b[0] == 0 && b[1..] == Uleb(1) + [1];
    var none: seq<Byte8>, body: seq<Byte8> := [], [1];
    assert body[1..] == none && Execute(none, HDR, Start(HDR)) == Some([]);
    assert ReadUleb(b[1..]) == Some((1, body));
    assert [RowOf(r, true)] + [] == [RowOf(r, true)];
  }

  lemma SetAddress(base: nat, more: seq<Byte8>, r: Regs)
    requires base < 0x1_0000_0000
    ensures Execute([0] + Uleb(5) + [2] + Be32(base) + more, HDR, r) == Execute(more, HDR, r.(address := base))
  {
    var tail := [2] + Be32(base) + more;
    var b := [0] + Uleb(5) + [2] + Be32(base) + more;
    assert b == [0] + (Uleb(5) + tail);
    assert b[0] == 0 && b[1..] == Uleb(5) + tail;
    UlebRoundTrip(5, tail);
    assert tail[1..] == Be32(base) + more;
    Be32Back(base, more);
    assert tail[5..] == more;
  }

  lemma RowRuns(row: LineRow, addr: nat, line: int, base: nat, more: seq<Byte8>, r: Regs)
    requires addr <= row.addr && r == Regs(base + addr, line, 1, 0, true)
    ensures Execute(RowCode(row, addr, line) + more, HDR, r)
         == Append(Row(base + row.addr, row.line, 1, 0, true, false),
                   Execute(more, HDR, Regs(base + row.addr, row.line, 1, 0, true)))
  {
    hide Execute;
    var pc := if row.addr != addr then [2] + Uleb(row.addr - addr) else [];
    var ln := if row.line != line then [3] + Sleb(row.line - line) else [];
    var r1 := r.(address := base + row.addr);
    var r2 := r1.(line := row.line);
    assert RowCode(row, addr, line) + more == pc + (ln + ([1] + more));
    if row.addr != addr { AdvancePc(row.addr - addr, ln + ([1] + more), r); } else { assert pc + (ln + ([1] + more)) == ln + ([1] + more); }
    assert Execute(pc + (ln + ([1] + more)), HDR, r) == Execute(ln + ([1] + more), HDR, r1);
    if row.line != line { AdvanceLine(row.line - line, [1] + more, r1); } else { assert ln + ([1] + more) == [1] + more; }
    assert Execute(ln + ([1] + more), HDR, r1) == Execute([1] + more, HDR, r2);
    CopyRow(more, r2);
  }

  lemma {:induction false} RowsRun(rows: seq<LineRow>, addr: nat, line: int, end: nat, base: nat)
    requires Ascending(rows, addr, end)
    ensures Execute(RowsCode(rows, addr, line, end), HDR, Regs(base + addr, line, 1, 0, true))
         == Some(TableRows(rows, line, end, base))
    decreases |rows|
  {
    hide Execute, RowCode;
    var r := Regs(base + addr, line, 1, 0, true);
    if rows == [] {
      var tail := [0] + Uleb(1) + [1];
      if end > addr {
        AdvancePc(end - addr, tail, r);
        assert RowsCode(rows, addr, line, end) == [2] + Uleb(end - addr) + tail;
      } else {
        assert RowsCode(rows, addr, line, end) == tail;
      }
      EndSequence(r.(address := base + end));
    } else {
      RowsRun(rows[1..], rows[0].addr, rows[0].line, end, base);
      RowRuns(rows[0], addr, line, base, RowsCode(rows[1..], rows[0].addr, rows[0].line, end), r);
    }
  }

  // What follows n LEB128 operands.
  function Skip(b: seq<Byte8>, n: nat): Option<seq<Byte8>>
    decreases n
  {
    if n == 0 then Some(b)
    else
      var u := ReadUleb(b);
      if u.None? then None else Skip(u.value.1, n - 1)
  }

  lemma {:induction false} SameOperand(b: seq<Byte8>)
    ensures ReadUleb(b).None? == ReadSleb(b).None?
    ensures ReadUleb(b).Some? ==> ReadSleb(b).value.1 == ReadUleb(b).value.1
  {
    if b != [] && b[0] >= 128 { SameOperand(b[1..]); }
  }

  // The opcode lengths in the header are those of the state machine: a consumer that skips that
  // many operands goes on where one that knows the opcode does. Opcode 9 takes two bytes instead.
  lemma LengthsSuit(b: seq<Byte8>, h: Header, r: Regs)
    requires b != [] && 1 <= b[0] <= 12 && b[0] != 9 && 0 < h.lineRange && h.opcodeBase <= 255
    ensures var after := Skip(b[1..], OPCODE_LENGTHS[b[0] - 1]);
      if after.None? then Standard(b, h, r) == None
      else exists q: Regs ::
        Standard(b, h, r) == if b[0] == 1 then Append(RowOf(q, false), Execute(after.value, h, q)) else Execute(after.value, h, q)
  {
    hide Execute, ReadUleb, ReadSleb;
    var rest := b[1..];
    SameOperand(rest);
    var op, u, s := b[0], ReadUleb(rest), ReadSleb(rest);
    assert OPCODE_LENGTHS[op - 1] == if 2 <= op <= 5 || op == 12 then 1 else 0 by { LengthOf(op); }
    OneOperand(rest);
    if (2 <= op <= 5 || op == 12) && u.Some? {
      var n := u.value.0;
      var q := if op == 2 then r.(address := r.address + n * h.minInst)
               else if op == 3 then r.(line := r.line + s.value.0)
               else if op == 4 then r.(file := n) else if op == 5 then r.(column := n) else r;
      assert Standard(b, h, r) == Execute(u.value.1, h, q);
    } else if op == 6 {
      assert Standard(b, h, r) == Execute(rest, h, r.(isStmt := !r.isStmt));
    } else if op == 8 {
      assert Standard(b, h, r) == Execute(rest, h, r.(address := r.address + (255 - h.opcodeBase) / h.lineRange * h.minInst));
    } else if op == 1 {
      assert Standard(b, h, r) == Append(RowOf(r, false), Execute(rest, h, r));
    } else if op == 7 || op == 10 || op == 11 {
      assert Standard(b, h, r) == Execute(rest, h, r);
    }
  }

  lemma LengthOf(op: nat)
    requires 1 <= op <= 12 && op != 9
    ensures |OPCODE_LENGTHS| == 12 && OPCODE_LENGTHS[op - 1] == if 2 <= op <= 5 || op == 12 then 1 else 0
  {}

  lemma OneOperand(b: seq<Byte8>)
    ensures Skip(b, 0) == Some(b)
    ensures Skip(b, 1) == if ReadUleb(b).None? then None else Some(ReadUleb(b).value.1)
  {
    if ReadUleb(b).Some? { assert Skip(ReadUleb(b).value.1, 0) == Some(ReadUleb(b).value.1); }
  }

  // The header of the emitted unit lists no directory and one file, the one given, which is the
  // file 1 that every row names.
  lemma TablesReadBack(name: seq<Byte8>, rows: seq<LineRow>, end: nat, base: nat, more: seq<Byte8>)
    requires Ascending(rows, 0, end) && name != [] && 0 !in name && |HeaderBytes(name)| < 0x1_0000_0000
    ensures ReadUnitTables(UnitBytes(name, rows, end, base) + more)
         == Some(Tables([0, 1, 1, 1, 1, 0, 0, 0, 1, 0, 0, 1], [], [File(name, 0, 0, 0)]))
  {
    hide Be32, Read32, HeaderBytes, ProgramBytes, ReadTables;
    var h, p := HeaderBytes(name), ProgramBytes(rows, end, base);
    var b := UnitBytes(name, rows, end, base) + more;
    BeSizes(6 + |h| + |p|);
    BeSizes(|h|);
    Be16Size(4);
    assert b[6..] == Be32(|h|) + (h + p + more);
    Be32Back(|h|, h + p + more);
    HeaderStart(name);
    assert b[10..10 + |h|] == h;
    HeaderTables(name);
  }

  lemma HeaderTables(name: seq<Byte8>)
    requires name != [] && 0 !in name
    ensures |HeaderBytes(name)| >= 6
    ensures ReadTables(HeaderBytes(name)) == Some(Tables([0, 1, 1, 1, 1, 0, 0, 0, 1, 0, 0, 1], [], [File(name, 0, 0, 0)]))
  {
    hide FileBytes, ReadFiles, ReadDirs;
    var h := HeaderBytes(name);
    assert h[5] == 13;
    assert h[6..18] == OPCODE_LENGTHS;
    assert h[18..] == [0] + FileBytes(name);
    NoDirs(FileBytes(name));
    OneFile(name);
  }

  lemma NoDirs(more: seq<Byte8>)
    ensures ReadDirs([0] + more) == Some(([], more))
  {
    assert ([0] + more)[1..] == more;
    assert ReadString([0] + more) == Some(([], more));
  }

  lemma OneFile(name: seq<Byte8>)
    requires name != [] && 0 !in name
    ensures ReadFiles(FileBytes(name)) == Some(([File(name, 0, 0, 0)], []))
  {
    hide ReadString, ReadFile;
    StringShorter(FileBytes(name));
    var tail: seq<Byte8> := [0, 0, 0, 0];
    assert Uleb(0) == [0];
    assert FileBytes(name) == name + ([0] + tail);
    StringBack(name, tail);
    FileBack(name);
    NoFiles();
    var f := File(name, 0, 0, 0);
    assert [f] + [] == [f];
  }

  lemma NoFiles()
    ensures ReadFiles([0]) == Some(([], []))
  {
    var zero: seq<Byte8> := [0];
    assert zero[1..] == [];
  }

  lemma FileBack(name: seq<Byte8>)
    ensures ReadFile(name, [0, 0, 0, 0]) == Some((File(name, 0, 0, 0), [0]))
  {
    var b: seq<Byte8> := [0, 0, 0, 0];
    assert b[1..] == [0, 0, 0] && b[1..][1..] == [0, 0] && b[1..][1..][1..] == [0];
  }

  lemma {:induction false} StringBack(name: seq<Byte8>, more: seq<Byte8>)
    requires 0 !in name
    ensures ReadString(name + ([0] + more)) == Some((name, more))
  {
    var b := name + ([0] + more);
    if name == [] {
      assert b[1..] == more;
    } else {
      assert b[1..] == name[1..] + ([0] + more);
      StringBack(name[1..], more);
      assert [name[0]] + name[1..] == name;
    }
  }

  // Big-endian, as the 68000 is; and the program of a single row, line 2 at address 4 of 6.
  lemma ProgramExample(base: nat)
    requires base < 0x1_0000_0000
    ensures Be16(0x1234) == [0x12, 0x34] && Be32(0x1234_5678) == [0x12, 0x34, 0x56, 0x78]
    ensures Ascending([LineRow(4, 2)], 0, 6)
    ensures ProgramBytes([LineRow(4, 2)], 6, base) == [0, 5, 2] + Be32(base) + [2, 4, 3, 1, 1, 2, 2, 0, 1, 1]
  {
    hide Be32;
    var rows := [LineRow(4, 2)];
    FourOf();
    assert rows[1..] == [];
    assert Uleb(5) == [5] && Uleb(4) == [4] && Uleb(2) == [2] && Uleb(1) == [1] && Sleb(1) == [1];
    assert RowsCode([], 4, 2, 6) == [2, 2, 0, 1, 1];
    assert RowCode(rows[0], 0, 1) == [2, 4, 3, 1, 1];
  }

  lemma FourOf()
    ensures Be32(0x1234_5678) == [0x12, 0x34, 0x56, 0x78]
  {}

  // Reading the emitted unit gives exactly the recorded rows, in order, and an
  // end_sequence row at the end of text, wherever text is placed.
  lemma UnitReadsBack(name: seq<Byte8>, rows: seq<LineRow>, end: nat, base: nat, more: seq<Byte8>)
    requires Ascending(rows, 0, end) && base < 0x1_0000_0000
    requires |UnitBytes(name, rows, end, base)| < 0x1_0000_0000
    ensures ReadUnit(UnitBytes(name, rows, end, base) + more) == Some(TableRows(rows, 1, end, base))
  {
    hide Execute, Be32, Read32, RowsCode, HeaderBytes, ReadBody;
    var h, p := HeaderBytes(name), ProgramBytes(rows, end, base);
    var rest := Be16(4) + Be32(|h|) + h + p;
    BeSizes(6 + |h| + |p|);
    BeSizes(|h|);
    var b := UnitBytes(name, rows, end, base) + more;
    assert b == Be32(6 + |h| + |p|) + (rest + more);
    Be32Back(6 + |h| + |p|, rest + more);
    assert b[4..4 + |rest|] == rest;
    BodyReads(name, p);
    SetAddress(base, RowsCode(rows, 0, 1, end), Start(HDR));
    RowsRun(rows, 0, 1, end, base);
  }

  lemma BodyReads(name: seq<Byte8>, p: seq<Byte8>)
    requires |HeaderBytes(name)| < 0x1_0000_0000
    ensures var h := HeaderBytes(name);
      |Be32(|h|)| == 4 && ReadBody(Be16(4) + Be32(|h|) + h + p) == Execute(p, HDR, Start(HDR))
  {
    hide Execute, Be32, Read32;
    var h := HeaderBytes(name);
    BeSizes(|h|);
    var unit := Be16(4) + Be32(|h|) + h + p;
    assert unit[2..] == Be32(|h|) + (h + p);
    Be32Back(|h|, h + p);
    assert unit[6..] == h + p && unit[6 + |h|..] == p;
    assert (h + p)[..6] == [1, 1, 1, 251, 14, 13] by { HeaderStart(name); }
    SixOf(h + p);
  }

  lemma HeaderStart(name: seq<Byte8>)
    ensures |HeaderBytes(name)| >= 6 && HeaderBytes(name)[..6] == [1, 1, 1, 251, 14, 13]
  {}

  lemma SixOf(f: seq<Byte8>)
    requires |f| >= 6 && f[..6] == [1, 1, 1, 251, 14, 13]
    ensures ReadHeader(f) == HDR
  {
    assert forall i | 0 <= i < 6 :: f[i] == f[..6][i];
  }

  lemma BeSizes(v: nat)
    ensures |Be32(v)| == 4
  {}

  // ---- the assembler's state -----------------------------------------------------------------------------

  class Buf {
    var data: array<Byte8>
    var len: nat

    ghost predicate Valid()
      reads this
    {
      len <= data.Length
    }

    ghost function Contents(): seq<Byte8>
      requires Valid()
      reads this, data
    {
      data[..len]
    }

    lemma Size()
      requires Valid()
      ensures |Contents()| == len
    {}

    constructor ()
      ensures Valid() && Contents() == [] && fresh(data)
    {
      len := 0;
      data := new Byte8[0];
    }

    // buf_need: at least double the capacity.
    method Need(n: nat)
      requires Valid()
      modifies this
      ensures Valid() && len == old(len) && Contents() == old(Contents()) && len + n <= data.Length
      ensures fresh(data) || data == old(data)
    {
      if len + n <= data.Length { return; }
      var twice := if data.Length > 0 then data.Length * 2 else 256;
      var cap := if twice > len + n then twice else len + n;
      var bigger := new Byte8[cap](i requires 0 <= i reads this, data => if i < data.Length then data[i] else 0);
      data := bigger;
    }

    method B8(v: int)
      requires Valid()
      modifies this, data
      ensures Valid() && Contents() == old(Contents()) + [v % 256]
      ensures fresh(data) || data == old(data)
    {
      Need(1);
      data[len] := v % 256;
      len := len + 1;
    }

    method B16(v: nat)
      requires Valid()
      modifies this, data
      ensures Valid() && Contents() == old(Contents()) + Be16(v)
      ensures fresh(data) || data == old(data)
    {
      B8(v / 256);
      B8(v);
    }

    method B32(v: nat)
      requires Valid()
      modifies this, data
      ensures Valid() && Contents() == old(Contents()) + Be32(v)
      ensures fresh(data) || data == old(data)
    {
      B8(v / 0x100_0000);
      B8(v / 0x1_0000);
      B8(v / 256);
      B8(v);
    }

    method PutUleb(v: nat)
      requires Valid()
      modifies this, data
      ensures Valid() && Contents() == old(Contents()) + Uleb(v)
      ensures fresh(data) || data == old(data)
    {
      hide Contents, Uleb;
      var x, done := v, false;
      while !done
        invariant Valid() && (fresh(data) || data == old(data))
        invariant Contents() + (if done then [] else Uleb(x)) == old(Contents()) + Uleb(v)
        decreases if done then 0 else x + 1
      {
        var byte := x % 128;
        UlebStep(x);
        x := x / 128;
        if x != 0 { byte := byte + 128; }
        assert byte % 256 == byte by { OneByte(byte); }
        B8(byte);
        done := x == 0;
      }
    }

    method PutSleb(v: int)
      requires Valid()
      modifies this, data
      ensures Valid() && Contents() == old(Contents()) + Sleb(v)
      ensures fresh(data) || data == old(data)
    {
      hide Contents, Sleb;
      var x, done := v, false;
      while !done
        invariant Valid() && (fresh(data) || data == old(data))
        invariant Contents() + (if done then [] else Sleb(x)) == old(Contents()) + Sleb(v)
        decreases if done then 0 else if x >= 0 then x + 1 else -x
      {
        var byte := x % 128;
        SlebStep(x);
        x := x / 128;
        done := (x == 0 && byte < 64) || (x == -1 && byte >= 64);
        if !done { byte := byte + 128; }
        assert byte % 256 == byte by { OneByte(byte); }
        B8(byte);
      }
    }

    method PutAll(s: seq<Byte8>)
      requires Valid()
      modifies this, data
      ensures Valid() && Contents() == old(Contents()) + s
      ensures fresh(data) || data == old(data)
    {
      var i := 0;
      while i < |s|
        invariant i <= |s| && Valid() && (fresh(data) || data == old(data))
        invariant Contents() == old(Contents()) + s[..i]
      {
        B8(s[i]);
        i := i + 1;
      }
    }

    method Patch32(off: nat, v: nat)
      requires Valid() && off + 4 <= len
      modifies data
      ensures Valid() && Contents() == old(Contents())[..off] + Be32(v) + old(Contents())[off + 4..]
    {
      data[off] := v / 0x100_0000 % 256;
      data[off + 1] := v / 0x1_0000 % 256;
      data[off + 2] := v / 256 % 256;
      data[off + 3] := v % 256;
    }
  }

  lemma HeaderParts(name: seq<Byte8>)
    ensures HeaderBytes(name) == [1, 1, 1, 251, 14, 13] + OPCODE_LENGTHS + [0] + FileBytes(name)
  {}

  lemma OneByte(b: nat)
    requires b < 256
    ensures b % 256 == b
  {}

  lemma UlebStep(v: nat)
    ensures Uleb(v) == if v / 128 == 0 then [v % 128] else [v % 128 + 128] + Uleb(v / 128)
  {}

  lemma SlebStep(v: int)
    ensures var byte, w := v % 128, v / 128;
      Sleb(v) == if (w == 0 && byte < 64) || (w == -1 && byte >= 64) then [byte] else [byte + 128] + Sleb(w)
  {}

  // A later row at the same address only changes its line.
  function Recorded(rows: seq<LineRow>, addr: nat, line: int): seq<LineRow> {
    if rows != [] && rows[|rows| - 1].addr == addr then rows[..|rows| - 1] + [LineRow(addr, line)]
    else rows + [LineRow(addr, line)]
  }

  lemma {:induction false} RecordedAscends(rows: seq<LineRow>, addr: nat, from: nat, line: int)
    requires Ascending(rows, from, addr)
    ensures Ascending(Recorded(rows, addr, line), from, addr)
    decreases |rows|
  {
    if |rows| > 1 {
      RecordedAscends(rows[1..], addr, rows[0].addr, line);
      LastWithin(rows, from, addr);
      assert Recorded(rows, addr, line)[1..] == Recorded(rows[1..], addr, line);
    } else if |rows| == 1 {
      var r := Recorded(rows, addr, line);
      assert r[1..] == [] || (|r| == 2 && r[1..][1..] == []);
    } else {
      assert Recorded(rows, addr, line)[1..] == [];
    }
  }

  lemma {:induction false} AllAscend(rows: seq<LineRow>, from: nat, end: nat)
    requires Ascending(rows, from, end)
    ensures forall i, j | 0 <= i < j < |rows| :: rows[i].addr < rows[j].addr
    ensures forall i | 0 <= i < |rows| :: rows[i].addr <= end
  {
    if rows != [] {
      AllAscend(rows[1..], rows[0].addr, end);
      assert forall i | 1 <= i < |rows| :: rows[i] == rows[1..][i - 1];
      LastWithin(rows, from, end);
    }
  }

  // The table keeps one row per address, with the line last given there.
  lemma RecordedMeans(rows: seq<LineRow>, addr: nat, line: int, row: LineRow)
    requires Ascending(rows, 0, addr)
    ensures row in Recorded(rows, addr, line) <==> row == LineRow(addr, line) || (row in rows && row.addr != addr)
  {
    AllAscend(rows, 0, addr);
    var t := Recorded(rows, addr, line);
    if row in rows && row.addr != addr {
      var i :| 0 <= i < |rows| && rows[i] == row;
      assert t[i] == row;
    }
    if row == LineRow(addr, line) { assert t[|t| - 1] == row; }
    if row in t && row != LineRow(addr, line) {
      var i :| 0 <= i < |t| && t[i] == row;
      assert rows[i] == row;
    }
  }

  lemma {:induction false} LastWithin(rows: seq<LineRow>, from: nat, end: nat)
    requires Ascending(rows, from, end) && rows != []
    ensures from <= rows[0].addr <= rows[|rows| - 1].addr <= end
    ensures |rows| > 1 ==> rows[0].addr < rows[|rows| - 1].addr
    decreases |rows|
  {
    if |rows| > 1 { LastWithin(rows[1..], rows[0].addr, end); }
  }

  lemma {:induction false} MoreText(rows: seq<LineRow>, from: nat, end: nat, more: nat)
    requires Ascending(rows, from, end)
    ensures Ascending(rows, from, end + more)
  {
    if rows != [] { MoreText(rows[1..], rows[0].addr, end, more); }
  }

  class Assembler {
    var textLen: nat
    var lrows: seq<LineRow>

    constructor ()
      ensures Valid() && textLen == 0 && lrows == []
    {
      textLen, lrows := 0, [];
    }

    // Rows are at strictly increasing addresses within text.
    ghost predicate Valid()
      reads this
    {
      Ascending(lrows, 0, textLen)
    }

    // n bytes of instructions are assembled.
    method Text(n: nat)
      requires Valid()
      modifies this`textLen
      ensures Valid() && textLen == old(textLen) + n
    {
      MoreText(lrows, 0, textLen, n);
      textLen := textLen + n;
    }

    // handle_debug_dir, for ";@loc line".
    method Loc(line: int)
      requires Valid()
      modifies this`lrows
      ensures Valid() && lrows == Recorded(old(lrows), textLen, line)
    {
      RecordedAscends(lrows, textLen, 0, line);
      var n := |lrows|;
      if n > 0 && lrows[n - 1].addr == textLen {
        lrows := lrows[n - 1 := lrows[n - 1].(line := line)];
      } else {
        lrows := lrows + [LineRow(textLen, line)];
      }
    }

    method PutHeader(buf: Buf, name: seq<Byte8>)
      requires buf.Valid()
      modifies buf, buf.data
      ensures buf.Valid() && buf.Contents() == old(buf.Contents()) + HeaderBytes(name)
      ensures fresh(buf.data) || buf.data == old(buf.data)
    {
      hide Uleb, Buf.Contents, FileBytes, HeaderBytes;
      ghost var was := buf.Contents();
      buf.PutAll([1, 1, 1, 251, 14, 13]);
      buf.PutAll(OPCODE_LENGTHS);
      buf.B8(0);
      PutFile(buf, name);
      HeaderParts(name);
      assert buf.Contents() == was + ([1, 1, 1, 251, 14, 13] + OPCODE_LENGTHS + [0] + FileBytes(name));
    }

    // The one entry of file_names, and its end.
    method PutFile(buf: Buf, name: seq<Byte8>)
      requires buf.Valid()
      modifies buf, buf.data
      ensures buf.Valid() && buf.Contents() == old(buf.Contents()) + FileBytes(name)
      ensures fresh(buf.data) || buf.data == old(buf.data)
    {
      hide Uleb, Buf.Contents;
      ghost var was := buf.Contents();
      buf.PutAll(name);
      buf.B8(0);
      buf.PutUleb(0);
      buf.PutUleb(0);
      buf.PutUleb(0);
      buf.B8(0);
      assert buf.Contents() == was + FileBytes(name);
    }

    method PutRow(buf: Buf, row: LineRow, addr: nat, line: int)
      requires buf.Valid() && addr <= row.addr
      modifies buf, buf.data
      ensures buf.Valid() && buf.Contents() == old(buf.Contents()) + RowCode(row, addr, line)
      ensures fresh(buf.data) || buf.data == old(buf.data)
    {
      hide Uleb, Sleb, Buf.Contents;
      ghost var was := buf.Contents();
      if row.addr != addr {
        buf.B8(2);
        buf.PutUleb(row.addr - addr);
      }
      if row.line != line {
        buf.B8(3);
        buf.PutSleb(row.line - line);
      }
      buf.B8(1);
      assert buf.Contents() == was + RowCode(row, addr, line);
    }

    // The line-number program; addrOff is where the address to relocate is.
    method PutProgram(buf: Buf) returns (addrOff: nat)
      requires Valid() && buf.Valid()
      modifies buf, buf.data
      ensures buf.Valid() && buf.Contents() == old(buf.Contents()) + ProgramBytes(lrows, textLen, 0)
      ensures fresh(buf.data) || buf.data == old(buf.data)
      ensures addrOff == old(buf.len) + 3
    {
      hide Sleb, Uleb, Be32, RowCode, RowsCode, Ascending, Buf.Contents;
      addrOff := PutAddress(buf);
      ghost var mid := buf.Contents();
      var curLine, curAddr := 1, 0;
      var i := 0;
      assert lrows[0..] == lrows;
      while i < |lrows|
        invariant i <= |lrows| && buf.Valid() && (fresh(buf.data) || buf.data == old(buf.data))
        invariant Ascending(lrows[i..], curAddr, textLen)
        invariant buf.Contents() + RowsCode(lrows[i..], curAddr, curLine, textLen)
               == mid + RowsCode(lrows, 0, 1, textLen)
      {
        var row := lrows[i];
        assert lrows[i..][0] == row && lrows[i..][1..] == lrows[i + 1..];
        NextRow(lrows[i..], curAddr, curLine, textLen);
        PutRow(buf, row, curAddr, curLine);
        curAddr, curLine := row.addr, row.line;
        i := i + 1;
      }
      assert lrows[i..] == [];
      LastRow(curAddr, textLen);
      PutEnd(buf, curAddr, curLine);
      assert buf.Contents() == mid + RowsCode(lrows, 0, 1, textLen);
    }

    // DW_LNE_set_address 0.
    method PutAddress(buf: Buf) returns (addrOff: nat)
      requires buf.Valid()
      modifies buf, buf.data
      ensures buf.Valid() && buf.Contents() == old(buf.Contents()) + ([0] + Uleb(5) + [2] + Be32(0))
      ensures fresh(buf.data) || buf.data == old(buf.data)
      ensures addrOff == old(buf.len) + 3
    {
      hide Be32, Buf.Contents;
      ghost var was := buf.Contents();
      buf.Size();
      buf.B8(0);
      buf.PutUleb(5);
      buf.B8(2);
      assert buf.Contents() == was + ([0] + Uleb(5) + [2]);
      assert Uleb(5) == [5];
      buf.Size();
      addrOff := buf.len;
      buf.B32(0);
      assert buf.Contents() == was + ([0] + Uleb(5) + [2] + Be32(0));
    }

    method PutEnd(buf: Buf, addr: nat, line: int)
      requires buf.Valid() && addr <= textLen
      modifies buf, buf.data
      ensures buf.Valid() && buf.Contents() == old(buf.Contents()) + RowsCode([], addr, line, textLen)
      ensures fresh(buf.data) || buf.data == old(buf.data)
    {
      hide Uleb, Buf.Contents;
      ghost var was := buf.Contents();
      if textLen > addr {
        buf.B8(2);
        buf.PutUleb(textLen - addr);
      }
      buf.B8(0);
      buf.PutUleb(1);
      buf.B8(1);
      assert buf.Contents() == was + RowsCode([], addr, line, textLen);
    }

    // The .debug_line part of build_debug. A consumer of what it appends sees the
    // recorded rows in order and the end of text.
    method BuildLine(buf: Buf, name: seq<Byte8>) returns (addrOff: nat)
      requires Valid() && buf.Valid()
      modifies buf, buf.data
      ensures buf.Valid() && buf.Contents() == old(buf.Contents()) + UnitBytes(name, lrows, textLen, 0)
      ensures addrOff == old(buf.len) + 10 + |HeaderBytes(name)| + 3
      ensures |UnitBytes(name, lrows, textLen, 0)| < 0x1_0000_0000 ==>
        ReadUnit(buf.Contents()[old(buf.len)..]) == Some(TableRows(lrows, 1, textLen, 0))
    {
      hide Be32, Be16, Uleb, Sleb, RowsCode, HeaderBytes, ProgramBytes, ReadUnit, TableRows, UnitBytes, Buf.Contents;
      ghost var was := buf.Contents();
      ghost var h, p := HeaderBytes(name), ProgramBytes(lrows, textLen, 0);
      ghost var rest := Be16(4) + Be32(|h|) + h + p;
      BeSizes(0);
      BeSizes(|h|);
      BeSizes(6 + |h| + |p|);
      Be16Size(4);
      buf.Size();
      var start := buf.len;
      PutHead(buf, name);
      buf.Size();
      addrOff := PutProgram(buf);
      assert buf.Contents() == was + Be32(0) + rest;
      buf.Size();
      buf.Patch32(start, buf.len - (start + 4));
      assert buf.Contents() == was + (Be32(6 + |h| + |p|) + rest);
      UnitParts(name, lrows, textLen);
      assert buf.Contents()[|was|..] == UnitBytes(name, lrows, textLen, 0) + [];
      if |UnitBytes(name, lrows, textLen, 0)| < 0x1_0000_0000 {
        UnitReadsBack(name, lrows, textLen, 0, []);
      }
    }

    // Lengths (the unit's still 0) and header.
    method PutHead(buf: Buf, name: seq<Byte8>)
      requires buf.Valid()
      modifies buf, buf.data
      ensures buf.Valid()
      ensures buf.Contents() == old(buf.Contents()) + Be32(0) + (Be16(4) + Be32(|HeaderBytes(name)|) + HeaderBytes(name))
      ensures fresh(buf.data) || buf.data == old(buf.data)
    {
      hide Be32, Be16, HeaderBytes, Buf.Contents;
      ghost var was, h := buf.Contents(), HeaderBytes(name);
      BeSizes(0);
      BeSizes(|h|);
      Be16Size(4);
      buf.Size();
      buf.B32(0);
      buf.B16(4);
      buf.Size();
      var hOff := buf.len;
      buf.B32(0);
      PutHeader(buf, name);
      buf.Size();
      buf.Patch32(hOff, buf.len - (hOff + 4));
      assert buf.Contents() == was + Be32(0) + (Be16(4) + Be32(|h|) + h);
    }
  }

  lemma NextRow(rows: seq<LineRow>, addr: nat, line: int, end: nat)
    requires Ascending(rows, addr, end) && rows != []
    ensures addr <= rows[0].addr && Ascending(rows[1..], rows[0].addr, end)
    ensures RowsCode(rows, addr, line, end)
         == RowCode(rows[0], addr, line) + RowsCode(rows[1..], rows[0].addr, rows[0].line, end)
  {}

  lemma LastRow(addr: nat, end: nat)
    ensures Ascending([], addr, end) <==> addr <= end
  {}

  lemma UnitParts(name: seq<Byte8>, rows: seq<LineRow>, end: nat)
    requires Ascending(rows, 0, end)
    ensures var h, p := HeaderBytes(name), ProgramBytes(rows, end, 0);
      UnitBytes(name, rows, end, 0) == Be32(6 + |h| + |p|) + (Be16(4) + Be32(|h|) + h + p)
  {
    hide Be32, Be16, HeaderBytes, ProgramBytes;
  }

  // Relocation writes text's address over the four bytes at addrOff.
  lemma Relocated(name: seq<Byte8>, rows: seq<LineRow>, end: nat, base: nat)
    requires Ascending(rows, 0, end)
    ensures var b := UnitBytes(name, rows, end, 0); var off := 10 + |HeaderBytes(name)| + 3;
      off + 4 <= |b| && UnitBytes(name, rows, end, base) == b[..off] + Be32(base) + b[off + 4..]
  {
    hide HeaderBytes, RowsCode, Be32, Be16;
    var h := HeaderBytes(name);
    var b, c := UnitBytes(name, rows, end, 0), UnitBytes(name, rows, end, base);
    var n := 6 + |h| + |ProgramBytes(rows, end, 0)|;
    BeSizes(0);
    BeSizes(base);
    BeSizes(n);
    BeSizes(|h|);
    Be16Size(4);
    assert Uleb(5) == [5];
    var front := Be32(n) + Be16(4) + Be32(|h|) + h + ([0] + [5] + [2]);
    var code := RowsCode(rows, 0, 1, end);
    assert b == front + Be32(0) + code && c == front + Be32(base) + code;
  }

  lemma Be16Size(v: nat)
    ensures |Be16(v)| == 2
  {}
}
