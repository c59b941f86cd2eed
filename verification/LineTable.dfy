// Encoding a line table as a line-number program, and running the program as its inverse.

module LineTable {
  import opened Arithmetic
  import opened Common
  import opened Slices
  import opened Cursors
  import opened Leb128
  import opened LineLoop
  import opened LineProgram

  // Rows of one contiguous stretch of code, which starts and ends at given addresses.
  datatype Sequence = Sequence(start: uint64, rows: seq<Row>, last: uint64)

  // The five opcodes the encoder uses must be standard ones.
  predicate Encoder(h: Header) {
    ValidHeader(h) && h.opcodeBase >= 6 && h.minimumInstructionLength > 0
  }

  // An address the encoder can move on to.
  predicate Reachable(h: Header, from: uint64, to: uint64)
    requires Encoder(h)
  {
    from <= to && (to - from) % h.minimumInstructionLength == 0
  }

  // The advance between two addresses, in instruction lengths.
  function Lengths(h: Header, from: uint64, to: uint64): uint64
    requires Encoder(h) && Reachable(h, from, to)
  {
    (to - from) / h.minimumInstructionLength
  }

  predicate Ascending(h: Header, from: uint64, rows: seq<Row>)
    requires Encoder(h)
    decreases |rows|
  {
    rows != [] ==> Reachable(h, from, rows[0].address) && Ascending(h, rows[0].address, rows[1..])
  }

  // The opcode of section 6.2.5.1 for an advance and a line change, where there is one.
  function SpecialOpcode(h: Header, advance: nat, lines: int): Option<byte>
    requires ValidHeader(h)
  {
    if h.lineBase <= lines < h.lineBase + h.lineRange
       && (lines - h.lineBase) + h.lineRange * advance + h.opcodeBase <= 255
    then Some((lines - h.lineBase) + h.lineRange * advance + h.opcodeBase)
    else None
  }

  function EncodeFile(from: uint64, to: uint64): seq<byte> {
    if to == from then [] else [4] + EncodeUleb(to)
  }

  function EncodeColumn(from: uint64, to: uint64): seq<byte> {
    if to == from then [] else [5] + EncodeUleb(to)
  }

  function EncodeAdvance(h: Header, from: uint64, to: uint64): seq<byte>
    requires Encoder(h) && Reachable(h, from, to)
  {
    if to == from then [] else [2] + EncodeUleb(Lengths(h, from, to))
  }

  function EncodeLine(from: int, to: int): seq<byte> {
    if to == from then [] else [3] + EncodeSleb(to - from)
  }

  // The special opcode that moves on from an address and a line to those of a row.
  function SpecialFor(h: Header, address: uint64, line: int, row: Row): Option<byte>
    requires Encoder(h) && Reachable(h, address, row.address)
  {
    SpecialOpcode(h, Lengths(h, address, row.address), row.line - line)
  }

  // The advance of special opcode 255, which opcode 8 makes without a row (section 6.2.5.2).
  function Padding(h: Header): nat {
    if h.lineRange == 0 then 0 else (255 - h.opcodeBase) / h.lineRange
  }

  // The special opcode behind opcode 8, where there is one.
  function PaddedFor(h: Header, address: uint64, line: int, row: Row): Option<byte>
    requires Encoder(h) && Reachable(h, address, row.address)
  {
    if h.opcodeBase > 8 && Padding(h) <= Lengths(h, address, row.address) then
      SpecialOpcode(h, Lengths(h, address, row.address) - Padding(h), row.line - line)
    else None
  }

  function EncodePlace(h: Header, address: uint64, line: int, row: Row): seq<byte>
    requires Encoder(h) && Reachable(h, address, row.address)
  {
    var special := SpecialFor(h, address, line, row);
    var padded := PaddedFor(h, address, line, row);
    if special.Some? then [special.value]
    else if padded.Some? then [8, padded.value]
    else EncodeAdvance(h, address, row.address) + (EncodeLine(line, row.line) + [1])
  }

  function EncodeRow(h: Header, r: Registers, row: Row): seq<byte>
    requires Encoder(h) && Reachable(h, r.address, row.address)
  {
    EncodeFile(r.file, row.file) + (EncodeColumn(r.column, row.column) + EncodePlace(h, r.address, r.line, row))
  }

  // The file a sequence starts with.
  function FirstFile(h: Header): uint64 {
    if h.version >= 5 then 0 else 1
  }

  // The registers once a row has been pushed.
  function After(r: Registers, row: Row): Registers {
    Registers(row.address, row.file, row.line, row.column, r.rows + [row])
  }

  function AfterRows(r: Registers, rows: seq<Row>): (r': Registers)
    decreases |rows|
  {
    if rows == [] then r else AfterRows(After(r, rows[0]), rows[1..])
  }

  function EncodeRows(h: Header, r: Registers, rows: seq<Row>): seq<byte>
    requires Encoder(h) && Ascending(h, r.address, rows)
    decreases |rows|
  {
    if rows == [] then [] else EncodeRow(h, r, rows[0]) + EncodeRows(h, After(r, rows[0]), rows[1..])
  }

  function EncodeLittle(n: nat, count: nat): (s: seq<byte>)
    ensures |s| == count
  {
    if count == 0 then [] else [n % 256] + EncodeLittle(n / 256, count - 1)
  }

  function EncodeBig(n: nat, count: nat): (s: seq<byte>)
    ensures |s| == count
  {
    if count == 0 then [] else EncodeBig(n / 256, count - 1) + [n % 256]
  }

  function EncodeAddress(h: Header, address: uint64): (s: seq<byte>)
    ensures |s| == 11
  {
    [0, 9, 2] + if h.bigEndian then EncodeBig(address, 8) else EncodeLittle(address, 8)
  }

  predicate Wellformed(h: Header, s: Sequence) {
    Encoder(h) && Ascending(h, s.start, s.rows) && Reachable(h, LastAddress(s.start, s.rows), s.last)
  }

  function LastAddress(from: uint64, rows: seq<Row>): uint64 {
    if rows == [] then from else rows[|rows| - 1].address
  }

  function EncodeSequence(h: Header, s: Sequence): seq<byte>
    requires Wellformed(h, s)
  {
    var r := Registers(s.start, FirstFile(h), 1, 0, []);
    EncodeAddress(h, s.start)
    + (EncodeRows(h, r, s.rows) + (EncodeAdvance(h, LastAddress(s.start, s.rows), s.last) + [0, 1, 1]))
  }

  function EncodeTable(h: Header, table: seq<Sequence>): seq<byte>
    requires forall s | s in table :: Wellformed(h, s)
  {
    if table == [] then [] else EncodeSequence(h, table[0]) + EncodeTable(h, table[1..])
  }

  // The row that ends a sequence repeats the file, line and column of the one before.
  function EndRow(h: Header, s: Sequence): Row {
    if s.rows == [] then Row(s.last, FirstFile(h), 1, 0)
    else s.rows[|s.rows| - 1].(address := s.last)
  }

  function TableRows(h: Header, table: seq<Sequence>): seq<Row> {
    if table == [] then [] else table[0].rows + [EndRow(h, table[0])] + TableRows(h, table[1..])
  }

  // ---------- single opcodes ----------

  // Some turns of the loop lead from r at pos to r' at pos'.
  ghost predicate Continues(h: Header, bytes: Bytes, end: uint64, pos: nat, r: Registers, pos': nat, r': Registers) {
    && ValidHeader(h) && pos <= pos' <= end
    && exists n: nat :: Turns(h, bytes, Machine(Cur(pos, false), r), end, n) == Machine(Cur(pos', false), r')
  }

  lemma Stays(h: Header, bytes: Bytes, end: uint64, pos: nat, r: Registers)
    requires ValidHeader(h) && pos <= end
    ensures Continues(h, bytes, end, pos, r, pos, r)
  {
    assert Turns(h, bytes, Machine(Cur(pos, false), r), end, 0) == Machine(Cur(pos, false), r);
  }

  lemma Onward(h: Header, bytes: Bytes, end: uint64, p1: nat, r1: Registers, p2: nat, r2: Registers, p3: nat,
    r3: Registers)
    requires Continues(h, bytes, end, p1, r1, p2, r2) && Continues(h, bytes, end, p2, r2, p3, r3)
    ensures Continues(h, bytes, end, p1, r1, p3, r3)
  {
    hide Turns;
    var m := Machine(Cur(p1, false), r1);
    var a: nat :| Turns(h, bytes, m, end, a) == Machine(Cur(p2, false), r2);
    var b: nat :| Turns(h, bytes, Machine(Cur(p2, false), r2), end, b) == Machine(Cur(p3, false), r3);
    TurnsAdd(h, bytes, m, end, a, b);
  }

  // One turn leads on by one step.
  lemma StepTurn(h: Header, bytes: Bytes, end: uint64, pos: nat, r: Registers, next: nat, r': Registers)
    requires ValidHeader(h) && pos < next <= end
    requires Step(h, bytes, Machine(Cur(pos, false), r)) == Machine(Cur(next, false), r')
    ensures Continues(h, bytes, end, pos, r, next, r')
  {
    hide Step;
    NoTurn(h, bytes, Machine(Cur(pos, false), r), end);
    OneTurn(h, bytes, Machine(Cur(pos, false), r), end, 0);
  }

  // A turn of a standard opcode.
  lemma StandardTurn(h: Header, bytes: Bytes, end: uint64, pos: nat, r: Registers, opcode: byte, next: nat, r': Registers)
    requires ValidHeader(h) && 0 < opcode < h.opcodeBase && At(bytes, pos, [opcode]) && pos < next <= end
    requires Standard(h, bytes, Cur(pos + 1, false), r, opcode) == Machine(Cur(next, false), r')
    ensures Continues(h, bytes, end, pos, r, next, r')
  {
    AtFirst(bytes, pos, [opcode]);
    hide Continues, Standard, Special, Extended, At;
    StepTurn(h, bytes, end, pos, r, next, r');
  }

  lemma SpecialTurn(h: Header, bytes: Bytes, end: uint64, pos: nat, r: Registers, opcode: byte)
    requires Encoder(h) && opcode >= h.opcodeBase && At(bytes, pos, [opcode]) && pos < end
    ensures Continues(h, bytes, end, pos, r, pos + 1, Special(h, r, opcode))
  {
    AtFirst(bytes, pos, [opcode]);
    hide Continues, Standard, Special, Extended, At;
    StepTurn(h, bytes, end, pos, r, pos + 1, Special(h, r, opcode));
  }

  // A standard opcode with one unsigned operand.
  lemma OperandTurn(h: Header, bytes: Bytes, end: uint64, pos: nat, r: Registers, opcode: byte, n: uint64, r': Registers)
    requires ValidHeader(h) && 0 < opcode < h.opcodeBase
    requires At(bytes, pos, [opcode] + EncodeUleb(n)) && pos + 1 + |EncodeUleb(n)| <= end
    requires var next := Cur(pos + 1 + |EncodeUleb(n)|, false);
      Uleb(bytes, Cur(pos + 1, false)) == (n, next) ==>
        Standard(h, bytes, Cur(pos + 1, false), r, opcode) == Machine(next, r')
    ensures Continues(h, bytes, end, pos, r, pos + 1 + |EncodeUleb(n)|, r')
  {
    hide Standard, At, EncodeUleb, Uleb, Continues;
    AtConcat(bytes, pos, [opcode], EncodeUleb(n));
    UlebInverts(bytes, pos + 1, n);
    StandardTurn(h, bytes, end, pos, r, opcode, pos + 1 + |EncodeUleb(n)|, r');
  }

  lemma FileTurn(h: Header, bytes: Bytes, end: uint64, pos: nat, r: Registers, file: uint64)
    requires Encoder(h) && At(bytes, pos, EncodeFile(r.file, file)) && pos + |EncodeFile(r.file, file)| <= end
    ensures Continues(h, bytes, end, pos, r, pos + |EncodeFile(r.file, file)|, r.(file := file))
  {
    hide At, EncodeUleb, Uleb, Continues;
    if file == r.file {
      Stays(h, bytes, end, pos, r);
    } else {
      OperandTurn(h, bytes, end, pos, r, 4, file, r.(file := file));
    }
  }

  lemma ColumnTurn(h: Header, bytes: Bytes, end: uint64, pos: nat, r: Registers, column: uint64)
    requires Encoder(h) && At(bytes, pos, EncodeColumn(r.column, column)) && pos + |EncodeColumn(r.column, column)| <= end
    ensures Continues(h, bytes, end, pos, r, pos + |EncodeColumn(r.column, column)|, r.(column := column))
  {
    hide At, EncodeUleb, Uleb, Continues;
    if column == r.column {
      Stays(h, bytes, end, pos, r);
    } else {
      OperandTurn(h, bytes, end, pos, r, 5, column, r.(column := column));
    }
  }

  // Moving on by the encoded number of instruction lengths reaches the address.
  lemma AdvanceReaches(h: Header, r: Registers, to: uint64)
    requires Encoder(h) && Reachable(h, r.address, to)
    ensures Advance(h, r, Lengths(h, r.address, to)) == r.(address := to)
  {
    var d, m := to - r.address, h.minimumInstructionLength;
    assert d == (d / m) * m + d % m;
  }

  lemma AdvanceTurn(h: Header, bytes: Bytes, end: uint64, pos: nat, r: Registers, to: uint64)
    requires Encoder(h) && Reachable(h, r.address, to)
    requires At(bytes, pos, EncodeAdvance(h, r.address, to)) && pos + |EncodeAdvance(h, r.address, to)| <= end
    ensures Continues(h, bytes, end, pos, r, pos + |EncodeAdvance(h, r.address, to)|, r.(address := to))
  {
    hide At, EncodeUleb, Continues, Advance, Reachable, Lengths;
    AdvanceReaches(h, r, to);
    if to == r.address {
      Stays(h, bytes, end, pos, r);
    } else {
      AdvanceBy(h, bytes, end, pos, r, Lengths(h, r.address, to));
    }
  }

  lemma AdvanceBy(h: Header, bytes: Bytes, end: uint64, pos: nat, r: Registers, n: uint64)
    requires Encoder(h) && At(bytes, pos, [2] + EncodeUleb(n)) && pos + 1 + |EncodeUleb(n)| <= end
    ensures Continues(h, bytes, end, pos, r, pos + 1 + |EncodeUleb(n)|, Advance(h, r, n))
  {
    hide At, EncodeUleb, Uleb, Continues, Advance;
    OperandTurn(h, bytes, end, pos, r, 2, n, Advance(h, r, n));
  }

  lemma LineTurn(h: Header, bytes: Bytes, end: uint64, pos: nat, r: Registers, to: uint32)
    requires Encoder(h) && 0 <= r.line < TWO32
    requires At(bytes, pos, EncodeLine(r.line, to)) && pos + |EncodeLine(r.line, to)| <= end
    ensures Continues(h, bytes, end, pos, r, pos + |EncodeLine(r.line, to)|, r.(line := to))
  {
    hide At, EncodeSleb, Sleb, Continues, Signed64;
    if to == r.line {
      Stays(h, bytes, end, pos, r);
    } else {
      AtConcat(bytes, pos, [3], EncodeSleb(to - r.line));
      SlebInverts(bytes, pos + 1, to - r.line);
      StandardTurn(h, bytes, end, pos, r, 3, pos + |EncodeLine(r.line, to)|, r.(line := to));
    }
  }

  lemma CopyTurn(h: Header, bytes: Bytes, end: uint64, pos: nat, r: Registers)
    requires Encoder(h) && At(bytes, pos, [1]) && pos < end
    ensures Continues(h, bytes, end, pos, r, pos + 1, Emit(r))
  {
    hide At, Continues, Emit;
    StandardTurn(h, bytes, end, pos, r, 1, pos + 1, Emit(r));
  }

  // A special opcode does the advance and the line change it was made for.
  lemma SpecialInverts(h: Header, r: Registers, row: Row)
    requires Encoder(h) && Reachable(h, r.address, row.address) && 0 <= r.line < TWO32
    requires SpecialFor(h, r.address, r.line, row).Some?
    ensures var opcode := SpecialFor(h, r.address, r.line, row).value;
      opcode >= h.opcodeBase && Special(h, r, opcode) == Emit(r.(address := row.address, line := row.line))
  {
    hide Advance, Emit, Reachable, Lengths;
    var advance := Lengths(h, r.address, row.address);
    var adjusted := (row.line - r.line - h.lineBase) + h.lineRange * advance;
    DivMod(h.lineRange, advance, row.line - r.line - h.lineBase);
    AdvanceReaches(h, r, row.address);
    assert adjusted / h.lineRange == advance && adjusted % h.lineRange == row.line - r.line - h.lineBase;
  }

  lemma DivMod(range: nat, q: nat, rest: nat)
    requires rest < range
    ensures (rest + range * q) / range == q && (rest + range * q) % range == rest
  {
    assert rest + range * q == q * range + rest;
    DivModUnique(rest + range * q, q, rest, range);
  }

  // ---------- rows ----------

  // The part of a row's encoding that moves the address and the line and pushes the row.
  lemma PlaceTurn(h: Header, bytes: Bytes, end: uint64, pos: nat, r: Registers, row: Row)
    requires Encoder(h) && Reachable(h, r.address, row.address) && 0 <= r.line < TWO32
    requires At(bytes, pos, EncodePlace(h, r.address, r.line, row))
    requires pos + |EncodePlace(h, r.address, r.line, row)| <= end
    ensures Continues(h, bytes, end, pos, r, pos + |EncodePlace(h, r.address, r.line, row)|,
                      Emit(r.(address := row.address, line := row.line)))
  {
    hide SpecialFor, PaddedFor, Special, Reachable, EncodeAdvance, EncodeLine, Emit, At, Encoder, Continues;
    var special, padded := SpecialFor(h, r.address, r.line, row), PaddedFor(h, r.address, r.line, row);
    if special.Some? {
      SpecialInverts(h, r, row);
      SpecialTurn(h, bytes, end, pos, r, special.value);
    } else if padded.Some? {
      PaddedTurn(h, bytes, end, pos, r, row, padded.value);
    } else {
      var a, l := EncodeAdvance(h, r.address, row.address), EncodeLine(r.line, row.line);
      var r1 := r.(address := row.address);
      var r2 := r1.(line := row.line);
      AtConcat3(bytes, pos, a, l, [1]);
      AdvanceTurn(h, bytes, end, pos, r, row.address);
      LineTurn(h, bytes, end, pos + |a|, r1, row.line);
      CopyTurn(h, bytes, end, pos + |a| + |l|, r2);
      Onward(h, bytes, end, pos, r, pos + |a|, r1, pos + |a| + |l|, r2);
      Onward(h, bytes, end, pos, r, pos + |a| + |l|, r2, pos + |a| + |l| + 1, Emit(r2));
    }
  }

  // Opcode 8 leaves the address that special opcode 255 leaves, and changes nothing else.
  lemma PaddingIsSpecial255(h: Header, bytes: Bytes, c: Cur, r: Registers)
    requires ValidHeader(h) && h.opcodeBase > 8
    ensures Standard(h, bytes, c, r, 8) == Machine(c, r.(address := Special(h, r, 255).address))
    ensures Standard(h, bytes, c, r, 8).regs.address == (r.address + Padding(h) * h.minimumInstructionLength) % TWO64
  {
    hide AddSigned;
  }

  // Behind it the special opcode has the rest of the way to make.
  lemma PaddedRest(h: Header, r: Registers, row: Row)
    requires Encoder(h) && Reachable(h, r.address, row.address) && PaddedFor(h, r.address, r.line, row).Some?
    ensures var mid := r.address + Padding(h) * h.minimumInstructionLength;
      && mid < TWO64 && Reachable(h, mid, row.address) && h.opcodeBase > 8
      && SpecialFor(h, mid, r.line, row) == PaddedFor(h, r.address, r.line, row)
  {
    hide SpecialOpcode, Padding;
    var m, d := h.minimumInstructionLength, row.address - r.address;
    var n, k := d / m, Padding(h);
    assert d == n * m;
    MulMonotone(k, n, m);
    Distribute(n - k, k, m);
    assert row.address - (r.address + k * m) == (n - k) * m;
    DivModUnique((n - k) * m, n - k, 0, m);
  }

  lemma PaddedTurn(h: Header, bytes: Bytes, end: uint64, pos: nat, r: Registers, row: Row, opcode: byte)
    requires Encoder(h) && Reachable(h, r.address, row.address) && 0 <= r.line < TWO32
    requires PaddedFor(h, r.address, r.line, row) == Some(opcode)
    requires At(bytes, pos, [8, opcode]) && pos + 2 <= end
    ensures Continues(h, bytes, end, pos, r, pos + 2, Emit(r.(address := row.address, line := row.line)))
  {
    hide PaddedFor, SpecialFor, Special, Standard, Reachable, Emit, Padding, Continues;
    PaddedRest(h, r, row);
    PaddingIsSpecial255(h, bytes, Cur(pos + 1, false), r);
    var r1 := r.(address := r.address + Padding(h) * h.minimumInstructionLength);
    assert [8, opcode] == [8] + [opcode];
    AtConcat(bytes, pos, [8], [opcode]);
    hide At;
    StandardTurn(h, bytes, end, pos, r, 8, pos + 1, r1);
    SpecialInverts(h, r1, row);
    SpecialTurn(h, bytes, end, pos + 1, r1, opcode);
    Onward(h, bytes, end, pos, r, pos + 1, r1, pos + 2, Emit(r.(address := row.address, line := row.line)));
  }

  // Running the encoding of a row pushes that row and nothing else.
  lemma RowTurn(h: Header, bytes: Bytes, end: uint64, pos: nat, r: Registers, row: Row)
    requires Encoder(h) && Reachable(h, r.address, row.address) && 0 <= r.line < TWO32
    requires At(bytes, pos, EncodeRow(h, r, row)) && pos + |EncodeRow(h, r, row)| <= end
    ensures Continues(h, bytes, end, pos, r, pos + |EncodeRow(h, r, row)|, After(r, row))
  {
    hide Reachable, EncodeFile, EncodeColumn, EncodePlace, At, Encoder, Continues;
    var f, c, p := EncodeFile(r.file, row.file), EncodeColumn(r.column, row.column), EncodePlace(h, r.address, r.line, row);
    var r1 := r.(file := row.file);
    var r2 := r1.(column := row.column);
    AtConcat3(bytes, pos, f, c, p);
    FileTurn(h, bytes, end, pos, r, row.file);
    ColumnTurn(h, bytes, end, pos + |f|, r1, row.column);
    PlaceTurn(h, bytes, end, pos + |f| + |c|, r2, row);
    Onward(h, bytes, end, pos, r, pos + |f|, r1, pos + |f| + |c|, r2);
    Onward(h, bytes, end, pos, r, pos + |f| + |c|, r2, pos + |f| + |c| + |p|, After(r, row));
  }

  lemma {:induction false} RowsTurn(h: Header, bytes: Bytes, end: uint64, pos: nat, r: Registers, rows: seq<Row>)
    requires Encoder(h) && Ascending(h, r.address, rows) && 0 <= r.line < TWO32
    requires At(bytes, pos, EncodeRows(h, r, rows)) && pos + |EncodeRows(h, r, rows)| <= end
    ensures Continues(h, bytes, end, pos, r, pos + |EncodeRows(h, r, rows)|, AfterRows(r, rows))
    decreases |rows|
  {
    hide EncodeRow, At, Reachable, Continues, Encoder, ValidHeader, EncodeRows, AfterRows, Ascending, After;
    RowsShape(h, r, rows);
    if rows == [] {
      Stays(h, bytes, end, pos, r);
    } else {
      var r1 := After(r, rows[0]);
      var first, rest := EncodeRow(h, r, rows[0]), EncodeRows(h, r1, rows[1..]);
      AtConcat(bytes, pos, first, rest);
      RowTurn(h, bytes, end, pos, r, rows[0]);
      RowsTurn(h, bytes, end, pos + |first|, r1, rows[1..]);
      Onward(h, bytes, end, pos, r, pos + |first|, r1, pos + |first| + |rest|, AfterRows(r, rows));
    }
  }

  lemma RowsShape(h: Header, r: Registers, rows: seq<Row>)
    requires Encoder(h) && Ascending(h, r.address, rows)
    ensures ValidHeader(h)
    ensures rows == [] ==> EncodeRows(h, r, rows) == [] && AfterRows(r, rows) == r
    ensures rows != [] ==>
      var r1 := After(r, rows[0]);
      && Reachable(h, r.address, rows[0].address) && Ascending(h, r1.address, rows[1..]) && 0 <= r1.line < TWO32
      && EncodeRows(h, r, rows) == EncodeRow(h, r, rows[0]) + EncodeRows(h, r1, rows[1..])
      && AfterRows(r, rows) == AfterRows(r1, rows[1..])
  {
    hide EncodeRow, Reachable;
  }

  // ---------- sequences ----------

  lemma {:induction false} LittleInverts(bytes: Bytes, pos: nat, n: nat, count: nat)
    requires At(bytes, pos, EncodeLittle(n, count)) && n < Pow256(count)
    ensures ReadLittle(bytes, Cur(pos, false), count) == (n, Cur(pos + count, false))
    decreases count
  {
    if count > 0 {
      AtConcat(bytes, pos, [n % 256], EncodeLittle(n / 256, count - 1));
      AtFirst(bytes, pos, [n % 256]);
      LittleInverts(bytes, pos + 1, n / 256, count - 1);
    }
  }

  lemma {:induction false} BigInverts(bytes: Bytes, pos: nat, n: nat, count: nat)
    requires At(bytes, pos, EncodeBig(n, count)) && n < Pow256(count)
    ensures ReadBig(bytes, Cur(pos, false), count) == (n, Cur(pos + count, false))
    decreases count
  {
    if count > 0 {
      AtConcat(bytes, pos, EncodeBig(n / 256, count - 1), [n % 256]);
      AtFirst(bytes, pos + count - 1, [n % 256]);
      BigInverts(bytes, pos, n / 256, count - 1);
    }
  }

  // One byte of length: the number is read in one turn.
  lemma SmallUleb(bytes: Bytes, pos: nat, n: byte)
    requires pos < |bytes| && bytes[pos] == n < 128
    ensures Uleb(bytes, Cur(pos, false)) == (n, Cur(pos + 1, false))
  {
    assert EncodeUleb(n) == [n];
    assert bytes[pos..pos + 1] == [n];
    UlebInverts(bytes, pos, n);
  }

  // A turn of an extended opcode.
  lemma ExtendedTurn(h: Header, bytes: Bytes, end: uint64, pos: nat, r: Registers, next: nat, r': Registers)
    requires ValidHeader(h) && pos < |bytes| && bytes[pos] == 0 && pos < next <= end
    requires Extended(h, bytes, Cur(pos + 1, false), r) == Machine(Cur(next, false), r')
    ensures Continues(h, bytes, end, pos, r, next, r')
  {
    hide Continues, Extended;
    StepTurn(h, bytes, end, pos, r, next, r');
  }

  lemma AddressTurn(h: Header, bytes: Bytes, end: uint64, pos: nat, r: Registers, address: uint64)
    requires ValidHeader(h) && At(bytes, pos, EncodeAddress(h, address)) && pos + 11 <= end
    ensures Continues(h, bytes, end, pos, r, pos + 11, r.(address := address))
  {
    var word := if h.bigEndian then EncodeBig(address, 8) else EncodeLittle(address, 8);
    AtConcat(bytes, pos, [0, 9, 2], word);
    AtIndex(bytes, pos, [0, 9, 2], 0);
    AtIndex(bytes, pos, [0, 9, 2], 1);
    AtIndex(bytes, pos, [0, 9, 2], 2);
    hide At;
    SmallUleb(bytes, pos + 1, 9);
    WordSizes();
    if h.bigEndian {
      BigInverts(bytes, pos + 3, address, 8);
    } else {
      LittleInverts(bytes, pos + 3, address, 8);
    }
    hide Uleb, Continues, ReadLittle, ReadBig, EncodeBig, EncodeLittle;
    ExtendedTurn(h, bytes, end, pos, r, pos + 11, r.(address := address));
  }

  lemma EndTurn(h: Header, bytes: Bytes, end: uint64, pos: nat, r: Registers)
    requires ValidHeader(h) && At(bytes, pos, [0, 1, 1]) && pos + 3 <= end
    ensures Continues(h, bytes, end, pos, r, pos + 3, Start(h, Emit(r).rows))
  {
    AtIndex(bytes, pos, [0, 1, 1], 0);
    AtIndex(bytes, pos, [0, 1, 1], 1);
    AtIndex(bytes, pos, [0, 1, 1], 2);
    hide At;
    SmallUleb(bytes, pos + 1, 1);
    hide Uleb, Continues, Emit;
    ExtendedTurn(h, bytes, end, pos, r, pos + 3, Start(h, Emit(r).rows));
  }

  // The registers after the rows of a sequence.
  lemma {:induction false} AfterRowsIs(r: Registers, rows: seq<Row>)
    ensures AfterRows(r, rows) == if rows == [] then r else
      var row := rows[|rows| - 1]; Registers(row.address, row.file, row.line, row.column, r.rows + rows)
    decreases |rows|
  {
    if |rows| > 0 {
      AfterRowsIs(After(r, rows[0]), rows[1..]);
      assert rows == [rows[0]] + rows[1..];
      if |rows| > 1 {
        assert rows[1..][|rows| - 2] == rows[|rows| - 1];
      }
    }
  }

  // Running the encoding of a sequence pushes its rows and its end row, and leaves the
  // registers as at the start.
  lemma SequenceTurn(h: Header, bytes: Bytes, end: uint64, pos: nat, rows: seq<Row>, s: Sequence)
    requires Wellformed(h, s)
    requires At(bytes, pos, EncodeSequence(h, s)) && pos + |EncodeSequence(h, s)| <= end
    ensures Continues(h, bytes, end, pos, Start(h, rows), pos + |EncodeSequence(h, s)|,
                      Start(h, rows + (s.rows + [EndRow(h, s)])))
  {
    hide EncodeRows, EncodeAddress, EncodeAdvance, At, Encoder, Ascending, Reachable, Continues, EndRow, LastAddress;
    var r, r0 := Start(h, rows).(address := s.start), Registers(s.start, FirstFile(h), 1, 0, []);
    EncodeIgnoresRows(h, r, r0, s.rows);
    var a, b := EncodeAddress(h, s.start), EncodeRows(h, r0, s.rows);
    var last := LastAddress(s.start, s.rows);
    var c := EncodeAdvance(h, last, s.last);
    AtConcat3(bytes, pos, a, b, c + [0, 1, 1]);
    AtConcat(bytes, pos + |a| + |b|, c, [0, 1, 1]);
    SequenceParts(h, bytes, end, pos, rows, s, pos + |a|, pos + |a| + |b|, pos + |a| + |b| + |c|);
  }

  lemma SequenceParts(h: Header, bytes: Bytes, end: uint64, pos: nat, rows: seq<Row>, s: Sequence, p1: nat,
    p2: nat, p3: nat)
    requires Wellformed(h, s) && p3 + 3 <= end
    requires At(bytes, pos, EncodeAddress(h, s.start)) && p1 == pos + |EncodeAddress(h, s.start)|
    requires var r := Start(h, rows).(address := s.start);
      At(bytes, p1, EncodeRows(h, r, s.rows)) && p2 == p1 + |EncodeRows(h, r, s.rows)|
    requires var c := EncodeAdvance(h, LastAddress(s.start, s.rows), s.last); At(bytes, p2, c) && p3 == p2 + |c|
    requires At(bytes, p3, [0, 1, 1])
    ensures Continues(h, bytes, end, pos, Start(h, rows), p3 + 3, Start(h, rows + (s.rows + [EndRow(h, s)])))
  {
    var r := Start(h, rows).(address := s.start);
    AfterRowsIs(r, s.rows);
    hide EncodeRows, EncodeAddress, EncodeAdvance, AfterRows, At, Ascending, Reachable, Continues, Emit, EndRow;
    var r1 := AfterRows(r, s.rows);
    var r2 := r1.(address := s.last);
    AddressTurn(h, bytes, end, pos, Start(h, rows), s.start);
    RowsTurn(h, bytes, end, p1, r, s.rows);
    AdvanceTurn(h, bytes, end, p2, r1, s.last);
    EndTurn(h, bytes, end, p3, r2);
    Onward(h, bytes, end, pos, Start(h, rows), p1, r, p2, r1);
    Onward(h, bytes, end, pos, Start(h, rows), p2, r1, p3, r2);
    Onward(h, bytes, end, pos, Start(h, rows), p3, r2, p3 + 3, Start(h, Emit(r2).rows));
    EndsWith(h, r1, rows, s);
  }

  lemma EndsWith(h: Header, r1: Registers, rows: seq<Row>, s: Sequence)
    requires r1 == AfterRows(Start(h, rows).(address := s.start), s.rows)
    ensures Emit(r1.(address := s.last)).rows == rows + (s.rows + [EndRow(h, s)])
  {
    AfterRowsIs(Start(h, rows).(address := s.start), s.rows);
    hide AfterRows;
    assert r1.rows == rows + s.rows;
    assert CurrentRow(r1.(address := s.last)) == EndRow(h, s);
    Associates(rows, s.rows, [EndRow(h, s)]);
  }

  // The encoding of rows does not look at the rows already pushed.
  lemma {:induction false} EncodeIgnoresRows(h: Header, r: Registers, r': Registers, rows: seq<Row>)
    requires Encoder(h) && Ascending(h, r.address, rows) && r' == r.(rows := r'.rows)
    ensures EncodeRows(h, r, rows) == EncodeRows(h, r', rows)
    decreases |rows|
  {
    if rows != [] {
      assert EncodeRow(h, r, rows[0]) == EncodeRow(h, r', rows[0]);
      hide EncodeRow;
      EncodeIgnoresRows(h, After(r, rows[0]), After(r', rows[0]), rows[1..]);
    }
  }

  lemma {:induction false} TableTurn(h: Header, bytes: Bytes, end: uint64, pos: nat, rows: seq<Row>, table: seq<Sequence>)
    requires ValidHeader(h) && forall s | s in table :: Wellformed(h, s)
    requires At(bytes, pos, EncodeTable(h, table)) && pos + |EncodeTable(h, table)| <= end
    ensures Continues(h, bytes, end, pos, Start(h, rows), pos + |EncodeTable(h, table)|,
                      Start(h, rows + TableRows(h, table)))
    decreases |table|
  {
    hide EncodeSequence, Start, Wellformed, EndRow, At, Continues;
    if table == [] {
      assert rows + [] == rows;
      Stays(h, bytes, end, pos, Start(h, rows));
    } else {
      var first, rest := EncodeSequence(h, table[0]), EncodeTable(h, table[1..]);
      var more := table[0].rows + [EndRow(h, table[0])];
      AtConcat(bytes, pos, first, rest);
      SequenceTurn(h, bytes, end, pos, rows, table[0]);
      TableTurn(h, bytes, end, pos + |first|, rows + more, table[1..]);
      Associates(rows, more, TableRows(h, table[1..]));
      Onward(h, bytes, end, pos, Start(h, rows), pos + |first|, Start(h, rows + more),
             pos + |first| + |rest|, Start(h, rows + TableRows(h, table)));
    }
  }

  // Encoding any table of sequences and running the line program over exactly its bytes
  // ends and gives back the table: every address, file, line and column, in order, and no
  // error.
  lemma TableRoundTrip(h: Header, bytes: Bytes, pos: uint64, end: uint64, table: seq<Sequence>)
    requires ValidHeader(h) && forall s | s in table :: Wellformed(h, s)
    requires At(bytes, pos, EncodeTable(h, table)) && end == pos + |EncodeTable(h, table)|
    ensures !Revisits(h, bytes, Cur(pos, false), end)
    ensures Run(h, bytes, Machine(Cur(pos, false), Start(h, [])), end)
         == Machine(Cur(end, false), Start(h, TableRows(h, table)))
  {
    hide EncodeTable, TableRows, Start, At, Wellformed, Run, Revisits, Turns;
    assert [] + TableRows(h, table) == TableRows(h, table);
    TableTurn(h, bytes, end, pos, [], table);
    var m := Machine(Cur(pos, false), Start(h, []));
    var n: nat :| Turns(h, bytes, m, end, n) == Machine(Cur(end, false), Start(h, TableRows(h, table)));
    RunIsLast(h, bytes, m, end, n);
  }

  // ---------- lengths that lead backwards ----------

  // An extended opcode with this length goes to the byte before itself: the 64-bit sum
  // wraps round.
  const BACK: Bytes := [0xF4, 0xFF, 0xFF, 0xFF, 0xFF, 0xFF, 0xFF, 0xFF, 0xFF, 1]

  lemma UlebDigit(n: nat, d: byte, rest: nat)
    requires n == 128 * rest + d - 128 && rest > 0 && d >= 128
    ensures EncodeUleb(n) == [d] + EncodeUleb(rest)
  {
    assert n / 128 == rest && n % 128 == d - 128;
  }

  lemma LastDigit()
    ensures EncodeUleb(1) == [1]
  {
  }

  lemma BackLength()
    ensures EncodeUleb(U64_MAX - 11) == BACK
  {
    LastDigit();
    hide EncodeUleb;
    UlebDigit(0xfffffffffffffff4, 0xf4, 0x1ffffffffffffff);
    UlebDigit(0x1ffffffffffffff, 0xff, 0x3ffffffffffff);
    UlebDigit(0x3ffffffffffff, 0xff, 0x7ffffffffff);
    UlebDigit(0x7ffffffffff, 0xff, 0xfffffffff);
    UlebDigit(0xfffffffff, 0xff, 0x1fffffff);
    UlebDigit(0x1fffffff, 0xff, 0x3fffff);
    UlebDigit(0x3fffff, 0xff, 0x7fff);
    UlebDigit(0x7fff, 0xff, 0xff);
    UlebDigit(0xff, 0xff, 0x1);
  }

  lemma BackUleb(bytes: Bytes, pos: nat)
    requires At(bytes, pos, BACK)
    ensures Uleb(bytes, Cur(pos, false)) == (U64_MAX - 11, Cur(pos + 10, false))
  {
    hide EncodeUleb, Uleb, At;
    BackLength();
    UlebInverts(bytes, pos, U64_MAX - 11);
  }

  // A turn that goes one byte back and changes nothing else, whatever the header.
  lemma BackTurn(h: Header, bytes: Bytes, pos: nat, r: Registers)
    requires ValidHeader(h) && 0 < pos && pos + 11 < |bytes|
    requires bytes[pos] == 0 && At(bytes, pos + 1, BACK) && bytes[pos + 11] !in {1, 2, 4}
    ensures Step(h, bytes, Machine(Cur(pos, false), r)) == Machine(Cur(pos - 1, false), r)
    ensures Stuck(bytes, pos)
  {
    hide At, Uleb, Extended, Stuck;
    BackUleb(bytes, pos + 1);
    BackExtended(h, bytes, pos, r);
  }

  lemma BackExtended(h: Header, bytes: Bytes, pos: nat, r: Registers)
    requires 0 < pos && pos + 11 < |bytes| && bytes[pos] == 0 && bytes[pos + 11] !in {1, 2, 4}
    requires Uleb(bytes, Cur(pos + 1, false)) == (U64_MAX - 11, Cur(pos + 11, false))
    ensures Extended(h, bytes, Cur(pos + 1, false), r) == Machine(Cur(pos - 1, false), r) && Stuck(bytes, pos)
  {
    hide Uleb, ReadUint;
  }

  // A copy opcode in front of one that leads back to it.
  const LAPS: Bytes := [1, 0] + BACK + [0]

  // The loop goes round these thirteen bytes for ever and pushes a row each time: after
  // 2k turns it is where it was, with k rows more, for every k.
  lemma {:induction false} LapsOfRows(h: Header, r: Registers, end: uint64, k: nat)
    requires ValidHeader(h) && h.opcodeBase > 1 && end > 1
    ensures var m := Turns(h, LAPS, Machine(Cur(0, false), r), end, 2 * k);
      m.cur == Cur(0, false) && |m.regs.rows| == |r.rows| + k
  {
    hide Turns, Step;
    var start := Machine(Cur(0, false), r);
    if k == 0 {
      NoTurn(h, LAPS, start, end);
    } else {
      LapsOfRows(h, r, end, k - 1);
      LapTurns(h, start, end, 2 * (k - 1));
      assert 2 * (k - 1) + 2 == 2 * k;
    }
  }

  lemma LapTurns(h: Header, start: Machine, end: uint64, n: nat)
    requires ValidHeader(h) && h.opcodeBase > 1 && end > 1
    requires Turns(h, LAPS, start, end, n).cur == Cur(0, false)
    ensures var m, m' := Turns(h, LAPS, start, end, n), Turns(h, LAPS, start, end, n + 2);
      m'.cur == Cur(0, false) && |m'.regs.rows| == |m.regs.rows| + 1
  {
    hide Turns, Step, Emit;
    var m := Turns(h, LAPS, start, end, n);
    OneLap(h, m.regs);
    assert m == Machine(Cur(0, false), m.regs);
    OneTurn(h, LAPS, start, end, n);
    OneTurn(h, LAPS, start, end, n + 1);
  }

  lemma OneLap(h: Header, r: Registers)
    requires ValidHeader(h) && h.opcodeBase > 1
    ensures Step(h, LAPS, Machine(Cur(0, false), r)) == Machine(Cur(1, false), Emit(r))
    ensures Step(h, LAPS, Machine(Cur(1, false), Emit(r))) == Machine(Cur(0, false), Emit(r))
    ensures |Emit(r).rows| == |r.rows| + 1
  {
    assert LAPS[2..12] == BACK;
    BackTurn(h, LAPS, 1, Emit(r));
  }

  // So it does not end.
  lemma LapsNeverEnd(h: Header, r: Registers, end: uint64)
    requires ValidHeader(h) && h.opcodeBase > 1 && end > 1
    ensures !Ends(h, LAPS, Machine(Cur(0, false), r), end) && Revisits(h, LAPS, Cur(0, false), end)
  {
    hide Turns, Place, Ends, Revisits;
    var m := Machine(Cur(0, false), r);
    LapsOfRows(h, r, end, 1);
    TurnsPlace(h, LAPS, m, end, 2);
    NoTurn(h, LAPS, m, end);
    TurnsPlace(h, LAPS, m, end, 0);
    MeetingRevisits(h, LAPS, Cur(0, false), end, 0, 2);
    EndsIffNoRevisit(h, LAPS, m, end);
  }

  // An opcode of three numbers, the last of which is read only on the way back.
  const DETOUR: Bytes := [5, 13, 0] + BACK + [6]

  // A turn that leads backwards need not make the loop endless: here the third turn reads
  // the operand of the first as an opcode and passes over the one that led back.
  lemma DetourEnds(h: Header, r: Registers)
    requires ValidHeader(h) && h.opcodeBase == 14 && h.opcodeLengths[12] == 3
    ensures Stuck(DETOUR, 2) && Place(h, DETOUR, Cur(0, false), 14, 1) == Cur(2, false)
    ensures Ends(h, DETOUR, Machine(Cur(0, false), r), 14)
  {
    var m := Machine(Cur(0, false), r);
    assert DETOUR[3..13] == BACK;
    SmallUleb(DETOUR, 1, 13);
    BackTurn(h, DETOUR, 2, r.(column := 13));
    DetourSkips(h, r.(column := 13));
    hide Uleb, SkipUlebs, Extended, Turns, Place, Stuck, ExtendedReadable;
    var m1 := Machine(Cur(2, false), r.(column := 13));
    assert Step(h, DETOUR, m) == m1;
    ThreeTurns(h, m, m1, Machine(Cur(1, false), m1.regs), Machine(Cur(14, false), m1.regs));
  }

  lemma DetourSkips(h: Header, r: Registers)
    requires ValidHeader(h) && h.opcodeBase == 14 && h.opcodeLengths[12] == 3
    ensures Step(h, DETOUR, Machine(Cur(1, false), r)) == Machine(Cur(14, false), r)
  {
    assert DETOUR[3..13] == BACK;
    SmallUleb(DETOUR, 2, 0);
    BackUleb(DETOUR, 3);
    SmallUleb(DETOUR, 13, 6);
    assert DETOUR[1] == 13;
    ThreeNumbers(h, DETOUR, r);
  }

  lemma ThreeNumbers(h: Header, bytes: Bytes, r: Registers)
    requires ValidHeader(h) && h.opcodeBase == 14 && h.opcodeLengths[12] == 3 && |bytes| > 1 && bytes[1] == 13
    requires Uleb(bytes, Cur(2, false)).1 == Cur(3, false) && Uleb(bytes, Cur(3, false)).1 == Cur(13, false)
    requires Uleb(bytes, Cur(13, false)).1 == Cur(14, false)
    ensures Step(h, bytes, Machine(Cur(1, false), r)) == Machine(Cur(14, false), r)
  {
    hide Uleb, SkipUlebs;
    SkipTurn(bytes, Cur(2, false), 2);
    SkipTurn(bytes, Cur(3, false), 1);
    SkipTurn(bytes, Cur(13, false), 0);
  }

  lemma SkipTurn(bytes: Bytes, c: Cur, n: nat)
    ensures SkipUlebs(bytes, c, n + 1) == SkipUlebs(bytes, Uleb(bytes, c).1, n)
    ensures SkipUlebs(bytes, c, 0) == c && SkipUlebs(bytes, Uleb(bytes, c).1, 0) == Uleb(bytes, c).1
  {
    hide Uleb;
  }

  lemma ThreeTurns(h: Header, m: Machine, m1: Machine, m2: Machine, m3: Machine)
    requires ValidHeader(h) && m.cur == Cur(0, false) && m1.cur == Cur(2, false) && m2.cur == Cur(1, false)
    requires m3.cur == Cur(14, false)
    requires Step(h, DETOUR, m) == m1 && Step(h, DETOUR, m1) == m2 && Step(h, DETOUR, m2) == m3
    ensures Place(h, DETOUR, m.cur, 14, 1) == m1.cur && Ends(h, DETOUR, m, 14)
  {
    hide Step, Turns, Place;
    NoTurn(h, DETOUR, m, 14);
    OneTurn(h, DETOUR, m, 14, 0);
    OneTurn(h, DETOUR, m, 14, 1);
    OneTurn(h, DETOUR, m, 14, 2);
    TurnsPlace(h, DETOUR, m, 14, 1);
  }
}
