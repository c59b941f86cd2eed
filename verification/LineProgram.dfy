// The line-number program of section 6.2 of DWARF 5 as the reader runs it: one step of
// the machine, a whole run, and the loop that performs it.

module LineProgram {
  import opened Arithmetic
  import opened Common
  import opened Cursors

  datatype Row = Row(address: uint64, file: uint64, line: uint32, column: uint32)

  // The header fields the program depends on.
  datatype Header = Header(
    version: uint16,
    minimumInstructionLength: byte,
    lineBase: int,
    lineRange: byte,
    opcodeBase: byte,
    opcodeLengths: seq<byte>,
    bigEndian: bool)

  predicate ValidHeader(h: Header) {
    -128 <= h.lineBase < 128 && |h.opcodeLengths| == if h.opcodeBase > 0 then h.opcodeBase - 1 else 0
  }

  // The state machine registers, and the rows pushed so far.
  datatype Registers = Registers(address: uint64, file: uint64, line: int, column: uint64, rows: seq<Row>)

  datatype Machine = Machine(cur: Cur, regs: Registers)

  // Two's complement 64-bit addition; the registers never leave that range.
  function AddSigned(a: int, b: int): (sum: int)
    ensures -TWO63 <= sum < TWO63
    ensures -TWO63 <= a + b < TWO63 ==> sum == a + b
  {
    Signed64((a + b) % TWO64)
  }

  function Start(h: Header, rows: seq<Row>): Registers {
    Registers(0, if h.version >= 5 then 0 else 1, 1, 0, rows)
  }

  function CurrentRow(r: Registers): Row {
    Row(r.address, r.file, if r.line > 0 then r.line % TWO32 else 0, r.column % TWO32)
  }

  function Emit(r: Registers): Registers {
    r.(rows := r.rows + [CurrentRow(r)])
  }

  // The address moved on by a number of instruction lengths.
  function Advance(h: Header, r: Registers, instructions: nat): Registers {
    r.(address := (r.address + instructions * h.minimumInstructionLength) % TWO64)
  }

  function Special(h: Header, r: Registers, opcode: byte): Registers
    requires opcode >= h.opcodeBase
  {
    var adjusted := opcode - h.opcodeBase;
    Emit(if h.lineRange == 0 then r
         else Advance(h, r, adjusted / h.lineRange)
              .(line := AddSigned(r.line, h.lineBase + adjusted % h.lineRange)))
  }

  // `count` unsigned numbers read and dropped.
  function SkipUlebs(bytes: Bytes, c: Cur, count: nat): (c': Cur)
    ensures c.pos <= c'.pos && (c.error ==> c'.error)
    ensures !c'.error ==> c'.pos >= c.pos
    decreases count
  {
    if count == 0 then c else SkipUlebs(bytes, Uleb(bytes, c).1, count - 1)
  }

  function Standard(h: Header, bytes: Bytes, c: Cur, r: Registers, opcode: byte): (m: Machine)
    requires ValidHeader(h) && 0 < opcode < h.opcodeBase
    ensures c.pos <= m.cur.pos && (c.error ==> m.cur.error)
  {
    match opcode
    case 1 => Machine(c, Emit(r))
    case 2 => var (n, c1) := Uleb(bytes, c); Machine(c1, Advance(h, r, n))
    case 3 => var (n, c1) := Sleb(bytes, c); Machine(c1, r.(line := AddSigned(r.line, n)))
    case 4 => var (n, c1) := Uleb(bytes, c); Machine(c1, r.(file := n))
    case 5 => var (n, c1) := Uleb(bytes, c); Machine(c1, r.(column := n))
    case 6 => Machine(c, r)
    case 7 => Machine(c, r)
    case 8 => Machine(c, if h.lineRange == 0 then r else Advance(h, r, (255 - h.opcodeBase) / h.lineRange))
    case 9 =>
      var (n, c1) := ReadUint(bytes, c, 2, h.bigEndian);
      Machine(c1, r.(address := (r.address + n) % TWO64))
    case 10 => Machine(c, r)
    case 11 => Machine(c, r)
    case 12 => Machine(Uleb(bytes, c).1, r)
    case _ => Machine(SkipUlebs(bytes, c, h.opcodeLengths[opcode - 1]), r)
  }

  // An extended opcode: its length gives where the next opcode stands, whatever the
  // operands; that sum is a 64-bit one.
  function Extended(h: Header, bytes: Bytes, c: Cur, r: Registers): (m: Machine)
    ensures c.error ==> m.cur.error
  {
    var (length, c1) := Uleb(bytes, c);
    var next := Add64(c1.pos, length);
    var (sub, c2) := ReadU8(bytes, c1);
    match sub
    case 1 => Machine(Cur(next, c2.error), Start(h, Emit(r).rows))
    case 2 =>
      WordSizes();
      var (address, c3) := ReadUint(bytes, c2, if length >= 9 then 8 else 4, h.bigEndian);
      Machine(Cur(next, c3.error), r.(address := address))
    case 4 => Machine(Cur(next, Uleb(bytes, c2).1.error), r)
    case _ => Machine(Cur(next, c2.error), r)
  }

  // One turn of the program loop.
  function Step(h: Header, bytes: Bytes, m: Machine): (m': Machine)
    requires ValidHeader(h)
    ensures m.cur.error ==> m'.cur.error
  {
    var (opcode, c) := ReadU8(bytes, m.cur);
    if opcode == 0 then Extended(h, bytes, c, m.regs)
    else if opcode < h.opcodeBase then Standard(h, bytes, c, m.regs, opcode)
    else Machine(c, Special(h, m.regs, opcode))
  }

  // Where an extended opcode at pos sends the cursor.
  function ExtendedNext(bytes: Bytes, pos: uint64): uint64
    requires pos < |bytes|
  {
    var (length, c) := Uleb(bytes, Cur(pos + 1, false));
    Add64(c.pos, length)
  }

  // The extended opcode at pos can be read: its length, its sub-opcode and the operand that
  // the sub-opcode asks for stand in the bytes.
  predicate ExtendedReadable(bytes: Bytes, pos: uint64)
    requires pos < |bytes|
  {
    var (length, c) := Uleb(bytes, Cur(pos + 1, false));
    && !c.error && c.pos < |bytes|
    && (bytes[c.pos] == 2 ==> c.pos + 1 + (if length >= 9 then 8 else 4) <= |bytes|)
    && (bytes[c.pos] == 4 ==> !Uleb(bytes, Cur(c.pos + 1, false)).1.error)
  }

  // The one way a turn can fail to make progress: an extended opcode, wholly there, whose
  // length wraps the 64-bit sum round to where the opcode stands, or before.
  predicate Stuck(bytes: Bytes, pos: uint64) {
    pos < |bytes| && bytes[pos] == 0 && ExtendedReadable(bytes, pos) && ExtendedNext(bytes, pos) <= pos
  }

  // The test of the program loop.
  predicate Running(c: Cur, end: uint64) {
    c.pos < end && !c.error
  }

  // Where a turn leaves the cursor does not depend on the registers.
  lemma StepIgnoresRegisters(h: Header, bytes: Bytes, c: Cur, r1: Registers, r2: Registers)
    requires ValidHeader(h)
    ensures Step(h, bytes, Machine(c, r1)).cur == Step(h, bytes, Machine(c, r2)).cur
  {
    hide Uleb, Sleb, ReadUint, SkipUlebs, AddSigned, Add64, Emit, Advance, Special;
  }

  // A fixed-width read fails exactly when it leaves the bytes.
  lemma {:induction false} ReadUintError(bytes: Bytes, c: Cur, count: nat, bigEndian: bool)
    requires !c.error && c.pos <= |bytes|
    ensures ReadUint(bytes, c, count, bigEndian).1.error <==> c.pos + count > |bytes|
    decreases count
  {
    if count > 0 {
      if bigEndian {
        ReadUintError(bytes, c, count - 1, true);
      } else if c.pos < |bytes| {
        ReadUintError(bytes, Cur(c.pos + 1, false), count - 1, false);
      }
    }
  }

  // An extended opcode sets the error flag exactly when it cannot be read.
  lemma ExtendedError(h: Header, bytes: Bytes, pos: uint64, r: Registers)
    requires pos < |bytes|
    ensures Extended(h, bytes, Cur(pos + 1, false), r).cur
         == Cur(ExtendedNext(bytes, pos), !ExtendedReadable(bytes, pos))
  {
    hide Uleb, ReadUint, Add64, CurrentRow;
    var (length, c) := Uleb(bytes, Cur(pos + 1, false));
    if !c.error && c.pos < |bytes| {
      ReadUintError(bytes, Cur(c.pos + 1, false), if length >= 9 then 8 else 4, h.bigEndian);
    }
  }

  // A turn of the loop advances the cursor or sets the error flag, exactly unless it is
  // stuck.
  lemma StepProgress(h: Header, bytes: Bytes, m: Machine)
    requires ValidHeader(h) && !m.cur.error
    ensures var c := Step(h, bytes, m).cur;
      c.error || c.pos > m.cur.pos <==> !Stuck(bytes, m.cur.pos)
  {
    hide Uleb, Special, Standard, Extended, ExtendedReadable, ExtendedNext;
    if m.cur.pos < |bytes| {
      ExtendedError(h, bytes, m.cur.pos, m.regs);
    }
  }

  // A turn pushes at most one row, and only when it has read an opcode.
  lemma StepRows(h: Header, bytes: Bytes, m: Machine)
    requires ValidHeader(h)
    ensures var rows := Step(h, bytes, m).regs.rows;
      rows == m.regs.rows || (m.cur.pos < |bytes| && |rows| == |m.regs.rows| + 1 && m.regs.rows <= rows)
  {
    hide Uleb, Sleb, ReadUint, SkipUlebs, AddSigned, Add64, CurrentRow;
  }

  // ---------- the loop ----------

  method SkipNumbers(cursor: Cursor, count: byte)
    requires cursor.Readable()
    modifies cursor
    ensures cursor.Readable()
    ensures cursor.At() == SkipUlebs(cursor.bytes, old(cursor.At()), count)
  {
    for i := 0 to count
      invariant cursor.Readable()
      invariant SkipUlebs(cursor.bytes, cursor.At(), count - i) == SkipUlebs(cursor.bytes, old(cursor.At()), count)
    {
      var _ := cursor.ReadUleb();
    }
  }

  method ExecuteStandard(cursor: Cursor, h: Header, r: Registers, opcode: byte) returns (r': Registers)
    requires ValidHeader(h) && h.bigEndian == cursor.bigEndian && 0 < opcode < h.opcodeBase && cursor.Readable()
    modifies cursor
    ensures Machine(cursor.At(), r') == Standard(h, cursor.bytes, old(cursor.At()), r, opcode)
  {
    hide Uleb, Sleb, ReadUint, SkipUlebs, AddSigned, CurrentRow;
    r' := r;
    match opcode
    case 1 =>
      r' := Emit(r);
    case 2 =>
      var n := cursor.ReadUleb();
      r' := r.(address := (r.address + n * h.minimumInstructionLength) % TWO64);
    case 3 =>
      var n := cursor.ReadSleb();
      r' := r.(line := AddSigned(r.line, n));
    case 4 =>
      var n := cursor.ReadUleb();
      r' := r.(file := n);
    case 5 =>
      var n := cursor.ReadUleb();
      r' := r.(column := n);
    case 6 =>
    case 7 =>
    case 8 =>
      if h.lineRange != 0 {
        r' := Advance(h, r, (255 - h.opcodeBase) / h.lineRange);
      }
    case 9 =>
      var n := cursor.U16();
      r' := r.(address := (r.address + n) % TWO64);
    case 10 =>
    case 11 =>
    case 12 =>
      var _ := cursor.ReadUleb();
    case _ =>
      SkipNumbers(cursor, h.opcodeLengths[opcode - 1]);
  }

  method ExecuteExtended(cursor: Cursor, h: Header, r: Registers) returns (r': Registers)
    requires ValidHeader(h) && h.bigEndian == cursor.bigEndian && cursor.Readable()
    modifies cursor
    ensures Machine(cursor.At(), r') == Extended(h, cursor.bytes, old(cursor.At()), r)
  {
    hide Uleb, ReadUint, CurrentRow;
    r' := r;
    var length := cursor.ReadUleb();
    var next := Add64(cursor.pos, length);
    var sub := cursor.U8();
    match sub {
      case 1 =>
        r' := Start(h, Emit(r).rows);
      case 2 =>
        WordSizes();
        var address := cursor.Word(if length >= 9 then 8 else 4);
        r' := r.(address := address);
      case 4 =>
        var _ := cursor.ReadUleb();
      case _ =>
    }
    cursor.Seek(next);
  }

  method ExecuteOpcode(cursor: Cursor, h: Header, r: Registers) returns (r': Registers)
    requires ValidHeader(h) && h.bigEndian == cursor.bigEndian && cursor.Readable()
    modifies cursor
    ensures Machine(cursor.At(), r') == Step(h, cursor.bytes, Machine(old(cursor.At()), r))
  {
    hide Extended, Standard, Special, AddSigned, CurrentRow;
    var opcode := cursor.U8();
    if opcode == 0 {
      r' := ExecuteExtended(cursor, h, r);
    } else if opcode < h.opcodeBase {
      r' := ExecuteStandard(cursor, h, r, opcode);
    } else {
      r' := ExecuteSpecial(h, r, opcode);
    }
  }

  method ExecuteSpecial(h: Header, r: Registers, opcode: byte) returns (r': Registers)
    requires opcode >= h.opcodeBase
    ensures r' == Special(h, r, opcode)
  {
    hide AddSigned, CurrentRow;
    var adjusted := opcode - h.opcodeBase;
    r' := r;
    if h.lineRange != 0 {
      r' := Advance(h, r', adjusted / h.lineRange);
      r' := r'.(line := AddSigned(r'.line, h.lineBase + adjusted % h.lineRange));
    }
    r' := Emit(r');
  }
}
