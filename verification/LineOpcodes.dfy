// What the opcodes do that the encoder of a line table has no use for, stated on the bytes
// they stand in (sections 6.2.5.2 and 6.2.5.3 of DWARF 5).

module LineOpcodes {
  import opened Arithmetic
  import opened Common
  import opened Slices
  import opened Cursors
  import opened Leb128
  import opened LineProgram
  import opened LineTable

  // The opcodes 6, 7, 10 and 11 set flags that no row carries: they take one byte and
  // change nothing.
  lemma FlagOpcodes(h: Header, bytes: Bytes, pos: nat, r: Registers, opcode: byte)
    requires ValidHeader(h) && At(bytes, pos, [opcode]) && opcode < h.opcodeBase
    requires opcode == 6 || opcode == 7 || opcode == 10 || opcode == 11
    ensures Step(h, bytes, Machine(Cur(pos, false), r)) == Machine(Cur(pos + 1, false), r)
  {
    AtFirst(bytes, pos, [opcode]);
  }

  // Opcode 8 leaves the address of a special opcode 255 and no row.
  lemma PaddingOpcode(h: Header, bytes: Bytes, pos: nat, r: Registers)
    requires ValidHeader(h) && At(bytes, pos, [8]) && h.opcodeBase > 8
    ensures Step(h, bytes, Machine(Cur(pos, false), r))
         == Machine(Cur(pos + 1, false), r.(address := Special(h, r, 255).address))
  {
    AtFirst(bytes, pos, [8]);
    PaddingIsSpecial255(h, bytes, Cur(pos + 1, false), r);
    hide Special, Standard, Extended;
  }

  function Encode16(h: Header, n: uint16): seq<byte> {
    if h.bigEndian then [n / 256, n % 256] else [n % 256, n / 256]
  }

  // Opcode 9 moves the address on by two bytes that no instruction length scales.
  lemma FixedAdvance(h: Header, bytes: Bytes, pos: nat, r: Registers, n: uint16)
    requires ValidHeader(h) && At(bytes, pos, [9] + Encode16(h, n)) && h.opcodeBase > 9
    ensures Step(h, bytes, Machine(Cur(pos, false), r))
         == Machine(Cur(pos + 3, false), r.(address := (r.address + n) % TWO64))
  {
    AtConcat(bytes, pos, [9], Encode16(h, n));
    AtFirst(bytes, pos, [9]);
    Read16(h, bytes, pos + 1, n);
    hide ReadUint, Encode16;
  }

  lemma Read16(h: Header, bytes: Bytes, pos: nat, n: uint16)
    requires At(bytes, pos, Encode16(h, n))
    ensures ReadUint(bytes, Cur(pos, false), 2, h.bigEndian) == (n, Cur(pos + 2, false))
  {
    WordSizes();
    if h.bigEndian {
      assert EncodeBig(n / 256, 1) == [n / 256];
      BigInverts(bytes, pos, n, 2);
    } else {
      assert EncodeLittle(n / 256, 1) == [n / 256];
      LittleInverts(bytes, pos, n, 2);
    }
  }

  // Opcode 12 names an instruction set that no row carries: its number is passed over.
  lemma InstructionSet(h: Header, bytes: Bytes, pos: nat, r: Registers, n: uint64)
    requires ValidHeader(h) && At(bytes, pos, [12] + EncodeUleb(n)) && h.opcodeBase > 12
    ensures Step(h, bytes, Machine(Cur(pos, false), r)) == Machine(Cur(pos + 1 + |EncodeUleb(n)|, false), r)
  {
    AtConcat(bytes, pos, [12], EncodeUleb(n));
    AtFirst(bytes, pos, [12]);
    UlebInverts(bytes, pos + 1, n);
    hide Uleb, EncodeUleb;
  }

  function EncodeUlebs(numbers: seq<uint64>): seq<byte> {
    if numbers == [] then [] else EncodeUleb(numbers[0]) + EncodeUlebs(numbers[1..])
  }

  lemma {:induction false} SkipsUlebs(bytes: Bytes, pos: nat, numbers: seq<uint64>)
    requires At(bytes, pos, EncodeUlebs(numbers))
    ensures SkipUlebs(bytes, Cur(pos, false), |numbers|) == Cur(pos + |EncodeUlebs(numbers)|, false)
    decreases |numbers|
  {
    hide Uleb, EncodeUleb;
    if numbers != [] {
      AtConcat(bytes, pos, EncodeUleb(numbers[0]), EncodeUlebs(numbers[1..]));
      UlebInverts(bytes, pos, numbers[0]);
      SkipsUlebs(bytes, pos + |EncodeUleb(numbers[0])|, numbers[1..]);
    }
  }

  // Any other standard opcode is passed over with as many numbers as the header gives it.
  lemma UnknownStandard(h: Header, bytes: Bytes, pos: nat, r: Registers, opcode: byte, operands: seq<uint64>)
    requires ValidHeader(h) && At(bytes, pos, [opcode] + EncodeUlebs(operands))
    requires 13 <= opcode < h.opcodeBase && |operands| == h.opcodeLengths[opcode - 1]
    ensures Step(h, bytes, Machine(Cur(pos, false), r)) == Machine(Cur(pos + 1 + |EncodeUlebs(operands)|, false), r)
  {
    AtConcat(bytes, pos, [opcode], EncodeUlebs(operands));
    AtFirst(bytes, pos, [opcode]);
    SkipsUlebs(bytes, pos + 1, operands);
    hide SkipUlebs, EncodeUlebs;
  }

  // An extended opcode: its length, its sub-opcode and its data.
  function EncodeExtended(sub: byte, data: seq<byte>): seq<byte> {
    [0] + (EncodeUleb(1 + |data|) + ([sub] + data))
  }

  lemma ExtendedParts(bytes: Bytes, pos: nat, sub: byte, data: seq<byte>)
    requires At(bytes, pos, EncodeExtended(sub, data))
    ensures var p := pos + 1 + |EncodeUleb(1 + |data|)|;
      && pos < |bytes| && bytes[pos] == 0 && pos + |EncodeExtended(sub, data)| == p + 1 + |data| <= |bytes|
      && Uleb(bytes, Cur(pos + 1, false)) == (1 + |data|, Cur(p, false))
      && bytes[p] == sub && At(bytes, p + 1, data)
  {
    hide EncodeUleb, Uleb;
    var length := EncodeUleb(1 + |data|);
    AtConcat3(bytes, pos, [0], length, [sub] + data);
    AtConcat(bytes, pos + 1 + |length|, [sub], data);
    AtFirst(bytes, pos, [0]);
    AtFirst(bytes, pos + 1 + |length|, [sub]);
    DataFits(bytes, pos, sub, data);
    hide At;
    UlebInverts(bytes, pos + 1, 1 + |data|);
  }

  lemma DataFits(bytes: Bytes, pos: nat, sub: byte, data: seq<byte>)
    requires At(bytes, pos, EncodeExtended(sub, data))
    ensures 1 + |data| < TWO64 && pos + |EncodeExtended(sub, data)| <= |bytes|
  {
    hide EncodeUleb;
  }

  // One that is not known is passed over whole, whatever its data.
  lemma UnknownExtended(h: Header, bytes: Bytes, pos: nat, r: Registers, sub: byte, data: seq<byte>)
    requires ValidHeader(h) && At(bytes, pos, EncodeExtended(sub, data))
    requires sub != 1 && sub != 2 && sub != 4
    ensures Step(h, bytes, Machine(Cur(pos, false), r)) == Machine(Cur(pos + |EncodeExtended(sub, data)|, false), r)
  {
    hide Uleb, EncodeUleb, At, EncodeExtended;
    ExtendedParts(bytes, pos, sub, data);
  }

  // A discriminator concerns no row, and is passed over likewise.
  lemma Discriminator(h: Header, bytes: Bytes, pos: nat, r: Registers, n: uint64)
    requires ValidHeader(h) && At(bytes, pos, EncodeExtended(4, EncodeUleb(n)))
    ensures Step(h, bytes, Machine(Cur(pos, false), r))
         == Machine(Cur(pos + |EncodeExtended(4, EncodeUleb(n))|, false), r)
  {
    hide Uleb, EncodeUleb, At, EncodeExtended;
    ExtendedParts(bytes, pos, 4, EncodeUleb(n));
    UlebInverts(bytes, pos + 2 + |EncodeUleb(1 + |EncodeUleb(n)|)|, n);
  }

  // An address of eight bytes, or of four.
  function EncodeWord(h: Header, n: uint64, wide: bool): (s: seq<byte>)
    requires wide || n < TWO32
    ensures |s| == if wide then 8 else 4
  {
    var count := if wide then 8 else 4;
    if h.bigEndian then EncodeBig(n, count) else EncodeLittle(n, count)
  }

  lemma ReadWord(h: Header, bytes: Bytes, pos: nat, n: uint64, wide: bool)
    requires (wide || n < TWO32) && At(bytes, pos, EncodeWord(h, n, wide))
    ensures var count := if wide then 8 else 4;
      ReadUint(bytes, Cur(pos, false), count, h.bigEndian) == (n, Cur(pos + count, false))
  {
    WordSizes();
    if h.bigEndian {
      BigInverts(bytes, pos, n, if wide then 8 else 4);
    } else {
      LittleInverts(bytes, pos, n, if wide then 8 else 4);
    }
  }

  // A set-address opcode holds eight bytes when its length has room for them behind the
  // sub-opcode, and four otherwise; the next opcode stands where the length says.
  lemma SetAddress(h: Header, bytes: Bytes, pos: nat, r: Registers, length: uint64, address: uint64)
    requires ValidHeader(h) && (length >= 9 || address < TWO32)
    requires At(bytes, pos, [0] + (EncodeUleb(length) + ([2] + EncodeWord(h, address, length >= 9))))
    ensures pos + 1 + |EncodeUleb(length)| < TWO64
    ensures Step(h, bytes, Machine(Cur(pos, false), r))
         == Machine(Cur(Add64(pos + 1 + |EncodeUleb(length)|, length), false), r.(address := address))
  {
    hide EncodeUleb, Uleb, EncodeWord, ReadUint, At;
    var number, word := EncodeUleb(length), EncodeWord(h, address, length >= 9);
    AtConcat3(bytes, pos, [0], number, [2] + word);
    AtConcat(bytes, pos + 1 + |number|, [2], word);
    AtFirst(bytes, pos, [0]);
    AtFirst(bytes, pos + 1 + |number|, [2]);
    UlebInverts(bytes, pos + 1, length);
    ReadWord(h, bytes, pos + 2 + |number|, address, length >= 9);
  }

  // The row a turn pushes: the registers, with a line that is not positive shown as 0.
  lemma PushedRow(r: Registers)
    ensures Emit(r).rows == r.rows + [CurrentRow(r)] && Emit(r) == r.(rows := Emit(r).rows)
    ensures CurrentRow(r).address == r.address && CurrentRow(r).file == r.file
    ensures r.line <= 0 ==> CurrentRow(r).line == 0
    ensures 0 <= r.line < TWO32 ==> CurrentRow(r).line == r.line
    ensures 0 <= r.column < TWO32 ==> CurrentRow(r).column == r.column
    ensures (r.column - CurrentRow(r).column) % TWO32 == 0
    ensures r.line > 0 ==> (r.line - CurrentRow(r).line) % TWO32 == 0
  {
    Remainder(r.column, TWO32);
    if r.line > 0 {
      Remainder(r.line, TWO32);
    }
  }

  lemma Remainder(n: nat, m: nat)
    requires m > 0
    ensures (n - n % m) % m == 0
  {
    assert n - n % m == (n / m) * m;
    DivModUnique((n / m) * m, n / m, 0, m);
  }

  // A special opcode of a header whose line range is 0 pushes a row and moves nothing.
  lemma SpecialWithoutRange(h: Header, bytes: Bytes, pos: nat, r: Registers, opcode: byte)
    requires ValidHeader(h) && h.lineRange == 0 && At(bytes, pos, [opcode])
    requires 0 < opcode && opcode >= h.opcodeBase
    ensures Step(h, bytes, Machine(Cur(pos, false), r)) == Machine(Cur(pos + 1, false), Emit(r))
  {
    AtFirst(bytes, pos, [opcode]);
    hide Emit, Standard, Extended;
  }
}
