// The records of an ELF file written out field after field, as the System V ABI lays them
// out, and the proof that the reader takes every record back.

module ElfLayout {
  import opened Arithmetic
  import opened Common
  import opened ElfFile
  import opened ElfReader
  import opened ElfSymbols
  import opened Slices

  // ---------- numbers ----------

  function LittleBytes(width: nat, n: nat): (s: seq<byte>)
    ensures |s| == width
  {
    if width == 0 then [] else [n % 256] + LittleBytes(width - 1, n / 256)
  }

  function BigBytes(width: nat, n: nat): (s: seq<byte>)
    ensures |s| == width
  {
    if width == 0 then [] else BigBytes(width - 1, n / 256) + [n % 256]
  }

  function Put(e: Endianness, width: nat, n: nat): (s: seq<byte>)
    ensures |s| == width
  {
    if e.Little? then LittleBytes(width, n) else BigBytes(width, n)
  }

  lemma {:induction false} LittleRoundTrip(width: nat, n: nat)
    requires n < Pow256(width)
    ensures LittleEndian(LittleBytes(width, n)) == n
  {
    if width > 0 {
      LittleRoundTrip(width - 1, n / 256);
      assert LittleBytes(width, n)[1..] == LittleBytes(width - 1, n / 256);
    }
  }

  lemma {:induction false} BigRoundTrip(width: nat, n: nat)
    requires n < Pow256(width)
    ensures BigEndian(BigBytes(width, n)) == n
  {
    if width > 0 {
      BigRoundTrip(width - 1, n / 256);
      assert BigBytes(width, n)[..width - 1] == BigBytes(width - 1, n / 256);
    }
  }

  lemma PutRoundTrip(reader: Reader, p: uint64, width: uint64, n: nat)
    requires n < Pow256(width) && At(reader.bytes, p, Put(reader.endianness, width, n))
    ensures reader.Number(p, width) == Ok(n)
  {
    hide LittleEndian, BigEndian, LittleBytes, BigBytes, Pow256;
    LittleRoundTrip(width, n);
    BigRoundTrip(width, n);
  }

  // A field at the front of a record.
  lemma Field(reader: Reader, p: uint64, width: uint64, n: nat, rest: seq<byte>)
    requires n < Pow256(width) && At(reader.bytes, p, Put(reader.endianness, width, n) + rest)
    ensures p + width <= |reader.bytes|
    ensures reader.Number(p, width) == Ok(n) && At(reader.bytes, p + width, rest)
  {
    hide Put, Pow256;
    AtConcat(reader.bytes, p, Put(reader.endianness, width, n), rest);
    PutRoundTrip(reader, p, width, n);
  }

  lemma Half(reader: Reader, p: uint64, n: uint16, rest: seq<byte>)
    requires At(reader.bytes, p, Put(reader.endianness, 2, n) + rest)
    ensures reader.U16(p) == Ok(n) && At(reader.bytes, p + 2, rest)
  {
    hide Put, Pow256;
    WordSizes();
    Field(reader, p, 2, n, rest);
  }

  lemma Word(reader: Reader, p: uint64, n: uint32, rest: seq<byte>)
    requires At(reader.bytes, p, Put(reader.endianness, 4, n) + rest)
    ensures reader.U32(p) == Ok(n) && At(reader.bytes, p + 4, rest)
  {
    hide Put, Pow256;
    WordSizes();
    Field(reader, p, 4, n, rest);
  }

  lemma DoubleWord(reader: Reader, p: uint64, n: uint64, rest: seq<byte>)
    requires At(reader.bytes, p, Put(reader.endianness, 8, n) + rest)
    ensures reader.U64(p) == Ok(n) && At(reader.bytes, p + 8, rest)
  {
    hide Put, Pow256;
    WordSizes();
    Field(reader, p, 8, n, rest);
  }

  lemma Byte(reader: Reader, p: uint64, n: byte, rest: seq<byte>)
    requires At(reader.bytes, p, [n] + rest)
    ensures reader.U8(p) == Ok(n) && At(reader.bytes, p + 1, rest)
  {
    AtConcat(reader.bytes, p, [n], rest);
    AtFirst(reader.bytes, p, [n]);
  }

  // ---------- section headers ----------

  function SectionBytes64(e: Endianness, s: Section): seq<byte> {
    Put(e, 4, s.nameOffset) + (Put(e, 4, s.kind) + (Put(e, 8, s.flags) + (Put(e, 8, s.address) + (Put(e, 8, s.offset)
    + (Put(e, 8, s.size) + (Put(e, 4, s.link) + (Put(e, 4, s.info) + (Put(e, 8, s.alignment) + (Put(e, 8, s.entrySize) + [])))))))))
  }

  lemma SectionRoundTrip64(reader: Reader, p: uint64, s: Section)
    requires s.name == [] && s.executable == (s.flags / 4 % 2 == 1)
    requires At(reader.bytes, p, SectionBytes64(reader.endianness, s))
    ensures p <= |reader.bytes| && ParseSectionHeader(reader, Elf64, p, s.index) == Ok(s)
  {
    hide At, Reader.U32, Reader.U64;
    var e := reader.endianness;
    var r10: seq<byte> := [];
    var r9 := Put(e, 8, s.entrySize) + r10;
    var r8 := Put(e, 8, s.alignment) + r9;
    var r7 := Put(e, 4, s.info) + r8;
    var r6 := Put(e, 4, s.link) + r7;
    var r5 := Put(e, 8, s.size) + r6;
    var r4 := Put(e, 8, s.offset) + r5;
    var r3 := Put(e, 8, s.address) + r4;
    var r2 := Put(e, 8, s.flags) + r3;
    var r1 := Put(e, 4, s.kind) + r2;
    Word(reader, p, s.nameOffset, r1);
    Word(reader, p + 4, s.kind, r2);
    DoubleWord(reader, p + 8, s.flags, r3);
    DoubleWord(reader, p + 16, s.address, r4);
    DoubleWord(reader, p + 24, s.offset, r5);
    DoubleWord(reader, p + 32, s.size, r6);
    Word(reader, p + 40, s.link, r7);
    Word(reader, p + 44, s.info, r8);
    DoubleWord(reader, p + 48, s.alignment, r9);
    DoubleWord(reader, p + 56, s.entrySize, r10);
  }

  // The fields of a 32-bit section header hold 32 bits.
  predicate Narrow(s: Section) {
    s.flags < TWO32 && s.address < TWO32 && s.offset < TWO32 && s.size < TWO32 && s.alignment < TWO32 && s.entrySize < TWO32
  }

  function SectionBytes32(e: Endianness, s: Section): seq<byte>
    requires Narrow(s)
  {
    Put(e, 4, s.nameOffset) + (Put(e, 4, s.kind) + (Put(e, 4, s.flags) + (Put(e, 4, s.address) + (
    Put(e, 4, s.offset) + (Put(e, 4, s.size) + (Put(e, 4, s.link) + (Put(e, 4, s.info) + (
    Put(e, 4, s.alignment) + (Put(e, 4, s.entrySize) + [])))))))))
  }

  lemma SectionRoundTrip32(reader: Reader, p: uint64, s: Section)
    requires s.name == [] && s.executable == (s.flags / 4 % 2 == 1) && Narrow(s)
    requires At(reader.bytes, p, SectionBytes32(reader.endianness, s))
    ensures p <= |reader.bytes| && ParseSectionHeader(reader, Elf32, p, s.index) == Ok(s)
  {
    hide At, Reader.U8, Reader.U16, Reader.U32, Reader.U64;
    var e := reader.endianness;
    var r10: seq<byte> := [];
    var r9 := Put(e, 4, s.entrySize) + r10;
    var r8 := Put(e, 4, s.alignment) + r9;
    var r7 := Put(e, 4, s.info) + r8;
    var r6 := Put(e, 4, s.link) + r7;
    var r5 := Put(e, 4, s.size) + r6;
    var r4 := Put(e, 4, s.offset) + r5;
    var r3 := Put(e, 4, s.address) + r4;
    var r2 := Put(e, 4, s.flags) + r3;
    var r1 := Put(e, 4, s.kind) + r2;
    Word(reader, p, s.nameOffset, r1);
    Word(reader, p + 4, s.kind, r2);
    Word(reader, p + 8, s.flags, r3);
    Word(reader, p + 12, s.address, r4);
    Word(reader, p + 16, s.offset, r5);
    Word(reader, p + 20, s.size, r6);
    Word(reader, p + 24, s.link, r7);
    Word(reader, p + 28, s.info, r8);
    Word(reader, p + 32, s.alignment, r9);
    Word(reader, p + 36, s.entrySize, r10);
  }

  function SectionBytes(c: Class, e: Endianness, s: Section): seq<byte>
    requires c.Elf32? ==> Narrow(s)
  {
    if c.Elf64? then SectionBytes64(e, s) else SectionBytes32(e, s)
  }

  // ---------- program headers ----------

  function SegmentBytes64(e: Endianness, s: Segment): seq<byte> {
    Put(e, 4, s.kind) + (Put(e, 4, s.flags) + (Put(e, 8, s.offset) + (Put(e, 8, s.virtualAddress) + (
    Put(e, 8, s.physicalAddress) + (Put(e, 8, s.fileSize) + (Put(e, 8, s.memorySize) + (
    Put(e, 8, s.alignment) + [])))))))
  }

  lemma SegmentRoundTrip64(reader: Reader, p: uint64, s: Segment)
    requires At(reader.bytes, p, SegmentBytes64(reader.endianness, s))
    ensures p + SegmentSize(Elf64) <= |reader.bytes| && SegmentAt(reader, Elf64, p) == s
  {
    hide At, Reader.U8, Reader.U16, Reader.U32, Reader.U64;
    var e := reader.endianness;
    var r8: seq<byte> := [];
    var r7 := Put(e, 8, s.alignment) + r8;
    var r6 := Put(e, 8, s.memorySize) + r7;
    var r5 := Put(e, 8, s.fileSize) + r6;
    var r4 := Put(e, 8, s.physicalAddress) + r5;
    var r3 := Put(e, 8, s.virtualAddress) + r4;
    var r2 := Put(e, 8, s.offset) + r3;
    var r1 := Put(e, 4, s.flags) + r2;
    Word(reader, p, s.kind, r1);
    Word(reader, p + 4, s.flags, r2);
    DoubleWord(reader, p + 8, s.offset, r3);
    DoubleWord(reader, p + 16, s.virtualAddress, r4);
    DoubleWord(reader, p + 24, s.physicalAddress, r5);
    DoubleWord(reader, p + 32, s.fileSize, r6);
    DoubleWord(reader, p + 40, s.memorySize, r7);
    DoubleWord(reader, p + 48, s.alignment, r8);
  }

  predicate NarrowSegment(s: Segment) {
    && s.offset < TWO32 && s.virtualAddress < TWO32 && s.physicalAddress < TWO32
    && s.fileSize < TWO32 && s.memorySize < TWO32 && s.alignment < TWO32
  }

  function SegmentBytes32(e: Endianness, s: Segment): seq<byte>
    requires NarrowSegment(s)
  {
    Put(e, 4, s.kind) + (Put(e, 4, s.offset) + (Put(e, 4, s.virtualAddress) + (Put(e, 4, s.physicalAddress) + (
    Put(e, 4, s.fileSize) + (Put(e, 4, s.memorySize) + (Put(e, 4, s.flags) + (Put(e, 4, s.alignment) + [])))))))
  }

  lemma SegmentRoundTrip32(reader: Reader, p: uint64, s: Segment)
    requires NarrowSegment(s) && At(reader.bytes, p, SegmentBytes32(reader.endianness, s))
    ensures p + SegmentSize(Elf32) <= |reader.bytes| && SegmentAt(reader, Elf32, p) == s
  {
    hide At, Reader.U8, Reader.U16, Reader.U32, Reader.U64;
    var e := reader.endianness;
    var r8: seq<byte> := [];
    var r7 := Put(e, 4, s.alignment) + r8;
    var r6 := Put(e, 4, s.flags) + r7;
    var r5 := Put(e, 4, s.memorySize) + r6;
    var r4 := Put(e, 4, s.fileSize) + r5;
    var r3 := Put(e, 4, s.physicalAddress) + r4;
    var r2 := Put(e, 4, s.virtualAddress) + r3;
    var r1 := Put(e, 4, s.offset) + r2;
    Word(reader, p, s.kind, r1);
    Word(reader, p + 4, s.offset, r2);
    Word(reader, p + 8, s.virtualAddress, r3);
    Word(reader, p + 12, s.physicalAddress, r4);
    Word(reader, p + 16, s.fileSize, r5);
    Word(reader, p + 20, s.memorySize, r6);
    Word(reader, p + 24, s.flags, r7);
    Word(reader, p + 28, s.alignment, r8);
  }

  // ---------- symbols ----------

  // A symbol entry before its name is looked up, with the codes it has for its binding and
  // its type.
  datatype SymbolEntry = SymbolEntry(
    nameOffset: uint32,
    bind: SymbolBind,
    bindCode: nat,
    kind: SymbolType,
    kindCode: nat,
    other: byte,
    section: uint16,
    address: uint64,
    size: uint64)

  // The codes of section 4 (symbol table) of the System V ABI.
  predicate BindCoded(bind: SymbolBind, code: nat) {
    match bind
    case Local => code == 0
    case Global => code == 1
    case Weak => code == 2
    case OtherBind => 3 <= code < 16
  }

  predicate TypeCoded(kind: SymbolType, code: nat) {
    match kind
    case NoType => code == 0
    case Object => code == 1
    case Function => code == 2
    case SectionSymbol => code == 3
    case File => code == 4
    case CommonBlock => code == 5
    case Tls => code == 6
    case OtherType => 7 <= code < 16
  }

  predicate Coded(s: SymbolEntry) {
    BindCoded(s.bind, s.bindCode) && TypeCoded(s.kind, s.kindCode)
  }

  // The byte that holds both codes.
  function SymbolInfo(s: SymbolEntry): byte
    requires Coded(s)
  {
    16 * s.bindCode + s.kindCode
  }

  // Every byte is that of just one binding and one type.
  lemma InfoReadsBack(s: SymbolEntry)
    requires Coded(s)
    ensures BindOf(SymbolInfo(s) / 16) == s.bind && TypeOf(SymbolInfo(s) % 16) == s.kind
  {
  }

  function Resolve(s: SymbolEntry, name: seq<byte>, isDynamic: bool): Symbol {
    Symbol(name, s.address, s.size, s.section, s.bind, s.kind, s.section != 0, isDynamic)
  }

  function SymbolBytes64(e: Endianness, s: SymbolEntry): seq<byte>
    requires Coded(s)
  {
    Put(e, 4, s.nameOffset) + ([SymbolInfo(s)] + ([s.other] + (Put(e, 2, s.section) + (Put(e, 8, s.address) + (
    Put(e, 8, s.size) + [])))))
  }

  lemma SymbolRoundTrip64(reader: Reader, p: uint64, s: SymbolEntry, strings: seq<byte>, isDynamic: bool)
    requires Coded(s) && NameOf(strings, s.nameOffset).Ok? && At(reader.bytes, p, SymbolBytes64(reader.endianness, s))
    ensures p + SymbolSize(Elf64) <= |reader.bytes|
    ensures ParseSymbol(reader, Elf64, strings, p, isDynamic) == Ok(Resolve(s, NameOf(strings, s.nameOffset).value, isDynamic))
  {
    InfoReadsBack(s);
    hide At, NameOf, SymbolInfo, Coded, BindOf, TypeOf, Reader.U8, Reader.U16, Reader.U32, Reader.U64;
    var e := reader.endianness;
    var r6: seq<byte> := [];
    var r5 := Put(e, 8, s.size) + r6;
    var r4 := Put(e, 8, s.address) + r5;
    var r3 := Put(e, 2, s.section) + r4;
    var r2 := [s.other] + r3;
    var r1 := [SymbolInfo(s)] + r2;
    Word(reader, p, s.nameOffset, r1);
    Byte(reader, p + 4, SymbolInfo(s), r2);
    Byte(reader, p + 5, s.other, r3);
    Half(reader, p + 6, s.section, r4);
    DoubleWord(reader, p + 8, s.address, r5);
    DoubleWord(reader, p + 16, s.size, r6);
  }

  function SymbolBytes32(e: Endianness, s: SymbolEntry): seq<byte>
    requires Coded(s) && s.address < TWO32 && s.size < TWO32
  {
    Put(e, 4, s.nameOffset) + (Put(e, 4, s.address) + (Put(e, 4, s.size) + ([SymbolInfo(s)] + ([s.other] + (
    Put(e, 2, s.section) + [])))))
  }

  lemma SymbolRoundTrip32(reader: Reader, p: uint64, s: SymbolEntry, strings: seq<byte>, isDynamic: bool)
    requires Coded(s) && s.address < TWO32 && s.size < TWO32
    requires At(reader.bytes, p, SymbolBytes32(reader.endianness, s)) && NameOf(strings, s.nameOffset).Ok?
    ensures p + SymbolSize(Elf32) <= |reader.bytes|
    ensures ParseSymbol(reader, Elf32, strings, p, isDynamic) == Ok(Resolve(s, NameOf(strings, s.nameOffset).value, isDynamic))
  {
    InfoReadsBack(s);
    hide At, NameOf, SymbolInfo, Coded, BindOf, TypeOf, Reader.U8, Reader.U16, Reader.U32, Reader.U64;
    var e := reader.endianness;
    var r6: seq<byte> := [];
    var r5 := Put(e, 2, s.section) + r6;
    var r4 := [s.other] + r5;
    var r3 := [SymbolInfo(s)] + r4;
    var r2 := Put(e, 4, s.size) + r3;
    var r1 := Put(e, 4, s.address) + r2;
    Word(reader, p, s.nameOffset, r1);
    Word(reader, p + 4, s.address, r2);
    Word(reader, p + 8, s.size, r3);
    Byte(reader, p + 12, SymbolInfo(s), r4);
    Byte(reader, p + 13, s.other, r5);
    Half(reader, p + 14, s.section, r6);
  }

  // ---------- relocations ----------

  // A relocation entry before its symbol is looked up.
  datatype RelocationEntry = RelocationEntry(offset: uint64, symbolIndex: uint32, kind: uint32, addend: int)

  // A signed number in two's complement.
  function TwosComplement(n: int, modulus: nat): (u: nat)
    requires 0 <= modulus + 2 * n && 2 * n < modulus
    ensures u < modulus
  {
    if n >= 0 then n else n + modulus
  }

  function InfoOf(c: Class, r: RelocationEntry): nat {
    r.symbolIndex * InfoBase(c) + r.kind
  }

  predicate WideEntry(r: RelocationEntry) {
    -0x8000_0000_0000_0000 <= r.addend < 0x8000_0000_0000_0000
  }

  function RelocationBytes64(e: Endianness, r: RelocationEntry, hasAddend: bool): seq<byte>
    requires WideEntry(r)
  {
    Put(e, 8, r.offset)
    + (Put(e, 8, InfoOf(Elf64, r)) + if hasAddend then Put(e, 8, TwosComplement(r.addend, TWO64)) + [] else [])
  }

  predicate NarrowEntry(r: RelocationEntry) {
    r.offset < TWO32 && r.symbolIndex < 0x100_0000 && r.kind < 256 && -0x8000_0000 <= r.addend < 0x8000_0000
  }

  function RelocationBytes32(e: Endianness, r: RelocationEntry, hasAddend: bool): seq<byte>
    requires NarrowEntry(r)
  {
    Put(e, 4, r.offset)
    + (Put(e, 4, InfoOf(Elf32, r)) + if hasAddend then Put(e, 4, TwosComplement(r.addend, TWO32)) + [] else [])
  }

  // The entry names no symbol or one of the table.
  predicate SymbolKnown(r: RelocationEntry, table: seq<Symbol>) {
    r.symbolIndex == 0 || r.symbolIndex < |table|
  }

  // The entry with its symbol looked up; only sections of kind 4 have addends.
  function Linked(s: Section, r: RelocationEntry, table: seq<Symbol>): Relocation
  {
    var name := if r.symbolIndex < |table| then table[r.symbolIndex].name else [];
    Relocation(s.name, r.offset, r.kind, r.symbolIndex, name, if s.kind == 4 then r.addend else 0, s.kind == 4)
  }

  lemma RelocationRoundTrip64(reader: Reader, p: uint64, s: Section, table: seq<Symbol>, r: RelocationEntry)
    requires IsRelocationTable(s) && WideEntry(r)
    requires At(reader.bytes, p, RelocationBytes64(reader.endianness, r, s.kind == 4))
    ensures p + RelocationSize(Elf64, s.kind == 4) <= |reader.bytes|
    ensures ParseRelocation(reader, Elf64, s, table, p)
         == if SymbolKnown(r, table) then Ok(Linked(s, r, table)) else Err(MalformedInput)
  {
    hide At, Reader.U32, Reader.U64;
    var e := reader.endianness;
    var addend := TwosComplement(r.addend, TWO64);
    var info := InfoOf(Elf64, r);
    DivModUnique(info, r.symbolIndex, r.kind, TWO32);
    var r2 := if s.kind == 4 then Put(e, 8, addend) + [] else [];
    var r1 := Put(e, 8, info) + r2;
    DoubleWord(reader, p, r.offset, r1);
    DoubleWord(reader, p + 8, info, r2);
    if s.kind == 4 {
      DoubleWord(reader, p + 16, addend, []);
    }
  }

  lemma RelocationRoundTrip32(reader: Reader, p: uint64, s: Section, table: seq<Symbol>, r: RelocationEntry)
    requires IsRelocationTable(s) && NarrowEntry(r)
    requires At(reader.bytes, p, RelocationBytes32(reader.endianness, r, s.kind == 4))
    ensures p + RelocationSize(Elf32, s.kind == 4) <= |reader.bytes|
    ensures ParseRelocation(reader, Elf32, s, table, p)
         == if SymbolKnown(r, table) then Ok(Linked(s, r, table)) else Err(MalformedInput)
  {
    hide At, Reader.U32, Reader.U64;
    var e := reader.endianness;
    var addend := TwosComplement(r.addend, TWO32);
    var info := InfoOf(Elf32, r);
    DivModUnique(info, r.symbolIndex, r.kind, 256);
    var r2 := if s.kind == 4 then Put(e, 4, addend) + [] else [];
    var r1 := Put(e, 4, info) + r2;
    Word(reader, p, r.offset, r1);
    Word(reader, p + 4, info, r2);
    if s.kind == 4 {
      Word(reader, p + 8, addend, []);
    }
  }

  // ---------- the file header ----------

  // The identification bytes; the last nine are not read.
  function Ident(h: Header, rest: seq<byte>): seq<byte> {
    [0x7F, 0x45, 0x4C, 0x46, if h.class_.Elf64? then 2 else 1, if h.endianness.Little? then 1 else 2, 1] + rest
  }

  predicate PlainHeader(h: Header) {
    && h.programHeaderCount < 0x1_0000 && h.sectionHeaderCount < 0x1_0000 && h.sectionNameIndex < 0x1_0000
    && SizesSuffice(h)
    && (h.class_.Elf32? ==> h.entry < TWO32 && h.programHeaderOffset < TWO32 && h.sectionHeaderOffset < TWO32)
  }

  function HeaderBytes64(h: Header, flags: uint32): seq<byte>
    requires PlainHeader(h) && h.class_.Elf64?
  {
    var e := h.endianness;
    Put(e, 2, h.fileType) + (Put(e, 2, h.machine) + (Put(e, 4, 1) + (Put(e, 8, h.entry) + (
    Put(e, 8, h.programHeaderOffset) + (Put(e, 8, h.sectionHeaderOffset) + (Put(e, 4, flags) + (
    Put(e, 2, h.headerSize) + (Put(e, 2, h.programHeaderEntrySize) + (Put(e, 2, h.programHeaderCount) + (
    Put(e, 2, h.sectionHeaderEntrySize) + (Put(e, 2, h.sectionHeaderCount) + (
    Put(e, 2, h.sectionNameIndex) + []))))))))))))
  }

  // After the identification, every field is read from its place.
  lemma FieldsRoundTrip64(reader: Reader, h: Header, flags: uint32)
    requires PlainHeader(h) && h.class_.Elf64? && reader.endianness == h.endianness
    requires At(reader.bytes, 16, HeaderBytes64(h, flags))
    ensures |reader.bytes| >= HeaderSize(h.class_)
    ensures reader.U16(16) == Ok(h.fileType) && reader.U16(18) == Ok(h.machine) && reader.U32(20) == Ok(1)
    ensures HeaderFields(reader, h.class_, h.fileType, h.machine) == h
  {
    hide At, Reader.U16, Reader.U32, Reader.U64;
    var e := reader.endianness;
    var r13: seq<byte> := [];
    var r12 := Put(e, 2, h.sectionNameIndex) + r13;
    var r11 := Put(e, 2, h.sectionHeaderCount) + r12;
    var r10 := Put(e, 2, h.sectionHeaderEntrySize) + r11;
    var r9 := Put(e, 2, h.programHeaderCount) + r10;
    var r8 := Put(e, 2, h.programHeaderEntrySize) + r9;
    var r7 := Put(e, 2, h.headerSize) + r8;
    var r6 := Put(e, 4, flags) + r7;
    var r5 := Put(e, 8, h.sectionHeaderOffset) + r6;
    var r4 := Put(e, 8, h.programHeaderOffset) + r5;
    var r3 := Put(e, 8, h.entry) + r4;
    var r2 := Put(e, 4, 1) + r3;
    var r1 := Put(e, 2, h.machine) + r2;
    Half(reader, 16, h.fileType, r1);
    Half(reader, 18, h.machine, r2);
    Word(reader, 20, 1, r3);
    DoubleWord(reader, 24, h.entry, r4);
    DoubleWord(reader, 32, h.programHeaderOffset, r5);
    DoubleWord(reader, 40, h.sectionHeaderOffset, r6);
    Word(reader, 48, flags, r7);
    Half(reader, 52, h.headerSize, r8);
    Half(reader, 54, h.programHeaderEntrySize, r9);
    Half(reader, 56, h.programHeaderCount, r10);
    Half(reader, 58, h.sectionHeaderEntrySize, r11);
    Half(reader, 60, h.sectionHeaderCount, r12);
    Half(reader, 62, h.sectionNameIndex, r13);
  }

  function HeaderBytes32(h: Header, flags: uint32): seq<byte>
    requires PlainHeader(h) && h.class_.Elf32?
  {
    var e := h.endianness;
    Put(e, 2, h.fileType) + (Put(e, 2, h.machine) + (Put(e, 4, 1) + (Put(e, 4, h.entry) + (
    Put(e, 4, h.programHeaderOffset) + (Put(e, 4, h.sectionHeaderOffset) + (Put(e, 4, flags) + (
    Put(e, 2, h.headerSize) + (Put(e, 2, h.programHeaderEntrySize) + (Put(e, 2, h.programHeaderCount) + (
    Put(e, 2, h.sectionHeaderEntrySize) + (Put(e, 2, h.sectionHeaderCount) + (
    Put(e, 2, h.sectionNameIndex) + []))))))))))))
  }

  // After the identification, every field is read from its place.
  lemma FieldsRoundTrip32(reader: Reader, h: Header, flags: uint32)
    requires PlainHeader(h) && h.class_.Elf32? && reader.endianness == h.endianness
    requires At(reader.bytes, 16, HeaderBytes32(h, flags))
    ensures |reader.bytes| >= HeaderSize(h.class_)
    ensures reader.U16(16) == Ok(h.fileType) && reader.U16(18) == Ok(h.machine) && reader.U32(20) == Ok(1)
    ensures HeaderFields(reader, h.class_, h.fileType, h.machine) == h
  {
    hide At, Reader.U16, Reader.U32, Reader.U64;
    var e := reader.endianness;
    var r13: seq<byte> := [];
    var r12 := Put(e, 2, h.sectionNameIndex) + r13;
    var r11 := Put(e, 2, h.sectionHeaderCount) + r12;
    var r10 := Put(e, 2, h.sectionHeaderEntrySize) + r11;
    var r9 := Put(e, 2, h.programHeaderCount) + r10;
    var r8 := Put(e, 2, h.programHeaderEntrySize) + r9;
    var r7 := Put(e, 2, h.headerSize) + r8;
    var r6 := Put(e, 4, flags) + r7;
    var r5 := Put(e, 4, h.sectionHeaderOffset) + r6;
    var r4 := Put(e, 4, h.programHeaderOffset) + r5;
    var r3 := Put(e, 4, h.entry) + r4;
    var r2 := Put(e, 4, 1) + r3;
    var r1 := Put(e, 2, h.machine) + r2;
    Half(reader, 16, h.fileType, r1);
    Half(reader, 18, h.machine, r2);
    Word(reader, 20, 1, r3);
    Word(reader, 24, h.entry, r4);
    Word(reader, 28, h.programHeaderOffset, r5);
    Word(reader, 32, h.sectionHeaderOffset, r6);
    Word(reader, 36, flags, r7);
    Half(reader, 40, h.headerSize, r8);
    Half(reader, 42, h.programHeaderEntrySize, r9);
    Half(reader, 44, h.programHeaderCount, r10);
    Half(reader, 46, h.sectionHeaderEntrySize, r11);
    Half(reader, 48, h.sectionHeaderCount, r12);
    Half(reader, 50, h.sectionNameIndex, r13);
  }

  function HeaderBytes(h: Header, flags: uint32): seq<byte>
    requires PlainHeader(h)
  {
    if h.class_.Elf64? then HeaderBytes64(h, flags) else HeaderBytes32(h, flags)
  }

  lemma IdentReadsBack(bytes: Image, h: Header, rest: seq<byte>)
    requires |rest| == 9 && At(bytes, 0, Ident(h, rest))
    ensures IdentError(bytes).None?
    ensures |bytes| >= 16 && (bytes[4] == 2 <==> h.class_.Elf64?) && (bytes[5] == 1 <==> h.endianness.Little?)
  {
    var ident := bytes[0..|Ident(h, rest)|];
    assert bytes[0] == ident[0] && bytes[1] == ident[1] && bytes[2] == ident[2] && bytes[3] == ident[3];
    assert bytes[4] == ident[4] && bytes[5] == ident[5] && bytes[6] == ident[6];
  }

  // Any file that begins with the written header is taken to have that header.
  lemma HeaderRoundTrip(bytes: Image, h: Header, rest: seq<byte>, flags: uint32)
    requires PlainHeader(h) && |rest| == 9
    requires At(bytes, 0, Ident(h, rest) + HeaderBytes(h, flags))
    ensures ParseHeader(bytes) == Ok(h)
  {
    hide HeaderBytes64, HeaderBytes32, HeaderFields, Reader.U16, Reader.U32, IdentError, At;
    AtConcat(bytes, 0, Ident(h, rest), HeaderBytes(h, flags));
    IdentReadsBack(bytes, h, rest);
    assert |Ident(h, rest)| == 16;
    hide Ident;
    var reader := Reader(bytes, h.endianness);
    if h.class_.Elf64? {
      FieldsRoundTrip64(reader, h, flags);
    } else {
      FieldsRoundTrip32(reader, h, flags);
    }
  }

  // The numbers too large for the header come from section zero, each from its own field.
  lemma ExtendedNumbersReadBack(reader: Reader, h: Header, zero: Section)
    requires zero.name == [] && zero.index == 0 && zero.executable == (zero.flags / 4 % 2 == 1)
    requires h.class_.Elf32? ==> Narrow(zero)
    requires At(reader.bytes, h.sectionHeaderOffset, SectionBytes(h.class_, reader.endianness, zero))
    requires h.sectionHeaderOffset + h.sectionHeaderEntrySize <= |reader.bytes|
    ensures Extended(reader, h) ==
      Ok(h.(sectionHeaderCount := if h.sectionHeaderCount == 0 then zero.size else h.sectionHeaderCount,
            sectionNameIndex := if h.sectionNameIndex == 0xFFFF then zero.link else h.sectionNameIndex,
            programHeaderCount := if h.programHeaderCount == 0xFFFF then zero.info else h.programHeaderCount))
  {
    hide ParseSectionHeader, SectionBytes64, SectionBytes32;
    if h.class_.Elf64? {
      SectionRoundTrip64(reader, h.sectionHeaderOffset, zero);
    } else {
      SectionRoundTrip32(reader, h.sectionHeaderOffset, zero);
    }
  }
}
