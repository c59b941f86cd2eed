// The symbol and relocation tables of an ELF image, and the whole parse.  The entry reads
// are unchecked in the original; here each is proved to lie in the image.

module ElfSymbols {
  import opened Common
  import opened ElfFile
  import opened ElfReader

  const SHT_SYMTAB: uint32 := 2
  const SHT_STRTAB: uint32 := 3
  const SHT_RELA: uint32 := 4
  const SHT_REL: uint32 := 9
  const SHT_DYNSYM: uint32 := 11

  datatype SymbolBind = Local | Global | Weak | OtherBind

  datatype SymbolType = NoType | Object | Function | SectionSymbol | File | CommonBlock | Tls | OtherType

  datatype Symbol = Symbol(
    name: seq<byte>,
    address: uint64,
    size: uint64,
    sectionIndex: uint16,
    bind: SymbolBind,
    kind: SymbolType,
    defined: bool,
    isDynamic: bool)

  datatype Relocation = Relocation(
    sectionName: seq<byte>,
    offset: uint64,
    kind: uint32,
    symbolIndex: uint64,
    symbolName: seq<byte>,
    addend: int,
    hasAddend: bool)

  // ---------- tables of equal entries ----------

  function EntrySize(s: Section, expected: uint16): uint64 {
    if s.entrySize == 0 then expected else s.entrySize
  }

  // The section's bytes are whole entries, none smaller than expected.
  predicate WholeEntries(s: Section, expected: uint16) {
    EntrySize(s, expected) >= expected > 0 && s.size % EntrySize(s, expected) == 0
  }

  function EntryCount(s: Section, expected: uint16): (n: nat)
    requires WholeEntries(s, expected)
    ensures n * EntrySize(s, expected) == s.size
  {
    s.size / EntrySize(s, expected)
  }

  // Where the k-th entry stands.
  function EntryOffset(bytes: Image, s: Section, expected: uint16, k: nat): (offset: uint64)
    requires WholeEntries(s, expected) && k < EntryCount(s, expected)
    requires s.kind != SHT_NOBITS && SectionInside(s, bytes)
    ensures offset == s.offset + k * EntrySize(s, expected) && offset + expected <= |bytes|
  {
    hide EntrySize;
    EntryInside(k, EntryCount(s, expected), EntrySize(s, expected));
    s.offset + k * EntrySize(s, expected)
  }

  // ---------- symbols ----------

  function SymbolSize(c: Class): uint16 {
    if c.Elf64? then 24 else 16
  }

  predicate IsSymbolTable(s: Section) {
    s.kind == SHT_SYMTAB || s.kind == SHT_DYNSYM
  }

  function BindOf(value: nat): SymbolBind {
    match value
    case 0 => Local
    case 1 => Global
    case 2 => Weak
    case _ => OtherBind
  }

  function TypeOf(value: nat): SymbolType {
    match value
    case 0 => NoType
    case 1 => Object
    case 2 => Function
    case 3 => SectionSymbol
    case 4 => File
    case 5 => CommonBlock
    case 6 => Tls
    case _ => OtherType
  }

  // One entry; its name stands in the string table.
  function ParseSymbol(reader: Reader, c: Class, strings: seq<byte>, offset: uint64, isDynamic: bool): (r: Result<Symbol>)
    requires offset + SymbolSize(c) <= |reader.bytes|
    ensures r.Ok? <==> NameOf(strings, reader.U32(offset).value).Ok?
    ensures r.Ok? ==> r.value.isDynamic == isDynamic && (r.value.defined <==> r.value.sectionIndex != 0)
  {
    hide NameOf;
    var name :- NameOf(strings, reader.U32(offset).value);
    if c.Elf64? then
      var info := reader.U8(offset + 4).value;
      var index := reader.U16(offset + 6).value;
      Ok(Symbol(name, reader.U64(offset + 8).value, reader.U64(offset + 16).value, index,
                BindOf(info / 16), TypeOf(info % 16), index != 0, isDynamic))
    else
      var info := reader.U8(offset + 12).value;
      var index := reader.U16(offset + 14).value;
      Ok(Symbol(name, reader.U32(offset + 4).value, reader.U32(offset + 8).value, index,
                BindOf(info / 16), TypeOf(info % 16), index != 0, isDynamic))
  }

  // The section is laid out as a symbol table and linked to a string table.
  predicate SymbolTableSound(c: Class, sections: seq<Section>, s: Section) {
    && WholeEntries(s, SymbolSize(c))
    && s.link < |sections| && sections[s.link].kind == SHT_STRTAB
  }

  function SymbolOf(bytes: Image, h: Header, sections: seq<Section>, s: Section, k: nat): Result<Symbol>
    requires SectionsInside(sections, bytes) && SectionInside(s, bytes) && IsSymbolTable(s)
    requires SymbolTableSound(h.class_, sections, s) && k < EntryCount(s, SymbolSize(h.class_))
  {
    ParseSymbol(Reader(bytes, h.endianness), h.class_, Contents(sections[s.link], bytes),
             EntryOffset(bytes, s, SymbolSize(h.class_), k), s.kind == SHT_DYNSYM)
  }

  predicate SymbolsReadable(bytes: Image, h: Header, sections: seq<Section>, s: Section)
    requires SectionsInside(sections, bytes) && SectionInside(s, bytes) && IsSymbolTable(s)
  {
    SymbolTableSound(h.class_, sections, s)
    && forall k | 0 <= k < EntryCount(s, SymbolSize(h.class_)) :: SymbolOf(bytes, h, sections, s, k).Ok?
  }

  // The symbols of one section; a section that is no symbol table has none.
  function SymbolsIn(bytes: Image, h: Header, sections: seq<Section>, s: Section): (symbols: seq<Symbol>)
    requires SectionsInside(sections, bytes) && SectionInside(s, bytes)
  {
    if IsSymbolTable(s) && SymbolsReadable(bytes, h, sections, s) then
      seq(EntryCount(s, SymbolSize(h.class_)), k requires 0 <= k < EntryCount(s, SymbolSize(h.class_)) =>
        SymbolOf(bytes, h, sections, s, k).value)
    else []
  }

  method ReadSymbols(bytes: Image, h: Header, sections: seq<Section>, s: Section) returns (r: Result<seq<Symbol>>)
    requires SectionsInside(sections, bytes) && SectionInside(s, bytes) && IsSymbolTable(s)
    ensures r.Ok? <==> SymbolsReadable(bytes, h, sections, s)
    ensures r.Ok? ==> r.value == SymbolsIn(bytes, h, sections, s)
  {
    hide ParseSymbol;
    var expected := SymbolSize(h.class_);
    var entrySize := if s.entrySize == 0 then expected else s.entrySize;
    if entrySize < expected {
      return Err(MalformedInput);
    }
    if s.size % entrySize != 0 {
      return Err(MalformedInput);
    }
    if s.link >= |sections| {
      return Err(MalformedInput);
    }
    var strings := RangeForSection(bytes, sections[s.link]);
    assert strings.Ok?; // every accepted section lies in the image
    if sections[s.link].kind != SHT_STRTAB {
      return Err(MalformedInput);
    }
    r := ReadSymbolEntries(bytes, h, sections, s, strings.value);
  }

  method ReadSymbolEntries(bytes: Image, h: Header, sections: seq<Section>, s: Section, strings: seq<byte>)
    returns (r: Result<seq<Symbol>>)
    requires SectionsInside(sections, bytes) && SectionInside(s, bytes) && IsSymbolTable(s)
    requires SymbolTableSound(h.class_, sections, s) && strings == Contents(sections[s.link], bytes)
    ensures r.Ok? <==> SymbolsReadable(bytes, h, sections, s)
    ensures r.Ok? ==> r.value == SymbolsIn(bytes, h, sections, s)
  {
    hide ParseSymbol, EntryOffset, WholeEntries, Contents, SectionInside;
    var reader := Reader(bytes, h.endianness);
    var count := EntryCount(s, SymbolSize(h.class_));
    var symbols: seq<Symbol> := [];
    var entry := 0;
    while entry < count
      invariant 0 <= entry == |symbols| <= count
      invariant forall k | 0 <= k < entry :: SymbolOf(bytes, h, sections, s, k) == Ok(symbols[k])
    {
      var offset := EntryOffset(bytes, s, SymbolSize(h.class_), entry);
      var symbol := ParseSymbol(reader, h.class_, strings, offset, s.kind == SHT_DYNSYM);
      assert symbol == SymbolOf(bytes, h, sections, s, entry);
      if symbol.Err? {
        return Err(symbol.error);
      }
      symbols := symbols + [symbol.value];
      entry := entry + 1;
    }
    assert symbols == SymbolsIn(bytes, h, sections, s);
    return Ok(symbols);
  }

  predicate AllSymbolsReadable(bytes: Image, h: Header, sections: seq<Section>, n: nat)
    requires SectionsInside(sections, bytes) && n <= |sections|
  {
    forall i | 0 <= i < n :: IsSymbolTable(sections[i]) ==> SymbolsReadable(bytes, h, sections, sections[i])
  }

  // The symbols of the first n sections, in section order.
  function SymbolsUpTo(bytes: Image, h: Header, sections: seq<Section>, n: nat): (symbols: seq<Symbol>)
    requires SectionsInside(sections, bytes) && n <= |sections|
  {
    if n == 0 then []
    else SymbolsUpTo(bytes, h, sections, n - 1) + SymbolsIn(bytes, h, sections, sections[n - 1])
  }

  predicate BySection(bytes: Image, h: Header, sections: seq<Section>, tables: seq<seq<Symbol>>, n: nat)
    requires SectionsInside(sections, bytes) && n <= |sections|
  {
    |tables| == |sections| && forall i | 0 <= i < n :: tables[i] == SymbolsIn(bytes, h, sections, sections[i])
  }

  method ParseSymbols(bytes: Image, h: Header, sections: seq<Section>)
    returns (r: Result<seq<seq<Symbol>>>, symbols: seq<Symbol>)
    requires SectionsInside(sections, bytes)
    ensures r.Ok? <==> AllSymbolsReadable(bytes, h, sections, |sections|)
    ensures r.Ok? ==> BySection(bytes, h, sections, r.value, |sections|)
    ensures r.Ok? ==> symbols == SymbolsUpTo(bytes, h, sections, |sections|)
  {
    hide SymbolsReadable, SymbolsIn, SectionInside;
    var bySection: seq<seq<Symbol>> := [];
    symbols := [];
    for i := 0 to |sections|
      invariant |bySection| == i
      invariant forall k | 0 <= k < i :: bySection[k] == SymbolsIn(bytes, h, sections, sections[k])
      invariant symbols == SymbolsUpTo(bytes, h, sections, i)
      invariant AllSymbolsReadable(bytes, h, sections, i)
    {
      var s := sections[i];
      var table: seq<Symbol> := [];
      if s.kind != SHT_SYMTAB && s.kind != SHT_DYNSYM {
        NoSymbolsIn(bytes, h, sections, s);
      } else {
        var read := ReadSymbols(bytes, h, sections, s);
        if read.Err? {
          return Err(read.error), symbols;
        }
        table := read.value;
      }
      bySection := bySection + [table];
      symbols := symbols + table;
    }
    return Ok(bySection), symbols;
  }

  lemma NoSymbolsIn(bytes: Image, h: Header, sections: seq<Section>, s: Section)
    requires SectionsInside(sections, bytes) && SectionInside(s, bytes) && !IsSymbolTable(s)
    ensures SymbolsIn(bytes, h, sections, s) == []
  {
  }

  // ---------- relocations ----------

  function RelocationSize(c: Class, addend: bool): uint16 {
    if c.Elf64? then (if addend then 24 else 16) else (if addend then 12 else 8)
  }

  predicate IsRelocationTable(s: Section) {
    s.kind == SHT_REL || s.kind == SHT_RELA
  }

  // How far the symbol number is shifted in the info word.
  function InfoBase(c: Class): nat {
    if c.Elf64? then TWO32 else 256
  }

  // One entry; index zero names no symbol and is never refused.
  function ParseRelocation(reader: Reader, c: Class, s: Section, table: seq<Symbol>,
    offset: uint64): (r: Result<Relocation>)
    requires IsRelocationTable(s) && offset + RelocationSize(c, s.kind == SHT_RELA) <= |reader.bytes|
    ensures r.Ok? ==>
      && r.value.sectionName == s.name && r.value.hasAddend == (s.kind == SHT_RELA)
      && r.value.symbolIndex * InfoBase(c) + r.value.kind
         == (if c.Elf64? then reader.U64(offset + 8).value else reader.U32(offset + 4).value)
      && r.value.kind < InfoBase(c)
      && (r.value.symbolIndex < |table| ==> r.value.symbolName == table[r.value.symbolIndex].name)
      && (r.value.symbolIndex >= |table| ==> r.value.symbolIndex == 0 && r.value.symbolName == [])
  {
    var hasAddend := s.kind == SHT_RELA;
    if c.Elf64? then
      var info := reader.U64(offset + 8).value;
      var addend := if hasAddend then reader.I64(offset + 16).value else 0;
      Resolved(s, reader.U64(offset).value, info % TWO32, info / TWO32, table, addend)
    else
      var info := reader.U32(offset + 4).value;
      var addend := if hasAddend then reader.I32(offset + 8).value else 0;
      Resolved(s, reader.U32(offset).value, info % 256, info / 256, table, addend)
  }

  function Resolved(s: Section, offset: uint64, kind: uint32, index: uint64, table: seq<Symbol>, addend: int):
    (r: Result<Relocation>)
    ensures r.Ok? <==> index == 0 || index < |table|
    ensures r.Ok? ==> r.value.symbolIndex == index && r.value.kind == kind
  {
    if index != 0 && index >= |table| then Err(MalformedInput)
    else Ok(Relocation(s.name, offset, kind, index, if index < |table| then table[index].name else [], addend, s.kind == SHT_RELA))
  }

  predicate RelocationTableSound(c: Class, sections: seq<Section>, s: Section) {
    s.link < |sections| && WholeEntries(s, RelocationSize(c, s.kind == SHT_RELA))
  }

  // The symbols that the relocations of a section refer to.
  function LinkedSymbols(bytes: Image, h: Header, sections: seq<Section>, s: Section): seq<Symbol>
    requires SectionsInside(sections, bytes) && s.link < |sections|
  {
    SymbolsIn(bytes, h, sections, sections[s.link])
  }

  function RelocationOf(bytes: Image, h: Header, sections: seq<Section>, s: Section, k: nat): Result<Relocation>
    requires SectionsInside(sections, bytes) && SectionInside(s, bytes) && IsRelocationTable(s)
    requires RelocationTableSound(h.class_, sections, s)
    requires k < EntryCount(s, RelocationSize(h.class_, s.kind == SHT_RELA))
  {
    ParseRelocation(Reader(bytes, h.endianness), h.class_, s, LinkedSymbols(bytes, h, sections, s),
                 EntryOffset(bytes, s, RelocationSize(h.class_, s.kind == SHT_RELA), k))
  }

  predicate RelocationsReadable(bytes: Image, h: Header, sections: seq<Section>, s: Section)
    requires SectionsInside(sections, bytes) && SectionInside(s, bytes) && IsRelocationTable(s)
  {
    RelocationTableSound(h.class_, sections, s)
    && forall k | 0 <= k < EntryCount(s, RelocationSize(h.class_, s.kind == SHT_RELA)) ::
         RelocationOf(bytes, h, sections, s, k).Ok?
  }

  function RelocationsIn(bytes: Image, h: Header, sections: seq<Section>, s: Section): seq<Relocation>
    requires SectionsInside(sections, bytes) && SectionInside(s, bytes)
  {
    if IsRelocationTable(s) && RelocationsReadable(bytes, h, sections, s) then
      var n := EntryCount(s, RelocationSize(h.class_, s.kind == SHT_RELA));
      seq(n, k requires 0 <= k < n => RelocationOf(bytes, h, sections, s, k).value)
    else []
  }

  function RelocationsUpTo(bytes: Image, h: Header, sections: seq<Section>, n: nat): seq<Relocation>
    requires SectionsInside(sections, bytes) && n <= |sections|
  {
    if n == 0 then []
    else RelocationsUpTo(bytes, h, sections, n - 1) + RelocationsIn(bytes, h, sections, sections[n - 1])
  }

  predicate AllRelocationsReadable(bytes: Image, h: Header, sections: seq<Section>, n: nat)
    requires SectionsInside(sections, bytes) && n <= |sections|
  {
    forall i | 0 <= i < n :: IsRelocationTable(sections[i]) ==> RelocationsReadable(bytes, h, sections, sections[i])
  }

  method ReadRelocations(bytes: Image, h: Header, sections: seq<Section>, s: Section, tables: seq<seq<Symbol>>)
    returns (r: Result<seq<Relocation>>)
    requires SectionsInside(sections, bytes) && SectionInside(s, bytes) && IsRelocationTable(s)
    requires BySection(bytes, h, sections, tables, |sections|)
    ensures r.Ok? <==> RelocationsReadable(bytes, h, sections, s)
    ensures r.Ok? ==> r.value == RelocationsIn(bytes, h, sections, s)
  {
    hide ParseRelocation, SymbolsIn, EntryOffset, RelocationSize, SectionInside;
    if s.link >= |sections| {
      return Err(MalformedInput);
    }
    var expected := RelocationSize(h.class_, s.kind == SHT_RELA);
    var entrySize := if s.entrySize == 0 then expected else s.entrySize;
    SomeSize(h.class_, s.kind == SHT_RELA);
    if entrySize < expected {
      return Err(MalformedInput);
    }
    if s.size % entrySize != 0 {
      return Err(MalformedInput);
    }
    r := ReadRelocationEntries(bytes, h, sections, s, tables[s.link]);
  }

  lemma SomeSize(c: Class, addend: bool)
    ensures RelocationSize(c, addend) > 0
  {
  }

  method ReadRelocationEntries(bytes: Image, h: Header, sections: seq<Section>, s: Section, table: seq<Symbol>)
    returns (r: Result<seq<Relocation>>)
    requires SectionsInside(sections, bytes) && SectionInside(s, bytes) && IsRelocationTable(s)
    requires RelocationTableSound(h.class_, sections, s) && table == LinkedSymbols(bytes, h, sections, s)
    ensures r.Ok? <==> RelocationsReadable(bytes, h, sections, s)
    ensures r.Ok? ==> r.value == RelocationsIn(bytes, h, sections, s)
  {
    hide ParseRelocation, EntryOffset, WholeEntries, LinkedSymbols, RelocationSize, SectionInside;
    var reader := Reader(bytes, h.endianness);
    var expected := RelocationSize(h.class_, s.kind == SHT_RELA);
    var count := EntryCount(s, expected);
    var relocations: seq<Relocation> := [];
    var entry := 0;
    while entry < count
      invariant 0 <= entry == |relocations| <= count
      invariant forall k | 0 <= k < entry :: RelocationOf(bytes, h, sections, s, k) == Ok(relocations[k])
    {
      var offset := EntryOffset(bytes, s, expected, entry);
      var relocation := ParseRelocation(reader, h.class_, s, table, offset);
      assert relocation == RelocationOf(bytes, h, sections, s, entry);
      if relocation.Err? {
        return Err(relocation.error);
      }
      relocations := relocations + [relocation.value];
      entry := entry + 1;
    }
    assert relocations == RelocationsIn(bytes, h, sections, s);
    return Ok(relocations);
  }

  method ParseRelocations(bytes: Image, h: Header, sections: seq<Section>, tables: seq<seq<Symbol>>)
    returns (r: Result<seq<Relocation>>)
    requires SectionsInside(sections, bytes)
    requires BySection(bytes, h, sections, tables, |sections|)
    ensures r.Ok? <==> AllRelocationsReadable(bytes, h, sections, |sections|)
    ensures r.Ok? ==> r.value == RelocationsUpTo(bytes, h, sections, |sections|)
  {
    hide RelocationsReadable, RelocationsIn, SectionInside, BySection;
    var relocations: seq<Relocation> := [];
    for i := 0 to |sections|
      invariant relocations == RelocationsUpTo(bytes, h, sections, i)
      invariant AllRelocationsReadable(bytes, h, sections, i)
    {
      var s := sections[i];
      if s.kind != SHT_REL && s.kind != SHT_RELA {
        NoRelocationsIn(bytes, h, sections, s);
        continue;
      }
      var read := ReadRelocations(bytes, h, sections, s, tables);
      if read.Err? {
        return Err(read.error);
      }
      relocations := relocations + read.value;
    }
    return Ok(relocations);
  }

  lemma NoRelocationsIn(bytes: Image, h: Header, sections: seq<Section>, s: Section)
    requires SectionsInside(sections, bytes) && SectionInside(s, bytes) && !IsRelocationTable(s)
    ensures RelocationsIn(bytes, h, sections, s) == []
  {
  }

  // ---------- the whole image ----------

  datatype ElfImage = ElfImage(
    header: Header,
    sections: seq<Section>,
    segments: seq<Segment>,
    symbols: seq<Symbol>,
    relocations: seq<Relocation>,
    stripped: bool)

  // Exactly the images that are accepted.
  predicate Accepted(bytes: Image) {
    hide SectionsAccepted, LoadSections, SegmentsAccepted, ParseHeader, SectionInside;
    && ParseHeader(bytes).Ok?
    && var loaded := LoadSections(bytes, ParseHeader(bytes).value);
    && loaded.Some?
    && var h, sections := loaded.value.header, loaded.value.sections;
    && SegmentsAccepted(bytes, h)
    && AllSymbolsReadable(bytes, h, sections, |sections|)
    && AllRelocationsReadable(bytes, h, sections, |sections|)
  }

  // What such an image is read as: sections and segments of their tables, symbols and
  // relocations of theirs, in table order.
  function ImageOf(bytes: Image): (f: ElfImage)
    requires Accepted(bytes)
    ensures SoundHeader(f.header, bytes) && SectionsInside(f.sections, bytes)
    ensures forall i | 0 <= i < |f.segments| :: SegmentInside(f.segments[i], bytes)
  {
    hide LoadSections, SegmentsAccepted, ParseHeader, SectionInside, SegmentInside, SegmentsOf, SoundHeader,
      SymbolsUpTo, RelocationsUpTo;
    var loaded := LoadSections(bytes, ParseHeader(bytes).value).value;
    var h, sections := loaded.header, loaded.sections;
    ElfImage(h, sections, SegmentsOf(bytes, h), SymbolsUpTo(bytes, h, sections, |sections|),
             RelocationsUpTo(bytes, h, sections, |sections|), !HasSymbolTable(sections))
  }

  predicate HasSymbolTable(sections: seq<Section>) {
    exists i :: 0 <= i < |sections| && sections[i].kind == SHT_SYMTAB
  }

  method ParseBytes(bytes: Image) returns (r: Result<ElfImage>)
    ensures r.Ok? <==> Accepted(bytes)
    ensures r.Ok? ==> r.value == ImageOf(bytes)
  {
    hide ParseHeader, SectionInside, SegmentInside, SegmentOf, SoundHeader, LoadSections, SegmentsAccepted, SegmentTable,
      SegmentsOf, SymbolsReadable, RelocationsReadable, AllSymbolsReadable, AllRelocationsReadable, SymbolsUpTo,
      RelocationsUpTo;
    var header := ParseHeader(bytes);
    if header.Err? {
      return Err(header.error);
    }
    var sections, h := ParseSectionHeaders(bytes, header.value);
    if sections.Err? {
      return Err(sections.error);
    }
    var segments := ParseSegments(bytes, h);
    if segments.Err? {
      return Err(segments.error);
    }
    var hasStaticTable := false;
    for i := 0 to |sections.value|
      invariant hasStaticTable <==> exists k :: 0 <= k < i && sections.value[k].kind == SHT_SYMTAB
    {
      if sections.value[i].kind == SHT_SYMTAB {
        hasStaticTable := true;
      }
    }
    var tables, symbols := ParseSymbols(bytes, h, sections.value);
    if tables.Err? {
      return Err(tables.error);
    }
    var relocations := ParseRelocations(bytes, h, sections.value, tables.value);
    if relocations.Err? {
      return Err(relocations.error);
    }
    return Ok(ElfImage(h, sections.value, segments.value, symbols, relocations.value, !hasStaticTable));
  }
}
