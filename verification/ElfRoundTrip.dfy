// A whole ELF image and its parts: header, segments, sections, symbols and relocations,
// written as records, are what the parser reads back.

module ElfRoundTrip {
  import opened Arithmetic
  import opened Common
  import opened ElfFile
  import opened ElfLayout
  import opened ElfReader
  import opened ElfSymbols
  import opened Slices

  // The entries stand beside the section that holds them; other sections have none.
  datatype Parts = Parts(
    header: Header,
    segments: seq<Segment>,
    sections: seq<Section>,
    symbols: seq<seq<SymbolEntry>>,
    relocations: seq<seq<RelocationEntry>>)

  // ---------- records of either class ----------

  predicate SegmentFits(c: Class, s: Segment) {
    c.Elf32? ==> NarrowSegment(s)
  }

  function SegmentBytes(c: Class, e: Endianness, s: Segment): seq<byte>
    requires SegmentFits(c, s)
  {
    if c.Elf64? then SegmentBytes64(e, s) else SegmentBytes32(e, s)
  }

  predicate SectionFits(c: Class, s: Section) {
    s.executable == (s.flags / 4 % 2 == 1) && (c.Elf32? ==> Narrow(s))
  }

  predicate SymbolFits(c: Class, s: SymbolEntry) {
    Coded(s) && (c.Elf32? ==> s.address < TWO32 && s.size < TWO32)
  }

  function SymbolBytes(c: Class, e: Endianness, s: SymbolEntry): seq<byte>
    requires SymbolFits(c, s)
  {
    if c.Elf64? then SymbolBytes64(e, s) else SymbolBytes32(e, s)
  }

  predicate RelocationFits(c: Class, r: RelocationEntry) {
    if c.Elf64? then WideEntry(r) else NarrowEntry(r)
  }

  function RelocationBytes(c: Class, e: Endianness, r: RelocationEntry, hasAddend: bool): seq<byte>
    requires RelocationFits(c, r)
  {
    if c.Elf64? then RelocationBytes64(e, r, hasAddend) else RelocationBytes32(e, r, hasAddend)
  }

  // ---------- an image that holds its parts ----------

  // The counts stand in the header itself.
  predicate CountsInHeader(h: Header) {
    && PlainHeader(h)
    && h.sectionNameIndex != 0xFFFF && h.programHeaderCount != 0xFFFF
    && (h.sectionHeaderCount == 0 ==> h.sectionHeaderOffset == 0)
  }

  predicate HoldsHeader(bytes: Image, h: Header, rest: seq<byte>, flags: uint32) {
    CountsInHeader(h) && |rest| == 9 && At(bytes, 0, Ident(h, rest) + HeaderBytes(h, flags))
  }

  predicate HoldsSegments(bytes: Image, h: Header, segments: seq<Segment>) {
    && |segments| == h.programHeaderCount && (segments != [] ==> SegmentTable(bytes, h))
    && forall i | 0 <= i < |segments| :: HoldsSegment(bytes, h, i, segments[i])
  }

  predicate HoldsSegment(bytes: Image, h: Header, i: nat, s: Segment) {
    && SegmentFits(h.class_, s) && s.offset + s.fileSize <= |bytes|
    && At(bytes, h.programHeaderOffset + i * h.programHeaderEntrySize, SegmentBytes(h.class_, h.endianness, s))
  }

  // The header of a section, which does not hold the name itself.
  function Unnamed(s: Section): Section {
    s.(name := [])
  }

  predicate HoldsSection(bytes: Image, h: Header, i: nat, s: Section) {
    && s.index == i && SectionFits(h.class_, s) && (s.kind == 8 || s.offset + s.size <= |bytes|)
    && At(bytes, h.sectionHeaderOffset + i * h.sectionHeaderEntrySize, SectionBytes(h.class_, h.endianness, Unnamed(s)))
  }

  // The names stand in the section that the header points at.
  predicate HoldsNames(bytes: Image, h: Header, sections: seq<Section>)
    requires SectionsInside(sections, bytes)
  {
    sections != [] ==>
      && h.sectionNameIndex < |sections|
      && var names := Contents(sections[h.sectionNameIndex], bytes);
      forall i | 0 <= i < |sections| :: NameOf(names, sections[i].nameOffset) == Ok(sections[i].name)
  }

  predicate HoldsSections(bytes: Image, h: Header, sections: seq<Section>) {
    && SectionTable(bytes, h) && |sections| == h.sectionHeaderCount
    && (forall i | 0 <= i < |sections| :: HoldsSection(bytes, h, i, sections[i]))
    && HoldsNames(bytes, h, sections)
  }

  // ---------- sections read back ----------

  lemma SectionReadsBack(bytes: Image, h: Header, i: nat, s: Section)
    requires SectionTable(bytes, h) && i < h.sectionHeaderCount && HoldsSection(bytes, h, i, s)
    ensures SectionOf(bytes, h, i) == Ok(Unnamed(s))
  {
    hide At, ParseSectionHeader, SectionBytes64, SectionBytes32;
    var reader := Reader(bytes, h.endianness);
    if h.class_.Elf64? {
      SectionRoundTrip64(reader, SectionOffset(bytes, h, i), Unnamed(s));
    } else {
      SectionRoundTrip32(reader, SectionOffset(bytes, h, i), Unnamed(s));
    }
  }

  lemma InsideAgrees(bytes: Image, s: Section)
    ensures SectionInside(s, bytes) <==> s.kind == 8 || s.offset + s.size <= |bytes|
  {
  }

  lemma SectionsReadBack(bytes: Image, h: Header, sections: seq<Section>)
    requires CountsInHeader(h) && HoldsSections(bytes, h, sections)
    ensures LoadSections(bytes, h) == Some(Loaded(h, sections))
  {
    hide HoldsSection, SectionOf, SectionTable, NameOf;
    HeldInside(bytes, h, sections);
    if h.sectionHeaderCount > 0 {
      forall i | 0 <= i < |sections| ensures SectionOf(bytes, h, i) == Ok(Unnamed(sections[i])) {
        SectionReadsBack(bytes, h, i, sections[i]);
      }
      RawReadsBack(bytes, h, sections);
    }
  }

  lemma HeldInside(bytes: Image, h: Header, sections: seq<Section>)
    requires HoldsSections(bytes, h, sections)
    ensures SectionsInside(sections, bytes)
  {
  }

  lemma RawReadsBack(bytes: Image, h: Header, sections: seq<Section>)
    requires SectionTable(bytes, h) && |sections| == h.sectionHeaderCount > 0
    requires forall i | 0 <= i < |sections| :: SectionOf(bytes, h, i) == Ok(Unnamed(sections[i]))
    requires SectionsInside(sections, bytes) && HoldsNames(bytes, h, sections)
    ensures SectionsAccepted(bytes, h) && NamedSections(bytes, h) == sections
  {
    hide SectionOf, SectionTable, NameOf;
    var raw := RawSections(bytes, h);
    assert forall i | 0 <= i < |sections| :: raw[i] == Unnamed(sections[i]);
    assert Contents(raw[h.sectionNameIndex], bytes) == Contents(sections[h.sectionNameIndex], bytes);
    assert NamedSections(bytes, h) == sections;
  }

  // ---------- segments read back ----------

  lemma SegmentReadsBack(bytes: Image, h: Header, i: nat, s: Segment)
    requires SoundHeader(h, bytes) && SegmentTable(bytes, h) && i < h.programHeaderCount && HoldsSegment(bytes, h, i, s)
    ensures SegmentOf(bytes, h, i) == s
  {
    hide At, SegmentAt, SegmentBytes64, SegmentBytes32;
    var reader := Reader(bytes, h.endianness);
    if h.class_.Elf64? {
      SegmentRoundTrip64(reader, SegmentOffset(bytes, h, i), s);
    } else {
      SegmentRoundTrip32(reader, SegmentOffset(bytes, h, i), s);
    }
  }

  lemma SegmentsReadBack(bytes: Image, h: Header, segments: seq<Segment>)
    requires SoundHeader(h, bytes) && HoldsSegments(bytes, h, segments)
    ensures SegmentsAccepted(bytes, h) && SegmentsOf(bytes, h) == segments
  {
    hide SegmentTable, SoundHeader, SegmentOf, SegmentFits, SegmentBytes, At;
    forall i | 0 <= i < |segments| ensures SegmentOf(bytes, h, i) == segments[i] {
      SegmentReadsBack(bytes, h, i, segments[i]);
    }
    assert SegmentsOf(bytes, h) == segments;
  }

  // ---------- symbols read back ----------

  // The section's bytes are whole entries, none smaller than the record.
  predicate Whole(s: Section, length: nat) {
    && length > 0 && (s.entrySize == 0 || s.entrySize >= length)
    && s.size % (if s.entrySize == 0 then length else s.entrySize) == 0
  }

  // A table of symbol records (kinds 2 and 11) linked to a string table (kind 3).
  predicate SoundSymbolTable(c: Class, sections: seq<Section>, s: Section) {
    && (s.kind == 2 || s.kind == 11)
    && Whole(s, if c.Elf64? then 24 else 16)
    && s.link < |sections| && sections[s.link].kind == 3
  }

  // The section is a sound symbol table and holds the entries, all with readable names.
  predicate HoldsSymbols(bytes: Image, h: Header, sections: seq<Section>, s: Section, entries: seq<SymbolEntry>)
    requires SectionsInside(sections, bytes) && SectionInside(s, bytes)
  {
    if s.kind != 2 && s.kind != 11 then entries == []
    else
      && SoundSymbolTable(h.class_, sections, s)
      && |entries| == s.size / (if s.entrySize != 0 then s.entrySize else if h.class_.Elf64? then 24 else 16)
      && forall k | 0 <= k < |entries| :: HoldsSymbol(bytes, h, sections, s, k, entries[k])
  }

  predicate HoldsSymbol(bytes: Image, h: Header, sections: seq<Section>, s: Section, k: nat, entry: SymbolEntry)
    requires SectionsInside(sections, bytes) && SectionInside(s, bytes) && IsSymbolTable(s)
    requires SymbolTableSound(h.class_, sections, s) && k < EntryCount(s, SymbolSize(h.class_))
  {
    && SymbolFits(h.class_, entry)
    && At(bytes, EntryOffset(bytes, s, SymbolSize(h.class_), k), SymbolBytes(h.class_, h.endianness, entry))
    && NameOf(Contents(sections[s.link], bytes), entry.nameOffset).Ok?
  }

  // The entry with its name.
  function NamedSymbol(bytes: Image, sections: seq<Section>, s: Section, entry: SymbolEntry): Symbol
    requires SectionsInside(sections, bytes) && s.link < |sections|
    requires NameOf(Contents(sections[s.link], bytes), entry.nameOffset).Ok?
  {
    Resolve(entry, NameOf(Contents(sections[s.link], bytes), entry.nameOffset).value, s.kind == 11)
  }

  function NamedSymbols(bytes: Image, h: Header, sections: seq<Section>, s: Section, entries: seq<SymbolEntry>):
    (symbols: seq<Symbol>)
    requires SectionsInside(sections, bytes) && SectionInside(s, bytes)
    requires HoldsSymbols(bytes, h, sections, s, entries)
    ensures |symbols| == |entries|
  {
    seq(|entries|, k requires 0 <= k < |entries| => NamedSymbol(bytes, sections, s, entries[k]))
  }

  lemma SymbolReadsBack(bytes: Image, h: Header, sections: seq<Section>, s: Section, k: nat, entry: SymbolEntry)
    requires SectionsInside(sections, bytes) && SectionInside(s, bytes) && IsSymbolTable(s)
    requires SymbolTableSound(h.class_, sections, s) && k < EntryCount(s, SymbolSize(h.class_))
    requires HoldsSymbol(bytes, h, sections, s, k, entry)
    ensures SymbolOf(bytes, h, sections, s, k) == Ok(NamedSymbol(bytes, sections, s, entry))
  {
    hide At, ParseSymbol, SymbolBytes64, SymbolBytes32, NameOf, Contents, SectionInside, EntryOffset;
    var reader, strings := Reader(bytes, h.endianness), Contents(sections[s.link], bytes);
    var p := EntryOffset(bytes, s, SymbolSize(h.class_), k);
    if h.class_.Elf64? {
      SymbolRoundTrip64(reader, p, entry, strings, s.kind == SHT_DYNSYM);
    } else {
      SymbolRoundTrip32(reader, p, entry, strings, s.kind == SHT_DYNSYM);
    }
  }

  // These are the tables that the reader takes for sound ones, of as many entries.
  lemma SymbolTablesAgree(c: Class, sections: seq<Section>, s: Section)
    ensures SoundSymbolTable(c, sections, s) <==> IsSymbolTable(s) && SymbolTableSound(c, sections, s)
    ensures SoundSymbolTable(c, sections, s) ==>
      EntryCount(s, SymbolSize(c)) == s.size / (if s.entrySize != 0 then s.entrySize else if c.Elf64? then 24 else 16)
  {
  }

  lemma SymbolTableReadsBack(bytes: Image, h: Header, sections: seq<Section>, s: Section, entries: seq<SymbolEntry>)
    requires SectionsInside(sections, bytes) && SectionInside(s, bytes)
    requires HoldsSymbols(bytes, h, sections, s, entries)
    ensures IsSymbolTable(s) ==> SymbolsReadable(bytes, h, sections, s)
    ensures SymbolsIn(bytes, h, sections, s) == NamedSymbols(bytes, h, sections, s, entries)
  {
    hide SymbolOf, SectionInside, NamedSymbol, SymbolFits, SymbolBytes, EntryOffset, At, NameOf, Contents, WholeEntries;
    if IsSymbolTable(s) {
      SymbolTablesAgree(h.class_, sections, s);
      forall k | 0 <= k < |entries|
        ensures SymbolOf(bytes, h, sections, s, k) == Ok(NamedSymbol(bytes, sections, s, entries[k]))
      {
        SymbolReadsBack(bytes, h, sections, s, k, entries[k]);
      }
      assert SymbolsReadable(bytes, h, sections, s);
      assert SymbolsIn(bytes, h, sections, s) == NamedSymbols(bytes, h, sections, s, entries);
    }
  }

  // ---------- relocations read back ----------

  // The length of a relocation record; those of kind 4 have an addend.
  function RelocationLength(c: Class, s: Section): nat {
    if c.Elf64? then (if s.kind == 4 then 24 else 16) else if s.kind == 4 then 12 else 8
  }

  // A table of relocation records (kinds 4 and 9) linked to a section.
  predicate SoundRelocationTable(c: Class, sections: seq<Section>, s: Section) {
    (s.kind == 4 || s.kind == 9) && s.link < |sections| && Whole(s, RelocationLength(c, s))
  }

  predicate HoldsRelocations(bytes: Image, h: Header, sections: seq<Section>, s: Section, entries: seq<RelocationEntry>)
    requires SectionsInside(sections, bytes) && SectionInside(s, bytes)
  {
    if s.kind != 4 && s.kind != 9 then entries == []
    else
      && SoundRelocationTable(h.class_, sections, s)
      && |entries| == s.size / (if s.entrySize != 0 then s.entrySize else RelocationLength(h.class_, s))
      && forall k | 0 <= k < |entries| :: HoldsRelocation(bytes, h, sections, s, k, entries[k])
  }

  // The entry stands there and names no symbol or one of the linked table.
  predicate HoldsRelocation(bytes: Image, h: Header, sections: seq<Section>, s: Section, k: nat, entry: RelocationEntry)
    requires SectionsInside(sections, bytes) && SectionInside(s, bytes) && IsRelocationTable(s)
    requires RelocationTableSound(h.class_, sections, s)
    requires k < EntryCount(s, RelocationSize(h.class_, s.kind == SHT_RELA))
  {
    && RelocationFits(h.class_, entry)
    && At(bytes, EntryOffset(bytes, s, RelocationSize(h.class_, s.kind == SHT_RELA), k),
          RelocationBytes(h.class_, h.endianness, entry, s.kind == 4))
    && SymbolKnown(entry, LinkedSymbols(bytes, h, sections, s))
  }

  function LinkedRelocations(bytes: Image, h: Header, sections: seq<Section>, s: Section, entries: seq<RelocationEntry>):
    (relocations: seq<Relocation>)
    requires SectionsInside(sections, bytes) && SectionInside(s, bytes)
    requires HoldsRelocations(bytes, h, sections, s, entries)
    ensures |relocations| == |entries|
  {
    hide LinkedSymbols, RelocationFits, Linked, At;
    seq(|entries|, k requires 0 <= k < |entries| =>
      Linked(s, entries[k], LinkedSymbols(bytes, h, sections, s)))
  }

  lemma RelocationReadsBack(bytes: Image, h: Header, sections: seq<Section>, s: Section, k: nat, entry: RelocationEntry)
    requires SectionsInside(sections, bytes) && SectionInside(s, bytes) && IsRelocationTable(s)
    requires RelocationTableSound(h.class_, sections, s)
    requires k < EntryCount(s, RelocationSize(h.class_, s.kind == SHT_RELA))
    requires HoldsRelocation(bytes, h, sections, s, k, entry)
    ensures RelocationOf(bytes, h, sections, s, k)
         == Ok(Linked(s, entry, LinkedSymbols(bytes, h, sections, s)))
  {
    hide At, ParseRelocation, RelocationBytes64, RelocationBytes32, LinkedSymbols, SectionInside, EntryOffset;
    var reader, table := Reader(bytes, h.endianness), LinkedSymbols(bytes, h, sections, s);
    var p := EntryOffset(bytes, s, RelocationSize(h.class_, s.kind == SHT_RELA), k);
    if h.class_.Elf64? {
      RelocationRoundTrip64(reader, p, s, table, entry);
    } else {
      RelocationRoundTrip32(reader, p, s, table, entry);
    }
  }

  lemma RelocationTablesAgree(c: Class, sections: seq<Section>, s: Section)
    ensures SoundRelocationTable(c, sections, s) <==> IsRelocationTable(s) && RelocationTableSound(c, sections, s)
    ensures RelocationLength(c, s) == RelocationSize(c, s.kind == SHT_RELA)
    ensures SoundRelocationTable(c, sections, s) ==>
      EntryCount(s, RelocationSize(c, s.kind == SHT_RELA))
      == s.size / (if s.entrySize != 0 then s.entrySize else RelocationLength(c, s))
  {
  }

  lemma RelocationTableReadsBack(
    bytes: Image, h: Header, sections: seq<Section>, s: Section, entries: seq<RelocationEntry>)
    requires SectionsInside(sections, bytes) && SectionInside(s, bytes)
    requires HoldsRelocations(bytes, h, sections, s, entries)
    ensures IsRelocationTable(s) ==> RelocationsReadable(bytes, h, sections, s)
    ensures RelocationsIn(bytes, h, sections, s) == LinkedRelocations(bytes, h, sections, s, entries)
  {
    hide RelocationOf, SectionInside, Linked, RelocationFits, SymbolKnown, RelocationLength, RelocationSize, RelocationBytes,
      EntryOffset, At, LinkedSymbols, WholeEntries;
    if IsRelocationTable(s) {
      RelocationTablesAgree(h.class_, sections, s);
      forall k | 0 <= k < |entries|
        ensures RelocationOf(bytes, h, sections, s, k)
             == Ok(Linked(s, entries[k], LinkedSymbols(bytes, h, sections, s)))
      {
        RelocationReadsBack(bytes, h, sections, s, k, entries[k]);
      }
      assert RelocationsReadable(bytes, h, sections, s);
      assert RelocationsIn(bytes, h, sections, s) == LinkedRelocations(bytes, h, sections, s, entries);
    }
  }

  // ---------- the whole image ----------

  predicate HoldsTables(bytes: Image, p: Parts)
    requires SectionsInside(p.sections, bytes)
  {
    && |p.symbols| == |p.relocations| == |p.sections|
    && (forall i | 0 <= i < |p.sections| :: HoldsSymbols(bytes, p.header, p.sections, p.sections[i], p.symbols[i]))
    && (forall i | 0 <= i < |p.sections| ::
          HoldsRelocations(bytes, p.header, p.sections, p.sections[i], p.relocations[i]))
  }

  // Every part stands in the image where the header and the tables say, and the rest of the
  // image is whatever it is.
  predicate Holds(bytes: Image, p: Parts, rest: seq<byte>, flags: uint32) {
    && HoldsHeader(bytes, p.header, rest, flags)
    && HoldsSegments(bytes, p.header, p.segments)
    && HoldsSections(bytes, p.header, p.sections)
    && HoldsTables(bytes, p)
  }

  function AllSymbols(bytes: Image, p: Parts, n: nat): seq<Symbol>
    requires SectionsInside(p.sections, bytes) && HoldsTables(bytes, p) && n <= |p.sections|
  {
    if n == 0 then []
    else
      AllSymbols(bytes, p, n - 1) + NamedSymbols(bytes, p.header, p.sections, p.sections[n - 1], p.symbols[n - 1])
  }

  function AllRelocations(bytes: Image, p: Parts, n: nat): seq<Relocation>
    requires SectionsInside(p.sections, bytes) && HoldsTables(bytes, p) && n <= |p.sections|
  {
    if n == 0 then []
    else
      AllRelocations(bytes, p, n - 1)
      + LinkedRelocations(bytes, p.header, p.sections, p.sections[n - 1], p.relocations[n - 1])
  }

  lemma {:induction false} SymbolsReadBack(bytes: Image, p: Parts, n: nat)
    requires SectionsInside(p.sections, bytes) && HoldsTables(bytes, p) && n <= |p.sections|
    ensures AllSymbolsReadable(bytes, p.header, p.sections, n)
    ensures SymbolsUpTo(bytes, p.header, p.sections, n) == AllSymbols(bytes, p, n)
  {
    hide SectionInside, HoldsSymbols, HoldsRelocations, SymbolsReadable, SymbolsIn, NamedSymbols, IsSymbolTable;
    if n > 0 {
      SymbolsReadBack(bytes, p, n - 1);
      SymbolTableReadsBack(bytes, p.header, p.sections, p.sections[n - 1], p.symbols[n - 1]);
    }
  }

  lemma {:induction false} RelocationsReadBack(bytes: Image, p: Parts, n: nat)
    requires SectionsInside(p.sections, bytes) && HoldsTables(bytes, p) && n <= |p.sections|
    ensures AllRelocationsReadable(bytes, p.header, p.sections, n)
    ensures RelocationsUpTo(bytes, p.header, p.sections, n) == AllRelocations(bytes, p, n)
  {
    hide SectionInside, HoldsSymbols, HoldsRelocations, RelocationsReadable, RelocationsIn, LinkedRelocations,
      IsRelocationTable;
    if n > 0 {
      RelocationsReadBack(bytes, p, n - 1);
      RelocationTableReadsBack(bytes, p.header, p.sections, p.sections[n - 1], p.relocations[n - 1]);
    }
  }

  // An image that holds its parts is accepted and read as exactly those parts, for either
  // class and byte order, wherever the tables and contents stand.
  lemma ImageRoundTrip(bytes: Image, p: Parts, rest: seq<byte>, flags: uint32)
    requires Holds(bytes, p, rest, flags)
    ensures Accepted(bytes)
    ensures ImageOf(bytes)
         == ElfImage(p.header, p.sections, p.segments, AllSymbols(bytes, p, |p.sections|),
                     AllRelocations(bytes, p, |p.sections|), forall i | 0 <= i < |p.sections| :: p.sections[i].kind != 2)
  {
    hide ParseHeader, LoadSections, SegmentsAccepted, SegmentsOf, HoldsSegments, HoldsTables, SectionInside, At,
      AllSymbolsReadable, AllRelocationsReadable, SymbolsUpTo, RelocationsUpTo, AllSymbols, AllRelocations, SoundHeader,
      HoldsNames, HoldsSection, SectionTable, HeaderBytes, Ident, PlainHeader;
    HeaderRoundTrip(bytes, p.header, rest, flags);
    SectionsReadBack(bytes, p.header, p.sections);
    SegmentsReadBack(bytes, p.header, p.segments);
    SymbolsReadBack(bytes, p, |p.sections|);
    RelocationsReadBack(bytes, p, |p.sections|);
  }

  // ---------- images put together ----------

  lemma SegmentLength(c: Class, e: Endianness, s: Segment)
    requires SegmentFits(c, s)
    ensures |SegmentBytes(c, e, s)| == SegmentSize(c)
  {
    hide Put;
  }

  lemma SectionLength(c: Class, e: Endianness, s: Section)
    requires SectionFits(c, s)
    ensures |SectionBytes(c, e, s)| == SectionSize(c)
  {
    hide Put;
  }

  lemma HeaderLength(h: Header, rest: seq<byte>, flags: uint32)
    requires PlainHeader(h) && |rest| == 9
    ensures |Ident(h, rest) + HeaderBytes(h, flags)| == HeaderSize(h.class_)
  {
    hide Put, PlainHeader;
  }

  // Program headers one behind the other.
  function SegmentRecords(c: Class, e: Endianness, segments: seq<Segment>): seq<byte>
    requires forall i | 0 <= i < |segments| :: SegmentFits(c, segments[i])
  {
    if segments == [] then []
    else
      var last := |segments| - 1;
      SegmentRecords(c, e, segments[..last]) + SegmentBytes(c, e, segments[last])
  }

  // Section headers one behind the other.
  function SectionRecords(c: Class, e: Endianness, sections: seq<Section>): seq<byte>
    requires forall i | 0 <= i < |sections| :: SectionFits(c, sections[i])
  {
    if sections == [] then []
    else
      var last := |sections| - 1;
      UnnamedFits(c, sections[last]);
      SectionRecords(c, e, sections[..last]) + SectionBytes(c, e, Unnamed(sections[last]))
  }

  lemma SegmentRecordsSplit(c: Class, e: Endianness, segments: seq<Segment>)
    requires segments != [] && forall k | 0 <= k < |segments| :: SegmentFits(c, segments[k])
    ensures var last := |segments| - 1;
      SegmentRecords(c, e, segments) == SegmentRecords(c, e, segments[..last]) + SegmentBytes(c, e, segments[last])
  {
    hide SegmentBytes, SegmentFits;
  }

  lemma {:induction false} SegmentRecordAt(bytes: Image, c: Class, e: Endianness, segments: seq<Segment>, p: nat, i: nat)
    requires forall k | 0 <= k < |segments| :: SegmentFits(c, segments[k])
    requires At(bytes, p, SegmentRecords(c, e, segments)) && i < |segments|
    ensures At(bytes, p + i * SegmentSize(c), SegmentBytes(c, e, segments[i]))
    decreases |segments|
  {
    hide At, SegmentBytes, SegmentFits, SegmentSize, SegmentRecords;
    var last := |segments| - 1;
    SegmentRecordsSplit(c, e, segments);
    AtConcat(bytes, p, SegmentRecords(c, e, segments[..last]), SegmentBytes(c, e, segments[last]));
    if i < last {
      SegmentRecordAt(bytes, c, e, segments[..last], p, i);
    } else {
      SegmentRecordsLength(c, e, segments[..last]);
    }
  }

  lemma {:induction false} SegmentRecordsLength(c: Class, e: Endianness, segments: seq<Segment>)
    requires forall k | 0 <= k < |segments| :: SegmentFits(c, segments[k])
    ensures |SegmentRecords(c, e, segments)| == |segments| * SegmentSize(c)
  {
    hide SegmentBytes, SegmentFits, SegmentSize;
    if segments != [] {
      var last := |segments| - 1;
      SegmentRecordsLength(c, e, segments[..last]);
      SegmentLength(c, e, segments[last]);
      Distribute(last, 1, SegmentSize(c));
    }
  }

  lemma {:induction false} SectionRecordAt(bytes: Image, c: Class, e: Endianness, sections: seq<Section>, p: nat, i: nat)
    requires forall k | 0 <= k < |sections| :: SectionFits(c, sections[k])
    requires At(bytes, p, SectionRecords(c, e, sections)) && i < |sections|
    ensures At(bytes, p + i * SectionSize(c), SectionBytes(c, e, Unnamed(sections[i])))
    decreases |sections|
  {
    hide At, SectionBytes, SectionFits, SectionSize, Unnamed;
    var last := |sections| - 1;
    UnnamedFits(c, sections[last]);
    AtConcat(bytes, p, SectionRecords(c, e, sections[..last]), SectionBytes(c, e, Unnamed(sections[last])));
    if i < last {
      SectionRecordAt(bytes, c, e, sections[..last], p, i);
    } else {
      SectionRecordsLength(c, e, sections[..last]);
    }
  }

  lemma {:induction false} SectionRecordsLength(c: Class, e: Endianness, sections: seq<Section>)
    requires forall k | 0 <= k < |sections| :: SectionFits(c, sections[k])
    ensures |SectionRecords(c, e, sections)| == |sections| * SectionSize(c)
  {
    hide SectionBytes, SectionFits, SectionSize, Unnamed;
    if sections != [] {
      var last := |sections| - 1;
      UnnamedFits(c, sections[last]);
      SectionRecordsLength(c, e, sections[..last]);
      SectionLength(c, e, Unnamed(sections[last]));
      Distribute(last, 1, SectionSize(c));
    }
  }

  lemma UnnamedFits(c: Class, s: Section)
    requires SectionFits(c, s)
    ensures SectionFits(c, Unnamed(s)) && (c.Elf32? ==> Narrow(Unnamed(s)))
  {
  }

  // A header for tables that follow it directly, the program headers first.
  predicate Compact(p: Parts) {
    var h := p.header;
    && CountsInHeader(h)
    && |p.segments| == h.programHeaderCount && |p.sections| == h.sectionHeaderCount
    && (forall i | 0 <= i < |p.segments| :: SegmentFits(h.class_, p.segments[i]))
    && (forall i | 0 <= i < |p.sections| :: SectionFits(h.class_, p.sections[i]) && p.sections[i].index == i)
    && h.programHeaderEntrySize == SegmentSize(h.class_) && h.sectionHeaderEntrySize == SectionSize(h.class_)
    && (p.segments != [] ==> h.programHeaderOffset == HeaderSize(h.class_))
    && (p.sections != [] ==> h.sectionHeaderOffset == HeaderSize(h.class_) + |p.segments| * SegmentSize(h.class_))
  }

  // The file: header, program headers, section headers, and all contents behind them.
  function Assembled(p: Parts, rest: seq<byte>, flags: uint32, data: seq<byte>): seq<byte>
    requires Compact(p)
  {
    var h := p.header;
    (Ident(h, rest) + HeaderBytes(h, flags))
    + (SegmentRecords(h.class_, h.endianness, p.segments) + (SectionRecords(h.class_, h.endianness, p.sections) + data))
  }

  // The contents, wherever they stand in the file, are those the tables promise.
  predicate HoldsContents(bytes: Image, p: Parts) {
    && (forall i | 0 <= i < |p.segments| :: SegmentInside(p.segments[i], bytes))
    && SectionsInside(p.sections, bytes)
    && HoldsNames(bytes, p.header, p.sections)
    && HoldsTables(bytes, p)
  }

  // A file put together from its parts holds them, so it is accepted and read as they are.
  lemma AssembledReadsBack(p: Parts, rest: seq<byte>, flags: uint32, data: seq<byte>)
    requires Compact(p) && |rest| == 9 && |Assembled(p, rest, flags, data)| < 0x8000_0000_0000_0000
    requires HoldsContents(Assembled(p, rest, flags, data), p)
    ensures var bytes: Image := Assembled(p, rest, flags, data);
      && Holds(bytes, p, rest, flags) && Accepted(bytes)
      && ImageOf(bytes).header == p.header && ImageOf(bytes).sections == p.sections
      && ImageOf(bytes).segments == p.segments
      && ImageOf(bytes).symbols == AllSymbols(bytes, p, |p.sections|)
      && ImageOf(bytes).relocations == AllRelocations(bytes, p, |p.sections|)
  {
    var bytes: Image := Assembled(p, rest, flags, data);
    AssembledHolds(bytes, p, rest, flags, data);
    hide Assembled, Accepted, Holds, ImageOf, AllSymbols, AllRelocations;
    ImageRoundTrip(bytes, p, rest, flags);
  }

  lemma AssembledHolds(bytes: Image, p: Parts, rest: seq<byte>, flags: uint32, data: seq<byte>)
    requires Compact(p) && |rest| == 9 && bytes == Assembled(p, rest, flags, data) && HoldsContents(bytes, p)
    ensures Holds(bytes, p, rest, flags)
  {
    hide HeaderBytes, Ident, SegmentRecords, SectionRecords, CountsInHeader, SegmentFits, SectionFits;
    var h := p.header;
    PlainCounts(h);
    var first := Ident(h, rest) + HeaderBytes(h, flags);
    var second, third := SegmentRecords(h.class_, h.endianness, p.segments), SectionRecords(h.class_, h.endianness, p.sections);
    assert bytes[0..|bytes|] == first + (second + (third + data));
    AtConcat3(bytes, 0, first, second, third + data);
    AtConcat(bytes, |first| + |second|, third, data);
    HeaderLength(h, rest, flags);
    hide At, HoldsNames, HoldsTables, HoldsSegments, HoldsSections, SectionInside, SegmentInside, HeaderSize;
    SegmentsStand(bytes, p);
    SectionsStand(bytes, p);
  }

  // The record tables stand where a compact header has them.
  predicate RecordsAt(bytes: Image, p: Parts)
    requires Compact(p)
  {
    var h := p.header;
    var start := HeaderSize(h.class_);
    && At(bytes, start, SegmentRecords(h.class_, h.endianness, p.segments))
    && At(bytes, start + |SegmentRecords(h.class_, h.endianness, p.segments)|,
          SectionRecords(h.class_, h.endianness, p.sections))
  }

  lemma SegmentsStand(bytes: Image, p: Parts)
    requires Compact(p) && RecordsAt(bytes, p) && HoldsContents(bytes, p)
    ensures HoldsSegments(bytes, p.header, p.segments)
  {
    hide At, SegmentRecords, SectionRecords, HoldsNames, HoldsTables, CountsInHeader, SegmentFits,
      SectionsInside, SegmentSize, SectionSize, HeaderSize, SegmentBytes, SectionFits;
    var h := p.header;
    SegmentRecordsLength(h.class_, h.endianness, p.segments);
    StandsInside(bytes, HeaderSize(h.class_), SegmentRecords(h.class_, h.endianness, p.segments));
    forall i | 0 <= i < |p.segments| ensures HoldsSegment(bytes, h, i, p.segments[i]) {
      SegmentRecordAt(bytes, h.class_, h.endianness, p.segments, HeaderSize(h.class_), i);
    }
  }

  lemma SectionsStand(bytes: Image, p: Parts)
    requires Compact(p) && RecordsAt(bytes, p) && HoldsContents(bytes, p)
    ensures HoldsSections(bytes, p.header, p.sections)
  {
    hide At, SegmentRecords, SectionRecords, HoldsNames, HoldsTables, CountsInHeader, SegmentFits, SectionFits,
      SectionInside, SegmentSize, SectionSize, HeaderSize, SectionBytes, SegmentInside;
    var h := p.header;
    PlainCounts(h);
    SegmentRecordsLength(h.class_, h.endianness, p.segments);
    SectionRecordsLength(h.class_, h.endianness, p.sections);
    var start := HeaderSize(h.class_) + |p.segments| * SegmentSize(h.class_);
    StandsInside(bytes, start, SectionRecords(h.class_, h.endianness, p.sections));
    forall i | 0 <= i < |p.sections| ensures HoldsSection(bytes, h, i, p.sections[i]) {
      SectionRecordAt(bytes, h.class_, h.endianness, p.sections, start, i);
      InsideAgrees(bytes, p.sections[i]);
    }
  }

  lemma StandsInside(bytes: Image, p: nat, text: seq<byte>)
    requires At(bytes, p, text)
    ensures p + |text| <= |bytes|
  {
  }

  lemma PlainCounts(h: Header)
    requires CountsInHeader(h)
    ensures PlainHeader(h) && h.sectionHeaderCount <= MAX_SECTIONS
    ensures h.sectionHeaderCount == 0 ==> h.sectionHeaderOffset == 0
  {
  }

  // In particular every bare header is accepted, whatever follows it.
  lemma BareHeaderAccepted(h: Header, rest: seq<byte>, flags: uint32, data: seq<byte>)
    requires CountsInHeader(h) && h.programHeaderCount == 0 && h.sectionHeaderCount == 0 && |rest| == 9
    requires |data| < 0x7000_0000_0000_0000
    ensures var bytes := Ident(h, rest) + HeaderBytes(h, flags) + data;
      |bytes| < 0x8000_0000_0000_0000 && Accepted(bytes) && ImageOf(bytes) == ElfImage(h, [], [], [], [], true)
  {
    hide HeaderBytes, Ident, Accepted, ImageOf, PlainHeader, HeaderSize;
    PlainCounts(h);
    HeaderLength(h, rest, flags);
    var bytes: Image := Ident(h, rest) + HeaderBytes(h, flags) + data;
    var p := Parts(h, [], [], [], []);
    assert bytes[0..|bytes|] == Ident(h, rest) + HeaderBytes(h, flags) + data;
    AtConcat(bytes, 0, Ident(h, rest) + HeaderBytes(h, flags), data);
    assert HoldsHeader(bytes, h, rest, flags);
    assert Holds(bytes, p, rest, flags);
    ImageRoundTrip(bytes, p, rest, flags);
  }
}
