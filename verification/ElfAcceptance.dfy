// Which files the ELF parser accepts, stated on their bytes: every field at its place in the
// record, every limit in numbers.

module ElfAcceptance {
  import opened Common
  import opened ElfFile
  import opened ElfReader
  import opened ElfRoundTrip
  import opened ElfSymbols
  import opened Slices

  // ---------- the header ----------

  // The identification names class, byte order and version.
  predicate IdentSound(bytes: Image)
    requires |bytes| >= 16
  {
    && bytes[..4] == [0x7F, 0x45, 0x4C, 0x46]
    && 1 <= bytes[4] <= 2 && 1 <= bytes[5] <= 2 && bytes[6] == 1
  }

  function OrderOf(bytes: Image): Endianness
    requires |bytes| >= 16
  {
    if bytes[5] == 1 then Little else Big
  }

  // The half word at an offset.
  function HalfAt(bytes: Image, offset: nat): nat
    requires 16 <= offset && offset + 2 <= |bytes|
  {
    var first: nat, second: nat := bytes[offset], bytes[offset + 1];
    if bytes[5] == 1 then first + 256 * second else 256 * first + second
  }

  // The header is there, of version 1, and no record size is too small for a record.
  predicate FieldsSound(bytes: Image)
    requires |bytes| >= 16
  {
    if bytes[4] == 2 then
      && |bytes| >= 64 && Reader(bytes, OrderOf(bytes)).U32(20) == Ok(1)
      && HalfAt(bytes, 52) >= 64
      && (HalfAt(bytes, 56) == 0 || HalfAt(bytes, 54) >= 56)
      && (HalfAt(bytes, 60) == 0 || HalfAt(bytes, 58) >= 64)
    else
      && |bytes| >= 52 && Reader(bytes, OrderOf(bytes)).U32(20) == Ok(1)
      && HalfAt(bytes, 40) >= 52
      && (HalfAt(bytes, 44) == 0 || HalfAt(bytes, 42) >= 32)
      && (HalfAt(bytes, 48) == 0 || HalfAt(bytes, 46) >= 40)
  }

  lemma HalfReads(bytes: Image, offset: nat)
    requires 16 <= offset && offset + 2 <= |bytes|
    ensures Reader(bytes, OrderOf(bytes)).U16(offset) == Ok(HalfAt(bytes, offset))
  {
    var s := bytes[offset..offset + 2];
    assert s[1..] == [s[1]] && s[..1] == [s[0]];
    assert LittleEndian([s[1]]) == s[1] && BigEndian([s[0]]) == s[0];
  }

  lemma HeaderAcceptedIff(bytes: Image)
    ensures ParseHeader(bytes).Ok? <==> |bytes| >= 16 && IdentSound(bytes) && FieldsSound(bytes)
    ensures |bytes| < 16 ==> ParseHeader(bytes) == Err(MalformedInput)
    ensures |bytes| >= 16 && !IdentSound(bytes) ==> ParseHeader(bytes) == Err(UnsupportedFormat)
  {
    hide Reader.U16, Reader.U32, Reader.U64, HalfAt;
    if |bytes| >= 16 && IdentSound(bytes) {
      IdentAccepted(bytes);
      if bytes[4] == 2 && |bytes| >= 64 {
        HalfReads(bytes, 52);
        HalfReads(bytes, 54);
        HalfReads(bytes, 56);
        HalfReads(bytes, 58);
        HalfReads(bytes, 60);
      } else if bytes[4] == 1 && |bytes| >= 52 {
        HalfReads(bytes, 40);
        HalfReads(bytes, 42);
        HalfReads(bytes, 44);
        HalfReads(bytes, 46);
        HalfReads(bytes, 48);
      }
    }
  }

  lemma IdentAccepted(bytes: Image)
    requires |bytes| >= 16
    ensures IdentSound(bytes) <==> IdentError(bytes).None?
  {
  }

  // ---------- names ----------

  // A name can be read: it is empty, or a zero byte ends it.
  predicate Terminated(table: seq<byte>, offset: nat) {
    offset == 0 || exists end :: offset <= end < |table| && table[end] == 0
  }

  lemma NameAcceptedIff(table: seq<byte>, offset: uint32)
    ensures NameOf(table, offset).Ok? <==> Terminated(table, offset)
  {
    NameEndsAtFirstZero(table, offset);
  }

  // ---------- the section table ----------

  // Where the i-th section header belongs.
  function Place(h: Header, i: nat): nat {
    h.sectionHeaderOffset + i * h.sectionHeaderEntrySize
  }

  // The i-th header stands in the image, and so do the section's bytes, which one of kind 8
  // does not have.
  predicate SectionStands(bytes: Image, h: Header, i: nat) {
    var reader, p := Reader(bytes, h.endianness), Place(h, i);
    && p + (if h.class_.Elf64? then 64 else 40) <= |bytes|
    && (reader.U32(p + 4) == Ok(8)
        || if h.class_.Elf64? then reader.U64(p + 24).value + reader.U64(p + 32).value <= |bytes|
           else reader.U32(p + 16).value + reader.U32(p + 20).value <= |bytes|)
  }

  predicate TableStands(bytes: Image, h: Header) {
    && h.sectionHeaderCount <= 65535
    && h.sectionHeaderOffset + h.sectionHeaderCount * h.sectionHeaderEntrySize <= |bytes|
    && forall i | 0 <= i < h.sectionHeaderCount :: SectionStands(bytes, h, i)
  }

  function BytesOf(bytes: Image, h: Header, i: nat): seq<byte>
    requires SectionStands(bytes, h, i)
  {
    var reader, p := Reader(bytes, h.endianness), Place(h, i);
    if reader.U32(p + 4) == Ok(8) then []
    else if h.class_.Elf64? then
      bytes[reader.U64(p + 24).value..reader.U64(p + 24).value + reader.U64(p + 32).value]
    else
      bytes[reader.U32(p + 16).value..reader.U32(p + 16).value + reader.U32(p + 20).value]
  }

  predicate NameStands(bytes: Image, h: Header, names: seq<byte>, i: nat)
    requires SectionStands(bytes, h, i)
  {
    Terminated(names, Reader(bytes, h.endianness).U32(Place(h, i)).value)
  }

  // The section that the header points at ends every section's name.
  predicate NamesStand(bytes: Image, h: Header)
    requires TableStands(bytes, h)
  {
    h.sectionHeaderCount > 0 ==>
      && h.sectionNameIndex < h.sectionHeaderCount
      && var names := BytesOf(bytes, h, h.sectionNameIndex);
      forall i | 0 <= i < h.sectionHeaderCount :: NameStands(bytes, h, names, i)
  }

  // What the reader makes of one section header.
  lemma SectionAcceptedIff(bytes: Image, h: Header, i: nat, names: seq<byte>)
    requires SectionTable(bytes, h) && i < h.sectionHeaderCount
    ensures var r := SectionOf(bytes, h, i);
      && (r.Ok? && SectionInside(r.value, bytes) <==> SectionStands(bytes, h, i))
      && (SectionStands(bytes, h, i) ==>
            && Contents(r.value, bytes) == BytesOf(bytes, h, i)
            && (NameOf(names, r.value.nameOffset).Ok? <==> NameStands(bytes, h, names, i)))
  {
    hide Reader.U16, Reader.U32, Reader.U64, Terminated, NameOf;
    var r := SectionOf(bytes, h, i);
    if r.Ok? {
      NameAcceptedIff(names, r.value.nameOffset);
    }
  }

  lemma TableAcceptedIff(bytes: Image, h: Header)
    requires SectionTable(bytes, h)
    ensures TableStands(bytes, h) <==>
      SectionsReadable(bytes, h, h.sectionHeaderCount) && SectionsInside(RawSections(bytes, h), bytes)
  {
    hide SectionOf, SectionInside, SectionStands, Contents, BytesOf, NameStands, NameOf;
    forall i | 0 <= i < h.sectionHeaderCount
      ensures SectionOf(bytes, h, i).Ok? && SectionInside(SectionOf(bytes, h, i).value, bytes)
         <==> SectionStands(bytes, h, i)
    {
      SectionAcceptedIff(bytes, h, i, []);
    }
    if SectionsReadable(bytes, h, h.sectionHeaderCount) && SectionsInside(RawSections(bytes, h), bytes) {
      RawStand(bytes, h);
    }
  }

  lemma RawStand(bytes: Image, h: Header)
    requires SectionTable(bytes, h)
    requires SectionsReadable(bytes, h, h.sectionHeaderCount) && SectionsInside(RawSections(bytes, h), bytes)
    ensures forall i | 0 <= i < h.sectionHeaderCount :: SectionStands(bytes, h, i)
  {
    hide SectionOf, SectionInside, SectionStands, SectionTable, Contents, BytesOf, NameStands, NameOf;
    var raw := RawSections(bytes, h);
    forall i | 0 <= i < h.sectionHeaderCount ensures SectionStands(bytes, h, i) {
      assert SectionInside(raw[i], bytes);
      SectionAcceptedIff(bytes, h, i, []);
    }
  }

  lemma NamesAcceptedIff(bytes: Image, h: Header)
    requires SectionTable(bytes, h) && TableStands(bytes, h) && h.sectionNameIndex < h.sectionHeaderCount
    requires SectionsReadable(bytes, h, h.sectionHeaderCount) && SectionsInside(RawSections(bytes, h), bytes)
    ensures var raw := RawSections(bytes, h);
      NamesReadable(raw, Contents(raw[h.sectionNameIndex], bytes)) <==> NamesStand(bytes, h)
  {
    hide SectionOf, SectionInside, SectionStands, NameOf, BytesOf, Contents, NameStands, SectionTable;
    var raw, names := RawSections(bytes, h), BytesOf(bytes, h, h.sectionNameIndex);
    SectionAcceptedIff(bytes, h, h.sectionNameIndex, names);
    forall i | 0 <= i < h.sectionHeaderCount
      ensures NameOf(names, raw[i].nameOffset).Ok? <==> NameStands(bytes, h, names, i)
    {
      SectionAcceptedIff(bytes, h, i, names);
    }
  }

  // A section table is accepted exactly when it stands, sections and names with it.
  lemma SectionsAcceptedIff(bytes: Image, h: Header)
    ensures SectionsAccepted(bytes, h) <==> TableStands(bytes, h) && NamesStand(bytes, h)
  {
    hide SectionOf, SectionInside, SectionStands, NameOf, BytesOf, Contents, NameStands, NamesReadable, RawSections,
      SectionsReadable, SectionsInside;
    if SectionTable(bytes, h) {
      TableAcceptedIff(bytes, h);
      if TableStands(bytes, h) && h.sectionNameIndex < h.sectionHeaderCount {
        NamesAcceptedIff(bytes, h);
      }
    }
  }

  // The file says that it has no sections, or the header's numbers, some of them from section
  // zero, lead to a table that stands.
  predicate SectionsStand(bytes: Image, h: Header) {
    || (h.sectionHeaderCount == 0 && h.sectionHeaderOffset == 0)
    || (h.sectionHeaderEntrySize > 0 && NumbersStand(bytes, h)
        && var full := Extended(Reader(bytes, h.endianness), h).value;
        TableStands(bytes, full) && NamesStand(bytes, full))
  }

  lemma LoadedIff(bytes: Image, h: Header)
    ensures LoadSections(bytes, h).Some? <==> SectionsStand(bytes, h)
  {
    hide TableStands, NamesStand, SectionsAccepted, ParseSectionHeader, NamedSections;
    var extended := Extended(Reader(bytes, h.endianness), h);
    if extended.Ok? {
      SectionsAcceptedIff(bytes, extended.value);
    }
  }

  // The numbers are in the header, or section zero is there to hold them.
  predicate NumbersStand(bytes: Image, h: Header)
    ensures NumbersStand(bytes, h) <==> Extended(Reader(bytes, h.endianness), h).Ok?
  {
    hide ParseSectionHeader;
    || (h.sectionHeaderCount != 0 && h.sectionNameIndex != 0xFFFF && h.programHeaderCount != 0xFFFF)
    || (&& h.sectionHeaderOffset + h.sectionHeaderEntrySize <= |bytes|
        && h.sectionHeaderOffset + (if h.class_.Elf64? then 64 else 40) <= |bytes|)
  }

  // ---------- segments ----------

  // The i-th program header stands in the image, and so do the segment's bytes.
  predicate SegmentStands(bytes: Image, h: Header, i: nat) {
    var reader, p := Reader(bytes, h.endianness), h.programHeaderOffset + i * h.programHeaderEntrySize;
    && p + (if h.class_.Elf64? then 56 else 32) <= |bytes|
    && if h.class_.Elf64? then reader.U64(p + 8).value + reader.U64(p + 32).value <= |bytes|
       else reader.U32(p + 4).value + reader.U32(p + 16).value <= |bytes|
  }

  predicate SegmentsStand(bytes: Image, h: Header) {
    h.programHeaderCount > 0 ==>
      && h.programHeaderOffset + h.programHeaderCount * h.programHeaderEntrySize <= |bytes|
      && forall i | 0 <= i < h.programHeaderCount :: SegmentStands(bytes, h, i)
  }

  lemma SegmentsAcceptedIff(bytes: Image, h: Header)
    requires SoundHeader(h, bytes)
    ensures SegmentsAccepted(bytes, h) <==> SegmentsStand(bytes, h)
  {
    hide SegmentInside, SegmentOf, SoundHeader, SegmentStands;
    if SegmentTable(bytes, h) {
      forall i | 0 <= i < h.programHeaderCount
        ensures SegmentInside(SegmentOf(bytes, h, i), bytes) <==> SegmentStands(bytes, h, i)
      {
        SegmentAcceptedIff(bytes, h, i);
      }
    }
  }

  lemma SegmentAcceptedIff(bytes: Image, h: Header, i: nat)
    requires SoundHeader(h, bytes) && SegmentTable(bytes, h) && i < h.programHeaderCount
    ensures SegmentInside(SegmentOf(bytes, h, i), bytes) <==> SegmentStands(bytes, h, i)
  {
    var p := SegmentOffset(bytes, h, i);
    hide SoundHeader, SegmentTable, Reader.U16, Reader.U32, Reader.U64;
  }

  // ---------- symbols and relocations ----------

  // Where the k-th entry of a table stands.
  function EntryPlace(s: Section, length: nat, k: nat): nat {
    s.offset + k * (if s.entrySize == 0 then length else s.entrySize)
  }

  function EntriesIn(s: Section, length: nat): nat
    requires length > 0
  {
    s.size / if s.entrySize == 0 then length else s.entrySize
  }

  function SymbolLength(c: Class): (length: nat)
    ensures length > 0
  {
    if c.Elf64? then 24 else 16
  }

  // A symbol table is made of whole entries, linked to a string table, and every name in it
  // can be read.
  predicate SymbolsStand(bytes: Image, h: Header, sections: seq<Section>, s: Section)
    requires SectionsInside(sections, bytes)
  {
    && SoundSymbolTable(h.class_, sections, s)
    && forall k | 0 <= k < EntriesIn(s, SymbolLength(h.class_)) :: SymbolStands(bytes, h, sections, s, k)
  }

  lemma SymbolsReadableIff(bytes: Image, h: Header, sections: seq<Section>, s: Section)
    requires SectionsInside(sections, bytes) && SectionInside(s, bytes) && IsSymbolTable(s)
    ensures SymbolsReadable(bytes, h, sections, s) <==> SymbolsStand(bytes, h, sections, s)
  {
    SymbolTablesAgree(h.class_, sections, s);
    hide SectionInside, SymbolOf, SymbolStands, Contents, Whole, WholeEntries;
    if SoundSymbolTable(h.class_, sections, s) {
      assert EntriesIn(s, SymbolLength(h.class_)) == EntryCount(s, SymbolSize(h.class_));
      hide EntriesIn, EntryCount, SymbolLength, SymbolSize;
      forall k | 0 <= k < EntryCount(s, SymbolSize(h.class_))
        ensures SymbolOf(bytes, h, sections, s, k).Ok? <==> SymbolStands(bytes, h, sections, s, k)
      {
        SymbolReadableIff(bytes, h, sections, s, k);
      }
    }
  }

  // The k-th entry has a name that can be read.
  predicate SymbolStands(bytes: Image, h: Header, sections: seq<Section>, s: Section, k: nat)
    requires SectionsInside(sections, bytes) && s.link < |sections|
  {
    var p := EntryPlace(s, SymbolLength(h.class_), k);
    p + 4 <= |bytes| && Terminated(Contents(sections[s.link], bytes), Reader(bytes, h.endianness).U32(p).value)
  }

  lemma SymbolReadableIff(bytes: Image, h: Header, sections: seq<Section>, s: Section, k: nat)
    requires SectionsInside(sections, bytes) && SectionInside(s, bytes) && IsSymbolTable(s)
    requires SymbolTableSound(h.class_, sections, s) && k < EntryCount(s, SymbolSize(h.class_))
    ensures SymbolOf(bytes, h, sections, s, k).Ok? <==> SymbolStands(bytes, h, sections, s, k)
  {
    var p := EntryOffset(bytes, s, SymbolSize(h.class_), k);
    assert p == EntryPlace(s, SymbolLength(h.class_), k);
    hide Contents, ParseSymbol, NameOf, Terminated, Reader.U32, EntryOffset, SectionInside, SymbolTableSound, EntryCount;
    NameAcceptedIff(Contents(sections[s.link], bytes), Reader(bytes, h.endianness).U32(p).value);
  }

  // The symbol number of an entry: the upper half of the info word.
  function SymbolNumber(bytes: Image, h: Header, p: nat): nat
    requires p + (if h.class_.Elf64? then 16 else 8) <= |bytes|
  {
    var reader := Reader(bytes, h.endianness);
    if h.class_.Elf64? then reader.U64(p + 8).value / 0x1_0000_0000 else reader.U32(p + 4).value / 256
  }

  // The k-th entry names no symbol or one of the linked section's.
  predicate RelocationStands(bytes: Image, h: Header, sections: seq<Section>, s: Section, k: nat)
    requires SectionsInside(sections, bytes) && s.link < |sections|
  {
    var p := EntryPlace(s, RelocationLength(h.class_, s), k);
    && p + (if h.class_.Elf64? then 16 else 8) <= |bytes|
    && (SymbolNumber(bytes, h, p) == 0 || SymbolNumber(bytes, h, p) < |LinkedSymbols(bytes, h, sections, s)|)
  }

  // A relocation table is made of whole entries, linked to a section, and every entry names
  // no symbol or one of that section's.
  predicate RelocationsStand(bytes: Image, h: Header, sections: seq<Section>, s: Section)
    requires SectionsInside(sections, bytes)
  {
    && SoundRelocationTable(h.class_, sections, s)
    && forall k | 0 <= k < EntriesIn(s, RelocationLength(h.class_, s)) :: RelocationStands(bytes, h, sections, s, k)
  }

  lemma RelocationsReadableIff(bytes: Image, h: Header, sections: seq<Section>, s: Section)
    requires SectionsInside(sections, bytes) && SectionInside(s, bytes) && IsRelocationTable(s)
    ensures RelocationsReadable(bytes, h, sections, s) <==> RelocationsStand(bytes, h, sections, s)
  {
    RelocationTablesAgree(h.class_, sections, s);
    hide SectionInside, RelocationOf, RelocationStands, LinkedSymbols, Whole, WholeEntries;
    if SoundRelocationTable(h.class_, sections, s) {
      assert EntriesIn(s, RelocationLength(h.class_, s)) == EntryCount(s, RelocationSize(h.class_, s.kind == SHT_RELA));
      hide EntriesIn, EntryCount, RelocationLength, RelocationSize;
      forall k | 0 <= k < EntryCount(s, RelocationSize(h.class_, s.kind == SHT_RELA))
        ensures RelocationOf(bytes, h, sections, s, k).Ok? <==> RelocationStands(bytes, h, sections, s, k)
      {
        RelocationReadableIff(bytes, h, sections, s, k);
      }
    }
  }

  lemma RelocationReadableIff(bytes: Image, h: Header, sections: seq<Section>, s: Section, k: nat)
    requires SectionsInside(sections, bytes) && SectionInside(s, bytes) && IsRelocationTable(s)
    requires RelocationTableSound(h.class_, sections, s)
    requires k < EntryCount(s, RelocationSize(h.class_, s.kind == SHT_RELA))
    ensures RelocationOf(bytes, h, sections, s, k).Ok? <==> RelocationStands(bytes, h, sections, s, k)
  {
    var p := EntryOffset(bytes, s, RelocationSize(h.class_, s.kind == SHT_RELA), k);
    assert p == EntryPlace(s, RelocationLength(h.class_, s), k);
    hide LinkedSymbols, Reader.U32, Reader.U64, EntryOffset, SectionInside, RelocationTableSound, EntryCount, EntryPlace;
  }

  // ---------- the whole file ----------

  predicate TablesStand(bytes: Image, h: Header, sections: seq<Section>)
    requires SectionsInside(sections, bytes)
  {
    && (forall i | 0 <= i < |sections| && (sections[i].kind == 2 || sections[i].kind == 11) ::
          SymbolsStand(bytes, h, sections, sections[i]))
    && (forall i | 0 <= i < |sections| && (sections[i].kind == 4 || sections[i].kind == 9) ::
          RelocationsStand(bytes, h, sections, sections[i]))
  }

  // Every symbol table (kinds 2 and 11) and relocation table (4 and 9) can be read.
  lemma TablesReadableIff(bytes: Image, h: Header, sections: seq<Section>)
    requires SectionsInside(sections, bytes)
    ensures TablesStand(bytes, h, sections) <==>
      AllSymbolsReadable(bytes, h, sections, |sections|) && AllRelocationsReadable(bytes, h, sections, |sections|)
  {
    hide SectionInside, SymbolsStand, RelocationsStand, SymbolsReadable, RelocationsReadable;
    forall i | 0 <= i < |sections| && IsSymbolTable(sections[i])
      ensures SymbolsReadable(bytes, h, sections, sections[i]) <==> SymbolsStand(bytes, h, sections, sections[i])
    {
      SymbolsReadableIff(bytes, h, sections, sections[i]);
    }
    forall i | 0 <= i < |sections| && IsRelocationTable(sections[i])
      ensures RelocationsReadable(bytes, h, sections, sections[i]) <==> RelocationsStand(bytes, h, sections, sections[i])
    {
      RelocationsReadableIff(bytes, h, sections, sections[i]);
    }
  }

  // A file is accepted exactly when its header is sound and sections, segments and tables
  // stand in its bytes.
  lemma AcceptedIff(bytes: Image)
    ensures Accepted(bytes) <==>
      && |bytes| >= 16 && IdentSound(bytes) && FieldsSound(bytes)
      && ParseHeader(bytes).Ok?
      && SectionsStand(bytes, ParseHeader(bytes).value)
      && var loaded := LoadSections(bytes, ParseHeader(bytes).value);
      && loaded.Some?
      && SegmentsStand(bytes, loaded.value.header)
      && TablesStand(bytes, loaded.value.header, loaded.value.sections)
  {
    hide SectionsAccepted, LoadSections, SegmentsAccepted, ParseHeader, SectionInside, SoundHeader, AllSymbolsReadable,
      AllRelocationsReadable, IdentSound, FieldsSound, SectionsStand, SegmentsStand, TablesStand;
    HeaderAcceptedIff(bytes);
    if ParseHeader(bytes).Ok? {
      LoadedIff(bytes, ParseHeader(bytes).value);
      var loaded := LoadSections(bytes, ParseHeader(bytes).value);
      if loaded.Some? {
        SegmentsAcceptedIff(bytes, loaded.value.header);
        TablesReadableIff(bytes, loaded.value.header, loaded.value.sections);
      }
    }
  }
}
