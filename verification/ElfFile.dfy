// The ELF reader: header, section table and segments.  Every
// `.value` below is an unchecked read of the original; that it is defined is proved
// where it stands.

module ElfFile {
  import opened Arithmetic
  import opened Common
  import opened ElfReader

  datatype Class = Elf32 | Elf64

  const SHT_NOBITS: uint32 := 8
  const SHN_XINDEX: uint16 := 0xFFFF
  const PN_XNUM: uint16 := 0xFFFF
  const MAX_SECTIONS: uint64 := 0xFFFF

  datatype Header = Header(
    class_: Class,
    endianness: Endianness,
    fileType: uint16,
    machine: uint16,
    entry: uint64,
    programHeaderOffset: uint64,
    sectionHeaderOffset: uint64,
    headerSize: uint16,
    programHeaderEntrySize: uint16,
    programHeaderCount: uint64,
    sectionHeaderEntrySize: uint16,
    sectionHeaderCount: uint64,
    sectionNameIndex: uint64)

  datatype Section = Section(
    name: seq<byte>,
    index: uint16,
    kind: uint32,
    flags: uint64,
    address: uint64,
    offset: uint64,
    size: uint64,
    alignment: uint64,
    executable: bool,
    nameOffset: uint32,
    link: uint32,
    info: uint32,
    entrySize: uint64)

  datatype Segment = Segment(
    kind: uint32,
    flags: uint32,
    offset: uint64,
    virtualAddress: uint64,
    physicalAddress: uint64,
    fileSize: uint64,
    memorySize: uint64,
    alignment: uint64)

  // ---------- sizes ----------

  function HeaderSize(c: Class): uint16 {
    if c.Elf64? then 64 else 52
  }

  function SegmentSize(c: Class): uint16 {
    if c.Elf64? then 56 else 32
  }

  function SectionSize(c: Class): uint16 {
    if c.Elf64? then 64 else 40
  }

  // ---------- header ----------

  // What an accepted header guarantees to the table loops.
  predicate SoundHeader(h: Header, bytes: Image) {
    && |bytes| >= HeaderSize(h.class_)
    && (h.programHeaderCount > 0 ==> h.programHeaderEntrySize >= SegmentSize(h.class_))
  }

  // The complaint about the identification bytes, if any.
  function IdentError(bytes: Image): (e: Option<ErrorCode>)
    ensures e.None? ==>
      && |bytes| >= 16 && bytes[0] == 0x7F && bytes[1] == 0x45 && bytes[2] == 0x4C && bytes[3] == 0x46
      && bytes[4] in {1, 2} && bytes[5] in {1, 2} && bytes[6] == 1
  {
    if |bytes| < 16 then Some(MalformedInput)
    else if bytes[0] != 0x7F || bytes[1] != 0x45 || bytes[2] != 0x4C || bytes[3] != 0x46 then Some(UnsupportedFormat)
    else if bytes[4] != 1 && bytes[4] != 2 then Some(UnsupportedFormat)
    else if bytes[5] != 1 && bytes[5] != 2 then Some(UnsupportedFormat)
    else if bytes[6] != 1 then Some(UnsupportedFormat)
    else None
  }

  // The entry sizes suffice for the entries that are there.
  predicate SizesSuffice(h: Header) {
    && h.headerSize >= HeaderSize(h.class_)
    && (h.programHeaderCount > 0 ==> h.programHeaderEntrySize >= SegmentSize(h.class_))
    && (h.sectionHeaderCount > 0 ==> h.sectionHeaderEntrySize >= SectionSize(h.class_))
  }

  function ParseHeader(bytes: Image): (r: Result<Header>)
    ensures r.Ok? ==> IdentError(bytes).None? && SoundHeader(r.value, bytes) && SizesSuffice(r.value)
  {
    hide IdentError, HeaderFields, Reader.U16, Reader.U32;
    if IdentError(bytes).Some? then Err(IdentError(bytes).value)
    else
      var c := if bytes[4] == 2 then Elf64 else Elf32;
      var reader := Reader(bytes, if bytes[5] == 1 then Little else Big);
      if !RangeWithin(0, HeaderSize(c), |bytes|) then Err(MalformedInput)
      else
        var fileType := reader.U16(16);
        var machine := reader.U16(18);
        var version := reader.U32(20);
        if fileType.Err? || machine.Err? || version.Err? then Err(MalformedInput)
        else if version.value != 1 then Err(UnsupportedFormat)
        else
          var h := HeaderFields(reader, c, fileType.value, machine.value);
          if SizesSuffice(h) then Ok(h) else Err(MalformedInput)
  }

  function HeaderFields(reader: Reader, c: Class, fileType: uint16, machine: uint16): (h: Header)
    requires |reader.bytes| >= HeaderSize(c)
    ensures h.class_ == c && h.endianness == reader.endianness
  {
    if c.Elf64? then
      Header(c, reader.endianness, fileType, machine,
             reader.U64(24).value, reader.U64(32).value, reader.U64(40).value,
             reader.U16(52).value, reader.U16(54).value, reader.U16(56).value,
             reader.U16(58).value, reader.U16(60).value, reader.U16(62).value)
    else
      Header(c, reader.endianness, fileType, machine,
             reader.U32(24).value, reader.U32(28).value, reader.U32(32).value,
             reader.U16(40).value, reader.U16(42).value, reader.U16(44).value,
             reader.U16(46).value, reader.U16(48).value, reader.U16(50).value)
  }

  // A table of count entries of the given size fits, whatever the product wraps to.
  method TableFits(offset: uint64, count: uint64, size: uint16, imageSize: uint64) returns (fits: bool)
    ensures fits <==> offset + count * size <= imageSize
  {
    hide Mul64;
    var total := Mul64(count, size);
    if count != 0 {
      DivisionFindsOverflow(count, size);
      if total / count != size {
        return false;
      }
    }
    ProductKept(count, size);
    return RangeWithin(offset, total, imageSize);
  }

  // ---------- sections ----------

  // The reads of one section header; each is checked.
  function ParseSectionHeader(reader: Reader, c: Class, offset: uint64, index: uint16): (r: Result<Section>)
    requires offset <= |reader.bytes|
    ensures offset + SectionSize(c) <= |reader.bytes| <==> r.Ok?
    ensures r.Ok? ==> r.value.name == [] && r.value.index == index
  {
    var name :- reader.U32(offset);
    var kind :- reader.U32(offset + 4);
    if c.Elf64? then
      var flags :- reader.U64(offset + 8);
      var address :- reader.U64(offset + 16);
      var start :- reader.U64(offset + 24);
      var size :- reader.U64(offset + 32);
      var link :- reader.U32(offset + 40);
      var info :- reader.U32(offset + 44);
      var alignment :- reader.U64(offset + 48);
      var entrySize :- reader.U64(offset + 56);
      Ok(Section([], index, kind, flags, address, start, size, alignment, flags / 4 % 2 == 1, name, link, info, entrySize))
    else
      var flags :- reader.U32(offset + 8);
      var address :- reader.U32(offset + 12);
      var start :- reader.U32(offset + 16);
      var size :- reader.U32(offset + 20);
      var link :- reader.U32(offset + 24);
      var info :- reader.U32(offset + 28);
      var alignment :- reader.U32(offset + 32);
      var entrySize :- reader.U32(offset + 36);
      Ok(Section([], index, kind, flags, address, start, size, alignment, flags / 4 % 2 == 1, name, link, info, entrySize))
  }

  // The section's bytes lie in the image; a NOBITS section has none.
  predicate SectionInside(s: Section, bytes: Image) {
    s.kind == SHT_NOBITS || s.offset + s.size <= |bytes|
  }

  function Contents(s: Section, bytes: Image): seq<byte>
    requires SectionInside(s, bytes)
  {
    if s.kind == SHT_NOBITS then [] else bytes[s.offset..s.offset + s.size]
  }

  function RangeForSection(bytes: Image, s: Section): (r: Result<seq<byte>>)
    ensures r.Ok? <==> SectionInside(s, bytes)
    ensures r.Ok? ==> r.value == Contents(s, bytes)
  {
    if s.kind == SHT_NOBITS then Ok([])
    else if RangeWithin(s.offset, s.size, |bytes|) then Ok(bytes[s.offset..s.offset + s.size])
    else Err(MalformedInput)
  }

  // Entries of a table that fills its bytes stand inside them.
  lemma EntryInside(i: nat, count: nat, size: nat)
    requires i < count
    ensures i * size + size <= count * size
  {
    MulMonotone(i + 1, count, size);
    Distribute(i, 1, size);
  }

  // The header, completed from section zero where its own fields are too small.
  function Extended(reader: Reader, h: Header): (r: Result<Header>)
    ensures r.Ok? ==>
      r.value == h.(programHeaderCount := r.value.programHeaderCount,
                    sectionHeaderCount := r.value.sectionHeaderCount,
                    sectionNameIndex := r.value.sectionNameIndex)
    ensures r.Ok? && SoundHeader(h, reader.bytes) ==> SoundHeader(r.value, reader.bytes)
  {
    if h.sectionHeaderCount != 0 && h.sectionNameIndex != SHN_XINDEX && h.programHeaderCount != PN_XNUM then Ok(h)
    else if !RangeWithin(h.sectionHeaderOffset, h.sectionHeaderEntrySize, |reader.bytes|) then Err(MalformedInput)
    else
      var first :- ParseSectionHeader(reader, h.class_, h.sectionHeaderOffset, 0);
      Ok(h.(sectionHeaderCount := if h.sectionHeaderCount == 0 then first.size else h.sectionHeaderCount,
            sectionNameIndex := if h.sectionNameIndex == SHN_XINDEX then first.link else h.sectionNameIndex,
            programHeaderCount := if h.programHeaderCount == PN_XNUM then first.info else h.programHeaderCount))
  }

  // The section table stands in the image, entry after entry.
  predicate SectionTable(bytes: Image, h: Header) {
    && h.sectionHeaderOffset + h.sectionHeaderCount * h.sectionHeaderEntrySize <= |bytes|
    && h.sectionHeaderCount <= MAX_SECTIONS
  }

  // Where the i-th section header stands.
  function SectionOffset(bytes: Image, h: Header, i: nat): (offset: uint64)
    requires SectionTable(bytes, h) && i < h.sectionHeaderCount
    ensures offset == h.sectionHeaderOffset + i * h.sectionHeaderEntrySize <= |bytes|
  {
    EntryInside(i, h.sectionHeaderCount, h.sectionHeaderEntrySize);
    h.sectionHeaderOffset + i * h.sectionHeaderEntrySize
  }

  // The i-th section, without its name.
  function SectionOf(bytes: Image, h: Header, i: nat): (r: Result<Section>)
    requires SectionTable(bytes, h) && i < h.sectionHeaderCount
  {
    ParseSectionHeader(Reader(bytes, h.endianness), h.class_, SectionOffset(bytes, h, i), i)
  }

  predicate SectionsReadable(bytes: Image, h: Header, n: nat)
    requires SectionTable(bytes, h) && n <= h.sectionHeaderCount
  {
    forall i | 0 <= i < n :: SectionOf(bytes, h, i).Ok?
  }

  predicate SectionsInside(sections: seq<Section>, bytes: Image) {
    forall i | 0 <= i < |sections| :: SectionInside(sections[i], bytes)
  }

  // The section headers as they stand, one after the other.
  function RawSections(bytes: Image, h: Header): (raw: seq<Section>)
    requires SectionTable(bytes, h) && SectionsReadable(bytes, h, h.sectionHeaderCount)
    ensures |raw| == h.sectionHeaderCount && forall i | 0 <= i < |raw| :: SectionOf(bytes, h, i) == Ok(raw[i])
  {
    seq(h.sectionHeaderCount, i requires 0 <= i < h.sectionHeaderCount => SectionOf(bytes, h, i).value)
  }

  method ReadSections(bytes: Image, h: Header) returns (r: Result<seq<Section>>)
    requires SectionTable(bytes, h)
    ensures r.Ok? <==> SectionsReadable(bytes, h, h.sectionHeaderCount)
    ensures r.Ok? ==> r.value == RawSections(bytes, h)
  {
    hide SectionOf, SectionTable;
    var sections: seq<Section> := [];
    var i: uint64 := 0;
    while i < h.sectionHeaderCount
      invariant i == |sections| <= h.sectionHeaderCount
      invariant forall k | 0 <= k < i :: SectionOf(bytes, h, k) == Ok(sections[k])
    {
      var section := SectionOf(bytes, h, i);
      if section.Err? {
        return Err(section.error);
      }
      sections := sections + [section.value];
      i := i + 1;
    }
    return Ok(sections);
  }

  predicate NamesReadable(sections: seq<Section>, names: seq<byte>) {
    forall i | 0 <= i < |sections| :: NameOf(names, sections[i].nameOffset).Ok?
  }

  function Named(sections: seq<Section>, names: seq<byte>): (named: seq<Section>)
    requires NamesReadable(sections, names)
    ensures |named| == |sections|
  {
    seq(|sections|, i requires 0 <= i < |sections| =>
      sections[i].(name := NameOf(names, sections[i].nameOffset).value))
  }

  method NameSections(sections: seq<Section>, names: seq<byte>) returns (r: Result<seq<Section>>)
    ensures r.Ok? <==> NamesReadable(sections, names)
    ensures r.Ok? ==> r.value == Named(sections, names)
  {
    hide NameOf;
    var named: seq<Section> := [];
    for i := 0 to |sections|
      invariant |named| == i
      invariant forall k | 0 <= k < i ::
        NameOf(names, sections[k].nameOffset).Ok?
        && named[k] == sections[k].(name := NameOf(names, sections[k].nameOffset).value)
    {
      var name := StringFromTable(names, sections[i].nameOffset);
      if name.Err? {
        return Err(name.error);
      }
      named := named + [sections[i].(name := name.value)];
    }
    assert named == Named(sections, names);
    return Ok(named);
  }

  method CheckSections(bytes: Image, sections: seq<Section>) returns (ok: bool)
    ensures ok <==> SectionsInside(sections, bytes)
  {
    for i := 0 to |sections|
      invariant forall k | 0 <= k < i :: SectionInside(sections[k], bytes)
    {
      if sections[i].kind == SHT_NOBITS {
        continue;
      }
      if !RangeWithin(sections[i].offset, sections[i].size, |bytes|) {
        return false;
      }
    }
    return true;
  }

  // When a section table is accepted: it stands in the image, every section lies there too,
  // and the section the header points at names them all.
  predicate SectionsAccepted(bytes: Image, h: Header) {
    && SectionTable(bytes, h)
    && SectionsReadable(bytes, h, h.sectionHeaderCount)
    && var raw := RawSections(bytes, h);
    && SectionsInside(raw, bytes)
    && (raw != [] ==> h.sectionNameIndex < |raw| && NamesReadable(raw, Contents(raw[h.sectionNameIndex], bytes)))
  }

  function NamedSections(bytes: Image, h: Header): (named: seq<Section>)
    requires SectionsAccepted(bytes, h)
    ensures |named| == h.sectionHeaderCount && SectionsInside(named, bytes)
  {
    var raw := RawSections(bytes, h);
    if raw == [] then [] else Named(raw, Contents(raw[h.sectionNameIndex], bytes))
  }

  method SectionsOf(bytes: Image, h: Header) returns (r: Result<seq<Section>>)
    ensures r.Ok? <==> SectionsAccepted(bytes, h)
    ensures r.Ok? ==> r.value == NamedSections(bytes, h)
  {
    hide SectionOf, NameOf, SectionsReadable, RawSections, Named, NamesReadable;
    var fits := TableFits(h.sectionHeaderOffset, h.sectionHeaderCount, h.sectionHeaderEntrySize, |bytes|);
    if !fits {
      return Err(MalformedInput);
    }
    if h.sectionHeaderCount > MAX_SECTIONS {
      return Err(MalformedInput);
    }
    r := ReadSections(bytes, h);
    if r.Err? {
      return;
    }
    var sections := r.value;
    if h.sectionNameIndex >= |sections| && sections != [] {
      return Err(MalformedInput);
    }
    if sections != [] {
      var names := RangeForSection(bytes, sections[h.sectionNameIndex]);
      if names.Err? {
        return Err(names.error);
      }
      r := NameSections(sections, names.value);
      if r.Err? {
        return;
      }
    }
    var inside := CheckSections(bytes, sections);
    if !inside {
      return Err(MalformedInput);
    }
  }

  // A header completed from section zero, with its sections.
  datatype Loaded = Loaded(header: Header, sections: seq<Section>)

  // What a header leads to; a file may have no section table at all.
  function LoadSections(bytes: Image, h: Header): (l: Option<Loaded>)
    ensures l.Some? ==> SectionsInside(l.value.sections, bytes)
    ensures l.Some? && SoundHeader(h, bytes) ==> SoundHeader(l.value.header, bytes)
  {
    hide SectionsAccepted, SoundHeader, SectionInside, ParseSectionHeader;
    if h.sectionHeaderCount == 0 && h.sectionHeaderOffset == 0 then Some(Loaded(h, []))
    else if h.sectionHeaderEntrySize == 0 then None
    else
      var extended := Extended(Reader(bytes, h.endianness), h);
      if extended.Err? || !SectionsAccepted(bytes, extended.value) then None
      else Some(Loaded(extended.value, NamedSections(bytes, extended.value)))
  }

  // The section table; the header comes back with its extended numbers filled in.
  method ParseSectionHeaders(bytes: Image, h: Header) returns (r: Result<seq<Section>>, h': Header)
    ensures r.Ok? <==> LoadSections(bytes, h).Some?
    ensures r.Ok? ==> LoadSections(bytes, h) == Some(Loaded(h', r.value))
  {
    hide Extended, SectionsAccepted, NamedSections;
    h' := h;
    if h.sectionHeaderCount == 0 && h.sectionHeaderOffset == 0 {
      return Ok([]), h';
    }
    if h.sectionHeaderEntrySize == 0 {
      return Err(MalformedInput), h';
    }
    var extended := Extended(Reader(bytes, h.endianness), h);
    if extended.Err? {
      return Err(extended.error), h';
    }
    h' := extended.value;
    r := SectionsOf(bytes, h');
  }

  // ---------- segments ----------

  // One program header; its reads are not checked one by one.
  function SegmentAt(reader: Reader, c: Class, offset: uint64): Segment
    requires offset + SegmentSize(c) <= |reader.bytes|
  {
    if c.Elf64? then
      Segment(reader.U32(offset).value, reader.U32(offset + 4).value, reader.U64(offset + 8).value,
              reader.U64(offset + 16).value, reader.U64(offset + 24).value, reader.U64(offset + 32).value,
              reader.U64(offset + 40).value, reader.U64(offset + 48).value)
    else
      Segment(reader.U32(offset).value, reader.U32(offset + 24).value, reader.U32(offset + 4).value,
              reader.U32(offset + 8).value, reader.U32(offset + 12).value, reader.U32(offset + 16).value,
              reader.U32(offset + 20).value, reader.U32(offset + 28).value)
  }

  predicate SegmentInside(s: Segment, bytes: Image) {
    s.offset + s.fileSize <= |bytes|
  }

  // The program header table stands in the image.
  predicate SegmentTable(bytes: Image, h: Header) {
    h.programHeaderOffset + h.programHeaderCount * h.programHeaderEntrySize <= |bytes|
  }

  // Where the i-th program header stands.
  function SegmentOffset(bytes: Image, h: Header, i: nat): (offset: uint64)
    requires SoundHeader(h, bytes) && SegmentTable(bytes, h) && i < h.programHeaderCount
    ensures offset == h.programHeaderOffset + i * h.programHeaderEntrySize
    ensures offset + SegmentSize(h.class_) <= |bytes|
  {
    EntryInside(i, h.programHeaderCount, h.programHeaderEntrySize);
    h.programHeaderOffset + i * h.programHeaderEntrySize
  }

  function SegmentOf(bytes: Image, h: Header, i: nat): Segment
    requires SoundHeader(h, bytes) && SegmentTable(bytes, h) && i < h.programHeaderCount
  {
    SegmentAt(Reader(bytes, h.endianness), h.class_, SegmentOffset(bytes, h, i))
  }

  // The first n segments lie in the image.
  predicate SegmentsInside(bytes: Image, h: Header, n: nat)
    requires SoundHeader(h, bytes) && SegmentTable(bytes, h) && n <= h.programHeaderCount
  {
    forall i | 0 <= i < n :: SegmentInside(SegmentOf(bytes, h, i), bytes)
  }

  // The table and every segment lie in the image.
  predicate SegmentsAccepted(bytes: Image, h: Header)
    requires SoundHeader(h, bytes)
  {
    h.programHeaderCount == 0 || (SegmentTable(bytes, h) && SegmentsInside(bytes, h, h.programHeaderCount))
  }

  // The segments of the program header table, entry after entry.
  function SegmentsOf(bytes: Image, h: Header): (segments: seq<Segment>)
    requires SoundHeader(h, bytes) && SegmentsAccepted(bytes, h)
    ensures |segments| == h.programHeaderCount
    ensures forall i | 0 <= i < |segments| :: SegmentInside(segments[i], bytes)
  {
    hide SegmentOf, SegmentInside, SegmentTable, SoundHeader;
    if h.programHeaderCount == 0 then []
    else seq(h.programHeaderCount, i requires 0 <= i < h.programHeaderCount => SegmentOf(bytes, h, i))
  }

  // A zero entry size, which the code also tests for, cannot come with a sound header.
  method ParseSegments(bytes: Image, h: Header) returns (r: Result<seq<Segment>>)
    requires SoundHeader(h, bytes)
    ensures r.Ok? <==> SegmentsAccepted(bytes, h)
    ensures r.Ok? ==> r.value == SegmentsOf(bytes, h)
  {
    if h.programHeaderCount == 0 {
      return Ok([]);
    }
    var fits := TableFits(h.programHeaderOffset, h.programHeaderCount, h.programHeaderEntrySize, |bytes|);
    if !fits {
      return Err(MalformedInput);
    }
    r := ReadSegments(bytes, h);
  }

  method ReadSegments(bytes: Image, h: Header) returns (r: Result<seq<Segment>>)
    requires SoundHeader(h, bytes) && SegmentTable(bytes, h)
    ensures r.Ok? <==> SegmentsInside(bytes, h, h.programHeaderCount)
    ensures r.Ok? ==> |r.value| == h.programHeaderCount
    ensures r.Ok? ==> forall i | 0 <= i < |r.value| ::
      r.value[i] == SegmentOf(bytes, h, i) && SegmentInside(r.value[i], bytes)
  {
    hide SegmentAt;
    var reader := Reader(bytes, h.endianness);
    var segments: seq<Segment> := [];
    var i: uint64 := 0;
    while i < h.programHeaderCount
      invariant i == |segments| <= h.programHeaderCount
      invariant forall k | 0 <= k < i :: segments[k] == SegmentOf(bytes, h, k)
      invariant SegmentsInside(bytes, h, i)
    {
      var offset := SegmentOffset(bytes, h, i);
      var segment := SegmentAt(reader, h.class_, offset);
      assert segment == SegmentOf(bytes, h, i);
      if !RangeWithin(segment.offset, segment.fileSize, |bytes|) {
        return Err(MalformedInput);
      }
      segments := segments + [segment];
      i := i + 1;
    }
    return Ok(segments);
  }
}
