// The string literals of an ELF image: printable runs ended by a zero byte in read-only data.

module Strings {
  import opened Common
  import opened ElfFile
  import opened ElfReader

  const MAX_STRINGS: nat := 200000
  const SHT_STRTAB: uint32 := 3

  datatype Literal = Literal(address: uint64, size: nat, text: seq<byte>)

  // Bytes start up to end of a section.
  datatype Span = Span(start: nat, end: nat)

  predicate Printable(b: byte) {
    (b >= 0x20 && b < 0x7F) || b == 0x09 || b == 0x0A || b == 0x0D
  }

  // Tab, line feed, carriage return, and the ASCII characters from space to tilde.
  predicate Textual(b: byte) {
    b in {9, 10, 13} || 32 <= b <= 126
  }

  // A maximal run of two or more textual bytes, with a zero right behind it.
  predicate IsLiteral(data: seq<byte>, s: Span) {
    && s.start + 2 <= s.end < |data| && data[s.end] == 0
    && (forall i | s.start <= i < s.end :: Textual(data[i]))
    && (s.start > 0 ==> !Textual(data[s.start - 1]))
  }

  // ---------- one section ----------

  // Where the printable run that reaches up to position n begins.
  function RunStart(data: seq<byte>, n: nat): (a: nat)
    requires n <= |data|
    ensures a <= n && forall i | a <= i < n :: Printable(data[i])
    ensures a > 0 ==> !Printable(data[a - 1])
  {
    if n > 0 && Printable(data[n - 1]) then RunStart(data, n - 1) else n
  }

  // The literals that end before position n, in order.
  function SpansBefore(data: seq<byte>, n: nat): (spans: seq<Span>)
    requires n <= |data|
  {
    if n == 0 then []
    else
      var end := n - 1;
      var start := RunStart(data, end);
      SpansBefore(data, end) + if data[end] == 0 && end - start >= 2 then [Span(start, end)] else []
  }

  lemma PrintableIsTextual()
    ensures forall b :: Printable(b) <==> Textual(b)
    ensures !Printable(0)
  {
  }

  // Exactly the literals are listed.
  lemma {:induction false} SpansAreLiterals(data: seq<byte>, n: nat, s: Span)
    requires n <= |data|
    ensures s in SpansBefore(data, n) <==> IsLiteral(data, s) && s.end < n
  {
    PrintableIsTextual();
    hide Printable, Textual;
    if n > 0 {
      SpansAreLiterals(data, n - 1, s);
      if IsLiteral(data, s) && s.end == n - 1 {
      }
    }
  }

  // They stand in order, at least the zero byte apart.
  lemma {:induction false} SpansInOrder(data: seq<byte>, n: nat)
    requires n <= |data|
    ensures forall s | s in SpansBefore(data, n) :: s.start < s.end < n
    ensures forall i, j | 0 <= i < j < |SpansBefore(data, n)| ::
      SpansBefore(data, n)[i].end < SpansBefore(data, n)[j].start
  {
    if n > 0 {
      SpansInOrder(data, n - 1);
      var before := SpansBefore(data, n - 1);
      if data[n - 1] == 0 {
        forall s | s in before ensures s.end < RunStart(data, n - 1) {
          SpansAreLiterals(data, n - 1, s);
          assert data[s.end] == 0 && !Printable(data[s.end]);
        }
      }
    }
  }

  lemma {:induction false} SpansGrow(data: seq<byte>, m: nat, n: nat)
    requires m <= n <= |data|
    ensures SpansBefore(data, m) <= SpansBefore(data, n)
    decreases n
  {
    if m < n {
      SpansGrow(data, m, n - 1);
    }
  }

  function LiteralOf(address: uint64, data: seq<byte>, s: Span): Literal
    requires s.start <= s.end <= |data| < TWO64
  {
    Literal(Add64(address, s.start), s.end - s.start, data[s.start..s.end])
  }

  // The literals of a section that end before position n.
  function LiteralsBefore(address: uint64, data: seq<byte>, n: nat): (literals: seq<Literal>)
    requires n <= |data| < TWO64
    ensures |literals| == |SpansBefore(data, n)|
  {
    SpansInOrder(data, n);
    var spans := SpansBefore(data, n);
    seq(|spans|, i requires 0 <= i < |spans| => LiteralOf(address, data, spans[i]))
  }

  lemma LiteralsGrow(address: uint64, data: seq<byte>, m: nat, n: nat)
    requires m <= n <= |data| < TWO64
    ensures LiteralsBefore(address, data, m) <= LiteralsBefore(address, data, n)
  {
    SpansGrow(data, m, n);
  }

  // One byte further adds at most the literal that this byte ends.
  lemma LiteralsStep(address: uint64, data: seq<byte>, n: nat)
    requires n < |data| < TWO64
    ensures var start := RunStart(data, n);
      LiteralsBefore(address, data, n + 1)
      == LiteralsBefore(address, data, n)
         + if data[n] == 0 && n - start >= 2 then [LiteralOf(address, data, Span(start, n))] else []
  {
  }

  function Capped(literals: seq<Literal>): seq<Literal> {
    if |literals| > MAX_STRINGS then literals[..MAX_STRINGS] else literals
  }

  // The scan over one section; it stops everything once the limit is reached.
  method ScanSection(address: uint64, data: seq<byte>, found: seq<Literal>) returns (strings: seq<Literal>, full: bool)
    requires |found| < MAX_STRINGS && |data| < TWO64
    ensures full <==> |found + LiteralsBefore(address, data, |data|)| >= MAX_STRINGS
    ensures strings == Capped(found + LiteralsBefore(address, data, |data|))
  {
    hide LiteralsBefore, LiteralOf, RunStart, SpansBefore;
    strings := found;
    NothingYet(address, data);
    var current: seq<byte> := [];
    var start: nat := 0;
    for offset := 0 to |data|
      invariant strings == found + LiteralsBefore(address, data, offset) && |strings| < MAX_STRINGS
      invariant current == data[RunStart(data, offset)..offset]
      invariant current != [] ==> start == RunStart(data, offset)
    {
      var b := data[offset];
      LiteralsStep(address, data, offset);
      RunStep(data, offset);
      if b == 0 {
        if |current| >= 2 {
          strings := strings + [Literal(Add64(address, start), |current|, current)];
          LiteralShape(address, data, Span(start, offset));
          if |strings| >= MAX_STRINGS {
            LiteralsGrow(address, data, offset + 1, |data|);
            return strings, true;
          }
        }
        current := [];
      } else if Printable(b) {
        if current == [] {
          start := offset;
        }
        current := current + [b];
      } else {
        current := [];
      }
    }
    return strings, false;
  }

  lemma NothingYet(address: uint64, data: seq<byte>)
    requires |data| < TWO64
    ensures LiteralsBefore(address, data, 0) == [] && RunStart(data, 0) == 0
  {
  }

  lemma RunStep(data: seq<byte>, n: nat)
    requires n < |data|
    ensures RunStart(data, n + 1) == if Printable(data[n]) then RunStart(data, n) else n + 1
    ensures data[RunStart(data, n + 1)..n + 1] == if Printable(data[n]) then data[RunStart(data, n)..n] + [data[n]] else []
  {
  }

  lemma LiteralShape(address: uint64, data: seq<byte>, s: Span)
    requires s.start <= s.end <= |data| < TWO64
    ensures LiteralOf(address, data, s) == Literal(Add64(address, s.start), s.end - s.start, data[s.start..s.end])
  {
  }

  // ---------- all sections ----------

  // Sections whose bytes are taken for program strings: read-only data with contents,
  // other than string tables.
  predicate HoldsStrings(s: Section) {
    s.flags / 2 % 2 == 1 && s.flags % 2 == 0 && !s.executable && s.kind != SHT_NOBITS && s.kind != SHT_STRTAB
  }

  function SectionLiterals(bytes: Image, s: Section): seq<Literal> {
    if HoldsStrings(s) && SectionInside(s, bytes) then
      LiteralsBefore(s.address, Contents(s, bytes), s.size)
    else []
  }

  // The literals of the first n sections, section after section.
  function AllLiterals(bytes: Image, sections: seq<Section>, n: nat): seq<Literal>
    requires n <= |sections|
  {
    if n == 0 then [] else AllLiterals(bytes, sections, n - 1) + SectionLiterals(bytes, sections[n - 1])
  }

  lemma {:induction false} AllGrow(bytes: Image, sections: seq<Section>, m: nat, n: nat)
    requires m <= n <= |sections|
    ensures AllLiterals(bytes, sections, m) <= AllLiterals(bytes, sections, n)
    decreases n
  {
    hide SectionLiterals;
    if m < n {
      AllGrow(bytes, sections, m, n - 1);
    }
  }

  lemma CapReached(literals: seq<Literal>, more: seq<Literal>)
    requires |literals| >= MAX_STRINGS && literals <= more
    ensures Capped(literals) == Capped(more)
  {
    assert more[..MAX_STRINGS] == literals[..MAX_STRINGS];
  }

  method ExtractStrings(bytes: Image, sections: seq<Section>) returns (strings: seq<Literal>)
    ensures strings == Capped(AllLiterals(bytes, sections, |sections|))
  {
    hide SectionInside, LiteralsBefore, Capped, HoldsStrings, SectionLiterals, Contents, AllLiterals;
    strings := [];
    NoLiterals(bytes, sections);
    for i := 0 to |sections|
      invariant strings == AllLiterals(bytes, sections, i) && |strings| < MAX_STRINGS
    {
      var s := sections[i];
      NextSection(bytes, sections, i);
      if !HoldsStrings(s) {
        continue;
      }
      var contents := RangeForSection(bytes, s);
      if contents.Err? {
        continue;
      }
      var full;
      strings, full := ScanSection(s.address, contents.value, strings);
      if full {
        AllGrow(bytes, sections, i + 1, |sections|);
        CapReached(AllLiterals(bytes, sections, i + 1), AllLiterals(bytes, sections, |sections|));
        return;
      }
      BelowCap(AllLiterals(bytes, sections, i + 1));
    }
    BelowCap(strings);
  }

  lemma NoLiterals(bytes: Image, sections: seq<Section>)
    ensures AllLiterals(bytes, sections, 0) == []
  {
  }

  lemma NextSection(bytes: Image, sections: seq<Section>, i: nat)
    requires i < |sections|
    ensures var s := sections[i];
      AllLiterals(bytes, sections, i + 1)
      == if HoldsStrings(s) && SectionInside(s, bytes) then
           AllLiterals(bytes, sections, i) + LiteralsBefore(s.address, Contents(s, bytes), |Contents(s, bytes)|)
         else AllLiterals(bytes, sections, i)
  {
    hide LiteralsBefore, HoldsStrings;
    if HoldsStrings(sections[i]) && SectionInside(sections[i], bytes) {
      ContentsLength(sections[i], bytes);
    }
  }

  lemma ContentsLength(s: Section, bytes: Image)
    requires HoldsStrings(s) && SectionInside(s, bytes)
    ensures |Contents(s, bytes)| == s.size
  {
  }

  lemma BelowCap(literals: seq<Literal>)
    requires |literals| < MAX_STRINGS
    ensures Capped(literals) == literals
  {
  }

  // ---------- what is extracted ----------

  // Sections that are loaded, read-only and not code, with contents in the image, and neither
  // without bytes (kind 8) nor a string table (kind 3).
  predicate DataOf(s: Section, bytes: Image) {
    && s.flags / 2 % 2 == 1 && s.flags % 2 == 0 && !s.executable && s.kind != 8 && s.kind != 3
    && s.offset + s.size <= |bytes|
  }

  // Where a literal comes from: a section, and a run of bytes in it.
  datatype Origin = Origin(section: nat, span: Span)

  predicate StandsAt(bytes: Image, sections: seq<Section>, o: Origin) {
    && o.section < |sections| && DataOf(sections[o.section], bytes)
    && var s := sections[o.section];
    IsLiteral(bytes[s.offset..s.offset + s.size], o.span)
  }

  // The literal there, with the address it is loaded at.
  predicate LiteralFrom(bytes: Image, sections: seq<Section>, o: Origin, l: Literal) {
    && StandsAt(bytes, sections, o)
    && var s, span := sections[o.section], o.span;
    l == Literal((s.address + span.start) % TWO64, span.end - span.start, bytes[s.offset + span.start..s.offset + span.end])
  }

  predicate Earlier(a: Origin, b: Origin) {
    a.section < b.section || (a.section == b.section && a.span.end < b.span.start)
  }

  // The literals are those of the first n sections, all of them, in order.
  ghost predicate Lists(bytes: Image, sections: seq<Section>, n: nat, origins: seq<Origin>, literals: seq<Literal>) {
    && |origins| == |literals|
    && (forall i | 0 <= i < |origins| :: origins[i].section < n && LiteralFrom(bytes, sections, origins[i], literals[i]))
    && (forall i, j | 0 <= i < j < |origins| :: Earlier(origins[i], origins[j]))
    && (forall o | StandsAt(bytes, sections, o) && o.section < n :: o in origins)
  }

  lemma DataIff(s: Section, bytes: Image)
    ensures DataOf(s, bytes) <==> HoldsStrings(s) && SectionInside(s, bytes)
    ensures DataOf(s, bytes) ==> Contents(s, bytes) == bytes[s.offset..s.offset + s.size]
  {
  }

  // A run of a section is where its literal comes from, and there is nothing else.
  lemma RunIsOrigin(bytes: Image, sections: seq<Section>, k: nat, span: Span)
    requires k < |sections| && DataOf(sections[k], bytes)
    ensures var s, o := sections[k], Origin(k, span);
      && (StandsAt(bytes, sections, o) <==> span in SpansBefore(Contents(s, bytes), s.size))
      && (StandsAt(bytes, sections, o) ==>
            span.start <= span.end <= s.size
            && LiteralFrom(bytes, sections, o, LiteralOf(s.address, Contents(s, bytes), span)))
  {
    hide IsLiteral, SpansBefore, HoldsStrings;
    var s := sections[k];
    DataIff(s, bytes);
    SpansAreLiterals(Contents(s, bytes), s.size, span);
    if IsLiteral(Contents(s, bytes), span) {
      LiteralEnds(Contents(s, bytes), span);
      RunOf(bytes, s, span);
    }
  }

  // The runs of one section.
  lemma SectionListed(bytes: Image, sections: seq<Section>, k: nat) returns (origins: seq<Origin>)
    requires k < |sections|
    ensures |origins| == |SectionLiterals(bytes, sections[k])|
    ensures forall i | 0 <= i < |origins| ::
      origins[i].section == k && LiteralFrom(bytes, sections, origins[i], SectionLiterals(bytes, sections[k])[i])
    ensures forall i, j | 0 <= i < j < |origins| :: Earlier(origins[i], origins[j])
    ensures forall o | StandsAt(bytes, sections, o) && o.section == k :: o in origins
  {
    hide StandsAt, LiteralFrom, SpansBefore, HoldsStrings, LiteralOf;
    var s := sections[k];
    DataIff(s, bytes);
    if DataOf(s, bytes) {
      var data := Contents(s, bytes);
      var spans := SpansBefore(data, s.size);
      SpansInOrder(data, s.size);
      origins := seq(|spans|, i requires 0 <= i < |spans| => Origin(k, spans[i]));
      forall i | 0 <= i < |spans| ensures LiteralFrom(bytes, sections, origins[i], SectionLiterals(bytes, s)[i]) {
        RunIsOrigin(bytes, sections, k, spans[i]);
      }
      forall o | StandsAt(bytes, sections, o) && o.section == k ensures o in origins {
        RunIsOrigin(bytes, sections, k, o.span);
        var i :| 0 <= i < |spans| && spans[i] == o.span;
        assert origins[i] == o;
      }
    } else {
      origins := [];
      NoDataNoRun(bytes, sections, k);
    }
  }

  lemma NoDataNoRun(bytes: Image, sections: seq<Section>, k: nat)
    requires k < |sections| && !DataOf(sections[k], bytes)
    ensures forall o | StandsAt(bytes, sections, o) :: o.section != k
  {
  }

  lemma LiteralEnds(data: seq<byte>, s: Span)
    requires IsLiteral(data, s)
    ensures s.start <= s.end < |data|
  {
  }

  lemma RunOf(bytes: Image, s: Section, span: Span)
    requires s.offset + s.size <= |bytes| && span.start <= span.end <= s.size
    ensures bytes[s.offset..s.offset + s.size][span.start..span.end] == bytes[s.offset + span.start..s.offset + span.end]
  {
    var section := bytes[s.offset..s.offset + s.size];
    var run, other := section[span.start..span.end], bytes[s.offset + span.start..s.offset + span.end];
    forall i | 0 <= i < |run| ensures run[i] == other[i] {
      assert run[i] == section[span.start + i] == bytes[s.offset + span.start + i];
    }
    assert run == other;
  }

  // All literals of the sections are found, each once, in the order they stand in.
  lemma {:induction false} AllLiteralsListed(bytes: Image, sections: seq<Section>, n: nat) returns (origins: seq<Origin>)
    requires n <= |sections|
    ensures Lists(bytes, sections, n, origins, AllLiterals(bytes, sections, n))
  {
    hide StandsAt, LiteralFrom, SectionLiterals;
    if n == 0 {
      origins := [];
    } else {
      var before := AllLiteralsListed(bytes, sections, n - 1);
      var last := SectionListed(bytes, sections, n - 1);
      origins := before + last;
    }
  }

  // Of them the first 200000 are kept.
  lemma FirstAreKept(literals: seq<Literal>)
    ensures Capped(literals) <= literals
    ensures |Capped(literals)| == if |literals| <= 200000 then |literals| else 200000
  {
  }

  // ---------- disjointness ----------

  predicate Apart(a: Literal, b: Literal) {
    a.address + a.size <= b.address || b.address + b.size <= a.address
  }

  // No two literals share an address, and none reaches the end of the address space.
  predicate Separate(literals: seq<Literal>) {
    && (forall i | 0 <= i < |literals| :: literals[i].address + literals[i].size < TWO64 && literals[i].size > 0)
    && (forall i, j | 0 <= i < j < |literals| :: Apart(literals[i], literals[j]))
  }

  // A literal lies strictly before the end of its section.
  predicate Within(l: Literal, s: Section) {
    s.address <= l.address && l.size > 0 && l.address + l.size < s.address + s.size
  }

  // The section ends inside the address space.
  predicate InSpace(s: Section) {
    s.address + s.size <= TWO64
  }

  predicate SectionsApart(a: Section, b: Section) {
    a.address + a.size <= b.address || b.address + b.size <= a.address
  }

  // The sections that hold strings occupy disjoint addresses without wrapping round.
  predicate LaidOut(sections: seq<Section>) {
    && (forall i | 0 <= i < |sections| && HoldsStrings(sections[i]) :: InSpace(sections[i]))
    && (forall i, j | 0 <= i < j < |sections| && HoldsStrings(sections[i]) && HoldsStrings(sections[j]) ::
          SectionsApart(sections[i], sections[j]))
  }

  lemma SectionSeparate(bytes: Image, s: Section)
    requires HoldsStrings(s) ==> InSpace(s)
    ensures Separate(SectionLiterals(bytes, s))
    ensures forall l | l in SectionLiterals(bytes, s) :: HoldsStrings(s) && Within(l, s)
  {
    hide SpansBefore;
    if HoldsStrings(s) && SectionInside(s, bytes) {
      var data := Contents(s, bytes);
      var spans := SpansBefore(data, |data|);
      SpansInOrder(data, |data|);
      var literals := SectionLiterals(bytes, s);
      assert literals == LiteralsBefore(s.address, data, |data|);
      forall i | 0 <= i < |spans|
        ensures literals[i] == Literal(s.address + spans[i].start, spans[i].end - spans[i].start, data[spans[i].start..spans[i].end])
      {
        assert spans[i] in spans;
      }
    }
  }

  lemma {:induction false} LiteralsHaveSections(bytes: Image, sections: seq<Section>, n: nat, l: Literal)
    requires n <= |sections| && LaidOut(sections) && l in AllLiterals(bytes, sections, n)
    ensures exists k :: 0 <= k < n && HoldsStrings(sections[k]) && Within(l, sections[k])
  {
    hide LaidOut, SectionLiterals, HoldsStrings;
    SectionInLayout(sections, n - 1);
    if l in AllLiterals(bytes, sections, n - 1) {
      LiteralsHaveSections(bytes, sections, n - 1, l);
    } else {
      SectionSeparate(bytes, sections[n - 1]);
      assert Within(l, sections[n - 1]);
    }
  }

  lemma SectionInLayout(sections: seq<Section>, i: nat)
    requires LaidOut(sections) && i < |sections|
    ensures HoldsStrings(sections[i]) ==> InSpace(sections[i])
  {
  }

  // Sections apart, literals apart: over the whole image.
  lemma {:induction false} LiteralsSeparate(bytes: Image, sections: seq<Section>, n: nat)
    requires n <= |sections| && LaidOut(sections)
    ensures Separate(AllLiterals(bytes, sections, n))
  {
    hide LaidOut, SectionLiterals, HoldsStrings, Separate;
    if n > 0 {
      var before := AllLiterals(bytes, sections, n - 1);
      var last := SectionLiterals(bytes, sections[n - 1]);
      LiteralsSeparate(bytes, sections, n - 1);
      SectionInLayout(sections, n - 1);
      SectionSeparate(bytes, sections[n - 1]);
      forall a, b | a in before && b in last ensures Apart(a, b) {
        LiteralsHaveSections(bytes, sections, n - 1, a);
        var k :| 0 <= k < n - 1 && HoldsStrings(sections[k]) && Within(a, sections[k]);
        LaidOutApart(sections, k, n - 1);
      }
      SeparateConcat(before, last);
    } else {
      NoneSeparate();
    }
  }

  lemma NoneSeparate()
    ensures Separate([])
  {
  }

  lemma LaidOutApart(sections: seq<Section>, i: nat, j: nat)
    requires LaidOut(sections) && i < j < |sections| && HoldsStrings(sections[i]) && HoldsStrings(sections[j])
    ensures SectionsApart(sections[i], sections[j])
  {
  }

  lemma SeparateConcat(a: seq<Literal>, b: seq<Literal>)
    requires Separate(a) && Separate(b) && forall x, y | x in a && y in b :: Apart(x, y)
    ensures Separate(a + b)
  {
    hide Apart;
    var c := a + b;
    forall i, j | 0 <= i < j < |c| ensures Apart(c[i], c[j]) {
      if j < |a| {
        assert c[i] == a[i] && c[j] == a[j];
      } else if i >= |a| {
        assert c[i] == b[i - |a|] && c[j] == b[j - |a|];
      } else {
        assert c[i] in a && c[j] in b;
      }
    }
  }

  // The literals an image gives are separate when its string sections are laid out apart.
  lemma ExtractedSeparate(bytes: Image, sections: seq<Section>)
    requires LaidOut(sections)
    ensures Separate(Capped(AllLiterals(bytes, sections, |sections|)))
  {
    hide LaidOut, AllLiterals, Apart;
    LiteralsSeparate(bytes, sections, |sections|);
  }
}
