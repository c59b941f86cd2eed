// Building the resolver's index from a parsed ELF image.

module IndexBuilder {
  import opened Common
  import opened ElfFile
  import opened ElfSymbols
  import opened Resolver
  import opened Slices
  import opened Sorting
  import opened TextOrder

  // ---------- names ----------

  function Text(bytes: seq<byte>): (text: string)
    ensures |text| == |bytes|
  {
    seq(|bytes|, i requires 0 <= i < |bytes| => bytes[i] as char)
  }

  predicate Contains(text: string, needle: string) {
    exists i | 0 <= i <= |text| :: At(text, i, needle)
  }

  // The name shown; demangling itself is a parameter.
  function DisplayName(rawName: string, options: Options, demangle: string -> string): string {
    if rawName == "" then "" else if options.demangleNames then demangle(rawName) else rawName
  }

  predicate IncludeSymbol(s: Symbol, options: Options) {
    && s.name != [] && s.defined
    && s.kind != File && s.kind != SectionSymbol
    && !(".L" <= Text(s.name))
    && !("$" <= Text(s.name))
    && (s.isDynamic ==> options.includeDynamicSymbols)
    && (s.bind == Local ==> options.includeLocalSymbols)
  }

  predicate IsMetadataSection(name: string) {
    Contains(name, ".debug") || Contains(name, ".eh_frame") || Contains(name, ".comment") || Contains(name, ".note")
  }

  predicate IsPltRelocationSection(name: string) {
    Contains(name, ".rela.plt") || Contains(name, ".rel.plt")
  }

  // The relocation's own symbol name, or that of the symbol its index picks from the whole list.
  function RelocationRawName(file: ElfImage, r: Relocation): string {
    if r.symbolName != [] then Text(r.symbolName)
    else if r.symbolIndex < |file.symbols| then Text(file.symbols[r.symbolIndex].name)
    else ""
  }

  predicate IncludeRelocation(file: ElfImage, r: Relocation) {
    !IsMetadataSection(Text(r.sectionName)) && !(".L" <= RelocationRawName(file, r))
  }

  function RelocationDisplayName(rawName: string, section: string, options: Options, demangle: string -> string): string {
    var shown := DisplayName(rawName, options, demangle);
    var name := if shown != "" then shown else if section == "" then "<relocation>" else section;
    if Contains(section, ".plt") && !Contains(name, "@plt") then name + "@plt"
    else if Contains(section, ".got") && !Contains(name, "@got") then name + "@got"
    else name
  }

  // ---------- entries ----------

  function SymbolEntryOf(s: Symbol, options: Options, demangle: string -> string): ResolvedSymbol {
    ResolvedSymbol(DisplayName(Text(s.name), options, demangle), Text(s.name), s.address, s.size, false, s.isDynamic)
  }

  function IncludedSymbols(symbols: seq<Symbol>, n: nat, options: Options,
    demangle: string -> string): seq<ResolvedSymbol>
    requires n <= |symbols|
  {
    if n == 0 then []
    else
      IncludedSymbols(symbols, n - 1, options, demangle)
      + if IncludeSymbol(symbols[n - 1], options) then [SymbolEntryOf(symbols[n - 1], options, demangle)] else []
  }

  function ReferenceOf(file: ElfImage, r: Relocation, options: Options, demangle: string -> string): ResolvedReference {
    var rawName := RelocationRawName(file, r);
    ResolvedReference(r.offset, RelocationDisplayName(rawName, Text(r.sectionName), options, demangle), rawName,
                      Text(r.sectionName), r.kind, r.addend, r.hasAddend)
  }

  function IncludedReferences(file: ElfImage, n: nat, options: Options,
    demangle: string -> string): seq<ResolvedReference>
    requires n <= |file.relocations|
  {
    if n == 0 then []
    else
      var r := file.relocations[n - 1];
      IncludedReferences(file, n - 1, options, demangle)
      + if IncludeRelocation(file, r) then [ReferenceOf(file, r, options, demangle)] else []
  }

  predicate NamesPltSlot(file: ElfImage, r: Relocation) {
    IncludeRelocation(file, r) && IsPltRelocationSection(Text(r.sectionName)) && RelocationRawName(file, r) != ""
  }

  function PltNames(file: ElfImage, n: nat): (names: seq<string>)
    requires n <= |file.relocations|
  {
    if n == 0 then []
    else
      var r := file.relocations[n - 1];
      PltNames(file, n - 1) + if NamesPltSlot(file, r) then [RelocationRawName(file, r)] else []
  }

  // The address of the first section called .plt, if it is loaded anywhere.
  function PltAddress(sections: seq<Section>): Option<uint64> {
    if sections == [] then None
    else if Text(sections[0].name) == ".plt" then (if sections[0].address != 0 then Some(sections[0].address) else None)
    else PltAddress(sections[1..])
  }

  // Slot zero of the table belongs to the loader; entries are 16 bytes.
  function PltSymbol(plt: uint64, slot: nat, rawName: string, options: Options,
    demangle: string -> string): ResolvedSymbol {
    var name := DisplayName(rawName, options, demangle);
    ResolvedSymbol(if Contains(name, "@plt") then name else name + "@plt", rawName, (plt + slot * 16) % TWO64, 16, false, true)
  }

  function PltSymbols(plt: uint64, names: seq<string>, n: nat, options: Options,
    demangle: string -> string): (s: seq<ResolvedSymbol>)
    requires n <= |names|
    ensures |s| == n
  {
    seq(n, k requires 0 <= k < n => PltSymbol(plt, k + 1, names[k], options, demangle))
  }

  // Everything that goes into the symbol table of the index.
  function AllSymbols(file: ElfImage, options: Options, demangle: string -> string): seq<ResolvedSymbol> {
    IncludedSymbols(file.symbols, |file.symbols|, options, demangle)
    + match PltAddress(file.sections)
      case None => []
      case Some(plt) =>
        var names := PltNames(file, |file.relocations|);
        PltSymbols(plt, names, |names|, options, demangle)
  }

  // ---------- the order of the tables ----------

  predicate SymbolLess(a: ResolvedSymbol, b: ResolvedSymbol) {
    if a.address != b.address then a.address < b.address else Before(a.rawName, b.rawName)
  }

  predicate ReferenceLess(a: ResolvedReference, b: ResolvedReference) {
    if a.address != b.address then a.address < b.address
    else if a.section != b.section then Before(a.section, b.section)
    else Before(a.rawName, b.rawName)
  }

  lemma BeforeNegative(a: string, b: string, c: string)
    requires !Before(b, a) && !Before(c, b)
    ensures !Before(c, a)
  {
    BeforeTotal(a, b);
    BeforeTotal(b, c);
    BeforeTotal(a, c);
    if a != b && b != c {
      BeforeTransitive(a, b, c);
    }
  }

  lemma SymbolLessIsOrder()
    ensures WeakOrder(SymbolLess)
  {
    forall a, b | SymbolLess(a, b) ensures !SymbolLess(b, a) {
      BeforeTotal(a.rawName, b.rawName);
    }
    forall a, b, c | !SymbolLess(b, a) && !SymbolLess(c, b) ensures !SymbolLess(c, a) {
      if a.address == b.address == c.address {
        BeforeNegative(a.rawName, b.rawName, c.rawName);
      }
    }
  }

  lemma ReferenceLessIsOrder()
    ensures WeakOrder(ReferenceLess)
  {
    forall a, b | ReferenceLess(a, b) ensures !ReferenceLess(b, a) {
      BeforeTotal(a.section, b.section);
      BeforeTotal(a.rawName, b.rawName);
    }
    forall a, b, c | !ReferenceLess(b, a) && !ReferenceLess(c, b) ensures !ReferenceLess(c, a) {
      if a.address == b.address == c.address {
        SectionOrder(a, b, c);
      }
    }
  }

  lemma SectionOrder(a: ResolvedReference, b: ResolvedReference, c: ResolvedReference)
    requires a.address == b.address == c.address && !ReferenceLess(b, a) && !ReferenceLess(c, b)
    ensures !ReferenceLess(c, a)
  {
    BeforeTotal(a.section, b.section);
    BeforeTotal(b.section, c.section);
    BeforeNegative(a.section, b.section, c.section);
    if a.section == c.section {
      if a.section == b.section {
        BeforeNegative(a.rawName, b.rawName, c.rawName);
      }
    }
  }

  lemma SortedMeansOrdered(index: Index)
    requires SortedBy(SymbolLess, index.symbols) && SortedBy(ReferenceLess, index.relocations)
    ensures Built(index)
  {
    var keys := SymbolAddresses(index.symbols);
    forall i, j | 0 <= i < j < |keys| ensures keys[i] <= keys[j] {
      assert !SymbolLess(index.symbols[j], index.symbols[i]);
    }
    var keys' := ReferenceAddresses(index.relocations);
    forall i, j | 0 <= i < j < |keys'| ensures keys'[i] <= keys'[j] {
      assert !ReferenceLess(index.relocations[j], index.relocations[i]);
    }
  }

  // ---------- building ----------

  // The tables of an index hold exactly the entries of the image, in order.
  ghost predicate IndexOf(file: ElfImage, options: Options, demangle: string -> string, index: Index) {
    && multiset(index.symbols) == multiset(AllSymbols(file, options, demangle))
    && multiset(index.relocations) == multiset(IncludedReferences(file, |file.relocations|, options, demangle))
    && SortedBy(SymbolLess, index.symbols)
    && SortedBy(ReferenceLess, index.relocations)
  }

  method BuildIndex(file: ElfImage, options: Options, demangle: string -> string) returns (index: Index)
    ensures IndexOf(file, options, demangle, index) && Built(index)
  {
    hide IncludeSymbol, IncludeRelocation, SymbolEntryOf, ReferenceOf, PltSymbol, PltAddress, RelocationRawName,
      SortedBy, WeakOrder, NamesPltSlot, IsPltRelocationSection;
    var symbols: seq<ResolvedSymbol> := [];
    for i := 0 to |file.symbols|
      invariant symbols == IncludedSymbols(file.symbols, i, options, demangle)
    {
      if !IncludeSymbol(file.symbols[i], options) {
        continue;
      }
      symbols := symbols + [SymbolEntryOf(file.symbols[i], options, demangle)];
    }
    var relocations, names := CollectReferences(file, options, demangle);
    var plt := PltAddress(file.sections);
    if plt.Some? {
      var slots := CollectSlots(plt.value, names, options, demangle);
      symbols := symbols + slots;
    }
    SymbolLessIsOrder();
    ReferenceLessIsOrder();
    symbols := Sort(SymbolLess, symbols);
    relocations := Sort(ReferenceLess, relocations);
    index := Index(symbols, relocations);
    SortedMeansOrdered(index);
  }

  method CollectReferences(file: ElfImage, options: Options, demangle: string -> string)
    returns (relocations: seq<ResolvedReference>, names: seq<string>)
    ensures relocations == IncludedReferences(file, |file.relocations|, options, demangle)
    ensures names == PltNames(file, |file.relocations|)
  {
    hide IsMetadataSection, ReferenceOf, RelocationRawName, IsPltRelocationSection;
    relocations, names := [], [];
    for i := 0 to |file.relocations|
      invariant relocations == IncludedReferences(file, i, options, demangle)
      invariant names == PltNames(file, i)
    {
      var r := file.relocations[i];
      if IsMetadataSection(Text(r.sectionName)) {
        continue;
      }
      var rawName := RelocationRawName(file, r);
      if ".L" <= rawName {
        continue;
      }
      if IsPltRelocationSection(Text(r.sectionName)) && rawName != "" {
        names := names + [rawName];
      }
      relocations := relocations + [ReferenceOf(file, r, options, demangle)];
    }
  }

  method CollectSlots(plt: uint64, names: seq<string>, options: Options, demangle: string -> string)
    returns (symbols: seq<ResolvedSymbol>)
    ensures symbols == PltSymbols(plt, names, |names|, options, demangle)
  {
    hide PltSymbol;
    symbols := [];
    var slot := 1;
    for i := 0 to |names|
      invariant slot == i + 1
      invariant symbols == PltSymbols(plt, names, i, options, demangle)
    {
      symbols := symbols + [PltSymbol(plt, slot, names[i], options, demangle)];
      slot := slot + 1;
    }
  }

  // ---------- lookups over a built index ----------

  // A symbol of the image that is kept and starts at the address.
  predicate SymbolStarts(symbols: seq<Symbol>, options: Options, a: uint64) {
    exists s :: s in symbols && IncludeSymbol(s, options) && s.address == a
  }

  predicate EntryStarts(entries: seq<ResolvedSymbol>, a: uint64) {
    exists r :: r in entries && r.address == a
  }

  lemma StartsConcat(x: seq<ResolvedSymbol>, y: seq<ResolvedSymbol>, a: uint64)
    ensures EntryStarts(x + y, a) <==> EntryStarts(x, a) || EntryStarts(y, a)
  {
  }

  lemma {:induction false} IncludedSymbolStarts(symbols: seq<Symbol>, n: nat, options: Options,
    demangle: string -> string, a: uint64)
    requires n <= |symbols|
    ensures EntryStarts(IncludedSymbols(symbols, n, options, demangle), a) <==> SymbolStarts(symbols[..n], options, a)
  {
    hide IncludeSymbol, DisplayName;
    if n > 0 {
      IncludedSymbolStarts(symbols, n - 1, options, demangle, a);
      var last := symbols[n - 1];
      var before := IncludedSymbols(symbols, n - 1, options, demangle);
      var more := if IncludeSymbol(last, options) then [SymbolEntryOf(last, options, demangle)] else [];
      StartsConcat(before, more, a);
      assert symbols[..n] == symbols[..n - 1] + [last];
    }
  }

  // A PLT slot synthesised at the address: the k-th name stands (k + 1) * 16 past the start.
  predicate SlotStarts(file: ElfImage, a: uint64) {
    && PltAddress(file.sections).Some?
    && exists k: nat :: k < |PltNames(file, |file.relocations|)| && SlotAddress(PltAddress(file.sections).value, k) == a
  }

  function SlotAddress(plt: uint64, k: nat): uint64 {
    (plt + (k + 1) * 16) % TWO64
  }

  lemma SlotsStart(plt: uint64, names: seq<string>, options: Options, demangle: string -> string, a: uint64)
    ensures EntryStarts(PltSymbols(plt, names, |names|, options, demangle), a)
       <==> exists k: nat :: k < |names| && SlotAddress(plt, k) == a
  {
    hide DisplayName, Contains, PltSymbol;
    var slots := PltSymbols(plt, names, |names|, options, demangle);
    if r :| r in slots && r.address == a {
      var k: nat :| k < |slots| && slots[k] == r;
      SlotPlace(plt, k, names[k], options, demangle);
      assert SlotAddress(plt, k) == a;
    }
    if k: nat :| k < |names| && SlotAddress(plt, k) == a {
      SlotPlace(plt, k, names[k], options, demangle);
      assert slots[k] in slots && slots[k].address == a;
    }
  }

  lemma SlotPlace(plt: uint64, k: nat, rawName: string, options: Options, demangle: string -> string)
    ensures PltSymbol(plt, k + 1, rawName, options, demangle).address == SlotAddress(plt, k)
  {
  }

  // A symbol is found at an address exactly when the image has one to show there: a symbol
  // that passes the filter, or a PLT slot.
  lemma SymbolFoundIffPresent(file: ElfImage, options: Options, demangle: string -> string, index: Index, a: uint64)
    requires IndexOf(file, options, demangle, index)
    ensures Built(index)
    ensures SymbolAt(index, a).Some? <==> SymbolStarts(file.symbols, options, a) || SlotStarts(file, a)
  {
    hide SymbolAt, Built, IncludeSymbol, SortedBy, PltSymbols, IncludedSymbols, EntryStarts, PltAddress, PltNames, SymbolStarts;
    SortedMeansOrdered(index);
    SymbolAtExact(index, a);
    SameElements(index.symbols, AllSymbols(file, options, demangle));
    SameStarts(index.symbols, AllSymbols(file, options, demangle), a);
    var n := |file.symbols|;
    assert file.symbols[..n] == file.symbols;
    IncludedSymbolStarts(file.symbols, n, options, demangle, a);
    NoneStarts(a);
    var included := IncludedSymbols(file.symbols, n, options, demangle);
    match PltAddress(file.sections) {
      case None =>
        StartsConcat(included, [], a);
      case Some(plt) =>
        var names := PltNames(file, |file.relocations|);
        SlotsStart(plt, names, options, demangle, a);
        StartsConcat(included, PltSymbols(plt, names, |names|, options, demangle), a);
    }
  }

  lemma NoneStarts(a: uint64)
    ensures !EntryStarts([], a)
  {
  }

  lemma SameStarts(x: seq<ResolvedSymbol>, y: seq<ResolvedSymbol>, a: uint64)
    requires forall s :: s in x <==> s in y
    ensures EntryStarts(x, a) <==> EntryStarts(y, a)
    ensures EntryStarts(x, a) <==> exists s :: s in x && s.address == a
  {
  }

  // A relocation of the image that is kept and lies in a window.
  predicate RelocationLies(file: ElfImage, n: nat, lo: nat, hi: nat)
    requires n <= |file.relocations|
  {
    exists k: nat :: k < n && IncludeRelocation(file, file.relocations[k]) && lo <= file.relocations[k].offset < hi
  }

  lemma {:induction false} IncludedReferencesLie(
    file: ElfImage, n: nat, options: Options, demangle: string -> string, lo: nat, hi: nat)
    requires n <= |file.relocations|
    ensures (exists r :: r in IncludedReferences(file, n, options, demangle) && lo <= r.address < hi)
       <==> RelocationLies(file, n, lo, hi)
  {
    hide IncludeRelocation, RelocationDisplayName, RelocationRawName;
    if n > 0 {
      IncludedReferencesLie(file, n - 1, options, demangle, lo, hi);
      var last := file.relocations[n - 1];
      var before := IncludedReferences(file, n - 1, options, demangle);
      if IncludeRelocation(file, last) {
        var r := ReferenceOf(file, last, options, demangle);
        assert IncludedReferences(file, n, options, demangle) == before + [r];
        assert r in before + [r];
        if lo <= r.address < hi {
          assert RelocationLies(file, n, lo, hi);
        }
      } else {
        assert IncludedReferences(file, n, options, demangle) == before;
      }
    }
  }

  // An instruction gets a reference exactly when a kept relocation of the image lies in
  // its bytes.
  lemma ReferenceFoundIffPresent(
    file: ElfImage, options: Options, demangle: string -> string, index: Index, i: Instruction)
    requires IndexOf(file, options, demangle, index)
    requires i.size > 0 && i.address + i.size < TWO64
    ensures Built(index)
    ensures RelocationInInstruction(index, i).Some?
       <==> RelocationLies(file, |file.relocations|, i.address, i.address + i.size)
  {
    hide RelocationInInstruction, Built, SortedBy, IncludedReferences, RelocationLies;
    SortedMeansOrdered(index);
    ReferenceWithinSpace(index, i);
    var n := |file.relocations|;
    SameElements(index.relocations, IncludedReferences(file, n, options, demangle));
    IncludedReferencesLie(file, n, options, demangle, i.address, i.address + i.size);
  }
}
