// What a built index holds, entry by entry, stated on the symbols, relocations and sections
// of the image.

module IndexMeaning {
  import opened Common
  import opened ElfFile
  import opened ElfSymbols
  import opened IndexBuilder
  import opened Resolver
  import opened Slices
  import opened Sorting
  import opened TextOrder

  // ---------- texts ----------

  // The text has one character for each byte.
  predicate Spells(text: string, bytes: seq<byte>) {
    |text| == |bytes| && forall i | 0 <= i < |text| :: text[i] as int == bytes[i]
  }

  lemma TextSpells(bytes: seq<byte>)
    ensures Spells(Text(bytes), bytes)
  {
  }

  lemma OneSpelling(a: string, b: string, bytes: seq<byte>)
    requires Spells(a, bytes) && Spells(b, bytes)
    ensures a == b
  {
    forall i | 0 <= i < |a| ensures a[i] == b[i] {
      assert a[i] as int == bytes[i] == b[i] as int;
    }
  }

  ghost predicate Inside(needle: string, text: string) {
    exists before: string, after: string :: text == before + needle + after
  }

  lemma ContainsIff(text: string, needle: string)
    ensures Contains(text, needle) <==> Inside(needle, text)
  {
    if Contains(text, needle) {
      var i :| 0 <= i <= |text| && At(text, i, needle);
      assert text == text[..i] + needle + text[i + |needle|..];
    }
    if Inside(needle, text) {
      var before: string, after: string :| text == before + needle + after;
      assert text[|before|..|before| + |needle|] == needle;
      assert At(text, |before|, needle);
    }
  }

  // ---------- symbols ----------

  // The name begins with `.L`.
  predicate LocalLabel(name: seq<byte>) {
    |name| >= 2 && name[0] == 0x2E && name[1] == 0x4C
  }

  lemma LocalLabelIff(name: seq<byte>)
    ensures ".L" <= Text(name) <==> LocalLabel(name)
  {
    TextSpells(name);
    var text := Text(name);
    if |name| >= 2 {
      assert '.' as int == 0x2E && 'L' as int == 0x4C;
      assert text[..2] == [text[0], text[1]];
      assert ".L" <= text <==> text[0] == '.' && text[1] == 'L';
    }
  }

  // The symbols that are kept: defined, named and of a kind that has a place; no local label,
  // no mapping symbol with a `$`, and only with the options' leave dynamic or local.
  predicate Kept(s: Symbol, options: Options) {
    && s.defined && s.name != [] && s.name[0] != 0x24 && !LocalLabel(s.name)
    && s.kind in {NoType, Object, Function, CommonBlock, Tls, OtherType}
    && (options.includeDynamicSymbols || !s.isDynamic)
    && (options.includeLocalSymbols || s.bind in {Global, Weak, OtherBind})
  }

  lemma KeptIff(s: Symbol, options: Options)
    ensures IncludeSymbol(s, options) <==> Kept(s, options)
  {
    LocalLabelIff(s.name);
    TextSpells(s.name);
    if s.name != [] {
      assert '$' as int == 0x24;
      assert Text(s.name)[..1] == [Text(s.name)[0]];
      assert "$" <= Text(s.name) <==> Text(s.name)[0] == '$';
    }
  }

  // How a name is shown.
  predicate ShownAs(name: string, rawName: string, options: Options, demangle: string -> string) {
    name == if rawName != "" && options.demangleNames then demangle(rawName) else rawName
  }

  predicate EntryFor(s: Symbol, options: Options, demangle: string -> string, r: ResolvedSymbol) {
    && Spells(r.rawName, s.name) && ShownAs(r.name, r.rawName, options, demangle)
    && r.address == s.address && r.size == s.size && r.isDynamic == s.isDynamic && !r.exact
  }

  lemma EntryIff(s: Symbol, options: Options, demangle: string -> string, r: ResolvedSymbol)
    ensures r == SymbolEntryOf(s, options, demangle) <==> EntryFor(s, options, demangle, r)
  {
    TextSpells(s.name);
    if EntryFor(s, options, demangle, r) {
      OneSpelling(r.rawName, Text(s.name), s.name);
    }
  }

  ghost predicate FromSymbol(symbols: seq<Symbol>, n: nat, options: Options, demangle: string -> string,
    r: ResolvedSymbol)
    requires n <= |symbols|
  {
    exists i :: 0 <= i < n && Kept(symbols[i], options) && EntryFor(symbols[i], options, demangle, r)
  }

  lemma {:induction false} IncludedIff(symbols: seq<Symbol>, n: nat, options: Options, demangle: string -> string,
    r: ResolvedSymbol)
    requires n <= |symbols|
    ensures r in IncludedSymbols(symbols, n, options, demangle) <==> FromSymbol(symbols, n, options, demangle, r)
  {
    hide IncludeSymbol, Kept, SymbolEntryOf, EntryFor;
    if n > 0 {
      IncludedIff(symbols, n - 1, options, demangle, r);
      KeptIff(symbols[n - 1], options);
      EntryIff(symbols[n - 1], options, demangle, r);
    }
  }

  // ---------- relocations ----------

  // The symbol name a relocation goes by.
  function NameBytes(file: ElfImage, r: Relocation): seq<byte> {
    if r.symbolName != [] then r.symbolName
    else if r.symbolIndex < |file.symbols| then file.symbols[r.symbolIndex].name
    else []
  }

  lemma RawNameIff(file: ElfImage, r: Relocation, rawName: string)
    ensures rawName == RelocationRawName(file, r) <==> Spells(rawName, NameBytes(file, r))
  {
    TextSpells(NameBytes(file, r));
    if Spells(rawName, NameBytes(file, r)) {
      OneSpelling(rawName, Text(NameBytes(file, r)), NameBytes(file, r));
    }
  }

  // The relocations that are kept: not for metadata and not to a local label.
  ghost predicate KeptRelocation(file: ElfImage, r: Relocation) {
    var section := Text(r.sectionName);
    && !Inside(".debug", section) && !Inside(".eh_frame", section)
    && !Inside(".comment", section) && !Inside(".note", section)
    && !LocalLabel(NameBytes(file, r))
  }

  lemma KeptRelocationIff(file: ElfImage, r: Relocation)
    ensures IncludeRelocation(file, r) <==> KeptRelocation(file, r)
  {
    hide Contains, Inside, Text;
    var section := Text(r.sectionName);
    ContainsIff(section, ".debug");
    ContainsIff(section, ".eh_frame");
    ContainsIff(section, ".comment");
    ContainsIff(section, ".note");
    LocalLabelIff(NameBytes(file, r));
    EmptyText();
  }

  lemma EmptyText()
    ensures Text([]) == ""
  {
  }

  // A name with the mark of its table, which it gets once.
  ghost predicate Marked(name: string, shown: string, section: string) {
    if Inside(".plt", section) && !Inside("@plt", shown) then name == shown + "@plt"
    else if Inside(".got", section) && !Inside("@got", shown) then name == shown + "@got"
    else name == shown
  }

  // A relocation that has no name to show is shown by its section.
  predicate Stands(shown: string, name: string, section: string) {
    shown == if name != "" then name else if section == "" then "<relocation>" else section
  }

  ghost predicate NameFor(name: string, rawName: string, section: string, options: Options, demangle: string -> string) {
    exists shown, plain :: ShownAs(plain, rawName, options, demangle) && Stands(shown, plain, section)
      && Marked(name, shown, section)
  }

  lemma NameIff(name: string, rawName: string, section: string, options: Options, demangle: string -> string)
    ensures name == RelocationDisplayName(rawName, section, options, demangle)
       <==> NameFor(name, rawName, section, options, demangle)
  {
    hide Contains, Inside;
    var plain := DisplayName(rawName, options, demangle);
    var shown := if plain != "" then plain else if section == "" then "<relocation>" else section;
    assert ShownAs(plain, rawName, options, demangle) && Stands(shown, plain, section);
    ContainsIff(section, ".plt");
    ContainsIff(section, ".got");
    ContainsIff(shown, "@plt");
    ContainsIff(shown, "@got");
  }

  ghost predicate ReferenceFor(file: ElfImage, r: Relocation, options: Options, demangle: string -> string,
    e: ResolvedReference)
  {
    && e.address == r.offset && e.kind == r.kind && e.addend == r.addend && e.hasAddend == r.hasAddend
    && Spells(e.section, r.sectionName) && Spells(e.rawName, NameBytes(file, r))
    && NameFor(e.name, e.rawName, e.section, options, demangle)
  }

  lemma ReferenceIff(file: ElfImage, r: Relocation, options: Options, demangle: string -> string, e: ResolvedReference)
    ensures e == ReferenceOf(file, r, options, demangle) <==> ReferenceFor(file, r, options, demangle, e)
  {
    TextSpells(r.sectionName);
    RawNameIff(file, r, e.rawName);
    if Spells(e.section, r.sectionName) {
      OneSpelling(e.section, Text(r.sectionName), r.sectionName);
    }
    NameIff(e.name, e.rawName, e.section, options, demangle);
    hide Text, RelocationRawName, RelocationDisplayName, NameFor, NameBytes, Spells;
  }

  ghost predicate FromRelocation(file: ElfImage, n: nat, options: Options, demangle: string -> string,
    e: ResolvedReference)
    requires n <= |file.relocations|
  {
    exists i :: 0 <= i < n && KeptRelocation(file, file.relocations[i])
      && ReferenceFor(file, file.relocations[i], options, demangle, e)
  }

  lemma {:induction false} ReferencesIff(file: ElfImage, n: nat, options: Options, demangle: string -> string,
    e: ResolvedReference)
    requires n <= |file.relocations|
    ensures e in IncludedReferences(file, n, options, demangle) <==> FromRelocation(file, n, options, demangle, e)
  {
    hide IncludeRelocation, KeptRelocation, ReferenceOf, ReferenceFor;
    if n > 0 {
      ReferencesIff(file, n - 1, options, demangle, e);
      KeptRelocationIff(file, file.relocations[n - 1]);
      ReferenceIff(file, file.relocations[n - 1], options, demangle, e);
    }
  }

  // ---------- PLT slots ----------

  // The relocations that have a slot in the procedure linkage table.
  ghost predicate TakesSlot(file: ElfImage, r: Relocation) {
    var section := Text(r.sectionName);
    KeptRelocation(file, r) && NameBytes(file, r) != [] && (Inside(".rela.plt", section) || Inside(".rel.plt", section))
  }

  lemma TakesSlotIff(file: ElfImage, r: Relocation)
    ensures NamesPltSlot(file, r) <==> TakesSlot(file, r)
  {
    var section := Text(r.sectionName);
    KeptRelocationIff(file, r);
    ContainsIff(section, ".rela.plt");
    ContainsIff(section, ".rel.plt");
    RawNameIff(file, r, RelocationRawName(file, r));
    hide Contains, Inside, Text, IncludeRelocation, KeptRelocation;
  }

  // The slots taken by the first n relocations.
  ghost function Slots(file: ElfImage, n: nat): set<nat>
    requires n <= |file.relocations|
  {
    set i: nat | i < n && TakesSlot(file, file.relocations[i])
  }

  ghost predicate SlotName(file: ElfImage, n: nat, k: nat, rawName: string)
    requires n <= |file.relocations|
  {
    exists i: nat :: i < n && TakesSlot(file, file.relocations[i]) && |Slots(file, i)| == k
      && Spells(rawName, NameBytes(file, file.relocations[i]))
  }

  lemma SlotsTurn(file: ElfImage, n: nat)
    requires n < |file.relocations|
    ensures |Slots(file, n + 1)| == |Slots(file, n)| + if TakesSlot(file, file.relocations[n]) then 1 else 0
  {
    hide TakesSlot;
    if TakesSlot(file, file.relocations[n]) {
      assert Slots(file, n + 1) == Slots(file, n) + {n};
    } else {
      assert Slots(file, n + 1) == Slots(file, n);
    }
  }

  // The k-th name is that of the relocation with k slots taken before it.
  lemma {:induction false} NamesIff(file: ElfImage, n: nat, k: nat, rawName: string)
    requires n <= |file.relocations|
    ensures |PltNames(file, n)| == |Slots(file, n)|
    ensures k < |PltNames(file, n)| && PltNames(file, n)[k] == rawName <==> SlotName(file, n, k, rawName)
  {
    hide NamesPltSlot, TakesSlot, Slots, Spells, NameBytes, RelocationRawName;
    if n == 0 {
      NoSlots(file);
    } else {
      NamesIff(file, n - 1, k, rawName);
      SlotsTurn(file, n - 1);
      TakesSlotIff(file, file.relocations[n - 1]);
      RawNameIff(file, file.relocations[n - 1], rawName);
    }
  }

  lemma NoSlots(file: ElfImage)
    ensures |Slots(file, 0)| == 0
  {
    assert Slots(file, 0) == {};
  }

  // The first section named `.plt`, which is loaded at an address other than zero.
  predicate PltAt(sections: seq<Section>, plt: uint64) {
    plt != 0 && exists i :: 0 <= i < |sections| && FirstPlt(sections, i) && sections[i].address == plt
  }

  predicate FirstPlt(sections: seq<Section>, i: nat)
    requires i < |sections|
  {
    && sections[i].name == [0x2E, 0x70, 0x6C, 0x74]
    && forall j | 0 <= j < i :: sections[j].name != [0x2E, 0x70, 0x6C, 0x74]
  }

  lemma PltNameIff(name: seq<byte>)
    ensures Text(name) == ".plt" <==> name == [0x2E, 0x70, 0x6C, 0x74]
  {
    TextSpells(name);
    assert Spells(".plt", [0x2E, 0x70, 0x6C, 0x74]);
    if name == [0x2E, 0x70, 0x6C, 0x74] {
      OneSpelling(Text(name), ".plt", name);
    }
    if Text(name) == ".plt" {
      assert |name| == 4 && name[0] == 0x2E && name[1] == 0x70 && name[2] == 0x6C && name[3] == 0x74;
    }
  }

  lemma {:induction false} PltIff(sections: seq<Section>, plt: uint64)
    ensures PltAddress(sections) == Some(plt) <==> PltAt(sections, plt)
  {
    hide Text;
    if sections != [] {
      PltNameIff(sections[0].name);
      PltIff(sections[1..], plt);
      if sections[0].name != [0x2E, 0x70, 0x6C, 0x74] {
        PltSkips(sections, plt);
      }
    }
  }

  lemma PltSkips(sections: seq<Section>, plt: uint64)
    requires sections != [] && sections[0].name != [0x2E, 0x70, 0x6C, 0x74]
    ensures PltAt(sections, plt) <==> PltAt(sections[1..], plt)
  {
    if PltAt(sections, plt) {
      var i :| 0 <= i < |sections| && FirstPlt(sections, i) && sections[i].address == plt;
      assert sections[1..][i - 1] == sections[i];
      assert forall j | 0 <= j < i - 1 :: sections[1..][j] == sections[j + 1];
      assert FirstPlt(sections[1..], i - 1);
    }
    if PltAt(sections[1..], plt) {
      var i :| 0 <= i < |sections[1..]| && FirstPlt(sections[1..], i) && sections[1..][i].address == plt;
      forall j | 0 <= j < i + 1 ensures sections[j].name != [0x2E, 0x70, 0x6C, 0x74] {
        assert j > 0 ==> sections[j] == sections[1..][j - 1];
      }
      assert sections[i + 1] == sections[1..][i];
      assert FirstPlt(sections, i + 1);
    }
  }

  // The k-th slot, behind the loader's own: 16 bytes each.
  ghost predicate SlotFor(plt: uint64, k: nat, rawName: string, options: Options, demangle: string -> string,
    r: ResolvedSymbol)
  {
    && r.rawName == rawName && r.address == (plt + 16 + 16 * k) % TWO64 && r.size == 16 && r.isDynamic && !r.exact
    && exists shown :: ShownAs(shown, rawName, options, demangle)
         && r.name == if Inside("@plt", shown) then shown else shown + "@plt"
  }

  lemma SlotIff(plt: uint64, k: nat, rawName: string, options: Options, demangle: string -> string, r: ResolvedSymbol)
    ensures r == PltSymbol(plt, k + 1, rawName, options, demangle) <==> SlotFor(plt, k, rawName, options, demangle, r)
  {
    hide Contains, Inside;
    var shown := DisplayName(rawName, options, demangle);
    assert ShownAs(shown, rawName, options, demangle);
    ContainsIff(shown, "@plt");
  }

  ghost predicate FromSlot(file: ElfImage, options: Options, demangle: string -> string, r: ResolvedSymbol) {
    exists plt, k: nat :: PltAt(file.sections, plt) && SlotName(file, |file.relocations|, k, r.rawName)
      && SlotFor(plt, k, r.rawName, options, demangle, r)
  }

  lemma SlotSymbolsIff(file: ElfImage, plt: uint64, options: Options, demangle: string -> string, r: ResolvedSymbol)
    requires PltAt(file.sections, plt)
    ensures var names := PltNames(file, |file.relocations|);
      r in PltSymbols(plt, names, |names|, options, demangle)
      <==> exists k: nat ::
        SlotName(file, |file.relocations|, k, r.rawName) && SlotFor(plt, k, r.rawName, options, demangle, r)
  {
    hide PltSymbol, SlotName, PltNames, PltAt, ShownAs, Inside;
    var names := PltNames(file, |file.relocations|);
    var slots := PltSymbols(plt, names, |names|, options, demangle);
    if r in slots {
      var k: nat :| k < |names| && slots[k] == r;
      SlotIff(plt, k, names[k], options, demangle, r);
      NamesIff(file, |file.relocations|, k, r.rawName);
    }
    if k: nat :| SlotName(file, |file.relocations|, k, r.rawName) && SlotFor(plt, k, r.rawName, options, demangle, r) {
      NamesIff(file, |file.relocations|, k, r.rawName);
      SlotIff(plt, k, names[k], options, demangle, r);
      assert slots[k] == r;
    }
  }

  // ---------- the tables ----------

  // The symbol table of the index holds an entry exactly when a kept symbol of the image or
  // a slot of the procedure linkage table has it.
  lemma SymbolsHeld(file: ElfImage, options: Options, demangle: string -> string, index: Index, r: ResolvedSymbol)
    requires IndexOf(file, options, demangle, index)
    ensures r in index.symbols <==>
      FromSymbol(file.symbols, |file.symbols|, options, demangle, r) || FromSlot(file, options, demangle, r)
  {
    hide IncludedSymbols, PltSymbols, PltAddress, PltNames, PltAt, SlotName, SlotFor, FromSymbol, SortedBy;
    SameElements(index.symbols, AllSymbols(file, options, demangle));
    IncludedIff(file.symbols, |file.symbols|, options, demangle, r);
    forall plt: uint64 ensures PltAddress(file.sections) == Some(plt) <==> PltAt(file.sections, plt) {
      PltIff(file.sections, plt);
    }
    if PltAddress(file.sections).Some? {
      SlotSymbolsIff(file, PltAddress(file.sections).value, options, demangle, r);
    }
  }

  // The relocation table holds an entry exactly when a kept relocation of the image has it.
  lemma RelocationsHeld(file: ElfImage, options: Options, demangle: string -> string, index: Index, e: ResolvedReference)
    requires IndexOf(file, options, demangle, index)
    ensures e in index.relocations <==> FromRelocation(file, |file.relocations|, options, demangle, e)
  {
    hide IncludedReferences, FromRelocation, AllSymbols, SortedBy;
    SameElements(index.relocations, IncludedReferences(file, |file.relocations|, options, demangle));
    ReferencesIff(file, |file.relocations|, options, demangle, e);
  }

  lemma {:induction false} IncludedCount(symbols: seq<Symbol>, n: nat, options: Options, demangle: string -> string)
    requires n <= |symbols|
    ensures |IncludedSymbols(symbols, n, options, demangle)| == |set i | 0 <= i < n && Kept(symbols[i], options)|
  {
    hide IncludeSymbol, Kept, SymbolEntryOf;
    var kept := set i | 0 <= i < n && Kept(symbols[i], options);
    if n == 0 {
      assert kept == {};
    } else {
      IncludedCount(symbols, n - 1, options, demangle);
      KeptIff(symbols[n - 1], options);
      var before := set i | 0 <= i < n - 1 && Kept(symbols[i], options);
      assert kept == if Kept(symbols[n - 1], options) then before + {n - 1} else before;
    }
  }

  lemma {:induction false} ReferenceCount(file: ElfImage, n: nat, options: Options, demangle: string -> string)
    requires n <= |file.relocations|
    ensures |IncludedReferences(file, n, options, demangle)|
         == |set i | 0 <= i < n && KeptRelocation(file, file.relocations[i])|
  {
    hide IncludeRelocation, KeptRelocation, ReferenceOf;
    var kept := set i | 0 <= i < n && KeptRelocation(file, file.relocations[i]);
    if n == 0 {
      assert kept == {};
    } else {
      ReferenceCount(file, n - 1, options, demangle);
      KeptRelocationIff(file, file.relocations[n - 1]);
      var before := set i | 0 <= i < n - 1 && KeptRelocation(file, file.relocations[i]);
      assert kept == if KeptRelocation(file, file.relocations[n - 1]) then before + {n - 1} else before;
    }
  }

  // None is held twice for one reason: the tables are as long as what is kept and the slots.
  lemma ReferencesCounted(file: ElfImage, options: Options, demangle: string -> string, index: Index)
    requires IndexOf(file, options, demangle, index)
    ensures |index.relocations|
         == |set i | 0 <= i < |file.relocations| && KeptRelocation(file, file.relocations[i])|
  {
    hide AllSymbols, IncludedReferences, KeptRelocation, SortedBy;
    var included := IncludedReferences(file, |file.relocations|, options, demangle);
    assert |multiset(index.relocations)| == |multiset(included)|;
    ReferenceCount(file, |file.relocations|, options, demangle);
  }

  lemma PltFound(sections: seq<Section>)
    ensures PltAddress(sections).Some? <==> exists plt :: PltAt(sections, plt)
  {
    hide PltAt, PltAddress;
    if PltAddress(sections).Some? {
      PltIff(sections, PltAddress(sections).value);
    }
    if plt :| PltAt(sections, plt) {
      PltIff(sections, plt);
    }
  }

  lemma AllSymbolsLength(file: ElfImage, options: Options, demangle: string -> string)
    ensures |AllSymbols(file, options, demangle)| == |IncludedSymbols(file.symbols, |file.symbols|, options, demangle)|
      + if PltAddress(file.sections).Some? then |PltNames(file, |file.relocations|)| else 0
  {
    hide IncludedSymbols, PltAddress, PltNames, PltSymbol;
  }

  lemma SymbolsCounted(file: ElfImage, options: Options, demangle: string -> string, index: Index)
    requires IndexOf(file, options, demangle, index)
    ensures |index.symbols|
         == |set i | 0 <= i < |file.symbols| && Kept(file.symbols[i], options)|
            + if exists plt :: PltAt(file.sections, plt) then |Slots(file, |file.relocations|)| else 0
  {
    hide AllSymbols, IncludedReferences, IncludedSymbols, PltAddress, PltNames, PltAt, Kept, Slots, SlotName, SortedBy;
    assert |multiset(index.symbols)| == |multiset(AllSymbols(file, options, demangle))|;
    AllSymbolsLength(file, options, demangle);
    IncludedCount(file.symbols, |file.symbols|, options, demangle);
    NamesIff(file, |file.relocations|, 0, "");
    PltFound(file.sections);
  }

  // ---------- the order ----------

  // Entries at one address are in the order of their names, relocations first in that of
  // their sections.
  lemma TablesInOrder(file: ElfImage, options: Options, demangle: string -> string, index: Index, i: nat, j: nat)
    requires IndexOf(file, options, demangle, index) && i < j
    ensures j < |index.symbols| ==>
      var a, b := index.symbols[i], index.symbols[j];
      a.address < b.address || (a.address == b.address && AtOrBefore(a.rawName, b.rawName))
    ensures j < |index.relocations| ==>
      var a, b := index.relocations[i], index.relocations[j];
      || a.address < b.address
      || (a.address == b.address && a.section != b.section && AtOrBefore(a.section, b.section))
      || (a.address == b.address && a.section == b.section && AtOrBefore(a.rawName, b.rawName))
  {
    hide AllSymbols, IncludedReferences, Before, AtOrBefore;
    if j < |index.symbols| {
      assert !SymbolLess(index.symbols[j], index.symbols[i]);
      NotBefore(index.symbols[i].rawName, index.symbols[j].rawName);
    }
    if j < |index.relocations| {
      assert !ReferenceLess(index.relocations[j], index.relocations[i]);
      NotBefore(index.relocations[i].section, index.relocations[j].section);
      NotBefore(index.relocations[i].rawName, index.relocations[j].rawName);
    }
  }
}
