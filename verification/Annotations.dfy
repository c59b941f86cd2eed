// Instructions annotated with symbols, relocations and string literals.

module Annotations {
  import opened Arithmetic
  import opened Common
  import opened ElfFile
  import opened ElfReader
  import opened Resolver
  import opened Sorting
  import opened Strings

  datatype AnnotatedInstruction = AnnotatedInstruction(
    instruction: Instruction,
    symbol: Option<ResolvedSymbol>,
    reference: Option<ResolvedReference>,
    branchTargetSymbol: Option<ResolvedSymbol>,
    stringReference: Option<Literal>)

  // ---------- symbols and relocations ----------

  function AnnotatedOf(index: Index, i: Instruction): AnnotatedInstruction {
    AnnotatedInstruction(
      i, NearestSymbol(index, i.address), RelocationInInstruction(index, i),
      if i.branchTarget.Some? then SymbolAt(index, i.branchTarget.value) else None, None)
  }

  // The last symbol that does not start above the address; exact when it starts there.
  ghost predicate NearestIs(index: Index, address: uint64, found: Option<ResolvedSymbol>) {
    match found
    case None => forall s | s in index.symbols :: s.address > address
    case Some(n) =>
      exists k ::
        && 0 <= k < |index.symbols| && LastUpTo(index.symbols, address, k)
        && n == index.symbols[k].(exact := index.symbols[k].address == address)
  }

  predicate LastUpTo(symbols: seq<ResolvedSymbol>, address: uint64, k: nat)
    requires k < |symbols|
  {
    symbols[k].address <= address && forall j | k < j < |symbols| :: symbols[j].address > address
  }

  // The first symbol that starts at the address, marked exact.
  ghost predicate StartingIs(index: Index, address: uint64, found: Option<ResolvedSymbol>) {
    match found
    case None => forall s | s in index.symbols :: s.address != address
    case Some(n) =>
      exists k ::
        && 0 <= k < |index.symbols| && FirstAt(index.symbols, address, k)
        && n == index.symbols[k].(exact := true)
  }

  predicate FirstAt(symbols: seq<ResolvedSymbol>, address: uint64, k: nat)
    requires k < |symbols|
  {
    symbols[k].address == address && forall j | 0 <= j < k :: symbols[j].address != address
  }

  // The first relocation from the instruction on, if it lies where the search looks.
  ghost predicate ReferenceIs(index: Index, i: Instruction, found: Option<ResolvedReference>) {
    match found
    case None => !SomeRelocation(index, i.address, SearchedEnd(i))
    case Some(r) =>
      exists k ::
        && 0 <= k < |index.relocations| && FirstFrom(index.relocations, i.address, k)
        && r == index.relocations[k] && r.address < SearchedEnd(i)
  }

  predicate FirstFrom(relocations: seq<ResolvedReference>, address: uint64, k: nat)
    requires k < |relocations|
  {
    relocations[k].address >= address && forall j | 0 <= j < k :: relocations[j].address < address
  }

  // What an annotated instruction says: the symbol it stands in, the relocation in it and
  // the symbol its branch goes to.
  ghost predicate Annotates(index: Index, i: Instruction, a: AnnotatedInstruction) {
    && a.instruction == i
    && NearestIs(index, i.address, a.symbol)
    && ReferenceIs(index, i, a.reference)
    && (match i.branchTarget
        case None => a.branchTargetSymbol.None?
        case Some(target) => StartingIs(index, target, a.branchTargetSymbol))
    && a.stringReference.None?
  }

  lemma NearestFound(index: Index, address: uint64)
    requires Built(index)
    ensures NearestIs(index, address, NearestSymbol(index, address))
  {
    hide Built, UpperBound;
    var keys := SymbolAddresses(index.symbols);
    BuiltKeys(index);
    var upper := UpperBound(keys, address);
    UpperBoundSplits(keys, address);
    forall j | 0 <= j < |index.symbols| ensures index.symbols[j].address <= address <==> j < upper {
      assert keys[j] == index.symbols[j].address;
    }
    if upper > 0 {
      assert LastUpTo(index.symbols, address, upper - 1);
    }
  }

  lemma StartingFound(index: Index, address: uint64)
    requires Built(index)
    ensures StartingIs(index, address, SymbolAt(index, address))
  {
    hide Built, LowerBound;
    SymbolAtExact(index, address);
    if SymbolAt(index, address).Some? {
      var k :| 0 <= k < |index.symbols| && index.symbols[k].address == address
        && SymbolAt(index, address).value == index.symbols[k].(exact := true)
        && forall j | 0 <= j < k :: index.symbols[j].address < address;
      assert FirstAt(index.symbols, address, k);
    }
  }

  lemma ReferenceFound(index: Index, i: Instruction)
    requires Built(index)
    ensures ReferenceIs(index, i, RelocationInInstruction(index, i))
  {
    hide Built, LowerBound, SearchedEnd;
    var keys := ReferenceAddresses(index.relocations);
    BuiltKeys(index);
    RelocationSearch(index, i);
    var first := LowerBound(keys, i.address);
    LowerBoundSplits(keys, i.address);
    if first < |keys| {
      forall j | 0 <= j < first ensures index.relocations[j].address < i.address {
        assert keys[j] == index.relocations[j].address;
      }
      assert keys[first] == index.relocations[first].address;
      assert FirstFrom(index.relocations, i.address, first);
    }
  }

  lemma AnnotatedAnnotates(index: Index, i: Instruction)
    requires Built(index)
    ensures Annotates(index, i, AnnotatedOf(index, i))
  {
    hide Built, NearestIs, StartingIs, ReferenceIs, NearestSymbol, SymbolAt, RelocationInInstruction;
    NearestFound(index, i.address);
    ReferenceFound(index, i);
    if i.branchTarget.Some? {
      StartingFound(index, i.branchTarget.value);
    }
  }

  method Annotate(index: Index, instructions: seq<Instruction>) returns (annotated: seq<AnnotatedInstruction>)
    ensures |annotated| == |instructions|
    ensures forall k | 0 <= k < |annotated| :: annotated[k] == AnnotatedOf(index, instructions[k])
    ensures Built(index) ==> forall k | 0 <= k < |annotated| :: Annotates(index, instructions[k], annotated[k])
  {
    forall i | Built(index) ensures Annotates(index, i, AnnotatedOf(index, i)) {
      AnnotatedAnnotates(index, i);
    }
    hide Annotates;
    hide Built, AnnotatedOf;
    annotated := [];
    for n := 0 to |instructions|
      invariant |annotated| == n && forall k | 0 <= k < n :: annotated[k] == AnnotatedOf(index, instructions[k])
    {
      annotated := annotated + [AnnotatedOf(index, instructions[n])];
    }
  }

  // Instructions one after the other, none reaching back into its predecessor.
  predicate InSequence(instructions: seq<Instruction>) {
    && (forall k | 0 <= k < |instructions| :: instructions[k].size > 0)
    && (forall j, k | 0 <= j < k < |instructions| ::
          instructions[j].address + instructions[j].size <= instructions[k].address)
  }

  // In a listing every relocation is attached to one instruction at most.
  lemma RelocationsAttachOnce(index: Index, instructions: seq<Instruction>, j: nat, k: nat)
    requires Built(index) && InSequence(instructions) && j < k < |instructions|
    requires AnnotatedOf(index, instructions[j]).reference.Some? && AnnotatedOf(index, instructions[k]).reference.Some?
    ensures AnnotatedOf(index, instructions[j]).reference != AnnotatedOf(index, instructions[k]).reference
  {
    hide Built, RelocationInInstruction, NearestSymbol, SymbolAt;
    NoSharedRelocation(index, instructions[j], instructions[k]);
  }

  // ---------- string literals ----------

  function LiteralAddresses(literals: seq<Literal>): (keys: seq<nat>)
    ensures |keys| == |literals| && forall i | 0 <= i < |keys| :: keys[i] == literals[i].address
  {
    seq(|literals|, i requires 0 <= i < |literals| => literals[i].address)
  }

  predicate ByAddress(literals: seq<Literal>) {
    Ordered(LiteralAddresses(literals))
  }

  // The test the code makes; the end wraps round with the address space.
  predicate Reaches(l: Literal, address: uint64) {
    address >= l.address && address < (l.address + l.size) % TWO64
  }

  // The literal before the first one that starts above the address, if it reaches so far.
  function StringAt(sorted: seq<Literal>, address: uint64): (r: Option<Literal>) {
    var upper := UpperBound(LiteralAddresses(sorted), address);
    if upper == 0 then None
    else
      var l := sorted[upper - 1];
      if Reaches(l, address) then Some(l) else None
  }

  predicate LiteralLess(a: Literal, b: Literal) {
    a.address < b.address
  }

  // Any permutation by ascending address; literals at one address may come either way round.
  ghost predicate SortOf(sorted: seq<Literal>, strings: seq<Literal>) {
    ByAddress(sorted) && multiset(sorted) == multiset(strings)
  }

  method SortLiterals(strings: seq<Literal>) returns (sorted: seq<Literal>)
    ensures SortOf(sorted, strings)
  {
    sorted := Sort(LiteralLess, strings);
    forall i, j | 0 <= i < j < |sorted| ensures sorted[i].address <= sorted[j].address {
      assert !LiteralLess(sorted[j], sorted[i]);
    }
  }

  function WithString(sorted: seq<Literal>, a: AnnotatedInstruction): AnnotatedInstruction {
    if a.instruction.referenceTarget.None? then a
    else
      var found := StringAt(sorted, a.instruction.referenceTarget.value);
      if found.None? then a else a.(stringReference := found)
  }

  method AnnotateStringReferences(strings: seq<Literal>, instructions: seq<AnnotatedInstruction>)
    returns (annotated: seq<AnnotatedInstruction>, ghost sorted: seq<Literal>)
    ensures SortOf(sorted, strings)
    ensures |annotated| == |instructions|
    ensures forall k | 0 <= k < |annotated| :: annotated[k] == WithString(sorted, instructions[k])
  {
    hide ByAddress, Reaches, WithString, UpperBound;
    annotated := instructions;
    var order := SortLiterals(strings);
    sorted := order;
    if strings == [] {
      NothingToFind(sorted);
      return;
    }
    var keys := LiteralAddresses(order);
    SortedKeys(order);
    for k := 0 to |annotated|
      invariant |annotated| == |instructions|
      invariant forall j | 0 <= j < k :: annotated[j] == WithString(sorted, instructions[j])
      invariant forall j | k <= j < |annotated| :: annotated[j] == instructions[j]
    {
      var entry := annotated[k];
      StringTurn(sorted, entry);
      if entry.instruction.referenceTarget.None? {
        continue;
      }
      var address := entry.instruction.referenceTarget.value;
      var upper := UpperBound(keys, address);
      if upper == 0 {
        continue;
      }
      var literal := order[upper - 1];
      if Reaches(literal, address) {
        annotated := annotated[k := entry.(stringReference := Some(literal))];
      }
    }
  }

  lemma StringTurn(sorted: seq<Literal>, a: AnnotatedInstruction)
    ensures a.instruction.referenceTarget.None? ==> WithString(sorted, a) == a
    ensures a.instruction.referenceTarget.Some? ==>
      var address := a.instruction.referenceTarget.value;
      var upper := UpperBound(LiteralAddresses(sorted), address);
      WithString(sorted, a)
      == if upper > 0 && Reaches(sorted[upper - 1], address) then a.(stringReference := Some(sorted[upper - 1])) else a
  {
    hide UpperBound, Reaches;
  }

  lemma SortedKeys(sorted: seq<Literal>)
    requires ByAddress(sorted)
    ensures Ordered(LiteralAddresses(sorted))
  {
  }

  lemma NothingToFind(sorted: seq<Literal>)
    requires SortOf(sorted, [])
    ensures forall a :: WithString(sorted, a) == a
  {
    assert |multiset(sorted)| == 0;
    assert sorted == [];
  }

  // ---------- the lookup against a plain scan ----------

  // What a plain scan looks for: a literal one of whose bytes has the address.
  predicate Covers(l: Literal, address: nat) {
    l.address <= address < l.address + l.size
  }

  predicate SomeCovers(literals: seq<Literal>, address: nat) {
    exists i :: 0 <= i < |literals| && Covers(literals[i], address)
  }

  // Literals that are not empty and end before the address space does.
  predicate Proper(literals: seq<Literal>) {
    forall i | 0 <= i < |literals| :: 0 < literals[i].size && literals[i].address + literals[i].size < TWO64
  }

  // What a literal leaves of an earlier one is taken over by the literals behind it.
  predicate NoneHidden(sorted: seq<Literal>) {
    forall i, j | 0 <= i < j < |sorted| :: !Hides(sorted, i, j)
  }

  // The earlier literal i goes on behind literal j, where no literal starts.
  predicate Hides(sorted: seq<Literal>, i: nat, j: nat)
    requires i < j < |sorted|
  {
    var end := sorted[j].address + sorted[j].size;
    end < sorted[i].address + sorted[i].size && (j + 1 < |sorted| ==> end < sorted[j + 1].address)
  }

  predicate AgreesWithScan(sorted: seq<Literal>, address: uint64) {
    StringAt(sorted, address).Some? <==> SomeCovers(sorted, address)
  }

  // The lookup agrees with the scan at every address exactly when no literal is hidden.
  lemma LookupAgreesIffNoneHidden(sorted: seq<Literal>)
    requires ByAddress(sorted) && Proper(sorted)
    ensures (forall address: uint64 :: AgreesWithScan(sorted, address)) <==> NoneHidden(sorted)
  {
    hide ByAddress, AgreesWithScan, Hides, Proper;
    if NoneHidden(sorted) {
      forall address: uint64 ensures AgreesWithScan(sorted, address) {
        ScanFollowsLookup(sorted, address);
      }
    } else {
      var i, j :| 0 <= i < j < |sorted| && Hides(sorted, i, j);
      HiddenIsMissed(sorted, i, j);
    }
  }

  lemma HiddenIsMissed(sorted: seq<Literal>, i: nat, j: nat)
    requires ByAddress(sorted) && Proper(sorted) && i < j < |sorted| && Hides(sorted, i, j)
    ensures sorted[j].address + sorted[j].size < TWO64
    ensures !AgreesWithScan(sorted, sorted[j].address + sorted[j].size)
  {
    hide ByAddress, UpperBound;
    var keys := LiteralAddresses(sorted);
    SortedKeys(sorted);
    var end := sorted[j].address + sorted[j].size;
    UpperBoundSplits(keys, end);
    assert keys[i] <= keys[j] && (j + 1 < |keys| ==> keys[j + 1] > end);
    assert UpperBound(keys, end) == j + 1;
    assert Covers(sorted[i], end);
  }

  // The test finds every byte of a literal, unless the literal's end is not an address.
  lemma ReachesIffCovers(l: Literal, address: uint64)
    requires l.size <= TWO64
    ensures Reaches(l, address) <==> Covers(l, address) && l.address + l.size < TWO64
  {
    if l.address + l.size >= TWO64 {
      ModShift(l.address + l.size - TWO64, 1, TWO64);
    }
  }

  lemma ScanFollowsLookup(sorted: seq<Literal>, address: uint64)
    requires ByAddress(sorted) && Proper(sorted) && NoneHidden(sorted)
    ensures AgreesWithScan(sorted, address)
  {
    hide ByAddress, Hides, NoneHidden, Reaches, Covers;
    var keys := LiteralAddresses(sorted);
    SortedKeys(sorted);
    var upper := UpperBound(keys, address);
    if upper > 0 {
      ReachesIffCovers(sorted[upper - 1], address);
    }
    if i :| 0 <= i < |sorted| && Covers(sorted[i], address) {
      CoverPassesOn(sorted, keys, address, i, upper);
    }
  }

  // A literal that covers an address leaves it covered by the last one not above it.
  lemma CoverPassesOn(sorted: seq<Literal>, keys: seq<nat>, address: uint64, i: nat, upper: nat)
    requires NoneHidden(sorted) && keys == LiteralAddresses(sorted) && Ordered(keys)
    requires upper == UpperBound(keys, address) && i < |sorted| && Covers(sorted[i], address)
    ensures 0 < upper && Covers(sorted[upper - 1], address)
  {
    hide NoneHidden, UpperBound;
    UpperBoundSplits(keys, address);
    assert keys[i] <= address && i < upper && keys[upper - 1] <= address;
    if i < upper - 1 {
      NotHidden(sorted, i, upper - 1);
    }
    assert upper < |sorted| ==> keys[upper] > address;
  }

  lemma NotHidden(sorted: seq<Literal>, i: nat, j: nat)
    requires NoneHidden(sorted) && i < j < |sorted|
    ensures var end := sorted[j].address + sorted[j].size;
      end >= sorted[i].address + sorted[i].size || (j + 1 < |sorted| && end >= sorted[j + 1].address)
  {
    assert !Hides(sorted, i, j);
  }

  // ---------- a relocatable object ----------

  // The bytes of two string sections, `abcd` and, behind a zero, `xy`.
  const LONG_TEXT: seq<byte> := [0x61, 0x62, 0x63, 0x64, 0]
  const SHORT_TEXT: seq<byte> := [0, 0x78, 0x79, 0]

  // In a relocatable object no section has its address yet: all are zero.
  function DataSection(offset: uint64, size: uint64): Section {
    Section([], 0, 1, 2, 0, offset, size, 1, false, 0, 0, 0, 0)
  }

  function Relocatable(): seq<Section> {
    [DataSection(0, 5), DataSection(5, 4)]
  }

  // Zeros, one run, and a zero at the very end.
  predicate OneRun(data: seq<byte>, start: nat, end: nat) {
    && start + 2 <= end == |data| - 1 && data[end] == 0
    && (forall i | 0 <= i < start :: data[i] == 0)
    && (forall i | start <= i < end :: data[i] != 0 && Printable(data[i]))
  }

  lemma {:induction false} NothingBefore(data: seq<byte>, start: nat, end: nat, n: nat)
    requires OneRun(data, start, end) && n <= end && |data| < TWO64
    ensures LiteralsBefore(0, data, n) == [] && RunStart(data, n) == if n <= start then n else start
  {
    hide LiteralsBefore, RunStart, LiteralOf;
    if n == 0 {
      NothingYet(0, data);
    } else {
      NothingBefore(data, start, end, n - 1);
      LiteralsStep(0, data, n - 1);
      RunStep(data, n - 1);
    }
  }

  lemma OneRunOneLiteral(data: seq<byte>, start: nat, end: nat)
    requires OneRun(data, start, end) && |data| < TWO64
    ensures LiteralsBefore(0, data, |data|) == [Literal(start, end - start, data[start..end])]
  {
    hide LiteralsBefore, RunStart, LiteralOf;
    NothingBefore(data, start, end, end);
    LiteralsStep(0, data, end);
    LiteralShape(0, data, Span(start, end));
  }

  lemma RelocatableContents()
    ensures forall s | s in Relocatable() :: HoldsStrings(s) && SectionInside(s, LONG_TEXT + SHORT_TEXT)
    ensures var bytes: Image := LONG_TEXT + SHORT_TEXT;
      && Contents(Relocatable()[0], bytes) == LONG_TEXT && Contents(Relocatable()[1], bytes) == SHORT_TEXT
  {
    var bytes: Image := LONG_TEXT + SHORT_TEXT;
    assert bytes[0..5] == LONG_TEXT && bytes[5..9] == SHORT_TEXT;
  }

  lemma RelocatableRuns()
    ensures OneRun(LONG_TEXT, 0, 4) && OneRun(SHORT_TEXT, 1, 3)
  {
  }

  lemma RelocatableLiterals()
    ensures AllLiterals(LONG_TEXT + SHORT_TEXT, Relocatable(), 2)
         == [Literal(0, 4, LONG_TEXT[..4]), Literal(1, 2, SHORT_TEXT[1..3])]
  {
    hide LiteralsBefore, AllLiterals, HoldsStrings, SectionInside, Contents, OneRun;
    var bytes: Image, sections := LONG_TEXT + SHORT_TEXT, Relocatable();
    RelocatableContents();
    RelocatableRuns();
    assert sections[0] in sections && sections[1] in sections;
    NoLiterals(bytes, sections);
    NextSection(bytes, sections, 0);
    NextSection(bytes, sections, 1);
    OneRunOneLiteral(LONG_TEXT, 0, 4);
    OneRunOneLiteral(SHORT_TEXT, 1, 3);
  }

  // Extracted from two sections at address zero, the second literal hides the end of the
  // first: whatever the sort, the scan finds a literal at address 3 and the lookup none.
  lemma RelocatableDisagrees(sorted: seq<Literal>)
    requires SortOf(sorted, Capped(AllLiterals(LONG_TEXT + SHORT_TEXT, Relocatable(), 2)))
    ensures Proper(sorted) && !NoneHidden(sorted)
    ensures SomeCovers(sorted, 3) && StringAt(sorted, 3).None?
  {
    RelocatableLiterals();
    hide AllLiterals;
    TwoInOrder(sorted, Literal(0, 4, LONG_TEXT[..4]), Literal(1, 2, SHORT_TEXT[1..3]));
    assert Hides(sorted, 0, 1) && Covers(sorted[0], 3);
    HiddenIsMissed(sorted, 0, 1);
  }

  lemma TwoInOrder(sorted: seq<Literal>, a: Literal, b: Literal)
    requires SortOf(sorted, [a, b]) && a.address < b.address
    ensures sorted == [a, b]
  {
    assert |multiset(sorted)| == |multiset([a, b])| == 2;
    SortedKeys(sorted);
    assert LiteralAddresses(sorted)[0] <= LiteralAddresses(sorted)[1];
    SameElements(sorted, [a, b]);
    assert a in sorted && b in sorted;
    assert sorted[0] in [a, b] && sorted[1] in [a, b];
  }

  // No two different literals share an address.
  predicate AllApart(literals: seq<Literal>) {
    forall a, b | a in literals && b in literals :: a == b || Apart(a, b)
  }

  // Over literals that are apart the lookup finds exactly the one that covers the address.
  lemma LookupFindsTheLiteral(sorted: seq<Literal>, address: uint64, l: Literal)
    requires ByAddress(sorted) && Proper(sorted) && AllApart(sorted)
    ensures StringAt(sorted, address) == Some(l) <==> l in sorted && Covers(l, address)
  {
    hide ByAddress, AllApart, UpperBound;
    var keys := LiteralAddresses(sorted);
    SortedKeys(sorted);
    var upper := UpperBound(keys, address);
    UpperBoundSplits(keys, address);
    if l in sorted && Covers(l, address) {
      var i :| 0 <= i < |sorted| && sorted[i] == l;
      assert keys[i] <= address && i < upper && keys[i] <= keys[upper - 1];
      TwoApart(sorted, l, sorted[upper - 1]);
      assert sorted[upper - 1] == l;
    }
    if upper > 0 {
      assert sorted[upper - 1] in sorted && keys[upper - 1] <= address;
    }
  }

  lemma TwoApart(literals: seq<Literal>, a: Literal, b: Literal)
    requires AllApart(literals) && a in literals && b in literals
    ensures a == b || Apart(a, b)
  {
  }

  lemma SeparateIsApart(literals: seq<Literal>)
    requires Separate(literals)
    ensures Proper(literals) && AllApart(literals)
  {
    hide Apart;
    forall a, b | a in literals && b in literals ensures a == b || Apart(a, b) {
      var i :| 0 <= i < |literals| && literals[i] == a;
      var j :| 0 <= j < |literals| && literals[j] == b;
      if i < j {
        assert Apart(literals[i], literals[j]);
      } else if j < i {
        assert Apart(literals[j], literals[i]);
        ApartIsSymmetric(a, b);
      }
    }
  }

  lemma ApartIsSymmetric(a: Literal, b: Literal)
    ensures Apart(a, b) <==> Apart(b, a)
  {
  }

  lemma SortKeepsApart(sorted: seq<Literal>, strings: seq<Literal>)
    requires SortOf(sorted, strings) && Proper(strings) && AllApart(strings)
    ensures Proper(sorted) && AllApart(sorted)
    ensures forall l :: l in sorted <==> l in strings
  {
    hide ByAddress, Apart;
    SameElements(sorted, strings);
    forall i | 0 <= i < |sorted| ensures 0 < sorted[i].size && sorted[i].address + sorted[i].size < TWO64 {
      assert sorted[i] in strings;
    }
  }

  // From the image to the annotation: with string sections laid out apart, an address is
  // annotated with a literal exactly when that literal was extracted and covers it.
  lemma AnnotationFindsExtractedLiteral(
    bytes: Image, sections: seq<Section>, sorted: seq<Literal>, address: uint64, l: Literal)
    requires LaidOut(sections)
    requires SortOf(sorted, Capped(AllLiterals(bytes, sections, |sections|)))
    ensures StringAt(sorted, address) == Some(l)
       <==> l in Capped(AllLiterals(bytes, sections, |sections|)) && Covers(l, address)
  {
    hide LaidOut, AllLiterals, ByAddress, Separate, AllApart, Proper, StringAt, Covers, Capped;
    var strings := Capped(AllLiterals(bytes, sections, |sections|));
    ExtractedSeparate(bytes, sections);
    SeparateIsApart(strings);
    SortKeepsApart(sorted, strings);
    LookupFindsTheLiteral(sorted, address, l);
  }

  // An instruction that refers to an address gets the literal that covers it, if there is
  // one; nothing else about it changes.
  lemma LiteralAttached(sorted: seq<Literal>, a: AnnotatedInstruction)
    requires ByAddress(sorted) && Proper(sorted) && AllApart(sorted)
    ensures var b, target := WithString(sorted, a), a.instruction.referenceTarget;
      && b == a.(stringReference := b.stringReference)
      && (target.None? ==> b.stringReference == a.stringReference)
      && (target.Some? ==> forall l | l in sorted && Covers(l, target.value) :: b.stringReference == Some(l))
      && (target.Some? && !SomeCovers(sorted, target.value) ==> b.stringReference == a.stringReference)
  {
    hide StringAt, Covers, ByAddress, Proper, AllApart;
    var target := a.instruction.referenceTarget;
    if target.Some? {
      forall l ensures StringAt(sorted, target.value) == Some(l) <==> l in sorted && Covers(l, target.value) {
        LookupFindsTheLiteral(sorted, target.value, l);
      }
      if StringAt(sorted, target.value).Some? {
        var l := StringAt(sorted, target.value).value;
        assert l in sorted && Covers(l, target.value);
        var i :| 0 <= i < |sorted| && sorted[i] == l;
        assert SomeCovers(sorted, target.value);
      }
    }
  }
}
