// The symbol and relocation index of a binary and the address lookups over it.

module Resolver {
  import opened Common
  import opened Sorting

  datatype Options = Options(demangleNames: bool, includeDynamicSymbols: bool, includeLocalSymbols: bool)

  datatype ResolvedSymbol = ResolvedSymbol(
    name: string,
    rawName: string,
    address: uint64,
    size: uint64,
    exact: bool,
    isDynamic: bool)

  datatype ResolvedReference = ResolvedReference(
    address: uint64,
    name: string,
    rawName: string,
    section: string,
    kind: uint32,
    addend: int,
    hasAddend: bool)

  datatype Index = Index(symbols: seq<ResolvedSymbol>, relocations: seq<ResolvedReference>)

  datatype Instruction = Instruction(address: uint64, size: uint64, branchTarget: Option<uint64>, referenceTarget: Option<uint64>)

  // ---------- lookups ----------

  function SymbolAddresses(symbols: seq<ResolvedSymbol>): (keys: seq<nat>)
    ensures |keys| == |symbols| && forall i | 0 <= i < |keys| :: keys[i] == symbols[i].address
  {
    seq(|symbols|, i requires 0 <= i < |symbols| => symbols[i].address)
  }

  function ReferenceAddresses(references: seq<ResolvedReference>): (keys: seq<nat>)
    ensures |keys| == |references| && forall i | 0 <= i < |keys| :: keys[i] == references[i].address
  {
    seq(|references|, i requires 0 <= i < |references| => references[i].address)
  }

  // The index as building leaves it: both tables by ascending address.
  predicate Built(index: Index) {
    Ordered(SymbolAddresses(index.symbols)) && Ordered(ReferenceAddresses(index.relocations))
  }

  function SymbolAt(index: Index, address: uint64): (r: Option<ResolvedSymbol>) {
    var i := LowerBound(SymbolAddresses(index.symbols), address);
    if i == |index.symbols| || index.symbols[i].address != address then None
    else Some(index.symbols[i].(exact := true))
  }

  function NearestSymbol(index: Index, address: uint64): (r: Option<ResolvedSymbol>) {
    var upper := UpperBound(SymbolAddresses(index.symbols), address);
    if upper == 0 then None
    else
      var best := index.symbols[upper - 1];
      Some(best.(exact := best.address == address))
  }

  function RelocationAt(index: Index, address: uint64): (r: Option<ResolvedReference>) {
    var i := LowerBound(ReferenceAddresses(index.relocations), address);
    if i == |index.relocations| || index.relocations[i].address != address then None
    else Some(index.relocations[i])
  }

  // The end of the bytes searched, held below the last address.
  function SaturatedEnd(address: uint64, size: uint64): (end: uint64)
    ensures end == if address + size > U64_MAX then U64_MAX else address + size
  {
    var maxTail := U64_MAX - address;
    address + if size > maxTail then maxTail else size
  }

  function RelocationInInstruction(index: Index, i: Instruction): (r: Option<ResolvedReference>) {
    var exact := RelocationAt(index, i.address);
    if exact.Some? then exact
    else if i.size == 0 then None
    else
      var end := SaturatedEnd(i.address, i.size);
      var first := LowerBound(ReferenceAddresses(index.relocations), i.address);
      if first < |index.relocations| && index.relocations[first].address < end then Some(index.relocations[first])
      else None
  }

  // ---------- what the lookups find ----------

  // Found exactly when a symbol starts there, and then it is the first such one.
  lemma SymbolAtExact(index: Index, address: uint64)
    requires Built(index)
    ensures SymbolAt(index, address).Some? <==> exists s :: s in index.symbols && s.address == address
    ensures SymbolAt(index, address).Some? ==>
      exists k :: 0 <= k < |index.symbols| && index.symbols[k].address == address
        && SymbolAt(index, address).value == index.symbols[k].(exact := true)
        && forall j | 0 <= j < k :: index.symbols[j].address < address
  {
    hide Built, LowerBound, UpperBound;
    var keys := SymbolAddresses(index.symbols);
    BuiltKeys(index);
    var i := LowerBound(keys, address);
    LowerBoundSplits(keys, address);
    if s :| s in index.symbols && s.address == address {
      var k :| 0 <= k < |index.symbols| && index.symbols[k] == s;
      assert keys[k] == address && i <= k;
      assert keys[i] <= keys[k];
    }
    if SymbolAt(index, address).Some? {
      assert index.symbols[i] in index.symbols;
      assert forall j | 0 <= j < i :: keys[j] < address;
    }
  }

  lemma BuiltKeys(index: Index)
    requires Built(index)
    ensures Ordered(SymbolAddresses(index.symbols)) && Ordered(ReferenceAddresses(index.relocations))
  {
  }

  // The nearest symbol has the greatest address not above the query; it is found exactly
  // when there is one.
  lemma NearestIsGreatest(index: Index, address: uint64)
    requires Built(index)
    ensures NearestSymbol(index, address).Some? <==> exists s :: s in index.symbols && s.address <= address
    ensures NearestSymbol(index, address).Some? ==>
      var n := NearestSymbol(index, address).value;
      && n.address <= address
      && (exists s :: s in index.symbols && n == s.(exact := s.address == address))
      && (forall s | s in index.symbols && s.address <= address :: s.address <= n.address)
  {
    hide Built, LowerBound, UpperBound;
    var keys := SymbolAddresses(index.symbols);
    BuiltKeys(index);
    var upper := UpperBound(keys, address);
    UpperBoundSplits(keys, address);
    forall s | s in index.symbols && s.address <= address
      ensures upper > 0 && s.address <= keys[upper - 1]
    {
      var k :| 0 <= k < |index.symbols| && index.symbols[k] == s;
      assert keys[k] == s.address && k < upper;
    }
    if upper > 0 {
      assert index.symbols[upper - 1] in index.symbols && keys[upper - 1] <= address;
    }
  }

  // It is exact precisely when a symbol starts at the address.
  lemma NearestExactIffSymbolAt(index: Index, address: uint64)
    requires Built(index)
    ensures NearestSymbol(index, address).Some? && NearestSymbol(index, address).value.exact
       <==> SymbolAt(index, address).Some?
  {
    hide Built, SymbolAt, NearestSymbol;
    SymbolAtExact(index, address);
    NearestIsGreatest(index, address);
  }

  // Of several symbols at one address the two lookups pick the first and the last.  They
  // name the same symbol exactly when those two are alike.
  lemma NearestAgreesWithSymbolAt(index: Index, first: nat, last: nat)
    requires Built(index) && first <= last < |index.symbols|
    requires forall k | first <= k <= last :: index.symbols[k].address == index.symbols[first].address
    requires first > 0 ==> index.symbols[first - 1].address < index.symbols[first].address
    requires last + 1 < |index.symbols| ==> index.symbols[last].address < index.symbols[last + 1].address
    ensures var a := index.symbols[first].address;
      SymbolAt(index, a) == NearestSymbol(index, a)
      <==> index.symbols[first].(exact := true) == index.symbols[last].(exact := true)
  {
    hide Built, LowerBound, UpperBound;
    var keys := SymbolAddresses(index.symbols);
    BuiltKeys(index);
    var a := index.symbols[first].address;
    var lower, upper := LowerBound(keys, a), UpperBound(keys, a);
    LowerBoundSplits(keys, a);
    UpperBoundSplits(keys, a);
    assert keys[first] == a && keys[last] == a;
    assert first > 0 ==> keys[first - 1] < a;
    assert last + 1 < |keys| ==> keys[last + 1] > a;
    assert lower == first && upper == last + 1;
  }

  // ---------- relocations inside an instruction ----------

  predicate SomeRelocation(index: Index, lo: nat, hi: nat) {
    exists r :: r in index.relocations && lo <= r.address < hi
  }

  // One past the last address searched for a relocation.
  function SearchedEnd(i: Instruction): nat {
    var end := SaturatedEnd(i.address, i.size);
    if end <= i.address then i.address + 1 else end
  }

  // The search covers its window: found exactly when the window holds a relocation, and
  // then it is one of least address.
  lemma RelocationSearch(index: Index, i: Instruction)
    requires Built(index)
    ensures RelocationInInstruction(index, i).Some? <==> SomeRelocation(index, i.address, SearchedEnd(i))
    ensures RelocationInInstruction(index, i).Some? ==>
      var r := RelocationInInstruction(index, i).value;
      && r in index.relocations && i.address <= r.address < SearchedEnd(i)
      && forall other | other in index.relocations && other.address >= i.address :: r.address <= other.address
  {
    hide Built, LowerBound, UpperBound;
    var keys := ReferenceAddresses(index.relocations);
    BuiltKeys(index);
    var first := LowerBound(keys, i.address);
    LowerBoundSplits(keys, i.address);
    forall r | r in index.relocations && r.address >= i.address
      ensures first < |keys| && keys[first] <= r.address
    {
      var k :| 0 <= k < |index.relocations| && index.relocations[k] == r;
      assert keys[k] == r.address && first <= k;
    }
    if first < |keys| {
      assert index.relocations[first] in index.relocations;
    }
  }

  // The bytes the instruction occupies.
  function ByteEnd(i: Instruction): nat {
    if i.address + i.size > TWO64 then TWO64 else i.address + i.size
  }

  // When the search misses the point: an empty instruction still takes a relocation at its
  // address, and one that reaches the last address does not see a relocation there.
  predicate Misjudged(index: Index, i: Instruction) {
    || (i.size == 0 && SomeRelocation(index, i.address, i.address + 1))
    || (i.address < U64_MAX < i.address + i.size && SomeRelocation(index, U64_MAX, TWO64)
        && !SomeRelocation(index, i.address, U64_MAX))
  }

  // Exactly then is a reference not the same as a relocation within the bytes.
  lemma ReferenceIffRelocationInBytes(index: Index, i: Instruction)
    requires Built(index)
    ensures (RelocationInInstruction(index, i).Some? <==> SomeRelocation(index, i.address, ByteEnd(i)))
       <==> !Misjudged(index, i)
  {
    hide Built, RelocationInInstruction;
    RelocationSearch(index, i);
    if i.size == 0 {
      assert !SomeRelocation(index, i.address, ByteEnd(i));
    } else if i.address + i.size <= U64_MAX {
      assert SearchedEnd(i) == ByteEnd(i);
    } else if i.address < U64_MAX {
    }
  }

  // Two bytes that reach the last address, with a relocation only there: it is missed.
  lemma LastAddressMissed(r: ResolvedReference)
    requires r.address == U64_MAX
    ensures var index, i := Index([], [r]), Instruction(U64_MAX - 1, 2, None, None);
      && Built(index) && Misjudged(index, i)
      && RelocationInInstruction(index, i).None? && SomeRelocation(index, i.address, ByteEnd(i))
  {
    var index, i := Index([], [r]), Instruction(U64_MAX - 1, 2, None, None);
    assert r in index.relocations;
    assert ReferenceAddresses(index.relocations) == [U64_MAX];
    RelocationSearch(index, i);
  }

  // An instruction without bytes, with a relocation at its address: it is taken.
  lemma EmptyInstructionTakes(r: ResolvedReference)
    ensures var index, i := Index([], [r]), Instruction(r.address, 0, None, None);
      && Built(index) && Misjudged(index, i)
      && RelocationInInstruction(index, i) == Some(r) && !SomeRelocation(index, i.address, ByteEnd(i))
  {
    var index, i := Index([], [r]), Instruction(r.address, 0, None, None);
    assert r in index.relocations;
    assert ReferenceAddresses(index.relocations) == [r.address];
    RelocationSearch(index, i);
  }

  // An instruction that ends inside the address space gets a reference exactly when some
  // relocation lies in its bytes.
  lemma ReferenceWithinSpace(index: Index, i: Instruction)
    requires Built(index) && i.size > 0 && i.address + i.size < TWO64
    ensures RelocationInInstruction(index, i).Some? <==> SomeRelocation(index, i.address, i.address + i.size)
  {
    hide Built, RelocationInInstruction, SomeRelocation;
    ReferenceIffRelocationInBytes(index, i);
  }

  // Instructions that do not overlap never share a relocation.
  lemma NoSharedRelocation(index: Index, a: Instruction, b: Instruction)
    requires Built(index) && a.size > 0 && b.size > 0 && a.address + a.size <= b.address
    requires RelocationInInstruction(index, a).Some? && RelocationInInstruction(index, b).Some?
    ensures RelocationInInstruction(index, a).value.address < RelocationInInstruction(index, b).value.address
  {
    hide Built, RelocationInInstruction;
    RelocationSearch(index, a);
    RelocationSearch(index, b);
  }
}
