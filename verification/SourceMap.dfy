// The loop over the units of .debug_line, the tagging of their rows, and the lookup of an
// address.  What one unit contributes is a parameter.

module SourceMap {
  import opened Arithmetic
  import opened Common
  import opened Cursors
  import opened Leb128
  import opened LineProgram
  import opened Slices
  import opened Sorting

  // One unit: where the cursor stands behind it, whether it ran out of bytes, its rows and
  // the paths its file numbers stand for.
  datatype UnitResult = UnitResult(next: nat, failed: bool, rows: seq<Row>, paths: seq<string>)

  // ---------- tags ----------

  function BitOr(a: nat, b: nat): nat
    decreases a + b
  {
    if a == 0 then b else if b == 0 then a
    else 2 * BitOr(a / 2, b / 2) + if a % 2 == 1 || b % 2 == 1 then 1 else 0
  }

  // The file number with the unit number in its upper half.
  function Tag(unitId: nat, file: uint64): nat {
    file % TWO32 + BitOr(file / TWO32, unitId % TWO32) * TWO32
  }

  function TaggedUnit(tag: nat): nat {
    tag / TWO32
  }

  function TaggedFile(tag: nat): nat {
    tag % TWO32
  }

  predicate Bit(n: nat, i: nat) {
    if i == 0 then n % 2 == 1 else Bit(n / 2, i - 1)
  }

  lemma {:induction false} BitOrBits(a: nat, b: nat, i: nat)
    ensures Bit(BitOr(a, b), i) <==> Bit(a, i) || Bit(b, i)
    decreases i
  {
    if a == 0 || b == 0 {
      ZeroBits(i);
    } else {
      BitOrHalves(a, b);
      hide BitOr;
      if i > 0 {
        BitOrBits(a / 2, b / 2, i - 1);
      }
    }
  }

  lemma BitOrHalves(a: nat, b: nat)
    requires a > 0 && b > 0
    ensures BitOr(a, b) / 2 == BitOr(a / 2, b / 2)
    ensures BitOr(a, b) % 2 == 1 <==> a % 2 == 1 || b % 2 == 1
  {
    var half := BitOr(a / 2, b / 2);
    assert BitOr(a, b) == 2 * half + if a % 2 == 1 || b % 2 == 1 then 1 else 0;
    hide BitOr;
  }

  lemma {:induction false} ZeroBits(i: nat)
    ensures !Bit(0, i)
  {
    if i > 0 {
      ZeroBits(i - 1);
    }
  }

  // The lower half of a tag is that of the file number; a bit of the upper half is set when
  // the file number or the unit number has it set.
  lemma TagBits(unitId: uint32, file: uint64, i: nat)
    ensures TaggedFile(Tag(unitId, file)) == file % TWO32
    ensures Bit(TaggedUnit(Tag(unitId, file)), i) <==> Bit(file / TWO32, i) || Bit(unitId, i)
  {
    var high := BitOr(file / TWO32, unitId);
    DivModUnique(Tag(unitId, file), high, file % TWO32, TWO32);
    BitOrBits(file / TWO32, unitId, i);
  }

  // A tag gives back unit and file exactly when the file number leaves the upper half free.
  lemma TagReadsBackIffSmall(unitId: uint32, file: uint64)
    ensures TaggedUnit(Tag(unitId, file)) == unitId && TaggedFile(Tag(unitId, file)) == file <==> file < TWO32
  {
    var high := BitOr(file / TWO32, unitId);
    DivModUnique(Tag(unitId, file), high, file % TWO32, TWO32);
  }

  // ---------- units ----------

  // The units the loop takes, from a position on.  A unit that makes no progress ends it and
  // is dropped; one that runs out of bytes ends it and is kept.
  function Units(size: nat, parse: nat -> UnitResult, pos: nat): (units: seq<UnitResult>)
    ensures |units| <= if pos < size then size - pos else 0
    decreases size - pos
  {
    if pos >= size then []
    else
      var u := parse(pos);
      if u.next <= pos then [] else if u.failed then [u] else [u] + Units(size, parse, u.next)
  }

  // Where the k-th unit starts.
  function StartOf(pos: nat, units: seq<UnitResult>, k: nat): nat
    requires k <= |units|
  {
    if k == 0 then pos else units[k - 1].next
  }

  // A unit parsed at a position, with progress.
  predicate ParsedAt(size: nat, parse: nat -> UnitResult, start: nat, u: UnitResult) {
    start < size && u == parse(start) && start < u.next
  }

  // Each unit is parsed where the one before ended, and only the last may have run out of
  // bytes.
  ghost predicate Follow(size: nat, parse: nat -> UnitResult, pos: nat, units: seq<UnitResult>) {
    && (forall k | 0 <= k < |units| :: ParsedAt(size, parse, StartOf(pos, units, k), units[k]))
    && (forall k | 0 <= k < |units| - 1 :: !units[k].failed)
  }

  // There is no unit behind: the bytes are used up, or the last unit ran out of them, or the
  // next would make no progress.
  ghost predicate Over(size: nat, parse: nat -> UnitResult, pos: nat, units: seq<UnitResult>) {
    var end := StartOf(pos, units, |units|);
    end >= size || (units != [] && units[|units| - 1].failed) || parse(end).next <= end
  }

  // The units taken are exactly those that follow on one another until there is no more.
  lemma {:induction false} UnitsFollow(size: nat, parse: nat -> UnitResult, pos: nat, units: seq<UnitResult>)
    ensures units == Units(size, parse, pos) <==> Follow(size, parse, pos, units) && Over(size, parse, pos, units)
    decreases |units|
  {
    hide Follow, Over, Units;
    UnitsFrom(size, parse, pos);
    if units == [] {
      NoUnits(size, parse, pos);
    } else {
      FirstUnit(size, parse, pos, units);
      NoUnits(size, parse, units[0].next);
      UnitsFollow(size, parse, units[0].next, units[1..]);
      assert units == [units[0]] + units[1..];
      var tail := if parse(pos).failed then [] else Units(size, parse, parse(pos).next);
      assert ([parse(pos)] + tail)[1..] == tail;
    }
  }

  lemma UnitsFrom(size: nat, parse: nat -> UnitResult, pos: nat)
    ensures Units(size, parse, pos)
         == if pos >= size || parse(pos).next <= pos then []
            else [parse(pos)] + if parse(pos).failed then [] else Units(size, parse, parse(pos).next)
  {
  }

  lemma NoUnits(size: nat, parse: nat -> UnitResult, pos: nat)
    ensures Follow(size, parse, pos, [])
    ensures Over(size, parse, pos, []) <==> pos >= size || parse(pos).next <= pos
  {
  }

  lemma FirstUnit(size: nat, parse: nat -> UnitResult, pos: nat, units: seq<UnitResult>)
    requires units != []
    ensures Follow(size, parse, pos, units) <==>
      && ParsedAt(size, parse, pos, units[0]) && Follow(size, parse, units[0].next, units[1..])
      && (units[0].failed ==> units[1..] == [])
    ensures Follow(size, parse, pos, units) ==>
      (Over(size, parse, pos, units) <==>
        (units[0].failed || Over(size, parse, units[0].next, units[1..])))
  {
    var rest, next := units[1..], units[0].next;
    forall k | 0 <= k <= |rest| ensures StartOf(pos, units, k + 1) == StartOf(next, rest, k) {
      assert k > 0 ==> rest[k - 1] == units[k];
    }
    assert forall k | 0 <= k < |rest| :: rest[k] == units[k + 1];
    hide ParsedAt;
    if ParsedAt(size, parse, pos, units[0]) && Follow(size, parse, next, rest) && (units[0].failed ==> rest == []) {
      forall k | 0 <= k < |units| ensures ParsedAt(size, parse, StartOf(pos, units, k), units[k]) {
        if k > 0 {
          assert ParsedAt(size, parse, StartOf(next, rest, k - 1), rest[k - 1]);
        }
      }
      forall k | 0 <= k < |units| - 1 ensures !units[k].failed {
        assert k > 0 ==> units[k] == rest[k - 1];
      }
    }
    if Follow(size, parse, pos, units) {
      assert StartOf(pos, units, 0) == pos;
      forall k | 0 <= k < |rest| ensures ParsedAt(size, parse, StartOf(next, rest, k), rest[k]) {
        assert ParsedAt(size, parse, StartOf(pos, units, k + 1), units[k + 1]);
      }
    }
  }

  function TagRow(unitId: nat, row: Row): Row {
    row.(file := Tag(unitId, row.file) % TWO64)
  }

  function TagRows(unitId: nat, rows: seq<Row>): (tagged: seq<Row>)
    ensures |tagged| == |rows|
  {
    seq(|rows|, i requires 0 <= i < |rows| => TagRow(unitId, rows[i]))
  }

  // The rows of the first n units, tagged with their numbers.
  function RowsOf(units: seq<UnitResult>, n: nat): seq<Row>
    requires n <= |units|
  {
    if n == 0 then [] else RowsOf(units, n - 1) + TagRows(n - 1, units[n - 1].rows)
  }

  // The unit loop ends whatever the units do, after at most one turn a byte.
  method LoadRows(size: nat, parse: nat -> UnitResult)
    returns (rows: seq<Row>, paths: seq<seq<string>>)
    ensures var units := Units(size, parse, 0);
      rows == RowsOf(units, |units|) && paths == PathsOf(units)
    ensures |paths| <= size
  {
    hide TagRows, TagRow, Units, RowsOf;
    rows, paths := [], [];
    ghost var units: seq<UnitResult> := [];
    NoRows();
    var pos, ok := 0, true;
    while pos < size && ok
      invariant Units(size, parse, 0) == units + if ok then Units(size, parse, pos) else []
      invariant rows == RowsOf(units, |units|)
      invariant paths == PathsOf(units)
      decreases ok, size - pos
    {
      var before := pos;
      UnitsTurn(size, parse, pos);
      var u := parse(pos);
      pos := u.next;
      if pos <= before {
        assert Units(size, parse, 0) == units;
        return;
      }
      ok := !u.failed;
      rows := rows + TagRows(|paths|, u.rows);
      paths := paths + [u.paths];
      RowsOfMore(units, u);
      units := units + [u];
    }
    assert Units(size, parse, 0) == units;
  }

  function PathsOf(units: seq<UnitResult>): (paths: seq<seq<string>>)
    ensures |paths| == |units|
  {
    seq(|units|, k requires 0 <= k < |units| => units[k].paths)
  }

  lemma NoRows()
    ensures RowsOf([], 0) == []
  {
  }

  lemma UnitsTurn(size: nat, parse: nat -> UnitResult, pos: nat)
    requires pos < size
    ensures var u := parse(pos);
      Units(size, parse, pos)
      == if u.next <= pos then [] else [u] + if u.failed then [] else Units(size, parse, u.next)
  {
  }

  lemma {:induction false} RowsOfPrefix(units: seq<UnitResult>, u: UnitResult, n: nat)
    requires n <= |units|
    ensures RowsOf(units + [u], n) == RowsOf(units, n)
  {
    if n > 0 {
      RowsOfPrefix(units, u, n - 1);
    }
  }

  lemma RowsOfMore(units: seq<UnitResult>, u: UnitResult)
    ensures RowsOf(units + [u], |units| + 1) == RowsOf(units, |units|) + TagRows(|units|, u.rows)
  {
    hide TagRows;
    RowsOfPrefix(units, u, |units|);
  }

  // ---------- locations ----------

  datatype Location = Location(path: string, line: uint32, column: uint32, text: string)

  // The text of a line of a source file; reading files is a parameter.
  function LineText(linesOf: string -> seq<string>, path: string, line: uint32): string {
    if path != "" && 0 < line <= |linesOf(path)| then linesOf(path)[line - 1] else ""
  }

  function PathFor(paths: seq<seq<string>>, tag: nat): string {
    if TaggedUnit(tag) < |paths| && TaggedFile(tag) < |paths[TaggedUnit(tag)]| then paths[TaggedUnit(tag)][TaggedFile(tag)]
    else ""
  }

  datatype Entry = Entry(address: uint64, location: Location)

  function EntryOf(paths: seq<seq<string>>, linesOf: string -> seq<string>, row: Row): Entry {
    var path := PathFor(paths, row.file);
    Entry(row.address, Location(path, row.line, row.column, LineText(linesOf, path, row.line)))
  }

  // A row keeps the path of its own unit's file table when its file number has 32 bits.
  lemma RowKeepsItsPath(units: seq<UnitResult>, k: nat, row: Row)
    requires k < |units| && k < TWO32 && row.file < TWO32
    ensures PathFor(PathsOf(units), TagRow(k, row).file)
         == if row.file < |units[k].paths| then units[k].paths[row.file] else ""
  {
    hide TagRow, TaggedUnit, TaggedFile;
    TagRowReadsBack(k, row);
  }

  // What is shown for a row of the k-th unit: its address, line and column, the path that its
  // file number has in that unit's own table, and the text of that line of that file.
  predicate Shows(e: Entry, units: seq<UnitResult>, k: nat, row: Row, linesOf: string -> seq<string>)
    requires k < |units|
  {
    var shown := e.location;
    && e.address == row.address && shown.line == row.line && shown.column == row.column
    && (if row.file < |units[k].paths| then shown.path == units[k].paths[row.file] else shown.path == "")
    && (if shown.path != "" && 1 <= row.line <= |linesOf(shown.path)|
        then linesOf(shown.path)[..row.line] == linesOf(shown.path)[..row.line - 1] + [shown.text]
        else shown.text == "")
  }

  lemma EntryShows(units: seq<UnitResult>, k: nat, row: Row, linesOf: string -> seq<string>, e: Entry)
    requires k < |units| && k < TWO32 && row.file < TWO32
    ensures e == EntryOf(PathsOf(units), linesOf, TagRow(k, row)) <==> Shows(e, units, k, row, linesOf)
  {
    RowKeepsItsPath(units, k, row);
    hide PathFor, Tag, PathsOf;
    var path := EntryOf(PathsOf(units), linesOf, TagRow(k, row)).location.path;
    var lines, n := linesOf(path), row.line;
    if 1 <= n <= |lines| {
      assert lines[..n] == lines[..n - 1] + [lines[n - 1]];
      assert forall text :: lines[..n] == lines[..n - 1] + [text] ==> text == lines[..n][n - 1] == lines[n - 1];
    }
  }

  lemma {:induction false} RowsTagged(units: seq<UnitResult>, n: nat, row: Row)
    requires n <= |units|
    ensures row in RowsOf(units, n) <==>
      exists k, i :: 0 <= k < n && 0 <= i < |units[k].rows| && row == TagRow(k, units[k].rows[i])
  {
    hide TagRow;
    if n > 0 {
      RowsTagged(units, n - 1, row);
      var last := TagRows(n - 1, units[n - 1].rows);
      if row in last {
        var i :| 0 <= i < |last| && last[i] == row;
        assert row == TagRow(n - 1, units[n - 1].rows[i]);
      }
      if k, i :| 0 <= k < n && 0 <= i < |units[k].rows| && row == TagRow(k, units[k].rows[i]) {
        assert k == n - 1 ==> last[i] == row;
      }
    }
  }

  // A row of a unit is shown by the entry.
  ghost predicate ShowsARow(e: Entry, units: seq<UnitResult>, linesOf: string -> seq<string>) {
    exists k, i :: 0 <= k < |units| && 0 <= i < |units[k].rows| && Shows(e, units, k, units[k].rows[i], linesOf)
  }

  predicate SmallFiles(units: seq<UnitResult>) {
    |units| <= TWO32 && forall k, i | 0 <= k < |units| && 0 <= i < |units[k].rows| :: units[k].rows[i].file < TWO32
  }

  // From the units to the table: an entry is in it exactly when it shows a row of a unit.
  lemma LocationsShowRows(units: seq<UnitResult>, linesOf: string -> seq<string>, locations: seq<Entry>, e: Entry)
    requires SmallFiles(units)
    requires multiset(locations) == multiset(EntriesOf(PathsOf(units), linesOf, RowsOf(units, |units|)))
    ensures e in locations <==> ShowsARow(e, units, linesOf)
  {
    hide EntryOf, Shows, TagRow, RowsOf, PathsOf;
    var rows := RowsOf(units, |units|);
    var entries := EntriesOf(PathsOf(units), linesOf, rows);
    SameElements(locations, entries);
    if e in entries {
      var j :| 0 <= j < |entries| && entries[j] == e;
      RowsTagged(units, |units|, rows[j]);
      var k, i :| 0 <= k < |units| && 0 <= i < |units[k].rows| && rows[j] == TagRow(k, units[k].rows[i]);
      EntryShows(units, k, units[k].rows[i], linesOf, e);
    }
    if ShowsARow(e, units, linesOf) {
      var k, i :| 0 <= k < |units| && 0 <= i < |units[k].rows| && Shows(e, units, k, units[k].rows[i], linesOf);
      EntryShows(units, k, units[k].rows[i], linesOf, e);
      RowsTagged(units, |units|, TagRow(k, units[k].rows[i]));
      var j :| 0 <= j < |rows| && rows[j] == TagRow(k, units[k].rows[i]);
      assert entries[j] == e;
    }
  }

  lemma TagRowReadsBack(unitId: uint32, row: Row)
    requires row.file < TWO32
    ensures TaggedUnit(TagRow(unitId, row).file) == unitId && TaggedFile(TagRow(unitId, row).file) == row.file
  {
    TagReadsBackIffSmall(unitId, row.file);
    assert Tag(unitId, row.file) == row.file + unitId * TWO32;
  }

  // Set the file to 2^32 and push the row.
  const LARGE_FILE: Bytes := [4, 0x80, 0x80, 0x80, 0x80, 0x10, 1]

  lemma LargeFileRow(h: Header)
    requires ValidHeader(h) && h.opcodeBase > 4
    ensures var m := Step(h, LARGE_FILE, Step(h, LARGE_FILE, Machine(Cur(0, false), Start(h, []))));
      m.cur == Cur(7, false) && m.regs.rows == [Row(0, TWO32, 1, 0)]
  {
    LargeFileNumber();
    hide Uleb;
    assert Step(h, LARGE_FILE, Machine(Cur(0, false), Start(h, [])))
        == Machine(Cur(6, false), Start(h, []).(file := TWO32));
  }

  lemma LargeFileNumber()
    ensures Uleb(LARGE_FILE, Cur(1, false)) == (TWO32, Cur(6, false))
  {
    var n: uint64 := TWO32;
    assert EncodeUleb(16) == [16];
    assert EncodeUleb(0x800) == [0x80] + EncodeUleb(16);
    assert EncodeUleb(0x4_0000) == [0x80] + EncodeUleb(0x800);
    assert EncodeUleb(0x200_0000) == [0x80] + EncodeUleb(0x4_0000);
    assert EncodeUleb(n) == [0x80] + EncodeUleb(0x200_0000);
    assert EncodeUleb(n) == LARGE_FILE[1..6];
    hide EncodeUleb, Uleb;
    assert At(LARGE_FILE, 1, EncodeUleb(n));
    UlebInverts(LARGE_FILE, 1, n);
  }

  // The line machine takes such a file number, and the row is shown with the first file of
  // the next unit.
  lemma LargeFileTakesAnotherPath(h: Header, units: seq<UnitResult>)
    requires ValidHeader(h) && h.opcodeBase > 4
    requires |units| > 1 && units[1].paths != []
    ensures var m := Step(h, LARGE_FILE, Step(h, LARGE_FILE, Machine(Cur(0, false), Start(h, []))));
      |m.regs.rows| == 1 && PathFor(PathsOf(units), TagRow(0, m.regs.rows[0]).file) == units[1].paths[0]
  {
    hide Step;
    LargeFileRow(h);
    assert BitOr(1, 0) == 1;
    assert Tag(0, TWO32) == TWO32;
  }

  predicate EntryLess(a: Entry, b: Entry) {
    a.address < b.address
  }

  function EntryAddresses(entries: seq<Entry>): (keys: seq<nat>)
    ensures |keys| == |entries| && forall i | 0 <= i < |keys| :: keys[i] == entries[i].address
  {
    seq(|entries|, i requires 0 <= i < |entries| => entries[i].address)
  }

  predicate ByAddress(entries: seq<Entry>) {
    Ordered(EntryAddresses(entries))
  }

  function EntriesOf(paths: seq<seq<string>>, linesOf: string -> seq<string>, rows: seq<Row>): (entries: seq<Entry>)
    ensures |entries| == |rows|
  {
    seq(|rows|, i requires 0 <= i < |rows| => EntryOf(paths, linesOf, rows[i]))
  }

  // The locations hold one entry a row, by address.
  method BuildLocations(paths: seq<seq<string>>, linesOf: string -> seq<string>,
    rows: seq<Row>) returns (locations: seq<Entry>)
    ensures ByAddress(locations)
    ensures multiset(locations) == multiset(EntriesOf(paths, linesOf, rows))
  {
    hide EntryOf;
    locations := [];
    for i := 0 to |rows|
      invariant locations == EntriesOf(paths, linesOf, rows[..i])
    {
      locations := locations + [EntryOf(paths, linesOf, rows[i])];
    }
    assert rows[..|rows|] == rows;
    locations := Sort(EntryLess, locations);
    forall i, j | 0 <= i < j < |locations| ensures locations[i].address <= locations[j].address {
      assert !EntryLess(locations[j], locations[i]);
    }
  }

  function SourceAt(locations: seq<Entry>, address: uint64): Option<Location> {
    var upper := UpperBound(EntryAddresses(locations), address);
    if upper == 0 || locations[upper - 1].location.line == 0 then None
    else Some(locations[upper - 1].location)
  }

  // The last entry that does not stand above the address.
  predicate LastUpTo(locations: seq<Entry>, address: uint64, k: nat) {
    && k < |locations| && locations[k].address <= address
    && forall j | k < j < |locations| :: locations[j].address > address
  }

  lemma UpperBoundIsLast(locations: seq<Entry>, address: uint64)
    requires ByAddress(locations)
    ensures var upper := UpperBound(EntryAddresses(locations), address);
      && (upper > 0 ==> LastUpTo(locations, address, upper - 1))
      && forall k: nat | LastUpTo(locations, address, k) :: k == upper - 1
  {
    var keys := EntryAddresses(locations);
    var upper := UpperBound(keys, address);
    UpperBoundSplits(keys, address);
    hide UpperBound, ByAddress;
    forall k | 0 <= k < |locations| ensures locations[k].address <= address <==> k < upper {
      assert keys[k] == locations[k].address;
    }
  }

  lemma LastIsGreatest(locations: seq<Entry>, address: uint64, k: nat)
    requires ByAddress(locations) && LastUpTo(locations, address, k)
    ensures forall other | other in locations && other.address <= address :: other.address <= locations[k].address
  {
    var keys := EntryAddresses(locations);
    forall other | other in locations && other.address <= address ensures other.address <= locations[k].address {
      var j :| 0 <= j < |locations| && locations[j] == other;
      assert keys[j] == other.address && keys[k] == locations[k].address && j <= k;
    }
  }

  predicate AllAbove(locations: seq<Entry>, address: uint64) {
    forall other | other in locations :: other.address > address
  }

  // The location is that of the last row of greatest address not above the query, unless
  // that row has no line; without such a row there is none.
  lemma SourceAtIsNearestRow(locations: seq<Entry>, address: uint64)
    requires ByAddress(locations)
    ensures AllAbove(locations, address) ==> SourceAt(locations, address).None?
    ensures !AllAbove(locations, address) ==>
      exists k: nat :: LastUpTo(locations, address, k)
        && (forall other | other in locations && other.address <= address :: other.address <= locations[k].address)
        && SourceAt(locations, address)
           == if locations[k].location.line == 0 then None else Some(locations[k].location)
  {
    hide ByAddress, UpperBound;
    UpperBoundIsLast(locations, address);
    var upper := UpperBound(EntryAddresses(locations), address);
    if upper > 0 {
      assert locations[upper - 1] in locations;
      LastIsGreatest(locations, address, upper - 1);
    } else {
      AboveAll(locations, address);
    }
  }

  lemma AboveAll(locations: seq<Entry>, address: uint64)
    requires ByAddress(locations) && UpperBound(EntryAddresses(locations), address) == 0
    ensures AllAbove(locations, address)
  {
    var keys := EntryAddresses(locations);
    UpperBoundSplits(keys, address);
    forall other | other in locations ensures other.address > address {
      var j :| 0 <= j < |locations| && locations[j] == other;
      assert keys[j] == other.address;
    }
  }
}
