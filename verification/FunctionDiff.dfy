// The function-level diff of two binaries: functions matched by name, then by body.

module FunctionDiff {
  import opened LineDiff
  import opened Slices
  import opened TextOrder

  datatype Instruction = Instruction(mnemonic: string, operands: string)

  datatype FunctionBody = FunctionBody(name: string, instructions: seq<Instruction>)

  datatype DiffResult = DiffResult(added: seq<string>, removed: seq<string>, changed: seq<string>, same: nat)

  // ---------- names in order ----------

  predicate IsLeast(s: set<string>, k: string) {
    k in s && forall j | j in s && j != k :: Before(k, j)
  }

  lemma {:induction false} LeastExists(s: set<string>) returns (k: string)
    requires s != {}
    ensures IsLeast(s, k)
  {
    k :| k in s;
    if s != {k} {
      var rest := s - {k};
      var j := LeastExists(rest);
      BeforeTotal(k, j);
      if Before(j, k) {
        k := j;
      } else {
        forall i | i in s && i != k ensures Before(k, i) {
          if i != j { BeforeTransitive(k, j, i); }
        }
      }
    }
  }

  lemma LeastIsUnique(s: set<string>)
    requires s != {}
    ensures exists k :: IsLeast(s, k)
    ensures forall j, k | IsLeast(s, j) && IsLeast(s, k) :: j == k
  {
    var least := LeastExists(s);
    forall j, k | IsLeast(s, j) && IsLeast(s, k) ensures j == k {
      BeforeTotal(j, k);
    }
  }

  // The names of a map in the order a walk over it meets them.
  function InOrder(s: set<string>): (names: seq<string>)
    ensures |names| == |s| && forall k :: k in names <==> k in s
    ensures forall i, j | 0 <= i < j < |names| :: Before(names[i], names[j])
  {
    if s == {} then []
    else
      LeastIsUnique(s);
      var k :| IsLeast(s, k);
      [k] + InOrder(s - {k})
  }

  // ---------- signatures ----------

  function InstructionText(i: Instruction): string {
    i.mnemonic + " " + i.operands + "\n"
  }

  function SignatureOf(instructions: seq<Instruction>): string {
    if instructions == [] then "" else InstructionText(instructions[0]) + SignatureOf(instructions[1..])
  }

  // The lines the per-function diff works on.
  function LineOf(i: Instruction): string {
    i.mnemonic + if i.operands == "" then "" else " " + i.operands
  }

  function LinesOf(instructions: seq<Instruction>): (lines: seq<string>)
    ensures |lines| == |instructions|
  {
    seq(|instructions|, i requires 0 <= i < |instructions| => LineOf(instructions[i]))
  }

  // Functions by name; of several with one name the last counts.
  function ByName(functions: seq<FunctionBody>): map<string, string> {
    if functions == [] then map[]
    else
      var last := |functions| - 1;
      ByName(functions[..last])[functions[last].name := SignatureOf(functions[last].instructions)]
  }

  // The map holds exactly the names that occur, each with the body of its last function.
  lemma {:induction false} ByNameHoldsLast(functions: seq<FunctionBody>, i: nat)
    requires i < |functions| && forall j | i < j < |functions| :: functions[j].name != functions[i].name
    ensures functions[i].name in ByName(functions)
    ensures ByName(functions)[functions[i].name] == SignatureOf(functions[i].instructions)
  {
    var last := |functions| - 1;
    if i < last {
      assert functions[last].name != functions[i].name;
      ByNameHoldsLast(functions[..last], i);
    }
  }

  lemma {:induction false} ByNameOnlyNames(functions: seq<FunctionBody>, name: string)
    requires name in ByName(functions)
    ensures exists f | f in functions :: f.name == name
    decreases |functions|
  {
    var last := |functions| - 1;
    assert functions[last] in functions;
    if functions[last].name != name {
      ByNameOnlyNames(functions[..last], name);
      var f :| f in functions[..last] && f.name == name;
      assert f in functions;
    }
  }

  // ---------- signatures and lines ----------

  // Without line breaks; the disassembler makes none.
  predicate Unbroken(i: Instruction) {
    '\n' !in i.mnemonic && '\n' !in i.operands
  }

  // And without a space in the mnemonic.
  predicate Plain(i: Instruction) {
    Unbroken(i) && ' ' !in i.mnemonic
  }

  // A text up to the first of a character.
  function Head(s: string, c: char): string {
    if s == "" || s[0] == c then "" else [s[0]] + Head(s[1..], c)
  }

  lemma {:induction false} HeadOf(a: string, c: char, x: string)
    requires c !in a && (x == "" || x[0] == c)
    ensures Head(a + x, c) == a
  {
    if a == "" {
      assert a + x == x;
    } else {
      assert (a + x)[1..] == a[1..] + x;
      HeadOf(a[1..], c, x);
    }
  }

  lemma CutAt(a: string, b: string, c: char, x: string, y: string)
    requires c !in a && c !in b && a + x == b + y
    requires (x == "" || x[0] == c) && (y == "" || y[0] == c)
    ensures a == b && x == y
  {
    HeadOf(a, c, x);
    HeadOf(b, c, y);
    assert x == (a + x)[|a|..] && y == (b + y)[|b|..];
  }

  lemma CutAfter(a: string, b: string, c: char, x: string, y: string)
    requires c !in a && c !in b && a + ([c] + x) == b + ([c] + y)
    ensures a == b && x == y
  {
    CutAt(a, b, c, [c] + x, [c] + y);
    assert x == ([c] + x)[1..] && y == ([c] + y)[1..];
  }

  // What the signature holds of an instruction, up to the line break.
  function Entry(i: Instruction): string {
    i.mnemonic + " " + i.operands
  }

  function Entries(a: seq<Instruction>): (entries: seq<string>)
    ensures |entries| == |a|
  {
    seq(|a|, k requires 0 <= k < |a| => Entry(a[k]))
  }

  lemma SignatureCons(a: seq<Instruction>)
    requires a != []
    ensures SignatureOf(a) == Entry(a[0]) + (['\n'] + SignatureOf(a[1..]))
    ensures Entries(a) == [Entry(a[0])] + Entries(a[1..])
  {
    var x, i := SignatureOf(a[1..]), a[0];
    hide SignatureOf, Entries;
    EntryText(i, x);
  }

  lemma EntryText(i: Instruction, x: string)
    ensures InstructionText(i) + x == Entry(i) + (['\n'] + x)
  {
  }

  // The signature tells the entries, and nothing more.
  lemma {:induction false} SignatureIsEntries(a: seq<Instruction>, b: seq<Instruction>)
    requires forall i | i in a :: Unbroken(i)
    requires forall i | i in b :: Unbroken(i)
    ensures SignatureOf(a) == SignatureOf(b) <==> Entries(a) == Entries(b)
  {
    if a != [] && b != [] {
      assert a[0] in a && b[0] in b;
      SignatureIsEntries(a[1..], b[1..]);
      SignatureCons(a);
      SignatureCons(b);
      hide SignatureOf, Entries;
      var x, y := SignatureOf(a[1..]), SignatureOf(b[1..]);
      if SignatureOf(a) == SignatureOf(b) {
        CutAfter(Entry(a[0]), Entry(b[0]), '\n', x, y);
      }
      if Entries(a) == Entries(b) {
        assert Entry(a[0]) == Entries(a)[0] == Entries(b)[0] == Entry(b[0]);
        assert Entries(a)[1..] == Entries(a[1..]) && Entries(b)[1..] == Entries(b[1..]);
      }
    }
  }

  // The summary counts a function as unchanged exactly when its own diff shows only kept
  // lines, but for the cap of that diff.
  ghost predicate Agree(a: seq<Instruction>, b: seq<Instruction>) {
    OnlyKeeps(DiffScript(LinesOf(a), LinesOf(b))) <==> SignatureOf(a) == SignatureOf(b) && |a| <= 4000
  }

  // An instruction without operands and one with some that the signature or the line takes
  // for each other.
  predicate Clash(i: Instruction, j: Instruction) {
    i.operands == "" && j.operands != "" && (i.mnemonic == Entry(j) || i.mnemonic + " " == Entry(j))
  }

  // Entry and line tell two instructions apart alike, unless they clash.
  lemma EntryAgreesWithLine(i: Instruction, j: Instruction)
    ensures (Entry(i) == Entry(j) <==> LineOf(i) == LineOf(j)) <==> !Clash(i, j) && !Clash(j, i)
  {
    LineIsEntry(i);
    LineIsEntry(j);
    hide LineOf, Entry;
    if i.operands == j.operands == "" {
      assert i.mnemonic == (i.mnemonic + " ")[..|i.mnemonic|] && j.mnemonic == (j.mnemonic + " ")[..|j.mnemonic|];
    } else {
      assert |i.mnemonic + " "| == |i.mnemonic| + 1 && |j.mnemonic + " "| == |j.mnemonic| + 1;
    }
  }

  lemma LineIsEntry(i: Instruction)
    ensures i.operands != "" ==> LineOf(i) == Entry(i)
    ensures i.operands == "" ==> LineOf(i) == i.mnemonic && Entry(i) == i.mnemonic + " "
  {
  }

  ghost predicate Over(a: seq<Instruction>, vocabulary: iset<Instruction>) {
    forall i | i in a :: i in vocabulary
  }

  ghost predicate NoClash(vocabulary: iset<Instruction>) {
    forall i, j | i in vocabulary && j in vocabulary :: !Clash(i, j)
  }

  lemma AgreeWithoutClash(a: seq<Instruction>, b: seq<Instruction>, vocabulary: iset<Instruction>)
    requires (forall i | i in vocabulary :: Unbroken(i)) && NoClash(vocabulary)
    requires Over(a, vocabulary) && Over(b, vocabulary)
    ensures Agree(a, b)
  {
    hide OnlyKeeps, DiffScript, Entry, LineOf, SignatureOf, Unbroken, Clash;
    SignatureIsEntries(a, b);
    KeepsExactlyWhenEqual(LinesOf(a), LinesOf(b));
    if |a| == |b| {
      forall k | 0 <= k < |a| ensures Entry(a[k]) == Entry(b[k]) <==> LineOf(a[k]) == LineOf(b[k]) {
        assert a[k] in a && b[k] in b;
        EntryAgreesWithLine(a[k], b[k]);
      }
      assert Entries(a) == Entries(b) <==> LinesOf(a) == LinesOf(b) by {
        forall k | 0 <= k < |a|
          ensures Entries(a)[k] == Entries(b)[k] <==> LinesOf(a)[k] == LinesOf(b)[k]
        {
        }
      }
    }
  }

  lemma ClashDisagrees(i: Instruction, j: Instruction)
    requires Unbroken(i) && Unbroken(j) && Clash(i, j)
    ensures !Agree([i], [j])
  {
    hide OnlyKeeps, DiffScript, Entry, LineOf, SignatureOf, Clash;
    EntryAgreesWithLine(i, j);
    SignatureIsEntries([i], [j]);
    KeepsExactlyWhenEqual(LinesOf([i]), LinesOf([j]));
    assert Entries([i]) == [Entry(i)] && Entries([j]) == [Entry(j)];
    assert LinesOf([i]) == [LineOf(i)] && LinesOf([j]) == [LineOf(j)];
    assert Entries([i])[0] == Entry(i) && Entries([j])[0] == Entry(j);
    assert LinesOf([i])[0] == LineOf(i) && LinesOf([j])[0] == LineOf(j);
  }

  // Summary and line diff agree on all bodies over a vocabulary if and only if no two of its
  // instructions clash.
  lemma SummaryAgreesIffNoClash(vocabulary: iset<Instruction>)
    requires forall i | i in vocabulary :: Unbroken(i)
    ensures (forall a, b | Over(a, vocabulary) && Over(b, vocabulary) :: Agree(a, b)) <==> NoClash(vocabulary)
  {
    hide Agree, Clash, Unbroken;
    if NoClash(vocabulary) {
      forall a, b | Over(a, vocabulary) && Over(b, vocabulary) ensures Agree(a, b) {
        AgreeWithoutClash(a, b, vocabulary);
      }
    } else {
      var i, j :| i in vocabulary && j in vocabulary && Clash(i, j);
      ClashDisagrees(i, j);
      assert Over([i], vocabulary) && Over([j], vocabulary);
    }
  }

  lemma PlainNeverClash(i: Instruction, j: Instruction)
    requires Plain(i) && Plain(j)
    ensures !Clash(i, j)
  {
    assert Entry(j) == j.mnemonic + ([' '] + j.operands);
    assert Entry(j)[|j.mnemonic|] == ' ';
    assert i.mnemonic + " " == i.mnemonic + ([' '] + "");
    if i.mnemonic + " " == Entry(j) {
      CutAfter(i.mnemonic, j.mnemonic, ' ', "", j.operands);
    }
  }

  // With no space in a mnemonic they agree on all bodies.
  lemma SummaryAgreesWithDiff(a: seq<Instruction>, b: seq<Instruction>)
    requires forall i | i in a :: Plain(i)
    requires forall i | i in b :: Plain(i)
    ensures Agree(a, b)
  {
    hide Agree, Clash;
    var vocabulary := iset i | Plain(i);
    forall i, j | i in vocabulary && j in vocabulary ensures !Clash(i, j) {
      PlainNeverClash(i, j);
    }
    AgreeWithoutClash(a, b, vocabulary);
  }

  // Both ways to clash: two different bodies with one signature, which the line diff tells
  // apart, and one line text with two signatures.
  lemma ClashingInstructions()
    ensures var a, b := Instruction("rep movsb", ""), Instruction("rep", "movsb ");
      Clash(a, b) && SignatureOf([a]) == SignatureOf([b]) && LineOf(a) != LineOf(b)
    ensures var a, b := Instruction("rep movsb", ""), Instruction("rep", "movsb");
      Clash(a, b) && SignatureOf([a]) != SignatureOf([b]) && LineOf(a) == LineOf(b)
  {
    var a, b, c := Instruction("rep movsb", ""), Instruction("rep", "movsb "), Instruction("rep", "movsb");
    SignatureCons([a]);
    SignatureCons([b]);
    SignatureCons([c]);
    assert Entry(a) == Entry(b) == "rep movsb " && Entry(c) == "rep movsb";
    assert |LineOf(a)| == 9 && |LineOf(b)| == 10 && LineOf(c) == LineOf(a);
    assert SignatureOf([]) == "";
    assert |SignatureOf([a])| == 11 && |SignatureOf([c])| == 10;
  }

  // ---------- classification ----------

  function Select(names: seq<string>, p: string -> bool): (r: seq<string>)
    ensures forall k :: k in r <==> k in names && p(k)
    ensures |r| <= |names|
  {
    if names == [] then [] else (if p(names[0]) then [names[0]] else []) + Select(names[1..], p)
  }

  function Missing(m: map<string, string>): string -> bool {
    k => k !in m
  }

  function Changed(older: map<string, string>, newer: map<string, string>): string -> bool {
    k => k in older && k in newer && older[k] != newer[k]
  }

  function Same(older: map<string, string>, newer: map<string, string>): string -> bool {
    k => k in older && k in newer && older[k] == newer[k]
  }

  function AddedNames(older: map<string, string>, newer: map<string, string>): (r: seq<string>)
    ensures forall k :: k in r <==> k in newer && k !in older
  {
    Select(InOrder(newer.Keys), Missing(older))
  }

  function RemovedNames(older: map<string, string>, newer: map<string, string>): (r: seq<string>)
    ensures forall k :: k in r <==> k in older && k !in newer
  {
    Select(InOrder(older.Keys), Missing(newer))
  }

  function ChangedNames(older: map<string, string>, newer: map<string, string>): (r: seq<string>)
    ensures forall k :: k in r <==> k in newer && k in older && older[k] != newer[k]
  {
    Select(InOrder(newer.Keys), Changed(older, newer))
  }

  function SameNames(older: map<string, string>, newer: map<string, string>): seq<string> {
    Select(InOrder(newer.Keys), Same(older, newer))
  }

  // ---------- renames ----------

  datatype Rename = Rename(from: string, to: string)

  datatype Matching = Matching(added: seq<string>, removed: seq<string>, renames: seq<Rename>)

  // The first removed name with this body, or the end.
  function FirstWith(removed: seq<string>, older: map<string, string>, body: string): (i: nat)
    requires forall k | k in removed :: k in older
    ensures i <= |removed|
    ensures i < |removed| ==> older[removed[i]] == body
    ensures forall j | 0 <= j < i :: older[removed[j]] != body
  {
    if removed == [] || older[removed[0]] == body then 0 else 1 + FirstWith(removed[1..], older, body)
  }

  function Without<T>(s: seq<T>, i: nat): seq<T>
    requires i < |s|
  {
    s[..i] + s[i + 1..]
  }

  // Added names taken in order, each paired with the first removed name of equal body.
  function MatchUp(added: seq<string>, removed: seq<string>, older: map<string, string>,
    newer: map<string, string>): (m: Matching)
    requires forall k | k in added :: k in newer
    requires forall k | k in removed :: k in older
    ensures |m.added| + |m.renames| == |added| && |m.removed| + |m.renames| == |removed|
    ensures forall k | k in m.added :: k in added
    ensures forall k | k in m.removed :: k in removed
    decreases |added|
  {
    if added == [] then Matching([], removed, [])
    else
      var i := FirstWith(removed, older, newer[added[0]]);
      if i < |removed| then
        var rest := MatchUp(added[1..], Without(removed, i), older, newer);
        rest.(renames := [Rename(removed[i], added[0])] + rest.renames)
      else
        var rest := MatchUp(added[1..], removed, older, newer);
        rest.(added := [added[0]] + rest.added)
  }

  function RenameText(r: Rename): string {
    r.from + " -> " + r.to
  }

  function RenameTexts(renames: seq<Rename>): (texts: seq<string>)
    ensures |texts| == |renames|
  {
    seq(|renames|, i requires 0 <= i < |renames| => RenameText(renames[i]))
  }

  // ---------- sorting ----------

  function InsertSorted(x: string, s: seq<string>): (r: seq<string>)
    ensures multiset(r) == multiset(s) + multiset{x}
  {
    if s == [] || !Before(s[0], x) then [x] + s
    else
      assert s == [s[0]] + s[1..];
      [s[0]] + InsertSorted(x, s[1..])
  }

  function Sorted(s: seq<string>): (r: seq<string>)
    ensures multiset(r) == multiset(s) && |r| == |s|
  {
    if s == [] then []
    else
      assert s == [s[0]] + s[1..];
      var r := InsertSorted(s[0], Sorted(s[1..]));
      assert |multiset(r)| == |multiset(s)|;
      r
  }

  // ---------- the whole diff ----------

  function Diff(older: map<string, string>, newer: map<string, string>): DiffResult {
    var m := MatchUp(AddedNames(older, newer), RemovedNames(older, newer), older, newer);
    DiffResult(Sorted(m.added), Sorted(m.removed),
               Sorted(ChangedNames(older, newer) + RenameTexts(m.renames)), |SameNames(older, newer)|)
  }

  // ---------- the counts ----------

  predicate Distinct(s: seq<string>) {
    forall i, j | 0 <= i < j < |s| :: s[i] != s[j]
  }

  lemma {:induction false} DistinctSize(s: seq<string>, x: set<string>)
    requires Distinct(s) && forall k :: k in s <==> k in x
    ensures |s| == |x|
  {
    if s == [] {
      assert x == {};
    } else {
      assert forall k :: k in s <==> k == s[0] || k in s[1..];
      assert s[0] in x && s[0] !in s[1..];
      DistinctSize(s[1..], x - {s[0]});
    }
  }

  lemma {:induction false} SelectDistinct(names: seq<string>, p: string -> bool)
    requires Distinct(names)
    ensures Distinct(Select(names, p))
  {
    if names != [] {
      SelectDistinct(names[1..], p);
      assert names[0] !in names[1..];
    }
  }

  lemma InOrderDistinct(s: set<string>)
    ensures Distinct(InOrder(s))
  {
    var names := InOrder(s);
    forall i, j | 0 <= i < j < |names| ensures names[i] != names[j] {
      BeforeTotal(names[i], names[j]);
    }
  }

  // The selected names of a map are as many as the set of them.
  lemma SelectSize(s: set<string>, p: string -> bool, x: set<string>)
    requires forall k :: k in x <==> k in s && p(k)
    ensures |Select(InOrder(s), p)| == |x|
  {
    InOrderDistinct(s);
    SelectDistinct(InOrder(s), p);
    DistinctSize(Select(InOrder(s), p), x);
  }

  function Shared(older: map<string, string>, newer: map<string, string>): set<string> {
    older.Keys * newer.Keys
  }

  function Differing(older: map<string, string>, newer: map<string, string>): set<string> {
    set k | k in older.Keys * newer.Keys && older[k] != newer[k]
  }

  lemma AddedSize(older: map<string, string>, newer: map<string, string>)
    ensures |AddedNames(older, newer)| + |Shared(older, newer)| == |newer|
  {
    SelectSize(newer.Keys, Missing(older), newer.Keys - Shared(older, newer));
    hide Select, InOrder;
    assert |newer.Keys - Shared(older, newer)| + |Shared(older, newer)| == |newer.Keys|;
  }

  lemma RemovedSize(older: map<string, string>, newer: map<string, string>)
    ensures |RemovedNames(older, newer)| + |Shared(older, newer)| == |older|
  {
    SelectSize(older.Keys, Missing(newer), older.Keys - Shared(older, newer));
    hide Select, InOrder;
    assert |older.Keys - Shared(older, newer)| + |Shared(older, newer)| == |older.Keys|;
  }

  lemma SharedSize(older: map<string, string>, newer: map<string, string>)
    ensures |ChangedNames(older, newer)| + |SameNames(older, newer)| == |Shared(older, newer)|
  {
    var both, changed := Shared(older, newer), Differing(older, newer);
    SelectSize(newer.Keys, Changed(older, newer), changed);
    SelectSize(newer.Keys, Same(older, newer), both - changed);
    hide Select, InOrder, Changed, Same;
    assert |both - changed| + |changed| == |both|;
  }

  // Every new name is added, changed (or renamed) or unchanged, and every old name
  // removed, changed (or renamed) or unchanged.
  lemma CountsBalance(older: map<string, string>, newer: map<string, string>)
    ensures var d := Diff(older, newer);
      && |d.added| + |d.changed| + d.same == |newer|
      && |d.removed| + |d.changed| + d.same == |older|
  {
    AddedSize(older, newer);
    RemovedSize(older, newer);
    SharedSize(older, newer);
    hide Select, MatchUp, Sorted, AddedNames, RemovedNames, ChangedNames, SameNames, Shared;
  }

  // ---------- what is left, and what is paired ----------

  // No added function that is left has the body of a removed one that is left.
  lemma {:induction false} LeftOverBodiesDiffer(added: seq<string>, removed: seq<string>,
    older: map<string, string>, newer: map<string, string>)
    requires forall k | k in added :: k in newer
    requires forall k | k in removed :: k in older
    ensures var m := MatchUp(added, removed, older, newer);
      forall a, r | a in m.added && r in m.removed :: newer[a] != older[r]
    decreases |added|
  {
    if added != [] {
      var i := FirstWith(removed, older, newer[added[0]]);
      LeftOverBodiesDiffer(added[1..], if i < |removed| then Without(removed, i) else removed, older, newer);
      if i == |removed| {
        forall r | r in removed ensures older[r] != newer[added[0]] {
          var j :| 0 <= j < |removed| && removed[j] == r;
        }
      }
    }
  }

  lemma NoRenameIsMissed(older: map<string, string>, newer: map<string, string>)
    ensures var d := Diff(older, newer);
      forall a, r | a in d.added && r in d.removed :: a in newer && r in older && newer[a] != older[r]
  {
    hide AddedNames, RemovedNames, ChangedNames, SameNames, Sorted, RenameTexts;
    var m := MatchUp(AddedNames(older, newer), RemovedNames(older, newer), older, newer);
    LeftOverBodiesDiffer(AddedNames(older, newer), RemovedNames(older, newer), older, newer);
    hide MatchUp;
    SameMembers(Sorted(m.added), m.added);
    SameMembers(Sorted(m.removed), m.removed);
  }

  lemma SameMembers(s: seq<string>, t: seq<string>)
    requires multiset(s) == multiset(t)
    ensures forall k :: k in s <==> k in t
  {
    forall k ensures k in s <==> k in t {
      assert k in s <==> k in multiset(s);
      assert k in t <==> k in multiset(t);
    }
  }

  function Sources(renames: seq<Rename>): seq<string> {
    if renames == [] then [] else [renames[0].from] + Sources(renames[1..])
  }

  function Targets(renames: seq<Rename>): seq<string> {
    if renames == [] then [] else [renames[0].to] + Targets(renames[1..])
  }

  lemma WithoutMembers(s: seq<string>, i: nat)
    requires i < |s|
    ensures multiset(s) == multiset(Without(s, i)) + multiset{s[i]}
  {
    assert s == s[..i] + ([s[i]] + s[i + 1..]);
  }

  // Every rename pairs a removed with an added function of the same body.
  lemma {:induction false} RenamesPairEqualBodies(added: seq<string>, removed: seq<string>,
    older: map<string, string>, newer: map<string, string>)
    requires forall k | k in added :: k in newer
    requires forall k | k in removed :: k in older
    ensures forall r | r in MatchUp(added, removed, older, newer).renames ::
      r.from in older && r.to in newer && older[r.from] == newer[r.to]
    decreases |added|
  {
    if added != [] {
      var i := FirstWith(removed, older, newer[added[0]]);
      RenamesPairEqualBodies(added[1..], if i < |removed| then Without(removed, i) else removed, older, newer);
    }
  }

  // Each added name is either left or in exactly one pair.
  lemma {:induction false} AddedAreConserved(added: seq<string>, removed: seq<string>,
    older: map<string, string>, newer: map<string, string>)
    requires forall k | k in added :: k in newer
    requires forall k | k in removed :: k in older
    ensures var m := MatchUp(added, removed, older, newer);
      multiset(added) == multiset(m.added) + multiset(Targets(m.renames))
    decreases |added|
  {
    if added != [] {
      assert added == [added[0]] + added[1..];
      var i := FirstWith(removed, older, newer[added[0]]);
      AddedAreConserved(added[1..], if i < |removed| then Without(removed, i) else removed, older, newer);
    }
  }

  // Each removed name is either left or in exactly one pair.
  lemma {:induction false} RemovedAreConserved(added: seq<string>, removed: seq<string>,
    older: map<string, string>, newer: map<string, string>)
    requires forall k | k in added :: k in newer
    requires forall k | k in removed :: k in older
    ensures var m := MatchUp(added, removed, older, newer);
      multiset(removed) == multiset(m.removed) + multiset(Sources(m.renames))
    decreases |added|
  {
    if added != [] {
      var i := FirstWith(removed, older, newer[added[0]]);
      if i < |removed| { WithoutMembers(removed, i); }
      RemovedAreConserved(added[1..], if i < |removed| then Without(removed, i) else removed, older, newer);
    }
  }

  // How many of the names have this body.
  function WithBody(names: seq<string>, bodies: map<string, string>, body: string): nat
    requires forall k | k in names :: k in bodies
  {
    if names == [] then 0
    else (if bodies[names[0]] == body then 1 else 0) + WithBody(names[1..], bodies, body)
  }

  lemma {:induction false} WithBodyWithout(names: seq<string>, bodies: map<string, string>, body: string, i: nat)
    requires i < |names| && forall k | k in names :: k in bodies
    ensures WithBody(names, bodies, body)
         == WithBody(Without(names, i), bodies, body) + if bodies[names[i]] == body then 1 else 0
  {
    if i > 0 {
      WithBodyWithout(names[1..], bodies, body, i - 1);
      assert Without(names, i) == [names[0]] + Without(names[1..], i - 1);
    } else {
      assert Without(names, 0) == names[1..];
    }
  }

  lemma {:induction false} WithBodyNone(names: seq<string>, bodies: map<string, string>, body: string)
    requires forall k | k in names :: k in bodies && bodies[k] != body
    ensures WithBody(names, bodies, body) == 0
  {
    if names != [] {
      assert names[0] in names;
      WithBodyNone(names[1..], bodies, body);
    }
  }

  function RenamesOf(renames: seq<Rename>, newer: map<string, string>, body: string): nat
    requires forall r | r in renames :: r.to in newer
  {
    if renames == [] then 0
    else (if newer[renames[0].to] == body then 1 else 0) + RenamesOf(renames[1..], newer, body)
  }

  function Min(a: nat, b: nat): nat {
    if a < b then a else b
  }

  // For each body there are as many renames as there can be: the lesser of the numbers of
  // added and of removed functions that have it.
  lemma {:induction false} RenamesAreMaximal(added: seq<string>, removed: seq<string>,
    older: map<string, string>, newer: map<string, string>, body: string)
    requires forall k | k in added :: k in newer
    requires forall k | k in removed :: k in older
    ensures var m := MatchUp(added, removed, older, newer);
      && (forall r | r in m.renames :: r.to in newer)
      && RenamesOf(m.renames, newer, body) == Min(WithBody(added, newer, body), WithBody(removed, older, body))
    decreases |added|
  {
    if added != [] {
      var i := FirstWith(removed, older, newer[added[0]]);
      if i < |removed| {
        RenamesAreMaximal(added[1..], Without(removed, i), older, newer, body);
        WithBodyWithout(removed, older, body, i);
        hide FirstWith;
      } else {
        RenamesAreMaximal(added[1..], removed, older, newer, body);
        forall r | r in removed ensures older[r] != newer[added[0]] {
          var j :| 0 <= j < |removed| && removed[j] == r;
        }
        if newer[added[0]] == body { WithBodyNone(removed, older, body); }
        hide RenamesOf, FirstWith;
      }
    }
  }

  // Nothing is reported exactly when the two binaries have the same functions.
  lemma EmptyExactlyWhenEqual(older: map<string, string>, newer: map<string, string>)
    ensures var d := Diff(older, newer);
      (d.added == [] && d.removed == [] && d.changed == []) <==> older == newer
  {
    var a, r, c := AddedNames(older, newer), RemovedNames(older, newer), ChangedNames(older, newer);
    ClassesEmpty(older, newer);
    hide AddedNames, RemovedNames, ChangedNames, SameNames, Sorted, RenameTexts;
    var m := MatchUp(a, r, older, newer);
    hide MatchUp;
    assert |Diff(older, newer).changed| == |c| + |m.renames|;
  }

  lemma HasMember(s: seq<string>)
    ensures s != [] ==> exists k :: k in s
  {
    if s != [] { assert s[0] in s; }
  }

  lemma ClassesEmpty(older: map<string, string>, newer: map<string, string>)
    ensures AddedNames(older, newer) == RemovedNames(older, newer) == ChangedNames(older, newer) == [] <==> older == newer
  {
    var a, r, c := AddedNames(older, newer), RemovedNames(older, newer), ChangedNames(older, newer);
    hide AddedNames, RemovedNames, ChangedNames;
    HasMember(a);
    HasMember(r);
    HasMember(c);
    if a == [] && r == [] && c == [] {
      forall k ensures k in older <==> k in newer { assert k !in a && k !in r; }
      forall k | k in older ensures older[k] == newer[k] { assert k !in c; }
    }
  }

  // ---------- sorting ----------

  predicate Ordered(s: seq<string>) {
    forall i, j | 0 <= i < j < |s| :: !Before(s[j], s[i])
  }

  lemma {:induction false} InsertOrdered(x: string, s: seq<string>)
    requires Ordered(s)
    ensures Ordered(InsertSorted(x, s))
  {
    if s != [] && Before(s[0], x) {
      var r := InsertSorted(x, s[1..]);
      InsertOrdered(x, s[1..]);
      forall j | 0 <= j < |r| ensures !Before(r[j], s[0]) {
        assert r[j] in multiset(r);
        BeforeTotal(s[0], x);
        assert r[j] == x || r[j] in s[1..];
      }
    } else {
      forall j | 0 <= j < |s| ensures !Before(s[j], x) {
        if Before(s[j], x) {
          BeforeTotal(s[0], s[j]);
          BeforeTotal(s[0], x);
          if s[0] != s[j] {
            if Before(s[0], s[j]) { BeforeTransitive(s[0], s[j], x); }
          }
        }
      }
    }
  }

  lemma {:induction false} SortedIsOrdered(s: seq<string>)
    ensures Ordered(Sorted(s))
  {
    if s != [] {
      SortedIsOrdered(s[1..]);
      InsertOrdered(s[0], Sorted(s[1..]));
    }
  }

  // ---------- the program ----------

  method CollectByName(functions: seq<FunctionBody>) returns (byName: map<string, string>)
    ensures byName == ByName(functions)
  {
    byName := map[];
    for i := 0 to |functions|
      invariant byName == ByName(functions[..i])
    {
      var signature := "";
      var instructions := functions[i].instructions;
      assert instructions[0..] == instructions;
      for j := 0 to |instructions|
        invariant signature + SignatureOf(instructions[j..]) == SignatureOf(instructions)
      {
        signature := signature + instructions[j].mnemonic;
        signature := signature + " ";
        signature := signature + instructions[j].operands;
        signature := signature + "\n";
      }
      assert signature + "" == signature;
      assert functions[..i + 1][..i] == functions[..i];
      byName := byName[functions[i].name := signature];
    }
    assert functions[..|functions|] == functions;
  }

  lemma MatchTurn(added: seq<string>, at: nat, removed: seq<string>, older: map<string, string>,
    newer: map<string, string>)
    requires at < |added|
    requires forall k | k in added :: k in newer
    requires forall k | k in removed :: k in older
    ensures var all := MatchUp(added[at..], removed, older, newer);
      var i := FirstWith(removed, older, newer[added[at]]);
      if i < |removed| then
        var rest := MatchUp(added[at + 1..], Without(removed, i), older, newer);
        all == rest.(renames := [Rename(removed[i], added[at])] + rest.renames)
      else
        var rest := MatchUp(added[at + 1..], removed, older, newer);
        all == rest.(added := [added[at]] + rest.added)
  {
    hide FirstWith, Without;
    assert added[at..][0] == added[at] && added[at..][1..] == added[at + 1..];
  }

  lemma RenameTextsCons(r: Rename, rest: seq<Rename>)
    ensures RenameTexts([r] + rest) == [r.from + " -> " + r.to] + RenameTexts(rest)
  {
  }

  lemma WithoutSlices(s: seq<string>, i: nat)
    requires i < |s|
    ensures |Without(s, i)| == |s| - 1 && Without(s, i)[i..] == s[i + 1..] && Without(s, i)[..i] == s[..i]
    ensures forall k | k in Without(s, i) :: k in s
  {
  }

  // The rename pass erases from both lists while it walks the added one.
  method PairRenames(added0: seq<string>, removed0: seq<string>, changed0: seq<string>,
    older: map<string, string>, newer: map<string, string>)
    returns (added: seq<string>, removed: seq<string>, changed: seq<string>)
    requires forall k | k in added0 :: k in newer
    requires forall k | k in removed0 :: k in older
    ensures var m := MatchUp(added0, removed0, older, newer);
      added == m.added && removed == m.removed && changed == changed0 + RenameTexts(m.renames)
  {
    hide MatchUp, FirstWith, RenameTexts, Without;
    added, removed, changed := added0, removed0, changed0;
    var at := 0;
    ghost var all := MatchUp(added0, removed0, older, newer);
    assert added[0..] == added0 && added[..0] == [];
    while at < |added|
      invariant at <= |added|
      invariant forall k | k in added :: k in newer
      invariant forall k | k in removed :: k in older
      invariant var rest := MatchUp(added[at..], removed, older, newer);
        && all.added == added[..at] + rest.added && all.removed == rest.removed
        && changed0 + RenameTexts(all.renames) == changed + RenameTexts(rest.renames)
      decreases |added| - at
    {
      MatchTurn(added, at, removed, older, newer);
      var found := FindBody(removed, older, newer[added[at]]);
      if found < |removed| {
        WithoutSlices(removed, found);
        WithoutSlices(added, at);
        ghost var rest := MatchUp(added[at + 1..], Without(removed, found), older, newer);
        RenameTextsCons(Rename(removed[found], added[at]), rest.renames);
        Associates(changed, [removed[found] + " -> " + added[at]], RenameTexts(rest.renames));
        changed := changed + [removed[found] + " -> " + added[at]];
        removed := Without(removed, found);
        added := Without(added, at);
      } else {
        ghost var rest := MatchUp(added[at + 1..], removed, older, newer);
        Associates(added[..at], [added[at]], rest.added);
        assert added[..at] + [added[at]] == added[..at + 1];
        at := at + 1;
      }
    }
    NothingToMatch(removed, older, newer);
    assert added[at..] == [] && added[..at] == added;
  }

  lemma NothingToMatch(removed: seq<string>, older: map<string, string>, newer: map<string, string>)
    requires forall k | k in removed :: k in older
    ensures MatchUp([], removed, older, newer) == Matching([], removed, [])
    ensures RenameTexts([]) == []
  {
  }

  method FindBody(removed: seq<string>, older: map<string, string>, body: string) returns (i: nat)
    requires forall k | k in removed :: k in older
    ensures i == FirstWith(removed, older, body)
  {
    i := 0;
    while i < |removed| && older[removed[i]] != body
      invariant i <= |removed|
      invariant FirstWith(removed, older, body) == i + FirstWith(removed[i..], older, body)
    {
      i := i + 1;
    }
  }

  lemma SelectTurn(before: seq<string>, names: seq<string>, i: nat, p: string -> bool)
    requires i < |names|
    ensures p(names[i]) ==> before + Select(names[i..], p) == before + [names[i]] + Select(names[i + 1..], p)
    ensures !p(names[i]) ==> before + Select(names[i..], p) == before + Select(names[i + 1..], p)
  {
    assert names[i..][1..] == names[i + 1..];
  }

  lemma Kinds(older: map<string, string>, newer: map<string, string>, name: string)
    requires name in newer
    ensures Missing(older)(name) == (name !in older)
    ensures Changed(older, newer)(name) == (name in older && older[name] != newer[name])
    ensures Same(older, newer)(name) == (name in older && older[name] == newer[name])
  {
  }

  method Classify(older: map<string, string>, newer: map<string, string>)
    returns (added: seq<string>, changed: seq<string>, same: nat)
    ensures added == AddedNames(older, newer) && changed == ChangedNames(older, newer)
    ensures same == |SameNames(older, newer)|
  {
    hide Select, InOrder, Missing, Changed, Same;
    added, changed, same := [], [], 0;
    var names := InOrder(newer.Keys);
    ghost var kept: seq<string> := [];
    assert names[0..] == names;
    for i := 0 to |names|
      invariant added + Select(names[i..], Missing(older)) == Select(names, Missing(older))
      invariant changed + Select(names[i..], Changed(older, newer)) == Select(names, Changed(older, newer))
      invariant kept + Select(names[i..], Same(older, newer)) == Select(names, Same(older, newer))
      invariant same == |kept|
    {
      Kinds(older, newer, names[i]);
      SelectTurn(added, names, i, Missing(older));
      SelectTurn(changed, names, i, Changed(older, newer));
      SelectTurn(kept, names, i, Same(older, newer));
      var name := names[i];
      if name !in older {
        added := added + [name];
      } else if older[name] != newer[name] {
        changed := changed + [name];
      } else {
        same := same + 1;
        kept := kept + [name];
      }
    }
    SelectNothing(names);
  }

  lemma SelectNothing(names: seq<string>)
    ensures forall p :: Select(names[|names|..], p) == []
  {
  }

  method RemovedFrom(older: map<string, string>, newer: map<string, string>) returns (removed: seq<string>)
    ensures removed == RemovedNames(older, newer)
  {
    hide Select, InOrder;
    removed := [];
    var names := InOrder(older.Keys);
    assert names[0..] == names;
    for i := 0 to |names|
      invariant removed + Select(names[i..], Missing(newer)) == Select(names, Missing(newer))
    {
      SelectTurn(removed, names, i, Missing(newer));
      if names[i] !in newer {
        removed := removed + [names[i]];
      }
    }
    SelectNothing(names);
  }

  method DiffFunctions(oldFunctions: seq<FunctionBody>, newFunctions: seq<FunctionBody>) returns (result: DiffResult)
    ensures result == Diff(ByName(oldFunctions), ByName(newFunctions))
  {
    hide AddedNames, RemovedNames, ChangedNames, SameNames, MatchUp, Sorted, ByName;
    var older := CollectByName(oldFunctions);
    var newer := CollectByName(newFunctions);
    var added, changed, same := Classify(older, newer);
    var removed := RemovedFrom(older, newer);
    added, removed, changed := PairRenames(added, removed, changed, older, newer);
    result := DiffResult(Sorted(added), Sorted(removed), Sorted(changed), same);
  }
}
