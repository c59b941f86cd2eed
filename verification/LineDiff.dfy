// The per-function diff: a longest common subsequence of the two line lists, found by a
// table of suffix lengths filled in place and a walk over it.

module LineDiff {
  import opened Common
  import opened Slices

  // ---------- scripts ----------

  datatype Edit = Keep(line: string) | Delete(line: string) | Insert(line: string)

  type Script = seq<Edit>

  // What an edit shows of the old body, and of the new one.
  function OldLine(e: Edit): seq<string> {
    if e.Insert? then [] else [e.line]
  }

  function NewLine(e: Edit): seq<string> {
    if e.Delete? then [] else [e.line]
  }

  function OldSide(s: Script): seq<string> {
    if s == [] then [] else OldLine(s[0]) + OldSide(s[1..])
  }

  function NewSide(s: Script): seq<string> {
    if s == [] then [] else NewLine(s[0]) + NewSide(s[1..])
  }

  function Keeps(s: Script): nat {
    if s == [] then 0 else (if s[0].Keep? then 1 else 0) + Keeps(s[1..])
  }

  // The number of lines printed with a minus or a plus sign.
  function Cost(s: Script): nat {
    if s == [] then 0 else (if s[0].Keep? then 0 else 1) + Cost(s[1..])
  }

  function EditText(e: Edit): string {
    match e
    case Keep(line) => "  " + line + "\n"
    case Delete(line) => "- " + line + "\n"
    case Insert(line) => "+ " + line + "\n"
  }

  function Render(s: Script): string {
    if s == [] then "" else EditText(s[0]) + Render(s[1..])
  }

  function Deletes(lines: seq<string>): Script {
    seq(|lines|, i requires 0 <= i < |lines| => Delete(lines[i]))
  }

  function Inserts(lines: seq<string>): Script {
    seq(|lines|, i requires 0 <= i < |lines| => Insert(lines[i]))
  }

  // ---------- what the diff prints ----------

  const LINE_CAP: nat := 4000

  function Max(a: nat, b: nat): nat {
    if a < b then b else a
  }

  // The recurrence of the table.
  function Lcs(a: seq<string>, b: seq<string>): (n: nat)
    ensures n <= |a| && n <= |b|
    decreases |a| + |b|
  {
    if a == [] || b == [] then 0
    else if a[0] == b[0] then Lcs(a[1..], b[1..]) + 1
    else Max(Lcs(a[1..], b), Lcs(a, b[1..]))
  }

  // The walk: keep equal heads, otherwise drop the old head unless that loses.
  function Walk(a: seq<string>, b: seq<string>): Script
    decreases |a| + |b|
  {
    if a == [] then Inserts(b)
    else if b == [] then Deletes(a)
    else if a[0] == b[0] then [Keep(a[0])] + Walk(a[1..], b[1..])
    else if Lcs(a[1..], b) >= Lcs(a, b[1..]) then [Delete(a[0])] + Walk(a[1..], b)
    else [Insert(b[0])] + Walk(a, b[1..])
  }

  function DiffScript(a: seq<string>, b: seq<string>): Script {
    if |a| > LINE_CAP || |b| > LINE_CAP then Deletes(a) + Inserts(b) else Walk(a, b)
  }

  // ---------- common subsequences ----------

  // The indices pick the lines of s out of a, in order.
  ghost predicate Picks(idx: seq<nat>, s: seq<string>, a: seq<string>) {
    && |idx| == |s|
    && (forall k | 0 <= k < |s| :: idx[k] < |a| && a[idx[k]] == s[k])
    && (forall j, k | 0 <= j < k < |s| :: idx[j] < idx[k])
  }

  ghost predicate Subsequence(s: seq<string>, a: seq<string>) {
    exists idx :: Picks(idx, s, a)
  }

  ghost predicate CommonSubsequence(s: seq<string>, a: seq<string>, b: seq<string>) {
    Subsequence(s, a) && Subsequence(s, b)
  }

  lemma SubsequenceTail(s: seq<string>, a: seq<string>)
    requires Subsequence(s, a) && s != []
    ensures a != []
    ensures Subsequence(s[1..], a[1..])
    ensures a[0] != s[0] ==> Subsequence(s, a[1..])
  {
    var idx :| Picks(idx, s, a);
    var rest := seq(|idx| - 1, i requires 0 <= i < |idx| - 1 => assert idx[0] < idx[i + 1]; (idx[i + 1] - 1) as nat);
    assert idx[0] < |a|;
    assert forall k | 0 < k < |s| :: idx[0] < idx[k];
    assert Picks(rest, s[1..], a[1..]);
    if a[0] != s[0] {
      assert idx[0] > 0;
      var all := seq(|idx|, i requires 0 <= i < |idx| => assert idx[i] >= idx[0]; (idx[i] - 1) as nat);
      assert Picks(all, s, a[1..]);
    }
  }

  lemma SubsequenceCons(x: string, s: seq<string>, a: seq<string>)
    requires Subsequence(s, a)
    ensures Subsequence([x] + s, [x] + a)
    ensures Subsequence(s, [x] + a)
  {
    var idx :| Picks(idx, s, a);
    var next := seq(|idx|, i requires 0 <= i < |idx| => idx[i] + 1);
    assert Picks([0] + next, [x] + s, [x] + a);
    assert Picks(next, s, [x] + a);
  }

  lemma EmptySubsequence(a: seq<string>)
    ensures Subsequence([], a)
  {
    assert Picks([], [], a);
  }

  // The recurrence is an upper bound for every common subsequence.
  lemma {:induction false} LcsIsUpperBound(s: seq<string>, a: seq<string>, b: seq<string>)
    requires CommonSubsequence(s, a, b)
    ensures |s| <= Lcs(a, b)
    decreases |a| + |b|
  {
    if s != [] {
      SubsequenceTail(s, a);
      SubsequenceTail(s, b);
      if a[0] == b[0] {
        LcsIsUpperBound(s[1..], a[1..], b[1..]);
      } else if a[0] != s[0] {
        LcsIsUpperBound(s, a[1..], b);
      } else {
        LcsIsUpperBound(s, a, b[1..]);
      }
    }
  }

  // The kept lines of any script are common to its two sides.
  function Kept(s: Script): (k: seq<string>)
    ensures |k| == Keeps(s)
  {
    if s == [] then [] else (if s[0].Keep? then [s[0].line] else []) + Kept(s[1..])
  }

  lemma {:induction false} KeptIsCommon(s: Script)
    ensures CommonSubsequence(Kept(s), OldSide(s), NewSide(s))
  {
    if s == [] {
      EmptySubsequence([]);
    } else {
      KeptIsCommon(s[1..]);
      var k, o, n := Kept(s[1..]), OldSide(s[1..]), NewSide(s[1..]);
      SubsequenceCons(s[0].line, k, o);
      SubsequenceCons(s[0].line, k, n);
      match s[0]
      case Keep(line) =>
      case Delete(line) => assert NewSide(s) == [] + n == n && Kept(s) == [] + k == k;
      case Insert(line) => assert OldSide(s) == [] + o == o && Kept(s) == [] + k == k;
    }
  }

  // ---------- the walk ----------

  lemma NoSides()
    ensures OldSide([]) == [] && NewSide([]) == [] && Keeps([]) == 0
  {
  }

  lemma {:induction false} DeletesSides(a: seq<string>)
    ensures OldSide(Deletes(a)) == a && NewSide(Deletes(a)) == [] && Keeps(Deletes(a)) == 0
  {
    hide OldSide, NewSide, Keeps;
    if a == [] {
      NoSides();
    } else {
      DeletesSides(a[1..]);
      assert Deletes(a) == [Delete(a[0])] + Deletes(a[1..]);
      ConsSides(Delete(a[0]), Deletes(a[1..]));
    }
  }

  lemma {:induction false} InsertsSides(b: seq<string>)
    ensures OldSide(Inserts(b)) == [] && NewSide(Inserts(b)) == b && Keeps(Inserts(b)) == 0
  {
    hide OldSide, NewSide, Keeps;
    if b == [] {
      NoSides();
    } else {
      InsertsSides(b[1..]);
      assert Inserts(b) == [Insert(b[0])] + Inserts(b[1..]);
      ConsSides(Insert(b[0]), Inserts(b[1..]));
    }
  }

  lemma ConsSides(e: Edit, s: Script)
    ensures OldSide([e] + s) == (if e.Insert? then [] else [e.line]) + OldSide(s)
    ensures NewSide([e] + s) == (if e.Delete? then [] else [e.line]) + NewSide(s)
    ensures Keeps([e] + s) == (if e.Keep? then 1 else 0) + Keeps(s)
    ensures Render([e] + s) == EditText(e) + Render(s)
  {
    assert ([e] + s)[1..] == s;
  }

  lemma {:induction false} WalkSides(a: seq<string>, b: seq<string>)
    ensures OldSide(Walk(a, b)) == a && NewSide(Walk(a, b)) == b && Keeps(Walk(a, b)) == Lcs(a, b)
    decreases |a| + |b|
  {
    hide OldSide, NewSide, Keeps;
    if a == [] {
      InsertsSides(b);
    } else if b == [] {
      DeletesSides(a);
    } else if a[0] == b[0] {
      WalkSides(a[1..], b[1..]);
      ConsSides(Keep(a[0]), Walk(a[1..], b[1..]));
    } else if Lcs(a[1..], b) >= Lcs(a, b[1..]) {
      WalkSides(a[1..], b);
      ConsSides(Delete(a[0]), Walk(a[1..], b));
    } else {
      WalkSides(a, b[1..]);
      ConsSides(Insert(b[0]), Walk(a, b[1..]));
    }
  }

  lemma {:induction false} OldSideOfSum(s: Script, t: Script)
    ensures OldSide(s + t) == OldSide(s) + OldSide(t)
    decreases |s|
  {
    if s == [] {
      assert s + t == t;
    } else {
      assert (s + t)[1..] == s[1..] + t;
      OldSideOfSum(s[1..], t);
    }
  }

  lemma {:induction false} NewSideOfSum(s: Script, t: Script)
    ensures NewSide(s + t) == NewSide(s) + NewSide(t)
    decreases |s|
  {
    if s == [] {
      assert s + t == t;
    } else {
      assert (s + t)[1..] == s[1..] + t;
      NewSideOfSum(s[1..], t);
    }
  }

  lemma {:induction false} RenderSum(s: Script, t: Script)
    ensures Render(s + t) == Render(s) + Render(t)
    decreases |s|
  {
    if s == [] {
      assert s + t == t;
    } else {
      assert (s + t)[1..] == s[1..] + t;
      RenderSum(s[1..], t);
      Associates(EditText(s[0]), Render(s[1..]), Render(t));
    }
  }

  // ---------- main results ----------

  // The kept and deleted lines are the old body and the kept and inserted ones the new
  // body, whichever branch is taken.
  lemma DiffReconstructs(a: seq<string>, b: seq<string>)
    ensures OldSide(DiffScript(a, b)) == a && NewSide(DiffScript(a, b)) == b
  {
    DeletesSides(a);
    InsertsSides(b);
    OldSideOfSum(Deletes(a), Inserts(b));
    NewSideOfSum(Deletes(a), Inserts(b));
    WalkSides(a, b);
  }

  // The table's recurrence is the greatest length of a common subsequence.
  lemma LcsIsMaximum(a: seq<string>, b: seq<string>)
    ensures exists s :: CommonSubsequence(s, a, b) && |s| == Lcs(a, b)
    ensures forall s | CommonSubsequence(s, a, b) :: |s| <= Lcs(a, b)
  {
    WalkSides(a, b);
    KeptIsCommon(Walk(a, b));
    assert CommonSubsequence(Kept(Walk(a, b)), a, b);
    forall s | CommonSubsequence(s, a, b) ensures |s| <= Lcs(a, b) {
      LcsIsUpperBound(s, a, b);
    }
  }

  lemma {:induction false} CostOf(s: Script)
    ensures Cost(s) + 2 * Keeps(s) == |OldSide(s)| + |NewSide(s)|
  {
    if s != [] { CostOf(s[1..]); }
  }

  // No script that turns the old body into the new one has fewer deleted and inserted lines.
  ghost predicate Shortest(a: seq<string>, b: seq<string>, s: Script) {
    forall other | OldSide(other) == a && NewSide(other) == b :: Cost(s) <= Cost(other)
  }

  lemma WalkIsShortest(a: seq<string>, b: seq<string>, other: Script)
    requires OldSide(other) == a && NewSide(other) == b
    ensures Cost(Walk(a, b)) <= Cost(other)
  {
    WalkSides(a, b);
    KeptIsCommon(other);
    LcsIsUpperBound(Kept(other), a, b);
    CostOf(other);
    CostOf(Walk(a, b));
  }

  lemma {:induction false} NoKeeps(s: Script)
    requires forall e | e in s :: !e.Keep?
    ensures Keeps(s) == 0
  {
    if s != [] {
      assert s[0] in s;
      NoKeeps(s[1..]);
    }
  }

  predicate NothingShared(a: seq<string>, b: seq<string>) {
    forall x | x in a :: x !in b
  }

  // Bodies without a common line, and no others, have no common subsequence to keep.
  lemma SharedLineIsKept(a: seq<string>, b: seq<string>)
    ensures Lcs(a, b) == 0 <==> NothingShared(a, b)
  {
    hide Lcs;
    LcsIsMaximum(a, b);
    var s :| CommonSubsequence(s, a, b) && |s| == Lcs(a, b);
    if s != [] {
      var i :| Picks(i, s, a);
      var j :| Picks(j, s, b);
      assert a[i[0]] == s[0] == b[j[0]];
      assert s[0] in a && s[0] in b;
    }
    if x :| x in a && x in b {
      var i :| 0 <= i < |a| && a[i] == x;
      var j :| 0 <= j < |b| && b[j] == x;
      assert Picks([i], [x], a) && Picks([j], [x], b);
      LcsIsUpperBound([x], a, b);
    }
  }

  // The script that is shown is a shortest one if and only if both bodies are within the
  // cap or they have no line in common.
  lemma DiffIsShortest(a: seq<string>, b: seq<string>)
    ensures Shortest(a, b, DiffScript(a, b)) <==> (|a| <= 4000 && |b| <= 4000) || NothingShared(a, b)
  {
    hide OldSide, NewSide, Cost, Keeps, Lcs, Walk, Deletes, Inserts, NothingShared;
    SharedLineIsKept(a, b);
    WalkSides(a, b);
    DiffReconstructs(a, b);
    CostOf(Walk(a, b));
    CostOf(DiffScript(a, b));
    if |a| > LINE_CAP || |b| > LINE_CAP {
      FallbackKeepsNothing(a, b);
    }
    forall other | OldSide(other) == a && NewSide(other) == b ensures Cost(Walk(a, b)) <= Cost(other) {
      WalkIsShortest(a, b, other);
    }
  }

  lemma FallbackKeepsNothing(a: seq<string>, b: seq<string>)
    ensures Keeps(Deletes(a) + Inserts(b)) == 0
  {
    NoKeeps(Deletes(a) + Inserts(b));
  }

  // ---------- which of the shortest scripts is shown ----------

  // Equal first lines are kept.  Where they differ a script begins with an insertion only if
  // to begin with a deletion would cost more, and so on for what is left.
  ghost predicate Preferred(s: Script) {
    s == [] || (Begins(s) && Preferred(s[1..]))
  }

  ghost predicate Begins(s: Script)
    requires s != []
  {
    && (OldSide(s) != [] && NewSide(s) != [] && OldSide(s)[0] == NewSide(s)[0] ==> s[0].Keep?)
    && (s[0].Insert? ==> forall other | SameSides(s, other) && BeginsWithDelete(other) :: Cost(other) > Cost(s))
  }

  predicate SameSides(s: Script, other: Script) {
    OldSide(s) == OldSide(other) && NewSide(s) == NewSide(other)
  }

  predicate BeginsWithDelete(s: Script) {
    s != [] && s[0].Delete?
  }

  lemma KeepsBelowLcs(s: Script)
    ensures Keeps(s) <= Lcs(OldSide(s), NewSide(s))
  {
    KeptIsCommon(s);
    LcsIsUpperBound(Kept(s), OldSide(s), NewSide(s));
  }

  // What the first edit leaves.
  lemma Rest(s: Script)
    requires s != []
    ensures match s[0]
      case Keep(line) => OldSide(s) == [line] + OldSide(s[1..]) && NewSide(s) == [line] + NewSide(s[1..])
      case Delete(line) => OldSide(s) == [line] + OldSide(s[1..]) && NewSide(s) == NewSide(s[1..])
      case Insert(line) => OldSide(s) == OldSide(s[1..]) && NewSide(s) == [line] + NewSide(s[1..])
    ensures Keeps(s) == (if s[0].Keep? then 1 else 0) + Keeps(s[1..])
    ensures Cost(s) == (if s[0].Keep? then 0 else 1) + Cost(s[1..])
  {
  }

  lemma {:induction false} OnlyInserts(s: Script)
    requires OldSide(s) == []
    ensures s == Inserts(NewSide(s))
  {
    if s != [] {
      Rest(s);
      OnlyInserts(s[1..]);
      assert s == [s[0]] + s[1..];
      assert Inserts(NewSide(s)) == [s[0]] + Inserts(NewSide(s[1..]));
    }
  }

  lemma {:induction false} OnlyDeletes(s: Script)
    requires NewSide(s) == []
    ensures s == Deletes(OldSide(s))
  {
    if s != [] {
      Rest(s);
      OnlyDeletes(s[1..]);
      assert s == [s[0]] + s[1..];
      assert Deletes(OldSide(s)) == [s[0]] + Deletes(OldSide(s[1..]));
    }
  }

  // A script that begins with a deletion keeps no more than what the rest has in common.
  lemma DeleteKeeps(s: Script)
    requires BeginsWithDelete(s)
    ensures OldSide(s) != [] && Keeps(s) <= Lcs(OldSide(s)[1..], NewSide(s))
  {
    hide Lcs, OldSide, NewSide, Keeps, Cost;
    Rest(s);
    KeepsBelowLcs(s[1..]);
  }

  lemma {:induction false} InsertsPreferred(b: seq<string>)
    ensures Preferred(Inserts(b))
  {
    hide OldSide, NewSide, Cost;
    if b != [] {
      InsertsPreferred(b[1..]);
      assert Inserts(b)[1..] == Inserts(b[1..]);
      InsertsSides(b);
      forall other | SameSides(Inserts(b), other) && BeginsWithDelete(other) ensures false {
        Rest(other);
      }
    }
  }

  lemma {:induction false} DeletesPreferred(a: seq<string>)
    ensures Preferred(Deletes(a))
  {
    hide OldSide, NewSide, Cost;
    if a != [] {
      DeletesPreferred(a[1..]);
      assert Deletes(a)[1..] == Deletes(a[1..]);
      DeletesSides(a);
    }
  }

  lemma {:induction false} WalkPreferred(a: seq<string>, b: seq<string>)
    ensures Preferred(Walk(a, b))
    decreases |a| + |b|
  {
    hide OldSide, NewSide, Cost, Keeps;
    if a == [] {
      InsertsPreferred(b);
    } else if b == [] {
      DeletesPreferred(a);
    } else if a[0] == b[0] {
      WalkPreferred(a[1..], b[1..]);
      assert Walk(a, b)[1..] == Walk(a[1..], b[1..]);
    } else if Lcs(a[1..], b) >= Lcs(a, b[1..]) {
      WalkPreferred(a[1..], b);
      assert Walk(a, b)[1..] == Walk(a[1..], b);
      WalkSides(a, b);
    } else {
      WalkPreferred(a, b[1..]);
      assert Walk(a, b)[1..] == Walk(a, b[1..]);
      InsertIsCheaper(a, b);
    }
  }

  lemma InsertIsCheaper(a: seq<string>, b: seq<string>)
    requires a != [] && b != [] && a[0] != b[0] && Lcs(a[1..], b) < Lcs(a, b[1..])
    ensures Begins(Walk(a, b))
  {
    var s := Walk(a, b);
    WalkSides(a, b);
    CostOf(s);
    assert Lcs(a, b) > Lcs(a[1..], b) && s[0].Insert?;
    hide OldSide, NewSide, Cost, Keeps, Lcs, Walk;
    forall other | SameSides(s, other) && BeginsWithDelete(other) ensures Cost(other) > Cost(s) {
      DeleteKeeps(other);
      CostOf(other);
    }
  }

  // What is left of a shortest script is a shortest one.
  lemma RestIsShortest(a: seq<string>, b: seq<string>, s: Script)
    requires s != [] && OldSide(s) == a && NewSide(s) == b && Shortest(a, b, s)
    ensures Shortest(OldSide(s[1..]), NewSide(s[1..]), s[1..])
  {
    hide OldSide, NewSide, Cost;
    Rest(s);
    forall other | OldSide(other) == OldSide(s[1..]) && NewSide(other) == NewSide(s[1..])
      ensures Cost(s[1..]) <= Cost(other)
    {
      var longer := [s[0]] + other;
      assert longer[1..] == other;
      Rest(longer);
    }
  }

  lemma WalkBegins(a: seq<string>, b: seq<string>)
    requires a != [] && b != [] && a[0] != b[0]
    ensures Lcs(a, b) == Max(Lcs(a[1..], b), Lcs(a, b[1..]))
    ensures Lcs(a[1..], b) >= Lcs(a, b[1..]) ==> BeginsWithDelete(Walk(a, b))
  {
  }

  // A shortest script begins with a deletion only where that loses nothing, and a preferred
  // one with an insertion only where a deletion would lose.
  lemma FirstEdit(a: seq<string>, b: seq<string>, s: Script)
    requires a != [] && b != [] && a[0] != b[0] && s != []
    requires OldSide(s) == a && NewSide(s) == b && Shortest(a, b, s) && Preferred(s)
    ensures s[0].Delete? <==> Lcs(a[1..], b) >= Lcs(a, b[1..])
    ensures !s[0].Keep?
  {
    hide OldSide, NewSide, Cost, Keeps, Lcs, Walk;
    var w := Walk(a, b);
    WalkBegins(a, b);
    WalkSides(a, b);
    CostOf(s);
    CostOf(w);
    Rest(s);
    assert Cost(s) <= Cost(w);
    if s[0].Delete? {
      DeleteKeeps(s);
    } else {
      WalkIsShortest(a, b, s);
      assert Begins(s) && SameSides(s, w);
    }
  }

  lemma {:induction false} PreferredIsWalk(a: seq<string>, b: seq<string>, s: Script)
    requires OldSide(s) == a && NewSide(s) == b && Shortest(a, b, s) && Preferred(s)
    ensures s == Walk(a, b)
    decreases |a| + |b|
  {
    hide OldSide, NewSide, Cost, Keeps, Lcs, Shortest;
    if a == [] {
      OnlyInserts(s);
    } else if b == [] {
      OnlyDeletes(s);
    } else {
      NoSides();
      assert Begins(s);
      if a[0] != b[0] {
        FirstEdit(a, b, s);
      }
      Rest(s);
      RestIsShortest(a, b, s);
      assert s == [s[0]] + s[1..];
      PreferredIsWalk(OldSide(s[1..]), NewSide(s[1..]), s[1..]);
    }
  }

  // Within the cap the script that is shown is the one preferred shortest script.
  lemma DiffIsPreferred(a: seq<string>, b: seq<string>, s: Script)
    requires |a| <= 4000 && |b| <= 4000
    ensures s == DiffScript(a, b) <==> OldSide(s) == a && NewSide(s) == b && Shortest(a, b, s) && Preferred(s)
  {
    hide OldSide, NewSide, Cost, Keeps, Lcs, Walk, Preferred, Shortest;
    DiffReconstructs(a, b);
    DiffIsShortest(a, b);
    WalkPreferred(a, b);
    if OldSide(s) == a && NewSide(s) == b && Shortest(a, b, s) && Preferred(s) {
      PreferredIsWalk(a, b, s);
    }
  }

  lemma {:induction false} NothingKept(a: seq<string>, b: seq<string>)
    requires NothingShared(a, b)
    ensures Walk(a, b) == Deletes(a) + Inserts(b)
    decreases |a|
  {
    if a != [] && b != [] {
      assert a[0] in a && b[0] in b;
      forall x | x in a[1..] ensures x !in b {
        assert x in a;
      }
      forall x | x in a ensures x !in b[1..] {
        assert x !in b;
      }
      SharedLineIsKept(a, b[1..]);
      NothingKept(a[1..], b);
      assert Deletes(a) == [Delete(a[0])] + Deletes(a[1..]);
    }
  }

  // Above the cap, and where no line is shared, all old lines go before all new ones come.
  lemma AllDeletedThenInserted(a: seq<string>, b: seq<string>)
    ensures NothingShared(a, b) || |a| > 4000 || |b| > 4000 ==> DiffScript(a, b) == Deletes(a) + Inserts(b)
  {
    if NothingShared(a, b) {
      NothingKept(a, b);
    }
  }

  ghost predicate OnlyKeeps(s: Script) {
    forall e | e in s :: e.Keep?
  }

  lemma {:induction false} OnlyKeepsSides(s: Script)
    requires OnlyKeeps(s)
    ensures OldSide(s) == NewSide(s)
  {
    if s != [] {
      assert s[0] in s;
      OnlyKeepsSides(s[1..]);
    }
  }

  lemma {:induction false} SameWalk(a: seq<string>)
    ensures OnlyKeeps(Walk(a, a))
  {
    if a != [] { SameWalk(a[1..]); }
  }

  // Only kept lines are shown exactly for equal bodies within the cap.
  lemma KeepsExactlyWhenEqual(a: seq<string>, b: seq<string>)
    ensures OnlyKeeps(DiffScript(a, b)) <==> a == b && |a| <= 4000
  {
    DiffReconstructs(a, b);
    SameWalk(a);
    if |a| > LINE_CAP || |b| > LINE_CAP {
      var first := DiffScript(a, b)[0];
      assert first in DiffScript(a, b) && !first.Keep?;
    } else if OnlyKeeps(DiffScript(a, b)) {
      OnlyKeepsSides(DiffScript(a, b));
    }
  }

  // ---------- the program ----------

  lemma LcsTurn(a: seq<string>, b: seq<string>, i: nat, j: nat)
    requires i < |a| && j < |b|
    ensures Lcs(a[i..], b[j..]) == if a[i] == b[j] then Lcs(a[i + 1..], b[j + 1..]) + 1
                                   else Max(Lcs(a[i + 1..], b[j..]), Lcs(a[i..], b[j + 1..]))
  {
    assert a[i..][1..] == a[i + 1..] && b[j..][1..] == b[j + 1..];
  }

  // Lengths are kept as 32-bit numbers; the cap keeps them far from overflow.
  method FillTable(a: seq<string>, b: seq<string>) returns (dp: array2<uint32>)
    requires |a| <= LINE_CAP && |b| <= LINE_CAP
    ensures fresh(dp) && dp.Length0 == |a| + 1 && dp.Length1 == |b| + 1
    ensures forall i, j | 0 <= i <= |a| && 0 <= j <= |b| :: dp[i, j] == Lcs(a[i..], b[j..])
  {
    hide Lcs;
    var n, m := |a|, |b|;
    dp := new uint32[n + 1, m + 1]((_, _) => 0);
    var i := n;
    while i > 0
      invariant 0 <= i <= n
      invariant forall p, q | i <= p <= n && 0 <= q <= m :: dp[p, q] == Lcs(a[p..], b[q..])
      invariant forall p, q | 0 <= p < i && 0 <= q <= m :: dp[p, q] == 0
    {
      i := i - 1;
      var j := m;
      while j > 0
        invariant 0 <= j <= m
        invariant forall p, q | i < p <= n && 0 <= q <= m :: dp[p, q] == Lcs(a[p..], b[q..])
        invariant forall q | j <= q <= m :: dp[i, q] == Lcs(a[i..], b[q..])
        invariant forall p, q | 0 <= p < i && 0 <= q <= m :: dp[p, q] == 0
      {
        j := j - 1;
        LcsTurn(a, b, i, j);
        dp[i, j] := if a[i] == b[j] then dp[i + 1, j + 1] + 1 else Max(dp[i + 1, j], dp[i, j + 1]);
      }
    }
  }

  lemma DeleteTurn(a: seq<string>, i: nat)
    requires i < |a|
    ensures Render(Deletes(a[i..])) == EditText(Delete(a[i])) + Render(Deletes(a[i + 1..]))
  {
    assert Deletes(a[i..]) == [Delete(a[i])] + Deletes(a[i + 1..]);
    ConsSides(Delete(a[i]), Deletes(a[i + 1..]));
  }

  lemma InsertTurn(b: seq<string>, j: nat)
    requires j < |b|
    ensures Render(Inserts(b[j..])) == EditText(Insert(b[j])) + Render(Inserts(b[j + 1..]))
  {
    assert Inserts(b[j..]) == [Insert(b[j])] + Inserts(b[j + 1..]);
    ConsSides(Insert(b[j]), Inserts(b[j + 1..]));
  }

  // Appending an edit's text takes it over from what is left to print.
  lemma Moves(body: string, e: Edit, rest: string)
    ensures body + (EditText(e) + rest) == (body + EditText(e)) + rest
  {
  }

  // The walk over the filled table, appending to the text as it goes.
  method PrintWalk(a: seq<string>, b: seq<string>, dp: array2<uint32>, text: string) returns (body: string)
    requires dp.Length0 == |a| + 1 && dp.Length1 == |b| + 1
    requires forall i, j | 0 <= i <= |a| && 0 <= j <= |b| :: dp[i, j] == Lcs(a[i..], b[j..])
    ensures body == text + Render(Walk(a, b))
  {
    body := text;
    var i, j := 0, 0;
    assert a[0..] == a && b[0..] == b;
    while i < |a| && j < |b|
      invariant 0 <= i <= |a| && 0 <= j <= |b|
      invariant body + Render(Walk(a[i..], b[j..])) == text + Render(Walk(a, b))
      decreases |a| + |b| - i - j
    {
      hide Walk, Render, Lcs, EditText;
      if a[i] == b[j] {
        Moves(body, Keep(a[i]), Render(Walk(a[i + 1..], b[j + 1..])));
        body := PrintEdit(body, Keep(a[i]));
        i, j := i + 1, j + 1;
      } else if dp[i + 1, j] >= dp[i, j + 1] {
        Moves(body, Delete(a[i]), Render(Walk(a[i + 1..], b[j..])));
        body := PrintEdit(body, Delete(a[i]));
        i := i + 1;
      } else {
        Moves(body, Insert(b[j]), Render(Walk(a[i..], b[j + 1..])));
        body := PrintEdit(body, Insert(b[j]));
        j := j + 1;
      }
    }
    WalkEnds(a, b, i, j);
    body := PrintRest(a, b, i, j, body);
  }

  lemma WalkEnds(a: seq<string>, b: seq<string>, i: nat, j: nat)
    requires i <= |a| && j <= |b| && (i == |a| || j == |b|)
    ensures Render(Walk(a[i..], b[j..])) == Render(Deletes(a[i..])) + Render(Inserts(b[j..]))
  {
    RenderSum(Deletes(a[i..]), Inserts(b[j..]));
    assert Walk(a[i..], b[j..]) == Deletes(a[i..]) + Inserts(b[j..]);
  }

  // The two closing loops, which are also the whole of the fallback above the cap.
  method PrintRest(a: seq<string>, b: seq<string>, i0: nat, j0: nat, text: string) returns (body: string)
    requires i0 <= |a| && j0 <= |b|
    ensures body == text + (Render(Deletes(a[i0..])) + Render(Inserts(b[j0..])))
  {
    hide EditText, Deletes, Inserts;
    var i, j := i0, j0;
    body := text;
    while i < |a|
      invariant i0 <= i <= |a|
      invariant body + Render(Deletes(a[i..])) == text + Render(Deletes(a[i0..]))
    {
      DeleteTurn(a, i);
      Moves(body, Delete(a[i]), Render(Deletes(a[i + 1..])));
      body := PrintEdit(body, Delete(a[i]));
      i := i + 1;
    }
    NothingLeft(a, b);
    assert body + "" == body;
    Associates(text, Render(Deletes(a[i0..])), Render(Inserts(b[j0..])));
    ghost var half := body;
    while j < |b|
      invariant j0 <= j <= |b|
      invariant body + Render(Inserts(b[j..])) == half + Render(Inserts(b[j0..]))
    {
      InsertTurn(b, j);
      Moves(body, Insert(b[j]), Render(Inserts(b[j + 1..])));
      body := PrintEdit(body, Insert(b[j]));
      j := j + 1;
    }
    assert body + "" == body;
  }

  lemma NothingLeft(a: seq<string>, b: seq<string>)
    ensures Render(Deletes(a[|a|..])) == "" && Render(Inserts(b[|b|..])) == ""
  {
  }

  method PrintEdit(text: string, e: Edit) returns (body: string)
    ensures body == text + EditText(e)
  {
    match e
    case Keep(line) => body := text + ("  " + line + "\n");
    case Delete(line) => body := text + ("- " + line + "\n");
    case Insert(line) => body := text + ("+ " + line + "\n");
  }

  // The per-function diff after its heading.
  method PrintDiff(a: seq<string>, b: seq<string>, heading: string) returns (body: string)
    ensures body == heading + Render(DiffScript(a, b))
  {
    if |a| > LINE_CAP || |b| > LINE_CAP {
      assert a[0..] == a && b[0..] == b;
      RenderSum(Deletes(a), Inserts(b));
      body := PrintRest(a, b, 0, 0, heading);
    } else {
      var dp := FillTable(a, b);
      body := PrintWalk(a, b, dp, heading);
    }
  }

  // ---------- reading the printed text back ----------

  function LineEnd(text: string): (n: nat)
    ensures n <= |text| && (n < |text| ==> text[n] == '\n')
  {
    if text == "" || text[0] == '\n' then 0 else 1 + LineEnd(text[1..])
  }

  // The script whose text this is; a line without one of the three marks ends it.
  function ReadScript(text: string): Script
    decreases |text|
  {
    var n := LineEnd(text);
    if n == |text| || n < 2 then []
    else
      var line, rest := text[2..n], ReadScript(text[n + 1..]);
      if text[..2] == "  " then [Keep(line)] + rest
      else if text[..2] == "- " then [Delete(line)] + rest
      else if text[..2] == "+ " then [Insert(line)] + rest
      else []
  }

  predicate OneLine(text: string) {
    '\n' !in text
  }

  lemma {:induction false} LineEndAt(text: string, n: nat)
    requires n < |text| && OneLine(text[..n]) && text[n] == '\n'
    ensures LineEnd(text) == n
  {
    if n > 0 {
      assert text[0] in text[..n];
      assert text[1..][..n - 1] == text[..n][1..];
      LineEndAt(text[1..], n - 1);
    }
  }

  // The printed text determines the script: reading it back gives every edit in order.
  lemma {:induction false} PrintedScriptReadsBack(s: Script)
    requires forall e | e in s :: OneLine(e.line)
    ensures ReadScript(Render(s)) == s
    decreases |s|
  {
    if s != [] {
      assert s[0] in s;
      ReadOne(s[0], Render(s[1..]));
      hide ReadScript, EditText;
      PrintedScriptReadsBack(s[1..]);
    }
  }

  lemma ReadOne(e: Edit, rest: string)
    requires OneLine(e.line)
    ensures ReadScript(EditText(e) + rest) == [e] + ReadScript(rest)
  {
    var mark := if e.Keep? then "  " else if e.Delete? then "- " else "+ ";
    var text, n := EditText(e) + rest, 2 + |e.line|;
    assert text == (mark + e.line + "\n") + rest;
    assert text[..n] == mark + e.line && text[n] == '\n';
    assert text[..2] == mark && text[2..n] == e.line && text[n + 1..] == rest;
    hide EditText;
    LineEndAt(text, n);
  }
}
