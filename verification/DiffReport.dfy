// What the diff of two binaries reports, stated on the two maps from names to bodies.

module DiffReport {
  import opened FunctionDiff
  import opened TextOrder

  // ---------- which functions are renamed ----------

  // The other names that only the first map has, with the same body and earlier in order.
  ghost function Earlier(m: map<string, string>, other: map<string, string>, x: string): set<string>
    requires x in m
  {
    set k | k in m && k !in other && m[k] == m[x] && k != x && AtOrBefore(k, x)
  }

  // A name that is gone and a name that is new, of one body, each with as many of that body
  // before it as the other: the first of them go together, then the second, and so on.
  ghost predicate Renamed(older: map<string, string>, newer: map<string, string>, r: Rename) {
    && r.from in older && r.from !in newer && r.to in newer && r.to !in older
    && older[r.from] == newer[r.to]
    && |Earlier(older, newer, r.from)| == |Earlier(newer, older, r.to)|
  }

  // The names of x's body that stand before it in a list.
  function CountBefore(names: seq<string>, bodies: map<string, string>, x: string): nat
    requires x in names && forall k | k in names :: k in bodies
  {
    if names[0] == x then 0
    else (if bodies[names[0]] == bodies[x] then 1 else 0) + CountBefore(names[1..], bodies, x)
  }

  lemma {:induction false} FirstHasNoneBefore(names: seq<string>, bodies: map<string, string>, x: string, body: string)
    requires forall k | k in names :: k in bodies
    requires x in names && bodies[x] == body
    ensures CountBefore(names, bodies, x) == 0 <==> names[FirstWith(names, bodies, body)] == x
  {
    if names[0] != x && bodies[names[0]] != body {
      FirstHasNoneBefore(names[1..], bodies, x, body);
    }
  }

  lemma WithoutCons(names: seq<string>, i: nat)
    requires i < |names|
    ensures i == 0 ==> Without(names, i) == names[1..]
    ensures i > 0 ==> Without(names, i) == [names[0]] + Without(names[1..], i - 1)
  {
  }

  // Taking out the first name of a body moves the others of that body up by one.
  lemma {:induction false} CountWithoutFirst(names: seq<string>, bodies: map<string, string>, body: string, x: string)
    requires Distinct(names) && forall k | k in names :: k in bodies
    requires var i := FirstWith(names, bodies, body); i < |names| && x in Without(names, i)
    ensures var i := FirstWith(names, bodies, body);
      && (forall k | k in Without(names, i) :: k in names)
      && CountBefore(names, bodies, x)
         == CountBefore(Without(names, i), bodies, x) + if bodies[x] == body then 1 else 0
  {
    var i := FirstWith(names, bodies, body);
    DistinctWithout(names, i);
    WithoutCons(names, i);
    FirstWithCons(names, bodies, body);
    CountTail(names, bodies, x);
    hide CountBefore, FirstWith, Without, Distinct;
    if i > 0 {
      var left, tail := Without(names, i), names[1..];
      assert left[1..] == Without(tail, i - 1);
      CountTail(left, bodies, x);
      if names[0] != x {
        TailDistinct(names);
        CountWithoutFirst(tail, bodies, body, x);
      }
    }
  }

  lemma TailDistinct(names: seq<string>)
    requires Distinct(names) && names != []
    ensures Distinct(names[1..]) && forall k | k in names[1..] :: k in names
  {
  }

  lemma FirstWithCons(names: seq<string>, bodies: map<string, string>, body: string)
    requires names != [] && forall k | k in names :: k in bodies
    ensures FirstWith(names, bodies, body) == if bodies[names[0]] == body then 0 else 1 + FirstWith(names[1..], bodies, body)
  {
  }

  lemma DistinctWithout(names: seq<string>, i: nat)
    requires Distinct(names) && i < |names|
    ensures Distinct(Without(names, i)) && names[i] !in Without(names, i)
    ensures forall k | k in names :: k == names[i] || k in Without(names, i)
    ensures forall k | k in Without(names, i) :: k in names
  {
    var rest := Without(names, i);
    forall k | k in names ensures k == names[i] || k in rest {
      var j :| 0 <= j < |names| && names[j] == k;
      assert j < i ==> rest[j] == k;
      assert j > i ==> rest[j - 1] == k;
    }
  }

  // The pair is one the matching has to make: equal bodies, equally many before each.
  predicate Partners(added: seq<string>, removed: seq<string>, older: map<string, string>, newer: map<string, string>,
    r: Rename)
    requires forall k | k in added :: k in newer
    requires forall k | k in removed :: k in older
  {
    && r.to in added && r.from in removed && newer[r.to] == older[r.from]
    && CountBefore(added, newer, r.to) == CountBefore(removed, older, r.from)
  }

  lemma {:induction false} PartnersMatched(added: seq<string>, removed: seq<string>,
    older: map<string, string>, newer: map<string, string>, r: Rename)
    requires forall k | k in added :: k in newer
    requires forall k | k in removed :: k in older
    requires Distinct(added) && Distinct(removed)
    ensures r in MatchUp(added, removed, older, newer).renames <==> Partners(added, removed, older, newer, r)
    decreases |added|
  {
    hide CountBefore, FirstWith, Without;
    if added != [] {
      var body := newer[added[0]];
      var i := FirstWith(removed, older, body);
      if i < |removed| {
        DistinctWithout(removed, i);
        PartnersMatched(added[1..], Without(removed, i), older, newer, r);
        PairTaken(added, removed, older, newer, r);
      } else {
        PartnersMatched(added[1..], removed, older, newer, r);
        NoPairTaken(added, removed, older, newer, r);
      }
    }
  }

  lemma CountTail(names: seq<string>, bodies: map<string, string>, x: string)
    requires Distinct(names) && names != [] && forall k | k in names :: k in bodies
    ensures x in names <==> x == names[0] || x in names[1..]
    ensures x in names[1..] ==> x != names[0]
    ensures x == names[0] ==> CountBefore(names, bodies, x) == 0
    ensures x in names && x != names[0] ==>
      CountBefore(names, bodies, x)
      == CountBefore(names[1..], bodies, x) + if bodies[x] == bodies[names[0]] then 1 else 0
  {
    assert names == [names[0]] + names[1..];
    if x in names[1..] {
      var k :| 0 <= k < |names[1..]| && names[1..][k] == x;
      assert names[0] != names[k + 1];
    }
  }

  lemma PairTaken(added: seq<string>, removed: seq<string>, older: map<string, string>, newer: map<string, string>,
    r: Rename)
    requires added != [] && Distinct(added) && Distinct(removed)
    requires forall k | k in added :: k in newer
    requires forall k | k in removed :: k in older
    requires FirstWith(removed, older, newer[added[0]]) < |removed|
    ensures var i := FirstWith(removed, older, newer[added[0]]);
      && (forall k | k in Without(removed, i) :: k in older)
      && (Partners(added, removed, older, newer, r) <==>
            r == Rename(removed[i], added[0]) || Partners(added[1..], Without(removed, i), older, newer, r))
  {
    var body := newer[added[0]];
    var i := FirstWith(removed, older, body);
    DistinctWithout(removed, i);
    CountTail(added, newer, r.to);
    if r.from in removed && older[r.from] == body {
      FirstHasNoneBefore(removed, older, r.from, body);
    }
    if r.from in Without(removed, i) {
      CountWithoutFirst(removed, older, body, r.from);
    }
    hide CountBefore, FirstWith, Without;
  }

  lemma NoPairTaken(added: seq<string>, removed: seq<string>, older: map<string, string>, newer: map<string, string>,
    r: Rename)
    requires added != [] && Distinct(added)
    requires forall k | k in added :: k in newer
    requires forall k | k in removed :: k in older
    requires FirstWith(removed, older, newer[added[0]]) == |removed|
    ensures Partners(added, removed, older, newer, r) <==> Partners(added[1..], removed, older, newer, r)
  {
    CountTail(added, newer, r.to);
    if r.from in removed {
      var j :| 0 <= j < |removed| && removed[j] == r.from;
      assert older[removed[j]] != newer[added[0]];
    }
    hide CountBefore, FirstWith;
  }

  // ---------- names in order ----------

  predicate Ascending(names: seq<string>) {
    forall i, j | 0 <= i < j < |names| :: Before(names[i], names[j])
  }

  lemma AscendingDistinct(names: seq<string>)
    requires Ascending(names)
    ensures Distinct(names)
  {
    forall i, j | 0 <= i < j < |names| ensures names[i] != names[j] {
      BeforeTotal(names[i], names[j]);
    }
  }

  lemma {:induction false} SelectAscending(names: seq<string>, p: string -> bool)
    requires Ascending(names)
    ensures Ascending(Select(names, p))
  {
    if names != [] {
      SelectAscending(names[1..], p);
      var rest := Select(names[1..], p);
      forall j | 0 <= j < |rest| ensures Before(names[0], rest[j]) {
        assert rest[j] in rest;
        var i :| 0 <= i < |names[1..]| && names[1..][i] == rest[j];
        assert names[i + 1] == rest[j];
      }
    }
  }

  function BeforeAlike(names: seq<string>, bodies: map<string, string>, x: string): set<string>
    requires x in names && forall k | k in names :: k in bodies
  {
    set k | k in names && bodies[k] == bodies[x] && Before(k, x)
  }

  // In a list in order, what stands before a name is what is earlier.
  lemma {:induction false} CountIsEarlier(names: seq<string>, bodies: map<string, string>, x: string)
    requires Ascending(names) && x in names && forall k | k in names :: k in bodies
    ensures CountBefore(names, bodies, x) == |BeforeAlike(names, bodies, x)|
    decreases |names|
  {
    AscendingDistinct(names);
    CountTail(names, bodies, x);
    if names[0] == x {
      NoneBeforeFirst(names, bodies);
    } else {
      FirstIsBefore(names, bodies, x);
      TailDistinct(names);
      hide BeforeAlike, CountBefore, Distinct;
      CountIsEarlier(names[1..], bodies, x);
    }
  }

  lemma NoneBeforeFirst(names: seq<string>, bodies: map<string, string>)
    requires Ascending(names) && names != [] && forall k | k in names :: k in bodies
    ensures BeforeAlike(names, bodies, names[0]) == {}
  {
    hide Before;
    forall k | k in names ensures !Before(k, names[0]) {
      var j :| 0 <= j < |names| && names[j] == k;
      BeforeTotal(names[0], names[j]);
      assert j > 0 ==> Before(names[0], names[j]);
    }
  }

  lemma FirstIsBefore(names: seq<string>, bodies: map<string, string>, x: string)
    requires Ascending(names) && names != [] && x in names[1..] && forall k | k in names :: k in bodies
    ensures |BeforeAlike(names, bodies, x)|
         == |BeforeAlike(names[1..], bodies, x)| + if bodies[names[0]] == bodies[x] then 1 else 0
  {
    hide Before, Ascending;
    FirstOnce(names, x);
    var s, t := BeforeAlike(names, bodies, x), BeforeAlike(names[1..], bodies, x);
    if bodies[names[0]] == bodies[x] {
      assert s == t + {names[0]};
    } else {
      assert s == t;
    }
  }

  lemma FirstOnce(names: seq<string>, x: string)
    requires Ascending(names) && names != [] && x in names[1..]
    ensures Before(names[0], x) && names[0] !in names[1..]
    ensures forall k :: k in names <==> k == names[0] || k in names[1..]
  {
    hide Before;
    var j :| 0 <= j < |names[1..]| && names[1..][j] == x;
    assert Before(names[0], names[j + 1]);
    assert names == [names[0]] + names[1..];
    if names[0] in names[1..] {
      var i :| 0 <= i < |names[1..]| && names[1..][i] == names[0];
      BeforeTotal(names[0], names[i + 1]);
    }
  }

  lemma BeforeIsEarlier(k: string, x: string)
    ensures Before(k, x) <==> k != x && AtOrBefore(k, x)
  {
    BeforeTotal(k, x);
    NotBefore(k, x);
  }

  lemma AddedAscending(older: map<string, string>, newer: map<string, string>)
    ensures Ascending(AddedNames(older, newer)) && Distinct(AddedNames(older, newer))
    ensures Ascending(RemovedNames(older, newer)) && Distinct(RemovedNames(older, newer))
  {
    SelectAscending(InOrder(newer.Keys), Missing(older));
    SelectAscending(InOrder(older.Keys), Missing(newer));
    AscendingDistinct(AddedNames(older, newer));
    AscendingDistinct(RemovedNames(older, newer));
  }

  lemma EarlierCounted(names: seq<string>, m: map<string, string>, other: map<string, string>, x: string)
    requires Ascending(names) && (forall k :: k in names <==> k in m && k !in other) && x in names
    ensures CountBefore(names, m, x) == |Earlier(m, other, x)|
  {
    CountIsEarlier(names, m, x);
    forall k ensures Before(k, x) <==> k != x && AtOrBefore(k, x) {
      BeforeIsEarlier(k, x);
    }
    assert Earlier(m, other, x) == BeforeAlike(names, m, x);
  }

  function RenamesIn(older: map<string, string>, newer: map<string, string>): seq<Rename> {
    MatchUp(AddedNames(older, newer), RemovedNames(older, newer), older, newer).renames
  }

  // The renames made are exactly those pairs.
  lemma RenamesInStep(older: map<string, string>, newer: map<string, string>, r: Rename)
    ensures r in RenamesIn(older, newer) <==> Renamed(older, newer, r)
  {
    hide MatchUp, CountBefore, Earlier, Select, InOrder, AtOrBefore;
    var added, removed := AddedNames(older, newer), RemovedNames(older, newer);
    AddedAscending(older, newer);
    PartnersMatched(added, removed, older, newer, r);
    if r.to in added && r.from in removed {
      EarlierCounted(added, newer, older, r.to);
      EarlierCounted(removed, older, newer, r.from);
    }
  }

  // ---------- the report ----------

  // Ascending, each text at most once.
  ghost predicate StrictlyInOrder(s: seq<string>) {
    forall i, j | 0 <= i < j < |s| :: s[i] != s[j] && AtOrBefore(s[i], s[j])
  }

  ghost predicate TextsInOrder(s: seq<string>) {
    forall i, j | 0 <= i < j < |s| :: AtOrBefore(s[i], s[j])
  }

  // The texts of renames, with an arrow between the names.
  predicate Arrows(texts: seq<string>, renames: seq<Rename>) {
    |texts| == |renames| && forall i | 0 <= i < |texts| :: texts[i] == renames[i].from + " -> " + renames[i].to
  }

  ghost predicate Reports(d: DiffResult, older: map<string, string>, newer: map<string, string>, renames: seq<Rename>,
    texts: seq<string>)
  {
    && (forall r :: r in renames <==> Renamed(older, newer, r))
    && (forall i, j | 0 <= i < j < |renames| :: renames[i] != renames[j])
    && StrictlyInOrder(d.added) && StrictlyInOrder(d.removed) && TextsInOrder(d.changed)
    && (forall k :: k in d.added <==> k in newer && k !in older && forall r | r in renames :: r.to != k)
    && (forall k :: k in d.removed <==> k in older && k !in newer && forall r | r in renames :: r.from != k)
    && Arrows(texts, renames)
    && multiset(d.changed) == multiset(set k | k in older && k in newer && older[k] != newer[k]) + multiset(texts)
    && d.same == |set k | k in older && k in newer && older[k] == newer[k]|
  }

  lemma {:induction false} DistinctOnce(s: seq<string>)
    requires Distinct(s)
    ensures forall k :: multiset(s)[k] == if k in s then 1 else 0
  {
    if s != [] {
      assert s == [s[0]] + s[1..];
      assert s[0] !in s[1..];
      DistinctOnce(s[1..]);
    }
  }

  lemma {:induction false} OnceDistinct(s: seq<string>)
    requires forall k :: multiset(s)[k] <= 1
    ensures Distinct(s)
  {
    if s != [] {
      assert s == [s[0]] + s[1..];
      forall k ensures multiset(s[1..])[k] <= 1 {
        assert multiset(s)[k] <= 1;
      }
      OnceDistinct(s[1..]);
      assert multiset(s) == multiset{s[0]} + multiset(s[1..]);
      assert multiset(s)[s[0]] == 1 + multiset(s[1..])[s[0]];
      assert s[0] !in multiset(s[1..]);
    }
  }

  // Names that are left and names that are taken, out of names without repetition.
  lemma SplitDistinct(all: seq<string>, left: seq<string>, taken: seq<string>)
    requires Distinct(all) && multiset(all) == multiset(left) + multiset(taken)
    ensures Distinct(left) && Distinct(taken)
    ensures forall k :: k in left <==> k in all && k !in taken
  {
    DistinctOnce(all);
    forall k ensures multiset(left)[k] + multiset(taken)[k] == multiset(all)[k] <= 1
      && (k in left <==> k in all && k !in taken)
    {
      assert k in left <==> k in multiset(left);
      assert k in taken <==> k in multiset(taken);
      assert k in all <==> k in multiset(all);
    }
    OnceDistinct(left);
    OnceDistinct(taken);
  }

  lemma {:induction false} TargetsAt(renames: seq<Rename>)
    ensures |Targets(renames)| == |Sources(renames)| == |renames|
    ensures forall i | 0 <= i < |renames| :: Targets(renames)[i] == renames[i].to && Sources(renames)[i] == renames[i].from
  {
    if renames != [] {
      TargetsAt(renames[1..]);
    }
  }

  lemma TakenTargets(renames: seq<Rename>)
    ensures forall k :: k in Targets(renames) <==> exists r :: r in renames && r.to == k
    ensures forall k :: k in Sources(renames) <==> exists r :: r in renames && r.from == k
    ensures Distinct(Targets(renames)) ==> forall i, j | 0 <= i < j < |renames| :: renames[i] != renames[j]
  {
    TargetsAt(renames);
    hide Targets, Sources;
    forall k ensures k in Targets(renames) <==> exists r :: r in renames && r.to == k {
      if r :| r in renames && r.to == k {
        var i :| 0 <= i < |renames| && renames[i] == r;
        assert Targets(renames)[i] == k;
      }
      if k in Targets(renames) {
        var i :| 0 <= i < |renames| && Targets(renames)[i] == k;
        assert renames[i] in renames;
      }
    }
    forall k ensures k in Sources(renames) <==> exists r :: r in renames && r.from == k {
      if r :| r in renames && r.from == k {
        var i :| 0 <= i < |renames| && renames[i] == r;
        assert Sources(renames)[i] == k;
      }
      if k in Sources(renames) {
        var i :| 0 <= i < |renames| && Sources(renames)[i] == k;
        assert renames[i] in renames;
      }
    }
  }

  lemma SortedInOrder(s: seq<string>)
    ensures TextsInOrder(Sorted(s))
    ensures Distinct(s) ==> StrictlyInOrder(Sorted(s))
  {
    hide Sorted, AtOrBefore, Before;
    SortedIsOrdered(s);
    var t := Sorted(s);
    forall i, j | 0 <= i < j < |t| ensures AtOrBefore(t[i], t[j]) {
      NotBefore(t[i], t[j]);
    }
    if Distinct(s) {
      DistinctOnce(s);
      forall k ensures multiset(t)[k] <= 1 {
        assert multiset(t)[k] == multiset(s)[k];
      }
      OnceDistinct(t);
    }
  }

  lemma DistinctIsSet(s: seq<string>, x: set<string>)
    requires Distinct(s) && forall k :: k in s <==> k in x
    ensures multiset(s) == multiset(x)
  {
    DistinctOnce(s);
    assert forall k :: multiset(x)[k] == if k in x then 1 else 0;
  }

  lemma ChangedIsSet(older: map<string, string>, newer: map<string, string>)
    ensures multiset(ChangedNames(older, newer))
         == multiset(set k | k in older && k in newer && older[k] != newer[k])
    ensures |SameNames(older, newer)| == |set k | k in older && k in newer && older[k] == newer[k]|
  {
    hide InOrder, Select;
    InOrderDistinct(newer.Keys);
    SelectDistinct(InOrder(newer.Keys), Changed(older, newer));
    DistinctIsSet(ChangedNames(older, newer), set k | k in older && k in newer && older[k] != newer[k]);
    SelectSize(newer.Keys, Same(older, newer), set k | k in older && k in newer && older[k] == newer[k]);
  }

  lemma ArrowTexts(renames: seq<Rename>)
    ensures Arrows(RenameTexts(renames), renames)
  {
  }

  // What a diff reports, for all pairs of maps.
  lemma DiffReports(older: map<string, string>, newer: map<string, string>)
    ensures Reports(Diff(older, newer), older, newer, RenamesIn(older, newer), RenameTexts(RenamesIn(older, newer)))
  {
    hide AddedNames, RemovedNames, ChangedNames, SameNames, Sorted, RenameTexts, Renamed, Targets, Sources, Distinct,
      StrictlyInOrder, TextsInOrder, Arrows;
    var added, removed := AddedNames(older, newer), RemovedNames(older, newer);
    AddedAscending(older, newer);
    AddedAreConserved(added, removed, older, newer);
    RemovedAreConserved(added, removed, older, newer);
    forall r ensures r in RenamesIn(older, newer) <==> Renamed(older, newer, r) {
      RenamesInStep(older, newer, r);
    }
    var m := MatchUp(added, removed, older, newer);
    hide MatchUp;
    SplitDistinct(added, m.added, Targets(m.renames));
    SplitDistinct(removed, m.removed, Sources(m.renames));
    TakenTargets(m.renames);
    SortedInOrder(m.added);
    SortedInOrder(m.removed);
    SortedInOrder(ChangedNames(older, newer) + RenameTexts(m.renames));
    SameMembers(Sorted(m.added), m.added);
    SameMembers(Sorted(m.removed), m.removed);
    ChangedIsSet(older, newer);
    ArrowTexts(m.renames);
  }
}
