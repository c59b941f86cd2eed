// Control-flow statistics of one function: basic blocks and nesting of branch spans.

module ControlFlow {
  import opened Arithmetic
  import opened Common

  datatype BranchKind =
    | NoBranch | UnconditionalJump | ConditionalJump | Call | Return | IndirectJump | IndirectCall

  datatype Insn = Insn(address: uint64, size: byte, kind: BranchKind, target: Option<uint64>)

  datatype Function = Function(name: string, address: uint64, size: uint64, body: seq<Insn>)

  datatype Stats = Stats(
    name: string, address: uint64, size: uint64, basicBlocks: nat, branchCount: nat, maxNestingDepth: nat)

  predicate SplitsBlock(kind: BranchKind) {
    kind.ConditionalJump? || kind.UnconditionalJump? || kind.Return? || kind.IndirectJump?
  }

  predicate CountsAsBranch(kind: BranchKind) {
    !kind.NoBranch? && !kind.Return?
  }

  // The kinds after which a basic block ends, and those that are counted as branches.
  const BLOCK_ENDS: set<BranchKind> := {UnconditionalJump, ConditionalJump, Return, IndirectJump}

  const BRANCHES: set<BranchKind> := {UnconditionalJump, ConditionalJump, Call, IndirectJump, IndirectCall}

  lemma KindsAgree(kind: BranchKind)
    ensures SplitsBlock(kind) <==> kind in BLOCK_ENDS
    ensures CountsAsBranch(kind) <==> kind in BRANCHES
  {
  }

  // ---------- branch targets ----------

  // The branch at i goes to t, the first instruction at the branch's target address.
  ghost predicate GoesTo(body: seq<Insn>, i: nat, t: nat) {
    && i < |body| && t < |body| && body[i].target == Some(body[t].address)
    && forall j | 0 <= j < t :: body[j].address != body[t].address
  }

  // The first instruction at an address, or the end.
  function IndexOf(body: seq<Insn>, address: uint64): (i: nat)
    ensures i <= |body|
    ensures i < |body| ==> body[i].address == address
    ensures forall j | 0 <= j < i :: body[j].address != address
  {
    if body == [] || body[0].address == address then 0 else 1 + IndexOf(body[1..], address)
  }

  // The instruction inside the body that a branch goes to.
  function TargetIndex(body: seq<Insn>, i: nat): (t: Option<nat>)
    requires i < |body|
    ensures t.Some? ==> t.value < |body|
  {
    if body[i].target.None? then None
    else
      var t := IndexOf(body, body[i].target.value);
      if t < |body| then Some(t) else None
  }

  lemma TargetIsFirst(body: seq<Insn>, i: nat, t: nat)
    requires i < |body|
    ensures TargetIndex(body, i) == Some(t) <==> GoesTo(body, i, t)
  {
    if GoesTo(body, i, t) {
      var u := IndexOf(body, body[t].address);
      assert u <= t;
    }
  }

  // ---------- leaders ----------

  // What the block leaders have to contain.
  ghost predicate LeaderSet(body: seq<Insn>, s: set<nat>) {
    && (body != [] ==> 0 in s)
    && (forall i | 0 <= i < |body| - 1 && body[i].kind in BLOCK_ENDS :: i + 1 in s)
    && (forall i, t | GoesTo(body, i, t) :: t in s)
  }

  ghost predicate LeastLeaders(body: seq<Insn>, s: set<nat>) {
    LeaderSet(body, s) && forall other | LeaderSet(body, other) :: s <= other
  }

  // The leaders once the first k instructions have been looked at.
  function LeadersAfter(body: seq<Insn>, k: nat): (s: set<nat>)
    requires k <= |body|
    ensures forall l | l in s :: l < |body|
    ensures body != [] ==> 0 in s
  {
    if k == 0 then (if body == [] then {} else {0})
    else LeadersAfter(body, k - 1) + LeadersFrom(body, k - 1)
  }

  // What one instruction adds.
  function LeadersFrom(body: seq<Insn>, i: nat): (s: set<nat>)
    requires i < |body|
    ensures forall l | l in s :: l < |body|
  {
    (if SplitsBlock(body[i].kind) && i + 1 < |body| then {i + 1} else {})
    + (if TargetIndex(body, i).Some? then {TargetIndex(body, i).value} else {})
  }

  function Leaders(body: seq<Insn>): set<nat> {
    LeadersAfter(body, |body|)
  }

  lemma {:induction false} LeadersGrow(body: seq<Insn>, i: nat, k: nat)
    requires i < k <= |body|
    ensures LeadersFrom(body, i) <= LeadersAfter(body, k)
    decreases k
  {
    if i < k - 1 { LeadersGrow(body, i, k - 1); }
  }

  lemma {:induction false} LeadersWithin(body: seq<Insn>, k: nat, s: set<nat>)
    requires k <= |body| && LeaderSet(body, s)
    ensures LeadersAfter(body, k) <= s
  {
    if k > 0 {
      LeadersWithin(body, k - 1, s);
      KindsAgree(body[k - 1].kind);
      if TargetIndex(body, k - 1).Some? {
        TargetIsFirst(body, k - 1, TargetIndex(body, k - 1).value);
      }
    }
  }

  // The leaders are the least set that contains the entry, what follows a splitting
  // instruction, and every in-body branch target.
  lemma LeadersAreLeast(body: seq<Insn>)
    ensures LeastLeaders(body, Leaders(body))
  {
    LeadersSuffice(body);
    forall s | LeaderSet(body, s) ensures Leaders(body) <= s {
      LeadersWithin(body, |body|, s);
    }
  }

  lemma LeadersSuffice(body: seq<Insn>)
    ensures LeaderSet(body, Leaders(body))
  {
    forall i | 0 <= i < |body| ensures LeadersFrom(body, i) <= Leaders(body) {
      LeadersGrow(body, i, |body|);
    }
    hide LeadersAfter, GoesTo, BLOCK_ENDS, SplitsBlock, TargetIndex;
    forall i | 0 <= i < |body| - 1 && body[i].kind in BLOCK_ENDS ensures i + 1 in Leaders(body) {
      KindsAgree(body[i].kind);
      assert LeadersFrom(body, i) <= Leaders(body);
    }
    forall i, t | GoesTo(body, i, t) ensures t in Leaders(body) {
      BranchInside(body, i, t);
      assert LeadersFrom(body, i) <= Leaders(body);
    }
  }

  lemma BranchInside(body: seq<Insn>, i: nat, t: nat)
    requires GoesTo(body, i, t)
    ensures i < |body| && t < |body| && TargetIndex(body, i) == Some(t)
  {
    TargetIsFirst(body, i, t);
  }

  function SplittingCount(body: seq<Insn>, k: nat): nat
    requires k <= |body|
  {
    if k == 0 then 0 else SplittingCount(body, k - 1) + if SplitsBlock(body[k - 1].kind) then 1 else 0
  }

  function TargetCount(body: seq<Insn>, k: nat): nat
    requires k <= |body|
  {
    if k == 0 then 0 else TargetCount(body, k - 1) + if TargetIndex(body, k - 1).Some? then 1 else 0
  }

  // At most one block more than there are splitting instructions and in-body targets.
  lemma {:induction false} LeadersBounded(body: seq<Insn>, k: nat)
    requires k <= |body|
    ensures |LeadersAfter(body, k)| <= 1 + SplittingCount(body, k) + TargetCount(body, k)
  {
    hide LeadersAfter, LeadersFrom, TargetIndex, SplitsBlock;
    LeadersTurn(body, k);
    if k > 0 {
      LeadersBounded(body, k - 1);
      OneTurnAdds(body, k - 1);
    }
  }

  lemma LeadersTurn(body: seq<Insn>, k: nat)
    requires k <= |body|
    ensures k == 0 ==> |LeadersAfter(body, 0)| <= 1
    ensures k > 0 ==> LeadersAfter(body, k) == LeadersAfter(body, k - 1) + LeadersFrom(body, k - 1)
  {
    assert |{0}| == 1;
  }

  lemma OneTurnAdds(body: seq<Insn>, i: nat)
    requires i < |body|
    ensures |LeadersFrom(body, i)|
         <= (if SplitsBlock(body[i].kind) then 1 else 0) + if TargetIndex(body, i).Some? then 1 else 0
  {
    hide TargetIndex;
  }

  // ---------- blocks ----------

  datatype Block = Block(start: nat, end: nat)

  // The next leader after i, or the end of the body.
  function NextLeader(body: seq<Insn>, i: nat): (j: nat)
    requires i <= |body|
    ensures i <= j <= |body|
    ensures j < |body| ==> j in Leaders(body)
    ensures forall l | i <= l < j :: l !in Leaders(body)
    decreases |body| - i
  {
    if i == |body| || i in Leaders(body) then i else NextLeader(body, i + 1)
  }

  // The body cut at every leader, from a leader on.
  function Blocks(body: seq<Insn>, from: nat): seq<Block>
    requires from <= |body|
    decreases |body| - from
  {
    if from == |body| then []
    else var end := NextLeader(body, from + 1); [Block(from, end)] + Blocks(body, end)
  }

  // Consecutive, non-empty blocks that start at leaders and reach to the end.
  ghost predicate Partition(body: seq<Insn>, blocks: seq<Block>, from: nat) {
    if blocks == [] then from == |body|
    else blocks[0].start == from < blocks[0].end <= |body| && Partition(body, blocks[1..], blocks[0].end)
  }

  lemma {:induction false} BlocksPartition(body: seq<Insn>, from: nat)
    requires from <= |body|
    ensures Partition(body, Blocks(body, from), from)
    decreases |body| - from
  {
    if from < |body| { BlocksPartition(body, NextLeader(body, from + 1)); }
  }

  function LeadersFromOn(body: seq<Insn>, from: nat): set<nat> {
    set l | l in Leaders(body) && l >= from
  }

  // There is one block for each leader.
  lemma {:induction false} BlocksPerLeader(body: seq<Insn>, from: nat)
    requires from <= |body| && (from < |body| ==> from in Leaders(body))
    ensures |Blocks(body, from)| == |LeadersFromOn(body, from)|
    decreases |body| - from
  {
    if from == |body| {
      assert LeadersFromOn(body, from) == {};
    } else {
      hide Leaders, NextLeader, LeadersFromOn;
      var end := NextLeader(body, from + 1);
      BlocksPerLeader(body, end);
      LeadersOneByOne(body, from);
    }
  }

  lemma LeadersOneByOne(body: seq<Insn>, from: nat)
    requires from < |body| && from in Leaders(body)
    ensures var later := LeadersFromOn(body, NextLeader(body, from + 1));
      LeadersFromOn(body, from) == later + {from} && from !in later
  {
    hide Leaders, NextLeader;
  }

  // Inside a block only the last instruction can split, and no in-body branch goes
  // anywhere but to a block's start.
  lemma {:induction false} BlocksAreBasic(body: seq<Insn>, from: nat)
    requires from <= |body|
    ensures forall b | b in Blocks(body, from) :: b.end <= |body|
    ensures forall b, i | b in Blocks(body, from) && b.start <= i < b.end - 1 :: body[i].kind !in BLOCK_ENDS
    ensures forall b, l | b in Blocks(body, from) && b.start < l < b.end :: l !in Leaders(body)
    decreases |body| - from
  {
    hide Leaders, LeastLeaders, NextLeader, BLOCK_ENDS;
    if from < |body| {
      var end := NextLeader(body, from + 1);
      BlocksAreBasic(body, end);
      forall i | from <= i < end - 1 ensures body[i].kind !in BLOCK_ENDS {
        NoSplitInside(body, i);
      }
      assert Blocks(body, from) == [Block(from, end)] + Blocks(body, end);
    }
  }

  // What follows the end of a basic block is a leader.
  lemma NoSplitInside(body: seq<Insn>, i: nat)
    requires i + 1 < |body| && i + 1 !in Leaders(body)
    ensures body[i].kind !in BLOCK_ENDS
  {
    LeadersAreLeast(body);
    hide Leaders;
  }

  // The number of leaders is the number of basic blocks of a partition of the body.
  lemma LeadersCountBlocks(body: seq<Insn>)
    ensures |Blocks(body, 0)| == |Leaders(body)| && Partition(body, Blocks(body, 0), 0)
  {
    BlocksPerLeader(body, 0);
    BlocksPartition(body, 0);
    assert LeadersFromOn(body, 0) == Leaders(body);
  }

  // ---------- nesting ----------

  // A branch and its target, lower index first.
  datatype Span = Span(first: nat, last: nat)

  function SpanOf(i: nat, t: nat): Span {
    if i <= t then Span(i, t) else Span(t, i)
  }

  function SpansAfter(body: seq<Insn>, k: nat): (spans: seq<Span>)
    requires k <= |body|
    ensures forall s | s in spans :: s.first <= s.last < |body|
  {
    if k == 0 then []
    else SpansAfter(body, k - 1)
         + if TargetIndex(body, k - 1).Some? then [SpanOf(k - 1, TargetIndex(body, k - 1).value)] else []
  }

  function Spans(body: seq<Insn>): seq<Span> {
    SpansAfter(body, |body|)
  }

  predicate Covers(s: Span, p: nat) {
    s.first <= p <= s.last
  }

  // The spans over a position.
  function DepthAt(spans: seq<Span>, p: nat): nat {
    if spans == [] then 0
    else DepthAt(spans[..|spans| - 1], p) + if Covers(spans[|spans| - 1], p) then 1 else 0
  }

  function MaxDepth(spans: seq<Span>, n: nat): (d: nat)
    ensures forall p | 0 <= p < n :: DepthAt(spans, p) <= d
    ensures n > 0 ==> exists p :: 0 <= p < n && DepthAt(spans, p) == d
    ensures n == 0 ==> d == 0
  {
    if n == 0 then 0
    else
      var d := MaxDepth(spans, n - 1);
      if DepthAt(spans, n - 1) > d then DepthAt(spans, n - 1)
      else
        assert n == 1 ==> DepthAt(spans, 0) == d;
        d
  }

  // The range from a branch to its target, or from the target to the branch.
  predicate Between(i: nat, t: nat, p: nat) {
    i <= p <= t || t <= p <= i
  }

  // Two branches, the one from i to t and the one from j to u, go over a common position.
  ghost predicate Meet(i: nat, t: nat, j: nat, u: nat) {
    exists p: nat :: Between(i, t, p) && Between(j, u, p)
  }

  // Branches inside the body, any two of which meet.
  ghost predicate Family(body: seq<Insn>, f: set<nat>) {
    && (forall i | i in f :: exists t :: GoesTo(body, i, t))
    && (forall i, t, j, u | i in f && j in f && GoesTo(body, i, t) && GoesTo(body, j, u) :: Meet(i, t, j, u))
  }

  // The branches among the first k instructions that go over a position.
  function Over(body: seq<Insn>, k: nat, p: nat): (f: set<nat>)
    requires k <= |body|
  {
    set i | 0 <= i < k && TargetIndex(body, i).Some? && Between(i, TargetIndex(body, i).value, p)
  }

  lemma {:induction false} DepthIsOver(body: seq<Insn>, k: nat, p: nat)
    requires k <= |body|
    ensures DepthAt(SpansAfter(body, k), p) == |Over(body, k, p)|
  {
    if k == 0 {
      assert Over(body, 0, p) == {};
    } else {
      DepthIsOver(body, k - 1, p);
      OverTurn(body, k, p);
      hide Over, TargetIndex;
      var before := SpansAfter(body, k - 1);
      if TargetIndex(body, k - 1).Some? {
        var spans := before + [SpanOf(k - 1, TargetIndex(body, k - 1).value)];
        assert spans[..|spans| - 1] == before;
      } else {
        assert before + [] == before;
      }
    }
  }

  lemma OverTurn(body: seq<Insn>, k: nat, p: nat)
    requires 0 < k <= |body|
    ensures var over := TargetIndex(body, k - 1).Some? && Between(k - 1, TargetIndex(body, k - 1).value, p);
      |Over(body, k, p)| == |Over(body, k - 1, p)| + if over then 1 else 0
  {
    hide TargetIndex, Between;
    if TargetIndex(body, k - 1).Some? && Between(k - 1, TargetIndex(body, k - 1).value, p) {
      assert Over(body, k, p) == Over(body, k - 1, p) + {k - 1};
    } else {
      assert Over(body, k, p) == Over(body, k - 1, p);
    }
  }

  // Where a branch's range starts.
  function Start(body: seq<Insn>, i: nat): nat
    requires i < |body| && TargetIndex(body, i).Some?
  {
    if i <= TargetIndex(body, i).value then i else TargetIndex(body, i).value
  }

  // Of several branches there is one that starts last.
  lemma {:induction false} LatestStart(body: seq<Insn>, f: set<nat>) returns (l: nat)
    requires f != {} && forall i | i in f :: i < |body| && TargetIndex(body, i).Some?
    ensures l in f && forall i | i in f :: Start(body, i) <= Start(body, l)
  {
    l :| l in f;
    if f != {l} {
      var m := LatestStart(body, f - {l});
      if Start(body, l) < Start(body, m) { l := m; }
    }
  }

  lemma SubsetSize<T>(a: set<T>, b: set<T>)
    requires a <= b
    ensures |a| <= |b|
  {
    assert b == a + (b - a);
  }

  // Branches that meet pairwise all go over one position, so no such family is larger than
  // the depth somewhere.
  lemma FamilyBounded(body: seq<Insn>, f: set<nat>)
    requires Family(body, f)
    ensures |f| <= MaxDepth(Spans(body), |body|)
  {
    hide Over, DepthAt, MaxDepth, SpansAfter, GoesTo, TargetIndex;
    if f != {} {
      forall i | i in f ensures i < |body| && TargetIndex(body, i).Some? && GoesTo(body, i, TargetIndex(body, i).value) {
        var t :| GoesTo(body, i, t);
        BranchInside(body, i, t);
      }
      var l := LatestStart(body, f);
      var p := Start(body, l);
      FamilyOver(body, f, l);
      SubsetSize(f, Over(body, |body|, p));
      DepthIsOver(body, |body|, p);
    }
  }

  lemma FamilyOver(body: seq<Insn>, f: set<nat>, l: nat)
    requires Family(body, f) && l in f
    requires forall i | i in f :: i < |body| && TargetIndex(body, i).Some? && GoesTo(body, i, TargetIndex(body, i).value)
    requires forall i | i in f :: Start(body, i) <= Start(body, l)
    ensures f <= Over(body, |body|, Start(body, l))
  {
    hide GoesTo, TargetIndex;
    forall i | i in f ensures i in Over(body, |body|, Start(body, l)) {
      assert Meet(i, TargetIndex(body, i).value, l, TargetIndex(body, l).value);
    }
  }

  lemma OverIsFamily(body: seq<Insn>, p: nat)
    ensures Family(body, Over(body, |body|, p))
  {
    hide GoesTo, TargetIndex, Between;
    var f := Over(body, |body|, p);
    forall i | i in f ensures GoesTo(body, i, TargetIndex(body, i).value) {
      TargetIsFirst(body, i, TargetIndex(body, i).value);
    }
    forall i, t | i in f && GoesTo(body, i, t) ensures Between(i, t, p) {
      BranchInside(body, i, t);
    }
  }

  // The size of a largest family of branches that meet pairwise.
  ghost predicate LargestFamily(body: seq<Insn>, n: nat) {
    (exists f :: Family(body, f) && |f| == n) && forall f | Family(body, f) :: |f| <= n
  }

  // The nesting depth is the size of the largest family of branches whose ranges meet
  // pairwise.
  lemma DepthIsLargestFamily(body: seq<Insn>)
    ensures LargestFamily(body, MaxDepth(Spans(body), |body|))
  {
    hide Family, DepthAt;
    var spans := Spans(body);
    forall f | Family(body, f) ensures |f| <= MaxDepth(spans, |body|) {
      FamilyBounded(body, f);
    }
    if body == [] {
      NoFamily(body);
    } else {
      var p :| 0 <= p < |body| && DepthAt(spans, p) == MaxDepth(spans, |body|);
      DepthIsOver(body, |body|, p);
      OverIsFamily(body, p);
    }
  }

  lemma NoFamily(body: seq<Insn>)
    ensures Family(body, {})
  {
  }

  // ---------- figures ----------

  function BranchCount(body: seq<Insn>, k: nat): nat
    requires k <= |body|
  {
    if k == 0 then 0 else BranchCount(body, k - 1) + if CountsAsBranch(body[k - 1].kind) then 1 else 0
  }

  // The extent of a body whose symbol has no size.
  function SizeOf(f: Function): uint64 {
    if f.size != 0 then f.size
    else if f.body == [] then 0
    else
      var last := f.body[|f.body| - 1];
      (last.address + last.size - f.body[0].address) % TWO64
  }

  // ---------- what the figures mean ----------

  // The places of branches among the first k instructions.
  function BranchPlaces(body: seq<Insn>, k: nat): set<nat>
    requires k <= |body|
  {
    set i | 0 <= i < k && body[i].kind in BRANCHES
  }

  lemma {:induction false} BranchesCounted(body: seq<Insn>, k: nat)
    requires k <= |body|
    ensures BranchCount(body, k) == |BranchPlaces(body, k)|
  {
    hide BRANCHES, CountsAsBranch;
    if k == 0 {
      assert BranchPlaces(body, 0) == {};
    } else {
      BranchesCounted(body, k - 1);
      KindsAgree(body[k - 1].kind);
      if body[k - 1].kind in BRANCHES {
        assert BranchPlaces(body, k) == BranchPlaces(body, k - 1) + {k - 1};
      } else {
        assert BranchPlaces(body, k) == BranchPlaces(body, k - 1);
      }
    }
  }

  // The extent: the symbol's size, or where it has none what reaches from the first
  // instruction to the end of the last, in 64 bits.
  predicate Extent(f: Function, size: nat) {
    if f.size != 0 then size == f.size
    else if f.body == [] then size == 0
    else
      var last := f.body[|f.body| - 1];
      size < TWO64 && (f.body[0].address + size) % TWO64 == (last.address + last.size) % TWO64
  }

  // What an entry of the statistics says of a function.
  ghost predicate Describes(entry: Stats, f: Function) {
    && entry.name == f.name && entry.address == f.address && Extent(f, entry.size)
    && (exists leaders :: LeastLeaders(f.body, leaders) && |leaders| == entry.basicBlocks)
    && entry.branchCount == |BranchPlaces(f.body, |f.body|)|
    && LargestFamily(f.body, entry.maxNestingDepth)
  }

  // The four figures of a function.
  function Figures(f: Function): Stats {
    Stats(f.name, f.address, SizeOf(f), |Leaders(f.body)|, BranchCount(f.body, |f.body|),
          MaxDepth(Spans(f.body), |f.body|))
  }

  lemma SizeIsExtent(f: Function)
    ensures Extent(f, SizeOf(f))
  {
    if f.size == 0 && f.body != [] {
      var last := f.body[|f.body| - 1];
      var distance := last.address + last.size - f.body[0].address;
      assert f.body[0].address + SizeOf(f) == last.address + last.size - (distance / TWO64) * TWO64;
      ModShift(last.address + last.size, -(distance / TWO64), TWO64);
    }
  }

  lemma FiguresDescribe(f: Function)
    ensures Describes(Figures(f), f)
  {
    hide Leaders, LeastLeaders, LargestFamily, SizeOf, Extent, BranchCount, MaxDepth, Spans, BranchPlaces;
    SizeIsExtent(f);
    LeadersAreLeast(f.body);
    BranchesCounted(f.body, |f.body|);
    DepthIsLargestFamily(f.body);
  }

  // ---------- the program ----------

  method IndexAddresses(body: seq<Insn>) returns (indexOf: map<uint64, nat>)
    ensures TableOf(body, indexOf)
  {
    indexOf := map[];
    for i := 0 to |body|
      invariant forall a: uint64 :: a in indexOf <==> IndexOf(body, a) < i
      invariant forall a: uint64 | a in indexOf :: indexOf[a] == IndexOf(body, a)
    {
      if body[i].address !in indexOf {
        indexOf := indexOf[body[i].address := i];
      }
    }
  }

  method DeepestNesting(body: seq<Insn>, spans: seq<Span>) returns (maxDepth: nat)
    ensures maxDepth == MaxDepth(spans, |body|)
  {
    maxDepth := 0;
    for position := 0 to |body|
      invariant maxDepth == MaxDepth(spans, position)
    {
      var depth := 0;
      for s := 0 to |spans|
        invariant depth == DepthAt(spans[..s], position)
      {
        assert spans[..s + 1][..s] == spans[..s];
        if position >= spans[s].first && position <= spans[s].last {
          depth := depth + 1;
        }
      }
      assert spans[..|spans|] == spans;
      maxDepth := if maxDepth < depth then depth else maxDepth;
    }
  }

  // The index that the address table gives for the branch of an instruction.
  predicate TableOf(body: seq<Insn>, indexOf: map<uint64, nat>) {
    && (forall a: uint64 :: a in indexOf <==> IndexOf(body, a) < |body|)
    && (forall a: uint64 | a in indexOf :: indexOf[a] == IndexOf(body, a))
  }

  lemma TargetTurn(body: seq<Insn>, i: nat, indexOf: map<uint64, nat>)
    requires i < |body| && TableOf(body, indexOf)
    ensures TargetIndex(body, i)
         == if body[i].target.Some? && body[i].target.value in indexOf then Some(indexOf[body[i].target.value]) else None
  {
  }

  // What one turn of the loop adds.
  lemma ScanTurn(body: seq<Insn>, i: nat, target: Option<nat>)
    requires i < |body| && target == TargetIndex(body, i)
    ensures LeadersAfter(body, i + 1)
         == LeadersAfter(body, i)
            + (if SplitsBlock(body[i].kind) && i + 1 < |body| then {i + 1} else {})
            + (if target.Some? then {target.value} else {})
    ensures BranchCount(body, i + 1) == BranchCount(body, i) + if CountsAsBranch(body[i].kind) then 1 else 0
    ensures SpansAfter(body, i + 1) == SpansAfter(body, i) + if target.Some? then [SpanOf(i, target.value)] else []
  {
    hide TargetIndex, SplitsBlock, CountsAsBranch, SpanOf;
  }

  lemma ScanStart(body: seq<Insn>)
    ensures LeadersAfter(body, 0) == if body == [] then {} else {0}
    ensures BranchCount(body, 0) == 0 && SpansAfter(body, 0) == []
  {
  }

  // The loop over the body.
  method ScanBody(body: seq<Insn>) returns (leaders: set<nat>, branches: nat, spans: seq<Span>)
    ensures leaders == Leaders(body) && branches == BranchCount(body, |body|) && spans == Spans(body)
  {
    hide TargetIndex, TableOf, SplitsBlock, CountsAsBranch, SpanOf, LeadersAfter, SpansAfter, BranchCount;
    var indexOf := IndexAddresses(body);
    leaders, branches, spans := {}, 0, [];
    ScanStart(body);
    if body != [] {
      leaders := leaders + {0};
    }
    for i := 0 to |body|
      invariant leaders == LeadersAfter(body, i)
      invariant branches == BranchCount(body, i)
      invariant spans == SpansAfter(body, i)
    {
      var insn := body[i];
      TargetTurn(body, i, indexOf);
      ScanTurn(body, i, TargetIndex(body, i));
      if CountsAsBranch(insn.kind) {
        branches := branches + 1;
      }
      if SplitsBlock(insn.kind) && i + 1 < |body| {
        leaders := leaders + {i + 1};
      }
      if insn.target.Some? && insn.target.value in indexOf {
        var target := indexOf[insn.target.value];
        leaders := leaders + {target};
        spans := spans + [SpanOf(i, target)];
      }
    }
  }

  method FunctionStats(f: Function) returns (entry: Stats)
    ensures entry == Figures(f)
  {
    var leaders, branches, spans := ScanBody(f.body);
    var depth := DeepestNesting(f.body, spans);
    entry := Stats(f.name, f.address, SizeOf(f), if f.body == [] then 0 else |leaders|, branches, depth);
  }

  method ComputeStats(functions: seq<Function>) returns (stats: seq<Stats>)
    ensures |stats| == |functions|
    ensures forall i | 0 <= i < |functions| :: Describes(stats[i], functions[i])
  {
    hide Describes, Figures;
    stats := [];
    for i := 0 to |functions|
      invariant |stats| == i
      invariant forall k | 0 <= k < i :: Describes(stats[k], functions[k])
    {
      var entry := FunctionStats(functions[i]);
      FiguresDescribe(functions[i]);
      stats := stats + [entry];
    }
  }
}
