// Sorting by a comparison, and bisection of sorted keys.

module Sorting {

  // Irreflexive through asymmetry, and "not after" is transitive: what a sort asks of its
  // comparison.
  ghost predicate WeakOrder<T(!new)>(less: (T, T) -> bool) {
    && (forall a, b | less(a, b) :: !less(b, a))
    && (forall a, b, c | !less(b, a) && !less(c, b) :: !less(c, a))
  }

  predicate SortedBy<T>(less: (T, T) -> bool, s: seq<T>) {
    forall i, j | 0 <= i < j < |s| :: !less(s[j], s[i])
  }

  // Where x goes into a sorted sequence.
  function Place<T(!new)>(less: (T, T) -> bool, s: seq<T>, x: T): (p: nat)
    requires WeakOrder(less) && SortedBy(less, s)
    ensures p <= |s|
    ensures forall i | 0 <= i < p :: !less(x, s[i])
    ensures forall i | p <= i < |s| :: !less(s[i], x)
  {
    if s == [] then 0
    else if less(x, s[|s| - 1]) then Place(less, s[..|s| - 1], x)
    else |s|
  }

  function Insert<T>(s: seq<T>, p: nat, x: T): (r: seq<T>)
    requires p <= |s|
    ensures |r| == |s| + 1
    ensures forall i | 0 <= i < |r| :: r[i] == if i < p then s[i] else if i == p then x else s[i - 1]
  {
    s[..p] + [x] + s[p..]
  }

  lemma InsertKeepsElements<T>(s: seq<T>, p: nat, x: T)
    requires p <= |s|
    ensures multiset(Insert(s, p, x)) == multiset(s + [x])
  {
    assert s == s[..p] + s[p..];
  }

  lemma InsertKeepsOrder<T(!new)>(less: (T, T) -> bool, s: seq<T>, x: T)
    requires WeakOrder(less) && SortedBy(less, s)
    ensures SortedBy(less, Insert(s, Place(less, s, x), x))
  {
    hide Place, WeakOrder;
    var p := Place(less, s, x);
    var r := Insert(s, p, x);
    forall i, j | 0 <= i < j < |r| ensures !less(r[j], r[i]) {
      var earlier, later := r[i], r[j];
      assert earlier == if i < p then s[i] else if i == p then x else s[i - 1];
      assert later == if j < p then s[j] else if j == p then x else s[j - 1];
    }
  }

  // An ordered permutation.  Which of equivalent elements comes first is left open.
  method Sort<T(!new)>(less: (T, T) -> bool, s: seq<T>) returns (t: seq<T>)
    requires WeakOrder(less)
    ensures SortedBy(less, t) && multiset(t) == multiset(s)
  {
    hide SortedBy, WeakOrder, Place, Insert;
    t := [];
    EmptySorted(less);
    for i := 0 to |s|
      invariant SortedBy(less, t) && multiset(t) == multiset(s[..i])
    {
      var p := Place(less, t, s[i]);
      InsertKeepsElements(t, p, s[i]);
      InsertKeepsOrder(less, t, s[i]);
      assert s[..i + 1] == s[..i] + [s[i]];
      t := Insert(t, p, s[i]);
    }
    assert s[..|s|] == s;
  }

  lemma EmptySorted<T>(less: (T, T) -> bool)
    ensures SortedBy(less, [])
  {
  }

  lemma SameElements<T>(s: seq<T>, t: seq<T>)
    requires multiset(s) == multiset(t)
    ensures forall x :: x in s <==> x in t
  {
    forall x ensures x in s <==> x in t {
      assert x in s <==> x in multiset(s);
      assert x in t <==> x in multiset(t);
    }
  }

  // ---------- bisection ----------

  predicate Ordered(keys: seq<nat>) {
    forall i, j | 0 <= i < j < |keys| :: keys[i] <= keys[j]
  }

  // A position in lo..hi by halving: on sorted keys the first whose key is at least x.
  function Bisect(keys: seq<nat>, x: nat, lo: nat, hi: nat): (p: nat)
    requires lo <= hi <= |keys|
    ensures lo <= p <= hi
    decreases hi - lo
  {
    if lo == hi then lo
    else
      var mid := (lo + hi) / 2;
      if keys[mid] < x then Bisect(keys, x, mid + 1, hi) else Bisect(keys, x, lo, mid)
  }

  function LowerBound(keys: seq<nat>, x: nat): (p: nat)
    ensures p <= |keys|
  {
    Bisect(keys, x, 0, |keys|)
  }

  function UpperBound(keys: seq<nat>, x: nat): (p: nat)
    ensures p <= |keys|
  {
    Bisect(keys, x + 1, 0, |keys|)
  }

  lemma {:induction false} BisectSplits(keys: seq<nat>, x: nat, lo: nat, hi: nat)
    requires Ordered(keys) && lo <= hi <= |keys|
    ensures forall i | lo <= i < Bisect(keys, x, lo, hi) :: keys[i] < x
    ensures forall i | Bisect(keys, x, lo, hi) <= i < hi :: keys[i] >= x
    decreases hi - lo
  {
    if lo < hi {
      var mid := (lo + hi) / 2;
      if keys[mid] < x {
        BisectSplits(keys, x, mid + 1, hi);
      } else {
        BisectSplits(keys, x, lo, mid);
      }
    }
  }

  // The lower bound separates the keys below x from the others.
  lemma LowerBoundSplits(keys: seq<nat>, x: nat)
    requires Ordered(keys)
    ensures forall i | 0 <= i < LowerBound(keys, x) :: keys[i] < x
    ensures forall i | LowerBound(keys, x) <= i < |keys| :: keys[i] >= x
  {
    hide Bisect, Ordered;
    BisectSplits(keys, x, 0, |keys|);
  }

  // The upper bound separates the keys up to x from the others.
  lemma UpperBoundSplits(keys: seq<nat>, x: nat)
    requires Ordered(keys)
    ensures forall i | 0 <= i < UpperBound(keys, x) :: keys[i] <= x
    ensures forall i | UpperBound(keys, x) <= i < |keys| :: keys[i] > x
  {
    hide Bisect, Ordered;
    BisectSplits(keys, x + 1, 0, |keys|);
  }
}
