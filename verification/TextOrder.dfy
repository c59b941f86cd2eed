// The order in which strings are sorted and kept in maps.

module TextOrder {

  // Lexicographic order.
  predicate Before(a: string, b: string) {
    if b == "" then false else if a == "" then true
    else a[0] < b[0] || (a[0] == b[0] && Before(a[1..], b[1..]))
  }

  lemma {:induction false} BeforeTotal(a: string, b: string)
    ensures Before(a, b) || a == b || Before(b, a)
    ensures !(Before(a, b) && Before(b, a)) && !Before(a, a)
  {
    if a != "" && b != "" {
      BeforeTotal(a[1..], b[1..]);
      assert a == [a[0]] + a[1..] && b == [b[0]] + b[1..];
    }
    BeforeIrreflexive(a);
  }

  lemma {:induction false} BeforeIrreflexive(a: string)
    ensures !Before(a, a)
  {
    if a != "" { BeforeIrreflexive(a[1..]); }
  }

  lemma {:induction false} BeforeTransitive(a: string, b: string, c: string)
    requires Before(a, b) && Before(b, c)
    ensures Before(a, c)
  {
    if a != "" && a[0] == b[0] == c[0] {
      BeforeTransitive(a[1..], b[1..], c[1..]);
    }
  }

  // The texts differ at k for the first time, and there a has the smaller character.
  predicate FirstDiffers(a: string, b: string, k: nat) {
    k < |a| && k < |b| && a[k] < b[k] && forall i | 0 <= i < k :: a[i] == b[i]
  }

  // The same text, a beginning of it, or one with the smaller character where they differ.
  ghost predicate AtOrBefore(a: string, b: string) {
    a <= b || exists k: nat :: FirstDiffers(a, b, k)
  }

  lemma TailDiffers(a: string, b: string)
    requires a != "" && b != "" && a[0] == b[0]
    ensures AtOrBefore(a, b) <==> AtOrBefore(a[1..], b[1..])
  {
    var x, y := a[1..], b[1..];
    if k: nat :| FirstDiffers(x, y, k) {
      assert forall i | 0 <= i < k :: a[i + 1] == x[i] == y[i] == b[i + 1];
      assert FirstDiffers(a, b, k + 1);
    }
    if k: nat :| FirstDiffers(a, b, k) {
      assert forall i | 0 <= i < k - 1 :: x[i] == a[i + 1] == b[i + 1] == y[i];
      assert FirstDiffers(x, y, k - 1);
    }
    assert a == [a[0]] + x && b == [b[0]] + y;
    if a <= b {
      assert x == a[1..] && forall i | 0 <= i < |x| :: x[i] == a[i + 1] == b[i + 1] == y[i];
    }
  }

  lemma HeadDiffers(a: string, b: string)
    requires a != "" && b != "" && a[0] != b[0]
    ensures AtOrBefore(a, b) <==> a[0] < b[0]
  {
    if a[0] < b[0] {
      assert FirstDiffers(a, b, 0);
    }
  }

  // The order is that of the first place where two texts differ.
  lemma {:induction false} NotBefore(a: string, b: string)
    ensures !Before(b, a) <==> AtOrBefore(a, b)
  {
    hide AtOrBefore;
    if a == "" || b == "" {
      EmptyFirst(a, b);
    } else if a[0] == b[0] {
      NotBefore(a[1..], b[1..]);
      TailDiffers(a, b);
    } else {
      HeadDiffers(a, b);
    }
  }

  lemma EmptyFirst(a: string, b: string)
    requires a == "" || b == ""
    ensures AtOrBefore(a, b) <==> a == ""
  {
  }
}
