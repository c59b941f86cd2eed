// A text standing at a position of a longer one.

module Slices {

  predicate At<T(==)>(body: seq<T>, p: nat, text: seq<T>) {
    p + |text| <= |body| && body[p..p + |text|] == text
  }

  lemma AtConcat<T>(body: seq<T>, p: nat, a: seq<T>, b: seq<T>)
    ensures At(body, p, a + b) <==> At(body, p, a) && At(body, p + |a|, b)
  {
    if At(body, p, a + b) {
      assert body[p..p + |a|] == body[p..p + |a + b|][..|a|] == a;
      assert body[p + |a|..p + |a| + |b|] == body[p..p + |a + b|][|a|..] == b;
    }
    if At(body, p, a) && At(body, p + |a|, b) {
      assert body[p..p + |a + b|] == body[p..p + |a|] + body[p + |a|..p + |a| + |b|];
    }
  }

  lemma AtConcat3<T>(body: seq<T>, p: nat, a: seq<T>, b: seq<T>, c: seq<T>)
    requires At(body, p, a + (b + c))
    ensures At(body, p, a) && At(body, p + |a|, b) && At(body, p + |a| + |b|, c)
    ensures |a + (b + c)| == |a| + |b| + |c|
  {
    AtConcat(body, p, a, b + c);
    AtConcat(body, p + |a|, b, c);
  }

  lemma AtFirst<T>(body: seq<T>, p: nat, text: seq<T>)
    requires At(body, p, text) && text != []
    ensures p < |body| && body[p] == text[0]
  {
    assert body[p..p + |text|][0] == body[p];
  }

  lemma AtLast<T>(body: seq<T>, p: nat, text: seq<T>, last: T)
    requires At(body, p, text + [last])
    ensures At(body, p, text) && p + |text| < |body| && body[p + |text|] == last
  {
    AtConcat(body, p, text, [last]);
    AtFirst(body, p + |text|, [last]);
  }

  lemma Associates<T>(a: seq<T>, b: seq<T>, c: seq<T>)
    ensures (a + b) + c == a + (b + c)
  {
  }

  lemma AtIndex<T>(body: seq<T>, p: nat, text: seq<T>, i: nat)
    requires At(body, p, text) && i < |text|
    ensures p + i < |body| && body[p + i] == text[i]
  {
    assert body[p..p + |text|][i] == body[p + i];
  }

}
