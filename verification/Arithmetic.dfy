// Facts about products, quotients and remainders.

module Arithmetic {
  import opened Common

  lemma MulMonotone(a: int, b: int, m: nat)
    requires a <= b
    ensures a * m <= b * m
  {
  }

  lemma Distribute(a: int, b: int, m: int)
    ensures (a + b) * m == a * m + b * m
  {
  }

  lemma DivModUnique(a: int, q: int, r: nat, m: nat)
    requires r < m && a == q * m + r
    ensures a / m == q && a % m == r
  {
    var q', r' := a / m, a % m;
    assert (q - q') * m == r' - r;
    if q - q' >= 1 {
      MulMonotone(1, q - q', m);
      assert false;
    } else if q - q' <= -1 {
      MulMonotone(q - q', -1, m);
      assert false;
    }
  }

  lemma ModShift(a: int, k: int, m: nat)
    requires m > 0
    ensures (a + k * m) % m == a % m
  {
    var q, r := a / m, a % m;
    assert a + k * m == (q + k) * m + r;
    DivModUnique(a + k * m, q + k, r, m);
  }

  function Pow256(n: nat): (p: nat)
    ensures p > 0
  {
    if n == 0 then 1 else 256 * Pow256(n - 1)
  }

  lemma WordSizes()
    ensures Pow256(2) == 0x1_0000 && Pow256(4) == TWO32 && Pow256(8) == TWO64
  {
    assert Pow256(4) == 256 * Pow256(3) == 0x1_0000 * Pow256(2);
    assert Pow256(8) == 256 * Pow256(7) == 0x1_0000 * Pow256(6) == 0x100_0000 * Pow256(5) == TWO32 * Pow256(4);
  }
}
