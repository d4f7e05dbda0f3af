/** Division facts about integers of any size. */
module Integers {
  lemma Multiple(b: int, z: int)
    requires b > 0
    ensures z >= 1 ==> b * z >= b
    ensures z <= -1 ==> b * z <= -b
  {
  }

  /** Only 0 has a multiple of b between -b and b. */
  lemma SmallMultiple(b: int, z: int)
    requires -b < b * z < b
    ensures z == 0
  {
    Multiple(b, z);
  }

  /** Quotient and remainder are unique. */
  lemma DivMod(n: int, d: int, q: int, r: int)
    requires d > 0 && n == d * q + r && 0 <= r < d
    ensures n / d == q && n % d == r
  {
    var a, b := n / d, n % d;
    assert n == d * a + b;
    assert d * (a - q) == r - b by {
      assert d * (a - q) == d * a - d * q;
    }
    SmallMultiple(d, a - q);
  }
}
