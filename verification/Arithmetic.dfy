/** Division facts the modules share. */
module Arithmetic {

  lemma Multiple(k: int, d: int)
    requires d > 0
    ensures k >= 1 ==> k * d >= d
    ensures k <= -1 ==> k * d <= -d
  {}

  /** A quotient and a remainder determine themselves. */
  lemma DivIs(x: nat, d: nat, q: nat, r: nat)
    requires d > 0 && r < d && x == q * d + r
    ensures x / d == q && x % d == r
  {
    var k := q - x / d;
    assert k * d == x % d - r;
    Multiple(k, d);
  }

  /** The remainder of a number of less than two turns. */
  lemma Turn(x: nat, m: nat)
    requires m > 0 && x < 2 * m
    ensures x % m == if x < m then x else x - m
  {
    if x < m {
      DivIs(x, m, 0, x);
    } else {
      DivIs(x, m, 1, x - m);
    }
  }
}
