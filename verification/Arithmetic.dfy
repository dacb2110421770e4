/** The minimum, and facts about division that the solver does not find by itself. */
module Arithmetic {
  function Min(a: nat, b: nat): nat {
    if a <= b then a else b
  }

  lemma RemainderUnique(x: int, m: nat, q: int, r: int)
    requires m > 0 && 0 <= r < m
    requires x == q * m + r
    ensures x % m == r && x / m == q
  {
    var d := q - x / m;
    assert d * m == x % m - r by {
      assert x == (x / m) * m + x % m;
      assert d * m == q * m - (x / m) * m;
    }
    if d != 0 {
      MultipleIsFar(d, m);
      assert false;
    }
  }

  lemma MultipleIsFar(d: int, m: int)
    requires m > 0 && d != 0
    ensures d * m >= m || d * m <= -m
  {
  }

  lemma RemainderAtMost(x: int, m: nat)
    requires m > 0
    ensures 0 <= x ==> x % m <= x
  {
    if 0 <= x < m {
      RemainderUnique(x, m, 0, x);
    }
  }
}
