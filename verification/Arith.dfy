/** Facts that several modules share, most of them about quotients and remainders by a divisor that is
    not a literal. */
module Arith {

  function Min(a: nat, b: nat): nat { if a < b then a else b }

  lemma Regroup<T>(a: seq<T>, b: seq<T>, c: seq<T>)
    ensures (a + b) + c == a + (b + c)
  {}

  lemma UniqueRemainder(v: nat, m: nat, q: nat, r: nat)
    requires m > 0 && v == q * m + r && r < m
    ensures v % m == r && v / m == q
  {
    var q', r' := v / m, v % m;
    SameMultiple(q, q', m, r' - r);
  }

  lemma SameMultiple(a: int, b: int, m: int, d: int)
    requires a * m - b * m == d && -m < d < m
    ensures a == b
  {
    assert (a - b) * m == d;
    if a > b { AtLeast(a - b, m); }
    if a < b { AtLeast(b - a, m); }
  }

  lemma AtLeast(k: int, m: int)
    requires k >= 1 && m > 0
    ensures k * m >= m
  {}

  lemma QuotientAndRemainder(v: nat, m: nat)
    requires m > 0
    ensures v == v / m * m + v % m && v % m < m
  {}

  /** Moving `k` places round a ring of `m`. */
  lemma RingAdd(i: nat, k: nat, m: nat)
    requires m > 0 && k <= m
    ensures (i + k) % m == if i % m + k < m then i % m + k else i % m + k - m
  {
    QuotientAndRemainder(i, m);
    RingAddFrom(i, k, m, i / m, i % m);
  }

  lemma RingAddFrom(i: nat, k: nat, m: nat, q: nat, r: nat)
    requires k <= m && i == q * m + r && r < m
    ensures (i + k) % m == if r + k < m then r + k else r + k - m
  {
    if r + k < m {
      UniqueRemainder(i + k, m, q, r + k);
    } else {
      OneMore(q, m);
      UniqueRemainder(i + k, m, q + 1, r + k - m);
    }
  }

  lemma OneMore(q: int, m: int)
    ensures (q + 1) * m == q * m + m
  {}

  lemma RingAddReduced(i: nat, k: nat, m: nat)
    requires m > 0 && k <= m
    ensures (i + k) % m == (i % m + k) % m
  {
    RingAdd(i, k, m);
    RingAdd(i % m, k, m);
    UniqueRemainder(i % m, m, 0, i % m);
  }

  lemma RingDistinct(i: nat, k: nat, m: nat)
    requires 0 < k < m
    ensures (i + k) % m != i % m
  {
    RingAdd(i, k, m);
  }
}
