/** Extrema, and facts about products, quotients and remainders that the solver does not find alone. */
module Arithmetic {
  function Max(a: int, b: int): int { if a < b then b else a }

  function Min(a: int, b: int): int { if a < b then a else b }

  lemma MulMonotone(a: int, b: int, d: int)
    requires d >= 0
    ensures a <= b ==> a * d <= b * d
  {
  }

  lemma Cancel(a: int, b: int, e: int)
    requires e > 0 && a * e <= b * e
    ensures a <= b
  {
    if b < a {
      MulMonotone(b + 1, a, e);
      assert false;
    }
  }

  lemma QuotientBound(m: int, r: int, d: int)
    requires d >= 1
    ensures m <= r / d <==> m * d <= r
  {
    var q := r / d;
    assert q * d <= r < (q + 1) * d;
    MulMonotone(m, q, d);
    MulMonotone(q + 1, m, d);
  }

  lemma RemainderIs(n: int, d: int, q: int, r: int)
    requires 0 <= r < d && n == q * d + r
    ensures n % d == r
  {
    var q', r' := n / d, n % d;
    assert n == q' * d + r';
    assert (q + 1) * d == q * d + d && (q' + 1) * d == q' * d + d;
    MulMonotone(q + 1, q', d);
    MulMonotone(q' + 1, q, d);
    assert q == q';
  }

  lemma NextRemainder(n: int, d: int)
    requires d > 0
    ensures (n + 1) % d == if n % d == d - 1 then 0 else n % d + 1
  {
    var q := n / d;
    assert n == q * d + n % d;
    assert (q + 1) * d == q * d + d;
    if n % d == d - 1 {
      RemainderIs(n + 1, d, q + 1, 0);
    } else {
      RemainderIs(n + 1, d, q, n % d + 1);
    }
  }
}
