/**
 The two nearest-rank percentiles: `summary` (scripts/issue-242-fixture.ts) and
 `percentile` (scripts/database-storage-audit.ts). Fractions are exact rationals.
 */
module Percentiles {
  import opened Sorting
  import opened Arithmetic

  predicate AtMost(a: real, b: real) { a <= b }

  datatype Fraction = Fraction(numerator: nat, denominator: nat)

  predicate Proper(f: Fraction) { 0 < f.numerator <= f.denominator }

  /** `Math.ceil(n * fraction)`. */
  function Rank(n: nat, f: Fraction): nat
    requires f.denominator > 0
  {
    (n * f.numerator + f.denominator - 1) / f.denominator
  }

  function SortedCopy(values: seq<real>): seq<real> { SortBy(AtMost, values) }

  /** `sorted[index] ?? 0` for an index that may lie outside. */
  function At(sorted: seq<real>, index: int): real {
    if 0 <= index < |sorted| then sorted[index] else 0.0
  }

  /** `p` of summary. */
  function SummaryRank(values: seq<real>, f: Fraction): real
    requires f.denominator > 0
  {
    At(SortedCopy(values), Max(0, Rank(|values|, f) - 1))
  }

  /** `percentile`, of a sorted array. */
  function Percentile(sorted: seq<real>, f: Fraction): real
    requires f.denominator > 0
  {
    if |sorted| == 0 then 0.0 else At(sorted, Min(|sorted| - 1, Rank(|sorted|, f) - 1))
  }

  datatype Summary = Summary(samples: nat, p50: real, p95: real, p99: real, max: real)

  const P50 := Fraction(1, 2)
  const P95 := Fraction(19, 20)
  const P99 := Fraction(99, 100)
  const P100 := Fraction(1, 1)

  function Summarize(values: seq<real>): Summary {
    Summary(
      |values|, SummaryRank(values, P50), SummaryRank(values, P95), SummaryRank(values, P99), SummaryRank(values, P100))
  }

  // ------------------------------------------------------------------- counting

  function CountLeq(values: seq<real>, x: real): nat {
    if values == [] then 0 else (if values[0] <= x then 1 else 0) + CountLeq(values[1..], x)
  }

  function CountLess(values: seq<real>, x: real): nat {
    if values == [] then 0 else (if values[0] < x then 1 else 0) + CountLess(values[1..], x)
  }

  lemma {:induction false} InsertCounts(v: real, s: seq<real>, x: real)
    ensures CountLeq(Insert(AtMost, v, s), x) == (if v <= x then 1 else 0) + CountLeq(s, x)
    ensures CountLess(Insert(AtMost, v, s), x) == (if v < x then 1 else 0) + CountLess(s, x)
  {
    if s != [] {
      if AtMost(v, s[0]) {
        assert ([v] + s)[1..] == s;
      } else {
        InsertCounts(v, s[1..], x);
        assert ([s[0]] + Insert(AtMost, v, s[1..]))[1..] == Insert(AtMost, v, s[1..]);
      }
    }
  }

  lemma {:induction false} SortCounts(values: seq<real>, x: real)
    ensures CountLeq(SortedCopy(values), x) == CountLeq(values, x)
    ensures CountLess(SortedCopy(values), x) == CountLess(values, x)
  {
    if values != [] {
      SortCounts(values[1..], x);
      InsertCounts(values[0], SortedCopy(values[1..]), x);
    }
  }

  lemma {:induction false} CountLeqFrom(sorted: seq<real>, x: real, k: nat)
    requires k <= |sorted| && forall i :: 0 <= i < k ==> sorted[i] <= x
    ensures CountLeq(sorted, x) >= k
  {
    if k > 0 {
      CountLeqFrom(sorted[1..], x, k - 1);
    }
  }

  lemma {:induction false} CountLessFrom(sorted: seq<real>, x: real, k: nat)
    requires k <= |sorted| && forall i :: k <= i < |sorted| ==> sorted[i] >= x
    ensures CountLess(sorted, x) <= k
  {
    if sorted != [] {
      CountLessFrom(sorted[1..], x, if k > 0 then k - 1 else 0);
    }
  }

  lemma SortedCopySorted(values: seq<real>)
    ensures Sorted(AtMost, SortedCopy(values))
  {
    SortBySorted(AtMost, values);
  }

  lemma RankInRange(n: nat, f: Fraction)
    requires n > 0 && Proper(f)
    ensures 1 <= Rank(n, f) <= n
  {
    var d := f.denominator;
    var top := n * f.numerator + d - 1;
    MulMonotone(1, n, f.numerator);
    MulMonotone(f.numerator, d, n);
    QuotientBound(1, top, d);
    QuotientBound(n + 1, top, d);
    assert (n + 1) * d == n * d + d;
  }

  /** The nearest rank: an element with at least k samples at most it, and fewer than k below it. */
  ghost predicate IsNearestRank(values: seq<real>, k: nat, x: real) {
    x in values && CountLeq(values, x) >= k && CountLess(values, x) < k
  }

  lemma SortedRank(sorted: seq<real>, k: nat)
    requires Sorted(AtMost, sorted) && 1 <= k <= |sorted|
    ensures CountLeq(sorted, sorted[k - 1]) >= k && CountLess(sorted, sorted[k - 1]) < k
  {
    var x := sorted[k - 1];
    forall i | 0 <= i < k ensures sorted[i] <= x {
      assert i == k - 1 || AtMost(sorted[i], sorted[k - 1]);
    }
    forall i | k - 1 <= i < |sorted| ensures sorted[i] >= x {
      assert i == k - 1 || AtMost(sorted[k - 1], sorted[i]);
    }
    CountLeqFrom(sorted, x, k);
    CountLessFrom(sorted, x, k - 1);
  }

  /** The result is the nearest rank, for every sample and every proper fraction. */
  lemma NearestRank(values: seq<real>, f: Fraction)
    requires values != [] && Proper(f)
    ensures IsNearestRank(values, Rank(|values|, f), SummaryRank(values, f))
  {
    var sorted, k := SortedCopy(values), Rank(|values|, f);
    RankInRange(|values|, f);
    SortedCopySorted(values);
    SortedRank(sorted, k);
    var x := sorted[k - 1];
    SortCounts(values, x);
    SortedMember(values, k - 1);
  }

  lemma SortedMember(values: seq<real>, i: nat)
    requires i < |SortedCopy(values)|
    ensures SortedCopy(values)[i] in values
  {
    InMultiset(SortedCopy(values), SortedCopy(values)[i]);
    InMultiset(values, SortedCopy(values)[i]);
  }

  lemma {:induction false} CountsOrdered(values: seq<real>, x: real, y: real)
    requires x < y
    ensures CountLeq(values, x) <= CountLess(values, y)
  {
    if values != [] {
      CountsOrdered(values[1..], x, y);
    }
  }

  /** The two counts leave one nearest rank, and a larger rank never gives a smaller value. */
  lemma NearestRankMonotone(values: seq<real>, k: nat, x: real, k': nat, x': real)
    requires k <= k' && IsNearestRank(values, k, x) && IsNearestRank(values, k', x')
    ensures x <= x' && (k == k' ==> x == x')
  {
    if x' < x {
      CountsOrdered(values, x', x);
    } else if x < x' && k == k' {
      CountsOrdered(values, x, x');
    }
  }

  /** The rank is the least k that is at least n times the fraction. */
  lemma RankIsCeiling(n: nat, f: Fraction, k: nat)
    requires f.denominator > 0
    ensures Rank(n, f) <= k <==> n * f.numerator <= k * f.denominator
  {
    QuotientBound(k + 1, n * f.numerator + f.denominator - 1, f.denominator);
    assert (k + 1) * f.denominator == k * f.denominator + f.denominator;
  }

  predicate AtMostFraction(f: Fraction, g: Fraction) {
    f.numerator * g.denominator <= g.numerator * f.denominator
  }

  lemma RankMonotone(n: nat, f: Fraction, g: Fraction)
    requires f.denominator > 0 && g.denominator > 0 && AtMostFraction(f, g)
    ensures Rank(n, f) <= Rank(n, g)
  {
    var k := Rank(n, g);
    RankIsCeiling(n, g, k);
    RankIsCeiling(n, f, k);
    CrossMultiply(n, f.numerator, f.denominator, g.numerator, g.denominator, k);
  }

  lemma CrossMultiply(n: nat, a: nat, d: nat, b: nat, e: nat, k: nat)
    requires e > 0 && a * e <= b * d && n * b <= k * e
    ensures n * a <= k * d
  {
    MulMonotone(a * e, b * d, n);
    MulMonotone(n * b, k * e, d);
    assert (n * a) * e == (a * e) * n && (n * b) * d == (b * d) * n && (k * d) * e == (k * e) * d;
    Cancel(n * a, k * d, e);
  }

  /** A larger fraction never gives a smaller percentile. */
  lemma PercentileMonotone(values: seq<real>, f: Fraction, g: Fraction)
    requires values != [] && Proper(f) && Proper(g) && AtMostFraction(f, g)
    ensures SummaryRank(values, f) <= SummaryRank(values, g)
  {
    var n := |values|;
    NearestRank(values, f);
    NearestRank(values, g);
    RankMonotone(n, f, g);
    NearestRankMonotone(values, Rank(n, f), SummaryRank(values, f), Rank(n, g), SummaryRank(values, g));
  }

  /** The least k with k / n at least the fraction. */
  predicate LeastRank(n: nat, numerator: nat, denominator: nat, k: nat) {
    denominator * k >= numerator * n && (k > 0 ==> denominator * (k - 1) < numerator * n)
  }

  lemma RankIsLeast(n: nat, f: Fraction)
    requires f.denominator > 0
    ensures LeastRank(n, f.numerator, f.denominator, Rank(n, f))
  {
    var k := Rank(n, f);
    RankIsCeiling(n, f, k);
    if k > 0 {
      RankIsCeiling(n, f, k - 1);
    }
  }

  /** Each reported percentile is the nearest rank of its own fraction: at least 50, 95 and 99 in 100. */
  lemma SummaryIs(values: seq<real>) returns (k50: nat, k95: nat, k99: nat)
    requires values != []
    ensures LeastRank(|values|, 50, 100, k50) && IsNearestRank(values, k50, Summarize(values).p50)
    ensures LeastRank(|values|, 95, 100, k95) && IsNearestRank(values, k95, Summarize(values).p95)
    ensures LeastRank(|values|, 99, 100, k99) && IsNearestRank(values, k99, Summarize(values).p99)
  {
    var n := |values|;
    k50, k95, k99 := Rank(n, P50), Rank(n, P95), Rank(n, P99);
    RankIsLeast(n, P50);
    RankIsLeast(n, P95);
    RankIsLeast(n, P99);
    NearestRank(values, P50);
    NearestRank(values, P95);
    NearestRank(values, P99);
  }

  /** p50 <= p95 <= p99 <= max, and max is the largest sample. */
  lemma SummaryOrdered(values: seq<real>)
    requires values != []
    ensures
      var s := Summarize(values);
      && s.samples == |values|
      && s.p50 <= s.p95 <= s.p99 <= s.max
      && s.max in values && forall v :: v in values ==> v <= s.max
  {
    PercentileMonotone(values, P50, P95);
    PercentileMonotone(values, P95, P99);
    PercentileMonotone(values, P99, P100);
    NearestRank(values, P100);
    CountAll(values, Summarize(values).max);
  }

  lemma {:induction false} CountAll(values: seq<real>, x: real)
    ensures CountLeq(values, x) <= |values|
    ensures CountLeq(values, x) >= |values| ==> forall v :: v in values ==> v <= x
  {
    if values != [] {
      CountAll(values[1..], x);
      assert forall v :: v in values ==> v == values[0] || v in values[1..];
    }
  }

  /** The storage audit and the fixture agree on every non-empty sample. */
  lemma ImplementationsAgree(values: seq<real>, f: Fraction)
    requires Proper(f)
    ensures Percentile(SortedCopy(values), f) == SummaryRank(values, f)
  {
    if values != [] {
      RankInRange(|values|, f);
    }
  }
}
