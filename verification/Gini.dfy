/** The concentration measure of the accuracy report, a double loop over ordered pairs of exact shares. */
module Gini {
  import opened Outcomes

  function Abs(x: real): real {
    if x < 0.0 then -x else x
  }

  /** The sum of f over the elements of s. */
  function SumOf(f: real -> real, s: seq<real>): real {
    if s == [] then 0.0 else SumOf(f, s[..|s| - 1]) + f(s[|s| - 1])
  }

  function Itself(): (f: real -> real)
    ensures forall x :: f(x) == x
  {
    x => x
  }

  function Total(s: seq<real>): real {
    SumOf(Itself(), s)
  }

  function AwayFrom(x: real): (f: real -> real)
    ensures forall y :: f(y) == Abs(x - y)
  {
    y => Abs(x - y)
  }

  /** The distance of x to every element of s, added up. */
  function Distances(x: real, s: seq<real>): real {
    SumOf(AwayFrom(x), s)
  }

  function DistanceTo(s: seq<real>): (f: real -> real)
    ensures forall x :: f(x) == Distances(x, s)
  {
    x => Distances(x, s)
  }

  /** The double sum over all ordered pairs of elements of s. */
  function PairSum(s: seq<real>): real {
    SumOf(DistanceTo(s), s)
  }

  function Quotient(pairs: real, n: nat, total: real): real
    requires n > 0 && total > 0.0
  {
    pairs / (2.0 * n as real * total)
  }

  function Coefficient(s: seq<real>): real {
    if |s| <= 1 || Total(s) <= 0.0 then 0.0 else Quotient(PairSum(s), |s|, Total(s))
  }

  ghost predicate NonNegative(s: seq<real>) {
    forall i :: 0 <= i < |s| ==> s[i] >= 0.0
  }

  ghost predicate AllEqual(s: seq<real>) {
    forall i, j :: 0 <= i < |s| && 0 <= j < |s| ==> s[i] == s[j]
  }

  /** No two different positions both hold something. */
  ghost predicate OneHolder(s: seq<real>) {
    forall i, j :: 0 <= i < j < |s| ==> s[i] == 0.0 || s[j] == 0.0
  }

  ghost predicate Ascending(s: seq<real>) {
    forall i, j :: 0 <= i < j < |s| ==> s[i] <= s[j]
  }

  function Times(c: real, x: real): real {
    c * x
  }

  function Scaled(c: real, s: seq<real>): (r: seq<real>)
    ensures |r| == |s|
  {
    if s == [] then [] else Scaled(c, s[..|s| - 1]) + [Times(c, s[|s| - 1])]
  }

  /** Each element weighed by 2k - width + 1, where k is its position. */
  function RankSum(s: seq<real>, width: int): real {
    if s == [] then 0.0
    else RankSum(s[..|s| - 1], width) + Times((2 * |s| - 1 - width) as real, s[|s| - 1])
  }

  method ComputeGini(shares: seq<real>) returns (g: real)
    ensures g == Coefficient(shares)
  {
    if |shares| == 0 {
      return 0.0;
    }
    var total := Total(shares);
    if total <= 0.0 {
      return 0.0;
    }
    var n := |shares|;
    if n == 1 {
      return 0.0;
    }
    var pairSum := 0.0;
    for i := 0 to n
      invariant pairSum == SumOf(DistanceTo(shares), shares[..i])
    {
      for j := 0 to n
        invariant pairSum == SumOf(DistanceTo(shares), shares[..i]) + Distances(shares[i], shares[..j])
      {
        pairSum := pairSum + Abs(shares[i] - shares[j]);
        DistancesPrefix(shares[i], shares, j);
      }
      PrefixGrows(DistanceTo(shares), shares, i);
      assert shares[..n] == shares;
    }
    assert shares[..n] == shares;
    g := Quotient(pairSum, n, total);
  }

  lemma {:induction false} PrefixGrows(f: real -> real, s: seq<real>, i: nat)
    requires i < |s|
    ensures SumOf(f, s[..i + 1]) == SumOf(f, s[..i]) + f(s[i])
  {
    assert s[..i + 1][..i] == s[..i];
  }

  lemma {:induction false} DistancesPrefix(x: real, s: seq<real>, j: nat)
    requires j < |s|
    ensures Distances(x, s[..j + 1]) == Distances(x, s[..j]) + Abs(x - s[j])
  {
    PrefixGrows(AwayFrom(x), s, j);
  }

  // ---- Sums ----

  lemma {:induction false} RemoveOne(f: real -> real, s: seq<real>, i: nat)
    requires i < |s|
    ensures SumOf(f, s) == f(s[i]) + SumOf(f, s[..i] + s[i + 1..])
  {
    var n := |s| - 1;
    if i == n {
      assert s[..i] + s[i + 1..] == s[..n];
    } else {
      RemoveOne(f, s[..n], i);
      var rest := s[..n][..i] + s[..n][i + 1..];
      assert s[..i] + s[i + 1..] == rest + [s[n]];
    }
  }

  lemma {:induction false} SumIgnoresOrder(f: real -> real, a: seq<real>, b: seq<real>)
    requires multiset(a) == multiset(b)
    ensures SumOf(f, a) == SumOf(f, b)
    decreases |a|
  {
    assert |a| == |multiset(a)| == |multiset(b)| == |b|;
    if a == [] {
    } else {
      var last := |a| - 1;
      var i := Occurrence(a[last], b, a);
      var rest := Without(b, i);
      WithoutOne(a, last);
      WithoutOne(b, i);
      assert Without(a, last) == a[..last];
      RemoveOne(f, b, i);
      SumIgnoresOrder(f, a[..last], rest);
    }
  }

  lemma {:induction false} SameSums(f: real -> real, g: real -> real, s: seq<real>)
    requires forall x :: f(x) == g(x)
    ensures SumOf(f, s) == SumOf(g, s)
    decreases |s|
  {
    if s != [] {
      SameSums(f, g, s[..|s| - 1]);
    }
  }

  /** The new last element meets every other one twice and itself at distance zero. */
  lemma {:induction false} PairSumGrows(s: seq<real>, x: real)
    ensures PairSum(s + [x]) == PairSum(s) + 2.0 * Distances(x, s)
  {
    CrossGrows(s, s, x);
    assert DistanceTo(s + [x])(x) == Distances(x, s);
  }

  lemma {:induction false} CrossSnoc(a: seq<real>, s: seq<real>)
    requires a != []
    ensures SumOf(DistanceTo(s), a) == SumOf(DistanceTo(s), a[..|a| - 1]) + Distances(a[|a| - 1], s)
  {
  }

  lemma {:induction false} CrossGrows(a: seq<real>, s: seq<real>, x: real)
    ensures SumOf(DistanceTo(s + [x]), a) == SumOf(DistanceTo(s), a) + Distances(x, a)
    decreases |a|
  {
    if a != [] {
      CrossGrows(a[..|a| - 1], s, x);
      CrossSnoc(a, s);
      CrossSnoc(a, s + [x]);
      DistancesSnoc(x, a);
    }
  }

  lemma {:induction false} DistancesSnoc(x: real, s: seq<real>)
    requires s != []
    ensures Distances(x, s) == Distances(x, s[..|s| - 1]) + Abs(x - s[|s| - 1])
  {
    assert AwayFrom(x)(s[|s| - 1]) == Abs(x - s[|s| - 1]);
  }

  lemma {:induction false} TotalSnoc(s: seq<real>)
    requires s != []
    ensures Total(s) == Total(s[..|s| - 1]) + s[|s| - 1]
  {
    assert Itself()(s[|s| - 1]) == s[|s| - 1];
  }

  // ---- Bounds ----

  lemma {:induction false} SumBound(f: real -> real, g: real -> real, s: seq<real>)
    requires forall i :: 0 <= i < |s| ==> 0.0 <= f(s[i]) <= g(s[i])
    ensures 0.0 <= SumOf(f, s) <= SumOf(g, s)
    ensures SumOf(f, s) == SumOf(g, s) <==> forall i :: 0 <= i < |s| ==> f(s[i]) == g(s[i])
    decreases |s|
  {
    if s != [] {
      var front := s[..|s| - 1];
      assert forall i :: 0 <= i < |front| ==> front[i] == s[i];
      SumBound(f, g, front);
    }
  }

  function AddTo(x: real): (f: real -> real)
    ensures forall y :: f(y) == x + y
  {
    y => x + y
  }

  lemma {:induction false} SumOfSums(x: real, s: seq<real>)
    ensures SumOf(AddTo(x), s) == |s| as real * x + Total(s)
    decreases |s|
  {
    if s != [] {
      SumOfSums(x, s[..|s| - 1]);
      assert |s| as real * x == (|s| - 1) as real * x + x;
    }
  }

  lemma {:induction false} DistancesBound(x: real, s: seq<real>)
    requires x >= 0.0 && NonNegative(s)
    ensures Distances(x, s) <= |s| as real * x + Total(s)
    ensures Distances(x, s) == |s| as real * x + Total(s) <==>
            forall i :: 0 <= i < |s| ==> x == 0.0 || s[i] == 0.0
  {
    SumBound(AwayFrom(x), AddTo(x), s);
    SumOfSums(x, s);
    assert forall i :: 0 <= i < |s| ==> (AwayFrom(x)(s[i]) == AddTo(x)(s[i]) <==> x == 0.0 || s[i] == 0.0);
  }

  lemma {:induction false} DistancesVanish(x: real, s: seq<real>)
    ensures Distances(x, s) >= 0.0
    ensures Distances(x, s) == 0.0 <==> forall i :: 0 <= i < |s| ==> s[i] == x
    decreases |s|
  {
    if s != [] {
      var last := |s| - 1;
      DistancesVanish(x, s[..last]);
      DistancesSnoc(x, s);
      assert forall i :: 0 <= i < last ==> s[..last][i] == s[i];
    }
  }

  lemma {:induction false} PairSumVanishes(s: seq<real>)
    ensures PairSum(s) >= 0.0
    ensures PairSum(s) == 0.0 <==> AllEqual(s)
    decreases |s|
  {
    if s != [] {
      var last := |s| - 1;
      var front := s[..last];
      assert s == front + [s[last]];
      PairSumGrows(front, s[last]);
      PairSumVanishes(front);
      DistancesVanish(s[last], front);
      if AllEqual(front) && (forall i :: 0 <= i < |front| ==> front[i] == s[last]) {
        assert forall i :: 0 <= i < last ==> s[i] == front[i];
      }
      if AllEqual(s) {
        assert forall i :: 0 <= i < last ==> front[i] == s[i];
      }
    }
  }

  lemma {:induction false} TotalIsNonNegative(s: seq<real>)
    requires NonNegative(s)
    ensures Total(s) >= 0.0
    ensures Total(s) == 0.0 ==> forall i :: 0 <= i < |s| ==> s[i] == 0.0
    decreases |s|
  {
    if s != [] {
      var last := |s| - 1;
      TotalIsNonNegative(s[..last]);
      assert forall i :: 0 <= i < last ==> s[..last][i] == s[i];
    }
  }

  /** The largest pair sum n shares with this total can have. */
  function PairCap(n: nat, total: real): real {
    2.0 * (n - 1) as real * total
  }

  lemma {:induction false} CapGrows(p: real, d: real, n: nat, x: real, t: real)
    requires p <= PairCap(n, t) && d <= n as real * x + t
    ensures p + 2.0 * d <= PairCap(n + 1, t + x)
    ensures p + 2.0 * d == PairCap(n + 1, t + x) <==> p == PairCap(n, t) && d == n as real * x + t
  {
    var m := n as real;
    assert PairCap(n + 1, t + x) == 2.0 * m * (t + x) == 2.0 * (m - 1.0) * t + 2.0 * (m * x + t);
  }

  /** The cap bounds the pair sum, and only one holder attains it. */
  lemma {:induction false} PairSumBound(s: seq<real>)
    requires NonNegative(s) && |s| > 0
    ensures PairSum(s) <= PairCap(|s|, Total(s))
    ensures PairSum(s) == PairCap(|s|, Total(s)) <==> OneHolder(s)
    decreases |s|
  {
    var last := |s| - 1;
    var front := s[..last];
    assert s == front + [s[last]];
    PairSumGrows(front, s[last]);
    TotalSnoc(s);
    if front == [] {
      assert PairSum(s) == 0.0;
    } else {
      PairSumBound(front);
      DistancesBound(s[last], front);
      CapGrows(PairSum(front), Distances(s[last], front), last, s[last], Total(front));
      OneMoreHolder(front, s[last]);
    }
  }

  lemma {:induction false} OneMoreHolder(s: seq<real>, x: real)
    ensures OneHolder(s + [x]) <==>
            OneHolder(s) && forall i :: 0 <= i < |s| ==> x == 0.0 || s[i] == 0.0
  {
    var t := s + [x];
    assert forall i :: 0 <= i < |s| ==> t[i] == s[i];
    assert t[|s|] == x;
  }

  lemma {:induction false} ProductOrder(a: real, b: real, c: real)
    requires c > 0.0
    ensures a * c <= b * c <==> a <= b
    ensures a * c == b * c <==> a == b
  {
    assert (b - a) * c == b * c - a * c;
    if a < b {
      assert (b - a) * c > 0.0;
    } else if b < a {
      assert (a - b) * c > 0.0;
    }
  }

  /**
   * For every non-negative share vector the coefficient lies between 0 and
   * (n - 1) / n.  It is 0 exactly when all shares are equal; with a positive
   * total it is (n - 1) / n exactly when one share holds everything.
   */
  lemma {:induction false} GiniBounds(s: seq<real>)
    requires NonNegative(s) && |s| > 0
    ensures 0.0 <= Coefficient(s) <= (|s| - 1) as real / |s| as real
    ensures Coefficient(s) == 0.0 <==> AllEqual(s)
    ensures Total(s) > 0.0 ==> (Coefficient(s) == (|s| - 1) as real / |s| as real <==> OneHolder(s))
  {
    TotalIsNonNegative(s);
    if |s| > 1 && Total(s) > 0.0 {
      PairSumVanishes(s);
      PairSumBound(s);
      QuotientBounds(PairSum(s), |s|, Total(s));
    } else if |s| > 1 {
      FractionIsNonNegative(|s|);
    }
  }

  lemma {:induction false} ScaledOrder(x: real, y: real, d: real)
    requires d > 0.0
    ensures x * d <= y * d <==> x <= y
    ensures x * d == y * d <==> x == y
  {
  }

  lemma {:induction false} CapFraction(n: nat, total: real)
    requires n > 0
    ensures (n - 1) as real / n as real * (2.0 * n as real * total) == PairCap(n, total)
  {
    var x := n as real;
    assert (x - 1.0) / x * x == x - 1.0;
    assert (x - 1.0) / x * (2.0 * x * total) == ((x - 1.0) / x * x) * (2.0 * total);
  }

  lemma {:induction false} QuotientBounds(pairs: real, n: nat, total: real)
    requires n > 0 && total > 0.0 && 0.0 <= pairs <= PairCap(n, total)
    ensures 0.0 <= Quotient(pairs, n, total) <= (n - 1) as real / n as real
    ensures Quotient(pairs, n, total) == 0.0 <==> pairs == 0.0
    ensures Quotient(pairs, n, total) == (n - 1) as real / n as real <==> pairs == PairCap(n, total)
  {
    var d, q, top := 2.0 * n as real * total, Quotient(pairs, n, total), (n - 1) as real / n as real;
    assert d > 0.0 && q * d == pairs;
    CapFraction(n, total);
    ScaledOrder(0.0, q, d);
    ScaledOrder(q, top, d);
    ScaledOrder(q, 0.0, d);
  }

  lemma {:induction false} FractionIsNonNegative(n: nat)
    requires n > 0
    ensures (n - 1) as real / n as real >= 0.0
  {
  }

  // ---- Invariance ----

  lemma {:induction false} PairSumIgnoresOrder(a: seq<real>, b: seq<real>)
    requires multiset(a) == multiset(b)
    ensures PairSum(a) == PairSum(b)
  {
    forall x ensures Distances(x, a) == Distances(x, b) {
      SumIgnoresOrder(AwayFrom(x), a, b);
    }
    SumIgnoresOrder(DistanceTo(a), a, b);
    SameSums(DistanceTo(a), DistanceTo(b), b);
  }

  lemma {:induction false} GiniIgnoresOrder(a: seq<real>, b: seq<real>)
    requires multiset(a) == multiset(b)
    ensures Coefficient(a) == Coefficient(b)
  {
    assert |a| == |multiset(a)| == |multiset(b)| == |b|;
    SumIgnoresOrder(Itself(), a, b);
    PairSumIgnoresOrder(a, b);
  }

  /** A sum of c-homogeneous terms over the scaled shares is c times the sum. */
  lemma {:induction false} ScaledSum(f: real -> real, g: real -> real, c: real, s: seq<real>)
    requires forall y :: g(Times(c, y)) == Times(c, f(y))
    ensures SumOf(g, Scaled(c, s)) == Times(c, SumOf(f, s))
    decreases |s|
  {
    if s != [] {
      var front, x := s[..|s| - 1], s[|s| - 1];
      ScaledSum(f, g, c, front);
    }
  }

  lemma {:induction false} ScaledGap(c: real, x: real, y: real)
    requires c > 0.0
    ensures AwayFrom(Times(c, x))(Times(c, y)) == Times(c, AwayFrom(x)(y))
  {
    assert c * x - c * y == c * (x - y);
    ProductOrder(x, y, c);
  }

  lemma {:induction false} ScaledDistances(c: real, x: real, s: seq<real>)
    requires c > 0.0
    ensures Distances(Times(c, x), Scaled(c, s)) == Times(c, Distances(x, s))
  {
    forall y ensures AwayFrom(Times(c, x))(Times(c, y)) == Times(c, AwayFrom(x)(y)) {
      ScaledGap(c, x, y);
    }
    ScaledSum(AwayFrom(x), AwayFrom(Times(c, x)), c, s);
  }

  lemma {:induction false} ScaledPairSum(c: real, s: seq<real>)
    requires c > 0.0
    ensures PairSum(Scaled(c, s)) == Times(c, PairSum(s))
  {
    forall x ensures DistanceTo(Scaled(c, s))(Times(c, x)) == Times(c, DistanceTo(s)(x)) {
      ScaledDistances(c, x, s);
    }
    ScaledSum(DistanceTo(s), DistanceTo(Scaled(c, s)), c, s);
  }

  lemma {:induction false} ScaledTotal(c: real, s: seq<real>)
    ensures Total(Scaled(c, s)) == Times(c, Total(s))
  {
    ScaledSum(Itself(), Itself(), c, s);
  }

  lemma {:induction false} ScaledQuotient(c: real, pairs: real, n: nat, total: real)
    requires c > 0.0 && n > 0 && total > 0.0 && Times(c, total) > 0.0
    ensures Quotient(Times(c, pairs), n, Times(c, total)) == Quotient(pairs, n, total)
  {
    var base := 2.0 * n as real * total;
    var q := Quotient(pairs, n, total);
    assert q * base == pairs;
    assert 2.0 * n as real * (c * total) == c * base;
    assert q * (c * base) == c * (q * base);
  }

  lemma {:induction false} SignKept(c: real, x: real)
    requires c > 0.0
    ensures Times(c, x) <= 0.0 <==> x <= 0.0
  {
    ProductOrder(x, 0.0, c);
  }

  lemma {:induction false} GiniIgnoresScale(c: real, s: seq<real>)
    requires c > 0.0
    ensures Coefficient(Scaled(c, s)) == Coefficient(s)
  {
    ScaledTotal(c, s);
    ScaledPairSum(c, s);
    SignKept(c, Total(s));
    if |s| > 1 && Total(s) > 0.0 {
      ScaledQuotient(c, PairSum(s), |s|, Total(s));
    }
  }

  // ---- The linear form over sorted shares ----

  lemma {:induction false} DistancesFromTop(x: real, s: seq<real>)
    requires forall i :: 0 <= i < |s| ==> s[i] <= x
    ensures Distances(x, s) == Times(|s| as real, x) - Total(s)
    decreases |s|
  {
    if s != [] {
      var last := |s| - 1;
      DistancesFromTop(x, s[..last]);
      assert |s| as real * x == last as real * x + x;
    }
  }

  lemma {:induction false} WiderRanks(s: seq<real>, width: int)
    ensures RankSum(s, width + 1) == RankSum(s, width) - Total(s)
    decreases |s|
  {
    if s != [] {
      var k := 2 * |s| - 1 - width;
      WiderRanks(s[..|s| - 1], width);
      assert (k - 1) as real == k as real - 1.0;
      assert (k - 1) as real * s[|s| - 1] == k as real * s[|s| - 1] - s[|s| - 1];
    }
  }

  lemma {:induction false} RankSnoc(s: seq<real>, x: real, width: int)
    ensures RankSum(s + [x], width) == RankSum(s, width) + Times((2 * |s| + 1 - width) as real, x)
  {
    assert (s + [x])[..|s|] == s;
  }

  lemma {:induction false} RankGrows(s: seq<real>, x: real)
    requires PairSum(s) == 2.0 * RankSum(s, |s|)
    requires Distances(x, s) == Times(|s| as real, x) - Total(s)
    ensures PairSum(s + [x]) == 2.0 * RankSum(s + [x], |s| + 1)
  {
    PairSumGrows(s, x);
    WiderRanks(s, |s|);
    RankSnoc(s, x, |s| + 1);
    assert 2 * |s| + 1 - (|s| + 1) == |s|;
  }

  lemma {:induction false} AscendingPairSum(s: seq<real>)
    requires Ascending(s)
    ensures PairSum(s) == 2.0 * RankSum(s, |s|)
    decreases |s|
  {
    if s != [] {
      var last := |s| - 1;
      var front := s[..last];
      var x := s[last];
      assert s == front + [x];
      AscendingPairSum(front);
      DistancesFromTop(x, front);
      RankGrows(front, x);
    }
  }

  /** The quadratic double sum equals the linear rank-weighted sum over the sorted shares. */
  lemma {:induction false} SortedFormula(s: seq<real>, sorted: seq<real>)
    requires multiset(sorted) == multiset(s) && Ascending(sorted)
    ensures PairSum(s) == 2.0 * RankSum(sorted, |sorted|)
  {
    PairSumIgnoresOrder(s, sorted);
    AscendingPairSum(sorted);
  }
}
