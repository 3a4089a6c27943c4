/** Cohen's kappa counted by hand: positions and pairs of positions in place of categories and products. */
module KappaCount {
  import opened Outcomes
  import opened Kappa

  /** The positions at which the two annotators agree. */
  function Agreements<T(==)>(items: seq<(T, T)>): set<int> {
    Indices(items, (p: (T, T)) => p.0 == p.1)
  }

  /** The pairs of positions at which the first annotator's label is the second one's elsewhere. */
  function Coincidences<T(==)>(items: seq<(T, T)>, n: nat): set<(int, int)>
    requires n <= |items|
  {
    set i, j | 0 <= i < n && 0 <= j < |items| && items[i].0 == items[j].1 :: (i, j)
  }

  lemma {:induction false} CountIsSize<T>(s: seq<T>, p: T -> bool)
    ensures CountIf(s, p) == |Indices(s, p)|
  {
    if s == [] {
      assert Indices(s, p) == {};
    } else {
      var n := |s| - 1;
      CountIsSize(s[..n], p);
      IndicesSnoc(s, p);
    }
  }

  function Paired(n: int, js: set<int>): set<(int, int)> {
    set j | j in js :: (n, j)
  }

  lemma {:induction false} Member<X>(s: set<X>) returns (x: X)
    requires s != {}
    ensures x in s
  {
    x :| x in s;
  }

  lemma {:induction false} PairedSize(n: int, js: set<int>)
    ensures |Paired(n, js)| == |js|
    decreases |js|
  {
    if js == {} {
      assert Paired(n, js) == {};
    } else {
      var j := Member(js);
      PairedSize(n, js - {j});
      assert Paired(n, js) == Paired(n, js - {j}) + {(n, j)};
    }
  }

  lemma {:induction false} InCoincidences<T>(items: seq<(T, T)>, n: nat, i: int, j: int)
    requires n <= |items|
    ensures (i, j) in Coincidences(items, n) <==> 0 <= i < n && 0 <= j < |items| && items[i].0 == items[j].1
  {
  }

  /** The coincidences of one more item. */
  lemma {:induction false} CoincidencesGrow<T>(items: seq<(T, T)>, n: nat)
    requires n < |items|
    ensures var row := Paired(n, Indices(items, SecondIs(items[n].0)));
      Coincidences(items, n + 1) == Coincidences(items, n) + row && Coincidences(items, n) !! row
  {
    var row := Paired(n, Indices(items, SecondIs(items[n].0)));
    forall i, j ensures (i, j) in Coincidences(items, n + 1) <==> (i, j) in Coincidences(items, n) + row {
      InCoincidences(items, n + 1, i, j);
      InCoincidences(items, n, i, j);
    }
    forall p ensures p in Coincidences(items, n + 1) <==> p in Coincidences(items, n) + row {
      assert p == (p.0, p.1);
    }
  }

  /** Item by item, the products count the coincidences. */
  lemma {:induction false} ByItemIsSize<T>(items: seq<(T, T)>, n: nat)
    requires n <= |items|
    ensures ByItem(items, n) == |Coincidences(items, n)|
  {
    if n == 0 {
      assert Coincidences(items, n) == {};
    } else {
      ByItemIsSize(items, n - 1);
      OneMoreRow(items, n - 1);
    }
  }

  lemma {:induction false} OneMoreRow<T>(items: seq<(T, T)>, n: nat)
    requires n < |items|
    ensures |Coincidences(items, n + 1)| == |Coincidences(items, n)| + CountB(items, items[n].0)
  {
    var js := Indices(items, SecondIs(items[n].0));
    CoincidencesGrow(items, n);
    CountIsSize(items, SecondIs(items[n].0));
    PairedSize(n, js);
    UnionSize(Coincidences(items, n), Paired(n, js));
  }

  lemma {:induction false} UnionSize(a: set<(int, int)>, b: set<(int, int)>)
    requires a !! b
    ensures |a + b| == |a| + |b|
  {
  }

  lemma {:induction false} ChanceIsSize<T>(items: seq<(T, T)>)
    ensures Chance(items) == |Coincidences(items, |items|)|
  {
    PartialWhole(items, Categories(items));
    PartialIsByItem(items, |items|, Categories(items));
    ByItemIsSize(items, |items|);
  }

  lemma {:induction false} AgreeIsSize<T>(items: seq<(T, T)>)
    ensures Agree(items) == |Agreements(items)|
  {
    CountIsSize(items, BothSame());
    assert Agreements(items) == Indices(items, BothSame());
  }

  /** k is (na - p) / (n² - p), or 1 when that is 0 / 0. */
  predicate IsRatio(k: real, n: nat, a: nat, p: nat) {
    && p <= n * n
    && (p < n * n ==> k * (n * n - p) as real == (n * a - p) as real)
    && (p == n * n ==> k == 1.0)
  }

  /** Kappa of n items is that ratio for their agreements and their coincidences. */
  lemma {:induction false} KappaExactly<T>(items: seq<(T, T)>)
    ensures IsRatio(KappaOf(items), |items|, |Agreements(items)|, |Coincidences(items, |items|)|)
  {
    ChanceIsSize(items);
    AgreeIsSize(items);
    if items == [] {
      assert Coincidences(items, 0) == {};
    } else {
      ChanceBounds(items);
      StatisticExactly(Agree(items), Chance(items), |items|);
    }
  }

  lemma {:induction false} StatisticExactly(agree: nat, chance: nat, n: nat)
    requires n > 0 && InBounds(chance, agree, n)
    ensures IsRatio(Statistic(agree, chance, n), n, agree, chance)
  {
    if chance < n * n {
      StatisticFraction(agree, chance, n);
      Requotient((n * agree - chance) as real, (n * n - chance) as real);
    } else {
      SquarePositive(n);
      RatioBounds(chance as real, chance as real);
    }
  }

  lemma {:induction false} Requotient(x: real, y: real)
    requires y > 0.0
    ensures x / y * y == x
  {
  }
}
