/** Cohen's kappa (check_hand_oracle_kappa.py) over any number of categories, in exact rationals. */
module Kappa {
  import opened Outcomes

  // ----- counting -----

  function CountIf<T>(s: seq<T>, p: T -> bool): nat {
    if s == [] then 0 else CountIf(s[..|s| - 1], p) + if p(s[|s| - 1]) then 1 else 0
  }

  function Zip<T>(a: seq<T>, b: seq<T>): seq<(T, T)>
    requires |a| == |b|
  {
    seq(|a|, i requires 0 <= i < |a| => (a[i], b[i]))
  }

  function FirstIs<T(==)>(c: T): ((T, T)) -> bool { (p: (T, T)) => p.0 == c }
  function SecondIs<T(==)>(c: T): ((T, T)) -> bool { (p: (T, T)) => p.1 == c }
  function BothSame<T(==)>(): ((T, T)) -> bool { (p: (T, T)) => p.0 == p.1 }

  /** `count_a[c]`, `count_b[c]` and the number of agreements, over the zipped items. */
  function CountA<T(==)>(items: seq<(T, T)>, c: T): nat { CountIf(items, FirstIs(c)) }
  function CountB<T(==)>(items: seq<(T, T)>, c: T): nat { CountIf(items, SecondIs(c)) }
  function Agree<T(==)>(items: seq<(T, T)>): nat { CountIf(items, BothSame()) }

  /** The sum of count_a[c] * count_b[c] over the categories. */
  function Products<T(==)>(items: seq<(T, T)>, cats: seq<T>): nat {
    if cats == [] then 0
    else Products(items, cats[..|cats| - 1]) + CountA(items, cats[|cats| - 1]) * CountB(items, cats[|cats| - 1])
  }

  /** Distinct categories that include every label in use. */
  predicate Covers<T(==)>(cats: seq<T>, items: seq<(T, T)>) {
    Distinct(cats) && forall i | 0 <= i < |items| :: items[i].0 in cats && items[i].1 in cats
  }

  lemma {:induction false} CoversOneMore<T>(front: seq<(T, T)>, before: seq<T>, last: (T, T), cats: seq<T>)
    requires Covers(before, front) && Distinct(cats) && last.0 in cats && last.1 in cats
    requires forall x | x in before :: x in cats
    ensures Covers(cats, front + [last])
  {
    var items := front + [last];
    forall i | 0 <= i < |items| ensures items[i].0 in cats && items[i].1 in cats {
      if i < |front| {
        assert items[i] == front[i] && front[i].0 in before && front[i].1 in before;
      } else {
        assert items[i] == last;
      }
    }
  }

  /** The labels in use, each once. */
  function Categories<T(==)>(items: seq<(T, T)>): (cats: seq<T>)
    ensures Covers(cats, items)
  {
    if items == [] then []
    else
      var front, last := items[..|items| - 1], items[|items| - 1];
      var cats := IncludeBoth(Categories(front), last);
      CoversOneMore(front, Categories(front), last, cats);
      assert items == front + [last];
      cats
  }

  function IncludeBoth<T(==)>(cats: seq<T>, p: (T, T)): (r: seq<T>)
    requires Distinct(cats)
    ensures Distinct(r) && p.0 in r && p.1 in r && forall x | x in cats :: x in r
  {
    Include(Include(cats, p.0), p.1)
  }

  function Include<T(==)>(cats: seq<T>, c: T): (r: seq<T>)
    requires Distinct(cats)
    ensures Distinct(r) && c in r && forall x | x in cats :: x in r
  {
    if c in cats then cats else cats + [c]
  }

  predicate Identical<T(==)>(items: seq<(T, T)>) {
    forall i | 0 <= i < |items| :: items[i].0 == items[i].1
  }

  // ----- the statistic -----

  function Chance<T(==)>(items: seq<(T, T)>): nat {
    Products(items, Categories(items))
  }

  /** The formula: observed agreement against agreement by chance, 1 when chance is certain. */
  function Statistic(agree: nat, chance: nat, n: nat): real
    requires n > 0
  {
    SquarePositive(n);
    var observed, expected := agree as real / n as real, chance as real / (n * n) as real;
    if expected == 1.0 then 1.0 else (observed - expected) / (1.0 - expected)
  }

  lemma {:induction false} SquarePositive(n: nat)
    requires n > 0
    ensures n * n > 0
  {
  }

  /** Kappa of the zipped items, 1 when there are none. */
  function KappaOf<T(==)>(items: seq<(T, T)>): real {
    if items == [] then 1.0 else Statistic(Agree(items), Chance(items), |items|)
  }

  datatype LengthError = LengthsDiffer(a: nat, b: nat)

  function Get<T(==)>(m: map<T, nat>, c: T): nat { if c in m then m[c] else 0 }

  lemma {:induction false} CountsSnoc<T>(items: seq<(T, T)>, p: (T, T), c: T)
    ensures CountA(items + [p], c) == CountA(items, c) + if p.0 == c then 1 else 0
    ensures CountB(items + [p], c) == CountB(items, c) + if p.1 == c then 1 else 0
    ensures Agree(items + [p]) == Agree(items) + if p.0 == p.1 then 1 else 0
  {
    assert (items + [p])[..|items|] == items;
  }

  /** The counting loop. */
  method TallyLabels<T(==)>(a: seq<T>, b: seq<T>) returns (agree: nat, countA: map<T, nat>, countB: map<T, nat>)
    requires |a| == |b|
    ensures agree == Agree(Zip(a, b))
    ensures forall c :: Get(countA, c) == CountA(Zip(a, b), c) && Get(countB, c) == CountB(Zip(a, b), c)
  {
    ghost var items := Zip(a, b);
    agree, countA, countB := 0, map[], map[];
    for i := 0 to |a|
      invariant agree == Agree(items[..i])
      invariant forall c :: Get(countA, c) == CountA(items[..i], c)
      invariant forall c :: Get(countB, c) == CountB(items[..i], c)
    {
      assert items[..i + 1] == items[..i] + [items[i]];
      forall c { CountsSnoc(items[..i], items[i], c); }
      if a[i] == b[i] {
        agree := agree + 1;
      }
      countA := countA[a[i] := Get(countA, a[i]) + 1];
      countB := countB[b[i] := Get(countB, b[i]) + 1];
    }
    assert items[..|a|] == items;
  }

  /** The sum over the categories. */
  method SumChance<T(==)>(ghost items: seq<(T, T)>, cats: seq<T>, countA: map<T, nat>, countB: map<T, nat>, n: nat)
      returns (chance: real)
    requires n > 0
    requires forall c :: Get(countA, c) == CountA(items, c) && Get(countB, c) == CountB(items, c)
    ensures n * n > 0 && chance == Products(items, cats) as real / (n * n) as real
  {
    SquarePositive(n);
    chance := 0.0;
    for k := 0 to |cats|
      invariant chance == Products(items, cats[..k]) as real / (n * n) as real
    {
      var x, y := Get(countA, cats[k]), Get(countB, cats[k]);
      ProductsSnoc(items, cats[..k], cats[k]);
      assert cats[..k + 1] == cats[..k] + [cats[k]];
      ShareProduct(x, y, n);
      SumOfShares(Products(items, cats[..k]), x * y, n * n);
      chance := chance + (x as real / n as real) * (y as real / n as real);
    }
    assert cats[..|cats|] == cats;
  }

  lemma {:induction false} ProductsSnoc<T>(items: seq<(T, T)>, cats: seq<T>, c: T)
    ensures Products(items, cats + [c]) == Products(items, cats) + CountA(items, c) * CountB(items, c)
  {
    assert (cats + [c])[..|cats|] == cats;
  }

  /** `_cohen_kappa`. */
  method CohenKappa<T(==)>(a: seq<T>, b: seq<T>) returns (r: Result<real, LengthError>)
    ensures r == if |a| == |b| then Ok(KappaOf(Zip(a, b))) else Err(LengthsDiffer(|a|, |b|))
  {
    if |a| != |b| {
      return Err(LengthsDiffer(|a|, |b|));
    }
    if a == [] {
      return Ok(1.0);
    }
    var n := |a|;
    var agree, countA, countB := TallyLabels(a, b);
    var chance := SumChance(Zip(a, b), Categories(Zip(a, b)), countA, countB, n);
    if chance == 1.0 {
      return Ok(1.0);
    }
    var observed := agree as real / n as real;
    return Ok((observed - chance) / (1.0 - chance));
  }

  lemma {:induction false} ShareProduct(x: nat, y: nat, n: nat)
    requires n > 0
    ensures n * n > 0
    ensures (x as real / n as real) * (y as real / n as real) == (x * y) as real / (n * n) as real
  {
    SquarePositive(n);
    var u, v := x as real / n as real, y as real / n as real;
    assert u * n as real == x as real && v * n as real == y as real;
    assert (x * y) as real == x as real * y as real && (n * n) as real == n as real * n as real;
    assert (u * v) * (n as real * n as real) == (u * n as real) * (v * n as real);
  }

  lemma {:induction false} SumOfShares(x: nat, y: nat, k: nat)
    requires k > 0
    ensures x as real / k as real + y as real / k as real == (x + y) as real / k as real
  {
  }

  // ----- counting facts -----

  lemma {:induction false} CountIfLocal<T>(s: seq<T>, p: T -> bool, q: T -> bool)
    requires forall i | 0 <= i < |s| :: p(s[i]) ==> q(s[i])
    ensures CountIf(s, p) <= CountIf(s, q) <= |s|
  {
    if s != [] {
      CountIfLocal(s[..|s| - 1], p, q);
    }
  }

  lemma {:induction false} CountIfAll<T>(s: seq<T>, p: T -> bool)
    ensures CountIf(s, p) <= |s|
    ensures CountIf(s, p) == |s| <==> forall i | 0 <= i < |s| :: p(s[i])
  {
    if s != [] {
      CountIfAll(s[..|s| - 1], p);
    }
  }

  /** However often both annotators use c, they agree that often. */
  lemma {:induction false} AgreementFloor<T>(items: seq<(T, T)>, c: T)
    ensures CountA(items, c) + CountB(items, c) <= |items| + Agree(items)
  {
    if items != [] {
      AgreementFloor(items[..|items| - 1], c);
    }
  }

  function Totals<T(==)>(items: seq<(T, T)>, cats: seq<T>): nat {
    if cats == [] then 0
    else Totals(items, cats[..|cats| - 1]) + CountA(items, cats[|cats| - 1]) + CountB(items, cats[|cats| - 1])
  }

  function In<T(==)>(cats: seq<T>, c: T): nat { if c in cats then 1 else 0 }

  lemma {:induction false} TotalsGrow<T>(items: seq<(T, T)>, p: (T, T), cats: seq<T>)
    requires Distinct(cats)
    ensures Totals(items + [p], cats) == Totals(items, cats) + In(cats, p.0) + In(cats, p.1)
  {
    if cats != [] {
      var front, c := cats[..|cats| - 1], cats[|cats| - 1];
      TotalsGrow(items, p, front);
      assert (items + [p])[..|items|] == items;
      assert cats == front + [c];
    }
  }

  /** Over covering categories the counts add up to all labels. */
  lemma {:induction false} TotalsCover<T>(items: seq<(T, T)>, cats: seq<T>)
    requires Covers(cats, items)
    ensures Totals(items, cats) == 2 * |items|
  {
    if items == [] {
      TotalsEmpty(items, cats);
    } else {
      var front, p := items[..|items| - 1], items[|items| - 1];
      TotalsCover(front, cats);
      TotalsGrow(front, p, cats);
      assert items == front + [p];
    }
  }

  lemma {:induction false} TotalsEmpty<T>(items: seq<(T, T)>, cats: seq<T>)
    requires items == []
    ensures Totals(items, cats) == 0 == Products(items, cats)
  {
    if cats != [] {
      TotalsEmpty(items, cats[..|cats| - 1]);
    }
  }

  /** The products counted item by item: how often B uses the label A gave it. */
  function ByItem<T(==)>(items: seq<(T, T)>, n: nat): nat
    requires n <= |items|
  {
    if n == 0 then 0 else ByItem(items, n - 1) + CountB(items, items[n - 1].0)
  }

  /** Partial products: counts of A over the first n items only. */
  function Partial<T(==)>(items: seq<(T, T)>, n: nat, cats: seq<T>): nat
    requires n <= |items|
  {
    if cats == [] then 0
    else Partial(items, n, cats[..|cats| - 1])
         + CountA(items[..n], cats[|cats| - 1]) * CountB(items, cats[|cats| - 1])
  }

  lemma {:induction false} PartialGrows<T>(items: seq<(T, T)>, n: nat, cats: seq<T>)
    requires n < |items| && Distinct(cats)
    ensures Partial(items, n + 1, cats) ==
      Partial(items, n, cats) + if items[n].0 in cats then CountB(items, items[n].0) else 0
  {
    if cats == [] {
    } else {
      var front, c := cats[..|cats| - 1], cats[|cats| - 1];
      PartialGrows(items, n, front);
      assert cats == front + [c];
      CountAGrows(items, n, c);
      OneMoreTimes(CountA(items[..n], c), CountB(items, c));
    }
  }

  lemma {:induction false} CountAGrows<T>(items: seq<(T, T)>, n: nat, c: T)
    requires n < |items|
    ensures CountA(items[..n + 1], c) == CountA(items[..n], c) + if items[n].0 == c then 1 else 0
  {
    assert items[..n + 1][..n] == items[..n];
  }

  lemma {:induction false} OneMoreTimes(x: nat, y: nat)
    ensures (x + 1) * y == x * y + y
  {
  }

  lemma {:induction false} PartialIsByItem<T>(items: seq<(T, T)>, n: nat, cats: seq<T>)
    requires n <= |items| && Covers(cats, items)
    ensures Partial(items, n, cats) == ByItem(items, n)
  {
    if n == 0 {
      PartialZero(items, cats);
    } else {
      PartialIsByItem(items, n - 1, cats);
      PartialGrows(items, n - 1, cats);
    }
  }

  lemma {:induction false} PartialZero<T>(items: seq<(T, T)>, cats: seq<T>)
    ensures Partial(items, 0, cats) == 0
  {
    if cats != [] {
      PartialZero(items, cats[..|cats| - 1]);
      assert items[..0] == [];
    }
  }

  lemma {:induction false} PartialWhole<T>(items: seq<(T, T)>, cats: seq<T>)
    ensures Partial(items, |items|, cats) == Products(items, cats)
  {
    if cats != [] {
      PartialWhole(items, cats[..|cats| - 1]);
      assert items[..|items|] == items;
    }
  }

  /** The order of the categories, and categories nobody uses, do not matter. */
  lemma {:induction false} ProductsAreOrderFree<T>(items: seq<(T, T)>, cats: seq<T>)
    requires Covers(cats, items)
    ensures Products(items, cats) == Chance(items)
  {
    PartialWhole(items, cats);
    PartialIsByItem(items, |items|, cats);
    PartialWhole(items, Categories(items));
    PartialIsByItem(items, |items|, Categories(items));
  }

  // ----- the bound behind kappa >= -1 -----

  predicate Dominated(products: nat, k: nat, totals: nat) {
    4 * products <= k * totals
  }

  /** Some category's two counts are the largest, and four times the products stay below it times
      the totals. */
  lemma {:induction false} ProductsBound<T>(items: seq<(T, T)>, cats: seq<T>) returns (c: T)
    requires cats != []
    ensures c in cats
    ensures Dominated(Products(items, cats), CountA(items, c) + CountB(items, c), Totals(items, cats))
  {
    var front, last := cats[..|cats| - 1], cats[|cats| - 1];
    var x, y := CountA(items, last), CountB(items, last);
    assert cats == front + [last];
    FourProducts(x, y);
    if front == [] {
      c := last;
      assert Products(items, front) == 0 && Totals(items, front) == 0;
    } else {
      c := ProductsBound(items, front);
      BoundStep(Products(items, front), Totals(items, front), CountA(items, c) + CountB(items, c), x, y);
      if CountA(items, c) + CountB(items, c) < x + y {
        c := last;
      }
    }
  }

  lemma {:induction false} BoundStep(products: nat, totals: nat, k: nat, x: nat, y: nat)
    requires Dominated(products, k, totals)
    ensures Dominated(products + x * y, if k < x + y then x + y else k, totals + x + y)
  {
    FourProducts(x, y);
    var m := if k < x + y then x + y else k;
    ScaleUp(k, m, totals);
    ScaleUp(x + y, m, x + y);
    assert m * (totals + (x + y)) == m * totals + m * (x + y);
  }

  lemma {:induction false} FourProducts(x: nat, y: nat)
    ensures 4 * (x * y) <= (x + y) * (x + y)
  {
    assert (x - y) * (x - y) >= 0;
    assert (x + y) * (x + y) == (x - y) * (x - y) + 4 * (x * y);
  }

  lemma {:induction false} ScaleUp(a: nat, b: nat, t: nat)
    requires a <= b
    ensures a * t <= b * t
  {
  }

  predicate InBounds(chance: nat, agree: nat, n: nat) {
    2 * chance <= (n + agree) * n && chance <= n * n
  }

  /** With M the share of the category used most, chance agreement is at most M and observed
      agreement at least 2M - 1; and chance is certain only if everyone always says the same. */
  lemma {:induction false} ChanceBounds<T>(items: seq<(T, T)>)
    requires items != []
    ensures Agree(items) <= |items|
    ensures InBounds(Chance(items), Agree(items), |items|)
    ensures Chance(items) == |items| * |items| ==> Identical(items)
  {
    var n, cats := |items|, Categories(items);
    assert items[0].0 in cats;
    var c := ProductsBound(items, cats);
    TotalsCover(items, cats);
    AgreementFloor(items, c);
    UseBounds(items, c);
    ChanceArithmetic(Chance(items), CountA(items, c) + CountB(items, c), Totals(items, cats), n, Agree(items));
  }

  lemma {:induction false} UseBounds<T>(items: seq<(T, T)>, c: T)
    ensures CountA(items, c) <= |items| && CountB(items, c) <= |items| && Agree(items) <= |items|
    ensures CountA(items, c) + CountB(items, c) == 2 * |items| ==> Identical(items)
  {
    CountIfAll(items, FirstIs(c));
    CountIfAll(items, SecondIs(c));
    CountIfAll(items, BothSame());
    if CountA(items, c) + CountB(items, c) == 2 * |items| {
      forall i | 0 <= i < |items| ensures items[i].0 == items[i].1 {
        assert FirstIs(c)(items[i]) && SecondIs(c)(items[i]);
      }
    }
  }

  lemma {:induction false} ChanceArithmetic(chance: nat, k: nat, totals: nat, n: nat, agree: nat)
    requires n > 0 && Dominated(chance, k, totals) && totals == 2 * n && k <= n + agree && k <= 2 * n
    ensures InBounds(chance, agree, n)
    ensures chance == n * n ==> k == 2 * n
  {
    var p := k * n;
    Double(k, n);
    ScaleUp(k, n + agree, n);
    ScaleUp(k, 2 * n, n);
    Double(n, n);
    if k < 2 * n {
      ScaleUp(k, 2 * n - 1, n);
      Less(2 * n, n);
    }
  }

  lemma {:induction false} Double(a: nat, b: nat)
    ensures a * (2 * b) == 2 * (a * b) == (2 * a) * b
  {
  }

  lemma {:induction false} Less(a: nat, b: nat)
    requires a > 0
    ensures (a - 1) * b == a * b - b
  {
  }

  // ----- the theorems -----

  /** Kappa as one fraction. */
  lemma {:induction false} StatisticFraction(agree: nat, chance: nat, n: nat)
    requires n > 0 && chance < n * n
    ensures Statistic(agree, chance, n) == (n * agree - chance) as real / (n * n - chance) as real
  {
    SquarePositive(n);
    FractionOfShares(agree, chance, n);
  }

  /** Agreement that does not exceed chance gives no positive kappa. */
  lemma {:induction false} AtMostChance(agree: nat, chance: nat, n: nat)
    requires n > 0 && chance < n * n && n * agree <= chance
    ensures Statistic(agree, chance, n) <= 0.0
  {
    StatisticFraction(agree, chance, n);
    RatioBounds((n * agree - chance) as real, (n * n - chance) as real);
  }

  lemma {:induction false} ProductsOf(agree: nat, n: nat)
    requires agree <= n
    ensures n * agree <= n * n && (n + agree) * n == n * n + n * agree
    ensures 0 < n && agree < n ==> n * agree < n * n
  {
    ScaleUp(agree, n, n);
    if agree < n {
      ScaleUp(agree, n - 1, n);
      Less(n, n);
    }
  }

  lemma {:induction false} FractionBounds(p: int, chance: int, q: int)
    requires chance < q && p <= q && 2 * chance <= q + p
    ensures -1.0 <= (p - chance) as real / (q - chance) as real <= 1.0
    ensures (p - chance) as real / (q - chance) as real == 1.0 <==> p == q
  {
    RatioBounds((p - chance) as real, (q - chance) as real);
  }

  /** The bounds, from what counting guarantees. */
  lemma {:induction false} StatisticBounds(agree: nat, chance: nat, n: nat)
    requires n > 0 && agree <= n && InBounds(chance, agree, n)
    ensures -1.0 <= Statistic(agree, chance, n) <= 1.0
    ensures Statistic(agree, chance, n) == 1.0 <==> chance == n * n || agree == n
  {
    SquarePositive(n);
    if chance == n * n {
      RatioBounds(chance as real, chance as real);
    } else {
      StatisticFraction(agree, chance, n);
      ProductsOf(agree, n);
      FractionBounds(n * agree, chance, n * n);
    }
  }

  lemma {:induction false} ShareScaled(x: real, n: real, k: real)
    requires n > 0.0
    ensures x / n * (n * k) == x * k
  {
    assert x / n * n == x;
    assert x / n * (n * k) == (x / n * n) * k;
  }

  lemma {:induction false} SharesScaled(agree: real, chance: real, n: real, nn: real)
    requires n > 0.0 && nn > 0.0 && nn == n * n
    ensures (agree / n - chance / nn) * nn == n * agree - chance
    ensures (1.0 - chance / nn) * nn == nn - chance
  {
    ShareScaled(agree, n, n);
    ShareScaled(chance, nn, 1.0);
  }

  lemma {:induction false} CastProducts(a: nat, b: nat)
    ensures (a * b) as real == a as real * b as real
  {
  }

  lemma {:induction false} FractionOfShares(agree: nat, chance: nat, n: nat)
    requires n > 0 && chance < n * n
    ensures var po, pe := agree as real / n as real, chance as real / (n * n) as real;
      && pe != 1.0
      && (po - pe) / (1.0 - pe) == (n * agree - chance) as real / (n * n - chance) as real
  {
    CastProducts(n, n);
    CastProducts(n, agree);
    var nn := (n * n) as real;
    SharesScaled(agree as real, chance as real, n as real, nn);
    ScaledRatio(agree as real / n as real - chance as real / nn, 1.0 - chance as real / nn, nn);
  }

  lemma {:induction false} ScaledRatio(x: real, y: real, k: real)
    requires k != 0.0 && y * k != 0.0
    ensures y != 0.0 && x / y == (x * k) / (y * k)
  {
    var q := x / y;
    assert q * y == x;
    assert q * (y * k) == (q * y) * k;
  }

  lemma {:induction false} RatioBounds(x: real, y: real)
    requires y > 0.0
    ensures x <= y ==> x / y <= 1.0
    ensures x >= -y ==> x / y >= -1.0
    ensures x / y == 1.0 <==> x == y
    ensures x <= 0.0 ==> x / y <= 0.0
  {
    var q := x / y;
    assert q * y == x;
    if q > 1.0 { assert (q - 1.0) * y > 0.0; }
    if q < -1.0 { assert (q + 1.0) * y < 0.0; }
    if q > 0.0 { assert q * y > 0.0; }
  }

  /** For any labels over any number of categories, kappa lies between -1 and 1, and is 1 exactly when
      the two vectors are identical; this covers the empty case and certain chance agreement. */
  lemma {:induction false} KappaBounds<T>(items: seq<(T, T)>)
    ensures -1.0 <= KappaOf(items) <= 1.0
    ensures KappaOf(items) == 1.0 <==> Identical(items)
  {
    if items != [] {
      ChanceBounds(items);
      StatisticBounds(Agree(items), Chance(items), |items|);
      CountIfAll(items, BothSame());
      assert Identical(items) <==> forall i | 0 <= i < |items| :: BothSame()(items[i]);
    }
  }

  function Flip<T>(items: seq<(T, T)>): seq<(T, T)> {
    seq(|items|, i requires 0 <= i < |items| => (items[i].1, items[i].0))
  }

  lemma {:induction false} FlipCounts<T>(items: seq<(T, T)>, c: T)
    ensures CountA(Flip(items), c) == CountB(items, c) && CountB(Flip(items), c) == CountA(items, c)
    ensures Agree(Flip(items)) == Agree(items)
  {
    if items != [] {
      var front := items[..|items| - 1];
      FlipCounts(front, c);
      assert Flip(items)[..|items| - 1] == Flip(front);
    }
  }

  lemma {:induction false} FlipProducts<T>(items: seq<(T, T)>, cats: seq<T>)
    ensures Products(Flip(items), cats) == Products(items, cats)
  {
    if cats != [] {
      FlipProducts(items, cats[..|cats| - 1]);
      FlipCounts(items, cats[|cats| - 1]);
    }
  }

  /** Kappa does not care which annotator comes first. */
  lemma {:induction false} KappaIsSymmetric<T>(items: seq<(T, T)>)
    ensures KappaOf(Flip(items)) == KappaOf(items)
  {
    if items != [] {
      FlipCounts(items, items[0].0);
      FlipProducts(items, Categories(items));
      ProductsAreOrderFree(Flip(items), Categories(items));
    }
  }

  lemma {:induction false} CountIfRemove<T>(s: seq<T>, p: T -> bool, i: nat)
    requires i < |s|
    ensures CountIf(s, p) == CountIf(s[..i] + s[i + 1..], p) + if p(s[i]) then 1 else 0
  {
    var n := |s| - 1;
    if i == n {
      assert s[..i] + s[i + 1..] == s[..n];
    } else {
      CountIfRemove(s[..n], p, i);
      var rest := s[..i] + s[i + 1..];
      assert rest == (s[..n][..i] + s[..n][i + 1..]) + [s[n]];
      assert rest[..|rest| - 1] == s[..n][..i] + s[..n][i + 1..];
    }
  }

  lemma {:induction false} CountIfPermutes<T>(s: seq<T>, t: seq<T>, p: T -> bool)
    requires multiset(s) == multiset(t)
    ensures CountIf(s, p) == CountIf(t, p) && |s| == |t|
  {
    assert |multiset(s)| == |s| && |multiset(t)| == |t|;
    if s == [] {
    } else {
      var n := |s| - 1;
      var i := Occurrence(s[n], t, s);
      var rest := Without(t, i);
      WithoutOne(s, n);
      WithoutOne(t, i);
      assert Without(s, n) == s[..n];
      CountIfPermutes(s[..n], rest, p);
      CountIfRemove(t, p, i);
    }
  }

  lemma {:induction false} ProductsPermute<T>(items: seq<(T, T)>, other: seq<(T, T)>, cats: seq<T>)
    requires multiset(items) == multiset(other)
    ensures Products(items, cats) == Products(other, cats)
  {
    if cats != [] {
      var c := cats[|cats| - 1];
      ProductsPermute(items, other, cats[..|cats| - 1]);
      CountIfPermutes(items, other, FirstIs(c));
      CountIfPermutes(items, other, SecondIs(c));
    }
  }

  /** Kappa does not depend on the order of the items. */
  lemma {:induction false} KappaIgnoresOrder<T>(items: seq<(T, T)>, other: seq<(T, T)>)
    requires multiset(items) == multiset(other)
    ensures KappaOf(items) == KappaOf(other)
  {
    CountIfPermutes(items, other, BothSame());
    ProductsPermute(items, other, Categories(items));
    forall i | 0 <= i < |other| ensures other[i].0 in Categories(items) && other[i].1 in Categories(items) {
      assert other[i] in multiset(items);
      assert other[i] in items;
    }
    ProductsAreOrderFree(other, Categories(items));
  }
}
