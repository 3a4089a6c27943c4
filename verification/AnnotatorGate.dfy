/** The hand-oracle agreement gate (check_hand_oracle_kappa.py): pairwise kappa over a universe of topics. */
module AnnotatorGate {
  import opened Outcomes
  import opened Kappa
  import opened KappaCount

  datatype Role = Pub | Sub
  datatype Item = Item(service: string, topic: string, role: Role)
  datatype Topics = Topics(pub: seq<string>, sub: seq<string>)
  type Annotation = map<string, Topics>

  datatype Label = Yes | No

  /** The annotator lists the topic for the service in that role. */
  predicate Marks(a: Annotation, x: Item) {
    x.service in a && x.topic in (if x.role == Pub then a[x.service].pub else a[x.service].sub)
  }

  function MarkedItems(a: Annotation): (s: set<Item>)
    ensures forall x :: x in s <==> Marks(a, x)
  {
    (set svc, topic | svc in a && topic in a[svc].pub :: Item(svc, topic, Pub))
    + (set svc, topic | svc in a && topic in a[svc].sub :: Item(svc, topic, Sub))
  }

  ghost predicate InUniverse(anns: map<string, Annotation>, x: Item) {
    exists id :: id in anns && Marks(anns[id], x)
  }

  /** The items in use, each once, in whatever order sorting puts them. */
  ghost predicate Ordering(ordered: seq<Item>, anns: map<string, Annotation>) {
    Distinct(ordered) && forall x :: x in ordered <==> InUniverse(anns, x)
  }

  function LabelOf(a: Annotation, x: Item): Label {
    if Marks(a, x) then Yes else No
  }

  function LabelsOf(a: Annotation, ordered: seq<Item>): seq<Label> {
    seq(|ordered|, i requires 0 <= i < |ordered| => LabelOf(a, ordered[i]))
  }

  /** The topics of all annotators together. */
  method CollectUniverse(anns: map<string, Annotation>) returns (universe: set<Item>)
    ensures forall x :: x in universe <==> InUniverse(anns, x)
  {
    universe := {};
    var left := anns.Keys;
    while left != {}
      invariant left <= anns.Keys
      invariant forall x :: x in universe <==> exists id :: id in anns && id !in left && Marks(anns[id], x)
      decreases |left|
    {
      var id :| id in left;
      left := left - {id};
      universe := universe + MarkedItems(anns[id]);
    }
  }

  /** The elements of a set in some order. */
  method InSomeOrder(items: set<Item>) returns (ordered: seq<Item>)
    ensures Distinct(ordered) && forall x :: x in ordered <==> x in items
  {
    ordered := [];
    var left := items;
    while left != {}
      invariant Distinct(ordered)
      invariant forall x :: x in items <==> x in left || x in ordered
      invariant forall x | x in ordered :: x !in left
      decreases |left|
    {
      var x :| x in left;
      left := left - {x};
      ordered := ordered + [x];
    }
  }

  /** `_build_label_vectors`: collect the universe, order it, and label it for every annotator. */
  method BuildLabelVectors(anns: map<string, Annotation>) returns (ordered: seq<Item>, vectors: map<string, seq<Label>>)
    ensures Ordering(ordered, anns)
    ensures vectors.Keys == anns.Keys && forall id | id in anns :: vectors[id] == LabelsOf(anns[id], ordered)
  {
    var universe := CollectUniverse(anns);
    ordered := InSomeOrder(universe);
    vectors := map id | id in anns :: LabelsOf(anns[id], ordered);
  }

  /** Kappa of two annotators over an ordering of the universe. */
  function PairKappa(a: Annotation, b: Annotation, ordered: seq<Item>): real {
    KappaOf(Zip(LabelsOf(a, ordered), LabelsOf(b, ordered)))
  }

  /** The order of the universe does not matter. */
  lemma {:induction false} OrderDoesNotMatter(anns: map<string, Annotation>, a: Annotation, b: Annotation,
          ordered: seq<Item>, other: seq<Item>)
    requires Ordering(ordered, anns) && Ordering(other, anns)
    ensures PairKappa(a, b, ordered) == PairKappa(a, b, other)
  {
    SameElementsPermute(ordered, other);
    assert |multiset(ordered)| == |ordered| && |multiset(other)| == |other|;
    var s, t := Zip(LabelsOf(a, ordered), LabelsOf(b, ordered)), Zip(LabelsOf(a, other), LabelsOf(b, other));
    CountsPermute(a, b, ordered, other, BothSame());
    CountsPermute(a, b, ordered, other, FirstIs(Yes));
    CountsPermute(a, b, ordered, other, FirstIs(No));
    CountsPermute(a, b, ordered, other, SecondIs(Yes));
    CountsPermute(a, b, ordered, other, SecondIs(No));
    SameCountsSameKappa(s, t);
  }

  lemma {:induction false} SameCountsSameKappa(s: seq<(Label, Label)>, t: seq<(Label, Label)>)
    requires |s| == |t| && Agree(s) == Agree(t)
    requires CountA(s, Yes) == CountA(t, Yes) && CountB(s, Yes) == CountB(t, Yes)
    requires CountA(s, No) == CountA(t, No) && CountB(s, No) == CountB(t, No)
    ensures KappaOf(s) == KappaOf(t)
  {
    ChanceOfTwo(s);
    ChanceOfTwo(t);
  }

  lemma {:induction false} SameElementsPermute(s: seq<Item>, t: seq<Item>)
    requires Distinct(s) && Distinct(t) && forall x :: x in s <==> x in t
    ensures multiset(s) == multiset(t)
  {
    forall x ensures multiset(s)[x] == multiset(t)[x] {
      OnceEach(s, x);
      OnceEach(t, x);
    }
  }

  lemma {:induction false} OnceEach(s: seq<Item>, x: Item)
    requires Distinct(s)
    ensures multiset(s)[x] == if x in s then 1 else 0
  {
    if s != [] {
      var front, last := s[..|s| - 1], s[|s| - 1];
      OnceEach(front, x);
      assert s == front + [last];
    }
  }

  function On(a: Annotation, b: Annotation, p: ((Label, Label)) -> bool): Item -> bool {
    x => p((LabelOf(a, x), LabelOf(b, x)))
  }

  lemma {:induction false} CountOnItems(a: Annotation, b: Annotation, s: seq<Item>, p: ((Label, Label)) -> bool)
    ensures CountIf(Zip(LabelsOf(a, s), LabelsOf(b, s)), p) == CountIf(s, On(a, b, p))
  {
    if s != [] {
      var front := s[..|s| - 1];
      CountOnItems(a, b, front, p);
      var items := Zip(LabelsOf(a, s), LabelsOf(b, s));
      assert items[..|s| - 1] == Zip(LabelsOf(a, front), LabelsOf(b, front));
    }
  }

  lemma {:induction false} CountsPermute(a: Annotation, b: Annotation, s: seq<Item>, t: seq<Item>,
          p: ((Label, Label)) -> bool)
    requires multiset(s) == multiset(t)
    ensures CountIf(Zip(LabelsOf(a, s), LabelsOf(b, s)), p) == CountIf(Zip(LabelsOf(a, t), LabelsOf(b, t)), p)
  {
    CountOnItems(a, b, s, p);
    CountOnItems(a, b, t, p);
    CountIfPermutes(s, t, On(a, b, p));
  }

  // ----- the gate -----

  ghost predicate Holds(table: map<(int, int), real>, i: int, j: int, ids: seq<string>, anns: map<string, Annotation>,
          ordered: seq<Item>)
    requires 0 <= i < |ids| && 0 <= j < |ids| && ids[i] in anns && ids[j] in anns
  {
    (i, j) in table && table[(i, j)] == PairKappa(anns[ids[i]], anns[ids[j]], ordered)
  }

  ghost predicate RowHolds(table: map<(int, int), real>, i: int, n: int, ids: seq<string>,
          anns: map<string, Annotation>, ordered: seq<Item>)
    requires 0 <= i < |ids| && n <= |ids| && forall k | 0 <= k < |ids| :: ids[k] in anns
  {
    forall j | i < j < n :: Holds(table, i, j, ids, anns, ordered)
  }

  /** Kappa of one annotator with every later one. */
  method RowPairs(ids: seq<string>, anns: map<string, Annotation>, ghost ordered: seq<Item>,
          vectors: map<string, seq<Label>>, i: nat, table0: map<(int, int), real>)
      returns (table: map<(int, int), real>)
    requires i < |ids| && forall k | 0 <= k < |ids| :: ids[k] in anns
    requires vectors.Keys == anns.Keys && forall id | id in anns :: vectors[id] == LabelsOf(anns[id], ordered)
    ensures RowHolds(table, i, |ids|, ids, anns, ordered)
    ensures forall k | 0 <= k < |ids| && k != i && RowHolds(table0, k, |ids|, ids, anns, ordered) ::
      RowHolds(table, k, |ids|, ids, anns, ordered)
  {
    table := table0;
    for m := i + 1 to |ids|
      invariant RowHolds(table, i, m, ids, anns, ordered)
      invariant forall k | 0 <= k < |ids| && k != i && RowHolds(table0, k, |ids|, ids, anns, ordered) ::
        RowHolds(table, k, |ids|, ids, anns, ordered)
    {
      var r := CohenKappa(vectors[ids[i]], vectors[ids[m]]);
      HoldsAdded(table, table[(i, m) := r.value], i, m, ids, anns, ordered);
      table := table[(i, m) := r.value];
    }
  }

  /** Kappa of every pair, in the order of the annotators. */
  method AllPairs(ids: seq<string>, anns: map<string, Annotation>, ghost ordered: seq<Item>,
          vectors: map<string, seq<Label>>)
      returns (table: map<(int, int), real>)
    requires forall i | 0 <= i < |ids| :: ids[i] in anns
    requires vectors.Keys == anns.Keys && forall id | id in anns :: vectors[id] == LabelsOf(anns[id], ordered)
    ensures forall i | 0 <= i < |ids| :: RowHolds(table, i, |ids|, ids, anns, ordered)
  {
    table := map[];
    for i := 0 to |ids|
      invariant forall k | 0 <= k < i :: RowHolds(table, k, |ids|, ids, anns, ordered)
    {
      table := RowPairs(ids, anns, ordered, vectors, i, table);
    }
  }

  lemma {:induction false} HoldsAdded(before: map<(int, int), real>, table: map<(int, int), real>, i: int, m: int,
          ids: seq<string>, anns: map<string, Annotation>, ordered: seq<Item>)
    requires 0 <= i < m < |ids| && forall k | 0 <= k < |ids| :: ids[k] in anns
    requires table == before[(i, m) := PairKappa(anns[ids[i]], anns[ids[m]], ordered)]
    ensures Holds(table, i, m, ids, anns, ordered)
    ensures forall k, j | 0 <= k < j < |ids| && (k, j) != (i, m) ::
      Holds(table, k, j, ids, anns, ordered) == Holds(before, k, j, ids, anns, ordered)
  {
  }

  /** The running minimum, from 1.0. */
  method Minimum(table: map<(int, int), real>, n: nat) returns (minimum: real)
    requires forall i, j | 0 <= i < j < n :: (i, j) in table
    ensures minimum <= 1.0 && forall i, j | 0 <= i < j < n :: minimum <= table[(i, j)]
    ensures minimum == 1.0 || exists i, j :: 0 <= i < j < n && minimum == table[(i, j)]
  {
    minimum := 1.0;
    for i := 0 to n
      invariant minimum <= 1.0 && forall k, j | 0 <= k < i && k < j < n :: minimum <= table[(k, j)]
      invariant minimum == 1.0 || exists k, j :: 0 <= k < j < n && minimum == table[(k, j)]
    {
      for m := i + 1 to n
        invariant minimum <= 1.0 && forall k, j | 0 <= k < i && k < j < n :: minimum <= table[(k, j)]
        invariant forall j | i < j < m :: minimum <= table[(i, j)]
        invariant minimum == 1.0 || exists k, j :: 0 <= k < j < n && minimum == table[(k, j)]
      {
        if table[(i, m)] < minimum {
          minimum := table[(i, m)];
        }
      }
    }
  }

  ghost predicate AllReach(threshold: real, ids: seq<string>, anns: map<string, Annotation>, ordered: seq<Item>)
    requires forall i | 0 <= i < |ids| :: ids[i] in anns
  {
    forall i, j | 0 <= i < j < |ids| :: threshold <= PairKappa(anns[ids[i]], anns[ids[j]], ordered)
  }

  /** 0 when there is nothing to compare or no pair falls below the threshold, 1 otherwise.  With two
      annotators or more, a threshold above 1 always fails. */
  ghost function Decision(ids: seq<string>, anns: map<string, Annotation>, threshold: real, ordered: seq<Item>): int
    requires forall i | 0 <= i < |ids| :: ids[i] in anns
  {
    if |ids| < 2 || (threshold <= 1.0 && AllReach(threshold, ids, anns, ordered)) then 0 else 1
  }

  lemma {:induction false} DecisionIgnoresOrder(ids: seq<string>, anns: map<string, Annotation>, threshold: real,
          ordered: seq<Item>, other: seq<Item>)
    requires forall i | 0 <= i < |ids| :: ids[i] in anns
    requires Ordering(ordered, anns) && Ordering(other, anns)
    ensures Decision(ids, anns, threshold, ordered) == Decision(ids, anns, threshold, other)
  {
    forall i, j | 0 <= i < j < |ids|
      ensures PairKappa(anns[ids[i]], anns[ids[j]], ordered) == PairKappa(anns[ids[i]], anns[ids[j]], other)
    {
      OrderDoesNotMatter(anns, anns[ids[i]], anns[ids[j]], ordered, other);
    }
  }

  /** The minimum of the table decides as the specification does. */
  method Decide(ids: seq<string>, anns: map<string, Annotation>, threshold: real, ghost order: seq<Item>,
          table: map<(int, int), real>) returns (exit: int)
    requires |ids| >= 2 && forall i | 0 <= i < |ids| :: ids[i] in anns
    requires forall i | 0 <= i < |ids| :: RowHolds(table, i, |ids|, ids, anns, order)
    ensures exit == Decision(ids, anns, threshold, order)
  {
    forall i, j | 0 <= i < j < |ids| ensures Holds(table, i, j, ids, anns, order) {
      assert RowHolds(table, i, |ids|, ids, anns, order);
    }
    assert forall i, j | 0 <= i < j < |ids| :: (i, j) in table by {
      forall i, j | 0 <= i < j < |ids| ensures (i, j) in table {
        assert Holds(table, i, j, ids, anns, order);
      }
    }
    var minimum := Minimum(table, |ids|);
    if minimum < threshold {
      exit := 1;
      if minimum < 1.0 {
        ghost var i, j :| 0 <= i < j < |ids| && minimum == table[(i, j)];
        assert Holds(table, i, j, ids, anns, order);
        assert PairKappa(anns[ids[i]], anns[ids[j]], order) < threshold;
      }
    } else {
      exit := 0;
      forall i, j | 0 <= i < j < |ids| ensures threshold <= PairKappa(anns[ids[i]], anns[ids[j]], order) {
        assert Holds(table, i, j, ids, anns, order) && minimum <= table[(i, j)];
      }
    }
  }

  /** The decision part of `main`, in whatever order the universe is taken. */
  method Gate(ids: seq<string>, anns: map<string, Annotation>, threshold: real) returns (exit: int)
    requires forall i | 0 <= i < |ids| :: ids[i] in anns
    ensures forall ordered :: Ordering(ordered, anns) ==> exit == Decision(ids, anns, threshold, ordered)
  {
    var order, vectors := BuildLabelVectors(anns);
    if |ids| < 2 {
      return 0;
    }
    var table := AllPairs(ids, anns, order, vectors);
    exit := Decide(ids, anns, threshold, order, table);
    forall ordered | Ordering(ordered, anns) ensures exit == Decision(ids, anns, threshold, ordered) {
      DecisionIgnoresOrder(ids, anns, threshold, order, ordered);
    }
  }

  // ----- exactly two annotators -----

  /** The two annotators list the same topics. */
  ghost predicate SameMarks(a: Annotation, b: Annotation) {
    forall x :: Marks(a, x) <==> Marks(b, x)
  }

  predicate NobodyIdle(items: seq<(Label, Label)>) {
    forall i | 0 <= i < |items| :: items[i] != (No, No)
  }

  function Is(a: Label, b: Label): ((Label, Label)) -> bool { (p: (Label, Label)) => p == (a, b) }

  lemma {:induction false} CountsByKind(items: seq<(Label, Label)>)
    requires NobodyIdle(items)
    ensures var x, y, z := CountIf(items, Is(Yes, Yes)), CountIf(items, Is(Yes, No)), CountIf(items, Is(No, Yes));
      && |items| == x + y + z && Agree(items) == x
      && CountA(items, Yes) == x + y && CountA(items, No) == z
      && CountB(items, Yes) == x + z && CountB(items, No) == y
      && (Identical(items) <==> y + z == 0)
  {
    if items != [] {
      var front, last := items[..|items| - 1], items[|items| - 1];
      CountsByKind(front);
      assert last != (No, No) && (last.0.Yes? || last.0.No?) && (last.1.Yes? || last.1.No?);
      assert Identical(items) <==> Identical(front) && last.0 == last.1;
    }
  }

  function TwoProducts(aYes: nat, bYes: nat, aNo: nat, bNo: nat): nat {
    aYes * bYes + aNo * bNo
  }

  lemma {:induction false} ChanceOfTwo(items: seq<(Label, Label)>)
    ensures Chance(items) == TwoProducts(CountA(items, Yes), CountB(items, Yes), CountA(items, No), CountB(items, No))
  {
    var cats := [Yes, No];
    forall l: Label ensures l in cats {
      assert l == cats[if l == Yes then 0 else 1];
    }
    assert Covers(cats, items);
    ProductsAreOrderFree(items, cats);
    var one := [Yes];
    assert cats == one + [No] && one == [] + [Yes];
    ProductsSnoc(items, one, No);
    ProductsSnoc(items, [], Yes);
  }

  lemma {:induction false} ExcessArithmetic(x: nat, y: nat, z: nat)
    ensures (x + y + z) * x - ((x + y) * (x + z) + z * y) == -2 * (y * z)
  {
  }

  /** With no item both leave out, observed agreement never exceeds chance: kappa is 1 when the
      vectors are identical and at most 0 otherwise, never strictly between. */
  lemma {:induction false} KappaWithoutIdleItems(items: seq<(Label, Label)>)
    requires NobodyIdle(items)
    ensures Identical(items) ==> KappaOf(items) == 1.0
    ensures !Identical(items) ==> KappaOf(items) <= 0.0
  {
    KappaBounds(items);
    if !Identical(items) {
      ChanceBounds(items);
      CountsByKind(items);
      ChanceOfTwo(items);
      NotAboveChance(Agree(items), CountIf(items, Is(Yes, No)), CountIf(items, Is(No, Yes)), |items|, Chance(items),
                     CountA(items, Yes), CountB(items, Yes), CountA(items, No), CountB(items, No));
      AtMostChance(Agree(items), Chance(items), |items|);
    }
  }

  lemma {:induction false} NotAboveChance(x: nat, y: nat, z: nat, n: nat, chance: nat, aYes: nat, bYes: nat, aNo: nat,
          bNo: nat)
    requires n == x + y + z && aYes == x + y && bYes == x + z && aNo == z && bNo == y
    requires chance == TwoProducts(aYes, bYes, aNo, bNo)
    ensures n * x <= chance
  {
    ExcessArithmetic(x, y, z);
    assert y * z >= 0;
  }

  // ----- kappa by shared topics -----

  /** The positions of the items the annotator lists. */
  function MarkedAt(a: Annotation, ordered: seq<Item>): set<int> {
    Indices(ordered, x => Marks(a, x))
  }

  lemma {:induction false} CountsAddUp(items: seq<(Label, Label)>)
    ensures CountA(items, Yes) + CountA(items, No) == |items| == CountB(items, Yes) + CountB(items, No)
    ensures Agree(items) + CountA(items, Yes) + CountB(items, Yes) == |items| + 2 * CountIf(items, Is(Yes, Yes))
  {
    if items == [] {
    } else {
      var front, p := items[..|items| - 1], items[|items| - 1];
      CountsAddUp(front);
      assert items == front + [p];
      CountsSnoc(front, p, Yes);
      CountsSnoc(front, p, No);
      assert Is(Yes, Yes)(p) <==> p == (Yes, Yes);
      assert (p.0 == Yes || p.0 == No) && (p.1 == Yes || p.1 == No);
    }
  }

  lemma {:induction false} MarkSizes(a: Annotation, b: Annotation, ordered: seq<Item>)
    ensures var items := Zip(LabelsOf(a, ordered), LabelsOf(b, ordered));
      && CountA(items, Yes) == |MarkedAt(a, ordered)| && CountB(items, Yes) == |MarkedAt(b, ordered)|
      && CountIf(items, Is(Yes, Yes)) == |MarkedAt(a, ordered) * MarkedAt(b, ordered)|
  {
    var items := Zip(LabelsOf(a, ordered), LabelsOf(b, ordered));
    CountIsSize(items, FirstIs(Yes));
    CountIsSize(items, SecondIs(Yes));
    CountIsSize(items, Is(Yes, Yes));
    assert Indices(items, FirstIs(Yes)) == MarkedAt(a, ordered);
    assert Indices(items, SecondIs(Yes)) == MarkedAt(b, ordered);
    assert Indices(items, Is(Yes, Yes)) == MarkedAt(a, ordered) * MarkedAt(b, ordered);
  }

  lemma {:induction false} CountedKappa(items: seq<(Label, Label)>, agree: nat, chance: nat)
    requires agree == Agree(items) && chance == Chance(items)
    ensures IsRatio(KappaOf(items), |items|, agree, chance)
  {
    KappaExactly(items);
    ChanceIsSize(items);
    AgreeIsSize(items);
  }

  /** With n items, of which one annotator lists x, the other y, and both s: they agree on n - x - y + 2s, and
      coincide xy + (n - x)(n - y) times. */
  lemma {:induction false} KappaOfMarks(a: Annotation, b: Annotation, ordered: seq<Item>, n: nat, x: nat, y: nat,
          s: nat, agree: int, chance: int)
    requires n == |ordered| && x == |MarkedAt(a, ordered)| && y == |MarkedAt(b, ordered)|
    requires s == |MarkedAt(a, ordered) * MarkedAt(b, ordered)|
    requires agree == n - x - y + 2 * s && chance == x * y + (n - x) * (n - y)
    ensures agree >= 0 && chance >= 0 && IsRatio(PairKappa(a, b, ordered), n, agree, chance)
  {
    var items := Zip(LabelsOf(a, ordered), LabelsOf(b, ordered));
    MarkSizes(a, b, ordered);
    CountsAddUp(items);
    MarkedChance(items, n, x, y, chance);
    CountedKappa(items, agree, chance);
  }

  lemma {:induction false} MarkedChance(items: seq<(Label, Label)>, n: nat, x: nat, y: nat, chance: int)
    requires n == |items| && x == CountA(items, Yes) && y == CountB(items, Yes)
    requires chance == x * y + (n - x) * (n - y)
    ensures x <= n && y <= n && Chance(items) == chance
  {
    CountsAddUp(items);
    ChanceOfTwo(items);
    TwoProductsOf(x, y, CountA(items, No), CountB(items, No), n);
  }

  lemma {:induction false} TwoProductsOf(x: nat, y: nat, u: nat, v: nat, n: nat)
    requires u == n - x && v == n - y
    ensures TwoProducts(x, y, u, v) == x * y + (n - x) * (n - y)
  {
  }

  /** The composition: exactly two annotators make the universe the union of their topics, so kappa is
      1 if they list the same topics and at most 0 if not. */
  lemma {:induction false} TwoAnnotators(anns: map<string, Annotation>, p: string, q: string, ordered: seq<Item>)
    requires anns.Keys == {p, q} && Ordering(ordered, anns)
    ensures SameMarks(anns[p], anns[q]) ==> PairKappa(anns[p], anns[q], ordered) == 1.0
    ensures !SameMarks(anns[p], anns[q]) ==> PairKappa(anns[p], anns[q], ordered) <= 0.0
  {
    var a, b := anns[p], anns[q];
    var items := Zip(LabelsOf(a, ordered), LabelsOf(b, ordered));
    forall i | 0 <= i < |items| ensures items[i] != (No, No) {
      assert ordered[i] in ordered;
      assert InUniverse(anns, ordered[i]);
    }
    assert Identical(items) <==> SameMarks(a, b) by {
      if Identical(items) {
        forall x ensures Marks(a, x) <==> Marks(b, x) {
          if Marks(a, x) || Marks(b, x) {
            assert p in anns && q in anns;
            assert InUniverse(anns, x);
            var i :| 0 <= i < |ordered| && ordered[i] == x;
            assert items[i].0 == items[i].1;
          }
        }
      }
    }
    KappaWithoutIdleItems(items);
  }

  lemma {:induction false} OnePair(ids: seq<string>, anns: map<string, Annotation>, threshold: real, ordered: seq<Item>)
    requires |ids| == 2 && ids[0] in anns && ids[1] in anns
    ensures AllReach(threshold, ids, anns, ordered) <==> threshold <= PairKappa(anns[ids[0]], anns[ids[1]], ordered)
  {
    if threshold <= PairKappa(anns[ids[0]], anns[ids[1]], ordered) {
      forall i, j | 0 <= i < j < |ids| ensures threshold <= PairKappa(anns[ids[i]], anns[ids[j]], ordered) {
        assert i == 0 && j == 1;
      }
    }
  }

  /** So for every threshold above 0 and up to 1 the gate on two annotators passes exactly when they
      list the same topics: no degree of agreement short of identity helps. */
  lemma {:induction false} GateOnTwoMeansIdentical(anns: map<string, Annotation>, p: string, q: string,
          threshold: real, ordered: seq<Item>)
    requires anns.Keys == {p, q} && Ordering(ordered, anns) && 0.0 < threshold <= 1.0
    ensures Decision([p, q], anns, threshold, ordered) == 0 <==> SameMarks(anns[p], anns[q])
  {
    var ids := [p, q];
    assert ids[0] == p && ids[1] == q;
    TwoAnnotators(anns, p, q, ordered);
    OnePair(ids, anns, threshold, ordered);
  }
}
