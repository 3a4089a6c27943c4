/** The accuracy report's set algebra: measured edges against the oracle's, with exact rational scores. */
module EdgeMetrics {
  import opened Outcomes

  /** An edge's identity: caller, callee and edge type. */
  datatype Key = Key(caller: string, callee: string, kind: string)

  datatype Edge = Edge(key: Key, file: string)

  /** One comparison: true positives, false positives, false negatives. */
  datatype Comparison<!K> = Comparison(tp: set<K>, fp: set<K>, fn: set<K>)

  datatype Scores = Scores(precision: real, recall: real, f1: real)

  function Keys(edges: seq<Edge>): set<Key> {
    set e | e in edges :: e.key
  }

  function Callers(edges: seq<Edge>): set<string> {
    set e | e in edges :: e.key.caller
  }

  function Compare<K>(oracle: set<K>, measured: set<K>): Comparison<K> {
    Comparison(oracle * measured, measured - oracle, oracle - measured)
  }

  function Exact(oracle: seq<Edge>, measured: seq<Edge>): Comparison<Key> {
    Compare(Keys(oracle), Keys(measured))
  }

  /** Callers with at least one edge, on either side, recorded in a test file. */
  function TestCallers(oracle: seq<Edge>, measured: seq<Edge>, isTest: string -> bool): set<string> {
    (set e | e in measured && isTest(e.file) :: e.key.caller) +
    (set e | e in oracle && isTest(e.file) :: e.key.caller)
  }

  function InScope(keys: set<Key>, callers: set<string>): set<Key> {
    set k | k in keys && k.caller in callers
  }

  /** The measured side: confirmed edges stay, unconfirmed ones only if their caller is no test caller. */
  function MeasuredScoped(oracle: seq<Edge>, measured: seq<Edge>, isTest: string -> bool): set<Key> {
    var oracleScoped := InScope(Keys(oracle), Callers(oracle));
    var raw := InScope(Keys(measured), Callers(oracle));
    var tests := TestCallers(oracle, measured, isTest);
    raw * oracleScoped + set k | k in raw - oracleScoped && k.caller !in tests
  }

  function ScopeAligned(oracle: seq<Edge>, measured: seq<Edge>, isTest: string -> bool): Comparison<Key> {
    Compare(InScope(Keys(oracle), Callers(oracle)), MeasuredScoped(oracle, measured, isTest))
  }

  /** The stricter operating point: measured edges marked speculative are dropped.  `bands` is empty when
      the index does not emit confidence bands, and then nothing is dropped. */
  function HighConfidence(oracle: seq<Edge>, measured: seq<Edge>, isTest: string -> bool, bands: map<Key, string>)
    : Comparison<Key>
  {
    if bands == map[] then ScopeAligned(oracle, measured, isTest)
    else
      Compare(InScope(Keys(oracle), Callers(oracle)),
              set k | k in MeasuredScoped(oracle, measured, isTest)
                      && !(k in bands && bands[k] == "speculative-janusian"))
  }

  /** Both sides seen through a key that may reject an edge (too few segments for a suffix, say). */
  function Mapped<K, L>(f: K -> Option<L>, keys: set<K>): set<L> {
    set k | k in keys && f(k).Some? :: f(k).value
  }

  function CompareMapped<K, L>(f: K -> Option<L>, oracle: set<K>, measured: set<K>): Comparison<L> {
    Compare(Mapped(f, oracle), Mapped(f, measured))
  }

  function Ratio(part: nat, whole: nat): real
    requires part <= whole
  {
    if whole == 0 then 0.0 else part as real / whole as real
  }

  function Harmonic(p: real, r: real): real
    requires p >= 0.0 && r >= 0.0
  {
    if p + r == 0.0 then 0.0 else 2.0 * p * r / (p + r)
  }

  function Score(tp: nat, fp: nat, fn: nat): Scores {
    var p, r := Ratio(tp, tp + fp), Ratio(tp, tp + fn);
    Scores(p, r, Harmonic(p, r))
  }

  function ScoreOf<K>(c: Comparison<K>): Scores {
    Score(|c.tp|, |c.fp|, |c.fn|)
  }

  // ---- Scope alignment ----

  /** Scope alignment removes false positives and nothing else, and exactly those whose caller the oracle
      never analysed or whose caller is a test caller. */
  lemma {:induction false} AlignmentDropsOnlyFalsePositives(oracle: seq<Edge>, measured: seq<Edge>,
          isTest: string -> bool)
    ensures var exact, scoped := Exact(oracle, measured), ScopeAligned(oracle, measured, isTest);
            && scoped.tp == exact.tp && scoped.fn == exact.fn
            && forall k :: k in scoped.fp <==>
                 k in exact.fp && k.caller in Callers(oracle) && k.caller !in TestCallers(oracle, measured, isTest)
  {
    assert InScope(Keys(oracle), Callers(oracle)) == Keys(oracle);
  }

  lemma {:induction false} SubsetSize<K>(a: set<K>, b: set<K>)
    requires a <= b
    ensures |a| <= |b|
    ensures |a| == |b| ==> a == b
  {
    assert b == a + (b - a);
  }

  lemma {:induction false} RatioFalls(part: nat, small: nat, large: nat)
    requires part <= small <= large
    ensures Ratio(part, small) >= Ratio(part, large) >= 0.0
    ensures part > 0 && small < large ==> Ratio(part, small) > Ratio(part, large)
  {
    if small > 0 {
      var p, s, l := part as real, small as real, large as real;
      assert (p / s) * s == p && (p / l) * l == p;
      assert p / s - p / l == p * (l - s) / (s * l);
    }
  }

  /** F1 written with counts: twice the hits over hits plus misses on both sides. */
  lemma {:induction false} F1FromCounts(tp: nat, fp: nat, fn: nat)
    ensures Score(tp, fp, fn).f1 == Ratio(2 * tp, 2 * tp + fp + fn)
  {
    if tp > 0 {
      var t, m, o := tp as real, (tp + fp) as real, (tp + fn) as real;
      HarmonicOfQuotients(t, m, o);
      assert m + o == (2 * tp + fp + fn) as real;
    }
  }

  lemma {:induction false} HarmonicOfQuotients(t: real, m: real, o: real)
    requires t > 0.0 && m >= t && o >= t
    ensures t / m > 0.0 && t / o > 0.0
    ensures Harmonic(t / m, t / o) == 2.0 * t / (m + o)
  {
    var p, r := t / m, t / o;
    assert p * m == t && r * o == t;
    assert p + r > 0.0;
    var h := Harmonic(p, r);
    assert h * (p + r) == 2.0 * p * r;
    ClearDenominators(h, p, r, t, m, o);
  }

  lemma {:induction false} ClearDenominators(h: real, p: real, r: real, t: real, m: real, o: real)
    requires t > 0.0 && m > 0.0 && o > 0.0
    requires p * m == t && r * o == t && h * (p + r) == 2.0 * p * r
    ensures h == 2.0 * t / (m + o)
  {
    calc {
      h * t * (m + o);
      h * (t * o + t * m);
      h * (p * m * o + r * o * m);
      h * (p + r) * (m * o);
      2.0 * p * r * (m * o);
      2.0 * (p * m) * (r * o);
      2.0 * t * t;
    }
    assert t * (h * (m + o) - 2.0 * t) == 0.0;
  }

  lemma {:induction false} FewerFalsePositives(tp: nat, few: nat, many: nat, fn: nat)
    requires few <= many
    ensures var better, worse := Score(tp, few, fn), Score(tp, many, fn);
            && better.recall == worse.recall
            && better.precision >= worse.precision
            && better.f1 >= worse.f1
            && (tp > 0 && few < many ==> better.precision > worse.precision && better.f1 > worse.f1)
  {
    RatioFalls(tp, tp + few, tp + many);
    F1FromCounts(tp, few, fn);
    F1FromCounts(tp, many, fn);
    RatioFalls(2 * tp, 2 * tp + few + fn, 2 * tp + many + fn);
  }

  /** Recall is untouched by scope alignment; precision and F1 never fall, and both rise as soon as one
      false positive is dropped beside a true positive. */
  lemma {:induction false} AlignmentNeverHurts(oracle: seq<Edge>, measured: seq<Edge>, isTest: string -> bool)
    ensures var exact, scoped := Exact(oracle, measured), ScopeAligned(oracle, measured, isTest);
            && ScoreOf(scoped).recall == ScoreOf(exact).recall
            && ScoreOf(scoped).precision >= ScoreOf(exact).precision
            && ScoreOf(scoped).f1 >= ScoreOf(exact).f1
            && (exact.tp != {} && scoped.fp != exact.fp ==>
                  ScoreOf(scoped).precision > ScoreOf(exact).precision && ScoreOf(scoped).f1 > ScoreOf(exact).f1)
  {
    var exact, scoped := Exact(oracle, measured), ScopeAligned(oracle, measured, isTest);
    AlignmentDropsOnlyFalsePositives(oracle, measured, isTest);
    SubsetSize(scoped.fp, exact.fp);
    FewerFalsePositives(|exact.tp|, |scoped.fp|, |exact.fp|, |exact.fn|);
  }

  lemma {:induction false} NarrowingSets<K>(oracle: set<K>, measured: set<K>, narrow: set<K>)
    requires narrow <= measured
    ensures var all, high := Compare(oracle, measured), Compare(oracle, narrow);
            high.tp <= all.tp && high.fp <= all.fp && high.fn == all.fn + (all.tp - high.tp)
  {
  }

  lemma {:induction false} NarrowingTrades<K>(oracle: set<K>, measured: set<K>, narrow: set<K>)
    requires narrow <= measured
    ensures var all, high := Compare(oracle, measured), Compare(oracle, narrow);
            && |high.tp| + |high.fn| == |all.tp| + |all.fn|
            && ScoreOf(high).recall <= ScoreOf(all).recall
  {
    NarrowingSets(oracle, measured, narrow);
    OracleIsSplit(oracle, measured);
    OracleIsSplit(oracle, narrow);
    var all, high := Compare(oracle, measured), Compare(oracle, narrow);
    SubsetSize(high.tp, all.tp);
    RatioGrows(|high.tp|, |all.tp|, |oracle|);
  }

  /** Every oracle edge is found or missed. */
  lemma {:induction false} OracleIsSplit<K>(oracle: set<K>, measured: set<K>)
    ensures var c := Compare(oracle, measured); |c.tp| + |c.fn| == |oracle|
  {
    var c := Compare(oracle, measured);
    assert c.tp + c.fn == oracle && c.tp * c.fn == {};
  }

  /** Dropping speculative edges turns true positives into false negatives one for one and adds nothing. */
  lemma {:induction false} HighConfidenceTrades(oracle: seq<Edge>, measured: seq<Edge>, isTest: string -> bool,
          bands: map<Key, string>)
    ensures var all, high := ScopeAligned(oracle, measured, isTest), HighConfidence(oracle, measured, isTest, bands);
            && high.tp <= all.tp && high.fp <= all.fp
            && high.fn == all.fn + (all.tp - high.tp)
            && |high.tp| + |high.fn| == |all.tp| + |all.fn|
            && ScoreOf(high).recall <= ScoreOf(all).recall
  {
    if bands != map[] {
      var whole, measuredScoped := InScope(Keys(oracle), Callers(oracle)), MeasuredScoped(oracle, measured, isTest);
      var narrow := set k | k in measuredScoped && !(k in bands && bands[k] == "speculative-janusian");
      NarrowingSets(whole, measuredScoped, narrow);
      NarrowingTrades(whole, measuredScoped, narrow);
    }
  }

  lemma {:induction false} RatioGrows(less: nat, more: nat, whole: nat)
    requires less <= more <= whole
    ensures Ratio(less, whole) <= Ratio(more, whole)
  {
  }

  // ---- Key maps ----

  lemma {:induction false} MappedSize<K, L>(f: K -> Option<L>, keys: set<K>)
    ensures |Mapped(f, keys)| <= |keys|
    decreases |keys|
  {
    if keys == {} {
      assert Mapped(f, keys) == {};
    } else {
      var k :| k in keys;
      var rest := keys - {k};
      MappedSize(f, rest);
      if f(k).Some? {
        assert Mapped(f, keys) == Mapped(f, rest) + {f(k).value};
      } else {
        assert Mapped(f, keys) == Mapped(f, rest);
      }
    }
  }

  /** For every key map applied to both sides, false positives and false negatives never become more
      numerous: what is unmatched after mapping is the image of something unmatched before. */
  lemma {:induction false} KeyMapsNeverAddErrors<K, L>(f: K -> Option<L>, oracle: set<K>, measured: set<K>)
    ensures var before, after := Compare(oracle, measured), CompareMapped(f, oracle, measured);
            && after.fp <= Mapped(f, before.fp) && after.fn <= Mapped(f, before.fn)
            && Mapped(f, before.tp) <= after.tp
            && |after.fp| <= |before.fp| && |after.fn| <= |before.fn|
  {
    var before, after := Compare(oracle, measured), CompareMapped(f, oracle, measured);
    MappedSize(f, before.fp);
    MappedSize(f, before.fn);
    SubsetSize(after.fp, Mapped(f, before.fp));
    SubsetSize(after.fn, Mapped(f, before.fn));
  }

  ghost predicate Separates<K(!new), L>(f: K -> Option<L>, keys: set<K>) {
    && (forall k :: k in keys ==> f(k).Some?)
    && forall j, k :: j in keys && k in keys && f(j) == f(k) ==> j == k
  }

  lemma {:induction false} SeparatedSize<K(!new), L>(f: K -> Option<L>, keys: set<K>)
    requires Separates(f, keys)
    ensures |Mapped(f, keys)| == |keys|
    decreases |keys|
  {
    if keys == {} {
      assert Mapped(f, keys) == {};
    } else {
      var k :| k in keys;
      var rest := keys - {k};
      SeparatedSize(f, rest);
      assert Mapped(f, keys) == Mapped(f, rest) + {f(k).value};
    }
  }

  /** A key that tells all edges of both sides apart leaves every score as it was. */
  lemma {:induction false} SeparatingKeysChangeNothing<K(!new), L>(f: K -> Option<L>, oracle: set<K>, measured: set<K>)
    requires Separates(f, oracle + measured)
    ensures ScoreOf(CompareMapped(f, oracle, measured)) == ScoreOf(Compare(oracle, measured))
  {
    var before, after := Compare(oracle, measured), CompareMapped(f, oracle, measured);
    assert after.tp == Mapped(f, before.tp);
    assert after.fp == Mapped(f, before.fp);
    assert after.fn == Mapped(f, before.fn);
    SeparatedSize(f, before.tp);
    SeparatedSize(f, before.fp);
    SeparatedSize(f, before.fn);
  }

  lemma {:induction false} RatioRises(part: nat, miss: nat, part': nat, miss': nat)
    requires part <= part' && miss' <= miss
    ensures Ratio(part, part + miss) <= Ratio(part', part' + miss')
  {
    if part > 0 {
      var p, m, p', m' := part as real, miss as real, part' as real, miss' as real;
      var r, r' := Ratio(part, part + miss), Ratio(part', part' + miss');
      assert r * (p + m) == p && r' * (p' + m') == p';
      CrossProducts(p, m, p', m');
      assert (r' - r) * ((p + m) * (p' + m')) == p' * (p + m) - p * (p' + m');
    }
  }

  lemma {:induction false} CrossProducts(p: real, m: real, p': real, m': real)
    requires 0.0 < p <= p' && 0.0 <= m' <= m
    ensures p * (p' + m') <= p' * (p + m)
    ensures (p + m) * (p' + m') > 0.0
  {
    assert p * m' <= p' * m' <= p' * m;
  }

  /** At least as many hits and no more misses on either side: no score falls. */
  lemma {:induction false} BetterCounts(tp: nat, fp: nat, fn: nat, tp': nat, fp': nat, fn': nat)
    requires tp <= tp' && fp' <= fp && fn' <= fn
    ensures AtLeast(Score(tp', fp', fn'), Score(tp, fp, fn))
  {
    RatioRises(tp, fp, tp', fp');
    RatioRises(tp, fn, tp', fn');
    F1FromCounts(tp, fp, fn);
    F1FromCounts(tp', fp', fn');
    RatioRises(2 * tp, fp + fn, 2 * tp', fp' + fn');
  }

  predicate AtLeast(a: Scores, b: Scores) {
    a.precision >= b.precision && a.recall >= b.recall && a.f1 >= b.f1
  }

  ghost function Relaxed<K, L>(f: K -> Option<L>, oracle: set<K>, measured: set<K>): Scores {
    ScoreOf(CompareMapped(f, oracle, measured))
  }

  /** A key that tells the confirmed edges apart, whatever it does to all others, lowers no score. */
  lemma {:induction false} RelaxingNeverHurts<K(!new), L>(f: K -> Option<L>, oracle: set<K>, measured: set<K>)
    requires Separates(f, oracle * measured)
    ensures AtLeast(Relaxed(f, oracle, measured), ScoreOf(Compare(oracle, measured)))
  {
    var before, after := Compare(oracle, measured), CompareMapped(f, oracle, measured);
    KeyMapsNeverAddErrors(f, oracle, measured);
    SeparatedSize(f, before.tp);
    SubsetSize(Mapped(f, before.tp), after.tp);
    BetterCounts(|before.tp|, |before.fp|, |before.fn|, |after.tp|, |after.fp|, |after.fn|);
  }

  // ---- Which keys can lower a score ----

  ghost predicate Lowers<K(!new), L>(f: K -> Option<L>, oracle: set<K>, measured: set<K>) {
    !AtLeast(Relaxed(f, oracle, measured), ScoreOf(Compare(oracle, measured)))
  }

  ghost predicate CanLower<K(!new), L>(f: K -> Option<L>) {
    exists oracle, measured :: Lowers(f, oracle, measured)
  }

  /** The key rejects some edge, or merges two while telling them from a third. */
  ghost predicate RejectsOrPartlyMerges<K(!new), L>(f: K -> Option<L>) {
    || (exists k :: f(k).None?)
    || (exists a, b, c :: a != b && f(a) == f(b) && f(c) != f(a))
  }

  lemma {:induction false} RejectingLowers<K(!new), L>(f: K -> Option<L>, k: K)
    requires f(k).None?
    ensures Lowers(f, {k}, {k})
  {
    assert Mapped(f, {k}) == {};
    assert Compare({k}, {k}) == Comparison({k}, {}, {});
    var none: set<L> := {};
    assert Compare(none, none) == Comparison({}, {}, {});
  }

  /** A key may also merge two true positives, and then the scores can fall. */
  lemma {:induction false} MergingLowersScores<K(!new), L>(f: K -> Option<L>, a: K, b: K, wrong: K)
    requires a != b && f(a) == f(b) && f(a).Some?
    requires f(wrong).Some? && f(wrong) != f(a)
    ensures var before, after := ScoreOf(Compare({a, b}, {a, b, wrong})), Relaxed(f, {a, b}, {a, b, wrong});
            after.precision < before.precision && after.f1 < before.f1
  {
    var oracle, measured := {a, b}, {a, b, wrong};
    var x, y := f(a).value, f(wrong).value;
    assert Mapped(f, oracle) == {x};
    assert Mapped(f, measured) == {x, y};
    assert Compare(oracle, measured) == Comparison({a, b}, {wrong}, {});
    assert Compare({x}, {x, y}) == Comparison({x}, {y}, {});
    F1FromCounts(2, 1, 0);
    F1FromCounts(1, 1, 0);
  }

  lemma {:induction false} ConstantImage<K(!new), L>(f: K -> Option<L>, x: L, keys: set<K>)
    requires forall k :: f(k) == Some(x)
    ensures Mapped(f, keys) == if keys == {} then {} else {x}
  {
    if keys != {} {
      var k :| k in keys;
      assert f(k).value == x;
    }
  }

  lemma {:induction false} RatioAtMostOne(part: nat, whole: nat)
    requires part <= whole
    ensures Ratio(part, whole) <= 1.0
  {
  }

  lemma {:induction false} PerfectIsBest(tp: nat, fp: nat, fn: nat)
    ensures AtLeast(Score(1, 0, 0), Score(tp, fp, fn))
  {
    F1FromCounts(tp, fp, fn);
    F1FromCounts(1, 0, 0);
    RatioAtMostOne(tp, tp + fp);
    RatioAtMostOne(tp, tp + fn);
    RatioAtMostOne(2 * tp, 2 * tp + fp + fn);
  }

  /** A key that maps every edge to the same one turns any comparison with two sides into a perfect one. */
  lemma {:induction false} ConstantNeverLowers<K(!new), L>(f: K -> Option<L>, x: L, oracle: set<K>, measured: set<K>)
    requires (forall k :: f(k) == Some(x)) && oracle != {} && measured != {}
    ensures !Lowers(f, oracle, measured)
  {
    ConstantImage(f, x, oracle);
    ConstantImage(f, x, measured);
    var before := Compare(oracle, measured);
    assert Compare({x}, {x}) == Comparison({x}, {}, {});
    PerfectIsBest(|before.tp|, |before.fp|, |before.fn|);
  }

  lemma {:induction false} NoPartialMerge<K(!new), L>(f: K -> Option<L>, oracle: set<K>, measured: set<K>)
    requires !RejectsOrPartlyMerges(f)
    ensures !Lowers(f, oracle, measured)
  {
    if Separates(f, oracle * measured) {
      RelaxingNeverHurts(f, oracle, measured);
    } else {
      var a, b :| a in oracle * measured && b in oracle * measured && a != b && f(a) == f(b);
      assert forall k :: f(k) == f(a);
      ConstantNeverLowers(f, f(a).value, oracle, measured);
    }
  }

  lemma {:induction false} PartialMerge<K(!new), L>(f: K -> Option<L>) returns (oracle: set<K>, measured: set<K>)
    requires RejectsOrPartlyMerges(f)
    ensures Lowers(f, oracle, measured)
  {
    if k :| f(k).None? {
      RejectingLowers(f, k);
      return {k}, {k};
    }
    var a, b, c :| a != b && f(a) == f(b) && f(c) != f(a);
    MergingLowersScores(f, a, b, c);
    return {a, b}, {a, b, c};
  }

  /** A key lowers some score of some pair of edge sets exactly when it rejects an edge, or merges two
      edges while a third has another image. */
  lemma {:induction false} LowersExactly<K(!new), L>(f: K -> Option<L>)
    ensures CanLower(f) <==> RejectsOrPartlyMerges(f)
  {
    if RejectsOrPartlyMerges(f) {
      var oracle, measured := PartialMerge(f);
    } else {
      forall oracle, measured ensures !Lowers(f, oracle, measured) {
        NoPartialMerge(f, oracle, measured);
      }
    }
  }
}
