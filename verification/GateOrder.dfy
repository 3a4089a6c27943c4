/** In which order the refusal gate reports, and that it reports nothing twice. */
module GateOrder {
  import opened Outcomes
  import opened Provenance
  import opened ReportGate
  import opened GateReport

  /** Gate by gate; within a gate by mode, and within a mode by column; the cells of a column in the order in
      which their categories were first missed, and the provenance fields in theirs. */
  ghost predicate Before(results: seq<InstanceResult>, modes: seq<string>, v: Violation, w: Violation) {
    || GateOf(v) < GateOf(w)
    || (match (v, w)
        case (NonMonotone(m, f, _, _), NonMonotone(n, g, _, _)) =>
          Earlier(modes, m, n) || (m == n && Rank(f) < Rank(g))
        case (DominantCell(m, f, c, _, _), DominantCell(n, g, d, _, _)) =>
          || Earlier(modes, m, n)
          || (m == n && (Rank(f) < Rank(g) || (f == g && MissedFirst(results, m, f, c, d))))
        case (ProvenanceDiffers(x, _), ProvenanceDiffers(y, _)) => Earlier(COMPARED, x.key, y.key)
        case (NoteNotGiven(_), NoteNotFound) => true
        case _ => false)
  }

  function GateOf(v: Violation): nat {
    match v
    case NonMonotone(_, _, _, _) => 0
    case DominantCell(_, _, _, _, _) => 1
    case ProvenanceDiffers(_, _) => 2
    case NoteNotGiven(_) => 3
    case NoteNotFound => 3
  }

  function Rank(col: Column): nat {
    match col
    case FileColumn => 0
    case ClassColumn => 1
    case FuncColumn => 2
  }

  ghost predicate Earlier(s: seq<string>, x: string, y: string) {
    exists i, j :: 0 <= i < j < |s| && s[i] == x && s[j] == y
  }

  /** Some instance of category c misses before every one of category d. */
  ghost predicate MissedFirst(results: seq<InstanceResult>, mode: string, col: Column, c: string, d: string) {
    exists i :: i in MissesAs(results, mode, col, c) && forall j | j in MissesAs(results, mode, col, d) :: i < j
  }

  ghost predicate InOrder(results: seq<InstanceResult>, modes: seq<string>, vs: seq<Violation>) {
    forall i, j | 0 <= i < j < |vs| :: Before(results, modes, vs[i], vs[j])
  }

  ghost predicate AllBefore(results: seq<InstanceResult>, modes: seq<string>, a: seq<Violation>, b: seq<Violation>) {
    forall v, w | v in a && w in b :: Before(results, modes, v, w)
  }

  lemma {:induction false} OneAfterTheOther(results: seq<InstanceResult>, modes: seq<string>, a: seq<Violation>,
          b: seq<Violation>)
    requires InOrder(results, modes, a) && InOrder(results, modes, b) && AllBefore(results, modes, a, b)
    ensures InOrder(results, modes, a + b)
  {
    var vs := a + b;
    forall i, j | 0 <= i < j < |vs| ensures Before(results, modes, vs[i], vs[j]) {
      if i < |a| <= j {
        assert vs[i] in a && vs[j] in b;
      } else if j < |a| {
        assert vs[i] == a[i] && vs[j] == a[j];
      } else {
        assert vs[i] == b[i - |a|] && vs[j] == b[j - |a|];
      }
    }
  }

  // ----- cells -----

  /** c stands in the list before d does. */
  ghost predicate FirstIn(misses: seq<string>, c: string, d: string) {
    exists k :: 0 <= k < |misses| && misses[k] == c && d !in misses[..k + 1]
  }

  ghost predicate Rises(misses: seq<string>, categories: seq<string>) {
    forall i, j | 0 <= i < j < |categories| :: FirstIn(misses, categories[i], categories[j])
  }

  lemma {:induction false} FirstInLonger(misses: seq<string>, more: string, c: string, d: string)
    requires FirstIn(misses, c, d)
    ensures FirstIn(misses + [more], c, d)
  {
    var k :| 0 <= k < |misses| && misses[k] == c && d !in misses[..k + 1];
    assert (misses + [more])[..k + 1] == misses[..k + 1];
  }

  lemma {:induction false} FirstInNew(misses: seq<string>, c: string, d: string)
    requires c in misses && d !in misses
    ensures FirstIn(misses + [d], c, d)
  {
    var k :| 0 <= k < |misses| && misses[k] == c;
    assert (misses + [d])[..k + 1] == misses[..k + 1];
    assert forall x | x in misses[..k + 1] :: x in misses;
  }

  lemma {:induction false} CategoriesRise(misses: seq<string>)
    ensures Rises(misses, Categories(misses))
  {
    if misses == [] {
    } else {
      var front, d := misses[..|misses| - 1], misses[|misses| - 1];
      var before, all := Categories(front), Categories(misses);
      CategoriesRise(front);
      CategoriesAreDistinct(front);
      assert misses == front + [d];
      forall i, j | 0 <= i < j < |all| ensures FirstIn(misses, all[i], all[j]) {
        if j < |before| {
          assert FirstIn(front, before[i], before[j]);
          FirstInLonger(front, d, before[i], before[j]);
        } else {
          assert all[i] in before;
          FirstInNew(front, all[i], d);
        }
      }
    }
  }

  lemma {:induction false} RisesOn(misses: seq<string>, front: seq<string>, c: string)
    requires Rises(misses, front) && forall x | x in front :: FirstIn(misses, x, c)
    ensures Rises(misses, front + [c])
  {
  }

  lemma {:induction false} DominantRise(categories: seq<string>, misses: seq<string>)
    requires Rises(misses, categories)
    ensures Rises(misses, DominantAmong(categories, misses))
    ensures forall c | c in DominantAmong(categories, misses) :: c in categories
  {
    if categories == [] {
    } else {
      var n := |categories| - 1;
      var front := DominantAmong(categories[..n], misses);
      DominantRise(categories[..n], misses);
      forall c | c in front ensures FirstIn(misses, c, categories[n]) {
        var i :| 0 <= i < n && categories[..n][i] == c;
        assert categories[i] == c;
      }
      RisesOn(misses, front, categories[n]);
    }
  }

  lemma {:induction false} CellAt(mode: string, col: Column, categories: seq<string>, misses: seq<string>, i: nat)
    requires i < |categories|
    ensures ReportGate.Cells(mode, col, categories, misses)[i]
         == DominantCell(mode, col, categories[i], CountOf(misses, categories[i]), |misses|)
  {
    if i < |categories| - 1 {
      CellAt(mode, col, categories[..|categories| - 1], misses, i);
    }
  }

  // ----- from the list of misses to the instances -----

  function CategoryOf(r: InstanceResult): string {
    if r.category == "" then "Unknown" else r.category
  }

  lemma {:induction false} MissesGrow(results: seq<InstanceResult>, mode: string, col: Column)
    requires results != []
    ensures var front, r := results[..|results| - 1], results[|results| - 1];
      Misses(Attempts(results, mode), col)
      == Misses(Attempts(front, mode), col) + if Missed(r, mode, col) then [CategoryOf(r)] else []
  {
    var r := results[|results| - 1];
    var before, a := Attempts(results[..|results| - 1], mode), AttemptOf(r, mode);
    OneAttempt(r, mode);
    if a == [] {
      assert before + a == before;
    } else {
      assert a == [a[0]] && (before + [a[0]])[..|before|] == before;
    }
  }

  /** The positions grow alike. */
  lemma {:induction false} MissedGrow(results: seq<InstanceResult>, mode: string, col: Column, c: string)
    requires results != []
    ensures var n := |results| - 1;
      MissesAs(results, mode, col, c) == MissesAs(results[..n], mode, col, c)
        + if Missed(results[n], mode, col) && CategoryOf(results[n]) == c then {n} else {}
  {
  }

  lemma {:induction false} NoneMissed(results: seq<InstanceResult>, mode: string, col: Column, d: string)
    ensures d !in Misses(Attempts(results, mode), col) ==> MissesAs(results, mode, col, d) == {}
  {
    CountsAreSizes(results, mode, col, d);
    SomeMiss(Misses(Attempts(results, mode), col), d);
  }

  /** The last miss comes first before d only if d was not missed at all. */
  lemma {:induction false} NewlyFirst(before: seq<string>, last: string, c: string, d: string)
    requires FirstIn(before + [last], c, d) && !FirstIn(before, c, d)
    ensures c == last && d !in before && d != last
  {
    var misses := before + [last];
    var k :| 0 <= k < |misses| && misses[k] == c && d !in misses[..k + 1];
    assert forall i | 0 <= i < |before| :: misses[..i + 1] == before[..i + 1] && misses[i] == before[i];
    assert misses[..|misses|] == misses;
  }

  lemma {:induction false} OldFirst(results: seq<InstanceResult>, mode: string, col: Column, c: string, d: string)
    requires results != [] && MissedFirst(results[..|results| - 1], mode, col, c, d)
    ensures MissedFirst(results, mode, col, c, d)
  {
    var front := results[..|results| - 1];
    var i :| i in MissesAs(front, mode, col, c) && forall j | j in MissesAs(front, mode, col, d) :: i < j;
    MissedGrow(results, mode, col, c);
    MissedGrow(results, mode, col, d);
    assert i in MissesAs(results, mode, col, c);
  }

  lemma {:induction false} NewFirst(results: seq<InstanceResult>, mode: string, col: Column, c: string, d: string)
    requires results != [] && Missed(results[|results| - 1], mode, col)
    requires CategoryOf(results[|results| - 1]) == c != d
    requires d !in Misses(Attempts(results[..|results| - 1], mode), col)
    ensures MissedFirst(results, mode, col, c, d)
  {
    MissedGrow(results, mode, col, c);
    MissedGrow(results, mode, col, d);
    NoneMissed(results[..|results| - 1], mode, col, d);
    assert |results| - 1 in MissesAs(results, mode, col, c);
  }

  lemma {:induction false} FirstMissed(results: seq<InstanceResult>, mode: string, col: Column, c: string, d: string)
    requires FirstIn(Misses(Attempts(results, mode), col), c, d)
    ensures MissedFirst(results, mode, col, c, d)
  {
    var front, r := results[..|results| - 1], results[|results| - 1];
    var before := Misses(Attempts(front, mode), col);
    MissesGrow(results, mode, col);
    assert before + [] == before;
    if FirstIn(before, c, d) {
      FirstMissed(front, mode, col, c, d);
      OldFirst(results, mode, col, c, d);
    } else {
      assert Missed(r, mode, col);
      NewlyFirst(before, CategoryOf(r), c, d);
      NewFirst(results, mode, col, c, d);
    }
  }

  /** The cells of a column come in the order of their categories' first misses. */
  lemma {:induction false} ColumnInOrder(results: seq<InstanceResult>, modes: seq<string>, mode: string, col: Column)
    ensures InOrder(results, modes, CellGate(Attempts(results, mode), mode, col))
  {
    var misses := Misses(Attempts(results, mode), col);
    var refused, vs := RefusedCategories(misses), CellGate(Attempts(results, mode), mode, col);
    CategoriesRise(misses);
    DominantRise(Categories(misses), misses);
    forall i, j | 0 <= i < j < |vs| ensures Before(results, modes, vs[i], vs[j]) {
      CellAt(mode, col, refused, misses, i);
      CellAt(mode, col, refused, misses, j);
      FirstMissed(results, mode, col, refused[i], refused[j]);
    }
  }

  /** Cells of one mode, in columns up to this one. */
  predicate CellsUpTo(vs: seq<Violation>, mode: string, rank: nat) {
    forall v | v in vs :: v.DominantCell? && v.mode == mode && Rank(v.column) <= rank
  }

  lemma {:induction false} ColumnAfterColumns(results: seq<InstanceResult>, modes: seq<string>, mode: string,
          col: Column, a: seq<Violation>)
    requires Rank(col) > 0 && InOrder(results, modes, a) && CellsUpTo(a, mode, Rank(col) - 1)
    ensures var b := CellGate(Attempts(results, mode), mode, col);
      InOrder(results, modes, a + b) && CellsUpTo(a + b, mode, Rank(col))
  {
    var misses := Misses(Attempts(results, mode), col);
    ColumnInOrder(results, modes, mode, col);
    CellsAreCells(mode, col, RefusedCategories(misses), misses);
    OneAfterTheOther(results, modes, a, CellGate(Attempts(results, mode), mode, col));
  }

  lemma {:induction false} ModeInOrder(results: seq<InstanceResult>, modes: seq<string>, mode: string)
    ensures InOrder(results, modes, ModeCells(Attempts(results, mode), mode))
    ensures About(ModeCells(Attempts(results, mode), mode), 1, [mode])
  {
    var attempts := Attempts(results, mode);
    var misses := Misses(attempts, FileColumn);
    var file, cls := CellGate(attempts, mode, FileColumn), CellGate(attempts, mode, ClassColumn);
    ColumnInOrder(results, modes, mode, FileColumn);
    CellsAreCells(mode, FileColumn, RefusedCategories(misses), misses);
    ColumnAfterColumns(results, modes, mode, ClassColumn, file);
    ColumnAfterColumns(results, modes, mode, FuncColumn, file + cls);
    CellsAreAbout(ModeCells(attempts, mode), mode);
  }

  lemma {:induction false} CellsAreAbout(vs: seq<Violation>, mode: string)
    requires CellsUpTo(vs, mode, 2)
    ensures About(vs, 1, [mode])
  {
  }

  // ----- mode by mode -----

  /** All are from one gate that goes through the modes, and about these. */
  predicate About(vs: seq<Violation>, gate: nat, modes: seq<string>) {
    forall v | v in vs :: GateOf(v) == gate && (v.NonMonotone? || v.DominantCell?) && v.mode in modes
  }

  lemma {:induction false} EarlierThanLast(s: seq<string>, k: nat, x: string)
    requires k < |s| && x in s[..k]
    ensures Earlier(s, x, s[k])
  {
    var i :| 0 <= i < k && s[..k][i] == x;
    assert s[i] == x;
  }

  lemma {:induction false} ModeAfterModes(results: seq<InstanceResult>, modes: seq<string>, gate: nat, k: nat,
          a: seq<Violation>, b: seq<Violation>)
    requires k < |modes| && About(a, gate, modes[..k]) && About(b, gate, [modes[k]])
    ensures AllBefore(results, modes, a, b) && About(a + b, gate, modes[..k + 1])
  {
    forall v, w | v in a && w in b ensures Before(results, modes, v, w) {
      assert w.mode == modes[k];
      EarlierThanLast(modes, k, v.mode);
    }
    assert modes[..k + 1] == modes[..k] + [modes[k]];
  }

  lemma {:induction false} InTurnInOrder(results: seq<InstanceResult>, modes: seq<string>, gate: nat,
          said: string -> seq<Violation>, k: nat)
    requires k <= |modes|
    requires forall mode :: InOrder(results, modes, said(mode)) && About(said(mode), gate, [mode])
    ensures InOrder(results, modes, InTurnOf(modes[..k], said)) && About(InTurnOf(modes[..k], said), gate, modes[..k])
    decreases k
  {
    if k == 0 {
    } else {
      var before, more := InTurnOf(modes[..k - 1], said), said(modes[k - 1]);
      InTurnInOrder(results, modes, gate, said, k - 1);
      assert modes[..k][..k - 1] == modes[..k - 1];
      ModeAfterModes(results, modes, gate, k - 1, before, more);
      OneAfterTheOther(results, modes, before, more);
    }
  }

  lemma {:induction false} CellsInOrder(results: seq<InstanceResult>, modes: seq<string>)
    ensures InOrder(results, modes, AllCells(results, modes)) && About(AllCells(results, modes), 1, modes)
  {
    var said := (mode: string) => ModeCells(Attempts(results, mode), mode);
    forall mode ensures InOrder(results, modes, said(mode)) && About(said(mode), 1, [mode]) {
      ModeInOrder(results, modes, mode);
    }
    InTurnInOrder(results, modes, 1, said, |modes|);
    assert modes[..|modes|] == modes;
    AllCellsInTurn(results, modes);
  }

  // ----- the other gates -----

  lemma {:induction false} MonotoneInOrder(results: seq<InstanceResult>, modes: seq<string>, accepted: bool)
    ensures InOrder(results, modes, AllMonotone(results, modes, accepted))
    ensures About(AllMonotone(results, modes, accepted), 0, modes)
  {
    var said := (mode: string) => MonotoneGate(Attempts(results, mode), mode, accepted);
    forall mode ensures InOrder(results, modes, said(mode)) && About(said(mode), 0, [mode]) {
    }
    InTurnInOrder(results, modes, 0, said, |modes|);
    assert modes[..|modes|] == modes;
    AllMonotoneInTurn(results, modes, accepted);
  }

  /** The differing fields come in the order of the compared ones. */
  ghost predicate FieldsRise(ms: seq<Mismatch>, k: nat)
    requires k <= |COMPARED|
  {
    && (forall i, j | 0 <= i < j < |ms| :: Earlier(COMPARED, ms[i].key, ms[j].key))
    && forall i | 0 <= i < |ms| :: ms[i].key in COMPARED[..k]
  }

  lemma {:induction false} FieldsRiseOn(ms: seq<Mismatch>, m: Mismatch, k: nat)
    requires k < |COMPARED| && FieldsRise(ms, k) && m.key == COMPARED[k]
    ensures FieldsRise(ms, k + 1) && FieldsRise(ms + [m], k + 1)
  {
    assert COMPARED[..k + 1] == COMPARED[..k] + [COMPARED[k]];
    forall i | 0 <= i < |ms| ensures Earlier(COMPARED, ms[i].key, m.key) {
      EarlierThanLast(COMPARED, k, ms[i].key);
    }
  }

  lemma {:induction false} FieldsInOrder(current: Manifest, baseline: Manifest, k: nat)
    requires k <= |COMPARED|
    ensures FieldsRise(Mismatches(current, baseline, COMPARED[..k]), k)
  {
    if k == 0 {
    } else {
      var keys, key := COMPARED[..k - 1], COMPARED[k - 1];
      var before, at := Mismatches(current, baseline, keys), MismatchAt(current, baseline, key);
      FieldsInOrder(current, baseline, k - 1);
      FieldsRiseOn(before, Mismatch(key, "", ""), k - 1);
      MismatchesSnoc(current, baseline, COMPARED[..k], keys, key);
      if at == [] {
        assert before + at == before;
      } else {
        assert at == [at[0]];
        FieldsRiseOn(before, at[0], k - 1);
      }
    }
  }

  lemma {:induction false} MismatchesSnoc(current: Manifest, baseline: Manifest, all: seq<string>, keys: seq<string>,
          key: string)
    requires |all| == |keys| + 1 && all[..|keys|] == keys && all[|keys|] == key
    ensures Mismatches(current, baseline, all)
         == Mismatches(current, baseline, keys) + MismatchAt(current, baseline, key)
  {
  }

  lemma {:induction false} ProvenanceInOrder(results: seq<InstanceResult>, modes: seq<string>, o: Options)
    ensures InOrder(results, modes, ProvenanceGate(o))
    ensures forall v | v in ProvenanceGate(o) :: v.ProvenanceDiffers?
  {
    if o.baseline.Some? {
      var ms := Mismatches(o.current, o.baseline.value, COMPARED);
      FieldsInOrder(o.current, o.baseline.value, |COMPARED|);
      assert COMPARED[..|COMPARED|] == COMPARED;
      MismatchesInOrder(results, modes, ms, o.acceptProvenance != "");
    }
  }

  lemma {:induction false} MismatchesInOrder(results: seq<InstanceResult>, modes: seq<string>, ms: seq<Mismatch>,
          accepted: bool)
    requires FieldsRise(ms, |COMPARED|)
    ensures InOrder(results, modes, AsViolations(ms, accepted))
  {
    var vs := AsViolations(ms, accepted);
    forall i, j | 0 <= i < j < |vs| ensures Before(results, modes, vs[i], vs[j]) {
      assert vs[i] == ProvenanceDiffers(ms[i], accepted) && vs[j] == ProvenanceDiffers(ms[j], accepted);
    }
  }

  // ----- the report -----

  lemma {:induction false} GateAfterGates(results: seq<InstanceResult>, modes: seq<string>, gate: nat,
          a: seq<Violation>, b: seq<Violation>)
    requires InOrder(results, modes, a) && InOrder(results, modes, b)
    requires (forall v | v in a :: GateOf(v) < gate) && forall w | w in b :: GateOf(w) == gate
    ensures InOrder(results, modes, a + b) && forall v | v in a + b :: GateOf(v) < gate + 1
  {
    OneAfterTheOther(results, modes, a, b);
  }

  /** The whole report is in that order. */
  lemma {:induction false} ReportedInOrder(results: seq<InstanceResult>, modes: seq<string>, o: Options)
    ensures InOrder(results, modes, Violations(results, modes, o))
  {
    var accepted := o.acceptNonMonotone != "";
    var monotone, cells := AllMonotone(results, modes, accepted), CellsUnlessAllowed(results, modes, o);
    MonotoneInOrder(results, modes, accepted);
    CellsInOrder(results, modes);
    ProvenanceInOrder(results, modes, o);
    GateAfterGates(results, modes, 1, monotone, cells);
    GateAfterGates(results, modes, 2, monotone + cells, ProvenanceGate(o));
    NotesInOrder(results, modes, o);
    GateAfterGates(results, modes, 3, monotone + cells + ProvenanceGate(o), ComparatorGate(o));
  }

  lemma {:induction false} NotesInOrder(results: seq<InstanceResult>, modes: seq<string>, o: Options)
    ensures InOrder(results, modes, ComparatorGate(o)) && forall v | v in ComparatorGate(o) :: GateOf(v) == 3
  {
  }

  /** Over different modes nothing is reported twice. */
  lemma {:induction false} ReportedOnce(results: seq<InstanceResult>, modes: seq<string>, o: Options)
    requires Distinct(modes)
    ensures Distinct(Violations(results, modes, o))
  {
    var vs := Violations(results, modes, o);
    ReportedInOrder(results, modes, o);
    forall i, j | 0 <= i < j < |vs| ensures vs[i] != vs[j] {
      assert Before(results, modes, vs[i], vs[j]);
      NotBeforeItself(results, modes, vs[i]);
    }
  }

  lemma {:induction false} NotBeforeItself(results: seq<InstanceResult>, modes: seq<string>, v: Violation)
    requires Distinct(modes)
    ensures !Before(results, modes, v, v)
  {
    assert Distinct(COMPARED);
  }
}
