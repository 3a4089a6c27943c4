/** What the refusal gate reports, on the results and the options themselves. */
module GateReport {
  import opened Outcomes
  import opened Scorer
  import opened ReportGate

  // ----- instances -----

  /** The j-th result is the first one in this mode. */
  predicate FirstAt(rs: seq<ModeResult>, mode: string, j: nat) {
    j < |rs| && rs[j].mode == mode && forall k | 0 <= k < j :: rs[k].mode != mode
  }

  /** An indexed instance with a result in the mode. */
  predicate Ran(r: InstanceResult, mode: string) {
    r.indexed && exists j :: 0 <= j < |r.modeResults| && FirstAt(r.modeResults, mode, j)
  }

  /** Its first result there hits the column. */
  predicate Hit(r: InstanceResult, mode: string, col: Column) {
    && r.indexed
    && exists j :: 0 <= j < |r.modeResults| && FirstAt(r.modeResults, mode, j) && HitBy(r.modeResults[j].hits, col)
  }

  predicate HitBy(h: Hits, col: Column) {
    (col == FileColumn && h.file) || (col == ClassColumn && h.cls) || (col == FuncColumn && h.func)
  }

  predicate Missed(r: InstanceResult, mode: string, col: Column) {
    Ran(r, mode) && !Hit(r, mode, col)
  }

  predicate OfCategory(r: InstanceResult, category: string) {
    if r.category == "" then category == "Unknown" else category == r.category
  }

  function Runs(results: seq<InstanceResult>, mode: string): set<int> {
    Indices(results, r => Ran(r, mode))
  }

  function HitsIn(results: seq<InstanceResult>, mode: string, col: Column): set<int> {
    Indices(results, r => Hit(r, mode, col))
  }

  function MissesIn(results: seq<InstanceResult>, mode: string, col: Column): set<int> {
    Indices(results, r => Missed(r, mode, col))
  }

  function MissesAs(results: seq<InstanceResult>, mode: string, col: Column, category: string): set<int> {
    Indices(results, r => Missed(r, mode, col) && OfCategory(r, category))
  }

  lemma {:induction false} FirstOfIsFirst(rs: seq<ModeResult>, mode: string, j: nat)
    requires FirstAt(rs, mode, j)
    ensures FirstOf(rs, mode) == Some(rs[j])
  {
    if j == 0 {
    } else {
      FirstOfIsFirst(rs[1..], mode, j - 1);
    }
  }

  lemma {:induction false} FirstExists(rs: seq<ModeResult>, mode: string) returns (j: nat)
    requires FirstOf(rs, mode).Some?
    ensures FirstAt(rs, mode, j)
  {
    if rs[0].mode == mode {
      j := 0;
    } else {
      var k := FirstExists(rs[1..], mode);
      j := k + 1;
    }
  }

  /** The attempt of one instance. */
  lemma {:induction false} OneAttempt(r: InstanceResult, mode: string)
    ensures var a := AttemptOf(r, mode);
      && |a| == (if Ran(r, mode) then 1 else 0)
      && (a != [] ==> OfCategory(r, a[0].category) && forall col :: Reached(a[0].hits, col) <==> Hit(r, mode, col))
  {
    if j :| 0 <= j < |r.modeResults| && FirstAt(r.modeResults, mode, j) {
      FirstOfIsFirst(r.modeResults, mode, j);
      forall k | 0 <= k < |r.modeResults| && FirstAt(r.modeResults, mode, k) ensures k == j {
      }
    } else if FirstOf(r.modeResults, mode).Some? {
      var j := FirstExists(r.modeResults, mode);
    }
  }

  // ----- counting -----

  function Bit(b: bool): nat { if b then 1 else 0 }

  lemma {:induction false} SetsGrow(results: seq<InstanceResult>, mode: string, col: Column, category: string)
    requires results != []
    ensures var n := |results| - 1;
      var front, r := results[..n], results[n];
      && |Runs(results, mode)| == |Runs(front, mode)| + Bit(Ran(r, mode))
      && |HitsIn(results, mode, col)| == |HitsIn(front, mode, col)| + Bit(Hit(r, mode, col))
      && |MissesIn(results, mode, col)| == |MissesIn(front, mode, col)| + Bit(Missed(r, mode, col))
      && |MissesAs(results, mode, col, category)| ==
           |MissesAs(front, mode, col, category)| + Bit(Missed(r, mode, col) && OfCategory(r, category))
  {
    IndicesSnoc(results, r => Ran(r, mode));
    IndicesSnoc(results, r => Hit(r, mode, col));
    IndicesSnoc(results, r => Missed(r, mode, col));
    IndicesSnoc(results, r => Missed(r, mode, col) && OfCategory(r, category));
  }

  lemma {:induction false} AttemptsGrow(attempts: seq<Attempt>, a: Attempt, col: Column, category: string)
    ensures var more := attempts + [a];
      && Count(more, col) == Count(attempts, col) + Bit(Reached(a.hits, col))
      && |Misses(more, col)| == |Misses(attempts, col)| + Bit(!Reached(a.hits, col))
      && CountOf(Misses(more, col), category) ==
           CountOf(Misses(attempts, col), category) + Bit(!Reached(a.hits, col) && a.category == category)
  {
    assert (attempts + [a])[..|attempts|] == attempts;
    var misses := Misses(attempts, col);
    if Reached(a.hits, col) {
      assert misses + [] == misses;
    } else {
      assert (misses + [a.category])[..|misses|] == misses;
    }
  }

  /** The gate's counts are counts of instances. */
  lemma {:induction false} CountsAreSizes(results: seq<InstanceResult>, mode: string, col: Column, category: string)
    ensures var attempts := Attempts(results, mode);
      && |attempts| == |Runs(results, mode)| && Count(attempts, col) == |HitsIn(results, mode, col)|
      && |Misses(attempts, col)| == |MissesIn(results, mode, col)|
      && CountOf(Misses(attempts, col), category) == |MissesAs(results, mode, col, category)|
  {
    if results == [] {
    } else {
      var n := |results| - 1;
      var before, a := Attempts(results[..n], mode), AttemptOf(results[n], mode);
      CountsAreSizes(results[..n], mode, col, category);
      SetsGrow(results, mode, col, category);
      OneAttempt(results[n], mode);
      if a == [] {
        assert before + a == before;
      } else {
        assert a == [a[0]];
        AttemptsGrow(before, a[0], col, category);
      }
    }
  }

  // ----- dominant cells -----

  lemma {:induction false} CellsExactly(mode: string, col: Column, categories: seq<string>, misses: seq<string>,
          v: Violation)
    ensures v in ReportGate.Cells(mode, col, categories, misses) <==>
              v.DominantCell? && v.category in categories
              && v == DominantCell(mode, col, v.category, CountOf(misses, v.category), |misses|)
  {
    if categories == [] {
    } else {
      var front, c := categories[..|categories| - 1], categories[|categories| - 1];
      CellsExactly(mode, col, front, misses, v);
      assert categories == front + [c];
    }
  }

  /** What is said about each mode, in turn. */
  function InTurnOf(modes: seq<string>, said: string -> seq<Violation>): seq<Violation> {
    if modes == [] then [] else InTurnOf(modes[..|modes| - 1], said) + said(modes[|modes| - 1])
  }

  lemma {:induction false} InTurnOfMembers(modes: seq<string>, said: string -> seq<Violation>, v: Violation,
          mode: string)
    requires forall other | v in said(other) :: other == mode
    ensures v in InTurnOf(modes, said) <==> mode in modes && v in said(mode)
  {
    if modes == [] {
    } else {
      var front := modes[..|modes| - 1];
      InTurnOfMembers(front, said, v, mode);
      assert modes == front + [modes[|modes| - 1]];
    }
  }

  lemma {:induction false} AllCellsInTurn(results: seq<InstanceResult>, modes: seq<string>)
    ensures AllCells(results, modes) == InTurnOf(modes, mode => ModeCells(Attempts(results, mode), mode))
  {
    if modes == [] {
    } else {
      AllCellsInTurn(results, modes[..|modes| - 1]);
    }
  }

  lemma {:induction false} InModes(results: seq<InstanceResult>, modes: seq<string>, v: Violation)
    requires v.DominantCell?
    ensures v in AllCells(results, modes) <==>
              v.mode in modes && v in CellGate(Attempts(results, v.mode), v.mode, v.column)
  {
    var said := (mode: string) => ModeCells(Attempts(results, mode), mode);
    forall mode ensures v in said(mode) <==> v.mode == mode && v in CellGate(Attempts(results, mode), mode, v.column) {
      OneModeCells(Attempts(results, mode), mode, v);
    }
    AllCellsInTurn(results, modes);
    InTurnOfMembers(modes, said, v, v.mode);
  }

  lemma {:induction false} OneModeCells(attempts: seq<Attempt>, mode: string, v: Violation)
    requires v.DominantCell?
    ensures v in ModeCells(attempts, mode) <==> v.mode == mode && v in CellGate(attempts, mode, v.column)
  {
    forall col ensures v in CellGate(attempts, mode, col) ==> v.mode == mode && v.column == col {
      CellsExactly(mode, col, RefusedCategories(Misses(attempts, col)), Misses(attempts, col), v);
    }
    assert v.column == FileColumn || v.column == ClassColumn || v.column == FuncColumn;
  }

  lemma {:induction false} SomeMiss(misses: seq<string>, category: string)
    ensures CountOf(misses, category) >= 1 <==> category in misses
  {
    if misses == [] {
    } else {
      var front := misses[..|misses| - 1];
      SomeMiss(front, category);
      assert misses == front + [misses[|misses| - 1]];
    }
  }

  ghost predicate SomeIndexed(results: seq<InstanceResult>) {
    exists i :: 0 <= i < |results| && results[i].indexed
  }

  /** Only its own gate reports a violation. */
  lemma {:induction false} FromItsGate(results: seq<InstanceResult>, modes: seq<string>, o: Options, v: Violation)
    ensures v in Violations(results, modes, o) <==>
              SomeIndexed(results) &&
              match v
              case NonMonotone(_, _, _, _) => v in AllMonotone(results, modes, o.acceptNonMonotone != "")
              case DominantCell(_, _, _, _, _) => !o.allowUnexplainedCells && v in AllCells(results, modes)
              case ProvenanceDiffers(_, _) => v in ProvenanceGate(o)
              case _ => v in ComparatorGate(o)
  {
    MonotoneIsMonotone(results, modes, o.acceptNonMonotone != "");
    AllCellsAreCells(results, modes);
    InTurnMembers(AllMonotone(results, modes, o.acceptNonMonotone != ""), CellsUnlessAllowed(results, modes, o),
                  ProvenanceGate(o), ComparatorGate(o), v);
  }

  /** A dominant cell is reported exactly when cells are not waived, and the mode is one of those run, and the
      category holds, of at least five instances whose first result in the mode misses the column, at least
      one and at least 30%; and it is reported with these two numbers. */
  lemma {:induction false} DominantCellExactly(results: seq<InstanceResult>, modes: seq<string>, o: Options,
          mode: string, col: Column, category: string, k: nat, total: nat)
    ensures DominantCell(mode, col, category, k, total) in Violations(results, modes, o) <==>
              && SomeIndexed(results) && !o.allowUnexplainedCells && mode in modes
              && total == |MissesIn(results, mode, col)| >= 5
              && k == |MissesAs(results, mode, col, category)| >= 1
              && 10 * k >= 3 * total
  {
    var v := DominantCell(mode, col, category, k, total);
    var misses := Misses(Attempts(results, mode), col);
    FromItsGate(results, modes, o, v);
    InModes(results, modes, v);
    CellsExactly(mode, col, RefusedCategories(misses), misses, v);
    RefusedExactly(misses);
    SomeMiss(misses, category);
    CountsAreSizes(results, mode, col, category);
  }

  // ----- non-monotone rates -----

  /** One rate exceeds another over the same instances by more than five points. */
  predicate TooHigh(finer: nat, coarser: nat, n: nat) {
    n > 0 && finer as real / n as real > coarser as real / n as real + 0.05
  }

  lemma {:induction false} TooHighExceeds(finer: nat, coarser: nat, n: nat)
    ensures TooHigh(finer, coarser, n) <==> n > 0 && Exceeds(finer, coarser, n)
  {
    if n > 0 {
      RateExceeds(finer as real, coarser as real, n as real);
      Twentieth(finer, coarser, n);
    }
  }

  lemma {:induction false} RateExceeds(finer: real, coarser: real, n: real)
    requires n > 0.0
    ensures finer / n > coarser / n + 0.05 <==> finer > coarser + 0.05 * n
  {
    var x, y := finer / n, coarser / n;
    assert x * n == finer && y * n == coarser;
    assert (y + 0.05) * n == y * n + 0.05 * n;
    Scaled(x, y + 0.05, n);
  }

  lemma {:induction false} Twentieth(finer: nat, coarser: nat, n: nat)
    ensures finer as real > coarser as real + 0.05 * n as real <==> 20 * finer > 20 * coarser + n
  {
  }

  lemma {:induction false} Scaled(x: real, y: real, k: real)
    requires k > 0.0
    ensures x > y <==> x * k > y * k
  {
  }

  /** The column a hit in this one must not outnumber. */
  predicate Below(finer: Column, coarser: Column) {
    (finer == ClassColumn && coarser == FileColumn) || (finer == FuncColumn && coarser == ClassColumn)
  }

  lemma {:induction false} OneModeMonotone(attempts: seq<Attempt>, mode: string, accepted: bool, v: Violation)
    requires v.NonMonotone?
    ensures v in MonotoneGate(attempts, mode, accepted) <==>
              && v.mode == mode && v.accepted == accepted && Below(v.finer, v.coarser) && |attempts| > 0
              && Exceeds(Count(attempts, v.finer), Count(attempts, v.coarser), |attempts|)
  {
  }

  lemma {:induction false} AllMonotoneInTurn(results: seq<InstanceResult>, modes: seq<string>, accepted: bool)
    ensures AllMonotone(results, modes, accepted)
         == InTurnOf(modes, mode => MonotoneGate(Attempts(results, mode), mode, accepted))
  {
    if modes == [] {
    } else {
      AllMonotoneInTurn(results, modes[..|modes| - 1], accepted);
    }
  }

  lemma {:induction false} MonotoneInModes(results: seq<InstanceResult>, modes: seq<string>, accepted: bool,
          v: Violation)
    requires v.NonMonotone?
    ensures v in AllMonotone(results, modes, accepted) <==>
              v.mode in modes && v in MonotoneGate(Attempts(results, v.mode), v.mode, accepted)
  {
    var said := (mode: string) => MonotoneGate(Attempts(results, mode), mode, accepted);
    forall mode | v in said(mode) ensures mode == v.mode {
      OneModeMonotone(Attempts(results, mode), mode, accepted, v);
    }
    AllMonotoneInTurn(results, modes, accepted);
    InTurnOfMembers(modes, said, v, v.mode);
  }

  /** A non-monotone mode is reported exactly when the mode is one of those run and, over the indexed
      instances with a result in it, the finer hit rate exceeds the coarser by more than five points. */
  lemma {:induction false} NonMonotoneExactly(results: seq<InstanceResult>, modes: seq<string>, o: Options,
          mode: string, finer: Column, coarser: Column, accepted: bool)
    ensures NonMonotone(mode, finer, coarser, accepted) in Violations(results, modes, o) <==>
              && SomeIndexed(results) && mode in modes && Below(finer, coarser)
              && (accepted <==> o.acceptNonMonotone != "")
              && TooHigh(|HitsIn(results, mode, finer)|, |HitsIn(results, mode, coarser)|, |Runs(results, mode)|)
  {
    var v := NonMonotone(mode, finer, coarser, accepted);
    FromItsGate(results, modes, o, v);
    MonotoneInModes(results, modes, o.acceptNonMonotone != "", v);
    OneModeMonotone(Attempts(results, mode), mode, o.acceptNonMonotone != "", v);
    CountsAreSizes(results, mode, finer, "");
    CountsAreSizes(results, mode, coarser, "");
    TooHighExceeds(|HitsIn(results, mode, finer)|, |HitsIn(results, mode, coarser)|, |Runs(results, mode)|);
  }

  // ----- notes -----

  /** The two complaints about the note that has to back an external comparison. */
  lemma {:induction false} NotesExactly(results: seq<InstanceResult>, modes: seq<string>, o: Options,
          comparator: string)
    ensures NoteNotGiven(comparator) in Violations(results, modes, o) <==>
              SomeIndexed(results) && comparator == o.comparator && comparator != "" && o.noteExists == None
    ensures NoteNotFound in Violations(results, modes, o) <==> SomeIndexed(results) && o.noteExists == Some(false)
  {
    FromItsGate(results, modes, o, NoteNotGiven(comparator));
    FromItsGate(results, modes, o, NoteNotFound);
  }
}
