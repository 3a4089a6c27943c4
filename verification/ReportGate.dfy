/** The refusal gate in front of a comparison report: monotone rates, no dominating misses, provenance. */
module ReportGate {
  import opened Outcomes
  import opened Scorer
  import opened Provenance

  datatype ModeResult = ModeResult(mode: string, hits: Hits)

  datatype InstanceResult = InstanceResult(indexed: bool, category: string, modeResults: seq<ModeResult>)

  datatype Column = FileColumn | ClassColumn | FuncColumn

  /** An indexed instance's outcome in one mode. */
  datatype Attempt = Attempt(category: string, hits: Hits)

  datatype Violation =
    | NonMonotone(mode: string, finer: Column, coarser: Column, accepted: bool)
    | DominantCell(mode: string, column: Column, category: string, misses: nat, total: nat)
    | ProvenanceDiffers(mismatch: Mismatch, accepted: bool)
    | NoteNotGiven(comparator: string)
    | NoteNotFound

  /** Overrides and references; an empty string is an option not given. */
  datatype Options = Options(
    acceptNonMonotone: string, allowUnexplainedCells: bool,
    comparator: string, noteExists: Option<bool>,
    current: Manifest, baseline: Option<Manifest>, acceptProvenance: string)

  /** A violation that was not accepted on the command line marks the report as refused. */
  predicate Refused(v: Violation) {
    match v
    case NonMonotone(_, _, _, accepted) => !accepted
    case ProvenanceDiffers(_, accepted) => !accepted
    case _ => true
  }

  function Reached(h: Hits, col: Column): bool {
    match col
    case FileColumn => h.file
    case ClassColumn => h.cls
    case FuncColumn => h.func
  }

  function FirstOf(rs: seq<ModeResult>, mode: string): Option<ModeResult> {
    if rs == [] then None else if rs[0].mode == mode then Some(rs[0]) else FirstOf(rs[1..], mode)
  }

  function AttemptOf(r: InstanceResult, mode: string): seq<Attempt> {
    var mr := FirstOf(r.modeResults, mode);
    if r.indexed && mr.Some? then [Attempt(if r.category == "" then "Unknown" else r.category, mr.value.hits)] else []
  }

  function Attempts(results: seq<InstanceResult>, mode: string): seq<Attempt> {
    if results == [] then [] else Attempts(results[..|results| - 1], mode) + AttemptOf(results[|results| - 1], mode)
  }

  function Count(attempts: seq<Attempt>, col: Column): nat {
    if attempts == [] then 0
    else Count(attempts[..|attempts| - 1], col) + if Reached(attempts[|attempts| - 1].hits, col) then 1 else 0
  }

  /** The categories of the misses in a column, one entry per miss. */
  function Misses(attempts: seq<Attempt>, col: Column): seq<string> {
    if attempts == [] then []
    else
      var a := attempts[|attempts| - 1];
      Misses(attempts[..|attempts| - 1], col) + if Reached(a.hits, col) then [] else [a.category]
  }

  /** finer / attempted > coarser / attempted + 5%, with the denominators cleared. */
  predicate Exceeds(finer: nat, coarser: nat, attempted: nat) {
    20 * finer > 20 * coarser + attempted
  }

  function MonotoneGate(attempts: seq<Attempt>, mode: string, accepted: bool): seq<Violation> {
    var att, f := |attempts|, Count(attempts, FileColumn);
    var c, fn := Count(attempts, ClassColumn), Count(attempts, FuncColumn);
    if att == 0 then []
    else
      (if Exceeds(c, f, att) then [NonMonotone(mode, ClassColumn, FileColumn, accepted)] else []) +
      (if Exceeds(fn, c, att) then [NonMonotone(mode, FuncColumn, ClassColumn, accepted)] else [])
  }

  function CountOf(misses: seq<string>, category: string): nat {
    if misses == [] then 0
    else CountOf(misses[..|misses| - 1], category) + if misses[|misses| - 1] == category then 1 else 0
  }

  /** The categories in the order they were first missed. */
  function Categories(misses: seq<string>): seq<string> {
    if misses == [] then []
    else
      var front, c := Categories(misses[..|misses| - 1]), misses[|misses| - 1];
      if c in front then front else front + [c]
  }

  /** At least 30% of the misses. */
  predicate Dominant(misses: seq<string>, category: string) {
    10 * CountOf(misses, category) >= 3 * |misses|
  }

  function DominantAmong(categories: seq<string>, misses: seq<string>): seq<string> {
    if categories == [] then []
    else
      var front, c := DominantAmong(categories[..|categories| - 1], misses), categories[|categories| - 1];
      if Dominant(misses, c) then front + [c] else front
  }

  /** The categories refused in one column: none while there are fewer than five misses. */
  function RefusedCategories(misses: seq<string>): seq<string> {
    if |misses| < 5 then [] else DominantAmong(Categories(misses), misses)
  }

  function Cells(mode: string, col: Column, categories: seq<string>, misses: seq<string>): (vs: seq<Violation>)
    ensures |vs| == |categories|
  {
    if categories == [] then []
    else
      var c := categories[|categories| - 1];
      Cells(mode, col, categories[..|categories| - 1], misses) +
      [DominantCell(mode, col, c, CountOf(misses, c), |misses|)]
  }

  function CellGate(attempts: seq<Attempt>, mode: string, col: Column): seq<Violation> {
    var misses := Misses(attempts, col);
    Cells(mode, col, RefusedCategories(misses), misses)
  }

  function AllMonotone(results: seq<InstanceResult>, modes: seq<string>, accepted: bool): seq<Violation> {
    if modes == [] then []
    else
      var mode := modes[|modes| - 1];
      AllMonotone(results, modes[..|modes| - 1], accepted) + MonotoneGate(Attempts(results, mode), mode, accepted)
  }

  function ModeCells(attempts: seq<Attempt>, mode: string): seq<Violation> {
    CellGate(attempts, mode, FileColumn) + CellGate(attempts, mode, ClassColumn) + CellGate(attempts, mode, FuncColumn)
  }

  function AllCells(results: seq<InstanceResult>, modes: seq<string>): seq<Violation> {
    if modes == [] then []
    else
      var mode := modes[|modes| - 1];
      AllCells(results, modes[..|modes| - 1]) + ModeCells(Attempts(results, mode), mode)
  }

  function AsViolations(ms: seq<Mismatch>, accepted: bool): (vs: seq<Violation>)
    ensures |vs| == |ms| && forall i :: 0 <= i < |ms| ==> vs[i] == ProvenanceDiffers(ms[i], accepted)
  {
    seq(|ms|, i requires 0 <= i < |ms| => ProvenanceDiffers(ms[i], accepted))
  }

  function ProvenanceGate(o: Options): seq<Violation> {
    if o.current == map[] || o.baseline.None? || o.baseline.value == map[] then []
    else AsViolations(Mismatches(o.current, o.baseline.value, COMPARED), o.acceptProvenance != "")
  }

  function ComparatorGate(o: Options): seq<Violation> {
    (if o.comparator != "" && o.noteExists.None? then [NoteNotGiven(o.comparator)] else []) +
    (if o.noteExists == Some(false) then [NoteNotFound] else [])
  }

  predicate NoneIndexed(results: seq<InstanceResult>) {
    forall i :: 0 <= i < |results| ==> !results[i].indexed
  }

  function InTurn(monotone: seq<Violation>, cells: seq<Violation>, provenance: seq<Violation>,
          comparator: seq<Violation>)
    : seq<Violation>
  {
    monotone + cells + provenance + comparator
  }

  function CellsUnlessAllowed(results: seq<InstanceResult>, modes: seq<string>, o: Options): seq<Violation> {
    if o.allowUnexplainedCells then [] else AllCells(results, modes)
  }

  /** Everything the gate reports; with no indexed instance it reports nothing at all. */
  function Violations(results: seq<InstanceResult>, modes: seq<string>, o: Options): seq<Violation> {
    if NoneIndexed(results) then []
    else
      InTurn(AllMonotone(results, modes, o.acceptNonMonotone != ""), CellsUnlessAllowed(results, modes, o),
             ProvenanceGate(o), ComparatorGate(o))
  }

  // ---- The gate as it runs ----

  lemma {:induction false} AttemptsStep(results: seq<InstanceResult>, i: nat, mode: string)
    requires i < |results|
    ensures Attempts(results[..i + 1], mode) == Attempts(results[..i], mode) + AttemptOf(results[i], mode)
  {
    assert results[..i + 1][..i] == results[..i];
  }

  lemma {:induction false} CountSnoc(attempts: seq<Attempt>, a: Attempt, col: Column)
    ensures Count(attempts + [a], col) == Count(attempts, col) + if Reached(a.hits, col) then 1 else 0
  {
    assert (attempts + [a])[..|attempts|] == attempts;
  }

  lemma {:induction false} MissesSnoc(attempts: seq<Attempt>, a: Attempt, col: Column)
    ensures Misses(attempts + [a], col) == Misses(attempts, col) + if Reached(a.hits, col) then [] else [a.category]
  {
    assert (attempts + [a])[..|attempts|] == attempts;
  }

  method CountHits(results: seq<InstanceResult>, mode: string) returns (att: nat, f: nat, c: nat, fn: nat)
    ensures var attempts := Attempts(results, mode);
            && att == |attempts| && f == Count(attempts, FileColumn)
            && c == Count(attempts, ClassColumn) && fn == Count(attempts, FuncColumn)
  {
    ghost var attempts: seq<Attempt> := [];
    att, f, c, fn := 0, 0, 0, 0;
    for i := 0 to |results|
      invariant attempts == Attempts(results[..i], mode) && att == |attempts|
      invariant f == Count(attempts, FileColumn) && c == Count(attempts, ClassColumn) &&
            fn == Count(attempts, FuncColumn)
    {
      var r := results[i];
      var mr := FirstOf(r.modeResults, mode);
      AttemptsStep(results, i, mode);
      if !r.indexed || mr.None? {
        continue;
      }
      ghost var a := AttemptOf(r, mode)[0];
      CountSnoc(attempts, a, FileColumn);
      CountSnoc(attempts, a, ClassColumn);
      CountSnoc(attempts, a, FuncColumn);
      attempts := attempts + [a];
      att := att + 1;
      if mr.value.hits.file {
        f := f + 1;
      }
      if mr.value.hits.cls {
        c := c + 1;
      }
      if mr.value.hits.func {
        fn := fn + 1;
      }
    }
    assert results[..|results|] == results;
  }

  method CheckMonotone(results: seq<InstanceResult>, mode: string, accepted: bool) returns (out: seq<Violation>)
    ensures out == MonotoneGate(Attempts(results, mode), mode, accepted)
  {
    var att, f, c, fn := CountHits(results, mode);
    out := [];
    if att == 0 {
      return;
    }
    if Exceeds(c, f, att) {
      out := out + [NonMonotone(mode, ClassColumn, FileColumn, accepted)];
    }
    if Exceeds(fn, c, att) {
      out := out + [NonMonotone(mode, FuncColumn, ClassColumn, accepted)];
    }
  }

  method CheckAllMonotone(results: seq<InstanceResult>, modes: seq<string>, accepted: bool)
      returns (out: seq<Violation>)
    ensures out == AllMonotone(results, modes, accepted)
  {
    out := [];
    for i := 0 to |modes|
      invariant out == AllMonotone(results, modes[..i], accepted)
    {
      assert modes[..i + 1][..i] == modes[..i];
      var vs := CheckMonotone(results, modes[i], accepted);
      out := out + vs;
    }
    assert modes[..|modes|] == modes;
  }

  /** The miss counts of one column, and the order in which the categories were entered. */
  ghost predicate Counted(misses: seq<string>, counts: map<string, nat>, order: seq<string>) {
    && order == Categories(misses)
    && (forall c :: c in counts <==> c in order)
    && forall c :: c in counts ==> counts[c] == CountOf(misses, c)
  }

  function Bump(counts: map<string, nat>, c: string): map<string, nat> {
    counts[c := (if c in counts then counts[c] else 0) + 1]
  }

  lemma {:induction false} CountOneMore(misses: seq<string>, counts: map<string, nat>, order: seq<string>, c: string)
    requires Counted(misses, counts, order)
    ensures Counted(misses + [c], Bump(counts, c), if c in counts then order else order + [c])
  {
    assert (misses + [c])[..|misses|] == misses;
    if c !in counts {
      UnseenIsZero(misses, c);
    }
  }

  lemma {:induction false} UnseenIsZero(misses: seq<string>, c: string)
    requires c !in Categories(misses)
    ensures CountOf(misses, c) == 0
  {
    if misses != [] {
      UnseenIsZero(misses[..|misses| - 1], c);
    }
  }

  /** What one result adds to a column's misses. */
  function MissOf(r: InstanceResult, mode: string, col: Column): seq<string> {
    var mr := FirstOf(r.modeResults, mode);
    if !r.indexed || mr.None? || Reached(mr.value.hits, col) then []
    else [if r.category == "" then "Unknown" else r.category]
  }

  function MissesOf(results: seq<InstanceResult>, mode: string, col: Column): seq<string> {
    Misses(Attempts(results, mode), col)
  }

  lemma {:induction false} MissesStep(results: seq<InstanceResult>, i: nat, mode: string, col: Column)
    requires i < |results|
    ensures MissesOf(results[..i + 1], mode, col) == MissesOf(results[..i], mode, col) + MissOf(results[i], mode, col)
  {
    AttemptsStep(results, i, mode);
    var attempts, new_ := Attempts(results[..i], mode), AttemptOf(results[i], mode);
    if new_ == [] {
      assert attempts + new_ == attempts;
    } else {
      assert new_ == [new_[0]];
      MissesSnoc(attempts, new_[0], col);
    }
  }

  /** Entering one more miss in the dictionary. */
  method EnterMiss(counts: map<string, nat>, order: seq<string>, cat: string, ghost misses: seq<string>)
    returns (counts': map<string, nat>, order': seq<string>)
    requires Counted(misses, counts, order)
    ensures Counted(misses + [cat], counts', order')
  {
    CountOneMore(misses, counts, order, cat);
    order' := if cat in counts then order else order + [cat];
    counts' := counts[cat := (if cat in counts then counts[cat] else 0) + 1];
  }

  method CountMisses(results: seq<InstanceResult>, mode: string, col: Column)
    returns (counts: map<string, nat>, order: seq<string>, total: nat)
    ensures Counted(MissesOf(results, mode, col), counts, order)
    ensures total == |MissesOf(results, mode, col)|
  {
    ghost var misses: seq<string> := [];
    counts, order, total := map[], [], 0;
    for i := 0 to |results|
      invariant misses == MissesOf(results[..i], mode, col)
      invariant Counted(misses, counts, order) && total == |misses|
    {
      var r := results[i];
      var mr := FirstOf(r.modeResults, mode);
      MissesStep(results, i, mode, col);
      if !r.indexed || mr.None? || Reached(mr.value.hits, col) {
        assert misses + [] == misses;
        continue;
      }
      var cat := if r.category == "" then "Unknown" else r.category;
      counts, order := EnterMiss(counts, order, cat, misses);
      misses := misses + [cat];
      total := total + 1;
    }
    assert results[..|results|] == results;
  }

  lemma {:induction false} CellsSnoc(mode: string, col: Column, categories: seq<string>, c: string, misses: seq<string>)
    ensures Cells(mode, col, categories + [c], misses)
         == Cells(mode, col, categories, misses) + [DominantCell(mode, col, c, CountOf(misses, c), |misses|)]
  {
    assert (categories + [c])[..|categories|] == categories;
  }

  lemma {:induction false} DominantSnoc(order: seq<string>, i: nat, misses: seq<string>)
    requires i < |order|
    ensures DominantAmong(order[..i + 1], misses)
         == DominantAmong(order[..i], misses) + if Dominant(misses, order[i]) then [order[i]] else []
  {
    assert order[..i + 1][..i] == order[..i];
  }

  method CheckCell(results: seq<InstanceResult>, mode: string, col: Column) returns (out: seq<Violation>)
    ensures out == CellGate(Attempts(results, mode), mode, col)
  {
    var counts, order, total := CountMisses(results, mode, col);
    ghost var misses := Misses(Attempts(results, mode), col);
    ghost var chosen: seq<string> := [];
    out := [];
    if total < 5 {
      return;
    }
    for i := 0 to |order|
      invariant chosen == DominantAmong(order[..i], misses)
      invariant out == Cells(mode, col, chosen, misses)
    {
      var cat := order[i];
      assert cat in counts && counts[cat] == CountOf(misses, cat);
      DominantSnoc(order, i, misses);
      if 10 * counts[cat] >= 3 * total {
        CellsSnoc(mode, col, chosen, cat, misses);
        chosen := chosen + [cat];
        out := out + [DominantCell(mode, col, cat, counts[cat], total)];
      }
    }
    assert order[..|order|] == order;
  }

  method CheckReportInvariants(results: seq<InstanceResult>, modes: seq<string>, o: Options)
      returns (out: seq<Violation>)
    ensures out == Violations(results, modes, o)
  {
    out := [];
    if NoneIndexed(results) {
      return;
    }
    var monotone := CheckAllMonotone(results, modes, o.acceptNonMonotone != "");
    var cells: seq<Violation> := [];
    if !o.allowUnexplainedCells {
      cells := CheckAllCells(results, modes);
    }
    var provenance := CheckProvenance(o);
    var comparator := CheckComparator(o);
    out := InTurn(monotone, cells, provenance, comparator);
  }

  method CheckProvenance(o: Options) returns (out: seq<Violation>)
    ensures out == ProvenanceGate(o)
  {
    out := [];
    if o.current != map[] && o.baseline.Some? && o.baseline.value != map[] {
      var ms := CheckProvenanceMatch(o.current, o.baseline.value);
      out := AsViolations(ms, o.acceptProvenance != "");
    }
  }

  method CheckComparator(o: Options) returns (out: seq<Violation>)
    ensures out == ComparatorGate(o)
  {
    out := [];
    if o.comparator != "" && o.noteExists.None? {
      out := out + [NoteNotGiven(o.comparator)];
    }
    if o.noteExists == Some(false) {
      out := out + [NoteNotFound];
    }
  }

  method CheckAllCells(results: seq<InstanceResult>, modes: seq<string>) returns (out: seq<Violation>)
    ensures out == AllCells(results, modes)
  {
    out := [];
    for i := 0 to |modes|
      invariant out == AllCells(results, modes[..i])
    {
      assert modes[..i + 1][..i] == modes[..i];
      var file := CheckCell(results, modes[i], FileColumn);
      var cls := CheckCell(results, modes[i], ClassColumn);
      var func := CheckCell(results, modes[i], FuncColumn);
      out := out + (file + cls + func);
    }
    assert modes[..|modes|] == modes;
  }

  // ---- A silent monotonicity gate ----

  /** What one mode's run leaves behind: no hit when it failed, the scorer's flags otherwise. */
  ghost predicate Produced(mr: ModeResult, lower: string -> string) {
    mr.hits == Hits(false, false, false) || exists gts, es :: Scored(mr.hits, gts, es, lower)
  }

  ghost predicate AllProduced(results: seq<InstanceResult>, lower: string -> string) {
    forall i, j :: 0 <= i < |results| && 0 <= j < |results[i].modeResults| ==>
      Produced(results[i].modeResults[j], lower)
  }

  predicate AllHierarchical(attempts: seq<Attempt>) {
    forall i :: 0 <= i < |attempts| ==> Hierarchical(attempts[i].hits)
  }

  lemma {:induction false} ProducedIsHierarchical(mr: ModeResult, lower: string -> string)
    requires Produced(mr, lower)
    ensures Hierarchical(mr.hits)
  {
    if mr.hits != Hits(false, false, false) {
      var gts, es :| Scored(mr.hits, gts, es, lower);
      ScoreIsHierarchical(mr.hits, gts, es, lower);
    }
  }

  lemma {:induction false} FirstIsMember(rs: seq<ModeResult>, mode: string)
    requires FirstOf(rs, mode).Some?
    ensures FirstOf(rs, mode).value in rs
  {
    if rs[0].mode != mode {
      FirstIsMember(rs[1..], mode);
    }
  }

  lemma {:induction false} AttemptsAreHierarchical(results: seq<InstanceResult>, mode: string, lower: string -> string)
    requires AllProduced(results, lower)
    ensures AllHierarchical(Attempts(results, mode))
    decreases |results|
  {
    if results != [] {
      var front, r := results[..|results| - 1], results[|results| - 1];
      AttemptsAreHierarchical(front, mode, lower);
      var mr := FirstOf(r.modeResults, mode);
      if mr.Some? {
        FirstIsMember(r.modeResults, mode);
        var j :| 0 <= j < |r.modeResults| && r.modeResults[j] == mr.value;
        assert Produced(results[|results| - 1].modeResults[j], lower);
        ProducedIsHierarchical(mr.value, lower);
      }
    }
  }

  lemma {:induction false} CountsAreMonotone(attempts: seq<Attempt>)
    requires AllHierarchical(attempts)
    ensures Count(attempts, FuncColumn) <= Count(attempts, ClassColumn) <= Count(attempts, FileColumn)
    decreases |attempts|
  {
    if attempts != [] {
      CountsAreMonotone(attempts[..|attempts| - 1]);
    }
  }

  lemma {:induction false} MonotoneGateIsSilent(results: seq<InstanceResult>, modes: seq<string>, accepted: bool,
          lower: string -> string)
    requires AllProduced(results, lower)
    ensures AllMonotone(results, modes, accepted) == []
    decreases |modes|
  {
    if modes != [] {
      var mode := modes[|modes| - 1];
      MonotoneGateIsSilent(results, modes[..|modes| - 1], accepted, lower);
      AttemptsAreHierarchical(results, mode, lower);
      CountsAreMonotone(Attempts(results, mode));
    }
  }

  lemma {:induction false} CellsAreCells(mode: string, col: Column, categories: seq<string>, misses: seq<string>)
    ensures forall v :: v in Cells(mode, col, categories, misses) ==>
          v.DominantCell? && v.mode == mode && v.column == col
    decreases |categories|
  {
    if categories != [] {
      CellsAreCells(mode, col, categories[..|categories| - 1], misses);
    }
  }

  lemma {:induction false} AllCellsAreCells(results: seq<InstanceResult>, modes: seq<string>)
    ensures forall v :: v in AllCells(results, modes) ==> v.DominantCell?
    decreases |modes|
  {
    if modes != [] {
      var mode := modes[|modes| - 1];
      AllCellsAreCells(results, modes[..|modes| - 1]);
      forall col ensures forall v :: v in CellGate(Attempts(results, mode), mode, col) ==> v.DominantCell? {
        var misses := Misses(Attempts(results, mode), col);
        CellsAreCells(mode, col, RefusedCategories(misses), misses);
      }
    }
  }

  predicate WithoutNonMonotone(vs: seq<Violation>) {
    forall i :: 0 <= i < |vs| ==> !vs[i].NonMonotone?
  }

  lemma {:induction false} InTurnWithout(monotone: seq<Violation>, cells: seq<Violation>, provenance: seq<Violation>,
          comparator: seq<Violation>)
    requires WithoutNonMonotone(monotone) && WithoutNonMonotone(cells)
    requires WithoutNonMonotone(provenance) && WithoutNonMonotone(comparator)
    ensures WithoutNonMonotone(InTurn(monotone, cells, provenance, comparator))
  {
  }

  lemma {:induction false} OtherGates(results: seq<InstanceResult>, modes: seq<string>, o: Options)
    ensures WithoutNonMonotone(CellsUnlessAllowed(results, modes, o))
    ensures WithoutNonMonotone(ProvenanceGate(o)) && WithoutNonMonotone(ComparatorGate(o))
  {
    AllCellsAreCells(results, modes);
    var cells := AllCells(results, modes);
    assert forall i :: 0 <= i < |cells| ==> cells[i] in cells;
  }

  /** Over results the scorer produced, the gate never reports a non-monotone mode, whatever the modes,
      categories and options. */
  lemma {:induction false} ScorerSilencesMonotonicity(results: seq<InstanceResult>, modes: seq<string>, o: Options,
          lower: string -> string)
    requires AllProduced(results, lower)
    ensures WithoutNonMonotone(Violations(results, modes, o))
  {
    if !NoneIndexed(results) {
      MonotoneGateIsSilent(results, modes, o.acceptNonMonotone != "", lower);
      OtherGates(results, modes, o);
      InTurnWithout(AllMonotone(results, modes, o.acceptNonMonotone != ""), CellsUnlessAllowed(results, modes, o),
                    ProvenanceGate(o), ComparatorGate(o));
    }
  }

  // ---- Dominant cells ----

  function SumCounts(categories: seq<string>, misses: seq<string>): nat {
    if categories == [] then 0
    else SumCounts(categories[..|categories| - 1], misses) + CountOf(misses, categories[|categories| - 1])
  }

  lemma {:induction false} CategoriesAreDistinct(misses: seq<string>)
    ensures Distinct(Categories(misses))
    ensures forall c :: c in Categories(misses) <==> c in misses
    decreases |misses|
  {
    if misses != [] {
      CategoriesAreDistinct(misses[..|misses| - 1]);
      assert misses == misses[..|misses| - 1] + [misses[|misses| - 1]];
    }
  }

  lemma {:induction false} SumOneMore(categories: seq<string>, misses: seq<string>, c: string)
    requires Distinct(categories)
    ensures SumCounts(categories, misses + [c]) == SumCounts(categories, misses) + if c in categories then 1 else 0
    decreases |categories|
  {
    assert (misses + [c])[..|misses|] == misses;
    if categories != [] {
      var front, d := categories[..|categories| - 1], categories[|categories| - 1];
      SumOneMore(front, misses, c);
      assert categories == front + [d];
    }
  }

  lemma {:induction false} SumOverNothing(categories: seq<string>)
    ensures SumCounts(categories, []) == 0
    decreases |categories|
  {
    if categories != [] {
      SumOverNothing(categories[..|categories| - 1]);
    }
  }

  /** Distinct categories never account for more misses than there are, and for all if they cover them. */
  lemma {:induction false} SumIsBounded(categories: seq<string>, misses: seq<string>)
    requires Distinct(categories)
    ensures SumCounts(categories, misses) <= |misses|
    ensures (forall c :: c in misses ==> c in categories) ==> SumCounts(categories, misses) == |misses|
    decreases |misses|
  {
    if misses == [] {
      SumOverNothing(categories);
    } else {
      var front, c := misses[..|misses| - 1], misses[|misses| - 1];
      SumIsBounded(categories, front);
      SumOneMore(categories, front, c);
      assert misses == front + [c];
    }
  }

  lemma {:induction false} DominantAmongExactly(categories: seq<string>, misses: seq<string>)
    requires Distinct(categories)
    ensures Distinct(DominantAmong(categories, misses))
    ensures forall c :: c in DominantAmong(categories, misses) <==> c in categories && Dominant(misses, c)
    decreases |categories|
  {
    if categories != [] {
      var front, c := categories[..|categories| - 1], categories[|categories| - 1];
      DominantAmongExactly(front, misses);
      assert categories == front + [c];
    }
  }

  /** Exactly the categories with at least 30% of at least five misses are refused, each once. */
  lemma {:induction false} RefusedExactly(misses: seq<string>)
    ensures Distinct(RefusedCategories(misses))
    ensures forall c :: c in RefusedCategories(misses) <==> |misses| >= 5 && c in misses && Dominant(misses, c)
  {
    CategoriesAreDistinct(misses);
    DominantAmongExactly(Categories(misses), misses);
  }

  lemma {:induction false} FourCounts(categories: seq<string>, misses: seq<string>)
    requires |categories| == 4
    ensures SumCounts(categories, misses) ==
            CountOf(misses, categories[0]) + CountOf(misses, categories[1]) + CountOf(misses, categories[2]) +
              CountOf(misses, categories[3])
  {
    assert categories[..3][..2] == categories[..2] && categories[..2][..1] == categories[..1] &&
      categories[..1][..0] == [];
    assert SumCounts(categories[..1], misses) == CountOf(misses, categories[0]);
    assert SumCounts(categories[..2], misses) == SumCounts(categories[..1], misses) + CountOf(misses, categories[1]);
    assert SumCounts(categories[..3], misses) == SumCounts(categories[..2], misses) + CountOf(misses, categories[2]);
  }

  /** In one mode and column at most three categories can be refused. */
  lemma {:induction false} AtMostThreeRefused(misses: seq<string>)
    ensures |RefusedCategories(misses)| <= 3
  {
    var refused := RefusedCategories(misses);
    RefusedExactly(misses);
    if |refused| >= 4 {
      var four := refused[..4];
      forall i | 0 <= i < 4 ensures Dominant(misses, four[i]) {
        assert four[i] in refused;
      }
      SumIsBounded(four, misses);
      FourCounts(four, misses);
      assert false;
    }
  }

  lemma {:induction false} SmallCountsSmallSum(categories: seq<string>, misses: seq<string>)
    requires |categories| <= 3 && misses != []
    requires forall c :: c in categories ==> !Dominant(misses, c)
    ensures 10 * SumCounts(categories, misses) <= 3 * |categories| * |misses|
    decreases |categories|
  {
    if categories != [] {
      var front, c := categories[..|categories| - 1], categories[|categories| - 1];
      SmallCountsSmallSum(front, misses);
      assert !Dominant(misses, c);
      assert 3 * |categories| * |misses| == 3 * |front| * |misses| + 3 * |misses|;
    }
  }

  /** As soon as five or more misses fall in at most three categories, one of them is refused. */
  lemma {:induction false} SomeCategoryIsRefused(misses: seq<string>)
    requires |misses| >= 5 && |Categories(misses)| <= 3
    ensures RefusedCategories(misses) != []
  {
    var categories := Categories(misses);
    RefusedExactly(misses);
    CategoriesAreDistinct(misses);
    if RefusedCategories(misses) == [] {
      forall c | c in categories ensures !Dominant(misses, c) {
        assert c !in RefusedCategories(misses);
      }
      SumIsBounded(categories, misses);
      SmallCountsSmallSum(categories, misses);
      NineBelowTen(|categories|, |misses|);
      assert false;
    }
  }

  lemma {:induction false} NineBelowTen(k: nat, n: nat)
    requires k <= 3 && n > 0
    ensures 3 * k * n < 10 * n
  {
  }

  /** Both counts as the report shows them, for one mode and column of any results. */
  lemma {:induction false} CellRefusals(results: seq<InstanceResult>, mode: string, col: Column)
    ensures var misses := Misses(Attempts(results, mode), col);
            var refusals := CellGate(Attempts(results, mode), mode, col);
            && |refusals| <= 3
            && (|misses| >= 5 && |Categories(misses)| <= 3 ==> refusals != [])
            && forall v :: v in refusals ==> Refused(v)
  {
    var misses := Misses(Attempts(results, mode), col);
    AtMostThreeRefused(misses);
    CellsAreCells(mode, col, RefusedCategories(misses), misses);
    if |misses| >= 5 && |Categories(misses)| <= 3 {
      SomeCategoryIsRefused(misses);
    }
  }

  // ---- Provenance at the gate ----

  /** A run compared with an earlier written report is refused for its provenance exactly when some
      compared field differs, provided at least one instance was indexed and no override was given. */
  lemma {:induction false} ProvenanceRefusedExactly(results: seq<InstanceResult>, modes: seq<string>, o: Options,
          head: seq<string>, m: Manifest, section: string, rest: seq<string>)
    requires Complete(o.current) && Complete(m) && CleanManifest(m) && PlainHead(head) && IsSection(section)
    requires o.baseline == ParseManifest(Some(ReportText(head, m, section, rest)))
    requires o.acceptProvenance == ""
    ensures (exists v :: v in Violations(results, modes, o) && v.ProvenanceDiffers? && Refused(v)) <==>
            !NoneIndexed(results) && exists k :: k in COMPARED && o.current[k] != m[k]
  {
    ObjectsExactly(o.current, head, m, section, rest);
    RoundTrip(head, m, section, rest);
    assert FIELDS[0] in FIELDS && FIELDS[0] in o.current;
    ProvenanceReported(results, modes, o);
  }

  lemma {:induction false} ProvenanceReported(results: seq<InstanceResult>, modes: seq<string>, o: Options)
    requires o.current != map[] && o.baseline.Some? && o.baseline.value != map[] && o.acceptProvenance == ""
    ensures (exists v :: v in Violations(results, modes, o) && v.ProvenanceDiffers? && Refused(v)) <==>
            !NoneIndexed(results) && Mismatches(o.current, o.baseline.value, COMPARED) != []
  {
    var ms := Mismatches(o.current, o.baseline.value, COMPARED);
    forall v: Violation | v.ProvenanceDiffers?
      ensures v in Violations(results, modes, o) <==> !NoneIndexed(results) && v in AsViolations(ms, false)
    {
      ReportedByItsGate(results, modes, o, v);
    }
    if ms != [] {
      assert AsViolations(ms, false)[0] == ProvenanceDiffers(ms[0], false);
    }
  }

  lemma {:induction false} InTurnMembers(monotone: seq<Violation>, cells: seq<Violation>, provenance: seq<Violation>,
          comparator: seq<Violation>, v: Violation)
    ensures v in InTurn(monotone, cells, provenance, comparator) <==>
            v in monotone || v in cells || v in provenance || v in comparator
  {
  }

  /** What is said about the provenance comes from the gate for it. */
  lemma {:induction false} ReportedByItsGate(results: seq<InstanceResult>, modes: seq<string>, o: Options, v: Violation)
    requires v.ProvenanceDiffers?
    ensures v in Violations(results, modes, o) <==> !NoneIndexed(results) && v in ProvenanceGate(o)
  {
    MonotoneIsMonotone(results, modes, o.acceptNonMonotone != "");
    AllCellsAreCells(results, modes);
    InTurnMembers(AllMonotone(results, modes, o.acceptNonMonotone != ""), CellsUnlessAllowed(results, modes, o),
                  ProvenanceGate(o), ComparatorGate(o), v);
  }

  lemma {:induction false} MonotoneIsMonotone(results: seq<InstanceResult>, modes: seq<string>, accepted: bool)
    ensures forall v :: v in AllMonotone(results, modes, accepted) ==> v.NonMonotone?
    decreases |modes|
  {
    if modes != [] {
      MonotoneIsMonotone(results, modes[..|modes| - 1], accepted);
    }
  }
}
