/** Cases, costs in micro-dollars, the run artifact and its reload (armC_retrieval.py). */
module RetrievalArtifact {
  import opened Outcomes

  // 400 tokens per chunk at $0.20 per million tokens, and $0.02 per query
  const MICROS_PER_CHUNK: nat := 80
  const MICROS_PER_QUERY: nat := 20000

  datatype Hits = Hits(file: bool, class_: bool, func: bool)

  /** A number read back from JSON: a whole number of micro-dollars, a finite number that is finer (or too
      long to be rounded to one), or something that is not a finite number at all. */
  datatype Amount = Micros(n: int) | FinerThanMicro(negative: bool) | NotFinite

  datatype Cost =
    | NotADict
    | WrongFields
    | Cost(index: Amount, query: Amount, total: Amount, scope: string)

  const SCOPE := "index_plus_marginal_query"

  datatype Case = Case(id: string, ok: bool, failure: FailureClass, code: string,
                       indexed: bool, hits: Hits, chunks: nat, cost: Cost)

  datatype Abort = NotAborted | InvalidAbort(code: string, id: string) | Threshold(budget: int, spent: int, count: nat)

  datatype Status = NotEvaluated | Partial | Complete

  /** `expected` is absent from the artifacts that record a refusal to evaluate. */
  datatype Artifact = Artifact(arm: string, status: Status, expected: Option<seq<string>>, total: Amount,
                               aborted: Abort, provenance: string, cases: seq<Case>)

  const ARM := "retrieval-only"

  datatype Error =
    | DuplicateExpected | DuplicateIds | ForeignIds
    | WrongArm | WrongProvenance | WrongExpected | BadCost
    | CasesInRefusal | CostInRefusal | ExplicitRefusal | PersistedInvalid

  // ----- the two case constructors -----

  function Charge(chunks: nat, queried: bool): Cost {
    var index := MICROS_PER_CHUNK * chunks;
    var query := if queried then MICROS_PER_QUERY else 0;
    Cost(Micros(index), Micros(query), Micros(index + query), SCOPE)
  }

  function SuccessCase(id: string, chunks: nat, hits: Hits): Case {
    Case(id, true, NoFailure, "", true, hits, chunks, Charge(chunks, true))
  }

  function FailureCase(id: string, failure: FailureClass, code: string, indexed: bool, chunks: nat,
          queried: bool): Case
  {
    Case(id, false, failure, code, indexed, Hits(false, false, false), chunks, Charge(chunks, queried))
  }

  // ----- sums -----

  /** The total a case contributes; a missing cost contributes nothing. */
  function TotalOf(c: Case): int {
    if c.cost.Cost? && c.cost.total.Micros? then c.cost.total.n else 0
  }

  function Total(cases: seq<Case>): int {
    if cases == [] then 0 else Total(cases[..|cases| - 1]) + TotalOf(cases[|cases| - 1])
  }

  lemma {:induction false} TotalSnoc(cases: seq<Case>, c: Case)
    ensures Total(cases + [c]) == Total(cases) + TotalOf(c)
  {
    assert (cases + [c])[..|cases|] == cases;
  }

  // ----- the validator of persisted costs -----

  predicate NonNegative(a: Amount) { a.Micros? && a.n >= 0 }

  predicate CostValid(c: Cost) {
    && c.Cost? && c.scope == SCOPE
    && NonNegative(c.index) && NonNegative(c.query) && NonNegative(c.total)
    && c.total.n == c.index.n + c.query.n
  }

  predicate CostsValid(total: Amount, cases: seq<Case>) {
    && NonNegative(total)
    && (forall i | 0 <= i < |cases| :: CostValid(cases[i].cost))
    && total.n == Total(cases)
  }

  /** What can be wrong with one amount: not a finite nonnegative number, or finer than a micro-dollar. */
  datatype AmountFault = NotANonnegativeNumber | TooFine

  function FaultOfAmount(a: Amount): Option<AmountFault> {
    match a
    case Micros(n) => if n < 0 then Some(NotANonnegativeNumber) else None
    case FinerThanMicro(negative) => Some(if negative then NotANonnegativeNumber else TooFine)
    case NotFinite => Some(NotANonnegativeNumber)
  }

  /** An amount below zero or not finite is none; one above zero may be too fine. */
  predicate Has(a: Amount, f: AmountFault) {
    match f
    case NotANonnegativeNumber => a.NotFinite? || (a.Micros? && a.n < 0) || a == FinerThanMicro(true)
    case TooFine => a == FinerThanMicro(false)
  }

  /** What can be wrong with a case's cost. */
  datatype CaseFault =
    | NotExactFields | WrongScope
    | IndexAmount(f: AmountFault) | QueryAmount(f: AmountFault) | TotalAmount(f: AmountFault)
    | NotTheSum

  datatype CostFault = ArtifactAmount(f: AmountFault) | InCase(at: nat, fault: CaseFault) | WrongArtifactTotal

  /** The cost has this fault, and none that is looked for before it. */
  predicate Suffers(c: Cost, fault: CaseFault) {
    match fault
    case NotExactFields => !c.Cost?
    case WrongScope => c.Cost? && c.scope != SCOPE
    case IndexAmount(f) => c.Cost? && c.scope == SCOPE && Has(c.index, f)
    case QueryAmount(f) => c.Cost? && c.scope == SCOPE && NonNegative(c.index) && Has(c.query, f)
    case TotalAmount(f) =>
      c.Cost? && c.scope == SCOPE && NonNegative(c.index) && NonNegative(c.query) && Has(c.total, f)
    case NotTheSum =>
      && c.Cost? && c.scope == SCOPE && NonNegative(c.index) && NonNegative(c.query) && NonNegative(c.total)
      && c.total.n != c.index.n + c.query.n
  }

  /** The checks on one case, in the order the source makes them. */
  method ValidateCost(c: Cost) returns (r: Option<CaseFault>)
    ensures r.None? <==> CostValid(c)
    ensures r.Some? ==> Suffers(c, r.value)
  {
    if !c.Cost? {
      return Some(NotExactFields);
    }
    if c.scope != SCOPE {
      return Some(WrongScope);
    }
    var index, query, total := FaultOfAmount(c.index), FaultOfAmount(c.query), FaultOfAmount(c.total);
    if index.Some? {
      return Some(IndexAmount(index.value));
    }
    if query.Some? {
      return Some(QueryAmount(query.value));
    }
    if total.Some? {
      return Some(TotalAmount(total.value));
    }
    if c.total.n != c.index.n + c.query.n {
      return Some(NotTheSum);
    }
    return None;
  }

  lemma {:induction false} TotalGrows(cases: seq<Case>, i: nat)
    requires i < |cases| && CostValid(cases[i].cost)
    ensures Total(cases[..i + 1]) == Total(cases[..i]) + cases[i].cost.total.n
  {
    TotalSnoc(cases[..i], cases[i]);
    assert cases[..i + 1] == cases[..i] + [cases[i]];
  }

  /** `_validate_persisted_retrieval_costs`: one pass.  It accepts exactly the artifacts whose every
      cost is a valid exact sum and whose total is the sum of them; otherwise it names the first fault:
      the artifact's own amount, then the first faulty case, then the sum. */
  method ValidatePersistedCosts(total: Amount, cases: seq<Case>) returns (r: Option<CostFault>)
    ensures r.None? <==> CostsValid(total, cases)
    ensures r.Some? && r.value.ArtifactAmount? <==> !NonNegative(total)
    ensures r.Some? && r.value.ArtifactAmount? ==> Has(total, r.value.f)
    ensures r.Some? && r.value.InCase? ==>
              && r.value.at < |cases| && Suffers(cases[r.value.at].cost, r.value.fault)
              && forall i | 0 <= i < r.value.at :: CostValid(cases[i].cost)
    ensures r == Some(WrongArtifactTotal) ==>
              NonNegative(total) && total.n != Total(cases) && forall i | 0 <= i < |cases| :: CostValid(cases[i].cost)
  {
    if FaultOfAmount(total).Some? {
      return Some(ArtifactAmount(FaultOfAmount(total).value));
    }
    var sum := 0;
    for i := 0 to |cases|
      invariant forall j | 0 <= j < i :: CostValid(cases[j].cost)
      invariant sum == Total(cases[..i])
    {
      var fault := ValidateCost(cases[i].cost);
      if fault.Some? {
        return Some(InCase(i, fault.value));
      }
      TotalGrows(cases, i);
      sum := sum + cases[i].cost.total.n;
    }
    assert cases[..|cases|] == cases;
    if total.n != sum {
      return Some(WrongArtifactTotal);
    }
    return None;
  }

  // ----- building and reloading an artifact -----

  function Ids(cases: seq<Case>): set<string> {
    set i | 0 <= i < |cases| :: cases[i].id
  }

  predicate DistinctCases(cases: seq<Case>) {
    forall i, j | 0 <= i < j < |cases| :: cases[i].id != cases[j].id
  }

  predicate Within(cases: seq<Case>, expected: seq<string>) {
    forall i | 0 <= i < |cases| :: cases[i].id in expected
  }

  predicate HasInvalid(cases: seq<Case>) {
    exists i | 0 <= i < |cases| :: cases[i].failure == InvalidExperiment
  }

  function FirstInvalid(cases: seq<Case>): (c: Case)
    requires HasInvalid(cases)
    ensures c in cases && c.failure == InvalidExperiment
  {
    if cases[0].failure == InvalidExperiment then cases[0] else FirstInvalid(cases[1..])
  }

  predicate ExactCoverage(expected: seq<string>, cases: seq<Case>) {
    |cases| == |expected| && Ids(cases) == (set id | id in expected)
  }

  /** `build_run_artifact`. */
  function Build(provenance: string, expected: seq<string>, cases: seq<Case>, aborted: Abort): Result<Artifact, Error> {
    if !Distinct(expected) then Err(DuplicateExpected)
    else if !DistinctCases(cases) then Err(DuplicateIds)
    else if !Within(cases, expected) then Err(ForeignIds)
    else
      var reason :=
        if aborted.NotAborted? && HasInvalid(cases)
        then InvalidAbort(FirstInvalid(cases).code, FirstInvalid(cases).id) else aborted;
      var status := if ExactCoverage(expected, cases) && reason.NotAborted? then Complete else Partial;
      Ok(Artifact(ARM, status, Some(expected), Micros(Total(cases)), reason, provenance, cases))
  }

  /** The artifact written when a run refuses to start. */
  function Refusal(provenance: string): Artifact {
    Artifact(ARM, NotEvaluated, None, Micros(0), NotAborted, provenance, [])
  }

  /** `load_resume_cases`; `implicit` says that no checkpoint was named on the command line. */
  function Load(file: Option<Artifact>, provenance: string, expected: seq<string>, implicit: bool):
          Result<seq<Case>, Error>
  {
    if file.None? then Ok([])
    else
      var a := file.value;
      if a.arm != ARM then Err(WrongArm)
      else if a.status == NotEvaluated && implicit then
        if !CostsValid(a.total, a.cases) then Err(BadCost)
        else if a.cases != [] then Err(CasesInRefusal)
        else if a.total.n != 0 then Err(CostInRefusal)
        else Ok([])
      else if a.provenance != provenance then Err(WrongProvenance)
      else if a.expected != Some(expected) then Err(WrongExpected)
      else if !CostsValid(a.total, a.cases) then Err(BadCost)
      else if a.status == NotEvaluated then
        if a.cases != [] then Err(CasesInRefusal)
        else if a.total.n != 0 then Err(CostInRefusal)
        else Err(ExplicitRefusal)
      else
        match Build(provenance, expected, a.cases, a.aborted)
        case Err(e) => Err(e)
        case Ok(rebuilt) =>
          if rebuilt.aborted.InvalidAbort? || HasInvalid(a.cases) then Err(PersistedInvalid) else Ok(a.cases)
  }

  // ----- what the constructors, the builder and the loader promise together -----

  /** Both constructors produce costs the validator accepts, with the declared prices. */
  lemma {:induction false} ConstructedCostsAreValid(id: string, chunks: nat, hits: Hits, failure: FailureClass,
          code: string, indexed: bool, queried: bool)
    ensures CostValid(SuccessCase(id, chunks, hits).cost)
    ensures CostValid(FailureCase(id, failure, code, indexed, chunks, queried).cost)
    ensures TotalOf(SuccessCase(id, chunks, hits)) == 80 * chunks + 20000
    ensures TotalOf(FailureCase(id, failure, code, indexed, chunks, queried))
         == 80 * chunks + (if queried then 20000 else 0)
  {
  }

  predicate AllCostsValid(cases: seq<Case>) {
    forall i | 0 <= i < |cases| :: CostValid(cases[i].cost)
  }

  lemma {:induction false} TotalNonNegative(cases: seq<Case>)
    requires AllCostsValid(cases)
    ensures Total(cases) >= 0
  {
    if cases != [] {
      TotalNonNegative(cases[..|cases| - 1]);
    }
  }

  /** An artifact the builder wrote from validly costed cases reloads to exactly those cases when
      the contract is the same, unless the experiment was invalid; then it is refused.  Under any
      other contract it is refused as well. */
  lemma {:induction false} BuiltArtifactReloads(provenance: string, expected: seq<string>, cases: seq<Case>,
          aborted: Abort, provenance': string, expected': seq<string>, implicit: bool)
    requires AllCostsValid(cases)
    requires Build(provenance, expected, cases, aborted).Ok?
    ensures var a := Build(provenance, expected, cases, aborted).value;
      var loaded := Load(Some(a), provenance', expected', implicit);
      && (loaded.Ok? <==>
           provenance' == provenance && expected' == expected && !HasInvalid(cases) && !aborted.InvalidAbort?)
      && (loaded.Ok? ==> loaded.value == cases)
  {
    TotalNonNegative(cases);
  }

  /** Nothing reloads but what the validators accept: distinct expected IDs, exact costs, no invalid case. */
  lemma {:induction false} LoadedCasesAreSound(file: Option<Artifact>, provenance: string, expected: seq<string>,
          implicit: bool)
    requires Load(file, provenance, expected, implicit).Ok?
    ensures var cases := Load(file, provenance, expected, implicit).value;
      && DistinctCases(cases) && Within(cases, expected) && !HasInvalid(cases) && AllCostsValid(cases)
      && (cases != [] ==> file.Some? && file.value.cases == cases && file.value.total == Micros(Total(cases)))
  {
  }

  /** The writer never accepts duplicates or foreign IDs, and the artifact conserves cost exactly. */
  lemma {:induction false} BuildAccepts(provenance: string, expected: seq<string>, cases: seq<Case>, aborted: Abort)
    ensures Build(provenance, expected, cases, aborted).Ok?
      <==> Distinct(expected) && DistinctCases(cases) && Within(cases, expected)
    ensures Build(provenance, expected, cases, aborted).Ok? ==>
      var a := Build(provenance, expected, cases, aborted).value;
      && a.total == Micros(Total(a.cases)) && a.cases == cases
      && (a.status == Complete <==> |cases| == |expected| && aborted.NotAborted? && !HasInvalid(cases))
  {
    if Distinct(expected) && DistinctCases(cases) && Within(cases, expected) && |cases| == |expected| {
      DistinctWithinCovers(expected, cases);
    }
  }

  /** As many distinct expected IDs as were expected are all of them. */
  lemma {:induction false} DistinctWithinCovers(expected: seq<string>, cases: seq<Case>)
    requires Distinct(expected) && DistinctCases(cases) && Within(cases, expected) && |cases| == |expected|
    ensures Ids(cases) == set id | id in expected
  {
    IdsSize(cases);
    ExpectedSize(expected);
    var all := set id | id in expected;
    assert Ids(cases) <= all;
    if Ids(cases) != all {
      assert !(all <= Ids(cases));
      var extra :| extra in all && extra !in Ids(cases);
      SmallerSubset(Ids(cases), all - {extra});
    }
  }

  lemma {:induction false} SmallerSubset(a: set<string>, b: set<string>)
    requires a <= b
    ensures |a| <= |b|
  {
    if a != {} {
      var x :| x in a;
      SmallerSubset(a - {x}, b - {x});
    }
  }

  lemma {:induction false} IdsSize(cases: seq<Case>)
    requires DistinctCases(cases)
    ensures |Ids(cases)| == |cases|
  {
    if cases != [] {
      var front, last := cases[..|cases| - 1], cases[|cases| - 1];
      IdsSize(front);
      assert Ids(cases) == Ids(front) + {last.id};
    }
  }

  lemma {:induction false} ExpectedSize(expected: seq<string>)
    requires Distinct(expected)
    ensures |set id | id in expected| == |expected|
  {
    if expected != [] {
      var front, last := expected[..|expected| - 1], expected[|expected| - 1];
      ExpectedSize(front);
      assert (set id | id in expected) == (set id | id in front) + {last};
    }
  }
}
