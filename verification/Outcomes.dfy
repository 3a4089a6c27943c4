/** Types shared by the models: absence, a value or the error the source raises, failure classes. */
module Outcomes {

  datatype Option<+T> = None | Some(value: T)

  datatype Result<+T, +E> = Ok(value: T) | Err(error: E)

  /** How both runners classify a case that did not succeed. */
  datatype FailureClass = NoFailure | InvalidExperiment | Infrastructure | MeasuredOutcome

  predicate Distinct<T(==)>(s: seq<T>) {
    forall i, j | 0 <= i < j < |s| :: s[i] != s[j]
  }

  function Without<T>(s: seq<T>, i: nat): seq<T>
    requires i < |s|
  {
    s[..i] + s[i + 1..]
  }

  lemma {:induction false} WithoutOne<T>(s: seq<T>, i: nat)
    requires i < |s|
    ensures multiset(Without(s, i)) == multiset(s) - multiset{s[i]}
  {
    assert s == s[..i] + [s[i]] + s[i + 1..];
  }

  /** What occurs in a sequence occurs in each of its reorderings. */
  lemma {:induction false} Occurrence<T>(x: T, s: seq<T>, other: seq<T>) returns (i: nat)
    requires x in other && multiset(s) == multiset(other)
    ensures i < |s| && s[i] == x
  {
    assert x in multiset(other);
    assert x in multiset(s);
    i :| 0 <= i < |s| && s[i] == x;
  }

  /** The positions of the elements with a property. */
  function Indices<T>(s: seq<T>, p: T -> bool): set<int> {
    set i | 0 <= i < |s| && p(s[i])
  }

  lemma {:induction false} IndicesSnoc<T>(s: seq<T>, p: T -> bool)
    requires s != []
    ensures |Indices(s, p)| == |Indices(s[..|s| - 1], p)| + if p(s[|s| - 1]) then 1 else 0
  {
    var n := |s| - 1;
    assert Indices(s, p) == Indices(s[..n], p) + if p(s[n]) then {n} else {};
  }

  lemma {:induction false} IndicesOrdered<T>(s: seq<T>, p: T -> bool, q: T -> bool)
    requires forall i | 0 <= i < |s| :: p(s[i]) ==> q(s[i])
    ensures |Indices(s, p)| <= |Indices(s, q)| <= |s|
  {
    if s == [] {
      assert Indices(s, p) == {} && Indices(s, q) == {};
    } else {
      IndicesOrdered(s[..|s| - 1], p, q);
      IndicesSnoc(s, p);
      IndicesSnoc(s, q);
    }
  }
}
