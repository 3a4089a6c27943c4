/** Running an operation again while its error is classified transient. */
module Retries {
  import opened Outcomes

  /** What one attempt ends in; the error's class is the classifier's verdict on its message. */
  datatype Outcome<T> = Success(value: T) | Failure(message: string, transient: bool)

  /** One entry of the attempt log. */
  datatype Attempt = Attempt(number: nat, ok: bool, transient: bool, retry: bool)

  datatype Error = LimitNotPositive | OperationFailed(message: string)

  datatype Ended<T> = Ended(result: Result<T, Error>, attempts: seq<Attempt>, waits: seq<nat>)

  predicate Transient<T>(o: Outcome<T>) {
    o.Failure? && o.transient
  }

  function Power(n: nat): nat {
    if n == 0 then 1 else 2 * Power(n - 1)
  }

  /** The first wait is `delay`, every later one twice the one before it. */
  predicate Doubling(waits: seq<nat>, delay: nat) {
    forall i | 0 <= i < |waits| :: waits[i] == if i == 0 then delay else waits[i - 1] + waits[i - 1]
  }

  /** The log of attempts 1 to n of which all but the last were retried. */
  ghost predicate LogOf<T>(attempts: seq<Attempt>, outcome: nat -> Outcome<T>, n: nat, max: int) {
    && |attempts| == n
    && forall i :: 0 <= i < n ==>
         var o := outcome(i + 1);
         attempts[i] == Attempt(i + 1, o.Success?, Transient(o), Transient(o) && i + 1 < max)
  }

  /** Attempt n is where the loop must stop: all before it were transient, and it is not, or it is the last. */
  ghost predicate StopsAt<T>(outcome: nat -> Outcome<T>, n: nat, max: int) {
    && 1 <= n <= max
    && (forall i :: 1 <= i < n ==> Transient(outcome(i)))
    && (n == max || !Transient(outcome(n)))
  }

  lemma {:induction false} WaitDoubles(delay: nat, n: nat)
    ensures delay * Power(n) == if n == 0 then delay else delay * Power(n - 1) + delay * Power(n - 1)
  {
    if n > 0 {
      assert Power(n) == Power(n - 1) + Power(n - 1);
    }
  }

  lemma {:induction false} StopIsUnique<T>(outcome: nat -> Outcome<T>, m: nat, n: nat, max: int)
    requires StopsAt(outcome, m, max) && StopsAt(outcome, n, max)
    ensures m == n
  {
    assert m < n ==> Transient(outcome(m));
    assert n < m ==> Transient(outcome(n));
  }

  /**
   * The attempts made are exactly those up to the first that succeeds or fails
   * for good, or up to the limit; the last one's outcome is the result, every
   * attempt is logged once, and the waits between them double from `delay` on.
   */
  method RunWithTransientRetries<T>(outcome: nat -> Outcome<T>, max: int, delay: nat)
      returns (r: Ended<T>, ghost n: nat)
    ensures max < 1 ==> r == Ended(Err(LimitNotPositive), [], [])
    ensures max >= 1 ==>
              && StopsAt(outcome, n, max) && LogOf(r.attempts, outcome, n, max)
              && r.result == (match outcome(n) case Success(v) => Ok(v) case Failure(m, _) => Err(OperationFailed(m)))
              && |r.waits| == n - 1 && Doubling(r.waits, delay)
              && forall i :: 0 <= i < |r.attempts| ==> (r.attempts[i].retry <==> i + 1 < |r.attempts|)
  {
    if max < 1 {
      return Ended(Err(LimitNotPositive), [], []), 0;
    }
    var attempts: seq<Attempt> := [];
    var waits: seq<nat> := [];
    var k: nat := 1;
    while true
      invariant 1 <= k <= max && LogOf(attempts, outcome, k - 1, max)
      invariant forall i :: 1 <= i < k ==> Transient(outcome(i))
      invariant |waits| == k - 1 && Doubling(waits, delay) && (k > 1 ==> waits[k - 2] == delay * Power(k - 2))
      decreases max - k
    {
      match outcome(k) {
        case Success(value) =>
          attempts := attempts + [Attempt(k, true, false, false)];
          return Ended(Ok(value), attempts, waits), k;
        case Failure(message, transient) =>
          var retry := transient && k < max;
          attempts := attempts + [Attempt(k, false, transient, retry)];
          if !retry {
            return Ended(Err(OperationFailed(message)), attempts, waits), k;
          }
      }
      WaitDoubles(delay, k - 1);
      waits := waits + [delay * Power(k - 1)];
      k := k + 1;
    }
  }
}
