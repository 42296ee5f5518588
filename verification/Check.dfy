/** Evaluating a check until it raises nothing, is skipped, or runs out of time. */
module Check {
  import opened Recorder

  datatype Evaluation = Failed | Raised(results: seq<Result>)

  const PAUSE := 500

  /** The clock as it is read: once at the start and then before each evaluation. */
  ghost predicate Ticks(clock: nat -> int) {
    && clock(0) <= clock(1)
    && forall k: nat :: 1 <= k ==> clock(k) + PAUSE <= clock(k + 1)
  }

  method Contains(rs: seq<Result>, wanted: Severity) returns (found: bool)
    ensures found <==> exists i :: 0 <= i < |rs| && rs[i].severity == wanted
  {
    for i := 0 to |rs|
      invariant forall j :: 0 <= j < i ==> rs[j].severity != wanted
    {
      if rs[i].severity == wanted {
        return true;
      }
    }
    return false;
  }

  ghost predicate HasSkip(rs: seq<Result>) {
    exists i :: 0 <= i < |rs| && rs[i].severity == Skip
  }

  /** An outcome that is worth another try. */
  ghost predicate Retried(e: Evaluation) {
    e.Raised? && e.results != [] && !HasSkip(e.results)
  }

  lemma {:induction false} TicksUp(clock: nat -> int, n: nat)
    requires Ticks(clock)
    ensures clock(0) + PAUSE * n <= clock(n + 1)
  {
    if n > 0 {
      TicksUp(clock, n - 1);
    }
  }

  /**
   How a check may end after n evaluations: at most one per pause before the
   timeout, none begun after it, every one but the last worth retrying, and the
   last one's outcome returned. A non-empty outcome either holds a skip or is the last before the
   timeout.
   */
  ghost predicate Concludes(timeout: int, clock: nat -> int, eval: nat -> Evaluation, outcome: Evaluation, n: nat) {
    && (n > 0 ==> PAUSE * (n - 1) < timeout)
    && (n > 0 ==> clock(n) - clock(0) < timeout)
    && (n == 0 <==> clock(1) - clock(0) >= timeout)
    && (forall i: nat :: i + 1 < n ==> Retried(eval(i)))
    && (outcome.Failed? <==> n > 0 && eval(n - 1).Failed?)
    && (outcome.Raised? ==> (outcome.results == [] <==> n == 0 || eval(n - 1) == Raised([])))
    && (outcome.Raised? && outcome.results != [] ==>
          outcome == eval(n - 1) && (HasSkip(outcome.results) || clock(n + 1) - clock(0) >= timeout))
  }

  lemma {:induction false} ClockUp(clock: nat -> int, m: nat, n: nat)
    requires Ticks(clock) && m <= n
    ensures clock(m) <= clock(n)
    decreases n
  {
    if m < n {
      ClockUp(clock, m, n - 1);
      assert n == 1 || clock(n - 1) + PAUSE <= clock(n - 1 + 1);
    }
  }

  lemma NotShorter(timeout: int, clock: nat -> int, eval: nat -> Evaluation, a: Evaluation, m: nat, b: Evaluation, n: nat)
    requires Ticks(clock) && Concludes(timeout, clock, eval, a, m) && Concludes(timeout, clock, eval, b, n)
    ensures n <= m
  {
    if m < n {
      assert m > 0 ==> Retried(eval(m - 1));
      ClockUp(clock, m + 1, n);
    }
  }

  /** There is one way to conclude: clock and evaluations determine the outcome and when it is reached. */
  lemma ConcludesUniquely(timeout: int, clock: nat -> int, eval: nat -> Evaluation, a: Evaluation, m: nat, b: Evaluation, n: nat)
    requires Ticks(clock) && Concludes(timeout, clock, eval, a, m) && Concludes(timeout, clock, eval, b, n)
    ensures a == b && m == n
  {
    NotShorter(timeout, clock, eval, a, m, b, n);
    NotShorter(timeout, clock, eval, b, n, a, m);
  }

  /** At most one evaluation for every half second of the timeout or part of it, and none for a timeout that is not positive. */
  lemma OnePerHalfSecond(timeout: int, clock: nat -> int, eval: nat -> Evaluation, outcome: Evaluation, n: nat)
    requires Ticks(clock) && Concludes(timeout, clock, eval, outcome, n)
    ensures timeout <= 0 ==> n == 0
    ensures timeout > 0 ==> n <= (timeout + 499) / 500
  {
  }

  /** Evaluates at most once per pause until the timeout; n counts the evaluations. */
  method RunCheck(timeout: int, clock: nat -> int, eval: nat -> Evaluation)
    returns (outcome: Evaluation, n: nat)
    requires Ticks(clock)
    ensures Concludes(timeout, clock, eval, outcome, n)
  {
    var results: seq<Result> := [];
    var startTime := clock(0);
    n := 0;
    while clock(n + 1) - startTime < timeout
      invariant n > 0 ==> PAUSE * (n - 1) < timeout
      invariant n > 0 ==> clock(n) - clock(0) < timeout
      invariant forall i: nat :: i < n ==> Retried(eval(i))
      invariant n == 0 ==> results == []
      invariant n > 0 ==> eval(n - 1) == Raised(results) && clock(1) - clock(0) < timeout
      decreases timeout - PAUSE * n
    {
      TicksUp(clock, n);
      var e := eval(n);
      n := n + 1;
      if e.Failed? {
        return Failed, n;
      }
      results := e.results;
      if results == [] {
        return Raised([]), n;
      }
      var skipped := Contains(results, Skip);
      if skipped {
        return Raised(results), n;
      }
    }
    return Raised(results), n;
  }
}
