/** Runs of operations, each applied to the state the one before left. */
module Runs {

  function Run<S, O>(step: (S, O) -> S, s: S, ops: seq<O>): S {
    if ops == [] then s else step(Run(step, s, ops[..|ops| - 1]), ops[|ops| - 1])
  }

  lemma {:induction false} RunConcat<S, O>(step: (S, O) -> S, s: S, a: seq<O>, b: seq<O>)
    ensures Run(step, s, a + b) == Run(step, Run(step, s, a), b)
  {
    if b == [] {
      assert a + b == a;
    } else {
      assert (a + b)[..|a + b| - 1] == a + b[..|b| - 1];
      RunConcat(step, s, a, b[..|b| - 1]);
    }
  }

  lemma RunOneMore<S, O>(step: (S, O) -> S, s: S, ops: seq<O>, op: O)
    ensures Run(step, s, ops + [op]) == step(Run(step, s, ops), op)
  {
    assert (ops + [op])[..|ops|] == ops;
  }

  /** The operations counted in a run since the last one that starts the count over. */
  function Count<S, O>(step: (S, O) -> S, restarts: O -> bool, counts: (S, O) -> bool, s: S, ops: seq<O>): nat {
    if ops == [] then 0
    else
      var init, op := ops[..|ops| - 1], ops[|ops| - 1];
      if restarts(op) then 0
      else Count(step, restarts, counts, s, init) + if counts(Run(step, s, init), op) then 1 else 0
  }

  lemma CountOneMore<S, O>(step: (S, O) -> S, restarts: O -> bool, counts: (S, O) -> bool, s: S, ops: seq<O>, op: O)
    ensures Count(step, restarts, counts, s, ops + [op]) ==
      if restarts(op) then 0
      else Count(step, restarts, counts, s, ops) + if counts(Run(step, s, ops), op) then 1 else 0
  {
    assert (ops + [op])[..|ops|] == ops;
  }

  /** The first operations reported these statuses. */
  ghost predicate Reported<S, O, T>(step: (S, O) -> S, status: (S, O) -> T, s: S, ops: seq<O>, statuses: seq<T>) {
    |statuses| <= |ops| && forall k :: 0 <= k < |statuses| ==> statuses[k] == status(Run(step, s, ops[..k]), ops[k])
  }

  lemma ReportedMore<S, O, T>(step: (S, O) -> S, status: (S, O) -> T, s: S, ops: seq<O>, statuses: seq<T>)
    requires Reported(step, status, s, ops, statuses) && |statuses| < |ops|
    ensures
      var last := status(Run(step, s, ops[..|statuses|]), ops[|statuses|]);
      Reported(step, status, s, ops, statuses + [last])
  {
    hide Run;
  }
}
