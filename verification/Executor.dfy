/**
 Executing the assert and error operations of a stream of Test documents in-process
 (pkg/chainsaw/inprocess.go), from the decoded documents on.
 */
module Executor {
  import opened Prelude
  import opened Evaluation
  import opened Ordering
  import opened AssertRetry

  /** One entry of a step's `try` list; operations of other kinds have neither part. */
  datatype Operation = Operation(positive: Option<Resource>, negative: Option<Resource>)

  /** `authored` is spec.timeouts.assert, `noOp` the aicr/no-op-check annotation. */
  datatype Test = Test(noOp: bool, authored: Option<int>, steps: seq<seq<Operation>>)

  /** Everything an execution meets, by position: worlds, clock readings, context checks. */
  datatype Setting = Setting(
    world: (nat, nat, nat) -> World,
    stepStart: (nat, nat) -> int, opStart: (nat, nat, nat) -> int,
    stepCancelled: (nat, nat) -> bool, opCancelled: (nat, nat, nat) -> bool)

  function CountOps(ops: seq<Operation>): nat {
    if ops == [] then 0
    else CountOps(ops[..|ops| - 1]) + if ops[|ops| - 1].positive.Some? || ops[|ops| - 1].negative.Some? then 1 else 0
  }

  function CountStepOps(steps: seq<seq<Operation>>): nat {
    if steps == [] then 0 else CountStepOps(steps[..|steps| - 1]) + CountOps(steps[|steps| - 1])
  }

  /** A document may be executed only if it would evaluate something or declares that it does not. */
  predicate Accountable(t: Test) {
    CountStepOps(t.steps) > 0 || t.noOp
  }

  predicate EvaluatesNothing(tests: seq<Test>) {
    forall t :: t in tests ==> CountStepOps(t.steps) == 0
  }

  function BudgetAt(e: Setting, timeout: int, d: nat, s: nat, o: nat): Budget {
    Budget(e.opStart(d, s, o), e.stepStart(d, s) + timeout)
  }

  ghost predicate TimelyAt(e: Setting, timeout: int, op: Operation, d: nat, s: nat, o: nat) {
    && (op.positive.Some? ==>
          Timely(AssertTrace(op.positive.value, e.world(d, s, o)), BudgetAt(e, timeout, d, s, o), true))
    && (op.negative.Some? ==>
          Timely(ErrorTrace(op.negative.value, e.world(d, s, o)), BudgetAt(e, timeout, d, s, o), false))
  }

  ghost predicate Ends(t: Trace, b: Budget, graced: bool, v: Verdict) {
    exists n: nat :: StopsFirst(t, b, graced, n) && v == Report(t, b, graced, n)
  }

  /** The outcome `v` of the operation at a position. */
  ghost predicate Yields(e: Setting, timeout: int, op: Operation, d: nat, s: nat, o: nat, v: Verdict) {
    if e.opCancelled(d, s, o) then v == Fail(Internal)
    else if op.positive.Some? == op.negative.Some? then v == Fail(InvalidRequest)
    else if op.positive.Some? then
      Ends(AssertTrace(op.positive.value, e.world(d, s, o)), BudgetAt(e, timeout, d, s, o), true, v)
    else
      Ends(ErrorTrace(op.negative.value, e.world(d, s, o)), BudgetAt(e, timeout, d, s, o), false, v)
  }

  /** Every operation of the step is evaluated and returns nil. */
  ghost predicate StepPasses(e: Setting, timeout: int, ops: seq<Operation>, d: nat, s: nat) {
    forall o: nat :: o < |ops| ==> Yields(e, timeout, ops[o], d, s, o, Pass)
  }

  ghost predicate TestPasses(e: Setting, timeout: int, t: Test, d: nat) {
    forall s: nat :: s < |t.steps| ==> !e.stepCancelled(d, s) && StepPasses(e, timeout, t.steps[s], d, s)
  }

  /** What a stream must satisfy for its component to be reported as passed. */
  ghost predicate Accepted(e: Setting, timeout: int, tests: seq<Test>) {
    && tests != [] && (forall t :: t in tests ==> Accountable(t))
    && (EvaluatesNothing(tests) || forall d: nat :: d < |tests| ==> TestPasses(e, timeout, tests[d], d))
  }

  /** The first authored timeout shortens the caller's budget; nothing extends it. */
  ghost predicate EffectiveTimeout(tests: seq<Test>, budget: int, timeout: int) {
    && timeout <= budget
    && match FirstAuthored(tests)
       case None => timeout == budget
       case Some(authored) => timeout == Min(authored, budget)
  }

  function FirstAuthored(tests: seq<Test>): Option<int> {
    if tests == [] then None
    else if tests[0].authored.Some? && tests[0].authored.value > 0 then tests[0].authored
    else FirstAuthored(tests[1..])
  }

  lemma {:induction false} CountsNothing(ops: seq<Operation>)
    ensures CountOps(ops) == 0 <==> forall op :: op in ops ==> op.positive.None? && op.negative.None?
  {
    if ops != [] {
      CountsNothing(ops[..|ops| - 1]);
      assert ops == ops[..|ops| - 1] + [ops[|ops| - 1]];
    }
  }

  lemma {:induction false} StepsCountNothing(steps: seq<seq<Operation>>)
    ensures CountStepOps(steps) == 0 <==> forall ops :: ops in steps ==> CountOps(ops) == 0
  {
    if steps != [] {
      var front, last := steps[..|steps| - 1], steps[|steps| - 1];
      StepsCountNothing(front);
      assert steps == front + [last];
      if CountStepOps(steps) == 0 {
        forall ops | ops in steps
          ensures CountOps(ops) == 0
        {
          if ops !in front { assert ops == last; }
        }
      } else if CountOps(last) > 0 {
        assert last in steps;
      } else {
        var ops :| ops in front && CountOps(ops) != 0;
        assert ops in steps;
      }
    }
  }

  /* ---- The executor as it is written ---- */

  /** `countExecutableOps` */
  method CountExecutableOps(t: Test) returns (n: nat)
    ensures n == CountStepOps(t.steps)
  {
    n := 0;
    for s := 0 to |t.steps|
      invariant n == CountStepOps(t.steps[..s])
    {
      var ops := t.steps[s];
      for o := 0 to |ops|
        invariant n == CountStepOps(t.steps[..s]) + CountOps(ops[..o])
      {
        assert ops[..o + 1][..o] == ops[..o];
        if ops[o].positive.Some? || ops[o].negative.Some? { n := n + 1; }
      }
      assert ops[..|ops|] == ops && t.steps[..s + 1][..s] == t.steps[..s];
    }
    assert t.steps[..|t.steps|] == t.steps;
  }

  /** `executeStepInProcess` */
  method ExecuteStep(e: Setting, timeout: int, ops: seq<Operation>, d: nat, s: nat) returns (v: Verdict)
    requires forall o: nat :: o < |ops| ==> TimelyAt(e, timeout, ops[o], d, s, o)
    ensures v == Pass ==> StepPasses(e, timeout, ops, d, s)
    ensures v != Pass ==> exists o: nat :: o < |ops| && Yields(e, timeout, ops[o], d, s, o, v)
  {
    for o := 0 to |ops|
      invariant forall k: nat :: k < o ==> Yields(e, timeout, ops[k], d, s, k, Pass)
    {
      var op := ops[o];
      assert TimelyAt(e, timeout, op, d, s, o);
      v := Fail(Internal);
      if !e.opCancelled(d, s, o) {
        if op.positive.Some? && op.negative.Some? {
          v := Fail(InvalidRequest);
        } else if op.positive.Some? {
          var attempts;
          v, attempts := RunAssertWithRetry(op.positive.value, e.world(d, s, o), BudgetAt(e, timeout, d, s, o));
        } else if op.negative.Some? {
          var attempts;
          v, attempts := RunErrorWithRetry(op.negative.value, e.world(d, s, o), BudgetAt(e, timeout, d, s, o));
        } else {
          v := Fail(InvalidRequest);
        }
      }
      assert Yields(e, timeout, op, d, s, o, v);
      if v != Pass { return v; }
    }
    return Pass;
  }

  /** The documents in order, each step under its own context check. */
  method ExecuteTests(e: Setting, timeout: int, tests: seq<Test>) returns (v: Verdict)
    requires forall d: nat, s: nat, o: nat :: d < |tests| && s < |tests[d].steps| && o < |tests[d].steps[s]| ==>
               TimelyAt(e, timeout, tests[d].steps[s][o], d, s, o)
    ensures v == Pass <==> forall d: nat :: d < |tests| ==> TestPasses(e, timeout, tests[d], d)
  {
    for d := 0 to |tests|
      invariant forall k: nat :: k < d ==> TestPasses(e, timeout, tests[k], k)
    {
      var test := tests[d];
      for s := 0 to |test.steps|
        invariant forall k: nat :: k < s ==> !e.stepCancelled(d, k) && StepPasses(e, timeout, test.steps[k], d, k)
      {
        if e.stepCancelled(d, s) {
          assert !TestPasses(e, timeout, test, d);
          return Fail(Internal);
        }
        v := ExecuteStep(e, timeout, test.steps[s], d, s);
        if v != Pass {
          ghost var o: nat :| o < |test.steps[s]| && Yields(e, timeout, test.steps[s][o], d, s, o, v);
          OneOutcome(e, timeout, test.steps[s][o], d, s, o, v, Pass);
          assert !StepPasses(e, timeout, test.steps[s], d, s);
          assert !TestPasses(e, timeout, test, d);
          return v;
        }
      }
    }
    return Pass;
  }

  lemma OneOutcome(e: Setting, timeout: int, op: Operation, d: nat, s: nat, o: nat, v: Verdict, u: Verdict)
    ensures Yields(e, timeout, op, d, s, o, v) && Yields(e, timeout, op, d, s, o, u) ==> v == u
  {
    if Yields(e, timeout, op, d, s, o, v) && Yields(e, timeout, op, d, s, o, u)
       && !e.opCancelled(d, s, o) && op.positive.Some? != op.negative.Some? {
      var t := if op.positive.Some? then AssertTrace(op.positive.value, e.world(d, s, o))
               else ErrorTrace(op.negative.value, e.world(d, s, o));
      var b, graced := BudgetAt(e, timeout, d, s, o), op.positive.Some?;
      assert Ends(t, b, graced, v) && Ends(t, b, graced, u);
      var m: nat :| StopsFirst(t, b, graced, m) && v == Report(t, b, graced, m);
      var n: nat :| StopsFirst(t, b, graced, n) && u == Report(t, b, graced, n);
      assert m == n;
    }
  }

  /** `runChainsawTestInProcess`, on decoded documents; only the timeout that takes effect shapes the sleeps. */
  method RunTests(e: Setting, budget: int, tests: seq<Test>) returns (v: Verdict, timeout: int)
    requires forall limit, d: nat, s: nat, o: nat ::
               EffectiveTimeout(tests, budget, limit) &&
               d < |tests| && s < |tests[d].steps| && o < |tests[d].steps[s]| ==>
               TimelyAt(e, limit, tests[d].steps[s][o], d, s, o)
    ensures EffectiveTimeout(tests, budget, timeout)
    ensures v == Pass <==> Accepted(e, timeout, tests)
  {
    timeout := budget;
    var totalOps := 0;
    var i := 0;
    while i < |tests|
      invariant 0 <= i <= |tests|
      invariant FirstAuthored(tests) == FirstAuthored(tests[i..])
      invariant timeout == budget
    {
      if tests[i].authored.Some? && tests[i].authored.value > 0 {
        timeout := Min(tests[i].authored.value, budget);
        break;
      }
      i := i + 1;
    }
    for k := 0 to |tests|
      invariant totalOps == 0 <==> EvaluatesNothing(tests[..k])
      invariant forall t :: t in tests[..k] ==> Accountable(t)
    {
      var ops := CountExecutableOps(tests[k]);
      totalOps := totalOps + ops;
      assert tests[..k + 1] == tests[..k] + [tests[k]];
      if ops == 0 && !tests[k].noOp {
        assert tests[k] in tests && !Accountable(tests[k]);
        return Fail(InvalidRequest), timeout;
      }
    }
    assert tests[..|tests|] == tests;
    if totalOps == 0 {
      return (if |tests| == 0 then Fail(InvalidRequest) else Pass), timeout;
    }
    assert EffectiveTimeout(tests, budget, timeout);
    v := ExecuteTests(e, timeout, tests);
  }

  /* ---- What a pass proves ---- */

  /** Every operation of every step of every document was evaluated and returned nil. */
  ghost predicate EverythingPassed(e: Setting, timeout: int, tests: seq<Test>) {
    forall d: nat, s: nat, o: nat :: d < |tests| && s < |tests[d].steps| && o < |tests[d].steps[s]| ==>
      Yields(e, timeout, tests[d].steps[s][o], d, s, o, Pass)
  }

  /**
   A passed stream had every operation evaluated, exactly when it holds an assert or error operation
   anywhere or no operation at all. Otherwise all documents declare a no-op, and their operations of
   other kinds are not even rejected.
   */
  lemma PassIsNotVacuous(e: Setting, timeout: int, tests: seq<Test>)
    requires Accepted(e, timeout, tests)
    ensures EverythingPassed(e, timeout, tests) <==>
            || !EvaluatesNothing(tests)
            || forall d: nat, s: nat :: d < |tests| && s < |tests[d].steps| ==> tests[d].steps[s] == []
  {
    if EvaluatesNothing(tests) {
      if d: nat, s: nat :| d < |tests| && s < |tests[d].steps| && tests[d].steps[s] != [] {
        assert tests[d] in tests && tests[d].steps[s] in tests[d].steps;
        StepsCountNothing(tests[d].steps);
        CountsNothing(tests[d].steps[s]);
        assert tests[d].steps[s][0] in tests[d].steps[s];
        assert !Yields(e, timeout, tests[d].steps[s][0], d, s, 0, Pass);
      }
    } else {
      forall d: nat, s: nat, o: nat | d < |tests| && s < |tests[d].steps| && o < |tests[d].steps[s]|
        ensures Yields(e, timeout, tests[d].steps[s][o], d, s, o, Pass)
      {
        assert TestPasses(e, timeout, tests[d], d);
        assert StepPasses(e, timeout, tests[d].steps[s], d, s);
      }
    }
  }

  /** What `ValidateTestReadOnly` lets through: each operation is an assert or an error, and not both. */
  ghost predicate Allowlisted(tests: seq<Test>) {
    forall d: nat, s: nat, o: nat :: d < |tests| && s < |tests[d].steps| && o < |tests[d].steps[s]| ==>
      tests[d].steps[s][o].positive.Some? != tests[d].steps[s][o].negative.Some?
  }

  /** Behind the allowlist a pass is never vacuous: every operation of the stream was evaluated and returned nil. */
  lemma AnAllowlistedPassIsComplete(e: Setting, timeout: int, tests: seq<Test>)
    requires Allowlisted(tests) && Accepted(e, timeout, tests)
    ensures EverythingPassed(e, timeout, tests)
  {
    PassIsNotVacuous(e, timeout, tests);
    if EvaluatesNothing(tests) {
      forall d: nat, s: nat | d < |tests| && s < |tests[d].steps|
        ensures tests[d].steps[s] == []
      {
        assert tests[d] in tests && tests[d].steps[s] in tests[d].steps;
        StepsCountNothing(tests[d].steps);
        CountsNothing(tests[d].steps[s]);
        HeadIsIn(tests[d].steps[s]);
      }
    }
  }

  /** The executor alone does not see to that: without the allowlist a declared no-op could hide an operation. */
  lemma OnlyTheAllowlistKeepsOtherOperationsOut(e: Setting, timeout: int)
    ensures exists tests :: !Allowlisted(tests) && Accepted(e, timeout, tests) && !EverythingPassed(e, timeout, tests)
  {
    var op := Operation(None, None);
    var test := Test(true, None, [[op]]);
    CountsNothing([op]);
    StepsCountNothing([[op]]);
    assert Accepted(e, timeout, [test]);
    PassIsNotVacuous(e, timeout, [test]);
    assert [test][0].steps[0] == [op];
    assert [test][0].steps[0][0] == op;
  }

  /** The cluster answered, and holds a live object that matches the resource. */
  ghost predicate HoldsAMatch(r: Resource, cluster: Cluster) {
    && Selectable(r) && Candidates(r, cluster).Got?
    && exists o :: o in Candidates(r, cluster).value && !IsTerminatingOrLost(o) && cluster.check(r.shape, o) == Match
  }

  /** The cluster answered, and holds none: the resource does not exist, or no live object matches it. */
  ghost predicate HoldsNoMatch(r: Resource, cluster: Cluster) {
    && Selectable(r)
    && (|| Candidates(r, cluster) == Refused(NotFound)
        || (Candidates(r, cluster).Got? && !HoldsAMatch(r, cluster)))
  }

  /**
   The promise of the gate. A passed operation stopped at an attempt at which the cluster gave a definite
   answer: for an assert, that it held a live object of the asserted shape; for an error check, that it
   held none of the forbidden shape.
   */
  lemma PassIsBackedByTheCluster(e: Setting, timeout: int, op: Operation, d: nat, s: nat, o: nat)
    requires Yields(e, timeout, op, d, s, o, Pass)
    ensures op.positive.Some? != op.negative.Some?
    ensures op.positive.Some? ==> exists n: nat ::
              && StopsFirst(AssertTrace(op.positive.value, e.world(d, s, o)),
                            Budget(e.opStart(d, s, o), e.stepStart(d, s) + timeout), true, n)
              && HoldsAMatch(op.positive.value, e.world(d, s, o).cluster(n))
    ensures op.negative.Some? ==> exists n: nat ::
              && StopsFirst(ErrorTrace(op.negative.value, e.world(d, s, o)),
                            Budget(e.opStart(d, s, o), e.stepStart(d, s) + timeout), false, n)
              && HoldsNoMatch(op.negative.value, e.world(d, s, o).cluster(n))
  {
    var w, b := e.world(d, s, o), Budget(e.opStart(d, s, o), e.stepStart(d, s) + timeout);
    if op.positive.Some? {
      var t := AssertTrace(op.positive.value, w);
      var n: nat :| StopsFirst(t, b, true, n) && Pass == Report(t, b, true, n);
      AssertPassIsBacked(op.positive.value, w, b, n);
    } else {
      var t := ErrorTrace(op.negative.value, w);
      var n: nat :| StopsFirst(t, b, false, n) && Pass == Report(t, b, false, n);
      ErrorPassIsBacked(op.negative.value, w, b, n);
    }
  }

  lemma AssertPassIsBacked(r: Resource, w: World, b: Budget, n: nat)
    requires StopsFirst(AssertTrace(r, w), b, true, n) && Report(AssertTrace(r, w), b, true, n) == Pass
    ensures HoldsAMatch(r, w.cluster(n))
  {
    PassIsTheLastOutcome(AssertTrace(r, w), b, true, n);
    assert AssertVerdict(r, w.cluster(n), w.itemCancelled(n)) == Pass;
    var items, check := Candidates(r, w.cluster(n)).value, x => w.cluster(n).check(r.shape, x);
    PassNeedsALiveMatch(items, check, if r.selector.name == "" then w.itemCancelled(n) else Never, 0);
  }

  lemma ErrorPassIsBacked(r: Resource, w: World, b: Budget, n: nat)
    requires StopsFirst(ErrorTrace(r, w), b, false, n) && Report(ErrorTrace(r, w), b, false, n) == Pass
    ensures HoldsNoMatch(r, w.cluster(n))
  {
    PassIsTheLastOutcome(ErrorTrace(r, w), b, false, n);
    assert ErrorVerdict(r, w.cluster(n), w.itemCancelled(n)) == Pass;
    if Candidates(r, w.cluster(n)).Got? {
      var items, check := Candidates(r, w.cluster(n)).value, x => w.cluster(n).check(r.shape, x);
      ExhaustedMeansNoMatch(items, check, if r.selector.name == "" then w.itemCancelled(n) else Never, 0);
    }
  }

  /* ---- The conditions of the executor, spelled out ---- */

  /** The first document with a positive timeout shortens the caller's budget; without one the budget stands. */
  lemma {:induction false} TheFirstPositiveTimeoutCounts(tests: seq<Test>, budget: int, timeout: int, i: nat)
    requires i <= |tests|
    requires forall j :: 0 <= j < i ==> tests[j].authored.None? || tests[j].authored.value <= 0
    requires i < |tests| ==> tests[i].authored.Some? && tests[i].authored.value > 0
    ensures EffectiveTimeout(tests, budget, timeout) <==>
              timeout == if i < |tests| && tests[i].authored.value < budget then tests[i].authored.value else budget
  {
    if i > 0 {
      TheFirstPositiveTimeoutCounts(tests[1..], budget, timeout, i - 1);
    }
  }

  /**
   An operation passes exactly when its context is live, it is an assert or an error check and not both, and
   its loop stops at an attempt that passed. All operations of a step share the deadline of the step.
   */
  lemma WhenAnOperationPasses(e: Setting, timeout: int, op: Operation, d: nat, s: nat, o: nat)
    ensures Yields(e, timeout, op, d, s, o, Pass) <==>
              && !e.opCancelled(d, s, o) && op.positive.Some? != op.negative.Some?
              && (op.positive.Some? ==>
                    StopsAtAPass(AssertTrace(op.positive.value, e.world(d, s, o)),
                                 Budget(e.opStart(d, s, o), e.stepStart(d, s) + timeout), true))
              && (op.negative.Some? ==>
                    StopsAtAPass(ErrorTrace(op.negative.value, e.world(d, s, o)),
                                 Budget(e.opStart(d, s, o), e.stepStart(d, s) + timeout), false))
  {
    var b := Budget(e.opStart(d, s, o), e.stepStart(d, s) + timeout);
    if op.positive.Some? { EndsInAPass(AssertTrace(op.positive.value, e.world(d, s, o)), b, true); }
    if op.negative.Some? { EndsInAPass(ErrorTrace(op.negative.value, e.world(d, s, o)), b, false); }
  }

  ghost predicate StopsAtAPass(t: Trace, b: Budget, graced: bool) {
    exists n: nat :: StopsFirst(t, b, graced, n) && t.verdict(n) == Pass
  }

  lemma EndsInAPass(t: Trace, b: Budget, graced: bool)
    ensures Ends(t, b, graced, Pass) <==> StopsAtAPass(t, b, graced)
  {
    forall n: nat | StopsFirst(t, b, graced, n)
      ensures Report(t, b, graced, n) == Pass <==> t.verdict(n) == Pass
    {
      PassIsTheLastOutcome(t, b, graced, n);
    }
  }

  /** An operation that is no check, or both, fails; so does one whose context is gone. */
  lemma UnusableOperationsFail(e: Setting, timeout: int, op: Operation, d: nat, s: nat, o: nat, v: Verdict)
    requires Yields(e, timeout, op, d, s, o, v)
    ensures e.opCancelled(d, s, o) ==> v == Fail(Internal)
    ensures !e.opCancelled(d, s, o) && op.positive.Some? && op.negative.Some? ==> v == Fail(InvalidRequest)
    ensures !e.opCancelled(d, s, o) && op.positive.None? && op.negative.None? ==> v == Fail(InvalidRequest)
  {
  }

  ghost predicate HasCheck(t: Test) {
    exists s: nat, o: nat :: s < |t.steps| && o < |t.steps[s]| &&
      (t.steps[s][o].positive.Some? || t.steps[s][o].negative.Some?)
  }

  lemma CountingFindsChecks(t: Test)
    ensures CountStepOps(t.steps) > 0 <==> HasCheck(t)
  {
    StepsCountNothing(t.steps);
    forall ops | ops in t.steps
      ensures CountOps(ops) == 0 <==> forall op :: op in ops ==> op.positive.None? && op.negative.None?
    {
      CountsNothing(ops);
    }
    if CountStepOps(t.steps) > 0 {
      var ops :| ops in t.steps && CountOps(ops) != 0;
      var op :| op in ops && (op.positive.Some? || op.negative.Some?);
      var s: nat :| s < |t.steps| && t.steps[s] == ops;
      var o: nat :| o < |ops| && ops[o] == op;
      assert t.steps[s][o] == op;
    }
    if s: nat, o: nat :| s < |t.steps| && o < |t.steps[s]| &&
                         (t.steps[s][o].positive.Some? || t.steps[s][o].negative.Some?) {
      assert t.steps[s] in t.steps && t.steps[s][o] in t.steps[s];
    }
  }

  /**
   A stream is accepted exactly when there is a document, each document holds a check or declares that it
   does not, and, if any holds one, every operation passes under live steps.
   */
  lemma WhenAccepted(e: Setting, timeout: int, tests: seq<Test>)
    ensures Accepted(e, timeout, tests) <==>
              && tests != [] && (forall t :: t in tests ==> t.noOp || HasCheck(t))
              && ((exists t :: t in tests && HasCheck(t)) ==>
                    forall d: nat, s: nat :: d < |tests| && s < |tests[d].steps| ==>
                      && !e.stepCancelled(d, s)
                      && forall o: nat :: o < |tests[d].steps[s]| ==>
                           Yields(e, timeout, tests[d].steps[s][o], d, s, o, Pass))
  {
    forall t: Test
      ensures CountStepOps(t.steps) > 0 <==> HasCheck(t)
    {
      CountingFindsChecks(t);
    }
    assert EvaluatesNothing(tests) <==> !exists t :: t in tests && HasCheck(t);
    assert (forall d: nat :: d < |tests| ==> TestPasses(e, timeout, tests[d], d)) <==>
           forall d: nat, s: nat :: d < |tests| && s < |tests[d].steps| ==>
             !e.stepCancelled(d, s) && StepPasses(e, timeout, tests[d].steps[s], d, s);
  }
}
