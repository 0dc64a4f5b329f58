/**
 Retrying an assertion until it passes, cannot pass, runs out of time, or is cancelled
 (pkg/chainsaw/inprocess.go, pkg/chainsaw/runner.go).

 Attempt k sees the cluster as it is at that moment. After it, the loop reads whether the context is
 still live, what the clock says, and which branch of the `select` wins. Clock readings never go
 back, and a sleep lasts at least as long as requested; nothing else is assumed.
 */
module AssertRetry {
  import opened Prelude
  import opened Evaluation

  const INTERVAL := 5_000_000_000   // nanoseconds, defaults.AssertRetryInterval
  const GRACE := 30_000_000_000     // nanoseconds, defaults.AbsentResourceGracePeriod

  datatype World = World(cluster: nat -> Cluster, itemCancelled: nat -> nat -> bool,
                         live: nat -> bool, clock: nat -> int, cancelled: nat -> bool)

  /** What a retry loop observes of a world: the outcome of each attempt and what follows it. */
  datatype Trace = Trace(verdict: nat -> Verdict, live: nat -> bool, clock: nat -> int, cancelled: nat -> bool)

  /** When the loop began, and its full deadline. */
  datatype Budget = Budget(start: int, deadline: int)

  function AssertTrace(r: Resource, w: World): Trace {
    Trace((k: nat) => AssertVerdict(r, w.cluster(k), w.itemCancelled(k)), w.live, w.clock, w.cancelled)
  }

  function ErrorTrace(r: Resource, w: World): Trace {
    Trace((k: nat) => ErrorVerdict(r, w.cluster(k), w.itemCancelled(k)), w.live, w.clock, w.cancelled)
  }

  predicate Retryable(v: Verdict) {
    v.Fail? && v.code != InvalidRequest
  }

  /** `notFoundGraceDeadline` */
  function GraceDeadline(code: Code, observed: bool, absentDeadline: int, deadline: int): int {
    if observed then deadline
    else if code == NotFound && absentDeadline < deadline then absentDeadline
    else deadline
  }

  /** Whether some attempt up to `k` saw a shape mismatch. */
  predicate Observed(t: Trace, k: nat) {
    t.verdict(k) == Fail(Internal) || (k > 0 && Observed(t, k - 1))
  }

  /** The failure of the last attempt up to `k` after which the context was still live. */
  function Substantive(t: Trace, k: nat): Option<Code> {
    if t.live(k) && t.verdict(k).Fail? then Some(t.verdict(k).code)
    else if k == 0 then None
    else Substantive(t, k - 1)
  }

  /** Time left after attempt `k`; `graced` selects the loop that has the absent-resource grace. */
  function Remaining(t: Trace, b: Budget, graced: bool, k: nat): int
    requires t.verdict(k).Fail?
  {
    (if graced then GraceDeadline(t.verdict(k).code, Observed(t, k), b.start + GRACE, b.deadline) else b.deadline)
    - t.clock(k)
  }

  predicate Stops(t: Trace, b: Budget, graced: bool, k: nat) {
    !Retryable(t.verdict(k)) || Remaining(t, b, graced, k) <= 0 || t.cancelled(k)
  }

  ghost predicate StopsFirst(t: Trace, b: Budget, graced: bool, k: nat) {
    Stops(t, b, graced, k) && forall j: nat :: j < k ==> !Stops(t, b, graced, j)
  }

  /** What the loop returns when it stops after attempt `k`. */
  function Report(t: Trace, b: Budget, graced: bool, k: nat): Verdict {
    var v := t.verdict(k);
    if !Retryable(v) then v
    else Fail(Substantive(t, k).GetOr(if Remaining(t, b, graced, k) <= 0 then v.code else Internal))
  }

  /** Between attempts `k` and `k + 1` the clock does not go back, and the sleep is not cut short. */
  ghost predicate Sleeps(t: Trace, b: Budget, graced: bool, k: nat) {
    && t.clock(k) <= t.clock(k + 1)
    && (!Stops(t, b, graced, k) ==>
          t.clock(k + 1) >= t.clock(k) + Min(INTERVAL, Remaining(t, b, graced, k)))
  }

  ghost predicate Timely(t: Trace, b: Budget, graced: bool) {
    b.start <= t.clock(0) && forall k: nat :: Sleeps(t, b, graced, k)
  }

  function Min(a: int, b: int): int { if a < b then a else b }

  function MaxAttempts(b: Budget): nat {
    (if b.deadline > b.start then (b.deadline - b.start) / INTERVAL else 0) + 3
  }

  /* ---- The loops as they are written ---- */

  /** `runAssertWithRetry` */
  method RunAssertWithRetry(r: Resource, w: World, b: Budget) returns (v: Verdict, attempts: nat)
    requires Timely(AssertTrace(r, w), b, true)
    ensures 0 < attempts <= MaxAttempts(b)
    ensures StopsFirst(AssertTrace(r, w), b, true, attempts - 1)
    ensures v == Report(AssertTrace(r, w), b, true, attempts - 1)
  {
    ghost var t := AssertTrace(r, w);
    var absentDeadline := b.start + GRACE;
    var lastSubstantive: Option<Code> := None;
    var sawResource := false;
    attempts := 0;
    while true
      invariant forall j: nat :: j < attempts ==> !Stops(t, b, true, j)
      invariant attempts < MaxAttempts(b)
      invariant sawResource <==> attempts > 0 && Observed(t, attempts - 1)
      invariant lastSubstantive == if attempts > 0 then Substantive(t, attempts - 1) else None
      decreases MaxAttempts(b) - attempts
    {
      var k := attempts;
      attempts := attempts + 1;
      var lastErr := EvaluateAssert(r, w.cluster(k), w.itemCancelled(k));
      assert lastErr == t.verdict(k);
      if lastErr == Pass { return Pass, attempts; }
      if lastErr.code == InvalidRequest { return lastErr, attempts; }
      if w.live(k) { lastSubstantive := Some(lastErr.code); }
      if lastErr.code == Internal { sawResource := true; }
      var remaining := GraceDeadline(lastErr.code, sawResource, absentDeadline, b.deadline) - w.clock(k);
      if remaining <= 0 { return Fail(lastSubstantive.GetOr(lastErr.code)), attempts; }
      if w.cancelled(k) { return Fail(lastSubstantive.GetOr(Internal)), attempts; }
      AttemptsAreBounded(t, b, true, attempts);
    }
  }

  /** `runErrorWithRetry`, which has no grace for absent resources. */
  method RunErrorWithRetry(r: Resource, w: World, b: Budget) returns (v: Verdict, attempts: nat)
    requires Timely(ErrorTrace(r, w), b, false)
    ensures 0 < attempts <= MaxAttempts(b) - 1
    ensures StopsFirst(ErrorTrace(r, w), b, false, attempts - 1)
    ensures v == Report(ErrorTrace(r, w), b, false, attempts - 1)
  {
    ghost var t := ErrorTrace(r, w);
    var lastSubstantive: Option<Code> := None;
    attempts := 0;
    while true
      invariant forall j: nat :: j < attempts ==> !Stops(t, b, false, j)
      invariant attempts < MaxAttempts(b) - 1
      invariant lastSubstantive == if attempts > 0 then Substantive(t, attempts - 1) else None
      decreases MaxAttempts(b) - attempts
    {
      var k := attempts;
      attempts := attempts + 1;
      var lastErr := EvaluateError(r, w.cluster(k), w.itemCancelled(k));
      assert lastErr == t.verdict(k);
      if lastErr == Pass { return Pass, attempts; }
      if lastErr.code == InvalidRequest { return lastErr, attempts; }
      if w.live(k) { lastSubstantive := Some(lastErr.code); }
      var remaining := b.deadline - w.clock(k);
      if remaining <= 0 { return Fail(lastSubstantive.GetOr(lastErr.code)), attempts; }
      if w.cancelled(k) { return Fail(lastSubstantive.GetOr(Internal)), attempts; }
      AttemptsAreBounded(t, b, false, attempts);
    }
  }

  /* ---- Termination ---- */

  /**
   Every attempt that does not stop is followed by a full interval, or by a short sleep that reaches the
   deadline it aimed at. The absent deadline can be reached once, the full deadline once, although the
   loop may switch between them from attempt to attempt.
   */
  lemma {:induction false} Pace(t: Trace, b: Budget, graced: bool, n: nat) returns (full: nat, absent: nat, last: nat)
    requires Timely(t, b, graced) && forall j: nat :: j < n ==> !Stops(t, b, graced, j)
    ensures n == full + absent + last && last <= 1 && absent <= if graced then 1 else 0
    ensures b.start + full * INTERVAL <= t.clock(n)
    ensures full > 0 ==> b.start + full * INTERVAL <= b.deadline
    ensures absent == 1 ==> t.clock(n) >= b.start + GRACE
    ensures last == 1 ==> t.clock(n) >= b.deadline
  {
    if n == 0 {
      full, absent, last := 0, 0, 0;
    } else {
      full, absent, last := Pace(t, b, graced, n - 1);
      assert Sleeps(t, b, graced, n - 1) && !Stops(t, b, graced, n - 1);
      var remaining := Remaining(t, b, graced, n - 1);
      if remaining >= INTERVAL {
        full := full + 1;
      } else if remaining + t.clock(n - 1) == b.deadline {
        last := last + 1;
      } else {
        absent := absent + 1;
      }
    }
  }

  lemma AttemptsAreBounded(t: Trace, b: Budget, graced: bool, n: nat)
    requires Timely(t, b, graced) && forall j: nat :: j < n ==> !Stops(t, b, graced, j)
    ensures n < MaxAttempts(b) - if graced then 0 else 1
    ensures n + 1 <= (if b.deadline > b.start then (b.deadline - b.start) / 5_000_000_000 else 0)
                     + if graced then 3 else 2
  {
    var full, absent, last := Pace(t, b, graced, n);
    if full > 0 {
      assert full <= (b.deadline - b.start) / INTERVAL;
    }
  }

  /* ---- What the verdict means ---- */

  lemma {:induction false} ObservedMeaning(t: Trace, k: nat)
    ensures Observed(t, k) <==> exists j: nat :: j <= k && t.verdict(j) == Fail(Internal)
  {
    if k > 0 { ObservedMeaning(t, k - 1); }
    if t.verdict(k) == Fail(Internal) { assert k <= k; }
  }

  /** Exactly when an attempt is the last one; every other outcome is tried again. */
  lemma StopsExactly(t: Trace, b: Budget, graced: bool, n: nat)
    ensures Stops(t, b, graced, n) <==>
      || t.verdict(n) == Pass || t.verdict(n) == Fail(InvalidRequest)
      || t.cancelled(n) || t.clock(n) >= b.deadline
      || (&& graced && t.verdict(n) == Fail(NotFound) && t.clock(n) >= b.start + 30_000_000_000
          && forall j: nat :: j <= n ==> t.verdict(j) != Fail(Internal))
  {
    ObservedMeaning(t, n);
  }

  /** An API failure, a mismatch or an absence is no reason to stop while there is time and no cancellation. */
  lemma ABlipIsRetried(t: Trace, b: Budget, graced: bool, n: nat)
    requires t.verdict(n) in {Fail(Unavailable), Fail(Internal), Fail(NotFound)}
    requires !t.cancelled(n) && t.clock(n) < b.deadline
    requires t.verdict(n) == Fail(NotFound) && graced ==>
               t.clock(n) < b.start + 30_000_000_000 || exists j: nat :: j <= n && t.verdict(j) == Fail(Internal)
    ensures !Stops(t, b, graced, n)
  {
    StopsExactly(t, b, graced, n);
  }

  /** A pass or a terminal error is reported as it is. */
  lemma EndsAreReported(t: Trace, b: Budget, graced: bool, n: nat)
    requires StopsFirst(t, b, graced, n) && t.verdict(n) in {Pass, Fail(InvalidRequest)}
    ensures Report(t, b, graced, n) == t.verdict(n)
  {
  }

  /** A run whose context was never live reports its last failure when its time is up, and a cancellation otherwise. */
  lemma WithoutALiveContext(t: Trace, b: Budget, graced: bool, n: nat)
    requires StopsFirst(t, b, graced, n) && t.verdict(n).Fail? && t.verdict(n).code != InvalidRequest
    requires forall j: nat :: j <= n ==> !t.live(j)
    ensures t.clock(n) >= b.deadline ==> Report(t, b, graced, n) == t.verdict(n)
    ensures Report(t, b, graced, n) == t.verdict(n) || (t.cancelled(n) && Report(t, b, graced, n) == Fail(Internal))
  {
    NothingSubstantive(t, n);
  }

  lemma {:induction false} NothingSubstantive(t: Trace, k: nat)
    requires forall j: nat :: j <= k ==> !t.live(j)
    ensures Substantive(t, k).None?
  {
    if k > 0 { NothingSubstantive(t, k - 1); }
  }

  /**
   If the loop gives up on a retryable error before its full deadline, and not because it was
   cancelled, then no attempt of the whole run ever saw a shape mismatch, the last outcome was
   NotFound, and the grace period is over.
   */
  lemma EarlyGiveUpMeansNeverSeen(t: Trace, b: Budget, n: nat)
    requires StopsFirst(t, b, true, n) && !t.cancelled(n)
    requires t.verdict(n).Fail? && t.verdict(n).code != InvalidRequest
    requires t.clock(n) < b.deadline
    ensures t.verdict(n) == Fail(NotFound) && t.clock(n) >= b.start + 30_000_000_000
    ensures forall j: nat :: j <= n ==> t.verdict(j) != Fail(Internal)
  {
    ObservedMeaning(t, n);
  }

  /** A resource seen even once, or an answer that proves nothing, keeps the whole budget. */
  lemma SeenOrUnknownKeepsTheBudget(t: Trace, b: Budget, n: nat, seen: nat)
    requires StopsFirst(t, b, true, n) && !t.cancelled(n)
    requires t.verdict(n).Fail? && t.verdict(n).code != InvalidRequest
    requires (seen <= n && t.verdict(seen) == Fail(Internal)) || t.verdict(n) == Fail(Unavailable)
    ensures t.clock(n) >= b.deadline
  {
    ObservedMeaning(t, n);
  }

  /** Earlier outcomes matter only through the mismatches among them: an API failure sets and shortens nothing. */
  lemma OnlyMismatchesAreRemembered(t: Trace, u: Trace, b: Budget, n: nat)
    requires t.clock(n) == u.clock(n) && t.cancelled(n) == u.cancelled(n) && t.verdict(n) == u.verdict(n)
    requires forall j: nat :: j < n ==> (t.verdict(j) == Fail(Internal) <==> u.verdict(j) == Fail(Internal))
    ensures Stops(t, b, true, n) <==> Stops(u, b, true, n)
    ensures t.verdict(n) == Fail(Unavailable) ==> Remaining(t, b, true, n) == b.deadline - t.clock(n)
  {
    ObservedMeaning(t, n);
    ObservedMeaning(u, n);
  }

  lemma {:induction false} SubstantiveMeaning(t: Trace, n: nat, last: nat)
    requires last <= n && t.live(last) && t.verdict(last).Fail?
    requires forall j: nat :: last < j <= n ==> !t.live(j) || t.verdict(j).Pass?
    ensures Substantive(t, n) == Some(t.verdict(last).code)
    decreases n
  {
    if last < n { SubstantiveMeaning(t, n - 1, last); }
  }

  /** A failed run reports the last failure it saw while its context was live, not an artefact of cancellation. */
  lemma CancellationDoesNotMaskTheReason(t: Trace, b: Budget, graced: bool, n: nat, last: nat)
    requires StopsFirst(t, b, graced, n) && t.verdict(n).Fail? && t.verdict(n).code != InvalidRequest
    requires last <= n && t.live(last) && forall j: nat :: last < j <= n ==> !t.live(j)
    ensures Report(t, b, graced, n) == t.verdict(last)
  {
    assert last < n ==> !Stops(t, b, graced, last);
    SubstantiveMeaning(t, n, last);
  }

  /** The first attempt that would pass is reached unless the loop stopped before it. */
  lemma PassIsTheLastOutcome(t: Trace, b: Budget, graced: bool, n: nat)
    requires StopsFirst(t, b, graced, n)
    ensures Report(t, b, graced, n) == Pass <==> t.verdict(n) == Pass
    ensures Report(t, b, graced, n) == Fail(InvalidRequest) <==> t.verdict(n) == Fail(InvalidRequest)
    ensures forall j: nat :: j < n ==> t.verdict(j) in {Fail(NotFound), Fail(Internal), Fail(Unavailable)}
  {
    forall j: nat | j < n
      ensures Retryable(t.verdict(j))
    {
      assert !Stops(t, b, graced, j);
    }
    if Retryable(t.verdict(n)) { SubstantiveIsRetryable(t, b, graced, n, n); }
  }

  lemma {:induction false} SubstantiveIsRetryable(t: Trace, b: Budget, graced: bool, n: nat, k: nat)
    requires k <= n && StopsFirst(t, b, graced, n) && Retryable(t.verdict(n))
    ensures Substantive(t, k).Some? ==> Substantive(t, k).value != InvalidRequest
    decreases k
  {
    assert k < n ==> !Stops(t, b, graced, k);
    if k > 0 { SubstantiveIsRetryable(t, b, graced, n, k - 1); }
  }

  /* ---- The raw-resource loop ---- */

  /** A decoded raw document: the shape to assert and the identity it names. */
  datatype Document = Document(selector: Selector, shape: nat)

  function DocumentVerdict(d: Document, cluster: Cluster): Verdict {
    if d.selector.apiVersion == "" || d.selector.kind == "" || d.selector.name == "" then Fail(InvalidRequest)
    else match cluster.fetch(d.selector)
         case Refused(code) => Fail(code)
         case Got(o) =>
           match cluster.check(d.shape, o)
           case EngineError => Fail(InvalidRequest)
           case Mismatch => Fail(Internal)
           case Match => Pass
  }

  /** The verdict on one document, for each answer of the cluster. */
  lemma DocumentVerdicts(d: Document, cluster: Cluster)
    requires d.selector.apiVersion != "" && d.selector.kind != "" && d.selector.name != ""
    ensures DocumentVerdict(d, cluster) == Pass <==>
              exists o :: cluster.fetch(d.selector) == Got(o) && cluster.check(d.shape, o) == Match
    ensures forall o :: cluster.fetch(d.selector) == Got(o) && cluster.check(d.shape, o) == Mismatch ==>
              DocumentVerdict(d, cluster) == Fail(Internal)
    ensures forall o :: cluster.fetch(d.selector) == Got(o) && cluster.check(d.shape, o) == EngineError ==>
              DocumentVerdict(d, cluster) == Fail(InvalidRequest)
    ensures forall code :: cluster.fetch(d.selector) == Refused(code) ==> DocumentVerdict(d, cluster) == Fail(code)
  {
    if DocumentVerdict(d, cluster) == Pass {
      assert cluster.fetch(d.selector) == Got(cluster.fetch(d.selector).value);
    }
  }

  /** The first document that does not pass decides. */
  function DocumentsVerdict(docs: seq<Document>, cluster: Cluster): Verdict {
    if docs == [] then Pass
    else if DocumentVerdict(docs[0], cluster) != Pass then DocumentVerdict(docs[0], cluster)
    else DocumentsVerdict(docs[1..], cluster)
  }

  function RawTrace(docs: seq<Document>, w: World): Trace {
    Trace((k: nat) => DocumentsVerdict(docs, w.cluster(k)), w.live, w.clock, w.cancelled)
  }

  /** `assertAllDocuments` */
  method AssertAllDocuments(docs: seq<Document>, cluster: Cluster) returns (v: Verdict)
    ensures v == DocumentsVerdict(docs, cluster)
  {
    for i := 0 to |docs|
      invariant DocumentsVerdict(docs, cluster) == DocumentsVerdict(docs[i..], cluster)
    {
      var verdict := DocumentVerdict(docs[i], cluster);
      if verdict != Pass { return verdict; }
    }
    return Pass;
  }

  /** `assertRawResources`, on documents already split; the loop is left by `break`, not by `return`. */
  method AssertRawResources(docs: seq<Document>, w: World, b: Budget) returns (v: Verdict, attempts: nat)
    requires Timely(RawTrace(docs, w), b, true)
    ensures docs == [] ==> v == Fail(InvalidRequest) && attempts == 0
    ensures docs != [] ==>
      && 0 < attempts <= MaxAttempts(b)
      && StopsFirst(RawTrace(docs, w), b, true, attempts - 1)
      && v == Report(RawTrace(docs, w), b, true, attempts - 1)
  {
    attempts := 0;
    if |docs| == 0 { return Fail(InvalidRequest), 0; }
    ghost var t := RawTrace(docs, w);
    var deadline := b.deadline;
    var absentDeadline := b.start + GRACE;
    var lastErr := Pass;
    var lastSubstantive: Option<Code> := None;
    var sawResource := false;
    while true
      invariant forall j: nat :: j < attempts ==> !Stops(t, b, true, j)
      invariant attempts < MaxAttempts(b)
      invariant sawResource <==> attempts > 0 && Observed(t, attempts - 1)
      invariant lastSubstantive == if attempts > 0 then Substantive(t, attempts - 1) else None
      decreases MaxAttempts(b) - attempts
    {
      var k := attempts;
      attempts := attempts + 1;
      lastErr := AssertAllDocuments(docs, w.cluster(k));
      assert lastErr == t.verdict(k);
      if lastErr == Pass { return Pass, attempts; }
      if lastErr.code == InvalidRequest { return lastErr, attempts; }
      if w.live(k) { lastSubstantive := Some(lastErr.code); }
      if lastErr.code == Internal { sawResource := true; }
      var remaining := GraceDeadline(lastErr.code, sawResource, absentDeadline, deadline) - w.clock(k);
      if remaining <= 0 {
        return (if lastSubstantive.None? then lastErr else Fail(lastSubstantive.value)), attempts;
      }
      if w.cancelled(k) {
        var reason := if lastSubstantive.None? then Internal else lastSubstantive.value;
        return Fail(reason), attempts;
      }
      AttemptsAreBounded(t, b, true, attempts);
    }
  }

  /**
   The two independently written loops agree: on the same outcomes, clock and cancellations they stop
   at the same attempt with the same verdict and the same reported error.
   */
  lemma SameStreamSameEnd(t: Trace, u: Trace, b: Budget, m: nat, n: nat)
    requires forall k: nat :: t.verdict(k) == u.verdict(k) && t.live(k) == u.live(k)
    requires forall k: nat :: t.clock(k) == u.clock(k) && t.cancelled(k) == u.cancelled(k)
    requires StopsFirst(t, b, true, m) && StopsFirst(u, b, true, n)
    ensures m == n && Report(t, b, true, m) == Report(u, b, true, n)
  {
    forall k: nat
      ensures Observed(t, k) == Observed(u, k) && Substantive(t, k) == Substantive(u, k)
    {
      SameHistory(t, u, k);
    }
    assert forall k: nat :: Stops(t, b, true, k) <==> Stops(u, b, true, k);
  }

  lemma {:induction false} SameHistory(t: Trace, u: Trace, k: nat)
    requires forall j: nat :: t.verdict(j) == u.verdict(j) && t.live(j) == u.live(j)
    ensures Observed(t, k) == Observed(u, k) && Substantive(t, k) == Substantive(u, k)
  {
    if k > 0 { SameHistory(t, u, k - 1); }
  }

  method BothLoops(docs: seq<Document>, r: Resource, w: World, b: Budget)
    returns (raw: Verdict, rawAttempts: nat, test: Verdict, testAttempts: nat)
    requires docs != []
    requires forall k: nat :: DocumentsVerdict(docs, w.cluster(k)) == AssertVerdict(r, w.cluster(k), w.itemCancelled(k))
    requires Timely(RawTrace(docs, w), b, true) && Timely(AssertTrace(r, w), b, true)
    ensures raw == test && rawAttempts == testAttempts
  {
    raw, rawAttempts := AssertRawResources(docs, w, b);
    test, testAttempts := RunAssertWithRetry(r, w, b);
    SameStreamSameEnd(RawTrace(docs, w), AssertTrace(r, w), b, rawAttempts - 1, testAttempts - 1);
  }

  lemma {:induction false} DocumentsPass(docs: seq<Document>, cluster: Cluster)
    ensures DocumentsVerdict(docs, cluster) == Pass <==> forall d :: d in docs ==> DocumentVerdict(d, cluster) == Pass
  {
    if docs != [] { DocumentsPass(docs[1..], cluster); }
  }

  /** A passing raw check had a document, and one round in which every document matched what was fetched. */
  lemma RawPassIsNotVacuous(docs: seq<Document>, w: World, b: Budget, n: nat)
    requires docs != [] && StopsFirst(RawTrace(docs, w), b, true, n) && Report(RawTrace(docs, w), b, true, n) == Pass
    ensures forall d :: d in docs ==>
              && w.cluster(n).fetch(d.selector).Got?
              && w.cluster(n).check(d.shape, w.cluster(n).fetch(d.selector).value) == Match
  {
    PassIsTheLastOutcome(RawTrace(docs, w), b, true, n);
    DocumentsPass(docs, w.cluster(n));
  }

  /**
   The two paths evaluate a named resource alike exactly when it is not on its way out: the raw path
   has no filter for terminating or lost objects, the in-process path reports those as NotFound.
   */
  lemma RawPathSeesGhosts(d: Document, cluster: Cluster, cancelled: nat -> bool)
    requires d.selector.apiVersion != "" && d.selector.kind != "" && d.selector.name != ""
    ensures DocumentVerdict(d, cluster) == AssertVerdict(Resource(d.selector, d.shape), cluster, cancelled)
            <==> !(cluster.fetch(d.selector).Got? && IsTerminatingOrLost(cluster.fetch(d.selector).value))
  {
    if cluster.fetch(d.selector).Got? {
      var o := cluster.fetch(d.selector).value;
      assert ScanFrom([o], x => cluster.check(d.shape, x), Never, 1) == Exhausted;
      if IsTerminatingOrLost(o) { assert Living([o]) == []; } else { assert Living([o]) == [o]; }
    }
  }
}
