/**
 Evaluating one positive or negative assertion against the cluster (pkg/chainsaw/inprocess.go,
 pkg/chainsaw/runner.go). The assertion engine `checks.Check` is an arbitrary total function, and so
 is what the cluster answers. Cancellation is observed between the items of a list.
 */
module Evaluation {
  import opened Prelude

  /** The parts of a listed object the evaluators look at; `content` stands for the rest. */
  datatype Object = Object(deletionTimestamp: Option<string>, statusReason: Option<string>, content: nat)

  datatype Check = Match | Mismatch | EngineError

  datatype Selector = Selector(apiVersion: string, kind: string, namespace: string, name: string,
                               labels: map<string, string>)

  /** The `resource` of an assert or error operation, as far as it could be decoded. */
  datatype Resource = Missing | NotAMapping | Resource(selector: Selector, shape: nat)

  datatype Answer<+T> = Got(value: T) | Refused(code: Code)

  /** What the cluster answers at one moment. */
  datatype Cluster = Cluster(fetch: Selector -> Answer<Object>, list: Selector -> Answer<seq<Object>>,
                             check: (nat, Object) -> Check)

  /** A resource on its way out: being deleted, or on a lost node. */
  predicate IsTerminatingOrLost(o: Object) {
    (o.deletionTimestamp.Some? && o.deletionTimestamp.value != "") || o.statusReason == Some("NodeLost")
  }

  predicate Selectable(r: Resource) {
    r.Resource? && r.selector.apiVersion != "" && r.selector.kind != ""
  }

  /** The objects an operation is about: the named one, or all the listed ones. */
  function Candidates(r: Resource, cluster: Cluster): Answer<seq<Object>>
    requires Selectable(r)
  {
    if r.selector.name == "" then cluster.list(r.selector)
    else match cluster.fetch(r.selector)
         case Got(o) => Got([o])
         case Refused(code) => Refused(code)
  }

  function Living(items: seq<Object>): seq<Object> {
    if items == [] then []
    else (if IsTerminatingOrLost(items[0]) then [] else [items[0]]) + Living(items[1..])
  }

  /** How a pass over the items ends. */
  datatype Scan = Decided(check: Check) | Exhausted | Interrupted

  /** The first live item that is no mismatch decides, unless a cancellation is noticed before it. */
  function ScanFrom(items: seq<Object>, check: Object -> Check, cancelled: nat -> bool, i: nat): Scan
    requires i <= |items|
    decreases |items| - i
  {
    if i == |items| then Exhausted
    else if cancelled(i) then Interrupted
    else if IsTerminatingOrLost(items[i]) || check(items[i]) == Mismatch then ScanFrom(items, check, cancelled, i + 1)
    else Decided(check(items[i]))
  }

  /** Cancellation is only looked for between the items of a list, never around a single fetch. */
  function ScanOf(r: Resource, items: seq<Object>, cluster: Cluster, cancelled: nat -> bool): Scan
    requires Selectable(r)
  {
    ScanFrom(items, o => cluster.check(r.shape, o), if r.selector.name == "" then cancelled else Never, 0)
  }

  function Never(i: nat): bool { false }

  function AssertVerdict(r: Resource, cluster: Cluster, cancelled: nat -> bool): Verdict {
    if !Selectable(r) then Fail(InvalidRequest)
    else match Candidates(r, cluster)
         case Refused(code) => Fail(code)
         case Got(items) =>
           match ScanOf(r, items, cluster, cancelled)
           case Decided(c) => if c == Match then Pass else Fail(InvalidRequest)
           case Exhausted => if Living(items) == [] then Fail(NotFound) else Fail(Internal)
           case Interrupted => Fail(Internal)
  }

  function ErrorVerdict(r: Resource, cluster: Cluster, cancelled: nat -> bool): Verdict {
    if !Selectable(r) then Fail(InvalidRequest)
    else match Candidates(r, cluster)
         case Refused(code) => if code == NotFound then Pass else Fail(code)
         case Got(items) =>
           match ScanOf(r, items, cluster, cancelled)
           case Decided(c) => if c == Match then Fail(Internal) else Fail(InvalidRequest)
           case Exhausted => Pass
           case Interrupted => Fail(Internal)
  }

  /* ---- The evaluators as they are written ---- */

  /** `evaluateAssert` */
  method EvaluateAssert(r: Resource, cluster: Cluster, cancelled: nat -> bool) returns (v: Verdict)
    ensures v == AssertVerdict(r, cluster, cancelled)
  {
    if r.Missing? || r.NotAMapping? { return Fail(InvalidRequest); }
    if r.selector.apiVersion == "" || r.selector.kind == "" { return Fail(InvalidRequest); }
    if r.selector.name != "" {
      var answer := cluster.fetch(r.selector);
      if answer.Refused? { return Fail(answer.code); }
      var actual := answer.value;
      assert ScanFrom([actual], o => cluster.check(r.shape, o), Never, 1) == Exhausted;
      if IsTerminatingOrLost(actual) {
        assert Living([actual]) == [];
        return Fail(NotFound);
      }
      match cluster.check(r.shape, actual)
      case EngineError => return Fail(InvalidRequest);
      case Mismatch => return Fail(Internal);
      case Match => return Pass;
    }
    var answer := cluster.list(r.selector);
    if answer.Refused? { return Fail(answer.code); }
    var items := answer.value;
    if |items| == 0 { return Fail(NotFound); }
    var lastMatchErr, live := Pass, 0;
    for i := 0 to |items|
      invariant ScanOf(r, items, cluster, cancelled)
             == ScanFrom(items, o => cluster.check(r.shape, o), cancelled, i)
      invariant live == 0 <==> Living(items[..i]) == []
      invariant live > 0 ==> lastMatchErr == Fail(Internal)
    {
      if cancelled(i) { return Fail(Internal); }
      LivingPrefix(items, i);
      if !IsTerminatingOrLost(items[i]) {
        live := live + 1;
        match cluster.check(r.shape, items[i])
        case EngineError => return Fail(InvalidRequest);
        case Match => return Pass;
        case Mismatch => lastMatchErr := Fail(Internal);
      }
    }
    assert items[..|items|] == items;
    return if live == 0 then Fail(NotFound) else lastMatchErr;
  }

  /** `evaluateError` */
  method EvaluateError(r: Resource, cluster: Cluster, cancelled: nat -> bool) returns (v: Verdict)
    ensures v == ErrorVerdict(r, cluster, cancelled)
  {
    if r.Missing? || r.NotAMapping? { return Fail(InvalidRequest); }
    if r.selector.apiVersion == "" || r.selector.kind == "" { return Fail(InvalidRequest); }
    if r.selector.name != "" {
      var answer := cluster.fetch(r.selector);
      if answer.Refused? { return if answer.code == NotFound then Pass else Fail(answer.code); }
      var actual := answer.value;
      assert ScanFrom([actual], o => cluster.check(r.shape, o), Never, 1) == Exhausted;
      if IsTerminatingOrLost(actual) { return Pass; }
      match cluster.check(r.shape, actual)
      case EngineError => return Fail(InvalidRequest);
      case Mismatch => return Pass;
      case Match => return Fail(Internal);
    }
    var answer := cluster.list(r.selector);
    if answer.Refused? { return if answer.code == NotFound then Pass else Fail(answer.code); }
    var items := answer.value;
    for i := 0 to |items|
      invariant ScanOf(r, items, cluster, cancelled)
             == ScanFrom(items, o => cluster.check(r.shape, o), cancelled, i)
    {
      if cancelled(i) { return Fail(Internal); }
      if !IsTerminatingOrLost(items[i]) {
        match cluster.check(r.shape, items[i])
        case EngineError => return Fail(InvalidRequest);
        case Match => return Fail(Internal);
        case Mismatch =>
      }
    }
    return Pass;
  }

  lemma {:induction false} LivingPrefix(items: seq<Object>, i: nat)
    requires i < |items|
    ensures Living(items[..i + 1]) == Living(items[..i]) + if IsTerminatingOrLost(items[i]) then [] else [items[i]]
  {
    if i == 0 {
      assert items[..1][1..] == [];
      assert items[..0] == [];
    } else {
      assert items[..i + 1][1..] == items[1..][..i];
      assert items[..i][1..] == items[1..][..i - 1];
      LivingPrefix(items[1..], i - 1);
    }
  }

  /* ---- What the verdicts mean ---- */

  /** Position `i` holds a live item that is no mismatch, and no live item before it is either. */
  ghost predicate FirstDecisive(items: seq<Object>, check: Object -> Check, i: int) {
    && 0 <= i < |items| && !IsTerminatingOrLost(items[i]) && check(items[i]) != Mismatch
    && forall j :: 0 <= j < i && !IsTerminatingOrLost(items[j]) ==> check(items[j]) == Mismatch
  }

  lemma {:induction false} ScanMeaning(items: seq<Object>, check: Object -> Check, from: nat)
    requires from <= |items|
    requires forall j :: 0 <= j < from && !IsTerminatingOrLost(items[j]) ==> check(items[j]) == Mismatch
    ensures match ScanFrom(items, check, Never, from)
            case Decided(c) => exists i :: from <= i && FirstDecisive(items, check, i) && check(items[i]) == c
            case Exhausted =>
              forall j :: 0 <= j < |items| && !IsTerminatingOrLost(items[j]) ==> check(items[j]) == Mismatch
            case Interrupted => false
    decreases |items| - from
  {
    if from < |items| {
      if IsTerminatingOrLost(items[from]) || check(items[from]) == Mismatch {
        ScanMeaning(items, check, from + 1);
      } else {
        assert FirstDecisive(items, check, from);
      }
    }
  }

  lemma {:induction false} LivingMembers(items: seq<Object>, o: Object)
    ensures o in Living(items) <==> o in items && !IsTerminatingOrLost(o)
  {
    if items != [] { LivingMembers(items[1..], o); }
  }

  /** An uninterrupted assert passes exactly when the first live item that is no mismatch is a match. */
  lemma AssertPassesOnALiveMatch(r: Resource, cluster: Cluster)
    requires Selectable(r) && Candidates(r, cluster).Got?
    ensures var items := Candidates(r, cluster).value;
            var check := o => cluster.check(r.shape, o);
            AssertVerdict(r, cluster, Never) == Pass <==>
              exists i :: FirstDecisive(items, check, i) && check(items[i]) == Match
    ensures var items := Candidates(r, cluster).value;
            AssertVerdict(r, cluster, Never) == Fail(NotFound) <==> forall o :: o in items ==> IsTerminatingOrLost(o)
  {
    var items := Candidates(r, cluster).value;
    ScanMeaning(items, o => cluster.check(r.shape, o), 0);
    forall o
      ensures o in Living(items) <==> o in items && !IsTerminatingOrLost(o)
    {
      LivingMembers(items, o);
    }
    if Living(items) != [] { assert Living(items)[0] in Living(items); }
    if o :| o in items && !IsTerminatingOrLost(o) { assert o in Living(items); }
  }

  /** Deleted, or on a lost node. */
  ghost predicate OnItsWayOut(o: Object) {
    (exists t :: t != "" && o.deletionTimestamp == Some(t)) || o.statusReason == Some("NodeLost")
  }

  lemma GhostsAreOnTheirWayOut(o: Object)
    ensures IsTerminatingOrLost(o) <==> OnItsWayOut(o)
  {
    if o.deletionTimestamp.Some? { assert o.deletionTimestamp == Some(o.deletionTimestamp.value); }
  }

  /** The verdicts on a named resource, for each answer of the cluster. */
  lemma NamedVerdicts(r: Resource, cluster: Cluster, cancelled: nat -> bool, o: Object)
    requires r.Resource? && r.selector.apiVersion != "" && r.selector.kind != "" && r.selector.name != ""
    ensures forall code :: cluster.fetch(r.selector) == Refused(code) ==>
              && AssertVerdict(r, cluster, cancelled) == Fail(code)
              && ErrorVerdict(r, cluster, cancelled) == if code == NotFound then Pass else Fail(code)
    ensures cluster.fetch(r.selector) == Got(o) && OnItsWayOut(o) ==>
              AssertVerdict(r, cluster, cancelled) == Fail(NotFound) && ErrorVerdict(r, cluster, cancelled) == Pass
    ensures cluster.fetch(r.selector) == Got(o) && !OnItsWayOut(o) ==>
              match cluster.check(r.shape, o)
              case Match => AssertVerdict(r, cluster, cancelled) == Pass
                            && ErrorVerdict(r, cluster, cancelled) == Fail(Internal)
              case Mismatch => AssertVerdict(r, cluster, cancelled) == Fail(Internal)
                               && ErrorVerdict(r, cluster, cancelled) == Pass
              case EngineError => AssertVerdict(r, cluster, cancelled) == ErrorVerdict(r, cluster, cancelled)
                                  == Fail(InvalidRequest)
  {
    GhostsAreOnTheirWayOut(o);
    if cluster.fetch(r.selector) == Got(o) {
      assert ScanFrom([o], x => cluster.check(r.shape, x), Never, 1) == Exhausted;
      assert Living([o]) == if IsTerminatingOrLost(o) then [] else [o];
    }
  }

  /** The verdicts on a listed resource: the first live item that is no mismatch decides, in the order of the list. */
  lemma ListedVerdicts(r: Resource, cluster: Cluster, items: seq<Object>)
    requires r.Resource? && r.selector.apiVersion != "" && r.selector.kind != "" && r.selector.name == ""
    requires cluster.list(r.selector) == Got(items)
    ensures forall i :: FirstDecisive(items, o => cluster.check(r.shape, o), i) ==>
              if cluster.check(r.shape, items[i]) == Match
              then AssertVerdict(r, cluster, Never) == Pass && ErrorVerdict(r, cluster, Never) == Fail(Internal)
              else AssertVerdict(r, cluster, Never) == ErrorVerdict(r, cluster, Never) == Fail(InvalidRequest)
    ensures (forall o :: o in items && !OnItsWayOut(o) ==> cluster.check(r.shape, o) == Mismatch) ==>
              && ErrorVerdict(r, cluster, Never) == Pass
              && AssertVerdict(r, cluster, Never)
                 == Fail(if forall o :: o in items ==> OnItsWayOut(o) then NotFound else Internal)
  {
    var check := o => cluster.check(r.shape, o);
    ScanMeaning(items, check, 0);
    forall o
      ensures IsTerminatingOrLost(o) <==> OnItsWayOut(o)
      ensures o in Living(items) <==> o in items && !IsTerminatingOrLost(o)
    {
      GhostsAreOnTheirWayOut(o);
      LivingMembers(items, o);
    }
    if Living(items) != [] { assert Living(items)[0] in Living(items); }
    forall i, j | FirstDecisive(items, check, i) && FirstDecisive(items, check, j)
      ensures i == j
    {
    }
    assert forall j :: 0 <= j < |items| ==> items[j] in items;
  }

  /** What cannot be evaluated is an error of the request, whatever the cluster holds. */
  lemma MalformedIsInvalid(r: Resource, cluster: Cluster, cancelled: nat -> bool)
    requires r.Missing? || r.NotAMapping? || r.selector.apiVersion == "" || r.selector.kind == ""
    ensures AssertVerdict(r, cluster, cancelled) == ErrorVerdict(r, cluster, cancelled) == Fail(InvalidRequest)
  {
  }

  /** Even a cancelled assert never passes without a live match. */
  lemma {:induction false} PassNeedsALiveMatch(items: seq<Object>, check: Object -> Check, cancelled: nat -> bool,
                                               i: nat)
    requires i <= |items| && ScanFrom(items, check, cancelled, i) == Decided(Match)
    ensures exists o :: o in items && !IsTerminatingOrLost(o) && check(o) == Match
    decreases |items| - i
  {
    if i < |items| && (IsTerminatingOrLost(items[i]) || check(items[i]) == Mismatch) {
      PassNeedsALiveMatch(items, check, cancelled, i + 1);
    } else {
      assert items[i] in items;
    }
  }

  /** An error check that passes saw no live match. */
  lemma {:induction false} ExhaustedMeansNoMatch(items: seq<Object>, check: Object -> Check, cancelled: nat -> bool,
                                                 i: nat)
    requires i <= |items| && ScanFrom(items, check, cancelled, i) == Exhausted
    ensures forall j :: i <= j < |items| && !IsTerminatingOrLost(items[j]) ==> check(items[j]) == Mismatch
    decreases |items| - i
  {
    if i < |items| { ExhaustedMeansNoMatch(items, check, cancelled, i + 1); }
  }

  /* ---- Duality ---- */

  function Dual(v: Verdict): Verdict {
    match v
    case Pass => Fail(Internal)
    case Fail(NotFound) => Pass
    case Fail(Internal) => Pass
    case Fail(code) => Fail(code)
  }

  /**
   Without cancellation the two evaluators are exact duals on every answer, named or listed, as long as
   the fetcher keeps its contract that a failed call never carries ErrCodeInternal. With an answer that
   breaks it, they are not: both return ErrCodeInternal.
   */
  lemma AssertAndErrorAreDual(r: Resource, cluster: Cluster)
    ensures ErrorVerdict(r, cluster, Never) == Dual(AssertVerdict(r, cluster, Never))
            <==> !(Selectable(r) && Candidates(r, cluster) == Refused(Internal))
  {
    if Selectable(r) && Candidates(r, cluster).Got? {
      ScanMeaning(Candidates(r, cluster).value, o => cluster.check(r.shape, o), 0);
    }
  }

  lemma {:induction false} ScanSkipsGhosts(items: seq<Object>, check: Object -> Check, i: nat)
    requires i <= |items|
    ensures ScanFrom(items, check, Never, i) == ScanFrom(Living(items[i..]), check, Never, 0)
    decreases |items| - i
  {
    if i < |items| {
      assert items[i..][1..] == items[i + 1..];
      ScanSkipsGhosts(items, check, i + 1);
      var rest := Living(items[i + 1..]);
      if IsTerminatingOrLost(items[i]) {
        assert Living(items[i..]) == rest;
      } else {
        assert Living(items[i..]) == [items[i]] + rest;
        ScanShift(items[i], rest, check, 0);
      }
    }
  }

  lemma {:induction false} ScanShift(o: Object, rest: seq<Object>, check: Object -> Check, i: nat)
    requires i <= |rest|
    ensures ScanFrom([o] + rest, check, Never, i + 1) == ScanFrom(rest, check, Never, i)
    decreases |rest| - i
  {
    if i < |rest| { ScanShift(o, rest, check, i + 1); }
  }

  lemma {:induction false} LivingTwice(items: seq<Object>)
    ensures Living(Living(items)) == Living(items)
  {
    if items != [] {
      LivingTwice(items[1..]);
      if !IsTerminatingOrLost(items[0]) {
        assert Living(items)[1..] == Living(items[1..]);
      } else {
        assert Living(items) == Living(items[1..]);
      }
    }
  }

  /** Both verdicts are those of the cluster without its terminating or lost objects. */
  lemma GhostsDoNotCount(r: Resource, cluster: Cluster, clean: Cluster)
    requires Selectable(r) && clean.check == cluster.check
    requires match Candidates(r, cluster)
             case Got(items) =>
               if r.selector.name == "" then clean.list(r.selector) == Got(Living(items))
               else if Living(items) == [] then clean.fetch(r.selector) == Refused(NotFound)
               else clean.fetch(r.selector) == Got(items[0])
             case Refused(code) => Candidates(r, clean) == Refused(code)
    ensures AssertVerdict(r, clean, Never) == AssertVerdict(r, cluster, Never)
    ensures ErrorVerdict(r, clean, Never) == ErrorVerdict(r, cluster, Never)
  {
    if Candidates(r, cluster).Got? {
      var items := Candidates(r, cluster).value;
      var check := o => cluster.check(r.shape, o);
      assert items[0..] == items;
      ScanSkipsGhosts(items, check, 0);
      LivingTwice(items);
    }
  }
}
