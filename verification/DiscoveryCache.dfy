/**
 Resolving a kind through discovery data that many goroutines share (pkg/chainsaw/fetch.go).

 One fetcher is shared by any number of concurrent `resolveMapping` calls. `resetGen` and
 `lastReset` are guarded by a mutex; lookups are not. The model is a step system: each action is one
 atomic step of one call, or a change of the cluster, or the passing of time, in any order. Calls hold
 the mutex over several steps, so lookups of other calls do fall between the reset of the mapper and
 the increment of `resetGen`.

 The mapper's cache is an optional view. A lookup that finds it empty builds it from the live cluster
 in one step. A kind in a group that a pass could not enumerate is missing from that pass.
 Every step is stamped with its position in the run; stamps only serve to state the properties.
 */
module DiscoveryCache {
  import opened Prelude

  const COOLDOWN := 60_000_000_000   // nanoseconds, defaults.DiscoveryRefreshCooldown

  type Id = nat
  datatype Kind = Kind(group: string, name: string)

  /** What one discovery pass saw. */
  datatype Discovery = Discovery(served: set<Kind>, failed: set<string>)

  datatype View = View(pass: Discovery, built: nat)

  datatype Outcome = Found | NotServed | Unresolved   // a mapping, ErrCodeNotFound, ErrCodeUnavailable

  /** The retry lookup of a call: what it read, when, and since when the cluster had served the kind. */
  datatype Retry = Retry(view: View, at: nat, servedSince: Option<nat>)

  datatype Pc =
    | Sampled                       // resetGen has been read
    | Missed                        // the first lookup had no match
    | Locked                        // in refreshDiscovery, holding the mutex
    | Granted                       // the cooldown has passed, lastReset is set
    | Cleared                       // the mapper is reset, resetGen not yet incremented
    | Leaving(genAfter: nat)
    | Refreshed(genAfter: nat)      // the mutex is released
    | Suspicious(retry: Retry)      // the retry had no match and the generation advanced
    | Absent(retry: Retry, probe: View, clearedByThen: nat)
    | Done(outcome: Outcome)

  datatype Call = Call(kind: Kind, start: nat, genBefore: nat, pc: Pc) {
    predicate InCriticalSection() {
      pc.Locked? || pc.Granted? || pc.Cleared? || pc.Leaving?
    }

    function Result(): Option<Outcome> {
      match pc
      case Done(o) => Some(o)
      case Absent(_, _, _) => Some(NotServed)
      case _ => None
    }
  }

  datatype State = State(
    live: map<Kind, nat>,        // what the cluster serves, and since which step without a break
    failing: set<string>,        // groups that discovery cannot enumerate at the moment
    clock: int,
    cache: Option<View>,
    lastReset: Option<int>,
    resetGen: nat,
    holder: Option<Id>,
    calls: map<Id, Call>,
    steps: nat,
    cleared: nat,                // stamp of the latest reset of the mapper
    granted: seq<int>,           // when refreshes were granted: the successive values of lastReset
    resets: seq<int>             // when the mapper was reset
  ) {
    /** A discovery pass over the live cluster. */
    function Discover(): Discovery {
      Discovery((set k | k in live && k.group !in failing :: k), failing)
    }

    /** The view a lookup reads now: the cached one, or a fresh one. */
    function Seen(): View {
      if cache.Some? then cache.value else View(Discover(), steps + 1)
    }

    function At(c: Id, pc: Pc): State
      requires c in calls
    {
      this.(calls := calls[c := calls[c].(pc := pc)], steps := steps + 1)
    }
  }

  /** `trouble` makes a lookup or the probe fail in a way that is not a plain no-match. */
  datatype Action =
    | Tick(elapsed: nat)
    | Serve(kind: Kind) | Withdraw(kind: Kind)
    | Break(group: string) | Mend(group: string)
    | Begin(id: Id, kind: Kind)
    | Advance(id: Id, trouble: bool)

  function Init(): State {
    State(map[], {}, 0, None, None, 0, None, map[], 0, 0, [], [])
  }

  /** One atomic step; an action that is not possible changes nothing. */
  function Step(s: State, a: Action): State {
    match a
    case Tick(elapsed) => s.(clock := s.clock + elapsed, steps := s.steps + 1)
    case Serve(k) => if k in s.live then s else s.(live := s.live[k := s.steps + 1], steps := s.steps + 1)
    case Withdraw(k) => s.(live := s.live - {k}, steps := s.steps + 1)
    case Break(g) => s.(failing := s.failing + {g}, steps := s.steps + 1)
    case Mend(g) => s.(failing := s.failing - {g}, steps := s.steps + 1)
    case Begin(c, k) =>
      if c in s.calls || s.holder.Some? then s
      else s.(calls := s.calls[c := Call(k, s.steps + 1, s.resetGen, Sampled)], steps := s.steps + 1)
    case Advance(c, trouble) =>
      if c in s.calls then Proceed(s, c, trouble) else s
  }

  /** The next step of call `c`, in the order of `resolveMapping` and `refreshDiscovery`. */
  function Proceed(s: State, c: Id, trouble: bool): State
    requires c in s.calls
  {
    var call := s.calls[c];
    match call.pc
    case Sampled =>
      if trouble then s.At(c, Done(Unresolved))
      else
        s.(cache := Some(s.Seen())).At(c, if call.kind in s.Seen().pass.served then Done(Found) else Missed)
    case Missed =>
      if s.holder.Some? then s else s.(holder := Some(c)).At(c, Locked)
    case Locked =>
      if s.lastReset.None? || s.clock - s.lastReset.value >= COOLDOWN then
        s.(lastReset := Some(s.clock), granted := s.granted + [s.clock]).At(c, Granted)
      else s.At(c, Leaving(s.resetGen))
    case Granted =>
      s.(cache := None, cleared := s.steps + 1, resets := s.resets + [s.clock]).At(c, Cleared)
    case Cleared => s.(resetGen := s.resetGen + 1).At(c, Leaving(s.resetGen + 1))
    case Leaving(g) => s.(holder := None).At(c, Refreshed(g))
    case Refreshed(g) =>
      if trouble then s.At(c, Done(Unresolved))
      else
        s.(cache := Some(s.Seen())).At(c,
          if call.kind in s.Seen().pass.served then Done(Found)
          else if g == call.genBefore then Done(Unresolved)
          else Suspicious(Retry(s.Seen(), s.steps + 1,
                                if call.kind in s.live then Some(s.live[call.kind]) else None)))
    case Suspicious(retry) =>
      if trouble then s.At(c, Done(Unresolved))
      else
        s.(cache := Some(s.Seen())).At(c,
          if call.kind.group in s.Seen().pass.failed then Done(Unresolved)
          else Absent(retry, s.Seen(), s.cleared))
    case Absent(_, _, _) => s
    case Done(_) => s
  }

  function Run(s: State, actions: seq<Action>): State
    decreases |actions|
  {
    if actions == [] then s else Run(Step(s, actions[0]), actions[1..])
  }

  ghost predicate Reachable(s: State) {
    exists actions :: Run(Init(), actions) == s
  }

  lemma {:induction false} RunExtended(s: State, actions: seq<Action>, a: Action)
    ensures Run(s, actions + [a]) == Step(Run(s, actions), a)
    decreases |actions|
  {
    if actions == [] {
      assert [a][1..] == [];
      assert Run(s, [a]) == Run(Step(s, a), []);
    } else {
      assert (actions + [a])[1..] == actions[1..] + [a];
      RunExtended(Step(s, actions[0]), actions[1..], a);
    }
  }

  lemma ReachableStep(s: State, a: Action)
    requires Reachable(s)
    ensures Reachable(Step(s, a))
  {
    var actions :| Run(Init(), actions) == s;
    RunExtended(Init(), actions, a);
  }

  /* ---- Invariant ---- */

  /** Times that are one cooldown apart. */
  ghost predicate Spaced(times: seq<int>) {
    forall i, j :: 0 <= i < j < |times| ==> times[j] - times[i] >= COOLDOWN * (j - i)
  }

  /** Every reset falls between the refresh that was granted for it and the next one granted. */
  ghost predicate Interleaved(granted: seq<int>, resets: seq<int>) {
    && |resets| <= |granted| <= |resets| + 1
    && forall k, g :: 0 <= k < |resets| && 0 <= g < |granted| ==>
         if g <= k then granted[g] <= resets[k] else resets[k] <= granted[g]
  }

  /** Mutual exclusion, and the generation against the resets counted. */
  ghost predicate LockInv(s: State) {
    && (forall c :: c in s.calls ==> (s.calls[c].InCriticalSection() <==> s.holder == Some(c)))
    && (s.holder.Some? ==> s.holder.value in s.calls)
    && |s.resets| == s.resetGen + (if Clearing(s) then 1 else 0)
  }

  /** The state between setting lastReset and resetting the mapper. */
  ghost predicate Granting(s: State) {
    s.holder.Some? && s.holder.value in s.calls && s.calls[s.holder.value].pc.Granted?
  }

  /** The state between resetting the mapper and incrementing resetGen. */
  ghost predicate Clearing(s: State) {
    s.holder.Some? && s.holder.value in s.calls && s.calls[s.holder.value].pc.Cleared?
  }

  ghost predicate TimesInv(granted: seq<int>, resets: seq<int>, clock: int) {
    Spaced(granted) && Interleaved(granted, resets) && forall k :: 0 <= k < |resets| ==> resets[k] <= clock
  }

  ghost predicate RateInv(s: State) {
    && TimesInv(s.granted, s.resets, s.clock)
    && |s.granted| == |s.resets| + (if Granting(s) then 1 else 0)
    && (if s.granted == [] then s.lastReset.None? else s.lastReset == Some(s.granted[|s.granted| - 1]))
    && (s.lastReset.Some? ==> s.lastReset.value <= s.clock)
  }

  /** The cached view is younger than the latest reset and holds every kind served since before it was built. */
  ghost predicate CacheInv(s: State) {
    && s.cleared <= s.steps
    && (forall k :: k in s.live ==> s.live[k] <= s.steps)
    && (s.cache.Some? ==>
          && s.cleared < s.cache.value.built <= s.steps
          && Complete(s.cache.value, s.live) && Sane(s.cache.value.pass))
  }

  /** A pass reports no kind of a group it failed to enumerate. */
  ghost predicate Sane(pass: Discovery) {
    forall k :: k in pass.served ==> k.group !in pass.failed
  }

  /** A view misses a kind served since before it was built only if it could not enumerate the group. */
  ghost predicate Complete(v: View, live: map<Kind, nat>) {
    forall k :: k in live && live[k] < v.built ==> k in v.pass.served || k.group in v.pass.failed
  }

  /** An advanced generation proves a reset after the call began. */
  ghost predicate CallInv(s: State, call: Call) {
    && call.start <= s.steps && call.genBefore <= s.resetGen
    && (s.resetGen > call.genBefore ==> s.cleared > call.start)
    && match call.pc
       case Leaving(g) => g == s.resetGen
       case Refreshed(g) => call.genBefore <= g <= s.resetGen
       case Suspicious(r) => RetryInv(call, r) && r.at <= s.steps
                             && (s.cleared < r.at ==> s.cache == Some(r.view))
                             && (call.kind in s.live && s.live[call.kind] <= call.start ==>
                                   r.servedSince == Some(s.live[call.kind]))
       case Absent(r, probe, clearedByThen) =>
         RetryInv(call, r) && call.kind.group !in probe.pass.failed && clearedByThen <= s.cleared
         && (clearedByThen < r.at ==> probe == r.view)
       case Done(o) => o != NotServed
       case _ => true
  }

  ghost predicate RetryInv(call: Call, r: Retry) {
    && call.start < r.view.built <= r.at
    && call.kind !in r.view.pass.served
    && (r.servedSince.Some? && r.servedSince.value < r.view.built ==> call.kind.group in r.view.pass.failed)
  }

  ghost predicate Inv(s: State) {
    && LockInv(s) && RateInv(s) && CacheInv(s)
    && CallsInv(s)
  }

  ghost predicate CallsInv(s: State) {
    && (forall c :: c in s.calls ==> CallInv(s, s.calls[c]))
    // between the reset and the increment, every call in flight began before the reset
    && (Clearing(s) ==> forall c :: c in s.calls ==> s.calls[c].start < s.cleared)
  }

  /** Neither the cluster nor the clock touches what the calls share. */
  lemma EnvironmentKeepsShared(s: State, a: Action)
    requires LockInv(s) && RateInv(s) && !a.Begin? && !a.Advance?
    ensures LockInv(Step(s, a)) && RateInv(Step(s, a))
  {
    var e := Step(s, a);
    assert e.calls == s.calls && e.granted == s.granted && e.resets == s.resets && e.lastReset == s.lastReset;
    assert e.clock >= s.clock && e.holder == s.holder && e.resetGen == s.resetGen;
    assert Granting(e) == Granting(s) && Clearing(e) == Clearing(s);
  }

  lemma EnvironmentKeepsInv(s: State, a: Action)
    requires Inv(s) && !a.Begin? && !a.Advance?
    ensures Inv(Step(s, a))
  {
    EnvironmentKeepsShared(s, a);
    var e := Step(s, a);
    assert CacheInv(e);
    forall c | c in e.calls
      ensures CallInv(e, e.calls[c])
    {
      assert CallInv(s, s.calls[c]);
    }
  }

  lemma BeginKeepsShared(s: State, c: Id, k: Kind)
    requires LockInv(s) && RateInv(s)
    ensures LockInv(Step(s, Begin(c, k))) && RateInv(Step(s, Begin(c, k)))
  {
    var e := Step(s, Begin(c, k));
    assert e.granted == s.granted && e.resets == s.resets && e.lastReset == s.lastReset && e.clock == s.clock;
    assert e.holder == s.holder && Granting(e) == Granting(s) && Clearing(e) == Clearing(s);
  }

  lemma BeginKeepsInv(s: State, c: Id, k: Kind)
    requires Inv(s)
    ensures Inv(Step(s, Begin(c, k)))
  {
    BeginKeepsShared(s, c, k);
    var e := Step(s, Begin(c, k));
    assert CacheInv(e);
    forall d | d in e.calls
      ensures CallInv(e, e.calls[d])
    {
      if d in s.calls { assert CallInv(s, s.calls[d]); }
    }
  }

  lemma ProceedKeepsLock(s: State, c: Id, trouble: bool)
    requires LockInv(s) && c in s.calls
    ensures LockInv(Proceed(s, c, trouble))
  {
  }

  lemma GrantKeepsTimes(granted: seq<int>, resets: seq<int>, clock: int)
    requires TimesInv(granted, resets, clock) && |granted| == |resets|
    requires granted != [] ==> clock - granted[|granted| - 1] >= COOLDOWN
    ensures TimesInv(granted + [clock], resets, clock)
  {
    var longer, n := granted + [clock], |granted|;
    forall i | 0 <= i < n
      ensures longer[n] - longer[i] >= COOLDOWN * (n - i)
    {
      assert i < n - 1 ==> granted[n - 1] - granted[i] >= COOLDOWN * (n - 1 - i);
    }
  }

  lemma ResetKeepsTimes(granted: seq<int>, resets: seq<int>, clock: int)
    requires TimesInv(granted, resets, clock) && |granted| == |resets| + 1 && granted[|resets|] <= clock
    ensures TimesInv(granted, resets + [clock], clock)
  {
  }

  /** What a step does to the times, and to whether a granted reset is still to come. */
  lemma TimesOfAStep(s: State, c: Id, trouble: bool)
    requires LockInv(s) && c in s.calls
    ensures var e := Proceed(s, c, trouble);
      && e.clock == s.clock
      && match s.calls[c].pc
         case Locked =>
           !Granting(s) && e.resets == s.resets
           && if e.granted == s.granted then !Granting(e) && e.lastReset == s.lastReset
              else && Granting(e) && e.granted == s.granted + [s.clock] && e.lastReset == Some(s.clock)
                   && (s.lastReset.Some? ==> s.clock - s.lastReset.value >= COOLDOWN)
         case Granted =>
           Granting(s) && !Granting(e) && e.granted == s.granted && e.resets == s.resets + [s.clock]
           && e.lastReset == s.lastReset
         case _ =>
           Granting(e) == Granting(s) && e.granted == s.granted && e.resets == s.resets && e.lastReset == s.lastReset
  {
  }

  lemma ProceedKeepsRate(s: State, c: Id, trouble: bool)
    requires LockInv(s) && RateInv(s) && c in s.calls
    ensures RateInv(Proceed(s, c, trouble))
  {
    TimesOfAStep(s, c, trouble);
    var e := Proceed(s, c, trouble);
    if e.granted != s.granted {
      GrantKeepsTimes(s.granted, s.resets, s.clock);
    } else if e.resets != s.resets {
      ResetKeepsTimes(s.granted, s.resets, s.clock);
    }
  }

  lemma ProceedKeepsCache(s: State, c: Id, trouble: bool)
    requires CacheInv(s) && c in s.calls
    ensures CacheInv(Proceed(s, c, trouble))
  {
  }

  lemma ProceedKeepsOthers(s: State, c: Id, trouble: bool, d: Id)
    requires Inv(s) && c in s.calls && d in s.calls && d != c
    ensures CallInv(Proceed(s, c, trouble), s.calls[d])
  {
    assert CallInv(s, s.calls[d]);
  }

  lemma ProceedKeepsOwn(s: State, c: Id, trouble: bool)
    requires Inv(s) && c in s.calls
    ensures CallInv(Proceed(s, c, trouble), Proceed(s, c, trouble).calls[c])
  {
    assert CallInv(s, s.calls[c]);
    if s.calls[c].pc.Refreshed? {
      RetryKeepsOwn(s, c, trouble);
    } else if s.calls[c].pc.Suspicious? {
      ProbeKeepsOwn(s, c, trouble);
    }
  }

  lemma RetryKeepsOwn(s: State, c: Id, trouble: bool)
    requires Inv(s) && c in s.calls && s.calls[c].pc.Refreshed?
    ensures CallInv(Proceed(s, c, trouble), Proceed(s, c, trouble).calls[c])
  {
    assert CallInv(s, s.calls[c]);
  }

  lemma ProbeKeepsOwn(s: State, c: Id, trouble: bool)
    requires Inv(s) && c in s.calls && s.calls[c].pc.Suspicious?
    ensures CallInv(Proceed(s, c, trouble), Proceed(s, c, trouble).calls[c])
  {
    assert CallInv(s, s.calls[c]);
  }

  lemma ProceedKeepsClearing(s: State, c: Id, trouble: bool, d: Id)
    requires Inv(s) && c in s.calls && d in s.calls && Clearing(Proceed(s, c, trouble))
    ensures s.calls[d].start < Proceed(s, c, trouble).cleared
  {
    assert CallInv(s, s.calls[d]);
    assert LockInv(s);
    if s.calls[c].pc.Granted? {
    } else {
      assert Clearing(s);
    }
  }

  lemma ProceedKeepsCalls(s: State, c: Id, trouble: bool)
    requires Inv(s) && c in s.calls
    ensures CallsInv(Proceed(s, c, trouble))
  {
    var s' := Proceed(s, c, trouble);
    forall d | d in s'.calls
      ensures CallInv(s', s'.calls[d])
      ensures Clearing(s') ==> s'.calls[d].start < s'.cleared
    {
      assert d == c || s'.calls[d] == s.calls[d];
      if d == c { ProceedKeepsOwn(s, c, trouble); } else { ProceedKeepsOthers(s, c, trouble, d); }
      if Clearing(s') { ProceedKeepsClearing(s, c, trouble, d); }
    }
  }

  lemma ProceedKeepsInv(s: State, c: Id, trouble: bool)
    requires Inv(s) && c in s.calls
    ensures Inv(Proceed(s, c, trouble))
  {
    ProceedKeepsLock(s, c, trouble);
    ProceedKeepsRate(s, c, trouble);
    ProceedKeepsCache(s, c, trouble);
    ProceedKeepsCalls(s, c, trouble);
  }

  lemma StepKeepsInv(s: State, a: Action)
    requires Inv(s)
    ensures Inv(Step(s, a))
  {
    match a
    case Begin(c, k) => BeginKeepsInv(s, c, k);
    case Advance(c, trouble) => if c in s.calls { ProceedKeepsInv(s, c, trouble); }
    case _ => EnvironmentKeepsInv(s, a);
  }

  lemma {:induction false} RunKeepsInv(s: State, actions: seq<Action>)
    requires Inv(s)
    ensures Inv(Run(s, actions))
    decreases |actions|
  {
    if actions != [] {
      StepKeepsInv(s, actions[0]);
      RunKeepsInv(Step(s, actions[0]), actions[1..]);
    }
  }

  lemma ReachableKeepsInv(s: State)
    requires Reachable(s)
    ensures Inv(s)
  {
    var actions :| Run(Init(), actions) == s;
    RunKeepsInv(Init(), actions);
  }

  /* ---- What a NotFound proves ---- */

  /**
   Whatever the interleaving, a call that concludes NotFound made its retry lookup in a discovery view
   built after the call began. A kind the cluster has served since before the call can be missing from
   that view only because the pass failed to enumerate its group; and unless another call reset the
   mapper between the retry and the probe, the probe sees that failure, so the verdict is then right.
   */
  lemma NotFoundReadFreshDiscovery(s: State, c: Id)
    requires Reachable(s) && c in s.calls && s.calls[c].Result() == Some(NotServed)
    ensures s.calls[c].pc.Absent?
    ensures var call := s.calls[c]; var r := call.pc.retry;
            && call.start < r.view.built <= r.at
            && (r.servedSince.Some? && r.servedSince.value <= call.start ==> call.kind.group in r.view.pass.failed)
            && (call.pc.clearedByThen < r.at ==> r.servedSince.None? || r.servedSince.value > call.start)
  {
    ReachableKeepsInv(s);
    assert CallInv(s, s.calls[c]);
  }

  function Two(s: State, a: Action, b: Action): State {
    Step(Step(s, a), b)
  }

  lemma ReachableTwo(s: State, a: Action, b: Action)
    requires Reachable(s)
    ensures Reachable(Two(s, a, b))
  {
    ReachableStep(s, a);
    ReachableStep(Step(s, a), b);
  }

  /** Call `c` runs from its first lookup to the reset of the mapper. */
  function ToReset(s: State, c: Id, k: Kind): State {
    Two(Two(s, Begin(c, k), Advance(c, false)), Advance(c, false), Advance(c, false))
  }

  /** A call that begins while nobody refreshes, misses its kind and may reset the mapper, gets as far as that. */
  lemma MissReachesReset(s: State, c: Id, k: Kind)
    requires s.holder.None? && c !in s.calls && k !in s.Seen().pass.served
    requires s.lastReset.None? || s.clock - s.lastReset.value >= COOLDOWN
    ensures ToReset(s, c, k) ==
      s.(cache := Some(s.(steps := s.steps + 1).Seen()), holder := Some(c), lastReset := Some(s.clock),
         granted := s.granted + [s.clock], steps := s.steps + 4,
         calls := s.calls[c := Call(k, s.steps + 1, s.resetGen, Granted)])
  {
    var call := Call(k, s.steps + 1, s.resetGen, Sampled);
    var s1 := Step(s, Begin(c, k));
    assert s1 == s.(calls := s.calls[c := call], steps := s.steps + 1);
    assert s1.Discover() == s.Discover();
    var s2 := Step(s1, Advance(c, false));
    assert s2.calls == s.calls[c := call.(pc := Missed)];
    var s3 := Step(s2, Advance(c, false));
    assert s3.calls == s.calls[c := call.(pc := Locked)];
    var s4 := Step(s3, Advance(c, false));
    assert s4.calls == s.calls[c := call.(pc := Granted)];
  }

  /** The rest of a refresh, and the retry lookup. */
  function Retry4(s: State, c: Id): State {
    Two(Two(s, Advance(c, false), Advance(c, false)), Advance(c, false), Advance(c, false))
  }

  lemma RetryMissesToo(s: State, c: Id, k: Kind)
    requires c in s.calls && s.calls[c].pc == Granted && s.calls[c].kind == k && s.calls[c].genBefore == s.resetGen
    requires s.lastReset.Some? && k in s.live && k.group in s.failing
    ensures var e := Retry4(s, c);
      && e.live == s.live && e.failing == s.failing && e.clock == s.clock && e.lastReset == s.lastReset
      && e.holder.None? && e.cache.Some? && k !in e.cache.value.pass.served
      && e.calls.Keys == s.calls.Keys && e.calls[c].pc.Suspicious?
      && e.calls[c].kind == k && e.calls[c].start == s.calls[c].start
  {
    var call := s.calls[c];
    var s1 := Step(s, Advance(c, false));
    assert s1.calls == s.calls[c := call.(pc := Cleared)] && s1.cache.None?;
    var s2 := Step(s1, Advance(c, false));
    assert s2.calls == s.calls[c := call.(pc := Leaving(s.resetGen + 1))] && s2.cache.None?;
    var s3 := Step(s2, Advance(c, false));
    assert s3.calls == s.calls[c := call.(pc := Refreshed(s.resetGen + 1))] && s3.cache.None?;
    assert k !in s3.Seen().pass.served;
  }

  /** A reset between retry and probe lets the probe read a healthier pass. */
  lemma ResetMisleadsProbe(s: State, c: Id, other: Id)
    requires c in s.calls && other in s.calls && c != other
    requires s.calls[c].pc.Suspicious? && s.calls[other].pc == Granted && s.calls[c].kind.group !in s.failing
    ensures var e := Two(s, Advance(other, false), Advance(c, false));
            c in e.calls && e.calls[c].pc.Absent? && e.calls[c].kind == s.calls[c].kind
            && e.calls[c].start == s.calls[c].start && e.live == s.live
  {
    var s1 := Step(s, Advance(other, false));
    assert s1.cache.None? && s1.calls[c] == s.calls[c] && s1.failing == s.failing && s1.live == s.live;
    assert s1.Seen().pass.failed == s.failing;
  }

  /**
   The condition on resets is needed: the comment on `resolveMapping` promises that the pass behind a
   NotFound enumerated the kind's group, but a run of two calls reports as absent a kind the cluster
   served all the time. The pass of the first call misses the group, the second call resets the mapper
   after the group recovered, and the probe of the first call then reads a healthier pass.
   */
  lemma AServedKindCanBeReportedAbsent()
    ensures exists s :: Reachable(s) && WronglyAbsent(s, 0)
  {
    var k := Kind("example.com", "Widget");
    var s12 := MisleadingSetting(k);
    var s16 := ToReset(s12, 1, k);
    MissReachesReset(s12, 1, k);
    ReachableToReset(s12, 1, k);
    ResetMisleadsProbe(s16, 0, 1);
    ReachableTwo(s16, Advance(1, false), Advance(0, false));
  }

  /** One call has missed a served kind twice; then the cooldown passes and the group recovers. */
  lemma MisleadingSetting(k: Kind) returns (s: State)
    ensures Reachable(s) && s.calls.Keys == {0} && s.failing == {} && s.live == map[k := 1]
    ensures s.calls[0].kind == k && s.calls[0].start == 3 && s.calls[0].pc.Suspicious?
    ensures s.holder.None? && s.lastReset == Some(s.clock - COOLDOWN)
    ensures s.cache.Some? && k !in s.cache.value.pass.served
  {
    var s2 := Two(Init(), Serve(k), Break(k.group));
    assert s2 == Init().(live := map[k := 1], failing := {k.group}, steps := 2);
    var s6 := ToReset(s2, 0, k);
    MissReachesReset(s2, 0, k);
    var s10 := Retry4(s6, 0);
    RetryMissesToo(s6, 0, k);
    s := Two(s10, Tick(COOLDOWN), Mend(k.group));
    assert s == s10.(clock := s10.clock + COOLDOWN, failing := {}, steps := s10.steps + 2);
    assert Run(Init(), []) == Init();
    ReachableTwo(Init(), Serve(k), Break(k.group));
    ReachableToReset(s2, 0, k);
    ReachableRetry4(s6, 0);
    ReachableTwo(s10, Tick(COOLDOWN), Mend(k.group));
  }

  lemma ReachableToReset(s: State, c: Id, k: Kind)
    requires Reachable(s)
    ensures Reachable(ToReset(s, c, k))
  {
    ReachableTwo(s, Begin(c, k), Advance(c, false));
    ReachableTwo(Two(s, Begin(c, k), Advance(c, false)), Advance(c, false), Advance(c, false));
  }

  lemma ReachableRetry4(s: State, c: Id)
    requires Reachable(s)
    ensures Reachable(Retry4(s, c))
  {
    ReachableTwo(s, Advance(c, false), Advance(c, false));
    ReachableTwo(Two(s, Advance(c, false), Advance(c, false)), Advance(c, false), Advance(c, false));
  }

  /** Some run leads from `s` to `e`. */
  ghost predicate Leads(s: State, e: State) {
    exists actions :: Run(s, actions) == e
  }

  lemma LeadsStep(s: State, e: State, a: Action)
    requires Leads(s, e)
    ensures Leads(s, Step(e, a))
  {
    var actions :| Run(s, actions) == e;
    RunExtended(s, actions, a);
  }

  lemma {:induction false} Unused(ids: set<Id>) returns (d: Id)
    ensures forall i :: i in ids ==> i < d
  {
    if ids == {} {
      d := 0;
    } else {
      var i :| i in ids;
      d := Unused(ids - {i});
      d := if d <= i then i + 1 else d;
      assert forall j :: j in ids ==> j == i || j in ids - {i};
    }
  }

  /** The call `c` still suspects its kind, and the cluster is as it was. */
  ghost predicate StillSuspicious(e: State, s: State, c: Id) {
    c in s.calls && c in e.calls && e.calls[c] == s.calls[c] && e.live == s.live && e.failing == s.failing
  }

  /** With the mutex free, a new call for the missing kind gets as far as resetting the mapper. */
  lemma AnotherCallIsGranted(s: State, e: State, c: Id) returns (r: State, h: Id)
    requires Leads(s, e) && c in e.calls && e.calls[c].pc.Suspicious? && e.holder.None?
    requires e.calls[c].kind !in e.Seen().pass.served
    requires e.lastReset.None? || e.clock - e.lastReset.value >= COOLDOWN
    ensures Leads(s, r) && StillSuspicious(r, e, c) && h != c && h in r.calls && r.calls[h].pc == Granted
  {
    h := Unused(e.calls.Keys);
    var k := e.calls[c].kind;
    MissReachesReset(e, h, k);
    r := ToReset(e, h, k);
    LeadsStep(s, e, Begin(h, k));
    var e1 := Step(e, Begin(h, k));
    LeadsStep(s, e1, Advance(h, false));
    var e2 := Step(e1, Advance(h, false));
    LeadsStep(s, e2, Advance(h, false));
    LeadsStep(s, Step(e2, Advance(h, false)), Advance(h, false));
  }

  /** One step of the mutex holder `h`, while `c` waits with its suspicion. */
  lemma HolderMoves(s: State, e: State, c: Id, h: Id) returns (r: State)
    requires Leads(s, e) && LockInv(e) && e.holder == Some(h) && h != c && c in e.calls && e.calls[c].pc.Suspicious?
    requires !e.calls[h].pc.Granted?
    ensures r == Step(e, Advance(h, false)) && Leads(s, r) && StillSuspicious(r, e, c) && r.cache == e.cache
    ensures r.lastReset == e.lastReset || r.calls[h].pc == Granted
    ensures r.clock == e.clock && h in r.calls
    ensures match e.calls[h].pc
            case Locked => r.holder == Some(h) && (r.calls[h].pc == Granted || r.calls[h].pc.Leaving?)
            case Cleared => r.holder == Some(h) && r.calls[h].pc.Leaving?
            case _ => r.holder.None?
    ensures e.calls[h].pc.Locked? && (e.lastReset.None? || e.clock - e.lastReset.value >= COOLDOWN) ==>
              r.calls[h].pc == Granted
  {
    r := Step(e, Advance(h, false));
    LeadsStep(s, e, Advance(h, false));
    assert e.calls[h].InCriticalSection();
  }

  /** From any such state some call can be brought to the point of resetting the mapper. */
  lemma AResetCanCome(s: State, e: State, c: Id) returns (r: State, h: Id)
    requires Leads(s, e) && LockInv(e) && c in e.calls && e.calls[c].pc.Suspicious?
    requires e.cache.Some? && e.calls[c].kind !in e.cache.value.pass.served
    requires e.lastReset.None? || e.clock - e.lastReset.value >= COOLDOWN
    ensures Leads(s, r) && StillSuspicious(r, e, c) && h != c && h in r.calls && r.calls[h].pc == Granted
  {
    if e.holder.None? {
      r, h := AnotherCallIsGranted(s, e, c);
    } else {
      h := e.holder.value;
      assert e.calls[h].InCriticalSection() && h != c;
      r := e;
      if !r.calls[h].pc.Granted? {
        r := HolderMoves(s, e, c, h);
        if e.calls[h].pc.Cleared? {
          ProceedKeepsLock(e, h, false);
          r := HolderMoves(s, r, c, h);
        }
        if r.calls[h].pc != Granted {
          r, h := AnotherCallIsGranted(s, r, c);
        }
      }
    }
  }

  lemma {:induction false} SuspicionPersists(s: State, actions: seq<Action>, c: Id)
    requires c in s.calls && s.calls[c].pc.Suspicious?
    ensures var e := Run(s, actions);
      && c in e.calls && e.calls[c].kind == s.calls[c].kind && e.calls[c].start == s.calls[c].start
      && match e.calls[c].pc
         case Suspicious(r) => r == s.calls[c].pc.retry
         case Absent(r, _, _) => r == s.calls[c].pc.retry
         case Done(o) => o == Unresolved
         case _ => false
    decreases |actions|
  {
    if actions != [] {
      var next := Step(s, actions[0]);
      if next.calls[c].pc.Suspicious? {
        SuspicionPersists(next, actions[1..], c);
      } else {
        SettledPersists(next, actions[1..], c);
      }
    }
  }

  lemma {:induction false} SettledPersists(s: State, actions: seq<Action>, c: Id)
    requires c in s.calls && (s.calls[c].pc.Absent? || s.calls[c].pc.Done?)
    ensures c in Run(s, actions).calls && Run(s, actions).calls[c] == s.calls[c]
    decreases |actions|
  {
    if actions != [] { SettledPersists(Step(s, actions[0]), actions[1..], c); }
  }

  /** The call concluded NotFound, and the cluster has served its kind without a break since before the call. */
  ghost predicate WronglyAbsent(s: State, c: Id) {
    && c in s.calls && s.calls[c].Result() == Some(NotServed)
    && s.calls[c].kind in s.live && s.live[s.calls[c].kind] <= s.calls[c].start
  }

  /** If the kind had been served since before the call when it retried, NotFound takes a reset after the retry. */
  lemma AbsenceFollowsAReset(s: State, c: Id, actions: seq<Action>)
    requires Reachable(s) && c in s.calls && s.calls[c].pc.Suspicious?
    requires s.calls[c].pc.retry.servedSince.Some? && s.calls[c].pc.retry.servedSince.value <= s.calls[c].start
    ensures var e := Run(s, actions);
      c in e.calls && (e.calls[c].Result() == Some(NotServed) ==> e.cleared >= s.calls[c].pc.retry.at)
  {
    SuspicionPersists(s, actions, c);
    ReachableRun(s, actions);
    var f := Run(s, actions);
    if f.calls[c].Result() == Some(NotServed) {
      NotFoundReadFreshDiscovery(f, c);
      ReachableKeepsInv(f);
      assert CallInv(f, f.calls[c]);
    }
  }

  /**
   The condition is exact. Take any reachable state in which a call is about to probe for a kind the
   cluster has served without a break since before the call. Some continuation reports the kind absent
   while the cluster still serves it; and whatever the continuation, a NotFound means that the mapper was
   reset after the retry lookup.
   */
  lemma WrongAbsenceNeedsAReset(s: State, c: Id, actions: seq<Action>)
    requires Reachable(s) && c in s.calls && s.calls[c].pc.Suspicious?
    requires s.calls[c].kind in s.live && s.live[s.calls[c].kind] <= s.calls[c].start
    ensures exists e :: Leads(s, e) && WronglyAbsent(e, c)
    ensures var e := Run(s, actions);
      c in e.calls && (e.calls[c].Result() == Some(NotServed) ==> e.cleared >= s.calls[c].pc.retry.at)
  {
    var e := SomeWrongAbsence(s, c);
    assert Leads(s, e) && WronglyAbsent(e, c);
    ReachableKeepsInv(s);
    assert CallInv(s, s.calls[c]);
    AbsenceFollowsAReset(s, c, actions);
  }

  lemma {:induction false} ReachableRun(s: State, actions: seq<Action>)
    requires Reachable(s)
    ensures Reachable(Run(s, actions))
    decreases |actions|
  {
    if actions != [] {
      ReachableStep(s, actions[0]);
      ReachableRun(Step(s, actions[0]), actions[1..]);
    }
  }

  lemma SomeWrongAbsence(s: State, c: Id) returns (e: State)
    requires Reachable(s) && c in s.calls && s.calls[c].pc.Suspicious?
    ensures Leads(s, e) && e.live == s.live && c in e.calls && e.calls[c].Result() == Some(NotServed)
    ensures e.calls[c].kind == s.calls[c].kind && e.calls[c].start == s.calls[c].start
  {
    ReachableKeepsInv(s);
    var g := s.calls[c].kind.group;
    assert Run(s, []) == s;
    LeadsStep(s, s, Mend(g));
    var s1 := Step(s, Mend(g));
    if g !in s1.Seen().pass.failed {
      LeadsStep(s, s1, Advance(c, false));
      e := Step(s1, Advance(c, false));
    } else {
      assert s1.cache == s.cache && s.cache.Some? && s.calls[c].kind !in s.cache.value.pass.served;
      LeadsStep(s, s1, Tick(COOLDOWN));
      var s2 := Step(s1, Tick(COOLDOWN));
      assert LockInv(s2);
      var r, h := AResetCanCome(s, s2, c);
      ResetMisleadsProbe(r, c, h);
      LeadsStep(s, r, Advance(h, false));
      LeadsStep(s, Step(r, Advance(h, false)), Advance(c, false));
      e := Two(r, Advance(h, false), Advance(c, false));
    }
  }

  /* ---- Rate limiting ---- */

  function CountWithin(times: seq<int>, a: int, b: int): nat {
    if times == [] then 0
    else (if a <= times[0] <= b then 1 else 0) + CountWithin(times[1..], a, b)
  }

  /** What a window counts lies between two positions inside it. */
  lemma {:induction false} CountSpan(times: seq<int>, a: int, b: int) returns (i: nat, j: nat)
    requires CountWithin(times, a, b) > 0
    ensures i <= j < |times| && a <= times[i] <= b && a <= times[j] <= b
    ensures CountWithin(times, a, b) <= j - i + 1
  {
    var rest := times[1..];
    if CountWithin(rest, a, b) == 0 {
      i, j := 0, 0;
    } else {
      i, j := CountSpan(rest, a, b);
      i, j := i + 1, j + 1;
      if a <= times[0] <= b { i := 0; }
    }
  }

  /** Times that are one cooldown apart fit into a window (b - a) / COOLDOWN + 1 times at most. */
  lemma SpacedCount(times: seq<int>, a: int, b: int)
    requires Spaced(times) && a <= b
    ensures CountWithin(times, a, b) <= (b - a) / COOLDOWN + 1
  {
    if CountWithin(times, a, b) > 0 {
      var i, j := CountSpan(times, a, b);
      assert i < j ==> times[j] - times[i] >= COOLDOWN * (j - i);
    }
  }

  /** Resets that fall between spaced grants fit in at most once more. */
  lemma InterleavedCount(granted: seq<int>, resets: seq<int>, a: int, b: int)
    requires Spaced(granted) && Interleaved(granted, resets) && a <= b
    ensures CountWithin(resets, a, b) <= (b - a) / COOLDOWN + 2
  {
    if CountWithin(resets, a, b) > 0 {
      var i, j := CountSpan(resets, a, b);
      if i + 1 < j {
        assert granted[j] - granted[i + 1] >= COOLDOWN * (j - (i + 1));
      }
      assert i < j ==> a <= resets[i] <= granted[i + 1] && granted[j] <= resets[j] <= b;
    }
  }

  /**
   Over every run and for any number of calls: refreshes are granted one cooldown apart, so at most
   (b - a) / COOLDOWN + 1 of them between a and b. Each reset of the mapper falls between its grant and
   the next one, so at most one more reset than that falls between a and b. `resetGen` counts the resets,
   one behind only inside the critical section.
   */
  lemma DiscoveryIsRateLimited(s: State, a: int, b: int)
    requires Reachable(s) && a <= b
    ensures forall i :: 0 < i < |s.granted| ==> s.granted[i] - s.granted[i - 1] >= COOLDOWN
    ensures CountWithin(s.granted, a, b) <= (b - a) / COOLDOWN + 1
    ensures Interleaved(s.granted, s.resets)
    ensures CountWithin(s.resets, a, b) <= (b - a) / COOLDOWN + 2
    ensures |s.resets| == s.resetGen + if Clearing(s) then 1 else 0
  {
    ReachableKeepsInv(s);
    SpacedCount(s.granted, a, b);
    InterleavedCount(s.granted, s.resets, a, b);
  }

  /** A granted call resets the mapper and leaves the critical section. */
  function Release(s: State, c: Id): State {
    Step(Two(s, Advance(c, false), Advance(c, false)), Advance(c, false))
  }

  lemma GrantedIsReleased(s: State, c: Id)
    requires c in s.calls && s.calls[c].pc == Granted
    ensures var e := Release(s, c);
      && e.cache.None? && e.holder.None? && e.resets == s.resets + [s.clock] && e.live == s.live
      && e.granted == s.granted
      && e.lastReset == s.lastReset && e.clock == s.clock && e.calls.Keys == s.calls.Keys
  {
    var call := s.calls[c];
    var s1 := Step(s, Advance(c, false));
    assert s1.calls == s.calls[c := call.(pc := Cleared)];
    var s2 := Step(s1, Advance(c, false));
    assert s2.calls == s.calls[c := call.(pc := Leaving(s.resetGen + 1))];
  }

  /**
   A reset comes early only by as much as the one before it came late: the distance of two resets falls
   short of a cooldown by no more than the delay between granting and performing the first of them.
   */
  lemma ResetsAreSpacedUnlessDelayed(s: State, k: nat)
    requires Reachable(s) && k + 1 < |s.resets|
    ensures |s.resets| <= |s.granted|
    ensures s.resets[k + 1] - s.resets[k] >= COOLDOWN - (s.resets[k] - s.granted[k])
    ensures s.resets[k] == s.granted[k] ==> s.resets[k + 1] - s.resets[k] >= COOLDOWN
  {
    ReachableKeepsInv(s);
    assert s.granted[k + 1] - s.granted[k] >= COOLDOWN * (k + 1 - k);
  }

  /** One reset, performed `delay` after it was granted, and a cooldown gone by since it was granted. */
  lemma LateReset(k: Kind, delay: nat) returns (s: State)
    requires delay <= COOLDOWN
    ensures Reachable(s) && s.granted == [0] && s.resets == [delay] && s.clock == COOLDOWN && s.lastReset == Some(0)
    ensures s.holder.None? && s.calls.Keys == {0} && s.cache.None? && s.live == map[]
  {
    var s0 := Init();
    assert Run(s0, []) == s0;
    MissReachesReset(s0, 0, k);
    ReachableToReset(s0, 0, k);
    var s5 := Step(ToReset(s0, 0, k), Tick(delay));
    ReachableStep(ToReset(s0, 0, k), Tick(delay));
    GrantedIsReleased(s5, 0);
    ReachableRelease(s5, 0);
    s := Step(Release(s5, 0), Tick(COOLDOWN - delay));
    ReachableStep(Release(s5, 0), Tick(COOLDOWN - delay));
  }

  lemma ReachableRelease(s: State, c: Id)
    requires Reachable(s)
    ensures Reachable(Release(s, c))
  {
    ReachableTwo(s, Advance(c, false), Advance(c, false));
    ReachableStep(Two(s, Advance(c, false), Advance(c, false)), Advance(c, false));
  }

  /**
   That shortfall is reached for every delay up to a cooldown: the first of two resets is granted at 0 and
   performed `delay` later, the second is granted and performed at COOLDOWN.
   */
  lemma DelayedResetsComeCloser(delay: nat)
    requires delay <= COOLDOWN
    ensures exists s :: Reachable(s) && s.granted == [0, COOLDOWN] && s.resets == [delay, COOLDOWN]
  {
    var k := Kind("example.com", "Widget");
    var s := LateReset(k, delay);
    MissReachesReset(s, 1, k);
    ReachableToReset(s, 1, k);
    var r := ToReset(s, 1, k);
    GrantedIsReleased(r, 1);
    ReachableRelease(r, 1);
    assert Release(r, 1).granted == [0] + [COOLDOWN] == [0, COOLDOWN];
    assert Release(r, 1).resets == [delay] + [COOLDOWN] == [delay, COOLDOWN];
  }

  /** The bound on resets in a window is reached: two can follow each other within a nanosecond. */
  lemma ResetsCanFollowClosely()
    ensures exists s :: Reachable(s) && s.resets == [COOLDOWN - 1, COOLDOWN]
    ensures CountWithin([COOLDOWN - 1, COOLDOWN], COOLDOWN - 1, COOLDOWN) == 2 == 1 / COOLDOWN + 2
  {
    DelayedResetsComeCloser(COOLDOWN - 1);
    assert [COOLDOWN - 1, COOLDOWN][1..] == [COOLDOWN] && [COOLDOWN][1..] == [];
    assert CountWithin([COOLDOWN], COOLDOWN - 1, COOLDOWN) == 1;
  }

  /* ---- The fetcher itself ---- */

  /** `e` follows from `s` by steps of call `c` alone. */
  ghost predicate Alone(s: State, e: State, c: Id) {
    exists actions :: OnlyBy(actions, c) && Run(s, actions) == e
  }

  ghost predicate OnlyBy(actions: seq<Action>, c: Id) {
    forall a :: a in actions ==> (a.Begin? || a.Advance?) && a.id == c
  }

  lemma AloneStep(s: State, e: State, c: Id, a: Action)
    requires Alone(s, e, c) && (a.Begin? || a.Advance?) && a.id == c
    ensures Alone(s, Step(e, a), c)
  {
    var actions :| OnlyBy(actions, c) && Run(s, actions) == e;
    RunExtended(s, actions, a);
    assert OnlyBy(actions + [a], c);
  }

  class ClusterFetcher {
    var cache: Option<Discovery>
    var lastReset: Option<int>
    var resetGen: nat

    constructor ()
      ensures Represents(Init())
    {
      cache, lastReset, resetGen := None, None, 0;
    }

    /** The fields are those of the step system while nobody holds the mutex. */
    ghost predicate Represents(s: State)
      reads this
    {
      && cache == (if s.cache.Some? then Some(s.cache.value.pass) else None)
      && lastReset == s.lastReset && resetGen == s.resetGen && s.holder.None?
    }

    /** Granted at most once per cooldown, it resets the mapper; `gen` is the generation as of return. */
    method RefreshDiscovery(now: int) returns (refreshed: bool, gen: nat)
      modifies this
      ensures refreshed <==> old(lastReset).None? || now - old(lastReset).value >= COOLDOWN
      ensures refreshed ==> cache == None && lastReset == Some(now) && resetGen == old(resetGen) + 1
      ensures !refreshed ==> cache == old(cache) && lastReset == old(lastReset) && resetGen == old(resetGen)
      ensures gen == resetGen
    {
      if lastReset.None? || now - lastReset.value >= COOLDOWN {
        lastReset := Some(now);
        cache := None;
        resetGen := resetGen + 1;
        return true, resetGen;
      }
      return false, resetGen;
    }

    /** What a lookup or probe reads; `cluster` is what a discovery pass would see now. */
    method See(cluster: Discovery) returns (pass: Discovery)
      modifies this`cache
      ensures pass == (if old(cache).Some? then old(cache).value else cluster) && cache == Some(pass)
    {
      if cache.None? { cache := Some(cluster); }
      return cache.value;
    }

    /**
     `resolveMapping` while no other call runs and the cluster does not change: a run of the step
     system by this call alone, in which NotFound is always true of the cluster.
     */
    method ResolveMapping(kind: Kind, cluster: Discovery, now: int, trouble: (bool, bool, bool),
                          ghost s: State, ghost c: Id) returns (o: Outcome, ghost e: State)
      requires Represents(s) && c !in s.calls && s.clock == now && s.Discover() == cluster
      modifies this
      ensures Alone(s, e, c) && Represents(e) && c in e.calls && e.calls[c].Result() == Some(o)
      ensures o == NotServed ==> && kind !in cluster.served && kind.group !in cluster.failed
                                 && resetGen == old(resetGen) + 1
      // exactly when: found in what was cached or, after a refresh, in the cluster, and absent from both
      ensures var first := if old(cache).Some? then old(cache).value else cluster;
              var due := old(lastReset).None? || now - old(lastReset).value >= COOLDOWN;
              && (o == Found <==> !trouble.0 && (kind in first.served || (due && !trouble.1 && kind in cluster.served)))
              && (o == NotServed <==> && !trouble.0 && !trouble.1 && !trouble.2 && due && kind !in first.served
                                      && kind !in cluster.served && kind.group !in cluster.failed)
      // the mapper is reset exactly when the first lookup missed and a minute has passed
      ensures resetGen == old(resetGen) +
                if && !trouble.0 && kind !in (if old(cache).Some? then old(cache).value else cluster).served
                   && (old(lastReset).None? || now - old(lastReset).value >= 60_000_000_000) then 1 else 0
    {
      var genBefore := resetGen;
      e := BeginAlone(s, c, kind);

      e := FirstLookup(s, e, c, trouble.0);
      if trouble.0 { return Unresolved, e; }
      var pass := See(cluster);
      if kind in pass.served { return Found, e; }

      var refreshed, genAfter := RefreshDiscovery(now);
      e := RefreshSteps(s, e, c);

      e := RetryLookup(s, e, c, trouble.1);
      if trouble.1 { return Unresolved, e; }
      pass := See(cluster);
      if kind in pass.served { return Found, e; }
      if genAfter == genBefore { return Unresolved, e; }

      e := Probe(s, e, c, trouble.2);
      if trouble.2 { return Unresolved, e; }
      pass := See(cluster);
      return if kind.group in pass.failed then Unresolved else NotServed, e;
    }
  }

  /** The fields of the cluster and of the mutex-guarded state are the same. */
  ghost predicate SameSetting(a: State, b: State) {
    a.live == b.live && a.failing == b.failing && a.clock == b.clock && a.holder == b.holder
    && a.lastReset == b.lastReset && a.resetGen == b.resetGen
  }

  ghost function PassSeen(s: State): Discovery {
    if s.cache.Some? then s.cache.value.pass else s.Discover()
  }

  lemma BeginAlone(s: State, c: Id, k: Kind) returns (e: State)
    requires c !in s.calls && s.holder.None?
    ensures Alone(s, e, c) && SameSetting(s, e) && e.cache == s.cache && e.Discover() == s.Discover()
    ensures c in e.calls && e.calls[c] == Call(k, s.steps + 1, s.resetGen, Sampled)
  {
    assert OnlyBy([], c) && Run(s, []) == s;
    AloneStep(s, s, c, Begin(c, k));
    e := Step(s, Begin(c, k));
  }

  lemma FirstLookup(s: State, e: State, c: Id, trouble: bool) returns (e': State)
    requires Alone(s, e, c) && c in e.calls && e.calls[c].pc == Sampled
    ensures Alone(s, e', c) && SameSetting(e, e') && e'.Discover() == e.Discover() && c in e'.calls
    ensures trouble ==> e'.cache == e.cache && e'.calls[c].pc == Done(Unresolved)
    ensures !trouble ==>
      && e'.cache.Some? && e'.cache.value.pass == PassSeen(e)
      && e'.calls[c] == e.calls[c].(pc := if e.calls[c].kind in PassSeen(e).served then Done(Found) else Missed)
  {
    e' := Act(s, e, c, trouble);
  }

  lemma RetryLookup(s: State, e: State, c: Id, trouble: bool) returns (e': State)
    requires Alone(s, e, c) && c in e.calls && e.calls[c].pc.Refreshed?
    ensures Alone(s, e', c) && SameSetting(e, e') && e'.Discover() == e.Discover() && c in e'.calls
    ensures e'.calls[c].kind == e.calls[c].kind
    ensures trouble ==> e'.cache == e.cache && e'.calls[c].pc == Done(Unresolved)
    ensures !trouble ==>
      && e'.cache.Some? && e'.cache.value.pass == PassSeen(e)
      && if e.calls[c].kind in PassSeen(e).served then e'.calls[c].pc == Done(Found)
         else if e.calls[c].pc.genAfter == e.calls[c].genBefore then e'.calls[c].pc == Done(Unresolved)
         else e'.calls[c].pc.Suspicious?
  {
    e' := Act(s, e, c, trouble);
  }

  lemma Probe(s: State, e: State, c: Id, trouble: bool) returns (e': State)
    requires Alone(s, e, c) && c in e.calls && e.calls[c].pc.Suspicious?
    ensures Alone(s, e', c) && SameSetting(e, e') && c in e'.calls
    ensures trouble ==> e'.cache == e.cache && e'.calls[c].pc == Done(Unresolved)
    ensures !trouble ==>
      && e'.cache.Some? && e'.cache.value.pass == PassSeen(e)
      && if e.calls[c].kind.group in PassSeen(e).failed then e'.calls[c].pc == Done(Unresolved)
         else e'.calls[c].pc.Absent?
  {
    e' := Act(s, e, c, trouble);
  }

  /** One more step of call `c`. */
  lemma Act(s: State, e: State, c: Id, trouble: bool) returns (e': State)
    requires Alone(s, e, c)
    ensures e' == Step(e, Advance(c, trouble)) && Alone(s, e', c)
  {
    AloneStep(s, e, c, Advance(c, trouble));
    e' := Step(e, Advance(c, trouble));
  }

  /** `refreshDiscovery` as steps of one call that nobody interrupts. */
  lemma RefreshSteps(s: State, e: State, c: Id) returns (e': State)
    requires Alone(s, e, c) && c in e.calls && e.calls[c].pc == Missed && e.holder.None?
    ensures Alone(s, e', c) && e'.holder.None? && e'.live == e.live && e'.failing == e.failing && e'.clock == e.clock
    ensures c in e'.calls && e'.calls[c] == e.calls[c].(pc := Refreshed(e'.resetGen)) && e'.Discover() == e.Discover()
    ensures if e.lastReset.None? || e.clock - e.lastReset.value >= COOLDOWN
            then e'.cache == None && e'.lastReset == Some(e.clock) && e'.resetGen == e.resetGen + 1
            else e'.cache == e.cache && e'.lastReset == e.lastReset && e'.resetGen == e.resetGen
  {
    e' := Act(s, e, c, false);
    e' := Act(s, e', c, false);
    if e'.calls[c].pc.Granted? {
      e' := Act(s, e', c, false);
      assert e'.calls[c].pc.Cleared?;
      e' := Act(s, e', c, false);
    }
    assert e'.calls[c].pc.Leaving?;
    e' := Act(s, e', c, false);
  }
}
