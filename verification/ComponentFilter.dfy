/**
 Choosing the components of a bundle and accounting for value overrides (pkg/bundler/bundler.go).
 The registry's alias lookup is an arbitrary function from a component name to further override keys.
 */
module ComponentFilter {
  import opened Prelude

  const ENABLED_KEY := "enabled"
  const DEPLOYER_KEY := "deployer"

  datatype Ref = Ref(name: string, enabled: bool, dependencies: seq<string>)

  /** `driverless` is metadata.gpuDriverState=absent. */
  datatype Recipe = Recipe(refs: seq<Ref>, order: seq<string>, driverless: bool)

  /** Override maps by component key and value path; typed values and dynamic paths are opaque. */
  datatype Config = Config(scalars: map<string, map<string, string>>, typed: map<string, map<string, nat>>,
                           dynamic: map<string, set<string>>, requested: seq<string>)

  datatype Reason = DisabledByRecipe | DisabledByOverride | ExcludedByFilter

  datatype Selection = Rejected | Selected(refs: seq<Ref>, order: seq<string>, reasons: map<string, Reason>)

  /** strconv.ParseBool */
  function ParseBool(s: string): Option<bool> {
    if s in {"1", "t", "T", "TRUE", "true", "True"} then Some(true)
    else if s in {"0", "f", "F", "FALSE", "false", "False"} then Some(false)
    else None
  }

  /* ---- Merging aliases ---- */

  function Merged<V>(all: map<string, map<string, V>>, keys: seq<string>): Option<map<string, V>> {
    if keys == [] then None
    else
      var rest := Merged(all, keys[1..]);
      if keys[0] !in all then rest else Some(rest.GetOr(map[]) + all[keys[0]])
  }

  predicate Supplies<V>(all: map<string, map<string, V>>, key: string, path: string) {
    key in all && path in all[key]
  }

  /** Key `i` supplies the path, and no key of higher priority does. */
  ghost predicate FirstSupplier<V>(all: map<string, map<string, V>>, keys: seq<string>, path: string, i: int) {
    0 <= i < |keys| && Supplies(all, keys[i], path) && forall j :: 0 <= j < i ==> !Supplies(all, keys[j], path)
  }

  /** `mergeOverridesAcrossKeys`, from the lowest priority upwards. */
  method MergeOverridesAcrossKeys<V>(all: map<string, map<string, V>>, keys: seq<string>)
    returns (merged: Option<map<string, V>>)
    ensures merged == Merged(all, keys)
  {
    merged := None;
    for i := |keys| downto 0
      invariant merged == Merged(all, keys[i..])
    {
      if keys[i] in all {
        merged := Some(merged.GetOr(map[]) + all[keys[i]]);
      }
    }
  }

  /** The merged map holds exactly the supplied paths, each with the value of its highest-priority key. */
  lemma {:induction false} MergedMeaning<V>(all: map<string, map<string, V>>, keys: seq<string>, path: string)
    ensures Merged(all, keys).None? <==> forall k :: k in keys ==> k !in all
    ensures path in Merged(all, keys).GetOr(map[]) <==> exists i :: FirstSupplier(all, keys, path, i)
    ensures forall i :: FirstSupplier(all, keys, path, i) ==>
              path in Merged(all, keys).GetOr(map[]) && Merged(all, keys).value[path] == all[keys[i]][path]
  {
    if keys != [] {
      var rest := keys[1..];
      MergedMeaning(all, rest, path);
      if Supplies(all, keys[0], path) {
        assert FirstSupplier(all, keys, path, 0);
      } else {
        forall i
          ensures FirstSupplier(all, rest, path, i) <==> i >= 0 && FirstSupplier(all, keys, path, i + 1)
        {
          if FirstSupplier(all, rest, path, i) {
            assert forall j :: 0 < j < i + 1 ==> keys[j] == rest[j - 1];
          }
          if i >= 0 && FirstSupplier(all, keys, path, i + 1) {
            assert forall j :: 0 <= j < i ==> rest[j] == keys[j + 1];
          }
        }
        if i :| FirstSupplier(all, rest, path, i) { assert FirstSupplier(all, keys, path, i + 1); }
        forall i | FirstSupplier(all, keys, path, i)
          ensures FirstSupplier(all, rest, path, i - 1)
        {
        }
      }
    }
  }

  lemma {:induction false} SupplierExists<V>(all: map<string, map<string, V>>, keys: seq<string>, path: string, i: nat)
    requires i < |keys| && Supplies(all, keys[i], path)
    ensures exists j :: FirstSupplier(all, keys, path, j)
  {
    if j :| 0 <= j < i && Supplies(all, keys[j], path) {
      SupplierExists(all, keys, path, j);
    } else {
      assert FirstSupplier(all, keys, path, i);
    }
  }

  /* ---- Which components are kept ---- */

  datatype Toggle = Unset | Set(on: bool) | Unparseable

  function Names(refs: seq<Ref>): set<string> {
    set r | r in refs :: r.name
  }

  ghost predicate DistinctNames(refs: seq<Ref>) {
    forall i, j :: 0 <= i < j < |refs| ==> refs[i].name != refs[j].name
  }

  /** The dependencies that stay: those of components that are kept, or that the recipe does not declare. */
  function Pruned(dependencies: seq<string>, declared: set<string>, kept: set<string>): seq<string> {
    if dependencies == [] then []
    else
      var last := dependencies[|dependencies| - 1];
      Pruned(dependencies[..|dependencies| - 1], declared, kept)
      + if last in declared && last !in kept then [] else [last]
  }

  function PrunedRefs(refs: seq<Ref>, declared: set<string>, kept: set<string>): seq<Ref> {
    if refs == [] then []
    else
      var last := refs[|refs| - 1];
      PrunedRefs(refs[..|refs| - 1], declared, kept)
      + [last.(dependencies := Pruned(last.dependencies, declared, kept))]
  }

  function FilteredOrder(order: seq<string>, kept: set<string>): seq<string> {
    if order == [] then []
    else
      FilteredOrder(order[..|order| - 1], kept) + if order[|order| - 1] in kept then [order[|order| - 1]] else []
  }

  predicate IsGpuOperator(name: string) {
    name in {"gpu-operator", "gpu-operator-ocp"}
  }

  /** `overridePathsByComponent` */
  function PathsByComponent<V>(all: map<string, map<string, V>>): map<string, set<string>> {
    map k | k in all :: all[k].Keys
  }

  class Bundler {
    const config: Option<Config>
    const aliases: string -> seq<string>
    var warnings: seq<string>   // the components whose exclusion was warned about

    constructor (config: Option<Config>, aliases: string -> seq<string>)
      ensures this.config == config && this.aliases == aliases && warnings == []
    {
      this.config, this.aliases, warnings := config, aliases, [];
    }

    /** `componentOverrideKeys`: the exact name before its aliases. */
    function KeysOf(name: string): seq<string> {
      [name] + aliases(name)
    }

    function ScalarsOf(name: string): map<string, string> {
      if config.None? then map[] else Merged(config.value.scalars, KeysOf(name)).GetOr(map[])
    }

    /** The same for typed overrides. */
    function TypedOf(name: string): map<string, nat> {
      if config.None? then map[] else Merged(config.value.typed, KeysOf(name)).GetOr(map[])
    }

    /** `getSetEnabledOverride` */
    function ToggleOf(name: string): Toggle {
      if ENABLED_KEY !in ScalarsOf(name) then Unset
      else match ParseBool(ScalarsOf(name)[ENABLED_KEY])
           case Some(on) => Set(on)
           case None => Unparseable
    }

    function Requested(): seq<string> {
      if config.None? then [] else config.value.requested
    }

    /** Enabled by the recipe and not switched off. */
    predicate On(r: Ref) {
      r.enabled && ToggleOf(r.name) != Set(false)
    }

    predicate Picked(name: string) {
      Requested() == [] || name in Requested()
    }

    function OnRefs(refs: seq<Ref>): seq<Ref> {
      if refs == [] then []
      else OnRefs(refs[..|refs| - 1]) + if On(refs[|refs| - 1]) then [refs[|refs| - 1]] else []
    }

    function PickedRefs(refs: seq<Ref>): seq<Ref> {
      if refs == [] then []
      else PickedRefs(refs[..|refs| - 1]) + if Picked(refs[|refs| - 1].name) then [refs[|refs| - 1]] else []
    }

    function KeptRefs(recipe: Recipe): seq<Ref> {
      PickedRefs(OnRefs(recipe.refs))
    }

    function Kept(recipe: Recipe): set<string> {
      Names(KeptRefs(recipe))
    }

    function Why(r: Ref): Reason {
      if On(r) then ExcludedByFilter else if r.enabled then DisabledByOverride else DisabledByRecipe
    }

    /** An override that cannot be honoured for this component. */
    predicate Contradicts(r: Ref) {
      ToggleOf(r.name) == Unparseable || (ToggleOf(r.name) == Set(true) && !r.enabled)
    }

    /** Exactly the requests that are errors. */
    ghost predicate Refuses(recipe: Recipe) {
      || (exists r :: r in recipe.refs && Contradicts(r))
      || (exists n :: n in Requested() && n !in Names(OnRefs(recipe.refs)))
      || KeptRefs(recipe) == []
    }

    ghost predicate Excluded(r: Ref) {
      !On(r) || !Picked(r.name)
    }

    /** The reasons name the excluded components among `refs`, each with the reason of one of them. */
    ghost predicate Reasoned(refs: seq<Ref>, reasons: map<string, Reason>) {
      && (forall r :: r in refs && Excluded(r) ==> r.name in reasons)
      && (forall n :: n in reasons ==> exists r :: r in refs && Excluded(r) && r.name == n && reasons[n] == Why(r))
    }

    /** The components of `refs` left out by recipe or toggle, with the reasons known so far. */
    ghost predicate OffReasoned(refs: seq<Ref>, reasons: map<string, Reason>) {
      && (forall r :: r in refs && !On(r) ==> r.name in reasons)
      && (forall n :: n in reasons ==> exists r :: r in refs && !On(r) && r.name == n && reasons[n] == Why(r))
    }

    /** `warnExcludedDriverInstaller` */
    method WarnExcluded(recipe: Recipe, name: string)
      modifies this`warnings
      ensures warnings == old(warnings) + if recipe.driverless && IsGpuOperator(name) then [name] else []
    {
      if IsGpuOperator(name) && recipe.driverless {
        warnings := warnings + [name];
      }
    }

    lemma OnRefsMembers(refs: seq<Ref>, r: Ref)
      ensures r in OnRefs(refs) <==> r in refs && On(r)
    {
      if refs != [] {
        OnRefsMembers(refs[..|refs| - 1], r);
        assert refs == refs[..|refs| - 1] + [refs[|refs| - 1]];
      }
    }

    lemma PickedRefsMembers(refs: seq<Ref>, r: Ref)
      ensures r in PickedRefs(refs) <==> r in refs && Picked(r.name)
    {
      if refs != [] {
        PickedRefsMembers(refs[..|refs| - 1], r);
        assert refs == refs[..|refs| - 1] + [refs[|refs| - 1]];
      }
    }

    lemma OffReasonedStep(refs: seq<Ref>, r: Ref, reasons: map<string, Reason>)
      requires OffReasoned(refs, reasons)
      ensures if On(r) then OffReasoned(refs + [r], reasons) else OffReasoned(refs + [r], reasons[r.name := Why(r)])
    {
      var next := if On(r) then reasons else reasons[r.name := Why(r)];
      assert r in refs + [r];
      forall n | n in next
        ensures exists q :: q in refs + [r] && !On(q) && q.name == n && next[n] == Why(q)
      {
        if On(r) || n != r.name {
          var q :| q in refs && !On(q) && q.name == n && reasons[n] == Why(q);
          assert q in refs + [r];
        }
      }
    }

    lemma SwitchStep(refs: seq<Ref>, i: nat, reasons: map<string, Reason>)
      requires i < |refs| && OffReasoned(refs[..i], reasons)
      ensures refs[..i + 1] == refs[..i] + [refs[i]]
      ensures OnRefs(refs[..i + 1]) == OnRefs(refs[..i]) + if On(refs[i]) then [refs[i]] else []
      ensures OffReasoned(refs[..i + 1], if On(refs[i]) then reasons else reasons[refs[i].name := Why(refs[i])])
    {
      assert refs[..i + 1] == refs[..i] + [refs[i]] && refs[..i + 1][..i] == refs[..i];
      OffReasonedStep(refs[..i], refs[i], reasons);
    }

    /** Between the two lists of warnings, exactly the excluded GPU operators of a driverless cluster were added. */
    ghost predicate Warned(before: seq<string>, after: seq<string>, recipe: Recipe, excluded: set<string>) {
      && before <= after
      && forall n :: n in after[|before|..] <==> recipe.driverless && IsGpuOperator(n) && n in excluded
    }

    lemma WarnedStep(before: seq<string>, after: seq<string>, recipe: Recipe, excluded: set<string>, name: string)
      requires Warned(before, after, recipe, excluded)
      ensures Warned(before, after + if recipe.driverless && IsGpuOperator(name) then [name] else [],
                     recipe, excluded + {name})
    {
      var next := after + if recipe.driverless && IsGpuOperator(name) then [name] else [];
      assert next[|before|..] == after[|before|..] + next[|after|..];
    }

    /** The first loop: recipe gates and scalar toggles. */
    method SwitchOff(recipe: Recipe) returns (ok: bool, enabled: seq<Ref>, reasons: map<string, Reason>)
      modifies this`warnings
      ensures ok <==> forall r :: r in recipe.refs ==> !Contradicts(r)
      ensures ok ==> enabled == OnRefs(recipe.refs) && OffReasoned(recipe.refs, reasons)
      ensures ok ==> Warned(old(warnings), warnings, recipe, reasons.Keys)
    {
      ok, enabled, reasons := true, [], map[];
      var refs := recipe.refs;
      for i := 0 to |refs|
        invariant forall r :: r in refs[..i] ==> !Contradicts(r)
        invariant enabled == OnRefs(refs[..i]) && OffReasoned(refs[..i], reasons)
        invariant Warned(old(warnings), warnings, recipe, reasons.Keys)
      {
        var r := refs[i];
        SwitchStep(refs, i, reasons);
        var toggle := ToggleOf(r.name);
        if toggle.Unparseable? || (toggle == Set(true) && !r.enabled) {
          assert r in refs && Contradicts(r);
          return false, enabled, reasons;
        }
        if toggle == Set(false) || !r.enabled {
          WarnedStep(old(warnings), warnings, recipe, reasons.Keys, r.name);
          reasons := reasons[r.name := if r.enabled then DisabledByOverride else DisabledByRecipe];
          WarnExcluded(recipe, r.name);
        } else {
          enabled := enabled + [r];
        }
      }
      assert refs[..|refs|] == refs;
    }

    lemma ReasonedStep(all: seq<Ref>, refs: seq<Ref>, r: Ref, reasons: map<string, Reason>)
      requires r in all && On(r) && PickReasoned(all, refs, reasons)
      ensures PickReasoned(all, refs + [r], if Picked(r.name) then reasons else reasons[r.name := ExcludedByFilter])
    {
      var next := if Picked(r.name) then reasons else reasons[r.name := ExcludedByFilter];
      forall n | n in next
        ensures exists q :: q in all && Excluded(q) && q.name == n && next[n] == Why(q)
      {
        if n == r.name && !Picked(r.name) {
          assert Excluded(r) && Why(r) == ExcludedByFilter;
        } else {
          assert n in reasons && next[n] == reasons[n];
        }
      }
    }

    lemma PickStep(all: seq<Ref>, enabled: seq<Ref>, i: nat, reasons: map<string, Reason>)
      requires i < |enabled| && enabled[i] in all && On(enabled[i]) && PickReasoned(all, enabled[..i], reasons)
      ensures PickedRefs(enabled[..i + 1])
           == PickedRefs(enabled[..i]) + if Picked(enabled[i].name) then [enabled[i]] else []
      ensures PickReasoned(all, enabled[..i + 1],
                           if Picked(enabled[i].name) then reasons else reasons[enabled[i].name := ExcludedByFilter])
    {
      assert enabled[..i + 1] == enabled[..i] + [enabled[i]] && enabled[..i + 1][..i] == enabled[..i];
      ReasonedStep(all, enabled[..i], enabled[i], reasons);
    }

    /** Reasons for what the gates and toggles left out, and for what the filter dropped among `refs`. */
    ghost predicate PickReasoned(all: seq<Ref>, refs: seq<Ref>, reasons: map<string, Reason>) {
      && (forall r :: r in all && !On(r) ==> r.name in reasons)
      && (forall r :: r in refs && !Picked(r.name) ==> r.name in reasons)
      && (forall n :: n in reasons ==> exists r :: r in all && Excluded(r) && r.name == n && reasons[n] == Why(r))
    }

    /** Every requested name must be declared and switched on. */
    method CheckRequested(enabled: seq<Ref>) returns (ok: bool)
      ensures ok <==> forall n :: n in Requested() ==> n in Names(enabled)
    {
      var names, requested := Names(enabled), Requested();
      for i := 0 to |requested|
        invariant forall n :: n in requested[..i] ==> n in names
      {
        if requested[i] !in names { return false; }
      }
      assert requested[..|requested|] == requested;
      return true;
    }

    /** The positive component-name filter; without requested names it keeps everything. */
    method PickRequested(recipe: Recipe, enabled: seq<Ref>, off: map<string, Reason>)
      returns (kept: seq<Ref>, reasons: map<string, Reason>)
      requires forall r :: r in enabled ==> r in recipe.refs && On(r)
      requires PickReasoned(recipe.refs, [], off)
      modifies this`warnings
      ensures kept == PickedRefs(enabled) && PickReasoned(recipe.refs, enabled, reasons)
      ensures exists added: set<string> :: Warned(old(warnings), warnings, recipe, added)
                                           && reasons.Keys == off.Keys + added
    {
      kept, reasons := [], off;
      var requested := Requested();
      ghost var added: set<string> := {};
      for i := 0 to |enabled|
        invariant kept == PickedRefs(enabled[..i])
        invariant PickReasoned(recipe.refs, enabled[..i], reasons)
        invariant Warned(old(warnings), warnings, recipe, added) && reasons.Keys == off.Keys + added
      {
        var r := enabled[i];
        PickStep(recipe.refs, enabled, i, reasons);
        if |requested| == 0 || r.name in requested {
          kept := kept + [r];
        } else {
          WarnedStep(old(warnings), warnings, recipe, added, r.name);
          added := added + {r.name};
          reasons := reasons[r.name := ExcludedByFilter];
          WarnExcluded(recipe, r.name);
        }
      }
      assert enabled[..|enabled|] == enabled;
    }

    lemma OffIsPickReasoned(refs: seq<Ref>, off: map<string, Reason>)
      requires OffReasoned(refs, off)
      ensures PickReasoned(refs, [], off)
    {
      forall n | n in off
        ensures exists r :: r in refs && Excluded(r) && r.name == n && off[n] == Why(r)
      {
        var r :| r in refs && !On(r) && r.name == n && off[n] == Why(r);
        assert Excluded(r);
      }
    }

    /** Drops the dependency edges to declared components that are not kept. */
    method PruneDependencies(kept: seq<Ref>, declared: set<string>, names: set<string>) returns (pruned: seq<Ref>)
      ensures pruned == PrunedRefs(kept, declared, names)
    {
      pruned := [];
      for i := 0 to |kept|
        invariant pruned == PrunedRefs(kept[..i], declared, names)
      {
        assert kept[..i + 1][..i] == kept[..i];
        var dependencies: seq<string> := [];
        var deps := kept[i].dependencies;
        for j := 0 to |deps|
          invariant dependencies == Pruned(deps[..j], declared, names)
        {
          assert deps[..j + 1][..j] == deps[..j];
          if !(deps[j] in declared && deps[j] !in names) {
            dependencies := dependencies + [deps[j]];
          }
        }
        assert deps[..|deps|] == deps;
        pruned := pruned + [kept[i].(dependencies := dependencies)];
      }
      assert kept[..|kept|] == kept;
    }

    method FilterOrder(order: seq<string>, names: set<string>) returns (filtered: seq<string>)
      ensures filtered == FilteredOrder(order, names)
    {
      filtered := [];
      for i := 0 to |order|
        invariant filtered == FilteredOrder(order[..i], names)
      {
        assert order[..i + 1][..i] == order[..i];
        if order[i] in names { filtered := filtered + [order[i]]; }
      }
      assert order[..|order|] == order;
    }

    /** `filterEnabledComponents` */
    method FilterEnabledComponents(recipe: Recipe) returns (r: Selection)
      modifies this`warnings
      ensures r.Rejected? <==> Refuses(recipe)
      ensures r.Selected? ==>
        && r.refs == PrunedRefs(KeptRefs(recipe), Names(recipe.refs), Kept(recipe))
        && r.order == FilteredOrder(recipe.order, Kept(recipe))
        && Reasoned(recipe.refs, r.reasons)
        && Warned(old(warnings), warnings, recipe, r.reasons.Keys)
    {
      var ok, enabled, off := SwitchOff(recipe);
      if !ok { return Rejected; }
      ghost var between := warnings;
      ok := CheckRequested(enabled);
      if !ok { return Rejected; }
      OnRefsAreOn(recipe.refs);
      OffIsPickReasoned(recipe.refs, off);
      var kept, reasons := PickRequested(recipe, enabled, off);
      if |kept| == 0 { return Rejected; }
      WarnedTwice(old(warnings), between, warnings, recipe, off.Keys, reasons.Keys);
      PickedIsReasoned(recipe.refs, reasons);
      var pruned := PruneDependencies(kept, Names(recipe.refs), Names(kept));
      var order := FilterOrder(recipe.order, Names(kept));
      return Selected(pruned, order, reasons);
    }

    lemma OnRefsAreOn(refs: seq<Ref>)
      ensures forall r :: r in OnRefs(refs) <==> r in refs && On(r)
    {
      forall r
        ensures r in OnRefs(refs) <==> r in refs && On(r)
      {
        OnRefsMembers(refs, r);
      }
    }

    lemma PickedIsReasoned(refs: seq<Ref>, reasons: map<string, Reason>)
      requires PickReasoned(refs, OnRefs(refs), reasons)
      ensures Reasoned(refs, reasons)
    {
      OnRefsAreOn(refs);
      forall r | r in refs && Excluded(r)
        ensures r.name in reasons
      {
        if On(r) { assert r in OnRefs(refs); }
      }
    }

    lemma WarnedTwice(a: seq<string>, b: seq<string>, c: seq<string>, recipe: Recipe, off: set<string>,
                      all: set<string>)
      requires Warned(a, b, recipe, off)
      requires exists added: set<string> :: Warned(b, c, recipe, added) && all == off + added
      ensures Warned(a, c, recipe, all)
    {
      assert c[|a|..] == b[|a|..] + c[|b|..];
    }

    /* ---- Overrides that cannot take effect ---- */

    /** Every override key of a component that will be rendered. */
    function KeysOfAll(refs: seq<Ref>): set<string> {
      set r, k | r in refs && k in KeysOf(r.name) :: k
    }

    /** Whether an override may stand: something will act on it, or it is the request to leave something out. */
    predicate Effective(recipe: Recipe, rendered: seq<Ref>, key: string, path: string, disables: bool) {
      || key == DEPLOYER_KEY || key in KeysOfAll(rendered)
      || (key in KeysOfAll(recipe.refs) && path == ENABLED_KEY && disables)
    }

    predicate Disables(key: string, path: string) {
      && config.Some? && Supplies(config.value.scalars, key, path)
      && ParseBool(config.value.scalars[key][path]) == Some(false)
    }

    ghost predicate SourceStands(recipe: Recipe, rendered: seq<Ref>, paths: map<string, set<string>>, scalar: bool) {
      forall key, path :: key in paths && path in paths[key] ==>
        Effective(recipe, rendered, key, path, scalar && Disables(key, path))
    }

    /** One source of overrides, key by key and path by path; the order does not matter for the verdict. */
    method CheckSource(recipe: Recipe, rendered: seq<Ref>, paths: map<string, set<string>>, scalar: bool)
      returns (ok: bool)
      ensures ok <==> SourceStands(recipe, rendered, paths, scalar)
    {
      var present, declared := KeysOfAll(rendered), KeysOfAll(recipe.refs);
      var keys := paths.Keys;
      while keys != {}
        invariant keys <= paths.Keys
        invariant forall key, path :: key in paths && key !in keys && path in paths[key] ==>
                    Effective(recipe, rendered, key, path, scalar && Disables(key, path))
      {
        var key :| key in keys;
        var todo := paths[key];
        while todo != {}
          invariant todo <= paths[key]
          invariant forall path :: path in paths[key] && path !in todo ==>
                      Effective(recipe, rendered, key, path, scalar && Disables(key, path))
        {
          var path :| path in todo;
          if key != DEPLOYER_KEY && key !in present {
            if key !in declared { return false; }
            if !(path == ENABLED_KEY && scalar && Disables(key, path)) { return false; }
          }
          todo := todo - {path};
        }
        keys := keys - {key};
      }
      return true;
    }

    /** `rejectOverridesForAbsentComponents`: nil exactly when every override of every source may stand. */
    method RejectOverridesForAbsentComponents(recipe: Recipe, rendered: seq<Ref>) returns (ok: bool)
      ensures ok <==> NothingToReject(recipe, rendered)
    {
      if config.None? { return true; }
      var c := config.value;
      ok := CheckSource(recipe, rendered, PathsByComponent(c.scalars), true);
      if !ok { return; }
      ok := CheckSource(recipe, rendered, PathsByComponent(c.typed), false);
      if !ok { return; }
      ok := CheckSource(recipe, rendered, c.dynamic, false);
    }

    ghost predicate NothingToReject(recipe: Recipe, rendered: seq<Ref>) {
      config.Some? ==>
        && SourceStands(recipe, rendered, PathsByComponent(config.value.scalars), true)
        && SourceStands(recipe, rendered, PathsByComponent(config.value.typed), false)
        && SourceStands(recipe, rendered, config.value.dynamic, false)
    }
  }

  /* ---- What filtering and rejection guarantee together ---- */

  /** The start of bundle generation: filter, then reject against exactly what will be rendered. */
  method SelectComponents(b: Bundler, recipe: Recipe) returns (r: Selection)
    modifies b`warnings
    ensures r.Selected? ==>
      && !b.Refuses(recipe) && b.NothingToReject(recipe, r.refs)
      && r.refs == PrunedRefs(b.KeptRefs(recipe), Names(recipe.refs), b.Kept(recipe))
      && r.order == FilteredOrder(recipe.order, b.Kept(recipe)) && b.Reasoned(recipe.refs, r.reasons)
      && b.Warned(old(b.warnings), b.warnings, recipe, r.reasons.Keys)
    ensures r.Rejected? ==> b.Refuses(recipe) || !b.NothingToReject(recipe,
              PrunedRefs(b.KeptRefs(recipe), Names(recipe.refs), b.Kept(recipe)))
  {
    r := b.FilterEnabledComponents(recipe);
    if r.Selected? {
      var ok := b.RejectOverridesForAbsentComponents(recipe, r.refs);
      if !ok { return Rejected; }
    }
  }

  lemma {:induction false} PickedRefsAre(b: Bundler, refs: seq<Ref>)
    ensures forall r :: r in b.PickedRefs(refs) <==> r in refs && b.Picked(r.name)
  {
    forall r
      ensures r in b.PickedRefs(refs) <==> r in refs && b.Picked(r.name)
    {
      b.PickedRefsMembers(refs, r);
    }
  }

  lemma KeptRefsAre(b: Bundler, recipe: Recipe)
    ensures forall r :: r in b.KeptRefs(recipe) <==> r in recipe.refs && !b.Excluded(r)
  {
    b.OnRefsAreOn(recipe.refs);
    PickedRefsAre(b, b.OnRefs(recipe.refs));
  }

  /** With distinct names, the kept names and the names with a reason partition the declared names. */
  lemma KeptAndExcludedPartition(b: Bundler, recipe: Recipe, reasons: map<string, Reason>)
    requires DistinctNames(recipe.refs) && b.Reasoned(recipe.refs, reasons)
    ensures b.Kept(recipe) !! reasons.Keys && b.Kept(recipe) + reasons.Keys == Names(recipe.refs)
    ensures forall r :: r in recipe.refs && r.name in reasons ==> reasons[r.name] == b.Why(r)
  {
    KeptRefsAre(b, recipe);
    forall r, q | r in recipe.refs && q in recipe.refs && r.name == q.name
      ensures r == q
    {
      var i, j :| 0 <= i < |recipe.refs| && 0 <= j < |recipe.refs| && recipe.refs[i] == r && recipe.refs[j] == q;
    }
  }

  lemma {:induction false} PrunedMembers(dependencies: seq<string>, declared: set<string>, kept: set<string>)
    ensures forall d :: d in Pruned(dependencies, declared, kept) <==>
                        d in dependencies && (d in kept || d !in declared)
  {
    if dependencies != [] {
      PrunedMembers(dependencies[..|dependencies| - 1], declared, kept);
      assert dependencies == dependencies[..|dependencies| - 1] + [dependencies[|dependencies| - 1]];
    }
  }

  /** Pruning keeps every component, and of its dependencies exactly those kept or undeclared. */
  lemma {:induction false} SurvivingDependencies(refs: seq<Ref>, declared: set<string>, kept: set<string>)
    ensures |PrunedRefs(refs, declared, kept)| == |refs|
    ensures forall i :: 0 <= i < |refs| ==>
              && PrunedRefs(refs, declared, kept)[i].name == refs[i].name
              && PrunedRefs(refs, declared, kept)[i].enabled == refs[i].enabled
              && forall d :: d in PrunedRefs(refs, declared, kept)[i].dependencies <==>
                             d in refs[i].dependencies && (d in kept || d !in declared)
  {
    if refs != [] {
      SurvivingDependencies(refs[..|refs| - 1], declared, kept);
      PrunedMembers(refs[|refs| - 1].dependencies, declared, kept);
    }
  }

  /** Wherever a component appears in the order, each of its dependencies among `names` appears earlier. */
  ghost predicate Ordered(order: seq<string>, refs: seq<Ref>, names: set<string>) {
    forall r, d, j :: r in refs && d in r.dependencies && d in names && 0 <= j < |order| && order[j] == r.name ==>
      d in order[..j]
  }

  lemma {:induction false} FilteredOrderMembers(order: seq<string>, kept: set<string>)
    ensures forall n :: n in FilteredOrder(order, kept) <==> n in order && n in kept
  {
    if order != [] {
      FilteredOrderMembers(order[..|order| - 1], kept);
      assert order == order[..|order| - 1] + [order[|order| - 1]];
    }
  }

  /** Every position of the filtered order comes from a position of the order, with what stood before it. */
  lemma {:induction false} FilteredPrefix(order: seq<string>, kept: set<string>, j: nat) returns (k: nat)
    requires j < |FilteredOrder(order, kept)|
    ensures k < |order| && order[k] == FilteredOrder(order, kept)[j]
    ensures FilteredOrder(order, kept)[..j] == FilteredOrder(order[..k], kept)
  {
    var front := order[..|order| - 1];
    if j == |FilteredOrder(front, kept)| {
      k := |order| - 1;
    } else {
      k := FilteredPrefix(front, kept, j);
      assert front[..k] == order[..k];
    }
  }

  /** Where a component of the filtered order depends on `d`, the unfiltered order had `d` before it, and kept it. */
  lemma DependencyComesFirst(recipe: Recipe, kept: set<string>, name: string, d: string, q: Ref, j: nat)
    requires Ordered(recipe.order, recipe.refs, Names(recipe.refs))
    requires q in recipe.refs && q.name == name && d in q.dependencies && d in kept && d in Names(recipe.refs)
    requires j < |FilteredOrder(recipe.order, kept)| && FilteredOrder(recipe.order, kept)[j] == name
    ensures d in FilteredOrder(recipe.order, kept)[..j]
  {
    var k := FilteredPrefix(recipe.order, kept, j);
    assert d in recipe.order[..k];
    FilteredOrderMembers(recipe.order[..k], kept);
  }

  /** If the recipe's order puts declared dependencies first, so does the filtered order for the pruned components. */
  lemma FilteredOrderIsSound(b: Bundler, recipe: Recipe)
    requires Ordered(recipe.order, recipe.refs, Names(recipe.refs))
    ensures Ordered(FilteredOrder(recipe.order, b.Kept(recipe)),
                    PrunedRefs(b.KeptRefs(recipe), Names(recipe.refs), b.Kept(recipe)), b.Kept(recipe))
  {
    var declared, kept, refs := Names(recipe.refs), b.Kept(recipe), b.KeptRefs(recipe);
    var rendered, order := PrunedRefs(refs, declared, kept), FilteredOrder(recipe.order, kept);
    KeptRefsAre(b, recipe);
    SurvivingDependencies(refs, declared, kept);
    forall r, d, j | r in rendered && d in r.dependencies && d in kept && 0 <= j < |order| && order[j] == r.name
      ensures d in order[..j]
    {
      var i :| 0 <= i < |rendered| && rendered[i] == r;
      assert refs[i] in refs;
      var q :| q in refs && q.name == d;
      assert q in recipe.refs;
      DependencyComesFirst(recipe, kept, r.name, d, refs[i], j);
    }
  }

  /**
   No override is silently lost: when both checks succeed, each scalar override outside the reserved
   key is in the merged map of a rendered component, with its own value unless a key of higher priority
   supplies one, or asks to disable a declared component that is indeed absent.
   */
  lemma NoScalarOverrideIsLost(b: Bundler, recipe: Recipe, rendered: seq<Ref>, key: string, path: string)
    requires b.NothingToReject(recipe, rendered) && b.config.Some? && key != "deployer"
    requires Supplies(b.config.value.scalars, key, path)
    ensures || (exists r :: r in rendered && (key == r.name || key in b.aliases(r.name))
                            && TakesEffect(b.config.value.scalars, b.KeysOf(r.name), key, path))
            || (&& path == "enabled" && ParseBool(b.config.value.scalars[key][path]) == Some(false)
                && (exists r :: r in recipe.refs && (key == r.name || key in b.aliases(r.name)))
                && forall r :: r in rendered ==> key != r.name && key !in b.aliases(r.name))
  {
    KeysAreNamesAndAliases(b, rendered, key);
    KeysAreNamesAndAliases(b, recipe.refs, key);
    assert path in PathsByComponent(b.config.value.scalars)[key];
    assert b.Effective(recipe, rendered, key, path, b.Disables(key, path));
    if key in b.KeysOfAll(rendered) {
      var r :| r in rendered && key in b.KeysOf(r.name);
      SuppliedTakesEffect(b.config.value.scalars, b.KeysOf(r.name), key, path);
    }
  }

  /** Typed overrides have no exemption: each one is in the merged map of a rendered component. */
  lemma NoTypedOverrideIsLost(b: Bundler, recipe: Recipe, rendered: seq<Ref>, key: string, path: string)
    requires b.NothingToReject(recipe, rendered) && b.config.Some? && key != "deployer"
    requires Supplies(b.config.value.typed, key, path)
    ensures exists r :: r in rendered && (key == r.name || key in b.aliases(r.name))
                        && TakesEffect(b.config.value.typed, b.KeysOf(r.name), key, path)
  {
    assert path in PathsByComponent(b.config.value.typed)[key];
    assert b.Effective(recipe, rendered, key, path, false);
    var r :| r in rendered && key in b.KeysOf(r.name);
    SuppliedTakesEffect(b.config.value.typed, b.KeysOf(r.name), key, path);
  }

  /**
   The path is in the merged map, with the value of the earliest key that supplies it: the value given
   under `key`, unless a key of higher priority shadows it.
   */
  ghost predicate TakesEffect<V>(all: map<string, map<string, V>>, keys: seq<string>, key: string, path: string) {
    && path in Merged(all, keys).GetOr(map[])
    && exists i, n :: 0 <= i <= n < |keys| && keys[n] == key && FirstSupplier(all, keys, path, i)
                      && Merged(all, keys).value[path] == all[keys[i]][path]
  }

  lemma SuppliedTakesEffect<V>(all: map<string, map<string, V>>, keys: seq<string>, key: string, path: string)
    requires key in keys && Supplies(all, key, path)
    ensures TakesEffect(all, keys, key, path)
  {
    var n :| 0 <= n < |keys| && keys[n] == key;
    SupplierExists(all, keys, path, n);
    MergedMeaning(all, keys, path);
    var i :| FirstSupplier(all, keys, path, i);
    assert i <= n;
  }

  /** The value under a key is the merged one if no key of higher priority supplies the path; else one of theirs is. */
  lemma OwnValueUnlessShadowed<V>(all: map<string, map<string, V>>, keys: seq<string>, path: string, n: nat)
    requires n < |keys| && Supplies(all, keys[n], path)
    ensures path in Merged(all, keys).GetOr(map[])
    ensures if forall j :: 0 <= j < n ==> !Supplies(all, keys[j], path)
            then Merged(all, keys).value[path] == all[keys[n]][path]
            else exists j :: 0 <= j < n && FirstSupplier(all, keys, path, j)
                             && Merged(all, keys).value[path] == all[keys[j]][path]
  {
    MergedMeaning(all, keys, path);
    SupplierExists(all, keys, path, n);
    var i :| FirstSupplier(all, keys, path, i);
    assert i <= n;
  }

  /** With a selection that is not refused, the merged toggle of a component decides whether it is kept. */
  lemma AcceptedTogglesAgree(b: Bundler, recipe: Recipe, r: Ref)
    requires r in recipe.refs && !b.Refuses(recipe) && DistinctNames(recipe.refs)
    ensures b.ToggleOf(r.name) == Set(false) ==> r.name !in b.Kept(recipe)
    ensures b.ToggleOf(r.name) == Set(true) && b.Picked(r.name) ==> r.name in b.Kept(recipe)
    ensures b.ToggleOf(r.name) == Unset ==> (r.name in b.Kept(recipe) <==> r.enabled && b.Picked(r.name))
  {
    KeptRefsAre(b, recipe);
    forall q | q in recipe.refs && q.name == r.name
      ensures q == r
    {
      var i, j :| 0 <= i < |recipe.refs| && 0 <= j < |recipe.refs| && recipe.refs[i] == r && recipe.refs[j] == q;
    }
    assert !b.Contradicts(r);
  }

  /* ---- The same over the maps of the configuration ---- */

  /** A component gets the value under its own name, and a path that nobody supplies is not there. */
  lemma TheNameComesFirst<V>(b: Bundler, all: map<string, map<string, V>>, name: string, path: string)
    ensures var merged := Merged(all, b.KeysOf(name)).GetOr(map[]);
            && (name in all && path in all[name] ==> path in merged && merged[path] == all[name][path])
            && (path in merged <==> (name in all && path in all[name]) ||
                                    exists a :: a in b.aliases(name) && a in all && path in all[a])
  {
    var keys := [name] + b.aliases(name);
    MergedMeaning(all, keys, path);
    if Supplies(all, name, path) {
      assert FirstSupplier(all, keys, path, 0);
    } else {
      SomeAliasSupplies(all, name, b.aliases(name), path);
    }
  }

  /** Without a value under its own name it gets that of the first alias with one. */
  lemma ThenTheFirstAlias<V>(b: Bundler, all: map<string, map<string, V>>, name: string, path: string, i: nat)
    requires !(name in all && path in all[name])
    requires i < |b.aliases(name)| && b.aliases(name)[i] in all && path in all[b.aliases(name)[i]]
    requires forall a :: a in b.aliases(name)[..i] ==> !(a in all && path in all[a])
    ensures var merged := Merged(all, b.KeysOf(name)).GetOr(map[]);
            path in merged && merged[path] == all[b.aliases(name)[i]][path]
  {
    var aliases := b.aliases(name);
    var keys := [name] + aliases;
    forall k | 0 <= k < i + 1
      ensures !Supplies(all, keys[k], path)
    {
      if k > 0 { assert keys[k] == aliases[..i][k - 1]; }
    }
    assert keys[i + 1] == aliases[i] && FirstSupplier(all, keys, path, i + 1);
    MergedMeaning(all, keys, path);
  }

  lemma SomeAliasSupplies<V>(all: map<string, map<string, V>>, name: string, aliases: seq<string>, path: string)
    requires !Supplies(all, name, path)
    ensures (exists k :: FirstSupplier(all, [name] + aliases, path, k)) <==>
            exists a :: a in aliases && a in all && path in all[a]
  {
    var keys := [name] + aliases;
    if a :| a in aliases && a in all && path in all[a] {
      var i :| 0 <= i < |aliases| && aliases[i] == a;
      SupplierExists(all, keys, path, i + 1);
    }
    if k :| FirstSupplier(all, keys, path, k) {
      assert keys[k] == aliases[k - 1];
    }
  }

  /** Scalar and typed overrides follow the same rule. */
  lemma OverridesOf(b: Bundler, name: string)
    requires b.config.Some?
    ensures b.ScalarsOf(name) == Merged(b.config.value.scalars, b.KeysOf(name)).GetOr(map[])
    ensures b.TypedOf(name) == Merged(b.config.value.typed, b.KeysOf(name)).GetOr(map[])
    ensures name in b.config.value.scalars ==>
              forall path :: path in b.config.value.scalars[name] ==>
                path in b.ScalarsOf(name) && b.ScalarsOf(name)[path] == b.config.value.scalars[name][path]
    ensures name in b.config.value.typed ==>
              forall path :: path in b.config.value.typed[name] ==>
                path in b.TypedOf(name) && b.TypedOf(name)[path] == b.config.value.typed[name][path]
  {
    if name in b.config.value.scalars {
      forall path | path in b.config.value.scalars[name]
        ensures path in b.ScalarsOf(name) && b.ScalarsOf(name)[path] == b.config.value.scalars[name][path]
      {
        TheNameComesFirst(b, b.config.value.scalars, name, path);
      }
    }
    if name in b.config.value.typed {
      forall path | path in b.config.value.typed[name]
        ensures path in b.TypedOf(name) && b.TypedOf(name)[path] == b.config.value.typed[name][path]
      {
        TheNameComesFirst(b, b.config.value.typed, name, path);
      }
    }
  }

  /** What each accepted spelling of a toggle means, and that there are no others. */
  lemma TogglesAreSpelled(b: Bundler, name: string)
    ensures b.config.None? ==> b.ToggleOf(name) == Unset
    ensures b.config.Some? && (forall k :: k == name || k in b.aliases(name) ==>
                                 !(k in b.config.value.scalars && "enabled" in b.config.value.scalars[k])) ==>
              b.ToggleOf(name) == Unset
    ensures b.config.Some? && name in b.config.value.scalars && "enabled" in b.config.value.scalars[name] ==>
              b.ToggleOf(name) == match b.config.value.scalars[name]["enabled"]
                                  case "1" => Set(true) case "t" => Set(true) case "T" => Set(true)
                                  case "TRUE" => Set(true) case "true" => Set(true) case "True" => Set(true)
                                  case "0" => Set(false) case "f" => Set(false) case "F" => Set(false)
                                  case "FALSE" => Set(false) case "false" => Set(false) case "False" => Set(false)
                                  case _ => Unparseable
  {
    if b.config.Some? {
      TheNameComesFirst(b, b.config.value.scalars, name, "enabled");
    }
  }

  /** An alias decides when neither the name nor an earlier alias does. */
  lemma AnAliasToggles(b: Bundler, name: string, i: nat)
    requires b.config.Some? && i < |b.aliases(name)|
    requires var all := b.config.value.scalars;
             && !(name in all && "enabled" in all[name])
             && (forall a :: a in b.aliases(name)[..i] ==> !(a in all && "enabled" in all[a]))
             && b.aliases(name)[i] in all && "enabled" in all[b.aliases(name)[i]]
    ensures b.ToggleOf(name) == match ParseBool(b.config.value.scalars[b.aliases(name)[i]]["enabled"])
                                case Some(on) => Set(on)
                                case None => Unparseable
  {
    ThenTheFirstAlias(b, b.config.value.scalars, name, "enabled", i);
  }

  /** Exactly when a request is refused. */
  lemma WhenRefused(b: Bundler, recipe: Recipe)
    ensures b.Refuses(recipe) <==>
              || (exists r :: r in recipe.refs && (|| b.ToggleOf(r.name) == Unparseable
                                                   || (b.ToggleOf(r.name) == Set(true) && !r.enabled)))
              || (b.config.Some? && !forall n :: n in b.config.value.requested ==>
                    exists r :: r in recipe.refs && r.name == n && r.enabled && b.ToggleOf(n) != Set(false))
              || (forall r :: r in recipe.refs ==>
                    || !r.enabled || b.ToggleOf(r.name) == Set(false)
                    || (b.config.Some? && b.config.value.requested != [] && r.name !in b.config.value.requested))
  {
    KeptRefsAre(b, recipe);
    b.OnRefsAreOn(recipe.refs);
    var on := b.OnRefs(recipe.refs);
    forall n
      ensures n in Names(on) <==>
                exists r :: r in recipe.refs && r.name == n && r.enabled && b.ToggleOf(n) != Set(false)
    {
      if r :| r in recipe.refs && r.name == n && r.enabled && b.ToggleOf(n) != Set(false) {
        assert r in on;
      }
    }
    var kept := b.KeptRefs(recipe);
    assert kept != [] ==> kept[0] in kept;
    assert forall r :: r in recipe.refs && !b.Excluded(r) ==> r in kept;
  }

  /** Exactly when no override is rejected, for each of the three sources. */
  lemma WhenNothingIsRejected(b: Bundler, recipe: Recipe, rendered: seq<Ref>)
    requires b.config.Some?
    ensures b.NothingToReject(recipe, rendered) <==>
              && (forall key, path :: key in b.config.value.scalars && path in b.config.value.scalars[key] ==>
                    || key == "deployer" || (exists r :: r in rendered && (key == r.name || key in b.aliases(r.name)))
                    || (path == "enabled"
                        && b.config.value.scalars[key][path] in ["0", "f", "F", "FALSE", "false", "False"]
                        && exists r :: r in recipe.refs && (key == r.name || key in b.aliases(r.name))))
              && (forall key, path :: key in b.config.value.typed && path in b.config.value.typed[key] ==>
                    key == "deployer" || exists r :: r in rendered && (key == r.name || key in b.aliases(r.name)))
              && (forall key, path :: key in b.config.value.dynamic && path in b.config.value.dynamic[key] ==>
                    key == "deployer" || exists r :: r in rendered && (key == r.name || key in b.aliases(r.name)))
  {
    WhenScalarsStand(b, recipe, rendered);
    WhenOthersStand(b, recipe, rendered, b.config.value.typed);
    WhenSourceStands(b, recipe, rendered, b.config.value.dynamic, false);
  }

  lemma WhenScalarsStand(b: Bundler, recipe: Recipe, rendered: seq<Ref>)
    requires b.config.Some?
    ensures var all := b.config.value.scalars;
            b.SourceStands(recipe, rendered, PathsByComponent(all), true) <==>
              forall key, path :: key in all && path in all[key] ==>
                || key == "deployer" || (exists r :: r in rendered && (key == r.name || key in b.aliases(r.name)))
                || (path == "enabled" && all[key][path] in ["0", "f", "F", "FALSE", "false", "False"]
                    && exists r :: r in recipe.refs && (key == r.name || key in b.aliases(r.name)))
  {
    var all := b.config.value.scalars;
    WhenSourceStands(b, recipe, rendered, PathsByComponent(all), true);
    forall key, path | key in all && path in all[key]
      ensures b.Disables(key, path) <==> all[key][path] in ["0", "f", "F", "FALSE", "false", "False"]
      ensures path in PathsByComponent(all)[key]
    {
    }
  }

  lemma WhenOthersStand<V>(b: Bundler, recipe: Recipe, rendered: seq<Ref>, all: map<string, map<string, V>>)
    ensures b.SourceStands(recipe, rendered, PathsByComponent(all), false) <==>
              forall key, path :: key in all && path in all[key] ==>
                key == "deployer" || exists r :: r in rendered && (key == r.name || key in b.aliases(r.name))
  {
    WhenSourceStands(b, recipe, rendered, PathsByComponent(all), false);
    forall key, path | key in all && path in all[key]
      ensures path in PathsByComponent(all)[key]
    {
    }
  }

  lemma WhenSourceStands(b: Bundler, recipe: Recipe, rendered: seq<Ref>, paths: map<string, set<string>>, scalar: bool)
    ensures b.SourceStands(recipe, rendered, paths, scalar) <==>
              forall key, path :: key in paths && path in paths[key] ==>
                || key == "deployer" || (exists r :: r in rendered && (key == r.name || key in b.aliases(r.name)))
                || (scalar && path == "enabled" && b.Disables(key, path)
                    && exists r :: r in recipe.refs && (key == r.name || key in b.aliases(r.name)))
  {
    forall key
      ensures key in b.KeysOfAll(rendered) <==> exists r :: r in rendered && (key == r.name || key in b.aliases(r.name))
      ensures key in b.KeysOfAll(recipe.refs) <==>
                exists r :: r in recipe.refs && (key == r.name || key in b.aliases(r.name))
    {
      KeysAreNamesAndAliases(b, rendered, key);
      KeysAreNamesAndAliases(b, recipe.refs, key);
    }
  }

  lemma KeysAreNamesAndAliases(b: Bundler, refs: seq<Ref>, key: string)
    ensures key in b.KeysOfAll(refs) <==> exists r :: r in refs && (key == r.name || key in b.aliases(r.name))
  {
    forall r | r in refs
      ensures key in b.KeysOf(r.name) <==> key == r.name || key in b.aliases(r.name)
    {
    }
    if r :| r in refs && (key == r.name || key in b.aliases(r.name)) {
      assert key in b.KeysOf(r.name);
    }
  }

  /** Components are chosen one by one and stay in the order of the recipe. */
  lemma {:induction false} OnPiecewise(b: Bundler, front: seq<Ref>, back: seq<Ref>)
    ensures b.OnRefs(front + back) == b.OnRefs(front) + b.OnRefs(back)
    decreases |back|
  {
    if back == [] {
      assert front + back == front;
    } else {
      var all, init := front + back, back[..|back| - 1];
      assert all[..|all| - 1] == front + init;
      OnPiecewise(b, front, init);
    }
  }

  lemma {:induction false} PickedPiecewise(b: Bundler, front: seq<Ref>, back: seq<Ref>)
    ensures b.PickedRefs(front + back) == b.PickedRefs(front) + b.PickedRefs(back)
    decreases |back|
  {
    if back == [] {
      assert front + back == front;
    } else {
      var all, init := front + back, back[..|back| - 1];
      assert all[..|all| - 1] == front + init;
      PickedPiecewise(b, front, init);
    }
  }

  lemma KeptPiecewise(b: Bundler, recipe: Recipe, front: seq<Ref>, r: Ref, back: seq<Ref>)
    requires recipe.refs == front + [r] + back
    ensures b.KeptRefs(recipe) == b.KeptRefs(recipe.(refs := front))
              + (if && r.enabled && b.ToggleOf(r.name) != Set(false)
                    && (b.config.None? || b.config.value.requested == [] || r.name in b.config.value.requested)
                 then [r] else [])
              + b.KeptRefs(recipe.(refs := back))
  {
    OnPiecewise(b, front + [r], back);
    OnPiecewise(b, front, [r]);
    assert [r][..0] == [];
    var on := b.OnRefs([r]);
    PickedPiecewise(b, b.OnRefs(front) + on, b.OnRefs(back));
    PickedPiecewise(b, b.OnRefs(front), on);
    assert on != [] ==> on[..0] == [];
  }

  /** The same for the dependencies of one component and for the deployment order. */
  lemma {:induction false} PrunedPiecewise(front: seq<string>, d: string, back: seq<string>,
                                           declared: set<string>, kept: set<string>)
    ensures Pruned(front + [d] + back, declared, kept) ==
              Pruned(front, declared, kept) + (if d in kept || d !in declared then [d] else [])
              + Pruned(back, declared, kept)
    decreases |back|
  {
    var all := front + [d] + back;
    if back == [] {
      assert all[..|all| - 1] == front;
    } else {
      var init := back[..|back| - 1];
      assert all[..|all| - 1] == front + [d] + init;
      PrunedPiecewise(front, d, init, declared, kept);
    }
  }

  lemma {:induction false} OrderPiecewise(front: seq<string>, n: string, back: seq<string>, kept: set<string>)
    ensures FilteredOrder(front + [n] + back, kept) ==
              FilteredOrder(front, kept) + (if n in kept then [n] else []) + FilteredOrder(back, kept)
    decreases |back|
  {
    var all := front + [n] + back;
    if back == [] {
      assert all[..|all| - 1] == front;
    } else {
      var init := back[..|back| - 1];
      assert all[..|all| - 1] == front + [n] + init;
      OrderPiecewise(front, n, init, kept);
    }
  }

  /** Why a component is missing: the recipe's reason comes before the override's, and both before the filter's. */
  lemma ReasonsAreNamed(b: Bundler, recipe: Recipe, reasons: map<string, Reason>, r: Ref)
    requires DistinctNames(recipe.refs) && b.Reasoned(recipe.refs, reasons) && r in recipe.refs
    ensures if !r.enabled then r.name in reasons && reasons[r.name] == DisabledByRecipe
            else if b.ToggleOf(r.name) == Set(false) then r.name in reasons && reasons[r.name] == DisabledByOverride
            else if b.config.Some? && b.config.value.requested != [] && r.name !in b.config.value.requested
            then r.name in reasons && reasons[r.name] == ExcludedByFilter
            else r.name !in reasons
  {
    KeptAndExcludedPartition(b, recipe, reasons);
    KeptRefsAre(b, recipe);
    assert r.name in Names(recipe.refs);
    if !b.Excluded(r) { assert r in b.KeptRefs(recipe); }
  }

  /** Exactly the excluded GPU operators of a driverless cluster are warned about, after all earlier warnings. */
  lemma WarningsAreNamed(b: Bundler, before: seq<string>, after: seq<string>, recipe: Recipe, excluded: set<string>,
                         n: string)
    requires b.Warned(before, after, recipe, excluded)
    ensures |before| <= |after| && after[..|before|] == before
    ensures n in after[|before|..] <==>
              recipe.driverless && n in excluded && (n == "gpu-operator" || n == "gpu-operator-ocp")
  {
  }

  lemma TheTextDecides(b: Bundler, recipe: Recipe, r: Ref, text: string)
    requires r in recipe.refs && !b.Refuses(recipe) && DistinctNames(recipe.refs) && b.config.Some?
    requires "enabled" in b.ScalarsOf(r.name) && b.ScalarsOf(r.name)["enabled"] == text
    ensures text in ["1", "t", "T", "TRUE", "true", "True", "0", "f", "F", "FALSE", "false", "False"]
    ensures (exists q :: q in b.KeptRefs(recipe) && q.name == r.name) <==>
            && text in ["1", "t", "T", "TRUE", "true", "True"]
            && (b.config.value.requested == [] || r.name in b.config.value.requested)
  {
    AcceptedTogglesAgree(b, recipe, r);
    KeptRefsAre(b, recipe);
    assert !b.Contradicts(r);
    assert r.name in b.Kept(recipe) <==> exists q :: q in b.KeptRefs(recipe) && q.name == r.name;
  }

  /** A component of an accepted selection is kept or left out as the value under its own name says. */
  lemma OwnToggleDecides(b: Bundler, recipe: Recipe, r: Ref)
    requires r in recipe.refs && !b.Refuses(recipe) && DistinctNames(recipe.refs) && b.config.Some?
    requires r.name in b.config.value.scalars && "enabled" in b.config.value.scalars[r.name]
    ensures var text, requested := b.config.value.scalars[r.name]["enabled"], b.config.value.requested;
            && text in ["1", "t", "T", "TRUE", "true", "True", "0", "f", "F", "FALSE", "false", "False"]
            && ((exists q :: q in b.KeptRefs(recipe) && q.name == r.name) <==>
                && text in ["1", "t", "T", "TRUE", "true", "True"]
                && (requested == [] || r.name in requested))
  {
    TheNameComesFirst(b, b.config.value.scalars, r.name, "enabled");
    TheTextDecides(b, recipe, r, b.config.value.scalars[r.name]["enabled"]);
  }

  /** Otherwise the first alias with a value decides, and without one the recipe does. */
  lemma ThenAnAliasDecides(b: Bundler, recipe: Recipe, r: Ref, i: nat)
    requires r in recipe.refs && !b.Refuses(recipe) && DistinctNames(recipe.refs) && b.config.Some?
    requires var all := b.config.value.scalars;
             && !(r.name in all && "enabled" in all[r.name]) && i < |b.aliases(r.name)|
             && (forall a :: a in b.aliases(r.name)[..i] ==> !(a in all && "enabled" in all[a]))
             && b.aliases(r.name)[i] in all && "enabled" in all[b.aliases(r.name)[i]]
    ensures var text := b.config.value.scalars[b.aliases(r.name)[i]]["enabled"];
            var requested := b.config.value.requested;
            && text in ["1", "t", "T", "TRUE", "true", "True", "0", "f", "F", "FALSE", "false", "False"]
            && ((exists q :: q in b.KeptRefs(recipe) && q.name == r.name) <==>
                && text in ["1", "t", "T", "TRUE", "true", "True"]
                && (requested == [] || r.name in requested))
  {
    ThenTheFirstAlias(b, b.config.value.scalars, r.name, "enabled", i);
    TheTextDecides(b, recipe, r, b.config.value.scalars[b.aliases(r.name)[i]]["enabled"]);
  }

  lemma OtherwiseTheRecipeDecides(b: Bundler, recipe: Recipe, r: Ref)
    requires r in recipe.refs && !b.Refuses(recipe) && DistinctNames(recipe.refs)
    requires b.config.Some? ==>
               forall k :: k == r.name || k in b.aliases(r.name) ==>
                 !(k in b.config.value.scalars && "enabled" in b.config.value.scalars[k])
    ensures (exists q :: q in b.KeptRefs(recipe) && q.name == r.name) <==>
            && r.enabled
            && (b.config.None? || b.config.value.requested == [] || r.name in b.config.value.requested)
  {
    TogglesAreSpelled(b, r.name);
    AcceptedTogglesAgree(b, recipe, r);
    KeptRefsAre(b, recipe);
    assert r.name in b.Kept(recipe) <==> exists q :: q in b.KeptRefs(recipe) && q.name == r.name;
  }
}
