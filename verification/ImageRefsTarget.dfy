/**
 Writing the image-reference file atomically (pkg/cli/image_refs_target.go): create a private
 temporary file, fill and check it, rename it over the target, and clean up on every error.

 A directory maps names to file identities and identities to contents. Every call and every context
 check asks the fault schedule; a write may also be cut short. Nobody else changes the directory.
 */
module ImageRefsTarget {
  import opened FaultSchedule
  import opened Prelude

  type Ident = nat
  type Name = string
  type Bytes = seq<bv8>

  datatype Instant = Instant(names: map<Name, Ident>, contents: map<Ident, Bytes>) {
    /** The bytes a reader finds under a name. */
    function Read(name: Name): Option<Bytes> {
      if name in names && names[name] in contents then Some(contents[names[name]]) else None
    }

    function Binding(name: Name): Option<Ident> {
      if name in names then Some(names[name]) else None
    }

    /** Same file with the same bytes, or absent in both. */
    predicate SameAt(other: Instant, name: Name) {
      Binding(name) == other.Binding(name) && Read(name) == other.Read(name)
    }
  }

  const TEMP_PREFIX := ".aicr-image-refs-"
  const TEMP_SUFFIX := ".tmp"

  /** `validImageRefsTempName`: a single path component with the fixed prefix and suffix. */
  predicate ValidTempName(name: Name) {
    && '/' !in name && TEMP_PREFIX <= name
    && |TEMP_SUFFIX| <= |name| && name[|name| - |TEMP_SUFFIX|..] == TEMP_SUFFIX
  }

  /** The names that are drawn are accepted, and no name with a separator is. */
  lemma DrawnNamesAreValid(hex: string)
    ensures ValidTempName(".aicr-image-refs-" + hex + ".tmp") <==> '/' !in hex
  {
    var name := ".aicr-image-refs-" + hex + ".tmp";
    assert name[|name| - |TEMP_SUFFIX|..] == TEMP_SUFFIX;
    assert name[..|TEMP_PREFIX|] == TEMP_PREFIX && name[17..17 + |hex|] == hex;
    assert forall c :: c in name <==> c in name[..17] || c in hex || c in name[17 + |hex|..];
  }

  /** Conversely an accepted name is the two fixed parts around anything without a separator. */
  lemma ValidNamesAreDrawn(name: Name)
    requires ValidTempName(name)
    ensures exists hex :: '/' !in hex && name == ".aicr-image-refs-" + hex + ".tmp"
  {
    assert name[..17] == ".aicr-image-refs-";
    assert name[|name| - 4] == '.' && forall i :: 13 <= i < 17 ==> name[i] == ".aicr-image-refs-"[i];
    var hex := name[17..|name| - 4];
    assert '/' !in hex && name == ".aicr-image-refs-" + hex + ".tmp";
  }

  /** `cleanedUp` says whether the returned error carries no cleanup failure. */
  datatype Outcome = Written | Rejected(cleanedUp: bool)

  /** The target name holds what it held before the write, or exactly the new data. */
  ghost predicate AllOrNothing(now: Instant, before: Instant, target: Name, data: Bytes) {
    now.SameAt(before, target) || now.Read(target) == Some(data)
  }

  ghost predicate AllOrNothingSince(history: seq<Instant>, start: nat, before: Instant, target: Name, data: Bytes) {
    forall i :: start <= i < |history| ==> AllOrNothing(history[i], before, target, data)
  }

  /** Only the two names may have changed. */
  ghost predicate OnlyChanged(now: Instant, before: Instant, target: Name, temp: Name) {
    forall n :: n != target && n != temp ==> now.SameAt(before, n)
  }

  lemma OnlyChangedTransitive(a: Instant, b: Instant, c: Instant, target: Name, temp: Name)
    requires OnlyChanged(a, b, target, temp) && OnlyChanged(b, c, target, temp)
    ensures OnlyChanged(a, c, target, temp)
  {
    forall n | n != target && n != temp
      ensures a.SameAt(c, n)
    {
      assert a.SameAt(b, n) && b.SameAt(c, n);
    }
  }

  /** A promise relative to a later state with the same target is a promise relative to the earlier one. */
  lemma Rebase(history: seq<Instant>, start: nat, created: Instant, before: Instant, target: Name, data: Bytes)
    requires created.SameAt(before, target)
    requires AllOrNothingSince(history, start, created, target, data)
    ensures AllOrNothingSince(history, start, before, target, data)
  {
    forall i | start <= i < |history|
      ensures AllOrNothing(history[i], before, target, data)
    {
      assert AllOrNothing(history[i], created, target, data);
    }
  }

  /** What a reader who opens the target at any of these instants can find. */
  lemma ReadersFindOldOrNew(history: seq<Instant>, start: nat, before: Instant, target: Name, data: Bytes, i: nat)
    requires AllOrNothingSince(history, start, before, target, data) && start <= i < |history|
    requires target in history[i].names && history[i].names[target] in history[i].contents
    ensures || history[i].contents[history[i].names[target]] == data
            || (&& target in before.names && before.names[target] == history[i].names[target]
                && before.names[target] in before.contents
                && before.contents[before.names[target]] == history[i].contents[history[i].names[target]])
  {
    assert AllOrNothing(history[i], before, target, data);
  }

  /** The target never disappears. */
  lemma TheTargetStays(history: seq<Instant>, start: nat, before: Instant, target: Name, data: Bytes, i: nat)
    requires AllOrNothingSince(history, start, before, target, data) && start <= i < |history|
    requires target in before.names
    ensures target in history[i].names
  {
    assert AllOrNothing(history[i], before, target, data);
  }

  /** Everybody else's files. */
  lemma OtherNamesAreKept(now: Instant, before: Instant, target: Name, temp: Name, n: Name)
    requires OnlyChanged(now, before, target, temp) && n != target && n != temp
    ensures n in now.names <==> n in before.names
    ensures n in now.names ==> now.names[n] == before.names[n]
    ensures n in now.names && now.names[n] in now.contents && before.names[n] in before.contents ==>
              now.contents[now.names[n]] == before.contents[before.names[n]]
  {
    assert now.SameAt(before, n);
  }

  class Directory {
    var now: Instant
    var next: Ident
    var calls: nat
    const schedule: nat -> bool
    const accepted: nat -> nat   // how many bytes a failing write accepts
    ghost var history: seq<Instant>

    /** The calls made so far that failed. */
    ghost function Faults(): nat
      reads this`calls
    {
      Failures(schedule, calls)
    }

    ghost predicate Valid()
      reads this
    {
      && history != [] && history[|history| - 1] == now
      && (forall n :: n in now.names ==> now.names[n] in now.contents)
      && (forall id :: id in now.contents ==> id < next)
    }

    constructor (schedule: nat -> bool, accepted: nat -> nat)
      ensures Valid() && now == Instant(map[], map[]) && Faults() == 0
    {
      now, next, calls := Instant(map[], map[]), 0, 0;
      this.schedule, this.accepted := schedule, accepted;
      history := [Instant(map[], map[])];
    }

    method Fault() returns (failed: bool)
      modifies this`calls
      ensures failed == schedule(old(calls)) && calls == old(calls) + 1
      ensures Faults() == old(Faults()) + if failed then 1 else 0
    {
      failed := schedule(calls);
      calls := calls + 1;
    }

    method Lstat(name: Name) returns (found: Lookup)
      modifies this`calls
      ensures Faults() >= old(Faults()) && calls == old(calls) + 1
      ensures found.Failed? <==> Faults() > old(Faults())
      ensures found.Present? ==> now.Binding(name) == Some(found.id)
      ensures found.Absent? ==> now.Binding(name) == None
    {
      var failed := Fault();
      if failed { return Failed; }
      return if name in now.names then Present(now.names[name]) else Absent;
    }

    /** Exclusive creation: a fresh identity, or an error. */
    method Create(name: Name) returns (id: Option<Ident>)
      requires Valid()
      modifies this
      ensures Valid() && Faults() >= old(Faults()) && calls == old(calls) + 1
      ensures id.Some? <==> old(now.Binding(name)).None? && Faults() == old(Faults())
      ensures id.Some? ==> id.value == old(next) && history == old(history) + [now]
                           && now == Instant(old(now).names[name := id.value], old(now).contents[id.value := []])
      ensures id.None? ==> now == old(now) && history == old(history) && next == old(next)
    {
      var failed := Fault();
      if failed || name in now.names { return None; }
      id := Some(next);
      now := Instant(now.names[name := next], now.contents[next := []]);
      next := next + 1;
      history := history + [now];
    }

    /** Appends the data, or when the call fails some prefix of it: a short write without an error is a failure too. */
    method Write(id: Ident, data: Bytes) returns (ok: bool)
      requires Valid() && id in now.contents
      modifies this`now, this`history, this`calls
      ensures Valid() && Faults() >= old(Faults()) && calls == old(calls) + 1 && (ok <==> Faults() == old(Faults()))
      ensures ok ==> now == Instant(old(now).names, old(now).contents[id := old(now).contents[id] + data])
      ensures now.names == old(now).names && now.contents.Keys == old(now).contents.Keys
      ensures forall k :: k in now.contents && k != id ==> now.contents[k] == old(now).contents[k]
      ensures history == old(history) + [now]
    {
      var count := accepted(calls);
      var failed := Fault();
      var written := if failed && count < |data| then data[..count] else data;
      now := Instant(now.names, now.contents[id := now.contents[id] + written]);
      history := history + [now];
      return !failed;
    }

    method Rename(source: Name, destination: Name) returns (ok: bool)
      requires Valid() && source != destination
      modifies this`now, this`history, this`calls
      ensures Valid() && Faults() >= old(Faults()) && calls == old(calls) + 1
      ensures ok <==> source in old(now).names && Faults() == old(Faults())
      ensures ok ==> history == old(history) + [now]
      ensures ok ==> now == Instant((old(now).names - {source})[destination := old(now).names[source]],
                                    old(now).contents)
      ensures !ok ==> now == old(now) && history == old(history)
    {
      var failed := Fault();
      if failed || source !in now.names { return false; }
      now := Instant((now.names - {source})[destination := now.names[source]], now.contents);
      history := history + [now];
      return true;
    }

    method Remove(name: Name) returns (ok: bool)
      requires Valid()
      modifies this`now, this`history, this`calls
      ensures Valid() && Faults() >= old(Faults()) && calls == old(calls) + 1 && (ok <==> Faults() == old(Faults()))
      ensures ok ==> now == Instant(old(now).names - {name}, old(now).contents) && history == old(history) + [now]
      ensures !ok ==> now == old(now) && history == old(history)
    {
      var failed := Fault();
      if failed { return false; }
      now := Instant(now.names - {name}, now.contents);
      history := history + [now];
      return true;
    }
  }

  class Target {
    const baseName: Name
    const bundleFiles: set<Ident>     // identities of the generated bundle's regular files
    const parentIsBundle: bool        // the parent is one of the bundle's directories
    var targetInfo: Option<Ident>

    constructor (baseName: Name, bundleFiles: set<Ident>, parentIsBundle: bool, targetInfo: Option<Ident>)
      ensures this.baseName == baseName && this.targetInfo == targetInfo
    {
      this.baseName, this.bundleFiles, this.parentIsBundle := baseName, bundleFiles, parentIsBundle;
      this.targetInfo := targetInfo;
    }

    /** The target is what it was when it was last identified, and no part of the bundle. */
    predicate Current(now: Instant)
      reads this
    {
      && now.Binding(baseName) == targetInfo && !parentIsBundle
      && (targetInfo.Some? ==> targetInfo.value !in bundleFiles)
    }

    method ValidateParent(d: Directory) returns (ok: bool)
      modifies d`calls
      ensures d.Faults() >= old(d.Faults()) && d.calls >= old(d.calls) && (ok <==> d.Faults() == old(d.Faults()))
      ensures ok ==> d.calls == old(d.calls) + 3
    {
      var cancelled := d.Fault();
      if cancelled { return false; }
      var heldFailed := d.Fault();
      var namedFailed := d.Fault();
      return !heldFailed && !namedFailed;
    }

    method ValidateTarget(d: Directory) returns (ok: bool)
      modifies d`calls
      ensures d.Faults() >= old(d.Faults()) && d.calls >= old(d.calls)
      ensures ok <==> d.Faults() == old(d.Faults()) && d.now.Binding(baseName) == targetInfo
      ensures ok ==> d.calls == old(d.calls) + if targetInfo.Some? then 6 else 2
    {
      var cancelled := d.Fault();
      if cancelled { return false; }
      var named := d.Lstat(baseName);
      if targetInfo.None? { return named.Absent?; }
      if named != Present(targetInfo.value) { return false; }
      var openFailed := d.Fault();
      if openFailed { return false; }
      var statFailed := d.Fault();
      var after := d.Lstat(baseName);
      var closeFailed := d.Fault();
      return !statFailed && after == Present(targetInfo.value) && !closeFailed;
    }

    method ValidateBundleAliases(d: Directory) returns (ok: bool)
      modifies d`calls
      ensures d.Faults() >= old(d.Faults()) && d.calls >= old(d.calls)
      ensures ok <==> && d.Faults() == old(d.Faults()) && !parentIsBundle
                      && match d.now.Binding(baseName) case None => true case Some(id) => id !in bundleFiles
      ensures ok ==> d.calls == old(d.calls) + 2
    {
      var walkFailed := d.Fault();
      if walkFailed || parentIsBundle { return false; }
      var found := d.Lstat(baseName);
      return found.Absent? || (found.Present? && found.id !in bundleFiles);
    }

    method ValidateTemp(d: Directory, name: Name, expected: Ident, size: nat) returns (ok: bool)
      requires d.Valid()
      modifies d`calls
      ensures d.Faults() >= old(d.Faults()) && d.calls >= old(d.calls)
      ensures ok <==> && d.Faults() == old(d.Faults()) && d.now.Binding(name) == Some(expected)
                      && |d.now.contents[expected]| == size
      ensures ok ==> d.calls == old(d.calls) + 2
    {
      var cancelled := d.Fault();
      if cancelled { return false; }
      var named := d.Lstat(name);
      return named == Present(expected) && |d.now.contents[expected]| == size;
    }

    /** Parent, target and aliases, in the order both validation rounds of `writeAtomic` need them. */
    method ValidateAll(d: Directory) returns (ok: bool)
      modifies d`calls
      ensures d.Faults() >= old(d.Faults()) && d.calls >= old(d.calls)
      ensures ok <==> d.Faults() == old(d.Faults()) && Current(d.now)
      ensures ok ==> d.calls == old(d.calls) + if targetInfo.Some? then 11 else 7
    {
      ok := ValidateParent(d);
      if !ok { return; }
      ok := ValidateTarget(d);
      if !ok { return; }
      ok := ValidateBundleAliases(d);
    }

    /** Removes the temporary file only when its name still leads to it. */
    method RemoveOwnedTemp(d: Directory, name: Name, expected: Option<Ident>) returns (ok: bool)
      requires d.Valid()
      modifies d`now, d`history, d`calls
      ensures d.Valid() && d.Faults() >= old(d.Faults()) && d.calls >= old(d.calls)
      ensures ok ==> name !in d.now.names
      ensures (d.Faults() == old(d.Faults()) && expected.Some? && old(d.now).Binding(name) in {None, expected}) ==> ok
      ensures || (d.now == old(d.now) && d.history == old(d.history))
              || (&& d.now == Instant(old(d.now).names - {name}, old(d.now).contents)
                  && d.history == old(d.history) + [d.now])
      ensures ok ==> d.calls >= old(d.calls) + if old(name in d.now.names) then 2 else 1
    {
      if expected.None? { return false; }
      var named := d.Lstat(name);
      if named.Absent? { return true; }
      if named != Present(expected.value) { return false; }
      ok := d.Remove(name);
    }

    /** Writes and rechecks the temporary file. The identity is known as soon as it could be read. */
    method FillTemp(d: Directory, name: Name, id: Ident, data: Bytes) returns (ok: bool, info: Option<Ident>)
      requires d.Valid() && d.now.Binding(name) == Some(id) && d.now.contents[id] == []
      modifies d`now, d`history, d`calls
      ensures d.Valid() && d.Faults() >= old(d.Faults()) && d.calls >= old(d.calls)
      ensures ok <==> d.Faults() == old(d.Faults())
      ensures info == None || info == Some(id)
      ensures d.now.names == old(d.now).names && d.now.contents.Keys == old(d.now).contents.Keys
      ensures ok ==> info == Some(id) && d.now.contents[id] == data
      ensures forall k :: k in d.now.contents && k != id ==> d.now.contents[k] == old(d.now).contents[k]
      ensures || (d.history == old(d.history) && d.now == old(d.now))
              || d.history == old(d.history) + [d.now]
      ensures ok ==> d.calls == old(d.calls) + 7
    {
      info := None;
      var statFailed := d.Fault();
      if !statFailed { info := Some(id); }
      var named := d.Lstat(name);
      if statFailed || named != Present(id) { return false, info; }
      var cancelled := d.Fault();
      if cancelled { return false, info; }
      ok := d.Write(id, data);
      if !ok { return; }
      var chmodFailed := d.Fault();
      if chmodFailed { return false, info; }
      var restatFailed := d.Fault();
      var renamed := d.Lstat(name);
      return !restatFailed && |d.now.contents[id]| == |data| && renamed == Present(id), info;
    }

    /** Both validation rounds before the rename, and the close between them. */
    method Recheck(d: Directory, name: Name, id: Ident, size: nat) returns (ok: bool, open: bool)
      requires d.Valid() && d.now.Binding(name) == Some(id)
      modifies d`calls
      ensures d.Faults() >= old(d.Faults()) && d.calls >= old(d.calls)
      ensures ok ==> !open
      ensures ok <==> d.Faults() == old(d.Faults()) && Current(d.now) && |d.now.contents[id]| == size
      ensures ok ==> d.calls == old(d.calls) + if targetInfo.Some? then 28 else 20
    {
      open := true;
      ok := ValidateAll(d);
      if !ok { return; }
      ok := ValidateTemp(d, name, id, size);
      if !ok { return; }
      var closeFailed := d.Fault();
      open := false;
      if closeFailed { ok := false; return; }
      ok := ValidateParent(d);
      if !ok { return; }
      ok := ValidateTarget(d);
      if !ok { return; }
      ok := ValidateTemp(d, name, id, size);
      if !ok { return; }
      ok := ValidateBundleAliases(d);
      if !ok { return; }
      var cancelled := d.Fault();
      ok := !cancelled;
    }

    /** Renames the finished file over the target and looks at it once more; `owned` is `tempOwned`. */
    method SwapIn(d: Directory, name: Name, id: Ident, data: Bytes) returns (ok: bool, owned: bool)
      requires d.Valid() && name != baseName
      requires d.now.Binding(name) == Some(id) && d.now.contents[id] == data
      modifies d`now, d`history, d`calls, this`targetInfo
      ensures d.Valid() && d.Faults() >= old(d.Faults()) && d.calls >= old(d.calls)
      ensures ok <==> d.Faults() == old(d.Faults())
      ensures ok ==> !owned && targetInfo == Some(id)
      ensures targetInfo == Some(id) || targetInfo == old(targetInfo)
      ensures owned ==> targetInfo == old(targetInfo)
      ensures || (owned && d.now == old(d.now) && d.history == old(d.history) && targetInfo == old(targetInfo))
              || (&& d.now == Instant((old(d.now).names - {name})[baseName := id], old(d.now).contents)
                  && d.history == old(d.history) + [d.now])
      ensures ok ==> d.calls == old(d.calls) + 5
    {
      owned := true;
      var renamed := d.Rename(name, baseName);
      var cancelled := d.Fault();
      if cancelled || !renamed { return false, owned; }
      owned := false;
      var published := d.Lstat(baseName);
      cancelled := d.Fault();
      if cancelled { return false, owned; }
      if published != Present(id) || |d.now.contents[id]| != |data| { return false, owned; }
      targetInfo := Some(id);
      cancelled := d.Fault();
      return !cancelled, owned;
    }

    /** Everything between creating the temporary file and the deferred cleanup. */
    method FillAndSwap(d: Directory, name: Name, id: Ident, data: Bytes)
      returns (ok: bool, info: Option<Ident>, open: bool, owned: bool)
      requires d.Valid() && name != baseName
      requires d.now.Binding(name) == Some(id) && d.now.contents[id] == []
      requires forall n :: n in d.now.names && n != name ==> d.now.names[n] != id
      modifies d`now, d`history, d`calls, this`targetInfo
      ensures d.Valid() && d.Faults() >= old(d.Faults()) && d.calls >= old(d.calls)
      ensures ok ==> d.Faults() == old(d.Faults()) && !open && !owned
      ensures old(Current(d.now)) && d.Faults() == old(d.Faults()) ==> ok
      ensures info in {None, Some(id)} && (d.Faults() == old(d.Faults()) ==> info == Some(id))
      ensures owned ==> targetInfo == old(targetInfo)
      ensures targetInfo == old(targetInfo) || targetInfo == Some(id)
      ensures old(d.now).contents.Keys == d.now.contents.Keys
      ensures forall k :: k in d.now.contents && k != id ==> d.now.contents[k] == old(d.now).contents[k]
      ensures || (owned && d.now.names == old(d.now).names)
              || (d.now.names == (old(d.now).names - {name})[baseName := id] && d.now.contents[id] == data)
      ensures ok ==> targetInfo == Some(id) && d.now.names == (old(d.now).names - {name})[baseName := id]
      ensures old(d.history) <= d.history
      ensures AllOrNothingSince(d.history, |old(d.history)|, old(d.now), baseName, data)
      ensures ok ==> d.calls == old(d.calls) + if old(targetInfo).Some? then 40 else 32
    {
      owned, open := true, true;
      ok, info := FillTemp(d, name, id, data);
      if !ok { return; }
      ok, open := Recheck(d, name, id, |data|);
      if !ok { return; }
      ok, owned := SwapIn(d, name, id, data);
    }

    /** The deferred cleanup: close the file if it is still open, remove it if it is still ours. */
    method CleanUp(d: Directory, name: Name, info: Option<Ident>, open: bool, owned: bool) returns (clean: bool)
      requires d.Valid() && name != baseName
      modifies d`now, d`history, d`calls
      ensures d.Valid() && d.Faults() >= old(d.Faults()) && d.calls >= old(d.calls)
      ensures clean && owned ==> name !in d.now.names
      ensures !owned ==> d.now == old(d.now) && (!open ==> clean && d.Faults() == old(d.Faults()))
      ensures d.now.SameAt(old(d.now), baseName) && OnlyChanged(d.now, old(d.now), baseName, name)
      ensures d.history == old(d.history) || d.history == old(d.history) + [d.now]
      ensures !open && !owned ==> d.calls == old(d.calls)
    {
      clean := true;
      if open {
        var closeFailed := d.Fault();
        clean := !closeFailed;
      }
      if owned {
        var removed := RemoveOwnedTemp(d, name, info);
        clean := clean && removed;
      }
    }

    /** From the created temporary file to the end, cleanup included. */
    method WriteThrough(d: Directory, name: Name, id: Ident, data: Bytes) returns (r: Outcome)
      requires d.Valid() && name != baseName
      requires d.now.Binding(name) == Some(id) && d.now.contents[id] == []
      requires forall n :: n in d.now.names && n != name ==> d.now.names[n] != id
      modifies d`now, d`history, d`calls, this`targetInfo
      ensures d.Valid() && d.Faults() >= old(d.Faults()) && d.calls >= old(d.calls)
      ensures r.Written? ==> targetInfo == Some(id) == d.now.Binding(baseName) && d.now.Read(baseName) == Some(data)
      ensures r.Written? || r == Rejected(true) ==> name !in d.now.names
      ensures AllOrNothing(d.now, old(d.now), baseName, data)
      ensures old(d.history) <= d.history
      ensures AllOrNothingSince(d.history, |old(d.history)|, old(d.now), baseName, data)
      ensures OnlyChanged(d.now, old(d.now), baseName, name)
      ensures targetInfo == old(targetInfo) || d.now.Binding(baseName) == targetInfo
      ensures r.Written? ==> d.Faults() == old(d.Faults())
      ensures d.Faults() == old(d.Faults()) && old(Current(d.now)) ==> r.Written?
      ensures r.Written? ==> d.calls == old(d.calls) + if old(targetInfo).Some? then 40 else 32
    {
      var ok, info, open, owned := FillAndSwap(d, name, id, data);
      ghost var swapped := d.now;
      assert OnlyChanged(swapped, old(d.now), baseName, name);
      var clean := CleanUp(d, name, info, open, owned);
      OnlyChangedTransitive(d.now, swapped, old(d.now), baseName, name);
      return if ok then Written else Rejected(clean);
    }

    /** `writeAtomic`. `random` is the name drawn for the temporary file. */
    method WriteAtomic(d: Directory, random: Name, data: Bytes) returns (r: Outcome)
      requires d.Valid()
      modifies d, this`targetInfo
      ensures d.Valid() && d.Faults() >= old(d.Faults()) && d.calls >= old(d.calls)
      // a nil return: the target is a new file holding exactly the data, and the target knows it
      ensures r.Written? ==>
                && d.now.Read(baseName) == Some(data) && d.now.Binding(baseName) == targetInfo
                && targetInfo.Some? && targetInfo.value !in old(d.now).contents
                && random !in d.now.names
      // an error that reports no cleanup failure leaves the temporary name as it was
      ensures r == Rejected(true) ==> d.now.Binding(random) == old(d.now).Binding(random)
      // any outcome, any number of failures: the old file with its bytes, or exactly the data, at every instant
      ensures AllOrNothing(d.now, old(d.now), baseName, data)
      ensures old(d.history) <= d.history
      ensures AllOrNothingSince(d.history, |old(d.history)|, old(d.now), baseName, data)
      ensures OnlyChanged(d.now, old(d.now), baseName, random)
      ensures targetInfo == old(targetInfo) || d.now.Binding(baseName) == targetInfo
      // exactly when the write happens, and when nothing at all is touched
      ensures r.Written? <==> && d.Faults() == old(d.Faults())
                              && old(d.now).Binding(baseName) == old(targetInfo) && !parentIsBundle
                              && (old(targetInfo).Some? ==> old(targetInfo).value !in bundleFiles)
                              && ValidTempName(random) && random != baseName && random !in old(d.now).names
      ensures !old(Current(d.now)) ==> d.now == old(d.now) && d.history == old(d.history)
      ensures r.Written? ==> d.calls == old(d.calls) + if old(targetInfo).Some? then 53 else 41
    {
      var ready := ValidateAll(d);
      if !ready { return Rejected(true); }
      var drawFailed := d.Fault();
      if drawFailed || !ValidTempName(random) || random == baseName { return Rejected(true); }
      var id := d.Create(random);
      if id.None? { return Rejected(true); }
      ghost var created, start := d.now, |d.history|;
      assert created.SameAt(old(d.now), baseName) && OnlyChanged(created, old(d.now), baseName, random);
      r := WriteThrough(d, random, id.value, data);
      Rebase(d.history, start, created, old(d.now), baseName, data);
      OnlyChangedTransitive(d.now, created, old(d.now), baseName, random);
    }
  }
}
