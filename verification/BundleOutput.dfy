/**
 Replacing a published bundle directory by a freshly generated one
 (pkg/cli/bundle_output_target.go).

 The retained directory is a map from names to the identities `os.SameFile` compares, and every
 identity has a tree of directories and files. Every filesystem call and every context check asks the
 fault schedule whether it fails; nothing is assumed about the schedule. A failed call has no effect.
 No other process changes the directory, which is what the code asks of its callers.
 */
module BundleOutput {
  import opened FaultSchedule
  import opened Prelude

  type Ident = nat
  type Name = string
  type Names = map<Name, Ident>
  type Path = seq<Name>     // below the root of a tree; the root itself is []
  type Bytes = seq<bv8>

  /** What a directory holds, without the directory itself. */
  datatype Tree = Tree(directories: set<Path>, files: map<Path, Bytes>)

  /** A verified file of the generated bundle, and what each read of it delivers. */
  datatype File = File(path: Path, chunks: seq<Bytes>)

  datatype Inventory = Inventory(directories: seq<Path>, files: seq<File>)

  function Joined(chunks: seq<Bytes>): Bytes {
    if chunks == [] then [] else Joined(chunks[..|chunks| - 1]) + chunks[|chunks| - 1]
  }

  lemma {:induction false} JoinedConcatenates(a: seq<Bytes>, b: seq<Bytes>)
    ensures Joined(a + b) == Joined(a) + Joined(b)
    ensures |a| == 1 ==> Joined(a) == a[0]
  {
    if b == [] {
      assert a + b == a;
    } else {
      var ab, front := a + b, b[..|b| - 1];
      assert ab[..|ab| - 1] == a + front;
      JoinedConcatenates(a, front);
    }
  }

  lemma JoinedStep(chunks: seq<Bytes>, i: nat, start: Bytes)
    requires i < |chunks|
    ensures (start + Joined(chunks[..i])) + chunks[i] == start + Joined(chunks[..i + 1])
  {
    assert chunks[..i + 1][..i] == chunks[..i];
  }

  /** The calls that copying these files takes when none of them fails. */
  function CallsToCopy(files: seq<File>): nat {
    if files == [] then 0 else CallsToCopy(files[..|files| - 1]) + 9 + 3 * |files[|files| - 1].chunks|
  }

  /** The directories that `MkdirAll` makes sure of. */
  function Upwards(path: Path): (r: set<Path>)
    ensures forall p :: p in r <==> p != [] && p <= path
  {
    var r := set k: nat | 0 < k <= |path| :: path[..k];
    assert forall p :: p != [] && p <= path ==> p == path[..|p|];
    r
  }

  /** The directory a file is created in. */
  function Parent(path: Path): Path {
    if path == [] then [] else path[..|path| - 1]
  }

  lemma AboveParent(path: Path)
    requires path != []
    ensures forall p :: p in Upwards(Parent(path)) <==> p != [] && p <= path && p != path
  {
    var upwards := Upwards(Parent(path));
    forall p
      ensures p in upwards <==> p != [] && p <= path && p != path
    {
      if p <= path { assert p == path[..|p|]; }
    }
  }

  /** `MkdirAll` needs every step of the path to be free or a directory. */
  predicate Walkable(tree: Tree, path: Path) {
    forall p :: p in tree.files && p <= path ==> p == []
  }

  /** Whether an exclusive creation with all parents finds its place. */
  predicate HasRoom(tree: Tree, path: Path) {
    path != [] && path !in tree.directories && Walkable(tree, path)
  }

  /** Once the way is made, exclusive creation asks for no more than room. */
  lemma PlaceOf(tree: Tree, path: Path)
    ensures var way := Tree(tree.directories + Upwards(Parent(path)), tree.files);
            HasRoom(tree, path) <==>
              && Walkable(tree, Parent(path)) && path != [] && path !in way.directories && path !in way.files
              && (Parent(path) == [] || Parent(path) in way.directories)
  {
    if path != [] {
      AboveParent(path);
      forall p | p in tree.files && p <= path && p != [] && p != path
        ensures p <= Parent(path)
      {
        assert p in Upwards(Parent(path));
      }
    }
  }

  /** Whether the inventory can be copied into a tree: nothing of it is in the way of anything else. */
  ghost predicate Fits(base: Tree, directories: seq<Path>, files: seq<File>) {
    && (forall d :: d in directories ==> Walkable(base, d))
    && (forall f :: f in files ==> HasRoom(base, f.path))
    && (forall f, d :: f in files && d in directories ==> !(f.path <= d))
    && (forall i, j :: 0 <= i < |files| && 0 <= j < |files| && i != j ==> !(files[i].path <= files[j].path))
  }

  /** In an empty directory only the inventory itself can be in the way. */
  lemma FitsAnEmptyDirectory(directories: seq<Path>, files: seq<File>)
    ensures Fits(Tree({}, map[]), directories, files) <==>
              && (forall f :: f in files ==> f.path != [])
              && (forall f, d :: f in files && d in directories ==> !(f.path <= d))
              && (forall i, j :: 0 <= i < |files| && 0 <= j < |files| && i != j ==> !(files[i].path <= files[j].path))
  {
  }

  /** `tree` is `base` with the inventory in it: its files with their bytes, and the directories on the way. */
  ghost predicate Added(tree: Tree, base: Tree, directories: seq<Path>, files: seq<File>) {
    && (forall f :: f in files ==> f.path in tree.files && tree.files[f.path] == Joined(f.chunks))
    && (forall p :: p in base.files ==> p in tree.files && tree.files[p] == base.files[p])
    && (forall p :: p in tree.files ==> p in base.files || exists f :: f in files && f.path == p)
    && (forall p :: p in tree.directories <==>
          || p in base.directories
          || (p != [] && ((exists d :: d in directories && p <= d) ||
                          (exists f :: f in files && p <= f.path && p != f.path))))
  }

  lemma OneMoreDirectory(tree: Tree, base: Tree, directories: seq<Path>, d: Path)
    requires Added(tree, base, directories, [])
    ensures Added(Tree(tree.directories + Upwards(d), tree.files), base, directories + [d], [])
    ensures Walkable(tree, d) <==> Walkable(base, d)
  {
    var more, grown := directories + [d], tree.directories + Upwards(d);
    assert d in more && forall e :: e in more <==> e in directories || e == d;
    forall p
      ensures p in grown <==>
                p in base.directories || (p != [] && exists e :: e in more && p <= e)
    {
      if p <= d && p != [] { assert p in grown; }
    }
  }

  /** A file that finds room is no part of what is there already, and nothing of that is a part of it. */
  lemma RoomFits(tree: Tree, base: Tree, directories: seq<Path>, files: seq<File>, f: File)
    requires Added(tree, base, directories, files) && Fits(base, directories, files)
    requires HasRoom(tree, f.path)
    ensures Fits(base, directories, files + [f])
  {
    var more := files + [f];
    assert HasRoom(base, f.path);
    forall g | g in files
      ensures !(f.path <= g.path) && !(g.path <= f.path)
    {
      assert g.path in tree.files && HasRoom(base, g.path);
    }
    forall g, d | g in more && d in directories
      ensures !(g.path <= d)
    {
      assert g in files || g == f;
    }
    forall i, j | 0 <= i < |more| && 0 <= j < |more| && i != j
      ensures !(more[i].path <= more[j].path)
    {
      assert i < |files| ==> more[i] in files;
      assert j < |files| ==> more[j] in files;
    }
  }

  lemma FittingHasRoom(tree: Tree, base: Tree, directories: seq<Path>, files: seq<File>, f: File)
    requires Added(tree, base, directories, files) && Fits(base, directories, files + [f])
    ensures HasRoom(tree, f.path)
  {
    var more := files + [f];
    assert more[|files|] == f && f in more && HasRoom(base, f.path);
    forall g | g in files
      ensures !(f.path <= g.path) && !(g.path <= f.path)
    {
      var i :| 0 <= i < |files| && files[i] == g;
      assert more[i] == g;
    }
  }

  lemma OneMoreFile(tree: Tree, base: Tree, directories: seq<Path>, files: seq<File>, f: File)
    requires Added(tree, base, directories, files) && HasRoom(tree, f.path)
    ensures Added(Tree(tree.directories + Upwards(Parent(f.path)), tree.files[f.path := Joined(f.chunks)]),
                  base, directories, files + [f])
  {
    var more := files + [f];
    assert f in more && forall g :: g in more <==> g in files || g == f;
    AboveParent(f.path);
    assert f.path !in tree.files;
  }

  /** Copying file `i` succeeds exactly when the files up to it fit, and adds that file. */
  lemma NextFile(tree: Tree, base: Tree, directories: seq<Path>, files: seq<File>, i: nat)
    requires i < |files| && Added(tree, base, directories, files[..i]) && Fits(base, directories, files[..i])
    ensures HasRoom(tree, files[i].path) <==> Fits(base, directories, files[..i + 1])
    ensures HasRoom(tree, files[i].path) ==>
              Added(Tree(tree.directories + Upwards(Parent(files[i].path)),
                         tree.files[files[i].path := Joined(files[i].chunks)]),
                    base, directories, files[..i + 1])
    ensures Fits(base, directories, files) ==> HasRoom(tree, files[i].path)
    ensures CallsToCopy(files[..i + 1]) == CallsToCopy(files[..i]) + 9 + 3 * |files[i].chunks|
  {
    assert files[..i + 1] == files[..i] + [files[i]] && files[..i + 1][..i] == files[..i];
    if Fits(base, directories, files) {
      FitsPrefix(base, directories, files, i + 1);
    }
    if Fits(base, directories, files[..i + 1]) {
      FittingHasRoom(tree, base, directories, files[..i], files[i]);
    }
    if HasRoom(tree, files[i].path) {
      RoomFits(tree, base, directories, files[..i], files[i]);
      OneMoreFile(tree, base, directories, files[..i], files[i]);
    }
  }

  /** What later files need, earlier ones need as well. */
  lemma FitsPrefix(base: Tree, directories: seq<Path>, files: seq<File>, i: nat)
    requires i <= |files| && Fits(base, directories, files)
    ensures Fits(base, directories, files[..i])
  {
  }

  /** What an observer of the directory can see at one moment, with the number of commits so far. */
  datatype Instant = Instant(names: Names, commits: nat)

  /** `Aborted` and `Uncleaned` are error returns; `rolledBack` says whether the error carries no rollback failure. */
  datatype Outcome = Published | Uncleaned | Aborted(rolledBack: bool)

  predicate Binds(names: Names, name: Name, id: Ident) {
    name in names && names[name] == id
  }

  /** `base` is `names` plus newly created parent directories, and nothing else. */
  ghost predicate Grown(names: Names, base: Names, parents: seq<Name>) {
    && (forall n :: n in names ==> Binds(base, n, names[n]))
    && (forall n :: n in base ==> n in names || n in parents)
  }

  ghost predicate Includes(base: Names, names: Names) {
    forall n :: n in names ==> Binds(base, n, names[n])
  }

  /** What one publication must keep at every instant. */
  datatype Duty = Duty(previous: Option<Ident>, out: Name, backup: Name, next: Ident, commits: nat) {
    /** Before the commit the previous output has one of its two names, after it the new one is the output. */
    ghost predicate Met(i: Instant) {
      if i.commits == commits then
        previous.Some? ==> Binds(i.names, out, previous.value) || Binds(i.names, backup, previous.value)
      else
        Binds(i.names, out, next)
    }

    ghost predicate MetSince(history: seq<Instant>, start: nat) {
      forall i :: start <= i < |history| ==> Met(history[i])
    }
  }

  /** Before the commit, taking the stage away breaks no promise about the previous output. */
  lemma DutyWithoutTheStage(duty: Duty, names: Names, stage: Name)
    requires duty.Met(Instant(names, duty.commits)) && stage != duty.out
    requires duty.previous.Some? ==>
               || Binds(names, duty.out, duty.previous.value)
               || (stage != duty.backup && Binds(names, duty.backup, duty.previous.value))
    ensures duty.Met(Instant(names - {stage}, duty.commits))
  {
  }

  lemma StillMet(duty: Duty, before: seq<Instant>, after: seq<Instant>, start: nat)
    requires duty.MetSince(before, start)
    requires after == before || (|after| == |before| + 1 && before <= after && duty.Met(after[|before|]))
    ensures duty.MetSince(after, start)
  {
  }

  /** What filling and publishing a stage makes of the names that were there before, for every outcome. */
  ghost predicate Left(r: Outcome, names: Names, before: Names, faults: int, previous: Option<Ident>,
                       stage: Name, id: Ident, out: Name, backup: Name, parents: seq<Name>)
  {
    && (!r.Aborted? ==> Binds(names, out, id) && stage !in names)
    && (r.Published? && previous.Some? ==> backup !in names)
    && (r == Aborted(true) && previous.Some? ==> Binds(names, out, previous.value))
    && (r == Aborted(true) && previous.None? && out in names ==> out in before)
    && (r == Aborted(false) ==> faults >= 2)
    && (r == Aborted(false) && previous.Some? ==>
          backup != stage && (Binds(names, out, previous.value) || Binds(names, backup, previous.value)))
    && (r == Aborted(false) && previous.None? ==> Binds(names, out, id))
    && (forall n :: n in before && n != out && n != stage && n != backup ==> Binds(names, n, before[n]))
    && (forall n :: n in names && n !in before ==> n == out || n == backup || n in parents)
  }

  /** The directory once `stage` has become the output. */
  function Swapped(base: Names, stage: Name, out: Name, id: Ident): Names {
    (base - {stage})[out := id]
  }

  /** The directory once the previous output waits under the backup name. */
  function Parked(base: Names, out: Name, backup: Name, previous: Ident): Names {
    (base - {out})[backup := previous]
  }

  lemma DroppingTheBackup(base: Names, stage: Name, out: Name, backup: Name, previous: Ident, id: Ident)
    requires out in base && backup !in base && backup != stage
    ensures Binds(Swapped(Parked(base, out, backup, previous), stage, out, id), backup, previous)
    ensures Swapped(Parked(base, out, backup, previous), stage, out, id) - {backup} == Swapped(base, stage, out, id)
  {
  }

  /** A name may serve as a backup only if it is a single, ordinary path component. */
  predicate SafeName(name: Name) {
    name != "" && name != "." && name != ".." && '/' !in name
  }

  /** The names that are drawn for stages and backups are ordinary ones. */
  lemma DrawnNamesAreSafe(hex: string)
    ensures SafeName(".aicr-bundle-generation-" + hex) <==> '/' !in hex
    ensures !SafeName("") && !SafeName(".") && !SafeName("..")
  {
    var name := ".aicr-bundle-generation-" + hex;
    assert |name| > 2 && forall i :: 0 <= i < |hex| ==> name[24 + i] == hex[i];
    assert '/' !in name[..24];
  }

  /** The retained ancestor directory together with the fault schedule. */
  class Disk {
    var names: Names
    var calls: nat
    const schedule: nat -> bool
    var next: Ident               // the identity of the next directory
    var trees: map<Ident, Tree>
    ghost var commits: nat
    ghost var history: seq<Instant>

    /** The calls made so far that failed. */
    ghost function Faults(): nat
      reads this`calls
    {
      Failures(schedule, calls)
    }

    ghost predicate Recorded()
      reads this
    {
      && history != [] && history[|history| - 1] == Instant(names, commits)
      && (forall n :: n in names ==> names[n] < next)
    }

    /** What the directory of this identity holds. */
    function TreeOf(id: Ident): Tree
      reads this`trees
    {
      if id in trees then trees[id] else Tree({}, map[])
    }

    constructor (names: Names, trees: map<Ident, Tree>, next: Ident, schedule: nat -> bool)
      requires forall n :: n in names ==> names[n] < next
      ensures Recorded() && this.names == names && Faults() == 0 && commits == 0 && this.trees == trees
    {
      this.names, this.calls, this.schedule := names, 0, schedule;
      this.trees, this.next := trees, next;
      commits, history := 0, [Instant(names, 0)];
    }

    /** Accounts for one call that may fail: a context check, a stat of a held handle, closing a handle. */
    method Fault() returns (failed: bool)
      modifies this`calls
      ensures failed == schedule(old(calls)) && calls == old(calls) + 1
      ensures Faults() == old(Faults()) + if failed then 1 else 0
    {
      failed := schedule(calls);
      calls := calls + 1;
    }

    method Lstat(name: Name) returns (found: Lookup)
      modifies this`calls
      ensures found.Failed? <==> schedule(old(calls))
      ensures found.Failed? <==> Faults() != old(Faults())
      ensures (Faults() == old(Faults()) || Faults() == old(Faults()) + 1) && calls == old(calls) + 1
      ensures found.Present? ==> Binds(names, name, found.id)
      ensures found.Absent? ==> name !in names
    {
      var failed := Fault();
      if failed { return Failed; }
      if name in names { return Present(names[name]); }
      return Absent;
    }

    method Rename(source: Name, destination: Name) returns (ok: bool)
      requires Recorded()
      modifies this`calls, this`names, this`history
      ensures Recorded()
      ensures (Faults() == old(Faults()) || Faults() == old(Faults()) + 1) && calls == old(calls) + 1
      ensures ok <==> source in old(names) && Faults() == old(Faults())
      ensures ok ==> names == (old(names) - {source})[destination := old(names)[source]]
      ensures ok ==> history == old(history) + [Instant(names, commits)]
      ensures !ok ==> names == old(names) && history == old(history)
    {
      var failed := Fault();
      if failed || source !in names { return false; }
      names := (names - {source})[destination := names[source]];
      history := history + [Instant(names, commits)];
      return true;
    }

    method Mkdir(name: Name) returns (ok: bool)
      requires Recorded()
      modifies this`calls, this`names, this`history, this`next, this`trees
      ensures Recorded() && next >= old(next)
      ensures (Faults() == old(Faults()) || Faults() == old(Faults()) + 1) && calls == old(calls) + 1
      ensures ok <==> name !in old(names) && Faults() == old(Faults())
      ensures ok <==> name !in old(names) && !schedule(old(calls))
      ensures ok ==> names == old(names)[name := old(next)] && TreeOf(old(next)) == Tree({}, map[])
      ensures ok ==> history == old(history) + [Instant(names, commits)]
      ensures !ok ==> names == old(names) && history == old(history)
      ensures forall id: Ident :: id < old(next) ==> TreeOf(id) == old(TreeOf(id))
    {
      var failed := Fault();
      if failed || name in names { return false; }
      names := names[name := next];
      trees, next := trees[next := Tree({}, map[])], next + 1;
      history := history + [Instant(names, commits)];
      return true;
    }

    /** `MkdirAll` below the directory with this identity. */
    method MakeDirectories(id: Ident, path: Path) returns (ok: bool)
      modifies this`calls, this`trees
      ensures (Faults() == old(Faults()) || Faults() == old(Faults()) + 1) && calls == old(calls) + 1
      ensures ok <==> Walkable(old(TreeOf(id)), path) && Faults() == old(Faults())
      ensures ok ==> TreeOf(id) == Tree(old(TreeOf(id)).directories + Upwards(path), old(TreeOf(id)).files)
      ensures forall other :: other != id ==> TreeOf(other) == old(TreeOf(other))
    {
      var failed := Fault();
      var tree := TreeOf(id);
      if failed || !Walkable(tree, path) { return false; }
      trees := trees[id := Tree(tree.directories + Upwards(path), tree.files)];
      return true;
    }

    /** Exclusive creation of an empty file in a directory that exists. */
    method CreateFile(id: Ident, path: Path) returns (ok: bool)
      modifies this`calls, this`trees
      ensures (Faults() == old(Faults()) || Faults() == old(Faults()) + 1) && calls == old(calls) + 1
      ensures ok <==> && path != [] && path !in old(TreeOf(id)).directories && path !in old(TreeOf(id)).files
                      && (Parent(path) == [] || Parent(path) in old(TreeOf(id)).directories)
                      && Faults() == old(Faults())
      ensures ok ==> TreeOf(id) == Tree(old(TreeOf(id)).directories, old(TreeOf(id)).files[path := []])
      ensures forall other :: other != id ==> TreeOf(other) == old(TreeOf(other))
    {
      var failed := Fault();
      var tree := TreeOf(id);
      if failed || path == [] || path in tree.directories || path in tree.files { return false; }
      if Parent(path) != [] && Parent(path) !in tree.directories { return false; }
      trees := trees[id := Tree(tree.directories, tree.files[path := []])];
      return true;
    }

    /** Appends to an open file. */
    method Write(id: Ident, path: Path, data: Bytes) returns (ok: bool)
      requires path in TreeOf(id).files
      modifies this`calls, this`trees
      ensures (Faults() == old(Faults()) || Faults() == old(Faults()) + 1) && calls == old(calls) + 1
      ensures ok <==> Faults() == old(Faults())
      ensures ok ==> TreeOf(id) == Tree(old(TreeOf(id)).directories,
                                        old(TreeOf(id)).files[path := old(TreeOf(id)).files[path] + data])
      ensures !ok ==> trees == old(trees)
      ensures forall other :: other != id ==> TreeOf(other) == old(TreeOf(other))
    {
      var failed := Fault();
      if failed { return false; }
      var tree := TreeOf(id);
      trees := trees[id := Tree(tree.directories, tree.files[path := tree.files[path] + data])];
      return true;
    }

    method RemoveAll(name: Name) returns (ok: bool)
      requires Recorded()
      modifies this`calls, this`names, this`history
      ensures Recorded()
      ensures (Faults() == old(Faults()) || Faults() == old(Faults()) + 1) && calls == old(calls) + 1
      ensures ok <==> Faults() == old(Faults())
      ensures ok ==> names == old(names) - {name}
      ensures ok ==> history == old(history) + [Instant(names, commits)]
      ensures !ok ==> names == old(names) && history == old(history)
    {
      var failed := Fault();
      if failed { return false; }
      names := names - {name};
      history := history + [Instant(names, commits)];
      return true;
    }

    method ValidateRetained(name: Name, expected: Option<Ident>) returns (ok: bool)
      modifies this`calls
      ensures (Faults() == old(Faults()) || Faults() == old(Faults()) + 1) && calls >= old(calls)
      ensures ok <==> expected.Some? && Binds(names, name, expected.value) && Faults() == old(Faults())
      ensures ok ==> calls == old(calls) + 1
    {
      if expected.None? { return false; }
      var found := Lstat(name);
      return found == Present(expected.value);
    }

    /** Renames only what it can identify, and only onto a free name. */
    method RenameRetained(source: Name, expected: Option<Ident>, destination: Name) returns (ok: bool)
      requires Recorded()
      modifies this`calls, this`names, this`history
      ensures Recorded() && Faults() >= old(Faults()) && calls >= old(calls)
      ensures ok <==> && expected.Some? && Binds(old(names), source, expected.value)
                      && destination !in old(names) && Faults() == old(Faults())
      ensures ok ==> names == (old(names) - {source})[destination := expected.value]
      ensures ok ==> history == old(history) + [Instant(names, commits)]
      ensures !ok ==> names == old(names) && history == old(history)
      ensures ok ==> calls == old(calls) + 3
    {
      var valid := ValidateRetained(source, expected);
      if !valid { return false; }
      var found := Lstat(destination);
      if !found.Absent? { return false; }
      ok := Rename(source, destination);
    }

    /** Removes only what it can identify. */
    method RemoveRetained(name: Name, expected: Option<Ident>) returns (ok: bool)
      requires Recorded()
      modifies this`calls, this`names, this`history
      ensures Recorded() && Faults() >= old(Faults()) && calls >= old(calls)
      ensures ok <==> expected.Some? && Binds(old(names), name, expected.value) && Faults() == old(Faults())
      ensures ok ==> names == old(names) - {name}
      ensures ok ==> history == old(history) + [Instant(names, commits)]
      ensures !ok ==> names == old(names) && history == old(history)
      ensures ok ==> calls == old(calls) + 2
    {
      var valid := ValidateRetained(name, expected);
      if !valid { return false; }
      ok := RemoveAll(name);
    }
  }

  /** The planned output: its path below the ancestor, and the retained handle once there is one. */
  class Target {
    const parents: seq<Name>
    const out: Name
    var generated: Option<Ident>

    constructor (parents: seq<Name>, out: Name, generated: Option<Ident>)
      ensures this.parents == parents && this.out == out && this.generated == generated
    {
      this.parents, this.out, this.generated := parents, out, generated;
    }

    method ValidateAncestor(d: Disk) returns (ok: bool)
      modifies d`calls
      ensures d.Faults() >= old(d.Faults()) && d.calls >= old(d.calls)
      ensures ok <==> d.Faults() == old(d.Faults())
      ensures ok <==> forall k :: old(d.calls) <= k < old(d.calls) + 3 ==> !d.schedule(k)
      ensures if ok then d.calls == old(d.calls) + 3 else d.calls <= old(d.calls) + 3
    {
      var cancelled := d.Fault();
      if cancelled { return false; }
      var heldFailed := d.Fault();
      var namedFailed := d.Fault();
      return !heldFailed && !namedFailed;
    }

    method ValidatePath(d: Disk, components: seq<Name>) returns (ok: bool)
      modifies d`calls
      ensures d.Faults() >= old(d.Faults()) && d.calls >= old(d.calls)
      ensures ok <==> d.Faults() == old(d.Faults()) && forall c :: c in components ==> c in d.names
      ensures ok ==> d.calls == old(d.calls) + 2 * |components|
    {
      for i := 0 to |components|
        invariant d.Faults() == old(d.Faults()) && d.calls == old(d.calls) + 2 * i
        invariant forall c :: c in components[..i] ==> c in d.names
      {
        var cancelled := d.Fault();
        if cancelled { return false; }
        var found := d.Lstat(components[i]);
        if !found.Present? { return false; }
      }
      assert components[..|components|] == components;
      return true;
    }

    /** The retained output is still the directory its name leads to. */
    method Validate(d: Disk) returns (ok: bool)
      modifies d`calls
      ensures d.Faults() >= old(d.Faults()) && d.calls >= old(d.calls)
      ensures ok ==> d.Faults() == old(d.Faults()) && generated.Some? && Binds(d.names, out, generated.value)
      ensures (&& d.Faults() == old(d.Faults()) && generated.Some? && Binds(d.names, out, generated.value)
               && forall p :: p in parents ==> p in d.names) ==> ok
      ensures ok ==> d.calls == old(d.calls) + 8 + 2 * |parents|
    {
      if generated.None? { return false; }
      ok := ValidateAncestor(d);
      if !ok { return; }
      ok := ValidatePath(d, parents + [out]);
      if !ok { return; }
      var heldFailed := d.Fault();
      var absolute := d.Lstat(out);
      if heldFailed || absolute != Present(generated.value) { return false; }
      var cancelled := d.Fault();
      return !cancelled;
    }

    /** `MkdirAll` on the parent path: the missing ones, outermost first. */
    method CreateParents(d: Disk) returns (ok: bool)
      requires d.Recorded()
      modifies d`calls, d`names, d`history, d`next, d`trees
      ensures forall id: Ident :: id < old(d.next) ==> d.TreeOf(id) == old(d.TreeOf(id))
      ensures d.Recorded() && d.next >= old(d.next) && d.Faults() >= old(d.Faults()) && d.calls >= old(d.calls)
      ensures Grown(old(d.names), d.names, parents)
      ensures ok ==> forall p :: p in parents ==> p in d.names
      ensures ok <==> d.Faults() == old(d.Faults())
      ensures old(d.history) <= d.history
      ensures forall i :: |old(d.history)| <= i < |d.history| ==>
                d.history[i].commits == d.commits && Grown(old(d.names), d.history[i].names, parents)
      ensures ok ==> d.calls > old(d.calls)
    {
      var createFailed := d.Fault();
      if createFailed { return false; }
      for i := 0 to |parents|
        invariant d.Recorded() && d.next >= old(d.next) && d.Faults() == old(d.Faults()) && d.calls > old(d.calls)
        invariant forall id: Ident :: id < old(d.next) ==> d.TreeOf(id) == old(d.TreeOf(id))
        invariant Grown(old(d.names), d.names, parents)
        invariant forall p :: p in parents[..i] ==> p in d.names
        invariant old(d.history) <= d.history
        invariant forall j :: |old(d.history)| <= j < |d.history| ==>
                    d.history[j].commits == d.commits && Grown(old(d.names), d.history[j].names, parents)
      {
        if parents[i] !in d.names {
          var made := d.Mkdir(parents[i]);
          if !made { return false; }
        }
      }
      assert parents[..|parents|] == parents;
      return true;
    }

    /** Creates the missing parents of the output and looks at every component again. */
    method EnsureOutputParent(d: Disk) returns (ok: bool)
      requires d.Recorded()
      modifies d`calls, d`names, d`history, d`next, d`trees
      ensures forall id: Ident :: id < old(d.next) ==> d.TreeOf(id) == old(d.TreeOf(id))
      ensures d.Recorded() && d.next >= old(d.next) && d.Faults() >= old(d.Faults()) && d.calls >= old(d.calls)
      ensures Grown(old(d.names), d.names, parents)
      ensures ok ==> forall p :: p in parents ==> p in d.names
      ensures ok <==> d.Faults() == old(d.Faults())
      ensures old(d.history) <= d.history
      ensures forall i :: |old(d.history)| <= i < |d.history| ==>
                d.history[i].commits == d.commits && Grown(old(d.names), d.history[i].names, parents)
      ensures ok ==> d.calls >= old(d.calls) + if parents == [] then 3 else 4 + 2 * |parents|
    {
      if parents == [] {
        ok := ValidateAncestor(d);
        return;
      }
      ok := CreateParents(d);
      if !ok { return; }
      ok := ValidatePath(d, parents);
      if !ok { return; }
      ok := ValidateAncestor(d);
    }
  }

  /** The private directory a generation is written to before it becomes the output. */
  class Stage {
    const target: Target
    var name: Name            // "" once the directory has been given away
    var root: Option<Ident>   // the held handle
    var info: Option<Ident>

    constructor (target: Target, name: Name)
      ensures this.target == target && this.name == name && root.None? && info.None?
    {
      this.target, this.name, root, info := target, name, None, None;
    }

    /** A stage that holds its directory, under a name no part of the output path uses. */
    ghost predicate Ready()
      reads this
    {
      && name != "" && root.Some? && info == root
      && name != target.out && name !in target.parents && target.out !in target.parents
    }

    method Validate(d: Disk) returns (ok: bool)
      modifies d`calls
      ensures d.Faults() >= old(d.Faults()) && d.calls >= old(d.calls)
      ensures ok <==> && d.Faults() == old(d.Faults()) && name != "" && info.Some? && root == info
                      && Binds(d.names, name, info.value)
      ensures ok ==> d.calls == old(d.calls) + 7
    {
      if root.None? || info.None? || name == "" { return false; }
      ok := target.ValidateAncestor(d);
      if !ok { return; }
      var heldFailed := d.Fault();
      var named := d.Lstat(name);
      var absolute := d.Lstat(name);
      if heldFailed || root != info || named != Present(info.value) || absolute != Present(info.value) {
        return false;
      }
      var cancelled := d.Fault();
      return !cancelled;
    }

    ghost function DutyOf(d: Disk, backup: Name): Duty
      requires info.Some?
      reads this, target, d
    {
      Duty(target.generated, target.out, backup, info.value, d.commits)
    }

    /** Everything `publish` checks before it touches a name. */
    method Preflight(d: Disk) returns (ok: bool)
      requires d.Recorded() && Ready()
      modifies d`calls, d`names, d`history, d`next, d`trees
      ensures forall id: Ident :: id < old(d.next) ==> d.TreeOf(id) == old(d.TreeOf(id))
      ensures d.Recorded() && d.next >= old(d.next) && d.Faults() >= old(d.Faults()) && d.calls >= old(d.calls)
      ensures Grown(old(d.names), d.names, target.parents)
      ensures old(d.history) <= d.history
      ensures forall i :: |old(d.history)| <= i < |d.history| ==>
                d.history[i].commits == d.commits && Grown(old(d.names), d.history[i].names, target.parents)
      ensures ok ==> d.Faults() == old(d.Faults()) && Binds(d.names, name, info.value)
      ensures ok ==> forall p :: p in target.parents ==> p in d.names
      ensures ok ==> if target.generated.None? then target.out !in d.names
                     else Binds(d.names, target.out, target.generated.value)
      ensures (&& d.Faults() == old(d.Faults()) && Binds(d.names, name, info.value)
               && if target.generated.None? then target.out !in d.names
                  else Binds(d.names, target.out, target.generated.value)) ==> ok
      ensures ok ==> d.calls >= old(d.calls) + 7 + (if target.parents == [] then 3 else 4 + 2 * |target.parents|)
                                 + if target.generated.None? then 1 else 8 + 2 * |target.parents|
    {
      ok := Validate(d);
      if !ok { return; }
      ok := target.EnsureOutputParent(d);
      if !ok { return; }
      if target.generated.None? {
        var found := d.Lstat(target.out);
        return found.Absent?;
      }
      ok := target.Validate(d);
    }

    /** Moves the previous output to the backup name, and back again if it cannot be recognised there. */
    method SetAside(d: Disk, backup: Name) returns (r: Outcome)
      requires d.Recorded() && Ready() && target.generated.Some?
      requires Binds(d.names, target.out, target.generated.value)
      modifies d`calls, d`names, d`history
      ensures d.Recorded() && d.Faults() >= old(d.Faults()) && d.calls >= old(d.calls) && !r.Uncleaned?
      ensures r.Published? ==> d.Faults() == old(d.Faults()) && SafeName(backup)
      ensures r.Published? ==> backup !in old(d.names) && backup != name
                               && d.names == Parked(old(d.names), target.out, backup, target.generated.value)
      ensures r == Aborted(true) ==> d.names == old(d.names)
      ensures r == Aborted(false) ==>
                && d.Faults() >= old(d.Faults()) + 2 && backup !in old(d.names) && backup != name
                && d.names == Parked(old(d.names), target.out, backup, target.generated.value)
      ensures d.Faults() == old(d.Faults()) && SafeName(backup) && backup != name && backup !in old(d.names)
              ==> r.Published?
      ensures old(d.history) <= d.history
      ensures DutyOf(d, backup).MetSince(d.history, |old(d.history)|)
      ensures r.Published? ==> d.calls == old(d.calls) + 4
    {
      var drawFailed := d.Fault();
      if drawFailed || !SafeName(backup) || backup == name { return Aborted(true); }
      var found := d.Lstat(backup);
      if !found.Absent? { return Aborted(true); }
      var moved := d.Rename(target.out, backup);
      if !moved { return Aborted(true); }
      var there := d.Lstat(backup);
      if there != Present(target.generated.value) {
        var restored := d.RenameRetained(backup, target.generated, target.out);
        assert restored ==> d.names == old(d.names);
        return Aborted(restored);
      }
      return Published;
    }

    /** The last look at the new output, while everything can still be undone. */
    method Confirm(d: Disk, backup: Name) returns (ok: bool)
      requires Ready()
      modifies d`calls
      ensures d.Faults() >= old(d.Faults()) && d.calls >= old(d.calls)
      ensures ok <==> && d.Faults() == old(d.Faults()) && Binds(d.names, target.out, info.value)
                      && (target.generated.Some? ==> Binds(d.names, backup, target.generated.value))
      ensures ok ==> d.calls == old(d.calls) + if target.generated.Some? then 5 else 4
    {
      var named := d.Lstat(target.out);
      var absolute := d.Lstat(target.out);
      var heldFailed := d.Fault();
      if heldFailed || root != info || named != Present(info.value) || absolute != Present(info.value) {
        return false;
      }
      if target.generated.Some? {
        ok := d.ValidateRetained(backup, target.generated);
        if !ok { return; }
      }
      var cancelled := d.Fault();
      return !cancelled;
    }

    /** The situations a failed rollback leaves behind: nothing is lost, but not every name is back in place. */
    ghost predicate Stranded(names: Names, base: Names, previous: Option<Ident>, backup: Name)
      requires info.Some?
      reads this, target
    {
      if previous.None? then
        names == Swapped(base, name, target.out, info.value)
      else
        var parked := Parked(base, target.out, backup, previous.value);
        backup !in base && backup != name && (names == parked || names == Swapped(parked, name, target.out, info.value))
    }

    /** The output name is free: nothing was there, or the previous output waits under the backup name. */
    ghost predicate Cleared(names: Names, base: Names, backup: Name)
      reads this, target
    {
      && name in base
      && if target.generated.None? then
           target.out !in base && names == base
         else
           && Binds(base, target.out, target.generated.value) && backup !in base && backup != name
           && names == Parked(base, target.out, backup, target.generated.value)
    }

    /** The stage is bound to the output name, the previous output still waits. */
    ghost predicate Installed(names: Names, base: Names, backup: Name)
      reads this, target
    {
      && info.Some? && Binds(base, name, info.value)
      && if target.generated.None? then
           target.out !in base && names == Swapped(base, name, target.out, info.value)
         else
           && Binds(base, target.out, target.generated.value) && backup !in base && backup != name
           && names == Swapped(Parked(base, target.out, backup, target.generated.value), name, target.out, info.value)
    }

    /** Gives the stage its name back, then the previous output. */
    method RollBack(d: Disk, backup: Name, ghost base: Names) returns (ok: bool)
      requires d.Recorded() && Ready() && Installed(d.names, base, backup)
      modifies d`calls, d`names, d`history
      ensures d.Recorded() && d.Faults() >= old(d.Faults()) && d.calls >= old(d.calls)
      ensures ok <==> d.Faults() == old(d.Faults())
      ensures ok ==> d.names == base
      ensures !ok ==> Stranded(d.names, base, target.generated, backup)
      ensures old(d.history) <= d.history
      ensures DutyOf(d, backup).MetSince(d.history, |old(d.history)|)
      ensures ok ==> d.calls == old(d.calls) + if target.generated.Some? then 6 else 3
    {
      ok := d.RenameRetained(target.out, info, name);
      if target.generated.None? {
        assert ok ==> d.names == base;
        return;
      }
      assert ok ==> d.names == Parked(base, target.out, backup, target.generated.value);
      if ok {
        ok := d.RenameRetained(backup, target.generated, target.out);
        assert ok ==> d.names == base;
      }
    }

    /** Moves the stage onto the output name and looks at it once more; undoes everything if either fails. */
    method Install(d: Disk, backup: Name, ghost base: Names) returns (r: Outcome)
      requires d.Recorded() && Ready() && Cleared(d.names, base, backup) && Binds(base, name, info.value)
      modifies d`calls, d`names, d`history
      ensures d.Recorded() && d.Faults() >= old(d.Faults()) && d.calls >= old(d.calls) && !r.Uncleaned?
      ensures r.Published? <==> d.Faults() == old(d.Faults())
      ensures r.Published? ==> Installed(d.names, base, backup)
      ensures r == Aborted(true) ==> d.names == base
      ensures r == Aborted(false) ==>
                d.Faults() >= old(d.Faults()) + 2 && Stranded(d.names, base, target.generated, backup)
      ensures old(d.history) <= d.history
      ensures DutyOf(d, backup).MetSince(d.history, |old(d.history)|)
      ensures r.Published? ==> d.calls == old(d.calls) + if target.generated.Some? then 6 else 5
    {
      var moved := d.Rename(name, target.out);
      if !moved {
        var restored := true;
        if target.generated.Some? {
          restored := d.RenameRetained(backup, target.generated, target.out);
          assert restored ==> d.names == base;
        }
        return Aborted(restored);
      }
      var genuine := Confirm(d, backup);
      if !genuine {
        var restored := RollBack(d, backup, base);
        return Aborted(restored);
      }
      return Published;
    }

    /** Hands the directory over to the target, then removes what it replaced. */
    method Commit(d: Disk, backup: Name, ghost base: Names) returns (r: Outcome)
      requires d.Recorded() && Ready() && Installed(d.names, base, backup)
      modifies d`calls, d`names, d`history, d`commits, this, target
      ensures d.Recorded() && d.Faults() >= old(d.Faults()) && d.calls >= old(d.calls)
      ensures d.commits == old(d.commits) + 1
      ensures !r.Aborted? && (r.Published? <==> d.Faults() == old(d.Faults()))
      ensures target.generated == old(info) && name == "" && root.None? && info == old(info)
      ensures r.Published? ==> d.names == old(Swapped(base, name, target.out, info.value))
      ensures r.Uncleaned? ==> || d.names == old(Swapped(base, name, target.out, info.value))
                               || d.names == old(d.names)
      ensures old(d.history) <= d.history
      ensures old(DutyOf(d, backup)).MetSince(d.history, |old(d.history)|)
      ensures r.Published? ==> d.calls == old(d.calls) + if old(target.generated).Some? then 3 else 0
    {
      var previous := target.generated;
      if previous.Some? {
        DroppingTheBackup(base, name, target.out, backup, previous.value, info.value);
      }
      target.generated := root;
      root, name := None, "";
      d.commits := d.commits + 1;
      d.history := d.history + [Instant(d.names, d.commits)];
      r := Published;
      if previous.Some? {
        var closeFailed := d.Fault();
        if closeFailed { r := Uncleaned; }
        var removed := d.RemoveRetained(backup, previous);
        if !removed { r := Uncleaned; }
      }
    }

    /**
     `publish`. `base` is the directory after the missing parents of the output were created; every
     other name keeps its binding throughout.
     */
    method Publish(d: Disk, backup: Name) returns (r: Outcome, ghost base: Names)
      requires d.Recorded() && Ready()
      modifies d`calls, d`names, d`history, d`commits, d`next, d`trees, this, target
      ensures forall id: Ident :: id < old(d.next) ==> d.TreeOf(id) == old(d.TreeOf(id))
      ensures d.Recorded() && d.next >= old(d.next) && d.Faults() >= old(d.Faults()) && d.calls >= old(d.calls)
      ensures Grown(old(d.names), base, target.parents)
      // the whole new state, for every outcome and any number of faults
      ensures r.Aborted? ==> name == old(name) && root == old(root) && info == old(info)
                             && target.generated == old(target.generated) && d.commits == old(d.commits)
      ensures !r.Aborted? ==> name == "" && root.None? && target.generated == info == old(info)
                              && d.commits == old(d.commits) + 1
      ensures r.Published? ==> d.names == Swapped(base, old(name), target.out, old(info).value)
      ensures r.Published? && old(target.generated.Some?) ==> backup !in d.names
      ensures r.Uncleaned? ==>
                && d.Faults() > old(d.Faults())
                && (|| d.names == Swapped(base, old(name), target.out, old(info).value)
                    || (old(target.generated.Some?) && backup !in base &&
                        d.names == Swapped(Parked(base, target.out, backup, old(target.generated).value),
                                           old(name), target.out, old(info).value)))
      ensures r == Aborted(true) ==> d.names == base
      // a single failure is always undone, and without failures the swap happens
      ensures r == Aborted(false) ==>
                d.Faults() >= old(d.Faults()) + 2 && Stranded(d.names, base, target.generated, backup)
      ensures r.Published? <==>
                && d.Faults() == old(d.Faults()) && Binds(old(d.names), old(name), old(info).value)
                && if old(target.generated.None?) then target.out !in old(d.names)
                   else && Binds(old(d.names), target.out, old(target.generated).value)
                        && SafeName(backup) && backup != old(name)
                        && backup !in old(d.names) && backup !in target.parents
      // at no instant is there no output to go back to
      ensures old(d.history) <= d.history
      ensures old(target.generated.Some? ==> Binds(d.names, target.out, target.generated.value)) ==>
                old(DutyOf(d, backup)).MetSince(d.history, |old(d.history)|)
      ensures r.Published? ==>
                d.calls >= old(d.calls) + 7 + (if target.parents == [] then 3 else 4 + 2 * |target.parents|)
                           + if old(target.generated).None? then 6 else 21 + 2 * |target.parents|
    {
      var ready := Preflight(d);
      base := d.names;
      if !ready { return Aborted(true), base; }
      if target.generated.Some? {
        r := SetAside(d, backup);
        if !r.Published? { return r, base; }
      }
      r := Install(d, backup, base);
      if !r.Published? { return r, base; }
      r := Commit(d, backup, base);
    }

    /** `close`: releases the handle and deletes the directory only while its name still leads to it. */
    method Close(d: Disk) returns (ok: bool)
      requires d.Recorded()
      modifies d`calls, d`names, d`history, this
      ensures d.Recorded() && d.Faults() >= old(d.Faults()) && d.calls >= old(d.calls)
      ensures root.None? && name == "" && info == old(info)
      ensures || (d.names == old(d.names) && d.history == old(d.history))
              || (&& old(name) != "" && old(info).Some? && Binds(old(d.names), old(name), old(info).value)
                  && d.names == old(d.names) - {old(name)}
                  && d.history == old(d.history) + [Instant(d.names, d.commits)])
      ensures ok && old(name) != "" ==> old(name) !in d.names
      ensures (&& d.Faults() == old(d.Faults()) && (old(root).Some? ==> old(root) == old(info))
               && (old(name) != "" ==> old(info).Some? && Binds(old(d.names), old(name), old(info).value))) ==> ok
      ensures ok ==> d.calls == old(d.calls) + (if old(root).Some? then 2 else 0) + if old(name) != "" then 2 else 0
    {
      ok := true;
      if root.Some? {
        var heldFailed := d.Fault();
        if heldFailed || info != root { ok := false; }
        var closeFailed := d.Fault();
        if closeFailed { ok := false; }
        root := None;
      }
      if name != "" {
        var removed := d.RemoveRetained(name, info);
        if !removed { ok := false; }
        name := "";
      }
    }

    /**
     `copyBundleGenerationFile`: one context check, one read and one write per chunk, and a last read that
     finds the end.
     */
    method CopyFile(d: Disk, id: Ident, path: Path, chunks: seq<Bytes>) returns (ok: bool)
      requires path in d.TreeOf(id).files
      modifies d`calls, d`trees
      ensures d.Faults() >= old(d.Faults()) && d.calls >= old(d.calls)
      ensures ok <==> d.Faults() == old(d.Faults())
      ensures ok ==> d.calls == old(d.calls) + 3 * |chunks| + 2
      ensures ok ==> d.TreeOf(id) == Tree(
                       old(d.TreeOf(id)).directories,
                       old(d.TreeOf(id)).files[path := old(d.TreeOf(id)).files[path] + Joined(chunks)])
      ensures forall other :: other != id ==> d.TreeOf(other) == old(d.TreeOf(other))
    {
      ghost var before := d.TreeOf(id);
      assert before.files[path] + Joined(chunks[..0]) == before.files[path];
      assert before.files[path := before.files[path]] == before.files;
      for i := 0 to |chunks|
        invariant d.Faults() == old(d.Faults()) && d.calls == old(d.calls) + 3 * i
        invariant d.TreeOf(id) == Tree(before.directories,
                                       before.files[path := before.files[path] + Joined(chunks[..i])])
        invariant forall other :: other != id ==> d.TreeOf(other) == old(d.TreeOf(other))
      {
        JoinedStep(chunks, i, before.files[path]);
        var cancelled := d.Fault();
        if cancelled { return false; }
        var readFailed := d.Fault();
        var written := d.Write(id, path, chunks[i]);
        if !written || readFailed { return false; }
      }
      assert chunks[..|chunks|] == chunks;
      var cancelled := d.Fault();
      if cancelled { return false; }
      var readFailed := d.Fault();
      return !readFailed;
    }

    /** One file of the inventory: opened, inspected, created below the stage, copied, and both ends closed. */
    method CopyEntry(d: Disk, id: Ident, file: File) returns (ok: bool)
      modifies d`calls, d`trees
      ensures d.Faults() >= old(d.Faults()) && d.calls >= old(d.calls)
      ensures ok <==> d.Faults() == old(d.Faults()) && HasRoom(old(d.TreeOf(id)), file.path)
      ensures ok ==> d.calls == old(d.calls) + 9 + 3 * |file.chunks|
      ensures ok ==> d.TreeOf(id) == Tree(old(d.TreeOf(id)).directories + Upwards(Parent(file.path)),
                                          old(d.TreeOf(id)).files[file.path := Joined(file.chunks)])
      ensures forall other :: other != id ==> d.TreeOf(other) == old(d.TreeOf(other))
    {
      ghost var before := d.TreeOf(id);
      PlaceOf(before, file.path);
      var cancelled := d.Fault();
      if cancelled { return false; }
      var openFailed := d.Fault();
      if openFailed { return false; }
      var statFailed := d.Fault();
      var ready := false;
      if !statFailed { ready := d.MakeDirectories(id, Parent(file.path)); }
      var created := false;
      if ready { created := d.CreateFile(id, file.path); }
      if !created {
        var ignored := d.Fault();
        return false;
      }
      ok := CopyFile(d, id, file.path, file.chunks);
      assert [] + Joined(file.chunks) == Joined(file.chunks);
      var sourceCloseFailed := d.Fault();
      var destinationCloseFailed := d.Fault();
      ok := ok && !sourceCloseFailed && !destinationCloseFailed;
    }

    /** The first loop of `copyInventory`. */
    method CopyDirectories(d: Disk, id: Ident, directories: seq<Path>) returns (ok: bool)
      modifies d`calls, d`trees
      ensures d.Faults() >= old(d.Faults()) && d.calls >= old(d.calls)
      ensures ok <==> d.Faults() == old(d.Faults()) && Fits(old(d.TreeOf(id)), directories, [])
      ensures ok ==> d.calls == old(d.calls) + 2 * |directories|
      ensures ok ==> Added(d.TreeOf(id), old(d.TreeOf(id)), directories, [])
      ensures forall other :: other != id ==> d.TreeOf(other) == old(d.TreeOf(other))
    {
      ghost var base := d.TreeOf(id);
      for i := 0 to |directories|
        invariant d.Faults() == old(d.Faults()) && d.calls == old(d.calls) + 2 * i
        invariant forall other :: other != id ==> d.TreeOf(other) == old(d.TreeOf(other))
        invariant Added(d.TreeOf(id), base, directories[..i], []) && Fits(base, directories[..i], [])
      {
        var cancelled := d.Fault();
        if cancelled { return false; }
        OneMoreDirectory(d.TreeOf(id), base, directories[..i], directories[i]);
        assert directories[..i + 1] == directories[..i] + [directories[i]];
        var made := d.MakeDirectories(id, directories[i]);
        if !made { return false; }
      }
      assert directories[..|directories|] == directories;
      return true;
    }

    /** The second loop, into a tree that already has the directories. */
    method CopyFiles(d: Disk, id: Ident, ghost base: Tree, ghost directories: seq<Path>, files: seq<File>)
      returns (ok: bool)
      requires Added(d.TreeOf(id), base, directories, []) && Fits(base, directories, [])
      modifies d`calls, d`trees
      ensures d.Faults() >= old(d.Faults()) && d.calls >= old(d.calls)
      ensures ok <==> d.Faults() == old(d.Faults()) && Fits(base, directories, files)
      ensures ok ==> d.calls == old(d.calls) + CallsToCopy(files)
      ensures ok ==> Added(d.TreeOf(id), base, directories, files)
      ensures forall other :: other != id ==> d.TreeOf(other) == old(d.TreeOf(other))
    {
      assert files[..0] == [];
      for i := 0 to |files|
        invariant d.Faults() == old(d.Faults()) && d.calls == old(d.calls) + CallsToCopy(files[..i])
        invariant forall other :: other != id ==> d.TreeOf(other) == old(d.TreeOf(other))
        invariant Added(d.TreeOf(id), base, directories, files[..i]) && Fits(base, directories, files[..i])
      {
        NextFile(d.TreeOf(id), base, directories, files, i);
        ok := CopyEntry(d, id, files[i]);
        if !ok { return; }
      }
      assert files[..|files|] == files;
      return true;
    }

    /** `copyInventory`: the directories, then the files, between two looks at the stage. */
    method CopyInventory(d: Disk, inventory: Inventory) returns (ok: bool)
      modifies d`calls, d`trees
      ensures d.Faults() >= old(d.Faults()) && d.calls >= old(d.calls)
      ensures ok <==> && d.Faults() == old(d.Faults()) && name != "" && info.Some? && root == info
                      && Binds(d.names, name, info.value)
                      && Fits(old(d.TreeOf(info.value)), inventory.directories, inventory.files)
      ensures ok ==> d.calls == old(d.calls) + 14 + 2 * |inventory.directories| + CallsToCopy(inventory.files)
      ensures ok ==> Added(d.TreeOf(info.value), old(d.TreeOf(info.value)), inventory.directories, inventory.files)
      ensures forall other: Ident :: Some(other) != info ==> d.TreeOf(other) == old(d.TreeOf(other))
    {
      ok := Validate(d);
      if !ok { return; }
      ghost var base := d.TreeOf(root.value);
      ok := CopyDirectories(d, root.value, inventory.directories);
      if !ok { return; }
      ok := CopyFiles(d, root.value, base, inventory.directories, inventory.files);
      if !ok { return; }
      ok := Validate(d);
    }

    /** Copies the verified inventory into the stage and verifies the copy. */
    method Fill(d: Disk, inventory: Inventory) returns (ok: bool)
      modifies d`calls, d`trees
      ensures d.Faults() >= old(d.Faults()) && d.calls >= old(d.calls)
      ensures ok <==> && d.Faults() == old(d.Faults()) && name != "" && info.Some? && root == info
                      && Binds(d.names, name, info.value)
                      && Fits(old(d.TreeOf(info.value)), inventory.directories, inventory.files)
      ensures ok ==> d.calls == old(d.calls) + 16 + 2 * |inventory.directories| + CallsToCopy(inventory.files)
      ensures ok ==> Added(d.TreeOf(info.value), old(d.TreeOf(info.value)), inventory.directories, inventory.files)
      ensures forall other: Ident :: Some(other) != info ==> d.TreeOf(other) == old(d.TreeOf(other))
    {
      ok := CopyInventory(d, inventory);
      if !ok { return; }
      var verifyFailed := d.Fault();
      var cancelled := d.Fault();
      return !verifyFailed && !cancelled;
    }

    /** Everything before closing. */
    method FillAndPublish(d: Disk, backup: Name, inventory: Inventory) returns (r: Outcome)
      requires d.Recorded() && Ready() && Binds(d.names, name, info.value)
      requires target.generated.Some? ==> Binds(d.names, target.out, target.generated.value)
      modifies d, this, target
      ensures d.Recorded() && d.Faults() >= old(d.Faults()) && d.calls >= old(d.calls)
      ensures old(d.history) <= d.history
      ensures var duty := Duty(old(target.generated), target.out, backup, old(info).value, old(d.commits));
              duty.MetSince(d.history, |old(d.history)|) && duty.Met(Instant(d.names, d.commits))
      ensures r.Aborted? ==> name == old(name) && root == old(root) && info == old(info)
                             && target.generated == old(target.generated) && d.commits == old(d.commits)
      ensures !r.Aborted? ==>
                name == "" && root.None? && target.generated == info == old(info) && d.commits == old(d.commits) + 1
      ensures Left(r, d.names, old(d.names), d.Faults() - old(d.Faults()), old(target.generated), old(name),
                   old(info).value, target.out, backup, target.parents)
      ensures !r.Aborted? ==>
                Added(d.TreeOf(info.value), old(d.TreeOf(info.value)), inventory.directories, inventory.files)
      ensures forall id: Ident :: id < old(d.next) && Some(id) != info ==> d.TreeOf(id) == old(d.TreeOf(id))
      ensures r.Published? <==>
                && d.Faults() == old(d.Faults())
                && Fits(old(d.TreeOf(info.value)), inventory.directories, inventory.files)
                && if old(target.generated).None? then target.out !in old(d.names)
                   else && SafeName(backup) && backup != old(name)
                        && backup !in old(d.names) && backup !in target.parents
      ensures r.Published? ==>
                d.calls >= old(d.calls) + 16 + 2 * |inventory.directories| + CallsToCopy(inventory.files)
                           + 7 + (if target.parents == [] then 3 else 4 + 2 * |target.parents|)
                           + if old(target.generated).None? then 6 else 21 + 2 * |target.parents|
    {
      var ready := Fill(d, inventory);
      if !ready { return Aborted(true); }
      ghost var base;
      r, base := Publish(d, backup);
    }

    /** Identifies the directory just created under `name` and takes a handle to it. */
    method Retain(d: Disk) returns (ok: bool)
      requires info.None? && root.None? && name != "" && name in d.names
      modifies d`calls, this`root, this`info
      ensures d.Faults() >= old(d.Faults()) && d.calls >= old(d.calls)
      ensures ok <==> d.Faults() == old(d.Faults())
      ensures ok ==> root == info == Some(d.names[name])
      ensures (info.None? || info == Some(d.names[name])) && (root.None? || root == info)
      ensures info.None? <==> d.schedule(old(d.calls))
      ensures info.None? ==> !ok && d.calls == old(d.calls) + 1
      ensures d.calls > old(d.calls)
      ensures ok ==> d.calls == old(d.calls) + 10
    {
      var named := d.Lstat(name);
      if !named.Present? { return false; }
      info := Some(named.id);
      var openFailed := d.Fault();
      if openFailed { return false; }
      root := Some(d.names[name]);
      var heldFailed := d.Fault();
      if heldFailed || root != info { return false; }
      ok := Validate(d);
    }

    /** Retains the directory just created, or closes the stage; `clean` is what `close` reports. */
    method RetainOrClose(d: Disk) returns (ok: bool, clean: bool)
      requires d.Recorded() && info.None? && root.None? && name != "" && name in d.names
      modifies d`calls, d`names, d`history, this
      ensures d.Recorded() && d.Faults() >= old(d.Faults()) && d.calls > old(d.calls)
      ensures ok <==> d.Faults() == old(d.Faults())
      ensures ok ==> d.names == old(d.names) && name == old(name) && root == info == Some(old(d.names[name]))
      ensures ok ==> d.calls == old(d.calls) + 10
      ensures d.names == old(d.names) || d.names == old(d.names) - {old(name)}
      ensures !ok && clean ==> old(name) !in d.names
      // the directory outlives a single failure exactly when the failure was the first look at it
      ensures d.Faults() == old(d.Faults()) + 1 ==> (old(name) in d.names <==> d.schedule(old(d.calls)))
      ensures || d.history == old(d.history)
              || d.history == old(d.history) + [Instant(d.names, d.commits)]
    {
      clean := true;
      ok := Retain(d);
      if !ok { clean := Close(d); }
    }
  }

  /**
   `newGenerationStage`. `clean` is true when the error return had nothing left to clean up.
   After a single failure the private directory is left behind exactly when the failure was the very
   first look at it: its identity is then unknown, so `close` refuses to delete it.
   */
  method NewGenerationStage(d: Disk, target: Target, random: Name) returns (stage: Stage?, clean: bool)
    requires d.Recorded()
    requires random != target.out && random !in target.parents && target.out !in target.parents
    modifies d`calls, d`names, d`history, d`next, d`trees
    ensures forall id: Ident :: id < old(d.next) ==> d.TreeOf(id) == old(d.TreeOf(id))
    ensures d.Recorded() && d.next >= old(d.next) && d.Faults() >= old(d.Faults()) && d.calls >= old(d.calls)
    ensures stage != null ==>
              && fresh(stage) && stage.Ready() && stage.target == target && stage.name == random
              && random !in old(d.names) && d.names == old(d.names)[random := stage.info.value]
              && stage.info.value == old(d.next) < d.next && d.TreeOf(stage.info.value) == Tree({}, map[])
              && d.calls == old(d.calls) + 15
    ensures stage == null && clean ==> d.names == old(d.names)
    ensures stage == null && !clean ==>
              random !in old(d.names) && (d.names == old(d.names) || d.names - {random} == old(d.names))
    ensures stage != null <==> SafeName(random) && random !in old(d.names) && d.Faults() == old(d.Faults())
    // calls 0 to 4 lead up to the new directory, call 5 is the lstat right after it was made
    ensures d.Faults() == old(d.Faults()) + 1 && random !in old(d.names) ==>
              (random in d.names <==>
                 SafeName(random) && d.calls > old(d.calls) + 5 && d.schedule(old(d.calls) + 5))
    ensures old(d.history) <= d.history
    ensures forall i :: |old(d.history)| <= i < |d.history| ==>
              d.history[i].commits == old(d.commits) && Includes(d.history[i].names, old(d.names))
  {
    stage, clean := null, true;
    var ready := target.ValidateAncestor(d);
    if !ready { return; }
    var drawFailed := d.Fault();
    if drawFailed || !SafeName(random) { return; }
    var made := d.Mkdir(random);
    if !made { return; }
    stage := new Stage(target, random);
    var retained;
    ghost var withStage := d.names;
    assert Includes(withStage, old(d.names)) && withStage - {random} == old(d.names);
    retained, clean := stage.RetainOrClose(d);
    assert d.names == withStage || d.names == old(d.names);
    if !retained { stage := null; }
  }

  /**
   With a stage at hand: fill and verify it, publish it, and close it whatever happened. `between` is the
   directory just before closing.
   */
  method PublishAndClose(d: Disk, stage: Stage, backup: Name, inventory: Inventory)
    returns (r: Outcome, ghost between: Names)
    requires d.Recorded() && stage.Ready() && Binds(d.names, stage.name, stage.info.value)
    requires stage.target.generated.Some? ==> Binds(d.names, stage.target.out, stage.target.generated.value)
    modifies d, stage, stage.target
    ensures d.Recorded() && d.Faults() >= old(d.Faults()) && d.calls >= old(d.calls)
    ensures old(d.history) <= d.history
    ensures Duty(old(stage.target.generated), stage.target.out, backup, old(stage.info).value, old(d.commits))
              .MetSince(d.history, |old(d.history)|)
    ensures r.Aborted? ==> stage.target.generated == old(stage.target.generated) && d.commits == old(d.commits)
    ensures !r.Aborted? ==>
              stage.target.generated == old(stage.info) && d.commits == old(d.commits) + 1
    ensures Left(r, between, old(d.names), d.Faults() - old(d.Faults()), old(stage.target.generated), old(stage.name),
                 old(stage.info).value, stage.target.out, backup, stage.target.parents)
    // what was published is the inventory, and no directory of before was written to
    ensures !r.Aborted? ==> Added(d.TreeOf(old(stage.info).value), old(d.TreeOf(stage.info.value)),
                                  inventory.directories, inventory.files)
    ensures forall id: Ident :: id < old(d.next) && Some(id) != old(stage.info) ==> d.TreeOf(id) == old(d.TreeOf(id))
    ensures r.Published? <==>
              && d.Faults() == old(d.Faults())
              && Fits(old(d.TreeOf(stage.info.value)), inventory.directories, inventory.files)
              && if old(stage.target.generated).None? then stage.target.out !in old(d.names)
                 else && SafeName(backup) && backup != old(stage.name)
                      && backup !in old(d.names) && backup !in stage.target.parents
    ensures r.Published? ==>
              d.calls >= old(d.calls) + 23 + 2 * |inventory.directories| + CallsToCopy(inventory.files)
                         + (if stage.target.parents == [] then 3 else 4 + 2 * |stage.target.parents|)
                         + if old(stage.target.generated).None? then 6 else 21 + 2 * |stage.target.parents|
    // whatever publishing ended in, closing removes at most the stage and never what the output name leads to
    ensures d.names == between || (r.Aborted? && d.names == between - {old(stage.name)})
    ensures stage.target.out in between ==> Binds(d.names, stage.target.out, between[stage.target.out])
  {
    ghost var duty :=
      Duty(stage.target.generated, stage.target.out, backup, stage.info.value, d.commits);
    r := stage.FillAndPublish(d, backup, inventory);
    between := d.names;
    ghost var history := d.history;
    if r.Aborted? { DutyWithoutTheStage(duty, between, stage.name); }
    var closed := stage.Close(d);
    StillMet(duty, history, d.history, |old(d.history)|);
    if !closed && r.Published? { r := Uncleaned; }
  }

  /**
   The publication part of the bundle command (pkg/cli/bundle.go): create a stage, fill and verify it,
   publish it, and close it whatever happened.
   */
  method ReplaceOutput(d: Disk, target: Target, random: Name, backup: Name, inventory: Inventory)
    returns (r: Outcome, ghost next: Ident)
    requires d.Recorded()
    requires random != target.out && random !in target.parents && target.out !in target.parents
    requires target.generated.Some? ==> Binds(d.names, target.out, target.generated.value)
    modifies d, target
    ensures d.Recorded() && d.Faults() >= old(d.Faults()) && d.calls >= old(d.calls)
    // at every instant until the commit the previous output has one of its two names, afterwards the new one is there
    ensures old(d.history) <= d.history
    ensures forall i :: |old(d.history)| <= i < |d.history| && d.history[i].commits != old(d.commits) ==>
              target.out in d.history[i].names && d.history[i].names[target.out] == next
    ensures forall i :: |old(d.history)| <= i < |d.history| && d.history[i].commits == old(d.commits)
                        && old(target.generated).Some? ==>
              || (target.out in d.history[i].names && d.history[i].names[target.out] == old(target.generated).value)
              || (backup in d.history[i].names && d.history[i].names[backup] == old(target.generated).value)
    ensures r.Aborted? ==> target.generated == old(target.generated) && d.commits == old(d.commits)
    // the new output holds the files of the inventory with their bytes, and nothing else
    ensures !r.Aborted? ==> && target.generated == Some(next) && target.out in d.names && d.names[target.out] == next
                            && random !in d.names && d.commits == old(d.commits) + 1
    ensures !r.Aborted? ==>
              forall f :: f in inventory.files ==>
                f.path in d.TreeOf(next).files && d.TreeOf(next).files[f.path] == Joined(f.chunks)
    ensures !r.Aborted? ==>
              forall p :: p in d.TreeOf(next).files ==> exists f :: f in inventory.files && f.path == p
    ensures !r.Aborted? ==>
              forall p :: p in d.TreeOf(next).directories <==>
                p != [] && ((exists e :: e in inventory.directories && p <= e) ||
                            (exists f :: f in inventory.files && p <= f.path && p != f.path))
    ensures forall id: Ident :: id < old(d.next) ==> d.TreeOf(id) == old(d.TreeOf(id))
    ensures r.Published? && old(target.generated).Some? ==> backup !in d.names
    // nobody else's name changes, and only missing parents, the stage and the backup can be new besides the output
    ensures forall n :: n in old(d.names) && n != target.out && n != random && n != backup ==>
              n in d.names && d.names[n] == old(d.names)[n]
    ensures forall n :: n in d.names && n !in old(d.names) ==>
              n == target.out || n == random || n == backup || n in target.parents
    // exactly when the replacement goes through without a complaint
    ensures r.Published? <==>
              && d.Faults() == old(d.Faults()) && SafeName(random) && random !in old(d.names)
              && Fits(Tree({}, map[]), inventory.directories, inventory.files)
              && if old(target.generated).None? then target.out !in old(d.names)
                 else SafeName(backup) && backup != random && backup !in old(d.names) && backup !in target.parents
    ensures r.Published? ==>
              d.calls >= old(d.calls) + 38 + 2 * |inventory.directories| + CallsToCopy(inventory.files)
                         + (if target.parents == [] then 3 else 4 + 2 * |target.parents|)
                         + if old(target.generated).None? then 6 else 21 + 2 * |target.parents|
    ensures old(target.generated).Some? && r.Aborted? ==>
              || (target.out in d.names && d.names[target.out] == old(target.generated).value)
              || (backup in d.names && d.names[backup] == old(target.generated).value)
    ensures old(target.generated).Some? && r.Aborted? && d.Faults() <= old(d.Faults()) + 1 ==>
              target.out in d.names && d.names[target.out] == old(target.generated).value
    // a first publication that could not be undone leaves the new directory in place, and closing spares it
    ensures old(target.generated).None? && r == Aborted(false) ==>
              target.out in d.names && d.names[target.out] == next
    ensures old(target.generated).None? && r == Aborted(true) && target.out in d.names ==> target.out in old(d.names)
  {
    next := 0;
    var stage, clean := NewGenerationStage(d, target, random);
    if stage == null { return Aborted(true), 0; }
    next := stage.info.value;
    ghost var between;
    r, between := PublishAndClose(d, stage, backup, inventory);
  }
}
